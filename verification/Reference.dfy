/** The plain meaning of a registry: one scan over its entries, and what that scan answers. */
module Reference {
  import opened Prelude
  import opened GoStrings
  import opened Domain

  /** The rule of an entry, for the entries that have one. */
  function RuleOf(e: RegistryEntry, validIP: IPCheck): Option<BlockingRule> {
    match ToBlockingRule(e, validIP)
    case Ok(rule) => Some(rule)
    case Err(_) => None
  }

  /** The name, address or URL an entry lists. */
  function ListedValue(e: RegistryEntry): string {
    if e.kind == IP then e.ip else if e.kind == URLPath then e.url else e.domain
  }

  /** The entries that have a rule: valid domains, wildcards on valid domains, valid addresses
      and non-empty URLs. */
  predicate Rulable(e: RegistryEntry, validIP: IPCheck) {
    || (e.kind in {DomainName, SNI} && IsValidDomain(e.domain))
    || (e.kind == Wildcard && IsValidDomain(WildcardBase(e.domain)))
    || (e.kind == IP && e.ip != "" && validIP(e.ip))
    || (e.kind == URLPath && e.url != "")
  }

  /** Which entries have a rule, and which rule that is. */
  lemma RuleIff(e: RegistryEntry, validIP: IPCheck)
    ensures RuleOf(e, validIP) ==
            if Rulable(e, validIP) then Some(BlockingRule(e.kind, ListedValue(e), ListedValue(e), e.paths))
            else None
  {
    if e.kind == Wildcard && e.domain == "" {
      assert WildcardBase(e.domain) == "";
    }
  }

  predicate NamesExactly(e: RegistryEntry, q: string, validIP: IPCheck) {
    (e.kind == DomainName || e.kind == SNI) && e.domain == q && RuleOf(e, validIP).Some?
  }

  predicate NamesIP(e: RegistryEntry, q: string, validIP: IPCheck) {
    e.kind == IP && e.ip == q && RuleOf(e, validIP).Some?
  }

  /** A wildcard covers the names strictly below its base, not the base itself. */
  predicate Covers(e: RegistryEntry, q: string, validIP: IPCheck) {
    e.kind == Wildcard && DotSuffix(WildcardBase(e.domain), q) && RuleOf(e, validIP).Some?
  }

  /** What one pass over the entries has seen for a name. */
  datatype Seen = Seen(
    exact: Option<BlockingRule>, ip: Option<BlockingRule>, wild: Option<BlockingRule>, wildLength: nat)

  function Scan(es: seq<RegistryEntry>, q: string, validIP: IPCheck): Seen {
    if es == [] then Seen(None, None, None, 0)
    else
      var seen := Scan(es[..|es| - 1], q, validIP);
      var e := es[|es| - 1];
      var base := WildcardBase(e.domain);
      if NamesExactly(e, q, validIP) then seen.(exact := RuleOf(e, validIP))
      else if NamesIP(e, q, validIP) then seen.(ip := RuleOf(e, validIP))
      else if Covers(e, q, validIP) && (seen.wild.None? || |base| >= seen.wildLength) then
        seen.(wild := RuleOf(e, validIP), wildLength := |base|)
      else seen
  }

  /** The rule that decides `q`, or None when `q` is not blocked. */
  function Verdict(es: seq<RegistryEntry>, q: string, validIP: IPCheck): Option<BlockingRule> {
    var seen := Scan(es, q, validIP);
    if seen.exact.Some? then seen.exact else if seen.ip.Some? then seen.ip else seen.wild
  }

  // ---------------------------------------------------------------- what the scan answers

  /** The last entry that names `q`. */
  ghost predicate LastExact(es: seq<RegistryEntry>, q: string, validIP: IPCheck, i: int) {
    && 0 <= i < |es| && NamesExactly(es[i], q, validIP)
    && forall j | i < j < |es| :: !NamesExactly(es[j], q, validIP)
  }

  ghost predicate LastIP(es: seq<RegistryEntry>, q: string, validIP: IPCheck, i: int) {
    && 0 <= i < |es| && NamesIP(es[i], q, validIP)
    && forall j | i < j < |es| :: !NamesIP(es[j], q, validIP)
  }

  /** The last entry among those that cover `q` from the longest base. */
  ghost predicate LongestCover(es: seq<RegistryEntry>, q: string, validIP: IPCheck, i: int) {
    && 0 <= i < |es| && Covers(es[i], q, validIP)
    && forall j | 0 <= j < |es| && Covers(es[j], q, validIP) ::
         && |WildcardBase(es[j].domain)| <= |WildcardBase(es[i].domain)|
         && (j > i ==> |WildcardBase(es[j].domain)| < |WildcardBase(es[i].domain)|)
  }

  ghost predicate NoExact(es: seq<RegistryEntry>, q: string, validIP: IPCheck) {
    forall j | 0 <= j < |es| :: !NamesExactly(es[j], q, validIP)
  }

  ghost predicate NoIP(es: seq<RegistryEntry>, q: string, validIP: IPCheck) {
    forall j | 0 <= j < |es| :: !NamesIP(es[j], q, validIP)
  }

  ghost predicate NoCover(es: seq<RegistryEntry>, q: string, validIP: IPCheck) {
    forall j | 0 <= j < |es| :: !Covers(es[j], q, validIP)
  }

  ghost predicate ExactOk(es: seq<RegistryEntry>, q: string, validIP: IPCheck, exact: Option<BlockingRule>) {
    if exact.None? then NoExact(es, q, validIP)
    else exists i :: LastExact(es, q, validIP, i) && exact == RuleOf(es[i], validIP)
  }

  ghost predicate IPOk(es: seq<RegistryEntry>, q: string, validIP: IPCheck, ip: Option<BlockingRule>) {
    if ip.None? then NoIP(es, q, validIP)
    else exists i :: LastIP(es, q, validIP, i) && ip == RuleOf(es[i], validIP)
  }

  ghost predicate WildOk(es: seq<RegistryEntry>, q: string, validIP: IPCheck,
                         wild: Option<BlockingRule>, n: nat) {
    if wild.None? then NoCover(es, q, validIP)
    else exists i :: LongestCover(es, q, validIP, i) && wild == RuleOf(es[i], validIP)
                     && n == |WildcardBase(es[i].domain)|
  }

  /** One pass finds the last exact entry, the last IP entry and the longest cover. */
  lemma {:induction false} ScanMeaning(es: seq<RegistryEntry>, q: string, validIP: IPCheck)
    ensures var seen := Scan(es, q, validIP);
      && ExactOk(es, q, validIP, seen.exact) && IPOk(es, q, validIP, seen.ip)
      && WildOk(es, q, validIP, seen.wild, seen.wildLength)
  {
    if es != [] {
      var before := Scan(es[..|es| - 1], q, validIP);
      ScanMeaning(es[..|es| - 1], q, validIP);
      ExactExtends(es, q, validIP, before.exact);
      IPExtends(es, q, validIP, before.ip);
      WildExtends(es, q, validIP, before.wild, before.wildLength);
    }
  }

  lemma ExactExtends(es: seq<RegistryEntry>, q: string, validIP: IPCheck, exact: Option<BlockingRule>)
    requires es != [] && ExactOk(es[..|es| - 1], q, validIP, exact)
    ensures var e := es[|es| - 1];
      ExactOk(es, q, validIP, if NamesExactly(e, q, validIP) then RuleOf(e, validIP) else exact)
  {
    hide RuleOf;
    var n := |es| - 1;
    if NamesExactly(es[n], q, validIP) {
      assert LastExact(es, q, validIP, n);
    } else if exact.Some? {
      var i :| LastExact(es[..n], q, validIP, i) && exact == RuleOf(es[..n][i], validIP);
      assert LastExact(es, q, validIP, i) by {
        assert forall j | i < j < n :: es[..n][j] == es[j];
      }
    } else {
      assert forall j | 0 <= j < n :: es[..n][j] == es[j];
    }
  }

  lemma IPExtends(es: seq<RegistryEntry>, q: string, validIP: IPCheck, ip: Option<BlockingRule>)
    requires es != [] && IPOk(es[..|es| - 1], q, validIP, ip)
    ensures var e := es[|es| - 1];
      IPOk(es, q, validIP, if NamesIP(e, q, validIP) then RuleOf(e, validIP) else ip)
  {
    hide RuleOf;
    var n := |es| - 1;
    if NamesIP(es[n], q, validIP) {
      assert LastIP(es, q, validIP, n);
    } else if ip.Some? {
      var i :| LastIP(es[..n], q, validIP, i) && ip == RuleOf(es[..n][i], validIP);
      assert LastIP(es, q, validIP, i) by {
        assert forall j | i < j < n :: es[..n][j] == es[j];
      }
    } else {
      assert forall j | 0 <= j < n :: es[..n][j] == es[j];
    }
  }

  lemma WildExtends(es: seq<RegistryEntry>, q: string, validIP: IPCheck, wild: Option<BlockingRule>, n: nat)
    requires es != [] && WildOk(es[..|es| - 1], q, validIP, wild, n)
    ensures var e := es[|es| - 1];
      var base := WildcardBase(e.domain);
      if Covers(e, q, validIP) && (wild.None? || |base| >= n)
      then WildOk(es, q, validIP, RuleOf(e, validIP), |base|)
      else WildOk(es, q, validIP, wild, n)
  {
    if wild.None? {
      FirstCover(es, q, validIP);
    } else {
      var first := es[..|es| - 1];
      var i :| LongestCover(first, q, validIP, i) && wild == RuleOf(first[i], validIP)
               && n == |WildcardBase(first[i].domain)|;
      NextCover(es, q, validIP, i);
    }
  }

  lemma FirstCover(es: seq<RegistryEntry>, q: string, validIP: IPCheck)
    requires es != [] && NoCover(es[..|es| - 1], q, validIP)
    ensures if Covers(es[|es| - 1], q, validIP) then LongestCover(es, q, validIP, |es| - 1)
            else NoCover(es, q, validIP)
  {
    hide Covers, WildcardBase;
    forall j | 0 <= j < |es| - 1 ensures !Covers(es[j], q, validIP) {
      assert es[..|es| - 1][j] == es[j];
    }
  }

  lemma NextCover(es: seq<RegistryEntry>, q: string, validIP: IPCheck, i: int)
    requires es != [] && LongestCover(es[..|es| - 1], q, validIP, i)
    ensures var n := |es| - 1; var e := es[n];
      if Covers(e, q, validIP) && |WildcardBase(e.domain)| >= |WildcardBase(es[i].domain)|
      then LongestCover(es, q, validIP, n) else LongestCover(es, q, validIP, i)
  {
    hide Covers, WildcardBase;
    forall j | 0 <= j < |es| - 1 && Covers(es[j], q, validIP)
      ensures |WildcardBase(es[j].domain)| <= |WildcardBase(es[i].domain)|
      ensures j > i ==> |WildcardBase(es[j].domain)| < |WildcardBase(es[i].domain)|
    {
      assert es[..|es| - 1][j] == es[j];
    }
  }

  /** The verdict names its entry: the last exact one, else the last IP, else the wildcard with
      the longest base; and a name is free exactly when no entry speaks of it. */
  lemma VerdictMeaning(es: seq<RegistryEntry>, q: string, validIP: IPCheck)
    ensures var v := Verdict(es, q, validIP);
      match v
      case None => NoExact(es, q, validIP) && NoIP(es, q, validIP) && NoCover(es, q, validIP)
      case Some(_) =>
        || (exists i :: LastExact(es, q, validIP, i) && v == RuleOf(es[i], validIP))
        || (NoExact(es, q, validIP)
            && exists i :: LastIP(es, q, validIP, i) && v == RuleOf(es[i], validIP))
        || (NoExact(es, q, validIP) && NoIP(es, q, validIP)
            && exists i :: LongestCover(es, q, validIP, i) && v == RuleOf(es[i], validIP))
  {
    ScanMeaning(es, q, validIP);
  }

  /** A rulable entry lists the name: as it is, or for a wildcard by its end. */
  predicate ListsName(e: RegistryEntry, q: string, validIP: IPCheck) {
    && Rulable(e, validIP)
    && if e.kind == Wildcard then HasSuffix(q, "." + WildcardBase(e.domain))
       else e.kind != URLPath && ListedValue(e) == q
  }

  /** A name is blocked exactly when some entry lists it. */
  lemma VerdictIff(es: seq<RegistryEntry>, q: string, validIP: IPCheck)
    ensures Verdict(es, q, validIP).Some? <==> exists e :: e in es && ListsName(e, q, validIP)
  {
    hide Verdict;
    VerdictMeaning(es, q, validIP);
    forall e: RegistryEntry
      ensures ListsName(e, q, validIP) <==>
              NamesExactly(e, q, validIP) || NamesIP(e, q, validIP) || Covers(e, q, validIP)
    {
      ListingIsSpeaking(e, q, validIP);
    }
    if e :| e in es && ListsName(e, q, validIP) {
      var i :| 0 <= i < |es| && es[i] == e;
    }
  }

  lemma ListingIsSpeaking(e: RegistryEntry, q: string, validIP: IPCheck)
    ensures ListsName(e, q, validIP) <==>
            NamesExactly(e, q, validIP) || NamesIP(e, q, validIP) || Covers(e, q, validIP)
  {
    hide RuleOf, Rulable;
    RuleIff(e, validIP);
    if Rulable(e, validIP) {
      KindOfRulable(e, validIP);
    }
    DotSuffixIsHasSuffix(WildcardBase(e.domain), q);
  }

  lemma KindOfRulable(e: RegistryEntry, validIP: IPCheck)
    requires Rulable(e, validIP)
    ensures e.kind != Unknown
  {
  }

  // ---------------------------------------------------------------- rule by rule

  /** The store's reading of one rule: as `Matches`, except that a wildcard does not block its
      own base and a URL-path rule blocks nothing. */
  ghost predicate Blocks(rule: BlockingRule, original: string, q: string) {
    && Matches(rule, Some(URL(original, q)))
    && rule.kind != URLPath
    && (rule.kind == Wildcard ==> q != WildcardBase(rule.pattern))
  }

  lemma BlocksIsSpeaking(e: RegistryEntry, original: string, q: string, validIP: IPCheck)
    requires original != "" && q != ""
    ensures (RuleOf(e, validIP).Some? && Blocks(RuleOf(e, validIP).value, original, q)) <==>
            NamesExactly(e, q, validIP) || NamesIP(e, q, validIP) || Covers(e, q, validIP)
  {
    hide IsValidDomain;
    if RuleOf(e, validIP).Some? && e.kind == Wildcard {
      var base := WildcardBase(e.domain);
      DotSuffixIsHasSuffix(base, q);
    }
  }

  ghost predicate SomeRuleBlocks(es: seq<RegistryEntry>, original: string, q: string, validIP: IPCheck) {
    exists i :: 0 <= i < |es| && RuleOf(es[i], validIP).Some?
                && Blocks(RuleOf(es[i], validIP).value, original, q)
  }

  ghost predicate SomeRuleMatches(es: seq<RegistryEntry>, original: string, q: string, validIP: IPCheck) {
    exists i :: 0 <= i < |es| && RuleOf(es[i], validIP).Some?
                && Matches(RuleOf(es[i], validIP).value, Some(URL(original, q)))
  }

  /** A name is blocked exactly when some rule of the registry blocks it on its own. */
  lemma VerdictIsSomeRule(es: seq<RegistryEntry>, original: string, q: string, validIP: IPCheck)
    requires original != "" && q != ""
    ensures Verdict(es, q, validIP).Some? <==> SomeRuleBlocks(es, original, q, validIP)
  {
    VerdictMeaning(es, q, validIP);
    forall i | 0 <= i < |es|
      ensures (RuleOf(es[i], validIP).Some? && Blocks(RuleOf(es[i], validIP).value, original, q)) <==>
              NamesExactly(es[i], q, validIP) || NamesIP(es[i], q, validIP) || Covers(es[i], q, validIP)
    {
      BlocksIsSpeaking(es[i], original, q, validIP);
    }
  }

  /** The two readings do differ: a wildcard on a valid base, such as `*.b.c`, matches the bare
      name `b.c` and does not block it. */
  lemma BareDomainIsNotBlocked(base: string, original: string, validIP: IPCheck)
    requires IsValidDomain(base) && original != ""
    ensures var es := [RegistryEntry(Wildcard, "*." + base, "", "", [])];
      SomeRuleMatches(es, original, base, validIP) && Verdict(es, base, validIP).None?
  {
    var e := RegistryEntry(Wildcard, "*." + base, "", "", []);
    var es := [e];
    assert WildcardBase(e.domain) == base;
    assert RuleOf(e, validIP).Some? && base != "";
    assert Matches(RuleOf(es[0], validIP).value, Some(URL(original, base)));
    assert es[..0] == [] && es[0] == e;
    assert !NamesExactly(e, base, validIP) && !NamesIP(e, base, validIP) && !Covers(e, base, validIP);
    assert Scan(es[..0], base, validIP) == Seen(None, None, None, 0);
  }
}
