/** What an update builds from a list of entries, as values, and why looking a name up in it
    answers as the plain scan does. */
module StoreIndex {
  import opened Prelude
  import opened GoStrings
  import opened Domain
  import opened Reference
  import opened RadixTrees

  type Entries = seq<RegistryEntry>

  type RuleMap = map<string, BlockingRule>

  /** The host of a URL, by `url.Parse`; empty when there is none. */
  type HostOf = string -> string

  /** Domain and SNI entries share this map; a later entry replaces an earlier one. */
  function DomainMap(es: Entries, validIP: IPCheck): RuleMap {
    if es == [] then map[]
    else
      var m := DomainMap(es[..|es| - 1], validIP);
      var e := es[|es| - 1];
      if (e.kind == DomainName || e.kind == SNI) && RuleOf(e, validIP).Some? then
        m[e.domain := RuleOf(e, validIP).value]
      else m
  }

  function IPMap(es: Entries, validIP: IPCheck): RuleMap {
    if es == [] then map[]
    else
      var m := IPMap(es[..|es| - 1], validIP);
      var e := es[|es| - 1];
      if e.kind == IP && RuleOf(e, validIP).Some? then m[e.ip := RuleOf(e, validIP).value] else m
  }

  /** Wildcards by their base. */
  function WildcardMap(es: Entries, validIP: IPCheck): RuleMap {
    if es == [] then map[]
    else
      var m := WildcardMap(es[..|es| - 1], validIP);
      var e := es[|es| - 1];
      if e.kind == Wildcard && RuleOf(e, validIP).Some? then
        m[WildcardBase(e.domain) := RuleOf(e, validIP).value]
      else m
  }

  /** URL-path rules by host, in entry order. */
  function HostMap(es: Entries, validIP: IPCheck, hostOf: HostOf): map<string, seq<BlockingRule>> {
    if es == [] then map[]
    else
      var m := HostMap(es[..|es| - 1], validIP, hostOf);
      var e := es[|es| - 1];
      if e.kind == URLPath && RuleOf(e, validIP).Some? && hostOf(e.url) != "" then
        var host := hostOf(e.url);
        m[host := (if host in m then m[host] else []) + [RuleOf(e, validIP).value]]
      else m
  }

  /** The rules of the URL-path entries with this host, first entry first. */
  function RulesForHost(es: Entries, host: string, validIP: IPCheck, hostOf: HostOf): seq<BlockingRule> {
    if es == [] then []
    else
      var e := es[0];
      (if e.kind == URLPath && RuleOf(e, validIP).Some? && hostOf(e.url) == host
       then [RuleOf(e, validIP).value] else []) + RulesForHost(es[1..], host, validIP, hostOf)
  }

  lemma {:induction false} RulesForHostNext(
    es: Entries, e: RegistryEntry, host: string, validIP: IPCheck, hostOf: HostOf)
    ensures RulesForHost(es + [e], host, validIP, hostOf) ==
            RulesForHost(es, host, validIP, hostOf) + RulesForHost([e], host, validIP, hostOf)
  {
    hide RuleOf;
    if es == [] {
      assert es + [e] == [e];
    } else {
      assert (es + [e])[1..] == es[1..] + [e];
      RulesForHostNext(es[1..], e, host, validIP, hostOf);
    }
  }

  /** The host map holds for each host its rules in entry order. */
  lemma {:induction false} HostMapInOrder(es: Entries, host: string, validIP: IPCheck, hostOf: HostOf)
    requires host != ""
    ensures var m := HostMap(es, validIP, hostOf);
      (if host in m then m[host] else []) == RulesForHost(es, host, validIP, hostOf)
  {
    hide RuleOf;
    if es != [] {
      var before, e := es[..|es| - 1], es[|es| - 1];
      HostMapInOrder(before, host, validIP, hostOf);
      RulesForHostNext(before, e, host, validIP, hostOf);
      assert es == before + [e] && [e][1..] == [];
      assert RulesForHost([e][1..], host, validIP, hostOf) == [];
    }
  }

  /** Every string an update adds to the Bloom filter. */
  function FilterKeys(es: Entries, validIP: IPCheck, hostOf: HostOf): set<string> {
    DomainMap(es, validIP).Keys + IPMap(es, validIP).Keys +
    WildcardMap(es, validIP).Keys + HostMap(es, validIP, hostOf).Keys
  }

  /** The string an update adds to the filter for one entry, if any. */
  function FilterKey(e: RegistryEntry, validIP: IPCheck, hostOf: HostOf): Option<string> {
    if RuleOf(e, validIP).None? then None
    else
      match e.kind
      case DomainName | SNI => Some(e.domain)
      case Wildcard => Some(WildcardBase(e.domain))
      case IP => Some(e.ip)
      case URLPath => if hostOf(e.url) != "" then Some(hostOf(e.url)) else None
      case Unknown => None
  }

  lemma FilterKeysNext(es: Entries, e: RegistryEntry, validIP: IPCheck, hostOf: HostOf)
    ensures FilterKeys(es + [e], validIP, hostOf) ==
            FilterKeys(es, validIP, hostOf) +
            match FilterKey(e, validIP, hostOf) { case None => {} case Some(key) => {key} }
  {
    assert (es + [e])[..|es|] == es;
  }

  // ---------------------------------------------------------------- each map is its scan

  lemma {:induction false} DomainMapIsScan(es: Entries, q: string, validIP: IPCheck)
    ensures var m := DomainMap(es, validIP);
      Scan(es, q, validIP).exact == if q in m then Some(m[q]) else None
  {
    if es != [] {
      DomainMapIsScan(es[..|es| - 1], q, validIP);
    }
  }

  lemma {:induction false} IPMapIsScan(es: Entries, q: string, validIP: IPCheck)
    ensures var m := IPMap(es, validIP);
      Scan(es, q, validIP).ip == if q in m then Some(m[q]) else None
  {
    if es != [] {
      IPMapIsScan(es[..|es| - 1], q, validIP);
    }
  }

  /** Where the scan stands is where the longest hit of the map stands. */
  ghost predicate Agrees(m: RuleMap, q: string, wild: Option<BlockingRule>, n: nat) {
    match wild
    case None => forall p | p in m :: !DotSuffix(p, q)
    case Some(rule) => exists p :: LongestHit(m, q, p) && rule == m[p] && |p| == n
  }

  lemma AgreesAfterHit(m: RuleMap, q: string, wild: Option<BlockingRule>, n: nat,
                       base: string, rule: BlockingRule)
    requires Agrees(m, q, wild, n) && DotSuffix(base, q)
    ensures if wild.None? || |base| >= n then Agrees(m[base := rule], q, Some(rule), |base|)
            else Agrees(m[base := rule], q, wild, n)
  {
    var m' := m[base := rule];
    if wild.None? || |base| >= n {
      assert LongestHit(m', q, base);
    } else {
      var p :| LongestHit(m, q, p) && wild.value == m[p] && |p| == n;
      assert LongestHit(m', q, p);
    }
  }

  lemma AgreesAfterMiss(m: RuleMap, q: string, wild: Option<BlockingRule>, n: nat,
                        base: string, rule: BlockingRule)
    requires Agrees(m, q, wild, n) && !DotSuffix(base, q)
    ensures Agrees(m[base := rule], q, wild, n)
  {
    if wild.Some? {
      var p :| LongestHit(m, q, p) && wild.value == m[p] && |p| == n;
      assert LongestHit(m[base := rule], q, p);
    }
  }

  /** One scanned entry: `hit` is its base and rule if it is a wildcard with a rule. */
  lemma AgreesNext(m: RuleMap, q: string, wild: Option<BlockingRule>, n: nat,
                   hit: Option<(string, BlockingRule)>,
                   m': RuleMap, wild': Option<BlockingRule>, n': nat)
    requires Agrees(m, q, wild, n)
    requires m' == if hit.Some? then m[hit.value.0 := hit.value.1] else m
    requires if hit.Some? && DotSuffix(hit.value.0, q) && (wild.None? || |hit.value.0| >= n)
             then wild' == Some(hit.value.1) && n' == |hit.value.0|
             else wild' == wild && n' == n
    ensures Agrees(m', q, wild', n')
  {
    if hit.Some? {
      if DotSuffix(hit.value.0, q) {
        AgreesAfterHit(m, q, wild, n, hit.value.0, hit.value.1);
      } else {
        AgreesAfterMiss(m, q, wild, n, hit.value.0, hit.value.1);
      }
    }
  }

  lemma {:induction false} WildcardMapAgrees(es: Entries, q: string, validIP: IPCheck)
    ensures var seen := Scan(es, q, validIP);
      Agrees(WildcardMap(es, validIP), q, seen.wild, seen.wildLength)
  {
    if es != [] {
      var before, e := es[..|es| - 1], es[|es| - 1];
      WildcardMapAgrees(before, q, validIP);
      var m, m' := WildcardMap(before, validIP), WildcardMap(es, validIP);
      var seen, seen' := Scan(before, q, validIP), Scan(es, q, validIP);
      var rule := RuleOf(e, validIP);
      var hit := if e.kind == Wildcard && rule.Some? then Some((WildcardBase(e.domain), rule.value)) else None;
      AgreesNext(m, q, seen.wild, seen.wildLength, hit, m', seen'.wild, seen'.wildLength);
    }
  }

  lemma WildcardMapIsScan(es: Entries, q: string, validIP: IPCheck)
    ensures WildcardAnswer(WildcardMap(es, validIP), q, Scan(es, q, validIP).wild)
  {
    WildcardMapAgrees(es, q, validIP);
  }

  /** Looking in the three maps in turn gives the verdict of the scan. */
  lemma IndexGivesVerdict(es: Entries, q: string, validIP: IPCheck, wild: Option<BlockingRule>)
    requires WildcardAnswer(WildcardMap(es, validIP), q, wild)
    ensures Verdict(es, q, validIP) ==
            if q in DomainMap(es, validIP) then Some(DomainMap(es, validIP)[q])
            else if q in IPMap(es, validIP) then Some(IPMap(es, validIP)[q])
            else wild
  {
    DomainMapIsScan(es, q, validIP);
    IPMapIsScan(es, q, validIP);
    WildcardMapIsScan(es, q, validIP);
    WildcardAnswerIsUnique(WildcardMap(es, validIP), q, wild, Scan(es, q, validIP).wild);
  }

  /** A name none of whose tested strings is a filter key has no verdict: the filter may
      dismiss it. */
  lemma NoFilterKeyNoVerdict(es: Entries, q: string, validIP: IPCheck, hostOf: HostOf)
    requires q !in FilterKeys(es, validIP, hostOf)
    requires NoHitBefore(FilterKeys(es, validIP, hostOf), q, |Split(q, '.')|)
    ensures Verdict(es, q, validIP) == None
  {
    var m := WildcardMap(es, validIP);
    assert NoHitBefore(m.Keys, q, |Split(q, '.')|);
    NoRoundNoHit(m, q);
    IndexGivesVerdict(es, q, validIP, None);
  }

  lemma EmptyNameHasNoVerdict(es: Entries, validIP: IPCheck)
    ensures Verdict(es, "", validIP) == None
  {
    VerdictMeaning(es, "", validIP);
    forall e: RegistryEntry
      ensures !NamesExactly(e, "", validIP) && !NamesIP(e, "", validIP) && !Covers(e, "", validIP)
    {
    }
  }

  lemma WildcardBaseIsNotEmpty(e: RegistryEntry, validIP: IPCheck)
    requires e.kind == Wildcard && RuleOf(e, validIP).Some?
    ensures WildcardBase(e.domain) != ""
  {
  }

  /** A URL-path rule is asked about an empty URL, which no rule matches. */
  lemma NothingMatchesTheEmptyURL(rule: BlockingRule)
    ensures !Matches(rule, Some(URL("", "")))
  {
  }

  // ---------------------------------------------------------------- counting

  lemma {:induction false} DomainKeys(es: Entries, validIP: IPCheck)
    ensures DomainMap(es, validIP).Keys ==
            set e | e in es && (e.kind == DomainName || e.kind == SNI) && RuleOf(e, validIP).Some? :: e.domain
  {
    hide RuleOf, WildcardBase;
    if es != [] {
      DomainKeys(es[..|es| - 1], validIP);
      assert es == es[..|es| - 1] + [es[|es| - 1]];
    }
  }

  lemma {:induction false} IPKeys(es: Entries, validIP: IPCheck)
    ensures IPMap(es, validIP).Keys ==
            set e | e in es && e.kind == IP && RuleOf(e, validIP).Some? :: e.ip
  {
    hide RuleOf, WildcardBase;
    if es != [] {
      IPKeys(es[..|es| - 1], validIP);
      assert es == es[..|es| - 1] + [es[|es| - 1]];
    }
  }

  lemma {:induction false} WildcardKeys(es: Entries, validIP: IPCheck)
    ensures WildcardMap(es, validIP).Keys ==
            set e | e in es && e.kind == Wildcard && RuleOf(e, validIP).Some? :: WildcardBase(e.domain)
  {
    hide RuleOf, WildcardBase;
    if es != [] {
      WildcardKeys(es[..|es| - 1], validIP);
      assert es == es[..|es| - 1] + [es[|es| - 1]];
    }
  }

  lemma {:induction false} HostKeys(es: Entries, validIP: IPCheck, hostOf: HostOf)
    ensures HostMap(es, validIP, hostOf).Keys ==
            set e | e in es && e.kind == URLPath && RuleOf(e, validIP).Some? && hostOf(e.url) != ""
                  :: hostOf(e.url)
  {
    hide RuleOf, WildcardBase;
    if es != [] {
      HostKeys(es[..|es| - 1], validIP, hostOf);
      assert es == es[..|es| - 1] + [es[|es| - 1]];
    }
  }

  lemma GrowsByOne<V>(m: map<string, V>, k: string, v: V)
    ensures |m[k := v]| <= |m| + 1
  {
    assert m[k := v].Keys == m.Keys + {k};
    assert |m[k := v]| == |m[k := v].Keys| && |m| == |m.Keys|;
  }

  /** Each entry adds at most one key to one of the four maps. */
  lemma {:induction false} CountsAreBounded(es: Entries, validIP: IPCheck, hostOf: HostOf)
    ensures |DomainMap(es, validIP)| + |WildcardMap(es, validIP)| + |IPMap(es, validIP)|
            + |HostMap(es, validIP, hostOf)| <= |es|
  {
    if es != [] {
      var before, e := es[..|es| - 1], es[|es| - 1];
      CountsAreBounded(before, validIP, hostOf);
      if RuleOf(e, validIP).Some? {
        var rule := RuleOf(e, validIP).value;
        GrowsByOne(DomainMap(before, validIP), e.domain, rule);
        GrowsByOne(WildcardMap(before, validIP), WildcardBase(e.domain), rule);
        GrowsByOne(IPMap(before, validIP), e.ip, rule);
        var m, host := HostMap(before, validIP, hostOf), hostOf(e.url);
        GrowsByOne(m, host, (if host in m then m[host] else []) + [rule]);
      }
    }
  }
}
