/** Blocking rules, registry entries and the checks on them.  `net.ParseIP` is not part of
    the model: `validIP` stands for any predicate it may compute. */
module Domain {
  import opened Prelude
  import opened GoStrings

  datatype BlockingType = Unknown | DomainName | Wildcard | IP | URLPath | SNI

  datatype Error =
    | InvalidDomain
    | InvalidIP
    | BlockingRuleInvalid
    | RegistryEntryInvalid

  type IPCheck = string -> bool

  // ---------------------------------------------------------------- urls

  datatype URL = URL(original: string, normalized: string) {
    predicate IsValid() {
      original != "" && normalized != ""
    }
  }

  const MAX_DOMAIN_LENGTH: nat := 253
  const MAX_LABEL_LENGTH: nat := 63

  predicate IsValidLabel(part: string) {
    && part != "" && |part| <= MAX_LABEL_LENGTH
    && !HasPrefix(part, "-") && !HasSuffix(part, "-")
  }

  predicate IsValidDomain(domain: string) {
    && domain != "" && |domain| <= MAX_DOMAIN_LENGTH
    && !HasPrefix(domain, ".") && !HasSuffix(domain, ".")
    && |Split(domain, '.')| >= 2
    && forall part | part in Split(domain, '.') :: IsValidLabel(part)
  }

  lemma OuterDotLeavesEmptyLabel(s: string)
    ensures HasPrefix(s, ".") || HasSuffix(s, ".") ==> "" in Split(s, '.')
  {
    assert Split("", '.') == [""];
    if HasPrefix(s, ".") {
      SplitAt(s, '.', 0);
      assert s[..0] == "";
      assert Split(s, '.')[0] == "";
    } else if HasSuffix(s, ".") {
      SplitAt(s, '.', |s| - 1);
      assert s[|s|..] == "";
      assert Split(s, '.')[|Split(s, '.')| - 1] == "";
    }
  }

  /** Between 1 and 63 bytes, with no hyphen at either end and no dot. */
  predicate IsLabel(l: string) {
    1 <= |l| <= 63 && l[0] != '-' && l[|l| - 1] != '-' && '.' !in l
  }

  lemma LabelIsPart(l: string)
    ensures IsLabel(l) <==> IsValidLabel(l) && '.' !in l
  {
    if l != "" {
      assert l[|l| - 1..] == [l[|l| - 1]];
    }
  }

  /** `ls` are the labels of `domain`: two or more. */
  ghost predicate LabelsOf(domain: string, ls: seq<string>) {
    |ls| >= 2 && domain == Join(ls, '.') && forall i | 0 <= i < |ls| :: IsLabel(ls[i])
  }

  /** A valid domain is two or more labels joined by dots, at most 253 bytes in all. */
  lemma ValidDomainIsLabels(domain: string)
    ensures IsValidDomain(domain) <==> |domain| <= 253 && exists ls: seq<string> :: LabelsOf(domain, ls)
  {
    OuterDotLeavesEmptyLabel(domain);
    forall l: string ensures IsLabel(l) <==> IsValidLabel(l) && '.' !in l {
      LabelIsPart(l);
    }
    hide IsLabel, IsValidLabel;
    if IsValidDomain(domain) {
      JoinSplit(domain, '.');
      assert LabelsOf(domain, Split(domain, '.'));
    }
    if ls: seq<string> :| LabelsOf(domain, ls) {
      SplitJoin(ls, '.');
      forall part | part in ls ensures IsValidLabel(part) {
        var i :| 0 <= i < |ls| && ls[i] == part;
      }
      assert Split("", '.') == [""];
    }
  }

  // ---------------------------------------------------------------- rules

  datatype BlockingRule = BlockingRule(
    kind: BlockingType, pattern: string, original: string, paths: seq<string>)

  /** The host a wildcard pattern stands for: the pattern without one leading `*.`. */
  function WildcardBase(pattern: string): string {
    TrimPrefix(pattern, "*.")
  }

  function Validate(rule: BlockingRule, validIP: IPCheck): Option<Error> {
    match rule.kind
    case DomainName => if IsValidDomain(rule.pattern) then None else Some(InvalidDomain)
    case Wildcard => if IsValidDomain(WildcardBase(rule.pattern)) then None else Some(InvalidDomain)
    case IP => if validIP(rule.pattern) then None else Some(InvalidIP)
    case URLPath => if rule.pattern == "" then Some(BlockingRuleInvalid) else None
    case SNI => if IsValidDomain(rule.pattern) then None else Some(InvalidDomain)
    case Unknown => Some(BlockingRuleInvalid)
  }

  function NewBlockingRule(kind: BlockingType, pattern: string, validIP: IPCheck)
    : Result<BlockingRule, Error>
  {
    if pattern == "" then Err(BlockingRuleInvalid)
    else
      var rule := BlockingRule(kind, pattern, pattern, []);
      match Validate(rule, validIP)
      case Some(e) => Err(e)
      case None => Ok(rule)
  }

  /** What a rule means for one URL; a missing or incomplete URL matches nothing. */
  predicate Matches(rule: BlockingRule, url: Option<URL>) {
    && url.Some? && url.value.IsValid()
    && var normalized := url.value.normalized;
       match rule.kind
       case DomainName => normalized == rule.pattern
       case Wildcard =>
         var base := WildcardBase(rule.pattern);
         normalized == base || HasSuffix(normalized, "." + base)
       case IP => normalized == rule.pattern
       case URLPath => HasPrefix(normalized, rule.pattern)
       case SNI => normalized == rule.pattern
       case Unknown => false
  }

  /** What `Matches` says of a complete URL, by the way its name is made up. */
  lemma MatchesIff(rule: BlockingRule, original: string, q: string)
    requires original != "" && q != ""
    ensures Matches(rule, Some(URL(original, q))) <==>
      || (rule.kind in {DomainName, IP, SNI} && q == rule.pattern)
      || (rule.kind == Wildcard && (q == WildcardBase(rule.pattern)
                                    || exists sub: string :: q == sub + ("." + WildcardBase(rule.pattern))))
      || (rule.kind == URLPath && exists rest: string :: q == rule.pattern + rest)
  {
    var tail := "." + WildcardBase(rule.pattern);
    if HasSuffix(q, tail) {
      assert q == q[..|q| - |tail|] + tail;
    }
    if HasPrefix(q, rule.pattern) {
      assert q == rule.pattern + q[|rule.pattern|..];
    }
  }

  // ---------------------------------------------------------------- results

  datatype BlockingResult = BlockingResult(
    isBlocked: bool, normalizedURL: string, rule: Option<BlockingRule>, reason: BlockingType)

  function NewBlockingResult(isBlocked: bool, normalizedURL: string, rule: Option<BlockingRule>)
    : BlockingResult
  {
    BlockingResult(isBlocked, normalizedURL, rule, if rule.Some? then rule.value.kind else Unknown)
  }

  // ---------------------------------------------------------------- registry entries

  datatype RegistryEntry = RegistryEntry(
    kind: BlockingType, domain: string, ip: string, url: string, paths: seq<string>)

  function NewRegistryEntry(kind: BlockingType, value: string, validIP: IPCheck)
    : Result<RegistryEntry, Error>
  {
    if value == "" then Err(RegistryEntryInvalid)
    else
      match kind
      case DomainName | Wildcard | SNI =>
        if !IsValidDomain(value) && !HasPrefix(value, "*.") then Err(InvalidDomain)
        else Ok(RegistryEntry(kind, value, "", "", []))
      case IP =>
        if !validIP(value) then Err(InvalidIP) else Ok(RegistryEntry(kind, "", value, "", []))
      case URLPath => Ok(RegistryEntry(kind, "", "", value, []))
      case Unknown => Err(RegistryEntryInvalid)
  }

  predicate EntryIsValid(e: RegistryEntry) {
    match e.kind
    case DomainName | Wildcard | SNI => e.domain != ""
    case IP => e.ip != ""
    case URLPath => e.url != ""
    case Unknown => false
  }

  function PatternOf(e: RegistryEntry): string {
    match e.kind
    case IP => e.ip
    case URLPath => e.url
    case _ => e.domain
  }

  function ToBlockingRule(e: RegistryEntry, validIP: IPCheck): Result<BlockingRule, Error> {
    if e.kind == Unknown then Err(BlockingRuleInvalid)
    else
      match NewBlockingRule(e.kind, PatternOf(e), validIP)
      case Err(error) => Err(error)
      case Ok(rule) => Ok(rule.(paths := e.paths))
  }

  /** A rule carries its entry's kind, pattern and paths, and exists only for values that a new
      entry of that kind may have. */
  lemma RuleComesFromEntry(e: RegistryEntry, validIP: IPCheck)
    requires ToBlockingRule(e, validIP).Ok?
    ensures NewRegistryEntry(e.kind, PatternOf(e), validIP).Ok?
    ensures ToBlockingRule(e, validIP).value == BlockingRule(e.kind, PatternOf(e), PatternOf(e), e.paths)
  {
    if e.kind == Wildcard && !HasPrefix(e.domain, "*.") {
      assert WildcardBase(e.domain) == e.domain;
    }
  }

  /** A new entry has no rule exactly when it slipped through on its leading `*.`: the name, or
      for a wildcard its base, is no valid domain. */
  lemma NewEntryWithoutRule(kind: BlockingType, value: string, validIP: IPCheck)
    requires NewRegistryEntry(kind, value, validIP).Ok?
    ensures ToBlockingRule(NewRegistryEntry(kind, value, validIP).value, validIP).Err? <==>
            && HasPrefix(value, "*.") && kind in {DomainName, SNI, Wildcard}
            && !IsValidDomain(if kind == Wildcard then WildcardBase(value) else value)
  {
    if !HasPrefix(value, "*.") {
      assert WildcardBase(value) == value;
    }
  }

  /** The registry a source delivers; entries are only ever appended. */
  class Registry {
    var Entries: seq<RegistryEntry>
    var EntryCount: int
    var Version: string
    var Source: string

    constructor ()
      ensures Entries == [] && EntryCount == 0 && Version == "" && Source == ""
    {
      Entries, EntryCount, Version, Source := [], 0, "", "";
    }

    /** Appends a complete entry; a nil or incomplete one is refused and changes nothing. */
    method AddEntry(entry: Option<RegistryEntry>) returns (err: Option<Error>)
      modifies this
      ensures err == if entry.Some? && EntryIsValid(entry.value) then None else Some(RegistryEntryInvalid)
      ensures Entries == old(Entries) + if err.None? then [entry.value] else []
      ensures EntryCount - |Entries| == old(EntryCount - |Entries|)
      ensures Version == old(Version) && Source == old(Source)
    {
      if entry.None? || !EntryIsValid(entry.value) {
        return Some(RegistryEntryInvalid);
      }
      Entries := Entries + [entry.value];
      EntryCount := EntryCount + 1;
      err := None;
    }

    method Size() returns (n: int)
      ensures n == |Entries|
    {
      n := |Entries|;
    }
  }
}
