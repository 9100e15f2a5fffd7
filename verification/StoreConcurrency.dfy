/** The store under any number of concurrent lookups, statistics calls, updates and clears.
    Every read or write of a field, every call on the filter and every lock operation is a
    step of its own; a step of one caller can fall between any two steps of another. */
module StoreConcurrency {
  import opened Prelude
  import opened GoStrings
  import opened Domain
  import opened Reference
  import opened RadixTrees
  import opened BloomFilters
  import opened StoreIndex
  import opened MemoryStores

  type Caller = nat

  // ---------------------------------------------------------------- the shared fields

  /** A Bloom filter by the positions it has set. */
  datatype Filter = Filter(size: uint64, k: uint64, bits: set<nat>)

  datatype Fields = Fields(
    domains: RuleMap, wildcards: RuleMap, ips: RuleMap,
    urlPatterns: map<string, seq<BlockingRule>>, bloom: Filter)

  predicate MayContain(f: Filter, hash: Hash, item: string) {
    f.size > 0 && Probes(hash(item), f.k, f.size) <= f.bits
  }

  function WithItem(f: Filter, hash: Hash, item: string): Filter {
    if f.size > 0 then f.(bits := f.bits + Probes(hash(item), f.k, f.size)) else f
  }

  /** What one install or clear put in place, and the item count the filter is sized for. */
  datatype Snapshot = Snapshot(entries: Entries, version: string, sizedFor: nat)

  // ---------------------------------------------------------------- callers

  datatype Proc =
    | Idle
    // a lookup holding the read lock, then one that has answered
    | Probing(q: string, snap: Snapshot)
    | ProbingSuffix(q: string, snap: Snapshot, i: nat)
    | InDomains(q: string, snap: Snapshot)
    | InIPs(q: string, snap: Snapshot)
    | InWildcards(q: string, snap: Snapshot, i: nat)
    | InURLPatterns(q: string, snap: Snapshot)
    | Answering(q: string, snap: Snapshot, rule: Option<BlockingRule>)
    | Answered(q: string, snap: Snapshot, rule: Option<BlockingRule>)
    // a statistics call, with the fields read so far
    | Counting(snap: Snapshot, n: nat, stats: StoreStats)
    | Counted(snap: Snapshot, stats: StoreStats)
    // an update: building without the lock, then assigning field `n` with it
    | Building(next: Snapshot, i: nat, built: Fields)
    | Assigning(next: Snapshot, n: nat, built: Fields)
    // a clear: emptying field `n`
    | Clearing(n: nat)

  predicate HoldsRead(p: Proc) {
    || p.Probing? || p.ProbingSuffix? || p.InDomains? || p.InIPs? || p.InWildcards?
    || p.InURLPatterns? || p.Answering? || p.Counting?
  }

  predicate HoldsWrite(p: Proc) {
    p.Assigning? || p.Clearing?
  }

  predicate Free(p: Proc) {
    p.Idle? || p.Answered? || p.Counted?
  }

  datatype State = State(
    fields: Fields, count: nat, version: string,
    readers: set<Caller>, writer: Option<Caller>,
    procs: map<Caller, Proc>,
    installed: Snapshot)  // what the last completed install or clear put in place

  /** A caller that is free starts an operation, or a busy one takes its next step. */
  datatype Step =
    | StartLookup(q: string)
    | StartStats
    | StartUpdate(entries: Entries, version: string)
    | StartClear
    | Continue

  // ---------------------------------------------------------------- steps

  function EmptyFields(bloom: Filter): Fields {
    Fields(map[], map[], map[], map[], bloom.(bits := {}))
  }

  /** One round of the building loop. */
  function IndexOne(env: Env, f: Fields, e: RegistryEntry): Fields {
    var f' :=
      match RuleOf(e, env.validIP)
      case None => f
      case Some(rule) => IndexRule(env, f, e, rule);
    f'.(bloom := AddKey(f.bloom, env.hash, FilterKey(e, env.validIP, env.hostOf)))
  }

  function IndexRule(env: Env, f: Fields, e: RegistryEntry, rule: BlockingRule): Fields {
    match e.kind
    case DomainName | SNI => f.(domains := f.domains[e.domain := rule])
    case Wildcard => f.(wildcards := f.wildcards[WildcardBase(e.domain) := rule])
    case IP => f.(ips := f.ips[e.ip := rule])
    case URLPath =>
      var host := env.hostOf(e.url);
      if host == "" then f
      else
        var earlier := if host in f.urlPatterns then f.urlPatterns[host] else [];
        f.(urlPatterns := f.urlPatterns[host := earlier + [rule]])
    case Unknown => f
  }

  function AddKey(f: Filter, hash: Hash, key: Option<string>): Filter {
    if key.Some? then WithItem(f, hash, key.value) else f
  }

  /** The first path rule that matches the empty URL it is asked about. */
  function FirstMatch(patterns: seq<BlockingRule>): Option<BlockingRule> {
    if patterns == [] then None
    else if Matches(patterns[0], Some(URL("", ""))) then Some(patterns[0])
    else FirstMatch(patterns[1..])
  }

  function LookupStep(env: Env, f: Fields, p: Proc): (p': Proc)
    requires HoldsRead(p) && !p.Counting? && !p.Answering?
    requires p.ProbingSuffix? || p.InWildcards? ==> p.i <= |Split(p.q, '.')|
    ensures HoldsRead(p') && !p'.Counting? && p'.q == p.q && p'.snap == p.snap
  {
    match p
    case Probing(q, snap) =>
      if MayContain(f.bloom, env.hash, q) then InDomains(q, snap) else ProbingSuffix(q, snap, 1)
    case ProbingSuffix(q, snap, i) =>
      if i == |Split(q, '.')| then Answering(q, snap, None)
      else if MayContain(f.bloom, env.hash, SuffixAt(q, i)) then InDomains(q, snap)
      else ProbingSuffix(q, snap, i + 1)
    case InDomains(q, snap) =>
      if q in f.domains then Answering(q, snap, Some(f.domains[q])) else InIPs(q, snap)
    case InIPs(q, snap) =>
      if q in f.ips then Answering(q, snap, Some(f.ips[q])) else InWildcards(q, snap, 1)
    case InWildcards(q, snap, i) =>
      if i == |Split(q, '.')| then InURLPatterns(q, snap)
      else if SuffixAt(q, i) in f.wildcards then
        Answering(q, snap, Some(f.wildcards[SuffixAt(q, i)]))
      else InWildcards(q, snap, i + 1)
    case InURLPatterns(q, snap) =>
      Answering(q, snap, if q in f.urlPatterns then FirstMatch(f.urlPatterns[q]) else None)
  }

  function CountStep(s: State, p: Proc): Proc
    requires p.Counting? && p.n < 7
  {
    var st := p.stats;
    var st' :=
      match p.n
      case 0 => st.(totalEntries := s.count)
      case 1 => st.(domainEntries := |s.fields.domains|)
      case 2 => st.(wildcardEntries := |s.fields.wildcards|)
      case 3 => st.(ipEntries := |s.fields.ips|)
      case 4 => st.(urlPatterns := |s.fields.urlPatterns|)
      case 5 => st.(version := s.version)
      case _ => st.(bloomFilterSize := s.fields.bloom.size);
    p.(n := p.n + 1, stats := st')
  }

  function AssignStep(s: State, t: Caller, p: Proc): State
    requires p.Assigning? && p.n < 7
  {
    var moved := s.(procs := s.procs[t := Assigning(p.next, p.n + 1, p.built)]);
    match p.n
    case 0 => moved.(fields := s.fields.(domains := p.built.domains))
    case 1 => moved.(fields := s.fields.(wildcards := p.built.wildcards))
    case 2 => moved.(fields := s.fields.(ips := p.built.ips))
    case 3 => moved.(fields := s.fields.(urlPatterns := p.built.urlPatterns))
    case 4 => moved.(fields := s.fields.(bloom := p.built.bloom))
    case 5 => moved.(version := p.next.version)
    case _ => moved.(count := |p.next.entries|)
  }

  function ClearStep(s: State, t: Caller, p: Proc): State
    requires p.Clearing? && p.n < 6
  {
    var moved := s.(procs := s.procs[t := Clearing(p.n + 1)]);
    match p.n
    case 0 => moved.(fields := s.fields.(domains := map[]))
    case 1 => moved.(fields := s.fields.(wildcards := map[]))
    case 2 => moved.(fields := s.fields.(ips := map[]))
    case 3 => moved.(fields := s.fields.(urlPatterns := map[]))
    case 4 => moved.(fields := s.fields.(bloom := s.fields.bloom.(bits := {})))
    case _ => moved.(count := 0)
  }

  predicate LockFree(s: State) {
    s.writer.None? && s.readers == {}
  }

  predicate WellPlaced(p: Proc) {
    && (p.ProbingSuffix? || p.InWildcards? ==> p.i <= |Split(p.q, '.')|)
    && (p.Building? ==> p.i <= |p.next.entries|)
    && (p.Counting? ==> p.n <= 7) && (p.Assigning? ==> p.n <= 7) && (p.Clearing? ==> p.n <= 6)
  }

  /** The next state of a busy caller, or None while it waits for the write lock. */
  function Advance(env: Env, s: State, t: Caller): Option<State>
    requires t in s.procs && WellPlaced(s.procs[t])
  {
    var p := s.procs[t];
    match p
    case Idle => None
    case Answered(_, _, _) => None
    case Counted(_, _) => None
    case Answering(q, snap, rule) =>
      Some(s.(readers := s.readers - {t}, procs := s.procs[t := Answered(q, snap, rule)]))
    case Counting(snap, n, stats) =>
      if n == 7 then Some(s.(readers := s.readers - {t}, procs := s.procs[t := Counted(snap, stats)]))
      else Some(s.(procs := s.procs[t := CountStep(s, p)]))
    case Building(next, i, built) =>
      if i < |next.entries| then
        Some(s.(procs := s.procs[t := Building(next, i + 1, IndexOne(env, built, next.entries[i]))]))
      else if LockFree(s) then
        Some(s.(writer := Some(t), procs := s.procs[t := Assigning(next, 0, built)]))
      else None
    case Assigning(next, n, _) =>
      if n == 7 then Some(s.(writer := None, procs := s.procs[t := Idle], installed := next))
      else Some(AssignStep(s, t, p))
    case Clearing(n) =>
      if n == 6 then
        Some(s.(writer := None, procs := s.procs[t := Idle],
                installed := Snapshot([], s.installed.version, s.installed.sizedFor)))
      else Some(ClearStep(s, t, p))
    case _ => Some(s.(procs := s.procs[t := LookupStep(env, s.fields, p)]))
  }

  const NO_STATS := StoreStats(0, 0, 0, 0, 0, "", 0)

  predicate Next(env: Env, s: State, t: Caller, step: Step, s': State) {
    && t in s.procs
    && match step
       case StartLookup(q) =>
         && Free(s.procs[t]) && q != "" && s.writer.None?
         && s' == s.(readers := s.readers + {t}, procs := s.procs[t := Probing(q, s.installed)])
       case StartStats =>
         && Free(s.procs[t]) && s.writer.None?
         && s' == s.(readers := s.readers + {t}, procs := s.procs[t := Counting(s.installed, 0, NO_STATS)])
       case StartUpdate(entries, version) =>
         && Free(s.procs[t])
         && var next := Snapshot(entries, version, |entries|);
            var (size, k) := Dimensions(|entries|, env.sizing);
            s' == s.(procs := s.procs[t := Building(next, 0, EmptyFields(Filter(size, k, {})))])
       case StartClear =>
         && Free(s.procs[t]) && LockFree(s)
         && s' == s.(writer := Some(t), procs := s.procs[t := Clearing(0)])
       case Continue => WellPlaced(s.procs[t]) && Advance(env, s, t) == Some(s')
  }

  predicate Init(env: Env, s: State) {
    && s.fields == EmptyFields(s.fields.bloom)
    && (s.fields.bloom.size, s.fields.bloom.k) == Dimensions(INITIAL_ITEMS, env.sizing)
    && s.count == 0 && s.version == "" && s.readers == {} && s.writer.None?
    && s.installed == Snapshot([], "", INITIAL_ITEMS)
    && forall t | t in s.procs :: s.procs[t] == Idle
  }

  // ---------------------------------------------------------------- the invariant

  /** The fields are those a build from `es` produces. */
  ghost predicate Holds(env: Env, f: Fields, es: Entries) {
    && f.domains == DomainMap(es, env.validIP) && f.ips == IPMap(es, env.validIP)
    && f.wildcards == WildcardMap(es, env.validIP)
    && f.urlPatterns == HostMap(es, env.validIP, env.hostOf)
    && FilterHolds(f.bloom, env.hash, FilterKeys(es, env.validIP, env.hostOf))
  }

  ghost predicate FilterHolds(bloom: Filter, hash: Hash, keys: set<string>) {
    bloom.size > 0 && bloom.bits == AllProbes(keys, hash, bloom.k, bloom.size)
  }

  function StatsOf(env: Env, snap: Snapshot): StoreStats {
    StoreStats(
      |snap.entries|, |DomainMap(snap.entries, env.validIP)|, |WildcardMap(snap.entries, env.validIP)|,
      |IPMap(snap.entries, env.validIP)|, |HostMap(snap.entries, env.validIP, env.hostOf)|, snap.version,
      Dimensions(snap.sizedFor, env.sizing).0)
  }

  predicate SizedFor(env: Env, bloom: Filter, snap: Snapshot) {
    (bloom.size, bloom.k) == Dimensions(snap.sizedFor, env.sizing)
  }

  /** Everything outside a writer's critical section is in order. */
  ghost predicate Current(env: Env, s: State) {
    && Holds(env, s.fields, s.installed.entries) && SizedFor(env, s.fields.bloom, s.installed)
    && s.count == |s.installed.entries| && s.version == s.installed.version
  }

  /** What a lookup knows at each of its steps. */
  ghost predicate LookupOk(env: Env, p: Proc)
    requires HoldsRead(p) && !p.Counting?
  {
    var es := p.snap.entries;
    var keys := FilterKeys(es, env.validIP, env.hostOf);
    match p
    case Probing(q, _) => true
    case ProbingSuffix(q, _, i) => 1 <= i <= |Split(q, '.')| && q !in keys && NoHitBefore(keys, q, i)
    case InDomains(q, _) => true
    case InIPs(q, _) => q !in DomainMap(es, env.validIP)
    case InWildcards(q, _, i) =>
      && q !in DomainMap(es, env.validIP) && q !in IPMap(es, env.validIP)
      && 1 <= i <= |Split(q, '.')| && NoHitBefore(WildcardMap(es, env.validIP).Keys, q, i)
    case InURLPatterns(q, _) => Verdict(es, q, env.validIP) == None
    case Answering(q, _, rule) => rule == Verdict(es, q, env.validIP)
  }

  ghost predicate CountsOk(env: Env, snap: Snapshot, n: nat, st: StoreStats) {
    var all := StatsOf(env, snap);
    && n <= 7
    && (n > 0 ==> st.totalEntries == all.totalEntries)
    && (n > 1 ==> st.domainEntries == all.domainEntries)
    && (n > 2 ==> st.wildcardEntries == all.wildcardEntries)
    && (n > 3 ==> st.ipEntries == all.ipEntries)
    && (n > 4 ==> st.urlPatterns == all.urlPatterns)
    && (n > 5 ==> st.version == all.version)
    && (n > 6 ==> st.bloomFilterSize == all.bloomFilterSize)
  }

  /** The first `n` of the writer's assignments are in place. */
  ghost predicate AssignedOk(s: State, next: Snapshot, n: nat, built: Fields) {
    && n <= 7
    && (n > 0 ==> s.fields.domains == built.domains)
    && (n > 1 ==> s.fields.wildcards == built.wildcards)
    && (n > 2 ==> s.fields.ips == built.ips)
    && (n > 3 ==> s.fields.urlPatterns == built.urlPatterns)
    && (n > 4 ==> s.fields.bloom == built.bloom)
    && (n > 5 ==> s.version == next.version)
    && (n > 6 ==> s.count == |next.entries|)
  }

  ghost predicate ClearedOk(s: State, n: nat) {
    && n <= 6 && s.fields.bloom.size > 0 && s.version == s.installed.version
    && (n > 0 ==> s.fields.domains == map[])
    && (n > 1 ==> s.fields.wildcards == map[])
    && (n > 2 ==> s.fields.ips == map[])
    && (n > 3 ==> s.fields.urlPatterns == map[])
    && (n > 4 ==> s.fields.bloom.bits == {})
    && (n > 5 ==> s.count == 0)
  }

  ghost predicate ProcOk(env: Env, s: State, p: Proc) {
    match p
    case Idle => true
    case Answered(q, snap, rule) => rule == Verdict(snap.entries, q, env.validIP)
    case Counting(snap, n, stats) => snap == s.installed && CountsOk(env, snap, n, stats)
    case Counted(snap, stats) => stats == StatsOf(env, snap)
    case Building(next, i, built) =>
      i <= |next.entries| && Holds(env, built, next.entries[..i]) && SizedFor(env, built.bloom, next)
    case Assigning(next, n, built) =>
      Holds(env, built, next.entries) && SizedFor(env, built.bloom, next) && AssignedOk(s, next, n, built)
    case Clearing(n) => ClearedOk(s, n) && SizedFor(env, s.fields.bloom, s.installed)
    case _ => p.snap == s.installed && LookupOk(env, p)
  }

  ghost predicate LockOk(s: State) {
    && s.readers <= s.procs.Keys
    && (s.writer.Some? ==> s.readers == {} && s.writer.value in s.procs)
    && forall t | t in s.procs ::
         (t in s.readers <==> HoldsRead(s.procs[t])) && (s.writer == Some(t) <==> HoldsWrite(s.procs[t]))
  }

  ghost predicate Inv(env: Env, s: State) {
    && LockOk(s)
    && (s.writer.None? ==> Current(env, s))
    && forall t | t in s.procs :: ProcOk(env, s, s.procs[t])
  }

  lemma InitInv(env: Env, s: State)
    requires SizingOk(env.sizing) && Init(env, s)
    ensures Inv(env, s)
  {
    assert SizingFits(INITIAL_ITEMS, env.sizing);
  }

  lemma AddKeyHolds(bloom: Filter, hash: Hash, keys: set<string>, key: Option<string>)
    requires FilterHolds(bloom, hash, keys)
    ensures FilterHolds(AddKey(bloom, hash, key), hash, keys + if key.Some? then {key.value} else {})
  {
    if key.Some? {
      AllProbesNext(keys, key.value, hash, bloom.k, bloom.size);
    } else {
      assert keys + {} == keys;
    }
  }

  /** No key is missed. */
  lemma KeysMayBeContained(bloom: Filter, hash: Hash, keys: set<string>, item: string)
    requires FilterHolds(bloom, hash, keys) && !MayContain(bloom, hash, item)
    ensures item !in keys
  {
    if item in keys {
      ProbesAreIncluded(keys, item, hash, bloom.k, bloom.size);
    }
  }

  lemma IndexOneMaps(env: Env, f: Fields, es: Entries, e: RegistryEntry)
    requires f.domains == DomainMap(es, env.validIP) && f.ips == IPMap(es, env.validIP)
    requires f.wildcards == WildcardMap(es, env.validIP)
    requires f.urlPatterns == HostMap(es, env.validIP, env.hostOf)
    ensures var f' := IndexOne(env, f, e);
      && f'.domains == DomainMap(es + [e], env.validIP) && f'.ips == IPMap(es + [e], env.validIP)
      && f'.wildcards == WildcardMap(es + [e], env.validIP)
      && f'.urlPatterns == HostMap(es + [e], env.validIP, env.hostOf)
  {
    hide DomainMap, IPMap, WildcardMap, HostMap, RuleOf, WildcardBase, AddKey, FilterKey;
    MapsNext(env, es, e);
  }

  lemma IndexOneHolds(env: Env, f: Fields, es: Entries, e: RegistryEntry)
    requires Holds(env, f, es)
    ensures Holds(env, IndexOne(env, f, e), es + [e])
  {
    var key := FilterKey(e, env.validIP, env.hostOf);
    IndexOneMaps(env, f, es, e);
    FilterKeysNext(es, e, env.validIP, env.hostOf);
    AddKeyHolds(f.bloom, env.hash, FilterKeys(es, env.validIP, env.hostOf), key);
  }

  lemma IndexOneKeepsSize(env: Env, f: Fields, e: RegistryEntry)
    ensures IndexOne(env, f, e).bloom.size == f.bloom.size && IndexOne(env, f, e).bloom.k == f.bloom.k
  {
  }

  lemma {:induction false} NoPatternMatches(patterns: seq<BlockingRule>)
    ensures FirstMatch(patterns) == None
  {
    if patterns != [] {
      NothingMatchesTheEmptyURL(patterns[0]);
      NoPatternMatches(patterns[1..]);
    }
  }

  /** A lookup step keeps what the lookup knows true. */
  lemma LookupStepOk(env: Env, f: Fields, p: Proc)
    requires HoldsRead(p) && !p.Counting? && !p.Answering? && WellPlaced(p)
    requires Holds(env, f, p.snap.entries) && LookupOk(env, p)
    ensures var p' := LookupStep(env, f, p);
      HoldsRead(p') && !p'.Counting? && p'.snap == p.snap && p'.q == p.q && LookupOk(env, p')
  {
    var es, q := p.snap.entries, p.q;
    var keys := FilterKeys(es, env.validIP, env.hostOf);
    var wild := Scan(es, q, env.validIP).wild;
    WildcardMapIsScan(es, q, env.validIP);
    IndexGivesVerdict(es, q, env.validIP, wild);
    match p
    case Probing(_, _) =>
      if !MayContain(f.bloom, env.hash, q) {
        KeysMayBeContained(f.bloom, env.hash, keys, q);
      }
    case ProbingSuffix(_, _, i) =>
      if i == |Split(q, '.')| {
        NoFilterKeyNoVerdict(es, q, env.validIP, env.hostOf);
      } else if !MayContain(f.bloom, env.hash, SuffixAt(q, i)) {
        KeysMayBeContained(f.bloom, env.hash, keys, SuffixAt(q, i));
        NoHitBeforeNext(keys, q, i);
      }
    case InWildcards(_, _, i) =>
      var m := WildcardMap(es, env.validIP);
      if i == |Split(q, '.')| {
        NoRoundNoHit(m, q);
        WildcardAnswerIsUnique(m, q, None, wild);
      } else if SuffixAt(q, i) in m {
        FirstRoundIsLongest(m, q, i);
        WildcardAnswerIsUnique(m, q, Some(m[SuffixAt(q, i)]), wild);
      } else {
        NoHitBeforeNext(m.Keys, q, i);
      }
    case InURLPatterns(_, _) =>
      if q in f.urlPatterns {
        NoPatternMatches(f.urlPatterns[q]);
      }
    case _ =>
  }

  /** The lock follows the phase of the caller that moves. */
  ghost predicate LocksFollow(s: State, t: Caller, p': Proc, s': State) {
    && s'.readers == (if HoldsRead(p') then s.readers + {t} else s.readers - {t})
    && s'.writer == (if HoldsWrite(p') then Some(t) else if s.writer == Some(t) then None else s.writer)
    && (HoldsRead(p') ==> s.writer.None?)
    && (HoldsWrite(p') ==> s.writer == Some(t) || LockFree(s))
  }

  lemma LocksKept(s: State, t: Caller, p': Proc, s': State)
    requires LockOk(s) && t in s.procs && s'.procs == s.procs[t := p'] && LocksFollow(s, t, p', s')
    ensures LockOk(s')
  {
  }

  /** Only the write lock's holder changes what others may be looking at. */
  ghost predicate OnlyWriterWrites(s: State, t: Caller, s': State) {
    s.writer == Some(t)
    || (s'.fields == s.fields && s'.count == s.count && s'.version == s.version && s'.installed == s.installed)
  }

  lemma OthersKept(env: Env, s: State, t: Caller, s': State, u: Caller)
    requires LockOk(s) && u in s.procs && u != t && ProcOk(env, s, s.procs[u])
    requires OnlyWriterWrites(s, t, s')
    ensures ProcOk(env, s', s.procs[u])
  {
    assert HoldsRead(s.procs[u]) ==> s.writer.None?;
    assert HoldsWrite(s.procs[u]) ==> s.writer == Some(u);
  }

  /** A step of `t` to phase `p'`. */
  lemma StepKeepsInv(env: Env, s: State, t: Caller, p': Proc, s': State)
    requires Inv(env, s) && t in s.procs && s'.procs == s.procs[t := p']
    requires LocksFollow(s, t, p', s') && OnlyWriterWrites(s, t, s')
    requires ProcOk(env, s', p') && (s'.writer.None? ==> Current(env, s'))
    ensures Inv(env, s')
  {
    LocksKept(s, t, p', s');
    forall u | u in s'.procs ensures ProcOk(env, s', s'.procs[u]) {
      if u != t {
        OthersKept(env, s, t, s', u);
      }
    }
  }

  /** What the invariant says of one caller. */
  lemma InvAt(env: Env, s: State, t: Caller)
    requires Inv(env, s) && t in s.procs
    ensures ProcOk(env, s, s.procs[t])
    ensures HoldsRead(s.procs[t]) <==> t in s.readers
    ensures HoldsWrite(s.procs[t]) <==> s.writer == Some(t)
    ensures HoldsRead(s.procs[t]) ==> s.writer.None?
    ensures HoldsWrite(s.procs[t]) ==> s.readers == {}
    ensures s.writer.None? ==> Current(env, s)
  {
  }

  lemma StartStep(env: Env, s: State, t: Caller, step: Step, s': State)
    requires SizingOk(env.sizing) && Inv(env, s) && Next(env, s, t, step, s') && !step.Continue?
    ensures Inv(env, s')
  {
    hide Inv;
    InvAt(env, s, t);
    if step.StartUpdate? {
      EmptyBuildHolds(env, step.entries);
    }
    StepKeepsInv(env, s, t, s'.procs[t], s');
  }

  lemma EmptyBuildHolds(env: Env, entries: Entries)
    requires SizingOk(env.sizing)
    ensures var (size, k) := Dimensions(|entries|, env.sizing);
            Holds(env, EmptyFields(Filter(size, k, {})), entries[..0])
  {
    assert entries[..0] == [] && SizingFits(|entries|, env.sizing);
  }

  /** A step that leaves the locks and the shared fields alone. */
  lemma PrivateStepKeepsInv(env: Env, s: State, t: Caller, p': Proc)
    requires Inv(env, s) && t in s.procs && ProcOk(env, s, p')
    requires (HoldsRead(p') <==> HoldsRead(s.procs[t])) && !HoldsWrite(p') && !HoldsWrite(s.procs[t])
    ensures Inv(env, s.(procs := s.procs[t := p']))
  {
    var s' := s.(procs := s.procs[t := p']);
    InvAt(env, s, t);
    assert s'.readers == if HoldsRead(p') then s.readers + {t} else s.readers - {t};
    StepKeepsInv(env, s, t, p', s');
  }

  lemma LookupProcOk(env: Env, s: State, p: Proc)
    requires HoldsRead(p) && !p.Counting?
    ensures ProcOk(env, s, p) <==> p.snap == s.installed && LookupOk(env, p)
  {
  }

  lemma LookupStepKeepsInv(env: Env, s: State, t: Caller)
    requires Inv(env, s) && t in s.procs && WellPlaced(s.procs[t])
    requires HoldsRead(s.procs[t]) && !s.procs[t].Counting? && !s.procs[t].Answering?
    ensures Inv(env, s.(procs := s.procs[t := LookupStep(env, s.fields, s.procs[t])]))
  {
    hide Inv, ProcOk, LookupOk, Holds;
    var p := s.procs[t];
    var p' := LookupStep(env, s.fields, p);
    InvAt(env, s, t);
    LookupProcOk(env, s, p);
    LookupStepOk(env, s.fields, p);
    LookupProcOk(env, s, p');
    PrivateStepKeepsInv(env, s, t, p');
  }

  lemma CountStepKeepsInv(env: Env, s: State, t: Caller)
    requires Inv(env, s) && t in s.procs && s.procs[t].Counting? && s.procs[t].n < 7
    ensures Inv(env, s.(procs := s.procs[t := CountStep(s, s.procs[t])]))
  {
    hide Inv;
    InvAt(env, s, t);
    PrivateStepKeepsInv(env, s, t, CountStep(s, s.procs[t]));
  }

  lemma ReaderStep(env: Env, s: State, t: Caller, s': State)
    requires Inv(env, s) && Next(env, s, t, Continue, s') && HoldsRead(s.procs[t])
    ensures Inv(env, s')
  {
    hide Inv;
    var p := s.procs[t];
    if !p.Answering? && !p.Counting? {
      LookupStepKeepsInv(env, s, t);
    } else if p.Counting? && p.n < 7 {
      CountStepKeepsInv(env, s, t);
    } else {
      InvAt(env, s, t);
      StepKeepsInv(env, s, t, s'.procs[t], s');
    }
  }

  lemma BuildRound(env: Env, s: State, t: Caller, p: Proc)
    requires Inv(env, s) && t in s.procs && p == s.procs[t] && p.Building? && p.i < |p.next.entries|
    ensures var p' := Building(p.next, p.i + 1, IndexOne(env, p.built, p.next.entries[p.i]));
            Inv(env, s.(procs := s.procs[t := p']))
  {
    hide Inv, IndexOne, Holds;
    InvAt(env, s, t);
    IndexOneKeepsSize(env, p.built, p.next.entries[p.i]);
    IndexOneHolds(env, p.built, p.next.entries[..p.i], p.next.entries[p.i]);
    assert p.next.entries[..p.i + 1] == p.next.entries[..p.i] + [p.next.entries[p.i]];
    PrivateStepKeepsInv(env, s, t, Building(p.next, p.i + 1, IndexOne(env, p.built, p.next.entries[p.i])));
  }

  lemma BuilderStep(env: Env, s: State, t: Caller, s': State)
    requires Inv(env, s) && Next(env, s, t, Continue, s') && s.procs[t].Building?
    ensures Inv(env, s')
  {
    hide Inv, IndexOne, Holds;
    InvAt(env, s, t);
    var p := s.procs[t];
    if p.i < |p.next.entries| {
      BuildRound(env, s, t, p);
    } else {
      assert p.next.entries[..p.i] == p.next.entries;
      StepKeepsInv(env, s, t, s'.procs[t], s');
    }
  }

  lemma AssignStepOk(s: State, t: Caller, p: Proc)
    requires p.Assigning? && p.n < 7 && AssignedOk(s, p.next, p.n, p.built)
    ensures var s' := AssignStep(s, t, p);
      AssignedOk(s', p.next, p.n + 1, p.built) && s'.installed == s.installed
  {
  }

  lemma ClearStepOk(s: State, t: Caller, p: Proc)
    requires p.Clearing? && p.n < 6 && ClearedOk(s, p.n)
    ensures var s' := ClearStep(s, t, p);
      ClearedOk(s', p.n + 1) && s'.installed == s.installed && s'.fields.bloom.size == s.fields.bloom.size
      && s'.fields.bloom.k == s.fields.bloom.k
  {
  }

  lemma AssignedIsCurrent(env: Env, s: State, next: Snapshot, built: Fields)
    requires Holds(env, built, next.entries) && SizedFor(env, built.bloom, next) && AssignedOk(s, next, 7, built)
    ensures Current(env, s.(installed := next))
  {
    assert s.fields == built;
  }

  lemma ClearedIsCurrent(env: Env, s: State)
    requires ClearedOk(s, 6) && SizedFor(env, s.fields.bloom, s.installed)
    ensures Current(env, s.(installed := Snapshot([], s.installed.version, s.installed.sizedFor)))
  {
  }

  lemma AssigningStep(env: Env, s: State, t: Caller, s': State)
    requires Inv(env, s) && Next(env, s, t, Continue, s') && s.procs[t].Assigning?
    ensures Inv(env, s')
  {
    hide Inv, Holds;
    InvAt(env, s, t);
    var p := s.procs[t];
    if p.n == 7 {
      AssignedIsCurrent(env, s, p.next, p.built);
    } else {
      AssignStepOk(s, t, p);
    }
    StepKeepsInv(env, s, t, s'.procs[t], s');
  }

  lemma ClearingStep(env: Env, s: State, t: Caller, s': State)
    requires Inv(env, s) && Next(env, s, t, Continue, s') && s.procs[t].Clearing?
    ensures Inv(env, s')
  {
    hide Inv, Holds;
    InvAt(env, s, t);
    var p := s.procs[t];
    if p.n == 6 {
      ClearedIsCurrent(env, s);
    } else {
      ClearStepOk(s, t, p);
    }
    StepKeepsInv(env, s, t, s'.procs[t], s');
  }

  /** Field-by-field assignment and clearing keep the invariant. */
  lemma WriterStep(env: Env, s: State, t: Caller, s': State)
    requires Inv(env, s) && Next(env, s, t, Continue, s') && HoldsWrite(s.procs[t])
    ensures Inv(env, s')
  {
    assert t in s.procs;
    hide Inv, Next;
    if s.procs[t].Assigning? {
      AssigningStep(env, s, t, s');
    } else {
      ClearingStep(env, s, t, s');
    }
  }

  /** Every step of every caller keeps the invariant. */
  lemma InvNext(env: Env, s: State, t: Caller, step: Step, s': State)
    requires SizingOk(env.sizing) && Inv(env, s) && Next(env, s, t, step, s')
    ensures Inv(env, s')
  {
    if !step.Continue? {
      StartStep(env, s, t, step, s');
    } else if HoldsRead(s.procs[t]) {
      ReaderStep(env, s, t, s');
    } else if HoldsWrite(s.procs[t]) {
      WriterStep(env, s, t, s');
    } else {
      BuilderStep(env, s, t, s');
    }
  }

  // ---------------------------------------------------------------- whole runs

  ghost predicate Linked(env: Env, s: State, s': State) {
    exists t, step :: Next(env, s, t, step, s')
  }

  /** Any interleaving of any operations, from a new store on. */
  ghost predicate IsRun(env: Env, run: seq<State>) {
    && run != [] && Init(env, run[0])
    && forall i | 0 <= i < |run| - 1 :: Linked(env, run[i], run[i + 1])
  }

  lemma {:induction false} RunInv(env: Env, run: seq<State>, i: nat)
    requires SizingOk(env.sizing) && IsRun(env, run) && i < |run|
    ensures Inv(env, run[i])
  {
    if i == 0 {
      InitInv(env, run[0]);
    } else {
      RunInv(env, run, i - 1);
      assert Linked(env, run[i - 1], run[i]);
      var t, step :| Next(env, run[i - 1], t, step, run[i]);
      InvNext(env, run[i - 1], t, step, run[i]);
    }
  }

  /** What a caller under the read lock is about: a lookup of a name, or the statistics; and
      the registry that was installed when it took the lock. */
  datatype Task = Task(q: Option<string>, snap: Snapshot)

  function TaskOf(p: Proc): Task
    requires HoldsRead(p)
  {
    Task(if p.Counting? then None else Some(p.q), p.snap)
  }

  /** The caller was free before moment `a`, took the read lock then for this task, and has held
      it without a break up to moment `j`; the task's registry was installed throughout. */
  ghost predicate HeldSince(run: seq<State>, a: int, j: int, t: Caller, task: Task) {
    && 1 <= a <= j < |run| && t in run[a - 1].procs && Free(run[a - 1].procs[t])
    && forall k | a <= k <= j :: HoldsAt(run[k], t, task)
  }

  ghost predicate HoldsAt(s: State, t: Caller, task: Task) {
    && t in s.procs && t in s.readers && HoldsRead(s.procs[t]) && TaskOf(s.procs[t]) == task
    && s.installed == task.snap
  }

  /** From moment `j + 1` to moment `i` the caller has been in phase `p`. */
  ghost predicate StaysAt(run: seq<State>, j: int, i: int, t: Caller, p: Proc)
    requires -1 <= j <= i < |run|
  {
    forall k | j < k <= i :: t in run[k].procs && run[k].procs[t] == p
  }

  /** A completed lookup: the lock taken at `a`, the answer in hand at `j` with the lock still
      held, and nothing since. */
  ghost predicate LookupSpan(run: seq<State>, a: int, j: int, i: int, t: Caller,
                             q: string, snap: Snapshot, rule: Option<BlockingRule>) {
    && HeldSince(run, a, j, t, Task(Some(q), snap)) && j < i < |run|
    && run[j].procs[t] == Answering(q, snap, rule) && StaysAt(run, j, i, t, Answered(q, snap, rule))
  }

  /** A completed statistics call, in the same way. */
  ghost predicate StatsSpan(run: seq<State>, a: int, j: int, i: int, t: Caller, snap: Snapshot, st: StoreStats) {
    && HeldSince(run, a, j, t, Task(None, snap)) && j < i < |run|
    && run[j].procs[t] == Counting(snap, 7, st) && StaysAt(run, j, i, t, Counted(snap, st))
  }

  /** A step moves one caller. */
  lemma OnlyOneMoves(env: Env, s: State, u: Caller, step: Step, s': State)
    requires Next(env, s, u, step, s')
    ensures u in s.procs && u in s'.procs && s'.procs == s.procs[u := s'.procs[u]]
  {
    hide LookupStep, IndexOne, CountStep, Dimensions;
  }

  /** The mover holds the read lock after its step: it was free, or it had it for this task. */
  lemma MoverKeepsTask(env: Env, s: State, t: Caller, step: Step, s': State)
    requires Next(env, s, t, step, s') && t in s'.procs && HoldsRead(s'.procs[t])
    ensures Free(s.procs[t]) || (HoldsRead(s.procs[t]) && TaskOf(s.procs[t]) == TaskOf(s'.procs[t]))
  {
    hide IndexOne, MayContain, SuffixAt, FirstMatch, Dimensions;
  }

  /** A caller under the read lock either was so for the same task or has just been free. */
  lemma TaskStep(env: Env, s: State, u: Caller, step: Step, s': State, t: Caller)
    requires Next(env, s, u, step, s') && t in s'.procs && HoldsRead(s'.procs[t])
    ensures t in s.procs
    ensures Free(s.procs[t]) || (HoldsRead(s.procs[t]) && TaskOf(s.procs[t]) == TaskOf(s'.procs[t]))
  {
    hide Next;
    OnlyOneMoves(env, s, u, step, s');
    if t == u {
      MoverKeepsTask(env, s, t, step, s');
    }
  }

  /** `p` is `p'` itself, or the same result with the lock still held. */
  predicate Released(p: Proc, p': Proc) {
    || p == p'
    || (p'.Answered? && p == Answering(p'.q, p'.snap, p'.rule))
    || (p'.Counted? && p == Counting(p'.snap, 7, p'.stats))
  }

  lemma MoverReleases(env: Env, s: State, t: Caller, step: Step, s': State)
    requires Next(env, s, t, step, s') && t in s'.procs && (s'.procs[t].Answered? || s'.procs[t].Counted?)
    ensures Released(s.procs[t], s'.procs[t])
  {
    hide IndexOne, MayContain, SuffixAt, FirstMatch, Dimensions;
  }

  /** A caller comes to have answered, or counted, only by releasing the lock with the result
      in hand. */
  lemma ReleaseStep(env: Env, s: State, u: Caller, step: Step, s': State, t: Caller)
    requires Next(env, s, u, step, s') && t in s'.procs && (s'.procs[t].Answered? || s'.procs[t].Counted?)
    ensures t in s.procs && Released(s.procs[t], s'.procs[t])
  {
    hide Next;
    OnlyOneMoves(env, s, u, step, s');
    if t == u {
      MoverReleases(env, s, t, step, s');
    }
  }

  lemma NobodyIsBusyYet(env: Env, s: State, t: Caller)
    requires Init(env, s) && t in s.procs
    ensures s.procs[t] == Idle
  {
  }

  // ---------------------------------------------------------------- what gets installed

  predicate IsUpdating(p: Proc, next: Snapshot) {
    (p.Building? || p.Assigning?) && p.next == next
  }

  /** The caller began an update with these arguments at step `a`, and has been at it up to
      moment `j`. */
  ghost predicate UpdatingSince(env: Env, run: seq<State>, a: int, j: int, t: Caller,
                                entries: Entries, version: string) {
    && 0 <= a < j < |run| && Next(env, run[a], t, StartUpdate(entries, version), run[a + 1])
    && forall k | a < k <= j :: t in run[k].procs && IsUpdating(run[k].procs[t], Snapshot(entries, version, |entries|))
  }

  /** The caller began a clear at step `a`, and has been at it up to moment `j`, while nothing
      else was installed. */
  ghost predicate ClearingSince(env: Env, run: seq<State>, a: int, j: int, t: Caller) {
    && 0 <= a < j < |run| && Next(env, run[a], t, StartClear, run[a + 1])
    && forall k | a < k <= j :: t in run[k].procs && run[k].procs[t].Clearing? && run[k].installed == run[a].installed
  }

  /** In the step between the two states the caller completes an update or a clear that puts
      `snap` in place. */
  ghost predicate Completes(s: State, s': State, t: Caller, snap: Snapshot) {
    && t in s.procs && t in s'.procs && s'.procs[t] == Idle && s'.installed == snap
    && (s.procs[t].Assigning? || s.procs[t].Clearing?)
  }

  lemma MoverUpdates(env: Env, s: State, t: Caller, step: Step, s': State)
    requires Next(env, s, t, step, s') && t in s'.procs && (s'.procs[t].Building? || s'.procs[t].Assigning?)
    ensures var next := s'.procs[t].next;
      || (step == StartUpdate(next.entries, next.version) && next.sizedFor == |next.entries|)
      || IsUpdating(s.procs[t], next)
  {
    hide IndexOne, LookupStep, Dimensions;
  }

  lemma MoverClears(env: Env, s: State, t: Caller, step: Step, s': State)
    requires Next(env, s, t, step, s') && t in s'.procs && s'.procs[t].Clearing?
    ensures s'.installed == s.installed
    ensures step == StartClear || (s.procs[t].Clearing? && s.procs[t].n < 6)
  {
    hide IndexOne, LookupStep, Dimensions;
  }

  /** Only a completed update or clear changes what is installed, and each installs what it
      should. */
  lemma InstalledStep(env: Env, s: State, t: Caller, step: Step, s': State)
    requires Next(env, s, t, step, s')
    ensures t in s.procs && t in s'.procs
    ensures !Completes(s, s', t, s'.installed) ==> s'.installed == s.installed
    ensures Completes(s, s', t, s'.installed) ==>
              s'.installed == if s.procs[t].Assigning? then s.procs[t].next
                              else Snapshot([], s.installed.version, s.installed.sizedFor)
  {
    hide IndexOne, LookupStep, Dimensions;
  }

  /** Whoever is at an update has been at it since it was called with these arguments. */
  lemma {:induction false} UpdateWasCalled(env: Env, run: seq<State>, j: nat, t: Caller) returns (a: int)
    requires IsRun(env, run) && j < |run| && t in run[j].procs
    requires run[j].procs[t].Building? || run[j].procs[t].Assigning?
    ensures var next := run[j].procs[t].next;
      next.sizedFor == |next.entries| && UpdatingSince(env, run, a, j, t, next.entries, next.version)
  {
    hide Next, Init;
    if j == 0 {
      NobodyIsBusyYet(env, run[0], t);
      assert false;
    } else {
      assert Linked(env, run[j - 1], run[j]);
      var u, step :| Next(env, run[j - 1], u, step, run[j]);
      OnlyOneMoves(env, run[j - 1], u, step, run[j]);
      if u == t {
        MoverUpdates(env, run[j - 1], t, step, run[j]);
      }
      if u == t && !IsUpdating(run[j - 1].procs[t], run[j].procs[t].next) {
        a := j - 1;
      } else {
        a := UpdateWasCalled(env, run, j - 1, t);
      }
    }
  }

  lemma {:induction false} ClearWasCalled(env: Env, run: seq<State>, j: nat, t: Caller) returns (a: int)
    requires SizingOk(env.sizing) && IsRun(env, run) && j < |run| && t in run[j].procs
    requires run[j].procs[t].Clearing?
    ensures ClearingSince(env, run, a, j, t)
  {
    hide Next, Init;
    if j == 0 {
      NobodyIsBusyYet(env, run[0], t);
      assert false;
    } else {
      assert Linked(env, run[j - 1], run[j]);
      var u, step :| Next(env, run[j - 1], u, step, run[j]);
      OnlyOneMoves(env, run[j - 1], u, step, run[j]);
      if u == t {
        MoverClears(env, run[j - 1], t, step, run[j]);
      } else {
        OthersInstallNothing(env, run, j - 1, t, u, step);
      }
      if u == t && step.StartClear? {
        a := j - 1;
      } else {
        a := ClearWasCalled(env, run, j - 1, t);
      }
    }
  }

  /** While one caller holds the write lock no other installs anything. */
  lemma OthersInstallNothing(env: Env, run: seq<State>, i: nat, t: Caller, u: Caller, step: Step)
    requires SizingOk(env.sizing) && IsRun(env, run) && i + 1 < |run| && u != t
    requires t in run[i].procs && HoldsWrite(run[i].procs[t]) && Next(env, run[i], u, step, run[i + 1])
    ensures run[i + 1].installed == run[i].installed
  {
    hide Next, IsRun, Inv;
    RunInv(env, run, i);
    InstalledStep(env, run[i], u, step, run[i + 1]);
    InvAt(env, run[i], t);
    InvAt(env, run[i], u);
  }

  /** A completed update has put in place the very registry it was called with. */
  lemma UpdateInstallsItsArgument(env: Env, run: seq<State>, i: nat, t: Caller)
    returns (a: int, entries: Entries, version: string)
    requires IsRun(env, run) && 1 <= i < |run| && t in run[i - 1].procs && t in run[i].procs
    requires run[i - 1].procs[t].Assigning? && run[i].procs[t] == Idle
    ensures UpdatingSince(env, run, a, i - 1, t, entries, version)
    ensures run[i].installed == Snapshot(entries, version, |entries|)
  {
    hide Next, Init, UpdatingSince;
    a := UpdateWasCalled(env, run, i - 1, t);
    entries, version := run[i - 1].procs[t].next.entries, run[i - 1].procs[t].next.version;
    assert Linked(env, run[i - 1], run[i]);
    var u, step :| Next(env, run[i - 1], u, step, run[i]);
    OnlyOneMoves(env, run[i - 1], u, step, run[i]);
    InstalledStep(env, run[i - 1], u, step, run[i]);
  }

  /** A completed clear has left the empty registry, under the version and with the filter size
      that were installed when it was called. */
  lemma ClearInstallsNothing(env: Env, run: seq<State>, i: nat, t: Caller) returns (a: int)
    requires SizingOk(env.sizing) && IsRun(env, run)
    requires 1 <= i < |run| && t in run[i - 1].procs && t in run[i].procs
    requires run[i - 1].procs[t].Clearing? && run[i].procs[t] == Idle
    ensures ClearingSince(env, run, a, i - 1, t)
    ensures run[i].installed == Snapshot([], run[a].installed.version, run[a].installed.sizedFor)
  {
    hide Next, Init;
    a := ClearWasCalled(env, run, i - 1, t);
    assert Linked(env, run[i - 1], run[i]);
    var u, step :| Next(env, run[i - 1], u, step, run[i]);
    OnlyOneMoves(env, run[i - 1], u, step, run[i]);
    InstalledStep(env, run[i - 1], u, step, run[i]);
  }

  ghost predicate CompletesAt(run: seq<State>, k: int, t: Caller, snap: Snapshot) {
    1 <= k < |run| && Completes(run[k - 1], run[k], t, snap)
  }

  /** No update and no clear completes after moment `c` up to moment `i`. */
  ghost predicate NoneCompletes(run: seq<State>, c: int, i: int)
    requires 0 <= c <= i < |run|
  {
    forall k, t | c < k <= i :: !CompletesAt(run, k, t, run[k].installed)
  }

  /** `snap` is what the latest completed update or clear has put in place, or what a new store
      holds if there has been none. */
  ghost predicate IsLatest(run: seq<State>, i: int, snap: Snapshot)
    requires 0 <= i < |run|
  {
    || (snap == Snapshot([], "", INITIAL_ITEMS) && NoneCompletes(run, 0, i))
    || exists c, t :: c <= i && CompletesAt(run, c, t, snap) && NoneCompletes(run, c, i)
  }

  lemma LatestKept(run: seq<State>, i: nat, snap: Snapshot)
    requires 1 <= i < |run| && IsLatest(run, i - 1, snap)
    requires forall t :: !CompletesAt(run, i, t, run[i].installed)
    ensures IsLatest(run, i, snap)
  {
    hide Completes;
    if snap == Snapshot([], "", INITIAL_ITEMS) && NoneCompletes(run, 0, i - 1) {
      assert NoneCompletes(run, 0, i);
    } else {
      var c, t :| c <= i - 1 && CompletesAt(run, c, t, snap) && NoneCompletes(run, c, i - 1);
      assert NoneCompletes(run, c, i);
    }
  }

  lemma LatestNow(run: seq<State>, i: nat, t: Caller)
    requires 1 <= i < |run| && Completes(run[i - 1], run[i], t, run[i].installed)
    ensures IsLatest(run, i, run[i].installed)
  {
    hide Completes;
    assert CompletesAt(run, i, t, run[i].installed) && NoneCompletes(run, i, i);
  }

  lemma OnlyMoverCompletes(env: Env, s: State, u: Caller, step: Step, s': State)
    requires Next(env, s, u, step, s')
    ensures forall t :: Completes(s, s', t, s'.installed) ==> t == u
  {
    hide Next;
    OnlyOneMoves(env, s, u, step, s');
  }

  /** What is installed is always what the latest completed update or clear has put in place. */
  lemma {:induction false} InstalledIsLatest(env: Env, run: seq<State>, i: nat)
    requires IsRun(env, run) && i < |run|
    ensures IsLatest(run, i, run[i].installed)
  {
    hide Next, Completes, IsLatest;
    if i == 0 {
      NewIsLatest(env, run);
    } else {
      assert Linked(env, run[i - 1], run[i]);
      var u, step :| Next(env, run[i - 1], u, step, run[i]);
      InstalledStep(env, run[i - 1], u, step, run[i]);
      OnlyMoverCompletes(env, run[i - 1], u, step, run[i]);
      if Completes(run[i - 1], run[i], u, run[i].installed) {
        LatestNow(run, i, u);
      } else {
        InstalledIsLatest(env, run, i - 1);
        LatestKept(run, i, run[i].installed);
      }
    }
  }

  lemma NewIsLatest(env: Env, run: seq<State>)
    requires IsRun(env, run)
    ensures IsLatest(run, 0, run[0].installed)
  {
    assert NoneCompletes(run, 0, 0);
  }

  // ---------------------------------------------------------------- what is answered

  lemma ReadersHold(env: Env, run: seq<State>, i: nat, t: Caller)
    requires SizingOk(env.sizing) && IsRun(env, run) && i < |run| && t in run[i].procs
    requires HoldsRead(run[i].procs[t])
    ensures HoldsAt(run[i], t, TaskOf(run[i].procs[t]))
  {
    RunInv(env, run, i);
    InvAt(env, run[i], t);
  }

  /** Whoever holds the read lock has held it since some moment, for one task. */
  lemma {:induction false} LockWasTaken(env: Env, run: seq<State>, j: nat, t: Caller) returns (a: int)
    requires SizingOk(env.sizing) && IsRun(env, run) && j < |run| && t in run[j].procs
    requires HoldsRead(run[j].procs[t])
    ensures HeldSince(run, a, j, t, TaskOf(run[j].procs[t]))
  {
    hide Next, Init, HoldsAt, TaskOf;
    ReadersHold(env, run, j, t);
    if j == 0 {
      NobodyIsBusyYet(env, run[0], t);
      assert false;
    } else {
      assert Linked(env, run[j - 1], run[j]);
      var u, step :| Next(env, run[j - 1], u, step, run[j]);
      TaskStep(env, run[j - 1], u, step, run[j], t);
      if Free(run[j - 1].procs[t]) {
        a := j;
      } else {
        a := LockWasTaken(env, run, j - 1, t);
      }
    }
  }

  lemma {:induction false} LookupHasSpan(env: Env, run: seq<State>, i: nat, t: Caller,
                                         q: string, snap: Snapshot, rule: Option<BlockingRule>)
    returns (a: int, j: int)
    requires SizingOk(env.sizing) && IsRun(env, run)
    requires i < |run| && t in run[i].procs && run[i].procs[t] == Answered(q, snap, rule)
    ensures LookupSpan(run, a, j, i, t, q, snap, rule)
  {
    hide Next, Init, HeldSince;
    if i == 0 {
      NobodyIsBusyYet(env, run[0], t);
      assert false;
    } else {
      assert Linked(env, run[i - 1], run[i]);
      var u, step :| Next(env, run[i - 1], u, step, run[i]);
      ReleaseStep(env, run[i - 1], u, step, run[i], t);
      if run[i - 1].procs[t] == run[i].procs[t] {
        a, j := LookupHasSpan(env, run, i - 1, t, q, snap, rule);
      } else {
        j := i - 1;
        a := LockWasTaken(env, run, j, t);
      }
    }
  }

  lemma {:induction false} StatsHaveSpan(env: Env, run: seq<State>, i: nat, t: Caller, snap: Snapshot, st: StoreStats)
    returns (a: int, j: int)
    requires SizingOk(env.sizing) && IsRun(env, run)
    requires i < |run| && t in run[i].procs && run[i].procs[t] == Counted(snap, st)
    ensures StatsSpan(run, a, j, i, t, snap, st)
  {
    hide Next, Init, HeldSince;
    if i == 0 {
      NobodyIsBusyYet(env, run[0], t);
      assert false;
    } else {
      assert Linked(env, run[i - 1], run[i]);
      var u, step :| Next(env, run[i - 1], u, step, run[i]);
      ReleaseStep(env, run[i - 1], u, step, run[i], t);
      if run[i - 1].procs[t] == run[i].procs[t] {
        a, j := StatsHaveSpan(env, run, i - 1, t, snap, st);
      } else {
        j := i - 1;
        a := LockWasTaken(env, run, j, t);
      }
    }
  }

  /** Every completed lookup took the lock at some moment, and its answer is the verdict of the
      one registry installed from then until it let go, whatever ran in between. */
  lemma LookupsAreAtomic(env: Env, run: seq<State>, i: nat, t: Caller,
                         q: string, snap: Snapshot, rule: Option<BlockingRule>)
    requires SizingOk(env.sizing) && IsRun(env, run)
    requires i < |run| && t in run[i].procs && run[i].procs[t] == Answered(q, snap, rule)
    ensures rule == Verdict(snap.entries, q, env.validIP)
    ensures exists a, j :: LookupSpan(run, a, j, i, t, q, snap, rule) && IsLatest(run, a, snap)
  {
    hide Verdict, IsRun, IsLatest, StaysAt;
    RunInv(env, run, i);
    InvAt(env, run[i], t);
    var a, j := LookupHasSpan(env, run, i, t, q, snap, rule);
    InstalledIsLatest(env, run, a);
    assert HoldsAt(run[a], t, Task(Some(q), snap));
  }

  /** Every completed statistics call took the lock at some moment, and reports the counts of
      the one registry installed from then until it let go; and they add up. */
  lemma StatsAreAtomic(env: Env, run: seq<State>, i: nat, t: Caller, snap: Snapshot, st: StoreStats)
    requires SizingOk(env.sizing) && IsRun(env, run)
    requires i < |run| && t in run[i].procs && run[i].procs[t] == Counted(snap, st)
    ensures st == StatsOf(env, snap)
    ensures st.totalEntries == |snap.entries| && st.version == snap.version
    ensures st.domainEntries == |DomainMap(snap.entries, env.validIP)|
    ensures st.wildcardEntries == |WildcardMap(snap.entries, env.validIP)|
    ensures st.ipEntries == |IPMap(snap.entries, env.validIP)|
    ensures st.urlPatterns == |HostMap(snap.entries, env.validIP, env.hostOf)|
    ensures st.bloomFilterSize == Dimensions(snap.sizedFor, env.sizing).0
    ensures exists a, j :: StatsSpan(run, a, j, i, t, snap, st) && IsLatest(run, a, snap)
    ensures st.domainEntries + st.wildcardEntries + st.ipEntries + st.urlPatterns <= st.totalEntries
  {
    hide IsRun, IsLatest, StaysAt;
    RunInv(env, run, i);
    InvAt(env, run[i], t);
    CountsAreBounded(snap.entries, env.validIP, env.hostOf);
    var a, j := StatsHaveSpan(env, run, i, t, snap, st);
    InstalledIsLatest(env, run, a);
    assert HoldsAt(run[a], t, Task(None, snap));
  }

  /** In every reachable state with no writer inside, the filter admits exactly what a filter
      sized for and built from the installed registry admits. */
  lemma FilterIsExact(env: Env, run: seq<State>, i: nat, item: string)
    requires SizingOk(env.sizing) && IsRun(env, run) && i < |run| && run[i].writer.None?
    ensures MayContain(run[i].fields.bloom, env.hash, item) <==>
            FilterAdmits(env, run[i].installed.entries, run[i].installed.sizedFor, item)
  {
    RunInv(env, run, i);
  }

  /** In every reachable state with no writer inside, dismissing a name by the filter is
      right: the filter changes no answer. */
  lemma FilterNeverChangesAnAnswer(env: Env, run: seq<State>, i: nat, q: string)
    requires SizingOk(env.sizing) && IsRun(env, run) && i < |run| && run[i].writer.None?
    requires !MayContain(run[i].fields.bloom, env.hash, q)
    requires forall j | 1 <= j < |Split(q, '.')| ::
               !MayContain(run[i].fields.bloom, env.hash, SuffixAt(q, j))
    ensures Verdict(run[i].installed.entries, q, env.validIP) == None
  {
    RunInv(env, run, i);
    var es := run[i].installed.entries;
    var keys, bloom := FilterKeys(es, env.validIP, env.hostOf), run[i].fields.bloom;
    KeysMayBeContained(bloom, env.hash, keys, q);
    forall j | 1 <= j < |Split(q, '.')| ensures SuffixAt(q, j) !in keys {
      KeysMayBeContained(bloom, env.hash, keys, SuffixAt(q, j));
    }
    NoFilterKeyNoVerdict(es, q, env.validIP, env.hostOf);
  }

  // ---------------------------------------------------------------- nobody is stuck

  /** How many steps of its own a busy caller has before it at most. */
  function Work(p: Proc): nat
    requires WellPlaced(p)
  {
    if p.Probing? then 5 + 2 * |Split(p.q, '.')|
    else if p.ProbingSuffix? then 5 + 2 * |Split(p.q, '.')| - p.i
    else if p.InDomains? then 4 + |Split(p.q, '.')|
    else if p.InIPs? then 3 + |Split(p.q, '.')|
    else if p.InWildcards? then 3 + |Split(p.q, '.')| - p.i
    else if p.InURLPatterns? then 2
    else if p.Answering? then 1
    else if p.Counting? then 8 - p.n
    else if p.Building? then 9 + |p.next.entries| - p.i
    else if p.Assigning? then 8 - p.n
    else if p.Clearing? then 7 - p.n
    else 0
  }

  lemma WorkIsPlaced(env: Env, s: State, t: Caller)
    requires Inv(env, s) && t in s.procs
    ensures WellPlaced(s.procs[t])
  {
    hide Inv, Holds, Current, SizedFor;
    InvAt(env, s, t);
  }

  lemma LookupWork(env: Env, f: Fields, p: Proc)
    requires HoldsRead(p) && !p.Counting? && !p.Answering? && WellPlaced(p)
    ensures var p' := LookupStep(env, f, p); WellPlaced(p') && Work(p') < Work(p)
  {
    hide MayContain, SuffixAt, FirstMatch;
  }

  /** Every step of a busy caller leaves it less to do. */
  lemma WorkShrinks(env: Env, s: State, t: Caller, s': State)
    requires Next(env, s, t, Continue, s')
    ensures t in s.procs && t in s'.procs && WellPlaced(s.procs[t]) && WellPlaced(s'.procs[t])
    ensures Work(s'.procs[t]) < Work(s.procs[t])
  {
    hide LookupStep, IndexOne;
    var p := s.procs[t];
    if HoldsRead(p) && !p.Counting? && !p.Answering? {
      LookupWork(env, s.fields, p);
    }
  }

  /** A busy caller can always take its next step, except one that has built everything and
      waits for the write lock. */
  lemma OnlyBuildersWait(env: Env, s: State, t: Caller)
    requires t in s.procs && WellPlaced(s.procs[t]) && !Free(s.procs[t])
    ensures var p := s.procs[t];
      Advance(env, s, t).None? <==> p.Building? && p.i == |p.next.entries| && !LockFree(s)
  {
    hide LookupStep, IndexOne;
  }

  /** What a busy caller comes to. */
  ghost predicate EndsAs(env: Env, s: State, t: Caller, s': State)
    requires t in s.procs
  {
    var p := s.procs[t];
    && t in s'.procs && s'.procs == s.procs[t := s'.procs[t]] && LockFreeBut(s, t, s')
    && var p' := s'.procs[t];
       if Free(p) then s' == s
       else if p.Counting? then s'.installed == s.installed && p' == Counted(p.snap, StatsOf(env, p.snap))
       else if HoldsRead(p) then
         s'.installed == s.installed && p' == Answered(p.q, p.snap, Verdict(p.snap.entries, p.q, env.validIP))
       else if p.Clearing? then
         p' == Idle && s'.installed == Snapshot([], s.installed.version, s.installed.sizedFor)
       else p' == Idle && s'.installed == p.next
  }

  /** The caller has let go of the lock, and nobody else has touched it. */
  predicate LockFreeBut(s: State, t: Caller, s': State) {
    && s'.readers == s.readers - {t}
    && s'.writer == if s.writer == Some(t) then None else s.writer
  }

  /** Alone, a caller takes one step after the other. */
  ghost predicate Solo(env: Env, t: Caller, run: seq<State>) {
    run != [] && forall i | 0 <= i < |run| - 1 :: Next(env, run[i], t, Continue, run[i + 1])
  }

  lemma FreeIsRest(env: Env, s: State, t: Caller)
    requires Inv(env, s) && t in s.procs && Free(s.procs[t])
    ensures EndsAs(env, s, t, s)
  {
    InvAt(env, s, t);
    assert s.procs == s.procs[t := s.procs[t]];
  }

  /** One step earlier. */
  lemma EndsAsBefore(env: Env, s: State, t: Caller, m: State, s': State)
    requires SizingOk(env.sizing) && Inv(env, s) && Inv(env, m) && Next(env, s, t, Continue, m)
    requires t in m.procs && EndsAs(env, m, t, s')
    ensures EndsAs(env, s, t, s')
  {
    hide Inv, Verdict, StatsOf, LookupStep, IndexOne;
    InvAt(env, s, t);
    InvAt(env, m, t);
    InstalledStep(env, s, t, Continue, m);
    LocksOfStep(env, s, t, m);
    ResultKept(env, s, t, m);
    hide Next, ProcOk;
    assert m.procs == s.procs[t := m.procs[t]] by {
      assert t in s.procs;
    }
  }

  /** A step keeps what the caller is about, up to its result. */
  lemma ResultKept(env: Env, s: State, t: Caller, m: State)
    requires Next(env, s, t, Continue, m) && t in m.procs && ProcOk(env, s, s.procs[t]) && ProcOk(env, m, m.procs[t])
    ensures m.procs == s.procs[t := m.procs[t]]
    ensures var p, p' := s.procs[t], m.procs[t];
      && !Free(p)
      && (p.Counting? ==> if Free(p') then p' == Counted(p.snap, StatsOf(env, p.snap))
                          else p'.Counting? && p'.snap == p.snap)
      && (HoldsRead(p) && !p.Counting? ==>
            if Free(p') then p' == Answered(p.q, p.snap, Verdict(p.snap.entries, p.q, env.validIP))
            else HoldsRead(p') && !p'.Counting? && p'.q == p.q && p'.snap == p.snap)
      && (p.Clearing? ==> if Free(p') then p' == Idle else p'.Clearing?)
      && (p.Building? || p.Assigning? ==> if Free(p') then p' == Idle else IsUpdating(p', p.next))
  {
    hide Verdict, StatsOf, LookupStep, IndexOne, Holds, LookupOk;
    OnlyOneMoves(env, s, t, Continue, m);
  }

  lemma LocksOfStep(env: Env, s: State, t: Caller, m: State)
    requires Next(env, s, t, Continue, m) && t in s.procs && t in m.procs
    requires HoldsWrite(s.procs[t]) ==> s.writer == Some(t)
    ensures m.readers == s.readers || m.readers == s.readers - {t}
    ensures m.writer == s.writer || (s.writer.None? && m.writer == Some(t)) || (s.writer == Some(t) && m.writer.None?)
  {
    hide LookupStep, IndexOne;
  }

  /** Left alone, every busy caller comes to its end: a lookup to the verdict of the registry
      it began with, statistics to its counts, an update to having installed its registry. */
  lemma {:induction false} FinishesAlone(env: Env, s: State, t: Caller) returns (run: seq<State>)
    requires SizingOk(env.sizing) && Inv(env, s) && t in s.procs && (s.procs[t].Building? ==> LockFree(s))
    ensures Solo(env, t, run) && run[0] == s && EndsAs(env, s, t, run[|run| - 1])
    ensures Inv(env, run[|run| - 1])
    decreases if WellPlaced(s.procs[t]) then Work(s.procs[t]) else 0
  {
    hide Inv, Next, Advance, EndsAs, Work, WellPlaced;
    WorkIsPlaced(env, s, t);
    if Free(s.procs[t]) {
      FreeIsRest(env, s, t);
      run := [s];
    } else {
      OnlyBuildersWait(env, s, t);
      var m := Advance(env, s, t).value;
      ContinueIsNext(env, s, t, m);
      InvNext(env, s, t, Continue, m);
      WorkShrinks(env, s, t, m);
      BuildingKeepsLockFree(env, s, t, m);
      var rest := FinishesAlone(env, m, t);
      run := [s] + rest;
      SoloFromEarlier(env, t, s, rest);
      EndsAsBefore(env, s, t, m, rest[|rest| - 1]);
    }
  }

  lemma ContinueIsNext(env: Env, s: State, t: Caller, m: State)
    requires t in s.procs && WellPlaced(s.procs[t]) && Advance(env, s, t) == Some(m)
    ensures Next(env, s, t, Continue, m)
  {
  }

  lemma BuildingKeepsLockFree(env: Env, s: State, t: Caller, m: State)
    requires Next(env, s, t, Continue, m) && t in m.procs
    ensures m.procs[t].Building? ==> s.procs[t].Building? && (LockFree(s) ==> LockFree(m))
  {
    hide LookupStep, IndexOne;
  }

  lemma SoloFromEarlier(env: Env, t: Caller, s: State, rest: seq<State>)
    requires Solo(env, t, rest) && Next(env, s, t, Continue, rest[0])
    ensures Solo(env, t, [s] + rest)
  {
    hide Next;
    var run := [s] + rest;
    forall i | 0 <= i < |run| - 1 ensures Next(env, run[i], t, Continue, run[i + 1]) {
      if i > 0 {
        assert Next(env, rest[i - 1], t, Continue, rest[i]);
      }
    }
  }

  /** With no writer inside, a free caller can look a name up, and alone it comes to the verdict
      of the registry that is installed. */
  lemma LookupCompletes(env: Env, s: State, t: Caller, q: string) returns (run: seq<State>)
    requires SizingOk(env.sizing) && Inv(env, s) && t in s.procs && Free(s.procs[t])
    requires s.writer.None? && q != ""
    ensures Solo(env, t, run) && Next(env, s, t, StartLookup(q), run[0])
    ensures var s' := run[|run| - 1];
      && t in s'.procs && s'.installed == s.installed && LockFreeBut(s, t, s')
      && s'.procs[t] == Answered(q, s.installed, Verdict(s.installed.entries, q, env.validIP))
  {
    var m := s.(readers := s.readers + {t}, procs := s.procs[t := Probing(q, s.installed)]);
    InvNext(env, s, t, StartLookup(q), m);
    hide Inv, Next, Solo, Verdict;
    run := FinishesAlone(env, m, t);
  }

  /** With the lock free, a free caller can update the store, and alone it comes to having
      installed exactly the registry it was called with. */
  lemma UpdateCompletes(env: Env, s: State, t: Caller, entries: Entries, version: string)
    returns (run: seq<State>)
    requires SizingOk(env.sizing) && Inv(env, s) && t in s.procs && Free(s.procs[t]) && LockFree(s)
    ensures Solo(env, t, run) && Next(env, s, t, StartUpdate(entries, version), run[0])
    ensures var s' := run[|run| - 1];
      && t in s'.procs && s'.procs[t] == Idle && LockFree(s') && Inv(env, s')
      && s'.installed == Snapshot(entries, version, |entries|)
  {
    var next := Snapshot(entries, version, |entries|);
    var (size, k) := Dimensions(|entries|, env.sizing);
    var m := s.(procs := s.procs[t := Building(next, 0, EmptyFields(Filter(size, k, {})))]);
    assert Next(env, s, t, StartUpdate(entries, version), m);
    InvNext(env, s, t, StartUpdate(entries, version), m);
    hide Inv, Next, Solo;
    run := FinishesAlone(env, m, t);
  }
}
