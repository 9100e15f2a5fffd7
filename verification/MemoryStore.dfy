/** The in-memory store: a Bloom prefilter in front of two hash maps, a radix tree and a host
    map, all rebuilt by `Update` and swapped in together. */
module MemoryStores {
  import opened Prelude
  import opened GoStrings
  import opened Domain
  import opened Reference
  import opened RadixTrees
  import opened BloomFilters
  import opened StoreIndex

  /** What the store takes from code outside the model. */
  datatype Env = Env(validIP: IPCheck, hostOf: HostOf, hash: Hash, sizing: Sizing)

  datatype StoreStats = StoreStats(
    totalEntries: int, domainEntries: int, wildcardEntries: int, ipEntries: int, urlPatterns: int,
    version: string, bloomFilterSize: uint64)

  /** The item count a new store sizes its filter for. */
  const INITIAL_ITEMS: nat := 1000000

  /** What a filter sized for `n` items and built from `es` answers about one string. */
  ghost predicate FilterAdmits(env: Env, es: Entries, n: nat, item: string)
    requires SizingFits(n, env.sizing)
  {
    var (size, k) := Dimensions(n, env.sizing);
    Probes(env.hash(item), k, size) <= AllProbes(FilterKeys(es, env.validIP, env.hostOf), env.hash, k, size)
  }

  /** The filter admits the name or one of its dot-suffixes. */
  ghost predicate FilterPasses(env: Env, es: Entries, n: nat, q: string)
    requires SizingFits(n, env.sizing)
  {
    FilterAdmits(env, es, n, q)
    || exists i :: 1 <= i < |Split(q, '.')| && FilterAdmits(env, es, n, SuffixAt(q, i))
  }

  /** Every key is admitted. */
  lemma KeysAreAdmitted(env: Env, es: Entries, n: nat, item: string)
    requires SizingFits(n, env.sizing) && item in FilterKeys(es, env.validIP, env.hostOf)
    ensures FilterAdmits(env, es, n, item)
  {
    var (size, k) := Dimensions(n, env.sizing);
    ProbesAreIncluded(FilterKeys(es, env.validIP, env.hostOf), item, env.hash, k, size);
  }

  class MemoryStore {
    const env: Env

    var domains: RuleMap
    var wildcards: RadixTree<BlockingRule>
    var ips: RuleMap
    var urlPatterns: map<string, seq<BlockingRule>>
    var bloom: BloomFilter
    var entryCount: int
    var version: string

    ghost var installed: Entries   // the entries the five structures were built from
    ghost var sizedFor: nat        // the item count the filter was sized for
    ghost var Repr: set<object>

    ghost predicate Valid()
      reads this, Repr
    {
      && OwnsParts()
      && Indexes(env, installed, domains, wildcards, ips, urlPatterns, bloom)
      && (bloom.size, bloom.k) == Dimensions(sizedFor, env.sizing)
      && SizingOk(env.sizing) && entryCount == |installed|
    }

    ghost predicate OwnsParts()
      reads this, Repr
    {
      && this in Repr && bloom in Repr && bloom.bits in Repr
      && wildcards in Repr && wildcards.root in Repr && wildcards.root.Repr <= Repr
    }

    /** The answer the installed entries give for a name. */
    ghost function Answer(q: string): BlockingResult
      reads this
    {
      var rule := Verdict(installed, q, env.validIP);
      NewBlockingResult(rule.Some?, q, rule)
    }

    constructor (env: Env)
      requires SizingOk(env.sizing)
      ensures Valid() && fresh(Repr)
      ensures this.env == env && installed == [] && version == "" && sizedFor == 1000000
    {
      hide RadixTree.Valid, RadixTree.Contents, BitSet, BloomFilter.Valid, RadixNode.Valid, Dimensions,
        DomainMap, WildcardMap, IPMap, HostMap;
      this.env := env;
      domains, ips, urlPatterns := map[], map[], map[];
      wildcards := new RadixTree();
      assert SizingFits(INITIAL_ITEMS, env.sizing);
      bloom := new BloomFilter(INITIAL_ITEMS, env.sizing, env.hash);
      entryCount, version, installed, sizedFor := 0, "", [], INITIAL_ITEMS;
      new;
      NothingToIndex(env);
      NothingToHold(bloom, env);
      hide FilterBuilt;
      Repr := {this, wildcards, bloom, bloom.bits} + wildcards.root.Repr;
    }

    /** A lookup answers as the scan of the installed entries does, rule included. */
    method IsBlocked(normalizedURL: string) returns (result: BlockingResult)
      requires Valid()
      ensures result == Answer(normalizedURL)
      ensures var v := Verdict(installed, normalizedURL, env.validIP);
        && (result.isBlocked <==> v.Some?) && result.rule == v && result.normalizedURL == normalizedURL
        && result.reason == match v { case None => Unknown case Some(rule) => rule.kind }
    {
      if normalizedURL == "" {
        EmptyNameHasNoVerdict(installed, env.validIP);
        return NewBlockingResult(false, normalizedURL, None);
      }
      var passed := PassesFilter(normalizedURL);
      if !passed {
        NoFilterKeyNoVerdict(installed, normalizedURL, env.validIP, env.hostOf);
        return NewBlockingResult(false, normalizedURL, None);
      }
      var rule := LookUp(normalizedURL);
      result := NewBlockingResult(rule.Some?, normalizedURL, rule);
    }

    /** The Bloom prefilter: passes exactly the names of which some tested string has all its
        positions among those of the keys; so it dismisses no name that was added, itself or by
        a dot-suffix. */
    method PassesFilter(q: string) returns (passed: bool)
      requires Valid()
      ensures passed <==> FilterPasses(env, installed, sizedFor, q)
      ensures !passed ==> var keys := FilterKeys(installed, env.validIP, env.hostOf);
                          q !in keys && NoHitBefore(keys, q, |Split(q, '.')|)
    {
      hide RadixTree.Valid, RadixTree.Contents, BitSet, Probes, AllProbes, Split, Join, Dimensions;
      ghost var keys := FilterKeys(installed, env.validIP, env.hostOf);
      if q in keys {
        KeysAreAdmitted(env, installed, sizedFor, q);
      }
      passed := bloom.Contains(q);
      if passed {
        return;
      }
      var parts := Split(q, '.');
      var i := 1;
      while i < |parts|
        invariant 1 <= i <= |parts| && NoHitBefore(keys, q, i)
        invariant forall j | 1 <= j < i :: !FilterAdmits(env, installed, sizedFor, SuffixAt(q, j))
      {
        var suffix := Join(parts[i..], '.');
        assert suffix == SuffixAt(q, i);
        if suffix in keys {
          KeysAreAdmitted(env, installed, sizedFor, suffix);
        }
        var mayHit := bloom.Contains(suffix);
        if mayHit {
          return true;
        }
        NoHitBeforeNext(keys, q, i);
        i := i + 1;
      }
    }

    /** The lookup behind the filter. */
    method LookUp(q: string) returns (rule: Option<BlockingRule>)
      requires Valid()
      ensures rule == Verdict(installed, q, env.validIP)
    {
      ghost var wild := Scan(installed, q, env.validIP).wild;
      WildcardMapIsScan(installed, q, env.validIP);
      IndexGivesVerdict(installed, q, env.validIP, wild);
      if q in domains {
        return Some(domains[q]);
      }
      if q in ips {
        return Some(ips[q]);
      }
      rule := wildcards.MatchesWildcard(q);
      WildcardAnswerIsUnique(WildcardMap(installed, env.validIP), q, rule, wild);
      if rule.Some? {
        return;
      }
      if q in urlPatterns {
        rule := MatchPatterns(urlPatterns[q]);
      }
    }

    /** The URL-path branch asks each rule about an empty URL, so it never finds one. */
    static method MatchPatterns(patterns: seq<BlockingRule>) returns (hit: Option<BlockingRule>)
      ensures hit == None
    {
      hit := None;
      for i := 0 to |patterns|
        invariant hit == None
      {
        var rule := patterns[i];
        NothingMatchesTheEmptyURL(rule);
        if Matches(rule, Some(URL("", ""))) {
          hit := Some(rule);
          break;
        }
      }
    }

    /** Builds everything for the new entries aside, then replaces all fields; a nil registry
        is refused and changes nothing. */
    method Update(registry: Registry?) returns (err: Option<Error>)
      requires Valid()
      modifies this
      ensures Valid() && fresh(Repr - old(Repr))
      ensures err.None? <==> registry != null
      ensures registry == null ==> unchanged(this)
      ensures registry != null ==> installed == registry.Entries && version == registry.Version
                                   && sizedFor == |registry.Entries|
    {
      hide Indexes, Dimensions;
      if registry == null {
        return Some(RegistryEntryInvalid);
      }
      var entries := registry.Entries;
      var newDomains, newWildcards, newIPs, newURLPatterns, newBloom := Build(env, entries);
      Install(entries, newDomains, newWildcards, newIPs, newURLPatterns, newBloom, registry.Version);
      err := None;
    }

    /** The part of `Update` before the lock: one round for each entry. */
    static method Build(env: Env, entries: Entries)
      returns (newDomains: RuleMap, newWildcards: RadixTree<BlockingRule>, newIPs: RuleMap,
               newURLPatterns: map<string, seq<BlockingRule>>, newBloom: BloomFilter)
      requires SizingOk(env.sizing)
      ensures fresh(newWildcards) && fresh(newWildcards.root.Repr) && newWildcards.root in newWildcards.root.Repr
      ensures fresh(newBloom) && fresh(newBloom.bits)
      ensures Indexes(env, entries, newDomains, newWildcards, newIPs, newURLPatterns, newBloom)
      ensures (newBloom.size, newBloom.k) == Dimensions(|entries|, env.sizing)
    {
      hide RadixTree.Valid, RadixTree.Contents, BitSet, BloomFilter.Valid, RadixNode.Valid, Dimensions, SizingFits,
        DomainMap, WildcardMap, IPMap, HostMap;
      newDomains, newIPs, newURLPatterns := map[], map[], map[];
      newWildcards := new RadixTree<BlockingRule>();
      assert SizingFits(|entries|, env.sizing);
      newBloom := new BloomFilter(|entries|, env.sizing, env.hash);
      NothingToIndex(env);
      NothingToHold(newBloom, env);
      hide FilterBuilt;
      for i := 0 to |entries|
        invariant fresh(newWildcards) && newWildcards.Valid()
        invariant fresh(newWildcards.root.Repr) && newWildcards.root in newWildcards.root.Repr
        invariant fresh(newBloom) && fresh(newBloom.bits)
        invariant newDomains == DomainMap(entries[..i], env.validIP)
        invariant newWildcards.Contents() == WildcardMap(entries[..i], env.validIP)
        invariant newIPs == IPMap(entries[..i], env.validIP)
        invariant newURLPatterns == HostMap(entries[..i], env.validIP, env.hostOf)
        invariant FilterBuilt(newBloom, entries[..i], env)
        invariant (newBloom.size, newBloom.k) == Dimensions(|entries|, env.sizing)
      {
        assert entries[..i + 1] == entries[..i] + [entries[i]];
        newDomains, newIPs, newURLPatterns := IndexEntry(
          env, entries[..i], entries[i], newDomains, newIPs, newURLPatterns, newWildcards, newBloom);
      }
      assert entries[..|entries|] == entries;
    }

    /** The locked part of `Update`: replaces all fields at once. */
    method Install(
      entries: Entries, newDomains: RuleMap, newWildcards: RadixTree<BlockingRule>, newIPs: RuleMap,
      newURLPatterns: map<string, seq<BlockingRule>>, newBloom: BloomFilter, newVersion: string)
      requires Indexes(env, entries, newDomains, newWildcards, newIPs, newURLPatterns, newBloom)
      requires newWildcards.root in newWildcards.root.Repr && SizingOk(env.sizing)
      requires (newBloom.size, newBloom.k) == Dimensions(|entries|, env.sizing)
      modifies this
      ensures Valid() && installed == entries && version == newVersion && sizedFor == |entries|
      ensures Repr == {this, newWildcards, newBloom, newBloom.bits} + newWildcards.root.Repr
    {
      hide Indexes, SizingOk, Dimensions;
      domains, wildcards, ips, urlPatterns := newDomains, newWildcards, newIPs, newURLPatterns;
      bloom, version, entryCount := newBloom, newVersion, |entries|;
      Installed(entries);
    }

    /** Brings the ghost fields up to date with the parts just assigned. */
    ghost method Installed(entries: Entries)
      requires Indexes(env, entries, domains, wildcards, ips, urlPatterns, bloom) && SizingOk(env.sizing)
      requires wildcards.root in wildcards.root.Repr && entryCount == |entries|
      requires (bloom.size, bloom.k) == Dimensions(|entries|, env.sizing)
      modifies this`installed, this`sizedFor, this`Repr
      ensures Valid() && installed == entries && sizedFor == |entries|
      ensures Repr == {this, wildcards, bloom, bloom.bits} + wildcards.root.Repr
    {
      hide Indexes, SizingOk, Dimensions;
      installed, sizedFor := entries, |entries|;
      Repr := {this, wildcards, bloom, bloom.bits} + wildcards.root.Repr;
    }

    /** One round of the loop of `Update`. */
    static method IndexEntry(
      env: Env, ghost es: Entries, entry: RegistryEntry,
      domains: RuleMap, ips: RuleMap, hosts: map<string, seq<BlockingRule>>,
      wildcards: RadixTree<BlockingRule>, bloom: BloomFilter)
      returns (newDomains: RuleMap, newIPs: RuleMap, newHosts: map<string, seq<BlockingRule>>)
      requires domains == DomainMap(es, env.validIP) && ips == IPMap(es, env.validIP)
      requires hosts == HostMap(es, env.validIP, env.hostOf)
      requires wildcards.Valid() && wildcards.root in wildcards.root.Repr
      requires wildcards.Contents() == WildcardMap(es, env.validIP)
      requires FilterBuilt(bloom, es, env)
      modifies wildcards`size, wildcards.root.Repr, bloom.bits
      ensures newDomains == DomainMap(es + [entry], env.validIP)
      ensures newIPs == IPMap(es + [entry], env.validIP)
      ensures newHosts == HostMap(es + [entry], env.validIP, env.hostOf)
      ensures wildcards.Valid() && wildcards.root in wildcards.root.Repr
      ensures fresh(wildcards.root.Repr - old(wildcards.root.Repr))
      ensures wildcards.Contents() == WildcardMap(es + [entry], env.validIP)
      ensures FilterBuilt(bloom, es + [entry], env)
    {
      hide RadixTree.Valid, RadixTree.Contents, FilterBuilt, FilterKey, FilterKeys,
        DomainMap, WildcardMap, IPMap, HostMap;
      MapsNext(env, es, entry);
      newDomains, newIPs, newHosts := domains, ips, hosts;
      var rule := RuleOf(entry, env.validIP);
      if rule.Some? {
        match entry.kind
        case DomainName | SNI =>
          newDomains := domains[entry.domain := rule.value];
        case Wildcard =>
          WildcardBaseIsNotEmpty(entry, env.validIP);
          wildcards.Insert(WildcardBase(entry.domain), rule.value);
        case IP =>
          newIPs := ips[entry.ip := rule.value];
        case URLPath =>
          var host := env.hostOf(entry.url);
          if host != "" {
            newHosts := hosts[host := (if host in hosts then hosts[host] else []) + [rule.value]];
          }
        case Unknown =>
      }
      AddToFilter(env, es, entry, bloom);
    }

    /** Every branch of the loop adds its key to the filter as well. */
    static method AddToFilter(env: Env, ghost es: Entries, entry: RegistryEntry, bloom: BloomFilter)
      requires FilterBuilt(bloom, es, env)
      modifies bloom.bits
      ensures FilterBuilt(bloom, es + [entry], env)
    {
      FilterKeysNext(es, entry, env.validIP, env.hostOf);
      var key := FilterKey(entry, env.validIP, env.hostOf);
      if key.Some? {
        bloom.Add(key.value);
        AllProbesNext(FilterKeys(es, env.validIP, env.hostOf), key.value, bloom.hash, bloom.k, bloom.size);
      }
    }

    method Stats() returns (s: StoreStats)
      requires Valid()
      ensures s.totalEntries == |installed| && s.version == version
      ensures s.domainEntries == |DomainMap(installed, env.validIP)|
      ensures s.wildcardEntries == |WildcardMap(installed, env.validIP)|
      ensures s.ipEntries == |IPMap(installed, env.validIP)|
      ensures s.urlPatterns == |HostMap(installed, env.validIP, env.hostOf)|
      ensures s.bloomFilterSize == Dimensions(sizedFor, env.sizing).0
      ensures s.domainEntries + s.wildcardEntries + s.ipEntries + s.urlPatterns <= s.totalEntries
    {
      var wildcardEntries := wildcards.Size();
      CountsAreBounded(installed, env.validIP, env.hostOf);
      s := StoreStats(entryCount, |domains|, wildcardEntries, |ips|, |urlPatterns|, version, bloom.size);
    }

    /** Empties the store; the tree and the filter are emptied in place, the version stays. */
    method Clear()
      requires Valid()
      modifies this, wildcards, bloom.bits
      ensures Valid() && fresh(Repr - old(Repr))
      ensures installed == [] && version == old(version) && sizedFor == old(sizedFor)
    {
      hide RadixTree.Valid, RadixTree.Contents, BloomFilter.Valid, RadixNode.Valid, BitSet, SizingOk, Dimensions,
        DomainMap, WildcardMap, IPMap, HostMap;
      NothingToIndex(env);
      assert FilterBuilt(bloom, installed, env);
      domains, ips, urlPatterns := map[], map[], map[];
      hide FilterBuilt;
      EmptyInPlace(wildcards, bloom, env);
      entryCount, installed := 0, [];
      Repr := {this, wildcards, bloom, bloom.bits} + wildcards.root.Repr;
    }

    static method EmptyInPlace(wildcards: RadixTree<BlockingRule>, bloom: BloomFilter, ghost env: Env)
      requires wildcards.Valid() && bloom.Valid() && bloom.hash == env.hash
      modifies wildcards, bloom.bits
      ensures wildcards.Valid() && wildcards.Contents() == map[]
      ensures fresh(wildcards.root.Repr) && wildcards.root in wildcards.root.Repr
      ensures FilterBuilt(bloom, [], env)
    {
      hide RadixTree.Valid, RadixTree.Contents, BitSet;
      wildcards.Clear();
      bloom.Clear();
      NothingToHold(bloom, env);
    }

    method Size() returns (n: int)
      requires Valid()
      ensures n == |installed|
    {
      n := entryCount;
    }
  }

  /** The five structures are those a build from `es` produces. */
  ghost predicate Indexes(
    env: Env, es: Entries, domains: RuleMap, wildcards: RadixTree<BlockingRule>, ips: RuleMap,
    urlPatterns: map<string, seq<BlockingRule>>, bloom: BloomFilter)
    reads wildcards, wildcards.root, wildcards.root.Repr, bloom, bloom.bits
  {
    && domains == DomainMap(es, env.validIP) && ips == IPMap(es, env.validIP)
    && urlPatterns == HostMap(es, env.validIP, env.hostOf)
    && wildcards.Valid() && wildcards.Contents() == WildcardMap(es, env.validIP)
    && FilterBuilt(bloom, es, env)
  }

  /** What one more entry does to the four maps. */
  lemma MapsNext(env: Env, es: Entries, entry: RegistryEntry)
    ensures var rule := RuleOf(entry, env.validIP);
      && DomainMap(es + [entry], env.validIP) ==
           (if rule.Some? && entry.kind in {DomainName, SNI}
            then DomainMap(es, env.validIP)[entry.domain := rule.value] else DomainMap(es, env.validIP))
      && WildcardMap(es + [entry], env.validIP) ==
           (if rule.Some? && entry.kind == Wildcard
            then WildcardMap(es, env.validIP)[WildcardBase(entry.domain) := rule.value]
            else WildcardMap(es, env.validIP))
      && IPMap(es + [entry], env.validIP) ==
           (if rule.Some? && entry.kind == IP
            then IPMap(es, env.validIP)[entry.ip := rule.value] else IPMap(es, env.validIP))
      && var hosts, host := HostMap(es, env.validIP, env.hostOf), env.hostOf(entry.url);
         HostMap(es + [entry], env.validIP, env.hostOf) ==
           (if rule.Some? && entry.kind == URLPath && host != ""
            then hosts[host := (if host in hosts then hosts[host] else []) + [rule.value]] else hosts)
  {
    hide RuleOf, WildcardBase;
    assert (es + [entry])[..|es|] == es;
  }

  lemma NothingToIndex(env: Env)
    ensures DomainMap([], env.validIP) == map[] && IPMap([], env.validIP) == map[]
    ensures WildcardMap([], env.validIP) == map[] && HostMap([], env.validIP, env.hostOf) == map[]
  {
  }

  lemma NothingToHold(bloom: BloomFilter, env: Env)
    requires bloom.Valid() && bloom.hash == env.hash && bloom.Bits() == {}
    ensures FilterBuilt(bloom, [], env)
  {
    NoItemsNoProbes(bloom.hash, bloom.k, bloom.size);
  }

  /** The positions set are exactly those of the keys of the entries. */
  ghost predicate FilterBuilt(bloom: BloomFilter, es: Entries, env: Env)
    reads bloom, bloom.bits
  {
    && bloom.Valid() && bloom.hash == env.hash
    && bloom.Bits() == AllProbes(FilterKeys(es, env.validIP, env.hostOf), bloom.hash, bloom.k, bloom.size)
  }
}
