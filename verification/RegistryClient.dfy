/** The registry client: sources tried in order of preference until one delivers. */
module RegistryClient {
  import opened Prelude
  import opened Domain

  datatype Source = Source(id: nat, name: string)

  /** What one attempt at one source comes to. */
  datatype Probe =
    | Unhealthy
    | FetchFailed
    | ParseFailed
    | Parsed(entries: seq<RegistryEntry>, version: string)

  /** One call's surroundings: what each source would do, and after which failed try the
      context turns out to be cancelled. */
  datatype Surroundings = Surroundings(probe: Source -> Probe, cancelled: nat -> bool)

  datatype FetchError = AllSourcesFailed

  // ---------------------------------------------------------------- preference order

  function Others(sources: seq<Source>, name: string): seq<Source> {
    if sources == [] then []
    else
      var n := |sources| - 1;
      Others(sources[..n], name) + if sources[n].name == name then [] else [sources[n]]
  }

  function Named(sources: seq<Source>, name: string): seq<Source> {
    if sources == [] then []
    else
      var n := |sources| - 1;
      Named(sources[..n], name) + if sources[n].name == name then [sources[n]] else []
  }

  /** The last source with the name comes first, then those with other names in order. */
  function Ordered(sources: seq<Source>, last: string): seq<Source> {
    if last == "" then sources
    else
      var named := Named(sources, last);
      (if named == [] then [] else [named[|named| - 1]]) + Others(sources, last)
  }

  lemma {:induction false} NamedAndOthers(sources: seq<Source>, name: string)
    ensures multiset(sources) == multiset(Named(sources, name)) + multiset(Others(sources, name))
  {
    if sources != [] {
      var n := |sources| - 1;
      NamedAndOthers(sources[..n], name);
      assert sources == sources[..n] + [sources[n]];
    }
  }

  lemma {:induction false} NamedMembers(sources: seq<Source>, name: string, s: Source)
    ensures s in Named(sources, name) <==> s in sources && s.name == name
    ensures s in Others(sources, name) <==> s in sources && s.name != name
  {
    if sources != [] {
      var n := |sources| - 1;
      NamedMembers(sources[..n], name, s);
      assert sources == sources[..n] + [sources[n]];
    }
  }

  /** Every configured source is tried, and tried once, exactly when at most one bears the last
      successful name. */
  lemma OrderedIsPermutation(sources: seq<Source>, last: string)
    ensures multiset(Ordered(sources, last)) == multiset(sources) <==>
            last == "" || |Named(sources, last)| <= 1
  {
    NamedAndOthers(sources, last);
    var named, others := Named(sources, last), Others(sources, last);
    assert |multiset(sources)| == |named| + |others|;
    if |named| == 1 {
      assert named == [named[0]];
    }
    if last != "" && |named| > 1 {
      assert |multiset(Ordered(sources, last))| == 1 + |others|;
    }
  }

  /** The last successful source is tried first. */
  lemma OrderedStartsWithLast(sources: seq<Source>, last: string, s: Source)
    requires last != "" && s in sources && s.name == last
    ensures var order := Ordered(sources, last);
            order != [] && order[0].name == last && order[0] in sources
  {
    NamedMembers(sources, last, s);
    var named := Named(sources, last);
    NamedMembers(sources, last, named[|named| - 1]);
  }

  /** `at` lists in increasing order exactly the positions of the sources that bear another name. */
  ghost predicate OthersAt(sources: seq<Source>, last: string, at: seq<nat>) {
    && (forall x | 0 <= x < |at| :: at[x] < |sources| && sources[at[x]].name != last)
    && (forall x, y | 0 <= x < y < |at| :: at[x] < at[y])
    && forall i: nat | i < |sources| && sources[i].name != last :: i in at
  }

  /** The sources at these positions. */
  function Pick(sources: seq<Source>, at: seq<nat>): seq<Source>
    requires forall x | 0 <= x < |at| :: at[x] < |sources|
  {
    seq(|at|, x requires 0 <= x < |at| => sources[at[x]])
  }

  lemma PickFromFirst(sources: seq<Source>, n: nat, at: seq<nat>)
    requires n <= |sources| && forall x | 0 <= x < |at| :: at[x] < n
    ensures Pick(sources, at) == Pick(sources[..n], at)
  {
  }

  lemma PickOneMore(sources: seq<Source>, at: seq<nat>, n: nat)
    requires n < |sources| && forall x | 0 <= x < |at| :: at[x] < |sources|
    ensures Pick(sources, at + [n]) == Pick(sources, at) + [sources[n]]
  {
  }

  lemma OthersAtSkip(sources: seq<Source>, last: string, before: seq<nat>)
    requires sources != [] && OthersAt(sources[..|sources| - 1], last, before)
    requires sources[|sources| - 1].name == last
    ensures OthersAt(sources, last, before)
  {
    var first := sources[..|sources| - 1];
    forall i: nat | i < |sources| && sources[i].name != last ensures i in before {
      assert first[i] == sources[i];
    }
  }

  lemma OthersAtTake(sources: seq<Source>, last: string, before: seq<nat>)
    requires sources != [] && OthersAt(sources[..|sources| - 1], last, before)
    requires sources[|sources| - 1].name != last
    ensures OthersAt(sources, last, before + [|sources| - 1])
  {
    var n := |sources| - 1;
    var first := sources[..n];
    var at := before + [n];
    assert at[|before|] == n;
    forall i: nat | i < |sources| && sources[i].name != last ensures i in at {
      if i < n {
        assert first[i] == sources[i];
        assert i in before;
      }
    }
  }

  lemma {:induction false} OthersKeepOrder(sources: seq<Source>, last: string) returns (at: seq<nat>)
    ensures OthersAt(sources, last, at) && Others(sources, last) == Pick(sources, at)
  {
    if sources == [] {
      at := [];
    } else {
      var n: nat := |sources| - 1;
      var before := OthersKeepOrder(sources[..n], last);
      PickFromFirst(sources, n, before);
      if sources[n].name == last {
        OthersAtSkip(sources, last, before);
        at := before;
      } else {
        OthersAtTake(sources, last, before);
        PickOneMore(sources, before, n);
        at := before + [n];
      }
    }
  }

  /** The last position at which the name is borne. */
  ghost predicate LastBearer(sources: seq<Source>, last: string, h: nat) {
    && h < |sources| && sources[h].name == last
    && forall i | h < i < |sources| :: sources[i].name != last
  }

  lemma {:induction false} NamedEndsWithLastBearer(sources: seq<Source>, last: string, h: nat)
    requires LastBearer(sources, last, h)
    ensures Named(sources, last) != [] && Named(sources, last)[|Named(sources, last)| - 1] == sources[h]
  {
    var n := |sources| - 1;
    if h < n {
      assert sources[n].name != last;
      NamedEndsWithLastBearer(sources[..n], last, h);
    }
  }

  /** The whole order: the sources as configured when there is no last success; otherwise first
      the last source that bears the name, if there is one, then the others as configured. */
  lemma OrderMeaning(sources: seq<Source>, last: string) returns (at: seq<nat>)
    ensures OthersAt(sources, last, at)
    ensures last == "" ==> Ordered(sources, last) == sources
    ensures last != "" && (forall i | 0 <= i < |sources| :: sources[i].name != last) ==>
              Ordered(sources, last) == Pick(sources, at)
    ensures last != "" ==> forall h: nat | LastBearer(sources, last, h) ::
              Ordered(sources, last) == [sources[h]] + Pick(sources, at)
  {
    at := OthersKeepOrder(sources, last);
    hide Pick, OthersAt;
    forall h: nat | LastBearer(sources, last, h)
      ensures Named(sources, last) != [] && Named(sources, last)[|Named(sources, last)| - 1] == sources[h]
    {
      NamedEndsWithLastBearer(sources, last, h);
    }
    NobodyNamed(sources, last);
  }

  lemma NobodyNamed(sources: seq<Source>, last: string)
    ensures (forall i | 0 <= i < |sources| :: sources[i].name != last) ==> Named(sources, last) == []
  {
    if Named(sources, last) != [] {
      var s := Named(sources, last)[0];
      NamedMembers(sources, last, s);
      assert s in sources && s.name == last;
    }
  }

  /** Official sources all report one name: after a success only the last of them is left. */
  lemma SameNameLeavesOne(sources: seq<Source>, name: string)
    requires name != "" && sources != [] && forall i | 0 <= i < |sources| :: sources[i].name == name
    ensures Ordered(sources, name) == [sources[|sources| - 1]]
  {
    AllNamed(sources, name);
  }

  lemma {:induction false} AllNamed(sources: seq<Source>, name: string)
    requires forall i | 0 <= i < |sources| :: sources[i].name == name
    ensures Named(sources, name) == sources && Others(sources, name) == []
  {
    if sources != [] {
      AllNamed(sources[..|sources| - 1], name);
    }
  }

  // ---------------------------------------------------------------- failover

  /** The source that serves a call, trying from position `i` of the order on. */
  function Serve(order: seq<Source>, s: Surroundings, i: nat): (served: Option<Source>)
    ensures served.Some? ==> served.value in order && s.probe(served.value).Parsed?
    decreases |order| - i
  {
    if i >= |order| then None
    else if s.probe(order[i]).Parsed? then Some(order[i])
    else if s.cancelled(i) then None
    else Serve(order, s, i + 1)
  }

  /** The first source that delivers, with no cancellation noticed before it. */
  ghost predicate ServedAt(order: seq<Source>, s: Surroundings, i: int) {
    && 0 <= i < |order| && s.probe(order[i]).Parsed?
    && forall j | 0 <= j < i :: !s.probe(order[j]).Parsed? && !s.cancelled(j)
  }

  lemma {:induction false} ServeMeaning(order: seq<Source>, s: Surroundings, i: nat)
    requires i <= |order|
    requires forall j | 0 <= j < i :: !s.probe(order[j]).Parsed? && !s.cancelled(j)
    ensures match Serve(order, s, i)
            case None => forall k :: !ServedAt(order, s, k)
            case Some(source) => exists k :: ServedAt(order, s, k) && source == order[k]
    decreases |order| - i
  {
    if i < |order| {
      if s.probe(order[i]).Parsed? {
        assert ServedAt(order, s, i);
      } else if !s.cancelled(i) {
        ServeMeaning(order, s, i + 1);
      }
    }
  }

  /** On a first call, and on any other with no last success, the source that serves is the
      first as configured that delivers. */
  lemma FirstCallGoesThroughTheList(sources: seq<Source>, s: Surroundings)
    ensures match Serve(Ordered(sources, ""), s, 0)
            case None => forall k :: !ServedAt(sources, s, k)
            case Some(source) => exists k :: ServedAt(sources, s, k) && source == sources[k]
  {
    var at := OrderMeaning(sources, "");
    ServeMeaning(Ordered(sources, ""), s, 0);
  }

  /** While the last source that bears the last successful name delivers, it goes on serving. */
  lemma PreferredSourceServesAgain(sources: seq<Source>, last: string, h: nat, s: Surroundings)
    requires last != "" && LastBearer(sources, last, h) && s.probe(sources[h]).Parsed?
    ensures Serve(Ordered(sources, last), s, 0) == Some(sources[h])
  {
    var at := OrderMeaning(sources, last);
  }

  ghost predicate NeverCancelled(s: Surroundings) {
    forall i :: !s.cancelled(i)
  }

  ghost predicate SomeDelivers(sources: seq<Source>, s: Surroundings) {
    exists x :: x in sources && s.probe(x).Parsed?
  }

  lemma {:induction false} FirstDelivery(order: seq<Source>, s: Surroundings, k: nat)
    requires k < |order| && s.probe(order[k]).Parsed? && NeverCancelled(s)
    ensures exists j :: ServedAt(order, s, j)
    decreases k
  {
    if j: nat :| j < k && s.probe(order[j]).Parsed? {
      FirstDelivery(order, s, j);
    } else {
      assert ServedAt(order, s, k);
    }
  }

  /** Without cancellation a call succeeds exactly when some source of the order delivers. */
  lemma ServedIffDelivered(order: seq<Source>, s: Surroundings)
    requires NeverCancelled(s)
    ensures Serve(order, s, 0).Some? <==> SomeDelivers(order, s)
  {
    ServeMeaning(order, s, 0);
    if x :| x in order && s.probe(x).Parsed? {
      var k :| 0 <= k < |order| && order[k] == x;
      FirstDelivery(order, s, k);
    }
  }

  /** The order keeps `x`: it does not bear the last successful name, or is the last that does. */
  predicate Kept(sources: seq<Source>, last: string, x: Source) {
    var named := Named(sources, last);
    last == "" || x.name != last || (named != [] && x == named[|named| - 1])
  }

  /** Which sources are tried at all. */
  lemma OrderedMembers(sources: seq<Source>, last: string, x: Source)
    ensures x in Ordered(sources, last) <==> x in sources && Kept(sources, last, x)
  {
    NamedMembers(sources, last, x);
    var named := Named(sources, last);
    if named != [] {
      NamedMembers(sources, last, named[|named| - 1]);
    }
  }

  /** A source that is not kept is never reached, though it were the only one to deliver. */
  lemma DroppedSourceIsNotReached(sources: seq<Source>, last: string, w: Source, s: Surroundings)
    requires !Kept(sources, last, w) && forall x :: s.probe(x).Parsed? ==> x == w
    ensures Serve(Ordered(sources, last), s, 0) == None
  {
    ServeMeaning(Ordered(sources, last), s, 0);
    OrderedMembers(sources, last, w);
  }

  /** The guarantee of failover: whatever the sources do, a call that is not cancelled succeeds
      exactly when some configured source delivers. */
  ghost predicate ReachesEverySource(sources: seq<Source>, last: string) {
    forall s: Surroundings | NeverCancelled(s) ::
      Serve(Ordered(sources, last), s, 0).Some? <==> SomeDelivers(sources, s)
  }

  /** Only `w` delivers, a registry of one domain. */
  function OnlyFrom(w: Source): Surroundings {
    var entries := [RegistryEntry(DomainName, "example.com", "", "", [])];
    Surroundings(x => if x == w then Parsed(entries, "") else Unhealthy, i => false)
  }

  /** The guarantee holds exactly when the last successful name is borne by one source only,
      which may be listed repeatedly. */
  lemma FailoverReachesEverySource(sources: seq<Source>, last: string)
    ensures ReachesEverySource(sources, last) <==>
            last == "" || forall x, y | x in sources && y in sources && x.name == last && y.name == last :: x == y
  {
    hide Serve, Ordered, Kept;
    if forall x | x in sources :: Kept(sources, last, x) {
      forall s: Surroundings | NeverCancelled(s)
        ensures Serve(Ordered(sources, last), s, 0).Some? <==> SomeDelivers(sources, s)
      {
        ServedIffDelivered(Ordered(sources, last), s);
        forall x { OrderedMembers(sources, last, x); }
      }
    } else {
      var w :| w in sources && !Kept(sources, last, w);
      DroppedSourceIsNotReached(sources, last, w, OnlyFrom(w));
      assert NeverCancelled(OnlyFrom(w)) && SomeDelivers(sources, OnlyFrom(w));
    }
    KeptIffUnique(sources, last);
  }

  lemma KeptIffUnique(sources: seq<Source>, last: string)
    ensures (forall x | x in sources :: Kept(sources, last, x)) <==>
            last == "" || forall x, y | x in sources && y in sources && x.name == last && y.name == last :: x == y
  {
    forall x { NamedMembers(sources, last, x); }
    var named := Named(sources, last);
    if named != [] {
      assert named[|named| - 1] in named;
    }
  }

  // ---------------------------------------------------------------- the client

  class Client {
    const sources: seq<Source>
    var lastSuccessfulSource: string
    var consecutiveFailures: nat

    constructor (sources: seq<Source>)
      ensures this.sources == sources && lastSuccessfulSource == "" && consecutiveFailures == 0
    {
      this.sources, lastSuccessfulSource, consecutiveFailures := sources, "", 0;
    }

    method OrderSources() returns (ordered: seq<Source>)
      ensures ordered == Ordered(sources, lastSuccessfulSource)
    {
      if lastSuccessfulSource == "" {
        return sources;
      }
      ordered := [];
      var lastSuccessful: Option<Source> := None;
      for i := 0 to |sources|
        invariant ordered == Others(sources[..i], lastSuccessfulSource)
        invariant var named := Named(sources[..i], lastSuccessfulSource);
                  lastSuccessful == if named == [] then None else Some(named[|named| - 1])
      {
        assert sources[..i + 1][..i] == sources[..i];
        if sources[i].name == lastSuccessfulSource {
          lastSuccessful := Some(sources[i]);
        } else {
          ordered := ordered + [sources[i]];
        }
      }
      assert sources[..|sources|] == sources;
      if lastSuccessful.Some? {
        ordered := [lastSuccessful.value] + ordered;
      }
    }

    /** Delivers the registry of the source that serves the call, and remembers that source;
        a call that fails leaves the preference alone. */
    method FetchRegistry(s: Surroundings) returns (r: Result<Registry, FetchError>)
      modifies this
      ensures match Serve(Ordered(sources, old(lastSuccessfulSource)), s, 0)
              case None =>
                && r == Err(AllSourcesFailed)
                && lastSuccessfulSource == old(lastSuccessfulSource)
                && consecutiveFailures == old(consecutiveFailures) + 1
              case Some(source) =>
                && r.Ok? && fresh(r.value)
                && r.value.Entries == s.probe(source).entries && r.value.Version == s.probe(source).version
                && r.value.Source == source.name && lastSuccessfulSource == source.name
                && consecutiveFailures == 0
      ensures old(lastSuccessfulSource) == "" ==>
                if r.Ok? then exists k :: ServedAt(sources, s, k)
                                          && r.value.Entries == s.probe(sources[k]).entries
                                          && lastSuccessfulSource == sources[k].name
                else forall k :: !ServedAt(sources, s, k)
    {
      FirstCallGoesThroughTheList(sources, s);
      var order := OrderSources();
      var i := 0;
      while i < |order|
        invariant 0 <= i <= |order| && unchanged(this)
        invariant Serve(order, s, 0) == Serve(order, s, i)
      {
        match s.probe(order[i]) {
          case Parsed(entries, version) =>
            var registry := new Registry();
            registry.Entries, registry.Version, registry.Source := entries, version, order[i].name;
            registry.EntryCount := |entries|;
            lastSuccessfulSource, consecutiveFailures := order[i].name, 0;
            return Ok(registry);
          case _ =>
        }
        if s.cancelled(i) {
          break;
        }
        i := i + 1;
      }
      consecutiveFailures := consecutiveFailures + 1;
      r := Err(AllSourcesFailed);
    }
  }
}
