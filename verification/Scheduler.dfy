/** The update scheduler as one goroutine runs it: an update with its retries, the counters,
    and a whole run of updates over the real client and store. */
module Schedulers {
  import opened Prelude
  import opened Domain
  import opened RegistryClient
  import opened StoreIndex
  import opened MemoryStores
  import opened UpdateHistory
  import opened Backoff

  datatype UpdateError =
    | FetchingRegistry
    | EmptyRegistry
    | UpdatingStore
    | ContextDone
    | AllRetriesFailed

  /** The surroundings of one update: those of each fetch, and before which attempt the
      update's context is done before the delay has passed. */
  datatype Script = Script(fetch: nat -> Surroundings, expired: nat -> bool)

  // ---------------------------------------------------------------- what an update does

  datatype Course = Course(outcome: Outcome, last: string, attempts: nat)

  /** An update from attempt `a` on, with the client preferring source `last`. */
  function CourseOf(sources: seq<Source>, last: string, script: Script, a: nat, maxRetries: int): Course
    decreases maxRetries - a
  {
    if a >= maxRetries || (a > 0 && script.expired(a)) then Course(Failed, last, a)
    else
      match Serve(Ordered(sources, last), script.fetch(a), 0)
      case None => CourseOf(sources, last, script, a + 1, maxRetries)
      case Some(source) =>
        var entries := script.fetch(a).probe(source).entries;
        if entries == [] then CourseOf(sources, source.name, script, a + 1, maxRetries)
        else Course(Succeeded(entries), source.name, a + 1)
  }

  /** One round of the retry loop. */
  lemma OneAttempt(sources: seq<Source>, last: string, script: Script, a: nat, maxRetries: int)
    requires a < maxRetries && (a > 0 ==> !script.expired(a))
    ensures var c := CourseOf(sources, last, script, a, maxRetries);
      match Serve(Ordered(sources, last), script.fetch(a), 0)
      case None => c == CourseOf(sources, last, script, a + 1, maxRetries)
      case Some(source) =>
        var entries := script.fetch(a).probe(source).entries;
        if entries == [] then c == CourseOf(sources, source.name, script, a + 1, maxRetries)
        else c == Course(Succeeded(entries), source.name, a + 1)
  {
  }

  lemma OutOfAttempts(sources: seq<Source>, last: string, script: Script, a: nat, maxRetries: int)
    requires a >= maxRetries || (a > 0 && script.expired(a))
    ensures CourseOf(sources, last, script, a, maxRetries) == Course(Failed, last, a)
  {
  }

  ghost predicate SomeSourceDelivers(sources: seq<Source>, s: Surroundings, entries: Entries) {
    exists x :: x in sources && s.probe(x).Parsed? && s.probe(x).entries == entries
  }

  /** What a call delivers comes from a configured source. */
  lemma ServedIsConfigured(sources: seq<Source>, last: string, s: Surroundings)
    ensures var served := Serve(Ordered(sources, last), s, 0);
      served.Some? ==> SomeSourceDelivers(sources, s, s.probe(served.value).entries)
  {
    var served := Serve(Ordered(sources, last), s, 0);
    if served.Some? {
      OrderedMembers(sources, last, served.value);
    }
  }

  /** Attempts stay within the limit, an empty registry is never a success, and a success
      is what a configured source delivered at the last attempt made. */
  lemma {:induction false} CourseIsBounded(
    sources: seq<Source>, last: string, script: Script, a: nat, maxRetries: int)
    ensures var c := CourseOf(sources, last, script, a, maxRetries);
      && a <= c.attempts && (c.attempts == a || c.attempts <= maxRetries)
      && (c.outcome.Succeeded? ==>
            && c.outcome.entries != [] && a < c.attempts
            && SomeSourceDelivers(sources, script.fetch(c.attempts - 1), c.outcome.entries))
      && (c.outcome.Failed? ==>
            c.attempts >= maxRetries || (c.attempts > 0 && script.expired(c.attempts)))
    decreases maxRetries - a
  {
    hide Serve, Ordered, SomeSourceDelivers;
    if !(a >= maxRetries || (a > 0 && script.expired(a))) {
      match Serve(Ordered(sources, last), script.fetch(a), 0)
      case None => CourseIsBounded(sources, last, script, a + 1, maxRetries);
      case Some(source) =>
        if script.fetch(a).probe(source).entries == [] {
          CourseIsBounded(sources, source.name, script, a + 1, maxRetries);
        } else {
          ServedIsConfigured(sources, last, script.fetch(a));
        }
    }
  }

  /** The source the client prefers at attempt `a`, if the update gets that far. */
  function PreferenceAt(sources: seq<Source>, last: string, script: Script, a: nat): string {
    if a == 0 then last
    else
      var before := PreferenceAt(sources, last, script, a - 1);
      match Serve(Ordered(sources, before), script.fetch(a - 1), 0)
      case None => before
      case Some(source) => source.name
  }

  /** What attempt `a` fetches; nothing if the fetch fails. */
  function GivenAt(sources: seq<Source>, last: string, script: Script, a: nat): Entries {
    match Serve(Ordered(sources, PreferenceAt(sources, last, script, a)), script.fetch(a), 0)
    case None => []
    case Some(source) => script.fetch(a).probe(source).entries
  }

  /** Attempt `j` is within the limit, is reached in time, and fetches something. */
  ghost predicate Fruitful(sources: seq<Source>, last: string, script: Script, a: nat, j: nat, maxRetries: int) {
    && a <= j < maxRetries && GivenAt(sources, last, script, j) != []
    && forall i | a <= i <= j && i > 0 :: !script.expired(i)
  }

  /** Attempts `a` to `b - 1` fetch nothing. */
  ghost predicate NothingGiven(sources: seq<Source>, last: string, script: Script, a: nat, b: int) {
    forall j | a <= j < b :: GivenAt(sources, last, script, j) == []
  }

  /** One round of `CourseOf`, in these terms. */
  lemma CourseRound(sources: seq<Source>, last: string, script: Script, a: nat, maxRetries: int)
    ensures var c := CourseOf(sources, PreferenceAt(sources, last, script, a), script, a, maxRetries);
      if a >= maxRetries || (a > 0 && script.expired(a)) then
        c == Course(Failed, PreferenceAt(sources, last, script, a), a)
      else if GivenAt(sources, last, script, a) == [] then
        c == CourseOf(sources, PreferenceAt(sources, last, script, a + 1), script, a + 1, maxRetries)
      else c == Course(Succeeded(GivenAt(sources, last, script, a)), PreferenceAt(sources, last, script, a + 1), a + 1)
  {
  }

  lemma {:induction false} SuccessIsFruitful(
    sources: seq<Source>, last: string, script: Script, a: nat, maxRetries: int, c: Course)
    requires c == CourseOf(sources, PreferenceAt(sources, last, script, a), script, a, maxRetries)
    requires c.outcome.Succeeded?
    ensures c.attempts > a && Fruitful(sources, last, script, a, c.attempts - 1, maxRetries)
    ensures c.outcome.entries == GivenAt(sources, last, script, c.attempts - 1)
    ensures NothingGiven(sources, last, script, a, c.attempts - 1)
    decreases maxRetries - a
  {
    hide CourseOf, PreferenceAt, GivenAt, Fruitful, NothingGiven;
    CourseRound(sources, last, script, a, maxRetries);
    if GivenAt(sources, last, script, a) == [] {
      SuccessIsFruitful(sources, last, script, a + 1, maxRetries, c);
      FruitfulFromEarlier(sources, last, script, a, c.attempts - 1, maxRetries);
      NothingFromEarlier(sources, last, script, a, c.attempts - 1);
    } else {
      FruitfulAtOnce(sources, last, script, a, maxRetries);
    }
  }

  lemma FruitfulFromEarlier(
    sources: seq<Source>, last: string, script: Script, a: nat, j: nat, maxRetries: int)
    requires Fruitful(sources, last, script, a + 1, j, maxRetries) && (a > 0 ==> !script.expired(a))
    ensures Fruitful(sources, last, script, a, j, maxRetries)
  {
  }

  lemma FruitfulLater(sources: seq<Source>, last: string, script: Script, a: nat, j: nat, maxRetries: int)
    requires Fruitful(sources, last, script, a, j, maxRetries)
    ensures a < maxRetries && (a > 0 ==> !script.expired(a))
    ensures GivenAt(sources, last, script, a) == [] ==>
              Fruitful(sources, last, script, a + 1, j, maxRetries)
  {
    assert a > 0 ==> !script.expired(a);
  }

  lemma FruitfulAtOnce(sources: seq<Source>, last: string, script: Script, a: nat, maxRetries: int)
    requires a < maxRetries && GivenAt(sources, last, script, a) != [] && (a > 0 ==> !script.expired(a))
    ensures Fruitful(sources, last, script, a, a, maxRetries)
    ensures NothingGiven(sources, last, script, a, a)
  {
  }

  lemma NothingFromEarlier(sources: seq<Source>, last: string, script: Script, a: nat, b: int)
    requires NothingGiven(sources, last, script, a + 1, b) && GivenAt(sources, last, script, a) == []
    ensures NothingGiven(sources, last, script, a, b)
  {
  }

  lemma {:induction false} FruitfulSucceeds(
    sources: seq<Source>, last: string, script: Script, a: nat, j: nat, maxRetries: int, c: Course)
    requires c == CourseOf(sources, PreferenceAt(sources, last, script, a), script, a, maxRetries)
    requires Fruitful(sources, last, script, a, j, maxRetries)
    ensures c.outcome.Succeeded?
    decreases maxRetries - a
  {
    hide CourseOf, PreferenceAt, GivenAt, Fruitful;
    CourseRound(sources, last, script, a, maxRetries);
    FruitfulLater(sources, last, script, a, j, maxRetries);
    if GivenAt(sources, last, script, a) == [] {
      FruitfulSucceeds(sources, last, script, a + 1, j, maxRetries, c);
    }
  }

  /** An update succeeds exactly when some attempt within the limit is reached in time and
      fetches a non-empty registry; it then holds what the first such attempt fetched. */
  lemma UpdateSucceedsIff(sources: seq<Source>, last: string, script: Script, maxRetries: int, c: Course)
    requires c == CourseOf(sources, last, script, 0, maxRetries)
    ensures c.outcome.Succeeded? <==> exists j: nat :: Fruitful(sources, last, script, 0, j, maxRetries)
    ensures c.outcome.Succeeded? ==>
              && c.attempts > 0 && c.outcome.entries == GivenAt(sources, last, script, c.attempts - 1)
              && NothingGiven(sources, last, script, 0, c.attempts - 1)
  {
    if c.outcome.Succeeded? {
      SuccessIsFruitful(sources, last, script, 0, maxRetries, c);
    }
    if j: nat :| Fruitful(sources, last, script, 0, j, maxRetries) {
      FruitfulSucceeds(sources, last, script, 0, j, maxRetries, c);
    }
  }

  /** What each attempt of an update would fetch, if the update gets that far. */
  function GivenBy(sources: seq<Source>, last: string, script: Script): nat -> Entries {
    (j: nat) => GivenAt(sources, last, script, j)
  }

  /** The sources, the failover and the preference matter to the outcome of an update only by
      what each attempt fetches. */
  lemma {:induction false} CourseIsRetry(
    sources: seq<Source>, last: string, script: Script, a: nat, maxRetries: int)
    ensures CourseOf(sources, PreferenceAt(sources, last, script, a), script, a, maxRetries).outcome ==
            RetryOutcome(GivenBy(sources, last, script), script.expired, a, maxRetries)
    decreases maxRetries - a
  {
    hide CourseOf, PreferenceAt, GivenAt;
    CourseRound(sources, last, script, a, maxRetries);
    if a < maxRetries && (a > 0 ==> !script.expired(a)) && GivenAt(sources, last, script, a) == [] {
      CourseIsRetry(sources, last, script, a + 1, maxRetries);
    }
  }

  /** Where an update stops, and what it leaves preferred: every attempt made was in time, none
      but the last fetched anything, and the source preferred is that of the attempts made. */
  ghost predicate EndsAt(sources: seq<Source>, last: string, script: Script, a: nat, c: Course) {
    && a <= c.attempts && c.last == PreferenceAt(sources, last, script, c.attempts)
    && (forall i | a <= i < c.attempts && i > 0 :: !script.expired(i))
    && NothingGiven(sources, last, script, a, if c.outcome.Failed? then c.attempts else c.attempts - 1)
  }

  lemma EndsAtOnce(sources: seq<Source>, last: string, script: Script, a: nat, maxRetries: int)
    requires a >= maxRetries || (a > 0 && script.expired(a)) || GivenAt(sources, last, script, a) != []
    ensures EndsAt(sources, last, script, a,
                   CourseOf(sources, PreferenceAt(sources, last, script, a), script, a, maxRetries))
  {
    hide CourseOf, PreferenceAt, GivenAt;
    CourseRound(sources, last, script, a, maxRetries);
  }

  lemma EndsFromEarlier(sources: seq<Source>, last: string, script: Script, a: nat, c: Course)
    requires EndsAt(sources, last, script, a + 1, c) && GivenAt(sources, last, script, a) == []
    requires a > 0 ==> !script.expired(a)
    ensures EndsAt(sources, last, script, a, c)
  {
    hide PreferenceAt, GivenAt;
  }

  lemma {:induction false} CourseEnds(
    sources: seq<Source>, last: string, script: Script, a: nat, maxRetries: int)
    ensures EndsAt(sources, last, script, a,
                   CourseOf(sources, PreferenceAt(sources, last, script, a), script, a, maxRetries))
    decreases maxRetries - a
  {
    hide CourseOf, PreferenceAt, GivenAt, EndsAt;
    if a >= maxRetries || (a > 0 && script.expired(a)) || GivenAt(sources, last, script, a) != [] {
      EndsAtOnce(sources, last, script, a, maxRetries);
    } else {
      CourseRound(sources, last, script, a, maxRetries);
      CourseEnds(sources, last, script, a + 1, maxRetries);
      EndsFromEarlier(sources, last, script, a,
        CourseOf(sources, PreferenceAt(sources, last, script, a + 1), script, a + 1, maxRetries));
    }
  }

  /** The call of attempt `a` is served. */
  ghost predicate ServedIn(sources: seq<Source>, last: string, script: Script, a: nat) {
    Serve(Ordered(sources, PreferenceAt(sources, last, script, a)), script.fetch(a), 0).Some?
  }

  /** The source preferred is the one that served the latest served attempt, if any was. */
  lemma {:induction false} PreferenceIsLatest(sources: seq<Source>, last: string, script: Script, j: nat, a: nat)
    requires j <= a && forall i: nat | j <= i < a :: !ServedIn(sources, last, script, i)
    ensures j == 0 ==> PreferenceAt(sources, last, script, a) == last
    ensures j > 0 && ServedIn(sources, last, script, j - 1) ==>
              PreferenceAt(sources, last, script, a) ==
              Serve(Ordered(sources, PreferenceAt(sources, last, script, j - 1)), script.fetch(j - 1), 0).value.name
    decreases a
  {
    hide Serve, Ordered;
    if j < a {
      assert !ServedIn(sources, last, script, a - 1);
      PreferenceIsLatest(sources, last, script, j, a - 1);
    }
  }

  // ---------------------------------------------------------------- what a run does

  /** The outcomes of one update after another, and the source preferred after the last. */
  function RunOf(sources: seq<Source>, last: string, scripts: seq<Script>, maxRetries: int)
    : (r: (seq<Outcome>, string))
    ensures |r.0| == |scripts|
  {
    if scripts == [] then ([], last)
    else
      var n := |scripts| - 1;
      var (outcomes, before) := RunOf(sources, last, scripts[..n], maxRetries);
      var c := CourseOf(sources, before, scripts[n], 0, maxRetries);
      (outcomes + [c.outcome], c.last)
  }

  /** One more update. */
  lemma RunNext(sources: seq<Source>, last: string, scripts: seq<Script>, next: Script, maxRetries: int)
    ensures var (outcomes, before) := RunOf(sources, last, scripts, maxRetries);
      var c := CourseOf(sources, before, next, 0, maxRetries);
      RunOf(sources, last, scripts + [next], maxRetries) == (outcomes + [c.outcome], c.last)
  {
    assert (scripts + [next])[..|scripts|] == scripts;
  }

  lemma {:induction false} OutcomeAt(
    sources: seq<Source>, last: string, scripts: seq<Script>, k: nat, maxRetries: int)
    requires k < |scripts|
    ensures RunOf(sources, last, scripts, maxRetries).0[k] ==
            CourseOf(sources, RunOf(sources, last, scripts[..k], maxRetries).1, scripts[k], 0, maxRetries).outcome
  {
    hide CourseOf;
    var n := |scripts| - 1;
    if k < n {
      OutcomeAt(sources, last, scripts[..n], k, maxRetries);
      assert scripts[..n][..k] == scripts[..k];
    }
  }

  /** In any run the k-th update succeeds exactly when, with the source preferred after the
      updates before it, one of its attempts is fruitful. */
  lemma RunSucceedsIff(sources: seq<Source>, last: string, scripts: seq<Script>, k: nat, maxRetries: int)
    requires k < |scripts|
    ensures var before := RunOf(sources, last, scripts[..k], maxRetries).1;
      RunOf(sources, last, scripts, maxRetries).0[k].Succeeded? <==>
      exists j: nat :: Fruitful(sources, before, scripts[k], 0, j, maxRetries)
  {
    hide CourseOf, RunOf, Fruitful;
    var before := RunOf(sources, last, scripts[..k], maxRetries).1;
    OutcomeAt(sources, last, scripts, k, maxRetries);
    UpdateSucceedsIff(sources, before, scripts[k], maxRetries,
                      CourseOf(sources, before, scripts[k], 0, maxRetries));
  }

  // ---------------------------------------------------------------- the scheduler

  /** What `GetStatus` reports, without the times and the `running` flag. */
  datatype Status = Status(
    lastError: Option<UpdateError>, consecutiveFailures: nat, totalUpdates: nat, successfulUpdates: nat,
    registrySize: int)

  /** This many failures in a row make a scheduler unhealthy. */
  const UNHEALTHY_FAILURES: nat := 5

  class Scheduler {
    const client: Client
    const store: MemoryStore
    const maxRetries: int
    const retryDelay: int

    var lastError: Option<UpdateError>
    var consecutiveFailures: nat
    var totalUpdates: nat
    var successfulUpdates: nat

    ghost var history: seq<Outcome>
    ghost const initial: Entries  // what the store held when the scheduler was made

    /** Between updates the counters summarise the history, and the store holds the registry
        of the last success. */
    ghost predicate Valid()
      reads this, store, store.Repr
    {
      && Apart() && store.Valid() && CountersMatch() && totalUpdates == |history|
      && store.installed == LastInstalled(history, initial)
      && forall i | 0 <= i < |history| && history[i].Succeeded? :: history[i].entries != []
    }

    /** Neither this object nor the client is a part of the store. */
    ghost predicate Apart()
      reads store
    {
      this !in store.Repr && client !in store.Repr
    }

    ghost predicate CountersMatch()
      reads this
    {
      && successfulUpdates == Successes(history)
      && consecutiveFailures == TrailingFailures(history)
      && (lastError.Some? <==> consecutiveFailures > 0)
    }

    constructor (client: Client, store: MemoryStore, maxRetries: int, retryDelay: int)
      requires store.Valid() && client !in store.Repr
      ensures Valid() && history == []
      ensures this.client == client && this.store == store && initial == store.installed
      ensures this.maxRetries == maxRetries && this.retryDelay == retryDelay
    {
      hide MemoryStore.Valid;
      this.client, this.store, this.maxRetries, this.retryDelay := client, store, maxRetries, retryDelay;
      lastError, consecutiveFailures, totalUpdates, successfulUpdates := None, 0, 0, 0;
      history, initial := [], store.installed;
    }

    method RecordSuccess(ghost entries: Entries)
      requires CountersMatch()
      modifies this
      ensures CountersMatch() && history == old(history) + [Succeeded(entries)]
      ensures totalUpdates == old(totalUpdates)
    {
      HistoryNext(history, Succeeded(entries), initial);
      lastError, consecutiveFailures, successfulUpdates := None, 0, successfulUpdates + 1;
      history := history + [Succeeded(entries)];
    }

    method RecordFailure(err: UpdateError)
      requires CountersMatch()
      modifies this
      ensures CountersMatch() && history == old(history) + [Failed]
      ensures totalUpdates == old(totalUpdates) && lastError == Some(err)
    {
      HistoryNext(history, Failed, initial);
      lastError, consecutiveFailures := Some(err), consecutiveFailures + 1;
      history := history + [Failed];
    }

    /** One attempt: the store is touched only by a non-empty registry, and then holds it. */
    method ExecuteUpdate(s: Surroundings) returns (err: Option<UpdateError>)
      requires store.Valid() && Apart()
      modifies client, store
      ensures store.Valid() && fresh(store.Repr - old(store.Repr))
      ensures match Serve(Ordered(client.sources, old(client.lastSuccessfulSource)), s, 0)
              case None =>
                err == Some(FetchingRegistry) && unchanged(store)
                && client.lastSuccessfulSource == old(client.lastSuccessfulSource)
              case Some(source) =>
                && client.lastSuccessfulSource == source.name
                && if s.probe(source).entries == [] then err == Some(EmptyRegistry) && unchanged(store)
                   else err == None && store.installed == s.probe(source).entries
    {
      hide MemoryStore.Valid;
      var fetched := client.FetchRegistry(s);
      if fetched.Err? {
        return Some(FetchingRegistry);
      }
      var registry := fetched.value;
      var n := registry.Size();
      if n == 0 {
        return Some(EmptyRegistry);
      }
      var storeErr := store.Update(registry);
      err := if storeErr.Some? then Some(UpdatingStore) else None;
    }

    /** An update: at most `maxRetries` attempts, each but the first after its backoff delay.
        `delays` are the timers it has started: one for each retry, and one more if the context
        was done while waiting for it. */
    method PerformUpdate(script: Script) returns (attempts: nat, delays: seq<int>)
      requires Valid()
      modifies this, client, store
      ensures Valid()
      ensures var c := CourseOf(client.sources, old(client.lastSuccessfulSource), script, 0, maxRetries);
        && history == old(history) + [c.outcome] && attempts == c.attempts
        && client.lastSuccessfulSource == c.last
      ensures var gaveUp := history[|history| - 1].Failed? && 0 < attempts < maxRetries;
        && delays == Delays(retryDelay, if gaveUp || attempts == 0 then attempts else attempts - 1)
        && (history[|history| - 1].Failed? ==>
              lastError == Some(if gaveUp then ContextDone else AllRetriesFailed))
      ensures DelaysFit(retryDelay, maxRetries) ==> IsDoubling(delays, retryDelay)
      ensures history[|history| - 1].Failed? ==>
                forall q :: store.Answer(q) == old(store.Answer(q))
      ensures history[|history| - 1].Succeeded? ==>
                store.installed == history[|history| - 1].entries
    {
      hide MemoryStore.Valid, CourseOf, Delays, DelaysFit, IsDoubling;
      totalUpdates := totalUpdates + 1;
      ghost var c := CourseOf(client.sources, client.lastSuccessfulSource, script, 0, maxRetries);
      CourseIsBounded(client.sources, client.lastSuccessfulSource, script, 0, maxRetries);
      HistoryNext(history, c.outcome, initial);
      var err;
      attempts, delays, err := TryAttempts(script);
      if DelaysFit(retryDelay, maxRetries) {
        ScheduleIsDoubling(retryDelay, |delays|, maxRetries);
      }
      if err.None? {
        RecordSuccess(store.installed);
      } else {
        RecordFailure(err.value);
      }
    }

    /** The retry loop: ends with the first attempt that succeeds, when the context is done
        before a delay has passed, or when the attempts are used up. */
    method TryAttempts(script: Script)
      returns (attempts: nat, delays: seq<int>, err: Option<UpdateError>)
      requires store.Valid() && Apart()
      modifies client, store
      ensures store.Valid() && fresh(store.Repr - old(store.Repr))
      ensures var c := CourseOf(client.sources, old(client.lastSuccessfulSource), script, 0, maxRetries);
        && attempts == c.attempts && client.lastSuccessfulSource == c.last
        && (err.None? <==> c.outcome.Succeeded?)
        && (err.None? ==> store.installed == c.outcome.entries)
      ensures err.Some? ==> unchanged(store)
      ensures err.Some? ==> err == Some(if 0 < attempts < maxRetries then ContextDone else AllRetriesFailed)
      ensures attempts == 0 ==> delays == []
      ensures attempts > 0 ==>
                delays == Delays(retryDelay, if err == Some(ContextDone) then attempts else attempts - 1)
    {
      hide MemoryStore.Valid, CourseOf, Serve, Ordered, Delay;
      attempts, delays := 0, [];
      ghost var c := CourseOf(client.sources, client.lastSuccessfulSource, script, 0, maxRetries);
      while attempts < maxRetries
        invariant unchanged(store) && store.Valid()
        invariant delays == Delays(retryDelay, |delays|)
        invariant |delays| == if attempts == 0 then 0 else attempts - 1
        invariant maxRetries > 0 ==> attempts <= maxRetries
        invariant c == CourseOf(client.sources, client.lastSuccessfulSource, script, attempts, maxRetries)
      {
        if attempts > 0 {
          delays := delays + [Delay(retryDelay, attempts)];
          if script.expired(attempts) {
            OutOfAttempts(client.sources, client.lastSuccessfulSource, script, attempts, maxRetries);
            return attempts, delays, Some(ContextDone);
          }
        }
        OneAttempt(client.sources, client.lastSuccessfulSource, script, attempts, maxRetries);
        err := ExecuteUpdate(script.fetch(attempts));
        attempts := attempts + 1;
        if err.None? {
          return;
        }
      }
      OutOfAttempts(client.sources, client.lastSuccessfulSource, script, attempts, maxRetries);
      err := Some(AllRetriesFailed);
    }

    /** The event loop: the initial update, then one for each tick or trigger received.  The
        history grows by exactly the outcomes these updates have one after another. */
    method Run(first: Script, events: seq<Script>)
      requires Valid()
      modifies this, client, store
      ensures Valid()
      ensures var (outcomes, last) :=
                RunOf(client.sources, old(client.lastSuccessfulSource), [first] + events, maxRetries);
        && history == old(history) + outcomes && client.lastSuccessfulSource == last
        && store.installed == LastInstalled(old(history) + outcomes, initial)
    {
      hide CourseOf, MemoryStore.Valid;
      ghost var last := client.lastSuccessfulSource;
      RunNext(client.sources, last, [], first, maxRetries);
      assert [] + [first] == [first] + events[..0];
      var attempts, delays := PerformUpdate(first);
      for i := 0 to |events|
        invariant Valid()
        invariant RunOf(client.sources, last, [first] + events[..i], maxRetries).1 == client.lastSuccessfulSource
        invariant history == old(history) + RunOf(client.sources, last, [first] + events[..i], maxRetries).0
      {
        RunNext(client.sources, last, [first] + events[..i], events[i], maxRetries);
        assert [first] + events[..i] + [events[i]] == [first] + events[..i + 1];
        attempts, delays := PerformUpdate(events[i]);
      }
      assert events[..|events|] == events;
    }

    /** The counters as `GetStatus` reports them between updates. */
    method GetStatus() returns (status: Status)
      requires Valid()
      ensures status.totalUpdates == |history| == status.successfulUpdates + Failures(history)
      ensures status.successfulUpdates == Successes(history)
      ensures status.consecutiveFailures == TrailingFailures(history)
      ensures status.lastError.Some? <==> history != [] && history[|history| - 1].Failed?
      ensures status.registrySize == |LastInstalled(history, initial)|
    {
      OutcomesAddUp(history);
      var size := store.Size();
      status := Status(lastError, consecutiveFailures, totalUpdates, successfulUpdates, size);
    }

    /** Unhealthy after five failures in a row, or when the last success is `stale`. */
    method IsHealthy(stale: bool) returns (healthy: bool)
      requires Valid()
      ensures healthy <==>
        && !stale
        && !(|history| >= 5 && forall i | |history| - 5 <= i < |history| :: history[i].Failed?)
    {
      TrailingIsLongestFailedSuffix(history);
      if consecutiveFailures >= UNHEALTHY_FAILURES {
        return false;
      }
      healthy := !stale;
    }
  }
}
