/** The history of a scheduler's finished updates, and the figures its counters must show. */
module UpdateHistory {
  import opened Domain

  datatype Outcome = Failed | Succeeded(entries: seq<RegistryEntry>)

  function Successes(h: seq<Outcome>): nat {
    if h == [] then 0 else Successes(h[..|h| - 1]) + if h[|h| - 1].Succeeded? then 1 else 0
  }

  function Failures(h: seq<Outcome>): nat {
    if h == [] then 0 else Failures(h[..|h| - 1]) + if h[|h| - 1].Failed? then 1 else 0
  }

  /** The length of the run of failures at the end. */
  function TrailingFailures(h: seq<Outcome>): nat {
    if h == [] || h[|h| - 1].Succeeded? then 0 else 1 + TrailingFailures(h[..|h| - 1])
  }

  /** The registry of the last success, or what was there before the first one. */
  function LastInstalled(h: seq<Outcome>, initial: seq<RegistryEntry>): seq<RegistryEntry> {
    if h == [] then initial
    else if h[|h| - 1].Succeeded? then h[|h| - 1].entries
    else LastInstalled(h[..|h| - 1], initial)
  }

  lemma {:induction false} OutcomesAddUp(h: seq<Outcome>)
    ensures Successes(h) + Failures(h) == |h|
    ensures TrailingFailures(h) <= Failures(h)
  {
    if h != [] {
      OutcomesAddUp(h[..|h| - 1]);
    }
  }

  /** The positions of the successes. */
  ghost function SuccessesAt(h: seq<Outcome>): set<nat> {
    set i: nat | i < |h| && h[i].Succeeded?
  }

  /** The count is that of the successful updates. */
  lemma {:induction false} SuccessesAreCounted(h: seq<Outcome>)
    ensures Successes(h) == |SuccessesAt(h)|
  {
    if h != [] {
      var n := |h| - 1;
      SuccessesAreCounted(h[..n]);
      assert SuccessesAt(h) == SuccessesAt(h[..n]) + if h[n].Succeeded? then {n} else {};
    }
  }

  /** The trailing run is the longest all-failed suffix. */
  lemma {:induction false} TrailingIsLongestFailedSuffix(h: seq<Outcome>)
    ensures var n := |h| - TrailingFailures(h);
      && 0 <= n
      && (forall i | n <= i < |h| :: h[i].Failed?)
      && (n > 0 ==> h[n - 1].Succeeded?)
  {
    if h != [] && h[|h| - 1].Failed? {
      TrailingIsLongestFailedSuffix(h[..|h| - 1]);
    }
  }

  /** The registry is that of the update just before the trailing run, which succeeded; if all
      of the history is trailing run, it is what was there at first. */
  lemma {:induction false} LastInstalledIsLatest(h: seq<Outcome>, initial: seq<RegistryEntry>)
    ensures var n := |h| - TrailingFailures(h);
      && 0 <= n && (n > 0 ==> h[n - 1].Succeeded?)
      && LastInstalled(h, initial) == if n == 0 then initial else h[n - 1].entries
  {
    if h != [] && h[|h| - 1].Failed? {
      LastInstalledIsLatest(h[..|h| - 1], initial);
    }
  }

  // ---------------------------------------------------------------- one update by its attempts

  /** The outcome of an update from attempt `a` on: `given(a)` is what attempt `a` would fetch,
      and nothing if that fails; `expired(a)` is whether the context is done before the delay of
      attempt `a` has passed. */
  function RetryOutcome(given: nat -> seq<RegistryEntry>, expired: nat -> bool, a: nat, maxRetries: int): Outcome
    decreases maxRetries - a
  {
    if a >= maxRetries || (a > 0 && expired(a)) then Failed
    else if given(a) == [] then RetryOutcome(given, expired, a + 1, maxRetries)
    else Succeeded(given(a))
  }

  /** One more outcome. */
  lemma HistoryNext(h: seq<Outcome>, o: Outcome, initial: seq<RegistryEntry>)
    ensures Successes(h + [o]) == Successes(h) + if o.Succeeded? then 1 else 0
    ensures Failures(h + [o]) == Failures(h) + if o.Failed? then 1 else 0
    ensures TrailingFailures(h + [o]) == if o.Failed? then 1 + TrailingFailures(h) else 0
    ensures LastInstalled(h + [o], initial) == if o.Succeeded? then o.entries else LastInstalled(h, initial)
  {
    assert (h + [o])[..|h|] == h;
  }
}
