/** What the interleaved scheduler achieves: the history of every run is that of the sequential
    scheduler for the attempts the run's moves spell, and every sequential run is also one of
    the interleaved scheduler. */
module SchedulerRuns {
  import opened Prelude
  import opened StoreIndex
  import opened UpdateHistory
  import opened SchedulerLifecycle
  import Schedulers
  import RegistryClient

  // ---------------------------------------------------------------- what the moves spell

  /** One update by its moves: what its attempts fetched, nothing where a fetch failed, and
      whether its context was done while it waited. */
  datatype Log = Log(given: seq<Entries>, gaveUp: bool)

  function LogStep(logs: seq<Log>, step: Step): seq<Log> {
    if !step.Run? then logs
    else if step.move.Begin? then logs + [Log([], false)]
    else if logs == [] then logs
    else
      var n := |logs| - 1;
      var log := logs[n];
      if step.move.FetchFails? then logs[n := log.(given := log.given + [[]])]
      else if step.move.FetchGives? then logs[n := log.(given := log.given + [step.move.entries])]
      else if step.move.ContextDone? then logs[n := log.(gaveUp := true)]
      else logs
  }

  /** The updates begun by a sequence of steps. */
  function Logs(steps: seq<Step>): seq<Log> {
    if steps == [] then [] else LogStep(Logs(steps[..|steps| - 1]), steps[|steps| - 1])
  }

  predicate Fruitless(given: seq<Entries>) {
    forall i | 0 <= i < |given| :: given[i] == []
  }

  /** An update is recorded as failed only after its context was done before some retry, or
      after all its attempts, with nothing fetched; and as a success only of what its last
      attempt fetched, the first to fetch anything. */
  predicate Explains(log: Log, outcome: Outcome, maxRetries: int) {
    match outcome
    case Failed =>
      && Fruitless(log.given)
      && if log.gaveUp then 0 < |log.given| < maxRetries
         else |log.given| == if maxRetries < 0 then 0 else maxRetries
    case Succeeded(entries) =>
      var n := |log.given| - 1;
      && 0 <= n < maxRetries && !log.gaveUp && Fruitless(log.given[..n]) && log.given[n] == entries != []
  }

  /** How far the update in progress is. */
  predicate PhaseMatches(log: Log, p: Phase, maxRetries: int) {
    && (p.Attempting? || p.Waiting? ==> !log.gaveUp && |log.given| == p.a && Fruitless(log.given))
    && (p.Waiting? ==> p.a > 0)
    && (p.Fetched? ==>
          !log.gaveUp && |log.given| == p.a + 1 && Fruitless(log.given[..p.a]) && log.given[p.a] == p.got)
    && (p.Failing? ==> Explains(log, Failed, maxRetries))
    && (p.Succeeding? ==> Explains(log, Succeeded(p.got), maxRetries))
  }

  ghost predicate HistoryMatches(logs: seq<Log>, history: seq<Outcome>, maxRetries: int) {
    |history| <= |logs| && forall i | 0 <= i < |history| :: Explains(logs[i], history[i], maxRetries)
  }

  /** The logs account for the history and for the update in progress. */
  ghost predicate Tracks(s: State, logs: seq<Log>, maxRetries: int) {
    && |logs| == s.total && HistoryMatches(logs, s.history, maxRetries)
    && (InProgress(s) ==> |logs| == |s.history| + 1 && PhaseMatches(logs[|s.history|], Current(s), maxRetries))
    && (!InProgress(s) ==> |logs| == |s.history|)
  }

  /** What a move within an update does to its log. */
  function LogMove(log: Log, move: Move): Log {
    if move.FetchFails? then log.(given := log.given + [[]])
    else if move.FetchGives? then log.(given := log.given + [move.entries])
    else if move.ContextDone? then log.(gaveUp := true)
    else log
  }

  lemma FruitlessNext(given: seq<Entries>, entries: Entries)
    requires Fruitless(given)
    ensures (given + [entries])[..|given|] == given
    ensures entries == [] ==> Fruitless(given + [entries])
  {
  }

  lemma FruitlessLast(given: seq<Entries>, a: nat)
    requires |given| == a + 1 && Fruitless(given[..a]) && given[a] == []
    ensures Fruitless(given)
  {
    forall i | 0 <= i < |given| ensures given[i] == [] {
      assert i < a ==> given[..a][i] == given[i];
    }
  }

  /** A move inside an update keeps log and phase in step. */
  lemma PhaseNext(s: State, log: Log, p: Phase, move: Move, p': Phase, maxRetries: int)
    requires NextPhase(s, p, move, maxRetries) == Some(p') && Updating(p) && PhaseMatches(log, p, maxRetries)
    requires p.Attempting? || p.Waiting? || p.Fetched? ==> p.a < maxRetries
    ensures PhaseMatches(LogMove(log, move), p', maxRetries)
  {
    if p.Attempting? {
      FruitlessNext(log.given, if move.FetchGives? then move.entries else []);
    } else if p.Fetched? && p.got == [] {
      FruitlessLast(log.given, p.a);
    }
  }

  /** The first phase of an update has an empty log. */
  lemma PhaseFirst(s: State, maxRetries: int)
    ensures PhaseMatches(Log([], false), FirstPhase(s, maxRetries), maxRetries)
  {
  }

  lemma HistoryMatchesKept(logs: seq<Log>, logs': seq<Log>, history: seq<Outcome>, maxRetries: int)
    requires HistoryMatches(logs, history, maxRetries) && |logs| <= |logs'|
    requires forall i | 0 <= i < |history| :: logs'[i] == logs[i]
    ensures HistoryMatches(logs', history, maxRetries)
  {
  }

  /** A step of the newest goroutine. */
  lemma CurrentTracks(s: State, logs: seq<Log>, g: nat, move: Move, maxRetries: int, s': State)
    requires Inv(s, maxRetries) && !s.panicked && Tracks(s, logs, maxRetries)
    requires g == |s.runs| - 1 && ApplyMove(s, g, move, maxRetries) == Some(s')
    ensures Tracks(s', LogStep(logs, Run(g, move)), maxRetries)
  {
    hide Inv, NextPhase, Explains, Moves, PhaseMatches, Effect, ApplyMove;
    CurrentSummary(s, g, move, maxRetries, s');
    var p, p' := s.runs[g], s'.runs[g];
    var logs' := LogStep(logs, Run(g, move));
    if Updating(p) {
      PhaseNext(s, logs[|s.history|], p, move, p', maxRetries);
      UpdateMove(s, p, move, p', maxRetries);
      HistoryMatchesKept(logs, logs', s.history, maxRetries);
      assert logs'[|s.history|] == LogMove(logs[|s.history|], move);
      if !Updating(p') {
        RecordsWhatItIs(s, p, logs'[|s.history|], maxRetries);
      }
    } else if Updating(p') {
      BeginMove(s, p, move, p', maxRetries);
      PhaseFirst(s, maxRetries);
      HistoryMatchesKept(logs, logs', s.history, maxRetries);
    } else {
      IdleMove(s, p, move, p', maxRetries);
      assert logs' == logs;
    }
  }

  /** The facts about a step of the newest goroutine that the logs depend on. */
  lemma CurrentSummary(s: State, g: nat, move: Move, maxRetries: int, s': State)
    requires Inv(s, maxRetries) && !s.panicked
    requires g == |s.runs| - 1 && ApplyMove(s, g, move, maxRetries) == Some(s')
    ensures |s'.runs| == |s.runs| && NextPhase(s, s.runs[g], move, maxRetries) == Some(s'.runs[g])
    ensures MovesCounters(s, s.runs[g], s'.runs[g], s')
    ensures var p := s.runs[g]; p.Attempting? || p.Waiting? || p.Fetched? ==> p.a < maxRetries
  {
    MoveSummary(s, g, move, maxRetries, s');
  }

  lemma UpdateMove(s: State, p: Phase, move: Move, p': Phase, maxRetries: int)
    requires NextPhase(s, p, move, maxRetries) == Some(p') && Updating(p)
    ensures !move.Begin?
    ensures !Updating(p') ==> move.Record? && (p.Failing? || p.Succeeding?)
  {
  }

  lemma BeginMove(s: State, p: Phase, move: Move, p': Phase, maxRetries: int)
    requires NextPhase(s, p, move, maxRetries) == Some(p') && !Updating(p) && Updating(p')
    ensures move.Begin? && p' == FirstPhase(s, maxRetries)
  {
  }

  lemma IdleMove(s: State, p: Phase, move: Move, p': Phase, maxRetries: int)
    requires NextPhase(s, p, move, maxRetries) == Some(p') && !Updating(p) && !Updating(p')
    ensures !move.Begin? && !move.FetchFails? && !move.FetchGives? && !move.ContextDone?
  {
  }

  lemma RecordsWhatItIs(s: State, p: Phase, log: Log, maxRetries: int)
    requires PhaseMatches(log, p, maxRetries) && (p.Failing? || p.Succeeding?)
    ensures Explains(log, if p.Succeeding? then Succeeded(p.got) else Failed, maxRetries)
  {
  }

  /** An old goroutine only closes a channel. */
  lemma OthersTrack(s: State, logs: seq<Log>, g: nat, move: Move, maxRetries: int, s': State)
    requires Inv(s, maxRetries) && !s.panicked && Tracks(s, logs, maxRetries)
    requires g < |s.runs| - 1 && ApplyMove(s, g, move, maxRetries) == Some(s')
    ensures Tracks(s', LogStep(logs, Run(g, move)), maxRetries)
  {
    hide Explains, PhaseMatches, Counters, StoreOk, TriggersOk, ChannelsOk;
    assert !Active(s.runs[g]);
    assert s.runs[g].Closing? && move.CloseDone?;
    assert Current(s') == Current(s);
  }

  lemma StepTracks(s: State, logs: seq<Log>, step: Step, maxRetries: int, s': State)
    requires Inv(s, maxRetries) && Tracks(s, logs, maxRetries) && Apply(s, step, maxRetries) == Some(s')
    ensures Tracks(s', LogStep(logs, step), maxRetries)
  {
    hide Inv, ApplyMove, PhaseMatches, HistoryMatches;
    if step.Run? {
      if step.g == |s.runs| - 1 {
        CurrentTracks(s, logs, step.g, step.move, maxRetries, s');
      } else {
        OthersTrack(s, logs, step.g, step.move, maxRetries, s');
      }
    } else {
      CallTracks(s, logs, step, maxRetries, s');
    }
  }

  lemma CallTracks(s: State, logs: seq<Log>, step: Step, maxRetries: int, s': State)
    requires Inv(s, maxRetries) && Tracks(s, logs, maxRetries) && Apply(s, step, maxRetries) == Some(s') && !step.Run?
    ensures Tracks(s', logs, maxRetries)
  {
    hide ApplyMove, PhaseMatches, HistoryMatches, Counters, StoreOk, TriggersOk, ChannelsOk;
  }

  /** In every run the moves account for the history and for the update in progress. */
  lemma {:induction false} RunTracks(initial: Entries, steps: seq<Step>, maxRetries: int, s: State)
    requires ApplyAll(NewState(initial), steps, maxRetries) == Some(s)
    ensures Tracks(s, Logs(steps), maxRetries)
  {
    hide Apply;
    if steps != [] {
      var before := steps[..|steps| - 1];
      var m := ApplyAll(NewState(initial), before, maxRetries).value;
      RunInv(initial, before, maxRetries);
      RunTracks(initial, before, maxRetries, m);
      StepTracks(m, Logs(before), steps[|steps| - 1], maxRetries, s);
    }
  }

  // ---------------------------------------------------------------- logs as retry schedules

  function GivenOf(log: Log): nat -> Entries {
    (j: nat) => if j < |log.given| then log.given[j] else []
  }

  function ExpiredOf(log: Log): nat -> bool {
    (j: nat) => log.gaveUp && j == |log.given|
  }

  lemma {:induction false} ExplainedIsRetry(log: Log, outcome: Outcome, a: nat, maxRetries: int)
    requires Explains(log, outcome, maxRetries) && a <= |log.given|
    requires outcome.Succeeded? ==> a < |log.given|
    ensures outcome == RetryOutcome(GivenOf(log), ExpiredOf(log), a, maxRetries)
    decreases |log.given| - a
  {
    if outcome.Succeeded? && a < |log.given| - 1 {
      assert log.given[..|log.given| - 1][a] == log.given[a];
    }
    if a < |log.given| && log.given[a] == [] {
      ExplainedIsRetry(log, outcome, a + 1, maxRetries);
    }
  }

  /** Every finished update has the outcome that the retry rules give for what its attempts
      fetched and for whether it gave up. */
  lemma HistoryIsRetries(initial: Entries, steps: seq<Step>, maxRetries: int, s: State, i: nat)
    requires ApplyAll(NewState(initial), steps, maxRetries) == Some(s) && i < |s.history|
    ensures i < |Logs(steps)| && Explains(Logs(steps)[i], s.history[i], maxRetries)
    ensures s.history[i] == RetryOutcome(GivenOf(Logs(steps)[i]), ExpiredOf(Logs(steps)[i]), 0, maxRetries)
  {
    hide ApplyAll, Explains, RetryOutcome;
    RunTracks(initial, steps, maxRetries, s);
    if s.history[i].Succeeded? {
      SuccessHasAttempts(Logs(steps)[i], s.history[i], maxRetries);
    }
    ExplainedIsRetry(Logs(steps)[i], s.history[i], 0, maxRetries);
  }

  lemma SuccessHasAttempts(log: Log, outcome: Outcome, maxRetries: int)
    requires Explains(log, outcome, maxRetries) && outcome.Succeeded?
    ensures |log.given| > 0
  {
  }

  // ---------------------------------------------------------------- every run is a sequential one

  const ONE_SOURCE := RegistryClient.Source(0, "official")

  /** What a single source does to give what the log says. */
  function Delivering(entries: Entries): RegistryClient.Surroundings {
    RegistryClient.Surroundings(
      (x: RegistryClient.Source) =>
        if entries == [] then RegistryClient.FetchFailed else RegistryClient.Parsed(entries, ""),
      (i: nat) => false)
  }

  function ScriptOf(log: Log): Schedulers.Script {
    Schedulers.Script((a: nat) => Delivering(GivenOf(log)(a)), ExpiredOf(log))
  }

  /** The only source is tried whether it is preferred or not. */
  predicate PrefersIt(last: string) {
    last == "" || last == ONE_SOURCE.name
  }

  lemma OnlySourceServes(last: string, entries: Entries)
    requires PrefersIt(last)
    ensures RegistryClient.Serve(RegistryClient.Ordered([ONE_SOURCE], last), Delivering(entries), 0) ==
            if entries == [] then None else Some(ONE_SOURCE)
  {
    var sources := [ONE_SOURCE];
    assert sources[..0] == [] && sources[0] == ONE_SOURCE;
    assert RegistryClient.Named(sources[..0], last) == [] && RegistryClient.Others(sources[..0], last) == [];
    assert RegistryClient.Ordered(sources, last) == sources;
  }

  lemma {:induction false} OneSourceGives(last: string, log: Log, a: nat)
    requires PrefersIt(last)
    ensures PrefersIt(Schedulers.PreferenceAt([ONE_SOURCE], last, ScriptOf(log), a))
    ensures Schedulers.GivenAt([ONE_SOURCE], last, ScriptOf(log), a) == GivenOf(log)(a)
  {
    hide RegistryClient.Serve, RegistryClient.Ordered, GivenOf;
    if a > 0 {
      OneSourceGives(last, log, a - 1);
      OnlySourceServes(Schedulers.PreferenceAt([ONE_SOURCE], last, ScriptOf(log), a - 1), GivenOf(log)(a - 1));
    }
    OnlySourceServes(Schedulers.PreferenceAt([ONE_SOURCE], last, ScriptOf(log), a), GivenOf(log)(a));
  }

  lemma {:induction false} RetryDependsOn(
    given: nat -> Entries, given': nat -> Entries, expired: nat -> bool, a: nat, maxRetries: int)
    requires forall j :: given(j) == given'(j)
    ensures RetryOutcome(given, expired, a, maxRetries) == RetryOutcome(given', expired, a, maxRetries)
    decreases maxRetries - a
  {
    if a < maxRetries {
      RetryDependsOn(given, given', expired, a + 1, maxRetries);
    }
  }

  /** The sequential scheduler gives a logged update the same outcome. */
  lemma LogIsCourse(last: string, log: Log, maxRetries: int)
    requires PrefersIt(last)
    ensures var c := Schedulers.CourseOf([ONE_SOURCE], last, ScriptOf(log), 0, maxRetries);
      c.outcome == RetryOutcome(GivenOf(log), ExpiredOf(log), 0, maxRetries) && PrefersIt(c.last)
  {
    hide Schedulers.CourseOf, Schedulers.GivenAt, RetryOutcome, GivenOf, ExpiredOf;
    var sources, script := [ONE_SOURCE], ScriptOf(log);
    assert Schedulers.PreferenceAt(sources, last, script, 0) == last;
    Schedulers.CourseIsRetry(sources, last, script, 0, maxRetries);
    Schedulers.CourseEnds(sources, last, script, 0, maxRetries);
    hide Schedulers.PreferenceAt;
    var given := Schedulers.GivenBy(sources, last, script);
    forall j: nat ensures given(j) == GivenOf(log)(j) {
      OneSourceGives(last, log, j);
    }
    RetryDependsOn(given, GivenOf(log), script.expired, 0, maxRetries);
    OneSourceGives(last, log, Schedulers.CourseOf(sources, last, script, 0, maxRetries).attempts);
  }

  /** The scripts of the first `n` logs. */
  function Scripts(logs: seq<Log>, n: nat): seq<Schedulers.Script>
    requires n <= |logs|
  {
    if n == 0 then [] else Scripts(logs, n - 1) + [ScriptOf(logs[n - 1])]
  }

  lemma {:induction false} LogsAreRun(logs: seq<Log>, history: seq<Outcome>, n: nat, maxRetries: int)
    requires n <= |history| <= |logs|
    requires forall i | 0 <= i < |history| ::
               history[i] == RetryOutcome(GivenOf(logs[i]), ExpiredOf(logs[i]), 0, maxRetries)
    ensures var (outcomes, last) := Schedulers.RunOf([ONE_SOURCE], "", Scripts(logs, n), maxRetries);
      outcomes == history[..n] && PrefersIt(last)
  {
    hide Schedulers.CourseOf, RetryOutcome, ScriptOf, GivenOf, ExpiredOf;
    if n > 0 {
      LogsAreRun(logs, history, n - 1, maxRetries);
      var before := Schedulers.RunOf([ONE_SOURCE], "", Scripts(logs, n - 1), maxRetries).1;
      Schedulers.RunNext([ONE_SOURCE], "", Scripts(logs, n - 1), ScriptOf(logs[n - 1]), maxRetries);
      LogIsCourse(before, logs[n - 1], maxRetries);
      assert history[..n] == history[..n - 1] + [history[n - 1]];
    }
  }

  /** Whatever is started, stopped, triggered and cancelled in between: the history of a run is
      that of the sequential scheduler for the scripts its moves spell. */
  lemma HistoryIsRunOf(initial: Entries, steps: seq<Step>, maxRetries: int, s: State)
    requires ApplyAll(NewState(initial), steps, maxRetries) == Some(s)
    ensures |s.history| <= |Logs(steps)|
    ensures s.history ==
            Schedulers.RunOf([ONE_SOURCE], "", Scripts(Logs(steps), |s.history|), maxRetries).0
  {
    hide ApplyAll, RetryOutcome, Logs, Schedulers.RunOf, Scripts;
    RunTracks(initial, steps, maxRetries, s);
    forall i | 0 <= i < |s.history|
      ensures s.history[i] == RetryOutcome(GivenOf(Logs(steps)[i]), ExpiredOf(Logs(steps)[i]), 0, maxRetries)
    {
      HistoryIsRetries(initial, steps, maxRetries, s, i);
    }
    LogsAreRun(Logs(steps), s.history, |s.history|, maxRetries);
    assert s.history[..|s.history|] == s.history;
  }

  // ---------------------------------------------------------------- every sequential run is possible

  lemma {:induction false} Then(s: State, a: seq<Step>, m: State, b: seq<Step>, maxRetries: int)
    requires ApplyAll(s, a, maxRetries) == Some(m)
    ensures ApplyAll(s, a + b, maxRetries) == ApplyAll(m, b, maxRetries)
  {
    hide Apply;
    if b == [] {
      assert a + b == a;
    } else {
      var n := |b| - 1;
      assert (a + b)[..|a + b| - 1] == a + b[..n] && (a + b)[|a + b| - 1] == b[n];
      Then(s, a, m, b[..n], maxRetries);
    }
  }

  /** The state after goroutine `g` has made a move to phase `p`. */
  function Moved(s: State, g: nat, move: Move, p: Phase): State
    requires g < |s.runs|
  {
    Effect(s, s.runs[g], move).(runs := s.runs[g := p])
  }

  lemma OneStep(s: State, step: Step, maxRetries: int)
    ensures ApplyAll(s, [step], maxRetries) == Apply(s, step, maxRetries)
  {
    assert [step][..0] == [] && ApplyAll(s, [], maxRetries) == Some(s);
  }

  lemma OneMove(s: State, g: nat, move: Move, p: Phase, maxRetries: int)
    requires g < |s.runs| && !s.panicked && NextPhase(s, s.runs[g], move, maxRetries) == Some(p)
    ensures ApplyAll(s, [Run(g, move)], maxRetries) == Some(Moved(s, g, move, p))
  {
    OneStep(s, Run(g, move), maxRetries);
  }

  /** The state after an update of goroutine `g` has run its course. */
  function After(s: State, g: nat, outcome: Outcome): State
    requires g < |s.runs|
  {
    var recorded :=
      if outcome.Succeeded? then
        SchedulerLifecycle.RecordSuccess(s.(installed := outcome.entries), outcome.entries)
      else SchedulerLifecycle.RecordFailure(s);
    recorded.(runs := s.runs[g := Looping])
  }

  /** A fetched registry is stored and recorded as a success at once. */
  lemma FetchedIsStored(s: State, g: nat, entries: Entries, maxRetries: int)
    requires g < |s.runs| && !s.panicked && s.runs[g].Attempting? && entries != []
    ensures ApplyAll(s, [Run(g, FetchGives(entries)), Run(g, StoreIt), Run(g, Record)], maxRetries) ==
            Some(After(s, g, Succeeded(entries)))
    ensures After(s, g, Succeeded(entries)).installed == entries
    ensures After(s, g, Succeeded(entries)).history == s.history + [Succeeded(entries)]
  {
    var p := s.runs[g];
    var s1 := Moved(s, g, FetchGives(entries), Fetched(p.a, p.base, entries));
    var s2 := Moved(s1, g, StoreIt, Succeeding(entries));
    var s3 := Moved(s2, g, Record, Looping);
    assert s3 == After(s, g, Succeeded(entries));
    ApplyThree(s, Run(g, FetchGives(entries)), Run(g, StoreIt), Run(g, Record), maxRetries, s1, s2, s3);
  }

  /** An empty fetch ends the attempt. */
  lemma EmptyFetch(s: State, g: nat, maxRetries: int)
    requires g < |s.runs| && !s.panicked && s.runs[g].Attempting?
    ensures var p := s.runs[g];
      ApplyAll(s, [Run(g, FetchGives([])), Run(g, StoreIt)], maxRetries) ==
      Some(s.(runs := s.runs[g := AfterFailedAttempt(p.a, p.base, maxRetries)]))
  {
    var p := s.runs[g];
    var s1 := Moved(s, g, FetchGives([]), Fetched(p.a, p.base, []));
    OneMove(s, g, FetchGives([]), Fetched(p.a, p.base, []), maxRetries);
    OneMove(s1, g, StoreIt, AfterFailedAttempt(p.a, p.base, maxRetries), maxRetries);
    Then(s, [Run(g, FetchGives([]))], s1, [Run(g, StoreIt)], maxRetries);
    assert [Run(g, FetchGives([]))] + [Run(g, StoreIt)] == [Run(g, FetchGives([])), Run(g, StoreIt)];
    assert Moved(s1, g, StoreIt, AfterFailedAttempt(p.a, p.base, maxRetries)) ==
           s.(runs := s.runs[g := AfterFailedAttempt(p.a, p.base, maxRetries)]);
  }

  lemma FailingIsRecorded(s: State, g: nat, maxRetries: int)
    requires g < |s.runs| && !s.panicked && s.runs[g].Failing?
    ensures ApplyAll(s, [Run(g, Record)], maxRetries) == Some(After(s, g, Failed))
  {
    OneMove(s, g, Record, Looping, maxRetries);
  }

  lemma AfterForgets(s: State, g: nat, p: Phase, outcome: Outcome)
    requires g < |s.runs|
    ensures After(s.(runs := s.runs[g := p]), g, outcome) == After(s, g, outcome)
  {
    assert s.runs[g := p][g := Looping] == s.runs[g := Looping];
  }

  /** From attempt `a` on, any course is possible for an update. */
  lemma {:induction false} CourseIsPossible(
    s: State, g: nat, given: nat -> Entries, expired: nat -> bool, a: nat, base: Entries, maxRetries: int)
    returns (steps: seq<Step>)
    requires g < |s.runs| && !s.panicked && s.runs[g] == Attempting(a, base)
    requires a < maxRetries && (a > 0 ==> !expired(a))
    ensures ApplyAll(s, steps, maxRetries) == Some(After(s, g, RetryOutcome(given, expired, a, maxRetries)))
    decreases maxRetries - a, 0
  {
    hide ApplyAll, After, NextPhase, Effect;
    if given(a) != [] {
      steps := [Run(g, FetchGives(given(a))), Run(g, StoreIt), Run(g, Record)];
      FetchedIsStored(s, g, given(a), maxRetries);
      return;
    }
    EmptyFetch(s, g, maxRetries);
    var p := AfterFailedAttempt(a, base, maxRetries);
    var s' := s.(runs := s.runs[g := p]);
    AfterForgets(s, g, p, RetryOutcome(given, expired, a, maxRetries));
    var rest;
    if p.Waiting? {
      rest := WaitIsPossible(s', g, given, expired, a + 1, base, maxRetries);
    } else {
      rest := [Run(g, Record)];
      FailingIsRecorded(s', g, maxRetries);
    }
    steps := [Run(g, FetchGives([])), Run(g, StoreIt)] + rest;
    Then(s, [Run(g, FetchGives([])), Run(g, StoreIt)], s', rest, maxRetries);
  }

  lemma {:induction false} WaitIsPossible(
    s: State, g: nat, given: nat -> Entries, expired: nat -> bool, a: nat, base: Entries, maxRetries: int)
    returns (steps: seq<Step>)
    requires g < |s.runs| && !s.panicked && s.runs[g] == Waiting(a, base) && 0 < a < maxRetries
    ensures ApplyAll(s, steps, maxRetries) == Some(After(s, g, RetryOutcome(given, expired, a, maxRetries)))
    decreases maxRetries - a, 1
  {
    hide ApplyAll, After;
    var move := if expired(a) then ContextDone else DelayPasses;
    var p := if expired(a) then Failing(base) else Attempting(a, base);
    OneMove(s, g, move, p, maxRetries);
    var s' := s.(runs := s.runs[g := p]);
    assert Moved(s, g, move, p) == s';
    AfterForgets(s, g, p, RetryOutcome(given, expired, a, maxRetries));
    hide NextPhase, Effect;
    var rest;
    if expired(a) {
      rest := [Run(g, Record)];
      FailingIsRecorded(s', g, maxRetries);
    } else {
      rest := CourseIsPossible(s', g, given, expired, a, base, maxRetries);
    }
    steps := [Run(g, move)] + rest;
    Then(s, [Run(g, move)], s', rest, maxRetries);
  }

  /** A goroutine about to update can have its update take any course. */
  lemma UpdateIsPossible(s: State, g: nat, given: nat -> Entries, expired: nat -> bool, maxRetries: int)
    returns (steps: seq<Step>)
    requires g < |s.runs| && !s.panicked && (s.runs[g].Spawned? || s.runs[g].Received?)
    ensures ApplyAll(s, steps, maxRetries) ==
            Some(After(s.(total := s.total + 1), g, RetryOutcome(given, expired, 0, maxRetries)))
  {
    hide ApplyAll, After;
    var p := FirstPhase(s, maxRetries);
    OneMove(s, g, Begin, p, maxRetries);
    var begun := s.(total := s.total + 1);
    var s' := begun.(runs := s.runs[g := p]);
    assert Moved(s, g, Begin, p) == s';
    AfterForgets(begun, g, p, RetryOutcome(given, expired, 0, maxRetries));
    hide NextPhase, Effect;
    var rest;
    if maxRetries > 0 {
      rest := CourseIsPossible(s', g, given, expired, 0, s.installed, maxRetries);
    } else {
      rest := [Run(g, Record)];
      FailingIsRecorded(s', g, maxRetries);
    }
    steps := [Run(g, Begin)] + rest;
    Then(s, [Run(g, Begin)], s', rest, maxRetries);
  }

  /** A tick, or a pending trigger, makes the loop update, and the update can take any course. */
  lemma EventUpdates(s: State, g: nat, event: Move, given: nat -> Entries, expired: nat -> bool, maxRetries: int)
    returns (steps: seq<Step>)
    requires g < |s.runs| && !s.panicked && s.runs[g].Looping?
    requires event.Tick? || (event.ReceiveTrigger? && s.token)
    ensures steps != [] && steps[0] == Run(g, event)
    ensures var s' := if event.Tick? then s else s.(token := false);
      ApplyAll(s, steps, maxRetries) ==
      Some(After(s'.(total := s.total + 1), g, RetryOutcome(given, expired, 0, maxRetries)))
  {
    hide ApplyAll, After;
    OneMove(s, g, event, Received, maxRetries);
    var s' := if event.Tick? then s else s.(token := false);
    var received := s'.(runs := s.runs[g := Received]);
    assert Moved(s, g, event, Received) == received;
    AfterForgets(s'.(total := s.total + 1), g, Received, RetryOutcome(given, expired, 0, maxRetries));
    hide NextPhase, Effect;
    var rest := UpdateIsPossible(received, g, given, expired, maxRetries);
    steps := [Run(g, event)] + rest;
    Then(s, [Run(g, event)], received, rest, maxRetries);
  }

  /** The scheduler is in its loop after these updates, and nothing else has happened to it. */
  ghost predicate LoopingAfter(s: State, initial: Entries, history: seq<Outcome>) {
    && |s.runs| == 1 && s.runs[0].Looping? && !s.panicked && s.running && !s.stopClosed && !s.doneClosed
    && s.history == history && s.total == |history| && s.installed == LastInstalled(history, initial)
    && s.waitingStops == 0 && s.returnedStops == 0
  }

  lemma AfterExtends(s: State, initial: Entries, history: seq<Outcome>, outcome: Outcome)
    requires |s.runs| == 1 && !s.panicked && s.running && !s.stopClosed && !s.doneClosed
    requires s.history == history && s.total == |history| + 1 && s.installed == LastInstalled(history, initial)
    requires s.waitingStops == 0 && s.returnedStops == 0
    ensures LoopingAfter(After(s, 0, outcome), initial, history + [outcome])
  {
    HistoryNext(history, outcome, initial);
  }

  /** Any run of updates of the sequential scheduler is also one of the interleaved scheduler:
      same outcomes, and the store holds the last success. */
  lemma {:induction false} RunIsPossible(
    initial: Entries, sources: seq<RegistryClient.Source>, last: string, scripts: seq<Schedulers.Script>,
    maxRetries: int)
    returns (steps: seq<Step>, s: State)
    requires scripts != []
    ensures ApplyAll(NewState(initial), steps, maxRetries) == Some(s)
    ensures LoopingAfter(s, initial, Schedulers.RunOf(sources, last, scripts, maxRetries).0)
  {
    hide Schedulers.CourseOf, Schedulers.GivenAt, Schedulers.PreferenceAt, Schedulers.GivenBy, RetryOutcome;
    var n := |scripts| - 1;
    var before := Schedulers.RunOf(sources, last, scripts[..n], maxRetries);
    var given, expired := Schedulers.GivenBy(sources, before.1, scripts[n]), scripts[n].expired;
    var outcome := RetryOutcome(given, expired, 0, maxRetries);
    CourseFromStart(sources, before.1, scripts[n], maxRetries);
    assert Schedulers.RunOf(sources, last, scripts, maxRetries).0 == before.0 + [outcome];
    hide Schedulers.RunOf, ApplyAll, After;
    var first, m, rest;
    if n == 0 {
      first, m := StartIsPossible(initial, maxRetries);
      NoScriptsNoOutcomes(sources, last, scripts[..n], maxRetries);
      rest := UpdateIsPossible(m, 0, given, expired, maxRetries);
    } else {
      first, m := RunIsPossible(initial, sources, last, scripts[..n], maxRetries);
      rest := EventUpdates(m, 0, Tick, given, expired, maxRetries);
    }
    steps := first + rest;
    s := After(m.(total := m.total + 1), 0, outcome);
    Then(NewState(initial), first, m, rest, maxRetries);
    AfterExtends(m.(total := m.total + 1), initial, before.0, outcome);
  }

  lemma CourseFromStart(
    sources: seq<RegistryClient.Source>, last: string, script: Schedulers.Script, maxRetries: int)
    ensures Schedulers.CourseOf(sources, last, script, 0, maxRetries).outcome ==
            RetryOutcome(Schedulers.GivenBy(sources, last, script), script.expired, 0, maxRetries)
  {
    assert Schedulers.PreferenceAt(sources, last, script, 0) == last;
    hide Schedulers.CourseOf, RetryOutcome;
    Schedulers.CourseIsRetry(sources, last, script, 0, maxRetries);
  }

  lemma NoScriptsNoOutcomes(
    sources: seq<RegistryClient.Source>, last: string, scripts: seq<Schedulers.Script>, maxRetries: int)
    requires scripts == []
    ensures Schedulers.RunOf(sources, last, scripts, maxRetries).0 == []
  {
  }

  lemma StartIsPossible(initial: Entries, maxRetries: int) returns (steps: seq<Step>, s: State)
    ensures ApplyAll(NewState(initial), steps, maxRetries) == Some(s)
    ensures |s.runs| == 1 && s.runs[0].Spawned? && !s.panicked && s.running && !s.stopClosed && !s.doneClosed
    ensures s.history == [] && s.total == 0 && s.installed == initial
    ensures s.waitingStops == 0 && s.returnedStops == 0
  {
    steps := [Start] + [Spawn];
    var s1 := Apply(NewState(initial), Start, maxRetries).value;
    OneStep(NewState(initial), Start, maxRetries);
    OneStep(s1, Spawn, maxRetries);
    Then(NewState(initial), [Start], s1, [Spawn], maxRetries);
    s := Apply(s1, Spawn, maxRetries).value;
  }

  /** How the goroutine leaves: past its loop it clears `running` and closes `doneCh`. */
  lemma LeavingIsPossible(s: State, g: nat, why: Move, maxRetries: int) returns (s': State)
    requires g < |s.runs| && !s.panicked && !s.doneClosed && s.runs[g].Looping?
    requires why.SeeCancel? || (why.SeeStop? && s.stopClosed)
    ensures ApplyAll(s, [Run(g, why), Run(g, ClearRunning), Run(g, CloseDone)], maxRetries) == Some(s')
    ensures s' == s.(running := false, doneClosed := true, runs := s.runs[g := Finished])
  {
    var s1 := Moved(s, g, why, Exiting);
    var s2 := Moved(s1, g, ClearRunning, Closing);
    s' := Moved(s2, g, CloseDone, Finished);
    ApplyThree(s, Run(g, why), Run(g, ClearRunning), Run(g, CloseDone), maxRetries, s1, s2, s');
  }

  /** A `Stop` of a running scheduler that has not been stopped before is accepted, makes the
      goroutine leave its loop, and then returns. */
  lemma StopIsPossible(s: State, g: nat, maxRetries: int) returns (s': State)
    requires g < |s.runs| && !s.panicked && !s.doneClosed && s.runs[g].Looping? && s.running && !s.stopClosed
    ensures ApplyAll(s, [Stop] + [Run(g, SeeStop), Run(g, ClearRunning), Run(g, CloseDone)] + [StopReturns],
                     maxRetries) == Some(s')
    ensures !s'.running && s'.returnedStops == s.returnedStops + 1
    ensures s'.runs == s.runs[g := Finished]
    ensures s'.history == s.history && s'.installed == s.installed
  {
    var s1 := Apply(s, Stop, maxRetries).value;
    OneStep(s, Stop, maxRetries);
    var s2 := LeavingIsPossible(s1, g, SeeStop, maxRetries);
    Then(s, [Stop], s1, [Run(g, SeeStop), Run(g, ClearRunning), Run(g, CloseDone)], maxRetries);
    OneStep(s2, StopReturns, maxRetries);
    Then(s, [Stop] + [Run(g, SeeStop), Run(g, ClearRunning), Run(g, CloseDone)], s2, [StopReturns], maxRetries);
    s' := Apply(s2, StopReturns, maxRetries).value;
  }

  /** A trigger is accepted at any time, and the loop can take it up. */
  lemma TriggerIsPossible(s: State, g: nat, given: nat -> Entries, expired: nat -> bool, maxRetries: int)
    returns (steps: seq<Step>, s': State)
    requires g < |s.runs| && !s.panicked && s.runs[g].Looping?
    ensures steps != [] && steps[0] == Trigger && ApplyAll(s, steps, maxRetries) == Some(s')
    ensures s'.total == s.total + 1 && s'.history == s.history + [RetryOutcome(given, expired, 0, maxRetries)]
  {
    var s1 := Apply(s, Trigger, maxRetries).value;
    OneStep(s, Trigger, maxRetries);
    hide RetryOutcome, ApplyAll, Apply;
    var rest := EventUpdates(s1, g, ReceiveTrigger, given, expired, maxRetries);
    steps := [Trigger] + rest;
    Then(s, [Trigger], s1, rest, maxRetries);
    s' := After(s1.(token := false).(total := s1.total + 1), g, RetryOutcome(given, expired, 0, maxRetries));
  }
}
