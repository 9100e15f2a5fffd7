/** The scheduler under any interleaving of `Start`, `Stop`, `TriggerUpdate`, ticks and
    cancellation.  Every section under the mutex and every channel operation is one step. */
module SchedulerLifecycle {
  import opened Prelude
  import opened StoreIndex
  import opened UpdateHistory

  /** Where a run goroutine is.  `base` is what the store held when the update began. */
  datatype Phase =
    | Spawned                                          // before the initial update
    | Attempting(a: nat, base: Entries)                // fetching, attempt `a`
    | Waiting(a: nat, base: Entries)                   // in the delay before attempt `a`
    | Fetched(a: nat, base: Entries, got: Entries)     // before the emptiness check and the store
    | Failing(base: Entries)                           // before `recordFailure`
    | Succeeding(got: Entries)                         // before `recordSuccess`
    | Looping                                          // in the select of the event loop
    | Received                                         // past the select, before the update
    | Exiting                                          // returned from the loop
    | Closing                                          // `running` is false, `doneCh` still open
    | Finished

  datatype State = State(
    running: bool, stopClosed: bool, doneClosed: bool, token: bool, panicked: bool,
    spawning: nat,                  // `Start` calls between their lock and their `go`
    runs: seq<Phase>,               // every run goroutine there has been
    waitingStops: nat, returnedStops: nat,
    starts: nat, stops: nat,        // calls that passed their check of `running`
    total: nat, successful: nat, consecutiveFailures: nat, hasError: bool,
    history: seq<Outcome>,          // finished updates
    triggers: seq<nat>,             // for each `TriggerUpdate`, the updates begun before it
    initial: Entries, installed: Entries)

  function NewState(initial: Entries): State {
    State(false, false, false, false, false, 0, [], 0, 0, 0, 0, 0, 0, 0, false, [], [], initial, initial)
  }

  datatype Move =
    | Begin
    | FetchFails
    | FetchGives(entries: Entries)
    | StoreIt
    | DelayPasses
    | ContextDone
    | Record
    | Tick
    | ReceiveTrigger
    | SeeStop
    | SeeCancel
    | ClearRunning
    | CloseDone

  datatype Step =
    | Start
    | Spawn
    | Stop
    | StopReturns
    | Trigger
    | Run(g: nat, move: Move)

  // ---------------------------------------------------------------- steps

  /** The phase run goroutine `g` moves to, or None if it cannot make the move there. */
  function NextPhase(s: State, p: Phase, move: Move, maxRetries: int): Option<Phase> {
    match p
    case Spawned => if move.Begin? then Some(FirstPhase(s, maxRetries)) else None
    case Received => if move.Begin? then Some(FirstPhase(s, maxRetries)) else None
    case Attempting(a, base) =>
      if move.FetchFails? then Some(AfterFailedAttempt(a, base, maxRetries))
      else if move.FetchGives? then Some(Fetched(a, base, move.entries))
      else None
    case Fetched(a, base, got) =>
      if !move.StoreIt? then None
      else if got == [] then Some(AfterFailedAttempt(a, base, maxRetries))
      else Some(Succeeding(got))
    case Waiting(a, base) =>
      if move.DelayPasses? then Some(Attempting(a, base))
      else if move.ContextDone? then Some(Failing(base))
      else None
    case Failing(_) => if move.Record? then Some(Looping) else None
    case Succeeding(_) => if move.Record? then Some(Looping) else None
    case Looping =>
      if move.Tick? || (move.ReceiveTrigger? && s.token) then Some(Received)
      else if move.SeeCancel? || (move.SeeStop? && s.stopClosed) then Some(Exiting)
      else None
    case Exiting => if move.ClearRunning? then Some(Closing) else None
    case Closing => if move.CloseDone? then Some(if s.doneClosed then Closing else Finished) else None
    case Finished => None
  }

  /** The first attempt, unless no attempt is allowed. */
  function FirstPhase(s: State, maxRetries: int): Phase {
    if maxRetries > 0 then Attempting(0, s.installed) else Failing(s.installed)
  }

  function AfterFailedAttempt(a: nat, base: Entries, maxRetries: int): Phase {
    if a + 1 < maxRetries then Waiting(a + 1, base) else Failing(base)
  }

  /** What the move does to everything else. */
  function Effect(s: State, p: Phase, move: Move): State {
    match move
    case Begin => s.(total := s.total + 1)
    case StoreIt => if p.Fetched? && p.got != [] then s.(installed := p.got) else s
    case Record => if p.Succeeding? then RecordSuccess(s, p.got) else RecordFailure(s)
    case ReceiveTrigger => s.(token := false)
    case ClearRunning => s.(running := false)
    case CloseDone => if s.doneClosed then s.(panicked := true) else s.(doneClosed := true)
    case _ => s
  }

  function RecordSuccess(s: State, got: Entries): State {
    s.(history := s.history + [Succeeded(got)], successful := s.successful + 1,
       consecutiveFailures := 0, hasError := false)
  }

  function RecordFailure(s: State): State {
    s.(history := s.history + [Failed], consecutiveFailures := s.consecutiveFailures + 1, hasError := true)
  }

  function ApplyMove(s: State, g: nat, move: Move, maxRetries: int): Option<State>
    requires g < |s.runs|
  {
    match NextPhase(s, s.runs[g], move, maxRetries)
    case None => None
    case Some(p') => Some(Effect(s, s.runs[g], move).(runs := s.runs[g := p']))
  }

  /** One step; None if it is refused or has to wait.  Closing a closed channel panics, and
      nothing happens after a panic. */
  function Apply(s: State, step: Step, maxRetries: int): Option<State> {
    if s.panicked then None
    else
      match step
      case Start =>
        if s.running then None
        else Some(s.(running := true, spawning := s.spawning + 1, starts := s.starts + 1))
      case Spawn =>
        if s.spawning == 0 then None
        else Some(s.(spawning := s.spawning - 1, runs := s.runs + [Spawned]))
      case Stop =>
        if !s.running then None
        else if s.stopClosed then Some(s.(panicked := true, stops := s.stops + 1))
        else Some(s.(stopClosed := true, stops := s.stops + 1, waitingStops := s.waitingStops + 1))
      case StopReturns =>
        if s.waitingStops == 0 || !s.doneClosed then None
        else Some(s.(waitingStops := s.waitingStops - 1, returnedStops := s.returnedStops + 1))
      case Trigger => Some(s.(token := true, triggers := s.triggers + [s.total]))
      case Run(g, move) => if g < |s.runs| then ApplyMove(s, g, move, maxRetries) else None
  }

  /** The state after a sequence of steps, if all of them are possible. */
  function ApplyAll(s: State, steps: seq<Step>, maxRetries: int): Option<State> {
    if steps == [] then Some(s)
    else
      match ApplyAll(s, steps[..|steps| - 1], maxRetries)
      case None => None
      case Some(s') => Apply(s', steps[|steps| - 1], maxRetries)
  }

  // ---------------------------------------------------------------- invariants

  predicate Active(p: Phase) {
    !p.Closing? && !p.Finished?
  }

  predicate Updating(p: Phase) {
    p.Attempting? || p.Waiting? || p.Fetched? || p.Failing? || p.Succeeding?
  }

  predicate HasBase(p: Phase) {
    p.Attempting? || p.Waiting? || p.Fetched? || p.Failing?
  }

  /** The newest goroutine: the only one that can still be active. */
  function Current(s: State): Phase {
    if s.runs == [] then Closing else s.runs[|s.runs| - 1]
  }

  /** `running` covers exactly one goroutine that is about to exist or still active. */
  ghost predicate Exclusive(s: State) {
    && s.spawning <= 1 && (s.spawning == 1 ==> !Active(Current(s)))
    && (s.running <==> s.spawning == 1 || Active(Current(s)))
    && forall g | 0 <= g < |s.runs| - 1 :: !Active(s.runs[g])
  }

  predicate InProgress(s: State) {
    Updating(Current(s))
  }

  /** The counters summarise the history and the update in progress. */
  ghost predicate Counters(s: State) {
    && s.total == |s.history| + (if InProgress(s) then 1 else 0)
    && s.successful == Successes(s.history)
    && s.consecutiveFailures == TrailingFailures(s.history)
    && (s.hasError <==> s.consecutiveFailures > 0)
  }

  /** What the store holds, and how far the update in progress may be with it. */
  ghost predicate StoreOk(s: State, maxRetries: int) {
    var p := Current(s);
    && (if p.Succeeding? then s.installed == p.got != []
        else s.installed == LastInstalled(s.history, s.initial))
    && (HasBase(p) ==> s.installed == p.base)
    && (p.Attempting? || p.Waiting? || p.Fetched? ==> p.a < maxRetries)
    && forall i | 0 <= i < |s.history| && s.history[i].Succeeded? :: s.history[i].entries != []
  }

  /** A trigger made after `begun` updates had begun is pending, has just been received, or an
      update has begun since. */
  predicate TriggerHonoured(s: State, begun: nat) {
    s.token || Current(s).Received? || s.total > begun
  }

  ghost predicate TriggersOk(s: State) {
    forall t | t in s.triggers :: t <= s.total && TriggerHonoured(s, t)
  }

  ghost predicate SomeFinished(s: State) {
    exists g :: 0 <= g < |s.runs| && s.runs[g].Finished?
  }

  /** The life of the channels. */
  ghost predicate ChannelsOk(s: State) {
    && |s.runs| + s.spawning == s.starts
    && (s.doneClosed <==> SomeFinished(s))
    && (s.returnedStops > 0 ==> s.doneClosed)
    && (s.stopClosed <==> s.stops > 0)
    && (s.panicked ==> s.starts >= 2 || s.stops >= 2)
  }

  ghost predicate Inv(s: State, maxRetries: int) {
    Exclusive(s) && Counters(s) && StoreOk(s, maxRetries) && TriggersOk(s) && ChannelsOk(s)
  }

  lemma NewInv(initial: Entries, maxRetries: int)
    ensures Inv(NewState(initial), maxRetries)
  {
  }

  /** What a move from phase `p` to phase `p'` may change besides the phase. */
  ghost predicate Moves(s: State, g: nat, p: Phase, p': Phase, s': State, maxRetries: int) {
    && g < |s.runs| && s.runs[g] == p && s'.runs == s.runs[g := p']
    && MovesLoop(s, p, p', s') && MovesChannels(s, p, p', s')
    && MovesCounters(s, p, p', s') && MovesStore(s, p, p', s', maxRetries)
  }

  predicate MovesLoop(s: State, p: Phase, p': Phase, s': State) {
    && s'.spawning == s.spawning && s'.starts == s.starts && s'.stops == s.stops
    && s'.stopClosed == s.stopClosed && s'.returnedStops == s.returnedStops && s'.triggers == s.triggers
    && (Active(p') <==> Active(p) && !p.Exiting?) && (s'.running <==> s.running && !p.Exiting?)
  }

  predicate MovesChannels(s: State, p: Phase, p': Phase, s': State) {
    && (s.token ==> s'.token || p'.Received?)
    && (s'.doneClosed <==> s.doneClosed || p'.Finished?) && !p.Finished?
    && (s'.panicked ==> p.Closing? && s.doneClosed)
  }

  predicate MovesCounters(s: State, p: Phase, p': Phase, s': State) {
    && s'.initial == s.initial
    && s'.total == s.total + (if Updating(p') && !Updating(p) then 1 else 0)
    && (p.Received? ==> s'.total == s.total + 1)
    && if Updating(p) && !Updating(p') then Records(s, p, s')
       else && s'.history == s.history && s'.successful == s.successful
            && s'.consecutiveFailures == s.consecutiveFailures && s'.hasError == s.hasError
  }

  predicate Records(s: State, p: Phase, s': State) {
    var o := if p.Succeeding? then Succeeded(p.got) else Failed;
    && (p.Succeeding? || p.Failing?) && s'.history == s.history + [o]
    && s'.successful == s.successful + (if o.Succeeded? then 1 else 0)
    && s'.consecutiveFailures == (if o.Failed? then s.consecutiveFailures + 1 else 0)
    && (s'.hasError <==> o.Failed?)
  }

  predicate MovesStore(s: State, p: Phase, p': Phase, s': State, maxRetries: int) {
    && s'.installed == (if p'.Succeeding? then p'.got else s.installed)
    && (p'.Succeeding? ==> p'.got != [])
    && (HasBase(p') ==> p'.base == if HasBase(p) then p.base else s.installed)
    && (HasBase(p') ==> HasBase(p) || !Updating(p))
    && (p'.Attempting? || p'.Waiting? || p'.Fetched? ==>
          p'.a < maxRetries || ((p.Attempting? || p.Waiting? || p.Fetched?) && p'.a == p.a))
  }

  lemma LoopSummary(s: State, p: Phase, move: Move, p': Phase, maxRetries: int)
    requires !s.panicked && NextPhase(s, p, move, maxRetries) == Some(p')
    ensures MovesLoop(s, p, p', Effect(s, p, move))
  {
  }

  lemma ChannelsSummary(s: State, p: Phase, move: Move, p': Phase, maxRetries: int)
    requires !s.panicked && NextPhase(s, p, move, maxRetries) == Some(p')
    ensures MovesChannels(s, p, p', Effect(s, p, move))
  {
  }

  lemma CountersSummary(s: State, p: Phase, move: Move, p': Phase, maxRetries: int)
    requires NextPhase(s, p, move, maxRetries) == Some(p')
    ensures MovesCounters(s, p, p', Effect(s, p, move))
  {
  }

  lemma StoreSummary(s: State, p: Phase, move: Move, p': Phase, maxRetries: int)
    requires NextPhase(s, p, move, maxRetries) == Some(p')
    ensures MovesStore(s, p, p', Effect(s, p, move), maxRetries)
  {
  }

  lemma MoveSummary(s: State, g: nat, move: Move, maxRetries: int, s': State)
    requires g < |s.runs| && !s.panicked && ApplyMove(s, g, move, maxRetries) == Some(s')
    ensures |s'.runs| == |s.runs| && Moves(s, g, s.runs[g], s'.runs[g], s', maxRetries)
  {
    var p := s.runs[g];
    var p' := NextPhase(s, p, move, maxRetries).value;
    LoopSummary(s, p, move, p', maxRetries);
    ChannelsSummary(s, p, move, p', maxRetries);
    CountersSummary(s, p, move, p', maxRetries);
    StoreSummary(s, p, move, p', maxRetries);
  }

  lemma ExclusiveMove(s: State, g: nat, p: Phase, p': Phase, s': State, maxRetries: int)
    requires Exclusive(s) && Moves(s, g, p, p', s', maxRetries)
    ensures Exclusive(s') && (g == |s.runs| - 1 || (!Active(p) && !Active(p') && Current(s') == Current(s)))
  {
  }

  lemma CountersMove(s: State, g: nat, p: Phase, p': Phase, s': State, maxRetries: int)
    requires Exclusive(s) && Counters(s) && Moves(s, g, p, p', s', maxRetries)
    ensures Counters(s')
  {
    ExclusiveMove(s, g, p, p', s', maxRetries);
    HistoryNext(s.history, if p.Succeeding? then Succeeded(p.got) else Failed, s.initial);
  }

  lemma StoreMove(s: State, g: nat, p: Phase, p': Phase, s': State, maxRetries: int)
    requires Exclusive(s) && StoreOk(s, maxRetries) && Moves(s, g, p, p', s', maxRetries)
    ensures StoreOk(s', maxRetries)
  {
    ExclusiveMove(s, g, p, p', s', maxRetries);
    HistoryNext(s.history, if p.Succeeding? then Succeeded(p.got) else Failed, s.initial);
  }

  lemma TriggersMove(s: State, g: nat, p: Phase, p': Phase, s': State, maxRetries: int)
    requires Exclusive(s) && TriggersOk(s) && Moves(s, g, p, p', s', maxRetries)
    ensures TriggersOk(s')
  {
    ExclusiveMove(s, g, p, p', s', maxRetries);
    forall t | t in s'.triggers ensures t <= s'.total && TriggerHonoured(s', t) {
      assert t <= s.total && TriggerHonoured(s, t);
    }
  }

  lemma ChannelsMove(s: State, g: nat, p: Phase, p': Phase, s': State, maxRetries: int)
    requires Exclusive(s) && ChannelsOk(s) && !s.panicked && Moves(s, g, p, p', s', maxRetries)
    ensures ChannelsOk(s')
  {
    if s.doneClosed {
      var h :| 0 <= h < |s.runs| && s.runs[h].Finished?;
      assert s'.runs[h].Finished?;
    } else if p'.Finished? {
      assert s'.runs[g].Finished?;
    } else {
      forall h | 0 <= h < |s'.runs| ensures !s'.runs[h].Finished? {
        assert h != g ==> !s.runs[h].Finished?;
      }
    }
  }

  lemma MoveKeepsInv(s: State, g: nat, p: Phase, p': Phase, s': State, maxRetries: int)
    requires Inv(s, maxRetries) && !s.panicked && Moves(s, g, p, p', s', maxRetries)
    ensures Inv(s', maxRetries)
  {
    ExclusiveMove(s, g, p, p', s', maxRetries);
    CountersMove(s, g, p, p', s', maxRetries);
    StoreMove(s, g, p, p', s', maxRetries);
    TriggersMove(s, g, p, p', s', maxRetries);
    ChannelsMove(s, g, p, p', s', maxRetries);
  }

  /** Creating the goroutine of an accepted `Start` keeps the invariant. */
  lemma SpawnKeepsInv(s: State, maxRetries: int, s': State)
    requires Inv(s, maxRetries) && Apply(s, Spawn, maxRetries) == Some(s')
    ensures Inv(s', maxRetries)
  {
    hide ApplyMove;
    assert forall h | 0 <= h < |s.runs| :: s'.runs[h] == s.runs[h];
    assert SomeFinished(s') <==> SomeFinished(s);
  }

  /** `Start`, `Stop` and `TriggerUpdate` keep the invariant. */
  lemma CallKeepsInv(s: State, step: Step, maxRetries: int, s': State)
    requires Inv(s, maxRetries) && Apply(s, step, maxRetries) == Some(s') && !step.Run? && !step.Spawn?
    ensures Inv(s', maxRetries)
  {
    hide ApplyMove, Counters, StoreOk, SomeFinished, TriggersOk, Exclusive, ChannelsOk;
    CallFrame(s, s', maxRetries);
    CallKeepsTriggers(s, step, maxRetries, s');
    CallKeepsExclusive(s, step, maxRetries, s');
    CallKeepsChannels(s, step, maxRetries, s');
  }

  lemma CallKeepsExclusive(s: State, step: Step, maxRetries: int, s': State)
    requires Exclusive(s) && Apply(s, step, maxRetries) == Some(s') && !step.Run? && !step.Spawn?
    ensures Exclusive(s')
  {
    hide ApplyMove;
  }

  lemma CallKeepsChannels(s: State, step: Step, maxRetries: int, s': State)
    requires Exclusive(s) && ChannelsOk(s) && Apply(s, step, maxRetries) == Some(s') && !step.Run? && !step.Spawn?
    requires SomeFinished(s') <==> SomeFinished(s)
    ensures ChannelsOk(s')
  {
    hide ApplyMove, SomeFinished;
    if s.stopClosed && step.Stop? {
      assert s.stops > 0;
    }
  }

  lemma CallKeepsTriggers(s: State, step: Step, maxRetries: int, s': State)
    requires TriggersOk(s) && Apply(s, step, maxRetries) == Some(s') && !step.Run? && !step.Spawn?
    ensures TriggersOk(s')
  {
    hide ApplyMove;
    assert s'.runs == s.runs;
    if step.Trigger? {
      assert s'.token;
    } else {
      assert s'.triggers == s.triggers && s'.total == s.total && s'.token == s.token;
      assert forall t | t in s.triggers :: t <= s.total && TriggerHonoured(s, t);
    }
  }

  lemma CallFrame(s: State, s': State, maxRetries: int)
    requires s'.runs == s.runs && s'.history == s.history && s'.total == s.total
    requires s'.successful == s.successful && s'.consecutiveFailures == s.consecutiveFailures
    requires s'.hasError == s.hasError && s'.installed == s.installed && s'.initial == s.initial
    requires Counters(s) && StoreOk(s, maxRetries)
    ensures Counters(s') && StoreOk(s', maxRetries) && (SomeFinished(s') <==> SomeFinished(s))
  {
  }

  /** Every step of anyone keeps the invariant. */
  lemma InvNext(s: State, step: Step, maxRetries: int)
    requires Inv(s, maxRetries) && Apply(s, step, maxRetries).Some?
    ensures Inv(Apply(s, step, maxRetries).value, maxRetries)
  {
    hide Inv, ApplyMove, Moves;
    var s' := Apply(s, step, maxRetries).value;
    if step.Run? {
      MoveSummary(s, step.g, step.move, maxRetries, s');
      MoveKeepsInv(s, step.g, s.runs[step.g], s'.runs[step.g], s', maxRetries);
    } else if step.Spawn? {
      SpawnKeepsInv(s, maxRetries, s');
    } else {
      CallKeepsInv(s, step, maxRetries, s');
    }
  }

  lemma {:induction false} RunInv(initial: Entries, steps: seq<Step>, maxRetries: int)
    requires ApplyAll(NewState(initial), steps, maxRetries).Some?
    ensures Inv(ApplyAll(NewState(initial), steps, maxRetries).value, maxRetries)
  {
    if steps == [] {
      NewInv(initial, maxRetries);
    } else {
      RunInv(initial, steps[..|steps| - 1], maxRetries);
      var s := ApplyAll(NewState(initial), steps[..|steps| - 1], maxRetries).value;
      InvNext(s, steps[|steps| - 1], maxRetries);
    }
  }

  // ---------------------------------------------------------------- what it means

  /** The state `s` is reached by some sequence of steps of a new scheduler. */
  ghost predicate Reachable(s: State, maxRetries: int) {
    exists initial, steps :: ApplyAll(NewState(initial), steps, maxRetries) == Some(s)
  }

  lemma ReachableInv(s: State, maxRetries: int)
    requires Reachable(s, maxRetries)
    ensures Inv(s, maxRetries)
  {
    var initial, steps :| ApplyAll(NewState(initial), steps, maxRetries) == Some(s);
    RunInv(initial, steps, maxRetries);
  }

  /** At most one update is in flight, however often the scheduler is started and stopped. */
  lemma AtMostOneUpdate(s: State, maxRetries: int, g: nat, h: nat)
    requires Reachable(s, maxRetries)
    requires g < |s.runs| && h < |s.runs| && Updating(s.runs[g]) && Updating(s.runs[h])
    ensures g == h && s.running
  {
    ReachableInv(s, maxRetries);
    hide Counters, StoreOk, TriggersOk, ChannelsOk, Exclusive;
    ActiveIsNewest(s, g);
    ActiveIsNewest(s, h);
  }

  lemma ActiveIsNewest(s: State, g: nat)
    requires Exclusive(s) && g < |s.runs| && Active(s.runs[g])
    ensures g == |s.runs| - 1 && s.running
  {
  }

  /** The counters describe what has happened. */
  lemma CountersDescribeHistory(s: State, maxRetries: int)
    requires Reachable(s, maxRetries)
    ensures s.total == Successes(s.history) + Failures(s.history) +
              (if exists g :: 0 <= g < |s.runs| && Updating(s.runs[g]) then 1 else 0)
    ensures s.successful == Successes(s.history)
    ensures s.consecutiveFailures == TrailingFailures(s.history)
    ensures s.hasError <==> s.consecutiveFailures > 0
  {
    ReachableInv(s, maxRetries);
    OutcomesAddUp(s.history);
    InProgressMeaning(s);
  }

  lemma InProgressMeaning(s: State)
    requires Exclusive(s)
    ensures InProgress(s) <==> exists g :: 0 <= g < |s.runs| && Updating(s.runs[g])
  {
    if InProgress(s) {
      assert Updating(s.runs[|s.runs| - 1]);
    }
  }

  /** No trigger is lost. */
  lemma NoTriggerIsLost(s: State, maxRetries: int, k: nat)
    requires Reachable(s, maxRetries) && k < |s.triggers|
    ensures s.token || s.total > s.triggers[k] || exists g :: 0 <= g < |s.runs| && s.runs[g].Received?
  {
    ReachableInv(s, maxRetries);
    assert s.triggers[k] in s.triggers;
    if Current(s).Received? {
      assert s.runs[|s.runs| - 1].Received?;
    }
  }

  /** Between updates, and in one that has not yet stored anything, the store holds the registry
      of the last recorded success; an empty one is never stored. */
  lemma StoreHoldsLastSuccess(s: State, maxRetries: int)
    requires Reachable(s, maxRetries)
    requires forall g | 0 <= g < |s.runs| :: !s.runs[g].Succeeding?
    ensures s.installed == LastInstalled(s.history, s.initial)
    ensures forall i | 0 <= i < |s.history| && s.history[i].Succeeded? :: s.history[i].entries != []
  {
    ReachableInv(s, maxRetries);
    assert !Current(s).Succeeding?;
  }

  /** An update about to be recorded as failed has left the store as it began; the record does
      not touch it either. */
  lemma FailureLeavesStore(s: State, maxRetries: int, g: nat)
    requires Reachable(s, maxRetries) && g < |s.runs| && s.runs[g].Failing?
    ensures s.installed == s.runs[g].base && Effect(s, s.runs[g], Record).installed == s.runs[g].base
  {
    ReachableInv(s, maxRetries);
    FailingKeepsBase(s, maxRetries, g);
  }

  lemma FailingKeepsBase(s: State, maxRetries: int, g: nat)
    requires Exclusive(s) && StoreOk(s, maxRetries) && g < |s.runs| && s.runs[g].Failing?
    ensures s.installed == s.runs[g].base && Effect(s, s.runs[g], Record).installed == s.runs[g].base
  {
    assert g == |s.runs| - 1;
  }

  /** A panic takes a second successful `Start` or a second `Stop`. */
  lemma NoPanicWhenUsedOnce(s: State, maxRetries: int)
    requires Reachable(s, maxRetries) && s.starts <= 1 && s.stops <= 1
    ensures !s.panicked
  {
    ReachableInv(s, maxRetries);
  }

  /** One goroutine ever, finished, and none on its way. */
  predicate Quiet(s: State) {
    s.starts == 1 && s.spawning == 0 && |s.runs| == 1 && s.runs[0].Finished?
  }

  /** With one `Start`: once a `Stop` has returned nothing runs, and no update begins as long
      as there is no second `Start`. */
  lemma StopIsFinal(s: State, steps: seq<Step>, maxRetries: int)
    requires Reachable(s, maxRetries) && s.starts <= 1 && s.returnedStops > 0
    requires ApplyAll(s, steps, maxRetries).Some? && ApplyAll(s, steps, maxRetries).value.starts <= 1
    ensures var s' := ApplyAll(s, steps, maxRetries).value;
      && s'.total == s.total && s'.installed == s.installed && s'.history == s.history && Quiet(s')
  {
    StoppedIsQuiet(s, maxRetries);
    QuietRun(s, steps, maxRetries);
  }

  lemma StoppedIsQuiet(s: State, maxRetries: int)
    requires Reachable(s, maxRetries) && s.starts <= 1 && s.returnedStops > 0
    ensures Quiet(s)
  {
    ReachableInv(s, maxRetries);
    var g :| 0 <= g < |s.runs| && s.runs[g].Finished?;
  }

  lemma FinishedIsStuck(s: State, maxRetries: int)
    ensures forall move :: NextPhase(s, Finished, move, maxRetries) == None
  {
  }

  lemma QuietStep(s: State, step: Step, maxRetries: int)
    requires Quiet(s) && Apply(s, step, maxRetries).Some?
    ensures var s' := Apply(s, step, maxRetries).value;
      && s'.total == s.total && s'.installed == s.installed && s'.history == s.history
      && (Quiet(s') || s'.starts > 1)
  {
    hide NextPhase, Effect;
    FinishedIsStuck(s, maxRetries);
  }

  lemma {:induction false} QuietRun(s: State, steps: seq<Step>, maxRetries: int)
    requires Quiet(s)
    requires ApplyAll(s, steps, maxRetries).Some? && ApplyAll(s, steps, maxRetries).value.starts <= 1
    ensures var s' := ApplyAll(s, steps, maxRetries).value;
      Quiet(s') && s'.total == s.total && s'.installed == s.installed && s'.history == s.history
  {
    if steps != [] {
      var before := steps[..|steps| - 1];
      var m := ApplyAll(s, before, maxRetries).value;
      StartsGrow(m, steps[|steps| - 1], maxRetries);
      QuietRun(s, before, maxRetries);
      QuietStep(m, steps[|steps| - 1], maxRetries);
    }
  }

  lemma StartsGrow(s: State, step: Step, maxRetries: int)
    requires Apply(s, step, maxRetries).Some?
    ensures s.starts <= Apply(s, step, maxRetries).value.starts
  {
    if step.Run? {
      MoveSummary(s, step.g, step.move, maxRetries, Apply(s, step, maxRetries).value);
    }
  }

  lemma ApplyThree(s: State, a: Step, b: Step, c: Step, maxRetries: int, s1: State, s2: State, s3: State)
    requires Apply(s, a, maxRetries) == Some(s1) && Apply(s1, b, maxRetries) == Some(s2)
    requires Apply(s2, c, maxRetries) == Some(s3)
    ensures ApplyAll(s, [a, b, c], maxRetries) == Some(s3)
  {
    assert [a, b, c][..2] == [a, b] && [a, b][..1] == [a] && [a][..0] == [];
    assert ApplyAll(s, [a], maxRetries) == Some(s1);
    assert ApplyAll(s, [a, b], maxRetries) == Some(s2);
  }

  /** Once `doneCh` is closed, closing it again panics: nobody finishes any more. */
  ghost predicate NobodyFinishes(s: State, r: State, maxRetries: int) {
    && r.doneClosed
    && (forall g | 0 <= g < |r.runs| && r.runs[g].Finished? :: g < |s.runs| && s.runs[g].Finished?)
    && forall g | 0 <= g < |r.runs| && ApplyMove(r, g, CloseDone, maxRetries).Some? ::
         ApplyMove(r, g, CloseDone, maxRetries).value.panicked
  }

  lemma ClosingAgainPanics(r: State, g: nat, maxRetries: int)
    requires r.doneClosed && g < |r.runs| && ApplyMove(r, g, CloseDone, maxRetries).Some?
    ensures ApplyMove(r, g, CloseDone, maxRetries).value.panicked
  {
  }

  lemma FinishingNeedsOpen(s: State, p: Phase, move: Move, maxRetries: int)
    requires NextPhase(s, p, move, maxRetries) == Some(Finished)
    ensures !s.doneClosed
  {
  }

  lemma NobodyFinishesNext(s: State, step: Step, maxRetries: int)
    requires s.doneClosed && Apply(s, step, maxRetries).Some?
    ensures NobodyFinishes(s, Apply(s, step, maxRetries).value, maxRetries)
  {
    hide NextPhase, Effect, ApplyMove, Moves;
    var r := Apply(s, step, maxRetries).value;
    if step.Run? {
      MoveSummary(s, step.g, step.move, maxRetries, r);
      MoveFinishesNobody(s, step.g, step.move, maxRetries, r);
    }
    forall g | 0 <= g < |r.runs| && ApplyMove(r, g, CloseDone, maxRetries).Some?
      ensures ApplyMove(r, g, CloseDone, maxRetries).value.panicked
    {
      ClosingAgainPanics(r, g, maxRetries);
    }
  }

  lemma MoveFinishesNobody(s: State, g: nat, move: Move, maxRetries: int, r: State)
    requires g < |s.runs| && s.doneClosed && ApplyMove(s, g, move, maxRetries) == Some(r)
    ensures r.doneClosed && |r.runs| == |s.runs|
    ensures forall h | 0 <= h < |r.runs| && r.runs[h].Finished? :: s.runs[h].Finished?
  {
    hide NextPhase;
    var p' := NextPhase(s, s.runs[g], move, maxRetries).value;
    if p'.Finished? {
      FinishingNeedsOpen(s, s.runs[g], move, maxRetries);
    }
  }

  lemma {:induction false} NobodyFinishesLater(s: State, steps: seq<Step>, maxRetries: int)
    requires s.doneClosed && ApplyAll(s, steps, maxRetries).Some?
    ensures NobodyFinishes(s, ApplyAll(s, steps, maxRetries).value, maxRetries)
  {
    hide Apply, ApplyMove;
    if steps == [] {
      forall g | 0 <= g < |s.runs| && ApplyMove(s, g, CloseDone, maxRetries).Some?
        ensures ApplyMove(s, g, CloseDone, maxRetries).value.panicked
      {
        ClosingAgainPanics(s, g, maxRetries);
      }
    } else {
      var before := steps[..|steps| - 1];
      NobodyFinishesLater(s, before, maxRetries);
      NobodyFinishesNext(ApplyAll(s, before, maxRetries).value, steps[|steps| - 1], maxRetries);
    }
  }

  /** The limit to one `Start` is needed: after any returned `Stop`, a second `Start` does
      begin an update.  In no continuation does the goroutine that runs it, or any later one,
      finish: where it comes to its end, it panics. */
  lemma RestartRunsAndPanics(s: State, maxRetries: int)
    requires Reachable(s, maxRetries) && s.starts == 1 && s.returnedStops > 0 && !s.panicked
    ensures var r := ApplyAll(s, [Start, Spawn, Run(1, Begin)], maxRetries);
      && r.Some? && r.value.total == s.total + 1 && Updating(r.value.runs[1])
    ensures forall steps: seq<Step>, g: nat | ApplyAll(s, steps, maxRetries).Some? ::
      var r := ApplyAll(s, steps, maxRetries).value;
      && r.doneClosed
      && (1 <= g < |r.runs| ==> !r.runs[g].Finished?)
      && (g < |r.runs| && ApplyMove(r, g, CloseDone, maxRetries).Some? ==>
            ApplyMove(r, g, CloseDone, maxRetries).value.panicked)
  {
    StoppedIsQuiet(s, maxRetries);
    StoppedMayStart(s, maxRetries);
    var s1 := Apply(s, Start, maxRetries).value;
    var s2 := Apply(s1, Spawn, maxRetries).value;
    var s3 := Apply(s2, Run(1, Begin), maxRetries).value;
    ApplyThree(s, Start, Spawn, Run(1, Begin), maxRetries, s1, s2, s3);
    forall steps: seq<Step> | ApplyAll(s, steps, maxRetries).Some?
      ensures NobodyFinishes(s, ApplyAll(s, steps, maxRetries).value, maxRetries)
    {
      NobodyFinishesLater(s, steps, maxRetries);
    }
  }

  lemma StoppedMayStart(s: State, maxRetries: int)
    requires Reachable(s, maxRetries) && Quiet(s) && s.returnedStops > 0
    ensures !s.running && s.doneClosed
  {
    ReachableInv(s, maxRetries);
  }
}
