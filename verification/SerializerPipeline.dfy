// Request: response serializers run one after the other, and their completions
// are kept until all have run.  The sections that run under the lock are
// functions on MutableState; the underlying queue, the retrier and the other
// threads are events of a state machine over them; the class holds the methods.
module SerializerPipeline {
  import opened Wire

  datatype RequestState = Initialized | Resumed | Suspended | Cancelled | Finished

  predicate CanTransitionTo(s: RequestState, t: RequestState)
  {
    match (s, t)
    case (Initialized, _) => true
    case (_, Initialized) => false
    case (Cancelled, _) => false
    case (Finished, _) => false
    case (_, Cancelled) => true
    case (Resumed, Suspended) => true
    case (Suspended, Resumed) => true
    case (Suspended, Suspended) => false
    case (Resumed, Resumed) => false
    case (_, Finished) => true
  }

  // Which transitions the table allows, said without the table.
  lemma {:induction false} TransitionsAllowed(s: RequestState, t: RequestState)
    ensures CanTransitionTo(s, t) <==>
      s == Initialized || (s !in {Cancelled, Finished} && t != Initialized && s != t)
  {
    match s {
      case Initialized =>
      case Resumed =>
      case Suspended =>
      case Cancelled =>
      case Finished =>
    }
  }

  /** The part of MutableState that the pipeline uses.  Serializers are known by number. */
  datatype MutableState = MutableState(
    state: RequestState,
    responseSerializers: seq<nat>,
    responseSerializerCompletions: seq<nat>,
    responseSerializerProcessingFinished: bool,
    isFinishing: bool)

  const NEW := MutableState(Initialized, [], [], false, false)

  // ---- the sections under the lock ----

  /** cancel, suspend and resume: the new state and whether the transition was made */
  function Transition(m: MutableState, target: RequestState): (MutableState, bool)
  {
    if CanTransitionTo(m.state, target) then (m.(state := target), true) else (m, false)
  }

  /** The new state, and whether a processing step is put on the queue. */
  function AppendSection(m: MutableState, id: nat): (MutableState, bool)
  {
    (m.(responseSerializers := m.responseSerializers + [id],
        state := if m.state == Finished then Resumed else m.state),
     m.responseSerializerProcessingFinished)
  }

  function NextSection(m: MutableState): Option<nat>
  {
    var index := |m.responseSerializerCompletions|;
    if index < |m.responseSerializers| then Some(m.responseSerializers[index]) else None
  }

  /** The section that clears everything, and the completions that are then called. */
  function FlushSection(m: MutableState): (MutableState, seq<nat>)
  {
    (MutableState(if CanTransitionTo(m.state, Finished) then Finished else m.state, [], [], true, false),
     m.responseSerializerCompletions)
  }

  function CompleteSection(m: MutableState, id: nat): MutableState
  {
    m.(responseSerializerCompletions := m.responseSerializerCompletions + [id])
  }

  function ResetSection(m: MutableState): MutableState
  {
    m.(isFinishing := false, responseSerializerCompletions := [])
  }

  // ---- the whole system ----

  /** Where the underlying queue is between two sections of one operation. */
  datatype Position =
    | Idle
    | Peeking      // about to call nextResponseSerializer
    | Flushing     // it returned nil; about to clear
    | Resetting    // the retry was not cancelled; about to reset

  datatype System = System(
    locked: MutableState,
    position: Position,
    running: seq<nat>,      // serializers dispatched and not yet complete
    attempts: nat,          // performs under way
    liveTask: bool,         // the attempt has a task whose completion will be reported
    deciding: nat,          // failed attempts that the retrier thinks about
    tickets: nat,           // retries granted and not yet started
    finishCalls: nat,       // finish() calls put on the queue by cancel
    scheduled: nat,         // processing steps put on the queue by append
    executed: seq<nat>,     // serializers started since the last reset or flush
    late: seq<nat>,         // serializers appended since nextResponseSerializer returned nil
    appended: seq<nat>,     // all serializers in registration order
    called: seq<nat>,       // completions called
    lost: seq<nat>)         // serializers removed without having run

  const START := System(NEW, Idle, [], 1, false, 0, 0, 0, 0, [], [], [], [], [])

  datatype Event =
    | Append(id: nat)
    | Cancel(completed: bool)    // whether a live task has already completed
    | Suspend
    | Resume
    | CreateTask
    | DropAttempt                // a cancelled attempt stops before it has a task
    | AttemptEnds(failed: bool)  // retryOrFinish
    | Decide(retry: bool)
    | StartRetry                 // retryRequest, up to its check
    | Reset
    | CallFinish
    | Process
    | Peek
    | Flush
    | SerializerCompletes
    | SerializerRetries          // a failed download serializer is retried

  predicate Enabled(sys: System, e: Event)
  {
    match e
    case Append(_) => true
    case Cancel(_) => true
    case Suspend => true
    case Resume => true
    case CreateTask => sys.attempts > 0 && sys.position.Idle?
    case DropAttempt => sys.attempts > 0 && sys.locked.state == Cancelled && !sys.liveTask
    case AttemptEnds(_) => sys.attempts > 0 && sys.position.Idle?
    case Decide(_) => sys.deciding > 0 && sys.position.Idle?
    case StartRetry => sys.tickets > 0 && sys.position.Idle?
    case Reset => sys.position.Resetting?
    case CallFinish => sys.finishCalls > 0 && sys.position.Idle?
    case Process => sys.scheduled > 0 && sys.position.Idle?
    case Peek => sys.position.Peeking?
    case Flush => sys.position.Flushing?
    case SerializerCompletes => |sys.running| > 0 && sys.position.Idle?
    case SerializerRetries => |sys.running| > 0 && sys.position.Idle?
  }

  /** finish() */
  function Finish(sys: System): System
  {
    if sys.locked.isFinishing then sys
    else sys.(locked := sys.locked.(isFinishing := true), position := Peeking)
  }

  function Apply(sys: System, e: Event): System
    requires Enabled(sys, e)
  {
    var m := sys.locked;
    match e
    case Append(id) =>
      var (m', process) := AppendSection(m, id);
      sys.(locked := m', appended := sys.appended + [id],
           late := if sys.position.Flushing? then sys.late + [id] else sys.late,
           scheduled := if process then sys.scheduled + 1 else sys.scheduled)
    case Cancel(completed) =>
      var (m', done) := Transition(m, Cancelled);
      sys.(locked := m',
           finishCalls := if done && (!sys.liveTask || completed) then sys.finishCalls + 1 else sys.finishCalls)
    case Suspend => sys.(locked := Transition(m, Suspended).0)
    case Resume => sys.(locked := Transition(m, Resumed).0)
    case CreateTask => sys.(liveTask := true)
    case DropAttempt => sys.(attempts := sys.attempts - 1)
    case AttemptEnds(failed) =>
      var ended := sys.(attempts := sys.attempts - 1, liveTask := false);
      if m.state == Cancelled || !failed then Finish(ended) else ended.(deciding := sys.deciding + 1)
    case Decide(retry) =>
      var decided := sys.(deciding := sys.deciding - 1);
      if retry then decided.(tickets := sys.tickets + 1) else Finish(decided)
    case StartRetry =>
      sys.(tickets := sys.tickets - 1, position := if m.state == Cancelled then Idle else Resetting)
    case Reset =>
      sys.(locked := ResetSection(m), position := Idle, executed := [], attempts := sys.attempts + 1)
    case CallFinish => Finish(sys.(finishCalls := sys.finishCalls - 1))
    case Process => sys.(scheduled := sys.scheduled - 1, position := Peeking)
    case Peek =>
      (match NextSection(m)
       case Some(id) => sys.(position := Idle, running := sys.running + [id], executed := sys.executed + [id])
       case None => sys.(position := Flushing))
    case Flush =>
      var (m', completions) := FlushSection(m);
      sys.(locked := m', position := Idle, executed := [], late := [],
           called := sys.called + completions, lost := sys.lost + sys.late)
    case SerializerCompletes =>
      sys.(locked := CompleteSection(m, sys.running[0]), running := sys.running[1..], position := Peeking)
    case SerializerRetries =>
      sys.(running := sys.running[1..], tickets := sys.tickets + 1)
  }

  ghost predicate Run(sys: System, events: seq<Event>, sys': System)
    decreases |events|
  {
    if events == [] then sys == sys'
    else Enabled(sys, events[0]) && Run(Apply(sys, events[0]), events[1..], sys')
  }

  /** No serializer is appended after the first flush. */
  ghost predicate InTime(sys: System, events: seq<Event>)
    decreases |events|
  {
    events != [] && Enabled(sys, events[0]) ==>
      && (events[0].Append? ==> !sys.locked.responseSerializerProcessingFinished)
      && InTime(Apply(sys, events[0]), events[1..])
  }

  // ---- the invariants ----

  /** A pass over the serializers is under way. */
  predicate InPass(sys: System)
  {
    sys.running != [] || sys.position.Peeking? || sys.position.Flushing?
  }

  /** A serializer has asked for a retry, and the pass rests until the reset. */
  predicate Stalled(sys: System)
  {
    var m := sys.locked;
    var n := |m.responseSerializerCompletions|;
    && m.isFinishing && !InPass(sys)
    && n < |m.responseSerializers|
    && sys.executed == m.responseSerializerCompletions + [m.responseSerializers[n]]
  }

  /** The completions belong to the first serializers, the one that runs is next, and each ran once. */
  predicate Ordered(sys: System)
  {
    var m := sys.locked;
    var n := |m.responseSerializerCompletions|;
    && m.responseSerializerCompletions <= m.responseSerializers
    && (sys.running != [] ==>
          sys.position.Idle? && n < |m.responseSerializers| && sys.running == [m.responseSerializers[n]])
    && (sys.position.Flushing? ==> m.responseSerializers == m.responseSerializerCompletions + sys.late)
    && (!sys.position.Flushing? ==> sys.late == [])
    && (InPass(sys) ==> m.isFinishing && sys.executed == m.responseSerializerCompletions + sys.running)
    && (!InPass(sys) ==>
          Stalled(sys) || (!m.isFinishing && m.responseSerializerCompletions == [] && sys.executed == []))
  }

  function Tokens(sys: System): nat
  {
    sys.attempts + sys.deciding + sys.tickets + |sys.running| + if sys.position.Idle? then 0 else 1
  }

  /** Who may still act on the request. */
  predicate Driven(sys: System)
  {
    var m := sys.locked;
    var flushed := m.responseSerializerProcessingFinished;
    && sys.scheduled == 0
    && (flushed ==> m.responseSerializers == [])
    && (m.state != Cancelled ==> sys.finishCalls == 0 && Tokens(sys) == if flushed then 0 else 1)
    && (m.state != Cancelled && m.isFinishing ==> sys.attempts == 0 && sys.deciding == 0)
    && (sys.liveTask ==> sys.attempts > 0)
    && (m.state == Cancelled && !flushed ==> m.isFinishing || sys.finishCalls > 0 || sys.liveTask)
    && (m.state == Cancelled && sys.position.Resetting? ==> sys.finishCalls > 0)
  }

  /** Every serializer is still registered, or was removed with its completion called, or without. */
  predicate Accounted(sys: System)
  {
    && sys.appended == sys.called + sys.lost + sys.locked.responseSerializers
    && (!sys.locked.responseSerializerProcessingFinished ==> sys.called == [] && sys.lost == [])
  }

  predicate Inv(sys: System)
  {
    Ordered(sys) && Driven(sys) && Accounted(sys)
  }

  // finish() neither disturbs a pass nor starts a second one.
  lemma {:induction false} FinishOrdered(sys: System)
    requires Ordered(sys) && Accounted(sys) && sys.position.Idle?
    ensures Ordered(Finish(sys)) && Accounted(Finish(sys))
  {
  }

  lemma {:induction false} AttemptEndsInv(sys: System, failed: bool)
    requires Inv(sys) && Enabled(sys, AttemptEnds(failed))
    ensures Inv(Apply(sys, AttemptEnds(failed)))
  {
    var ended := sys.(attempts := sys.attempts - 1, liveTask := false);
    assert Ordered(ended) && Accounted(ended);
    FinishOrdered(ended);
    hide Ordered, Accounted;
  }

  lemma {:induction false} DecideInv(sys: System, retry: bool)
    requires Inv(sys) && Enabled(sys, Decide(retry))
    ensures Inv(Apply(sys, Decide(retry)))
  {
    var decided := sys.(deciding := sys.deciding - 1);
    assert Ordered(decided) && Accounted(decided);
    FinishOrdered(decided);
    hide Ordered, Accounted;
  }

  lemma {:induction false} CallFinishInv(sys: System)
    requires Inv(sys) && Enabled(sys, CallFinish)
    ensures Inv(Apply(sys, CallFinish))
  {
    var called := sys.(finishCalls := sys.finishCalls - 1);
    assert Ordered(called) && Accounted(called);
    FinishOrdered(called);
    hide Ordered, Accounted;
  }

  lemma {:induction false} AppendInv(sys: System, id: nat)
    requires Inv(sys) && !sys.locked.responseSerializerProcessingFinished
    ensures Inv(Apply(sys, Append(id)))
  {
  }

  lemma {:induction false} RetryInv(sys: System, e: Event)
    requires Inv(sys) && Enabled(sys, e) && (e.StartRetry? || e.Reset? || e.SerializerRetries?)
    ensures Inv(Apply(sys, e))
  {
  }

  lemma {:induction false} PeekInv(sys: System)
    requires Inv(sys) && sys.position.Peeking?
    ensures Inv(Apply(sys, Peek))
  {
    var m := sys.locked;
    assert sys.executed == m.responseSerializerCompletions;
  }

  lemma {:induction false} FlushAccounted(called: seq<nat>, lost: seq<nat>, completions: seq<nat>, late: seq<nat>)
    requires called + lost == [] || completions + late == []
    ensures (called + completions) + (lost + late) + [] == called + lost + (completions + late)
  {
    if completions + late == [] {
      assert completions == late == [];
    } else {
      assert |called| + |lost| == 0;
    }
  }

  lemma {:induction false} FlushInv(sys: System)
    requires Inv(sys) && sys.position.Flushing?
    ensures Inv(Apply(sys, Flush))
  {
    hide Transition, AppendSection, NextSection, CompleteSection, ResetSection;
    FlushAccounted(sys.called, sys.lost, sys.locked.responseSerializerCompletions, sys.late);
  }

  lemma {:induction false} CompletesInv(sys: System)
    requires Inv(sys) && Enabled(sys, SerializerCompletes)
    ensures Inv(Apply(sys, SerializerCompletes))
  {
  }

  lemma {:induction false} StateIrrelevant(sys: System, state: RequestState, finishCalls: nat)
    requires Ordered(sys) && Accounted(sys)
    ensures var sys' := sys.(locked := sys.locked.(state := state), finishCalls := finishCalls);
      Ordered(sys') && Accounted(sys')
  {
  }

  // cancel, suspend and resume
  lemma {:induction false} TransitionInv(sys: System, e: Event)
    requires Inv(sys) && (e.Cancel? || e.Suspend? || e.Resume?)
    ensures Inv(Apply(sys, e))
  {
    hide Ordered, Accounted, AppendSection, FlushSection, ResetSection, CompleteSection, NextSection, Finish;
    StateIrrelevant(sys, Apply(sys, e).locked.state, Apply(sys, e).finishCalls);
  }

  // An attempt that goes on, or that was cancelled.
  lemma {:induction false} AttemptInv(sys: System, e: Event)
    requires Inv(sys) && Enabled(sys, e) && (e.CreateTask? || e.DropAttempt?)
    ensures Inv(Apply(sys, e))
  {
    hide AppendSection, FlushSection, ResetSection, CompleteSection, NextSection, Transition;
  }

  lemma {:induction false} StepInv(sys: System, e: Event)
    requires Inv(sys) && Enabled(sys, e)
    requires e.Append? ==> !sys.locked.responseSerializerProcessingFinished
    ensures Inv(Apply(sys, e))
  {
    hide Apply, Ordered, Accounted;
    match e
    case Append(id) => AppendInv(sys, id);
    case Peek => PeekInv(sys);
    case Flush => FlushInv(sys);
    case SerializerCompletes => CompletesInv(sys);
    case AttemptEnds(failed) => AttemptEndsInv(sys, failed);
    case Decide(retry) => DecideInv(sys, retry);
    case CallFinish => CallFinishInv(sys);
    case StartRetry => RetryInv(sys, e);
    case Reset => RetryInv(sys, e);
    case SerializerRetries => RetryInv(sys, e);
    case Process =>
    case Cancel(_) => TransitionInv(sys, e);
    case Suspend => TransitionInv(sys, e);
    case Resume => TransitionInv(sys, e);
    case _ => AttemptInv(sys, e);
  }

  lemma {:induction false} RunInv(sys: System, events: seq<Event>, sys': System)
    requires Inv(sys) && Run(sys, events, sys') && InTime(sys, events)
    ensures Inv(sys')
    decreases |events|
  {
    hide Inv, Apply, Enabled;
    if events == [] {
    } else {
      StepInv(sys, events[0]);
      RunInv(Apply(sys, events[0]), events[1..], sys');
    }
  }

  // ---- all runs ----

  ghost predicate Reachable(sys: System)
  {
    exists events :: Run(START, events, sys)
  }

  ghost predicate ReachableInTime(sys: System)
  {
    exists events :: Run(START, events, sys) && InTime(START, events)
  }

  // At most one serializer runs, and it is the first whose completion is not kept
  // yet; the completions called so far are those of the first serializers
  // registered, in that order and each once.
  lemma {:induction false} PipelineSafe(sys: System)
    requires ReachableInTime(sys)
    ensures var m := sys.locked;
      var n := |m.responseSerializerCompletions|;
      && m.responseSerializerCompletions <= m.responseSerializers
      && (sys.running == [] || (n < |m.responseSerializers| && sys.running == [m.responseSerializers[n]]))
      && sys.called <= sys.appended
      && sys.appended == sys.called + sys.lost + m.responseSerializers
  {
    var events :| Run(START, events, sys) && InTime(START, events);
    RunInv(START, events, sys);
  }

  // A flush calls one completion per serializer, in registration order, each
  // serializer having run once since the last reset, exactly when none was appended
  // after nextResponseSerializer returned nil; those that were are removed unrun.
  lemma {:induction false} FlushComplete(sys: System)
    requires ReachableInTime(sys) && sys.position.Flushing?
    ensures var (m', completions) := FlushSection(sys.locked);
      && completions == sys.executed
      && completions + sys.late == sys.locked.responseSerializers
      && (completions == sys.locked.responseSerializers <==> sys.late == [])
      && m'.responseSerializers == []
      && Apply(sys, Flush).lost == sys.lost + sys.late
  {
    var events :| Run(START, events, sys) && InTime(START, events);
    RunInv(START, events, sys);
  }

  /** Nothing can happen any more without a new call from outside. */
  predicate Quiescent(sys: System)
  {
    && sys.position.Idle? && sys.running == []
    && sys.attempts == sys.deciding == sys.tickets == sys.finishCalls == sys.scheduled == 0
  }

  lemma {:induction false} QuiescentStalled(sys: System)
    requires Inv(sys) && Quiescent(sys)
    ensures !Stalled(sys) <==> sys.appended == sys.called + sys.lost
    ensures Stalled(sys) ==>
      sys.locked.state == Cancelled && sys.called == [] && sys.appended == sys.locked.responseSerializers
  {
    assert |sys.appended| == |sys.called| + |sys.lost| + |sys.locked.responseSerializers|;
  }

  /** The retry that a serializer asked for is dropped, because the request was cancelled. */
  predicate DropsRetry(sys: System, e: Event)
  {
    e.StartRetry? && sys.locked.state == Cancelled && Stalled(sys)
  }

  ghost predicate RetryDropped(sys: System, events: seq<Event>)
    decreases |events|
  {
    events != [] && Enabled(sys, events[0])
    && (DropsRetry(sys, events[0]) || RetryDropped(Apply(sys, events[0]), events[1..]))
  }

  /** A pass rests for a retry that will not come. */
  predicate StalledForever(sys: System)
  {
    Stalled(sys) && sys.locked.state == Cancelled && sys.position.Idle?
  }

  /** A pass that rests has its retry granted or under way. */
  predicate StallHasTicket(sys: System)
  {
    Stalled(sys) ==> sys.tickets > 0 || sys.position.Resetting?
  }

  lemma {:induction false} StepStalledForever(sys: System, e: Event)
    requires Inv(sys) && StalledForever(sys) && Enabled(sys, e)
    ensures StalledForever(Apply(sys, e))
  {
    hide Accounted, FlushSection, ResetSection, CompleteSection;
  }

  lemma {:induction false} StepKeepsTicket(sys: System, e: Event)
    requires Inv(sys) && StallHasTicket(sys) && Enabled(sys, e)
    ensures if DropsRetry(sys, e) then StalledForever(Apply(sys, e)) else StallHasTicket(Apply(sys, e))
  {
    hide Accounted, FlushSection, CompleteSection;
  }

  lemma {:induction false} RunStalledForever(sys: System, events: seq<Event>, sys': System)
    requires Run(sys, events, sys') && InTime(sys, events) && Inv(sys) && StalledForever(sys)
    ensures StalledForever(sys')
    decreases |events|
  {
    hide Inv, Apply, Enabled, StalledForever;
    if events == [] {
    } else {
      StepInv(sys, events[0]);
      StepStalledForever(sys, events[0]);
      RunStalledForever(Apply(sys, events[0]), events[1..], sys');
    }
  }

  lemma {:induction false} RunDropsRetry(sys: System, events: seq<Event>, sys': System)
    requires Run(sys, events, sys') && InTime(sys, events) && Inv(sys) && StallHasTicket(sys)
    ensures if RetryDropped(sys, events) then StalledForever(sys') else StallHasTicket(sys')
    decreases |events|
  {
    hide Inv, Apply, Enabled, StalledForever, StallHasTicket, DropsRetry;
    if events == [] {
    } else {
      StepInv(sys, events[0]);
      StepKeepsTicket(sys, events[0]);
      if DropsRetry(sys, events[0]) {
        RunStalledForever(Apply(sys, events[0]), events[1..], sys');
      } else {
        RunDropsRetry(Apply(sys, events[0]), events[1..], sys');
      }
    }
  }

  // When nothing is left to do, every completion was called except those lost to a
  // flush, if and only if the run dropped no serializer's retry; if it did, none was
  // called, and the request stays cancelled with all its serializers.
  lemma {:induction false} QuiescentComplete(events: seq<Event>, sys: System)
    requires Run(START, events, sys) && InTime(START, events) && Quiescent(sys)
    ensures !RetryDropped(START, events) <==> sys.appended == sys.called + sys.lost
    ensures RetryDropped(START, events) ==>
      sys.locked.state == Cancelled && sys.called == [] && sys.appended == sys.locked.responseSerializers
  {
    hide InTime, RetryDropped, Run;
    RunInv(START, events, sys);
    RunDropsRetry(START, events, sys);
    QuiescentStalled(sys);
  }

  /** The state after the event, judged by state and event alone. */
  function NextState(s: RequestState, e: Event): RequestState
  {
    match e
    case Cancel(_) => if s == Initialized || s == Resumed || s == Suspended then Cancelled else s
    case Suspend => if s == Initialized || s == Resumed then Suspended else s
    case Resume => if s == Initialized || s == Suspended then Resumed else s
    case Append(_) => if s == Finished then Resumed else s
    case Flush => if s == Cancelled then Cancelled else Finished
    case _ => s
  }

  function StateAfter(s: RequestState, events: seq<Event>): RequestState
    decreases |events|
  {
    if events == [] then s else StateAfter(NextState(s, events[0]), events[1..])
  }

  lemma {:induction false} StepState(sys: System, e: Event)
    requires Enabled(sys, e)
    ensures Apply(sys, e).locked.state == NextState(sys.locked.state, e)
  {
    hide NextSection, CanTransitionTo;
    match e
    case Cancel(_) => TransitionsAllowed(sys.locked.state, Cancelled);
    case Suspend => TransitionsAllowed(sys.locked.state, Suspended);
    case Resume => TransitionsAllowed(sys.locked.state, Resumed);
    case Flush => TransitionsAllowed(sys.locked.state, Finished);
    case _ =>
  }

  // In every run cancel, suspend and resume reach their state from those that allow it,
  // and nothing else changes the state but a flush and an append to a finished request.
  lemma {:induction false} RunState(sys: System, events: seq<Event>, sys': System)
    requires Run(sys, events, sys')
    ensures sys'.locked.state == StateAfter(sys.locked.state, events)
    decreases |events|
  {
    hide Apply, Enabled, NextState;
    if events == [] {
    } else {
      StepState(sys, events[0]);
      RunState(Apply(sys, events[0]), events[1..], sys');
    }
  }

  // No step leaves the cancelled state, and only an append leaves the finished one.
  lemma {:induction false} StepKeepsTerminal(sys: System, e: Event)
    requires Enabled(sys, e)
    ensures sys.locked.state == Cancelled ==> Apply(sys, e).locked.state == Cancelled
    ensures sys.locked.state == Finished ==>
      Apply(sys, e).locked.state == if e.Append? then Resumed else Finished
  {
    match e
    case Append(_) =>
    case _ =>
  }

  lemma {:induction false} CancelledForever(sys: System, events: seq<Event>, sys': System)
    requires Run(sys, events, sys') && sys.locked.state == Cancelled
    ensures sys'.locked.state == Cancelled
    decreases |events|
  {
    hide Apply, Enabled;
    if events == [] {
    } else {
      StepKeepsTerminal(sys, events[0]);
      CancelledForever(Apply(sys, events[0]), events[1..], sys');
    }
  }

  // ---- serializers appended at any time ----

  /** The event calls finish(). */
  predicate CallsFinish(sys: System, e: Event)
  {
    match e
    case AttemptEnds(failed) => sys.locked.state == Cancelled || !failed
    case Decide(retry) => !retry
    case CallFinish => true
    case _ => false
  }

  /** The event starts a pass over the serializers. */
  predicate StartsPass(sys: System, e: Event)
  {
    e.Process? || (CallsFinish(sys, e) && !sys.locked.isFinishing)
  }

  /** How many passes are under way. */
  function Passes(sys: System): nat
  {
    |sys.running| + if sys.position.Peeking? || sys.position.Flushing? then 1 else 0
  }

  ghost predicate AlwaysOnePass(sys: System, events: seq<Event>)
    decreases |events|
  {
    Passes(sys) <= 1 && (events != [] && Enabled(sys, events[0]) ==> AlwaysOnePass(Apply(sys, events[0]), events[1..]))
  }

  /** No pass starts while a serializer runs. */
  ghost predicate NoOverlap(sys: System, events: seq<Event>)
    decreases |events|
  {
    events != [] && Enabled(sys, events[0]) ==>
      && (StartsPass(sys, events[0]) ==> sys.running == [])
      && NoOverlap(Apply(sys, events[0]), events[1..])
  }

  lemma {:induction false} StepOnePass(sys: System, e: Event)
    requires Passes(sys) <= 1 && Enabled(sys, e)
    ensures Passes(Apply(sys, e)) <= 1 <==> (StartsPass(sys, e) ==> sys.running == [])
  {
    hide AppendSection, FlushSection, ResetSection, CompleteSection, Transition;
  }

  // In any run, late appends included, there is at most one pass throughout exactly
  // when no processing step and no finish() starts one while a serializer runs.
  lemma {:induction false} OnePassIff(sys: System, events: seq<Event>, sys': System)
    requires Run(sys, events, sys') && Passes(sys) <= 1
    ensures AlwaysOnePass(sys, events) <==> NoOverlap(sys, events)
    decreases |events|
  {
    hide Passes, Apply, Enabled, StartsPass;
    if events == [] {
    } else {
      StepOnePass(sys, events[0]);
      if Passes(Apply(sys, events[0])) <= 1 {
        OnePassIff(Apply(sys, events[0]), events[1..], sys');
      } else {
        assert !AlwaysOnePass(Apply(sys, events[0]), events[1..]);
      }
    }
  }

  /** Passes and resets begin only when no serializer runs. */
  ghost predicate Sequential(sys: System, events: seq<Event>)
    decreases |events|
  {
    events != [] && Enabled(sys, events[0]) ==>
      && (StartsPass(sys, events[0]) || events[0].Reset? ==> sys.running == [])
      && Sequential(Apply(sys, events[0]), events[1..])
  }

  /** Completions belong to the first serializers, and the one that runs is next. */
  predicate InOrder(sys: System)
  {
    var m := sys.locked;
    var n := |m.responseSerializerCompletions|;
    && m.responseSerializerCompletions <= m.responseSerializers
    && (sys.running != [] ==>
          && (sys.position.Idle? || sys.position.Resetting?)
          && n < |m.responseSerializers| && sys.running == [m.responseSerializers[n]])
    && (sys.position.Flushing? ==> m.responseSerializers == m.responseSerializerCompletions + sys.late)
    && (!sys.position.Flushing? ==> sys.late == [])
  }

  /** Each registered serializer is still there, had its completion called, or was lost. */
  predicate Kept(sys: System)
  {
    multiset(sys.appended)
    == multiset(sys.called) + multiset(sys.lost) + multiset(sys.locked.responseSerializers)
  }

  lemma {:induction false} StepInOrder(sys: System, e: Event)
    requires InOrder(sys) && Enabled(sys, e) && (StartsPass(sys, e) || e.Reset? ==> sys.running == [])
    ensures InOrder(Apply(sys, e))
  {
    match e
    case Peek => assert sys.running == [];
    case Flush => hide CanTransitionTo;
    case _ =>
  }

  lemma {:induction false} StepKept(sys: System, e: Event)
    requires InOrder(sys) && Kept(sys) && Enabled(sys, e)
    ensures Kept(Apply(sys, e))
  {
    hide InOrder, NextSection, FlushSection, CanTransitionTo;
    match e
    case Flush => FlushKept(sys);
    case Append(id) =>
      assert multiset(sys.appended + [id]) == multiset(sys.appended) + multiset{id};
      assert multiset(sys.locked.responseSerializers + [id]) == multiset(sys.locked.responseSerializers) + multiset{id};
    case _ =>
  }

  lemma {:induction false} FlushKept(sys: System)
    requires InOrder(sys) && Kept(sys) && sys.position.Flushing?
    ensures Kept(Apply(sys, Flush))
  {
    var completions := sys.locked.responseSerializerCompletions;
    assert multiset(completions + sys.late) == multiset(completions) + multiset(sys.late);
    hide CanTransitionTo;
  }

  lemma {:induction false} RunInOrder(sys: System, events: seq<Event>, sys': System)
    requires Run(sys, events, sys') && Sequential(sys, events) && InOrder(sys) && Kept(sys)
    ensures InOrder(sys') && Kept(sys')
    decreases |events|
  {
    hide InOrder, Kept, Apply, Enabled, StartsPass;
    if events == [] {
    } else {
      StepInOrder(sys, events[0]);
      StepKept(sys, events[0]);
      RunInOrder(Apply(sys, events[0]), events[1..], sys');
    }
  }

  // Whenever serializers are appended: if passes and resets begin only when none runs,
  // one runs at a time, the completions stay in order, and no completion is called
  // more often than its serializer was registered.
  lemma {:induction false} SequentialSafe(events: seq<Event>, sys: System, id: nat)
    requires Run(START, events, sys) && Sequential(START, events)
    ensures var m := sys.locked;
      var n := |m.responseSerializerCompletions|;
      && m.responseSerializerCompletions <= m.responseSerializers
      && (sys.running == [] || (n < |m.responseSerializers| && sys.running == [m.responseSerializers[n]]))
      && multiset(sys.called)[id] <= multiset(sys.appended)[id]
  {
    RunInOrder(START, events, sys);
  }

  // Serializers appended in time never make a pass or a reset begin too early.
  lemma {:induction false} InTimeSequential(sys: System, events: seq<Event>, sys': System)
    requires Run(sys, events, sys') && InTime(sys, events) && Inv(sys)
    ensures Sequential(sys, events) && NoOverlap(sys, events)
    decreases |events|
  {
    if events == [] {
    } else {
      assert StartsPass(sys, events[0]) || events[0].Reset? ==> sys.running == [];
      StepInv(sys, events[0]);
      hide Inv, Apply, Enabled, StartsPass;
      InTimeSequential(Apply(sys, events[0]), events[1..], sys');
    }
  }

  // ---- what the conditions are for ----

  lemma {:induction false} RunExtend(a: System, events: seq<Event>, b: System, e: Event)
    requires Run(a, events, b) && Enabled(b, e)
    ensures Run(a, events + [e], Apply(b, e))
    ensures InTime(a, events) && (e.Append? ==> !b.locked.responseSerializerProcessingFinished) ==>
      InTime(a, events + [e])
    decreases |events|
  {
    hide Apply, Enabled;
    var all := events + [e];
    if events == [] {
      assert all[0] == e && all[1..] == [];
    } else {
      assert all[0] == events[0] && all[1..] == events[1..] + [e];
      RunExtend(Apply(a, events[0]), events[1..], b, e);
    }
  }

  /** Reachable in one more step */
  lemma {:induction false} Reach(sys: System, e: Event, sys': System)
    requires Enabled(sys, e) && Apply(sys, e) == sys' && Reachable(sys)
    ensures Reachable(sys')
    ensures ReachableInTime(sys) && (e.Append? ==> !sys.locked.responseSerializerProcessingFinished) ==>
      ReachableInTime(sys')
  {
    hide Apply, Enabled, InTime, Run;
    var events :| Run(START, events, sys);
    RunExtend(START, events, sys, e);
    if ReachableInTime(sys) {
      var timely :| Run(START, timely, sys) && InTime(START, timely);
      RunExtend(START, timely, sys, e);
    }
  }

  lemma {:induction false} StartReachable()
    ensures Reachable(START) && ReachableInTime(START)
  {
    assert Run(START, [], START) && InTime(START, []);
  }

  // A serializer appended between the two locked sections is lost.
  lemma {:induction false} AppendDuringFlushIsLost()
    ensures exists sys :: ReachableInTime(sys) && Quiescent(sys) && sys.appended == sys.lost == [7] && sys.called == []
  {
    hide Reachable, ReachableInTime, Run, InTime;
    StartReachable();
    var ended := START.(attempts := 0, locked := NEW.(isFinishing := true), position := Peeking);
    var peeked := ended.(position := Flushing);
    var appended := peeked.(locked := NEW.(isFinishing := true, responseSerializers := [7]),
                            appended := [7], late := [7]);
    var flushed := START.(attempts := 0, locked := MutableState(Finished, [], [], true, false),
                          appended := [7], lost := [7]);
    Reach(START, AttemptEnds(false), ended);
    Reach(ended, Peek, peeked);
    Reach(peeked, Append(7), appended);
    Reach(appended, Flush, flushed);
    assert Quiescent(flushed);
  }

  lemma {:induction false} OnlyOne(id: nat)
    ensures [id][1..] == [] && [] + [id] == [id]
  {
  }

  /** Serializer 7 runs. */
  const RUNNING := START.(locked := MutableState(Initialized, [7], [], false, true), attempts := 0,
                          running := [7], executed := [7], appended := [7])

  /** It has asked for a retry. */
  const ASKED := RUNNING.(running := [], tickets := 1)

  /** The request is cancelled before the retry starts; finish() is ignored, and so is the retry. */
  const CANCELLED := ASKED.(locked := MutableState(Cancelled, [7], [], false, true), finishCalls := 1)
  const IGNORED := CANCELLED.(finishCalls := 0)
  const DROPPED := IGNORED.(tickets := 0)

  lemma {:induction false} RunningReachable()
    ensures Reachable(RUNNING) && ReachableInTime(RUNNING)
  {
    hide Reachable, ReachableInTime, Run, InTime;
    StartReachable();
    OnlyOne(7);
    var appended := START.(locked := MutableState(Initialized, [7], [], false, false), appended := [7]);
    var ended := appended.(attempts := 0, locked := RUNNING.locked, position := Peeking);
    Reach(START, Append(7), appended);
    Reach(appended, AttemptEnds(false), ended);
    Reach(ended, Peek, RUNNING);
  }

  lemma {:induction false} AskedReachable()
    ensures Reachable(ASKED) && ReachableInTime(ASKED)
  {
    hide Reachable, ReachableInTime, Run, InTime;
    RunningReachable();
    OnlyOne(7);
    Reach(RUNNING, SerializerRetries, ASKED);
  }

  lemma {:induction false} CancelledReachable()
    ensures Reachable(CANCELLED) && ReachableInTime(CANCELLED)
  {
    hide Reachable, ReachableInTime, Run, InTime;
    AskedReachable();
    Reach(ASKED, Cancel(true), CANCELLED);
  }

  lemma {:induction false} DroppedReachable()
    ensures Reachable(DROPPED) && ReachableInTime(DROPPED)
  {
    hide Reachable, ReachableInTime, Run, InTime;
    CancelledReachable();
    Reach(CANCELLED, CallFinish, IGNORED);
    Reach(IGNORED, StartRetry, DROPPED);
  }

  // A failed serializer asks for a retry, the request is cancelled during the delay:
  // the completion is never called.
  lemma {:induction false} CancelledRetryStalls()
    ensures exists sys :: ReachableInTime(sys) && Quiescent(sys) && Stalled(sys) && sys.appended == [7]
  {
    hide Reachable, ReachableInTime, Run, InTime;
    DroppedReachable();
    OnlyOne(7);
    assert Quiescent(DROPPED) && Stalled(DROPPED);
  }

  /** The request finished without serializers; then 7 and 8 are appended. */
  const FLUSHED := START.(attempts := 0, locked := MutableState(Finished, [], [], true, false))
  const ONE := FLUSHED.(locked := MutableState(Resumed, [7], [], true, false), appended := [7], scheduled := 1)
  const TWO := FLUSHED.(locked := MutableState(Resumed, [7, 8], [], true, false), appended := [7, 8], scheduled := 2)
  const ONCE := TWO.(scheduled := 1, running := [7], executed := [7])
  const TWICE := TWO.(scheduled := 0, running := [7, 7], executed := [7, 7])

  lemma {:induction false} FlushedReachable()
    ensures Reachable(FLUSHED)
  {
    hide Reachable, ReachableInTime, Run, InTime;
    StartReachable();
    var ended := START.(attempts := 0, locked := NEW.(isFinishing := true), position := Peeking);
    var peeked := ended.(position := Flushing);
    Reach(START, AttemptEnds(false), ended);
    Reach(ended, Peek, peeked);
    Reach(peeked, Flush, FLUSHED);
  }

  lemma {:induction false} OneReachable()
    ensures Reachable(ONE)
  {
    hide Reachable, ReachableInTime, Run, InTime;
    FlushedReachable();
    Reach(FLUSHED, Append(7), ONE);
  }

  lemma {:induction false} TwoReachable()
    ensures Reachable(TWO)
  {
    hide Reachable, ReachableInTime, Run, InTime;
    OneReachable();
    Reach(ONE, Append(8), TWO);
  }

  // Two serializers appended after the first flush: the first one runs twice at a time.
  lemma {:induction false} LateAppendsRunTwice()
    ensures exists sys :: Reachable(sys) && sys.running == [7, 7] && sys.appended == [7, 8]
  {
    hide Reachable, ReachableInTime, Run, InTime;
    TwoReachable();
    var first, second := TWO.(scheduled := 1, position := Peeking), ONCE.(scheduled := 0, position := Peeking);
    Reach(TWO, Process, first);
    Reach(first, Peek, ONCE);
    Reach(ONCE, Process, second);
    Reach(second, Peek, TWICE);
  }

  /** One serializer appended after the first flush runs; then the request is cancelled. */
  const LATE := FLUSHED.(locked := MutableState(Resumed, [7], [], true, false), appended := [7], running := [7],
                         executed := [7])
  const OVERLAP := LATE.(locked := MutableState(Cancelled, [7], [], true, true), running := [7, 7], executed := [7, 7])
  const CALLED := FLUSHED.(locked := MutableState(Cancelled, [], [], true, false), appended := [7], running := [7],
                           called := [7])
  const CALLED_TWICE := CALLED.(running := [], called := [7, 7])

  const LATE_PEEKING := ONE.(scheduled := 0, position := Peeking)

  lemma {:induction false} LatePeekingReachable()
    ensures Reachable(LATE_PEEKING)
  {
    hide Reachable, ReachableInTime, Run, InTime;
    OneReachable();
    Reach(ONE, Process, LATE_PEEKING);
  }

  lemma {:induction false} LateReachable()
    ensures Reachable(LATE)
  {
    hide Reachable, ReachableInTime, Run, InTime;
    LatePeekingReachable();
    Reach(LATE_PEEKING, Peek, LATE);
  }

  const LATE_CANCELLED := LATE.(locked := MutableState(Cancelled, [7], [], true, false), finishCalls := 1)

  lemma {:induction false} LateCancelledReachable()
    ensures Reachable(LATE_CANCELLED)
  {
    hide Reachable, ReachableInTime, Run, InTime;
    LateReachable();
    Reach(LATE, Cancel(true), LATE_CANCELLED);
  }

  lemma {:induction false} OverlapReachable()
    ensures Reachable(OVERLAP)
  {
    hide Reachable, ReachableInTime, Run, InTime;
    LateCancelledReachable();
    var second := LATE.(locked := OVERLAP.locked, position := Peeking);
    Reach(LATE_CANCELLED, CallFinish, second);
    Reach(second, Peek, OVERLAP);
  }

  lemma {:induction false} CalledReachable()
    ensures Reachable(CALLED)
  {
    hide Reachable, ReachableInTime, Run, InTime;
    OverlapReachable();
    var kept := OVERLAP.(locked := MutableState(Cancelled, [7], [7], true, true), running := [7], position := Peeking);
    var peeked := kept.(position := Flushing);
    assert [7, 7][1..] == [7];
    Reach(OVERLAP, SerializerCompletes, kept);
    Reach(kept, Peek, peeked);
    Reach(peeked, Flush, CALLED);
  }

  const CALLED_KEPT := CALLED.(locked := MutableState(Cancelled, [], [7], true, false), running := [],
                               position := Peeking)

  lemma {:induction false} CalledKeptReachable()
    ensures Reachable(CALLED_KEPT)
  {
    hide Reachable, ReachableInTime, Run, InTime;
    CalledReachable();
    OnlyOne(7);
    Reach(CALLED, SerializerCompletes, CALLED_KEPT);
  }

  // One serializer appended after the first flush, and a cancellation while it runs:
  // its completion is called twice.
  lemma {:induction false} LateAppendCalledTwice()
    ensures exists sys :: Reachable(sys) && sys.appended == [7] && sys.called == [7, 7]
  {
    hide Reachable, ReachableInTime, Run, InTime;
    CalledKeptReachable();
    var peeked := CALLED_KEPT.(position := Flushing);
    Reach(CALLED_KEPT, Peek, peeked);
    Reach(peeked, Flush, CALLED_TWICE);
    assert CALLED_TWICE.called == [7, 7];
  }

  // ---- the class ----

  class Request {
    var state: RequestState
    var responseSerializers: seq<nat>
    var responseSerializerCompletions: seq<nat>
    var responseSerializerProcessingFinished: bool
    var isFinishing: bool

    function State(): MutableState
      reads this
    {
      MutableState(state, responseSerializers, responseSerializerCompletions,
                   responseSerializerProcessingFinished, isFinishing)
    }

    constructor ()
      ensures State() == NEW
    {
      state := Initialized;
      responseSerializers, responseSerializerCompletions := [], [];
      responseSerializerProcessingFinished, isFinishing := false, false;
    }

    method Cancel() returns (done: bool)
      modifies this
      ensures (State(), done) == Transition(old(State()), Cancelled)
    {
      if !CanTransitionTo(state, Cancelled) {
        return false;
      }
      state := Cancelled;
      return true;
    }

    method Suspend() returns (done: bool)
      modifies this
      ensures (State(), done) == Transition(old(State()), Suspended)
    {
      if !CanTransitionTo(state, Suspended) {
        return false;
      }
      state := Suspended;
      return true;
    }

    method Resume() returns (done: bool)
      modifies this
      ensures (State(), done) == Transition(old(State()), Resumed)
    {
      if !CanTransitionTo(state, Resumed) {
        return false;
      }
      state := Resumed;
      return true;
    }

    method AppendResponseSerializer(id: nat) returns (process: bool, resume: bool)
      modifies this
      ensures (State(), process) == AppendSection(old(State()), id)
      ensures resume == (state in {Initialized, Suspended})
    {
      responseSerializers := responseSerializers + [id];
      if state == Finished {
        state := Resumed;
      }
      return responseSerializerProcessingFinished, CanTransitionTo(state, Resumed);
    }

    method NextResponseSerializer() returns (responseSerializer: Option<nat>)
      ensures responseSerializer == NextSection(State())
    {
      var index := |responseSerializerCompletions|;
      if index < |responseSerializers| {
        return Some(responseSerializers[index]);
      }
      return None;
    }

    /** The section of processNextResponseSerializer that runs when no serializer is left. */
    method ClearAll() returns (completions: seq<nat>)
      modifies this
      ensures (State(), completions) == FlushSection(old(State()))
    {
      completions := responseSerializerCompletions;
      responseSerializers := [];
      responseSerializerCompletions := [];
      if CanTransitionTo(state, Finished) {
        state := Finished;
      }
      responseSerializerProcessingFinished := true;
      isFinishing := false;
    }

    /** The section of responseSerializerDidComplete, after which the next serializer is looked up. */
    method KeepCompletion(completion: nat)
      modifies this
      ensures State() == CompleteSection(old(State()), completion)
    {
      responseSerializerCompletions := responseSerializerCompletions + [completion];
    }

    /** finish: whether a pass is to be started; only the underlying queue writes the flag */
    method StartFinishing() returns (started: bool)
      modifies this
      ensures started == !old(isFinishing)
      ensures State() == old(State()).(isFinishing := true)
    {
      if isFinishing {
        return false;
      }
      isFinishing := true;
      return true;
    }

    method Reset()
      modifies this
      ensures State() == ResetSection(old(State()))
    {
      isFinishing := false;
      responseSerializerCompletions := [];
    }
  }
}
