// AuthenticationInterceptor: requests wait in two queues while one credential
// refresh is under way.  The first part is the state machine, whose events are
// the sections that run under the lock and the closures that run between them;
// the second part is the class with its methods.
module RefreshQueue {
  import opened Wire

  datatype Credential = Credential(id: nat)

  datatype AuthError = MissingCredential | ExcessiveRefresh | RefreshFailed

  /** How a submitted completion is eventually called. */
  datatype Outcome =
    | Adapted(credential: Credential)
    | AdaptFailed(error: AuthError)
    | Retry
    | DoNotRetry
    | DoNotRetryWithError(error: AuthError)

  datatype RefreshWindow = RefreshWindow(interval: real, maximumAttempts: int)

  datatype RefreshResult = Success(credential: Credential) | Failure(error: AuthError)

  /** The closure that a finished refresh dispatches with the operations it found queued. */
  datatype Batch = Batch(result: RefreshResult, adapts: seq<nat>, retries: seq<nat>)

  /** MutableState, the part that the lock protects.  Completions are known by number. */
  datatype MutableState = MutableState(
    credential: Option<Credential>,
    isRefreshing: bool,
    refreshTimestamps: seq<real>,
    refreshWindow: Option<RefreshWindow>,
    adaptOperations: seq<nat>,
    requestsToRetry: seq<nat>)

  /** What the sections under the lock leave for later: refreshes started, batches dispatched. */
  datatype Effects = Effects(refreshes: nat, batches: seq<Batch>)

  // ---- the sections under the lock ----

  function CountFrom(timestamps: seq<real>, min: real): (n: nat)
    ensures n <= |timestamps|
  {
    if timestamps == [] then 0
    else (if min <= timestamps[0] then 1 else 0) + CountFrom(timestamps[1..], min)
  }

  /** isRefreshExcessive, reading the clock at `now` */
  predicate Excessive(s: MutableState, now: real)
  {
    s.refreshWindow.Some?
    && CountFrom(s.refreshTimestamps, now - s.refreshWindow.value.interval) >= s.refreshWindow.value.maximumAttempts
  }

  /** handleRefreshSuccess and handleRefreshFailure */
  function Finish(s: MutableState, result: RefreshResult): (MutableState, Batch)
  {
    (s.(credential := if result.Success? then Some(result.credential) else s.credential,
        adaptOperations := [], requestsToRetry := [], isRefreshing := false),
     Batch(result, s.adaptOperations, s.requestsToRetry))
  }

  /** refresh, which reads the clock a second time for the timestamp */
  function Refresh(s: MutableState, now: real, later: real): (MutableState, Effects)
  {
    if Excessive(s, now) then
      var (s', batch) := Finish(s, Failure(ExcessiveRefresh));
      (s', Effects(0, [batch]))
    else
      (s.(refreshTimestamps := s.refreshTimestamps + [later], isRefreshing := true), Effects(1, []))
  }

  /**
   * The locked section of adapt: the outcome, or None if the operation was deferred.
   * stale is what the credential's requiresRefresh, which may change with time, returns.
   */
  function AdaptSection(s: MutableState, id: nat, stale: bool, now: real, later: real)
    : (MutableState, Effects, Option<Outcome>)
  {
    var queued := s.(adaptOperations := s.adaptOperations + [id]);
    if s.isRefreshing then (queued, Effects(0, []), None)
    else if s.credential.None? then (s, Effects(0, []), Some(AdaptFailed(MissingCredential)))
    else if stale then
      var (s', e) := Refresh(queued, now, later);
      (s', e, None)
    else (s, Effects(0, []), Some(Adapted(s.credential.value)))
  }

  /** The locked section of retry */
  function RetrySection(s: MutableState, id: nat, now: real, later: real): (MutableState, Effects)
  {
    var queued := s.(requestsToRetry := s.requestsToRetry + [id]);
    if s.isRefreshing then (queued, Effects(0, [])) else Refresh(queued, now, later)
  }

  // ---- the whole system ----

  /** A completion about to be called, and with what. */
  datatype Call = Call(id: nat, outcome: Outcome)

  datatype System = System(
    locked: MutableState,
    outstanding: nat,             // refreshes started and not yet called back
    batches: seq<Batch>,          // the interceptor's serial queue
    waiting: seq<nat>,            // retries between their checks and the lock
    ready: seq<Call>,             // decided, not yet called
    called: seq<Call>,
    submitted: set<nat>,
    clock: real,
    retries: set<nat>,            // submitted retries that passed the checks
    joined: map<nat, nat>,        // how many refreshes had ended when a retry got the lock
    done: seq<RefreshResult>)     // the results of all refreshes that have ended

  datatype Event =
    | SubmitAdapt(id: nat, stale: bool, now: real, later: real)
    | RejectRetry(id: nat, outcome: Outcome)   // decided by the checks before the lock
    | SubmitRetry(id: nat)                     // the checks passed
    | EnterRetry(now: real, later: real)       // a waiting retry gets the lock
    | RefreshDone(result: RefreshResult)
    | RunQueue(stale: bool, now: real, later: real)  // next operation of the front batch
    | CallNext
    | SetCredential(credential: Option<Credential>)

  function Initial(credential: Option<Credential>, window: Option<RefreshWindow>, clock: real): System
  {
    System(MutableState(credential, false, [], window, [], []), 0, [], [], [], [], {}, clock,
           {}, map[], [])
  }

  /** Clock readings never go back. */
  predicate ClockOK(sys: System, now: real, later: real)
  {
    sys.clock <= now <= later
  }

  predicate Enabled(sys: System, e: Event)
  {
    match e
    case SubmitAdapt(id, _, now, later) => id !in sys.submitted && ClockOK(sys, now, later)
    case RejectRetry(id, outcome) => id !in sys.submitted && !outcome.Adapted? && !outcome.AdaptFailed?
    case SubmitRetry(id) => id !in sys.submitted
    case EnterRetry(now, later) => sys.waiting != [] && ClockOK(sys, now, later)
    case RefreshDone(result) => sys.outstanding > 0
    case RunQueue(_, now, later) => sys.batches != [] && ClockOK(sys, now, later)
    case CallNext => sys.ready != []
    case SetCredential(_) => true
  }

  /** The locked state after a section, with the effects added to the system. */
  function WithEffects(sys: System, locked: MutableState, e: Effects): System
  {
    sys.(locked := locked, outstanding := sys.outstanding + e.refreshes, batches := sys.batches + e.batches,
         done := sys.done + Results(e.batches))
  }

  function Results(batches: seq<Batch>): (r: seq<RefreshResult>)
    ensures |r| == |batches| && forall i :: 0 <= i < |r| ==> r[i] == batches[i].result
  {
    seq(|batches|, i requires 0 <= i < |batches| => batches[i].result)
  }

  /** stale is what the credential's requiresRefresh returns under the lock */
  function Adapt(sys: System, id: nat, stale: bool, now: real, later: real): System
  {
    var (s, e, r) := AdaptSection(sys.locked, id, stale, now, later);
    var sys' := WithEffects(sys, s, e).(clock := later);
    if r.Some? then sys'.(ready := sys'.ready + [Call(id, r.value)]) else sys'
  }

  function RetryOutcome(r: RefreshResult): Outcome
  {
    if r.Success? then Retry else DoNotRetryWithError(r.error)
  }

  /** The front batch goes on: adapt operations first, then retries, then it is done. */
  function RunBatch(sys: System, stale: bool, now: real, later: real): System
    requires sys.batches != []
  {
    var b := sys.batches[0];
    if b.adapts != [] then
      var rest := sys.(batches := sys.batches[0 := b.(adapts := b.adapts[1..])]);
      if b.result.Success? then Adapt(rest, b.adapts[0], stale, now, later)
      else rest.(ready := rest.ready + [Call(b.adapts[0], AdaptFailed(b.result.error))])
    else if b.retries != [] then
      sys.(batches := sys.batches[0 := b.(retries := b.retries[1..])],
           ready := sys.ready + [Call(b.retries[0], RetryOutcome(b.result))])
    else sys.(batches := sys.batches[1..])
  }

  function Apply(sys: System, e: Event): System
    requires Enabled(sys, e)
  {
    match e
    case SubmitAdapt(id, stale, now, later) => Adapt(sys.(submitted := sys.submitted + {id}), id, stale, now, later)
    case RejectRetry(id, outcome) =>
      sys.(submitted := sys.submitted + {id}, ready := sys.ready + [Call(id, outcome)])
    case SubmitRetry(id) =>
      sys.(submitted := sys.submitted + {id}, retries := sys.retries + {id}, waiting := sys.waiting + [id])
    case EnterRetry(now, later) =>
      var (s, eff) := RetrySection(sys.locked, sys.waiting[0], now, later);
      var joined := sys.joined[sys.waiting[0] := |sys.done|];
      WithEffects(sys.(waiting := sys.waiting[1..], joined := joined), s, eff).(clock := later)
    case RefreshDone(result) =>
      var (s, batch) := Finish(sys.locked, result);
      WithEffects(sys.(outstanding := sys.outstanding - 1), s, Effects(0, [batch]))
    case RunQueue(stale, now, later) => RunBatch(sys, stale, now, later)
    case CallNext => sys.(ready := sys.ready[1..], called := sys.called + [sys.ready[0]])
    case SetCredential(c) => sys.(locked := sys.locked.(credential := c))
  }

  /** sys' is reached from sys by the events. */
  predicate Run(sys: System, events: seq<Event>, sys': System)
    decreases |events|
  {
    if events == [] then sys' == sys
    else Enabled(sys, events[0]) && Run(Apply(sys, events[0]), events[1..], sys')
  }

  // ---- queue safety ----

  /** Operations wait only while a refresh is under way, and exactly one refresh is then outstanding. */
  predicate QueueSafe(sys: System)
  {
    && (sys.locked.adaptOperations != [] || sys.locked.requestsToRetry != [] ==> sys.locked.isRefreshing)
    && sys.outstanding == (if sys.locked.isRefreshing then 1 else 0)
  }

  lemma {:induction false} StepQueueSafe(sys: System, e: Event)
    requires QueueSafe(sys) && Enabled(sys, e)
    ensures QueueSafe(Apply(sys, e))
  {
    hide Excessive;
  }

  // ---- every completion is in exactly one place ----

  function Occurs(s: seq<nat>, id: nat): nat
  {
    if s == [] then 0 else (if s[0] == id then 1 else 0) + Occurs(s[1..], id)
  }

  function OccursInCalls(calls: seq<Call>, id: nat): nat
  {
    if calls == [] then 0 else (if calls[0].id == id then 1 else 0) + OccursInCalls(calls[1..], id)
  }

  function OccursInBatches(batches: seq<Batch>, id: nat): nat
  {
    if batches == [] then 0
    else Occurs(batches[0].adapts, id) + Occurs(batches[0].retries, id) + OccursInBatches(batches[1..], id)
  }

  /** How often the completion is queued, dispatched, waiting for the lock, decided or called. */
  function Places(sys: System, id: nat): nat
  {
    Occurs(sys.locked.adaptOperations, id) + Occurs(sys.locked.requestsToRetry, id)
    + OccursInBatches(sys.batches, id) + Occurs(sys.waiting, id)
    + OccursInCalls(sys.ready, id) + OccursInCalls(sys.called, id)
  }

  /** Every submitted completion is in exactly one place, and no other is anywhere. */
  ghost predicate Conserved(sys: System)
  {
    forall id: nat :: Places(sys, id) == if id in sys.submitted then 1 else 0
  }

  lemma {:induction false} OccursAppend(s: seq<nat>, x: nat, id: nat)
    ensures Occurs(s + [x], id) == Occurs(s, id) + if x == id then 1 else 0
  {
    if s == [] {
      assert [x][1..] == [];
    } else {
      OccursAppend(s[1..], x, id);
      assert (s + [x])[1..] == s[1..] + [x];
    }
  }

  lemma {:induction false} CallsAppend(a: seq<Call>, c: Call, id: nat)
    ensures OccursInCalls(a + [c], id) == OccursInCalls(a, id) + if c.id == id then 1 else 0
  {
    if a == [] {
      assert [c][1..] == [];
    } else {
      CallsAppend(a[1..], c, id);
      assert (a + [c])[1..] == a[1..] + [c];
    }
  }

  lemma {:induction false} BatchesAppend(a: seq<Batch>, b: Batch, id: nat)
    ensures OccursInBatches(a + [b], id) == OccursInBatches(a, id) + Occurs(b.adapts, id) + Occurs(b.retries, id)
  {
    if a == [] {
      assert [b][1..] == [];
    } else {
      BatchesAppend(a[1..], b, id);
      assert (a + [b])[1..] == a[1..] + [b];
    }
  }

  function InQueues(s: MutableState, id: nat): nat
  {
    Occurs(s.adaptOperations, id) + Occurs(s.requestsToRetry, id)
  }

  // A refresh moves operations at most from the queues into a dispatched batch.
  lemma {:induction false} RefreshConserves(batches: seq<Batch>, s: MutableState, now: real, later: real, id: nat)
    ensures var (s', e) := Refresh(s, now, later);
      InQueues(s', id) + OccursInBatches(batches + e.batches, id) == InQueues(s, id) + OccursInBatches(batches, id)
  {
    hide Excessive;
    if Excessive(s, now) {
      BatchesAppend(batches, Batch(Failure(ExcessiveRefresh), s.adaptOperations, s.requestsToRetry), id);
    } else {
      assert batches + [] == batches;
    }
  }

  // The section of adapt puts the operation into exactly one place.
  lemma {:induction false} AdaptConserves(sys: System, op: nat, stale: bool, now: real, later: real, id: nat)
    ensures Places(Adapt(sys, op, stale, now, later), id) == Places(sys, id) + if op == id then 1 else 0
    ensures Adapt(sys, op, stale, now, later).submitted == sys.submitted
  {
    hide Refresh, Occurs, OccursInBatches, OccursInCalls;
    var s := sys.locked;
    var queued := s.(adaptOperations := s.adaptOperations + [op]);
    OccursAppend(s.adaptOperations, op, id);
    RefreshConserves(sys.batches, queued, now, later, id);
    assert sys.batches + [] == sys.batches;
    if !s.isRefreshing && s.credential.None? {
      CallsAppend(sys.ready, Call(op, AdaptFailed(MissingCredential)), id);
    } else if !s.isRefreshing && !stale {
      CallsAppend(sys.ready, Call(op, Adapted(s.credential.value)), id);
    }
  }

  lemma {:induction false} EnterConserves(sys: System, now: real, later: real, id: nat)
    requires Enabled(sys, EnterRetry(now, later))
    ensures Places(Apply(sys, EnterRetry(now, later)), id) == Places(sys, id)
  {
    hide Refresh, OccursInBatches, OccursInCalls;
    var s, op := sys.locked, sys.waiting[0];
    OccursAppend(s.requestsToRetry, op, id);
    RefreshConserves(sys.batches, s.(requestsToRetry := s.requestsToRetry + [op]), now, later, id);
    assert sys.batches + [] == sys.batches;
  }

  lemma {:induction false} RunConserves(sys: System, stale: bool, now: real, later: real, id: nat)
    requires sys.batches != []
    ensures Places(RunBatch(sys, stale, now, later), id) == Places(sys, id)
    ensures RunBatch(sys, stale, now, later).submitted == sys.submitted
  {
    hide Adapt, OccursInCalls;
    var b := sys.batches[0];
    if b.adapts != [] {
      var rest := sys.(batches := sys.batches[0 := b.(adapts := b.adapts[1..])]);
      assert rest.batches[1..] == sys.batches[1..];
      AdaptConserves(rest, b.adapts[0], stale, now, later, id);
      if b.result.Failure? {
        CallsAppend(rest.ready, Call(b.adapts[0], AdaptFailed(b.result.error)), id);
      }
    } else if b.retries != [] {
      assert sys.batches[0 := b.(retries := b.retries[1..])][1..] == sys.batches[1..];
      CallsAppend(sys.ready, Call(b.retries[0], RetryOutcome(b.result)), id);
    }
  }

  /** The completion that an event submits. */
  function Submits(e: Event): set<nat>
  {
    match e
    case SubmitAdapt(id, _, _, _) => {id}
    case RejectRetry(id, _) => {id}
    case SubmitRetry(id) => {id}
    case _ => {}
  }

  lemma {:induction false} StepPlaces(sys: System, e: Event, id: nat)
    requires Enabled(sys, e)
    ensures Places(Apply(sys, e), id) == Places(sys, id) + if id in Submits(e) then 1 else 0
    ensures Apply(sys, e).submitted == sys.submitted + Submits(e)
  {
    hide Refresh, Adapt, RunBatch, OccursInBatches;
    match e
    case SubmitAdapt(op, stale, now, later) =>
      AdaptConserves(sys.(submitted := sys.submitted + {op}), op, stale, now, later, id);
    case RejectRetry(op, outcome) => CallsAppend(sys.ready, Call(op, outcome), id);
    case SubmitRetry(op) => OccursAppend(sys.waiting, op, id);
    case EnterRetry(now, later) => EnterConserves(sys, now, later, id);
    case RefreshDone(result) =>
      BatchesAppend(sys.batches, Batch(result, sys.locked.adaptOperations, sys.locked.requestsToRetry), id);
    case RunQueue(stale, now, later) => RunConserves(sys, stale, now, later, id);
    case CallNext => CallsAppend(sys.called, sys.ready[0], id);
    case SetCredential(_) =>
  }

  lemma {:induction false} StepConserved(sys: System, e: Event)
    requires Conserved(sys) && Enabled(sys, e)
    ensures Conserved(Apply(sys, e))
  {
    hide Places, Apply;
    forall id: nat
      ensures Places(Apply(sys, e), id) == if id in Apply(sys, e).submitted then 1 else 0
    {
      StepPlaces(sys, e, id);
    }
  }

  // ---- what a retry is answered with ----

  /** The operations belong to adapt. */
  predicate AdaptIds(sys: System, ids: seq<nat>)
  {
    forall i :: 0 <= i < |ids| ==> ids[i] in sys.submitted && ids[i] !in sys.retries
  }

  /** The retries got the lock when k refreshes had ended. */
  predicate JoinedAt(sys: System, ids: seq<nat>, k: int)
  {
    forall i :: 0 <= i < |ids| ==> ids[i] in sys.joined && sys.joined[ids[i]] == k
  }

  predicate WaitingOK(sys: System)
  {
    && (forall i :: 0 <= i < |sys.waiting| ==> sys.waiting[i] in sys.retries && sys.waiting[i] !in sys.joined)
    && (forall i, j :: 0 <= i < j < |sys.waiting| ==> sys.waiting[i] != sys.waiting[j])
    && sys.joined.Keys <= sys.retries <= sys.submitted
  }

  /** The waiting batches belong to the last refreshes that ended, in order. */
  predicate BatchesOK(sys: System)
  {
    var first := |sys.done| - |sys.batches|;
    && first >= 0
    && forall i :: 0 <= i < |sys.batches| ==>
         && sys.batches[i].result == sys.done[first + i]
         && AdaptIds(sys, sys.batches[i].adapts) && JoinedAt(sys, sys.batches[i].retries, first + i)
  }

  predicate QueuesOK(sys: System)
  {
    AdaptIds(sys, sys.locked.adaptOperations) && JoinedAt(sys, sys.locked.requestsToRetry, |sys.done|)
  }

  /** A retry is answered with the result of the first refresh that ended after it got the lock. */
  predicate Answered(sys: System, c: Call)
  {
    && c.id in sys.joined && sys.joined[c.id] < |sys.done|
    && c.outcome == match sys.done[sys.joined[c.id]]
                    case Success(_) => Retry
                    case Failure(error) => DoNotRetryWithError(error)
  }

  predicate CallsOK(sys: System, calls: seq<Call>)
  {
    forall i :: 0 <= i < |calls| ==>
      calls[i].id in sys.submitted && (calls[i].id in sys.retries ==> Answered(sys, calls[i]))
  }

  predicate Answering(sys: System)
  {
    WaitingOK(sys) && BatchesOK(sys) && QueuesOK(sys) && CallsOK(sys, sys.ready) && CallsOK(sys, sys.called)
  }

  // Ending a refresh, at once if it is excessive or later, hands the queues to its batch.
  lemma {:induction false} EffectsAnswering(sys: System, s: MutableState, e: Effects)
    requires Answering(sys) && |e.batches| <= 1
    requires if e.batches == []
             then s.adaptOperations == sys.locked.adaptOperations && s.requestsToRetry == sys.locked.requestsToRetry
             else e.batches[0].adapts == sys.locked.adaptOperations
                  && e.batches[0].retries == sys.locked.requestsToRetry
                  && s.adaptOperations == s.requestsToRetry == []
    ensures Answering(WithEffects(sys, s, e))
  {
    var sys' := WithEffects(sys, s, e);
    assert forall k :: 0 <= k < |sys.done| ==> sys'.done[k] == sys.done[k];
    assert forall i :: 0 <= i < |sys.batches| ==> sys'.batches[i] == sys.batches[i];
    assert forall c: Call :: Answered(sys, c) ==> Answered(sys', c);
    hide Answered;
  }

  lemma {:induction false} RefreshAnswering(sys: System, now: real, later: real)
    requires Answering(sys)
    ensures var (s, e) := Refresh(sys.locked, now, later);
      Answering(WithEffects(sys, s, e))
  {
    hide Excessive, Answering;
    var (s, e) := Refresh(sys.locked, now, later);
    EffectsAnswering(sys, s, e);
  }

  // Nothing else of the system matters.
  lemma {:induction false} SameAnswering(sys: System, sys': System)
    requires Answering(sys)
    requires sys'.locked.adaptOperations == sys.locked.adaptOperations
    requires sys'.locked.requestsToRetry == sys.locked.requestsToRetry
    requires sys'.batches == sys.batches && sys'.waiting == sys.waiting && sys'.done == sys.done
    requires sys'.ready == sys.ready && sys'.called == sys.called
    requires sys'.submitted == sys.submitted && sys'.retries == sys.retries && sys'.joined == sys.joined
    ensures Answering(sys')
  {
    assert forall c: Call :: Answered(sys, c) ==> Answered(sys', c);
    hide Answered;
  }

  lemma {:induction false} ReadyAnswering(sys: System, c: Call)
    requires Answering(sys) && c.id in sys.submitted && (c.id in sys.retries ==> Answered(sys, c))
    ensures Answering(sys.(ready := sys.ready + [c]))
  {
    var sys' := sys.(ready := sys.ready + [c]);
    assert forall x: Call :: Answered(sys, x) ==> Answered(sys', x);
    hide Answered;
  }

  lemma {:induction false} QueueAnswering(sys: System, id: nat)
    requires Answering(sys) && id in sys.submitted && id !in sys.retries
    ensures Answering(sys.(locked := sys.locked.(adaptOperations := sys.locked.adaptOperations + [id])))
  {
    var sys' := sys.(locked := sys.locked.(adaptOperations := sys.locked.adaptOperations + [id]));
    assert forall c: Call :: Answered(sys, c) ==> Answered(sys', c);
    hide Answered;
  }

  // A new completion that is not a retry's.
  lemma {:induction false} SubmitAnswering(sys: System, id: nat)
    requires Answering(sys) && id !in sys.submitted
    ensures Answering(sys.(submitted := sys.submitted + {id}))
  {
    var sys' := sys.(submitted := sys.submitted + {id});
    assert forall c: Call :: Answered(sys, c) ==> Answered(sys', c);
    hide Answered;
  }

  lemma {:induction false} SubmitRetryAnswering(sys: System, id: nat)
    requires Answering(sys) && id !in sys.submitted
    ensures Answering(Apply(sys, SubmitRetry(id)))
  {
    var sys' := Apply(sys, SubmitRetry(id));
    assert forall c: Call :: Answered(sys, c) ==> Answered(sys', c);
    hide Answered;
  }

  lemma {:induction false} AdaptAnswering(sys: System, id: nat, stale: bool, now: real, later: real)
    requires Answering(sys) && id in sys.submitted && id !in sys.retries
    ensures Answering(Adapt(sys, id, stale, now, later))
  {
    hide Answering, Answered, Refresh;
    var s := sys.locked;
    var queued := sys.(locked := s.(adaptOperations := s.adaptOperations + [id]));
    QueueAnswering(sys, id);
    var (s', e, r) := AdaptSection(s, id, stale, now, later);
    var out := WithEffects(sys, s', e);
    if s.isRefreshing {
      EffectsAnswering(queued, s', e);
    } else if s.credential.Some? && stale {
      RefreshAnswering(queued, now, later);
      assert out == WithEffects(queued, s', e);
    } else {
      EffectsAnswering(sys, s', e);
    }
    SameAnswering(out, out.(clock := later));
    if r.Some? {
      ReadyAnswering(out.(clock := later), Call(id, r.value));
    }
  }

  lemma {:induction false} JoinAnswering(sys: System)
    requires Answering(sys) && sys.waiting != []
    ensures var op := sys.waiting[0];
      Answering(sys.(waiting := sys.waiting[1..], joined := sys.joined[op := |sys.done|],
                     locked := sys.locked.(requestsToRetry := sys.locked.requestsToRetry + [op])))
  {
    var op := sys.waiting[0];
    var sys' := sys.(waiting := sys.waiting[1..], joined := sys.joined[op := |sys.done|],
                     locked := sys.locked.(requestsToRetry := sys.locked.requestsToRetry + [op]));
    assert forall c: Call :: Answered(sys, c) ==> Answered(sys', c);
    hide Answered;
  }

  lemma {:induction false} EnterAnswering(sys: System, now: real, later: real)
    requires Answering(sys) && Enabled(sys, EnterRetry(now, later))
    ensures Answering(Apply(sys, EnterRetry(now, later)))
  {
    hide Answering, Refresh;
    var op := sys.waiting[0];
    var s := sys.locked;
    var entered := sys.(waiting := sys.waiting[1..], joined := sys.joined[op := |sys.done|],
                        locked := s.(requestsToRetry := s.requestsToRetry + [op]));
    JoinAnswering(sys);
    var (s', e) := RetrySection(s, op, now, later);
    if s.isRefreshing {
      EffectsAnswering(entered, s', e);
    } else {
      RefreshAnswering(entered, now, later);
    }
    var out := WithEffects(entered, s', e);
    SameAnswering(out, out.(clock := later));
  }

  // The front batch loses its first adapt operation, or its first retry, or is done.
  lemma {:induction false} FrontAnswering(sys: System)
    requires Answering(sys) && sys.batches != []
    ensures var b := sys.batches[0];
      && (b.adapts != [] ==>
            && b.adapts[0] in sys.submitted && b.adapts[0] !in sys.retries
            && Answering(sys.(batches := sys.batches[0 := b.(adapts := b.adapts[1..])])))
      && (b.retries != [] ==>
            && b.retries[0] in sys.submitted && Answered(sys, Call(b.retries[0], RetryOutcome(b.result)))
            && Answering(sys.(batches := sys.batches[0 := b.(retries := b.retries[1..])])))
      && (b.adapts == [] && b.retries == [] ==> Answering(sys.(batches := sys.batches[1..])))
  {
    var b := sys.batches[0];
    assert b.retries != [] ==> b.retries[0] in sys.joined;
    FrontCalls(sys, sys.(batches := sys.batches[0 := b.(adapts := if b.adapts == [] then [] else b.adapts[1..])]));
    FrontCalls(sys, sys.(batches := sys.batches[0 := b.(retries := if b.retries == [] then [] else b.retries[1..])]));
    FrontCalls(sys, sys.(batches := sys.batches[1..]));
    hide CallsOK;
  }

  lemma {:induction false} FrontCalls(sys: System, sys': System)
    requires Answering(sys) && sys' == sys.(batches := sys'.batches)
    ensures CallsOK(sys', sys.ready) && CallsOK(sys', sys.called)
  {
    assert forall c: Call :: Answered(sys, c) ==> Answered(sys', c);
    hide Answered, BatchesOK, QueuesOK, WaitingOK;
  }

  lemma {:induction false} RunAnswering(sys: System, stale: bool, now: real, later: real)
    requires Answering(sys) && sys.batches != []
    ensures Answering(RunBatch(sys, stale, now, later))
  {
    hide Answering, Answered, Adapt;
    FrontAnswering(sys);
    var b := sys.batches[0];
    if b.adapts != [] {
      var rest := sys.(batches := sys.batches[0 := b.(adapts := b.adapts[1..])]);
      if b.result.Success? {
        AdaptAnswering(rest, b.adapts[0], stale, now, later);
      } else {
        ReadyAnswering(rest, Call(b.adapts[0], AdaptFailed(b.result.error)));
      }
    } else if b.retries != [] {
      var c := Call(b.retries[0], RetryOutcome(b.result));
      var rest := sys.(batches := sys.batches[0 := b.(retries := b.retries[1..])]);
      StillAnswered(sys, rest, c);
      ReadyAnswering(rest, c);
    }
  }

  lemma {:induction false} StillAnswered(sys: System, sys': System, c: Call)
    requires Answered(sys, c) && sys'.joined == sys.joined && sys'.done == sys.done
    ensures Answered(sys', c)
  {
  }

  lemma {:induction false} CallAnswering(sys: System)
    requires Answering(sys) && sys.ready != []
    ensures Answering(sys.(ready := sys.ready[1..], called := sys.called + [sys.ready[0]]))
  {
    var sys' := sys.(ready := sys.ready[1..], called := sys.called + [sys.ready[0]]);
    assert forall c: Call :: Answered(sys, c) ==> Answered(sys', c);
    hide Answered;
  }

  lemma {:induction false} StepAnswering(sys: System, e: Event)
    requires Answering(sys) && Enabled(sys, e)
    ensures Answering(Apply(sys, e))
  {
    hide Answering, Answered, Adapt, RunBatch, Refresh;
    match e
    case SubmitAdapt(id, stale, now, later) =>
      SubmitAnswering(sys, id);
      RetriesSubmitted(sys);
      AdaptAnswering(sys.(submitted := sys.submitted + {id}), id, stale, now, later);
    case RejectRetry(id, outcome) =>
      SubmitAnswering(sys, id);
      RetriesSubmitted(sys);
      ReadyAnswering(sys.(submitted := sys.submitted + {id}), Call(id, outcome));
    case SubmitRetry(id) => SubmitRetryAnswering(sys, id);
    case EnterRetry(now, later) => EnterAnswering(sys, now, later);
    case RefreshDone(result) =>
      var (s, batch) := Finish(sys.locked, result);
      var less := sys.(outstanding := sys.outstanding - 1);
      SameAnswering(sys, less);
      EffectsAnswering(less, s, Effects(0, [batch]));
    case RunQueue(stale, now, later) => RunAnswering(sys, stale, now, later);
    case CallNext => CallAnswering(sys);
    case SetCredential(c) => SameAnswering(sys, sys.(locked := sys.locked.(credential := c)));
  }

  lemma {:induction false} RetriesSubmitted(sys: System)
    requires Answering(sys)
    ensures sys.retries <= sys.submitted
  {
  }

  lemma {:induction false} RunKeepsAnswering(sys: System, events: seq<Event>, sys': System)
    requires Run(sys, events, sys') && Answering(sys)
    ensures Answering(sys')
    decreases |events|
  {
    hide Answering, Apply, Enabled;
    if events == [] {
    } else {
      StepAnswering(sys, events[0]);
      RunKeepsAnswering(Apply(sys, events[0]), events[1..], sys');
    }
  }

  // In every run: a retry that passed the checks is answered with the result of the very
  // first refresh that ends after it got the lock, be it its own, another's, or the
  // excessive one that fails at once.
  lemma {:induction false} RetriesAnswered(c: Option<Credential>, w: Option<RefreshWindow>, clock: real,
                                           events: seq<Event>, sys: System, call: Call)
    requires Run(Initial(c, w, clock), events, sys) && call in sys.called && call.id in sys.retries
    ensures call.id in sys.joined && sys.joined[call.id] < |sys.done|
    ensures call.outcome == match sys.done[sys.joined[call.id]]
                            case Success(_) => Retry
                            case Failure(error) => DoNotRetryWithError(error)
  {
    RunKeepsAnswering(Initial(c, w, clock), events, sys);
    assert Answered(sys, call);
  }

  // ---- which credential is stored and used ----

  /** What the event leaves as the credential, judged by the event alone. */
  function Wrote(e: Event, c: Option<Credential>): Option<Credential>
  {
    match e
    case SetCredential(x) => x
    case RefreshDone(Success(k)) => Some(k)
    case _ => c
  }

  /** The credential written last, by the user or by a successful refresh. */
  function LastWritten(c: Option<Credential>, events: seq<Event>): Option<Credential>
    decreases |events|
  {
    if events == [] then c else LastWritten(Wrote(events[0], c), events[1..])
  }

  lemma {:induction false} StepCredential(sys: System, e: Event)
    requires Enabled(sys, e)
    ensures Apply(sys, e).locked.credential == Wrote(e, sys.locked.credential)
  {
    hide Excessive;
  }

  lemma {:induction false} RunCredential(sys: System, events: seq<Event>, sys': System)
    requires Run(sys, events, sys')
    ensures sys'.locked.credential == LastWritten(sys.locked.credential, events)
    decreases |events|
  {
    hide Apply, Enabled, Wrote;
    if events == [] {
    } else {
      StepCredential(sys, events[0]);
      RunCredential(Apply(sys, events[0]), events[1..], sys');
    }
  }

  // In every run the stored credential is the one written last.
  lemma {:induction false} ReachableCredential(c: Option<Credential>, w: Option<RefreshWindow>, clock: real,
                                               events: seq<Event>, sys: System)
    requires Run(Initial(c, w, clock), events, sys)
    ensures sys.locked.credential == LastWritten(c, events)
  {
    RunCredential(Initial(c, w, clock), events, sys);
  }

  /** The event runs the locked section of adapt for the operation. */
  predicate RunsAdapt(sys: System, e: Event, id: nat)
  {
    || (e.SubmitAdapt? && e.id == id)
    || (e.RunQueue? && sys.batches != [] && sys.batches[0].adapts != [] && sys.batches[0].adapts[0] == id
        && sys.batches[0].result.Success?)
  }

  /** The event gives the operation up with the error of the refresh that its batch belongs to. */
  predicate FailsAdapt(sys: System, e: Event, id: nat, error: AuthError)
  {
    && e.RunQueue? && sys.batches != [] && sys.batches[0].adapts != [] && sys.batches[0].adapts[0] == id
    && sys.batches[0].result == Failure(error)
  }

  predicate FoundStale(e: Event)
  {
    (e.SubmitAdapt? && e.stale) || (e.RunQueue? && e.stale)
  }

  /** The event answers the call, the credential being cred. */
  predicate Explains(sys: System, e: Event, cred: Option<Credential>, c: Call)
  {
    match c.outcome
    case Adapted(k) => RunsAdapt(sys, e, c.id) && cred == Some(k) && !FoundStale(e)
    case AdaptFailed(error) =>
      || (RunsAdapt(sys, e, c.id) && cred == None && error == MissingCredential)
      || FailsAdapt(sys, e, c.id, error)
    case _ => true
  }

  predicate Decided(sys: System, c: Call)
  {
    c in sys.ready || c in sys.called
  }

  lemma {:induction false} StepExplains(sys: System, e: Event, c: Call)
    requires Enabled(sys, e) && Decided(Apply(sys, e), c)
    ensures Decided(sys, c) || Explains(sys, e, sys.locked.credential, c)
  {
    hide Refresh;
  }

  /** At some point of the run an event answered the call, with the credential written last before it. */
  ghost predicate Explained(sys: System, events: seq<Event>, c: Call)
  {
    exists n: nat, mid: System :: ExplainedAt(sys, events, c, n, mid)
  }

  ghost predicate ExplainedAt(sys: System, events: seq<Event>, c: Call, n: nat, mid: System)
  {
    && n < |events| && Run(sys, events[..n], mid) && Enabled(mid, events[n])
    && Explains(mid, events[n], LastWritten(sys.locked.credential, events[..n]), c)
  }

  lemma {:induction false} ExplainedLater(sys: System, events: seq<Event>, c: Call)
    requires events != [] && Enabled(sys, events[0]) && Explained(Apply(sys, events[0]), events[1..], c)
    ensures Explained(sys, events, c)
  {
    hide Apply, Enabled, Explains, Wrote;
    var n: nat, mid: System :| ExplainedAt(Apply(sys, events[0]), events[1..], c, n, mid);
    StepCredential(sys, events[0]);
    assert events[..n + 1][0] == events[0] && events[..n + 1][1..] == events[1..][..n];
    assert events[n + 1] == events[1..][n];
    assert ExplainedAt(sys, events, c, n + 1, mid);
  }

  lemma {:induction false} RunExplains(sys: System, events: seq<Event>, sys': System, c: Call)
    requires Run(sys, events, sys') && Decided(sys', c)
    ensures Decided(sys, c) || Explained(sys, events, c)
    decreases |events|
  {
    hide Apply, Enabled, Explains, Decided;
    if events == [] {
    } else {
      RunExplains(Apply(sys, events[0]), events[1..], sys', c);
      if Decided(Apply(sys, events[0]), c) {
        StepExplains(sys, events[0], c);
        if !Decided(sys, c) {
          assert Run(sys, events[..0], sys);
          assert ExplainedAt(sys, events, c, 0, sys);
        }
      } else {
        ExplainedLater(sys, events, c);
      }
    }
  }

  // In every run: a request was adapted with the credential written last when its section
  // ran, which did not require a refresh then; it failed for want of a credential only
  // when there was none, and otherwise with the error of the refresh that held it.
  lemma {:induction false} AdaptsAnswered(c: Option<Credential>, w: Option<RefreshWindow>, clock: real,
                                          events: seq<Event>, sys: System, call: Call)
    requires Run(Initial(c, w, clock), events, sys) && call in sys.called
    ensures Explained(Initial(c, w, clock), events, call)
  {
    RunExplains(Initial(c, w, clock), events, sys, call);
  }

  // ---- when a refresh is let through ----

  lemma {:induction false} CountFromAppend(timestamps: seq<real>, t: real, min: real)
    ensures CountFrom(timestamps + [t], min) == CountFrom(timestamps, min) + if min <= t then 1 else 0
  {
    if timestamps == [] {
      assert [t][1..] == [];
    } else {
      CountFromAppend(timestamps[1..], t, min);
      assert (timestamps + [t])[1..] == timestamps[1..] + [t];
    }
  }

  /** The positions of the timestamps from lo to hi. */
  function Within(timestamps: seq<real>, lo: real, hi: Option<real>): set<nat>
  {
    set i: nat | i < |timestamps| && lo <= timestamps[i] && (hi.Some? ==> timestamps[i] <= hi.value)
  }

  lemma {:induction false} WithinMembers(timestamps: seq<real>, t: real, lo: real, hi: Option<real>, i: nat)
    ensures i in Within(timestamps + [t], lo, hi)
       <==> i in Within(timestamps, lo, hi) || (i == |timestamps| && lo <= t && (hi.Some? ==> t <= hi.value))
    ensures i in Within(timestamps, lo, hi) ==> i < |timestamps|
  {
  }

  lemma {:induction false} WithinAppend(timestamps: seq<real>, t: real, lo: real, hi: Option<real>)
    ensures |Within(timestamps + [t], lo, hi)|
         == |Within(timestamps, lo, hi)| + if lo <= t && (hi.Some? ==> t <= hi.value) then 1 else 0
  {
    hide Within;
    var all, before := Within(timestamps + [t], lo, hi), Within(timestamps, lo, hi);
    var last: set<nat> := if lo <= t && (hi.Some? ==> t <= hi.value) then {|timestamps|} else {};
    forall i: nat
      ensures i in all <==> i in before || i in last
      ensures i in before ==> i < |timestamps|
    {
      WithinMembers(timestamps, t, lo, hi, i);
    }
    assert all == before + last && before !! last;
  }

  lemma {:induction false} CountFromIsSize(timestamps: seq<real>, min: real)
    ensures CountFrom(timestamps, min) == |Within(timestamps, min, None)|
    decreases |timestamps|
  {
    if timestamps == [] {
      assert Within([], min, None) == {};
    } else {
      var n := |timestamps| - 1;
      assert timestamps == timestamps[..n] + [timestamps[n]];
      CountFromIsSize(timestamps[..n], min);
      CountFromAppend(timestamps[..n], timestamps[n], min);
      WithinAppend(timestamps[..n], timestamps[n], min, None);
    }
  }

  /** A refresh is refused at the given time: at least the allowed number falls into the interval before it. */
  predicate Refused(s: MutableState, now: real)
  {
    s.refreshWindow.Some?
    && |set i: nat | i < |s.refreshTimestamps| && now - s.refreshWindow.value.interval <= s.refreshTimestamps[i]|
       >= s.refreshWindow.value.maximumAttempts
  }

  lemma {:induction false} ExcessiveIff(s: MutableState, now: real)
    ensures Excessive(s, now) <==> Refused(s, now)
  {
    if s.refreshWindow.Some? {
      var min := now - s.refreshWindow.value.interval;
      CountFromIsSize(s.refreshTimestamps, min);
      assert Within(s.refreshTimestamps, min, None)
          == set i: nat | i < |s.refreshTimestamps| && min <= s.refreshTimestamps[i];
    }
  }

  /** The event asks for a refresh: none is under way, and a retry gets the lock or adapt finds its credential stale. */
  predicate WantsRefresh(sys: System, e: Event)
  {
    !sys.locked.isRefreshing
    && match e
       case SubmitAdapt(_, stale, _, _) => sys.locked.credential.Some? && stale
       case RunQueue(stale, _, _) =>
         && sys.batches != [] && sys.batches[0].adapts != [] && sys.batches[0].result.Success?
         && sys.locked.credential.Some? && stale
       case EnterRetry(_, _) => true
       case _ => false
  }

  function FirstReading(e: Event): real
  {
    match e
    case SubmitAdapt(_, _, now, _) => now
    case RunQueue(_, now, _) => now
    case EnterRetry(now, _) => now
    case _ => 0.0
  }

  function SecondReading(e: Event): real
  {
    match e
    case SubmitAdapt(_, _, _, later) => later
    case RunQueue(_, _, later) => later
    case EnterRetry(_, later) => later
    case _ => 0.0
  }

  // What every step does to the refreshes: one that is asked for and not refused is
  // started and stamped, and nothing fails; one that is refused fails at once; a refresh
  // that ends does so with the result it was called back with; nothing else happens.
  lemma {:induction false} StepRefreshes(sys: System, e: Event)
    requires QueueSafe(sys) && Enabled(sys, e)
    ensures var s, sys' := sys.locked, Apply(sys, e);
      var s' := sys'.locked;
      if WantsRefresh(sys, e) && !Refused(s, FirstReading(e)) then
        && sys.outstanding == 0 && sys'.outstanding == 1 && s'.isRefreshing
        && sys'.done == sys.done && |sys'.batches| == |sys.batches|
        && s'.refreshTimestamps == s.refreshTimestamps + [SecondReading(e)]
      else
        && s'.refreshTimestamps == s.refreshTimestamps
        && sys'.done == sys.done + (if WantsRefresh(sys, e) then [Failure(ExcessiveRefresh)]
                                    else if e.RefreshDone? then [e.result] else [])
        && sys'.outstanding == if WantsRefresh(sys, e) || e.RefreshDone? then 0 else sys.outstanding
  {
    hide Excessive, Refused;
    match e
    case SubmitAdapt(id, _, now, _) =>
      ExcessiveIff(sys.locked.(adaptOperations := sys.locked.adaptOperations + [id]), now);
      RefusedSame(sys.locked, sys.locked.(adaptOperations := sys.locked.adaptOperations + [id]), now);
    case RunQueue(_, now, _) =>
      if sys.batches[0].adapts != [] {
        var queued := sys.locked.(adaptOperations := sys.locked.adaptOperations + [sys.batches[0].adapts[0]]);
        ExcessiveIff(queued, now);
        RefusedSame(sys.locked, queued, now);
      }
    case EnterRetry(now, _) =>
      var queued := sys.locked.(requestsToRetry := sys.locked.requestsToRetry + [sys.waiting[0]]);
      ExcessiveIff(queued, now);
      RefusedSame(sys.locked, queued, now);
    case _ =>
  }

  lemma {:induction false} RefusedSame(s: MutableState, s': MutableState, now: real)
    requires s'.refreshTimestamps == s.refreshTimestamps && s'.refreshWindow == s.refreshWindow
    ensures Refused(s', now) == Refused(s, now)
  {
  }

  /** The times of the refreshes that the run starts. */
  function Started(sys: System, events: seq<Event>): seq<real>
    decreases |events|
  {
    if events == [] || !Enabled(sys, events[0]) then []
    else
      var sys' := Apply(sys, events[0]);
      (if sys'.outstanding > sys.outstanding then [SecondReading(events[0])] else []) + Started(sys', events[1..])
  }

  lemma {:induction false} RunStarted(sys: System, events: seq<Event>, sys': System)
    requires Run(sys, events, sys') && QueueSafe(sys)
    ensures sys'.locked.refreshTimestamps == sys.locked.refreshTimestamps + Started(sys, events)
    decreases |events|
  {
    hide Apply, Enabled, Refused, WantsRefresh;
    if events == [] {
    } else {
      StepRefreshes(sys, events[0]);
      StepQueueSafe(sys, events[0]);
      RunStarted(Apply(sys, events[0]), events[1..], sys');
      var s, rest := sys.locked.refreshTimestamps, Started(Apply(sys, events[0]), events[1..]);
      assert s + [] + rest == s + ([] + rest);
      assert s + [SecondReading(events[0])] + rest == s + ([SecondReading(events[0])] + rest);
    }
  }

  // ---- the sliding window ----

  /** The number of timestamps in the closed window from lo to hi. */
  function CountIn(timestamps: seq<real>, lo: real, hi: real): nat
  {
    if timestamps == [] then 0
    else (if lo <= timestamps[0] <= hi then 1 else 0) + CountIn(timestamps[1..], lo, hi)
  }

  /** Each refresh was preceded by fewer than the allowed number within the interval before it. */
  predicate Spaced(timestamps: seq<real>, w: RefreshWindow)
  {
    forall i :: 0 <= i < |timestamps| ==>
      CountFrom(timestamps[..i], timestamps[i] - w.interval) < w.maximumAttempts
  }

  predicate WindowKept(sys: System, w: RefreshWindow)
  {
    sys.locked.refreshWindow == Some(w) && Spaced(sys.locked.refreshTimestamps, w)
  }

  lemma {:induction false} CountFromMonotone(timestamps: seq<real>, min: real, min': real)
    requires min <= min'
    ensures CountFrom(timestamps, min') <= CountFrom(timestamps, min)
  {
    if timestamps == [] {
    } else {
      CountFromMonotone(timestamps[1..], min, min');
    }
  }

  lemma {:induction false} WindowCountedFrom(timestamps: seq<real>, lo: real, hi: real, min: real)
    requires min <= lo
    ensures CountIn(timestamps, lo, hi) <= CountFrom(timestamps, min)
  {
    if timestamps == [] {
    } else {
      WindowCountedFrom(timestamps[1..], lo, hi, min);
    }
  }

  lemma {:induction false} CountInAppend(timestamps: seq<real>, t: real, lo: real, hi: real)
    ensures CountIn(timestamps + [t], lo, hi) == CountIn(timestamps, lo, hi) + if lo <= t <= hi then 1 else 0
  {
    if timestamps == [] {
      assert [t][1..] == [];
    } else {
      CountInAppend(timestamps[1..], t, lo, hi);
      assert (timestamps + [t])[1..] == timestamps[1..] + [t];
    }
  }

  lemma {:induction false} CountInIsSize(timestamps: seq<real>, lo: real, hi: real)
    ensures CountIn(timestamps, lo, hi) == |Within(timestamps, lo, Some(hi))|
    decreases |timestamps|
  {
    if timestamps == [] {
      assert Within([], lo, Some(hi)) == {};
    } else {
      var n := |timestamps| - 1;
      assert timestamps == timestamps[..n] + [timestamps[n]];
      CountInIsSize(timestamps[..n], lo, hi);
      CountInAppend(timestamps[..n], timestamps[n], lo, hi);
      WithinAppend(timestamps[..n], timestamps[n], lo, Some(hi));
    }
  }

  // Spaced refreshes: every closed window of the interval's length, wherever it
  // lies, holds at most the allowed number.
  lemma {:induction false} SpacedBoundsWindow(timestamps: seq<real>, w: RefreshWindow, lo: real)
    requires Spaced(timestamps, w) && w.maximumAttempts >= 0
    ensures CountIn(timestamps, lo, lo + w.interval) <= w.maximumAttempts
    decreases |timestamps|
  {
    if timestamps == [] {
    } else {
      var n := |timestamps| - 1;
      var before, t := timestamps[..n], timestamps[n];
      assert timestamps == before + [t];
      assert forall i :: 0 <= i < n ==> before[..i] == timestamps[..i];
      SpacedBoundsWindow(before, w, lo);
      CountInAppend(before, t, lo, lo + w.interval);
      if lo <= t <= lo + w.interval {
        WindowCountedFrom(before, lo, lo + w.interval, t - w.interval);
      }
    }
  }

  // The clock is read once for the check and again for the timestamp.
  lemma {:induction false} RefreshKeepsWindow(s: MutableState, w: RefreshWindow, now: real, later: real)
    requires s.refreshWindow == Some(w) && Spaced(s.refreshTimestamps, w) && now <= later
    ensures var (s', _) := Refresh(s, now, later);
      s'.refreshWindow == Some(w) && Spaced(s'.refreshTimestamps, w)
  {
    var ts := s.refreshTimestamps;
    if !Excessive(s, now) {
      CountFromMonotone(ts, now - w.interval, later - w.interval);
      assert (ts + [later])[..|ts|] == ts;
      assert forall i :: 0 <= i < |ts| ==> (ts + [later])[..i] == ts[..i];
    }
    hide CountFrom;
  }

  lemma {:induction false} StepKeepsWindow(sys: System, w: RefreshWindow, e: Event)
    requires WindowKept(sys, w) && Enabled(sys, e)
    ensures WindowKept(Apply(sys, e), w)
  {
    hide Refresh, Spaced;
    var s := sys.locked;
    match e
    case SubmitAdapt(id, _, now, later) =>
      RefreshKeepsWindow(s.(adaptOperations := s.adaptOperations + [id]), w, now, later);
    case EnterRetry(now, later) =>
      RefreshKeepsWindow(s.(requestsToRetry := s.requestsToRetry + [sys.waiting[0]]), w, now, later);
    case RunQueue(_, now, later) =>
      var b := sys.batches[0];
      if b.adapts != [] {
        RefreshKeepsWindow(s.(adaptOperations := s.adaptOperations + [b.adapts[0]]), w, now, later);
      }
    case _ =>
  }

  // ---- all runs ----

  // Whatever the interleaving of submissions, refreshes, callbacks and queued work.
  lemma {:induction false} RunSafe(sys: System, events: seq<Event>, sys': System)
    requires Run(sys, events, sys') && QueueSafe(sys) && Conserved(sys)
    ensures QueueSafe(sys') && Conserved(sys')
    decreases |events|
  {
    if events == [] {
    } else {
      StepQueueSafe(sys, events[0]);
      StepConserved(sys, events[0]);
      RunSafe(Apply(sys, events[0]), events[1..], sys');
    }
  }

  lemma {:induction false} RunKeepsWindow(sys: System, w: RefreshWindow, events: seq<Event>, sys': System)
    requires Run(sys, events, sys') && WindowKept(sys, w)
    ensures WindowKept(sys', w)
    decreases |events|
  {
    if events == [] {
    } else {
      StepKeepsWindow(sys, w, events[0]);
      RunKeepsWindow(Apply(sys, events[0]), w, events[1..], sys');
    }
  }

  // Queue safety in every reachable state of a new interceptor.
  lemma {:induction false} ReachableSafe(c: Option<Credential>, w: Option<RefreshWindow>, clock: real,
                                         events: seq<Event>, sys: System)
    requires Run(Initial(c, w, clock), events, sys)
    ensures QueueSafe(sys) && Conserved(sys)
    ensures forall id: nat :: OccursInCalls(sys.called, id) <= 1
  {
    RunSafe(Initial(c, w, clock), events, sys);
    forall id: nat
      ensures OccursInCalls(sys.called, id) <= 1
    {
      assert Places(sys, id) <= 1;
    }
  }

  // The refresh bound in every reachable state: in no closed time window of the
  // configured length were more refreshes started than allowed.
  lemma {:induction false} ReachableRateBounded(c: Option<Credential>, w: RefreshWindow, clock: real,
                                                events: seq<Event>, sys: System, lo: real)
    requires Run(Initial(c, Some(w), clock), events, sys) && w.maximumAttempts >= 0
    ensures CountIn(sys.locked.refreshTimestamps, lo, lo + w.interval) <= w.maximumAttempts
    ensures var started := Started(Initial(c, Some(w), clock), events);
      |set i: nat | i < |started| && lo <= started[i] <= lo + w.interval| <= w.maximumAttempts
  {
    hide Started;
    var started := Started(Initial(c, Some(w), clock), events);
    RunStarted(Initial(c, Some(w), clock), events, sys);
    assert [] + started == started;
    CountInIsSize(started, lo, lo + w.interval);
    assert Within(started, lo, Some(lo + w.interval))
        == set i: nat | i < |started| && lo <= started[i] <= lo + w.interval;
    RunKeepsWindow(Initial(c, Some(w), clock), w, events, sys);
    SpacedBoundsWindow(sys.locked.refreshTimestamps, w, lo);
  }

  /** Nothing is left to do: no refresh outstanding, nothing dispatched, waiting or decided. */
  predicate Quiescent(sys: System)
  {
    sys.outstanding == 0 && sys.batches == [] && sys.waiting == [] && sys.ready == []
  }

  // No completion is forgotten: once nothing is left to do, each submitted
  // completion was called exactly once.
  lemma {:induction false} NothingForgotten(c: Option<Credential>, w: Option<RefreshWindow>, clock: real,
                                            events: seq<Event>, sys: System, id: nat)
    requires Run(Initial(c, w, clock), events, sys) && Quiescent(sys)
    ensures OccursInCalls(sys.called, id) == if id in sys.submitted then 1 else 0
  {
    ReachableSafe(c, w, clock, events, sys);
    assert Places(sys, id) == if id in sys.submitted then 1 else 0;
  }

  // ---- the class ----

  class AuthenticationInterceptor {
    var credential: Option<Credential>
    var isRefreshing: bool
    var refreshTimestamps: seq<real>
    var refreshWindow: Option<RefreshWindow>
    var adaptOperations: seq<nat>
    var requestsToRetry: seq<nat>

    // What was handed to the serial queue: refreshes to start and batches to run.
    var refreshes: nat
    var queue: seq<Batch>

    function State(): MutableState
      reads this
    {
      MutableState(credential, isRefreshing, refreshTimestamps, refreshWindow, adaptOperations, requestsToRetry)
    }

    constructor (credential: Option<Credential>, refreshWindow: Option<RefreshWindow>)
      ensures State() == Initial(credential, refreshWindow, 0.0).locked && refreshes == 0 && queue == []
    {
      this.credential, this.refreshWindow := credential, refreshWindow;
      isRefreshing, refreshTimestamps, adaptOperations, requestsToRetry := false, [], [], [];
      refreshes, queue := 0, [];
    }

    /** Effects since the old state are exactly e. */
    twostate predicate Added(e: Effects)
      reads this
    {
      refreshes == old(refreshes) + e.refreshes && queue == old(queue) + e.batches
    }

    method IsRefreshExcessive(now: real) returns (excessive: bool)
      ensures excessive == Excessive(State(), now) == Refused(State(), now)
    {
      ExcessiveIff(State(), now);
      if refreshWindow.None? {
        return false;
      }
      var refreshWindowMin := now - refreshWindow.value.interval;
      var attempts := 0;
      var i := 0;
      assert refreshTimestamps[0..] == refreshTimestamps;
      while i < |refreshTimestamps|
        invariant i <= |refreshTimestamps|
        invariant attempts + CountFrom(refreshTimestamps[i..], refreshWindowMin)
               == CountFrom(refreshTimestamps, refreshWindowMin)
      {
        if refreshWindowMin <= refreshTimestamps[i] {
          attempts := attempts + 1;
        }
        assert refreshTimestamps[i..][1..] == refreshTimestamps[i + 1..];
        i := i + 1;
      }
      return attempts >= refreshWindow.value.maximumAttempts;
    }

    /** handleRefreshSuccess and handleRefreshFailure */
    method HandleRefresh(result: RefreshResult)
      modifies this
      ensures var (s, batch) := Finish(old(State()), result);
        State() == s && Added(Effects(0, [batch]))
    {
      if result.Success? {
        credential := Some(result.credential);
      }
      var adapts, retries := adaptOperations, requestsToRetry;
      adaptOperations := [];
      requestsToRetry := [];
      isRefreshing := false;
      queue := queue + [Batch(result, adapts, retries)];
    }

    method StartRefresh(now: real, later: real)
      modifies this
      ensures var (s, e) := Refresh(old(State()), now, later);
        State() == s && Added(e)
    {
      hide CountFrom;
      var excessive := IsRefreshExcessive(now);
      if excessive {
        HandleRefresh(Failure(ExcessiveRefresh));
        return;
      }
      refreshTimestamps := refreshTimestamps + [later];
      isRefreshing := true;
      refreshes := refreshes + 1;
    }

    /**
     * adapt: what the completion is called with at once, unless the operation was
     * deferred.  stale is what the credential's requiresRefresh returns.
     */
    method Adapt(id: nat, stale: bool, now: real, later: real) returns (outcome: Option<Outcome>)
      modifies this
      ensures var (s, e, r) := AdaptSection(old(State()), id, stale, now, later);
        State() == s && Added(e) && outcome == r
    {
      hide Refresh;
      if isRefreshing {
        adaptOperations := adaptOperations + [id];
        return None;
      }
      if credential.None? {
        return Some(AdaptFailed(MissingCredential));
      }
      if stale {
        adaptOperations := adaptOperations + [id];
        StartRefresh(now, later);
        return None;
      }
      return Some(Adapted(credential.value));
    }

    /**
     * The checks of retry, before the lock is taken, for a request with or without a
     * response, whose failure the authenticator does or does not attribute to
     * authentication, and which was or was not authenticated with the credential read
     * here.  None stands for going on to the queue.
     */
    method CheckRetry(hasResponse: bool, authFailure: bool, usedCurrent: bool) returns (outcome: Option<Outcome>)
      ensures outcome.None? <==> hasResponse && authFailure && credential.Some? && usedCurrent
      ensures outcome == Some(Retry) <==> hasResponse && authFailure && credential.Some? && !usedCurrent
      ensures outcome == Some(DoNotRetryWithError(MissingCredential)) <==>
        hasResponse && authFailure && credential.None?
      ensures outcome == Some(DoNotRetry) <==> !(hasResponse && authFailure)
    {
      if !hasResponse || !authFailure {
        return Some(DoNotRetry);
      }
      if credential.None? {
        return Some(DoNotRetryWithError(MissingCredential));
      }
      if !usedCurrent {
        return Some(Retry);
      }
      return None;
    }

    /** The locked section of retry */
    method QueueRetry(id: nat, now: real, later: real)
      modifies this
      ensures var (s, e) := RetrySection(old(State()), id, now, later);
        State() == s && Added(e)
    {
      hide Refresh;
      requestsToRetry := requestsToRetry + [id];
      if isRefreshing {
        return;
      }
      StartRefresh(now, later);
    }
  }
}
