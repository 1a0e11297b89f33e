// DataStreamRequest: received data goes to every stream's parser, and the completion
// of a stream that arrives while parsers are still at work waits for the last of them.
module StreamCompletion {
  import opened Wire

  /** StreamMutableState.  Streams, and with them their completions, are known by number. */
  datatype StreamMutableState = StreamMutableState(
    streams: seq<nat>,
    numberOfExecutingStreams: int,
    enqueuedCompletionEvents: seq<nat>)

  const NEW := StreamMutableState([], 0, [])

  /** One call of a stream's parser. */
  datatype Parse = Parse(stream: nat, data: seq<byte>)

  // ---- the sections under the lock ----

  function Calls(streams: seq<nat>, data: seq<byte>): (calls: seq<Parse>)
    ensures |calls| == |streams|
    ensures forall i :: 0 <= i < |streams| ==> calls[i] == Parse(streams[i], data)
  {
    if streams == [] then [] else [Parse(streams[0], data)] + Calls(streams[1..], data)
  }

  /** didReceive: the new state and the parser calls put on the underlying queue */
  function ReceiveSection(s: StreamMutableState, data: seq<byte>): (StreamMutableState, seq<Parse>)
  {
    (s.(numberOfExecutingStreams := s.numberOfExecutingStreams + |s.streams|), Calls(s.streams, data))
  }

  /** updateAndCompleteIfPossible: the new state and the completion events put on the underlying queue */
  function FinishSection(s: StreamMutableState): (StreamMutableState, seq<nat>)
  {
    var n := s.numberOfExecutingStreams - 1;
    if n == 0 && s.enqueuedCompletionEvents != [] then
      (s.(numberOfExecutingStreams := n, enqueuedCompletionEvents := []), s.enqueuedCompletionEvents)
    else
      (s.(numberOfExecutingStreams := n), [])
  }

  /** The section of a stream's completion: the new state, and whether it is scheduled at once. */
  function CompletionSection(s: StreamMutableState, id: nat): (StreamMutableState, bool)
  {
    if s.numberOfExecutingStreams == 0 then (s, true)
    else (s.(enqueuedCompletionEvents := s.enqueuedCompletionEvents + [id]), false)
  }

  // ---- the whole system ----

  datatype System = System(
    locked: StreamMutableState,
    posted: seq<seq<Parse>>,    // received data waiting on the underlying queue
    executing: seq<Parse>,      // parsers at work, on whichever queue
    batches: seq<seq<nat>>,     // completion events waiting on the underlying queue
    scheduled: seq<nat>,        // completions handed to their own queue
    reached: seq<nat>,          // completions that came to the lock
    begun: seq<Parse>,          // parser calls taken from the underlying queue, in order
    finished: seq<Parse>)       // parser calls that have finished

  const START := System(NEW, [], [], [], [], [], [], [])

  datatype Event =
    | AddStream(id: nat)
    | Receive(data: seq<byte>)
    | RunParsers
    | ParserFinishes(index: nat)
    | CompletionReaches(id: nat)
    | RunCompletions

  predicate Enabled(sys: System, e: Event)
  {
    match e
    case AddStream(id) => id !in sys.locked.streams
    case Receive(_) => true
    case RunParsers => sys.posted != []
    case ParserFinishes(i) => i < |sys.executing|
    case CompletionReaches(id) => id !in sys.reached
    case RunCompletions => sys.batches != []
  }

  function Apply(sys: System, e: Event): System
    requires Enabled(sys, e)
  {
    var s := sys.locked;
    match e
    case AddStream(id) => sys.(locked := s.(streams := s.streams + [id]))
    case Receive(data) =>
      var (s', calls) := ReceiveSection(s, data);
      sys.(locked := s', posted := sys.posted + [calls])
    case RunParsers =>
      sys.(posted := sys.posted[1..], executing := sys.executing + sys.posted[0], begun := sys.begun + sys.posted[0])
    case ParserFinishes(i) =>
      var (s', events) := FinishSection(s);
      sys.(locked := s', executing := sys.executing[..i] + sys.executing[i + 1..],
           finished := sys.finished + [sys.executing[i]],
           batches := if events != [] then sys.batches + [events] else sys.batches)
    case CompletionReaches(id) =>
      var (s', now) := CompletionSection(s, id);
      sys.(locked := s', reached := sys.reached + [id],
           scheduled := if now then sys.scheduled + [id] else sys.scheduled)
    case RunCompletions => sys.(batches := sys.batches[1..], scheduled := sys.scheduled + sys.batches[0])
  }

  ghost predicate Run(sys: System, events: seq<Event>, sys': System)
    decreases |events|
  {
    if events == [] then sys == sys'
    else Enabled(sys, events[0]) && Run(Apply(sys, events[0]), events[1..], sys')
  }

  // ---- the invariants ----

  function Flat<T>(parts: seq<seq<T>>): seq<T>
  {
    if parts == [] then [] else parts[0] + Flat(parts[1..])
  }

  lemma {:induction false} FlatAppend<T>(parts: seq<seq<T>>, part: seq<T>)
    ensures Flat(parts + [part]) == Flat(parts) + part
  {
    if parts == [] {
      assert Flat([part]) == part + Flat([part][1..]);
    } else {
      assert (parts + [part])[1..] == parts[1..] + [part];
      FlatAppend(parts[1..], part);
    }
  }

  /** The counter is the number of parser calls made and not yet finished, and completions wait only for those. */
  predicate Counted(sys: System)
  {
    && sys.locked.numberOfExecutingStreams == |Flat(sys.posted)| + |sys.executing|
    && (sys.locked.enqueuedCompletionEvents != [] ==> sys.locked.numberOfExecutingStreams > 0)
  }

  function Places(sys: System): multiset<nat>
  {
    multiset(sys.locked.enqueuedCompletionEvents) + multiset(Flat(sys.batches)) + multiset(sys.scheduled)
  }

  /** Each completion that reached the lock waits, is on its way, or was scheduled: once in all. */
  predicate Conserved(sys: System)
  {
    && multiset(sys.reached) == Places(sys)
    && (forall id <- sys.reached :: multiset(sys.reached)[id] == 1)
    && (forall i :: 0 <= i < |sys.batches| ==> sys.batches[i] != [])
  }

  /** Completions are on their way only when no parser has anything left to do. */
  predicate Settled(sys: System)
  {
    sys.batches != [] || sys.scheduled != [] ==> sys.locked.numberOfExecutingStreams == 0
  }

  lemma {:induction false} StepCounted(sys: System, e: Event)
    requires Counted(sys) && Enabled(sys, e)
    ensures Counted(Apply(sys, e))
  {
    hide Places;
    match e
    case Receive(data) => FlatAppend(sys.posted, Calls(sys.locked.streams, data));
    case _ =>
  }

  lemma {:induction false} FinishConserves(sys: System, i: nat)
    requires i < |sys.executing|
    ensures Places(Apply(sys, ParserFinishes(i))) == Places(sys)
  {
    FlatAppend(sys.batches, sys.locked.enqueuedCompletionEvents);
    hide Flat;
  }

  lemma {:induction false} RunConserves(sys: System)
    requires sys.batches != []
    ensures Places(Apply(sys, RunCompletions)) == Places(sys)
  {
    assert Flat(sys.batches) == sys.batches[0] + Flat(sys.batches[1..]);
    hide Flat;
  }

  lemma {:induction false} ReachConserved(sys: System, id: nat)
    requires Conserved(sys) && id !in sys.reached
    ensures Conserved(Apply(sys, CompletionReaches(id)))
  {
    hide Flat;
    var sys' := Apply(sys, CompletionReaches(id));
    assert multiset(sys.reached)[id] == 0;
    assert Places(sys') == Places(sys) + multiset{id};
    forall r | r in sys'.reached
      ensures multiset(sys'.reached)[r] == 1
    {
      assert r == id || r in sys.reached;
    }
  }

  lemma {:induction false} StepConserved(sys: System, e: Event)
    requires Conserved(sys) && Enabled(sys, e)
    ensures Conserved(Apply(sys, e))
  {
    hide Flat;
    match e
    case ParserFinishes(i) => FinishConserves(sys, i);
    case CompletionReaches(id) => ReachConserved(sys, id);
    case RunCompletions => RunConserves(sys);
    case _ =>
  }

  lemma {:induction false} RunInv(sys: System, events: seq<Event>, sys': System)
    requires Run(sys, events, sys') && Counted(sys) && Conserved(sys)
    ensures Counted(sys') && Conserved(sys')
    decreases |events|
  {
    hide Counted, Conserved, Apply, Enabled;
    if events == [] {
    } else {
      StepCounted(sys, events[0]);
      StepConserved(sys, events[0]);
      RunInv(Apply(sys, events[0]), events[1..], sys');
    }
  }

  // In every reachable state, whatever the interleaving.
  lemma {:induction false} ReachableCounted(events: seq<Event>, sys: System)
    requires Run(START, events, sys)
    ensures Counted(sys) && Conserved(sys)
  {
    RunInv(START, events, sys);
  }

  // A completion leaves the lock, at once or with the others that waited, only in a
  // step that ends with the counter at zero; at zero none waits.
  lemma {:induction false} DecidedAtZero(events: seq<Event>, sys: System, e: Event, id: nat)
    requires Run(START, events, sys) && Enabled(sys, e)
    ensures var sys' := Apply(sys, e);
      var waits := id in sys.locked.enqueuedCompletionEvents;
      var waits' := id in sys'.locked.enqueuedCompletionEvents;
      && (waits && !waits' ==>
            && sys'.locked.numberOfExecutingStreams == 0
            && sys'.batches == sys.batches + [sys.locked.enqueuedCompletionEvents])
      && (e == CompletionReaches(id) && !waits' ==>
            sys'.locked.numberOfExecutingStreams == 0 && sys'.scheduled == sys.scheduled + [id])
      && (sys'.locked.numberOfExecutingStreams == 0 ==> sys'.locked.enqueuedCompletionEvents == [])
  {
    hide Flat, Conserved;
    ReachableCounted(events, sys);
    StepCounted(sys, e);
  }

  // ---- what the parsers are given ----

  /** The parser calls that events alone ask for: received data goes to each stream added before. */
  function Asked(streams: seq<nat>, events: seq<Event>): seq<Parse>
    decreases |events|
  {
    if events == [] then []
    else
      match events[0]
      case AddStream(id) => Asked(streams + [id], events[1..])
      case Receive(data) =>
        seq(|streams|, i requires 0 <= i < |streams| => Parse(streams[i], data)) + Asked(streams, events[1..])
      case _ => Asked(streams, events[1..])
  }

  /** Calls made are on the underlying queue, at work or finished. */
  predicate Handled(sys: System)
  {
    multiset(sys.begun) == multiset(sys.executing) + multiset(sys.finished)
  }

  lemma {:induction false} StepHandled(sys: System, e: Event)
    requires Handled(sys) && Enabled(sys, e)
    ensures Handled(Apply(sys, e))
  {
    hide Places, Flat;
    if e.ParserFinishes? {
      var x, i := sys.executing, e.index;
      assert x == x[..i] + [x[i]] + x[i + 1..];
    }
  }

  lemma {:induction false} AskedOnReceive(streams: seq<nat>, data: seq<byte>, events: seq<Event>)
    requires events != [] && events[0] == Receive(data)
    ensures Asked(streams, events) == Calls(streams, data) + Asked(streams, events[1..])
  {
    assert Calls(streams, data) == seq(|streams|, i requires 0 <= i < |streams| => Parse(streams[i], data));
  }

  lemma {:induction false} Regroup<T>(a: seq<T>, b: seq<T>, c: seq<T>)
    ensures (a + b) + c == a + (b + c)
  {
  }

  lemma {:induction false} StepAsked(sys: System, e: Event, events: seq<Event>)
    requires Enabled(sys, e) && events != [] && events[0] == e
    ensures var sys' := Apply(sys, e);
      sys'.begun + Flat(sys'.posted) + Asked(sys'.locked.streams, events[1..])
      == sys.begun + Flat(sys.posted) + Asked(sys.locked.streams, events)
  {
    match e {
      case Receive(data) =>
        var streams := sys.locked.streams;
        hide Asked, Flat, Calls;
        AskedOnReceive(streams, data, events);
        FlatAppend(sys.posted, Calls(streams, data));
        Regroup(sys.begun, Flat(sys.posted), Calls(streams, data));
        Regroup(sys.begun + Flat(sys.posted), Calls(streams, data), Asked(streams, events[1..]));
      case RunParsers =>
        assert Flat(sys.posted) == sys.posted[0] + Flat(sys.posted[1..]);
        hide Asked, Flat;
      case _ => hide Flat;
    }
  }

  lemma {:induction false} RunAsked(sys: System, events: seq<Event>, sys': System)
    requires Run(sys, events, sys') && Handled(sys)
    ensures sys'.begun + Flat(sys'.posted) == sys.begun + Flat(sys.posted) + Asked(sys.locked.streams, events)
    ensures Handled(sys')
    decreases |events|
  {
    hide Apply, Enabled, Flat, Handled;
    if events == [] {
    } else {
      StepHandled(sys, events[0]);
      StepAsked(sys, events[0], events);
      RunAsked(Apply(sys, events[0]), events[1..], sys');
      hide Asked;
    }
  }

  // In every run the parser calls that have finished, are at work or wait on the queue are
  // together exactly those asked for, once each; those on the queue are the latest, in order.
  lemma {:induction false} ParsersGivenData(events: seq<Event>, sys: System)
    requires Run(START, events, sys)
    ensures sys.begun + Flat(sys.posted) == Asked([], events)
    ensures multiset(Asked([], events))
         == multiset(sys.finished) + multiset(sys.executing) + multiset(Flat(sys.posted))
  {
    hide Asked, Run;
    RunAsked(START, events, sys);
    assert START.begun + Flat(START.posted) + Asked([], events) == Asked([], events);
    hide Flat;
    assert multiset(sys.begun + Flat(sys.posted)) == multiset(sys.begun) + multiset(Flat(sys.posted));
  }

  function OwnData(call: Parse, id: nat): seq<seq<byte>>
  {
    if call.stream == id then [call.data] else []
  }

  /** The data of the stream's calls, in order */
  function DataOf(calls: seq<Parse>, id: nat): seq<seq<byte>>
  {
    if calls == [] then []
    else OwnData(calls[0], id) + DataOf(calls[1..], id)
  }

  /** The data received since the stream was added; `added` says whether it was before. */
  function ReceivedSince(events: seq<Event>, id: nat, added: bool): seq<seq<byte>>
    decreases |events|
  {
    if events == [] then []
    else
      match events[0]
      case AddStream(x) => ReceivedSince(events[1..], id, added || x == id)
      case Receive(data) => (if added then [data] else []) + ReceivedSince(events[1..], id, added)
      case _ => ReceivedSince(events[1..], id, added)
  }

  lemma {:induction false} DataOfPrepend(call: Parse, calls: seq<Parse>, id: nat)
    ensures DataOf([call] + calls, id) == OwnData(call, id) + DataOf(calls, id)
  {
    assert ([call] + calls)[1..] == calls;
  }

  lemma {:induction false} DataOfJoin(a: seq<Parse>, b: seq<Parse>, id: nat)
    ensures DataOf(a + b, id) == DataOf(a, id) + DataOf(b, id)
  {
    if a == [] {
      assert a + b == b;
    } else {
      hide DataOf, OwnData;
      var call, rest := a[0], a[1..];
      DataOfJoin(rest, b, id);
      DataOfPrepend(call, rest, id);
      DataOfPrepend(call, rest + b, id);
      assert a == [call] + rest && a + b == [call] + (rest + b);
      Regroup(OwnData(call, id), DataOf(rest, id), DataOf(b, id));
    }
  }

  predicate Distinct(streams: seq<nat>)
  {
    forall i, j :: 0 <= i < j < |streams| ==> streams[i] != streams[j]
  }

  lemma {:induction false} DataOfCalls(calls: seq<Parse>, streams: seq<nat>, data: seq<byte>, id: nat)
    requires Distinct(streams) && |calls| == |streams|
    requires forall i :: 0 <= i < |streams| ==> calls[i] == Parse(streams[i], data)
    ensures DataOf(calls, id) == if id in streams then [data] else []
    decreases |streams|
  {
    if streams == [] {
    } else {
      DataOfCalls(calls[1..], streams[1..], data, id);
    }
  }

  lemma {:induction false} AskedOfStream(sys: System, events: seq<Event>, sys': System, id: nat)
    requires Run(sys, events, sys') && Distinct(sys.locked.streams)
    ensures DataOf(Asked(sys.locked.streams, events), id) == ReceivedSince(events, id, id in sys.locked.streams)
    decreases |events|
  {
    var streams := sys.locked.streams;
    if events == [] {
    } else {
      AskedOfStream(Apply(sys, events[0]), events[1..], sys', id);
      if events[0].Receive? {
        var data := events[0].data;
        var calls := seq(|streams|, i requires 0 <= i < |streams| => Parse(streams[i], data));
        DataOfCalls(calls, streams, data, id);
        DataOfJoin(calls, Asked(streams, events[1..]), id);
      }
      hide Flat, Calls, DataOf;
    }
  }

  // For each stream: the data its parser has been or will be called with is exactly the
  // data received since the stream was added, in order of arrival.
  lemma {:induction false} StreamGivenData(events: seq<Event>, sys: System, id: nat)
    requires Run(START, events, sys)
    ensures DataOf(sys.begun, id) + DataOf(Flat(sys.posted), id) == ReceivedSince(events, id, false)
  {
    ParsersGivenData(events, sys);
    AskedOfStream(START, events, sys, id);
    DataOfJoin(sys.begun, Flat(sys.posted), id);
  }

  // ---- completions after data ----

  /** In every state of the run, completions are on their way only when no parser has anything left to do. */
  ghost predicate AlwaysSettled(sys: System, events: seq<Event>)
    decreases |events|
  {
    Settled(sys) && (events != [] && Enabled(sys, events[0]) ==> AlwaysSettled(Apply(sys, events[0]), events[1..]))
  }

  /** Data that goes to any stream is received only while no completion is on its way. */
  predicate Timely(sys: System, e: Event)
  {
    e.Receive? && sys.locked.streams != [] ==> sys.batches == [] && sys.scheduled == []
  }

  ghost predicate DataTimely(sys: System, events: seq<Event>)
    decreases |events|
  {
    events != [] && Enabled(sys, events[0]) ==>
      Timely(sys, events[0]) && DataTimely(Apply(sys, events[0]), events[1..])
  }

  lemma {:induction false} StepSettled(sys: System, e: Event)
    requires Counted(sys) && Settled(sys) && Enabled(sys, e)
    ensures Settled(Apply(sys, e)) <==> Timely(sys, e)
  {
    hide Flat;
  }

  // A completion never overtakes data, exactly when no data for a stream arrives once
  // a completion is on its way; that one still waits for a parser does no harm.
  lemma {:induction false} RunSettledIff(sys: System, events: seq<Event>, sys': System)
    requires Run(sys, events, sys') && Counted(sys) && Settled(sys)
    ensures AlwaysSettled(sys, events) <==> DataTimely(sys, events)
    ensures DataTimely(sys, events) ==> Settled(sys')
    decreases |events|
  {
    hide Counted, Settled, Apply, Enabled, Timely;
    if events == [] {
    } else {
      StepCounted(sys, events[0]);
      StepSettled(sys, events[0]);
      if Timely(sys, events[0]) {
        RunSettledIff(Apply(sys, events[0]), events[1..], sys');
      } else {
        assert !AlwaysSettled(Apply(sys, events[0]), events[1..]);
      }
    }
  }

  lemma {:induction false} CompletionsComeLastIff(events: seq<Event>, sys: System)
    requires Run(START, events, sys)
    ensures AlwaysSettled(START, events) <==> DataTimely(START, events)
  {
    RunSettledIff(START, events, sys);
  }

  // In such a run, once a completion is on its way every parser has finished and no
  // completion waits.
  lemma {:induction false} CompletionsComeLast(events: seq<Event>, sys: System)
    requires Run(START, events, sys) && DataTimely(START, events)
    requires sys.batches != [] || sys.scheduled != []
    ensures Flat(sys.posted) == []
    ensures sys.executing == [] && sys.locked.enqueuedCompletionEvents == []
  {
    ReachableCounted(events, sys);
    RunSettledIff(START, events, sys);
  }

  // A run in which data arrives too late: a completion was handed on and a parser is at work.
  lemma {:induction false} DataAfterCompletion()
    ensures exists events, sys ::
      Run(START, events, sys) && sys.scheduled == [1] && sys.locked.numberOfExecutingStreams == 1
  {
    var events := [AddStream(1), CompletionReaches(1), Receive([])];
    var added := START.(locked := NEW.(streams := [1]));
    var reached := added.(reached := [1], scheduled := [1]);
    var received := reached.(locked := StreamMutableState([1], 1, []), posted := [Calls([1], [])]);
    assert Apply(START, events[0]) == added;
    assert Apply(added, events[1]) == reached;
    assert Apply(reached, events[2]) == received;
    assert Run(received, [], received);
    assert Run(reached, [events[2]], received);
    assert Run(added, [events[1], events[2]], received) by {
      assert [events[1], events[2]][1..] == [events[2]];
    }
    assert Run(START, events, received) by {
      assert events[1..] == [events[1], events[2]];
    }
  }

  // Nothing left to do: every completion that reached the lock was scheduled, once.
  lemma {:induction false} NothingWaits(events: seq<Event>, sys: System)
    requires Run(START, events, sys)
    requires sys.posted == [] && sys.executing == [] && sys.batches == []
    ensures multiset(sys.scheduled) == multiset(sys.reached)
    ensures forall id <- sys.reached :: multiset(sys.scheduled)[id] == 1
  {
    ReachableCounted(events, sys);
  }

  // ---- the class ----

  class DataStreamRequest {
    var streams: seq<nat>
    var numberOfExecutingStreams: int
    var enqueuedCompletionEvents: seq<nat>

    function State(): StreamMutableState
      reads this
    {
      StreamMutableState(streams, numberOfExecutingStreams, enqueuedCompletionEvents)
    }

    constructor ()
      ensures State() == NEW
    {
      streams, numberOfExecutingStreams, enqueuedCompletionEvents := [], 0, [];
    }

    /** responseStream adds a parser. */
    method AppendStream(id: nat)
      modifies this
      ensures State() == old(State()).(streams := old(streams) + [id])
    {
      streams := streams + [id];
    }

    method DidReceive(data: seq<byte>) returns (calls: seq<Parse>)
      modifies this
      ensures (State(), calls) == ReceiveSection(old(State()), data)
      ensures |calls| == |old(streams)|
      ensures forall i :: 0 <= i < |calls| ==> calls[i] == Parse(old(streams)[i], data)
    {
      numberOfExecutingStreams := numberOfExecutingStreams + |streams|;
      calls := [];
      var i := 0;
      while i < |streams|
        invariant i <= |streams|
        invariant |calls| == i && forall k :: 0 <= k < i ==> calls[k] == Parse(streams[k], data)
      {
        calls := calls + [Parse(streams[i], data)];
        i := i + 1;
      }
      assert calls == Calls(streams, data);
    }

    method UpdateAndCompleteIfPossible() returns (events: seq<nat>)
      modifies this
      ensures (State(), events) == FinishSection(old(State()))
      ensures events != [] ==> numberOfExecutingStreams == 0
      ensures events + enqueuedCompletionEvents == old(enqueuedCompletionEvents)
      ensures numberOfExecutingStreams == 0 ==> enqueuedCompletionEvents == []
    {
      numberOfExecutingStreams := numberOfExecutingStreams - 1;
      if numberOfExecutingStreams != 0 || enqueuedCompletionEvents == [] {
        return [];
      }
      events := enqueuedCompletionEvents;
      enqueuedCompletionEvents := [];
    }

    /** The section of the completion that appendStreamCompletion registers. */
    method StreamCompleted(id: nat) returns (now: bool)
      modifies this
      ensures (State(), now) == CompletionSection(old(State()), id)
    {
      if numberOfExecutingStreams != 0 {
        enqueuedCompletionEvents := enqueuedCompletionEvents + [id];
        return false;
      }
      return true;
    }
  }
}
