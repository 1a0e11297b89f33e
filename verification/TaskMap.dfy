// RequestTaskMap: a two-way map between requests and tasks, from which a task is
// dropped when both its completion and its metrics have arrived.
module TaskMap {
  import opened Wire

  type Task = nat
  type Request = nat

  datatype Events = Events(completed: bool, metricsGathered: bool)

  datatype Maps = Maps(
    tasksToRequests: map<Task, Request>,
    requestsToTasks: map<Request, Task>,
    taskEvents: map<Task, Events>)

  const EMPTY := Maps(map[], map[], map[])

  /** The two dictionaries are inverse to each other, and events are kept for the same tasks. */
  predicate Consistent(m: Maps)
  {
    && (forall t <- m.tasksToRequests ::
          m.tasksToRequests[t] in m.requestsToTasks && m.requestsToTasks[m.tasksToRequests[t]] == t)
    && (forall r <- m.requestsToTasks ::
          m.requestsToTasks[r] in m.tasksToRequests && m.tasksToRequests[m.requestsToTasks[r]] == r)
    && m.taskEvents.Keys == m.tasksToRequests.Keys
  }

  /** self[request] = task, or self[task] = request */
  function Associate(m: Maps, r: Request, t: Task): Maps
  {
    Maps(m.tasksToRequests[t := r], m.requestsToTasks[r := t], m.taskEvents[t := Events(false, false)])
  }

  function Disassociate(m: Maps, r: Request, t: Task): Maps
  {
    Maps(m.tasksToRequests - {t}, m.requestsToTasks - {r}, m.taskEvents - {t})
  }

  datatype EventKind = Completion | Metrics

  /** The result of an event: the maps and the returned Bool, or None for a consistency failure. */
  function Notify(m: Maps, k: EventKind, t: Task): Option<(Maps, bool)>
  {
    if t !in m.taskEvents then None
    else
      var e := m.taskEvents[t];
      if (if k.Completion? then e.completed else e.metricsGathered) then None
      else if !e.completed && !e.metricsGathered then
        var got := if k.Completion? then Events(true, false) else Events(false, true);
        Some((m.(taskEvents := m.taskEvents[t := got]), false))
      else if t in m.tasksToRequests then Some((Disassociate(m, m.tasksToRequests[t], t), true))
      else None
  }

  // Associating keeps the map one-to-one exactly when neither side is taken by another partner.
  lemma {:induction false} AssociateConsistent(m: Maps, r: Request, t: Task)
    requires Consistent(m)
    ensures Consistent(Associate(m, r, t)) <==>
      && (r in m.requestsToTasks ==> m.requestsToTasks[r] == t)
      && (t in m.tasksToRequests ==> m.tasksToRequests[t] == r)
  {
    var m' := Associate(m, r, t);
    if r in m.requestsToTasks && m.requestsToTasks[r] != t {
      assert m'.tasksToRequests[m.requestsToTasks[r]] == r;
    }
    if t in m.tasksToRequests && m.tasksToRequests[t] != r {
      assert m'.requestsToTasks[m.tasksToRequests[t]] == t;
    }
  }

  // A request that is given a second task: the first task is left pointing at it.
  lemma {:induction false} ReassociationBreaks()
    ensures Consistent(Associate(EMPTY, 1, 10)) && !Consistent(Associate(Associate(EMPTY, 1, 10), 1, 20))
  {
    var m := Associate(Associate(EMPTY, 1, 10), 1, 20);
    assert 10 in m.tasksToRequests && m.tasksToRequests[10] == 1 && m.requestsToTasks[1] == 20;
  }

  lemma {:induction false} DisassociateConsistent(m: Maps, r: Request, t: Task)
    requires Consistent(m) && t in m.tasksToRequests && m.tasksToRequests[t] == r
    ensures Consistent(Disassociate(m, r, t))
  {
  }

  lemma {:induction false} NotifyConsistent(m: Maps, k: EventKind, t: Task)
    requires Consistent(m) && Notify(m, k, t).Some?
    ensures Consistent(Notify(m, k, t).value.0)
  {
  }

  // ---- runs ----

  datatype Step = Insert(request: Request, task: Task) | Event(kind: EventKind, task: Task)

  /** The maps with the events of each task since it was last inserted, and those that returned true. */
  datatype History = History(
    maps: Maps,
    inserted: map<Task, Request>,
    received: set<(EventKind, Task)>,
    released: set<(EventKind, Task)>)

  const START := History(EMPTY, map[], {}, {})

  /** Only requests and tasks not in the map are inserted; a task then gets each event at most once. */
  predicate Allowed(h: History, s: Step)
  {
    match s
    case Insert(r, t) => t !in h.maps.tasksToRequests && r !in h.maps.requestsToTasks
    case Event(k, t) => t in h.inserted && (k, t) !in h.received
  }

  function EventsOf(t: Task): set<(EventKind, Task)>
  {
    {(Completion, t), (Metrics, t)}
  }

  /** None stands for a consistency failure. */
  function Advance(h: History, s: Step): Option<History>
  {
    match s
    case Insert(r, t) =>
      Some(History(Associate(h.maps, r, t), h.inserted[t := r],
                   h.received - EventsOf(t), h.released - EventsOf(t)))
    case Event(k, t) =>
      match Notify(h.maps, k, t)
      case None => None
      case Some((m, last)) =>
        Some(h.(maps := m, received := h.received + {(k, t)},
                released := if last then h.released + {(k, t)} else h.released))
  }

  predicate Got(h: History, k: EventKind, t: Task)
  {
    (k, t) in h.received
  }

  function Other(k: EventKind): EventKind
  {
    if k.Completion? then Metrics else Completion
  }

  /** What the events received so far for one task say about the maps and the results. */
  predicate TaskTracked(h: History, t: Task)
  {
    var both := Got(h, Completion, t) && Got(h, Metrics, t);
    && (t in h.maps.tasksToRequests <==> t in h.inserted && !both)
    && (t in h.maps.tasksToRequests ==>
          && h.maps.tasksToRequests[t] == h.inserted[t]
          && t in h.maps.taskEvents
          && h.maps.taskEvents[t] == Events(Got(h, Completion, t), Got(h, Metrics, t)))
    && ((Completion, t) in h.released || (Metrics, t) in h.released <==> both)
    && !((Completion, t) in h.released && (Metrics, t) in h.released)
    && (Got(h, Completion, t) || Got(h, Metrics, t) ==> t in h.inserted)
  }

  ghost predicate Tracked(h: History)
  {
    Consistent(h.maps) && forall t: Task :: TaskTracked(h, t)
  }

  lemma {:induction false} InsertTracked(h: History, r: Request, t: Task)
    requires Tracked(h) && Allowed(h, Insert(r, t))
    ensures Tracked(Advance(h, Insert(r, t)).value)
  {
    var h' := Advance(h, Insert(r, t)).value;
    AssociateConsistent(h.maps, r, t);
    forall u: Task
      ensures TaskTracked(h', u)
    {
      assert TaskTracked(h, u);
    }
  }

  // An event never meets a consistency failure.  It returns true, and its task
  // leaves the map, exactly when the other event of the task has come before.
  lemma {:induction false} EventResult(h: History, k: EventKind, t: Task)
    requires Tracked(h) && Allowed(h, Event(k, t))
    ensures var n := Notify(h.maps, k, t);
      && n.Some?
      && n.value.1 == Got(h, Other(k), t)
      && t in h.maps.tasksToRequests
      && (t in n.value.0.tasksToRequests <==> !n.value.1)
  {
    assert TaskTracked(h, t);
  }

  // A call meets a consistency failure exactly when its task is not in the map or its
  // event has come before.
  lemma {:induction false} EventFails(h: History, k: EventKind, t: Task)
    requires Tracked(h)
    ensures Notify(h.maps, k, t).None? <==> t !in h.maps.tasksToRequests || Got(h, k, t)
  {
    assert TaskTracked(h, t);
  }

  lemma {:induction false} EventTracked(h: History, k: EventKind, t: Task)
    requires Tracked(h) && Allowed(h, Event(k, t))
    ensures Advance(h, Event(k, t)).Some? && Tracked(Advance(h, Event(k, t)).value)
  {
    EventResult(h, k, t);
    NotifyConsistent(h.maps, k, t);
    var h' := Advance(h, Event(k, t)).value;
    forall u: Task
      ensures TaskTracked(h', u)
    {
      assert TaskTracked(h, t) && TaskTracked(h, u);
    }
  }

  /** Every step of the run is allowed in the state it meets. */
  predicate AllowedRun(h: History, steps: seq<Step>)
    decreases |steps|
  {
    steps != [] ==>
      && Allowed(h, steps[0])
      && (Advance(h, steps[0]).Some? ==> AllowedRun(Advance(h, steps[0]).value, steps[1..]))
  }

  function Run(h: History, steps: seq<Step>): Option<History>
    decreases |steps|
  {
    if steps == [] then Some(h)
    else
      match Advance(h, steps[0])
      case None => None
      case Some(h') => Run(h', steps[1..])
  }

  lemma {:induction false} RunTracked(h: History, steps: seq<Step>)
    requires Tracked(h) && AllowedRun(h, steps)
    ensures Run(h, steps).Some? && Tracked(Run(h, steps).value)
    decreases |steps|
  {
    hide Tracked;
    if steps == [] {
    } else {
      var s := steps[0];
      if s.Insert? {
        InsertTracked(h, s.request, s.task);
      } else {
        EventTracked(h, s.kind, s.task);
      }
      RunTracked(Advance(h, steps[0]).value, steps[1..]);
    }
  }

  // Any interleaving from the empty map, of insertions of requests and tasks that are
  // not in it, a retried request with its next task included, and of events: no
  // consistency failure, the dictionaries stay inverse to each other, a task is in them
  // until both of its events came, and of those two exactly one returned true.
  lemma {:induction false} ReachableTracked(steps: seq<Step>, t: Task)
    requires AllowedRun(START, steps)
    ensures Run(START, steps).Some?
    ensures var h := Run(START, steps).value;
      var both := Got(h, Completion, t) && Got(h, Metrics, t);
      && Consistent(h.maps)
      && (t in h.maps.tasksToRequests <==> t in h.inserted && !both)
      && (t in h.maps.tasksToRequests ==> h.maps.tasksToRequests[t] == h.inserted[t])
      && ((Completion, t) in h.released || (Metrics, t) in h.released <==> both)
      && !((Completion, t) in h.released && (Metrics, t) in h.released)
  {
    assert forall u: Task :: TaskTracked(START, u);
    RunTracked(START, steps);
    assert TaskTracked(Run(START, steps).value, t);
  }

  // The sizes that count, eventCount and isEmpty insist on are equal in a consistent map.
  lemma {:induction false} CountsAgree(m: Maps)
    requires Consistent(m)
    ensures |m.tasksToRequests| == |m.requestsToTasks| == |m.taskEvents|
    decreases |m.tasksToRequests|
  {
    assert |m.taskEvents.Keys| == |m.tasksToRequests.Keys|;
    if t :| t in m.tasksToRequests {
      var r := m.tasksToRequests[t];
      var m' := Disassociate(m, r, t);
      assert m'.tasksToRequests.Keys == m.tasksToRequests.Keys - {t};
      assert m'.requestsToTasks.Keys == m.requestsToTasks.Keys - {r};
      assert |m'.tasksToRequests.Keys| == |m.tasksToRequests| - 1;
      CountsAgree(m');
    } else {
      assert m.tasksToRequests.Keys == {} && m.requestsToTasks.Keys == {};
    }
  }

  // ---- the class ----

  class RequestTaskMap {
    var tasksToRequests: map<Task, Request>
    var requestsToTasks: map<Request, Task>
    var taskEvents: map<Task, Events>

    function State(): Maps
      reads this
    {
      Maps(tasksToRequests, requestsToTasks, taskEvents)
    }

    constructor ()
      ensures State() == EMPTY
    {
      tasksToRequests, requestsToTasks, taskEvents := map[], map[], map[];
    }

    /** self[request] = newValue; clearing a request that has no task is a fatal error. */
    method SetTask(request: Request, newValue: Option<Task>)
      requires newValue.None? ==> request in requestsToTasks
      modifies this
      ensures State() == if newValue.Some? then Associate(old(State()), request, newValue.value)
                         else Disassociate(old(State()), request, old(requestsToTasks[request]))
      ensures old(Consistent(State()))
              && (newValue.Some? ==> old(request !in requestsToTasks && newValue.value !in tasksToRequests))
              ==> Consistent(State())
    {
      if newValue.None? {
        var task := requestsToTasks[request];
        requestsToTasks := requestsToTasks - {request};
        tasksToRequests := tasksToRequests - {task};
        taskEvents := taskEvents - {task};
        return;
      }
      requestsToTasks := requestsToTasks[request := newValue.value];
      tasksToRequests := tasksToRequests[newValue.value := request];
      taskEvents := taskEvents[newValue.value := Events(false, false)];
    }

    /** self[task] = newValue; clearing a task that has no request is a fatal error. */
    method SetRequest(task: Task, newValue: Option<Request>)
      requires newValue.None? ==> task in tasksToRequests
      modifies this
      ensures State() == if newValue.Some? then Associate(old(State()), newValue.value, task)
                         else Disassociate(old(State()), old(tasksToRequests[task]), task)
      ensures old(Consistent(State()))
              && (newValue.Some? ==> old(newValue.value !in requestsToTasks && task !in tasksToRequests))
              ==> Consistent(State())
    {
      if newValue.None? {
        var request := tasksToRequests[task];
        tasksToRequests := tasksToRequests - {task};
        requestsToTasks := requestsToTasks - {request};
        taskEvents := taskEvents - {task};
        return;
      }
      tasksToRequests := tasksToRequests[task := newValue.value];
      requestsToTasks := requestsToTasks[newValue.value := task];
      taskEvents := taskEvents[task := Events(false, false)];
    }

    method DisassociateIfNecessaryAfterGatheringMetrics(task: Task) returns (released: bool)
      requires Notify(State(), Metrics, task).Some?
      modifies this
      ensures Notify(old(State()), Metrics, task) == Some((State(), released))
      ensures old(Consistent(State())) ==> Consistent(State()) && (released <==> task !in tasksToRequests)
    {
      var events := taskEvents[task];
      if !events.completed {
        taskEvents := taskEvents[task := Events(false, true)];
        return false;
      }
      SetRequest(task, None);
      return true;
    }

    method DisassociateIfNecessaryAfterCompleting(task: Task) returns (released: bool)
      requires Notify(State(), Completion, task).Some?
      modifies this
      ensures Notify(old(State()), Completion, task) == Some((State(), released))
      ensures old(Consistent(State())) ==> Consistent(State()) && (released <==> task !in tasksToRequests)
    {
      var events := taskEvents[task];
      if !events.metricsGathered {
        taskEvents := taskEvents[task := Events(true, false)];
        return false;
      }
      SetRequest(task, None);
      return true;
    }
  }
}
