/** The whole life of one queue database served by one process at a time: what
    became of every job that was ever accepted. */
module JobHistory {
  import opened FiniteSets
  import opened Jobs
  import opened DbQueue

  // Stored covers waiting and in flight; the row tells which.
  datatype Fate = Stored | Completed | Purged

  /** The table together with a record of what happened to it. */
  datatype History = History(
    table: Table,
    accepts: nat,                // how often an enqueue answered true
    request: map<int, Request>,  // what was asked for, by the id of the accepted job
    fate: map<int, Fate>,        // what became of it
    restarts: nat,
    delivered: multiset<int>,    // every delivery so far
    session: seq<Job>            // the deliveries since the last restart, in order
  )

  const START := History(Table(map[], 0), 0, map[], map[], 0, multiset{}, [])

  function Record(maxSize: int, h: History, event: Event): History {
    match event
    case Restart => h.(table := h.table.Recovered(), restarts := h.restarts + 1, session := [])
    case Client(op) =>
      var (t, r) := Step(maxSize, h.table, op);
      match op
      case Enqueue(request) => if r.ok then Accept(h, t, request) else h
      case EnqueueIfIdle(request) => if r.ok then Accept(h, t, request) else h
      case Dequeue =>
        if r.job.None? then h
        else
          var job := r.job.value;
          h.(table := t, delivered := h.delivered + multiset{job.id}, session := h.session + [job])
      case Complete(id) =>
        if id in h.table.rows then h.(table := t, fate := h.fate[id := Completed]) else h
      case Purge =>
        var waiting := h.table.WithStatus(Pending);
        h.(table := t, fate := map id | id in h.fate :: if id in waiting then Purged else h.fate[id])
      case Size => h
      case Position(_) => h
  }

  function Accept(h: History, t: Table, request: Request): History {
    h.(table := t, accepts := h.accepts + 1, request := h.request[t.lastId := request], fate := h.fate[t.lastId := Stored])
  }

  function RecordAll(maxSize: int, h: History, events: seq<Event>): History
    decreases |events|
  {
    if events == [] then h else RecordAll(maxSize, Record(maxSize, h, events[0]), events[1..])
  }

  /** The rows are exactly the accepted jobs that were neither completed nor purged, and
      no id was given out twice. */
  ghost predicate Conserved(h: History) {
    && (forall id :: id in h.table.rows <==> id in h.fate && h.fate[id] == Stored)
    && |h.fate| == h.accepts
    && (forall id | id in h.fate :: id <= h.table.lastId)
  }

  /** Every row and every delivery carries the very request that was accepted under its id. */
  ghost predicate Untouched(h: History) {
    && h.request.Keys == h.fate.Keys
    && (forall id | id in h.table.rows :: id in h.request && h.table.rows[id].job == Job(id, h.request[id]))
    && (forall job | job in h.session :: job.id in h.request && job.request == h.request[job.id])
  }

  /** A job is delivered at most once per process life, and not again while it is in flight;
      within one process life deliveries go up in id. */
  ghost predicate DeliveredInOrder(h: History) {
    && (forall id :: h.delivered[id] <= h.restarts + (if id in h.table.WithStatus(Pending) then 0 else 1))
    && (forall id | id in h.delivered :: id in h.fate)
    && (forall i, j | 0 <= i < j < |h.session| :: h.session[i].id < h.session[j].id)
    && (forall i, id | 0 <= i < |h.session| && id in h.table.WithStatus(Pending) :: h.session[i].id < id)
    && (forall i | 0 <= i < |h.session| :: h.session[i].id <= h.table.lastId)
  }

  ghost predicate Inv(h: History) {
    h.table.Valid() && h.table.Ordered() && Conserved(h) && Untouched(h) && DeliveredInOrder(h)
  }

  lemma AcceptIsUntouched(h: History, request: Request)
    requires h.table.Valid() && Conserved(h) && Untouched(h)
    ensures Untouched(Accept(h, h.table.Insert(request), request))
  {
  }

  lemma AcceptKeeps(h: History, request: Request)
    requires Inv(h)
    ensures Inv(Accept(h, h.table.Insert(request), request))
  {
    var t := h.table.Insert(request);
    StepKeepsOrder(0, h.table, Enqueue(request));
    AcceptIsUntouched(h, request);
    assert t.lastId !in h.fate;
    assert h.delivered[t.lastId] == 0;
  }

  lemma EnqueueKeeps(maxSize: int, h: History, op: Op)
    requires Inv(h) && (op.Enqueue? || op.EnqueueIfIdle?)
    ensures Inv(Record(maxSize, h, Client(op)))
  {
    AcceptKeeps(h, op.request);
  }

  lemma DeliveryIsUntouched(maxSize: int, h: History)
    requires h.table.Valid() && Untouched(h)
    ensures Untouched(Record(maxSize, h, Client(Dequeue)))
  {
  }

  lemma DeliveryConserves(maxSize: int, h: History)
    requires Conserved(h)
    ensures Conserved(Record(maxSize, h, Client(Dequeue)))
  {
  }

  lemma DeliveryKeepsOrder(maxSize: int, h: History)
    requires h.table.Valid() && Conserved(h) && DeliveredInOrder(h) && h.table.WithStatus(Pending) != {}
    ensures DeliveredInOrder(Record(maxSize, h, Client(Dequeue)))
  {
    var id := Least(h.table.WithStatus(Pending));
    var h' := Record(maxSize, h, Client(Dequeue));
    assert h'.table.WithStatus(Pending) == h.table.WithStatus(Pending) - {id};
    assert h'.delivered == h.delivered + multiset{id};
    assert id in h.fate;
  }

  lemma DeliveryKeeps(maxSize: int, h: History)
    requires Inv(h)
    ensures Inv(Record(maxSize, h, Client(Dequeue)))
  {
    if h.table.WithStatus(Pending) != {} {
      StepKeepsOrder(maxSize, h.table, Dequeue);
      DeliveryConserves(maxSize, h);
      DeliveryIsUntouched(maxSize, h);
      DeliveryKeepsOrder(maxSize, h);
    }
  }

  lemma RestartKeeps(maxSize: int, h: History)
    requires Inv(h)
    ensures Inv(Record(maxSize, h, Restart))
  {
    assert Record(maxSize, h, Restart).table.WithStatus(Processing) == {};
  }

  lemma CompletionKeeps(maxSize: int, h: History, id: int)
    requires Inv(h)
    ensures Inv(Record(maxSize, h, Client(Complete(id))))
  {
    if id in h.table.rows {
      StepKeepsOrder(maxSize, h.table, Complete(id));
      var h' := Record(maxSize, h, Client(Complete(id)));
      assert h'.fate.Keys == h.fate.Keys;
    }
  }

  lemma PurgeKeeps(maxSize: int, h: History)
    requires Inv(h)
    ensures Inv(Record(maxSize, h, Client(Purge)))
  {
    StepKeepsOrder(maxSize, h.table, Purge);
    var h' := Record(maxSize, h, Client(Purge));
    assert h'.fate.Keys == h.fate.Keys;
    assert h'.table.WithStatus(Pending) == {};
  }

  lemma RecordKeeps(maxSize: int, h: History, event: Event)
    requires Inv(h)
    ensures Inv(Record(maxSize, h, event))
  {
    match event
    case Restart => RestartKeeps(maxSize, h);
    case Client(op) =>
      match op
      case Enqueue(_) => EnqueueKeeps(maxSize, h, op);
      case EnqueueIfIdle(_) => EnqueueKeeps(maxSize, h, op);
      case Dequeue => DeliveryKeeps(maxSize, h);
      case Complete(id) => CompletionKeeps(maxSize, h, id);
      case Purge => PurgeKeeps(maxSize, h);
      case Size => assert Record(maxSize, h, event) == h;
      case Position(_) => assert Record(maxSize, h, event) == h;
  }

  lemma {:induction false} RecordAllKeeps(maxSize: int, h: History, events: seq<Event>)
    requires Inv(h)
    ensures Inv(RecordAll(maxSize, h, events))
    decreases |events|
  {
    if events != [] {
      RecordKeeps(maxSize, h, events[0]);
      RecordAllKeeps(maxSize, Record(maxSize, h, events[0]), events[1..]);
    }
  }

  /** In every history, with any number of restarts and purges: the rows are exactly the
      accepted jobs that were neither completed nor purged, ids are fresh, each job is
      delivered at most once more than the process was restarted, the deliveries of one
      process life strictly increase, and every row and every delivery is the request that
      was accepted under its id. */
  lemma NothingLostNothingTwice(maxSize: int, events: seq<Event>)
    ensures var h := RecordAll(maxSize, START, events);
            && (forall id :: id in h.table.rows <==> id in h.fate && h.fate[id] == Stored)
            && |h.fate| == h.accepts
            && (forall id :: h.delivered[id] <= 1 + h.restarts)
            && (forall i, j | 0 <= i < j < |h.session| :: h.session[i].id < h.session[j].id)
            && (forall id | id in h.table.rows :: id in h.request && h.table.rows[id].job == Job(id, h.request[id]))
            && (forall job | job in h.session :: job.id in h.request && job.request == h.request[job.id])
  {
    RecordAllKeeps(maxSize, START, events);
  }

  // A finished job stays finished through one event.
  lemma FinishedStays(maxSize: int, h: History, event: Event, id: int)
    requires h.table.Valid() && Conserved(h)
    requires id in h.fate && h.fate[id] != Stored
    ensures var h' := Record(maxSize, h, event);
            id in h'.fate && h'.fate[id] == h.fate[id] && h'.delivered[id] == h.delivered[id]
  {
    assert id !in h.table.rows;
    if event == Client(Dequeue) && h.table.WithStatus(Pending) != {} {
      assert Least(h.table.WithStatus(Pending)) in h.table.rows;
    }
  }

  /** Once completed or purged, a job stays so and is never delivered again. */
  lemma {:induction false} FinishedForGood(maxSize: int, h: History, events: seq<Event>, id: int)
    requires Inv(h)
    requires id in h.fate && h.fate[id] != Stored
    ensures var h' := RecordAll(maxSize, h, events);
            id in h'.fate && h'.fate[id] == h.fate[id] && h'.delivered[id] == h.delivered[id]
    decreases |events|
  {
    if events != [] {
      RecordKeeps(maxSize, h, events[0]);
      FinishedStays(maxSize, h, events[0], id);
      FinishedForGood(maxSize, Record(maxSize, h, events[0]), events[1..], id);
    }
  }

  /** The request recorded under an id never changes, and a newly accepted one is what the
      client asked for. */
  lemma {:induction false} RequestsStay(maxSize: int, h: History, events: seq<Event>, id: int)
    requires Inv(h) && id in h.request
    ensures var h' := RecordAll(maxSize, h, events); id in h'.request && h'.request[id] == h.request[id]
    decreases |events|
  {
    if events != [] {
      RecordKeeps(maxSize, h, events[0]);
      RequestsStay(maxSize, Record(maxSize, h, events[0]), events[1..], id);
    }
  }
}
