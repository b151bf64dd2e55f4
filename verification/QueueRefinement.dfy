/** The table of rows implements the abstract queue, and therefore agrees with the
    Redis list and hash. */
module QueueRefinement {
  import opened FiniteSets
  import opened Jobs
  import A = AbstractQueue
  import D = DbQueue
  import R = RedisQueue

  /** The pending rows by id are the sequence, the processing rows are the set. */
  ghost predicate Represents(t: D.Table, q: A.Queue) {
    && t.Valid() && t.Ordered()
    && q.lastId == t.lastId
    && PendingRows(t, q.pending)
    && q.inFlight == ProcessingJobs(t)
  }

  ghost predicate PendingRows(t: D.Table, pending: seq<Job>) {
    && Increasing(pending)
    && (forall i | 0 <= i < |pending| ::
          pending[i].id in t.rows && t.rows[pending[i].id] == D.Row(pending[i], D.Pending))
    && (forall id | id in t.WithStatus(D.Pending) :: id in Ids(pending))
  }

  ghost function ProcessingJobs(t: D.Table): set<Job> {
    set id | id in t.WithStatus(D.Processing) :: t.rows[id].job
  }

  ghost predicate Increasing(jobs: seq<Job>) {
    forall i, j | 0 <= i < j < |jobs| :: jobs[i].id < jobs[j].id
  }

  lemma IncreasingCount(jobs: seq<Job>)
    requires Increasing(jobs)
    ensures |Ids(jobs)| == |jobs|
  {
    var ids := seq(|jobs|, i requires 0 <= i < |jobs| => jobs[i].id);
    DistinctSize(ids);
    var a, b := Ids(jobs), set i | 0 <= i < |ids| :: ids[i];
    forall x | x in a ensures x in b {
      var i :| 0 <= i < |jobs| && jobs[i].id == x;
      assert ids[i] == x;
    }
    forall x | x in b ensures x in a {
      var i :| 0 <= i < |ids| && ids[i] == x;
      assert jobs[i].id == x;
    }
    assert a == b;
  }

  lemma PendingIds(t: D.Table, pending: seq<Job>)
    requires PendingRows(t, pending)
    ensures t.WithStatus(D.Pending) == Ids(pending)
    ensures |t.WithStatus(D.Pending)| == |pending|
    ensures pending == [] <==> t.WithStatus(D.Pending) == {}
    ensures pending != [] ==> Least(t.WithStatus(D.Pending)) == pending[0].id
  {
    IncreasingCount(pending);
    forall id | id in Ids(pending) ensures id in t.WithStatus(D.Pending) {
      var i :| 0 <= i < |pending| && pending[i].id == id;
    }
    var waiting, ids := t.WithStatus(D.Pending), Ids(pending);
    assert forall i | 0 <= i < |pending| :: pending[i].id in waiting;
    assert forall id | id in waiting :: id in ids;
    assert waiting == ids;
    if pending != [] {
      assert pending[0].id in t.WithStatus(D.Pending);
      assert Least(t.WithStatus(D.Pending)) in Ids(pending);
    }
  }

  // The waiting jobs with these ids, oldest first.
  ghost function InOrder(t: D.Table, ids: set<int>): seq<Job>
    requires ids <= t.WithStatus(D.Pending)
    decreases |ids|
  {
    if ids == {} then [] else var id := Least(ids); [t.rows[id].job] + InOrder(t, ids - {id})
  }

  ghost function QueueOf(t: D.Table): A.Queue {
    A.Queue(InOrder(t, t.WithStatus(D.Pending)), ProcessingJobs(t), t.lastId)
  }

  lemma OldestFirst(job: Job, later: seq<Job>, ids: set<int>)
    requires Increasing(later) && Ids(later) == ids - {job.id}
    requires job.id in ids && forall id | id in ids :: job.id <= id
    ensures Increasing([job] + later)
    ensures Ids([job] + later) == ids
  {
    var jobs := [job] + later;
    assert forall i | 0 <= i < |later| :: later[i].id in Ids(later);
    forall x | x in ids ensures x in Ids(jobs) {
      if x == job.id { assert jobs[0].id == x; } else {
        assert x in Ids(later);
        var i :| 0 <= i < |later| && later[i].id == x;
        assert jobs[i + 1].id == x;
      }
    }
  }

  lemma {:induction false} InOrderHasIds(t: D.Table, ids: set<int>)
    requires t.Valid() && ids <= t.WithStatus(D.Pending)
    ensures Increasing(InOrder(t, ids)) && Ids(InOrder(t, ids)) == ids
    decreases |ids|
  {
    if ids != {} {
      var id := Least(ids);
      InOrderHasIds(t, ids - {id});
      OldestFirst(t.rows[id].job, InOrder(t, ids - {id}), ids);
    }
  }

  lemma {:induction false} InOrderHasJobs(t: D.Table, ids: set<int>, i: nat)
    requires t.Valid() && ids <= t.WithStatus(D.Pending) && i < |InOrder(t, ids)|
    ensures var job := InOrder(t, ids)[i]; job.id in ids && t.rows[job.id].job == job
    decreases |ids|
  {
    if i > 0 { InOrderHasJobs(t, ids - {Least(ids)}, i - 1); }
  }

  /** Every table, recovered ones included, is an abstract queue: nothing but validity and
      the order of ids is needed. */
  lemma EveryTableIsAQueue(t: D.Table)
    requires t.Valid() && t.Ordered()
    ensures Represents(t, QueueOf(t))
  {
    InOrderHasIds(t, t.WithStatus(D.Pending));
    var jobs := QueueOf(t).pending;
    forall i | 0 <= i < |jobs|
      ensures jobs[i].id in t.rows && t.rows[jobs[i].id] == D.Row(jobs[i], D.Pending)
    {
      InOrderHasJobs(t, t.WithStatus(D.Pending), i);
    }
  }

  lemma InFlightAgrees(t: D.Table, q: A.Queue, photo: string)
    requires Represents(t, q)
    ensures (exists j :: j in q.inFlight && j.request.photo == photo)
        <==> exists id :: id in t.WithStatus(D.Processing) && t.rows[id].job.request.photo == photo
  {
    if j :| j in q.inFlight && j.request.photo == photo {
      assert j.id in t.WithStatus(D.Processing);
    }
    if id :| id in t.WithStatus(D.Processing) && t.rows[id].job.request.photo == photo {
      assert t.rows[id].job in q.inFlight;
    }
  }

  // The oldest waiting row of a photo without job in flight is its first in the sequence.
  lemma OldestIsFirst(t: D.Table, pending: seq<Job>, photo: string)
    requires t.Valid() && PendingRows(t, pending)
    requires forall id | id in t.RowsOf(photo) :: t.rows[id].status == D.Pending
    ensures var first := A.FirstFor(pending, photo);
            && (first.None? <==> t.RowsOf(photo) == {})
            && (first.Some? ==> Least(t.RowsOf(photo)) == pending[first.value].id)
  {
    var mine := t.RowsOf(photo);
    var first := A.FirstFor(pending, photo);
    forall id | id in mine
      ensures exists i :: 0 <= i < |pending| && pending[i].id == id && pending[i].request.photo == photo
    {
      assert id in t.WithStatus(D.Pending);
      var i :| 0 <= i < |pending| && pending[i].id == id;
    }
    if first.Some? {
      var id := pending[first.value].id;
      assert id in mine;
      forall other | other in mine ensures id <= other {
        var i :| 0 <= i < |pending| && pending[i].id == other && pending[i].request.photo == photo;
        assert i >= first.value;
      }
    }
  }

  lemma RankIsCount(t: D.Table, pending: seq<Job>, f: nat)
    requires PendingRows(t, pending) && f < |pending|
    ensures |set p | p in t.WithStatus(D.Pending) && p <= pending[f].id| == f + 1
  {
    PendingIds(t, pending);
    var head := pending[..f + 1];
    IncreasingCount(head);
    var ahead := set p | p in t.WithStatus(D.Pending) && p <= pending[f].id;
    forall p | p in ahead ensures p in Ids(head) {
      var i :| 0 <= i < |pending| && pending[i].id == p;
      assert i <= f && head[i].id == p;
    }
    forall p | p in Ids(head) ensures p in ahead {
      var i :| 0 <= i < |head| && head[i].id == p;
      assert pending[i].id == p;
    }
    assert ahead == Ids(head);
  }

  lemma PositionAgrees(t: D.Table, q: A.Queue, photo: string)
    requires Represents(t, q)
    ensures t.Position(photo) == q.Position(photo)
  {
    D.PositionMeans(0, t, [], photo);
    InFlightAgrees(t, q, photo);
    if !exists j :: j in q.inFlight && j.request.photo == photo {
      assert forall id | id in t.RowsOf(photo) && t.rows[id].status == D.Processing :: id in t.WithStatus(D.Processing);
      OldestIsFirst(t, q.pending, photo);
      var first := A.FirstFor(q.pending, photo);
      if first.Some? { RankIsCount(t, q.pending, first.value); }
    }
  }

  lemma PushRefines(t: D.Table, q: A.Queue, request: Request)
    requires Represents(t, q)
    ensures Represents(t.Insert(request), q.Push(request))
  {
    D.StepKeepsOrder(0, t, Enqueue(request));
    var t', q' := t.Insert(request), q.Push(request);
    forall id | id in t'.WithStatus(D.Pending) ensures id in Ids(q'.pending) {
      if id == t.lastId + 1 {
        assert q'.pending[|q.pending|].id == id;
      } else {
        assert id in t.WithStatus(D.Pending);
        var i :| 0 <= i < |q.pending| && q.pending[i].id == id;
        assert q'.pending[i].id == id;
      }
    }
    assert t'.WithStatus(D.Processing) == t.WithStatus(D.Processing);
    assert ProcessingJobs(t') == ProcessingJobs(t);
  }

  lemma IdleAgrees(t: D.Table, q: A.Queue)
    requires Represents(t, q)
    ensures |t.rows| > 0 <==> |q.pending| > 0 || q.inFlight != {}
  {
    PendingIds(t, q.pending);
    if t.rows.Keys == {} {
      assert t.WithStatus(D.Processing) == {};
      assert ProcessingJobs(t) == {};
    } else {
      var id := Least(t.rows.Keys);
      if t.rows[id].status == D.Pending {
        assert id in t.WithStatus(D.Pending);
      } else {
        assert id in t.WithStatus(D.Processing);
        assert t.rows[id].job in ProcessingJobs(t);
      }
    }
  }

  lemma TakeRefines(t: D.Table, q: A.Queue)
    requires Represents(t, q) && q.pending != []
    ensures PendingRows(t.Mark(q.pending[0].id), q.pending[1..])
    ensures ProcessingJobs(t.Mark(q.pending[0].id)) == q.inFlight + {q.pending[0]}
  {
    var id, rest := q.pending[0].id, q.pending[1..];
    var t' := t.Mark(id);
    forall x | x in t'.WithStatus(D.Pending) ensures x in Ids(rest) {
      assert x in t.WithStatus(D.Pending);
      var i :| 0 <= i < |q.pending| && q.pending[i].id == x;
      assert rest[i - 1].id == x;
    }
    assert t'.WithStatus(D.Processing) == t.WithStatus(D.Processing) + {id};
    assert t'.rows[id].job == q.pending[0];
    forall j | j in q.inFlight + {q.pending[0]} ensures j in ProcessingJobs(t') {
      assert j.id in t'.WithStatus(D.Processing) && t'.rows[j.id].job == j;
    }
    forall j | j in ProcessingJobs(t') ensures j in q.inFlight + {q.pending[0]} {
      var x :| x in t'.WithStatus(D.Processing) && t'.rows[x].job == j;
      if x != id { assert x in t.WithStatus(D.Processing) && t.rows[x].job == j; }
    }
  }

  lemma CompleteRefines(t: D.Table, q: A.Queue, id: int)
    requires Represents(t, q) && id !in Ids(q.pending)
    ensures PendingRows(t.Delete({id}), q.pending)
    ensures ProcessingJobs(t.Delete({id})) == set j | j in q.inFlight && j.id != id
  {
    var t' := t.Delete({id});
    assert forall i | 0 <= i < |q.pending| :: q.pending[i].id in Ids(q.pending);
    assert t'.WithStatus(D.Pending) <= t.WithStatus(D.Pending);
    assert t'.WithStatus(D.Processing) == t.WithStatus(D.Processing) - {id};
    forall j | j in q.inFlight && j.id != id ensures j in ProcessingJobs(t') {
      assert j.id in t'.WithStatus(D.Processing) && t'.rows[j.id].job == j;
    }
    forall j | j in ProcessingJobs(t') ensures j in q.inFlight && j.id != id {
      var x :| x in t'.WithStatus(D.Processing) && t'.rows[x].job == j;
      assert x in t.WithStatus(D.Processing) && t.rows[x].job == j;
    }
  }

  /** One operation, on the table and on the abstract queue. Only `complete` is
      conditional: the table deletes whatever row has the id. */
  lemma StepRefines(maxSize: int, t: D.Table, q: A.Queue, op: Op)
    requires Represents(t, q)
    requires op.Complete? ==> op.id !in Ids(q.pending)
    ensures D.Step(maxSize, t, op).1 == A.Step(maxSize, q, op).1
    ensures Represents(D.Step(maxSize, t, op).0, A.Step(maxSize, q, op).0)
  {
    D.StepKeepsOrder(maxSize, t, op);
    PendingIds(t, q.pending);
    match op
    case Enqueue(request) => PushRefines(t, q, request);
    case EnqueueIfIdle(request) =>
      IdleAgrees(t, q);
      PushRefines(t, q, request);
    case Dequeue =>
      if q.pending != [] { TakeRefines(t, q); }
    case Complete(id) => CompleteRefines(t, q, id);
    case Purge =>
      var t' := t.Delete(t.WithStatus(D.Pending));
      assert t'.WithStatus(D.Pending) == {};
      assert t'.WithStatus(D.Processing) == t.WithStatus(D.Processing);
      assert ProcessingJobs(t') == ProcessingJobs(t);
    case Position(photo) => PositionAgrees(t, q, photo);
    case Size =>
  }

  lemma FewerRows(t: D.Table, pending: seq<Job>)
    requires |t.WithStatus(D.Pending)| < |pending|
    ensures !PendingRows(t, pending)
  {
    if PendingRows(t, pending) { PendingIds(t, pending); }
  }

  /** The condition on `complete` is exact: the table and the abstract queue still
      tell the same story after it if and only if the id was not waiting. Otherwise
      they already differ in the number of waiting jobs. */
  lemma CompleteAgreesExactlyWhen(maxSize: int, t: D.Table, q: A.Queue, id: int)
    requires Represents(t, q)
    ensures var (t', q') := (D.Step(maxSize, t, Complete(id)).0, A.Step(maxSize, q, Complete(id)).0);
            && (Represents(t', q') <==> id !in Ids(q.pending))
            && (D.Step(maxSize, t', Size).1 == A.Step(maxSize, q', Size).1 <==> id !in Ids(q.pending))
  {
    var t' := t.Delete({id});
    PendingIds(t, q.pending);
    assert t'.WithStatus(D.Pending) == t.WithStatus(D.Pending) - {id};
    if id in Ids(q.pending) {
      assert |t'.WithStatus(D.Pending)| == |q.pending| - 1;
      FewerRows(t', q.pending);
    } else {
      StepRefines(maxSize, t, q, Complete(id));
      PendingIds(t', q.pending);
    }
  }

  // ---------------------------------------------------------------------
  // Whole runs
  // ---------------------------------------------------------------------

  // No id is completed while its job waits.
  predicate NoWaitingJobCompleted(maxSize: int, t: D.Table, ops: seq<Op>)
    decreases |ops|
  {
    ops != [] ==>
      && (ops[0].Complete? ==> ops[0].id !in t.WithStatus(D.Pending))
      && NoWaitingJobCompleted(maxSize, D.Step(maxSize, t, ops[0]).0, ops[1..])
  }

  // What the worker loop does: it completes only ids that a dequeue returned to it.
  predicate CompletesOnlyDelivered(maxSize: int, t: D.Table, ops: seq<Op>, delivered: set<int>)
    decreases |ops|
  {
    ops != [] ==>
      && (ops[0].Complete? ==> ops[0].id in delivered)
      && var (t1, r) := D.Step(maxSize, t, ops[0]);
         CompletesOnlyDelivered(maxSize, t1, ops[1..], delivered + DeliveredId(r))
  }

  function DeliveredId(r: Result): set<int> {
    if r.Delivered? && r.job.Some? then {r.job.value.id} else {}
  }

  lemma StepDelivers(maxSize: int, t: D.Table, op: Op)
    requires t.Valid()
    ensures var (t', r) := D.Step(maxSize, t, op);
            && (forall id | id in t'.WithStatus(D.Pending) :: id in t.WithStatus(D.Pending) || id > t.lastId)
            && (forall id | id in DeliveredId(r) :: id <= t'.lastId && id !in t'.WithStatus(D.Pending))
  {
  }

  lemma {:induction false} DeliveredNeverWaitsAgain(maxSize: int, t: D.Table, ops: seq<Op>, delivered: set<int>)
    requires t.Valid() && t.Ordered()
    requires forall id | id in delivered :: id <= t.lastId && id !in t.WithStatus(D.Pending)
    requires CompletesOnlyDelivered(maxSize, t, ops, delivered)
    ensures NoWaitingJobCompleted(maxSize, t, ops)
    decreases |ops|
  {
    if ops != [] {
      var (t1, r) := D.Step(maxSize, t, ops[0]);
      D.StepKeepsOrder(maxSize, t, ops[0]);
      StepDelivers(maxSize, t, ops[0]);
      DeliveredNeverWaitsAgain(maxSize, t1, ops[1..], delivered + DeliveredId(r));
    }
  }

  lemma {:induction false} TableRunRefines(maxSize: int, t: D.Table, q: A.Queue, ops: seq<Op>)
    requires Represents(t, q)
    requires NoWaitingJobCompleted(maxSize, t, ops)
    ensures D.Run(maxSize, t, ops).1 == A.Run(maxSize, q, ops).1
    ensures Represents(D.Run(maxSize, t, ops).0, A.Run(maxSize, q, ops).0)
    decreases |ops|
  {
    if ops != [] {
      PendingIds(t, q.pending);
      StepRefines(maxSize, t, q, ops[0]);
      TableRunRefines(maxSize, D.Step(maxSize, t, ops[0]).0, A.Step(maxSize, q, ops[0]).0, ops[1..]);
    }
  }

  function EmptyTable(lastId: int): D.Table { D.Table(map[], lastId) }

  function EmptyRedis(counter: int): R.Store { R.Store([], map[], counter) }

  /** Interchangeable backends: starting empty, a table and a Redis server answer every
      sequence of operations alike (positions included) when the caller completes
      only jobs it was given. Ids differ by the constant by which the two counters
      differ, in the answers and in the ids passed to `complete`. */
  lemma BackendsAgree(maxSize: int, lastId: int, d: int, ops: seq<Op>)
    requires CompletesOnlyDelivered(maxSize, EmptyTable(lastId), ops, {})
    ensures R.Run(maxSize, EmptyRedis(lastId + d), A.ShiftOps(ops, d)).1
         == A.ShiftResults(D.Run(maxSize, EmptyTable(lastId), ops).1, d)
  {
    var t, q := EmptyTable(lastId), A.Queue([], {}, lastId);
    assert t.WithStatus(D.Pending) == {} && t.WithStatus(D.Processing) == {};
    DeliveredNeverWaitsAgain(maxSize, t, ops, {});
    TableRunRefines(maxSize, t, q, ops);
    A.ShiftRun(maxSize, q, d, ops);
    assert EmptyRedis(lastId + d).Model() == A.Shift(q, d);
    R.RunRefines(maxSize, EmptyRedis(lastId + d), A.ShiftOps(ops, d));
  }

  /** Without that discipline they do not: completing the id of a waiting job removes
      the row, but not the list element. */
  lemma BackendsDisagree(request: Request)
    ensures var ops := [Enqueue(request), Complete(1), Size];
            && D.Run(0, EmptyTable(0), ops).1 == [Accepted(true), Done, Count(0)]
            && R.Run(0, EmptyRedis(0), ops).1 == [Accepted(true), Done, Count(1)]
  {
    var ops := [Enqueue(request), Complete(1), Size];
    assert ops[1..] == [Complete(1), Size] && ops[1..][1..] == [Size] && ops[1..][1..][1..] == [];
    var t, s := EmptyTable(0).Insert(request), EmptyRedis(0).Push(request);
    assert t.Delete({1}).WithStatus(D.Pending) == {};
    assert D.Run(0, t.Delete({1}), [Size]).1 == [Count(0)];
    assert R.Run(0, s.(inFlight := s.inFlight - {1}), [Size]).1 == [Count(1)];
    assert D.Run(0, t, ops[1..]).1 == [Done, Count(0)];
    assert R.Run(0, s, ops[1..]).1 == [Done, Count(1)];
  }

  /** `position` foretells the dequeues of the table: after any operations, purges and
      restarts, an answer k >= 1 means that the k-th dequeue from now on is the first to
      return a job of the photo, whatever is enqueued or finished in between. */
  lemma TablePositionForetells(maxSize: int, events: seq<D.Event>, photo: string, ops: seq<Op>)
    requires var t := D.Life(maxSize, EmptyTable(0), events);
             && PurgeFree(ops) && NoWaitingJobCompleted(maxSize, t, ops)
             && t.Position(photo).Some? && t.Position(photo).value >= 1
    ensures var t := D.Life(maxSize, EmptyTable(0), events);
            var k := t.Position(photo).value;
            var got := Deliveries(D.Run(maxSize, t, ops).1);
            && (forall i | 0 <= i < k - 1 && i < |got| :: got[i].Some? && got[i].value.request.photo != photo)
            && (|got| >= k ==> got[k - 1].Some? && got[k - 1].value.request.photo == photo)
  {
    D.LifeKeepsOrder(maxSize, EmptyTable(0), events);
    var t := D.Life(maxSize, EmptyTable(0), events);
    EveryTableIsAQueue(t);
    PositionAgrees(t, QueueOf(t), photo);
    TableRunRefines(maxSize, t, QueueOf(t), ops);
    A.PositionForetells(maxSize, QueueOf(t), photo, ops);
  }

  /** The same for Redis, where no discipline of `complete` is needed. */
  lemma RedisPositionForetells(maxSize: int, s: R.Store, photo: string, ops: seq<Op>)
    requires s.Valid()
    requires PurgeFree(ops)
    requires s.Position(photo).Some? && s.Position(photo).value >= 1
    ensures var k := s.Position(photo).value;
            var got := Deliveries(R.Run(maxSize, s, ops).1);
            && (forall i | 0 <= i < k - 1 && i < |got| :: got[i].Some? && got[i].value.request.photo != photo)
            && (|got| >= k ==> got[k - 1].Some? && got[k - 1].value.request.photo == photo)
  {
    R.StepRefines(maxSize, s, Position(photo));
    R.RunRefines(maxSize, s, ops);
    A.PositionForetells(maxSize, s.Model(), photo, ops);
  }
}
