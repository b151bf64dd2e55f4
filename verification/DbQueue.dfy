/** The database queue: one table of rows keyed by an auto-increment id, with a
    status that changes in place. Every operation is one transaction. */
module DbQueue {
  import opened Jobs
  import opened FiniteSets

  datatype Status = Pending | Processing

  datatype Row = Row(job: Job, status: Status)

  /** The job table: its rows by primary key, and the highest id ever given out
      (AUTOINCREMENT keeps it even when the row is gone). */
  datatype Table = Table(rows: map<int, Row>, lastId: int) {

    function WithStatus(status: Status): set<int> {
      set id | id in rows && rows[id].status == status
    }

    function RowsOf(photo: string): set<int> {
      set id | id in rows && rows[id].job.request.photo == photo
    }

    function Insert(request: Request): Table {
      Table(rows[lastId + 1 := Row(Job(lastId + 1, request), Pending)], lastId + 1)
    }

    function Mark(id: int): Table
      requires id in rows
    {
      this.(rows := rows[id := rows[id].(status := Processing)])
    }

    function Delete(ids: set<int>): Table {
      this.(rows := rows - ids)
    }

    // What opening the queue does to rows that an earlier process left in flight.
    function Recovered(): Table {
      this.(rows := map id | id in rows :: rows[id].(status := Pending))
    }

    // Only the lowest row of the photo is looked at.
    function Position(photo: string): Option<nat> {
      var mine := RowsOf(photo);
      if mine == {} then None
      else
        var id := Least(mine);
        if rows[id].status == Processing then Some(0)
        else Some(|set p | p in WithStatus(Pending) && p <= id|)
    }

    ghost predicate Valid() {
      forall id | id in rows :: rows[id].job.id == id && id <= lastId
    }

    // Jobs in flight are older than all that wait.
    ghost predicate Ordered() {
      forall p, q | p in WithStatus(Processing) && q in WithStatus(Pending) :: p < q
    }
  }

  function Step(maxSize: int, t: Table, op: Op): (Table, Result) {
    match op
    case Enqueue(request) =>
      if |t.WithStatus(Pending)| >= maxSize && maxSize > 0 then (t, Accepted(false))
      else (t.Insert(request), Accepted(true))
    case EnqueueIfIdle(request) =>
      if |t.rows| > 0 then (t, Accepted(false))
      else (t.Insert(request), Accepted(true))
    case Dequeue =>
      var pending := t.WithStatus(Pending);
      if pending == {} then (t, Delivered(None))
      else var id := Least(pending); (t.Mark(id), Delivered(Some(t.rows[id].job)))
    case Complete(id) => (t.Delete({id}), Done)
    case Size => (t, Count(|t.WithStatus(Pending)|))
    case Purge => (t.Delete(t.WithStatus(Pending)), Done)
    case Position(photo) => (t, Rank(t.Position(photo)))
  }

  function Run(maxSize: int, t: Table, ops: seq<Op>): (Table, seq<Result>)
    decreases |ops|
  {
    if ops == [] then (t, [])
    else
      var (t1, r) := Step(maxSize, t, ops[0]);
      var (t2, rs) := Run(maxSize, t1, ops[1..]);
      (t2, [r] + rs)
  }

  lemma StepKeepsOrder(maxSize: int, t: Table, op: Op)
    requires t.Valid() && t.Ordered()
    ensures var t' := Step(maxSize, t, op).0; t'.Valid() && t'.Ordered() && t'.lastId >= t.lastId
  {
    var t' := Step(maxSize, t, op).0;
    forall p, q | p in t'.WithStatus(Processing) && q in t'.WithStatus(Pending)
      ensures p < q
    {
      assert q in t.WithStatus(Pending) || q == t.lastId + 1;
      assert p in t.WithStatus(Processing) || (op.Dequeue? && p == Least(t.WithStatus(Pending)));
    }
  }

  // k dequeues in a row all deliver a job.
  predicate DequeuesSucceed(maxSize: int, t: Table, k: nat)
    decreases k
  {
    k > 0 ==>
      var (t1, r) := Step(maxSize, t, Dequeue);
      r.job.Some? && DequeuesSucceed(maxSize, t1, k - 1)
  }

  /** `size` counts the dequeues that will succeed from now on. */
  lemma {:induction false} SizeForetells(maxSize: int, t: Table, k: nat)
    ensures DequeuesSucceed(maxSize, t, k) <==> k <= |t.WithStatus(Pending)|
    decreases k
  {
    var pending := t.WithStatus(Pending);
    if k > 0 && pending != {} {
      var t1 := Step(maxSize, t, Dequeue).0;
      assert t1.WithStatus(Pending) == pending - {Least(pending)};
      SizeForetells(maxSize, t1, k - 1);
    }
  }

  // A run of one process over its whole life: client operations, and restarts
  // after which every row in flight is pending again.
  datatype Event = Client(op: Op) | Restart

  function Life(maxSize: int, t: Table, events: seq<Event>): Table
    decreases |events|
  {
    if events == [] then t
    else
      var t1 := match events[0]
                case Client(op) => Step(maxSize, t, op).0
                case Restart => t.Recovered();
      Life(maxSize, t1, events[1..])
  }

  /** Through any operations, purges and restarts included, jobs in flight
      stay older than all that wait. */
  lemma {:induction false} LifeKeepsOrder(maxSize: int, t: Table, events: seq<Event>)
    requires t.Valid() && t.Ordered()
    ensures Life(maxSize, t, events).Valid() && Life(maxSize, t, events).Ordered()
    decreases |events|
  {
    if events != [] {
      match events[0]
      case Client(op) =>
        StepKeepsOrder(maxSize, t, op);
        LifeKeepsOrder(maxSize, Step(maxSize, t, op).0, events[1..]);
      case Restart =>
        LifeKeepsOrder(maxSize, t.Recovered(), events[1..]);
    }
  }

  /** Because of that order, looking at the lowest row is enough: the answer is 0
      exactly when some job of the photo is in flight, None exactly when it has no
      job, and otherwise counts the jobs up to the photo's oldest waiting one. */
  lemma PositionMeans(maxSize: int, t0: Table, events: seq<Event>, photo: string)
    requires t0.Valid() && t0.Ordered()
    ensures var t := Life(maxSize, t0, events);
            var pos := t.Position(photo);
            && (pos == Some(0) <==> exists id :: id in t.WithStatus(Processing) && t.rows[id].job.request.photo == photo)
            && (pos == None <==> forall id | id in t.rows :: t.rows[id].job.request.photo != photo)
            && (pos.Some? && pos.value > 0 ==>
                  exists id :: && id in t.WithStatus(Pending) && t.rows[id].job.request.photo == photo
                               && (forall other | other in t.RowsOf(photo) :: id <= other)
                               && pos.value == |set p | p in t.WithStatus(Pending) && p <= id|)
  {
    LifeKeepsOrder(maxSize, t0, events);
    var t := Life(maxSize, t0, events);
    var mine := t.RowsOf(photo);
    assert forall id | id in t.rows && t.rows[id].job.request.photo == photo :: id in mine;
    if mine != {} {
      var id := Least(mine);
      assert t.rows[id].job.request.photo == photo;
      if t.rows[id].status == Pending {
        var ahead := set p | p in t.WithStatus(Pending) && p <= id;
        assert id in t.WithStatus(Pending) && id in ahead;
        assert t.Position(photo) == Some(|ahead|) && |ahead| > 0;
      } else {
        assert id in t.WithStatus(Processing);
      }
    }
  }

  /** The queue object: each method is one transaction on the table. */
  class SQLiteJobQueue {
    const maxSize: int
    var rows: map<int, Row>
    var lastId: int

    function Contents(): Table
      reads this
    {
      Table(rows, lastId)
    }

    ghost predicate Valid()
      reads this
    {
      Contents().Valid() && Contents().Ordered()
    }

    // Opens the database file and recovers what a crash left in flight.
    constructor (file: Table, maxSize: int)
      requires file.Valid()
      ensures Valid() && this.maxSize == maxSize
      ensures Contents() == file.Recovered()
      ensures rows.Keys == file.rows.Keys && lastId == file.lastId
      ensures forall id | id in file.rows :: rows[id] == Row(file.rows[id].job, Pending)
      ensures Contents().WithStatus(Processing) == {}
    {
      this.maxSize := maxSize;
      rows := map id | id in file.rows :: file.rows[id].(status := Pending);
      lastId := file.lastId;
    }

    method Enqueue(request: Request) returns (ok: bool)
      requires Valid()
      modifies this
      ensures Valid()
      ensures (Contents(), Accepted(ok)) == Step(maxSize, old(Contents()), Op.Enqueue(request))
      ensures ok ==> lastId !in old(rows) && rows == old(rows)[lastId := Row(Job(lastId, request), Pending)]
      ensures ok <==> maxSize <= 0 || |old(Contents()).WithStatus(Pending)| < maxSize
    {
      var count := |Contents().WithStatus(Pending)|;
      if count >= maxSize && maxSize > 0 {
        return false;
      }
      StepKeepsOrder(maxSize, Contents(), Op.Enqueue(request));
      lastId := lastId + 1;
      rows := rows[lastId := Row(Job(lastId, request), Pending)];
      return true;
    }

    method EnqueueIfIdle(request: Request) returns (ok: bool)
      requires Valid()
      modifies this
      ensures Valid()
      ensures (Contents(), Accepted(ok)) == Step(maxSize, old(Contents()), Op.EnqueueIfIdle(request))
      ensures ok <==> old(rows) == map[]
      ensures ok ==> rows == map[lastId := Row(Job(lastId, request), Pending)]
    {
      StepKeepsOrder(maxSize, Contents(), Op.EnqueueIfIdle(request));
      if |rows| > 0 {
        return false;
      }
      lastId := lastId + 1;
      rows := rows[lastId := Row(Job(lastId, request), Pending)];
      return true;
    }

    method Dequeue() returns (job: Option<Job>)
      requires Valid()
      modifies this`rows
      ensures Valid()
      ensures (Contents(), Delivered(job)) == Step(maxSize, old(Contents()), Op.Dequeue)
      ensures job == None <==> old(Contents()).WithStatus(Pending) == {}
      ensures job.Some? ==>
                && job.value.id in old(Contents()).WithStatus(Pending)
                && (forall id | id in old(Contents()).WithStatus(Pending) :: job.value.id <= id)
                && job.value == old(rows)[job.value.id].job
                && rows == old(rows)[job.value.id := Row(job.value, Processing)]
    {
      StepKeepsOrder(maxSize, Contents(), Op.Dequeue);
      var pending := Contents().WithStatus(Pending);
      if pending == {} {
        return None;
      }
      var id := Least(pending);
      job := Some(rows[id].job);
      rows := rows[id := rows[id].(status := Processing)];
    }

    method Complete(id: int)
      requires Valid()
      modifies this`rows
      ensures Valid()
      ensures Contents() == Step(maxSize, old(Contents()), Op.Complete(id)).0
      ensures id !in rows && forall other | other != id ::
                (other in rows <==> other in old(rows)) && (other in rows ==> rows[other] == old(rows)[other])
    {
      StepKeepsOrder(maxSize, Contents(), Op.Complete(id));
      rows := rows - {id};
    }

    method Purge()
      requires Valid()
      modifies this`rows
      ensures Valid()
      ensures Contents() == Step(maxSize, old(Contents()), Op.Purge).0
      ensures forall id :: id in rows <==> id in old(rows) && old(rows)[id].status == Processing
      ensures forall id | id in rows :: rows[id] == old(rows)[id]
    {
      rows := rows - Contents().WithStatus(Pending);
    }

    method Size() returns (n: nat)
      ensures Step(maxSize, Contents(), Op.Size) == (Contents(), Count(n))
      ensures forall k: nat :: DequeuesSucceed(maxSize, Contents(), k) <==> k <= n
    {
      forall k: nat ensures DequeuesSucceed(maxSize, Contents(), k) <==> k <= |Contents().WithStatus(Pending)| {
        SizeForetells(maxSize, Contents(), k);
      }
      n := |Contents().WithStatus(Pending)|;
    }

    method Position(photo: string) returns (rank: Option<nat>)
      requires Valid()
      ensures Step(maxSize, Contents(), Op.Position(photo)) == (Contents(), Rank(rank))
      ensures rank == Some(0) <==> exists id :: id in Contents().WithStatus(Processing) && rows[id].job.request.photo == photo
    {
      PositionMeans(maxSize, Contents(), [], photo);
      var mine := Contents().RowsOf(photo);
      if mine == {} {
        return None;
      }
      var id := Least(mine);
      if rows[id].status == Processing {
        return Some(0);
      }
      var ahead := set p | p in Contents().WithStatus(Pending) && p <= id;
      return Some(|ahead|);
    }
  }
}
