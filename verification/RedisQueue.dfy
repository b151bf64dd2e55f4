/** The Redis queue seen from one process: a list of waiting jobs, a hash of jobs
    in flight keyed by id, and a counter. */
module RedisQueue {
  import opened FiniteSets
  import opened Jobs
  import A = AbstractQueue

  datatype Store = Store(jobs: seq<Job>, inFlight: map<int, Job>, counter: int) {

    function Push(request: Request): Store {
      Store(jobs + [Job(counter + 1, request)], inFlight, counter + 1)
    }

    // Jobs in flight are scanned first, then the list from its head.
    function Position(photo: string): Option<nat> {
      if exists id | id in inFlight :: inFlight[id].request.photo == photo then Some(0)
      else match A.FirstFor(jobs, photo)
        case Some(index) => Some(index + 1)
        case None => None
    }

    // Ids come from the counter, and no job is in two places.
    ghost predicate Valid() {
      && (forall id | id in inFlight :: inFlight[id].id == id && id <= counter)
      && (forall i | 0 <= i < |jobs| :: jobs[i].id <= counter && jobs[i].id !in inFlight)
      && (forall i, j | 0 <= i < j < |jobs| :: jobs[i].id != jobs[j].id)
    }

    // HVALS
    function Values(): set<Job> {
      set id | id in inFlight :: inFlight[id]
    }

    ghost function Model(): A.Queue {
      A.Queue(jobs, Values(), counter)
    }
  }

  function Step(maxSize: int, s: Store, op: Op): (Store, Result) {
    match op
    case Enqueue(request) =>
      if |s.jobs| >= maxSize && maxSize > 0 then (s, Accepted(false))
      else (s.Push(request), Accepted(true))
    case EnqueueIfIdle(request) =>
      if |s.jobs| + |s.inFlight| > 0 then (s, Accepted(false))
      else (s.Push(request), Accepted(true))
    case Dequeue =>
      if s.jobs == [] then (s, Delivered(None))
      else
        var job := s.jobs[0];
        (Store(s.jobs[1..], s.inFlight[job.id := job], s.counter), Delivered(Some(job)))
    case Complete(id) => (s.(inFlight := s.inFlight - {id}), Done)
    case Size => (s, Count(|s.jobs|))
    case Purge => (s.(jobs := []), Done)
    case Position(photo) => (s, Rank(s.Position(photo)))
  }

  function Run(maxSize: int, s: Store, ops: seq<Op>): (Store, seq<Result>)
    decreases |ops|
  {
    if ops == [] then (s, [])
    else
      var (s1, r) := Step(maxSize, s, ops[0]);
      var (s2, rs) := Run(maxSize, s1, ops[1..]);
      (s2, [r] + rs)
  }

  lemma PushRefines(s: Store, request: Request)
    requires s.Valid()
    ensures s.Push(request).Valid() && s.Push(request).Model() == s.Model().Push(request)
    ensures |s.jobs| + |s.inFlight| > 0 <==> |s.Model().pending| > 0 || s.Model().inFlight != {}
  {
    if s.inFlight.Keys != {} {
      assert s.inFlight[Least(s.inFlight.Keys)] in s.Values();
    }
  }

  lemma DequeueRefines(maxSize: int, s: Store)
    requires s.Valid()
    ensures Step(maxSize, s, Dequeue).0.Valid()
    ensures A.Step(maxSize, s.Model(), Dequeue) == (Step(maxSize, s, Dequeue).0.Model(), Step(maxSize, s, Dequeue).1)
  {
    if s.jobs != [] {
      var job := s.jobs[0];
      var s' := Step(maxSize, s, Dequeue).0;
      forall j | j in s.Values() + {job} ensures j in s'.Values() {
        if j == job { assert s'.inFlight[job.id] == j; } else {
          var id :| id in s.inFlight && s.inFlight[id] == j;
          assert s'.inFlight[id] == j;
        }
      }
      assert s'.Values() == s.Values() + {job};
    }
  }

  lemma CompleteRefines(maxSize: int, s: Store, id: int)
    requires s.Valid()
    ensures Step(maxSize, s, Complete(id)).0.Valid()
    ensures A.Step(maxSize, s.Model(), Complete(id)).0 == Step(maxSize, s, Complete(id)).0.Model()
  {
    var s' := Step(maxSize, s, Complete(id)).0;
    var rest := set j | j in s.Values() && j.id != id;
    forall j | j in rest ensures j in s'.Values() {
      assert s'.inFlight[j.id] == j;
    }
    assert s'.Values() == rest;
  }

  lemma PositionRefines(s: Store, photo: string)
    requires s.Valid()
    ensures s.Position(photo) == s.Model().Position(photo)
  {
    if j :| j in s.Values() && j.request.photo == photo { assert s.inFlight[j.id] == j; }
    if id :| id in s.inFlight && s.inFlight[id].request.photo == photo { assert s.inFlight[id] in s.Values(); }
  }

  lemma StepRefines(maxSize: int, s: Store, op: Op)
    requires s.Valid()
    ensures Step(maxSize, s, op).0.Valid()
    ensures A.Step(maxSize, s.Model(), op) == (Step(maxSize, s, op).0.Model(), Step(maxSize, s, op).1)
  {
    match op
    case Enqueue(request) => PushRefines(s, request);
    case EnqueueIfIdle(request) => PushRefines(s, request);
    case Dequeue => DequeueRefines(maxSize, s);
    case Complete(id) => CompleteRefines(maxSize, s, id);
    case Position(photo) => PositionRefines(s, photo);
    case Size =>
    case Purge =>
  }

  /** The list and the hash implement the abstract queue: every sequence of
      operations gets the same answers. */
  lemma {:induction false} RunRefines(maxSize: int, s: Store, ops: seq<Op>)
    requires s.Valid()
    ensures Run(maxSize, s, ops).0.Valid()
    ensures A.Run(maxSize, s.Model(), ops) == (Run(maxSize, s, ops).0.Model(), Run(maxSize, s, ops).1)
    decreases |ops|
  {
    if ops != [] {
      StepRefines(maxSize, s, ops[0]);
      RunRefines(maxSize, Step(maxSize, s, ops[0]).0, ops[1..]);
    }
  }

  /** Nothing returns a job to the list when its process dies: until that very job is
      completed, whatever else happens, the queue never counts as idle again. */
  lemma {:induction false} LostJobBlocksIdle(maxSize: int, s: Store, lost: int, ops: seq<Op>, i: nat)
    requires lost in s.inFlight
    requires Complete(lost) !in ops
    requires i < |ops| && ops[i].EnqueueIfIdle?
    ensures |Run(maxSize, s, ops).1| == |ops|
    ensures Run(maxSize, s, ops).1[i] == Accepted(false)
    decreases |ops|
  {
    var s1 := Step(maxSize, s, ops[0]).0;
    assert ops[0] in ops;
    assert lost in s1.inFlight;
    RunLength(maxSize, s1, ops[1..]);
    if i == 0 {
      assert |s.inFlight| > 0;
    } else {
      LostJobBlocksIdle(maxSize, s1, lost, ops[1..], i - 1);
    }
  }

  lemma {:induction false} RunLength(maxSize: int, s: Store, ops: seq<Op>)
    ensures |Run(maxSize, s, ops).1| == |ops|
    decreases |ops|
  {
    if ops != [] { RunLength(maxSize, Step(maxSize, s, ops[0]).0, ops[1..]); }
  }

  /** The queue object of one process; its commands are not interleaved with others. */
  class RedisJobQueue {
    const maxSize: int
    var jobs: seq<Job>
    var inFlight: map<int, Job>
    var counter: int

    function Contents(): Store
      reads this
    {
      Store(jobs, inFlight, counter)
    }

    ghost predicate Valid()
      reads this
    {
      Contents().Valid()
    }

    // Connecting to the server changes nothing there: there is no recovery.
    constructor (server: Store, maxSize: int)
      requires server.Valid()
      ensures Valid() && Contents() == server && this.maxSize == maxSize
    {
      this.maxSize := maxSize;
      jobs, inFlight, counter := server.jobs, server.inFlight, server.counter;
    }

    method Enqueue(request: Request) returns (ok: bool)
      requires Valid()
      modifies this
      ensures Valid() && (Contents(), Accepted(ok)) == Step(maxSize, old(Contents()), Op.Enqueue(request))
      ensures (Contents().Model(), Accepted(ok)) == A.Step(maxSize, old(Contents().Model()), Op.Enqueue(request))
    {
      StepRefines(maxSize, Contents(), Op.Enqueue(request));
      if |jobs| >= maxSize && maxSize > 0 {
        return false;
      }
      counter := counter + 1;
      jobs := jobs + [Job(counter, request)];
      return true;
    }

    method EnqueueIfIdle(request: Request) returns (ok: bool)
      requires Valid()
      modifies this
      ensures Valid() && (Contents(), Accepted(ok)) == Step(maxSize, old(Contents()), Op.EnqueueIfIdle(request))
      ensures (Contents().Model(), Accepted(ok)) == A.Step(maxSize, old(Contents().Model()), Op.EnqueueIfIdle(request))
    {
      StepRefines(maxSize, Contents(), Op.EnqueueIfIdle(request));
      if |jobs| + |inFlight| > 0 {
        return false;
      }
      counter := counter + 1;
      jobs := jobs + [Job(counter, request)];
      return true;
    }

    method Dequeue() returns (job: Option<Job>)
      requires Valid()
      modifies this
      ensures Valid() && (Contents(), Delivered(job)) == Step(maxSize, old(Contents()), Op.Dequeue)
      ensures (Contents().Model(), Delivered(job)) == A.Step(maxSize, old(Contents().Model()), Op.Dequeue)
    {
      StepRefines(maxSize, Contents(), Op.Dequeue);
      if jobs == [] {
        return None;
      }
      job := Some(jobs[0]);
      jobs := jobs[1..];
      inFlight := inFlight[job.value.id := job.value];
    }

    method Complete(id: int)
      requires Valid()
      modifies this
      ensures Valid() && Contents() == Step(maxSize, old(Contents()), Op.Complete(id)).0
      ensures Contents().Model() == A.Step(maxSize, old(Contents().Model()), Op.Complete(id)).0
    {
      StepRefines(maxSize, Contents(), Op.Complete(id));
      inFlight := inFlight - {id};
    }

    method Purge()
      requires Valid()
      modifies this
      ensures Valid() && Contents() == Step(maxSize, old(Contents()), Op.Purge).0
      ensures Contents().Model() == A.Step(maxSize, old(Contents().Model()), Op.Purge).0
      ensures forall photo :: Contents().Position(photo) == if old(Contents().Position(photo)) == Some(0) then Some(0) else None
    {
      StepRefines(maxSize, Contents(), Op.Purge);
      jobs := [];
    }

    method Size() returns (n: nat)
      ensures (Contents(), Count(n)) == Step(maxSize, Contents(), Op.Size)
      ensures (Contents().Model(), Count(n)) == A.Step(maxSize, Contents().Model(), Op.Size)
      ensures forall k: nat :: A.DequeuesSucceed(maxSize, Contents().Model(), k) <==> k <= n
    {
      forall k: nat ensures A.DequeuesSucceed(maxSize, Contents().Model(), k) <==> k <= |jobs| {
        A.SizeForetells(maxSize, Contents().Model(), k);
      }
      n := |jobs|;
    }

    /** Scans the values of the hash in no particular order, then the list. */
    method Position(photo: string) returns (rank: Option<nat>)
      ensures (Contents(), Rank(rank)) == Step(maxSize, Contents(), Op.Position(photo))
      ensures rank.Some? && rank.value > 0 ==>
                && rank.value <= |jobs| && jobs[rank.value - 1].request.photo == photo
                && (forall i | 0 <= i < rank.value - 1 :: jobs[i].request.photo != photo)
    {
      var values := Contents().Values();
      while values != {}
        invariant values <= Contents().Values()
        invariant forall j | j in Contents().Values() && j !in values :: j.request.photo != photo
      {
        var j :| j in values;
        if j.request.photo == photo {
          assert exists id | id in inFlight :: inFlight[id].request.photo == photo;
          return Some(0);
        }
        values := values - {j};
      }
      assert forall id | id in inFlight :: inFlight[id] in Contents().Values();
      for i := 0 to |jobs|
        invariant forall k | 0 <= k < i :: jobs[k].request.photo != photo
      {
        if jobs[i].request.photo == photo {
          return Some(i + 1);
        }
      }
      return None;
    }
  }
}
