/** The queue that every backend is meant to be: the pending jobs in order of
    arrival, and the set of jobs being processed. */
module AbstractQueue {
  import opened Jobs

  datatype Queue = Queue(pending: seq<Job>, inFlight: set<Job>, lastId: int) {

    function Push(request: Request): Queue {
      Queue(pending + [Job(lastId + 1, request)], inFlight, lastId + 1)
    }

    // 0 while a job of the photo is in flight, else its 1-based rank.
    function Position(photo: string): Option<nat> {
      if exists j | j in inFlight :: j.request.photo == photo then Some(0)
      else match FirstFor(pending, photo)
        case Some(i) => Some(i + 1)
        case None => None
    }
  }

  // Index of the first job of a photo.
  function FirstFor(jobs: seq<Job>, photo: string): (index: Option<nat>)
    ensures index.Some? ==>
              && index.value < |jobs| && jobs[index.value].request.photo == photo
              && forall i | 0 <= i < index.value :: jobs[i].request.photo != photo
    ensures index.None? ==> forall i | 0 <= i < |jobs| :: jobs[i].request.photo != photo
  {
    if jobs == [] then None
    else if jobs[0].request.photo == photo then Some(0)
    else match FirstFor(jobs[1..], photo)
      case Some(i) => Some(i + 1)
      case None => None
  }

  function Step(maxSize: int, q: Queue, op: Op): (Queue, Result) {
    match op
    case Enqueue(request) =>
      if |q.pending| >= maxSize && maxSize > 0 then (q, Accepted(false))
      else (q.Push(request), Accepted(true))
    case EnqueueIfIdle(request) =>
      if |q.pending| > 0 || q.inFlight != {} then (q, Accepted(false))
      else (q.Push(request), Accepted(true))
    case Dequeue =>
      if q.pending == [] then (q, Delivered(None))
      else (Queue(q.pending[1..], q.inFlight + {q.pending[0]}, q.lastId), Delivered(Some(q.pending[0])))
    case Complete(id) => (q.(inFlight := set j | j in q.inFlight && j.id != id), Done)
    case Size => (q, Count(|q.pending|))
    case Purge => (q.(pending := []), Done)
    case Position(photo) => (q, Rank(q.Position(photo)))
  }

  function Run(maxSize: int, q: Queue, ops: seq<Op>): (Queue, seq<Result>)
    decreases |ops|
  {
    if ops == [] then (q, [])
    else
      var (q1, r) := Step(maxSize, q, ops[0]);
      var (q2, rs) := Run(maxSize, q1, ops[1..]);
      (q2, [r] + rs)
  }

  /** First in, first out: whatever else is interleaved, the dequeues of a
      purge-free run hand out the jobs that were pending at its start in their order. */
  lemma {:induction false} Fifo(maxSize: int, q: Queue, ops: seq<Op>)
    requires PurgeFree(ops)
    ensures var got := Deliveries(Run(maxSize, q, ops).1);
            forall i | 0 <= i < |got| && i < |q.pending| :: got[i] == Some(q.pending[i])
    decreases |ops|
  {
    if ops != [] {
      var (q1, r) := Step(maxSize, q, ops[0]);
      var rest := Run(maxSize, q1, ops[1..]).1;
      Fifo(maxSize, q1, ops[1..]);
      assert ([r] + rest)[1..] == rest;
      var got, later := Deliveries([r] + rest), Deliveries(rest);
      assert got == (if r.Delivered? then [r.job] else []) + later;
      forall i | 0 <= i < |got| && i < |q.pending|
        ensures got[i] == Some(q.pending[i])
      {
        if ops[0].Dequeue? {
          if i > 0 { assert got[i] == later[i - 1] && q1.pending[i - 1] == q.pending[i]; }
        } else {
          assert got[i] == later[i] && q1.pending[i] == q.pending[i];
        }
      }
    }
  }

  /** `position` is a promise about the future: an answer k >= 1 means that of all
      dequeues to come the k-th is the first to return a job of that photo, and
      that none of them finds the queue empty. */
  lemma PositionForetells(maxSize: int, q: Queue, photo: string, ops: seq<Op>)
    requires PurgeFree(ops)
    requires q.Position(photo).Some? && q.Position(photo).value >= 1
    ensures var k := q.Position(photo).value;
            var got := Deliveries(Run(maxSize, q, ops).1);
            && (forall i | 0 <= i < k - 1 && i < |got| :: got[i].Some? && got[i].value.request.photo != photo)
            && (|got| >= k ==> got[k - 1].Some? && got[k - 1].value.request.photo == photo)
  {
    Fifo(maxSize, q, ops);
  }

  function Requests(jobs: seq<Job>): seq<Request> {
    seq(|jobs|, i requires 0 <= i < |jobs| => jobs[i].request)
  }

  // The requests that an enqueue of the run accepted, in order.
  function AcceptedRequests(ops: seq<Op>, results: seq<Result>): seq<Request>
    requires |ops| == |results|
  {
    if ops == [] then []
    else
      (if (ops[0].Enqueue? || ops[0].EnqueueIfIdle?) && results[0] == Accepted(true) then [ops[0].request] else [])
      + AcceptedRequests(ops[1..], results[1..])
  }

  // The requests that its dequeues delivered.
  function DeliveredRequests(results: seq<Result>): seq<Request> {
    if results == [] then []
    else
      (if results[0].Delivered? && results[0].job.Some? then [results[0].job.value.request] else [])
      + DeliveredRequests(results[1..])
  }

  lemma {:induction false} RunLength(maxSize: int, q: Queue, ops: seq<Op>)
    ensures |Run(maxSize, q, ops).1| == |ops|
    decreases |ops|
  {
    if ops != [] { RunLength(maxSize, Step(maxSize, q, ops[0]).0, ops[1..]); }
  }

  lemma StepConserves(maxSize: int, q: Queue, op: Op)
    requires !op.Purge?
    ensures var (q', r) := Step(maxSize, q, op);
            Requests(q.pending) + AcceptedRequests([op], [r]) == DeliveredRequests([r]) + Requests(q'.pending)
  {
    var (q', r) := Step(maxSize, q, op);
    assert AcceptedRequests([op][1..], [r][1..]) == [] && DeliveredRequests([r][1..]) == [];
  }

  lemma AcceptedFirst(ops: seq<Op>, r: Result, rs: seq<Result>)
    requires |ops| == 1 + |rs|
    ensures AcceptedRequests(ops, [r] + rs) == AcceptedRequests([ops[0]], [r]) + AcceptedRequests(ops[1..], rs)
  {
    assert ([r] + rs)[1..] == rs;
    assert AcceptedRequests([ops[0]][1..], [r][1..]) == [];
  }

  lemma DeliveredFirst(r: Result, rs: seq<Result>)
    ensures DeliveredRequests([r] + rs) == DeliveredRequests([r]) + DeliveredRequests(rs)
  {
    assert ([r] + rs)[1..] == rs;
    assert DeliveredRequests([r][1..]) == [];
  }

  lemma Chained<T>(p: seq<T>, a: seq<T>, d: seq<T>, p1: seq<T>, a1: seq<T>, d1: seq<T>, p2: seq<T>)
    requires p + a == d + p1 && p1 + a1 == d1 + p2
    ensures p + (a + a1) == (d + d1) + p2
  {
    assert p + (a + a1) == (p + a) + a1;
    assert (d + p1) + a1 == d + (p1 + a1);
    assert d + (d1 + p2) == (d + d1) + p2;
  }

  /** What goes in comes out, as it was and in its order: in every purge-free run, what
      waited before and what was accepted, is what was delivered and what still waits. */
  lemma {:induction false} WhatGoesInComesOut(maxSize: int, q: Queue, ops: seq<Op>)
    requires PurgeFree(ops)
    ensures var (q', results) := Run(maxSize, q, ops);
            && |results| == |ops|
            && Requests(q.pending) + AcceptedRequests(ops, results) == DeliveredRequests(results) + Requests(q'.pending)
    decreases |ops|
  {
    RunLength(maxSize, q, ops);
    if ops != [] {
      var (q1, r) := Step(maxSize, q, ops[0]);
      var (q2, rs) := Run(maxSize, q1, ops[1..]);
      WhatGoesInComesOut(maxSize, q1, ops[1..]);
      StepConserves(maxSize, q, ops[0]);
      AcceptedFirst(ops, r, rs);
      DeliveredFirst(r, rs);
      Chained(Requests(q.pending), AcceptedRequests([ops[0]], [r]), DeliveredRequests([r]), Requests(q1.pending),
              AcceptedRequests(ops[1..], rs), DeliveredRequests(rs), Requests(q2.pending));
    }
  }

  /** An enqueue is refused exactly when there is a limit and that many jobs wait at that
      moment; without a limit none ever is. */
  lemma {:induction false} RefusedExactlyWhenFull(maxSize: int, q: Queue, ops: seq<Op>, i: nat)
    requires i < |ops| && ops[i].Enqueue?
    ensures var results := Run(maxSize, q, ops).1;
            && |results| == |ops|
            && (results[i] == Accepted(false) || results[i] == Accepted(true))
            && (results[i] == Accepted(false) <==> 0 < maxSize <= |Run(maxSize, q, ops[..i]).0.pending|)
    decreases |ops|
  {
    RunLength(maxSize, q, ops);
    var q1 := Step(maxSize, q, ops[0]).0;
    if i > 0 {
      RefusedExactlyWhenFull(maxSize, q1, ops[1..], i - 1);
      assert ops[..i][1..] == ops[1..][..i - 1];
      assert Run(maxSize, q, ops).1[i] == Run(maxSize, q1, ops[1..]).1[i - 1];
    }
  }

  // k dequeues in a row all deliver a job.
  predicate DequeuesSucceed(maxSize: int, q: Queue, k: nat)
    decreases k
  {
    k > 0 ==>
      var (q1, r) := Step(maxSize, q, Dequeue);
      r.job.Some? && DequeuesSucceed(maxSize, q1, k - 1)
  }

  /** `size` counts the dequeues that will succeed from now on. */
  lemma {:induction false} SizeForetells(maxSize: int, q: Queue, k: nat)
    ensures DequeuesSucceed(maxSize, q, k) <==> k <= |q.pending|
    decreases k
  {
    if k > 0 && q.pending != [] { SizeForetells(maxSize, Step(maxSize, q, Dequeue).0, k - 1); }
  }

  // ---------------------------------------------------------------------
  // Renaming of ids: nothing but the ids depends on where the counter starts.
  // ---------------------------------------------------------------------

  function ShiftJob(j: Job, d: int): Job { j.(id := j.id + d) }

  function ShiftJobs(jobs: seq<Job>, d: int): seq<Job> { seq(|jobs|, i requires 0 <= i < |jobs| => ShiftJob(jobs[i], d)) }

  function Shift(q: Queue, d: int): Queue {
    Queue(ShiftJobs(q.pending, d), set j | j in q.inFlight :: ShiftJob(j, d), q.lastId + d)
  }

  function ShiftOp(op: Op, d: int): Op {
    if op.Complete? then Complete(op.id + d) else op
  }

  function ShiftOps(ops: seq<Op>, d: int): seq<Op> { seq(|ops|, i requires 0 <= i < |ops| => ShiftOp(ops[i], d)) }

  function ShiftResult(r: Result, d: int): Result {
    if r.Delivered? && r.job.Some? then Delivered(Some(ShiftJob(r.job.value, d))) else r
  }

  function ShiftResults(rs: seq<Result>, d: int): seq<Result> {
    seq(|rs|, i requires 0 <= i < |rs| => ShiftResult(rs[i], d))
  }

  lemma ShiftPosition(q: Queue, d: int, photo: string)
    ensures Shift(q, d).Position(photo) == q.Position(photo)
  {
    if j :| j in q.inFlight && j.request.photo == photo {
      assert ShiftJob(j, d) in Shift(q, d).inFlight;
    }
    var a, b := FirstFor(q.pending, photo), FirstFor(Shift(q, d).pending, photo);
    assert forall i | 0 <= i < |q.pending| :: Shift(q, d).pending[i].request == q.pending[i].request;
  }

  lemma ShiftStep(maxSize: int, q: Queue, d: int, op: Op)
    ensures Step(maxSize, Shift(q, d), ShiftOp(op, d)).0 == Shift(Step(maxSize, q, op).0, d)
    ensures Step(maxSize, Shift(q, d), ShiftOp(op, d)).1 == ShiftResult(Step(maxSize, q, op).1, d)
  {
    var s := Shift(q, d);
    if j :| j in q.inFlight { assert ShiftJob(j, d) in s.inFlight; }
    match op
    case Enqueue(request) =>
      assert s.Push(request).pending == Shift(q.Push(request), d).pending;
    case EnqueueIfIdle(request) =>
      assert s.Push(request).pending == Shift(q.Push(request), d).pending;
    case Dequeue =>
      if q.pending != [] {
        var q1 := Step(maxSize, q, op).0;
        assert s.pending[1..] == Shift(q1, d).pending;
        assert s.inFlight + {s.pending[0]} == Shift(q1, d).inFlight;
      }
    case Complete(id) =>
      var q1 := Step(maxSize, q, op).0;
      var s1 := Step(maxSize, s, ShiftOp(op, d)).0;
      assert s1.inFlight == Shift(q1, d).inFlight;
    case Position(photo) => ShiftPosition(q, d, photo);
    case Size =>
    case Purge => assert Shift(q.(pending := []), d).pending == [];
  }

  lemma {:induction false} ShiftRun(maxSize: int, q: Queue, d: int, ops: seq<Op>)
    ensures Run(maxSize, Shift(q, d), ShiftOps(ops, d)).1 == ShiftResults(Run(maxSize, q, ops).1, d)
    decreases |ops|
  {
    if ops == [] {
      assert ShiftOps(ops, d) == [];
    } else {
      ShiftStep(maxSize, q, d, ops[0]);
      var (q1, r) := Step(maxSize, q, ops[0]);
      ShiftRun(maxSize, q1, d, ops[1..]);
      assert ShiftOps(ops, d)[1..] == ShiftOps(ops[1..], d);
      var rs := Run(maxSize, q1, ops[1..]).1;
      assert ShiftResults([r] + rs, d) == [ShiftResult(r, d)] + ShiftResults(rs, d);
    }
  }
}
