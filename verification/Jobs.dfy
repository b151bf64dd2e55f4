/** Vocabulary shared by every queue: jobs, the operations of the queue
    interface and their results. */
module Jobs {

  datatype Option<+T> = None | Some(value: T)

  // What a client submits; the queue adds the id.
  datatype Request = Request(kind: string, photo: string, payload: string)

  datatype Job = Job(id: int, request: Request)

  const DETECT := "detect"
  const CLUSTER := "cluster"

  // The request that the worker dispatches when it finds the queue idle.
  const CLUSTERING := Request(CLUSTER, "", "{}")

  // The queue interface: one constructor per operation.
  datatype Op =
    | Enqueue(request: Request)
    | EnqueueIfIdle(request: Request)
    | Dequeue
    | Complete(id: int)
    | Size
    | Purge
    | Position(photo: string)

  datatype Result =
    | Accepted(ok: bool)
    | Delivered(job: Option<Job>)
    | Done
    | Count(n: nat)
    | Rank(rank: Option<nat>)

  // What the dequeues of a run answered, in order.
  function Deliveries(results: seq<Result>): seq<Option<Job>> {
    if results == [] then []
    else (if results[0].Delivered? then [results[0].job] else []) + Deliveries(results[1..])
  }

  predicate PurgeFree(ops: seq<Op>) {
    forall i | 0 <= i < |ops| :: !ops[i].Purge?
  }

  function Ids(jobs: seq<Job>): set<int> {
    set i | 0 <= i < |jobs| :: jobs[i].id
  }
}

/** Facts about finite sets that the table queries rest on. */
module FiniteSets {

  lemma {:induction false} LeastExists(s: set<int>)
    requires s != {}
    ensures exists m :: m in s && forall x | x in s :: m <= x
  {
    assert (forall a :: a !in s) ==> s == {};
    var a :| a in s;
    var rest := s - {a};
    assert forall x | x in s :: x == a || x in rest;
    if rest == {} {
      assert a in s && forall x | x in s :: a <= x;
    } else {
      LeastExists(rest);
      var b :| b in rest && forall x | x in rest :: b <= x;
      var m := if a <= b then a else b;
      assert m in s && forall x | x in s :: m <= x;
    }
  }

  // SELECT ... ORDER BY id LIMIT 1, on a set of ids.
  function Least(s: set<int>): (m: int)
    requires s != {}
    ensures m in s
    ensures forall x | x in s :: m <= x
  {
    LeastExists(s);
    var m :| m in s && forall x | x in s :: m <= x;
    m
  }

  lemma {:induction false} SubsetSize<T>(a: set<T>, b: set<T>)
    requires a <= b
    ensures |a| <= |b|
    ensures |a| == |b| ==> a == b
  {
    assert b == a + (b - a);
    assert |b| == |a| + |b - a|;
  }

  // The elements of a sequence without repeats are as many as its positions.
  lemma {:induction false} DistinctSize<T>(s: seq<T>)
    requires forall i, j | 0 <= i < j < |s| :: s[i] != s[j]
    ensures |set i | 0 <= i < |s| :: s[i]| == |s|
  {
    if s != [] {
      var n := |s| - 1;
      DistinctSize(s[..n]);
      assert (set i | 0 <= i < |s| :: s[i]) == (set i | 0 <= i < n :: s[..n][i]) + {s[n]};
    }
  }

  function Below(n: nat): set<nat> {
    if n == 0 then {} else Below(n - 1) + {n - 1}
  }

  lemma {:induction false} BelowIsSegment(n: nat)
    ensures |Below(n)| == n && forall p: nat :: p in Below(n) <==> p < n
  {
    if n > 0 { BelowIsSegment(n - 1); }
  }

  lemma AtMost(n: nat, s: set<nat>)
    requires forall p | p in s :: p < n
    ensures |s| <= n
  {
    BelowIsSegment(n);
    SubsetSize(s, Below(n));
  }
}
