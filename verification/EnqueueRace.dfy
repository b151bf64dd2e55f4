/** Several processes on one queue database. A bounded enqueue reads the number of
    waiting rows and inserts in two statements: the lock around them is only held
    against threads of the same process. */
module EnqueueRace {
  import opened FiniteSets
  import opened Jobs
  import opened DbQueue

  /** The shared table, and what each process that passed the count is about to insert. */
  datatype Shared = Shared(table: Table, passed: map<nat, Request>)

  datatype Move =
    | CountRows(p: nat, request: Request)
    | InsertRow(p: nat)
    | Other(p: nat, op: Op)    // any other operation: one statement or exclusive transaction

  // A process inside an enqueue does nothing else.
  function Next(maxSize: int, processes: nat, s: Shared, m: Move): Shared {
    match m
    case CountRows(p, request) =>
      if p >= processes || p in s.passed then s
      else if |s.table.WithStatus(Pending)| >= maxSize && maxSize > 0 then s
      else s.(passed := s.passed[p := request])
    case InsertRow(p) =>
      if p !in s.passed then s else Shared(s.table.Insert(s.passed[p]), s.passed - {p})
    case Other(p, op) =>
      if p >= processes || p in s.passed || op.Enqueue? then s
      else s.(table := Step(maxSize, s.table, op).0)
  }

  function Moves(maxSize: int, processes: nat, s: Shared, moves: seq<Move>): Shared
    decreases |moves|
  {
    if moves == [] then s else Moves(maxSize, processes, Next(maxSize, processes, s, moves[0]), moves[1..])
  }

  /** Uninterrupted, the two statements are the bounded enqueue of a single process. */
  lemma UninterruptedIsAtomic(maxSize: int, processes: nat, s: Shared, p: nat, request: Request)
    requires p < processes && p !in s.passed
    ensures Moves(maxSize, processes, s, [CountRows(p, request), InsertRow(p)])
         == s.(table := Step(maxSize, s.table, Enqueue(request)).0)
  {
    var s1 := Next(maxSize, processes, s, CountRows(p, request));
    var pair := [CountRows(p, request), InsertRow(p)];
    assert pair[1..] == [InsertRow(p)] && [InsertRow(p)][1..] == [];
    assert Moves(maxSize, processes, s1, [InsertRow(p)]) == Next(maxSize, processes, s1, InsertRow(p));
    assert s1.passed - {p} == s.passed;
  }

  function Waiting(t: Table): nat { |t.WithStatus(Pending)| }

  function Bound(maxSize: int, processes: nat, t: Table): int {
    var limit := maxSize + processes - 1;
    if Waiting(t) > limit then Waiting(t) else limit
  }

  ghost predicate Bounded(processes: nat, bound: int, s: Shared) {
    && s.table.Valid()
    && (forall p | p in s.passed :: p < processes)
    && Waiting(s.table) + |s.passed| <= bound
  }

  lemma InsertAddsOne(t: Table, request: Request)
    requires t.Valid()
    ensures Waiting(t.Insert(request)) == Waiting(t) + 1
    ensures t.Insert(request).Valid()
  {
    assert t.Insert(request).WithStatus(Pending) == t.WithStatus(Pending) + {t.lastId + 1};
  }

  lemma OtherKeepsBound(maxSize: int, processes: nat, s: Shared, p: nat, op: Op, bound: int)
    requires maxSize > 0 && bound >= maxSize + processes - 1
    requires Bounded(processes, bound, s)
    ensures Bounded(processes, bound, Next(maxSize, processes, s, Other(p, op)))
  {
    if p < processes && p !in s.passed && !op.Enqueue? {
      var t' := Step(maxSize, s.table, op).0;
      assert t'.Valid();
      if op.EnqueueIfIdle? && |s.table.rows| == 0 {
        assert s.table.WithStatus(Pending) == {};
        InsertAddsOne(s.table, op.request);
        AtMost(processes, s.passed.Keys + {p});
      } else {
        SubsetSize(t'.WithStatus(Pending), s.table.WithStatus(Pending));
      }
    }
  }

  lemma OneMorePasses(maxSize: int, processes: nat, s: Shared, p: nat, request: Request, bound: int)
    requires bound >= maxSize + processes - 1
    requires Bounded(processes, bound, s)
    requires p < processes && p !in s.passed && Waiting(s.table) < maxSize
    ensures Bounded(processes, bound, s.(passed := s.passed[p := request]))
  {
    var passed := s.passed[p := request];
    assert passed.Keys == s.passed.Keys + {p};
    AtMost(processes, passed.Keys);
  }

  lemma InsertKeepsBound(processes: nat, s: Shared, p: nat, bound: int)
    requires Bounded(processes, bound, s)
    ensures Bounded(processes, bound, Next(0, processes, s, InsertRow(p)))
  {
    if p in s.passed {
      InsertAddsOne(s.table, s.passed[p]);
      assert (s.passed - {p}).Keys == s.passed.Keys - {p};
    }
  }

  lemma NextKeepsBound(maxSize: int, processes: nat, s: Shared, m: Move, bound: int)
    requires maxSize > 0 && bound >= maxSize + processes - 1
    requires Bounded(processes, bound, s)
    ensures Bounded(processes, bound, Next(maxSize, processes, s, m))
  {
    match m
    case CountRows(p, request) =>
      if p < processes && p !in s.passed && Waiting(s.table) < maxSize { OneMorePasses(maxSize, processes, s, p, request, bound); }
    case InsertRow(p) => InsertKeepsBound(processes, s, p, bound);
    case Other(p, op) => OtherKeepsBound(maxSize, processes, s, p, op, bound);
  }

  lemma {:induction false} MovesKeepBound(maxSize: int, processes: nat, s: Shared, moves: seq<Move>, bound: int)
    requires maxSize > 0 && bound >= maxSize + processes - 1
    requires Bounded(processes, bound, s)
    ensures Bounded(processes, bound, Moves(maxSize, processes, s, moves))
    decreases |moves|
  {
    if moves != [] {
      NextKeepsBound(maxSize, processes, s, moves[0], bound);
      MovesKeepBound(maxSize, processes, Next(maxSize, processes, s, moves[0]), moves[1..], bound);
    }
  }

  /** Racing processes overshoot the limit by at most one each, not counting the one that
      is right: from a start-up on, waiting jobs never exceed the limit plus the number
      of processes less one, unless recovery had put more than that there already. */
  lemma RacesOvershootByLessThanProcesses(maxSize: int, processes: nat, t: Table, moves: seq<Move>)
    requires maxSize > 0 && t.Valid()
    ensures Waiting(Moves(maxSize, processes, Shared(t, map[]), moves).table) <= Bound(maxSize, processes, t)
  {
    MovesKeepBound(maxSize, processes, Shared(t, map[]), moves, Bound(maxSize, processes, t));
  }

  /** A single process never exceeds the limit, from an empty table. */
  lemma OneProcessKeepsLimit(maxSize: int, lastId: int, moves: seq<Move>)
    requires maxSize > 0
    ensures Waiting(Moves(maxSize, 1, Shared(Table(map[], lastId), map[]), moves).table) <= maxSize
  {
    assert Table(map[], lastId).WithStatus(Pending) == {};
    RacesOvershootByLessThanProcesses(maxSize, 1, Table(map[], lastId), moves);
  }

  // ---------------------------------------------------------------------
  // The bound is reached
  // ---------------------------------------------------------------------

  // One process fills up, one short of the limit.
  function FillUp(n: nat, request: Request): seq<Move> {
    if n == 0 then [] else [CountRows(0, request), InsertRow(0)] + FillUp(n - 1, request)
  }

  // Processes 0 .. n-1 all count before ...
  function AllCount(n: nat, request: Request): seq<Move> {
    if n == 0 then [] else AllCount(n - 1, request) + [CountRows(n - 1, request)]
  }

  // ... any of them inserts.
  function AllInsert(n: nat): seq<Move> {
    if n == 0 then [] else [InsertRow(n - 1)] + AllInsert(n - 1)
  }

  lemma {:induction false} MovesAppend(maxSize: int, processes: nat, s: Shared, first: seq<Move>, rest: seq<Move>)
    ensures Moves(maxSize, processes, s, first + rest)
         == Moves(maxSize, processes, Moves(maxSize, processes, s, first), rest)
    decreases |first|
  {
    if first == [] {
      assert first + rest == rest;
    } else {
      assert (first + rest)[1..] == first[1..] + rest;
      MovesAppend(maxSize, processes, Next(maxSize, processes, s, first[0]), first[1..], rest);
    }
  }

  lemma {:induction false} FillUpFills(maxSize: int, processes: nat, s: Shared, n: nat, request: Request)
    requires processes > 0 && s.table.Valid() && s.passed == map[]
    requires Waiting(s.table) + n < maxSize
    ensures var s' := Moves(maxSize, processes, s, FillUp(n, request));
            s'.table.Valid() && s'.passed == map[] && Waiting(s'.table) == Waiting(s.table) + n
    decreases n
  {
    if n > 0 {
      var s1 := Next(maxSize, processes, s, CountRows(0, request));
      var s2 := Next(maxSize, processes, s1, InsertRow(0));
      InsertAddsOne(s.table, request);
      assert s2.passed == map[];
      var pair := [CountRows(0, request), InsertRow(0)];
      assert pair[1..] == [InsertRow(0)] && pair[1..][1..] == [];
      assert Moves(maxSize, processes, s1, [InsertRow(0)]) == s2;
      assert Moves(maxSize, processes, s, pair) == s2;
      MovesAppend(maxSize, processes, s, pair, FillUp(n - 1, request));
      FillUpFills(maxSize, processes, s2, n - 1, request);
    }
  }

  lemma {:induction false} AllCountPass(maxSize: int, processes: nat, s: Shared, n: nat, request: Request)
    requires n <= processes && s.passed == map[] && Waiting(s.table) < maxSize
    ensures var s' := Moves(maxSize, processes, s, AllCount(n, request));
            s'.table == s.table && forall p: nat :: p in s'.passed <==> p < n
    decreases n
  {
    if n > 0 {
      AllCountPass(maxSize, processes, s, n - 1, request);
      var s1 := Moves(maxSize, processes, s, AllCount(n - 1, request));
      MovesAppend(maxSize, processes, s, AllCount(n - 1, request), [CountRows(n - 1, request)]);
      assert Moves(maxSize, processes, s1, [CountRows(n - 1, request)]) == Next(maxSize, processes, s1, CountRows(n - 1, request));
    }
  }

  lemma {:induction false} AllInsertGrow(maxSize: int, processes: nat, s: Shared, n: nat)
    requires s.table.Valid() && forall p: nat | p < n :: p in s.passed
    ensures Waiting(Moves(maxSize, processes, s, AllInsert(n)).table) == Waiting(s.table) + n
    decreases n
  {
    if n > 0 {
      var s1 := Next(maxSize, processes, s, InsertRow(n - 1));
      InsertAddsOne(s.table, s.passed[n - 1]);
      assert AllInsert(n)[1..] == AllInsert(n - 1);
      AllInsertGrow(maxSize, processes, s1, n - 1);
    }
  }

  function Rush(maxSize: nat, processes: nat, request: Request): seq<Move>
    requires maxSize > 0
  {
    FillUp(maxSize - 1, request) + AllCount(processes, request) + AllInsert(processes)
  }

  /** No smaller bound would do: for every limit and every number of processes this
      interleaving reaches it from an empty table. */
  lemma RacesReachTheBound(maxSize: nat, processes: nat, request: Request)
    requires maxSize > 0 && processes > 0
    ensures Waiting(Moves(maxSize, processes, Shared(Table(map[], 0), map[]), Rush(maxSize, processes, request)).table)
         == maxSize + processes - 1
  {
    var s := Shared(Table(map[], 0), map[]);
    assert s.table.WithStatus(Pending) == {};
    FillUpFills(maxSize, processes, s, maxSize - 1, request);
    var s1 := Moves(maxSize, processes, s, FillUp(maxSize - 1, request));
    AllCountPass(maxSize, processes, s1, processes, request);
    var s2 := Moves(maxSize, processes, s1, AllCount(processes, request));
    AllInsertGrow(maxSize, processes, s2, processes);
    MovesAppend(maxSize, processes, s, FillUp(maxSize - 1, request), AllCount(processes, request));
    MovesAppend(maxSize, processes, s, FillUp(maxSize - 1, request) + AllCount(processes, request), AllInsert(processes));
  }
}
