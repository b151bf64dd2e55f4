/** How many jobs the table of one process can hold, through crashes and recoveries. */
module WorkerCapacity {
  import opened FiniteSets
  import opened Jobs
  import opened DbQueue
  import opened Workers

  function Holds(worker: Worker): set<int> {
    match worker
    case Running(job, _) => {job.id}
    case Stopped(Some(id)) => {id}
    case _ => {}
  }

  /** Every job in flight is some worker's, and the rows never exceed the limit by
      more than the number of workers. */
  ghost predicate WithinCapacity(maxSize: int, t: Table, workers: seq<Worker>) {
    && t.Valid()
    && (forall id | id in t.WithStatus(Processing) :: exists w :: 0 <= w < |workers| && id in Holds(workers[w]))
    && |t.rows| <= maxSize + |workers|
  }

  function HeldIds(workers: seq<Worker>): set<int> {
    if workers == [] then {}
    else var n := |workers| - 1; HeldIds(workers[..n]) + Holds(workers[n])
  }

  lemma {:induction false} HeldSize(workers: seq<Worker>)
    ensures |HeldIds(workers)| <= |workers|
    decreases |workers|
  {
    if workers != [] { HeldSize(workers[..|workers| - 1]); }
  }

  lemma {:induction false} HeldByOne(workers: seq<Worker>, w: nat)
    requires w < |workers|
    ensures Holds(workers[w]) <= HeldIds(workers)
    decreases |workers|
  {
    if w < |workers| - 1 { HeldByOne(workers[..|workers| - 1], w); }
  }

  lemma AtMostOneEach(ids: set<int>, workers: seq<Worker>)
    requires forall id | id in ids :: exists w :: 0 <= w < |workers| && id in Holds(workers[w])
    ensures |ids| <= |workers|
  {
    HeldSize(workers);
    forall id | id in ids ensures id in HeldIds(workers) {
      var w :| 0 <= w < |workers| && id in Holds(workers[w]);
      HeldByOne(workers, w);
    }
    SubsetSize(ids, HeldIds(workers));
  }

  lemma RowsByStatus(t: Table)
    ensures |t.rows| == |t.WithStatus(Pending)| + |t.WithStatus(Processing)|
  {
    var all := t.WithStatus(Pending) + t.WithStatus(Processing);
    assert forall id | id in t.rows.Keys :: id in all;
    assert t.rows.Keys == all;
  }

  lemma InsertWithinCapacity(maxSize: int, t: Table, workers: seq<Worker>, request: Request)
    requires maxSize > 0 && WithinCapacity(maxSize, t, workers)
    requires |t.WithStatus(Pending)| < maxSize
    ensures WithinCapacity(maxSize, t.Insert(request), workers)
  {
    RowsByStatus(t);
    AtMostOneEach(t.WithStatus(Processing), workers);
    var t' := t.Insert(request);
    assert t'.WithStatus(Processing) == t.WithStatus(Processing);
    assert t'.rows.Keys == t.rows.Keys + {t'.lastId};
  }

  lemma TakeWithinCapacity(maxSize: int, t: Table, workers: seq<Worker>, w: nat, worker: Worker)
    requires WithinCapacity(maxSize, t, workers)
    requires w < |workers| && workers[w] == Polling
    requires t.WithStatus(Pending) != {} && Holds(worker) == {Least(t.WithStatus(Pending))}
    ensures WithinCapacity(maxSize, t.Mark(Least(t.WithStatus(Pending))), workers[w := worker])
  {
    var id := Least(t.WithStatus(Pending));
    var t', workers' := t.Mark(id), workers[w := worker];
    assert t'.rows.Keys == t.rows.Keys;
    forall p | p in t'.WithStatus(Processing) ensures exists v :: 0 <= v < |workers'| && p in Holds(workers'[v]) {
      if p == id {
        assert p in Holds(workers'[w]);
      } else {
        assert p in t.WithStatus(Processing);
        var v :| 0 <= v < |workers| && p in Holds(workers[v]);
        assert v != w && p in Holds(workers'[v]);
      }
    }
  }

  lemma LeaveWithinCapacity(maxSize: int, t: Table, workers: seq<Worker>, w: nat, worker: Worker, gone: set<int>)
    requires WithinCapacity(maxSize, t, workers)
    requires w < |workers| && Holds(workers[w]) <= gone
    ensures WithinCapacity(maxSize, t.Delete(gone), workers[w := worker])
  {
    var t', workers' := t.Delete(gone), workers[w := worker];
    SubsetSize(t'.rows.Keys, t.rows.Keys);
    forall p | p in t'.WithStatus(Processing) ensures exists v :: 0 <= v < |workers'| && p in Holds(workers'[v]) {
      assert p in t.WithStatus(Processing);
      var v :| 0 <= v < |workers| && p in Holds(workers[v]);
      assert v != w && p in Holds(workers'[v]);
    }
  }

  lemma NoWorkerWithinCapacity(cfg: Config, s: System, m: Move)
    requires cfg.maxSize > 0 && WithinCapacity(cfg.maxSize, s.table, s.workers)
    requires m.Submit? || m.Purging? || m.Restarting?
    ensures var s' := Next(cfg, s, m); WithinCapacity(cfg.maxSize, s'.table, s'.workers)
  {
    match m
    case Submit(request) =>
      if |s.table.WithStatus(Pending)| < cfg.maxSize { InsertWithinCapacity(cfg.maxSize, s.table, s.workers, request); }
    case Purging =>
      var t := s.table.Delete(s.table.WithStatus(Pending));
      assert t.WithStatus(Processing) == s.table.WithStatus(Processing);
      SubsetSize(t.rows.Keys, s.table.rows.Keys);
    case Restarting =>
      var t := s.table.Recovered();
      assert t.rows.Keys == s.table.rows.Keys;
      assert t.WithStatus(Processing) == {};
  }

  lemma DequeueWithinCapacity(cfg: Config, s: System, w: nat)
    requires WithinCapacity(cfg.maxSize, s.table, s.workers)
    ensures var s' := Next(cfg, s, Take(w)); WithinCapacity(cfg.maxSize, s'.table, s'.workers)
  {
    var pending := s.table.WithStatus(Pending);
    if w < |s.workers| && s.workers[w] == Polling && pending != {} {
      var id := Least(pending);
      TakeWithinCapacity(cfg.maxSize, s.table, s.workers, w, Running(s.table.rows[id].job, s.finished));
    }
  }

  lemma AbandonWithinCapacity(cfg: Config, s: System, w: nat)
    requires WithinCapacity(cfg.maxSize, s.table, s.workers)
    ensures var s' := Next(cfg, s, Abandon(w)); WithinCapacity(cfg.maxSize, s'.table, s'.workers)
  {
    if w < |s.workers| && s.workers[w] == Polling {
      var pending := s.table.WithStatus(Pending);
      if pending != {} {
        TakeWithinCapacity(cfg.maxSize, s.table, s.workers, w, Stopped(Some(Least(pending))));
      } else {
        LeaveWithinCapacity(cfg.maxSize, s.table, s.workers, w, Stopped(None), {});
        assert s.table.Delete({}) == s.table;
      }
    }
  }

  lemma CheckWithinCapacity(cfg: Config, s: System, w: nat)
    requires cfg.maxSize > 0 && WithinCapacity(cfg.maxSize, s.table, s.workers)
    ensures var s' := Next(cfg, s, Check(w)); WithinCapacity(cfg.maxSize, s'.table, s'.workers)
  {
    if w < |s.workers| && s.workers[w] == Checking {
      LeaveWithinCapacity(cfg.maxSize, s.table, s.workers, w, Polling, {});
      assert s.table.Delete({}) == s.table;
      if |s.table.rows| == 0 {
        assert s.table.WithStatus(Pending) == {};
        InsertWithinCapacity(cfg.maxSize, s.table, s.workers[w := Polling], CLUSTERING);
      }
    }
  }

  lemma CompletedWithinCapacity(maxSize: int, s: System, w: nat, next: Worker, ended: bool)
    requires Runs(s, w) && WithinCapacity(maxSize, s.table, s.workers)
    ensures var s' := Completed(maxSize, s, w, next, ended); WithinCapacity(maxSize, s'.table, s'.workers)
  {
    LeaveWithinCapacity(maxSize, s.table, s.workers, w, next, {s.workers[w].job.id});
  }

  lemma EndWithinCapacity(cfg: Config, s: System, m: Move)
    requires WithinCapacity(cfg.maxSize, s.table, s.workers)
    requires m.Finish? || m.Cancel?
    ensures var s' := Next(cfg, s, m); WithinCapacity(cfg.maxSize, s'.table, s'.workers)
  {
    if Runs(s, m.w) {
      CompletedWithinCapacity(cfg.maxSize, s, m.w, Next(cfg, s, m).workers[m.w], m.Finish? || m.returned);
    } else if m.Cancel? && m.w < |s.workers| && !s.workers[m.w].Stopped? {
      LeaveWithinCapacity(cfg.maxSize, s.table, s.workers, m.w, Stopped(None), {});
      assert s.table.Delete({}) == s.table;
    }
  }

  lemma MoveWithinCapacity(cfg: Config, s: System, m: Move)
    requires cfg.maxSize > 0 && WithinCapacity(cfg.maxSize, s.table, s.workers)
    ensures var s' := Next(cfg, s, m); WithinCapacity(cfg.maxSize, s'.table, s'.workers)
  {
    if m.Submit? || m.Purging? || m.Restarting? {
      NoWorkerWithinCapacity(cfg, s, m);
    } else if m.Take? {
      DequeueWithinCapacity(cfg, s, m.w);
    } else if m.Abandon? {
      AbandonWithinCapacity(cfg, s, m.w);
    } else if m.Check? {
      CheckWithinCapacity(cfg, s, m.w);
    } else {
      EndWithinCapacity(cfg, s, m);
    }
  }

  lemma {:induction false} MovesWithinCapacity(cfg: Config, s: System, moves: seq<Move>)
    requires cfg.maxSize > 0 && WithinCapacity(cfg.maxSize, s.table, s.workers)
    ensures var s' := Moves(cfg, s, moves); WithinCapacity(cfg.maxSize, s'.table, s'.workers)
    decreases |moves|
  {
    if moves != [] {
      MoveWithinCapacity(cfg, s, moves[0]);
      MovesWithinCapacity(cfg, Next(cfg, s, moves[0]), moves[1..]);
    }
  }

  /** With a limit set, one process with n workers never has more than limit + n jobs in
      its table, waiting and running together, whatever happens: purges, cancellations,
      raising handlers, and any number of crashes whose recovery makes all of them wait. */
  lemma CapacitySurvivesCrashes(cfg: Config, n: nat, moves: seq<Move>)
    requires cfg.maxSize > 0
    ensures var t := Moves(cfg, Start(n), moves).table;
            && |t.WithStatus(Pending)| + |t.WithStatus(Processing)| <= cfg.maxSize + n
            && |t.WithStatus(Processing)| <= n
  {
    MovesWithinCapacity(cfg, Start(n), moves);
    WorkerCountStays(cfg, Start(n), moves);
    var s := Moves(cfg, Start(n), moves);
    RowsByStatus(s.table);
    AtMostOneEach(s.table.WithStatus(Processing), s.workers);
  }

  // ---------------------------------------------------------------------
  // The bound is reached
  // ---------------------------------------------------------------------

  // n jobs are submitted, and taken at once by workers 0 .. n-1 ...
  function Occupy(n: nat, request: Request): seq<Move> {
    if n == 0 then [] else Occupy(n - 1, request) + [Submit(request), Take(n - 1)]
  }

  // ... and then as many as the limit allows to wait.
  function Crowd(n: nat, request: Request): seq<Move> {
    if n == 0 then [] else [Submit(request)] + Crowd(n - 1, request)
  }

  ghost predicate Occupied(s: System, k: nat) {
    && s.table.Valid()
    && s.table.WithStatus(Pending) == {} && |s.table.WithStatus(Processing)| == k
    && forall w | k <= w < |s.workers| :: s.workers[w] == Polling
  }

  lemma InsertByStatus(t: Table, request: Request)
    requires t.Valid()
    ensures t.Insert(request).WithStatus(Pending) == t.WithStatus(Pending) + {t.lastId + 1}
    ensures t.Insert(request).WithStatus(Processing) == t.WithStatus(Processing)
    ensures t.lastId + 1 !in t.WithStatus(Pending) + t.WithStatus(Processing)
  {
  }

  lemma TakeOccupies(cfg: Config, s: System, k: nat, id: int)
    requires s.table.Valid() && k < |s.workers| && s.table.WithStatus(Pending) == {id}
    requires forall w | k <= w < |s.workers| :: s.workers[w] == Polling
    requires |s.table.WithStatus(Processing)| == k
    ensures var s' := Next(cfg, s, Take(k)); Occupied(s', k + 1) && |s'.workers| == |s.workers|
  {
    assert id in s.table.WithStatus(Pending) && Least(s.table.WithStatus(Pending)) == id;
    var t := s.table.Mark(id);
    assert forall x | x in t.WithStatus(Pending) :: x in s.table.WithStatus(Pending) && x != id;
    assert t.WithStatus(Processing) == s.table.WithStatus(Processing) + {id};
  }

  lemma OneMoreOccupied(cfg: Config, s: System, k: nat, request: Request)
    requires cfg.maxSize > 0 && Occupied(s, k) && k < |s.workers|
    ensures var s' := Moves(cfg, s, [Submit(request), Take(k)]);
            Occupied(s', k + 1) && |s'.workers| == |s.workers|
  {
    InsertByStatus(s.table, request);
    TakeOccupies(cfg, Next(cfg, s, Submit(request)), k, s.table.lastId + 1);
    Unroll2(cfg, s, Submit(request), Take(k));
  }

  lemma {:induction false} OccupyOccupies(cfg: Config, n: nat, k: nat, request: Request)
    requires cfg.maxSize > 0 && k <= n
    ensures var s := Moves(cfg, Start(n), Occupy(k, request)); Occupied(s, k) && |s.workers| == n
    decreases k
  {
    if k == 0 {
      assert Start(n).table.WithStatus(Pending) == {} && Start(n).table.WithStatus(Processing) == {};
    } else {
      OccupyOccupies(cfg, n, k - 1, request);
      MovesAppend(cfg, Start(n), Occupy(k - 1, request), [Submit(request), Take(k - 1)]);
      OneMoreOccupied(cfg, Moves(cfg, Start(n), Occupy(k - 1, request)), k - 1, request);
    }
  }

  lemma {:induction false} CrowdWaits(cfg: Config, s: System, n: nat, request: Request)
    requires s.table.Valid() && |s.table.WithStatus(Pending)| + n <= cfg.maxSize
    ensures var t := Moves(cfg, s, Crowd(n, request)).table;
            && |t.WithStatus(Pending)| == |s.table.WithStatus(Pending)| + n
            && |t.WithStatus(Processing)| == |s.table.WithStatus(Processing)|
    decreases n
  {
    if n > 0 {
      InsertByStatus(s.table, request);
      assert Crowd(n, request)[1..] == Crowd(n - 1, request);
      CrowdWaits(cfg, Next(cfg, s, Submit(request)), n - 1, request);
    }
  }

  /** That bound is exact too: every limit and number of workers has a run that fills the
      table up to it, and one restart later all of these jobs wait. */
  lemma CapacityIsReached(cfg: Config, n: nat, request: Request)
    requires cfg.maxSize > 0
    ensures var moves := Occupy(n, request) + Crowd(cfg.maxSize, request);
            var s := Moves(cfg, Start(n), moves);
            && |s.table.WithStatus(Processing)| == n && |s.table.WithStatus(Pending)| == cfg.maxSize
            && |Next(cfg, s, Restarting).table.WithStatus(Pending)| == cfg.maxSize + n
  {
    OccupyOccupies(cfg, n, n, request);
    CrowdWaits(cfg, Moves(cfg, Start(n), Occupy(n, request)), cfg.maxSize, request);
    MovesAppend(cfg, Start(n), Occupy(n, request), Crowd(cfg.maxSize, request));
    var t := Moves(cfg, Start(n), Occupy(n, request) + Crowd(cfg.maxSize, request)).table;
    RowsByStatus(t);
    assert t.Recovered().WithStatus(Pending) == t.rows.Keys;
  }
}
