/** The workers as callers of a queue: what they ask of it, and why it does not matter to
    them which backend answers. */
module WorkerBackends {
  import opened Jobs
  import opened Workers
  import A = AbstractQueue
  import D = DbQueue
  import Q = QueueRefinement
  import R = RedisQueue

  // The operation a move issues, if any.
  function Issued(cfg: Config, s: System, m: Move): seq<Op> {
    match m
    case Submit(request) => [Enqueue(request)]
    case Take(w) => if w < |s.workers| && s.workers[w] == Polling then [Dequeue] else []
    case Abandon(w) => if w < |s.workers| && s.workers[w] == Polling then [Dequeue] else []
    case Finish(w, _) => if Runs(s, w) then [Complete(s.workers[w].job.id)] else []
    case Cancel(w, _) => if Runs(s, w) then [Complete(s.workers[w].job.id)] else []
    case Check(w) =>
      if w < |s.workers| && s.workers[w] == Checking && cfg.autoDispatch then [EnqueueIfIdle(CLUSTERING)] else []
    case Purging => [Purge]
    case Restarting => []
  }

  function AllIssued(cfg: Config, s: System, moves: seq<Move>): seq<Op>
    decreases |moves|
  {
    if moves == [] then [] else Issued(cfg, s, moves[0]) + AllIssued(cfg, Next(cfg, s, moves[0]), moves[1..])
  }

  predicate NoRestart(moves: seq<Move>) {
    forall i | 0 <= i < |moves| :: !moves[i].Restarting?
  }

  // Every running job was delivered.
  ghost predicate RunsDelivered(s: System, delivered: set<int>) {
    forall w | Runs(s, w) :: s.workers[w].job.id in delivered
  }

  lemma CompletedRunsDelivered(maxSize: int, s: System, w: nat, next: Worker, ended: bool, delivered: set<int>)
    requires RunsDelivered(s, delivered) && Runs(s, w) && !next.Running?
    ensures RunsDelivered(Completed(maxSize, s, w, next, ended), delivered)
    ensures s.workers[w].job.id in delivered
  {
  }

  lemma NextIssues(cfg: Config, s: System, m: Move, delivered: set<int>)
    requires !m.Restarting? && RunsDelivered(s, delivered)
    ensures var ops, s' := Issued(cfg, s, m), Next(cfg, s, m);
            if ops == [] then s'.table == s.table && RunsDelivered(s', delivered)
            else
              && |ops| == 1 && (ops[0].Complete? ==> ops[0].id in delivered)
              && var (t, r) := D.Step(cfg.maxSize, s.table, ops[0]);
                 s'.table == t && RunsDelivered(s', delivered + Q.DeliveredId(r))
  {
    match m
    case Finish(w, raised) => if Runs(s, w) { CompletedRunsDelivered(cfg.maxSize, s, w, Next(cfg, s, m).workers[w], true, delivered); }
    case Cancel(w, returned) => if Runs(s, w) { CompletedRunsDelivered(cfg.maxSize, s, w, Stopped(None), returned, delivered); }
    case _ =>
  }

  /** Between restarts the table of a system changes exactly as by the operations its
      clients and workers issue, and the workers complete only jobs that a dequeue
      delivered: what the agreement of the backends asks of a caller. */
  lemma {:induction false} WorkersCompleteOnlyDelivered(cfg: Config, s: System, moves: seq<Move>, delivered: set<int>)
    requires NoRestart(moves) && RunsDelivered(s, delivered)
    ensures D.Run(cfg.maxSize, s.table, AllIssued(cfg, s, moves)).0 == Moves(cfg, s, moves).table
    ensures Q.CompletesOnlyDelivered(cfg.maxSize, s.table, AllIssued(cfg, s, moves), delivered)
    decreases |moves|
  {
    if moves != [] {
      var m, s' := moves[0], Next(cfg, s, moves[0]);
      var ops, rest := Issued(cfg, s, m), AllIssued(cfg, s', moves[1..]);
      NextIssues(cfg, s, m, delivered);
      if ops == [] {
        assert ops + rest == rest;
        WorkersCompleteOnlyDelivered(cfg, s', moves[1..], delivered);
      } else {
        assert (ops + rest)[0] == ops[0] && (ops + rest)[1..] == rest;
        var (t, r) := D.Step(cfg.maxSize, s.table, ops[0]);
        WorkersCompleteOnlyDelivered(cfg, s', moves[1..], delivered + Q.DeliveredId(r));
      }
    }
  }

  ghost predicate SameAnswers(maxSize: int, ops: seq<Op>, d: int) {
    R.Run(maxSize, Q.EmptyRedis(d), A.ShiftOps(ops, d)).1 == A.ShiftResults(D.Run(maxSize, Q.EmptyTable(0), ops).1, d)
  }

  lemma DeliveredGivesSameAnswers(maxSize: int, ops: seq<Op>, d: int)
    requires Q.CompletesOnlyDelivered(maxSize, Q.EmptyTable(0), ops, {})
    ensures SameAnswers(maxSize, ops, d)
  {
    assert Q.EmptyRedis(0 + d) == Q.EmptyRedis(d);
    Q.BackendsAgree(maxSize, 0, d, ops);
  }

  /** Whatever clients and any number of workers do from a fresh start, cancellations and
      purges included: a Redis server gives the operations they issue the same answers as
      the table, up to the constant by which the id counters differ. */
  lemma WorkersCannotTellBackends(cfg: Config, n: nat, moves: seq<Move>, d: int)
    requires NoRestart(moves)
    ensures SameAnswers(cfg.maxSize, AllIssued(cfg, Start(n), moves), d)
  {
    WorkersCompleteOnlyDelivered(cfg, Start(n), moves, {});
    DeliveredGivesSameAnswers(cfg.maxSize, AllIssued(cfg, Start(n), moves), d);
  }

  /** In every run, restarts included, a worker never completes a job that waits. */
  lemma FinishedJobsNeverWait(cfg: Config, n: nat, moves: seq<Move>, w: nat)
    requires Runs(Moves(cfg, Start(n), moves), w)
    ensures var s := Moves(cfg, Start(n), moves);
            var id := s.workers[w].job.id;
            && id in s.table.WithStatus(D.Processing)
            && s.table.Delete({id}).WithStatus(D.Pending) == s.table.WithStatus(D.Pending)
  {
    MovesKeepExclusive(cfg, Start(n), moves);
  }
}
