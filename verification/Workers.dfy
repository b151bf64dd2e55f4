/** N worker tasks and any number of clients on one queue table. Every transaction
    is one move; moves of different workers interleave freely. */
module Workers {
  import opened FiniteSets
  import opened Jobs
  import opened DbQueue

  /** Where a worker stands in its loop. */
  datatype Worker =
    | Polling                        // at the top, about to dequeue
    | Running(job: Job, seen: nat)   // between dequeue and complete; `seen` detect jobs had finished when it began
    | Checking                       // its detect job is completed, the idle check is still to come
    | Stopped(lost: Option<int>)     // cancelled; perhaps its dequeue went through unnoticed

  datatype Config = Config(maxSize: int, autoDispatch: bool)

  datatype System = System(
    table: Table,
    workers: seq<Worker>,
    last: Option<string>,    // kind of the job completed last
    skipped: bool,           // it was a detect job after which its worker makes no idle check
    finished: nat,           // detect jobs completed so far
    covered: nat             // how many of them had finished before some clustering began that ran to its end
  )

  datatype Move =
    | Submit(request: Request)
    | Take(w: nat)
    | Finish(w: nat, raised: bool)     // the handler returns or raises; `finally` completes the job
    | Check(w: nat)
    | Cancel(w: nat, returned: bool)   // in a job, before or after its handler returned, or outside
    | Abandon(w: nat)                  // cancelled while its dequeue runs to the end in a thread
    | Purging
    | Restarting                       // crash or shutdown, then start-up with as many workers

  predicate Runs(s: System, w: int) {
    0 <= w < |s.workers| && s.workers[w].Running?
  }

  predicate RunsKind(s: System, w: int, kind: string) {
    Runs(s, w) && s.workers[w].job.request.kind == kind
  }

  // The job of worker w leaves the table; `ended` says whether it ran to its end.
  function Completed(maxSize: int, s: System, w: nat, next: Worker, ended: bool): System
    requires Runs(s, w)
  {
    var Running(job, seen) := s.workers[w];
    var detect := job.request.kind == DETECT;
    System(Step(maxSize, s.table, Complete(job.id)).0, s.workers[w := next],
           Some(job.request.kind), detect && next != Checking,
           if detect then s.finished + 1 else s.finished,
           if job.request.kind == CLUSTER && ended && seen > s.covered then seen else s.covered)
  }

  /** A move of a worker that is not at the right place does nothing. Only a detect
      handler can raise, on a payload that is not a JSON object with a photo path: both
      background jobs handle every exception of their own, and other kinds run nothing. */
  function Next(cfg: Config, s: System, m: Move): System {
    match m
    case Submit(request) => s.(table := Step(cfg.maxSize, s.table, Enqueue(request)).0)
    case Purging => s.(table := Step(cfg.maxSize, s.table, Purge).0)
    case Restarting => s.(table := s.table.Recovered(), workers := seq(|s.workers|, _ => Polling))
    case Take(w) =>
      if w >= |s.workers| || s.workers[w] != Polling then s
      else
        var (t, r) := Step(cfg.maxSize, s.table, Dequeue);
        if r.job.None? then s
        else s.(table := t, workers := s.workers[w := Running(r.job.value, s.finished)])
    case Finish(w, raised) =>
      if !Runs(s, w) then s
      else Completed(cfg.maxSize, s, w, if RunsKind(s, w, DETECT) && !raised then Checking else Polling, true)
    case Check(w) =>
      if w >= |s.workers| || s.workers[w] != Checking then s
      else
        s.(table := if cfg.autoDispatch then Step(cfg.maxSize, s.table, EnqueueIfIdle(CLUSTERING)).0 else s.table,
           workers := s.workers[w := Polling])
    case Cancel(w, returned) =>
      if w >= |s.workers| || s.workers[w].Stopped? then s
      else if Runs(s, w) then Completed(cfg.maxSize, s, w, Stopped(None), returned)
      else s.(workers := s.workers[w := Stopped(None)])
    case Abandon(w) =>
      if w >= |s.workers| || s.workers[w] != Polling then s
      else
        var (t, r) := Step(cfg.maxSize, s.table, Dequeue);
        s.(table := t, workers := s.workers[w := Stopped(if r.job.Some? then Some(r.job.value.id) else None)])
  }

  function Moves(cfg: Config, s: System, moves: seq<Move>): System
    decreases |moves|
  {
    if moves == [] then s else Moves(cfg, Next(cfg, s, moves[0]), moves[1..])
  }

  function Start(workers: nat): System {
    System(Table(map[], 0), seq(workers, _ => Polling), None, false, 0, 0)
  }

  predicate SomeoneChecks(s: System) {
    exists w | 0 <= w < |s.workers| :: s.workers[w] == Checking
  }

  // Nothing waits, nothing runs, nobody is about to check.
  predicate AtRest(s: System) {
    s.table.rows == map[] && !SomeoneChecks(s)
  }

  /** A worker is about to check exactly after a detect job of its own whose handler returned,
      and until it has checked, is cancelled, or the process restarts. */
  lemma ChecksExactlyAfterDetect(cfg: Config, s: System, m: Move, w: nat)
    requires w < |s.workers|
    ensures Next(cfg, s, m).workers[w] == Checking
       <==> || (m == Finish(w, false) && Runs(s, w) && s.workers[w].job.request.kind == "detect")
            || (s.workers[w] == Checking && !m.Restarting? && m != Check(w) && !(m.Cancel? && m.w == w))
  {
  }

  // ---------------------------------------------------------------------
  // Exclusive delivery
  // ---------------------------------------------------------------------

  /** Every running job is in the table, in flight, and no two workers run the same. */
  ghost predicate Exclusive(s: System) {
    && s.table.Valid()
    && (forall w | Runs(s, w) :: var job := s.workers[w].job; job.id in s.table.rows && s.table.rows[job.id] == Row(job, Processing))
    && (forall v, w | Runs(s, v) && Runs(s, w) && s.workers[v].job.id == s.workers[w].job.id :: v == w)
  }

  lemma TakeKeepsExclusive(cfg: Config, s: System, w: nat)
    requires Exclusive(s)
    ensures Exclusive(Next(cfg, s, Take(w)))
  {
  }

  lemma CompletedKeepsExclusive(maxSize: int, s: System, w: nat, next: Worker, ended: bool)
    requires Exclusive(s) && Runs(s, w) && !next.Running?
    ensures Exclusive(Completed(maxSize, s, w, next, ended))
  {
  }

  lemma NextKeepsExclusive(cfg: Config, s: System, m: Move)
    requires Exclusive(s)
    ensures Exclusive(Next(cfg, s, m))
  {
    match m
    case Take(w) => TakeKeepsExclusive(cfg, s, w);
    case Finish(w, raised) => if Runs(s, w) { CompletedKeepsExclusive(cfg.maxSize, s, w, Next(cfg, s, m).workers[w], true); }
    case Cancel(w, returned) => if Runs(s, w) { CompletedKeepsExclusive(cfg.maxSize, s, w, Stopped(None), returned); }
    case _ =>
  }

  lemma {:induction false} MovesKeepExclusive(cfg: Config, s: System, moves: seq<Move>)
    requires Exclusive(s)
    ensures Exclusive(Moves(cfg, s, moves))
    decreases |moves|
  {
    if moves != [] {
      NextKeepsExclusive(cfg, s, moves[0]);
      MovesKeepExclusive(cfg, Next(cfg, s, moves[0]), moves[1..]);
    }
  }

  // Every job in flight is being run.
  ghost predicate NoOrphans(s: System) {
    forall id | id in s.table.WithStatus(Processing) :: exists w :: Runs(s, w) && s.workers[w].job.id == id
  }

  lemma TakeKeepsOwners(cfg: Config, s: System, w: nat)
    requires Exclusive(s) && NoOrphans(s)
    ensures NoOrphans(Next(cfg, s, Take(w)))
  {
    var s' := Next(cfg, s, Take(w));
    if s' != s {
      var taken := Least(s.table.WithStatus(Pending));
      forall id | id in s'.table.WithStatus(Processing) ensures exists v :: Runs(s', v) && s'.workers[v].job.id == id {
        if id == taken {
          assert Runs(s', w) && s'.workers[w].job.id == id;
        } else {
          assert id in s.table.WithStatus(Processing);
          var v :| Runs(s, v) && s.workers[v].job.id == id;
          assert Runs(s', v) && s'.workers[v].job.id == id;
        }
      }
    }
  }

  lemma CompletedKeepsOwners(maxSize: int, s: System, w: nat, next: Worker, ended: bool)
    requires NoOrphans(s) && Runs(s, w)
    ensures NoOrphans(Completed(maxSize, s, w, next, ended))
  {
    var s' := Completed(maxSize, s, w, next, ended);
    forall id | id in s'.table.WithStatus(Processing) ensures exists v :: Runs(s', v) && s'.workers[v].job.id == id {
      assert id in s.table.WithStatus(Processing) && id != s.workers[w].job.id;
      var v :| Runs(s, v) && s.workers[v].job.id == id;
      assert Runs(s', v) && s'.workers[v].job.id == id;
    }
  }

  lemma OthersKeepOwners(s: System, s': System)
    requires NoOrphans(s)
    requires forall id | id in s'.table.WithStatus(Processing) :: id in s.table.WithStatus(Processing)
    requires forall v | Runs(s, v) :: Runs(s', v) && s'.workers[v] == s.workers[v]
    ensures NoOrphans(s')
  {
    forall id | id in s'.table.WithStatus(Processing) ensures exists v :: Runs(s', v) && s'.workers[v].job.id == id {
      assert id in s.table.WithStatus(Processing);
      var v :| Runs(s, v) && s.workers[v].job.id == id;
      assert Runs(s', v) && s'.workers[v].job.id == id;
    }
  }

  lemma NextKeepsOwners(cfg: Config, s: System, m: Move)
    requires Exclusive(s) && NoOrphans(s) && !m.Abandon?
    ensures NoOrphans(Next(cfg, s, m))
  {
    var s' := Next(cfg, s, m);
    match m
    case Take(w) => TakeKeepsOwners(cfg, s, w);
    case Finish(w, _) => if Runs(s, w) { CompletedKeepsOwners(cfg.maxSize, s, w, s'.workers[w], true); }
    case Cancel(w, returned) =>
      if Runs(s, w) { CompletedKeepsOwners(cfg.maxSize, s, w, Stopped(None), returned); } else { OthersKeepOwners(s, s'); }
    case Restarting => assert forall id :: id !in s'.table.WithStatus(Processing);
    case _ => OthersKeepOwners(s, s');
  }

  /** However workers finish, raise, are cancelled or restarted: a job is in flight only while
      a worker runs it, unless a worker was cancelled during its dequeue. */
  lemma {:induction false} InFlightIsRun(cfg: Config, s: System, moves: seq<Move>)
    requires Exclusive(s) && NoOrphans(s)
    requires forall i | 0 <= i < |moves| :: !moves[i].Abandon?
    ensures NoOrphans(Moves(cfg, s, moves))
    decreases |moves|
  {
    if moves != [] {
      NextKeepsExclusive(cfg, s, moves[0]);
      NextKeepsOwners(cfg, s, moves[0]);
      InFlightIsRun(cfg, Next(cfg, s, moves[0]), moves[1..]);
    }
  }

  ghost predicate Abandoned(s: System, id: int) {
    && Exclusive(s) && id in s.table.WithStatus(Processing)
    && forall w | Runs(s, w) :: s.workers[w].job.id != id
  }

  /** In that case the lowest waiting job goes in flight and nobody runs it ... */
  lemma AbandonLosesJob(cfg: Config, s: System, w: nat)
    requires Exclusive(s) && w < |s.workers| && s.workers[w] == Polling && s.table.WithStatus(Pending) != {}
    ensures Abandoned(Next(cfg, s, Abandon(w)), Least(s.table.WithStatus(Pending)))
  {
    NextKeepsExclusive(cfg, s, Abandon(w));
  }

  /** ... and there it stays until the next restart, so that no check finds the queue idle. */
  lemma {:induction false} AbandonedUntilRestart(cfg: Config, s: System, moves: seq<Move>, id: int)
    requires Abandoned(s, id)
    requires forall i | 0 <= i < |moves| :: !moves[i].Restarting?
    ensures Abandoned(Moves(cfg, s, moves), id)
    ensures Step(cfg.maxSize, Moves(cfg, s, moves).table, EnqueueIfIdle(CLUSTERING)).1 == Accepted(false)
    decreases |moves|
  {
    if moves == [] {
      assert id in s.table.rows.Keys;
    } else {
      NextKeepsExclusive(cfg, s, moves[0]);
      AbandonedUntilRestart(cfg, Next(cfg, s, moves[0]), moves[1..], id);
    }
  }

  // ---------------------------------------------------------------------
  // Runs
  // ---------------------------------------------------------------------

  lemma {:induction false} WorkerCountStays(cfg: Config, s: System, moves: seq<Move>)
    ensures |Moves(cfg, s, moves).workers| == |s.workers|
    decreases |moves|
  {
    if moves != [] { WorkerCountStays(cfg, Next(cfg, s, moves[0]), moves[1..]); }
  }

  lemma Unroll2(cfg: Config, s: System, a: Move, b: Move)
    ensures Moves(cfg, s, [a, b]) == Next(cfg, Next(cfg, s, a), b)
  {
    assert [a, b][1..] == [b] && [b][1..] == [];
    assert Moves(cfg, Next(cfg, s, a), [b]) == Next(cfg, Next(cfg, s, a), b);
  }

  lemma {:induction false} MovesAppend(cfg: Config, s: System, first: seq<Move>, rest: seq<Move>)
    ensures Moves(cfg, s, first + rest) == Moves(cfg, Moves(cfg, s, first), rest)
    decreases |first|
  {
    if first == [] {
      assert first + rest == rest;
    } else {
      assert (first + rest)[1..] == first[1..] + rest;
      MovesAppend(cfg, Next(cfg, s, first[0]), first[1..], rest);
    }
  }
}
