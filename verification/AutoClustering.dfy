/** Automatic clustering after detection: when a finished detect job is clustered, and
    exactly when it is not. */
module AutoClustering {
  import opened FiniteSets
  import opened Jobs
  import opened DbQueue
  import opened Workers

  // Some finished detect job has seen no clustering begin after it and run to its end.
  predicate Owes(s: System) {
    s.covered < s.finished
  }

  // The job is a clustering that a detect job has outlasted.
  predicate Outdated(s: System, id: int) {
    exists w | 0 <= w < |s.workers| ::
      RunsKind(s, w, CLUSTER) && s.workers[w].job.id == id && s.workers[w].seen < s.finished
  }

  /** Somebody will check, or some job is in the table that is no such clustering. */
  ghost predicate Promised(s: System) {
    SomeoneChecks(s) || exists id :: id in s.table.rows && !Outdated(s, id)
  }

  /** The moves that may take the promise away. */
  predicate Drops(cfg: Config, s: System, m: Move) {
    match m
    // the job of a detect handler that raises, or of an unknown kind, is not followed by a check
    case Finish(w, raised) => Runs(s, w) && !RunsKind(s, w, CLUSTER) && (RunsKind(s, w, DETECT) ==> raised)
    // the check is switched off, or finds nothing but clusterings that began too early
    case Check(w) =>
      && w < |s.workers| && s.workers[w] == Checking
      && (cfg.autoDispatch ==> s.table.rows != map[] && forall id | id in s.table.rows :: Outdated(s, id))
    case Cancel(w, returned) =>
      && w < |s.workers|
      && (s.workers[w] == Checking || (Runs(s, w) && !(RunsKind(s, w, CLUSTER) && returned)))
    case Purging => exists id | id in s.table.rows :: s.table.rows[id].status == Pending
    case Restarting => SomeoneChecks(s)
    case _ => false
  }

  /** The moves that bring it back: a job comes or begins, a detect job returns, a check
      is made. */
  predicate Resumes(cfg: Config, s: System, m: Move) {
    && !Drops(cfg, s, m)
    && match m
       case Submit(_) => Next(cfg, s, m) != s
       case Take(_) => Next(cfg, s, m) != s
       case Finish(w, _) => RunsKind(s, w, DETECT)
       case Check(_) => Next(cfg, s, m) != s
       case _ => false
  }

  // Whether clustering is owed, a move dropped it, and none has brought it back since.
  predicate DroppedNext(cfg: Config, s: System, m: Move, dropped: bool) {
    Owes(Next(cfg, s, m)) && (Drops(cfg, s, m) || (dropped && !Resumes(cfg, s, m)))
  }

  predicate Dropped(cfg: Config, s: System, moves: seq<Move>, dropped: bool)
    decreases |moves|
  {
    if moves == [] then dropped
    else Dropped(cfg, Next(cfg, s, moves[0]), moves[1..], DroppedNext(cfg, s, moves[0], dropped))
  }

  ghost predicate Accounted(s: System) {
    && Exclusive(s)
    && (forall w | Runs(s, w) :: s.workers[w].seen <= s.finished)
    && s.covered <= s.finished
    && (s.last == Some(DETECT) ==> Owes(s))
    && (s.skipped ==> s.last == Some(DETECT))
  }

  /** What every move keeps: while clustering is owed and was not dropped, it is promised. */
  ghost predicate Watched(s: System, dropped: bool) {
    && Accounted(s)
    && (Owes(s) && !dropped ==> Promised(s))
    && (dropped ==> Owes(s))
  }

  lemma NextKeepsAccounted(cfg: Config, s: System, m: Move)
    requires Accounted(s)
    ensures Accounted(Next(cfg, s, m))
  {
    NextKeepsExclusive(cfg, s, m);
  }

  lemma StillUpToDate(s: System, s': System, id: int)
    requires !Outdated(s, id) && s'.finished == s.finished
    requires forall w | Runs(s', w) && s'.workers[w].job.id == id :: Runs(s, w) && s'.workers[w] == s.workers[w]
    ensures !Outdated(s', id)
  {
  }

  lemma ClientKeepsWatch(cfg: Config, s: System, request: Request, dropped: bool)
    requires Watched(s, dropped)
    ensures Watched(Next(cfg, s, Submit(request)), DroppedNext(cfg, s, Submit(request), dropped))
  {
    var s' := Next(cfg, s, Submit(request));
    NextKeepsAccounted(cfg, s, Submit(request));
    if s' != s {
      var id := s.table.lastId + 1;
      assert id in s'.table.rows && !Outdated(s', id);
    }
  }

  lemma TakeKeepsWatch(cfg: Config, s: System, w: nat, dropped: bool)
    requires Watched(s, dropped)
    ensures Watched(Next(cfg, s, Take(w)), DroppedNext(cfg, s, Take(w), dropped))
  {
    var s' := Next(cfg, s, Take(w));
    NextKeepsAccounted(cfg, s, Take(w));
    if s' != s {
      var id := Least(s.table.WithStatus(Pending));
      assert id in s'.table.rows && !Outdated(s', id);
    }
  }

  // A clustering that ran to its end: it pays what is owed, or it was outdated.
  lemma ClusteringKeepsWatch(cfg: Config, s: System, w: nat, next: Worker, dropped: bool)
    requires Watched(s, dropped) && RunsKind(s, w, CLUSTER) && !next.Running?
    requires Accounted(Completed(cfg.maxSize, s, w, next, true))
    ensures var s' := Completed(cfg.maxSize, s, w, next, true);
            Watched(s', Owes(s') && dropped)
  {
    var s' := Completed(cfg.maxSize, s, w, next, true);
    if Owes(s') && !dropped {
      assert Outdated(s, s.workers[w].job.id);
      if SomeoneChecks(s) {
        var v :| 0 <= v < |s.workers| && s.workers[v] == Checking;
        assert s'.workers[v] == Checking;
      } else {
        var id :| id in s.table.rows && !Outdated(s, id);
        StillUpToDate(s, s', id);
        assert id in s'.table.rows;
      }
    }
  }

  lemma FinishKeepsWatch(cfg: Config, s: System, w: nat, raised: bool, dropped: bool)
    requires Watched(s, dropped)
    ensures Watched(Next(cfg, s, Finish(w, raised)), DroppedNext(cfg, s, Finish(w, raised), dropped))
  {
    var s' := Next(cfg, s, Finish(w, raised));
    NextKeepsAccounted(cfg, s, Finish(w, raised));
    if RunsKind(s, w, CLUSTER) {
      ClusteringKeepsWatch(cfg, s, w, Polling, dropped);
    } else if RunsKind(s, w, DETECT) && !raised {
      assert s'.workers[w] == Checking;
    }
  }

  /** What an idle check finds missing it asks for: one clustering, and nothing else. */
  lemma IdleCheckDispatchesClustering(cfg: Config, s: System, w: nat)
    requires cfg.autoDispatch && w < |s.workers| && s.workers[w] == Checking && s.table.rows == map[]
    ensures var id := s.table.lastId + 1;
            Next(cfg, s, Check(w)).table.rows == map[id := Row(Job(id, Request("cluster", "", "{}")), Pending)]
  {
    assert |s.table.rows| == 0;
  }

  lemma CheckKeepsWatch(cfg: Config, s: System, w: nat, dropped: bool)
    requires Watched(s, dropped)
    ensures Watched(Next(cfg, s, Check(w)), DroppedNext(cfg, s, Check(w), dropped))
  {
    var s' := Next(cfg, s, Check(w));
    NextKeepsAccounted(cfg, s, Check(w));
    if w < |s.workers| && s.workers[w] == Checking && !Drops(cfg, s, Check(w)) {
      if s.table.rows == map[] {
        var id := s.table.lastId + 1;
        assert id in s'.table.rows && !Outdated(s', id);
      } else {
        var id :| id in s.table.rows && !Outdated(s, id);
        StillUpToDate(s, s', id);
        assert |s.table.rows| > 0 && id in s'.table.rows;
      }
    }
  }

  lemma CancelKeepsWatch(cfg: Config, s: System, w: nat, returned: bool, dropped: bool)
    requires Watched(s, dropped)
    ensures Watched(Next(cfg, s, Cancel(w, returned)), DroppedNext(cfg, s, Cancel(w, returned), dropped))
  {
    var s' := Next(cfg, s, Cancel(w, returned));
    NextKeepsAccounted(cfg, s, Cancel(w, returned));
    if RunsKind(s, w, CLUSTER) && returned {
      ClusteringKeepsWatch(cfg, s, w, Stopped(None), dropped);
    } else if w < |s.workers| && s.workers[w] == Polling {
      IdleStopKeepsPromise(s, s', w);
    }
  }

  lemma AbandonKeepsWatch(cfg: Config, s: System, w: nat, dropped: bool)
    requires Watched(s, dropped)
    ensures Watched(Next(cfg, s, Abandon(w)), DroppedNext(cfg, s, Abandon(w), dropped))
  {
    NextKeepsAccounted(cfg, s, Abandon(w));
    if w < |s.workers| && s.workers[w] == Polling {
      IdleStopKeepsPromise(s, Next(cfg, s, Abandon(w)), w);
    }
  }

  lemma IdleStopKeepsPromise(s: System, s': System, w: nat)
    requires w < |s.workers| && s.workers[w] == Polling
    requires exists lost :: s'.workers == s.workers[w := Stopped(lost)]
    requires s'.table.rows.Keys == s.table.rows.Keys && s'.finished == s.finished
    ensures Promised(s) ==> Promised(s')
  {
    if SomeoneChecks(s) {
      var v :| 0 <= v < |s.workers| && s.workers[v] == Checking;
      assert s'.workers[v] == Checking;
    } else if id :| id in s.table.rows && !Outdated(s, id) {
      StillUpToDate(s, s', id);
      assert id in s'.table.rows;
    }
  }

  lemma PurgeKeepsWatch(cfg: Config, s: System, dropped: bool)
    requires Watched(s, dropped)
    ensures Watched(Next(cfg, s, Purging), DroppedNext(cfg, s, Purging, dropped))
  {
    NextKeepsAccounted(cfg, s, Purging);
    if !Drops(cfg, s, Purging) {
      assert forall id :: id !in s.table.WithStatus(Pending);
      assert s.table.Delete(s.table.WithStatus(Pending)).rows == s.table.rows;
    }
  }

  lemma RestartKeepsWatch(cfg: Config, s: System, dropped: bool)
    requires Watched(s, dropped)
    ensures Watched(Next(cfg, s, Restarting), DroppedNext(cfg, s, Restarting, dropped))
  {
    var s' := Next(cfg, s, Restarting);
    NextKeepsAccounted(cfg, s, Restarting);
    if !SomeoneChecks(s) && Promised(s) {
      var id :| id in s.table.rows && !Outdated(s, id);
      assert id in s'.table.rows && !Outdated(s', id);
    }
  }

  lemma NextKeepsWatch(cfg: Config, s: System, m: Move, dropped: bool)
    requires Watched(s, dropped)
    ensures Watched(Next(cfg, s, m), DroppedNext(cfg, s, m, dropped))
  {
    match m
    case Submit(request) => ClientKeepsWatch(cfg, s, request, dropped);
    case Take(w) => TakeKeepsWatch(cfg, s, w, dropped);
    case Finish(w, raised) => FinishKeepsWatch(cfg, s, w, raised, dropped);
    case Check(w) => CheckKeepsWatch(cfg, s, w, dropped);
    case Cancel(w, returned) => CancelKeepsWatch(cfg, s, w, returned, dropped);
    case Abandon(w) => AbandonKeepsWatch(cfg, s, w, dropped);
    case Purging => PurgeKeepsWatch(cfg, s, dropped);
    case Restarting => RestartKeepsWatch(cfg, s, dropped);
  }

  lemma {:induction false} MovesKeepWatch(cfg: Config, s: System, moves: seq<Move>, dropped: bool)
    requires Watched(s, dropped)
    ensures Watched(Moves(cfg, s, moves), Dropped(cfg, s, moves, dropped))
    decreases |moves|
  {
    if moves != [] {
      NextKeepsWatch(cfg, s, moves[0], dropped);
      MovesKeepWatch(cfg, Next(cfg, s, moves[0]), moves[1..], DroppedNext(cfg, s, moves[0], dropped));
    }
  }

  /** For any number of workers, any configuration, jobs of any kind, and any interleaving
      with purges, cancellations and restarts: while some finished detect job still lacks a
      clustering, an idle check is to come or a job that leads to one, unless a move dropped
      it. At rest, a finished detect job has gone without clustering if and only if a move
      dropped it and none brought it back. */
  lemma ClusteringMissedExactlyWhenDropped(cfg: Config, n: nat, moves: seq<Move>)
    ensures var s, dropped := Moves(cfg, Start(n), moves), Dropped(cfg, Start(n), moves, false);
            && (Owes(s) && !dropped ==> Promised(s))
            && (AtRest(s) ==> (Owes(s) <==> dropped))
  {
    MovesKeepWatch(cfg, Start(n), moves, false);
  }

  // ---------------------------------------------------------------------
  // Undisturbed runs
  // ---------------------------------------------------------------------

  // No purge, no restart, no cancellation.
  predicate Undisturbed(m: Move) {
    m.Submit? || m.Take? || m.Check? || m.Finish?
  }

  // Clients submit detect and cluster jobs only.
  predicate KnownKind(m: Move) {
    m.Submit? ==> m.request.kind in {DETECT, CLUSTER}
  }

  predicate Steady(moves: seq<Move>) {
    forall i | 0 <= i < |moves| :: Undisturbed(moves[i]) && KnownKind(moves[i])
  }

  // Steady, and no handler raises.
  predicate Calm(moves: seq<Move>) {
    Steady(moves) && forall i | 0 <= i < |moves| :: moves[i].Finish? ==> !moves[i].raised
  }

  ghost predicate OnlyKnownKinds(s: System) {
    && (forall id | id in s.table.rows :: s.table.rows[id].job.request.kind in {DETECT, CLUSTER})
    && (forall w | Runs(s, w) :: s.workers[w].job.request.kind in {DETECT, CLUSTER})
    && (s.last.Some? ==> s.last.value in {DETECT, CLUSTER})
    && (s.skipped ==> s.last == Some(DETECT))
  }

  /** What every steady move keeps, for any number of workers. */
  ghost predicate CheckDue(s: System) {
    OnlyKnownKinds(s) && (s.last == Some(DETECT) && !s.skipped ==> s.table.rows != map[] || SomeoneChecks(s))
  }

  lemma NextKeepsKnownKinds(cfg: Config, s: System, m: Move)
    requires KnownKind(m) && OnlyKnownKinds(s)
    ensures OnlyKnownKinds(Next(cfg, s, m))
  {
  }

  lemma NextKeepsCheckDue(cfg: Config, s: System, m: Move)
    requires cfg.autoDispatch && Undisturbed(m) && KnownKind(m) && CheckDue(s)
    ensures CheckDue(Next(cfg, s, m))
  {
    var s' := Next(cfg, s, m);
    NextKeepsKnownKinds(cfg, s, m);
    match m
    case Submit(request) =>
      if s' != s { assert s.table.lastId + 1 in s'.table.rows; }
    case Take(w) =>
      if s' != s { assert Least(s.table.WithStatus(Pending)) in s'.table.rows; }
    case Finish(w, raised) =>
      if s' != s && s'.last == Some(DETECT) && !raised { assert s'.workers[w] == Checking; }
    case Check(w) =>
      if s' != s && |s.table.rows| == 0 { assert s.table.lastId + 1 in s'.table.rows; }
  }

  lemma {:induction false} MovesKeepCheckDue(cfg: Config, s: System, moves: seq<Move>)
    requires cfg.autoDispatch && Steady(moves) && CheckDue(s)
    ensures CheckDue(Moves(cfg, s, moves))
    decreases |moves|
  {
    if moves != [] {
      NextKeepsCheckDue(cfg, s, moves[0]);
      MovesKeepCheckDue(cfg, Next(cfg, s, moves[0]), moves[1..]);
    }
  }

  /** The job completed last. Whatever happened, at rest it is a detect job only if a move
      dropped its clustering. In steady runs, after a detect job whose handler returned the
      table is not empty or a worker has its idle check before it, until another job
      completes; so at rest the last one was a clustering, unless a handler raised in it. */
  lemma DetectionIsFollowedByClustering(cfg: Config, n: nat, moves: seq<Move>)
    ensures var s := Moves(cfg, Start(n), moves);
            && (AtRest(s) && s.last == Some(DETECT) ==> Dropped(cfg, Start(n), moves, false))
            && (cfg.autoDispatch && Steady(moves) ==>
                  && (s.last == Some(DETECT) && !s.skipped ==> s.table.rows != map[] || SomeoneChecks(s))
                  && (AtRest(s) ==> if s.skipped then s.last == Some(DETECT) else s.last in {None, Some(CLUSTER)}))
  {
    MovesKeepWatch(cfg, Start(n), moves, false);
    if cfg.autoDispatch && Steady(moves) { MovesKeepCheckDue(cfg, Start(n), moves); }
  }

  /** With one worker nothing overlaps. */
  ghost predicate OneAtATime(s: System, dropped: bool) {
    && |s.workers| == 1 && OnlyKnownKinds(s)
    && (Runs(s, 0) ==> s.workers[0].seen == s.finished)
    && (dropped ==> s.skipped)
  }

  lemma OneWorkerIsNotRefused(cfg: Config, s: System, w: nat)
    requires cfg.autoDispatch && |s.workers| == 1
    ensures !Drops(cfg, s, Check(w))
  {
    if s.workers[0] == Checking && s.table.rows != map[] {
      assert s.table.rows.Keys != {};
      var id := Least(s.table.rows.Keys);
      assert id in s.table.rows && !Outdated(s, id);
    }
  }

  lemma NextKeepsOneAtATime(cfg: Config, s: System, m: Move, dropped: bool)
    requires cfg.autoDispatch && Undisturbed(m) && KnownKind(m)
    requires Accounted(s) && OneAtATime(s, dropped)
    ensures OneAtATime(Next(cfg, s, m), DroppedNext(cfg, s, m, dropped))
  {
    NextKeepsKnownKinds(cfg, s, m);
    if m.Check? { OneWorkerIsNotRefused(cfg, s, m.w); }
  }

  lemma {:induction false} MovesKeepOneAtATime(cfg: Config, s: System, moves: seq<Move>, dropped: bool)
    requires cfg.autoDispatch && Steady(moves)
    requires Accounted(s) && OneAtATime(s, dropped)
    ensures OneAtATime(Moves(cfg, s, moves), Dropped(cfg, s, moves, dropped))
    ensures Calm(moves) && !s.skipped ==> !Moves(cfg, s, moves).skipped
    decreases |moves|
  {
    if moves != [] {
      NextKeepsOneAtATime(cfg, s, moves[0], dropped);
      NextKeepsAccounted(cfg, s, moves[0]);
      MovesKeepOneAtATime(cfg, Next(cfg, s, moves[0]), moves[1..], DroppedNext(cfg, s, moves[0], dropped));
    }
  }

  /** With one worker, at rest after a steady run, every finished detect job was followed
      by a clustering that ran to its end, except exactly when the last job of all was a
      detect job whose handler raised. */
  lemma OneWorkerClustersEverything(cfg: Config, moves: seq<Move>)
    requires cfg.autoDispatch && Steady(moves)
    requires AtRest(Moves(cfg, Start(1), moves))
    ensures var s := Moves(cfg, Start(1), moves);
            && (Owes(s) <==> s.skipped)
            && (Calm(moves) ==> !Owes(s))
  {
    MovesKeepWatch(cfg, Start(1), moves, false);
    MovesKeepOneAtATime(cfg, Start(1), moves, false);
  }

  ghost predicate NoClustering(s: System) {
    && (forall id | id in s.table.rows :: s.table.rows[id].job.request.kind != CLUSTER)
    && (forall w | Runs(s, w) :: s.workers[w].job.request.kind != CLUSTER)
  }

  /** When automatic dispatch is switched off, a clustering runs only if a client asks. */
  lemma {:induction false} NoDispatchWhenOff(cfg: Config, s: System, moves: seq<Move>)
    requires !cfg.autoDispatch && NoClustering(s)
    requires forall i | 0 <= i < |moves| && moves[i].Submit? :: moves[i].request.kind != CLUSTER
    ensures NoClustering(Moves(cfg, s, moves))
    decreases |moves|
  {
    if moves != [] { NoDispatchWhenOff(cfg, Next(cfg, s, moves[0]), moves[1..]); }
  }

  // ---------------------------------------------------------------------
  // More workers
  // ---------------------------------------------------------------------

  lemma {:induction false} CalmDropIsRefusal(cfg: Config, s: System, moves: seq<Move>)
    requires cfg.autoDispatch && Calm(moves) && OnlyKnownKinds(s)
    requires Dropped(cfg, s, moves, false)
    ensures exists i :: 0 <= i < |moves| && moves[i].Check? && Drops(cfg, Moves(cfg, s, moves[..i]), moves[i])
    decreases |moves|
  {
    assert moves[..0] == [];
    if moves[0].Check? && Drops(cfg, s, moves[0]) {
      assert Drops(cfg, Moves(cfg, s, moves[..0]), moves[0]);
    } else {
      NextKeepsKnownKinds(cfg, s, moves[0]);
      CalmDropIsRefusal(cfg, Next(cfg, s, moves[0]), moves[1..]);
      var i :| 0 <= i < |moves[1..]| && moves[1..][i].Check?
               && Drops(cfg, Moves(cfg, Next(cfg, s, moves[0]), moves[1..][..i]), moves[1..][i]);
      assert moves[..i + 1][1..] == moves[1..][..i];
      assert Drops(cfg, Moves(cfg, s, moves[..i + 1]), moves[i + 1]);
    }
  }

  /** With more workers and no disturbance at all, faces are missed for one reason only: an
      idle check found the table holding nothing but clusterings that had begun too early. */
  lemma OnlyARefusedCheckMissesFaces(cfg: Config, n: nat, moves: seq<Move>)
    requires cfg.autoDispatch && Calm(moves)
    requires AtRest(Moves(cfg, Start(n), moves)) && Owes(Moves(cfg, Start(n), moves))
    ensures exists i :: 0 <= i < |moves| && moves[i].Check? && Drops(cfg, Moves(cfg, Start(n), moves[..i]), moves[i])
  {
    ClusteringMissedExactlyWhenDropped(cfg, n, moves);
    CalmDropIsRefusal(cfg, Start(n), moves);
  }

  /** Two workers are enough for that. */
  lemma TwoWorkersCanMissFaces(cfg: Config, d: Request, c: Request)
    requires cfg.autoDispatch && cfg.maxSize == 0 && d.kind == DETECT && c.kind == CLUSTER
    ensures var moves := [Submit(d), Submit(c), Take(0), Take(1)] + [Finish(0, false), Check(0), Finish(1, false)];
            var s := Moves(cfg, Start(2), moves);
            Calm(moves) && AtRest(s) && s.last == Some(CLUSTER) && Owes(s)
  {
    BothTaken(cfg, d, c);
    OlderClusteringEndsLast(cfg, d, c);
    MovesAppend(cfg, Start(2), [Submit(d), Submit(c), Take(0), Take(1)], [Finish(0, false), Check(0), Finish(1, false)]);
  }

  function BothRunning(d: Request, c: Request): System {
    System(Table(map[1 := Row(Job(1, d), Processing), 2 := Row(Job(2, c), Processing)], 2),
           [Running(Job(1, d), 0), Running(Job(2, c), 0)], None, false, 0, 0)
  }

  lemma BothTaken(cfg: Config, d: Request, c: Request)
    requires cfg.maxSize == 0 && d.kind == DETECT && c.kind == CLUSTER
    ensures Moves(cfg, Start(2), [Submit(d), Submit(c), Take(0), Take(1)]) == BothRunning(d, c)
  {
    var s2 := Start(2).(table := Start(2).table.Insert(d).Insert(c));
    assert Moves(cfg, Start(2), [Submit(d), Submit(c)]) == s2 by { Unroll2(cfg, Start(2), Submit(d), Submit(c)); }
    BothTake(cfg, s2, d, c);
    MovesAppend(cfg, Start(2), [Submit(d), Submit(c)], [Take(0), Take(1)]);
    assert [Submit(d), Submit(c), Take(0), Take(1)] == [Submit(d), Submit(c)] + [Take(0), Take(1)];
  }

  lemma BothTake(cfg: Config, s: System, d: Request, c: Request)
    requires d.kind == DETECT && c.kind == CLUSTER
    requires s == System(Table(map[1 := Row(Job(1, d), Pending), 2 := Row(Job(2, c), Pending)], 2),
                         [Polling, Polling], None, false, 0, 0)
    ensures Moves(cfg, s, [Take(0), Take(1)]) == BothRunning(d, c)
  {
    assert s.table.WithStatus(Pending) == {1, 2};
    var s1 := Next(cfg, s, Take(0));
    assert s1.workers == [Running(Job(1, d), 0), Polling] && s1.table.WithStatus(Pending) == {2};
    Unroll2(cfg, s, Take(0), Take(1));
  }

  lemma OlderClusteringEndsLast(cfg: Config, d: Request, c: Request)
    requires cfg.autoDispatch && d.kind == DETECT && c.kind == CLUSTER
    ensures var s := Moves(cfg, BothRunning(d, c), [Finish(0, false), Check(0), Finish(1, false)]);
            AtRest(s) && s.last == Some(CLUSTER) && Owes(s)
  {
    var s, s2 := BothRunning(d, c), ClusterLeft(d, c);
    DetectEndsFirst(cfg, d, c);
    var s3 := Next(cfg, s2, Finish(1, false));
    assert s3.table.rows == map[] && s3.workers == [Polling, Polling];
    MovesAppend(cfg, s, [Finish(0, false), Check(0)], [Finish(1, false)]);
    assert [Finish(0, false), Check(0), Finish(1, false)] == [Finish(0, false), Check(0)] + [Finish(1, false)];
    assert Moves(cfg, s2, [Finish(1, false)]) == s3;
  }

  function ClusterLeft(d: Request, c: Request): System {
    System(Table(map[2 := Row(Job(2, c), Processing)], 2), [Polling, Running(Job(2, c), 0)], Some(DETECT), false, 1, 0)
  }

  lemma DetectEndsFirst(cfg: Config, d: Request, c: Request)
    requires cfg.autoDispatch && d.kind == DETECT && c.kind == CLUSTER
    ensures Moves(cfg, BothRunning(d, c), [Finish(0, false), Check(0)]) == ClusterLeft(d, c)
  {
    var s := BothRunning(d, c);
    var s1 := Next(cfg, s, Finish(0, false));
    assert s1.workers == [Checking, Running(Job(2, c), 0)];
    assert s1.table.rows == map[2 := Row(Job(2, c), Processing)];
    Unroll2(cfg, s, Finish(0, false), Check(0));
  }

  /** One worker is enough for the rest: a handler that raises (its payload was not what
      /detect writes), a purge, a restart, and a cancelled clustering each have a run that
      leaves a finished detect job without clustering. */
  lemma DisturbancesPreventClustering(cfg: Config, d: Request, upset: seq<Move>)
    requires cfg.autoDispatch && cfg.maxSize == 0 && d.kind == DETECT
    requires upset in {[Finish(0, true)], [Finish(0, false), Restarting], [Finish(0, false), Submit(d)] + [Check(0), Purging]}
    ensures var s := Moves(cfg, Start(1), [Submit(d), Take(0)] + upset);
            AtRest(s) && s.last == Some(DETECT)
  {
    var s := OneRunning(d);
    OneTaken(cfg, d);
    MovesAppend(cfg, Start(1), [Submit(d), Take(0)], upset);
    if upset == [Finish(0, true)] {
      var s1 := Next(cfg, s, Finish(0, true));
      assert s1.table.rows == map[] && s1.workers == [Polling];
      assert Moves(cfg, s, upset) == s1;
    } else {
      var s1 := Next(cfg, s, Finish(0, false));
      assert s1.table == Table(map[], 1) && s1.workers == [Checking];
      if upset == [Finish(0, false), Restarting] {
        Unroll2(cfg, s, Finish(0, false), Restarting);
        assert Next(cfg, s1, Restarting).table.rows == map[];
      } else {
        PurgeAfterCheck(cfg, s1, d);
        Unroll2(cfg, s, Finish(0, false), Submit(d));
        MovesAppend(cfg, s, [Finish(0, false), Submit(d)], [Check(0), Purging]);
      }
    }
  }

  lemma PurgeAfterCheck(cfg: Config, s: System, d: Request)
    requires cfg.autoDispatch && cfg.maxSize == 0
    requires s.table == Table(map[], 1) && s.workers == [Checking] && s.last == Some(DETECT)
    ensures var s' := Moves(cfg, Next(cfg, s, Submit(d)), [Check(0), Purging]);
            AtRest(s') && s'.last == Some(DETECT)
  {
    var s1 := Next(cfg, s, Submit(d));
    assert s1.table.rows == map[2 := Row(Job(2, d), Pending)];
    var s2 := Next(cfg, s1, Check(0));
    assert s2.table == s1.table && s2.workers == [Polling];
    assert s2.table.WithStatus(Pending) == {2};
    assert Next(cfg, s2, Purging).table.rows == map[];
    Unroll2(cfg, s1, Check(0), Purging);
  }

  function OneRunning(d: Request): System {
    System(Table(map[1 := Row(Job(1, d), Processing)], 1), [Running(Job(1, d), 0)], None, false, 0, 0)
  }

  lemma OneTaken(cfg: Config, d: Request)
    requires cfg.maxSize == 0 && d.kind == DETECT
    ensures Moves(cfg, Start(1), [Submit(d), Take(0)]) == OneRunning(d)
  {
    var s1 := Next(cfg, Start(1), Submit(d));
    assert s1.table.rows == map[1 := Row(Job(1, d), Pending)];
    assert s1.table.WithStatus(Pending) == {1};
    assert Next(cfg, s1, Take(0)).workers == [Running(Job(1, d), 0)];
    Unroll2(cfg, Start(1), Submit(d), Take(0));
  }
}
