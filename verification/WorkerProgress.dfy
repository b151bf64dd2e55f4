/** That the work gets done: what one worker brings about when clients stop asking. */
module WorkerProgress {
  import opened FiniteSets
  import opened Jobs
  import opened DbQueue
  import opened Workers
  import opened AutoClustering

  // What worker w does next, its handlers returning.
  function Own(s: System, w: nat): Move
    requires w < |s.workers|
  {
    match s.workers[w]
    case Running(_, _) => Finish(w, false)
    case Checking => Check(w)
    case _ => Take(w)
  }

  // The next n moves of worker w.
  function Loop(cfg: Config, s: System, w: nat, n: nat): System
    decreases n
  {
    if n == 0 || w >= |s.workers| then s else Loop(cfg, Next(cfg, s, Own(s, w)), w, n - 1)
  }

  /** Worker w is the only one in a job or before a check, and every job in flight is its. */
  ghost predicate Alone(s: System, w: nat) {
    && w < |s.workers| && !s.workers[w].Stopped?
    && (forall v | 0 <= v < |s.workers| && v != w :: s.workers[v].Polling? || s.workers[v].Stopped?)
    && (forall id | id in s.table.WithStatus(Processing) :: Runs(s, w) && s.workers[w].job.id == id)
  }

  function WaitingDetects(t: Table): set<int> {
    set id | id in t.rows && t.rows[id].status == Pending && t.rows[id].job.request.kind == DETECT
  }

  // A detect job is not over before its check.
  predicate InDetect(s: System, w: nat) {
    RunsKind(s, w, DETECT) || (w < |s.workers| && s.workers[w] == Checking)
  }

  /** A bound on the moves that are left to do. */
  function Work(s: System, w: nat): nat {
    3 * |s.table.WithStatus(Pending)|
    + 4 * (|WaitingDetects(s.table)| + (if InDetect(s, w) then 1 else 0))
    + (if Runs(s, w) then 2 else if InDetect(s, w) then 1 else 0)
  }

  // Detect jobs finished or still to be run.
  function DetectsInAll(s: System, w: nat): nat {
    s.finished + |WaitingDetects(s.table)| + (if RunsKind(s, w, DETECT) then 1 else 0)
  }

  ghost predicate OnTrack(s: System, w: nat) {
    Alone(s, w) && Watched(s, false) && OnlyKnownKinds(s)
  }

  lemma OneFewerWaits(t: Table, id: int)
    requires id in t.WithStatus(Pending)
    ensures |WaitingDetects(t.Mark(id))| == |WaitingDetects(t)| - (if t.rows[id].job.request.kind == DETECT then 1 else 0)
  {
    if t.rows[id].job.request.kind == DETECT {
      assert id in WaitingDetects(t);
      assert WaitingDetects(t.Mark(id)) == WaitingDetects(t) - {id};
    } else {
      assert WaitingDetects(t.Mark(id)) == WaitingDetects(t);
    }
  }

  lemma TakeWorks(cfg: Config, s: System, w: nat)
    requires OnTrack(s, w) && s.workers[w].Polling? && s.table.WithStatus(Pending) != {}
    ensures var s' := Next(cfg, s, Take(w));
            Alone(s', w) && Work(s', w) < Work(s, w) && DetectsInAll(s', w) == DetectsInAll(s, w)
  {
    var id := Least(s.table.WithStatus(Pending));
    var s' := Next(cfg, s, Take(w));
    assert s'.table.WithStatus(Pending) == s.table.WithStatus(Pending) - {id};
    assert forall x | x in s'.table.WithStatus(Processing) && x != id :: x in s.table.WithStatus(Processing);
    OneFewerWaits(s.table, id);
  }

  lemma FinishWorks(cfg: Config, s: System, w: nat)
    requires OnTrack(s, w) && Runs(s, w)
    ensures var s' := Next(cfg, s, Finish(w, false));
            Alone(s', w) && Work(s', w) < Work(s, w) && DetectsInAll(s', w) == DetectsInAll(s, w)
  {
    var s' := Next(cfg, s, Finish(w, false));
    assert forall x | x in s'.table.WithStatus(Processing) :: x in s.table.WithStatus(Processing);
    assert s'.table.WithStatus(Pending) == s.table.WithStatus(Pending);
    assert WaitingDetects(s'.table) == WaitingDetects(s.table);
  }

  lemma CheckWorks(cfg: Config, s: System, w: nat)
    requires cfg.autoDispatch && OnTrack(s, w) && s.workers[w] == Checking
    ensures var s' := Next(cfg, s, Check(w));
            Alone(s', w) && Work(s', w) < Work(s, w) && DetectsInAll(s', w) == DetectsInAll(s, w)
  {
    var s' := Next(cfg, s, Check(w));
    if s.table.rows == map[] {
      IdleCheckDispatchesClustering(cfg, s, w);
      assert s.table.WithStatus(Pending) == {};
      assert s'.table.WithStatus(Pending) == {s.table.lastId + 1};
      assert WaitingDetects(s.table) == {} && WaitingDetects(s'.table) == {};
    } else {
      assert s'.table == s.table;
    }
  }

  lemma NotDropped(cfg: Config, s: System, w: nat)
    requires cfg.autoDispatch && OnTrack(s, w)
    ensures !Drops(cfg, s, Own(s, w))
  {
    if s.workers[w] == Checking && s.table.rows != map[] {
      assert s.table.rows.Keys != {};
      var id := Least(s.table.rows.Keys);
      assert id in s.table.rows && !Outdated(s, id);
    }
  }

  lemma NothingLeft(s: System, w: nat)
    requires Alone(s, w) && s.workers[w].Polling? && s.table.WithStatus(Pending) == {}
    ensures AtRest(s) && WaitingDetects(s.table) == {}
  {
    assert forall id | id in s.table.rows :: id in s.table.WithStatus(Pending) || id in s.table.WithStatus(Processing);
    assert forall id :: id !in s.table.WithStatus(Pending) && id !in s.table.WithStatus(Processing);
    assert s.table.rows.Keys == {};
    assert forall id :: id !in WaitingDetects(s.table);
  }

  lemma OwnMoveWorks(cfg: Config, s: System, w: nat)
    requires cfg.autoDispatch && OnTrack(s, w)
    requires !(s.workers[w].Polling? && s.table.WithStatus(Pending) == {})
    ensures var s' := Next(cfg, s, Own(s, w));
            OnTrack(s', w) && Work(s', w) < Work(s, w) && DetectsInAll(s', w) == DetectsInAll(s, w)
  {
    NotDropped(cfg, s, w);
    NextKeepsWatch(cfg, s, Own(s, w), false);
    NextKeepsKnownKinds(cfg, s, Own(s, w));
    match s.workers[w]
    case Polling => TakeWorks(cfg, s, w);
    case Running(_, _) => FinishWorks(cfg, s, w);
    case Checking => CheckWorks(cfg, s, w);
  }

  /** When nobody asks for anything more, one worker whose handlers return brings everything
      to rest in a bounded number of moves: every waiting detect job has been run, and all of
      them have been clustered. */
  lemma {:induction false} WorkGetsDone(cfg: Config, s: System, w: nat, n: nat)
    requires cfg.autoDispatch && OnTrack(s, w) && n >= Work(s, w)
    ensures var s' := Loop(cfg, s, w, n);
            AtRest(s') && !Owes(s') && s'.finished == DetectsInAll(s, w)
    decreases n
  {
    if s.workers[w].Polling? && s.table.WithStatus(Pending) == {} {
      NothingLeft(s, w);
      StaysAtRest(cfg, s, w, n);
    } else {
      OwnMoveWorks(cfg, s, w);
      WorkGetsDone(cfg, Next(cfg, s, Own(s, w)), w, n - 1);
    }
  }

  lemma {:induction false} StaysAtRest(cfg: Config, s: System, w: nat, n: nat)
    requires w < |s.workers| && s.workers[w].Polling? && s.table.WithStatus(Pending) == {}
    ensures Loop(cfg, s, w, n) == s
    decreases n
  {
    if n > 0 { StaysAtRest(cfg, s, w, n - 1); }
  }

  lemma NextKeepsAlone(cfg: Config, s: System, m: Move)
    requires Undisturbed(m) && |s.workers| == 1 && Alone(s, 0) && s.table.Valid()
    ensures Alone(Next(cfg, s, m), 0)
  {
    var s' := Next(cfg, s, m);
    match m
    case Take(w) =>
      if s' != s {
        var id := Least(s.table.WithStatus(Pending));
        assert forall x | x in s'.table.WithStatus(Processing) && x != id :: x in s.table.WithStatus(Processing);
      }
    case Finish(w, _) =>
      if Runs(s, w) {
        var id := s.workers[w].job.id;
        assert forall x | x in s'.table.WithStatus(Processing) :: x in s.table.WithStatus(Processing) && x != id;
      }
    case Submit(_) | Check(_) =>
      assert forall x | x in s'.table.WithStatus(Processing) :: x in s.table.WithStatus(Processing);
  }

  lemma {:induction false} MovesKeepAlone(cfg: Config, s: System, moves: seq<Move>)
    requires Steady(moves) && |s.workers| == 1 && Alone(s, 0) && Exclusive(s)
    ensures |Moves(cfg, s, moves).workers| == 1 && Alone(Moves(cfg, s, moves), 0)
    decreases |moves|
  {
    if moves != [] {
      NextKeepsExclusive(cfg, s, moves[0]);
      NextKeepsAlone(cfg, s, moves[0]);
      MovesKeepAlone(cfg, Next(cfg, s, moves[0]), moves[1..]);
    }
  }

  /** So with one worker: after any undisturbed run in which no handler raised, once clients
      stop, every detect job ever accepted is run and clustered. */
  lemma OneWorkerGetsEverythingDone(cfg: Config, moves: seq<Move>, n: nat)
    requires cfg.autoDispatch && Calm(moves)
    requires n >= Work(Moves(cfg, Start(1), moves), 0)
    ensures var s := Moves(cfg, Start(1), moves);
            var s' := Loop(cfg, s, 0, n);
            AtRest(s') && !Owes(s') && s'.finished == DetectsInAll(s, 0)
  {
    MovesKeepAlone(cfg, Start(1), moves);
    MovesKeepWatch(cfg, Start(1), moves, false);
    MovesKeepOneAtATime(cfg, Start(1), moves, false);
    WorkGetsDone(cfg, Moves(cfg, Start(1), moves), 0, n);
  }

  lemma {:induction false} MovesKeepKnownKinds(cfg: Config, s: System, moves: seq<Move>)
    requires OnlyKnownKinds(s) && forall i | 0 <= i < |moves| :: KnownKind(moves[i])
    ensures OnlyKnownKinds(Moves(cfg, s, moves))
    decreases |moves|
  {
    if moves != [] {
      NextKeepsKnownKinds(cfg, s, moves[0]);
      MovesKeepKnownKinds(cfg, Next(cfg, s, moves[0]), moves[1..]);
    }
  }

  function StoredDetects(t: Table): set<int> {
    set id | id in t.rows && t.rows[id].job.request.kind == "detect"
  }

  lemma RestartIsOnTrack(cfg: Config, s: System, w: nat)
    requires Accounted(s) && OnlyKnownKinds(s) && w < |s.workers|
    requires s.table.rows != map[] || !Owes(s)
    ensures var s1 := Next(cfg, s, Restarting);
            OnTrack(s1, w) && DetectsInAll(s1, w) == s.finished + |StoredDetects(s.table)|
  {
    var s1 := Next(cfg, s, Restarting);
    NextKeepsAccounted(cfg, s, Restarting);
    NextKeepsKnownKinds(cfg, s, Restarting);
    assert forall id :: id !in s1.table.WithStatus(Processing);
    assert WaitingDetects(s1.table) == StoredDetects(s.table);
    if s.table.rows != map[] {
      assert s.table.rows.Keys != {};
      var id := Least(s.table.rows.Keys);
      assert id in s1.table.rows && !Outdated(s1, id);
    }
  }

  /** Recovery makes good: after any run at all, however its workers were cancelled and its
      process restarted, one more restart and then the moves of any one worker run every
      detect job that was stored and cluster them all, provided some job was stored or no
      clustering was owed. */
  lemma RestartGetsEverythingDone(cfg: Config, k: nat, moves: seq<Move>, w: nat, n: nat)
    requires cfg.autoDispatch && w < k && forall i | 0 <= i < |moves| :: KnownKind(moves[i])
    requires var s := Moves(cfg, Start(k), moves);
             (s.table.rows != map[] || !Owes(s)) && n >= Work(Next(cfg, s, Restarting), w)
    ensures var s := Moves(cfg, Start(k), moves);
            var s' := Loop(cfg, Next(cfg, s, Restarting), w, n);
            AtRest(s') && !Owes(s') && s'.finished == s.finished + |StoredDetects(s.table)|
  {
    var s := Moves(cfg, Start(k), moves);
    MovesKeepWatch(cfg, Start(k), moves, false);
    MovesKeepKnownKinds(cfg, Start(k), moves);
    WorkerCountStays(cfg, Start(k), moves);
    RestartIsOnTrack(cfg, s, w);
    WorkGetsDone(cfg, Next(cfg, s, Restarting), w, n);
  }

  lemma InsertedWaits(t: Table, request: Request)
    requires t.Valid()
    ensures var t', id := t.Insert(request), t.lastId + 1;
            && t'.WithStatus(Pending) == t.WithStatus(Pending) + {id} && id !in t.rows
            && WaitingDetects(t') == WaitingDetects(t) + (if request.kind == "detect" then {id} else {})
  {
  }

  /** An accepted request waits as it was submitted, next to all that waited before. */
  lemma SubmittedJobWaits(cfg: Config, s: System, request: Request)
    requires s.table.Valid()
    ensures var s' := Next(cfg, s, Submit(request));
            var id := s.table.lastId + 1;
            if cfg.maxSize > 0 && |s.table.WithStatus(Pending)| >= cfg.maxSize then s' == s
            else
              && s'.table.WithStatus(Pending) == s.table.WithStatus(Pending) + {id} && id !in s.table.rows
              && s'.table.rows[id].job.request == request
              && |WaitingDetects(s'.table)| == |WaitingDetects(s.table)| + (if request.kind == "detect" then 1 else 0)
  {
    InsertedWaits(s.table, request);
    assert s.table.lastId + 1 !in WaitingDetects(s.table);
  }
}
