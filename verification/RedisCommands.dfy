/** Several processes on one Redis server. Redis executes single commands atomically,
    but an enqueue is three of them and a dequeue is two. */
module RedisCommands {
  import opened FiniteSets
  import opened Jobs
  import R = RedisQueue

  /** Where a process stands between the commands of one operation. */
  datatype Process =
    | Ready
    | Counted(request: Request)   // LLEN was below the limit
    | Numbered(job: Job)          // INCR gave the id, RPUSH is still to come
    | Popped(job: Job)            // LPOP took the job, HSET is still to come

  datatype Place = InList | InHash | InSlot(p: nat) | Completed | Purged | Lost

  /** The server, the processes, and a record of where every accepted job went. */
  datatype State = State(
    list: seq<Job>,
    hash: map<int, Job>,
    counter: int,
    processes: seq<Process>,
    place: map<int, Place>,
    crashes: nat
  )

  datatype Command =
    | Llen(p: nat, request: Request)
    | Incr(p: nat)
    | Rpush(p: nat)
    | IdleScript(p: nat, request: Request)
    | Lpop(p: nat)
    | Hset(p: nat)
    | Hdel(p: nat, id: int)
    | Del(p: nat)
    | Crash(p: nat)               // the process dies between two commands and starts anew

  function Push(s: State, job: Job): State {
    s.(list := s.list + [job], place := s.place[job.id := InList])
  }

  // A process issues the commands of its operation in order; others do nothing.
  function Next(maxSize: int, s: State, c: Command): State {
    if c.p >= |s.processes| then s
    else
      var at := s.processes[c.p];
      match c
      case Llen(p, request) =>
        if at != Ready || (|s.list| >= maxSize && maxSize > 0) then s
        else s.(processes := s.processes[p := Counted(request)])
      case Incr(p) =>
        if !at.Counted? then s
        else s.(counter := s.counter + 1, processes := s.processes[p := Numbered(Job(s.counter + 1, at.request))])
      case Rpush(p) =>
        if !at.Numbered? then s
        else Push(s, at.job).(processes := s.processes[p := Ready])
      case IdleScript(p, request) =>
        if at != Ready || !SeemsIdle(s) then s
        else Push(s.(counter := s.counter + 1), Job(s.counter + 1, request))
      case Lpop(p) =>
        if at != Ready || s.list == [] then s
        else
          var job := s.list[0];
          s.(list := s.list[1..], processes := s.processes[p := Popped(job)], place := s.place[job.id := InSlot(p)])
      case Hset(p) =>
        if !at.Popped? then s
        else s.(hash := s.hash[at.job.id := at.job], processes := s.processes[p := Ready],
                place := s.place[at.job.id := InHash])
      case Hdel(p, id) =>
        if at != Ready || id !in s.hash then s
        else s.(hash := s.hash - {id}, place := s.place[id := Completed])
      case Del(p) =>
        if at != Ready then s
        else s.(list := [], place := map id | id in s.place :: if s.place[id] == InList then Purged else s.place[id])
      case Crash(p) =>
        s.(processes := s.processes[p := Ready], crashes := s.crashes + 1,
           place := if at.Popped? then s.place[at.job.id := Lost] else s.place)
  }

  function Run(maxSize: int, s: State, commands: seq<Command>): State
    decreases |commands|
  {
    if commands == [] then s else Run(maxSize, Next(maxSize, s, commands[0]), commands[1..])
  }

  function Start(processes: nat): State {
    State([], map[], 0, seq(processes, _ => Ready), map[], 0)
  }

  // What the idle script looks at.
  predicate SeemsIdle(s: State) {
    |s.list| + |s.hash| == 0
  }

  /** The record is right: every accepted job is in exactly the place it says. */
  ghost predicate Faithful(s: State) {
    && ListFaithful(s.list, s.place)
    && HashFaithful(s.hash, s.place)
    && SlotsFaithful(s.processes, s.place)
    && (forall id | id in s.place :: id <= s.counter)
    && FreshNumbers(s.processes, s.place, s.counter)
    && |LostIds(s.place)| <= s.crashes
  }

  ghost predicate ListFaithful(list: seq<Job>, place: map<int, Place>) {
    && (forall i | 0 <= i < |list| :: list[i].id in place && place[list[i].id] == InList)
    && (forall i, j | 0 <= i < j < |list| :: list[i].id != list[j].id)
    && (forall id | id in place && place[id] == InList :: id in Ids(list))
  }

  ghost predicate HashFaithful(hash: map<int, Job>, place: map<int, Place>) {
    forall id :: id in hash <==> id in place && place[id] == InHash
  }

  ghost predicate SlotsFaithful(processes: seq<Process>, place: map<int, Place>) {
    && (forall p | 0 <= p < |processes| && processes[p].Popped? ::
          processes[p].job.id in place && place[processes[p].job.id] == InSlot(p))
    && (forall id | id in place && place[id].InSlot? ::
          var p := place[id].p; p < |processes| && processes[p].Popped? && processes[p].job.id == id)
  }

  // A number that is given out but not pushed yet belongs to no job.
  ghost predicate FreshNumbers(processes: seq<Process>, place: map<int, Place>, counter: int) {
    && (forall p | 0 <= p < |processes| && processes[p].Numbered? ::
          processes[p].job.id <= counter && processes[p].job.id !in place)
    && (forall p, q | 0 <= p < q < |processes| && processes[p].Numbered? && processes[q].Numbered? ::
          processes[p].job.id != processes[q].job.id)
  }

  function LostIds(place: map<int, Place>): set<int> {
    set id | id in place && place[id] == Lost
  }

  // The list

  lemma ListPushed(list: seq<Job>, place: map<int, Place>, job: Job)
    requires ListFaithful(list, place) && job.id !in place
    ensures ListFaithful(list + [job], place[job.id := InList])
  {
    var list', place' := list + [job], place[job.id := InList];
    forall id | id in place' && place'[id] == InList ensures id in Ids(list') {
      if id == job.id { assert list'[|list|].id == id; } else {
        assert id in Ids(list);
        var i :| 0 <= i < |list| && list[i].id == id;
        assert list'[i].id == id;
      }
    }
  }

  lemma ListPopped(list: seq<Job>, place: map<int, Place>, to: Place)
    requires ListFaithful(list, place) && list != [] && to != InList
    ensures ListFaithful(list[1..], place[list[0].id := to])
  {
    var list', place' := list[1..], place[list[0].id := to];
    forall id | id in place' && place'[id] == InList ensures id in Ids(list') {
      assert id in Ids(list);
      var i :| 0 <= i < |list| && list[i].id == id;
      assert list'[i - 1].id == id;
    }
  }

  lemma ListUntouched(list: seq<Job>, place: map<int, Place>, id: int, to: Place)
    requires ListFaithful(list, place) && (id in place ==> place[id] != InList) && to != InList
    ensures ListFaithful(list, place[id := to])
  {
  }

  // The hash

  lemma HashUntouched(hash: map<int, Job>, place: map<int, Place>, id: int, to: Place)
    requires HashFaithful(hash, place) && (id in place ==> place[id] != InHash) && to != InHash
    ensures HashFaithful(hash, place[id := to])
  {
  }

  // The processes

  lemma SlotTaken(processes: seq<Process>, place: map<int, Place>, p: nat, job: Job)
    requires SlotsFaithful(processes, place) && p < |processes| && !processes[p].Popped?
    requires job.id in place ==> !place[job.id].InSlot?
    ensures SlotsFaithful(processes[p := Popped(job)], place[job.id := InSlot(p)])
  {
  }

  lemma SlotLeft(processes: seq<Process>, place: map<int, Place>, p: nat, next: Process, to: Place)
    requires SlotsFaithful(processes, place) && p < |processes| && processes[p].Popped?
    requires !next.Popped? && !to.InSlot?
    ensures SlotsFaithful(processes[p := next], place[processes[p].job.id := to])
  {
  }

  lemma SlotsUntouched(processes: seq<Process>, place: map<int, Place>, p: nat, next: Process)
    requires SlotsFaithful(processes, place) && p < |processes| && !processes[p].Popped? && !next.Popped?
    ensures SlotsFaithful(processes[p := next], place)
  {
  }

  lemma SlotsElsewhere(processes: seq<Process>, place: map<int, Place>, id: int, to: Place)
    requires SlotsFaithful(processes, place) && (id in place ==> !place[id].InSlot?) && !to.InSlot?
    ensures SlotsFaithful(processes, place[id := to])
  {
  }

  // Numbers

  lemma NumbersStayFresh(processes: seq<Process>, place: map<int, Place>, counter: int, p: nat, next: Process)
    requires FreshNumbers(processes, place, counter) && p < |processes| && !next.Numbered?
    ensures FreshNumbers(processes[p := next], place, counter)
  {
  }

  lemma NumberGiven(processes: seq<Process>, place: map<int, Place>, counter: int, p: nat, job: Job)
    requires FreshNumbers(processes, place, counter) && p < |processes| && job.id == counter + 1
    requires forall id | id in place :: id <= counter
    ensures FreshNumbers(processes[p := Numbered(job)], place, counter + 1)
  {
  }

  lemma PushKeepsFaithful(s: State, job: Job)
    requires Faithful(s) && job.id !in s.place && job.id <= s.counter
    requires forall p | 0 <= p < |s.processes| && s.processes[p].Numbered? :: s.processes[p].job.id != job.id
    ensures Faithful(Push(s, job))
  {
    ListPushed(s.list, s.place, job);
    HashUntouched(s.hash, s.place, job.id, InList);
    SlotsElsewhere(s.processes, s.place, job.id, InList);
    assert LostIds(Push(s, job).place) == LostIds(s.place);
  }

  lemma LlenKeepsFaithful(maxSize: int, s: State, p: nat, request: Request)
    requires Faithful(s)
    ensures Faithful(Next(maxSize, s, Llen(p, request)))
  {
    if p < |s.processes| && s.processes[p] == Ready {
      SlotsUntouched(s.processes, s.place, p, Counted(request));
      NumbersStayFresh(s.processes, s.place, s.counter, p, Counted(request));
    }
  }

  lemma IncrKeepsFaithful(maxSize: int, s: State, p: nat)
    requires Faithful(s)
    ensures Faithful(Next(maxSize, s, Incr(p)))
  {
    if p < |s.processes| && s.processes[p].Counted? {
      var job := Job(s.counter + 1, s.processes[p].request);
      SlotsUntouched(s.processes, s.place, p, Numbered(job));
      NumberGiven(s.processes, s.place, s.counter, p, job);
    }
  }

  lemma RpushKeepsFaithful(maxSize: int, s: State, p: nat)
    requires Faithful(s)
    ensures Faithful(Next(maxSize, s, Rpush(p)))
  {
    if p < |s.processes| && s.processes[p].Numbered? {
      var job, s1 := s.processes[p].job, s.(processes := s.processes[p := Ready]);
      SlotsUntouched(s.processes, s.place, p, Ready);
      NumbersStayFresh(s.processes, s.place, s.counter, p, Ready);
      NoOtherHas(s, p);
      PushKeepsFaithful(s1, job);
    }
  }

  lemma NoOtherHas(s: State, p: nat)
    requires FreshNumbers(s.processes, s.place, s.counter) && p < |s.processes| && s.processes[p].Numbered?
    ensures var rest := s.processes[p := Ready];
            forall q | 0 <= q < |rest| && rest[q].Numbered? :: rest[q].job.id != s.processes[p].job.id
  {
  }

  lemma CounterGrows(s: State)
    requires Faithful(s)
    ensures Faithful(s.(counter := s.counter + 1))
    ensures s.counter + 1 !in s.place
    ensures forall p | 0 <= p < |s.processes| && s.processes[p].Numbered? :: s.processes[p].job.id != s.counter + 1
  {
    assert FreshNumbers(s.processes, s.place, s.counter + 1);
  }

  lemma NewJobKeepsFaithful(s: State, request: Request)
    requires Faithful(s)
    ensures Faithful(Push(s.(counter := s.counter + 1), Job(s.counter + 1, request)))
  {
    CounterGrows(s);
    PushKeepsFaithful(s.(counter := s.counter + 1), Job(s.counter + 1, request));
  }

  lemma IdleScriptPushes(maxSize: int, s: State, p: nat, request: Request)
    ensures Next(maxSize, s, IdleScript(p, request))
         == if p < |s.processes| && s.processes[p] == Ready && SeemsIdle(s)
            then Push(s.(counter := s.counter + 1), Job(s.counter + 1, request)) else s
  {
  }

  lemma IdleScriptKeepsFaithful(maxSize: int, s: State, p: nat, request: Request)
    requires Faithful(s)
    ensures Faithful(Next(maxSize, s, IdleScript(p, request)))
  {
    IdleScriptPushes(maxSize, s, p, request);
    NewJobKeepsFaithful(s, request);
  }

  lemma LpopKeepsFaithful(maxSize: int, s: State, p: nat)
    requires Faithful(s)
    ensures Faithful(Next(maxSize, s, Lpop(p)))
  {
    if p < |s.processes| && s.processes[p] == Ready && s.list != [] {
      var job := s.list[0];
      ListPopped(s.list, s.place, InSlot(p));
      HashUntouched(s.hash, s.place, job.id, InSlot(p));
      SlotTaken(s.processes, s.place, p, job);
      NumbersStayFresh(s.processes, s.place, s.counter, p, Popped(job));
      assert LostIds(s.place[job.id := InSlot(p)]) == LostIds(s.place);
    }
  }

  lemma HsetKeepsFaithful(maxSize: int, s: State, p: nat)
    requires Faithful(s)
    ensures Faithful(Next(maxSize, s, Hset(p)))
  {
    if p < |s.processes| && s.processes[p].Popped? {
      var job := s.processes[p].job;
      ListUntouched(s.list, s.place, job.id, InHash);
      SlotLeft(s.processes, s.place, p, Ready, InHash);
      NumbersStayFresh(s.processes, s.place, s.counter, p, Ready);
      assert LostIds(s.place[job.id := InHash]) == LostIds(s.place);
    }
  }

  lemma HdelKeepsFaithful(maxSize: int, s: State, p: nat, id: int)
    requires Faithful(s)
    ensures Faithful(Next(maxSize, s, Hdel(p, id)))
  {
    if p < |s.processes| && s.processes[p] == Ready && id in s.hash {
      ListUntouched(s.list, s.place, id, Completed);
      SlotsElsewhere(s.processes, s.place, id, Completed);
      assert LostIds(s.place[id := Completed]) == LostIds(s.place);
    }
  }

  lemma DelKeepsFaithful(maxSize: int, s: State, p: nat)
    requires Faithful(s)
    ensures Faithful(Next(maxSize, s, Del(p)))
  {
    var s' := Next(maxSize, s, Del(p));
    assert LostIds(s'.place) == LostIds(s.place);
  }

  lemma CrashKeepsFaithful(maxSize: int, s: State, p: nat)
    requires Faithful(s)
    ensures Faithful(Next(maxSize, s, Crash(p)))
  {
    if p < |s.processes| {
      NumbersStayFresh(s.processes, s.place, s.counter, p, Ready);
      if s.processes[p].Popped? {
        var id := s.processes[p].job.id;
        ListUntouched(s.list, s.place, id, Lost);
        HashUntouched(s.hash, s.place, id, Lost);
        SlotLeft(s.processes, s.place, p, Ready, Lost);
        assert LostIds(s.place[id := Lost]) == LostIds(s.place) + {id};
      } else {
        SlotsUntouched(s.processes, s.place, p, Ready);
      }
    }
  }

  lemma NextKeepsFaithful(maxSize: int, s: State, c: Command)
    requires Faithful(s)
    ensures Faithful(Next(maxSize, s, c))
  {
    match c
    case Llen(p, request) => LlenKeepsFaithful(maxSize, s, p, request);
    case Incr(p) => IncrKeepsFaithful(maxSize, s, p);
    case Rpush(p) => RpushKeepsFaithful(maxSize, s, p);
    case IdleScript(p, request) => IdleScriptKeepsFaithful(maxSize, s, p, request);
    case Lpop(p) => LpopKeepsFaithful(maxSize, s, p);
    case Hset(p) => HsetKeepsFaithful(maxSize, s, p);
    case Hdel(p, id) => HdelKeepsFaithful(maxSize, s, p, id);
    case Del(p) => DelKeepsFaithful(maxSize, s, p);
    case Crash(p) => CrashKeepsFaithful(maxSize, s, p);
  }

  lemma {:induction false} RunKeepsFaithful(maxSize: int, s: State, commands: seq<Command>)
    requires Faithful(s)
    ensures Faithful(Run(maxSize, s, commands))
    decreases |commands|
  {
    if commands != [] {
      NextKeepsFaithful(maxSize, s, commands[0]);
      RunKeepsFaithful(maxSize, Next(maxSize, s, commands[0]), commands[1..]);
    }
  }

  lemma {:induction false} RunAppend(maxSize: int, s: State, first: seq<Command>, rest: seq<Command>)
    ensures Run(maxSize, s, first + rest) == Run(maxSize, Run(maxSize, s, first), rest)
    decreases |first|
  {
    if first == [] {
      assert first + rest == rest;
    } else {
      assert (first + rest)[1..] == first[1..] + rest;
      RunAppend(maxSize, Next(maxSize, s, first[0]), first[1..], rest);
    }
  }

  lemma RunOne(maxSize: int, s: State, c: Command)
    ensures Run(maxSize, s, [c]) == Next(maxSize, s, c)
  {
    assert [c][1..] == [];
    assert Run(maxSize, Next(maxSize, s, c), []) == Next(maxSize, s, c);
  }

  lemma RunTwo(maxSize: int, s: State, c: Command, d: Command)
    ensures Run(maxSize, s, [c, d]) == Next(maxSize, Next(maxSize, s, c), d)
  {
    RunOne(maxSize, Next(maxSize, s, c), d);
    assert [c, d][1..] == [d];
  }

  // ---------------------------------------------------------------------
  // Uninterrupted operations
  // ---------------------------------------------------------------------

  function Server(s: State): R.Store {
    R.Store(s.list, s.hash, s.counter)
  }

  // The commands of one queue operation; `size` and `position` only read.
  function CommandsOf(p: nat, op: Op): seq<Command> {
    match op
    case Enqueue(request) => [Llen(p, request), Incr(p)] + [Rpush(p)]
    case EnqueueIfIdle(request) => [IdleScript(p, request)]
    case Dequeue => [Lpop(p), Hset(p)]
    case Complete(id) => [Hdel(p, id)]
    case Purge => [Del(p)]
    case Size => []
    case Position(_) => []
  }

  predicate AllReady(processes: seq<Process>) {
    forall p | 0 <= p < |processes| :: processes[p] == Ready
  }

  lemma EnqueueIsAtomic(maxSize: int, s: State, p: nat, request: Request)
    requires p < |s.processes| && AllReady(s.processes)
    ensures var s' := Run(maxSize, s, CommandsOf(p, Enqueue(request)));
            Server(s') == R.Step(maxSize, Server(s), Enqueue(request)).0 && s'.processes == s.processes
  {
    var s2 := Run(maxSize, s, [Llen(p, request), Incr(p)]);
    RunTwo(maxSize, s, Llen(p, request), Incr(p));
    RunOne(maxSize, s2, Rpush(p));
    RunAppend(maxSize, s, [Llen(p, request), Incr(p)], [Rpush(p)]);
  }

  lemma DequeueIsAtomic(maxSize: int, s: State, p: nat)
    requires p < |s.processes| && AllReady(s.processes)
    ensures var s' := Run(maxSize, s, CommandsOf(p, Dequeue));
            Server(s') == R.Step(maxSize, Server(s), Dequeue).0 && s'.processes == s.processes
  {
    RunTwo(maxSize, s, Lpop(p), Hset(p));
  }

  /** Uninterrupted, the commands of an operation do what the operation does for a single
      process. */
  lemma OperationIsAtomic(maxSize: int, s: State, p: nat, op: Op)
    requires p < |s.processes| && AllReady(s.processes)
    ensures var s' := Run(maxSize, s, CommandsOf(p, op));
            Server(s') == R.Step(maxSize, Server(s), op).0 && s'.processes == s.processes
  {
    match op
    case Enqueue(request) => EnqueueIsAtomic(maxSize, s, p, request);
    case EnqueueIfIdle(request) => RunOne(maxSize, s, IdleScript(p, request));
    case Dequeue => DequeueIsAtomic(maxSize, s, p);
    case Complete(id) => RunOne(maxSize, s, Hdel(p, id));
    case Purge => RunOne(maxSize, s, Del(p));
    case Size =>
    case Position(_) =>
  }

  function AllCommands(calls: seq<(nat, Op)>): seq<Command> {
    if calls == [] then [] else CommandsOf(calls[0].0, calls[0].1) + AllCommands(calls[1..])
  }

  function Operations(calls: seq<(nat, Op)>): seq<Op> {
    if calls == [] then [] else [calls[0].1] + Operations(calls[1..])
  }

  /** Whole runs: when no two processes overlap, any number of them leave the server as one
      process issuing all operations would. */
  lemma {:induction false} WithoutOverlapOneQueue(maxSize: int, s: State, calls: seq<(nat, Op)>)
    requires AllReady(s.processes) && forall i | 0 <= i < |calls| :: calls[i].0 < |s.processes|
    ensures Server(Run(maxSize, s, AllCommands(calls))) == R.Run(maxSize, Server(s), Operations(calls)).0
    decreases |calls|
  {
    if calls != [] {
      var (p, op) := calls[0];
      RunAppend(maxSize, s, CommandsOf(p, op), AllCommands(calls[1..]));
      OperationIsAtomic(maxSize, s, p, op);
      assert Operations(calls)[1..] == Operations(calls[1..]);
      WithoutOverlapOneQueue(maxSize, Run(maxSize, s, CommandsOf(p, op)), calls[1..]);
    }
  }

  // ---------------------------------------------------------------------
  // Where the jobs are
  // ---------------------------------------------------------------------

  // Accepted and neither completed, purged nor lost.
  predicate Outstanding(s: State, id: int) {
    id in s.place && (s.place[id].InList? || s.place[id].InHash? || s.place[id].InSlot?)
  }

  predicate Slotted(s: State, p: nat, id: int) {
    p < |s.processes| && s.processes[p].Popped? && s.processes[p].job.id == id
  }

  /** For any number of processes: an outstanding job is in the list once, or in the hash,
      or in the hands of one process between its two dequeue commands, and in no two of
      these; and at most one job is lost per crash. */
  lemma EveryJobInOnePlace(maxSize: int, n: nat, commands: seq<Command>, id: int)
    ensures var s := Run(maxSize, Start(n), commands);
            && (Outstanding(s, id) <==> id in Ids(s.list) || id in s.hash || exists p :: Slotted(s, p, id))
            && !(id in Ids(s.list) && id in s.hash)
            && (forall p | Slotted(s, p, id) :: id !in Ids(s.list) && id !in s.hash && forall q | Slotted(s, q, id) :: p == q)
            && (forall i, j | 0 <= i < j < |s.list| :: s.list[i].id != s.list[j].id)
            && |LostIds(s.place)| <= s.crashes
  {
    assert LostIds(Start(n).place) == {};
    RunKeepsFaithful(maxSize, Start(n), commands);
    var s := Run(maxSize, Start(n), commands);
    if Outstanding(s, id) && s.place[id].InSlot? { assert Slotted(s, s.place[id].p, id); }
  }

  /** A process that dies between the two commands of a dequeue takes its job with it: the
      job is nowhere any more, and nothing else changes. */
  lemma CrashLosesJob(maxSize: int, s: State, p: nat)
    requires Faithful(s) && p < |s.processes| && s.processes[p].Popped?
    ensures var s', id := Next(maxSize, s, Crash(p)), s.processes[p].job.id;
            && s'.list == s.list && s'.hash == s.hash
            && Outstanding(s, id) && !Outstanding(s', id)
            && id !in Ids(s'.list) && id !in s'.hash && forall q :: !Slotted(s', q, id)
  {
    CrashKeepsFaithful(maxSize, s, p);
  }

  /** What "idle" means to the script, exactly: every outstanding job is between the two
      commands of some dequeue. */
  lemma IdleScriptSees(maxSize: int, n: nat, commands: seq<Command>)
    ensures var s := Run(maxSize, Start(n), commands);
            SeemsIdle(s) <==> forall id | Outstanding(s, id) :: exists p :: Slotted(s, p, id)
  {
    assert LostIds(Start(n).place) == {};
    RunKeepsFaithful(maxSize, Start(n), commands);
    var s := Run(maxSize, Start(n), commands);
    if SeemsIdle(s) {
      assert forall id :: id !in s.hash;
      forall id | Outstanding(s, id) ensures exists p :: Slotted(s, p, id) {
        assert Slotted(s, s.place[id].p, id);
      }
    } else if s.list != [] {
      assert Outstanding(s, s.list[0].id);
      assert forall p :: !Slotted(s, p, s.list[0].id);
    } else {
      var id := Least(s.hash.Keys);
      assert Outstanding(s, id);
      assert forall p :: !Slotted(s, p, id);
    }
  }

  /** A single process issues the script between its operations, so to it "idle" is the
      truth: nothing is outstanding. */
  lemma IdleIsExactForOneProcess(maxSize: int, commands: seq<Command>)
    requires Run(maxSize, Start(1), commands).processes == [Ready]
    ensures var s := Run(maxSize, Start(1), commands);
            SeemsIdle(s) <==> forall id :: !Outstanding(s, id)
  {
    IdleScriptSees(maxSize, 1, commands);
    var s := Run(maxSize, Start(1), commands);
    assert forall p, id :: !Slotted(s, p, id);
  }

  function FirstNumbered(request: Request): State {
    State([], map[], 1, [Numbered(Job(1, request)), Ready], map[], 0)
  }

  function FirstPopped(request: Request): State {
    State([], map[], 1, [Popped(Job(1, request)), Ready], map[1 := InSlot(0)], 0)
  }

  lemma NumberedFirst(request: Request)
    ensures Run(0, Start(2), [Llen(0, request), Incr(0)]) == FirstNumbered(request)
  {
    assert Next(0, Start(2), Llen(0, request)).processes == [Counted(request), Ready];
    RunTwo(0, Start(2), Llen(0, request), Incr(0));
  }

  lemma PoppedThen(request: Request)
    ensures Run(0, FirstNumbered(request), [Rpush(0), Lpop(0)]) == FirstPopped(request)
  {
    var s := Next(0, FirstNumbered(request), Rpush(0));
    assert s.list == [Job(1, request)] && s.processes == [Ready, Ready];
    RunTwo(0, FirstNumbered(request), Rpush(0), Lpop(0));
  }

  /** With two processes it is not: the second enqueues a clustering as if nothing were
      going on while the first holds a job. */
  lemma IdleIsWrongForTwo(request: Request)
    ensures var s := Run(0, Start(2), [Llen(0, request), Incr(0), Rpush(0), Lpop(0)]);
            && SeemsIdle(s) && Outstanding(s, 1)
            && Next(0, s, IdleScript(1, CLUSTERING)).list == [Job(2, CLUSTERING)]
  {
    var s2, s4 := FirstNumbered(request), FirstPopped(request);
    NumberedFirst(request);
    PoppedThen(request);
    RunAppend(0, Start(2), [Llen(0, request), Incr(0)], [Rpush(0), Lpop(0)]);
    assert [Llen(0, request), Incr(0), Rpush(0), Lpop(0)] == [Llen(0, request), Incr(0)] + [Rpush(0), Lpop(0)];
  }

  // ---------------------------------------------------------------------
  // Capacity
  // ---------------------------------------------------------------------

  // The processes that will push although the limit may be reached meanwhile.
  function AboutToPush(processes: seq<Process>): set<nat> {
    set p: nat | p < |processes| && WillPush(processes[p])
  }

  predicate WillPush(process: Process) {
    process.Counted? || process.Numbered?
  }

  lemma OneProcessMoves(processes: seq<Process>, p: nat, next: Process)
    requires p < |processes|
    ensures var before, after := AboutToPush(processes), AboutToPush(processes[p := next]);
            && |after| <= |processes|
            && (WillPush(processes[p]) == WillPush(next) ==> after == before)
            && (WillPush(processes[p]) && !WillPush(next) ==> |after| == |before| - 1)
            && (!WillPush(processes[p]) ==> |before| <= |processes| - 1)
  {
    var before, after := AboutToPush(processes), AboutToPush(processes[p := next]);
    AtMost(|processes|, after);
    AtMost(|processes|, before + {p});
    if WillPush(processes[p]) && !WillPush(next) {
      assert p in before && after == before - {p};
    }
  }

  lemma NextKeepsLimit(maxSize: int, s: State, c: Command)
    requires maxSize > 0
    requires |s.list| + |AboutToPush(s.processes)| <= maxSize + |s.processes| - 1
    ensures var s' := Next(maxSize, s, c);
            |s'.list| + |AboutToPush(s'.processes)| <= maxSize + |s'.processes| - 1
  {
    if c.p < |s.processes| {
      var s' := Next(maxSize, s, c);
      OneProcessMoves(s.processes, c.p, s'.processes[c.p]);
      assert s'.processes == s.processes[c.p := s'.processes[c.p]];
    }
  }

  /** The list outgrows the limit by less than the number of processes. */
  lemma {:induction false} ListStaysBelowLimit(maxSize: int, s: State, commands: seq<Command>)
    requires maxSize > 0
    requires |s.list| + |AboutToPush(s.processes)| <= maxSize + |s.processes| - 1
    ensures |Run(maxSize, s, commands).list| <= maxSize + |s.processes| - 1
    decreases |commands|
  {
    if commands != [] {
      NextKeepsLimit(maxSize, s, commands[0]);
      ListStaysBelowLimit(maxSize, Next(maxSize, s, commands[0]), commands[1..]);
    }
  }

  /** ... and a single process keeps it. */
  lemma OneProcessKeepsLimit(maxSize: int, commands: seq<Command>)
    requires maxSize > 0
    ensures |Run(maxSize, Start(1), commands).list| <= maxSize
  {
    assert AboutToPush(Start(1).processes) == {};
    ListStaysBelowLimit(maxSize, Start(1), commands);
  }

  // ---------------------------------------------------------------------
  // The bound is reached
  // ---------------------------------------------------------------------

  // One process enqueues up to one short of the limit.
  function FillUp(n: nat, request: Request): seq<Command> {
    if n == 0 then [] else [Llen(0, request), Incr(0), Rpush(0)] + FillUp(n - 1, request)
  }

  // Processes 0 .. n-1 all look at the length before ...
  function AllCount(n: nat, request: Request): seq<Command> {
    if n == 0 then [] else AllCount(n - 1, request) + [Llen(n - 1, request)]
  }

  // ... any of them pushes.
  function AllPush(n: nat): seq<Command> {
    if n == 0 then [] else [Incr(n - 1), Rpush(n - 1)] + AllPush(n - 1)
  }

  lemma CountedPushes(maxSize: int, s: State, p: nat)
    requires p < |s.processes| && s.processes[p].Counted?
    ensures var s' := Run(maxSize, s, [Incr(p), Rpush(p)]);
            |s'.list| == |s.list| + 1 && s'.processes == s.processes[p := Ready]
  {
    RunTwo(maxSize, s, Incr(p), Rpush(p));
  }

  lemma {:induction false} FillUpFills(maxSize: int, s: State, n: nat, request: Request)
    requires s.processes != [] && s.processes[0] == Ready && |s.list| + n < maxSize
    ensures var s' := Run(maxSize, s, FillUp(n, request));
            |s'.list| == |s.list| + n && s'.processes == s.processes
    decreases n
  {
    if n > 0 {
      var s1 := Next(maxSize, s, Llen(0, request));
      var s2 := Run(maxSize, s1, [Incr(0), Rpush(0)]);
      CountedPushes(maxSize, s1, 0);
      RunOne(maxSize, s, Llen(0, request));
      RunAppend(maxSize, s1, [Incr(0), Rpush(0)], FillUp(n - 1, request));
      RunAppend(maxSize, s, [Llen(0, request)], [Incr(0), Rpush(0)] + FillUp(n - 1, request));
      assert FillUp(n, request) == [Llen(0, request)] + ([Incr(0), Rpush(0)] + FillUp(n - 1, request));
      FillUpFills(maxSize, s2, n - 1, request);
    }
  }

  lemma {:induction false} AllCountPass(maxSize: int, s: State, n: nat, request: Request)
    requires n <= |s.processes| && |s.list| < maxSize && forall p | 0 <= p < |s.processes| :: s.processes[p] == Ready
    ensures var s' := Run(maxSize, s, AllCount(n, request));
            && s'.list == s.list && |s'.processes| == |s.processes|
            && forall p | 0 <= p < |s.processes| :: s'.processes[p] == if p < n then Counted(request) else Ready
    decreases n
  {
    if n > 0 {
      AllCountPass(maxSize, s, n - 1, request);
      RunAppend(maxSize, s, AllCount(n - 1, request), [Llen(n - 1, request)]);
      RunOne(maxSize, Run(maxSize, s, AllCount(n - 1, request)), Llen(n - 1, request));
    }
  }

  lemma {:induction false} AllPushGrow(maxSize: int, s: State, n: nat)
    requires n <= |s.processes| && forall p | 0 <= p < n :: s.processes[p].Counted?
    ensures |Run(maxSize, s, AllPush(n)).list| == |s.list| + n
    decreases n
  {
    if n > 0 {
      CountedPushes(maxSize, s, n - 1);
      RunAppend(maxSize, s, [Incr(n - 1), Rpush(n - 1)], AllPush(n - 1));
      AllPushGrow(maxSize, Run(maxSize, s, [Incr(n - 1), Rpush(n - 1)]), n - 1);
    }
  }

  /** The bound on the list is exact: for every limit and every number of processes this
      interleaving reaches it. */
  lemma RacesReachTheBound(maxSize: nat, processes: nat, request: Request)
    requires maxSize > 0 && processes > 0
    ensures var commands := FillUp(maxSize - 1, request) + (AllCount(processes, request) + AllPush(processes));
            |Run(maxSize, Start(processes), commands).list| == maxSize + processes - 1
  {
    var s := Start(processes);
    FillUpFills(maxSize, s, maxSize - 1, request);
    RunAppend(maxSize, s, FillUp(maxSize - 1, request), AllCount(processes, request) + AllPush(processes));
    var s1 := Run(maxSize, s, FillUp(maxSize - 1, request));
    AllCountPass(maxSize, s1, processes, request);
    RunAppend(maxSize, s1, AllCount(processes, request), AllPush(processes));
    AllPushGrow(maxSize, Run(maxSize, s1, AllCount(processes, request)), processes);
  }
}
