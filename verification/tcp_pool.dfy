/**
 * The coroutine pool of the TCP server as a machine of small steps. Coroutines run one at a time: whoever was
 * entered last moves until it suspends, and the event loop wakes a suspended one when nobody runs.
 */
module TcpPool {
  datatype Who = Worker(i: nat) | Acceptor(a: nat)

  /** Where a worker stands: not created, at the head of its loop, at the yield, in co_poll, in handle. */
  datatype WorkerPc = Unborn | Test | Yielded | Polling(fd: int) | Handling(fd: int)

  /** A worker's task: its descriptor field, and the connection that was last handed to it. */
  datatype Task = Task(pc: WorkerPc, fd: int, conn: nat)

  /** Where an acceptor stands; behind a successful accept it holds a descriptor. */
  datatype AcceptorPc =
    | Absent
    | Head
    | Waiting
    | Accepting
    | Retrying
    | Check(fd: int, conn: nat)
    | Taking(fd: int, conn: nat)

  /** The kernel's entry of an open descriptor: its connection, and who was given it. */
  datatype Entry = Entry(conn: nat, owner: Who)

  /** An accepted connection: the descriptor it got, and how often it was closed. */
  datatype Connection = Connection(fd: int, closes: nat)

  /** The call stack: the event loop alone, a coroutine on it, or a worker on top of the acceptor that resumed it. */
  datatype Calls = Loop | One(who: Who) | Nested(caller: nat, callee: nat)

  /** broken: the source would pop an empty stack, resume what is not suspended, or hand over a closed descriptor. */
  datatype State = State(tasks: seq<Task>, acceptors: seq<AcceptorPc>, idle: seq<nat>, open: map<int, Entry>,
                         conns: seq<Connection>, calls: Calls, spawned: nat, listening: nat, broken: bool)

  /** What the outside decides: suspending inside a call, or the call's result. */
  datatype Input = Nothing | Suspend | Returns(r: int)

  datatype Choice = Spawn | Wake(who: Who) | Go(input: Input)

  function Init(ant: nat, listeners: nat): State {
    State(seq(ant, _ => Task(Unborn, -1, 0)), seq(listeners, _ => Absent), [], map[], [], Loop, 0, 0, false)
  }

  function Last<T>(s: seq<T>): T
    requires s != []
  {
    s[|s| - 1]
  }

  function Front<T>(s: seq<T>): seq<T>
    requires s != []
  {
    s[..|s| - 1]
  }

  predicate IsRunning(s: State, w: Who) {
    match s.calls
    case Loop => false
    case One(v) => v == w
    case Nested(_, i) => Worker(i) == w
  }

  /** On the call stack. */
  predicate IsEntered(s: State, w: Who) {
    IsRunning(s, w) || (s.calls.Nested? && Acceptor(s.calls.caller) == w)
  }

  /** Whoever runs. */
  function Running(s: State): Who
    requires !s.calls.Loop?
  {
    match s.calls
    case One(w) => w
    case Nested(_, i) => Worker(i)
  }

  predicate IsThere(s: State, w: Who) {
    match w
    case Worker(i) => i < |s.tasks|
    case Acceptor(a) => a < |s.acceptors|
  }

  // The steps.

  predicate Started(s: State) {
    s.spawned >= |s.tasks| && s.listening >= |s.acceptors|
  }

  /** The event loop wakes whoever waits for a descriptor or a timeout, not a worker at its yield. */
  predicate CanWake(s: State, w: Who) {
    && IsThere(s, w)
    && match w
       case Worker(i) => s.tasks[i].pc.Polling? || s.tasks[i].pc.Handling?
       case Acceptor(a) => s.acceptors[a].Waiting? || s.acceptors[a].Accepting? || s.acceptors[a].Retrying?
  }

  predicate TakesInput(s: State, w: Who, input: Input) {
    && IsThere(s, w)
    && match w
       case Worker(i) => if s.tasks[i].pc.Handling? then input != Nothing else input == Nothing && s.tasks[i].pc.Test?
       case Acceptor(a) =>
         if s.acceptors[a].Accepting? then input.Suspend? || (input.Returns? && (input.r >= 0 ==> input.r !in s.open))
         else input == Nothing && (s.acceptors[a].Head? || s.acceptors[a].Check? || s.acceptors[a].Taking?)
  }

  predicate Enabled(s: State, c: Choice) {
    match c
    case Spawn => s.calls.Loop? && !Started(s)
    case Wake(w) => s.calls.Loop? && Started(s) && CanWake(s, w)
    case Go(input) => !s.calls.Loop? && TakesInput(s, Running(s), input)
  }

  /** No coroutine comes or goes. */
  predicate SameSizes(s: State, r: State) {
    |r.tasks| == |s.tasks| && |r.acceptors| == |s.acceptors|
  }

  function SetPc(s: State, i: nat, pc: WorkerPc): (r: State)
    requires i < |s.tasks|
    ensures SameSizes(s, r)
  {
    s.(tasks := s.tasks[i := s.tasks[i].(pc := pc)])
  }

  function SetAcceptor(s: State, a: nat, pc: AcceptorPc): (r: State)
    requires a < |s.acceptors|
    ensures SameSizes(s, r)
  {
    s.(acceptors := s.acceptors[a := pc])
  }

  function Leave(s: State): (r: State)
    requires !s.calls.Loop?
    ensures SameSizes(s, r)
  {
    s.(calls := if s.calls.Nested? then One(Acceptor(s.calls.caller)) else Loop)
  }

  /** close: the connection behind the descriptor is closed once more, and the number is free again. */
  function Close(s: State, fd: int): (r: State)
    ensures SameSizes(s, r)
  {
    if fd in s.open && s.open[fd].conn < |s.conns| then
      var c := s.open[fd].conn;
      s.(open := s.open - {fd}, conns := s.conns[c := s.conns[c].(closes := s.conns[c].closes + 1)])
    else s.(open := s.open - {fd})
  }

  /** startReadWrite and startAccept: the next coroutine is created and entered. */
  function SpawnNext(s: State): (r: State)
    requires Enabled(s, Spawn)
    ensures SameSizes(s, r)
  {
    if s.spawned < |s.tasks| then
      SetPc(s, s.spawned, Test).(calls := One(Worker(s.spawned)), spawned := s.spawned + 1)
    else SetAcceptor(s, s.listening, Head).(calls := One(Acceptor(s.listening)), listening := s.listening + 1)
  }

  function WakeUp(s: State, w: Who): (r: State)
    requires Enabled(s, Wake(w))
    ensures SameSizes(s, r)
  {
    match w
    case Worker(i) => SetPc(s, i, Handling(s.tasks[i].pc.fd)).(calls := One(w))
    case Acceptor(a) => SetAcceptor(s, a, if s.acceptors[a].Accepting? then Accepting else Head).(calls := One(w))
  }

  /** The head of a worker's loop: push and yield, or take the descriptor and poll. */
  function AtTest(s: State, i: nat): (r: State)
    requires i < |s.tasks| && !s.calls.Loop?
    ensures SameSizes(s, r)
  {
    var t := s.tasks[i];
    if t.fd == -1 then Leave(SetPc(s, i, Yielded)).(idle := s.idle + [i])
    else Leave(s).(tasks := s.tasks[i := t.(pc := Polling(t.fd), fd := -1)])
  }

  /** handle returned: poll again, or close the descriptor and go back to the head. */
  function AtHandle(s: State, i: nat, fd: int, input: Input): (r: State)
    requires i < |s.tasks| && !s.calls.Loop?
    ensures SameSizes(s, r)
  {
    match input
    case Returns(r) => if r == -1 then SetPc(Close(s, fd), i, Test) else Leave(SetPc(s, i, Polling(fd)))
    case _ => Leave(s)
  }

  function AtHead(s: State, a: nat): (r: State)
    requires a < |s.acceptors| && !s.calls.Loop?
    ensures SameSizes(s, r)
  {
    if s.idle == [] then Leave(SetAcceptor(s, a, Waiting)) else SetAcceptor(s, a, Accepting)
  }

  function AtAccept(s: State, a: nat, input: Input): (r: State)
    requires a < |s.acceptors| && !s.calls.Loop?
    ensures SameSizes(s, r)
  {
    match input
    case Returns(fd) =>
      if fd < 0 then Leave(SetAcceptor(s, a, Retrying))
      else SetAcceptor(s, a, Check(fd, |s.conns|)).(open := s.open[fd := Entry(|s.conns|, Acceptor(a))],
                                                    conns := s.conns + [Connection(fd, 0)])
    case _ => Leave(s)
  }

  /** The second test: another acceptor may have taken the last worker while this one was in co_accept. */
  function AtCheck(s: State, a: nat, fd: int, conn: nat): (r: State)
    requires a < |s.acceptors|
    ensures SameSizes(s, r)
  {
    if s.idle == [] then SetAcceptor(Close(s, fd), a, Head) else SetAcceptor(s, a, Taking(fd, conn))
  }

  /** erase, hand the descriptor over, and resume the worker, which goes on behind its yield. */
  function AtTake(s: State, a: nat, fd: int, conn: nat): (r: State)
    requires a < |s.acceptors|
    ensures SameSizes(s, r)
  {
    if s.idle == [] || Last(s.idle) >= |s.tasks| || s.tasks[Last(s.idle)].pc != Yielded || fd !in s.open then
      s.(broken := true)
    else
      var i := Last(s.idle);
      SetAcceptor(s, a, Head).(idle := Front(s.idle), tasks := s.tasks[i := Task(Test, fd, conn)],
                               open := s.open[fd := s.open[fd].(owner := Worker(i))], calls := Nested(a, i))
  }

  function Next(s: State, c: Choice): (r: State)
    requires Enabled(s, c)
    ensures SameSizes(s, r)
  {
    match c
    case Spawn => SpawnNext(s)
    case Wake(w) => WakeUp(s, w)
    case Go(input) =>
      match Running(s)
      case Worker(i) =>
        var pc := s.tasks[i].pc;
        if pc.Handling? then AtHandle(s, i, pc.fd, input) else AtTest(s, i)
      case Acceptor(a) =>
        match s.acceptors[a]
        case Accepting => AtAccept(s, a, input)
        case Check(fd, conn) => AtCheck(s, a, fd, conn)
        case Taking(fd, conn) => AtTake(s, a, fd, conn)
        case _ => AtHead(s, a)
  }

  predicate CanRun(s: State, choices: seq<Choice>)
    decreases |choices|
  {
    choices == [] || (Enabled(s, choices[0]) && CanRun(Next(s, choices[0]), choices[1..]))
  }

  function After(s: State, choices: seq<Choice>): State
    requires CanRun(s, choices)
    decreases |choices|
  {
    if choices == [] then s else After(Next(s, choices[0]), choices[1..])
  }

  // The invariant.

  /** The descriptor somebody holds, -1 for none. */
  function FdOf(s: State, w: Who): int
    requires IsThere(s, w)
  {
    match w
    case Worker(i) =>
      (match s.tasks[i].pc
       case Test => s.tasks[i].fd
       case Polling(fd) => fd
       case Handling(fd) => fd
       case _ => -1)
    case Acceptor(a) =>
      match s.acceptors[a]
      case Check(fd, _) => fd
      case Taking(fd, _) => fd
      case _ => -1
  }

  function ConnOf(s: State, w: Who): nat
    requires IsThere(s, w)
  {
    match w
    case Worker(i) => s.tasks[i].conn
    case Acceptor(a) =>
      match s.acceptors[a]
      case Check(_, conn) => conn
      case Taking(_, conn) => conn
      case _ => 0
  }

  /** Only the running worker stands at the head of its loop, and only there its descriptor field may be set. */
  predicate TaskOk(s: State, i: nat)
    requires i < |s.tasks|
  {
    var t := s.tasks[i];
    && (t.pc.Unborn? <==> i >= s.spawned)
    && (t.pc.Test? ==> IsRunning(s, Worker(i)))
    && (IsEntered(s, Worker(i)) ==> IsRunning(s, Worker(i)) && (t.pc.Test? || t.pc.Handling?))
    && t.fd >= -1 && (t.fd != -1 ==> t.pc.Test?)
    && (t.pc.Polling? || t.pc.Handling? ==> t.pc.fd >= 0)
    && (t.pc.Yielded? <==> i in s.idle)
  }

  /** Between the second test and erase an acceptor is the running one, so the stack keeps what the test saw. */
  predicate AcceptorOk(s: State, a: nat)
    requires a < |s.acceptors|
  {
    var pc := s.acceptors[a];
    && (pc.Absent? <==> a >= s.listening)
    && (pc.Head? ==> IsEntered(s, Acceptor(a)))
    && (pc.Check? || pc.Taking? ==> IsRunning(s, Acceptor(a)) && pc.fd >= 0)
    && (pc.Taking? ==> s.idle != [])
    && (IsEntered(s, Acceptor(a)) ==> !pc.Absent? && !pc.Waiting? && !pc.Retrying?)
    && (IsEntered(s, Acceptor(a)) && !IsRunning(s, Acceptor(a)) ==> pc.Head?)
  }

  predicate CallsOk(s: State) {
    match s.calls
    case Loop => true
    case One(w) => IsThere(s, w)
    case Nested(a, i) => a < |s.acceptors| && i < |s.tasks|
  }

  /** The stack holds workers, no one twice. */
  predicate IdleOk(s: State) {
    && (forall k :: 0 <= k < |s.idle| ==> s.idle[k] < |s.tasks|)
    && (forall k, l :: 0 <= k < l < |s.idle| ==> s.idle[k] != s.idle[l])
  }

  /** A descriptor is held exactly by the owner of its entry, for the connection it was opened for. */
  predicate HeldOk(s: State, w: Who)
    requires IsThere(s, w)
  {
    var fd := FdOf(s, w);
    fd == -1 || (fd in s.open && s.open[fd] == Entry(ConnOf(s, w), w))
  }

  predicate EntryOk(s: State, fd: int)
    requires fd in s.open
  {
    && fd >= 0 && IsThere(s, s.open[fd].owner) && FdOf(s, s.open[fd].owner) == fd
    && s.open[fd].conn < |s.conns| && s.conns[s.open[fd].conn].fd == fd
  }

  /** A connection is open under its descriptor and never closed, or gone and closed once. */
  predicate ConnOk(s: State, c: nat)
    requires c < |s.conns|
  {
    var fd := s.conns[c].fd;
    s.conns[c].closes == if fd in s.open && s.open[fd].conn == c then 0 else 1
  }

  /** One for a worker on its way to the yield; minus one for a connection on its way to a worker. */
  function OnTheWay(s: State): int {
    if s.calls.Loop? || !IsThere(s, Running(s)) then 0 else
      match Running(s)
      case Worker(i) => if s.tasks[i].pc.Test? && s.tasks[i].fd == -1 then 1 else 0
      case Acceptor(a) => if s.acceptors[a].Check? || s.acceptors[a].Taking? then -1 else 0
  }

  predicate CountOk(s: State) {
    && s.spawned <= |s.tasks| && s.listening <= |s.acceptors|
    && |s.idle| + |s.open| + OnTheWay(s) == s.spawned
  }

  predicate WholeOk(s: State) {
    !s.broken && CallsOk(s) && IdleOk(s) && CountOk(s)
  }

  ghost predicate Inv(s: State) {
    && WholeOk(s)
    && (forall w :: IsThere(s, w) ==> HeldOk(s, w))
    && (forall fd :: fd in s.open ==> EntryOk(s, fd))
    && (forall c :: 0 <= c < |s.conns| ==> ConnOk(s, c))
    && (forall i :: 0 <= i < |s.tasks| ==> TaskOk(s, i))
    && (forall a :: 0 <= a < |s.acceptors| ==> AcceptorOk(s, a))
  }

  lemma InitHolds(ant: nat, listeners: nat)
    ensures Inv(Init(ant, listeners))
  {
  }

  /** What was in order of the descriptors and the connections is in order afterwards, and so is what is new. */
  ghost predicate TableKept(s: State, s': State) {
    && (forall w :: IsThere(s', w) && IsThere(s, w) && HeldOk(s, w) ==> HeldOk(s', w))
    && (forall fd :: fd in s'.open && (fd in s.open ==> EntryOk(s, fd)) ==> EntryOk(s', fd))
    && (forall c :: 0 <= c < |s'.conns| && (c < |s.conns| ==> ConnOk(s, c)) ==> ConnOk(s', c))
  }

  /** and of the coroutines. */
  ghost predicate CoroutinesKept(s: State, s': State) {
    && SameSizes(s, s')
    && (forall i :: 0 <= i < |s'.tasks| && i < |s.tasks| && TaskOk(s, i) ==> TaskOk(s', i))
    && (forall a :: 0 <= a < |s'.acceptors| && a < |s.acceptors| && AcceptorOk(s, a) ==> AcceptorOk(s', a))
  }

  lemma PartsKeep(s: State, s': State)
    requires Inv(s) && TableKept(s, s') && CoroutinesKept(s, s') && WholeOk(s')
    ensures Inv(s')
  {
    hide HeldOk, EntryOk, ConnOk, TaskOk, AcceptorOk, CallsOk, IdleOk, CountOk;
    forall w | IsThere(s', w) ensures HeldOk(s', w) {
      assert HeldOk(s, w);
    }
    forall fd | fd in s'.open ensures EntryOk(s', fd) {
      assert fd in s.open ==> EntryOk(s, fd);
    }
    forall c | 0 <= c < |s'.conns| ensures ConnOk(s', c) {
      assert c < |s.conns| ==> ConnOk(s, c);
    }
    forall i | 0 <= i < |s'.tasks| ensures TaskOk(s', i) {
      assert TaskOk(s, i);
    }
    forall a | 0 <= a < |s'.acceptors| ensures AcceptorOk(s', a) {
      assert AcceptorOk(s, a);
    }
  }

  /** Where nobody's descriptor changes and none is opened or closed, the table stays in order. */
  lemma SameHolders(s: State, s': State)
    requires SameSizes(s, s') && s'.open == s.open && s'.conns == s.conns
    requires forall w :: IsThere(s, w) ==>
               FdOf(s', w) == FdOf(s, w) && (FdOf(s, w) != -1 ==> ConnOf(s', w) == ConnOf(s, w))
    ensures TableKept(s, s')
  {
  }

  lemma SpawnWorkerKeeps(s: State)
    requires Inv(s) && Enabled(s, Spawn) && s.spawned < |s.tasks|
    ensures Inv(SpawnNext(s))
  {
    hide HeldOk, EntryOk, ConnOk;
    assert TaskOk(s, s.spawned);
    var s' := SpawnNext(s);
    SameHolders(s, s');
    PartsKeep(s, s');
  }

  lemma SpawnAcceptorKeeps(s: State)
    requires Inv(s) && Enabled(s, Spawn) && s.spawned >= |s.tasks|
    ensures Inv(SpawnNext(s))
  {
    hide HeldOk, EntryOk, ConnOk;
    assert AcceptorOk(s, s.listening);
    var s' := SpawnNext(s);
    SameHolders(s, s');
    PartsKeep(s, s');
  }

  lemma WakeWorkerKeeps(s: State, i: nat)
    requires Inv(s) && Enabled(s, Wake(Worker(i)))
    ensures Inv(WakeUp(s, Worker(i)))
  {
    hide HeldOk, EntryOk, ConnOk;
    var s' := WakeUp(s, Worker(i));
    SameHolders(s, s');
    PartsKeep(s, s');
  }

  lemma WakeAcceptorKeeps(s: State, a: nat)
    requires Inv(s) && Enabled(s, Wake(Acceptor(a)))
    ensures Inv(WakeUp(s, Acceptor(a)))
  {
    hide HeldOk, EntryOk, ConnOk;
    var s' := WakeUp(s, Acceptor(a));
    SameHolders(s, s');
    PartsKeep(s, s');
  }

  lemma TestKeeps(s: State, i: nat)
    requires Inv(s) && IsRunning(s, Worker(i)) && i < |s.tasks| && s.tasks[i].pc.Test?
    ensures Inv(AtTest(s, i))
  {
    var s' := AtTest(s, i);
    hide *;
    TestedHolders(s, i);
    TestedCoroutines(s, i);
    PartsKeep(s, s');
  }

  lemma TestedHolders(s: State, i: nat)
    requires Inv(s) && IsRunning(s, Worker(i)) && i < |s.tasks| && s.tasks[i].pc.Test?
    ensures TableKept(s, AtTest(s, i))
  {
    hide HeldOk, EntryOk, ConnOk, TaskOk, AcceptorOk, CallsOk, IdleOk, CountOk;
    SameHolders(s, AtTest(s, i));
  }

  lemma TestedCoroutines(s: State, i: nat)
    requires Inv(s) && IsRunning(s, Worker(i)) && i < |s.tasks| && s.tasks[i].pc.Test?
    ensures CoroutinesKept(s, AtTest(s, i)) && WholeOk(AtTest(s, i))
  {
    hide HeldOk, EntryOk, ConnOk;
    assert TaskOk(s, i) && (s.calls.Nested? ==> AcceptorOk(s, s.calls.caller));
  }

  lemma HandleKeeps(s: State, i: nat, input: Input)
    requires Inv(s) && IsRunning(s, Worker(i)) && i < |s.tasks| && s.tasks[i].pc.Handling? && input != Returns(-1)
    ensures Inv(AtHandle(s, i, s.tasks[i].pc.fd, input))
  {
    hide HeldOk, EntryOk, ConnOk;
    assert TaskOk(s, i) && (s.calls.Nested? ==> AcceptorOk(s, s.calls.caller));
    var s' := AtHandle(s, i, s.tasks[i].pc.fd, input);
    SameHolders(s, s');
    PartsKeep(s, s');
  }

  lemma HandleClosesKeeps(s: State, i: nat)
    requires Inv(s) && IsRunning(s, Worker(i)) && i < |s.tasks| && s.tasks[i].pc.Handling?
    ensures Inv(AtHandle(s, i, s.tasks[i].pc.fd, Returns(-1)))
  {
    assert TaskOk(s, i) && HeldOk(s, Worker(i));
    var s' := AtHandle(s, i, s.tasks[i].pc.fd, Returns(-1));
    PartsKeep(s, s');
  }

  lemma HeadKeeps(s: State, a: nat)
    requires Inv(s) && IsRunning(s, Acceptor(a)) && a < |s.acceptors| && s.acceptors[a].Head?
    ensures Inv(AtHead(s, a))
  {
    hide HeldOk, EntryOk, ConnOk;
    var s' := AtHead(s, a);
    SameHolders(s, s');
    PartsKeep(s, s');
  }

  lemma AcceptKeeps(s: State, a: nat, input: Input)
    requires Inv(s) && IsRunning(s, Acceptor(a)) && a < |s.acceptors| && s.acceptors[a].Accepting?
    requires input.Returns? ==> input.r < 0
    ensures Inv(AtAccept(s, a, input))
  {
    hide HeldOk, EntryOk, ConnOk;
    var s' := AtAccept(s, a, input);
    SameHolders(s, s');
    PartsKeep(s, s');
  }

  lemma AcceptSucceedsKeeps(s: State, a: nat, fd: int)
    requires Inv(s) && IsRunning(s, Acceptor(a)) && a < |s.acceptors| && s.acceptors[a].Accepting?
    requires fd >= 0 && fd !in s.open
    ensures Inv(AtAccept(s, a, Returns(fd)))
  {
    var s' := AtAccept(s, a, Returns(fd));
    hide *;
    AcceptedTable(s, a, fd);
    AcceptedCoroutines(s, a, fd);
    PartsKeep(s, s');
  }

  lemma AcceptedTable(s: State, a: nat, fd: int)
    requires Inv(s) && IsRunning(s, Acceptor(a)) && a < |s.acceptors| && s.acceptors[a].Accepting?
    requires fd >= 0 && fd !in s.open
    ensures TableKept(s, AtAccept(s, a, Returns(fd)))
  {
    hide TaskOk, AcceptorOk, CallsOk, IdleOk, CountOk;
  }

  lemma AcceptedCoroutines(s: State, a: nat, fd: int)
    requires Inv(s) && IsRunning(s, Acceptor(a)) && a < |s.acceptors| && s.acceptors[a].Accepting?
    requires fd >= 0 && fd !in s.open
    ensures CoroutinesKept(s, AtAccept(s, a, Returns(fd))) && WholeOk(AtAccept(s, a, Returns(fd)))
  {
    hide HeldOk, EntryOk, ConnOk;
  }

  lemma CheckKeeps(s: State, a: nat)
    requires Inv(s) && IsRunning(s, Acceptor(a)) && a < |s.acceptors| && s.acceptors[a].Check?
    ensures Inv(AtCheck(s, a, s.acceptors[a].fd, s.acceptors[a].conn))
  {
    assert AcceptorOk(s, a) && HeldOk(s, Acceptor(a));
    var s' := AtCheck(s, a, s.acceptors[a].fd, s.acceptors[a].conn);
    PartsKeep(s, s');
  }

  lemma TakeKeeps(s: State, a: nat)
    requires Inv(s) && IsRunning(s, Acceptor(a)) && a < |s.acceptors| && s.acceptors[a].Taking?
    ensures Inv(AtTake(s, a, s.acceptors[a].fd, s.acceptors[a].conn))
  {
    var s' := AtTake(s, a, s.acceptors[a].fd, s.acceptors[a].conn);
    hide *;
    TakenTable(s, a);
    TakenCoroutines(s, a);
    PartsKeep(s, s');
  }

  lemma TakenTable(s: State, a: nat)
    requires Inv(s) && IsRunning(s, Acceptor(a)) && a < |s.acceptors| && s.acceptors[a].Taking?
    ensures TableKept(s, AtTake(s, a, s.acceptors[a].fd, s.acceptors[a].conn))
  {
    hide CallsOk, CountOk;
    assert AcceptorOk(s, a) && HeldOk(s, Acceptor(a)) && TaskOk(s, Last(s.idle));
  }

  lemma TakenCoroutines(s: State, a: nat)
    requires Inv(s) && IsRunning(s, Acceptor(a)) && a < |s.acceptors| && s.acceptors[a].Taking?
    ensures var s' := AtTake(s, a, s.acceptors[a].fd, s.acceptors[a].conn); CoroutinesKept(s, s') && WholeOk(s')
  {
    hide EntryOk, ConnOk;
    assert AcceptorOk(s, a) && HeldOk(s, Acceptor(a)) && TaskOk(s, Last(s.idle));
  }

  // Every run.

  lemma NextKeeps(s: State, c: Choice)
    requires Inv(s) && Enabled(s, c)
    ensures Inv(Next(s, c))
  {
    hide Inv, SpawnNext, WakeUp, AtTest, AtHandle, AtHead, AtAccept, AtCheck, AtTake;
    match c
    case Spawn =>
      if s.spawned < |s.tasks| {
        SpawnWorkerKeeps(s);
      } else {
        SpawnAcceptorKeeps(s);
      }
    case Wake(Worker(i)) => WakeWorkerKeeps(s, i);
    case Wake(Acceptor(a)) => WakeAcceptorKeeps(s, a);
    case Go(input) =>
      match Running(s)
      case Worker(i) =>
        if s.tasks[i].pc.Test? {
          TestKeeps(s, i);
        } else if input == Returns(-1) {
          HandleClosesKeeps(s, i);
        } else {
          HandleKeeps(s, i, input);
        }
      case Acceptor(a) =>
        if s.acceptors[a].Head? {
          HeadKeeps(s, a);
        } else if s.acceptors[a].Check? {
          CheckKeeps(s, a);
        } else if s.acceptors[a].Taking? {
          TakeKeeps(s, a);
        } else if input.Returns? && input.r >= 0 {
          AcceptSucceedsKeeps(s, a, input.r);
        } else {
          AcceptKeeps(s, a, input);
        }
  }

  lemma {:induction false} RunKeeps(s: State, choices: seq<Choice>)
    requires Inv(s) && CanRun(s, choices)
    ensures Inv(After(s, choices))
    decreases |choices|
  {
    hide Inv, Enabled, Next;
    if choices != [] {
      NextKeeps(s, choices[0]);
      RunKeeps(Next(s, choices[0]), choices[1..]);
    }
  }

  // What the invariant means.

  /** Holds a descriptor. */
  predicate Holds(s: State, w: Who) {
    IsThere(s, w) && FdOf(s, w) != -1
  }

  /** The stack: distinct workers, suspended at the yield, without a descriptor. */
  ghost predicate StackIsClean(s: State) {
    && !s.broken
    && (forall k, l :: 0 <= k < l < |s.idle| ==> s.idle[k] != s.idle[l])
    && forall i :: i in s.idle ==> i < |s.tasks| && s.tasks[i].pc == Yielded && s.tasks[i].fd == -1
  }

  /** Any other worker that was created holds an open descriptor, unless it runs to the stack without one. */
  ghost predicate OthersAreBusy(s: State) {
    forall i :: 0 <= i < |s.tasks| && i < s.spawned && i !in s.idle ==>
      (Holds(s, Worker(i)) && FdOf(s, Worker(i)) in s.open)
      || (IsRunning(s, Worker(i)) && s.tasks[i].pc == Test && s.tasks[i].fd == -1)
  }

  /** No two hold the same descriptor or the same connection. */
  ghost predicate HoldersAreApart(s: State) {
    forall v, w :: Holds(s, v) && Holds(s, w) && v != w ==> FdOf(s, v) != FdOf(s, w) && ConnOf(s, v) != ConnOf(s, w)
  }

  /** Every accepted connection is held by somebody and was never closed, or was closed once and nobody holds it. */
  ghost predicate ConnectionsAreKept(s: State) {
    forall c :: 0 <= c < |s.conns| ==>
      if s.conns[c].closes == 0 then exists w :: Holds(s, w) && ConnOf(s, w) == c && FdOf(s, w) == s.conns[c].fd
      else s.conns[c].closes == 1 && forall w :: Holds(s, w) ==> ConnOf(s, w) != c
  }

  lemma HoldersFound(s: State, w: Who)
    requires Inv(s) && Holds(s, w)
    ensures var fd := FdOf(s, w);
            fd in s.open && s.open[fd] == Entry(ConnOf(s, w), w) && ConnOf(s, w) < |s.conns|
            && s.conns[ConnOf(s, w)] == Connection(fd, 0)
  {
    assert HeldOk(s, w);
    assert EntryOk(s, FdOf(s, w));
    assert ConnOk(s, ConnOf(s, w));
  }

  lemma StackAndWorkers(s: State)
    requires Inv(s)
    ensures StackIsClean(s) && OthersAreBusy(s)
  {
    forall i | i in s.idle ensures i < |s.tasks| && s.tasks[i].pc == Yielded && s.tasks[i].fd == -1 {
      assert TaskOk(s, i);
    }
    forall i | 0 <= i < |s.tasks| && i < s.spawned && i !in s.idle && !(s.tasks[i].pc == Test && s.tasks[i].fd == -1)
      ensures Holds(s, Worker(i)) && FdOf(s, Worker(i)) in s.open
    {
      assert TaskOk(s, i);
      HoldersFound(s, Worker(i));
    }
    forall i | 0 <= i < |s.tasks| && s.tasks[i].pc == Test ensures IsRunning(s, Worker(i)) {
      assert TaskOk(s, i);
    }
  }

  lemma HoldersAndConnections(s: State)
    requires Inv(s)
    ensures HoldersAreApart(s) && ConnectionsAreKept(s)
  {
    hide FdOf, ConnOf;
    forall w | Holds(s, w)
      ensures FdOf(s, w) in s.open && s.open[FdOf(s, w)] == Entry(ConnOf(s, w), w)
      ensures ConnOf(s, w) < |s.conns| && s.conns[ConnOf(s, w)] == Connection(FdOf(s, w), 0)
    {
      HoldersFound(s, w);
    }
    forall c | 0 <= c < |s.conns| && s.conns[c].closes == 0
      ensures exists w :: Holds(s, w) && ConnOf(s, w) == c && FdOf(s, w) == s.conns[c].fd
    {
      assert ConnOk(s, c);
      var fd := s.conns[c].fd;
      assert EntryOk(s, fd);
      assert HeldOk(s, s.open[fd].owner);
    }
    forall c | 0 <= c < |s.conns| ensures s.conns[c].closes <= 1 {
      assert ConnOk(s, c);
    }
  }

  /** Any number of workers and acceptors, any interleaving, any results of accept and handle. */
  lemma RunsAreSafe(ant: nat, listeners: nat, choices: seq<Choice>)
    requires CanRun(Init(ant, listeners), choices)
    ensures var s := After(Init(ant, listeners), choices);
            StackIsClean(s) && OthersAreBusy(s) && HoldersAreApart(s) && ConnectionsAreKept(s)
  {
    hide *;
    InitHolds(ant, listeners);
    RunKeeps(Init(ant, listeners), choices);
    var s := After(Init(ant, listeners), choices);
    StackAndWorkers(s);
    HoldersAndConnections(s);
  }

  lemma {:induction false} SizesStay(s: State, choices: seq<Choice>)
    requires CanRun(s, choices)
    ensures |After(s, choices).tasks| == |s.tasks| && |After(s, choices).acceptors| == |s.acceptors|
    decreases |choices|
  {
    hide Enabled, Next;
    if choices != [] {
      SizesStay(Next(s, choices[0]), choices[1..]);
    }
  }

  /** In the event loop behind the start-up: idle workers and open connections together are all the workers. */
  lemma PoolIsConserved(ant: nat, listeners: nat, choices: seq<Choice>)
    requires CanRun(Init(ant, listeners), choices)
    ensures var s := After(Init(ant, listeners), choices);
            s.calls.Loop? && Started(s) ==> |s.idle| + |s.open| == ant
  {
    InitHolds(ant, listeners);
    RunKeeps(Init(ant, listeners), choices);
    SizesStay(Init(ant, listeners), choices);
  }

  /** Nothing blocks for good: with a listening socket some step is possible in every reachable state. */
  lemma SomebodyCanMove(ant: nat, listeners: nat, choices: seq<Choice>)
    requires CanRun(Init(ant, listeners), choices) && listeners > 0
    ensures exists c :: Enabled(After(Init(ant, listeners), choices), c)
  {
    InitHolds(ant, listeners);
    RunKeeps(Init(ant, listeners), choices);
    SizesStay(Init(ant, listeners), choices);
    var s := After(Init(ant, listeners), choices);
    hide After, CanRun;
    EnabledChoice(s);
  }

  lemma EnabledChoice(s: State)
    requires Inv(s) && |s.acceptors| > 0
    ensures exists c :: Enabled(s, c)
  {
    assert AcceptorOk(s, 0);
    if s.calls.Loop? {
      assert if Started(s) then Enabled(s, Wake(Acceptor(0))) else Enabled(s, Spawn);
    } else {
      match Running(s)
      case Worker(i) =>
        assert TaskOk(s, i);
        assert Enabled(s, Go(if s.tasks[i].pc.Test? then Nothing else Suspend));
      case Acceptor(a) =>
        assert AcceptorOk(s, a);
        assert Enabled(s, Go(if s.acceptors[a].Accepting? then Suspend else Nothing));
    }
  }

  /** A step closes a connection at most once more, and never reopens one. */
  lemma ClosedStaysClosed(s: State, c: Choice)
    requires Inv(s) && Enabled(s, c)
    ensures var s' := Next(s, c);
            |s.conns| <= |s'.conns| &&
            forall k :: 0 <= k < |s.conns| ==>
              s'.conns[k].fd == s.conns[k].fd && s.conns[k].closes <= s'.conns[k].closes
  {
  }

  /**
   * Two steps from the hand-over: the worker that was on top of the stack polls the accepted descriptor, its task's
   * field is free again, and the acceptor is back at the head of its loop.
   */
  lemma HandOver(s: State, a: nat)
    requires Inv(s) && s.calls == One(Acceptor(a)) && a < |s.acceptors| && s.acceptors[a].Taking?
    ensures s.idle != [] && Last(s.idle) < |s.tasks|
    ensures var go := [Go(Nothing), Go(Nothing)];
            CanRun(s, go) &&
            var s2 := After(s, go); var fd, conn, i := s.acceptors[a].fd, s.acceptors[a].conn, Last(s.idle);
            && s2.tasks == s.tasks[i := Task(Polling(fd), -1, conn)] && s2.idle == Front(s.idle)
            && s2.calls == s.calls && s2.acceptors == s.acceptors[a := Head]
            && fd in s.open && s2.open == s.open[fd := Entry(conn, Worker(i))] && s2.conns == s.conns
  {
    assert AcceptorOk(s, a) && HeldOk(s, Acceptor(a)) && TaskOk(s, Last(s.idle));
    var go := [Go(Nothing), Go(Nothing)];
    var s1 := Next(s, go[0]);
    assert go[1..] == [Go(Nothing)] && go[1..][1..] == [];
    assert s1.calls == Nested(a, Last(s.idle));
    var s2 := Next(s1, Go(Nothing));
    assert After(s1, [Go(Nothing)]) == After(s2, []) == s2;
  }
}
