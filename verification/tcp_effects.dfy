/** What each step of the coroutine pool does to the descriptors, the connections, the stack and the coroutines. */
module TcpEffects {
  import opened TcpPool

  /** Descriptors, connections and the stack are as they were. */
  predicate SameResources(s: State, t: State) {
    t.open == s.open && t.conns == s.conns && t.idle == s.idle
  }

  /** Nobody but w went on. */
  predicate OthersStay(s: State, t: State, w: Who) {
    && |t.tasks| == |s.tasks| && |t.acceptors| == |s.acceptors| && t.broken == s.broken
    && (forall i :: 0 <= i < |s.tasks| && w != Worker(i) ==> t.tasks[i] == s.tasks[i])
    && (forall a :: 0 <= a < |s.acceptors| && w != Acceptor(a) ==> t.acceptors[a] == s.acceptors[a])
  }

  /** Whoever ran is suspended: the acceptor that resumed it goes on, or else the event loop. */
  predicate Suspends(s: State, t: State) {
    match s.calls
    case Nested(a, _) => t.calls == One(Acceptor(a))
    case _ => t.calls == Loop
  }

  /** The connection c is closed, for the first time, and its descriptor fd is free; nothing else is. */
  predicate Closes(s: State, t: State, fd: int, c: nat) {
    && fd in s.open && t.open.Keys == s.open.Keys - {fd} && (forall f :: f in t.open ==> t.open[f] == s.open[f])
    && c < |s.conns| == |t.conns| && s.conns[c] == Connection(fd, 0) && t.conns[c] == Connection(fd, 1)
    && forall d :: 0 <= d < |s.conns| && d != c ==> t.conns[d] == s.conns[d]
  }

  /** In handle, on the stack of calls. */
  predicate IsHandling(s: State, i: nat, fd: int) {
    IsRunning(s, Worker(i)) && i < |s.tasks| && s.tasks[i].pc == Handling(fd)
  }

  /** handle returned -1: the worker's connection is closed, and in its next step the worker is on the stack again. */
  lemma HandleFails(s: State, i: nat, fd: int)
    requires Inv(s) && IsHandling(s, i, fd)
    ensures Enabled(s, Go(Returns(-1)))
    ensures var t := Next(s, Go(Returns(-1)));
            && Closes(s, t, fd, s.tasks[i].conn) && OthersStay(s, t, Worker(i))
            && t.idle == s.idle && t.calls == s.calls && Enabled(t, Go(Nothing))
            && var u := Next(t, Go(Nothing));
               && u.open == t.open && u.conns == t.conns && u.idle == s.idle + [i] && u.tasks[i].pc == Yielded
               && OthersStay(s, u, Worker(i)) && Suspends(s, u)
  {
    assert TaskOk(s, i);
    HoldersFound(s, Worker(i));
  }

  /** handle returned anything else: the worker polls the same descriptor again, and nothing is closed. */
  lemma HandleServes(s: State, i: nat, fd: int, r: int)
    requires Inv(s) && IsHandling(s, i, fd) && r != -1
    ensures Enabled(s, Go(Returns(r)))
    ensures var t := Next(s, Go(Returns(r)));
            && SameResources(s, t) && OthersStay(s, t, Worker(i)) && Suspends(s, t)
            && t.tasks[i].pc == Polling(fd) && i !in t.idle && fd in t.open && t.open[fd].owner == Worker(i)
  {
    assert TaskOk(s, i);
    HoldersFound(s, Worker(i));
  }

  /** A descriptor is ready or its time is up: the worker that polls it is in handle with it. */
  lemma WorkerWakes(s: State, i: nat, fd: int)
    requires Inv(s) && s.calls.Loop? && Started(s) && i < |s.tasks| && s.tasks[i].pc == Polling(fd)
    ensures Enabled(s, Wake(Worker(i)))
    ensures var t := Next(s, Wake(Worker(i)));
            SameResources(s, t) && OthersStay(s, t, Worker(i)) && IsHandling(t, i, fd) && t.calls == One(Worker(i))
  {
  }

  /** An acceptor that waited or failed is at the head of its loop again, one in co_accept is still there. */
  lemma AcceptorWakes(s: State, a: nat)
    requires Inv(s) && s.calls.Loop? && Started(s) && a < |s.acceptors|
    requires s.acceptors[a].Waiting? || s.acceptors[a].Retrying? || s.acceptors[a].Accepting?
    ensures Enabled(s, Wake(Acceptor(a)))
    ensures var t := Next(s, Wake(Acceptor(a)));
            && SameResources(s, t) && OthersStay(s, t, Acceptor(a)) && t.calls == One(Acceptor(a))
            && t.acceptors[a] == if s.acceptors[a].Accepting? then Accepting else Head
  {
  }

  /** The head of an acceptor's loop: it accepts if there is a worker, and waits if there is none. */
  lemma HeadTests(s: State, a: nat)
    requires Inv(s) && IsRunning(s, Acceptor(a)) && a < |s.acceptors| && s.acceptors[a].Head?
    ensures Enabled(s, Go(Nothing))
    ensures var t := Next(s, Go(Nothing));
            && SameResources(s, t) && OthersStay(s, t, Acceptor(a))
            && (s.idle == [] ==> t.acceptors[a] == Waiting && Suspends(s, t))
            && (s.idle != [] ==> t.acceptors[a] == Accepting && t.calls == s.calls)
  {
    assert AcceptorOk(s, a);
  }

  /** accept failed: the acceptor polls its socket, and nothing was opened. */
  lemma AcceptFails(s: State, a: nat, r: int)
    requires Inv(s) && IsRunning(s, Acceptor(a)) && a < |s.acceptors| && s.acceptors[a].Accepting? && r < 0
    ensures Enabled(s, Go(Returns(r)))
    ensures var t := Next(s, Go(Returns(r)));
            SameResources(s, t) && OthersStay(s, t, Acceptor(a)) && t.acceptors[a] == Retrying && Suspends(s, t)
  {
  }

  /** accept gave a descriptor: a new connection is open under it, and the acceptor tests the stack once more. */
  lemma AcceptSucceeds(s: State, a: nat, fd: int)
    requires Inv(s) && IsRunning(s, Acceptor(a)) && a < |s.acceptors| && s.acceptors[a].Accepting?
    requires fd >= 0 && fd !in s.open
    ensures Enabled(s, Go(Returns(fd)))
    ensures var t, c := Next(s, Go(Returns(fd))), |s.conns|;
            && t.open.Keys == s.open.Keys + {fd} && t.open[fd] == Entry(c, Acceptor(a))
            && (forall f :: f in s.open ==> t.open[f] == s.open[f])
            && t.conns == s.conns + [Connection(fd, 0)] && t.idle == s.idle
            && OthersStay(s, t, Acceptor(a)) && t.acceptors[a] == Check(fd, c) && t.calls == s.calls
  {
  }

  /** The second test: without a worker the new connection is closed, with one the acceptor goes on to take it. */
  lemma CheckTests(s: State, a: nat, fd: int, c: nat)
    requires Inv(s) && IsRunning(s, Acceptor(a)) && a < |s.acceptors| && s.acceptors[a] == Check(fd, c)
    ensures Enabled(s, Go(Nothing))
    ensures var t := Next(s, Go(Nothing));
            && OthersStay(s, t, Acceptor(a)) && t.calls == s.calls && t.idle == s.idle
            && (s.idle == [] ==> Closes(s, t, fd, c) && t.acceptors[a] == Head)
            && (s.idle != [] ==> t.open == s.open && t.conns == s.conns && t.acceptors[a] == Taking(fd, c))
  {
    assert AcceptorOk(s, a);
    HoldersFound(s, Acceptor(a));
  }

  /** The worker on top of the stack leaves it with the descriptor and runs; the acceptor goes on behind it. */
  lemma TakeHandsOver(s: State, a: nat, fd: int, c: nat)
    requires Inv(s) && IsRunning(s, Acceptor(a)) && a < |s.acceptors| && s.acceptors[a] == Taking(fd, c)
    ensures Enabled(s, Go(Nothing)) && s.idle != [] && s.idle[|s.idle| - 1] < |s.tasks|
    ensures var t, i := Next(s, Go(Nothing)), s.idle[|s.idle| - 1];
            && t.idle == s.idle[..|s.idle| - 1] && t.tasks[i] == Task(Test, fd, c) && t.calls == Nested(a, i)
            && t.open.Keys == s.open.Keys && t.open[fd] == Entry(c, Worker(i)) && t.conns == s.conns && !t.broken
            && (forall f :: f in s.open && f != fd ==> t.open[f] == s.open[f])
            && t.acceptors == s.acceptors[a := Head]
            && forall j :: 0 <= j < |s.tasks| && j != i ==> t.tasks[j] == s.tasks[j]
  {
    assert AcceptorOk(s, a) && TaskOk(s, Last(s.idle));
    HoldersFound(s, Acceptor(a));
  }

  /** A worker at the head of its loop takes the descriptor it was given and polls it, or goes on the stack. */
  lemma WorkerTests(s: State, i: nat)
    requires Inv(s) && IsRunning(s, Worker(i)) && i < |s.tasks| && s.tasks[i].pc.Test?
    ensures Enabled(s, Go(Nothing))
    ensures var t, fd := Next(s, Go(Nothing)), s.tasks[i].fd;
            && t.open == s.open && t.conns == s.conns && OthersStay(s, t, Worker(i)) && Suspends(s, t)
            && t.tasks[i] == Task(if fd == -1 then Yielded else Polling(fd), -1, s.tasks[i].conn)
            && t.idle == if fd == -1 then s.idle + [i] else s.idle
  {
  }

  /** Inside accept or handle a coroutine may be suspended, and nothing else happens. */
  lemma CallSuspends(s: State, w: Who)
    requires Inv(s) && IsRunning(s, w) && IsThere(s, w)
    requires if w.Worker? then s.tasks[w.i].pc.Handling? else s.acceptors[w.a].Accepting?
    ensures Enabled(s, Go(Suspend))
    ensures var t := Next(s, Go(Suspend));
            SameResources(s, t) && t.tasks == s.tasks && t.acceptors == s.acceptors && Suspends(s, t)
  {
  }

  /** The start: the workers are created one by one, each runs to its first yield, and then the acceptors. */
  lemma StartsInOrder(s: State)
    requires Inv(s) && s.calls.Loop? && !Started(s)
    ensures Enabled(s, Spawn)
    ensures var t := Next(s, Spawn);
            && SameResources(s, t)
            && (s.spawned < |s.tasks| ==>
                  && OthersStay(s, t, Worker(s.spawned)) && t.calls == One(Worker(s.spawned))
                  && t.tasks[s.spawned].pc == Test && t.spawned == s.spawned + 1 && t.listening == s.listening)
            && (s.spawned == |s.tasks| ==>
                  && OthersStay(s, t, Acceptor(s.listening)) && t.calls == One(Acceptor(s.listening))
                  && t.acceptors[s.listening] == Head && t.listening == s.listening + 1 && t.spawned == s.spawned)
  {
  }
}
