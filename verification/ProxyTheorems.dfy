/**
 What the proxy guarantees in every reachable state and along every run: stream safety, the wait group,
 teardown, the accept loop after Shutdown, conservation of the counters, and exactly when a drained proxy
 stays drained.
 */
module ProxyTheorems {
  import opened ProxyMachine
  import opened ProxyInvariant

  // ----- Streams -----

  /** The peer has proved who it is, or did not have to. */
  predicate PastHandshake(pc: Pc) {
    !pc.Handshaking? && !pc.HandshakeFailed? && !(Ended(pc) && pc.outcome.FailedHandshake?)
  }

  /** In every reachable state, by what the handler recorded: a backend has received a prefix of the preamble and
      the client's bytes, a client a prefix of the backend's bytes, and a direction read to its end has
      delivered everything. */
  lemma StreamPrefixes(s: State, i: nat)
    requires Reachable(s) && i < |s.handlers|
    ensures var h := s.handlers[i];
            && h.toBackend <= Preamble(h, s.proxyProtocol) + h.up.source
            && h.toClient <= h.down.source
            && (h.toBackend != [] ==> PastHandshake(h.pc))
            && (h.up.complete ==> h.toBackend == Preamble(h, s.proxyProtocol) + h.up.source)
            && (h.down.complete ==> h.toClient == h.down.source)
  {
    ReachableInv(s);
    var h := s.handlers[i];
    assert HandlerInv(h, s.heap.memory, s.proxyProtocol);
    assert h.up.source[..|h.up.source|] == h.up.source;
    assert h.down.source[..|h.down.source|] == h.down.source;
  }

  /** No buffer is ever held by two copiers, nor held while free. */
  lemma BuffersExclusive(s: State, i: nat, d: Direction, j: nat, e: Direction)
    requires Reachable(s) && i < |s.handlers| && j < |s.handlers| && (i != j || d != e)
    requires HoldsBuffer(s.handlers[i].Copier(d))
    ensures s.handlers[i].Copier(d).stage.buf !in s.heap.pool
    ensures HoldsBuffer(s.handlers[j].Copier(e))
        ==> s.handlers[j].Copier(e).stage.buf != s.handlers[i].Copier(d).stage.buf
  {
    ReachableInv(s);
    assert Holds(s.handlers, i, d, s.handlers[i].Copier(d).stage.buf);
    if HoldsBuffer(s.handlers[j].Copier(e)) {
      assert Holds(s.handlers, j, e, s.handlers[j].Copier(e).stage.buf);
    }
  }

  // ----- Teardown -----

  /** When the fuse returns, in whichever order the copiers ended and for every mix of connection kinds, all
      four halves are shut and both buffers are back. */
  lemma TeardownComplete(s: State, i: nat)
    requires Reachable(s) && Enabled(s, Serve(i, FuseReturns))
    ensures var h := s.handlers[i];
            && !h.client.rd && !h.client.wr && !h.backend.rd && !h.backend.wr
            && forall d, b :: !Holds(s.handlers, i, d, b)
  {
    ReachableInv(s);
    assert HandlerInv(s.handlers[i], s.heap.memory, s.proxyProtocol);
  }

  /** One direction has ended and the other has not begun to shut anything: the other still has both its
      halves exactly when the ended direction's source could be half-closed and its sink was. */
  lemma HalfClose(s: State, i: nat, d: Direction, e: Direction)
    requires Reachable(s) && i < |s.handlers| && s.handlers[i].pc.Fusing? && d != e
    requires HasShutSink(s.handlers[i].Copier(d)) && !HasShutSource(s.handlers[i].Copier(e))
    ensures var h := s.handlers[i];
            h.Source(e).rd && h.Sink(e).wr
            <==> (h.Source(d).kind.Tcp? || h.Source(d).kind.UnixSocket?) && !h.Sink(d).kind.Other?
  {
    ReachableInv(s);
    assert HandlerInv(s.handlers[i], s.heap.memory, s.proxyProtocol);
  }

  // ----- The wait group -----

  /** The count is Shutdown's share plus the handlers between Add and Done, and never negative; so Wait returns
      only after Shutdown's three effects and with no fused handler at that instant. */
  lemma WaitGroup(s: State)
    requires Reachable(s)
    ensures s.counters.wait == One(!s.control.released) + Sum(s.handlers, IsFused) >= 0
    ensures Enabled(s, WaitReturns)
        ==> && s.control.quit && !s.control.listening && s.control.released
            && forall i :: 0 <= i < |s.handlers| ==> !s.handlers[i].pc.Fusing? && !s.handlers[i].pc.FuseReturned?
  {
    ReachableInv(s);
    if Enabled(s, WaitReturns) {
      forall i | 0 <= i < |s.handlers|
        ensures !s.handlers[i].pc.Fusing? && !s.handlers[i].pc.FuseReturned?
      {
        SumMember(s.handlers, i, IsFused);
      }
    }
  }

  /** A handler that can still reach Add. */
  predicate Pending(pc: Pc) {
    pc.Handshaking? || pc.Dialing? || pc.SendingHeader? || pc.Succeeding? || pc.Adding?
  }

  /** Nothing is left that could start a fuse. */
  predicate Quiet(s: State) {
    !Holding(s.control.accept) && forall i :: 0 <= i < |s.handlers| ==> !Pending(s.handlers[i].pc)
  }

  ghost predicate StaysDrained(s: State) {
    forall acts: seq<Action> :: IsRun(s, acts) ==> After(s, acts).counters.wait == 0
  }

  /** Wait promises that connections are drained.  That the count, once zero, stays zero holds exactly when no
      accepted connection is still on its way to being fused. */
  lemma DrainExact(s: State)
    requires Reachable(s) && s.counters.wait == 0
    ensures StaysDrained(s) <==> Quiet(s)
  {
    ReachableInv(s);
    if Quiet(s) {
      forall acts: seq<Action> | IsRun(s, acts)
        ensures After(s, acts).counters.wait == 0
      {
        QuietStaysDrained(s, acts);
      }
    } else {
      var acts := [];
      if Holding(s.control.accept) {
        acts := HeldCanFuse(s);
      } else {
        var i :| 0 <= i < |s.handlers| && Pending(s.handlers[i].pc);
        acts := PendingCanFuse(s, i);
      }
      assert IsRun(s, acts) && After(s, acts).counters.wait != 0;
    }
  }

  predicate Drained(s: State) {
    && Quiet(s) && s.counters.wait == 0
    && s.control.quit && !s.control.listening && s.control.shut.Idle?
    && forall i :: 0 <= i < |s.handlers| ==> !s.handlers[i].pc.Fusing? && !s.handlers[i].pc.FuseReturned?
  }

  lemma DrainedStep(s: State, a: Action)
    requires Drained(s) && Enabled(s, a)
    ensures Drained(Apply(s, a))
  {
    match a
    case Serve(i, v) =>
      assert !Pending(s.handlers[i].pc);
      assert v.IncHandshakeError? || v.DecOpen? || v.CloseClient?;
    case Copy(i, d, c) =>
      assert false;
    case _ =>
  }

  lemma {:induction false} DrainedRun(s: State, acts: seq<Action>)
    requires Drained(s) && IsRun(s, acts)
    ensures Drained(After(s, acts))
    decreases |acts|
  {
    if acts != [] {
      DrainedStep(s, acts[0]);
      DrainedRun(Apply(s, acts[0]), acts[1..]);
    }
  }

  lemma QuietStaysDrained(s: State, acts: seq<Action>)
    requires Inv(s) && s.counters.wait == 0 && Quiet(s) && IsRun(s, acts)
    ensures After(s, acts).counters.wait == 0
  {
    forall i | 0 <= i < |s.handlers|
      ensures !s.handlers[i].pc.Fusing? && !s.handlers[i].pc.FuseReturned?
    {
      SumMember(s.handlers, i, IsFused);
    }
    DrainedRun(s, acts);
  }

  function StepsToAdd(pc: Pc): nat {
    if pc.Handshaking? then 4 else if pc.Dialing? then 3 else if pc.SendingHeader? then 2
    else if pc.Succeeding? then 1 else 0
  }

  function NextTowardsAdd(pc: Pc): ServeAction {
    if pc.Handshaking? then HandshakeOk else if pc.Dialing? then DialOk(Tcp, []) else if pc.SendingHeader? then HeaderOk
    else if pc.Succeeding? then IncSuccess else AddWait
  }

  lemma {:induction false} PendingCanFuse(s: State, i: nat) returns (acts: seq<Action>)
    requires i < |s.handlers| && Pending(s.handlers[i].pc)
    ensures IsRun(s, acts) && After(s, acts).counters.wait == s.counters.wait + 1
    decreases StepsToAdd(s.handlers[i].pc)
  {
    var a := Serve(i, NextTowardsAdd(s.handlers[i].pc));
    var t := Apply(s, a);
    if s.handlers[i].pc.Adding? {
      acts := [a];
      assert IsRun(t, acts[1..]);
    } else {
      var rest := PendingCanFuse(t, i);
      acts := [a] + rest;
      assert acts[1..] == rest;
    }
  }

  lemma {:induction false} HeldCanFuse(s: State) returns (acts: seq<Action>)
    requires Inv(s) && Holding(s.control.accept)
    ensures IsRun(s, acts) && After(s, acts).counters.wait == s.counters.wait + 1
    decreases if s.control.accept.Accepted? then 2 else if s.control.accept.CountedOpen? then 1 else 0
  {
    var a := Loop(if s.control.accept.Accepted? then IncOpen else if s.control.accept.CountedOpen? then IncTotal
                  else Spawn);
    var t := Apply(s, a);
    InvKept(s, a);
    var rest;
    if a.loop.Spawn? {
      rest := PendingCanFuse(t, |s.handlers|);
    } else {
      rest := HeldCanFuse(t);
    }
    acts := [a] + rest;
    assert acts[1..] == rest;
  }

  /** A connection has been accepted and handed to its handler. */
  lemma OneSpawned() returns (s: State)
    ensures Reachable(s) && s.control == Init(false).control && s.counters.wait == 1
    ensures |s.handlers| == 1 && s.handlers[0].pc == Handshaking
  {
    ReachableInit(false);
    s := Init(false);
    ReachableStep(s, Loop(AcceptConn(Tcp, [], [])));
    s := Apply(s, Loop(AcceptConn(Tcp, [], [])));
    ReachableStep(s, Loop(IncOpen));
    s := Apply(s, Loop(IncOpen));
    ReachableStep(s, Loop(IncTotal));
    s := Apply(s, Loop(IncTotal));
    ReachableStep(s, Loop(Spawn));
    s := Apply(s, Loop(Spawn));
  }

  /** Shutdown runs to its end before anything else happens. */
  lemma ThenShutDown(s: State) returns (t: State)
    requires Reachable(s) && s.control.shut.Idle? && !s.control.quit
    ensures Reachable(t) && t.handlers == s.handlers && t.counters.wait == s.counters.wait - 1
  {
    t := s;
    for n := 0 to 3
      invariant Reachable(t) && t.handlers == s.handlers && t.counters == s.counters
      invariant t.control.shut == (if n == 0 then Idle else if n == 1 then WillStore else if n == 2 then WillClose
                                   else WillDone)
      invariant n == 0 ==> !t.control.quit
    {
      ReachableStep(t, Shut);
      t := Apply(t, Shut);
    }
    ReachableStep(t, Shut);
    t := Apply(t, Shut);
  }

  /** A run in which Wait may return and a connection accepted earlier is fused afterwards. */
  lemma WaitCanReturnEarly() returns (s: State)
    ensures Reachable(s) && Enabled(s, WaitReturns) && !StaysDrained(s)
  {
    s := OneSpawned();
    s := ThenShutDown(s);
    assert !Quiet(s) by {
      assert Pending(s.handlers[0].pc);
    }
    DrainExact(s);
  }

  lemma ReachableInit(proxyProtocol: bool)
    ensures Reachable(Init(proxyProtocol))
  {
    assert After(Init(proxyProtocol), []) == Init(proxyProtocol);
  }

  lemma ReachableStep(s: State, a: Action)
    requires Reachable(s) && Enabled(s, a)
    ensures Reachable(Apply(s, a))
  {
    var proxyProtocol: bool, acts: seq<Action> :|
      IsRun(Init(proxyProtocol), acts) && s == After(Init(proxyProtocol), acts);
    RunSnoc(Init(proxyProtocol), acts, a);
  }

  lemma {:induction false} RunSnoc(s: State, acts: seq<Action>, a: Action)
    requires IsRun(s, acts) && Enabled(After(s, acts), a)
    ensures IsRun(s, acts + [a]) && After(s, acts + [a]) == Apply(After(s, acts), a)
    decreases |acts|
  {
    if acts == [] {
      assert [a][1..] == [];
      assert IsRun(Apply(s, a), []);
    } else {
      RunSnoc(Apply(s, acts[0]), acts[1..], a);
      assert (acts + [a])[1..] == acts[1..] + [a];
    }
  }

  /** A run is one action after another: the last one is taken in the state that the others lead to. */
  lemma {:induction false} RunLast(s: State, acts: seq<Action>)
    requires IsRun(s, acts) && acts != []
    ensures var n := |acts| - 1;
            && IsRun(s, acts[..n]) && Enabled(After(s, acts[..n]), acts[n])
            && After(s, acts) == Apply(After(s, acts[..n]), acts[n])
    decreases |acts|
  {
    var n := |acts| - 1;
    if n == 0 {
      assert acts[1..] == [] && acts[..n] == [];
    } else {
      RunLast(Apply(s, acts[0]), acts[1..]);
      assert acts[..n][1..] == acts[1..][..n - 1];
    }
  }

  // ----- The accept loop and Shutdown -----

  /** The loop has come back to Accept, or gone further, after the listener was closed. */
  predicate LoopClosed(c: Control) {
    !c.listening && c.quit && (c.accept.Accepting? || c.accept == Failed(true) || c.accept.Exited?)
  }

  lemma LoopClosedStep(s: State, a: Action)
    requires Inv(s) && LoopClosed(s.control) && Enabled(s, a)
    ensures var t := Apply(s, a);
            && LoopClosed(t.control)
            && |t.handlers| == |s.handlers| && t.control.late == s.control.late
            && t.counters.acceptErrors == s.counters.acceptErrors
            && (a.Loop? ==> if s.control.accept.Accepting? then t.control.accept == Failed(true)
                            else t.control.accept == Exited)
  {
    match a
    case Loop(l) =>
    case Shut =>
    case _ =>
  }

  /** From the first Accept call after the close the loop does nothing but exit: along every run it accepts no
      connection and counts no error. */
  lemma {:induction false} AcceptLoopExits(s: State, acts: seq<Action>)
    requires Inv(s) && LoopClosed(s.control) && IsRun(s, acts)
    ensures var t := After(s, acts);
            && LoopClosed(t.control)
            && |t.handlers| == |s.handlers|
            && t.counters.acceptErrors == s.counters.acceptErrors
    decreases |acts|
  {
    if acts != [] {
      LoopClosedStep(s, acts[0]);
      InvKept(s, acts[0]);
      AcceptLoopExits(Apply(s, acts[0]), acts[1..]);
    }
  }

  /** Because the flag is stored before the listener is closed, an error caused by the close is never counted,
      and at most one connection already accepted is handed to a handler after the close. */
  lemma AcceptLoopShutdown(s: State)
    requires Reachable(s)
    ensures !s.control.listening || s.control.accept.Exited? ==> s.control.quit
    ensures s.control.accept == Failed(true) ==> LoopControl(s.control, LoadQuit).accept == Exited
    ensures LoopEnabled(s.control, IncError) ==> !s.control.accept.byClose
    ensures s.control.late <= 1
    ensures !s.control.listening && s.control.accept.Accepting? ==> LoopClosed(s.control)
  {
    ReachableControl(s);
    ShutdownOrder(s.control);
  }

  /** An error of Accept while the proxy is running is counted, and the loop goes on as if nothing had happened. */
  lemma TransientErrorCounted(s: State)
    requires s.control.accept.Accepting? && !s.control.quit
    ensures var acts := [Loop(AcceptError), Loop(LoadQuit), Loop(IncError)];
            && IsRun(s, acts)
            && After(s, acts).control == s.control && After(s, acts).handlers == s.handlers
            && After(s, acts).counters.errors == s.counters.errors + 1
            && After(s, acts).counters == s.counters.(errors := s.counters.errors + 1,
                                                      acceptErrors := s.counters.acceptErrors + 1)
  {
    var s1 := Apply(s, Loop(AcceptError));
    var s2 := Apply(s1, Loop(LoadQuit));
    var s3 := Apply(s2, Loop(IncError));
    assert IsRun(s3, []);
    assert [Loop(IncError)][1..] == [];
    assert IsRun(s2, [Loop(IncError)]) && After(s2, [Loop(IncError)]) == s3;
    assert [Loop(LoadQuit), Loop(IncError)][1..] == [Loop(IncError)];
    assert IsRun(s1, [Loop(LoadQuit), Loop(IncError)]) && After(s1, [Loop(LoadQuit), Loop(IncError)]) == s3;
    assert [Loop(AcceptError), Loop(LoadQuit), Loop(IncError)][1..] == [Loop(LoadQuit), Loop(IncError)];
  }

  lemma ReachableControl(s: State)
    requires Reachable(s)
    ensures ControlInv(s.control)
  {
    ReachableInv(s);
  }

  lemma ShutdownOrder(c: Control)
    requires ControlInv(c)
    ensures !c.listening || c.accept.Exited? ==> c.quit
    ensures c.accept == Failed(true) ==> LoopControl(c, LoadQuit).accept == Exited
    ensures c.accept.Erring? ==> !c.accept.byClose
    ensures c.late <= 1
  {
  }

  // ----- Conservation -----

  function IsHandshakeFailure(h: Handler): nat {
    One(h.pc.HandshakeFailed? || (Ended(h.pc) && h.pc.outcome.FailedHandshake?))
  }

  function IsDialFailure(h: Handler): nat {
    One(Ended(h.pc) && h.pc.outcome.FailedDial?)
  }

  function IsHeaderFailure(h: Handler): nat {
    One(Ended(h.pc) && h.pc.outcome.FailedHeader?)
  }

  function IsUndecided(h: Handler): nat {
    One(h.pc.Handshaking? || h.pc.Dialing? || h.pc.SendingHeader? || h.pc.Succeeding?)
  }

  /** About to count its failed handshake. */
  function IsMidFailure(h: Handler): nat {
    One(h.pc.HandshakeFailed?)
  }

  lemma {:induction false} SumPartition(hs: seq<Handler>)
    ensures |hs| == Sum(hs, IsSuccess) + Sum(hs, IsHandshakeFailure) + Sum(hs, IsDialFailure)
                    + Sum(hs, IsHeaderFailure) + Sum(hs, IsUndecided)
    ensures Sum(hs, IsHandshakeFailure) == Sum(hs, IsCountedFailure) + Sum(hs, IsMidFailure)
  {
    if hs != [] {
      SumPartition(hs[1..]);
    }
  }

  lemma {:induction false} SumTimeouts(hs: seq<Handler>, memory: map<nat, seq<Byte>>, proxyProtocol: bool)
    requires HandlersInv(hs, memory, proxyProtocol)
    ensures Sum(hs, IsTimedOut) <= Sum(hs, IsHandshakeFailure)
  {
    if hs != [] {
      assert HandlerInv(hs[0], memory, proxyProtocol);
      SumTimeouts(hs[1..], memory, proxyProtocol);
    }
  }

  /** Every accepted connection is accounted for exactly once, at every moment. */
  lemma CounterConservation(s: State)
    requires Reachable(s)
    ensures var n, hs := s.counters, s.handlers;
            && n.open == Sum(hs, IsOpen) + One(s.control.accept.CountedOpen? || s.control.accept.CountedTotal?)
            && n.total == n.success + Sum(hs, IsHandshakeFailure) + Sum(hs, IsDialFailure)
                          + Sum(hs, IsHeaderFailure) + Sum(hs, IsUndecided) + One(s.control.accept.CountedTotal?)
            && n.errors + Sum(hs, IsMidFailure) == n.acceptErrors + Sum(hs, IsHandshakeFailure)
            && n.timeouts <= n.errors + Sum(hs, IsMidFailure)
  {
    ReachableInv(s);
    SumPartition(s.handlers);
    SumTimeouts(s.handlers, s.heap.memory, s.proxyProtocol);
  }
}
