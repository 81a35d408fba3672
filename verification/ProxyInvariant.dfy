/**
 The invariant of the proxy protocol and the proof that every action keeps it.  It has four parts: the order
 in which Shutdown changes the flags, the exact values of the counters and the wait group, what each handler
 has read, written and shut, and who holds which buffer.
 */
module ProxyInvariant {
  import opened ProxyMachine

  // ----- Counting handlers -----

  function Sum(hs: seq<Handler>, w: Handler -> nat): nat {
    if hs == [] then 0 else w(hs[0]) + Sum(hs[1..], w)
  }

  lemma {:induction false} SumUpdate(hs: seq<Handler>, i: nat, h: Handler, w: Handler -> nat)
    requires i < |hs|
    ensures Sum(hs[i := h], w) + w(hs[i]) == Sum(hs, w) + w(h)
  {
    if i == 0 {
      assert hs[i := h][1..] == hs[1..];
    } else {
      assert hs[i := h][1..] == hs[1..][i - 1 := h];
      SumUpdate(hs[1..], i - 1, h, w);
    }
  }

  lemma {:induction false} SumAppend(hs: seq<Handler>, h: Handler, w: Handler -> nat)
    ensures Sum(hs + [h], w) == Sum(hs, w) + w(h)
  {
    if hs == [] {
      assert [h][1..] == [];
    } else {
      assert (hs + [h])[1..] == hs[1..] + [h];
      SumAppend(hs[1..], h, w);
    }
  }

  /** A handler that weighs something makes the sum positive. */
  lemma {:induction false} SumMember(hs: seq<Handler>, i: nat, w: Handler -> nat)
    requires i < |hs|
    ensures Sum(hs, w) >= w(hs[i])
  {
    if i > 0 {
      SumMember(hs[1..], i - 1, w);
    }
  }

  function One(b: bool): nat {
    if b then 1 else 0
  }

  function IsOpen(h: Handler): nat {
    One(!h.pc.Closing? && !h.pc.Finished?)
  }

  function IsFused(h: Handler): nat {
    One(h.pc.Fusing? || h.pc.FuseReturned?)
  }

  function IsSuccess(h: Handler): nat {
    One(h.pc.Adding? || h.pc.Fusing? || h.pc.FuseReturned? || (Ended(h.pc) && h.pc.outcome.Served?))
  }

  function IsCountedFailure(h: Handler): nat {
    One(Ended(h.pc) && h.pc.outcome.FailedHandshake?)
  }

  function IsTimedOut(h: Handler): nat {
    One(h.timedOut)
  }

  // ----- The invariant -----

  /** Shutdown stores the flag, then closes the listener, then releases its share of the wait group. */
  predicate ControlInv(c: Control) {
    && (c.shut.Idle? ==> (c.quit <==> !c.listening) && (c.quit <==> c.released))
    && (c.shut.WillStore? ==> !c.quit && c.listening && !c.released)
    && (c.shut.WillClose? ==> c.quit && c.listening && !c.released)
    && (c.shut.WillDone? ==> c.quit && !c.listening && !c.released)
    && (c.accept.Failed? && c.accept.byClose ==> !c.listening)
    && (c.accept.Erring? ==> !c.accept.byClose)
    && (c.accept.Exited? ==> c.quit)
    && (Holding(c.accept) ==> IsNew(c.accept.h))
    && (if c.listening then c.late == 0 else c.late + One(Holding(c.accept)) <= 1)
  }

  /** The handlers, counted in the five ways that matter. */
  datatype Tally = Tally(fused: nat, open: nat, success: nat, failed: nat, timedOut: nat)

  function TallyOf(hs: seq<Handler>): Tally {
    Tally(Sum(hs, IsFused), Sum(hs, IsOpen), Sum(hs, IsSuccess), Sum(hs, IsCountedFailure), Sum(hs, IsTimedOut))
  }

  predicate CountersMatch(c: Control, n: Counters, spawned: nat, t: Tally) {
    && n.wait == One(!c.released) + t.fused
    && n.open == t.open + One(c.accept.CountedOpen? || c.accept.CountedTotal?)
    && n.total == spawned + One(c.accept.CountedTotal?)
    && n.success == t.success
    && n.errors == n.acceptErrors + t.failed
    && n.timeouts == t.timedOut
  }

  predicate CountersInv(c: Control, n: Counters, hs: seq<Handler>) {
    CountersMatch(c, n, |hs|, TallyOf(hs))
  }

  /** Bytes of a copier: everything written on is what was read, except the chunk still in its buffer. */
  predicate PumpInv(p: Pump, memory: map<nat, seq<Byte>>) {
    && p.sent <= p.pos <= |p.source|
    && (p.stage.Waiting? || p.stage.Taking? ==> p.pos == 0)
    && (p.stage.Reading? ==> p.sent == p.pos)
    && (p.stage.Writing? ==>
          p.sent < p.pos && p.stage.buf in memory && memory[p.stage.buf] == p.source[p.sent..p.pos])
    && (p.complete ==> p.sent == |p.source| && (p.stage.Stopped? || HasShutSource(p)))
  }

  /** What has been sent to the backend, by how far the handler got. */
  predicate BackendInv(h: Handler, proxyProtocol: bool)
    requires h.up.sent <= |h.up.source|
  {
    match h.pc
    case Handshaking => h.toBackend == []
    case HandshakeFailed => h.toBackend == []
    case Dialing => h.toBackend == []
    case SendingHeader => h.toBackend == []
    case Succeeding => h.toBackend == Preamble(h, proxyProtocol)
    case Adding => h.toBackend == Preamble(h, proxyProtocol)
    case Fusing => h.toBackend == Preamble(h, proxyProtocol) + h.up.source[..h.up.sent]
    case FuseReturned => h.toBackend == Preamble(h, proxyProtocol) + h.up.source[..h.up.sent]
    case _ =>
      match h.pc.outcome
      case Served => h.toBackend == Preamble(h, proxyProtocol) + h.up.source[..h.up.sent]
      case FailedHeader => proxyProtocol && h.toBackend <= h.header
      case _ => h.toBackend == []
  }

  /** The bytes that precede the client's own. */
  function Preamble(h: Handler, proxyProtocol: bool): seq<Byte> {
    if proxyProtocol then h.header else []
  }

  predicate StreamInv(h: Handler, proxyProtocol: bool)
    requires h.up.sent <= |h.up.source| && h.down.sent <= |h.down.source|
  {
    BackendInv(h, proxyProtocol) && h.toClient == h.down.source[..h.down.sent]
  }

  /** Copiers run exactly between the start and the return of the fuse. */
  predicate StageInv(h: Handler) {
    if h.pc.Fusing? then !h.up.stage.Waiting? && !h.down.stage.Waiting?
    else if h.pc.FuseReturned? || (Ended(h.pc) && h.pc.outcome.Served?) then h.up.stage.Done? && h.down.stage.Done?
    else h.up.stage.Waiting? && h.down.stage.Waiting?
  }

  /** Kinds of which a copier shuts only the half it read from. */
  predicate HalfCloses(k: Kind) {
    k.Tcp? || k.UnixSocket?
  }

  /** Which halves are open, exactly, from who has shut what. */
  predicate ConnInv(h: Handler) {
    && (!h.pc.Finished? ==>
          && (h.client.rd <==> !HasShutSource(h.up) && !(HasShutSink(h.down) && h.client.kind.Other?))
          && (h.client.wr <==> !HasShutSink(h.down) && !(HasShutSource(h.up) && !HalfCloses(h.client.kind))))
    && (h.pc.Finished? ==> !h.client.rd && !h.client.wr)
    && (h.pc.Fusing? || h.pc.FuseReturned? ==>
          && (h.backend.rd <==> !HasShutSource(h.down) && !(HasShutSink(h.up) && h.backend.kind.Other?))
          && (h.backend.wr <==> !HasShutSink(h.up) && !(HasShutSource(h.down) && !HalfCloses(h.backend.kind))))
    && (h.pc.Succeeding? || h.pc.Adding? || h.pc.SendingHeader? ==> h.backend.rd && h.backend.wr)
  }

  predicate HandlerInv(h: Handler, memory: map<nat, seq<Byte>>, proxyProtocol: bool) {
    && PumpInv(h.up, memory) && PumpInv(h.down, memory)
    && StageInv(h)
    && StreamInv(h, proxyProtocol)
    && ConnInv(h)
    && (h.timedOut ==> h.pc.HandshakeFailed? || (Ended(h.pc) && h.pc.outcome.FailedHandshake?))
    && (h.pc.SendingHeader? ==> proxyProtocol)
  }

  predicate IsNew(h: Handler) {
    h == NewHandler(h.client.kind, h.header, h.up.source)
  }

  predicate HandlersInv(hs: seq<Handler>, memory: map<nat, seq<Byte>>, proxyProtocol: bool) {
    forall i :: 0 <= i < |hs| ==> HandlerInv(hs[i], memory, proxyProtocol)
  }

  predicate Holds(hs: seq<Handler>, i: int, d: Direction, b: nat) {
    0 <= i < |hs| && HoldsBuffer(hs[i].Copier(d)) && hs[i].Copier(d).stage.buf == b
  }

  /** A buffer held is not in the pool, and no two copiers hold the same one. */
  ghost predicate HeapInv(hs: seq<Handler>, heap: Heap) {
    && heap.pool <= heap.memory.Keys
    && (forall i, d, b :: Holds(hs, i, d, b) ==> b in heap.memory && b !in heap.pool)
    && (forall i, d, j, e, b :: Holds(hs, i, d, b) && Holds(hs, j, e, b) ==> i == j && d == e)
  }

  ghost predicate Inv(s: State) {
    && ControlInv(s.control)
    && CountersInv(s.control, s.counters, s.handlers)
    && HandlersInv(s.handlers, s.heap.memory, s.proxyProtocol)
    && HeapInv(s.handlers, s.heap)
  }

  // ----- Preservation: flags and counters -----

  lemma InitInv(s: State, proxyProtocol: bool)
    requires s == Init(proxyProtocol)
    ensures Inv(s)
  {
    assert TallyOf([]) == Tally(0, 0, 0, 0, 0);
    assert HeapInv([], Heap({}, map[]));
  }

  lemma ControlKept(s: State, a: Action)
    requires ControlInv(s.control) && Enabled(s, a)
    ensures ControlInv(Apply(s, a).control)
  {
    match a
    case Loop(l) => assert ControlInv(LoopControl(s.control, l));
    case Shut => assert ControlInv(ShutControl(s.control));
    case _ =>
  }

  /** Replacing one handler moves each sum by that handler's own change. */
  lemma TallyUpdate(hs: seq<Handler>, i: nat, h: Handler)
    requires i < |hs|
    ensures var t, t' := TallyOf(hs), TallyOf(hs[i := h]);
            && t'.fused + IsFused(hs[i]) == t.fused + IsFused(h)
            && t'.open + IsOpen(hs[i]) == t.open + IsOpen(h)
            && t'.success + IsSuccess(hs[i]) == t.success + IsSuccess(h)
            && t'.failed + IsCountedFailure(hs[i]) == t.failed + IsCountedFailure(h)
            && t'.timedOut + IsTimedOut(hs[i]) == t.timedOut + IsTimedOut(h)
  {
    SumUpdate(hs, i, h, IsFused);
    SumUpdate(hs, i, h, IsOpen);
    SumUpdate(hs, i, h, IsSuccess);
    SumUpdate(hs, i, h, IsCountedFailure);
    SumUpdate(hs, i, h, IsTimedOut);
  }

  lemma TallyAppend(hs: seq<Handler>, h: Handler)
    requires IsNew(h)
    ensures TallyOf(hs + [h]) == TallyOf(hs).(open := TallyOf(hs).open + 1)
  {
    SumAppend(hs, h, IsFused);
    SumAppend(hs, h, IsOpen);
    SumAppend(hs, h, IsSuccess);
    SumAppend(hs, h, IsCountedFailure);
    SumAppend(hs, h, IsTimedOut);
  }

  /** What an action of a handler does to its own weights. */
  lemma ServeWeights(h: Handler, a: ServeAction, proxyProtocol: bool)
    requires ServeEnabled(h, a) && (h.timedOut ==> !h.pc.Handshaking?)
    ensures var h' := ServeHandler(h, a, proxyProtocol);
            && IsFused(h') == IsFused(h) + One(a.AddWait?) - One(a.DoneWait?)
            && IsOpen(h') == IsOpen(h) - One(a.DecOpen?)
            && IsSuccess(h') == IsSuccess(h) + One(a.IncSuccess?)
            && IsCountedFailure(h') == IsCountedFailure(h) + One(a.IncHandshakeError?)
            && IsTimedOut(h') == IsTimedOut(h) + One(a.HandshakeTimeout?)
  {
  }

  lemma ServeArithmetic(c: Control, n: Counters, spawned: nat, t: Tally, t': Tally, a: ServeAction)
    requires CountersMatch(c, n, spawned, t)
    requires t'.fused == t.fused + One(a.AddWait?) - One(a.DoneWait?)
    requires t'.open == t.open - One(a.DecOpen?)
    requires t'.success == t.success + One(a.IncSuccess?)
    requires t'.failed == t.failed + One(a.IncHandshakeError?)
    requires t'.timedOut == t.timedOut + One(a.HandshakeTimeout?)
    ensures CountersMatch(c, ServeCounters(n, a), spawned, t')
  {
  }

  lemma ServeCounts(c: Control, n: Counters, hs: seq<Handler>, i: nat, a: ServeAction, proxyProtocol: bool)
    requires i < |hs| && CountersInv(c, n, hs) && ServeEnabled(hs[i], a)
    requires hs[i].timedOut ==> !hs[i].pc.Handshaking?
    ensures CountersInv(c, ServeCounters(n, a), hs[i := ServeHandler(hs[i], a, proxyProtocol)])
  {
    var h := ServeHandler(hs[i], a, proxyProtocol);
    ServeWeights(hs[i], a, proxyProtocol);
    TallyUpdate(hs, i, h);
    ServeArithmetic(c, n, |hs|, TallyOf(hs), TallyOf(hs[i := h]), a);
  }

  /** A copier changes nothing that is counted. */
  lemma CopyCounts(c: Control, n: Counters, hs: seq<Handler>, i: nat, h: Handler)
    requires i < |hs| && CountersInv(c, n, hs) && h.pc == hs[i].pc && h.timedOut == hs[i].timedOut
    ensures CountersInv(c, n, hs[i := h])
  {
    TallyUpdate(hs, i, h);
  }

  lemma LoopCounts(c: Control, n: Counters, hs: seq<Handler>, a: LoopAction)
    requires CountersInv(c, n, hs) && ControlInv(c) && LoopEnabled(c, a)
    ensures CountersInv(LoopControl(c, a), LoopCounters(n, a), if a.Spawn? then hs + [c.accept.h] else hs)
  {
    if a.Spawn? {
      TallyAppend(hs, c.accept.h);
    }
  }

  lemma CountersKept(s: State, a: Action)
    requires Inv(s) && Enabled(s, a)
    ensures var t := Apply(s, a); CountersInv(t.control, t.counters, t.handlers)
  {
    match a
    case Serve(i, v) =>
      assert HandlerInv(s.handlers[i], s.heap.memory, s.proxyProtocol);
      ServeCounts(s.control, s.counters, s.handlers, i, v, s.proxyProtocol);
    case Copy(i, d, c) =>
      CopyCounts(s.control, s.counters, s.handlers, i, CopyHandler(s.handlers[i], s.heap, d, c));
    case Loop(l) => LoopCounts(s.control, s.counters, s.handlers, l);
    case _ =>
  }

  // ----- Preservation: handlers -----

  lemma NewHandlerInv(h: Handler, memory: map<nat, seq<Byte>>, proxyProtocol: bool)
    requires IsNew(h)
    ensures HandlerInv(h, memory, proxyProtocol)
  {
  }

  lemma ServeConns(h: Handler, a: ServeAction, proxyProtocol: bool)
    requires StageInv(h) && ConnInv(h) && ServeEnabled(h, a)
    ensures StageInv(ServeHandler(h, a, proxyProtocol)) && ConnInv(ServeHandler(h, a, proxyProtocol))
  {
  }

  lemma ServeStream(h: Handler, a: ServeAction, memory: map<nat, seq<Byte>>, proxyProtocol: bool)
    requires HandlerInv(h, memory, proxyProtocol) && ServeEnabled(h, a)
    ensures var h' := ServeHandler(h, a, proxyProtocol);
            PumpInv(h'.up, memory) && PumpInv(h'.down, memory) && StreamInv(h', proxyProtocol)
  {
  }

  lemma ServeKeepsHandler(h: Handler, a: ServeAction, memory: map<nat, seq<Byte>>, proxyProtocol: bool)
    requires HandlerInv(h, memory, proxyProtocol) && ServeEnabled(h, a)
    ensures HandlerInv(ServeHandler(h, a, proxyProtocol), memory, proxyProtocol)
  {
    ServeConns(h, a, proxyProtocol);
    ServeStream(h, a, memory, proxyProtocol);
  }

  /** The copier that acts: its bytes stay accounted for. */
  lemma PumpKept(p: Pump, heap: Heap, a: CopyAction)
    requires PumpInv(p, heap.memory) && PumpEnabled(p, heap, a)
    ensures PumpInv(CopyPump(p, heap, a), CopyHeap(p, heap, a).memory)
    ensures p.sent <= CopyPump(p, heap, a).sent <= |p.source|
    ensures CopyOutput(p, heap, a) == p.source[p.sent..CopyPump(p, heap, a).sent]
  {
    var q := CopyPump(p, heap, a);
    if a.Write? || a.WriteError? {
      var n := |CopyOutput(p, heap, a)|;
      assert CopyOutput(p, heap, a) == heap.memory[p.stage.buf][..n];
      assert p.source[p.sent..p.pos][..n] == p.source[p.sent..p.sent + n];
    } else {
      assert p.source[p.sent..p.sent] == [];
    }
  }

  /** Every other copier: nobody else touches the buffer it holds. */
  lemma OtherPumpKept(p: Pump, heap: Heap, a: CopyAction, q: Pump)
    requires PumpInv(q, heap.memory) && PumpEnabled(p, heap, a)
    requires p.stage.Reading? && q.stage.Writing? ==> p.stage.buf != q.stage.buf
    ensures PumpInv(q, CopyHeap(p, heap, a).memory)
  {
  }

  /** What a copier's action does to its handler, halves aside. */
  lemma CopyEffect(h: Handler, heap: Heap, d: Direction, a: CopyAction)
    requires CopyEnabled(h, heap, d, a)
    ensures var h', q, out := CopyHandler(h, heap, d, a), CopyPump(h.Copier(d), heap, a),
                              CopyOutput(h.Copier(d), heap, a);
            && h'.pc == h.pc && h'.timedOut == h.timedOut && h'.header == h.header
            && h'.up == (if d == Up then q else h.up)
            && h'.down == (if d == Down then q else h.down)
            && h'.toBackend == (if d == Up then h.toBackend + out else h.toBackend)
            && h'.toClient == (if d == Down then h.toClient + out else h.toClient)
            && q.source == h.Copier(d).source
  {
  }

  /** Outputs that grow by exactly the bytes that follow those already sent. */
  predicate Extends(out: seq<Byte>, p: Pump, out': seq<Byte>, q: Pump) {
    q.source == p.source && p.sent <= q.sent <= |p.source| && out' == out + p.source[p.sent..q.sent]
  }

  lemma StreamGrows(h: Handler, h': Handler, proxyProtocol: bool)
    requires h.up.sent <= |h.up.source| && h.down.sent <= |h.down.source| && StreamInv(h, proxyProtocol)
    requires h.pc.Fusing? && h'.pc.Fusing? && h'.header == h.header
    requires Extends(h.toBackend, h.up, h'.toBackend, h'.up)
    requires Extends(h.toClient, h.down, h'.toClient, h'.down)
    ensures StreamInv(h', proxyProtocol)
  {
    PrefixGrows(Preamble(h, proxyProtocol), h.up.source, h.up.sent, h'.up.sent);
    PrefixGrows([], h.down.source, h.down.sent, h'.down.sent);
    assert forall s: seq<Byte> :: [] + s == s;
  }

  lemma PrefixGrows(before: seq<Byte>, source: seq<Byte>, i: nat, j: nat)
    requires i <= j <= |source|
    ensures before + source[..i] + source[i..j] == before + source[..j]
  {
    assert source[..j] == source[..i] + source[i..j];
  }

  lemma CopyStream(h: Handler, heap: Heap, d: Direction, a: CopyAction, proxyProtocol: bool)
    requires HandlerInv(h, heap.memory, proxyProtocol) && CopyEnabled(h, heap, d, a)
    ensures var h' := CopyHandler(h, heap, d, a);
            h'.up.sent <= |h'.up.source| && h'.down.sent <= |h'.down.source| && StreamInv(h', proxyProtocol)
  {
    var h' := CopyHandler(h, heap, d, a);
    PumpKept(h.Copier(d), heap, a);
    CopyEffect(h, heap, d, a);
    assert Extends(h.toBackend, h.up, h'.toBackend, h'.up);
    assert Extends(h.toClient, h.down, h'.toClient, h'.down);
    StreamGrows(h, h', proxyProtocol);
  }

  /** What a copier's action does to the two connections. */
  lemma CopyHalves(h: Handler, heap: Heap, d: Direction, a: CopyAction)
    requires CopyEnabled(h, heap, d, a)
    ensures var h' := CopyHandler(h, heap, d, a);
            && h'.Source(d) == (if a.ShutSource? then ShutAsSource(h.Source(d)) else h.Source(d))
            && h'.Sink(d) == (if a.ShutSink? then ShutAsSink(h.Sink(d)) else h.Sink(d))
  {
  }

  lemma CopyStages(p: Pump, heap: Heap, a: CopyAction)
    requires PumpEnabled(p, heap, a)
    ensures var q := CopyPump(p, heap, a);
            && (HasShutSource(q) <==> HasShutSource(p) || a.ShutSource?)
            && (HasShutSink(q) <==> HasShutSink(p) || a.ShutSink?)
            && (q.stage.Waiting? <==> p.stage.Waiting?)
            && (a.ShutSource? ==> !HasShutSource(p))
  {
  }

  lemma CopyConns(h: Handler, heap: Heap, d: Direction, a: CopyAction)
    requires StageInv(h) && ConnInv(h) && CopyEnabled(h, heap, d, a)
    ensures StageInv(CopyHandler(h, heap, d, a)) && ConnInv(CopyHandler(h, heap, d, a))
  {
    CopyHalves(h, heap, d, a);
    CopyStages(h.Copier(d), heap, a);
    CopyEffect(h, heap, d, a);
  }

  lemma CopyKeepsHandler(h: Handler, heap: Heap, d: Direction, a: CopyAction, proxyProtocol: bool)
    requires HandlerInv(h, heap.memory, proxyProtocol) && CopyEnabled(h, heap, d, a)
    requires HoldsBuffer(h.up) && HoldsBuffer(h.down) ==> h.up.stage.buf != h.down.stage.buf
    ensures HandlerInv(CopyHandler(h, heap, d, a), CopyHeap(h.Copier(d), heap, a).memory, proxyProtocol)
  {
    var e := if d == Up then Down else Up;
    var h' := CopyHandler(h, heap, d, a);
    PumpKept(h.Copier(d), heap, a);
    OtherPumpKept(h.Copier(d), heap, a, h.Copier(e));
    assert h'.Copier(d) == CopyPump(h.Copier(d), heap, a) && h'.Copier(e) == h.Copier(e);
    CopyStream(h, heap, d, a, proxyProtocol);
    CopyConns(h, heap, d, a);
    assert h'.pc == h.pc && h'.timedOut == h.timedOut;
  }

  /** A handler other than the one that acts. */
  lemma OtherHandlerKept(hs: seq<Handler>, heap: Heap, i: nat, d: Direction, a: CopyAction, j: nat, proxyProtocol: bool)
    requires i < |hs| && j < |hs| && j != i
    requires HandlersInv(hs, heap.memory, proxyProtocol) && HeapInv(hs, heap) && CopyEnabled(hs[i], heap, d, a)
    ensures HandlerInv(hs[j], CopyHeap(hs[i].Copier(d), heap, a).memory, proxyProtocol)
  {
    var p, h := hs[i].Copier(d), hs[j];
    assert HandlerInv(h, heap.memory, proxyProtocol);
    assert HoldsBuffer(p) ==> Holds(hs, i, d, p.stage.buf);
    assert HoldsBuffer(h.Copier(Up)) ==> Holds(hs, j, Up, h.Copier(Up).stage.buf);
    assert HoldsBuffer(h.Copier(Down)) ==> Holds(hs, j, Down, h.Copier(Down).stage.buf);
    OtherPumpKept(p, heap, a, h.up);
    OtherPumpKept(p, heap, a, h.down);
  }

  lemma CopyHandlers(hs: seq<Handler>, heap: Heap, i: nat, d: Direction, a: CopyAction, proxyProtocol: bool)
    requires i < |hs| && HandlersInv(hs, heap.memory, proxyProtocol) && HeapInv(hs, heap)
    requires CopyEnabled(hs[i], heap, d, a)
    ensures HandlersInv(hs[i := CopyHandler(hs[i], heap, d, a)], CopyHeap(hs[i].Copier(d), heap, a).memory,
                        proxyProtocol)
  {
    var h := hs[i];
    var hs' := hs[i := CopyHandler(h, heap, d, a)];
    forall j | 0 <= j < |hs'|
      ensures HandlerInv(hs'[j], CopyHeap(h.Copier(d), heap, a).memory, proxyProtocol)
    {
      if j == i {
        assert HoldsBuffer(h.Copier(Up)) ==> Holds(hs, i, Up, h.Copier(Up).stage.buf);
        assert HoldsBuffer(h.Copier(Down)) ==> Holds(hs, i, Down, h.Copier(Down).stage.buf);
        CopyKeepsHandler(h, heap, d, a, proxyProtocol);
      } else {
        OtherHandlerKept(hs, heap, i, d, a, j, proxyProtocol);
      }
    }
  }

  lemma CollectHandlers(hs: seq<Handler>, heap: Heap, b: nat, proxyProtocol: bool)
    requires HandlersInv(hs, heap.memory, proxyProtocol) && HeapInv(hs, heap) && b in heap.pool
    ensures HandlersInv(hs, heap.memory - {b}, proxyProtocol)
  {
    forall j | 0 <= j < |hs|
      ensures HandlerInv(hs[j], heap.memory - {b}, proxyProtocol)
    {
      var h := hs[j];
      assert HandlerInv(h, heap.memory, proxyProtocol);
      assert HoldsBuffer(h.Copier(Up)) ==> Holds(hs, j, Up, h.Copier(Up).stage.buf);
      assert HoldsBuffer(h.Copier(Down)) ==> Holds(hs, j, Down, h.Copier(Down).stage.buf);
    }
  }

  lemma HandlersKept(s: State, a: Action)
    requires Inv(s) && Enabled(s, a)
    ensures var t := Apply(s, a); HandlersInv(t.handlers, t.heap.memory, t.proxyProtocol)
  {
    match a
    case Serve(i, v) => ServeKeepsHandler(s.handlers[i], v, s.heap.memory, s.proxyProtocol);
    case Copy(i, d, c) => CopyHandlers(s.handlers, s.heap, i, d, c, s.proxyProtocol);
    case Loop(l) =>
      if l.Spawn? {
        NewHandlerInv(s.control.accept.h, s.heap.memory, s.proxyProtocol);
      }
    case Collect(b) => CollectHandlers(s.handlers, s.heap, b, s.proxyProtocol);
    case _ =>
  }

  // ----- Preservation: buffers -----

  /** Nobody comes to hold a buffer except by taking it. */
  lemma CopyHolders(hs: seq<Handler>, heap: Heap, i: nat, d: Direction, a: CopyAction, j: int, e: Direction, b: nat)
    requires i < |hs| && CopyEnabled(hs[i], heap, d, a)
    requires Holds(hs[i := CopyHandler(hs[i], heap, d, a)], j, e, b)
    ensures if j == i && e == d && a.Take? then b == a.buf else Holds(hs, j, e, b)
    ensures j == i && e == d ==> !a.Put?
  {
    if j == i {
      var h' := CopyHandler(hs[i], heap, d, a);
      assert h'.Copier(d) == CopyPump(hs[i].Copier(d), heap, a);
      assert e != d ==> h'.Copier(e) == hs[i].Copier(e);
    }
  }

  lemma CopyBuffers(hs: seq<Handler>, heap: Heap, i: nat, d: Direction, a: CopyAction)
    requires i < |hs| && HeapInv(hs, heap) && CopyEnabled(hs[i], heap, d, a)
    ensures HeapInv(hs[i := CopyHandler(hs[i], heap, d, a)], CopyHeap(hs[i].Copier(d), heap, a))
  {
    var hs', heap' := hs[i := CopyHandler(hs[i], heap, d, a)], CopyHeap(hs[i].Copier(d), heap, a);
    var p := hs[i].Copier(d);
    assert HoldsBuffer(p) ==> Holds(hs, i, d, p.stage.buf);
    forall j, e, b | Holds(hs', j, e, b)
      ensures b in heap'.memory && b !in heap'.pool
    {
      CopyHolders(hs, heap, i, d, a, j, e, b);
    }
    forall j, e, k, f, b | Holds(hs', j, e, b) && Holds(hs', k, f, b)
      ensures j == k && e == f
    {
      CopyHolders(hs, heap, i, d, a, j, e, b);
      CopyHolders(hs, heap, i, d, a, k, f, b);
    }
  }

  /** Actions of handlers happen while their copiers hold nothing, or leave the copiers alone. */
  lemma ServeHolders(h: Handler, a: ServeAction, proxyProtocol: bool, d: Direction)
    requires StageInv(h) && ServeEnabled(h, a)
    ensures var p := ServeHandler(h, a, proxyProtocol).Copier(d);
            HoldsBuffer(p) ==> p == h.Copier(d)
  {
  }

  lemma ServeBuffers(hs: seq<Handler>, heap: Heap, i: nat, a: ServeAction, proxyProtocol: bool)
    requires i < |hs| && HeapInv(hs, heap) && StageInv(hs[i]) && ServeEnabled(hs[i], a)
    ensures HeapInv(hs[i := ServeHandler(hs[i], a, proxyProtocol)], heap)
  {
    var hs' := hs[i := ServeHandler(hs[i], a, proxyProtocol)];
    forall j, e, b | Holds(hs', j, e, b)
      ensures Holds(hs, j, e, b)
    {
      ServeHolders(hs[i], a, proxyProtocol, e);
    }
  }

  lemma SpawnBuffers(hs: seq<Handler>, heap: Heap, h: Handler)
    requires HeapInv(hs, heap) && IsNew(h)
    ensures HeapInv(hs + [h], heap)
  {
    forall j, e, b | Holds(hs + [h], j, e, b)
      ensures Holds(hs, j, e, b)
    {
    }
  }

  lemma HeapKept(s: State, a: Action)
    requires Inv(s) && Enabled(s, a)
    ensures var t := Apply(s, a); HeapInv(t.handlers, t.heap)
  {
    match a
    case Copy(i, d, c) => CopyBuffers(s.handlers, s.heap, i, d, c);
    case Serve(i, v) =>
      assert HandlerInv(s.handlers[i], s.heap.memory, s.proxyProtocol);
      ServeBuffers(s.handlers, s.heap, i, v, s.proxyProtocol);
    case Loop(l) =>
      if l.Spawn? {
        SpawnBuffers(s.handlers, s.heap, s.control.accept.h);
      }
    case _ =>
  }

  // ----- Every run -----

  lemma InvKept(s: State, a: Action)
    requires Inv(s) && Enabled(s, a)
    ensures Inv(Apply(s, a))
  {
    ControlKept(s, a);
    CountersKept(s, a);
    HandlersKept(s, a);
    HeapKept(s, a);
  }

  lemma {:induction false} RunKeepsInv(s: State, acts: seq<Action>)
    requires Inv(s) && IsRun(s, acts)
    ensures Inv(After(s, acts))
    decreases |acts|
  {
    if acts != [] {
      InvKept(s, acts[0]);
      RunKeepsInv(Apply(s, acts[0]), acts[1..]);
    }
  }

  lemma ReachableInv(s: State)
    requires Reachable(s)
    ensures Inv(s)
  {
    var proxyProtocol: bool, acts: seq<Action> :|
      IsRun(Init(proxyProtocol), acts) && s == After(Init(proxyProtocol), acts);
    InitInv(Init(proxyProtocol), proxyProtocol);
    RunKeepsInv(Init(proxyProtocol), acts);
  }
}
