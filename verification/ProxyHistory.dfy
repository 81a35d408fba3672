/**
 What the proxy's state says about the past: over every run from the initial state, which actions of the
 environment and of the goroutines have happened is read off the state exactly.  This ties handlers to the
 connections that were accepted and dialled for them, their outcome to what happened to them, and the metrics to
 the events they are to count.
 */
module ProxyHistory {
  import opened ProxyMachine
  import opened ProxyInvariant
  import opened ProxyTheorems

  // ----- Arrivals -----

  /** The connections that Accept returned, in order. */
  function Arrivals(acts: seq<Action>): (r: seq<LoopAction>)
    ensures forall k :: 0 <= k < |r| ==> r[k].AcceptConn?
  {
    if acts == [] then []
    else
      var n := |acts| - 1;
      if acts[n].Loop? && acts[n].loop.AcceptConn? then Arrivals(acts[..n]) + [acts[n].loop] else Arrivals(acts[..n])
  }

  /** The handler's client is the connection accepted, with its header and its bytes. */
  predicate Handles(h: Handler, a: LoopAction) {
    a.AcceptConn? && h.client.kind == a.kind && h.header == a.header && h.up.source == a.source
  }

  predicate ArrivalInv(arrived: seq<LoopAction>, s: State) {
    && |arrived| == |s.handlers| + One(Holding(s.control.accept))
    && (forall k :: 0 <= k < |s.handlers| ==> Handles(s.handlers[k], arrived[k]))
    && (Holding(s.control.accept) ==> Handles(s.control.accept.h, arrived[|s.handlers|]))
  }

  lemma ServeHandles(h: Handler, v: ServeAction, proxyProtocol: bool, a: LoopAction)
    requires ServeEnabled(h, v) && Handles(h, a)
    ensures Handles(ServeHandler(h, v, proxyProtocol), a)
  {
  }

  lemma CopyHandles(h: Handler, heap: Heap, d: Direction, c: CopyAction, a: LoopAction)
    requires CopyEnabled(h, heap, d, c) && Handles(h, a)
    ensures Handles(CopyHandler(h, heap, d, c), a)
  {
    CopyEffect(h, heap, d, c);
    CopyHalves(h, heap, d, c);
  }

  lemma ArrivalStep(arrived: seq<LoopAction>, s: State, a: Action)
    requires ArrivalInv(arrived, s) && Enabled(s, a)
    ensures ArrivalInv(if a.Loop? && a.loop.AcceptConn? then arrived + [a.loop] else arrived, Apply(s, a))
  {
    match a
    case Serve(i, v) => ServeHandles(s.handlers[i], v, s.proxyProtocol, arrived[i]);
    case Copy(i, d, c) => CopyHandles(s.handlers[i], s.heap, d, c, arrived[i]);
    case _ =>
  }

  /** The k-th handler, or the one the accept loop is holding, is that of the k-th connection accepted. */
  lemma {:induction false} Provenance(proxyProtocol: bool, acts: seq<Action>)
    requires IsRun(Init(proxyProtocol), acts)
    ensures var s, arrived := After(Init(proxyProtocol), acts), Arrivals(acts);
            && s.proxyProtocol == proxyProtocol
            && |arrived| == |s.handlers| + One(Holding(s.control.accept))
            && (forall k :: 0 <= k < |s.handlers| ==> Handles(s.handlers[k], arrived[k]))
            && (Holding(s.control.accept) ==> Handles(s.control.accept.h, arrived[|s.handlers|]))
    decreases |acts|
  {
    if acts != [] {
      var n := |acts| - 1;
      RunLast(Init(proxyProtocol), acts);
      Provenance(proxyProtocol, acts[..n]);
      ArrivalStep(Arrivals(acts[..n]), After(Init(proxyProtocol), acts[..n]), acts[n]);
    }
  }

  // ----- What has happened to a handler -----

  predicate EndedIn(pc: Pc, outcome: Outcome) {
    Ended(pc) && pc.outcome == outcome
  }

  predicate FailedHandshaking(pc: Pc) {
    pc.HandshakeFailed? || EndedIn(pc, FailedHandshake)
  }

  predicate Fused(pc: Pc) {
    pc.Fusing? || pc.FuseReturned? || EndedIn(pc, Served)
  }

  predicate Prepared(pc: Pc) {
    pc.Succeeding? || pc.Adding? || Fused(pc)
  }

  predicate Dialled(pc: Pc) {
    pc.SendingHeader? || Prepared(pc) || EndedIn(pc, FailedHeader)
  }

  /** The handshake ended in the way its result says. */
  predicate HandshakePast(acts: seq<Action>, k: nat, h: Handler) {
    && (Serve(k, HandshakeOk) in acts <==> PastHandshake(h.pc))
    && (Serve(k, HandshakeErr) in acts || Serve(k, HandshakeTimeout) in acts <==> FailedHandshaking(h.pc))
    && (Serve(k, HandshakeTimeout) in acts <==> h.timedOut)
    && (Serve(k, IncHandshakeError) in acts <==> EndedIn(h.pc, FailedHandshake))
    && (FailedHandshaking(h.pc) ==> h.client.kind.Tls?)
  }

  /** The backend is the connection dialled, with its bytes. */
  ghost predicate DialPast(acts: seq<Action>, k: nat, h: Handler) {
    && (Serve(k, DialErr) in acts <==> EndedIn(h.pc, FailedDial))
    && (Dialled(h.pc) ==> Serve(k, DialOk(h.backend.kind, h.down.source)) in acts)
    && (forall kind, source :: Serve(k, DialOk(kind, source)) in acts
          ==> Dialled(h.pc) && h.backend.kind == kind && h.down.source == source)
  }

  ghost predicate HeaderPast(acts: seq<Action>, k: nat, h: Handler, proxyProtocol: bool) {
    && (Serve(k, HeaderOk) in acts <==> proxyProtocol && Prepared(h.pc))
    && (EndedIn(h.pc, FailedHeader) ==> Serve(k, HeaderErr(|h.toBackend|)) in acts)
    && (forall n: nat :: Serve(k, HeaderErr(n)) in acts
          ==> EndedIn(h.pc, FailedHeader) && n <= |h.header| && h.toBackend == h.header[..n])
  }

  predicate ServicePast(acts: seq<Action>, k: nat, h: Handler) {
    && (Serve(k, IncSuccess) in acts <==> h.pc.Adding? || Fused(h.pc))
    && (Serve(k, AddWait) in acts <==> Fused(h.pc))
    && (Serve(k, DoneWait) in acts <==> EndedIn(h.pc, Served))
    && (Serve(k, DecOpen) in acts <==> h.pc.Closing? || h.pc.Finished?)
    && (Serve(k, CloseClient) in acts <==> h.pc.Finished?)
  }

  predicate CopyPast(acts: seq<Action>, k: nat, h: Handler, d: Direction) {
    && (Copy(k, d, ReadEof) in acts <==> h.Copier(d).complete)
    && (Copy(k, d, ShutSource) in acts <==> HasShutSource(h.Copier(d)))
    && (Copy(k, d, ShutSink) in acts <==> HasShutSink(h.Copier(d)))
    && (Copy(k, d, Put) in acts <==> h.Copier(d).stage.Returned? || h.Copier(d).stage.Done?)
    && (Copy(k, d, SignalDone) in acts <==> h.Copier(d).stage.Done?)
  }

  ghost predicate Past(acts: seq<Action>, k: nat, h: Handler, proxyProtocol: bool) {
    && HandshakePast(acts, k, h) && DialPast(acts, k, h) && HeaderPast(acts, k, h, proxyProtocol)
    && ServicePast(acts, k, h) && CopyPast(acts, k, h, Up) && CopyPast(acts, k, h, Down)
  }

  /** Nothing has happened to a handler that does not exist yet. */
  predicate NoFuture(acts: seq<Action>, spawned: nat) {
    forall a :: a in acts ==> (a.Serve? ==> a.i < spawned) && (a.Copy? ==> a.i < spawned)
  }

  ghost predicate HistoryInv(acts: seq<Action>, s: State) {
    NoFuture(acts, |s.handlers|) && forall k :: 0 <= k < |s.handlers| ==> Past(acts, k, s.handlers[k], s.proxyProtocol)
  }

  lemma ServeHandshakePast(acts: seq<Action>, k: nat, h: Handler, v: ServeAction, proxyProtocol: bool)
    requires HandshakePast(acts, k, h) && ServeEnabled(h, v)
    ensures HandshakePast(acts + [Serve(k, v)], k, ServeHandler(h, v, proxyProtocol))
  {
  }

  lemma DialOkPast(acts: seq<Action>, k: nat, h: Handler, kind: Kind, source: seq<Byte>, proxyProtocol: bool)
    requires DialPast(acts, k, h) && h.pc.Dialing?
    ensures DialPast(acts + [Serve(k, DialOk(kind, source))], k, ServeHandler(h, DialOk(kind, source), proxyProtocol))
  {
    var h' := ServeHandler(h, DialOk(kind, source), proxyProtocol);
    assert Dialled(h'.pc) && h'.backend.kind == kind && h'.down.source == source;
  }

  lemma OtherDialPast(acts: seq<Action>, k: nat, h: Handler, v: ServeAction, proxyProtocol: bool)
    requires DialPast(acts, k, h) && ServeEnabled(h, v) && !v.DialOk?
    ensures DialPast(acts + [Serve(k, v)], k, ServeHandler(h, v, proxyProtocol))
  {
    var h' := ServeHandler(h, v, proxyProtocol);
    assert h'.backend.kind == h.backend.kind && h'.down.source == h.down.source && (Dialled(h'.pc) <==> Dialled(h.pc));
  }

  lemma ServeDialPast(acts: seq<Action>, k: nat, h: Handler, v: ServeAction, proxyProtocol: bool)
    requires DialPast(acts, k, h) && ServeEnabled(h, v)
    ensures DialPast(acts + [Serve(k, v)], k, ServeHandler(h, v, proxyProtocol))
  {
    if v.DialOk? {
      DialOkPast(acts, k, h, v.kind, v.source, proxyProtocol);
    } else {
      OtherDialPast(acts, k, h, v, proxyProtocol);
    }
  }

  lemma ServeHeaderPast(acts: seq<Action>, k: nat, h: Handler, v: ServeAction, proxyProtocol: bool)
    requires HeaderPast(acts, k, h, proxyProtocol) && ServeEnabled(h, v)
    requires h.pc.SendingHeader? ==> h.toBackend == [] && proxyProtocol
    ensures HeaderPast(acts + [Serve(k, v)], k, ServeHandler(h, v, proxyProtocol), proxyProtocol)
  {
    if v.HeaderErr? {
      assert [] + h.header[..v.written] == h.header[..v.written];
    }
  }

  lemma ServeServicePast(acts: seq<Action>, k: nat, h: Handler, v: ServeAction, proxyProtocol: bool)
    requires ServicePast(acts, k, h) && ServeEnabled(h, v)
    ensures ServicePast(acts + [Serve(k, v)], k, ServeHandler(h, v, proxyProtocol))
  {
  }

  lemma ServeCopyPast(acts: seq<Action>, k: nat, h: Handler, v: ServeAction, proxyProtocol: bool, d: Direction)
    requires CopyPast(acts, k, h, d) && StageInv(h) && ServeEnabled(h, v)
    ensures CopyPast(acts + [Serve(k, v)], k, ServeHandler(h, v, proxyProtocol), d)
  {
  }

  lemma ServePast(acts: seq<Action>, k: nat, h: Handler, v: ServeAction, memory: map<nat, seq<Byte>>,
                  proxyProtocol: bool)
    requires Past(acts, k, h, proxyProtocol) && HandlerInv(h, memory, proxyProtocol) && ServeEnabled(h, v)
    ensures Past(acts + [Serve(k, v)], k, ServeHandler(h, v, proxyProtocol), proxyProtocol)
  {
    ServeHandshakePast(acts, k, h, v, proxyProtocol);
    ServeDialPast(acts, k, h, v, proxyProtocol);
    ServeHeaderPast(acts, k, h, v, proxyProtocol);
    ServeServicePast(acts, k, h, v, proxyProtocol);
    ServeCopyPast(acts, k, h, v, proxyProtocol, Up);
    ServeCopyPast(acts, k, h, v, proxyProtocol, Down);
  }

  /** A copier's action is no event of the handler itself. */
  lemma CopyOtherPast(acts: seq<Action>, k: nat, h: Handler, heap: Heap, d: Direction, c: CopyAction,
                      proxyProtocol: bool)
    requires Past(acts, k, h, proxyProtocol) && CopyEnabled(h, heap, d, c)
    ensures var acts', h' := acts + [Copy(k, d, c)], CopyHandler(h, heap, d, c);
            && HandshakePast(acts', k, h') && DialPast(acts', k, h') && HeaderPast(acts', k, h', proxyProtocol)
            && ServicePast(acts', k, h')
  {
    CopyEffect(h, heap, d, c);
    CopyHalves(h, heap, d, c);
    assert forall v :: Serve(k, v) in acts + [Copy(k, d, c)] <==> Serve(k, v) in acts;
  }

  lemma CopyOwnPast(acts: seq<Action>, k: nat, h: Handler, heap: Heap, d: Direction, c: CopyAction, e: Direction)
    requires CopyPast(acts, k, h, e) && CopyEnabled(h, heap, d, c)
    ensures CopyPast(acts + [Copy(k, d, c)], k, CopyHandler(h, heap, d, c), e)
  {
    CopyEffect(h, heap, d, c);
  }

  lemma CopyKeepsPast(acts: seq<Action>, k: nat, h: Handler, heap: Heap, d: Direction, c: CopyAction,
                      proxyProtocol: bool)
    requires Past(acts, k, h, proxyProtocol) && CopyEnabled(h, heap, d, c)
    ensures Past(acts + [Copy(k, d, c)], k, CopyHandler(h, heap, d, c), proxyProtocol)
  {
    CopyOtherPast(acts, k, h, heap, d, c, proxyProtocol);
    CopyOwnPast(acts, k, h, heap, d, c, Up);
    CopyOwnPast(acts, k, h, heap, d, c, Down);
  }

  /** Nor is what happens to another handler, or elsewhere. */
  lemma ElsewherePast(acts: seq<Action>, k: nat, h: Handler, proxyProtocol: bool, a: Action)
    requires Past(acts, k, h, proxyProtocol) && (a.Serve? ==> a.i != k) && (a.Copy? ==> a.i != k)
    ensures Past(acts + [a], k, h, proxyProtocol)
  {
    assert forall v :: Serve(k, v) in acts + [a] <==> Serve(k, v) in acts;
    assert forall d, c :: Copy(k, d, c) in acts + [a] <==> Copy(k, d, c) in acts;
  }

  lemma NewPast(acts: seq<Action>, k: nat, h: Handler, proxyProtocol: bool)
    requires NoFuture(acts, k) && IsNew(h)
    ensures Past(acts, k, h, proxyProtocol)
  {
    assert forall v :: Serve(k, v) !in acts;
    assert forall d, c :: Copy(k, d, c) !in acts;
  }

  lemma HistoryStep(acts: seq<Action>, s: State, a: Action, k: nat)
    requires HistoryInv(acts, s) && Enabled(s, a) && k < |Apply(s, a).handlers|
    requires ControlInv(s.control) && HandlersInv(s.handlers, s.heap.memory, s.proxyProtocol)
    ensures Past(acts + [a], k, Apply(s, a).handlers[k], s.proxyProtocol)
  {
    if k == |s.handlers| {
      NewPast(acts, k, s.control.accept.h, s.proxyProtocol);
      ElsewherePast(acts, k, s.control.accept.h, s.proxyProtocol, a);
    } else if a.Serve? && a.i == k {
      ServePast(acts, k, s.handlers[k], a.serve, s.heap.memory, s.proxyProtocol);
    } else if a.Copy? && a.i == k {
      CopyKeepsPast(acts, k, s.handlers[k], s.heap, a.d, a.copy, s.proxyProtocol);
    } else {
      ElsewherePast(acts, k, s.handlers[k], s.proxyProtocol, a);
    }
  }

  lemma FutureStep(acts: seq<Action>, s: State, a: Action)
    requires NoFuture(acts, |s.handlers|) && Enabled(s, a)
    ensures NoFuture(acts + [a], |Apply(s, a).handlers|)
  {
  }

  lemma HistoryKept(acts: seq<Action>, s: State, a: Action)
    requires HistoryInv(acts, s) && Reachable(s) && Enabled(s, a)
    ensures HistoryInv(acts + [a], Apply(s, a))
  {
    FutureStep(acts, s, a);
    ReachableInv(s);
    forall k | 0 <= k < |Apply(s, a).handlers|
      ensures Past(acts + [a], k, Apply(s, a).handlers[k], s.proxyProtocol)
    {
      HistoryStep(acts, s, a, k);
    }
  }

  lemma PrefixIsRun(s: State, acts: seq<Action>)
    requires IsRun(s, acts) && acts != []
    ensures IsRun(s, acts[..|acts| - 1])
  {
    RunLast(s, acts);
  }

  lemma HistoryGrows(s: State, acts: seq<Action>)
    requires IsRun(s, acts) && acts != [] && IsRun(s, acts[..|acts| - 1])
    requires Reachable(After(s, acts[..|acts| - 1]))
    requires HistoryInv(acts[..|acts| - 1], After(s, acts[..|acts| - 1]))
    ensures HistoryInv(acts, After(s, acts))
  {
    var n := |acts| - 1;
    assert acts == acts[..n] + [acts[n]];
    RunLast(s, acts);
    HistoryKept(acts[..n], After(s, acts[..n]), acts[n]);
  }

  /** Over every run: what has happened to each handler is read off its state, exactly. */
  lemma {:induction false} RunHistory(proxyProtocol: bool, acts: seq<Action>)
    requires IsRun(Init(proxyProtocol), acts)
    ensures HistoryInv(acts, After(Init(proxyProtocol), acts))
    decreases |acts|
  {
    if acts != [] {
      PrefixIsRun(Init(proxyProtocol), acts);
      RunHistory(proxyProtocol, acts[..|acts| - 1]);
      RunReaches(proxyProtocol, acts[..|acts| - 1]);
      HistoryGrows(Init(proxyProtocol), acts);
    }
  }

  lemma RunReaches(proxyProtocol: bool, acts: seq<Action>)
    requires IsRun(Init(proxyProtocol), acts)
    ensures Reachable(After(Init(proxyProtocol), acts))
  {
  }

  // ----- Handshakes and streams -----

  /** The handler of the k-th connection accepted gets past the handshake exactly if the handshake succeeded, and
      then it did not fail; only TLS connections have handshakes that fail. */
  lemma HandshakeDecides(proxyProtocol: bool, acts: seq<Action>, k: nat)
    requires IsRun(Init(proxyProtocol), acts) && k < |After(Init(proxyProtocol), acts).handlers|
    ensures k < |Arrivals(acts)|
    ensures var pc := After(Init(proxyProtocol), acts).handlers[k].pc;
            var refused := Serve(k, HandshakeErr) in acts || Serve(k, HandshakeTimeout) in acts;
            && (PastHandshake(pc) <==> Serve(k, HandshakeOk) in acts)
            && (FailedHandshaking(pc) <==> refused)
            && !(Serve(k, HandshakeOk) in acts && refused)
            && (refused ==> Arrivals(acts)[k].kind.Tls?)
            && (!PastHandshake(pc) && !FailedHandshaking(pc) <==> pc.Handshaking?)
  {
    Provenance(proxyProtocol, acts);
    RunHistory(proxyProtocol, acts);
    assert Past(acts, k, After(Init(proxyProtocol), acts).handlers[k], proxyProtocol);
  }

  /** In every interleaving, whatever buffers are reused, for the k-th connection accepted: its backend has
      received a prefix of that connection's header (if asked for) and bytes, and the client a prefix of the bytes
      of the backend dialled for it; nothing at all unless its handshake succeeded and a backend was dialled; and
      a direction read to its end has delivered everything. */
  lemma StreamSafety(proxyProtocol: bool, acts: seq<Action>, k: nat)
    requires IsRun(Init(proxyProtocol), acts) && k < |After(Init(proxyProtocol), acts).handlers|
    ensures k < |Arrivals(acts)|
    ensures var h, a := After(Init(proxyProtocol), acts).handlers[k], Arrivals(acts)[k];
            var up := (if proxyProtocol then a.header else []) + a.source;
            && h.toBackend <= up
            && (h.toBackend != [] || h.toClient != []
                ==> && Serve(k, HandshakeOk) in acts
                    && Serve(k, HandshakeErr) !in acts && Serve(k, HandshakeTimeout) !in acts
                    && exists kind, source :: Serve(k, DialOk(kind, source)) in acts && h.toClient <= source)
            && (Copy(k, Up, ReadEof) in acts ==> h.toBackend == up)
            && (Copy(k, Down, ReadEof) in acts
                ==> exists kind, source :: Serve(k, DialOk(kind, source)) in acts && h.toClient == source)
  {
    var s := After(Init(proxyProtocol), acts);
    Provenance(proxyProtocol, acts);
    RunHistory(proxyProtocol, acts);
    RunReaches(proxyProtocol, acts);
    StreamPrefixes(s, k);
    HandshakeDecides(proxyProtocol, acts, k);
    var h := s.handlers[k];
    assert Past(acts, k, h, proxyProtocol);
    UndialledIsSilent(s, k);
    if Dialled(h.pc) {
      assert Serve(k, DialOk(h.backend.kind, h.down.source)) in acts && h.toClient <= h.down.source;
    }
  }

  lemma UndialledIsSilent(s: State, k: nat)
    requires Reachable(s) && k < |s.handlers|
    ensures var h := s.handlers[k];
            !Dialled(h.pc) ==> h.toBackend == [] && h.toClient == [] && !h.up.complete && !h.down.complete
  {
    ReachableInv(s);
    assert HandlerInv(s.handlers[k], s.heap.memory, s.proxyProtocol);
  }

  // ----- Metrics -----

  function Count(acts: seq<Action>, event: Action -> bool): nat {
    if acts == [] then 0
    else
      var n := |acts| - 1;
      Count(acts[..n], event) + One(event(acts[n]))
  }

  predicate IsAcceptError(a: Action) {
    a.Loop? && a.loop.AcceptError?
  }

  predicate IsRefusal(a: Action) {
    a.Serve? && (a.serve.HandshakeErr? || a.serve.HandshakeTimeout?)
  }

  predicate IsTimeout(a: Action) {
    a.Serve? && a.serve.HandshakeTimeout?
  }

  predicate IsDial(a: Action) {
    a.Serve? && a.serve.DialOk?
  }

  predicate IsDeparture(a: Action) {
    a.Serve? && a.serve.DecOpen?
  }

  function IsDialled(h: Handler): nat {
    One(Dialled(h.pc))
  }

  /** Dialled, but not counted as a success yet. */
  function IsUncounted(h: Handler): nat {
    One(h.pc.SendingHeader? || h.pc.Succeeding?)
  }

  function IsGone(h: Handler): nat {
    One(h.pc.Closing? || h.pc.Finished?)
  }

  /** How many of the events that the metrics are about have happened. */
  datatype Events = Events(acceptErrors: nat, refusals: nat, timeouts: nat, dials: nat, departures: nat)

  function EventsOf(acts: seq<Action>): Events {
    Events(Count(acts, IsAcceptError), Count(acts, IsRefusal), Count(acts, IsTimeout), Count(acts, IsDial),
           Count(acts, IsDeparture))
  }

  predicate EventInv(e: Events, s: State) {
    && e.acceptErrors == s.counters.acceptErrors
                         + One(s.control.accept.Failed? || s.control.accept.Erring? || s.control.accept.Exited?)
    && e.refusals == Sum(s.handlers, IsHandshakeFailure)
    && e.timeouts == s.counters.timeouts
    && e.dials == Sum(s.handlers, IsDialled)
    && e.departures == Sum(s.handlers, IsGone)
  }

  function WithEvent(e: Events, a: Action): Events {
    Events(e.acceptErrors + One(IsAcceptError(a)), e.refusals + One(IsRefusal(a)), e.timeouts + One(IsTimeout(a)),
           e.dials + One(IsDial(a)), e.departures + One(IsDeparture(a)))
  }

  lemma ServeEventWeights(h: Handler, k: nat, v: ServeAction, proxyProtocol: bool)
    requires ServeEnabled(h, v)
    ensures var h', a := ServeHandler(h, v, proxyProtocol), Serve(k, v);
            && IsHandshakeFailure(h') == IsHandshakeFailure(h) + One(IsRefusal(a))
            && IsDialled(h') == IsDialled(h) + One(IsDial(a))
            && IsGone(h') == IsGone(h) + One(IsDeparture(a))
  {
  }

  /** Replacing one handler moves the three sums by that handler's own change. */
  lemma EventSums(hs: seq<Handler>, i: nat, h: Handler)
    requires i < |hs|
    ensures Sum(hs[i := h], IsHandshakeFailure) + IsHandshakeFailure(hs[i])
         == Sum(hs, IsHandshakeFailure) + IsHandshakeFailure(h)
    ensures Sum(hs[i := h], IsDialled) + IsDialled(hs[i]) == Sum(hs, IsDialled) + IsDialled(h)
    ensures Sum(hs[i := h], IsGone) + IsGone(hs[i]) == Sum(hs, IsGone) + IsGone(h)
  {
    SumUpdate(hs, i, h, IsHandshakeFailure);
    SumUpdate(hs, i, h, IsDialled);
    SumUpdate(hs, i, h, IsGone);
  }

  lemma ServeEvents(e: Events, s: State, k: nat, v: ServeAction)
    requires EventInv(e, s) && Enabled(s, Serve(k, v))
    ensures EventInv(WithEvent(e, Serve(k, v)), Apply(s, Serve(k, v)))
  {
    ServeEventWeights(s.handlers[k], k, v, s.proxyProtocol);
    EventSums(s.handlers, k, ServeHandler(s.handlers[k], v, s.proxyProtocol));
  }

  lemma CopyEvents(e: Events, s: State, k: nat, d: Direction, c: CopyAction)
    requires EventInv(e, s) && Enabled(s, Copy(k, d, c))
    ensures EventInv(e, Apply(s, Copy(k, d, c)))
  {
    CopyEffect(s.handlers[k], s.heap, d, c);
    EventSums(s.handlers, k, CopyHandler(s.handlers[k], s.heap, d, c));
  }

  lemma LoopEvents(e: Events, s: State, l: LoopAction)
    requires EventInv(e, s) && ControlInv(s.control) && Enabled(s, Loop(l))
    ensures EventInv(WithEvent(e, Loop(l)), Apply(s, Loop(l)))
  {
    if l.Spawn? {
      SumAppend(s.handlers, s.control.accept.h, IsHandshakeFailure);
      SumAppend(s.handlers, s.control.accept.h, IsDialled);
      SumAppend(s.handlers, s.control.accept.h, IsGone);
    }
  }

  lemma EventStep(e: Events, s: State, a: Action)
    requires EventInv(e, s) && ControlInv(s.control) && Enabled(s, a)
    ensures EventInv(WithEvent(e, a), Apply(s, a))
  {
    match a
    case Loop(l) => LoopEvents(e, s, l);
    case Serve(k, v) => ServeEvents(e, s, k, v);
    case Copy(k, d, c) => CopyEvents(e, s, k, d, c);
    case _ =>
  }

  lemma EventsGrow(acts: seq<Action>)
    requires acts != []
    ensures EventsOf(acts) == WithEvent(EventsOf(acts[..|acts| - 1]), acts[|acts| - 1])
  {
  }

  lemma EventsKept(proxyProtocol: bool, acts: seq<Action>, a: Action)
    requires IsRun(Init(proxyProtocol), acts) && Enabled(After(Init(proxyProtocol), acts), a)
    requires EventInv(EventsOf(acts), After(Init(proxyProtocol), acts))
    ensures EventInv(WithEvent(EventsOf(acts), a), Apply(After(Init(proxyProtocol), acts), a))
  {
    RunReaches(proxyProtocol, acts);
    ReachableControl(After(Init(proxyProtocol), acts));
    EventStep(EventsOf(acts), After(Init(proxyProtocol), acts), a);
  }

  lemma {:induction false} RunEvents(proxyProtocol: bool, acts: seq<Action>)
    requires IsRun(Init(proxyProtocol), acts)
    ensures EventInv(EventsOf(acts), After(Init(proxyProtocol), acts))
    decreases |acts|
  {
    if acts != [] {
      var n := |acts| - 1;
      RunLast(Init(proxyProtocol), acts);
      RunEvents(proxyProtocol, acts[..n]);
      EventsKept(proxyProtocol, acts[..n], acts[n]);
      EventsGrow(acts);
    }
  }

  lemma {:induction false} SumsSplit(hs: seq<Handler>)
    ensures |hs| == Sum(hs, IsOpen) + Sum(hs, IsGone)
    ensures Sum(hs, IsDialled) == Sum(hs, IsSuccess) + Sum(hs, IsUncounted) + Sum(hs, IsHeaderFailure)
  {
    if hs != [] {
      SumsSplit(hs[1..]);
    }
  }

  /** The metrics against the events they are to count; the terms beside them are events about to be counted. */
  predicate Metered(s: State, e: Events, arrived: nat) {
    var n, hs, accept := s.counters, s.handlers, s.control.accept;
    && n.total + One(accept.Accepted? || accept.CountedOpen?) == arrived
    && n.open + One(accept.Accepted?) + e.departures == arrived
    && n.errors + Sum(hs, IsMidFailure) + One(accept.Failed? || accept.Erring? || accept.Exited?)
       == e.acceptErrors + e.refusals
    && n.timeouts == e.timeouts
    && n.success + Sum(hs, IsUncounted) + Sum(hs, IsHeaderFailure) == e.dials
  }

  lemma MetricsOf(s: State, e: Events, arrived: nat)
    requires EventInv(e, s) && arrived == |s.handlers| + One(Holding(s.control.accept))
    requires CountersMatch(s.control, s.counters, |s.handlers|, TallyOf(s.handlers))
    ensures Metered(s, e, arrived)
  {
    SumsSplit(s.handlers);
    SumPartition(s.handlers);
  }

  lemma ReachableMetrics(s: State, e: Events, arrived: nat)
    requires Reachable(s) && EventInv(e, s) && arrived == |s.handlers| + One(Holding(s.control.accept))
    ensures Metered(s, e, arrived)
  {
    ReachableInv(s);
    MetricsOf(s, e, arrived);
  }

  lemma ArrivalCount(proxyProtocol: bool, acts: seq<Action>)
    requires IsRun(Init(proxyProtocol), acts)
    ensures var s := After(Init(proxyProtocol), acts);
            |Arrivals(acts)| == |s.handlers| + One(Holding(s.control.accept))
  {
    Provenance(proxyProtocol, acts);
  }

  /** Over every run the metrics count what happened: total and open the connections accepted and not yet left,
      errors the failures of Accept (but the one that found the flag set) and of handshakes, timeouts the
      handshakes that timed out, and success the backends dialled whose header, if any, was written. */
  lemma MetricsHistory(proxyProtocol: bool, acts: seq<Action>)
    requires IsRun(Init(proxyProtocol), acts)
    ensures Metered(After(Init(proxyProtocol), acts), EventsOf(acts), |Arrivals(acts)|)
  {
    ArrivalCount(proxyProtocol, acts);
    RunEvents(proxyProtocol, acts);
    RunReaches(proxyProtocol, acts);
    ReachableMetrics(After(Init(proxyProtocol), acts), EventsOf(acts), |Arrivals(acts)|);
  }

  // ----- Shutdown -----

  predicate IsShut(a: Action) {
    a.Shut?
  }

  predicate ShutInv(steps: nat, c: Control) {
    && c.shut == (if steps == 1 then WillStore else if steps == 2 then WillClose
                  else if steps == 3 then WillDone else Idle)
    && (c.quit <==> steps >= 2) && (c.listening <==> steps < 3) && (c.released <==> steps >= 4)
  }

  lemma ShutStep(steps: nat, s: State, a: Action)
    requires ShutInv(steps, s.control) && Enabled(s, a)
    ensures ShutInv(steps + One(a.Shut?), Apply(s, a).control)
  {
  }

  /** The flag is set from the second action of the first Shutdown call on, the listener closed from the third,
      the wait group released from the fourth, and by nothing else; the accept loop has ended only if the flag
      was set. */
  lemma {:induction false} ShutdownHistory(proxyProtocol: bool, acts: seq<Action>)
    requires IsRun(Init(proxyProtocol), acts)
    ensures var c, steps := After(Init(proxyProtocol), acts).control, Count(acts, IsShut);
            && (c.quit <==> steps >= 2) && (c.listening <==> steps < 3) && (c.released <==> steps >= 4)
            && (c.accept.Exited? ==> steps >= 2)
            && ShutInv(steps, c)
    decreases |acts|
  {
    RunReaches(proxyProtocol, acts);
    ReachableControl(After(Init(proxyProtocol), acts));
    if acts != [] {
      var n := |acts| - 1;
      RunLast(Init(proxyProtocol), acts);
      ShutdownHistory(proxyProtocol, acts[..n]);
      ShutStep(Count(acts[..n], IsShut), After(Init(proxyProtocol), acts[..n]), acts[n]);
    }
  }
}
