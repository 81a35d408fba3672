/**
 What the proxy must do and can do.  Every run after the listener was closed has a bounded amount of work left;
 when no goroutine can go on, everything has been torn down; a direction can still deliver its whole source
 exactly under a condition on its two halves; and no reachable state is a dead end.
 */
module ProxyProgress {
  import opened ProxyMachine
  import opened ProxyInvariant
  import opened ProxyTheorems

  // ----- Runs -----

  lemma RunCons(s: State, a: Action, rest: seq<Action>)
    requires Enabled(s, a) && IsRun(Apply(s, a), rest)
    ensures IsRun(s, [a] + rest) && After(s, [a] + rest) == After(Apply(s, a), rest)
  {
    assert ([a] + rest)[1..] == rest;
  }

  lemma {:induction false} RunConcat(s: State, left: seq<Action>, right: seq<Action>)
    requires IsRun(s, left) && IsRun(After(s, left), right)
    ensures IsRun(s, left + right) && After(s, left + right) == After(After(s, left), right)
    decreases |left|
  {
    if left == [] {
      assert left + right == right;
    } else {
      RunConcat(Apply(s, left[0]), left[1..], right);
      assert (left + right)[1..] == left[1..] + right;
    }
  }

  // ----- Bounded work -----

  function StageRank(stage: Stage): nat {
    match stage
    case Waiting => 6
    case Taking => 6
    case Reading(_) => 5
    case Writing(_) => 6
    case Stopped(_) => 4
    case SourceShut(_) => 3
    case SinkShut(_) => 2
    case Returned => 1
    case Done => 0
  }

  /** At most how many actions a copier has left: each byte still to be read may need a read and a write. */
  function PumpRank(p: Pump): nat {
    StageRank(p.stage) + if p.pos <= |p.source| then 2 * (|p.source| - p.pos) else 0
  }

  function PcRank(pc: Pc): nat {
    match pc
    case Handshaking => 9
    case Dialing => 8
    case SendingHeader => 7
    case Succeeding => 6
    case Adding => 5
    case Fusing => 4
    case FuseReturned => 3
    case HandshakeFailed => 3
    case Leaving(_) => 2
    case Closing(_) => 1
    case Finished(_) => 0
  }

  /** At most how many actions a handler and its copiers have left, leaving aside what a backend yet to be
      dialled will offer. */
  function HandlerRank(h: Handler): nat {
    PcRank(h.pc) + PumpRank(h.up) + PumpRank(h.down)
  }

  function Rank(s: State): nat {
    Sum(s.handlers, HandlerRank) + if Holding(s.control.accept) then HandlerRank(s.control.accept.h) else 0
  }

  /** The actions of handlers and copiers in a run. */
  function Work(acts: seq<Action>): nat {
    if acts == [] then 0 else One(acts[0].Serve? || acts[0].Copy?) + Work(acts[1..])
  }

  function OfferedBy(a: Action): nat {
    if a.Serve? && a.serve.DialOk? then |a.serve.source| else 0
  }

  /** The bytes offered by the backends that a run dials. */
  function Offered(acts: seq<Action>): nat {
    if acts == [] then 0 else OfferedBy(acts[0]) + Offered(acts[1..])
  }

  function BroughtBy(a: Action): nat {
    if a.Loop? && a.loop.AcceptConn? then HandlerRank(NewHandler(a.loop.kind, a.loop.header, a.loop.source)) else 0
  }

  /** The work brought by the connections that a run accepts. */
  function Brought(acts: seq<Action>): nat {
    if acts == [] then 0 else BroughtBy(acts[0]) + Brought(acts[1..])
  }

  lemma PumpRankDrops(p: Pump, heap: Heap, a: CopyAction)
    requires PumpInv(p, heap.memory) && PumpEnabled(p, heap, a)
    ensures PumpRank(CopyPump(p, heap, a)) < PumpRank(p)
  {
  }

  lemma CopyRankDrops(h: Handler, heap: Heap, d: Direction, a: CopyAction)
    requires PumpInv(h.Copier(d), heap.memory) && CopyEnabled(h, heap, d, a)
    ensures HandlerRank(CopyHandler(h, heap, d, a)) < HandlerRank(h)
  {
    PumpRankDrops(h.Copier(d), heap, a);
    CopyEffect(h, heap, d, a);
  }

  lemma ServeRankDrops(h: Handler, a: ServeAction, proxyProtocol: bool)
    requires ServeEnabled(h, a) && (h.pc.Adding? ==> h.up.stage.Waiting? && h.down.stage.Waiting?)
    ensures HandlerRank(ServeHandler(h, a, proxyProtocol))
         <  HandlerRank(h) + 2 * (if a.DialOk? then |a.source| else 0)
  {
  }

  lemma SumDrops(hs: seq<Handler>, i: nat, h: Handler, extra: nat)
    requires i < |hs| && HandlerRank(h) < HandlerRank(hs[i]) + extra
    ensures Sum(hs[i := h], HandlerRank) < Sum(hs, HandlerRank) + extra
  {
    SumUpdate(hs, i, h, HandlerRank);
  }

  lemma ServeRankStep(s: State, i: nat, v: ServeAction)
    requires Inv(s) && Enabled(s, Serve(i, v))
    ensures Rank(Apply(s, Serve(i, v))) < Rank(s) + 2 * OfferedBy(Serve(i, v))
  {
    assert StageInv(s.handlers[i]) by {
      assert HandlerInv(s.handlers[i], s.heap.memory, s.proxyProtocol);
    }
    ServeRankDrops(s.handlers[i], v, s.proxyProtocol);
    SumDrops(s.handlers, i, ServeHandler(s.handlers[i], v, s.proxyProtocol), 2 * OfferedBy(Serve(i, v)));
  }

  lemma CopyRankStep(s: State, i: nat, d: Direction, c: CopyAction)
    requires Inv(s) && Enabled(s, Copy(i, d, c))
    ensures Rank(Apply(s, Copy(i, d, c))) < Rank(s)
  {
    assert PumpInv(s.handlers[i].Copier(d), s.heap.memory) by {
      assert HandlerInv(s.handlers[i], s.heap.memory, s.proxyProtocol);
    }
    CopyRankDrops(s.handlers[i], s.heap, d, c);
    SumDrops(s.handlers, i, CopyHandler(s.handlers[i], s.heap, d, c), 0);
  }

  lemma LoopRankStep(s: State, l: LoopAction)
    requires Enabled(s, Loop(l))
    ensures Rank(Apply(s, Loop(l))) <= Rank(s) + BroughtBy(Loop(l))
  {
    if l.Spawn? {
      SumAppend(s.handlers, s.control.accept.h, HandlerRank);
    }
  }

  /** No action adds work, except by accepting a connection or dialling a backend that has something to say; and
      every action of a handler or copier does some. */
  lemma RankStep(s: State, a: Action)
    requires Inv(s) && Enabled(s, a)
    ensures Rank(Apply(s, a)) + One(a.Serve? || a.Copy?) <= Rank(s) + BroughtBy(a) + 2 * OfferedBy(a)
  {
    match a
    case Serve(i, v) => ServeRankStep(s, i, v);
    case Copy(i, d, c) => CopyRankStep(s, i, d, c);
    case Loop(l) => LoopRankStep(s, l);
    case _ =>
  }

  /** Along every run, whatever the scheduler and the environment do: the work done and the work left are at most
      what there was, plus what accepted connections and dialled backends brought. */
  lemma {:induction false} WorkBounded(s: State, acts: seq<Action>)
    requires Inv(s) && IsRun(s, acts)
    ensures Work(acts) + Rank(After(s, acts)) <= Rank(s) + Brought(acts) + 2 * Offered(acts)
    decreases |acts|
  {
    if acts != [] {
      RankStep(s, acts[0]);
      InvKept(s, acts[0]);
      WorkBounded(Apply(s, acts[0]), acts[1..]);
    }
  }

  lemma ClosedStep(s: State, a: Action)
    requires !s.control.listening && Enabled(s, a)
    ensures !Apply(s, a).control.listening && BroughtBy(a) == 0
  {
  }

  lemma {:induction false} NothingBrought(s: State, acts: seq<Action>)
    requires !s.control.listening && IsRun(s, acts)
    ensures Brought(acts) == 0
    decreases |acts|
  {
    if acts != [] {
      ClosedStep(s, acts[0]);
      NothingBrought(Apply(s, acts[0]), acts[1..]);
    }
  }

  /** Once the listener is closed, no run contains more actions of handlers and copiers than the state's rank,
      plus two for each byte that a backend dialled from then on has to offer. */
  lemma DrainBounded(s: State, acts: seq<Action>)
    requires Reachable(s) && !s.control.listening && IsRun(s, acts)
    ensures Work(acts) <= Rank(s) + 2 * Offered(acts)
  {
    ReachableInv(s);
    WorkBounded(s, acts);
    NothingBrought(s, acts);
  }

  // ----- No goroutine is stuck -----

  /** A buffer that is nowhere in use. */
  lemma FreshBuffer(memory: map<nat, seq<Byte>>) returns (b: nat)
    ensures b !in memory
  {
    b := Above(memory.Keys);
  }

  lemma {:induction false} Above(ids: set<nat>) returns (b: nat)
    ensures forall id :: id in ids ==> id < b
  {
    if ids == {} {
      b := 0;
    } else {
      var id :| id in ids;
      var rest := Above(ids - {id});
      b := if rest <= id then id + 1 else rest;
      forall other | other in ids
        ensures other < b
      {
        assert other == id || other in ids - {id};
      }
    }
  }

  /** Every call on an open connection is answered: reads and writes fail only on halves that are shut. */
  predicate GentleCopy(h: Handler, d: Direction, a: CopyAction) {
    (a.ReadError? ==> !h.Source(d).rd) && (a.WriteError? ==> !h.Sink(d).wr)
  }

  predicate GentleServe(a: ServeAction) {
    !a.HandshakeErr? && !a.HandshakeTimeout? && !a.DialErr? && !a.HeaderErr?
  }

  /** An action in which nothing fails that could have succeeded. */
  predicate Gentle(s: State, a: Action)
    requires Enabled(s, a)
  {
    (a.Serve? ==> GentleServe(a.serve)) && (a.Copy? ==> GentleCopy(s.handlers[a.i], a.d, a.copy))
  }

  predicate IsGentleRun(s: State, acts: seq<Action>)
    decreases |acts|
  {
    acts == [] || (Enabled(s, acts[0]) && Gentle(s, acts[0]) && IsGentleRun(Apply(s, acts[0]), acts[1..]))
  }

  /** A copier that has not finished can go on, without any call on an open half failing. */
  lemma NextCopy(h: Handler, heap: Heap, d: Direction) returns (a: CopyAction)
    requires h.pc.Fusing? && PumpInv(h.Copier(d), heap.memory)
    requires !h.Copier(d).stage.Waiting? && !h.Copier(d).stage.Done?
    ensures CopyEnabled(h, heap, d, a) && GentleCopy(h, d, a)
  {
    var p := h.Copier(d);
    match p.stage
    case Taking =>
      var b := FreshBuffer(heap.memory);
      a := Take(b);
    case Reading(_) => a := if !h.Source(d).rd then ReadError else if p.pos < |p.source| then Read(1) else ReadEof;
    case Writing(_) => a := if h.Sink(d).wr then Write else WriteError(0);
    case Stopped(_) => a := ShutSource;
    case SourceShut(_) => a := ShutSink;
    case SinkShut(_) => a := Put;
    case Returned => a := SignalDone;
  }

  function NextServe(pc: Pc): ServeAction {
    match pc
    case Handshaking => HandshakeOk
    case HandshakeFailed => IncHandshakeError
    case Dialing => DialOk(Tcp, [])
    case SendingHeader => HeaderOk
    case Succeeding => IncSuccess
    case Adding => AddWait
    case Fusing => FuseReturns
    case FuseReturned => DoneWait
    case Leaving(_) => DecOpen
    case _ => CloseClient
  }

  /** So can a handler, itself or through one of its copiers. */
  lemma NextAction(s: State, i: nat) returns (a: Action)
    requires Inv(s) && i < |s.handlers| && !s.handlers[i].pc.Finished?
    ensures Enabled(s, a) && Gentle(s, a) && (a.Serve? || a.Copy?) && OfferedBy(a) == 0
  {
    var h := s.handlers[i];
    assert HandlerInv(h, s.heap.memory, s.proxyProtocol);
    if h.pc.Fusing? && !h.up.stage.Done? {
      var c := NextCopy(h, s.heap, Up);
      a := Copy(i, Up, c);
    } else if h.pc.Fusing? && !h.down.stage.Done? {
      var c := NextCopy(h, s.heap, Down);
      a := Copy(i, Down, c);
    } else {
      a := Serve(i, NextServe(h.pc));
    }
  }

  /** Every handler and every copier has come to a halt, even if all calls on open halves are answered. */
  ghost predicate Quiescent(s: State) {
    forall a: Action :: Enabled(s, a) && Gentle(s, a) ==> !a.Serve? && !a.Copy?
  }

  lemma {:induction false} NothingFused(hs: seq<Handler>)
    requires forall i :: 0 <= i < |hs| ==> hs[i].pc.Finished?
    ensures Sum(hs, IsFused) == 0 && Sum(hs, IsOpen) == 0
  {
    if hs != [] {
      NothingFused(hs[1..]);
    }
  }

  /** Whatever happened before: handlers and copiers come to a halt only when every handler has finished; no
      buffer is then held, no connection counted as open but one the accept loop is holding, and Wait waits for
      nothing but Shutdown. */
  lemma HaltedIsDrained(s: State)
    requires Reachable(s) && Quiescent(s)
    ensures forall i :: 0 <= i < |s.handlers| ==> s.handlers[i].pc.Finished?
    ensures forall i, d, b :: !Holds(s.handlers, i, d, b)
    ensures s.counters.open == One(s.control.accept.CountedOpen? || s.control.accept.CountedTotal?)
    ensures s.counters.wait == One(!s.control.released)
  {
    ReachableInv(s);
    forall i | 0 <= i < |s.handlers|
      ensures s.handlers[i].pc.Finished?
    {
      if !s.handlers[i].pc.Finished? {
        var a := NextAction(s, i);
      }
    }
    NothingFused(s.handlers);
    forall i, d, b | 0 <= i < |s.handlers|
      ensures !Holds(s.handlers, i, d, b)
    {
      assert HandlerInv(s.handlers[i], s.heap.memory, s.proxyProtocol);
    }
  }

  function StepsToRelease(c: Control): nat {
    if c.released then 0
    else match c.shut case Idle => 4 case WillStore => 3 case WillClose => 2 case WillDone => 1
  }

  lemma ShutKept(s: State)
    requires Inv(s) && !s.control.released
    ensures var t := Apply(s, Shut);
            Inv(t) && Rank(t) == Rank(s) && StepsToRelease(t.control) < StepsToRelease(s.control)
  {
    InvKept(s, Shut);
  }

  /** No reachable state is a dead end: without any call failing that could have succeeded, the proxy can be shut
      down and drained. */
  lemma {:induction false} CanDrain(s: State) returns (acts: seq<Action>)
    requires Inv(s)
    ensures IsRun(s, acts) && IsGentleRun(s, acts) && Enabled(After(s, acts), WaitReturns)
    ensures forall a :: a in acts ==> a.Serve? || a.Copy? || (a.Shut? && !s.control.released)
    decreases Rank(s), StepsToRelease(s.control)
  {
    if i :| 0 <= i < |s.handlers| && !s.handlers[i].pc.Finished? {
      var a := NextAction(s, i);
      RankStep(s, a);
      InvKept(s, a);
      var rest := CanDrain(Apply(s, a));
      acts := GentleCons(s, a, rest);
    } else if !s.control.released {
      ShutKept(s);
      var rest := CanDrain(Apply(s, Shut));
      acts := GentleCons(s, Shut, rest);
    } else {
      NothingFused(s.handlers);
      acts := [];
    }
  }

  lemma GentleCons(s: State, a: Action, rest: seq<Action>) returns (acts: seq<Action>)
    requires Enabled(s, a) && Gentle(s, a) && IsRun(Apply(s, a), rest) && IsGentleRun(Apply(s, a), rest)
    ensures IsRun(s, acts) && IsGentleRun(s, acts) && After(s, acts) == After(Apply(s, a), rest)
    ensures acts == [a] + rest
  {
    acts := [a] + rest;
    RunCons(s, a, rest);
    assert acts[1..] == rest;
  }

  // ----- Delivery -----

  lemma CopyStepFrame(s: State, i: nat, d: Direction, a: CopyAction)
    requires Inv(s) && Enabled(s, Copy(i, d, a))
    ensures var t := Apply(s, Copy(i, d, a));
            && Inv(t) && i < |t.handlers| && t.handlers[i].pc.Fusing?
            && t.handlers[i].Copier(d) == CopyPump(s.handlers[i].Copier(d), s.heap, a)
  {
    InvKept(s, Copy(i, d, a));
    CopyEffect(s.handlers[i], s.heap, d, a);
  }

  /** Ready to read, with both halves open. */
  predicate Flowing(s: State, i: nat, d: Direction) {
    && i < |s.handlers| && s.handlers[i].pc.Fusing?
    && s.handlers[i].Copier(d).stage.Reading? && s.handlers[i].Source(d).rd && s.handlers[i].Sink(d).wr
  }

  /** A copier that moves data keeps its halves. */
  lemma FlowStep(s: State, i: nat, d: Direction, a: CopyAction)
    requires Inv(s) && Enabled(s, Copy(i, d, a)) && !a.ShutSource? && !a.ShutSink?
    ensures var t := Apply(s, Copy(i, d, a));
            && Inv(t) && i < |t.handlers| && t.handlers[i].pc.Fusing?
            && t.handlers[i].Copier(d) == CopyPump(s.handlers[i].Copier(d), s.heap, a)
            && t.handlers[i].Source(d) == s.handlers[i].Source(d) && t.handlers[i].Sink(d) == s.handlers[i].Sink(d)
  {
    CopyStepFrame(s, i, d, a);
    CopyHalves(s.handlers[i], s.heap, d, a);
  }

  /** One chunk: a read that fills the buffer as far as the source goes, and the write. */
  lemma CopyChunk(s: State, i: nat, d: Direction) returns (n: nat)
    requires Inv(s) && Flowing(s, i, d) && s.handlers[i].Copier(d).pos < |s.handlers[i].Copier(d).source|
    ensures n > 0 && Enabled(s, Copy(i, d, Read(n)))
    ensures var t := Apply(s, Copy(i, d, Read(n)));
            && Enabled(t, Copy(i, d, Write))
            && var u := Apply(t, Copy(i, d, Write));
               && Inv(u) && Flowing(u, i, d)
               && u.handlers[i].Copier(d).source == s.handlers[i].Copier(d).source
               && u.handlers[i].Copier(d).pos == s.handlers[i].Copier(d).pos + n <= |s.handlers[i].Copier(d).source|
  {
    var p := s.handlers[i].Copier(d);
    n := if |p.source| - p.pos < BUFFER_SIZE then |p.source| - p.pos else BUFFER_SIZE;
    FlowStep(s, i, d, Read(n));
    FlowStep(Apply(s, Copy(i, d, Read(n))), i, d, Write);
  }

  /** A copier whose halves are open can, on its own, deliver the whole of its source. */
  lemma {:induction false} CanDeliver(s: State, i: nat, d: Direction) returns (acts: seq<Action>)
    requires Inv(s) && Flowing(s, i, d)
    ensures IsRun(s, acts)
    ensures var hs := After(s, acts).handlers; i < |hs| && hs[i].Copier(d).complete
    decreases |s.handlers[i].Copier(d).source| - s.handlers[i].Copier(d).pos
  {
    var p := s.handlers[i].Copier(d);
    assert HandlerInv(s.handlers[i], s.heap.memory, s.proxyProtocol);
    if p.pos == |p.source| {
      RunCons(s, Copy(i, d, ReadEof), []);
      acts := [Copy(i, d, ReadEof)] + [];
    } else {
      var n := CopyChunk(s, i, d);
      var t := Apply(s, Copy(i, d, Read(n)));
      var rest := CanDeliver(Apply(t, Copy(i, d, Write)), i, d);
      RunCons(t, Copy(i, d, Write), rest);
      RunCons(s, Copy(i, d, Read(n)), [Copy(i, d, Write)] + rest);
      acts := [Copy(i, d, Read(n))] + ([Copy(i, d, Write)] + rest);
    }
  }

  /** Still to take its buffer, reading or writing. */
  predicate Active(p: Pump) {
    p.stage.Taking? || p.stage.Reading? || p.stage.Writing?
  }

  /** Some run delivers the whole of the source. */
  ghost predicate CanComplete(s: State, i: nat, d: Direction) {
    exists acts: seq<Action> :: IsRun(s, acts) && Completed(After(s, acts), i, d)
  }

  predicate Completed(s: State, i: nat, d: Direction) {
    i < |s.handlers| && s.handlers[i].Copier(d).complete
  }

  /** An active copier gets ready to read, if its sink is open or it has nothing to write. */
  lemma GetReady(s: State, i: nat, d: Direction) returns (acts: seq<Action>)
    requires Inv(s) && i < |s.handlers| && s.handlers[i].pc.Fusing? && Active(s.handlers[i].Copier(d))
    requires s.handlers[i].Sink(d).wr || !s.handlers[i].Copier(d).stage.Writing?
    ensures IsRun(s, acts)
    ensures var t := After(s, acts);
            && Inv(t) && i < |t.handlers| && t.handlers[i].pc.Fusing? && t.handlers[i].Copier(d).stage.Reading?
            && t.handlers[i].Source(d) == s.handlers[i].Source(d) && t.handlers[i].Sink(d) == s.handlers[i].Sink(d)
            && t.handlers[i].Copier(d).source == s.handlers[i].Copier(d).source
            && t.handlers[i].Copier(d).sent >= s.handlers[i].Copier(d).sent
  {
    assert HandlerInv(s.handlers[i], s.heap.memory, s.proxyProtocol);
    if s.handlers[i].Copier(d).stage.Reading? {
      acts := [];
    } else {
      var b := FreshBuffer(s.heap.memory);
      var a := if s.handlers[i].Copier(d).stage.Taking? then Take(b) else Write;
      FlowStep(s, i, d, a);
      RunCons(s, Copy(i, d, a), []);
      acts := [Copy(i, d, a)] + [];
    }
  }

  /** From there it can deliver everything: with both halves open, or with its source open and nothing left. */
  lemma ReadyCanComplete(s: State, i: nat, d: Direction) returns (acts: seq<Action>)
    requires Inv(s) && i < |s.handlers| && s.handlers[i].pc.Fusing? && s.handlers[i].Copier(d).stage.Reading?
    requires s.handlers[i].Source(d).rd
    requires s.handlers[i].Sink(d).wr || s.handlers[i].Copier(d).sent >= |s.handlers[i].Copier(d).source|
    ensures IsRun(s, acts) && Completed(After(s, acts), i, d)
  {
    if s.handlers[i].Sink(d).wr {
      acts := CanDeliver(s, i, d);
    } else {
      assert HandlerInv(s.handlers[i], s.heap.memory, s.proxyProtocol);
      FlowStep(s, i, d, ReadEof);
      RunCons(s, Copy(i, d, ReadEof), []);
      acts := [Copy(i, d, ReadEof)] + [];
    }
  }

  // ----- Shut halves -----

  /** The fuse has been started. */
  predicate Begun(pc: Pc) {
    pc.Fusing? || pc.FuseReturned? || Ended(pc)
  }

  function Output(h: Handler, d: Direction): seq<Byte> {
    if d == Up then h.toBackend else h.toClient
  }

  /** Halves stay shut; through a shut source nothing is read any more and its end is never seen, and through a
      shut sink nothing is written any more. */
  predicate StaysShut(h: Handler, h': Handler, d: Direction) {
    && Begun(h'.pc) && h'.Copier(d).source == h.Copier(d).source
    && (!h.Source(d).rd ==>
          !h'.Source(d).rd && h'.Copier(d).pos == h.Copier(d).pos && h'.Copier(d).complete == h.Copier(d).complete)
    && (!h.Sink(d).wr ==>
          !h'.Sink(d).wr && h'.Copier(d).sent == h.Copier(d).sent && Output(h', d) == Output(h, d))
  }

  lemma CopyStaysShut(h: Handler, heap: Heap, d: Direction, a: CopyAction, e: Direction)
    requires CopyEnabled(h, heap, d, a)
    ensures StaysShut(h, CopyHandler(h, heap, d, a), e)
  {
    CopyEffect(h, heap, d, a);
    CopyHalves(h, heap, d, a);
    var out := CopyOutput(h.Copier(d), heap, a);
    if !h.Sink(d).wr {
      assert out == [];
      assert Output(h, d) + out == Output(h, d);
    }
  }

  lemma ServeStaysShut(h: Handler, a: ServeAction, proxyProtocol: bool, e: Direction)
    requires ServeEnabled(h, a) && Begun(h.pc)
    ensures StaysShut(h, ServeHandler(h, a, proxyProtocol), e)
  {
  }

  lemma StepStaysShut(s: State, a: Action, i: nat, d: Direction)
    requires Enabled(s, a) && i < |s.handlers| && Begun(s.handlers[i].pc)
    ensures i < |Apply(s, a).handlers| && StaysShut(s.handlers[i], Apply(s, a).handlers[i], d)
  {
    match a
    case Serve(j, v) =>
      if j == i {
        ServeStaysShut(s.handlers[i], v, s.proxyProtocol, d);
      }
    case Copy(j, e, c) =>
      if j == i {
        CopyStaysShut(s.handlers[i], s.heap, e, c, d);
      }
    case _ =>
  }

  /** Along every run of the whole proxy. */
  lemma {:induction false} RunStaysShut(s: State, acts: seq<Action>, i: nat, d: Direction)
    requires IsRun(s, acts) && i < |s.handlers| && Begun(s.handlers[i].pc)
    ensures i < |After(s, acts).handlers| && StaysShut(s.handlers[i], After(s, acts).handlers[i], d)
    decreases |acts|
  {
    if acts != [] {
      StepStaysShut(s, acts[0], i, d);
      RunStaysShut(Apply(s, acts[0]), acts[1..], i, d);
    }
  }

  lemma CopierInv(s: State, i: nat, d: Direction)
    requires Inv(s) && i < |s.handlers|
    ensures PumpInv(s.handlers[i].Copier(d), s.heap.memory)
  {
    assert HandlerInv(s.handlers[i], s.heap.memory, s.proxyProtocol);
  }

  predicate CanFlow(h: Handler, d: Direction) {
    h.Source(d).rd && (h.Sink(d).wr || h.Copier(d).sent == |h.Copier(d).source|)
  }

  lemma FlowCompletes(s: State, i: nat, d: Direction) returns (acts: seq<Action>)
    requires Inv(s) && i < |s.handlers| && s.handlers[i].pc.Fusing? && Active(s.handlers[i].Copier(d))
    requires CanFlow(s.handlers[i], d)
    ensures IsRun(s, acts) && Completed(After(s, acts), i, d)
  {
    CopierInv(s, i, d);
    var first := GetReady(s, i, d);
    var rest := ReadyCanComplete(After(s, first), i, d);
    RunConcat(s, first, rest);
    acts := first + rest;
  }

  lemma CutOffNeverCompletes(s: State, i: nat, d: Direction, acts: seq<Action>)
    requires Inv(s) && i < |s.handlers| && s.handlers[i].pc.Fusing? && Active(s.handlers[i].Copier(d))
    requires !CanFlow(s.handlers[i], d) && IsRun(s, acts)
    ensures !Completed(After(s, acts), i, d)
  {
    RunStaysShut(s, acts, i, d);
    RunKeepsInv(s, acts);
    CopierInv(s, i, d);
    CopierInv(After(s, acts), i, d);
  }

  /** A direction that is still copying can deliver its whole source in some run exactly if its source can be read
      and either its sink can be written or everything has been written already. */
  lemma DeliveryExact(s: State, i: nat, d: Direction)
    requires Inv(s) && i < |s.handlers| && s.handlers[i].pc.Fusing? && Active(s.handlers[i].Copier(d))
    ensures CanComplete(s, i, d) <==> CanFlow(s.handlers[i], d)
  {
    if CanFlow(s.handlers[i], d) {
      var acts := FlowCompletes(s, i, d);
    } else {
      forall acts: seq<Action> | IsRun(s, acts)
        ensures !Completed(After(s, acts), i, d)
      {
        CutOffNeverCompletes(s, i, d, acts);
      }
    }
  }

  /** One direction has ended while the other is still copying and has something left to write: the other can
      still deliver everything exactly if the ended source can be half-closed and the ended sink was. */
  lemma HalfCloseDelivery(s: State, i: nat, d: Direction, e: Direction)
    requires Reachable(s) && i < |s.handlers| && s.handlers[i].pc.Fusing? && d != e
    requires HasShutSink(s.handlers[i].Copier(d)) && Active(s.handlers[i].Copier(e))
    requires s.handlers[i].Copier(e).sent < |s.handlers[i].Copier(e).source|
    ensures var h := s.handlers[i];
            CanComplete(s, i, e) <==> HalfCloses(h.Source(d).kind) && !h.Sink(d).kind.Other?
  {
    ReachableInv(s);
    DeliveryExact(s, i, e);
    HalfClose(s, i, d, e);
  }
}
