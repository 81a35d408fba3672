/**
 The proxy as a concurrent protocol.  The accept loop, one handler per connection, two copiers per handler,
 Shutdown and Wait run side by side; each of their atomic actions is one `Action`, and `Apply` says what
 it does to the shared state.  A run is any sequence of enabled actions, so every interleaving is a run.

 What the environment decides (which bytes arrive, when a call fails, which buffer the pool hands out) is a
 parameter of the action.
 */
module ProxyMachine {

  type Byte = bv8

  const BUFFER_SIZE := 0x1_0000

  // ----- Connections -----

  datatype Kind = Tcp | UnixSocket | Tls | Other

  /** A connection and which of its halves this process has not shut. */
  datatype Conn = Conn(kind: Kind, rd: bool, wr: bool)

  function Opened(kind: Kind): Conn {
    Conn(kind, true, true)
  }

  function Closed(c: Conn): Conn {
    Conn(c.kind, false, false)
  }

  /** What a copier does to the connection it read from. */
  function ShutAsSource(c: Conn): Conn {
    match c.kind
    case Tcp => c.(rd := false)
    case UnixSocket => c.(rd := false)
    case Tls => Closed(c)
    case Other => Closed(c)
  }

  /** What a copier does to the connection it wrote to. */
  function ShutAsSink(c: Conn): Conn {
    match c.kind
    case Tcp => c.(wr := false)
    case Tls => c.(wr := false)
    case UnixSocket => c.(wr := false)
    case Other => Closed(c)
  }

  // ----- Copiers -----

  /** `Up` copies from the client to the backend, `Down` from the backend to the client. */
  datatype Direction = Up | Down

  /** Where a copier stands; from taking its buffer until returning it, it names the buffer it holds. */
  datatype Stage =
    | Waiting
    | Taking
    | Reading(buf: nat)
    | Writing(buf: nat)
    | Stopped(buf: nat)
    | SourceShut(buf: nat)
    | SinkShut(buf: nat)
    | Returned
    | Done

  /** `source` is everything its source will ever deliver, `pos` how much has been read, `sent` how much has
      been written on; `complete` records that the source was read to its end. */
  datatype Pump = Pump(stage: Stage, source: seq<Byte>, pos: nat, sent: nat, complete: bool)

  predicate HasShutSource(p: Pump) {
    p.stage.SourceShut? || HasShutSink(p)
  }

  predicate HasShutSink(p: Pump) {
    p.stage.SinkShut? || p.stage.Returned? || p.stage.Done?
  }

  predicate HoldsBuffer(p: Pump) {
    p.stage.Reading? || p.stage.Writing? || p.stage.Stopped? || p.stage.SourceShut? || p.stage.SinkShut?
  }

  // ----- Handlers -----

  datatype Outcome = FailedHandshake | FailedDial | FailedHeader | Served

  /** The program counter of a handler; each value names what it does next. */
  datatype Pc =
    | Handshaking
    | HandshakeFailed
    | Dialing
    | SendingHeader
    | Succeeding
    | Adding
    | Fusing
    | FuseReturned
    | Leaving(outcome: Outcome)
    | Closing(outcome: Outcome)
    | Finished(outcome: Outcome)

  predicate Ended(pc: Pc) {
    pc.Leaving? || pc.Closing? || pc.Finished?
  }

  datatype Handler = Handler(
    pc: Pc,
    client: Conn,
    backend: Conn,
    header: seq<Byte>,
    toBackend: seq<Byte>,
    toClient: seq<Byte>,
    up: Pump,
    down: Pump,
    timedOut: bool)
  {
    function Copier(d: Direction): Pump {
      if d == Up then up else down
    }

    function Source(d: Direction): Conn {
      if d == Up then client else backend
    }

    function Sink(d: Direction): Conn {
      if d == Up then backend else client
    }

    function WithCopier(d: Direction, p: Pump): Handler {
      if d == Up then this.(up := p) else this.(down := p)
    }

    function WithSource(d: Direction, c: Conn): Handler {
      if d == Up then this.(client := c) else this.(backend := c)
    }

    function WithSink(d: Direction, c: Conn): Handler {
      if d == Up then this.(backend := c) else this.(client := c)
    }

    function WithOutput(d: Direction, bytes: seq<Byte>): Handler {
      if d == Up then this.(toBackend := toBackend + bytes) else this.(toClient := toClient + bytes)
    }
  }

  /** A connection just accepted; there is no backend yet. */
  function NewHandler(kind: Kind, header: seq<Byte>, source: seq<Byte>): Handler {
    Handler(Handshaking, Opened(kind), Conn(Other, false, false), header, [], [],
            Pump(Waiting, source, 0, 0, false), Pump(Waiting, [], 0, 0, false), false)
  }

  // ----- Shared state -----

  /** The accept loop.  `byClose` records whether the error came from a closed listener. */
  datatype AcceptPc =
    | Accepting
    | Accepted(h: Handler)
    | CountedOpen(h: Handler)
    | CountedTotal(h: Handler)
    | Failed(byClose: bool)
    | Erring(byClose: bool)
    | Exited

  predicate Holding(pc: AcceptPc) {
    pc.Accepted? || pc.CountedOpen? || pc.CountedTotal?
  }

  /** The Shutdown call in progress, if any. */
  datatype ShutPc = Idle | WillStore | WillClose | WillDone

  /** The flags and program counters outside the handlers.  `released` (Shutdown's Done happened) and `late`
      (connections handed to a handler after the listener was closed) only record the past. */
  datatype Control = Control(
    quit: bool,
    listening: bool,
    accept: AcceptPc,
    shut: ShutPc,
    released: bool,
    late: nat)

  /** The wait group and the metrics; `acceptErrors` records how many errors the accept loop counted. */
  datatype Counters = Counters(
    wait: int,
    open: int,
    total: int,
    success: int,
    errors: int,
    timeouts: int,
    acceptErrors: nat)

  /** Every buffer in use or in the pool has contents; only those in the pool are free. */
  datatype Heap = Heap(pool: set<nat>, memory: map<nat, seq<Byte>>)

  datatype State = State(
    proxyProtocol: bool,
    control: Control,
    counters: Counters,
    handlers: seq<Handler>,
    heap: Heap)

  function Init(proxyProtocol: bool): State {
    State(proxyProtocol,
          Control(false, true, Accepting, Idle, false, 0),
          Counters(1, 0, 0, 0, 0, 0, 0),
          [],
          Heap({}, map[]))
  }

  // ----- Actions -----

  datatype LoopAction =
    | AcceptConn(kind: Kind, header: seq<Byte>, source: seq<Byte>)
    | AcceptError
    | IncOpen
    | IncTotal
    | Spawn
    | LoadQuit
    | IncError

  datatype ServeAction =
    | HandshakeOk
    | HandshakeErr
    | HandshakeTimeout
    | IncHandshakeError
    | DialOk(kind: Kind, source: seq<Byte>)
    | DialErr
    | HeaderOk
    | HeaderErr(written: nat)
    | IncSuccess
    | AddWait
    | FuseReturns
    | DoneWait
    | DecOpen
    | CloseClient

  datatype CopyAction =
    | Take(buf: nat)
    | Read(n: nat)
    | ReadEof
    | ReadError
    | Write
    | WriteError(n: nat)
    | ShutSource
    | ShutSink
    | Put
    | SignalDone

  /** `Collect` is the garbage collector emptying the pool. */
  datatype Action =
    | Loop(loop: LoopAction)
    | Shut
    | WaitReturns
    | Serve(i: nat, serve: ServeAction)
    | Copy(i: nat, d: Direction, copy: CopyAction)
    | Collect(buf: nat)

  predicate LoopEnabled(c: Control, a: LoopAction) {
    match a
    case AcceptConn(_, _, _) => c.accept.Accepting? && c.listening
    case AcceptError => c.accept.Accepting?
    case IncOpen => c.accept.Accepted?
    case IncTotal => c.accept.CountedOpen?
    case Spawn => c.accept.CountedTotal?
    case LoadQuit => c.accept.Failed?
    case IncError => c.accept.Erring?
  }

  /** Only a TLS client has a handshake that can fail. */
  predicate ServeEnabled(h: Handler, a: ServeAction) {
    match a
    case HandshakeOk => h.pc.Handshaking?
    case HandshakeErr => h.pc.Handshaking? && h.client.kind.Tls?
    case HandshakeTimeout => h.pc.Handshaking? && h.client.kind.Tls?
    case IncHandshakeError => h.pc.HandshakeFailed?
    case DialOk(_, _) => h.pc.Dialing?
    case DialErr => h.pc.Dialing?
    case HeaderOk => h.pc.SendingHeader?
    case HeaderErr(n) => h.pc.SendingHeader? && n <= |h.header|
    case IncSuccess => h.pc.Succeeding?
    case AddWait => h.pc.Adding?
    case FuseReturns => h.pc.Fusing? && h.up.stage.Done? && h.down.stage.Done?
    case DoneWait => h.pc.FuseReturned?
    case DecOpen => h.pc.Leaving?
    case CloseClient => h.pc.Closing?
  }

  /** Taking a buffer either reuses one from the pool or allocates a fresh one. */
  predicate PumpEnabled(p: Pump, heap: Heap, a: CopyAction) {
    match a
    case Take(b) => p.stage.Taking? && (b in heap.pool || b !in heap.memory)
    case Read(n) => p.stage.Reading? && 1 <= n <= BUFFER_SIZE && p.pos + n <= |p.source|
    case ReadEof => p.stage.Reading? && p.pos == |p.source|
    case ReadError => p.stage.Reading?
    case Write => p.stage.Writing? && p.stage.buf in heap.memory
    case WriteError(n) => p.stage.Writing? && p.stage.buf in heap.memory && n <= |heap.memory[p.stage.buf]|
    case ShutSource => p.stage.Stopped?
    case ShutSink => p.stage.SourceShut?
    case Put => p.stage.SinkShut?
    case SignalDone => p.stage.Returned?
  }

  /** Data moves only through halves that are still open. */
  predicate CopyEnabled(h: Handler, heap: Heap, d: Direction, a: CopyAction) {
    && h.pc.Fusing?
    && PumpEnabled(h.Copier(d), heap, a)
    && (a.Read? || a.ReadEof? ==> h.Source(d).rd)
    && (a.Write? || (a.WriteError? && a.n > 0) ==> h.Sink(d).wr)
  }

  predicate Enabled(s: State, a: Action) {
    match a
    case Loop(l) => LoopEnabled(s.control, l)
    case Shut => true
    case WaitReturns => s.counters.wait == 0
    case Serve(i, v) => i < |s.handlers| && ServeEnabled(s.handlers[i], v)
    case Copy(i, d, c) => i < |s.handlers| && CopyEnabled(s.handlers[i], s.heap, d, c)
    case Collect(b) => b in s.heap.pool
  }

  function LoopControl(c: Control, a: LoopAction): Control
    requires LoopEnabled(c, a)
  {
    match a
    case AcceptConn(kind, header, source) => c.(accept := Accepted(NewHandler(kind, header, source)))
    case AcceptError => c.(accept := Failed(!c.listening))
    case IncOpen => c.(accept := CountedOpen(c.accept.h))
    case IncTotal => c.(accept := CountedTotal(c.accept.h))
    case Spawn => c.(accept := Accepting, late := if c.listening then c.late else c.late + 1)
    case LoadQuit => c.(accept := if c.quit then Exited else Erring(c.accept.byClose))
    case IncError => c.(accept := Accepting)
  }

  function LoopCounters(n: Counters, a: LoopAction): Counters {
    match a
    case IncOpen => n.(open := n.open + 1)
    case IncTotal => n.(total := n.total + 1)
    case IncError => n.(errors := n.errors + 1, acceptErrors := n.acceptErrors + 1)
    case _ => n
  }

  function ShutControl(c: Control): Control {
    match c.shut
    case Idle => if c.quit then c else c.(shut := WillStore)
    case WillStore => c.(shut := WillClose, quit := true)
    case WillClose => c.(shut := WillDone, listening := false)
    case WillDone => c.(shut := Idle, released := true)
  }

  /** The handler's own part of an action. */
  function ServeHandler(h: Handler, a: ServeAction, proxyProtocol: bool): Handler
    requires ServeEnabled(h, a)
  {
    match a
    case HandshakeOk => h.(pc := Dialing)
    case HandshakeErr => h.(pc := HandshakeFailed)
    case HandshakeTimeout => h.(pc := HandshakeFailed, timedOut := true)
    case IncHandshakeError => h.(pc := Leaving(FailedHandshake))
    case DialOk(kind, source) =>
      h.(pc := if proxyProtocol then SendingHeader else Succeeding, backend := Opened(kind),
         down := h.down.(source := source))
    case DialErr => h.(pc := Leaving(FailedDial))
    case HeaderOk => h.(pc := Succeeding, toBackend := h.toBackend + h.header)
    case HeaderErr(n) => h.(pc := Leaving(FailedHeader), toBackend := h.toBackend + h.header[..n])
    case IncSuccess => h.(pc := Adding)
    case AddWait => h.(pc := Fusing, up := h.up.(stage := Taking), down := h.down.(stage := Taking))
    case FuseReturns => h.(pc := FuseReturned)
    case DoneWait => h.(pc := Leaving(Served))
    case DecOpen => h.(pc := Closing(h.pc.outcome))
    case CloseClient => h.(pc := Finished(h.pc.outcome), client := Closed(h.client))
  }

  function ServeCounters(n: Counters, a: ServeAction): Counters {
    match a
    case HandshakeTimeout => n.(timeouts := n.timeouts + 1)
    case IncHandshakeError => n.(errors := n.errors + 1)
    case IncSuccess => n.(success := n.success + 1)
    case AddWait => n.(wait := n.wait + 1)
    case DoneWait => n.(wait := n.wait - 1)
    case DecOpen => n.(open := n.open - 1)
    case _ => n
  }

  /** What a copier writes on comes out of the shared memory. */
  function CopyOutput(p: Pump, heap: Heap, a: CopyAction): seq<Byte>
    requires PumpEnabled(p, heap, a)
  {
    match a
    case Write => heap.memory[p.stage.buf]
    case WriteError(n) => heap.memory[p.stage.buf][..n]
    case _ => []
  }

  function CopyPump(p: Pump, heap: Heap, a: CopyAction): Pump
    requires PumpEnabled(p, heap, a)
  {
    var q := p.(sent := p.sent + |CopyOutput(p, heap, a)|);
    match a
    case Take(b) => q.(stage := Reading(b))
    case Read(n) => q.(stage := Writing(p.stage.buf), pos := p.pos + n)
    case ReadEof => q.(stage := Stopped(p.stage.buf), complete := true)
    case ReadError => q.(stage := Stopped(p.stage.buf))
    case Write => q.(stage := Reading(p.stage.buf))
    case WriteError(_) => q.(stage := Stopped(p.stage.buf))
    case ShutSource => q.(stage := SourceShut(p.stage.buf))
    case ShutSink => q.(stage := SinkShut(p.stage.buf))
    case Put => q.(stage := Returned)
    case SignalDone => q.(stage := Done)
  }

  function CopyHeap(p: Pump, heap: Heap, a: CopyAction): Heap
    requires PumpEnabled(p, heap, a)
  {
    match a
    case Take(b) =>
      Heap(heap.pool - {b}, if b in heap.memory then heap.memory else heap.memory[b := []])
    case Read(n) => heap.(memory := heap.memory[p.stage.buf := p.source[p.pos..p.pos + n]])
    case Put => heap.(pool := heap.pool + {p.stage.buf})
    case _ => heap
  }

  function CopyHandler(h: Handler, heap: Heap, d: Direction, a: CopyAction): Handler
    requires CopyEnabled(h, heap, d, a)
  {
    var p := h.Copier(d);
    var h' := h.WithCopier(d, CopyPump(p, heap, a)).WithOutput(d, CopyOutput(p, heap, a));
    if a.ShutSource? then h'.WithSource(d, ShutAsSource(h.Source(d)))
    else if a.ShutSink? then h'.WithSink(d, ShutAsSink(h.Sink(d)))
    else h'
  }

  function Apply(s: State, a: Action): State
    requires Enabled(s, a)
  {
    match a
    case Loop(l) =>
      s.(control := LoopControl(s.control, l), counters := LoopCounters(s.counters, l),
         handlers := if l.Spawn? then s.handlers + [s.control.accept.h] else s.handlers)
    case Shut =>
      s.(control := ShutControl(s.control),
         counters := if s.control.shut.WillDone? then s.counters.(wait := s.counters.wait - 1) else s.counters)
    case WaitReturns => s
    case Serve(i, v) =>
      s.(counters := ServeCounters(s.counters, v),
         handlers := s.handlers[i := ServeHandler(s.handlers[i], v, s.proxyProtocol)])
    case Copy(i, d, c) =>
      s.(handlers := s.handlers[i := CopyHandler(s.handlers[i], s.heap, d, c)],
         heap := CopyHeap(s.handlers[i].Copier(d), s.heap, c))
    case Collect(b) => s.(heap := Heap(s.heap.pool - {b}, s.heap.memory - {b}))
  }

  // ----- Runs -----

  predicate IsRun(s: State, acts: seq<Action>)
    decreases |acts|
  {
    acts == [] || (Enabled(s, acts[0]) && IsRun(Apply(s, acts[0]), acts[1..]))
  }

  function After(s: State, acts: seq<Action>): State
    requires IsRun(s, acts)
    decreases |acts|
  {
    if acts == [] then s else After(Apply(s, acts[0]), acts[1..])
  }

  ghost predicate Reachable(s: State) {
    exists proxyProtocol: bool, acts: seq<Action> ::
      IsRun(Init(proxyProtocol), acts) && s == After(Init(proxyProtocol), acts)
  }
}
