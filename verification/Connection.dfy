/**
 One connection's handler as the program runs it: sockets, pool buffers and counters are objects, buffers are
 arrays filled in place, and the calls run from beginning to end.  Each method returns, as a ghost, the actions
 it took; they are proved to be a run of the protocol that ends in the state the objects are in.

 What the network decides (how many bytes a read returns, when a call fails) is chosen freely inside Read and
 Write, so the contracts hold for every choice.
 */
module Connection {
  import opened Options
  import opened ProxyMachine
  import opened ProxyInvariant
  import PT = ProxyTheorems
  import PP = ProxyProgress

  // ----- Sockets -----

  datatype ReadStatus = More | Eof | Failure

  /** `incoming` is everything the peer will ever send, `pos` how much of it has been read; `failed` records that
      some read or write failed. */
  class Socket {
    const kind: Kind
    const incoming: seq<Byte>
    var rd: bool
    var wr: bool
    var pos: nat
    var written: seq<Byte>
    ghost var failed: bool

    constructor (kind: Kind, incoming: seq<Byte>)
      ensures this.kind == kind && this.incoming == incoming
      ensures rd && wr && pos == 0 && written == [] && !failed
    {
      this.kind, this.incoming := kind, incoming;
      rd, wr, pos, written, failed := true, true, 0, [], false;
    }

    function Halves(): Conn
      reads this
    {
      Conn(kind, rd, wr)
    }

    /** Fills a prefix of the buffer with the next bytes; as the library asks, either something was read or the
        call says why not. */
    method Read(buf: array<Byte>) returns (n: nat, status: ReadStatus)
      requires pos <= |incoming|
      modifies this`pos, this`failed, buf
      ensures failed == (old(failed) || status.Failure?)
      ensures n <= buf.Length && pos == old(pos) + n <= |incoming|
      ensures buf[..n] == incoming[old(pos)..pos]
      ensures n > 0 || status.Eof? ==> rd
      ensures n == 0 ==> !status.More?
      ensures status.Eof? ==> pos == |incoming|
    {
      var most := if |incoming| - pos < buf.Length then |incoming| - pos else buf.Length;
      var came: int := *;
      n := if rd && 0 <= came <= most then came else 0;
      forall k | 0 <= k < n {
        buf[k] := incoming[pos + k];
      }
      pos := pos + n;
      status := *;
      if (status.Eof? && (!rd || pos < |incoming|)) || (status.More? && n == 0) {
        status := Failure;
      }
      failed := failed || status.Failure?;
    }

    /** Writes all of the bytes, or only some and says so. */
    method Write(bytes: seq<Byte>) returns (n: nat, ok: bool)
      modifies this`written, this`failed
      ensures failed == (old(failed) || !ok)
      ensures n <= |bytes| && written == old(written) + bytes[..n]
      ensures n > 0 ==> wr
      ensures ok ==> wr && n == |bytes|
    {
      var went: int := *;
      n := if wr && 0 <= went <= |bytes| then went else 0;
      ok := *;
      ok := ok && wr && n == |bytes|;
      written := written + bytes[..n];
      failed := failed || !ok;
    }

    method CloseRead()
      modifies this`rd
      ensures !rd
    {
      rd := false;
    }

    method CloseWrite()
      modifies this`wr
      ensures !wr
    {
      wr := false;
    }

    method Close()
      modifies this`rd, this`wr
      ensures !rd && !wr
    {
      rd, wr := false, false;
    }
  }

  // ----- Buffers -----

  /** `names` and its inverse `arrays` tie the arrays to the buffers of the protocol. */
  class BufferPool {
    var free: set<array<Byte>>
    ghost var names: map<array<Byte>, nat>
    ghost var arrays: map<nat, array<Byte>>

    ghost predicate Valid()
      reads this
    {
      && free <= names.Keys
      && (forall a :: a in names ==> a.Length == BUFFER_SIZE && names[a] in arrays && arrays[names[a]] == a)
    }

    ghost function FreeNames(): set<nat>
      requires Valid()
      reads this
    {
      set a | a in free :: names[a]
    }

    /** The free arrays are the protocol's free buffers, and every array is one of its buffers. */
    ghost predicate Backs(heap: Heap)
      requires Valid()
      reads this
    {
      heap.pool == FreeNames() && names.Values <= heap.memory.Keys
    }

    constructor ()
      ensures Valid() && free == {} && names == map[]
    {
      free, names, arrays := {}, map[], map[];
    }

    /** Reuses a free array or allocates one; either is what the protocol calls taking a buffer. */
    method Get(ghost heap: Heap) returns (buf: array<Byte>, ghost b: nat)
      requires Valid() && Backs(heap)
      modifies this
      ensures Valid() && buf in names && names[buf] == b && buf !in free
      ensures b in heap.pool || b !in heap.memory
      ensures Backs(Taken(heap, b))
      ensures fresh(names.Keys - old(names.Keys))
    {
      var reuse := *;
      if reuse && free != {} {
        buf :| buf in free;
        b := names[buf];
        assert b in heap.pool;
        free := free - {buf};
        assert forall a :: a in free ==> names[a] != b;
      } else {
        b := PP.FreshBuffer(heap.memory);
        buf := new Byte[BUFFER_SIZE];
        assert forall a :: a in names ==> names[a] in heap.memory;
        names := names[buf := b];
        arrays := arrays[b := buf];
        assert forall c :: c in names.Values ==> c in old(names).Values || c == b;
      }
      assert FreeNames() == heap.pool - {b};
    }

    method Put(buf: array<Byte>, ghost heap: Heap)
      requires Valid() && Backs(heap) && buf in names
      modifies this`free
      ensures Valid() && free == old(free) + {buf} && Backs(heap.(pool := heap.pool + {names[buf]}))
    {
      free := free + {buf};
      assert FreeNames() == heap.pool + {names[buf]};
    }
  }

  ghost function Taken(heap: Heap, b: nat): Heap {
    Heap(heap.pool - {b}, if b in heap.memory then heap.memory else heap.memory[b := []])
  }

  // ----- Objects and protocol -----

  function Opposite(d: Direction): Direction {
    if d == Up then Down else Up
  }

  /** One direction: what its source has delivered and its sink received. */
  ghost predicate Carries(h: Handler, d: Direction, src: Socket, dst: Socket)
    reads src, dst
  {
    && h.Source(d) == src.Halves() && h.Copier(d).source == src.incoming
    && h.Copier(d).pos == src.pos <= |src.incoming| && PP.Output(h, d) == dst.written
  }

  /** The sockets are those of handler i, seen from direction d. */
  ghost predicate Joined(s: State, i: nat, d: Direction, src: Socket, dst: Socket)
    reads src, dst
  {
    && i < |s.handlers| && s.handlers[i].pc.Fusing?
    && Carries(s.handlers[i], d, src, dst) && Carries(s.handlers[i], Opposite(d), dst, src)
  }

  lemma Extend(s: State, acts: seq<Action>, a: Action)
    requires IsRun(s, acts) && Enabled(After(s, acts), a)
    ensures IsRun(s, acts + [a]) && After(s, acts + [a]) == Apply(After(s, acts), a)
  {
    PT.RunSnoc(s, acts, a);
  }

  /** Nothing but handler i and the buffers has changed. */
  ghost predicate OnlyHandler(s: State, t: State, i: nat) {
    && t.proxyProtocol == s.proxyProtocol && t.control == s.control && t.counters == s.counters
    && i < |s.handlers| == |t.handlers|
    && forall j :: 0 <= j < |s.handlers| && j != i ==> t.handlers[j] == s.handlers[j]
  }

  /** And of handler i the other copier has not moved. */
  ghost predicate OnlyCopier(s: State, t: State, i: nat, d: Direction) {
    OnlyHandler(s, t, i) && t.handlers[i].Copier(Opposite(d)) == s.handlers[i].Copier(Opposite(d))
  }

  /** What a copier's action does, as far as the objects are concerned. */
  lemma CopyStep(s: State, i: nat, d: Direction, a: CopyAction)
    requires Enabled(s, Copy(i, d, a))
    ensures var t := Apply(s, Copy(i, d, a));
            && OnlyCopier(s, t, i, d) && t.heap == CopyHeap(s.handlers[i].Copier(d), s.heap, a)
            && var h, h' := s.handlers[i], t.handlers[i];
               && h'.pc.Fusing?
               && h'.Copier(d) == CopyPump(h.Copier(d), s.heap, a)
               && PP.Output(h', d) == PP.Output(h, d) + CopyOutput(h.Copier(d), s.heap, a)
               && PP.Output(h', Opposite(d)) == PP.Output(h, Opposite(d))
               && h'.Source(d) == (if a.ShutSource? then ShutAsSource(h.Source(d)) else h.Source(d))
               && h'.Sink(d) == (if a.ShutSink? then ShutAsSink(h.Sink(d)) else h.Sink(d))
  {
    CopyEffect(s.handlers[i], s.heap, d, a);
    CopyHalves(s.handlers[i], s.heap, d, a);
  }

  /** Where the copier stands; since s, the other copier has not moved and no buffer has changed hands. */
  ghost predicate Stands(s: State, t: State, i: nat, d: Direction, stage: Stage) {
    && OnlyCopier(s, t, i, d) && t.handlers[i].Copier(d).stage == stage
    && t.heap.pool == s.heap.pool && t.heap.memory.Keys == s.heap.memory.Keys
  }

  /** One read, which is the protocol's if it brought anything. */
  method ReadChunk(src: Socket, buf: array<Byte>, ghost dst: Socket, ghost s: State, ghost i: nat, ghost d: Direction)
    returns (n: nat, status: ReadStatus)
    requires src != dst && buf.Length == BUFFER_SIZE
    requires Joined(s, i, d, src, dst) && s.handlers[i].Copier(d).stage.Reading?
    requires s.handlers[i].Copier(d).stage.buf in s.heap.memory
    modifies src`pos, src`failed, buf
    ensures src.failed == (old(src.failed) || status.Failure?)
    ensures n <= buf.Length && src.pos == old(src.pos) + n <= |src.incoming|
    ensures buf[..n] == src.incoming[old(src.pos)..src.pos]
    ensures n == 0 ==> !status.More?
    ensures status.Eof? ==> src.pos == |src.incoming| && src.rd
    ensures n > 0
        ==> && Enabled(s, Copy(i, d, Read(n)))
            && var t, b := Apply(s, Copy(i, d, Read(n))), s.handlers[i].Copier(d).stage.buf;
               && Joined(t, i, d, src, dst) && Stands(s, t, i, d, Writing(b))
               && t.heap == s.heap.(memory := s.heap.memory[b := buf[..n]])
  {
    n, status := src.Read(buf);
    if n > 0 {
      CopyStep(s, i, d, Read(n));
    }
  }

  /** One write of what is in the buffer, which is the protocol's write or its failure. */
  method WriteChunk(dst: Socket, buf: array<Byte>, n: nat,
                    ghost src: Socket, ghost s: State, ghost i: nat, ghost d: Direction)
    returns (ok: bool, ghost a: CopyAction)
    requires src != dst && n <= buf.Length
    requires Joined(s, i, d, src, dst) && s.handlers[i].Copier(d).stage.Writing?
    requires var b := s.handlers[i].Copier(d).stage.buf; b in s.heap.memory && s.heap.memory[b] == buf[..n]
    modifies dst`written, dst`failed
    ensures dst.failed == (old(dst.failed) || !ok)
    ensures var b := s.handlers[i].Copier(d).stage.buf;
            && Enabled(s, Copy(i, d, a))
            && var t := Apply(s, Copy(i, d, a));
               && Joined(t, i, d, src, dst) && t.heap == s.heap
               && Stands(s, t, i, d, if ok then Reading(b) else Stopped(b))
    ensures old(dst.written) <= dst.written <= old(dst.written) + buf[..n]
    ensures ok ==> dst.written == old(dst.written) + buf[..n]
  {
    var m, wrote := dst.Write(buf[..n]);
    ok := wrote;
    a := if ok then Write else WriteError(m);
    assert buf[..n][..m] == buf[..m];
    CopyStep(s, i, d, a);
  }

  /** A read that brought nothing ends the loop. */
  lemma EndOfInput(s: State, i: nat, d: Direction, src: Socket, dst: Socket, eof: bool)
    requires Joined(s, i, d, src, dst) && s.handlers[i].Copier(d).stage.Reading?
    requires eof ==> src.rd && src.pos == |src.incoming|
    ensures var a := Copy(i, d, if eof then ReadEof else ReadError);
            && Enabled(s, a) && Joined(Apply(s, a), i, d, src, dst)
            && Stands(s, Apply(s, a), i, d, Stopped(s.handlers[i].Copier(d).stage.buf))
  {
    CopyStep(s, i, d, if eof then ReadEof else ReadError);
  }

  /** One turn of the copy loop: a read, a write of what was read, and the end if the read said so. */
  method CopyChunk(dst: Socket, src: Socket, buf: array<Byte>, ghost s: State, ghost i: nat, ghost d: Direction)
    returns (status: ReadStatus, ghost acts: seq<Action>)
    requires src != dst && buf.Length == BUFFER_SIZE
    requires Joined(s, i, d, src, dst) && s.handlers[i].Copier(d).stage.Reading?
    requires s.handlers[i].Copier(d).stage.buf in s.heap.memory
    modifies src`pos, src`failed, dst`written, dst`failed, buf
    ensures (old(src.failed) ==> src.failed) && (old(dst.failed) ==> dst.failed)
    ensures status.Failure? ==> src.failed || dst.failed
    ensures IsRun(s, acts)
    ensures var t, b := After(s, acts), s.handlers[i].Copier(d).stage.buf;
            Joined(t, i, d, src, dst) && Stands(s, t, i, d, if status.More? then Reading(b) else Stopped(b))
    ensures old(src.pos) <= src.pos && (status.More? ==> old(src.pos) < src.pos)
    ensures status.Eof? ==> src.pos == |src.incoming|
    ensures old(dst.written) <= dst.written <= old(dst.written) + src.incoming[old(src.pos)..src.pos]
    ensures !status.Failure? ==> dst.written == old(dst.written) + src.incoming[old(src.pos)..src.pos]
  {
    acts := [];
    ghost var t := s;
    var n;
    n, status := ReadChunk(src, buf, dst, s, i, d);
    if n > 0 {
      var wrote;
      acts, wrote := ForwardChunk(dst, src, buf, n, s, i, d);
      t := After(s, acts);
      if !wrote {
        return Failure, acts;
      }
    }
    if !status.More? {
      ghost var a := Copy(i, d, if status.Eof? then ReadEof else ReadError);
      EndOfInput(t, i, d, src, dst, status.Eof?);
      Extend(s, acts, a);
      acts := acts + [a];
    }
  }

  /** The write that follows a read. */
  method ForwardChunk(dst: Socket, ghost src: Socket, buf: array<Byte>, n: nat,
                      ghost s: State, ghost i: nat, ghost d: Direction)
    returns (ghost acts: seq<Action>, ok: bool)
    requires src != dst && n <= buf.Length && Enabled(s, Copy(i, d, Read(n)))
    requires var t := Apply(s, Copy(i, d, Read(n)));
             && Joined(t, i, d, src, dst) && Stands(s, t, i, d, Writing(s.handlers[i].Copier(d).stage.buf))
             && t.heap == s.heap.(memory := s.heap.memory[s.handlers[i].Copier(d).stage.buf := buf[..n]])
    requires s.handlers[i].Copier(d).stage.buf in s.heap.memory
    modifies dst`written, dst`failed
    ensures dst.failed == (old(dst.failed) || !ok)
    ensures IsRun(s, acts)
    ensures var t, b := After(s, acts), s.handlers[i].Copier(d).stage.buf;
            Joined(t, i, d, src, dst) && Stands(s, t, i, d, if ok then Reading(b) else Stopped(b))
    ensures old(dst.written) <= dst.written <= old(dst.written) + buf[..n]
    ensures ok ==> dst.written == old(dst.written) + buf[..n]
  {
    ghost var a := Copy(i, d, Read(n));
    Extend(s, [], a);
    ghost var c;
    ok, c := WriteChunk(dst, buf, n, src, Apply(s, a), i, d);
    Extend(s, [] + [a], Copy(i, d, c));
    acts := [] + [a] + [Copy(i, d, c)];
  }

  /** A chunk, or part of it, after what was there before. */
  lemma Appended(before: seq<Byte>, source: seq<Byte>, from: nat, at: nat, to: nat, now: seq<Byte>)
    requires from <= at <= to <= |source|
    requires before + source[from..at] <= now <= before + source[from..at] + source[at..to]
    ensures before <= now <= before + source[from..]
    ensures now == before + source[from..at] + source[at..to] ==> now == before + source[from..to]
  {
    assert source[from..] == source[from..at] + source[at..to] + source[to..];
    assert source[from..to] == source[from..at] + source[at..to];
  }

  /** The library's copy loop: read into the buffer, write what was read, until something ends it.  What reaches
      the sink is the next bytes of the source, in order, and all of them unless some read or write failed. */
  method CopyBuffer(dst: Socket, src: Socket, buf: array<Byte>, ghost s: State, ghost i: nat, ghost d: Direction)
    returns (ok: bool, ghost acts: seq<Action>)
    requires src != dst && buf.Length == BUFFER_SIZE
    requires Joined(s, i, d, src, dst) && s.handlers[i].Copier(d).stage.Reading?
    requires s.handlers[i].Copier(d).stage.buf in s.heap.memory
    modifies src`pos, src`failed, dst`written, dst`failed, buf
    ensures (old(src.failed) ==> src.failed) && (old(dst.failed) ==> dst.failed)
    ensures IsRun(s, acts)
    ensures var t := After(s, acts);
            Joined(t, i, d, src, dst) && Stands(s, t, i, d, Stopped(s.handlers[i].Copier(d).stage.buf))
    ensures old(dst.written) <= dst.written <= old(dst.written) + src.incoming[old(src.pos)..]
    ensures if ok then dst.written == old(dst.written) + src.incoming[old(src.pos)..] else src.failed || dst.failed
  {
    ghost var b, from := s.handlers[i].Copier(d).stage.buf, src.pos;
    var status := More;
    acts := [];
    while status.More?
      invariant IsRun(s, acts) && Joined(After(s, acts), i, d, src, dst)
      invariant Stands(s, After(s, acts), i, d, if status.More? then Reading(b) else Stopped(b))
      invariant from <= src.pos
      invariant old(dst.written) <= dst.written <= old(dst.written) + src.incoming[from..]
      invariant !status.Failure? ==> dst.written == old(dst.written) + src.incoming[from..src.pos]
      invariant status.Eof? ==> src.pos == |src.incoming|
      invariant (old(src.failed) ==> src.failed) && (old(dst.failed) ==> dst.failed)
      invariant status.Failure? ==> src.failed || dst.failed
      decreases |src.incoming| - src.pos, status.More?
    {
      ghost var at := src.pos;
      ghost var more;
      status, more := CopyChunk(dst, src, buf, After(s, acts), i, d);
      PP.RunConcat(s, acts, more);
      acts := acts + more;
      Appended(old(dst.written), src.incoming, from, at, src.pos, dst.written);
    }
    ok := status.Eof?;
  }

  // ----- copyData -----

  method ShutSource(src: Socket)
    modifies src`rd, src`wr
    ensures src.Halves() == ShutAsSource(old(src.Halves()))
  {
    match src.kind
    case Tcp => src.CloseRead();
    case UnixSocket => src.CloseRead();
    case _ => src.Close();
  }

  method ShutSink(dst: Socket)
    modifies dst`rd, dst`wr
    ensures dst.Halves() == ShutAsSink(old(dst.Halves()))
  {
    match dst.kind
    case Tcp => dst.CloseWrite();
    case Tls => dst.CloseWrite();
    case UnixSocket => dst.CloseWrite();
    case _ => dst.Close();
  }

  /** Shutting both connections after the copy loop. */
  method ShutBoth(dst: Socket, src: Socket, ghost s: State, ghost i: nat, ghost d: Direction)
    returns (ghost acts: seq<Action>)
    requires src != dst && Joined(s, i, d, src, dst) && s.handlers[i].Copier(d).stage.Stopped?
    modifies src`rd, src`wr, dst`rd, dst`wr
    ensures IsRun(s, acts)
    ensures var t := After(s, acts);
            Joined(t, i, d, src, dst) && Stands(s, t, i, d, SinkShut(s.handlers[i].Copier(d).stage.buf))
    ensures src.Halves() == ShutAsSource(old(src.Halves())) && dst.Halves() == ShutAsSink(old(dst.Halves()))
  {
    ShutSource(src);
    CopyStep(s, i, d, CopyAction.ShutSource);
    Extend(s, [], Copy(i, d, CopyAction.ShutSource));
    acts := [] + [Copy(i, d, CopyAction.ShutSource)];
    ghost var t := After(s, acts);
    assert Joined(t, i, d, src, dst) && Stands(s, t, i, d, SourceShut(s.handlers[i].Copier(d).stage.buf));
    ShutSink(dst);
    CopyStep(t, i, d, CopyAction.ShutSink);
    Extend(s, acts, Copy(i, d, CopyAction.ShutSink));
    acts := acts + [Copy(i, d, CopyAction.ShutSink)];
  }

  /** The copy loop, then the two connections. */
  method CopyAndShut(dst: Socket, src: Socket, buf: array<Byte>, ghost s: State, ghost i: nat, ghost d: Direction)
    returns (ghost acts: seq<Action>)
    requires src != dst && buf.Length == BUFFER_SIZE
    requires Joined(s, i, d, src, dst) && s.handlers[i].Copier(d).stage.Reading?
    requires s.handlers[i].Copier(d).stage.buf in s.heap.memory
    modifies src, dst, buf
    ensures src.written == old(src.written) && dst.pos == old(dst.pos)
    ensures IsRun(s, acts)
    ensures var t := After(s, acts);
            Joined(t, i, d, src, dst) && Stands(s, t, i, d, SinkShut(s.handlers[i].Copier(d).stage.buf))
    ensures old(dst.written) <= dst.written <= old(dst.written) + src.incoming[old(src.pos)..]
    ensures (old(src.failed) ==> src.failed) && (old(dst.failed) ==> dst.failed)
    ensures !src.failed && !dst.failed ==> dst.written == old(dst.written) + src.incoming[old(src.pos)..]
    ensures src.Halves() == ShutAsSource(old(src.Halves())) && dst.Halves() == ShutAsSink(old(dst.Halves()))
  {
    var ok;
    ok, acts := CopyBuffer(dst, src, buf, s, i, d);
    ghost var more := ShutBoth(dst, src, After(s, acts), i, d);
    PP.RunConcat(s, acts, more);
    acts := acts + more;
  }

  lemma FirstStep(s: State, i: nat, d: Direction, src: Socket, dst: Socket, b: nat) returns (acts: seq<Action>)
    requires Joined(s, i, d, src, dst) && s.handlers[i].Copier(d).stage.Taking?
    requires b in s.heap.pool || b !in s.heap.memory
    ensures IsRun(s, acts)
    ensures var t := After(s, acts);
            && Joined(t, i, d, src, dst) && t.handlers[i].Copier(d).stage == Reading(b)
            && OnlyCopier(s, t, i, d)
            && t.heap == Taken(s.heap, b)
  {
    CopyStep(s, i, d, Take(b));
    Extend(s, [], Copy(i, d, Take(b)));
    acts := [] + [Copy(i, d, Take(b))];
  }

  lemma LastSteps(s: State, i: nat, d: Direction, src: Socket, dst: Socket) returns (acts: seq<Action>)
    requires Joined(s, i, d, src, dst) && s.handlers[i].Copier(d).stage.SinkShut?
    ensures IsRun(s, acts)
    ensures var t := After(s, acts);
            && Joined(t, i, d, src, dst) && t.handlers[i].Copier(d).stage.Done?
            && OnlyCopier(s, t, i, d)
            && t.heap == s.heap.(pool := s.heap.pool + {s.handlers[i].Copier(d).stage.buf})
  {
    CopyStep(s, i, d, Put);
    Extend(s, [], Copy(i, d, Put));
    acts := [] + [Copy(i, d, Put)];
    CopyStep(After(s, acts), i, d, SignalDone);
    Extend(s, acts, Copy(i, d, SignalDone));
    acts := acts + [Copy(i, d, SignalDone)];
  }

  method ReturnBuffer(pool: BufferPool, buf: array<Byte>, ghost dst: Socket, ghost src: Socket,
                      ghost s: State, ghost i: nat, ghost d: Direction)
    returns (ghost acts: seq<Action>)
    requires pool.Valid() && buf in pool.names && pool.Backs(s.heap)
    requires Joined(s, i, d, src, dst) && s.handlers[i].Copier(d).stage == SinkShut(pool.names[buf])
    modifies pool`free
    ensures pool.Valid() && pool.free == old(pool.free) + {buf}
    ensures IsRun(s, acts)
    ensures var t := After(s, acts);
            && Joined(t, i, d, src, dst) && pool.Backs(t.heap)
            && t.handlers[i].Copier(d).stage.Done?
            && OnlyCopier(s, t, i, d)
  {
    acts := LastSteps(s, i, d, src, dst);
    pool.Put(buf, s.heap);
  }

  lemma SameBuffers(pool: BufferPool, heap: Heap, heap': Heap)
    requires pool.Valid() && pool.Backs(heap)
    requires heap'.pool == heap.pool && heap'.memory.Keys == heap.memory.Keys
    ensures pool.Backs(heap')
  {
  }

  /** Everything after taking the buffer. */
  method CopyAndReturn(dst: Socket, src: Socket, pool: BufferPool, buf: array<Byte>,
                       ghost s: State, ghost i: nat, ghost d: Direction)
    returns (ghost acts: seq<Action>)
    requires src != dst && pool.Valid() && buf in pool.names && pool.Backs(s.heap)
    requires Joined(s, i, d, src, dst) && s.handlers[i].Copier(d).stage == Reading(pool.names[buf])
    modifies src, dst, pool`free, buf
    ensures src.written == old(src.written) && dst.pos == old(dst.pos)
    ensures pool.Valid() && pool.free == old(pool.free) + {buf}
    ensures IsRun(s, acts)
    ensures var t := After(s, acts);
            && Joined(t, i, d, src, dst) && pool.Backs(t.heap)
            && t.handlers[i].Copier(d).stage.Done?
            && OnlyCopier(s, t, i, d)
    ensures old(dst.written) <= dst.written <= old(dst.written) + src.incoming[old(src.pos)..]
    ensures (old(src.failed) ==> src.failed) && (old(dst.failed) ==> dst.failed)
    ensures !src.failed && !dst.failed ==> dst.written == old(dst.written) + src.incoming[old(src.pos)..]
    ensures src.Halves() == ShutAsSource(old(src.Halves())) && dst.Halves() == ShutAsSink(old(dst.Halves()))
  {
    acts := CopyAndShut(dst, src, buf, s, i, d);
    SameBuffers(pool, s.heap, After(s, acts).heap);
    ghost var last := ReturnBuffer(pool, buf, dst, src, After(s, acts), i, d);
    PP.RunConcat(s, acts, last);
    acts := acts + last;
  }

  /** The same, and the protocol's taking of the buffer before it. */
  method CopyWith(dst: Socket, src: Socket, pool: BufferPool, buf: array<Byte>,
                  ghost s: State, ghost i: nat, ghost d: Direction)
    returns (ghost acts: seq<Action>)
    requires src != dst && pool.Valid() && buf in pool.names
    requires pool.names[buf] in s.heap.pool || pool.names[buf] !in s.heap.memory
    requires pool.Backs(Taken(s.heap, pool.names[buf]))
    requires Joined(s, i, d, src, dst) && s.handlers[i].Copier(d).stage.Taking?
    modifies src, dst, pool`free, buf
    ensures src.written == old(src.written) && dst.pos == old(dst.pos)
    ensures pool.Valid() && pool.free == old(pool.free) + {buf}
    ensures IsRun(s, acts)
    ensures var t := After(s, acts);
            && Joined(t, i, d, src, dst) && pool.Backs(t.heap)
            && t.handlers[i].Copier(d).stage.Done?
            && OnlyCopier(s, t, i, d)
    ensures old(dst.written) <= dst.written <= old(dst.written) + src.incoming[old(src.pos)..]
    ensures (old(src.failed) ==> src.failed) && (old(dst.failed) ==> dst.failed)
    ensures !src.failed && !dst.failed ==> dst.written == old(dst.written) + src.incoming[old(src.pos)..]
    ensures src.Halves() == ShutAsSource(old(src.Halves())) && dst.Halves() == ShutAsSink(old(dst.Halves()))
  {
    acts := FirstStep(s, i, d, src, dst, pool.names[buf]);
    ghost var rest := CopyAndReturn(dst, src, pool, buf, After(s, acts), i, d);
    PP.RunConcat(s, acts, rest);
    acts := acts + rest;
  }

  /** Copies one direction from beginning to end: takes a buffer, runs the copy loop, shuts what its two kinds of
      connection allow, returns the buffer and signals.  The actions are a run of the copier in the protocol, and
      unless some read or write failed everything was delivered. */
  method CopyData(dst: Socket, src: Socket, pool: BufferPool, ghost s: State, ghost i: nat, ghost d: Direction)
    returns (ghost acts: seq<Action>)
    requires src != dst && Joined(s, i, d, src, dst) && s.handlers[i].Copier(d).stage.Taking?
    requires pool.Valid() && pool.Backs(s.heap)
    modifies src, dst, pool, pool.names.Keys
    ensures src.written == old(src.written) && dst.pos == old(dst.pos)
    ensures IsRun(s, acts)
    ensures var t := After(s, acts);
            && Joined(t, i, d, src, dst) && t.handlers[i].Copier(d).stage.Done?
            && OnlyCopier(s, t, i, d)
            && pool.Valid() && pool.Backs(t.heap)
    ensures fresh(pool.names.Keys - old(pool.names.Keys))
    ensures old(dst.written) <= dst.written <= old(dst.written) + src.incoming[old(src.pos)..]
    ensures (old(src.failed) ==> src.failed) && (old(dst.failed) ==> dst.failed)
    ensures !src.failed && !dst.failed ==> dst.written == old(dst.written) + src.incoming[old(src.pos)..]
    ensures src.Halves() == ShutAsSource(old(src.Halves())) && dst.Halves() == ShutAsSink(old(dst.Halves()))
  {
    var buf;
    ghost var b;
    buf, b := pool.Get(s.heap);
    acts := CopyWith(dst, src, pool, buf, s, i, d);
  }

  // ----- fuse -----

  /** Direction d, then the other. */
  method CopyBoth(first: Socket, second: Socket, pool: BufferPool, ghost s: State, ghost i: nat, ghost d: Direction)
    returns (ghost acts: seq<Action>)
    requires first != second && Joined(s, i, d, first, second)
    requires s.handlers[i].up.stage.Taking? && s.handlers[i].down.stage.Taking?
    requires pool.Valid() && pool.Backs(s.heap)
    modifies first, second, pool, pool.names.Keys
    ensures IsRun(s, acts)
    ensures var t := After(s, acts);
            && Joined(t, i, d, first, second) && OnlyHandler(s, t, i)
            && t.handlers[i].up.stage.Done? && t.handlers[i].down.stage.Done?
            && pool.Valid() && pool.Backs(t.heap)
    ensures !first.rd && !first.wr && !second.rd && !second.wr
    ensures old(second.written) <= second.written <= old(second.written) + first.incoming[old(first.pos)..]
    ensures old(first.written) <= first.written <= old(first.written) + second.incoming[old(second.pos)..]
    ensures !first.failed && !second.failed
        ==> && second.written == old(second.written) + first.incoming[old(first.pos)..]
            && first.written == old(first.written) + second.incoming[old(second.pos)..]
  {
    ghost var a, b := first.Halves(), second.Halves();
    acts := CopyData(second, first, pool, s, i, d);
    ghost var t := After(s, acts);
    assert Joined(t, i, Opposite(d), second, first) && t.handlers[i].Copier(Opposite(d)).stage.Taking?;
    ghost var rest := CopyData(first, second, pool, t, i, Opposite(d));
    BothWays(a);
    BothWays(b);
    PP.RunConcat(s, acts, rest);
    acts := acts + rest;
  }

  /** A connection that was source of one direction and sink of the other is shut both ways. */
  lemma BothWays(c: Conn)
    ensures ShutAsSink(ShutAsSource(c)) == ShutAsSource(ShutAsSink(c)) == Closed(c)
  {
  }

  /** Both directions, in either order: afterwards all four halves are shut, whatever the kinds, and each side has
      received a prefix of what the other had to say, all of it if no read or write failed. */
  method Fuse(client: Socket, backend: Socket, pool: BufferPool, ghost s: State, ghost i: nat)
    returns (ghost acts: seq<Action>)
    requires client != backend && Joined(s, i, Up, client, backend)
    requires s.handlers[i].up.stage.Taking? && s.handlers[i].down.stage.Taking?
    requires pool.Valid() && pool.Backs(s.heap)
    modifies client, backend, pool, pool.names.Keys
    ensures IsRun(s, acts)
    ensures var t := After(s, acts);
            && Joined(t, i, Up, client, backend) && OnlyHandler(s, t, i)
            && t.handlers[i].up.stage.Done? && t.handlers[i].down.stage.Done?
            && pool.Valid() && pool.Backs(t.heap)
    ensures !client.rd && !client.wr && !backend.rd && !backend.wr
    ensures old(backend.written) <= backend.written <= old(backend.written) + client.incoming[old(client.pos)..]
    ensures old(client.written) <= client.written <= old(client.written) + backend.incoming[old(backend.pos)..]
    ensures !client.failed && !backend.failed
        ==> && backend.written == old(backend.written) + client.incoming[old(client.pos)..]
            && client.written == old(client.written) + backend.incoming[old(backend.pos)..]
  {
    var upFirst := *;
    if upFirst {
      acts := CopyBoth(client, backend, pool, s, i, Up);
    } else {
      acts := CopyBoth(backend, client, pool, s, i, Down);
    }
  }

  // ----- The handler -----

  class Metrics {
    var handlers: int
    var open: int
    var total: int
    var success: int
    var errors: int
    var timeouts: int
    ghost var acceptErrors: nat

    ghost function View(): Counters
      reads this
    {
      Counters(handlers, open, total, success, errors, timeouts, acceptErrors)
    }

    constructor ()
      ensures View() == Counters(1, 0, 0, 0, 0, 0, 0)
    {
      handlers, open, total, success, errors, timeouts, acceptErrors := 1, 0, 0, 0, 0, 0, 0;
    }
  }

  datatype Handshake = Completes | Fails | TimesOut

  predicate Fresh(c: Socket)
    reads c
  {
    c.rd && c.wr && c.pos == 0 && c.written == []
  }

  /** What an action of a handler does. */
  lemma ServeStep(s: State, acts: seq<Action>, i: nat, v: ServeAction)
    requires IsRun(s, acts) && Enabled(After(s, acts), Serve(i, v))
    ensures IsRun(s, acts + [Serve(i, v)])
    ensures var t := After(s, acts);
            After(s, acts + [Serve(i, v)])
            == t.(counters := ServeCounters(t.counters, v),
                  handlers := t.handlers[i := ServeHandler(t.handlers[i], v, t.proxyProtocol)])
  {
    Extend(s, acts, Serve(i, v));
  }

  /** The handshake: only a TLS client has one that can fail. */
  method ForceHandshake(client: Socket, handshake: Handshake, metrics: Metrics, ghost s: State, ghost i: nat)
    returns (ok: bool, ghost acts: seq<Action>)
    requires i < |s.handlers| && s.handlers[i].pc.Handshaking? && s.handlers[i].client == client.Halves()
    requires metrics.View() == s.counters
    modifies metrics`errors, metrics`timeouts
    ensures IsRun(s, acts) && metrics.View() == After(s, acts).counters
    ensures ok <==> handshake.Completes? || !client.kind.Tls?
    ensures var h := s.handlers[i].(pc := if ok then Dialing else Leaving(FailedHandshake),
                                    timedOut := s.handlers[i].timedOut || (!ok && handshake.TimesOut?));
            After(s, acts) == s.(counters := metrics.View(), handlers := s.handlers[i := h])
    ensures metrics.errors == old(metrics.errors) + One(!ok)
    ensures metrics.timeouts == old(metrics.timeouts) + One(!ok && handshake.TimesOut?)
  {
    acts := [];
    if client.kind.Tls? && !handshake.Completes? {
      if handshake.TimesOut? {
        metrics.timeouts := metrics.timeouts + 1;
      }
      ghost var v := if handshake.TimesOut? then HandshakeTimeout else HandshakeErr;
      ServeStep(s, acts, i, v);
      acts := acts + [Serve(i, v)];
      metrics.errors := metrics.errors + 1;
      ServeStep(s, acts, i, IncHandshakeError);
      acts := acts + [Serve(i, IncHandshakeError)];
      return false, acts;
    }
    ServeStep(s, acts, i, HandshakeOk);
    acts := acts + [Serve(i, HandshakeOk)];
    ok := true;
  }

  /** The handler of a connection that has shaken hands. */
  ghost predicate ReadyToDial(s: State, i: nat, client: Socket, header: seq<Byte>)
    reads client
  {
    && i < |s.handlers| && Fresh(client)
    && s.handlers[i] == NewHandler(client.kind, header, client.incoming).(pc := Dialing)
  }

  /** From a backend just dialled to the start of the fuse: the header, if asked for, is written before anything
      else, and only then are the success and the handler counted. */
  method Prepare(client: Socket, backend: Socket, header: seq<Byte>, proxyProtocol: bool, metrics: Metrics,
                 ghost s: State, ghost i: nat)
    returns (ok: bool, ghost acts: seq<Action>)
    requires client != backend && Fresh(backend) && ReadyToDial(s, i, client, header)
    requires metrics.View() == s.counters && s.proxyProtocol == proxyProtocol
    modifies backend`written, backend`failed, metrics`success, metrics`handlers
    ensures IsRun(s, acts) && metrics.View() == After(s, acts).counters && After(s, acts).heap == s.heap
    ensures metrics.success == old(metrics.success) + One(ok) && metrics.handlers == old(metrics.handlers) + One(ok)
    ensures ok
        ==> && Joined(After(s, acts), i, Up, client, backend)
            && After(s, acts).handlers[i].up.stage.Taking? && After(s, acts).handlers[i].down.stage.Taking?
            && backend.written == (if proxyProtocol then header else []) && backend.failed == old(backend.failed)
    ensures !ok
        ==> && proxyProtocol && backend.failed && backend.written <= header
            && i < |After(s, acts).handlers| && After(s, acts).handlers[i].pc == Leaving(FailedHeader)
            && After(s, acts).handlers[i].client == client.Halves()
  {
    ghost var dial := DialOk(backend.kind, backend.incoming);
    ServeStep(s, [], i, dial);
    acts := [] + [Serve(i, dial)];
    if proxyProtocol {
      var n;
      n, ok := backend.Write(header);
      ghost var v := if ok then HeaderOk else HeaderErr(n);
      ServeStep(s, acts, i, v);
      acts := acts + [Serve(i, v)];
      if !ok {
        return;
      }
    }
    metrics.success := metrics.success + 1;
    ServeStep(s, acts, i, IncSuccess);
    acts := acts + [Serve(i, IncSuccess)];
    metrics.handlers := metrics.handlers + 1;
    ServeStep(s, acts, i, AddWait);
    acts := acts + [Serve(i, AddWait)];
    ok := true;
  }

  /** The deferred calls that every handler ends with. */
  method Leave(client: Socket, metrics: Metrics, ghost s: State, ghost i: nat) returns (ghost acts: seq<Action>)
    requires i < |s.handlers| && s.handlers[i].pc.Leaving? && s.handlers[i].client == client.Halves()
    requires metrics.View() == s.counters
    modifies client`rd, client`wr, metrics`open
    ensures !client.rd && !client.wr && metrics.open == old(metrics.open) - 1
    ensures IsRun(s, acts) && metrics.View() == After(s, acts).counters && After(s, acts).heap == s.heap
    ensures i < |After(s, acts).handlers|
    ensures var h := After(s, acts).handlers[i];
            h.pc == Finished(s.handlers[i].pc.outcome) && h.client == client.Halves()
  {
    metrics.open := metrics.open - 1;
    ServeStep(s, [], i, DecOpen);
    acts := [] + [Serve(i, DecOpen)];
    client.Close();
    ServeStep(s, acts, i, CloseClient);
    acts := acts + [Serve(i, CloseClient)];
  }

  /** The fuse, and its Done. */
  method Forward(client: Socket, backend: Socket, pool: BufferPool, metrics: Metrics, ghost s: State, ghost i: nat)
    returns (ghost acts: seq<Action>)
    requires client != backend && Joined(s, i, Up, client, backend)
    requires s.handlers[i].up.stage.Taking? && s.handlers[i].down.stage.Taking?
    requires pool.Valid() && pool.Backs(s.heap) && metrics.View() == s.counters
    modifies client, backend, pool, pool.names.Keys, metrics`handlers
    ensures metrics.handlers == old(metrics.handlers) - 1
    ensures IsRun(s, acts) && metrics.View() == After(s, acts).counters
    ensures pool.Valid() && pool.Backs(After(s, acts).heap)
    ensures i < |After(s, acts).handlers|
    ensures After(s, acts).handlers[i].pc == Leaving(Served) && After(s, acts).handlers[i].client == client.Halves()
    ensures !backend.rd && !backend.wr
    ensures old(backend.written) <= backend.written <= old(backend.written) + client.incoming[old(client.pos)..]
    ensures old(client.written) <= client.written <= old(client.written) + backend.incoming[old(backend.pos)..]
    ensures !client.failed && !backend.failed
        ==> && backend.written == old(backend.written) + client.incoming[old(client.pos)..]
            && client.written == old(client.written) + backend.incoming[old(backend.pos)..]
  {
    acts := Fuse(client, backend, pool, s, i);
    ServeStep(s, acts, i, FuseReturns);
    acts := acts + [Serve(i, FuseReturns)];
    metrics.handlers := metrics.handlers - 1;
    ServeStep(s, acts, i, DoneWait);
    acts := acts + [Serve(i, DoneWait)];
  }

  /** What the two peers have received of each other when a handler is through: the preamble comes first, nothing
      is invented, and unless something failed nothing is missing. */
  ghost predicate Exchanged(client: Socket, backend: Socket, preamble: seq<Byte>, served: bool)
    reads client, backend
  {
    && backend.written <= preamble + client.incoming && client.written <= backend.incoming
    && (served ==> preamble <= backend.written)
    && (!served ==> backend.written <= preamble && client.written == [])
    && (served && !client.failed && !backend.failed
        ==> backend.written == preamble + client.incoming && client.written == backend.incoming)
  }

  /** A backend just dialled: prepared and forwarded, or given up. */
  method ServeBackend(client: Socket, backend: Socket, header: seq<Byte>, proxyProtocol: bool,
                      pool: BufferPool, metrics: Metrics, ghost s: State, ghost i: nat)
    returns (served: bool, ghost acts: seq<Action>)
    requires ReadyToDial(s, i, client, header) && metrics.View() == s.counters && s.proxyProtocol == proxyProtocol
    requires backend != client && Fresh(backend) && pool.Valid() && pool.Backs(s.heap)
    modifies client, backend, pool, pool.names.Keys, metrics`handlers, metrics`success
    ensures metrics.handlers == old(metrics.handlers) && metrics.success == old(metrics.success) + One(served)
    ensures IsRun(s, acts) && metrics.View() == After(s, acts).counters
    ensures pool.Valid() && pool.Backs(After(s, acts).heap)
    ensures i < |After(s, acts).handlers|
    ensures After(s, acts).handlers[i].pc == Leaving(if served then Served else FailedHeader)
    ensures After(s, acts).handlers[i].client == client.Halves()
    ensures served ==> !backend.rd && !backend.wr
    ensures Exchanged(client, backend, if proxyProtocol then header else [], served)
  {
    served, acts := Prepare(client, backend, header, proxyProtocol, metrics, s, i);
    if served {
      assert client.incoming[client.pos..] == client.incoming && backend.incoming[backend.pos..] == backend.incoming;
      ghost var rest := Forward(client, backend, pool, metrics, After(s, acts), i);
      PP.RunConcat(s, acts, rest);
      acts := acts + rest;
    }
  }

  /** After a successful handshake: what Dial returned decides. */
  method DialAndServe(client: Socket, dialled: Option<Socket>, header: seq<Byte>, proxyProtocol: bool,
                      pool: BufferPool, metrics: Metrics, ghost s: State, ghost i: nat)
    returns (served: bool, ghost acts: seq<Action>)
    requires ReadyToDial(s, i, client, header) && metrics.View() == s.counters && s.proxyProtocol == proxyProtocol
    requires dialled.Some? ==> dialled.value != client && Fresh(dialled.value)
    requires pool.Valid() && pool.Backs(s.heap)
    modifies client, pool, pool.names.Keys, metrics`handlers, metrics`success
    modifies if dialled.Some? then {dialled.value} else {}
    ensures metrics.handlers == old(metrics.handlers) && metrics.success == old(metrics.success) + One(served)
    ensures IsRun(s, acts) && metrics.View() == After(s, acts).counters
    ensures pool.Valid() && pool.Backs(After(s, acts).heap)
    ensures i < |After(s, acts).handlers|
    ensures After(s, acts).handlers[i].pc.Leaving? && After(s, acts).handlers[i].client == client.Halves()
    ensures served <==> After(s, acts).handlers[i].pc.outcome.Served?
    ensures served ==> dialled.Some? && !dialled.value.rd && !dialled.value.wr
    ensures dialled.Some? ==> Exchanged(client, dialled.value, if proxyProtocol then header else [], served)
    ensures dialled.None? ==> client.written == []
  {
    if dialled.Some? {
      served, acts := ServeBackend(client, dialled.value, header, proxyProtocol, pool, metrics, s, i);
    } else {
      ServeStep(s, [], i, DialErr);
      served, acts := false, [] + [Serve(i, DialErr)];
    }
  }

  /** A whole handler, run without interruption: handshake, dial, header, fuse and the deferred calls in reverse
      order.  Its actions are a run of the protocol that finishes handler i; the wait group is balanced and the
      open counter drops by one on every path; each outcome is counted once; without a handshake nothing was
      exchanged. */
  method Handle(client: Socket, handshake: Handshake, dialled: Option<Socket>, header: seq<Byte>, proxyProtocol: bool,
                pool: BufferPool, metrics: Metrics, ghost s: State, ghost i: nat)
    returns (served: bool, ghost acts: seq<Action>)
    requires i < |s.handlers| && Fresh(client) && s.handlers[i] == NewHandler(client.kind, header, client.incoming)
    requires metrics.View() == s.counters && s.proxyProtocol == proxyProtocol
    requires dialled.Some? ==> dialled.value != client && Fresh(dialled.value)
    requires pool.Valid() && pool.Backs(s.heap)
    modifies client, pool, pool.names.Keys, metrics
    modifies if dialled.Some? then {dialled.value} else {}
    ensures IsRun(s, acts) && metrics.View() == After(s, acts).counters
    ensures pool.Valid() && pool.Backs(After(s, acts).heap)
    ensures i < |After(s, acts).handlers| && After(s, acts).handlers[i].pc.Finished?
    ensures After(s, acts).handlers[i].client == client.Halves()
    ensures served <==> After(s, acts).handlers[i].pc.outcome.Served?
    ensures !client.rd && !client.wr && (served ==> dialled.Some? && !dialled.value.rd && !dialled.value.wr)
    ensures metrics.handlers == old(metrics.handlers) && metrics.open == old(metrics.open) - 1
    ensures metrics.success == old(metrics.success) + One(served)
    ensures var refused := client.kind.Tls? && !handshake.Completes?;
            && metrics.errors == old(metrics.errors) + One(refused)
            && metrics.timeouts == old(metrics.timeouts) + One(refused && handshake.TimesOut?)
            && (refused ==> !served && client.written == [] && (dialled.Some? ==> dialled.value.written == []))
    ensures dialled.Some? ==> Exchanged(client, dialled.value, if proxyProtocol then header else [], served)
  {
    var ok;
    ok, acts := ForceHandshake(client, handshake, metrics, s, i);
    served := false;
    ghost var rest;
    if ok {
      served, rest := DialAndServe(client, dialled, header, proxyProtocol, pool, metrics, After(s, acts), i);
      PP.RunConcat(s, acts, rest);
      acts := acts + rest;
    }
    rest := Leave(client, metrics, After(s, acts), i);
    PP.RunConcat(s, acts, rest);
    acts := acts + rest;
  }
}
