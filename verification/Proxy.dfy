/**
 The proxy object: the same actions carried out in place on its fields.  Each method is one goroutine's
 atomic action, or an uninterrupted call, and is proved to do to the abstract state what the protocol says.
 */
module Proxy {
  import opened ProxyMachine
  import opened ProxyInvariant

  class Proxy {
    var proxyProtocol: bool
    var quit: bool
    var listening: bool
    var handlers: int
    var openCounter: int
    var totalCounter: int
    var successCounter: int
    var errorCounter: int
    var timeoutCounter: int
    var accept: AcceptPc
    var shut: ShutPc
    var conns: seq<Handler>
    var pool: set<nat>
    var memory: map<nat, seq<Byte>>
    ghost var released: bool
    ghost var late: nat
    ghost var acceptErrors: nat

    ghost function View(): State
      reads this
    {
      State(proxyProtocol,
            Control(quit, listening, accept, shut, released, late),
            Counters(handlers, openCounter, totalCounter, successCounter, errorCounter, timeoutCounter, acceptErrors),
            conns,
            Heap(pool, memory))
    }

    constructor ()
      ensures View() == Init(false)
    {
      proxyProtocol, quit, listening, handlers := false, false, true, 1;
      openCounter, totalCounter, successCounter, errorCounter, timeoutCounter := 0, 0, 0, 0, 0;
      accept, shut, conns, pool, memory := Accepting, Idle, [], {}, map[];
      released, late, acceptErrors := false, 0, 0;
    }

    /** May be called at any time; handlers look at the flag when they have dialled. */
    method EnableProxyProtocol()
      modifies this`proxyProtocol
      ensures View() == old(View()).(proxyProtocol := true)
      ensures old(View()) == Init(old(proxyProtocol)) ==> View() == Init(true)
    {
      proxyProtocol := true;
    }

    /** One action of the accept loop. */
    method AcceptStep(a: LoopAction)
      requires LoopEnabled(View().control, a)
      modifies this`accept, this`openCounter, this`totalCounter, this`errorCounter, this`conns
      modifies this`late, this`acceptErrors
      ensures View() == Apply(old(View()), Loop(a))
    {
      CountAccept(a);
      match a {
        case AcceptConn(kind, header, source) => accept := Accepted(NewHandler(kind, header, source));
        case AcceptError => accept := Failed(!listening);
        case IncOpen => accept := CountedOpen(accept.h);
        case IncTotal => accept := CountedTotal(accept.h);
        case Spawn =>
          late := if listening then late else late + 1;
          conns := conns + [accept.h];
          accept := Accepting;
        case LoadQuit => accept := if quit then Exited else Erring(accept.byClose);
        case IncError => accept := Accepting;
      }
    }

    /** What an action of the accept loop does to the metrics. */
    method CountAccept(a: LoopAction)
      modifies this`openCounter, this`totalCounter, this`errorCounter, this`acceptErrors
      ensures View() == old(View()).(counters := LoopCounters(old(View()).counters, a))
    {
      match a
      case IncOpen => openCounter := openCounter + 1;
      case IncTotal => totalCounter := totalCounter + 1;
      case IncError =>
        errorCounter := errorCounter + 1;
        acceptErrors := acceptErrors + 1;
      case _ =>
    }

    /** One action of the handler of connection i. */
    method ServeStep(i: nat, a: ServeAction)
      requires i < |conns| && ServeEnabled(conns[i], a)
      modifies this`conns, this`handlers, this`openCounter, this`successCounter, this`errorCounter, this`timeoutCounter
      ensures View() == Apply(old(View()), Serve(i, a))
    {
      conns := conns[i := ServeHandler(conns[i], a, proxyProtocol)];
      Count(a);
    }

    /** What an action of a handler does to the wait group and the metrics. */
    method Count(a: ServeAction)
      modifies this`handlers, this`openCounter, this`successCounter, this`errorCounter, this`timeoutCounter
      ensures View() == old(View()).(counters := ServeCounters(old(View()).counters, a))
    {
      match a
      case HandshakeTimeout => timeoutCounter := timeoutCounter + 1;
      case IncHandshakeError => errorCounter := errorCounter + 1;
      case IncSuccess => successCounter := successCounter + 1;
      case AddWait => handlers := handlers + 1;
      case DoneWait => handlers := handlers - 1;
      case DecOpen => openCounter := openCounter - 1;
      case _ =>
    }

    /** One action of a copier of connection i. */
    method CopyStep(i: nat, d: Direction, a: CopyAction)
      requires i < |conns| && CopyEnabled(conns[i], View().heap, d, a)
      modifies this`conns, this`pool, this`memory
      ensures View() == Apply(old(View()), Copy(i, d, a))
    {
      var p := conns[i].Copier(d);
      conns := conns[i := CopyHandler(conns[i], Heap(pool, memory), d, a)];
      UseBuffer(p, a);
    }

    /** What an action of a copier does to the buffers. */
    method UseBuffer(p: Pump, a: CopyAction)
      requires PumpEnabled(p, View().heap, a)
      modifies this`pool, this`memory
      ensures View() == old(View()).(heap := CopyHeap(p, old(View()).heap, a))
    {
      match a
      case Take(b) =>
        pool := pool - {b};
        if b !in memory {
          memory := memory[b := []];
        }
      case Read(n) =>
        memory := memory[p.stage.buf := p.source[p.pos..p.pos + n]];
      case Put =>
        pool := pool + {p.stage.buf};
      case _ =>
    }

    /** One action of a Shutdown call. */
    method ShutdownStep()
      modifies this`quit, this`listening, this`handlers, this`shut, this`released
      ensures View() == Apply(old(View()), Shut)
    {
      match shut
      case Idle =>
        if !quit {
          shut := WillStore;
        }
      case WillStore =>
        quit := true;
        shut := WillClose;
      case WillClose =>
        listening := false;
        shut := WillDone;
      case WillDone =>
        handlers := handlers - 1;
        shut := Idle;
        released := true;
    }

    /** An uninterrupted call: four actions the first time, one every later time; the wait group is released
        once and the count stays right however often it is called. */
    method Shutdown()
      requires ControlInv(View().control) && shut.Idle?
      modifies this`quit, this`listening, this`handlers, this`released
      ensures var steps := if old(quit) then [Shut] else [Shut, Shut, Shut, Shut];
              IsRun(old(View()), steps) && View() == After(old(View()), steps)
      ensures shut.Idle? && quit && !listening
      ensures handlers == old(handlers) - One(!old(quit))
    {
      ShutdownRun(View());
      if quit {
        return;
      }
      quit := true;
      listening := false;
      handlers := handlers - 1;
      released := true;
    }

    /** Any interleaving, carried out in place, keeps the invariant and ends where the protocol says. */
    method Run(schedule: seq<Action>)
      requires Inv(View()) && IsRun(View(), schedule)
      modifies this
      ensures View() == After(old(View()), schedule) && Inv(View())
      decreases |schedule|
    {
      if schedule == [] {
        return;
      }
      ghost var before := View();
      InvKept(before, schedule[0]);
      Step(schedule[0]);
      assert View() == Apply(before, schedule[0]);
      Run(schedule[1..]);
    }

    method Step(a: Action)
      requires Enabled(View(), a)
      modifies this
      ensures View() == Apply(old(View()), a)
    {
      match a
      case Loop(l) => AcceptStep(l);
      case Shut => ShutdownStep();
      case WaitReturns =>
      case Serve(i, v) => ServeStep(i, v);
      case Copy(i, d, c) => CopyStep(i, d, c);
      case Collect(b) =>
        pool := pool - {b};
        memory := memory - {b};
    }
  }

  /** Four Shut actions in a row, from a proxy that has not been shut down; one from a proxy that has. */
  lemma ShutdownRun(s: State)
    requires s.control.shut.Idle?
    ensures s.control.quit ==> IsRun(s, [Shut]) && After(s, [Shut]) == s
    ensures !s.control.quit
        ==> IsRun(s, [Shut, Shut, Shut, Shut])
            && After(s, [Shut, Shut, Shut, Shut])
               == s.(control := s.control.(quit := true, listening := false, released := true),
                     counters := s.counters.(wait := s.counters.wait - 1))
  {
    assert [Shut][1..] == [];
    assert IsRun(Apply(s, Shut), []);
    if !s.control.quit {
      var s1 := Apply(s, Shut);
      var s2 := Apply(s1, Shut);
      var s3 := Apply(s2, Shut);
      var s4 := Apply(s3, Shut);
      assert IsRun(s4, []);
      assert IsRun(s3, [Shut]) && After(s3, [Shut]) == s4;
      assert [Shut, Shut][1..] == [Shut];
      assert IsRun(s2, [Shut, Shut]) && After(s2, [Shut, Shut]) == s4;
      assert [Shut, Shut, Shut][1..] == [Shut, Shut];
      assert IsRun(s1, [Shut, Shut, Shut]) && After(s1, [Shut, Shut, Shut]) == s4;
      assert [Shut, Shut, Shut, Shut][1..] == [Shut, Shut, Shut];
    }
  }
}
