/**
 Dialling a TLS backend: a timer and a handshake race to send one message each into a two-slot channel, and
 the dialling goroutine acts on whichever comes first.
 */
module DialRace {

  datatype Message = TimedOut | HandshakeDone(ok: bool)

  predicate IsError(m: Message) {
    m != HandshakeDone(true)
  }

  datatype HandshakePc = NotStarted | Running | Sent

  /** What the dialling call does next, or what it returned. */
  datatype MainPc =
    | Dialing
    | Starting
    | Receiving
    | Closing(m: Message)
    | DialFailed
    | Errored(m: Message)
    | Connected

  predicate HasReturned(pc: MainPc) {
    pc.DialFailed? || pc.Errored? || pc.Connected?
  }

  /** The connection under the TLS session. */
  datatype Raw = NoConn | OpenConn | ClosedConn

  const CAPACITY := 2

  /** `sent` records every message in the order sent; nothing reads it. */
  datatype State = State(
    timerFired: bool,
    handshake: HandshakePc,
    main: MainPc,
    raw: Raw,
    channel: seq<Message>,
    sent: seq<Message>)

  const INITIAL := State(false, NotStarted, Dialing, NoConn, [], [])

  datatype Action =
    | TimerFires
    | DialReturns(ok: bool)
    | StartHandshake
    | HandshakeReturns(ok: bool)
    | Receive
    | CloseRaw

  /** The goroutine concerned has reached the action; a send may still have to wait for a free slot. */
  predicate Attempts(s: State, a: Action) {
    match a
    case TimerFires => !s.timerFired
    case DialReturns(_) => s.main.Dialing?
    case StartHandshake => s.main.Starting?
    case HandshakeReturns(_) => s.handshake.Running?
    case Receive => s.main.Receiving?
    case CloseRaw => s.main.Closing?
  }

  predicate Enabled(s: State, a: Action) {
    && Attempts(s, a)
    && (a.TimerFires? || a.HandshakeReturns? ==> |s.channel| < CAPACITY)
    && (a.Receive? ==> s.channel != [])
  }

  function Send(s: State, m: Message): State {
    s.(channel := s.channel + [m], sent := s.sent + [m])
  }

  function Apply(s: State, a: Action): State
    requires Enabled(s, a)
  {
    match a
    case TimerFires => Send(s, TimedOut).(timerFired := true)
    case DialReturns(ok) => if ok then s.(main := Starting, raw := OpenConn) else s.(main := DialFailed)
    case StartHandshake => s.(main := Receiving, handshake := Running)
    case HandshakeReturns(ok) => Send(s, HandshakeDone(ok)).(handshake := Sent)
    case Receive =>
      var m := s.channel[0];
      s.(channel := s.channel[1..], main := if IsError(m) then Closing(m) else Connected)
    case CloseRaw => s.(main := Errored(s.main.m), raw := ClosedConn)
  }

  predicate IsRun(s: State, acts: seq<Action>)
    decreases |acts|
  {
    acts == [] || (Enabled(s, acts[0]) && IsRun(Apply(s, acts[0]), acts[1..]))
  }

  function After(s: State, acts: seq<Action>): State
    requires IsRun(s, acts)
    decreases |acts|
  {
    if acts == [] then s else After(Apply(s, acts[0]), acts[1..])
  }

  // ----- Invariant -----

  function Count(b: bool): nat {
    if b then 1 else 0
  }

  predicate HasReceived(pc: MainPc) {
    pc.Closing? || pc.Errored? || pc.Connected?
  }

  /** Each sender sends at most once, and messages are received in order. */
  predicate ChannelInv(s: State) {
    && |s.sent| == Count(s.timerFired) + Count(s.handshake.Sent?)
    && (!s.handshake.Sent? && s.sent != [] ==> s.sent[0] == TimedOut)
    && (if HasReceived(s.main) then s.sent != [] && s.sent == [s.sent[0]] + s.channel else s.sent == s.channel)
  }

  /** The first message decides. */
  predicate MainInv(s: State) {
    && (s.handshake.NotStarted? <==> s.main.Dialing? || s.main.Starting? || s.main.DialFailed?)
    && (s.raw.NoConn? <==> s.main.Dialing? || s.main.DialFailed?)
    && (s.raw.ClosedConn? <==> s.main.Errored?)
    && (s.main.Closing? || s.main.Errored? ==> s.sent != [] && s.main.m == s.sent[0] && IsError(s.main.m))
    && (s.main.Connected? ==> s.sent != [] && s.sent[0] == HandshakeDone(true))
  }

  predicate Inv(s: State) {
    ChannelInv(s) && MainInv(s)
  }

  lemma SendKeepsInv(s: State, m: Message)
    requires Inv(s)
    requires if m.TimedOut? then !s.timerFired else s.handshake.Running?
    ensures var t := Send(s, m);
            Inv(if m.TimedOut? then t.(timerFired := true) else t.(handshake := Sent))
  {
    if HasReceived(s.main) {
      assert s.sent + [m] == [s.sent[0]] + (s.channel + [m]);
    }
  }

  lemma InvKept(s: State, a: Action)
    requires Inv(s) && Enabled(s, a)
    ensures Inv(Apply(s, a))
  {
    match a
    case TimerFires => SendKeepsInv(s, TimedOut);
    case HandshakeReturns(ok) => SendKeepsInv(s, HandshakeDone(ok));
    case Receive => assert s.sent == [s.channel[0]] + s.channel[1..];
    case _ =>
  }

  lemma {:induction false} RunKeepsInv(s: State, acts: seq<Action>)
    requires Inv(s) && IsRun(s, acts)
    ensures Inv(After(s, acts))
    decreases |acts|
  {
    if acts != [] {
      InvKept(s, acts[0]);
      RunKeepsInv(Apply(s, acts[0]), acts[1..]);
    }
  }

  // ----- Theorems, for every order of timer, dial and handshake events -----

  /** At most two sends ever happen, and a sender that reaches its send never has to wait. */
  lemma SendersNeverBlock(acts: seq<Action>, a: Action)
    requires IsRun(INITIAL, acts) && (a.TimerFires? || a.HandshakeReturns?)
    ensures var s := After(INITIAL, acts); |s.sent| <= CAPACITY && (Attempts(s, a) ==> Enabled(s, a))
  {
    RunKeepsInv(INITIAL, acts);
  }

  /** The receiver waits only while both senders are still to come. */
  lemma ReceiverIsServed(acts: seq<Action>)
    requires IsRun(INITIAL, acts)
    ensures var s := After(INITIAL, acts);
            s.main.Receiving? && !Enabled(s, Receive) ==> !s.timerFired && s.handshake.Running?
  {
    RunKeepsInv(INITIAL, acts);
  }

  lemma {:induction false} RunLast(s: State, acts: seq<Action>)
    requires IsRun(s, acts) && acts != []
    ensures var n := |acts| - 1;
            && IsRun(s, acts[..n]) && Enabled(After(s, acts[..n]), acts[n])
            && After(s, acts) == Apply(After(s, acts[..n]), acts[n])
    decreases |acts|
  {
    var n := |acts| - 1;
    if n == 0 {
      assert acts[1..] == [] && acts[..n] == [];
    } else {
      RunLast(Apply(s, acts[0]), acts[1..]);
      assert acts[..n][1..] == acts[1..][..n - 1];
    }
  }

  /** The handshake returned with this result and the timer had not fired before. */
  predicate HandshakeFirst(acts: seq<Action>, ok: bool) {
    exists i :: 0 <= i < |acts| && acts[i] == HandshakeReturns(ok) && TimerFires !in acts[..i]
  }

  predicate HandshakeOver(acts: seq<Action>) {
    HandshakeReturns(true) in acts || HandshakeReturns(false) in acts
  }

  /** The timer fired and the handshake had not returned before. */
  predicate TimerFirst(acts: seq<Action>) {
    exists i :: 0 <= i < |acts| && acts[i] == TimerFires && !HandshakeOver(acts[..i])
  }

  /** What the events so far say about the state. */
  predicate Told(acts: seq<Action>, s: State) {
    && (s.timerFired <==> TimerFires in acts)
    && (s.handshake.Sent? <==> HandshakeOver(acts))
    && (s.main.DialFailed? <==> DialReturns(false) in acts)
    && (!s.raw.NoConn? <==> DialReturns(true) in acts)
    && (s.main.Errored? <==> CloseRaw in acts)
    && (HandshakeFirst(acts, true) <==> s.sent != [] && s.sent[0] == HandshakeDone(true))
    && (HandshakeFirst(acts, false) <==> s.sent != [] && s.sent[0] == HandshakeDone(false))
    && (TimerFirst(acts) <==> s.sent != [] && s.sent[0] == TimedOut)
  }

  /** Which event came first is settled by the first of them. */
  lemma FirstGrows(acts: seq<Action>, a: Action, ok: bool)
    ensures HandshakeFirst(acts + [a], ok)
        <==> HandshakeFirst(acts, ok) || (a == HandshakeReturns(ok) && TimerFires !in acts)
    ensures TimerFirst(acts + [a]) <==> TimerFirst(acts) || (a == TimerFires && !HandshakeOver(acts))
  {
    var all := acts + [a];
    assert all[..|acts|] == acts && all[|acts|] == a;
    assert forall i :: 0 <= i < |acts| ==> all[i] == acts[i] && all[..i] == acts[..i];
  }

  lemma ToldKept(acts: seq<Action>, s: State, a: Action)
    requires Told(acts, s) && Inv(s) && Enabled(s, a)
    ensures Told(acts + [a], Apply(s, a))
  {
    FirstGrows(acts, a, true);
    FirstGrows(acts, a, false);
  }

  lemma {:induction false} RunTold(acts: seq<Action>)
    requires IsRun(INITIAL, acts)
    ensures Told(acts, After(INITIAL, acts))
    decreases |acts|
  {
    if acts != [] {
      var n := |acts| - 1;
      RunLast(INITIAL, acts);
      RunTold(acts[..n]);
      RunKeepsInv(INITIAL, acts[..n]);
      ToldKept(acts[..n], After(INITIAL, acts[..n]), acts[n]);
      assert acts == acts[..n] + [acts[n]];
    }
  }

  /** A call that has returned, by what happened: a connection exactly if the handshake succeeded before the
      timer fired; otherwise the error of the failed dial, of the handshake if that returned first, or the
      timeout; and a connection that was dialled is then open if it is returned and closed if not. */
  lemma FirstEventDecides(acts: seq<Action>)
    requires IsRun(INITIAL, acts) && HasReturned(After(INITIAL, acts).main)
    ensures var s := After(INITIAL, acts);
            && (s.main == Connected <==> HandshakeFirst(acts, true))
            && (s.main == Errored(HandshakeDone(false)) <==> HandshakeFirst(acts, false))
            && (s.main == Errored(TimedOut) <==> DialReturns(true) in acts && TimerFirst(acts))
            && (s.main == DialFailed <==> DialReturns(false) in acts)
            && (s.raw == OpenConn <==> s.main == Connected)
            && (s.raw == ClosedConn <==> s.main.Errored?)
            && (s.main.Errored? <==> CloseRaw in acts)
  {
    RunKeepsInv(INITIAL, acts);
    RunTold(acts);
  }

  /** Once the call has returned, nothing that happens later, a timer in particular, changes its result or
      touches the connection. */
  lemma {:induction false} ReturnedIsFinal(s: State, acts: seq<Action>)
    requires Inv(s) && HasReturned(s.main) && IsRun(s, acts)
    ensures After(s, acts).main == s.main && After(s, acts).raw == s.raw
    decreases |acts|
  {
    if acts != [] {
      InvKept(s, acts[0]);
      ReturnedIsFinal(Apply(s, acts[0]), acts[1..]);
    }
  }
}
