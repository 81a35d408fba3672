/**
 A whole run of the process: startup, the signal loop, signal-driven and timed reloads, the shutdown timer,
 draining and the exit status, with the proxy protocol and the certificate's reloads running underneath.

 Time advances by `Tick`; a due timer fires before time moves on.
 */
module Lifecycle {
  import opened Options
  import P = ProxyMachine
  import PI = ProxyInvariant
  import PP = ProxyProgress
  import S = Status
  import K = Keystore

  /** A keystore has at least one file. */
  type Files = files: seq<seq<K.Block>> | |files| >= 1 witness [[]]

  /** `interval` zero turns timed reloads off; `certificate` was built from `files` before startup. */
  datatype Config = Config(
    proxyProtocol: bool,
    shutdownTimeout: nat,
    interval: nat,
    crypto: K.Crypto,
    files: Files,
    certificate: K.Certificate)

  predicate Configured(c: Config) {
    K.Assemble(c.crypto, c.files) == Some(c.certificate)
  }

  const SIGNAL_RELOAD: nat := 0
  const TIMED_RELOAD: nat := 1

  /** The signal loop reloads, and so does the timer if it is on. */
  function Keystore(c: Config): K.Config {
    K.Config(c.crypto, |c.files|, if c.interval == 0 then {SIGNAL_RELOAD} else {SIGNAL_RELOAD, TIMED_RELOAD})
  }

  // ----- Signals -----

  datatype OsSignal = SIGINT | SIGTERM | SIGUSR1

  const SHUTDOWN_SIGNALS := [SIGINT, SIGTERM]

  lemma ShutdownSignals(sig: OsSignal)
    ensures sig in SHUTDOWN_SIGNALS <==> sig != SIGUSR1
  {
    assert SHUTDOWN_SIGNALS[0] == SIGINT && SHUTDOWN_SIGNALS[1] == SIGTERM;
  }

  method IsShutdownSignal(sig: OsSignal) returns (r: bool)
    ensures r <==> sig in SHUTDOWN_SIGNALS
    ensures r <==> sig == SIGINT || sig == SIGTERM
  {
    ShutdownSignals(sig);
    for i := 0 to |SHUTDOWN_SIGNALS|
      invariant sig !in SHUTDOWN_SIGNALS[..i]
    {
      if sig == SHUTDOWN_SIGNALS[i] {
        return true;
      }
    }
    return false;
  }

  // ----- The process -----

  /** The main goroutine; each value names what it does next. */
  datatype MainPc =
    | Setup
    | Announcing
    | AwaitingSignal
    | SignalBegin
    | SignalReload
    | Arming
    | Stopping
    | Draining

  /** `signalled` and `signalReloads` record the first shutdown signal and the signal-driven reloads begun. */
  datatype State = State(
    proxy: P.State,
    status: S.State,
    certs: K.State,
    main: MainPc,
    timedReload: bool,
    now: nat,
    deadline: Option<nat>,
    exit: Option<int>,
    signalled: bool,
    signalReloads: nat)

  function Init(c: Config): State {
    var n := |c.files|;
    State(P.Init(c.proxyProtocol), S.INITIAL,
          K.State(K.Published(c.certificate, c.files, K.Stamps(0, n)), map[], n),
          Setup, false, 0, None, None, false, 0)
  }

  /** `Setup` covers everything before the accept loop is started. */
  datatype Action =
    | SetupFails
    | StartAccept
    | Announce
    | Signal(sig: OsSignal)
    | BeginSignalReload
    | FinishSignalReload
    | ArmTimer
    | ShutdownStep
    | WaitReturns
    | TimerFires
    | BeginTimedReload
    | FinishTimedReload
    | CertStep(k: K.Action)
    | ProxyStep(a: P.Action)
    | Tick

  predicate Due(s: State) {
    s.deadline.Some? && s.deadline.value <= s.now
  }

  /** A reload brackets the certificate's own with the two calls on the status. */
  predicate CanBegin(c: Config, s: State, id: nat) {
    S.Enabled(s.status, S.Begin(id)) && K.Enabled(Keystore(c), s.certs, K.Begin(id))
  }

  predicate CanFinish(s: State, id: nat) {
    S.Enabled(s.status, S.Finish(id)) && id !in s.certs.reloads
  }

  predicate Enabled(c: Config, s: State, a: Action) {
    s.exit.None? &&
    match a
    case SetupFails => s.main.Setup?
    case StartAccept => s.main.Setup?
    case Announce => s.main.Announcing?
    case Signal(_) => s.main.AwaitingSignal?
    case BeginSignalReload => s.main.SignalBegin? && CanBegin(c, s, SIGNAL_RELOAD)
    case FinishSignalReload => s.main.SignalReload? && CanFinish(s, SIGNAL_RELOAD)
    case ArmTimer => s.main.Arming?
    case ShutdownStep => s.main.Stopping?
    case WaitReturns => s.main.Draining? && P.Enabled(s.proxy, P.WaitReturns)
    case TimerFires => Due(s)
    case BeginTimedReload => 0 < c.interval <= s.now && !s.timedReload && CanBegin(c, s, TIMED_RELOAD)
    case FinishTimedReload => s.timedReload && CanFinish(s, TIMED_RELOAD)
    case CertStep(k) => !k.Begin? && K.Enabled(Keystore(c), s.certs, k)
    case ProxyStep(p) => !s.main.Setup? && !p.Shut? && !p.WaitReturns? && P.Enabled(s.proxy, p)
    case Tick => !Due(s)
  }

  function Apply(c: Config, s: State, a: Action): State
    requires Enabled(c, s, a)
  {
    match a
    case SetupFails => s.(exit := Some(1))
    case StartAccept => s.(main := Announcing)
    case Announce => s.(main := AwaitingSignal, status := S.Apply(s.status, S.Announce))
    case Signal(sig) =>
      if sig in SHUTDOWN_SIGNALS then s.(main := Arming, signalled := true) else s.(main := SignalBegin)
    case BeginSignalReload =>
      s.(main := SignalReload, signalReloads := s.signalReloads + 1,
         status := S.Apply(s.status, S.Begin(SIGNAL_RELOAD)),
         certs := K.Apply(Keystore(c), s.certs, K.Begin(SIGNAL_RELOAD)))
    case FinishSignalReload => s.(main := AwaitingSignal, status := S.Apply(s.status, S.Finish(SIGNAL_RELOAD)))
    case ArmTimer => s.(main := Stopping, deadline := Some(s.now + c.shutdownTimeout))
    case ShutdownStep =>
      var p := P.Apply(s.proxy, P.Shut);
      s.(proxy := p, main := if p.control.shut.Idle? then Draining else Stopping)
    case WaitReturns => s.(exit := Some(0))
    case TimerFires => s.(exit := Some(1))
    case BeginTimedReload =>
      s.(timedReload := true, status := S.Apply(s.status, S.Begin(TIMED_RELOAD)),
         certs := K.Apply(Keystore(c), s.certs, K.Begin(TIMED_RELOAD)))
    case FinishTimedReload => s.(timedReload := false, status := S.Apply(s.status, S.Finish(TIMED_RELOAD)))
    case CertStep(k) => s.(certs := K.Apply(Keystore(c), s.certs, k))
    case ProxyStep(p) => s.(proxy := P.Apply(s.proxy, p))
    case Tick => s.(now := s.now + 1)
  }

  predicate IsRun(c: Config, s: State, acts: seq<Action>)
    decreases |acts|
  {
    acts == [] || (Enabled(c, s, acts[0]) && IsRun(c, Apply(c, s, acts[0]), acts[1..]))
  }

  function After(c: Config, s: State, acts: seq<Action>): State
    requires IsRun(c, s, acts)
    decreases |acts|
  {
    if acts == [] then s else After(c, Apply(c, s, acts[0]), acts[1..])
  }

  ghost predicate Reachable(c: Config, s: State) {
    exists acts: seq<Action> :: IsRun(c, Init(c), acts) && s == After(c, Init(c), acts)
  }

  // ----- Invariant -----

  /** How far the main goroutine got, against the proxy's flags, the timer and the records. */
  predicate MainInv(c: Config, s: State) {
    var control := s.proxy.control;
    && (s.signalled <==> s.main.Arming? || s.main.Stopping? || s.main.Draining?)
    && (s.deadline.Some? <==> s.main.Stopping? || s.main.Draining?)
    && (!s.main.Stopping? && !s.main.Draining? ==> control.shut.Idle? && !control.quit)
    && (s.main.Stopping? ==> control.shut.Idle? ==> !control.quit)
    && (s.main.Draining? ==> control.shut.Idle? && control.quit)
    && (s.deadline.Some? ==> s.now <= s.deadline.value)
    && (s.exit == Some(0) ==> s.main.Draining? && s.proxy.counters.wait == 0)
    && (s.exit == Some(1) ==> s.main.Setup? || Due(s))
    && (s.exit.Some? ==> s.exit.value == 0 || s.exit.value == 1)
  }

  predicate StatusInv(c: Config, s: State) {
    && S.Inv(s.status)
    && (SIGNAL_RELOAD in s.status.active <==> s.main.SignalReload?)
    && (TIMED_RELOAD in s.status.active <==> s.timedReload)
    && (forall id :: id in s.status.active ==> id == SIGNAL_RELOAD || id == TIMED_RELOAD)
    && (s.status.listening && (s.main.Setup? || s.main.Announcing?) ==> 0 < c.interval)
    && (!s.main.Setup? && !s.main.Announcing? ==> s.status.listening)
    && (s.timedReload ==> 0 < c.interval)
  }

  /** The certificate is being reloaded only inside the brackets. */
  predicate ReloadInv(c: Config, s: State) {
    && (SIGNAL_RELOAD in s.certs.reloads ==> s.main.SignalReload?)
    && (TIMED_RELOAD in s.certs.reloads ==> s.timedReload)
    && s.certs.reloads.Keys <= Keystore(c).reloaders
  }

  /** No reload has read more files than there are. */
  predicate FilesInv(c: Config, certs: K.State) {
    forall id :: id in certs.reloads ==> |certs.reloads[id].files| <= |c.files|
  }

  ghost predicate Inv(c: Config, s: State) {
    PI.Inv(s.proxy) && MainInv(c, s) && StatusInv(c, s) && ReloadInv(c, s) && FilesInv(c, s.certs)
  }

  lemma InitInv(c: Config)
    ensures Inv(c, Init(c))
  {
    InitProxy(c);
    InitMain(c);
    InvParts(c, Init(c));
  }

  lemma InitProxy(c: Config)
    ensures PI.Inv(Init(c).proxy)
  {
    PI.InitInv(Init(c).proxy, c.proxyProtocol);
  }

  lemma InvParts(c: Config, s: State)
    requires PI.Inv(s.proxy) && MainInv(c, s) && StatusInv(c, s) && ReloadInv(c, s) && FilesInv(c, s.certs)
    ensures Inv(c, s)
  {
  }

  lemma InitMain(c: Config)
    ensures MainInv(c, Init(c)) && StatusInv(c, Init(c)) && ReloadInv(c, Init(c)) && FilesInv(c, Init(c).certs)
  {
  }

  /** Proxy actions other than Shutdown and Wait leave the flag and the Shutdown call alone. */
  lemma ProxyStepControl(s: P.State, a: P.Action)
    requires P.Enabled(s, a) && !a.Shut?
    ensures var t := P.Apply(s, a).control;
            t.shut == s.control.shut && t.quit == s.control.quit && t.listening == s.control.listening
  {
  }

  lemma MainKept(c: Config, s: State, a: Action)
    requires PI.ControlInv(s.proxy.control) && MainInv(c, s) && Enabled(c, s, a)
    ensures MainInv(c, Apply(c, s, a))
  {
    match a
    case ProxyStep(p) => ProxyStepControl(s.proxy, p);
    case _ =>
  }

  lemma StatusKept(c: Config, s: State, a: Action)
    requires StatusInv(c, s) && Enabled(c, s, a)
    ensures StatusInv(c, Apply(c, s, a))
  {
    match a
    case Announce => S.InvKept(s.status, S.Announce);
    case BeginSignalReload => S.InvKept(s.status, S.Begin(SIGNAL_RELOAD));
    case FinishSignalReload => S.InvKept(s.status, S.Finish(SIGNAL_RELOAD));
    case BeginTimedReload => S.InvKept(s.status, S.Begin(TIMED_RELOAD));
    case FinishTimedReload => S.InvKept(s.status, S.Finish(TIMED_RELOAD));
    case _ =>
  }

  lemma ReloadKept(c: Config, s: State, a: Action)
    requires ReloadInv(c, s) && Enabled(c, s, a)
    ensures ReloadInv(c, Apply(c, s, a))
  {
  }

  lemma FilesStep(c: Config, certs: K.State, k: K.Action)
    requires FilesInv(c, certs) && K.Enabled(Keystore(c), certs, k)
    ensures FilesInv(c, K.Apply(Keystore(c), certs, k))
  {
  }

  lemma FilesKept(c: Config, s: State, a: Action)
    requires FilesInv(c, s.certs) && Enabled(c, s, a)
    ensures FilesInv(c, Apply(c, s, a).certs)
  {
    CertEffect(c, s, a);
    if CertAction(a).Some? {
      FilesStep(c, s.certs, CertAction(a).value);
    }
  }

  lemma ProxyKept(c: Config, s: State, a: Action)
    requires PI.Inv(s.proxy) && Enabled(c, s, a)
    ensures PI.Inv(Apply(c, s, a).proxy)
  {
    match a
    case ProxyStep(p) => PI.InvKept(s.proxy, p);
    case ShutdownStep => PI.InvKept(s.proxy, P.Shut);
    case _ =>
  }

  lemma InvKept(c: Config, s: State, a: Action)
    requires Inv(c, s) && Enabled(c, s, a)
    ensures Inv(c, Apply(c, s, a))
  {
    MainKept(c, s, a);
    StatusKept(c, s, a);
    ReloadKept(c, s, a);
    FilesKept(c, s, a);
    ProxyKept(c, s, a);
    InvParts(c, Apply(c, s, a));
  }

  lemma {:induction false} RunKeepsInv(c: Config, s: State, acts: seq<Action>)
    requires Inv(c, s) && IsRun(c, s, acts)
    ensures Inv(c, After(c, s, acts))
    decreases |acts|
  {
    if acts != [] {
      InvKept(c, s, acts[0]);
      RunKeepsInv(c, Apply(c, s, acts[0]), acts[1..]);
    }
  }

  lemma ReachableInv(c: Config, s: State)
    requires Reachable(c, s)
    ensures Inv(c, s)
  {
    var acts: seq<Action> :| IsRun(c, Init(c), acts) && s == After(c, Init(c), acts);
    InitInv(c);
    RunKeepsInv(c, Init(c), acts);
  }

  // ----- Time -----

  function Ticks(acts: seq<Action>): nat {
    if acts == [] then 0 else (if acts[0].Tick? then 1 else 0) + Ticks(acts[1..])
  }

  /** After the shutdown signal: the clock moves by ticks only, an armed timer is neither moved nor outrun, and
      the signal loop does not reload. */
  lemma SignalledStep(c: Config, s: State, a: Action)
    requires MainInv(c, s) && s.signalled && Enabled(c, s, a)
    ensures var t := Apply(c, s, a);
            && t.signalled && !a.BeginSignalReload?
            && t.now == s.now + Ticks([a])
            && (s.deadline.Some? ==> t.deadline == s.deadline)
  {
    assert [a][1..] == [];
  }

  lemma {:induction false} SignalledRun(c: Config, s: State, acts: seq<Action>)
    requires Inv(c, s) && s.signalled && IsRun(c, s, acts)
    ensures var t := After(c, s, acts);
            && t.now == s.now + Ticks(acts) && BeginSignalReload !in acts
            && (s.deadline.Some? ==> t.deadline == s.deadline && s.now + Ticks(acts) <= s.deadline.value)
    decreases |acts|
  {
    if acts != [] {
      SignalledStep(c, s, acts[0]);
      InvKept(c, s, acts[0]);
      SignalledRun(c, Apply(c, s, acts[0]), acts[1..]);
    }
  }

  /** A timer that is due stays due, whatever else happens, until the process has exited; firing then ends it
      with status 1. */
  lemma {:induction false} DueTimerFires(c: Config, s: State, acts: seq<Action>)
    requires Inv(c, s) && Due(s) && IsRun(c, s, acts)
    ensures var t := After(c, s, acts);
            && Due(t) && t.now == s.now
            && (t.exit.None? ==> Enabled(c, t, TimerFires) && Apply(c, t, TimerFires).exit == Some(1))
    decreases |acts|
  {
    if acts != [] {
      SignalledStep(c, s, acts[0]);
      InvKept(c, s, acts[0]);
      assert [acts[0]][1..] == [];
      DueTimerFires(c, Apply(c, s, acts[0]), acts[1..]);
    }
  }

  // ----- What has happened -----

  lemma {:induction false} RunLast(c: Config, s: State, acts: seq<Action>)
    requires IsRun(c, s, acts) && acts != []
    ensures var n := |acts| - 1;
            && IsRun(c, s, acts[..n]) && Enabled(c, After(c, s, acts[..n]), acts[n])
            && After(c, s, acts) == Apply(c, After(c, s, acts[..n]), acts[n])
    decreases |acts|
  {
    var n := |acts| - 1;
    if n == 0 {
      assert acts[1..] == [] && acts[..n] == [];
    } else {
      RunLast(c, Apply(c, s, acts[0]), acts[1..]);
      assert acts[..n][1..] == acts[1..][..n - 1];
    }
  }

  lemma {:induction false} TicksSnoc(acts: seq<Action>, a: Action)
    ensures Ticks(acts + [a]) == Ticks(acts) + (if a.Tick? then 1 else 0)
  {
    if acts == [] {
      assert [a][1..] == [] && [] + [a] == [a];
    } else {
      assert (acts + [a])[1..] == acts[1..] + [a];
      TicksSnoc(acts[1..], a);
    }
  }

  predicate ShutdownSignalled(acts: seq<Action>) {
    Signal(SIGINT) in acts || Signal(SIGTERM) in acts
  }

  /** How many refresh signals the loop has received. */
  function Refreshes(acts: seq<Action>): nat {
    if acts == [] then 0
    else
      var n := |acts| - 1;
      Refreshes(acts[..n]) + if acts[n] == Signal(SIGUSR1) then 1 else 0
  }

  lemma RefreshesSnoc(acts: seq<Action>, a: Action)
    ensures Refreshes(acts + [a]) == Refreshes(acts) + (if a == Signal(SIGUSR1) then 1 else 0)
    ensures ShutdownSignalled(acts + [a]) <==> ShutdownSignalled(acts) || a == Signal(SIGINT) || a == Signal(SIGTERM)
  {
    var all := acts + [a];
    assert all[..|all| - 1] == acts && all[|all| - 1] == a;
  }

  /** The timer was armed, and this is when it is due. */
  predicate ArmedFor(c: Config, acts: seq<Action>, deadline: nat) {
    exists i :: 0 <= i < |acts| && acts[i] == ArmTimer && deadline == Ticks(acts[..i]) + c.shutdownTimeout
  }

  lemma ArmedGrows(c: Config, acts: seq<Action>, a: Action, deadline: nat)
    ensures ArmedFor(c, acts + [a], deadline)
        <==> ArmedFor(c, acts, deadline) || (a == ArmTimer && deadline == Ticks(acts) + c.shutdownTimeout)
  {
    var all := acts + [a];
    assert all[..|acts|] == acts && all[|acts|] == a;
    assert forall i :: 0 <= i < |acts| ==> all[i] == acts[i] && all[..i] == acts[..i];
  }

  /** What the actions so far say about the state: the signals, the time, and how far the process got. */
  predicate SignalTold(acts: seq<Action>, s: State) {
    && (s.signalled <==> ShutdownSignalled(acts))
    && Refreshes(acts) == s.signalReloads + (if s.main.SignalBegin? then 1 else 0)
  }

  ghost predicate TimeTold(c: Config, acts: seq<Action>, s: State) {
    && s.now == Ticks(acts)
    && (s.deadline.None? <==> ArmTimer !in acts)
    && (forall d: nat :: ArmedFor(c, acts, d) <==> s.deadline == Some(d))
  }

  predicate PhaseTold(acts: seq<Action>, s: State) {
    && (s.main.Setup? <==> StartAccept !in acts)
    && (s.main.Setup? || s.main.Announcing? <==> Announce !in acts)
    && (s.exit == Some(0) <==> WaitReturns in acts)
    && (s.exit == Some(1) <==> SetupFails in acts || TimerFires in acts)
  }

  ghost predicate Told(c: Config, acts: seq<Action>, s: State) {
    SignalTold(acts, s) && TimeTold(c, acts, s) && PhaseTold(acts, s)
  }

  lemma SignalKept(c: Config, acts: seq<Action>, s: State, a: Action)
    requires SignalTold(acts, s) && Enabled(c, s, a)
    ensures SignalTold(acts + [a], Apply(c, s, a))
  {
    RefreshesSnoc(acts, a);
    if a.Signal? {
      ShutdownSignals(a.sig);
    }
  }

  lemma TimeKept(c: Config, acts: seq<Action>, s: State, a: Action)
    requires TimeTold(c, acts, s) && MainInv(c, s) && Enabled(c, s, a)
    ensures TimeTold(c, acts + [a], Apply(c, s, a))
  {
    TicksSnoc(acts, a);
    forall d: nat
      ensures ArmedFor(c, acts + [a], d) <==> Apply(c, s, a).deadline == Some(d)
    {
      ArmedGrows(c, acts, a, d);
    }
  }

  lemma PhaseKept(c: Config, acts: seq<Action>, s: State, a: Action)
    requires PhaseTold(acts, s) && Enabled(c, s, a)
    ensures PhaseTold(acts + [a], Apply(c, s, a))
  {
  }

  lemma ToldKept(c: Config, acts: seq<Action>, s: State, a: Action)
    requires Told(c, acts, s) && MainInv(c, s) && Enabled(c, s, a)
    ensures Told(c, acts + [a], Apply(c, s, a))
  {
    SignalKept(c, acts, s, a);
    TimeKept(c, acts, s, a);
    PhaseKept(c, acts, s, a);
  }

  lemma ToldGrows(c: Config, s: State, acts: seq<Action>)
    requires IsRun(c, s, acts) && acts != [] && IsRun(c, s, acts[..|acts| - 1])
    requires Told(c, acts[..|acts| - 1], After(c, s, acts[..|acts| - 1]))
    requires MainInv(c, After(c, s, acts[..|acts| - 1]))
    ensures Told(c, acts, After(c, s, acts))
  {
    var n := |acts| - 1;
    assert acts == acts[..n] + [acts[n]];
    RunLast(c, s, acts);
    ToldKept(c, acts[..n], After(c, s, acts[..n]), acts[n]);
  }

  lemma {:induction false} RunTold(c: Config, acts: seq<Action>)
    requires IsRun(c, Init(c), acts)
    ensures Told(c, acts, After(c, Init(c), acts))
    decreases |acts|
  {
    if acts != [] {
      RunLast(c, Init(c), acts);
      RunTold(c, acts[..|acts| - 1]);
      RunMain(c, acts[..|acts| - 1]);
      ToldGrows(c, Init(c), acts);
    }
  }

  lemma RunMain(c: Config, acts: seq<Action>)
    requires IsRun(c, Init(c), acts)
    ensures MainInv(c, After(c, Init(c), acts)) && PI.ControlInv(After(c, Init(c), acts).proxy.control)
  {
    InitInv(c);
    RunKeepsInv(c, Init(c), acts);
  }

  /** Over every run: shutdown begins exactly if SIGINT or SIGTERM was received; without one the proxy is not
      asked to stop, no timer is armed and the process does not exit with status 0; and each refresh signal
      starts one reload. */
  lemma SignalHistory(c: Config, acts: seq<Action>)
    requires IsRun(c, Init(c), acts)
    ensures var s := After(c, Init(c), acts);
            && (s.signalled <==> ShutdownSignalled(acts))
            && (!ShutdownSignalled(acts)
                ==> && !s.proxy.control.quit && s.proxy.control.listening
                    && s.deadline.None? && s.exit != Some(0))
            && Refreshes(acts) == s.signalReloads + (if s.main.SignalBegin? then 1 else 0)
  {
    RunTold(c, acts);
    RunMain(c, acts);
  }

  /** Over every run: the process exits with status 0 exactly when Wait returned, which is after a shutdown signal,
      with the listener closed, the count zero and the timer not overrun; and with status 1 exactly when setup
      failed or the timer fired, which is `shutdownTimeout` ticks after it was armed. */
  lemma ExitHistory(c: Config, acts: seq<Action>)
    requires IsRun(c, Init(c), acts)
    ensures var s := After(c, Init(c), acts);
            && (s.exit == Some(0) <==> WaitReturns in acts)
            && (s.exit == Some(1) <==> SetupFails in acts || TimerFires in acts)
            && (s.exit.Some? ==> s.exit == Some(0) || s.exit == Some(1))
            && (s.exit == Some(0)
                ==> && ShutdownSignalled(acts)
                    && s.proxy.control.quit && !s.proxy.control.listening && s.proxy.counters.wait == 0
                    && exists d :: ArmedFor(c, acts, d) && Ticks(acts) <= d)
            && (s.exit == Some(1) && StartAccept in acts ==> ShutdownSignalled(acts) && ArmedFor(c, acts, Ticks(acts)))
  {
    RunTold(c, acts);
    RunMain(c, acts);
    var s := After(c, Init(c), acts);
    if s.deadline.Some? {
      assert ArmedFor(c, acts, s.deadline.value);
    }
  }

  /** Every action of a run is taken in the state that the actions before it lead to. */
  lemma {:induction false} RunAt(c: Config, s: State, acts: seq<Action>, i: nat)
    requires IsRun(c, s, acts) && i < |acts|
    ensures IsRun(c, s, acts[..i]) && Enabled(c, After(c, s, acts[..i]), acts[i])
    decreases |acts|
  {
    var n := |acts| - 1;
    RunLast(c, s, acts);
    if i < n {
      RunAt(c, s, acts[..n], i);
      assert acts[..n][..i] == acts[..i];
    }
  }

  /** Timed reloads begin only if they are on, and not before the first interval is over. */
  lemma TimedReloadHistory(c: Config, acts: seq<Action>, i: nat)
    requires IsRun(c, Init(c), acts) && i < |acts| && acts[i] == BeginTimedReload
    ensures 0 < c.interval <= Ticks(acts[..i])
  {
    RunAt(c, Init(c), acts, i);
    RunTold(c, acts[..i]);
  }

  /** However a run goes on after a shutdown signal: no signal starts a reload any more, the timer is armed before
      the proxy is shut down, and no more ticks pass than `shutdownTimeout` after it was armed. */
  lemma ShutdownBounded(c: Config, past: seq<Action>, acts: seq<Action>)
    requires IsRun(c, Init(c), past) && ShutdownSignalled(past) && IsRun(c, After(c, Init(c), past), acts)
    ensures BeginSignalReload !in acts
    ensures After(c, Init(c), past).proxy.control.quit ==> ArmTimer in past
    ensures forall d: nat :: ArmedFor(c, past, d) ==> Ticks(past) + Ticks(acts) <= d
  {
    RunTold(c, past);
    RunReaches(c, past);
    BoundedFrom(c, After(c, Init(c), past), past, acts);
  }

  lemma RunReaches(c: Config, acts: seq<Action>)
    requires IsRun(c, Init(c), acts)
    ensures Reachable(c, After(c, Init(c), acts))
  {
  }

  lemma BoundedFrom(c: Config, s: State, past: seq<Action>, acts: seq<Action>)
    requires Reachable(c, s) && Told(c, past, s) && ShutdownSignalled(past) && IsRun(c, s, acts)
    ensures BeginSignalReload !in acts
    ensures s.proxy.control.quit ==> ArmTimer in past
    ensures forall d: nat :: ArmedFor(c, past, d) ==> Ticks(past) + Ticks(acts) <= d
  {
    ReachableInv(c, s);
    SignalledRun(c, s, acts);
  }

  // ----- A graceful exit -----

  lemma RunCons(c: Config, s: State, a: Action, rest: seq<Action>)
    requires Enabled(c, s, a) && IsRun(c, Apply(c, s, a), rest)
    ensures IsRun(c, s, [a] + rest) && After(c, s, [a] + rest) == After(c, Apply(c, s, a), rest)
  {
    assert ([a] + rest)[1..] == rest;
  }

  /** What the main goroutine can always do next, up to draining; a reload that it waits for may fail. */
  function NextMain(c: Config, s: State): Action {
    match s.main
    case Setup => StartAccept
    case Announcing => Announce
    case AwaitingSignal => Signal(SIGTERM)
    case SignalBegin => BeginSignalReload
    case SignalReload =>
      if SIGNAL_RELOAD !in s.certs.reloads then FinishSignalReload
      else if s.certs.reloads[SIGNAL_RELOAD].Storing? then CertStep(K.Store(SIGNAL_RELOAD))
      else if |s.certs.reloads[SIGNAL_RELOAD].files| < |c.files| then CertStep(K.ReadFile(SIGNAL_RELOAD, None))
      else CertStep(K.Build(SIGNAL_RELOAD))
    case Arming => ArmTimer
    case _ => ShutdownStep
  }

  function StepsToDraining(s: State): nat {
    match s.main
    case Setup => 13
    case SignalBegin => 12
    case SignalReload =>
      if SIGNAL_RELOAD !in s.certs.reloads then 8 else if s.certs.reloads[SIGNAL_RELOAD].Storing? then 9 else 10
    case Announcing => 8
    case AwaitingSignal => 7
    case Arming => 6
    case Stopping => 1 + PP.StepsToRelease(s.proxy.control)
    case Draining => 0
  }

  lemma NextMainStep(c: Config, s: State)
    requires PI.ControlInv(s.proxy.control) && MainInv(c, s) && StatusInv(c, s) && ReloadInv(c, s)
    requires FilesInv(c, s.certs) && s.exit.None? && !s.main.Draining?
    ensures var a := NextMain(c, s);
            && Enabled(c, s, a)
            && var t := Apply(c, s, a);
               t.exit.None? && t.now == s.now && StepsToDraining(t) < StepsToDraining(s)
  {
    ShutdownSignals(SIGTERM);
  }

  /** The proxy can go on by itself while the main goroutine waits for it. */
  lemma {:induction false} LiftProxy(c: Config, s: State, steps: seq<P.Action>, rest: seq<Action>)
    returns (acts: seq<Action>)
    requires s.main.Draining? && s.exit.None? && P.IsRun(s.proxy, steps)
    requires forall p :: p in steps ==> p.Serve? || p.Copy?
    requires IsRun(c, s.(proxy := P.After(s.proxy, steps)), rest)
    ensures IsRun(c, s, acts) && After(c, s, acts) == After(c, s.(proxy := P.After(s.proxy, steps)), rest)
    decreases |steps|
  {
    if steps == [] {
      acts := rest;
    } else {
      assert steps[0] in steps;
      var t := s.(proxy := P.Apply(s.proxy, steps[0]));
      acts := LiftProxy(c, t, steps[1..], rest);
      RunCons(c, s, ProxyStep(steps[0]), acts);
      acts := [ProxyStep(steps[0])] + acts;
    }
  }

  lemma DrainAndExit(c: Config, s: State) returns (acts: seq<Action>)
    requires Inv(c, s) && s.exit.None? && s.main.Draining?
    ensures IsRun(c, s, acts) && After(c, s, acts).exit == Some(0) && After(c, s, acts).now == s.now
  {
    var steps := PP.CanDrain(s.proxy);
    var t := s.(proxy := P.After(s.proxy, steps));
    assert IsRun(c, Apply(c, t, WaitReturns), []);
    RunCons(c, t, WaitReturns, []);
    acts := LiftProxy(c, s, steps, [WaitReturns] + []);
  }

  /** From every state that has not exited, some run ends in a graceful exit, without any time passing. */
  lemma {:induction false} CanExitGracefully(c: Config, s: State) returns (acts: seq<Action>)
    requires Inv(c, s) && s.exit.None?
    ensures IsRun(c, s, acts) && After(c, s, acts).exit == Some(0) && After(c, s, acts).now == s.now
    decreases StepsToDraining(s)
  {
    if s.main.Draining? {
      acts := DrainAndExit(c, s);
    } else {
      var a := NextMain(c, s);
      NextMainStep(c, s);
      InvKept(c, s, a);
      acts := CanExitGracefully(c, Apply(c, s, a));
      RunCons(c, s, a, acts);
      acts := [a] + acts;
    }
  }

  // ----- Building runs -----

  lemma ReachableInit(c: Config)
    ensures Reachable(c, Init(c))
  {
    assert After(c, Init(c), []) == Init(c);
  }

  lemma ReachableStep(c: Config, s: State, a: Action)
    requires Reachable(c, s) && Enabled(c, s, a)
    ensures Reachable(c, Apply(c, s, a))
  {
    var acts: seq<Action> :| IsRun(c, Init(c), acts) && s == After(c, Init(c), acts);
    RunSnoc(c, Init(c), acts, a);
  }

  lemma {:induction false} RunSnoc(c: Config, s: State, acts: seq<Action>, a: Action)
    requires IsRun(c, s, acts) && Enabled(c, After(c, s, acts), a)
    ensures IsRun(c, s, acts + [a]) && After(c, s, acts + [a]) == Apply(c, After(c, s, acts), a)
    decreases |acts|
  {
    if acts == [] {
      assert [a][1..] == [];
      assert IsRun(c, Apply(c, s, a), []);
    } else {
      RunSnoc(c, Apply(c, s, acts[0]), acts[1..], a);
      assert (acts + [a])[1..] == acts[1..] + [a];
    }
  }

  /** Before the shutdown timer is armed, time can pass. */
  lemma {:induction false} ReachableLater(c: Config, s: State, n: nat)
    requires Reachable(c, s) && s.exit.None? && s.deadline.None?
    ensures Reachable(c, s.(now := s.now + n))
    decreases n
  {
    if n > 0 {
      ReachableStep(c, s, Tick);
      ReachableLater(c, s.(now := s.now + 1), n - 1);
    }
  }

  /** Reloads that have begun can go on in any way the certificate's protocol allows. */
  lemma {:induction false} ReachableCerts(c: Config, s: State, acts: seq<K.Action>)
    requires Reachable(c, s) && s.exit.None? && K.IsRun(Keystore(c), s.certs, acts) && K.NoBegin(acts)
    ensures Reachable(c, s.(certs := K.After(Keystore(c), s.certs, acts)))
    decreases |acts|
  {
    if acts != [] {
      ReachableStep(c, s, CertStep(acts[0]));
      ReachableCerts(c, s.(certs := K.Apply(Keystore(c), s.certs, acts[0])), acts[1..]);
    }
  }

  // ----- The listening flag -----

  /** The status page says "listening" only once the accept loop has been started. */
  ghost predicate ListeningIsTrue(c: Config) {
    forall s: State :: Reachable(c, s) && s.status.listening ==> !s.main.Setup?
  }

  /** A timed reload also raises the flag, and timed reloads run during startup: the flag can be trusted exactly
      when they are turned off. */
  lemma ListeningExact(c: Config)
    ensures ListeningIsTrue(c) <==> c.interval == 0
  {
    if c.interval == 0 {
      forall s: State | Reachable(c, s) && s.status.listening
        ensures !s.main.Setup?
      {
        ReachableInv(c, s);
      }
    } else {
      var s := EarlyReload(c);
    }
  }

  lemma EarlyReload(c: Config) returns (s: State)
    requires c.interval > 0
    ensures Reachable(c, s) && s.status.listening && s.main.Setup?
  {
    ReachableInit(c);
    ReachableLater(c, Init(c), c.interval);
    s := Init(c).(now := c.interval);
    ReachableStep(c, s, BeginTimedReload);
    s := Apply(c, s, BeginTimedReload);
    var failed := CertStep(K.ReadFile(TIMED_RELOAD, None));
    ReachableStep(c, s, failed);
    s := Apply(c, s, failed);
    ReachableStep(c, s, FinishTimedReload);
    s := Apply(c, s, FinishTimedReload);
  }

  /** Once startup has announced itself, no signal, reload or shutdown ever changes the verdict of the status page:
      it is the backend's, in every reachable state. */
  lemma VerdictAfterStartup(c: Config, s: State, backendOk: bool, r: S.Response)
    requires Reachable(c, s) && !s.main.Setup? && !s.main.Announcing? && S.Reports(s.status, backendOk, r)
    ensures r.ok <==> backendOk
  {
    ReachableInv(c, s);
  }

  // ----- Overlapping reloads -----

  ghost predicate NeverOverlap(c: Config) {
    forall s: State :: Reachable(c, s) ==> |s.certs.reloads| <= 1
  }

  /** A state in which the timer and the signal loop have both just begun to reload. */
  lemma BothReloading(c: Config) returns (s: State)
    requires c.interval > 0
    ensures Reachable(c, s) && s.exit.None?
    ensures s.certs.reloads == map[SIGNAL_RELOAD := K.Gathering([], []), TIMED_RELOAD := K.Gathering([], [])]
  {
    ReachableInit(c);
    ReachableLater(c, Init(c), c.interval);
    s := Init(c).(now := c.interval);
    ReachableStep(c, s, StartAccept);
    s := Apply(c, s, StartAccept);
    ReachableStep(c, s, Announce);
    s := Apply(c, s, Announce);
    ReachableStep(c, s, Signal(SIGUSR1));
    s := Apply(c, s, Signal(SIGUSR1));
    ReachableStep(c, s, BeginSignalReload);
    s := Apply(c, s, BeginSignalReload);
    ReachableStep(c, s, BeginTimedReload);
    s := Apply(c, s, BeginTimedReload);
  }

  /** At most one reload is ever in progress exactly when timed reloads are off. */
  lemma OverlapExact(c: Config)
    ensures NeverOverlap(c) <==> c.interval == 0
  {
    if c.interval == 0 {
      forall s: State | Reachable(c, s)
        ensures |s.certs.reloads| <= 1
      {
        ReachableInv(c, s);
        K.SmallerSet(s.certs.reloads.Keys, {SIGNAL_RELOAD});
      }
    } else {
      var s := BothReloading(c);
      K.SmallerSet({SIGNAL_RELOAD, TIMED_RELOAD}, s.certs.reloads.Keys);
    }
  }

  /** What an action does to the certificate is one action of its protocol, or nothing. */
  function CertAction(a: Action): Option<K.Action> {
    match a
    case BeginSignalReload => Some(K.Begin(SIGNAL_RELOAD))
    case BeginTimedReload => Some(K.Begin(TIMED_RELOAD))
    case CertStep(k) => Some(k)
    case _ => None
  }

  lemma CertEffect(c: Config, s: State, a: Action)
    requires Enabled(c, s, a)
    ensures CertAction(a).None? ==> Apply(c, s, a).certs == s.certs
    ensures CertAction(a).Some?
        ==> && K.Enabled(Keystore(c), s.certs, CertAction(a).value)
            && Apply(c, s, a).certs == K.Apply(Keystore(c), s.certs, CertAction(a).value)
  {
  }

  ghost predicate CertInv(c: Config, s: State) {
    K.Inv(Keystore(c), s.certs) && (c.interval == 0 ==> K.Newest(s.certs))
  }

  lemma CertKept(c: Config, s: State, a: Action)
    requires CertInv(c, s) && Enabled(c, s, a)
    ensures CertInv(c, Apply(c, s, a))
    ensures c.interval == 0 ==> !K.GoesBack(s.certs.cached, Apply(c, s, a).certs.cached)
  {
    CertEffect(c, s, a);
    if CertAction(a).Some? {
      K.InvKept(Keystore(c), s.certs, CertAction(a).value);
      if c.interval == 0 {
        K.NewestKept(Keystore(c), s.certs, CertAction(a).value);
      }
    }
  }

  lemma {:induction false} CertRun(c: Config, s: State, acts: seq<Action>)
    requires CertInv(c, s) && IsRun(c, s, acts)
    ensures CertInv(c, After(c, s, acts))
    decreases |acts|
  {
    if acts != [] {
      CertKept(c, s, acts[0]);
      CertRun(c, Apply(c, s, acts[0]), acts[1..]);
    }
  }

  /** Readers always find a complete certificate, in every reachable state of the process. */
  lemma ReachableCert(c: Config, s: State)
    requires Configured(c) && Reachable(c, s)
    ensures CertInv(c, s)
  {
    var acts: seq<Action> :| IsRun(c, Init(c), acts) && s == After(c, Init(c), acts);
    CertRun(c, Init(c), acts);
  }

  /** No step of the process makes readers go back from a certificate to a different one that was read before. */
  ghost predicate CertificateNeverGoesBack(c: Config) {
    forall s: State, a: Action ::
      Reachable(c, s) && Enabled(c, s, a) ==> !K.GoesBack(s.certs.cached, Apply(c, s, a).certs.cached)
  }

  /** Over every run of the process, readers never go back exactly when timed reloads are off, or whatever the
      files hold there is only one certificate to be had. */
  lemma CertificateOrderExact(c: Config)
    requires Configured(c)
    ensures CertificateNeverGoesBack(c) <==> c.interval == 0 || K.OneCertificate(Keystore(c))
  {
    if c.interval == 0 || K.OneCertificate(Keystore(c)) {
      forall s: State, a: Action | Reachable(c, s) && Enabled(c, s, a)
        ensures !K.GoesBack(s.certs.cached, Apply(c, s, a).certs.cached)
      {
        ReachableCert(c, s);
        CertKept(c, s, a);
      }
    } else {
      var p, q :| K.Complete(Keystore(c), p) && K.Complete(Keystore(c), q) && p.cert != q.cert;
      var s := OlderCertificateReturns(c, p, q);
    }
  }

  /** The timer's reload, which read later, stores first; then the signal's stores what it read before. */
  lemma OlderCertificateReturns(c: Config, p: K.Published, q: K.Published) returns (s: State)
    requires Configured(c) && c.interval > 0
    requires K.Complete(Keystore(c), p) && K.Complete(Keystore(c), q) && p.cert != q.cert
    ensures var a := CertStep(K.Store(SIGNAL_RELOAD));
            && Reachable(c, s) && Enabled(c, s, a)
            && s.certs.cached.cert == q.cert && Apply(c, s, a).certs.cached.cert == p.cert
            && K.GoesBack(s.certs.cached, Apply(c, s, a).certs.cached)
  {
    var t := BothReloading(c);
    var acts := K.Overtaken(Keystore(c), t.certs, SIGNAL_RELOAD, TIMED_RELOAD, p, q);
    ReachableCerts(c, t, acts);
    s := t.(certs := K.After(Keystore(c), t.certs, acts));
  }
}
