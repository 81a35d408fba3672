/**
 The status handler: two flags that overlapping reloads set and clear, and the answer derived from them.
 */
module Status {

  /** The flags, and the reloads between their call of Reloading and their call of Listening.  Each is marked
      with whether no other call of Listening has happened since; the marks only record the past. */
  datatype State = State(listening: bool, reloading: bool, active: map<nat, bool>)

  const INITIAL := State(false, false, map[])

  /** Startup announces itself with Listening; every reload brackets its work with Reloading and Listening. */
  datatype Action = Announce | Begin(id: nat) | Finish(id: nat)

  predicate Enabled(s: State, a: Action) {
    match a
    case Announce => true
    case Begin(id) => id !in s.active
    case Finish(id) => id in s.active
  }

  function Stale(active: map<nat, bool>): map<nat, bool> {
    map id | id in active :: false
  }

  function Apply(s: State, a: Action): State
    requires Enabled(s, a)
  {
    match a
    case Announce => State(true, false, Stale(s.active))
    case Begin(id) => State(s.listening, true, s.active[id := true])
    case Finish(id) => State(true, false, Stale(s.active - {id}))
  }

  predicate IsRun(s: State, acts: seq<Action>)
    decreases |acts|
  {
    acts == [] || (Enabled(s, acts[0]) && IsRun(Apply(s, acts[0]), acts[1..]))
  }

  function After(s: State, acts: seq<Action>): State
    requires IsRun(s, acts)
    decreases |acts|
  {
    if acts == [] then s else After(Apply(s, acts[0]), acts[1..])
  }

  /** The reloading flag is up exactly while some reload is in progress that no other Listening call has
      overtaken. */
  predicate Inv(s: State) {
    s.reloading <==> exists id :: id in s.active && s.active[id]
  }

  lemma InvKept(s: State, a: Action)
    requires Inv(s) && Enabled(s, a)
    ensures Inv(Apply(s, a))
  {
    if a.Begin? {
      assert Apply(s, a).active[a.id];
    }
  }

  /** Over every interleaving of any number of reloads: the listening flag never reverts, and with no reload in
      progress the reloading flag is down. */
  lemma {:induction false} StatusRun(s: State, acts: seq<Action>)
    requires Inv(s) && IsRun(s, acts)
    ensures var t := After(s, acts);
            && Inv(t)
            && (s.listening ==> t.listening)
            && (t.reloading ==> t.active != map[])
    decreases |acts|
  {
    if acts != [] {
      InvKept(s, acts[0]);
      StatusRun(Apply(s, acts[0]), acts[1..]);
    }
  }

  /** From startup on, by what has happened: listening exactly if some call of Listening has been made, and
      reloading exactly if the latest call was one of Reloading. */
  lemma {:induction false} FlagsHistory(acts: seq<Action>)
    requires IsRun(INITIAL, acts)
    ensures var s := After(INITIAL, acts);
            && (s.listening <==> exists i :: 0 <= i < |acts| && !acts[i].Begin?)
            && (s.reloading <==> acts != [] && acts[|acts| - 1].Begin?)
    decreases |acts|
  {
    if acts != [] {
      var n := |acts| - 1;
      RunLast(INITIAL, acts);
      FlagsHistory(acts[..n]);
      assert forall i :: 0 <= i < n ==> acts[..n][i] == acts[i];
    }
  }

  lemma {:induction false} RunLast(s: State, acts: seq<Action>)
    requires IsRun(s, acts) && acts != []
    ensures var n := |acts| - 1;
            && IsRun(s, acts[..n]) && Enabled(After(s, acts[..n]), acts[n])
            && After(s, acts) == Apply(After(s, acts[..n]), acts[n])
    decreases |acts|
  {
    var n := |acts| - 1;
    if n == 0 {
      assert acts[1..] == [] && acts[..n] == [];
    } else {
      RunLast(Apply(s, acts[0]), acts[1..]);
      assert acts[..n][1..] == acts[1..][..n - 1];
    }
  }

  // ----- The answer -----

  datatype Response = Response(
    ok: bool,
    status: string,
    backendOk: bool,
    backendStatus: string,
    message: string,
    httpCode: int)

  const HTTP_OK := 200
  const HTTP_UNAVAILABLE := 503

  /** What the status page reports for the given flags and backend. */
  ghost predicate Reports(s: State, backendOk: bool, r: Response) {
    && r.backendOk == backendOk
    && (r.ok <==> s.listening && backendOk)
    && r.httpCode == (if r.ok then 200 else 503)
    && r.status == (if r.ok then "ok" else "critical")
    && r.backendStatus == (if backendOk then "ok" else "critical")
    && r.message in {"initializing", "reloading", "listening"}
    && (r.message == "initializing" <==> !s.listening)
    && (r.message == "listening" <==> s.listening && !s.reloading)
  }

  predicate NoAnnounce(acts: seq<Action>) {
    forall i :: 0 <= i < |acts| ==> !acts[i].Announce?
  }

  predicate SomeFinish(acts: seq<Action>) {
    exists i :: 0 <= i < |acts| && acts[i].Finish?
  }

  lemma {:induction false} ListeningAfter(s: State, acts: seq<Action>)
    requires IsRun(s, acts) && NoAnnounce(acts)
    ensures After(s, acts).listening <==> s.listening || SomeFinish(acts)
    decreases |acts|
  {
    if acts != [] {
      ListeningAfter(Apply(s, acts[0]), acts[1..]);
      assert acts == [acts[0]] + acts[1..];
      if SomeFinish(acts[1..]) {
        var i :| 0 <= i < |acts[1..]| && acts[1..][i].Finish?;
        assert acts[i + 1].Finish?;
      }
      if SomeFinish(acts) && !acts[0].Finish? {
        var i :| 0 <= i < |acts| && acts[i].Finish?;
        assert acts[1..][i - 1].Finish?;
      }
    }
  }

  /** Any number of overlapping reloads, begun and finished in any order, leave the verdict as it was, exactly
      unless one of them finishes before startup has announced itself while the backend is up. */
  lemma ReloadKeepsVerdict(s: State, acts: seq<Action>, backendOk: bool, r: Response, r': Response)
    requires IsRun(s, acts) && NoAnnounce(acts)
    requires Reports(s, backendOk, r) && Reports(After(s, acts), backendOk, r')
    ensures r.ok == r'.ok <==> s.listening || !backendOk || !SomeFinish(acts)
  {
    ListeningAfter(s, acts);
  }

  class StatusHandler {
    var listening: bool
    var reloading: bool
    ghost var active: map<nat, bool>

    ghost function View(): State
      reads this
    {
      State(listening, reloading, active)
    }

    constructor ()
      ensures View() == INITIAL
    {
      listening, reloading, active := false, false, map[];
    }

    /** Called at startup and by the end of a reload; `who` says which. */
    method Listening(ghost who: Action)
      requires !who.Begin? && Enabled(View(), who)
      modifies this
      ensures View() == Apply(old(View()), who)
    {
      listening := true;
      reloading := false;
      active := Stale(if who.Finish? then active - {who.id} else active);
    }

    method Reloading(ghost id: nat)
      requires Enabled(View(), Begin(id))
      modifies this`reloading, this`active
      ensures View() == Apply(old(View()), Begin(id))
    {
      reloading := true;
      active := active[id := true];
    }

    method ServeHTTP(backendOk: bool) returns (r: Response)
      ensures Reports(View(), backendOk, r)
      ensures r.ok <==> listening && backendOk
      ensures r.message == if !listening then "initializing" else if reloading then "reloading" else "listening"
    {
      var backendStatus := if backendOk then "ok" else "critical";
      var ok := listening && backendOk;
      var message;
      if !listening {
        message := "initializing";
      } else if reloading {
        message := "reloading";
      } else {
        message := "listening";
      }
      assert message[0] == (if !listening then 'i' else if reloading then 'r' else 'l');
      var status := if ok && backendOk then "ok" else "critical";
      var httpCode := HTTP_OK;
      if !ok {
        httpCode := HTTP_UNAVAILABLE;
      }
      r := Response(ok, status, backendOk, backendStatus, message, httpCode);
    }
  }
}
