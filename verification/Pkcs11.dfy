/**
 A reloadable certificate whose private key lives in a PKCS#11 module: reloads replace the chain and keep the
 key obtained once, at construction.
 */
module Pkcs11 {
  import opened Options

  type Bytes = seq<bv8>
  type Key = nat

  datatype X509 = X509(raw: Bytes)

  datatype Certificate = Certificate(leaf: X509, chain: seq<Bytes>, key: Key)

  function Raws(certs: seq<X509>): seq<Bytes> {
    seq(|certs|, i requires 0 <= i < |certs| => certs[i].raw)
  }

  class Pkcs11Certificate {
    var cached: Option<Certificate>

    constructor ()
      ensures cached == None
    {
      cached := None;
    }

    /** `certs` is what reading the certificate file returned, `moduleKey` what the module would answer; the
        module is asked only if there is no certificate yet. */
    method Reload(certs: Option<seq<X509>>, moduleKey: Option<Key>) returns (ok: bool, asked: bool)
      requires certs.Some? ==> certs.value != []
      modifies this`cached
      ensures asked <==> certs.Some? && old(cached).None?
      ensures ok <==> certs.Some? && (old(cached).None? ==> moduleKey.Some?)
      ensures ok ==> cached == Some(Certificate(certs.value[0], Raws(certs.value),
                                                if asked then moduleKey.value else old(cached).value.key))
      ensures !ok ==> cached == old(cached)
    {
      if certs.None? {
        return false, false;
      }
      var chain := [];
      for i := 0 to |certs.value|
        invariant chain == Raws(certs.value)[..i]
      {
        chain := chain + [certs.value[i].raw];
      }
      assert chain == Raws(certs.value);
      if cached.Some? {
        cached := Some(Certificate(certs.value[0], chain, cached.value.key));
        return true, false;
      }
      if moduleKey.None? {
        return false, true;
      }
      cached := Some(Certificate(certs.value[0], chain, moduleKey.value));
      return true, true;
    }
  }

  // ----- Overlapping reloads -----

  /** A Reload in progress, by what it does next: the pointer is looked at and then loaded again. */
  datatype Reload =
    | ReadingFile
    | Checking(certs: seq<X509>)
    | LoadingOld(certs: seq<X509>)
    | Asking(certs: seq<X509>)
    | Storing(cert: Certificate)

  /** `asked` counts calls into the module and `key` records what it returned.  Construction is reload number
      zero, alone; the object is handed out only once that has stored. */
  datatype State = State(
    constructed: bool,
    cached: Option<Certificate>,
    reloads: map<nat, Reload>,
    asked: nat,
    key: Option<Key>)

  const CONSTRUCTING := State(false, None, map[0 := ReadingFile], 0, None)

  datatype Action =
    | Begin(id: nat)
    | ReadFile(id: nat, certs: Option<seq<X509>>)
    | Check(id: nat)
    | LoadOld(id: nat)
    | AskModule(id: nat, answer: Option<Key>)
    | Store(id: nat)

  predicate Enabled(s: State, a: Action) {
    match a
    case Begin(id) => s.constructed && id !in s.reloads
    case ReadFile(id, certs) =>
      id in s.reloads && s.reloads[id].ReadingFile? && (certs.Some? ==> certs.value != [])
    case Check(id) => id in s.reloads && s.reloads[id].Checking?
    case LoadOld(id) => id in s.reloads && s.reloads[id].LoadingOld? && s.reloads[id].certs != [] && s.cached.Some?
    case AskModule(id, _) => id in s.reloads && s.reloads[id].Asking? && s.reloads[id].certs != []
    case Store(id) => id in s.reloads && s.reloads[id].Storing?
  }

  function Built(certs: seq<X509>, key: Key): Certificate
    requires certs != []
  {
    Certificate(certs[0], Raws(certs), key)
  }

  function Apply(s: State, a: Action): State
    requires Enabled(s, a)
  {
    match a
    case Begin(id) => s.(reloads := s.reloads[id := ReadingFile])
    case ReadFile(id, certs) =>
      s.(reloads := if certs.None? then s.reloads - {id} else s.reloads[id := Checking(certs.value)])
    case Check(id) =>
      var certs := s.reloads[id].certs;
      s.(reloads := s.reloads[id := if s.cached.Some? then LoadingOld(certs) else Asking(certs)])
    case LoadOld(id) => s.(reloads := s.reloads[id := Storing(Built(s.reloads[id].certs, s.cached.value.key))])
    case AskModule(id, answer) =>
      s.(reloads := if answer.None? then s.reloads - {id}
                    else s.reloads[id := Storing(Built(s.reloads[id].certs, answer.value))],
         asked := s.asked + 1, key := answer)
    case Store(id) =>
      s.(cached := Some(s.reloads[id].cert), reloads := s.reloads - {id}, constructed := true)
  }

  predicate IsRun(s: State, acts: seq<Action>)
    decreases |acts|
  {
    acts == [] || (Enabled(s, acts[0]) && IsRun(Apply(s, acts[0]), acts[1..]))
  }

  function After(s: State, acts: seq<Action>): State
    requires IsRun(s, acts)
    decreases |acts|
  {
    if acts == [] then s else After(Apply(s, acts[0]), acts[1..])
  }

  predicate ReloadInv(s: State, r: Reload) {
    match r
    case ReadingFile => s.constructed || s.asked == 0
    case Checking(certs) => certs != [] && (s.constructed || s.asked == 0)
    case LoadingOld(certs) => certs != [] && s.constructed
    case Asking(certs) => certs != [] && !s.constructed && s.asked == 0
    case Storing(cert) => s.asked == 1 && s.key == Some(cert.key)
  }

  predicate Inv(s: State) {
    && (s.constructed ==> s.cached.Some? && s.asked == 1 && s.key == Some(s.cached.value.key))
    && (!s.constructed ==> s.cached.None? && s.reloads.Keys <= {0})
    && (forall id :: id in s.reloads ==> ReloadInv(s, s.reloads[id]))
  }

  lemma InvKept(s: State, a: Action)
    requires Inv(s) && Enabled(s, a)
    ensures Inv(Apply(s, a))
    ensures s.constructed ==> Apply(s, a).constructed && Apply(s, a).key == s.key
  {
  }

  /** Over every interleaving of reloads: once the object exists there is always a certificate, the module has
      been asked exactly once, and every certificate served carries the key it gave then. */
  lemma {:induction false} KeyStability(s: State, acts: seq<Action>)
    requires Inv(s) && IsRun(s, acts)
    ensures var t := After(s, acts);
            && Inv(t)
            && (t.constructed ==> t.cached.Some? && t.asked == 1 && t.key == Some(t.cached.value.key))
            && (s.constructed ==> t.constructed && t.cached.value.key == s.cached.value.key)
    decreases |acts|
  {
    if acts != [] {
      InvKept(s, acts[0]);
      KeyStability(Apply(s, acts[0]), acts[1..]);
    }
  }

  /** In particular from construction on. */
  lemma KeyStabilityFromStart(acts: seq<Action>)
    requires IsRun(CONSTRUCTING, acts) && After(CONSTRUCTING, acts).constructed
    ensures var t := After(CONSTRUCTING, acts);
            t.cached.Some? && t.asked == 1 && t.key == Some(t.cached.value.key)
  {
    KeyStability(CONSTRUCTING, acts);
  }

  // ----- Where the certificate and its key come from -----

  lemma {:induction false} RunLast(s: State, acts: seq<Action>)
    requires IsRun(s, acts) && acts != []
    ensures var n := |acts| - 1;
            && IsRun(s, acts[..n]) && Enabled(After(s, acts[..n]), acts[n])
            && After(s, acts) == Apply(After(s, acts[..n]), acts[n])
    decreases |acts|
  {
    var n := |acts| - 1;
    if n == 0 {
      assert acts[1..] == [] && acts[..n] == [];
    } else {
      RunLast(Apply(s, acts[0]), acts[1..]);
      assert acts[..n][1..] == acts[1..][..n - 1];
    }
  }

  /** How often the module was asked. */
  function Asks(acts: seq<Action>): nat {
    if acts == [] then 0
    else
      var n := |acts| - 1;
      Asks(acts[..n]) + if acts[n].AskModule? then 1 else 0
  }

  /** What reload `id` read last. */
  function LastRead(acts: seq<Action>, id: nat): Option<seq<X509>> {
    if acts == [] then None
    else
      var n := |acts| - 1;
      if acts[n].ReadFile? && acts[n].id == id then acts[n].certs else LastRead(acts[..n], id)
  }

  /** What the reload that stored last had read. */
  function LastStored(acts: seq<Action>): Option<seq<X509>> {
    if acts == [] then None
    else
      var n := |acts| - 1;
      if acts[n].Store? then LastRead(acts[..n], acts[n].id) else LastStored(acts[..n])
  }

  /** Leaf and chain are those of a file. */
  predicate ReadFrom(cert: Certificate, file: Option<seq<X509>>) {
    && file.Some? && file.value != [] && cert.leaf == file.value[0]
    && |cert.chain| == |file.value| && forall i :: 0 <= i < |cert.chain| ==> cert.chain[i] == file.value[i].raw
  }

  predicate ReloadTold(r: Reload, file: Option<seq<X509>>) {
    match r
    case ReadingFile => true
    case Checking(certs) => file == Some(certs)
    case LoadingOld(certs) => file == Some(certs)
    case Asking(certs) => file == Some(certs)
    case Storing(cert) => ReadFrom(cert, file)
  }

  ghost predicate Told(acts: seq<Action>, s: State) {
    && s.asked == Asks(acts)
    && (s.key.Some? ==> exists id :: AskModule(id, s.key) in acts)
    && (forall id :: id in s.reloads ==> ReloadTold(s.reloads[id], LastRead(acts, id)))
    && (s.cached.Some? ==> ReadFrom(s.cached.value, LastStored(acts)))
  }

  lemma HistorySnoc(acts: seq<Action>, a: Action)
    ensures var all := acts + [a]; all[..|all| - 1] == acts && all[|all| - 1] == a
    ensures Asks(acts + [a]) == Asks(acts) + (if a.AskModule? then 1 else 0)
    ensures LastStored(acts + [a]) == if a.Store? then LastRead(acts, a.id) else LastStored(acts)
    ensures forall id :: LastRead(acts + [a], id)
                      == if a.ReadFile? && a.id == id then a.certs else LastRead(acts, id)
  {
    var all := acts + [a];
    assert all[..|all| - 1] == acts && all[|all| - 1] == a;
  }

  lemma ToldKept(acts: seq<Action>, s: State, a: Action)
    requires Told(acts, s) && Enabled(s, a)
    ensures Told(acts + [a], Apply(s, a))
  {
    HistorySnoc(acts, a);
    if !a.Begin? {
      assert ReloadTold(s.reloads[a.id], LastRead(acts, a.id));
    }
    assert a in acts + [a];
  }

  lemma {:induction false} RunTold(acts: seq<Action>)
    requires IsRun(CONSTRUCTING, acts)
    ensures Told(acts, After(CONSTRUCTING, acts))
    decreases |acts|
  {
    if acts != [] {
      var n := |acts| - 1;
      RunLast(CONSTRUCTING, acts);
      RunTold(acts[..n]);
      ToldKept(acts[..n], After(CONSTRUCTING, acts[..n]), acts[n]);
      assert acts == acts[..n] + [acts[n]];
    }
  }

  /** Over every run from construction on: leaf and chain are what the reload that stored last had read from the
      file, the module was asked exactly once, and the key is its answer. */
  lemma PublishedHistory(acts: seq<Action>)
    requires IsRun(CONSTRUCTING, acts) && After(CONSTRUCTING, acts).constructed
    ensures var cached := After(CONSTRUCTING, acts).cached;
            && cached.Some? && ReadFrom(cached.value, LastStored(acts))
            && Asks(acts) == 1 && exists id :: AskModule(id, Some(cached.value.key)) in acts
  {
    KeyStability(CONSTRUCTING, acts);
    RunTold(acts);
  }

  /** No reload is ever stuck: the key it means to reuse is there. */
  lemma ReuseAlwaysPossible(acts: seq<Action>, id: nat)
    requires IsRun(CONSTRUCTING, acts)
    ensures var t := After(CONSTRUCTING, acts);
            id in t.reloads && t.reloads[id].LoadingOld? ==> Enabled(t, LoadOld(id))
  {
    KeyStability(CONSTRUCTING, acts);
  }
}
