/**
 A certificate that can be reloaded while it is being served.  Reload gathers every file, builds a
 certificate and publishes it with one pointer store; readers load the pointer.

 PEM decoding, key pairs and X.509 parsing belong to libraries: they are the functions of `Crypto`, and what a
 file held at the moment it was read is a parameter.
 */
module Keystore {
  import opened Options

  type Bytes = seq<bv8>
  type Block = seq<bv8>
  type Key = nat

  datatype KeyPair = KeyPair(chain: seq<Bytes>, key: Key)

  datatype Certificate = Certificate(chain: seq<Bytes>, key: Key, leaf: Bytes)

  /** `encode` writes a block as PEM, `keyPair` finds a matching chain and key in the bytes, `parse` reads a
      leaf certificate. */
  datatype Crypto = Crypto(encode: Block -> Bytes, keyPair: Bytes -> Option<KeyPair>, parse: Bytes -> Option<Bytes>)

  /** A successful key pair comes with a nonempty chain, as the library promises. */
  ghost predicate Sound(crypto: Crypto) {
    forall bytes :: crypto.keyPair(bytes).Some? ==> crypto.keyPair(bytes).value.chain != []
  }

  function Encoded(crypto: Crypto, blocks: seq<Block>): Bytes {
    if blocks == [] then [] else Encoded(crypto, blocks[..|blocks| - 1]) + crypto.encode(blocks[|blocks| - 1])
  }

  function Flatten(files: seq<seq<Block>>): seq<Block> {
    if files == [] then [] else Flatten(files[..|files| - 1]) + files[|files| - 1]
  }

  /** The certificate that a set of files, all read, makes up. */
  function Assemble(crypto: Crypto, files: seq<seq<Block>>): Option<Certificate> {
    var pair := crypto.keyPair(Encoded(crypto, Flatten(files)));
    if pair.None? || pair.value.chain == [] then None
    else
      var leaf := crypto.parse(pair.value.chain[0]);
      if leaf.None? then None else Some(Certificate(pair.value.chain, pair.value.key, leaf.value))
  }

  /** A certificate is made up of the key pair found in all the files, and its leaf is the first of the chain. */
  lemma AssembleExact(crypto: Crypto, files: seq<seq<Block>>, cert: Certificate)
    ensures Assemble(crypto, files) == Some(cert)
        <==> && crypto.keyPair(Encoded(crypto, Flatten(files))) == Some(KeyPair(cert.chain, cert.key))
             && cert.chain != [] && crypto.parse(cert.chain[0]) == Some(cert.leaf)
  {
  }

  /** The bytes handed to the library are the encodings of all blocks of all files, in order. */
  lemma {:induction false} FilesInOrder(crypto: Crypto, left: seq<seq<Block>>, right: seq<seq<Block>>, block: Block)
    ensures Encoded(crypto, Flatten(left + right)) == Encoded(crypto, Flatten(left)) + Encoded(crypto, Flatten(right))
    ensures Encoded(crypto, Flatten([[block]])) == crypto.encode(block)
    decreases |right|
  {
    assert Flatten([[block]]) == [block] by {
      assert [[block]][..0] == [] && Flatten([]) == [];
    }
    assert Encoded(crypto, [block]) == crypto.encode(block) by {
      assert [block][..0] == [] && Encoded(crypto, []) == [];
    }
    FlattenAppend(left, right);
    EncodedAppend(crypto, Flatten(left), Flatten(right));
  }

  lemma {:induction false} FlattenAppend(left: seq<seq<Block>>, right: seq<seq<Block>>)
    ensures Flatten(left + right) == Flatten(left) + Flatten(right)
    decreases |right|
  {
    if right == [] {
      assert left + right == left;
    } else {
      var n := |right| - 1;
      assert (left + right)[..|left| + n] == left + right[..n];
      FlattenAppend(left, right[..n]);
    }
  }

  lemma {:induction false} EncodedAppend(crypto: Crypto, left: seq<Block>, right: seq<Block>)
    ensures Encoded(crypto, left + right) == Encoded(crypto, left) + Encoded(crypto, right)
    decreases |right|
  {
    if right == [] {
      assert left + right == left;
    } else {
      var n := |right| - 1;
      assert (left + right)[..|left| + n] == left + right[..n];
      EncodedAppend(crypto, left, right[..n]);
    }
  }

  /** The files, if none of the reads failed. */
  ghost predicate AllRead(contents: seq<Option<seq<Block>>>, files: seq<seq<Block>>) {
    |files| == |contents| && forall i :: 0 <= i < |contents| ==> contents[i] == Some(files[i])
  }

  /** What one Reload publishes, given what its reads returned. */
  ghost predicate Loads(crypto: Crypto, contents: seq<Option<seq<Block>>>, cert: Certificate) {
    exists files :: AllRead(contents, files) && Assemble(crypto, files) == Some(cert)
  }

  class KeystoreCertificate {
    const paths: seq<string>
    var cached: Option<Certificate>

    constructor (paths: seq<string>)
      ensures this.paths == paths && cached == None
    {
      this.paths := paths;
      cached := None;
    }

    /** Succeeds exactly when every file was read and they make up a certificate, and then publishes it; a
        failure leaves the published certificate as it was.  `contents` is what reading each path returned. */
    method Reload(crypto: Crypto, contents: seq<Option<seq<Block>>>) returns (ok: bool)
      requires |contents| == |paths| && Sound(crypto)
      modifies this`cached
      ensures ok ==> cached.Some? && Loads(crypto, contents, cached.value)
      ensures ok ==> cached.value.chain != [] && crypto.parse(cached.value.chain[0]) == Some(cached.value.leaf)
      ensures !ok ==> cached == old(cached) && forall cert :: !Loads(crypto, contents, cert)
    {
      ghost var files: seq<seq<Block>> := [];
      var blocks := [];
      for i := 0 to |contents|
        invariant |files| == i && AllRead(contents[..i], files) && blocks == Flatten(files)
      {
        if contents[i].None? {
          return false;
        }
        blocks := blocks + contents[i].value;
        files := files + [contents[i].value];
        assert files[..i] + [files[i]] == files && files[..i] == files[..|files| - 1];
      }
      assert contents[..|contents|] == contents;
      var bytes := [];
      for i := 0 to |blocks|
        invariant bytes == Encoded(crypto, blocks[..i])
      {
        bytes := bytes + crypto.encode(blocks[i]);
        assert blocks[..i + 1][..i] == blocks[..i];
      }
      assert blocks[..|blocks|] == blocks;
      FilesUnique(crypto, contents, files);
      var pair := crypto.keyPair(bytes);
      if pair.None? {
        return false;
      }
      var leaf := crypto.parse(pair.value.chain[0]);
      if leaf.None? {
        return false;
      }
      cached := Some(Certificate(pair.value.chain, pair.value.key, leaf.value));
      return true;
    }

    method GetCertificate() returns (cert: Option<Certificate>)
      ensures cert == cached
    {
      return cached;
    }
  }

  /** What was read determines the files, hence the certificate. */
  lemma FilesUnique(crypto: Crypto, contents: seq<Option<seq<Block>>>, files: seq<seq<Block>>)
    requires AllRead(contents, files)
    ensures forall cert :: Loads(crypto, contents, cert) <==> Assemble(crypto, files) == Some(cert)
  {
    forall other | AllRead(contents, other)
      ensures other == files
    {
      assert forall i :: 0 <= i < |contents| ==> other[i] == contents[i].value == files[i];
    }
  }

  // ----- Overlapping reloads -----

  /** A Reload in progress: still reading, or about to store what it built.  `at` is when each file was read. */
  datatype Reload =
    | Gathering(files: seq<seq<Block>>, at: seq<nat>)
    | Storing(files: seq<seq<Block>>, at: seq<nat>, cert: Certificate)

  /** A published certificate, with what the reload that built it had read, and when. */
  datatype Published = Published(cert: Certificate, files: seq<seq<Block>>, at: seq<nat>)

  /** `reloaders` are the goroutines that may call Reload. */
  datatype Config = Config(crypto: Crypto, paths: nat, reloaders: set<nat>)

  /** `clock` counts the reads. */
  datatype State = State(cached: Published, reloads: map<nat, Reload>, clock: nat)

  datatype Action =
    | Begin(id: nat)
    | ReadFile(id: nat, content: Option<seq<Block>>)
    | Build(id: nat)
    | Store(id: nat)

  predicate Enabled(c: Config, s: State, a: Action) {
    match a
    case Begin(id) => id in c.reloaders && id !in s.reloads
    case ReadFile(id, _) => id in s.reloads && s.reloads[id].Gathering? && |s.reloads[id].files| < c.paths
    case Build(id) => id in s.reloads && s.reloads[id].Gathering? && |s.reloads[id].files| == c.paths
    case Store(id) => id in s.reloads && s.reloads[id].Storing?
  }

  /** A reload whose read or build fails just ends. */
  function Apply(c: Config, s: State, a: Action): State
    requires Enabled(c, s, a)
  {
    match a
    case Begin(id) => s.(reloads := s.reloads[id := Gathering([], [])])
    case ReadFile(id, content) =>
      var r := s.reloads[id];
      if content.None? then s.(reloads := s.reloads - {id})
      else s.(reloads := s.reloads[id := Gathering(r.files + [content.value], r.at + [s.clock])], clock := s.clock + 1)
    case Build(id) =>
      var r := s.reloads[id];
      var cert := Assemble(c.crypto, r.files);
      if cert.None? then s.(reloads := s.reloads - {id})
      else s.(reloads := s.reloads[id := Storing(r.files, r.at, cert.value)])
    case Store(id) =>
      var r := s.reloads[id];
      s.(cached := Published(r.cert, r.files, r.at), reloads := s.reloads - {id})
  }

  predicate IsRun(c: Config, s: State, acts: seq<Action>)
    decreases |acts|
  {
    acts == [] || (Enabled(c, s, acts[0]) && IsRun(c, Apply(c, s, acts[0]), acts[1..]))
  }

  function After(c: Config, s: State, acts: seq<Action>): State
    requires IsRun(c, s, acts)
    decreases |acts|
  {
    if acts == [] then s else After(c, Apply(c, s, acts[0]), acts[1..])
  }

  /** A complete certificate: one reload read all the files it is made of. */
  predicate Complete(c: Config, p: Published) {
    |p.files| == |p.at| == c.paths && Assemble(c.crypto, p.files) == Some(p.cert)
  }

  predicate AllBefore(at: seq<nat>, time: nat) {
    forall i :: 0 <= i < |at| ==> at[i] < time
  }

  /** The state left by construction, which is one successful reload with no other in progress. */
  predicate Constructed(c: Config, s: State) {
    Complete(c, s.cached) && AllBefore(s.cached.at, s.clock) && s.reloads == map[]
  }

  predicate ReloadInv(c: Config, r: Reload, clock: nat) {
    && |r.at| == |r.files| && AllBefore(r.at, clock)
    && (r.Storing? ==> Complete(c, Published(r.cert, r.files, r.at)))
  }

  predicate Inv(c: Config, s: State) {
    && Complete(c, s.cached) && AllBefore(s.cached.at, s.clock)
    && s.reloads.Keys <= c.reloaders
    && (forall id :: id in s.reloads ==> ReloadInv(c, s.reloads[id], s.clock))
  }

  lemma InvKept(c: Config, s: State, a: Action)
    requires Inv(c, s) && Enabled(c, s, a)
    ensures Inv(c, Apply(c, s, a))
    ensures !a.Store? ==> Apply(c, s, a).cached == s.cached
  {
    if !a.Begin? {
      assert ReloadInv(c, s.reloads[a.id], s.clock);
    }
  }

  /** Whatever the interleaving, a reader always finds a complete certificate built by one reload; and only a
      successful reload's store changes what it finds. */
  lemma {:induction false} Publication(c: Config, s: State, acts: seq<Action>)
    requires Inv(c, s) && IsRun(c, s, acts)
    ensures Inv(c, After(c, s, acts))
    ensures (forall i :: 0 <= i < |acts| ==> !acts[i].Store?) ==> After(c, s, acts).cached == s.cached
    decreases |acts|
  {
    if acts != [] {
      InvKept(c, s, acts[0]);
      Publication(c, Apply(c, s, acts[0]), acts[1..]);
    }
  }

  // ----- Where a certificate comes from -----

  lemma {:induction false} RunLast(c: Config, s: State, acts: seq<Action>)
    requires IsRun(c, s, acts) && acts != []
    ensures var n := |acts| - 1;
            && IsRun(c, s, acts[..n]) && Enabled(c, After(c, s, acts[..n]), acts[n])
            && After(c, s, acts) == Apply(c, After(c, s, acts[..n]), acts[n])
    decreases |acts|
  {
    var n := |acts| - 1;
    if n == 0 {
      assert acts[1..] == [] && acts[..n] == [];
    } else {
      RunLast(c, Apply(c, s, acts[0]), acts[1..]);
      assert acts[..n][1..] == acts[1..][..n - 1];
    }
  }

  /** How many files were read successfully. */
  function Reads(acts: seq<Action>): nat {
    if acts == [] then 0
    else
      var n := |acts| - 1;
      Reads(acts[..n]) + if acts[n].ReadFile? && acts[n].content.Some? then 1 else 0
  }

  /** What reload `id` has read since it last began, and when; the clock counts reads from `clock` on. */
  function ReadBy(clock: nat, acts: seq<Action>, id: nat): Reload {
    if acts == [] then Gathering([], [])
    else
      var n := |acts| - 1;
      var before := ReadBy(clock, acts[..n], id);
      match acts[n]
      case Begin(other) => if other == id then Gathering([], []) else before
      case ReadFile(other, content) =>
        if other == id && content.Some?
        then Gathering(before.files + [content.value], before.at + [clock + Reads(acts[..n])]) else before
      case _ => before
  }

  /** What the reload that stored last had read. */
  function LastStored(clock: nat, acts: seq<Action>): Option<Reload> {
    if acts == [] then None
    else
      var n := |acts| - 1;
      if acts[n].Store? then Some(ReadBy(clock, acts[..n], acts[n].id)) else LastStored(clock, acts[..n])
  }

  predicate SameReads(r: Reload, files: seq<seq<Block>>, at: seq<nat>) {
    r.files == files && r.at == at
  }

  predicate Told(start: State, acts: seq<Action>, s: State) {
    && s.clock == start.clock + Reads(acts)
    && (forall id :: id in s.reloads
          ==> SameReads(ReadBy(start.clock, acts, id), s.reloads[id].files, s.reloads[id].at))
    && (match LastStored(start.clock, acts)
        case None => s.cached == start.cached
        case Some(r) => SameReads(r, s.cached.files, s.cached.at))
  }

  lemma HistorySnoc(clock: nat, acts: seq<Action>, a: Action)
    ensures var all := acts + [a]; all[..|all| - 1] == acts && all[|all| - 1] == a
    ensures Reads(acts + [a]) == Reads(acts) + (if a.ReadFile? && a.content.Some? then 1 else 0)
    ensures LastStored(clock, acts + [a])
         == if a.Store? then Some(ReadBy(clock, acts, a.id)) else LastStored(clock, acts)
    ensures forall id :: id != a.id ==> ReadBy(clock, acts + [a], id) == ReadBy(clock, acts, id)
  {
    var all := acts + [a];
    assert all[..|all| - 1] == acts && all[|all| - 1] == a;
  }

  lemma ToldKept(c: Config, start: State, acts: seq<Action>, s: State, a: Action)
    requires Told(start, acts, s) && Enabled(c, s, a)
    ensures Told(start, acts + [a], Apply(c, s, a))
  {
    HistorySnoc(start.clock, acts, a);
    if !a.Begin? {
      assert SameReads(ReadBy(start.clock, acts, a.id), s.reloads[a.id].files, s.reloads[a.id].at);
    }
  }

  lemma {:induction false} RunTold(c: Config, s: State, acts: seq<Action>)
    requires s.reloads == map[] && IsRun(c, s, acts)
    ensures Told(s, acts, After(c, s, acts))
    decreases |acts|
  {
    if acts != [] {
      var n := |acts| - 1;
      RunLast(c, s, acts);
      RunTold(c, s, acts[..n]);
      ToldKept(c, s, acts[..n], After(c, s, acts[..n]), acts[n]);
      assert acts == acts[..n] + [acts[n]];
    }
  }

  /** Over every interleaving: the certificate that readers find is made of what the reload that stored last had
      itself read, in the order read, or is the one from construction; its chain and key are the key pair found
      in those files, and its leaf is the first certificate of the chain. */
  lemma PublishedHistory(c: Config, s: State, acts: seq<Action>)
    requires Constructed(c, s) && IsRun(c, s, acts)
    ensures var p := After(c, s, acts).cached;
            && (match LastStored(s.clock, acts)
                case None => p == s.cached
                case Some(r) => p.files == r.files && p.at == r.at)
            && |p.files| == c.paths && p.cert.chain != []
            && c.crypto.keyPair(Encoded(c.crypto, Flatten(p.files))) == Some(KeyPair(p.cert.chain, p.cert.key))
            && c.crypto.parse(p.cert.chain[0]) == Some(p.cert.leaf)
  {
    RunTold(c, s, acts);
    Publication(c, s, acts);
  }

  // ----- When readers can go back -----

  /** Every read of the one happened before every read of the other. */
  predicate Earlier(a: seq<nat>, b: seq<nat>) {
    forall i, j :: 0 <= i < |a| && 0 <= j < |b| ==> a[i] < b[j]
  }

  /** Readers that saw p now see a different certificate whose files were all read earlier. */
  predicate GoesBack(p: Published, q: Published) {
    q.cert != p.cert && Earlier(q.at, p.at)
  }

  ghost predicate NeverGoesBack(c: Config, s: State) {
    forall acts: seq<Action>, a: Action ::
      IsRun(c, s, acts) && Enabled(c, After(c, s, acts), a)
      ==> !GoesBack(After(c, s, acts).cached, Apply(c, After(c, s, acts), a).cached)
  }

  /** Whatever the files hold, there is only one certificate to be had. */
  ghost predicate OneCertificate(c: Config) {
    forall p: Published, q: Published :: Complete(c, p) && Complete(c, q) ==> p.cert == q.cert
  }

  /** The only reload in progress reads after everything published was read. */
  predicate Newest(s: State) {
    forall id :: id in s.reloads ==> Earlier(s.cached.at, s.reloads[id].at)
  }

  lemma OnlyMember(ids: set<nat>, x: nat, y: nat)
    requires |ids| <= 1 && x in ids && y in ids
    ensures x == y
  {
    assert |ids - {x}| == 0;
    assert y !in ids - {x};
  }

  lemma NewestKept(c: Config, s: State, a: Action)
    requires c.paths >= 1 && |c.reloaders| <= 1 && Inv(c, s) && Newest(s) && Enabled(c, s, a)
    ensures Newest(Apply(c, s, a)) && !GoesBack(s.cached, Apply(c, s, a).cached)
  {
    var t := Apply(c, s, a);
    if !a.Begin? {
      assert ReloadInv(c, s.reloads[a.id], s.clock) && Earlier(s.cached.at, s.reloads[a.id].at);
    }
    forall id | id in t.reloads
      ensures Earlier(t.cached.at, t.reloads[id].at)
    {
      OnlyMember(c.reloaders, id, a.id);
    }
    assert s.cached.at[0] < s.clock;
    if a.Store? {
      assert s.cached.at[0] < t.cached.at[0];
    }
  }

  lemma {:induction false} NewestRun(c: Config, s: State, acts: seq<Action>)
    requires c.paths >= 1 && |c.reloaders| <= 1 && Inv(c, s) && Newest(s) && IsRun(c, s, acts)
    ensures Newest(After(c, s, acts)) && Inv(c, After(c, s, acts))
    decreases |acts|
  {
    if acts != [] {
      NewestKept(c, s, acts[0]);
      InvKept(c, s, acts[0]);
      NewestRun(c, Apply(c, s, acts[0]), acts[1..]);
    }
  }

  /** Readers never go back from a certificate to a different one read earlier, exactly when no two goroutines
      reload, unless there is only one certificate to be had. */
  lemma OrderExact(c: Config, s: State)
    requires c.paths >= 1 && Constructed(c, s)
    ensures NeverGoesBack(c, s) <==> |c.reloaders| <= 1 || OneCertificate(c)
  {
    if |c.reloaders| <= 1 {
      forall acts: seq<Action>, a: Action | IsRun(c, s, acts) && Enabled(c, After(c, s, acts), a)
        ensures !GoesBack(After(c, s, acts).cached, Apply(c, After(c, s, acts), a).cached)
      {
        NewestRun(c, s, acts);
        NewestKept(c, After(c, s, acts), a);
      }
    } else if OneCertificate(c) {
      forall acts: seq<Action>, a: Action | IsRun(c, s, acts) && Enabled(c, After(c, s, acts), a)
        ensures !GoesBack(After(c, s, acts).cached, Apply(c, After(c, s, acts), a).cached)
      {
        Publication(c, s, acts);
        InvKept(c, After(c, s, acts), a);
      }
    } else {
      var p, q :| Complete(c, p) && Complete(c, q) && p.cert != q.cert;
      var x, y := TwoMembers(c.reloaders);
      BothBeginAndOvertake(c, s, x, y, p, q);
    }
  }

  lemma {:induction false} SmallerSet(a: set<nat>, b: set<nat>)
    requires a <= b
    ensures |a| <= |b|
    decreases a
  {
    if a != {} {
      var x :| x in a;
      SmallerSet(a - {x}, b - {x});
    }
  }

  lemma TwoMembers(ids: set<nat>) returns (x: nat, y: nat)
    requires |ids| >= 2
    ensures x in ids && y in ids && x != y
  {
    x :| x in ids;
    assert |ids - {x}| >= 1;
    y :| y in ids - {x};
  }

  lemma RunCons(c: Config, s: State, a: Action, rest: seq<Action>)
    requires Enabled(c, s, a) && IsRun(c, Apply(c, s, a), rest)
    ensures IsRun(c, s, [a] + rest) && After(c, s, [a] + rest) == After(c, Apply(c, s, a), rest)
  {
    assert ([a] + rest)[1..] == rest;
  }

  /** Consecutive readings of the clock. */
  function Stamps(start: nat, n: nat): (at: seq<nat>)
    ensures |at| == n && forall i :: 0 <= i < n ==> at[i] == start + i
  {
    seq(n, i => start + i)
  }

  /** The state once reload `id`, which began reading at `start`, has read the files of p and is ready to store. */
  function Gathered(c: Config, s: State, id: nat, p: Published, start: nat): State {
    s.(reloads := s.reloads[id := Storing(p.files, Stamps(start, c.paths), p.cert)], clock := start + c.paths)
  }

  predicate NoBegin(acts: seq<Action>) {
    forall i :: 0 <= i < |acts| ==> !acts[i].Begin?
  }

  /** A reload left alone reads everything and gets ready to store; the run then goes on with `rest`. */
  lemma {:induction false} GatherRun(c: Config, s: State, id: nat, p: Published, start: nat, rest: seq<Action>)
    returns (acts: seq<Action>)
    requires Complete(c, p) && start <= s.clock <= start + c.paths
    requires id in s.reloads && s.reloads[id] == Gathering(p.files[..s.clock - start], Stamps(start, s.clock - start))
    requires IsRun(c, Gathered(c, s, id, p, start), rest) && NoBegin(rest)
    ensures IsRun(c, s, acts) && After(c, s, acts) == After(c, Gathered(c, s, id, p, start), rest) && NoBegin(acts)
    decreases start + c.paths - s.clock
  {
    var k := s.clock - start;
    var a := if k == c.paths then Build(id) else ReadFile(id, Some(p.files[k]));
    var t := Apply(c, s, a);
    if k == c.paths {
      assert p.files[..k] == p.files;
      acts := rest;
    } else {
      assert p.files[..k + 1] == p.files[..k] + [p.files[k]];
      assert Stamps(start, k + 1) == Stamps(start, k) + [s.clock];
      assert Gathered(c, t, id, p, start) == Gathered(c, s, id, p, start);
      acts := GatherRun(c, t, id, p, start, rest);
    }
    RunCons(c, s, a, acts);
    acts := [a] + acts;
  }

  /** Two reloads have begun.  The first reads everything, then the second does; the second stores first, so
      readers see its certificate and then, once the first has stored, the older one. */
  lemma Overtaken(c: Config, s: State, x: nat, y: nat, p: Published, q: Published) returns (acts: seq<Action>)
    requires c.paths >= 1 && Complete(c, p) && Complete(c, q) && p.cert != q.cert
    requires x != y && x in s.reloads && y in s.reloads
    requires s.reloads[x] == Gathering([], []) && s.reloads[y] == Gathering([], [])
    ensures IsRun(c, s, acts) && NoBegin(acts) && Enabled(c, After(c, s, acts), Store(x))
    ensures var t := After(c, s, acts);
            && t.cached.cert == q.cert && Apply(c, t, Store(x)).cached.cert == p.cert
            && GoesBack(t.cached, Apply(c, t, Store(x)).cached)
  {
    assert p.files[..0] == [] && q.files[..0] == [] && Stamps(s.clock, 0) == [];
    var s1 := Gathered(c, s, x, p, s.clock);
    assert Stamps(s1.clock, 0) == [];
    var s2 := Gathered(c, s1, y, q, s1.clock);
    var s3 := Apply(c, s2, Store(y));
    assert IsRun(c, s3, []);
    RunCons(c, s2, Store(y), []);
    acts := [Store(y)] + [];
    acts := GatherRun(c, s1, y, q, s1.clock, acts);
    acts := GatherRun(c, s, x, p, s.clock, acts);
    assert After(c, s, acts) == s3;
    assert s3.reloads[x] == Storing(p.files, Stamps(s.clock, c.paths), p.cert);
  }

  lemma BothBeginAndOvertake(c: Config, s: State, x: nat, y: nat, p: Published, q: Published)
    requires c.paths >= 1 && Constructed(c, s) && x in c.reloaders && y in c.reloaders && x != y
    requires Complete(c, p) && Complete(c, q) && p.cert != q.cert
    ensures !NeverGoesBack(c, s)
  {
    var s1 := Apply(c, s, Begin(x));
    var s2 := Apply(c, s1, Begin(y));
    var acts := Overtaken(c, s2, x, y, p, q);
    RunCons(c, s1, Begin(y), acts);
    RunCons(c, s, Begin(x), [Begin(y)] + acts);
    acts := [Begin(x)] + ([Begin(y)] + acts);
    assert IsRun(c, s, acts) && Enabled(c, After(c, s, acts), Store(x));
  }
}
