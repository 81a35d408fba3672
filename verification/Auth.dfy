/**
 Access control on verified certificate chains.  The methods are the program's searches; the laws say how
 verdicts combine, how client and server differ, and what an access list built from URI patterns means.
 */
module Auth {
  import opened Options
  import opened Wildcard

  type IP = seq<bv8>

  /** The attributes of a certificate that access control looks at; URIs in their textual form. */
  datatype Certificate = Certificate(
    commonName: string,
    units: seq<string>,
    dnsNames: seq<string>,
    ips: seq<IP>,
    uris: seq<string>)

  datatype ACL = ACL(
    allowAll: bool,
    allowedCNs: seq<string>,
    allowedOUs: seq<string>,
    allowedDNSs: seq<string>,
    allowedIPs: seq<IP>,
    allowedURIs: seq<Matcher>)

  type Chains = chains: seq<seq<Certificate>> | forall i :: 0 <= i < |chains| ==> chains[i] != []

  // ----- IP addresses -----

  const V4_IN_V6: IP := [0, 0, 0, 0, 0, 0, 0, 0, 0, 0, 0xff, 0xff]

  /** Equality as the network library computes it, by the lengths of the two forms. */
  predicate IPEqual(a: IP, b: IP) {
    if |a| == |b| then a == b
    else if |a| == 4 && |b| == 16 then b[..12] == V4_IN_V6 && b[12..] == a
    else if |a| == 16 && |b| == 4 then a[..12] == V4_IN_V6 && a[12..] == b
    else false
  }

  /** A 4-byte address in its IPv4-mapped form (section 2.5.5.2 of RFC 4291); other addresses unchanged. */
  function Mapped(a: IP): IP {
    if |a| == 4 then V4_IN_V6 + a else a
  }

  /** Equality does not see the form: it compares mapped addresses, so it is an equivalence. */
  lemma IPEqualIsMapped(a: IP, b: IP)
    ensures IPEqual(a, b) <==> Mapped(a) == Mapped(b)
    ensures |a| == 4 ==> Mapped(a) == [0, 0, 0, 0, 0, 0, 0, 0, 0, 0, 0xff, 0xff, a[0], a[1], a[2], a[3]]
  {
    if |a| == 4 && |b| == 16 {
      assert b == b[..12] + b[12..];
    } else if |a| == 16 && |b| == 4 {
      assert a == a[..12] + a[12..];
    } else if |a| == 4 && |b| == 4 {
      assert Mapped(a)[12..] == a && Mapped(b)[12..] == b;
    }
  }

  // ----- Searches -----

  predicate Overlaps(left: seq<string>, right: seq<string>) {
    exists i :: 0 <= i < |left| && left[i] in right
  }

  predicate OverlapsIP(left: seq<IP>, right: seq<IP>) {
    exists i, j :: 0 <= i < |left| && 0 <= j < |right| && Mapped(left[i]) == Mapped(right[j])
  }

  predicate OverlapsURI(left: seq<Matcher>, right: seq<string>) {
    exists i, j :: 0 <= i < |left| && 0 <= j < |right| && left[i].Matches(right[j])
  }

  method Contains(set_: seq<string>, item: string) returns (r: bool)
    ensures r <==> item in set_
  {
    for i := 0 to |set_|
      invariant item !in set_[..i]
    {
      if set_[i] == item {
        return true;
      }
    }
    return false;
  }

  method Intersects(left: seq<string>, right: seq<string>) returns (r: bool)
    ensures r <==> Overlaps(left, right)
  {
    for i := 0 to |left|
      invariant forall k :: 0 <= k < i ==> left[k] !in right
    {
      var found := Contains(right, left[i]);
      if found {
        return true;
      }
    }
    return false;
  }

  method IntersectsIP(left: seq<IP>, right: seq<IP>) returns (r: bool)
    ensures r <==> OverlapsIP(left, right)
  {
    for i := 0 to |left|
      invariant forall k, l :: 0 <= k < i && 0 <= l < |right| ==> Mapped(left[k]) != Mapped(right[l])
    {
      for j := 0 to |right|
        invariant forall l :: 0 <= l < j ==> Mapped(left[i]) != Mapped(right[l])
      {
        IPEqualIsMapped(right[j], left[i]);
        if IPEqual(right[j], left[i]) {
          return true;
        }
      }
    }
    return false;
  }

  method IntersectsURI(left: seq<Matcher>, right: seq<string>) returns (r: bool)
    ensures r <==> OverlapsURI(left, right)
  {
    for i := 0 to |left|
      invariant forall k, l :: 0 <= k < i && 0 <= l < |right| ==> !left[k].Matches(right[l])
    {
      for j := 0 to |right|
        invariant forall l :: 0 <= l < j ==> !left[i].Matches(right[l])
      {
        if left[i].Matches(right[j]) {
          return true;
        }
      }
    }
    return false;
  }

  // ----- Verdicts -----

  /** Some attribute of the certificate is on some list. */
  predicate Grants(a: ACL, cert: Certificate) {
    || cert.commonName in a.allowedCNs
    || Overlaps(a.allowedOUs, cert.units)
    || Overlaps(a.allowedDNSs, cert.dnsNames)
    || OverlapsIP(a.allowedIPs, cert.ips)
    || OverlapsURI(a.allowedURIs, cert.uris)
  }

  /** No list has an entry. */
  predicate IsEmpty(a: ACL) {
    a.allowedCNs == [] && a.allowedOUs == [] && a.allowedDNSs == [] && a.allowedIPs == [] && a.allowedURIs == []
  }

  predicate ServerAllows(a: ACL, chains: Chains) {
    chains != [] && (a.allowAll || Grants(a, chains[0][0]))
  }

  predicate ClientAllows(a: ACL, chains: Chains) {
    chains != [] && (IsEmpty(a) || Grants(a, chains[0][0]))
  }

  lemma OverlapsExact(left: seq<string>, right: seq<string>)
    ensures Overlaps(left, right) <==> exists x :: x in left && x in right
  {
    if Overlaps(left, right) {
      var i :| 0 <= i < |left| && left[i] in right;
      assert left[i] in left;
    }
  }

  lemma OverlapsIPExact(left: seq<IP>, right: seq<IP>)
    ensures OverlapsIP(left, right) <==> exists x, y :: x in left && y in right && Mapped(x) == Mapped(y)
  {
    if OverlapsIP(left, right) {
      var i, j :| 0 <= i < |left| && 0 <= j < |right| && Mapped(left[i]) == Mapped(right[j]);
      assert left[i] in left && right[j] in right;
    }
  }

  lemma OverlapsURIExact(left: seq<Matcher>, right: seq<string>)
    ensures OverlapsURI(left, right) <==> exists m, uri :: m in left && uri in right && m.Matches(uri)
  {
    if OverlapsURI(left, right) {
      var i, j :| 0 <= i < |left| && 0 <= j < |right| && left[i].Matches(right[j]);
      assert left[i] in left && right[j] in right;
    }
  }

  /** Each list is about the attribute it is named after. */
  lemma GrantsExact(a: ACL, leaf: Certificate)
    ensures Grants(a, leaf) <==>
              || leaf.commonName in a.allowedCNs
              || (exists unit :: unit in a.allowedOUs && unit in leaf.units)
              || (exists name :: name in a.allowedDNSs && name in leaf.dnsNames)
              || (exists x, y :: x in a.allowedIPs && y in leaf.ips && Mapped(x) == Mapped(y))
              || (exists m, uri :: m in a.allowedURIs && uri in leaf.uris && m.Matches(uri))
  {
    OverlapsExact(a.allowedOUs, leaf.units);
    OverlapsExact(a.allowedDNSs, leaf.dnsNames);
    OverlapsIPExact(a.allowedIPs, leaf.ips);
    OverlapsURIExact(a.allowedURIs, leaf.uris);
  }

  method Search(a: ACL, cert: Certificate) returns (ok: bool)
    ensures ok <==> Grants(a, cert)
  {
    ok := Contains(a.allowedCNs, cert.commonName);
    if ok {
      return;
    }
    ok := Intersects(a.allowedOUs, cert.units);
    if ok {
      return;
    }
    ok := Intersects(a.allowedDNSs, cert.dnsNames);
    if ok {
      return;
    }
    ok := IntersectsIP(a.allowedIPs, cert.ips);
    if ok {
      return;
    }
    ok := IntersectsURI(a.allowedURIs, cert.uris);
  }

  /** Fails closed: with no chain, or an empty list and no allow-all, nobody gets in. */
  method VerifyPeerCertificateServer(a: ACL, chains: Chains) returns (ok: bool)
    ensures ok <==> ServerAllows(a, chains)
    ensures chains != [] ==>
              var leaf := chains[0][0];
              ok <==>
                || a.allowAll
                || leaf.commonName in a.allowedCNs
                || (exists unit :: unit in a.allowedOUs && unit in leaf.units)
                || (exists name :: name in a.allowedDNSs && name in leaf.dnsNames)
                || (exists x, y :: x in a.allowedIPs && y in leaf.ips && Mapped(x) == Mapped(y))
                || (exists m, uri :: m in a.allowedURIs && uri in leaf.uris && m.Matches(uri))
  {
    if |chains| == 0 {
      return false;
    }
    if a.allowAll {
      return true;
    }
    ok := Search(a, chains[0][0]);
    GrantsExact(a, chains[0][0]);
  }

  /** Fails open on an empty list, since host names have been verified already. */
  method VerifyPeerCertificateClient(a: ACL, chains: Chains) returns (ok: bool)
    ensures ok <==> ClientAllows(a, chains)
    ensures chains != [] ==>
              var leaf := chains[0][0];
              ok <==>
                || IsEmpty(a)
                || leaf.commonName in a.allowedCNs
                || (exists unit :: unit in a.allowedOUs && unit in leaf.units)
                || (exists name :: name in a.allowedDNSs && name in leaf.dnsNames)
                || (exists x, y :: x in a.allowedIPs && y in leaf.ips && Mapped(x) == Mapped(y))
                || (exists m, uri :: m in a.allowedURIs && uri in leaf.uris && m.Matches(uri))
  {
    if |chains| == 0 {
      return false;
    }
    if |a.allowedCNs| == 0 && |a.allowedOUs| == 0 && |a.allowedDNSs| == 0 && |a.allowedURIs| == 0
       && |a.allowedIPs| == 0
    {
      return true;
    }
    ok := Search(a, chains[0][0]);
    GrantsExact(a, chains[0][0]);
  }

  // ----- Laws -----

  function Merge(a: ACL, b: ACL): ACL {
    ACL(a.allowAll || b.allowAll, a.allowedCNs + b.allowedCNs, a.allowedOUs + b.allowedOUs,
        a.allowedDNSs + b.allowedDNSs, a.allowedIPs + b.allowedIPs, a.allowedURIs + b.allowedURIs)
  }

  lemma OverlapsAppend(a: seq<string>, b: seq<string>, right: seq<string>)
    ensures Overlaps(a + b, right) <==> Overlaps(a, right) || Overlaps(b, right)
  {
    if Overlaps(b, right) {
      var i :| 0 <= i < |b| && b[i] in right;
      assert (a + b)[|a| + i] in right;
    }
    if Overlaps(a, right) {
      var i :| 0 <= i < |a| && a[i] in right;
      assert (a + b)[i] in right;
    }
  }

  lemma OverlapsIPAppend(a: seq<IP>, b: seq<IP>, right: seq<IP>)
    ensures OverlapsIP(a + b, right) <==> OverlapsIP(a, right) || OverlapsIP(b, right)
  {
    if OverlapsIP(b, right) {
      var i, j :| 0 <= i < |b| && 0 <= j < |right| && Mapped(b[i]) == Mapped(right[j]);
      assert Mapped((a + b)[|a| + i]) == Mapped(right[j]);
    }
    if OverlapsIP(a, right) {
      var i, j :| 0 <= i < |a| && 0 <= j < |right| && Mapped(a[i]) == Mapped(right[j]);
      assert Mapped((a + b)[i]) == Mapped(right[j]);
    }
  }

  lemma OverlapsURIAppend(a: seq<Matcher>, b: seq<Matcher>, right: seq<string>)
    ensures OverlapsURI(a + b, right) <==> OverlapsURI(a, right) || OverlapsURI(b, right)
  {
    if OverlapsURI(b, right) {
      var i, j :| 0 <= i < |b| && 0 <= j < |right| && b[i].Matches(right[j]);
      assert (a + b)[|a| + i].Matches(right[j]);
    }
    if OverlapsURI(a, right) {
      var i, j :| 0 <= i < |a| && 0 <= j < |right| && a[i].Matches(right[j]);
      assert (a + b)[i].Matches(right[j]);
    }
  }

  lemma GrantsMerge(a: ACL, b: ACL, cert: Certificate)
    ensures Grants(Merge(a, b), cert) <==> Grants(a, cert) || Grants(b, cert)
  {
    OverlapsAppend(a.allowedOUs, b.allowedOUs, cert.units);
    OverlapsAppend(a.allowedDNSs, b.allowedDNSs, cert.dnsNames);
    OverlapsIPAppend(a.allowedIPs, b.allowedIPs, cert.ips);
    OverlapsURIAppend(a.allowedURIs, b.allowedURIs, cert.uris);
  }

  /** A server with two merged lists admits exactly those that either list admits. */
  lemma ServerMerge(a: ACL, b: ACL, chains: Chains)
    ensures ServerAllows(Merge(a, b), chains) <==> ServerAllows(a, chains) || ServerAllows(b, chains)
  {
    if chains != [] {
      GrantsMerge(a, b, chains[0][0]);
    }
  }

  ghost predicate ClientMergeLaw(a: ACL, b: ACL) {
    forall chains: Chains :: ClientAllows(Merge(a, b), chains) <==> ClientAllows(a, chains) || ClientAllows(b, chains)
  }

  /** A client obeys the same law exactly when both lists are empty or neither is: adding an entry to an empty
      list takes away the right to connect anywhere. */
  lemma ClientMergeExact(a: ACL, b: ACL)
    ensures ClientMergeLaw(a, b) <==> (IsEmpty(a) <==> IsEmpty(b))
  {
    if IsEmpty(a) <==> IsEmpty(b) {
      forall chains: Chains
        ensures ClientAllows(Merge(a, b), chains) <==> ClientAllows(a, chains) || ClientAllows(b, chains)
      {
        if chains != [] {
          GrantsMerge(a, b, chains[0][0]);
        }
      }
    } else {
      var stranger := Stranger(Merge(a, b));
      var chains: Chains := [[stranger]];
      assert !ClientAllows(Merge(a, b), chains) && (ClientAllows(a, chains) || ClientAllows(b, chains));
    }
  }

  /** Some certificate is on none of the lists. */
  lemma Stranger(a: ACL) returns (cert: Certificate)
    ensures !Grants(a, cert)
  {
    cert := Certificate(Longer(a.allowedCNs), [], [], [], []);
  }

  /** A string longer than every string of a list. */
  function Longer(names: seq<string>): (s: string)
    ensures forall i :: 0 <= i < |names| ==> |names[i]| < |s|
  {
    if names == [] then "x"
    else
      var s := Longer(names[..|names| - 1]);
      s + names[|names| - 1]
  }

  /** With a chain at hand, client and server disagree exactly on an empty list without allow-all, which only the
      client lets pass, and on allow-all over lists that do not name the peer, which only the server does. */
  lemma ClientVersusServer(a: ACL, chains: Chains)
    requires chains != []
    ensures ClientAllows(a, chains) != ServerAllows(a, chains)
        <==> if a.allowAll then !IsEmpty(a) && !Grants(a, chains[0][0]) else IsEmpty(a)
  {
    assert IsEmpty(a) ==> !Grants(a, chains[0][0]);
  }

  const NOBODY := ACL(false, [], [], [], [], [])

  predicate BothAllow(a: ACL, chains: Chains, verdict: bool) {
    ServerAllows(a, chains) == verdict && ClientAllows(a, chains) == verdict
  }

  /** With no list filled, only the client lets anybody pass, and allow-all is what the server needs; without a
      chain neither lets anybody pass.  With one list filled, both verdicts hold exactly if an entry is (for
      addresses: in either form; for patterns: matches) an attribute of that kind in the leaf of the first chain.
      With `ServerMerge` and `ClientMergeExact` this settles every access list. */
  lemma VerdictByAttribute(a: ACL, chains: Chains)
    requires chains != []
    ensures ClientAllows(NOBODY, chains) && !ServerAllows(NOBODY, chains)
    ensures ServerAllows(NOBODY.(allowAll := true), chains) && !ServerAllows(a, []) && !ClientAllows(a, [])
    ensures a.allowedCNs != [] ==>
              BothAllow(NOBODY.(allowedCNs := a.allowedCNs), chains, chains[0][0].commonName in a.allowedCNs)
    ensures a.allowedOUs != [] ==>
              BothAllow(NOBODY.(allowedOUs := a.allowedOUs), chains,
                        exists unit :: unit in a.allowedOUs && unit in chains[0][0].units)
    ensures a.allowedDNSs != [] ==>
              BothAllow(NOBODY.(allowedDNSs := a.allowedDNSs), chains,
                        exists name :: name in a.allowedDNSs && name in chains[0][0].dnsNames)
    ensures a.allowedIPs != [] ==>
              BothAllow(NOBODY.(allowedIPs := a.allowedIPs), chains,
                        exists x, y :: x in a.allowedIPs && y in chains[0][0].ips && Mapped(x) == Mapped(y))
    ensures a.allowedURIs != [] ==>
              BothAllow(NOBODY.(allowedURIs := a.allowedURIs), chains,
                        exists m, uri :: m in a.allowedURIs && uri in chains[0][0].uris && m.Matches(uri))
  {
    var leaf := chains[0][0];
    OverlapsExact(a.allowedOUs, leaf.units);
    OverlapsExact(a.allowedDNSs, leaf.dnsNames);
    OverlapsIPExact(a.allowedIPs, leaf.ips);
    OverlapsURIExact(a.allowedURIs, leaf.uris);
  }

  // ----- The form of addresses -----

  predicate SameAddresses(left: seq<IP>, right: seq<IP>) {
    |left| == |right| && forall i :: 0 <= i < |left| ==> Mapped(left[i]) == Mapped(right[i])
  }

  lemma SameGrants(a: ACL, ips: seq<IP>, cert: Certificate, certIPs: seq<IP>)
    requires SameAddresses(a.allowedIPs, ips) && SameAddresses(cert.ips, certIPs)
    ensures Grants(a, cert) <==> Grants(a.(allowedIPs := ips), cert.(ips := certIPs))
  {
    if OverlapsIP(a.allowedIPs, cert.ips) {
      var i, j :| 0 <= i < |a.allowedIPs| && 0 <= j < |cert.ips| && Mapped(a.allowedIPs[i]) == Mapped(cert.ips[j]);
      assert Mapped(ips[i]) == Mapped(certIPs[j]);
    }
    if OverlapsIP(ips, certIPs) {
      var i, j :| 0 <= i < |ips| && 0 <= j < |certIPs| && Mapped(ips[i]) == Mapped(certIPs[j]);
      assert Mapped(a.allowedIPs[i]) == Mapped(cert.ips[j]);
    }
  }

  /** The same certificates, with addresses in either form. */
  predicate SameChains(left: Chains, right: Chains) {
    && |left| == |right|
    && forall i, j :: 0 <= i < |left| && 0 <= j < |left[i]| ==>
         |left[i]| == |right[i]| && SameCertificate(left[i][j], right[i][j])
  }

  predicate SameCertificate(left: Certificate, right: Certificate) {
    SameAddresses(left.ips, right.ips) && right == left.(ips := right.ips)
  }

  /** Writing any addresses of the list or of the certificates in the other form changes no verdict, of the server
      or of the client. */
  lemma FormIndependent(a: ACL, ips: seq<IP>, chains: Chains, chains': Chains)
    requires SameAddresses(a.allowedIPs, ips) && SameChains(chains, chains')
    ensures ServerAllows(a, chains) <==> ServerAllows(a.(allowedIPs := ips), chains')
    ensures ClientAllows(a, chains) <==> ClientAllows(a.(allowedIPs := ips), chains')
  {
    if chains != [] {
      assert chains[0] != [] && SameCertificate(chains[0][0], chains'[0][0]);
      SameGrants(a, ips, chains[0][0], chains'[0][0].ips);
    }
  }

  // ----- End to end -----

  /** Some pattern's pieces match some URI of the certificate. */
  ghost predicate PatternsMatch(patterns: seq<string>, uris: seq<string>) {
    exists i, j :: 0 <= i < |patterns| && 0 <= j < |uris| && Meaning(patterns[i], DEFAULT_SEPARATOR, uris[j])
  }

  ghost predicate PatternsValid(patterns: seq<string>) {
    forall i :: 0 <= i < |patterns| ==> Compilable(patterns[i])
  }

  lemma PatternsDecide(ms: seq<Matcher>, patterns: seq<string>, uris: seq<string>)
    requires |ms| == |patterns| && forall i :: 0 <= i < |ms| ==> Decides(ms[i], patterns[i])
    ensures OverlapsURI(ms, uris) <==> PatternsMatch(patterns, uris)
  {
    if OverlapsURI(ms, uris) {
      var i, j :| 0 <= i < |ms| && 0 <= j < |uris| && ms[i].Matches(uris[j]);
      assert Decides(ms[i], patterns[i]);
      assert Meaning(patterns[i], DEFAULT_SEPARATOR, uris[j]);
    }
    if PatternsMatch(patterns, uris) {
      var i, j :| 0 <= i < |patterns| && 0 <= j < |uris| && Meaning(patterns[i], DEFAULT_SEPARATOR, uris[j]);
      assert Decides(ms[i], patterns[i]);
      assert ms[i].Matches(uris[j]);
    }
  }

  /** From the command line to the verdict: the server starts only with well-formed patterns, and then admits a
      peer exactly if allow-all is set, an attribute is listed, or the pieces of a pattern match a URI. */
  method AuthorizeServer(flags: ACL, patterns: seq<string>, chains: Chains) returns (verdict: Option<bool>)
    requires flags.allowedURIs == []
    ensures verdict.Some? <==> PatternsValid(patterns)
    ensures verdict.Some? && chains == [] ==> !verdict.value
    ensures verdict.Some? && chains != [] ==>
              var leaf := chains[0][0];
              verdict.value <==>
                || flags.allowAll
                || leaf.commonName in flags.allowedCNs
                || (exists unit :: unit in flags.allowedOUs && unit in leaf.units)
                || (exists name :: name in flags.allowedDNSs && name in leaf.dnsNames)
                || (exists x, y :: x in flags.allowedIPs && y in leaf.ips && Mapped(x) == Mapped(y))
                || PatternsMatch(patterns, leaf.uris)
  {
    var compiled := CompileList(patterns);
    if compiled.Failure? {
      return None;
    }
    var acl := flags.(allowedURIs := compiled.value);
    var ok := VerifyPeerCertificateServer(acl, chains);
    if chains != [] {
      PatternsDecide(acl.allowedURIs, patterns, chains[0][0].uris);
      OverlapsURIExact(acl.allowedURIs, chains[0][0].uris);
    }
    return Some(ok);
  }

  /** The same for the client, which passes a peer if there is neither a list entry nor a pattern, since the host
      name has been verified; a single pattern is enough to close that door. */
  method AuthorizeClient(flags: ACL, patterns: seq<string>, chains: Chains) returns (verdict: Option<bool>)
    requires flags.allowedURIs == []
    ensures verdict.Some? <==> PatternsValid(patterns)
    ensures verdict.Some? && chains == [] ==> !verdict.value
    ensures verdict.Some? && chains != [] ==>
              var leaf := chains[0][0];
              verdict.value <==>
                || (IsEmpty(flags) && patterns == [])
                || leaf.commonName in flags.allowedCNs
                || (exists unit :: unit in flags.allowedOUs && unit in leaf.units)
                || (exists name :: name in flags.allowedDNSs && name in leaf.dnsNames)
                || (exists x, y :: x in flags.allowedIPs && y in leaf.ips && Mapped(x) == Mapped(y))
                || PatternsMatch(patterns, leaf.uris)
  {
    var compiled := CompileList(patterns);
    if compiled.Failure? {
      return None;
    }
    var acl := flags.(allowedURIs := compiled.value);
    var ok := VerifyPeerCertificateClient(acl, chains);
    if chains != [] {
      PatternsDecide(acl.allowedURIs, patterns, chains[0][0].uris);
      OverlapsURIExact(acl.allowedURIs, chains[0][0].uris);
    }
    return Some(ok);
  }
}
