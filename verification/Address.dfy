/**
 Addresses on the command line: the check that a target is local, and the parser that later reads it.
 */
module Address {
  import opened Options

  predicate HasPrefix(s: string, prefix: string) {
    |prefix| <= |s| && s[..|prefix|] == prefix
  }

  /** The test applied to flags that must stay on this machine. */
  predicate ValidateUnixOrLocalhost(addr: string) {
    || HasPrefix(addr, "unix:")
    || HasPrefix(addr, "127.0.0.1:")
    || HasPrefix(addr, "[::1]:")
    || HasPrefix(addr, "localhost:")
  }

  // ----- Host and port -----

  function LastIndex(s: string, c: char): (i: int)
    ensures -1 <= i < |s|
    ensures i >= 0 ==> s[i] == c
    ensures forall k :: i < k < |s| ==> s[k] != c
  {
    if s == "" then -1
    else if s[|s| - 1] == c then |s| - 1
    else LastIndex(s[..|s| - 1], c)
  }

  function FirstIndex(s: string, c: char): (i: int)
    ensures -1 <= i < |s|
    ensures i >= 0 ==> s[i] == c && c !in s[..i]
    ensures i < 0 ==> c !in s
  {
    if s == "" then -1
    else if s[0] == c then 0
    else
      var i := FirstIndex(s[1..], c);
      if i < 0 then -1 else i + 1
  }

  datatype HostPort = HostPort(host: string, port: string)

  /** Splitting at the last colon, with the network library's rules for brackets. */
  function SplitHostPort(s: string): (r: Option<HostPort>)
  {
    var i := LastIndex(s, ':');
    if i < 0 then None
    else if s[0] == '[' then
      var end := FirstIndex(s, ']');
      if end < 0 || end + 1 != i then None
      else if '[' in s[1..] || ']' in s[end + 1..] then None
      else Some(HostPort(s[1..end], s[i + 1..]))
    else if ':' in s[..i] || '[' in s || ']' in s then None
    else Some(HostPort(s[..i], s[i + 1..]))
  }

  /** What a well-formed address looks like: a host without colons, or a bracketed host, and a port. */
  predicate Plainly(s: string, hp: HostPort) {
    s == hp.host + ":" + hp.port
    && forall c :: c in ":[]" ==> c !in hp.host && c !in hp.port
  }

  predicate Bracketed(s: string, hp: HostPort) {
    s == "[" + hp.host + "]:" + hp.port
    && '[' !in hp.host && ']' !in hp.host && forall c :: c in ":[]" ==> c !in hp.port
  }

  /** The parser reads exactly these two forms, and reads them back as written. */
  lemma SplitHostPortExact(s: string, hp: HostPort)
    ensures SplitHostPort(s) == Some(hp) <==> Plainly(s, hp) || Bracketed(s, hp)
  {
    if SplitHostPort(s) == Some(hp) {
      SplitHostPortSound(s, hp);
    }
    if Plainly(s, hp) {
      PlainlySplits(s, hp);
    }
    if Bracketed(s, hp) {
      BracketedSplits(s, hp);
    }
  }

  lemma SplitHostPortSound(s: string, hp: HostPort)
    requires SplitHostPort(s) == Some(hp)
    ensures Plainly(s, hp) || Bracketed(s, hp)
  {
    var i := LastIndex(s, ':');
    NothingAfterLast(s, ':');
    if s[0] == '[' {
      BracketedRead(s, FirstIndex(s, ']'));
    } else {
      PlainlyRead(s, i);
    }
  }

  lemma NothingAfterLast(s: string, c: char)
    ensures c !in s[LastIndex(s, c) + 1..]
  {
  }

  lemma PlainlyRead(s: string, i: nat)
    requires i < |s| && s[i] == ':' && ':' !in s[..i] && ':' !in s[i + 1..] && '[' !in s && ']' !in s
    ensures Plainly(s, HostPort(s[..i], s[i + 1..]))
  {
    assert s == s[..i] + ":" + s[i + 1..];
  }

  lemma BracketedRead(s: string, end: nat)
    requires end + 1 < |s| && s[0] == '[' && s[end] == ']' && s[end + 1] == ':'
    requires ']' !in s[..end] && ']' !in s[end + 1..] && '[' !in s[1..] && ':' !in s[end + 2..]
    ensures Bracketed(s, HostPort(s[1..end], s[end + 2..]))
  {
    var host, port := s[1..end], s[end + 2..];
    assert s == "[" + host + "]:" + port;
    assert s[..end] == ['['] + host;
    assert s[end + 1..] == [':'] + port;
    assert s[1..] == host + "]:" + port;
  }

  lemma LastIndexAt(s: string, c: char, n: nat)
    requires n < |s| && s[n] == c && c !in s[n + 1..]
    ensures LastIndex(s, c) == n
  {
    forall k | n < k < |s|
      ensures s[k] != c
    {
      assert s[k] == s[n + 1..][k - n - 1];
    }
  }

  lemma FirstIndexAt(s: string, c: char, n: nat)
    requires n < |s| && s[n] == c && c !in s[..n]
    ensures FirstIndex(s, c) == n
  {
    var i := FirstIndex(s, c);
    forall k | 0 <= k < n
      ensures s[k] != c
    {
      assert s[k] == s[..n][k];
    }
    forall k | 0 <= k < i
      ensures s[k] != c
    {
      assert s[k] == s[..i][k];
    }
  }

  lemma PlainlySplits(s: string, hp: HostPort)
    requires Plainly(s, hp)
    ensures SplitHostPort(s) == Some(hp)
  {
    var n := |hp.host|;
    assert ':' in ":[]" && '[' in ":[]" && ']' in ":[]";
    assert s[n] == ':' && s[..n] == hp.host && s[n + 1..] == hp.port;
    LastIndexAt(s, ':', n);
    assert '[' !in s && ']' !in s;
  }

  lemma BracketedShape(s: string, hp: HostPort)
    requires Bracketed(s, hp)
    ensures var n := |hp.host|;
            && |s| >= n + 3 && s[0] == '[' && s[n + 1] == ']' && s[n + 2] == ':'
            && s[..n + 1] == ['['] + hp.host && s[1..n + 1] == hp.host && s[n + 3..] == hp.port
  {
  }

  lemma BracketedSplits(s: string, hp: HostPort)
    requires Bracketed(s, hp)
    ensures SplitHostPort(s) == Some(hp)
  {
    var n := |hp.host|;
    BracketedShape(s, hp);
    BracketedClean(s, hp);
    LastIndexAt(s, ':', n + 2);
    FirstIndexAt(s, ']', n + 1);
  }

  lemma BracketedClean(s: string, hp: HostPort)
    requires Bracketed(s, hp)
    ensures var n := |hp.host|;
            && n + 3 <= |s| && ':' !in s[n + 3..] && ']' !in s[..n + 1] && ']' !in s[n + 2..] && '[' !in s[1..]
  {
    var n := |hp.host|;
    BracketedShape(s, hp);
    assert ':' in ":[]" && '[' in ":[]" && ']' in ":[]";
    assert s[n + 2..] == [':'] + hp.port;
    assert s[1..] == hp.host + ([']'] + s[n + 2..]);
  }

  // ----- Targets -----

  datatype Parsed = Parsed(network: string, address: string, host: string)

  /** `resolves` is whether the name service knows the address. */
  function ParseUnixOrTCPAddress(input: string, resolves: bool): Option<Parsed> {
    if HasPrefix(input, "unix:") then Some(Parsed("unix", input[5..], ""))
    else
      var hp := SplitHostPort(input);
      if hp.None? || !resolves then None
      else Some(Parsed("tcp", input, hp.value.host))
  }

  /** Exactly what is parsed, and to what: `unix:` and any path, whatever the name service says; otherwise a host
      and a port in one of the two forms, if the address resolves. */
  lemma ParseExact(input: string, resolves: bool, p: Parsed)
    ensures ParseUnixOrTCPAddress(input, resolves) == Some(p)
        <==> || (p.network == "unix" && p.host == "" && input == "unix:" + p.address)
             || (p.network == "tcp" && p.address == input && resolves && !HasPrefix(input, "unix:")
                 && exists hp :: (Plainly(input, hp) || Bracketed(input, hp)) && p.host == hp.host)
  {
    if HasPrefix(input, "unix:") {
      assert input == input[..5] + input[5..];
    } else {
      var hp := SplitHostPort(input);
      forall other: HostPort
        ensures hp == Some(other) <==> Plainly(input, other) || Bracketed(input, other)
      {
        SplitHostPortExact(input, other);
      }
    }
    if input == "unix:" + p.address {
      assert input[..5] == "unix:" && input[5..] == p.address;
    }
    assert "unix"[0] != "tcp"[0];
  }

  /** In particular the path of a Unix socket is what follows the prefix, for every path. */
  lemma UnixPath(path: string, resolves: bool)
    ensures ParseUnixOrTCPAddress("unix:" + path, resolves) == Some(Parsed("unix", path, ""))
  {
    ParseExact("unix:" + path, resolves, Parsed("unix", path, ""));
  }

  /** For every string that parses: it passes the check exactly if it is a Unix socket, or names one of the three
      local hosts, written without brackets unless it is the IPv6 one.  So nothing that passes and parses leaves
      the machine. */
  lemma LocalOnly(input: string, resolves: bool)
    requires ParseUnixOrTCPAddress(input, resolves).Some?
    ensures var p := ParseUnixOrTCPAddress(input, resolves).value;
            ValidateUnixOrLocalhost(input)
            <==> || p.network == "unix"
                 || (p.host in {"localhost", "127.0.0.1", "::1"} && (input[0] == '[' <==> p.host == "::1"))
  {
    if !HasPrefix(input, "unix:") {
      var hp := SplitHostPort(input).value;
      SplitHostPortExact(input, hp);
      if Plainly(input, hp) {
        PlainTarget(input, hp);
      } else {
        BracketedTarget(input, hp);
      }
    }
  }

  lemma PlainTarget(s: string, hp: HostPort)
    requires Plainly(s, hp) && !HasPrefix(s, "unix:")
    ensures ValidateUnixOrLocalhost(s) <==> hp.host == "localhost" || hp.host == "127.0.0.1"
    ensures s[0] != '[' && hp.host != "::1"
  {
    PrefixOfHost(s, hp, "127.0.0.1");
    PrefixOfHost(s, hp, "localhost");
    assert "127.0.0.1" + ":" == "127.0.0.1:" && "localhost" + ":" == "localhost:";
    assert ':' in ":[]" && '[' in ":[]";
    assert s[0] != '[' by {
      assert hp.host != "" ==> s[0] in hp.host;
    }
    assert hp.host != "::1" by {
      assert ':' in "::1";
    }
    StartsOtherwise(s, "[::1]:");
  }

  lemma BracketedTarget(s: string, hp: HostPort)
    requires Bracketed(s, hp)
    ensures ValidateUnixOrLocalhost(s) <==> hp.host == "::1"
    ensures s[0] == '['
  {
    PrefixOfBracketed(s, hp);
    StartsOtherwise(s, "unix:");
    StartsOtherwise(s, "127.0.0.1:");
    StartsOtherwise(s, "localhost:");
  }

  lemma StartsOtherwise(s: string, prefix: string)
    requires s != "" && prefix != "" && s[0] != prefix[0]
    ensures !HasPrefix(s, prefix)
  {
    assert |prefix| <= |s| ==> s[..|prefix|][0] == s[0];
  }

  /** The first colon delimits the host, so a host and a colon are a prefix only of that host's addresses. */
  lemma PrefixOfHost(s: string, hp: HostPort, host: string)
    requires Plainly(s, hp) && ':' !in host
    ensures HasPrefix(s, host + ":") <==> hp.host == host
  {
    var n, m := |hp.host|, |host|;
    assert ':' in ":[]";
    assert s[n] == ':' && s[..n] == hp.host && s[..n + 1] == hp.host + ":";
    FirstIndexAt(s, ':', n);
    if HasPrefix(s, host + ":") {
      assert s[..m + 1] == host + ":";
      assert s[m] == s[..m + 1][m] && s[..m] == s[..m + 1][..m];
      FirstIndexAt(s, ':', m);
    }
  }

  lemma PrefixOfBracketed(s: string, hp: HostPort)
    requires Bracketed(s, hp)
    ensures HasPrefix(s, "[::1]:") <==> hp.host == "::1"
    ensures s != "" && s[0] == '['
  {
    var n := |hp.host|;
    assert s[1..n + 1] == hp.host && s[..n + 1] == "[" + hp.host && s[n + 1] == ']';
    FirstIndexAt(s, ']', n + 1);
    if HasPrefix(s, "[::1]:") {
      var p := s[..6];
      assert p == "[::1]:" && s[4] == p[4] && s[..4] == p[..4] && s[1..4] == p[1..4] == "::1";
      FirstIndexAt(s, ']', 4);
    }
    if hp.host == "::1" {
      assert s[..6] == "[" + hp.host + "]:";
    }
  }
}
