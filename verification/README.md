# Verification of ghostunnel

A Dafny 4.11 model of the parts of ghostunnel whose behaviour is hard to see from the code alone, with proofs
for every input, every run or every reachable state. `dafny verify dfyconfig.toml` checks the whole project.

- **Wildcard patterns** (`Strings`, `Regex`, `Wildcard`, `WildcardLaws`). A pattern is cut at a separator, written
  out as regular-expression text, and handed to the regular-expression engine. The model has the emitted text, a
  parser for the fragment of Go's syntax in question, a denotational "matches somewhere in the input", and an
  independent meaning that only compares the pieces of the candidate with the pieces of the pattern. The text is
  proved to parse to the intended tree and the tree to decide that meaning, for exactly the separators that
  `Safe` describes. `*` needs at least one character, `.` stops at a newline, a lone `**` matches everything; where
  the package comment is less precise than the code, the code is followed.
- **The proxy** (`ProxyMachine`, `ProxyInvariant`, `ProxyTheorems`, `ProxyHistory`, `ProxyProgress`, `Proxy`,
  `Connection`). The accept loop, one handler per connection, two copiers per handler, Shutdown and Wait are
  goroutines over shared flags, a wait group, counters and a pool of buffers. Each atomic action is a step; a run is
  any interleaving. `ProxyHistory` ties the state of every run to the events that happened in it.
  `Proxy` carries the accept loop and Shutdown out in place on an object. `Connection` is the handler as sequential
  code over sockets, counters and pool arrays filled in place; its calls are proved to be runs of the protocol.
- **Dialling** (`DialRace`), **reloadable certificates** (`Keystore`, `Pkcs11`), **status page** (`Status`),
  **reload** (`Context`) and **whole runs of the process** (`Lifecycle`, with the proxy
  protocol and the certificate's reloads underneath).
- **Access control** (`Auth`), from command-line patterns to the verdict, and **local addresses** (`Address`).

Five promises of the code or its comments do not hold in general; each is proved to hold exactly under a condition
that can be checked beforehand:

- a separator is taken literally exactly if it is none of eleven regular-expression characters (`SeparatorExact`);
- a trailing separator makes no difference exactly for patterns that do not themselves end in a single separator,
  and not for `**` with the newline as separator (`TrailingExact`);
- "Wait until connections are drained": the count stays zero exactly if no accepted connection is still on its way
  to being fused (`DrainExact`, with a run in `WaitCanReturnEarly`);
- the status page's "listening" means the accept loop runs exactly if timed reloads are off (`ListeningExact`);
- readers never go back from a certificate to a different one whose files were all read earlier: this holds in
  every run of the process exactly if timed reloads are off, or only one certificate is to be had at all
  (`CertificateOrderExact`, with a run in `OlderCertificateReturns`; `OrderExact` for any set of reloading
  goroutines; `OverlapExact` for the overlap itself).

What the environment decides (bytes that arrive, results of system calls, handshakes, file contents, the clock, the
scheduler, the garbage collector emptying the pool) appears as parameters of actions or methods, or as a free
choice inside `Socket.Read` and `Socket.Write`.

## Model

| member | source | states |
|---|---|---|
| Strings.JoinSplit | wildcard/matcher.go:109 | splitting loses nothing and no piece contains the separator |
| Strings.SplitJoin | wildcard/matcher.go:109 | Split inverts Join on separator-free pieces, so the cut into pieces is unique |
| Regex.ParseQuoted | wildcard/matcher.go:137 | quoted text, whatever metacharacters it holds, parses back to exactly that literal |
| Wildcard.WriteSegment | wildcard/matcher.go:116-147 | one turn of the loop: the text written for a segment, or the error of a segment that offends |
| Wildcard.EmitSegments | wildcard/matcher.go:111-148 | valid segments fill the buffer with the expected text; otherwise the first offending segment decides the error |
| Wildcard.EmittedParses | wildcard/matcher.go:111-153 | for every pattern and safe separator the emitted text is accepted by the engine and read as the intended tree, so the internal-bug error is unreachable; each question mark binds to the separator before it, or to `^` for a lone `**` |
| Wildcard.IntendedMeaning | wildcard/matcher.go:111-163 | an unanchored search with the intended tree succeeds exactly if the pieces of the input match the pieces of the pattern |
| Wildcard.CompileWithSeparator | wildcard/matcher.go:99-158 | which patterns compile, exactly which error the empty pattern, a misplaced `**` and a misplaced `*` get, and that the matcher decides the comparison of pieces on every input |
| Wildcard.Compile | wildcard/matcher.go:71-73 | the same with `/`, for every pattern |
| Wildcard.CompileList | wildcard/matcher.go:76-86 | all patterns compile to matchers that decide their meaning, or the error is that of the first one rejected |
| WildcardLaws.SeparatorExact | wildcard/matcher.go:119-141 | compiling is faithful on all patterns and inputs if and only if the separator is none of the eleven characters that `Safe` excludes |
| WildcardLaws.UnsafeSeparator | wildcard/matcher.go:119-153 | for each excluded separator a pattern and an input with the wrong verdict or an internal error |
| WildcardLaws.LiteralLanguage | wildcard/matcher.go:132-147 | a pattern without wildcards accepts itself, itself plus one separator, and nothing else |
| WildcardLaws.TrailingExact | wildcard/matcher.go:143-147 | inputs with and without a trailing separator are treated alike if and only if the pattern's last plain pieces and separator are as `TrailingSafe` says |
| WildcardLaws.StarGeneralises | wildcard/matcher.go:117-121 | replacing a nonempty plain piece by `*` never loses a match |
| WildcardLaws.DoubleGeneralises | wildcard/matcher.go:122-131 | replacing a nonempty tail by `**` never loses a newline-free match |
| ProxyInvariant.InitInv | proxy/proxy.go:94-110 | a new proxy satisfies the protocol invariant: its wait count is Shutdown's share, one |
| ProxyInvariant.InvKept | proxy/proxy.go:116-270 | every atomic action of every goroutine keeps the order of Shutdown's effects, the exact counters, the accounting of bytes and halves, and the exclusive ownership of buffers |
| ProxyInvariant.ReachableInv | proxy/proxy.go:93-270 | hence the invariant holds in every reachable state of every interleaving |
| ProxyHistory.Provenance | proxy/proxy.go:137-154 | over every run the k-th handler, or the one the accept loop holds, has the kind, header and bytes of the k-th connection accepted |
| ProxyHistory.HandshakeDecides | proxy/proxy.go:158-163 | the handler of an accepted connection is past the handshake exactly if its handshake succeeded, and then it did not fail or time out; only TLS handshakes fail |
| ProxyHistory.RunHistory | proxy/proxy.go:154-270 | over every run, which handshake, dial, header, counting and copying actions a handler has been through is read off its state exactly, backend and its bytes included |
| ProxyHistory.StreamSafety | proxy/proxy.go:154-247 | for the k-th connection accepted: its backend has received a prefix of its header and bytes, the client a prefix of the bytes of the backend dialled for it, nothing without a successful handshake and a dialled backend, everything once the source was read to its end |
| ProxyHistory.MetricsHistory | proxy/proxy.go:141-219 | over every run total, open, success, error and timeout are the numbers of connections, departures, dials, failures and timeouts that happened, up to those about to be counted |
| ProxyHistory.ShutdownHistory | proxy/proxy.go:117-149 | quit, the closed listener and the released wait group come with the second, third and fourth action of the first Shutdown call and by nothing else; the accept loop ends only after quit |
| ProxyTheorems.BuffersExclusive | proxy/proxy.go:238-241 | no pool buffer is held by two copiers or held while free |
| ProxyTheorems.TeardownComplete | proxy/proxy.go:225-270 | when the fuse returns all four halves are shut and both buffers are back, for every order and mix of kinds |
| ProxyTheorems.HalfClose | proxy/proxy.go:249-269 | after one direction ended the other has both its halves if and only if the ended source is TCP or Unix and the ended sink TCP, TLS or Unix |
| ProxyTheorems.WaitGroup | proxy/proxy.go:104-132 | the count is Shutdown's share plus handlers between Add and Done, never negative; Wait returns only with quit set, the listener closed and no fused handler |
| ProxyTheorems.DrainExact | proxy/proxy.go:126-132 | a zero count stays zero along every run if and only if no accepted connection can still reach Add |
| ProxyTheorems.WaitCanReturnEarly | proxy/proxy.go:126-181 | a reachable state where Wait may return and a connection is fused afterwards |
| ProxyTheorems.AcceptLoopExits | proxy/proxy.go:137-149 | from the first Accept call after the close, along every run, the loop accepts nothing, counts no error and only exits |
| ProxyTheorems.AcceptLoopShutdown | proxy/proxy.go:117-149 | quit precedes the close, errors caused by the close are not counted, and at most one accepted connection is spawned after the close |
| ProxyTheorems.TransientErrorCounted | proxy/proxy.go:140-149 | an error of Accept while the proxy runs is counted once and the loop goes on |
| ProxyTheorems.CounterConservation | proxy/proxy.go:141-219 | at every moment open, total, success, error and timeout account for each accepted connection exactly once |
| ProxyProgress.WorkBounded | proxy/proxy.go:137-270 | along every run, the actions of handlers and copiers and the work left are at most the work there was, plus what accepted connections and dialled backends brought |
| ProxyProgress.DrainBounded | proxy/proxy.go:117-270 | once the listener is closed, every run has at most the state's rank of handler and copier actions, plus two per byte of backends dialled from then on |
| ProxyProgress.HaltedIsDrained | proxy/proxy.go:126-270 | handlers and copiers come to a halt, with every call on an open half answered, only when every handler has finished: no buffer held, nothing counted open, Wait waiting for Shutdown alone |
| ProxyProgress.CanDeliver | proxy/proxy.go:238-247 | a copier with both halves open can by itself deliver all of its source |
| ProxyProgress.RunStaysShut | proxy/proxy.go:238-270 | along every run a shut half stays shut, nothing more is read through a shut source and nothing more written through a shut sink |
| ProxyProgress.DeliveryExact | proxy/proxy.go:238-247 | a direction still copying can deliver its whole source in some run if and only if its source can be read and its sink written, or nothing is left to write |
| ProxyProgress.HalfCloseDelivery | proxy/proxy.go:249-269 | after one direction ended, the other can still deliver all that is left if and only if the ended source is TCP or Unix and the ended sink TCP, TLS or Unix |
| ProxyProgress.CanDrain | proxy/proxy.go:117-270 | from every reachable state some run in which no call fails that could have succeeded leads to Wait returning: no state is a dead end |
| Proxy.Proxy.constructor | proxy/proxy.go:94-110 | the object starts in the initial state of the protocol |
| Proxy.Proxy.EnableProxyProtocol | proxy/proxy.go:112-114 | in any state, sets the flag and nothing else; a new proxy becomes the initial state with the flag |
| Proxy.Proxy.AcceptStep | proxy/proxy.go:137-154 | each action of the accept loop, in place, is the protocol's action |
| Proxy.Proxy.ShutdownStep | proxy/proxy.go:117-124 | each action of Shutdown, in place, is the protocol's action |
| Proxy.Proxy.Shutdown | proxy/proxy.go:117-124 | an uninterrupted call sets quit, closes the listener and releases the wait group once; later calls change nothing |
| Proxy.Proxy.Run | proxy/proxy.go:137-270 | any interleaving carried out in place keeps the invariant and ends in the protocol's state |
| Connection.BufferPool.Get | proxy/proxy.go:240 | an array reused or allocated is nobody else's, and taking it is the protocol's step |
| Connection.CopyBuffer | proxy/proxy.go:243 | the copy loop over an array filled in place: the sink gets the next bytes of the source in order, all of them unless a read or write failed, and the calls are a run of the copier |
| Connection.CopyData | proxy/proxy.go:238-270 | one direction from beginning to end is a run of the copier's actions, touches no other handler or copier, shuts the halves its two kinds call for and gives the array back |
| Connection.Fuse | proxy/proxy.go:225-235 | both directions, in either order: all four halves shut, each peer received a prefix of the other's bytes, everything unless a call failed |
| Connection.ForceHandshake | proxy/proxy.go:193-222 | only a TLS handshake can fail; a failure is counted once as error and, if it timed out, once as timeout |
| Connection.Prepare | proxy/proxy.go:165-181 | the header is written before any client byte, and success and wait group are counted only after it |
| Connection.Handle | proxy/proxy.go:154-184 | a whole handler is a run that finishes its connection: wait group balanced and open counter down by one on every path, each outcome counted once, client closed, nothing exchanged without a handshake |
| DialRace.SendersNeverBlock | certloader/dialer.go:65-78 | at most two sends in any order of events, and no sender ever waits for a slot |
| DialRace.ReceiverIsServed | certloader/dialer.go:80 | the receiver waits only while both the timer and the handshake are still to come |
| DialRace.FirstEventDecides | certloader/dialer.go:63-88 | a returned call gave a connection exactly if the handshake succeeded before the timer fired, the handshake's error exactly if it failed before that, the timeout exactly if the timer came first, the dial's error exactly if dialling failed; the raw connection is open exactly in the first case and closed in the next two |
| DialRace.ReturnedIsFinal | certloader/dialer.go:66-88 | after the call returned, no later event changes its result or the connection |
| Keystore.KeystoreCertificate.Reload | certloader/keystore.go:83-110 | publishes a certificate made of all files if and only if all were read and make one up; a failure changes nothing |
| Keystore.FilesInOrder | certloader/keystore.go:84-96 | the bytes searched for a key pair are the encodings of all blocks of all files, in order |
| Keystore.Publication | certloader/keystore.go:83-120 | over any interleaving readers find a complete certificate built by one reload, and only a store changes it |
| Keystore.PublishedHistory | certloader/keystore.go:83-120 | over any interleaving the certificate found is made of what the reload that stored last had itself read, in that order; chain and key are the key pair in those files and the leaf is the first of the chain |
| Keystore.OrderExact | certloader/keystore.go:83-120 | readers never go back from a certificate to a different one whose files were all read earlier, if and only if at most one goroutine reloads or only one certificate is to be had |
| Keystore.Overtaken | certloader/keystore.go:83-110 | for any two certificates and two reloads begun: a run in which readers see the one read later and then the one read earlier |
| Pkcs11.Pkcs11Certificate.Reload | certloader/pkcs11_enabled.go:60-91 | chain and leaf from the file, key from the module the first time and reused later; failures change nothing |
| Pkcs11.KeyStability | certloader/pkcs11_enabled.go:60-101 | over any interleaving the certificate is never nil, the module was asked once and every certificate carries that key |
| Pkcs11.KeyStabilityFromStart | certloader/pkcs11_enabled.go:45-57 | the same for every run from construction on |
| Pkcs11.PublishedHistory | certloader/pkcs11_enabled.go:45-101 | over every run from construction, leaf and chain are those of the file read by the reload that stored last, and the key is the answer to the only question put to the module |
| Pkcs11.ReuseAlwaysPossible | certloader/pkcs11_enabled.go:78-80 | a reload that decided to reuse the key always finds it |
| Status.StatusRun | status.go:57-68 | listening never reverts; reloading is up exactly while some reload in progress has not been overtaken by another Listening call |
| Status.FlagsHistory | status.go:57-68 | over every run from startup: listening exactly if Listening was ever called, reloading exactly if the latest call was Reloading |
| Status.ReloadKeepsVerdict | status.go:57-104 | over every run of overlapping reloads the verdict at the end is that at the start if and only if the handler was listening, the backend is down, or no reload finished |
| Status.StatusHandler.Listening | status.go:57-62 | sets the flags as the protocol says |
| Status.StatusHandler.Reloading | status.go:64-68 | sets the flag as the protocol says |
| Status.StatusHandler.ServeHTTP | status.go:70-119 | verdict, both textual statuses, message and HTTP code (200 or 503) from the flags and the backend |
| Context.Context.Reload | signals.go:88-96 | ends listening whether or not loading worked; a failure keeps the old certificate |
| Lifecycle.SignalHistory | signals.go:43-77 | over every run: shutdown begins exactly if SIGINT or SIGTERM was received, without one the proxy keeps listening, no timer is armed and exit 0 does not happen; each refresh signal starts one reload |
| Lifecycle.ExitHistory | signals.go:43-77 | over every run: exit 0 exactly when Wait returned, which is after a shutdown signal with quit set, listener closed, count zero and in time; exit 1 exactly when setup failed or the timer fired, which is the timeout after it was armed |
| Lifecycle.CanExitGracefully | main.go:463-469 | from every state that has not exited some run ends in exit 0 without time passing |
| Lifecycle.ShutdownBounded | signals.go:61-70 | however a run goes on after a shutdown signal: no signal starts a reload, the timer is armed before the proxy is shut down, and no more ticks pass than the timeout after it was armed |
| Lifecycle.DueTimerFires | signals.go:61-66 | along every run a due timer stays due and enabled, time standing still, until the process has exited; firing exits with 1 |
| Lifecycle.ListeningExact | main.go:357-362 | the listening flag implies a started accept loop if and only if timed reloads are off |
| Lifecycle.VerdictAfterStartup | signals.go:43-96 | once startup has announced itself no signal, reload or shutdown changes the verdict: it is the backend's in every reachable state |
| Lifecycle.TimedReloadHistory | signals.go:79-86 | over every run a timed reload begins only if they are on and the first interval is over |
| Lifecycle.OverlapExact | signals.go:72-96 | at most one reload is ever in progress if and only if timed reloads are off |
| Lifecycle.CertificateOrderExact | signals.go:72-96 | over every run of the process readers never go back to a different certificate read earlier, if and only if timed reloads are off or only one certificate is to be had |
| Lifecycle.OlderCertificateReturns | signals.go:72-96 | with timed reloads on, for any two certificates: a reachable state in which readers see one and the next store gives them the other, read earlier |
| Lifecycle.IsShutdownSignal | signals.go:31-38 | true exactly for the listed signals |
| Auth.IPEqualIsMapped | auth/auth.go:177 | address equality is equality of IPv4-mapped forms, hence an equivalence; the mapped form is spelled out |
| Auth.Contains | auth/auth.go:154-161 | true exactly if the item is in the list |
| Auth.Intersects | auth/auth.go:164-171 | true exactly if the lists share an item |
| Auth.IntersectsIP | auth/auth.go:174-183 | true exactly if the lists share an address in some form |
| Auth.IntersectsURI | auth/auth.go:186-195 | true exactly if some matcher accepts some URI |
| Auth.VerifyPeerCertificateServer | auth/auth.go:67-105 | admits exactly a peer with a chain whose leaf's common name, unit, DNS name, address or URI is on the list of that kind, or anybody with a chain under allow-all |
| Auth.VerifyPeerCertificateClient | auth/auth.go:112-151 | admits exactly a peer with a chain when all lists are empty or its leaf's common name, unit, DNS name, address or URI is on the list of that kind |
| Auth.VerdictByAttribute | auth/auth.go:67-151 | with one list filled both verdicts hold exactly if an entry of it is an attribute of that kind in the leaf of the first chain; with none only the client admits |
| Auth.ServerMerge | auth/auth.go:67-105 | the verdict of merged lists is the disjunction of the verdicts |
| Auth.ClientMergeExact | auth/auth.go:112-151 | the client obeys that law on all chains if and only if both lists are empty or neither is |
| Auth.ClientVersusServer | auth/auth.go:67-151 | exactly when client and server disagree |
| Auth.FormIndependent | auth/auth.go:174-183 | writing addresses of the list or of any certificate in the other form changes no verdict, of server or client |
| Auth.AuthorizeServer | main.go:414-431 | from patterns to verdict: malformed patterns stop the server; otherwise a peer is admitted exactly if allow-all, a list, or the pieces of some pattern against some URI say so |
| Auth.AuthorizeClient | main.go:601-628 | the same for the client, which also passes a peer exactly when there is neither a list entry nor a pattern |
| Address.SplitHostPortExact | main.go:662 | the host and port parser reads exactly `host:port` and `[host]:port` and reads them back as written |
| Address.ParseExact | main.go:653-675 | exactly what is parsed and to what: `unix:` and any path to that path, otherwise a resolving host and port in one of two forms to itself and its host |
| Address.LocalOnly | main.go:195-209 | a parsable address passes the check if and only if it is a Unix socket or a local host in the accepted spelling, so nothing that passes leaves the machine |

## Left out

- Goroutine interleavings are steps on values; the objects of `Proxy`, `Connection`, `Status`, `Keystore`, `Pkcs11` and `Context` capture update in place and aliasing for calls that run without interruption. A weak memory model is not captured.
- Dialling and the signal loop are modelled as steps on values only.
- Overlapping Shutdown calls: the load and the store of quit are not one action, so the wait count would be released twice; calls are assumed not to overlap, as in the program.
- A failed PROXY header write leaves the backend connection alone, so teardown is claimed from the fuse on.
- The copy loop may bypass the pool buffer when a connection offers its own bulk copy; the model always goes through the buffer.
- Non-Unicode patterns and inputs, and the engine's limits on the size of an expression.
- Regular-expression syntax that the compiler never emits with a safe separator is only distinguished as malformed or unsupported.
- PROXY header encoding, TLS handshakes, X.509, PEM, PKCS#12 and PKCS#11 internals: parameters or opaque bytes.
- Reload without a certificate (client without authentication) and the operating system's keychain.
- Status.StatusHandler.ServeHTTP: leaves out the error text, time, host name, version and JSON encoding.
- Context.Context.Reload: an uninterrupted call; reloads interleaved with each other and with everything else are runs of `Lifecycle`.
- Lifecycle.ShutdownBounded: the clock is urgent, that is, it does not move past a due timer; how late the runtime delivers one is not modelled. That a due timer stays able to fire is `DueTimerFires`.
- Connection.Fuse: runs its two copiers one after the other, in either order; overlapping copiers are runs of the protocol.
- After the first tick a timed reload may begin at any moment, not only at multiples of the interval.
- EnableProxyProtocol while connections are being served: the protocol's runs keep the flag they start with, as in the program, which sets it before accepting.
- MustCompile, cipher suites, flag combinations, metrics, logging, file limits, HTTP CONNECT dialling: wrappers, tables or plumbing.
- Name resolution of addresses is a parameter.
