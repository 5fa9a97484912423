# Merino, modelled and proved in Dafny

Merino is a SOCKS5 proxy (RFC 1928, with the username/password sub-negotiation of
RFC 1929). This project models what sits between its sockets: the session read off a
byte stream, the counted relay, admission control, the client registry, the DNS cache,
the connect race, UDP associations, the credential check and the head reader of the
statistics listener. Sockets, timers and the scheduler appear only as choices the proofs
hold for: how the input is cut up, which task moves next, what the resolver answers, when
a peer goes away.

Two forms are used. Code that changes state in place is a class or a loop (`SocksClient`,
`Stream`, `DnsCache`, `PerIpLimiter`, `Stats`, the relay, UDP and head-reading loops),
each method proved against a function on values. Concurrency is a set of atomic steps,
`Enabled` and `Apply`, with `Run` giving the state after any interleaving; the theorems are
about every `Run`.

## The files

| file | what is in it |
|---|---|
| Wrappers.dfy | options, results, error kinds and reply codes |
| Wire.dfy | the four parsers, the encoders, and the proofs that they are inverse prefix codes |
| WireLayout.dfy | the same formats told by offsets and numbers, on every input |
| Credentials.dfy | the constant-time comparison on real bit vectors, and `authed` |
| Streams.dfy | a stream: input in arbitrary pieces, a transcript, a write half that can be shut |
| Session.dfy | one session as a composition of the pure parsers, with the error path |
| Client.dfy | the same session read field by field, proved equal to that composition |
| SessionProperties.dfy | exactly which conversations are accepted |
| SessionOutcomes.dfy | the gate as the transcript shows it, and how failing sessions end |
| SessionCharges.dfy | exactly when a failing session is charged under the code of the reply it is sent |
| SessionBytes.dfy | the whole session told in bytes and numbers: its transcript and every counter |
| WholeSession.dfy | the connection to its end: the relay, the BIND peer and the association behind the success reply |
| Relay.dfy, RelayLoop.dfy | the relay as interleaved steps, and the loop over two endpoints, each of whose executions is one of those runs |
| Counting.dfy | counting over tables, used by the accounting proofs |
| Admission.dfy | accept loops, the semaphore and the per-IP limiter |
| Server.dfy | admission and the registry as one system |
| Registry.dfy, Statistics.dfy, Snapshot.dfy | the registry steps, the counters, the per-IP list |
| Traffic.dfy | relays and associations interleaving on the shared traffic totals |
| Dns.dfy, DnsRuns.dfy, DnsLookups.dfy | the cache, its whole histories, and interleaved lookups |
| ConnectRace.dfy | the racing attempts and the receive loop |
| Connecting.dfy | a CONNECT from its lookup through the race to its reply code |
| UdpAssociation.dfy | the association's event loop |
| HttpHead.dfy | the bounded request head |

`dafny verify dfyconfig.toml` checks everything.

## Where the code and its comments differ

The model follows the code.

- `replied` is documented as "the client has been answered during authentication"
  (src/lib.rs:837-839). The no-acceptable-method branch answers without setting it
  (`SessionCharges.UnsentChargeWitness`); what keeps a second reply from the client there is
  the shutdown (src/lib.rs:1150-1160). And a refused login sets it before the refusal is
  written, so it is also set for a client that left before it arrived
  (`SessionCharges.RepliedUnansweredWitness`). `SessionCharges.RepliedFlag`, for every client
  however soon it leaves: the flag is set if and only if a login is refused and the client
  took its method answer, and it tells whether the client got a written refusal, whole,
  except in exactly those two cases.
- `errors_by_code` is documented as the error replies sent to clients (src/stats.rs:97). It
  goes wrong three ways: a refused session is charged under a code it is never sent
  (`SessionCharges.UnsentChargeWitness`); so is a client that left before its error reply
  (`SessionCharges.GoneClientWitness`, and `SessionCharges.GoneClient` for all of them); and
  one that hangs up mid-handshake is sent a reply that is charged to `disconnects` instead
  (`SessionCharges.UnchargedReplyWitness`). `SessionCharges.ChargesAgainstReplies` gives the
  exact conditions, for every client, on the input, how many bytes the client takes, and the
  environment; `WholeSession.LateCharges` does so for failures after the success reply.
- `run_client` is documented as replying with an error code when the negotiation fails
  (src/lib.rs:768-769). It also does when a relay breaks long after success was answered: the
  10 bytes then stand behind the relayed ones (`WholeSession.LateReplyWitness`).
  `WholeSession.LateReplyExactly` says when.
- `read_head` is documented as failing on a head over `MAX_HEAD`. A terminator ending at most
  one byte past the limit is accepted under every fragmentation, one ending more than
  512 bytes (a whole piece) past it under none, and in between it depends on where the pieces
  split. `HttpHead.OverLimitHeadWitness` is such a head;
  `HttpHead.ReadableUnderEveryFragmentation` and
  `HttpHead.RejectedUnderEveryFragmentation` give both bounds, each as an if-and-only-if.
- A DNS insert under a key that is still held can evict a different entry, although replacing
  would not have grown the table (src/lib.rs:1679-1711).
  `DnsRuns.HeldKeyEvictsAnotherWitness` is a history that does it; by
  `DnsRuns.HeldKeyEvictsAnother` it can happen if and only if the table is full and every
  entry in it is live, and then to any other entry none is older than.

## Model

| member | source | states |
|---|---|---|
| `Wire.ShiftOrIsBigEndian` | src/lib.rs:1955-1961 | the shift and the or on machine words give the big-endian value every port is read as |
| `Wire.GreetingRoundTrip` | src/lib.rs:2010-2018 | a greeting for any version and up to 255 methods parses back to itself and consumes exactly its own bytes, whatever is pipelined behind it |
| `Wire.GreetingIsPrefixCode` | src/lib.rs:2006-2018 | trailing bytes never change a parsed greeting, and every strict prefix of one is reported truncated |
| `Wire.UserPassRoundTrip` | src/lib.rs:2028-2052 | every username/password frame parses back to its three fields and its own length |
| `Wire.UserPassReencodes` | src/lib.rs:2028-2052 | the bytes a parsed frame consumed are exactly the encoding of what it returned |
| `Wire.UserPassIsPrefixCode` | src/lib.rs:2028-2052 | a parsed frame is decided by its own bytes: cutting the rest off or appending anything leaves the result alone |
| `Wire.UserPassTruncated` | src/lib.rs:2032-2042 | every strict prefix of a frame is reported truncated |
| `Wire.RequestRoundTrip` | src/lib.rs:2054-2082 | every request with an address of its type's length parses back to itself, reserved byte ignored |
| `Wire.RequestReencodes` | src/lib.rs:2054-2082 | the bytes a parsed request consumed re-encode it, up to the reserved byte it was sent with |
| `Wire.RequestIsPrefixCode` | src/lib.rs:2054-2082 | a parsed request is decided by its own bytes |
| `Wire.RequestTruncated` | src/lib.rs:2057-2070 | every strict prefix of a request is reported truncated |
| `Wire.RequestFrameParses` | src/lib.rs:2140-2173 | a request cut to the length its ATYP declares re-parses without error to what the whole input parses to; shorter input is truncated |
| `Wire.UserPassFrameParses` | src/lib.rs:1086-1093 | the same for the frame the login reassembles |
| `Wire.UdpHeaderRoundTrip` | src/lib.rs:1872-1896 | every datagram header parses back to itself, leaving exactly the payload |
| `Wire.UdpHeaderReencodes` | src/lib.rs:1872-1896 | the consumed bytes of a datagram header re-encode it, up to the reserved bytes |
| `Wire.UdpHeaderIsPrefixCode` | src/lib.rs:1872-1896 | a parsed datagram header is decided by its own bytes |
| `Wire.UdpHeaderTruncated` | src/lib.rs:1877-1885 | every strict prefix of a datagram header is reported truncated |
| `Wire.UdpReplyRoundTrip` | src/lib.rs:1898-1917 | parsing an encoded header followed by data recovers the sender with FRAG 0 and leaves exactly the data |
| `Wire.ReplyRoundTrip` | src/lib.rs:146-169 | a reply carries version, code and reserved byte in order and its bound address and port can be read back; no address means 0.0.0.0:0 |
| `Wire.FromBound` | src/lib.rs:146-169 | the bytes pushed one after another are that reply |
| `Wire.BuildUdpHeader` | src/lib.rs:1899-1917 | the bytes pushed one after another are that header |
| `WireLayout.RequestLayout` | src/lib.rs:2054-2082 | every input of any kind: cut short, refused for a command not 1, 2 or 3, then for an address type not 1, 3 or 4, or the request at those very offsets with its port big-endian |
| `WireLayout.UdpHeaderLayout` | src/lib.rs:1872-1896 | the same for a datagram header |
| `WireLayout.GreetingLayout` | src/lib.rs:2006-2018 | a greeting is its version, a count and that many methods, or is cut short |
| `WireLayout.LoginLayout` | src/lib.rs:2028-2052 | a login is its version and two fields behind their length bytes, or is cut short |
| `WireLayout.ReplyLayout` | src/lib.rs:132-169 | replies and datagram headers byte by byte, with the reply codes by number |
| `Credentials.WidthIsLeastBound` | src/lib.rs:1970-1980 | the width is the least that covers every stored username and password |
| `Credentials.CtEq` | src/lib.rs:1998-2004 | true exactly when the lengths and the first `width` zero-padded bytes agree, after exactly `width` byte comparisons |
| `Credentials.AgreementIsEquality` | src/lib.rs:1982-1997 | the comparison is equality with the stored value if and only if the width covers it |
| `Credentials.Authed` | src/lib.rs:961-985 | true exactly when some user matches, which under a covering width means both fields equal that user's; the comparisons are 2 x users x width whatever was submitted |
| `Streams.Stream.ReadExact` | src/lib.rs:1022-1024 | reading n bytes depends only on the concatenated input, however it was cut up; running out drains it and reports how the input ended |
| `Session.ChoiceDependsOnSets` | src/lib.rs:1060-1160 | the chosen method depends only on the sets of offered and configured methods (section 3 of RFC 1928) |
| `Session.AvailableInOrder` | src/lib.rs:1466-1477 | the common methods of a greeting are those of its parts, in order |
| `SessionProperties.ChosenMethod` | src/lib.rs:1060-1160 | USERPASS wins when both sides can, else NOAUTH when both can, else no method |
| `Client.SocksClient.GetAvailableMethods` | src/lib.rs:1466-1477 | reading methods one byte at a time yields the configured ones among the first nmethods bytes |
| `Client.ReadUserPass` | src/lib.rs:1067-1093 | reading the login frame field by field gives what the pure parser gives on the whole input and consumes its count |
| `Client.ReadRequestFrom` | src/lib.rs:2086-2174 | reading the request field by field gives what the version check and the pure parser give, and stops at the same byte on every error; which error, by the bytes: failure for a version not 5, then command not supported, then address type not supported |
| `Client.SocksClient.Auth` | src/lib.rs:1049-1161 | the authentication read off the stream is the choice, the parsed login and the refusals of the composition, with `replied` and the failure count it leaves |
| `Client.SocksClient.Negotiate` | src/lib.rs:1020-1047 | for every input, ending and fragmentation the negotiation equals the composition of the pure parsers in result, bytes consumed, transcript and counters |
| `Client.SocksClient.RunClient` | src/lib.rs:768-824 | the whole connection up to its first success reply equals the composed run, in the transcript and every counter told in bytes too, and the registry is left as if it had never come, save for the id |
| `SessionBytes.RunInBytes` | src/lib.rs:1020-1271 | on every input, ending, configuration and environment, however soon the client leaves: the bytes it gets, whether the stream stays open, and every counter, told by numbers without the parsers, the encoders or the session's functions |
| `SessionBytes.GateInBytes` | src/lib.rs:1049-1161 | what authentication answers, refuses and leaves unread, by the bytes of the greeting and the login |
| `SessionBytes.RefusedRequests` | src/lib.rs:2086-2135 | behind the authentication a version not 5 fails and is answered with 1, then an unknown command with 7, then an unknown address type with 8, each if and only if |
| `SessionProperties.ScriptAccepted` | src/lib.rs:1020-1161 | every admitted conversation is accepted, consumed to the byte, and what is pipelined behind the request stays unread |
| `SessionProperties.AcceptedScript` | src/lib.rs:1020-1161 | and nothing else is: whatever yields a request is the encoding of an admitted conversation |
| `SessionOutcomes.AuthenticationGate` | src/lib.rs:1049-1161 | no run reaches its request unless the transcript shows NOAUTH with NOAUTH and not USERPASS available to both sides, or USERPASS and a grant for a version-1 login equal to a configured user's |
| `SessionOutcomes.AdmittedClientReply` | src/lib.rs:1191-1271 | an admitted client gets its method answers and then exactly one reply, with the code section 6 of RFC 1928 has for how resolving, connecting or binding went, the stream left open exactly on success and the pipelined bytes unread |
| `SessionOutcomes.FailureForms` | src/lib.rs:782-822 | a client that takes everything sees its failing run end shut after exactly the refusal its input calls for, or after one 10-byte reply with the error's code |
| `SessionOutcomes.ReplyLength` | src/lib.rs:132-169 | error replies are 10 bytes, addressed ones 10 or 22 |
| `SessionOutcomes.OneFailureCharged` | src/lib.rs:796-801 | each failing run moves exactly one of `disconnects` and the per-code counts, by one; other runs move none |
| `SessionOutcomes.GoneClientSeesPrefix` | src/lib.rs:805-813 | a client that goes away early saw all of the transcript it would have seen, or exactly as many bytes of it as it took |
| `SessionCharges.RunTells` | src/lib.rs:782-822 | the transcript of any failing run, however soon the client leaves: its answers, then unless they refused it the success or error reply, all cut to what the client takes |
| `SessionCharges.ChargesAgainstReplies` | src/lib.rs:782-822 | for every client: a failing run is charged under its error's code if and only if it is not a disconnect; that code's reply arrives if and only if the input calls for no refusal, nothing that could be served was asked for, and the client takes its answers and 10 bytes more; the table keeps step if and only if both or neither hold |
| `SessionCharges.DisconnectsAreForeseeable` | src/lib.rs:783-801 | whether a run fails, and whether its failure counts as a disconnect, is settled by the input and how it ends, how many bytes the client takes, and which fault the close, the connect or the bind meets |
| `SessionCharges.UnchargedReplyWitness` | src/lib.rs:796-813 | one byte and a hang-up: the failure reply is sent, `disconnects` moves and the table does not |
| `SessionCharges.UnsentChargeWitness` | src/lib.rs:1150-1160 | a greeting without a common method: charged as a failure, sent only the refusal, `replied` unset |
| `SessionCharges.GoneClientWitness` | src/lib.rs:796-813 | a client that takes only its method answer and whose target refuses is charged under a code it never sees |
| `SessionCharges.GoneClient` | src/lib.rs:796-813 | so is every admitted client that takes its answers and nothing more and whose request fails for a reason of its own |
| `SessionCharges.RepliedFlag` | src/lib.rs:1095-1135 | `replied` is set if and only if a login is refused whose client took the method answer; it agrees with a refusal delivered whole except for the no-method answer, and for a login refusal the client left before |
| `SessionCharges.RepliedUnansweredWitness` | src/lib.rs:1095-1110 | a client leaving between the two answers of a refused login: the flag is set and no byte of the refusal arrived |
| `WholeSession.PeerAdmitted` | src/lib.rs:1306-1314 | a BIND's peer is let through if and only if the request names no literal, the all-zero one, or the peer's own; else the error is the rule failure |
| `WholeSession.HandleBind` | src/lib.rs:1288-1319 | binding, the first reply, the wait, the peer check and the second reply, in that order, each failure ending it where it stands |
| `WholeSession.WholeConnect` | src/lib.rs:1191-1258 | an admitted CONNECT to its end: its answers, the success reply, a prefix of what the target sends and at most an error reply; the target gets a prefix of exactly what was pipelined behind the request; both whole and counted after a clean finish |
| `WholeSession.WholeBind` | src/lib.rs:1288-1341 | an admitted BIND to its end: one success reply and the error of a wrong or missing peer, or two and then the same relay |
| `WholeSession.BindInBytes` | src/lib.rs:1288-1319 | a BIND in bytes: the address it listens on, then 6 if nobody came, 1 if accepting failed, 2 for another peer than the one named, or the peer's address; and the code charged |
| `WholeSession.WholeAssociate` | src/lib.rs:1344-1464 | an admitted UDP ASSOCIATE gets one success reply and nothing more on its control connection; the totals grow by the packets handed over |
| `WholeSession.WholeCharges` | src/lib.rs:782-801 | to its very end a connection charges one failure if it fails and none otherwise |
| `WholeSession.EarlyFailureIsTheEnd` | src/lib.rs:782-822 | a session is followed by nothing unless its success reply was delivered whole |
| `WholeSession.LateReplyExactly` | src/lib.rs:1238-1258 | an error reply stands whole behind the relayed bytes if and only if the relay broke, not as unconnected, with the client's side not shut and room for it |
| `WholeSession.LateCharges` | src/lib.rs:782-813 | a late failure is charged under a code if and only if it is no disconnect, whether or not its reply arrives |
| `WholeSession.LateReplyWitness` | src/lib.rs:1238-1258 | one relayed byte and a reset: the client reads success, the byte and a failure |
| `Relay.RelaySafety` | src/lib.rs:683-731 | under every scheduling, chunking and failure each output is a prefix of the opposite input, a side is shut only after the other side's end was delivered, and counters stay behind delivery |
| `Relay.NoWriteAfterShut` | src/lib.rs:706-728 | nothing is written to a side already shut down, and none is shut twice |
| `Relay.CleanFinish` | src/lib.rs:754-765 | a clean finish delivered, counted and published both streams whole |
| `Relay.LiveCountersGrow` | src/lib.rs:734-749 | along every run the published counters and the delivered bytes only grow |
| `Relay.RunsAreBounded` | src/lib.rs:705-731 | apart from ticks a run on finite inputs has a bounded number of steps |
| `Relay.NeverStuck` | src/lib.rs:705-731 | short of its end the relay can always move without anything failing |
| `RelayLoop.CopyBidirectionalCounted` | src/lib.rs:689-767 | for every choice of branch, chunk, tick and failure the loop over two endpoints is a run of the relay steps, with the bytes, shutdowns, counters and result of that run, so it keeps the guarantees above; and it terminates |
| `RelayLoop.RelayAndCount` | src/lib.rs:1244-1264 | the relay is a finished or a broken run, broken if and only if an endpoint reported the error; finished it returns the bytes that came back and both whole streams are added to the totals, broken it returns that error, or zero for being unconnected, and adds nothing |
| `Traffic.TotalsAreDue` | src/stats.rs:189-207 | in every reachable state of any number of interleaved relays and associations the totals cover every note made and every packet handed to a socket, and at most the packets in hand and the finished relays besides; with nothing half done they equal the stream lengths of the cleanly finished relays plus the packets and bytes handed over |
| `Traffic.StepKeepsInv` | src/stats.rs:189-207 | each single addition, either half of a relay's note included, moves the totals by exactly what its connection's share grows by |
| `Traffic.ConnectionsRunAlone` | src/lib.rs:1244-1264 | sharing the totals changes nothing else: each connection is where its own steps alone would have brought it |
| `Admission.PerIpLimiter.TryAcquire` | src/lib.rs:511-523 | a slot is granted if and only if the address holds fewer than the limit; the table goes up by one there exactly then and nowhere else |
| `Admission.PerIpLimiter.DropSlot` | src/lib.rs:526-536 | the slot goes back, the entry with its last one, and no other address changes |
| `Admission.ReserveThenRelease` | src/lib.rs:511-536 | giving back what was just taken restores the table |
| `Admission.StepKeepsInv` | src/lib.rs:587-637 | every step of every loop and connection, either release order included, conserves permits and keeps each count equal to the slots outstanding |
| `Admission.CapsHold` | src/lib.rs:481-536 | in every reachable state permits add up to the configured maximum, counts lie between 1 and the limit, and neither cap is exceeded |
| `Admission.RefusedExactly` | src/lib.rs:599-612 | in every reachable state a connection is refused if and only if there is a limit and its address holds that many slots |
| `Admission.WaitsExactlyWhenFull` | src/lib.rs:587-592 | an idle loop waits if and only if every permit is with a loop or a connection |
| `Admission.ReleaseNeverWraps` | src/lib.rs:526-536 | a returned slot was always still counted, so the unsigned decrement cannot wrap |
| `Admission.NothingLeaks` | src/lib.rs:467-473 | once every connection has ended and none is being handed over, the table is empty and the only permits out are those of accept loops waiting for a client; with no loop waiting all are free |
| `Server.RegistryWithinCaps` | src/lib.rs:464-475 | in every reachable state of the server the registry lists and counts no more connections than hold permits, and of one address no more than hold its slots, so never more than the configured caps |
| `Server.SidesRunAlone` | src/lib.rs:464-475 | in it admission and the registry each run as they do on their own |
| `Registry.CountersBounded` | src/stats.rs:51-65 | in every reachable state `active` and the per-IP sum are each at most the number of rows and differ by at most the connections in mid-transition |
| `Registry.StepsAreSafe` | src/stats.rs:216-245 | no decrement starts at zero, no insert lands on a live row, and ids are fresh |
| `Registry.QuiescentAgreement` | src/stats.rs:22-65 | with nothing in mid-transition the three structures agree, per address too, and with no connection they are empty |
| `Statistics.GuardRoundTrip` | src/stats.rs:215-245 | dropping the guard undoes registering it, tagged with a command in between or not |
| `Statistics.Stats.BeginClient` | src/stats.rs:215-245 | run undisturbed, registering is the four steps in order |
| `Statistics.Stats.DropGuard` | src/stats.rs:51-65 | run undisturbed, dropping is the three steps in order |
| `Snapshot.TopIsUnique` | src/stats.rs:272-282 | the per-IP list is determined by the table alone |
| `Snapshot.TopList` | src/stats.rs:272-282 | collecting in any order, ranking and truncating gives at most 20 distinct entries by count descending then address, none outranked by an omitted one |
| `Snapshot.ListInOrder` | src/stats.rs:272-282 | at most 20 entries, counts never rising, equal counts by the smaller address to the byte, and what was left out behind all of them |
| `Snapshot.OutranksIsStrictTotal` | src/stats.rs:281 | the ranking is a strict total order |
| `Dns.DnsCache.Lookup` | src/lib.rs:1645-1666 | a live entry is returned and counts one hit and no miss; anything else returns nothing and counts one miss and no hit, an expired entry being dropped and counted |
| `Dns.DnsCache.Retain` | src/lib.rs:1681-1692 | the sweep keeps exactly the live entries and counts the rest |
| `Dns.DnsCache.Store` | src/lib.rs:1668-1713 | room is made by expiry first and then by an entry none is older than, and the new entry goes in |
| `DnsRuns.CacheRefinesHistory` | src/lib.rs:1645-1713 | whatever happened before, a lookup is answered exactly with the latest non-empty list stored under its own key if that was less than the ttl ago and not evicted since; with ttl zero never |
| `DnsRuns.CountersBalance` | src/lib.rs:1656-1712 | inserts are entries held plus evictions, expiries and overwrites; hits and misses are the lookups; the bound holds |
| `DnsRuns.CountersFromHistory` | src/lib.rs:1656-1712 | after any history hits are the lookups it has an answer for, misses the others, and evictions the stores that took a victim |
| `DnsRuns.EvictsExactly` | src/lib.rs:1679-1702 | in every reachable state a store takes a victim if and only if the table is full and all live, and then any entry inserted no later than every other |
| `DnsRuns.StoreExactly` | src/lib.rs:1668-1713 | what a store leaves: below the bound everything held, at it the live entries but the victim, and the new entry |
| `DnsRuns.EvictionIsForced` | src/lib.rs:1679-1702 | a victim is taken only from a table full of live entries and expires no later than any other |
| `DnsRuns.NewcomersSurvive` | src/lib.rs:1693-1711 | with distinct insertion instants none of the next `max_entries` - 1 inserts can evict a new name |
| `DnsRuns.HeldKeyEvictsAnother` | src/lib.rs:1679-1711 | storing a held key can evict another entry if and only if the table is full of live entries and nothing in it is older than that entry, and then the table shrinks by it |
| `DnsRuns.HeldKeyEvictsAnotherWitness` | src/lib.rs:1679-1711 | two live names in a table of two: storing the newer again evicts the older |
| `DnsLookups.KeysAreDistinct` | src/lib.rs:1776-1779 | different decoded names, or different ports, never share a key |
| `DnsLookups.AddrToSocket` | src/lib.rs:1746-1795 | literals bypass the cache and fail only on a wrong length; names are answered from it, or resolved and stored |
| `DnsLookups.InterleavedLookups` | src/lib.rs:1776-1793 | any interleaving of lookups is one legal history of the cache, consults it once each, and answers each with something the resolver said for that very key; an answer from memory was the latest list stored under the key, less than the ttl before the lookup consulted it |
| `ConnectRace.ReceiveOutcome` | src/lib.rs:1559-1584 | the loop returns the first success, else the last failure, else the no-address error, and reads no further than it must |
| `ConnectRace.AtMostOnce` | src/lib.rs:1542-1554 | each attempt is received at most once, with its own outcome |
| `ConnectRace.ResultIsRight` | src/lib.rs:1516-1585 | success is the first success received; an error comes only after all N failures and is the last of them |
| `ConnectRace.RaceEnds` | src/lib.rs:1516-1585 | a race that can go no further won if and only if some attempt connects, lost if and only if all fail, and otherwise waits for one that never ends |
| `ConnectRace.RaceIsBounded` | src/lib.rs:1536-1585 | over every interleaving the race is over within 3N + 1 steps |
| `ConnectRace.NothingLeftRunning` | src/lib.rs:1559-1585 | a race that returned has every attempt delivered or aborted, and none is aborted before |
| `Connecting.ConnectTarget` | src/lib.rs:1203-1227 | the lookup, the race over what it answers and the connect timer come to the preparation the session model starts from |
| `Connecting.ConnectReplyCode` | src/lib.rs:1203-1232 | the reply code of a CONNECT is that of the failed lookup, 0 if an attempt won, 6 if the timer fired first, else that of an attempt after all failed, 4 if there was no address |
| `Connecting.SettledRaceCode` | src/lib.rs:1216-1232 | with time to spare it is 0 if and only if some address accepts, 6 if and only if none does and one never answers |
| `Connecting.AdmittedConnect` | src/lib.rs:1191-1232 | an admitted CONNECT whose race runs its course is served, and told so, if and only if the lookup succeeds and some address accepts |
| `UdpAssociation.HandleUdpAssociate` | src/lib.rs:1344-1464 | the event loop sends the packets, pins the client and adds the byte counts of the folded events, stopping when the control connection does; `NextEvent` says what those are |
| `UdpAssociation.NextEvent` | src/lib.rs:1366-1458 | after any history one more event: a datagram of the client, or of the first acceptable source, sends its payload on if and only if it is well formed with FRAG 0 and has a destination; one from anybody else sends the client header and data; what is counted each time; and nothing else sends or counts |
| `UdpAssociation.ClientIsDeclared` | src/lib.rs:1390-1404 | whoever is pinned has the literal address the request declared, if it declared one |
| `UdpAssociation.ExpectedIpBinds` | src/lib.rs:1841-1861 | a declared address binds exactly when it is a literal other than the unspecified one |
| `UdpAssociation.PinnedClient` | src/lib.rs:1390-1404 | the client is the source of the first datagram not contradicting the declared address |
| `UdpAssociation.PinnedForever` | src/lib.rs:1390-1419 | once pinned it never changes |
| `UdpAssociation.PacketsJustified` | src/lib.rs:1405-1458 | everything sent out is the payload of a well-formed FRAG-0 datagram from the client, to its first target; everything sent to the client is a header for another source and that source's data |
| `UdpAssociation.ClientDecodes` | src/lib.rs:1406-1416 | from what it is sent the client recovers exactly the sender and the data |
| `UdpAssociation.CountersMatchPackets` | src/lib.rs:1411-1453 | payload bytes are counted outward and header plus data inward, over exactly the packets sent |
| `UdpAssociation.ControlDataIgnored` | src/lib.rs:1366-1376 | data on the control connection changes nothing, wherever it falls |
| `HttpHead.ReadHead` | src/stats/http.rs:176-201 | the loop computes the outcome of its pieces and of the error they may end in |
| `HttpHead.FailingRead` | src/stats/http.rs:181-199 | a failing read is reported if and only if what came before neither had the terminator nor overran the limit; otherwise the outcome is that of the pieces |
| `HttpHead.EndInPrefix` | src/stats/http.rs:203-205 | a buffer has the terminator exactly when it reaches past the first one in the input, also across a split, and then the header bytes agree |
| `HttpHead.HeaderBytesExactly` | src/stats/http.rs:246-251 | the header bytes are those before the first CR LF CR LF, or all when there is none |
| `HttpHead.HeadStopsAtOnce` | src/stats/http.rs:194-196 | reading stops with the piece that completes the blank line |
| `HttpHead.HeadOutcome` | src/stats/http.rs:178-201 | reading gives up exactly on empty input or at a split past the limit and short of the terminator; a returned buffer is a prefix within the limit plus one piece |
| `HttpHead.FragmentationIrrelevant` | src/stats/http.rs:176-205 | a head whose terminator ends in time is read under every fragmentation, with the same header bytes |
| `HttpHead.ReadableUnderEveryFragmentation` | src/stats/http.rs:197-199 | every fragmentation succeeds if and only if the terminator ends at most one byte past the limit |
| `HttpHead.OverLimitHeadWitness` | src/stats/http.rs:197-199 | a head of one byte over the limit is accepted whole under every fragmentation |
| `HttpHead.RejectedUnderEveryFragmentation` | src/stats/http.rs:176-201 | every fragmentation fails if and only if the terminator ends more than one whole piece past the limit |
| `HttpHead.TokensEqual` | src/stats/http.rs:253-264 | the token comparison is equality |

## Left out

- Client.SocksClient.RunClient: stops at the first success reply; from there WholeSession.dfy follows the connection to its end as functions over relay runs and association events, not as the class's own methods.
- A write that blocks: a client either takes bytes or is gone, so the handshake timer fires only while reading.
- Sockets, listeners, `getaddrinfo`, clocks and the runtimes: they appear as inputs and as the choice of the next step.
- `handle_client`, kept in the source for compatibility, reads the request as `init` does but without authentication.
- Decoding a domain name to text: lookups take the decoded name as given; the code decodes lossily, so different invalid names on the wire can share a key.
- A tick between the reads and writes of one branch: the loop ticks between branches only; Relay.dfy lets ticks fall anywhere and its theorems cover those runs.
- The flow label and scope of an IPv6 socket address: no encoder writes them.
- The start delays of the connect attempts: every order of finishing is covered instead.
- 64-bit wrap-around of event counters: they are natural numbers; the two decrements are wrapping and proved never to wrap.
- Unwinding and lock poisoning: each locked section is one step.
- The library sort behind the snapshot is modelled as insertion in rank order.
- Log rendering (`sanitize_domain`, `pretty_print_addr`), JSON, entity tags, the dashboard, `parse_head`, the command line and CSV loading.
- The DNS-name, client and error lists of a snapshot: they sort and cut as the per-IP list does.
