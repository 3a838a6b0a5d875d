# A verified model of the proxy

The repository is a proxy whose traffic can leave through remote devices. A device registers over a WebSocket
control plane, keeps a QUIC connection open, and sends heartbeats; the proxy accepts SOCKS5 clients, picks a device
by round robin, opens a QUIC stream to it, sends the target address as one line, and relays bytes both ways while
plugins count them. This project models that logic in Dafny and proves what it keeps. Nothing was executed.

Four groups of modules:

- **Control plane.** `Wire` is the field-list format of the Protocol Buffers encoding (base 128 varints, message
  structure, groups), `WireGrammar` its grammar over the bytes, `Control` the ten schemas and the trial decodes of `UnmarshalMessage`, `ControlProofs` their
  equality with a one-pass decision table, `Framing` printing, the 4-byte frame, and which messages come back. `Utf8`
  and `Utf8Proofs` say which texts are accepted (RFC 3629), and `MessageProofs` which messages are sent and recovered.
- **Registry, pool and streams.** `Devices` is the registry as a state machine on values and its run theorems;
  `Registry` is the same registry as classes whose methods are proved against `Devices.Step`. `Availability` reads off
  the events which devices are available and which connections they hold. `StreamBook` is the
  stream map of a QUIC outbound over runs, `Outbounds` the outbound, its connections and the pool as classes,
  `DeviceStreams` and `StreamOwners` are the streams stored in the devices, alone and together with all outbounds,
  `Router` and `Routing` selection and the choice of who carries and pays for a connection, `Enrolment` the path from
  a received packet to the registry, `Locks` every lock of these components under any interleaving of threads.
- **SOCKS5 and line readers.** `Text`, `Numbers`, `Ip6` and `Ip6Grammar` are decimal numbers, dotted quads,
  `SplitHostPort`, white-space trimming and IPv6 text (RFC 5952, section 4), all concrete. `Socks5`, `Socks5Proofs`,
  `Handshake` and `TwoParty` are the two request builders, the two address parsers, the two ends of the handshake and
  their composition (RFC 1928, sections 3 to 6), and `HandshakeProofs` puts the specifications of the two ends
  together. `QuicLines` holds the two line readers of the QUIC data plane, and `Trimming` and `DeviceIdCuts` say when
  the cuts of a registration stream show in the ID.
- **Relay and accounting.** `Relay` is the two copiers and the waiter around a channel of capacity one, and
  `RelayRuns` reads off its steps how each copy ends and what is returned; `Counters` is the plugin manager, the
  counters and the counting writer as classes; `Traffic` is the accounting of any interleaving, one plugin call per
  step, `Stories` the same in terms of the steps taken; `Metering` runs relay and accounting together.

Streams (`Streams.Conn`) hold the bytes still to come and an arbitrary schedule of cuts, so a statement over all cuts
is a statement over every way the network may split the reads. Connections and streams of libraries are handles; what
a library answers (a stream is opened, a write succeeds) is a parameter. Time is a parameter.

## What the model shows about the code

- A `LoadReport` is never returned by the classifier: every input that would be one is taken as a `HeartbeatRequest`
  first. A `Command` or a `CommandResponse` comes back only when field 2 holds a negative number.
- A `HeartbeatResponse` with status "ok" or "error" always comes back as a `RegisterResponse`.
- Line 143 of protocol.go is dead when texts are valid UTF-8, but not otherwise: a six-byte input reaches it
  (`ControlProofs.BareRequestReached`).
- The WSS handler passes capacity as an int and tags as strings, and the registry looks for other types, so no
  device ever has a tag or a capacity; a search with a required tag finds nothing.
- Open connections have distinct `conn_id`s, and the stream map holds exactly these, as long as every dial finds its
  ID unused, and no longer (`StreamBook.UniqueExactly`). Closing in reverse order is enough for that; dial, dial,
  close the first, dial breaks it, and then two open connections share an entry.
- A stream handed to a device stays closed or stored as long as no open stream is stored under the key taken or
  removed, and no longer (`DeviceStreams.NeverLostExactly`). Dial, dial, close the first, dial loses the second: no
  sweep or shutdown closes it any more, only its own connection can (`DeviceStreams.LostForGood`).
- The device ID read from a stream does not depend on the cuts if and only if the stream has no newline, or starts with
  one, or every byte less than 256 after a newline is another newline, or ASCII white space with, newlines aside, only
  white space before it or only white space after it. Up to 256 bytes that is: only ASCII white space follows the first
  newline (`DeviceIdCuts`).
- The WSS side stores an ID as it is and the QUIC side trims it, so a device
  reaches its own entry exactly when its ID has no newline and no white space at either end.
- When a connection closes, its totals are added once more for each plugin: with the two counters of the server a
  closed connection counts three times.
- After both connections are closed the relay finishes by itself if and only if closing each of them ends the reads from
  it; otherwise there is a run in which it waits for a peer. A QUIC stream connection closes only its sending side
  (outbound/quic.go:107-125).
- After 2^63 selections the round-robin index is negative and, unless n is 1, an index into the list soon is too.
- Conservation of QUIC connections rests on each being handed in once, which is what the server does
  (internal/device/quic/server.go:159); `Devices.FreshExactly` says which other calls would keep it.
- No lock is held between listing the devices, checking the picked one, and looking it up in the pool, so a device
  that goes offline in between is passed over for the current outbound even when others are available.

## Model

| member | source | states |
|---|---|---|
| Wire.ScanRoundTrip | internal/protocol/wss/protocol.go:25-25 | scanning a printed field list gives the list back, for every list of varints, texts, fixed-width fields and groups |
| WireGrammar.ScanExactly | internal/protocol/wss/protocol.go:127-127 | a byte string is scanned to its end if and only if it is a concatenation of tags and values by the grammar of the wire format, groups nested to any depth included, and as the fields so written |
| ControlProofs.DecodeSucceeds | internal/protocol/wss/protocol.go:127-127 | a decode succeeds exactly when no field is bad for the schema; a wire type that does not match only makes the field unknown |
| MessageProofs.PayloadsExactly | internal/protocol/wss/protocol.go:127-127 | which payloads are bad: a text that does not spell Unicode scalar values; a target or close command of a Command that is not a field list, or whose text does not |
| ControlProofs.TrialDecodingIsTable | internal/protocol/wss/protocol.go:122-206 | on every byte string whose texts in fields 1 to 4 are UTF-8 the up to ten trial decodes return exactly what one decision table on one pass over the fields returns, message included |
| ControlProofs.MalformedIsUnknown | internal/protocol/wss/protocol.go:205-205 | input that does not parse as a field list is never given a type |
| ControlProofs.LoadReportShadowed | internal/protocol/wss/protocol.go:150-191 | on all inputs, whatever decodes as a usable LoadReport was already taken as a HeartbeatRequest |
| ControlProofs.LoadReportNeverReturned | internal/protocol/wss/protocol.go:187-191 | the branch at line 190 is never taken, on any byte string |
| ControlProofs.OrderNeedsNegativeTime | internal/protocol/wss/protocol.go:193-203 | a Command or CommandResponse is returned only from a negative number in field 2 |
| ControlProofs.BareRequestExactly | internal/protocol/wss/protocol.go:129-144 | on all inputs, line 143 returns if and only if an ignored decode error hides a response: a text of field 3 is not UTF-8 and no status or address came before it |
| ControlProofs.BareRequestNeverOnValidTexts | internal/protocol/wss/protocol.go:141-144 | on valid texts the branch at line 142 is never taken |
| ControlProofs.BareRequestReached | internal/protocol/wss/protocol.go:141-144 | a concrete input that takes the branch at line 142 |
| Utf8Proofs.ValidExactly | internal/protocol/wss/protocol.go:25-25 | a text is accepted by the encoder and the decoders if and only if it is a concatenation of encodings, one to four bytes computed from the code point, of Unicode scalar values |
| MessageProofs.MarshalExactly | internal/protocol/wss/protocol.go:25-28 | a message is printed if and only if all its texts are such texts |
| MessageProofs.SentIsRecovered | internal/protocol/wss/protocol.go:24-110 | every Recoverable message whose texts are such texts is sent as one frame and recovered by the receiver, whatever follows and however it is cut |
| MessageProofs.TypedRoundTrip | internal/protocol/wss/protocol.go:127-199 | for all seven types, decoding a printed message with its own type gives it back: only the guess of the type can go wrong |
| MessageProofs.MembersMerge | internal/protocol/wss/protocol.go:194-194 | of two members of a Command the last one counts; two of one kind are merged |
| Framing.WebSocket.SendMessage | internal/protocol/wss/protocol.go:24-55 | appends exactly one frame if nothing fails, nothing when a text is not UTF-8; when opening, writing or closing fails, an error, and at most what was written before |
| Framing.WebSocket.ReadMessage | internal/protocol/wss/protocol.go:58-110 | consumes one packet and returns what reading it whole returns, however the packet is cut and however its reader ends; no reader, or a frame that is short, not binary or of unknown type, is an error |
| Framing.FailedSendRefused | internal/protocol/wss/protocol.go:34-52 | what leaves when sending fails is the whole frame or is refused by the receiver |
| Framing.PutUint32 | internal/protocol/wss/protocol.go:31-32 | writes the big-endian length in place |
| Framing.RecoveredExactly | internal/protocol/wss/protocol.go:122-206 | print then classify is the identity on a message if and only if it is Recoverable: a request with ID outside "", "ok", "error" and a location or tag, a response with a verdict or with only an address, a heartbeat with ID and positive timestamp, an acknowledgement without a verdict; never a LoadReport, Command or CommandResponse |
| Framing.FramedExactly | internal/protocol/wss/protocol.go:24-110 | the same through the frame, for every tail after the message, every cut and every end of the reader |
| Framing.ReceivesExactly | internal/protocol/wss/protocol.go:58-110 | a message is received if and only if the packet is binary and holds the length and bytes of one so classified, and then anything |
| Framing.HeartbeatResponseTakenForRegister | internal/protocol/wss/protocol.go:154-161 | a HeartbeatResponse with a verdict comes back as the RegisterResponse with the same bytes |
| Devices.QuicConservation | internal/device/registry.go:75-96 | after any run of steps, each connection ever given to RegisterQUICConnection is either closed and held by no device, or open and held by exactly one |
| Devices.CloseClosesAll | internal/device/registry.go:271-283 | right after Close the closed connections are all those ever given |
| Devices.FreshExactly | internal/device/registry.go:75-96 | handing in a connection keeps the conservation law if and only if it is fresh, or already closed and handed in for an unknown device |
| Devices.OnlineMeansRecent | internal/device/registry.go:240-268 | in every timed run with sweeps at most ten seconds apart, an online device was last heard of at most heartbeatTimeout plus ten seconds ago, and at the moment of a sweep at most heartbeatTimeout |
| Devices.SweepSparesTheRecent | internal/device/registry.go:255-268 | a sweep changes no device that has not expired, leaves no expired one online, and is idempotent |
| Devices.DownInAnyOrder | internal/device/registry.go:260-267 | taking devices offline one after the other, in any order and with repetitions, comes to taking the whole set offline at once |
| Registry.Device.constructor | internal/device/device.go:57-84 | the new device; metadata of an unexpected type is ignored |
| Devices.TextItemsExactly | internal/device/device.go:74-81 | an item of the tag list is kept, in its place, exactly when it is a text |
| Registry.Device.UpdateHeartbeat | internal/device/device.go:136-141 | new heartbeat and status, nothing else |
| Registry.Device.MarkOffline | internal/device/device.go:144-161 | offline, without connections and streams, and exactly those it had are added to the closed ones |
| Registry.Registry.Register | internal/device/registry.go:38-51 | the step Register of the state machine; fails exactly on a known ID |
| Registry.Registry.RegisterWithWss | internal/device/registry.go:54-72 | the step RegisterWss: a known device keeps its data and gets the new connection, the old one is not closed |
| Registry.Registry.RegisterQuicConnection | internal/device/registry.go:75-96 | the step RegisterQuic: closes the new connection of an unknown device, and the old connection of a known one |
| Registry.Registry.UpdateHeartbeat | internal/device/registry.go:99-110 | the step Heartbeat |
| Devices.FoundExactly | internal/device/registry.go:160-170 | after any run, an ID is found exactly when it was registered at some time before; no step forgets a device |
| Availability.AvailableExactly | internal/device/device.go:136-168 | read off the events: after any run a device is available if and only if a registration over WSS, and a QUIC connection of the then known device, both come after every mark-offline, shutdown and expiring sweep that took it down |
| Availability.HeldExactly | internal/device/registry.go:54-96 | read off the events: a device holds a connection if and only if it is the last one opened for it and nothing since took the device down |
| Availability.TakenDownHoldsNothing | internal/device/device.go:144-161 | a device that is taken down is offline and holds nothing, and what it held is closed |
| Availability.WssClosedExactly | internal/device/registry.go:54-72 | read off the events: a WebSocket connection is closed by the registry if and only if a device held it when it was taken down; one replaced before is never closed |
| Availability.SignOfLife | internal/device/device.go:136-141 | a registration over WSS, a QUIC connection or a heartbeat of a known device leaves it online with that time as its heartbeat, whatever it was before |
| Availability.HeartbeatIsLastBeat | internal/device/registry.go:99-110 | after any run the heartbeat of a device is the time of its last sign of life |
| Availability.DataExactly | internal/device/device.go:57-84 | after any run remote address, registration time, location, capacity and tags are those of the first registration |
| Availability.CapacityExactly | internal/device/device.go:71-73 | the capacity is the number in the metadata of the first registration without its fraction, and 0 if it holds none |
| Availability.SearchExactly | internal/device/registry.go:199-237 | after any run a search finds a device if and only if it is available and the metadata of its first registration holds, as texts, the location and every tag asked for |
| Registry.Registry.MarkOffline | internal/device/registry.go:173-182 | the step MarkOffline |
| Registry.Registry.CheckHeartbeatTimeout | internal/device/registry.go:255-268 | the loop, in any order of the map, is the step Sweep |
| Registry.Registry.Close | internal/device/registry.go:271-283 | the loop, in any order of the map, is the step Close |
| Registry.Registry.Meanwhile | internal/device/registry.go:54-283 | a sequence of whole operations of other threads is the run of their steps, and every known device stays the same object |
| Registry.Registry.HasAllTags | internal/device/registry.go:207-224 | the two nested searches decide whether every required tag is among the tags of the device |
| Registry.Registry.GetAvailableDevices | internal/device/registry.go:199-237 | exactly the online devices with all required tags and the location, each once |
| Registry.Registry.FindDevice | internal/device/registry.go:113-157 | a member of that same set, and none exactly when it is empty or offline devices are asked for |
| Registry.Registry.GetDeviceCount | internal/device/registry.go:185-196 | the size of that same set without criteria |
| Enrolment.RegisteredAsSent | internal/device/wss/handler.go:90-145 | a printed, framed and received registration request registers a new ID with its location, no tags and capacity 0; a known device keeps what it has and gets the connection and a heartbeat |
| Enrolment.RegisterAnswered | internal/device/wss/handler.go:114-137 | the request is answered with "ok", its ID, and the host before the last colon of the remote address with port 443, and the device reads just that |
| Enrolment.HeartbeatAnswered | internal/device/wss/handler.go:147-163 | a heartbeat of a known device makes it online at that time and is answered with "ok", one of an unknown device changes nothing and is answered with "error" |
| Enrolment.OthersAccepted | internal/device/wss/handler.go:68-88 | any other message changes nothing and is not answered; it is an error exactly if it is a command or the load report of an unknown device |
| Enrolment.MatchedExactly | internal/device/quic/server.go:155-163 | a device that registered over WSS and, after any run, sends its ID over QUIC in any cuts is matched to its own entry if and only if the ID has no newline and no white space at either end |
| Enrolment.TagsNeverMatch | internal/device/wss/handler.go:94-106 | after any packets and any other steps, a search that requires a tag finds no device |
| StreamBook.StreamsBelongToOpen | outbound/quic.go:34-125 | over all runs of dial, failed dial and repeated close, every entry of the map is the stream of a connection still open, so the map is never larger than their number and is empty once all are closed |
| StreamBook.LifoKeysAreStacked | outbound/quic.go:53-54 | if connections close in reverse order, the keys are exactly the distinct IDs 0 to n-1 of the n open ones, in order |
| StreamBook.StepMirrors | outbound/quic.go:53-76 | while open connections have distinct IDs and the map holds exactly these, a step keeps that if and only if the ID it takes is unused; closing always keeps it |
| StreamBook.UniqueExactly | outbound/quic.go:34-125 | over all runs, IDs are distinct and mirrored by the map at every moment if and only if every dial finds its ID unused |
| StreamBook.LifoIsUnique | outbound/quic.go:53-54 | closing in reverse order is enough for that |
| StreamBook.SharedKeyWithoutLifo | outbound/quic.go:53-54 | a run after which two open connections share an ID and one entry |
| StreamBook.ConnKeyInjective | outbound/quic.go:54-54 | different numbers give different IDs |
| Outbounds.QuicOutbound.Dial | outbound/quic.go:34-87 | connects if and only if the network is "tcp", the device is registered and holds a QUIC connection, a stream is granted and the target is written, and then over that stream; each outcome (refused, write failed, connected) has exactly the effect of StreamBook.DialBook on the map and of the registry steps on the device; nothing changes when it is refused |
| Outbounds.StreamConn.Close | outbound/quic.go:107-125 | the first call closes the stream and removes its key from both maps, later calls change nothing |
| DeviceStreams.StepSpares | internal/device/device.go:115-133 | a registry step (an added stream being new) leaves every stream closed or stored by a device if and only if no open stream is stored under the key that it takes, or, other than the stream closed, under the key that it removes |
| DeviceStreams.NeverLostExactly | internal/device/device.go:115-161 | at every moment of a run that hands in no stream twice, each stream handed in is closed or stored by a device, if and only if that holds of every step |
| DeviceStreams.CloseClosesTheRest | internal/device/device.go:157-160 | a shutdown closes exactly the streams that are not lost |
| DeviceStreams.LostForGood | internal/device/device.go:157-160 | nothing but adding it again or closing its own connection ever closes a lost stream |
| StreamOwners.FreeDialsLoseNothing | outbound/quic.go:34-125 | over all runs of dials and closes through the outbounds of all devices, with any registry steps in between, if every dial finds its ID unused then each stream opened is closed or stored by its device, and a shutdown closes them all |
| StreamOwners.LifoLosesNothing | outbound/quic.go:53-76 | closing the connections of each outbound in reverse order is enough for that |
| Outbounds.CacheIsTransparent | outbound/pool.go:27-94 | over every interleaving of whole operations the pool answers what an uncached lookup would, cached keys are registered keys, and the cached device is never missing |
| Outbounds.Pool.GetOutbound | outbound/pool.go:27-78 | succeeds exactly when the device is registered and online now; the outbound is for that ID and registry, the cached one if there is one; an offline device is dropped from the cache |
| Outbounds.Pool.RemoveOutbound | outbound/pool.go:81-86 | removes one key |
| Outbounds.Pool.Clear | outbound/pool.go:89-94 | removes every key |
| Router.RoundRobin.Select | internal/router/strategy.go:29-42 | picks the list position given by the index, and advances the wrapping index, exactly when some device is available |
| Router.BalancedPicks | internal/router/strategy.go:36-41 | while the index is below 2^63, any k selections from n devices pick each position floor(k/n) or ceil(k/n) times |
| Router.Rotates | internal/router/strategy.go:36-41 | the k-th selection of a fresh strategy picks position k modulo n, for every k below 2^63 |
| Router.SafeExactly | internal/router/strategy.go:37-38 | the exact number of selections after which a position is negative: none if n is 1, else 2^63 in all, one more if n divides 2^63 |
| Router.DynamicRouter.SelectOutbound | internal/router/dynamic.go:24-48 | never an error: whatever other threads do between listing and the online check, the answer is the picked device, one of those available when listed, if it is still online, and the empty ID if it is not or none was listed; a negative index crashes instead of picking |
| Routing.ChargedExactly | proxy/core.go:53-90 | the ID charged is that of the outbound dialled, except exactly when an ID other than the current one was selected and there is no pool |
| Routing.RouteExactly | proxy/core.go:53-88 | which outbound is dialled in each case, and that routing fails exactly on a configuration, with no ID selected, that is neither direct nor a proxy with an address |
| Routing.LookUp | proxy/core.go:56-68 | the selected ID is used exactly when it is not empty and its device is usable at the moment of the lookup, whatever other threads do before it |
| Routing.RouteByPool | proxy/core.go:44-90 | whatever other threads do between listing, check and pool lookup, a pooled device carries the connection exactly when it was picked from those listed and is usable at both later reads (and its ID is not empty), else the current outbound does; whichever carries it is charged; a negative index crashes |
| Locks.DeadlockFree | outbound/quic.go:34-125 | with any number of threads running any sequence of operations, under every interleaving, no state has a circular wait, and while some thread is not finished some thread can go on |
| Locks.MutualExclusion | internal/device/registry.go:54-283 | a lock held for writing is held by nobody else |
| Locks.OperationNested | outbound/pool.go:27-93 | each operation acquires upwards in wrapper, outbound, registry, device, and pool, strategy, manager and counter locks with nothing else held |
| Locks.NestedConforms | internal/device/device.go:87-168 | nested critical sections that go upwards keep to the order at every acquisition |
| Text.PrintDecRoundTrip | internal/protocol/socks5/parser.go:29-29 | a printed port or number reads back |
| Text.QuadRoundTrip | internal/protocol/socks5/parser.go:27-29 | a printed IPv4 address reads back |
| Text.SplitBracketed | internal/protocol/socks5/request.go:16-19 | a bracketed host and port split again |
| Text.SplitExactly | internal/protocol/socks5/request.go:16-19 | an address splits into host and port exactly if it is a plain host, a colon and a plain port, or a host in brackets, a colon and a plain port |
| Numbers.AtoiExactly | internal/protocol/socks5/request.go:21-26 | a port text is a number exactly if it is an optional sign and digits, within 64 bits |
| Numbers.SharedPortExactly | internal/protocol/socks5/request.go:21-26 | the shared builder takes exactly these from 1 to 65535 |
| Numbers.ScanfExactly | outbound/socks5.go:131-137 | "%d" reads exactly white space without newlines, an optional sign and digits, within 64 bits, and ignores what follows |
| Numbers.OwnPortExactly | outbound/socks5.go:130-140 | the outbound's own builder takes an empty port as 0, and otherwise 16 bits of exactly such a number |
| Text.TrimExactly | internal/protocol/quic/stream_protocol.go:48-48 | trimming changes a text exactly when it starts or ends with white space |
| Ip6.IpRoundTrip | internal/protocol/socks5/request.go:30-30 | parsing the canonical text of any address, IPv6 gaps included, gives the address back |
| Ip6Grammar.Parse6Exactly | internal/protocol/socks5/request.go:30-30 | a text is an IPv6 address, and of which words, if and only if it is groups of one to four hexadecimal digits of either case, at most one "::" for at least one group, and at most one dotted quad at the end, eight words in all |
| Ip6.GapIsLongest | internal/protocol/socks5/parser.go:56-61 | the part left out of the text of an IPv6 address is the longest run of zero words, the leftmost of several, and never a single word |
| Ip6.HexIsCanonical | internal/protocol/socks5/parser.go:56-61 | the words are printed in lower case without leading zeros |
| Ip6.ColonFreeIp | internal/protocol/socks5/request.go:30-38 | without a colon only a dotted quad is an address, and it is its own canonical text |
| Socks5.BuildRequest | internal/protocol/socks5/request.go:15-53 | the append-grown request is the encoded endpoint, with every error case |
| Socks5.BuildConnectionRequest | outbound/socks5.go:125-184 | the array-filled request, port scanned as a decimal prefix and cut to 16 bits, with every error case |
| Socks5.FillRequest | outbound/socks5.go:142-183 | the array of the final size filled in place equals the encoded endpoint |
| Socks5.ParseAddress | internal/protocol/socks5/parser.go:13-63 | the result and what is left depend on the bytes only, not on the cuts |
| Socks5Proofs.ReadBack | internal/protocol/socks5/parser.go:13-63 | the parser reads back every encoded endpoint, consumes exactly its bytes and leaves the tail |
| Socks5Proofs.ParsesExactly | internal/protocol/socks5/parser.go:13-63 | the parser succeeds if and only if the input starts with an encoded endpoint whose name, if it is one, is not empty |
| Socks5Proofs.BuildThenParse | internal/protocol/socks5/request.go:15-53 | parsing a built request after its first 3 bytes gives the canonical host and the same port and leaves any tail, exactly when the host is not empty |
| Socks5Proofs.ParseBuildParse | internal/protocol/socks5/parser.go:13-63 | a parsed address, and a parsed name without ':', '[' and ']', is stable under building and parsing again exactly when its port is not 0 |
| Socks5Proofs.StableExactly | internal/protocol/socks5/request.go:16-26 | every target is stable if and only if it splits, its port text is the canonical one of 1 to 65535, and its host is a canonical address or a colon-free name of 1 to 255 bytes |
| Socks5Proofs.ParsedShape | internal/protocol/socks5/parser.go:21-62 | what a successful parse returns |
| Socks5Proofs.ConnectRefinesBuild | outbound/socks5.go:125-184 | whenever the shared builder succeeds the outbound's own builder sends the same bytes |
| Handshake.HandleSocks5 | inbound/socks5.go:67-206 | however the stream is cut and however its end is reported, the server either gives up on a short read or hands over the same target, answers the same bytes and leaves the same rest as a one-shot parse |
| Handshake.ReadInlineAddress | inbound/socks5.go:144-189 | the parser written out inline agrees with ParseAddress |
| Handshake.ScanMethods | inbound/socks5.go:98-105 | the loop finds method 0 exactly when it is offered |
| Handshake.WholeWhenDelivered | inbound/socks5.go:79-127 | with whole messages no read is short |
| Handshake.PerformHandshake | outbound/socks5.go:52-122 | the client's result, the bytes sent and what is left, for every answer and every cut |
| Handshake.DialExactly | outbound/socks5.go:60-121 | against an accepting server the client succeeds exactly when its first two reads are whole and the third does not also report the end of the stream, and then the payload is intact exactly when the third is whole |
| HandshakeProofs.SendsExactly | outbound/socks5.go:52-82 | for every answer in every cut the client sends 5, 1, 0, and then its request exactly when the answer to the greeting reads 5, 0 and the address is accepted; it never succeeds otherwise |
| HandshakeProofs.AcceptsEveryReply | outbound/socks5.go:84-121 | against a success reply with any bound address of the three kinds the client succeeds and leaves what follows the reply |
| HandshakeProofs.RefusesGreeting | outbound/socks5.go:65-73 | an answer to the greeting with another version, or another method than 0, is the error |
| HandshakeProofs.RefusesReply | outbound/socks5.go:91-114 | a reply with another version, another code than 0, or an address type other than 1, 3 and 4 is the error |
| HandshakeProofs.ServesEndpoint | inbound/socks5.go:67-206 | a client that offers method 0 among others and asks for any endpoint is answered 5, 0 and the success reply with 0.0.0.0:0, is handed over with the text of that endpoint, and what it sends next is left |
| HandshakeProofs.RefusesRequest | inbound/socks5.go:121-192 | another command is answered with code 7, another address type with code 8, another version not at all |
| HandshakeProofs.RefusesHead | inbound/socks5.go:81-92 | a greeting of another version or without methods is not answered |
| HandshakeProofs.GivesUp | inbound/socks5.go:76-130 | a client that stops before its request is complete is given up on |
| HandshakeProofs.HandsOverOnly | inbound/socks5.go:67-206 | nothing else is handed over |
| HandshakeProofs.SuccessIsServed | outbound/socks5.go:52-121 | a client that succeeds, whatever it was answered, has sent bytes that the server hands over as its own host and port, its payload left; unless the host is empty, which the server refuses |
| HandshakeProofs.ServedIsSuccess | inbound/socks5.go:193-206 | against the answers of that server the client succeeds with the server's payload intact |
| TwoParty.NeverBlocks | outbound/socks5.go:52-122 | in every reachable state of client and server with whole-message delivery the exchange is over or a side can move |
| TwoParty.RankFalls | inbound/socks5.go:76-198 | every handshake step lowers a rank, so every exchange ends |
| TwoParty.ConnectedMeansServed | inbound/socks5.go:193-206 | a connected client faces a handler with its own host, canonical if an address, and port; only payload is in flight and it arrives in order and whole |
| TwoParty.ConnectsExactly | outbound/socks5.go:74-121 | a finished exchange connected exactly when the client's builder accepts the address and the host is not empty |
| TwoParty.ClientIsDial | outbound/socks5.go:52-122 | the client's steps against anything a proxy may send come to the handshake function: same result, same bytes sent, same rest |
| TwoParty.ServerIsOneShot | inbound/socks5.go:76-206 | the server's steps on anything a client may send come to the one-shot parse |
| QuicLines.WriteTargetAddress | internal/protocol/quic/stream_protocol.go:14-20 | the address and one newline, or, with an error, the part of them that a failing write accepts |
| QuicLines.ReadTargetAddress | internal/protocol/quic/stream_protocol.go:25-50 | the byte-by-byte loop, independent of the cuts |
| QuicLines.DeliveredExactly | internal/protocol/quic/stream_protocol.go:14-50 | an address arrives unchanged with the payload untouched exactly when it has at most 256 bytes, no newline and no white space at either end |
| QuicLines.LongRejected | internal/protocol/quic/stream_protocol.go:43-45 | any longer address without newline is rejected |
| QuicLines.UnendedExactly | internal/protocol/quic/stream_protocol.go:29-48 | a stream without a newline is an address if it ends within 256 bytes, or with the 257th if its end is reported with that, and an error if it breaks off there or goes on |
| QuicLines.InboundTargetDelivered | inbound/socks5.go:144-184 | every parsed IPv4 or IPv6 target is delivered, a named one exactly when its name has no newline, starts with no white space, and fits with its port in 256 bytes |
| QuicLines.ReadDeviceId | internal/device/quic/server.go:114-155 | the read loop is the fold of its reads; lines 132-137 never run |
| QuicLines.DeviceIdGathered | internal/device/quic/server.go:119-155 | a newline-free ID sent with one newline and the end of the stream is read trimmed, for every split into reads of at most 256 bytes |
| QuicLines.DeviceIdExactly | internal/device/quic/server.go:119-155 | the ID read is the ID sent, in any cuts, if and only if it has no newline and no white space at either end |
| QuicLines.BrokenOffRejected | internal/device/quic/server.go:142-150 | a stream that breaks off is an error unless it starts with a newline |
| QuicLines.CutFreeExactly | internal/device/quic/server.go:119-151 | the bytes gathered before the trim do not depend on the cuts if and only if the stream has no newline, starts with one, or has only newlines after the first |
| DeviceIdCuts.IdCutFreeExactly | internal/device/quic/server.go:119-155 | the trimmed ID does not depend on the cuts if and only if the stream has no newline, starts with one, or every byte less than 256 after a newline is another newline, or ASCII white space with, newlines aside, only white space before it or only white space after it |
| DeviceIdCuts.ShortCutFreeExactly | internal/device/quic/server.go:119-155 | up to 256 bytes: if and only if it has no newline, starts with one, or only ASCII white space follows the first |
| Trimming.DropExactly | internal/device/quic/server.go:155-155 | leaving out one byte does not change the trimmed text exactly when it is ASCII white space with only white space before it or only white space after it |
| Relay.RelaySafety | proxy/core.go:158-200 | in every interleaving each direction has delivered an in-order prefix and counted exactly its bytes; the function returns only after both copiers finished, and nil only if one direction was delivered whole |
| RelayRuns.OutcomeExactly | proxy/core.go:165-174 | read off the steps of any run: a copy is broken if and only if one of its reads ended with an error or met a closed source, or one of its writes failed or was short; otherwise it goes on to the end of its source; it has delivered as many bytes as its writes accepted |
| RelayRuns.WholeUnlessBroken | proxy/core.go:165-174 | hence a copy that ended without any of these delivered all of its input |
| RelayRuns.ReturnsTheFirst | proxy/core.go:176-181 | the value returned is the outcome of the copy that reports first, nil exactly if nothing broke it |
| RelayRuns.EveryCutArrives | proxy/core.go:158-182 | whatever is to be sent either way, in every cut into reads of at most the buffer, and whichever side ends first, some run delivers all of it and returns nil |
| Relay.NoDeadlock | proxy/core.go:159-179 | until it returns, the relay can take a step by itself or a copier waits for its peer |
| Relay.ReturnsAfterClose | proxy/core.go:177-181 | if closing ends reads, at most three steps follow the closing of both connections, and no state but the return is stuck |
| Relay.FinishesExactly | proxy/core.go:158-182 | in every reachable state with both connections closed the relay can take a step by itself until it returns, if and only if closing each connection ends the reads from it |
| Relay.WaitsForPeer | proxy/core.go:176-181 | where it cannot, the copier that has not reported reads from a connection whose closing does not end reads, and the peer can still end that read |
| Counters.BaseCounter.GetStats | internal/plugins/traffic/counter.go:30-46 | the entry, or zeros |
| Counters.BaseCounter.AddConnection | internal/plugins/traffic/counter.go:49-58 | one more connection in one entry, created if absent, nothing else |
| Counters.BaseCounter.AddBytes | internal/plugins/traffic/counter.go:61-71 | both byte counts of one entry, with 64-bit wrap-around |
| Counters.InboundCounter.OnInboundConnection | internal/plugins/traffic/inbound_counter.go:38-47 | one connection for the inbound ID, nothing for the empty ID |
| Counters.InboundCounter.OnDataTransfer | internal/plugins/traffic/inbound_counter.go:50-62 | the bytes go to the context and to the entry of the inbound ID |
| Counters.InboundCounter.OnConnectionClosed | internal/plugins/traffic/inbound_counter.go:65-76 | the totals of the context are added again |
| Counters.OutboundCounter.OnOutboundConnection | internal/plugins/traffic/outbound_counter.go:38-47 | one connection for the outbound ID |
| Counters.OutboundCounter.OnDataTransfer | internal/plugins/traffic/outbound_counter.go:50-62 | the same for the outbound ID |
| Counters.OutboundCounter.OnConnectionClosed | internal/plugins/traffic/outbound_counter.go:65-76 | the same for the outbound ID |
| Counters.Manager.OnInboundConnection | internal/plugin/manager.go:47-59 | every entry takes one connection for each plugin registered for it, and no other entry changes |
| Counters.Manager.OnOutboundConnection | internal/plugin/manager.go:62-74 | the same for outbound plugins |
| Counters.Manager.OnDataTransfer | internal/plugin/manager.go:77-86 | every entry takes the bytes once for each registration that hits it, and the context once for each active one |
| Counters.Manager.OnConnectionClosed | internal/plugin/manager.go:89-98 | every entry takes the totals of the context once more for each registration that hits it |
| Counters.CountingWriter.Write | proxy/core.go:193-200 | counts the bytes the connection accepted and reports them to the plugins, exactly when there are any |
| Counters.CallAllMeaning | internal/plugin/manager.go:83-97 | calling plugins one after the other adds to each entry its number of hits times the amount, in any order |
| Stories.StoryExactly | proxy/core.go:28-90 | after any run, read off the steps: the k-th connection has the inbound ID of the k-th Accept, the ID of the last Choose made for it or else the current one of its Accept, and the bytes of the transfers made for it |
| Stories.ExactAccounting | proxy/core.go:27-117 | over every interleaving of connections and plugin calls, between hooks every entry is, modulo 2^64, the sum over the accepted connections of hook calls and transferred bytes under these IDs, counted once per hit and again per hit and active plugin once closed; each context holds its bytes times its active plugins |
| Traffic.MoveShare | internal/plugins/traffic/inbound_counter.go:38-76 | each single plugin call changes the connection's share of an entry by exactly what it adds there |
| Traffic.CallIsHook | internal/plugins/traffic/counter.go:49-71 | a step of the accounting machine on the entries of a counter is the call that the methods of the counter make |
| Metering.ChargedIsDelivered | proxy/core.go:158-200 | over every interleaving of connections, relay steps and plugin calls, between hooks every entry is that same sum for the IDs read off the steps, and the bytes of each connection are those that its relay delivered, a prefix of what its dial set out to send |
| Metering.ReturnWaitsForHooks | proxy/core.go:176-181 | when the relay can return every byte written has been passed to every plugin |
| Traffic.ClosedCountsThrice | internal/plugins/traffic/outbound_counter.go:65-76 | with one inbound and one outbound counter a closed connection has added three times its bytes to either entry |

## Left out

- Registry.Device.constructor: takes a capacity of any size, where Go leaves the conversion of a float that does not fit an int to the platform.
- Outbounds.CacheIsTransparent: takes pool operations as whole steps, so two concurrent lookups that both create an outbound, and a device that loses its connection inside one lookup (outbound/pool.go:206-213), are not modelled; the same holds for Outbounds.Pool.GetOutbound.
- Devices.QuicConservation: registry operations are whole steps, as their locks make them; reads of a device's status without its lock are not modelled.
- Registry.Registry.FindDevice: shares one loop with GetAvailableDevices in the model, where the code repeats it.
- Router.BalancedPicks: is about list positions; which device a position holds depends on the arbitrary order of a Go map.
- Router.RoundRobin.Select: lists the devices and takes the index in one step; another selection in between would only shift the index.
- Locks.DeadlockFree: work inside a critical section (opening a stream, writing, closing) is taken to end; a reader is kept out by every writer that waits, which is stricter than the Go runtime.
- Relay.RelaySafety: writes are taken to return; flow control that blocks a write on an open connection is a wait for the peer.
- Stories.ExactAccounting: plugins are registered before the first connection, as the server does; LastActivity times are not modelled.
- Outbounds.QuicOutbound.Dial: whether the library opens a stream and accepts the target line are parameters; the line itself is QuicLines.WriteTargetAddress.
- Framing.FramedExactly: holds below the library's default limit on the size of a message; a reader that fails there is one that ends early.
- StreamOwners.FreeDialsLoseNothing: takes one outbound for each device; an outbound that the pool has dropped and created again starts its IDs afresh, and DeviceStreams.NeverLostExactly covers such runs.
- Enrolment.RegisteredAsSent: states the registry after the request; load reports and command responses, which change only byte statistics and logs, are not followed further.
- Size and recursion limits of the Protocol Buffers library, its generated code and unknown-field storage beyond what the trial decodes look at.
- Errors of writing to a SOCKS5 or WebSocket connection, deadlines, and error texts.
- The device client loops, its command callbacks, and the streams a device accepts (handleStreams only logs).
- The static router, the direct outbound, configuration, TLS, logging, server start-up and the load test tool.
