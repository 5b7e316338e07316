# libuv_net, verified

A Dafny model of libuv_net, a small C++ networking library: its packet format, the receive
loops of its sessions and clients, heartbeats, the server's registry and routing, and its
thread pool. `dafny verify dfyconfig.toml` checks the whole project.

## How the model is built

- **Bytes and packets** (`Message`, `Framing`). A frame is the raw copy of the header struct,
  twelve bytes on the usual ABI, in the byte order of the host, with two arbitrary padding
  bytes, followed by the body. `Framing.Drain` says what one pass over a receive buffer means.
- **Objects and their meaning** (`Sessions`, `Clients`, `Servers`, `ThreadPools`). Each C++
  class is a Dafny class with the same fields, updated in place by the same methods and loops.
  Whatever happens to a session, a client, a server or a thread pool is proved equal to a step
  of a specification (`SessionSpec`, `ClientSpec`, `ServerSpec`, `ThreadPoolSpec`): the new field
  values, and the effects appended to the log of the shared event loop (`uv_write`, `uv_close`,
  handler calls, close callbacks), in order. A server's abstract state has the states of all
  sessions it ever accepted.
- **Laws** (`SessionLaws`, `ClientLaws`, `ServerRuns`). What the specifications do is stated again
  from outside, over steps and whole runs: exactly which events close, connect, write, report or
  start something.
- **Runs**. libuv callbacks and public calls are atomic steps on one loop thread; a run is any
  list of them. Reads, errors, timer firings and their times, connection outcomes and the sizes
  of reads are all inputs. The main results hold for every run. In `Channel` a client and a
  session of the server run together, joined by two byte channels; `KeepAlive` adds the clock to
  such runs. In `ThreadPoolSpec` workers, producers and the destructor interleave freely, with
  spurious wakeups and a gap between unlock and notify.
- Packet handlers are abstract: a handler may send packets and close its connection before it
  returns. Interceptors are abstract partial decoders.

## Where the code differs from what one might expect

- The wire format in the library's README (a four-byte big-endian length, then one type byte)
  is not what the code sends; the model follows the code. Hosts of different byte order
  understand each other only on packets whose length and sequence number read the same both
  ways (`Message.OtherByteOrderExact`).
- A body of 2^32 bytes or more does not survive serialisation (`Message.RoundTripExact`).
- A frame of the wrong version discards whatever else is in the buffer with it, so how the
  stream was split can show, exactly when bytes follow that frame (`Framing.ChunkingExact`).
- The client never refreshes its timeout: its timer gives a connection up exactly when a
  firing finds it 90001 ms old, about two minutes after it was made, however many HEARTBEATs
  arrive (`ClientTimer.GivenUpExact`, `ClientTimer.NeverKeptAlive`). Sessions do refresh
  theirs (`Heartbeat.TimedOutExact`, `Heartbeat.KeptAlive`).
- A connected client need not be watched by its timer: exactly when a running loop was stopped
  after the connection was made, it is not (`ClientTimer.ConnectedImpliesArmedExact`).
- When reading cannot start, the client does not close the socket it means to close
  (`ClientSockets.ReadStartFailureLeavesSocket`).
- The client's receive buffer survives a disconnect: whatever is sent from then on is always
  decoded as sent exactly when no bytes of a cut frame were left in it
  (`ClientReconnect.NextConnectionExact`).
- A server callback registered for HEARTBEAT packets is never called
  (`ServerSpec.TwoLevelRouting`), although tests/server_test.cpp registers one.
- A thread pool created with no workers silently drops its tasks (`ThreadPoolSpec.JoinedExact`);
  the default size, `hardware_concurrency()`, may be zero.

## Model

| member | source | states |
|---|---|---|
| Message.PackUnpack | include/libuv_net/message.hpp:101-108 | storing what was read from four bytes gives those bytes back, in either byte order |
| Message.StoreIsPack | include/libuv_net/message.hpp:106-108 | the bytes of a 32-bit word are the only ones that read back as that word |
| Message.EncodedHeader | include/libuv_net/message.hpp:95-108 | a receiver finds version, type, padding, narrowed length and sequence number in their places, whatever follows |
| Message.HeaderBytes | include/libuv_net/message.hpp:95-114 | byte by byte: version 1, type, padding, then body length and sequence number as four base-256 digits, lowest first on a little-endian host and highest first on a big-endian one, then the body; for any body, the digits above 2^32 cut off |
| Message.DecodedBytes | include/libuv_net/message.hpp:117-147 | type, body, length and sequence number are read from those places, weighted in the byte order of the reader |
| Message.DecodeEncode | include/libuv_net/message.hpp:95-147 | decoding an encoded packet keeps type and sequence number and cuts the body to its length modulo 2^32 |
| Message.RoundTripExact | include/libuv_net/message.hpp:95-147 | a packet survives serialise and deserialise if and only if its body is under 2^32 bytes |
| Message.LargeBodyIsLost | include/libuv_net/message.hpp:95-147 | a body of 2^32 zero bytes comes back empty |
| Message.EncodeDecode | include/libuv_net/message.hpp:95-147 | an accepted frame of exactly its own length re-serialises to the same bytes, given its padding |
| Message.UnpackSwapped | include/libuv_net/message.hpp:29-35 | a word read in the other byte order is unchanged if and only if its bytes are a palindrome |
| Message.OtherByteOrderExact | include/libuv_net/message.hpp:106-108 | a host of the other byte order decodes a packet correctly if and only if length and sequence number are byte palindromes |
| Message.OneByteIsMisread | include/libuv_net/message.hpp:106-108 | a host of the other byte order takes a packet of one byte for one of 2^24 bytes |
| Message.Packet.Serialize | include/libuv_net/message.hpp:95-114 | the appended bytes are the encoding of the packet's value |
| Message.Packet.Deserialize | include/libuv_net/message.hpp:117-147 | succeeds exactly on a long enough frame of the right version; says which fields each kind of failure leaves changed |
| Message.Packet.constructor | include/libuv_net/message.hpp:70 | a default packet is an empty TEXT packet with sequence number 0 |
| Message.Packet.Of | include/libuv_net/message.hpp:73-74 | a packet holds the value it is made from |
| Framing.Drain | src/session.cpp:237-273 | a pass keeps only an incomplete frame, keeps nothing after a bad version, and each packet accounts for at least twelve bytes |
| Framing.DrainFrame | src/session.cpp:247-273 | a complete sendable frame in front is decoded first, then the pass continues behind it |
| Framing.DrainWire | src/session.cpp:237-273 | parsing a serialised list and a tail gives the list, then what the tail gives |
| Framing.WireDrain | src/session.cpp:231-273 | without a bad version the buffer is the consumed frames, byte for byte, followed by what is kept |
| Framing.DrainExact | src/session.cpp:231-273 | a clean pass yields a list and a rest if and only if the buffer is a serialisation of the list followed by an incomplete frame |
| Framing.BadPassExact | src/session.cpp:251-263 | a pass meets a bad version after decoding a list if and only if the buffer is a serialisation of the list followed by a complete frame of another version |
| Framing.UniqueDecoding | include/libuv_net/message.hpp:95-147 | equal concatenated serialisations come from equal packet lists, and a prefix comes from a prefix, for any padding |
| Framing.NothingKeptExact | src/client.cpp:286-346 | a serialised list behind bytes already in the buffer is decoded as sent with no bad version met and nothing kept if and only if there were no such bytes |
| Framing.StaleBytesShow | src/client.cpp:286-346 | behind any bytes of a cut frame, one empty packet of a suitable type is not decoded as sent |
| Framing.StaleBytesExact | src/client.cpp:286-346 | no bytes of a cut frame are in the buffer if and only if every serialised list that follows has exactly its packets decoded |
| Framing.DrainSplit | src/session.cpp:231-273 | bytes that arrive later do not change what an earlier pass decoded |
| Framing.ChunkingIndependence | src/session.cpp:231-273 | up to the first bad version, every way of splitting a stream dispatches the same packets and leaves the same bytes |
| Framing.FeedExtends | src/session.cpp:237-273 | all that is dispatched begins with what is dispatched before the first bad frame; without one both agree |
| Framing.BadFrameNotLast | src/session.cpp:251-263 | bytes follow the first bad frame if and only if the frame is already complete one byte earlier |
| Framing.ChunkingExact | src/session.cpp:237-273 | no splitting of a stream matters if and only if no bytes follow its first bad frame |
| Framing.SplitCanShow | src/session.cpp:256-263 | thirteen zero bytes: in one read the last is lost with the bad frame, split before it, it is kept |
| Framing.DrainPrefix | src/session.cpp:237-273 | any prefix of a serialised list decodes to a prefix of the list and keeps exactly the part of the cut frame |
| Dispatch.RouteExact | src/session.cpp:275-315 | a packet its interceptor rejects reaches nobody; any other one the handler of its type, and the default handler only if there is none |
| Dispatch.DeliverFollows | src/session.cpp:275-315 | over a list of packets the calls are one for each packet with a handler, in order, each of the handler it is meant for; a session leaves HEARTBEATs out |
| Dispatch.DataArrives | include/libuv_net/session.hpp:84-93 | `send_data` sends nothing without an interceptor; otherwise what it sends carries the value to a receiver with the same interceptors and is routed by its type |
| SessionSpec.RunSane | src/session.cpp:109-116 | from any state of agreeing flags a run closes at most once, pays one `uv_close` for it, calls back no more than it is owed, and writes nothing if it began closing |
| SessionSpec.ClosesOnce | src/session.cpp:109-208 | over every interleaving `uv_close` is issued exactly once if the session is closing and never otherwise, and `on_close` runs at most once and not before it |
| SessionSpec.ClosedIsSilent | src/session.cpp:109-229 | once closing, a session writes nothing and issues no second `uv_close`, while its timer stays as armed as it was |
| SessionSpec.StepClosesBack | src/session.cpp:201-208 | a step calls the close handler once if it is an owed close callback and a handler is set, reports an unheard close once if none is set, and otherwise does neither |
| SessionSpec.StepOuts | src/session.cpp:157-229 | an owed close callback does nothing but report the close; every other step only writes, closes and calls packet handlers |
| SessionSpec.HandleAllFrame | src/session.cpp:275-282 | handling packets moves the timeout if and only if a HEARTBEAT is among them, and leaves buffer, timer and reading alone |
| SessionSpec.StepFrame | src/session.cpp:275-322 | an event resets the timeout if and only if it completes a HEARTBEAT or starts the session |
| SessionSpec.HandleAllCalls | src/session.cpp:237-315 | each packet reaches its handler once and in order, even after a handler has closed the session |
| SessionSpec.RunDispatches | src/session.cpp:157-315 | over a whole run the handlers called are exactly those the read bytes ask for, and the buffer is what feeding them leaves |
| SessionSpec.ProcessStep | src/session.cpp:247-272 | handling and erasing one frame and then going on is the same as the whole pass |
| SessionLaws.StepClosesExact | src/session.cpp:109-229 | an event closes an open session, with one `uv_close`, if and only if it is a failed read, a failed write, a close call, a firing of an armed timer 90001 ms after the last refresh, or a read with a packet whose handler hangs up |
| SessionLaws.RunClosesExact | src/session.cpp:109-229 | at the end of a run the session is closing if and only if it was at the start or some such event occurred, and then exactly one `uv_close` was issued |
| SessionLaws.ReadPerforms | src/session.cpp:237-315 | a read makes an open session write exactly the replies of the handlers called, up to the first hang-up, and a hang-up among them closes it |
| SessionLaws.HandleAllSplit | src/session.cpp:247-272 | the effects of handling two lists of packets one after the other are those of the first, then those of the second |
| SessionLaws.RunWritesExact | src/session.cpp:118-229 | over a run the packets written are, while the session is open and in order, those given to send, a HEARTBEAT for each firing in time, and the replies of handlers |
| SessionLaws.TimerExact | src/session.cpp:103-107 | after a run the timer is armed if and only if the last start or stop in it was a start |
| SessionLaws.ReadingExact | src/session.cpp:86-107 | after a run the session is reading if and only if a start succeeded while it was open and no stop followed |
| SessionLaws.RunCallsExact | src/session.cpp:275-315 | over a run the handlers called are one for each packet read that is no HEARTBEAT, passes and has a handler: that of its type, or else the default one |
| Heartbeat.TimeoutExact | src/session.cpp:210-229 | a firing closes an open session if and only if 90001 ms have passed, and otherwise sends one HEARTBEAT |
| Heartbeat.TimedOutExact | src/session.cpp:210-229 | over any run some firing closes the session if and only if some firing finds it armed, open and 90001 ms after its last HEARTBEAT or start |
| Heartbeat.KeptAlive | src/session.cpp:210-229 | if HEARTBEATs are processed (counting the start) never more than 90000 ms apart, no firing in the run closes the session |
| Heartbeat.SilenceDetected | src/session.cpp:210-229 | with firings at most 30000+J ms apart and no HEARTBEAT processed, the session is closing at most 120000+J ms after the last one |
| Heartbeat.DetectionBoundIsReached | src/session.cpp:210-229 | for every J some punctual silent run closes only at exactly 120000+J ms, so the bound is the best possible |
| SessionIds.ValueOfHex | src/session.cpp:23-26 | the hexadecimal digits of an address denote that address |
| SessionIds.ValueOfPadded | src/session.cpp:23-26 | leading zeros do not change the number an id denotes |
| SessionIds.IdsAreInjective | src/session.cpp:23-26 | an id determines its address, so different addresses of any size have different ids |
| SessionIds.IdExact | src/session.cpp:23-26 | the id is the only string of lower-case hexadecimal digits of the address with eight digits, or more without a leading zero |
| Sessions.ParseFront | src/session.cpp:256-263 | on a complete frame deserialising fails only for a bad version and then leaves the fresh packet untouched, so the partial-update path cannot happen in the loops |
| Sessions.Session.constructor | src/session.cpp:16-75 | a new session is open, idle, disarmed and without callbacks |
| Sessions.Session.Close | src/session.cpp:109-116 | refines the close step: flag, handle and log |
| Sessions.Session.Send | src/session.cpp:118-142 | hands the packet's encoding to one `uv_write`, or nothing when closing |
| Sessions.Session.SendData | include/libuv_net/session.hpp:84-93 | sends the body the type's interceptor makes, or nothing without one |
| Sessions.Session.HandlePacket | src/session.cpp:275-315 | refines handling of one packet: timeout, interceptor, handler, fallback and everything the handler does |
| Sessions.Session.TakeFront | src/session.cpp:256-271 | one round on a complete frame handles and erases it by the length read again, or clears the buffer |
| Sessions.Session.ProcessBuffer | src/session.cpp:237-273 | the in-place erasing loop terminates and is one pass of the specification, with the same effects in the same order |
| Sessions.Session.AppendToBuffer | src/session.cpp:231-235 | appending a chunk and looping is the append step, for every buffer and chunk |
| Sessions.Session.OnRead | src/session.cpp:157-187 | bytes, an empty read and a failed read are each the step of that event |
| Sessions.Session.StartRead | src/session.cpp:86-101 | reading starts exactly when the session is open and libuv agrees |
| Sessions.Session.Start | include/libuv_net/session.hpp:68-72 | starting arms the timer and resets the timeout even when reading could not start |
| Sessions.Session.Stop | src/session.cpp:103-107 | stops reading and disarms the timer, nothing else |
| Sessions.Session.OnHeartbeatTimer | src/session.cpp:210-229 | refines a timer firing |
| Sessions.Session.OnClose | src/session.cpp:201-208 | one owed close callback is used up and reported to the close handler if there is one |
| Sessions.Session.Callback | src/session.cpp:157-208 | every callback and call is the step of the specification the run lemmas are about |
| ClientSpec.AlwaysConsistent | src/client.cpp:69-260 | over every interleaving of calls and callbacks the client is never connected and connecting at once, and its timer is armed only while it is connected |
| ClientSpec.StepFrame | src/client.cpp:57-260 | every event keeps those flags consistent; only making a connection moves the timeout, whatever is read, and only stopping a running loop disarms the timer of a connection that stays |
| ClientTimer.TimerStepExact | src/client.cpp:57-67 | where connected implied armed, it still does after an event if and only if the event does not stop a running loop behind a connection |
| ClientTimer.ConnectedImpliesArmedExact | src/client.cpp:57-67 | at the end of any run connected implies armed if and only if the client is not connected or no running loop was stopped since its connection was made |
| ClientTimer.ConnectedWithoutTimer | src/client.cpp:57-67 | a run that ends connected with the timer disarmed |
| ClientTimer.UnwatchedIsLeftAlone | src/client.cpp:57-67 | with the timer disarmed, until a connection is made anew no timer event closes, sends or changes anything |
| ClientTimer.GivenUpExact | src/client.cpp:241-260 | over any run, reconnects included, the timer gives a connection up if and only if some firing finds it watched and 90001 ms old, whatever was received |
| ClientTimer.NeverKeptAlive | src/client.cpp:241-260 | with a punctual timer every connection has ended at most 120000+J ms after it was made, whatever was received |
| ClientTimer.GivenUpDespiteHeartbeats | src/client.cpp:241-260 | a run in which a HEARTBEAT arrives every 30 s and the timer gives the connection up all the same |
| ClientSockets.ReadStartFailureLeavesSocket | src/client.cpp:166-178 | in every run from a new client a connection whose reading cannot start is not closed but left idle with its socket open; the next attempt closes it quietly and fails if the handle is active, and otherwise initialises it again unclosed |
| ClientSockets.ReadStartCanFail | src/client.cpp:166-178 | such a run exists |
| ClientSockets.RunPaid | src/client.cpp:109-126 | over any run, `uv_close` calls plus the open handle at the end are at most the open handle at the start plus the initialisations |
| ClientSockets.ClosesAreBounded | src/client.cpp:109-284 | from a new client, whatever fails, `uv_close` is called, quietly or not, at most once more than a handle is initialised |
| ClientSpec.HandleAllCalls | src/client.cpp:310-341 | each decoded packet reaches its handler once, in order |
| ClientSpec.RunDispatches | src/client.cpp:69-346 | over a whole run, through disconnects and reconnects, the handlers called are those the read bytes ask for, and only reading changes the buffer |
| ClientLaws.StepConnectedExact | src/client.cpp:69-260 | the client is connected after an event if and only if the event makes a connection or it was connected and the event is no failed read or write, disconnect, close callback, late firing, failed read start or hang-up; likewise for connecting |
| ClientLaws.RunConnectedExact | src/client.cpp:69-260 | after a run the client is connected if and only if a connection was made in it, or was there, and no such event followed |
| ClientLaws.StepSocketExact | src/client.cpp:69-284 | the handle becomes closed exactly by ending a connection or attempt or by a new attempt on an active handle, each for one `uv_close` of the right kind, and is open again exactly by an initialisation |
| ClientLaws.RunReportsExact | src/client.cpp:153-204 | over a run the connect handler, if set, is called once for each connection made and the disconnect handler once for each close callback |
| ClientLaws.ReadPerforms | src/client.cpp:310-341 | a read makes a connected client write exactly the replies of the handlers called, up to the first hang-up, and a hang-up ends the connection or attempt |
| ClientLaws.HandleAllSplit | src/client.cpp:290-345 | the effects of handling two lists of packets one after the other are those of the first, then those of the second |
| ClientLaws.RunWritesExact | src/client.cpp:128-260 | over a run, through reconnects, the packets written are, while connected and in order, those given to send, a HEARTBEAT for each firing in time, and the replies of handlers |
| ClientLaws.RunCallsExact | src/client.cpp:310-341 | over a run the handlers called are one for each packet read that passes and has a handler: that of its type, or else the default one |
| ClientReconnect.CleanStart | src/client.cpp:286-346 | from an empty buffer a serialised list is decoded as sent in any pieces, and nothing is kept |
| ClientReconnect.NextConnectionExact | src/client.cpp:69-204 | after any run, nothing is left in the buffer if and only if all later reads, in any pieces and over any events, are decoded as sent |
| ClientReconnect.NextCallsExact | src/client.cpp:69-204 | the same for the handler calls of the rest of the run, on a client that handles every packet |
| ClientReconnect.CutConnectionLeaves | src/client.cpp:69-204 | a run that loses its connection inside a frame, makes another and does not decode the first packet on it as sent |
| ClientSpec.LoopsAgree | src/client.cpp:286-346 | from equal buffers the client's loop and the session's keep the same bytes and make the same calls, apart from HEARTBEATs, bad versions included |
| ClientSpec.DeliverWithoutHeartbeats | src/client.cpp:310-341 | a session asks for the calls a client asks for, minus those for HEARTBEATs |
| Clients.Client.constructor | src/client.cpp:14-26 | a new client is unconnected, idle and disarmed |
| Clients.Client.InitSocket | src/client.cpp:262-284 | an active handle is closed without a callback and the attempt fails; otherwise the outcome is libuv's |
| Clients.Client.Connect | src/client.cpp:69-107 | succeeds if and only if the client is free, the handle inactive and both libuv calls succeed; refines the connect step |
| Clients.Client.Disconnect | src/client.cpp:109-126 | refines the disconnect step, doing nothing when neither connected nor connecting |
| Clients.Client.Send | src/client.cpp:128-151 | hands the packet's encoding to one `uv_write` if connected, else nothing |
| Clients.Client.SendData | include/libuv_net/client.hpp:76-85 | sends the body the type's interceptor makes, or nothing without one |
| Clients.Client.OnConnect | src/client.cpp:153-190 | refines the connect callback in its three outcomes |
| Clients.Client.OnClose | src/client.cpp:192-204 | clears both flags and the timer and reports the disconnect |
| Clients.Client.OnHeartbeatTimer | src/client.cpp:241-260 | refines a timer firing |
| Clients.Client.HandlePacket | src/client.cpp:310-341 | refines handling of one packet, HEARTBEATs included |
| Clients.Client.TakeFront | src/client.cpp:301-344 | one round on a complete frame handles and erases it by the size taken before, or clears the buffer |
| Clients.Client.ProcessBuffer | src/client.cpp:290-345 | the client's differently guarded loop terminates and is one pass of the specification |
| Clients.Client.AppendToBuffer | src/client.cpp:286-346 | appending a chunk and looping is the append step, for every buffer and chunk |
| Clients.Client.OnRead | src/client.cpp:206-227 | bytes, an empty read and a failed read are each the step of that event |
| Clients.Client.StopLoop | src/client.cpp:57-67 | stops a running loop and disarms the timer, and does nothing otherwise |
| Clients.Client.Callback | src/client.cpp:153-260 | every callback and call is the step of the specification the run lemmas are about |
| Channel.PushKeeps | src/client.cpp:128-151 | writing packets keeps a stream aligned: the receiver's buffer and the channel hold exactly what is sent and not yet decoded |
| Channel.PullKeeps | src/session.cpp:231-273 | taking any number of bytes from the channel keeps it aligned, and decodes the next packets sent |
| Channel.NextKeeps | src/session.cpp:118-315 | every move of either end or of the network keeps both directions aligned and both ends' histories true to their streams |
| Channel.StreamsAreConserved | src/session.cpp:231-273 | in every reachable state and both directions the bytes sent are those decoded, then the buffer, then the channel; an empty channel means everything sent was decoded and the buffer is empty |
| Channel.HandlersFollowPeer | src/session.cpp:157-315 | end to end and both ways, the handlers called are those the first packets written by the other end ask for, once each and in order, however the two ends and the network interleave |
| Channel.ServerFollowsClient | src/server.cpp:153-171 | from the client's writes to the server's callbacks: exactly one callback for each wanted packet among the first written, in order, and for every one written once the channel is empty |
| KeepAlive.ArrivedIsDecoded | src/session.cpp:237-273 | a packet with no byte left in the channel has been decoded |
| KeepAlive.NextWatched | src/client.cpp:241-260 | every move keeps the client's HEARTBEATs at most a gap apart while its timer is armed, and the session's timeout no older than any HEARTBEAT it has decoded |
| KeepAlive.HeartbeatsKeepSession | src/session.cpp:210-229 | if the client's firings are at most a gap apart, bytes upward take at most a delay, the session is at most a lead older than the connection and the three add up to less than 90001 ms, no firing closes the session while the client's timer is armed, whatever else both ends do |
| KeepAlive.BoundIsSharp | src/session.cpp:210-229 | for every positive gap and any delay and lead that add up to 90001 ms or more, a run exists in which the session is closed although the client's timer is punctual |
| KeepAlive.KeptAliveExact | src/session.cpp:210-229 | heartbeats keep the session open in all such runs if and only if gap, delay and lead add up to less than 90001 ms, to the clock tick |
| ServerSpec.TwoLevelRouting | src/server.cpp:153-171 | over a whole stream each wanted packet reaches exactly one server callback, the one registered for its type or else the default one, in order; HEARTBEATs and rejected packets reach none |
| ServerSpec.RunRoutes | src/server.cpp:153-171 | the same for a session's whole run of reads, timeouts, closes and sends |
| ServerSpec.EverySessionIsServed | src/server.cpp:140-192 | over any run of the server, with any sessions interleaved, the server callbacks called for a session are one for each wanted packet in the bytes it has read, in order, each the right one |
| ServerSpec.StepKeeps | src/server.cpp:140-192 | every server event keeps the registry, the session states and the log of connects and closes in agreement |
| ServerSpec.RemovedAreCalledBack | src/server.cpp:174-182 | a registered session has left the registry at the end of a run if and only if its close handler was called in the run, and it was called once |
| ServerSpec.RegistryAgreesWithHistory | src/server.cpp:140-192 | over any run the registry is the sessions connected and not called back, by the log, in accept order and distinct; each one gone called its close handler once; and the server's own close handler was called for exactly those, in order |
| ServerRuns.EveryComerIsAccepted | src/server.cpp:140-192 | every connection that comes in is accepted and reported, read off the events alone, and the registry is the comers not called back, in order |
| ServerRuns.AcceptedIsStarted | src/server.cpp:184-185 | an accepted session is last in the registry and open, its timer armed and its timeout at the time of the accept, its buffer empty, and reading if libuv agrees; the others are untouched |
| ServerRuns.SessionsAreIndependent | src/server.cpp:119-192 | over any run of the server each session has the state and the effects of a session by itself that is started at its accept, meets its own events and is given each broadcast and each packet sent to its id |
| ServerRuns.SilentSessionIsClosed | src/server.cpp:140-192 | an accepted session that hears no HEARTBEAT and whose timer fires at most 30000+J ms apart is closing at most 120000+J ms after its accept, whatever the others do |
| ServerSpec.BroadcastOnce | src/server.cpp:119-125 | a broadcast attempts exactly one write on each registered open session and has no other effect |
| ServerSpec.BroadcastInOrder | src/server.cpp:119-125 | its writes are attempted in registry order |
| ServerSpec.SendToExact | src/server.cpp:127-138 | sending to an id attempts a write exactly on the registered open session with that id, and at most one |
| Servers.Server.constructor | src/server.cpp:17-29 | a new server has no sessions and no handlers |
| Servers.Server.OnPacket | src/server.cpp:160-171 | the forwarding callback calls the server callback of the type if one is registered, else the default one, or none |
| Servers.Server.Forward | src/server.cpp:160-171 | each forwarding call the sessions make reaches the server callback it asks for, in order |
| Servers.Server.OnConnection | src/server.cpp:140-192 | refines the accept step: the session is registered last with a callback that ignores HEARTBEATs, one that forwards and a close handler, it is started, and the connect handler is called; a failed accept changes nothing |
| Servers.Server.OnSessionClosed | src/server.cpp:240-252 | exactly that session leaves the registry, the order of the others stays, and the close handler is told if it is set |
| Servers.Server.CloseCallback | src/server.cpp:174-182 | the session reports its close, then the server forgets it and calls its own close handler |
| Servers.Server.SessionCallback | src/server.cpp:140-192 | anything that happens to a session, registered or not, is a step of the server, and its packets reach the server's callbacks |
| Servers.Erase | src/server.cpp:243-245 | the erase-remove loop keeps every other element in order |
| Servers.Server.Broadcast | src/server.cpp:119-125 | the loop over the registry has exactly the effects of a broadcast |
| Servers.Server.FindSession | src/server.cpp:129-133 | the search finds the first registered session with the id, or the end |
| Servers.Server.SendTo | src/server.cpp:127-138 | sends on the session found, if any, with exactly the effects of a targeted send |
| Servers.Server.Callback | src/server.cpp:119-192 | every event is the step of the specification the registry lemmas are about, and calls the server callbacks the routing lemmas are about |
| ThreadPoolSpec.StepKeeps | src/thread_pool.cpp:6-49 | every atomic step keeps first-in-first-out order, the account of running tasks, wakeup coverage and orderly return |
| ThreadPoolSpec.AlwaysInv | src/thread_pool.cpp:6-49 | the same over every interleaving |
| ThreadPoolSpec.AcceptedExact | src/thread_pool.cpp:39-49 | in every run the tasks accepted are those of the enqueue steps before the first stop, in order, read off the steps alone |
| ThreadPoolSpec.TasksAreConserved | src/thread_pool.cpp:9-22 | in every reachable state tasks started then queued are those offered before the stop, in order, and each one started has finished or is being run |
| ThreadPoolSpec.StoppedAcceptsNothing | include/libuv_net/thread_pool.hpp:39-44 | nothing is accepted once the pool has been stopped |
| ThreadPoolSpec.NoLostWakeup | src/thread_pool.cpp:9-22 | while a worker sleeps each queued task has a notification owed or a worker awake, and with tasks queued somebody can always act |
| ThreadPoolSpec.RestMeansDrained | src/thread_pool.cpp:9-22 | without a shutdown too: with a worker, once nothing can happen but a new task, a wakeup for no reason or the stop, every task offered before a stop has been run |
| ThreadPoolSpec.WorkIsBounded | src/thread_pool.cpp:9-22 | over any run and schedule the notifications, turns and returns are bounded by the load at the start, four for each task enqueued, one for each wakeup for no reason and one per worker for `notify_all` |
| ThreadPoolSpec.ShutdownAdvances | src/thread_pool.cpp:28-37 | after the stop every step but a refused enqueue leaves strictly less to do, and no worker falls asleep |
| ThreadPoolSpec.ShutdownTerminates | src/thread_pool.cpp:28-37 | a run after the stop has a bounded number of steps under every schedule |
| ThreadPoolSpec.StuckMeansExited | src/thread_pool.cpp:28-37 | in every run from a new pool, once it is stopped and nothing can happen but a refused task or a wakeup for no reason, every worker has returned: no worker is left asleep |
| ThreadPoolSpec.StopAloneHangs | src/thread_pool.cpp:28-33 | before `notify_all` this fails: a run in which the pool is stopped, a worker sleeps and nothing but `notify_all` is bound to happen |
| ThreadPoolSpec.JoinedExact | src/thread_pool.cpp:28-37 | when all joins can return, every task offered before the stop has been run if and only if there is a worker or none was offered |
| ThreadPoolSpec.NoWorkersDropTasks | src/thread_pool.cpp:6-37 | a pool without workers that accepted one task is joined with the task not run |
| ThreadPools.ThreadPool.constructor | src/thread_pool.cpp:6-26 | a new pool has the given number of ready workers |
| ThreadPools.ThreadPool.Enqueue | src/thread_pool.cpp:39-49 | a pool that is not stopped accepts the task at the back, whatever it is doing, and owes a notification; a stopped one silently drops it |
| ThreadPools.ThreadPool.Submit | include/libuv_net/thread_pool.hpp:26-50 | the same, but reports the stop to the caller |
| ThreadPools.ThreadPool.NotifyOne | src/thread_pool.cpp:48 | wakes one sleeping worker if there is one |
| ThreadPools.ThreadPool.WorkerTurn | src/thread_pool.cpp:12-20 | the worker's critical section sleeps, returns or takes the front task |
| ThreadPools.ThreadPool.SpuriousWakeup | src/thread_pool.cpp:13-15 | a wakeup for no reason only makes the worker look again |
| ThreadPools.ThreadPool.TaskReturns | src/thread_pool.cpp:22 | a finished task is recorded and its worker looks again |
| ThreadPools.ThreadPool.SetStop | src/thread_pool.cpp:29-32 | sets the flag and owes the notification of everybody |
| ThreadPools.ThreadPool.NotifyAll | src/thread_pool.cpp:33 | wakes every sleeping worker |
| ThreadPools.ThreadPool.Join | src/thread_pool.cpp:34-36 | after `notify_all`, waiting for one thread ends with it returned, because whoever has not returned is awake |
| ThreadPools.ThreadPool.Destroy | src/thread_pool.cpp:28-37 | under any schedule of the workers and of producers that owe a notification the destructor ends with all workers returned and, if there are any, every accepted task run; once `notify_all` is issued no wakeup for no reason is needed |

## Left out

- libuv and the sockets: an environment that delivers bytes in order, owes one close callback for each `uv_close`, and otherwise behaves as it likes. The model also allows reads after a close.
- Address parsing, `uv_accept`, peer names, logging and build files.
- Body sizes near the limits of `size_t`: it is taken to have 64 bits, so adding the header size to a length never wraps.
- Time inside one callback: all packets of one read are handled at the tick of that read.
- Memory: a successful `uv_write` is taken to capture its bytes at the call; read buffers, write requests and reference cycles are not modelled.
- Failing writes at the call: a `uv_write` that returns an error loses its packet (src/session.cpp:137-141, src/client.cpp:146-150), while every logged write goes onto the channel of a joint run. A write that fails later is an event of the run.
- When the server's callbacks run: at the end of the libuv callback that decoded their packets, not between two packets of it. What they do to their session is part of that session's handler behaviour.
- What handlers may do: they may send and close, but not feed bytes to their own connection, use other connections of the server, change callbacks during a pass, or throw.
- Changing callbacks during a run: the setters are methods of the classes, while a run has fixed callbacks.
- The read and allocation callbacks of a session (`set_read_callback` bypasses the receive loop altogether).
- The JSON and Protobuf interceptors: they wrap libraries that are not part of this model.
- New connections inside a joint run: `Channel` follows one connection; what the next one finds is the subject of `ClientReconnect`.
- Threads of the client and the server and data races on their flags: public calls and callbacks are steps of one loop thread.
- Whether the client's old handle is still active or closing when it connects again: both are inputs of the connect step.
- Interceptors on the server's sessions: the specification allows any, the `Server` class starts sessions without, and an application adds them to a session it is handed.
- `listen` and `stop_listening`, `handle_new_session` and `Server::on_read`: they repeat or only surround the modelled paths.
- Destructors of sessions, clients and servers.
- Tasks that throw, the values of futures and the binding of arguments.
- The Qt wrapper and the examples.
