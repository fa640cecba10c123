# The frp client's byte-stream engine, modelled and proved

The client receives and sends through a stack of incremental decoders and flow-controlled writers. The
socket may cut the bytes anywhere, a peer may exhaust a window at any time, and callbacks may come in any
order; the stack must still deliver the same frames, messages and payload. This project models that stack
and proves what it keeps over all inputs, all cuttings and all runs.

- `Bytes`, `MuxFrames`, `EvBuffer`: bytes, big-endian fields, frame headers, the growable buffer.
- `Demux`: the resumable frame parser, over any session behind it.
- `EndToEnd`: the encrypted tunnel and the control connection from one end to the other, over one connection.
- `TcpMux`, `TcpMuxSafety`, `TcpMuxLifecycle`, `MuxEndToEnd`, `Credit`: streams, windows and tables of the multiplexer as a step
  system; lifecycle, flow control and isolation over all runs; credit between two parties.
- `Nonce`, `Aead`, `WireV2`, `V2Receive`: the framed AEAD stream and wire protocol v2, with the switch from
  plaintext to AEAD in the middle of a buffer.
- `Cfb`, `ProxyCrypto`, `BackPressure`: the encrypted proxy path and its stash.
- `Socks5`: the SOCKS5 staging state machine.
- `Timers` (modules `TimerList`, `TimerPhase`): the intrusive timer list and the timer phase of a round.

Each stateful part appears twice: as a class whose methods follow the code, and as the function on values
that the methods are proved to compute. The theorems are about those functions.

Code outside the model enters as a parameter. AES-256-GCM is a pair of functions with `open(seal(x)) == x`
and a 16-byte tag; AES is any function from 16 bytes to 16 bytes; the verdicts on a ServerHello and a login
response, the clock, the callbacks of timers, the success of a connect and of the cipher library, and the
session behind the frame parser are parameters too.

Some statements one would expect are not true of the code. They are kept as results, with the condition
under which the code does what is expected:

- An empty DATA frame for a registered stream stops the parser, and for good if its header ends a read.
- A payload for an unknown stream is forgotten when a read ends inside it after completing its header; the
  rest of it is then obeyed as frames.
- A payload can stay unread although the parser counts it as read: when its flags end the stream, when it
  exceeds the window, and when the local side of a forwarding SOCKS5 client has hung up.
- A first frame under 16 bytes is thrown away by the multiplexed decoder.
- Stashed ciphertext is only sent when new local input arrives. When the local service hangs up the stash is
  dropped and unread input is sent raw; the peer still has everything exactly when nothing was stashed, the
  input fitted the window, and encryption would not have changed it.
- The v2 magic is seen only in one piece at the front of a read, and a bad AEAD frame silences the connection
  and takes the messages of its read with it.
- A counter that runs over breaks the AEAD stream at both ends; the round trip works exactly while it does not.
- A stream in INIT can be closed, or written to, without its SYN ever going out.
- A received RST is ignored next to FIN on a remotely closed stream.
- The SOCKS5 greeting reply may be sent several times, and some requests are never answered.

Where the comments of the code and the code differ the model follows the code: the largest DATA frame is
256 KiB (src/tcpmux.h:15 says 32 KiB in its comment).

## Model

| member | source | states |
|---|---|---|
| Demux.ReadDecodes | src/control.c:1564-1695 | one read from any parser position (fresh, mid-header, mid-payload, swallowing): the session ends as the frame-by-frame reference says, and the parser holds exactly the incomplete last frame if and only if the read does not swallow part of an unknown stream's payload together with its header |
| Demux.ChunkIndependence | src/control.c:1564-1797 | for every way of cutting well-formed frames into reads, for any session behind the parser, the final session equals decoding all bytes at once and what stays unprocessed is exactly the incomplete last frame |
| Demux.InterleavedRun | src/control.c:1564-1797 | the same with local calls between any two reads: each frame takes effect when its last byte is there and each call where it stands, and the parser holds exactly the incomplete last frame |
| Demux.CutIsInvisible | src/control.c:1586-1618 | two adjacent reads of an orderly run of the parser can be one read, with the same session and the same incomplete frame in hand, and the run stays orderly if and only if the joint read does not forget a frame |
| Demux.CallMovesAcross | src/control.c:1640-1670 | in an orderly run of the parser the bytes of a frame that is not complete at a local call may come before or after the call, with the same session, if and only if the joint read does not forget a frame |
| Demux.PayloadForgotten | src/control.c:1652-1661 | a payload for an unknown stream of which only a part comes with its header leaves the parser at a fresh boundary, and the next read is decoded as fresh frames |
| Demux.ForgottenTailIsObeyed | src/control.c:1652-1661 | so a control frame spelled out in the rest of such a payload is dispatched, although all these bytes belong to one incomplete DATA frame |
| Demux.JoiningReadsForgets | src/control.c:1641-1661 | and the condition is needed: with the header in a read of its own the same bytes are swallowed, so joining two reads changes the session |
| Demux.EmptyDataWedges | src/control.c:1641-1691 | an empty DATA frame for a registered stream whose header ends a read stops the connection for good: no later bytes, however cut, dispatch anything |
| Demux.EmptyDataStalls | src/control.c:1649-1691 | in the middle of a read the same frame only ends the loop, leaving all following bytes unread |
| Demux.BadHeaderStops | src/control.c:1615-1630 | an unknown version or type, or a DATA length above 8 MiB, ends the loop: the header is gone, nothing is dispatched, the bytes behind it wait |
| Demux.UntakenPayloadIsReparsed | src/control.c:1677-1679 | a payload the handler does not read is counted as read, so the next read starts by parsing it as a header |
| Demux.Demultiplexer.HandleTcpMux | src/control.c:1564-1695 | the loop with its static header, partial count and current stream, proved equal to the loop specification over which the chunk laws are stated |
| Demux.Demultiplexer.Receive | src/control.c:1789-1797 | a read callback runs the loop over old and new bytes together |
| MuxFrames.HeaderRoundTrip | src/tcpmux.c:196-227 | the 12-byte header decodes to the fields that were encoded, big-endian |
| MuxFrames.HeaderLayout | src/tcpmux.c:209-227 | the position and byte order of each header field |
| TcpMux.FlagValues | src/tcpmux.h:35-41 | SYN, ACK, FIN and RST are bits 1, 2, 4 and 8 |
| MuxEndToEnd.WireApplies | src/control.c:1564-1695 | any receiver that knows every stream and reads every payload is given exactly the frames on the wire, in order, for every cutting |
| MuxEndToEnd.WireRoundTrip | src/tcpmux.c:209-227 | the bytes of any well-formed frames, re-cut in any way, give the peer exactly those frames in order |
| MuxEndToEnd.EndToEnd | src/tcpmux.c:897-962 | for every run of the session and every cutting of its output, the peer receives on each stream exactly the bytes taken from that stream's sources, in order, in frames of 1 to 256 KiB |
| MuxEndToEnd.PayloadTakenIff | src/tcpmux.c:560-704 | a DATA payload is read off the connection if and only if its flags neither end nor are refused by the stream, it fits the receive window, and it is not for a forwarding SOCKS5 client whose local connection is gone |
| MuxEndToEnd.HungUpStays | src/client.c:139-150 | a hang-up leaves the stream registered unless it was half closed and its window is open |
| MuxEndToEnd.HangUpLosesStep | src/proxy_tcp.c:241-247 | so after the hang-up of a forwarding SOCKS5 client an ordinary DATA frame throws the parser out of step: its payload counts as read and the next read decodes it as frames |
| MuxEndToEnd.QuietFrame | src/tcpmux.c:560-704 | a DATA frame whose payload sets off no local call is one call of process_data |
| MuxEndToEnd.CallIsMade | src/tcpmux.c:588-612 | a call set off by a payload takes effect after the frame's flags and before its credit |
| MuxEndToEnd.ControlArrives | src/control.c:1680-1687 | a control header on the wire reaches the session as the window update or PING it is |
| MuxEndToEnd.EstablishedThenHungUp | src/client.c:133-137 | a SOCKS5 client is severed by a hang-up if and only if it had begun to forward |
| MuxEndToEnd.SessionChunkIndependent | src/control.c:1564-1695 | chunk independence with this client's own session as the handler: same session state as one read of everything |
| MuxEndToEnd.BytesAreSteps | src/control.c:1564-1695 | bytes of the connection in any cutting, with any local calls in between and any calls set off by a payload while it is handled, take the session through a run of the step system, the frames in the order of their bytes |
| MuxEndToEnd.ByteLevelSafety | src/tcpmux.c:454-997 | so at the level of bytes tables agree, no DATA follows FIN or RST, and bytes written plus window equal 256 KiB plus the credit that counted, on every stream |
| EndToEnd.TunnelEndToEnd | src/proxy_tcp.c:436-613 | the bytes of the whole connection cut anywhere, demultiplexed, and the stream decoded in any pieces give a prefix of what the local service wrote, and all of it when nothing is stashed |
| EndToEnd.ControlEndToEnd | src/control.c:1410-1695 | a server session of wire protocol v2 put into DATA frames of any sizes on one stream among any other frames, the connection cut anywhere: the client dispatches the login response and exactly the messages sent, in order |
| Credit.BalanceKept | src/tcpmux.c:531-552 | every step of a conforming peer or of this side keeps the credit balance, the restored receive window and the FIN ordering |
| Credit.CreditConserved | src/tcpmux.c:560-703 | in every reachable state peer window, DATA under way, credit under way and bytes lost to a gone stream add up to 256 KiB; nothing is lost while the stream is registered, the receive window is 8 MiB between frames, and no DATA under way exceeds it |
| TcpMuxSafety.FlowControl | src/tcpmux.c:708-780 | in every run bytes written plus window equal 256 KiB plus the credit that counted; hence never more than 256 KiB plus accepted increments, and the window never exceeds 6 MiB |
| TcpMuxSafety.RaiseIsMin | src/tcpmux.c:734-749 | the two successive caps amount to the minimum with 6 MiB |
| TcpMuxSafety.AccountRun | src/tcpmux.c:897-962 | over any run the flow-control account grows by exactly the credit that counted, and each stream's payload log by exactly the source bytes taken |
| TcpMuxSafety.NoDataAfterEnd | src/tcpmux.c:897-997 | in every run no DATA frame follows a FIN or RST on the same stream |
| TcpMuxSafety.SynExactlyOnFirst | src/tcpmux.c:505-526 | in every tidy run a non-reset frame carries SYN if and only if it is the first such frame of its stream |
| TcpMuxSafety.UntidyBreaks | src/tcpmux.c:696-697 | tidiness is needed: after a short delivery to, or a write without output on, a stream in INIT, one more ordinary call writes a first frame without SYN |
| TcpMuxSafety.RstHonoured | src/tcpmux.c:463-492 | a received RST resets the stream if and only if it does not come with FIN on a remotely closed stream, nor with SYN in a window update |
| TcpMuxSafety.ResetIsFinal | src/tcpmux.c:897-997 | once reset a stream stays reset and nothing is written on it in any later run |
| TcpMuxSafety.SessionIds | src/tcpmux.c:248-258 | ids are odd, and two allocations share an id if and only if their distance is a multiple of 2^31 |
| TcpMuxSafety.NewIdIsFree | src/tcpmux.c:71-86 | until then a new stream never finds its id taken, so the table never refuses it |
| TcpMuxSafety.TablesStep | src/client.c:506-588 | every step keeps clients within registered streams, CLOSED and RESET streams out of the table, ids odd and windows in range |
| TcpMuxSafety.TablesRun | src/client.c:506-588 | the same over every run |
| TcpMuxSafety.OutOkRun | src/tcpmux.c:209-227 | every frame written in any run is one the encoding can carry and the receiver accepts |
| TcpMuxLifecycle.StepTouches | src/client.c:530-544 | every step leaves every stream but its own unchanged, in both tables, state and windows, and writes only on its own stream or on none |
| TcpMuxLifecycle.UnnamedIsUntouched | src/tcpmux.c:71-105 | over any run a stream or client that no step names stays where and as it was |
| TcpMuxLifecycle.OpenEnters | src/client.c:567-585 | a new client has a fresh odd id, windows of 256 KiB and 8 MiB and an entry in both tables |
| TcpMuxLifecycle.AnnounceWrites | src/tcpmux.c:505-538 | announcing writes exactly one SYN on a new stream, one ACK on an accepted one, and nothing on any other |
| TcpMuxLifecycle.AckEstablishes | src/tcpmux.c:457-461 | ACK establishes a stream whose SYN is out and changes no other state |
| TcpMuxLifecycle.FinInData | src/tcpmux.c:463-486 | FIN in a DATA frame half closes an open stream and keeps it registered, and removes one that this side had closed from both tables |
| TcpMuxLifecycle.FinInWindow | src/tcpmux.c:463-486 | FIN in a WINDOW_UPDATE likewise, except where it also sets off a close that was put off |
| TcpMuxLifecycle.LeavesIff | src/tcpmux.c:454-500 | a registered stream leaves the tables if and only if its id is deleted, a reset is honoured, either side sends the second FIN, or FIN comes before it was announced |
| TcpMuxLifecycle.FinBothWays | src/tcpmux.c:454-997 | in every run a stream whose FIN was written and to which FIN has come, in either order, is in neither table, and a registered stream's state tells which has happened |
| TcpMuxLifecycle.CloseWrites | src/tcpmux.c:967-997 | a close writes one FIN on a stream that was announced and is not over, and the second close removes it |
| TcpMuxLifecycle.HangUpCloses | src/client.c:139-150 | a hang-up closes at once if there is window and otherwise only marks the client |
| TcpMuxLifecycle.PendingCloses | src/tcpmux.c:751-770 | the update that opens the window of a marked client writes the FIN that was put off |
| TcpMuxLifecycle.PutOffCloseHappens | src/tcpmux.c:751-770 | so a hang-up on a used-up window, whatever other streams do meanwhile, is followed by FIN at the next positive increment |
| TcpMuxLifecycle.WriteOutcome | src/tcpmux.c:897-962 | each return value of a write exactly by its cause, and the one frame of a write that sends, with its flags and length |
| TcpMuxLifecycle.TakenMeans | src/tcpmux.c:560-703 | each way of dealing with a payload exactly by its cause |
| TcpMuxLifecycle.ShortResets | src/tcpmux.c:676-697 | a payload taken in part writes RST, closes the stream here and keeps the used window |
| TcpMuxLifecycle.GoAwayIff | src/tcpmux.c:883-887 | GO_AWAY is written if and only if a WINDOW_UPDATE has refused flags or, on a surviving stream, an increment above 8 MiB |
| TcpMuxLifecycle.PingAnswered | src/tcpmux.c:798-815 | a PING with SYN is answered with ACK and its own number, and no other |
| TcpMux.RunFlags | src/tcpmux.c:454-500 | the bit tests with their early returns compute the flag transition used in all lifecycle theorems |
| TcpMux.MuxSession.NewStream | src/tcpmux.c:156-180 | allocation, initial windows and entry in both tables |
| TcpMux.MuxSession.DelProxyClient | src/client.c:530-544 | removal from both tables together, nothing for id 0 |
| TcpMux.MuxSession.TakeSendFlags | src/tcpmux.c:505-526 | SYN or ACK exactly when leaving INIT or SYN_RECEIVED |
| TcpMux.MuxSession.ProcessFlagsOf | src/tcpmux.c:454-500 | flag processing and deletion on the session state |
| TcpMux.MuxSession.SendWindowUpdate | src/tcpmux.c:531-552 | returns all missing credit, or only announces the stream when the length is zero |
| TcpMux.MuxSession.ProcessData | src/tcpmux.c:560-703 | the whole state change of a DATA frame, and whether its payload was read whole, read in part, turned down, or left unread but taken for read |
| TcpMux.MuxSession.HandleWindowUpdate | src/tcpmux.c:708-780 | the whole state change of a WINDOW_UPDATE frame, GO_AWAY and deferred close included, and whether it makes the local connection be read again |
| TcpMux.MuxSession.EstablishClient | src/client.c:78-79 | a SOCKS5 client whose local connection is up forwards from now on |
| TcpMux.MuxSession.DisconnectClient | src/client.c:133-150 | a client whose local side is gone loses its local connection; its stream is closed at once, or marked to be closed when its window is used up |
| TcpMux.MuxSession.StreamWrite | src/tcpmux.c:897-962 | one DATA frame at most, bounded by source, window and frame size; the unsent rest is returned |
| TcpMux.MuxSession.StreamClose | src/tcpmux.c:967-997 | the close transition, its FIN and the deletion on the second close |
| Aead.RoundTrip | src/aead_stream.c:174-317 | whatever a run of seals emits, re-cut in any way, comes out of a reader in step as exactly the plaintexts, with equal frame count and no residue, while the counter lasts |
| Aead.RoundTripIff | src/aead_stream.c:174-317 | for every cipher with the law, every run of seals and every cutting of its output, all feeds succeed and leave the reader in step if and only if the run does not use the counter up |
| Aead.EmitsIff | src/aead_stream.c:177-221 | a call emits a frame if and only if it has 1 to 64 KiB of plaintext, the engine works and the nonce is not the last |
| Aead.WireFormat | src/aead_stream.c:180-225 | a run of calls puts on the wire the stream nonce once and then, for every sendable plaintext in order, its length and the text sealed under consecutive numbers with stream nonce and length as additional data; all of it is accounted for and counted |
| Aead.LengthRefusedIff | src/aead_stream.c:285-291 | a frame is refused by its length if and only if that is below 16 or above 65552 |
| Aead.FeedIsHomomorphic | src/aead_stream.c:263-317 | feeding a then b equals feeding a ++ b in plaintext, residue, counter and result if and only if the first feed did not run the counter over |
| Aead.FeedAllIsFeed | src/aead_stream.c:263-317 | any cutting of the ciphertext gives the result of one feed, unless that feed wraps |
| Aead.FeedInTwo | src/aead_stream.c:263-317 | a reader whose plaintext is collected between two feeds yields the same plaintext in two parts |
| Aead.WrapNeedsFrames | src/aead_stream.c:263-314 | a wrap needs 20 buffered bytes for every counter value left, counted from the stream header when the reader has yet to see it, so a caller can rule it out |
| Aead.CutsDoNotMatter | src/aead_stream.c:263-317 | for any bytes too few to use the counter up, from any reader, every cutting gives the result of one feed |
| Aead.FeedAfterFed | src/aead_stream.c:263-317 | a reader emptied of its plaintext after a successful feed goes on, in success and in failure, as one that was not |
| Aead.FailureIsSticky | src/aead_stream.c:285-305 | after a bad length or a failed open no later feed adds plaintext or moves the counter |
| Aead.NonceReuse | src/aead_stream.c:12-20 | two points of a run have the same counter if and only if zero or exactly 2^96 nonce-using calls lie between them |
| Aead.NoncesDistinct | src/aead_stream.c:174-226 | in a run of at most 2^96 calls, failed ones included, an emitted frame never shares its nonce with a later call |
| Aead.RoundTripFailsOnWrap | src/aead_stream.c:208-221 | an instance of the failing side: a writer that starts on the last nonce loses its stream header, and the reader rejects what follows |
| Aead.AeadWriter.SealFrame | src/aead_stream.c:174-226 | the stateful writer computes the specified seal step, header flag and counter included |
| Aead.AeadReader.FeedBytes | src/aead_stream.c:263-317 | the buffering loop computes the specified feed |
| Nonce.IncrIsPlusOne | src/aead_stream.c:12-20 | the carry is +1 modulo 256^n on the big-endian value and reports failure exactly on wrap |
| Nonce.IncrementNonce | src/aead_stream.c:12-20 | the in-place loop computes that carry |
| V2Receive.SessionDispatchesWhatWasSent | src/control.c:1410-1515 | for every cutting of ServerHello, messages that do not log in (refused login responses too), LoginResp and sealed frames, also through the switch, exactly these messages, the login response and the messages sent are dispatched, in order, and only a partial last frame is kept |
| V2Receive.SessionWithMagic | src/control.c:1490-1497 | the same when the server leads with the magic and the first read holds all of it |
| V2Receive.ChunkIndependence | src/control.c:1422-1515 | from any state between reads, all cuttings of bytes that drop nothing end in the state of one read, if no read starts with the magic |
| V2Receive.LoggedInIff | src/control.c:1299-1308 | in every run on any bytes the client is logged in, and has switched to AEAD, if and only if it has dispatched an accepted login response; before the hello nothing is dispatched |
| V2Receive.RefusedLoginStaysPlain | src/control.c:1410-1458 | without an accepted login response, in every cutting, all messages behind the hello are dispatched as plaintext and there is no switch |
| V2Receive.FirstFrameRefused | src/control.c:1435-1447 | a first frame other than an acceptable ServerHello is dropped and ends the read |
| V2Receive.OthersPassedOver | src/control.c:1448-1455 | after the hello a frame of another kind or a message of unknown type changes nothing |
| V2Receive.MagicCutLosesSession | src/control.c:1492-1497 | a magic that no read holds in one piece, in however many pieces, is refused as a frame; everything in the read with the eighth byte is lost and the client starts over with what comes later |
| V2Receive.FailedReadLosesMessages | src/control.c:1499-1501 | the messages in front of a bad frame in its read are never dispatched in any later run, whereas a cut between them would have dispatched exactly them; so the cut makes no difference if and only if no message ends there |
| V2Receive.DispatchedBeforeFailure | src/control.c:1422-1515 | on a connection with a bad frame exactly the messages completed before the read that brings it to light are dispatched, for every cutting before and everything after |
| V2Receive.DeafForever | src/aead_stream.c:285-305 | after a bad length or a failed open nothing is dispatched again, whatever arrives |
| V2Receive.WrappedReadIsLate | src/control.c:1499-1508 | a read that runs the counter over is not lost but late: its messages are dispatched, first, by the next successful read |
| V2Receive.V2Session.DispatchV1 | src/control.c:1410-1420 | computes the dispatch step on which LoggedInIff rests |
| V2Receive.V2Session.ConsumePlainFrames | src/control.c:1422-1481 | the frame loop with its mid-buffer switch and recursion computes the specified consumption |
| V2Receive.V2Session.HandleBytes | src/control.c:1483-1515 | magic, AEAD and plaintext paths of one read |
| WireV2.ParseEncoded | src/wire_v2.c:75-119 | an encoded frame followed by anything parses to itself if and only if its payload is at most 64 KiB, and is refused otherwise |
| WireV2.FrameFields | src/wire_v2.c:75-119 | the position and byte order of type, flags, length and payload in a frame |
| WireV2.PrefixIncomplete | src/wire_v2.c:97-119 | every proper prefix of an acceptable frame is incomplete |
| WireV2.ParseThenMore | src/wire_v2.c:97-119 | a verdict other than incomplete is not changed by later bytes |
| WireV2.TypeMapsInverse | src/wire_v2.c:25-73 | the two type switches are mutually inverse on exactly ids 1 to 18 |
| WireV2.MessageRoundTrip | src/wire_v2.c:254-295 | a sent message translates to the v1 header with 64-bit big-endian length and the same JSON for every mapped type; unmapped types are refused |
| WireV2.Hton64Image | src/common.c:21-39 | the value hton64 stores on the little-endian host lies in memory big-endian |
| WireV2.Hton64Involution | src/common.c:21-39 | ntoh64 undoes hton64 |
| BackPressure.BackPressureExact | src/proxy_tcp.c:548-613 | over every sequence of callbacks, window updates and other activity, bytes framed plus stash equal the IV once and the encryption of all plaintext taken, until the tunnel closes |
| BackPressure.PeerDecodesPrefix | src/proxy_tcp.c:436-613 | however the peer cuts what was sent it decodes a prefix of the plaintext taken, and all of it when nothing is stashed |
| BackPressure.FlushMoves | src/proxy_tcp.c:585-610 | the send loop moves bytes in order and leaves some only when the window is used up |
| BackPressure.StashWaitsForInput | src/proxy_tcp.c:556-573 | without new local input no window update ever sends the stash |
| BackPressure.CallbackSends | src/proxy_tcp.c:565-610 | with new local input exactly as many bytes as the window allows are sent of the stash followed by the new ciphertext, the stash first, and exactly the rest is kept; reading is turned off if and only if something is left; the tunnel ends, and its client leaves both tables, if and only if the stream is closed for writing |
| BackPressure.ReadingResumes | src/tcpmux.c:751-777 | in every run reading from the local service is off only while the window is used up or the client is being closed: a window update that opens the window turns it on again |
| BackPressure.ReadingIff | src/proxy_tcp.c:594-608 | in every run from its start, while a tunnel is open, holds a stash and is not being closed, the local service is read if and only if there is window; with a used-up window it is never read |
| BackPressure.HangUpSends | src/client.c:109-130 | a hang-up puts exactly as long a raw prefix of the unread input on the stream as the window allows, whatever the frame size, and never the stash |
| BackPressure.HangUpEnds | src/client.c:133-150 | a hang-up of an announced client ends with FIN behind the raw bytes if they leave window, and with the mark for a later close otherwise |
| BackPressure.HangUpSendsRaw | src/client.c:109-130 | raw bytes reach the stream if and only if there is unread input, the stream is not closed for writing and its window is not used up |
| BackPressure.HangUpDelivers | src/client.c:98-150 | after a hang-up, in every later run and every cutting, the peer decodes all that the local service wrote if and only if nothing was stashed, the unread input fitted the window and encoding would leave it unchanged; if no raw byte went out it decodes a prefix, and all that had been read if and only if nothing was stashed |
| BackPressure.ProxyClient.HandleDisconnect | src/client.c:98-150 | the raw write loop, the end of the tunnel and the immediate or deferred close compute the specified hang-up |
| BackPressure.ProxyClient.HandleCredit | src/tcpmux.c:708-780 | a window update for the client, with reading turned on again when it is due |
| ProxyCrypto.RawIsHarmlessIff | src/client.c:116-117 | raw bytes behind the cipher stream decode to themselves if and only if the encoder would leave them unchanged |
| BackPressure.FirstFrameCarriesIv | src/proxy_tcp.c:584-586 | the first frame that the callback of a new tunnel puts on the stream is a prefix of the cipher stream, and holds the whole IV if and only if the window then allowed 16 bytes |
| BackPressure.ProxyClient.HandleLocalInput | src/proxy_tcp.c:548-613 | the callback with its stash and write loop computes the specified callback |
| ProxyCrypto.Transparent | src/proxy_tcp.c:436-546 | plaintext encoded in any chunks and decoded in any other chunks comes back, with the IV consumed exactly once |
| ProxyCrypto.EncodedAsStandard | src/proxy_tcp.c:436-482 | what goes out is the IV and then each plaintext byte masked by exclusive or with the image of the ciphertext block before it, or of the IV |
| ProxyCrypto.EncodeExtends | src/proxy_tcp.c:436-482 | each call extends the one cipher stream, with the IV in front of its first byte only |
| ProxyCrypto.DecodeAllIsDecoded | src/proxy_tcp.c:494-546 | decoding from a persistent buffer depends only on the bytes received so far |
| ProxyCrypto.FirstFrameHoldsIv | src/proxy_tcp.c:500-510 | in multiplexed mode a stream longer than its IV is delivered whole if and only if its first frame has at least 16 bytes |
| ProxyCrypto.CryptoWriter.EncodeInto | src/proxy_tcp.c:436-482 | the encoder object appends what the specification encodes |
| ProxyCrypto.CryptoReader.DecodeFrom | src/proxy_tcp.c:494-546 | the decoder object, its leftover and its output |
| Cfb.DecryptEncrypted | src/crypto_stream.c:159-181 | decryption inverts encryption and leaves both ends in the same state |
| Cfb.EncryptDecrypted | src/crypto_stream.c:159-181 | encryption inverts decryption |
| Cfb.EncryptInTwo | src/crypto_stream.c:159-169 | encrypting in two calls is encrypting in one |
| Cfb.DecryptInTwo | src/crypto_stream.c:171-181 | decrypting in two calls is decrypting in one |
| Cfb.MatchesStandard | src/crypto_stream.c:63-92 | each byte is the exclusive or, bit by bit, of the plaintext byte and the mask that section 6.3 of NIST SP 800-38A defines, from the preceding ciphertext block or the IV |
| Cfb.XorIsExclusiveOr | src/crypto_stream.c:159-169 | each of the eight bits of a masked byte says whether the two bytes differ there |
| Socks5.PayloadConserved | src/proxy_tcp.c:231-342 | for a valid greeting and request and any payload, under every cutting, any moment of connection or its loss and failed connects, bytes written locally, bytes staged and bytes left unread together equal the payload received, and none is left unread while the local connection stands |
| Socks5.HangUpStopsReading | src/proxy_tcp.c:240-247 | after the local side hangs up nothing more is written; later payload is staged if the client was still connecting and left unread if it was forwarding, so written and staged bytes stay the whole payload if and only if it was connecting or nothing more arrives |
| Socks5.PayloadDelivered | src/client.c:51-80 | once the request is in and the connection is up all payload received has been written |
| Socks5.AddressRoundTrip | src/proxy_tcp.c:51-107 | every IPv4, IPv6 or 1 to 20 byte domain address is read back from its encoding, whatever follows |
| Socks5.HopelessIff | src/proxy_tcp.c:81-104 | the address parser can still succeed if and only if type and domain length are ones it accepts |
| Socks5.HopelessRequestStalls | src/proxy_tcp.c:302-316 | a request with any other address is neither served nor refused, whatever follows |
| Socks5.OtherVersionTurnedAway | src/proxy_tcp.c:269-273 | a greeting of another version closes the client for good: nothing is written or answered in any later run |
| Socks5.OtherRequestTurnedAway | src/proxy_tcp.c:305-311 | a request that is no CONNECT likewise |
| Socks5.GreetingReplies | src/proxy_tcp.c:266-299 | once the greeting has arrived, in any deliveries and with anything behind it, the reply has been sent once plus once for each delivery ending inside the greeting after its third byte |
| Socks5.Socks5Client.HandleSocks5 | src/proxy_tcp.c:231-342 | the staging loop computes the specified transition, and leaves its data in the source exactly for a forwarding client without a local connection |
| Socks5.Socks5Client.HandleHangUp | src/client.c:133-137 | the local connection is lost |
| Socks5.Socks5Client.HandleConnected | src/client.c:51-80 | from any state staged bytes are written and forwarding begins |
| EvBuffer.EvBuffer.Reserve | port/mini_event.c:78-91 | contents survive growth, which happens exactly when needed; the new capacity is the old one, or 4096, doubled the least number of times that gives enough room |
| EvBuffer.EvBuffer.Add | port/mini_event.c:106-115 | append |
| EvBuffer.EvBuffer.Prepend | port/mini_event.c:129-141 | prepend |
| EvBuffer.EvBuffer.Drain | port/mini_event.c:175-184 | drop |
| EvBuffer.EvBuffer.Remove | port/mini_event.c:148-158 | take off the front |
| EvBuffer.EvBuffer.AddBuffer | port/mini_event.c:117-127 | move everything, refused on the same buffer |
| EvBuffer.EvBuffer.MoveTo | port/mini_event.c:160-173 | move a prefix to a distinct buffer |
| EvBuffer.EvBuffer.Search | port/mini_event.c:200-216 | the first occurrence at or behind the start, or -1 exactly when there is none |
| TimerList.EventBase.Add | port/mini_event.c:324-341 | arming links an event once, at the head of a duplicate-free doubly linked list |
| TimerList.EventBase.Del | port/mini_event.c:343-356 | cancelling removes exactly that event and keeps the list linked |
| TimerPhase.ArmEvent | port/mini_event.c:324-341 | arming on the linked list does to the list of timers what the timer phase reasons with |
| TimerPhase.CancelEvent | port/mini_event.c:343-356 | cancelling likewise |
| TimerPhase.FindDue | port/mini_event.c:1101-1103 | the walk along the next pointers finds the first due event of the list, or reports exactly that none is due |
| TimerPhase.RunTimers | port/mini_event.c:1095-1110 | on the linked list, with callbacks that only re-arm for later, the restarting scan ends, fires nothing early and nothing twice, leaves nothing due, every timer due at the start has fired or was re-armed or cancelled, and the list stays linked and duplicate-free |
| TimerPhase.RearmedFiresAgain | port/mini_event.c:1101-1109 | an event re-armed by its own callback is due again in the round if and only if its deadline is not later than the round's clock |

## Left out

- Allocation failure, `size_t` overflow and object lifetime after free: allocation succeeds, sizes are natural numbers.
- Demux.ChunkIndependence: reads alone; local calls between reads are in Demux.InterleavedRun.
- Demux.InterleavedRun: a call that deletes or opens the stream of a half-received frame is not modelled; the code then keeps a pointer to what it found before.
- MuxEndToEnd.SessionChunkIndependent: reads alone; local calls between reads are in MuxEndToEnd.BytesAreSteps.
- TcpMux.MuxSession.NewStream: two streams with the same id after the counter has come round are not modelled; runs end after 2^31 allocations.
- TcpMux.MuxSession.SendWindowUpdate: a missing output connection, which would drop the frame after the state change, is not modelled; frames are received on that same connection.
- Credit.CreditConserved: a peer that breaks the window or sends DATA after FIN, and short local transfers on the stream, are excluded; frames reach the session as frames, so a connection out of step is outside.
- MuxEndToEnd.BytesAreSteps: a payload whose own calls delete its stream is followed by no credit; the code then goes on with the freed stream.
- V2Receive.SessionDispatchesWhatWasSent: work connections, which carry plaintext frames only, are not modelled.
- ProxyCrypto.Transparent: compression is off, since each call compresses on its own and no re-chunking law holds; a proxy with encryption configured but no key is not modelled.
- BackPressure.BackPressureExact: other writers on the stream during the tunnel are excluded; sending without the multiplexer is a plain append.
- BackPressure.HangUpDelivers: the local and the multiplexed connection are both there, as they are while the tunnel is open.
- Socks5.PayloadConserved: the bytes of the two SOCKS5 replies and their loss when the window is empty are not modelled.
- TimerPhase.RunTimers: what callbacks do other than arming and cancelling events is not modelled.
- Growable ciphertext, plaintext and staging buffers are sequences; growth by doubling is modelled once, in EvBuffer.
- Sockets, select, DNS, TLS, QUIC and the bufferevent half of the event loop: foreign input and output.
- AES, GCM, HMAC, PBKDF2 and HKDF: parameters with the laws stated above.
- JSON, TOML and INI handling, configuration, health checks, reconnect backoff, XDPI signatures and logging: they would only add easy members.
- The v1 login and encrypted control channel: they take one read for one message, so there is no general law.
- PING and GO_AWAY: only what they write; session restart and clearing of the tables begin a new run.
