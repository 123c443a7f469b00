# Kanrin session continuity, verified

Kanrin is a tunnel whose sessions outlive the transports that carry them. This project models the
code that makes that work and proves what it promises, in Dafny 4.11:

```
dafny verify dfyconfig.toml
```

| file | what it models |
|---|---|
| `Prelude.dfy`, `BigEndian.dfy`, `Crypto.dfy` | results, machine integers, byte order; an AEAD (section 2.8 of RFC 8439) and a MAC as functions with laws |
| `Wire.dfy`, `Resume.dfy`, `Session.dfy` | chunk, control, proxy and resume codecs; sequence numbers and nonces |
| `SendSide.dfy`, `ReceiveSide.dfy` | the send buffer and its replay cursor; the receive buffer and its acks |
| `Transfer.dfy`, `Guarantees.dfy`, `TwoWay.dfy` | one direction of a session as a step relation up to the receive buffer, what holds in every reachable state, and both directions together |
| `HandOver.dfy` | from the receive buffer to the application, through any number of readers |
| `Pipeline.dfy` | the client and server loops, each handler shown to be a step of those relations |
| `Switch.dfy` | the backoff that limits transport switches |
| `Fairness.dfy`, `Multipath.dfy` | credit scheduling over several paths: why it is fair, and the scheduler |
| `Posture.dfy` | the hysteresis of the traffic-shaping posture |
| `Tokens.dfy`, `Frontdoor.dfy` | single-use authenticators: text forms, and admission with a pruned cache |
| `TlsTcp.dfy` | cancel-safe framing over a byte stream |
| `Addresses.dfy` | who owns each tunnel address |

Objects that the program updates in place are classes; their methods are proved against functions on
values, and the properties are proved of runs of those functions. A link is a set of frames that may
be delivered any number of times in any order, or lost. Time, randomness and everything the network
decides are parameters.

## What the proofs found

- **At the server two readers can hand packets over out of order.** The receive buffer restores the order
  (`Guarantees.Safety`), but the server drains it under its lock and forwards after letting the lock go
  (`session.rs:507-524`), and a new attachment ends the old connection's writer, not its reader
  (`session.rs:470`, `registry.rs:59-66`). So in a switch the old reader can hold a packet while the new one
  drains the next and forwards it first: `HandOver.OverlapReorders`, for any two packets. Nothing is lost or
  doubled (`HandOver.NothingLostOrTwice`), and order is sure exactly as long as no reader drains anything
  while another holds packets (`HandOver.OrderExactly`). The client has one reader and is not affected
  (`HandOver.ClientInOrder`, `Pipeline.Reader.ClientTurn`).
- **Three things stall a direction for good** (`Guarantees.GoneNumberBlocks`, `Guarantees.WaysToGo`). The
  order in the receive buffer and no-loss are unaffected (`Guarantees.Safety`, `Guarantees.NoLoss`), and
  `Guarantees.CompletenessExactly` gives the exact condition under which everything arrives there.
  - *Control chunks.* Acks, pings and pongs draw numbers from the same counter as data
    (`pipeline.rs:573-574`, `pipeline.rs:618`, `session.rs:441-445` of the server), but the receiver is only
    ever offered data chunks, so `next_expected` waits for ever at the first control number
    (`Guarantees.StallExample`, `TwoWay.ControlStallsItsDirection`). The tests of the repository number
    data only.
  - *Refused chunks.* `is_full` compares the bytes held with the bound, `push` compares them after adding
    the chunk, so a buffer that is not full can refuse (`SendSide.NotFullStillRefuses` says exactly when),
    and both loops send a refused chunk without retaining it; the server's does not even ask whether the
    buffer is full. If it is then lost it is missing for ever (`Guarantees.MissingAfterSending`). A buffer of
    any bound gets there: `Guarantees.RefusalExample`, `Guarantees.RefusalAtDefaultBound`.
  - *Abandoned chunks.* The server's writer draws a number and then waits for the send buffer
    (`session.rs:442`, `session.rs:450`), which a replay holds throughout; a new attachment or the end of the
    connection can cancel it there. The chunk is then neither retained nor sent, though `push` refused
    nothing (`Transfer.Event.Abandon`).
- **A session can expire while it is being resumed.** Between looking an entry up and attaching to it the
  server sends a reply and replays, and until it attaches the entry may be reaped.
  `Addresses.LateAttachSharesAddress` is a run in which its address is handed out again and two attached
  connections share it; `Addresses.LiveOwnedExactly` and
  `Addresses.LiveAddressesDistinct` say that nothing else leads there.
- **A reader can outlive its session.** The registry knows the attached writer only. An evicted connection
  that stays silent until its session is reaped still reads, and what it then forwards leaves under an
  address that another session may have (`Addresses.EvictedReaderSharesAddress`, with every attach in time).
  `Addresses.ReadersOwnedExactly` is the exact condition.
- **Credit scheduling is fairer than its comment needs.** No hypothesis on health is required: with
  `n` paths ever added, any `k` of them together are never more than `k (n - k) / 2` ahead or behind
  (`Fairness.ChunkKeepsBalance`), so no single path is off by more than `(n - 1) / 2`.
- **Single use asks this of the clock, and no more:** that it never leaves the window of a timestamp and
  returns to it (`Frontdoor.SingleUseExactly`). A clock that never goes back does not, as long as requests
  reach the cache in the order of their times; but a request reads the clock first (`session.rs:164`) and
  waits for the cache afterwards (`frontdoor.rs:151`), so the times served can go back though the clock does
  not. The cache compares
  nonces only, so a different token with a nonce still in the window is refused
  (`Frontdoor.AgainstFullMemory`). The base16 reader accepts a leading `+` and upper case, so one token
  has many spellings; it is still admitted once.
- **The first number shares its nonce with the handshake.** The last handshake chunk of either side is
  sealed under the session keys with a nonce of twelve zero bytes, which is the nonce of number 0
  (`Crypto.ZeroNonceIsFirst`). Within what both ends of a session issue no key and nonce repeat
  (`Session.KeyAndNonceOnce`).
- **Dwell is measured from entering a posture**, not from the last adverse signal
  (`Posture.LeavesEvasion`): after a long stay at Evasion, the clean streak alone decides.
- **Session identifiers must be new.** `SessionRegistry::insert` overwrites; the displaced session's
  address is then never reclaimed (`Addresses.DuplicateIdLeaks`).

## Model

| member | source | states |
|---|---|---|
| `Guarantees.Safety` | kanrin/kanrin-core/crates/kanrin-protocol/src/continuity.rs:299-330 | over every run of a direction (loss, reordering, duplication, cuts, stale acks, partial or repeated replays), what the receive buffer has made ready, and so all it drains, is a prefix of what was sent, once each, in order |
| `Guarantees.NoLoss` | kanrin/kanrin-core/crates/kanrin-protocol/src/continuity.rs:138-141 | over every run, a chunk that `push` accepted is still retained, or held, or made ready, with its own payload |
| `Guarantees.MemoryAndCounters` | kanrin/kanrin-core/crates/kanrin-protocol/src/continuity.rs:75-91 | over every run, the send side is within its bound or holds one chunk, the receive side never exceeds its bound, and no number held reaches the point where a u64 increment would overflow |
| `Guarantees.ControlNumberBlocks` | kanrin/kanrin-core/crates/kanrin-protocol/src/continuity.rs:317-323 | `next_expected` never passes a number that was drawn for a control chunk, whatever happens afterwards |
| `Guarantees.StallExample` | kanrin/kanrin-core/crates/kanrin-client/src/pipeline.rs:573-574 | the smallest run that stalls: one control number, then one data chunk, delivered to the receiver and held there |
| `Guarantees.CompletenessExactly` | kanrin/kanrin-core/crates/kanrin-protocol/tests/transport_switch.rs:153-164 | from every reachable state a full replay over a working connection has the receive buffer make ready everything sent if and only if no control number lies below a data number and every data chunk is still retained or has been received |
| `Guarantees.GoneNumberBlocks` | kanrin/kanrin-core/crates/kanrin-protocol/src/continuity.rs:317-323 | nothing is delivered beyond a number that is not received, not retained and not under way, in any continuation of any run |
| `Guarantees.WaysToGo` | kanrin/kanrin-core/crates/kanrin-server/src/session.rs:440-460 | the three ways for a number to go: drawn for a control chunk, abandoned by a cancelled writer, or, exactly if `push` refuses it, a data chunk that is not sent |
| `Guarantees.MissingAfterSending` | kanrin/kanrin-core/crates/kanrin-client/src/pipeline.rs:498-515 | after a data chunk is produced nothing is missing exactly if nothing was before and `push` took it; an abandoned one is missing |
| `Guarantees.NothingMissingExactly` | kanrin/kanrin-core/crates/kanrin-protocol/src/continuity.rs:75-91 | nothing is missing exactly if each data chunk was retained by `push` or received, and in particular if `push` retained them all |
| `Guarantees.RefusalExample` | kanrin/kanrin-core/crates/kanrin-protocol/src/continuity.rs:75-83 | whatever the bound and whatever the packets, a run of sends of which none gets through fills the buffer until `push` refuses one: those before it were all retained, numbering is dense, the last is missing, and no continuation delivers it or anything after it |
| `Guarantees.RefusalAtDefaultBound` | kanrin/kanrin-core/crates/kanrin-protocol/src/continuity.rs:28-32 | so it is with the wire format and the 16 MiB that both ends use |
| `Guarantees.ReplayOutcomes` | kanrin/kanrin-core/crates/kanrin-protocol/tests/download_survives_switch.rs:219-276 | under that condition a full replay is reported only as Ready or Duplicate, however small the receive bound, and only as Ready when the resume position was applied and nothing is held above the gap |
| `Guarantees.ReplayProgress` | kanrin/kanrin-core/crates/kanrin-protocol/src/continuity.rs:293-325 | with dense numbering each replayed chunk is the next one or a duplicate, never held, never refused; afterwards every data chunk has been received |
| `Guarantees.ReplayProgressAmid` | kanrin/kanrin-core/crates/kanrin-server/src/session.rs:462-471 | the same with any other genuine chunks arriving in between, as from the transport being replaced: each replayed chunk is Ready or Duplicate, and at the end everything produced has been made ready |
| `Guarantees.RunIsAmid` | kanrin/kanrin-core/crates/kanrin-server/src/session.rs:505-521 | every run that draws no number, with losses, acks, resends and deliveries in any order, takes the receiver where the chunks that arrive take it |
| `Guarantees.ReplayProgressInRun` | kanrin/kanrin-core/crates/kanrin-server/src/session.rs:398-471 | so over every such run whose deliveries hold all that is outstanding in ascending order among others: each of those is Ready or Duplicate, and at the end everything produced has been made ready |
| `Guarantees.ReplayExact` | kanrin/kanrin-core/crates/kanrin-protocol/src/continuity.rs:211-244 | with an exact position and nothing held, a replay produces no duplicate |
| `Guarantees.ReplayRuns` | kanrin/kanrin-core/crates/kanrin-client/src/switch.rs:152-165 | a replay is a run of the protocol: resend and deliver, chunk by chunk, with the receiver ending as the replay of those chunks leaves it |
| `Transfer.StepInv` | kanrin/kanrin-core/crates/kanrin-server/src/session.rs:426-535 | every step (produce, abandon, draw a control number, deliver, lose, build an ack, report a position, apply, resend) keeps retention, wire, order, no-loss, ack truth and bounds |
| `Transfer.RunInv` | kanrin/kanrin-core/crates/kanrin-server/src/session.rs:411-460 | every run of such steps, a writer cancelled between numbering a chunk and retaining it included, keeps all of that, so it holds in every reachable state |
| `Transfer.DrawKeeps` | kanrin/kanrin-core/crates/kanrin-server/src/session.rs:440-450 | a number that nothing is retained or sent under, for control or for abandoned data, keeps the invariant |
| `Transfer.ApplyKeeps` | kanrin/kanrin-core/crates/kanrin-server/src/session.rs:248-258 | acks and positions applied late, twice or out of order keep the invariant |
| `Transfer.DeliverKeeps` | kanrin/kanrin-core/crates/kanrin-protocol/src/continuity.rs:299-325 | delivering any frame that was ever sent, in any order and any number of times, keeps the invariant |
| `TwoWay.Projects` | kanrin/kanrin-core/crates/kanrin-server/src/session.rs:426-445 | a two-way session, where acks of one direction take numbers of the other, is a run of each of its directions |
| `TwoWay.BothStreamsInOrder` | kanrin/kanrin-core/crates/kanrin-protocol/tests/transport_switch.rs:202-231 | over every run of a session what either receive buffer has made ready is a prefix of what the other end sent |
| `TwoWay.ControlStallsItsDirection` | kanrin/kanrin-core/crates/kanrin-client/src/pipeline.rs:614-621 | once an ack, ping or pong has been numbered, its direction never delivers more than the numbers drawn before it |
| `HandOver.Projects` | kanrin/kanrin-core/crates/kanrin-server/src/session.rs:505-524 | a run with any number of readers is a run of its direction, so all that holds of the stream holds there |
| `HandOver.NothingLostOrTwice` | kanrin/kanrin-core/crates/kanrin-server/src/session.rs:505-524 | over every run, with any number of readers however interleaved, what was handed over and what readers have in hand are together what was drained, packet for packet and as payloads, and that is a prefix of what was sent |
| `HandOver.OrderExactly` | kanrin/kanrin-core/crates/kanrin-server/src/session.rs:507-524 | throughout a run the application is sure to get its packets in order, whichever reader hands over next, if and only if no reader drained anything while another still held packets |
| `HandOver.OverlapBreaksOrder` | kanrin/kanrin-core/crates/kanrin-server/src/session.rs:507-524 | at the first overlap: from there the reader that drained last can hand over out of order |
| `HandOver.AloneInOrder` | kanrin/kanrin-core/crates/kanrin-protocol/tests/transport_switch.rs:202-231 | without overlap the application is handed a prefix of what was sent, and all that was drained once nothing is in hand |
| `HandOver.OneReader` | kanrin/kanrin-core/crates/kanrin-client/src/pipeline.rs:476-560 | a run in which only one reader drains has no overlap |
| `HandOver.ClientInOrder` | kanrin/kanrin-core/crates/kanrin-client/src/pipeline.rs:552-560 | so the client hands over a prefix of what was sent |
| `HandOver.OverlapReorders` | kanrin/kanrin-core/crates/kanrin-server/src/session.rs:466-524 | a run for any two different packets, with the old reader and the new one, after which the application has been handed the second before the first |
| `SendSide.SendBuffer.Push` | kanrin/kanrin-core/crates/kanrin-protocol/src/continuity.rs:75-91 | when a chunk is refused, what is retained otherwise, exact byte count, bound or single chunk |
| `SendSide.NotFullStillRefuses` | kanrin/kanrin-core/crates/kanrin-protocol/src/continuity.rs:170-172 | a buffer that is not full refuses a chunk exactly when it holds something and the chunk is larger than the room left |
| `SendSide.SendBuffer.AckCumulative` | kanrin/kanrin-core/crates/kanrin-protocol/src/continuity.rs:95-107 | exactly the numbers above the argument stay, also at the top of the number space; returns how many went |
| `SendSide.SendBuffer.AckSelective` | kanrin/kanrin-core/crates/kanrin-protocol/src/continuity.rs:111-119 | exactly the numbers not listed stay; returns how many went, repeats counted once |
| `SendSide.SendBuffer.AckRange` | kanrin/kanrin-core/crates/kanrin-protocol/src/continuity.rs:124-130 | exactly the numbers outside the range stay; an inverted range removes nothing |
| `SendSide.SendBuffer.ApplyAck` | kanrin/kanrin-core/crates/kanrin-protocol/src/continuity.rs:138-141 | exactly the numbers at or above the position and outside every range stay; returns exactly how many went |
| `SendSide.Replay.ConfirmSent` | kanrin/kanrin-core/crates/kanrin-protocol/src/continuity.rs:230-233 | the cursor moves past a confirmed number, or off the end at u64::MAX |
| `SendSide.ReleaseAllClosedForm` | kanrin/kanrin-core/crates/kanrin-protocol/src/continuity.rs:132-141 | any series of acks leaves exactly the chunks that none of them covers |
| `SendSide.AckOrderIrrelevant` | kanrin/kanrin-core/crates/kanrin-protocol/src/continuity.rs:132-141 | any two series with the same acks, in any order and with any repetition, leave the same buffer |
| `SendSide.ReplayTrace` | kanrin/kanrin-core/crates/kanrin-protocol/src/continuity.rs:211-244 | a replay interleaved with any acks and failed sends emits strictly ascending numbers, and once complete has emitted every chunk still retained |
| `SendSide.ReplayOnlyRetained` | kanrin/kanrin-core/crates/kanrin-protocol/src/continuity.rs:221-226 | nothing already released is ever resent |
| `SendSide.ReplayTerminates` | kanrin/kanrin-core/crates/kanrin-protocol/src/continuity.rs:196-202 | a replay ends after at most as many sends as there are chunks, including at u64::MAX |
| `ReceiveSide.ReceiveBuffer.Accept` | kanrin/kanrin-core/crates/kanrin-protocol/src/continuity.rs:299-325 | the new state and the outcome of every offer, byte count exact and bounded; and exactly when the position would overflow |
| `ReceiveSide.ReceiveBuffer.DeliverRun` | kanrin/kanrin-core/crates/kanrin-protocol/src/continuity.rs:317-323 | the delivery loop hands over the whole run of held chunks, or stops exactly where the position would overflow |
| `ReceiveSide.ReceiveBuffer.DrainReady` | kanrin/kanrin-core/crates/kanrin-protocol/src/continuity.rs:328-330 | hands over what is ready, in order, and changes nothing else |
| `ReceiveSide.ReceiveBuffer.BuildAck` | kanrin/kanrin-core/crates/kanrin-protocol/src/continuity.rs:339-357 | the one ack the state calls for: at most 32 maximal runs, the lowest ones, covering exactly what is held up to their end |
| `ReceiveSide.AckUnique` | kanrin/kanrin-core/crates/kanrin-protocol/src/continuity.rs:332-357 | a receiver state has exactly one ack of that description |
| `ReceiveSide.AcceptRepresents` | kanrin/kanrin-core/crates/kanrin-protocol/src/continuity.rs:299-325 | in terms of the set received so far: what is a duplicate, what is ready, when exactly a chunk is refused (an in-order one never), and that the state stays the one the set determines |
| `ReceiveSide.RepresentsUnique` | kanrin/kanrin-core/crates/kanrin-protocol/src/continuity.rs:265-274 | the set of received chunks determines stream, position and held chunks |
| `ReceiveSide.Confluence` | kanrin/kanrin-core/crates/kanrin-protocol/tests/transport_switch.rs:266-291 | any two arrival orders, with repeats, of the same chunks of which none is refused end in the same state, the closed form of the set |
| `ReceiveSide.OfferBounded` | kanrin/kanrin-core/crates/kanrin-protocol/src/continuity.rs:308-316 | reassembly never holds more than its bound |
| `Pipeline.ReplayOnto` | kanrin/kanrin-core/crates/kanrin-client/src/switch.rs:152-165 | sends the retained chunks in ascending order, all of them or as many as the connection took, and reports which |
| `Pipeline.CursorFindsNext` | kanrin/kanrin-core/crates/kanrin-protocol/src/continuity.rs:223-226 | after `i` confirmed sends the cursor finds the `i`-th retained number, and nothing after the last |
| `Pipeline.SendNext` | kanrin/kanrin-core/crates/kanrin-protocol/src/continuity.rs:223-233 | one turn of a replay: done, or the next chunk sent and the cursor past it, or the connection failed and nothing moved |
| `Pipeline.FreshEndpoint` | kanrin/kanrin-core/crates/kanrin-client/src/pipeline.rs:498-515 | the two ends of a new session are at the start of both directions of the relation |
| `Pipeline.NoOverflow` | kanrin/kanrin-core/crates/kanrin-protocol/src/continuity.rs:317-323 | in a session no delivery brings the position above the nonce limit |
| `Pipeline.Endpoint.Transmit` | kanrin/kanrin-core/crates/kanrin-client/src/pipeline.rs:502-509 | a sealed packet goes to the transport and is retained if it fits, whatever the transport said |
| `Pipeline.Endpoint.SendData` | kanrin/kanrin-core/crates/kanrin-client/src/pipeline.rs:497-524 | encrypt, send, retain whatever the transport said: one Produce step, and what reaches the transport |
| `Pipeline.Endpoint.Seal` | kanrin/kanrin-core/crates/kanrin-client/src/pipeline.rs:498-500 | the packet sealed under the next number, which is used up, or nothing at the nonce limit |
| `Pipeline.Endpoint.SealControl` | kanrin/kanrin-core/crates/kanrin-client/src/pipeline.rs:573-574 | a control message takes the next number and opens at the peer to that very message |
| `Pipeline.Endpoint.SendControl` | kanrin/kanrin-core/crates/kanrin-client/src/pipeline.rs:573-586 | an ack, ping or pong takes a number, is not retained, and opens at the peer to the message it is |
| `Pipeline.Endpoint.OnData` | kanrin/kanrin-core/crates/kanrin-server/src/session.rs:505-521 | offer and drain in one critical section: the new state, what was drained, which chunks count towards an ack on either end; exactly when the position would overflow |
| `Pipeline.Endpoint.OnControl` | kanrin/kanrin-core/crates/kanrin-server/src/session.rs:537-552 | an ack leaves exactly the retained chunks at or above its position and outside its ranges, and is one Apply step; the server answers a ping with its timestamp; nothing else has an effect |
| `Pipeline.AckIsRead` | kanrin/kanrin-core/crates/kanrin-protocol/src/wire.rs:396-405 | every ack that may be sent is read as the position and the ranges it states |
| `Pipeline.AckExchange` | kanrin/kanrin-core/crates/kanrin-server/src/session.rs:526-540 | an ack from end to end, built, numbered, sealed, opened and applied: exactly the retained chunks that it does not report stay, which with fewer than 32 runs held are those not received |
| `Pipeline.PingIsRead` | kanrin/kanrin-core/crates/kanrin-server/src/session.rs:544-548 | every ping is answered with its own timestamp |
| `Pipeline.Reader.OnDataFrame` | kanrin/kanrin-core/crates/kanrin-server/src/session.rs:505-521 | a data frame is one Take of this reader: what was drained is in its hand, and nothing is handed over yet |
| `Pipeline.Reader.HandOverNext` | kanrin/kanrin-core/crates/kanrin-server/src/session.rs:522-524 | the next packet in hand goes out: one Forward of this reader |
| `Pipeline.Reader.HandOverAll` | kanrin/kanrin-core/crates/kanrin-client/src/pipeline.rs:557-559 | a loop that is the only reader hands over all it has, and the application then has the whole stream |
| `Pipeline.Reader.AckIfDue` | kanrin/kanrin-core/crates/kanrin-server/src/session.rs:526-534 | when an ack is built, counted per connection, that it is the one the state calls for, and that a server loop ends if the writer is gone by then |
| `Pipeline.Reader.OnChunk` | kanrin/kanrin-core/crates/kanrin-server/src/session.rs:504-552 | a chunk that opened is one Take or one Apply step or nothing, by type, and what it is answered with |
| `Pipeline.Reader.OnFrame` | kanrin/kanrin-core/crates/kanrin-server/src/session.rs:482-552 | an inbound frame is one Take or one Apply step or nothing, what it is answered with, and that the server alone stops reading: after a frame that does not open, or when the answer finds the writer gone |
| `Pipeline.Reader.ClientFrame` | kanrin/kanrin-core/crates/kanrin-client/src/pipeline.rs:540-566 | at the client a frame is drained and handed over before anything else happens |
| `Pipeline.Reader.ClientTurn` | kanrin/kanrin-core/crates/kanrin-client/src/pipeline.rs:530-592 | after every turn of the client loop the application has been handed the whole stream, and an ack is the one the state after the frame calls for |
| `Pipeline.Endpoint.ApplyAndReplay` | kanrin/kanrin-core/crates/kanrin-client/src/pipeline.rs:96-106 | the reported position applied, and what is left sent in ascending order as far as the standby took it |
| `Pipeline.Endpoint.AttemptSwitch` | kanrin/kanrin-core/crates/kanrin-client/src/pipeline.rs:60-129 | a switch happens only if the policy permits it and the whole replay went out; the reported position is applied first and stays applied if the replay then fails; without permission or a standby nothing changes |
| `Pipeline.AckTravels` | kanrin/kanrin-core/crates/kanrin-protocol/src/wire.rs:396-405 | every ack that `build_ack` can produce is decoded by the peer as it was sent |
| `Session.Session.EncryptOutgoing` | kanrin/kanrin-core/crates/kanrin-protocol/src/session.rs:74-92 | a client seals under the client write key and a server under the server write key, with the header as associated data and the nonce of the number in it; the counter stops below the nonce limit, a refused call changes nothing, and every packet is recorded with its key, number and nonce |
| `Session.Session.DecryptIncoming` | kanrin/kanrin-core/crates/kanrin-protocol/src/session.rs:95-113 | a client opens under the server write key and a server under the client write key, with the header bytes and the number as they stand on the wire; counters move only on success |
| `Session.NoncesNeverRepeat` | kanrin/kanrin-core/crates/kanrin-protocol/src/crypto.rs:65-75 | of any two packets a session ever issued, data or control, the later has the higher number, on the wire too, and another nonce; none reaches the limit |
| `Session.KeyAndNonceOnce` | kanrin/kanrin-core/crates/kanrin-protocol/src/session.rs:74-110 | across a client and a server of one session with two different keys, no key and nonce are used twice, by one of them or between them |
| `Pipeline.EndsNeverShareANonce` | kanrin/kanrin-core/crates/kanrin-protocol/src/session.rs:74-110 | so it is for the two ends of a session whatever they have sent |
| `Crypto.NonceInjective` | kanrin/kanrin-core/crates/kanrin-protocol/src/crypto.rs:76-80 | distinct numbers have distinct nonces |
| `Crypto.ZeroNonceIsFirst` | kanrin/kanrin-core/crates/kanrin-client/src/pipeline.rs:224-228 | twelve zero bytes, under which the last handshake chunk is sealed, are the nonce of number 0 and of no other |
| `Wire.HeaderRoundTrip` | kanrin/kanrin-core/crates/kanrin-protocol/src/wire.rs:70-107 | a header survives the wire exactly when it has the protocol version |
| `Wire.HeaderLayout` | kanrin/kanrin-core/crates/kanrin-protocol/src/wire.rs:70-107 | where version, type tag, number, length and padding stand, numbers most significant byte first |
| `Wire.HeaderReadBack` | kanrin/kanrin-core/crates/kanrin-protocol/src/wire.rs:85-107 | a header that can be read is written back as the very bytes it was read from |
| `Wire.SequencedRoundTrip` | kanrin/kanrin-core/crates/kanrin-protocol/src/wire.rs:272-304 | a sealed chunk opens to its type, payload and number, for every padding and lawful AEAD, exactly when its payload fits the length field |
| `Wire.OpensExactly` | kanrin/kanrin-core/crates/kanrin-protocol/src/wire.rs:272-304 | whatever opens was opened under the given key, the nonce of the number on the wire, and the thirteen header bytes as associated data, and yields the front part of the plaintext |
| `Wire.ValidateSackRanges` | kanrin/kanrin-core/crates/kanrin-protocol/src/wire.rs:485-500 | accepts exactly the canonical range lists |
| `Wire.CanonicalMeans` | kanrin/kanrin-core/crates/kanrin-protocol/src/wire.rs:396-405 | canonical means: well-formed, ascending, above the position, with a gap between neighbours |
| `Wire.ControlRoundTrip` | kanrin/kanrin-core/crates/kanrin-protocol/src/wire.rs:360-475 | a control message is read back as sent, exactly unless it is an ack with too many or non-canonical ranges |
| `Wire.ControlLayout` | kanrin/kanrin-core/crates/kanrin-protocol/src/wire.rs:360-400 | the tag of each control message and its numbers, most significant byte first |
| `Wire.RangesRoundTrip` | kanrin/kanrin-core/crates/kanrin-protocol/src/wire.rs:446-469 | any list of ranges survives the wire |
| `Wire.RangesLayout` | kanrin/kanrin-core/crates/kanrin-protocol/src/wire.rs:360-400 | each range stands in its own sixteen bytes, start before end, most significant byte first |
| `Wire.ProxyRoundTrip` | kanrin/kanrin-core/crates/kanrin-protocol/src/wire.rs:510-608 | each form of request decodes to itself exactly when its lengths fit their fields |
| `Wire.ProxyLayout` | kanrin/kanrin-core/crates/kanrin-protocol/src/wire.rs:510-608 | the tag of each form of request and where its fields stand |
| `Wire.FrameRoundTrip` | kanrin/kanrin-core/crates/kanrin-protocol/src/wire.rs:612-629 | deframing takes exactly the first frame off a stream if and only if its length fits the prefix, and otherwise what the truncated prefix says |
| `Wire.PartialFrame` | kanrin/kanrin-core/crates/kanrin-protocol/src/wire.rs:620-629 | deframing refuses a cut frame exactly while what its prefix says is not all there |
| `Wire.FrameLayout` | kanrin/kanrin-core/crates/kanrin-protocol/src/wire.rs:612-619 | the four bytes in front of a frame are its length, most significant byte first |
| `BigEndian.ByteOrder` | kanrin/kanrin-core/crates/kanrin-protocol/src/wire.rs:70-107 | two, four and eight byte numbers are written most significant byte first |
| `Resume.RequestRoundTrip` | kanrin/kanrin-core/crates/kanrin-protocol/src/resume.rs:140-164 | a resume request decodes to itself, and every shorter input is refused |
| `Resume.ResponseRoundTrip` | kanrin/kanrin-core/crates/kanrin-protocol/src/resume.rs:218-240 | a resume response decodes to itself, and every shorter input is refused |
| `Resume.RequestTranscriptInjective` | kanrin/kanrin-core/crates/kanrin-protocol/src/resume.rs:111-122 | equal request transcripts mean equal fields |
| `Resume.ResponseTranscriptInjective` | kanrin/kanrin-core/crates/kanrin-protocol/src/resume.rs:196-210 | equal response transcripts mean equal fields and the same request |
| `Resume.TranscriptsDisjoint` | kanrin/kanrin-core/crates/kanrin-protocol/src/resume.rs:111-122 | a request transcript is never a response transcript |
| `Resume.RequestVerifies` | kanrin/kanrin-core/crates/kanrin-protocol/src/resume.rs:126-138 | what a request must show, field by field: a clock within thirty seconds, checked first, and the proof over label, session, clock, random bytes and position |
| `Resume.ResponseVerifies` | kanrin/kanrin-core/crates/kanrin-protocol/src/resume.rs:213-216 | and a response: the proof over label, the random bytes of the request, status, random bytes and position |
| `Resume.ProofBindsRequest` | kanrin/kanrin-core/crates/kanrin-protocol/src/resume.rs:111-138 | a proof that verifies with two different requests shows two inputs with one MAC |
| `Resume.ProofBindsResponse` | kanrin/kanrin-core/crates/kanrin-protocol/src/resume.rs:196-216 | a proof that verifies with two different answers, or for two different requests, shows two inputs with one MAC |
| `Resume.MessageLayout` | kanrin/kanrin-core/crates/kanrin-protocol/src/resume.rs:140-240 | where the fields of both messages stand |
| `Resume.HandshakeExchangesPositions` | kanrin/kanrin-core/crates/kanrin-server/src/session.rs:235-262 | over the wire, an honest request is accepted exactly inside the drift window, and each end learns the other's position |
| `Switch.SwitchPolicy.Allows` | kanrin/kanrin-core/crates/kanrin-client/src/switch.rs:324-334 | a failure passes at once, anything else only after the cooldown |
| `Switch.SwitchPolicy.Record` | kanrin/kanrin-core/crates/kanrin-client/src/switch.rs:337-343 | the level rises exactly when the last switch was inside the flap window, else resets |
| `Switch.CooldownMonotone` | kanrin/kanrin-core/crates/kanrin-client/src/switch.rs:316-321 | the cooldown never shrinks with the level and never exceeds the cap |
| `Switch.CooldownDoubles` | kanrin/kanrin-core/crates/kanrin-client/src/switch.rs:316-321 | the cooldown starts at the base and doubles with each of the first sixteen levels up to the cap |
| `Switch.LevelBound` | kanrin/kanrin-core/crates/kanrin-client/src/switch.rs:317-343 | for any timing, opportunistic switches never climb past the first level whose cooldown outlasts the flap window |
| `Switch.CapNeverReached` | kanrin/kanrin-core/crates/kanrin-client/src/switch.rs:178-186 | with the default constants opportunistic switches never climb past level 4, so the 120 s cap is never in force |
| `Switch.RateBound` | kanrin/kanrin-core/crates/kanrin-client/src/switch.rs:284-343 | any `n + 1` opportunistic switches spanning `T` seconds satisfy `4 T >= 95 n - 145` |
| `Switch.RateBoundIsTight` | kanrin/kanrin-core/crates/kanrin-client/src/switch.rs:284-343 | arbitrarily long runs meet the bound with equality |
| `Switch.FailuresClimb` | kanrin/kanrin-core/crates/kanrin-client/src/switch.rs:200-207 | any run of switches away from broken links, however spaced, is permitted whatever the level; and for any timing each one less than the flap window after the last raises the level by one |
| `Switch.FailuresReachCap` | kanrin/kanrin-core/crates/kanrin-client/src/switch.rs:324-334 | after five or more such switches, each less than a minute after the last, a merely better path waits exactly the full cap |
| `Fairness.FairShare` | kanrin/kanrin-core/crates/kanrin-client/src/multipath.rs:248-272 | over any window of any run, with paths added, removed, unhealthy, recovering and changing capacity, what a path carried is within the number of paths ever added, less one, of what it was entitled to; within half of that counting from when it was added |
| `Fairness.HealthyShare` | kanrin/kanrin-core/crates/kanrin-client/src/multipath.rs:248-272 | among `n` healthy paths the difference over any window is less than `(n + 1) / 2` |
| `Fairness.HealthyRange` | kanrin/kanrin-core/crates/kanrin-client/src/multipath.rs:256-272 | among healthy paths from zero, credits always sum to zero, each above -1 and at most `(n - 1) / 2` |
| `Fairness.ChunkConserves` | kanrin/kanrin-core/crates/kanrin-client/src/multipath.rs:264-276 | one chunk leaves the total credit unchanged, whichever paths are healthy |
| `Fairness.ChunkKeepsBalance` | kanrin/kanrin-core/crates/kanrin-client/src/multipath.rs:264-276 | one chunk keeps the credit of every set of `k` paths within `k (n - k) / 2` |
| `Fairness.Accounting` | kanrin/kanrin-core/crates/kanrin-client/src/multipath.rs:264-276 | the change of a credit is exactly entitlement less chunks carried |
| `Multipath.Scheduler.Assign` | kanrin/kanrin-core/crates/kanrin-client/src/multipath.rs:256-300 | which path is chosen, ties included, what every credit is afterwards, which hedge, what is counted as sent, and that it is one chunk in the history the fairness results speak of |
| `Multipath.CreditsStayNearZero` | kanrin/kanrin-core/crates/kanrin-client/src/multipath.rs:188-196 | after any calls in any order no credit of a scheduler is further from zero than half a unit for each other path ever added |
| `Multipath.Scheduler.Spend` | kanrin/kanrin-core/crates/kanrin-client/src/multipath.rs:274-275 | the chosen path pays one unit and is counted as sent on, as is the hedge |
| `Multipath.Scheduler.Record` | kanrin/kanrin-core/crates/kanrin-client/src/multipath.rs:223-225 | recording a delivery or a loss touches the named path only, and no credit |
| `Multipath.Scheduler.RecordDelivered` | kanrin/kanrin-core/crates/kanrin-client/src/multipath.rs:86-97 | a delivery updates the estimates of the named path and nothing else |
| `Multipath.Scheduler.RecordLost` | kanrin/kanrin-core/crates/kanrin-client/src/multipath.rs:100-106 | a loss updates the estimates of the named path and nothing else |
| `Multipath.Scheduler.AddPath` | kanrin/kanrin-core/crates/kanrin-client/src/multipath.rs:202-209 | a known name changes nothing; a new one starts with no credit |
| `Multipath.Scheduler.RemovePath` | kanrin/kanrin-core/crates/kanrin-client/src/multipath.rs:211-216 | removes the named path and its credit and nothing else |
| `Multipath.Scheduler.TopUp` | kanrin/kanrin-core/crates/kanrin-client/src/multipath.rs:264-267 | each healthy path gains its capacity divided by the healthy capacity, the others nothing |
| `Multipath.Scheduler.Richest` | kanrin/kanrin-core/crates/kanrin-client/src/multipath.rs:269-273 | the last of the healthy paths with the most credit |
| `Multipath.Scheduler.Fastest` | kanrin/kanrin-core/crates/kanrin-client/src/multipath.rs:278-288 | the first of the other healthy paths with the best round trip |
| `Multipath.SharesMakeOne` | kanrin/kanrin-core/crates/kanrin-client/src/multipath.rs:264-267 | the shares of the healthy paths make exactly one chunk |
| `Multipath.SharesFollowCapacity` | kanrin/kanrin-core/crates/kanrin-client/src/multipath.rs:264-267 | any two healthy paths gain in proportion to their capacities, and the others nothing |
| `Multipath.AssignFollowsCapacity` | kanrin/kanrin-core/crates/kanrin-client/src/multipath.rs:256-275 | so it is for what one call does to the credits, apart from the unit that is paid |
| `Multipath.WindowFollowsCapacity` | kanrin/kanrin-core/crates/kanrin-client/src/multipath.rs:247-252 | over any window in which capacities and health stay, each healthy path carries capacity over healthy capacity of the chunks, give or take one for every other path ever added |
| `Multipath.FastestMeans` | kanrin/kanrin-core/crates/kanrin-client/src/multipath.rs:278-288 | no other healthy path has a smaller measured round trip than the hedge, and none before it an equal one |
| `Multipath.HealthOverTime` | kanrin/kanrin-core/crates/kanrin-client/src/multipath.rs:129-143 | an idle path stays as healthy as it is; one that awaits an answer is given five seconds from its last success; a disabled path or one above the loss limit is never healthy |
| `Multipath.OneLossDisqualifies` | kanrin/kanrin-core/crates/kanrin-client/src/multipath.rs:33-37 | the first chunk that a new path loses takes it out, and the next that it delivers brings it back |
| `Multipath.EstimatesMove` | kanrin/kanrin-core/crates/kanrin-client/src/multipath.rs:86-106 | how far one delivery and one loss move every estimate |
| `Multipath.SixDeliveriesForgive` | kanrin/kanrin-core/crates/kanrin-client/src/multipath.rs:55-60 | six deliveries in a row bring any path back within the loss limit; five do not always |
| `Posture.PostureController.Observe` | kanrin/kanrin-core/crates/kanrin-client/src/posture.rs:184-210 | the new posture, streak and dwell start for every signal, and what is reported |
| `Posture.PostureController.Set` | kanrin/kanrin-core/crates/kanrin-client/src/posture.rs:213-221 | never below the floor, dwell restarts only on a change, and only a change is reported |
| `Posture.PostureController.Force` | kanrin/kanrin-core/crates/kanrin-client/src/posture.rs:224-227 | a forced posture clears the clean streak, respects the floor, and is reported only if it changes anything |
| `Posture.FloorAndSingleSteps` | kanrin/kanrin-core/crates/kanrin-client/src/posture.rs:213-221 | over any run: never below the floor, never past a level on the way down, at Evasion after every adverse signal |
| `Posture.LeavesEvasion` | kanrin/kanrin-core/crates/kanrin-client/src/posture.rs:196-210 | after the last adverse signal Evasion is left exactly when there were enough clean periods since it and enough time since Evasion was entered |
| `Posture.ReachesPerformance` | kanrin/kanrin-core/crates/kanrin-client/src/posture.rs:196-210 | Performance is reached exactly when, from the period at which Balanced was entered, there are again enough clean periods and enough time |
| `Posture.PriceOfAnAlarm` | kanrin/kanrin-core/crates/kanrin-client/src/posture.rs:111-120 | an adverse signal costs at least twice the clean streak after the last one, and the minimum dwell at Balanced |
| `Posture.NeverQuietStaysEvasion` | kanrin/kanrin-core/crates/kanrin-client/src/posture.rs:184-200 | with fewer clean periods than required between adverse signals the posture stays Evasion for ever |
| `Frontdoor.Admitter.Admit` | kanrin/kanrin-core/crates/kanrin-server/src/frontdoor.rs:121-159 | the tunnel is given exactly if the header claims a token of the window with the MAC that the key computes for it, and no token in the cache that is in its window has its nonce; the new cache for every header; and that after an admission it holds only entries in the window |
| `Frontdoor.DecidesExactly` | kanrin/kanrin-core/crates/kanrin-server/src/frontdoor.rs:141-156 | the same of the decision as a function, with the MAC and the window written out |
| `Frontdoor.AdmittedWereAuthentic` | kanrin/kanrin-core/crates/kanrin-server/src/frontdoor.rs:141-159 | over any run, each token that was admitted was presented with its own MAC while it was fresh |
| `Frontdoor.MacInputInjective` | kanrin/kanrin-core/crates/kanrin-server/src/frontdoor.rs:112-119 | two tokens never give the MAC the same input |
| `Frontdoor.Admitter.Retain` | kanrin/kanrin-core/crates/kanrin-server/src/frontdoor.rs:152 | pruning keeps exactly the entries in the window, in order |
| `Frontdoor.Admitter.ReadClaim` | kanrin/kanrin-core/crates/kanrin-server/src/frontdoor.rs:122-139 | reads exactly the headers whose cookie has three parts of the right form |
| `Frontdoor.Admitter.IsSpent` | kanrin/kanrin-core/crates/kanrin-server/src/frontdoor.rs:153 | whether any entry has the nonce |
| `Frontdoor.PruningChangesNothing` | kanrin/kanrin-core/crates/kanrin-server/src/frontdoor.rs:149-156 | with a non-decreasing clock the pruned cache decides as one that remembers every admission |
| `Frontdoor.AgainstFullMemory` | kanrin/kanrin-core/crates/kanrin-server/src/frontdoor.rs:152-156 | against remembering whole tokens for ever, decisions differ exactly when another token in the window used the same nonce |
| `Frontdoor.AdmittedOnce` | kanrin/kanrin-core/crates/kanrin-server/src/frontdoor.rs:149-156 | over any run whose times do not decrease, in the order in which the cache is reached, each token is admitted at most once, however its cookie is spelled |
| `Frontdoor.MintedIsRead` | kanrin/kanrin-core/crates/kanrin-server/src/frontdoor.rs:106-110 | a minted token is read back through the cookie, colon and base16 parsers, alone and behind other cookies |
| `Frontdoor.ClaimIsRead` | kanrin/kanrin-core/crates/kanrin-server/src/frontdoor.rs:122-139 | the text of any token and any tag is read back as they are, among any other cookies |
| `Frontdoor.FreshTokenOpens` | kanrin/kanrin-core/crates/kanrin-server/src/frontdoor.rs:121-159 | a fresh token with an unseen nonce is admitted on first use |
| `Frontdoor.SingleUseExactly` | kanrin/kanrin-core/crates/kanrin-server/src/frontdoor.rs:149-156 | whatever is requested at given times no token is admitted twice, if and only if the clock never leaves the window of a timestamp and returns to it |
| `Frontdoor.SecondNeedsReturn` | kanrin/kanrin-core/crates/kanrin-server/src/frontdoor.rs:149-156 | a second admission of a token needs an earlier request in its window and, after that, one outside it |
| `Frontdoor.ForwardNeverReturns` | kanrin/kanrin-core/crates/kanrin-server/src/frontdoor.rs:149-156 | a non-decreasing clock is such a clock |
| `Frontdoor.ClockBackAdmitsTwice` | kanrin/kanrin-core/crates/kanrin-server/src/frontdoor.rs:152 | on any clock that leaves the window of a timestamp and returns to it, some requests admit a token twice |
| `Tokens.Unhex` | kanrin/kanrin-core/crates/kanrin-server/src/frontdoor.rs:174-183 | the loop reads exactly the pairs of digits, or nothing |
| `Tokens.UnhexHex` | kanrin/kanrin-core/crates/kanrin-server/src/frontdoor.rs:170-183 | bytes written in base16 are read back as they were |
| `Tokens.HexReadBack` | kanrin/kanrin-core/crates/kanrin-server/src/frontdoor.rs:133-137 | a timestamp is read back exactly when it fits |
| `Tokens.HexReads` | kanrin/kanrin-core/crates/kanrin-server/src/frontdoor.rs:133-137 | most significant digit first; one plus sign in front is allowed, two are not, nor is nothing |
| `Tokens.DigitsInOrder` | kanrin/kanrin-core/crates/kanrin-server/src/frontdoor.rs:170-183 | the sixteen digits are in the order of their values, and capitals are read as small letters |
| `Tokens.CookieFound` | kanrin/kanrin-core/crates/kanrin-server/src/frontdoor.rs:163-168 | a cookie is found alone and behind others |
| `Tokens.CookieFoundAmong` | kanrin/kanrin-core/crates/kanrin-server/src/frontdoor.rs:163-168 | a cookie is found with any others behind it, alone or behind others |
| `Tokens.TrimMeans` | kanrin/kanrin-core/crates/kanrin-server/src/frontdoor.rs:163-168 | trimming takes the spaces off both ends and nothing else |
| `TlsTcp.TlsTcpConnection.Recv` | kanrin/kanrin-core/crates/kanrin-transport/src/tls_tcp.rs:235-271 | one call: which frame, what stays buffered, what of the stream is left, when the connection counts as dead |
| `TlsTcp.ServesFirst` | kanrin/kanrin-core/crates/kanrin-transport/src/tls_tcp.rs:238-254 | a buffered frame is served before anything is read, and a prefix above one mebibyte is refused |
| `TlsTcp.StopsAsTold` | kanrin/kanrin-core/crates/kanrin-transport/src/tls_tcp.rs:256-271 | what ends a call without a frame: end of stream, empty read, error, drop |
| `TlsTcp.TlsTcpConnection.Send` | kanrin/kanrin-core/crates/kanrin-transport/src/tls_tcp.rs:221-228 | writes the length prefix and the data behind what was written before |
| `TlsTcp.NothingLostOrInvented` | kanrin/kanrin-core/crates/kanrin-transport/src/tls_tcp.rs:211-217 | frames returned, framed again, then the buffer, then the unread bytes are the stream, over any number of calls, cuts and drops |
| `TlsTcp.CallsFollow` | kanrin/kanrin-core/crates/kanrin-transport/src/tls_tcp.rs:230-271 | the frames returned are what the stream says, in order, however it is cut into reads |
| `TlsTcp.CallsFinish` | kanrin/kanrin-core/crates/kanrin-transport/src/tls_tcp.rs:230-271 | after as many calls as there are frames and arrivals, all of them have been returned |
| `TlsTcp.FramesArriveAsSent` | kanrin/kanrin-core/crates/kanrin-transport/src/tls_tcp.rs:221-271 | up to the first frame over the limit the frames returned are the frames sent; they are a prefix of those sent if every length fits its prefix; and eventually they are all of them exactly when none is over the limit |
| `TlsTcp.CutShort` | kanrin/kanrin-core/crates/kanrin-protocol/src/wire.rs:620-629 | the front part of a frame is not whole while what its prefix says is not all there |
| `TlsTcp.ParseSent` | kanrin/kanrin-core/crates/kanrin-transport/src/tls_tcp.rs:248-254 | what a stream of sent frames says: every frame up to the first over the limit; all and nothing else exactly if none is; and nothing beyond if every length fits its prefix |
| `Addresses.EachAddressInOnePlace` | kanrin/kanrin-core/crates/kanrin-server/src/main.rs:112-177 | in every reachable state each of the 252 addresses is in exactly one place: fresh, freed, reserved, owned or being reclaimed |
| `Addresses.NoAddressTwice` | kanrin/kanrin-core/crates/kanrin-server/src/registry.rs:93-147 | no two sessions, no two connections and no connection and session hold the same address |
| `Addresses.LiveOwnedExactly` | kanrin/kanrin-core/crates/kanrin-server/src/session.rs:238-258 | throughout a run each attached connection has an address that its session owns, if and only if every connection that attached found its session still registered |
| `Addresses.LiveAddressesDistinct` | kanrin/kanrin-core/crates/kanrin-server/src/session.rs:462-471 | and in such a run no two attached connections ever share an address |
| `Addresses.LateAttachSharesAddress` | kanrin/kanrin-core/crates/kanrin-server/src/session.rs:404-471 | a run in which two attached connections share an address: the session that one of them is resuming is reaped while it replays, and its address is handed out again |
| `Addresses.LiveOwnedStep` | kanrin/kanrin-core/crates/kanrin-server/src/registry.rs:136-147 | no step but a late attach parts an attached connection from its session; the reaper never does |
| `Addresses.ReadersOwnedExactly` | kanrin/kanrin-core/crates/kanrin-server/src/session.rs:479-560 | throughout a run each read loop reads for a session that still owns its address, if and only if every attach is in time and no session is reaped while a loop reads for it |
| `Addresses.ReadersOwnedStep` | kanrin/kanrin-core/crates/kanrin-server/src/registry.rs:136-147 | which steps part a read loop from its session: a late attach, and reaping a session that is read for |
| `Addresses.ReadersOfOneSession` | kanrin/kanrin-core/crates/kanrin-server/src/session.rs:479-560 | and in such a run read loops that share an address read for one session |
| `Addresses.EvictedReaderSharesAddress` | kanrin/kanrin-core/crates/kanrin-server/src/session.rs:467-482 | a run, every attach in time, in which an evicted connection outlives its session and still reads under an address that another session has by then |
| `Addresses.ExhaustedExactly` | kanrin/kanrin-core/crates/kanrin-server/src/session.rs:88-104 | allocation fails exactly when every address is reserved, owned or being reclaimed |
| `Addresses.FreeAddressHasNoQueue` | kanrin/kanrin-core/crates/kanrin-server/src/forwarder.rs:30-42 | a free address, and one just handed out, has no forwarder queue |
| `Addresses.DuplicateIdLeaks` | kanrin/kanrin-core/crates/kanrin-server/src/registry.rs:93-113 | entering a session keeps every address accounted for exactly when its identifier is new |
| `Addresses.StepInv` | kanrin/kanrin-core/crates/kanrin-server/src/main.rs:139-177 | every step of the accept loop, the connections, the dispatcher and the reaper keeps the accounting |
| `Addresses.SessionRegistry.Insert` | kanrin/kanrin-core/crates/kanrin-server/src/registry.rs:93-113 | a new, unattached entry under the identifier, everything else unchanged |
| `Addresses.InsertIsEnter` | kanrin/kanrin-core/crates/kanrin-server/src/registry.rs:93-113 | that is the registry part of the step that enters a session |
| `Addresses.SessionRegistry.Get` | kanrin/kanrin-core/crates/kanrin-server/src/registry.rs:115-117 | finds exactly the registered sessions, with the address, attachment and time they show |
| `Addresses.GetIsLookup` | kanrin/kanrin-core/crates/kanrin-server/src/session.rs:238-240 | a lookup succeeds exactly when the step may be made, and yields what the connection then holds |
| `Addresses.SessionEntry.Attach` | kanrin/kanrin-core/crates/kanrin-server/src/registry.rs:59-66 | the connection replaces whoever was attached, and the registry shows it if it still has the entry |
| `Addresses.SessionEntry.Touch` | kanrin/kanrin-core/crates/kanrin-server/src/registry.rs:72-74 | a frame that arrives sets the time and nothing else |
| `Addresses.SessionEntry.Finish` | kanrin/kanrin-core/crates/kanrin-server/src/registry.rs:67-70 | an entry whose writer is over is attached to nothing, and was last seen when it was before |
| `Addresses.SessionEntry.Hangup` | kanrin/kanrin-core/crates/kanrin-server/src/session.rs:556-560 | a read loop that ends detaches its own connection only, and touches the entry |
| `Addresses.EntryAttachIsAttach` | kanrin/kanrin-core/crates/kanrin-server/src/session.rs:462-471 | attaching to an entry is the step that attaches, whether or not the registry still has the entry |
| `Addresses.FinishIsDetach` | kanrin/kanrin-core/crates/kanrin-server/src/session.rs:426-465 | the end of the attached writer is the step that detaches |
| `Addresses.HangupIsHangup` | kanrin/kanrin-core/crates/kanrin-server/src/session.rs:556-560 | the end of a read loop is the step that ends it, whether its connection is still the attached one or was evicted |
| `Addresses.SessionRegistry.Retain` | kanrin/kanrin-core/crates/kanrin-server/src/registry.rs:139-145 | keeps exactly what is attached or was last seen within 120 seconds, and lists the addresses of the rest, one each |
| `Addresses.SessionRegistry.ReapExpired` | kanrin/kanrin-core/crates/kanrin-server/src/registry.rs:136-147 | drops exactly the entries that nothing is attached to and that were last seen more than 120 seconds ago, and returns their addresses |
| `Addresses.FoundForTwoMinutes` | kanrin/kanrin-core/crates/kanrin-server/src/registry.rs:28-30 | a session that was attached to, heard from or hung up on is found for two minutes, whatever is done in between |
| `Addresses.KeptExactly` | kanrin/kanrin-core/crates/kanrin-server/src/registry.rs:136-147 | a session that nothing is attached to is there after any acts on others if and only if no sweep came more than two minutes after it was last seen |
| `Addresses.AttachedIsKept` | kanrin/kanrin-core/crates/kanrin-server/src/registry.rs:134-135 | a session that is attached to is never reaped, however silent |
| `Addresses.ReapExpiredIsReap` | kanrin/kanrin-core/crates/kanrin-server/src/main.rs:122 | what it drops is a reap that the server may make, and what it returns is what the server then reclaims |
| `Addresses.IpAllocator.Allocate` | kanrin/kanrin-core/crates/kanrin-server/src/session.rs:88-104 | last freed first, else the next fresh one, none past 253 |
| `Addresses.IpAllocator.Release` | kanrin/kanrin-core/crates/kanrin-server/src/session.rs:107-118 | returns a host address once; ignores any other |

## Left out

- X25519, HKDF, ChaCha20-Poly1305, HMAC and random generation: only the inverse and length laws that the protocol relies on are kept; the handshake that derives the keys is left out with them.
- Sockets, TLS, QUIC, TUN devices, tasks and abort handles, HTTP content and response timing: input and output; a transport is a set of frames, or for `TlsTcp` a script of reads.
- Handshake and resume chunks, which use explicit nonces: outside the claim about distinct nonces, except that `Crypto.ZeroNonceIsFirst` says which number such a nonce belongs to.
- `ConfigUpdate`, `ScoreReport` and `SessionMigrate`: encoded by the source but never decoded.
- Replacing malformed UTF-8 in proxy addresses: addresses are the bytes of valid text, on which the lossy conversion changes nothing.
- Liveness probing, the draining connection, the count of failed switches, and the events reported to the user: easy members; a ping appears only as a control chunk that takes a number.
- A packet that the server's writer has taken from its queue but not yet numbered when it is cancelled: it never enters the numbering, and is not counted as sent.
- Pushing while a replay walks the buffer: the replay borrows the buffer for as long as it runs, in the source too.
- ReceiveSide.ReceiveBuffer.Accept: where the position would pass u64::MAX the source overflows; the model stops there and says nothing of the state. `Pipeline.NoOverflow` shows that no session gets there.
- Pipeline.Endpoint.SendData: requires a packet of at most 65535 bytes, the most an IP packet can be; `Wire.SequencedRoundTrip` says what happens beyond.
- HandOver.NothingLostOrTwice: handing over is the call of the TUN device or the forwarder; a forwarder ignores packets that are short or not IPv4, and a write that fails is only logged. A server that stops with packets in hand is outside the runs.
- Pipeline.Reader.OnFrame: takes as hypotheses that a frame which opens as data is one the peer sealed and that an ack which opens is one the peer built, which is what the AEAD provides; and that the position does not overflow, which `Pipeline.NoOverflow` shows.
- Pipeline.Reader.ClientTurn: the switch that the client attempts when its ack cannot be sent is `Pipeline.Endpoint.AttemptSwitch`; the answers of its DNS interceptor, which it also writes to the TUN device, are not packets of the session and are left out.
- Pipeline.Endpoint.AttemptSwitch: preparing the standby (connecting, the resume exchange) is its parameter `position`; `Resume.HandshakeExchangesPositions` is about that exchange.
- ReceiveSide.ReceiveBuffer.DeliverRun: the loop at the end of `accept`, which the source has inline; `SendBuffer.Drop` is the common part of the acks, `TopUp`, `Richest`, `Fastest` and `Pick` are the parts of `assign`, and `ReadClaim`, `Retain` and `IsSpent` are parts of `admit`.
- Multipath.WindowFollowsCapacity: the comment on `assign` promises the capacity ratio exactly; the code keeps it to within the stated bound.
- Multipath.Scheduler.Assign: rounding of f64 is not modelled; capacities, credits and round trips are reals, and health is read once per call.
- Switch.SwitchPolicy.Record: the count of consecutive switches is unbounded here and a u32 in the source.
- Posture.PriceOfAnAlarm: runs without `force`, the user's override.
- Addresses.LiveOwnedExactly: the run machine has no clock, so any session that nothing is attached to may be reaped at any time; `Addresses.SessionRegistry.ReapExpired` has the two minutes.
- Addresses.DuplicateIdLeaks: identifiers are random in the source; that a new one is not registered already is a hypothesis of the other results about addresses.
- Frontdoor.Admitter.Admit: text is a sequence of characters, not UTF-8 bytes; no accepted token contains a character outside ASCII, so this does not change a decision. Constant-time comparison is plain equality.
- Routing rules, GeoIP, packet parsing, NAT, the prober, the scoreboard, the older switcher, migration tokens and `SessionManager`: single-function members, or superseded by the code modelled here.
