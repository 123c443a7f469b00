/** The loops that drive the protocol, as the client's `pipeline.rs` and the server's `session.rs`
    run them: sending, receiving and acknowledging, and switching transports. Every handler is shown
    to be a step of the relations in `Transfer` and `HandOver`. */
module Pipeline {
  import opened Prelude
  import opened Crypto
  import opened Guarantees
  import opened HandOver
  import opened Wire
  import opened SendSide
  import opened ReceiveSide
  import opened Session
  import opened Switch
  import opened Transfer

  const ACK_EVERY_N_CHUNKS: nat := 32

  /** A transport. How many more sends it takes before it fails is up to the environment. */
  class Connection {
    var sent: seq<Bytes>
    var remaining: nat

    constructor (remaining: nat)
      ensures sent == [] && this.remaining == remaining
    {
      sent, this.remaining := [], remaining;
    }

    method Send(data: Bytes) returns (ok: bool)
      modifies this
      ensures ok <==> old(remaining) > 0
      ensures sent == if ok then old(sent) + [data] else old(sent)
      ensures remaining == if ok then old(remaining) - 1 else 0
    {
      if remaining == 0 { return false; }
      sent, remaining := sent + [data], remaining - 1;
      return true;
    }
  }

  // ------------------------------------------------------------------ replay

  /** The numbers of the retained chunks, ascending. */
  ghost predicate Order(chunks: Chunks, ks: seq<nat>) {
    && (forall i :: 0 <= i < |ks| ==> ks[i] in chunks && ks[i] <= U64_MAX)
    && (forall i, j :: 0 <= i < j < |ks| ==> ks[i] < ks[j])
    && (forall k :: k in chunks ==> k in ks)
  }

  lemma TheOrder(chunks: Chunks) returns (ks: seq<nat>)
    requires InU64(chunks)
    ensures Order(chunks, ks) && |ks| == |chunks| && Under(chunks, ks) == Frames(chunks)
  {
    ks := Ascending(chunks.Keys);
    AscendingMembers(chunks.Keys);
  }

  /** Where the cursor stands after `i` confirmed sends. */
  function CursorAfter(ks: seq<nat>, i: nat): Option<nat>
    requires i <= |ks|
  {
    if i == 0 then Some(0) else Past(ks[i - 1])
  }

  /** The cursor finds the retained chunks one by one, and nothing after the last. */
  lemma CursorFindsNext(chunks: Chunks, ks: seq<nat>, i: nat)
    requires Order(chunks, ks) && i <= |ks|
    ensures NextFrom(CursorAfter(ks, i), chunks) == if i < |ks| then Some(ks[i]) else None
  {
    var next := NextFrom(CursorAfter(ks, i), chunks);
    if i < |ks| {
      assert ks[i] in chunks;
      assert i > 0 ==> ks[i - 1] < ks[i];
      var j :| 0 <= j < |ks| && ks[j] == next.value;
      assert j >= i;
    } else {
      forall k | k in chunks ensures i > 0 && k <= ks[i - 1] {
        var j :| 0 <= j < |ks| && ks[j] == k;
      }
    }
  }

  /** One turn of the replay: None when nothing is left, else whether the send went through. */
  method SendNext(replay: Replay, connection: Connection, buffer: SendBuffer, ghost ks: seq<nat>)
    returns (r: Option<bool>)
    requires Order(buffer.chunks, ks) && replay.replayed <= |ks|
    requires replay.next == CursorAfter(ks, replay.replayed)
    modifies replay, connection
    ensures r.None? <==> old(replay.replayed) == |ks|
    ensures r.Some? ==> (r.value <==> old(connection.remaining) > 0)
    ensures r.None? ==> connection.remaining == old(connection.remaining)
    ensures r != Some(true) ==> connection.sent == old(connection.sent) && unchanged(replay)
    ensures r == Some(true) ==>
      && connection.sent == old(connection.sent) + [buffer.chunks[ks[old(replay.replayed)]]]
      && connection.remaining == old(connection.remaining) - 1
      && replay.replayed == old(replay.replayed) + 1
      && replay.next == CursorAfter(ks, replay.replayed)
  {
    CursorFindsNext(buffer.chunks, ks, replay.replayed);
    match replay.NextChunk(buffer)
    case None => return None;
    case Some((sequence, data)) =>
      var ok := connection.Send(data);
      if !ok { return Some(false); }
      replay.ConfirmSent(sequence);
      return Some(true);
  }

  /** `replay_onto` (and the replay at the head of the server's `serve`): the retained chunks go out
      in ascending order, all of them if the connection holds, else as many as it took. */
  method ReplayOnto(connection: Connection, buffer: SendBuffer) returns (r: Option<nat>)
    requires buffer.Valid()
    modifies connection
    ensures var n := |buffer.chunks|;
      && r == (if old(connection.remaining) >= n then Some(n) else None)
      && connection.sent == old(connection.sent) + Frames(buffer.chunks)[..Min(n, old(connection.remaining))]
  {
    ghost var ks := TheOrder(buffer.chunks);
    r := ReplayAll(connection, buffer, ks, Under(buffer.chunks, ks));
  }

  /** The loop of `replay_onto`. */
  method ReplayAll(connection: Connection, buffer: SendBuffer, ghost ks: seq<nat>, ghost frames: seq<Bytes>)
    returns (r: Option<nat>)
    requires Order(buffer.chunks, ks) && |frames| == |ks|
    requires forall i :: 0 <= i < |ks| ==> frames[i] == buffer.chunks[ks[i]]
    modifies connection
    ensures r == if old(connection.remaining) >= |ks| then Some(|ks|) else None
    ensures connection.sent == old(connection.sent) + frames[..Min(|ks|, old(connection.remaining))]
  {
    var replay := new Replay();
    var going := true;
    while going
      invariant replay.replayed <= |ks| && replay.replayed <= old(connection.remaining)
      invariant connection.remaining == old(connection.remaining) - replay.replayed
      invariant replay.next == CursorAfter(ks, replay.replayed)
      invariant connection.sent == old(connection.sent) + frames[..replay.replayed]
      invariant !going ==> replay.replayed == |ks|
      decreases |ks| - replay.replayed, going
    {
      ghost var i := replay.replayed;
      var turn := SendNext(replay, connection, buffer, ks);
      if turn == Some(false) { return None; }
      if turn.Some? { OneMore(old(connection.sent), frames, i); }
      going := turn.Some?;
    }
    return Some(replay.replayed);
  }

  lemma OneMore(sent: seq<Bytes>, frames: seq<Bytes>, i: nat)
    requires i < |frames|
    ensures sent + frames[..i] + [frames[i]] == sent + frames[..i + 1]
  {
  }

  // ---------------------------------------------------------------- endpoint

  /** The codec puts data chunks on the wire as `Chunk::encode_sequenced` does under this key. */
  ghost predicate Speaks(codec: Codec, aead: Aead, key: Bytes) {
    && (forall n: nat, p, padding :: Sealable(n, p, padding) ==>
          codec.seal(n, p, padding) == EncodeSequenced(aead, NewChunk(Data, p, |padding|), key, n, padding))
    && (forall frame :: codec.open(frame) == DataOf(DecodeSequenced(aead, frame, key)))
  }

  lemma WireCodecSpeaks(aead: Aead, key: Bytes)
    ensures Speaks(WireCodec(aead, key), aead, key)
  {
  }

  /** One end of a session: what the client's loop owns, or what a server registry entry holds for all
      of its connections. */
  class Endpoint {
    const isClient: bool
    const aead: Aead
    const session: Session
    const sendBuffer: SendBuffer
    const recvBuffer: ReceiveBuffer

    constructor (isClient: bool, aead: Aead, session: Session, sendBuffer: SendBuffer, recvBuffer: ReceiveBuffer)
      requires session.Valid() && session.Uses(isClient) && sendBuffer.Valid() && recvBuffer.Valid()
      requires recvBuffer.Model() == EMPTY && recvBuffer.ready == []
      ensures Valid()
      ensures this.isClient == isClient && this.aead == aead && this.session == session
      ensures this.sendBuffer == sendBuffer && this.recvBuffer == recvBuffer
    {
      this.isClient, this.aead, this.session := isClient, aead, session;
      this.sendBuffer, this.recvBuffer := sendBuffer, recvBuffer;
    }

    ghost predicate Valid()
      reads session, sendBuffer, recvBuffer
    {
      && session.Valid() && session.Uses(isClient)
      && sendBuffer.Valid()
      && recvBuffer.Valid()
      && recvBuffer.ready == []
    }

    /** This end is the sender of direction `d`. */
    ghost predicate Sends(c: Config, d: Direction)
      reads session, sendBuffer
    {
      && Speaks(c.codec, aead, session.WriteKey(isClient))
      && c.maxSend == sendBuffer.maxBytes
      && |d.log| == session.sendSeq
      && d.buffer == sendBuffer.chunks
    }

    /** What a frame from the peer opens to. */
    ghost function Opens(frame: Bytes): Result<Chunk, ProtocolError>
    {
      DecodeSequenced(aead, frame, session.WriteKey(!isClient))
    }

    /** This end is the receiver of direction `d`. */
    ghost predicate Receives(c: Config, d: Direction)
      reads recvBuffer
    {
      && Speaks(c.codec, aead, session.WriteKey(!isClient))
      && c.maxReceive == recvBuffer.maxBytes
      && d.recv == recvBuffer.Model()
    }

    /** Encrypt a packet under the next number. */
    method Seal(packet: Bytes, padding: Bytes, ghost c: Config, ghost d: Direction) returns (r: Option<Bytes>)
      requires session.Valid() && session.Uses(isClient) && Sends(c, d)
      requires |packet| <= MAX_PAYLOAD_SIZE && |padding| < 0x40
      modifies session
      ensures session.Valid() && session.Uses(isClient)
      ensures r.None? <==> old(session.sendSeq) >= MAX_NONCE
      ensures r.None? ==> session.sendSeq == old(session.sendSeq)
      ensures r.Some? ==> session.sendSeq == old(session.sendSeq) + 1
      ensures r.Some? ==> r.value == c.codec.seal(old(session.sendSeq), packet, padding)
    {
      assert Sealable(session.sendSeq, packet, padding);
      var encrypted := session.EncryptOutgoing(aead, NewChunk(Data, packet, |padding|), isClient, padding);
      return match encrypted case Ok(frame) => Some(frame) case Err(_) => None;
    }

    /** Hand a sealed packet to the transport, and retain it whatever the transport said. */
    method Transmit(sequence: U64, frame: Bytes, connection: Connection) returns (ok: bool)
      requires sendBuffer.Valid()
      modifies sendBuffer, connection
      ensures sendBuffer.Valid()
      ensures sendBuffer.chunks == if PushFits(old(sendBuffer.chunks), |frame|, sendBuffer.maxBytes)
                                   then old(sendBuffer.chunks)[sequence := frame] else old(sendBuffer.chunks)
      ensures connection.sent == old(connection.sent) + OnlyIf(ok, frame)
    {
      ok := connection.Send(frame);
      var retained := sendBuffer.Push(sequence, frame);
    }

    /** Encrypt a packet, hand it to the transport, and retain it whatever the transport said. */
    method SendData(packet: Bytes, padding: Bytes, connection: Connection, ghost c: Config, ghost d: Direction)
      returns (sent: Option<bool>)
      requires Valid() && Sends(c, d)
      requires |packet| <= MAX_PAYLOAD_SIZE && |padding| < 0x40
      modifies session, sendBuffer, connection
      ensures Valid()
      ensures sent.None? <==> old(session.sendSeq) >= MAX_NONCE
      ensures sent.None? ==> Sends(c, d) && connection.sent == old(connection.sent)
      ensures sent.Some? ==> Enabled(c, d, Produce(packet, padding, sent.value))
      ensures sent.Some? ==> Sends(c, Next(c, d, Produce(packet, padding, sent.value)))
      ensures sent.Some? ==>
        connection.sent == old(connection.sent) + OnlyIf(sent.value, c.codec.seal(|d.log|, packet, padding))
    {
      var sequence := session.sendSeq;
      var frame := Seal(packet, padding, c, d);
      if frame.None? { return None; }
      var ok := Transmit(sequence, frame.value, connection);
      return Some(ok);
    }

    /** Encrypt a control message under the next number. What the peer opens is that very message. */
    method SealControl(m: ControlMessage, padding: Bytes) returns (r: Option<Bytes>)
      requires session.Valid() && session.Uses(isClient) && Sendable(m) && |padding| < 0x20
      modifies session
      ensures session.Valid() && session.Uses(isClient)
      ensures r.None? <==> old(session.sendSeq) >= MAX_NONCE
      ensures session.sendSeq == old(session.sendSeq) + if r.Some? then 1 else 0
      ensures r.Some? ==> ControlOf(DecodeSequenced(aead, r.value, session.WriteKey(isClient))) == Some(m)
    {
      var sequence := session.sendSeq;
      var encrypted := session.EncryptOutgoing(aead, NewChunk(Control, EncodeControl(m), |padding|), isClient, padding);
      if encrypted.Err? { return None; }
      ControlOpens(aead, session.WriteKey(isClient), m, sequence, padding);
      return Some(encrypted.value);
    }

    /** Number and send a control message. */
    method SendControl(m: ControlMessage, padding: Bytes, connection: Connection, ghost c: Config, ghost d: Direction)
      returns (sent: Option<bool>)
      requires Valid() && Sends(c, d)
      requires Sendable(m) && |padding| < 0x20
      modifies session, connection
      ensures Valid()
      ensures sent.None? <==> old(session.sendSeq) >= MAX_NONCE
      ensures sent.Some? ==> (sent.value <==> old(connection.remaining) > 0)
      ensures sent.None? ==> Sends(c, d) && connection.sent == old(connection.sent)
      ensures sent.Some? ==> Enabled(c, d, DrawControl) && Sends(c, Next(c, d, DrawControl))
      ensures sent == Some(false) ==> connection.sent == old(connection.sent)
      ensures sent == Some(true) ==>
        && |connection.sent| == |old(connection.sent)| + 1
        && ControlOf(DecodeSequenced(aead, connection.sent[|connection.sent| - 1], session.WriteKey(isClient)))
           == Some(m)
    {
      var frame := SealControl(m, padding);
      if frame.None? { return None; }
      var ok := connection.Send(frame.value);
      return Some(ok);
    }

    /** Offer a data chunk and drain what it made ready, at the server under one lock. The client counts
        duplicates towards the next ack, the server does not; neither counts a refused chunk. None is
        the overflow of the position. */
    method OnData(sequence: U64, payload: Bytes) returns (counted: Option<bool>, packets: seq<Bytes>)
      requires Valid()
      modifies recvBuffer
      ensures var (after, outcome) := Offer(old(recvBuffer.Model()), recvBuffer.maxBytes, sequence, payload);
        && (counted.None? <==> after.next > U64_MAX)
        && (counted.Some? ==> Valid() && recvBuffer.Model() == after)
        && (counted.Some? ==> after.stream == old(recvBuffer.Model()).stream + packets)
        && (counted.Some? ==> (counted.value <==> outcome.Ok? && (isClient || outcome.value != Duplicate)))
    {
      packets := [];
      var outcome := recvBuffer.Accept(sequence, payload);
      if outcome.None? { return None, packets; }
      if outcome.value.Err? { return Some(false), packets; }
      if outcome.value.value == Duplicate { return Some(isClient), packets; }
      packets := recvBuffer.DrainReady();
      return Some(true), packets;
    }

    /** A control message from the peer: an ack releases what it covers; the server answers a ping. */
    method OnControl(payload: Bytes, ghost c: Config, ghost d: Direction) returns (reply: Option<ControlMessage>)
      requires Valid() && Sends(c, d)
      requires AckIn(payload).Some? ==> AckIn(payload).value in d.acks
      modifies sendBuffer
      ensures Valid() && Sends(c, Applied(c, d, AckIn(payload)))
      ensures sendBuffer.chunks.Keys <= old(sendBuffer.chunks).Keys
      ensures forall k :: k in sendBuffer.chunks ==> sendBuffer.chunks[k] == old(sendBuffer.chunks)[k]
      ensures match DecodeControl(payload)
              case Ok(Ack(next, ranges)) =>
                forall k :: k in old(sendBuffer.chunks) ==>
                  (k in sendBuffer.chunks <==>
                   k >= next && forall i :: 0 <= i < |ranges| ==> !(ranges[i].start <= k <= ranges[i].end))
              case _ => sendBuffer.chunks == old(sendBuffer.chunks)
      ensures match DecodeControl(payload)
              case Ok(Ping(t)) => reply == if isClient then None else Some(Pong(t))
              case _ => reply == None
      ensures reply == if isClient then None else PongTo(payload)
    {
      var m := DecodeControl(payload);
      if m.Err? { return None; }
      match m.value
      case Ack(next, ranges) =>
        var removed := sendBuffer.ApplyAck(next, ranges);
        return None;
      case Ping(t) => return if isClient then None else Some(Pong(t));
      case _ => return None;
    }

    /** Apply the position the server reported, and replay what it leaves onto the standby. */
    method ApplyAndReplay(position: U64, standby: Connection, ghost c: Config, ghost d: Direction)
      returns (complete: bool)
      requires Valid() && Sends(c, d) && AckInfo(position, []) in d.acks
      modifies sendBuffer, standby
      ensures Valid()
      ensures var t := Next(c, d, Apply(AckInfo(position, [])));
        && Sends(c, t)
        && complete == (old(standby.remaining) >= |t.buffer|)
        && standby.sent == old(standby.sent) + Frames(t.buffer)[..Min(|t.buffer|, old(standby.remaining))]
    {
      var released := sendBuffer.ApplyAck(position, []);
      var replayed := ReplayOnto(standby, sendBuffer);
      return replayed.Some?;
    }

    /** Move the session onto a standby transport if the policy lets it: apply the position the server
        reported, replay, and only then let the new transport carry the session. `position` is None
        when no standby could be prepared; the switch is complete at `done`. A replay that fails leaves
        the position applied. */
    method AttemptSwitch(reason: Reason, policy: SwitchPolicy, position: Option<U64>, standby: Connection,
                         now: nat, done: nat, ghost c: Config, ghost d: Direction)
      returns (switched: bool)
      requires Valid() && Sends(c, d)
      requires now <= done && (policy.lastSwitch.Some? ==> policy.lastSwitch.value <= now)
      requires position.Some? ==> AckInfo(position.value, []) in d.acks
      modifies policy, sendBuffer, standby
      ensures Valid()
      ensures switched ==> Permits(policy.timing, old(policy.Model()), reason, done)
      ensures policy.Model() == if switched then Recorded(policy.timing, old(policy.Model()), done)
                                else old(policy.Model())
      ensures var tried := Permits(policy.timing, old(policy.Model()), reason, now) && position.Some?;
        if tried then
          (var t := Next(c, d, Apply(AckInfo(position.value, [])));
           && Sends(c, t)
           && switched == (old(standby.remaining) >= |t.buffer|)
           && standby.sent == old(standby.sent) + Frames(t.buffer)[..Min(|t.buffer|, old(standby.remaining))])
        else !switched && Sends(c, d) && standby.sent == old(standby.sent)
    {
      var allowed := policy.Allows(reason, now);
      if !allowed || position.None? { return false; }
      switched := ApplyAndReplay(position.value, standby, c, d);
      if switched { policy.Record(done); }
    }
  }

  // ------------------------------------------------------------------ reading

  /** Where packets go: the TUN device, or the server's forwarder. */
  class Outlet {
    var written: seq<Bytes>

    constructor ()
      ensures written == []
    {
      written := [];
    }

    method Write(packet: Bytes)
      modifies this
      ensures written == old(written) + [packet]
    {
      written := written + [packet];
    }
  }

  lemma BatchPayloads(c: Config, d: Direction, frame: Bytes, packets: seq<Bytes>)
    requires Enabled(c, d, Deliver(frame)) && Next(c, d, Deliver(frame)).recv.stream == d.recv.stream + packets
    ensures Payloads(Batch(c, d, frame)) == packets
  {
    StampedSuffix(d.recv.stream, packets);
  }

  /** A data frame is one this direction's transports carry, and does not run the position over the top
      of the number space, which `NoOverflow` says none does; an ack is one the peer sent. */
  ghost predicate Expected(c: Config, s: Delivery, r: nat, frame: Bytes, content: Result<Chunk, ProtocolError>,
                           peer: Direction) {
    && (DataOf(content).Some?
        ==> Allowed(c, s, Take(r, frame)) && Next(c, s.d, Deliver(frame)).recv.next <= U64_MAX)
    && (AckOf(content).Some? ==> AckOf(content).value in peer.acks)
  }

  /** Whether what a frame opens to counts towards the next ack: a data chunk that is not refused, and
      at the server is not a duplicate either. */
  ghost predicate Counts(c: Config, d: Direction, data: Option<(nat, Bytes)>, isClient: bool) {
    && data.Some?
    && var outcome := Offer(d.recv, c.maxReceive, data.value.0, data.value.1).1;
       outcome.Ok? && (isClient || outcome.value != Duplicate)
  }

  ghost function TakenIf(c: Config, s: Delivery, r: nat, frame: Bytes, data: bool): Delivery
    requires data ==> Allowed(c, s, Take(r, frame))
  {
    if data then Go(c, s, Take(r, frame)) else s
  }

  /** The only reader of a direction, with the whole stream handed over. */
  ghost function Solo(d: Direction): Delivery { Delivery(d, [[]], Stamped(d.recv.stream)) }

  lemma SoloTakes(c: Config, d: Direction, frame: Bytes)
    requires Enabled(c, d, Deliver(frame))
    ensures Allowed(c, Solo(d), Take(0, frame)) && InARow(Go(c, Solo(d), Take(0, frame)))
    ensures |Go(c, Solo(d), Take(0, frame)).hands| == 1
  {
    TakeAlone(c, Solo(d), 0, frame);
  }

  /** What reads from one connection: the client's one loop, or the read loop of one of the connections
      that a server entry has. Loops of one entry share its `endpoint` and the `outlet`. */
  class Reader {
    const endpoint: Endpoint
    const outlet: Outlet
    /** Drained, and yet to be handed over. */
    var hand: seq<Bytes>
    var unackedChunks: nat

    constructor (endpoint: Endpoint, outlet: Outlet)
      ensures this.endpoint == endpoint && this.outlet == outlet && hand == [] && unackedChunks == 0
    {
      this.endpoint, this.outlet, hand, unackedChunks := endpoint, outlet, [], 0;
    }

    /** This is reader number `r` of the delivery `s`. */
    ghost predicate Reads(c: Config, s: Delivery, r: nat)
      reads this, endpoint.recvBuffer, outlet
    {
      && endpoint.Receives(c, s.d)
      && r < |s.hands| && hand == Payloads(s.hands[r])
      && outlet.written == Payloads(s.handed)
    }

    /** A data chunk from a frame under way to this end is one `Take`. */
    method OnDataFrame(sequence: U64, payload: Bytes,
                       ghost frame: Bytes, ghost c: Config, ghost s: Delivery, ghost r: nat)
      returns (counted: bool)
      requires endpoint.Valid() && Reads(c, s, r) && Allowed(c, s, Take(r, frame))
      requires c.codec.open(frame) == Some((sequence, payload))
      requires Next(c, s.d, Deliver(frame)).recv.next <= U64_MAX
      modifies this`hand, endpoint.recvBuffer
      ensures endpoint.Valid()
      ensures Reads(c, Go(c, s, Take(r, frame)), r)
      ensures counted <==> Counts(c, s.d, Some((sequence, payload)), endpoint.isClient)
    {
      var packets, due;
      due, packets := endpoint.OnData(sequence, payload);
      BatchPayloads(c, s.d, frame, packets);
      hand := packets;
      return due.value;
    }

    /** The next packet goes out: one `Forward`. */
    method HandOverNext(ghost c: Config, ghost s: Delivery, ghost r: nat)
      requires Reads(c, s, r) && hand != []
      modifies this`hand, outlet
      ensures Allowed(c, s, Forward(r)) && Reads(c, Go(c, s, Forward(r)), r)
      ensures |hand| < |old(hand)|
    {
      outlet.Write(hand[0]);
      hand := hand[1..];
    }

    /** Build an ack after enough counted chunks, or when the last one is long enough ago. A server loop
        ends when its ack finds the connection's writer gone. */
    method AckIfDue(late: bool, writerGone: bool) returns (reply: Option<ControlMessage>, more: bool)
      requires endpoint.Valid()
      modifies this`unackedChunks
      ensures reply.Some? <==> late || old(unackedChunks) + 1 >= 32
      ensures unackedChunks == if reply.Some? then 0 else old(unackedChunks) + 1
      ensures reply.Some? ==> IsAckMessage(endpoint.recvBuffer.Model(), reply.value)
      ensures more <==> endpoint.isClient || reply.None? || !writerGone
    {
      unackedChunks := unackedChunks + 1;
      if unackedChunks >= ACK_EVERY_N_CHUNKS || late {
        unackedChunks := 0;
        var ack := endpoint.recvBuffer.BuildAck();
        return Some(ack), endpoint.isClient || !writerGone;
      }
      return None, true;
    }

    /** A chunk that opened, by type. */
    method OnChunk(chunk: Chunk, ghost frame: Bytes,
                   ghost cIn: Config, ghost s: Delivery, ghost r: nat, ghost cOut: Config, ghost dOut: Direction)
      returns (counted: bool, reply: Option<ControlMessage>)
      requires endpoint.Valid() && Reads(cIn, s, r) && endpoint.Sends(cOut, dOut)
      requires cIn.codec.open(frame) == DataOf(Ok(chunk)) && Expected(cIn, s, r, frame, Ok(chunk), dOut)
      modifies this`hand, endpoint.sendBuffer, endpoint.recvBuffer
      ensures endpoint.Valid()
      ensures endpoint.Sends(cOut, Applied(cOut, dOut, AckOf(Ok(chunk))))
      ensures Reads(cIn, TakenIf(cIn, s, r, frame, DataOf(Ok(chunk)).Some?), r)
      ensures counted <==> Counts(cIn, s.d, DataOf(Ok(chunk)), endpoint.isClient)
      ensures reply == if endpoint.isClient then None else AnswerTo(Ok(chunk))
    {
      counted, reply := false, None;
      match chunk.header.chunkType
      case Data => counted := OnDataFrame(chunk.header.sequence, chunk.payload, frame, cIn, s, r);
      case Control => reply := endpoint.OnControl(chunk.payload, cOut, dOut);
      case _ =>
    }

    /** One inbound frame, up to and including the draining: whether it counts towards an ack, what to
        answer at once, and whether to go on reading. A server loop ends after a frame that does not
        open, and when its answer finds the writer gone. `content` is what the frame opens to. */
    method OnFrame(frame: Bytes, writerGone: bool,
                   ghost cIn: Config, ghost s: Delivery, ghost r: nat, ghost cOut: Config, ghost dOut: Direction)
      returns (counted: bool, reply: Option<ControlMessage>, more: bool, ghost content: Result<Chunk, ProtocolError>)
      requires endpoint.Valid() && Reads(cIn, s, r) && endpoint.Sends(cOut, dOut)
      requires Expected(cIn, s, r, frame, endpoint.Opens(frame), dOut)
      modifies this`hand, endpoint.session, endpoint.sendBuffer, endpoint.recvBuffer
      ensures endpoint.Valid()
      ensures content == endpoint.Opens(frame)
      ensures more <==> endpoint.isClient || (content.Ok? && (reply.None? || !writerGone))
      ensures endpoint.Sends(cOut, Applied(cOut, dOut, AckOf(content)))
      ensures Reads(cIn, TakenIf(cIn, s, r, frame, DataOf(content).Some?), r)
      ensures counted <==> Counts(cIn, s.d, DataOf(content), endpoint.isClient)
      ensures reply == if endpoint.isClient then None else AnswerTo(content)
    {
      var opens := endpoint.session.DecryptIncoming(endpoint.aead, frame, endpoint.isClient);
      content := opens;
      assert cIn.codec.open(frame) == DataOf(content);
      if opens.Err? { return false, None, endpoint.isClient, content; }
      counted, reply := OnChunk(opens.value, frame, cIn, s, r, cOut, dOut);
      more := endpoint.isClient || reply.None? || !writerGone;
    }

    /** A loop that is the only reader hands over all it has, and the application then has the whole
        stream. */
    method HandOverAll(ghost c: Config, ghost s: Delivery)
      requires endpoint.Valid() && Reads(c, s, 0) && InARow(s) && |s.hands| == 1
      modifies this`hand, outlet
      ensures hand == [] && outlet.written == s.d.recv.stream
    {
      ghost var t := s;
      while hand != []
        invariant Reads(c, t, 0) && InARow(t) && |t.hands| == 1 && t.d == s.d
        decreases |hand|
      {
        HandOverNext(c, t, 0);
        ForwardInARow(t, 0);
        t := Go(c, t, Forward(0));
      }
      AllOfEmpty(t.hands);
    }

    /** A frame at the client, whose loop hands over whatever it drained before it goes on. */
    method ClientFrame(frame: Bytes, ghost cIn: Config, ghost dIn: Direction, ghost cOut: Config, ghost dOut: Direction)
      returns (counted: bool, ghost content: Result<Chunk, ProtocolError>)
      requires endpoint.Valid() && endpoint.Sends(cOut, dOut)
      requires Reads(cIn, Solo(dIn), 0) && Expected(cIn, Solo(dIn), 0, frame, endpoint.Opens(frame), dOut)
      modifies this`hand, endpoint.session, endpoint.sendBuffer, endpoint.recvBuffer, outlet
      ensures endpoint.Valid() && hand == []
      ensures content == endpoint.Opens(frame) && (counted <==> Counts(cIn, dIn, DataOf(content), endpoint.isClient))
      ensures endpoint.Sends(cOut, Applied(cOut, dOut, AckOf(content)))
      ensures var t := if DataOf(content).Some? then Next(cIn, dIn, Deliver(frame)) else dIn;
        endpoint.Receives(cIn, t) && outlet.written == t.recv.stream
    {
      var pong, more;
      counted, pong, more, content := OnFrame(frame, false, cIn, Solo(dIn), 0, cOut, dOut);
      if DataOf(content).Some? { SoloTakes(cIn, dIn, frame); }
      HandOverAll(cIn, TakenIf(cIn, Solo(dIn), 0, frame, DataOf(content).Some?));
    }

    /** A turn of the client's loop, which drains, hands over and acknowledges before it reads on: after
        every turn the application has been handed the whole stream, and an ack is the one the new state
        calls for. */
    method ClientTurn(frame: Bytes, late: bool,
                      ghost cIn: Config, ghost dIn: Direction, ghost cOut: Config, ghost dOut: Direction)
      returns (reply: Option<ControlMessage>, ghost content: Result<Chunk, ProtocolError>)
      requires endpoint.isClient && endpoint.Valid() && endpoint.Sends(cOut, dOut)
      requires Reads(cIn, Solo(dIn), 0) && Expected(cIn, Solo(dIn), 0, frame, endpoint.Opens(frame), dOut)
      modifies this, endpoint.session, endpoint.sendBuffer, endpoint.recvBuffer, outlet
      ensures endpoint.Valid() && hand == []
      ensures content == endpoint.Opens(frame)
      ensures endpoint.Sends(cOut, Applied(cOut, dOut, AckOf(content)))
      ensures var t := if DataOf(content).Some? then Next(cIn, dIn, Deliver(frame)) else dIn;
        endpoint.Receives(cIn, t) && outlet.written == t.recv.stream
        && (reply.Some? ==> IsAckMessage(t.recv, reply.value))
      ensures var counted := Counts(cIn, dIn, DataOf(content), true);
        && (reply.Some? <==> counted && (late || old(unackedChunks) + 1 >= 32))
        && unackedChunks == if reply.Some? then 0 else old(unackedChunks) + if counted then 1 else 0
    {
      var counted;
      counted, content := ClientFrame(frame, cIn, dIn, cOut, dOut);
      reply := None;
      if counted {
        var more;
        reply, more := AckIfDue(late, false);
      }
    }
  }

  /** One acknowledgement from end to end: what `receiver` builds for its state, sent as a control chunk and
      read by the sender's loop. Exactly the retained chunks that it does not report stay retained; with
      room in it for every run that is held, those are the ones that have not been received. */
  method AckExchange(receiver: Endpoint, sender: Reader, padding: Bytes, connection: Connection,
                     ghost c: Config, ghost d: Direction, ghost back: Config, ghost s: Delivery, ghost r: nat)
    returns (arrived: bool, ghost ranges: seq<SackRange>)
    requires receiver.Valid() && sender.endpoint.Valid() && TwoEnds(receiver, sender.endpoint)
    requires sender.endpoint.Sends(c, d) && receiver.Receives(c, d)
    requires receiver.Sends(back, s.d) && sender.Reads(back, s, r) && |padding| < 0x20
    modifies receiver.session, connection, sender`hand
    modifies sender.endpoint.session, sender.endpoint.sendBuffer, sender.endpoint.recvBuffer
    ensures arrived <==> old(receiver.session.sendSeq) < MAX_NONCE && old(connection.remaining) > 0
    ensures !arrived ==> sender.endpoint.sendBuffer.chunks == old(sender.endpoint.sendBuffer.chunks)
    ensures arrived ==> IsAck(receiver.recvBuffer.Model(), receiver.recvBuffer.nextExpected, ranges)
    ensures arrived ==> KeepsUnreported(old(sender.endpoint.sendBuffer.chunks), sender.endpoint.sendBuffer.chunks,
                                        receiver.recvBuffer.nextExpected, receiver.recvBuffer.pending, ranges)
  {
    var frame;
    frame, ranges := SendAck(receiver, padding, connection, back, s.d);
    if frame.None? { return false, ranges; }
    ghost var next := receiver.recvBuffer.nextExpected;
    TakeAck(sender, frame.value, next, ranges, c, Next(c, d, Acknowledge(ranges)), back, s, r);
    UnreportedStay(old(sender.endpoint.sendBuffer.chunks), receiver.recvBuffer.Model(), ranges);
    return true, ranges;
  }

  /** The frame that carries an end's ack, if it was sent. */
  method SendAck(e: Endpoint, padding: Bytes, connection: Connection, ghost c: Config, ghost d: Direction)
    returns (frame: Option<Bytes>, ghost ranges: seq<SackRange>)
    requires e.Valid() && e.Sends(c, d) && |padding| < 0x20
    modifies e.session, connection
    ensures frame.Some? <==> old(e.session.sendSeq) < MAX_NONCE && old(connection.remaining) > 0
    ensures frame.Some? ==>
      && IsAck(e.recvBuffer.Model(), e.recvBuffer.nextExpected, ranges)
      && AckOf(DecodeSequenced(e.aead, frame.value, e.session.WriteKey(e.isClient)))
         == Some(AckInfo(e.recvBuffer.nextExpected, ranges))
  {
    ranges := [];
    var ack := e.recvBuffer.BuildAck();
    AckTravels(e.recvBuffer.Model(), ack);
    var sent := e.SendControl(ack, padding, connection, c, d);
    if sent != Some(true) { return None, ranges; }
    return Some(connection.sent[|connection.sent| - 1]), ack.ranges;
  }

  /** A frame that carries an ack releases exactly what the ack covers. */
  method TakeAck(reader: Reader, frame: Bytes, ghost next: U64, ghost ranges: seq<SackRange>,
                 ghost c: Config, ghost d: Direction, ghost back: Config, ghost s: Delivery, ghost r: nat)
    requires reader.endpoint.Valid() && reader.endpoint.Sends(c, d) && reader.Reads(back, s, r)
    requires AckOf(reader.endpoint.Opens(frame)) == Some(AckInfo(next, ranges)) && AckInfo(next, ranges) in d.acks
    modifies reader`hand, reader.endpoint.session, reader.endpoint.sendBuffer, reader.endpoint.recvBuffer
    ensures reader.endpoint.sendBuffer.chunks == Release(old(reader.endpoint.sendBuffer.chunks), next, ranges)
  {
    ghost var before := reader.endpoint.sendBuffer.chunks;
    AckExpected(back, s, r, frame, reader.endpoint.Opens(frame), d, AckInfo(next, ranges));
    var counted, reply, more, content := reader.OnFrame(frame, false, back, s, r, c, d);
    AppliedReleases(c, d, AckInfo(next, ranges));
    assert before == d.buffer;
  }

  /** The two ends of one session, each with its own state. */
  ghost predicate TwoEnds(a: Endpoint, b: Endpoint) {
    && a.aead == b.aead && a.isClient != b.isClient
    && a.session.clientWriteKey == b.session.clientWriteKey && a.session.serverWriteKey == b.session.serverWriteKey
    && a.session != b.session && a.sendBuffer != b.sendBuffer && a.recvBuffer != b.recvBuffer
  }

  /** Of the retained chunks exactly those stay that an ack with this position and these ranges does not
      report; with room in it for another run, those that are neither below the position nor held. */
  ghost predicate KeepsUnreported(before: Chunks, after: Chunks, next: nat, held: map<nat, Bytes>,
                                  ranges: seq<SackRange>) {
    && (forall k :: k in after ==> k in before && after[k] == before[k])
    && (forall k :: k in before ==>
          (k in after <==> k >= next && forall i :: 0 <= i < |ranges| ==> !(ranges[i].start <= k <= ranges[i].end)))
    && (|ranges| < 32 ==> forall k :: k in before ==> (k in after <==> k >= next && k !in held))
  }

  lemma UnreportedStay(chunks: Chunks, r: Recv, ranges: seq<SackRange>)
    requires IsAck(r, r.next, ranges)
    ensures KeepsUnreported(chunks, Release(chunks, r.next, ranges), r.next, r.pending, ranges)
  {
  }

  lemma AppliedReleases(c: Config, d: Direction, ack: AckInfo)
    requires ack in d.acks
    ensures Applied(c, d, Some(ack)).buffer == Release(d.buffer, ack.next, ack.ranges)
  {
  }

  lemma AckExpected(c: Config, s: Delivery, r: nat, frame: Bytes, content: Result<Chunk, ProtocolError>,
                    peer: Direction, ack: AckInfo)
    requires AckOf(content) == Some(ack) && ack in peer.acks
    ensures DataOf(content).None? && Expected(c, s, r, frame, content, peer)
  {
  }

  /** In a session the position stays below the nonce limit, so it never overflows. */
  lemma NoOverflow(c: Config, d: Direction, frame: Bytes)
    requires Inv(c, d) && Enabled(c, d, Deliver(frame))
    ensures Next(c, d, Deliver(frame)).recv.next <= MAX_NONCE
  {
    var t := Next(c, d, Deliver(frame));
    StepInv(c, d, Deliver(frame));
    TrackedStream(t.log, Sink(t.recv, t.got));
  }

  /** Whatever a client and a server of one session have sent: no key and nonce twice between them. */
  lemma EndsNeverShareANonce(client: Endpoint, server: Endpoint, i: nat, j: nat)
    requires client.Valid() && server.Valid() && client.isClient && !server.isClient
    requires client.session.clientWriteKey == server.session.clientWriteKey
    requires client.session.serverWriteKey == server.session.serverWriteKey
    requires client.session.clientWriteKey != client.session.serverWriteKey
    requires i < j < |client.session.issued + server.session.issued|
    ensures var all := client.session.issued + server.session.issued;
      (all[i].key, all[i].nonce) != (all[j].key, all[j].nonce)
  {
    KeyAndNonceOnce(client.session, server.session, i, j);
  }

  /** Both ends of a new session are at the start of both its directions. */
  lemma FreshEndpoint(e: Endpoint, peerSend: nat, peerReceive: nat)
    requires e.Valid() && e.session.sendSeq == 0 && e.sendBuffer.chunks == map[] && e.recvBuffer.Model() == EMPTY
    ensures var mine, theirs := e.session.WriteKey(e.isClient), e.session.WriteKey(!e.isClient);
      && e.Sends(Config(WireCodec(e.aead, mine), e.sendBuffer.maxBytes, peerReceive), START)
      && e.Receives(Config(WireCodec(e.aead, theirs), peerSend, e.recvBuffer.maxBytes), START)
  {
    WireCodecSpeaks(e.aead, e.session.WriteKey(e.isClient));
    WireCodecSpeaks(e.aead, e.session.WriteKey(!e.isClient));
  }

  function OnlyIf(b: bool, frame: Bytes): seq<Bytes> { if b then [frame] else [] }

  /** The control message a frame opens to, if any. */
  function ControlOf(r: Result<Chunk, ProtocolError>): Option<ControlMessage> {
    if IsControl(r) then
      match DecodeControl(r.value.payload)
      case Ok(m) => Some(m)
      case Err(_) => None
    else None
  }

  function AckIn(payload: Bytes): Option<AckInfo> {
    match DecodeControl(payload)
    case Ok(Ack(next, ranges)) => Some(AckInfo(next, ranges))
    case _ => None
  }

  /** Every ack that a peer may send is read as the position and the ranges that it states. */
  lemma AckIsRead(next: U64, ranges: seq<SackRange>)
    requires Sendable(Ack(next, ranges))
    ensures AckIn(EncodeControl(Ack(next, ranges))) == Some(AckInfo(next, ranges))
    ensures PongTo(EncodeControl(Ack(next, ranges))) == None
  {
    ControlRoundTrip(Ack(next, ranges));
  }

  lemma PingIsRead(timestamp: U64)
    ensures PongTo(EncodeControl(Ping(timestamp))) == Some(Pong(timestamp))
    ensures AckIn(EncodeControl(Ping(timestamp))) == None
  {
    ControlRoundTrip(Ping(timestamp));
  }

  /** A ping is answered with its timestamp. */
  function PongTo(payload: Bytes): Option<ControlMessage> {
    match DecodeControl(payload)
    case Ok(Ping(t)) => Some(Pong(t))
    case _ => None
  }

  predicate IsControl(r: Result<Chunk, ProtocolError>) { r.Ok? && r.value.header.chunkType == Control }

  function AckOf(r: Result<Chunk, ProtocolError>): Option<AckInfo> {
    if IsControl(r) then AckIn(r.value.payload) else None
  }

  function AnswerTo(r: Result<Chunk, ProtocolError>): Option<ControlMessage> {
    if IsControl(r) then PongTo(r.value.payload) else None
  }

  ghost function Applied(c: Config, d: Direction, ack: Option<AckInfo>): Direction
    requires ack.Some? ==> ack.value in d.acks
  {
    match ack
    case Some(a) => Next(c, d, Apply(a))
    case None => d
  }

  ghost predicate IsAckMessage(r: Recv, m: ControlMessage) { m.Ack? && IsAck(r, m.nextExpected, m.ranges) }

  lemma ControlOpens(aead: Aead, key: Bytes, m: ControlMessage, sequence: U64, padding: Bytes)
    requires Sendable(m) && |padding| < 0x100
    ensures ControlOf(DecodeSequenced(aead,
              EncodeSequenced(aead, NewChunk(Control, EncodeControl(m), |padding|), key, sequence, padding), key))
         == Some(m)
  {
    ControlSize(m);
    SequencedRoundTrip(aead, key, Control, EncodeControl(m), sequence, padding);
    ControlRoundTrip(m);
  }

  /** Every sendable control message fits one chunk. */
  lemma ControlSize(m: ControlMessage)
    requires Sendable(m)
    ensures |EncodeControl(m)| <= 522
  {
  }

  /** The acknowledgement a state calls for is one the peer reads back as it was sent. */
  lemma AckTravels(r: Recv, m: ControlMessage)
    requires IsAckMessage(r, m)
    ensures Sendable(m) && DecodeControl(EncodeControl(m)) == Ok(m)
  {
    ControlRoundTrip(m);
  }
}
