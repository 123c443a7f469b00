/** The wire format of `wire.rs`: chunk headers, sealed chunks, control messages, proxy requests
    and stream framing. Encoders truncate lengths exactly as the casts of the source do, so every
    round trip is stated together with the length condition it needs. */
module Wire {
  import opened Prelude
  import opened Crypto
  import opened BigEndian

  const PROTOCOL_VERSION: byte := 1
  const HEADER_SIZE: nat := 13
  const MAX_PAYLOAD_SIZE: nat := 65535
  const MAX_SACK_RANGES: nat := 32

  /** The slices of a concatenation at its inner seams. */
  lemma Seams(a: Bytes, b: Bytes, c: Bytes, d: Bytes)
    ensures (a + b + c + d)[|a|..|a| + |b|] == b
    ensures (a + b + c + d)[|a| + |b|..|a| + |b| + |c|] == c
  {
  }

  // ---------------------------------------------------------------- chunks

  datatype ChunkType = Handshake | Data | Control | Padding | Resume

  function TypeByte(t: ChunkType): byte {
    match t
    case Handshake => 1
    case Data => 2
    case Control => 3
    case Padding => 4
    case Resume => 5
  }

  function TypeFromByte(b: byte): Result<ChunkType, ProtocolError> {
    match b
    case 1 => Ok(Handshake)
    case 2 => Ok(Data)
    case 3 => Ok(Control)
    case 4 => Ok(Padding)
    case 5 => Ok(Resume)
    case _ => Err(InvalidChunk)
  }

  datatype ChunkHeader = ChunkHeader(
    version: byte, chunkType: ChunkType, sequence: U64, payloadLength: U16, paddingLength: byte)

  function EncodeHeader(h: ChunkHeader): (b: Bytes)
    ensures |b| == HEADER_SIZE
  {
    [h.version, TypeByte(h.chunkType)] + PutU64(h.sequence) + PutU16(h.payloadLength) + [h.paddingLength]
  }

  function DecodeHeader(data: Bytes): Result<ChunkHeader, ProtocolError> {
    if |data| < HEADER_SIZE then Err(BufferTooShort(HEADER_SIZE, |data|))
    else if data[0] != PROTOCOL_VERSION then Err(UnsupportedVersion(data[0]))
    else
      match TypeFromByte(data[1])
      case Err(e) => Err(e)
      case Ok(t) => Ok(ChunkHeader(data[0], t, U64At(data, 2), U16At(data, 10), data[12]))
  }

  /** Every header of this version survives the wire, whatever follows it; no other does. */
  lemma HeaderRoundTrip(h: ChunkHeader, body: Bytes)
    ensures DecodeHeader(EncodeHeader(h) + body) == Ok(h) <==> h.version == PROTOCOL_VERSION
  {
    var head := [h.version, TypeByte(h.chunkType)];
    var data := EncodeHeader(h) + body;
    assert data[2..10] == PutU64(h.sequence);
    assert data[10..12] == PutU16(h.payloadLength);
  }

  /** What the bytes of a header are: version, type, sequence and payload length, most significant byte
      first, and padding length. */
  lemma HeaderLayout(h: ChunkHeader)
    ensures var b := EncodeHeader(h);
      && b[0] == h.version && b[12] == h.paddingLength
      && b[1] == (match h.chunkType
                  case Handshake => 1 case Data => 2 case Control => 3 case Padding => 4 case Resume => 5)
      && IsBigEndian(b[2..10], h.sequence) && IsBigEndian(b[10..12], h.payloadLength)
  {
    var b := EncodeHeader(h);
    assert b[2..10] == PutU64(h.sequence) && b[10..12] == PutU16(h.payloadLength);
    BigEndian64(h.sequence);
    BigEndian16(h.payloadLength);
  }

  /** A header that can be read is the one that is written with the same bytes. */
  lemma HeaderReadBack(data: Bytes)
    requires DecodeHeader(data).Ok?
    ensures |data| >= HEADER_SIZE && EncodeHeader(DecodeHeader(data).value) == data[..HEADER_SIZE]
    ensures PutU64(DecodeHeader(data).value.sequence) == data[2..10]
  {
    PutU64OfBytes(data[2..10]);
    PutU16OfBytes(data[10..12]);
    assert data[..HEADER_SIZE] == [data[0], data[1]] + data[2..10] + data[10..12] + [data[12]];
  }

  function BodySize(h: ChunkHeader): nat { h.payloadLength + h.paddingLength + TAG_SIZE }

  datatype Chunk = Chunk(header: ChunkHeader, payload: Bytes)

  /** `Chunk::new_*`: the payload length is a truncating cast. */
  function NewChunk(t: ChunkType, payload: Bytes, paddingLength: byte): Chunk {
    Chunk(ChunkHeader(PROTOCOL_VERSION, t, 0, |payload| % 0x1_0000, paddingLength), payload)
  }

  /** `encode_encrypted`, with the random padding bytes passed in. */
  function EncodeEncrypted(aead: Aead, chunk: Chunk, key: Bytes, nonce: Bytes, padding: Bytes): Bytes {
    var head := EncodeHeader(chunk.header);
    head + aead.seal(key, nonce, chunk.payload + padding, head)
  }

  function DecodeEncrypted(aead: Aead, data: Bytes, key: Bytes, nonce: Bytes): Result<Chunk, ProtocolError> {
    match DecodeHeader(data)
    case Err(e) => Err(e)
    case Ok(h) =>
      var total := HEADER_SIZE + BodySize(h);
      if |data| < total then Err(BufferTooShort(total, |data|))
      else
        match aead.open(key, nonce, data[HEADER_SIZE..total], data[..HEADER_SIZE])
        case None => Err(Crypto)
        case Some(plaintext) => Ok(Chunk(h, plaintext[..h.payloadLength]))
  }

  function EncodeSequenced(aead: Aead, chunk: Chunk, key: Bytes, sequence: U64, padding: Bytes): Bytes {
    EncodeEncrypted(aead, chunk.(header := chunk.header.(sequence := sequence)), key,
                    NonceFromSequence(sequence), padding)
  }

  function DecodeSequenced(aead: Aead, data: Bytes, key: Bytes): Result<Chunk, ProtocolError> {
    match DecodeHeader(data)
    case Err(e) => Err(e)
    case Ok(h) => DecodeEncrypted(aead, data, key, NonceFromSequence(h.sequence))
  }

  /** `data` opens to `chunk` under `key`: its first thirteen bytes are the header and the associated data,
      the nonce is four zero bytes and the sequence field as it stands there, and the body, as long as the
      header says, opens to the payload and the padding. */
  ghost predicate OpenedAs(aead: Aead, data: Bytes, key: Bytes, chunk: Chunk) {
    var end := 13 + chunk.header.payloadLength + chunk.header.paddingLength + 16;
    && |data| >= end && data[..13] == EncodeHeader(chunk.header)
    && var plain := aead.open(key, [0, 0, 0, 0] + data[2..10], data[13..end], data[..13]);
       plain.Some? && |plain.value| == chunk.header.payloadLength + chunk.header.paddingLength
       && chunk.payload == plain.value[..chunk.header.payloadLength]
  }

  lemma OpensExactly(aead: Aead, data: Bytes, key: Bytes)
    ensures forall chunk :: DecodeSequenced(aead, data, key) == Ok(chunk) ==> OpenedAs(aead, data, key, chunk)
  {
    if DecodeHeader(data).Ok? { HeaderReadBack(data); }
  }

  /** A sealed chunk opens to its own type, payload and sequence exactly when its payload fits the
      16-bit length field, for every padding and over every lawful AEAD. */
  lemma SequencedRoundTrip(aead: Aead, key: Bytes, t: ChunkType, payload: Bytes, sequence: U64, padding: Bytes)
    requires |padding| < 0x100
    ensures var chunk := NewChunk(t, payload, |padding|);
            DecodeSequenced(aead, EncodeSequenced(aead, chunk, key, sequence, padding), key)
              == Ok(chunk.(header := chunk.header.(sequence := sequence)))
            <==> |payload| <= MAX_PAYLOAD_SIZE
  {
    var chunk := NewChunk(t, payload, |padding|);
    var h := chunk.header.(sequence := sequence);
    var nonce := NonceFromSequence(sequence);
    var body := aead.seal(key, nonce, payload + padding, EncodeHeader(h));
    var data := EncodeSequenced(aead, chunk, key, sequence, padding);
    HeaderRoundTrip(h, body);
    assert data[..HEADER_SIZE] == EncodeHeader(h);
    if |payload| <= MAX_PAYLOAD_SIZE {
      assert data[HEADER_SIZE..HEADER_SIZE + BodySize(h)] == body;
      assert (payload + padding)[..|payload|] == payload;
    }
  }

  // ------------------------------------------------------- control messages

  datatype SackRange = SackRange(start: U64, end: U64)

  predicate Covers(ranges: seq<SackRange>, k: nat) {
    exists i :: 0 <= i < |ranges| && ranges[i].start <= k <= ranges[i].end
  }

  /** The numbers an ack acknowledges: everything below the cumulative point, and the ranges. */
  predicate Acked(k: nat, next: nat, ranges: seq<SackRange>) { k < next || Covers(ranges, k) }

  datatype DisconnectReason = ClientClose | ServerClose | AuthFailed | TrafficExceeded | Expired | Timeout

  /** The control messages that `decode` knows how to read back. */
  datatype ControlMessage =
    | Ping(timestamp: U64)
    | Pong(timestamp: U64)
    | Disconnect(reason: DisconnectReason)
    | Ack(nextExpected: U64, ranges: seq<SackRange>)

  function ReasonByte(r: DisconnectReason): byte {
    match r
    case ClientClose => 0
    case ServerClose => 1
    case AuthFailed => 2
    case TrafficExceeded => 3
    case Expired => 4
    case Timeout => 5
  }

  function ReasonFromByte(b: byte): Result<DisconnectReason, ProtocolError> {
    match b
    case 0 => Ok(ClientClose)
    case 1 => Ok(ServerClose)
    case 2 => Ok(AuthFailed)
    case 3 => Ok(TrafficExceeded)
    case 4 => Ok(Expired)
    case 5 => Ok(Timeout)
    case _ => Err(InvalidChunk)
  }

  function EncodeRanges(ranges: seq<SackRange>): (b: Bytes)
    ensures |b| == 16 * |ranges|
  {
    if ranges == [] then []
    else PutU64(ranges[0].start) + PutU64(ranges[0].end) + EncodeRanges(ranges[1..])
  }

  function EncodeControl(m: ControlMessage): Bytes {
    match m
    case Ping(t) => [1] + PutU64(t)
    case Pong(t) => [2] + PutU64(t)
    case Disconnect(r) => [6, ReasonByte(r)]
    case Ack(next, ranges) => [7] + PutU64(next) + [|ranges| % 0x100] + EncodeRanges(ranges)
  }

  function DecodeRanges(data: Bytes, count: nat): (ranges: seq<SackRange>)
    requires |data| >= 16 * count
    ensures |ranges| == count
  {
    if count == 0 then []
    else [SackRange(U64At(data, 0), U64At(data, 8))] + DecodeRanges(data[16..], count - 1)
  }

  function DecodeAck(data: Bytes): Result<ControlMessage, ProtocolError>
    requires |data| >= 10
  {
    var count: nat := data[9];
    if count > MAX_SACK_RANGES then Err(InvalidChunk)
    else if |data| < 10 + 16 * count then Err(BufferTooShort(10 + 16 * count, |data|))
    else
      var next, ranges := U64At(data, 1), DecodeRanges(data[10..], count);
      if Canonical(next, ranges) then Ok(Ack(next, ranges)) else Err(InvalidChunk)
  }

  function DecodeControl(data: Bytes): Result<ControlMessage, ProtocolError> {
    if data == [] then Err(InvalidChunk)
    else if data[0] == 1 || data[0] == 2 then
      if |data| < 9 then Err(BufferTooShort(9, |data|))
      else Ok(if data[0] == 1 then Ping(U64At(data, 1)) else Pong(U64At(data, 1)))
    else if data[0] == 6 then
      if |data| < 2 then Err(BufferTooShort(2, |data|))
      else
        match ReasonFromByte(data[1])
        case Err(e) => Err(e)
        case Ok(r) => Ok(Disconnect(r))
    else if data[0] == 7 then
      if |data| < 10 then Err(BufferTooShort(10, |data|))
      else DecodeAck(data)
    else Err(InvalidChunk)
  }

  /** The canonical form of an ack: well-formed ranges, ascending, with a gap after the cumulative
      point and between neighbours. `floor` is the number the next range must start above. */
  predicate CanonicalFrom(floor: nat, ranges: seq<SackRange>)
    decreases |ranges|
  {
    ranges == [] ||
    (ranges[0].start <= ranges[0].end && ranges[0].start > floor && CanonicalFrom(ranges[0].end + 1, ranges[1..]))
  }

  predicate Canonical(nextExpected: nat, ranges: seq<SackRange>) { CanonicalFrom(nextExpected, ranges) }

  /** `validate_sack_ranges`: one pass with a moving floor decides the canonical form. */
  method ValidateSackRanges(nextExpected: U64, ranges: seq<SackRange>) returns (r: Result<(), ProtocolError>)
    ensures r.Ok? <==> Canonical(nextExpected, ranges)
    ensures r.Err? ==> r.error == InvalidChunk
  {
    var floor: nat := nextExpected;
    var i := 0;
    while i < |ranges|
      invariant 0 <= i <= |ranges|
      invariant Canonical(nextExpected, ranges) <==> CanonicalFrom(floor, ranges[i..])
    {
      assert ranges[i..][1..] == ranges[i + 1..];
      if ranges[i].start > ranges[i].end { return Err(InvalidChunk); }
      if ranges[i].start <= floor { return Err(InvalidChunk); }
      floor := ranges[i].end + 1;
      i := i + 1;
    }
    return Ok(());
  }

  /** What the canonical form means, without a moving floor. */
  lemma {:induction false} CanonicalMeans(floor: nat, ranges: seq<SackRange>)
    ensures CanonicalFrom(floor, ranges) <==>
      && (forall i :: 0 <= i < |ranges| ==> floor < ranges[i].start <= ranges[i].end)
      && (forall i, j :: 0 <= i < j < |ranges| ==> ranges[i].end + 1 < ranges[j].start)
    decreases |ranges|
  {
    if ranges != [] {
      var rest := ranges[1..];
      CanonicalMeans(ranges[0].end + 1, rest);
      assert forall i :: 0 < i < |ranges| ==> ranges[i] == rest[i - 1];
      if CanonicalFrom(floor, ranges) {
        forall i, j | 0 <= i < j < |ranges| ensures ranges[i].end + 1 < ranges[j].start {
          assert ranges[j] == rest[j - 1];
        }
      } else if ranges[0].start <= ranges[0].end && ranges[0].start > floor {
        assert !CanonicalFrom(ranges[0].end + 1, rest);
        if forall i, j :: 0 <= i < j < |ranges| ==> ranges[i].end + 1 < ranges[j].start {
          assert forall i, j :: 0 <= i < j < |rest| ==> rest[i] == ranges[i + 1] && rest[j] == ranges[j + 1];
        }
      }
    }
  }

  lemma {:induction false} RangesRoundTrip(ranges: seq<SackRange>)
    ensures DecodeRanges(EncodeRanges(ranges), |ranges|) == ranges
  {
    if ranges != [] {
      RangesRoundTrip(ranges[1..]);
      var b := EncodeRanges(ranges);
      assert b[0..8] == PutU64(ranges[0].start);
      assert b[8..16] == PutU64(ranges[0].end);
      assert b[16..] == EncodeRanges(ranges[1..]);
    }
  }

  /** Which control messages a peer reads back as they were sent: all of them, except acks that
      carry more ranges than the protocol allows or are not canonical. */
  predicate Sendable(m: ControlMessage) {
    m.Ack? ==> |m.ranges| <= MAX_SACK_RANGES && Canonical(m.nextExpected, m.ranges)
  }

  /** An ack whose range count fits its byte, and one whose count is truncated. */
  lemma AckWhole(b: Bytes, next: U64, ranges: seq<SackRange>)
    requires |b| == 10 + 16 * |ranges| && |ranges| < 0x100 && b[9] == |ranges|
    requires U64At(b, 1) == next && DecodeRanges(b[10..], |ranges|) == ranges
    ensures DecodeAck(b) == Ok(Ack(next, ranges)) <==> Sendable(Ack(next, ranges))
  {
  }

  lemma AckTruncated(b: Bytes, next: U64, ranges: seq<SackRange>)
    requires |b| >= 10 && |ranges| >= 0x100
    ensures DecodeAck(b) != Ok(Ack(next, ranges)) && !Sendable(Ack(next, ranges))
  {
    var count: nat := b[9];
    assert count < |ranges|;
  }

  lemma AckFields(b: Bytes, next: U64, ranges: seq<SackRange>)
    requires |b| == 10 + 16 * |ranges| && b[9] == |ranges| % 0x100
    requires U64At(b, 1) == next && DecodeRanges(b[10..], |ranges|) == ranges
    ensures DecodeAck(b) == Ok(Ack(next, ranges)) <==> Sendable(Ack(next, ranges))
  {
    if |ranges| < 0x100 { AckWhole(b, next, ranges); } else { AckTruncated(b, next, ranges); }
  }

  lemma AckParts(next: U64, ranges: seq<SackRange>)
    ensures var b := EncodeControl(Ack(next, ranges));
      && |b| == 10 + 16 * |ranges| && b[9] == |ranges| % 0x100
      && b[1..9] == PutU64(next) && b[10..] == EncodeRanges(ranges)
  {
    Seams([7], PutU64(next), [|ranges| % 0x100], EncodeRanges(ranges));
  }

  lemma AckRoundTrip(next: U64, ranges: seq<SackRange>)
    ensures DecodeAck(EncodeControl(Ack(next, ranges))) == Ok(Ack(next, ranges)) <==> Sendable(Ack(next, ranges))
  {
    var b := EncodeControl(Ack(next, ranges));
    AckParts(next, ranges);
    ReadsU64(b, 1, next);
    RangesRoundTrip(ranges);
    AckFields(b, next, ranges);
  }

  /** What a control message is on the wire: its tag, and then its numbers, most significant byte first. */
  lemma ControlLayout(m: ControlMessage)
    ensures var b := EncodeControl(m);
      match m
      case Ping(t) => b[0] == 1 && |b| == 9 && IsBigEndian(b[1..], t)
      case Pong(t) => b[0] == 2 && |b| == 9 && IsBigEndian(b[1..], t)
      case Disconnect(r) =>
        b[0] == 6 && |b| == 2
        && b[1] == (match r case ClientClose => 0 case ServerClose => 1 case AuthFailed => 2
                            case TrafficExceeded => 3 case Expired => 4 case Timeout => 5)
      case Ack(next, ranges) =>
        b[0] == 7 && |b| == 10 + 16 * |ranges| && IsBigEndian(b[1..9], next) && b[9] == |ranges| % 0x100
  {
    var b := EncodeControl(m);
    match m
    case Ping(t) => BigEndian64(t); assert b[1..] == PutU64(t);
    case Pong(t) => BigEndian64(t); assert b[1..] == PutU64(t);
    case Disconnect(_) =>
    case Ack(next, ranges) => BigEndian64(next); AckParts(next, ranges);
  }

  lemma Behind(front: Bytes, rest: Bytes, from: nat, to: nat)
    requires from <= to <= |rest|
    ensures (front + rest)[|front| + from..|front| + to] == rest[from..to]
  {
  }

  lemma {:induction false} RangesLayout(ranges: seq<SackRange>, i: nat)
    requires i < |ranges|
    ensures var b := EncodeRanges(ranges);
      IsBigEndian(b[16 * i..16 * i + 8], ranges[i].start) && IsBigEndian(b[16 * i + 8..16 * i + 16], ranges[i].end)
    decreases |ranges|
  {
    var b, front := EncodeRanges(ranges), PutU64(ranges[0].start) + PutU64(ranges[0].end);
    assert b == front + EncodeRanges(ranges[1..]) && |front| == 16;
    if i == 0 {
      assert b[0..8] == PutU64(ranges[0].start) && b[8..16] == PutU64(ranges[0].end);
      BigEndian64(ranges[0].start);
      BigEndian64(ranges[0].end);
    } else {
      RangesLayout(ranges[1..], i - 1);
      var at := 16 * (i - 1);
      Behind(front, EncodeRanges(ranges[1..]), at, at + 8);
      Behind(front, EncodeRanges(ranges[1..]), at + 8, at + 16);
    }
  }

  lemma ControlRoundTrip(m: ControlMessage)
    ensures DecodeControl(EncodeControl(m)) == Ok(m) <==> Sendable(m)
  {
    var b := EncodeControl(m);
    match m
    case Ping(t) => assert b[1..9] == PutU64(t);
    case Pong(t) => assert b[1..9] == PutU64(t);
    case Disconnect(_) =>
    case Ack(next, ranges) => AckRoundTrip(next, ranges);
  }

  // -------------------------------------------------------- proxy requests

  /** Addresses are the bytes of a valid UTF-8 string, on which the lossy decoding is the identity. */
  datatype ProxyRequest =
    | TcpConnect(address: Bytes, port: U16)
    | UdpDatagram(sessionId: U32, address: Bytes, port: U16, data: Bytes)
    | DnsQuery(id: U16, query: Bytes)

  function EncodeProxy(p: ProxyRequest): Bytes {
    match p
    case TcpConnect(address, port) => [1, |address| % 0x100] + address + PutU16(port)
    case UdpDatagram(sid, address, port, data) =>
      [2] + PutU32(sid) + [|address| % 0x100] + address + PutU16(port) + PutU16(|data| % 0x1_0000) + data
    case DnsQuery(id, query) => [3] + PutU16(id) + PutU16(|query| % 0x1_0000) + query
  }

  function DecodeTcp(data: Bytes): Result<ProxyRequest, ProtocolError> {
    if |data| < 4 then Err(BufferTooShort(4, |data|))
    else
      var n: nat := data[1];
      if |data| < 2 + n + 2 then Err(BufferTooShort(2 + n + 2, |data|))
      else Ok(TcpConnect(data[2..2 + n], U16At(data, 2 + n)))
  }

  function DecodeUdp(data: Bytes): Result<ProxyRequest, ProtocolError> {
    if |data| < 8 then Err(BufferTooShort(8, |data|))
    else
      var length: nat := data[5];
      var offset := 6 + length;
      if |data| < offset + 4 then Err(BufferTooShort(offset + 4, |data|))
      else
        var start, n := offset + 4, U16At(data, offset + 2);
        if |data| < start + n then Err(BufferTooShort(start + n, |data|))
        else Ok(UdpDatagram(U32At(data, 1), data[6..offset], U16At(data, offset), data[start..start + n]))
  }

  function DecodeDns(data: Bytes): Result<ProxyRequest, ProtocolError> {
    if |data| < 5 then Err(BufferTooShort(5, |data|))
    else
      var n := U16At(data, 3);
      if |data| < 5 + n then Err(BufferTooShort(5 + n, |data|))
      else Ok(DnsQuery(U16At(data, 1), data[5..5 + n]))
  }

  function DecodeProxy(data: Bytes): Result<ProxyRequest, ProtocolError> {
    if data == [] then Err(InvalidChunk)
    else if data[0] == 1 then DecodeTcp(data)
    else if data[0] == 2 then DecodeUdp(data)
    else if data[0] == 3 then DecodeDns(data)
    else Err(InvalidChunk)
  }

  /** The lengths that the one-byte and two-byte length fields can carry. */
  predicate Fits(p: ProxyRequest) {
    match p
    case TcpConnect(address, _) => |address| < 0x100
    case UdpDatagram(_, address, _, data) => |address| < 0x100 && |data| < 0x1_0000
    case DnsQuery(_, query) => |query| < 0x1_0000
  }

  lemma TcpRoundTrip(address: Bytes, port: U16)
    ensures DecodeTcp(EncodeProxy(TcpConnect(address, port))) == Ok(TcpConnect(address, port)) <==> |address| < 0x100
  {
    var head: Bytes := [1, |address| % 0x100];
    if |address| < 0x100 {
      Seams(head, address, PutU16(port), []);
      assert head + address + PutU16(port) + [] == EncodeProxy(TcpConnect(address, port));
    }
  }

  lemma UdpFront(sid: U32, address: Bytes, port: U16, data: Bytes)
    ensures var b := EncodeProxy(UdpDatagram(sid, address, port, data));
      b[1..5] == PutU32(sid) && b[5] == |address| % 0x100 && b[6..6 + |address|] == address
  {
    var length := [|address| % 0x100];
    var rest := PutU16(port) + PutU16(|data| % 0x1_0000) + data;
    assert EncodeProxy(UdpDatagram(sid, address, port, data)) == [2] + PutU32(sid) + length + (address + rest);
    Seams([2], PutU32(sid), length, address + rest);
    assert EncodeProxy(UdpDatagram(sid, address, port, data)) == ([2] + PutU32(sid) + length) + address + rest + [];
    Seams([2] + PutU32(sid) + length, address, rest, []);
  }

  lemma UdpBack(sid: U32, address: Bytes, port: U16, data: Bytes)
    ensures var b, o := EncodeProxy(UdpDatagram(sid, address, port, data)), 6 + |address|;
      && b[o..o + 2] == PutU16(port) && b[o + 2..o + 4] == PutU16(|data| % 0x1_0000)
      && |b| == o + 4 + |data| && b[o + 4..o + 4 + |data|] == data
  {
    var head := [2] + PutU32(sid) + [|address| % 0x100] + address;
    Seams(head, PutU16(port), PutU16(|data| % 0x1_0000), data);
    Seams(head + PutU16(port), PutU16(|data| % 0x1_0000), data, []);
    assert head + PutU16(port) + PutU16(|data| % 0x1_0000) + data + []
        == EncodeProxy(UdpDatagram(sid, address, port, data));
  }

  lemma UdpFields(b: Bytes, p: ProxyRequest)
    requires p.UdpDatagram?
    requires var o := 6 + |p.address|;
      && |b| == o + 4 + |p.data|
      && b[1..5] == PutU32(p.sessionId) && b[5] == |p.address| % 0x100 && b[6..o] == p.address
      && b[o..o + 2] == PutU16(p.port) && b[o + 2..o + 4] == PutU16(|p.data| % 0x1_0000)
      && b[o + 4..o + 4 + |p.data|] == p.data
    ensures DecodeUdp(b) == Ok(p) <==> Fits(p)
  {
  }

  lemma UdpRoundTrip(p: ProxyRequest)
    requires p.UdpDatagram?
    ensures DecodeUdp(EncodeProxy(p)) == Ok(p) <==> Fits(p)
  {
    UdpFront(p.sessionId, p.address, p.port, p.data);
    UdpBack(p.sessionId, p.address, p.port, p.data);
    UdpFields(EncodeProxy(p), p);
  }

  lemma DnsRoundTrip(id: U16, query: Bytes)
    ensures DecodeDns(EncodeProxy(DnsQuery(id, query))) == Ok(DnsQuery(id, query)) <==> |query| < 0x1_0000
  {
    var b := EncodeProxy(DnsQuery(id, query));
    Seams([3], PutU16(id), PutU16(|query| % 0x1_0000), query);
    if |query| < 0x1_0000 { assert b[5..5 + |query|] == b[5..] == query; }
  }

  /** Every form of request decodes to itself exactly when its lengths fit their fields. */
  lemma ProxyRoundTrip(p: ProxyRequest)
    ensures DecodeProxy(EncodeProxy(p)) == Ok(p) <==> Fits(p)
  {
    match p
    case TcpConnect(address, port) =>
      TcpRoundTrip(address, port);
      assert EncodeProxy(p)[0] == 1;
    case UdpDatagram(sid, address, port, data) =>
      UdpRoundTrip(p);
      assert EncodeProxy(p)[0] == 2;
    case DnsQuery(id, query) =>
      DnsRoundTrip(id, query);
      assert EncodeProxy(p)[0] == 3;
  }

  /** The tag of each form of request, and that its numbers are written most significant byte first. */
  lemma ProxyLayout(p: ProxyRequest)
    ensures var b := EncodeProxy(p);
      match p
      case TcpConnect(address, port) =>
        b[0] == 1 && |b| == 4 + |address| && b[2..2 + |address|] == address && IsBigEndian(b[2 + |address|..], port)
      case UdpDatagram(sid, address, port, data) =>
        b[0] == 2 && IsBigEndian(b[1..5], sid) && b[6..6 + |address|] == address
        && |b| == 10 + |address| + |data| && b[10 + |address|..] == data
      case DnsQuery(id, query) => b[0] == 3 && |b| == 5 + |query| && IsBigEndian(b[1..3], id) && b[5..] == query
  {
    var b := EncodeProxy(p);
    match p
    case TcpConnect(address, port) =>
      BigEndian16(port);
      assert b[2 + |address|..] == PutU16(port) && b[2..2 + |address|] == address;
    case UdpDatagram(sid, address, port, data) =>
      BigEndian32(sid);
      UdpFront(sid, address, port, data);
      UdpBack(sid, address, port, data);
    case DnsQuery(id, query) =>
      BigEndian16(id);
      assert b[1..3] == PutU16(id) && b[5..] == query;
  }

  // --------------------------------------------------------------- framing

  /** The prefix is the length of what follows, most significant byte first. */
  lemma FrameLayout(data: Bytes)
    requires |data| < 0x1_0000_0000
    ensures IsBigEndian(FrameChunk(data)[..4], |data|) && FrameChunk(data)[4..] == data
  {
    BigEndian32(|data|);
    assert FrameChunk(data)[..4] == PutU32(|data|);
  }

  function FrameChunk(data: Bytes): Bytes { PutU32(|data| % 0x1_0000_0000) + data }

  function DeframeChunk(buf: Bytes): Option<(Bytes, nat)> {
    if |buf| < 4 then None
    else
      var length := U32At(buf, 0);
      if |buf| < 4 + length then None else Some((buf[4..4 + length], 4 + length))
  }

  /** Deframing takes exactly the frame off the front of a stream if and only if the prefix can carry
      its length; otherwise it takes what the truncated prefix says. */
  lemma FrameRoundTrip(data: Bytes, rest: Bytes)
    ensures var length := |data| % 0x1_0000_0000;
      DeframeChunk(FrameChunk(data) + rest) == Some((data[..length], 4 + length))
    ensures DeframeChunk(FrameChunk(data) + rest) == Some((data, |FrameChunk(data)|)) <==> |data| < 0x1_0000_0000
  {
    var length := |data| % 0x1_0000_0000;
    var buf := FrameChunk(data) + rest;
    assert buf[0..4] == PutU32(length);
    assert buf[4..4 + length] == data[..length];
    if |data| == length { assert data[..length] == data; }
  }

  /** And it refuses a cut frame exactly while what the prefix says is not all there. */
  lemma PartialFrame(data: Bytes, n: nat)
    requires n <= |FrameChunk(data)|
    ensures DeframeChunk(FrameChunk(data)[..n]) == None <==> n < 4 + |data| % 0x1_0000_0000
  {
    if n >= 4 { assert FrameChunk(data)[..n][0..4] == PutU32(|data| % 0x1_0000_0000); }
  }
}
