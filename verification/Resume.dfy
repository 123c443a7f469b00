/** The resumption messages of `resume.rs`: fixed-width encodings, proof transcripts, verification. */
module Resume {
  import opened Prelude
  import opened BigEndian
  import opened Crypto

  const MAX_RESUME_DRIFT_SECS: nat := 30
  const RESUME_REQUEST_SIZE: nat := 96
  const RESUME_RESPONSE_SIZE: nat := 73

  type Id = b: Bytes | |b| == 16 witness seq(16, _ => 0)
  type Random = b: Bytes | |b| == 32 witness seq(32, _ => 0)

  datatype ResumeStatus = StatusOk | UnknownSession | ProofInvalid | Stale | NotResumable

  function StatusByte(s: ResumeStatus): byte {
    match s
    case StatusOk => 0
    case UnknownSession => 1
    case ProofInvalid => 2
    case Stale => 3
    case NotResumable => 4
  }

  function StatusFromByte(b: byte): Result<ResumeStatus, ProtocolError> {
    match b
    case 0 => Ok(StatusOk)
    case 1 => Ok(UnknownSession)
    case 2 => Ok(ProofInvalid)
    case 3 => Ok(Stale)
    case 4 => Ok(NotResumable)
    case _ => Err(HandshakeFailed)
  }

  datatype ResumeRequest = ResumeRequest(
    sessionId: Id, timestamp: U64, clientRandom: Random, nextExpected: U64, proof: Random)

  datatype ResumeResponse = ResumeResponse(
    status: ResumeStatus, serverRandom: Random, nextExpected: U64, proof: Random)

  const REQUEST_LABEL: Bytes  // "kanrin-resume-request"
    := [107, 97, 110, 114, 105, 110, 45, 114, 101, 115, 117, 109, 101, 45, 114, 101, 113, 117, 101, 115, 116]

  const RESPONSE_LABEL: Bytes  // "kanrin-resume-response"
    := [107, 97, 110, 114, 105, 110, 45, 114, 101, 115, 117, 109, 101, 45, 114, 101, 115, 112, 111, 110, 115, 101]

  /** What the request's MAC covers. */
  function RequestTranscript(r: ResumeRequest): Bytes {
    REQUEST_LABEL + r.sessionId + PutU64(r.timestamp) + r.clientRandom + PutU64(r.nextExpected)
  }

  function ResponseTranscript(r: ResumeResponse, request: ResumeRequest): Bytes {
    RESPONSE_LABEL + request.clientRandom + [StatusByte(r.status)] + r.serverRandom + PutU64(r.nextExpected)
  }

  /** `ResumeRequest::new`: clock and randomness are parameters. */
  function NewRequest(mac: Mac, key: Bytes, id: Id, now: U64, random: Random, next: U64): ResumeRequest {
    var blank := ResumeRequest(id, now, random, next, seq(32, _ => 0));
    blank.(proof := mac(key, RequestTranscript(blank)))
  }

  function NewResponse(mac: Mac, key: Bytes, status: ResumeStatus, random: Random, next: U64,
                       request: ResumeRequest): ResumeResponse {
    var blank := ResumeResponse(status, random, next, seq(32, _ => 0));
    blank.(proof := mac(key, ResponseTranscript(blank, request)))
  }

  function VerifyRequest(mac: Mac, key: Bytes, now: U64, r: ResumeRequest): ResumeStatus {
    if AbsDiff(now, r.timestamp) > MAX_RESUME_DRIFT_SECS then Stale
    else if mac(key, RequestTranscript(r)) == r.proof then StatusOk
    else ProofInvalid
  }

  predicate VerifyResponse(mac: Mac, key: Bytes, r: ResumeResponse, request: ResumeRequest) {
    mac(key, ResponseTranscript(r, request)) == r.proof
  }

  function EncodeRequest(r: ResumeRequest): (b: Bytes)
    ensures |b| == RESUME_REQUEST_SIZE
  {
    r.sessionId + PutU64(r.timestamp) + r.clientRandom + PutU64(r.nextExpected) + r.proof
  }

  function DecodeRequest(data: Bytes): Result<ResumeRequest, ProtocolError> {
    if |data| < RESUME_REQUEST_SIZE then Err(BufferTooShort(RESUME_REQUEST_SIZE, |data|))
    else Ok(ResumeRequest(data[..16], U64At(data, 16), data[24..56], U64At(data, 56), data[64..96]))
  }

  function EncodeResponse(r: ResumeResponse): (b: Bytes)
    ensures |b| == RESUME_RESPONSE_SIZE
  {
    [StatusByte(r.status)] + r.serverRandom + PutU64(r.nextExpected) + r.proof
  }

  function DecodeResponse(data: Bytes): Result<ResumeResponse, ProtocolError> {
    if |data| < RESUME_RESPONSE_SIZE then Err(BufferTooShort(RESUME_RESPONSE_SIZE, |data|))
    else
      match StatusFromByte(data[0])
      case Err(e) => Err(e)
      case Ok(s) => Ok(ResumeResponse(s, data[1..33], U64At(data, 33), data[41..73]))
  }

  /** Both messages decode to themselves; every shorter input is refused with the size it needs. */
  lemma RequestRoundTrip(r: ResumeRequest, n: nat)
    requires n <= RESUME_REQUEST_SIZE
    ensures DecodeRequest(EncodeRequest(r)[..n])
            == if n == RESUME_REQUEST_SIZE then Ok(r) else Err(BufferTooShort(RESUME_REQUEST_SIZE, n))
  {
    var b := EncodeRequest(r);
    assert b[..96] == b;
    assert b[..16] == r.sessionId && b[16..24] == PutU64(r.timestamp) && b[24..56] == r.clientRandom;
    assert b[56..64] == PutU64(r.nextExpected) && b[64..96] == r.proof;
  }

  lemma ResponseRoundTrip(r: ResumeResponse, n: nat)
    requires n <= RESUME_RESPONSE_SIZE
    ensures DecodeResponse(EncodeResponse(r)[..n])
            == if n == RESUME_RESPONSE_SIZE then Ok(r) else Err(BufferTooShort(RESUME_RESPONSE_SIZE, n))
  {
    var b := EncodeResponse(r);
    assert b[..73] == b;
    assert b[1..33] == r.serverRandom && b[33..41] == PutU64(r.nextExpected) && b[41..73] == r.proof;
  }

  /** Fixed-width fields: equal transcripts mean equal fields, so no field can be shifted into
      another, and a request's transcript is never a response's. */
  lemma RequestTranscriptInjective(a: ResumeRequest, b: ResumeRequest)
    requires RequestTranscript(a) == RequestTranscript(b)
    ensures a.(proof := b.proof) == b
  {
    RequestFields(a);
    RequestFields(b);
    SameU64(a.timestamp, b.timestamp);
    SameU64(a.nextExpected, b.nextExpected);
  }

  lemma RequestFields(r: ResumeRequest)
    ensures var x := RequestTranscript(r);
      && |x| == 85 && x[21..37] == r.sessionId && x[37..45] == PutU64(r.timestamp)
      && x[45..77] == r.clientRandom && x[77..85] == PutU64(r.nextExpected)
  {
  }

  lemma SameU64(x: U64, y: U64)
    requires PutU64(x) == PutU64(y)
    ensures x == y
  {
    assert U64Of(PutU64(x)) == U64Of(PutU64(y));
  }

  lemma ResponseTranscriptInjective(a: ResumeResponse, p: ResumeRequest, b: ResumeResponse, q: ResumeRequest)
    requires ResponseTranscript(a, p) == ResponseTranscript(b, q)
    ensures a.(proof := b.proof) == b && p.clientRandom == q.clientRandom
  {
    ResponseFields(a, p);
    ResponseFields(b, q);
    SameU64(a.nextExpected, b.nextExpected);
  }

  lemma ResponseFields(r: ResumeResponse, request: ResumeRequest)
    ensures var x := ResponseTranscript(r, request);
      && |x| == 95 && x[22..54] == request.clientRandom && x[54] == StatusByte(r.status)
      && x[55..87] == r.serverRandom && x[87..95] == PutU64(r.nextExpected)
  {
  }

  lemma TranscriptsDisjoint(a: ResumeRequest, b: ResumeResponse, q: ResumeRequest)
    ensures RequestTranscript(a) != ResponseTranscript(b, q)
  {
    assert |RequestTranscript(a)| == 85 && |ResponseTranscript(b, q)| == 95;
  }

  /** What a request has to show, field by field: a clock within thirty seconds, and the proof over its label,
      session, clock, random bytes and position; a stale one is refused whatever it shows. */
  lemma RequestVerifies(mac: Mac, key: Bytes, now: U64, r: ResumeRequest)
    ensures VerifyRequest(mac, key, now, r) ==
      if now > r.timestamp + 30 || now < r.timestamp - 30 then Stale
      else if r.proof == mac(key, REQUEST_LABEL + r.sessionId + PutU64(r.timestamp) + r.clientRandom
                                  + PutU64(r.nextExpected)) then StatusOk
      else ProofInvalid
  {
  }

  /** And a response: the proof over its label, the random bytes of the very request, its status, random
      bytes and position. */
  lemma ResponseVerifies(mac: Mac, key: Bytes, r: ResumeResponse, request: ResumeRequest)
    ensures VerifyResponse(mac, key, r, request) <==>
      r.proof == mac(key, RESPONSE_LABEL + request.clientRandom + [StatusByte(r.status)] + r.serverRandom
                          + PutU64(r.nextExpected))
  {
  }

  /** A proof vouches for one request only: if it also verifies with any other session, clock, random bytes
      or position, then the MAC gives one result for two different inputs. */
  lemma ProofBindsRequest(mac: Mac, key: Bytes, now: U64, later: U64, a: ResumeRequest, b: ResumeRequest)
    requires VerifyRequest(mac, key, now, a) == StatusOk && VerifyRequest(mac, key, later, b) == StatusOk
    requires a.proof == b.proof && a != b
    ensures RequestTranscript(a) != RequestTranscript(b)
    ensures mac(key, RequestTranscript(a)) == mac(key, RequestTranscript(b))
  {
    if RequestTranscript(a) == RequestTranscript(b) { RequestTranscriptInjective(a, b); }
  }

  /** And for one answer to one request. */
  lemma ProofBindsResponse(mac: Mac, key: Bytes, a: ResumeResponse, p: ResumeRequest,
                           b: ResumeResponse, q: ResumeRequest)
    requires VerifyResponse(mac, key, a, p) && VerifyResponse(mac, key, b, q)
    requires a.proof == b.proof && (a != b || p.clientRandom != q.clientRandom)
    ensures ResponseTranscript(a, p) != ResponseTranscript(b, q)
    ensures mac(key, ResponseTranscript(a, p)) == mac(key, ResponseTranscript(b, q))
  {
    if ResponseTranscript(a, p) == ResponseTranscript(b, q) { ResponseTranscriptInjective(a, p, b, q); }
  }

  /** Where the fields stand in the two messages. */
  lemma MessageLayout(r: ResumeRequest, a: ResumeResponse)
    ensures var b := EncodeRequest(r);
      && b[..16] == r.sessionId && IsBigEndian(b[16..24], r.timestamp) && b[24..56] == r.clientRandom
      && IsBigEndian(b[56..64], r.nextExpected) && b[64..] == r.proof
    ensures var b := EncodeResponse(a);
      && b[0] == (match a.status
                  case StatusOk => 0 case UnknownSession => 1 case ProofInvalid => 2 case Stale => 3
                  case NotResumable => 4)
      && b[1..33] == a.serverRandom && IsBigEndian(b[33..41], a.nextExpected) && b[41..] == a.proof
  {
    assert EncodeRequest(r)[16..24] == PutU64(r.timestamp) && EncodeRequest(r)[56..64] == PutU64(r.nextExpected);
    assert EncodeResponse(a)[33..41] == PutU64(a.nextExpected);
    BigEndian64(r.timestamp);
    BigEndian64(r.nextExpected);
    BigEndian64(a.nextExpected);
  }

  /** The whole exchange over the wire: the server accepts a freshly signed request exactly while
      it is inside the drift window, reads the client's position from it, and the client accepts
      the answer and reads the server's position. */
  lemma HandshakeExchangesPositions(mac: Mac, key: Bytes, id: Id, sent: U64, now: U64, clientRandom: Random,
                                    clientNext: U64, serverRandom: Random, serverNext: U64)
    ensures
      var request := NewRequest(mac, key, id, sent, clientRandom, clientNext);
      var got := DecodeRequest(EncodeRequest(request));
      && got.Ok? && got.value.nextExpected == clientNext && got.value.sessionId == id
      && (VerifyRequest(mac, key, now, got.value) == StatusOk <==> AbsDiff(now, sent) <= MAX_RESUME_DRIFT_SECS)
      && var response := NewResponse(mac, key, StatusOk, serverRandom, serverNext, got.value);
         var answer := DecodeResponse(EncodeResponse(response));
         answer.Ok? && answer.value.nextExpected == serverNext && answer.value.status == StatusOk
         && VerifyResponse(mac, key, answer.value, request)
  {
    var request := NewRequest(mac, key, id, sent, clientRandom, clientNext);
    RequestRoundTrip(request, RESUME_REQUEST_SIZE);
    assert EncodeRequest(request)[..RESUME_REQUEST_SIZE] == EncodeRequest(request);
    var response := NewResponse(mac, key, StatusOk, serverRandom, serverNext, request);
    ResponseRoundTrip(response, RESUME_RESPONSE_SIZE);
    assert EncodeResponse(response)[..RESUME_RESPONSE_SIZE] == EncodeResponse(response);
  }
}
