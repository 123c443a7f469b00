/** `Session` of `session.rs`: sequence assignment for outgoing chunks. */
module Session {
  import opened Prelude
  import opened BigEndian
  import opened Crypto
  import opened Wire

  /** One chunk that was numbered and sealed: what, under which key, number and nonce, and the packet. */
  datatype Issue = Issue(key: Bytes, chunk: Chunk, sequence: nat, nonce: Bytes, packet: Bytes)

  /** The sequence number a packet carries in the clear. */
  function SequenceField(packet: Bytes): U64
    requires |packet| >= HEADER_SIZE
  {
    U64At(packet, 2)
  }

  /** The `i`-th issue took number `i`, the nonce of that number, and says so on the wire. */
  ghost predicate Numbered(e: Issue, i: nat) {
    && i < MAX_NONCE && e.sequence == i && e.nonce == NonceFromSequence(i)
    && |e.packet| >= HEADER_SIZE && SequenceField(e.packet) == i
  }

  lemma SequenceOnTheWire(aead: Aead, chunk: Chunk, key: Bytes, sequence: U64, padding: Bytes)
    ensures var packet := EncodeSequenced(aead, chunk, key, sequence, padding);
      |packet| >= HEADER_SIZE && SequenceField(packet) == sequence
  {
    var packet := EncodeSequenced(aead, chunk, key, sequence, padding);
    assert packet[2..10] == PutU64(sequence);
  }

  /** One end's cryptographic state. Diagnostic counters other than the byte counts are left out. */
  class Session {
    const clientWriteKey: Bytes
    const serverWriteKey: Bytes
    var sendSeq: U64
    var recvCount: nat
    var bytesSent: nat
    var bytesReceived: nat
    /** Every chunk this end has issued, of whatever type. */
    ghost var issued: seq<Issue>

    /** Numbers were handed out from 0 on without a hole. */
    ghost predicate Valid()
      reads this
    {
      |issued| == sendSeq <= MAX_NONCE && forall i :: 0 <= i < |issued| ==> Numbered(issued[i], i)
    }

    /** Every chunk was sealed under the write key of the client, or every one under the server's. */
    ghost predicate Uses(isClient: bool)
      reads this
    {
      forall i :: 0 <= i < |issued| ==> issued[i].key == if isClient then clientWriteKey else serverWriteKey
    }

    constructor (clientWriteKey: Bytes, serverWriteKey: Bytes)
      ensures Valid() && issued == []
      ensures sendSeq == 0 && recvCount == 0 && bytesSent == 0 && bytesReceived == 0
      ensures this.clientWriteKey == clientWriteKey && this.serverWriteKey == serverWriteKey
    {
      this.clientWriteKey, this.serverWriteKey := clientWriteKey, serverWriteKey;
      sendSeq, recvCount, bytesSent, bytesReceived, issued := 0, 0, 0, 0, [];
    }

    function WriteKey(isClient: bool): Bytes { if isClient then clientWriteKey else serverWriteKey }

    /** A client seals under the client's write key and a server under the server's, with the header as
        associated data and the nonce of the number that the header carries. */
    method EncryptOutgoing(aead: Aead, chunk: Chunk, isClient: bool, padding: Bytes)
      returns (r: Result<Bytes, ProtocolError>)
      requires Valid()
      modifies this
      ensures Valid()
      ensures r.Ok? <==> old(sendSeq) < MAX_NONCE
      ensures r.Err? ==> r.error == NonceExhausted && issued == old(issued)
      ensures r.Ok? ==>
        var key := if isClient then clientWriteKey else serverWriteKey;
        && r.value == EncodeSequenced(aead, chunk, key, old(sendSeq), padding)
        && var nonce := [0, 0, 0, 0] + PutU64(old(sendSeq));
           var head := EncodeHeader(chunk.header.(sequence := old(sendSeq)));
           && r.value == head + aead.seal(key, nonce, chunk.payload + padding, head)
           && issued == old(issued) + [Issue(key, chunk, old(sendSeq), nonce, r.value)]
      ensures old(Uses(isClient)) ==> Uses(isClient)
      ensures sendSeq == old(sendSeq) + (if r.Ok? then 1 else 0)
      ensures bytesSent == old(bytesSent) + (if r.Ok? then |r.value| else 0)
      ensures recvCount == old(recvCount) && bytesReceived == old(bytesReceived)
    {
      var key := WriteKey(isClient);
      var sequence := sendSeq;
      if sequence >= MAX_NONCE { return Err(NonceExhausted); }
      var encoded := EncodeSequenced(aead, chunk, key, sequence, padding);
      SequenceOnTheWire(aead, chunk, key, sequence, padding);
      issued := issued + [Issue(key, chunk, sequence, NonceFromSequence(sequence), encoded)];
      sendSeq := sendSeq + 1;
      bytesSent := bytesSent + |encoded|;
      return Ok(encoded);
    }

    /** A client opens under the server's write key and a server under the client's. */
    method DecryptIncoming(aead: Aead, data: Bytes, isClient: bool) returns (r: Result<Chunk, ProtocolError>)
      requires Valid()
      modifies this
      ensures Valid() && issued == old(issued)
      ensures r == DecodeSequenced(aead, data, if isClient then serverWriteKey else clientWriteKey)
      ensures r.Ok? ==> OpenedAs(aead, data, if isClient then serverWriteKey else clientWriteKey, r.value)
      ensures recvCount == old(recvCount) + (if r.Ok? then 1 else 0)
      ensures bytesReceived == old(bytesReceived) + (if r.Ok? then |data| else 0)
      ensures sendSeq == old(sendSeq) && bytesSent == old(bytesSent)
    {
      var key := WriteKey(!isClient);
      r := DecodeSequenced(aead, data, key);
      OpensExactly(aead, data, key);
      if r.Err? { return; }
      recvCount := recvCount + 1;
      bytesReceived := bytesReceived + |data|;
    }
  }

  /** Over any calls, data and control chunks alike: of any two packets a session ever issued, the
      later has the higher number, on the wire too, and another nonce; and no number reaches those at
      which a u64 counter would overflow. */
  lemma NoncesNeverRepeat(s: Session, i: nat, j: nat)
    requires s.Valid() && i < j < |s.issued|
    ensures var a, b := s.issued[i], s.issued[j];
      && a.sequence < b.sequence < MAX_NONCE
      && |a.packet| >= HEADER_SIZE && |b.packet| >= HEADER_SIZE
      && SequenceField(a.packet) == a.sequence && SequenceField(b.packet) == b.sequence
      && a.nonce == NonceFromSequence(a.sequence) && b.nonce == NonceFromSequence(b.sequence)
      && a.nonce != b.nonce
  {
    assert Numbered(s.issued[i], i) && Numbered(s.issued[j], j);
    if NonceFromSequence(i) == NonceFromSequence(j) { NonceInjective(i, j); }
  }

  /** Across both ends of a session, with two different keys: no key and nonce are used twice, neither by
      one end nor by the two of them. */
  lemma KeyAndNonceOnce(client: Session, server: Session, i: nat, j: nat)
    requires client.Valid() && server.Valid() && client.Uses(true) && server.Uses(false)
    requires client.clientWriteKey == server.clientWriteKey && client.serverWriteKey == server.serverWriteKey
    requires client.clientWriteKey != client.serverWriteKey
    requires i < j < |client.issued + server.issued|
    ensures var a, b := (client.issued + server.issued)[i], (client.issued + server.issued)[j];
      (a.key, a.nonce) != (b.key, b.nonce)
  {
    var n := |client.issued|;
    if j < n {
      NoncesNeverRepeat(client, i, j);
    } else if i >= n {
      NoncesNeverRepeat(server, i - n, j - n);
    }
  }
}
