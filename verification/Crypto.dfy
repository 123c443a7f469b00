/** The cryptography of `crypto.rs`, as far as the protocol relies on it: an AEAD that undoes
    itself and adds a tag (section 2.8 of RFC 8439), a MAC of fixed width, and the nonce that a
    sequence number determines. */
module Crypto {
  import opened Prelude
  import BigEndian

  const TAG_SIZE: nat := 16
  const NONCE_SIZE: nat := 12
  const MAX_NONCE: U64 := U64_MAX - 1

  /** `seal(key, nonce, plaintext, aad)` and `open(key, nonce, ciphertext, aad)`. */
  datatype AeadFunctions = AeadFunctions(
    seal: (Bytes, Bytes, Bytes, Bytes) -> Bytes,
    open: (Bytes, Bytes, Bytes, Bytes) -> Option<Bytes>)

  ghost predicate Lawful(a: AeadFunctions) {
    && (forall k, n, p, d :: a.open(k, n, a.seal(k, n, p, d), d) == Some(p))
    && (forall k, n, p, d :: |a.seal(k, n, p, d)| == |p| + TAG_SIZE)
    && (forall k, n, c, d :: a.open(k, n, c, d).Some? ==> |c| == |a.open(k, n, c, d).value| + TAG_SIZE)
  }

  /** Any AEAD satisfying the laws. The witness shows that the laws are consistent. */
  type Aead = a: AeadFunctions | Lawful(a)
    ghost witness TrivialAead()

  ghost function TrivialAead(): (a: AeadFunctions)
    ensures Lawful(a)
  {
    var tag: Bytes := seq(TAG_SIZE, _ => 0);
    var a := AeadFunctions(
      (k: Bytes, n: Bytes, p: Bytes, d: Bytes) => p + tag,
      (k: Bytes, n: Bytes, c: Bytes, d: Bytes) => if |c| < TAG_SIZE then None else Some(c[..|c| - TAG_SIZE]));
    assert forall k, n, p, d :: a.seal(k, n, p, d)[..|p|] == p;
    a
  }

  /** HMAC-SHA256 of a key and a message; only the width of its result is used. */
  type Mac = m: (Bytes, Bytes) -> Bytes | forall k, d :: |m(k, d)| == 32
    ghost witness (k: Bytes, d: Bytes) => seq(32, _ => 0)

  function NonceFromSequence(sequence: U64): (nonce: Bytes)
    ensures |nonce| == NONCE_SIZE
  {
    [0, 0, 0, 0] + BigEndian.PutU64(sequence)
  }

  /** Distinct sequence numbers never share a nonce. */
  lemma NonceInjective(a: U64, b: U64)
    requires NonceFromSequence(a) == NonceFromSequence(b)
    ensures a == b
  {
    assert NonceFromSequence(a)[4..] == BigEndian.PutU64(a);
    assert NonceFromSequence(b)[4..] == BigEndian.PutU64(b);
  }

  /** The handshake seals its last chunks under the session keys with a nonce of twelve zero bytes.
      That is the nonce of number 0 and of no other, so it is the first data chunk of each direction
      that such a chunk shares its nonce with. */
  lemma ZeroNonceIsFirst(sequence: U64)
    ensures NonceFromSequence(sequence) == seq(NONCE_SIZE, _ => 0) <==> sequence == 0
  {
    var zeros: Bytes := seq(NONCE_SIZE, _ => 0);
    assert NonceFromSequence(0) == zeros;
    if NonceFromSequence(sequence) == zeros { NonceInjective(sequence, 0); }
  }
}
