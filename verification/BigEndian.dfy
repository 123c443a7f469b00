/** Fixed-width big-endian integers, as `to_be_bytes` and `from_be_bytes` write and read them. */
module BigEndian {
  import opened Prelude

  function U16Of(b: Bytes): U16
    requires |b| == 2
  {
    (b[0] as int) * 0x100 + (b[1] as int)
  }

  function U32Of(b: Bytes): U32
    requires |b| == 4
  {
    (b[0] as int) * 0x100_0000 + (b[1] as int) * 0x1_0000 + (b[2] as int) * 0x100 + (b[3] as int)
  }

  function U64Of(b: Bytes): U64
    requires |b| == 8
  {
    (b[0] as int) * 0x100_0000_0000_0000 + (b[1] as int) * 0x1_0000_0000_0000 + (b[2] as int) * 0x100_0000_0000
      + (b[3] as int) * 0x1_0000_0000 + (b[4] as int) * 0x100_0000 + (b[5] as int) * 0x1_0000
      + (b[6] as int) * 0x100 + (b[7] as int)
  }

  function PutU16(x: U16): (b: Bytes)
    ensures |b| == 2 && U16Of(b) == x
  {
    [x / 0x100, x % 0x100]
  }

  function PutU32(x: U32): (b: Bytes)
    ensures |b| == 4 && U32Of(b) == x
  {
    var p := x / 0x100;
    var q := p / 0x100;
    [q / 0x100, q % 0x100, p % 0x100, x % 0x100]
  }

  function PutU64(x: U64): (b: Bytes)
    ensures |b| == 8 && U64Of(b) == x
  {
    var p := x / 0x100;
    var q := p / 0x100;
    var r := q / 0x100;
    var s := r / 0x100;
    var t := s / 0x100;
    var u := t / 0x100;
    [u / 0x100, u % 0x100, t % 0x100, s % 0x100, r % 0x100, q % 0x100, p % 0x100, x % 0x100]
  }

  /** The value of bytes, most significant first. */
  function Value(b: Bytes): nat
    decreases |b|
  {
    if b == [] then 0 else 0x100 * Value(b[..|b| - 1]) + b[|b| - 1]
  }

  /** `b` writes `x` most significant byte first. */
  ghost predicate IsBigEndian(b: Bytes, x: nat) { Value(b) == x }

  lemma {:induction false} ValueSnoc(b: Bytes, last: byte)
    ensures Value(b + [last]) == 0x100 * Value(b) + last
  {
    assert (b + [last])[..|b|] == b;
  }

  lemma Value2(b: Bytes)
    requires |b| == 2
    ensures Value(b) == U16Of(b)
  {
    assert b == [] + [b[0]] + [b[1]];
    ValueSnoc([], b[0]);
    ValueSnoc([] + [b[0]], b[1]);
  }

  lemma Value4(b: Bytes)
    requires |b| == 4
    ensures Value(b) == U32Of(b)
  {
    assert b == b[..2] + [b[2]] + [b[3]];
    Value2(b[..2]);
    ValueSnoc(b[..2], b[2]);
    ValueSnoc(b[..2] + [b[2]], b[3]);
  }

  lemma Value8(b: Bytes)
    requires |b| == 8
    ensures Value(b) == U64Of(b)
  {
    assert b == b[..4] + [b[4]] + [b[5]] + [b[6]] + [b[7]];
    Value4(b[..4]);
    ValueSnoc(b[..4], b[4]);
    ValueSnoc(b[..4] + [b[4]], b[5]);
    ValueSnoc(b[..4] + [b[4]] + [b[5]], b[6]);
    ValueSnoc(b[..4] + [b[4]] + [b[5]] + [b[6]], b[7]);
  }

  lemma BigEndian16(x: U16)
    ensures IsBigEndian(PutU16(x), x)
  {
    Value2(PutU16(x));
  }

  lemma BigEndian32(x: U32)
    ensures IsBigEndian(PutU32(x), x)
  {
    Value4(PutU32(x));
  }

  lemma BigEndian64(x: U64)
    ensures IsBigEndian(PutU64(x), x)
  {
    Value8(PutU64(x));
  }

  lemma ByteOrder()
    ensures PutU16(0x0102) == [1, 2] && PutU32(0x0102_0304) == [1, 2, 3, 4]
    ensures PutU64(0x0102_0304_0506_0708) == [1, 2, 3, 4, 5, 6, 7, 8]
  {
  }

  lemma {:induction false} ValueDetermines(a: Bytes, b: Bytes)
    requires |a| == |b| && Value(a) == Value(b)
    ensures a == b
    decreases |a|
  {
    if a != [] {
      var n := |a| - 1;
      assert 0x100 * Value(a[..n]) + a[n] == 0x100 * Value(b[..n]) + b[n];
      ValueDetermines(a[..n], b[..n]);
      assert a == a[..n] + [a[n]] && b == b[..n] + [b[n]];
    }
  }

  lemma PutU16OfBytes(b: Bytes)
    requires |b| == 2
    ensures PutU16(U16Of(b)) == b
  {
    Value2(b);
    Value2(PutU16(U16Of(b)));
    ValueDetermines(PutU16(U16Of(b)), b);
  }

  lemma PutU64OfBytes(b: Bytes)
    requires |b| == 8
    ensures PutU64(U64Of(b)) == b
  {
    Value8(b);
    Value8(PutU64(U64Of(b)));
    ValueDetermines(PutU64(U64Of(b)), b);
  }

  /** The other direction: four bytes are what their value is written as. */
  lemma PutU32OfBytes(b: Bytes)
    requires |b| == 4
    ensures PutU32(U32Of(b)) == b
  {
    Value4(b);
    Value4(PutU32(U32Of(b)));
    ValueDetermines(PutU32(U32Of(b)), b);
  }

  function U16At(data: Bytes, i: nat): U16
    requires i + 2 <= |data|
  {
    U16Of(data[i..i + 2])
  }

  function U32At(data: Bytes, i: nat): U32
    requires i + 4 <= |data|
  {
    U32Of(data[i..i + 4])
  }

  function U64At(data: Bytes, i: nat): U64
    requires i + 8 <= |data|
  {
    U64Of(data[i..i + 8])
  }

  lemma ReadsU64(data: Bytes, i: nat, x: U64)
    requires i + 8 <= |data| && data[i..i + 8] == PutU64(x)
    ensures U64At(data, i) == x
  {
  }
}
