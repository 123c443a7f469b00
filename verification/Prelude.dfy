/** Shared vocabulary: results, machine integers, and the few facts about finite maps, sets and
    sequences that every other module leans on. */
module Prelude {

  datatype Option<+T> = None | Some(value: T)

  datatype Result<+T, +E> = Ok(value: T) | Err(error: E)

  /** The errors of `kanrin-protocol` that the modelled code can return. */
  datatype ProtocolError =
    | BufferTooShort(need: nat, got: nat)
    | UnsupportedVersion(version: byte)
    | InvalidChunk
    | Crypto
    | HandshakeFailed
    | NonceExhausted
    | SendBufferFull(buffered: nat, max: nat)
    | ReceiveBufferFull(buffered: nat, max: nat)

  type byte = x: int | 0 <= x < 0x100
  type U16 = x: int | 0 <= x < 0x1_0000
  type U32 = x: int | 0 <= x < 0x1_0000_0000
  type U64 = x: int | 0 <= x < 0x1_0000_0000_0000_0000
  type Bytes = seq<byte>

  const U64_MAX: U64 := 0xFFFF_FFFF_FFFF_FFFF

  function Min(a: int, b: int): int { if a <= b then a else b }
  function Max(a: int, b: int): int { if a <= b then b else a }
  function AbsDiff(a: nat, b: nat): nat { if a <= b then b - a else a - b }

  lemma {:induction false} LeastUpTo(s: set<nat>, m: nat)
    requires m in s
    ensures exists l :: l in s && forall x :: x in s ==> l <= x
    decreases m
  {
    if x :| x in s && x < m {
      LeastUpTo(s, x);
    } else {
      assert m in s && forall x :: x in s ==> m <= x;
    }
  }

  function Least(s: set<nat>): (m: nat)
    requires s != {}
    ensures m in s && forall x :: x in s ==> m <= x
  {
    var any :| any in s;
    LeastUpTo(s, any);
    var m :| m in s && forall x :: x in s ==> m <= x;
    m
  }

  /** The iteration order of a BTreeMap: its keys, ascending, each once. */
  function Ascending(s: set<nat>): (ks: seq<nat>)
    ensures |ks| == |s|
    ensures forall i :: 0 <= i < |ks| ==> ks[i] in s
    ensures forall i, j :: 0 <= i < j < |ks| ==> ks[i] < ks[j]
  {
    if s == {} then [] else [Least(s)] + Ascending(s - {Least(s)})
  }

  lemma {:induction false} AscendingCovers(s: set<nat>, k: nat) returns (i: nat)
    requires k in s
    ensures i < |Ascending(s)| && Ascending(s)[i] == k
  {
    if k == Least(s) {
      i := 0;
    } else {
      i := AscendingCovers(s - {Least(s)}, k);
      i := i + 1;
    }
  }

  lemma AscendingMembers(s: set<nat>)
    ensures forall k :: k in Ascending(s) <==> k in s
  {
    forall k | k in s ensures k in Ascending(s) { var i := AscendingCovers(s, k); }
  }

  /** The bytes that `m` holds under the keys `ks`. */
  function Weight(m: map<nat, Bytes>, ks: set<nat>): nat
    requires ks <= m.Keys
  {
    if ks == {} then 0
    else
      var k := Least(ks);
      |m[k]| + Weight(m, ks - {k})
  }

  /** Bytes held by a map of chunks: the sum of the lengths of its values. */
  function Total(m: map<nat, Bytes>): nat { Weight(m, m.Keys) }

  /** The order in which chunks are taken out does not change what they weigh. */
  lemma {:induction false} WeightRemove(m: map<nat, Bytes>, ks: set<nat>, k: nat)
    requires k in ks && ks <= m.Keys
    ensures Weight(m, ks) == |m[k]| + Weight(m, ks - {k})
  {
    var l := Least(ks);
    if k != l {
      WeightRemove(m, ks - {l}, k);
      WeightRemove(m, ks - {k}, l);
      assert ks - {l} - {k} == ks - {k} - {l};
    }
  }

  lemma {:induction false} WeightUnion(m: map<nat, Bytes>, a: set<nat>, b: set<nat>)
    requires a !! b && a <= m.Keys && b <= m.Keys
    ensures Weight(m, a + b) == Weight(m, a) + Weight(m, b)
  {
    if a == {} {
      assert a + b == b;
    } else {
      var k := Least(a);
      WeightRemove(m, a + b, k);
      assert a + b - {k} == (a - {k}) + b;
      WeightUnion(m, a - {k}, b);
    }
  }

  lemma {:induction false} WeightAgree(m: map<nat, Bytes>, n: map<nat, Bytes>, ks: set<nat>)
    requires ks <= m.Keys && ks <= n.Keys && forall k :: k in ks ==> m[k] == n[k]
    ensures Weight(m, ks) == Weight(n, ks)
  {
    if ks != {} { WeightAgree(m, n, ks - {Least(ks)}); }
  }

  lemma TotalRemove(m: map<nat, Bytes>, k: nat)
    requires k in m
    ensures Total(m) == |m[k]| + Total(m - {k})
  {
    WeightRemove(m, m.Keys, k);
    assert (m - {k}).Keys == m.Keys - {k};
    WeightAgree(m, m - {k}, m.Keys - {k});
  }

  lemma TotalInsert(m: map<nat, Bytes>, k: nat, v: Bytes)
    ensures Total(m[k := v]) == |v| + Total(m) - if k in m then |m[k]| else 0
  {
    var n := m[k := v];
    WeightRemove(n, n.Keys, k);
    assert n.Keys - {k} == m.Keys - {k};
    WeightAgree(m, n, m.Keys - {k});
    if k in m { WeightRemove(m, m.Keys, k); } else { assert m.Keys - {k} == m.Keys; }
  }

  /** Dropping keys splits weight and size into what goes and what stays. */
  lemma TotalSplit(m: map<nat, Bytes>, s: set<nat>)
    ensures Total(m) == Weight(m, m.Keys * s) + Total(m - s)
    ensures |m.Keys| == |m.Keys * s| + |(m - s).Keys|
  {
    assert (m - s).Keys == m.Keys - s;
    assert m.Keys == m.Keys * s + (m.Keys - s);
    WeightUnion(m, m.Keys * s, m.Keys - s);
    WeightAgree(m, m - s, m.Keys - s);
  }
}
