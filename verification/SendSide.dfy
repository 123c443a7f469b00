/** The session continuity layer of `continuity.rs`: the send buffer that retains chunks until they
    are acknowledged, and the replay cursor that walks it. */
module SendSide {
  import opened Prelude
  import opened Wire

  type Chunks = map<nat, Bytes>

  /** Sequence numbers are u64 on the wire and in the buffers. */
  ghost predicate InU64(chunks: Chunks) { forall k :: k in chunks ==> k <= U64_MAX }

  /** `b` is part of `a`. */
  ghost predicate Shrunk(a: Chunks, b: Chunks) { b.Keys <= a.Keys && forall k :: k in b ==> b[k] == a[k] }

  function Release(chunks: Chunks, next: nat, ranges: seq<SackRange>): Chunks {
    map k | k in chunks && !Acked(k, next, ranges) :: chunks[k]
  }

  /** The chunks under the given numbers. */
  function Under(chunks: Chunks, ks: seq<nat>): (frames: seq<Bytes>)
    requires forall i :: 0 <= i < |ks| ==> ks[i] in chunks
    ensures |frames| == |ks| && forall i :: 0 <= i < |ks| ==> frames[i] == chunks[ks[i]]
    decreases |ks|
  {
    if ks == [] then [] else [chunks[ks[0]]] + Under(chunks, ks[1..])
  }

  /** The retained chunks in the order they were sent. */
  function Frames(chunks: Chunks): (frames: seq<Bytes>)
    ensures |frames| == |chunks.Keys|
  {
    Under(chunks, Ascending(chunks.Keys))
  }

  const DEFAULT_MAX_BUFFER_BYTES: nat := 16 * 1024 * 1024

  /** Whether `push` retains a chunk of `size` bytes. */
  predicate PushFits(chunks: Chunks, size: nat, max: nat) {
    chunks.Keys == {} || Total(chunks) + size <= max
  }

  class SendBuffer {
    var chunks: Chunks
    var bufferedBytes: nat
    const maxBytes: nat

    /** The byte count is exact, and exceeds the bound only for one chunk held alone. */
    ghost predicate Valid()
      reads this
    {
      && InU64(chunks)
      && bufferedBytes == Total(chunks)
      && (bufferedBytes <= maxBytes || |chunks| == 1)
    }

    constructor (maxBytes: nat)
      ensures Valid() && chunks == map[] && this.maxBytes == maxBytes
    {
      chunks, bufferedBytes, this.maxBytes := map[], 0, maxBytes;
    }

    method Push(sequence: U64, data: Bytes) returns (r: Result<(), ProtocolError>)
      requires Valid()
      modifies this
      ensures Valid()
      ensures r == if PushFits(old(chunks), |data|, maxBytes) then Ok(())
                   else Err(SendBufferFull(Total(old(chunks)), maxBytes))
      ensures r.Ok? <==> |old(chunks).Keys| == 0 || old(bufferedBytes) + |data| <= maxBytes
      ensures chunks == if r.Ok? then old(chunks)[sequence := data] else old(chunks)
    {
      if chunks.Keys != {} && bufferedBytes + |data| > maxBytes {
        return Err(SendBufferFull(bufferedBytes, maxBytes));
      }
      TotalInsert(chunks, sequence, data);
      if chunks.Keys == {} { assert chunks[sequence := data].Keys == {sequence}; }
      var displaced := if sequence in chunks then |chunks[sequence]| else 0;
      if sequence in chunks { TotalRemove(chunks, sequence); }
      chunks := chunks[sequence := data];
      bufferedBytes := bufferedBytes - displaced + |data|;
      return Ok(());
    }

    /** Drop some retained chunks. */
    method Drop(acked: set<nat>)
      requires Valid() && acked <= chunks.Keys
      modifies this
      ensures Valid()
      ensures Shrunk(old(chunks), chunks)
      ensures forall k :: k in chunks <==> k in old(chunks) && k !in acked
      ensures |chunks| == |old(chunks)| - |acked|
    {
      DropFacts(chunks, acked, maxBytes);
      bufferedBytes := bufferedBytes - Weight(chunks, acked);
      chunks := chunks - acked;
    }

    method AckCumulative(upTo: U64) returns (removed: nat)
      requires Valid()
      modifies this
      ensures Valid()
      ensures Shrunk(old(chunks), chunks)
      ensures forall k :: k in chunks <==> k in old(chunks) && k > upTo
      ensures removed == |old(chunks)| - |chunks|
    {
      var acked := if upTo < U64_MAX then set k | k in chunks && k < upTo + 1 else chunks.Keys;
      Drop(acked);
      return |acked|;
    }

    method AckSelective(sequences: seq<nat>) returns (removed: nat)
      requires Valid()
      modifies this
      ensures Valid()
      ensures Shrunk(old(chunks), chunks)
      ensures forall k :: k in chunks <==> k in old(chunks) && k !in sequences
      ensures removed == |old(chunks)| - |chunks|
    {
      removed := 0;
      for i := 0 to |sequences|
        invariant Valid()
        invariant Shrunk(old(chunks), chunks)
        invariant forall k :: k in chunks <==> k in old(chunks) && k !in sequences[..i]
        invariant removed == |old(chunks)| - |chunks|
      {
        var s := sequences[i];
        assert sequences[..i + 1] == sequences[..i] + [s];
        if s in chunks {
          Drop({s});
          removed := removed + 1;
        }
      }
      assert sequences[..|sequences|] == sequences;
    }

    method AckRange(start: U64, end: U64) returns (removed: nat)
      requires Valid()
      modifies this
      ensures Valid()
      ensures Shrunk(old(chunks), chunks)
      ensures forall k :: k in chunks <==> k in old(chunks) && !(start <= k <= end)
      ensures removed == |old(chunks)| - |chunks|
    {
      if start > end { return 0; }
      var inside := set k | k in chunks && start <= k <= end;
      AscendingMembers(inside);
      removed := AckSelective(Ascending(inside));
    }

    method ApplyAck(nextExpected: U64, ranges: seq<SackRange>) returns (removed: nat)
      requires Valid()
      modifies this
      ensures Valid()
      ensures chunks == Release(old(chunks), nextExpected, ranges)
      ensures Shrunk(old(chunks), chunks)
      ensures forall k :: k in chunks <==>
        k in old(chunks) && k >= nextExpected
        && forall i :: 0 <= i < |ranges| ==> !(ranges[i].start <= k <= ranges[i].end)
      ensures removed == |old(chunks)| - |chunks|
    {
      removed := 0;
      if nextExpected > 0 { removed := AckCumulative(nextExpected - 1); }
      LeftBelow(old(chunks), chunks, nextExpected, ranges);
      for i := 0 to |ranges|
        invariant Valid()
        invariant Left(old(chunks), chunks, nextExpected, ranges, i)
        invariant removed == |old(chunks)| - |chunks|
      {
        ghost var before := chunks;
        var n := AckRange(ranges[i].start, ranges[i].end);
        removed := removed + n;
        LeftStep(old(chunks), before, chunks, nextExpected, ranges, i);
      }
      LeftAll(old(chunks), chunks, nextExpected, ranges);
    }

    predicate IsFull()
      reads this
    {
      bufferedBytes >= maxBytes
    }
  }

  /** `is_full` and `push` disagree: a buffer that reports room refuses a chunk exactly when it holds
      something and the chunk is larger than the room that is left. */
  lemma NotFullStillRefuses(b: SendBuffer, size: nat)
    requires b.Valid() && !b.IsFull()
    ensures !PushFits(b.chunks, size, b.maxBytes) <==> b.chunks.Keys != {} && size > b.maxBytes - Total(b.chunks)
  {
  }

  /** Dropping retained chunks: the weight that goes, the size that goes, and the bound that stays. */
  lemma DropFacts(m: Chunks, s: set<nat>, max: nat)
    requires s <= m.Keys
    ensures Total(m - s) == Total(m) - Weight(m, s)
    ensures |m - s| == |m| - |s|
    ensures Total(m) <= max || |m| == 1 ==> Total(m - s) <= max || |m - s| == 1
  {
    assert m.Keys * s == s;
    TotalSplit(m, s);
    if |m - s| == 0 { assert (m - s).Keys == {}; }
  }

  /** What is left of `before` once the position and the first `i` ranges are applied. */
  ghost predicate Left(before: Chunks, after: Chunks, next: nat, ranges: seq<SackRange>, i: nat)
    requires i <= |ranges|
  {
    Shrunk(before, after) && forall k :: k in after <==> k in before && !Acked(k, next, ranges[..i])
  }

  lemma LeftBelow(before: Chunks, after: Chunks, next: nat, ranges: seq<SackRange>)
    requires Shrunk(before, after) && forall k :: k in after <==> k in before && k >= next
    ensures Left(before, after, next, ranges, 0)
  {
    assert forall k: nat :: Acked(k, next, ranges[..0]) <==> k < next;
  }

  lemma AckedStep(next: nat, ranges: seq<SackRange>, i: nat, k: nat)
    requires i < |ranges|
    ensures Acked(k, next, ranges[..i + 1]) <==> Acked(k, next, ranges[..i]) || ranges[i].start <= k <= ranges[i].end
  {
    assert ranges[..i + 1] == ranges[..i] + [ranges[i]];
    if Covers(ranges[..i], k) {
      var j :| 0 <= j < i && ranges[..i][j].start <= k <= ranges[..i][j].end;
      assert ranges[..i + 1][j] == ranges[..i][j];
    }
    if ranges[i].start <= k <= ranges[i].end { assert ranges[..i + 1][i] == ranges[i]; }
    if Covers(ranges[..i + 1], k) {
      var j :| 0 <= j < i + 1 && ranges[..i + 1][j].start <= k <= ranges[..i + 1][j].end;
      assert j < i ==> ranges[..i][j] == ranges[..i + 1][j];
    }
  }

  lemma LeftStep(before: Chunks, mid: Chunks, after: Chunks, next: nat, ranges: seq<SackRange>, i: nat)
    requires i < |ranges| && Left(before, mid, next, ranges, i) && Shrunk(mid, after)
    requires forall k :: k in after <==> k in mid && !(ranges[i].start <= k <= ranges[i].end)
    ensures Left(before, after, next, ranges, i + 1)
  {
    forall k: nat ensures k in after <==> k in before && !Acked(k, next, ranges[..i + 1]) {
      AckedStep(next, ranges, i, k);
    }
  }

  lemma LeftAll(before: Chunks, after: Chunks, next: nat, ranges: seq<SackRange>)
    requires Left(before, after, next, ranges, |ranges|)
    ensures after == Release(before, next, ranges)
  {
    assert ranges[..|ranges|] == ranges;
  }

  // ------------------------------------------------------ collections of acks

  datatype AckInfo = AckInfo(next: nat, ranges: seq<SackRange>)

  function ReleaseAll(chunks: Chunks, acks: seq<AckInfo>): Chunks
    decreases |acks|
  {
    if acks == [] then chunks else ReleaseAll(Release(chunks, acks[0].next, acks[0].ranges), acks[1..])
  }

  /** What survives a series of acks is what none of them covers. */
  lemma {:induction false} ReleaseAllClosedForm(chunks: Chunks, acks: seq<AckInfo>)
    ensures ReleaseAll(chunks, acks)
         == map k | k in chunks && (forall a :: a in acks ==> !Acked(k, a.next, a.ranges)) :: chunks[k]
    decreases |acks|
  {
    if acks != [] {
      ReleaseAllClosedForm(Release(chunks, acks[0].next, acks[0].ranges), acks[1..]);
      assert forall a :: a in acks <==> a == acks[0] || a in acks[1..];
    }
  }

  /** Stale, duplicated and reordered acks: only the set of acks applied matters. */
  lemma AckOrderIrrelevant(chunks: Chunks, acks: seq<AckInfo>, others: seq<AckInfo>)
    requires forall a :: a in acks <==> a in others
    ensures ReleaseAll(chunks, acks) == ReleaseAll(chunks, others)
  {
    ReleaseAllClosedForm(chunks, acks);
    ReleaseAllClosedForm(chunks, others);
  }

  // ------------------------------------------------------------------ replay

  /** The lowest retained number at or above the cursor. */
  function NextFrom(cursor: Option<nat>, chunks: Chunks): (r: Option<nat>)
    ensures r.Some? ==> cursor.Some? && r.value in chunks && cursor.value <= r.value
    ensures r.Some? ==> forall k :: k in chunks && cursor.value <= k ==> r.value <= k
    ensures r.None? ==> cursor.None? || forall k :: k in chunks ==> k < cursor.value
  {
    if cursor.None? then None
    else
      var ahead := set k | k in chunks && cursor.value <= k;
      assert forall k :: k in chunks && cursor.value <= k ==> k in ahead;
      if ahead == {} then None else Some(Least(ahead))
  }

  function Past(sequence: nat): Option<nat> { if sequence < U64_MAX then Some(sequence + 1) else None }

  class Replay {
    var next: Option<nat>
    var replayed: nat

    constructor ()
      ensures next == Some(0) && replayed == 0
    {
      next, replayed := Some(0), 0;
    }

    function NextChunk(buffer: SendBuffer): Option<(nat, Bytes)>
      reads this, buffer
    {
      match NextFrom(next, buffer.chunks)
      case None => None
      case Some(s) => Some((s, buffer.chunks[s]))
    }

    method ConfirmSent(sequence: U64)
      modifies this
      ensures next == Past(sequence) && replayed == old(replayed) + 1
    {
      next := if sequence < U64_MAX then Some(sequence + 1) else None;
      replayed := replayed + 1;
    }
  }

  /** What can happen between the start of a replay and its end. The buffer is borrowed for as long
      as the replay runs, so nothing is pushed meanwhile; acks and failed sends may come at any point. */
  datatype ReplayEvent = SendNext | SendFails | AckArrives(ack: AckInfo)

  datatype ReplayState = ReplayState(cursor: Option<nat>, chunks: Chunks, emitted: seq<nat>)

  function ReplayStep(s: ReplayState, e: ReplayEvent): ReplayState {
    match e
    case AckArrives(a) => s.(chunks := Release(s.chunks, a.next, a.ranges))
    case SendFails => s
    case SendNext =>
      match NextFrom(s.cursor, s.chunks)
      case None => s
      case Some(k) => s.(cursor := Past(k), emitted := s.emitted + [k])
  }

  function ReplayRun(s: ReplayState, es: seq<ReplayEvent>): ReplayState
    decreases |es|
  {
    if es == [] then s else ReplayRun(ReplayStep(s, es[0]), es[1..])
  }

  predicate Complete(s: ReplayState) { NextFrom(s.cursor, s.chunks).None? }

  /** Emitted numbers ascend below the cursor, and every retained chunk below it was emitted. */
  ghost predicate ReplayInv(s: ReplayState) {
    && InU64(s.chunks)
    && (forall i, j :: 0 <= i < j < |s.emitted| ==> s.emitted[i] < s.emitted[j])
    && (forall k :: k in s.emitted && s.cursor.Some? ==> k < s.cursor.value)
    && (forall k :: k in s.chunks && (s.cursor.None? || k < s.cursor.value) ==> k in s.emitted)
  }

  lemma ReplayStepInv(s: ReplayState, e: ReplayEvent)
    requires ReplayInv(s)
    ensures ReplayInv(ReplayStep(s, e))
  {
    if e.SendNext? && NextFrom(s.cursor, s.chunks).Some? {
      var k := NextFrom(s.cursor, s.chunks).value;
      var t := ReplayStep(s, e);
      assert forall i :: 0 <= i < |s.emitted| ==> s.emitted[i] in s.emitted;
      assert t.emitted[|s.emitted|] == k;
      forall j | j in t.chunks && (t.cursor.None? || j < t.cursor.value) ensures j in t.emitted {
        if j != k { assert j in s.emitted; }
      }
    }
  }

  /** A replay interleaved with any acks and failed sends. Over every run from the start of the
      buffer: numbers are emitted in strictly ascending order (so none twice); and once the replay
      is complete, every chunk still retained has been emitted. */
  lemma {:induction false} ReplayTrace(s: ReplayState, es: seq<ReplayEvent>)
    requires ReplayInv(s)
    ensures ReplayInv(ReplayRun(s, es))
    ensures var t := ReplayRun(s, es); Complete(t) ==> forall k :: k in t.chunks ==> k in t.emitted
    decreases |es|
  {
    if es != [] {
      ReplayStepInv(s, es[0]);
      ReplayTrace(ReplayStep(s, es[0]), es[1..]);
    }
  }

  /** Whatever is emitted from here on is still retained here: nothing already released is ever
      resent, however acks and sends interleave. */
  lemma {:induction false} ReplayOnlyRetained(s: ReplayState, es: seq<ReplayEvent>)
    ensures var t := ReplayRun(s, es);
      && s.emitted <= t.emitted
      && t.chunks.Keys <= s.chunks.Keys
      && forall i :: |s.emitted| <= i < |t.emitted| ==> t.emitted[i] in s.chunks
    decreases |es|
  {
    if es != [] { ReplayOnlyRetained(ReplayStep(s, es[0]), es[1..]); }
  }

  /** At most as many sends as there are chunks, at the top of the number space too; and a replay
      that has made that many is complete. */
  lemma ReplayTerminates(chunks: Chunks, es: seq<ReplayEvent>)
    requires InU64(chunks)
    ensures var t := ReplayRun(ReplayState(Some(0), chunks, []), es);
      |t.emitted| <= |chunks.Keys| && (|t.emitted| == |chunks.Keys| ==> Complete(t))
  {
    var s := ReplayState(Some(0), chunks, []);
    ReplayTrace(s, es);
    ReplayOnlyRetained(s, es);
    var t := ReplayRun(s, es);
    DistinctWithin(t.emitted, chunks.Keys);
    if !Complete(t) {
      var k := NextFrom(t.cursor, t.chunks).value;
      assert k in chunks && k !in t.emitted;
      DistinctWithin(t.emitted, chunks.Keys - {k});
    }
  }

  lemma {:induction false} DistinctWithin(xs: seq<nat>, s: set<nat>)
    requires forall i, j :: 0 <= i < j < |xs| ==> xs[i] < xs[j]
    requires forall x :: x in xs ==> x in s
    ensures |xs| <= |s|
  {
    if xs != [] {
      var x := xs[|xs| - 1];
      var init := xs[..|xs| - 1];
      assert x in s;
      forall y | y in init ensures y in s - {x} { assert y in xs; }
      DistinctWithin(init, s - {x});
    }
  }
}
