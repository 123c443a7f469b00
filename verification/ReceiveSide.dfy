/** The reassembly half of `continuity.rs`: restoring order, dropping duplicates, and building the
    acknowledgement that describes what has arrived. */
module ReceiveSide {
  import opened Prelude
  import opened Wire

  datatype Received = Ready | Buffered | Duplicate

  /** The receiver as a value. `stream` is everything made ready so far, drained or not. */
  datatype Recv = Recv(next: nat, pending: map<nat, Bytes>, stream: seq<Bytes>)

  const EMPTY: Recv := Recv(0, map[], [])

  /** Deliver held chunks for as long as the next number is among them. */
  function Drain(r: Recv): Recv
    decreases |r.pending.Keys|
  {
    if r.next in r.pending then
      assert (r.pending - {r.next}).Keys == r.pending.Keys - {r.next};
      Drain(Recv(r.next + 1, r.pending - {r.next}, r.stream + [r.pending[r.next]]))
    else r
  }

  lemma DrainStep(r: Recv)
    requires r.next in r.pending
    ensures Drain(r) == Drain(Recv(r.next + 1, r.pending - {r.next}, r.stream + [r.pending[r.next]]))
    ensures Total(r.pending - {r.next}) == Total(r.pending) - |r.pending[r.next]|
    ensures |(r.pending - {r.next}).Keys| < |r.pending.Keys|
  {
    TotalRemove(r.pending, r.next);
    assert (r.pending - {r.next}).Keys == r.pending.Keys - {r.next};
  }

  function Offer(r: Recv, max: nat, sequence: nat, payload: Bytes): (Recv, Result<Received, ProtocolError>) {
    if sequence < r.next || sequence in r.pending then (r, Ok(Duplicate))
    else if sequence == r.next then (Drain(r.(next := r.next + 1, stream := r.stream + [payload])), Ok(Ready))
    else if Total(r.pending) + |payload| > max then (r, Err(ReceiveBufferFull(Total(r.pending), max)))
    else (r.(pending := r.pending[sequence := payload]), Ok(Buffered))
  }

  lemma {:induction false} DrainBounded(r: Recv)
    ensures Total(Drain(r).pending) <= Total(r.pending)
    decreases |r.pending.Keys|
  {
    if r.next in r.pending {
      DrainStep(r);
      DrainBounded(Recv(r.next + 1, r.pending - {r.next}, r.stream + [r.pending[r.next]]));
    }
  }

  lemma {:induction false} DrainForward(r: Recv)
    ensures Drain(r).next >= r.next
    decreases |r.pending.Keys|
  {
    if r.next in r.pending {
      DrainStep(r);
      DrainForward(Recv(r.next + 1, r.pending - {r.next}, r.stream + [r.pending[r.next]]));
    }
  }

  lemma DrainPastTop(r: Recv)
    requires r.next in r.pending
    ensures Drain(r).next > r.next
  {
    DrainStep(r);
    DrainForward(Recv(r.next + 1, r.pending - {r.next}, r.stream + [r.pending[r.next]]));
  }

  lemma {:induction false} DrainExtends(r: Recv)
    ensures r.stream <= Drain(r).stream
    decreases |r.pending.Keys|
  {
    if r.next in r.pending {
      DrainStep(r);
      DrainExtends(Recv(r.next + 1, r.pending - {r.next}, r.stream + [r.pending[r.next]]));
    }
  }

  /** What has been made ready stays as it is; an offer only adds to it. */
  lemma OfferExtends(r: Recv, max: nat, sequence: nat, payload: Bytes)
    ensures r.stream <= Offer(r, max, sequence, payload).0.stream
  {
    if sequence == r.next { DrainExtends(r.(next := r.next + 1, stream := r.stream + [payload])); }
  }

  /** Reassembly never holds more than its bound, whatever is offered. */
  lemma OfferBounded(r: Recv, max: nat, sequence: nat, payload: Bytes)
    requires Total(r.pending) <= max
    ensures Total(Offer(r, max, sequence, payload).0.pending) <= max
  {
    if sequence == r.next {
      DrainBounded(r.(next := r.next + 1, stream := r.stream + [payload]));
    } else if sequence !in r.pending {
      TotalInsert(r.pending, sequence, payload);
    }
  }

  // ------------------------------------------------------------ closed form

  /** The receiver state that a set of received chunks determines: the stream is the run of
      payloads from 0 up to the first number missing, and everything above it is held. */
  ghost predicate Represents(r: Recv, got: map<nat, Bytes>) {
    Partly(r, got) && r.next !in got
  }

  ghost predicate Partly(r: Recv, got: map<nat, Bytes>) {
    && |r.stream| == r.next
    && (forall k :: 0 <= k < r.next ==> k in got && r.stream[k] == got[k])
    && (forall k :: k in r.pending <==> k in got && k >= r.next)
    && (forall k :: k in r.pending ==> r.pending[k] == got[k])
  }

  /** The set determines the whole state. */
  lemma RepresentsUnique(r: Recv, s: Recv, got: map<nat, Bytes>)
    requires Represents(r, got) && Represents(s, got)
    ensures r == s
  {
    assert r.next == s.next;
    assert r.pending == s.pending;
    assert r.stream == s.stream;
  }

  lemma {:induction false} DrainRepresents(r: Recv, got: map<nat, Bytes>)
    requires Partly(r, got)
    ensures Represents(Drain(r), got)
    decreases |r.pending.Keys|
  {
    if r.next in r.pending {
      assert (r.pending - {r.next}).Keys == r.pending.Keys - {r.next};
      DrainRepresents(Recv(r.next + 1, r.pending - {r.next}, r.stream + [r.pending[r.next]]), got);
    }
  }

  /** The first payload to arrive under a number is the one that counts. */
  function Insert(got: map<nat, Bytes>, sequence: nat, payload: Bytes): map<nat, Bytes> {
    if sequence in got then got else got[sequence := payload]
  }

  /** One arrival, in terms of the set of chunks received so far: what it is reported as, when it
      is refused, and that the state keeps matching the set. */
  lemma AcceptRepresents(r: Recv, got: map<nat, Bytes>, max: nat, sequence: nat, payload: Bytes)
    requires Represents(r, got)
    ensures var (s, outcome) := Offer(r, max, sequence, payload);
      && (outcome == Ok(Duplicate) <==> sequence in got)
      && (outcome == Ok(Ready) <==> sequence == r.next)
      && (outcome.Err? <==> sequence !in got && sequence != r.next && Total(r.pending) + |payload| > max)
      && (outcome.Err? ==> s == r)
      && (outcome.Ok? ==> Represents(s, Insert(got, sequence, payload)))
  {
    var (s, outcome) := Offer(r, max, sequence, payload);
    if outcome == Ok(Ready) {
      DrainRepresents(r.(next := r.next + 1, stream := r.stream + [payload]), got[sequence := payload]);
    }
  }

  // -------------------------------------------------------------- confluence

  type Arrivals = seq<(nat, Bytes)>

  function AcceptAll(r: Recv, max: nat, arrivals: Arrivals): Recv
    decreases |arrivals|
  {
    if arrivals == [] then r
    else AcceptAll(Offer(r, max, arrivals[0].0, arrivals[0].1).0, max, arrivals[1..])
  }

  predicate NoneRefused(r: Recv, max: nat, arrivals: Arrivals)
    decreases |arrivals|
  {
    arrivals == [] ||
    var (s, outcome) := Offer(r, max, arrivals[0].0, arrivals[0].1);
    outcome.Ok? && NoneRefused(s, max, arrivals[1..])
  }

  /** Every arrival carries the payload that was sent under its number. */
  ghost predicate Genuine(sent: map<nat, Bytes>, arrivals: Arrivals) {
    forall a :: a in arrivals ==> a.0 in sent && sent[a.0] == a.1
  }

  function Numbers(arrivals: Arrivals): set<nat> { set a | a in arrivals :: a.0 }

  function Restrict(sent: map<nat, Bytes>, ks: set<nat>): map<nat, Bytes> {
    map k | k in sent && k in ks :: sent[k]
  }

  lemma {:induction false} AcceptAllRepresents(r: Recv, sent: map<nat, Bytes>, ks: set<nat>, max: nat,
                                               arrivals: Arrivals)
    requires Represents(r, Restrict(sent, ks)) && NoneRefused(r, max, arrivals) && Genuine(sent, arrivals)
    ensures Represents(AcceptAll(r, max, arrivals), Restrict(sent, ks + Numbers(arrivals)))
    decreases |arrivals|
  {
    if arrivals == [] {
      assert ks + Numbers(arrivals) == ks;
    } else {
      var a, rest := arrivals[0], arrivals[1..];
      AcceptRepresents(r, Restrict(sent, ks), max, a.0, a.1);
      assert Insert(Restrict(sent, ks), a.0, a.1) == Restrict(sent, ks + {a.0});
      NumbersCons(arrivals);
      assert forall b :: b in rest ==> b in arrivals;
      AcceptAllRepresents(Offer(r, max, a.0, a.1).0, sent, ks + {a.0}, max, rest);
      assert ks + {a.0} + Numbers(rest) == ks + Numbers(arrivals);
    }
  }

  lemma NumbersCons(arrivals: Arrivals)
    requires arrivals != []
    ensures Numbers(arrivals) == {arrivals[0].0} + Numbers(arrivals[1..])
  {
    assert arrivals == [arrivals[0]] + arrivals[1..];
  }

  /** Confluence: whatever the order and the repeats, if nothing is refused the receiver ends in the
      one state that the set of received chunks determines: so any two arrival orders of the same
      chunks agree on the delivered stream, the position and everything held. */
  lemma Confluence(sent: map<nat, Bytes>, max: nat, arrivals: Arrivals, others: Arrivals)
    requires Genuine(sent, arrivals) && Genuine(sent, others) && Numbers(arrivals) == Numbers(others)
    requires NoneRefused(EMPTY, max, arrivals) && NoneRefused(EMPTY, max, others)
    ensures Represents(AcceptAll(EMPTY, max, arrivals), Restrict(sent, Numbers(arrivals)))
    ensures AcceptAll(EMPTY, max, arrivals) == AcceptAll(EMPTY, max, others)
  {
    assert {} + Numbers(arrivals) == Numbers(arrivals) == {} + Numbers(others);
    AcceptAllRepresents(EMPTY, sent, {}, max, arrivals);
    AcceptAllRepresents(EMPTY, sent, {}, max, others);
    RepresentsUnique(AcceptAll(EMPTY, max, arrivals), AcceptAll(EMPTY, max, others),
                     Restrict(sent, Numbers(arrivals)));
  }

  // --------------------------------------------------------- acknowledgements

  /** The acknowledgement a receiver state calls for: the cumulative point, and the lowest runs of
      held numbers, maximal and at most 32, covering exactly what is held up to their end. */
  ghost predicate IsAck(r: Recv, next: nat, ranges: seq<SackRange>) {
    && next == r.next
    && |ranges| <= MAX_SACK_RANGES
    && Canonical(next, ranges)
    && (forall k :: Covers(ranges, k) ==> k in r.pending)
    && (forall k :: k in r.pending && ranges != [] && k <= ranges[|ranges| - 1].end + 1 ==> Covers(ranges, k))
    && (|ranges| < MAX_SACK_RANGES ==> forall k :: k in r.pending ==> Covers(ranges, k))
  }

  lemma AckStartsAgree(r: Recv, a: seq<SackRange>, b: seq<SackRange>, i: nat)
    requires IsAck(r, r.next, a) && IsAck(r, r.next, b)
    requires i < |a| && i < |b| && forall j :: 0 <= j < i ==> a[j] == b[j]
    ensures a[i].start >= b[i].start
  {
    CanonicalMeans(r.next, a);
    CanonicalMeans(r.next, b);
    assert Covers(a, a[i].start);
    assert b[i].start <= b[|b| - 1].end;
  }

  lemma AckEndsAgree(r: Recv, a: seq<SackRange>, b: seq<SackRange>, i: nat)
    requires IsAck(r, r.next, a) && IsAck(r, r.next, b)
    requires i < |a| && i < |b| && a[i].start == b[i].start
    ensures a[i].end >= b[i].end
  {
    CanonicalMeans(r.next, a);
    CanonicalMeans(r.next, b);
    assert a[i].end <= a[|a| - 1].end;
    assert a[i].end < b[i].end ==> Covers(b, a[i].end + 1);
    assert a[i].end < b[i].end ==> Covers(a, a[i].end + 1);
  }

  lemma {:induction false} AckPrefixAgrees(r: Recv, a: seq<SackRange>, b: seq<SackRange>, n: nat)
    requires IsAck(r, r.next, a) && IsAck(r, r.next, b)
    requires n <= |a| && n <= |b|
    ensures forall j :: 0 <= j < n ==> a[j] == b[j]
  {
    if n > 0 {
      AckPrefixAgrees(r, a, b, n - 1);
      AckStartsAgree(r, a, b, n - 1);
      AckStartsAgree(r, b, a, n - 1);
      AckEndsAgree(r, a, b, n - 1);
      AckEndsAgree(r, b, a, n - 1);
    }
  }

  lemma AckLength(r: Recv, a: seq<SackRange>, b: seq<SackRange>)
    requires IsAck(r, r.next, a) && IsAck(r, r.next, b)
    ensures |a| >= |b|
  {
    AckPrefixAgrees(r, a, b, Min(|a|, |b|));
    CanonicalMeans(r.next, b);
    assert |a| < |b| ==> Covers(b, b[|a|].start);
    assert |a| < |b| ==> Covers(a, b[|a|].start);
  }

  /** A receiver state has one acknowledgement. */
  lemma AckUnique(r: Recv, a: seq<SackRange>, b: seq<SackRange>)
    requires IsAck(r, r.next, a) && IsAck(r, r.next, b)
    ensures a == b
  {
    AckLength(r, a, b);
    AckLength(r, b, a);
    AckPrefixAgrees(r, a, b, |a|);
  }

  // -------------------------------------------------------------- the buffer

  class ReceiveBuffer {
    var nextExpected: U64
    var pending: map<nat, Bytes>
    var ready: seq<Bytes>
    var bufferedBytes: nat
    const maxBytes: nat
    /** What has already been handed to the application. */
    ghost var taken: seq<Bytes>

    ghost function Model(): Recv
      reads this
    {
      Recv(nextExpected, pending, taken + ready)
    }

    /** Exact, bounded byte count; everything held lies strictly above the cumulative point. */
    ghost predicate Valid()
      reads this
    {
      && bufferedBytes == Total(pending)
      && bufferedBytes <= maxBytes
      && (forall k :: k in pending ==> nextExpected < k <= U64_MAX)
    }

    constructor (maxBytes: nat)
      ensures Valid() && Model() == EMPTY && taken == [] && this.maxBytes == maxBytes
    {
      nextExpected, pending, ready, bufferedBytes, this.maxBytes, taken := 0, map[], [], 0, maxBytes, [];
    }

    /** None is the source's overflow panic: the position would pass the top of the number space. */
    method Accept(sequence: U64, payload: Bytes) returns (r: Option<Result<Received, ProtocolError>>)
      requires Valid()
      modifies this
      ensures var (after, outcome) := Offer(old(Model()), maxBytes, sequence, payload);
        && (r.None? <==> after.next > U64_MAX)
        && (r.Some? ==> Valid() && Model() == after && r.value == outcome && taken == old(taken))
    {
      if sequence < nextExpected || sequence in pending { return Some(Ok(Duplicate)); }
      if sequence > nextExpected {
        if bufferedBytes + |payload| > maxBytes {
          return Some(Err(ReceiveBufferFull(bufferedBytes, maxBytes)));
        }
        TotalInsert(pending, sequence, payload);
        bufferedBytes := bufferedBytes + |payload|;
        pending := pending[sequence := payload];
        return Some(Ok(Buffered));
      }
      ready := ready + [payload];
      assert taken + ready == old(taken + ready) + [payload];
      DrainForward(Model().(next := sequence + 1));
      if nextExpected == U64_MAX { return None; }
      nextExpected := nextExpected + 1;
      var done := DeliverRun();
      return if done then Some(Ok(Ready)) else None;
    }

    /** The loop of `accept`: hand over held chunks until the next number is missing. */
    method DeliverRun() returns (done: bool)
      requires bufferedBytes == Total(pending) && bufferedBytes <= maxBytes
      requires forall k :: k in pending ==> nextExpected <= k <= U64_MAX
      modifies this
      ensures done <==> Drain(old(Model())).next <= U64_MAX
      ensures done ==> Valid() && Model() == Drain(old(Model())) && taken == old(taken)
    {
      while nextExpected in pending
        invariant bufferedBytes == Total(pending) && bufferedBytes <= maxBytes
        invariant forall k :: k in pending ==> nextExpected <= k <= U64_MAX
        invariant Drain(Model()) == Drain(old(Model()))
        invariant taken == old(taken)
        decreases |pending.Keys|
      {
        DrainPastTop(Model());
        if nextExpected == U64_MAX { return false; }
        DeliverNext();
      }
      return true;
    }

    method DeliverNext()
      requires bufferedBytes == Total(pending) && bufferedBytes <= maxBytes
      requires nextExpected in pending && nextExpected < U64_MAX
      requires forall k :: k in pending ==> nextExpected <= k <= U64_MAX
      modifies this
      ensures bufferedBytes == Total(pending) && bufferedBytes <= maxBytes
      ensures forall k :: k in pending ==> nextExpected <= k <= U64_MAX
      ensures Drain(Model()) == Drain(old(Model())) && taken == old(taken)
      ensures |pending.Keys| < |old(pending).Keys|
    {
      DrainStep(Model());
      var next := pending[nextExpected];
      assert taken + (ready + [next]) == Model().stream + [next];
      bufferedBytes := bufferedBytes - |next|;
      pending := pending - {nextExpected};
      ready := ready + [next];
      nextExpected := nextExpected + 1;
    }

    method DrainReady() returns (out: seq<Bytes>)
      requires Valid()
      modifies this
      ensures Valid() && Model() == old(Model())
      ensures out == old(ready) && ready == [] && taken == old(taken) + out
    {
      out := ready;
      taken := taken + ready;
      ready := [];
      assert taken + ready == old(taken + ready);
    }

    method BuildAck() returns (ack: ControlMessage)
      requires Valid()
      ensures ack.Ack? && IsAck(Model(), ack.nextExpected, ack.ranges)
      ensures |ack.ranges| <= 32 && (|ack.ranges| < 32 ==> forall k :: k in pending ==> Covers(ack.ranges, k))
    {
      var ks := Ascending(pending.Keys);
      var ranges: seq<SackRange> := [];
      var i := 0;
      while i < |ks|
        invariant 0 <= i <= |ks|
        invariant Summary(nextExpected, ks[..i], ranges)
      {
        var s := ks[i];
        assert ks[..i + 1] == ks[..i] + [s];
        if ranges != [] && ranges[|ranges| - 1].end + 1 == s {
          SummaryExtends(nextExpected, ks[..i], ranges, s);
          ranges := ranges[|ranges| - 1 := SackRange(ranges[|ranges| - 1].start, s)];
        } else if |ranges| == MAX_SACK_RANGES {
          break;
        } else {
          SummaryGrows(nextExpected, ks[..i], ranges, s);
          ranges := ranges + [SackRange(s, s)];
        }
        i := i + 1;
      }
      SummaryIsAck(Model(), i, ranges);
      return Ack(nextExpected, ranges);
    }
  }

  /** Ranges that coalesce exactly the ascending numbers `ks`. */
  ghost predicate Summary(next: nat, ks: seq<nat>, ranges: seq<SackRange>) {
    && |ranges| <= MAX_SACK_RANGES
    && (ks == [] <==> ranges == [])
    && (ks != [] ==> ranges[|ranges| - 1].end == ks[|ks| - 1])
    && (forall m :: 0 <= m < |ranges| ==> next < ranges[m].start <= ranges[m].end)
    && (forall m, n :: 0 <= m < n < |ranges| ==> ranges[m].end + 1 < ranges[n].start)
    && (forall k: nat :: Covers(ranges, k) <==> k in ks)
  }

  lemma SummaryExtends(next: nat, ks: seq<nat>, ranges: seq<SackRange>, s: nat)
    requires Summary(next, ks, ranges)
    requires ranges != [] && s <= U64_MAX && ranges[|ranges| - 1].end + 1 == s
    ensures Summary(next, ks + [s], ranges[|ranges| - 1 := SackRange(ranges[|ranges| - 1].start, s)])
  {
    var n := |ranges| - 1;
    var longer := ranges[n := SackRange(ranges[n].start, s)];
    forall k: nat ensures Covers(longer, k) <==> Covers(ranges, k) || k == s {
      if Covers(longer, k) {
        var i :| 0 <= i < |longer| && longer[i].start <= k <= longer[i].end;
        assert k == s || ranges[i].start <= k <= ranges[i].end;
      }
      if Covers(ranges, k) {
        var i :| 0 <= i < |ranges| && ranges[i].start <= k <= ranges[i].end;
        assert longer[i].start <= k <= longer[i].end;
      }
      if k == s { assert longer[n].start <= k <= longer[n].end; }
    }
  }

  lemma CoversSnoc(ranges: seq<SackRange>, r: SackRange, k: nat)
    ensures Covers(ranges + [r], k) <==> Covers(ranges, k) || r.start <= k <= r.end
  {
    var longer := ranges + [r];
    if Covers(longer, k) {
      var i :| 0 <= i < |longer| && longer[i].start <= k <= longer[i].end;
      assert i < |ranges| ==> ranges[i] == longer[i];
    }
    if Covers(ranges, k) {
      var i :| 0 <= i < |ranges| && ranges[i].start <= k <= ranges[i].end;
      assert longer[i] == ranges[i];
    }
    if r.start <= k <= r.end { assert longer[|ranges|] == r; }
  }

  lemma SummaryGrows(next: nat, ks: seq<nat>, ranges: seq<SackRange>, s: nat)
    requires Summary(next, ks, ranges)
    requires next < s <= U64_MAX && |ranges| < MAX_SACK_RANGES
    requires ranges != [] ==> ranges[|ranges| - 1].end + 1 < s
    ensures Summary(next, ks + [s], ranges + [SackRange(s, s)])
  {
    forall k: nat ensures Covers(ranges + [SackRange(s, s)], k) <==> Covers(ranges, k) || k == s {
      CoversSnoc(ranges, SackRange(s, s), k);
    }
  }

  lemma InPrefix(ks: seq<nat>, i: nat, k: nat)
    requires i <= |ks| && k in ks[..i]
    ensures exists j :: 0 <= j < i && ks[j] == k
  {
    var j :| 0 <= j < i && ks[..i][j] == k;
    assert ks[j] == k;
  }

  lemma BelowIsInFront(ks: seq<nat>, i: nat, j: nat)
    requires forall l, m :: 0 <= l < m < |ks| ==> ks[l] < ks[m]
    requires i <= |ks| && j < |ks| && (i < |ks| ==> ks[j] < ks[i])
    ensures ks[j] in ks[..i]
  {
    assert j < i;
    assert ks[..i][j] == ks[j];
  }

  lemma BelowIsInPrefix(pending: set<nat>, i: nat, k: nat)
    requires i <= |Ascending(pending)| && k in pending && (i < |Ascending(pending)| ==> k < Ascending(pending)[i])
    ensures k in Ascending(pending)[..i]
  {
    var j := AscendingCovers(pending, k);
    BelowIsInFront(Ascending(pending), i, j);
  }

  lemma SummaryIsAck(r: Recv, i: nat, ranges: seq<SackRange>)
    requires var ks := Ascending(r.pending.Keys);
      && i <= |ks| && Summary(r.next, ks[..i], ranges)
      && (i < |ks| ==> |ranges| == MAX_SACK_RANGES && ranges[|ranges| - 1].end + 1 < ks[i])
    ensures IsAck(r, r.next, ranges)
  {
    var ks := Ascending(r.pending.Keys);
    CanonicalMeans(r.next, ranges);
    forall k: nat | Covers(ranges, k) ensures k in r.pending { InPrefix(ks, i, k); }
    forall k: nat | k in r.pending && (i < |ks| ==> k < ks[i]) ensures Covers(ranges, k) {
      BelowIsInPrefix(r.pending.Keys, i, k);
    }
  }
}
