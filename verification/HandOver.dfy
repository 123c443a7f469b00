/** From the receive buffer to the application. What the buffer has drained still has to be handed
    over. The client's one loop does so before it reads on. At the server each connection of a session
    has a reader, which drains under the lock of the receive buffer and hands over after letting the
    lock go; and the reader of a connection that was replaced reads on beside the new one. */
module HandOver {
  import opened Prelude
  import opened Crypto
  import opened Wire
  import opened ReceiveSide
  import opened Transfer
  import opened Guarantees

  datatype Packet = Packet(number: nat, payload: Bytes)

  type Hands = seq<seq<Packet>>

  datatype Delivery = Delivery(
    d: Direction,
    hands: Hands,         // what each reader has drained and is yet to hand over
    handed: seq<Packet>)  // what the application has been handed, in that order

  const NOTHING_YET: Delivery := Delivery(START, [], [])

  datatype Move =
    | Other(e: Event)                  // a step of the direction that drains nothing
    | Connect                          // one more reader
    | Take(reader: nat, frame: Bytes)  // it accepts a chunk and drains what that made ready
    | Forward(reader: nat)             // and hands over its packets, one at a time

  ghost predicate Allowed(c: Config, s: Delivery, m: Move) {
    match m
    case Other(e) => !e.Deliver? && Enabled(c, s.d, e)
    case Connect => true
    case Take(r, frame) => r < |s.hands| && s.hands[r] == [] && Enabled(c, s.d, Deliver(frame))
    case Forward(r) => CanForward(s, r)
  }

  predicate CanForward(s: Delivery, r: nat) { r < |s.hands| && s.hands[r] != [] }

  function Forwarded(s: Delivery, r: nat): Delivery
    requires CanForward(s, r)
  {
    s.(hands := s.hands[r := s.hands[r][1..]], handed := s.handed + [s.hands[r][0]])
  }

  function Stamped(stream: seq<Bytes>): (ps: seq<Packet>)
    ensures |ps| == |stream| && forall i :: 0 <= i < |ps| ==> ps[i] == Packet(i, stream[i])
  {
    seq(|stream|, i requires 0 <= i < |stream| => Packet(i, stream[i]))
  }

  function Payloads(ps: seq<Packet>): (r: seq<Bytes>)
    ensures |r| == |ps| && forall i :: 0 <= i < |r| ==> r[i] == ps[i].payload
  {
    seq(|ps|, i requires 0 <= i < |ps| => ps[i].payload)
  }

  lemma StampedSuffix(a: seq<Bytes>, b: seq<Bytes>)
    ensures Payloads(Stamped(a + b)[|a|..]) == b
  {
  }

  /** What delivering a frame adds to the stream. */
  ghost function Batch(c: Config, d: Direction, frame: Bytes): (ps: seq<Packet>)
    requires Enabled(c, d, Deliver(frame))
    ensures Stamped(Next(c, d, Deliver(frame)).recv.stream) == Stamped(d.recv.stream) + ps
  {
    var stream := Next(c, d, Deliver(frame)).recv.stream;
    OfferExtends(d.recv, c.maxReceive, c.codec.open(frame).value.0, c.codec.open(frame).value.1);
    Stamped(stream)[|d.recv.stream|..]
  }

  ghost function Go(c: Config, s: Delivery, m: Move): Delivery
    requires Allowed(c, s, m)
  {
    match m
    case Other(e) => s.(d := Next(c, s.d, e))
    case Connect => s.(hands := s.hands + [[]])
    case Take(r, frame) => s.(d := Next(c, s.d, Deliver(frame)), hands := s.hands[r := Batch(c, s.d, frame)])
    case Forward(r) => Forwarded(s, r)
  }

  ghost predicate Legal(c: Config, s: Delivery, ms: seq<Move>)
    decreases |ms|
  {
    ms == [] || (Allowed(c, s, ms[0]) && Legal(c, Go(c, s, ms[0]), ms[1..]))
  }

  ghost function Reached(c: Config, s: Delivery, ms: seq<Move>): Delivery
    requires Legal(c, s, ms)
    decreases |ms|
  {
    if ms == [] then s else Reached(c, Go(c, s, ms[0]), ms[1..])
  }

  /** Such a run is a run of the direction, so what is proved of the stream holds here too. */
  lemma {:induction false} Projects(c: Config, s: Delivery, ms: seq<Move>) returns (es: seq<Event>)
    requires Legal(c, s, ms)
    ensures Run(c, s.d, es) && After(c, s.d, es) == Reached(c, s, ms).d
    decreases |ms|
  {
    es := [];
    if ms != [] {
      es := Projects(c, Go(c, s, ms[0]), ms[1..]);
      match ms[0]
      case Other(e) => es := [e] + es;
      case Take(_, frame) => es := [Deliver(frame)] + es;
      case _ =>
    }
  }

  // ------------------------------------------------------------ nothing is lost

  /** Everything that is in some hand. */
  function All(hands: Hands): seq<Packet>
    decreases |hands|
  {
    if hands == [] then [] else All(hands[..|hands| - 1]) + hands[|hands| - 1]
  }

  lemma Cancel<T>(a: multiset<T>, b: multiset<T>, c: multiset<T>)
    requires c + a == c + b
    ensures a == b
  {
    assert a == (c + a) - c;
    assert b == (c + b) - c;
  }

  lemma AddToBoth<T>(a: multiset<T>, x: multiset<T>, b: multiset<T>, y: multiset<T>, c: multiset<T>)
    requires a + x == b + y
    ensures (a + c) + x == (b + c) + y
  {
    assert (a + c) + x == (a + x) + c;
    assert (b + c) + y == (b + y) + c;
  }

  lemma {:induction false} AllUpdated(hands: Hands, r: nat, h: seq<Packet>)
    requires r < |hands|
    ensures multiset(All(hands[r := h])) + multiset(hands[r]) == multiset(All(hands)) + multiset(h)
    decreases |hands|
  {
    var n := |hands| - 1;
    if r == n {
      assert hands[r := h][..n] == hands[..n];
    } else {
      var updated := hands[r := h];
      AllUpdated(hands[..n], r, h);
      assert updated[..n] == hands[..n][r := h];
      AddToBoth(multiset(All(updated[..n])), multiset(hands[r]), multiset(All(hands[..n])), multiset(h),
                multiset(hands[n]));
    }
  }

  /** What was handed over and what is in hand make up what was drained, packet for packet. */
  ghost predicate Accounted(s: Delivery) {
    multiset(s.handed) + multiset(All(s.hands)) == multiset(Stamped(s.d.recv.stream))
  }

  lemma HeadAndRest<T>(h: seq<T>)
    requires h != []
    ensures multiset(h) == multiset{h[0]} + multiset(h[1..])
  {
    assert h == [h[0]] + h[1..];
  }

  lemma AccountedTake(c: Config, s: Delivery, r: nat, frame: Bytes)
    requires Accounted(s) && Allowed(c, s, Take(r, frame))
    ensures Accounted(Go(c, s, Take(r, frame)))
  {
    var batch := Batch(c, s.d, frame);
    AllUpdated(s.hands, r, batch);
    var now, later := multiset(All(s.hands)), multiset(All(s.hands[r := batch]));
    assert later == now + multiset(batch) by { assert s.hands[r] == []; }
    var stream := Stamped(s.d.recv.stream);
    assert multiset(stream + batch) == multiset(stream) + multiset(batch);
    var t := Go(c, s, Take(r, frame));
    assert multiset(t.handed) + later == multiset(s.handed) + now + multiset(batch);
    assert Stamped(t.d.recv.stream) == stream + batch;
  }

  lemma MoveOver<T>(handed: multiset<T>, one: multiset<T>, rest: multiset<T>, now: multiset<T>, later: multiset<T>)
    requires later + (one + rest) == now + rest
    ensures (handed + one) + later == handed + now
  {
    forall x ensures ((handed + one) + later)[x] == (handed + now)[x] {
      assert (later + (one + rest))[x] == (now + rest)[x];
    }
  }

  lemma AccountedForward(s: Delivery, r: nat)
    requires Accounted(s) && CanForward(s, r)
    ensures Accounted(Forwarded(s, r))
  {
    var h := s.hands[r];
    AllUpdated(s.hands, r, h[1..]);
    HeadAndRest(h);
    assert multiset(s.handed + [h[0]]) == multiset(s.handed) + multiset{h[0]};
    MoveOver(multiset(s.handed), multiset{h[0]}, multiset(h[1..]), multiset(All(s.hands)),
             multiset(All(s.hands[r := h[1..]])));
  }

  lemma AccountedStep(c: Config, s: Delivery, m: Move)
    requires Accounted(s) && Allowed(c, s, m)
    ensures Accounted(Go(c, s, m))
  {
    match m
    case Other(_) =>
    case Connect => assert (s.hands + [[]])[..|s.hands|] == s.hands;
    case Take(r, frame) => AccountedTake(c, s, r, frame);
    case Forward(r) => AccountedForward(s, r);
  }

  lemma {:induction false} AccountedAlways(c: Config, s: Delivery, ms: seq<Move>)
    requires Accounted(s) && Legal(c, s, ms)
    ensures Accounted(Reached(c, s, ms))
    decreases |ms|
  {
    if ms != [] {
      AccountedStep(c, s, ms[0]);
      AccountedAlways(c, Go(c, s, ms[0]), ms[1..]);
    }
  }

  lemma WithoutOne<T>(s: seq<T>, j: nat)
    requires j < |s|
    ensures multiset(s) == multiset{s[j]} + multiset(s[..j] + s[j + 1..])
  {
    assert s == s[..j] + ([s[j]] + s[j + 1..]);
  }

  /** Equal heads taken off, what is left is still the same up to order. */
  lemma SameRest<T>(a: seq<T>, b: seq<T>, j: nat)
    requires a != [] && j < |b| && b[j] == a[0] && multiset(a) == multiset(b)
    ensures multiset(a[1..]) == multiset(b[..j] + b[j + 1..])
  {
    HeadAndRest(a);
    WithoutOne(b, j);
    Cancel(multiset(a[1..]), multiset(b[..j] + b[j + 1..]), multiset{a[0]});
  }

  lemma PayloadsWithoutOne(b: seq<Packet>, j: nat, rest: seq<Packet>)
    requires j < |b| && rest == b[..j] + b[j + 1..]
    ensures multiset(Payloads(b)) == multiset{b[j].payload} + multiset(Payloads(rest))
  {
    WithoutOne(Payloads(b), j);
    assert Payloads(b)[..j] + Payloads(b)[j + 1..] == Payloads(rest);
  }

  lemma Somewhere<T>(a: seq<T>, b: seq<T>) returns (j: nat)
    requires a != [] && multiset(a) == multiset(b)
    ensures j < |b| && b[j] == a[0]
  {
    assert a[0] in multiset(b);
    j :| 0 <= j < |b| && b[j] == a[0];
  }

  lemma {:induction false} SamePayloads(a: seq<Packet>, b: seq<Packet>)
    requires multiset(a) == multiset(b)
    ensures multiset(Payloads(a)) == multiset(Payloads(b))
    decreases |a|
  {
    if a == [] {
      assert |multiset(b)| == 0;
    } else {
      var j := Somewhere(a, b);
      var rest := b[..j] + b[j + 1..];
      SameRest(a, b, j);
      SamePayloads(a[1..], rest);
      PayloadsWithoutOne(a, 0, a[1..]);
      PayloadsWithoutOne(b, j, rest);
    }
  }

  lemma AccountedPayloads(s: Delivery)
    requires Accounted(s)
    ensures multiset(Payloads(s.handed)) + multiset(Payloads(All(s.hands))) == multiset(s.d.recv.stream)
  {
    SamePayloads(s.handed + All(s.hands), Stamped(s.d.recv.stream));
    assert Payloads(s.handed + All(s.hands)) == Payloads(s.handed) + Payloads(All(s.hands));
    assert Payloads(Stamped(s.d.recv.stream)) == s.d.recv.stream;
  }

  /** Over every run, with any number of readers however interleaved: what the application was handed
      and what the readers have in hand are together what was drained, nothing lost and nothing twice;
      and what was drained is a prefix of what was sent. */
  lemma NothingLostOrTwice(c: Config, ms: seq<Move>)
    requires Legal(c, NOTHING_YET, ms)
    ensures var s := Reached(c, NOTHING_YET, ms);
      && multiset(s.handed) + multiset(All(s.hands)) == multiset(Stamped(s.d.recv.stream))
      && multiset(Payloads(s.handed)) + multiset(Payloads(All(s.hands))) == multiset(s.d.recv.stream)
      && s.d.recv.stream <= Produced(s.d.log)
  {
    AccountedAlways(c, NOTHING_YET, ms);
    AccountedPayloads(Reached(c, NOTHING_YET, ms));
    var es := Projects(c, NOTHING_YET, ms);
    Safety(c, es);
  }

  // -------------------------------------------------------------------- order

  predicate InOrder(s: Delivery) { s.handed <= Stamped(s.d.recv.stream) }

  predicate CanHand(s: Delivery, rs: seq<nat>)
    decreases |rs|
  {
    rs == [] || (CanForward(s, rs[0]) && CanHand(Forwarded(s, rs[0]), rs[1..]))
  }

  /** The readers `rs` hand over one packet each, in turn. */
  function Handing(s: Delivery, rs: seq<nat>): Delivery
    requires CanHand(s, rs)
    decreases |rs|
  {
    if rs == [] then s else Handing(Forwarded(s, rs[0]), rs[1..])
  }

  /** In order so far, and in whatever order the readers come to hand over what they have. */
  ghost predicate OrderSure(s: Delivery) { forall rs :: CanHand(s, rs) ==> InOrder(Handing(s, rs)) }

  ghost predicate OrderAlwaysSure(c: Config, s: Delivery, ms: seq<Move>)
    requires Legal(c, s, ms)
    decreases |ms|
  {
    OrderSure(s) && (ms == [] || OrderAlwaysSure(c, Go(c, s, ms[0]), ms[1..]))
  }

  predicate AllEmpty(hands: Hands) { forall i :: 0 <= i < |hands| ==> hands[i] == [] }

  /** No reader drains anything while another still holds packets. */
  ghost predicate NoOverlap(c: Config, s: Delivery, ms: seq<Move>)
    requires Legal(c, s, ms)
    decreases |ms|
  {
    ms == [] ||
    ((ms[0].Take? && Batch(c, s.d, ms[0].frame) != [] ==> AllEmpty(s.hands))
     && NoOverlap(c, Go(c, s, ms[0]), ms[1..]))
  }

  /** At most one reader has anything in hand, and that is what comes next. */
  ghost predicate InARow(s: Delivery) {
    && (forall i, j :: 0 <= i < j < |s.hands| ==> s.hands[i] == [] || s.hands[j] == [])
    && s.handed + All(s.hands) == Stamped(s.d.recv.stream)
  }

  lemma {:induction false} OnlyHand(hands: Hands, r: nat)
    requires r < |hands| && forall i :: 0 <= i < |hands| && i != r ==> hands[i] == []
    ensures All(hands) == hands[r]
    decreases |hands|
  {
    var n := |hands| - 1;
    if r == n { AllOfEmpty(hands[..n]); } else { OnlyHand(hands[..n], r); }
  }

  lemma {:induction false} AllOfEmpty(hands: Hands)
    requires AllEmpty(hands)
    ensures All(hands) == []
    decreases |hands|
  {
    if hands != [] { AllOfEmpty(hands[..|hands| - 1]); }
  }

  lemma OneMoved<T>(handed: seq<T>, hand: seq<T>)
    requires hand != []
    ensures handed + [hand[0]] + hand[1..] == handed + hand
  {
  }

  lemma ForwardInARow(s: Delivery, r: nat)
    requires InARow(s) && CanForward(s, r)
    ensures InARow(Forwarded(s, r))
  {
    OnlyHand(s.hands, r);
    OnlyHand(Forwarded(s, r).hands, r);
    OneMoved(s.handed, s.hands[r]);
  }

  lemma {:induction false} InARowIsSure(s: Delivery, rs: seq<nat>)
    requires InARow(s) && CanHand(s, rs)
    ensures InOrder(Handing(s, rs))
    decreases |rs|
  {
    if rs != [] {
      ForwardInARow(s, rs[0]);
      InARowIsSure(Forwarded(s, rs[0]), rs[1..]);
    }
  }

  lemma TakeNothing(c: Config, s: Delivery, r: nat, frame: Bytes)
    requires InARow(s) && Allowed(c, s, Take(r, frame)) && Batch(c, s.d, frame) == []
    ensures InARow(Go(c, s, Take(r, frame)))
  {
    assert s.hands[r := []] == s.hands;
  }

  lemma TakeAlone(c: Config, s: Delivery, r: nat, frame: Bytes)
    requires InARow(s) && Allowed(c, s, Take(r, frame)) && AllEmpty(s.hands)
    ensures InARow(Go(c, s, Take(r, frame)))
  {
    AllOfEmpty(s.hands);
    assert s.handed == Stamped(s.d.recv.stream);
    OnlyHand(Go(c, s, Take(r, frame)).hands, r);
  }

  lemma {:induction false} SomeInHand(hands: Hands)
    requires !AllEmpty(hands)
    ensures All(hands) != []
    decreases |hands|
  {
    var n := |hands| - 1;
    if hands[n] == [] { SomeInHand(hands[..n]); }
  }

  lemma HandingOne(s: Delivery, r: nat)
    requires CanForward(s, r)
    ensures CanHand(s, [r]) && Handing(s, [r]) == Forwarded(s, r)
  {
    assert [r][1..] == [];
    assert CanHand(Forwarded(s, r), [r][1..]);
  }

  /** A reader that drains something while another holds packets may hand over before it. */
  lemma OverlapBreaksOrder(c: Config, s: Delivery, r: nat, frame: Bytes)
    requires InARow(s) && Allowed(c, s, Take(r, frame)) && Batch(c, s.d, frame) != [] && !AllEmpty(s.hands)
    ensures !OrderSure(Go(c, s, Take(r, frame)))
  {
    var t := Go(c, s, Take(r, frame));
    SomeInHand(s.hands);
    var n := |s.handed|;
    assert n < |s.d.recv.stream|;
    HandingOne(t, r);
    var u := Handing(t, [r]);
    assert u.handed[n] == Batch(c, s.d, frame)[0] == Stamped(t.d.recv.stream)[|s.d.recv.stream|];
    assert Stamped(t.d.recv.stream)[n].number == n;
  }

  lemma InARowIsOrderSure(s: Delivery)
    requires InARow(s)
    ensures OrderSure(s)
  {
    forall rs | CanHand(s, rs) ensures InOrder(Handing(s, rs)) { InARowIsSure(s, rs); }
  }

  /** A step that does not overlap keeps what is in hand in a row. */
  lemma InARowStep(c: Config, s: Delivery, m: Move)
    requires InARow(s) && Allowed(c, s, m)
    requires m.Take? && Batch(c, s.d, m.frame) != [] ==> AllEmpty(s.hands)
    ensures InARow(Go(c, s, m))
  {
    match m
    case Other(_) =>
    case Connect => assert (s.hands + [[]])[..|s.hands|] == s.hands;
    case Take(r, frame) =>
      if Batch(c, s.d, frame) == [] { TakeNothing(c, s, r, frame); } else { TakeAlone(c, s, r, frame); }
    case Forward(r) => ForwardInARow(s, r);
  }

  /** Order, exactly: throughout a run the application is sure to be handed the packets in order,
      whichever reader gets to hand over next, if and only if no reader drained anything while another
      still held packets. */
  lemma {:induction false} OrderExactly(c: Config, s: Delivery, ms: seq<Move>)
    requires InARow(s) && Legal(c, s, ms)
    ensures OrderAlwaysSure(c, s, ms) <==> NoOverlap(c, s, ms)
    ensures NoOverlap(c, s, ms) ==> InARow(Reached(c, s, ms))
    decreases |ms|
  {
    InARowIsOrderSure(s);
    if ms != [] {
      var m := ms[0];
      if m.Take? && Batch(c, s.d, m.frame) != [] && !AllEmpty(s.hands) {
        OverlapBreaksOrder(c, s, m.reader, m.frame);
      } else {
        InARowStep(c, s, m);
        OrderExactly(c, Go(c, s, m), ms[1..]);
      }
    }
  }

  /** The application is then handed a prefix of what was sent, and all that was drained once no
      reader holds any of it. */
  lemma AloneInOrder(c: Config, ms: seq<Move>)
    requires Legal(c, NOTHING_YET, ms) && NoOverlap(c, NOTHING_YET, ms)
    ensures var s := Reached(c, NOTHING_YET, ms);
      && Payloads(s.handed) <= s.d.recv.stream <= Produced(s.d.log)
      && (AllEmpty(s.hands) ==> Payloads(s.handed) == s.d.recv.stream)
  {
    OrderExactly(c, NOTHING_YET, ms);
    var s := Reached(c, NOTHING_YET, ms);
    if AllEmpty(s.hands) { AllOfEmpty(s.hands); }
    var es := Projects(c, NOTHING_YET, ms);
    Safety(c, es);
  }

  /** Only reader `r` drains, as the client's loop does. */
  predicate ByOne(ms: seq<Move>, r: nat) { forall m :: m in ms && m.Take? ==> m.reader == r }

  lemma {:induction false} OneReader(c: Config, s: Delivery, ms: seq<Move>, r: nat)
    requires Legal(c, s, ms) && ByOne(ms, r)
    requires forall i :: 0 <= i < |s.hands| && i != r ==> s.hands[i] == []
    ensures NoOverlap(c, s, ms)
    decreases |ms|
  {
    if ms != [] {
      assert ms[0] in ms && forall m :: m in ms[1..] ==> m in ms;
      OneReader(c, Go(c, s, ms[0]), ms[1..], r);
    }
  }

  /** The client has one reader, so its application is always handed a prefix of what was sent. */
  lemma ClientInOrder(c: Config, ms: seq<Move>, r: nat)
    requires Legal(c, NOTHING_YET, ms) && ByOne(ms, r)
    ensures var s := Reached(c, NOTHING_YET, ms);
      && Payloads(s.handed) <= Produced(s.d.log)
      && (AllEmpty(s.hands) ==> Payloads(s.handed) == s.d.recv.stream)
  {
    OneReader(c, NOTHING_YET, ms, r);
    AloneInOrder(c, ms);
  }

  // ------------------------------------------------------- two readers at once

  ghost predicate Leads(c: Config, s: Delivery, ms: seq<Move>, t: Delivery) {
    Legal(c, s, ms) && Reached(c, s, ms) == t
  }

  lemma Then(c: Config, s: Delivery, m: Move, u: Delivery, ms: seq<Move>, t: Delivery)
    requires Allowed(c, s, m) && Go(c, s, m) == u && Leads(c, u, ms, t)
    ensures Leads(c, s, [m] + ms, t)
  {
    assert ([m] + ms)[1..] == ms;
  }

  lemma NotAlone(c: Config, ms: seq<Move>, t: Delivery)
    requires Leads(c, NOTHING_YET, ms, t) && AllEmpty(t.hands) && Payloads(t.handed) != t.d.recv.stream
    ensures !NoOverlap(c, NOTHING_YET, ms)
  {
    if NoOverlap(c, NOTHING_YET, ms) { AloneInOrder(c, ms); }
  }

  /** Two packets sent, both under way, and one reader. */
  ghost function TwoSent(c: Config, p: Bytes, x: Bytes, q: Bytes, y: Bytes): (d: Direction)
    requires Sealable(0, p, x) && Sealable(1, q, y)
    ensures c.codec.seal(0, p, x) in d.wire && c.codec.seal(1, q, y) in d.wire
    ensures d.log == [Some(p), Some(q)] && d.recv == EMPTY && d.got == map[]
  {
    Next(c, Next(c, START, Produce(p, x, true)), Produce(q, y, true))
  }

  lemma FirstTwoTaken(c: Config, d: Direction, f: Bytes, g: Bytes, p: Bytes, q: Bytes)
    requires f in d.wire && g in d.wire && c.codec.open(f) == Some((0, p)) && c.codec.open(g) == Some((1, q))
    requires d.recv == EMPTY
    ensures var e := Next(c, d, Deliver(f)); e.recv == Recv(1, map[], [p])
    ensures var e := Next(c, Next(c, d, Deliver(f)), Deliver(f)); e.recv == Recv(1, map[], [p])
    ensures var e := Next(c, Next(c, Next(c, d, Deliver(f)), Deliver(f)), Deliver(g));
      e.recv == Recv(2, map[], [p, q]) && e.log == d.log
  {
  }

  lemma BatchIs(c: Config, d: Direction, frame: Bytes, batch: seq<Packet>)
    requires Enabled(c, d, Deliver(frame))
    requires Stamped(Next(c, d, Deliver(frame)).recv.stream) == Stamped(d.recv.stream) + batch
    ensures Batch(c, d, frame) == batch
  {
    var n := |d.recv.stream|;
    assert batch == Stamped(Next(c, d, Deliver(frame)).recv.stream)[n..];
  }

  /** The second reader hands over first. */
  lemma SecondForwardsFirst(c: Config, d: Direction, a: Packet, b: Packet)
    ensures Leads(c, Delivery(d, [[a], [b]], []), [Forward(1), Forward(0)], Delivery(d, [[], []], [b, a]))
  {
    var s, t, u := Delivery(d, [[a], [b]], []), Delivery(d, [[a], []], [b]), Delivery(d, [[], []], [b, a]);
    assert [b][1..] == [] == [a][1..];
    assert s.hands[1 := []] == t.hands && t.hands[0 := []] == u.hands;
    Then(c, t, Forward(0), u, [], u);
    Then(c, s, Forward(1), t, [Forward(0)], u);
    assert [Forward(1)] + [Forward(0)] == [Forward(1), Forward(0)];
    assert [Forward(0)] + [] == [Forward(0)];
  }

  /** The second reader is sent both chunks while the first holds what it drained. */
  lemma BothTake(c: Config, d: Direction, f: Bytes, g: Bytes, p: Bytes, q: Bytes, ms: seq<Move>, t: Delivery)
    requires f in d.wire && g in d.wire && c.codec.open(f) == Some((0, p)) && c.codec.open(g) == Some((1, q))
    requires d.recv == EMPTY
    requires Leads(c, Delivery(Next(c, Next(c, Next(c, d, Deliver(f)), Deliver(f)), Deliver(g)),
                               [[Packet(0, p)], [Packet(1, q)]], []), ms, t)
    ensures Leads(c, Delivery(d, [[]], []), [Take(0, f)] + ([Connect] + ([Take(1, f)] + ([Take(1, g)] + ms))), t)
  {
    FirstTwoTaken(c, d, f, g, p, q);
    var a, b := Packet(0, p), Packet(1, q);
    var d1 := Next(c, d, Deliver(f));
    var d2 := Next(c, d1, Deliver(f));
    BatchIs(c, d, f, [a]);
    BatchIs(c, d1, f, []);
    BatchIs(c, d2, g, [b]);
    var s1, s2, s3 := Delivery(d1, [[a]], []), Delivery(d1, [[a], []], []), Delivery(d2, [[a], []], []);
    Then(c, s3, Take(1, g), Delivery(Next(c, d2, Deliver(g)), [[a], [b]], []), ms, t);
    Then(c, s2, Take(1, f), s3, [Take(1, g)] + ms, t);
    Then(c, s1, Connect, s2, [Take(1, f)] + ([Take(1, g)] + ms), t);
    Then(c, Delivery(d, [[]], []), Take(0, f), s1, [Connect] + ([Take(1, f)] + ([Take(1, g)] + ms)), t);
  }

  lemma BothSent(c: Config, p: Bytes, x: Bytes, q: Bytes, y: Bytes, ms: seq<Move>, t: Delivery)
    requires Sealable(0, p, x) && Sealable(1, q, y)
    requires Leads(c, Delivery(TwoSent(c, p, x, q, y), [[]], []), ms, t)
    ensures Leads(c, NOTHING_YET,
                  [Connect] + ([Other(Produce(p, x, true))] + ([Other(Produce(q, y, true))] + ms)), t)
  {
    var s, one := Delivery(START, [[]], []), Delivery(Next(c, START, Produce(p, x, true)), [[]], []);
    var both := Delivery(TwoSent(c, p, x, q, y), [[]], []);
    Then(c, one, Other(Produce(q, y, true)), both, ms, t);
    Then(c, s, Other(Produce(p, x, true)), one, [Other(Produce(q, y, true))] + ms, t);
    Then(c, NOTHING_YET, Connect, s, [Other(Produce(p, x, true))] + ([Other(Produce(q, y, true))] + ms), t);
  }

  lemma OverlapRun(c: Config, p: Bytes, x: Bytes, q: Bytes, y: Bytes) returns (ms: seq<Move>, t: Delivery)
    requires Sealable(0, p, x) && Sealable(1, q, y)
    ensures Leads(c, NOTHING_YET, ms, t)
    ensures t.d.log == [Some(p), Some(q)] && t.d.recv.stream == [p, q]
    ensures t.hands == [[], []] && t.handed == [Packet(1, q), Packet(0, p)]
  {
    var f, g := c.codec.seal(0, p, x), c.codec.seal(1, q, y);
    var d, a, b := TwoSent(c, p, x, q, y), Packet(0, p), Packet(1, q);
    FirstTwoTaken(c, d, f, g, p, q);
    var e := Next(c, Next(c, Next(c, d, Deliver(f)), Deliver(f)), Deliver(g));
    t := Delivery(e, [[], []], [b, a]);
    SecondForwardsFirst(c, e, a, b);
    ms := [Take(0, f)] + ([Connect] + ([Take(1, f)] + ([Take(1, g)] + [Forward(1), Forward(0)])));
    BothTake(c, d, f, g, p, q, [Forward(1), Forward(0)], t);
    BothSent(c, p, x, q, y, ms, t);
    ms := [Connect] + ([Other(Produce(p, x, true))] + ([Other(Produce(q, y, true))] + ms));
  }

  /** Any two packets can change places: the first reader has drained the first of them and not yet
      handed it over when the client, on its new transport, sends both again; the second reader drops
      the first as a duplicate, drains the second and is the first to hand over. Each is handed over
      once, but what the application gets is no prefix of what was sent. */
  lemma OverlapReorders(c: Config, p: Bytes, x: Bytes, q: Bytes, y: Bytes) returns (ms: seq<Move>)
    requires Sealable(0, p, x) && Sealable(1, q, y) && p != q
    ensures Legal(c, NOTHING_YET, ms) && !NoOverlap(c, NOTHING_YET, ms)
    ensures var s := Reached(c, NOTHING_YET, ms);
      && Produced(s.d.log) == s.d.recv.stream == [p, q] && AllEmpty(s.hands)
      && Payloads(s.handed) == [q, p]
  {
    var t;
    ms, t := OverlapRun(c, p, x, q, y);
    ProducedOfData(t.d.log, 2, [p, q]);
    assert t.d.log[..2] == t.d.log;
    assert Payloads(t.handed) == [q, p];
    NotAlone(c, ms, t);
  }
}
