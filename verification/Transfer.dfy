/** One direction of a session as a step relation: a sender with its send buffer, every transport
    that has ever carried it, and a receiver. Transports lose, reorder, duplicate and are cut; acks
    and resume positions arrive late, repeatedly, in any order or never; replays are partial or
    repeated. The steps are those of `pipeline.rs` and of the server's `session.rs`. */
module Transfer {
  import opened Prelude
  import opened Crypto
  import opened Wire
  import opened SendSide
  import opened ReceiveSide

  /** How data chunks become frames: `seal(number, payload, padding)`, and `open`, which yields the
      number and payload of a frame that opens to a data chunk. */
  datatype CodecFunctions = CodecFunctions(
    seal: (nat, Bytes, Bytes) -> Bytes,
    open: Bytes -> Option<(nat, Bytes)>)

  predicate Sealable(n: nat, payload: Bytes, padding: Bytes) {
    n <= U64_MAX && |payload| <= MAX_PAYLOAD_SIZE && |padding| < 0x100
  }

  ghost predicate Faithful(f: CodecFunctions) {
    forall n: nat, p, padding :: Sealable(n, p, padding) ==> f.open(f.seal(n, p, padding)) == Some((n, p))
  }

  type Codec = f: CodecFunctions | Faithful(f)
    ghost witness WireCodec(TrivialAead(), [])

  /** The codec of the wire format over any lawful AEAD and key is faithful. */
  ghost function WireCodec(aead: Aead, key: Bytes): (f: CodecFunctions)
    ensures Faithful(f)
  {
    var f := CodecFunctions(
      (n: nat, payload: Bytes, padding: Bytes) =>
        if Sealable(n, payload, padding)
        then EncodeSequenced(aead, NewChunk(Data, payload, |padding|), key, n, padding) else [],
      (frame: Bytes) => DataOf(DecodeSequenced(aead, frame, key)));
    assert Faithful(f) by {
      forall n: nat, p, padding | Sealable(n, p, padding) ensures f.open(f.seal(n, p, padding)) == Some((n, p)) {
        SequencedRoundTrip(aead, key, Data, p, n, padding);
      }
    }
    f
  }

  function DataOf(r: Result<Chunk, ProtocolError>): Option<(nat, Bytes)> {
    if r.Ok? && r.value.header.chunkType == Data then Some((r.value.header.sequence, r.value.payload)) else None
  }

  /** What both ends agree on: the codec under this direction's write key, and the two bounds. */
  datatype Config = Config(codec: Codec, maxSend: nat, maxReceive: nat)

  datatype Direction = Direction(
    log: seq<Option<Bytes>>,  // history: numbers drawn so far, Some(payload) for data, None for control
    accepted: set<nat>,       // history: data chunks that `push` retained
    buffer: Chunks,           // the sender's send buffer
    wire: set<Bytes>,         // frames some transport may still deliver, once or more
    recv: Recv,               // the receive buffer, with all it ever made ready
    got: map<nat, Bytes>,     // history: chunks the receiver accepted
    acks: set<AckInfo>)       // acks and resume positions that may still reach the sender

  const START: Direction := Direction([], {}, map[], {}, EMPTY, map[], {})

  datatype Event =
    | Produce(payload: Bytes, padding: Bytes, sent: bool)  // encrypt, retain, hand to the transport
    | Abandon(payload: Bytes)                              // numbered, then cancelled before retained or sent
    | DrawControl                                          // an ack, ping or pong takes a number
    | Deliver(frame: Bytes)                                // some transport hands a frame over
    | Lose(wire: set<Bytes>, acks: set<AckInfo>)           // loss, or a cut connection
    | Acknowledge(ranges: seq<SackRange>)                  // the receiver builds an ack
    | Report                                               // the receiver states its resume position
    | Apply(ack: AckInfo)                                  // the sender applies an ack or a position
    | Resend(sequence: nat)                                // a replay puts a retained chunk on the wire

  ghost predicate Enabled(c: Config, d: Direction, e: Event) {
    match e
    case Produce(payload, padding, _) =>
      |d.log| < MAX_NONCE && Sealable(|d.log|, payload, padding)
    case Abandon(_) => |d.log| < MAX_NONCE
    case DrawControl => |d.log| < MAX_NONCE
    case Deliver(frame) => frame in d.wire && c.codec.open(frame).Some?
    case Lose(_, _) => true
    case Acknowledge(ranges) => IsAck(d.recv, d.recv.next, ranges)
    case Report => true
    case Apply(ack) => ack in d.acks
    case Resend(k) => k in d.buffer
  }

  ghost function Next(c: Config, d: Direction, e: Event): Direction
    requires Enabled(c, d, e)
  {
    match e
    case Produce(payload, padding, sent) =>
      var n := |d.log|;
      var frame := c.codec.seal(n, payload, padding);
      var fits := PushFits(d.buffer, |frame|, c.maxSend);
      d.(log := d.log + [Some(payload)],
         accepted := if fits then d.accepted + {n} else d.accepted,
         buffer := if fits then d.buffer[n := frame] else d.buffer,
         wire := if sent then d.wire + {frame} else d.wire)
    case Abandon(payload) => d.(log := d.log + [Some(payload)])
    case DrawControl => d.(log := d.log + [None])
    case Deliver(frame) =>
      var (k, payload) := c.codec.open(frame).value;
      var (recv, outcome) := Offer(d.recv, c.maxReceive, k, payload);
      d.(recv := recv, got := if outcome.Ok? then Insert(d.got, k, payload) else d.got)
    case Lose(wire, acks) => d.(wire := d.wire - wire, acks := d.acks - acks)
    case Acknowledge(ranges) => d.(acks := d.acks + {AckInfo(d.recv.next, ranges)})
    case Report => d.(acks := d.acks + {AckInfo(d.recv.next, [])})
    case Apply(ack) => d.(buffer := Release(d.buffer, ack.next, ack.ranges))
    case Resend(k) => d.(wire := d.wire + {d.buffer[k]})
  }

  ghost predicate Run(c: Config, d: Direction, es: seq<Event>)
    decreases |es|
  {
    es == [] || (Enabled(c, d, es[0]) && Run(c, Next(c, d, es[0]), es[1..]))
  }

  ghost function After(c: Config, d: Direction, es: seq<Event>): Direction
    requires Run(c, d, es)
    decreases |es|
  {
    if es == [] then d else After(c, Next(c, d, es[0]), es[1..])
  }

  // -------------------------------------------------------------- invariant

  /** A frame that opens to data number `k` of the log. */
  ghost predicate Carries(c: Config, log: seq<Option<Bytes>>, k: nat, frame: Bytes) {
    k < |log| && log[k].Some? && c.codec.open(frame) == Some((k, log[k].value))
  }

  ghost predicate Retained(c: Config, d: Direction) {
    && |d.log| <= MAX_NONCE
    && (forall k :: k in d.buffer ==> k in d.accepted && Carries(c, d.log, k, d.buffer[k]))
    && (forall k :: k in d.accepted ==> k < |d.log| && d.log[k].Some?)
  }

  ghost predicate OnTheWire(c: Config, d: Direction) {
    forall f :: f in d.wire ==> c.codec.open(f).Some? && Carries(c, d.log, c.codec.open(f).value.0, f)
  }

  ghost predicate InOrderSoFar(d: Direction) {
    && Represents(d.recv, d.got)
    && (forall k :: k in d.got ==> k < |d.log| && d.log[k] == Some(d.got[k]))
  }

  /** Every accepted chunk is still retained or already received. */
  ghost predicate NothingLost(d: Direction) {
    forall k :: k in d.accepted ==> k in d.buffer || k in d.got
  }

  /** Acks and positions under way cover only what the receiver has. */
  ghost predicate AcksTrue(d: Direction) {
    forall a, k: nat :: a in d.acks && Acked(k, a.next, a.ranges) ==> k in d.got
  }

  /** Retention never exceeds its bound by more than one chunk held alone; reassembly never does. */
  ghost predicate Bounded(c: Config, d: Direction) {
    && (Total(d.buffer) <= c.maxSend || |d.buffer| == 1)
    && Total(d.recv.pending) <= c.maxReceive
  }

  ghost predicate Core(c: Config, d: Direction) {
    Retained(c, d) && OnTheWire(c, d) && InOrderSoFar(d) && NothingLost(d) && AcksTrue(d)
  }

  ghost predicate Inv(c: Config, d: Direction) { Core(c, d) && Bounded(c, d) }

  lemma ProduceKeeps(c: Config, d: Direction, e: Event)
    requires Inv(c, d) && Enabled(c, d, e) && e.Produce?
    ensures Core(c, Next(c, d, e))
  {
    var n, t := |d.log|, Next(c, d, e);
    assert Carries(c, t.log, n, c.codec.seal(n, e.payload, e.padding));
    assert forall k: nat, f :: Carries(c, d.log, k, f) ==> Carries(c, t.log, k, f);
  }

  lemma ProduceBounded(c: Config, d: Direction, e: Event)
    requires Inv(c, d) && Enabled(c, d, e) && e.Produce?
    ensures Bounded(c, Next(c, d, e))
  {
    var n := |d.log|;
    var frame := c.codec.seal(n, e.payload, e.padding);
    assert n !in d.buffer;
    TotalInsert(d.buffer, n, frame);
    if d.buffer.Keys == {} { assert d.buffer[n := frame].Keys == {n}; }
  }

  lemma DeliverKeeps(c: Config, d: Direction, e: Event)
    requires Inv(c, d) && Enabled(c, d, e) && e.Deliver?
    ensures Core(c, Next(c, d, e))
  {
    var (k, payload) := c.codec.open(e.frame).value;
    assert Carries(c, d.log, k, e.frame);
    AcceptRepresents(d.recv, d.got, c.maxReceive, k, payload);
  }

  lemma ApplyKeeps(c: Config, d: Direction, e: Event)
    requires Inv(c, d) && Enabled(c, d, e) && e.Apply?
    ensures Inv(c, Next(c, d, e))
  {
    ReleaseBounded(d.buffer, e.ack.next, e.ack.ranges, c.maxSend);
  }

  lemma ReleaseBounded(chunks: Chunks, next: nat, ranges: seq<SackRange>, max: nat)
    requires Total(chunks) <= max || |chunks| == 1
    ensures var kept := Release(chunks, next, ranges); Total(kept) <= max || |kept| == 1
  {
    var kept := Release(chunks, next, ranges);
    var gone := chunks.Keys - kept.Keys;
    assert kept == chunks - gone;
    DropFacts(chunks, gone, max);
  }

  /** A number that nothing is retained or sent under: drawn for control, or for data whose writer was
      cancelled before it had the send buffer. */
  lemma DrawKeeps(c: Config, d: Direction, e: Event)
    requires Inv(c, d) && Enabled(c, d, e) && (e.DrawControl? || e.Abandon?)
    ensures Inv(c, Next(c, d, e))
  {
    assert forall k: nat, f :: Carries(c, d.log, k, f) ==> Carries(c, Next(c, d, e).log, k, f);
  }

  /** Loss, and putting a retained chunk on the wire again. */
  lemma WireKeeps(c: Config, d: Direction, e: Event)
    requires Inv(c, d) && Enabled(c, d, e) && (e.Lose? || e.Resend?)
    ensures Inv(c, Next(c, d, e))
  {
  }

  /** What the receiver says of itself covers only what it has. */
  lemma ReportKeeps(c: Config, d: Direction, e: Event)
    requires Inv(c, d) && Enabled(c, d, e) && (e.Acknowledge? || e.Report?)
    ensures Inv(c, Next(c, d, e))
  {
    assert forall k: nat :: !Covers([], k);
  }

  lemma DeliverBounded(c: Config, d: Direction, e: Event)
    requires Inv(c, d) && Enabled(c, d, e) && e.Deliver?
    ensures Bounded(c, Next(c, d, e))
  {
    OfferBounded(d.recv, c.maxReceive, c.codec.open(e.frame).value.0, c.codec.open(e.frame).value.1);
  }

  /** Every step keeps every part of the invariant. */
  lemma StepInv(c: Config, d: Direction, e: Event)
    requires Inv(c, d) && Enabled(c, d, e)
    ensures Inv(c, Next(c, d, e))
  {
    if e.Produce? {
      ProduceKeeps(c, d, e);
      ProduceBounded(c, d, e);
    } else if e.Deliver? {
      DeliverKeeps(c, d, e);
      DeliverBounded(c, d, e);
    } else if e.Apply? {
      ApplyKeeps(c, d, e);
    } else if e.DrawControl? || e.Abandon? {
      DrawKeeps(c, d, e);
    } else if e.Lose? || e.Resend? {
      WireKeeps(c, d, e);
    } else {
      ReportKeeps(c, d, e);
    }
  }

  lemma {:induction false} RunInv(c: Config, d: Direction, es: seq<Event>)
    requires Inv(c, d) && Run(c, d, es)
    ensures Inv(c, After(c, d, es))
    decreases |es|
  {
    if es != [] {
      StepInv(c, d, es[0]);
      RunInv(c, Next(c, d, es[0]), es[1..]);
    }
  }
}
