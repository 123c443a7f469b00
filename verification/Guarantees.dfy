/** What the continuity protocol guarantees in every reachable state of a direction, over all runs, up
    to the receive buffer: order, no loss, bounds, progress of a replay, and exactly when nothing is
    left undelivered. From the receive buffer to the application is the matter of `HandOver`. */
module Guarantees {
  import opened Prelude
  import opened Crypto
  import opened Wire
  import opened SendSide
  import opened ReceiveSide
  import opened Transfer

  type Log = seq<Option<Bytes>>

  /** The payloads the application sent, in order. */
  function Produced(log: Log): seq<Bytes>
    decreases |log|
  {
    if log == [] then []
    else
      var last := log[|log| - 1];
      Produced(log[..|log| - 1]) + if last.Some? then [last.value] else []
  }

  lemma {:induction false} ProducedPrefix(log: Log, n: nat)
    requires n <= |log|
    ensures Produced(log[..n]) <= Produced(log)
    decreases |log|
  {
    if n == |log| {
      assert log[..n] == log;
    } else {
      ProducedPrefix(log[..|log| - 1], n);
      assert log[..|log| - 1][..n] == log[..n];
    }
  }

  lemma {:induction false} ProducedOfData(log: Log, n: nat, stream: seq<Bytes>)
    requires n <= |log| && |stream| == n
    requires forall k :: 0 <= k < n ==> log[k] == Some(stream[k])
    ensures Produced(log[..n]) == stream
  {
    if n > 0 {
      ProducedOfData(log, n - 1, stream[..n - 1]);
      assert log[..n][..n - 1] == log[..n - 1];
    }
  }

  lemma {:induction false} ProducedOfControl(log: Log, n: nat)
    requires n <= |log| && forall k :: n <= k < |log| ==> log[k].None?
    ensures Produced(log) == Produced(log[..n])
    decreases |log|
  {
    if n == |log| {
      assert log[..n] == log;
    } else {
      ProducedOfControl(log[..|log| - 1], n);
      assert log[..|log| - 1][..n] == log[..n];
    }
  }

  // --------------------------------------------------- order, loss and bounds

  lemma StartInv(c: Config)
    ensures Inv(c, START)
  {
  }

  /** In-order safety: what the receive buffer has made ready is a prefix of what the sending application
      produced. No hypothesis on numbering, acks, bounds or the link. */
  lemma Safety(c: Config, es: seq<Event>)
    requires Run(c, START, es)
    ensures var d := After(c, START, es); d.recv.stream <= Produced(d.log)
  {
    StartInv(c);
    RunInv(c, START, es);
    var d := After(c, START, es);
    TrackedStream(d.log, Sink(d.recv, d.got));
    ProducedPrefix(d.log, d.recv.next);
  }

  /** No loss: a chunk that `push` retained is, forever after, still retained or already held or
      delivered with its own payload; and retained chunks still open to what was sent. */
  lemma NoLoss(c: Config, es: seq<Event>)
    requires Run(c, START, es)
    ensures var d := After(c, START, es);
      forall k :: k in d.accepted ==>
        && k < |d.log| && d.log[k].Some?
        && (  (k in d.buffer && c.codec.open(d.buffer[k]) == Some((k, d.log[k].value)))
           || (k < |d.recv.stream| && d.recv.stream[k] == d.log[k].value)
           || (k in d.recv.pending && d.recv.pending[k] == d.log[k].value))
  {
    StartInv(c);
    RunInv(c, START, es);
  }

  /** Memory stays bounded on both sides whatever the link does, and the position and every number
      held stay below the top of the number space, so `next_expected + 1` and `end + 1` fit a u64. */
  lemma MemoryAndCounters(c: Config, es: seq<Event>)
    requires Run(c, START, es)
    ensures var d := After(c, START, es);
      && (Total(d.buffer) <= c.maxSend || |d.buffer| == 1)
      && Total(d.recv.pending) <= c.maxReceive
      && d.recv.next <= MAX_NONCE
      && forall k :: k in d.recv.pending || k in d.buffer ==> k < MAX_NONCE
  {
    StartInv(c);
    RunInv(c, START, es);
    var d := After(c, START, es);
    TrackedStream(d.log, Sink(d.recv, d.got));
  }

  // --------------------------------------------------- what a control number does

  lemma {:induction false} LogGrows(c: Config, d: Direction, es: seq<Event>)
    requires Run(c, d, es)
    ensures d.log <= After(c, d, es).log
    decreases |es|
  {
    if es != [] { LogGrows(c, Next(c, d, es[0]), es[1..]); }
  }

  /** `next_expected` never passes a number that was never offered: once an ack, ping or pong has
      drawn number `i`, no continuation of the run, however kind, delivers anything beyond it. */
  lemma ControlNumberBlocks(c: Config, d: Direction, i: nat, es: seq<Event>)
    requires Inv(c, d) && i < |d.log| && d.log[i].None? && Run(c, d, es)
    ensures var t := After(c, d, es); t.recv.next <= i && |t.recv.stream| <= i
  {
    RunInv(c, d, es);
    LogGrows(c, d, es);
    assert After(c, d, es).log[i].None?;
  }

  /** Number `n` is nowhere any more: not received, not retained, not under way. */
  ghost predicate Gone(c: Config, d: Direction, n: nat) {
    && n < |d.log| && n !in d.got && n !in d.buffer
    && forall f :: f in d.wire && c.codec.open(f).Some? ==> c.codec.open(f).value.0 != n
  }

  lemma GoneStep(c: Config, d: Direction, n: nat, e: Event)
    requires Inv(c, d) && Gone(c, d, n) && Enabled(c, d, e)
    ensures Gone(c, Next(c, d, e), n)
  {
    if e.Produce? {
      assert c.codec.open(c.codec.seal(|d.log|, e.payload, e.padding)) == Some((|d.log|, e.payload));
    } else if e.Resend? {
      assert Carries(c, d.log, e.sequence, d.buffer[e.sequence]);
    }
  }

  /** Nothing is delivered beyond a number that is gone, whatever happens afterwards. There are three
      ways for a number to go: it was drawn for a control chunk; its chunk was refused by `push` and
      then not sent or lost; or its writer was cancelled between drawing it and retaining it. */
  lemma {:induction false} GoneNumberBlocks(c: Config, d: Direction, n: nat, es: seq<Event>)
    requires Inv(c, d) && Gone(c, d, n) && Run(c, d, es)
    ensures var t := After(c, d, es); Gone(c, t, n) && t.recv.next <= n && |t.recv.stream| <= n
    decreases |es|
  {
    if es != [] {
      GoneStep(c, d, n, es[0]);
      StepInv(c, d, es[0]);
      GoneNumberBlocks(c, Next(c, d, es[0]), n, es[1..]);
    }
  }

  lemma FreshNumberUnknown(c: Config, d: Direction)
    requires Inv(c, d)
    ensures |d.log| !in d.got && |d.log| !in d.buffer
    ensures forall f :: f in d.wire ==> c.codec.open(f).Some? && c.codec.open(f).value.0 < |d.log|
  {
  }

  /** The three ways, each at the moment it happens. */
  lemma WaysToGo(c: Config, d: Direction, payload: Bytes, padding: Bytes)
    requires Inv(c, d) && |d.log| < MAX_NONCE && Sealable(|d.log|, payload, padding)
    ensures Gone(c, Next(c, d, DrawControl), |d.log|)
    ensures Gone(c, Next(c, d, Abandon(payload)), |d.log|)
    ensures var t := Next(c, d, Produce(payload, padding, false));
      Gone(c, t, |d.log|) <==> !PushFits(d.buffer, |c.codec.seal(|d.log|, payload, padding)|, c.maxSend)
  {
    FreshNumberUnknown(c, d);
  }

  lemma RunOne(c: Config, d: Direction, a: Event)
    requires Enabled(c, d, a)
    ensures Run(c, d, [a]) && After(c, d, [a]) == Next(c, d, a)
  {
    assert Run(c, Next(c, d, a), [a][1..]);
  }

  lemma RunTwo(c: Config, d: Direction, a: Event, b: Event, es: seq<Event>)
    requires Enabled(c, d, a) && Enabled(c, Next(c, d, a), b) && Run(c, Next(c, Next(c, d, a), b), es)
    ensures Run(c, d, [a, b] + es) && After(c, d, [a, b] + es) == After(c, Next(c, Next(c, d, a), b), es)
  {
    var all := [a, b] + es;
    assert all[1..] == [b] + es && all[1..][1..] == es;
    assert Run(c, Next(c, d, a), all[1..]);
  }

  /** A control number, and then an empty data chunk that reaches the wire. */
  lemma ControlThenData(c: Config) returns (d: Direction)
    ensures Enabled(c, START, DrawControl) && Enabled(c, Next(c, START, DrawControl), Produce([], [], true))
    ensures d == Next(c, Next(c, START, DrawControl), Produce([], [], true))
    ensures d.log == [None, Some([])] && d.recv == EMPTY
    ensures c.codec.seal(1, [], []) in d.wire && c.codec.open(c.codec.seal(1, [], [])) == Some((1, []))
  {
    assert Sealable(1, [], []);
    d := Next(c, Next(c, START, DrawControl), Produce([], [], true));
  }

  lemma ProducedAfterControl()
    ensures Produced([None, Some([])]) == [[]]
  {
    var log: Log := [None, Some([])];
    assert log[..1] == [None];
    ProducedOfControl([None], 0);
    assert Produced([None]) == [];
  }

  lemma HeldAboveGap(max: nat)
    ensures Offer(EMPTY, max, 1, []).0 == Recv(0, map[1 := []], [])
  {
    assert Total(EMPTY.pending) == 0;
  }

  /** The smallest run that stalls: one control number, then one data chunk, sent and delivered.
      The chunk is held, but never handed over. */
  lemma StallExample(c: Config) returns (es: seq<Event>)
    ensures Run(c, START, es)
    ensures var d := After(c, START, es);
      Produced(d.log) == [[]] && d.recv == Recv(0, map[1 := []], [])
  {
    var deliver := Deliver(c.codec.seal(1, [], []));
    es := [DrawControl, Produce([], [], true)] + [deliver];
    var d := ControlThenData(c);
    ProducedAfterControl();
    HeldAboveGap(c.maxReceive);
    RunOne(c, d, deliver);
    RunTwo(c, START, DrawControl, Produce([], [], true), [deliver]);
  }

  // ----------------------------------------------------------------- replay

  /** No control number below a data number. */
  predicate Dense(log: Log) {
    forall i, j :: 0 <= i < j < |log| && log[j].Some? ==> log[i].Some?
  }

  /** The receiving end alone: its buffer and the chunks it has accepted. */
  datatype Sink = Sink(recv: Recv, got: map<nat, Bytes>)

  ghost predicate Tracks(s: Sink, log: Log) {
    && Represents(s.recv, s.got)
    && (forall k :: k in s.got ==> k < |log| && log[k] == Some(s.got[k]))
  }

  /** Data chunks of the log. */
  ghost predicate AreData(log: Log, ks: seq<nat>) {
    forall i :: 0 <= i < |ks| ==> ks[i] < |log| && log[ks[i]].Some?
  }

  function FeedOne(log: Log, max: nat, s: Sink, k: nat): Sink
    requires k < |log| && log[k].Some?
  {
    var (recv, outcome) := Offer(s.recv, max, k, log[k].value);
    Sink(recv, if outcome.Ok? then Insert(s.got, k, log[k].value) else s.got)
  }

  /** The receiver after a replay of `ks` over a working connection. */
  function Feed(log: Log, max: nat, s: Sink, ks: seq<nat>): Sink
    requires AreData(log, ks)
    decreases |ks|
  {
    if ks == [] then s else Feed(log, max, FeedOne(log, max, s, ks[0]), ks[1..])
  }

  /** What the receive buffer reports for each replayed chunk, in order. */
  function Outcomes(log: Log, max: nat, s: Sink, ks: seq<nat>): (o: seq<Result<Received, ProtocolError>>)
    requires AreData(log, ks)
    ensures |o| == |ks|
    decreases |ks|
  {
    if ks == [] then []
    else [Offer(s.recv, max, ks[0], log[ks[0]].value).1] + Outcomes(log, max, FeedOne(log, max, s, ks[0]), ks[1..])
  }

  lemma FeedOneFacts(log: Log, max: nat, s: Sink, k: nat)
    requires Tracks(s, log) && k < |log| && log[k].Some?
    ensures var t := FeedOne(log, max, s, k);
      && Tracks(t, log)
      && (forall j :: j in s.got ==> j in t.got)
      && (forall j :: j in t.got ==> j in s.got || j == k)
      && (k <= s.recv.next ==> k in t.got)
      && (k <= s.recv.next
          ==> Offer(s.recv, max, k, log[k].value).1 == Ok(if k == s.recv.next then Ready else Duplicate))
      && (k == s.recv.next && s.recv.pending == map[] ==> t.recv.pending == map[] && t.recv.next == k + 1)
  {
    AcceptRepresents(s.recv, s.got, max, k, log[k].value);
  }

  /** `ks` ascends, and every data chunk below the end of the log is received or in it. */
  ghost predicate Outstanding(log: Log, s: Sink, ks: seq<nat>) {
    && AreData(log, ks)
    && (forall i, j :: 0 <= i < j < |ks| ==> ks[i] < ks[j])
    && (forall k :: 0 <= k < |log| && log[k].Some? ==> k in s.got || k in ks)
  }

  /** Everything below the lowest chunk still to be replayed has been received, so that chunk is
      taken or dropped as a duplicate, and what remains is again all that is outstanding. */
  lemma OutstandingStep(log: Log, max: nat, s: Sink, ks: seq<nat>)
    requires Tracks(s, log) && Dense(log) && Outstanding(log, s, ks) && ks != []
    ensures ks[0] <= s.recv.next
    ensures Offer(s.recv, max, ks[0], log[ks[0]].value).1 == Ok(if ks[0] == s.recv.next then Ready else Duplicate)
    ensures var t := FeedOne(log, max, s, ks[0]); Tracks(t, log) && Outstanding(log, t, ks[1..])
  {
    assert ks == [ks[0]] + ks[1..];
    FeedOneFacts(log, max, s, ks[0]);
  }

  /** A replay always progresses: with dense numbering, every replayed chunk is taken as the next
      one or dropped as a duplicate; none is held and none is refused, however small the receive
      bound; and when the replay is complete every data chunk has been received. */
  lemma {:induction false} ReplayProgress(log: Log, max: nat, s: Sink, ks: seq<nat>)
    requires Tracks(s, log) && Dense(log) && Outstanding(log, s, ks)
    ensures forall i :: 0 <= i < |ks| ==> Outcomes(log, max, s, ks)[i] in {Ok(Ready), Ok(Duplicate)}
    ensures Outstanding(log, Feed(log, max, s, ks), [])
    decreases |ks|
  {
    if ks != [] {
      OutstandingStep(log, max, s, ks);
      ReplayProgress(log, max, FeedOne(log, max, s, ks[0]), ks[1..]);
    }
  }

  /** What reaches the receiver while a replay is under way: the replayed chunks, and among them
      whatever else is still in flight, such as chunks sent over the transport being replaced. */
  datatype Arrival = Replayed(k: nat) | Straggler(k: nat)

  function OnlyReplayed(arrivals: seq<Arrival>): (ks: seq<nat>)
    decreases |arrivals|
  {
    if arrivals == [] then []
    else (if arrivals[0].Replayed? then [arrivals[0].k] else []) + OnlyReplayed(arrivals[1..])
  }

  predicate NamesData(log: Log, arrivals: seq<Arrival>) {
    forall i :: 0 <= i < |arrivals| ==> arrivals[i].k < |log| && log[arrivals[i].k].Some?
  }

  function Amid(log: Log, max: nat, s: Sink, arrivals: seq<Arrival>): Sink
    requires NamesData(log, arrivals)
    decreases |arrivals|
  {
    if arrivals == [] then s else Amid(log, max, FeedOne(log, max, s, arrivals[0].k), arrivals[1..])
  }

  lemma StragglerStep(log: Log, max: nat, s: Sink, ks: seq<nat>, k: nat)
    requires Tracks(s, log) && Outstanding(log, s, ks) && k < |log| && log[k].Some?
    ensures var t := FeedOne(log, max, s, k); Tracks(t, log) && Outstanding(log, t, ks)
  {
    FeedOneFacts(log, max, s, k);
  }

  lemma AmidStep(log: Log, max: nat, s: Sink, arrivals: seq<Arrival>)
    requires Tracks(s, log) && Dense(log) && NamesData(log, arrivals) && arrivals != []
    requires Outstanding(log, s, OnlyReplayed(arrivals))
    ensures var a := arrivals[0]; var t := FeedOne(log, max, s, a.k);
      && Tracks(t, log) && Outstanding(log, t, OnlyReplayed(arrivals[1..]))
      && (a.Replayed? ==> Offer(s.recv, max, a.k, log[a.k].value).1 in {Ok(Ready), Ok(Duplicate)})
  {
    var ks := OnlyReplayed(arrivals);
    if arrivals[0].Replayed? {
      OutstandingStep(log, max, s, ks);
      assert ks[1..] == OnlyReplayed(arrivals[1..]);
    } else {
      assert ks == OnlyReplayed(arrivals[1..]);
      StragglerStep(log, max, s, ks, arrivals[0].k);
    }
  }

  /** A replay progresses just as surely with other genuine chunks arriving in between, in any order
      and refused or not: a replayed chunk is taken as the next one or dropped as a duplicate, never
      held and never refused, and at the end everything produced has been delivered. */
  lemma {:induction false} ReplayProgressAmid(log: Log, max: nat, s: Sink, arrivals: seq<Arrival>)
    requires Tracks(s, log) && Dense(log) && NamesData(log, arrivals)
    requires Outstanding(log, s, OnlyReplayed(arrivals))
    ensures ReplayedWell(log, max, s, arrivals)
    ensures Amid(log, max, s, arrivals).recv.stream == Produced(log)
    decreases |arrivals|
  {
    if arrivals == [] {
      AllDelivered(log, s);
    } else {
      AmidStep(log, max, s, arrivals);
      ReplayProgressAmid(log, max, FeedOne(log, max, s, arrivals[0].k), arrivals[1..]);
    }
  }

  /** At its turn, every replayed chunk is reported Ready or Duplicate. */
  predicate ReplayedWell(log: Log, max: nat, s: Sink, arrivals: seq<Arrival>)
    requires NamesData(log, arrivals)
    decreases |arrivals|
  {
    arrivals == [] ||
    (var a := arrivals[0];
     && (a.Replayed? ==> Offer(s.recv, max, a.k, log[a.k].value).1 in {Ok(Ready), Ok(Duplicate)})
     && ReplayedWell(log, max, FeedOne(log, max, s, a.k), arrivals[1..]))
  }

  /** The events of the time of a replay: no number is drawn, anything else may happen. */
  predicate DrawsNone(es: seq<Event>) {
    forall i :: 0 <= i < |es| ==> !es[i].Produce? && !es[i].Abandon? && !es[i].DrawControl?
  }

  /** What a run delivers; `marks` says which of its deliveries are those of the replay. */
  ghost function Arrivals(c: Config, d: Direction, es: seq<Event>, marks: seq<bool>): seq<Arrival>
    requires Run(c, d, es) && |marks| == |es|
    decreases |es|
  {
    if es == [] then []
    else
      var rest := Arrivals(c, Next(c, d, es[0]), es[1..], marks[1..]);
      if !es[0].Deliver? then rest
      else
        var k := c.codec.open(es[0].frame).value.0;
        [if marks[0] then Replayed(k) else Straggler(k)] + rest
  }

  lemma DeliverIsFeed(c: Config, d: Direction, frame: Bytes)
    requires Inv(c, d) && Enabled(c, d, Deliver(frame))
    ensures Carries(c, d.log, c.codec.open(frame).value.0, frame)
    ensures var k, t := c.codec.open(frame).value.0, Next(c, d, Deliver(frame));
      t.log == d.log && Sink(t.recv, t.got) == FeedOne(d.log, c.maxReceive, Sink(d.recv, d.got), k)
  {
    assert Carries(c, d.log, c.codec.open(frame).value.0, frame);
  }

  /** A run that draws no number takes the receiver where its arrivals take it. */
  lemma {:induction false} RunIsAmid(c: Config, d: Direction, es: seq<Event>, marks: seq<bool>)
    requires Inv(c, d) && Run(c, d, es) && |marks| == |es| && DrawsNone(es)
    ensures NamesData(d.log, Arrivals(c, d, es, marks))
    ensures var t := After(c, d, es);
      t.log == d.log
      && Sink(t.recv, t.got) == Amid(d.log, c.maxReceive, Sink(d.recv, d.got), Arrivals(c, d, es, marks))
    decreases |es|
  {
    if es != [] {
      StepInv(c, d, es[0]);
      RunIsAmid(c, Next(c, d, es[0]), es[1..], marks[1..]);
      if es[0].Deliver? { DeliverIsFeed(c, d, es[0].frame); }
    }
  }

  /** So over every run that draws no number, with any losses, acks, resends and deliveries in any order,
      in which the deliveries marked as the replay's are, in order, all that is outstanding: each of
      them is Ready or Duplicate, and at the end everything produced has been made ready. */
  lemma ReplayProgressInRun(c: Config, d: Direction, es: seq<Event>, marks: seq<bool>)
    requires Inv(c, d) && Run(c, d, es) && |marks| == |es| && DrawsNone(es) && Dense(d.log)
    requires Outstanding(d.log, Sink(d.recv, d.got), OnlyReplayed(Arrivals(c, d, es, marks)))
    ensures NamesData(d.log, Arrivals(c, d, es, marks))
    ensures ReplayedWell(d.log, c.maxReceive, Sink(d.recv, d.got), Arrivals(c, d, es, marks))
    ensures After(c, d, es).log == d.log && After(c, d, es).recv.stream == Produced(d.log)
  {
    RunIsAmid(c, d, es, marks);
    ReplayProgressAmid(d.log, c.maxReceive, Sink(d.recv, d.got), Arrivals(c, d, es, marks));
  }

  /** With an exact resume position, nothing held above the gap and nothing in flight, a replay
      causes no duplicate at all. */
  lemma {:induction false} ReplayExact(log: Log, max: nat, s: Sink, ks: seq<nat>)
    requires Tracks(s, log) && Dense(log) && Outstanding(log, s, ks)
    requires s.recv.pending == map[] && forall i :: 0 <= i < |ks| ==> s.recv.next <= ks[i]
    ensures forall i :: 0 <= i < |ks| ==> Outcomes(log, max, s, ks)[i] == Ok(Ready)
    decreases |ks|
  {
    if ks != [] {
      OutstandingStep(log, max, s, ks);
      FeedOneFacts(log, max, s, ks[0]);
      ReplayExact(log, max, FeedOne(log, max, s, ks[0]), ks[1..]);
    }
  }

  lemma {:induction false} FeedGrows(log: Log, max: nat, s: Sink, ks: seq<nat>)
    requires Tracks(s, log) && AreData(log, ks)
    ensures var t := Feed(log, max, s, ks);
      Tracks(t, log) && forall k :: k in t.got ==> k in s.got || k in ks
    decreases |ks|
  {
    if ks != [] {
      FeedOneFacts(log, max, s, ks[0]);
      FeedGrows(log, max, FeedOne(log, max, s, ks[0]), ks[1..]);
    }
  }

  // ------------------------------------------------ replay as a run of the protocol

  /** A replay over a working connection, as steps of the protocol: each chunk resent, then delivered. */
  function ReplayEvents(buffer: Chunks, ks: seq<nat>): seq<Event>
    requires forall i :: 0 <= i < |ks| ==> ks[i] in buffer
    decreases |ks|
  {
    if ks == [] then []
    else [Resend(ks[0]), Deliver(buffer[ks[0]])] + ReplayEvents(buffer, ks[1..])
  }

  lemma ResendDeliver(c: Config, d: Direction, k: nat) returns (e: Direction)
    requires Inv(c, d) && k in d.buffer
    ensures k < |d.log| && d.log[k].Some?
    ensures Enabled(c, d, Resend(k))
    ensures var m := Next(c, d, Resend(k));
      Enabled(c, m, Deliver(d.buffer[k])) && e == Next(c, m, Deliver(d.buffer[k]))
    ensures Inv(c, e) && e.log == d.log && e.buffer == d.buffer
    ensures Sink(e.recv, e.got) == FeedOne(d.log, c.maxReceive, Sink(d.recv, d.got), k)
  {
    assert Carries(c, d.log, k, d.buffer[k]);
    StepInv(c, d, Resend(k));
    var m := Next(c, d, Resend(k));
    StepInv(c, m, Deliver(d.buffer[k]));
    e := Next(c, m, Deliver(d.buffer[k]));
  }

  lemma {:induction false} ReplayRuns(c: Config, d: Direction, ks: seq<nat>)
    requires Inv(c, d) && forall i :: 0 <= i < |ks| ==> ks[i] in d.buffer
    ensures AreData(d.log, ks)
    ensures Run(c, d, ReplayEvents(d.buffer, ks))
    ensures var e := After(c, d, ReplayEvents(d.buffer, ks));
      Sink(e.recv, e.got) == Feed(d.log, c.maxReceive, Sink(d.recv, d.got), ks)
    decreases |ks|
  {
    if ks != [] {
      var e := ResendDeliver(c, d, ks[0]);
      ReplayRuns(c, e, ks[1..]);
      RunTwo(c, d, Resend(ks[0]), Deliver(d.buffer[ks[0]]), ReplayEvents(d.buffer, ks[1..]));
      forall i | 0 <= i < |ks| ensures ks[i] < |d.log| && d.log[ks[i]].Some? {
        if i > 0 { assert ks[i] == ks[1..][i - 1]; }
      }
    }
  }

  /** Every data chunk is still retained or already received: `push` refused none that got lost. */
  ghost predicate NothingMissing(d: Direction) {
    forall k :: 0 <= k < |d.log| && d.log[k].Some? ==> k in d.buffer || k in d.got
  }

  /** What the sender can tell: a chunk is missing exactly if `push` never retained it and it has not
      been received; so if `push` retained every one, none is. */
  lemma NothingMissingExactly(c: Config, d: Direction)
    requires Inv(c, d)
    ensures NothingMissing(d) <==> forall k :: 0 <= k < |d.log| && d.log[k].Some? ==> k in d.accepted || k in d.got
    ensures (forall k :: 0 <= k < |d.log| && d.log[k].Some? ==> k in d.accepted) ==> NothingMissing(d)
  {
  }

  lemma MissingAfterProducing(c: Config, d: Direction, payload: Bytes, padding: Bytes, sent: bool)
    requires |d.log| < MAX_NONCE && Sealable(|d.log|, payload, padding) && |d.log| !in d.got && |d.log| !in d.buffer
    ensures var fits := PushFits(d.buffer, |c.codec.seal(|d.log|, payload, padding)|, c.maxSend);
      NothingMissing(Next(c, d, Produce(payload, padding, sent))) <==> NothingMissing(d) && fits
  {
    var t, n := Next(c, d, Produce(payload, padding, sent)), |d.log|;
    assert t.log[n].Some? && forall k :: 0 <= k < n ==> t.log[k] == d.log[k];
  }

  lemma MissingAfterAbandoning(c: Config, d: Direction, payload: Bytes)
    requires |d.log| < MAX_NONCE && |d.log| !in d.got && |d.log| !in d.buffer
    ensures !NothingMissing(Next(c, d, Abandon(payload)))
  {
    assert Next(c, d, Abandon(payload)).log[|d.log|].Some?;
  }

  /** How one step of the sender changes that: a chunk that `push` takes leaves nothing missing that
      was not missing before; one that it refuses, or that is abandoned, is missing. */
  lemma MissingAfterSending(c: Config, d: Direction, payload: Bytes, padding: Bytes, sent: bool)
    requires Inv(c, d) && |d.log| < MAX_NONCE && Sealable(|d.log|, payload, padding)
    ensures var fits := PushFits(d.buffer, |c.codec.seal(|d.log|, payload, padding)|, c.maxSend);
      NothingMissing(Next(c, d, Produce(payload, padding, sent))) <==> NothingMissing(d) && fits
    ensures !NothingMissing(Next(c, d, Abandon(payload)))
  {
    FreshNumberUnknown(c, d);
    MissingAfterProducing(c, d, payload, padding, sent);
    MissingAfterAbandoning(c, d, payload);
  }

  /** Packets to send, with their padding: number `n` carries `packets(n)`. */
  type Traffic = nat -> (Bytes, Bytes)

  function Sending(packets: Traffic, n: nat): Event { Produce(packets(n).0, packets(n).1, false) }

  ghost predicate AllSealable(packets: Traffic) {
    forall n: nat :: n <= U64_MAX ==> Sealable(n, packets(n).0, packets(n).1)
  }

  ghost function FrameOf(c: Config, packets: Traffic, n: nat): Bytes {
    c.codec.seal(n, packets(n).0, packets(n).1)
  }

  /** The sends of the numbers below `n`. */
  function Sendings(packets: Traffic, n: nat): (es: seq<Event>)
    ensures |es| == n && forall i :: 0 <= i < n ==> es[i] == Sending(packets, i)
  {
    seq(n, i requires 0 <= i < n => Sending(packets, i))
  }

  /** A sender after `n` packets, none of which got through to the transport and none acknowledged. */
  ghost function Unheard(c: Config, packets: Traffic, n: nat): (d: Direction)
    requires n <= MAX_NONCE && AllSealable(packets)
    ensures |d.log| == n && forall k :: 0 <= k < n ==> d.log[k].Some?
  {
    if n == 0 then START else Next(c, Unheard(c, packets, n - 1), Sending(packets, n - 1))
  }

  ghost predicate Fits(c: Config, packets: Traffic, n: nat)
    requires n <= MAX_NONCE && AllSealable(packets)
  {
    PushFits(Unheard(c, packets, n).buffer, |FrameOf(c, packets, n)|, c.maxSend)
  }

  lemma {:induction false} RunSnoc(c: Config, d: Direction, es: seq<Event>, e: Event)
    requires Run(c, d, es) && Enabled(c, After(c, d, es), e)
    ensures Run(c, d, es + [e]) && After(c, d, es + [e]) == Next(c, After(c, d, es), e)
    decreases |es|
  {
    if es == [] {
      RunOne(c, d, e);
      assert es + [e] == [e];
    } else {
      RunSnoc(c, Next(c, d, es[0]), es[1..], e);
      assert (es + [e])[1..] == es[1..] + [e];
    }
  }

  lemma {:induction false} UnheardRun(c: Config, packets: Traffic, n: nat)
    requires n <= MAX_NONCE && AllSealable(packets)
    ensures Run(c, START, Sendings(packets, n))
    ensures After(c, START, Sendings(packets, n)) == Unheard(c, packets, n)
  {
    if n > 0 {
      UnheardRun(c, packets, n - 1);
      RunSnoc(c, START, Sendings(packets, n - 1), Sending(packets, n - 1));
      assert Sendings(packets, n) == Sendings(packets, n - 1) + [Sending(packets, n - 1)];
    }
  }

  lemma UnheardInv(c: Config, packets: Traffic, n: nat)
    requires n <= MAX_NONCE && AllSealable(packets)
    ensures Inv(c, Unheard(c, packets, n))
  {
    StartInv(c);
    UnheardRun(c, packets, n);
    RunInv(c, START, Sendings(packets, n));
  }

  /** What fits is retained, every byte of it. */
  lemma FittingAdds(c: Config, packets: Traffic, n: nat)
    requires n < MAX_NONCE && AllSealable(packets) && Fits(c, packets, n)
    ensures Total(Unheard(c, packets, n + 1).buffer)
         == Total(Unheard(c, packets, n).buffer) + |FrameOf(c, packets, n)|
  {
    var d := Unheard(c, packets, n);
    UnheardInv(c, packets, n);
    FreshNumberUnknown(c, d);
    TotalInsert(d.buffer, n, FrameOf(c, packets, n));
  }

  lemma {:induction false} BytesAdd(c: Config, packets: Traffic, n: nat)
    requires n < MAX_NONCE && AllSealable(packets)
    requires forall k: nat :: k < n ==> Fits(c, packets, k) && FrameOf(c, packets, k) != []
    ensures Total(Unheard(c, packets, n).buffer) >= n
  {
    if n > 0 {
      BytesAdd(c, packets, n - 1);
      FittingAdds(c, packets, n - 1);
    }
  }

  /** Chunks of at least one byte fit only while there are fewer of them than the bound has bytes. */
  lemma RoomShrinks(c: Config, packets: Traffic, n: nat)
    requires n < MAX_NONCE && AllSealable(packets)
    requires forall k: nat :: k <= n ==> Fits(c, packets, k) && FrameOf(c, packets, k) != []
    ensures n <= c.maxSend
  {
    BytesAdd(c, packets, n);
    assert Fits(c, packets, n) && FrameOf(c, packets, n) != [];
    var chunks := Unheard(c, packets, n).buffer;
    if chunks.Keys == {} { assert Total(chunks) == 0; }
  }

  lemma {:induction false} FirstRefused(c: Config, packets: Traffic, n: nat) returns (m: nat)
    requires AllSealable(packets) && n <= c.maxSend + 1 < MAX_NONCE
    requires forall k: nat :: k < MAX_NONCE ==> FrameOf(c, packets, k) != []
    requires forall k: nat :: k < n ==> Fits(c, packets, k)
    ensures m < MAX_NONCE && !Fits(c, packets, m) && forall k: nat :: k < m ==> Fits(c, packets, k)
    decreases c.maxSend + 1 - n
  {
    m := n;
    if Fits(c, packets, n) {
      RoomShrinks(c, packets, n);
      m := FirstRefused(c, packets, n + 1);
    }
  }

  lemma GoneOnceRefused(c: Config, packets: Traffic, n: nat)
    requires n < MAX_NONCE && AllSealable(packets) && !Fits(c, packets, n)
    ensures Gone(c, Unheard(c, packets, n + 1), n)
  {
    UnheardInv(c, packets, n);
    WaysToGo(c, Unheard(c, packets, n), packets(n).0, packets(n).1);
  }

  lemma MissingOnceRefused(c: Config, packets: Traffic, n: nat)
    requires n < MAX_NONCE && AllSealable(packets) && !Fits(c, packets, n)
    ensures !NothingMissing(Unheard(c, packets, n + 1))
  {
    UnheardInv(c, packets, n);
    MissingAfterSending(c, Unheard(c, packets, n), packets(n).0, packets(n).1, false);
  }

  /** The send buffer of any bound can be filled until it refuses a data chunk: packets sent, nothing
      reaching the transport and nothing acknowledged. All before the last are retained and numbering is
      dense; still the last is missing, and neither it nor anything after it is ever delivered. */
  lemma RefusalExample(c: Config, packets: Traffic, later: seq<Event>) returns (n: nat)
    requires AllSealable(packets) && forall k: nat :: k < MAX_NONCE ==> FrameOf(c, packets, k) != []
    requires c.maxSend + 1 < MAX_NONCE
    ensures n < MAX_NONCE && forall k: nat :: k < n ==> Fits(c, packets, k)
    ensures Run(c, START, Sendings(packets, n + 1))
    ensures var t := After(c, START, Sendings(packets, n + 1));
      && Dense(t.log) && !NothingMissing(t)
      && (Run(c, t, later) ==> |After(c, t, later).recv.stream| <= n)
  {
    n := FirstRefused(c, packets, 0);
    UnheardRun(c, packets, n + 1);
    GoneOnceRefused(c, packets, n);
    MissingOnceRefused(c, packets, n);
    UnheardInv(c, packets, n + 1);
    var t := Unheard(c, packets, n + 1);
    if Run(c, t, later) { GoneNumberBlocks(c, t, n, later); }
  }

  lemma WireFramesHaveBytes(aead: Aead, key: Bytes, c: Config, packets: Traffic)
    requires AllSealable(packets) && c.codec == WireCodec(aead, key)
    ensures forall k: nat :: k < MAX_NONCE ==> FrameOf(c, packets, k) != []
  {
    forall k: nat | k < MAX_NONCE ensures FrameOf(c, packets, k) != [] {
      SequencedRoundTrip(aead, key, Data, packets(k).0, k, packets(k).1);
    }
  }

  /** So it happens with the wire format and the bound that both ends use. */
  lemma RefusalAtDefaultBound(aead: Aead, key: Bytes, c: Config, packets: Traffic, later: seq<Event>)
    returns (n: nat)
    requires AllSealable(packets) && c.codec == WireCodec(aead, key) && c.maxSend == DEFAULT_MAX_BUFFER_BYTES
    ensures Run(c, START, Sendings(packets, n + 1))
    ensures var t := After(c, START, Sendings(packets, n + 1));
      && Dense(t.log) && !NothingMissing(t)
      && (Run(c, t, later) ==> |After(c, t, later).recv.stream| <= n)
  {
    WireFramesHaveBytes(aead, key, c, packets);
    n := RefusalExample(c, packets, later);
  }

  lemma FeedCompletes(log: Log, max: nat, s: Sink, ks: seq<nat>)
    requires Tracks(s, log) && AreData(log, ks) && forall i, j :: 0 <= i < j < |ks| ==> ks[i] < ks[j]
    ensures Feed(log, max, s, ks).recv.stream == Produced(log)
            <==> Dense(log) && forall k :: 0 <= k < |log| && log[k].Some? ==> k in s.got || k in ks
  {
    var t := Feed(log, max, s, ks);
    FeedGrows(log, max, s, ks);
    if Dense(log) && Outstanding(log, s, ks) {
      ReplayProgress(log, max, s, ks);
      AllDelivered(log, t);
    }
    if t.recv.stream == Produced(log) { AllDataIsPrefix(log, t); }
  }

  /** Completeness, exactly: from any reachable state, one full replay over a working connection
      has the receive buffer make ready everything produced if and only if no control number was drawn
      below a data number and no data chunk is missing, which is to say refused by `push` and then
      lost, or abandoned by a writer that was cancelled before it could retain or send it. */
  lemma CompletenessExactly(c: Config, d: Direction)
    requires Inv(c, d)
    ensures var es := ReplayEvents(d.buffer, Ascending(d.buffer.Keys));
      Run(c, d, es) && (After(c, d, es).recv.stream == Produced(d.log) <==> Dense(d.log) && NothingMissing(d))
  {
    var ks := Ascending(d.buffer.Keys);
    forall k | k in d.buffer ensures k in ks { var i := AscendingCovers(d.buffer.Keys, k); }
    assert forall k :: k in ks ==> k in d.buffer;
    ReplayRuns(c, d, ks);
    FeedCompletes(d.log, c.maxReceive, Sink(d.recv, d.got), ks);
  }

  /** What a full replay looks like to the receiver, under the same condition: never held, never
      refused; and not even a duplicate when the resume position was applied and nothing is held. */
  lemma ReplayOutcomes(c: Config, d: Direction)
    requires Inv(c, d) && Dense(d.log) && NothingMissing(d)
    ensures AreData(d.log, Ascending(d.buffer.Keys))
    ensures var ks := Ascending(d.buffer.Keys);
      var o := Outcomes(d.log, c.maxReceive, Sink(d.recv, d.got), ks);
      && (forall i :: 0 <= i < |ks| ==> o[i] in {Ok(Ready), Ok(Duplicate)})
      && (d.recv.pending == map[] && (forall k :: k in d.buffer ==> d.recv.next <= k)
          ==> forall i :: 0 <= i < |ks| ==> o[i] == Ok(Ready))
  {
    var ks, s := Ascending(d.buffer.Keys), Sink(d.recv, d.got);
    forall k | k in d.buffer ensures k in ks { var i := AscendingCovers(d.buffer.Keys, k); }
    ReplayRuns(c, d, ks);
    assert Outstanding(d.log, s, ks);
    ReplayProgress(d.log, c.maxReceive, s, ks);
    if d.recv.pending == map[] && forall k :: k in d.buffer ==> d.recv.next <= k {
      ReplayExact(d.log, c.maxReceive, s, ks);
    }
  }

  lemma TrackedStream(log: Log, t: Sink)
    requires Tracks(t, log)
    ensures t.recv.next <= |log| && |t.recv.stream| == t.recv.next
    ensures Produced(log[..t.recv.next]) == t.recv.stream
  {
    if t.recv.next > 0 { assert t.recv.next - 1 in t.got; }
    ProducedOfData(log, t.recv.next, t.recv.stream);
  }

  lemma AllDelivered(log: Log, t: Sink)
    requires Tracks(t, log) && Dense(log) && Outstanding(log, t, [])
    ensures t.recv.stream == Produced(log)
  {
    TrackedStream(log, t);
    ProducedOfControl(log, t.recv.next);
  }

  lemma DataAddsToProduced(log: Log, n: nat, k: nat)
    requires n <= k < |log| && log[k].Some?
    ensures |Produced(log[..n])| < |Produced(log)|
  {
    ProducedPrefix(log, k + 1);
    ProducedPrefix(log[..k], n);
    assert log[..k + 1][..k] == log[..k] && log[..k][..n] == log[..n];
  }

  lemma AllDataIsPrefix(log: Log, t: Sink)
    requires Tracks(t, log) && t.recv.stream == Produced(log)
    ensures Dense(log) && Outstanding(log, t, [])
  {
    TrackedStream(log, t);
    forall k | t.recv.next <= k < |log| ensures log[k].None? {
      if log[k].Some? { DataAddsToProduced(log, t.recv.next, k); }
    }
  }
}
