/** A whole session: both directions at once. An acknowledgement of one direction is a control chunk
    of the other and takes one of its numbers; a transport switch reports both positions. */
module TwoWay {
  import opened Prelude
  import opened Crypto
  import opened Wire
  import opened SendSide
  import opened Transfer
  import opened Guarantees

  /** `up` is client to server, `down` is server to client. */
  datatype Both<T> = Both(up: T, down: T)

  type Configs = Both<Config>
  type Ends = Both<Direction>

  datatype Move =
    | Up(e: Event)
    | Down(e: Event)
    | ServerQueuesAck(ranges: seq<SackRange>)  // the reader builds an ack and queues it for the writer
    | ServerSendsControl                       // the writer numbers a queued ack or pong
    | ClientAcks(ranges: seq<SackRange>)
    | ClientPings
    | Resume(answered: bool)  // the request arrived; the answer may be lost with its connection

  /** The events of one direction that touch nothing of the other. */
  predicate Local(e: Event) { !e.DrawControl? && !e.Acknowledge? && !e.Report? }

  ghost predicate Allowed(c: Configs, s: Ends, m: Move) {
    match m
    case Up(e) => Local(e) && !e.Abandon? && Enabled(c.up, s.up, e)
    case Down(e) => Local(e) && Enabled(c.down, s.down, e)
    case ServerQueuesAck(r) => Enabled(c.up, s.up, Acknowledge(r))
    case ServerSendsControl => Enabled(c.down, s.down, DrawControl)
    case ClientAcks(r) => Enabled(c.down, s.down, Acknowledge(r)) && Enabled(c.up, s.up, DrawControl)
    case ClientPings => Enabled(c.up, s.up, DrawControl)
    case Resume(_) => true
  }

  ghost function Go(c: Configs, s: Ends, m: Move): Ends
    requires Allowed(c, s, m)
  {
    match m
    case Up(e) => s.(up := Next(c.up, s.up, e))
    case Down(e) => s.(down := Next(c.down, s.down, e))
    case ServerQueuesAck(r) => s.(up := Next(c.up, s.up, Acknowledge(r)))
    case ServerSendsControl => s.(down := Next(c.down, s.down, DrawControl))
    case ClientAcks(r) => Both(Next(c.up, s.up, DrawControl), Next(c.down, s.down, Acknowledge(r)))
    case ClientPings => s.(up := Next(c.up, s.up, DrawControl))
    case Resume(answered) =>
      Both(if answered then Next(c.up, s.up, Report) else s.up, Next(c.down, s.down, Report))
  }

  ghost predicate Legal(c: Configs, s: Ends, ms: seq<Move>)
    decreases |ms|
  {
    ms == [] || (Allowed(c, s, ms[0]) && Legal(c, Go(c, s, ms[0]), ms[1..]))
  }

  ghost function Reached(c: Configs, s: Ends, ms: seq<Move>): Ends
    requires Legal(c, s, ms)
    decreases |ms|
  {
    if ms == [] then s else Reached(c, Go(c, s, ms[0]), ms[1..])
  }

  /** What one move means to each direction: at most one of its own events. */
  ghost function UpPart(m: Move): seq<Event> {
    match m
    case Up(e) => [e]
    case ServerQueuesAck(r) => [Acknowledge(r)]
    case ClientAcks(_) => [DrawControl]
    case ClientPings => [DrawControl]
    case Resume(answered) => if answered then [Report] else []
    case _ => []
  }

  ghost function DownPart(m: Move): seq<Event> {
    match m
    case Down(e) => [e]
    case ServerSendsControl => [DrawControl]
    case ClientAcks(r) => [Acknowledge(r)]
    case Resume(_) => [Report]
    case _ => []
  }

  lemma Prepend(c: Config, d: Direction, part: seq<Event>, es: seq<Event>)
    requires |part| <= 1 && (|part| == 1 ==> Enabled(c, d, part[0]))
    requires Run(c, if |part| == 1 then Next(c, d, part[0]) else d, es)
    ensures Run(c, d, part + es)
    ensures After(c, d, part + es) == After(c, if |part| == 1 then Next(c, d, part[0]) else d, es)
  {
    if |part| == 0 { assert part + es == es; } else { assert (part + es)[1..] == es; }
  }

  /** A session run is a run of each of its directions, so everything proved of one direction holds
      of both at once. */
  lemma {:induction false} Projects(c: Configs, s: Ends, ms: seq<Move>)
    returns (up: seq<Event>, down: seq<Event>)
    requires Legal(c, s, ms)
    ensures Run(c.up, s.up, up) && After(c.up, s.up, up) == Reached(c, s, ms).up
    ensures Run(c.down, s.down, down) && After(c.down, s.down, down) == Reached(c, s, ms).down
    decreases |ms|
  {
    up, down := [], [];
    if ms != [] {
      var m := ms[0];
      up, down := Projects(c, Go(c, s, m), ms[1..]);
      Prepend(c.up, s.up, UpPart(m), up);
      Prepend(c.down, s.down, DownPart(m), down);
      up, down := UpPart(m) + up, DownPart(m) + down;
    }
  }

  const FRESH: Ends := Both(START, START)

  /** Over every run of a session, what each receive buffer has made ready is a prefix of what the other
      end sent. `HandOver` goes on from there: the client's application is handed just that, the server's
      only if no two of its readers overlap. */
  lemma BothStreamsInOrder(c: Configs, ms: seq<Move>)
    requires Legal(c, FRESH, ms)
    ensures var s := Reached(c, FRESH, ms);
      s.up.recv.stream <= Produced(s.up.log) && s.down.recv.stream <= Produced(s.down.log)
  {
    var up, down := Projects(c, FRESH, ms);
    Safety(c.up, up);
    Safety(c.down, down);
  }

  /** Acks, pings and pongs take a number of their own sending direction, so data sent that way
      afterwards is never delivered: from any reachable state, whatever happens after such a chunk,
      the other end makes ready no more than the numbers drawn before it. */
  lemma ControlStallsItsDirection(c: Configs, before: seq<Move>, m: Move, later: seq<Move>)
    requires m.ServerSendsControl? || m.ClientAcks? || m.ClientPings?
    requires Legal(c, FRESH, before) && Allowed(c, Reached(c, FRESH, before), m)
    requires Legal(c, Go(c, Reached(c, FRESH, before), m), later)
    ensures var s := Reached(c, FRESH, before);
      var t := Reached(c, Go(c, s, m), later);
      if m.ServerSendsControl? then |t.down.recv.stream| <= |s.down.log| else |t.up.recv.stream| <= |s.up.log|
  {
    var s := Reached(c, FRESH, before);
    var t := Go(c, s, m);
    var up, down := Projects(c, FRESH, before);
    var up', down' := Projects(c, t, later);
    if m.ServerSendsControl? {
      DrawnNumberBlocks(c.down, down, down');
    } else {
      DrawnNumberBlocks(c.up, up, up');
    }
  }

  lemma DrawnNumberBlocks(c: Config, before: seq<Event>, later: seq<Event>)
    requires Run(c, START, before) && Enabled(c, After(c, START, before), DrawControl)
    requires Run(c, Next(c, After(c, START, before), DrawControl), later)
    ensures var d := After(c, START, before);
      |After(c, Next(c, d, DrawControl), later).recv.stream| <= |d.log|
  {
    var d := After(c, START, before);
    StartInv(c);
    RunInv(c, START, before);
    StepInv(c, d, DrawControl);
    ControlNumberBlocks(c, Next(c, d, DrawControl), |d.log|, later);
  }
}
