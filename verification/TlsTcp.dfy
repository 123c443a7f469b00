/** Length-prefixed framing over a byte stream (`tls_tcp.rs`): however the stream is cut into reads
    and wherever a pending `recv` is dropped and retried, the frames come out as they were sent. */
module TlsTcp {
  import opened Prelude
  import opened BigEndian
  import opened Wire

  const MAX_FRAME: nat := 1024 * 1024

  /** What the environment does at an await point of `recv`: a read yields some bytes, ends the
      stream or fails, or the future is dropped while the read is pending. */
  datatype Arrival = Data(bytes: Bytes) | Eof | IoError | Drop

  /** What a call of `recv` ends in. */
  datatype Outcome = Frame(data: Bytes) | TooLarge | Closed | Failed | Dropped

  predicate Declared(buf: Bytes) { |buf| >= 4 }

  function Length(buf: Bytes): nat
    requires Declared(buf)
  {
    U32At(buf, 0)
  }

  predicate Oversize(buf: Bytes) { Declared(buf) && Length(buf) > MAX_FRAME }

  predicate Whole(buf: Bytes) { Declared(buf) && Length(buf) <= MAX_FRAME && |buf| >= 4 + Length(buf) }

  datatype Call = Call(buf: Bytes, rest: seq<Arrival>, outcome: Outcome)

  /** One call: serve a frame if the buffer holds one, else read until it does. */
  function Received(buf: Bytes, script: seq<Arrival>): Call
    decreases |script|
  {
    if Oversize(buf) then Call(buf, script, TooLarge)
    else if Whole(buf) then Call(buf[4 + Length(buf)..], script, Frame(buf[4..4 + Length(buf)]))
    else if script == [] then Call(buf, [], Dropped)
    else
      match script[0]
      case Data(bytes) => if bytes == [] then Call(buf, script[1..], Closed) else Received(buf + bytes, script[1..])
      case Eof => Call(buf, script[1..], Closed)
      case IoError => Call(buf, script[1..], Failed)
      case Drop => Call(buf, script[1..], Dropped)
  }

  class TlsTcpConnection {
    var readBuf: Bytes
    var alive: bool
    /** Everything written to the stream so far. */
    var written: Bytes

    constructor ()
      ensures readBuf == [] && alive && written == []
    {
      readBuf, alive, written := [], true, [];
    }

    /** A length prefix, then the data. */
    method Send(data: Bytes)
      modifies this`written
      ensures written == old(written) + FrameChunk(data)
    {
      written := written + PutU32(|data| % 0x1_0000_0000);
      written := written + data;
    }

    /** `script` is what the stream will do from now on; what is left of it is returned. */
    method Recv(script: seq<Arrival>) returns (outcome: Outcome, rest: seq<Arrival>)
      modifies this`readBuf, this`alive
      ensures Call(readBuf, rest, outcome) == Received(old(readBuf), script)
      ensures alive == (old(alive) && !outcome.TooLarge? && !outcome.Closed?)
    {
      rest := script;
      while true
        invariant Received(readBuf, rest) == Received(old(readBuf), script)
        invariant alive == old(alive)
        decreases |rest|
      {
        if |readBuf| >= 4 {
          var length := U32At(readBuf, 0);
          if length > MAX_FRAME {
            alive := false;
            return TooLarge, rest;
          }
          if |readBuf| >= 4 + length {
            var frame := readBuf[4..4 + length];
            readBuf := readBuf[4 + length..];
            return Frame(frame), rest;
          }
        }
        if rest == [] { return Dropped, rest; }
        var arrival := rest[0];
        rest := rest[1..];
        match arrival {
          case Data(bytes) =>
            if bytes == [] {
              alive := false;
              return Closed, rest;
            }
            readBuf := readBuf + bytes;
          case Eof =>
            alive := false;
            return Closed, rest;
          case IoError => return Failed, rest;
          case Drop => return Dropped, rest;
        }
      }
    }
  }

  /** What stops a call that has no frame: the end of the stream and an empty read close it, an error is
      passed on, and a dropped call leaves its buffer for the next. Data goes behind what is buffered. A
      buffered frame is served before anything is read, and a prefix above one mebibyte is refused. */
  lemma StopsAsTold(buf: Bytes, rest: seq<Arrival>, bytes: Bytes)
    requires |buf| < 4 || (Value(buf[..4]) <= 0x10_0000 && |buf| < 4 + Value(buf[..4]))
    ensures Received(buf, [Eof] + rest) == Call(buf, rest, Closed)
    ensures Received(buf, [Arrival.Data([])] + rest) == Call(buf, rest, Closed)
    ensures Received(buf, [IoError] + rest) == Call(buf, rest, Failed)
    ensures Received(buf, [Drop] + rest) == Call(buf, rest, Dropped)
    ensures bytes != [] ==> Received(buf, [Arrival.Data(bytes)] + rest) == Received(buf + bytes, rest)
  {
    if |buf| >= 4 { Value4(buf[0..4]); assert buf[..4] == buf[0..4]; }
    assert ([Arrival.Data(bytes)] + rest)[1..] == rest && ([Arrival.Data([])] + rest)[1..] == rest;
  }

  lemma ServesFirst(buf: Bytes, script: seq<Arrival>)
    requires |buf| >= 4
    ensures var n := Value(buf[..4]);
      && (n > 0x10_0000 ==> Received(buf, script) == Call(buf, script, TooLarge))
      && (n <= 0x10_0000 && |buf| >= 4 + n
          ==> Received(buf, script) == Call(buf[4 + n..], script, Frame(buf[4..4 + n])))
  {
    Value4(buf[0..4]);
    assert buf[..4] == buf[0..4];
  }

  // ------------------------------------------------------------ the reference

  /** What a byte stream says, independently of how it arrives. */
  datatype Parsed = Parsed(frames: seq<Bytes>, rest: Bytes)

  function Parse(b: Bytes): Parsed
    decreases |b|
  {
    if Whole(b) then
      var p := Parse(b[4 + Length(b)..]);
      Parsed([b[4..4 + Length(b)]] + p.frames, p.rest)
    else Parsed([], b)
  }

  function Framed(frames: seq<Bytes>): Bytes
    decreases |frames|
  {
    if frames == [] then [] else FrameChunk(frames[0]) + Framed(frames[1..])
  }

  function Brought(a: Arrival): Bytes { if a.Data? then a.bytes else [] }

  function Flow(script: seq<Arrival>): Bytes
    decreases |script|
  {
    if script == [] then [] else Brought(script[0]) + Flow(script[1..])
  }

  lemma LengthAppend(b: Bytes, c: Bytes)
    requires Declared(b)
    ensures Declared(b + c) && Length(b + c) == Length(b)
  {
    assert (b + c)[0..4] == b[0..4];
  }

  lemma Associate<T>(a: seq<T>, b: seq<T>, c: seq<T>)
    ensures a + (b + c) == (a + b) + c
  {
  }

  lemma OneMoreCall(buf: Bytes, script: seq<Arrival>, n: nat)
    requires n > 0
    ensures var c, p := Received(buf, script), Calls(buf, script, n);
      var q := Calls(c.buf, c.rest, n - 1);
      p.got == FrameOf(c.outcome) + q.got && Remaining(p) == Remaining(q)
  {
  }

  lemma ThreeParts(b: Bytes, n: nat)
    requires 4 <= n <= |b|
    ensures b == b[0..4] + (b[4..n] + b[n..])
  {
  }

  lemma WholeIsFrame(b: Bytes)
    requires Whole(b)
    ensures FrameChunk(b[4..4 + Length(b)]) + b[4 + Length(b)..] == b
  {
    var data, rest := b[4..4 + Length(b)], b[4 + Length(b)..];
    PutU32OfBytes(b[0..4]);
    assert FrameChunk(data) == b[0..4] + data;
    ThreeParts(b, 4 + Length(b));
    Associate(b[0..4], data, rest);
  }

  // -------------------------------------------------------------- many calls

  datatype Progress = Progress(got: seq<Bytes>, buf: Bytes, rest: seq<Arrival>)

  /** `n` calls of `recv`, one after the other, whatever each of them ends in. */
  function Calls(buf: Bytes, script: seq<Arrival>, n: nat): Progress
    decreases n
  {
    if n == 0 then Progress([], buf, script)
    else
      var c := Received(buf, script);
      var p := Calls(c.buf, c.rest, n - 1);
      p.(got := (if c.outcome.Frame? then [c.outcome.data] else []) + p.got)
  }

  function FrameOf(o: Outcome): seq<Bytes> { if o.Frame? then [o.data] else [] }

  lemma Joined(a: Bytes, b: Bytes, c: Bytes)
    ensures (a + b) + c == a + (b + c)
  {
  }

  lemma FlowCons(buf: Bytes, script: seq<Arrival>)
    requires script != []
    ensures (buf + Brought(script[0])) + Flow(script[1..]) == buf + Flow(script)
  {
    Joined(buf, Brought(script[0]), Flow(script[1..]));
  }

  /** One call takes nothing from the stream that it does not return or keep. */
  lemma {:induction false} ReceivedConserves(buf: Bytes, script: seq<Arrival>)
    ensures var c := Received(buf, script);
      Framed(FrameOf(c.outcome)) + (c.buf + Flow(c.rest)) == buf + Flow(script)
    decreases |script|
  {
    if Oversize(buf) {
    } else if Whole(buf) {
      WholeIsFrame(buf);
      var data, rest, more := buf[4..4 + Length(buf)], buf[4 + Length(buf)..], Flow(script);
      assert Framed([data]) == FrameChunk(data) + [];
      assert Framed([data]) + (rest + more) == (FrameChunk(data) + rest) + more;
    } else if script != [] {
      FlowCons(buf, script);
      match script[0]
      case Data(bytes) =>
        if bytes != [] { ReceivedConserves(buf + bytes, script[1..]); } else { assert buf + bytes == buf; }
      case _ => assert buf + [] == buf;
    }
  }

  lemma ParseWhole(b: Bytes, c: Bytes)
    requires Whole(b)
    ensures var p := Parse(b[4 + Length(b)..] + c);
      Parse(b + c) == Parsed([b[4..4 + Length(b)]] + p.frames, p.rest)
  {
    LengthAppend(b, c);
    var n := 4 + Length(b);
    assert (b + c)[4..n] == b[4..n] && (b + c)[n..] == b[n..] + c;
  }

  /** One call returns the next frame that the stream says, if it returns a frame. */
  lemma {:induction false} ReceivedFollows(buf: Bytes, script: seq<Arrival>)
    ensures var c := Received(buf, script);
      var p := Parse(c.buf + Flow(c.rest));
      Parse(buf + Flow(script)) == Parsed(FrameOf(c.outcome) + p.frames, p.rest)
    decreases |script|
  {
    if Oversize(buf) {
    } else if Whole(buf) {
      ParseWhole(buf, Flow(script));
    } else if script != [] {
      FlowCons(buf, script);
      match script[0]
      case Data(bytes) =>
        if bytes != [] { ReceivedFollows(buf + bytes, script[1..]); } else { assert buf + bytes == buf; }
      case _ => assert buf + [] == buf;
    }
  }

  /** One call returns a frame, or uses up part of the script, or there is no further frame. */
  lemma {:induction false} ReceivedProgresses(buf: Bytes, script: seq<Arrival>)
    ensures var c := Received(buf, script);
      |c.rest| <= |script| && (c.outcome.Frame? || |c.rest| < |script| || Parse(buf + Flow(script)).frames == [])
    decreases |script|
  {
    if Oversize(buf) {
      LengthAppend(buf, Flow(script));
    } else if Whole(buf) {
    } else if script == [] {
      assert buf + Flow([]) == buf;
    } else if script[0].Data? && script[0].bytes != [] {
      ReceivedProgresses(buf + script[0].bytes, script[1..]);
    }
  }

  /** Over any number of calls, with reads cut anywhere and pending calls dropped anywhere: the
      frames returned, framed again, then the buffer, then the bytes not yet read, are the stream. */
  lemma {:induction false} NothingLostOrInvented(buf: Bytes, script: seq<Arrival>, n: nat)
    ensures var p := Calls(buf, script, n); Framed(p.got) + (p.buf + Flow(p.rest)) == buf + Flow(script)
    decreases n
  {
    if n > 0 {
      var c := Received(buf, script);
      var q := Calls(c.buf, c.rest, n - 1);
      ReceivedConserves(buf, script);
      NothingLostOrInvented(c.buf, c.rest, n - 1);
      FramedAppend(FrameOf(c.outcome), q.got);
    }
  }

  lemma {:induction false} FramedAppend(a: seq<Bytes>, b: seq<Bytes>)
    ensures Framed(a + b) == Framed(a) + Framed(b)
    decreases |a|
  {
    if a == [] {
      assert a + b == b;
    } else {
      assert (a + b)[1..] == a[1..] + b;
      FramedAppend(a[1..], b);
    }
  }

  /** What the stream still says after `n` calls, and what it said before. */
  function Remaining(p: Progress): seq<Bytes> { Parse(p.buf + Flow(p.rest)).frames }

  lemma OneCall(buf: Bytes, script: seq<Arrival>)
    ensures var c := Received(buf, script);
      var all, left := Parse(buf + Flow(script)).frames, Parse(c.buf + Flow(c.rest)).frames;
      && all == FrameOf(c.outcome) + left
      && (all == [] || |left| + |c.rest| < |all| + |script|)
  {
    ReceivedFollows(buf, script);
    ReceivedProgresses(buf, script);
  }

  /** The frames returned are what the stream says, in order: how it was cut into reads and where
      calls were dropped makes no difference. */
  lemma {:induction false} CallsFollow(buf: Bytes, script: seq<Arrival>, n: nat)
    ensures var p := Calls(buf, script, n); Parse(buf + Flow(script)).frames == p.got + Remaining(p)
    decreases n
  {
    if n > 0 {
      var c := Received(buf, script);
      var q := Calls(c.buf, c.rest, n - 1);
      OneCall(buf, script);
      OneMoreCall(buf, script, n);
      CallsFollow(c.buf, c.rest, n - 1);
      Associate(FrameOf(c.outcome), q.got, Remaining(q));
    }
  }

  /** And after enough calls they are all of what it says. */
  lemma {:induction false} CallsFinish(buf: Bytes, script: seq<Arrival>, n: nat)
    requires n >= |Parse(buf + Flow(script)).frames| + |script|
    ensures Calls(buf, script, n).got == Parse(buf + Flow(script)).frames
    decreases n
  {
    if Parse(buf + Flow(script)).frames == [] {
      CallsFollow(buf, script, n);
    } else if n > 0 {
      var c := Received(buf, script);
      OneCall(buf, script);
      OneMoreCall(buf, script, n);
      CallsFinish(c.buf, c.rest, n - 1);
    }
  }

  // ----------------------------------------------------------- what was sent

  predicate FitsFrame(data: Bytes) { |data| <= MAX_FRAME }

  /** What the receiver makes of a sent frame at the front of its buffer. */
  lemma SentFrame(data: Bytes, rest: Bytes)
    ensures var b, length := FrameChunk(data) + rest, |data| % 0x1_0000_0000;
      && Declared(b) && Length(b) == length && |b| >= 4 + length && b[4..4 + length] == data[..length]
      && (FitsFrame(data) ==> length == |data| && data[..length] == data && b[4 + length..] == rest)
  {
    var b, length := FrameChunk(data) + rest, |data| % 0x1_0000_0000;
    assert b[0..4] == PutU32(length);
    assert b[4..4 + length] == data[..length];
    if FitsFrame(data) { assert data[..length] == data && b[4 + length..] == rest; }
  }

  /** The frames up to the first that is over the limit. */
  function Passing(frames: seq<Bytes>): seq<Bytes>
    decreases |frames|
  {
    if frames == [] || !FitsFrame(frames[0]) then [] else [frames[0]] + Passing(frames[1..])
  }

  /** Both sequences agree as far as both go. */
  predicate Agree(a: seq<Bytes>, b: seq<Bytes>) { a <= b || b <= a }

  /** A frame over the limit at the front: the receiver stops there, or, if the prefix could not carry
      its length, takes a shorter frame in its place. */
  lemma OverLimit(data: Bytes, rest: Bytes)
    requires !FitsFrame(data)
    ensures var said := Parse(FrameChunk(data) + rest).frames;
      && (said == [] || |said[0]| < |data|)
      && (|data| < 0x1_0000_0000 ==> said == [])
  {
    SentFrame(data, rest);
  }

  lemma WithinLimit(data: Bytes, rest: Bytes)
    requires FitsFrame(data)
    ensures Parse(FrameChunk(data) + rest).frames == [data] + Parse(rest).frames
  {
    SentFrame(data, rest);
  }

  ghost predicate AllFit(frames: seq<Bytes>) { forall i :: 0 <= i < |frames| ==> FitsFrame(frames[i]) }

  ghost predicate PrefixesCarry(frames: seq<Bytes>) { forall i :: 0 <= i < |frames| ==> |frames[i]| < 0x1_0000_0000 }

  lemma AboutTail(frames: seq<Bytes>)
    requires frames != []
    ensures frames == [frames[0]] + frames[1..]
    ensures AllFit(frames) <==> FitsFrame(frames[0]) && AllFit(frames[1..])
    ensures PrefixesCarry(frames) ==> |frames[0]| < 0x1_0000_0000 && PrefixesCarry(frames[1..])
  {
    assert forall i :: 0 <= i < |frames| - 1 ==> frames[1..][i] == frames[i + 1];
  }

  /** What a stream of sent frames says, with the front part of one more behind them: every frame up
      to the first that is over the limit; all of them, and nothing else, exactly if none is; and
      nothing but those frames if every length fits its prefix. */
  lemma {:induction false} ParseSent(frames: seq<Bytes>, tail: Bytes)
    requires !Whole(tail)
    ensures var said := Parse(Framed(frames) + tail).frames;
      && Passing(frames) <= said
      && (said == frames <==> AllFit(frames))
      && (PrefixesCarry(frames) ==> said == Passing(frames))
    decreases |frames|
  {
    if frames == [] {
      assert Framed(frames) + tail == tail;
    } else {
      var rest := Framed(frames[1..]) + tail;
      assert Framed(frames) + tail == FrameChunk(frames[0]) + rest;
      AboutTail(frames);
      if FitsFrame(frames[0]) {
        WithinLimit(frames[0], rest);
        ParseSent(frames[1..], tail);
        Cons(frames[0], Passing(frames[1..]), Parse(rest).frames, frames[1..]);
      } else {
        OverLimit(frames[0], rest);
      }
    }
  }

  lemma Cons(x: Bytes, a: seq<Bytes>, b: seq<Bytes>, c: seq<Bytes>)
    ensures a <= b ==> [x] + a <= [x] + b
    ensures [x] + b == [x] + c <==> b == c
    ensures [x] + b == [x] + a <==> b == a
  {
    assert ([x] + a)[1..] == a && ([x] + b)[1..] == b && ([x] + c)[1..] == c;
  }

  /** The front part of a frame is not whole, as long as what its prefix says is not all there. */
  lemma CutShort(next: Bytes, cut: nat)
    requires cut < 4 + |next| % 0x1_0000_0000
    ensures !Whole(FrameChunk(next)[..cut])
  {
    PartialFrame(next, cut);
  }

  lemma {:induction false} PassingIsPrefix(frames: seq<Bytes>)
    ensures Passing(frames) <= frames
    decreases |frames|
  {
    if frames != [] {
      PassingIsPrefix(frames[1..]);
      assert frames == [frames[0]] + frames[1..];
    }
  }

  lemma PrefixesAgree(got: seq<Bytes>, all: seq<Bytes>, front: seq<Bytes>)
    requires got <= all && front <= all
    ensures Agree(got, front)
  {
  }

  /** For every way the byte stream of the sent frames is cut into reads and every place at which a
      pending call is dropped and retried: up to the first frame over the limit, the frames returned
      are the frames sent; they are never anything else if every length fits its prefix; and after
      enough calls they are all the frames sent exactly when none is over the limit. */
  lemma FramesArriveAsSent(frames: seq<Bytes>, tail: Bytes, script: seq<Arrival>, n: nat)
    requires !Whole(tail) && Flow(script) == Framed(frames) + tail
    ensures var got := Calls([], script, n).got;
      && Agree(got, Passing(frames))
      && (PrefixesCarry(frames) ==> got <= frames)
      && (n < |Parse(Flow(script)).frames| + |script| || (got == frames <==> AllFit(frames)))
  {
    assert [] + Flow(script) == Flow(script);
    var got, said := Calls([], script, n).got, Parse(Flow(script)).frames;
    ParseSent(frames, tail);
    PassingIsPrefix(frames);
    CallsFollow([], script, n);
    PrefixesAgree(got, said, Passing(frames));
    if n >= |said| + |script| { CallsFinish([], script, n); }
  }
}
