/** The front door's admission check (`Admitter` of `frontdoor.rs`): an authenticator in a cookie,
    usable once, within two minutes. */
module Frontdoor {
  import opened Prelude
  import opened Crypto
  import opened Tokens
  import BigEndian

  const MAX_AGE: nat := 120
  const NONCE_BYTES: nat := 16
  const MAC_BYTES: nat := 32

  datatype Admission = Web | Tunnel

  datatype Token = Token(timestamp: U64, nonce: Bytes)

  /** The bytes of `kanrin-admit`. */
  const LABEL: Bytes := [0x6b, 0x61, 0x6e, 0x72, 0x69, 0x6e, 0x2d, 0x61, 0x64, 0x6d, 0x69, 0x74]

  function Compute(mac: Mac, key: Bytes, t: Token): Bytes {
    mac(key, LABEL + BigEndian.PutU64(t.timestamp) + t.nonce)
  }

  /** A fresh authenticator; the nonce comes from the random source. */
  function Mint(mac: Mac, key: Bytes, t: Token): string {
    Hex(t.timestamp) + [':'] + HexBytes(t.nonce) + [':'] + HexBytes(Compute(mac, key, t))
  }

  /** What a Cookie header claims: a token and its MAC. */
  function Claim(header: string): (r: Option<(Token, Bytes)>)
    ensures r.Some? ==> |r.value.0.nonce| == NONCE_BYTES && |r.value.1| == MAC_BYTES
  {
    match CookieValue(header, "sid")
    case None => None
    case Some(value) =>
      var parts := Split(value, ':');
      if |parts| != 3 then None
      else
        match (FromHex(parts[0], U64_MAX), UnhexSpec(parts[1], NONCE_BYTES), UnhexSpec(parts[2], MAC_BYTES))
        case (Some(ts), Some(nonce), Some(tag)) => Some((Token(ts, nonce), tag))
        case _ => None
  }

  predicate Near(now: nat, timestamp: nat) { AbsDiff(now, timestamp) <= MAX_AGE }

  predicate InWindow(t: Token, now: nat) { Near(now, t.timestamp) }

  /** The token that a header proves: in the window and correctly authenticated. */
  function Proven(mac: Mac, key: Bytes, header: string, now: nat): (r: Option<Token>)
    ensures r.Some? ==> InWindow(r.value, now)
  {
    match Claim(header)
    case Some((t, tag)) => if InWindow(t, now) && tag == Compute(mac, key, t) then Some(t) else None
    case None => None
  }

  /** `retain` of the entries that could still matter. */
  function Current(seen: seq<Token>, now: nat): (r: seq<Token>)
    ensures forall i :: 0 <= i < |r| ==> InWindow(r[i], now)
    decreases |seen|
  {
    if seen == [] then []
    else
      var n := |seen| - 1;
      var front := Current(seen[..n], now);
      if InWindow(seen[n], now) then front + [seen[n]] else front
  }

  predicate SpentIn(seen: seq<Token>, nonce: Bytes) { exists i :: 0 <= i < |seen| && seen[i].nonce == nonce }

  function Decide(mac: Mac, key: Bytes, seen: seq<Token>, header: string, now: nat): (seq<Token>, Admission) {
    match Proven(mac, key, header, now)
    case None => (seen, Web)
    case Some(t) =>
      var current := Current(seen, now);
      if SpentIn(current, t.nonce) then (current, Web) else (current + [t], Tunnel)
  }

  /** The header claims a token of the last or the next two minutes together with the MAC that the holder
      of the key computes for it. */
  ghost predicate Authentic(mac: Mac, key: Bytes, header: string, now: nat) {
    && Claim(header).Some?
    && var (t, tag) := Claim(header).value;
       && tag == mac(key, LABEL + BigEndian.PutU64(t.timestamp) + t.nonce)
       && t.timestamp - 120 <= now <= t.timestamp + 120
  }

  /** No token in the cache that is still in its window has the nonce of `t`. */
  ghost predicate UnusedBy(seen: seq<Token>, t: Token, now: nat) {
    forall i :: 0 <= i < |seen| && seen[i].nonce == t.nonce
      ==> now > seen[i].timestamp + 120 || now < seen[i].timestamp - 120
  }

  lemma DecidesExactly(mac: Mac, key: Bytes, seen: seq<Token>, header: string, now: nat)
    ensures Proven(mac, key, header, now).Some? <==> Authentic(mac, key, header, now)
    ensures Authentic(mac, key, header, now) ==> Proven(mac, key, header, now) == Some(Claim(header).value.0)
    ensures Decide(mac, key, seen, header, now).1 == Tunnel
            <==> Authentic(mac, key, header, now) && UnusedBy(seen, Claim(header).value.0, now)
  {
    if Authentic(mac, key, header, now) { CurrentUnused(seen, Claim(header).value.0, now); }
  }

  lemma CurrentUnused(seen: seq<Token>, t: Token, now: nat)
    ensures SpentIn(Current(seen, now), t.nonce) <==> !UnusedBy(seen, t, now)
  {
    forall u ensures u in Current(seen, now) <==> u in seen && InWindow(u, now) { CurrentMembers(seen, now, u); }
    if SpentIn(Current(seen, now), t.nonce) {
      var i :| 0 <= i < |Current(seen, now)| && Current(seen, now)[i].nonce == t.nonce;
      assert Current(seen, now)[i] in seen;
    }
    if !UnusedBy(seen, t, now) {
      var i :| 0 <= i < |seen| && seen[i].nonce == t.nonce && InWindow(seen[i], now);
      assert seen[i] in Current(seen, now);
    }
  }

  /** What is authenticated determines the token: two tokens never give the MAC the same input. */
  lemma MacInputInjective(a: Token, b: Token)
    requires LABEL + BigEndian.PutU64(a.timestamp) + a.nonce == LABEL + BigEndian.PutU64(b.timestamp) + b.nonce
    requires |a.nonce| == |b.nonce| == 16
    ensures a == b
  {
    var x, y := LABEL + BigEndian.PutU64(a.timestamp) + a.nonce, LABEL + BigEndian.PutU64(b.timestamp) + b.nonce;
    assert x[12..20] == BigEndian.PutU64(a.timestamp) && y[12..20] == BigEndian.PutU64(b.timestamp);
    assert x[20..] == a.nonce && y[20..] == b.nonce;
    assert BigEndian.U64Of(x[12..20]) == a.timestamp && BigEndian.U64Of(y[12..20]) == b.timestamp;
  }

  class Admitter {
    const mac: Mac
    const key: Bytes
    var seen: seq<Token>

    constructor (mac: Mac, key: Bytes)
      ensures seen == [] && this.mac == mac && this.key == key
    {
      this.mac, this.key, seen := mac, key, [];
    }

    method Retain(now: nat)
      modifies this`seen
      ensures seen == Current(old(seen), now)
    {
      var kept: seq<Token> := [];
      for i := 0 to |seen|
        invariant kept == Current(seen[..i], now)
      {
        assert seen[..i + 1][..i] == seen[..i];
        if InWindow(seen[i], now) { kept := kept + [seen[i]]; }
      }
      assert seen[..|seen|] == seen;
      seen := kept;
    }

    /** An absent header is the empty one. */
    method ReadClaim(header: string) returns (r: Option<(Token, Bytes)>)
      ensures r == Claim(header)
    {
      var value := CookieValue(header, "sid");
      if value.None? { return None; }
      var parts := Split(value.value, ':');
      if |parts| != 3 { return None; }
      var timestamp := FromHex(parts[0], U64_MAX);
      var nonce := Unhex(parts[1], NONCE_BYTES);
      var tag := Unhex(parts[2], MAC_BYTES);
      if timestamp.None? || nonce.None? || tag.None? { return None; }
      return Some((Token(timestamp.value, nonce.value), tag.value));
    }

    method IsSpent(nonce: Bytes) returns (r: bool)
      ensures r <==> SpentIn(seen, nonce)
    {
      for i := 0 to |seen|
        invariant forall j :: 0 <= j < i ==> seen[j].nonce != nonce
      {
        if seen[i].nonce == nonce { return true; }
      }
      return false;
    }

    method Admit(header: string, now: U64) returns (r: Admission)
      modifies this`seen
      ensures r == Tunnel <==> Authentic(mac, key, header, now) && UnusedBy(old(seen), Claim(header).value.0, now)
      ensures r == Tunnel ==> Claim(header).value.0 in seen
      ensures (seen, r) == Decide(mac, key, old(seen), header, now)
      ensures r == Tunnel ==> forall i :: 0 <= i < |seen| ==> InWindow(seen[i], now)
    {
      DecidesExactly(mac, key, seen, header, now);
      var claim := ReadClaim(header);
      if claim.None? { return Web; }
      var (t, tag) := claim.value;
      if AbsDiff(now, t.timestamp) > MAX_AGE { return Web; }
      if Compute(mac, key, t) != tag { return Web; }
      Retain(now);
      var spent := IsSpent(t.nonce);
      if spent { return Web; }
      seen := seen + [t];
      return Tunnel;
    }
  }

  // ------------------------------------------------------------- mint and read

  lemma ThreeParts(a: string, b: string, c: string)
    requires ':' !in a && ':' !in b && ':' !in c
    ensures Split(a + [':'] + b + [':'] + c, ':') == [a, b, c]
  {
    assert a + [':'] + b + [':'] + c == a + [':'] + (b + [':'] + c);
    SplitAt(a, ':', b + [':'] + c);
    SplitAt(b, ':', c);
    assert Split(c, ':') == [c];
  }

  lemma TextParts(t: Token, tag: Bytes)
    ensures Split(Hex(t.timestamp) + [':'] + HexBytes(t.nonce) + [':'] + HexBytes(tag), ':')
         == [Hex(t.timestamp), HexBytes(t.nonce), HexBytes(tag)]
  {
    NoColon(Hex(t.timestamp));
    NoColon(HexBytes(t.nonce));
    NoColon(HexBytes(tag));
    ThreeParts(Hex(t.timestamp), HexBytes(t.nonce), HexBytes(tag));
  }

  lemma NoColon(s: string)
    requires forall i :: 0 <= i < |s| ==> IsLowerHex(s[i])
    ensures ':' !in s
  {
  }

  lemma ClaimOfText(header: string, text: string, t: Token, tag: Bytes)
    requires |t.nonce| == NONCE_BYTES && |tag| == MAC_BYTES
    requires text == Hex(t.timestamp) + [':'] + HexBytes(t.nonce) + [':'] + HexBytes(tag)
    requires CookieValue(header, "sid") == Some(text)
    ensures Claim(header) == Some((t, tag))
  {
    TextParts(t, tag);
    HexReadBack(t.timestamp, U64_MAX);
    UnhexHex(t.nonce);
    UnhexHex(tag);
  }

  /** Whatever other cookies a browser sends before and after it, the text of a token and a tag, right or
      wrong, is read back as that token and that tag, through the cookie, colon and base16 parsers. */
  lemma ClaimIsRead(text: string, t: Token, tag: Bytes, before: string, after: string)
    requires |t.nonce| == NONCE_BYTES && |tag| == MAC_BYTES && CookieValue(before, "sid") == None
    requires text == Hex(t.timestamp) + [':'] + HexBytes(t.nonce) + [':'] + HexBytes(tag)
    ensures Claim("sid=" + text) == Some((t, tag))
    ensures Claim("sid=" + text + ";" + after) == Some((t, tag))
    ensures Claim(before + "; " + "sid=" + text) == Some((t, tag))
    ensures Claim(before + "; " + "sid=" + text + ";" + after) == Some((t, tag))
  {
    CookieFound(before, text);
    CookieFoundAmong(before, text, after);
    ClaimOfText("sid=" + text, text, t, tag);
    ClaimOfText("sid=" + text + ";" + after, text, t, tag);
    ClaimOfText(before + "; " + "sid=" + text, text, t, tag);
    ClaimOfText(before + "; " + "sid=" + text + ";" + after, text, t, tag);
  }

  /** In particular a minted authenticator is read back as it was minted. */
  lemma MintedIsRead(mac: Mac, key: Bytes, t: Token, others: string)
    requires |t.nonce| == NONCE_BYTES && CookieValue(others, "sid") == None
    ensures Claim("sid=" + Mint(mac, key, t)) == Some((t, Compute(mac, key, t)))
    ensures Claim(others + "; " + "sid=" + Mint(mac, key, t)) == Some((t, Compute(mac, key, t)))
  {
    ClaimIsRead(Mint(mac, key, t), t, Compute(mac, key, t), others, "");
  }

  // -------------------------------------------------------------------- runs

  datatype Request = Request(header: string, at: nat)

  datatype Memory = Memory(seen: seq<Token>, all: seq<Token>)

  /** One request, against the pruned cache and against a history that is never pruned. */
  function Serve(mac: Mac, key: Bytes, m: Memory, q: Request): (Memory, Admission) {
    var (seen, r) := Decide(mac, key, m.seen, q.header, q.at);
    (Memory(seen, if r.Tunnel? then m.all + [Proven(mac, key, q.header, q.at).value] else m.all), r)
  }

  function ServeAll(mac: Mac, key: Bytes, qs: seq<Request>): Memory
    decreases |qs|
  {
    if qs == [] then Memory([], [])
    else Serve(mac, key, ServeAll(mac, key, qs[..|qs| - 1]), qs[|qs| - 1]).0
  }

  /** Over any run: whoever was given the tunnel presented the MAC of the token it was given for, while
      that token was fresh. */
  lemma {:induction false} AdmittedWereAuthentic(mac: Mac, key: Bytes, qs: seq<Request>, t: Token)
    requires t in ServeAll(mac, key, qs).all
    ensures exists i :: 0 <= i < |qs| && Authentic(mac, key, qs[i].header, qs[i].at)
                        && Claim(qs[i].header).value.0 == t
    decreases |qs|
  {
    var n := |qs| - 1;
    var m, q := ServeAll(mac, key, qs[..n]), qs[n];
    DecidesExactly(mac, key, m.seen, q.header, q.at);
    if t in m.all {
      AdmittedWereAuthentic(mac, key, qs[..n], t);
      var i :| 0 <= i < n && Authentic(mac, key, qs[..n][i].header, qs[..n][i].at)
               && Claim(qs[..n][i].header).value.0 == t;
      assert qs[i] == qs[..n][i];
    } else {
      assert Authentic(mac, key, qs[n].header, qs[n].at) && Claim(qs[n].header).value.0 == t;
    }
  }

  ghost predicate Forward(qs: seq<Request>) { forall i, j :: 0 <= i < j < |qs| ==> qs[i].at <= qs[j].at }

  lemma {:induction false} CurrentLater(seen: seq<Token>, now: nat, later: nat)
    requires now <= later
    requires forall i :: 0 <= i < |seen| ==> seen[i].timestamp <= now + MAX_AGE
    ensures Current(Current(seen, now), later) == Current(seen, later)
    decreases |seen|
  {
    if seen != [] {
      var n := |seen| - 1;
      CurrentLater(seen[..n], now, later);
      CurrentSnoc(Current(seen[..n], now), seen[n], later);
    }
  }

  lemma CurrentSnoc(seen: seq<Token>, t: Token, now: nat)
    ensures Current(seen + [t], now) == if InWindow(t, now) then Current(seen, now) + [t] else Current(seen, now)
  {
    assert (seen + [t])[..|seen|] == seen;
  }

  lemma {:induction false} CurrentMembers(seen: seq<Token>, now: nat, t: Token)
    ensures t in Current(seen, now) <==> t in seen && InWindow(t, now)
    decreases |seen|
  {
    if seen != [] {
      CurrentMembers(seen[..|seen| - 1], now, t);
      assert seen == seen[..|seen| - 1] + [seen[|seen| - 1]];
    }
  }

  /** From `now` on, the pruned cache is as good as the whole history. */
  ghost predicate Agrees(m: Memory, now: nat) {
    && (forall i :: 0 <= i < |m.seen| ==> m.seen[i].timestamp <= now + MAX_AGE)
    && (forall later: nat :: now <= later ==> Current(m.seen, later) == Current(m.all, later))
    && (forall i, j :: 0 <= i < j < |m.all| ==> m.all[i] != m.all[j])
  }

  lemma PruneKeeps(seen: seq<Token>, all: seq<Token>, now: nat)
    requires Agrees(Memory(seen, all), now)
    ensures Agrees(Memory(Current(seen, now), all), now)
  {
    forall later: nat | now <= later ensures Current(Current(seen, now), later) == Current(all, later) {
      CurrentLater(seen, now, later);
    }
  }

  lemma NoteKeeps(seen: seq<Token>, t: Token, all: seq<Token>, now: nat)
    requires Agrees(Memory(seen, all), now) && InWindow(t, now)
    requires t !in all
    ensures Agrees(Memory(seen + [t], all + [t]), now)
  {
    forall later: nat | now <= later ensures Current(seen + [t], later) == Current(all + [t], later) {
      CurrentSnoc(seen, t, later);
      CurrentSnoc(all, t, later);
    }
  }

  lemma DecideKeeps(seen: seq<Token>, t: Token, all: seq<Token>, now: nat)
    requires Agrees(Memory(seen, all), now) && InWindow(t, now)
    ensures Agrees(Memory(Current(seen, now), all), now)
    ensures !SpentIn(Current(seen, now), t.nonce) ==> Agrees(Memory(Current(seen, now) + [t], all + [t]), now)
  {
    PruneKeeps(seen, all, now);
    if !SpentIn(Current(seen, now), t.nonce) {
      CurrentMembers(all, now, t);
      assert Current(seen, now) == Current(all, now);
      NoteKeeps(Current(seen, now), t, all, now);
    }
  }

  lemma {:induction false} AgreesAlways(mac: Mac, key: Bytes, qs: seq<Request>, now: nat)
    requires Forward(qs) && (qs != [] ==> qs[|qs| - 1].at <= now)
    ensures Agrees(ServeAll(mac, key, qs), now)
    decreases |qs|
  {
    if qs != [] {
      var n := |qs| - 1;
      var m, q := ServeAll(mac, key, qs[..n]), qs[n];
      AgreesAlways(mac, key, qs[..n], q.at);
      var t := Proven(mac, key, q.header, q.at);
      if t.Some? { DecideKeeps(m.seen, t.value, m.all, q.at); }
      assert Agrees(ServeAll(mac, key, qs), q.at);
    }
  }

  /** With a clock that never goes back, pruning changes no decision: a token is admitted exactly
      when it is proven and no token ever admitted that is still in the window has its nonce. */
  lemma PruningChangesNothing(mac: Mac, key: Bytes, qs: seq<Request>, q: Request)
    requires Forward(qs + [q])
    ensures var m := ServeAll(mac, key, qs);
      Serve(mac, key, m, q).1 == Tunnel <==>
        var t := Proven(mac, key, q.header, q.at);
        t.Some? && forall a :: a in m.all && InWindow(a, q.at) ==> a.nonce != t.value.nonce
  {
    var m := ServeAll(mac, key, qs);
    assert (qs + [q])[|qs|] == q && forall i :: 0 <= i < |qs| ==> (qs + [q])[i] == qs[i];
    AgreesAlways(mac, key, qs, q.at);
    assert Current(m.seen, q.at) == Current(m.all, q.at);
    var t := Proven(mac, key, q.header, q.at);
    if t.Some? {
      forall a ensures a in Current(m.seen, q.at) <==> a in m.all && InWindow(a, q.at) {
        CurrentMembers(m.all, q.at, a);
      }
      assert SpentIn(Current(m.seen, q.at), t.value.nonce)
        <==> exists a :: a in Current(m.seen, q.at) && a.nonce == t.value.nonce;
    }
  }

  /** Single use: over any run no token is admitted twice, however its cookie was spelled. */
  lemma AdmittedOnce(mac: Mac, key: Bytes, qs: seq<Request>)
    requires Forward(qs)
    ensures var all := ServeAll(mac, key, qs).all; forall i, j :: 0 <= i < j < |all| ==> all[i] != all[j]
  {
    AgreesAlways(mac, key, qs, if qs == [] then 0 else qs[|qs| - 1].at);
  }

  /** Against remembering every token for ever: the decisions differ exactly when a different token
      still in the window was admitted with the same nonce and this one was not. */
  lemma AgainstFullMemory(mac: Mac, key: Bytes, qs: seq<Request>, q: Request)
    requires Forward(qs + [q]) && Proven(mac, key, q.header, q.at).Some?
    ensures var m, t := ServeAll(mac, key, qs), Proven(mac, key, q.header, q.at).value;
      (Serve(mac, key, m, q).1 == Tunnel <==> t !in m.all) <==>
        (t in m.all || forall a :: a in m.all && InWindow(a, q.at) ==> a.nonce != t.nonce)
  {
    PruningChangesNothing(mac, key, qs, q);
  }

  /** A freshly minted authenticator with a nonce not spent in the window opens the tunnel, whatever
      else the browser's cookie jar holds, as long as the two clocks agree to within two minutes. */
  lemma FreshTokenOpens(mac: Mac, key: Bytes, qs: seq<Request>, t: Token, others: string, now: U64)
    requires |t.nonce| == NONCE_BYTES && CookieValue(others, "sid") == None && InWindow(t, now)
    requires forall a :: a in ServeAll(mac, key, qs).all ==> a.nonce != t.nonce
    ensures var q := Request(others + "; " + "sid=" + Mint(mac, key, t), now);
      Forward(qs + [q]) ==> Serve(mac, key, ServeAll(mac, key, qs), q).1 == Tunnel
  {
    var q := Request(others + "; " + "sid=" + Mint(mac, key, t), now);
    MintedIsRead(mac, key, t, others);
    if Forward(qs + [q]) { PruningChangesNothing(mac, key, qs, q); }
  }

  // ------------------------------------------- what single use asks of the clock

  /** The requests are made at the times `at`. */
  ghost predicate MadeAt(qs: seq<Request>, at: seq<U64>) {
    |qs| == |at| && forall i :: 0 <= i < |qs| ==> qs[i].at == at[i]
  }

  ghost predicate NoneTwice(all: seq<Token>) { forall i, j :: 0 <= i < j < |all| ==> all[i] != all[j] }

  /** The clock leaves the window of timestamp `t` and comes back to it. */
  predicate LeavesAndReturns(at: seq<U64>, i: nat, j: nat, k: nat, t: U64) {
    i < j < k < |at| && Near(at[i], t) && !Near(at[j], t) && Near(at[k], t)
  }

  /** Every token admitted so far was in its window when it was, and is remembered unless the clock
      has left its window since. */
  ghost predicate Remembered(qs: seq<Request>, m: Memory, a: Token) {
    exists i: nat :: i < |qs| && InWindow(a, qs[i].at)
      && (a in m.seen || exists j: nat :: i < j < |qs| && !InWindow(a, qs[j].at))
  }

  lemma RememberedStep(mac: Mac, key: Bytes, qs: seq<Request>, q: Request, a: Token)
    requires a in ServeAll(mac, key, qs).all ==> Remembered(qs, ServeAll(mac, key, qs), a)
    requires a in Serve(mac, key, ServeAll(mac, key, qs), q).0.all
    ensures Remembered(qs + [q], Serve(mac, key, ServeAll(mac, key, qs), q).0, a)
  {
    var more, m := qs + [q], ServeAll(mac, key, qs);
    var after := Serve(mac, key, m, q).0;
    assert more[|qs|] == q && forall i :: 0 <= i < |qs| ==> more[i] == qs[i];
    CurrentMembers(m.seen, q.at, a);
    if a in m.all {
      var i: nat :| i < |qs| && InWindow(a, qs[i].at)
        && (a in m.seen || exists j: nat :: i < j < |qs| && !InWindow(a, qs[j].at));
      assert InWindow(a, more[i].at);
      if a in m.seen {
        if a !in after.seen { assert i < |qs| < |more| && !InWindow(a, more[|qs|].at); }
      } else {
        var j: nat :| i < j < |qs| && !InWindow(a, qs[j].at);
        assert !InWindow(a, more[j].at);
      }
    } else {
      assert InWindow(a, more[|qs|].at) && a in after.seen;
    }
  }

  lemma {:induction false} AllRemembered(mac: Mac, key: Bytes, qs: seq<Request>, a: Token)
    requires a in ServeAll(mac, key, qs).all
    ensures Remembered(qs, ServeAll(mac, key, qs), a)
    decreases |qs|
  {
    var n := |qs| - 1;
    if a in ServeAll(mac, key, qs[..n]).all { AllRemembered(mac, key, qs[..n], a); }
    RememberedStep(mac, key, qs[..n], qs[n], a);
    assert qs[..n] + [qs[n]] == qs;
  }

  /** A second admission needs the clock to have left the token's window and come back. */
  lemma SecondNeedsReturn(mac: Mac, key: Bytes, qs: seq<Request>, q: Request, a: Token) returns (i: nat, j: nat)
    requires a in ServeAll(mac, key, qs).all && Proven(mac, key, q.header, q.at) == Some(a)
    requires Serve(mac, key, ServeAll(mac, key, qs), q).1 == Tunnel
    ensures i < j < |qs| && InWindow(a, qs[i].at) && !InWindow(a, qs[j].at) && InWindow(a, q.at)
  {
    var m := ServeAll(mac, key, qs);
    AllRemembered(mac, key, qs, a);
    i :| i < |qs| && InWindow(a, qs[i].at)
      && (a in m.seen || exists j: nat :: i < j < |qs| && !InWindow(a, qs[j].at));
    CurrentMembers(m.seen, q.at, a);
    j :| i < j < |qs| && !InWindow(a, qs[j].at);
  }

  lemma {:induction false} NoReturnNoneTwice(mac: Mac, key: Bytes, qs: seq<Request>, at: seq<U64>)
    requires MadeAt(qs, at) && forall i: nat, j: nat, k: nat, t: U64 :: !LeavesAndReturns(at, i, j, k, t)
    ensures NoneTwice(ServeAll(mac, key, qs).all)
    decreases |qs|
  {
    if qs != [] {
      var n := |qs| - 1;
      var m, q := ServeAll(mac, key, qs[..n]), qs[n];
      forall i: nat, j: nat, k: nat, t: U64 ensures !LeavesAndReturns(at[..n], i, j, k, t) {
        assert !LeavesAndReturns(at, i, j, k, t);
      }
      NoReturnNoneTwice(mac, key, qs[..n], at[..n]);
      if Serve(mac, key, m, q).1 == Tunnel {
        var a := Proven(mac, key, q.header, q.at).value;
        if a in m.all {
          var i, j := SecondNeedsReturn(mac, key, qs[..n], q, a);
          assert LeavesAndReturns(at, i, j, n, a.timestamp);
        }
      }
    }
  }

  /** The requests that use such a clock: one token when the window is first open and again when it
      is open once more, another one in between, and ordinary visits at all other times. */
  function Script(mac: Mac, key: Bytes, at: seq<U64>, i: nat, j: nat, k: nat, a: Token, b: Token): (qs: seq<Request>)
    ensures |qs| == |at| && MadeAt(qs, at)
  {
    seq(|at|, x requires 0 <= x < |at| =>
      if x == i || x == k then Asking(mac, key, a, at[x])
      else if x == j then Asking(mac, key, b, at[x])
      else Request("", at[x]))
  }

  lemma EmptyHeader()
    ensures CookieValue("", "sid") == None
  {
  }

  lemma PlainVisit(mac: Mac, key: Bytes, m: Memory, header: string, now: nat)
    requires CookieValue(header, "sid") == None
    ensures Serve(mac, key, m, Request(header, now)) == (m, Web)
  {
  }

  function Fold(serve: (Memory, Request) -> Memory, qs: seq<Request>): Memory
    decreases |qs|
  {
    if qs == [] then Memory([], []) else serve(Fold(serve, qs[..|qs| - 1]), qs[|qs| - 1])
  }

  lemma {:induction false} FoldIsServing(mac: Mac, key: Bytes, serve: (Memory, Request) -> Memory, qs: seq<Request>)
    requires forall m, q :: serve(m, q) == Serve(mac, key, m, q).0
    ensures Fold(serve, qs) == ServeAll(mac, key, qs)
    decreases |qs|
  {
    if qs != [] { FoldIsServing(mac, key, serve, qs[..|qs| - 1]); }
  }

  /** Three requests among others that change nothing. */
  ghost predicate ThreeCount(serve: (Memory, Request) -> Memory, qs: seq<Request>, i: nat, j: nat, k: nat,
                             m1: Memory, m2: Memory, m3: Memory)
  {
    && i < j < k < |qs|
    && (forall x, m :: 0 <= x < |qs| && x != i && x != j && x != k ==> serve(m, qs[x]) == m)
    && serve(Memory([], []), qs[i]) == m1
    && serve(m1, qs[j]) == m2
    && serve(m2, qs[k]) == m3
  }

  lemma {:induction false} ThreeRun(serve: (Memory, Request) -> Memory, qs: seq<Request>, i: nat, j: nat, k: nat,
                                    m1: Memory, m2: Memory, m3: Memory, x: nat)
    requires ThreeCount(serve, qs, i, j, k, m1, m2, m3) && x <= |qs|
    ensures Fold(serve, qs[..x]) == if x <= i then Memory([], []) else if x <= j then m1 else if x <= k then m2 else m3
  {
    if x > 0 {
      ThreeRun(serve, qs, i, j, k, m1, m2, m3, x - 1);
      assert qs[..x][..x - 1] == qs[..x - 1];
    } else {
      assert qs[..0] == [];
    }
  }

  lemma UsedThenPruned(mac: Mac, key: Bytes, a: Token, early: nat, b: Token, away: nat)
    requires |a.nonce| == |b.nonce| == NONCE_BYTES
    requires InWindow(a, early) && !InWindow(a, away) && InWindow(b, away)
    ensures Serve(mac, key, Memory([], []), Asking(mac, key, a, early)).0 == Memory([a], [a])
    ensures Serve(mac, key, Memory([a], [a]), Asking(mac, key, b, away)).0 == Memory([b], [a, b])
  {
    ServesMinted(mac, key, Memory([], []), a, early);
    ServesMinted(mac, key, Memory([a], [a]), b, away);
    assert [] + [a] == [a] && [] + [b] == [b] && [a] + [b] == [a, b];
  }

  lemma UsedAgain(mac: Mac, key: Bytes, a: Token, b: Token, now: nat)
    requires |a.nonce| == NONCE_BYTES && a.nonce != b.nonce && InWindow(a, now)
    ensures Serve(mac, key, Memory([b], [a, b]), Asking(mac, key, a, now)).0.all == [a, b, a]
  {
    assert forall i :: 0 <= i < |Current([b], now)| ==> Current([b], now)[i] == b;
    ServesMinted(mac, key, Memory([b], [a, b]), a, now);
    assert [a, b] + [a] == [a, b, a];
  }

  lemma ScriptCounts(mac: Mac, key: Bytes, at: seq<U64>, i: nat, j: nat, k: nat, a: Token, b: Token)
    requires i < j < k < |at|
    ensures var qs := Script(mac, key, at, i, j, k, a, b);
      forall x, m :: 0 <= x < |qs| && x != i && x != j && x != k ==> Serve(mac, key, m, qs[x]).0 == m
  {
    EmptyHeader();
    var qs := Script(mac, key, at, i, j, k, a, b);
    forall x, m | 0 <= x < |qs| && x != i && x != j && x != k ensures Serve(mac, key, m, qs[x]).0 == m {
      PlainVisit(mac, key, m, "", at[x]);
    }
  }

  lemma ScriptServes(mac: Mac, key: Bytes, serve: (Memory, Request) -> Memory,
                     at: seq<U64>, i: nat, j: nat, k: nat, a: Token, b: Token)
    returns (m: Memory)
    requires forall m, q :: serve(m, q) == Serve(mac, key, m, q).0
    requires LeavesAndReturns(at, i, j, k, a.timestamp) && b.timestamp == at[j]
    requires |a.nonce| == |b.nonce| == NONCE_BYTES && a.nonce != b.nonce
    ensures m.all == [a, b, a]
    ensures ThreeCount(serve, Script(mac, key, at, i, j, k, a, b), i, j, k, Memory([a], [a]), Memory([b], [a, b]), m)
  {
    m := serve(Memory([b], [a, b]), Asking(mac, key, a, at[k]));
    UsedThenPruned(mac, key, a, at[i], b, at[j]);
    UsedAgain(mac, key, a, b, at[k]);
    ScriptCounts(mac, key, at, i, j, k, a, b);
  }

  lemma ScriptAdmits(mac: Mac, key: Bytes, at: seq<U64>, i: nat, j: nat, k: nat, a: Token, b: Token)
    requires LeavesAndReturns(at, i, j, k, a.timestamp) && b.timestamp == at[j]
    requires |a.nonce| == |b.nonce| == NONCE_BYTES && a.nonce != b.nonce
    ensures ServeAll(mac, key, Script(mac, key, at, i, j, k, a, b)).all == [a, b, a]
  {
    var qs := Script(mac, key, at, i, j, k, a, b);
    var serve := (m: Memory, q: Request) => Serve(mac, key, m, q).0;
    var m := ScriptServes(mac, key, serve, at, i, j, k, a, b);
    ThreeRun(serve, qs, i, j, k, Memory([a], [a]), Memory([b], [a, b]), m, |at|);
    assert qs[..|at|] == qs;
    FoldIsServing(mac, key, serve, qs);
  }

  /** On a clock that leaves a window and comes back, some requests admit a token twice: a token used
      in its window, pruned when another arrives while the clock is elsewhere, and used again. */
  lemma ClockBackAdmitsTwice(mac: Mac, key: Bytes, at: seq<U64>, i: nat, j: nat, k: nat, t: U64)
    returns (qs: seq<Request>)
    requires LeavesAndReturns(at, i, j, k, t)
    ensures MadeAt(qs, at) && !NoneTwice(ServeAll(mac, key, qs).all)
  {
    var a, b := Token(t, seq(NONCE_BYTES, _ => 0)), Token(at[j], seq(NONCE_BYTES, _ => 1));
    assert a.nonce[0] != b.nonce[0];
    qs := Script(mac, key, at, i, j, k, a, b);
    ScriptAdmits(mac, key, at, i, j, k, a, b);
    FirstAndThird(a, b);
  }

  lemma FirstAndThird(a: Token, b: Token)
    ensures !NoneTwice([a, b, a])
  {
    assert [a, b, a][0] == [a, b, a][2];
  }

  /** Exactly what single use asks of the clock: whatever is requested at the times `at`, no token is
      admitted twice, if and only if the clock never leaves the window of a timestamp and returns. */
  lemma SingleUseExactly(mac: Mac, key: Bytes, at: seq<U64>)
    ensures (forall qs :: MadeAt(qs, at) ==> NoneTwice(ServeAll(mac, key, qs).all))
       <==> !exists i: nat, j: nat, k: nat, t: U64 :: LeavesAndReturns(at, i, j, k, t)
  {
    if exists i: nat, j: nat, k: nat, t: U64 :: LeavesAndReturns(at, i, j, k, t) {
      var i: nat, j: nat, k: nat, t: U64 :| LeavesAndReturns(at, i, j, k, t);
      var qs := ClockBackAdmitsTwice(mac, key, at, i, j, k, t);
    } else {
      forall qs | MadeAt(qs, at) ensures NoneTwice(ServeAll(mac, key, qs).all) { NoReturnNoneTwice(mac, key, qs, at); }
    }
  }

  /** A clock that never goes back never returns to a window it left. */
  lemma ForwardNeverReturns(at: seq<U64>, i: nat, j: nat, k: nat, t: U64)
    requires forall x, y :: 0 <= x < y < |at| ==> at[x] <= at[y]
    ensures !LeavesAndReturns(at, i, j, k, t)
  {
    assert i < j < k < |at| ==> at[i] <= at[j] <= at[k];
  }

  function Asking(mac: Mac, key: Bytes, t: Token, now: nat): Request { Request("sid=" + Mint(mac, key, t), now) }

  /** A minted token presented in its window, with a nonce not spent there, is admitted and noted. */
  lemma ServesMinted(mac: Mac, key: Bytes, m: Memory, t: Token, now: nat)
    requires |t.nonce| == NONCE_BYTES && InWindow(t, now) && !SpentIn(Current(m.seen, now), t.nonce)
    ensures Serve(mac, key, m, Asking(mac, key, t, now)) == (Memory(Current(m.seen, now) + [t], m.all + [t]), Tunnel)
  {
    assert CookieValue("", "sid") == None;
    MintedIsRead(mac, key, t, "");
  }
}
