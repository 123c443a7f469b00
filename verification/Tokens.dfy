/** The textual side of `frontdoor.rs`: base16, and finding the authenticator in a Cookie header. */
module Tokens {
  import opened Prelude

  // ------------------------------------------------------------------ base16

  function Digit(d: nat): char
    requires d < 16
  {
    "0123456789abcdef"[d]
  }

  /** `char::to_digit(16)`: both cases. */
  function DigitValue(c: char): Option<nat> {
    if '0' <= c <= '9' then Some((c - '0') as nat)
    else if 'a' <= c <= 'f' then Some((c - 'a') as nat + 10)
    else if 'A' <= c <= 'F' then Some((c - 'A') as nat + 10)
    else None
  }

  /** `{n:x}`: lower case, no leading zeros. */
  function Hex(n: nat): (s: string)
    ensures s != "" && forall i :: 0 <= i < |s| ==> IsLowerHex(s[i])
  {
    if n < 16 then [Digit(n)] else Hex(n / 16) + [Digit(n % 16)]
  }

  predicate IsLowerHex(c: char) { '0' <= c <= '9' || 'a' <= c <= 'f' }

  function Digits(s: string): Option<nat>
    decreases |s|
  {
    if s == "" then Some(0)
    else
      match (Digits(s[..|s| - 1]), DigitValue(s[|s| - 1]))
      case (Some(n), Some(d)) => Some(16 * n + d)
      case _ => None
  }

  /** `from_str_radix(s, 16)` of an unsigned type: one leading `+` is allowed, the empty string, a bare
      sign and overflow are not. */
  function FromHex(s: string, max: nat): (r: Option<nat>)
    ensures r.Some? ==> r.value <= max
  {
    if s == "" then None
    else
      match Digits(if s[0] == '+' && |s| > 1 then s[1..] else s)
      case Some(n) => if n <= max then Some(n) else None
      case None => None
  }

  /** Sixteen digits, in the order of their values; capitals are read as their small letters. */
  lemma DigitsInOrder(d: nat, e: nat)
    requires d < e < 16
    ensures Digit(d) < Digit(e) && Digit(0) == '0' && Digit(9) == '9' && Digit(10) == 'a' && Digit(15) == 'f'
    ensures 10 <= d ==> DigitValue(Digit(d) - 'a' + 'A') == Some(d)
  {
  }

  /** Most significant digit first, and nothing in front of it but at most one plus sign. */
  lemma HexReads(s: string, max: nat)
    requires s != "" && s[0] != '+'
    ensures FromHex("+" + s, max) == FromHex(s, max)
    ensures FromHex("", max) == None && FromHex("+", max) == None && FromHex("++" + s, max) == None
    ensures Hex(0x1f) == "1f" && FromHex("1F", 0xFF) == Some(0x1f)
  {
    assert ("+" + s)[1..] == s;
    PlusIsNoDigit("++" + s);
    assert Hex(0x1f) == Hex(1) + [Digit(15)];
    assert Digits("1F"[..1]) == Some(1) by { assert "1F"[..1][..0] == ""; }
  }

  lemma {:induction false} PlusIsNoDigit(s: string)
    requires |s| > 1 && s[1] == '+'
    ensures Digits(s[1..]) == None
    decreases |s|
  {
    var tail := s[1..];
    if |tail| == 1 {
      assert tail[..0] == "";
    } else {
      PlusIsNoDigit(s[..|s| - 1]);
      assert tail[..|tail| - 1] == s[..|s| - 1][1..];
    }
  }

  lemma DigitReadBack(d: nat)
    requires d < 16
    ensures DigitValue(Digit(d)) == Some(d) && Digit(d) != '+'
  {
  }

  lemma DigitsSnoc(s: string, n: nat, d: nat)
    requires Digits(s) == Some(n) && d < 16
    ensures Digits(s + [Digit(d)]) == Some(16 * n + d)
  {
    DigitReadBack(d);
    assert (s + [Digit(d)])[..|s|] == s;
  }

  lemma {:induction false} HexRoundTrip(n: nat)
    ensures Digits(Hex(n)) == Some(n)
  {
    if n < 16 {
      DigitsSnoc("", 0, n);
      assert "" + [Digit(n)] == Hex(n);
    } else {
      HexRoundTrip(n / 16);
      DigitsSnoc(Hex(n / 16), n / 16, n % 16);
    }
  }

  lemma HexReadBack(n: nat, max: nat)
    ensures FromHex(Hex(n), max) == if n <= max then Some(n) else None
  {
    HexRoundTrip(n);
    assert IsLowerHex(Hex(n)[0]);
  }

  /** `hex`: two lower-case digits a byte. */
  function HexBytes(b: Bytes): (s: string)
    ensures |s| == 2 * |b| && forall i :: 0 <= i < |s| ==> IsLowerHex(s[i])
  {
    if b == [] then ""
    else
      var last: nat := b[|b| - 1];
      HexBytes(b[..|b| - 1]) + [Digit(last / 16), Digit(last % 16)]
  }

  /** The bytes that the first `i` pairs of digits stand for. */
  function Pairs(s: string, i: nat): (r: Option<Bytes>)
    requires 2 * i <= |s|
    ensures r.Some? ==> |r.value| == i
  {
    if i == 0 then Some([])
    else
      match (Pairs(s, i - 1), FromHex(s[2 * (i - 1)..2 * i], 0xFF))
      case (Some(b), Some(v)) => Some(b + [v])
      case _ => None
  }

  function UnhexSpec(s: string, n: nat): (r: Option<Bytes>)
    ensures r.Some? ==> |r.value| == n
  {
    if |s| != 2 * n then None else Pairs(s, n)
  }

  /** `unhex`: fill a fixed array pair by pair, giving up at the first bad pair. */
  method Unhex(s: string, n: nat) returns (r: Option<Bytes>)
    ensures r == UnhexSpec(s, n)
  {
    if |s| != n * 2 { return None; }
    var out := new byte[n](_ => 0);
    var i := 0;
    while i < n
      invariant 0 <= i <= n
      invariant Pairs(s, i) == Some(out[..i])
    {
      var byte := FromHex(s[i * 2..i * 2 + 2], 0xFF);
      PairsNext(s, i, out[..i], byte);
      if byte.None? {
        FailsForGood(s, i + 1, n);
        return None;
      }
      out[i] := byte.value;
      assert out[..i + 1] == out[..i] + [byte.value];
      i := i + 1;
    }
    assert out[..n] == out[..];
    return Some(out[..]);
  }

  lemma PairsNext(s: string, i: nat, front: Bytes, next: Option<nat>)
    requires 2 * (i + 1) <= |s| && Pairs(s, i) == Some(front)
    requires next == FromHex(s[i * 2..i * 2 + 2], 0xFF)
    ensures Pairs(s, i + 1) == match next case Some(v) => Some(front + [v]) case None => None
  {
    assert 2 * (i + 1) == i * 2 + 2;
  }

  lemma {:induction false} FailsForGood(s: string, i: nat, n: nat)
    requires i <= n && 2 * n <= |s| && Pairs(s, i).None?
    ensures Pairs(s, n).None?
  {
    if i < n { FailsForGood(s, i, n - 1); }
  }

  lemma TwoDigits(hi: nat, lo: nat)
    requires hi < 16 && lo < 16
    ensures FromHex([Digit(hi), Digit(lo)], 0xFF) == Some(16 * hi + lo)
  {
    DigitReadBack(hi);
    DigitsSnoc("", 0, hi);
    DigitsSnoc([Digit(hi)], hi, lo);
    assert "" + [Digit(hi)] == [Digit(hi)] && [Digit(hi)] + [Digit(lo)] == [Digit(hi), Digit(lo)];
  }

  lemma PairsStep(s: string, i: nat, front: Bytes, v: byte)
    requires 2 * (i + 1) <= |s| && Pairs(s, i) == Some(front)
    requires s[2 * i] == Digit(v as nat / 16) && s[2 * i + 1] == Digit(v as nat % 16)
    ensures Pairs(s, i + 1) == Some(front + [v])
  {
    assert s[i * 2..i * 2 + 2] == [Digit(v as nat / 16), Digit(v as nat % 16)];
    TwoDigits(v as nat / 16, v as nat % 16);
    PairsNext(s, i, front, Some(v as nat));
  }

  lemma SliceOfFront(s: string, t: string, from: nat, to: nat)
    requires from <= to <= |s|
    ensures (s + t)[from..to] == s[from..to]
  {
  }

  lemma {:induction false} PairsOfFront(s: string, t: string, i: nat)
    requires 2 * i <= |s|
    ensures Pairs(s + t, i) == Pairs(s, i)
  {
    if i > 0 {
      var from, to := 2 * (i - 1), 2 * i;
      PairsOfFront(s, t, i - 1);
      SliceOfFront(s, t, from, to);
    }
  }

  lemma PairsSnoc(s: string, front: Bytes, last: byte)
    requires |s| == 2 * |front| && Pairs(s, |front|) == Some(front)
    ensures Pairs(s + [Digit(last as nat / 16), Digit(last as nat % 16)], |front| + 1) == Some(front + [last])
  {
    var two := [Digit(last as nat / 16), Digit(last as nat % 16)];
    PairsOfFront(s, two, |front|);
    PairsStep(s + two, |front|, front, last);
  }

  lemma HexBytesSnoc(front: Bytes, last: byte)
    ensures HexBytes(front + [last]) == HexBytes(front) + [Digit(last as nat / 16), Digit(last as nat % 16)]
  {
    assert (front + [last])[..|front|] == front;
  }

  lemma {:induction false} PairsOfHex(b: Bytes)
    ensures Pairs(HexBytes(b), |b|) == Some(b)
    decreases |b|
  {
    if b != [] {
      var front, last := b[..|b| - 1], b[|b| - 1];
      assert b == front + [last];
      PairsOfHex(front);
      HexBytesSnoc(front, last);
      PairsSnoc(HexBytes(front), front, last);
    }
  }

  lemma UnhexHex(b: Bytes)
    ensures UnhexSpec(HexBytes(b), |b|) == Some(b)
  {
    PairsOfHex(b);
  }

  // ------------------------------------------------------------- splitting

  function FirstIndex(s: string, c: char): (i: nat)
    requires c in s
    ensures i < |s| && s[i] == c && c !in s[..i]
  {
    if s[0] == c then 0
    else
      var i := 1 + FirstIndex(s[1..], c);
      assert s[..i] == [s[0]] + s[1..][..i - 1];
      i
  }

  function Split(s: string, c: char): (pieces: seq<string>)
    ensures |pieces| > 0
    decreases |s|
  {
    if c in s then
      var i := FirstIndex(s, c);
      [s[..i]] + Split(s[i + 1..], c)
    else [s]
  }

  lemma FirstIndexAfter(a: string, c: char, b: string)
    requires c !in a
    ensures c in a + [c] + b && FirstIndex(a + [c] + b, c) == |a|
  {
    var s := a + [c] + b;
    assert s[|a|] == c;
    var i := FirstIndex(s, c);
    assert forall k :: 0 <= k < |a| ==> s[k] == a[k];
    assert forall k :: 0 <= k < i ==> s[k] in s[..i];
  }

  lemma SplitAt(a: string, c: char, b: string)
    requires c !in a
    ensures Split(a + [c] + b, c) == [a] + Split(b, c)
  {
    FirstIndexAfter(a, c, b);
    assert (a + [c] + b)[..|a|] == a && (a + [c] + b)[|a| + 1..] == b;
  }

  lemma {:induction false} SplitAppend(a: string, c: char, b: string)
    ensures Split(a + [c] + b, c) == Split(a, c) + Split(b, c)
    decreases |a|
  {
    if c in a {
      var i := FirstIndex(a, c);
      var rest := a[i + 1..];
      assert a == a[..i] + [c] + rest;
      assert a + [c] + b == a[..i] + [c] + (rest + [c] + b);
      SplitAt(a[..i], c, rest);
      SplitAt(a[..i], c, rest + [c] + b);
      SplitAppend(rest, c, b);
    } else {
      SplitAt(a, c, b);
    }
  }

  // ------------------------------------------------------------------ cookies

  /** Characters with the Unicode White_Space property, which `trim` strips. */
  predicate IsSpace(c: char) {
    || '\t' <= c <= '\r' || c == ' ' || c == '\U{85}' || c == '\U{A0}' || c == '\U{1680}'
    || '\U{2000}' <= c <= '\U{200A}' || c == '\U{2028}' || c == '\U{2029}'
    || c == '\U{202F}' || c == '\U{205F}' || c == '\U{3000}'
  }

  function TrimStart(s: string): string { if s != "" && IsSpace(s[0]) then TrimStart(s[1..]) else s }

  function TrimEnd(s: string): string
    decreases |s|
  {
    if s != "" && IsSpace(s[|s| - 1]) then TrimEnd(s[..|s| - 1]) else s
  }

  function Trim(s: string): string { TrimEnd(TrimStart(s)) }

  /** Trimming takes the spaces off both ends, and nothing else. */
  lemma TrimMeans(s: string) returns (i: nat, j: nat)
    ensures i <= j <= |s| && Trim(s) == s[i..j]
    ensures forall k :: 0 <= k < |s| && (k < i || k >= j) ==> IsSpace(s[k])
    ensures i < j ==> !IsSpace(s[i]) && !IsSpace(s[j - 1])
    ensures IsSpace(' ') && IsSpace('\t') && IsSpace('\n') && !IsSpace('0') && !IsSpace(';') && !IsSpace('=')
  {
    i := TrimStartMeans(s);
    var m := TrimEndMeans(s[i..]);
    j := i + m;
    assert s[i..][..m] == s[i..j];
    forall k | 0 <= k < |s| && (k < i || k >= j) ensures IsSpace(s[k]) {
      if k >= j { assert s[k] == s[i..][k - i]; }
    }
  }

  lemma {:induction false} TrimStartMeans(s: string) returns (i: nat)
    ensures i <= |s| && TrimStart(s) == s[i..]
    ensures forall k :: 0 <= k < i ==> IsSpace(s[k])
    ensures i < |s| ==> !IsSpace(s[i])
    decreases |s|
  {
    i := 0;
    if s != "" && IsSpace(s[0]) {
      var n := TrimStartMeans(s[1..]);
      i := n + 1;
      forall k | 0 <= k < i ensures IsSpace(s[k]) { assert k > 0 ==> s[k] == s[1..][k - 1]; }
    }
  }

  lemma {:induction false} TrimEndMeans(s: string) returns (j: nat)
    ensures j <= |s| && TrimEnd(s) == s[..j]
    ensures forall k :: j <= k < |s| ==> IsSpace(s[k])
    ensures j > 0 ==> !IsSpace(s[j - 1])
    decreases |s|
  {
    j := |s|;
    if s != "" && IsSpace(s[|s| - 1]) {
      j := TrimEndMeans(s[..|s| - 1]);
    } else {
      assert s[..|s|] == s;
    }
  }

  function FindCookie(pieces: seq<string>, name: string): Option<string>
    decreases |pieces|
  {
    if pieces == [] then None
    else
      var p := pieces[0];
      if '=' in p && Trim(p[..FirstIndex(p, '=')]) == name then Some(Trim(p[FirstIndex(p, '=') + 1..]))
      else FindCookie(pieces[1..], name)
  }

  function CookieValue(header: string, name: string): Option<string> { FindCookie(Split(header, ';'), name) }

  lemma {:induction false} FindAfter(before: seq<string>, after: seq<string>, name: string)
    requires FindCookie(before, name) == None
    ensures FindCookie(before + after, name) == FindCookie(after, name)
    decreases |before|
  {
    if before == [] {
      assert before + after == after;
    } else {
      assert (before + after)[1..] == before[1..] + after;
      FindAfter(before[1..], after, name);
    }
  }

  ghost predicate PlainText(s: string) { forall i :: 0 <= i < |s| ==> IsLowerHex(s[i]) || s[i] == ':' }

  /** A cookie is found behind any other cookies, none of which has its name. */
  lemma CookieFound(before: string, value: string)
    requires CookieValue(before, "sid") == None && value != "" && PlainText(value)
    ensures CookieValue("sid=" + value, "sid") == Some(value)
    ensures CookieValue(before + "; " + "sid=" + value, "sid") == Some(value)
  {
    PieceFound("sid", value);
    assert "sid" + "=" + value == "sid=" + value;
    CookieFoundBehind(before, value);
  }

  lemma {:induction false} FindInFront(before: seq<string>, after: seq<string>, name: string)
    requires FindCookie(before, name).Some?
    ensures FindCookie(before + after, name) == FindCookie(before, name)
    decreases |before|
  {
    assert (before + after)[1..] == before[1..] + after;
    if FindCookie(before[1..], name).Some? { FindInFront(before[1..], after, name); }
  }

  /** The first cookie of a name is the one that counts: what follows it changes nothing. */
  lemma FrontCounts(front: string, after: string, name: string)
    requires CookieValue(front, name).Some?
    ensures CookieValue(front + ";" + after, name) == CookieValue(front, name)
  {
    SplitAppend(front, ';', after);
    assert front + ";" + after == front + [';'] + after;
    FindInFront(Split(front, ';'), Split(after, ';'), name);
  }

  /** A cookie is found among any others: none before it has its name, and those behind it may. */
  lemma CookieFoundAmong(before: string, value: string, after: string)
    requires CookieValue(before, "sid") == None && value != "" && PlainText(value)
    ensures CookieValue("sid=" + value + ";" + after, "sid") == Some(value)
    ensures CookieValue(before + "; " + "sid=" + value + ";" + after, "sid") == Some(value)
  {
    CookieFound(before, value);
    FrontCounts("sid=" + value, after, "sid");
    FrontCounts(before + "; " + "sid=" + value, after, "sid");
  }

  lemma CookieFoundBehind(before: string, value: string)
    requires CookieValue(before, "sid") == None && value != "" && PlainText(value)
    ensures CookieValue(before + "; " + "sid=" + value, "sid") == Some(value)
  {
    PieceFound(" sid", value);
    FoundBehind(before, " sid" + "=" + value, before + "; " + "sid=" + value);
  }

  lemma FoundBehind(before: string, piece: string, header: string)
    requires CookieValue(before, "sid") == None && header == before + [';'] + piece
    ensures CookieValue(header, "sid") == CookieValue(piece, "sid")
  {
    SplitAppend(before, ';', piece);
    FindAfter(Split(before, ';'), Split(piece, ';'), "sid");
  }

  lemma PieceFound(key: string, value: string)
    requires key == "sid" || key == " sid"
    requires value != "" && PlainText(value)
    ensures Split(key + "=" + value, ';') == [key + "=" + value]
    ensures CookieValue(key + "=" + value, "sid") == Some(value)
  {
    var p := key + "=" + value;
    assert TrimStart("sid") == "sid" && TrimStart(" sid") == TrimStart(" sid"[1..]);
    assert ';' !in p && '=' !in key;
    FirstIndexAfter(key, '=', value);
    assert p[..|key|] == key && p[|key| + 1..] == value;
    assert !IsSpace(value[0]) && !IsSpace(value[|value| - 1]);
  }
}
