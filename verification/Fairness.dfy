/** Why credit scheduling is fair. Paths come and go and fall ill and recover; each chunk hands out
    one unit of credit among the healthy paths and takes one unit from whoever then holds most.
    Nothing else is assumed, and no credit can run away. */
module Fairness {
  import opened Prelude

  type Name = string
  type Credits = map<Name, real>

  ghost function Sum(c: Credits, s: set<Name>): real
    requires s <= c.Keys
    decreases |s|
  {
    if s == {} then 0.0
    else
      var x :| x in s;
      c[x] + Sum(c, s - {x})
  }

  lemma {:induction false} SumRemove(c: Credits, s: set<Name>, x: Name)
    requires x in s && s <= c.Keys
    ensures Sum(c, s) == c[x] + Sum(c, s - {x})
    decreases |s|
  {
    var y :| y in s && Sum(c, s) == c[y] + Sum(c, s - {y});
    if y != x {
      SumRemove(c, s - {y}, x);
      SumRemove(c, s - {x}, y);
      assert s - {x} - {y} == s - {y} - {x};
    }
  }

  lemma {:induction false} SumUnion(c: Credits, s: set<Name>, t: set<Name>)
    requires s !! t && s + t <= c.Keys
    ensures Sum(c, s + t) == Sum(c, s) + Sum(c, t)
    decreases |s|
  {
    if s == {} {
      assert s + t == t;
    } else {
      var x :| x in s;
      SumRemove(c, s + t, x);
      SumRemove(c, s, x);
      assert s + t - {x} == (s - {x}) + t;
      SumUnion(c, s - {x}, t);
    }
  }

  lemma {:induction false} SumAgree(c: Credits, d: Credits, s: set<Name>)
    requires s <= c.Keys && s <= d.Keys && forall x :: x in s ==> c[x] == d[x]
    ensures Sum(c, s) == Sum(d, s)
    decreases |s|
  {
    if s != {} {
      var x :| x in s;
      SumRemove(c, s, x);
      SumRemove(d, s, x);
      SumAgree(c, d, s - {x});
    }
  }

  /** `m x`, added up. */
  ghost function Times(m: nat, x: real): real { if m == 0 then 0.0 else x + Times(m - 1, x) }

  lemma {:induction false} TimesMeans(m: nat, x: real)
    ensures Times(m, x) == m as real * x
  {
    if m > 0 {
      TimesMeans(m - 1, x);
      assert (m - 1) as real * x == m as real * x - x;
    }
  }

  lemma {:induction false} SumAtMost(c: Credits, s: set<Name>, high: real)
    requires s <= c.Keys && forall x :: x in s ==> c[x] <= high
    ensures Sum(c, s) <= Times(|s|, high)
    decreases |s|
  {
    if s != {} {
      var x :| x in s;
      SumRemove(c, s, x);
      SumAtMost(c, s - {x}, high);
    }
  }

  // ------------------------------------------------------------------ a chunk

  /** One chunk: `shares` are the capacity shares of the healthy paths. The chosen path holds the
      most credit once they are added, and pays one unit. */
  ghost predicate Chunk(c: Credits, shares: Credits, chosen: Name) {
    && shares.Keys <= c.Keys
    && (forall x :: x in shares ==> shares[x] >= 0.0)
    && Sum(shares, shares.Keys) == 1.0
    && chosen in shares
    && (forall x :: x in shares ==> c[x] + shares[x] <= c[chosen] + shares[chosen])
  }

  function Share(shares: Credits, x: Name): real { if x in shares then shares[x] else 0.0 }

  function Charge(chosen: Name, x: Name): real { if x == chosen then 1.0 else 0.0 }

  function Charged(c: Credits, shares: Credits, chosen: Name): (d: Credits)
    ensures d.Keys == c.Keys
  {
    map x | x in c :: c[x] + Share(shares, x) - Charge(chosen, x)
  }

  /** What a set of paths gains: its part of the shares, less one if it holds the chosen path. */
  lemma {:induction false} SumCharged(c: Credits, shares: Credits, chosen: Name, s: set<Name>)
    requires s <= c.Keys && shares.Keys <= c.Keys
    ensures Sum(Charged(c, shares, chosen), s)
         == Sum(c, s) + Sum(shares, s * shares.Keys) - if chosen in s then 1.0 else 0.0
    decreases |s|
  {
    var d, h := Charged(c, shares, chosen), shares.Keys;
    if s == {} {
      assert s * h == {};
    } else {
      var x :| x in s;
      SumRemove(c, s, x);
      SumRemove(d, s, x);
      SumCharged(c, shares, chosen, s - {x});
      if x in shares {
        SumRemove(shares, s * h, x);
        assert s * h - {x} == (s - {x}) * h;
      } else {
        assert s * h == (s - {x}) * h;
      }
    }
  }

  /** A chunk leaves the total credit as it was. */
  lemma ChunkConserves(c: Credits, shares: Credits, chosen: Name)
    requires Chunk(c, shares, chosen)
    ensures Sum(Charged(c, shares, chosen), c.Keys) == Sum(c, c.Keys)
  {
    SumCharged(c, shares, chosen, c.Keys);
    assert c.Keys * shares.Keys == shares.Keys;
  }

  // ----------------------------------------------------------------- balance

  /** `k (n - k)`, built up one path at a time. */
  function Slack(k: nat, n: nat): int {
    if k == 0 then 0 else Slack(k - 1, n) + n - 2 * k + 1
  }

  lemma {:induction false} SlackClosedForm(k: nat, n: nat)
    ensures Slack(k, n) == k * (n - k)
  {
    if k > 0 {
      SlackClosedForm(k - 1, n);
      assert (k - 1) * (n - (k - 1)) == k * (n - k) - n + 2 * k - 1;
    }
  }

  ghost predicate Within(c: Credits, s: set<Name>, n: nat)
    requires s <= c.Keys
  {
    -(Slack(|s|, n) as real) <= 2.0 * Sum(c, s) <= Slack(|s|, n) as real
  }

  /** With `n` paths ever added, the credit of any `k` of them stays within `k (n - k) / 2`. */
  ghost predicate Balanced(c: Credits, n: nat) {
    |c.Keys| <= n && forall s {:trigger Within(c, s, n)} :: s <= c.Keys ==> Within(c, s, n)
  }

  lemma IdentityUp(m: int, k: int, k0: int, k1: int, n: int)
    requires k0 == k - 1 && k1 == k + m
    ensures (m + 1) * (k * (n - k)) == m * (k0 * (n - k0)) + k1 * (n - k1) + m * (m + 1)
  {
    var p := k * (n - k);
    assert k0 * (n - k0) == p - n + 2 * k - 1;
    assert k1 * (n - k1) == p + m * n - 2 * (k * m) - m * m;
    assert m * (p - n + 2 * k - 1) == m * p - m * n + 2 * (k * m) - m;
    assert (m + 1) * p == m * p + p;
  }

  lemma IdentityDown(m: int, k: int, k0: int, k1: int, n: int)
    requires k0 == k + 1 && k1 == k - m
    ensures (m + 1) * (k * (n - k)) == m * (k0 * (n - k0)) + k1 * (n - k1) + m * (m + 1)
  {
    var p := k * (n - k);
    assert k0 * (n - k0) == p + n - 2 * k - 1;
    assert k1 * (n - k1) == p - m * n + 2 * (k * m) - m * m;
    assert m * (p + n - 2 * k - 1) == m * p + m * n - 2 * (k * m) - m;
    assert (m + 1) * p == m * p + p;
  }

  lemma Squeeze(m: real, x: real, a: real, w0: real, w1: real, w: real)
    requires m >= 1.0 && 2.0 * (x - a) >= -w0 && 2.0 * x + 2.0 * (m * (a + 1.0)) >= -w1
    requires (m + 1.0) * w == m * w0 + w1 + m * (m + 1.0)
    ensures 2.0 * x >= -w
  {
    assert m * (2.0 * (x - a) + w0) >= 0.0;
    assert m * (2.0 * (x - a) + w0) == 2.0 * (m * x) - 2.0 * (m * a) + m * w0;
    assert (m + 1.0) * (2.0 * x + w) == 2.0 * (m * x) + 2.0 * x + (m + 1.0) * w;
    assert m * (m - 1.0) >= 0.0;
    assert (m + 1.0) * (2.0 * x + w) >= 0.0;
  }

  lemma SlackIdentity(m: nat, k: nat, k0: nat, k1: nat, n: nat)
    requires (k0 + 1 == k && k1 == k + m) || (k0 == k + 1 && k1 + m == k)
    ensures (m + 1) * Slack(k, n) == m * Slack(k0, n) + Slack(k1, n) + m * (m + 1)
  {
    SlackClosedForm(k, n);
    SlackClosedForm(k0, n);
    SlackClosedForm(k1, n);
    if k0 < k { IdentityUp(m, k, k0, k1, n); } else { IdentityDown(m, k, k0, k1, n); }
  }

  /** If `x` is `a` more than one set may owe, and with `m` others no more than one unit above `a`
      it is within what all of them may owe, then it is within what it may owe itself. */
  lemma SqueezeSlack(m: nat, k: nat, k0: nat, k1: nat, n: nat, x: real, a: real)
    requires m >= 1
    requires (k0 + 1 == k && k1 == k + m) || (k0 == k + 1 && k1 + m == k)
    requires 2.0 * (x - a) >= -(Slack(k0, n) as real)
    requires 2.0 * x + 2.0 * Times(m, a + 1.0) >= -(Slack(k1, n) as real)
    ensures 2.0 * x >= -(Slack(k, n) as real)
  {
    var w0, w1, w := Slack(k0, n), Slack(k1, n), Slack(k, n);
    SlackIdentity(m, k, k0, k1, n);
    ToReal(m, w0, w1, w);
    TimesMeans(m, a + 1.0);
    Squeeze(m as real, x, a, w0 as real, w1 as real, w as real);
  }

  lemma SqueezeLower(n: nat, s: set<Name>, others: set<Name>, x: real, y: real, a: real)
    requires |s| >= 1 && |others| >= 1 && y <= Times(|others|, a + 1.0)
    requires 2.0 * (x - a) >= -(Slack(|s| - 1, n) as real)
    requires 2.0 * x + 2.0 * y >= -(Slack(|s| + |others|, n) as real)
    ensures 2.0 * x >= -(Slack(|s|, n) as real)
  {
    SqueezeSlack(|others|, |s|, |s| - 1, |s| + |others|, n, x, a);
  }

  lemma SqueezeUpper(n: nat, k: nat, m: nat, x: real, y: real, a: real)
    requires 1 <= m <= k && y <= Times(m, a + 1.0)
    requires 2.0 * (x + a) <= Slack(k + 1, n) as real
    requires 2.0 * x - 2.0 * y <= Slack(k - m, n) as real
    ensures 2.0 * x <= Slack(k, n) as real
  {
    SqueezeSlack(m, k, k + 1, k - m, n, -x, a);
  }

  lemma ToReal(m: int, w0: int, w1: int, w: int)
    requires (m + 1) * w == m * w0 + w1 + m * (m + 1)
    ensures (m as real + 1.0) * w as real == m as real * w0 as real + w1 as real + m as real * (m as real + 1.0)
  {
    Product(m + 1, w);
    Product(m, w0);
    Product(m, m + 1);
  }

  lemma Product(a: int, b: int)
    ensures (a * b) as real == a as real * b as real
  {
  }

  /** After a chunk, no healthy path is more than one unit ahead of the one that just paid. */
  lemma OthersClose(c: Credits, shares: Credits, chosen: Name, s: set<Name>)
    requires Chunk(c, shares, chosen) && s <= shares.Keys
    ensures var d := Charged(c, shares, chosen); Sum(d, s) <= Times(|s|, d[chosen] + 1.0)
  {
    var d := Charged(c, shares, chosen);
    SumAtMost(d, s, d[chosen] + 1.0);
  }

  lemma {:induction false} SumNonNegative(c: Credits, s: set<Name>)
    requires s <= c.Keys && forall x :: x in s ==> c[x] >= 0.0
    ensures Sum(c, s) >= 0.0
    decreases |s|
  {
    if s != {} {
      var x :| x in s;
      SumRemove(c, s, x);
      SumNonNegative(c, s - {x});
    }
  }

  /** The part of one unit that falls to a set of paths. */
  lemma PartOfOne(c: Credits, shares: Credits, chosen: Name, s: set<Name>)
    requires Chunk(c, shares, chosen)
    ensures 0.0 <= Sum(shares, s * shares.Keys) <= 1.0
    ensures shares.Keys <= s ==> Sum(shares, s * shares.Keys) == 1.0
  {
    var h := shares.Keys;
    SumNonNegative(shares, s * h);
    SumNonNegative(shares, h - s);
    SumUnion(shares, s * h, h - s);
    assert s * h + (h - s) == h;
    if h <= s { assert s * h == h; }
  }

  /** A set without the chosen path gains, one with it loses, and one that holds all healthy paths
      or none of them does neither. */
  lemma GainOrLoss(c: Credits, shares: Credits, chosen: Name, s: set<Name>)
    requires Chunk(c, shares, chosen) && s <= c.Keys
    ensures var d, h := Charged(c, shares, chosen), shares.Keys;
      && (chosen !in s ==> Sum(d, s) >= Sum(c, s))
      && (chosen in s ==> Sum(d, s) <= Sum(c, s))
      && (h <= s || s * h == {} ==> Sum(d, s) == Sum(c, s))
  {
    SumCharged(c, shares, chosen, s);
    PartOfOne(c, shares, chosen, s);
    if s * shares.Keys == {} { assert chosen !in s * shares.Keys; }
  }

  lemma SumWithout(d: Credits, s: set<Name>, x: Name)
    requires x in s && s <= d.Keys
    ensures Sum(d, s - {x}) == Sum(d, s) - d[x] && |s - {x}| == |s| - 1
  {
    SumRemove(d, s, x);
  }

  lemma SumTogether(d: Credits, s: set<Name>, t: set<Name>)
    requires s !! t && s + t <= d.Keys
    ensures Sum(d, s + t) == Sum(d, s) + Sum(d, t) && |s + t| == |s| + |t|
  {
    SumUnion(d, s, t);
  }

  /** A set keeps its lower bound unless it holds the chosen path and misses a healthy one. */
  lemma StaysAbove(c: Credits, n: nat, shares: Credits, chosen: Name, s: set<Name>)
    requires Balanced(c, n) && Chunk(c, shares, chosen) && s <= c.Keys
    requires chosen !in s || shares.Keys <= s
    ensures 2.0 * Sum(Charged(c, shares, chosen), s) >= -(Slack(|s|, n) as real)
  {
    GainOrLoss(c, shares, chosen, s);
    assert Within(c, s, n);
  }

  /** A set keeps its upper bound unless it misses the chosen path and holds a healthy one. */
  lemma StaysBelow(c: Credits, n: nat, shares: Credits, chosen: Name, s: set<Name>)
    requires Balanced(c, n) && Chunk(c, shares, chosen) && s <= c.Keys
    requires chosen in s || s !! shares.Keys
    ensures 2.0 * Sum(Charged(c, shares, chosen), s) <= Slack(|s|, n) as real
  {
    GainOrLoss(c, shares, chosen, s);
    assert Within(c, s, n);
  }

  /** The healthy paths that are not in `s`. */
  ghost predicate Rest(shares: Credits, s: set<Name>, others: set<Name>) {
    forall x :: x in others <==> x in shares && x !in s
  }

  lemma LowerWithout(c: Credits, n: nat, shares: Credits, chosen: Name, s: set<Name>)
    requires Balanced(c, n) && Chunk(c, shares, chosen) && s <= c.Keys && chosen in s
    ensures var d := Charged(c, shares, chosen);
      |s| >= 1 && 2.0 * (Sum(d, s) - d[chosen]) >= -(Slack(|s| - 1, n) as real)
  {
    StaysAbove(c, n, shares, chosen, s - {chosen});
    SumWithout(Charged(c, shares, chosen), s, chosen);
  }

  lemma LowerTogether(c: Credits, n: nat, shares: Credits, chosen: Name, s: set<Name>, others: set<Name>)
    requires Balanced(c, n) && Chunk(c, shares, chosen) && s <= c.Keys && Rest(shares, s, others)
    ensures var d := Charged(c, shares, chosen);
      2.0 * Sum(d, s) + 2.0 * Sum(d, others) >= -(Slack(|s| + |others|, n) as real)
  {
    StaysAbove(c, n, shares, chosen, s + others);
    SumTogether(Charged(c, shares, chosen), s, others);
  }

  lemma LowerFinal(d: Credits, n: nat, chosen: Name, s: set<Name>, others: set<Name>)
    requires s <= d.Keys && chosen in s && others <= d.Keys && |others| >= 1 && |s| >= 1
    requires 2.0 * Sum(d, s) + 2.0 * Sum(d, others) >= -(Slack(|s| + |others|, n) as real)
    requires Sum(d, others) <= Times(|others|, d[chosen] + 1.0)
    requires 2.0 * (Sum(d, s) - d[chosen]) >= -(Slack(|s| - 1, n) as real)
    ensures 2.0 * Sum(d, s) >= -(Slack(|s|, n) as real)
  {
    SqueezeLower(n, s, others, Sum(d, s), Sum(d, others), d[chosen]);
  }

  lemma LowerCase(c: Credits, n: nat, shares: Credits, chosen: Name, s: set<Name>, others: set<Name>)
    requires Balanced(c, n) && Chunk(c, shares, chosen) && s <= c.Keys && chosen in s
    requires others <= shares.Keys && |others| >= 1 && Rest(shares, s, others)
    ensures 2.0 * Sum(Charged(c, shares, chosen), s) >= -(Slack(|s|, n) as real)
  {
    LowerWithout(c, n, shares, chosen, s);
    LowerTogether(c, n, shares, chosen, s, others);
    OthersClose(c, shares, chosen, others);
    LowerFinal(Charged(c, shares, chosen), n, chosen, s, others);
  }

  lemma UpperWith(c: Credits, n: nat, shares: Credits, chosen: Name, s: set<Name>)
    requires Balanced(c, n) && Chunk(c, shares, chosen) && s <= c.Keys && chosen !in s
    ensures var d := Charged(c, shares, chosen); 2.0 * (Sum(d, s) + d[chosen]) <= Slack(|s| + 1, n) as real
  {
    var more := s + {chosen};
    StaysBelow(c, n, shares, chosen, more);
    SumWithout(Charged(c, shares, chosen), more, chosen);
    assert more - {chosen} == s;
  }

  lemma UpperApart(c: Credits, n: nat, shares: Credits, chosen: Name, s: set<Name>, healthy: set<Name>)
    requires Balanced(c, n) && Chunk(c, shares, chosen) && s <= c.Keys && healthy == s * shares.Keys
    ensures var d := Charged(c, shares, chosen);
      |healthy| <= |s| && 2.0 * Sum(d, s) - 2.0 * Sum(d, healthy) <= Slack(|s| - |healthy|, n) as real
  {
    var idle := s - shares.Keys;
    StaysBelow(c, n, shares, chosen, idle);
    SumTogether(Charged(c, shares, chosen), idle, healthy);
    assert idle + healthy == s;
  }

  /** What `s` has after the chunk, what its healthy paths have, and what the chosen path has. */
  lemma UpperFacts(c: Credits, n: nat, shares: Credits, chosen: Name, s: set<Name>, healthy: set<Name>)
    returns (x: real, y: real, a: real)
    requires Balanced(c, n) && Chunk(c, shares, chosen) && s <= c.Keys && chosen !in s
    requires healthy == s * shares.Keys
    ensures x == Sum(Charged(c, shares, chosen), s) && |healthy| <= |s|
    ensures y <= Times(|healthy|, a + 1.0)
    ensures 2.0 * (x + a) <= Slack(|s| + 1, n) as real
    ensures 2.0 * x - 2.0 * y <= Slack(|s| - |healthy|, n) as real
  {
    var d := Charged(c, shares, chosen);
    UpperWith(c, n, shares, chosen, s);
    UpperApart(c, n, shares, chosen, s, healthy);
    OthersClose(c, shares, chosen, healthy);
    x, y, a := Sum(d, s), Sum(d, healthy), d[chosen];
  }

  lemma UpperCase(c: Credits, n: nat, shares: Credits, chosen: Name, s: set<Name>, healthy: set<Name>)
    requires Balanced(c, n) && Chunk(c, shares, chosen) && s <= c.Keys && chosen !in s
    requires healthy == s * shares.Keys && |healthy| >= 1
    ensures 2.0 * Sum(Charged(c, shares, chosen), s) <= Slack(|s|, n) as real
  {
    var x, y, a := UpperFacts(c, n, shares, chosen, s, healthy);
    SqueezeUpper(n, |s|, |healthy|, x, y, a);
  }

  lemma LowerEither(c: Credits, n: nat, shares: Credits, chosen: Name, s: set<Name>)
    requires Balanced(c, n) && Chunk(c, shares, chosen) && s <= c.Keys
    ensures 2.0 * Sum(Charged(c, shares, chosen), s) >= -(Slack(|s|, n) as real)
  {
    var others := set x | x in shares && x !in s;
    if chosen in s && others != {} {
      LowerCase(c, n, shares, chosen, s, others);
    } else {
      assert chosen in s ==> forall x :: x in shares ==> x !in others ==> x in s;
      StaysAbove(c, n, shares, chosen, s);
    }
  }

  lemma UpperEither(c: Credits, n: nat, shares: Credits, chosen: Name, s: set<Name>)
    requires Balanced(c, n) && Chunk(c, shares, chosen) && s <= c.Keys
    ensures 2.0 * Sum(Charged(c, shares, chosen), s) <= Slack(|s|, n) as real
  {
    var healthy := s * shares.Keys;
    if chosen !in s && healthy != {} {
      UpperCase(c, n, shares, chosen, s, healthy);
    } else {
      assert chosen !in s ==> forall x :: x in s ==> x !in healthy ==> x !in shares;
      StaysBelow(c, n, shares, chosen, s);
    }
  }

  /** A chunk keeps the balance, whichever paths are healthy and whatever their capacities are. */
  lemma ChunkKeepsBalance(c: Credits, n: nat, shares: Credits, chosen: Name)
    requires Balanced(c, n) && Chunk(c, shares, chosen)
    ensures Balanced(Charged(c, shares, chosen), n)
  {
    forall s | s <= c.Keys ensures Within(Charged(c, shares, chosen), s, n) {
      LowerEither(c, n, shares, chosen, s);
      UpperEither(c, n, shares, chosen, s);
    }
  }

  lemma AddKeepsBalance(c: Credits, n: nat, x: Name)
    requires Balanced(c, n) && x !in c
    ensures Balanced(c[x := 0.0], n + 1)
  {
    var d := c[x := 0.0];
    forall s | s <= d.Keys ensures Within(d, s, n + 1) {
      var t := s - {x};
      assert Within(c, t, n);
      if x in s { SumRemove(d, s, x); } else { assert t == s; }
      SumAgree(d, c, t);
      SubsetSize(t, c.Keys);
      SlackGrows(|t|, |s|, n);
    }
  }

  lemma {:induction false} SlackGrows(k: nat, l: nat, n: nat)
    requires k <= n && (l == k || l == k + 1)
    ensures Slack(k, n) <= Slack(l, n + 1)
  {
    SlackClosedForm(k, n);
    SlackClosedForm(l, n + 1);
    assert k * (n + 1 - k) == k * (n - k) + k;
    assert (k + 1) * (n + 1 - (k + 1)) == k * (n - k) + (n - k);
  }

  lemma {:induction false} SubsetSize(s: set<Name>, t: set<Name>)
    requires s <= t
    ensures |s| <= |t|
    decreases |s|
  {
    if s != {} {
      var x :| x in s;
      SubsetSize(s - {x}, t - {x});
    }
  }

  lemma RemoveKeepsBalance(c: Credits, n: nat, x: Name)
    requires Balanced(c, n) && x in c
    ensures Balanced(c - {x}, n)
  {
    var d := c - {x};
    SubsetSize(d.Keys, c.Keys);
    forall s | s <= d.Keys ensures Within(d, s, n) {
      assert Within(c, s, n);
      SumAgree(d, c, s);
    }
  }

  /** No single path is ever further ahead or behind than half a unit for every other path. */
  lemma BalanceOfOne(c: Credits, n: nat, x: Name)
    requires Balanced(c, n) && x in c
    ensures -((n - 1) as real) <= 2.0 * c[x] <= (n - 1) as real
  {
    assert Within(c, {x}, n);
    SumRemove(c, {x}, x);
    assert {x} - {x} == {};
    SlackClosedForm(1, n);
  }

  /** A path that none leads by more than a unit is less than a unit behind when nothing is owed. */
  lemma LeaderAboveMinusOne(d: Credits, chosen: Name)
    requires chosen in d && Sum(d, d.Keys) == 0.0
    requires forall x :: x in d ==> d[x] <= d[chosen] + 1.0
    ensures d[chosen] > -1.0
  {
    if d[chosen] <= -1.0 {
      var rest := d.Keys - {chosen};
      SumRemove(d, d.Keys, chosen);
      SumAtMost(d, rest, 0.0);
      TimesMeans(|rest|, 0.0);
    }
  }

  lemma ChosenLeads(c: Credits, shares: Credits, chosen: Name)
    requires Chunk(c, shares, chosen) && shares.Keys == c.Keys
    ensures var d := Charged(c, shares, chosen);
      forall x :: x in d ==> d[x] <= d[chosen] + 1.0 && (x != chosen ==> d[x] >= c[x])
  {
  }

  /** With every path healthy and nothing owed overall, no path falls a whole unit behind. */
  lemma AllHealthyAboveMinusOne(c: Credits, shares: Credits, chosen: Name)
    requires Chunk(c, shares, chosen) && shares.Keys == c.Keys && Sum(c, c.Keys) == 0.0
    requires forall x :: x in c ==> c[x] > -1.0
    ensures forall x :: x in c ==> Charged(c, shares, chosen)[x] > -1.0
  {
    ChunkConserves(c, shares, chosen);
    ChosenLeads(c, shares, chosen);
    LeaderAboveMinusOne(Charged(c, shares, chosen), chosen);
  }

  // -------------------------------------------------------------------- runs

  datatype Turn =
    | Added(name: Name)
    | Removed(name: Name)
    | Sent(shares: Credits, chosen: Name)

  /** The credits, and how many paths have ever been added. */
  datatype Books = Books(credits: Credits, ever: nat)

  const NEW: Books := Books(map[], 0)

  ghost predicate Possible(b: Books, t: Turn) {
    match t
    case Added(x) => x !in b.credits
    case Removed(x) => x in b.credits
    case Sent(shares, chosen) => Chunk(b.credits, shares, chosen)
  }

  function Book(b: Books, t: Turn): Books {
    match t
    case Added(x) => Books(b.credits[x := 0.0], b.ever + 1)
    case Removed(x) => Books(b.credits - {x}, b.ever)
    case Sent(shares, chosen) => Books(Charged(b.credits, shares, chosen), b.ever)
  }

  ghost predicate Run(b: Books, run: seq<Turn>)
    decreases |run|
  {
    run == [] || (Possible(b, run[0]) && Run(Book(b, run[0]), run[1..]))
  }

  function After(b: Books, run: seq<Turn>): Books
    decreases |run|
  {
    if run == [] then b else After(Book(b, run[0]), run[1..])
  }

  /** What path `x` was entitled to over a run, and how many chunks it was given. */
  function Entitled(run: seq<Turn>, x: Name): real
    decreases |run|
  {
    if run == [] then 0.0
    else (if run[0].Sent? then Share(run[0].shares, x) else 0.0) + Entitled(run[1..], x)
  }

  function Carried(run: seq<Turn>, x: Name): real
    decreases |run|
  {
    if run == [] then 0.0
    else (if run[0].Sent? then Charge(run[0].chosen, x) else 0.0) + Carried(run[1..], x)
  }

  /** Path `x` is neither added nor removed during the run. */
  predicate Stays(run: seq<Turn>, x: Name) {
    forall i :: 0 <= i < |run| ==> run[i] != Added(x) && run[i] != Removed(x)
  }

  lemma {:induction false} RunBalanced(b: Books, run: seq<Turn>)
    requires Balanced(b.credits, b.ever) && Run(b, run)
    ensures Balanced(After(b, run).credits, After(b, run).ever) && After(b, run).ever >= b.ever
    decreases |run|
  {
    if run != [] {
      match run[0] {
        case Added(x) => AddKeepsBalance(b.credits, b.ever, x);
        case Removed(x) => RemoveKeepsBalance(b.credits, b.ever, x);
        case Sent(shares, chosen) => ChunkKeepsBalance(b.credits, b.ever, shares, chosen);
      }
      RunBalanced(Book(b, run[0]), run[1..]);
    }
  }

  /** Exact accounting: the change in a path's credit is what it was entitled to less what it carried. */
  lemma {:induction false} Accounting(b: Books, run: seq<Turn>, x: Name)
    requires Run(b, run) && x in b.credits && Stays(run, x)
    ensures x in After(b, run).credits
    ensures After(b, run).credits[x] - b.credits[x] == Entitled(run, x) - Carried(run, x)
    decreases |run|
  {
    if run != [] {
      assert forall i :: 0 <= i < |run[1..]| ==> run[1..][i] == run[i + 1];
      assert run[0] != Removed(x);
      Accounting(Book(b, run[0]), run[1..], x);
    }
  }

  /** With the same shares for every chunk, a path is entitled to its share of each of them. */
  lemma {:induction false} EntitledSteadily(run: seq<Turn>, shares: Credits, x: Name)
    requires forall k :: 0 <= k < |run| ==> run[k].Sent? && run[k].shares == shares
    ensures Entitled(run, x) == Times(|run|, Share(shares, x)) && Stays(run, x)
    decreases |run|
  {
    if run != [] { EntitledSteadily(run[1..], shares, x); }
  }

  lemma NewIsBalanced()
    ensures Balanced(NEW.credits, NEW.ever)
  {
    forall s: set<Name> | s <= NEW.credits.Keys ensures Within(NEW.credits, s, 0) { assert s == {}; }
  }

  lemma {:induction false} RunSnoc(b: Books, run: seq<Turn>, t: Turn)
    requires Run(b, run) && Possible(After(b, run), t)
    ensures Run(b, run + [t]) && After(b, run + [t]) == Book(After(b, run), t)
    decreases |run|
  {
    if run == [] {
      assert run + [t] == [t];
    } else {
      assert (run + [t])[1..] == run[1..] + [t];
      RunSnoc(Book(b, run[0]), run[1..], t);
    }
  }

  lemma {:induction false} RunSplit(b: Books, run: seq<Turn>, i: nat)
    requires Run(b, run) && i <= |run|
    ensures Run(b, run[..i]) && Run(After(b, run[..i]), run[i..])
    ensures After(After(b, run[..i]), run[i..]) == After(b, run)
    decreases i
  {
    if i == 0 {
      assert run[i..] == run;
    } else {
      RunSplit(Book(b, run[0]), run[1..], i - 1);
      assert run[..i][1..] == run[1..][..i - 1] && run[1..][i - 1..] == run[i..];
    }
  }

  /** Fairness over any window of any run, while paths are added and removed, fall ill and recover,
      and change capacity: the chunks a path carried differ from what it was entitled to by less
      than the number of paths ever added, and by half that counting from when it was added. */
  lemma FairShare(run: seq<Turn>, i: nat, x: Name)
    requires Run(NEW, run) && i <= |run|
    requires x in After(NEW, run[..i]).credits && Stays(run[i..], x)
    ensures var n, gap := After(NEW, run).ever as real, Carried(run[i..], x) - Entitled(run[i..], x);
      && -(n - 1.0) <= gap <= n - 1.0
      && (After(NEW, run[..i]).credits[x] == 0.0 ==> -(n - 1.0) <= 2.0 * gap <= n - 1.0)
  {
    var b := After(NEW, run[..i]);
    RunSplit(NEW, run, i);
    NewIsBalanced();
    RunBalanced(NEW, run[..i]);
    RunBalanced(b, run[i..]);
    Accounting(b, run[i..], x);
    BalanceOfOne(b.credits, b.ever, x);
    BalanceOfOne(After(NEW, run).credits, After(NEW, run).ever, x);
  }

  /** Every chunk of the run finds every path healthy, and no path comes or goes. */
  predicate AllHealthy(run: seq<Turn>, paths: set<Name>) {
    forall i :: 0 <= i < |run| ==> run[i].Sent? && run[i].shares.Keys == paths
  }

  /** With every path healthy and credits starting at zero, credits always sum to zero and each
      stays above -1 and at or below half of the number of the others. */
  lemma {:induction false} HealthyRange(b: Books, run: seq<Turn>)
    requires Run(b, run) && AllHealthy(run, b.credits.Keys) && Balanced(b.credits, b.ever)
    requires Sum(b.credits, b.credits.Keys) == 0.0 && forall x :: x in b.credits ==> b.credits[x] > -1.0
    ensures var c := After(b, run).credits;
      && Sum(c, c.Keys) == 0.0 && c.Keys == b.credits.Keys
      && forall x :: x in c ==> -1.0 < c[x] && 2.0 * c[x] <= (b.ever - 1) as real
    decreases |run|
  {
    if run == [] {
      forall x | x in b.credits ensures 2.0 * b.credits[x] <= (b.ever - 1) as real {
        BalanceOfOne(b.credits, b.ever, x);
      }
    } else {
      var t := run[0];
      assert t.Sent? && t.shares.Keys == b.credits.Keys;
      ChunkKeepsBalance(b.credits, b.ever, t.shares, t.chosen);
      ChunkConserves(b.credits, t.shares, t.chosen);
      AllHealthyAboveMinusOne(b.credits, t.shares, t.chosen);
      HealthyRange(Book(b, t), run[1..]);
    }
  }

  lemma {:induction false} SumOfZeros(c: Credits, s: set<Name>)
    requires s <= c.Keys && forall x :: x in c ==> c[x] == 0.0
    ensures Sum(c, s) == 0.0
    decreases |s|
  {
    if s != {} {
      var x :| x in s;
      SumRemove(c, s, x);
      SumOfZeros(c, s - {x});
    }
  }

  lemma ZerosAreBalanced(c: Credits)
    requires forall x :: x in c ==> c[x] == 0.0
    ensures Balanced(c, |c.Keys|) && Sum(c, c.Keys) == 0.0
  {
    SumOfZeros(c, c.Keys);
    forall s | s <= c.Keys ensures Within(c, s, |c.Keys|) {
      SumOfZeros(c, s);
      SubsetSize(s, c.Keys);
      SlackClosedForm(|s|, |c.Keys|);
    }
  }

  lemma HealthyAt(b: Books, run: seq<Turn>, i: nat, x: Name)
    requires Run(b, run) && AllHealthy(run, b.credits.Keys) && b.ever == |b.credits.Keys|
    requires (forall y :: y in b.credits ==> b.credits[y] == 0.0) && i <= |run| && x in b.credits
    ensures var c := After(b, run[..i]).credits; x in c && -1.0 < c[x] && 2.0 * c[x] <= (b.ever - 1) as real
  {
    ZerosAreBalanced(b.credits);
    RunSplit(b, run, i);
    HealthyRange(b, run[..i]);
  }

  /** Fairness among healthy paths: from credits of zero, over any window, the chunks each of `n`
      paths carried differ from what it was entitled to by less than `(n + 1) / 2`, even while
      capacities change between chunks. */
  lemma HealthyShare(b: Books, run: seq<Turn>, i: nat, x: Name)
    requires Run(b, run) && AllHealthy(run, b.credits.Keys) && b.ever == |b.credits.Keys|
    requires forall y :: y in b.credits ==> b.credits[y] == 0.0
    requires i <= |run| && x in b.credits
    ensures var n, gap := b.ever as real, Carried(run[i..], x) - Entitled(run[i..], x);
      -(n + 1.0) < 2.0 * gap < n + 1.0
  {
    HealthyAt(b, run, i, x);
    HealthyAt(b, run, |run|, x);
    assert run[..|run|] == run;
    AccountingFrom(b, run, i, x);
  }

  lemma AccountingFrom(b: Books, run: seq<Turn>, i: nat, x: Name)
    requires Run(b, run) && i <= |run| && x in After(b, run[..i]).credits && Stays(run[i..], x)
    ensures x in After(b, run).credits
    ensures After(b, run).credits[x] - After(b, run[..i]).credits[x] == Entitled(run[i..], x) - Carried(run[i..], x)
  {
    RunSplit(b, run, i);
    Accounting(After(b, run[..i]), run[i..], x);
  }
}
