/** The multipath scheduler of `multipath.rs`: path health, and striping chunks by credit. Floating
    point is taken as real arithmetic; time is a non-decreasing count of nanoseconds. */
module Multipath {
  import opened Prelude
  import F = Fairness

  const ALPHA: real := 0.25
  const UNHEALTHY_LOSS: real := 0.20
  const STALE_AFTER: nat := 5_000_000_000
  const INITIAL_CAPACITY: real := 262144.0

  function Ewma(previous: real, sample: real): real { ALPHA * sample + (1.0 - ALPHA) * previous }

  datatype Path = Path(name: F.Name, capacity: real, rtt: Option<real>, sent: nat, acknowledged: nat, lost: nat,
                       loss: real, lastSuccess: nat, disabled: bool)
  {
    predicate Valid() { capacity > 0.0 && 0.0 <= loss <= 1.0 }

    predicate IsHealthy(now: nat) {
      && !disabled
      && loss <= UNHEALTHY_LOSS
      && !(sent > acknowledged + lost && now - lastSuccess > STALE_AFTER)
    }

    function Delivered(bytes: nat, rtt: real, now: nat): (p: Path)
      requires Valid() && rtt >= 0.0
      ensures p.Valid() && p.name == name
    {
      var observed := bytes as real / if rtt <= 0.001 then 0.001 else rtt;
      this.(acknowledged := acknowledged + 1, lastSuccess := now, loss := Ewma(loss, 0.0),
            capacity := Ewma(capacity, observed),
            rtt := Some(match this.rtt case None => rtt case Some(previous) => Ewma(previous, rtt)))
    }

    function Lost(): (p: Path)
      requires Valid()
      ensures p.Valid() && p.name == name
    {
      this.(lost := lost + 1, loss := Ewma(loss, 1.0), capacity := Ewma(capacity, capacity * 0.5))
    }
  }

  function NewPath(name: F.Name, now: nat): (p: Path)
    ensures p.Valid()
  {
    Path(name, INITIAL_CAPACITY, None, 0, 0, 0, 0.0, now, false)
  }

  function LossAfter(loss: real, deliveries: nat): real {
    if deliveries == 0 then loss else Ewma(LossAfter(loss, deliveries - 1), 0.0)
  }

  /** However bad its past, a path that delivers six chunks in a row is back within the loss limit,
      and five are not always enough. */
  lemma SixDeliveriesForgive(p: Path, bytes: nat, rtt: real, now: nat)
    requires p.Valid() && rtt >= 0.0
    ensures p.Delivered(bytes, rtt, now).loss == LossAfter(p.loss, 1)
    ensures LossAfter(p.loss, 6) <= UNHEALTHY_LOSS
    ensures p.loss == 1.0 ==> LossAfter(p.loss, 5) > UNHEALTHY_LOSS
  {
    assert LossAfter(p.loss, 1) == 0.75 * p.loss;
    assert LossAfter(p.loss, 2) == 0.5625 * p.loss;
    assert LossAfter(p.loss, 3) == 0.421875 * p.loss;
    assert LossAfter(p.loss, 4) == 0.31640625 * p.loss;
    assert LossAfter(p.loss, 5) == 0.2373046875 * p.loss;
  }

  /** An idle path stays as healthy as it is, however long; one that awaits an answer is given five seconds
      from its last success, and no path is healthy that is disabled or loses more than a fifth. */
  lemma HealthOverTime(p: Path, now: nat, later: nat)
    requires p.lastSuccess <= now <= later
    ensures p.sent <= p.acknowledged + p.lost ==> (p.IsHealthy(now) <==> p.IsHealthy(later))
    ensures p.sent > p.acknowledged + p.lost ==>
      (p.IsHealthy(now) <==> !p.disabled && p.loss <= 0.2 && now <= p.lastSuccess + 5_000_000_000)
    ensures p.IsHealthy(later) ==> p.IsHealthy(now) && !p.disabled && p.loss <= 0.2
    ensures p.sent <= p.acknowledged + p.lost && !p.disabled && p.loss <= 0.2 ==> p.IsHealthy(now)
  {
  }

  /** A new path is healthy; the first chunk it loses takes it out, and the next it delivers brings it
      back. */
  lemma OneLossDisqualifies(name: F.Name, bytes: nat, rtt: real, start: nat, now: nat)
    requires rtt >= 0.0 && start <= now
    ensures var p := NewPath(name, start);
      && p.IsHealthy(now)
      && !p.(sent := 1).Lost().IsHealthy(now)
      && p.(sent := 2).Lost().Delivered(bytes, rtt, now).IsHealthy(now)
  {
    assert NewPath(name, start).Lost().loss == 0.25;
  }

  /** How far one chunk moves the estimates: a delivery a quarter of the way to what was just measured, a
      loss takes an eighth off the capacity and moves the loss a quarter of the way to one. */
  lemma EstimatesMove(p: Path, bytes: nat, rtt: real, now: nat)
    requires p.Valid() && rtt >= 0.001
    ensures var d := p.Delivered(bytes, rtt, now);
      && 4.0 * (d.capacity - p.capacity) == bytes as real / rtt - p.capacity
      && 4.0 * (d.loss - p.loss) == -p.loss
      && d.acknowledged == p.acknowledged + 1 && d.lost == p.lost && d.sent == p.sent && d.lastSuccess == now
      && d.rtt.Some? && (p.rtt.None? ==> d.rtt.value == rtt)
      && (p.rtt.Some? ==> 4.0 * (d.rtt.value - p.rtt.value) == rtt - p.rtt.value)
    ensures var l := p.Lost();
      && 8.0 * (p.capacity - l.capacity) == p.capacity
      && 4.0 * (l.loss - p.loss) == 1.0 - p.loss
      && l.lost == p.lost + 1 && l.acknowledged == p.acknowledged && l.rtt == p.rtt && l.lastSuccess == p.lastSuccess
  {
  }

  // ------------------------------------------------- indices and the ledger

  type Paths = seq<Path>

  ghost predicate Distinct(paths: Paths) {
    forall i, j :: 0 <= i < j < |paths| ==> paths[i].name != paths[j].name
  }

  function Named(paths: Paths): set<F.Name> { set i | 0 <= i < |paths| :: paths[i].name }

  function IndexOf(paths: Paths, x: F.Name): (i: nat)
    requires x in Named(paths)
    ensures i < |paths| && paths[i].name == x
    ensures forall j :: 0 <= j < i ==> paths[j].name != x
    decreases |paths|
  {
    if paths[0].name == x then 0
    else
      assert forall i :: 0 < i < |paths| ==> paths[i] == paths[1..][i - 1];
      1 + IndexOf(paths[1..], x)
  }

  lemma IndexOfNamed(paths: Paths, i: nat)
    requires Distinct(paths) && i < |paths|
    ensures paths[i].name in Named(paths) && IndexOf(paths, paths[i].name) == i
  {
  }

  /** The credits by name. */
  ghost function Ledger(paths: Paths, credits: seq<real>): F.Credits
    requires |credits| == |paths|
  {
    map x | x in Named(paths) :: credits[IndexOf(paths, x)]
  }

  predicate IsIn(paths: Paths, now: nat, x: F.Name)
    requires x in Named(paths)
  {
    paths[IndexOf(paths, x)].IsHealthy(now)
  }

  /** Amounts handed out by index, as they fall to the healthy paths by name. */
  ghost function ByName(paths: Paths, now: nat, given: seq<real>): F.Credits
    requires |given| == |paths|
  {
    map x | x in Named(paths) && IsIn(paths, now, x) :: given[IndexOf(paths, x)]
  }

  /** What the healthy ones among the first `n` paths are handed, together. */
  function HandedOut(paths: Paths, now: nat, given: seq<real>, n: nat): real
    requires n <= |paths| == |given|
  {
    if n == 0 then 0.0
    else HandedOut(paths, now, given, n - 1) + if paths[n - 1].IsHealthy(now) then given[n - 1] else 0.0
  }

  ghost function FirstHealthy(paths: Paths, now: nat, n: nat): set<F.Name>
    requires n <= |paths|
  {
    set i | 0 <= i < n && paths[i].IsHealthy(now) :: paths[i].name
  }

  lemma FirstHealthyStep(paths: Paths, now: nat, n: nat)
    requires Distinct(paths) && 0 < n <= |paths|
    ensures paths[n - 1].name !in FirstHealthy(paths, now, n - 1)
    ensures FirstHealthy(paths, now, n) == FirstHealthy(paths, now, n - 1)
                                           + if paths[n - 1].IsHealthy(now) then {paths[n - 1].name} else {}
  {
  }

  lemma ByNameAt(paths: Paths, now: nat, given: seq<real>, i: nat)
    requires Distinct(paths) && i < |paths| == |given|
    ensures paths[i].name in ByName(paths, now, given) <==> paths[i].IsHealthy(now)
    ensures paths[i].IsHealthy(now) ==> ByName(paths, now, given)[paths[i].name] == given[i]
  {
    IndexOfNamed(paths, i);
  }

  lemma {:induction false} SumOfHealthy(paths: Paths, now: nat, given: seq<real>, s: F.Credits, n: nat)
    requires Distinct(paths) && n <= |paths| == |given|
    requires forall i :: 0 <= i < |paths| && paths[i].IsHealthy(now)
               ==> paths[i].name in s && s[paths[i].name] == given[i]
    ensures FirstHealthy(paths, now, n) <= s.Keys
    ensures F.Sum(s, FirstHealthy(paths, now, n)) == HandedOut(paths, now, given, n)
  {
    if n > 0 {
      SumOfHealthy(paths, now, given, s, n - 1);
      FirstHealthyStep(paths, now, n);
      if paths[n - 1].IsHealthy(now) {
        var before, x := FirstHealthy(paths, now, n - 1), paths[n - 1].name;
        F.SumRemove(s, before + {x}, x);
        assert before + {x} - {x} == before;
        assert s[x] == given[n - 1];
      } else {
        assert FirstHealthy(paths, now, n) == FirstHealthy(paths, now, n - 1);
      }
    }
  }

  lemma SumByName(paths: Paths, now: nat, given: seq<real>)
    requires Distinct(paths) && |given| == |paths|
    ensures FirstHealthy(paths, now, |paths|) <= ByName(paths, now, given).Keys
    ensures F.Sum(ByName(paths, now, given), FirstHealthy(paths, now, |paths|))
         == HandedOut(paths, now, given, |paths|)
  {
    forall i | 0 <= i < |paths| && paths[i].IsHealthy(now)
      ensures paths[i].name in ByName(paths, now, given) && ByName(paths, now, given)[paths[i].name] == given[i]
    {
      ByNameAt(paths, now, given, i);
    }
    SumOfHealthy(paths, now, given, ByName(paths, now, given), |paths|);
  }

  // ---------------------------------------------------------------- one chunk

  ghost predicate Sound(paths: Paths) { Distinct(paths) && forall i :: 0 <= i < |paths| ==> paths[i].Valid() }

  predicate AnyHealthy(paths: Paths, now: nat) { exists i :: 0 <= i < |paths| && paths[i].IsHealthy(now) }

  /** The capacity of the healthy ones among the first `n` paths. */
  function Capacity(paths: Paths, now: nat, n: nat): real
    requires n <= |paths|
  {
    if n == 0 then 0.0
    else Capacity(paths, now, n - 1) + if paths[n - 1].IsHealthy(now) then paths[n - 1].capacity else 0.0
  }

  lemma {:induction false} CapacityPositive(paths: Paths, now: nat, n: nat)
    requires Sound(paths) && n <= |paths|
    ensures Capacity(paths, now, n) >= 0.0
    ensures (exists i :: 0 <= i < n && paths[i].IsHealthy(now)) ==> Capacity(paths, now, n) > 0.0
  {
    if n > 0 {
      CapacityPositive(paths, now, n - 1);
      assert paths[n - 1].Valid();
    }
  }

  /** What one path is entitled to of a chunk, out of a total capacity. */
  function Part(p: Path, now: nat, total: real): real {
    if p.IsHealthy(now) && total > 0.0 then p.capacity / total else 0.0
  }

  function Entitlements(paths: Paths, now: nat): (given: seq<real>)
    ensures |given| == |paths|
    ensures forall i :: 0 <= i < |paths| ==> given[i] == Part(paths[i], now, Capacity(paths, now, |paths|))
  {
    var total := Capacity(paths, now, |paths|);
    seq(|paths|, i requires 0 <= i < |paths| => Part(paths[i], now, total))
  }

  lemma DivAdd(a: real, b: real, t: real)
    requires t > 0.0
    ensures a / t + b / t == (a + b) / t
  {
  }

  lemma {:induction false} HandedOutAddsUp(paths: Paths, now: nat, given: seq<real>, total: real, n: nat)
    requires n <= |paths| == |given| && total > 0.0
    requires forall i :: 0 <= i < |paths| ==> given[i] == Part(paths[i], now, total)
    ensures HandedOut(paths, now, given, n) == Capacity(paths, now, n) / total
  {
    if n > 0 {
      HandedOutAddsUp(paths, now, given, total, n - 1);
      DivAdd(Capacity(paths, now, n - 1), paths[n - 1].capacity, total);
    }
  }

  /** The shares of one chunk: each healthy path's part of the healthy paths' capacity. */
  ghost function Shares(paths: Paths, now: nat): F.Credits { ByName(paths, now, Entitlements(paths, now)) }

  lemma NamedOfHealthy(paths: Paths, now: nat, given: seq<real>)
    requires Distinct(paths) && |given| == |paths|
    ensures FirstHealthy(paths, now, |paths|) == ByName(paths, now, given).Keys
  {
    forall x | x in ByName(paths, now, given) ensures x in FirstHealthy(paths, now, |paths|) {
      var i := IndexOf(paths, x);
      assert paths[i].IsHealthy(now) && paths[i].name == x;
    }
    SumByName(paths, now, given);
  }

  lemma WholeIsOne(paths: Paths, now: nat)
    requires Sound(paths) && AnyHealthy(paths, now)
    ensures HandedOut(paths, now, Entitlements(paths, now), |paths|) == 1.0
  {
    var total := Capacity(paths, now, |paths|);
    CapacityPositive(paths, now, |paths|);
    HandedOutAddsUp(paths, now, Entitlements(paths, now), total, |paths|);
    assert total / total == 1.0;
  }

  /** They make up exactly one chunk. */
  lemma SharesMakeOne(paths: Paths, now: nat)
    requires Sound(paths) && AnyHealthy(paths, now)
    ensures F.Sum(Shares(paths, now), Shares(paths, now).Keys) == 1.0
  {
    NamedOfHealthy(paths, now, Entitlements(paths, now));
    SumByName(paths, now, Entitlements(paths, now));
    WholeIsOne(paths, now);
  }

  lemma EntitlementsFit(paths: Paths, now: nat)
    requires Sound(paths)
    ensures forall i :: 0 <= i < |paths| ==> Entitlements(paths, now)[i] >= 0.0
    ensures forall i :: 0 <= i < |paths| && !paths[i].IsHealthy(now) ==> Entitlements(paths, now)[i] == 0.0
  {
    forall i | 0 <= i < |paths| ensures Entitlements(paths, now)[i] >= 0.0 { assert paths[i].Valid(); }
  }

  lemma Cross(a: real, b: real, t: real)
    requires t > 0.0
    ensures (a / t) * b == (b / t) * a && (a / t) * t == a
  {
  }

  /** Shares follow capacity: two healthy paths gain in proportion to their capacities, and the others
      nothing. Since the gains make one chunk, that determines them. */
  lemma SharesFollowCapacity(paths: Paths, now: nat, i: nat, j: nat)
    requires Sound(paths) && i < |paths| && j < |paths|
    ensures var given := Entitlements(paths, now);
      && (paths[i].IsHealthy(now) && paths[j].IsHealthy(now)
          ==> given[i] * paths[j].capacity == given[j] * paths[i].capacity)
      && (!paths[i].IsHealthy(now) ==> given[i] == 0.0)
  {
    if paths[i].IsHealthy(now) && paths[j].IsHealthy(now) {
      CapacityPositive(paths, now, |paths|);
      Cross(paths[i].capacity, paths[j].capacity, Capacity(paths, now, |paths|));
    }
  }

  /** What every path has gained from `before` to `after`, apart from the unit that `first` has paid,
      follows the capacities of the healthy paths. */
  ghost predicate GainsByCapacity(paths: Paths, now: nat, before: seq<real>, after: seq<real>, first: Option<nat>) {
    && |before| == |after| == |paths|
    && (forall i :: 0 <= i < |paths| && !paths[i].IsHealthy(now) ==> Gain(before, after, first, i) == 0.0)
    && (forall i, j :: 0 <= i < |paths| && 0 <= j < |paths| && paths[i].IsHealthy(now) && paths[j].IsHealthy(now) ==>
          Gain(before, after, first, i) * paths[j].capacity == Gain(before, after, first, j) * paths[i].capacity)
  }

  function Gain(before: seq<real>, after: seq<real>, first: Option<nat>, i: nat): real
    requires i < |before| == |after|
  {
    after[i] - before[i] + if first == Some(i) then 1.0 else 0.0
  }

  lemma GainIs(before: seq<real>, given: seq<real>, added: seq<real>, first: nat, i: nat)
    requires Topped(before, given, added) && first < |given| && i < |given|
    ensures Gain(before, added, None, i) == given[i]
    ensures Gain(before, added[first := added[first] - 1.0], Some(first), i) == given[i]
  {
  }

  lemma SameGains(paths: Paths, now: nat, before: seq<real>, after: seq<real>, first: Option<nat>)
    requires Sound(paths) && |before| == |after| == |paths|
    requires forall i :: 0 <= i < |paths| ==> Gain(before, after, first, i) == Entitlements(paths, now)[i]
    ensures GainsByCapacity(paths, now, before, after, first)
  {
    forall i, j | 0 <= i < |paths| && 0 <= j < |paths| && paths[i].IsHealthy(now) && paths[j].IsHealthy(now)
      ensures Gain(before, after, first, i) * paths[j].capacity == Gain(before, after, first, j) * paths[i].capacity
    {
      SharesFollowCapacity(paths, now, i, j);
    }
  }

  lemma ToppedByCapacity(paths: Paths, now: nat, before: seq<real>, added: seq<real>)
    requires Sound(paths) && Topped(before, Entitlements(paths, now), added)
    ensures GainsByCapacity(paths, now, before, added, None)
  {
    forall i | 0 <= i < |paths| ensures Gain(before, added, None, i) == Entitlements(paths, now)[i] {
      GainIs(before, Entitlements(paths, now), added, i, i);
    }
    SameGains(paths, now, before, added, None);
  }

  /** What `assign` does to the credits. */
  lemma AssignFollowsCapacity(paths: Paths, now: nat, before: seq<real>, added: seq<real>, first: nat)
    requires Sound(paths) && Topped(before, Entitlements(paths, now), added) && first < |paths|
    ensures GainsByCapacity(paths, now, before, added[first := added[first] - 1.0], Some(first))
  {
    var after := added[first := added[first] - 1.0];
    forall i | 0 <= i < |paths| ensures Gain(before, after, Some(first), i) == Entitlements(paths, now)[i] {
      GainIs(before, Entitlements(paths, now), added, first, i);
    }
    SameGains(paths, now, before, after, Some(first));
  }

  /** Credits after amounts are added. */
  ghost predicate Topped(before: seq<real>, given: seq<real>, added: seq<real>) {
    && |before| == |added| == |given|
    && forall i :: 0 <= i < |given| ==> added[i] == before[i] + given[i]
  }

  /** The choice that `max_by` makes: the last of the healthy paths with the most credit. */
  ghost predicate LastRichest(paths: Paths, now: nat, credits: seq<real>, chosen: nat)
    requires |credits| == |paths|
  {
    && chosen < |paths| && paths[chosen].IsHealthy(now)
    && (forall i :: 0 <= i < |paths| && paths[i].IsHealthy(now) ==> credits[i] <= credits[chosen])
    && (forall i :: chosen < i < |paths| && paths[i].IsHealthy(now) ==> credits[i] < credits[chosen])
  }

  /** One chunk on credits held by index, in terms of the ledger. */
  lemma IsChunk(paths: Paths, now: nat, before: seq<real>, given: seq<real>, added: seq<real>, chosen: nat)
    requires Distinct(paths) && |given| == |paths| && Topped(before, given, added)
    requires forall i :: 0 <= i < |paths| ==> given[i] >= 0.0
    requires F.Sum(ByName(paths, now, given), ByName(paths, now, given).Keys) == 1.0
    requires LastRichest(paths, now, added, chosen)
    ensures F.Chunk(Ledger(paths, before), ByName(paths, now, given), paths[chosen].name)
  {
    IndexOfNamed(paths, chosen);
  }

  lemma IsCharged(paths: Paths, now: nat, before: seq<real>, given: seq<real>, added: seq<real>, chosen: nat)
    requires Distinct(paths) && |given| == |paths| && Topped(before, given, added) && chosen < |paths|
    requires forall i :: 0 <= i < |paths| && !paths[i].IsHealthy(now) ==> given[i] == 0.0
    ensures Ledger(paths, added[chosen := added[chosen] - 1.0])
         == F.Charged(Ledger(paths, before), ByName(paths, now, given), paths[chosen].name)
  {
    var paid := added[chosen := added[chosen] - 1.0];
    var d := F.Charged(Ledger(paths, before), ByName(paths, now, given), paths[chosen].name);
    forall x | x in Named(paths) ensures d[x] == paid[IndexOf(paths, x)] {
      PaidAt(paths, now, before, given, chosen, x);
    }
    LedgerIs(paths, paid, d);
  }

  lemma PaidAt(paths: Paths, now: nat, before: seq<real>, given: seq<real>, chosen: nat, x: F.Name)
    requires Distinct(paths) && |before| == |given| == |paths| && chosen < |paths| && x in Named(paths)
    requires forall i :: 0 <= i < |paths| && !paths[i].IsHealthy(now) ==> given[i] == 0.0
    ensures var i := IndexOf(paths, x);
      F.Charged(Ledger(paths, before), ByName(paths, now, given), paths[chosen].name)[x]
      == before[i] + given[i] - if i == chosen then 1.0 else 0.0
  {
    IndexOfNamed(paths, chosen);
  }

  lemma LedgerIs(paths: Paths, credits: seq<real>, c: F.Credits)
    requires |credits| == |paths| && c.Keys == Named(paths)
    requires forall x :: x in Named(paths) ==> c[x] == credits[IndexOf(paths, x)]
    ensures Ledger(paths, credits) == c
  {
  }

  /** Names and ledgers do not depend on the rest of a path's record. */
  lemma LedgerByNames(paths: Paths, others: Paths, credits: seq<real>)
    requires |paths| == |others| == |credits| && forall i :: 0 <= i < |paths| ==> paths[i].name == others[i].name
    requires Distinct(paths)
    ensures Distinct(others) && Ledger(paths, credits) == Ledger(others, credits)
  {
    assert Named(paths) == Named(others) by {
      forall x | x in Named(paths) ensures x in Named(others) { assert others[IndexOf(paths, x)].name == x; }
      forall x | x in Named(others) ensures x in Named(paths) { assert paths[IndexOf(others, x)].name == x; }
    }
    forall x | x in Named(paths) ensures IndexOf(paths, x) == IndexOf(others, x) {
      IndexOfNamed(others, IndexOf(paths, x));
    }
  }

  lemma LedgerAdd(paths: Paths, credits: seq<real>, p: Path)
    requires |credits| == |paths| && Distinct(paths + [p])
    ensures p.name !in Ledger(paths, credits)
    ensures Ledger(paths + [p], credits + [0.0]) == Ledger(paths, credits)[p.name := 0.0]
  {
    var more := paths + [p];
    assert forall i :: 0 <= i < |paths| ==> more[i] == paths[i];
    assert more[|paths|] == p;
    assert p.name !in Named(paths);
    forall x | x in Named(paths) ensures x in Named(more) && IndexOf(more, x) == IndexOf(paths, x) {
      var i := IndexOf(paths, x);
      assert more[i].name == x;
      IndexOfNamed(more, i);
    }
    IndexOfNamed(more, |paths|);
    assert Named(more) == Named(paths) + {p.name};
  }

  function Without<T>(s: seq<T>, i: nat): seq<T>
    requires i < |s|
  {
    s[..i] + s[i + 1..]
  }

  lemma LedgerRemove(paths: Paths, credits: seq<real>, i: nat)
    requires |credits| == |paths| && Distinct(paths) && i < |paths|
    ensures Distinct(Without(paths, i))
    ensures Ledger(Without(paths, i), Without(credits, i)) == Ledger(paths, credits) - {paths[i].name}
  {
    var fewer := Without(paths, i);
    WithoutAt(paths, i);
    WithoutAt(credits, i);
    forall x | x in Named(fewer) ensures x in Named(paths) && x != paths[i].name {
      assert paths[Shift(i, IndexOf(fewer, x))].name == x;
    }
    forall x | x in Named(paths) && x != paths[i].name ensures x in Named(fewer) {
      var k := IndexOf(paths, x);
      assert fewer[if k < i then k else k - 1].name == x;
    }
    assert Named(fewer) == Named(paths) - {paths[i].name};
    forall x | x in Named(fewer) ensures Without(credits, i)[IndexOf(fewer, x)] == credits[IndexOf(paths, x)] {
      IndexOfNamed(paths, Shift(i, IndexOf(fewer, x)));
    }
    LedgerIs(fewer, Without(credits, i), Ledger(paths, credits) - {paths[i].name});
  }

  /** Where an index of `Without(s, i)` was in `s`. */
  function Shift(i: nat, j: nat): nat { if j < i then j else j + 1 }

  lemma WithoutAt<T>(s: seq<T>, i: nat)
    requires i < |s|
    ensures |Without(s, i)| == |s| - 1
    ensures forall j: nat :: j < |s| - 1 ==> Without(s, i)[j] == s[Shift(i, j)]
  {
  }

  // -------------------------------------------------------------- scheduler

  datatype Assignment = Assignment(primary: F.Name, hedge: Option<F.Name>)

  /** Whether a round trip beats another; one not measured yet beats none. */
  predicate Faster(a: Option<real>, b: Option<real>) { a.Some? && (b.None? || a.value < b.value) }

  /** The choice that `min_by` makes: the first of the healthy paths but one with the best round trip. */
  ghost predicate FirstFastest(paths: Paths, now: nat, chosen: nat, hedge: nat) {
    && hedge < |paths| && hedge != chosen && paths[hedge].IsHealthy(now)
    && (forall i :: 0 <= i < |paths| && i != chosen && paths[i].IsHealthy(now)
          ==> !Faster(paths[i].rtt, paths[hedge].rtt))
    && (forall i :: 0 <= i < hedge && i != chosen && paths[i].IsHealthy(now)
          ==> Faster(paths[hedge].rtt, paths[i].rtt))
  }

  /** Of the other healthy paths the hedge has the least round trip that was measured, the first of them if
      several have it; it has none only if none of them has. */
  lemma FastestMeans(paths: Paths, now: nat, chosen: nat, hedge: nat, i: nat)
    requires FirstFastest(paths, now, chosen, hedge)
    requires i < |paths| && i != chosen && paths[i].IsHealthy(now)
    ensures paths[i].rtt.Some? ==> paths[hedge].rtt.Some? && paths[hedge].rtt.value <= paths[i].rtt.value
    ensures i < hedge ==> paths[hedge].rtt.Some?
    ensures i < hedge && paths[i].rtt.Some? ==> paths[hedge].rtt.value < paths[i].rtt.value
  {
  }

  ghost predicate NoOther(paths: Paths, now: nat, chosen: nat) {
    forall i :: 0 <= i < |paths| && i != chosen ==> !paths[i].IsHealthy(now)
  }

  function SentOn(p: Path): Path { p.(sent := p.sent + 1) }

  class Scheduler {
    var paths: Paths
    var credits: seq<real>
    var hedging: bool
    /** Everything that has happened to the set of paths and to the credits. */
    ghost var history: seq<F.Turn>

    ghost predicate Valid()
      reads this
    {
      && Sound(paths) && |credits| == |paths|
      && F.Run(F.NEW, history) && Ledger(paths, credits) == F.After(F.NEW, history).credits
    }

    constructor ()
      ensures Valid() && history == [] && paths == [] && !hedging
    {
      paths, credits, hedging, history := [], [], false, [];
      assert Named([]) == {};
    }

    method Find(name: F.Name) returns (found: Option<nat>)
      requires Valid()
      ensures found == if name in Named(paths) then Some(IndexOf(paths, name)) else None
    {
      for i := 0 to |paths|
        invariant forall j :: 0 <= j < i ==> paths[j].name != name
      {
        if paths[i].name == name {
          IndexOfNamed(paths, i);
          return Some(i);
        }
      }
      return None;
    }

    method AddPath(name: F.Name, now: nat)
      requires Valid()
      modifies this
      ensures Valid() && hedging == old(hedging)
      ensures name in Named(old(paths)) ==> paths == old(paths) && credits == old(credits) && history == old(history)
      ensures name !in Named(old(paths)) ==>
        && paths == old(paths) + [NewPath(name, now)] && credits == old(credits) + [0.0]
        && history == old(history) + [F.Added(name)]
    {
      var found := Find(name);
      if found.Some? { return; }
      NewNameIsDistinct(paths, NewPath(name, now));
      LedgerAdd(paths, credits, NewPath(name, now));
      F.RunSnoc(F.NEW, history, F.Added(name));
      paths, credits := paths + [NewPath(name, now)], credits + [0.0];
      history := history + [F.Added(name)];
    }

    method RemovePath(name: F.Name)
      requires Valid()
      modifies this
      ensures Valid() && hedging == old(hedging)
      ensures name !in Named(old(paths)) ==> paths == old(paths) && credits == old(credits) && history == old(history)
      ensures name in Named(old(paths)) ==>
        var i := IndexOf(old(paths), name);
        && paths == Without(old(paths), i) && credits == Without(old(credits), i)
        && history == old(history) + [F.Removed(name)]
    {
      var found := Find(name);
      if found.None? { return; }
      LedgerRemove(paths, credits, found.value);
      WithoutAt(paths, found.value);
      F.RunSnoc(F.NEW, history, F.Removed(name));
      paths, credits := Without(paths, found.value), Without(credits, found.value);
      history := history + [F.Removed(name)];
    }

    /** What is recorded about a path does not touch any credit. */
    method Record(name: F.Name, p: Path)
      requires Valid() && p.Valid() && p.name == name
      modifies this`paths
      ensures Valid()
      ensures paths == if name in Named(old(paths)) then old(paths)[IndexOf(old(paths), name) := p] else old(paths)
    {
      var found := Find(name);
      if found.None? { return; }
      LedgerByNames(paths, paths[found.value := p], credits);
      paths := paths[found.value := p];
    }

    /** `path_mut` and `record_delivered`. */
    method RecordDelivered(name: F.Name, bytes: nat, rtt: real, now: nat)
      requires Valid() && rtt >= 0.0
      modifies this`paths
      ensures Valid()
      ensures paths == if name !in Named(old(paths)) then old(paths)
                       else var i := IndexOf(old(paths), name);
                            old(paths)[i := old(paths)[i].Delivered(bytes, rtt, now)]
    {
      var found := Find(name);
      if found.Some? { Record(name, paths[found.value].Delivered(bytes, rtt, now)); }
    }

    /** `path_mut` and `record_lost`. */
    method RecordLost(name: F.Name)
      requires Valid()
      modifies this`paths
      ensures Valid()
      ensures paths == if name !in Named(old(paths)) then old(paths)
                       else var i := IndexOf(old(paths), name); old(paths)[i := old(paths)[i].Lost()]
    {
      var found := Find(name);
      if found.Some? { Record(name, paths[found.value].Lost()); }
    }

    /** Hand every healthy path its part of one chunk. */
    method TopUp(now: nat) returns (added: seq<real>)
      requires Valid()
      ensures Topped(credits, Entitlements(paths, now), added)
      ensures AnyHealthy(paths, now) ==> Capacity(paths, now, |paths|) > 0.0
      ensures forall i :: 0 <= i < |paths| && paths[i].IsHealthy(now) ==>
        && Capacity(paths, now, |paths|) > 0.0
        && added[i] == credits[i] + paths[i].capacity / Capacity(paths, now, |paths|)
      ensures forall i :: 0 <= i < |paths| && !paths[i].IsHealthy(now) ==> added[i] == credits[i]
    {
      var total := 0.0;
      for i := 0 to |paths|
        invariant total == Capacity(paths, now, i)
      {
        if paths[i].IsHealthy(now) { total := total + paths[i].capacity; }
      }
      EntitlementsFit(paths, now);
      added := credits;
      for i := 0 to |paths|
        invariant |added| == |credits|
        invariant forall j :: 0 <= j < i ==> added[j] == credits[j] + Entitlements(paths, now)[j]
        invariant forall j :: i <= j < |paths| ==> added[j] == credits[j]
      {
        if paths[i].IsHealthy(now) {
          CapacityPositive(paths, now, |paths|);
          added := added[i := added[i] + paths[i].capacity / total];
        }
      }
      CapacityPositive(paths, now, |paths|);
    }

    method Richest(now: nat, held: seq<real>) returns (chosen: Option<nat>)
      requires |held| == |paths|
      ensures chosen.None? <==> !AnyHealthy(paths, now)
      ensures chosen.Some? ==> LastRichest(paths, now, held, chosen.value)
    {
      chosen := None;
      for i := 0 to |paths|
        invariant chosen.None? ==> forall j :: 0 <= j < i ==> !paths[j].IsHealthy(now)
        invariant chosen.Some? ==> chosen.value < i && paths[chosen.value].IsHealthy(now)
        invariant chosen.Some? ==> forall j :: 0 <= j < i && paths[j].IsHealthy(now) ==> held[j] <= held[chosen.value]
        invariant chosen.Some? ==>
          forall j :: chosen.value < j < i && paths[j].IsHealthy(now) ==> held[j] < held[chosen.value]
      {
        if paths[i].IsHealthy(now) && (chosen.None? || held[i] >= held[chosen.value]) { chosen := Some(i); }
      }
    }

    method Fastest(now: nat, chosen: nat) returns (hedge: Option<nat>)
      ensures hedge.None? <==> NoOther(paths, now, chosen)
      ensures hedge.Some? ==> FirstFastest(paths, now, chosen, hedge.value)
    {
      hedge := None;
      for i := 0 to |paths|
        invariant hedge.None? ==> forall j :: 0 <= j < i && j != chosen ==> !paths[j].IsHealthy(now)
        invariant hedge.Some? ==> hedge.value < i && hedge.value != chosen && paths[hedge.value].IsHealthy(now)
        invariant hedge.Some? ==> forall j :: 0 <= j < i && j != chosen && paths[j].IsHealthy(now)
                                    ==> !Faster(paths[j].rtt, paths[hedge.value].rtt)
        invariant hedge.Some? ==> forall j :: 0 <= j < hedge.value && j != chosen && paths[j].IsHealthy(now)
                                    ==> Faster(paths[hedge.value].rtt, paths[j].rtt)
      {
        if i != chosen && paths[i].IsHealthy(now) && (hedge.None? || Faster(paths[i].rtt, paths[hedge.value].rtt)) {
          hedge := Some(i);
        }
      }
    }

    /** The path that pays for the chunk, and a second one if it is wanted. */
    method Pick(hedged: bool, now: nat) returns (held: seq<real>, best: Option<nat>, hedge: Option<nat>)
      requires Valid()
      ensures Topped(credits, Entitlements(paths, now), held)
      ensures best.None? <==> !AnyHealthy(paths, now)
      ensures best.Some? ==> LastRichest(paths, now, held, best.value)
      ensures best.Some? ==> HedgedBy(paths, now, hedged, best.value, hedge)
    {
      hedge := None;
      held := TopUp(now);
      best := Richest(now, held);
      if best.Some? && hedged { hedge := Fastest(now, best.value); }
    }

    /** Charge the chunk to the chosen path and count it as sent there and on the hedge. */
    method Spend(now: nat, added: seq<real>, first: nat, hedge: Option<nat>)
      requires Valid()
      requires Topped(credits, Entitlements(paths, now), added) && LastRichest(paths, now, added, first)
      requires hedge.Some? ==> hedge.value < |paths| && hedge.value != first
      modifies this`paths, this`credits, this`history
      ensures Valid()
      ensures credits == added[first := added[first] - 1.0]
      ensures paths == Marked(old(paths), first, hedge)
      ensures history == old(history) + [F.Sent(Shares(old(paths), now), old(paths)[first].name)]
    {
      ghost var more := history + [F.Sent(Shares(paths, now), paths[first].name)];
      var paid := added[first := added[first] - 1.0];
      HistoryGrows(paths, credits, now, added, first, history);
      MarkedIsSound(paths, first, hedge);
      LedgerByNames(paths, Marked(paths, first, hedge), paid);
      paths, credits, history := Marked(paths, first, hedge), paid, more;
    }

    /** Pick a path for the next chunk, and perhaps a second one: the last of the healthy paths that hold the
        most credit once the shares are added, which then pays one unit. `first` and `second` are their
        indices, and `added` the credits before the payment. */
    method Assign(latencyCritical: bool, now: nat)
      returns (r: Option<Assignment>, ghost first: nat, ghost second: Option<nat>, ghost added: seq<real>)
      requires Valid()
      modifies this`paths, this`credits, this`history
      ensures Valid()
      ensures r.None? <==> !AnyHealthy(old(paths), now)
      ensures r.None? ==> paths == old(paths) && credits == old(credits) && history == old(history)
      ensures r.Some? ==>
        && Topped(old(credits), Entitlements(old(paths), now), added) && LastRichest(old(paths), now, added, first)
        && credits == added[first := added[first] - 1.0]
      ensures r.Some? ==> HedgedBy(old(paths), now, latencyCritical && hedging, first, second)
      ensures r.Some? ==> r.value == NamesOf(old(paths), first, second)
      ensures r.Some? ==> paths == Marked(old(paths), first, second)
      ensures r.Some? ==> history == old(history) + [F.Sent(Shares(old(paths), now), r.value.primary)]
    {
      var held, best, hedge := Pick(latencyCritical && hedging, now);
      added := held;
      if best.None? { return None, 0, None, held; }
      r, first, second := Some(NamesOf(paths, best.value, hedge)), best.value, hedge;
      Spend(now, held, best.value, hedge);
    }
  }

  function NamesOf(paths: Paths, first: nat, hedge: Option<nat>): Assignment
    requires first < |paths| && (hedge.Some? ==> hedge.value < |paths|)
  {
    Assignment(paths[first].name, if hedge.Some? then Some(paths[hedge.value].name) else None)
  }

  function Marked(paths: Paths, first: nat, hedge: Option<nat>): (marked: Paths)
    requires first < |paths| && (hedge.Some? ==> hedge.value < |paths| && hedge.value != first)
    ensures |marked| == |paths|
    ensures forall i :: 0 <= i < |paths| ==>
      marked[i] == if Some(i) == hedge || i == first then paths[i].(sent := paths[i].sent + 1) else paths[i]
  {
    var marked := paths[first := SentOn(paths[first])];
    if hedge.Some? then marked[hedge.value := SentOn(marked[hedge.value])] else marked
  }

  ghost predicate HedgedBy(paths: Paths, now: nat, wanted: bool, first: nat, hedge: Option<nat>) {
    match hedge
    case None => wanted ==> NoOther(paths, now, first)
    case Some(h) => wanted && FirstFastest(paths, now, first, h)
  }

  lemma NewNameIsDistinct(paths: Paths, p: Path)
    requires Distinct(paths) && p.name !in Named(paths)
    ensures Distinct(paths + [p])
  {
    forall i | 0 <= i < |paths| ensures paths[i].name != p.name { assert paths[i].name in Named(paths); }
  }

  /** One chunk on the credits held by index is one chunk in the books. */
  lemma ChunkBooked(paths: Paths, credits: seq<real>, now: nat, added: seq<real>, first: nat, b: F.Books)
    requires Sound(paths) && |credits| == |paths| && b.credits == Ledger(paths, credits)
    requires Topped(credits, Entitlements(paths, now), added) && LastRichest(paths, now, added, first)
    ensures var chunk := F.Sent(Shares(paths, now), paths[first].name);
      F.Possible(b, chunk) && F.Book(b, chunk).credits == Ledger(paths, added[first := added[first] - 1.0])
  {
    SharesMakeOne(paths, now);
    EntitlementsFit(paths, now);
    IsChunk(paths, now, credits, Entitlements(paths, now), added, first);
    IsCharged(paths, now, credits, Entitlements(paths, now), added, first);
  }

  lemma HistoryGrows(paths: Paths, credits: seq<real>, now: nat, added: seq<real>, first: nat, history: seq<F.Turn>)
    requires Sound(paths) && |credits| == |paths|
    requires F.Run(F.NEW, history) && Ledger(paths, credits) == F.After(F.NEW, history).credits
    requires Topped(credits, Entitlements(paths, now), added) && LastRichest(paths, now, added, first)
    ensures var more := history + [F.Sent(Shares(paths, now), paths[first].name)];
      F.Run(F.NEW, more) && F.After(F.NEW, more).credits == Ledger(paths, added[first := added[first] - 1.0])
  {
    ChunkBooked(paths, credits, now, added, first, F.After(F.NEW, history));
    F.RunSnoc(F.NEW, history, F.Sent(Shares(paths, now), paths[first].name));
  }

  lemma MarkedIsSound(paths: Paths, first: nat, hedge: Option<nat>)
    requires Sound(paths) && first < |paths| && (hedge.Some? ==> hedge.value < |paths| && hedge.value != first)
    ensures Sound(Marked(paths, first, hedge))
  {
  }

  /** What this means for a scheduler, after any calls in any order: no path's credit is further from
      zero than half a unit for each other path ever added. */
  lemma CreditsStayNearZero(s: Scheduler, i: nat)
    requires s.Valid() && i < |s.paths|
    ensures var n := F.After(F.NEW, s.history).ever as real; -(n - 1.0) <= 2.0 * s.credits[i] <= n - 1.0
  {
    F.NewIsBalanced();
    F.RunBalanced(F.NEW, s.history);
    var b := F.After(F.NEW, s.history);
    IndexOfNamed(s.paths, i);
    F.BalanceOfOne(b.credits, b.ever, s.paths[i].name);
  }

  // ----------------------------------------------------- windows of fixed capacity

  /** The same paths, with the same capacities and the same of them healthy; anything else may differ. */
  ghost predicate Alike(a: Paths, at: nat, b: Paths, bt: nat) {
    && |a| == |b|
    && forall i :: 0 <= i < |a| ==>
         a[i].name == b[i].name && a[i].capacity == b[i].capacity && (a[i].IsHealthy(at) <==> b[i].IsHealthy(bt))
  }

  lemma {:induction false} AlikeCapacity(a: Paths, at: nat, b: Paths, bt: nat, n: nat)
    requires Alike(a, at, b, bt) && n <= |a|
    ensures Capacity(a, at, n) == Capacity(b, bt, n)
  {
    if n > 0 { AlikeCapacity(a, at, b, bt, n - 1); }
  }

  lemma AlikeNames(a: Paths, at: nat, b: Paths, bt: nat)
    requires Alike(a, at, b, bt) && Distinct(a)
    ensures Distinct(b) && Named(a) == Named(b)
    ensures forall x :: x in Named(a) ==> IndexOf(a, x) == IndexOf(b, x)
  {
    forall x | x in Named(a) ensures x in Named(b) && IndexOf(a, x) == IndexOf(b, x) {
      var i := IndexOf(a, x);
      assert b[i].name == x;
      IndexOfNamed(b, i);
    }
    forall x | x in Named(b) ensures x in Named(a) { assert a[IndexOf(b, x)].name == x; }
  }

  lemma AlikeShares(a: Paths, at: nat, b: Paths, bt: nat)
    requires Alike(a, at, b, bt) && Distinct(a)
    ensures Shares(a, at) == Shares(b, bt)
  {
    AlikeCapacity(a, at, b, bt, |a|);
    AlikeNames(a, at, b, bt);
    assert Entitlements(a, at) == Entitlements(b, bt);
  }

  /** From `from` on the history is a series of chunks, one for each of `calls`: the paths as they were and
      the time of the call. */
  ghost predicate Window(history: seq<F.Turn>, from: nat, calls: seq<(Paths, nat)>) {
    && from + |calls| == |history|
    && forall k :: 0 <= k < |calls| ==>
         history[from + k].Sent? && history[from + k].shares == Shares(calls[k].0, calls[k].1)
  }

  lemma ShareIsPart(paths: Paths, now: nat, i: nat)
    requires Distinct(paths) && i < |paths| && paths[i].IsHealthy(now)
    ensures paths[i].name in Shares(paths, now)
    ensures Shares(paths, now)[paths[i].name] == Part(paths[i], now, Capacity(paths, now, |paths|))
  {
    ByNameAt(paths, now, Entitlements(paths, now), i);
  }

  /** How many of the chunks after `from` went to a path. */
  function Count(history: seq<F.Turn>, from: nat, x: F.Name): nat
    requires from <= |history|
    decreases |history| - from
  {
    if from == |history| then 0
    else (if history[from].Sent? && history[from].chosen == x then 1 else 0) + Count(history, from + 1, x)
  }

  lemma {:induction false} CountIsCarried(history: seq<F.Turn>, from: nat, x: F.Name)
    requires from <= |history|
    ensures F.Carried(history[from..], x) == Count(history, from, x) as real
    decreases |history| - from
  {
    if from < |history| {
      CountIsCarried(history, from + 1, x);
      assert history[from..][1..] == history[from + 1..];
    }
  }

  lemma WindowEntitles(history: seq<F.Turn>, from: nat, calls: seq<(Paths, nat)>, paths: Paths, now: nat, x: F.Name)
    requires Distinct(paths) && Window(history, from, calls)
    requires forall k :: 0 <= k < |calls| ==> Alike(paths, now, calls[k].0, calls[k].1)
    ensures F.Entitled(history[from..], x) == F.Times(|calls|, F.Share(Shares(paths, now), x))
    ensures F.Stays(history[from..], x)
  {
    forall k | 0 <= k < |calls|
      ensures history[from..][k].Sent? && history[from..][k].shares == Shares(paths, now)
    {
      AlikeShares(paths, now, calls[k].0, calls[k].1);
    }
    F.EntitledSteadily(history[from..], Shares(paths, now), x);
  }

  /** In shares: the count is within the bound of the shares of the chunks. */
  lemma WindowGap(history: seq<F.Turn>, from: nat, calls: seq<(Paths, nat)>, paths: Paths, now: nat, x: F.Name)
    requires F.Run(F.NEW, history) && Distinct(paths) && x in Shares(paths, now)
    requires calls != [] && Window(history, from, calls)
    requires forall k :: 0 <= k < |calls| ==> Alike(paths, now, calls[k].0, calls[k].1)
    ensures var bound := F.After(F.NEW, history).ever as real - 1.0;
      -bound <= Count(history, from, x) as real - F.Times(|calls|, Shares(paths, now)[x]) <= bound
  {
    AlikeShares(paths, now, calls[0].0, calls[0].1);
    F.RunSplit(F.NEW, history, from);
    assert history[from..][0] == history[from + 0];
    assert x in F.After(F.NEW, history[..from]).credits;
    WindowEntitles(history, from, calls, paths, now, x);
    F.FairShare(history, from, x);
    CountIsCarried(history, from, x);
  }

  /** Over any window of `assign` calls in which capacities and health stay as they are, each healthy path
      gets its part of the healthy capacity of the chunks, up to one chunk for every other path that was
      ever added. */
  lemma WindowFollowsCapacity(history: seq<F.Turn>, from: nat, calls: seq<(Paths, nat)>,
                              paths: Paths, now: nat, i: nat)
    requires F.Run(F.NEW, history) && Sound(paths) && i < |paths| && paths[i].IsHealthy(now)
    requires calls != [] && Window(history, from, calls)
    requires forall k :: 0 <= k < |calls| ==> Alike(paths, now, calls[k].0, calls[k].1)
    ensures Capacity(paths, now, |paths|) > 0.0
    ensures var bound := F.After(F.NEW, history).ever as real - 1.0;
      var part := F.Times(|calls|, paths[i].capacity / Capacity(paths, now, |paths|));
      -bound <= Count(history, from, paths[i].name) as real - part <= bound
  {
    CapacityPositive(paths, now, |paths|);
    ShareIsPart(paths, now, i);
    WindowGap(history, from, calls, paths, now, paths[i].name);
  }
}
