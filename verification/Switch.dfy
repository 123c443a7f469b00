/** The switch policy of `switch.rs`: a cooldown that doubles with every switch made soon after the
    one before. Time is a non-decreasing count of nanoseconds, handed in by the caller. */
module Switch {
  import opened Prelude

  const SECOND: nat := 1_000_000_000
  const DURATION_MAX: nat := U64_MAX * SECOND + (SECOND - 1)

  datatype Timing = Timing(base: nat, cap: nat, window: nat)

  const DEFAULT: Timing := Timing(5 * SECOND, 120 * SECOND, 60 * SECOND)

  function Pow2(n: nat): (r: nat)
    ensures r > 0
  {
    if n == 0 then 1 else 2 * Pow2(n - 1)
  }

  function SaturatingMul(d: nat, n: nat): nat { Min(d * n, DURATION_MAX) }

  function CooldownAt(t: Timing, consecutive: nat): nat {
    Min(SaturatingMul(t.base, Pow2(Min(consecutive, 16))), t.cap)
  }

  datatype Reason = LinkSilent | TransportError | BetterPathAvailable {
    predicate IsFailure() { !BetterPathAvailable? }
  }

  /** The state of the policy: when the last switch was, and how many have followed closely. */
  datatype Backoff = Backoff(last: Option<nat>, consecutive: nat)

  const CALM: Backoff := Backoff(None, 0)

  predicate Permits(t: Timing, b: Backoff, reason: Reason, now: nat) {
    reason.IsFailure() || b.last.None? || now >= b.last.value + CooldownAt(t, b.consecutive)
  }

  function Recorded(t: Timing, b: Backoff, now: nat): Backoff {
    Backoff(Some(now), if b.last.Some? && now < b.last.value + t.window then b.consecutive + 1 else 0)
  }

  class SwitchPolicy {
    var lastSwitch: Option<nat>
    var consecutive: nat
    const timing: Timing

    constructor (timing: Timing)
      ensures Model() == CALM && this.timing == timing
    {
      lastSwitch, consecutive, this.timing := None, 0, timing;
    }

    ghost function Model(): Backoff
      reads this
    {
      Backoff(lastSwitch, consecutive)
    }

    function Cooldown(): nat
      reads this
    {
      CooldownAt(timing, consecutive)
    }

    /** `elapsed` is measured against the clock the switch was recorded by, so it is never negative. */
    method Allows(reason: Reason, now: nat) returns (r: bool)
      requires lastSwitch.Some? ==> lastSwitch.value <= now
      ensures r <==> reason == LinkSilent || reason == TransportError || lastSwitch.None?
                     || now - lastSwitch.value >= CooldownAt(timing, consecutive)
      ensures r <==> Permits(timing, Model(), reason, now)
    {
      if reason.IsFailure() { return true; }
      match lastSwitch
      case None => return true;
      case Some(at) => return now - at >= Cooldown();
    }

    method Record(now: nat)
      requires lastSwitch.Some? ==> lastSwitch.value <= now
      modifies this
      ensures lastSwitch == Some(now)
      ensures consecutive ==
        if old(lastSwitch).Some? && now - old(lastSwitch).value < timing.window then old(consecutive) + 1 else 0
      ensures Model() == Recorded(timing, old(Model()), now)
    {
      var flapping := match lastSwitch case None => false case Some(at) => now - at < timing.window;
      consecutive := if flapping then consecutive + 1 else 0;
      lastSwitch := Some(now);
    }
  }

  // ---------------------------------------------------------------- cooldown

  lemma {:induction false} Pow2Monotone(m: nat, n: nat)
    requires m <= n
    ensures Pow2(m) <= Pow2(n)
  {
    if m < n { Pow2Monotone(m, n - 1); }
  }

  lemma MulMonotone(d: nat, a: nat, b: nat)
    requires a <= b
    ensures d * a <= d * b
  {
  }

  lemma TwiceAsMuch(d: nat, p: nat)
    ensures d * (2 * p) == 2 * (d * p)
  {
  }

  lemma DoubleCapped(p: nat, max: nat, cap: nat)
    requires cap <= max
    ensures Min(Min(2 * p, max), cap) == Min(2 * Min(Min(p, max), cap), cap)
  {
  }

  /** The cooldown starts at the base and doubles with every level up to the cap, but no further than at
      level 16. */
  lemma CooldownDoubles(t: Timing, n: nat)
    requires t.base <= t.cap <= DURATION_MAX
    ensures CooldownAt(t, 0) == t.base
    ensures n < 16 ==> CooldownAt(t, n + 1) == Min(2 * CooldownAt(t, n), t.cap)
    ensures n >= 16 ==> CooldownAt(t, n) == CooldownAt(t, 16)
  {
    if n < 16 {
      TwiceAsMuch(t.base, Pow2(n));
      DoubleCapped(t.base * Pow2(n), DURATION_MAX, t.cap);
    }
  }

  /** The cooldown never shrinks as switches repeat, and stays under the cap. */
  lemma CooldownMonotone(t: Timing, m: nat, n: nat)
    requires m <= n
    ensures CooldownAt(t, m) <= CooldownAt(t, n) <= t.cap
  {
    var i, j := Min(m, 16), Min(n, 16);
    Pow2Monotone(i, j);
    MulMonotone(t.base, Pow2(i), Pow2(j));
  }

  // -------------------------------------------------------------------- runs

  /** Switches in the order they were made, and why. */
  datatype Switched = Switched(reason: Reason, at: nat)

  /** Each switch was let through by the policy, at a time no earlier than the one before. */
  ghost predicate Permitted(t: Timing, b: Backoff, run: seq<Switched>)
    decreases |run|
  {
    run == [] ||
    (&& (b.last.Some? ==> b.last.value <= run[0].at)
     && Permits(t, b, run[0].reason, run[0].at)
     && Permitted(t, Recorded(t, b, run[0].at), run[1..]))
  }

  ghost function After(t: Timing, b: Backoff, run: seq<Switched>): Backoff
    decreases |run|
  {
    if run == [] then b else After(t, Recorded(t, b, run[0].at), run[1..])
  }

  ghost predicate Opportunistic(run: seq<Switched>) { forall i :: 0 <= i < |run| ==> !run[i].reason.IsFailure() }

  /** Opportunistic switches alone climb no further than the first level whose cooldown outlasts the
      flap window: waiting it out is what resets the backoff. */
  lemma {:induction false} LevelBound(t: Timing, b: Backoff, run: seq<Switched>, level: nat)
    requires CooldownAt(t, level) >= t.window && b.consecutive <= level
    requires Permitted(t, b, run) && Opportunistic(run)
    ensures After(t, b, run).consecutive <= level
    decreases |run|
  {
    if run != [] {
      assert !run[0].reason.IsFailure();
      LevelBound(t, Recorded(t, b, run[0].at), run[1..], level);
    }
  }

  lemma DefaultCooldowns()
    ensures CooldownAt(DEFAULT, 0) == 5 * SECOND && CooldownAt(DEFAULT, 1) == 10 * SECOND
    ensures CooldownAt(DEFAULT, 2) == 20 * SECOND && CooldownAt(DEFAULT, 3) == 40 * SECOND
    ensures CooldownAt(DEFAULT, 4) == 80 * SECOND && CooldownAt(DEFAULT, 5) == 120 * SECOND
  {
    assert Pow2(1) == 2 && Pow2(2) == 4;
    assert Pow2(3) == 8 && Pow2(4) == 16 && Pow2(5) == 32;
  }

  /** With the default constants the backoff stops at level 4: the 120 s cap is never in force. */
  lemma CapNeverReached(run: seq<Switched>)
    requires Permitted(DEFAULT, CALM, run) && Opportunistic(run)
    ensures var b := After(DEFAULT, CALM, run);
      b.consecutive <= 4 && CooldownAt(DEFAULT, b.consecutive) <= 80 * SECOND
  {
    DefaultCooldowns();
    LevelBound(DEFAULT, CALM, run, 4);
    CooldownMonotone(DEFAULT, After(DEFAULT, CALM, run).consecutive, 4);
  }

  /** What each level is worth, in quarter-seconds owed to the long-run rate. */
  function Potential(level: nat): int {
    if level == 0 then 0 else if level == 1 then -75 else if level == 2 then -130
    else if level == 3 then -145 else -80
  }

  lemma RateStep(b: Backoff, at: nat)
    requires b.last.Some? && b.last.value <= at && b.consecutive <= 4
    requires Permits(DEFAULT, b, BetterPathAvailable, at)
    ensures var c := Recorded(DEFAULT, b, at).consecutive;
      c <= 4 && 4 * (at - b.last.value) + Potential(b.consecutive) * SECOND >= (95 + Potential(c)) * SECOND
  {
    DefaultCooldowns();
  }

  lemma {:induction false} RateFrom(b: Backoff, run: seq<Switched>)
    requires b.last.Some? && b.consecutive <= 4
    requires Permitted(DEFAULT, b, run) && Opportunistic(run)
    ensures var e := After(DEFAULT, b, run);
      && e.last.Some? && e.consecutive <= 4
      && 4 * (e.last.value - b.last.value) + Potential(b.consecutive) * SECOND
         >= (95 * |run| + Potential(e.consecutive)) * SECOND
    decreases |run|
  {
    if run != [] {
      assert !run[0].reason.IsFailure();
      RateStep(b, run[0].at);
      RateFrom(Recorded(DEFAULT, b, run[0].at), run[1..]);
    }
  }

  lemma {:induction false} LastSwitchTime(t: Timing, b: Backoff, run: seq<Switched>)
    requires run != []
    ensures After(t, b, run).last == Some(run[|run| - 1].at)
    decreases |run|
  {
    if |run| > 1 { LastSwitchTime(t, Recorded(t, b, run[0].at), run[1..]); }
  }

  /** Amortised rate: `n + 1` opportunistic switches span at least `(95 n - 145) / 4` seconds, so a
      flapping network gets four switches every 95 s and at most a small constant more. */
  lemma RateBound(run: seq<Switched>)
    requires run != [] && Permitted(DEFAULT, CALM, run) && Opportunistic(run)
    ensures 4 * (run[|run| - 1].at - run[0].at) >= (95 * (|run| - 1) - 145) * SECOND
  {
    RateFrom(Recorded(DEFAULT, CALM, run[0].at), run[1..]);
    LastSwitchTime(DEFAULT, CALM, run);
  }

  // ---------------------------------------------------------------- tightness

  const CYCLE: seq<nat> := [5, 10, 20, 60]

  /** Opportunistic switches made as soon as 5, 10, 20 and 60 seconds after the previous one, over
      and over; the previous one was made at `at`. */
  function Hasty(at: nat, phase: nat, n: nat): (run: seq<Switched>)
    requires phase < 4
    ensures |run| == n
    decreases n
  {
    if n == 0 then []
    else
      var next := at + CYCLE[phase] * SECOND;
      [Switched(BetterPathAvailable, next)] + Hasty(next, (phase + 1) % 4, n - 1)
  }

  /** How long `n` steps of the cycle take, in seconds. */
  function Elapsed(phase: nat, n: nat): nat
    requires phase < 4
    decreases n
  {
    if n == 0 then 0 else CYCLE[phase] + Elapsed((phase + 1) % 4, n - 1)
  }

  lemma {:induction false} ElapsedOverCycles(k: nat)
    ensures Elapsed(0, 4 * k + 3) == 95 * k + 35
  {
    if k > 0 {
      ElapsedOverCycles(k - 1);
      var n := 4 * k + 3;
      assert Elapsed(0, n) == 5 + Elapsed(1, n - 1);
      assert Elapsed(1, n - 1) == 10 + Elapsed(2, n - 2);
      assert Elapsed(2, n - 2) == 20 + Elapsed(3, n - 3);
      assert Elapsed(3, n - 3) == 60 + Elapsed(0, n - 4);
    } else {
      assert Elapsed(1, 2) == 10 + Elapsed(2, 1);
      assert Elapsed(2, 1) == 20;
    }
  }

  lemma HastyStep(at: nat, phase: nat)
    requires phase < 4
    ensures var b, now := Backoff(Some(at), phase), at + CYCLE[phase] * SECOND;
      && Permits(DEFAULT, b, BetterPathAvailable, now)
      && Recorded(DEFAULT, b, now) == Backoff(Some(now), (phase + 1) % 4)
  {
    DefaultCooldowns();
  }

  lemma {:induction false} HastyIsPermitted(at: nat, phase: nat, n: nat)
    requires phase < 4
    ensures var b, run := Backoff(Some(at), phase), Hasty(at, phase, n);
      && Permitted(DEFAULT, b, run) && Opportunistic(run)
      && After(DEFAULT, b, run).last == Some(at + Elapsed(phase, n) * SECOND)
    decreases n
  {
    if n > 0 {
      var next, run := at + CYCLE[phase] * SECOND, Hasty(at, phase, n);
      HastyStep(at, phase);
      HastyIsPermitted(next, (phase + 1) % 4, n - 1);
      assert run[1..] == Hasty(next, (phase + 1) % 4, n - 1);
    }
  }

  /** The bound is met with equality by arbitrarily long runs: it cannot be improved. */
  lemma RateBoundIsTight(k: nat) returns (run: seq<Switched>)
    ensures |run| == 4 * k + 4 && Permitted(DEFAULT, CALM, run) && Opportunistic(run)
    ensures 4 * (run[|run| - 1].at - run[0].at) == (95 * (|run| - 1) - 145) * SECOND
  {
    var n: nat := 4 * k + 3;
    var rest := Hasty(0, 0, n);
    HastyIsPermitted(0, 0, n);
    LastSwitchTime(DEFAULT, Backoff(Some(0), 0), rest);
    ElapsedOverCycles(k);
    run := [Switched(BetterPathAvailable, 0)] + rest;
    assert run[1..] == rest;
  }

  // ----------------------------------------------------------- broken links

  /** When the switch before the `i`-th was made. */
  function Previous(from: nat, run: seq<Switched>, i: nat): nat
    requires i < |run|
  {
    if i == 0 then from else run[i - 1].at
  }

  /** Switches away from broken links, in time order from `from` on, each less than `within` after the
      one before. */
  ghost predicate Failures(from: nat, run: seq<Switched>, within: nat) {
    forall i :: 0 <= i < |run| ==>
      run[i].reason.IsFailure() && Previous(from, run, i) <= run[i].at < Previous(from, run, i) + within
  }

  lemma FailuresTail(from: nat, run: seq<Switched>, within: nat)
    requires Failures(from, run, within) && run != []
    ensures run[0].reason.IsFailure() && from <= run[0].at < from + within
    ensures Failures(run[0].at, run[1..], within)
  {
    assert Previous(from, run, 0) == from;
    forall i | 0 <= i < |run| - 1
      ensures run[1..][i] == run[i + 1] && Previous(run[0].at, run[1..], i) == Previous(from, run, i + 1)
    {
    }
  }

  /** Broken links are switched away from at once, whatever the backoff and however they are spaced;
      and with any timing, each switch less than the flap window after the last raises the level. */
  lemma {:induction false} FailuresClimb(t: Timing, b: Backoff, run: seq<Switched>, within: nat)
    requires b.last.Some? && Failures(b.last.value, run, within)
    ensures Permitted(t, b, run)
    ensures within <= t.window ==> After(t, b, run).consecutive == b.consecutive + |run|
    decreases |run|
  {
    if run != [] {
      FailuresTail(b.last.value, run, within);
      FailuresClimb(t, Recorded(t, b, run[0].at), run[1..], within);
    }
  }

  /** So the cap is reached, but only through failures: after any five of them or more, each less than
      a minute after the last, a merely better path waits exactly the full two minutes. */
  lemma FailuresReachCap(b: Backoff, run: seq<Switched>, now: nat)
    requires b.last.Some? && Failures(b.last.value, run, DEFAULT.window) && b.consecutive + |run| >= 5
    ensures var e := After(DEFAULT, b, run);
      && Permits(DEFAULT, e, LinkSilent, now)
      && e.last.Some? && CooldownAt(DEFAULT, e.consecutive) == DEFAULT.cap
      && (Permits(DEFAULT, e, BetterPathAvailable, now) <==> now >= e.last.value + DEFAULT.cap)
  {
    FailuresClimb(DEFAULT, b, run, DEFAULT.window);
    DefaultCooldowns();
    CooldownMonotone(DEFAULT, 5, b.consecutive + |run|);
    if run != [] { LastSwitchTime(DEFAULT, b, run); }
  }
}
