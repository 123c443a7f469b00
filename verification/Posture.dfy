/** The posture controller of `posture.rs`: demotion at the first adverse signal, relaxation one
    level at a time after enough clean periods and enough time. Time is a non-decreasing number
    handed in by the caller. */
module Posture {
  import opened Prelude

  datatype Posture = Performance | Balanced | Evasion {
    function Level(): nat { match this case Performance => 0 case Balanced => 1 case Evasion => 2 }
  }

  function Stricter(a: Posture, b: Posture): Posture { if a.Level() >= b.Level() then a else b }

  datatype Signal = HandshakeFailed | SuspiciousReset | SuddenPathLoss | CensorshipDetected | CleanPeriod {
    predicate IsAdverse() { !CleanPeriod? }
  }

  /** What is fixed when the controller is built. */
  datatype Rules = Rules(floor: Posture, minTime: nat, cleanPeriods: nat)

  datatype State = State(current: Posture, changedAt: nat, cleanStreak: nat, adverseTotal: nat)

  function Relaxed(p: Posture): Posture { match p case Evasion => Balanced case _ => Performance }

  function SetTo(r: Rules, s: State, target: Posture, now: nat): State {
    var t := Stricter(target, r.floor);
    if t == s.current then s else s.(current := t, changedAt := now)
  }

  function Observed(r: Rules, s: State, signal: Signal, now: nat): State {
    if signal.IsAdverse() then SetTo(r, s.(adverseTotal := s.adverseTotal + 1, cleanStreak := 0), Evasion, now)
    else
      var c := s.(cleanStreak := s.cleanStreak + 1);
      if c.cleanStreak < r.cleanPeriods || now - s.changedAt < r.minTime || s.current.Performance? then c
      else SetTo(r, c.(cleanStreak := 0), Relaxed(s.current), now)
  }

  function Change(before: State, after: State): Option<Posture> {
    if before.current == after.current then None else Some(after.current)
  }

  class PostureController {
    const rules: Rules
    var current: Posture
    var changedAt: nat
    var cleanStreak: nat
    var adverseTotal: nat

    ghost function Model(): State
      reads this
    {
      State(current, changedAt, cleanStreak, adverseTotal)
    }

    constructor (initial: Posture, rules: Rules, now: nat)
      ensures this.rules == rules && Model() == State(Stricter(initial, rules.floor), now, 0, 0)
    {
      this.rules, current := rules, Stricter(initial, rules.floor);
      changedAt, cleanStreak, adverseTotal := now, 0, 0;
    }

    method Observe(signal: Signal, now: nat) returns (changed: Option<Posture>)
      requires changedAt <= now
      modifies this
      ensures Model() == Observed(rules, old(Model()), signal, now)
      ensures signal != CleanPeriod ==>
        current == Evasion && cleanStreak == 0 && adverseTotal == old(adverseTotal) + 1
        && changedAt == if old(current) == Evasion then old(changedAt) else now
      ensures signal == CleanPeriod ==> adverseTotal == old(adverseTotal)
      ensures signal == CleanPeriod ==>
        if old(cleanStreak) + 1 >= rules.cleanPeriods && now - old(changedAt) >= rules.minTime
           && old(current) != Performance
        then cleanStreak == 0 && current.Level() == Max(old(current).Level() - 1, rules.floor.Level())
             && changedAt == if current == old(current) then old(changedAt) else now
        else cleanStreak == old(cleanStreak) + 1 && current == old(current) && changedAt == old(changedAt)
      ensures changed == Change(old(Model()), Model())
    {
      if signal.IsAdverse() {
        adverseTotal := adverseTotal + 1;
        cleanStreak := 0;
        changed := Set(Evasion, now);
        return;
      }
      cleanStreak := cleanStreak + 1;
      if cleanStreak < rules.cleanPeriods { return None; }
      if now - changedAt < rules.minTime { return None; }
      var relaxed;
      match current {
        case Evasion => relaxed := Balanced;
        case Balanced => relaxed := Performance;
        case Performance => return None;
      }
      cleanStreak := 0;
      changed := Set(relaxed, now);
    }

    method Set(target: Posture, now: nat) returns (changed: Option<Posture>)
      requires changedAt <= now
      modifies this`current, this`changedAt
      ensures current.Level() == Max(target.Level(), rules.floor.Level())
      ensures changedAt == if current == old(current) then old(changedAt) else now
      ensures Model() == SetTo(rules, old(Model()), target, now)
      ensures changed == Change(old(Model()), Model())
    {
      var t := Stricter(target, rules.floor);
      if t == current { return None; }
      current, changedAt := t, now;
      return Some(t);
    }

    method Force(target: Posture, now: nat) returns (changed: Option<Posture>)
      requires changedAt <= now
      modifies this
      ensures current.Level() == Max(target.Level(), rules.floor.Level()) && cleanStreak == 0
      ensures changedAt == if current == old(current) then old(changedAt) else now
      ensures Model() == SetTo(rules, old(Model()).(cleanStreak := 0), target, now)
      ensures changed == Change(old(Model()), Model())
    {
      cleanStreak := 0;
      changed := Set(target, now);
    }
  }

  // -------------------------------------------------------------------- runs

  datatype Event = Event(signal: Signal, at: nat)

  ghost predicate InTime(s: State, es: seq<Event>) {
    && (forall i :: 0 <= i < |es| ==> s.changedAt <= es[i].at)
    && (forall i, j :: 0 <= i < j < |es| ==> es[i].at <= es[j].at)
  }

  function Watch(r: Rules, s: State, es: seq<Event>): State
    decreases |es|
  {
    if es == [] then s
    else
      var n := |es| - 1;
      Observed(r, Watch(r, s, es[..n]), es[n].signal, es[n].at)
  }

  lemma {:induction false} WatchSplit(r: Rules, s: State, es: seq<Event>, i: nat)
    requires i <= |es|
    ensures Watch(r, s, es) == Watch(r, Watch(r, s, es[..i]), es[i..])
    decreases |es|
  {
    if i < |es| {
      var n := |es| - 1;
      WatchSplit(r, s, es[..n], i);
      assert es[..n][..i] == es[..i] && es[..n][i..] == es[i..][..n - i] && es[i..][n - i] == es[n];
    } else {
      assert es[..i] == es && es[i..] == [];
    }
  }

  /** One signal: up only to Evasion and only when adverse, else down at most one level, and never
      below the floor. */
  ghost predicate SingleStep(r: Rules, before: State, signal: Signal, after: State) {
    && after.current.Level() >= r.floor.Level()
    && (signal.IsAdverse() ==> after.current == Evasion)
    && (!signal.IsAdverse() ==> after.current == before.current || after.current == Relaxed(before.current))
  }

  lemma OneSingleStep(r: Rules, s: State, signal: Signal, now: nat)
    requires s.current.Level() >= r.floor.Level()
    ensures SingleStep(r, s, signal, Observed(r, s, signal, now))
  {
  }

  /** Over any run: never below the floor, and never past a level on the way down. */
  lemma {:induction false} FloorAndSingleSteps(r: Rules, s: State, es: seq<Event>, i: nat)
    requires s.current.Level() >= r.floor.Level() && i < |es|
    ensures Watch(r, s, es[..i]).current.Level() >= r.floor.Level()
    ensures SingleStep(r, Watch(r, s, es[..i]), es[i].signal, Watch(r, s, es[..i + 1]))
  {
    if i > 0 { FloorAndSingleSteps(r, s, es, i - 1); } else { assert es[..0] == []; }
    assert es[..i + 1][..i] == es[..i];
    OneSingleStep(r, Watch(r, s, es[..i]), es[i].signal, es[i].at);
  }

  // -------------------------------------------------------------- relaxation

  ghost predicate AllClean(es: seq<Event>) { forall i :: 0 <= i < |es| ==> es[i].signal == CleanPeriod }

  /** The first `j` clean periods suffice to relax: enough of them, and enough time since `since`. */
  predicate Suffices(r: Rules, since: nat, es: seq<Event>, j: nat)
    requires j <= |es|
  {
    j >= 1 && j >= r.cleanPeriods && es[j - 1].at - since >= r.minTime
  }

  lemma SufficesLater(r: Rules, s: State, es: seq<Event>, j: nat, k: nat)
    requires InTime(s, es) && j <= k <= |es|
    ensures Suffices(r, s.changedAt, es, j) ==> Suffices(r, s.changedAt, es, k)
  {
    if 0 < j < k { assert es[j - 1].at <= es[k - 1].at; }
  }

  /** A posture entered with nothing counted holds, and counts, until the clean periods suffice. */
  lemma {:induction false} Holds(r: Rules, s: State, es: seq<Event>, j: nat)
    requires InTime(s, es) && AllClean(es) && s.cleanStreak == 0 && j <= |es|
    requires !Suffices(r, s.changedAt, es, j)
    ensures Watch(r, s, es[..j]) == s.(cleanStreak := j)
  {
    if j > 0 {
      SufficesLater(r, s, es, j - 1, j);
      Holds(r, s, es, j - 1);
      assert es[..j][..j - 1] == es[..j - 1];
      assert es[j - 1].signal == CleanPeriod;
    } else {
      assert es[..0] == [];
    }
  }

  /** And relaxes one level at the first period that makes them suffice, if the floor permits. */
  lemma Relaxes(r: Rules, s: State, es: seq<Event>, j: nat)
    requires InTime(s, es) && AllClean(es) && s.cleanStreak == 0 && 0 < j <= |es|
    requires !Suffices(r, s.changedAt, es, j - 1) && Suffices(r, s.changedAt, es, j)
    requires s.current != Performance && Relaxed(s.current).Level() >= r.floor.Level()
    ensures Watch(r, s, es[..j]) == s.(current := Relaxed(s.current), changedAt := es[j - 1].at, cleanStreak := 0)
  {
    Holds(r, s, es, j - 1);
    assert es[..j][..j - 1] == es[..j - 1];
    assert es[j - 1].signal == CleanPeriod;
  }

  lemma {:induction false} FirstSufficient(r: Rules, s: State, es: seq<Event>, k: nat) returns (j: nat)
    requires InTime(s, es) && k <= |es| && Suffices(r, s.changedAt, es, k)
    ensures 0 < j <= k && Suffices(r, s.changedAt, es, j) && !Suffices(r, s.changedAt, es, j - 1)
  {
    if Suffices(r, s.changedAt, es, k - 1) { j := FirstSufficient(r, s, es, k - 1); } else { j := k; }
  }

  /** A state just after an adverse signal. */
  ghost predicate Alarmed(s: State) { s.current == Evasion && s.cleanStreak == 0 }

  lemma AdverseAlarms(r: Rules, s: State, signal: Signal, now: nat)
    requires signal.IsAdverse()
    ensures Alarmed(Observed(r, s, signal, now))
    ensures s.current == Evasion ==> Observed(r, s, signal, now).changedAt == s.changedAt
  {
  }

  /** The point at which Balanced was entered: the first period at which the first `j` sufficed. */
  ghost predicate EntersBalanced(r: Rules, s: State, es: seq<Event>, j: nat) {
    0 < j <= |es| && Suffices(r, s.changedAt, es, j) && !Suffices(r, s.changedAt, es, j - 1)
  }

  /** After the last adverse signal Evasion is left exactly when there have been enough clean
      periods since that signal and enough time since Evasion was entered, which may be long before
      that signal. */
  lemma LeavesEvasion(r: Rules, s: State, es: seq<Event>)
    requires Alarmed(s) && r.floor != Evasion && InTime(s, es) && AllClean(es)
    ensures Watch(r, s, es).current != Evasion <==> Suffices(r, s.changedAt, es, |es|)
  {
    assert es[..|es|] == es;
    if Suffices(r, s.changedAt, es, |es|) {
      var j := FirstSufficient(r, s, es, |es|);
      Relaxes(r, s, es, j);
      WatchSplit(r, s, es, j);
      StaysBelowEvasion(r, Watch(r, s, es[..j]), es[j..]);
    } else {
      Holds(r, s, es, |es|);
    }
  }

  lemma {:induction false} StaysBelowEvasion(r: Rules, s: State, es: seq<Event>)
    requires s.current != Evasion && r.floor != Evasion && AllClean(es)
    ensures Watch(r, s, es).current != Evasion
    decreases |es|
  {
    if es != [] { StaysBelowEvasion(r, s, es[..|es| - 1]); }
  }

  lemma {:induction false} StaysAtPerformance(r: Rules, s: State, es: seq<Event>)
    requires s.current == Performance && AllClean(es)
    ensures Watch(r, s, es).current == Performance
    decreases |es|
  {
    if es != [] { StaysAtPerformance(r, s, es[..|es| - 1]); }
  }

  /** From Balanced, just entered, Performance is reached exactly when the periods suffice again. */
  lemma LeavesBalanced(r: Rules, s: State, es: seq<Event>)
    requires s.current == Balanced && s.cleanStreak == 0 && r.floor == Performance && InTime(s, es) && AllClean(es)
    ensures Watch(r, s, es).current == Performance <==> Suffices(r, s.changedAt, es, |es|)
  {
    assert es[..|es|] == es;
    if Suffices(r, s.changedAt, es, |es|) {
      var j := FirstSufficient(r, s, es, |es|);
      Relaxes(r, s, es, j);
      WatchSplit(r, s, es, j);
      StaysAtPerformance(r, Watch(r, s, es[..j]), es[j..]);
    } else {
      Holds(r, s, es, |es|);
    }
  }

  lemma EntersOnce(r: Rules, s: State, es: seq<Event>, j: nat, k: nat)
    requires InTime(s, es) && EntersBalanced(r, s, es, j) && EntersBalanced(r, s, es, k)
    ensures j == k
  {
    if j != k { SufficesLater(r, s, es, Min(j, k), Max(j, k) - 1); }
  }

  lemma AfterBalanced(r: Rules, s: State, es: seq<Event>, j: nat)
    requires Alarmed(s) && r.floor == Performance && InTime(s, es) && AllClean(es) && EntersBalanced(r, s, es, j)
    ensures Watch(r, s, es).current == Performance <==> Suffices(r, es[j - 1].at, es[j..], |es| - j)
  {
    Relaxes(r, s, es, j);
    WatchSplit(r, s, es, j);
    LaterInTime(s, es, j);
    LeavesBalanced(r, Watch(r, s, es[..j]), es[j..]);
  }

  lemma LaterInTime(s: State, es: seq<Event>, j: nat)
    requires InTime(s, es) && AllClean(es) && 0 < j <= |es|
    ensures AllClean(es[j..])
    ensures InTime(s.(changedAt := es[j - 1].at), es[j..])
  {
  }

  /** After the last adverse signal, Performance is reached exactly when Balanced was entered at some
      period `j`, and from there on there were again enough clean periods and enough time. */
  lemma ReachesPerformance(r: Rules, s: State, es: seq<Event>)
    requires Alarmed(s) && r.floor == Performance && InTime(s, es) && AllClean(es)
    ensures Watch(r, s, es).current == Performance
      <==> exists j: nat :: EntersBalanced(r, s, es, j) && Suffices(r, es[j - 1].at, es[j..], |es| - j)
  {
    if Suffices(r, s.changedAt, es, |es|) {
      var j := FirstSufficient(r, s, es, |es|);
      AfterBalanced(r, s, es, j);
      forall k: nat | EntersBalanced(r, s, es, k) ensures k == j { EntersOnce(r, s, es, j, k); }
    } else {
      LeavesEvasion(r, s, es);
      forall k: nat | k <= |es| ensures !EntersBalanced(r, s, es, k) { SufficesLater(r, s, es, k, |es|); }
    }
  }

  /** What is paid over a run `es`: signal `j` enters Balanced from Evasion, and the last one ends the
      dwell there. */
  ghost predicate Paid(r: Rules, s: State, es: seq<Event>, j: nat) {
    && j + 1 < |es| && es[|es| - 1].at - es[j].at >= r.minTime
    && Watch(r, s, es[..j]).current == Evasion && Watch(r, s, es[..j + 1]).current == Balanced
  }

  lemma PriceAfter(r: Rules, s: State, es: seq<Event>) returns (j: nat)
    requires Alarmed(s) && r.floor == Performance && InTime(s, es) && AllClean(es)
    requires Watch(r, s, es).current == Performance
    ensures Paid(r, s, es, j) && |es| >= 2 * r.cleanPeriods
  {
    ReachesPerformance(r, s, es);
    var k: nat :| EntersBalanced(r, s, es, k) && Suffices(r, es[k - 1].at, es[k..], |es| - k);
    assert es[k..][|es| - k - 1] == es[|es| - 1];
    Relaxes(r, s, es, k);
    Holds(r, s, es, k - 1);
    j := k - 1;
  }

  lemma WatchFrom(r: Rules, s: State, es: seq<Event>, n: nat, k: nat)
    requires n + k <= |es|
    ensures Watch(r, s, es[..n + k]) == Watch(r, Watch(r, s, es[..n]), es[n..][..k])
  {
    WatchSplit(r, s, es[..n + k], n);
    assert es[..n + k][..n] == es[..n] && es[..n + k][n..] == es[n..][..k];
  }

  lemma AlarmedAt(r: Rules, s: State, es: seq<Event>, a: nat)
    requires InTime(s, es) && a < |es| && es[a].signal.IsAdverse()
    ensures Alarmed(Watch(r, s, es[..a + 1])) && InTime(Watch(r, s, es[..a + 1]), es[a + 1..])
  {
    assert es[..a + 1][..a] == es[..a];
    AdverseAlarms(r, Watch(r, s, es[..a]), es[a].signal, es[a].at);
    EnteredBefore(r, s, es[..a + 1]);
  }

  /** So an adverse signal costs at least twice the clean streak, all of it after the last such
      signal, and at least the minimum dwell spent at Balanced. */
  lemma PriceOfAnAlarm(r: Rules, s: State, es: seq<Event>, a: nat) returns (last: nat, j: nat)
    requires r.floor == Performance && InTime(s, es) && a < |es|
    requires es[a].signal.IsAdverse() && Watch(r, s, es).current == Performance
    ensures a <= last < j < |es| && es[last].signal.IsAdverse() && AllClean(es[last + 1..])
    ensures |es| - 1 - last >= 2 * r.cleanPeriods && Paid(r, s, es, j)
  {
    last := LastAdverse(es, a);
    var n := last + 1;
    AlarmedAt(r, s, es, last);
    WatchSplit(r, s, es, n);
    var k := PriceAfter(r, Watch(r, s, es[..n]), es[n..]);
    j := n + k;
    PaidFrom(r, s, es, n, k);
  }

  lemma PaidFrom(r: Rules, s: State, es: seq<Event>, n: nat, k: nat)
    requires n <= |es| && Paid(r, Watch(r, s, es[..n]), es[n..], k)
    ensures Paid(r, s, es, n + k)
  {
    WatchFrom(r, s, es, n, k);
    WatchFrom(r, s, es, n, k + 1);
    assert n + (k + 1) == n + k + 1;
  }

  lemma {:induction false} LastAdverse(es: seq<Event>, a: nat) returns (last: nat)
    requires a < |es| && es[a].signal.IsAdverse()
    ensures a <= last < |es| && es[last].signal.IsAdverse() && AllClean(es[last + 1..])
    decreases |es| - a
  {
    if AllClean(es[a + 1..]) {
      last := a;
    } else {
      var i :| 0 <= i < |es[a + 1..]| && es[a + 1..][i].signal != CleanPeriod;
      last := LastAdverse(es, a + 1 + i);
    }
  }

  /** The current posture was entered no later than the last signal observed. */
  lemma {:induction false} EnteredBefore(r: Rules, s: State, es: seq<Event>)
    requires InTime(s, es)
    ensures Watch(r, s, es).changedAt <= if es == [] then s.changedAt else es[|es| - 1].at
    decreases |es|
  {
    if es != [] { EnteredBefore(r, s, es[..|es| - 1]); }
  }

  /** How many clean periods have passed at the end of a run, having started with `start`. */
  function Streak(start: nat, es: seq<Event>): nat
    decreases |es|
  {
    if es == [] then start
    else if es[|es| - 1].signal == CleanPeriod then Streak(start, es[..|es| - 1]) + 1
    else 0
  }

  /** Where that streak began. */
  lemma {:induction false} StreakBegins(start: nat, es: seq<Event>) returns (i: nat)
    ensures i <= |es| && AllClean(es[i..]) && Streak(start, es) == |es| - i + if i == 0 then start else 0
    decreases |es|
  {
    var n := |es| - 1;
    if es == [] {
      i := 0;
    } else if es[n].signal == CleanPeriod {
      i := StreakBegins(start, es[..n]);
      assert es[i..] == es[..n][i..] + [es[n]];
    } else {
      i := |es|;
    }
  }

  lemma {:induction false} ShortStreaksStayEvasion(r: Rules, s: State, es: seq<Event>)
    requires s.current == Evasion
    requires forall n :: 0 <= n <= |es| ==> Streak(s.cleanStreak, es[..n]) < r.cleanPeriods
    ensures Watch(r, s, es).current == Evasion && Watch(r, s, es).cleanStreak == Streak(s.cleanStreak, es)
    decreases |es|
  {
    assert es[..|es|] == es;
    if es != [] {
      var front := es[..|es| - 1];
      forall n | 0 <= n <= |front| ensures Streak(s.cleanStreak, front[..n]) < r.cleanPeriods {
        assert front[..n] == es[..n];
      }
      ShortStreaksStayEvasion(r, s, front);
    }
  }

  /** Fewer than the required number of clean periods between adverse signals, for ever: the posture
      stays at Evasion, however much time passes. A stretch that reaches back to the start counts what
      had been counted before. */
  lemma NeverQuietStaysEvasion(r: Rules, s: State, es: seq<Event>)
    requires s.current == Evasion
    requires forall i, j :: 0 <= i <= j <= |es| && AllClean(es[i..j])
               ==> j - i + (if i == 0 then s.cleanStreak else 0) < r.cleanPeriods
    ensures Watch(r, s, es).current == Evasion
  {
    forall n | 0 <= n <= |es| ensures Streak(s.cleanStreak, es[..n]) < r.cleanPeriods {
      var i := StreakBegins(s.cleanStreak, es[..n]);
      assert es[..n][i..] == es[i..n];
    }
    ShortStreaksStayEvasion(r, s, es);
  }
}
