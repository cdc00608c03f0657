/** The weighted-time sweep of the ninja log summariser, on values.

    Build steps are spans of time.  A step's share of the build is the integral, over
    the time it runs, of one over the number of steps running.  The summariser computes
    all shares in one pass over the start and stop events, sorted by time and, at equal
    times, starts first.  This module defines the share as a sum over elementary
    intervals, defines what the one pass accumulates, and proves that they agree. */
module NinjaSweep {
  import opened Common

  datatype Span = Span(start: real, end: real)

  // ---------------------------------------------------------------- events

  /** An event: some step starts, or stops. */
  datatype Mark = Begin(step: nat) | Finish(step: nat)

  function TimeOf(spans: seq<Span>, m: Mark): real
    requires m.step < |spans|
  {
    if m.Finish? then spans[m.step].end else spans[m.step].start
  }

  /** The sort key (time, kind), where a start sorts before a stop. */
  predicate KeyLe(spans: seq<Span>, m: Mark, n: Mark)
    requires m.step < |spans| && n.step < |spans|
  {
    TimeOf(spans, m) < TimeOf(spans, n) ||
    (TimeOf(spans, m) == TimeOf(spans, n) && (m.Finish? ==> n.Finish?))
  }

  /** Every start and stop of the first n steps, each once. */
  ghost predicate AllMarks(order: seq<Mark>, n: nat) {
    && |order| == 2 * n
    && (forall i :: 0 <= i < |order| ==> order[i].step < n)
    && Distinct(order)
    && (forall k: nat {:trigger Begin(k) in order} {:trigger Finish(k) in order} :: k < n ==>
          Begin(k) in order && Finish(k) in order)
  }

  /** Some order in which the sort may leave the events: the key says nothing about ties. */
  ghost predicate Schedule(spans: seq<Span>, order: seq<Mark>) {
    && AllMarks(order, |spans|)
    && (forall i, j {:trigger KeyLe(spans, order[i], order[j])} :: 0 <= i < j < |order| ==>
          KeyLe(spans, order[i], order[j]))
  }

  ghost function At(spans: seq<Span>, order: seq<Mark>, i: nat): real
    requires Schedule(spans, order) && i < |order|
  {
    TimeOf(spans, order[i])
  }

  ghost function Pos(order: seq<Mark>, m: Mark): (i: nat)
    requires m in order
    ensures i < |order| && order[i] == m
  {
    var i :| 0 <= i < |order| && order[i] == m;
    i
  }

  ghost function StartPos(spans: seq<Span>, order: seq<Mark>, k: nat): (i: nat)
    requires Schedule(spans, order) && k < |spans|
    ensures i < |order| && At(spans, order, i) == spans[k].start && order[i] == Begin(k)
  {
    Pos(order, Begin(k))
  }

  ghost function StopPos(spans: seq<Span>, order: seq<Mark>, k: nat): (i: nat)
    requires Schedule(spans, order) && k < |spans|
    ensures i < |order| && At(spans, order, i) == spans[k].end && order[i] == Finish(k)
  {
    Pos(order, Finish(k))
  }

  /** Every event has one position. */
  lemma EventPos(spans: seq<Span>, order: seq<Mark>, i: nat)
    requires Schedule(spans, order) && i < |order|
    ensures Pos(order, order[i]) == i
    ensures order[i].step < |spans|
    ensures i ==
      if order[i].Finish? then StopPos(spans, order, order[i].step) else StartPos(spans, order, order[i].step)
  {
    var p := Pos(order, order[i]);
    assert p < i ==> !Repeats(order, p, i);
    assert i < p ==> !Repeats(order, i, p);
  }

  ghost predicate Forward(spans: seq<Span>) {
    forall k :: 0 <= k < |spans| ==> spans[k].start <= spans[k].end
  }

  // ---------------------------------------------------------------- the integral

  /** The step runs during the whole of the interval from a to b. */
  predicate Covers(s: Span, a: real, b: real) { s.start <= a && b <= s.end }

  ghost function Running(spans: seq<Span>, a: real, b: real): set<nat> {
    set k: nat | k < |spans| && Covers(spans[k], a, b)
  }

  /** An even split of some elapsed time between the steps running meanwhile. */
  function PerStep(elapsed: real, steps: nat): real
    requires steps > 0
  {
    elapsed / steps as real
  }

  /** What one of the steps running from a to b is given of that interval. */
  ghost function Slice(spans: seq<Span>, a: real, b: real): real {
    if Running(spans, a, b) == {} then 0.0 else PerStep(b - a, |Running(spans, a, b)|)
  }

  ghost function Piece(spans: seq<Span>, k: nat, a: real, b: real): real
    requires k < |spans|
  {
    if Covers(spans[k], a, b) then Slice(spans, a, b) else 0.0
  }

  /** Step k's share of the elementary intervals that end at event `upto` or earlier. */
  ghost function ShareUpTo(spans: seq<Span>, order: seq<Mark>, k: nat, upto: nat): real
    requires Schedule(spans, order) && k < |spans| && upto < |order|
  {
    if upto == 0 then 0.0
    else ShareUpTo(spans, order, k, upto - 1) + Piece(spans, k, At(spans, order, upto - 1), At(spans, order, upto))
  }

  ghost function Share(spans: seq<Span>, order: seq<Mark>, k: nat): real
    requires Schedule(spans, order) && k < |spans|
  {
    ShareUpTo(spans, order, k, |order| - 1)
  }

  // ---------------------------------------------------------------- the one pass

  /** Before event i, the step's start has been seen and its stop has not. */
  ghost predicate IsOpen(spans: seq<Span>, order: seq<Mark>, k: nat, i: nat)
    requires Schedule(spans, order) && k < |spans|
  {
    StartPos(spans, order, k) < i <= StopPos(spans, order, k)
  }

  ghost function Open(spans: seq<Span>, order: seq<Mark>, i: nat): set<nat>
    requires Schedule(spans, order)
  {
    set k: nat | k < |spans| && IsOpen(spans, order, k, i)
  }

  /** The weighted time at `time`, with that many steps running since `lastTime`. */
  function Advance(last: real, lastTime: real, time: real, numRunning: nat): real {
    if numRunning > 0 then last + PerStep(time - lastTime, numRunning) else last
  }

  /** The accumulated weighted time once the time up to event i has been added. */
  ghost function Accumulated(spans: seq<Span>, order: seq<Mark>, i: nat): real
    requires Schedule(spans, order) && i < |order|
  {
    if i == 0 then 0.0
    else
      Advance(Accumulated(spans, order, i - 1), At(spans, order, i - 1), At(spans, order, i), |Open(spans, order, i)|)
  }

  lemma TimesNeverDecrease(spans: seq<Span>, order: seq<Mark>, i: nat, j: nat)
    requires Schedule(spans, order) && i <= j < |order|
    ensures At(spans, order, i) <= At(spans, order, j)
  {
    if i < j { assert KeyLe(spans, order[i], order[j]); }
  }

  /** A stop that is not before its start in time comes after it in every schedule. */
  lemma StopFollowsStart(spans: seq<Span>, order: seq<Mark>, k: nat)
    requires Schedule(spans, order) && k < |spans|
    ensures StartPos(spans, order, k) < StopPos(spans, order, k) <==> spans[k].start <= spans[k].end
  {
    var a, b := StartPos(spans, order, k), StopPos(spans, order, k);
    if a < b {
      assert KeyLe(spans, order[a], order[b]);
    } else {
      assert KeyLe(spans, order[b], order[a]);
    }
  }

  /** Across a positive stretch of time, the steps the pass has open are those running. */
  lemma OpenIsRunning(spans: seq<Span>, order: seq<Mark>, i: nat)
    requires Schedule(spans, order) && 0 < i < |order|
    requires At(spans, order, i - 1) < At(spans, order, i)
    ensures Open(spans, order, i) == Running(spans, At(spans, order, i - 1), At(spans, order, i))
  {
    forall k: nat | k < |spans|
      ensures k in Open(spans, order, i) <==> Covers(spans[k], At(spans, order, i - 1), At(spans, order, i))
    {
      BeforeIffEarlier(spans, order, i, StartPos(spans, order, k));
      BeforeIffEarlier(spans, order, i, StopPos(spans, order, k));
    }
  }

  lemma BeforeIffEarlier(spans: seq<Span>, order: seq<Mark>, i: nat, p: nat)
    requires Schedule(spans, order) && 0 < i < |order| && p < |order|
    requires At(spans, order, i - 1) < At(spans, order, i)
    ensures p < i <==> At(spans, order, p) <= At(spans, order, i - 1)
    ensures i <= p <==> At(spans, order, i) <= At(spans, order, p)
  {
    if p < i {
      TimesNeverDecrease(spans, order, p, i - 1);
    } else {
      TimesNeverDecrease(spans, order, i, p);
    }
  }

  /** What the pass has accumulated, up to event i, since step k started and until it stopped. */
  ghost function Gained(spans: seq<Span>, order: seq<Mark>, k: nat, i: nat): real
    requires Schedule(spans, order) && k < |spans| && i < |order|
  {
    var a, b := StartPos(spans, order, k), StopPos(spans, order, k);
    if i <= a then 0.0
    else Accumulated(spans, order, if i <= b then i else b) - Accumulated(spans, order, a)
  }

  /** The pass accumulates one slice of the interval whenever some step is open. */
  lemma StepIsSlice(spans: seq<Span>, order: seq<Mark>, i: nat)
    requires Schedule(spans, order) && 0 < i < |order|
    ensures
      var a, b := At(spans, order, i - 1), At(spans, order, i);
      Open(spans, order, i) != {} ==>
        Accumulated(spans, order, i) - Accumulated(spans, order, i - 1) == Slice(spans, a, b)
  {
    var a, b := At(spans, order, i - 1), At(spans, order, i);
    if a < b {
      OpenIsRunning(spans, order, i);
    } else {
      TimesNeverDecrease(spans, order, i - 1, i);
      NothingToDivide(b - a, |Open(spans, order, i)|);
      NothingToDivide(b - a, |Running(spans, a, b)|);
    }
  }

  lemma NothingToDivide(x: real, n: nat)
    requires x == 0.0
    ensures n > 0 ==> PerStep(x, n) == 0.0
  {
  }

  lemma PieceIsGain(spans: seq<Span>, order: seq<Mark>, k: nat, i: nat)
    requires Schedule(spans, order) && k < |spans| && spans[k].start <= spans[k].end && 0 < i < |order|
    ensures
      Piece(spans, k, At(spans, order, i - 1), At(spans, order, i)) ==
      if k in Open(spans, order, i) then Accumulated(spans, order, i) - Accumulated(spans, order, i - 1) else 0.0
  {
    var a, b := At(spans, order, i - 1), At(spans, order, i);
    StepIsSlice(spans, order, i);
    if a < b {
      OpenIsRunning(spans, order, i);
      assert k in Open(spans, order, i) <==> Covers(spans[k], a, b);
    } else {
      TimesNeverDecrease(spans, order, i - 1, i);
      NothingToDivide(b - a, |Running(spans, a, b)|);
      assert Slice(spans, a, b) == 0.0;
    }
  }

  lemma {:induction false} GainIsShare(spans: seq<Span>, order: seq<Mark>, k: nat, i: nat)
    requires Schedule(spans, order) && k < |spans| && spans[k].start <= spans[k].end && i < |order|
    ensures ShareUpTo(spans, order, k, i) == Gained(spans, order, k, i)
  {
    StopFollowsStart(spans, order, k);
    if i > 0 {
      GainIsShare(spans, order, k, i - 1);
      PieceIsGain(spans, order, k, i);
    }
  }

  /** The one pass is the integral: what it accumulates between a step's start and its
      stop is the step's share of the elementary intervals. */
  lemma SweepIsIntegral(spans: seq<Span>, order: seq<Mark>, k: nat)
    requires Schedule(spans, order) && k < |spans| && spans[k].start <= spans[k].end
    ensures Accumulated(spans, order, StopPos(spans, order, k)) - Accumulated(spans, order, StartPos(spans, order, k))
         == Share(spans, order, k)
  {
    var a, b, last: nat := StartPos(spans, order, k), StopPos(spans, order, k), |order| - 1;
    StopFollowsStart(spans, order, k);
    GainIsShare(spans, order, k, last);
    assert a < last && b <= last;
    if b < last { assert !(last <= b); } else { assert b == last; }
  }

  // ---------------------------------------------------------------- ties

  lemma PrefixDistinct(spans: seq<Span>, order: seq<Mark>, n: nat)
    requires Schedule(spans, order) && n <= |order|
    ensures |Elements(order[..n])| == n
  {
    DistinctPrefix(order, n);
    DistinctCount(order[..n]);
  }

  /** However the sort breaks ties, the i-th event happens at the same time. */
  lemma {:induction false} TimesIgnoreTies(spans: seq<Span>, order: seq<Mark>, other: seq<Mark>, i: nat)
    requires Schedule(spans, order) && Schedule(spans, other) && i < |order|
    ensures At(spans, order, i) == At(spans, other, i)
  {
    TimesAtMost(spans, order, other, i);
    TimesAtMost(spans, other, order, i);
  }

  lemma TimesAtMost(spans: seq<Span>, order: seq<Mark>, other: seq<Mark>, i: nat)
    requires Schedule(spans, order) && Schedule(spans, other) && i < |order|
    ensures At(spans, order, i) >= At(spans, other, i)
  {
    if At(spans, order, i) < At(spans, other, i) {
      // the first i+1 events of one order would all be among the first i of the other
      forall e | e in Elements(order[..i + 1]) ensures e in Elements(other[..i]) {
        var j :| 0 <= j <= i && order[j] == e;
        TimesNeverDecrease(spans, order, j, i);
        var p := Pos(other, e);
        if i <= p { TimesNeverDecrease(spans, other, i, p); }
        assert other[..i][p] == e;
      }
      PrefixDistinct(spans, order, i + 1);
      PrefixDistinct(spans, other, i);
      SubsetCount(Elements(order[..i + 1]), Elements(other[..i]));
    }
  }

  lemma {:induction false} ShareIgnoresTiesUpTo(spans: seq<Span>, order: seq<Mark>, other: seq<Mark>, k: nat, i: nat)
    requires Schedule(spans, order) && Schedule(spans, other) && k < |spans| && i < |order|
    ensures ShareUpTo(spans, order, k, i) == ShareUpTo(spans, other, k, i)
  {
    if i > 0 {
      ShareIgnoresTiesUpTo(spans, order, other, k, i - 1);
      TimesIgnoreTies(spans, order, other, i - 1);
      TimesIgnoreTies(spans, order, other, i);
    }
  }

  /** No step's share depends on how the sort orders events with equal keys. */
  lemma ShareIgnoresTies(spans: seq<Span>, order: seq<Mark>, other: seq<Mark>, k: nat)
    requires Schedule(spans, order) && Schedule(spans, other) && k < |spans|
    ensures Share(spans, order, k) == Share(spans, other, k)
  {
    ShareIgnoresTiesUpTo(spans, order, other, k, |order| - 1);
  }

  // ---------------------------------------------------------------- conservation

  /** Time, among the elementary intervals up to event `upto`, with some step running. */
  ghost function Busy(spans: seq<Span>, order: seq<Mark>, upto: nat): real
    requires Schedule(spans, order) && upto < |order|
  {
    if upto == 0 then 0.0
    else
      var a, b := At(spans, order, upto - 1), At(spans, order, upto);
      Busy(spans, order, upto - 1) + if Running(spans, a, b) == {} then 0.0 else b - a
  }

  ghost function SharesUpTo(spans: seq<Span>, order: seq<Mark>, steps: nat, upto: nat): real
    requires Schedule(spans, order) && steps <= |spans| && upto < |order|
  {
    if steps == 0 then 0.0
    else SharesUpTo(spans, order, steps - 1, upto) + ShareUpTo(spans, order, steps - 1, upto)
  }

  ghost function Shares(spans: seq<Span>, order: seq<Mark>): real
    requires Schedule(spans, order) && spans != []
  {
    SharesUpTo(spans, order, |spans|, |order| - 1)
  }

  ghost function RunningAmong(spans: seq<Span>, steps: nat, a: real, b: real): set<nat>
    requires steps <= |spans|
  {
    set k: nat | k < steps && Covers(spans[k], a, b)
  }

  lemma RunningAmongStep(spans: seq<Span>, steps: nat, a: real, b: real)
    requires 0 < steps <= |spans|
    ensures |RunningAmong(spans, steps, a, b)| ==
      |RunningAmong(spans, steps - 1, a, b)| + if Covers(spans[steps - 1], a, b) then 1 else 0
  {
    var fewer, last: nat := RunningAmong(spans, steps - 1, a, b), steps - 1;
    if Covers(spans[last], a, b) {
      assert RunningAmong(spans, steps, a, b) == fewer + {last};
    } else {
      assert RunningAmong(spans, steps, a, b) == fewer;
    }
  }

  function Repeated(n: nat, x: real): real {
    if n == 0 then 0.0 else Repeated(n - 1, x) + x
  }

  lemma {:induction false} RepeatedIsProduct(n: nat, x: real)
    ensures Repeated(n, x) == n as real * x
  {
    if n > 0 {
      RepeatedIsProduct(n - 1, x);
      assert (n - 1) as real * x + x == n as real * x;
    }
  }

  lemma SplitEvenly(x: real, n: nat)
    requires n > 0
    ensures Repeated(n, PerStep(x, n)) == x
  {
    RepeatedIsProduct(n, PerStep(x, n));
    assert n as real * (x / n as real) == x;
  }

  lemma {:induction false} StepsShareInterval(spans: seq<Span>, order: seq<Mark>, steps: nat, i: nat)
    requires Schedule(spans, order) && steps <= |spans| && 0 < i < |order|
    ensures
      var a, b := At(spans, order, i - 1), At(spans, order, i);
      SharesUpTo(spans, order, steps, i) ==
      SharesUpTo(spans, order, steps, i - 1) + Repeated(|RunningAmong(spans, steps, a, b)|, Slice(spans, a, b))
  {
    var a, b := At(spans, order, i - 1), At(spans, order, i);
    if steps == 0 {
      assert RunningAmong(spans, 0, a, b) == {};
    } else {
      StepsShareInterval(spans, order, steps - 1, i);
      RunningAmongStep(spans, steps, a, b);
    }
  }

  lemma {:induction false} NothingSharedYet(spans: seq<Span>, order: seq<Mark>, steps: nat)
    requires Schedule(spans, order) && steps <= |spans| && order != []
    ensures SharesUpTo(spans, order, steps, 0) == 0.0
  {
    if steps > 0 { NothingSharedYet(spans, order, steps - 1); }
  }

  lemma {:induction false} ConservationUpTo(spans: seq<Span>, order: seq<Mark>, i: nat)
    requires Schedule(spans, order) && i < |order|
    ensures SharesUpTo(spans, order, |spans|, i) == Busy(spans, order, i)
  {
    if i == 0 {
      NothingSharedYet(spans, order, |spans|);
    } else {
      ConservationUpTo(spans, order, i - 1);
      var a, b := At(spans, order, i - 1), At(spans, order, i);
      StepsShareInterval(spans, order, |spans|, i);
      assert RunningAmong(spans, |spans|, a, b) == Running(spans, a, b);
      if Running(spans, a, b) != {} { SplitEvenly(b - a, |Running(spans, a, b)|); }
    }
  }

  /** The shares of all steps add up to the time during which at least one step runs. */
  lemma Conservation(spans: seq<Span>, order: seq<Mark>)
    requires Schedule(spans, order) && spans != []
    ensures Shares(spans, order) == Busy(spans, order, |order| - 1)
  {
    ConservationUpTo(spans, order, |order| - 1);
  }

  /** Nothing runs for some positive stretch of time between the first and last event. */
  ghost predicate IdleBefore(spans: seq<Span>, order: seq<Mark>, upto: nat)
    requires Schedule(spans, order) && upto < |order|
  {
    exists i :: 0 < i <= upto && IdleAt(spans, order, i)
  }

  ghost predicate IdleAt(spans: seq<Span>, order: seq<Mark>, i: nat)
    requires Schedule(spans, order) && 0 < i < |order|
  {
    var a, b := At(spans, order, i - 1), At(spans, order, i);
    a < b && Running(spans, a, b) == {}
  }

  /** Busy time never exceeds elapsed time, and equals it exactly when there is no idle gap. */
  lemma {:induction false} BusyWithinElapsed(spans: seq<Span>, order: seq<Mark>, i: nat)
    requires Schedule(spans, order) && i < |order|
    ensures Busy(spans, order, i) <= At(spans, order, i) - At(spans, order, 0)
    ensures Busy(spans, order, i) == At(spans, order, i) - At(spans, order, 0) <==> !IdleBefore(spans, order, i)
  {
    if i > 0 {
      BusyWithinElapsed(spans, order, i - 1);
      TimesNeverDecrease(spans, order, i - 1, i);
      assert IdleBefore(spans, order, i) <==> IdleBefore(spans, order, i - 1) || IdleAt(spans, order, i);
    }
  }

  ghost function CoveredUpTo(spans: seq<Span>, order: seq<Mark>, k: nat, upto: nat): real
    requires Schedule(spans, order) && k < |spans| && upto < |order|
  {
    var t, s := At(spans, order, upto), spans[k];
    if t <= s.start then 0.0 else if t <= s.end then t - s.start else s.end - s.start
  }

  lemma {:induction false} ShareBoundedUpTo(spans: seq<Span>, order: seq<Mark>, k: nat, i: nat)
    requires Schedule(spans, order) && k < |spans| && spans[k].start <= spans[k].end && i < |order|
    ensures 0.0 <= ShareUpTo(spans, order, k, i) <= CoveredUpTo(spans, order, k, i)
  {
    if i > 0 {
      ShareBoundedUpTo(spans, order, k, i - 1);
      TimesNeverDecrease(spans, order, i - 1, i);
      var a, b := At(spans, order, i - 1), At(spans, order, i);
      if Covers(spans[k], a, b) {
        assert k in Running(spans, a, b);
        SliceAtMostInterval(b - a, |Running(spans, a, b)|);
      }
    }
  }

  lemma SliceAtMostInterval(x: real, n: nat)
    requires x >= 0.0 && n > 0
    ensures 0.0 <= PerStep(x, n) <= x
  {
    var q := x / n as real;
    assert q * n as real == x;
    assert q >= 0.0;
    assert q * (n as real - 1.0) >= 0.0;
  }

  /** A step's share lies between nothing and the step's own duration. */
  lemma ShareWithinDuration(spans: seq<Span>, order: seq<Mark>, k: nat)
    requires Schedule(spans, order) && k < |spans| && spans[k].start <= spans[k].end
    ensures 0.0 <= Share(spans, order, k) <= spans[k].end - spans[k].start
  {
    ShareBoundedUpTo(spans, order, k, |order| - 1);
  }
}
