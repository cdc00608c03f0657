/** The ninja log summariser: its build-step objects and its sweep over their start and
    stop events, which sets every step's weighted duration. */
module NinjaSummary {
  import opened Common
  import opened NinjaSweep

  /** One build step of the log, with every output it produced. */
  class Target {
    const start: real
    const end: real
    var targets: seq<string>
    var weightedDuration: real

    constructor (start: real, end: real)
      ensures this.start == start && this.end == end
      ensures targets == [] && weightedDuration == 0.0
    {
      this.start := start;
      this.end := end;
      targets := [];
      weightedDuration := 0.0;
    }

    function Duration(): real { end - start }

    method SetWeightedDuration(weightedDuration: real)
      modifies this`weightedDuration
      ensures this.weightedDuration == weightedDuration
    {
      this.weightedDuration := weightedDuration;
    }
  }

  function Spans(entries: seq<Target>): seq<Span> {
    seq(|entries|, k requires 0 <= k < |entries| => Span(entries[k].start, entries[k].end))
  }

  // A dictionary's values are distinct objects, and objects are their own dictionary keys.
  lemma DifferentSteps(entries: seq<Target>, k: nat)
    requires Distinct(entries) && k < |entries|
    ensures forall j {:trigger entries[j]} :: 0 <= j < |entries| && j != k ==> entries[j] != entries[k]
  {
    forall j | 0 <= j < |entries| && j != k ensures entries[j] != entries[k] {
      assert if j < k then !Repeats(entries, j, k) else !Repeats(entries, k, j);
    }
  }

  datatype Kind = Start | Stop

  datatype Event = Event(time: real, kind: Kind, target: Target)

  predicate EventLe(a: Event, b: Event) {
    a.time < b.time || (a.time == b.time && (a.kind == Start || b.kind == Stop))
  }

  /** The event as the code records it. */
  ghost predicate Records(event: Event, m: Mark, entries: seq<Target>) {
    m.step < |entries| &&
    event == match m
      case Begin(k) => Event(entries[k].start, Start, entries[k])
      case Finish(k) => Event(entries[k].end, Stop, entries[k])
  }

  ghost predicate RecordsAll(events: seq<Event>, order: seq<Mark>, entries: seq<Target>) {
    && |events| == |order|
    && (forall i {:trigger Records(events[i], order[i], entries)} :: 0 <= i < |order| ==>
          Records(events[i], order[i], entries))
  }

  // ---------------------------------------------------------------- totals

  /** The running minimum as the code keeps it: any negative value stands for "none yet". */
  function Earliest(spans: seq<Span>): real {
    if spans == [] then -1.0
    else
      var before, last := Earliest(spans[..|spans| - 1]), spans[|spans| - 1];
      if before < 0.0 || last.start < before then last.start else before
  }

  function Latest(spans: seq<Span>): real {
    if spans == [] then 0.0
    else
      var before, last := Latest(spans[..|spans| - 1]), spans[|spans| - 1];
      if last.end > before then last.end else before
  }

  function CpuTime(spans: seq<Span>): real {
    if spans == [] then 0.0
    else CpuTime(spans[..|spans| - 1]) + (spans[|spans| - 1].end - spans[|spans| - 1].start)
  }

  /** Log times count from the start of the build, so they are not negative. */
  ghost predicate NonNegative(spans: seq<Span>) {
    forall k :: 0 <= k < |spans| ==> 0.0 <= spans[k].start
  }

  /** The last step starts no later than any other. */
  ghost predicate LastIsFirst(spans: seq<Span>)
    requires spans != []
  {
    forall k :: 0 <= k < |spans| ==> spans[|spans| - 1].start <= spans[k].start
  }

  /** When the running minimum is the minimum. */
  ghost predicate FindsEarliest(spans: seq<Span>)
    requires spans != []
  {
    NonNegative(spans) || LastIsFirst(spans)
  }

  ghost predicate AtMostEveryStart(x: real, spans: seq<Span>) {
    forall k :: 0 <= k < |spans| ==> x <= spans[k].start
  }

  ghost predicate AtLeastEveryEnd(x: real, spans: seq<Span>) {
    forall k :: 0 <= k < |spans| ==> spans[k].end <= x
  }

  /** When the running maximum, which starts at zero, is the maximum. */
  ghost predicate FindsLatest(spans: seq<Span>) {
    exists k :: 0 <= k < |spans| && spans[k].end >= 0.0
  }

  /** The running minimum is always some start, and the least one exactly when no start is
      negative or the last step's start is the least. */
  lemma {:induction false} EarliestIsLeastIff(spans: seq<Span>)
    requires spans != []
    ensures exists k :: 0 <= k < |spans| && spans[k].start == Earliest(spans)
    ensures AtMostEveryStart(Earliest(spans), spans) <==> FindsEarliest(spans)
  {
    var n := |spans| - 1;
    var init, last := spans[..n], spans[n].start;
    if init == [] {
      assert spans[n].start == Earliest(spans);
    } else {
      EarliestIsLeastIff(init);
      var before := Earliest(init);
      var k :| 0 <= k < |init| && init[k].start == before;
      assert spans[k].start == before;
      assert spans[n].start == Earliest(spans) || spans[k].start == Earliest(spans);
      if AtMostEveryStart(before, init) && before >= 0.0 {
        assert forall j :: 0 <= j < n ==> spans[j].start == init[j].start >= before;
      }
      if NonNegative(spans) {
        assert forall j :: 0 <= j < n ==> init[j].start == spans[j].start;
        assert NonNegative(init) && AtMostEveryStart(before, init);
      }
      if AtMostEveryStart(Earliest(spans), spans) && Earliest(spans) == before {
        assert forall j :: 0 <= j < n ==> init[j].start == spans[j].start;
        assert AtMostEveryStart(before, init);
      }
      forall j | 0 <= j < |spans| && AtMostEveryStart(before, init) && before <= last
        ensures before <= spans[j].start
      {
        assert j < n ==> spans[j].start == init[j].start;
      }
    }
  }

  /** The running maximum is never below an end, and is some end exactly when one is not negative. */
  lemma {:induction false} LatestIsGreatestIff(spans: seq<Span>)
    ensures AtLeastEveryEnd(Latest(spans), spans) && Latest(spans) >= 0.0
    ensures (exists k :: 0 <= k < |spans| && spans[k].end == Latest(spans)) || Latest(spans) == 0.0
    ensures (exists k :: 0 <= k < |spans| && spans[k].end == Latest(spans)) <==> FindsLatest(spans)
  {
    if spans != [] {
      var n := |spans| - 1;
      var init := spans[..n];
      LatestIsGreatestIff(init);
      forall j | 0 <= j < |spans| ensures spans[j].end <= Latest(spans) {
        if j < n { assert init[j].end <= Latest(init); }
      }
      assert spans[n].end > Latest(init) ==> spans[n].end == Latest(spans);
      if k :| 0 <= k < |init| && init[k].end == Latest(init) {
        assert spans[k].end == Latest(init) >= 0.0;
      }
      if k :| 0 <= k < |spans| && spans[k].end >= 0.0 {
        assert k < n ==> init[k].end >= 0.0;
      }
    }
  }

  /** The reported length runs from the first event to the last exactly under these conditions:
      the earliest time is that of the first event if and only if FindsEarliest holds, and the
      latest that of the last if and only if FindsLatest does. */
  lemma LengthIsElapsedIff(spans: seq<Span>, order: seq<Mark>)
    requires Schedule(spans, order) && spans != [] && Forward(spans)
    ensures Earliest(spans) == At(spans, order, 0) <==> FindsEarliest(spans)
    ensures Latest(spans) == At(spans, order, |order| - 1) <==> FindsLatest(spans)
    ensures Earliest(spans) >= At(spans, order, 0) && Latest(spans) >= At(spans, order, |order| - 1)
  {
    EarliestIsLeastIff(spans);
    LatestIsGreatestIff(spans);
    FirstEventIsLeast(spans, order);
    LastEventIsGreatest(spans, order);
  }

  lemma FirstEventIsLeast(spans: seq<Span>, order: seq<Mark>)
    requires Schedule(spans, order) && spans != [] && Forward(spans)
    ensures AtMostEveryStart(At(spans, order, 0), spans)
    ensures exists k :: 0 <= k < |spans| && spans[k].start == At(spans, order, 0)
  {
    forall k | 0 <= k < |spans| ensures At(spans, order, 0) <= spans[k].start {
      TimesNeverDecrease(spans, order, 0, StartPos(spans, order, k));
    }
    var s := order[0].step;
    assert At(spans, order, 0) <= spans[s].start <= spans[s].end;
  }

  lemma LastEventIsGreatest(spans: seq<Span>, order: seq<Mark>)
    requires Schedule(spans, order) && spans != [] && Forward(spans)
    ensures AtLeastEveryEnd(At(spans, order, |order| - 1), spans)
    ensures exists k :: 0 <= k < |spans| && spans[k].end == At(spans, order, |order| - 1)
  {
    var last := |order| - 1;
    forall k | 0 <= k < |spans| ensures spans[k].end <= At(spans, order, last) {
      TimesNeverDecrease(spans, order, StopPos(spans, order, k), last);
    }
    var t := order[last].step;
    assert spans[t].start <= spans[t].end <= At(spans, order, last);
  }

  /** Where the earliest time is right, the total of the shares never exceeds the reported length,
      and reaches it exactly when the build was never idle and the latest time is right too. */
  lemma WeightedTotalWithinLength(spans: seq<Span>, order: seq<Mark>)
    requires Schedule(spans, order) && spans != [] && FindsEarliest(spans) && Forward(spans)
    ensures Shares(spans, order) <= Latest(spans) - Earliest(spans)
    ensures Shares(spans, order) == Latest(spans) - Earliest(spans) <==>
      !IdleBefore(spans, order, |order| - 1) && FindsLatest(spans)
  {
    Conservation(spans, order);
    BusyWithinElapsed(spans, order, |order| - 1);
    LengthIsElapsedIff(spans, order);
  }

  /** For a build that was never idle, and some of it not before time zero, that condition is exact:
      the total stays within the length if and only if the earliest time is right. */
  lemma BusyTotalWithinLengthIff(spans: seq<Span>, order: seq<Mark>)
    requires Schedule(spans, order) && spans != [] && Forward(spans)
    requires !IdleBefore(spans, order, |order| - 1) && FindsLatest(spans)
    ensures Shares(spans, order) <= Latest(spans) - Earliest(spans) <==> FindsEarliest(spans)
  {
    Conservation(spans, order);
    BusyWithinElapsed(spans, order, |order| - 1);
    LengthIsElapsedIff(spans, order);
  }

  /** Elsewhere a negative start was taken for "none yet", and the total can exceed the length. */
  lemma NegativeStartBreaksLength(order: seq<Mark>)
    requires Schedule([Span(-5.0, 0.0), Span(3.0, 4.0)], order)
    ensures
      var spans := [Span(-5.0, 0.0), Span(3.0, 4.0)];
      Shares(spans, order) > Latest(spans) - Earliest(spans)
  {
    var spans := [Span(-5.0, 0.0), Span(3.0, 4.0)];
    assert spans[..1] == [Span(-5.0, 0.0)];
    assert [Span(-5.0, 0.0)][..0] == [];
    assert Earliest([Span(-5.0, 0.0)]) == -5.0 && Latest([Span(-5.0, 0.0)]) == 0.0;
    assert Earliest(spans) == 3.0 && Latest(spans) == 4.0;
    AloneKeepsAll(spans, order, 0);
    AloneKeepsAll(spans, order, 1);
    SharesOfTwo(spans, order);
  }

  lemma SharesOfTwo(spans: seq<Span>, order: seq<Mark>)
    requires Schedule(spans, order) && |spans| == 2
    ensures Shares(spans, order) == Share(spans, order, 0) + Share(spans, order, 1)
  {
    var last := |order| - 1;
    assert SharesUpTo(spans, order, 1, last) == SharesUpTo(spans, order, 0, last) + ShareUpTo(spans, order, 0, last);
  }

  /** No other step overlaps step k. */
  ghost predicate Alone(spans: seq<Span>, k: nat)
    requires k < |spans|
  {
    forall j :: 0 <= j < |spans| && j != k ==> spans[j].end <= spans[k].start || spans[k].end <= spans[j].start
  }

  lemma {:induction false} AloneKeepsAllUpTo(spans: seq<Span>, order: seq<Mark>, k: nat, i: nat)
    requires Schedule(spans, order) && k < |spans| && Forward(spans) && Alone(spans, k) && i < |order|
    ensures ShareUpTo(spans, order, k, i) == CoveredUpTo(spans, order, k, i)
  {
    var s := spans[k];
    if i == 0 {
      TimesNeverDecrease(spans, order, 0, StartPos(spans, order, k));
    } else {
      AloneKeepsAllUpTo(spans, order, k, i - 1);
      TimesNeverDecrease(spans, order, i - 1, i);
      var a, b := At(spans, order, i - 1), At(spans, order, i);
      if a < b {
        BeforeIffEarlier(spans, order, i, StartPos(spans, order, k));
        BeforeIffEarlier(spans, order, i, StopPos(spans, order, k));
        if Covers(s, a, b) {
          assert Running(spans, a, b) == {k};
          assert Slice(spans, a, b) == b - a;
        }
      } else {
        NothingToDivide(b - a, |Running(spans, a, b)|);
      }
    }
  }

  /** A step that overlaps no other is given its whole duration. */
  lemma AloneKeepsAll(spans: seq<Span>, order: seq<Mark>, k: nat)
    requires Schedule(spans, order) && k < |spans| && Forward(spans) && Alone(spans, k)
    ensures Share(spans, order, k) == spans[k].end - spans[k].start
  {
    AloneKeepsAllUpTo(spans, order, k, |order| - 1);
    TimesNeverDecrease(spans, order, StopPos(spans, order, k), |order| - 1);
  }

  // ---------------------------------------------------------------- CPU time

  /** Elapsed time times the number of steps running, over the elementary intervals up to event `upto`. */
  ghost function RunningTime(spans: seq<Span>, order: seq<Mark>, upto: nat): real
    requires Schedule(spans, order) && upto < |order|
  {
    if upto == 0 then 0.0
    else
      var a, b := At(spans, order, upto - 1), At(spans, order, upto);
      RunningTime(spans, order, upto - 1) + |Running(spans, a, b)| as real * (b - a)
  }

  /** How long the first steps run up to event `upto`, taken together. */
  ghost function CoveredTotal(spans: seq<Span>, order: seq<Mark>, steps: nat, upto: nat): real
    requires Schedule(spans, order) && steps <= |spans| && upto < |order|
  {
    if steps == 0 then 0.0
    else CoveredTotal(spans, order, steps - 1, upto) + CoveredUpTo(spans, order, steps - 1, upto)
  }

  lemma CoveredStep(spans: seq<Span>, order: seq<Mark>, k: nat, i: nat)
    requires Schedule(spans, order) && k < |spans| && spans[k].start <= spans[k].end && 0 < i < |order|
    ensures
      var a, b := At(spans, order, i - 1), At(spans, order, i);
      CoveredUpTo(spans, order, k, i) ==
      CoveredUpTo(spans, order, k, i - 1) + if Covers(spans[k], a, b) then b - a else 0.0
  {
    TimesNeverDecrease(spans, order, i - 1, i);
    if At(spans, order, i - 1) < At(spans, order, i) {
      BeforeIffEarlier(spans, order, i, StartPos(spans, order, k));
      BeforeIffEarlier(spans, order, i, StopPos(spans, order, k));
    }
  }

  lemma {:induction false} CoveredInterval(spans: seq<Span>, order: seq<Mark>, steps: nat, i: nat)
    requires Schedule(spans, order) && Forward(spans) && steps <= |spans| && 0 < i < |order|
    ensures
      var a, b := At(spans, order, i - 1), At(spans, order, i);
      CoveredTotal(spans, order, steps, i) ==
      CoveredTotal(spans, order, steps, i - 1) + Repeated(|RunningAmong(spans, steps, a, b)|, b - a)
  {
    var a, b := At(spans, order, i - 1), At(spans, order, i);
    if steps == 0 {
      assert RunningAmong(spans, 0, a, b) == {};
    } else {
      CoveredInterval(spans, order, steps - 1, i);
      RunningAmongStep(spans, steps, a, b);
      CoveredStep(spans, order, steps - 1, i);
    }
  }

  lemma {:induction false} NothingCoveredYet(spans: seq<Span>, order: seq<Mark>, steps: nat)
    requires Schedule(spans, order) && steps <= |spans| && order != []
    ensures CoveredTotal(spans, order, steps, 0) == 0.0
  {
    if steps > 0 {
      NothingCoveredYet(spans, order, steps - 1);
      TimesNeverDecrease(spans, order, 0, StartPos(spans, order, steps - 1));
    }
  }

  lemma {:induction false} CoveredIsRunning(spans: seq<Span>, order: seq<Mark>, i: nat)
    requires Schedule(spans, order) && Forward(spans) && i < |order|
    ensures CoveredTotal(spans, order, |spans|, i) == RunningTime(spans, order, i)
  {
    if i == 0 {
      NothingCoveredYet(spans, order, |spans|);
    } else {
      CoveredIsRunning(spans, order, i - 1);
      var a, b := At(spans, order, i - 1), At(spans, order, i);
      CoveredInterval(spans, order, |spans|, i);
      assert RunningAmong(spans, |spans|, a, b) == Running(spans, a, b);
      RepeatedIsProduct(|Running(spans, a, b)|, b - a);
    }
  }

  lemma {:induction false} AllCovered(spans: seq<Span>, order: seq<Mark>, steps: nat)
    requires Schedule(spans, order) && Forward(spans) && spans != [] && steps <= |spans|
    ensures CoveredTotal(spans, order, steps, |order| - 1) == CpuTime(spans[..steps])
  {
    if steps > 0 {
      AllCovered(spans, order, steps - 1);
      assert spans[..steps][..steps - 1] == spans[..steps - 1];
      TimesNeverDecrease(spans, order, StopPos(spans, order, steps - 1), |order| - 1);
    }
  }

  /** The CPU time is elapsed time weighted with the number of steps running, and so at least the busy
      time and, in a build that was never idle, at least the elapsed time. */
  lemma CpuTimeIsRunning(spans: seq<Span>, order: seq<Mark>)
    requires Schedule(spans, order) && Forward(spans) && spans != []
    ensures CpuTime(spans) == RunningTime(spans, order, |order| - 1) >= Busy(spans, order, |order| - 1)
  {
    assert spans[..|spans|] == spans;
    AllCovered(spans, order, |spans|);
    CoveredIsRunning(spans, order, |order| - 1);
    BusyIsLess(spans, order, |order| - 1);
  }

  lemma {:induction false} BusyIsLess(spans: seq<Span>, order: seq<Mark>, i: nat)
    requires Schedule(spans, order) && i < |order|
    ensures Busy(spans, order, i) <= RunningTime(spans, order, i)
  {
    if i > 0 {
      BusyIsLess(spans, order, i - 1);
      TimesNeverDecrease(spans, order, i - 1, i);
      var a, b := At(spans, order, i - 1), At(spans, order, i);
      AtLeastOnce(|Running(spans, a, b)|, b - a);
    }
  }

  lemma AtLeastOnce(n: nat, x: real)
    requires x >= 0.0
    ensures n as real * x >= if n == 0 then 0.0 else x
  {
    if n > 0 { assert (n as real - 1.0) * x >= 0.0; }
  }

  // ---------------------------------------------------------------- the code

  method CollectEvents(entries: seq<Target>)
    returns (events: seq<Event>, ghost order: seq<Mark>, earliest: real, latest: real, totalCpuTime: real)
    ensures RecordsAll(events, order, entries) && AllMarks(order, |entries|)
    ensures earliest == Earliest(Spans(entries)) && latest == Latest(Spans(entries))
    ensures totalCpuTime == CpuTime(Spans(entries))
  {
    events, order, earliest, latest, totalCpuTime := [], [], -1.0, 0.0, 0.0;
    ghost var spans := Spans(entries);
    for k := 0 to |entries|
      invariant RecordsAll(events, order, entries) && AllMarks(order, k)
      invariant earliest == Earliest(spans[..k]) && latest == Latest(spans[..k])
      invariant totalCpuTime == CpuTime(spans[..k])
    {
      var target := entries[k];
      assert spans[..k + 1][..k] == spans[..k];
      if earliest < 0.0 || target.start < earliest {
        earliest := target.start;
      }
      if target.end > latest {
        latest := target.end;
      }
      totalCpuTime := totalCpuTime + target.Duration();
      MoreMarks(order, k);
      events := events + [Event(target.start, Start, target)] + [Event(target.end, Stop, target)];
      order := order + [Begin(k)] + [Finish(k)];
    }
    assert spans[..|entries|] == spans;
  }

  lemma MoreMarks(order: seq<Mark>, n: nat)
    requires AllMarks(order, n)
    ensures AllMarks(order + [Begin(n)] + [Finish(n)], n + 1)
  {
    var more := order + [Begin(n)] + [Finish(n)];
    forall i, j | 0 <= i < j < |more| ensures !Repeats(more, i, j) {
      if j < |order| { assert !Repeats(order, i, j); }
    }
    assert more[|order|] == Begin(n) && more[|order| + 1] == Finish(n);
    forall k: nat | k < n ensures Begin(k) in more && Finish(k) in more {
      assert Begin(k) in order && Finish(k) in order;
    }
  }

  ghost predicate Sorted(events: seq<Event>) {
    forall i, j {:trigger EventLe(events[i], events[j])} :: 0 <= i < j < |events| ==> EventLe(events[i], events[j])
  }

  /** A sort by (time, kind) that ignores the target, as insertion into a sorted prefix. */
  method SortEvents(entries: seq<Target>, events: seq<Event>, ghost order: seq<Mark>)
    returns (sorted: seq<Event>, ghost sortedOrder: seq<Mark>)
    requires RecordsAll(events, order, entries) && AllMarks(order, |entries|)
    ensures RecordsAll(sorted, sortedOrder, entries) && AllMarks(sortedOrder, |entries|)
    ensures Sorted(sorted)
  {
    sorted, sortedOrder := [], [];
    for m := 0 to |events|
      invariant RecordsAll(sorted, sortedOrder, entries) && Rearranges(sortedOrder, order[..m])
      invariant Sorted(sorted)
    {
      var e, at := events[m], m;
      while at > 0 && !EventLe(sorted[at - 1], e)
        invariant 0 <= at <= m
        invariant forall i :: at <= i < m ==> !EventLe(sorted[i], e)
      {
        at := at - 1;
      }
      InsertKeepsSorted(sorted, e, at);
      InsertRearranges(sortedOrder, order[..m], order[m], at);
      assert order[..m + 1] == order[..m] + [order[m]];
      sorted, sortedOrder := sorted[..at] + [e] + sorted[at..], sortedOrder[..at] + [order[m]] + sortedOrder[at..];
    }
    assert order[..|events|] == order;
    RearrangedMarks(sortedOrder, order, |entries|);
  }

  ghost predicate Rearranges(order: seq<Mark>, original: seq<Mark>) {
    |order| == |original| && multiset(order) == multiset(original)
  }

  lemma InsertRearranges(order: seq<Mark>, original: seq<Mark>, m: Mark, at: nat)
    requires Rearranges(order, original) && at <= |order|
    ensures Rearranges(order[..at] + [m] + order[at..], original + [m])
  {
    assert order == order[..at] + order[at..];
  }

  lemma RepeatsTwice(order: seq<Mark>, i: nat, j: nat)
    requires i < j < |order| && Repeats(order, i, j)
    ensures multiset(order)[order[i]] >= 2
  {
    assert order == order[..j] + [order[j]] + order[j + 1..];
    assert order[..j][i] == order[i];
  }

  lemma {:induction false} OnceIfDistinct(order: seq<Mark>, m: Mark)
    requires Distinct(order)
    ensures multiset(order)[m] <= 1
  {
    if order != [] {
      var init, last := order[..|order| - 1], |order| - 1;
      assert order == init + [order[last]];
      forall i, j | 0 <= i < j < |init| ensures !Repeats(init, i, j) { assert !Repeats(order, i, j); }
      OnceIfDistinct(init, m);
      assert forall i :: 0 <= i < last ==> !Repeats(order, i, last) && init[i] == order[i];
      assert m == order[last] ==> m !in init;
    }
  }

  lemma RearrangedMarks(order: seq<Mark>, original: seq<Mark>, n: nat)
    requires Rearranges(order, original) && AllMarks(original, n)
    ensures AllMarks(order, n)
  {
    forall i, j | 0 <= i < j < |order| ensures !Repeats(order, i, j) {
      if Repeats(order, i, j) {
        RepeatsTwice(order, i, j);
        OnceIfDistinct(original, order[i]);
      }
    }
    forall i | 0 <= i < |order| ensures order[i].step < n {
      assert order[i] in multiset(original);
    }
    forall k: nat | k < n ensures Begin(k) in order && Finish(k) in order {
      assert Begin(k) in original && Finish(k) in original;
      assert Begin(k) in multiset(original) && Finish(k) in multiset(original);
    }
  }

  lemma InsertKeepsSorted(sorted: seq<Event>, e: Event, at: nat)
    requires Sorted(sorted) && at <= |sorted|
    requires at > 0 ==> EventLe(sorted[at - 1], e)
    requires forall i :: at <= i < |sorted| ==> !EventLe(sorted[i], e)
    ensures Sorted(sorted[..at] + [e] + sorted[at..])
  {
    var longer := sorted[..at] + [e] + sorted[at..];
    forall i, j | 0 <= i < j < |longer| ensures EventLe(longer[i], longer[j]) {
      var i', j' := if i < at then i else i - 1, if j < at then j else j - 1;
      if i != at && j != at {
        assert EventLe(sorted[i'], sorted[j']);
      } else if j == at && i < at - 1 {
        assert EventLe(sorted[i], sorted[at - 1]);
      }
    }
  }

  lemma SortedIsSchedule(entries: seq<Target>, spans: seq<Span>, sorted: seq<Event>, order: seq<Mark>)
    requires RecordsAll(sorted, order, entries) && AllMarks(order, |entries|)
    requires Sorted(sorted) && Describes(spans, entries)
    ensures Schedule(spans, order)
  {
    forall i, j | 0 <= i < j < |order| ensures KeyLe(spans, order[i], order[j]) {
      assert EventLe(sorted[i], sorted[j]);
      assert Records(sorted[i], order[i], entries) && Records(sorted[j], order[j], entries);
    }
  }

  /** The spans of the steps, as a value: steps keep their times for ever. */
  ghost predicate Describes(spans: seq<Span>, entries: seq<Target>) {
    && |spans| == |entries|
    && (forall k :: 0 <= k < |spans| ==> spans[k] == Span(entries[k].start, entries[k].end))
  }

  /** The dictionary holds, for each open step, the weighted time at which it started. */
  ghost predicate Tracks(entries: seq<Target>, spans: seq<Span>, order: seq<Mark>, i: nat, running: map<Target, real>)
    requires Schedule(spans, order) && |spans| == |entries|
  {
    && |running| == |Open(spans, order, i)|
    && (forall k {:trigger entries[k] in running} :: 0 <= k < |spans| ==>
          if IsOpen(spans, order, k, i)
          then entries[k] in running && running[entries[k]] == Accumulated(spans, order, StartPos(spans, order, k))
          else entries[k] !in running)
  }

  ghost predicate ForwardBefore(spans: seq<Span>, order: seq<Mark>, i: nat)
    requires Schedule(spans, order)
  {
    forall k {:trigger StopPos(spans, order, k)} :: 0 <= k < |spans| && StopPos(spans, order, k) < i ==>
      spans[k].start <= spans[k].end
  }

  /** One event changes the open steps by the step it starts or stops. */
  lemma OpenStep(spans: seq<Span>, order: seq<Mark>, i: nat)
    requires Schedule(spans, order) && i < |order| && ForwardBefore(spans, order, i)
    requires order[i].Finish? ==> IsOpen(spans, order, order[i].step, i)
    ensures
      var k := order[i].step;
      && IsOpen(spans, order, k, i + 1) == order[i].Begin?
      && IsOpen(spans, order, k, i) == order[i].Finish?
      && (forall j {:trigger IsOpen(spans, order, j, i + 1)} :: 0 <= j < |spans| && j != k ==>
            IsOpen(spans, order, j, i + 1) == IsOpen(spans, order, j, i))
      && |Open(spans, order, i + 1)| == |Open(spans, order, i)| + if order[i].Begin? then 1 else -1
  {
    var k := order[i].step;
    StopFollowsStart(spans, order, k);
    EventPos(spans, order, i);
    forall j: nat | j < |spans| && j != k
      ensures IsOpen(spans, order, j, i + 1) == IsOpen(spans, order, j, i)
    {
      assert order[StartPos(spans, order, j)] != order[i] && order[StopPos(spans, order, j)] != order[i];
    }
    if order[i].Begin? {
      assert Open(spans, order, i + 1) == Open(spans, order, i) + {k};
    } else {
      assert Open(spans, order, i + 1) == Open(spans, order, i) - {k};
    }
  }

  lemma TracksStart(entries: seq<Target>, spans: seq<Span>, order: seq<Mark>, i: nat,
                    running: map<Target, real>, w: real)
    requires Distinct(entries) && |spans| == |entries| && Schedule(spans, order)
    requires Tracks(entries, spans, order, i, running)
    requires i < |order| && order[i].Begin? && ForwardBefore(spans, order, i)
    requires w == Accumulated(spans, order, i)
    ensures Tracks(entries, spans, order, i + 1, running[entries[order[i].step] := w])
  {
    var k := order[i].step;
    OpenStep(spans, order, i);
    EventPos(spans, order, i);
    DifferentSteps(entries, k);
    assert entries[k] !in running;
    var more := running[entries[k] := w];
    assert more.Keys == running.Keys + {entries[k]};
    assert |more.Keys| == |running.Keys| + 1;
    assert forall j :: 0 <= j < |spans| && j != k ==> (entries[j] in more <==> entries[j] in running);
  }

  lemma TracksStop(entries: seq<Target>, spans: seq<Span>, order: seq<Mark>, i: nat, running: map<Target, real>)
    requires Distinct(entries) && |spans| == |entries| && Schedule(spans, order)
    requires Tracks(entries, spans, order, i, running)
    requires i < |order| && order[i].Finish? && ForwardBefore(spans, order, i)
    requires entries[order[i].step] in running
    ensures Tracks(entries, spans, order, i + 1, running - {entries[order[i].step]})
  {
    var k := order[i].step;
    OpenStep(spans, order, i);
    DifferentSteps(entries, k);
    var fewer := running - {entries[k]};
    assert fewer.Keys == running.Keys - {entries[k]};
    assert |fewer.Keys| == |running.Keys| - 1;
    assert forall j :: 0 <= j < |spans| && j != k ==> (entries[j] in fewer <==> entries[j] in running);
  }

  lemma ForwardStep(spans: seq<Span>, order: seq<Mark>, i: nat)
    requires Schedule(spans, order) && i < |order| && ForwardBefore(spans, order, i)
    requires order[i].Finish? ==> IsOpen(spans, order, order[i].step, i)
    ensures ForwardBefore(spans, order, i + 1)
  {
    StoppedStep(spans, order, i);
    StopFollowsStart(spans, order, order[i].step);
  }

  /** A stop whose step is not running belongs to a step that stops before it starts. */
  lemma MissingIsBackward(entries: seq<Target>, spans: seq<Span>, order: seq<Mark>, i: nat, running: map<Target, real>)
    requires Distinct(entries) && |spans| == |entries| && Schedule(spans, order)
    requires Tracks(entries, spans, order, i, running)
    requires i < |order| && order[i].Finish? && entries[order[i].step] !in running
    ensures !Forward(spans)
  {
    var k := order[i].step;
    assert entries[k] !in running;
    EventPos(spans, order, i);
    StopFollowsStart(spans, order, k);
  }

  /** The total of the shares of the first `steps` steps that have stopped before event i. */
  ghost function StoppedShares(spans: seq<Span>, order: seq<Mark>, steps: nat, i: nat): real
    requires Schedule(spans, order) && steps <= |spans|
  {
    if steps == 0 then 0.0
    else
      StoppedShares(spans, order, steps - 1, i) +
      if StopPos(spans, order, steps - 1) < i then Share(spans, order, steps - 1) else 0.0
  }

  lemma {:induction false} StoppedSharesStep(spans: seq<Span>, order: seq<Mark>, steps: nat, i: nat)
    requires Schedule(spans, order) && steps <= |spans| && i < |order|
    ensures
      StoppedShares(spans, order, steps, i + 1) ==
      StoppedShares(spans, order, steps, i) +
      if order[i].Finish? && order[i].step < steps then Share(spans, order, order[i].step) else 0.0
  {
    if steps > 0 {
      StoppedSharesStep(spans, order, steps - 1, i);
      var p := StopPos(spans, order, steps - 1);
      EventPos(spans, order, i);
      assert p == i <==> order[i].Finish? && order[i].step == steps - 1;
    }
  }

  lemma {:induction false} AllStopped(spans: seq<Span>, order: seq<Mark>, steps: nat, end: nat)
    requires Schedule(spans, order) && steps <= |spans| && spans != [] && end == |order|
    ensures StoppedShares(spans, order, steps, 0) == 0.0
    ensures StoppedShares(spans, order, steps, end) == SharesUpTo(spans, order, steps, |order| - 1)
    ensures forall k :: 0 <= k < |spans| ==> StopPos(spans, order, k) < end
  {
    if steps > 0 { AllStopped(spans, order, steps - 1, end); }
  }

  /** After event i, exactly the steps that had stopped, and the one it stops, have stopped. */
  lemma StoppedStep(spans: seq<Span>, order: seq<Mark>, i: nat)
    requires Schedule(spans, order) && i < |order|
    ensures order[i].step < |spans|
    ensures forall k :: 0 <= k < |spans| ==>
      (StopPos(spans, order, k) < i + 1 <==>
       StopPos(spans, order, k) < i || (order[i].Finish? && k == order[i].step))
  {
    EventPos(spans, order, i);
  }

  /** What the loop's scalars hold before event i. */
  ghost predicate Clock(spans: seq<Span>, order: seq<Mark>, i: nat, lastTime: real, lastWeightedTime: real)
    requires Schedule(spans, order) && i <= |order| && order != []
  {
    if i == 0 then lastTime == At(spans, order, 0) && lastWeightedTime == 0.0
    else lastTime == At(spans, order, i - 1) && lastWeightedTime == Accumulated(spans, order, i - 1)
  }

  lemma ClockStep(spans: seq<Span>, order: seq<Mark>, i: nat, time: real, lastTime: real, last: real, numRunning: nat)
    requires Schedule(spans, order) && i < |order| && Clock(spans, order, i, lastTime, last)
    requires numRunning == |Open(spans, order, i)| && time == At(spans, order, i)
    ensures Accumulated(spans, order, i) == Advance(last, lastTime, time, numRunning)
  {
    if i == 0 {
      assert Open(spans, order, 0) == {};
    }
  }

  /** What the code computes when event i stops a step is the step's share. */
  lemma StopGivesShare(spans: seq<Span>, order: seq<Mark>, i: nat, k: nat, now: real, started: real)
    requires Schedule(spans, order) && i < |order| && order[i].Finish? && k == order[i].step < |spans|
    requires spans[k].start <= spans[k].end
    requires now == Accumulated(spans, order, i) && started == Accumulated(spans, order, StartPos(spans, order, k))
    ensures now - started == Share(spans, order, k)
  {
    EventPos(spans, order, i);
    SweepIsIntegral(spans, order, k);
  }

  /** What is known before event i: the running steps, the clock, and the total of the weighted
      durations already set. */
  ghost predicate Swept(entries: seq<Target>, spans: seq<Span>, order: seq<Mark>, i: nat,
                        running: map<Target, real>, lastTime: real, lastWeightedTime: real, total: real)
    requires Schedule(spans, order) && |spans| == |entries| && i <= |order| && order != []
  {
    && ForwardBefore(spans, order, i)
    && Tracks(entries, spans, order, i, running)
    && Clock(spans, order, i, lastTime, lastWeightedTime)
    && total == StoppedShares(spans, order, |spans|, i)
  }

  /** Whether event i is the start or the stop of its step, as the code sees it. */
  ghost predicate Reads(entries: seq<Target>, spans: seq<Span>, order: seq<Mark>, i: nat, event: Event)
    requires Schedule(spans, order) && |spans| == |entries| && i < |order|
  {
    && event.time == At(spans, order, i)
    && event.target == entries[order[i].step]
    && (event.kind == Start <==> order[i].Begin?)
  }

  lemma SweptStart(entries: seq<Target>, spans: seq<Span>, order: seq<Mark>, i: nat,
                   running: map<Target, real>, lastTime: real, last: real, total: real, event: Event, now: real)
    requires Distinct(entries) && Schedule(spans, order) && |spans| == |entries| && i < |order|
    requires Swept(entries, spans, order, i, running, lastTime, last, total)
    requires Reads(entries, spans, order, i, event) && event.kind == Start
    requires now == Advance(last, lastTime, event.time, |running|)
    ensures Swept(entries, spans, order, i + 1, running[event.target := now], event.time, now, total)
  {
    ClockStep(spans, order, i, event.time, lastTime, last, |running|);
    TracksStart(entries, spans, order, i, running, now);
    ForwardStep(spans, order, i);
    StoppedSharesStep(spans, order, |spans|, i);
  }

  lemma SweptStop(entries: seq<Target>, spans: seq<Span>, order: seq<Mark>, i: nat,
                  running: map<Target, real>, lastTime: real, last: real, total: real, event: Event,
                  now: real, duration: real)
    requires Distinct(entries) && Schedule(spans, order) && |spans| == |entries| && i < |order|
    requires Swept(entries, spans, order, i, running, lastTime, last, total)
    requires Reads(entries, spans, order, i, event) && event.kind == Stop
    requires now == Advance(last, lastTime, event.time, |running|)
    requires event.target in running && duration == now - running[event.target]
    ensures Swept(entries, spans, order, i + 1, running - {event.target}, event.time, now, total + duration)
    ensures duration == Share(spans, order, order[i].step)
  {
    var k := order[i].step;
    assert entries[k] in running;
    ClockStep(spans, order, i, event.time, lastTime, last, |running|);
    TracksStop(entries, spans, order, i, running);
    ForwardStep(spans, order, i);
    StopFollowsStart(spans, order, k);
    StopGivesShare(spans, order, i, k, now, running[event.target]);
    StoppedSharesStep(spans, order, |spans|, i);
  }

  lemma ReadRecord(entries: seq<Target>, spans: seq<Span>, events: seq<Event>, order: seq<Mark>, i: nat)
    requires Schedule(spans, order) && Describes(spans, entries) && RecordsAll(events, order, entries) && i < |order|
    ensures Reads(entries, spans, order, i, events[i]) && events[i].target in entries
  {
    assert Records(events[i], order[i], entries);
  }

  lemma SweptAtStart(entries: seq<Target>, spans: seq<Span>, order: seq<Mark>, time: real)
    requires Schedule(spans, order) && |spans| == |entries| && order != [] && time == At(spans, order, 0)
    ensures Swept(entries, spans, order, 0, map[], time, 0.0, 0.0)
  {
    AllStopped(spans, order, |spans|, |order|);
    assert Open(spans, order, 0) == {};
  }

  /** Every step that stopped before event i carries its share. */
  ghost predicate Recorded(entries: seq<Target>, spans: seq<Span>, order: seq<Mark>, i: nat)
    requires Schedule(spans, order) && |spans| == |entries|
    reads set t | t in entries
  {
    forall k {:trigger StopPos(spans, order, k)} :: 0 <= k < |spans| && StopPos(spans, order, k) < i ==>
      entries[k].weightedDuration == Share(spans, order, k)
  }

  lemma SweptAll(entries: seq<Target>, spans: seq<Span>, order: seq<Mark>, end: nat,
                 running: map<Target, real>, lastTime: real, last: real, total: real)
    requires Schedule(spans, order) && |spans| == |entries| && end == |order| && order != []
    requires Swept(entries, spans, order, end, running, lastTime, last, total)
    requires Recorded(entries, spans, order, end)
    ensures Forward(spans)
    ensures forall k :: 0 <= k < |spans| ==> entries[k].weightedDuration == Share(spans, order, k)
    ensures total == Shares(spans, order)
    ensures |running| == 0
  {
    AllStopped(spans, order, |spans|, end);
    forall k | 0 <= k < |spans|
      ensures spans[k].start <= spans[k].end
      ensures entries[k].weightedDuration == Share(spans, order, k)
    {
      assert StopPos(spans, order, k) < end;
    }
    assert Open(spans, order, end) == {};
  }

  /** The body of the sweep's loop.  `ok` is false when a stop finds its step not running,
      which the code reports as a missing dictionary key. */
  method HandleEvent(entries: seq<Target>, ghost spans: seq<Span>, ghost order: seq<Mark>, ghost i: nat,
                     ghost events: seq<Event>, event: Event, running: map<Target, real>, lastTime: real,
                     lastWeightedTime: real, weightedTotal: real)
    returns (ok: bool, running': map<Target, real>, lastWeightedTime': real, weightedTotal': real)
    requires Distinct(entries) && Schedule(spans, order) && |spans| == |entries| && i < |order|
    requires Swept(entries, spans, order, i, running, lastTime, lastWeightedTime, weightedTotal)
    requires Describes(spans, entries) && RecordsAll(events, order, entries) && event == events[i]
    requires Recorded(entries, spans, order, i)
    modifies event.target`weightedDuration
    ensures !ok ==> !Forward(spans)
    ensures ok ==> Recorded(entries, spans, order, i + 1)
    ensures ok ==>
      Swept(entries, spans, order, i + 1, running', event.time, lastWeightedTime', weightedTotal')
    ensures event.kind == Start ==> event.target.weightedDuration == old(event.target.weightedDuration)
    ensures event.kind == Stop && ok ==> event.target.weightedDuration == Share(spans, order, order[i].step)
  {
    ReadRecord(entries, spans, events, order, i);
    StoppedStep(spans, order, i);
    ok, running', lastWeightedTime', weightedTotal' := true, running, lastWeightedTime, weightedTotal;
    ghost var now := Advance(lastWeightedTime, lastTime, event.time, |running|);
    var numRunning := |running|;
    if numRunning > 0 {
      lastWeightedTime' := lastWeightedTime + PerStep(event.time - lastTime, numRunning);
    }
    assert lastWeightedTime' == now;
    if event.kind == Start {
      SweptStart(entries, spans, order, i, running, lastTime, lastWeightedTime, weightedTotal, event, now);
      running' := running[event.target := lastWeightedTime'];
    } else {
      if event.target !in running {
        MissingIsBackward(entries, spans, order, i, running);
        ok := false;
        return;
      }
      var weightedDuration := lastWeightedTime' - running[event.target];
      SweptStop(entries, spans, order, i, running, lastTime, lastWeightedTime, weightedTotal,
                event, now, weightedDuration);
      DifferentSteps(entries, order[i].step);
      event.target.SetWeightedDuration(weightedDuration);
      weightedTotal' := weightedTotal + weightedDuration;
      running' := running - {event.target};
    }
  }

  /** The sweep.  Its closing assertion, that no step is left running, always holds. */
  method Sweep(entries: seq<Target>, events: seq<Event>, ghost spans: seq<Span>, ghost order: seq<Mark>)
    returns (ok: bool, weightedTotal: real)
    requires entries != [] && Distinct(entries) && Describes(spans, entries)
    requires Schedule(spans, order) && RecordsAll(events, order, entries)
    modifies (set t | t in entries)`weightedDuration
    ensures ok <==> Forward(spans)
    ensures ok ==> forall k :: 0 <= k < |entries| ==> entries[k].weightedDuration == Share(spans, order, k)
    ensures ok ==> weightedTotal == Shares(spans, order)
  {
    var running: map<Target, real> := map[];
    var lastTime := events[0].time;
    var lastWeightedTime := 0.0;
    ok, weightedTotal := true, 0.0;
    ReadRecord(entries, spans, events, order, 0);
    SweptAtStart(entries, spans, order, lastTime);
    for i := 0 to |events|
      invariant Swept(entries, spans, order, i, running, lastTime, lastWeightedTime, weightedTotal)
      invariant Recorded(entries, spans, order, i)
    {
      assert events[i].target in entries by { ReadRecord(entries, spans, events, order, i); }
      ok, running, lastWeightedTime, weightedTotal :=
        HandleEvent(entries, spans, order, i, events, events[i], running, lastTime, lastWeightedTime, weightedTotal);
      if !ok {
        return;
      }
      lastTime := events[i].time;
    }
    SweptAll(entries, spans, order, |events|, running, lastTime, lastWeightedTime, weightedTotal);
    assert |running| == 0;
    ok := true;
  }

  datatype Summary =
    | Summary(length: real, totalCpuTime: real, weightedTotal: real, suspicious: bool)
    | IndexError
    | KeyError

  /** Sets every step's weighted duration to its share, or fails exactly when there is no step
      or some step stops before it starts.  The answer is the same for every order of tied
      events. */
  method SummarizeEntries(entries: seq<Target>) returns (summary: Summary)
    requires Distinct(entries)
    modifies (set t | t in entries)`weightedDuration
    ensures forall t :: t in entries ==> t.targets == old(t.targets)
    ensures summary.IndexError? <==> entries == []
    ensures summary.KeyError? <==> entries != [] && !Forward(Spans(entries))
    ensures summary.Summary? ==> forall order :: Schedule(Spans(entries), order) ==>
      && (forall k :: 0 <= k < |entries| ==> entries[k].weightedDuration == Share(Spans(entries), order, k))
      && summary.weightedTotal == Busy(Spans(entries), order, |order| - 1)
      && summary.totalCpuTime == RunningTime(Spans(entries), order, |order| - 1)
    ensures summary.Summary? ==> forall t :: t in entries ==> 0.0 <= t.weightedDuration <= t.Duration()
    ensures summary.Summary? ==>
      && summary.length == Latest(Spans(entries)) - Earliest(Spans(entries))
      && summary.totalCpuTime == CpuTime(Spans(entries))
    ensures summary.Summary? ==>
      (summary.suspicious <==>
       summary.length - summary.weightedTotal > 500.0 || summary.weightedTotal - summary.length > 500.0)
    ensures summary.Summary? && FindsEarliest(Spans(entries)) ==> summary.weightedTotal <= summary.length
  {
    var unsorted, earliest, latest, totalCpuTime; ghost var unsortedOrder;
    unsorted, unsortedOrder, earliest, latest, totalCpuTime := CollectEvents(entries);
    var length := latest - earliest;
    if entries == [] {
      return IndexError;
    }
    var events; ghost var order;
    events, order := SortEvents(entries, unsorted, unsortedOrder);
    SortedIsSchedule(entries, Spans(entries), events, order);
    var ok, weightedTotal := Sweep(entries, events, Spans(entries), order);
    if !ok {
      return KeyError;
    }
    ghost var spans := Spans(entries);
    forall other, k | Schedule(spans, other) && 0 <= k < |spans|
      ensures entries[k].weightedDuration == Share(spans, other, k)
    {
      ShareIgnoresTies(spans, order, other, k);
    }
    forall other | Schedule(spans, other)
      ensures weightedTotal == Busy(spans, other, |other| - 1)
      ensures totalCpuTime == RunningTime(spans, other, |other| - 1)
    {
      SharesIgnoreTies(spans, order, other, |spans|);
      Conservation(spans, other);
      CpuTimeIsRunning(spans, other);
    }
    forall t | t in entries ensures 0.0 <= t.weightedDuration <= t.Duration() {
      var k :| 0 <= k < |entries| && entries[k] == t;
      ShareWithinDuration(spans, order, k);
      assert spans[k] == Span(t.start, t.end);
    }
    var gap := length - weightedTotal;
    if FindsEarliest(spans) { WeightedTotalWithinLength(spans, order); }
    summary := Summary(length, totalCpuTime, weightedTotal, (if gap < 0.0 then -gap else gap) > 500.0);
  }

  lemma {:induction false} SharesIgnoreTies(spans: seq<Span>, order: seq<Mark>, other: seq<Mark>, steps: nat)
    requires Schedule(spans, order) && Schedule(spans, other) && spans != [] && steps <= |spans|
    ensures SharesUpTo(spans, order, steps, |order| - 1) == SharesUpTo(spans, other, steps, |other| - 1)
  {
    if steps > 0 {
      SharesIgnoreTies(spans, order, other, steps - 1);
      ShareIgnoresTies(spans, order, other, steps - 1);
    }
  }
}
