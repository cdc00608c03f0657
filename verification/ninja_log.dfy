/** The reader of the ninja log: it groups lines into build steps by command hash and, in
    its default mode, forgets everything before the last build it detects. */
module NinjaLog {
  import opened Common
  import opened NinjaSummary

  /** What a complete line says, with its times in seconds. */
  datatype Rec = Rec(start: real, end: real, name: string, hash: string)

  /** A line has its times in milliseconds; one that does not have five fields is silently skipped. */
  datatype Line = Corrupt | Complete(start: int, end: int, name: string, hash: string)

  function Seconds(ms: int): real { ms as real / 1000.0 }

  function ReadRec(line: Line): Rec
    requires line.Complete?
  {
    Rec(Seconds(line.start), Seconds(line.end), line.name, line.hash)
  }

  function Recs(lines: seq<Line>): seq<Rec> {
    if lines == [] then []
    else
      var init, last := Recs(lines[..|lines| - 1]), lines[|lines| - 1];
      if last.Corrupt? then init else init + [ReadRec(last)]
  }

  // ---------------------------------------------------------------- builds

  /** One command that ran at two different times ran in two different builds. */
  predicate Conflict(x: Rec, y: Rec) {
    x.hash == y.hash && (x.start != y.start || x.end != y.end)
  }

  /** Lines that may come from one build: end times never go back, and no command ran twice. */
  ghost predicate OneBuild(recs: seq<Rec>) {
    forall i, j :: 0 <= i < j < |recs| ==> Agree(recs, i, j)
  }

  ghost predicate Agree(recs: seq<Rec>, i: nat, j: nat)
    requires i < j < |recs|
  {
    recs[i].end <= recs[j].end && !Conflict(recs[i], recs[j])
  }

  /** The line read after `build` starts a new build. */
  predicate Resets(build: seq<Rec>, next: Rec) {
    build != [] &&
    (next.end < build[|build| - 1].end || exists i :: 0 <= i < |build| && Conflict(build[i], next))
  }

  /** The lines of the last build, as the reader detects builds line by line. */
  function LastBuild(recs: seq<Rec>): seq<Rec> {
    if recs == [] then []
    else
      var build, next := LastBuild(recs[..|recs| - 1]), recs[|recs| - 1];
      if Resets(build, next) then [next] else build + [next]
  }

  lemma ResetIffNotOneBuild(build: seq<Rec>, next: Rec)
    requires OneBuild(build)
    ensures Resets(build, next) <==> !OneBuild(build + [next])
  {
    var longer, n: nat := build + [next], |build|;
    if Resets(build, next) {
      if next.end < build[n - 1].end {
        assert !Agree(longer, n - 1, n);
      } else {
        var i: nat :| i < n && Conflict(build[i], next);
        assert !Agree(longer, i, n);
      }
    } else {
      forall i, j | 0 <= i < j < |longer| ensures Agree(longer, i, j) {
        if j < n {
          assert Agree(build, i, j);
        } else if i < n - 1 {
          assert Agree(build, i, n - 1);
        }
      }
    }
  }

  /** What the reader keeps is a final stretch of the log, and could be one build. */
  lemma {:induction false} LastBuildIsOneBuild(recs: seq<Rec>)
    ensures OneBuild(LastBuild(recs))
    ensures |LastBuild(recs)| <= |recs| && LastBuild(recs) == recs[|recs| - |LastBuild(recs)|..]
    ensures recs != [] ==> LastBuild(recs) != []
  {
    if recs != [] {
      var init := recs[..|recs| - 1];
      LastBuildIsOneBuild(init);
      ResetIffNotOneBuild(LastBuild(init), recs[|recs| - 1]);
      assert recs == init + [recs[|recs| - 1]];
    }
  }

  // ---------------------------------------------------------------- builds, declaratively

  /** The log cut into builds, each carried on for as long as it could be one build. */
  ghost predicate Builds(builds: seq<seq<Rec>>) {
    && (forall i :: 0 <= i < |builds| ==> builds[i] != [] && OneBuild(builds[i]))
    && (forall i {:trigger EndsWhenItMust(builds, i)} :: 0 <= i < |builds| - 1 ==> EndsWhenItMust(builds, i))
  }

  ghost predicate EndsWhenItMust(builds: seq<seq<Rec>>, i: nat)
    requires i + 1 < |builds|
  {
    builds[i + 1] != [] && !OneBuild(builds[i] + [builds[i + 1][0]])
  }

  /** However the log is cut into such builds, the last one is what the reader keeps. */
  lemma {:induction false} LastBuildIsLast(builds: seq<seq<Rec>>)
    requires Builds(builds) && builds != []
    ensures LastBuild(Flatten(builds)) == builds[|builds| - 1]
    decreases |Flatten(builds)|
  {
    var n := |builds| - 1;
    var earlier, last := builds[..n], builds[n];
    var init, next := last[..|last| - 1], last[|last| - 1];
    assert last == init + [next] && builds == earlier + [last];
    if init == [] {
      if earlier != [] {
        EarlierBuilds(builds);
        LastBuildIsLast(earlier);
      }
      LoneLine(Flatten(earlier), next);
    } else {
      ShorterBuilds(builds);
      FlattenShorter(earlier, init, next);
      LastBuildIsLast(earlier + [init]);
      LongerBuild(earlier, init, next);
    }
  }

  /** The last build goes on with the next line as long as that could be one build. */
  lemma LongerBuild(earlier: seq<seq<Rec>>, init: seq<Rec>, next: Rec)
    requires LastBuild(Flatten(earlier + [init])) == init && OneBuild(init) && OneBuild(init + [next])
    ensures LastBuild(Flatten(earlier + [init + [next]])) == init + [next]
  {
    FlattenShorter(earlier, init, next);
    ResetIffNotOneBuild(init, next);
  }

  lemma LoneLine(recs: seq<Rec>, x: Rec)
    requires OneBuild(LastBuild(recs)) && (recs != [] ==> !OneBuild(LastBuild(recs) + [x]))
    ensures LastBuild(recs + [x]) == [x]
  {
    assert (recs + [x])[..|recs|] == recs;
    ResetIffNotOneBuild(LastBuild(recs), x);
  }

  lemma FlattenShorter(earlier: seq<seq<Rec>>, init: seq<Rec>, next: Rec)
    ensures Flatten(earlier + [init + [next]]) == Flatten(earlier + [init]) + [next]
    ensures LastBuild(Flatten(earlier + [init]) + [next]) ==
      var build := LastBuild(Flatten(earlier + [init])); if Resets(build, next) then [next] else build + [next]
  {
    assert (earlier + [init])[..|earlier|] == earlier;
    assert (earlier + [init + [next]])[..|earlier|] == earlier;
    var recs := Flatten(earlier + [init]);
    assert (recs + [next])[..|recs|] == recs;
  }

  lemma EarlierBuilds(builds: seq<seq<Rec>>)
    requires Builds(builds) && builds != []
    ensures
      var n := |builds| - 1;
      && Builds(builds[..n])
      && (n > 0 ==>
            && OneBuild(builds[n - 1]) && !OneBuild(builds[n - 1] + [builds[n][0]])
            && builds[..n][n - 1] == builds[n - 1])
  {
    var n := |builds| - 1;
    forall i | 0 <= i < n - 1 ensures EndsWhenItMust(builds[..n], i) {
      assert EndsWhenItMust(builds, i);
    }
    assert n > 0 ==> EndsWhenItMust(builds, n - 1);
  }

  lemma ShorterBuilds(builds: seq<seq<Rec>>)
    requires Builds(builds) && builds != [] && |builds[|builds| - 1]| > 1
    ensures
      var n := |builds| - 1;
      Builds(builds[..n] + [builds[n][..|builds[n]| - 1]]) && OneBuild(builds[n][..|builds[n]| - 1])
  {
    var n := |builds| - 1;
    var last := builds[n];
    var init := last[..|last| - 1];
    forall i, j | 0 <= i < j < |init| ensures Agree(init, i, j) {
      assert Agree(last, i, j);
    }
    var shorter := builds[..n] + [init];
    forall i | 0 <= i < |shorter| - 1 ensures EndsWhenItMust(shorter, i) {
      assert EndsWhenItMust(builds, i);
      assert shorter[i + 1][0] == builds[i + 1][0];
    }
  }

  /** The cut itself: a line opens a new build exactly when it could not belong to the last one. */
  function Cut(recs: seq<Rec>): (builds: seq<seq<Rec>>)
    ensures recs != [] ==> builds != []
  {
    if recs == [] then []
    else
      var init, next := Cut(recs[..|recs| - 1]), recs[|recs| - 1];
      if init == [] || Resets(init[|init| - 1], next) then init + [[next]]
      else init[..|init| - 1] + [init[|init| - 1] + [next]]
  }

  lemma FlattenAppend<T>(pieces: seq<seq<T>>, last: seq<T>)
    ensures Flatten(pieces + [last]) == Flatten(pieces) + last
  {
    assert (pieces + [last])[..|pieces|] == pieces;
  }

  /** A cut may go on with another build where the last one had to end. */
  lemma BuildsAppend(builds: seq<seq<Rec>>, last: seq<Rec>)
    requires Builds(builds) && last != [] && OneBuild(last)
    requires builds != [] ==> !OneBuild(builds[|builds| - 1] + [last[0]])
    ensures Builds(builds + [last])
  {
    var longer, n := builds + [last], |builds|;
    forall i | 0 <= i < n ensures EndsWhenItMust(longer, i) {
      assert longer[i] == builds[i];
      if i < n - 1 {
        assert EndsWhenItMust(builds, i);
        assert longer[i + 1] == builds[i + 1];
      } else {
        assert longer[i + 1] == last;
      }
    }
  }

  lemma BuildsPrefix(builds: seq<seq<Rec>>, last: seq<Rec>)
    requires Builds(builds + [last])
    ensures Builds(builds) && last != [] && OneBuild(last)
    ensures builds != [] ==> !OneBuild(builds[|builds| - 1] + [last[0]])
  {
    var longer, n := builds + [last], |builds|;
    assert longer[n] == last && longer[..n] == builds;
    EarlierBuilds(longer);
  }

  lemma LoneIsOneBuild(next: Rec)
    ensures OneBuild([next])
  {
  }

  lemma NewBuild(builds: seq<seq<Rec>>, next: Rec)
    requires Builds(builds) && (builds != [] ==> !OneBuild(builds[|builds| - 1] + [next]))
    ensures Builds(builds + [[next]]) && Flatten(builds + [[next]]) == Flatten(builds) + [next]
  {
    LoneIsOneBuild(next);
    BuildsAppend(builds, [next]);
    FlattenAppend(builds, [next]);
  }

  lemma SameBuild(earlier: seq<seq<Rec>>, last: seq<Rec>, longer: seq<Rec>)
    requires Builds(earlier + [last]) && OneBuild(longer) && longer != [] && last != [] && longer[0] == last[0]
    ensures Builds(earlier + [longer])
  {
    BuildsPrefix(earlier, last);
    BuildsAppend(earlier, longer);
  }

  /** Every log can be cut so. */
  lemma {:induction false} CutIsBuilds(recs: seq<Rec>)
    ensures Builds(Cut(recs)) && Flatten(Cut(recs)) == recs
  {
    if recs != [] {
      var shorter, next := recs[..|recs| - 1], recs[|recs| - 1];
      CutIsBuilds(shorter);
      var init := Cut(shorter);
      assert recs == shorter + [next];
      if init == [] {
        NewBuild(init, next);
      } else {
        var last := init[|init| - 1];
        ResetIffNotOneBuild(last, next);
        if Resets(last, next) {
          NewBuild(init, next);
        } else {
          assert init == init[..|init| - 1] + [last];
          SameBuild(init[..|init| - 1], last, last + [next]);
          FlattenShorter(init[..|init| - 1], last, next);
        }
      }
    }
  }

  /** There is no other cut. */
  lemma {:induction false} CutsAreEqual(builds: seq<seq<Rec>>, others: seq<seq<Rec>>)
    requires Builds(builds) && Builds(others) && Flatten(builds) == Flatten(others)
    ensures builds == others
  {
    if builds == [] || others == [] {
      FlattenEmptyIff(builds);
      FlattenEmptyIff(others);
    } else {
      var b, o := |builds| - 1, |others| - 1;
      LastBuildIsLast(builds);
      LastBuildIsLast(others);
      assert builds[b] == others[o];
      SameFront(Flatten(builds[..b]), Flatten(others[..o]), builds[b]);
      EarlierBuilds(builds);
      EarlierBuilds(others);
      CutsAreEqual(builds[..b], others[..o]);
      assert builds == builds[..b] + [builds[b]] && others == others[..o] + [others[o]];
    }
  }

  lemma SameFront(a: seq<Rec>, b: seq<Rec>, tail: seq<Rec>)
    requires a + tail == b + tail
    ensures a == b
  {
    assert a == (a + tail)[..|a|] && b == (b + tail)[..|b|];
  }

  lemma FlattenEmptyIff(builds: seq<seq<Rec>>)
    requires Builds(builds)
    ensures Flatten(builds) == [] <==> builds == []
  {
    if builds != [] {
      assert builds[|builds| - 1] != [];
    }
  }

  /** One cut of the log and no other carries each build on for as long as it could be one. */
  lemma OnlyCut(recs: seq<Rec>, builds: seq<seq<Rec>>)
    ensures Builds(builds) && Flatten(builds) == recs <==> builds == Cut(recs)
    ensures recs != [] ==> LastBuild(recs) == Cut(recs)[|Cut(recs)| - 1]
  {
    CutIsBuilds(recs);
    if recs != [] {
      LastBuildIsLast(Cut(recs));
    }
    if Builds(builds) && Flatten(builds) == recs {
      CutsAreEqual(builds, Cut(recs));
    }
  }

  // ---------------------------------------------------------------- the longest stretch

  /** No longer final stretch of the log could be one build. */
  ghost predicate KeepsLongest(recs: seq<Rec>) {
    forall n :: 0 <= n <= |recs| && OneBuild(Final(recs, n)) ==> n <= |LastBuild(recs)|
  }

  /** The line could not come before the others in one build. */
  predicate Disagrees(rec: Rec, kept: seq<Rec>) {
    exists i :: 0 <= i < |kept| && (kept[i].end < rec.end || Conflict(rec, kept[i]))
  }

  lemma OneBuildIff(rec: Rec, kept: seq<Rec>)
    requires OneBuild(kept)
    ensures OneBuild([rec] + kept) <==> !Disagrees(rec, kept)
  {
    var longer := [rec] + kept;
    if OneBuild(longer) {
      forall i | 0 <= i < |kept| ensures !(kept[i].end < rec.end || Conflict(rec, kept[i])) {
        assert Agree(longer, 0, i + 1);
      }
    }
    if !Disagrees(rec, kept) {
      forall i, j | 0 <= i < j < |longer| ensures Agree(longer, i, j) {
        assert i > 0 ==> Agree(kept, i - 1, j - 1);
        assert longer[j] == kept[j - 1];
      }
    }
  }

  lemma OneBuildShorter(recs: seq<Rec>, m: nat, n: nat)
    requires m <= n <= |recs| && OneBuild(Final(recs, n))
    ensures OneBuild(Final(recs, m))
  {
    var short, long := Final(recs, m), Final(recs, n);
    forall i, j | 0 <= i < j < m ensures Agree(short, i, j) {
      assert Agree(long, i + n - m, j + n - m);
    }
  }

  /** What is kept is the longest final stretch that could be one build exactly when it is the
      whole log, or the line just before it could not come before the lines kept. */
  lemma KeepsLongestIff(recs: seq<Rec>)
    ensures KeepsLongest(recs) <==>
      var kept := LastBuild(recs);
      |kept| >= |recs| || Disagrees(recs[|recs| - |kept| - 1], kept)
  {
    var kept := LastBuild(recs);
    var n := |kept|;
    LastBuildIsOneBuild(recs);
    if n < |recs| {
      var before := recs[|recs| - n - 1];
      assert Final(recs, n + 1) == [before] + kept;
      OneBuildIff(before, kept);
      if Disagrees(before, kept) {
        forall m | 0 <= m <= |recs| && OneBuild(Final(recs, m)) ensures m <= n {
          if m > n { OneBuildShorter(recs, n + 1, m); }
        }
      }
    }
  }

  lemma LastBuildStep(recs: seq<Rec>, next: Rec)
    ensures LastBuild(recs + [next]) ==
      if Resets(LastBuild(recs), next) then [next] else LastBuild(recs) + [next]
  {
    assert (recs + [next])[..|recs|] == recs;
  }

  /** The second line is forgotten with the first, though it could stay: the third conflicts with
      the first only. */
  lemma ShorterThanItCouldBe()
    ensures
      var recs := [Rec(0.0, 1.0, "a", "h"), Rec(0.0, 2.0, "b", "g"), Rec(2.0, 3.0, "a", "h")];
      LastBuild(recs) == recs[2..] && OneBuild(recs[1..]) && !KeepsLongest(recs)
  {
    var a, b, c := Rec(0.0, 1.0, "a", "h"), Rec(0.0, 2.0, "b", "g"), Rec(2.0, 3.0, "a", "h");
    ThirdAlone(a, b, c);
    assert [a, b, c][1..] == [b, c] && [a, b, c][2..] == [c];
    assert Final([a, b, c], 2) == [b, c];
  }

  lemma ThirdAlone(a: Rec, b: Rec, c: Rec)
    requires a.hash == c.hash != b.hash && a.start != c.start && a.end <= b.end <= c.end
    ensures LastBuild([a, b, c]) == [c] && OneBuild([b, c])
  {
    LastBuildStep([], a);
    LastBuildStep([a], b);
    LastBuildStep([a, b], c);
    assert [] + [a] == [a] && [a] + [b] == [a, b] && [a, b] + [c] == [a, b, c];
    assert Conflict([a, b][0], c);
    forall i, j | 0 <= i < j < 2 ensures Agree([b, c], i, j) {}
  }

  // ---------------------------------------------------------------- grouping

  /** The command hashes in order of first appearance. */
  function Hashes(recs: seq<Rec>): seq<string> {
    if recs == [] then []
    else
      var init, hash := Hashes(recs[..|recs| - 1]), recs[|recs| - 1].hash;
      if hash in init then init else init + [hash]
  }

  /** The names on the lines with a hash, in order. */
  function NamesOf(recs: seq<Rec>, hash: string): seq<string> {
    if recs == [] then []
    else
      var init, last := NamesOf(recs[..|recs| - 1], hash), recs[|recs| - 1];
      if last.hash == hash then init + [last.name] else init
  }

  lemma {:induction false} HashesAreDistinct(recs: seq<Rec>)
    ensures forall i, j :: 0 <= i < j < |Hashes(recs)| ==> Hashes(recs)[i] != Hashes(recs)[j]
    ensures forall h :: h in Hashes(recs) <==> exists k :: 0 <= k < |recs| && recs[k].hash == h
  {
    if recs != [] {
      var n := |recs| - 1;
      var init := recs[..n];
      HashesAreDistinct(init);
      assert forall h :: h in Hashes(recs) <==> h in Hashes(init) || h == recs[n].hash;
      forall h ensures h in Hashes(recs) <==> exists k :: 0 <= k < |recs| && recs[k].hash == h {
        if h in Hashes(init) {
          var k :| 0 <= k < n && init[k].hash == h;
          assert recs[k].hash == h;
        }
        if k :| 0 <= k < |recs| && recs[k].hash == h {
          assert k < n ==> init[k].hash == h;
        }
      }
    }
  }

  /** The first line with a hash. */
  function First(recs: seq<Rec>, hash: string): (r: Rec)
    requires hash in Hashes(recs)
    ensures r in recs && r.hash == hash
  {
    var init := recs[..|recs| - 1];
    if hash in Hashes(init) then First(init, hash) else recs[|recs| - 1]
  }

  /** In one build every line of a group has the group's times. */
  lemma GroupSharesTimes(recs: seq<Rec>, k: nat)
    requires OneBuild(recs) && k < |recs| && recs[k].hash in Hashes(recs)
    ensures First(recs, recs[k].hash).start == recs[k].start && First(recs, recs[k].hash).end == recs[k].end
  {
    var f := First(recs, recs[k].hash);
    var i :| 0 <= i < |recs| && recs[i] == f;
    assert i < k ==> Agree(recs, i, k);
    assert k < i ==> Agree(recs, k, i);
  }

  ghost function Names(recs: seq<Rec>): seq<string> {
    if recs == [] then [] else Names(recs[..|recs| - 1]) + [recs[|recs| - 1].name]
  }

  ghost function GroupedNames(recs: seq<Rec>, hashes: seq<string>): multiset<string> {
    if hashes == [] then multiset{}
    else GroupedNames(recs, hashes[..|hashes| - 1]) + multiset(NamesOf(recs, hashes[|hashes| - 1]))
  }

  lemma {:induction false} OneMoreName(recs: seq<Rec>, last: Rec, hashes: seq<string>)
    requires forall i, j :: 0 <= i < j < |hashes| ==> hashes[i] != hashes[j]
    ensures GroupedNames(recs + [last], hashes) ==
      GroupedNames(recs, hashes) + if last.hash in hashes then multiset{last.name} else multiset{}
  {
    if hashes != [] {
      var init, hash := hashes[..|hashes| - 1], hashes[|hashes| - 1];
      OneMoreName(recs, last, init);
      OneMoreInGroup(recs, last, hash);
      assert hashes == init + [hash] && hash !in init;
    }
  }

  lemma OneMoreInGroup(recs: seq<Rec>, last: Rec, hash: string)
    ensures multiset(NamesOf(recs + [last], hash)) ==
      multiset(NamesOf(recs, hash)) + if last.hash == hash then multiset{last.name} else multiset{}
  {
    assert (recs + [last])[..|recs|] == recs;
  }

  lemma {:induction false} NoNames(recs: seq<Rec>, hash: string)
    requires hash !in Hashes(recs)
    ensures NamesOf(recs, hash) == []
  {
    if recs != [] { NoNames(recs[..|recs| - 1], hash); }
  }

  lemma HashesAfter(recs: seq<Rec>, last: Rec)
    ensures Hashes(recs + [last]) == if last.hash in Hashes(recs) then Hashes(recs) else Hashes(recs) + [last.hash]
    ensures forall h ::
      NamesOf(recs + [last], h) == if h == last.hash then NamesOf(recs, h) + [last.name] else NamesOf(recs, h)
    ensures last.hash !in Hashes(recs) ==> NamesOf(recs, last.hash) == []
    ensures First(recs + [last], last.hash) == if last.hash in Hashes(recs) then First(recs, last.hash) else last
    ensures forall h :: h in Hashes(recs) ==> First(recs + [last], h) == First(recs, h)
  {
    assert (recs + [last])[..|recs|] == recs;
    if last.hash !in Hashes(recs) { NoNames(recs, last.hash); }
  }

  lemma GroupedAfter(recs: seq<Rec>, last: Rec, more: seq<Rec>)
    requires more == recs + [last]
    ensures GroupedNames(more, Hashes(more)) == GroupedNames(recs, Hashes(recs)) + multiset{last.name}
  {
    var hashes := Hashes(recs);
    HashesAreDistinct(recs);
    OneMoreName(recs, last, hashes);
    HashesAfter(recs, last);
    if last.hash !in hashes {
      assert (hashes + [last.hash])[..|hashes|] == hashes;
      assert GroupedNames(more, hashes + [last.hash]) ==
        GroupedNames(more, hashes) + multiset(NamesOf(more, last.hash));
    }
  }

  lemma NamesAfter(recs: seq<Rec>, last: Rec)
    ensures multiset(Names(recs + [last])) == multiset(Names(recs)) + multiset{last.name}
  {
    assert (recs + [last])[..|recs|] == recs;
  }

  /** Every name read lands in exactly one group, as often as it was read. */
  lemma {:induction false} EveryNameGroupedOnce(recs: seq<Rec>)
    ensures GroupedNames(recs, Hashes(recs)) == multiset(Names(recs))
  {
    if recs != [] {
      var init, last := recs[..|recs| - 1], recs[|recs| - 1];
      EveryNameGroupedOnce(init);
      assert recs == init + [last];
      GroupedAfter(init, last, recs);
      NamesAfter(init, last);
    }
  }

  // ---------------------------------------------------------------- the code

  /** The groups of `recs`, one object each, in order of first appearance. */
  ghost predicate Groups(targets: seq<Target>, recs: seq<Rec>)
    reads targets
  {
    && |targets| == |Hashes(recs)|
    && (forall i, j :: 0 <= i < j < |targets| ==> targets[i] != targets[j])
    && (forall i :: 0 <= i < |targets| ==> IsGroup(targets[i], recs, Hashes(recs)[i]))
  }

  /** The reader's dictionary, with its keys in insertion order. */
  ghost predicate Holds(dict: map<string, Target>, keys: seq<string>, recs: seq<Rec>)
    reads set h | h in dict :: dict[h]
  {
    && keys == Hashes(recs)
    && (forall h :: h in dict <==> h in keys)
    && (forall g, h :: g in dict && h in dict && g != h ==> dict[g] != dict[h])
    && (forall h :: h in keys ==> IsGroup(dict[h], recs, h))
  }

  /** The names on the lines with a hash, and the times of the first of them. */
  ghost predicate IsGroup(target: Target, recs: seq<Rec>, hash: string)
    requires hash in Hashes(recs)
    reads target
  {
    && target.targets == NamesOf(recs, hash)
    && target.start == First(recs, hash).start
    && target.end == First(recs, hash).end
  }

  /** The lines whose groups the reader returns. */
  function Kept(recs: seq<Rec>, showAll: bool): seq<Rec> {
    if showAll then recs else LastBuild(recs)
  }

  /** With the groups of `build` in hand, the code's two tests decide whether it resets. */
  lemma TestsDecideReset(build: seq<Rec>, rec: Rec)
    requires OneBuild(build) && build != []
    ensures
      Resets(build, rec) <==>
      || rec.end < build[|build| - 1].end
      || (rec.hash in Hashes(build) && Conflict(First(build, rec.hash), rec))
  {
    HashesAreDistinct(build);
    if rec.hash in Hashes(build) {
      var i :| 0 <= i < |build| && build[i] == First(build, rec.hash);
      forall j: nat | j < |build| && build[j].hash == rec.hash
        ensures Conflict(build[j], rec) <==> Conflict(build[i], rec)
      {
        GroupSharesTimes(build, j);
      }
    }
  }

  lemma KeptAfter(recs: seq<Rec>, rec: Rec, showAll: bool)
    ensures Kept(recs + [rec], showAll) ==
      (if !showAll && Resets(LastBuild(recs), rec) then [] else Kept(recs, showAll)) + [rec]
  {
    assert (recs + [rec])[..|recs|] == recs;
  }

  /** The code's two tests, on the dictionary, decide whether the line resets it. */
  lemma TestsOnDictionary(dict: map<string, Target>, keys: seq<string>, build: seq<Rec>, rec: Rec, lastEndSeen: real)
    requires OneBuild(build) && Holds(dict, keys, build)
    requires build != [] ==> lastEndSeen == build[|build| - 1].end
    ensures build == [] ==> rec.hash !in dict
    ensures build != [] ==>
      (Resets(build, rec) <==>
       || rec.end < lastEndSeen
       || (rec.hash in dict && (dict[rec.hash].start != rec.start || dict[rec.hash].end != rec.end)))
  {
    if build != [] { TestsDecideReset(build, rec); }
  }

  lemma {:induction false} LastLineIsKept(recs: seq<Rec>)
    requires recs != []
    ensures LastBuild(recs) != [] && LastBuild(recs)[|LastBuild(recs)| - 1] == recs[|recs| - 1]
  {
  }

  /** Adds a line to its group, opening the group if there is none. */
  method AddLine(dict: map<string, Target>, keys: seq<string>, ghost recs: seq<Rec>, rec: Rec)
    returns (dict': map<string, Target>, keys': seq<string>)
    requires Holds(dict, keys, recs)
    modifies (if rec.hash in dict then {dict[rec.hash]} else {})`targets
    ensures Holds(dict', keys', recs + [rec])
    ensures forall h :: h in dict' ==> (h in dict && dict'[h] == dict[h]) || fresh(dict'[h])
  {
    HashesAfter(recs, rec);
    dict', keys' := dict, keys;
    if rec.hash !in dict {
      var created := new Target(rec.start, rec.end);
      dict', keys' := dict[rec.hash := created], keys + [rec.hash];
    }
    var target := dict'[rec.hash];
    target.targets := target.targets + [rec.name];
    forall h | h in keys' ensures IsGroup(dict'[h], recs + [rec], h) {
      assert h != rec.hash ==> dict'[h] != target;
    }
  }

  function Values(dict: map<string, Target>, keys: seq<string>): (r: seq<Target>)
    requires forall h :: h in keys ==> h in dict
    ensures |r| == |keys| && forall i :: 0 <= i < |keys| ==> r[i] == dict[keys[i]]
  {
    if keys == [] then [] else [dict[keys[0]]] + Values(dict, keys[1..])
  }

  lemma ValuesAreGroups(dict: map<string, Target>, keys: seq<string>, recs: seq<Rec>)
    requires Holds(dict, keys, recs)
    ensures Groups(Values(dict, keys), recs)
  {
    HashesAreDistinct(recs);
  }

  /** The end time of the last line read. */
  ghost predicate LastEnd(recs: seq<Rec>, lastEndSeen: real) {
    recs != [] ==> lastEndSeen == recs[|recs| - 1].end
  }

  /** The loop body for a complete line: forget the dictionary if a new build has begun,
      then add the line. */
  method ReadLine(dict: map<string, Target>, keys: seq<string>, ghost recs: seq<Rec>, rec: Rec,
                  showAll: bool, lastEndSeen: real)
    returns (dict': map<string, Target>, keys': seq<string>, lastEndSeen': real)
    requires Holds(dict, keys, Kept(recs, showAll)) && LastEnd(recs, lastEndSeen)
    modifies (set h | h in dict :: dict[h])`targets
    ensures Holds(dict', keys', Kept(recs + [rec], showAll)) && LastEnd(recs + [rec], lastEndSeen')
    ensures forall h :: h in dict' ==> (h in dict && dict'[h] == dict[h]) || fresh(dict'[h])
  {
    var start, end := rec.start, rec.end;
    LastBuildIsOneBuild(recs);
    KeptAfter(recs, rec, showAll);
    if recs != [] { LastLineIsKept(recs); }
    if !showAll { TestsOnDictionary(dict, keys, LastBuild(recs), rec, lastEndSeen); }
    dict', keys' := dict, keys;
    if !showAll && end < lastEndSeen {
      dict', keys' := map[], [];
    }
    if rec.hash in dict' && !showAll && (dict'[rec.hash].start != start || dict'[rec.hash].end != end) {
      dict', keys' := map[], [];
    }
    ghost var build := if !showAll && Resets(LastBuild(recs), rec) then [] else Kept(recs, showAll);
    assert Holds(dict', keys', build);
    dict', keys' := AddLine(dict', keys', build, rec);
    lastEndSeen' := end;
  }

  lemma RecsStep(lines: seq<Line>, n: nat)
    requires n < |lines|
    ensures Recs(lines[..n + 1]) ==
      if lines[n].Corrupt? then Recs(lines[..n]) else Recs(lines[..n]) + [ReadRec(lines[n])]
  {
    assert lines[..n + 1][..n] == lines[..n];
  }

  /** The loop body: a corrupt line is skipped. */
  method ReadAny(dict: map<string, Target>, keys: seq<string>, ghost lines: seq<Line>, ghost n: nat, line: Line,
                 showAll: bool, lastEndSeen: real)
    returns (dict': map<string, Target>, keys': seq<string>, lastEndSeen': real)
    requires n < |lines| && line == lines[n]
    requires Holds(dict, keys, Kept(Recs(lines[..n]), showAll)) && LastEnd(Recs(lines[..n]), lastEndSeen)
    modifies (set h | h in dict :: dict[h])`targets
    ensures Holds(dict', keys', Kept(Recs(lines[..n + 1]), showAll)) && LastEnd(Recs(lines[..n + 1]), lastEndSeen')
    ensures forall h :: h in dict' ==> (h in dict && dict'[h] == dict[h]) || fresh(dict'[h])
  {
    RecsStep(lines, n);
    if line.Corrupt? {
      return dict, keys, lastEndSeen;
    }
    dict', keys', lastEndSeen' := ReadLine(dict, keys, Recs(lines[..n]), ReadRec(line), showAll, lastEndSeen);
  }

  // ---------------------------------------------------------------- in the lines' own fields

  /** The complete lines that the reader keeps: all of them, or in its default mode those since the last
      line that ended before some line kept or repeats a command of one at other times. */
  function KeptLines(lines: seq<Line>, showAll: bool): (kept: seq<Line>)
    ensures forall i :: 0 <= i < |kept| ==> kept[i].Complete? && kept[i] in lines
  {
    if lines == [] then []
    else
      var kept, line := KeptLines(lines[..|lines| - 1], showAll), lines[|lines| - 1];
      if line.Corrupt? then kept
      else if !showAll && exists i :: 0 <= i < |kept| && NotOneBuild(kept[i], line) then [line]
      else kept + [line]
  }

  predicate NotOneBuild(earlier: Line, later: Line)
    requires earlier.Complete? && later.Complete?
  {
    || later.end < earlier.end
    || (later.hash == earlier.hash && (later.start != earlier.start || later.end != earlier.end))
  }

  /** One line says what the other does. */
  ghost predicate Says(rec: Rec, line: Line) {
    && line.Complete? && rec.name == line.name && rec.hash == line.hash
    && 1000.0 * rec.start == line.start as real && 1000.0 * rec.end == line.end as real
  }

  lemma ReadRecSays(line: Line)
    requires line.Complete?
    ensures Says(ReadRec(line), line)
  {
  }

  ghost predicate SayAll(recs: seq<Rec>, lines: seq<Line>) {
    |recs| == |lines| && forall i :: 0 <= i < |recs| ==> Says(recs[i], lines[i])
  }

  lemma SaysAgree(x: Rec, y: Rec, a: Line, b: Line)
    requires Says(x, a) && Says(y, b)
    ensures NotOneBuild(a, b) <==> y.end < x.end || Conflict(x, y)
  {
  }

  lemma ResetsIffSomeLine(build: seq<Rec>, next: Rec, kept: seq<Line>, line: Line)
    requires OneBuild(build) && SayAll(build, kept) && Says(next, line)
    ensures Resets(build, next) <==> exists i :: 0 <= i < |kept| && kept[i].Complete? && NotOneBuild(kept[i], line)
  {
    forall i | 0 <= i < |kept| ensures kept[i].Complete? && (NotOneBuild(kept[i], line) <==>
      next.end < build[i].end || Conflict(build[i], next))
    {
      assert Says(build[i], kept[i]);
      SaysAgree(build[i], next, kept[i], line);
      var last := |build| - 1;
      if i < last { assert Agree(build, i, last); }
    }
    if Resets(build, next) {
      var i :| 0 <= i < |build| && (next.end < build[i].end || Conflict(build[i], next));
      assert kept[i].Complete? && NotOneBuild(kept[i], line);
    }
    if i :| 0 <= i < |kept| && kept[i].Complete? && NotOneBuild(kept[i], line) {
      assert next.end < build[i].end || Conflict(build[i], next);
      assert next.end < build[i].end ==> i < |build| - 1 ==> Agree(build, i, |build| - 1);
    }
  }

  lemma KeptSayStep(recs: seq<Rec>, kept: seq<Line>, line: Line, showAll: bool)
    requires SayAll(Kept(recs, showAll), kept) && line.Complete? && AllComplete(kept)
    ensures
      var more :=
        if !showAll && exists i :: 0 <= i < |kept| && NotOneBuild(kept[i], line) then [line] else kept + [line];
      SayAll(Kept(recs + [ReadRec(line)], showAll), more)
  {
    var rec := ReadRec(line);
    ReadRecSays(line);
    KeptAfter(recs, rec, showAll);
    LastBuildIsOneBuild(recs);
    if !showAll { ResetsIffSomeLine(LastBuild(recs), rec, kept, line); }
  }

  lemma {:induction false} KeptSay(lines: seq<Line>, showAll: bool)
    ensures SayAll(Kept(Recs(lines), showAll), KeptLines(lines, showAll))
  {
    if lines != [] {
      var init, line := lines[..|lines| - 1], lines[|lines| - 1];
      KeptSay(init, showAll);
      if line.Complete? { KeptSayStep(Recs(init), KeptLines(init, showAll), line, showAll); }
    }
  }

  ghost predicate AllComplete(kept: seq<Line>) {
    forall i :: 0 <= i < |kept| ==> kept[i].Complete?
  }

  /** The names on the lines with a hash, in order. */
  ghost function LineNames(kept: seq<Line>, hash: string): seq<string>
    requires AllComplete(kept)
  {
    if kept == [] then []
    else
      var init, last := LineNames(kept[..|kept| - 1], hash), kept[|kept| - 1];
      if last.hash == hash then init + [last.name] else init
  }

  /** No kept line before line k has its hash. */
  ghost predicate IsFirst(kept: seq<Line>, k: nat)
    requires AllComplete(kept) && k < |kept|
  {
    forall j :: 0 <= j < k ==> kept[j].hash != kept[k].hash
  }

  ghost predicate HasTimes(target: Target, line: Line)
    requires line.Complete?
  {
    1000.0 * target.start == line.start as real && 1000.0 * target.end == line.end as real
  }

  /** The target of line k, which is the first with its hash: the line's times, and the names of all lines
      with the hash. */
  ghost predicate Opens(target: Target, kept: seq<Line>, k: nat)
    requires AllComplete(kept) && k < |kept|
    reads target
  {
    && IsFirst(kept, k) && HasTimes(target, kept[k])
    && target.targets == LineNames(kept, kept[k].hash) && kept[k].name in target.targets
  }

  /** The targets in the lines' own fields.  `first` are the lines that open them, in order. */
  ghost predicate TargetsOf(targets: seq<Target>, first: seq<nat>, kept: seq<Line>, showAll: bool)
    requires AllComplete(kept)
    reads targets
  {
    && |targets| == |first|
    && (forall i :: 0 <= i < |first| ==> first[i] < |kept| && Opens(targets[i], kept, first[i]))
    && (forall i, j :: 0 <= i < j < |first| ==> first[i] < first[j])
    // every line stands in a target, and in no other, which in one build has its times
    && (forall k :: 0 <= k < |kept| ==> Stands(targets, first, kept, k, showAll))
    && (forall i, j :: 0 <= i < j < |first| ==> kept[first[i]].hash != kept[first[j]].hash)
  }

  ghost predicate Stands(targets: seq<Target>, first: seq<nat>, kept: seq<Line>, k: nat, showAll: bool)
    requires AllComplete(kept) && |targets| == |first| && k < |kept|
    requires forall i :: 0 <= i < |first| ==> first[i] < |kept|
    reads targets
  {
    exists i :: 0 <= i < |first| && StandsIn(targets, first, kept, k, showAll, i)
  }

  ghost predicate StandsIn(targets: seq<Target>, first: seq<nat>, kept: seq<Line>, k: nat, showAll: bool, i: nat)
    requires AllComplete(kept) && i < |targets| == |first| && first[i] < |kept| && k < |kept|
    reads targets
  {
    && kept[first[i]].hash == kept[k].hash && kept[k].name in targets[i].targets
    && (!showAll ==> HasTimes(targets[i], kept[k]))
  }

  lemma {:induction false} SameNames(recs: seq<Rec>, kept: seq<Line>, hash: string)
    requires SayAll(recs, kept) && AllComplete(kept)
    ensures NamesOf(recs, hash) == LineNames(kept, hash)
    ensures forall k :: 0 <= k < |kept| && kept[k].hash == hash ==> kept[k].name in LineNames(kept, hash)
  {
    if recs != [] {
      var n := |recs| - 1;
      assert Says(recs[n], kept[n]);
      SameNames(recs[..n], kept[..n], hash);
      forall k | 0 <= k < n && kept[k].hash == hash ensures kept[k].name in LineNames(kept, hash) {
        assert kept[..n][k] == kept[k];
      }
    }
  }

  /** Line k is the first with the hash. */
  ghost predicate Opening(recs: seq<Rec>, hash: string, k: nat)
    requires hash in Hashes(recs)
  {
    && k < |recs| && recs[k].hash == hash && recs[k] == First(recs, hash)
    && forall j :: 0 <= j < k ==> recs[j].hash != hash
  }

  lemma OpeningStays(recs: seq<Rec>, next: Rec, hash: string, k: nat)
    requires hash in Hashes(recs) && Opening(recs, hash, k)
    ensures hash in Hashes(recs + [next]) && Opening(recs + [next], hash, k)
  {
    HashesAfter(recs, next);
    assert forall j :: 0 <= j < |recs| ==> (recs + [next])[j] == recs[j];
  }

  lemma OpeningNew(recs: seq<Rec>, next: Rec)
    requires next.hash !in Hashes(recs)
    ensures next.hash in Hashes(recs + [next]) && Opening(recs + [next], next.hash, |recs|)
  {
    HashesAfter(recs, next);
    HashesAreDistinct(recs);
    forall j | 0 <= j < |recs| ensures (recs + [next])[j].hash != next.hash { assert recs[j].hash in Hashes(recs); }
  }

  ghost predicate AllOpen(recs: seq<Rec>, hashes: seq<string>, first: seq<nat>) {
    && |first| == |hashes|
    && (forall i :: 0 <= i < |first| ==> hashes[i] in Hashes(recs) && Opening(recs, hashes[i], first[i]))
    && (forall i, j :: 0 <= i < j < |first| ==> first[i] < first[j])
  }

  lemma {:induction false} FirstLines(recs: seq<Rec>) returns (first: seq<nat>)
    ensures AllOpen(recs, Hashes(recs), first)
  {
    first := [];
    if recs != [] {
      var n: nat := |recs| - 1;
      var init, next := recs[..n], recs[n];
      assert recs == init + [next];
      first := FirstLines(init);
      forall i | 0 <= i < |first|
        ensures Hashes(init)[i] in Hashes(recs) && Opening(recs, Hashes(init)[i], first[i]) && first[i] < n
      {
        assert Opening(init, Hashes(init)[i], first[i]);
        OpeningStays(init, next, Hashes(init)[i], first[i]);
      }
      if next.hash !in Hashes(init) {
        OpeningNew(init, next);
        first := first + [n];
      }
    }
  }

  lemma GroupOpens(target: Target, recs: seq<Rec>, kept: seq<Line>, hash: string, k: nat)
    requires SayAll(recs, kept) && AllComplete(kept) && hash in Hashes(recs)
    requires IsGroup(target, recs, hash) && Opening(recs, hash, k)
    ensures Opens(target, kept, k)
  {
    SameNames(recs, kept, hash);
    assert forall j :: 0 <= j < |kept| ==> Says(recs[j], kept[j]);
  }

  lemma LineStands(targets: seq<Target>, first: seq<nat>, recs: seq<Rec>, kept: seq<Line>, k: nat, showAll: bool)
    requires Groups(targets, recs) && SayAll(recs, kept) && AllComplete(kept) && (!showAll ==> OneBuild(recs))
    requires AllOpen(recs, Hashes(recs), first) && k < |kept|
    requires forall i :: 0 <= i < |first| ==> first[i] < |kept|
    ensures Stands(targets, first, kept, k, showAll)
  {
    HashesAreDistinct(recs);
    var hash := recs[k].hash;
    assert hash in Hashes(recs);
    var i :| 0 <= i < |first| && Hashes(recs)[i] == hash;
    SameNames(recs, kept, hash);
    assert Says(recs[k], kept[k]) && Says(recs[first[i]], kept[first[i]]);
    assert IsGroup(targets[i], recs, hash) && Opening(recs, hash, first[i]);
    if !showAll { GroupSharesTimes(recs, k); }
    assert StandsIn(targets, first, kept, k, showAll, i);
  }

  lemma GroupsAreTargets(targets: seq<Target>, recs: seq<Rec>, kept: seq<Line>, showAll: bool) returns (first: seq<nat>)
    requires Groups(targets, recs) && SayAll(recs, kept) && AllComplete(kept) && (!showAll ==> OneBuild(recs))
    ensures TargetsOf(targets, first, kept, showAll)
  {
    first := FirstLines(recs);
    HashesAreDistinct(recs);
    forall i | 0 <= i < |first|
      ensures first[i] < |kept| && Opens(targets[i], kept, first[i]) && kept[first[i]].hash == Hashes(recs)[i]
    {
      assert Opening(recs, Hashes(recs)[i], first[i]) && IsGroup(targets[i], recs, Hashes(recs)[i]);
      GroupOpens(targets[i], recs, kept, Hashes(recs)[i], first[i]);
      assert Says(recs[first[i]], kept[first[i]]);
    }
    forall k | 0 <= k < |kept| ensures Stands(targets, first, kept, k, showAll) {
      LineStands(targets, first, recs, kept, k, showAll);
    }
  }

  lemma KeptAreTargets(targets: seq<Target>, lines: seq<Line>, showAll: bool) returns (first: seq<nat>)
    requires Groups(targets, Kept(Recs(lines), showAll))
    ensures TargetsOf(targets, first, KeptLines(lines, showAll), showAll)
  {
    KeptSay(lines, showAll);
    if !showAll { LastBuildIsOneBuild(Recs(lines)); }
    first := GroupsAreTargets(targets, Kept(Recs(lines), showAll), KeptLines(lines, showAll), showAll);
  }

  /** The targets are the groups of the lines kept: every one of these stands in exactly one target, with
      its name and, if they are those of one build, with its times. */
  method ReadTargets(lines: seq<Line>, showAll: bool) returns (targets: seq<Target>, ghost first: seq<nat>)
    ensures fresh(targets)
    ensures Groups(targets, Kept(Recs(lines), showAll))
    ensures TargetsOf(targets, first, KeptLines(lines, showAll), showAll)
  {
    var dict: map<string, Target>, keys: seq<string> := map[], [];
    var lastEndSeen := 0.0;
    for n := 0 to |lines|
      invariant forall h :: h in dict ==> fresh(dict[h])
      invariant Holds(dict, keys, Kept(Recs(lines[..n]), showAll))
      invariant LastEnd(Recs(lines[..n]), lastEndSeen)
    {
      dict, keys, lastEndSeen := ReadAny(dict, keys, lines, n, lines[n], showAll, lastEndSeen);
    }
    assert lines[..|lines|] == lines;
    targets := Values(dict, keys);
    ValuesAreGroups(dict, keys, Kept(Recs(lines), showAll));
    first := KeptAreTargets(targets, lines, showAll);
  }
}
