/** Runs of the chunked ROCm allocator: what condition an allocation is in before and after each call to
    map or unmap it, which sequences of calls can lose a handle, and with which failures. */
module RocmRuns {
  import opened Common
  import opened RocmAllocator
  import opened RocmChunks

  // ---------------------------------------------------------------- conditions of an allocation

  /** Sleeping: not mapped.  Waking: mapped, with its handles in the cells.  Broken: mapped, and some
      cell no longer holds its chunk's handle. */
  datatype Condition = Sleeping | Waking | Broken

  /** The address is reserved and nothing of the allocation is there: the driver holds
      just what it holds for others. */
  ghost predicate Asleep(v: View, base: nat, size: nat, sizes: seq<nat>, others: set<Handle>,
                         outside: map<nat, Mapping>)
  {
    && base in v.reserved && v.reserved[base] == size == Sum(sizes)
    && v.mapped == outside && Clear(v.mapped, base, size)
    && v.live == others && Elements(v.cells) !! others
  }

  /** The chunks, and only they, are added: mapped over the whole range to these handles, which
      are live.  Each cell holds its chunk's handle, or one that is not live. */
  ghost predicate Holding(v: View, base: nat, size: nat, sizes: seq<nat>, others: set<Handle>,
                          outside: map<nat, Mapping>, handles: seq<Handle>)
    requires |v.cells| == |sizes| == |handles|
  {
    && base in v.reserved && v.reserved[base] == size == Sum(sizes)
    && v.mapped == outside + Chunks(base, sizes, handles, 0, |sizes|)
    && Clear(outside, base, size) && (forall a :: a in outside ==> outside[a].size > 0)
    && v.live == others + Elements(handles) && Elements(handles) !! others && Distinct(handles)
    && (forall k :: 0 <= k < |handles| ==> v.cells[k] == handles[k] || v.cells[k] !in v.live)
  }

  /** All is as it should be after a successful mapping: the handles are those in the cells. */
  ghost predicate Awake(v: View, base: nat, size: nat, sizes: seq<nat>, others: set<Handle>, outside: map<nat, Mapping>)
    requires |v.cells| == |sizes|
  {
    Holding(v, base, size, sizes, others, outside, v.cells)
  }

  ghost predicate Is(condition: Condition, v: View, base: nat, size: nat, sizes: seq<nat>, others: set<Handle>,
                     outside: map<nat, Mapping>, handles: seq<Handle>)
    requires |v.cells| == |sizes| == |handles|
  {
    match condition
    case Sleeping => Asleep(v, base, size, sizes, others, outside)
    case Waking => Holding(v, base, size, sizes, others, outside, handles) && handles == v.cells
    case Broken => Holding(v, base, size, sizes, others, outside, handles) && handles != v.cells
  }

  function AfterMap(condition: Condition, stage: Stage, created: bool): Condition {
    match condition
    case Sleeping => if stage == Done || stage == AccessFailed then Waking else Sleeping
    case Waking => if created then Broken else Waking
    case Broken => Broken
  }

  /** Mapping an allocation that is asleep loses nothing, whatever fails.  It is awake afterwards if the
      chunks stay mapped, even if setting access fails.  Else it is asleep, but for what a cleanup call
      was refused or one handle created after an error, and these handles are in its cells. */
  lemma MapAsleep(v: View, w: View, base: nat, size: nat, sizes: seq<nat>, stage: Stage,
                  refused: seq<Handle>, stuck: seq<nat>, others: set<Handle>, outside: map<nat, Mapping>)
    requires |v.cells| == |w.cells| == |sizes| && AllPositive(sizes) && ValidView(v)
    requires MapEffect(v, w, base, sizes, stage, refused, stuck)
    requires Asleep(v, base, size, sizes, others, outside)
    ensures Separate(w, others) && Lost(w, others) == {}
    ensures stage == Done || stage == AccessFailed ==> Awake(w, base, size, sizes, others, outside)
    ensures stage == CreateFailed || stage == MapFailed ==>
      && (forall h :: h in w.live && h !in others ==> h in refused && h in w.cells)
      && LeftOver(w.mapped, outside, base, sizes, w.cells, stuck)
      && (w.unhandled == v.unhandled ==> Asleep(w, base, size, sizes, others, outside))
    ensures stage == Pending ==>
      && w.mapped == outside && w.live == others + Elements(w.cells[..w.issued - v.issued])
      && (Asleep(w, base, size, sizes, others, outside) <==> w.issued == v.issued)
  {
    MapLedger(v, w, base, size, sizes, stage, refused, stuck, others);
    NewHandles(w.cells[..w.issued - v.issued], v.issued);
    if stage == Done || stage == AccessFailed {
      assert w.cells[..|sizes|] == w.cells;
    } else if stage == Pending {
      if w.issued > v.issued { assert w.cells[0] in w.live && w.cells[0] !in others; }
    } else if w.unhandled == v.unhandled {
      assert refused == [] && stuck == [];
    }
  }

  /** No chunk can be mapped again before it is unmapped. */
  lemma HoldingBlocks(v: View, base: nat, size: nat, sizes: seq<nat>, others: set<Handle>,
                      outside: map<nat, Mapping>, handles: seq<Handle>)
    requires |v.cells| == |sizes| == |handles| > 0 && AllPositive(sizes)
    requires Holding(v, base, size, sizes, others, outside, handles)
    ensures !Fits(v.reserved, v.mapped, base, sizes[0])
  {
    AwakeChunks(base, size, sizes, handles, outside);
    assert Address(base, sizes, 0) == base;
  }

  /** Overwritten cells hold handles that are not live, or not live any more. */
  lemma CellsStayDead(before: seq<Handle>, after: seq<Handle>, first: nat, n: nat, handles: seq<Handle>,
                      live: set<Handle>)
    requires |before| == |handles| > 0 && Overwritten(before, after, first, n)
    requires (forall h :: h in live ==> h < first) && forall k :: 0 <= k < |handles| ==> handles[k] in live
    requires forall k :: 0 <= k < |handles| ==> before[k] == handles[k] || before[k] !in live
    ensures forall k :: 0 <= k < |handles| ==> after[k] == handles[k] || after[k] !in live
    ensures before == handles ==> (after == handles <==> n == 0)
    ensures before != handles ==> after != handles
    ensures n == |after| ==> Elements(after) !! live
  {
    if before == handles && n > 0 {
      assert after[0] == first != handles[0];
    }
    if before != handles {
      var k :| 0 <= k < |handles| && before[k] != handles[k];
      assert after[k] != handles[k];
    }
  }

  /** Mapping an allocation whose chunks are mapped fails, and whatever fails the mappings stay as they
      are.  Each create that succeeds overwrites a cell.  The handles stay as they are but for new ones
      that a cleanup call was refused or that were created after an error. */
  lemma MapHolding(v: View, w: View, base: nat, size: nat, sizes: seq<nat>, stage: Stage, refused: seq<Handle>,
                   stuck: seq<nat>, others: set<Handle>, outside: map<nat, Mapping>, handles: seq<Handle>)
    requires |v.cells| == |w.cells| == |sizes| == |handles| > 0 && AllPositive(sizes) && ValidView(v)
    requires MapEffect(v, w, base, sizes, stage, refused, stuck)
    requires Holding(v, base, size, sizes, others, outside, handles)
    ensures stage != Done && stage != AccessFailed && w.mapped == v.mapped
    ensures v.live <= w.live <= v.live + Elements(w.cells)
    ensures stage == Pending ==> w.live == v.live + Elements(w.cells[..w.issued - v.issued])
    ensures stage != Pending ==> forall h :: h in w.live && h !in v.live ==> h in refused
    ensures stage != Pending && w.unhandled == v.unhandled ==> w.live == v.live
    ensures Holding(w, base, size, sizes, others, outside, handles) <==> w.live == v.live
    ensures v.cells == handles ==> (w.cells == handles <==> w.issued == v.issued)
    ensures v.cells != handles ==> w.cells != handles
    ensures stage == MapFailed ==> Elements(w.cells) !! v.live
  {
    HoldingBlocks(v, base, size, sizes, others, outside, handles);
    OwnHandlesLive(v, base, size, sizes, others, outside, handles);
    CellsStayDead(v.cells, w.cells, v.issued, w.issued - v.issued, handles, v.live);
    NewInCells(v.cells, w.cells, v.issued, w.issued - v.issued);
    HoldingMapped(v, base, size, sizes, others, outside, handles);
    if stage != Pending { AllStillMapped(w.mapped, v.mapped, base, sizes, w.cells, stuck); }
    if stage != Pending && w.unhandled == v.unhandled { assert refused == []; }
  }

  lemma AllStillMapped(now: map<nat, Mapping>, before: map<nat, Mapping>, base: nat, sizes: seq<nat>,
                       handles: seq<Handle>, stuck: seq<nat>)
    requires |handles| == |sizes| && AllPositive(sizes) && AllMapped(before, base, sizes)
    requires LeftOver(now, before, base, sizes, handles, stuck)
    ensures now == before
  {
    forall a | a in Chunks(base, sizes, handles, 0, |sizes|) ensures a in before {
      ChunkLookup(base, sizes, handles, 0, |sizes|, a);
      var k :| 0 <= k < |sizes| && a == Address(base, sizes, k);
      assert IsMapped(before, base, sizes, k);
    }
  }

  /** The handles that were issued are in the first cells. */
  lemma NewInCells(before: seq<Handle>, after: seq<Handle>, first: nat, n: nat)
    requires Overwritten(before, after, first, n)
    ensures Issued(first, first + n) == Elements(after[..n]) <= Elements(after)
  {
    NewHandles(after[..n], first);
  }

  /** Mapping an allocation that is awake, whatever fails, leaves it awake exactly when not even the
      first create succeeds, that is, when no cell changes.  Each create that does loses the handle of
      its chunk. */
  lemma MapAwake(v: View, w: View, base: nat, size: nat, sizes: seq<nat>, stage: Stage, refused: seq<Handle>,
                 stuck: seq<nat>, others: set<Handle>, outside: map<nat, Mapping>)
    requires |v.cells| == |w.cells| == |sizes| > 0 && AllPositive(sizes) && ValidView(v)
    requires MapEffect(v, w, base, sizes, stage, refused, stuck)
    requires Awake(v, base, size, sizes, others, outside)
    ensures stage != Done && stage != AccessFailed
    ensures Awake(w, base, size, sizes, others, outside) <==> w.issued == v.issued
    ensures w.cells == v.cells <==> w.issued == v.issued
    ensures Lost(w, others) == Elements(v.cells[..w.issued - v.issued]) == Dropped(v, w)
  {
    var n := w.issued - v.issued;
    MapHolding(v, w, base, size, sizes, stage, refused, stuck, others, outside, v.cells);
    MapLedger(v, w, base, size, sizes, stage, refused, stuck, others);
    OwnHandlesLive(v, base, size, sizes, others, outside, v.cells);
    forall h ensures h in Dropped(v, w) <==> h in v.cells[..n] {
      DroppedIff(v, w, base, sizes, stage, refused, stuck, h);
      DistinctParts(v.cells, n, h);
    }
    if Awake(w, base, size, sizes, others, outside) { CellsAreMapped(v, w, base, size, sizes, others, outside); }
  }

  lemma DistinctParts(s: seq<Handle>, n: nat, h: Handle)
    requires Distinct(s) && n <= |s|
    ensures h in s[..n] ==> h in s && h !in s[n..]
  {
    if h in s[..n] {
      var i :| 0 <= i < n && s[i] == h;
      forall j | 0 <= j < |s| - n ensures s[n..][j] != h { assert !Repeats(s, i, n + j); }
    }
  }

  /** What is mapped says which handles the cells of an allocation that is awake hold. */
  lemma CellsAreMapped(v: View, w: View, base: nat, size: nat, sizes: seq<nat>, others: set<Handle>,
                       outside: map<nat, Mapping>)
    requires |v.cells| == |w.cells| == |sizes| && AllPositive(sizes) && w.mapped == v.mapped
    requires Awake(v, base, size, sizes, others, outside) && Awake(w, base, size, sizes, others, outside)
    ensures w.cells == v.cells
  {
    AwakeChunks(base, size, sizes, v.cells, outside);
    AwakeChunks(base, size, sizes, w.cells, outside);
    forall k | 0 <= k < |sizes| ensures w.cells[k] == v.cells[k] {
      assert v.mapped[Address(base, sizes, k)] == Mapping(sizes[k], v.cells[k]);
    }
  }

  lemma OwnHandlesLive(v: View, base: nat, size: nat, sizes: seq<nat>, others: set<Handle>,
                       outside: map<nat, Mapping>, handles: seq<Handle>)
    requires |v.cells| == |sizes| == |handles| && Holding(v, base, size, sizes, others, outside, handles)
    ensures forall k :: 0 <= k < |handles| ==> handles[k] in v.live
  {
    forall k | 0 <= k < |handles| ensures handles[k] in v.live {
      assert handles[k] in Elements(handles);
    }
  }

  /** One call to map without a failure that cannot be undone: an allocation in some condition is in one
      that follows. */
  lemma MapFollows(v: View, w: View, base: nat, size: nat, sizes: seq<nat>, stage: Stage, refused: seq<Handle>,
                   stuck: seq<nat>, condition: Condition, others: set<Handle>,
                   outside: map<nat, Mapping>, handles: seq<Handle>)
    requires |v.cells| == |w.cells| == |sizes| == |handles| > 0 && AllPositive(sizes) && ValidView(v)
    requires MapEffect(v, w, base, sizes, stage, refused, stuck) && stage != Pending && w.unhandled == v.unhandled
    requires Is(condition, v, base, size, sizes, others, outside, handles)
    ensures condition != Sleeping ==> stage != Done && stage != AccessFailed
    ensures Is(AfterMap(condition, stage, w.issued > v.issued), w, base, size, sizes, others, outside,
               if condition == Sleeping then w.cells else handles)
  {
    if condition == Sleeping {
      MapAsleep(v, w, base, size, sizes, stage, refused, stuck, others, outside);
    } else {
      MapHolding(v, w, base, size, sizes, stage, refused, stuck, others, outside, handles);
    }
  }

  /** The same for a call of either kind.  `more` are handles that no cell holds any more and that stay
      live when the chunks are unmapped. */
  lemma StepFollows(v: View, w: View, call: Call, result: bool, event: Event, base: nat, size: nat, sizes: seq<nat>,
                    condition: Condition, others: set<Handle>, outside: map<nat, Mapping>, handles: seq<Handle>)
    returns (next: Condition, more: set<Handle>, handles': seq<Handle>)
    requires |v.cells| == |w.cells| == |sizes| == |handles| > 0 && AllPositive(sizes) && ValidView(v)
    requires Step(v, w, call, result, event, base, size, sizes) && w.unhandled == v.unhandled
    requires Is(condition, v, base, size, sizes, others, outside, handles)
    ensures Follow(condition, call, result, next) && |handles'| == |sizes|
    ensures Is(next, w, base, size, sizes, others + more, outside, handles')
    ensures more !! others && (more != {} <==> call == UnmapCall && condition == Broken)
  {
    next, more, handles' := Sleeping, {}, w.cells;
    match call
    case MapCall =>
      MapFollows(v, w, base, size, sizes, event.stage, event.refused, event.stuck, condition, others, outside, handles);
      next := AfterMap(condition, event.stage, w.issued > v.issued);
      if condition != Sleeping { handles' := handles; }
      assert others + more == others;
    case UnmapCall =>
      if condition == Sleeping {
        UnmapAsleep(v, w, base, size, sizes, result, event.refused, event.stuck, others, outside);
        assert others + more == others;
      } else {
        UnmapHolding(v, w, base, size, sizes, result, event.refused, event.stuck, others, outside, handles);
        more := Elements(handles) - Elements(v.cells);
      }
  }

  /** Handles are lost exactly when the allocation is broken. */
  lemma LostIffBroken(v: View, base: nat, size: nat, sizes: seq<nat>, condition: Condition, others: set<Handle>,
                      outside: map<nat, Mapping>, handles: seq<Handle>)
    requires |v.cells| == |sizes| == |handles| && Is(condition, v, base, size, sizes, others, outside, handles)
    ensures Separate(v, others) && (Lost(v, others) != {} <==> condition == Broken)
  {
    if condition != Sleeping {
      OwnHandlesLive(v, base, size, sizes, others, outside, handles);
      LostHandle(v.cells, handles, v.live);
      forall h | h in Elements(v.cells) ensures h !in others {
        var k :| 0 <= k < |v.cells| && v.cells[k] == h;
        assert handles[k] in Elements(handles);
      }
      assert Lost(v, others) == Elements(handles) - Elements(v.cells);
    }
  }

  lemma UnmapAsleep(v: View, w: View, base: nat, size: nat, sizes: seq<nat>, ok: bool, refused: seq<Handle>,
                    stuck: seq<nat>, others: set<Handle>, outside: map<nat, Mapping>)
    requires |v.cells| == |sizes| > 0 && AllPositive(sizes) && ValidView(v)
    requires UnmapEffect(v, w, base, size, sizes, ok, refused, stuck)
    requires Asleep(v, base, size, sizes, others, outside)
    ensures !ok && Asleep(w, base, size, sizes, others, outside)
  {
    forall i | 0 <= i < |sizes| ensures Address(base, sizes, i) !in v.mapped {
      AddressInside(base, sizes, i);
    }
    if w.unhandled == v.unhandled { AllUnmapped(w.mapped, v.mapped, base, sizes); }
  }

  /** Unmapping an allocation whose chunks are mapped, whatever fails: the handles of its own that are in
      no cell stay live and are lost.  Besides them, and the others, only what a call was refused is left. */
  lemma UnmapHolding(v: View, w: View, base: nat, size: nat, sizes: seq<nat>, ok: bool, refused: seq<Handle>,
                     stuck: seq<nat>, others: set<Handle>, outside: map<nat, Mapping>, handles: seq<Handle>)
    requires |v.cells| == |sizes| == |handles| > 0 && AllPositive(sizes) && ValidView(v)
    requires UnmapEffect(v, w, base, size, sizes, ok, refused, stuck)
    requires Holding(v, base, size, sizes, others, outside, handles)
    ensures AllInPlace(v, base, size, sizes) <==> v.cells == handles
    ensures ok ==> v.cells == handles && w.unhandled == v.unhandled
    ensures Elements(handles) - Elements(v.cells) != {} <==> v.cells != handles
    ensures Separate(v, others) && Separate(w, others) && Lost(w, others) == Elements(handles) - Elements(v.cells)
    ensures forall h :: h in w.live && h !in others && h !in Lost(w, others) ==> h in handles && h in refused
    ensures Extends(w.mapped, outside) && Extends(v.mapped, w.mapped)
    ensures forall a :: a in w.mapped && a !in outside ==> a in stuck
    ensures w.unhandled == v.unhandled ==>
      Asleep(w, base, size, sizes, others + (Elements(handles) - Elements(v.cells)), outside)
  {
    OwnHandlesLive(v, base, size, sizes, others, outside, handles);
    LostHandle(v.cells, handles, v.live);
    HoldingMapped(v, base, size, sizes, others, outside, handles);
    CellsReleased(v.cells, handles, v.live, w.live, others, refused);
    OutsideStays(v.mapped, w.mapped, base, sizes, outside, stuck);
    if w.unhandled == v.unhandled {
      assert refused == [] && stuck == [];
      AllUnmapped(w.mapped, v.mapped, base, sizes);
    }
  }

  lemma OutsideStays(before: map<nat, Mapping>, now: map<nat, Mapping>, base: nat, sizes: seq<nat>,
                     outside: map<nat, Mapping>, stuck: seq<nat>)
    requires AllMapped(before, base, sizes) && before - Addresses(base, sizes) == outside
    requires Unmapping(now, before, base, sizes, |sizes|, stuck)
    ensures Extends(now, outside) && forall a :: a in now && a !in outside ==> a in stuck
  {
    forall a ensures IsChunk(before, base, sizes, |sizes|, a) <==> a in Addresses(base, sizes) {
      if a in Addresses(base, sizes) {
        var k :| 0 <= k < |sizes| && a == Address(base, sizes, k);
        assert IsMapped(before, base, sizes, k);
      }
    }
  }

  lemma HoldingMapped(v: View, base: nat, size: nat, sizes: seq<nat>, others: set<Handle>,
                      outside: map<nat, Mapping>, handles: seq<Handle>)
    requires |v.cells| == |sizes| == |handles| && AllPositive(sizes)
    requires Holding(v, base, size, sizes, others, outside, handles)
    ensures AllMapped(v.mapped, base, sizes) && v.mapped - Addresses(base, sizes) == outside
    ensures AllInPlace(v, base, size, sizes) <==> AllLive(v.cells, v.live)
  {
    AwakeChunks(base, size, sizes, handles, outside);
  }

  /** A cell that does not hold its chunk's handle holds a dead one, and that handle is in no cell. */
  lemma LostHandle(cells: seq<Handle>, handles: seq<Handle>, live: set<Handle>)
    requires |cells| == |handles| && Distinct(handles)
    requires forall k :: 0 <= k < |handles| ==> handles[k] in live
    requires forall k :: 0 <= k < |handles| ==> cells[k] == handles[k] || cells[k] !in live
    ensures AllLive(cells, live) <==> cells == handles
    ensures Elements(handles) - Elements(cells) != {} <==> cells != handles
  {
    if cells != handles {
      var k :| 0 <= k < |handles| && cells[k] != handles[k];
      forall j | 0 <= j < |cells| ensures cells[j] != handles[k] {
        assert j < k ==> !Repeats(handles, j, k);
        assert k < j ==> !Repeats(handles, k, j);
      }
      assert handles[k] in Elements(handles) - Elements(cells);
    }
  }

  lemma CellsReleased(cells: seq<Handle>, handles: seq<Handle>, live: set<Handle>, now: set<Handle>,
                      others: set<Handle>, refused: seq<Handle>)
    requires |cells| == |handles| && live == others + Elements(handles) && Elements(handles) !! others
    requires forall k :: 0 <= k < |handles| ==> cells[k] == handles[k] || cells[k] !in live
    requires Releasing(now, live, cells, refused)
    ensures Elements(cells) !! others && others <= now
    ensures now - others - Elements(cells) == Elements(handles) - Elements(cells)
    ensures forall h :: h in now && h !in others && h in cells ==> h in handles && h in refused
    ensures refused == [] ==> now == others + (Elements(handles) - Elements(cells))
  {
    forall h | h in Elements(cells) ensures h !in others {
      var k :| 0 <= k < |cells| && cells[k] == h;
      assert handles[k] in Elements(handles);
    }
    forall h ensures h in cells <==> h in Elements(cells) {}
    forall h ensures h in now - others - Elements(cells) <==> h in Elements(handles) - Elements(cells) {}
  }

  // ---------------------------------------------------------------- calls and results

  /** What one call may report and bring about. */
  predicate Follow(before: Condition, call: Call, result: bool, after: Condition) {
    match call
    case UnmapCall => (result <==> before == Waking) && after == Sleeping
    case MapCall =>
      match before
      case Sleeping => after == Waking || (after == Sleeping && !result)
      case Waking => !result && after != Sleeping
      case Broken => !result && after == Broken
  }

  ghost predicate Follows(calls: seq<Call>, results: seq<bool>, conditions: seq<Condition>) {
    && |results| == |calls| && |conditions| == |calls| + 1
    && forall i :: 0 <= i < |calls| ==> Follow(conditions[i], calls[i], results[i], conditions[i + 1])
  }

  ghost predicate UnmapsBroken(calls: seq<Call>, conditions: seq<Condition>)
    requires |conditions| > |calls|
  {
    exists i :: 0 <= i < |calls| && calls[i] == UnmapCall && conditions[i] == Broken
  }

  lemma OneMoreCall(calls: seq<Call>, results: seq<bool>, conditions: seq<Condition>, i: nat, ok: bool, next: Condition)
    requires i < |calls| && |results| == i && |conditions| == i + 1
    ensures Follows(calls[..i], results, conditions) && Follow(conditions[i], calls[i], ok, next) ==>
      Follows(calls[..i + 1], results + [ok], conditions + [next])
    ensures UnmapsBroken(calls[..i + 1], conditions + [next]) <==>
      UnmapsBroken(calls[..i], conditions) || (calls[i] == UnmapCall && conditions[i] == Broken)
  {
    var longer := conditions + [next];
    if UnmapsBroken(calls[..i], conditions) {
      var k :| 0 <= k < i && calls[..i][k] == UnmapCall && conditions[k] == Broken;
      assert calls[..i + 1][k] == UnmapCall && longer[k] == Broken;
    }
    if calls[i] == UnmapCall && conditions[i] == Broken {
      assert calls[..i + 1][i] == UnmapCall && longer[i] == Broken;
    }
    if UnmapsBroken(calls[..i + 1], longer) {
      var k :| 0 <= k < i + 1 && calls[..i + 1][k] == UnmapCall && longer[k] == Broken;
      assert k < i ==> calls[..i][k] == UnmapCall && conditions[k] == Broken;
    }
  }

  /** Some call to map comes right after another, or first on an allocation that is awake. */
  ghost predicate MapsAgain(start: Condition, calls: seq<Call>) {
    exists i :: 0 <= i < |calls| && MapsAgainAt(start, calls, i)
  }

  predicate MapsAgainAt(start: Condition, calls: seq<Call>, i: nat)
    requires i < |calls|
  {
    calls[i] == MapCall && if i == 0 then start != Sleeping else calls[i - 1] == MapCall
  }

  ghost predicate Breaks(conditions: seq<Condition>) {
    exists i :: 0 <= i < |conditions| && conditions[i] == Broken
  }

  lemma {:induction false} BrokenUntilUnmapped(calls: seq<Call>, results: seq<bool>, conditions: seq<Condition>, i: nat)
    requires Follows(calls, results, conditions) && i <= |calls| && conditions[i] == Broken
    ensures UnmapsBroken(calls, conditions) || conditions[|calls|] == Broken
    decreases |calls| - i
  {
    if i < |calls| && calls[i] == MapCall {
      assert Follow(conditions[i], calls[i], results[i], conditions[i + 1]);
      BrokenUntilUnmapped(calls, results, conditions, i + 1);
    }
  }

  /** An allocation was broken at some time exactly when it still is, or was unmapped while it was. */
  lemma BreaksIff(calls: seq<Call>, results: seq<bool>, conditions: seq<Condition>)
    requires Follows(calls, results, conditions)
    ensures Breaks(conditions) <==> UnmapsBroken(calls, conditions) || conditions[|calls|] == Broken
  {
    if Breaks(conditions) {
      var i: nat :| i < |conditions| && conditions[i] == Broken;
      BrokenUntilUnmapped(calls, results, conditions, i);
    }
  }

  /** Unless a call to map comes again without one to unmap in between, whatever the results are,
      no allocation is broken and so no handle is ever lost. */
  lemma AlternatingNeverBreaks(calls: seq<Call>, results: seq<bool>, conditions: seq<Condition>)
    requires Follows(calls, results, conditions) && conditions[0] != Broken && !MapsAgain(conditions[0], calls)
    ensures !Breaks(conditions) && !UnmapsBroken(calls, conditions)
  {
    forall i | 0 <= i <= |calls| ensures conditions[i] != Broken {
      ConditionAt(calls, results, conditions, i);
    }
  }

  lemma {:induction false} ConditionAt(calls: seq<Call>, results: seq<bool>, conditions: seq<Condition>, i: nat)
    requires Follows(calls, results, conditions) && conditions[0] != Broken && !MapsAgain(conditions[0], calls)
    requires i <= |calls|
    ensures conditions[i] != Broken
    ensures i > 0 && calls[i - 1] == UnmapCall ==> conditions[i] == Sleeping
  {
    if i > 0 {
      ConditionAt(calls, results, conditions, i - 1);
      assert Follow(conditions[i - 1], calls[i - 1], results[i - 1], conditions[i]);
      assert !MapsAgainAt(conditions[0], calls, i - 1);
    }
  }

  /** Failures that cannot be undone are never taken back. */
  lemma {:induction false} UnhandledGrows(calls: seq<Call>, results: seq<bool>, events: seq<Event>, views: seq<View>,
                                          base: nat, size: nat, sizes: seq<nat>, i: nat, j: nat)
    requires Trace(calls, results, events, views, base, size, sizes) && i <= j <= |calls|
    ensures views[i].unhandled <= views[j].unhandled
    decreases j
  {
    if i < j {
      UnhandledGrows(calls, results, events, views, base, size, sizes, i, j - 1);
      assert Step(views[j - 1], views[j], calls[j - 1], results[j - 1], events[j - 1], base, size, sizes);
    }
  }

  /** Conditions and results follow one another, and the last condition is that of the allocation now.
      `unmapped` are lost handles of which no chunk is mapped any more. */
  ghost predicate Tracks(calls: seq<Call>, results: seq<bool>, now: View, base: nat, size: nat, sizes: seq<nat>,
                         start: Condition, others: set<Handle>, outside: map<nat, Mapping>,
                         conditions: seq<Condition>, unmapped: set<Handle>, handles: seq<Handle>)
    requires |now.cells| == |sizes|
  {
    && Follows(calls, results, conditions) && conditions[0] == start && |handles| == |sizes|
    && unmapped !! others && (unmapped != {} <==> UnmapsBroken(calls, conditions))
    && Is(conditions[|calls|], now, base, size, sizes, others + unmapped, outside, handles)
    && (Breaks(conditions) ==> Lost(now, others) != {})
  }

  /** A run in which no call fails that cannot be undone.  There are lost handles of which no chunk is
      mapped any more exactly when a broken allocation was unmapped.  Handles are lost exactly when the
      allocation was ever broken, and it never is unless a call to map comes again. */
  lemma QuietRun(calls: seq<Call>, results: seq<bool>, events: seq<Event>, views: seq<View>,
                 base: nat, size: nat, sizes: seq<nat>, start: Condition, others: set<Handle>,
                 outside: map<nat, Mapping>)
    returns (conditions: seq<Condition>, unmapped: set<Handle>, handles: seq<Handle>)
    requires Trace(calls, results, events, views, base, size, sizes) && AllPositive(sizes) && |sizes| > 0
    requires views[|calls|].unhandled == views[0].unhandled
    requires start != Broken && Is(start, views[0], base, size, sizes, others, outside, views[0].cells)
    ensures Tracks(calls, results, views[|calls|], base, size, sizes, start, others, outside, conditions, unmapped,
                   handles)
    ensures Lost(views[|calls|], others) == {} <==> !Breaks(conditions)
    ensures unmapped == {} && conditions[|calls|] != Broken <==> !Breaks(conditions)
    ensures !MapsAgain(start, calls) ==> !Breaks(conditions)
  {
    conditions, unmapped, handles := [start], {}, views[0].cells;
    LostIffBroken(views[0], base, size, sizes, start, others, outside, handles);
    assert others + unmapped == others;
    for i := 0 to |calls|
      invariant Tracks(calls[..i], results[..i], views[i], base, size, sizes, start, others, outside, conditions,
                       unmapped, handles)
    {
      QuietStep(calls, results, events, views, base, size, sizes, i);
      BookedAt(calls, results, events, views, base, size, sizes, others, i);
      conditions, unmapped, handles := TracksOneMore(calls, results, i, views[i], views[i + 1], events[i],
        base, size, sizes, start, others, outside, conditions, unmapped, handles);
    }
    assert calls[..|calls|] == calls && results[..|calls|] == results;
    TracksToEnd(calls, results, views[|calls|], base, size, sizes, start, others, outside, conditions, unmapped,
                handles);
  }

  lemma TracksToEnd(calls: seq<Call>, results: seq<bool>, now: View, base: nat, size: nat, sizes: seq<nat>,
                    start: Condition, others: set<Handle>, outside: map<nat, Mapping>,
                    conditions: seq<Condition>, unmapped: set<Handle>, handles: seq<Handle>)
    requires |now.cells| == |sizes| && start != Broken
    requires Tracks(calls, results, now, base, size, sizes, start, others, outside, conditions, unmapped, handles)
    ensures Lost(now, others) == {} <==> !Breaks(conditions)
    ensures unmapped == {} && conditions[|calls|] != Broken <==> !Breaks(conditions)
    ensures !MapsAgain(start, calls) ==> !Breaks(conditions)
  {
    BreaksIff(calls, results, conditions);
    if !Breaks(conditions) {
      assert others + unmapped == others;
      LostIffBroken(now, base, size, sizes, conditions[|calls|], others, outside, handles);
    }
    if !MapsAgain(start, calls) { AlternatingNeverBreaks(calls, results, conditions); }
  }

  lemma QuietStep(calls: seq<Call>, results: seq<bool>, events: seq<Event>, views: seq<View>,
                  base: nat, size: nat, sizes: seq<nat>, i: nat)
    requires Trace(calls, results, events, views, base, size, sizes) && i < |calls|
    requires views[|calls|].unhandled == views[0].unhandled
    ensures views[i + 1].unhandled == views[i].unhandled
  {
    UnhandledGrows(calls, results, events, views, base, size, sizes, 0, i);
    UnhandledGrows(calls, results, events, views, base, size, sizes, i, i + 1);
    UnhandledGrows(calls, results, events, views, base, size, sizes, i + 1, |calls|);
  }

  lemma TracksOneMore(calls: seq<Call>, results: seq<bool>, i: nat, v: View, w: View, event: Event,
                      base: nat, size: nat, sizes: seq<nat>, start: Condition, others: set<Handle>,
                      outside: map<nat, Mapping>, before: seq<Condition>, lost: set<Handle>, held: seq<Handle>)
    returns (conditions: seq<Condition>, unmapped: set<Handle>, handles: seq<Handle>)
    requires i < |calls| == |results| && |v.cells| == |w.cells| == |sizes| > 0 && AllPositive(sizes) && ValidView(v)
    requires Tracks(calls[..i], results[..i], v, base, size, sizes, start, others, outside, before, lost, held)
    requires Step(v, w, calls[i], results[i], event, base, size, sizes) && w.unhandled == v.unhandled
    requires Separate(v, others)
    ensures Tracks(calls[..i + 1], results[..i + 1], w, base, size, sizes, start, others, outside, conditions,
                   unmapped, handles)
  {
    var next, more;
    next, more, handles := StepFollows(v, w, calls[i], results[i], event, base, size, sizes, before[i],
                                       others + lost, outside, held);
    conditions, unmapped := before + [next], lost + more;
    assert others + lost + more == others + unmapped;
    LostStays(v, w, calls[i], results[i], event, base, size, sizes, next, others, others + unmapped, outside, handles);
    OneMoreCall(calls, results[..i], before, i, results[i], next);
    assert results[..i + 1] == results[..i] + [results[i]];
    BreaksOneMore(before, next);
  }

  lemma LostStays(v: View, w: View, call: Call, result: bool, event: Event, base: nat, size: nat,
                  sizes: seq<nat>, next: Condition, others: set<Handle>, kept: set<Handle>,
                  outside: map<nat, Mapping>, handles: seq<Handle>)
    requires |v.cells| == |w.cells| == |sizes| == |handles| && AllPositive(sizes) && ValidView(v)
    requires Step(v, w, call, result, event, base, size, sizes)
    requires Separate(v, others) && others <= kept && Is(next, w, base, size, sizes, kept, outside, handles)
    ensures Separate(w, others) && Lost(v, others) <= Lost(w, others)
    ensures next == Broken ==> Lost(w, others) != {}
  {
    StepLedger(v, w, call, result, event, base, size, sizes, others);
    LostGrows(v, w, call, result, base, size, sizes, others);
    LostIffBroken(w, base, size, sizes, next, kept, outside, handles);
    LostOfMore(w, others, kept);
  }

  lemma LostOfMore(v: View, others: set<Handle>, more: set<Handle>)
    requires others <= more
    ensures Lost(v, more) <= Lost(v, others)
  {
  }

  lemma BreaksOneMore(conditions: seq<Condition>, next: Condition)
    ensures Breaks(conditions + [next]) <==> Breaks(conditions) || next == Broken
  {
    var longer := conditions + [next];
    if Breaks(conditions) {
      var i :| 0 <= i < |conditions| && conditions[i] == Broken;
      assert longer[i] == Broken;
    }
    if next == Broken { assert longer[|conditions|] == Broken; }
  }

  // ---------------------------------------------------------------- what some driver does

  function Fresh(first: nat, n: nat): (cells: seq<Handle>)
    ensures |cells| == n && forall k :: 0 <= k < n ==> cells[k] == first + k
  {
    seq(n, k => first + k)
  }

  /** With the range reserved and nothing mapped in it, all of the allocation may be mapped, with or
      without reporting a failure. */
  lemma CanMapRange(v: View, base: nat, size: nat, sizes: seq<nat>, stage: Stage) returns (w: View)
    requires |v.cells| == |sizes| && AllPositive(sizes) && ValidView(v) && (stage == Done || stage == AccessFailed)
    requires base in v.reserved && v.reserved[base] == size == Sum(sizes) && Clear(v.mapped, base, size)
    ensures |w.cells| == |sizes| && ValidView(w) && w.unhandled == v.unhandled
    ensures Step(v, w, MapCall, stage == Done, MapEvent(stage, [], []), base, size, sizes)
  {
    w := WithChunks(v, base, size, sizes, stage);
    RangeFits(v, base, size, sizes);
    WithChunksIsValid(v, base, size, sizes, stage);
    AllThereEffect(v, w, base, sizes);
  }

  /** All chunks are mapped to new handles. */
  ghost function WithChunks(v: View, base: nat, size: nat, sizes: seq<nat>, stage: Stage): View {
    var n, cells := |sizes|, Fresh(v.issued, |sizes|);
    var mapped := v.mapped + Chunks(base, sizes, cells, 0, n);
    var granted := set a | a in mapped && base <= a && a + mapped[a].size <= base + size;
    View(v.reserved, mapped, v.live + Issued(v.issued, v.issued + n), v.issued + n, v.unhandled, cells,
         v.created + sizes, if stage == Done then v.access + granted else v.access)
  }

  lemma WithChunksIsValid(v: View, base: nat, size: nat, sizes: seq<nat>, stage: Stage)
    requires AllPositive(sizes) && ValidView(v)
    ensures ValidView(WithChunks(v, base, size, sizes, stage))
  {
    var mapped := WithChunks(v, base, size, sizes, stage).mapped;
    forall a | a in mapped ensures mapped[a].size > 0 {
      ChunkLookup(base, sizes, Fresh(v.issued, |sizes|), 0, |sizes|, a);
    }
  }

  lemma RangeFits(v: View, base: nat, size: nat, sizes: seq<nat>)
    requires AllPositive(sizes)
    requires base in v.reserved && v.reserved[base] == size == Sum(sizes) && Clear(v.mapped, base, size) && ValidView(v)
    ensures forall k :: 0 <= k < |sizes| ==> Address(base, sizes, k) !in v.mapped
    ensures |sizes| > 0 ==> Fits(v.reserved, v.mapped, base, sizes[0])
  {
    forall k | 0 <= k < |sizes| ensures Address(base, sizes, k) !in v.mapped {
      AddressInside(base, sizes, k);
    }
    if |sizes| > 0 { AddressInside(base, sizes, 0); }
    assert Address(base, sizes, 0) == base;
  }

  /** So an allocation that is asleep may awake. */
  lemma CanMap(v: View, base: nat, size: nat, sizes: seq<nat>, others: set<Handle>, outside: map<nat, Mapping>,
               stage: Stage)
    returns (w: View)
    requires |v.cells| == |sizes| && AllPositive(sizes) && ValidView(v)
    requires Asleep(v, base, size, sizes, others, outside) && (stage == Done || stage == AccessFailed)
    ensures |w.cells| == |sizes| && ValidView(w) && w.unhandled == v.unhandled
    ensures Step(v, w, MapCall, stage == Done, MapEvent(stage, [], []), base, size, sizes)
    ensures Awake(w, base, size, sizes, others, outside)
  {
    w := CanMapRange(v, base, size, sizes, stage);
    MapAsleep(v, w, base, size, sizes, stage, [], [], others, outside);
  }

  /** Mapping an allocation that is awake may create all handles and then fail, which breaks it. */
  lemma CanBreak(v: View, base: nat, size: nat, sizes: seq<nat>, others: set<Handle>, outside: map<nat, Mapping>)
    returns (w: View)
    requires |v.cells| == |sizes| > 0 && AllPositive(sizes) && ValidView(v)
    requires Awake(v, base, size, sizes, others, outside)
    ensures |w.cells| == |sizes| && ValidView(w) && w.unhandled == v.unhandled
    ensures Step(v, w, MapCall, false, MapEvent(MapFailed, [], []), base, size, sizes)
    ensures Is(Broken, w, base, size, sizes, others, outside, v.cells)
  {
    w := v.(issued := v.issued + |sizes|, cells := Fresh(v.issued, |sizes|), created := v.created + sizes);
    MapHolding(v, w, base, size, sizes, MapFailed, [], [], others, outside, v.cells);
  }

  /** Unmapping may take everything of the allocation that is mapped, and all its cells hold but the
      handles in `refused`. */
  lemma CanUnmap(v: View, base: nat, size: nat, sizes: seq<nat>, condition: Condition, others: set<Handle>,
                 outside: map<nat, Mapping>, handles: seq<Handle>, refused: seq<Handle>)
    returns (w: View)
    requires |v.cells| == |sizes| == |handles| > 0 && AllPositive(sizes) && ValidView(v)
    requires condition != Sleeping && Is(condition, v, base, size, sizes, others, outside, handles)
    requires forall h :: h in refused ==> h in v.cells && h in v.live
    ensures w == v.(mapped := outside, live := v.live - (Elements(v.cells) - Elements(refused)),
                    unhandled := v.unhandled + |refused|, access := v.access * outside.Keys)
    ensures ValidView(w)
    ensures Step(v, w, UnmapCall, condition == Waking && refused == [], UnmapEvent(refused, []), base, size, sizes)
  {
    OwnHandlesLive(v, base, size, sizes, others, outside, handles);
    LostHandle(v.cells, handles, v.live);
    HoldingMapped(v, base, size, sizes, others, outside, handles);
    w := v.(mapped := outside, live := v.live - (Elements(v.cells) - Elements(refused)),
            unhandled := v.unhandled + |refused|, access := v.access * outside.Keys);
    CanTake(v.mapped, outside, base, sizes);
    assert Releasing(w.live, v.live, v.cells, refused);
    assert IsMapped(v.mapped, base, sizes, 0);
  }

  lemma CanTake(before: map<nat, Mapping>, outside: map<nat, Mapping>, base: nat, sizes: seq<nat>)
    requires AllMapped(before, base, sizes) && before - Addresses(base, sizes) == outside
    ensures Unmapping(outside, before, base, sizes, |sizes|, [])
  {
    forall a | a in Addresses(base, sizes) ensures IsChunk(before, base, sizes, |sizes|, a) {
      var k :| 0 <= k < |sizes| && a == Address(base, sizes, k);
      assert IsMapped(before, base, sizes, k);
    }
  }

  /** Unmapping an allocation that is asleep may leave everything as it is and report a failure. */
  lemma CanStayAsleep(v: View, base: nat, size: nat, sizes: seq<nat>, others: set<Handle>, outside: map<nat, Mapping>)
    requires |v.cells| == |sizes| > 0 && AllPositive(sizes) && ValidView(v)
    requires Asleep(v, base, size, sizes, others, outside)
    ensures Step(v, v, UnmapCall, false, UnmapEvent([], []), base, size, sizes)
  {
    forall k | 0 <= k < |sizes| ensures Address(base, sizes, k) !in v.mapped {
      AddressInside(base, sizes, k);
    }
    assert !IsMapped(v.mapped, base, sizes, 0);
    forall h ensures h in v.cells <==> h in Elements(v.cells) {}
  }

  /** The worst a call can bring about, without a failure that cannot be undone: a call to map reports
      a failure and yet maps an allocation that is asleep, or breaks one that is not. */
  lemma WorstStep(v: View, call: Call, base: nat, size: nat, sizes: seq<nat>, condition: Condition,
                  others: set<Handle>, outside: map<nat, Mapping>, handles: seq<Handle>)
    returns (w: View, result: bool, event: Event, next: Condition, more: set<Handle>, handles': seq<Handle>)
    requires |v.cells| == |sizes| == |handles| > 0 && AllPositive(sizes) && ValidView(v)
    requires Is(condition, v, base, size, sizes, others, outside, handles)
    ensures |w.cells| == |sizes| == |handles'| && ValidView(w) && w.unhandled == v.unhandled
    ensures Step(v, w, call, result, event, base, size, sizes) && (call == MapCall ==> !result && more == {})
    ensures Is(next, w, base, size, sizes, others + more, outside, handles')
    ensures next == if call == UnmapCall then Sleeping else if condition == Sleeping then Waking else Broken
  {
    w, result, event, more, handles' := v, false, MapEvent(CreateFailed, [], []), {}, handles;
    assert others + more == others;
    if call == UnmapCall {
      event := UnmapEvent([], []);
      if condition == Sleeping {
        CanStayAsleep(v, base, size, sizes, others, outside);
      } else {
        w := CanUnmap(v, base, size, sizes, condition, others, outside, handles, []);
        result := condition == Waking;
      }
      next, more, handles' :=
        StepFollows(v, w, call, result, event, base, size, sizes, condition, others, outside, handles);
    } else if condition == Sleeping {
      event := MapEvent(AccessFailed, [], []);
      w := CanMap(v, base, size, sizes, others, outside, AccessFailed);
      next, handles' := Waking, w.cells;
    } else {
      if condition == Waking {
        event := MapEvent(MapFailed, [], []);
        w := CanBreak(v, base, size, sizes, others, outside);
      }
      next := Broken;
    }
  }

  /** A run from `v` in which no call fails that cannot be undone, and every call to map reports a
      failure. */
  ghost predicate FailsQuietly(calls: seq<Call>, results: seq<bool>, events: seq<Event>, views: seq<View>,
                               base: nat, size: nat, sizes: seq<nat>, v: View)
  {
    && Trace(calls, results, events, views, base, size, sizes)
    && views[0] == v && views[|calls|].unhandled == v.unhandled
    && (forall i :: 0 <= i < |calls| && calls[i] == MapCall ==> !results[i])
  }

  /** ... and yet handles are lost. */
  ghost predicate LosesQuietly(calls: seq<Call>, results: seq<bool>, events: seq<Event>, views: seq<View>,
                               base: nat, size: nat, sizes: seq<nat>, v: View, others: set<Handle>)
  {
    FailsQuietly(calls, results, events, views, base, size, sizes, v) && Lost(views[|calls|], others) != {}
  }

  lemma FailsOneMore(calls: seq<Call>, results: seq<bool>, events: seq<Event>, views: seq<View>, v: View,
                     result: bool, event: Event, w: View, base: nat, size: nat, sizes: seq<nat>)
    requires calls != [] && FailsQuietly(calls[..|calls| - 1], results, events, views, base, size, sizes, v)
    requires |w.cells| == |sizes| && ValidView(w) && w.unhandled == v.unhandled
    requires Step(views[|calls| - 1], w, calls[|calls| - 1], result, event, base, size, sizes)
    requires calls[|calls| - 1] == MapCall ==> !result
    ensures FailsQuietly(calls, results + [result], events + [event], views + [w], base, size, sizes, v)
  {
    var n: nat := |calls| - 1;
    OneMoreStep(calls, results, events, views, n, result, event, w, base, size, sizes);
    assert calls[..n + 1] == calls;
    assert forall i :: 0 <= i < n ==> calls[..n][i] == calls[i];
  }

  /** A sequence of calls can lose a handle, with no call failing that cannot be undone, exactly when
      some call to map comes again. That is so even if every call to map reports a failure, so a caller
      that tries again after a failure cannot tell. */
  lemma CanBreakIff(v: View, calls: seq<Call>, base: nat, size: nat, sizes: seq<nat>, start: Condition,
                    others: set<Handle>, outside: map<nat, Mapping>)
    requires |v.cells| == |sizes| > 0 && AllPositive(sizes) && ValidView(v)
    requires start != Broken && Is(start, v, base, size, sizes, others, outside, v.cells)
    ensures MapsAgain(start, calls) <==>
      exists results, events, views :: LosesQuietly(calls, results, events, views, base, size, sizes, v, others)
  {
    if MapsAgain(start, calls) {
      var results, events, views, _, _, _ := WorstRun(v, calls, base, size, sizes, start, others, outside);
      assert LosesQuietly(calls, results, events, views, base, size, sizes, v, others);
    }
    forall results, events, views | LosesQuietly(calls, results, events, views, base, size, sizes, v, others)
      ensures MapsAgain(start, calls)
    {
      var _, _, _ := QuietRun(calls, results, events, views, base, size, sizes, start, others, outside);
    }
  }

  /** Only a call to unmap puts an allocation to sleep. */
  predicate SleepsAfter(start: Condition, calls: seq<Call>) {
    if calls == [] then start == Sleeping else calls[|calls| - 1] == UnmapCall
  }

  lemma MapsAgainOneMore(start: Condition, calls: seq<Call>)
    requires calls != [] && MapsAgain(start, calls)
    ensures
      var n: nat := |calls| - 1;
      MapsAgain(start, calls[..n]) || (calls[n] == MapCall && !SleepsAfter(start, calls[..n]))
  {
    var n: nat := |calls| - 1;
    var i :| 0 <= i < |calls| && MapsAgainAt(start, calls, i);
    if i < n { assert MapsAgainAt(start, calls[..n], i); }
  }

  /** The allocation after calls at their worst.  `kept` are the others and the lost handles of which no
      chunk is mapped any more. */
  ghost predicate AtWorst(start: Condition, calls: seq<Call>, now: View, base: nat, size: nat, sizes: seq<nat>,
                          others: set<Handle>, outside: map<nat, Mapping>,
                          condition: Condition, kept: set<Handle>, handles: seq<Handle>)
    requires |now.cells| == |sizes|
  {
    && others <= kept && |handles| == |sizes| && Separate(now, others)
    && Is(condition, now, base, size, sizes, kept, outside, handles)
    && (condition == Sleeping <==> SleepsAfter(start, calls))
    && (MapsAgain(start, calls) ==> Lost(now, others) != {})
  }

  lemma WorstOneMore(start: Condition, calls: seq<Call>, v: View, base: nat, size: nat, sizes: seq<nat>,
                     others: set<Handle>, outside: map<nat, Mapping>,
                     before: Condition, had: set<Handle>, held: seq<Handle>)
    returns (w: View, result: bool, event: Event, condition: Condition, kept: set<Handle>, handles: seq<Handle>)
    requires calls != [] && |v.cells| == |sizes| > 0 && AllPositive(sizes) && ValidView(v)
    requires AtWorst(start, calls[..|calls| - 1], v, base, size, sizes, others, outside, before, had, held)
    ensures |w.cells| == |sizes| && ValidView(w) && w.unhandled == v.unhandled
    ensures Step(v, w, calls[|calls| - 1], result, event, base, size, sizes)
    ensures calls[|calls| - 1] == MapCall ==> !result
    ensures AtWorst(start, calls, w, base, size, sizes, others, outside, condition, kept, handles)
  {
    var call, more := calls[|calls| - 1], {};
    if MapsAgain(start, calls) { MapsAgainOneMore(start, calls); }
    w, result, event, condition, more, handles :=
      WorstStep(v, call, base, size, sizes, before, had, outside, held);
    kept := had + more;
    LostStays(v, w, call, result, event, base, size, sizes, condition, others, kept, outside, handles);
  }

  lemma {:induction false} WorstRun(v: View, calls: seq<Call>, base: nat, size: nat, sizes: seq<nat>,
                                    start: Condition, others: set<Handle>, outside: map<nat, Mapping>)
    returns (results: seq<bool>, events: seq<Event>, views: seq<View>,
             condition: Condition, kept: set<Handle>, handles: seq<Handle>)
    requires |v.cells| == |sizes| > 0 && AllPositive(sizes) && ValidView(v)
    requires start != Broken && Is(start, v, base, size, sizes, others, outside, v.cells)
    ensures FailsQuietly(calls, results, events, views, base, size, sizes, v)
    ensures AtWorst(start, calls, views[|calls|], base, size, sizes, others, outside, condition, kept, handles)
    decreases |calls|
  {
    if calls == [] {
      results, events, views, condition, kept, handles := [], [], [v], start, others, v.cells;
      LostIffBroken(v, base, size, sizes, start, others, outside, handles);
      return;
    }
    var n: nat := |calls| - 1;
    results, events, views, condition, kept, handles :=
      WorstRun(v, calls[..n], base, size, sizes, start, others, outside);
    var w, result, event;
    w, result, event, condition, kept, handles :=
      WorstOneMore(start, calls, views[n], base, size, sizes, others, outside, condition, kept, handles);
    FailsOneMore(calls, results, events, views, v, result, event, w, base, size, sizes);
    results, events, views := results + [result], events + [event], views + [w];
  }

  // ---------------------------------------------------------------- losses after failures that cannot be undone

  /** Whatever of the cells' handles a call to unmap leaves live is lost when the next call to map
      creates all handles. */
  lemma RemappedLoses(v: View, w: View, x: View, base: nat, size: nat, sizes: seq<nat>, ok: bool,
                      refused: seq<Handle>, stuck: seq<nat>, mapped: Event, others: set<Handle>)
    requires |v.cells| == |w.cells| == |x.cells| == |sizes| && AllPositive(sizes) && ValidView(w)
    requires Separate(v, others) && UnmapEffect(v, w, base, size, sizes, ok, refused, stuck)
    requires mapped.MapEvent? && MapEffect(w, x, base, sizes, mapped.stage, mapped.refused, mapped.stuck)
    requires x.issued == w.issued + |sizes|
    ensures Lost(x, others) == Lost(v, others) + Elements(v.cells) * w.live
    ensures forall h :: h in Elements(v.cells) * w.live ==> h in refused
  {
    UnmapLedger(v, w, base, size, sizes, ok, refused, stuck, others);
    MapLedger(w, x, base, size, sizes, mapped.stage, mapped.refused, mapped.stuck, others);
    var n := |sizes|;
    assert w.cells[..n] == w.cells && w.cells[n..] == [];
    forall h ensures h in Dropped(w, x) <==> h in w.live && h in v.cells {
      DroppedIff(w, x, base, sizes, mapped.stage, mapped.refused, mapped.stuck, h);
    }
  }

  lemma TwoSteps(u: View, v: View, w: View, calls: seq<Call>, results: seq<bool>, events: seq<Event>,
                 base: nat, size: nat, sizes: seq<nat>)
    requires |calls| == |results| == |events| == 2
    requires |u.cells| == |v.cells| == |w.cells| == |sizes| && ValidView(u) && ValidView(v) && ValidView(w)
    requires Step(u, v, calls[0], results[0], events[0], base, size, sizes)
    requires Step(v, w, calls[1], results[1], events[1], base, size, sizes)
    ensures Trace(calls, results, events, [u, v, w], base, size, sizes)
  {
  }

  /** That happens: of an allocation that is awake one release is refused, and the next call to map
      succeeds, so that no call to map comes again and yet a handle is lost. */
  lemma RefusedReleaseLoses(v: View, base: nat, size: nat, sizes: seq<nat>, others: set<Handle>,
                            outside: map<nat, Mapping>)
    returns (w: View, x: View)
    requires |v.cells| == |sizes| > 0 && AllPositive(sizes) && ValidView(v)
    requires Awake(v, base, size, sizes, others, outside)
    ensures Trace([UnmapCall, MapCall], [false, true], [UnmapEvent([v.cells[0]], []), MapEvent(Done, [], [])],
                  [v, w, x], base, size, sizes)
    ensures x.unhandled == v.unhandled + 1 && !MapsAgain(Waking, [UnmapCall, MapCall])
    ensures Lost(v, others) == {} && Lost(x, others) == {v.cells[0]}
  {
    var refused := [v.cells[0]];
    OwnHandlesLive(v, base, size, sizes, others, outside, v.cells);
    LostIffBroken(v, base, size, sizes, Waking, others, outside, v.cells);
    w := CanUnmap(v, base, size, sizes, Waking, others, outside, v.cells, refused);
    x := CanMapRange(w, base, size, sizes, Done);
    TwoSteps(v, w, x, [UnmapCall, MapCall], [false, true], [UnmapEvent(refused, []), MapEvent(Done, [], [])],
             base, size, sizes);
    RemappedLoses(v, w, x, base, size, sizes, false, refused, [], MapEvent(Done, [], []), others);
    assert Elements(refused) == {v.cells[0]};
    assert Elements(v.cells) * w.live == {v.cells[0]};
  }

  /** With an error pending, or one in setting the context, the handle that a call to map creates is
      live and in the first cell.  What is lost is the handle that was there, if it was live. */
  lemma PendingKeepsHandle(v: View, w: View, base: nat, sizes: seq<nat>, refused: seq<Handle>, stuck: seq<nat>)
    requires |v.cells| == |w.cells| == |sizes| && ValidView(v)
    requires MapEffect(v, w, base, sizes, Pending, refused, stuck) && w.issued > v.issued
    ensures |sizes| > 0 && w.cells == v.cells[0 := v.issued] && w.live == v.live + {w.cells[0]}
    ensures Dropped(v, w) == if v.cells[0] in v.live && v.cells[0] !in v.cells[1..] then {v.cells[0]} else {}
  {
    assert Issued(v.issued, w.issued) == {v.issued};
    forall h ensures h in Dropped(v, w) <==> h in v.live && h in v.cells[..1] && h !in v.cells[1..] {
      DroppedIff(v, w, base, sizes, Pending, refused, stuck, h);
    }
  }

  /** The next call to unmap releases that handle, unless a call fails that cannot be undone.  If the
      allocation was asleep, it is again, and an error is reported.  If it was awake, none is reported,
      although the handle that was in the first cell is lost. */
  lemma PendingThenUnmapped(v: View, w: View, x: View, base: nat, size: nat, sizes: seq<nat>, ok: bool,
                            unmapped: Event, others: set<Handle>, outside: map<nat, Mapping>)
    requires |v.cells| == |w.cells| == |x.cells| == |sizes| && AllPositive(sizes) && ValidView(v) && ValidView(w)
    requires MapEffect(v, w, base, sizes, Pending, [], []) && w.issued > v.issued
    requires Step(w, x, UnmapCall, ok, unmapped, base, size, sizes) && x.unhandled == w.unhandled
    ensures Asleep(v, base, size, sizes, others, outside) ==> !ok && Asleep(x, base, size, sizes, others, outside)
    ensures Awake(v, base, size, sizes, others, outside) ==>
      && ok && Asleep(x, base, size, sizes, others + {v.cells[0]}, outside)
      && Lost(x, others) == {v.cells[0]}
  {
    PendingKeepsHandle(v, w, base, sizes, [], []);
    assert unmapped.refused == [] && unmapped.stuck == [];
    if Asleep(v, base, size, sizes, others, outside) {
      PendingAsleep(v, w, x, base, size, sizes, ok, others, outside);
    }
    if Awake(v, base, size, sizes, others, outside) {
      PendingAwake(v, w, x, base, size, sizes, ok, unmapped, others, outside);
    }
  }

  lemma PendingAsleep(v: View, w: View, x: View, base: nat, size: nat, sizes: seq<nat>, ok: bool,
                      others: set<Handle>, outside: map<nat, Mapping>)
    requires |v.cells| == |w.cells| == |sizes| > 0 && AllPositive(sizes) && ValidView(v)
    requires Asleep(v, base, size, sizes, others, outside)
    requires w.mapped == v.mapped && w.live == v.live + {w.cells[0]} && w.cells == v.cells[0 := v.issued]
    requires UnmapEffect(w, x, base, size, sizes, ok, [], []) && x.unhandled == w.unhandled && w.reserved == v.reserved
    ensures !ok && Asleep(x, base, size, sizes, others, outside)
  {
    forall k | 0 <= k < |sizes| ensures Address(base, sizes, k) !in w.mapped {
      AddressInside(base, sizes, k);
    }
    AllUnmapped(x.mapped, w.mapped, base, sizes);
    assert !IsMapped(w.mapped, base, sizes, 0);
    forall k | 0 <= k < |sizes| ensures w.cells[k] !in others {
      assert k > 0 ==> w.cells[k] == v.cells[k] && v.cells[k] in Elements(v.cells);
    }
  }

  lemma PendingAwake(v: View, w: View, x: View, base: nat, size: nat, sizes: seq<nat>, ok: bool, unmapped: Event,
                     others: set<Handle>, outside: map<nat, Mapping>)
    requires |v.cells| == |w.cells| == |x.cells| == |sizes| > 0 && AllPositive(sizes) && ValidView(v) && ValidView(w)
    requires Awake(v, base, size, sizes, others, outside)
    requires MapEffect(v, w, base, sizes, Pending, [], []) && w.issued == v.issued + 1
    requires Step(w, x, UnmapCall, ok, unmapped, base, size, sizes) && x.unhandled == w.unhandled
    ensures ok && Asleep(x, base, size, sizes, others + {v.cells[0]}, outside) && Lost(x, others) == {v.cells[0]}
  {
    PendingKeepsHandle(v, w, base, sizes, [], []);
    OwnHandlesLive(v, base, size, sizes, others, outside, v.cells);
    LostIffBroken(v, base, size, sizes, Waking, others, outside, v.cells);
    HoldingMapped(v, base, size, sizes, others, outside, v.cells);
    FirstReplaced(v.cells, v.issued, v.live);
    assert AllInPlace(w, base, size, sizes);
    AllUnmapped(x.mapped, w.mapped, base, sizes);
    UnmapLedger(w, x, base, size, sizes, ok, unmapped.refused, unmapped.stuck, others);
  }

  lemma FirstReplaced(cells: seq<Handle>, h: Handle, live: set<Handle>)
    requires AllLive(cells, live) && cells != [] && h !in live
    ensures Elements(cells[0 := h]) == Elements(cells) - {cells[0]} + {h}
    ensures AllLive(cells[0 := h], live + {h})
  {
    var replaced := cells[0 := h];
    forall x | x in Elements(cells) - {cells[0]} ensures x in replaced {
      var k :| 0 <= k < |cells| && cells[k] == x;
      assert replaced[k] == x;
    }
    forall k | 0 < k < |cells| ensures cells[k] != cells[0] && replaced[k] == cells[k] {
      assert !Repeats(cells, 0, k);
    }
    assert replaced[0] == h;
    forall i, j | 0 <= i < j < |cells| ensures !Repeats(replaced, i, j) {
      assert !Repeats(cells, i, j) && cells[j] in live;
    }
  }

  // ---------------------------------------------------------------- which calls can lose a handle at all

  /** Some call to map comes on an allocation that is awake, or after another, with whatever in between. */
  ghost predicate MapsTwice(start: Condition, calls: seq<Call>) {
    exists i :: 0 <= i < |calls| && MapsTwiceAt(start, calls, i)
  }

  predicate MapsTwiceAt(start: Condition, calls: seq<Call>, i: nat)
    requires i < |calls|
  {
    calls[i] == MapCall && (start != Sleeping || MapCall in calls[..i])
  }

  lemma MapsTwiceOneMore(start: Condition, calls: seq<Call>)
    requires calls != []
    ensures
      var n: nat := |calls| - 1;
      MapsTwice(start, calls) <==> MapsTwice(start, calls[..n]) || MapsTwiceAt(start, calls, n)
  {
    var n: nat := |calls| - 1;
    if MapsTwice(start, calls[..n]) {
      var i :| 0 <= i < n && MapsTwiceAt(start, calls[..n], i);
      assert calls[..n][..i] == calls[..i] && MapsTwiceAt(start, calls, i);
    }
    if MapsTwice(start, calls) {
      var i :| 0 <= i < |calls| && MapsTwiceAt(start, calls, i);
      if i < n { assert calls[..n][..i] == calls[..i] && MapsTwiceAt(start, calls[..n], i); }
    }
  }

  /** A run from `v` in which handles are lost. */
  ghost predicate Loses(calls: seq<Call>, results: seq<bool>, events: seq<Event>, views: seq<View>,
                        base: nat, size: nat, sizes: seq<nat>, v: View, others: set<Handle>)
  {
    Trace(calls, results, events, views, base, size, sizes) && views[0] == v && Lost(views[|calls|], others) != {}
  }

  function LiveOf(cells: seq<Handle>, live: set<Handle>): (r: seq<Handle>)
    ensures forall h :: h in r <==> h in cells && h in live
  {
    if cells == [] then []
    else LiveOf(cells[..|cells| - 1], live) + (if cells[|cells| - 1] in live then [cells[|cells| - 1]] else [])
  }

  /** A call to unmap may be refused everything. */
  lemma CanRefuse(v: View, base: nat, size: nat, sizes: seq<nat>, condition: Condition, others: set<Handle>,
                  outside: map<nat, Mapping>, handles: seq<Handle>)
    returns (w: View, event: Event)
    requires |v.cells| == |sizes| == |handles| > 0 && AllPositive(sizes) && ValidView(v)
    requires condition != Sleeping && Is(condition, v, base, size, sizes, others, outside, handles)
    ensures |w.cells| == |sizes| && ValidView(w) && Step(v, w, UnmapCall, false, event, base, size, sizes)
    ensures Is(condition, w, base, size, sizes, others, outside, handles)
  {
    var refused, stuck := LiveOf(v.cells, v.live), seq(|sizes|, k requires 0 <= k < |sizes| => Address(base, sizes, k));
    w := v.(unhandled := v.unhandled + |refused| + |stuck|);
    event := UnmapEvent(refused, stuck);
    forall a | IsChunk(v.mapped, base, sizes, |sizes|, a) ensures a in stuck {
      var k :| 0 <= k < |sizes| && a == Address(base, sizes, k);
      assert stuck[k] == a;
    }
    HoldingMapped(v, base, size, sizes, others, outside, handles);
    assert IsMapped(v.mapped, base, sizes, 0);
  }

  /** A call to unmap that is refused everything, or one to map that fails as late as it can. */
  lemma RefusingStep(v: View, call: Call, base: nat, size: nat, sizes: seq<nat>, condition: Condition,
                     others: set<Handle>, outside: map<nat, Mapping>, handles: seq<Handle>)
    returns (w: View, result: bool, event: Event, next: Condition, handles': seq<Handle>)
    requires |v.cells| == |sizes| == |handles| > 0 && AllPositive(sizes) && ValidView(v)
    requires Is(condition, v, base, size, sizes, others, outside, handles)
    ensures |w.cells| == |sizes| == |handles'| && ValidView(w)
    ensures Step(v, w, call, result, event, base, size, sizes)
    ensures Is(next, w, base, size, sizes, others, outside, handles')
    ensures next == if call == UnmapCall then condition else if condition == Sleeping then Waking else Broken
  {
    w, result, event, next, handles' := v, false, UnmapEvent([], []), condition, handles;
    if call == MapCall {
      var more;
      w, result, event, next, more, handles' :=
        WorstStep(v, MapCall, base, size, sizes, condition, others, outside, handles);
      assert others + more == others;
    } else if condition == Sleeping {
      CanStayAsleep(v, base, size, sizes, others, outside);
    } else {
      w, event := CanRefuse(v, base, size, sizes, condition, others, outside, handles);
    }
  }

  lemma {:induction false} RefusingRun(v: View, calls: seq<Call>, base: nat, size: nat, sizes: seq<nat>,
                                       start: Condition, others: set<Handle>, outside: map<nat, Mapping>)
    returns (results: seq<bool>, events: seq<Event>, views: seq<View>, condition: Condition, handles: seq<Handle>)
    requires |v.cells| == |sizes| > 0 && AllPositive(sizes) && ValidView(v)
    requires start != Broken && Is(start, v, base, size, sizes, others, outside, v.cells)
    ensures Trace(calls, results, events, views, base, size, sizes) && views[0] == v && |handles| == |sizes|
    ensures Is(condition, views[|calls|], base, size, sizes, others, outside, handles)
    ensures condition == Sleeping <==> start == Sleeping && MapCall !in calls
    ensures condition == Broken <==> MapsTwice(start, calls)
    decreases |calls|
  {
    if calls == [] {
      results, events, views, condition, handles := [], [], [v], start, v.cells;
      return;
    }
    var n: nat := |calls| - 1;
    results, events, views, condition, handles := RefusingRun(v, calls[..n], base, size, sizes, start, others, outside);
    var w, result, event;
    w, result, event, condition, handles :=
      RefusingStep(views[n], calls[n], base, size, sizes, condition, others, outside, handles);
    MapsTwiceOneMore(start, calls);
    assert calls == calls[..n] + [calls[n]];
    OneMoreStep(calls, results, events, views, n, result, event, w, base, size, sizes);
    assert calls[..n + 1] == calls;
    results, events, views := results + [result], events + [event], views + [w];
  }

  /** Whatever fails, an allocation that is asleep stays so until the first call to map, which loses nothing. */
  lemma {:induction false} FirstMapKeeps(calls: seq<Call>, results: seq<bool>, events: seq<Event>, views: seq<View>,
                                         base: nat, size: nat, sizes: seq<nat>, others: set<Handle>,
                                         outside: map<nat, Mapping>, i: nat)
    requires Trace(calls, results, events, views, base, size, sizes) && AllPositive(sizes) && |sizes| > 0
    requires Asleep(views[0], base, size, sizes, others, outside)
    requires i <= |calls| && forall k :: 0 <= k < i ==> calls[k] == UnmapCall
    ensures Asleep(views[i], base, size, sizes, others, outside)
    ensures i < |calls| && calls[i] == MapCall ==> Dropped(views[i], views[i + 1]) == {}
  {
    if i > 0 {
      FirstMapKeeps(calls, results, events, views, base, size, sizes, others, outside, i - 1);
      assert Step(views[i - 1], views[i], calls[i - 1], results[i - 1], events[i - 1], base, size, sizes);
      UnmapAsleep(views[i - 1], views[i], base, size, sizes, results[i - 1], events[i - 1].refused, events[i - 1].stuck,
                  others, outside);
    }
  }

  /** A sequence of calls can lose a handle, if calls may fail in any way, exactly when some call to map
      comes on an allocation that is awake or after another. */
  lemma CanLoseIff(v: View, calls: seq<Call>, base: nat, size: nat, sizes: seq<nat>, start: Condition,
                   others: set<Handle>, outside: map<nat, Mapping>)
    requires |v.cells| == |sizes| > 0 && AllPositive(sizes) && ValidView(v)
    requires start != Broken && Is(start, v, base, size, sizes, others, outside, v.cells)
    ensures MapsTwice(start, calls) <==>
      exists results, events, views :: Loses(calls, results, events, views, base, size, sizes, v, others)
  {
    if MapsTwice(start, calls) {
      var results, events, views, condition, handles :=
        RefusingRun(v, calls, base, size, sizes, start, others, outside);
      LostIffBroken(views[|calls|], base, size, sizes, condition, others, outside, handles);
      assert Loses(calls, results, events, views, base, size, sizes, v, others);
    }
    forall results, events, views | Loses(calls, results, events, views, base, size, sizes, v, others)
      ensures MapsTwice(start, calls)
    {
      LostIffBroken(v, base, size, sizes, start, others, outside, v.cells);
      RunLedger(calls, results, events, views, base, size, sizes, others);
      var i :| 0 <= i < |calls| && calls[i] == MapCall && Dropped(views[i], views[i + 1]) != {};
      if start == Sleeping {
        if k :| 0 <= k < i && calls[k] == MapCall {
          assert calls[..i][k] == MapCall && MapsTwiceAt(start, calls, i);
        } else {
          FirstMapKeeps(calls, results, events, views, base, size, sizes, others, outside, i);
        }
      } else {
        assert MapsTwiceAt(start, calls, i);
      }
    }
  }

  // ---------------------------------------------------------------- an allocation without chunks

  /** Where the count of chunks wraps to zero there are none, and no call maps or creates anything, though
      mapping may report success. */
  lemma NoChunks(v: View, w: View, call: Call, result: bool, event: Event, base: nat, size: nat) returns (x: View)
    requires v.cells == w.cells == [] && Step(v, w, call, result, event, base, size, [])
    ensures w.mapped == v.mapped && w.live == v.live && w.issued == v.issued
    ensures call == MapCall ==> event.stage != CreateFailed && w.reserved == v.reserved
    ensures x.cells == [] && x.mapped == v.mapped && x.live == v.live
    ensures Step(v, x, MapCall, true, MapEvent(Done, [], []), base, size, [])
  {
    var granted := set a | a in v.mapped && base <= a && a + v.mapped[a].size <= base + size;
    x := v.(access := v.access + granted);
  }
}
