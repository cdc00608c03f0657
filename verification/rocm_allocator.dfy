/** The chunked ROCm allocator against a driver that may fail any call: creating and
    mapping with rollback, unmapping and releasing with the address kept, and the global
    error code that the Python entry points clear.

    The driver is modelled by what it holds: address reservations, mappings and live
    handles.  A call the driver cannot honour fails; any other call may fail. */
module RocmAllocator {
  import opened Common
  import opened RocmChunks

  type Handle = nat
  type Status = nat

  const NO_ERROR: Status := 0

  /** A mapping from its start address: how long it is, and of which handle. */
  datatype Mapping = Mapping(size: nat, handle: Handle)

  // ---------------------------------------------------------------- addresses of chunks

  /** Where chunk i of an allocation at `base` starts. */
  function Address(base: nat, sizes: seq<nat>, i: nat): nat
    requires i <= |sizes|
  {
    base + Sum(sizes[..i])
  }

  lemma AddressStep(base: nat, sizes: seq<nat>, i: nat)
    requires i < |sizes|
    ensures Address(base, sizes, i + 1) == Address(base, sizes, i) + sizes[i]
  {
    assert sizes[..i + 1] == sizes[..i] + [sizes[i]];
    SumOneMore(sizes[..i], sizes[i]);
  }

  lemma {:induction false} AddressesGrow(base: nat, sizes: seq<nat>, i: nat, j: nat)
    requires AllPositive(sizes) && i < j <= |sizes|
    ensures Address(base, sizes, i) + sizes[i] <= Address(base, sizes, j)
    decreases j
  {
    AddressStep(base, sizes, j - 1);
    if i < j - 1 { AddressesGrow(base, sizes, i, j - 1); }
  }

  /** The mappings of chunks lo to hi: contiguous from the base, one handle each. */
  ghost function Chunks(base: nat, sizes: seq<nat>, handles: seq<Handle>, lo: nat, hi: nat): map<nat, Mapping>
    requires lo <= hi <= |sizes| == |handles|
    decreases hi - lo
  {
    if lo == hi then map[]
    else
      var last := hi - 1;
      Chunks(base, sizes, handles, lo, last)[Address(base, sizes, last) := Mapping(sizes[last], handles[last])]
  }

  lemma {:induction false} ChunkLookup(base: nat, sizes: seq<nat>, handles: seq<Handle>, lo: nat, hi: nat, a: nat)
    requires AllPositive(sizes) && lo <= hi <= |sizes| == |handles|
    ensures a in Chunks(base, sizes, handles, lo, hi) <==> exists i :: lo <= i < hi && a == Address(base, sizes, i)
    ensures forall i :: lo <= i < hi && a == Address(base, sizes, i) ==>
      Chunks(base, sizes, handles, lo, hi)[a] == Mapping(sizes[i], handles[i])
    decreases hi - lo
  {
    if lo < hi {
      ChunkLookup(base, sizes, handles, lo, hi - 1, a);
      forall i | lo <= i < hi - 1 ensures Address(base, sizes, i) < Address(base, sizes, hi - 1) {
        AddressesGrow(base, sizes, i, hi - 1);
      }
    }
  }

  ghost function Addresses(base: nat, sizes: seq<nat>): set<nat> {
    set i | 0 <= i < |sizes| :: Address(base, sizes, i)
  }

  lemma AddressInside(base: nat, sizes: seq<nat>, i: nat)
    requires AllPositive(sizes) && i < |sizes|
    ensures base <= Address(base, sizes, i) && Address(base, sizes, i) + sizes[i] <= base + Sum(sizes)
  {
    assert sizes[..|sizes|] == sizes;
    AddressesGrow(base, sizes, i, |sizes|);
  }

  lemma AwakeChunks(base: nat, size: nat, sizes: seq<nat>, handles: seq<Handle>, outside: map<nat, Mapping>)
    requires AllPositive(sizes) && |handles| == |sizes| && size == Sum(sizes)
    requires forall a :: a in outside ==> a + outside[a].size <= base || base + size <= a
    requires forall a :: a in outside ==> outside[a].size > 0
    ensures
      var mapped := outside + Chunks(base, sizes, handles, 0, |sizes|);
      && (forall i :: 0 <= i < |sizes| ==>
            var a := Address(base, sizes, i); a in mapped && mapped[a] == Mapping(sizes[i], handles[i]))
      && (forall a :: a in mapped && a !in Addresses(base, sizes) ==> a in outside)
      && mapped - Addresses(base, sizes) == outside
  {
    var chunks := Chunks(base, sizes, handles, 0, |sizes|);
    forall i | 0 <= i < |sizes|
      ensures
        var a := Address(base, sizes, i);
        a !in outside && a in chunks && chunks[a] == Mapping(sizes[i], handles[i])
    {
      AddressInside(base, sizes, i);
      ChunkLookup(base, sizes, handles, 0, |sizes|, Address(base, sizes, i));
    }
    forall a ensures a in chunks <==> a in Addresses(base, sizes) {
      ChunkLookup(base, sizes, handles, 0, |sizes|, a);
    }
  }

  lemma AddLastChunk(before: map<nat, Mapping>, base: nat, sizes: seq<nat>, handles: seq<Handle>, i: nat, address: nat)
    requires i < |sizes| == |handles| && address == Address(base, sizes, i)
    ensures
      (before + Chunks(base, sizes, handles, 0, i))[address := Mapping(sizes[i], handles[i])]
      == before + Chunks(base, sizes, handles, 0, i + 1)
  {
  }

  /** The first n cells hold the handles issued from `first` on, the others what they held. */
  ghost predicate Overwritten(before: seq<Handle>, after: seq<Handle>, first: nat, n: nat) {
    && n <= |after| == |before|
    && forall k :: 0 <= k < |after| ==> after[k] == if k < n then first + k else before[k]
  }

  // ---------------------------------------------------------------- the driver

  /** The handles issued from lo up to hi. */
  ghost function Issued(lo: nat, hi: nat): (r: set<Handle>)
    ensures forall h :: h in r <==> lo <= h < hi
  {
    if hi <= lo then {} else Issued(lo, hi - 1) + {hi - 1}
  }

  /** No mapping overlaps the range. */
  predicate Clear(mapped: map<nat, Mapping>, address: nat, size: nat) {
    forall a :: a in mapped ==> a + mapped[a].size <= address || address + size <= a
  }

  /** Some reservation holds the range, and no mapping overlaps it. */
  predicate Fits(reserved: map<nat, nat>, mapped: map<nat, Mapping>, address: nat, size: nat) {
    && size > 0
    && (exists r :: r in reserved && r <= address && address + size <= r + reserved[r])
    && Clear(mapped, address, size)
  }

  predicate Holds(start: nat, size: nat, byte: nat) { start <= byte < start + size }

  /** No mapping overlaps a range exactly when no byte belongs to both. */
  lemma ClearIff(mapped: map<nat, Mapping>, address: nat, size: nat)
    requires size > 0 && forall a :: a in mapped ==> mapped[a].size > 0
    ensures Clear(mapped, address, size) <==>
      forall a, byte :: a in mapped && Holds(a, mapped[a].size, byte) ==> !Holds(address, size, byte)
  {
    if forall a, byte :: a in mapped && Holds(a, mapped[a].size, byte) ==> !Holds(address, size, byte) {
      forall a | a in mapped ensures a + mapped[a].size <= address || address + size <= a {
        var byte := if a < address then address else a;
        assert !Holds(a, mapped[a].size, byte) || !Holds(address, size, byte);
      }
    }
  }

  /** Access is as it was, and besides there is access to what is mapped within the range. */
  ghost predicate Granted(now: set<nat>, before: set<nat>, mapped: map<nat, Mapping>, address: nat, size: nat) {
    forall a :: a in now <==> a in before || (a in mapped && address <= a && a + mapped[a].size <= address + size)
  }

  /** What is still mapped can be accessed as before. */
  ghost predicate Restricted(now: set<nat>, before: set<nat>, mapped: map<nat, Mapping>) {
    forall a :: a in now <==> a in before && a in mapped
  }

  /** The next n handles have the first n sizes. */
  ghost predicate Created(now: seq<nat>, before: seq<nat>, sizes: seq<nat>, n: nat) {
    && n <= |sizes| && |now| == |before| + n
    && (forall k :: 0 <= k < |before| ==> now[k] == before[k])
    && (forall k :: 0 <= k < n ==> now[|before| + k] == sizes[k])
  }

  /** How much memory is behind each of the handles. */
  ghost function MemoryOf(handles: seq<Handle>, created: seq<nat>): (r: seq<nat>)
    ensures |r| == |handles|
  {
    seq(|handles|, k requires 0 <= k < |handles| => if handles[k] < |created| then created[handles[k]] else 0)
  }

  class Driver {
    var reserved: map<nat, nat>
    var mapped: map<nat, Mapping>
    var live: set<Handle>
    var issued: nat
    // the size of every handle ever issued, and the mappings that may be accessed
    var created: seq<nat>
    var access: set<nat>
    // failures, without cause, of calls the code cannot recover from: setting the context,
    // unmapping, releasing, and cycling the reservation
    ghost var unhandled: nat

    ghost predicate Valid()
      reads this`live, this`issued, this`mapped, this`created, this`access
    {
      && (forall h :: h in live ==> h < issued) && (forall a :: a in mapped ==> mapped[a].size > 0)
      && |created| == issued && (forall a :: a in access ==> a in mapped)
    }

    constructor ()
      ensures Valid() && reserved == map[] && mapped == map[] && live == {} && unhandled == 0
    {
      reserved, mapped, live, issued, created, access, unhandled := map[], map[], {}, 0, [], {}, 0;
    }

    predicate Mappable(address: nat, size: nat)
      reads this`reserved, this`mapped
    {
      Fits(reserved, mapped, address, size)
    }

    predicate Unmapped(address: nat, size: nat)
      reads this`mapped
    {
      Clear(mapped, address, size)
    }

    /** Makes the device's context current. */
    method EnsureContext() returns (status: Status)
      modifies this`unhandled
      ensures unhandled == old(unhandled) + (if status != NO_ERROR then 1 else 0)
    {
      status := *;
      if status != NO_ERROR { unhandled := unhandled + 1; }
    }

    method MemCreate(size: nat) returns (status: Status, handle: Handle)
      requires Valid()
      modifies this`live, this`issued, this`created
      ensures Valid()
      ensures status == NO_ERROR ==>
        && handle == old(issued) && issued == old(issued) + 1 && live == old(live) + {handle}
        && created == old(created) + [size]
      ensures status != NO_ERROR ==> issued == old(issued) && live == old(live) && created == old(created)
    {
      status, handle := *, issued;
      if status == NO_ERROR {
        live, issued, created := live + {handle}, issued + 1, created + [size];
      }
    }

    /** Maps a handle that is at least as long as the range. */
    method MemMap(address: nat, size: nat, handle: Handle) returns (status: Status)
      requires Valid()
      modifies this`mapped
      ensures Valid()
      ensures status == NO_ERROR ==>
        && old(Mappable(address, size)) && handle in live && size <= created[handle]
        && address !in old(mapped) && mapped == old(mapped)[address := Mapping(size, handle)]
      ensures status != NO_ERROR ==> mapped == old(mapped)
    {
      if Mappable(address, size) && handle in live && size <= created[handle] {
        status := *;
      } else {
        status := 1;
      }
      if status == NO_ERROR {
        mapped := mapped[address := Mapping(size, handle)];
      }
    }

    /** Gives access to what is mapped within the range. */
    method MemSetAccess(address: nat, size: nat) returns (status: Status)
      requires Valid()
      modifies this`access
      ensures Valid()
      ensures status == NO_ERROR ==> Granted(access, old(access), mapped, address, size)
      ensures status != NO_ERROR ==> access == old(access)
    {
      status := *;
      if status == NO_ERROR {
        access := access + set a | a in mapped && address <= a && a + mapped[a].size <= address + size;
      }
    }

    method MemUnmap(address: nat, size: nat) returns (status: Status)
      requires Valid()
      modifies this`mapped, this`access, this`unhandled
      ensures Valid()
      ensures status == NO_ERROR ==> access == old(access) - {address}
      ensures status != NO_ERROR ==> access == old(access)
      ensures
        var valid := address in old(mapped) && old(mapped)[address].size == size;
        && unhandled == old(unhandled) + (if valid && status != NO_ERROR then 1 else 0)
        && (status == NO_ERROR ==> valid && mapped == old(mapped) - {address})
        && (status != NO_ERROR ==> mapped == old(mapped))
    {
      if address in mapped && mapped[address].size == size {
        status := *;
        if status != NO_ERROR { unhandled := unhandled + 1; }
      } else {
        status := 1;
      }
      if status == NO_ERROR {
        mapped, access := mapped - {address}, access - {address};
      }
    }

    method MemRelease(handle: Handle) returns (status: Status)
      requires Valid()
      modifies this`live, this`unhandled
      ensures Valid()
      ensures
        var valid := handle in old(live);
        && unhandled == old(unhandled) + (if valid && status != NO_ERROR then 1 else 0)
        && (status == NO_ERROR ==> valid && live == old(live) - {handle})
        && (status != NO_ERROR ==> live == old(live))
    {
      if handle in live {
        status := *;
        if status != NO_ERROR { unhandled := unhandled + 1; }
      } else {
        status := 1;
      }
      if status == NO_ERROR {
        live := live - {handle};
      }
    }

    method AddressFree(address: nat, size: nat) returns (status: Status)
      modifies this`reserved, this`unhandled
      ensures
        var valid := address in old(reserved) && old(reserved)[address] == size && Unmapped(address, size);
        && unhandled == old(unhandled) + (if valid && status != NO_ERROR then 1 else 0)
        && (status == NO_ERROR ==> valid && reserved == old(reserved) - {address})
        && (status != NO_ERROR ==> reserved == old(reserved))
    {
      if address in reserved && reserved[address] == size && Unmapped(address, size) {
        status := *;
        if status != NO_ERROR { unhandled := unhandled + 1; }
      } else {
        status := 1;
      }
      if status == NO_ERROR {
        reserved := reserved - {address};
      }
    }

    /** Reserves at the wanted address, or somewhere else, or not at all. */
    method AddressReserve(size: nat, wanted: nat) returns (status: Status, address: nat)
      modifies this`reserved, this`unhandled
      ensures unhandled == old(unhandled) + (if status != NO_ERROR || address != wanted then 1 else 0)
      ensures status == NO_ERROR ==> address !in old(reserved) && reserved == old(reserved)[address := size]
      ensures status != NO_ERROR ==> reserved == old(reserved)
    {
      status, address := *, *;
      if address in reserved { status := 1; }
      if status == NO_ERROR {
        reserved := reserved[address := size];
      }
      if status != NO_ERROR || address != wanted {
        unhandled := unhandled + 1;
      }
    }
  }

  // ---------------------------------------------------------------- the allocator

  /** All that a call can change: what the driver holds, and the allocation's cells. */
  datatype View = View(reserved: map<nat, nat>, mapped: map<nat, Mapping>, live: set<Handle>, issued: nat,
                       unhandled: nat, cells: seq<Handle>, created: seq<nat>, access: set<nat>)

  ghost predicate ValidView(v: View) {
    && (forall h :: h in v.live ==> h < v.issued) && (forall a :: a in v.mapped ==> v.mapped[a].size > 0)
    && |v.created| == v.issued && (forall a :: a in v.access ==> a in v.mapped)
  }

  /** Where create-and-map stopped.  Pending: the error code was already set. */
  datatype Stage = Pending | CreateFailed | MapFailed | AccessFailed | Done

  /** What creating and mapping does, by the stage where it stopped.  `refused` and `stuck` are the
      handles and addresses of the cleanup calls that failed. */
  ghost predicate MapEffect(v: View, w: View, base: nat, sizes: seq<nat>, stage: Stage,
                            refused: seq<Handle>, stuck: seq<nat>)
    requires |v.cells| == |w.cells| == |sizes|
  {
    && w.reserved == v.reserved && v.unhandled <= w.unhandled
    // each handle created overwrites a cell, and is not taken out of it again
    && v.issued <= w.issued <= v.issued + |sizes|
    && Overwritten(v.cells, w.cells, v.issued, w.issued - v.issued)
    && Created(w.created, v.created, sizes, w.issued - v.issued)
    && match stage
       // after an error pending on entry, or in setting the context, at most one handle is created:
       // it stays live and in the first cell, instead of the handle that was there
       case Pending =>
         && w.issued <= v.issued + 1
         && w.mapped == v.mapped && w.live == v.live + Issued(v.issued, w.issued)
       // a failed create or map leaves nothing behind but what cleaning up could not remove
       case CreateFailed =>
         w.issued < v.issued + |sizes| && CleanedUp(v, w, base, sizes, refused, stuck) && stuck == []
       case MapFailed => w.issued == v.issued + |sizes| && CleanedUp(v, w, base, sizes, refused, stuck)
       case AccessFailed => AllThere(v, w, base, sizes)
       case Done => AllThere(v, w, base, sizes)
  }

  /** What there was is still there.  What there is besides, a cleanup call was refused: handles that
      this call created, and chunks that it mapped to them. */
  ghost predicate CleanedUp(v: View, w: View, base: nat, sizes: seq<nat>, refused: seq<Handle>, stuck: seq<nat>)
    requires |w.cells| == |sizes|
  {
    && v.live <= w.live <= v.live + Issued(v.issued, w.issued)
    && (forall h :: h in w.live && h !in v.live ==> h in refused)
    && LeftOver(w.mapped, v.mapped, base, sizes, w.cells, stuck)
    && w.unhandled == v.unhandled + |refused| + |stuck|
  }

  /** What was mapped before still is, and what is mapped besides is some of the chunks, stuck. */
  ghost predicate LeftOver(now: map<nat, Mapping>, before: map<nat, Mapping>, base: nat, sizes: seq<nat>,
                           handles: seq<Handle>, stuck: seq<nat>)
    requires |handles| == |sizes|
  {
    var chunks := Chunks(base, sizes, handles, 0, |sizes|);
    && Extends(now, before)
    && forall a :: a in now && a !in before ==> a in stuck && a in chunks && now[a] == chunks[a]
  }

  ghost predicate Extends(more: map<nat, Mapping>, m: map<nat, Mapping>) {
    forall a :: a in m ==> a in more && more[a] == m[a]
  }

  /** Every chunk is mapped, to a new handle, from the base on without gaps. */
  ghost predicate AllThere(v: View, w: View, base: nat, sizes: seq<nat>)
    requires |w.cells| == |sizes|
  {
    && w.issued == v.issued + |sizes| && w.unhandled == v.unhandled
    && w.live == v.live + Issued(v.issued, w.issued)
    && w.mapped == v.mapped + Chunks(base, sizes, w.cells, 0, |sizes|)
    && (forall k :: 0 <= k < |sizes| ==> Address(base, sizes, k) !in v.mapped)
    && (|sizes| > 0 ==> Fits(v.reserved, v.mapped, base, sizes[0]))
  }

  /** A failed map, once it is rolled back. */
  lemma RolledBackEffect(v: View, w: View, base: nat, sizes: seq<nat>, made: set<Handle>, refused: seq<Handle>,
                         stuck: seq<nat>)
    requires |v.cells| == |w.cells| == |sizes| && ValidView(v)
    requires w.reserved == v.reserved && w.issued == v.issued + |sizes| && Created(w.created, v.created, sizes, |sizes|)
    requires forall k :: 0 <= k < |sizes| ==> w.cells[k] == v.issued + k
    requires made == v.live + Issued(v.issued, w.issued) && Releasing(w.live, made, w.cells, refused)
    requires LeftOver(w.mapped, v.mapped, base, sizes, w.cells, stuck)
    requires w.unhandled == v.unhandled + |refused| + |stuck|
    ensures MapEffect(v, w, base, sizes, MapFailed, refused, stuck)
  {
    NewHandles(w.cells, v.issued);
    NewHandlesReleased(w.cells, v.issued, v.live, made, w.live, refused);
  }

  /** A map that went through, whatever becomes of access; with an error pending there were no chunks. */
  lemma AllThereEffect(v: View, w: View, base: nat, sizes: seq<nat>)
    requires |v.cells| == |w.cells| == |sizes|
    requires w.reserved == v.reserved && w.issued == v.issued + |sizes| && Created(w.created, v.created, sizes, |sizes|)
    requires forall k :: 0 <= k < |sizes| ==> w.cells[k] == v.issued + k
    requires w.live == v.live + Issued(v.issued, w.issued) && w.unhandled >= v.unhandled
    requires w.mapped == v.mapped + Chunks(base, sizes, w.cells, 0, |sizes|)
    requires forall k :: 0 <= k < |sizes| ==> Address(base, sizes, k) !in v.mapped
    requires |sizes| > 0 ==> Fits(v.reserved, v.mapped, base, sizes[0])
    ensures w.unhandled == v.unhandled ==>
      MapEffect(v, w, base, sizes, AccessFailed, [], []) && MapEffect(v, w, base, sizes, Done, [], [])
    ensures |sizes| == 0 ==> MapEffect(v, w, base, sizes, Pending, [], [])
  {
  }

  /** What mapping does to access: success gives it to the whole range, a failure to nothing. */
  ghost predicate AccessAfter(v: View, w: View, stage: Stage, base: nat, size: nat) {
    match stage
    case Done => Granted(w.access, v.access, w.mapped, base, size)
    case Pending => w.access == v.access || Granted(w.access, v.access, w.mapped, base, size)
    case _ => w.access == v.access
  }

  ghost function CellSet(cells: array<Handle>): set<Handle>
    reads cells
  {
    Elements(cells[..])
  }

  /** Every one is a live handle of its own. */
  ghost predicate AllLive(handles: seq<Handle>, live: set<Handle>) {
    Distinct(handles) && forall k :: 0 <= k < |handles| ==> handles[k] in live
  }

  /** Those of the handles that were live are gone, but for some whose release was refused. */
  ghost predicate Releasing(now: set<Handle>, before: set<Handle>, handles: seq<Handle>, refused: seq<Handle>) {
    && (forall h :: h in now ==> h in before && (h in handles ==> h in refused))
    && (forall h :: h in before && h !in handles ==> h in now)
  }

  lemma ReleasingStep(now: set<Handle>, before: set<Handle>, handles: seq<Handle>, longer: seq<Handle>,
                      refused: seq<Handle>, h: Handle)
    requires Releasing(now, before, handles, refused) && longer == handles + [h]
    ensures h in now ==> Releasing(now, before, longer, refused + [h])
    ensures h in now ==> Releasing(now - {h}, before, longer, refused)
    ensures h !in now ==> Releasing(now, before, longer, refused)
    ensures AllLive(longer, before) <==> AllLive(handles, before) && h in before && h !in handles
    ensures refused == [] ==> (h in now <==> h in before && h !in handles)
  {
    AllLiveStep(handles, h, before);
    assert forall x :: x in refused + [h] <==> x in refused || x == h;
  }

  lemma AllLiveStep(handles: seq<Handle>, h: Handle, live: set<Handle>)
    ensures AllLive(handles + [h], live) <==> AllLive(handles, live) && h in live && h !in handles
  {
    var longer, n := handles + [h], |handles|;
    assert forall k :: 0 <= k < n ==> longer[k] == handles[k];
    if AllLive(longer, live) {
      DistinctPrefix(longer, n);
      assert longer[..n] == handles && longer[n] in live;
      forall k | 0 <= k < n ensures handles[k] != h && handles[k] in live {
        assert !Repeats(longer, k, n) && longer[k] in live;
      }
    }
    if AllLive(handles, live) && h in live && h !in handles {
      forall i, j | 0 <= i < j <= n ensures !Repeats(longer, i, j) {
        if j < n { assert !Repeats(handles, i, j); }
      }
    }
  }

  /** Chunk k is mapped at its address. */
  ghost predicate IsMapped(m: map<nat, Mapping>, base: nat, sizes: seq<nat>, k: nat)
    requires k < |sizes|
  {
    Address(base, sizes, k) in m && m[Address(base, sizes, k)].size == sizes[k]
  }

  ghost predicate FirstMapped(m: map<nat, Mapping>, base: nat, sizes: seq<nat>, n: nat)
    requires n <= |sizes|
  {
    forall k :: 0 <= k < n ==> IsMapped(m, base, sizes, k)
  }

  ghost predicate IsChunk(m: map<nat, Mapping>, base: nat, sizes: seq<nat>, n: nat, a: nat)
    requires n <= |sizes|
  {
    exists k :: 0 <= k < n && a == Address(base, sizes, k) && IsMapped(m, base, sizes, k)
  }

  /** Of the first n chunks, those that were mapped are gone, but for some that were stuck. */
  ghost predicate Unmapping(now: map<nat, Mapping>, before: map<nat, Mapping>, base: nat, sizes: seq<nat>, n: nat,
                            stuck: seq<nat>)
    requires n <= |sizes|
  {
    && Extends(before, now)
    && (forall a :: a in now && IsChunk(before, base, sizes, n, a) ==> a in stuck)
    && (forall a :: a in before && !IsChunk(before, base, sizes, n, a) ==> a in now)
  }

  lemma UnmappingStep(now: map<nat, Mapping>, before: map<nat, Mapping>, base: nat, sizes: seq<nat>, i: nat,
                      stuck: seq<nat>, address: nat)
    requires AllPositive(sizes) && i < |sizes| && Unmapping(now, before, base, sizes, i, stuck)
    requires address == Address(base, sizes, i)
    ensures address in now && now[address].size == sizes[i] <==> IsMapped(before, base, sizes, i)
    ensures IsMapped(before, base, sizes, i) ==>
      && Unmapping(now - {address}, before, base, sizes, i + 1, stuck)
      && Unmapping(now, before, base, sizes, i + 1, stuck + [address])
    ensures !IsMapped(before, base, sizes, i) ==> Unmapping(now, before, base, sizes, i + 1, stuck)
    ensures FirstMapped(before, base, sizes, i + 1) <==>
      FirstMapped(before, base, sizes, i) && IsMapped(before, base, sizes, i)
  {
    forall a ensures IsChunk(before, base, sizes, i + 1, a) <==>
      IsChunk(before, base, sizes, i, a) || (a == address && IsMapped(before, base, sizes, i))
    {
      if a == address && IsMapped(before, base, sizes, i) {
        assert a == Address(base, sizes, i);
      }
    }
    forall k | 0 <= k < i ensures Address(base, sizes, k) != address {
      AddressesGrow(base, sizes, k, i);
    }
    assert !IsChunk(before, base, sizes, i, address);
    assert forall a :: a in stuck + [address] <==> a in stuck || a == address;
  }

  lemma ChunksAreMapped(all: map<nat, Mapping>, before: map<nat, Mapping>, base: nat, sizes: seq<nat>,
                        handles: seq<Handle>, n: nat)
    requires AllPositive(sizes) && n <= |sizes| == |handles|
    requires all == before + Chunks(base, sizes, handles, 0, n)
    ensures FirstMapped(all, base, sizes, n)
  {
    forall k | 0 <= k < n ensures IsMapped(all, base, sizes, k) {
      ChunkLookup(base, sizes, handles, 0, n, Address(base, sizes, k));
    }
  }

  /** Unmapping the chunks that were added leaves what was there before, and what is stuck. */
  lemma RolledBack(now: map<nat, Mapping>, all: map<nat, Mapping>, before: map<nat, Mapping>, base: nat,
                   sizes: seq<nat>, handles: seq<Handle>, n: nat, stuck: seq<nat>)
    requires AllPositive(sizes) && n <= |sizes| == |handles|
    requires all == before + Chunks(base, sizes, handles, 0, n)
    requires forall k :: 0 <= k < n ==> Address(base, sizes, k) !in before
    requires Unmapping(now, all, base, sizes, n, stuck)
    ensures LeftOver(now, before, base, sizes, handles, stuck)
  {
    ChunksAreMapped(all, before, base, sizes, handles, n);
    var some, chunks := Chunks(base, sizes, handles, 0, n), Chunks(base, sizes, handles, 0, |sizes|);
    forall a ensures IsChunk(all, base, sizes, n, a) <==> a in some {
      ChunkLookup(base, sizes, handles, 0, n, a);
    }
    forall a | a in some ensures a in chunks && chunks[a] == some[a] {
      ChunkLookup(base, sizes, handles, 0, n, a);
      ChunkLookup(base, sizes, handles, 0, |sizes|, a);
    }
  }

  ghost predicate AllMapped(m: map<nat, Mapping>, base: nat, sizes: seq<nat>) {
    forall k :: 0 <= k < |sizes| ==> IsMapped(m, base, sizes, k)
  }

  ghost predicate NoneMapped(m: map<nat, Mapping>, base: nat, sizes: seq<nat>) {
    forall k :: 0 <= k < |sizes| ==> Address(base, sizes, k) !in m
  }

  /** Every chunk is mapped, every cell holds a live handle of its own, and the range is one
      reservation in which nothing else is mapped. */
  ghost predicate AllInPlace(v: View, base: nat, size: nat, sizes: seq<nat>) {
    && AllMapped(v.mapped, base, sizes) && AllLive(v.cells, v.live)
    && base in v.reserved && v.reserved[base] == size
    && (forall a :: a in v.mapped && a !in Addresses(base, sizes) ==>
          a + v.mapped[a].size <= base || base + size <= a)
  }

  /** What unmapping and releasing does: what was mapped and live of the allocation is gone but for
      what a call refused to take. */
  ghost predicate UnmapEffect(v: View, w: View, base: nat, size: nat, sizes: seq<nat>, ok: bool,
                              refused: seq<Handle>, stuck: seq<nat>)
  {
    && w.issued == v.issued && w.cells == v.cells && w.created == v.created
    && Restricted(w.access, v.access, w.mapped)
    && w.unhandled >= v.unhandled + |refused| + |stuck|
    && Unmapping(w.mapped, v.mapped, base, sizes, |sizes|, stuck)
    && Releasing(w.live, v.live, v.cells, refused)
    && Cycled(w.reserved, v.reserved, base, size) && (w.unhandled == v.unhandled ==> w.reserved == v.reserved)
    // success: everything was there, and only the address is kept
    && (ok ==>
          && w.unhandled == v.unhandled && AllMapped(v.mapped, base, sizes) && AllLive(v.cells, v.live)
          && base in w.reserved && w.reserved[base] == size && Clear(w.mapped, base, size))
    // nothing to release: every call fails and nothing changes
    && (NoneMapped(v.mapped, base, sizes) && Elements(v.cells) !! v.live && |sizes| > 0 ==>
          !ok && w.reserved == v.reserved)
  }

  /** Other reservations are kept.  This one may be given up, and then there may be another as large. */
  ghost predicate Cycled(now: map<nat, nat>, before: map<nat, nat>, base: nat, size: nat) {
    && (forall r :: r in before && r != base ==> r in now && now[r] == before[r])
    && (base in now ==> base in before && now[base] == before[base])
    && (forall r :: r in now && r !in before ==> now[r] == size && base !in now)
  }

  /** Once every chunk is unmapped, what is mapped is what was mapped at other addresses. */
  lemma AllUnmapped(now: map<nat, Mapping>, before: map<nat, Mapping>, base: nat, sizes: seq<nat>)
    requires Unmapping(now, before, base, sizes, |sizes|, [])
    ensures AllMapped(before, base, sizes) ==> now == before - Addresses(base, sizes)
    ensures NoneMapped(before, base, sizes) ==> now == before
  {
    if AllMapped(before, base, sizes) {
      forall a ensures IsChunk(before, base, sizes, |sizes|, a) <==> a in Addresses(base, sizes) {
        if a in Addresses(base, sizes) {
          var k :| 0 <= k < |sizes| && a == Address(base, sizes, k);
          assert IsMapped(before, base, sizes, k);
        }
      }
    }
  }

  lemma NewHandles(cells: seq<Handle>, first: nat)
    requires forall k :: 0 <= k < |cells| ==> cells[k] == first + k
    ensures Elements(cells) == Issued(first, first + |cells|) && Distinct(cells)
  {
    forall h | h in Issued(first, first + |cells|) ensures h in Elements(cells) {
      assert cells[h - first] == h;
    }
  }

  /** Releasing handles just created leaves those that were live before, any others of the new ones,
      and what is refused. */
  lemma NewHandlesReleased(cells: seq<Handle>, first: nat, live: set<Handle>, made: set<Handle>, now: set<Handle>,
                           refused: seq<Handle>)
    requires (forall k :: 0 <= k < |cells| ==> cells[k] == first + k) && forall h :: h in live ==> h < first
    requires live <= made && Releasing(now, made, cells, refused)
    ensures live <= now && forall h :: h in now && h !in live + (made - Elements(cells)) ==> h in refused
    ensures made == live + Elements(cells) ==> forall h :: h in now && h !in live ==> h in refused
    ensures cells == [] ==> now == made
  {
    NewHandles(cells, first);
    forall h | h in live ensures h in now {
      assert h !in Elements(cells);
    }
  }

  class Allocator {
    const driver: Driver
    var errorCode: Status

    constructor (driver: Driver)
      ensures this.driver == driver && errorCode == NO_ERROR
    {
      this.driver := driver;
      errorCode := NO_ERROR;
    }

    ghost function See(cells: array<Handle>): View
      reads driver, cells
    {
      View(driver.reserved, driver.mapped, driver.live, driver.issued, driver.unhandled, cells[..],
           driver.created, driver.access)
    }

    /** Records a failed status; a success leaves the error code as it was. */
    method Check(status: Status)
      modifies this`errorCode
      ensures errorCode == if status != NO_ERROR then status else old(errorCode)
    {
      if status != NO_ERROR { errorCode := status; }
    }

    /** Releases the first `count` handles, ignoring failures. */
    method ReleaseFirst(cells: array<Handle>, count: nat, ghost first: nat) returns (ghost refused: seq<Handle>)
      requires driver.Valid() && count <= cells.Length
      requires forall k :: 0 <= k < count ==> cells[k] == first + k && cells[k] in driver.live
      modifies driver`live, driver`unhandled
      ensures driver.Valid() && Releasing(driver.live, old(driver.live), cells[..count], refused)
      ensures driver.unhandled == old(driver.unhandled) + |refused| && |refused| <= count
    {
      refused := [];
      ghost var before := driver.live;
      for j := 0 to count
        invariant driver.Valid() && driver.unhandled == old(driver.unhandled) + |refused| && |refused| <= j
        invariant Releasing(driver.live, before, cells[..j], refused)
      {
        assert cells[..j + 1] == cells[..j] + [cells[j]] && cells[j] !in cells[..j];
        ReleasingStep(driver.live, before, cells[..j], cells[..j + 1], refused, cells[j]);
        var status := driver.MemRelease(cells[j]);
        if status != NO_ERROR { refused := refused + [cells[j]]; }
      }
    }

    /** Releases the handles just created, which the first `count` cells hold.  One more may be live. */
    method ReleaseNew(cells: array<Handle>, count: nat, ghost first: nat, ghost before: set<Handle>)
      returns (ghost refused: seq<Handle>)
      requires driver.Valid() && count <= cells.Length && forall h :: h in before ==> h < first
      requires forall k :: 0 <= k < count ==> cells[k] == first + k
      requires before + Issued(first, first + count) <= driver.live
      modifies driver`live, driver`unhandled
      ensures driver.Valid() && before <= driver.live <= old(driver.live)
      ensures driver.unhandled == old(driver.unhandled) + |refused|
      ensures old(driver.live) == before + Issued(first, first + count) ==>
        forall h :: h in driver.live && h !in before ==> h in refused
      ensures count == 0 ==> driver.live == old(driver.live) && refused == []
    {
      NewHandles(cells[..count], first);
      ghost var made := driver.live;
      refused := ReleaseFirst(cells, count, first);
      NewHandlesReleased(cells[..count], first, before, made, driver.live, refused);
    }

    /** Creates one handle per chunk; a failure releases those already created.  Each handle
        created overwrites a cell, and is not taken out of it again. */
    method CreateAll(cells: array<Handle>, sizes: seq<nat>) returns (ok: bool, ghost refused: seq<Handle>)
      requires driver.Valid() && cells.Length == |sizes|
      modifies this`errorCode, driver`live, driver`issued, driver`created, driver`unhandled, cells
      ensures driver.Valid()
      ensures old(driver.issued) <= driver.issued <= old(driver.issued) + |sizes|
      ensures forall k :: 0 <= k < cells.Length ==>
        cells[k] == if k < driver.issued - old(driver.issued) then old(driver.issued) + k else old(cells[k])
      ensures Created(driver.created, old(driver.created), sizes, driver.issued - old(driver.issued))
      ensures ok ==>
        && errorCode == old(errorCode)
        && (|sizes| > 0 ==> errorCode == NO_ERROR)
        && driver.unhandled == old(driver.unhandled)
        && driver.issued == old(driver.issued) + |sizes|
        && driver.live == old(driver.live) + Issued(old(driver.issued), driver.issued)
      ensures !ok ==> errorCode != NO_ERROR && |sizes| > 0
      ensures !ok && old(errorCode) == NO_ERROR ==>
        && driver.issued < old(driver.issued) + |sizes|
        && old(driver.live) <= driver.live <= old(driver.live) + Issued(old(driver.issued), driver.issued)
        && (forall h :: h in driver.live && h !in old(driver.live) ==> h in refused)
        && driver.unhandled == old(driver.unhandled) + |refused|
      // with an error pending the first handle, if created, is not released
      ensures !ok && old(errorCode) != NO_ERROR ==>
        && driver.issued <= old(driver.issued) + 1 && driver.unhandled == old(driver.unhandled)
        && driver.live == old(driver.live) + Issued(old(driver.issued), driver.issued)
    {
      ghost var first := driver.issued;
      refused := [];
      for i := 0 to |sizes|
        invariant driver.Valid() && driver.unhandled == old(driver.unhandled)
        invariant errorCode == old(errorCode) && (i > 0 ==> errorCode == NO_ERROR)
        invariant driver.issued == first + i && driver.live == old(driver.live) + Issued(first, first + i)
        invariant Created(driver.created, old(driver.created), sizes, i)
        invariant forall k :: 0 <= k < i ==> cells[k] == first + k
        invariant forall k :: i <= k < cells.Length ==> cells[k] == old(cells[k])
      {
        var status, handle := driver.MemCreate(sizes[i]);
        if status == NO_ERROR { cells[i] := handle; }
        Check(status);
        if errorCode != NO_ERROR {
          refused := ReleaseNew(cells, i, first, old(driver.live));
          return false, refused;
        }
      }
      ok := true;
    }

    /** Unmaps chunk i, after the chunks before it. */
    method UnmapChunk(base: nat, sizes: seq<nat>, i: nat, passed: nat, ghost before: map<nat, Mapping>,
                      ghost open: set<nat>, ghost stuck: seq<nat>)
      returns (status: Status, ghost stuck': seq<nat>)
      requires driver.Valid() && AllPositive(sizes) && i < |sizes| && passed == Sum(sizes[..i])
      requires Unmapping(driver.mapped, before, base, sizes, i, stuck)
      requires Restricted(driver.access, open, driver.mapped)
      modifies driver`mapped, driver`access, driver`unhandled
      ensures driver.Valid() && Unmapping(driver.mapped, before, base, sizes, i + 1, stuck')
      ensures Restricted(driver.access, open, driver.mapped)
      ensures driver.unhandled - old(driver.unhandled) == |stuck'| - |stuck| >= 0
      ensures status == NO_ERROR <==> IsMapped(before, base, sizes, i) && |stuck'| == |stuck|
      ensures passed + sizes[i] == Sum(sizes[..i + 1])
      ensures FirstMapped(before, base, sizes, i + 1) <==>
        FirstMapped(before, base, sizes, i) && IsMapped(before, base, sizes, i)
    {
      AddressStep(base, sizes, i);
      ghost var address := Address(base, sizes, i);
      UnmappingStep(driver.mapped, before, base, sizes, i, stuck, address);
      status := driver.MemUnmap(base + passed, sizes[i]);
      stuck' := if status != NO_ERROR && IsMapped(before, base, sizes, i) then stuck + [address] else stuck;
    }

    /** Unmaps the first `count` chunks, ignoring failures. */
    method UnmapFirst(base: nat, sizes: seq<nat>, count: nat) returns (ghost stuck: seq<nat>)
      requires driver.Valid() && AllPositive(sizes) && count <= |sizes|
      modifies driver`mapped, driver`access, driver`unhandled
      ensures driver.Valid() && Unmapping(driver.mapped, old(driver.mapped), base, sizes, count, stuck)
      ensures Restricted(driver.access, old(driver.access), driver.mapped)
      ensures driver.unhandled == old(driver.unhandled) + |stuck|
    {
      var unmappedSize := 0;
      ghost var before := driver.mapped;
      stuck := [];
      for j := 0 to count
        invariant unmappedSize == Sum(sizes[..j])
        invariant driver.Valid() && driver.unhandled == old(driver.unhandled) + |stuck|
        invariant Unmapping(driver.mapped, before, base, sizes, j, stuck)
        invariant Restricted(driver.access, old(driver.access), driver.mapped)
      {
        var ignored;
        ignored, stuck := UnmapChunk(base, sizes, j, unmappedSize, before, old(driver.access), stuck);
        unmappedSize := unmappedSize + sizes[j];
      }
    }

    /** Unmaps the first `count` chunks, which were added to what was mapped before, and releases every
        handle. */
    method RollBack(base: nat, cells: array<Handle>, sizes: seq<nat>, count: nat, ghost first: nat,
                    ghost before: map<nat, Mapping>)
      returns (ghost refused: seq<Handle>, ghost stuck: seq<nat>)
      requires driver.Valid() && cells.Length == |sizes| && AllPositive(sizes) && count <= |sizes|
      requires driver.mapped == before + Chunks(base, sizes, cells[..], 0, count)
      requires forall k :: 0 <= k < count ==> Address(base, sizes, k) !in before
      requires forall k :: 0 <= k < |sizes| ==> cells[k] == first + k && cells[k] in driver.live
      requires forall a :: a in driver.access ==> a in before
      modifies driver`mapped, driver`access, driver`live, driver`unhandled
      ensures driver.Valid()
      ensures LeftOver(driver.mapped, before, base, sizes, cells[..], stuck)
      ensures driver.access == old(driver.access)
      ensures Releasing(driver.live, old(driver.live), cells[..], refused)
      ensures driver.unhandled == old(driver.unhandled) + |refused| + |stuck|
    {
      ghost var all := driver.mapped;
      stuck := UnmapFirst(base, sizes, count);
      RolledBack(driver.mapped, all, before, base, sizes, cells[..], count, stuck);
      refused := ReleaseFirst(cells, |sizes|, first);
      assert cells[..cells.Length] == cells[..];
    }

    /** Maps chunk i after the chunks before it. */
    method MapChunk(base: nat, cells: array<Handle>, sizes: seq<nat>, i: nat, passed: nat,
                    ghost before: map<nat, Mapping>)
      returns (status: Status)
      requires driver.Valid() && cells.Length == |sizes| && AllPositive(sizes) && i < |sizes|
      requires passed == Sum(sizes[..i]) && cells[i] in driver.live
      requires driver.mapped == before + Chunks(base, sizes, cells[..], 0, i)
      modifies driver`mapped
      ensures driver.Valid() && passed + sizes[i] == Sum(sizes[..i + 1])
      ensures status == NO_ERROR ==>
        && driver.mapped == before + Chunks(base, sizes, cells[..], 0, i + 1)
        && Address(base, sizes, i) !in before
        && Fits(driver.reserved, old(driver.mapped), base + passed, sizes[i])
      ensures status != NO_ERROR ==> driver.mapped == old(driver.mapped)
    {
      AddressStep(base, sizes, i);
      var address := base + passed;
      assert address == Address(base, sizes, i);
      AddLastChunk(before, base, sizes, cells[..], i, address);
      status := driver.MemMap(address, sizes[i], cells[i]);
    }

    /** Maps every created chunk at its address; a failure unmaps the mapped ones and
        releases all handles. */
    method MapAll(base: nat, cells: array<Handle>, sizes: seq<nat>, ghost first: nat)
      returns (ok: bool, ghost refused: seq<Handle>, ghost stuck: seq<nat>)
      requires driver.Valid() && cells.Length == |sizes| && AllPositive(sizes)
      requires |sizes| > 0 ==> errorCode == NO_ERROR
      requires forall k :: 0 <= k < |sizes| ==> cells[k] == first + k && cells[k] in driver.live
      modifies this`errorCode, driver`mapped, driver`access, driver`live, driver`unhandled
      ensures driver.Valid() && driver.access == old(driver.access)
      ensures ok ==>
        && errorCode == old(errorCode)
        && driver.unhandled == old(driver.unhandled)
        && driver.live == old(driver.live)
        && driver.mapped == old(driver.mapped) + Chunks(base, sizes, cells[..], 0, |sizes|)
        && (forall k :: 0 <= k < |sizes| ==> Address(base, sizes, k) !in old(driver.mapped))
        && (|sizes| > 0 ==> old(driver.Mappable(base, sizes[0])))
      ensures !ok ==>
        && errorCode != NO_ERROR && |sizes| > 0
        && LeftOver(driver.mapped, old(driver.mapped), base, sizes, cells[..], stuck)
        && Releasing(driver.live, old(driver.live), cells[..], refused)
        && driver.unhandled == old(driver.unhandled) + |refused| + |stuck|
    {
      var allocatedSize := 0;
      ghost var handles, before := cells[..], driver.mapped;
      ghost var fits := |sizes| > 0 && driver.Mappable(base, sizes[0]);
      refused, stuck := [], [];
      for i := 0 to |sizes|
        invariant allocatedSize == Sum(sizes[..i])
        invariant driver.Valid() && driver.unhandled == old(driver.unhandled) && errorCode == old(errorCode)
        invariant driver.live == old(driver.live) && driver.access == old(driver.access)
        invariant driver.mapped == before + Chunks(base, sizes, handles, 0, i)
        invariant forall k :: 0 <= k < i ==> Address(base, sizes, k) !in before
        invariant i > 0 ==> fits
      {
        var status := MapChunk(base, cells, sizes, i, allocatedSize, before);
        Check(status);
        if errorCode != NO_ERROR {
          refused, stuck := RollBack(base, cells, sizes, i, first, before);
          return false, refused, stuck;
        }
        allocatedSize := allocatedSize + sizes[i];
      }
      ok := true;
    }

    /** Maps the chunks just created and makes them accessible.  `v` is what there was before. */
    method MapCreated(base: nat, size: nat, cells: array<Handle>, sizes: seq<nat>, ghost v: View)
      returns (ghost stage: Stage, ghost refused: seq<Handle>, ghost stuck: seq<nat>)
      requires driver.Valid() && cells.Length == |sizes| == |v.cells| && AllPositive(sizes) && ValidView(v)
      requires |sizes| > 0 ==> errorCode == NO_ERROR
      requires driver.reserved == v.reserved && driver.mapped == v.mapped && driver.issued == v.issued + |sizes|
      requires driver.live == v.live + Issued(v.issued, driver.issued)
      requires errorCode == NO_ERROR ==> driver.unhandled == v.unhandled
      requires driver.unhandled >= v.unhandled
      requires forall k :: 0 <= k < |sizes| ==> cells[k] == v.issued + k
      requires Created(driver.created, v.created, sizes, |sizes|) && driver.access == v.access
      modifies this`errorCode, driver`mapped, driver`access, driver`live, driver`unhandled
      ensures driver.Valid() && (errorCode == NO_ERROR <==> stage == Done)
      ensures MapEffect(v, See(cells), base, sizes, stage, refused, stuck)
      ensures AccessAfter(v, See(cells), stage, base, size)
      ensures stage == Pending <==> old(errorCode) != NO_ERROR
      ensures driver.unhandled >= old(driver.unhandled)
    {
      ghost var made, pending := driver.live, errorCode != NO_ERROR;
      var mapped;
      mapped, refused, stuck := MapAll(base, cells, sizes, v.issued);
      if !mapped {
        stage := MapFailed;
        RolledBackEffect(v, See(cells), base, sizes, made, refused, stuck);
        return;
      }
      var status := driver.MemSetAccess(base, size);
      Check(status);
      AllThereEffect(v, See(cells), base, sizes);
      if errorCode != NO_ERROR {
        stage := if pending then Pending else AccessFailed;
        return;
      }
      stage := Done;
    }

    /** Creates and maps all chunks, or stops at the first failure and cleans up. */
    method CreateAndMap(base: nat, size: nat, cells: array<Handle>, sizes: seq<nat>)
      returns (ghost stage: Stage, ghost refused: seq<Handle>, ghost stuck: seq<nat>)
      requires driver.Valid() && cells.Length == |sizes| && AllPositive(sizes)
      modifies this`errorCode, driver`mapped, driver`live, driver`issued, driver`unhandled, cells
      modifies driver`created, driver`access
      ensures driver.Valid()
      ensures errorCode == NO_ERROR <==> stage == Done
      ensures MapEffect(old(See(cells)), See(cells), base, sizes, stage, refused, stuck)
      ensures AccessAfter(old(See(cells)), See(cells), stage, base, size)
      ensures stage == Pending && old(errorCode) == NO_ERROR ==> driver.unhandled > old(driver.unhandled)
    {
      ghost var v := See(cells);
      var context := driver.EnsureContext();
      Check(context);
      ghost var pending := errorCode != NO_ERROR;
      var created;
      stuck := [];
      created, refused := CreateAll(cells, sizes);
      if !created {
        stage := if pending then Pending else CreateFailed;
        assert Overwritten(v.cells, cells[..], v.issued, driver.issued - v.issued);
        return;
      }
      stage, refused, stuck := MapCreated(base, size, cells, sizes, v);
    }

    // -------------------------------------------------------------- giving memory back

    /** Unmaps every chunk, keeping the first error: every chunk that was mapped with its size is
        gone afterwards but for some at the addresses in `stuck`, where a call failed that should
        succeed. */
    method UnmapChunks(base: nat, sizes: seq<nat>) returns (firstError: Status, ghost stuck: seq<nat>)
      requires driver.Valid() && AllPositive(sizes)
      modifies driver`mapped, driver`access, driver`unhandled
      ensures driver.Valid() && Unmapping(driver.mapped, old(driver.mapped), base, sizes, |sizes|, stuck)
      ensures Restricted(driver.access, old(driver.access), driver.mapped)
      ensures driver.unhandled == old(driver.unhandled) + |stuck|
      ensures firstError == NO_ERROR <==> AllMapped(old(driver.mapped), base, sizes) && stuck == []
    {
      var allocatedSize := 0;
      firstError := NO_ERROR;
      stuck := [];
      ghost var before := driver.mapped;
      for i := 0 to |sizes|
        invariant allocatedSize == Sum(sizes[..i])
        invariant driver.Valid() && driver.unhandled == old(driver.unhandled) + |stuck|
        invariant Unmapping(driver.mapped, before, base, sizes, i, stuck)
        invariant Restricted(driver.access, old(driver.access), driver.mapped)
        invariant firstError == NO_ERROR <==> FirstMapped(before, base, sizes, i) && |stuck| == 0
      {
        var status;
        status, stuck := UnmapChunk(base, sizes, i, allocatedSize, before, old(driver.access), stuck);
        if status != NO_ERROR && firstError == NO_ERROR {
          firstError := status;
        }
        allocatedSize := allocatedSize + sizes[i];
      }
    }

    /** Releases every handle, keeping the first error: every handle that was live is released but
        for some of those in `refused`, where a call failed that should succeed. */
    method ReleaseChunks(cells: array<Handle>, error: Status) returns (firstError: Status, ghost refused: seq<Handle>)
      requires driver.Valid()
      modifies driver`live, driver`unhandled
      ensures driver.Valid() && Releasing(driver.live, old(driver.live), cells[..], refused)
      ensures driver.unhandled == old(driver.unhandled) + |refused|
      ensures error != NO_ERROR ==> firstError == error
      ensures error == NO_ERROR ==>
        (firstError == NO_ERROR <==> AllLive(cells[..], old(driver.live)) && refused == [])
      ensures CellSet(cells) !! old(driver.live) ==> refused == []
    {
      firstError := error;
      refused := [];
      ghost var before := driver.live;
      for i := 0 to cells.Length
        invariant driver.Valid() && driver.unhandled == old(driver.unhandled) + |refused|
        invariant Releasing(driver.live, before, cells[..i], refused)
        invariant error != NO_ERROR ==> firstError == error
        invariant error == NO_ERROR ==> (firstError == NO_ERROR <==> AllLive(cells[..i], before) && refused == [])
        invariant CellSet(cells) !! before ==> refused == []
      {
        assert cells[i] in CellSet(cells) && cells[..i + 1] == cells[..i] + [cells[i]];
        ReleasingStep(driver.live, before, cells[..i], cells[..i + 1], refused, cells[i]);
        ghost var held := cells[i] in driver.live;
        var status := driver.MemRelease(cells[i]);
        if status != NO_ERROR && firstError == NO_ERROR {
          firstError := status;
        }
        if status != NO_ERROR && held { refused := refused + [cells[i]]; }
      }
      assert cells[..cells.Length] == cells[..];
    }

    /** Frees the reservation and takes it again, which must give the same address. */
    method CycleAddress(base: nat, size: nat) returns (firstError: Status, moved: bool)
      modifies driver`reserved, driver`unhandled
      ensures driver.unhandled >= old(driver.unhandled)
      ensures Cycled(driver.reserved, old(driver.reserved), base, size)
      ensures driver.unhandled == old(driver.unhandled) ==> driver.reserved == old(driver.reserved) && !moved
      ensures firstError == NO_ERROR && !moved ==>
        && driver.unhandled == old(driver.unhandled)
        && base in driver.reserved && driver.reserved[base] == size && driver.Unmapped(base, size)
      ensures base in old(driver.reserved) && old(driver.reserved)[base] == size && driver.Unmapped(base, size) ==>
        (driver.unhandled == old(driver.unhandled) ==> firstError == NO_ERROR)
    {
      moved := false;
      firstError := driver.AddressFree(base, size);
      if firstError == NO_ERROR {
        var newBase;
        firstError, newBase := driver.AddressReserve(size, base);
        if firstError == NO_ERROR && newBase != base {
          var _ := driver.AddressFree(newBase, size);
          moved := true;
        }
      }
    }

    /** Releases the memory of an allocation and keeps its address: the reservation is freed
        and taken again at once, which makes the driver return the physical pages.  What was
        mapped and live of the allocation is gone but for what a call failed to take that should
        succeed. */
    method UnmapAndRelease(base: nat, size: nat, cells: array<Handle>, sizes: seq<nat>)
      returns (ghost refused: seq<Handle>, ghost stuck: seq<nat>)
      requires driver.Valid() && cells.Length == |sizes| && AllPositive(sizes)
      modifies this`errorCode, driver`mapped, driver`access, driver`live, driver`reserved, driver`unhandled
      ensures driver.Valid()
      ensures UnmapEffect(old(See(cells)), See(cells), base, size, sizes, errorCode == NO_ERROR, refused, stuck)
      // with everything in place only an unhandled failure or a pending error prevents success
      ensures AllInPlace(old(See(cells)), base, size, sizes) && old(errorCode) == NO_ERROR ==>
        (driver.unhandled == old(driver.unhandled) ==> errorCode == NO_ERROR)
    {
      var context := driver.EnsureContext();
      Check(context);
      ghost var before := driver.mapped;
      var firstError;
      firstError, stuck := UnmapChunks(base, sizes);
      firstError, refused := ReleaseChunks(cells, firstError);
      assert |sizes| > 0 && NoneMapped(before, base, sizes) ==> !IsMapped(before, base, sizes, 0);
      if firstError == NO_ERROR {
        AllUnmapped(driver.mapped, before, base, sizes);
        var moved;
        firstError, moved := CycleAddress(base, size);
        if moved {
          errorCode := 1;
          return;
        }
      }
      if firstError != NO_ERROR {
        Check(firstError);
      }
    }

    // -------------------------------------------------------------- the Python entry points

    /** Maps, reports an error if there was one, and clears it. */
    method PythonCreateAndMap(base: nat, size: nat, cells: array<Handle>, sizes: seq<nat>)
      returns (ok: bool, ghost stage: Stage, ghost refused: seq<Handle>, ghost stuck: seq<nat>)
      requires driver.Valid() && cells.Length == |sizes| && AllPositive(sizes)
      modifies this`errorCode, driver`mapped, driver`live, driver`issued, driver`unhandled, cells
      modifies driver`created, driver`access
      ensures driver.Valid() && errorCode == NO_ERROR
      ensures ok <==> stage == Done
      ensures MapEffect(old(See(cells)), See(cells), base, sizes, stage, refused, stuck)
      ensures AccessAfter(old(See(cells)), See(cells), stage, base, size)
      ensures stage == Pending && old(errorCode) == NO_ERROR ==> driver.unhandled > old(driver.unhandled)
    {
      stage, refused, stuck := CreateAndMap(base, size, cells, sizes);
      ok := errorCode == NO_ERROR;
      if !ok { errorCode := NO_ERROR; }
    }

    /** Unmaps, reports an error if there was one, and clears it. */
    method PythonUnmapAndRelease(base: nat, size: nat, cells: array<Handle>, sizes: seq<nat>)
      returns (ok: bool, ghost refused: seq<Handle>, ghost stuck: seq<nat>)
      requires driver.Valid() && cells.Length == |sizes| && AllPositive(sizes)
      modifies this`errorCode, driver`mapped, driver`access, driver`live, driver`reserved, driver`unhandled
      ensures driver.Valid() && errorCode == NO_ERROR
      ensures UnmapEffect(old(See(cells)), See(cells), base, size, sizes, ok, refused, stuck)
      ensures AllInPlace(old(See(cells)), base, size, sizes) && old(errorCode) == NO_ERROR ==>
        (driver.unhandled == old(driver.unhandled) ==> ok)
    {
      refused, stuck := UnmapAndRelease(base, size, cells, sizes);
      ok := errorCode == NO_ERROR;
      if !ok { errorCode := NO_ERROR; }
    }

    // -------------------------------------------------------------- whole runs

    /** One call of either kind. */
    method Perform(base: nat, size: nat, cells: array<Handle>, sizes: seq<nat>, call: Call)
      returns (ok: bool, ghost event: Event)
      requires driver.Valid() && cells.Length == |sizes| && AllPositive(sizes) && errorCode == NO_ERROR
      modifies this`errorCode, driver`mapped, driver`live, driver`issued, driver`reserved, driver`unhandled, cells
      modifies driver`created, driver`access
      ensures driver.Valid() && errorCode == NO_ERROR
      ensures Step(old(See(cells)), See(cells), call, ok, event, base, size, sizes)
    {
      ghost var refused, stuck;
      match call {
        case MapCall =>
          ghost var stage;
          ok, stage, refused, stuck := PythonCreateAndMap(base, size, cells, sizes);
          event := MapEvent(stage, refused, stuck);
        case UnmapCall =>
          ok, refused, stuck := PythonUnmapAndRelease(base, size, cells, sizes);
          event := UnmapEvent(refused, stuck);
      }
    }

    /** Any sequence of map and unmap calls on one allocation, whatever fails.  `others` are live
        handles that are not the allocation's.  No call touches them, nor what is mapped outside the
        allocation.  A handle is lost exactly when a call to map overwrites the cells that hold it
        while it is live.  After a call that succeeds the live handles are the others, those lost,
        and after a call to map those in the cells. */
    method Session(base: nat, size: nat, cells: array<Handle>, sizes: seq<nat>, calls: seq<Call>,
                   ghost others: set<Handle>)
      returns (results: seq<bool>, ghost events: seq<Event>, ghost views: seq<View>)
      requires driver.Valid() && cells.Length == |sizes| && AllPositive(sizes) && errorCode == NO_ERROR
      requires others <= driver.live && CellSet(cells) !! others
      modifies this`errorCode, driver`mapped, driver`live, driver`issued, driver`reserved, driver`unhandled, cells
      modifies driver`created, driver`access
      ensures driver.Valid() && errorCode == NO_ERROR
      ensures Trace(calls, results, events, views, base, size, sizes)
      ensures views[0] == old(See(cells)) && views[|calls|] == See(cells)
      ensures forall i :: 0 <= i < |calls| ==>
        Booked(views[i], views[i + 1], calls[i], results[i], base, size, sizes, others)
      ensures forall i :: 0 <= i < |calls| && calls[i] == MapCall && results[i] ==>
        Backed(views[i + 1], base, size, sizes)
      ensures Lost(See(cells), others) == old(Lost(See(cells), others)) <==> !Drops(calls, views)
    {
      results, events, views := [], [], [See(cells)];
      for i := 0 to |calls|
        invariant driver.Valid() && errorCode == NO_ERROR
        invariant Trace(calls[..i], results, events, views, base, size, sizes)
        invariant views[0] == old(See(cells)) && views[i] == See(cells)
      {
        var ok;
        ghost var event;
        ok, event := Perform(base, size, cells, sizes, calls[i]);
        OneMoreStep(calls, results, events, views, i, ok, event, See(cells), base, size, sizes);
        results, events, views := results + [ok], events + [event], views + [See(cells)];
      }
      assert calls[..|calls|] == calls;
      RunLedger(calls, results, events, views, base, size, sizes, others);
      RunBacks(calls, results, events, views, base, size, sizes);
    }
  }

  // ---------------------------------------------------------------- calls, and what they do to the books

  datatype Call = MapCall | UnmapCall

  /** How a call went: where mapping stopped, and the cleanup calls that failed. */
  datatype Event =
    | MapEvent(stage: Stage, refused: seq<Handle>, stuck: seq<nat>)
    | UnmapEvent(refused: seq<Handle>, stuck: seq<nat>)

  /** One call from Python, with the error code clear before. */
  ghost predicate Step(v: View, w: View, call: Call, result: bool, event: Event, base: nat, size: nat, sizes: seq<nat>)
    requires |v.cells| == |w.cells| == |sizes|
  {
    match call
    case MapCall =>
      && event.MapEvent? && MapEffect(v, w, base, sizes, event.stage, event.refused, event.stuck)
      && AccessAfter(v, w, event.stage, base, size)
      && (result <==> event.stage == Done) && (event.stage == Pending ==> w.unhandled > v.unhandled)
    case UnmapCall =>
      && event.UnmapEvent? && UnmapEffect(v, w, base, size, sizes, result, event.refused, event.stuck)
      && (AllInPlace(v, base, size, sizes) && w.unhandled == v.unhandled ==> result)
  }

  /** A sequence of calls with what there is before, between and after them. */
  ghost predicate Trace(calls: seq<Call>, results: seq<bool>, events: seq<Event>, views: seq<View>,
                        base: nat, size: nat, sizes: seq<nat>)
  {
    && |results| == |events| == |calls| && |views| == |calls| + 1
    && (forall i :: 0 <= i < |views| ==> |views[i].cells| == |sizes| && ValidView(views[i]))
    && (forall i :: 0 <= i < |calls| ==>
          Step(views[i], views[i + 1], calls[i], results[i], events[i], base, size, sizes))
  }

  lemma OneMoreStep(calls: seq<Call>, results: seq<bool>, events: seq<Event>, views: seq<View>, i: nat,
                    result: bool, event: Event, w: View, base: nat, size: nat, sizes: seq<nat>)
    requires i < |calls| && Trace(calls[..i], results, events, views, base, size, sizes)
    requires |w.cells| == |sizes| && ValidView(w)
    requires Step(views[i], w, calls[i], result, event, base, size, sizes)
    ensures Trace(calls[..i + 1], results + [result], events + [event], views + [w], base, size, sizes)
  {
    var longer := calls[..i + 1];
    forall k | 0 <= k < i + 1
      ensures Step((views + [w])[k], (views + [w])[k + 1], longer[k], (results + [result])[k], (events + [event])[k],
                   base, size, sizes)
    {
      if k < i { assert longer[k] == calls[..i][k]; }
    }
  }

  /** Live handles that are neither others' nor in a cell: no call will ever release them. */
  ghost function Lost(v: View, others: set<Handle>): set<Handle> {
    v.live - others - Elements(v.cells)
  }

  /** Live handles that the cells held before and do not hold after. */
  ghost function Dropped(v: View, w: View): set<Handle> {
    Elements(v.cells) * v.live - Elements(w.cells)
  }

  /** What the others hold is live, and in none of the cells. */
  ghost predicate Separate(v: View, others: set<Handle>) {
    others <= v.live && Elements(v.cells) !! others
  }

  /** What one call does to the books, whatever fails. */
  ghost predicate Booked(v: View, w: View, call: Call, result: bool, base: nat, size: nat, sizes: seq<nat>,
                         others: set<Handle>)
    requires |w.cells| == |sizes|
  {
    && Separate(w, others)
    && Lost(w, others) == Lost(v, others) + (if call == MapCall then Dropped(v, w) else {})
    && w.mapped - Addresses(base, sizes) == v.mapped - Addresses(base, sizes)
    && (call == MapCall ==> w.reserved == v.reserved)
    && (forall r :: r in v.reserved && r != base ==> r in w.reserved && w.reserved[r] == v.reserved[r])
    && (result ==> match call
          case MapCall =>
            && w.live == others + Lost(w, others) + Elements(w.cells) && AllLive(w.cells, w.live)
            && w.mapped == v.mapped + Chunks(base, sizes, w.cells, 0, |sizes|) && NoneMapped(v.mapped, base, sizes)
          case UnmapCall =>
            && w.live == others + Lost(w, others) && base in w.reserved && w.reserved[base] == size
            && w.mapped == v.mapped - Addresses(base, sizes) && AllMapped(v.mapped, base, sizes))
  }

  /** Each chunk is backed by a handle of its size, so that together they are as long as all chunks, and each
      can be accessed if what was reserved is as long. */
  ghost predicate Backed(w: View, base: nat, size: nat, sizes: seq<nat>) {
    && MemoryOf(w.cells, w.created) == sizes && Sum(MemoryOf(w.cells, w.created)) == Sum(sizes)
    && (size == Sum(sizes) ==> forall k :: 0 <= k < |sizes| ==> Address(base, sizes, k) in w.access)
  }

  lemma MapBacks(v: View, w: View, base: nat, size: nat, sizes: seq<nat>, stage: Stage, refused: seq<Handle>,
                 stuck: seq<nat>)
    requires |v.cells| == |w.cells| == |sizes| && AllPositive(sizes) && ValidView(v)
    requires MapEffect(v, w, base, sizes, stage, refused, stuck)
    ensures stage == Done || stage == AccessFailed ==> MemoryOf(w.cells, w.created) == sizes
    ensures stage == Done && AccessAfter(v, w, stage, base, size) ==> Backed(w, base, size, sizes)
  {
    if stage == Done || stage == AccessFailed {
      var memory := MemoryOf(w.cells, w.created);
      forall k | 0 <= k < |sizes| ensures memory[k] == sizes[k] {
        assert w.cells[k] == v.issued + k == |v.created| + k;
      }
      forall k | 0 <= k < |sizes| ensures IsMapped(w.mapped, base, sizes, k) {
        ChunkLookup(base, sizes, w.cells, 0, |sizes|, Address(base, sizes, k));
      }
    }
    if stage == Done && AccessAfter(v, w, stage, base, size) && size == Sum(sizes) {
      forall k | 0 <= k < |sizes| ensures Address(base, sizes, k) in w.access {
        AddressInside(base, sizes, k);
        assert IsMapped(w.mapped, base, sizes, k);
      }
    }
  }

  /** Some call to map drops a live handle from the cells. */
  ghost predicate Drops(calls: seq<Call>, views: seq<View>)
    requires |views| > |calls|
  {
    exists i :: 0 <= i < |calls| && calls[i] == MapCall && Dropped(views[i], views[i + 1]) != {}
  }

  /** Mapping, whatever fails: the new handles that are left are in the cells, and what was live and
      in the cells is lost unless it still is. */
  lemma MapLedger(v: View, w: View, base: nat, size: nat, sizes: seq<nat>, stage: Stage, refused: seq<Handle>,
                  stuck: seq<nat>, others: set<Handle>)
    requires |v.cells| == |w.cells| == |sizes| && AllPositive(sizes) && ValidView(v) && Separate(v, others)
    requires MapEffect(v, w, base, sizes, stage, refused, stuck)
    ensures Booked(v, w, MapCall, stage == Done, base, size, sizes, others)
    ensures v.live <= w.live <= v.live + Elements(w.cells)
  {
    forall h | h in Issued(v.issued, w.issued) ensures h in Elements(w.cells) {
      assert w.cells[h - v.issued] == h;
    }
    forall k | 0 <= k < |w.cells| ensures w.cells[k] >= v.issued || w.cells[k] in Elements(v.cells) {
      assert w.cells[k] == v.issued + k || w.cells[k] == v.cells[k];
    }
    forall a | a in Chunks(base, sizes, w.cells, 0, |sizes|) ensures a in Addresses(base, sizes) {
      ChunkLookup(base, sizes, w.cells, 0, |sizes|, a);
    }
    if stage == Done || stage == AccessFailed { NewHandles(w.cells, v.issued); }
  }

  lemma KeptInCells(before: seq<Handle>, after: seq<Handle>, first: nat, n: nat, h: Handle)
    requires Overwritten(before, after, first, n) && h < first
    ensures h in after <==> h in before[n..]
    ensures h in before <==> h in before[..n] || h in before[n..]
  {
    var rest := before[n..];
    if h in after {
      var k :| 0 <= k < |after| && after[k] == h;
      assert rest[k - n] == h;
    }
    if h in rest {
      var k :| 0 <= k < |rest| && rest[k] == h;
      assert after[n + k] == h;
    }
  }

  /** A live handle is dropped exactly when some create overwrites a cell that holds it and no cell
      holds it that is left as it was. */
  lemma DroppedIff(v: View, w: View, base: nat, sizes: seq<nat>, stage: Stage, refused: seq<Handle>, stuck: seq<nat>,
                   h: Handle)
    requires |v.cells| == |w.cells| == |sizes| && ValidView(v)
    requires MapEffect(v, w, base, sizes, stage, refused, stuck)
    ensures h in Dropped(v, w) <==>
      var n := w.issued - v.issued;
      h in v.live && h in v.cells[..n] && h !in v.cells[n..]
  {
    if h in v.live { KeptInCells(v.cells, w.cells, v.issued, w.issued - v.issued, h); }
  }

  /** Unmapping, whatever fails, loses nothing: what is left live is still in the cells, or was lost before. */
  lemma UnmapLedger(v: View, w: View, base: nat, size: nat, sizes: seq<nat>, ok: bool, refused: seq<Handle>,
                    stuck: seq<nat>, others: set<Handle>)
    requires |v.cells| == |w.cells| == |sizes| && Separate(v, others)
    requires UnmapEffect(v, w, base, size, sizes, ok, refused, stuck)
    ensures Booked(v, w, UnmapCall, ok, base, size, sizes, others)
    ensures ok ==> w.live == v.live - Elements(v.cells)
  {
    forall h ensures h in Elements(v.cells) <==> h in v.cells {}
    forall a | a !in Addresses(base, sizes) ensures !IsChunk(v.mapped, base, sizes, |sizes|, a) {}
    if ok {
      assert refused == [] && stuck == [];
      AllUnmapped(w.mapped, v.mapped, base, sizes);
    }
  }

  lemma StepLedger(v: View, w: View, call: Call, result: bool, event: Event, base: nat, size: nat, sizes: seq<nat>,
                   others: set<Handle>)
    requires |v.cells| == |w.cells| == |sizes| && AllPositive(sizes) && ValidView(v) && Separate(v, others)
    requires Step(v, w, call, result, event, base, size, sizes)
    ensures Booked(v, w, call, result, base, size, sizes, others)
  {
    match call
    case MapCall => MapLedger(v, w, base, size, sizes, event.stage, event.refused, event.stuck, others);
    case UnmapCall => UnmapLedger(v, w, base, size, sizes, result, event.refused, event.stuck, others);
  }

  lemma {:induction false} BookedAt(calls: seq<Call>, results: seq<bool>, events: seq<Event>, views: seq<View>,
                                    base: nat, size: nat, sizes: seq<nat>, others: set<Handle>, i: nat)
    requires Trace(calls, results, events, views, base, size, sizes) && AllPositive(sizes)
    requires Separate(views[0], others) && i < |calls|
    ensures Separate(views[i], others)
    ensures Booked(views[i], views[i + 1], calls[i], results[i], base, size, sizes, others)
  {
    if i > 0 { BookedAt(calls, results, events, views, base, size, sizes, others, i - 1); }
    StepLedger(views[i], views[i + 1], calls[i], results[i], events[i], base, size, sizes, others);
  }

  lemma LostGrows(v: View, w: View, call: Call, result: bool, base: nat, size: nat, sizes: seq<nat>,
                  others: set<Handle>)
    requires |w.cells| == |sizes| && Booked(v, w, call, result, base, size, sizes, others)
    ensures Lost(v, others) <= Lost(w, others)
    ensures Lost(w, others) == Lost(v, others) <==> !(call == MapCall && Dropped(v, w) != {})
  {
  }

  lemma RunBacks(calls: seq<Call>, results: seq<bool>, events: seq<Event>, views: seq<View>,
                 base: nat, size: nat, sizes: seq<nat>)
    requires Trace(calls, results, events, views, base, size, sizes) && AllPositive(sizes)
    ensures forall i :: 0 <= i < |calls| && calls[i] == MapCall && results[i] ==>
      Backed(views[i + 1], base, size, sizes)
  {
    forall i | 0 <= i < |calls| && calls[i] == MapCall && results[i] ensures Backed(views[i + 1], base, size, sizes) {
      assert Step(views[i], views[i + 1], calls[i], results[i], events[i], base, size, sizes);
      MapBacks(views[i], views[i + 1], base, size, sizes, events[i].stage, events[i].refused, events[i].stuck);
    }
  }

  /** The books of a whole run, whatever fails: handles are lost exactly by calls to map that drop them. */
  lemma RunLedger(calls: seq<Call>, results: seq<bool>, events: seq<Event>, views: seq<View>,
                  base: nat, size: nat, sizes: seq<nat>, others: set<Handle>)
    requires Trace(calls, results, events, views, base, size, sizes) && AllPositive(sizes)
    requires Separate(views[0], others)
    ensures forall i :: 0 <= i < |calls| ==>
      Booked(views[i], views[i + 1], calls[i], results[i], base, size, sizes, others)
    ensures Lost(views[|calls|], others) == Lost(views[0], others) <==> !Drops(calls, views)
  {
    forall i | 0 <= i < |calls|
      ensures Booked(views[i], views[i + 1], calls[i], results[i], base, size, sizes, others)
    {
      BookedAt(calls, results, events, views, base, size, sizes, others, i);
    }
    for n := 0 to |calls|
      invariant Lost(views[0], others) <= Lost(views[n], others)
      invariant Lost(views[n], others) == Lost(views[0], others) <==>
        forall i :: 0 <= i < n && calls[i] == MapCall ==> Dropped(views[i], views[i + 1]) == {}
    {
      BookedAt(calls, results, events, views, base, size, sizes, others, n);
      LostGrows(views[n], views[n + 1], calls[n], results[n], base, size, sizes, others);
    }
  }
}
