/** Graph partition signatures: walking the partitions backwards, the patch decides what
    each partition takes, returns and frees, from the set of names still unmet.

    Names are buffer names.  A mutation gives a buffer a second name; `realNames` maps such
    a name back to the buffer it mutates. */
module GraphPartition {
  import opened Common

  type Name = string

  datatype Buffer = Buffer(noneLayout: bool, mutationOutput: bool)

  /** What the scheduler knows about the graph: its outputs, the names that denote nodes,
      its buffers, the real names of mutated buffers and its constants. */
  datatype Graph = Graph(
    outputs: set<Name>, nodes: set<Name>, buffers: map<Name, Buffer>,
    realNames: map<Name, Name>, constants: set<Name>)

  datatype Node = Node(outputs: set<Name>, read: set<Name>, written: set<Name>, lastUsage: set<Name>)

  type Partition = seq<Node>

  datatype Signature = Signature(
    inputs: set<Name>, outputs: set<Name>, deallocation: map<Name, bool>,
    skipCudagraph: bool, constants: set<Name>)

  function RealName(g: Graph, n: Name): Name {
    if n in g.realNames then g.realNames[n] else n
  }

  /** Follows mutations to the buffer that decides the layout.  A rename is followed at
      most once, which bounds the recursion; on renames without cycles that is no limit. */
  function IsNoneLayout(g: Graph, n: Name, renames: map<Name, Name>): bool
    decreases |renames|
  {
    n in g.buffers && g.buffers[n].noneLayout &&
    if g.buffers[n].mutationOutput && n in renames && renames[n] != "" then
      RemovedRename(renames, n);
      IsNoneLayout(g, renames[n], renames - {n})
    else true
  }

  lemma RemovedRename(renames: map<Name, Name>, n: Name)
    requires n in renames
    ensures |renames - {n}| < |renames|
  {
    assert (renames - {n}).Keys == renames.Keys - {n};
    assert |(renames - {n}).Keys| == |renames.Keys| - 1;
  }

  function NoneLayout(g: Graph, n: Name): bool { IsNoneLayout(g, n, g.realNames) }

  /** Real names are not themselves renamed. */
  ghost predicate FinalNames(g: Graph) {
    forall n :: n in g.realNames ==> g.realNames[n] !in g.realNames
  }

  /** The layout of a mutation is that of the buffer it mutates. */
  lemma MutationLayout(g: Graph, n: Name)
    requires FinalNames(g) && n in g.buffers && g.buffers[n] == Buffer(true, true)
    requires n in g.realNames && g.realNames[n] != ""
    ensures NoneLayout(g, n) == NoneLayout(g, g.realNames[n])
  {
    var target := g.realNames[n];
    assert target !in g.realNames - {n} && target !in g.realNames;
    assert IsNoneLayout(g, target, g.realNames - {n}) == IsNoneLayout(g, target, g.realNames);
  }

  /** A buffer has no layout exactly when it is declared so and, if it is a mutation under another name,
      what it mutates is declared so too. */
  lemma NoneLayoutIff(g: Graph, n: Name)
    requires FinalNames(g)
    ensures NoneLayout(g, n) <==>
      && n in g.buffers && g.buffers[n].noneLayout
      && (g.buffers[n].mutationOutput && n in g.realNames && g.realNames[n] != "" ==>
            g.realNames[n] in g.buffers && g.buffers[g.realNames[n]].noneLayout)
  {
    if n in g.realNames {
      var target := g.realNames[n];
      assert target !in g.realNames - {n} && target !in g.realNames;
      assert IsNoneLayout(g, target, g.realNames - {n}) <==> target in g.buffers && g.buffers[target].noneLayout;
    }
  }

  // ---------------------------------------------------------------- one partition

  function Produced(p: Partition): set<Name> {
    if p == [] then {} else Produced(p[..|p| - 1]) + p[|p| - 1].outputs
  }

  function Accessed(p: Partition): set<Name> {
    if p == [] then {} else Accessed(p[..|p| - 1]) + p[|p| - 1].read + p[|p| - 1].written
  }

  function Freed(p: Partition): set<Name> {
    if p == [] then {} else Freed(p[..|p| - 1]) + p[|p| - 1].lastUsage
  }

  /** What a partition takes: real names of what it reads or writes but does not produce,
      and the earlier buffers it frees. */
  function Taken(g: Graph, p: Partition): set<Name> {
    (set n | n in Accessed(p) && !NoneLayout(g, n) && n !in Produced(p) :: RealName(g, n)) +
    (set n | n in Freed(p) && n !in Produced(p) && n in g.nodes)
  }

  /** What it takes and hands back because it does not free it. */
  function PassedOn(g: Graph, p: Partition): set<Name> {
    set n | n in Taken(g, p) && n in g.nodes && n !in Freed(p)
  }

  function Returned(g: Graph, p: Partition, unmet: set<Name>): set<Name> {
    set n | n in (Produced(p) * unmet) + PassedOn(g, p) :: RealName(g, n)
  }

  function Deallocates(g: Graph, p: Partition): set<Name> {
    set n | n in Taken(g, p) && n in g.nodes && n in Freed(p)
  }

  function OutputNodes(g: Graph, p: Partition, unmet: set<Name>): set<Name> {
    set n | n in Returned(g, p, unmet) && !NoneLayout(g, n)
  }

  function InputNodes(g: Graph, p: Partition): set<Name> {
    set n | n in Taken(g, p) && n in g.nodes
  }

  function SignatureOf(g: Graph, p: Partition, skip: bool, unmet: set<Name>): Signature {
    Signature(
      InputNodes(g, p),
      OutputNodes(g, p, unmet),
      map n | n in Taken(g, p) && n in g.nodes :: n in Freed(p),
      skip,
      Taken(g, p) * g.constants)
  }

  function UnmetBefore(g: Graph, p: Partition, unmet: set<Name>): set<Name> {
    Taken(g, p) + (unmet - Returned(g, p, unmet))
  }

  /** The names unmet before partition i. */
  function Unmet(g: Graph, parts: seq<Partition>, i: nat): set<Name>
    requires i <= |parts|
    decreases |parts| - i
  {
    if i == |parts| then g.outputs
    else
      UnmetBefore(g, parts[i], Unmet(g, parts, i + 1))
  }

  /** Looking a returned name up fails unless it is a node or has no layout. */
  ghost predicate Defined(g: Graph, parts: seq<Partition>, i: nat)
    requires i < |parts|
  {
    OutputNodes(g, parts[i], Unmet(g, parts, i + 1)) <= g.nodes
  }

  // ---------------------------------------------------------------- liveness

  /** The partition gives the buffer a value: under its own name, or under the name of a
      graph output that mutates it. */
  ghost predicate Defines(g: Graph, p: Partition, x: Name) {
    x in Produced(p) || exists o :: o in Produced(p) && o in g.outputs && RealName(g, o) == x
  }

  ghost predicate NotDefined(g: Graph, parts: seq<Partition>, from: nat, to: nat, x: Name)
    requires to <= |parts|
  {
    forall k :: from <= k < to ==> !Defines(g, parts[k], x)
  }

  /** The buffer is taken by a later partition with no definition in between. */
  ghost predicate UsedFrom(g: Graph, parts: seq<Partition>, i: nat, x: Name)
    requires i <= |parts|
  {
    exists j :: i <= j < |parts| && UsedAt(g, parts, i, j, x)
  }

  ghost predicate UsedAt(g: Graph, parts: seq<Partition>, i: nat, j: nat, x: Name)
    requires i <= j < |parts|
  {
    x in Taken(g, parts[j]) && NotDefined(g, parts, i, j, x)
  }

  /** Everything a partition takes goes by its real name. */
  ghost predicate TakesRealNames(g: Graph, parts: seq<Partition>) {
    forall i :: 0 <= i < |parts| ==> forall x :: x in Taken(g, parts[i]) ==> x !in g.realNames
  }

  lemma {:induction false} RenamedUnmetIsOutput(g: Graph, parts: seq<Partition>, i: nat, n: Name)
    requires FinalNames(g) && TakesRealNames(g, parts) && i <= |parts| && n in g.realNames
    ensures n in Unmet(g, parts, i) <==> n in g.outputs
    decreases |parts| - i
  {
    if i < |parts| {
      RenamedUnmetIsOutput(g, parts, i + 1, n);
      assert n !in Taken(g, parts[i]);
    }
  }

  /** A definition of an unmet buffer is returned; nothing else but a pass-on is. */
  lemma ReturnedIffDefined(g: Graph, parts: seq<Partition>, i: nat, x: Name)
    requires FinalNames(g) && TakesRealNames(g, parts) && i < |parts| && x !in g.realNames
    ensures
      x in Returned(g, parts[i], Unmet(g, parts, i + 1)) <==>
      || x in PassedOn(g, parts[i])
      || (x in Produced(parts[i]) && x in Unmet(g, parts, i + 1))
      || (exists o :: o in Produced(parts[i]) && o in g.outputs && o in g.realNames && RealName(g, o) == x)
  {
    var p, later := parts[i], Unmet(g, parts, i + 1);
    if o :| o in Produced(p) && o in g.outputs && o in g.realNames && RealName(g, o) == x {
      RenamedUnmetIsOutput(g, parts, i + 1, o);
      assert o in (Produced(p) * later) + PassedOn(g, p);
    }
    if (x in Produced(p) && x in later) || x in PassedOn(g, p) {
      assert x in (Produced(p) * later) + PassedOn(g, p) && RealName(g, x) == x;
    }
    if x in Returned(g, p, later) {
      var n :| n in (Produced(p) * later) + PassedOn(g, p) && RealName(g, n) == x;
      if n in g.realNames {
        assert n !in PassedOn(g, p);
        RenamedUnmetIsOutput(g, parts, i + 1, n);
      }
    }
  }

  /** The name is taken later, or is a graph output, with no definition before that use. */
  ghost predicate LiveName(g: Graph, parts: seq<Partition>, i: nat, x: Name)
    requires i <= |parts|
  {
    UsedFrom(g, parts, i, x) || (x in g.outputs && NotDefined(g, parts, i, |parts|, x))
  }

  lemma LiveNameStep(g: Graph, parts: seq<Partition>, i: nat, x: Name)
    requires i < |parts|
    ensures LiveName(g, parts, i, x) <==>
      x in Taken(g, parts[i]) || (!Defines(g, parts[i], x) && LiveName(g, parts, i + 1, x))
  {
    UsedFromStep(g, parts, i, x);
    assert NotDefined(g, parts, i, |parts|, x) <==> !Defines(g, parts[i], x) && NotDefined(g, parts, i + 1, |parts|, x);
  }

  /** The backward set is liveness: the real names unmet before a partition are the live ones. */
  lemma {:induction false} UnmetIsLiveness(g: Graph, parts: seq<Partition>, i: nat, x: Name)
    requires FinalNames(g) && TakesRealNames(g, parts) && i <= |parts| && x !in g.realNames
    ensures x in Unmet(g, parts, i) <==> LiveName(g, parts, i, x)
    decreases |parts| - i
  {
    if i < |parts| {
      UnmetIsLiveness(g, parts, i + 1, x);
      LiveNameStep(g, parts, i, x);
      LivenessStep(g, parts, i, x, LiveName(g, parts, i + 1, x));
    } else {
      LiveAtEnd(g, parts, x);
    }
  }

  lemma LivenessStep(g: Graph, parts: seq<Partition>, i: nat, x: Name, live: bool)
    requires FinalNames(g) && TakesRealNames(g, parts) && i < |parts| && x !in g.realNames
    requires x in Unmet(g, parts, i + 1) <==> live
    requires live == LiveName(g, parts, i + 1, x)
    ensures x in Unmet(g, parts, i) <==> x in Taken(g, parts[i]) || (!Defines(g, parts[i], x) && live)
  {
    UnmetStep(g, parts, i, x);
  }

  lemma LiveAtEnd(g: Graph, parts: seq<Partition>, x: Name)
    ensures LiveName(g, parts, |parts|, x) <==> x in g.outputs
    ensures Unmet(g, parts, |parts|) == g.outputs
  {
  }

  lemma UnmetStep(g: Graph, parts: seq<Partition>, i: nat, x: Name)
    requires FinalNames(g) && TakesRealNames(g, parts) && i < |parts| && x !in g.realNames
    requires x in g.outputs && NotDefined(g, parts, i + 1, |parts|, x) ==> x in Unmet(g, parts, i + 1)
    ensures x in Unmet(g, parts, i) <==>
      x in Taken(g, parts[i]) || (!Defines(g, parts[i], x) && x in Unmet(g, parts, i + 1))
  {
    ReturnedIffDefined(g, parts, i, x);
    assert x in PassedOn(g, parts[i]) ==> x in Taken(g, parts[i]);
  }

  lemma UsedFromStep(g: Graph, parts: seq<Partition>, i: nat, x: Name)
    requires i < |parts|
    ensures UsedFrom(g, parts, i, x) <==>
      x in Taken(g, parts[i]) || (!Defines(g, parts[i], x) && UsedFrom(g, parts, i + 1, x))
  {
    if x in Taken(g, parts[i]) {
      assert UsedAt(g, parts, i, i, x);
    }
    if !Defines(g, parts[i], x) && UsedFrom(g, parts, i + 1, x) {
      var j :| i + 1 <= j < |parts| && UsedAt(g, parts, i + 1, j, x);
      assert UsedAt(g, parts, i, j, x);
    }
    if UsedFrom(g, parts, i, x) && x !in Taken(g, parts[i]) {
      var j :| i <= j < |parts| && UsedAt(g, parts, i, j, x);
      assert UsedAt(g, parts, i + 1, j, x);
    }
  }

  /** Without mutations this is the textbook definition, although the code subtracts what
      a partition returns and not what it produces. */
  lemma UnmetIsClassicalLiveness(g: Graph, parts: seq<Partition>, i: nat, x: Name)
    requires g.realNames == map[] && i <= |parts|
    ensures
      x in Unmet(g, parts, i) <==>
      || (exists j :: i <= j < |parts| && x in Taken(g, parts[j])
            && forall k :: i <= k < j ==> x !in Produced(parts[k]))
      || (x in g.outputs && forall k :: i <= k < |parts| ==> x !in Produced(parts[k]))
  {
    UnmetIsLiveness(g, parts, i, x);
    forall k | i <= k < |parts| ensures Defines(g, parts[k], x) <==> x in Produced(parts[k]) {}
    if j :| i <= j < |parts| && x in Taken(g, parts[j]) && forall k :: i <= k < j ==> x !in Produced(parts[k]) {
      assert UsedAt(g, parts, i, j, x);
    }
    if UsedFrom(g, parts, i, x) {
      var j :| i <= j < |parts| && UsedAt(g, parts, i, j, x);
      assert x in Taken(g, parts[j]) && forall k :: i <= k < j ==> x !in Produced(parts[k]);
    }
  }

  // ---------------------------------------------------------------- running forward

  /** The buffers live before partition i when the partitions run in order with the
      computed signatures, starting from the graph inputs. */
  ghost function Live(g: Graph, parts: seq<Partition>, inputs: set<Name>, i: nat): set<Name>
    requires i <= |parts|
  {
    if i == 0 then inputs
    else
      Executed(SignatureOf(g, parts[i - 1], false, Unmet(g, parts, i)), Live(g, parts, inputs, i - 1))
  }

  /** Running a partition drops the inputs it deallocates and adds what it returns. */
  function Executed(s: Signature, live: set<Name>): set<Name> {
    (live - (set n | n in s.deallocation && s.deallocation[n])) + s.outputs
  }

  lemma LiveStep(g: Graph, parts: seq<Partition>, inputs: set<Name>, i: nat, x: Name)
    requires i < |parts|
    ensures x in Live(g, parts, inputs, i + 1) <==>
      || (x in Live(g, parts, inputs, i) && x !in Deallocates(g, parts[i]))
      || (x in Returned(g, parts[i], Unmet(g, parts, i + 1)) && !NoneLayout(g, x))
  {
  }

  /** Every partition finds all its inputs, and the graph outputs are there at the end. */
  ghost predicate Safe(g: Graph, parts: seq<Partition>, inputs: set<Name>) {
    && (forall i :: 0 <= i < |parts| ==> InputsLive(g, parts, inputs, i))
    && (forall o :: o in g.outputs && IsBuffer(g, RealName(g, o)) ==> RealName(g, o) in Live(g, parts, inputs, |parts|))
  }

  ghost predicate InputsLive(g: Graph, parts: seq<Partition>, inputs: set<Name>, i: nat)
    requires i < |parts|
  {
    InputNodes(g, parts[i]) <= Live(g, parts, inputs, i)
  }

  /** A node with storage. */
  ghost predicate IsBuffer(g: Graph, x: Name) { x in g.nodes && !NoneLayout(g, x) }

  /** The buffer is wanted from partition i on, with no definition before the first use. */
  ghost predicate Needed(g: Graph, parts: seq<Partition>, i: nat, x: Name)
    requires i <= |parts|
  {
    || UsedFrom(g, parts, i, x)
    || (NotDefined(g, parts, i, |parts|, x) && exists o :: o in g.outputs && RealName(g, o) == x)
  }

  /** Some partition frees a buffer that is still wanted and that it does not define. */
  ghost predicate FreedTooSoon(g: Graph, parts: seq<Partition>, i: nat, x: Name)
    requires i < |parts|
  {
    x in Deallocates(g, parts[i]) && !Defines(g, parts[i], x) && Needed(g, parts, i + 1, x)
  }

  ghost predicate UseAfterFree(g: Graph, parts: seq<Partition>) {
    exists i, x :: 0 <= i < |parts| && FreedTooSoon(g, parts, i, x)
  }

  /** What a scheduled graph provides. */
  ghost predicate WellFormed(g: Graph, parts: seq<Partition>, inputs: set<Name>) {
    && FinalNames(g)
    && FreesBuffers(g, parts)
    && LayoutsFollow(g)
    && StartsFrom(g, parts, inputs)
    && OutputsProduced(g, parts)
  }

  /** Frees go by real names, of buffers with storage. */
  ghost predicate FreesBuffers(g: Graph, parts: seq<Partition>) {
    forall i, f :: 0 <= i < |parts| && f in Freed(parts[i]) && f in g.nodes ==>
      f !in g.realNames && !NoneLayout(g, f)
  }

  /** A mutation with storage mutates a buffer with storage. */
  ghost predicate LayoutsFollow(g: Graph) {
    forall n :: n in g.realNames && !NoneLayout(g, n) ==> !NoneLayout(g, g.realNames[n])
  }

  /** What is wanted at the start is a graph input. */
  ghost predicate StartsFrom(g: Graph, parts: seq<Partition>, inputs: set<Name>) {
    forall x :: x !in g.realNames && IsBuffer(g, x) && Needed(g, parts, 0, x) ==> x in inputs
  }

  /** An output that names a mutation is produced, and its buffer not produced afterwards. */
  ghost predicate OutputsProduced(g: Graph, parts: seq<Partition>) {
    forall o :: o in g.outputs && o in g.realNames ==> exists k :: 0 <= k < |parts| && ProducedLast(g, parts, k, o)
  }

  ghost predicate ProducedLast(g: Graph, parts: seq<Partition>, k: nat, o: Name)
    requires k < |parts|
  {
    o in Produced(parts[k]) && forall j :: k < j < |parts| ==> RealName(g, o) !in Produced(parts[j])
  }

  lemma TakenIsReal(g: Graph, parts: seq<Partition>)
    requires FinalNames(g) && FreesBuffers(g, parts) && LayoutsFollow(g)
    ensures TakesRealNames(g, parts)
    ensures forall i, x :: 0 <= i < |parts| && x in Taken(g, parts[i]) && x in g.nodes ==> IsBuffer(g, x)
  {
    forall i, x | 0 <= i < |parts| && x in Taken(g, parts[i])
      ensures x !in g.realNames && (x in g.nodes ==> IsBuffer(g, x))
    {
      var p := parts[i];
      if !(x in Freed(p) && x !in Produced(p) && x in g.nodes) {
        var n :| n in Accessed(p) && !NoneLayout(g, n) && n !in Produced(p) && RealName(g, n) == x;
      }
    }
  }

  /** A buffer that a mutation among the graph outputs stands for, and that nothing defines any more,
      was last defined no later than where that mutation is produced. */
  lemma OutputDefinedBefore(g: Graph, parts: seq<Partition>, i: nat, x: Name, o: Name)
    requires i <= |parts| && OutputsProduced(g, parts)
    requires o in g.outputs && o in g.realNames && RealName(g, o) == x && NotDefined(g, parts, i, |parts|, x)
    ensures exists k :: 0 <= k < i && ProducedLast(g, parts, k, o)
  {
    var k: nat :| k < |parts| && ProducedLast(g, parts, k, o);
    assert Defines(g, parts[k], x);
  }

  /** What is wanted and defined here is live afterwards, or it is defined here as a mutation. */
  lemma WantedIsUnmet(g: Graph, parts: seq<Partition>, i: nat, x: Name)
    requires FinalNames(g) && TakesRealNames(g, parts) && OutputsProduced(g, parts)
    requires i < |parts| && x !in g.realNames
    requires x in Produced(parts[i]) && Needed(g, parts, i + 1, x)
    ensures x in Unmet(g, parts, i + 1)
            || exists o :: o in Produced(parts[i]) && o in g.outputs && o in g.realNames && RealName(g, o) == x
  {
    UnmetIsLiveness(g, parts, i + 1, x);
    if !UsedFrom(g, parts, i + 1, x) && x !in g.outputs {
      var o :| o in g.outputs && RealName(g, o) == x;
      OutputDefinedBefore(g, parts, i + 1, x, o);
      var k: nat :| k < i + 1 && ProducedLast(g, parts, k, o);
      assert k == i;
    }
  }

  /** A definition of a wanted buffer is always returned. */
  lemma WantedDefinitionReturned(g: Graph, parts: seq<Partition>, i: nat, x: Name)
    requires FinalNames(g) && TakesRealNames(g, parts) && OutputsProduced(g, parts)
    requires i < |parts| && x !in g.realNames
    requires Defines(g, parts[i], x) && Needed(g, parts, i + 1, x)
    ensures x in Returned(g, parts[i], Unmet(g, parts, i + 1))
  {
    ReturnedIffDefined(g, parts, i, x);
    if x in Produced(parts[i]) {
      WantedIsUnmet(g, parts, i, x);
    } else {
      var o :| o in Produced(parts[i]) && o in g.outputs && RealName(g, o) == x;
      assert o in g.realNames;
    }
  }

  lemma {:induction false} NeededIsLive(g: Graph, parts: seq<Partition>, inputs: set<Name>, i: nat, x: Name)
    requires FinalNames(g) && TakesRealNames(g, parts) && OutputsProduced(g, parts) && StartsFrom(g, parts, inputs)
    requires !UseAfterFree(g, parts) && i <= |parts|
    requires IsBuffer(g, x) && x !in g.realNames && Needed(g, parts, i, x)
    ensures x in Live(g, parts, inputs, i)
  {
    if i > 0 {
      var before: nat := i - 1;
      LiveStep(g, parts, inputs, before, x);
      if Defines(g, parts[before], x) {
        WantedDefinitionReturned(g, parts, before, x);
      } else {
        NeededEarlier(g, parts, before, x);
        NeededIsLive(g, parts, inputs, before, x);
        assert !FreedTooSoon(g, parts, before, x);
      }
    }
  }

  lemma NeededEarlier(g: Graph, parts: seq<Partition>, i: nat, x: Name)
    requires i < |parts| && !Defines(g, parts[i], x) && Needed(g, parts, i + 1, x)
    ensures Needed(g, parts, i, x)
  {
    UsedFromStep(g, parts, i, x);
  }

  /** What a partition neither defines nor takes and keeps, it does not return. */
  lemma NotReturned(g: Graph, parts: seq<Partition>, i: nat, x: Name)
    requires FinalNames(g) && TakesRealNames(g, parts) && i < |parts| && x !in g.realNames
    requires !Defines(g, parts[i], x) && (x in Taken(g, parts[i]) ==> x in Freed(parts[i]))
    ensures x !in Returned(g, parts[i], Unmet(g, parts, i + 1))
  {
    ReturnedIffDefined(g, parts, i, x);
  }

  /** A buffer freed too soon is not live until something takes it. */
  lemma {:induction false} FreedStaysDead(g: Graph, parts: seq<Partition>, inputs: set<Name>, i: nat, j: nat, x: Name)
    requires FinalNames(g) && TakesRealNames(g, parts) && i < j <= |parts| && x !in g.realNames
    requires x in Deallocates(g, parts[i]) && NotDefined(g, parts, i, j, x)
    requires forall k :: i < k < j ==> x !in Taken(g, parts[k])
    ensures x !in Live(g, parts, inputs, j)
    decreases j
  {
    var last: nat := j - 1;
    assert !Defines(g, parts[last], x);
    NotReturned(g, parts, last, x);
    LiveStep(g, parts, inputs, last, x);
    if last > i {
      FreedStaysDead(g, parts, inputs, i, last, x);
    }
  }

  /** The first use after a definition-free stretch. */
  lemma {:induction false} FirstUse(g: Graph, parts: seq<Partition>, i: nat, j: nat, x: Name) returns (u: nat)
    requires i <= j < |parts| && x in Taken(g, parts[j])
    ensures i <= u <= j && x in Taken(g, parts[u]) && forall k :: i <= k < u ==> x !in Taken(g, parts[k])
    decreases j - i
  {
    if x in Taken(g, parts[i]) { u := i; } else { u := FirstUse(g, parts, i + 1, j, x); }
  }

  lemma FreedTooSoonIsUnsafe(g: Graph, parts: seq<Partition>, inputs: set<Name>, i: nat, x: Name)
    requires WellFormed(g, parts, inputs) && i < |parts| && FreedTooSoon(g, parts, i, x)
    ensures !Safe(g, parts, inputs)
  {
    TakenIsReal(g, parts);
    assert x in Taken(g, parts[i]) && x !in g.realNames && IsBuffer(g, x);
    if UsedFrom(g, parts, i + 1, x) {
      var j :| i + 1 <= j < |parts| && UsedAt(g, parts, i + 1, j, x);
      var u := FirstUse(g, parts, i + 1, j, x);
      assert forall k :: i <= k < u ==> !Defines(g, parts[k], x);
      FreedStaysDead(g, parts, inputs, i, u, x);
      assert !InputsLive(g, parts, inputs, u);
    } else {
      forall k | i < k < |parts| ensures x !in Taken(g, parts[k]) {
        if x in Taken(g, parts[k]) { assert UsedAt(g, parts, i + 1, k, x); }
      }
      FreedStaysDead(g, parts, inputs, i, |parts|, x);
    }
  }

  /** Running the partitions forward with the computed signatures is safe exactly when no
      partition frees a buffer that is still wanted. */
  lemma SafeIffNoUseAfterFree(g: Graph, parts: seq<Partition>, inputs: set<Name>)
    requires WellFormed(g, parts, inputs)
    ensures Safe(g, parts, inputs) <==> !UseAfterFree(g, parts)
  {
    TakenIsReal(g, parts);
    if UseAfterFree(g, parts) {
      var i, x :| 0 <= i < |parts| && FreedTooSoon(g, parts, i, x);
      FreedTooSoonIsUnsafe(g, parts, inputs, i, x);
    } else {
      forall i | 0 <= i < |parts| ensures InputsLive(g, parts, inputs, i) {
        forall x | x in Taken(g, parts[i]) && x in g.nodes ensures x in Live(g, parts, inputs, i) {
          assert UsedAt(g, parts, i, i, x);
          NeededIsLive(g, parts, inputs, i, x);
        }
      }
      forall o | o in g.outputs && IsBuffer(g, RealName(g, o))
        ensures RealName(g, o) in Live(g, parts, inputs, |parts|)
      {
        NeededIsLive(g, parts, inputs, |parts|, RealName(g, o));
      }
    }
  }

  // ---------------------------------------------------------------- signatures in the nodes' own fields

  /** Some node of the partition reads or writes the name. */
  ghost predicate Uses(p: Partition, n: Name) {
    exists k :: 0 <= k < |p| && (n in p[k].read || n in p[k].written)
  }

  /** The name is an output of some node of the partition. */
  ghost predicate Outputs(p: Partition, n: Name) {
    exists k :: 0 <= k < |p| && n in p[k].outputs
  }

  /** Some node of the partition uses the name for the last time. */
  ghost predicate LastUses(p: Partition, n: Name) {
    exists k :: 0 <= k < |p| && n in p[k].lastUsage
  }

  /** x is the real name of something that has a layout and that the partition uses and does not output. */
  ghost predicate UsesFromOutside(g: Graph, p: Partition, x: Name) {
    exists n :: Uses(p, n) && IsOutside(g, p, n, x)
  }

  ghost predicate IsOutside(g: Graph, p: Partition, n: Name, x: Name) {
    && !Outputs(p, n) && !NoneLayout(g, n)
    && x == if n in g.realNames then g.realNames[n] else n
  }

  /** x is taken in: used from outside, or a node to be freed that comes from outside. */
  ghost predicate TakesIn(g: Graph, p: Partition, x: Name) {
    UsesFromOutside(g, p, x) || (LastUses(p, x) && !Outputs(p, x) && x in g.nodes)
  }

  /** Of a signature: its inputs, which of them it frees, its constants and its flag. */
  ghost predicate TakesWhatIsUsed(g: Graph, p: Partition, skip: bool, s: Signature) {
    && (forall x :: x in s.inputs <==> x in g.nodes && TakesIn(g, p, x))
    && s.deallocation.Keys == s.inputs
    && (forall x :: x in s.inputs ==> (s.deallocation[x] <==> LastUses(p, x)))
    && (forall x :: x in s.constants <==> x in g.constants && TakesIn(g, p, x))
    && s.skipCudagraph == skip
  }

  lemma {:induction false} NamesOf(p: Partition, n: Name)
    ensures n in Produced(p) <==> Outputs(p, n)
    ensures n in Accessed(p) <==> Uses(p, n)
    ensures n in Freed(p) <==> LastUses(p, n)
  {
    if p != [] {
      var init, last := p[..|p| - 1], |p| - 1;
      NamesOf(init, n);
      if Outputs(init, n) { var k :| 0 <= k < last && n in init[k].outputs; assert n in p[k].outputs; }
      if Uses(init, n) {
        var k :| 0 <= k < last && (n in init[k].read || n in init[k].written);
        assert n in p[k].read || n in p[k].written;
      }
      if LastUses(init, n) { var k :| 0 <= k < last && n in init[k].lastUsage; assert n in p[k].lastUsage; }
      if k :| 0 <= k < last && n in p[k].outputs { assert n in init[k].outputs; }
      if k :| 0 <= k < last && (n in p[k].read || n in p[k].written) {
        assert n in init[k].read || n in init[k].written;
      }
      if k :| 0 <= k < last && n in p[k].lastUsage { assert n in init[k].lastUsage; }
    }
  }

  lemma NamesAreThose(p: Partition)
    ensures forall n :: n in Produced(p) <==> Outputs(p, n)
    ensures forall n :: n in Accessed(p) <==> Uses(p, n)
    ensures forall n :: n in Freed(p) <==> LastUses(p, n)
  {
    forall n
      ensures n in Produced(p) <==> Outputs(p, n)
      ensures n in Accessed(p) <==> Uses(p, n)
      ensures n in Freed(p) <==> LastUses(p, n)
    {
      NamesOf(p, n);
    }
  }

  lemma TakenIff(g: Graph, p: Partition, x: Name)
    ensures x in Taken(g, p) <==> TakesIn(g, p, x)
  {
    NamesOf(p, x);
    if n :| n in Accessed(p) && !NoneLayout(g, n) && n !in Produced(p) && RealName(g, n) == x {
      NamesOf(p, n);
      assert Uses(p, n) && IsOutside(g, p, n, x);
    }
    if UsesFromOutside(g, p, x) {
      var n :| Uses(p, n) && IsOutside(g, p, n, x);
      NamesOf(p, n);
    }
  }

  lemma SignatureTakes(g: Graph, p: Partition, skip: bool, unmet: set<Name>)
    ensures TakesWhatIsUsed(g, p, skip, SignatureOf(g, p, skip, unmet))
  {
    forall x ensures x in Taken(g, p) <==> TakesIn(g, p, x) { TakenIff(g, p, x); }
    forall x ensures x in Freed(p) <==> LastUses(p, x) { NamesOf(p, x); }
    assert InputNodes(g, p) == (map n | n in Taken(g, p) && n in g.nodes :: n in Freed(p)).Keys;
  }

  /** The partition gives the buffer a value, under its own name or as a graph output that mutates it. */
  ghost predicate GivesValue(g: Graph, p: Partition, x: Name) {
    Outputs(p, x) || MutatesOutput(g, p, x)
  }

  ghost predicate MutatesOutput(g: Graph, p: Partition, x: Name) {
    exists o :: o in g.outputs && o in g.realNames && g.realNames[o] == x && Outputs(p, o)
  }

  ghost predicate NoValue(g: Graph, parts: seq<Partition>, from: nat, to: nat, x: Name)
    requires to <= |parts|
  {
    forall k :: from <= k < to ==> !GivesValue(g, parts[k], x)
  }

  /** Some later partition takes the name in, or it is a graph output, and no partition before that gives it
      a value. */
  ghost predicate IsWanted(g: Graph, parts: seq<Partition>, i: nat, x: Name)
    requires i <= |parts|
  {
    || (exists j :: i <= j < |parts| && TakesIn(g, parts[j], x) && NoValue(g, parts, i, j, x))
    || (x in g.outputs && NoValue(g, parts, i, |parts|, x))
  }

  /** Of a signature: its outputs.  They are the buffers taken in and kept, those given a value that is
      wanted, and those that graph outputs mutate. */
  ghost predicate ReturnsWhatIsWanted(g: Graph, parts: seq<Partition>, i: nat, s: Signature)
    requires i < |parts|
  {
    forall x :: x in s.outputs <==> x !in g.realNames && !NoneLayout(g, x) && IsReturned(g, parts, i, x)
  }

  ghost predicate IsReturned(g: Graph, parts: seq<Partition>, i: nat, x: Name)
    requires i < |parts|
  {
    || (x in g.nodes && TakesIn(g, parts[i], x) && !LastUses(parts[i], x))
    || (Outputs(parts[i], x) && IsWanted(g, parts, i + 1, x))
    || MutatesOutput(g, parts[i], x)
  }

  /** Nodes are freed by their real names. */
  ghost predicate FreesRealNames(g: Graph, parts: seq<Partition>) {
    forall i, x :: 0 <= i < |parts| && LastUses(parts[i], x) && x in g.nodes ==> x !in g.realNames
  }

  lemma DefinesIff(g: Graph, p: Partition, x: Name)
    requires x !in g.realNames
    ensures Defines(g, p, x) <==> GivesValue(g, p, x)
  {
    NamesOf(p, x);
    if o :| o in Produced(p) && o in g.outputs && RealName(g, o) == x { NamesOf(p, o); }
    if o :| o in g.outputs && o in g.realNames && g.realNames[o] == x && Outputs(p, o) {
      NamesOf(p, o);
      assert o in Produced(p) && o in g.outputs && RealName(g, o) == x;
    }
  }

  lemma LiveNameIff(g: Graph, parts: seq<Partition>, i: nat, x: Name)
    requires x !in g.realNames && i <= |parts|
    ensures LiveName(g, parts, i, x) <==> IsWanted(g, parts, i, x)
  {
    forall k | 0 <= k < |parts|
      ensures Defines(g, parts[k], x) <==> GivesValue(g, parts[k], x)
      ensures x in Taken(g, parts[k]) <==> TakesIn(g, parts[k], x)
    {
      DefinesIff(g, parts[k], x);
      TakenIff(g, parts[k], x);
    }
    forall j | i <= j <= |parts| ensures NotDefined(g, parts, i, j, x) <==> NoValue(g, parts, i, j, x) {}
    if UsedFrom(g, parts, i, x) {
      var j :| i <= j < |parts| && UsedAt(g, parts, i, j, x);
      assert TakesIn(g, parts[j], x) && NoValue(g, parts, i, j, x);
    }
    if j :| i <= j < |parts| && TakesIn(g, parts[j], x) && NoValue(g, parts, i, j, x) {
      assert UsedAt(g, parts, i, j, x);
    }
  }

  lemma RealUses(g: Graph, parts: seq<Partition>)
    requires FinalNames(g) && FreesRealNames(g, parts)
    ensures TakesRealNames(g, parts)
  {
    forall i, x | 0 <= i < |parts| && x in Taken(g, parts[i]) ensures x !in g.realNames {
      TakenIff(g, parts[i], x);
      if UsesFromOutside(g, parts[i], x) {
        var n :| Uses(parts[i], n) && IsOutside(g, parts[i], n, x);
      }
    }
  }

  lemma ReturnedIff(g: Graph, parts: seq<Partition>, i: nat, x: Name)
    requires FinalNames(g) && FreesRealNames(g, parts) && i < |parts| && x !in g.realNames
    ensures x in Returned(g, parts[i], Unmet(g, parts, i + 1)) <==> IsReturned(g, parts, i, x)
  {
    var p := parts[i];
    RealUses(g, parts);
    ReturnedIffDefined(g, parts, i, x);
    UnmetIsLiveness(g, parts, i + 1, x);
    LiveNameIff(g, parts, i + 1, x);
    TakenIff(g, p, x);
    NamesOf(p, x);
    if o :| o in Produced(p) && o in g.outputs && o in g.realNames && RealName(g, o) == x { NamesOf(p, o); }
    if o :| o in g.outputs && o in g.realNames && g.realNames[o] == x && Outputs(p, o) { NamesOf(p, o); }
  }

  lemma ReturnedIsReal(g: Graph, p: Partition, unmet: set<Name>, x: Name)
    requires FinalNames(g) && x in Returned(g, p, unmet)
    ensures x !in g.realNames
  {
  }

  lemma SignatureReturns(g: Graph, parts: seq<Partition>, i: nat, skip: bool)
    requires FinalNames(g) && FreesRealNames(g, parts) && i < |parts|
    ensures ReturnsWhatIsWanted(g, parts, i, SignatureOf(g, parts[i], skip, Unmet(g, parts, i + 1)))
  {
    var unmet := Unmet(g, parts, i + 1);
    forall x ensures x in OutputNodes(g, parts[i], unmet) <==>
      x !in g.realNames && !NoneLayout(g, x) && IsReturned(g, parts, i, x)
    {
      if x in g.realNames {
        if x in Returned(g, parts[i], unmet) { ReturnedIsReal(g, parts[i], unmet, x); }
      } else {
        ReturnedIff(g, parts, i, x);
      }
    }
  }

  /** Something to be returned has a layout and is no node. */
  ghost predicate ReturnsNoNode(g: Graph, parts: seq<Partition>, i: nat)
    requires i < |parts|
  {
    exists x :: x !in g.realNames && IsReturned(g, parts, i, x) && x !in g.nodes && !NoneLayout(g, x)
  }

  lemma DefinedIff(g: Graph, parts: seq<Partition>, i: nat)
    requires FinalNames(g) && FreesRealNames(g, parts) && i < |parts|
    ensures Defined(g, parts, i) <==> !ReturnsNoNode(g, parts, i)
  {
    SignatureReturns(g, parts, i, false);
    var outputs := OutputNodes(g, parts[i], Unmet(g, parts, i + 1));
    if x :| x in outputs && x !in g.nodes {
      assert x !in g.realNames && IsReturned(g, parts, i, x) && x !in g.nodes && !NoneLayout(g, x);
    }
  }

  lemma AllDefinedIff(g: Graph, parts: seq<Partition>)
    requires FinalNames(g) && FreesRealNames(g, parts)
    ensures (exists i :: 0 <= i < |parts| && !Defined(g, parts, i))
            <==> exists i :: 0 <= i < |parts| && ReturnsNoNode(g, parts, i)
  {
    forall i | 0 <= i < |parts| ensures Defined(g, parts, i) <==> !ReturnsNoNode(g, parts, i) {
      DefinedIff(g, parts, i);
    }
  }

  // ---------------------------------------------------------------- running signatures

  /** The buffers live before partition i when the partitions run in order with these signatures. */
  ghost function LiveBefore(signatures: seq<Signature>, inputs: set<Name>, i: nat): set<Name>
    requires i <= |signatures|
  {
    if i == 0 then inputs
    else
      var s, live := signatures[i - 1], LiveBefore(signatures, inputs, i - 1);
      (set n | n in live && !(n in s.deallocation && s.deallocation[n])) + s.outputs
  }

  /** Every partition finds its inputs, and the graph outputs with storage are there at the end. */
  ghost predicate RunsSafely(g: Graph, signatures: seq<Signature>, inputs: set<Name>) {
    && (forall i :: 0 <= i < |signatures| ==> FindsInputs(signatures, inputs, i))
    && (forall o :: o in g.outputs && IsBuffer(g, RealName(g, o)) ==>
          RealName(g, o) in LiveBefore(signatures, inputs, |signatures|))
  }

  ghost predicate FindsInputs(signatures: seq<Signature>, inputs: set<Name>, i: nat)
    requires i < |signatures|
  {
    signatures[i].inputs <= LiveBefore(signatures, inputs, i)
  }

  lemma {:induction false} LiveBeforeIsLive(g: Graph, parts: seq<Partition>, skips: seq<bool>,
                                            signatures: seq<Signature>, inputs: set<Name>, i: nat)
    requires |signatures| == |parts| == |skips| && i <= |parts|
    requires forall k :: 0 <= k < |parts| ==> Signed(g, parts, skips, k, signatures[k])
    ensures LiveBefore(signatures, inputs, i) == Live(g, parts, inputs, i)
  {
    if i > 0 {
      LiveBeforeIsLive(g, parts, skips, signatures, inputs, i - 1);
      assert Signed(g, parts, skips, i - 1, signatures[i - 1]);
      LiveStep(g, parts, inputs, i - 1, "");
    }
  }

  /** Running with the signatures computed is safe exactly when no partition frees a buffer still wanted. */
  lemma RunsSafelyIff(g: Graph, parts: seq<Partition>, skips: seq<bool>, signatures: seq<Signature>, inputs: set<Name>)
    requires |signatures| == |parts| == |skips| && WellFormed(g, parts, inputs)
    requires forall k :: 0 <= k < |parts| ==> Signed(g, parts, skips, k, signatures[k])
    ensures RunsSafely(g, signatures, inputs) <==> !UseAfterFree(g, parts)
  {
    SafeIffNoUseAfterFree(g, parts, inputs);
    forall i | 0 <= i < |parts| ensures FindsInputs(signatures, inputs, i) <==> InputsLive(g, parts, inputs, i) {
      LiveBeforeIsLive(g, parts, skips, signatures, inputs, i);
      assert Signed(g, parts, skips, i, signatures[i]);
    }
    LiveBeforeIsLive(g, parts, skips, signatures, inputs, |parts|);
  }

  /** So in a safe run everything that a partition uses from outside is live before it. */
  lemma UsedIsLive(g: Graph, p: Partition, skip: bool, signatures: seq<Signature>, inputs: set<Name>, i: nat, x: Name)
    requires RunsSafely(g, signatures, inputs) && i < |signatures| && TakesWhatIsUsed(g, p, skip, signatures[i])
    requires UsesFromOutside(g, p, x) && x in g.nodes
    ensures x in LiveBefore(signatures, inputs, i)
  {
    assert FindsInputs(signatures, inputs, i);
  }

  // ---------------------------------------------------------------- the code

  datatype Result = Signatures(signatures: seq<Signature>) | KeyError

  method CollectNames(p: Partition) returns (produced: set<Name>, accessed: set<Name>, freed: set<Name>)
    ensures produced == Produced(p) && accessed == Accessed(p) && freed == Freed(p)
    ensures forall n :: n in produced <==> Outputs(p, n)
    ensures forall n :: n in accessed <==> Uses(p, n)
    ensures forall n :: n in freed <==> LastUses(p, n)
  {
    produced, accessed, freed := {}, {}, {};
    for k := 0 to |p|
      invariant produced == Produced(p[..k]) && accessed == Accessed(p[..k]) && freed == Freed(p[..k])
    {
      assert p[..k + 1][..k] == p[..k];
      produced := produced + p[k].outputs;
      accessed := accessed + p[k].read + p[k].written;
      freed := freed + p[k].lastUsage;
    }
    assert p[..|p|] == p;
    NamesAreThose(p);
  }

  /** The loop body: one partition's signature and the names unmet before it. */
  method ComputeSignature(g: Graph, partition: Partition, skipCudagraph: bool, unmetOutputNames: set<Name>)
    returns (signature: Signature, unmet: set<Name>)
    ensures signature == SignatureOf(g, partition, skipCudagraph, unmetOutputNames)
    ensures signature.outputs == OutputNodes(g, partition, unmetOutputNames)
    ensures unmet == UnmetBefore(g, partition, unmetOutputNames)
  {
    var outputNames, accessed, bufferNamesToFree := CollectNames(partition);
    var returnedOutputNames := outputNames * unmetOutputNames;
    var partitionInputNames := (set x | x in accessed && !NoneLayout(g, x)) - outputNames;
    partitionInputNames := set name | name in partitionInputNames :: RealName(g, name);
    var extraInputNames := set name | name in bufferNamesToFree - outputNames && name in g.nodes;
    partitionInputNames := partitionInputNames + extraInputNames;
    assert partitionInputNames == Taken(g, partition);
    var inputNodes := set name | name in partitionInputNames && name in g.nodes;
    var inputDeallocation := map name | name in partitionInputNames && name in g.nodes :: name in bufferNamesToFree;
    var extraOutputNames := set name | name in partitionInputNames && name in g.nodes && name !in bufferNamesToFree;
    returnedOutputNames := returnedOutputNames + extraOutputNames;
    returnedOutputNames := set name | name in returnedOutputNames :: RealName(g, name);
    assert extraOutputNames == PassedOn(g, partition);
    var outputNodes := set name | name in returnedOutputNames && !NoneLayout(g, name);
    signature :=
      Signature(inputNodes, outputNodes, inputDeallocation, skipCudagraph, partitionInputNames * g.constants);
    unmet := partitionInputNames + (unmetOutputNames - returnedOutputNames);
  }

  ghost predicate Signed(g: Graph, parts: seq<Partition>, skips: seq<bool>, k: nat, signature: Signature)
    requires k < |parts| == |skips|
  {
    signature == SignatureOf(g, parts[k], skips[k], Unmet(g, parts, k + 1))
  }

  function Reversed<T>(s: seq<T>): (r: seq<T>)
    ensures |r| == |s| && forall k :: 0 <= k < |s| ==> r[k] == s[|s| - 1 - k]
  {
    if s == [] then [] else [s[|s| - 1]] + Reversed(s[..|s| - 1])
  }

  ghost predicate IsUnmet(g: Graph, parts: seq<Partition>, i: nat, names: set<Name>)
    requires i <= |parts|
  {
    names == Unmet(g, parts, i)
  }

  /** The loop body at partition i, with the look-up of its output nodes. */
  method SignPartition(g: Graph, ghost parts: seq<Partition>, ghost skips: seq<bool>, ghost i: nat,
                       partition: Partition, skipCudagraph: bool, unmetOutputNames: set<Name>)
    returns (ok: bool, signature: Signature, unmet: set<Name>)
    requires i < |parts| == |skips| && partition == parts[i] && skipCudagraph == skips[i]
    requires IsUnmet(g, parts, i + 1, unmetOutputNames)
    ensures ok <==> Defined(g, parts, i)
    ensures Signed(g, parts, skips, i, signature)
    ensures IsUnmet(g, parts, i, unmet)
  {
    signature, unmet := ComputeSignature(g, partition, skipCudagraph, unmetOutputNames);
    ok := signature.outputs <= g.nodes;
  }

  /** The signatures of partitions i and later, last first. */
  ghost predicate SignedFrom(g: Graph, parts: seq<Partition>, skips: seq<bool>, i: nat, signatures: seq<Signature>)
    requires i <= |parts| == |skips|
  {
    && |signatures| == |parts| - i
    && forall j, k :: 0 <= j < |signatures| && j + k == |parts| - 1 ==> Signed(g, parts, skips, k, signatures[j])
  }

  lemma SignedOneMore(g: Graph, parts: seq<Partition>, skips: seq<bool>, i: nat, signatures: seq<Signature>,
                      signature: Signature)
    requires i < |parts| == |skips| && SignedFrom(g, parts, skips, i + 1, signatures)
    requires Signed(g, parts, skips, i, signature)
    ensures SignedFrom(g, parts, skips, i, signatures + [signature])
  {
  }

  /** The backward loop over partitions paired with their flags. */
  method SignBackwards(g: Graph, parts: seq<Partition>, skips: seq<bool>) returns (ok: bool, signatures: seq<Signature>)
    requires |parts| == |skips|
    ensures ok <==> forall i :: 0 <= i < |parts| ==> Defined(g, parts, i)
    ensures ok ==> SignedFrom(g, parts, skips, 0, signatures)
  {
    signatures := [];
    var unmetOutputNames := g.outputs;
    for i := |parts| downto 0
      invariant IsUnmet(g, parts, i, unmetOutputNames)
      invariant forall k :: i <= k < |parts| ==> Defined(g, parts, k)
      invariant SignedFrom(g, parts, skips, i, signatures)
    {
      var found, signature, unmet := SignPartition(g, parts, skips, i, parts[i], skips[i], unmetOutputNames);
      if !found {
        return false, signatures;
      }
      SignedOneMore(g, parts, skips, i, signatures, signature);
      signatures := signatures + [signature];
      unmetOutputNames := unmet;
    }
    ok := true;
  }

  lemma SignedLaws(g: Graph, parts: seq<Partition>, skips: seq<bool>, signatures: seq<Signature>)
    requires |signatures| == |parts| == |skips|
    requires forall k :: 0 <= k < |parts| ==> Signed(g, parts, skips, k, signatures[k])
    ensures forall i :: 0 <= i < |parts| ==> TakesWhatIsUsed(g, parts[i], skips[i], signatures[i])
    ensures FinalNames(g) && FreesRealNames(g, parts) ==>
      forall i :: 0 <= i < |parts| ==> ReturnsWhatIsWanted(g, parts, i, signatures[i])
    ensures forall inputs :: WellFormed(g, parts, inputs) ==>
      (RunsSafely(g, signatures, inputs) <==> !UseAfterFree(g, parts))
  {
    forall i | 0 <= i < |parts|
      ensures TakesWhatIsUsed(g, parts[i], skips[i], signatures[i])
      ensures FinalNames(g) && FreesRealNames(g, parts) ==> ReturnsWhatIsWanted(g, parts, i, signatures[i])
    {
      assert Signed(g, parts, skips, i, signatures[i]);
      SignatureTakes(g, parts[i], skips[i], Unmet(g, parts, i + 1));
      if FinalNames(g) && FreesRealNames(g, parts) { SignatureReturns(g, parts, i, skips[i]); }
    }
    forall inputs | WellFormed(g, parts, inputs)
      ensures RunsSafely(g, signatures, inputs) <==> !UseAfterFree(g, parts)
    {
      RunsSafelyIff(g, parts, skips, signatures, inputs);
    }
  }

  /** Partitions and flags are zipped in reverse, which pairs them from the end. */
  method GetGraphPartitionSignature(g: Graph, partitions: seq<Partition>, skipCudagraphs: seq<bool>) returns (r: Result)
    ensures
      var n := if |partitions| <= |skipCudagraphs| then |partitions| else |skipCudagraphs|;
      var parts, skips := Final(partitions, n), Final(skipCudagraphs, n);
      && (r.KeyError? <==> exists i :: 0 <= i < n && !Defined(g, parts, i))
      && (r.Signatures? ==>
            |r.signatures| == n && forall i :: 0 <= i < n ==>
              && Signed(g, parts, skips, i, r.signatures[i])
              && TakesWhatIsUsed(g, parts[i], skips[i], r.signatures[i])
              && (FinalNames(g) && FreesRealNames(g, parts) ==> ReturnsWhatIsWanted(g, parts, i, r.signatures[i])))
      && (FinalNames(g) && FreesRealNames(g, parts) ==>
            (r.KeyError? <==> exists i :: 0 <= i < n && ReturnsNoNode(g, parts, i)))
      && (r.Signatures? ==> forall inputs :: WellFormed(g, parts, inputs) ==>
            (RunsSafely(g, r.signatures, inputs) <==> !UseAfterFree(g, parts)))
  {
    var n := if |partitions| <= |skipCudagraphs| then |partitions| else |skipCudagraphs|;
    var parts, skips := Final(partitions, n), Final(skipCudagraphs, n);
    var ok, signatures := SignBackwards(g, parts, skips);
    if FinalNames(g) && FreesRealNames(g, parts) { AllDefinedIff(g, parts); }
    if !ok {
      return KeyError;
    }
    r := Signatures(Reversed(signatures));
    forall i | 0 <= i < n ensures Signed(g, parts, skips, i, r.signatures[i]) {
      assert Signed(g, parts, skips, i, signatures[n - 1 - i]);
    }
    SignedLaws(g, parts, skips, r.signatures);
  }
}
