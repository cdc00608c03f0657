/** The forward context and the per-rank local sizes: values that a context manager sets for the
    duration of a body and must put back however the body ends. */
module ForwardContext {
  import opened Common
  import opened DpChunks

  /** Data-parallel metadata: the token counts are fixed, the local sizes come and go. */
  class DPMetadata {
    const tokens: seq<nat>
    var localSizes: Option<seq<int>>

    constructor (tokens: seq<nat>)
      ensures this.tokens == tokens && localSizes == None
    {
      this.tokens := tokens;
      localSizes := None;
    }
  }

  /** Chunk is chunked_sizes, Whole is sp_local_sizes. */
  datatype Rule = Chunk(limit: int, index: int) | Whole

  /** A body of code, as far as the two kinds of context can tell: any step may raise, and
      contexts nest in any way. */
  datatype Body =
    | Skip
    | Raise
    | ReadContext
    | ReadSizes(meta: DPMetadata)
    | Then(first: Body, second: Body)
    | Catch(attempt: Body, handler: Body)
    | Override(context: Option<nat>, inside: Body)
    | Sizes(meta: DPMetadata, sp: int, rule: Rule, inside: Body)

  function Metas(body: Body): set<DPMetadata> {
    match body
    case Skip => {}
    case Raise => {}
    case ReadContext => {}
    case ReadSizes(meta) => {meta}
    case Then(first, second) => Metas(first) + Metas(second)
    case Catch(attempt, handler) => Metas(attempt) + Metas(handler)
    case Override(_, inside) => Metas(inside)
    case Sizes(meta, _, _, inside) => {meta} + Metas(inside)
  }

  /** What happens along a run that someone else can notice. */
  datatype Event = SawContext(id: nat) | SawSizes(meta: DPMetadata, sizes: seq<int>) | Opened(meta: DPMetadata)

  function LocalSizes(tokens: seq<nat>, sp: nat, rule: Rule): (sizes: seq<int>)
    requires sp > 0
    ensures rule.Chunk? ==> AreChunkSizes(tokens, sp, rule.limit, rule.index, sizes)
    ensures rule.Whole? ==> sizes == Shares(tokens, sp)
  {
    var shares := Shares(tokens, sp);
    match rule
    case Chunk(limit, index) =>
      seq(|shares|, i requires 0 <= i < |shares| => ChunkSize(shares[i], limit, index))
    case Whole => seq(|shares|, i requires 0 <= i < |shares| => shares[i] as int)
  }

  // ---------------------------------------------------------------- the meaning of a body

  type Store = map<DPMetadata, Option<seq<int>>>

  datatype Outcome = Outcome(raised: bool, store: Store, seen: seq<Event>)

  ghost predicate Covers(store: Store, body: Body) { Metas(body) <= store.Keys }

  /** What a body does when the context is not a global at all but an argument handed inwards:
      an override reaches exactly the code inside it. The local sizes do live in the metadata. */
  ghost function Meaning(body: Body, context: Option<nat>, store: Store): (r: Outcome)
    requires Covers(store, body)
    ensures r.store.Keys == store.Keys
  {
    match body
    case Skip => Outcome(false, store, [])
    case Raise => Outcome(true, store, [])
    case ReadContext =>
      if context == None then Outcome(true, store, []) else Outcome(false, store, [SawContext(context.value)])
    case ReadSizes(meta) =>
      if store[meta] == None then Outcome(true, store, [])
      else Outcome(false, store, [SawSizes(meta, store[meta].value)])
    case Then(first, second) =>
      var a := Meaning(first, context, store);
      if a.raised then a
      else var b := Meaning(second, context, a.store); Outcome(b.raised, b.store, a.seen + b.seen)
    case Catch(attempt, handler) =>
      var a := Meaning(attempt, context, store);
      if !a.raised then a
      else var b := Meaning(handler, context, a.store); Outcome(b.raised, b.store, a.seen + b.seen)
    case Override(inner, inside) => Meaning(inside, inner, store)
    case Sizes(meta, sp, rule, inside) =>
      if sp <= 0 then Outcome(true, store, [])
      else
        var a := Meaning(inside, context, store[meta := Some(LocalSizes(meta.tokens, sp, rule))]);
        Outcome(a.raised, a.store[meta := None], [Opened(meta)] + a.seen)
  }

  /** The local sizes of every metadata that had a sizes context opened are unset afterwards,
      and nothing happened to any other. */
  lemma {:induction false} SizesAreUnset(body: Body, context: Option<nat>, store: Store, m: DPMetadata)
    requires Covers(store, body) && m in store
    ensures
      var r := Meaning(body, context, store);
      r.store[m] == if Opened(m) in r.seen then None else store[m]
  {
    match body
    case Skip | Raise | ReadContext | ReadSizes(_) =>
    case Then(first, second) =>
      SizesAreUnset(first, context, store, m);
      var a := Meaning(first, context, store);
      if !a.raised { SizesAreUnset(second, context, a.store, m); }
    case Catch(attempt, handler) =>
      SizesAreUnset(attempt, context, store, m);
      var a := Meaning(attempt, context, store);
      if a.raised { SizesAreUnset(handler, context, a.store, m); }
    case Override(inner, inside) =>
      SizesAreUnset(inside, inner, store, m);
    case Sizes(meta, sp, rule, inside) =>
      if sp > 0 {
        SizesAreUnset(inside, context, store[meta := Some(LocalSizes(meta.tokens, sp, rule))], m);
      }
  }

  /** Inside a sizes context the sizes can be read after any code that does not raise, exactly
      when that code opened no sizes context on the same metadata: closing an inner one leaves
      the outer one without sizes, and the read fails. What is read is the context's own sizes. */
  lemma ReadableIff(m: DPMetadata, sp: int, rule: Rule, code: Body, context: Option<nat>, store: Store)
    requires m in store && sp > 0
    requires Covers(store, code) && Covers(store, Sizes(m, sp, rule, Then(code, ReadSizes(m))))
    requires !Meaning(code, context, store[m := Some(LocalSizes(m.tokens, sp, rule))]).raised
    ensures
      var r := Meaning(Sizes(m, sp, rule, Then(code, ReadSizes(m))), context, store);
      var before := Meaning(code, context, store[m := Some(LocalSizes(m.tokens, sp, rule))]).seen;
      && (r.raised <==> Opened(m) in before)
      && (!r.raised ==> r.seen == [Opened(m)] + (before + [SawSizes(m, LocalSizes(m.tokens, sp, rule))]))
  {
    var entered := store[m := Some(LocalSizes(m.tokens, sp, rule))];
    SizesAreUnset(code, context, entered, m);
    var a := Meaning(code, context, entered);
    var b := Meaning(ReadSizes(m), context, a.store);
    assert Metas(Then(code, ReadSizes(m))) == Metas(code) + {m};
    assert Meaning(Then(code, ReadSizes(m)), context, entered) == Outcome(b.raised, b.store, a.seen + b.seen);
  }

  /** So after a sizes context inside another on the same metadata the read always raises. */
  lemma NestedSizesUnreadable(m: DPMetadata, sp: int, context: Option<nat>, store: Store)
    requires m in store && sp > 0
    ensures
      var body := Sizes(m, sp, Whole, Then(Sizes(m, sp, Whole, Skip), ReadSizes(m)));
      && Covers(store, body)
      && Meaning(body, context, store).raised
      && Meaning(body, context, store).seen == [Opened(m), Opened(m)]
  {
    var inner := Sizes(m, sp, Whole, Skip);
    assert Metas(inner) == {m} && Metas(Then(inner, ReadSizes(m))) == {m};
    var entered := store[m := Some(LocalSizes(m.tokens, sp, Whole))];
    assert Meaning(Skip, context, entered) == Outcome(false, entered, []);
    var a := Meaning(inner, context, entered);
    assert entered[m := Some(LocalSizes(m.tokens, sp, Whole))] == entered;
    assert !a.raised && a.store == entered[m := None] && a.seen == [Opened(m)];
    assert Meaning(ReadSizes(m), context, a.store) == Outcome(true, a.store, []);
    assert Meaning(Then(inner, ReadSizes(m)), context, entered) == Outcome(true, a.store, [Opened(m)]);
  }

  /** The contexts that some override in the body puts in place. */
  ghost function Overrides(body: Body): set<Option<nat>> {
    match body
    case Then(first, second) => Overrides(first) + Overrides(second)
    case Catch(attempt, handler) => Overrides(attempt) + Overrides(handler)
    case Override(inner, inside) => {inner} + Overrides(inside)
    case Sizes(_, _, _, inside) => Overrides(inside)
    case _ => {}
  }

  /** A read sees the context around the body, or one that an override in it puts in place.  Inside an
      override without others it sees that override's context, and after it the one before again. */
  lemma {:induction false} SeesInnermost(body: Body, context: Option<nat>, store: Store, id: nat)
    requires Covers(store, body) && SawContext(id) in Meaning(body, context, store).seen
    ensures Some(id) == context || Some(id) in Overrides(body)
  {
    match body
    case Skip | Raise | ReadContext | ReadSizes(_) =>
    case Then(first, second) =>
      var a := Meaning(first, context, store);
      if SawContext(id) in a.seen { SeesInnermost(first, context, store, id); }
      else { SeesInnermost(second, context, a.store, id); }
    case Catch(attempt, handler) =>
      var a := Meaning(attempt, context, store);
      if SawContext(id) in a.seen { SeesInnermost(attempt, context, store, id); }
      else { SeesInnermost(handler, context, a.store, id); }
    case Override(inner, inside) =>
      SeesInnermost(inside, inner, store, id);
    case Sizes(meta, sp, rule, inside) =>
      SeesInnermost(inside, context, store[meta := Some(LocalSizes(meta.tokens, sp, rule))], id);
  }

  /** What follows code that raises is skipped.  A handler around it goes on from the state the code left, and
      is skipped if the code does not raise. */
  lemma RaisingSkips(code: Body, after: Body, handler: Body, context: Option<nat>, store: Store)
    requires Covers(store, code) && Covers(store, after) && Covers(store, handler)
    ensures Covers(store, Catch(code, handler)) && Covers(store, Then(code, after))
    ensures
      var a := Meaning(code, context, store);
      if a.raised then
        && Meaning(Then(code, after), context, store) == a
        && var h := Meaning(handler, context, a.store);
           Meaning(Catch(code, handler), context, store) == Outcome(h.raised, h.store, a.seen + h.seen)
      else
        Meaning(Catch(code, handler), context, store) == a
  {
  }

  /** An override hides the context around it from everything inside, and only from that. */
  lemma OverrideIsScoped(inner: Option<nat>, inside: Body, x: Option<nat>, y: Option<nat>, store: Store)
    requires Covers(store, inside)
    ensures Covers(store, Override(inner, inside))
    ensures Meaning(Override(inner, inside), x, store) == Meaning(Override(inner, inside), y, store)
    ensures Meaning(Override(inner, ReadContext), x, store) ==
      if inner == None then Outcome(true, store, []) else Outcome(false, store, [SawContext(inner.value)])
    ensures
      var after := Then(Override(inner, inside), ReadContext);
      var r := Meaning(Override(inner, inside), x, store);
      && Covers(store, after)
      && (!r.raised && x.Some? ==> Meaning(after, x, store) == Outcome(false, r.store, r.seen + [SawContext(x.value)]))
  {
    var r := Meaning(Override(inner, inside), x, store);
    assert Metas(ReadContext) == {} && Metas(Override(inner, inside)) == Metas(inside);
    if !r.raised && x.Some? {
      assert Meaning(ReadContext, x, r.store) == Outcome(false, r.store, [SawContext(x.value)]);
    }
  }

  // ---------------------------------------------------------------- the code

  ghost function Snapshot(metas: set<DPMetadata>): (s: Store)
    reads metas
    ensures s.Keys == metas
  {
    map m | m in metas :: m.localSizes
  }

  /** The process: one global holds the current forward context. */
  class Process {
    var context: Option<nat>

    constructor ()
      ensures context == None
    {
      context := None;
    }

    /** Runs a body. The global is what it was on every way out, and the run is the one in
        which contexts are handed inwards. */
    method Run(body: Body, ghost metas: set<DPMetadata>) returns (raised: bool, seen: seq<Event>)
      requires Metas(body) <= metas
      modifies this, metas
      ensures context == old(context)
      ensures Outcome(raised, Snapshot(metas), seen) == old(Meaning(body, context, Snapshot(metas)))
      decreases body, 0
    {
      raised, seen := false, [];
      match body
      case Skip =>
      case Raise => raised := true;
      case ReadContext =>
        if context == None { raised := true; } else { seen := [SawContext(context.value)]; }
      case ReadSizes(meta) =>
        if meta.localSizes == None { raised := true; } else { seen := [SawSizes(meta, meta.localSizes.value)]; }
      case Then(first, second) =>
        raised, seen := Run(first, metas);
        if !raised {
          var rest;
          raised, rest := Run(second, metas);
          seen := seen + rest;
        }
      case Catch(attempt, handler) =>
        raised, seen := Run(attempt, metas);
        if raised {
          var rest;
          raised, rest := Run(handler, metas);
          seen := seen + rest;
        }
      case Override(inner, inside) =>
        var previous := context;
        context := inner;
        raised, seen := Run(inside, metas);
        context := previous;
      case Sizes(meta, sp, rule, inside) =>
        if sp <= 0 {
          raised := true;
        } else {
          raised, seen := RunSized(meta, sp, rule, inside, metas);
        }
    }

    method RunSized(meta: DPMetadata, sp: nat, rule: Rule, inside: Body, ghost metas: set<DPMetadata>)
      returns (raised: bool, seen: seq<Event>)
      requires sp > 0 && meta in metas && Metas(inside) <= metas
      modifies this, metas
      ensures context == old(context)
      ensures Outcome(raised, Snapshot(metas), seen) ==
        old(Meaning(Sizes(meta, sp, rule, inside), context, Snapshot(metas)))
      decreases inside, 1
    {
      ghost var before := Snapshot(metas);
      var sizes;
      match rule {
        case Chunk(limit, index) => sizes := ComputeChunkedLocalNumTokens(meta.tokens, sp, limit, index);
        case Whole => sizes := LocalSizes(meta.tokens, sp, rule);
      }
      assert sizes == LocalSizes(meta.tokens, sp, rule);
      meta.localSizes := Some(sizes);
      assert Snapshot(metas) == before[meta := Some(sizes)];
      raised, seen := Run(inside, metas);
      ghost var after := Snapshot(metas);
      meta.localSizes := None;
      assert Snapshot(metas) == after[meta := None];
      seen := [Opened(meta)] + seen;
    }
  }
}
