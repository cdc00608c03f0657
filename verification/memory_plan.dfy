/** Memory planning over nested subgraphs: trailing pointless lines are trimmed, then one
    pass plans every line with the state on top of a stack that follows the subgraphs. */
module MemoryPlan {

  /** A line of the wrapper: one that takes part in planning, a subgraph bracket, or other code. */
  datatype Line<P, O> = Planning(line: P) | Enter | Exit | Other(other: O)

  /** Plans one line against a planning state, giving the new line and the new state. */
  type Planner<!P, !S> = (P, S) -> (P, S)

  // ---------------------------------------------------------------- trimming

  predicate Dead<P, O>(line: Line<P, O>, nameOf: P -> string, outNames: set<string>) {
    line.Planning? && nameOf(line.line) !in outNames
  }

  function Trim<P, O>(lines: seq<Line<P, O>>, nameOf: P -> string, outNames: set<string>): seq<Line<P, O>> {
    if lines != [] && Dead(lines[|lines| - 1], nameOf, outNames)
    then Trim(lines[..|lines| - 1], nameOf, outNames)
    else lines
  }

  /** Trimming removes the longest run of dead planning lines at the end. */
  lemma {:induction false} TrimIsMaximal<P, O>(lines: seq<Line<P, O>>, nameOf: P -> string, outNames: set<string>)
    ensures Trim(lines, nameOf, outNames) <= lines
    ensures forall i :: |Trim(lines, nameOf, outNames)| <= i < |lines| ==>
      lines[i].Planning? && nameOf(lines[i].line) !in outNames
    ensures
      var kept := Trim(lines, nameOf, outNames);
      kept != [] ==> !kept[|kept| - 1].Planning? || nameOf(kept[|kept| - 1].line) in outNames
  {
    if lines != [] && Dead(lines[|lines| - 1], nameOf, outNames) {
      TrimIsMaximal(lines[..|lines| - 1], nameOf, outNames);
    }
  }

  // ---------------------------------------------------------------- the stack machine

  datatype Outcome<P, O, S> =
    | Ran(lines: seq<Line<P, O>>, stack: seq<S>, past: seq<S>)
    | IndexError(lines: seq<Line<P, O>>)

  /** The loop: the last state of `stack` is the top; `past` collects the popped ones. */
  function Run<P, O, S>(lines: seq<Line<P, O>>, stack: seq<S>, past: seq<S>, initial: S, plan: Planner<P, S>)
    : Outcome<P, O, S>
  {
    if lines == [] then Ran([], stack, past)
    else
      match lines[0]
      case Planning(p) =>
        if stack == [] then IndexError(lines)
        else
          var (p', s') := plan(p, stack[|stack| - 1]);
          Prepend(Planning(p'), Run(lines[1..], stack[..|stack| - 1] + [s'], past, initial, plan))
      case Enter => Prepend(Enter, Run(lines[1..], stack + [initial], past, initial, plan))
      case Exit =>
        if stack == [] then IndexError(lines)
        else Prepend(Exit, Run(lines[1..], stack[..|stack| - 1], past + [stack[|stack| - 1]], initial, plan))
      case Other(o) => Prepend(Other(o), Run(lines[1..], stack, past, initial, plan))
  }

  function Prepend<P, O, S>(line: Line<P, O>, r: Outcome<P, O, S>): Outcome<P, O, S> {
    r.(lines := [line] + r.lines)
  }

  function PrependAll<P, O, S>(lines: seq<Line<P, O>>, r: Outcome<P, O, S>): Outcome<P, O, S> {
    r.(lines := lines + r.lines)
  }

  // ---------------------------------------------------------------- subgraphs as trees

  /** A well-bracketed list of lines, as the forest of its subgraphs. */
  datatype Forest<P, O> =
    | Nil
    | Plan(line: P, rest: Forest<P, O>)
    | Code(other: O, rest: Forest<P, O>)
    | Subgraph(body: Forest<P, O>, rest: Forest<P, O>)

  function Flatten<P, O>(f: Forest<P, O>): seq<Line<P, O>> {
    match f
    case Nil => []
    case Plan(p, rest) => [Planning(p)] + Flatten(rest)
    case Code(o, rest) => [Other(o)] + Flatten(rest)
    case Subgraph(body, rest) => [Enter] + Flatten(body) + [Exit] + Flatten(rest)
  }

  datatype Planned<P, O, S> = Planned(forest: Forest<P, O>, state: S, past: seq<S>)

  /** The recursive traversal: a subgraph is planned with a state of its own. */
  function PlanForest<P, O, S>(f: Forest<P, O>, s: S, initial: S, plan: Planner<P, S>): Planned<P, O, S> {
    match f
    case Nil => Planned(Nil, s, [])
    case Plan(p, rest) =>
      var (p', s') := plan(p, s);
      var r := PlanForest(rest, s', initial, plan);
      Planned(Plan(p', r.forest), r.state, r.past)
    case Code(o, rest) =>
      var r := PlanForest(rest, s, initial, plan);
      Planned(Code(o, r.forest), r.state, r.past)
    case Subgraph(body, rest) =>
      var b, r := PlanForest(body, initial, initial, plan), PlanForest(rest, s, initial, plan);
      Planned(Subgraph(b.forest, r.forest), r.state, b.past + [b.state] + r.past)
  }

  function Subgraphs<P, O>(f: Forest<P, O>): nat {
    match f
    case Nil => 0
    case Plan(_, rest) => Subgraphs(rest)
    case Code(_, rest) => Subgraphs(rest)
    case Subgraph(body, rest) => 1 + Subgraphs(body) + Subgraphs(rest)
  }

  lemma {:induction false} OneStatePerSubgraph<P, O, S>(f: Forest<P, O>, s: S, initial: S, plan: Planner<P, S>)
    ensures |PlanForest(f, s, initial, plan).past| == Subgraphs(f)
  {
    match f
    case Nil =>
    case Plan(p, rest) => OneStatePerSubgraph(rest, plan(p, s).1, initial, plan);
    case Code(o, rest) => OneStatePerSubgraph(rest, s, initial, plan);
    case Subgraph(body, rest) =>
      OneStatePerSubgraph(body, initial, initial, plan);
      OneStatePerSubgraph(rest, s, initial, plan);
  }

  function FlattenOnto<P, O>(f: Forest<P, O>, tail: seq<Line<P, O>>): seq<Line<P, O>> {
    match f
    case Nil => tail
    case Plan(p, rest) => [Planning(p)] + FlattenOnto(rest, tail)
    case Code(o, rest) => [Other(o)] + FlattenOnto(rest, tail)
    case Subgraph(body, rest) => [Enter] + FlattenOnto(body, [Exit] + FlattenOnto(rest, tail))
  }

  function PrependForest<P, O, S>(f: Forest<P, O>, r: Outcome<P, O, S>): Outcome<P, O, S> {
    r.(lines := FlattenOnto(f, r.lines))
  }

  lemma {:induction false} FlattenOntoIsAppend<P, O>(f: Forest<P, O>, tail: seq<Line<P, O>>)
    ensures FlattenOnto(f, tail) == Flatten(f) + tail
    decreases f
  {
    match f
    case Nil =>
    case Plan(_, rest) => FlattenOntoIsAppend(rest, tail);
    case Code(_, rest) => FlattenOntoIsAppend(rest, tail);
    case Subgraph(body, rest) =>
      FlattenOntoIsAppend(rest, tail);
      FlattenOntoIsAppend(body, [Exit] + FlattenOnto(rest, tail));
  }

  /** The machine, wherever it meets a whole forest, plans it as the recursion does, and
      leaves everything below the top of the stack alone. */
  lemma {:induction false} MachineIsRecursion<P, O, S>(f: Forest<P, O>, tail: seq<Line<P, O>>, below: seq<S>, s: S,
                                                       past: seq<S>, initial: S, plan: Planner<P, S>)
    ensures
      var r := PlanForest(f, s, initial, plan);
      Run(FlattenOnto(f, tail), below + [s], past, initial, plan) ==
      PrependForest(r.forest, Run(tail, below + [r.state], past + r.past, initial, plan))
    decreases f
  {
    var stack := below + [s];
    match f
    case Nil =>
      assert past + [] == past;
    case Plan(p, rest) =>
      assert stack[..|below|] == below;
      MachineIsRecursion(rest, tail, below, plan(p, s).1, past, initial, plan);
      assert FlattenOnto(f, tail)[1..] == FlattenOnto(rest, tail);
    case Code(o, rest) =>
      MachineIsRecursion(rest, tail, below, s, past, initial, plan);
      assert FlattenOnto(f, tail)[1..] == FlattenOnto(rest, tail);
    case Subgraph(body, rest) =>
      var after := FlattenOnto(rest, tail);
      var b, r := PlanForest(body, initial, initial, plan), PlanForest(rest, s, initial, plan);
      assert FlattenOnto(f, tail)[1..] == FlattenOnto(body, [Exit] + after);
      MachineIsRecursion(body, [Exit] + after, stack, initial, past, initial, plan);
      ExitRetires(after, stack, b.state, past + b.past, initial, plan);
      MachineIsRecursion(rest, tail, below, s, past + b.past + [b.state], initial, plan);
      assert past + b.past + [b.state] + r.past == past + (b.past + [b.state] + r.past);
  }

  lemma ExitRetires<P, O, S>(after: seq<Line<P, O>>, below: seq<S>, s: S, past: seq<S>, initial: S, plan: Planner<P, S>)
    ensures Run([Exit] + after, below + [s], past, initial, plan) ==
      Prepend(Exit, Run(after, below, past + [s], initial, plan))
  {
    assert ([Line<P, O>.Exit] + after)[1..] == after;
    assert (below + [s])[..|below|] == below;
  }

  // ---------------------------------------------------------------- brackets

  /** Every Exit closes an open Enter, and all are closed at the end. */
  predicate Balanced<P, O>(lines: seq<Line<P, O>>, depth: nat) {
    if lines == [] then depth == 0
    else
      match lines[0]
      case Enter => Balanced(lines[1..], depth + 1)
      case Exit => depth > 0 && Balanced(lines[1..], depth - 1)
      case _ => Balanced(lines[1..], depth)
  }

  lemma {:induction false} ParseOpen<P, O>(lines: seq<Line<P, O>>, depth: nat)
    returns (f: Forest<P, O>, rest: seq<Line<P, O>>)
    requires Balanced(lines, depth)
    ensures lines == Flatten(f) + rest
    ensures depth == 0 ==> rest == []
    ensures depth > 0 ==> rest != [] && rest[0] == Exit && Balanced(rest[1..], depth - 1)
    decreases |lines|
  {
    if lines == [] {
      f, rest := Nil, [];
    } else {
      match lines[0]
      case Exit => f, rest := Nil, lines;
      case Planning(p) =>
        f, rest := ParseOpen(lines[1..], depth);
        f := Plan(p, f);
      case Other(o) =>
        f, rest := ParseOpen(lines[1..], depth);
        f := Code(o, f);
      case Enter =>
        var body, close := ParseOpen(lines[1..], depth + 1);
        assert close == [Line<P, O>.Exit] + close[1..];
        f, rest := ParseOpen(close[1..], depth);
        f := Subgraph(body, f);
        assert lines == [Line<P, O>.Enter] + lines[1..];
    }
  }

  /** Every well-bracketed list is the list of some forest. */
  lemma Parse<P, O>(lines: seq<Line<P, O>>) returns (f: Forest<P, O>)
    requires Balanced(lines, 0)
    ensures Flatten(f) == lines
  {
    var rest;
    f, rest := ParseOpen(lines, 0);
  }

  lemma {:induction false} FlattenBalanced<P, O>(f: Forest<P, O>, tail: seq<Line<P, O>>, depth: nat)
    ensures Balanced(Flatten(f) + tail, depth) == Balanced(tail, depth)
    decreases f
  {
    var lines := Flatten(f) + tail;
    match f
    case Nil => assert lines == tail;
    case Plan(p, rest) =>
      assert lines[1..] == Flatten(rest) + tail;
      FlattenBalanced(rest, tail, depth);
    case Code(o, rest) =>
      assert lines[1..] == Flatten(rest) + tail;
      FlattenBalanced(rest, tail, depth);
    case Subgraph(body, rest) =>
      var close := [Line<P, O>.Exit] + (Flatten(rest) + tail);
      assert lines[1..] == Flatten(body) + close;
      FlattenBalanced(body, close, depth + 1);
      assert close[1..] == Flatten(rest) + tail;
      FlattenBalanced(rest, tail, depth);
  }

  lemma {:induction false} BalancedWithoutTail<P, O>(lines: seq<Line<P, O>>, p: P, depth: nat)
    ensures Balanced(lines + [Planning(p)], depth) == Balanced(lines, depth)
  {
    if lines == [] {
      assert (lines + [Planning(p)])[1..] == [];
    } else {
      assert (lines + [Planning(p)])[1..] == lines[1..] + [Planning(p)];
      BalancedWithoutTail(lines[1..], p, match lines[0]
        case Enter => depth + 1
        case Exit => if depth > 0 then depth - 1 else 0
        case _ => depth);
    }
  }

  /** Trimming does not disturb the brackets. */
  lemma {:induction false} TrimKeepsBrackets<P, O>(lines: seq<Line<P, O>>, nameOf: P -> string, outNames: set<string>)
    ensures Balanced(Trim(lines, nameOf, outNames), 0) == Balanced(lines, 0)
  {
    if lines != [] && Dead(lines[|lines| - 1], nameOf, outNames) {
      var init, last := lines[..|lines| - 1], lines[|lines| - 1];
      assert lines == init + [Planning(last.line)];
      BalancedWithoutTail(init, last.line, 0);
      TrimKeepsBrackets(init, nameOf, outNames);
    }
  }

  // ---------------------------------------------------------------- when the pass succeeds

  datatype Verdict = Success | PopFromEmpty | StatesLeft

  /** How the pass ends, from bracket depths alone; depth counts the states on the stack. */
  function Ends<P, O>(lines: seq<Line<P, O>>, depth: nat): Verdict {
    if lines == [] then
      if depth == 0 then PopFromEmpty else if depth == 1 then Success else StatesLeft
    else
      match lines[0]
      case Enter => Ends(lines[1..], depth + 1)
      case Exit => if depth == 0 then PopFromEmpty else Ends(lines[1..], depth - 1)
      case Planning(_) => if depth == 0 then PopFromEmpty else Ends(lines[1..], depth)
      case Other(_) => Ends(lines[1..], depth)
  }

  /** How the code ends after its loop: it pops the last state and asserts that none is left. */
  function VerdictOf<P, O, S>(r: Outcome<P, O, S>): Verdict {
    if r.IndexError? || r.stack == [] then PopFromEmpty
    else if |r.stack| == 1 then Success
    else StatesLeft
  }

  lemma {:induction false} EndsDecides<P, O, S>(lines: seq<Line<P, O>>, stack: seq<S>, past: seq<S>,
                                                initial: S, plan: Planner<P, S>)
    ensures VerdictOf(Run(lines, stack, past, initial, plan)) == Ends(lines, |stack|)
  {
    if lines != [] {
      match lines[0]
      case Planning(p) =>
        if stack != [] {
          EndsDecides(lines[1..], stack[..|stack| - 1] + [plan(p, stack[|stack| - 1]).1], past, initial, plan);
        }
      case Enter => EndsDecides(lines[1..], stack + [initial], past, initial, plan);
      case Exit =>
        if stack != [] {
          EndsDecides(lines[1..], stack[..|stack| - 1], past + [stack[|stack| - 1]], initial, plan);
        }
      case Other(o) => EndsDecides(lines[1..], stack, past, initial, plan);
    }
  }

  /** On a well-bracketed list the pass succeeds, plans as the recursion does, and retires
      one state per subgraph and one for the whole list. */
  lemma WellBracketedPass<P, O, S>(f: Forest<P, O>, initial: S, plan: Planner<P, S>)
    ensures
      var r, planned := Run(Flatten(f), [initial], [], initial, plan), PlanForest(f, initial, initial, plan);
      && r == Ran(Flatten(planned.forest), [planned.state], planned.past)
      && |r.past + r.stack| == Subgraphs(f) + 1
      && VerdictOf(r) == Success
  {
    var planned := PlanForest(f, initial, initial, plan);
    MachineIsRecursion(f, [], [], initial, [], initial, plan);
    FlattenOntoIsAppend(f, []);
    FlattenOntoIsAppend(planned.forest, []);
    OneStatePerSubgraph(f, initial, initial, plan);
    assert Flatten(f) + [] == Flatten(f) && [] + [initial] == [initial];
    assert [] + planned.past == planned.past;
  }

  /** How many subgraphs the lines open and do not close; negative if they close more. */
  function Depth<P, O>(lines: seq<Line<P, O>>): int {
    if lines == [] then 0
    else Step(lines[0]) + Depth(lines[1..])
  }

  function Step<P, O>(line: Line<P, O>): int {
    match line case Enter => 1 case Exit => -1 case _ => 0
  }

  /** The depth before line n, when the list starts at another depth. */
  ghost function DepthAt<P, O>(lines: seq<Line<P, O>>, depth: int, n: nat): int
    requires n <= |lines|
  {
    depth + Depth(lines[..n])
  }

  lemma DepthAtNext<P, O>(lines: seq<Line<P, O>>, depth: int, n: nat)
    requires n < |lines|
    ensures DepthAt(lines, depth, n + 1) == DepthAt(lines[1..], DepthAt(lines, depth, 1), n)
  {
    assert lines[..n + 1][1..] == lines[1..][..n];
    assert lines[..1][1..] == [] && Depth(lines[..1]) == Step(lines[0]);
  }

  /** The depth is never less, and is greater where a planning line needs a state. */
  ghost predicate StaysAt<P, O>(lines: seq<Line<P, O>>, depth: int, least: int, n: nat)
    requires n <= |lines|
  {
    && DepthAt(lines, depth, n) >= least
    && (n < |lines| && lines[n].Planning? ==> DepthAt(lines, depth, n) > least)
  }

  ghost predicate Stays<P, O>(lines: seq<Line<P, O>>, depth: int, least: int) {
    forall n :: 0 <= n <= |lines| ==> StaysAt(lines, depth, least, n)
  }

  lemma StaysStep<P, O>(lines: seq<Line<P, O>>, depth: int, least: int)
    requires lines != []
    ensures Stays(lines, depth, least) <==>
      StaysAt(lines, depth, least, 0) && Stays(lines[1..], DepthAt(lines, depth, 1), least)
  {
    var next := DepthAt(lines, depth, 1);
    forall n | 0 <= n < |lines| ensures StaysAt(lines, depth, least, n + 1) == StaysAt(lines[1..], next, least, n) {
      DepthAtNext(lines, depth, n);
    }
    if StaysAt(lines, depth, least, 0) && Stays(lines[1..], next, least) {
      forall n | 0 <= n <= |lines| ensures StaysAt(lines, depth, least, n) {
        if n > 0 {
          assert StaysAt(lines, depth, least, (n - 1) + 1) == StaysAt(lines[1..], next, least, n - 1);
        }
      }
    }
    if Stays(lines, depth, least) {
      forall n | 0 <= n <= |lines[1..]| ensures StaysAt(lines[1..], next, least, n) {
        assert StaysAt(lines, depth, least, n + 1);
      }
    }
  }

  /** The pass succeeds exactly when the list closes as many subgraphs as it opens, has never closed
      more than one too many, and plans nothing while it has closed one too many. */
  lemma {:induction false} SucceedsIff<P, O>(lines: seq<Line<P, O>>, depth: nat)
    ensures Ends(lines, depth) == Success <==> DepthAt(lines, depth, |lines|) == 1 && Stays(lines, depth, 0)
  {
    assert lines[..|lines|] == lines;
    if lines == [] {
      assert StaysAt(lines, depth, 0, 0);
    } else {
      StaysStep(lines, depth, 0);
      DepthAtNext(lines, depth, |lines| - 1);
      var next := DepthAt(lines, depth, 1);
      assert lines[..1][1..] == [] && lines[..0] == [];
      if next >= 0 {
        SucceedsIff(lines[1..], next);
      } else {
        assert !StaysAt(lines[1..], next, 0, 0);
      }
    }
  }

  /** Some Exit meets no open Enter: before some line, more subgraphs are closed than opened. */
  ghost predicate Underflows<P, O>(lines: seq<Line<P, O>>) {
    exists n :: 0 <= n <= |lines| && DepthAt(lines, 0, n) < 0
  }

  lemma {:induction false} BalancedIff<P, O>(lines: seq<Line<P, O>>, depth: nat)
    ensures Balanced(lines, depth) <==>
      DepthAt(lines, depth, |lines|) == 0 && forall n :: 0 <= n <= |lines| ==> DepthAt(lines, depth, n) >= 0
  {
    assert lines[..|lines|] == lines;
    if lines == [] {
    } else {
      var next, rest := DepthAt(lines, depth, 1), lines[1..];
      assert lines[..1][1..] == [] && lines[..0] == [] && DepthAt(lines, depth, 0) == depth;
      forall n | 0 <= n < |lines| ensures DepthAt(lines, depth, n + 1) == DepthAt(rest, next, n) {
        DepthAtNext(lines, depth, n);
      }
      if next >= 0 {
        BalancedIff(rest, next);
        assert DepthAt(rest, next, |rest|) == DepthAt(lines, depth, |lines|);
        if forall n :: 0 <= n <= |rest| ==> DepthAt(rest, next, n) >= 0 {
          forall n | 0 <= n <= |lines| ensures DepthAt(lines, depth, n) >= 0 {
            if n > 0 { assert DepthAt(lines, depth, (n - 1) + 1) == DepthAt(rest, next, n - 1); }
          }
        }
        if forall n :: 0 <= n <= |lines| ==> DepthAt(lines, depth, n) >= 0 {
          forall n | 0 <= n <= |rest| ensures DepthAt(rest, next, n) >= 0 {
            assert DepthAt(lines, depth, n + 1) >= 0;
          }
        }
      }
    }
  }

  /** Success means well bracketed exactly when no Exit comes before its Enter, which the closing
      assertion does not look at. */
  lemma BalancedIffSucceeds<P, O, S>(lines: seq<Line<P, O>>, initial: S, plan: Planner<P, S>)
    ensures Balanced(lines, 0) <==>
      VerdictOf(Run(lines, [initial], [], initial, plan)) == Success && !Underflows(lines)
  {
    EndsDecides(lines, [initial], [], initial, plan);
    SucceedsIff(lines, 1);
    BalancedIff(lines, 0);
    forall n | 0 <= n <= |lines| ensures DepthAt(lines, 1, n) == DepthAt(lines, 0, n) + 1 {}
    if Balanced(lines, 0) {
      forall n | 0 <= n <= |lines| ensures StaysAt(lines, 1, 0, n) {
        assert DepthAt(lines, 0, n) >= 0;
      }
    }
  }

  /** The closing assertion only counts: an Exit before its Enter slips through. */
  lemma ReversedBracketsPass<P, O, S>(initial: S, plan: Planner<P, S>)
    ensures
      var lines: seq<Line<P, O>> := [Exit, Enter];
      !Balanced(lines, 0) && VerdictOf(Run(lines, [initial], [], initial, plan)) == Success
  {
    var lines: seq<Line<P, O>> := [Exit, Enter];
    assert lines[1..] == [Enter] && [Line<P, O>.Enter][1..] == [];
    assert Ends([Line<P, O>.Enter], 0) == Success;
    EndsDecides(lines, [initial], [], initial, plan);
  }

  /** The result of planning a well-bracketed list: that of the recursion over its subgraphs. */
  ghost predicate PlannedAs<P, O, S>(f: Forest<P, O>, before: seq<Line<P, O>>, after: seq<Line<P, O>>, past: seq<S>,
                                     initial: S, plan: Planner<P, S>)
  {
    var planned := PlanForest(f, initial, initial, plan);
    && before == Flatten(f) && after == Flatten(planned.forest)
    && past == planned.past + [planned.state] && |past| == Subgraphs(f) + 1
  }

  lemma BalancedPass<P, O, S>(lines: seq<Line<P, O>>, nameOf: P -> string, outNames: set<string>,
                              initial: S, plan: Planner<P, S>) returns (f: Forest<P, O>)
    requires Balanced(lines, 0)
    ensures
      var kept := Trim(lines, nameOf, outNames);
      var r := Run(kept, [initial], [], initial, plan);
      VerdictOf(r) == Success && PlannedAs(f, kept, r.lines, r.past + r.stack, initial, plan)
  {
    TrimKeepsBrackets(lines, nameOf, outNames);
    f := Parse(Trim(lines, nameOf, outNames));
    WellBracketedPass(f, initial, plan);
  }

  // ---------------------------------------------------------------- planning, line by line

  /** How many subgraphs, the whole list included, are open before line n. */
  ghost function Level<P, O>(lines: seq<Line<P, O>>, n: nat): int
    requires n <= |lines|
  {
    if n == 0 then 1
    else Level(lines, n - 1) + (if lines[n - 1].Enter? then 1 else if lines[n - 1].Exit? then -1 else 0)
  }

  /** What the first n lines make of the state of a level: it starts afresh with each subgraph at that level,
      and every line planned there leaves its own. */
  ghost function StateOf<P, O, S>(lines: seq<Line<P, O>>, n: nat, level: int, initial: S, plan: Planner<P, S>): S
    requires n <= |lines|
  {
    if n == 0 then initial
    else
      var before := StateOf(lines, n - 1, level, initial, plan);
      if lines[n - 1].Planning? && Level(lines, n - 1) == level then plan(lines[n - 1].line, before).1
      else if lines[n - 1].Enter? && Level(lines, n - 1) + 1 == level then initial
      else before
  }

  /** The state of the innermost subgraph before line n. */
  ghost function StateBefore<P, O, S>(lines: seq<Line<P, O>>, n: nat, initial: S, plan: Planner<P, S>): S
    requires n <= |lines|
  {
    StateOf(lines, n, Level(lines, n), initial, plan)
  }

  /** Every line from i on is planned with the state of its subgraph; other lines stay as they are. */
  ghost predicate PlannedFrom<P, O, S>(before: seq<Line<P, O>>, i: nat, after: seq<Line<P, O>>, initial: S,
                                       plan: Planner<P, S>)
  {
    && i + |after| == |before|
    && forall k :: 0 <= k < |after| ==> after[k] == PlannedLine(before, i + k, initial, plan)
  }

  ghost function PlannedLine<P, O, S>(lines: seq<Line<P, O>>, n: nat, initial: S, plan: Planner<P, S>): Line<P, O>
    requires n < |lines|
  {
    match lines[n]
    case Planning(p) => Planning(plan(p, StateBefore(lines, n, initial, plan)).0)
    case _ => lines[n]
  }

  /** The states of the subgraphs that the first n lines close, as they are left. */
  ghost function Retired<P, O, S>(lines: seq<Line<P, O>>, n: nat, initial: S, plan: Planner<P, S>): seq<S>
    requires n <= |lines|
  {
    if n == 0 then []
    else
      Retired(lines, n - 1, initial, plan) +
      if lines[n - 1].Exit? then [StateBefore(lines, n - 1, initial, plan)] else []
  }

  /** The stack holds the state of every level. */
  ghost predicate HoldsStates<P, O, S>(stack: seq<S>, lines: seq<Line<P, O>>, n: nat, initial: S, plan: Planner<P, S>)
    requires n <= |lines|
  {
    && |stack| == Level(lines, n)
    && (forall k :: 0 <= k < |stack| ==> stack[k] == StateOf(lines, n, k + 1, initial, plan))
  }

  lemma PlannedOneMore<P, O, S>(before: seq<Line<P, O>>, i: nat, line: Line<P, O>, after: seq<Line<P, O>>, initial: S,
                                plan: Planner<P, S>)
    requires i < |before| && line == PlannedLine(before, i, initial, plan)
    requires PlannedFrom(before, i + 1, after, initial, plan)
    ensures PlannedFrom(before, i, [line] + after, initial, plan)
  {
    forall k | 0 <= k < |after| + 1 ensures ([line] + after)[k] == PlannedLine(before, i + k, initial, plan) {
      if k > 0 { assert after[k - 1] == PlannedLine(before, i + 1 + (k - 1), initial, plan); }
    }
  }

  lemma StackTop<P, O, S>(stack: seq<S>, lines: seq<Line<P, O>>, n: nat, initial: S, plan: Planner<P, S>)
    requires n < |lines| && HoldsStates(stack, lines, n, initial, plan)
    ensures stack != [] ==> stack[|stack| - 1] == StateBefore(lines, n, initial, plan)
    ensures lines[n].Planning? && stack != [] ==>
      HoldsStates(stack[..|stack| - 1] + [plan(lines[n].line, stack[|stack| - 1]).1], lines, n + 1, initial, plan)
    ensures lines[n].Enter? ==> HoldsStates(stack + [initial], lines, n + 1, initial, plan)
    ensures lines[n].Exit? && stack != [] ==> HoldsStates(stack[..|stack| - 1], lines, n + 1, initial, plan)
    ensures lines[n].Other? ==> HoldsStates(stack, lines, n + 1, initial, plan)
  {
  }

  /** Wherever the machine gets to the end, every line was planned with the state that the lines before it
      make of its subgraph's, and the states retired are those that the closed subgraphs were left with. */
  lemma {:induction false} RunPlansEachLine<P, O, S>(lines: seq<Line<P, O>>, i: nat, stack: seq<S>, past: seq<S>,
                                                     initial: S, plan: Planner<P, S>)
    requires i <= |lines| && HoldsStates(stack, lines, i, initial, plan) && past == Retired(lines, i, initial, plan)
    ensures
      var r := Run(lines[i..], stack, past, initial, plan);
      r.Ran? ==>
        && PlannedFrom(lines, i, r.lines, initial, plan)
        && HoldsStates(r.stack, lines, |lines|, initial, plan)
        && r.past == Retired(lines, |lines|, initial, plan)
    decreases |lines| - i, 1
  {
    if i < |lines| {
      var line := lines[i];
      assert lines[i..][0] == line && lines[i..][1..] == lines[i + 1..];
      StackTop(stack, lines, i, initial, plan);
      var top := |stack| - 1;
      match line
      case Planning(p) =>
        if stack != [] {
          var (p', s') := plan(p, stack[top]);
          RunPlansOne(lines, i, Planning(p'), stack[..top] + [s'], past, initial, plan);
        }
      case Enter => RunPlansOne(lines, i, Enter, stack + [initial], past, initial, plan);
      case Exit =>
        if stack != [] { RunPlansOne(lines, i, Exit, stack[..top], past + [stack[top]], initial, plan); }
      case Other(o) => RunPlansOne(lines, i, line, stack, past, initial, plan);
    }
  }

  lemma RunPlansOne<P, O, S>(lines: seq<Line<P, O>>, i: nat, line: Line<P, O>, stack: seq<S>, past: seq<S>,
                             initial: S, plan: Planner<P, S>)
    requires i < |lines| && line == PlannedLine(lines, i, initial, plan)
    requires HoldsStates(stack, lines, i + 1, initial, plan) && past == Retired(lines, i + 1, initial, plan)
    ensures
      var r := Prepend(line, Run(lines[i + 1..], stack, past, initial, plan));
      r.Ran? ==>
        && PlannedFrom(lines, i, r.lines, initial, plan)
        && HoldsStates(r.stack, lines, |lines|, initial, plan)
        && r.past == Retired(lines, |lines|, initial, plan)
    decreases |lines| - i, 0
  {
    RunPlansEachLine(lines, i + 1, stack, past, initial, plan);
    var r := Run(lines[i + 1..], stack, past, initial, plan);
    if r.Ran? { PlannedOneMore(lines, i, line, r.lines, initial, plan); }
  }

  // ---------------------------------------------------------------- the code

  class WrapperCodegen<P, O> {
    var lines: seq<Line<P, O>>

    constructor (lines: seq<Line<P, O>>)
      ensures this.lines == lines
    {
      this.lines := lines;
    }

    /** Drops the pointless lines at the end. */
    method TrimLines(outNames: set<string>, nameOf: P -> string)
      modifies this
      ensures lines == Trim(old(lines), nameOf, outNames)
    {
      while lines != [] && Dead(lines[|lines| - 1], nameOf, outNames)
        invariant Trim(lines, nameOf, outNames) == Trim(old(lines), nameOf, outNames)
        decreases |lines|
      {
        lines := lines[..|lines| - 1];
      }
    }

    /** Plans the lines in place, following the subgraphs with a stack of states. */
    method PlanLines<S>(initial: S, plan: Planner<P, S>) returns (ok: bool, planningStates: seq<S>, past: seq<S>)
      modifies this
      ensures
        var r := Run(old(lines), [initial], [], initial, plan);
        lines == r.lines && (if ok then r == Ran(lines, planningStates, past) else r.IndexError?)
    {
      ghost var all := lines;
      planningStates, past := [initial], [];
      for i := 0 to |lines|
        invariant |lines| == |all| && lines[i..] == all[i..]
        invariant Run(all, [initial], [], initial, plan) ==
          PrependAll(lines[..i], Run(all[i..], planningStates, past, initial, plan))
      {
        var line := lines[i];
        assert all[i..][0] == line && all[i..][1..] == all[i + 1..];
        ghost var before := lines[..i];
        if line.Planning? || line.Exit? {
          if planningStates == [] {
            assert lines == lines[..i] + lines[i..];
            return false, planningStates, past;
          }
        }
        var top := |planningStates| - 1;
        match line {
          case Planning(p) =>
            var (p', s') := plan(p, planningStates[top]);
            planningStates := planningStates[..top] + [s'];
            lines := lines[i := Planning(p')];
          case Enter =>
            planningStates := planningStates + [initial];
          case Exit =>
            past := past + [planningStates[top]];
            planningStates := planningStates[..top];
          case Other(_) =>
        }
        assert lines[..i + 1] == before + [lines[i]];
        PrependOne(before, lines[i], Run(all[i + 1..], planningStates, past, initial, plan));
      }
      assert all[|lines|..] == [] && lines[..|lines|] == lines;
      ok := true;
    }

    /** Trims, then plans.  The verdict tells a pop from an empty stack and a failed
        closing assertion from success.  A well-bracketed list is planned as the recursion
        over the subgraphs of its trimmed lines does it. */
    method MemoryPlanReuse<S>(outNames: set<string>, nameOf: P -> string, initial: S, plan: Planner<P, S>)
      returns (verdict: Verdict, past: seq<S>)
      modifies this
      ensures
        var r := Run(Trim(old(lines), nameOf, outNames), [initial], [], initial, plan);
        && lines == r.lines
        && verdict == VerdictOf(r)
        && (verdict == Success ==> past == r.past + r.stack)
      // in the lines' own terms
      ensures verdict == Success ==>
        var kept := Trim(old(lines), nameOf, outNames);
        && PlannedFrom(kept, 0, lines, initial, plan)
        && past == Retired(kept, |kept|, initial, plan) + [StateOf(kept, |kept|, 1, initial, plan)]
      ensures Balanced(old(lines), 0) ==>
        && verdict == Success
        && exists f :: PlannedAs(f, Trim(old(lines), nameOf, outNames), lines, past, initial, plan)
    {
      if Balanced(lines, 0) {
        ghost var f := BalancedPass(lines, nameOf, outNames, initial, plan);
      }
      TrimLines(outNames, nameOf);
      RunPlansEachLine(lines, 0, [initial], [], initial, plan);
      assert lines[0..] == lines;
      var ok, planningStates;
      ok, planningStates, past := PlanLines(initial, plan);
      if !ok || planningStates == [] {
        return PopFromEmpty, past;
      }
      var top := |planningStates| - 1;
      past, planningStates := past + [planningStates[top]], planningStates[..top];
      verdict := if |planningStates| == 0 then Success else StatesLeft;
    }
  }

  lemma PrependOne<P, O, S>(before: seq<Line<P, O>>, line: Line<P, O>, r: Outcome<P, O, S>)
    ensures PrependAll(before, Prepend(line, r)) == PrependAll(before + [line], r)
  {
    assert before + ([line] + r.lines) == before + [line] + r.lines;
  }
}
