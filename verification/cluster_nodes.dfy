/** The list of nodes, head first, as it is written into one value and parsed again. */
module ClusterNodes {
  import opened Common
  import opened EnvFile

  /** The pieces of a list with the space around them removed, without the empty ones. */
  function Nonempty(pieces: seq<string>): seq<string> {
    if pieces == [] then []
    else
      var node := Trim(pieces[0], IsSpace);
      (if node == "" then [] else [node]) + Nonempty(pieces[1..])
  }

  function ParseNodes(arg: Option<string>): seq<string> {
    if arg == None || arg.value == "" then [] else Nonempty(Split(arg.value, IsComma))
  }

  /** Everything after the head. */
  function WorkerNodes(nodes: seq<string>): (workers: seq<string>)
    ensures nodes != [] ==> [nodes[0]] + workers == nodes
    ensures nodes == [] ==> workers == []
  {
    if |nodes| <= 1 then [] else nodes[1..]
  }

  predicate GoodNode(node: string) { node != "" && Trimmed(node, IsSpace) && Free(node, IsComma) }

  ghost predicate GoodNodes(nodes: seq<string>) {
    forall i :: 0 <= i < |nodes| ==> GoodNode(nodes[i])
  }

  lemma {:induction false} NonemptyAreGood(pieces: seq<string>)
    requires forall i :: 0 <= i < |pieces| ==> Free(pieces[i], IsComma)
    ensures GoodNodes(Nonempty(pieces))
  {
    if pieces != [] {
      TrimIsStretch(pieces[0], IsSpace);
      NonemptyAreGood(pieces[1..]);
    }
  }

  lemma {:induction false} NonemptyKeepsGood(nodes: seq<string>)
    requires GoodNodes(nodes)
    ensures Nonempty(nodes) == nodes
  {
    if nodes != [] {
      TrimSameIff(nodes[0], IsSpace);
      NonemptyKeepsGood(nodes[1..]);
    }
  }

  lemma {:induction false} JoinEnds(nodes: seq<string>)
    requires GoodNodes(nodes) && nodes != []
    ensures Join(nodes, ',') != "" && Trimmed(Join(nodes, ','), IsSpace)
    ensures var text, last := Join(nodes, ','), nodes[|nodes| - 1];
            GoodNode(nodes[0]) && GoodNode(last) && text[0] == nodes[0][0] && text[|text| - 1] == last[|last| - 1]
  {
    assert GoodNode(nodes[0]);
    if |nodes| > 1 {
      JoinEnds(nodes[1..]);
    }
  }

  /** A written list of nodes parses back to itself exactly when every node is good. */
  lemma ParseJoinIff(nodes: seq<string>)
    ensures ParseNodes(Some(Join(nodes, ','))) == nodes <==> GoodNodes(nodes)
  {
    var text := Join(nodes, ',');
    if text != "" {
      NonemptyAreGood(Split(text, IsComma));
    }
    if GoodNodes(nodes) && nodes != [] {
      JoinEnds(nodes);
      SplitUndoesJoin(nodes, ',', IsComma);
      NonemptyKeepsGood(nodes);
    }
  }

  lemma {:induction false} NonemptyAppend(a: seq<string>, b: seq<string>)
    ensures Nonempty(a + b) == Nonempty(a) + Nonempty(b)
  {
    if a == [] {
      assert a + b == b;
    } else {
      assert (a + b)[1..] == a[1..] + b;
      NonemptyAppend(a[1..], b);
    }
  }

  lemma NonemptyOne(piece: string)
    ensures Nonempty([piece]) == if Trim(piece, IsSpace) == "" then [] else [Trim(piece, IsSpace)]
  {
    assert [piece][1..] == [];
  }

  /** A comma separates: what stands before it and what stands after it is parsed on its own. */
  lemma ParseAppend(a: string, b: string)
    ensures ParseNodes(Some(a + "," + b)) == ParseNodes(Some(a)) + ParseNodes(Some(b))
  {
    SplitAppend(a, ',', b, IsComma);
    NonemptyAppend(Split(a, IsComma), Split(b, IsComma));
    NonemptyOne("");
  }

  /** Without a comma there is one node, without the space around it, or none. */
  lemma ParsePadded(node: string, a: string, b: string)
    requires IsBlank(a) && IsBlank(b) && ',' !in node && (node == "" || HasPlainEnds(node))
    ensures ParseNodes(Some(a + node + b)) == if node == "" then [] else [node]
  {
    var text := a + node + b;
    SplitWhole(text, IsComma);
    NonemptyOne(text);
    if node == "" {
      assert forall i :: 0 <= i < |text| ==> IsSpace(text[i]);
      TrimLeftSkips(text, "", IsSpace);
      assert text + "" == text;
    } else {
      TrimPadded(a, node, b, IsSpace);
    }
  }

  // ---------------------------------------------------------------- through the file

  const CLUSTER_NODES := "CLUSTER_NODES"

  /** How long the pieces are with a separator between each two. */
  ghost function JoinLength(pieces: seq<string>): nat {
    if pieces == [] then 0 else if |pieces| == 1 then |pieces[0]| else |pieces[0]| + 1 + JoinLength(pieces[1..])
  }

  lemma {:induction false} JoinHasLength(pieces: seq<string>, c: char)
    ensures |Join(pieces, c)| == JoinLength(pieces)
  {
    if |pieces| > 1 {
      JoinHasLength(pieces[1..], c);
    }
  }

  lemma {:induction false} SplitHasLength(s: string, sep: char -> bool)
    ensures JoinLength(Split(s, sep)) == |s|
  {
    if s != "" {
      var rest := Split(s[1..], sep);
      SplitHasLength(s[1..], sep);
      assert ([""] + rest)[1..] == rest;
      assert ([[s[0]] + rest[0]] + rest[1..])[1..] == rest[1..];
    }
  }

  lemma {:induction false} NonemptyNoLonger(pieces: seq<string>)
    ensures JoinLength(Nonempty(pieces)) <= JoinLength(pieces)
  {
    if pieces != [] {
      var node, rest := Trim(pieces[0], IsSpace), Nonempty(pieces[1..]);
      NonemptyNoLonger(pieces[1..]);
      assert ([node] + rest)[1..] == rest && [] + rest == rest;
    }
  }

  /** Parsing never makes a list that takes more room to write. */
  lemma ParseNoLonger(text: string)
    ensures |Join(ParseNodes(Some(text)), ',')| <= |text|
  {
    if text != "" {
      SplitHasLength(text, IsComma);
      NonemptyNoLonger(Split(text, IsComma));
      JoinHasLength(ParseNodes(Some(text)), ',');
    }
  }

  predicate IsQuote(c: char) { IsDouble(c) || IsSingle(c) }

  /** No quote before the head node or after the last one. */
  predicate UnquotedEnds(nodes: seq<string>) {
    nodes == [] ||
    var head, last := nodes[0], nodes[|nodes| - 1];
    (head == "" || !IsQuote(head[0])) && (last == "" || !IsQuote(last[|last| - 1]))
  }

  lemma JoinTrimmedIff(nodes: seq<string>)
    requires GoodNodes(nodes)
    ensures Trimmed(Join(nodes, ','), IsSpace)
    ensures Trimmed(Join(nodes, ','), IsDouble) && Trimmed(Join(nodes, ','), IsSingle) <==> UnquotedEnds(nodes)
  {
    if nodes != [] {
      JoinEnds(nodes);
    }
  }

  /** A value that does not come through quoting comes back shorter. */
  lemma UnquoteShortens(value: string)
    ensures Unquote(Quote(value)) == value || |Unquote(Quote(value))| < |value|
  {
    if NeedsQuotes(value) {
      TrimSameIff(Quote(value), IsSpace);
      TrimQuotes(value);
      TrimTwiceShortens(value);
    } else {
      TrimSameIff(value, IsSpace);
      TrimTwiceShortens(Trim(value, IsSpace));
    }
  }

  lemma TrimTwiceShortens(value: string)
    ensures var r := Trim(Trim(value, IsDouble), IsSingle); r == value || |r| < |value|
  {
    TrimSameIff(value, IsDouble);
    TrimSameIff(Trim(value, IsDouble), IsSingle);
  }

  lemma {:induction false} JoinIsFree(nodes: seq<string>)
    requires forall i :: 0 <= i < |nodes| ==> Free(nodes[i], IsBreak)
    ensures Free(Join(nodes, ','), IsBreak)
  {
    if |nodes| > 1 {
      JoinIsFree(nodes[1..]);
    }
  }

  lemma ValueSurvivesIff(nodes: seq<string>)
    requires GoodNodes(nodes) && Free(Join(nodes, ','), IsBreak)
    ensures ParseNodes(Some(Unquote(Quote(Join(nodes, ','))))) == nodes <==> UnquotedEnds(nodes)
  {
    var text := Join(nodes, ',');
    var back := Unquote(Quote(text));
    JoinTrimmedIff(nodes);
    UnquoteUndoesQuoteIff(text);
    ParseJoinIff(nodes);
    UnquoteShortens(text);
    ParseNoLonger(back);
  }

  lemma NodesKeyIsGood()
    ensures GoodKey(CLUSTER_NODES)
  {
  }

  /** A selection of good nodes, saved beside entries with good keys and loaded again, gives the
      same list, head first, exactly when no quote stands at either end of the list. */
  lemma SavedNodesIff(keys: seq<string>, env: map<string, string>, nodes: seq<string>)
    requires Enumerates(keys, env) && CLUSTER_NODES in env && env[CLUSTER_NODES] == Join(nodes, ',')
    requires forall k :: k in env && k != CLUSTER_NODES ==> GoodKey(k) && Free(env[k], IsBreak)
    requires GoodNodes(nodes) && forall i :: 0 <= i < |nodes| ==> Free(nodes[i], IsBreak)
    ensures
      var loaded := Load(TextOf(HEADER, keys, env));
      CLUSTER_NODES in loaded &&
      (ParseNodes(Some(loaded[CLUSTER_NODES])) == nodes <==> UnquotedEnds(nodes))
  {
    NodesKeyIsGood();
    JoinIsFree(nodes);
    HeaderIsSkipped();
    LoadSaved(HEADER, keys, env);
    ValueSurvivesIff(nodes);
  }
}
