/** Top-k per row while decoding: each row may look only at the positions its request has
    reached, and the selected positions overwrite a buffer in place. */
module XpuTopK {
  import opened Common

  /** A logit, or minus infinity where it is masked. */
  datatype Logit = Masked | Finite(value: real)

  predicate Le(a: Logit, b: Logit) { a.Masked? || (b.Finite? && a.value <= b.value) }

  // ---------------------------------------------------------------- selecting

  /** A top-k selection: k distinct positions in descending order, none left out that is greater. */
  ghost predicate IsTopK(row: seq<Logit>, k: nat, chosen: seq<nat>) {
    && |chosen| == k && Distinct(chosen)
    && (forall i :: 0 <= i < k ==> chosen[i] < |row|)
    && (forall i, j :: 0 <= i < j < k ==> Le(row[chosen[j]], row[chosen[i]]))
    && (forall i, u :: 0 <= i < k && 0 <= u < |row| && u !in chosen ==> Le(row[u], row[chosen[i]]))
  }

  method TopK(row: seq<Logit>, k: nat) returns (chosen: seq<nat>)
    requires k <= |row|
    ensures IsTopK(row, k, chosen)
  {
    chosen := [];
    for n := 0 to k
      invariant IsTopK(row, n, chosen)
    {
      SomeLeft(chosen, |row|);
      var best: nat :| best < |row| && best !in chosen;
      for u := 0 to |row|
        invariant best < |row| && best !in chosen
        invariant forall v :: 0 <= v < u && v !in chosen ==> Le(row[v], row[best])
      {
        if u !in chosen && !Le(row[u], row[best]) {
          best := u;
        }
      }
      DistinctAppend(chosen, best);
      chosen := chosen + [best];
    }
  }

  lemma DistinctAppend(s: seq<nat>, x: nat)
    requires Distinct(s) && x !in s
    ensures Distinct(s + [x])
  {
    forall i, j | 0 <= i < j < |s + [x]| ensures !Repeats(s + [x], i, j) {
      if j < |s| { assert !Repeats(s, i, j); }
    }
  }

  ghost function Below(n: nat): (r: set<nat>)
    ensures |r| == n && forall x: nat :: x in r <==> x < n
  {
    if n == 0 then {} else var last: nat := n - 1; assert last !in Below(last); Below(last) + {last}
  }

  /** Fewer than n distinct positions leave one of the first n out. */
  lemma SomeLeft(s: seq<nat>, n: nat)
    requires Distinct(s) && |s| < n
    ensures exists u: nat :: u < n && u !in s
  {
    DistinctCount(s);
    if Below(n) <= Elements(s) {
      SubsetCount(Below(n), Elements(s));
    }
    var u :| u in Below(n) && u !in Elements(s);
  }

  /** No more than n distinct positions lie below n. */
  lemma NoMoreThan(s: seq<nat>, n: nat)
    requires Distinct(s) && forall i :: 0 <= i < |s| ==> s[i] < n
    ensures |s| <= n
  {
    DistinctCount(s);
    SubsetCount(Elements(s), Below(n));
  }

  // ---------------------------------------------------------------- masking

  function Mask(row: seq<real>, end: int): (r: seq<Logit>)
    ensures |r| == |row|
    ensures forall i :: 0 <= i < |row| ==> r[i] == if i <= end then Finite(row[i]) else Masked
  {
    seq(|row|, i requires 0 <= i < |row| => if i <= end then Finite(row[i]) else Masked)
  }

  /** How many positions of a row of that width lie at or before the end. */
  function Visible(width: nat, end: int): nat {
    if end < 0 then 0 else if end >= width then width else end + 1
  }

  /** What a row of the buffer should hold: the top positions among the first `visible`, in
      descending order, then -1. */
  ghost predicate IsVisibleTop(row: seq<real>, visible: nat, out: seq<int>) {
    var m := if |out| <= visible then |out| else visible;
    && visible <= |row|
    && (forall i :: 0 <= i < m ==> 0 <= out[i] < visible)
    && (forall i :: m <= i < |out| ==> out[i] == -1)
    && (forall i, j :: 0 <= i < j < m ==> out[i] != out[j] && row[out[j]] <= row[out[i]])
    && (forall i, u :: 0 <= i < m && 0 <= u < visible && u !in out ==> row[u] <= row[out[i]])
  }

  /** The masked selection, with the masked positions replaced by -1. */
  function Erase(chosen: seq<nat>, end: int): (r: seq<int>)
    ensures |r| == |chosen|
    ensures forall i :: 0 <= i < |chosen| ==> r[i] == if chosen[i] > end then -1 else chosen[i]
  {
    seq(|chosen|, i requires 0 <= i < |chosen| => if chosen[i] > end then -1 else chosen[i] as int)
  }

  /** A selection takes the visible positions first, as many as there is room for. */
  lemma VisibleFirst(row: seq<real>, end: int, k: nat, chosen: seq<nat>, i: nat)
    requires IsTopK(Mask(row, end), k, chosen) && i < k <= |row|
    ensures chosen[i] < Visible(|row|, end) <==> i < Visible(|row|, end)
  {
    var masked, visible := Mask(row, end), Visible(|row|, end);
    if chosen[i] < visible {
      // so is everything before it, and distinct positions need room
      forall j | 0 <= j <= i ensures chosen[j] < visible {
        assert j < i ==> Le(masked[chosen[i]], masked[chosen[j]]);
      }
      DistinctPrefix(chosen, i + 1);
      NoMoreThan(chosen[..i + 1], visible);
    } else {
      // then every visible position came before it
      forall u: nat | u < visible ensures u in chosen[..i] {
        VisibleBefore(row, end, k, chosen, i, u);
      }
      DistinctPrefix(chosen, i);
      DistinctCount(chosen[..i]);
      SubsetCount(Below(visible), Elements(chosen[..i]));
    }
  }

  lemma VisibleBefore(row: seq<real>, end: int, k: nat, chosen: seq<nat>, i: nat, u: nat)
    requires IsTopK(Mask(row, end), k, chosen) && i < k <= |row|
    requires u < Visible(|row|, end) <= chosen[i]
    ensures u in chosen[..i]
  {
    var masked := Mask(row, end);
    assert !Le(masked[u], masked[chosen[i]]);
    forall j | i <= j < k ensures chosen[j] != u {
      assert i < j ==> Le(masked[chosen[j]], masked[chosen[i]]);
    }
    var j: nat :| j < k && chosen[j] == u;
    assert chosen[..i][j] == u;
  }

  /** What one place of the erased selection holds. */
  lemma ErasedAt(row: seq<real>, end: int, k: nat, chosen: seq<nat>, i: nat)
    requires IsTopK(Mask(row, end), k, chosen) && i < k <= |row|
    ensures
      var visible, out := Visible(|row|, end), Erase(chosen, end);
      if i < visible then chosen[i] < visible && out[i] == chosen[i] else out[i] == -1
  {
    VisibleFirst(row, end, k, chosen, i);
  }

  lemma ErasedInOrder(row: seq<real>, end: int, k: nat, chosen: seq<nat>, i: nat, j: nat)
    requires IsTopK(Mask(row, end), k, chosen) && i < j < k <= |row| && j < Visible(|row|, end)
    ensures
      var out := Erase(chosen, end);
      0 <= out[i] < |row| && 0 <= out[j] < |row| && out[i] != out[j] && row[out[j]] <= row[out[i]]
  {
    var masked := Mask(row, end);
    ErasedAt(row, end, k, chosen, i);
    ErasedAt(row, end, k, chosen, j);
    assert !Repeats(chosen, i, j) && Le(masked[chosen[j]], masked[chosen[i]]);
  }

  lemma ErasedIsTop(row: seq<real>, end: int, k: nat, chosen: seq<nat>, i: nat, u: nat)
    requires IsTopK(Mask(row, end), k, chosen) && i < k <= |row|
    requires i < Visible(|row|, end) && u < Visible(|row|, end) && u !in Erase(chosen, end)
    ensures var out := Erase(chosen, end); 0 <= out[i] < |row| && row[u] <= row[out[i]]
  {
    var masked, out := Mask(row, end), Erase(chosen, end);
    ErasedAt(row, end, k, chosen, i);
    forall j | 0 <= j < k ensures chosen[j] != u {
      assert out[j] != u;
    }
    assert Le(masked[u], masked[chosen[i]]);
  }

  lemma ErasedIsVisibleTop(row: seq<real>, end: int, k: nat, chosen: seq<nat>)
    requires IsTopK(Mask(row, end), k, chosen) && k <= |row|
    ensures IsVisibleTop(row, Visible(|row|, end), Erase(chosen, end))
  {
    var visible, out := Visible(|row|, end), Erase(chosen, end);
    forall i | 0 <= i < k ensures if i < visible then 0 <= out[i] < visible else out[i] == -1 {
      ErasedAt(row, end, k, chosen, i);
    }
    forall i, j | 0 <= i < j < k && j < visible ensures out[i] != out[j] && row[out[j]] <= row[out[i]] {
      ErasedInOrder(row, end, k, chosen, i, j);
    }
    forall i, u | 0 <= i < k && i < visible && 0 <= u < visible && u !in out ensures row[u] <= row[out[i]] {
      ErasedIsTop(row, end, k, chosen, i, u);
    }
  }

  // ---------------------------------------------------------------- the code

  /** The last position row r may look at: its request's length, less the draft tokens after it. */
  function EndPosition(seqLens: seq<int>, nextN: nat, r: nat): int
    requires nextN > 0 && r < |seqLens| * nextN
  {
    RequestOf(|seqLens|, nextN, r);
    seqLens[r / nextN] - nextN + r % nextN
  }

  lemma RequestOf(batch: nat, nextN: nat, r: nat)
    requires nextN > 0 && r < batch * nextN
    ensures r / nextN < batch
  {
    ProductAtLeast(r / nextN - batch, nextN);
  }

  lemma SameQuotient(q: int, r: int, p: int, s: int, n: int)
    requires 0 <= r < n && 0 <= s < n && q * n + r == p * n + s
    ensures q == p
  {
    ProductAtLeast(q - p - 1, n);
    ProductAtLeast(p - q - 1, n);
  }

  /** Draft token d of request b sees what lies before the request's length less the drafts after it,
      whatever the length; if that fits the row, these are so many, and the last draft token sees all. */
  lemma DraftSees(seqLens: seq<int>, nextN: nat, width: nat, b: nat, d: nat, u: nat)
    requires b < |seqLens| && d < nextN
    ensures b * nextN + d < |seqLens| * nextN
    ensures u < Visible(width, EndPosition(seqLens, nextN, b * nextN + d)) <==>
      u < width && u < seqLens[b] - (nextN - 1 - d)
    ensures nextN <= seqLens[b] <= width ==>
      Visible(width, EndPosition(seqLens, nextN, b * nextN + d)) == seqLens[b] - (nextN - 1 - d)
  {
    var r := b * nextN + d;
    SameQuotient(r / nextN, r % nextN, b, d, nextN);
    ProductAtLeast(|seqLens| - b - 1, nextN);
  }

  /** Columns 0 to k of row r of the buffer. */
  ghost function Entries(raw: array2<int>, r: nat, k: nat): seq<int>
    requires r < raw.Length0 && k <= raw.Length1
    reads raw
  {
    seq(k, c requires 0 <= c < k reads raw => raw[r, c])
  }

  method WriteRow(raw: array2<int>, r: nat, out: seq<int>)
    requires r < raw.Length0 && |out| <= raw.Length1
    modifies raw
    ensures Entries(raw, r, |out|) == out
    ensures forall i, c :: 0 <= i < raw.Length0 && 0 <= c < raw.Length1 && !(i == r && c < |out|) ==>
      raw[i, c] == old(raw[i, c])
  {
    for c := 0 to |out|
      invariant forall d :: 0 <= d < c ==> raw[r, d] == out[d]
      invariant forall i, d :: 0 <= i < raw.Length0 && 0 <= d < raw.Length1 && !(i == r && d < c) ==>
        raw[i, d] == old(raw[i, d])
    {
      raw[r, c] := out[c];
    }
  }

  /** Every row of the buffer receives the top positions its draft token may look at; the
      rest of the buffer is left alone. */
  method TopKPerRowDecode(logits: seq<seq<real>>, width: nat, nextN: nat, seqLens: seq<int>, raw: array2<int>,
                          topkTokens: nat)
    requires |logits| == |seqLens| * nextN
    requires forall r :: 0 <= r < |logits| ==> |logits[r]| == width
    requires |logits| <= raw.Length0 && (topkTokens <= raw.Length1 || width <= raw.Length1)
    modifies raw
    ensures
      var k := if topkTokens <= width then topkTokens else width;
      && (forall r :: 0 <= r < |logits| ==>
            nextN > 0 && IsVisibleTop(logits[r], Visible(width, EndPosition(seqLens, nextN, r)), Entries(raw, r, k)))
      && (forall r, c :: 0 <= r < raw.Length0 && 0 <= c < raw.Length1 && !(r < |logits| && c < k) ==>
            raw[r, c] == old(raw[r, c]))
  {
    var k := if topkTokens <= width then topkTokens else width;
    for r := 0 to |logits|
      invariant forall i :: 0 <= i < r ==>
        nextN > 0 && IsVisibleTop(logits[i], Visible(width, EndPosition(seqLens, nextN, i)), Entries(raw, i, k))
      invariant forall i, c :: 0 <= i < raw.Length0 && 0 <= c < raw.Length1 && !(i < r && c < k) ==>
        raw[i, c] == old(raw[i, c])
    {
      assert nextN > 0;
      var end := EndPosition(seqLens, nextN, r);
      var chosen := TopK(Mask(logits[r], end), k);
      ErasedIsVisibleTop(logits[r], end, k, chosen);
      ghost var before: seq<seq<int>> := seq(r, i requires 0 <= i < r reads raw => Entries(raw, i, k));
      WriteRow(raw, r, Erase(chosen, end));
      assert forall i :: 0 <= i < r ==> Entries(raw, i, k) == before[i];
    }
  }
}
