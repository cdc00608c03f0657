/** Notions that several components share. */
module Common {

  datatype Option<T> = None | Some(value: T)

  // ---------------------------------------------------------------- numbers

  /** The lower bound first, then the upper one. */
  function Clamp(x: int, low: int, high: int): int {
    var atLeast := if x < low then low else x;
    if atLeast > high then high else atLeast
  }

  lemma ProductAtLeast(a: int, b: int)
    requires b >= 0
    ensures a >= 1 ==> a * b >= b
    ensures a >= 0 ==> a * b >= 0
    ensures a <= -1 ==> a * b <= -b
  {
  }

  function Sum(s: seq<nat>): nat {
    if s == [] then 0 else Sum(s[..|s| - 1]) + s[|s| - 1]
  }

  lemma {:induction false} SumAppend(a: seq<nat>, b: seq<nat>)
    ensures Sum(a + b) == Sum(a) + Sum(b)
  {
    if b == [] {
      assert a + b == a;
    } else {
      assert (a + b)[..|a + b| - 1] == a + b[..|b| - 1];
      SumAppend(a, b[..|b| - 1]);
    }
  }

  lemma SumOneMore(s: seq<nat>, x: nat)
    ensures Sum(s + [x]) == Sum(s) + x
  {
    assert (s + [x])[..|s|] == s;
  }

  // ---------------------------------------------------------------- sequences

  /** The last n elements. */
  function Final<T>(s: seq<T>, n: nat): seq<T>
    requires n <= |s|
  {
    s[|s| - n..]
  }

  function Flatten<T>(pieces: seq<seq<T>>): seq<T> {
    if pieces == [] then [] else Flatten(pieces[..|pieces| - 1]) + pieces[|pieces| - 1]
  }

  ghost predicate Repeats<T>(s: seq<T>, i: nat, j: nat)
    requires i < j < |s|
  {
    s[i] == s[j]
  }

  ghost predicate Distinct<T>(s: seq<T>) {
    forall i, j :: 0 <= i < j < |s| ==> !Repeats(s, i, j)
  }

  lemma DistinctPrefix<T>(s: seq<T>, n: nat)
    requires Distinct(s) && n <= |s|
    ensures Distinct(s[..n])
  {
    forall i, j | 0 <= i < j < n ensures !Repeats(s[..n], i, j) { assert !Repeats(s, i, j); }
  }

  ghost function Elements<T>(s: seq<T>): set<T> { set x | x in s }

  lemma {:induction false} DistinctCount<T>(s: seq<T>)
    requires Distinct(s)
    ensures |Elements(s)| == |s|
  {
    if s != [] {
      var n: nat := |s| - 1;
      DistinctPrefix(s, n);
      DistinctCount(s[..n]);
      assert forall i :: 0 <= i < n ==> !Repeats(s, i, n) && s[..n][i] == s[i];
      assert Elements(s) == Elements(s[..n]) + {s[n]};
    }
  }

  lemma SubsetCount<T>(a: set<T>, b: set<T>)
    requires a <= b
    ensures |a| <= |b|
  {
    assert a + (b - a) == b;
  }
}
