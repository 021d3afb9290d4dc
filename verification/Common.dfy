/** Datatypes and sequence helpers shared by the other modules. */
module Common {

  /** A reference that may be NULL, or a result that may be missing. */
  datatype Option<+T> = None | Some(value: T)

  const NUL: char := '\0'

  function Flatten<T>(ss: seq<seq<T>>): seq<T>
  {
    if ss == [] then [] else ss[0] + Flatten(ss[1..])
  }

  /** The cells from `i` on hold `items` and then the terminating NULL. */
  ghost predicate Holds<T>(vec: array<Option<T>>, i: nat, items: seq<T>)
    reads vec
  {
    && i + |items| < vec.Length
    && (forall k :: 0 <= k < |items| ==> vec[i + k] == Some(items[k]))
    && vec[i + |items|] == None
  }

  lemma Assoc<T>(a: seq<T>, b: seq<T>, c: seq<T>)
    ensures a + (b + c) == a + b + c
  {
  }

  lemma SliceHead<T>(s: seq<T>, p: nat, q: nat)
    requires p < q <= |s|
    ensures s[p..q] == [s[p]] + s[p + 1..q]
  {
  }

  lemma HeadTail<T>(s: seq<T>)
    requires s != []
    ensures s == [s[0]] + s[1..]
  {
  }

  lemma UpdateTwice<T>(s: seq<T>, i: nat, x: T, y: T)
    requires i < |s|
    ensures s[i := x][i := y] == s[i := y]
  {
  }

  lemma HoldsTail<T>(vec: array<Option<T>>, i: nat, items: seq<T>)
    requires Holds(vec, i, items) && items != []
    ensures vec[i] == Some(items[0]) && Holds(vec, i + 1, items[1..])
  {
    assert vec[i + 0] == Some(items[0]);
    assert forall k :: 0 <= k < |items[1..]| ==>
      items[1..][k] == items[k + 1] && vec[i + (k + 1)] == Some(items[k + 1]);
  }

  function Times<T>(x: T, m: nat): (r: seq<T>)
    ensures |r| == m
  {
    seq(m, i => x)
  }

  // ----- Reversal, and the strings half way to it -----

  function Rev<T>(s: seq<T>): (r: seq<T>)
    ensures |r| == |s|
  {
    seq(|s|, i requires 0 <= i < |s| => s[|s| - 1 - i])
  }

  /** `w` with its `i` outer pairs exchanged. */
  function Swapped<T>(w: seq<T>, i: nat): (r: seq<T>)
    requires i <= |w| / 2
    ensures |r| == |w|
  {
    seq(|w|, k requires 0 <= k < |w| => if k < i || k >= |w| - i then w[|w| - 1 - k] else w[k])
  }

  lemma RevTwice<T>(s: seq<T>)
    ensures Rev(Rev(s)) == s
  {
  }

  lemma SwappedEnds<T>(w: seq<T>)
    ensures Swapped(w, 0) == w && Swapped(w, |w| / 2) == Rev(w)
  {
  }

  lemma SwappedNext<T>(w: seq<T>, i: nat)
    requires i < |w| / 2
    ensures Swapped(w, i)[i] == w[i] && Swapped(w, i)[|w| - 1 - i] == w[|w| - 1 - i]
    ensures Swapped(w, i)[i := w[|w| - 1 - i]][|w| - 1 - i := w[i]] == Swapped(w, i + 1)
  {
  }
}
