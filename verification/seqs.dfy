/** Generic sequence helpers: order-preserving filtering and the subsequence relation. */
module Seqs {

  /** Keeps, in order, the elements of `s` that satisfy `keep`. */
  function Filter<T>(keep: T -> bool, s: seq<T>): (r: seq<T>)
    ensures |r| <= |s|
    ensures forall k :: 0 <= k < |r| ==> keep(r[k])
    ensures forall x :: x in s && keep(x) ==> x in r
    ensures forall x :: x in r ==> x in s
    decreases |s|
  {
    if s == [] then []
    else if keep(s[0]) then [s[0]] + Filter(keep, s[1..])
    else Filter(keep, s[1..])
  }

  /** Applies `f` to every element, preserving order and length. */
  function MapSeq<T, U>(f: T -> U, s: seq<T>): (r: seq<U>)
    ensures |r| == |s|
    ensures forall k :: 0 <= k < |s| ==> r[k] == f(s[k])
  {
    seq(|s|, k requires 0 <= k < |s| => f(s[k]))
  }

  /** Filtering a non-empty sequence: its head, if kept, followed by the filtered tail. */
  lemma FilterCons<T>(keep: T -> bool, s: seq<T>)
    requires s != []
    ensures Filter(keep, s) == (if keep(s[0]) then [s[0]] else []) + Filter(keep, s[1..])
  {
  }

  /** Mapping distributes over concatenation. */
  lemma MapSeqAppend<T, U>(f: T -> U, a: seq<T>, b: seq<T>)
    ensures MapSeq(f, a + b) == MapSeq(f, a) + MapSeq(f, b)
  {
  }

  /** One step of mapping a filtered sequence: the image of the head, if kept, followed by
      the mapped filtered tail. */
  lemma MapFilterStep<T, U>(f: T -> U, keep: T -> bool, s: seq<T>, out: seq<U>, restOut: seq<U>)
    requires s != []
    requires restOut == MapSeq(f, Filter(keep, s[1..]))
    requires out == (if keep(s[0]) then [f(s[0])] else []) + restOut
    ensures out == MapSeq(f, Filter(keep, s))
  {
    var head := if keep(s[0]) then [s[0]] else [];
    FilterCons(keep, s);
    MapSeqAppend(f, head, Filter(keep, s[1..]));
    assert MapSeq(f, head) == if keep(s[0]) then [f(s[0])] else [];
  }

  /** The concatenation of the renderings of the elements, in order. */
  function Concat<T>(render: T -> string, s: seq<T>): string
    decreases |s|
  {
    if s == [] then "" else render(s[0]) + Concat(render, s[1..])
  }

  /** Rendering distributes over concatenation; a single element renders alone. */
  lemma {:induction false} ConcatAppend<T>(render: T -> string, a: seq<T>, b: seq<T>)
    ensures Concat(render, a + b) == Concat(render, a) + Concat(render, b)
    decreases |a|
  {
    if a == [] {
      assert a + b == b;
    } else {
      assert (a + b)[0] == a[0];
      assert (a + b)[1..] == a[1..] + b;
      ConcatAppend(render, a[1..], b);
      assert Concat(render, a + b) == render(a[0]) + (Concat(render, a[1..]) + Concat(render, b));
    }
  }

  lemma ConcatSingle<T>(render: T -> string, x: T)
    ensures Concat(render, [x]) == render(x)
  {
    assert Concat(render, [x]) == render(x) + Concat(render, []);
  }

  /** `a` is obtained from `b` by deleting zero or more elements. */
  predicate IsSubsequence<T(==)>(a: seq<T>, b: seq<T>)
    decreases |b|
  {
    if a == [] then true
    else if b == [] then false
    else (a[0] == b[0] && IsSubsequence(a[1..], b[1..])) || IsSubsequence(a, b[1..])
  }

  /** Filtering never reorders: its result is a subsequence of its input. */
  lemma {:induction false} FilterIsSubsequence<T>(keep: T -> bool, s: seq<T>)
    ensures IsSubsequence(Filter(keep, s), s)
    decreases |s|
  {
    if s != [] {
      FilterIsSubsequence(keep, s[1..]);
      if !keep(s[0]) {
        SubsequenceOfTail(Filter(keep, s[1..]), s);
      }
    }
  }

  lemma {:induction false} SubsequenceOfTail<T>(a: seq<T>, b: seq<T>)
    requires b != []
    requires IsSubsequence(a, b[1..])
    ensures IsSubsequence(a, b)
  {
  }

  /** Mapping preserves the subsequence relation. */
  lemma {:induction false} MapPreservesSubsequence<T, U>(f: T -> U, a: seq<T>, b: seq<T>)
    requires IsSubsequence(a, b)
    ensures IsSubsequence(MapSeq(f, a), MapSeq(f, b))
    decreases |b|
  {
    if a != [] {
      assert MapSeq(f, b)[1..] == MapSeq(f, b[1..]);
      if a[0] == b[0] && IsSubsequence(a[1..], b[1..]) {
        MapPreservesSubsequence(f, a[1..], b[1..]);
        assert MapSeq(f, a)[1..] == MapSeq(f, a[1..]);
      } else {
        MapPreservesSubsequence(f, a, b[1..]);
      }
    }
  }
}
