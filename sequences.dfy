/** Order-preserving containment of one sequence in another, and a fact about prefixes. */
module Sequences {
  /** A prefix one longer is the prefix with the next element appended. */
  lemma TakeSnoc<T>(s: seq<T>, i: int)
    requires 0 <= i < |s|
    ensures s[..i + 1] == s[..i] + [s[i]]
  {
  }

  /** `xs` occurs in `ys` in order, possibly with gaps. */
  predicate IsSubsequence<T(==)>(xs: seq<T>, ys: seq<T>)
    decreases |ys|
  {
    if xs == [] then true
    else if ys == [] then false
    else if xs[0] == ys[0] then IsSubsequence(xs[1..], ys[1..])
    else IsSubsequence(xs, ys[1..])
  }

  /** A subsequence stays one after dropping its first element. */
  lemma {:induction false} SubsequenceDropHead<T>(xs: seq<T>, ys: seq<T>)
    requires xs != [] && IsSubsequence(xs, ys)
    ensures IsSubsequence(xs[1..], ys)
    decreases |ys|, 1
  {
    if xs[0] == ys[0] {
      SubsequenceOfCons(xs[1..], ys[0], ys[1..]);
    } else {
      SubsequenceDropHead(xs, ys[1..]);
      SubsequenceOfCons(xs[1..], ys[0], ys[1..]);
    }
    assert [ys[0]] + ys[1..] == ys;
  }

  /** One more element in front of the host keeps a subsequence. */
  lemma {:induction false} SubsequenceOfCons<T>(xs: seq<T>, y: T, ys: seq<T>)
    requires IsSubsequence(xs, ys)
    ensures IsSubsequence(xs, [y] + ys)
    decreases |ys| + 1, 0
  {
    assert ([y] + ys)[1..] == ys;
    if xs != [] && xs[0] == y {
      SubsequenceDropHead(xs, ys);
    }
  }

  /** Anything in front of the host keeps a subsequence. */
  lemma {:induction false} SubsequenceOfSuffix<T>(xs: seq<T>, p: seq<T>, ys: seq<T>)
    requires IsSubsequence(xs, ys)
    ensures IsSubsequence(xs, p + ys)
    decreases |p|
  {
    if p != [] {
      SubsequenceOfSuffix(xs, p[1..], ys);
      SubsequenceOfCons(xs, p[0], p[1..] + ys);
      assert [p[0]] + (p[1..] + ys) == p + ys;
    } else {
      assert p + ys == ys;
    }
  }

  /** The same element in front of both keeps a subsequence. */
  lemma SubsequenceOfBothCons<T>(x: T, xs: seq<T>, ys: seq<T>)
    requires IsSubsequence(xs, ys)
    ensures IsSubsequence([x] + xs, [x] + ys)
  {
    assert ([x] + xs)[1..] == xs && ([x] + ys)[1..] == ys;
  }
}
