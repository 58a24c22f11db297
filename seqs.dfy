/**
 * Small sequence vocabulary shared by the rest of the model: order-preserving
 * selection (what a list comprehension with a condition, `DataFrame.dropna`
 * and a `DELETE ... WHERE` all do) and slicing off a prefix (`queryset[:n]`).
 */
module Seqs {

  /** `xs` can be obtained from `ys` by deleting elements, keeping the order of the rest. */
  ghost predicate SubsequenceOf<T>(xs: seq<T>, ys: seq<T>)
    decreases |ys|
  {
    if xs == [] then true
    else if ys == [] then false
    else (xs[0] == ys[0] && SubsequenceOf(xs[1..], ys[1..])) || SubsequenceOf(xs, ys[1..])
  }

  /** No element occurs twice. */
  ghost predicate Distinct<T>(s: seq<T>)
  {
    forall i, j :: 0 <= i < j < |s| ==> s[i] != s[j]
  }

  /** Python's `s[:n]`: the first `n` elements, or all of them when there are fewer. */
  function Take<T>(s: seq<T>, n: nat): (r: seq<T>)
    ensures |r| == if |s| <= n then |s| else n
    ensures |s| <= n ==> r == s
    ensures forall k :: 0 <= k < |r| ==> r[k] == s[k]
  {
    if |s| <= n then s else s[..n]
  }

  lemma {:induction false} SubsequenceMembers<T>(xs: seq<T>, ys: seq<T>)
    requires SubsequenceOf(xs, ys)
    ensures forall x :: x in xs ==> x in ys
    decreases |ys|
  {
    if xs != [] {
      assert ys != [];
      if xs[0] == ys[0] && SubsequenceOf(xs[1..], ys[1..]) {
        SubsequenceMembers(xs[1..], ys[1..]);
        forall x | x in xs ensures x in ys {
          if x != xs[0] {
            assert x in xs[1..];
            assert x in ys[1..];
          }
        }
      } else {
        SubsequenceMembers(xs, ys[1..]);
      }
    }
  }

  /**
   * A subsequence of a sequence without repetitions is determined by its
   * elements alone: two subsequences holding the same elements are equal.
   */
  lemma {:induction false} SubsequenceUnique<T>(a: seq<T>, b: seq<T>, ys: seq<T>)
    requires Distinct(ys)
    requires SubsequenceOf(a, ys) && SubsequenceOf(b, ys)
    requires forall x :: x in a <==> x in b
    ensures a == b
    decreases |ys|
  {
    if ys != [] {
      var y, rest := ys[0], ys[1..];
      assert Distinct(rest);
      assert y !in rest;
      if a != [] && a[0] == y {
        HeadMatched(a, ys);
        assert b != [] by { assert y in a; }
        if b[0] != y {
          assert y in b by { assert y in a; }
          SubsequenceMembers(b, rest);
          assert false;
        }
        HeadMatched(b, ys);
        SubsequenceMembers(a[1..], rest);
        SubsequenceMembers(b[1..], rest);
        forall x ensures x in a[1..] <==> x in b[1..] {
          assert x in a <==> x in b;
          if x in a[1..] { assert x != y && x in b; }
          if x in b[1..] { assert x != y && x in a; }
        }
        SubsequenceUnique(a[1..], b[1..], rest);
        assert a == [a[0]] + a[1..] && b == [b[0]] + b[1..];
      } else {
        if a != [] { assert SubsequenceOf(a, rest); }
        if b != [] && b[0] == y {
          assert y in a by { assert y in b; }
          assert a != [];
          assert SubsequenceOf(a, rest);
          SubsequenceMembers(a, rest);
          assert false;
        }
        if b != [] { assert SubsequenceOf(b, rest); }
        SubsequenceUnique(a, b, rest);
      }
    }
  }

  /** Dropping the first element of a subsequence leaves a subsequence. */
  lemma {:induction false} DropHead<T>(xs: seq<T>, ys: seq<T>)
    requires xs != [] && SubsequenceOf(xs, ys)
    ensures SubsequenceOf(xs[1..], ys)
    decreases |ys|
  {
    if !(xs[0] == ys[0] && SubsequenceOf(xs[1..], ys[1..])) {
      DropHead(xs, ys[1..]);
    }
  }

  /** When the head of a subsequence is the head of the sequence, the tails line up. */
  lemma {:induction false} HeadMatched<T>(a: seq<T>, ys: seq<T>)
    requires ys != [] && a != [] && a[0] == ys[0]
    requires SubsequenceOf(a, ys)
    ensures SubsequenceOf(a[1..], ys[1..])
  {
    if !SubsequenceOf(a[1..], ys[1..]) {
      DropHead(a, ys[1..]);
    }
  }
}
