/**
 Sequence helpers shared by the table engine and the upload list:
 JavaScript's `Array.prototype.filter` and the subsequence relation it
 establishes.
 */
module Seqs {

  function Min(a: int, b: int): int { if a <= b then a else b }

  function Max(a: int, b: int): int { if a <= b then b else a }

  /** `a` can be obtained from `b` by deleting elements, keeping the rest in order. */
  predicate IsSubseq<T(==)>(a: seq<T>, b: seq<T>)
    decreases |b|
  {
    if |a| == 0 then true
    else if |b| == 0 then false
    else (a[0] == b[0] && IsSubseq(a[1..], b[1..])) || IsSubseq(a, b[1..])
  }

  /** The elements of `s` that satisfy `p`, in their original order (`s.filter(p)`). */
  function Keep<T(==,!new)>(s: seq<T>, p: T -> bool): (r: seq<T>)
    ensures |r| <= |s|
    ensures forall x :: x in r <==> x in s && p(x)
  {
    if |s| == 0 then []
    else (if p(s[0]) then [s[0]] else []) + Keep(s[1..], p)
  }

  /** Filtering distributes over concatenation. */
  lemma {:induction false} KeepConcat<T(!new)>(a: seq<T>, b: seq<T>, p: T -> bool)
    ensures Keep(a + b, p) == Keep(a, p) + Keep(b, p)
  {
    if |a| == 0 {
      assert a + b == b;
    } else {
      assert (a + b)[0] == a[0];
      assert (a + b)[1..] == a[1..] + b;
      KeepConcat(a[1..], b, p);
    }
  }

  /** A filtered sequence is an order-preserving subsequence of its input. */
  lemma {:induction false} KeepIsSubseq<T(!new)>(s: seq<T>, p: T -> bool)
    ensures IsSubseq(Keep(s, p), s)
  {
    if |s| > 0 {
      KeepIsSubseq(s[1..], p);
      var rest := Keep(s[1..], p);
      if p(s[0]) {
        var r := [s[0]] + rest;
        assert r[0] == s[0] && r[1..] == rest;
      } else {
        assert Keep(s, p) == rest;
        SubseqOfTail(rest, s);
      }
    }
  }

  /** Anything that is a subsequence of the tail is a subsequence of the whole. */
  lemma SubseqOfTail<T>(a: seq<T>, b: seq<T>)
    requires |b| > 0 && IsSubseq(a, b[1..])
    ensures IsSubseq(a, b)
  {
  }

  /** Filtering keeps every element that satisfies `p` as often as it occurs, and no other. */
  lemma {:induction false} KeepCount<T(!new)>(s: seq<T>, p: T -> bool, x: T)
    ensures multiset(Keep(s, p))[x] == if p(x) then multiset(s)[x] else 0
  {
    if |s| > 0 {
      KeepCount(s[1..], p, x);
      assert s == [s[0]] + s[1..];
      assert multiset(s) == multiset([s[0]]) + multiset(s[1..]);
    }
  }

  /** Filtering a sequence all of whose elements pass leaves it unchanged. */
  lemma {:induction false} KeepAll<T(!new)>(s: seq<T>, p: T -> bool)
    requires forall i :: 0 <= i < |s| ==> p(s[i])
    ensures Keep(s, p) == s
  {
    if |s| > 0 {
      KeepAll(s[1..], p);
      assert s == [s[0]] + s[1..];
    }
  }

  /** Filtering one element in front of `s`. */
  lemma KeepCons<T(!new)>(a: T, s: seq<T>, p: T -> bool)
    ensures Keep([a] + s, p) == (if p(a) then [a] else []) + Keep(s, p)
  {
    assert ([a] + s)[0] == a && ([a] + s)[1..] == s;
  }

  /** Two neighbours of which at most one passes may swap places without changing the filtered result. */
  lemma KeepSwapFront<T(!new)>(a: T, b: T, s: seq<T>, p: T -> bool)
    requires !(p(a) && p(b))
    ensures Keep([a] + ([b] + s), p) == Keep([b] + ([a] + s), p)
  {
    KeepCons(a, [b] + s, p);
    KeepCons(b, s, p);
    KeepCons(b, [a] + s, p);
    KeepCons(a, s, p);
  }

  /** Putting `a` in front keeps two filterings equal when `a` and `b` cannot both pass: `a` may hop over `b`. */
  lemma KeepHop<T(!new)>(a: T, b: T, tail: seq<T>, rest: seq<T>, p: T -> bool)
    requires !(p(a) && p(b))
    requires Keep(rest, p) == Keep([b] + tail, p)
    ensures Keep([a] + rest, p) == Keep([b] + ([a] + tail), p)
  {
    KeepCons(a, rest, p);
    KeepCons(a, [b] + tail, p);
    KeepSwapFront(a, b, tail, p);
  }
}
