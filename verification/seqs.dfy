/**
 * The array idioms every handler is built from: `filter`, `findIndex`,
 * `arr[findIndex(...)] = x` guarded by `!== -1`, and `reduce` with `+`.
 */
module Seqs {
  import opened Wrappers

  /** `a` can be obtained from `b` by deleting elements: an order-preserving subsequence. */
  ghost predicate IsSubsequence<T>(a: seq<T>, b: seq<T>)
    decreases |b|
  {
    |a| == 0 ||
    (|b| > 0 && ((a[0] == b[0] && IsSubsequence(a[1..], b[1..])) || IsSubsequence(a, b[1..])))
  }

  lemma {:induction false} SubsequenceTransitive<T>(a: seq<T>, b: seq<T>, c: seq<T>)
    requires IsSubsequence(a, b) && IsSubsequence(b, c)
    ensures IsSubsequence(a, c)
    decreases |c|
  {
    if |a| == 0 {
    } else if IsSubsequence(b, c[1..]) {
      SubsequenceTransitive(a, b, c[1..]);
    } else {
      assert b[0] == c[0] && IsSubsequence(b[1..], c[1..]);
      if a[0] == b[0] && IsSubsequence(a[1..], b[1..]) {
        SubsequenceTransitive(a[1..], b[1..], c[1..]);
      } else {
        SubsequenceTransitive(a, b[1..], c[1..]);
      }
    }
  }

  lemma {:induction false} SubsequenceReflexive<T>(a: seq<T>)
    ensures IsSubsequence(a, a)
    decreases |a|
  {
    if |a| > 0 {
      SubsequenceReflexive(a[1..]);
    }
  }

  /** `s.filter(keep)`. */
  function Filter<T>(s: seq<T>, keep: T -> bool): (r: seq<T>)
    ensures |r| <= |s|
    ensures forall i :: 0 <= i < |r| ==> keep(r[i])
    ensures forall i :: 0 <= i < |r| ==> r[i] in s
    ensures forall i :: 0 <= i < |s| && keep(s[i]) ==> s[i] in r
    ensures IsSubsequence(r, s)
    ensures (forall i :: 0 <= i < |s| ==> keep(s[i])) ==> r == s
  {
    if |s| == 0 then []
    else
      var rest := Filter(s[1..], keep);
      assert s == [s[0]] + s[1..];
      if keep(s[0]) then [s[0]] + rest
      else
        rest
  }

  /** `Filter` keeps every copy of a kept element and no copy of any other. */
  lemma {:induction false} FilterMultiset<T(!new)>(s: seq<T>, keep: T -> bool)
    ensures forall x :: multiset(Filter(s, keep))[x] == if keep(x) then multiset(s)[x] else 0
    decreases |s|
  {
    if |s| > 0 {
      var rest := Filter(s[1..], keep);
      FilterMultiset(s[1..], keep);
      assert s == [s[0]] + s[1..];
      assert multiset(s) == multiset{s[0]} + multiset(s[1..]);
      if keep(s[0]) {
        assert Filter(s, keep) == [s[0]] + rest;
        assert multiset([s[0]] + rest) == multiset{s[0]} + multiset(rest);
      } else {
        assert Filter(s, keep) == rest;
      }
    }
  }

  /**
   * `if (apply) s = s.filter(keep)`: a filter the page applies only when a
   * control is set.
   */
  function FilterIf<T(!new)>(apply: bool, s: seq<T>, keep: T -> bool): (r: seq<T>)
    ensures forall x :: multiset(r)[x] == if !apply || keep(x) then multiset(s)[x] else 0
    ensures forall x :: x in r <==> x in s && (!apply || keep(x))
    ensures IsSubsequence(r, s)
    ensures !apply ==> r == s
  {
    FilterMultiset(s, keep);
    SubsequenceReflexive(s);
    var r := if apply then Filter(s, keep) else s;
    assert forall x :: x in r <==> multiset(r)[x] > 0;
    assert forall x :: x in s <==> multiset(s)[x] > 0;
    r
  }

  /** Two filters in a row keep what satisfies both criteria. */
  lemma {:induction false} FilterCompose<T>(s: seq<T>, p: T -> bool, q: T -> bool, both: T -> bool)
    requires forall i :: 0 <= i < |s| ==> both(s[i]) == (p(s[i]) && q(s[i]))
    ensures Filter(Filter(s, p), q) == Filter(s, both)
    decreases |s|
  {
    if |s| > 0 {
      FilterCompose(s[1..], p, q, both);
    }
  }

  /** True of the element at `k` and of none before it. */
  predicate IsFirstMatch<T>(s: seq<T>, p: T -> bool, k: nat) {
    k < |s| && p(s[k]) && forall j :: 0 <= j < k ==> !p(s[j])
  }

  /** `s.findIndex(p)`, with `None` for -1. */
  function FirstIndex<T>(s: seq<T>, p: T -> bool): (r: Option<nat>)
    ensures r.Some? ==> IsFirstMatch(s, p, r.value)
    ensures r.None? ==> forall k :: 0 <= k < |s| ==> !p(s[k])
  {
    if |s| == 0 then None
    else if p(s[0]) then Some(0)
    else match FirstIndex(s[1..], p)
      case None => None
      case Some(i) =>
        assert forall j :: 1 <= j < i + 1 ==> s[j] == s[1..][j - 1];
        Some(i + 1)
  }

  /**
   * `const k = s.findIndex(p); if (k !== -1) s[k] = x`: the first entry
   * satisfying `p` becomes `x`, every other entry stays, and the sequence is
   * left as it was when no entry satisfies `p`.
   */
  function ReplaceFirst<T>(s: seq<T>, p: T -> bool, x: T): (r: seq<T>)
    ensures |r| == |s|
    ensures forall k :: 0 <= k < |s| ==> r[k] == (if IsFirstMatch(s, p, k) then x else s[k])
    ensures (forall k :: 0 <= k < |s| ==> !p(s[k])) ==> r == s
  {
    match FirstIndex(s, p)
    case None => s
    case Some(i) => s[i := x]
  }

  /**
   * Replacing the first match twice, the first time with a value that still
   * matches, is replacing it once with the second value.
   */
  lemma ReplaceFirstTwice<T>(s: seq<T>, p: T -> bool, a: T, b: T)
    requires p(a)
    ensures ReplaceFirst(ReplaceFirst(s, p, a), p, b) == ReplaceFirst(s, p, b)
  {
    var once := ReplaceFirst(s, p, a);
    forall k | 0 <= k < |s|
      ensures IsFirstMatch(once, p, k) <==> IsFirstMatch(s, p, k)
    {
      if IsFirstMatch(s, p, k) {
        forall j | 0 <= j < k ensures !p(once[j]) {
          assert once[j] == s[j];
        }
      } else if IsFirstMatch(once, p, k) {
        forall j | 0 <= j < k ensures !p(s[j]) {
          assert !IsFirstMatch(s, p, j);
          assert once[j] == s[j];
        }
        assert false;
      }
    }
  }

  /** `s.reduce((sum, x) => sum + f(x), 0)`: a left fold of `+`. */
  function Sum<T>(s: seq<T>, f: T -> int): int {
    if |s| == 0 then 0 else Sum(s[..|s| - 1], f) + f(s[|s| - 1])
  }

  /** Sequences whose elements weigh the same position by position have the same sum. */
  lemma {:induction false} SumCongruent<T, U>(a: seq<T>, f: T -> int, b: seq<U>, g: U -> int)
    requires |a| == |b|
    requires forall i :: 0 <= i < |a| ==> f(a[i]) == g(b[i])
    ensures Sum(a, f) == Sum(b, g)
    decreases |a|
  {
    if |a| > 0 {
      SumCongruent(a[..|a| - 1], f, b[..|b| - 1], g);
    }
  }

  /** The left fold also peels off the first element. */
  lemma SumFront<T>(s: seq<T>, f: T -> int)
    ensures |s| > 0 ==> Sum(s, f) == f(s[0]) + Sum(s[1..], f)
  {
    if |s| > 0 {
      assert s == [s[0]] + s[1..];
      SumAppend([s[0]], s[1..], f);
      assert [s[0]][..0] == [];
    }
  }

  lemma {:induction false} SumAppend<T>(a: seq<T>, b: seq<T>, f: T -> int)
    ensures Sum(a + b, f) == Sum(a, f) + Sum(b, f)
    decreases |b|
  {
    if |b| > 0 {
      assert (a + b)[..|a + b| - 1] == a + b[..|b| - 1];
      assert (a + b)[|a + b| - 1] == b[|b| - 1];
      SumAppend(a, b[..|b| - 1], f);
    } else {
      assert a + b == a;
    }
  }

  /** A sum of terms between `lo` and `hi` lies between `lo` and `hi` times the count. */
  lemma {:induction false} SumBounds<T>(s: seq<T>, f: T -> int, lo: int, hi: int)
    requires forall i :: 0 <= i < |s| ==> lo <= f(s[i]) <= hi
    ensures lo * |s| <= Sum(s, f) <= hi * |s|
    decreases |s|
  {
    if |s| > 0 {
      SumBounds(s[..|s| - 1], f, lo, hi);
    }
  }

  /** One step of `Filter`: the head is kept or dropped, the tail is filtered. */
  lemma FilterCons<T>(s: seq<T>, keep: T -> bool)
    requires |s| > 0
    ensures Filter(s, keep) == (if keep(s[0]) then [s[0]] else []) + Filter(s[1..], keep)
  {
  }

  /**
   * The length of a filtered sequence is the number of kept elements, counted
   * by a function that is 1 on kept elements and 0 elsewhere.
   */
  lemma {:induction false} FilterLengthCounts<T>(s: seq<T>, keep: T -> bool, one: T -> int)
    requires forall i :: 0 <= i < |s| ==> one(s[i]) == (if keep(s[i]) then 1 else 0)
    ensures |Filter(s, keep)| == Sum(s, one)
    decreases |s|
  {
    if |s| > 0 {
      var head, tail := s[0], s[1..];
      FilterLengthCounts(tail, keep, one);
      assert s == [head] + tail;
      SumAppend([head], tail, one);
      assert [head][..0] == [];
    }
  }

  /** The sum splits into the part that `keep` retains and the part `drop` retains. */
  lemma {:induction false} SumFilterSplit<T>(s: seq<T>, f: T -> int, keep: T -> bool, drop: T -> bool)
    requires forall i :: 0 <= i < |s| ==> drop(s[i]) == !keep(s[i])
    ensures Sum(s, f) == Sum(Filter(s, keep), f) + Sum(Filter(s, drop), f)
    decreases |s|
  {
    if |s| > 0 {
      var head, tail := s[0], s[1..];
      SumFilterSplit(tail, f, keep, drop);
      assert s == [head] + tail;
      SumAppend([head], tail, f);
      if keep(head) {
        assert Filter(s, keep) == [head] + Filter(tail, keep);
        assert Filter(s, drop) == Filter(tail, drop);
        SumAppend([head], Filter(tail, keep), f);
      } else {
        assert Filter(s, keep) == Filter(tail, keep);
        assert Filter(s, drop) == [head] + Filter(tail, drop);
        SumAppend([head], Filter(tail, drop), f);
      }
    }
  }
}
