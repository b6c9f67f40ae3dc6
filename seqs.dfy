/**
 * Order-preserving filtering of sequences (the model of `Array.prototype.filter`),
 * subsequences, duplicate removal (the model of `new Set(array)`), and the
 * counting facts the page models need about them.
 */
module Seqs {
  import opened Common

  /** `a` is obtained from `b` by deleting elements, keeping the order of the rest. */
  ghost predicate IsSubseq<T(!new)>(a: seq<T>, b: seq<T>)
    decreases |b|
  {
    if a == [] then true
    else if b == [] then false
    else (a[|a| - 1] == b[|b| - 1] && IsSubseq(a[..|a| - 1], b[..|b| - 1])) || IsSubseq(a, b[..|b| - 1])
  }

  lemma {:induction false} SubseqMembers<T(!new)>(a: seq<T>, b: seq<T>)
    requires IsSubseq(a, b)
    ensures forall x :: x in a ==> x in b
    decreases |b|
  {
    if a != [] && b != [] {
      if a[|a| - 1] == b[|b| - 1] && IsSubseq(a[..|a| - 1], b[..|b| - 1]) {
        SubseqMembers(a[..|a| - 1], b[..|b| - 1]);
        assert a == a[..|a| - 1] + [a[|a| - 1]];
        assert b == b[..|b| - 1] + [b[|b| - 1]];
      } else {
        SubseqMembers(a, b[..|b| - 1]);
        assert b == b[..|b| - 1] + [b[|b| - 1]];
      }
    }
  }

  /** `s.filter(p)`: the elements of `s` satisfying `p`, in their original order. */
  function Filter<T(==,!new)>(s: seq<T>, p: T -> bool): (r: seq<T>)
    ensures |r| <= |s|
    ensures forall x :: x in r <==> x in s && p(x)
    decreases |s|
  {
    if s == [] then []
    else
      var init := Filter(s[..|s| - 1], p);
      assert s == s[..|s| - 1] + [s[|s| - 1]];
      if p(s[|s| - 1]) then init + [s[|s| - 1]] else init
  }

  /** Filtering keeps the order of what it keeps. */
  lemma {:induction false} FilterIsSubseq<T(!new)>(s: seq<T>, p: T -> bool)
    ensures IsSubseq(Filter(s, p), s)
    decreases |s|
  {
    if s != [] {
      var init := Filter(s[..|s| - 1], p);
      FilterIsSubseq(s[..|s| - 1], p);
      if p(s[|s| - 1]) {
        assert (init + [s[|s| - 1]])[..|init|] == init;
      }
    }
  }

  lemma FilterSnoc<T(!new)>(s: seq<T>, x: T, p: T -> bool)
    ensures Filter(s + [x], p) == Filter(s, p) + (if p(x) then [x] else [])
  {
    assert (s + [x])[..|s|] == s;
  }

  lemma {:induction false} FilterConcat<T(!new)>(a: seq<T>, b: seq<T>, p: T -> bool)
    ensures Filter(a + b, p) == Filter(a, p) + Filter(b, p)
    decreases |b|
  {
    if b == [] {
      assert a + b == a;
    } else {
      var b', last := b[..|b| - 1], b[|b| - 1];
      var tail := if p(last) then [last] else [];
      assert b == b' + [last];
      assert a + b == (a + b') + [last];
      FilterSnoc(a + b', last, p);
      assert Filter(a + b, p) == Filter(a + b', p) + tail;
      FilterConcat(a, b', p);
      FilterSnoc(b', last, p);
      assert Filter(b, p) == Filter(b', p) + tail;
      assert Filter(a, p) + Filter(b', p) + tail == Filter(a, p) + (Filter(b', p) + tail);
    }
  }

  /** Filtering with a predicate every element satisfies changes nothing. */
  lemma {:induction false} FilterAll<T(!new)>(s: seq<T>, p: T -> bool)
    requires forall i :: 0 <= i < |s| ==> p(s[i])
    ensures Filter(s, p) == s
    decreases |s|
  {
    if s != [] {
      FilterAll(s[..|s| - 1], p);
      assert s == s[..|s| - 1] + [s[|s| - 1]];
    }
  }

  /** Filtering with two predicates that agree on every element gives the same result. */
  lemma {:induction false} FilterAgree<T(!new)>(s: seq<T>, p: T -> bool, q: T -> bool)
    requires forall i :: 0 <= i < |s| ==> p(s[i]) == q(s[i])
    ensures Filter(s, p) == Filter(s, q)
    decreases |s|
  {
    if s != [] {
      FilterAgree(s[..|s| - 1], p, q);
    }
  }

  lemma FilterSingleton<T(!new)>(x: T, p: T -> bool)
    ensures Filter([x], p) == if p(x) then [x] else []
  {
    assert [x][..0] == [];
  }

  lemma MultisetCancel<T(!new)>(a: seq<T>, x: T, b1: seq<T>, b2: seq<T>)
    requires multiset(a + [x]) == multiset(b1 + [x] + b2)
    ensures multiset(a) == multiset(b1 + b2)
  {
    forall y ensures multiset(a)[y] == multiset(b1 + b2)[y] {
      assert multiset(a + [x])[y] == multiset(a)[y] + multiset{x}[y];
      assert multiset(b1 + [x] + b2)[y] == multiset(b1)[y] + multiset{x}[y] + multiset(b2)[y];
    }
  }

  /** Filtering two permutations of each other keeps the same number of elements. */
  lemma {:induction false} FilterCountPerm<T(!new)>(a: seq<T>, b: seq<T>, p: T -> bool)
    requires multiset(a) == multiset(b)
    ensures |Filter(a, p)| == |Filter(b, p)|
    decreases |a|
  {
    if a == [] {
      assert |multiset(b)| == 0;
      assert b == [];
    } else {
      var x := a[|a| - 1];
      var a' := a[..|a| - 1];
      assert a == a' + [x];
      assert x in multiset(b);
      var k :| 0 <= k < |b| && b[k] == x;
      var b1, b2 := b[..k], b[k + 1..];
      assert b == b1 + [x] + b2;
      MultisetCancel(a', x, b1, b2);
      FilterCountPerm(a', b1 + b2, p);
      FilterConcat(a', [x], p);
      FilterConcat(b1 + [x], b2, p);
      FilterConcat(b1, [x], p);
      FilterConcat(b1, b2, p);
      FilterSingleton(x, p);
    }
  }

  /** Filtering two equally long sequences with predicates that agree position by
      position keeps the same number of elements. */
  lemma {:induction false} FilterCountAligned<A(!new), B(!new)>(a: seq<A>, b: seq<B>, p: A -> bool, q: B -> bool)
    requires |a| == |b|
    requires forall i :: 0 <= i < |a| ==> p(a[i]) == q(b[i])
    ensures |Filter(a, p)| == |Filter(b, q)|
    decreases |a|
  {
    if a != [] {
      FilterCountAligned(a[..|a| - 1], b[..|b| - 1], p, q);
    }
  }

  /** Two positions of `s` satisfy `p`. */
  predicate TwoPass<T>(s: seq<T>, p: T -> bool)
  {
    exists i, j :: 0 <= i < j < |s| && p(s[i]) && p(s[j])
  }

  /** The filter of a non-empty sequence, by its last element. */
  lemma FilterLast<T(!new)>(s: seq<T>, p: T -> bool)
    requires s != []
    ensures Filter(s, p) == Filter(s[..|s| - 1], p) + (if p(s[|s| - 1]) then [s[|s| - 1]] else [])
  {
  }

  lemma FilterNonEmpty<T(!new)>(s: seq<T>, p: T -> bool)
    requires |Filter(s, p)| > 0
    ensures exists i :: 0 <= i < |s| && p(s[i])
  {
    assert Filter(s, p)[0] in Filter(s, p);
  }

  lemma TwoPassPrefix<T>(s: seq<T>, p: T -> bool)
    requires s != [] && TwoPass(s[..|s| - 1], p)
    ensures TwoPass(s, p)
  {
    var i, j :| 0 <= i < j < |s| - 1 && p(s[..|s| - 1][i]) && p(s[..|s| - 1][j]);
    assert p(s[i]) && p(s[j]);
  }

  lemma TwoPassWithLast<T(!new)>(s: seq<T>, p: T -> bool)
    requires s != [] && p(s[|s| - 1]) && |Filter(s[..|s| - 1], p)| > 0
    ensures TwoPass(s, p)
  {
    FilterNonEmpty(s[..|s| - 1], p);
    var i :| 0 <= i < |s| - 1 && p(s[..|s| - 1][i]);
    assert p(s[i]) && p(s[|s| - 1]);
  }

  lemma TwoPassFromFilter<T(!new)>(s: seq<T>, p: T -> bool)
    requires s != [] && |Filter(s, p)| > 1
    requires |Filter(s[..|s| - 1], p)| > 1 ==> TwoPass(s[..|s| - 1], p)
    ensures TwoPass(s, p)
  {
    FilterLast(s, p);
    if |Filter(s[..|s| - 1], p)| > 1 {
      TwoPassPrefix(s, p);
    } else {
      TwoPassWithLast(s, p);
    }
  }

  lemma FilterFromTwoPass<T(!new)>(s: seq<T>, p: T -> bool)
    requires s != [] && TwoPass(s, p)
    requires TwoPass(s[..|s| - 1], p) ==> |Filter(s[..|s| - 1], p)| > 1
    ensures |Filter(s, p)| > 1
  {
    var init := s[..|s| - 1];
    FilterLast(s, p);
    var i, j :| 0 <= i < j < |s| && p(s[i]) && p(s[j]);
    if j < |s| - 1 {
      assert init[i] == s[i] && init[j] == s[j];
    } else {
      assert init[i] in Filter(init, p);
    }
  }

  /** More than one element passes the filter exactly when two positions do. */
  lemma {:induction false} FilterMoreThanOne<T(!new)>(s: seq<T>, p: T -> bool)
    ensures |Filter(s, p)| > 1 <==> exists i, j :: 0 <= i < j < |s| && p(s[i]) && p(s[j])
    decreases |s|
  {
    if s != [] {
      FilterMoreThanOne(s[..|s| - 1], p);
      if |Filter(s, p)| > 1 {
        TwoPassFromFilter(s, p);
      }
      if TwoPass(s, p) {
        FilterFromTwoPass(s, p);
      }
    }
  }

  lemma DistinctSnoc<T(!new)>(s: seq<T>)
    requires Distinct(s) && s != []
    ensures Distinct(s[..|s| - 1]) && s[|s| - 1] !in s[..|s| - 1]
  {
  }

  /** `new Set(s)`: the distinct elements of `s` in order of first occurrence. */
  function Dedup<T(==,!new)>(s: seq<T>): (r: seq<T>)
    ensures Distinct(r)
    ensures forall x :: x in r <==> x in s
    ensures |r| <= |s|
    decreases |s|
  {
    if s == [] then []
    else
      var init := Dedup(s[..|s| - 1]);
      assert s == s[..|s| - 1] + [s[|s| - 1]];
      if s[|s| - 1] in init then init else init + [s[|s| - 1]]
  }

  /** `new Set(s)` keeps the elements in the order they first occur. */
  lemma {:induction false} DedupIsSubseq<T(!new)>(s: seq<T>)
    ensures IsSubseq(Dedup(s), s)
    decreases |s|
  {
    if s != [] {
      var init := Dedup(s[..|s| - 1]);
      DedupIsSubseq(s[..|s| - 1]);
      if s[|s| - 1] !in init {
        assert (init + [s[|s| - 1]])[..|init|] == init;
      }
    }
  }

  lemma {:induction false} SetOfSeqCard<T(!new)>(s: seq<T>)
    ensures |set x | x in s| <= |s|
    ensures Distinct(s) ==> |set x | x in s| == |s|
    decreases |s|
  {
    if s != [] {
      var init := s[..|s| - 1];
      var last := s[|s| - 1];
      SetOfSeqCard(init);
      assert s == init + [last];
      assert (set x | x in s) == (set x | x in init) + {last};
      if Distinct(s) {
        assert Distinct(init);
        assert last !in (set x | x in init);
      }
    }
  }

  /** `new Set(s).size === s.length` exactly when `s` has no repeated element. */
  lemma DistinctIffSetCard<T(!new)>(s: seq<T>)
    ensures Distinct(s) <==> |set x | x in s| == |s|
  {
    SetOfSeqCard(s);
    if !Distinct(s) {
      var i, j :| 0 <= i < j < |s| && s[i] == s[j];
      var t := s[..j] + s[j + 1..];
      assert (set x | x in s) == (set x | x in t) by {
        assert s == s[..j] + [s[j]] + s[j + 1..];
        assert s[j] == t[i];
      }
      SetOfSeqCard(t);
    }
  }

  /** A subset as large as its superset is the whole superset. */
  lemma SubsetSameCard<T(!new)>(a: set<T>, b: set<T>)
    requires a <= b && |a| == |b|
    ensures a == b
  {
    assert b == a + (b - a);
    assert |b - a| == 0;
  }
}
