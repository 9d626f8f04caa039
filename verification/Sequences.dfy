// Facts about sequences that several modules share.
module Sequences {

  predicate Distinct<T(==)>(s: seq<T>) {
    forall i, j | 0 <= i < j < |s| :: s[i] != s[j]
  }

  lemma DistinctStep<T>(s: seq<T>, x: T)
    ensures Distinct(s + [x]) <==> Distinct(s) && x !in s
  {
    var t := s + [x];
    assert forall k | 0 <= k < |s| :: t[k] == s[k];
    assert t[|s|] == x;
    if Distinct(t) {
      assert forall i, j | 0 <= i < j < |s| :: s[i] == t[i] && s[j] == t[j];
    }
  }

  lemma Assoc<T>(a: seq<T>, b: seq<T>, c: seq<T>)
    ensures (a + b) + c == a + (b + c)
  {}

  lemma InConcat<T>(x: T, all: seq<T>, a: seq<T>, b: seq<T>)
    requires all == a + b
    ensures x in all <==> x in a || x in b
  {}

  /** The elements of `s` that satisfy `keep`, in order. */
  function Filter<T>(s: seq<T>, keep: T -> bool): seq<T> {
    if s == [] then []
    else Filter(s[..|s| - 1], keep) + (if keep(s[|s| - 1]) then [s[|s| - 1]] else [])
  }

  lemma {:induction false} FilterDistinct<T>(s: seq<T>, keep: T -> bool)
    requires Distinct(s)
    ensures Distinct(Filter(s, keep))
  {
    if s != [] {
      var n := |s| - 1;
      FilterDistinct(s[..n], keep);
      FilterMember(s[..n], keep, s[n]);
      assert s == s[..n] + [s[n]];
      DistinctStep(s[..n], s[n]);
      DistinctStep(Filter(s[..n], keep), s[n]);
    }
  }

  lemma {:induction false} FilterAgrees<T(!new)>(s: seq<T>, p: T -> bool, q: T -> bool)
    requires forall x | x in s :: p(x) == q(x)
    ensures Filter(s, p) == Filter(s, q)
  {
    if s != [] {
      FilterAgrees(s[..|s| - 1], p, q);
    }
  }

  lemma {:induction false} DistinctMultiplicity<T>(s: seq<T>, x: T)
    requires Distinct(s)
    ensures multiset(s)[x] == if x in s then 1 else 0
  {
    if s != [] {
      var n := |s| - 1;
      assert s == s[..n] + [s[n]];
      DistinctStep(s[..n], s[n]);
      DistinctMultiplicity(s[..n], x);
    }
  }

  /** Two sequences without repetitions that have the same elements are permutations of each other. */
  lemma DistinctPermutation<T(!new)>(s: seq<T>, t: seq<T>)
    requires Distinct(s) && Distinct(t)
    requires forall x :: x in s <==> x in t
    ensures multiset(s) == multiset(t)
    ensures |s| == |t|
  {
    forall x ensures multiset(s)[x] == multiset(t)[x] {
      DistinctMultiplicity(s, x);
      DistinctMultiplicity(t, x);
    }
    assert |multiset(s)| == |s| && |multiset(t)| == |t|;
  }

  lemma {:induction false} FilterMember<T>(s: seq<T>, keep: T -> bool, x: T)
    ensures x in Filter(s, keep) <==> x in s && keep(x)
  {
    if s != [] {
      FilterMember(s[..|s| - 1], keep, x);
      assert s == s[..|s| - 1] + [s[|s| - 1]];
    }
  }

  lemma FilterStep<T>(s: seq<T>, x: T, keep: T -> bool)
    ensures Filter(s + [x], keep) == Filter(s, keep) + (if keep(x) then [x] else [])
  {
    assert (s + [x])[..|s|] == s;
  }

  lemma FilterOne<T>(x: T, keep: T -> bool)
    ensures Filter([x], keep) == if keep(x) then [x] else []
  {
    assert [x][..0] == [];
    assert Filter([], keep) == [];
  }

  lemma FilterConcatStep<T>(a: seq<T>, init: seq<T>, last: T, keep: T -> bool)
    requires Filter(a + init, keep) == Filter(a, keep) + Filter(init, keep)
    ensures Filter(a + (init + [last]), keep) == Filter(a, keep) + Filter(init + [last], keep)
  {
    var kept := if keep(last) then [last] else [];
    FilterStep(a + init, last, keep);
    FilterStep(init, last, keep);
    Assoc(a, init, [last]);
    Assoc(Filter(a, keep), Filter(init, keep), kept);
  }

  lemma {:induction false} FilterConcat<T>(a: seq<T>, b: seq<T>, keep: T -> bool)
    ensures Filter(a + b, keep) == Filter(a, keep) + Filter(b, keep)
  {
    if b == [] {
      assert a + b == a;
    } else {
      var init, last := b[..|b| - 1], b[|b| - 1];
      FilterConcat(a, init, keep);
      FilterConcatStep(a, init, last, keep);
      assert b == init + [last];
    }
  }

  lemma {:induction false} FilterShortens<T>(s: seq<T>, keep: T -> bool)
    ensures |Filter(s, keep)| <= |s|
    ensures Filter(s, keep) == s <==> forall x | x in s :: keep(x)
    ensures |Filter(s, keep)| == |s| <==> forall x | x in s :: keep(x)
  {
    if s != [] {
      var n := |s| - 1;
      FilterShortens(s[..n], keep);
      assert s == s[..n] + [s[n]];
      if keep(s[n]) && Filter(s, keep) == s {
        assert Filter(s, keep)[..n] == Filter(s[..n], keep);
      }
    }
  }
}
