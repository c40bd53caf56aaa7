/** Sequence utilities: order-preserving filtering, first-occurrence de-duplication
    and the subsequence relation that states "order is preserved". */
module Seqs {

  /** No element occurs twice. */
  predicate Distinct<T(==)>(s: seq<T>) {
    forall i, j :: 0 <= i < j < |s| ==> s[i] != s[j]
  }

  /** `a` can be obtained from `b` by deleting elements (greedy match from the back). */
  predicate IsSubsequence<T(==)>(a: seq<T>, b: seq<T>)
    decreases |b|
  {
    if |a| == 0 then true
    else if |b| == 0 then false
    else if a[|a| - 1] == b[|b| - 1] then IsSubsequence(a[..|a| - 1], b[..|b| - 1])
    else IsSubsequence(a, b[..|b| - 1])
  }

  /** Appending to the larger sequence keeps a subsequence a subsequence. */
  lemma {:induction false} SubsequenceExtend<T>(a: seq<T>, b: seq<T>, x: T)
    requires IsSubsequence(a, b)
    ensures IsSubsequence(a, b + [x])
    decreases |b|, 1
  {
    var b' := b + [x];
    assert b'[..|b'| - 1] == b;
    if |a| > 0 && a[|a| - 1] == x {
      // the greedy match pairs x with the last element of a
      SubsequenceDropLast(a, b);
    }
  }

  /** Dropping the last element of the smaller sequence keeps a subsequence. */
  lemma {:induction false} SubsequenceDropLast<T>(a: seq<T>, b: seq<T>)
    requires |a| > 0 && IsSubsequence(a, b)
    ensures IsSubsequence(a[..|a| - 1], b)
    decreases |b|, 0
  {
    var a' := a[..|a| - 1];
    if |a'| > 0 {
      if a[|a| - 1] == b[|b| - 1] {
        SubsequenceExtend(a', b[..|b| - 1], b[|b| - 1]);
        assert b[..|b| - 1] + [b[|b| - 1]] == b;
      } else {
        SubsequenceDropLast(a, b[..|b| - 1]);
        SubsequenceExtend(a', b[..|b| - 1], b[|b| - 1]);
        assert b[..|b| - 1] + [b[|b| - 1]] == b;
      }
    }
  }

  /** Python's `[x for x in s if p(x)]`: keeps exactly the elements satisfying `p`. */
  function Filter<T(==,!new)>(p: T -> bool, s: seq<T>): (r: seq<T>)
    ensures |r| <= |s|
  {
    if |s| == 0 then []
    else
      var init := s[..|s| - 1];
      var last := s[|s| - 1];
      assert s == init + [last];
      Filter(p, init) + (if p(last) then [last] else [])
  }

  /** An element survives filtering iff it occurs and qualifies. */
  lemma {:induction false} FilterContains<T(!new)>(p: T -> bool, s: seq<T>)
    ensures forall x :: x in Filter(p, s) <==> x in s && p(x)
  {
    if |s| > 0 {
      FilterContains(p, s[..|s| - 1]);
      assert s == s[..|s| - 1] + [s[|s| - 1]];
    }
  }

  /** Filtering keeps each qualifying element as often as it occurs, and drops
      every other one. */
  lemma {:induction false} FilterCounts<T(!new)>(p: T -> bool, s: seq<T>)
    ensures forall x :: multiset(Filter(p, s))[x] == if p(x) then multiset(s)[x] else 0
  {
    if |s| > 0 {
      var init := s[..|s| - 1];
      FilterCounts(p, init);
      assert s == init + [s[|s| - 1]];
    }
  }

  /** Filtering keeps the original order. */
  lemma {:induction false} FilterSubsequence<T(!new)>(p: T -> bool, s: seq<T>)
    ensures IsSubsequence(Filter(p, s), s)
  {
    if |s| > 0 {
      var init := s[..|s| - 1];
      var last := s[|s| - 1];
      var r0 := Filter(p, init);
      FilterSubsequence(p, init);
      assert s == init + [last];
      if p(last) {
        var r := r0 + [last];
        assert r[..|r| - 1] == r0;
      } else {
        assert Filter(p, s) == r0;
        SubsequenceExtend(r0, init, last);
      }
    }
  }

  /** Filtering by `p` and by its negation `q` splits `s` into two parts whose
      multisets add up to that of `s`. */
  lemma FilterPartition<T(!new)>(p: T -> bool, q: T -> bool, s: seq<T>)
    requires forall x :: q(x) == !p(x)
    ensures multiset(Filter(p, s)) + multiset(Filter(q, s)) == multiset(s)
  {
    var a, b := Filter(p, s), Filter(q, s);
    FilterCounts(p, s);
    FilterCounts(q, s);
    assert forall x :: (multiset(a) + multiset(b))[x] == multiset(s)[x];
  }

  /** Keeps the first occurrence of every element, in order: the key order of a
      Python dict filled by assigning these keys one after another. */
  function Dedup<T(==,!new)>(s: seq<T>): seq<T>
  {
    if |s| == 0 then []
    else
      var r0 := Dedup(s[..|s| - 1]);
      if s[|s| - 1] in r0 then r0 else r0 + [s[|s| - 1]]
  }

  /** De-duplication keeps exactly the elements that occur. */
  lemma {:induction false} DedupContains<T(!new)>(s: seq<T>)
    ensures forall x :: x in Dedup(s) <==> x in s
  {
    if |s| > 0 {
      DedupContains(s[..|s| - 1]);
      assert s == s[..|s| - 1] + [s[|s| - 1]];
    }
  }

  /** De-duplication keeps the order of first occurrences. */
  lemma {:induction false} DedupSubsequence<T(!new)>(s: seq<T>)
    ensures IsSubsequence(Dedup(s), s)
  {
    if |s| > 0 {
      var init := s[..|s| - 1];
      var last := s[|s| - 1];
      var r0 := Dedup(init);
      DedupSubsequence(init);
      assert s == init + [last];
      if last in r0 {
        SubsequenceExtend(r0, init, last);
      } else {
        var r := r0 + [last];
        assert r[..|r| - 1] == r0;
      }
    }
  }

  /** No element survives de-duplication twice. */
  lemma {:induction false} DedupIsDistinct<T(!new)>(s: seq<T>)
    ensures Distinct(Dedup(s))
  {
    if |s| > 0 {
      DedupIsDistinct(s[..|s| - 1]);
      assert s == s[..|s| - 1] + [s[|s| - 1]];
    }
  }

  /** One step of `Dedup`: appending an element adds it at the end iff it is new. */
  lemma DedupSnoc<T(!new)>(s: seq<T>, x: T)
    ensures Dedup(s + [x]) == if x in s then Dedup(s) else Dedup(s) + [x]
  {
    DedupContains(s);
    assert (s + [x])[..|s + [x]| - 1] == s;
  }

  /** De-duplicating a sequence without repetitions changes nothing. */
  lemma {:induction false} DedupDistinct<T(!new)>(s: seq<T>)
    requires Distinct(s)
    ensures Dedup(s) == s
  {
    if |s| > 0 {
      var init := s[..|s| - 1];
      assert Distinct(init);
      DedupDistinct(init);
      assert s == init + [s[|s| - 1]];
    }
  }

  /** Filling a dict in two rounds gives the same key order as filling it with
      both rounds' keys at once. */
  lemma {:induction false} DedupMerge<T(!new)>(a: seq<T>, b: seq<T>)
    ensures Dedup(Dedup(a) + b) == Dedup(a + b)
  {
    if |b| == 0 {
      assert Dedup(a) + b == Dedup(a) && a + b == a;
      DedupIsDistinct(a);
      DedupDistinct(Dedup(a));
    } else {
      var init, x := b[..|b| - 1], b[|b| - 1];
      DedupMerge(a, init);
      assert Dedup(a) + b == (Dedup(a) + init) + [x];
      assert a + b == (a + init) + [x];
      DedupSnoc(Dedup(a) + init, x);
      DedupSnoc(a + init, x);
      DedupContains(a);
    }
  }

  /** Filtering a sequence whose elements all qualify changes nothing. */
  lemma {:induction false} FilterAll<T(!new)>(p: T -> bool, s: seq<T>)
    requires forall i :: 0 <= i < |s| ==> p(s[i])
    ensures Filter(p, s) == s
  {
    if |s| > 0 {
      FilterAll(p, s[..|s| - 1]);
      assert s[..|s| - 1] + [s[|s| - 1]] == s;
    }
  }

  /** One step of `Filter`: appending an element appends it to the result iff it qualifies. */
  lemma FilterSnoc<T(!new)>(p: T -> bool, s: seq<T>, x: T)
    ensures Filter(p, s + [x]) == Filter(p, s) + (if p(x) then [x] else [])
  {
    assert (s + [x])[..|s + [x]| - 1] == s;
  }
}
