/** Generic single-pass operations on sequences: the list comprehension with a
    condition (`Filter`) and the element-wise `map` (`MapSeq`), together with the
    order-preserving subsequence relation that specifies them. */
module Sequences {

  /** `r` can be obtained from `s` by deleting elements, keeping the order of
      the rest. */
  ghost predicate IsSubsequence<T>(r: seq<T>, s: seq<T>)
    decreases |s|
  {
    if r == [] then true
    else if s == [] then false
    else (r[0] == s[0] && IsSubsequence(r[1..], s[1..])) || IsSubsequence(r, s[1..])
  }

  /** Every subsequence draws its elements, with multiplicity, from the sequence. */
  lemma {:induction false} SubsequenceMultiset<T>(r: seq<T>, s: seq<T>)
    requires IsSubsequence(r, s)
    ensures multiset(r) <= multiset(s)
    decreases |s|
  {
    if r == [] {
    } else if r[0] == s[0] && IsSubsequence(r[1..], s[1..]) {
      SubsequenceMultiset(r[1..], s[1..]);
      assert r == [r[0]] + r[1..];
      assert s == [s[0]] + s[1..];
    } else {
      SubsequenceMultiset(r, s[1..]);
      assert s == [s[0]] + s[1..];
    }
  }

  /** The elements of `s` for which `keep` holds, in their original order
      (`[x for x in s if keep(x)]`). */
  function Filter<T(!new)>(s: seq<T>, keep: T -> bool): (r: seq<T>)
    ensures |r| <= |s|
    ensures IsSubsequence(r, s)
    ensures forall x :: x in r <==> x in s && keep(x)
    ensures forall x {:trigger multiset(r)[x]} :: multiset(r)[x] == if keep(x) then multiset(s)[x] else 0
  {
    if s == [] then []
    else
      var rest := Filter(s[1..], keep);
      assert s == [s[0]] + s[1..];
      if keep(s[0]) then [s[0]] + rest else rest
  }

  /** One step of `Filter`: the first element is kept or dropped, then the
      rest is filtered. */
  lemma FilterCons<T(!new)>(x: T, s: seq<T>, keep: T -> bool)
    ensures Filter([x] + s, keep) == (if keep(x) then [x] else []) + Filter(s, keep)
  {
    assert ([x] + s)[1..] == s;
  }

  /** The contract of `Filter` determines its result: a subsequence of `s` that
      holds every kept element with its full multiplicity, and nothing else,
      is `Filter(s, keep)`. */
  lemma {:induction false} FilterUnique<T(!new)>(s: seq<T>, keep: T -> bool, r: seq<T>)
    requires IsSubsequence(r, s)
    requires forall x :: multiset(r)[x] == if keep(x) then multiset(s)[x] else 0
    ensures r == Filter(s, keep)
    decreases |s|
  {
    if s == [] {
    } else {
      var a, s' := s[0], s[1..];
      assert s == [a] + s';
      if r == [] {
        var f := Filter(s, keep);
        forall x ensures multiset(f)[x] == multiset(r)[x] {
        }
        assert multiset(f) == multiset(r);
      } else if keep(a) {
        if !(r[0] == a && IsSubsequence(r[1..], s')) {
          assert IsSubsequence(r, s');
          SubsequenceMultiset(r, s');
          assert false;
        }
        assert r == [a] + r[1..];
        forall x ensures multiset(r[1..])[x] == if keep(x) then multiset(s')[x] else 0 {
          assert multiset(r)[x] == multiset([a])[x] + multiset(r[1..])[x];
        }
        FilterUnique(s', keep, r[1..]);
      } else {
        assert multiset(r)[a] == 0;
        assert r[0] in r;
        assert r[0] != a;
        forall x ensures multiset(r)[x] == if keep(x) then multiset(s')[x] else 0 {
          assert multiset(s)[x] == multiset([a])[x] + multiset(s')[x];
        }
        FilterUnique(s', keep, r);
      }
    }
  }

  /** Two conditions that agree on every element of `s` select the same elements. */
  lemma FilterAgreeing<T(!new)>(s: seq<T>, keep1: T -> bool, keep2: T -> bool)
    requires forall x :: x in s ==> keep1(x) == keep2(x)
    ensures Filter(s, keep1) == Filter(s, keep2)
  {
    var r := Filter(s, keep1);
    forall x ensures multiset(r)[x] == if keep2(x) then multiset(s)[x] else 0 {
      if x !in s {
        assert multiset(r)[x] == 0;
      }
    }
    FilterUnique(s, keep2, r);
  }

  /** Filtering a second time with the same condition changes nothing. */
  lemma FilterIdempotent<T(!new)>(s: seq<T>, keep: T -> bool)
    ensures Filter(Filter(s, keep), keep) == Filter(s, keep)
  {
    var r := Filter(s, keep);
    FilterAgreeing(r, keep, x => true);
    FilterAll(r);
  }

  /** A condition that holds everywhere keeps the whole sequence. */
  lemma {:induction false} FilterAll<T(!new)>(s: seq<T>)
    ensures Filter(s, x => true) == s
  {
    var r := Filter(s, x => true);
    assert IsSubsequence(s, s) by { SubsequenceReflexive(s); }
    FilterUnique(s, x => true, s);
  }

  /** Every sequence is a subsequence of itself. */
  lemma {:induction false} SubsequenceReflexive<T>(s: seq<T>)
    ensures IsSubsequence(s, s)
    decreases |s|
  {
    if s != [] {
      SubsequenceReflexive(s[1..]);
    }
  }

  /** Filtering a concatenation filters each part. */
  lemma {:induction false} FilterAppend<T(!new)>(a: seq<T>, b: seq<T>, keep: T -> bool)
    ensures Filter(a + b, keep) == Filter(a, keep) + Filter(b, keep)
    decreases |a|
  {
    if a == [] {
      assert a + b == b;
    } else {
      assert (a + b)[1..] == a[1..] + b;
      FilterAppend(a[1..], b, keep);
    }
  }

  /** A weaker condition keeps at least as many elements. */
  lemma {:induction false} FilterLengthMonotone<T(!new)>(s: seq<T>, keep1: T -> bool, keep2: T -> bool)
    requires forall x :: keep1(x) ==> keep2(x)
    ensures |Filter(s, keep1)| <= |Filter(s, keep2)|
    decreases |s|
  {
    if s != [] {
      FilterLengthMonotone(s[1..], keep1, keep2);
    }
  }

  /** `f` applied to every element of `s`, in order (`list(map(f, s))`). */
  function MapSeq<T, U>(s: seq<T>, f: T -> U): (r: seq<U>)
    ensures |r| == |s|
    ensures forall i :: 0 <= i < |s| ==> r[i] == f(s[i])
  {
    if s == [] then [] else [f(s[0])] + MapSeq(s[1..], f)
  }

  /** Mapping the identity gives back the sequence. */
  lemma MapIdentity<T>(s: seq<T>, f: T -> T)
    requires forall x :: f(x) == x
    ensures MapSeq(s, f) == s
  {
  }
}
