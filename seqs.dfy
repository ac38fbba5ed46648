/** Searches and counts over collections, shared by the controllers' store lookups
    (`findOne`, `findIndex`, `filter(...).length`, `countDocuments`). */
module Seqs {
  import opened Wrappers

  /** Index of the first element satisfying `p`, as `Array.prototype.findIndex` or a
      `findOne` that returns the first matching document in collection order. */
  function FirstIndex<T>(s: seq<T>, p: T -> bool): (r: Option<nat>)
    ensures r.Some? ==> r.value < |s| && p(s[r.value])
    ensures r.Some? ==> forall j :: 0 <= j < r.value ==> !p(s[j])
    ensures r.None? <==> forall j :: 0 <= j < |s| ==> !p(s[j])
  {
    if s == [] then None
    else if p(s[0]) then Some(0)
    else match FirstIndex(s[1..], p)
      case None => None
      case Some(k) => Some(k + 1)
  }

  /** Number of elements satisfying `p`, as `filter(p).length` or `countDocuments`. */
  function Count<T>(s: seq<T>, p: T -> bool): (n: nat)
    ensures n <= |s|
    ensures n == 0 <==> forall j :: 0 <= j < |s| ==> !p(s[j])
  {
    if s == [] then 0 else (if p(s[0]) then 1 else 0) + Count(s[1..], p)
  }

  /** The elements satisfying `p`, in order, as `Array.prototype.filter` or a `find` query. */
  function Filter<T>(s: seq<T>, p: T -> bool): (r: seq<T>)
    ensures |r| == Count(s, p)
  {
    if s == [] then [] else (if p(s[0]) then [s[0]] else []) + Filter(s[1..], p)
  }

  /** Every element kept satisfies `p`. */
  lemma {:induction false} FilterKeepsOnly<T>(s: seq<T>, p: T -> bool)
    ensures forall i :: 0 <= i < |Filter(s, p)| ==> p(Filter(s, p)[i])
  {
    if s != [] {
      FilterKeepsOnly(s[1..], p);
    }
  }

  /** Appending one element raises the count by one exactly when it satisfies `p`. */
  lemma {:induction false} CountSnoc<T>(s: seq<T>, x: T, p: T -> bool)
    ensures Count(s + [x], p) == Count(s, p) + (if p(x) then 1 else 0)
  {
    if s == [] {
      assert s + [x] == [x];
    } else {
      assert (s + [x])[1..] == s[1..] + [x];
      CountSnoc(s[1..], x, p);
    }
  }

  /** A weaker predicate never counts fewer elements. */
  lemma {:induction false} CountMonotone<T>(s: seq<T>, p: T -> bool, q: T -> bool)
    requires forall x :: p(x) ==> q(x)
    ensures Count(s, p) <= Count(s, q)
  {
    if s != [] {
      CountMonotone(s[1..], p, q);
    }
  }

  /** Every element removed: `s.filter(y => y != x)`, keeping the order of the others. */
  function RemoveAll<T(==)>(s: seq<T>, x: T): (r: seq<T>)
    ensures |r| <= |s|
  {
    if s == [] then []
    else if s[0] == x then RemoveAll(s[1..], x)
    else [s[0]] + RemoveAll(s[1..], x)
  }

  /** Filtering distributes over concatenation, so the remaining elements keep their order. */
  lemma {:induction false} RemoveAllAppend<T>(a: seq<T>, b: seq<T>, x: T)
    ensures RemoveAll(a + b, x) == RemoveAll(a, x) + RemoveAll(b, x)
  {
    if a == [] {
      assert a + b == b;
    } else {
      assert (a + b)[1..] == a[1..] + b;
      RemoveAllAppend(a[1..], b, x);
    }
  }

  /** Filtering removes exactly the occurrences of `x`: every other value keeps its multiplicity. */
  lemma {:induction false} RemoveAllMultiset<T>(s: seq<T>, x: T)
    ensures multiset(RemoveAll(s, x)) == multiset(s)[x := 0]
    ensures x !in RemoveAll(s, x)
  {
    if s != [] {
      RemoveAllMultiset(s[1..], x);
      assert s == [s[0]] + s[1..];
      assert multiset(s) == multiset{s[0]} + multiset(s[1..]);
      if s[0] != x {
        assert RemoveAll(s, x) == [s[0]] + RemoveAll(s[1..], x);
        assert multiset(RemoveAll(s, x)) == multiset{s[0]} + multiset(RemoveAll(s[1..], x));
      } else {
        assert RemoveAll(s, x) == RemoveAll(s[1..], x);
      }
    }
    assert x !in multiset(RemoveAll(s, x));
  }

  /** `r` is `s` with some elements left out, the others in their order. */
  predicate IsSubsequence<T(==)>(r: seq<T>, s: seq<T>)
    decreases |s|
  {
    if r == [] then true
    else if s == [] then false
    else (r[0] == s[0] && IsSubsequence(r[1..], s[1..])) || IsSubsequence(r, s[1..])
  }

  /** Filtering keeps the remaining elements in their order. */
  lemma {:induction false} RemoveAllKeepsOrder<T>(s: seq<T>, x: T)
    ensures IsSubsequence(RemoveAll(s, x), s)
  {
    if s != [] {
      RemoveAllKeepsOrder(s[1..], x);
      if s[0] != x {
        assert RemoveAll(s, x)[1..] == RemoveAll(s[1..], x);
      }
    }
  }

  /** A subsequence holds no more copies of any value than the sequence. */
  lemma {:induction false} SubsequenceMultiset<T>(r: seq<T>, s: seq<T>)
    requires IsSubsequence(r, s)
    ensures multiset(r) <= multiset(s)
    decreases |s|
  {
    if r != [] {
      assert s == [s[0]] + s[1..];
      if r[0] == s[0] && IsSubsequence(r[1..], s[1..]) {
        SubsequenceMultiset(r[1..], s[1..]);
        assert r == [r[0]] + r[1..];
      } else {
        SubsequenceMultiset(r, s[1..]);
      }
    }
  }

  /** Filtering is the only way to drop every `x` while keeping the order and every other
      element: a subsequence with the multiset of `RemoveAll` is `RemoveAll`. */
  lemma {:induction false} RemoveAllUnique<T>(r: seq<T>, s: seq<T>, x: T)
    requires IsSubsequence(r, s) && multiset(r) == multiset(s)[x := 0]
    ensures r == RemoveAll(s, x)
    decreases |s|
  {
    if s == [] {
      assert multiset(r) == multiset{};
    } else {
      assert s == [s[0]] + s[1..];
      assert multiset(s) == multiset{s[0]} + multiset(s[1..]);
      if s[0] == x {
        if r != [] {
          assert r[0] in multiset(r);
        }
        assert multiset(s[1..])[x := 0] == multiset(s)[x := 0];
        RemoveAllUnique(r, s[1..], x);
      } else {
        assert multiset(r)[s[0]] == multiset(s)[s[0]] == multiset(s[1..])[s[0]] + 1;
        if r != [] && r[0] == s[0] && IsSubsequence(r[1..], s[1..]) {
          assert r == [r[0]] + r[1..];
          assert multiset(r) == multiset{s[0]} + multiset(r[1..]);
          forall y
            ensures multiset(r[1..])[y] == multiset(s[1..])[x := 0][y]
          {
            assert multiset(r)[y] == multiset(r[1..])[y] + (if y == s[0] then 1 else 0);
          }
          assert multiset(r[1..]) == multiset(s[1..])[x := 0];
          RemoveAllUnique(r[1..], s[1..], x);
        } else {
          SubsequenceMultiset(r, s[1..]);
          assert false;
        }
      }
    }
  }
}
