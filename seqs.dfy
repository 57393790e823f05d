/**
 * Generic facts about sequences used by the quote store: duplicate-freedom,
 * subsequences, first index of an element, order-preserving filtering and
 * "append unless already present" (the loop the store uses both to import
 * quotes and, through a JavaScript Set, to list categories).
 */
module Seqs {

  /** No element occurs twice in `s`. */
  ghost predicate NoDup<T>(s: seq<T>) {
    forall i, j :: 0 <= i < j < |s| ==> s[i] != s[j]
  }

  /** `a` is obtained from `b` by deleting elements, keeping relative order. */
  ghost predicate SubseqOf<T>(a: seq<T>, b: seq<T>)
    decreases |b|
  {
    if |b| == 0 then |a| == 0
    else
      SubseqOf(a, b[..|b| - 1])
      || (|a| > 0 && a[|a| - 1] == b[|b| - 1] && SubseqOf(a[..|a| - 1], b[..|b| - 1]))
  }

  /** The first position of `x` in `s`, or -1 (Array.prototype.findIndex / indexOf). */
  function IndexOf<T(==)>(s: seq<T>, x: T): (r: int)
    ensures -1 <= r < |s|
    ensures r == -1 <==> x !in s
    ensures 0 <= r ==> s[r] == x && x !in s[..r]
  {
    if |s| == 0 then -1
    else if s[0] == x then 0
    else
      var k := IndexOf(s[1..], x);
      assert s == [s[0]] + s[1..];
      if k == -1 then -1
      else
        assert s[..k + 1] == [s[0]] + s[1..][..k];
        k + 1
  }

  /** Any position holding the first occurrence of `x` is `IndexOf(s, x)`. */
  lemma IndexOfUnique<T>(s: seq<T>, x: T, i: int)
    requires 0 <= i < |s| && s[i] == x && x !in s[..i]
    ensures IndexOf(s, x) == i
  {
  }

  /** Appending an element does not move the first occurrence of anything already present. */
  lemma IndexOfAppend<T>(s: seq<T>, v: T, x: T)
    ensures x in s ==> IndexOf(s + [v], x) == IndexOf(s, x)
    ensures x !in s && x == v ==> IndexOf(s + [v], x) == |s|
  {
    if x in s {
      var i := IndexOf(s, x);
      assert (s + [v])[..i] == s[..i];
      IndexOfUnique(s + [v], x, i);
    } else if x == v {
      assert (s + [v])[..|s|] == s;
      IndexOfUnique(s + [v], x, |s|);
    }
  }

  /**
   * Scans `vs` from left to right and appends each element to `acc` unless
   * an equal element is already there (the list grows as the scan goes, so
   * duplicates inside `vs` are suppressed too).
   */
  function AppendNew<T(==)>(acc: seq<T>, vs: seq<T>): (r: seq<T>)
    ensures |r| <= |acc| + |vs|
    decreases |vs|
  {
    if |vs| == 0 then acc
    else
      var r := AppendNew(acc, vs[..|vs| - 1]);
      if vs[|vs| - 1] in r then r else r + [vs[|vs| - 1]]
  }

  /** The old list survives as a prefix. */
  lemma {:induction false} AppendNewKeepsPrefix<T>(acc: seq<T>, vs: seq<T>)
    ensures |acc| <= |AppendNew(acc, vs)|
    ensures AppendNew(acc, vs)[..|acc|] == acc
    decreases |vs|
  {
    if |vs| > 0 {
      AppendNewKeepsPrefix(acc, vs[..|vs| - 1]);
    }
  }

  /**
   * Every element keeps its multiplicity from `acc`; an element new to `acc`
   * occurs exactly once if `vs` has it, and not at all otherwise.
   */
  lemma {:induction false} AppendNewCounts<T>(acc: seq<T>, vs: seq<T>)
    ensures forall x :: multiset(AppendNew(acc, vs))[x]
                        == if x in acc then multiset(acc)[x] else if x in vs then 1 else 0
    decreases |vs|
  {
    if |vs| > 0 {
      var init, v := vs[..|vs| - 1], vs[|vs| - 1];
      assert vs == init + [v];
      AppendNewCounts(acc, init);
      var r := AppendNew(acc, init);
      if v in r {
        assert multiset(r)[v] > 0;
      }
    }
  }

  /** An element is in the merged list exactly when it was in either input. */
  lemma AppendNewMembers<T>(acc: seq<T>, vs: seq<T>)
    ensures forall x :: x in AppendNew(acc, vs) <==> x in acc || x in vs
  {
    AppendNewCounts(acc, vs);
    forall x ensures x in AppendNew(acc, vs) <==> x in acc || x in vs {
      assert x in AppendNew(acc, vs) <==> multiset(AppendNew(acc, vs))[x] > 0;
      assert x in acc <==> multiset(acc)[x] > 0;
    }
  }

  /** Merging never turns a duplicate-free list into one with duplicates. */
  lemma {:induction false} AppendNewNoDup<T>(acc: seq<T>, vs: seq<T>)
    requires NoDup(acc)
    ensures NoDup(AppendNew(acc, vs))
    decreases |vs|
  {
    if |vs| > 0 {
      AppendNewNoDup(acc, vs[..|vs| - 1]);
      var r, v := AppendNew(acc, vs[..|vs| - 1]), vs[|vs| - 1];
      if v !in r {
        forall i, j | 0 <= i < j < |r + [v]| ensures (r + [v])[i] != (r + [v])[j] {
          if j == |r| {
            assert (r + [v])[i] == r[i];
          }
        }
      }
    }
  }

  /**
   * The appended elements come from `vs`, were absent from `acc`, and stand
   * in the order of their first appearance in `vs`.
   */
  lemma {:induction false} AppendNewOrder<T>(acc: seq<T>, vs: seq<T>)
    ensures forall i :: |acc| <= i < |AppendNew(acc, vs)| ==>
              AppendNew(acc, vs)[i] in vs && AppendNew(acc, vs)[i] !in acc
    ensures forall i, j :: |acc| <= i < j < |AppendNew(acc, vs)| ==>
              IndexOf(vs, AppendNew(acc, vs)[i]) < IndexOf(vs, AppendNew(acc, vs)[j])
    decreases |vs|
  {
    if |vs| > 0 {
      var init, v := vs[..|vs| - 1], vs[|vs| - 1];
      assert vs == init + [v];
      AppendNewOrder(acc, init);
      AppendNewKeepsPrefix(acc, init);
      AppendNewMembers(acc, init);
      var r := AppendNew(acc, init);
      forall i | |acc| <= i < |r| ensures IndexOf(vs, r[i]) == IndexOf(init, r[i]) < |init| {
        IndexOfAppend(init, v, r[i]);
      }
      if v !in r {
        var r' := r + [v];
        assert v !in init && v !in acc;
        IndexOfAppend(init, v, v);
        forall i | |acc| <= i < |r'| ensures r'[i] in vs && r'[i] !in acc {
          if i < |r| { assert r'[i] == r[i]; }
        }
        forall i, j | |acc| <= i < j < |r'| ensures IndexOf(vs, r'[i]) < IndexOf(vs, r'[j]) {
          assert r'[i] == r[i];
          if j < |r| { assert r'[j] == r[j]; }
        }
      }
    }
  }

  /** When every element of `vs` is already present, merging changes nothing. */
  lemma {:induction false} AppendNewAllPresent<T>(acc: seq<T>, vs: seq<T>)
    requires forall k :: 0 <= k < |vs| ==> vs[k] in acc
    ensures AppendNew(acc, vs) == acc
    decreases |vs|
  {
    if |vs| > 0 {
      AppendNewAllPresent(acc, vs[..|vs| - 1]);
      assert vs[|vs| - 1] in acc;
    }
  }

  /** When `acc + vs` has no duplicates, merging is plain concatenation. */
  lemma {:induction false} AppendNewDistinct<T>(acc: seq<T>, vs: seq<T>)
    requires NoDup(acc + vs)
    ensures AppendNew(acc, vs) == acc + vs
    decreases |vs|
  {
    if |vs| > 0 {
      var init, v := vs[..|vs| - 1], vs[|vs| - 1];
      assert (acc + init) == (acc + vs)[..|acc| + |init|];
      assert NoDup(acc + init);
      AppendNewDistinct(acc, init);
      assert acc + vs == (acc + init) + [v];
      forall k | 0 <= k < |acc + init| ensures (acc + init)[k] != v {
        assert (acc + init)[k] == (acc + vs)[k];
        assert v == (acc + vs)[|acc| + |init|];
      }
    }
  }

  /** The elements of `s` that satisfy `p`, in their original order (Array.prototype.filter). */
  function Filter<T>(s: seq<T>, p: T -> bool): (r: seq<T>)
    ensures |r| <= |s|
    decreases |s|
  {
    if |s| == 0 then []
    else
      var r := Filter(s[..|s| - 1], p);
      if p(s[|s| - 1]) then r + [s[|s| - 1]] else r
  }

  /**
   * The filter keeps exactly the elements satisfying `p`: all it returns
   * satisfies `p`, it is a subsequence of `s`, and every element satisfying
   * `p` keeps its multiplicity.
   */
  lemma {:induction false} FilterSpec<T>(s: seq<T>, p: T -> bool)
    ensures forall k :: 0 <= k < |Filter(s, p)| ==> p(Filter(s, p)[k])
    ensures SubseqOf(Filter(s, p), s)
    ensures forall x :: multiset(Filter(s, p))[x] == if p(x) then multiset(s)[x] else 0
    decreases |s|
  {
    if |s| > 0 {
      var init, v := s[..|s| - 1], s[|s| - 1];
      assert s == init + [v];
      FilterSpec(init, p);
      var r := Filter(init, p);
      if p(v) {
        assert (r + [v])[..|r|] == r;
        forall k | 0 <= k < |r + [v]| ensures p((r + [v])[k]) {
          if k < |r| { assert (r + [v])[k] == r[k]; }
        }
      }
    }
  }

  /** Filtering with a predicate every element satisfies returns the sequence itself. */
  lemma {:induction false} FilterAll<T>(s: seq<T>, p: T -> bool)
    requires forall k :: 0 <= k < |s| ==> p(s[k])
    ensures Filter(s, p) == s
    decreases |s|
  {
    if |s| > 0 {
      FilterAll(s[..|s| - 1], p);
      assert s == s[..|s| - 1] + [s[|s| - 1]];
    }
  }
}
