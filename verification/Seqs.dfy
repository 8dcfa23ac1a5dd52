/** Facts about sequences, multisets and finite sets of integers. */
module Seqs {

  ghost predicate Distinct<T>(s: seq<T>) {
    forall i, j :: 0 <= i < j < |s| ==> s[i] != s[j]
  }

  lemma {:induction false} DistinctOnce<T>(s: seq<T>, x: T)
    requires Distinct(s)
    ensures multiset(s)[x] <= 1
  {
    if s != [] {
      var front := s[..|s| - 1];
      assert s == front + [s[|s| - 1]];
      DistinctOnce(front, x);
      if s[|s| - 1] == x { assert x !in front; }
    }
  }

  lemma TwiceInSeq<T>(s: seq<T>, i: nat, j: nat)
    requires i < j < |s| && s[i] == s[j]
    ensures multiset(s)[s[i]] >= 2
  {
    var a, b := s[..j], s[j..];
    assert s == a + b;
    assert a[i] == s[i] && b[0] == s[i];
    assert multiset(a)[s[i]] >= 1 && multiset(b)[s[i]] >= 1;
  }

  /** A rearrangement of distinct elements has distinct elements. */
  lemma PermDistinct<T>(a: seq<T>, b: seq<T>)
    requires multiset(a) == multiset(b) && Distinct(b)
    ensures Distinct(a)
  {
    forall i, j | 0 <= i < j < |a| ensures a[i] != a[j] {
      DistinctOnce(b, a[i]);
      if a[i] == a[j] { TwiceInSeq(a, i, j); }
    }
  }

  lemma PermMember<T>(a: seq<T>, b: seq<T>, x: T)
    requires multiset(a) == multiset(b)
    ensures x in a <==> x in b
    ensures |a| == |b|
  {
    assert x in a <==> x in multiset(a);
    assert |multiset(a)| == |a| && |multiset(b)| == |b|;
  }

  ghost function Range(n: nat): (s: set<int>)
    ensures forall x :: x in s <==> 0 <= x < n
  {
    if n == 0 then {} else Range(n - 1) + {n - 1}
  }

  lemma {:induction false} RangeSize(n: nat)
    ensures |Range(n)| == n
  {
    if n > 0 {
      RangeSize(n - 1);
    }
  }

  ghost function Elements(s: seq<int>): set<int> { set x | x in s }

  lemma {:induction false} DistinctSize(s: seq<int>)
    requires Distinct(s)
    ensures |Elements(s)| == |s|
  {
    if s != [] {
      var front, last := s[..|s| - 1], s[|s| - 1];
      DistinctSize(front);
      assert s == front + [last];
      assert last !in Elements(front);
      assert Elements(s) == Elements(front) + {last};
    }
  }

  lemma SubsetSameSize(a: set<int>, b: set<int>)
    requires a <= b && |a| >= |b|
    ensures a == b
  {
    assert b == a + (b - a);
    assert |b| == |a| + |b - a|;
  }

  /** Pigeonhole: distinct values below `n`, `n` of them, are all the values below `n`. */
  lemma DistinctCovers(s: seq<int>, n: nat)
    requires Distinct(s) && |s| >= n && (forall i :: 0 <= i < |s| ==> 0 <= s[i] < n)
    ensures |s| == n && forall x :: 0 <= x < n ==> x in s
  {
    DistinctSize(s);
    RangeSize(n);
    assert Elements(s) <= Range(n);
    SubsetSameSize(Elements(s), Range(n));
    forall x | 0 <= x < n ensures x in s { assert x in Elements(s); }
  }

  /** Distinct values below `n` that include all of them are `n` many. */
  lemma CoverSize(s: seq<int>, n: nat)
    requires Distinct(s) && (forall i :: 0 <= i < |s| ==> 0 <= s[i] < n)
    requires forall x :: 0 <= x < n ==> x in s
    ensures |s| == n
  {
    DistinctSize(s);
    RangeSize(n);
    assert Elements(s) == Range(n);
  }

  /** A sequence as long as the range that it covers repeats nothing. */
  lemma CoverDistinct(s: seq<int>)
    requires (forall i :: 0 <= i < |s| ==> 0 <= s[i] < |s|) && forall x :: 0 <= x < |s| ==> x in s
    ensures Distinct(s)
  {
    forall i, j | 0 <= i < j < |s| ensures s[i] != s[j] {
      if s[i] == s[j] {
        var d := s[..i] + s[i + 1..];
        forall x | x in Range(|s|) ensures x in Elements(d) {
          assert x in s;
          var k :| 0 <= k < |s| && s[k] == x;
          var k' := if k == i then j else k;
          assert d[if k' < i then k' else k' - 1] == x;
        }
        RangeSize(|s|);
        SubsetSize(Range(|s|), Elements(d));
        ElementsSize(d);
      }
    }
  }

  lemma {:induction false} ElementsSize(s: seq<int>)
    ensures |Elements(s)| <= |s|
  {
    if s != [] {
      var front, last := s[..|s| - 1], s[|s| - 1];
      ElementsSize(front);
      assert s == front + [last];
      assert Elements(s) == Elements(front) + {last};
    }
  }

  /** A permutation of the integers below its length. */
  ghost predicate Permutation(s: seq<int>) {
    && Distinct(s)
    && (forall i :: 0 <= i < |s| ==> 0 <= s[i] < |s|)
    && (forall x :: 0 <= x < |s| ==> x in s)
  }

  lemma SubsetSize(a: set<int>, b: set<int>)
    requires a <= b
    ensures |a| <= |b|
  {
    assert b == a + (b - a);
  }

  ghost function SumBy<T>(s: seq<T>, f: T -> nat): nat {
    if s == [] then 0 else SumBy(s[..|s| - 1], f) + f(s[|s| - 1])
  }

  lemma {:induction false} SumByUpdate<T>(s: seq<T>, i: int, x: T, f: T -> nat)
    requires 0 <= i < |s|
    ensures SumBy(s[i := x], f) == SumBy(s, f) - f(s[i]) + f(x)
  {
    var s' := s[i := x];
    if i < |s| - 1 {
      SumByUpdate(s[..|s| - 1], i, x, f);
      assert s'[..|s| - 1] == s[..|s| - 1][i := x];
    } else {
      assert s'[..|s| - 1] == s[..|s| - 1];
    }
  }

  lemma DistinctParts<T>(a: seq<T>, b: seq<T>)
    requires Distinct(a + b)
    ensures Distinct(a) && Distinct(b) && forall x :: !(x in a && x in b)
  {
    forall i, j | 0 <= i < j < |a| ensures a[i] != a[j] { assert (a + b)[i] != (a + b)[j]; }
    forall i, j | 0 <= i < j < |b| ensures b[i] != b[j] { assert (a + b)[|a| + i] != (a + b)[|a| + j]; }
    forall i, j | 0 <= i < |a| && 0 <= j < |b| ensures a[i] != b[j] { assert (a + b)[i] != (a + b)[|a| + j]; }
  }

  lemma DistinctJoin<T>(a: seq<T>, b: seq<T>)
    requires Distinct(a) && Distinct(b) && forall x :: !(x in a && x in b)
    ensures Distinct(a + b)
  {
    forall i, j | 0 <= i < j < |a + b| ensures (a + b)[i] != (a + b)[j] {
      if i < |a| && j >= |a| { assert a[i] in a && b[j - |a|] in b; }
    }
  }

  /** Taking out the element at position `i`. */
  lemma Removing<T>(s: seq<T>, i: nat)
    requires i < |s| && Distinct(s)
    ensures var d := s[..i] + s[i + 1..];
            && (forall j :: 0 <= j < |d| ==> d[j] == s[if j < i then j else j + 1])
            && Distinct(d) && s[i] !in d && forall x :: x in s && x != s[i] ==> x in d
  {
    var d := s[..i] + s[i + 1..];
    forall x | x in s && x != s[i] ensures x in d {
      var j :| 0 <= j < |s| && s[j] == x;
      assert d[if j < i then j else j - 1] == x;
    }
  }

  lemma {:induction false} SumByConcat<T>(a: seq<T>, b: seq<T>, f: T -> nat)
    ensures SumBy(a + b, f) == SumBy(a, f) + SumBy(b, f)
  {
    if b == [] {
      assert a + b == a;
    } else {
      SumByConcat(a, b[..|b| - 1], f);
      assert (a + b)[..|a + b| - 1] == a + b[..|b| - 1];
    }
  }

  lemma SumByOne<T>(x: T, f: T -> nat)
    ensures SumBy([x], f) == f(x)
  {
    assert [x][..0] == [];
  }

  lemma SumByPush<T>(x: T, s: seq<T>, f: T -> nat)
    ensures SumBy([x] + s, f) == f(x) + SumBy(s, f)
  {
    hide SumBy;
    SumByConcat([x], s, f);
    SumByOne(x, f);
  }

  lemma SumByRemove<T>(s: seq<T>, i: nat, f: T -> nat)
    requires i < |s|
    ensures SumBy(s, f) == SumBy(s[..i] + s[i + 1..], f) + f(s[i])
  {
    hide SumBy;
    assert s == s[..i] + ([s[i]] + s[i + 1..]);
    SumByConcat(s[..i], [s[i]] + s[i + 1..], f);
    SumByPush(s[i], s[i + 1..], f);
    SumByConcat(s[..i], s[i + 1..], f);
  }
}
