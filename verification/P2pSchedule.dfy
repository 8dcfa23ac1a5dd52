/** The all-to-all schedule of `ncclP2pSchedule` and the node tables it reads (src/init.cc). */
module P2pSchedule {
  import opened Arith
  import opened Seqs

  // ---------------------------------------------------------------------------
  // Triangular numbers modulo a power of two

  ghost function Tri(j: nat): nat { if j == 0 then 0 else Tri(j - 1) + j }

  lemma {:induction false} TriTwice(j: nat)
    ensures 2 * Tri(j) == j * (j + 1)
  {
    if j > 0 {
      TriTwice(j - 1);
      assert (j - 1) * j + 2 * j == j * (j + 1);
    }
  }

  /** A power of two that divides an odd multiple of `b` divides `b`. */
  lemma {:induction false} OddFactor(odd: int, b: int, k: nat, c: int)
    requires odd % 2 == 1 && odd * b == Pow2(k) * c
    ensures b % Pow2(k) == 0
    decreases k
  {
    if k > 0 {
      var h := Pow2(k - 1) * c;
      assert odd * b == 2 * h;
      OddTimesEven(odd, b, h);
      var b' := b / 2;
      assert b == 2 * b';
      assert odd * b' == h by { assert 2 * (odd * b') == odd * b; }
      OddFactor(odd, b', k - 1, c);
      var q := b' / Pow2(k - 1);
      assert b' == q * Pow2(k - 1);
      assert b == q * Pow2(k);
      ModOfMultiple(q, Pow2(k));
    }
  }

  lemma OddTimesEven(odd: int, b: int, h: int)
    requires odd % 2 == 1 && odd * b == 2 * h
    ensures b % 2 == 0
  {
    var a := odd / 2;
    assert odd == 2 * a + 1;
    assert odd * b == 2 * (a * b) + b;
    assert b == 2 * (h - a * b);
  }

  /** `j(j+1)/2 mod 2^k` takes different values on different `j` below `2^k`. */
  lemma TriInjective(i: nat, j: nat, k: nat)
    requires i < j < Pow2(k)
    ensures Tri(i) % Pow2(k) != Tri(j) % Pow2(k)
  {
    assert j + i + 1 < Pow2(k + 1);
    OneOdd(i, j);
    hide Pow2, Tri;
    ProductTooSmall(j - i, j + i + 1, k + 1, Tri(j) / Pow2(k) - Tri(i) / Pow2(k));
    if Tri(i) % Pow2(k) == Tri(j) % Pow2(k) { TriCollision(i, j, k); }
  }

  lemma OneOdd(i: nat, j: nat)
    ensures (j - i) % 2 == 1 || (j + i + 1) % 2 == 1
  {
    assert j + i + 1 == (j - i) + 2 * i + 1;
  }

  lemma TriCollision(i: nat, j: nat, k: nat)
    requires Tri(i) % Pow2(k) == Tri(j) % Pow2(k)
    ensures (j - i) * (j + i + 1) == Pow2(k + 1) * (Tri(j) / Pow2(k) - Tri(i) / Pow2(k))
  {
    ModEqual(Tri(j), Tri(i), Pow2(k));
    var m := Tri(j) / Pow2(k) - Tri(i) / Pow2(k);
    TriProduct(i, j, m * Pow2(k));
    assert Pow2(k + 1) == 2 * Pow2(k);
    assert Pow2(k + 1) * m == 2 * (m * Pow2(k));
  }

  lemma TriProduct(i: nat, j: nat, d: int)
    requires Tri(j) - Tri(i) == d
    ensures (j - i) * (j + i + 1) == 2 * d
  {
    TriTwice(i);
    TriTwice(j);
    Difference(i, j);
  }

  lemma OddSmall(odd: int, b: int, k: nat, c: int)
    requires odd % 2 == 1 && 0 < b < Pow2(k)
    ensures odd * b != Pow2(k) * c
  {
    ModSmall(b, Pow2(k));
    if odd * b == Pow2(k) * c { OddFactor(odd, b, k, c); }
  }

  lemma ProductTooSmall(a: int, b: int, k: nat, m: int)
    requires 0 < a < Pow2(k) && 0 < b < Pow2(k) && (a % 2 == 1 || b % 2 == 1)
    ensures a * b != Pow2(k) * m
  {
    if a % 2 == 1 {
      OddSmall(a, b, k, m);
    } else {
      OddSmall(b, a, k, m);
    }
  }

  lemma Difference(i: int, j: int)
    ensures (j - i) * (j + i + 1) == j * (j + 1) - i * (i + 1)
  {
    assert (j - i) * (j + i + 1) == j * (j + i + 1) - i * (j + i + 1);
    assert j * (j + i + 1) == j * (j + 1) + j * i;
    assert i * (j + i + 1) == i * (i + 1) + i * j;
  }

  // ---------------------------------------------------------------------------
  // The sequence of group deltas

  /** Deltas that survive the filter in the first `n` steps of the walk. */
  ghost function Deltas(k: nat, nGroups: nat, n: nat): (d: seq<int>)
    ensures forall i :: 0 <= i < |d| ==> 0 <= d[i] < nGroups
  {
    if n == 0 then [] else
    var delta := Tri(n - 1) % Pow2(k);
    Deltas(k, nGroups, n - 1) + if delta < nGroups then [delta] else []
  }

  lemma {:induction false} DeltaFrom(k: nat, nGroups: nat, n: nat, x: int)
    requires x in Deltas(k, nGroups, n)
    ensures exists j: nat :: j < n && Tri(j) % Pow2(k) == x
  {
    if x in Deltas(k, nGroups, n - 1) {
      DeltaFrom(k, nGroups, n - 1, x);
      var j: nat :| j < n - 1 && Tri(j) % Pow2(k) == x;
      assert j < n;
    } else {
      assert Tri(n - 1) % Pow2(k) == x;
    }
  }

  lemma {:induction false} DeltaInto(k: nat, nGroups: nat, n: nat, j: nat)
    requires j < n && Tri(j) % Pow2(k) < nGroups
    ensures Tri(j) % Pow2(k) in Deltas(k, nGroups, n)
  {
    if j < n - 1 { DeltaInto(k, nGroups, n - 1, j); }
  }

  lemma {:induction false} DeltasDistinct(k: nat, nGroups: nat, n: nat)
    requires n <= Pow2(k)
    ensures Distinct(Deltas(k, nGroups, n))
  {
    if n > 0 {
      DeltasDistinct(k, nGroups, n - 1);
      var d, x := Deltas(k, nGroups, n - 1), Tri(n - 1) % Pow2(k);
      if x in d {
        DeltaFrom(k, nGroups, n - 1, x);
        var j: nat :| j < n - 1 && Tri(j) % Pow2(k) == x;
        TriInjective(j, n - 1, k);
      }
    }
  }

  ghost function Walk(k: nat, n: nat): (s: seq<int>)
    ensures |s| == n && forall j :: 0 <= j < n ==> s[j] == Tri(j) % Pow2(k)
  {
    seq(n, j requires 0 <= j => Tri(j) % Pow2(k))
  }

  /** The filtered walk visits every group distance exactly once. */
  lemma DeltasPermute(k: nat, nGroups: nat)
    requires nGroups <= Pow2(k)
    ensures Permutation(Deltas(k, nGroups, Pow2(k))) && |Deltas(k, nGroups, Pow2(k))| == nGroups
  {
    var p := Pow2(k);
    var d, w := Deltas(k, nGroups, p), Walk(k, p);
    DeltasDistinct(k, nGroups, p);
    forall i, j | 0 <= i < j < |w| ensures w[i] != w[j] { TriInjective(i, j, k); }
    DistinctCovers(w, p);
    forall x | 0 <= x < nGroups ensures x in d {
      assert x in w;
      var j :| 0 <= j < |w| && w[j] == x;
      DeltaInto(k, nGroups, p, j);
    }
    CoverSize(d, nGroups);
  }

  // ---------------------------------------------------------------------------
  // Ranks by node

  /** Ranks below `n` on `node`, ascending: `localRankToRank` of that node. */
  ghost function Members(rankToNode: seq<nat>, node: nat, n: nat): (m: seq<int>)
    requires n <= |rankToNode|
    ensures |m| <= n
  {
    if n == 0 then [] else
    Members(rankToNode, node, n - 1) + if rankToNode[n - 1] == node then [n - 1] else []
  }

  /** All ranks, node by node. */
  ghost function Flat(rankToNode: seq<nat>, nodes: nat): seq<int> {
    if nodes == 0 then []
    else Flat(rankToNode, nodes - 1) + Members(rankToNode, nodes - 1, |rankToNode|)
  }

  ghost predicate ValidNodes(rankToNode: seq<nat>, nNodes: nat) {
    0 < |rankToNode| && forall r :: 0 <= r < |rankToNode| ==> rankToNode[r] < nNodes
  }

  lemma {:induction false} MemberIff(rankToNode: seq<nat>, node: nat, n: nat, r: int)
    requires n <= |rankToNode|
    ensures r in Members(rankToNode, node, n) <==> 0 <= r < n && rankToNode[r] == node
  {
    if n > 0 { MemberIff(rankToNode, node, n - 1, r); }
  }

  lemma {:induction false} MembersDistinct(rankToNode: seq<nat>, node: nat, n: nat)
    requires n <= |rankToNode|
    ensures Distinct(Members(rankToNode, node, n))
  {
    if n > 0 {
      MembersDistinct(rankToNode, node, n - 1);
      MemberIff(rankToNode, node, n - 1, n - 1);
      if rankToNode[n - 1] == node { DistinctConcat(Members(rankToNode, node, n - 1), [n - 1]); }
    }
  }

  lemma {:induction false} MembersPrefix(rankToNode: seq<nat>, node: nat, a: nat, n: nat)
    requires a <= n <= |rankToNode|
    ensures Members(rankToNode, node, a) <= Members(rankToNode, node, n)
  {
    if a < n { MembersPrefix(rankToNode, node, a, n - 1); }
  }

  /** The local rank of `r` is its position among the ranks of its node. */
  ghost function LocalRank(rankToNode: seq<nat>, r: nat): (l: nat)
    requires r < |rankToNode|
    ensures var m := Members(rankToNode, rankToNode[r], |rankToNode|); l < |m| && m[l] == r
  {
    MembersPrefix(rankToNode, rankToNode[r], r + 1, |rankToNode|);
    var m := Members(rankToNode, rankToNode[r], r);
    assert Members(rankToNode, rankToNode[r], r + 1) == m + [r];
    |m|
  }

  lemma {:induction false} FlatMember(rankToNode: seq<nat>, nodes: nat, r: int)
    ensures r in Flat(rankToNode, nodes) <==> 0 <= r < |rankToNode| && rankToNode[r] < nodes
  {
    hide Members;
    if nodes > 0 {
      FlatMember(rankToNode, nodes - 1, r);
      MemberIff(rankToNode, nodes - 1, |rankToNode|, r);
    }
  }

  lemma {:induction false} FlatDistinct(rankToNode: seq<nat>, nodes: nat)
    ensures Distinct(Flat(rankToNode, nodes))
  {
    hide Members;
    if nodes > 0 {
      FlatDistinct(rankToNode, nodes - 1);
      MembersDistinct(rankToNode, nodes - 1, |rankToNode|);
      var f, m := Flat(rankToNode, nodes - 1), Members(rankToNode, nodes - 1, |rankToNode|);
      forall x | x in f ensures x !in m {
        FlatMember(rankToNode, nodes - 1, x);
        MemberIff(rankToNode, nodes - 1, |rankToNode|, x);
      }
      DistinctConcat(f, m);
    }
  }

  lemma DistinctConcat(f: seq<int>, m: seq<int>)
    requires Distinct(f) && Distinct(m) && forall x :: x in f ==> x !in m
    ensures Distinct(f + m)
  {
    forall i, j | 0 <= i < j < |f + m| ensures (f + m)[i] != (f + m)[j] {
      if i < |f| <= j { assert f[i] in f && m[j - |f|] in m; }
    }
  }

  lemma FlatPermutes(rankToNode: seq<nat>, nNodes: nat)
    requires ValidNodes(rankToNode, nNodes)
    ensures Permutation(Flat(rankToNode, nNodes)) && |Flat(rankToNode, nNodes)| == |rankToNode|
  {
    FlatDistinct(rankToNode, nNodes);
    var f := Flat(rankToNode, nNodes);
    forall i | 0 <= i < |f| ensures 0 <= f[i] < |rankToNode| { FlatMember(rankToNode, nNodes, f[i]); }
    forall x | 0 <= x < |rankToNode| ensures x in f { FlatMember(rankToNode, nNodes, x); }
    CoverSize(f, |rankToNode|);
  }

  lemma {:induction false} FlatPrefix(rankToNode: seq<nat>, a: nat, n: nat)
    requires a <= n
    ensures Flat(rankToNode, a) <= Flat(rankToNode, n)
  {
    if a < n { FlatPrefix(rankToNode, a, n - 1); }
  }

  /** Where a node's ranks sit in the flat order. */
  lemma FlatAt(rankToNode: seq<nat>, nNodes: nat, node: nat, l: nat)
    requires node < nNodes && l < |Members(rankToNode, node, |rankToNode|)|
    ensures var at := |Flat(rankToNode, node)| + l;
            at < |Flat(rankToNode, nNodes)| && Flat(rankToNode, nNodes)[at] == Members(rankToNode, node, |rankToNode|)[l]
  {
    hide Members;
    FlatPrefix(rankToNode, node + 1, nNodes);
    assert Flat(rankToNode, node + 1) == Flat(rankToNode, node) + Members(rankToNode, node, |rankToNode|);
  }

  /** Position of rank `r` in the flat order. */
  ghost function Position(rankToNode: seq<nat>, nNodes: nat, r: nat): (at: nat)
    requires ValidNodes(rankToNode, nNodes) && r < |rankToNode|
    ensures at < |rankToNode| == |Flat(rankToNode, nNodes)| && Flat(rankToNode, nNodes)[at] == r
  {
    PositionFacts(rankToNode, nNodes, r);
    |Flat(rankToNode, rankToNode[r])| + LocalRank(rankToNode, r)
  }

  lemma PositionFacts(rankToNode: seq<nat>, nNodes: nat, r: nat)
    requires ValidNodes(rankToNode, nNodes) && r < |rankToNode|
    ensures var at := |Flat(rankToNode, rankToNode[r])| + LocalRank(rankToNode, r);
            at < |rankToNode| == |Flat(rankToNode, nNodes)| && Flat(rankToNode, nNodes)[at] == r
  {
    hide Flat, Members, Permutation, LocalRank;
    FlatPermutes(rankToNode, nNodes);
    FlatAt(rankToNode, nNodes, rankToNode[r], LocalRank(rankToNode, r));
  }

  // ---------------------------------------------------------------------------
  // The schedule

  datatype Entry = Entry(sendRank: int, recvRank: int)

  /** Round `t` of the rank at position `at`: `d` is the group distance, `t % size` the
      distance inside the group. */
  ghost function Round(flat: seq<int>, size: nat, deltas: seq<int>, at: nat, t: nat): Entry
    requires 0 < size && at < |flat| == |deltas| * size && t < |flat|
    requires forall i :: 0 <= i < |deltas| ==> 0 <= deltas[i] < |deltas|
  {
    var n := |deltas|;
    PositionParts(at, size, n);
    PositionParts(t, size, n);
    var group, local, d, e := at / size, at % size, deltas[t / size], t % size;
    var sendGroup, recvGroup := (group + d) % n, (group - d + n) % n;
    var sendLocal, recvLocal := (local + e) % size, (local - e + size) % size;
    PositionJoin(sendGroup, sendLocal, size, n);
    PositionJoin(recvGroup, recvLocal, size, n);
    Entry(flat[sendGroup * size + sendLocal], flat[recvGroup * size + recvLocal])
  }

  lemma PositionParts(at: nat, size: nat, n: nat)
    requires 0 < size && at < n * size
    ensures 0 <= at / size < n && 0 <= at % size < size && at == at / size * size + at % size
  {
    if at / size >= n { MulMono(n, at / size, size); }
  }

  lemma PositionJoin(group: int, local: int, size: nat, n: nat)
    requires 0 <= group < n && 0 <= local < size
    ensures 0 <= group * size + local < n * size
    ensures (group * size + local) / size == group && (group * size + local) % size == local
  {
    MulMono(0, group, size);
    MulMono(group + 1, n, size);
    Distrib(group, 1, size);
    DivModUnique(group * size + local, size, group, local);
  }

  /** The same round, for a position and a round number given by their parts. */
  lemma RoundParts(flat: seq<int>, size: nat, deltas: seq<int>, group: nat, local: nat, index: nat, e: nat)
    requires WellGrouped(flat, size, deltas) && group < |deltas| && local < size && index < |deltas| && e < size
    ensures var n, d := |deltas|, deltas[index];
            var at, t := group * size + local, index * size + e;
            var to := (group + d) % n * size + (local + e) % size;
            var from := (group - d + n) % n * size + (local - e + size) % size;
            && 0 <= at < |flat| && 0 <= t < |flat| && 0 <= to < |flat| && 0 <= from < |flat|
            && Round(flat, size, deltas, at, t) == Entry(flat[to], flat[from])
  {
    var n, d := |deltas|, deltas[index];
    PositionJoin(group, local, size, n);
    PositionJoin(index, e, size, n);
    PositionJoin((group + d) % n, (local + e) % size, size, n);
    PositionJoin((group - d + n) % n, (local - e + size) % size, size, n);
  }

  /** Stepping forward by `d` and stepping back by `d` undo each other. */
  lemma StepBack(x: int, y: int, d: int, n: int)
    requires 0 < n && 0 <= x < n && 0 <= y < n && 0 <= d < n
    ensures (x + d) % n == y <==> (y - d + n) % n == x
  {
    ModWrap(x + d, n);
    ModShift(y - d, 1, n);
    ModWrap(y - d, n);
  }

  lemma StepInjective(x: int, d: int, d': int, n: int)
    requires 0 < n && 0 <= x < n && 0 <= d < n && 0 <= d' < n
    ensures (x + d) % n == (x + d') % n ==> d == d'
    ensures (x - d + n) % n == (x - d' + n) % n ==> d == d'
  {
    ModWrap(x + d, n);
    ModWrap(x + d', n);
    ModShift(x - d, 1, n);
    ModShift(x - d', 1, n);
    ModWrap(x - d, n);
    ModWrap(x - d', n);
  }

  ghost predicate WellGrouped(flat: seq<int>, size: nat, deltas: seq<int>) {
    0 < size && Permutation(flat) && Permutation(deltas) && |flat| == |deltas| * size
  }

  /** In round `t` rank `a` sends to `b` exactly when `b` receives from `a`. */
  lemma Matched(flat: seq<int>, size: nat, deltas: seq<int>, a: nat, b: nat, t: nat)
    requires WellGrouped(flat, size, deltas) && a < |flat| && b < |flat| && t < |flat|
    ensures Round(flat, size, deltas, a, t).sendRank == flat[b]
       <==> Round(flat, size, deltas, b, t).recvRank == flat[a]
  {
    var n := |deltas|;
    PositionParts(a, size, n);
    PositionParts(b, size, n);
    PositionParts(t, size, n);
    var d, e := deltas[t / size], t % size;
    StepBack(a / size, b / size, d, n);
    StepBack(a % size, b % size, e, size);
    PositionJoin((a / size + d) % n, (a % size + e) % size, size, n);
    PositionJoin((b / size - d + n) % n, (b % size - e + size) % size, size, n);
    var to := (a / size + d) % n * size + (a % size + e) % size;
    var from := (b / size - d + n) % n * size + (b % size - e + size) % size;
    assert flat[to] == flat[b] <==> to == b;
    assert flat[from] == flat[a] <==> from == a;
  }

  /** A rank never meets the same peer in two rounds, in either direction. */
  lemma NoRepeat(flat: seq<int>, size: nat, deltas: seq<int>, a: nat, t: nat, u: nat)
    requires WellGrouped(flat, size, deltas) && a < |flat| && t < u < |flat|
    ensures Round(flat, size, deltas, a, t).sendRank != Round(flat, size, deltas, a, u).sendRank
    ensures Round(flat, size, deltas, a, t).recvRank != Round(flat, size, deltas, a, u).recvRank
  {
    var n := |deltas|;
    PositionParts(a, size, n);
    PositionParts(t, size, n);
    PositionParts(u, size, n);
    var group, local, d, e, d', e' := a / size, a % size, deltas[t / size], t % size, deltas[u / size], u % size;
    assert d == d' && e == e' ==> t == u;
    StepInjective(group, d, d', n);
    StepInjective(local, e, e', size);
    PositionJoin((group + d) % n, (local + e) % size, size, n);
    PositionJoin((group + d') % n, (local + e') % size, size, n);
    PositionJoin((group - d + n) % n, (local - e + size) % size, size, n);
    PositionJoin((group - d' + n) % n, (local - e' + size) % size, size, n);
  }

  /** The group size: a divisor of every node's rank count. */
  ghost function GroupSize(start: nat, counts: seq<nat>): (g: nat)
    requires start > 0
    ensures g > 0
  {
    if counts == [] then start else
    var g, c := GroupSize(start, counts[..|counts| - 1]), counts[|counts| - 1];
    if c % g != 0 || c < g then Gcd(g, c) else g
  }

  /** It is the greatest size that fits: what divides it is what divides the start and all counts. */
  lemma {:induction false} GroupSizeDivisors(start: nat, counts: seq<nat>, d: nat)
    requires start > 0 && d > 0
    ensures Divides(d, GroupSize(start, counts)) <==>
            Divides(d, start) && forall i :: 0 <= i < |counts| ==> Divides(d, counts[i])
  {
    if counts != [] {
      hide Divides;
      var front, c := counts[..|counts| - 1], counts[|counts| - 1];
      var g := GroupSize(start, front);
      GroupSizeDivisors(start, front, d);
      GcdDivisors(g, c, d);
      if Divides(d, g) && Divides(g, c) { DividesTrans(d, g, c); }
      assert c % g == 0 <==> Divides(g, c) by { DividesIs(g, c); }
      assert forall i :: 0 <= i < |front| ==> counts[i] == front[i];
      assert (forall i :: 0 <= i < |counts| ==> Divides(d, counts[i]))
        <==> (forall i :: 0 <= i < |front| ==> Divides(d, front[i])) && Divides(d, c);
    }
  }

  lemma DividesIs(d: int, x: int)
    requires d > 0
    ensures Divides(d, x) <==> x % d == 0
  {
  }

  ghost function Counts(rankToNode: seq<nat>, nNodes: nat): (c: seq<nat>)
    ensures |c| == nNodes
    ensures forall n :: 0 <= n < nNodes ==> c[n] == |Members(rankToNode, n, |rankToNode|)|
  {
    seq(nNodes, n requires 0 <= n => |Members(rankToNode, n, |rankToNode|)|)
  }

  /** One node uses its own size, several nodes the configured size, both cut down to a
      common divisor. */
  ghost function SizeOf(rankToNode: seq<nat>, nNodes: nat, param: nat): (size: nat)
    requires ValidNodes(rankToNode, nNodes) && param > 0
    ensures size > 0
  {
    GroupSize(if nNodes > 1 then param else |rankToNode|, Counts(rankToNode, nNodes))
  }

  lemma {:induction false} FlatDivisible(rankToNode: seq<nat>, nNodes: nat, n: nat, d: nat)
    requires d > 0 && n <= nNodes
    requires forall i :: 0 <= i < nNodes ==> Divides(d, |Members(rankToNode, i, |rankToNode|)|)
    ensures Divides(d, |Flat(rankToNode, n)|)
  {
    if n == 0 {
      ModSmall(0, d);
    } else {
      FlatDivisible(rankToNode, nNodes, n - 1, d);
      DividesSum(d, |Flat(rankToNode, n - 1)|, |Members(rankToNode, n - 1, |rankToNode|)|);
    }
  }

  /** The group size divides every node and the total. */
  lemma SizeDivides(rankToNode: seq<nat>, nNodes: nat, param: nat)
    requires ValidNodes(rankToNode, nNodes) && param > 0
    ensures var size := SizeOf(rankToNode, nNodes, param);
            && (forall n :: 0 <= n < nNodes ==> Divides(size, |Members(rankToNode, n, |rankToNode|)|))
            && (forall n :: 0 <= n <= nNodes ==> Divides(size, |Flat(rankToNode, n)|))
            && Divides(size, |rankToNode|) && |rankToNode| / size >= 1
            && |rankToNode| == |rankToNode| / size * size
  {
    hide Members, Flat, GroupSize, Divides, Permutation;
    var size := SizeOf(rankToNode, nNodes, param);
    var c := Counts(rankToNode, nNodes);
    GroupSizeDivisors(if nNodes > 1 then param else |rankToNode|, c, size);
    DividesSelf(size);
    forall n | 0 <= n < nNodes ensures Divides(size, |Members(rankToNode, n, |rankToNode|)|) {
      assert Divides(size, c[n]);
    }
    forall n | 0 <= n <= nNodes ensures Divides(size, |Flat(rankToNode, n)|) {
      FlatDivisible(rankToNode, nNodes, n, size);
    }
    FlatPermutes(rankToNode, nNodes);
    DivisorQuotient(size, |rankToNode|);
  }

  /** The group size is the greatest common divisor of the numbers of ranks of the nodes and, with
      several nodes, of the configured size. */
  lemma SizeGreatest(rankToNode: seq<nat>, nNodes: nat, param: nat, d: nat)
    requires ValidNodes(rankToNode, nNodes) && param > 0 && d > 0
    ensures Divides(d, SizeOf(rankToNode, nNodes, param)) <==>
            (nNodes > 1 ==> Divides(d, param)) && forall n :: 0 <= n < nNodes ==> Divides(d, RanksOn(rankToNode, n))
  {
    hide Members, Flat, GroupSize, Divides, Permutation;
    var c, start := Counts(rankToNode, nNodes), if nNodes > 1 then param else |rankToNode|;
    GroupSizeDivisors(start, c, d);
    forall n | 0 <= n < nNodes ensures RanksOn(rankToNode, n) == c[n] { MembersCount(rankToNode, n, |rankToNode|); }
    assert rankToNode[0] < nNodes;
    if nNodes == 1 {
      FlatPermutes(rankToNode, 1);
      OneNode(rankToNode);
    }
  }

  ghost function OnNode(rankToNode: seq<nat>, node: nat, n: nat): set<int>
    requires n <= |rankToNode|
  {
    set r | 0 <= r < n && rankToNode[r] == node
  }

  /** How many ranks are on the node. */
  ghost function RanksOn(rankToNode: seq<nat>, node: nat): nat {
    |OnNode(rankToNode, node, |rankToNode|)|
  }

  lemma {:induction false} MembersCount(rankToNode: seq<nat>, node: nat, n: nat)
    requires n <= |rankToNode|
    ensures |Members(rankToNode, node, n)| == |OnNode(rankToNode, node, n)|
  {
    if n > 0 {
      MembersCount(rankToNode, node, n - 1);
      OneMoreOnNode(rankToNode, node, n);
    } else {
      assert OnNode(rankToNode, node, n) == {};
    }
  }

  lemma OneMoreOnNode(rankToNode: seq<nat>, node: nat, n: nat)
    requires 0 < n <= |rankToNode|
    ensures |OnNode(rankToNode, node, n)| == |OnNode(rankToNode, node, n - 1)| + if rankToNode[n - 1] == node then 1 else 0
  {
    var before := OnNode(rankToNode, node, n - 1);
    assert OnNode(rankToNode, node, n) == if rankToNode[n - 1] == node then before + {n - 1} else before;
  }

  lemma OneNode(rankToNode: seq<nat>)
    ensures Flat(rankToNode, 1) == Members(rankToNode, 0, |rankToNode|)
  {
    assert Flat(rankToNode, 0) == [];
  }

  /** The exponent of the least power of two that is not below `n`. */
  ghost function Log2Up(n: nat): (k: nat)
    ensures n <= Pow2(k) && (k > 0 ==> Pow2(k - 1) < n)
  {
    if n <= 1 then 0 else
    var k := Log2Up((n + 1) / 2);
    k + 1
  }

  ghost function NGroups(rankToNode: seq<nat>, nNodes: nat, param: nat): (n: nat)
    requires ValidNodes(rankToNode, nNodes) && param > 0
  {
    |rankToNode| / SizeOf(rankToNode, nNodes, param)
  }

  ghost function Rounds(flat: seq<int>, size: nat, deltas: seq<int>, at: nat): (s: seq<Entry>)
    requires WellGrouped(flat, size, deltas) && at < |flat|
    ensures |s| == |flat| && forall t :: 0 <= t < |flat| ==> s[t] == Round(flat, size, deltas, at, t)
  {
    seq(|flat|, t requires 0 <= t < |flat| => Round(flat, size, deltas, at, t))
  }

  ghost function DeltasOf(nGroups: nat): (d: seq<int>)
    ensures Permutation(d) && |d| == nGroups
  {
    DeltasPermute(Log2Up(nGroups), nGroups);
    Deltas(Log2Up(nGroups), nGroups, Pow2(Log2Up(nGroups)))
  }

  /** A number of the walk: triangular, modulo the least power of two not below the number of groups. */
  ghost function Quadratic(nGroups: nat, j: int): int { j * (j + 1) / 2 % Pow2(Log2Up(nGroups)) }

  ghost function Survivors(nGroups: nat, n: nat): set<int> { set x | 0 <= x < n && Quadratic(nGroups, x) < nGroups }

  lemma OneMoreSurvivor(nGroups: nat, n: nat)
    ensures |Survivors(nGroups, n + 1)| == |Survivors(nGroups, n)| + if Quadratic(nGroups, n) < nGroups then 1 else 0
  {
    hide Quadratic;
    var before := Survivors(nGroups, n);
    assert Survivors(nGroups, n + 1) == if Quadratic(nGroups, n) < nGroups then before + {n} else before;
  }

  lemma {:induction false} SurvivorsCount(nGroups: nat, n: nat)
    ensures |Deltas(Log2Up(nGroups), nGroups, n)| == |Survivors(nGroups, n)|
  {
    hide Quadratic, Tri, Pow2, Log2Up;
    if n == 0 {
      assert Survivors(nGroups, 0) == {};
    } else {
      hide Survivors;
      SurvivorsCount(nGroups, n - 1);
      QuadraticIs(nGroups, n - 1);
      OneMoreSurvivor(nGroups, n - 1);
    }
  }

  lemma QuadraticIs(nGroups: nat, j: nat)
    ensures Quadratic(nGroups, j) == Tri(j) % Pow2(Log2Up(nGroups))
  {
    TriTwice(j);
  }

  lemma {:induction false} DeltaAt(k: nat, nGroups: nat, n: nat, i: nat) returns (j: nat)
    requires i < |Deltas(k, nGroups, n)|
    ensures j < n && Deltas(k, nGroups, n)[i] == Tri(j) % Pow2(k) && |Deltas(k, nGroups, j)| == i
  {
    if i < |Deltas(k, nGroups, n - 1)| { j := DeltaAt(k, nGroups, n - 1, i); } else { j := n - 1; }
  }

  /** The group distances come in the order of the quadratic walk: the `i`-th is that of the number
      before which `i` numbers of the walk were below the number of groups. */
  lemma QuadraticOrder(nGroups: nat, i: nat) returns (j: nat)
    requires i < nGroups
    ensures DeltasOf(nGroups)[i] == Quadratic(nGroups, j) && |Survivors(nGroups, j)| == i
  {
    hide Quadratic, Survivors, Deltas;
    var d := DeltasOf(nGroups);
    j := DeltaAt(Log2Up(nGroups), nGroups, Pow2(Log2Up(nGroups)), i);
    SurvivorsCount(nGroups, j);
    QuadraticIs(nGroups, j);
  }

  /** The flat order is by node, and by rank within a node. */
  lemma PositionOrder(rankToNode: seq<nat>, nNodes: nat, a: nat, b: nat)
    requires ValidNodes(rankToNode, nNodes) && a < |rankToNode| && b < |rankToNode|
    ensures Position(rankToNode, nNodes, a) < Position(rankToNode, nNodes, b) <==>
            rankToNode[a] < rankToNode[b] || (rankToNode[a] == rankToNode[b] && a < b)
  {
    if rankToNode[a] < rankToNode[b] || (rankToNode[a] == rankToNode[b] && a < b) {
      ComesBefore(rankToNode, nNodes, a, b);
    } else if a != b {
      ComesBefore(rankToNode, nNodes, b, a);
    }
  }

  lemma ComesBefore(rankToNode: seq<nat>, nNodes: nat, a: nat, b: nat)
    requires ValidNodes(rankToNode, nNodes) && a < |rankToNode| && b < |rankToNode|
    requires rankToNode[a] < rankToNode[b] || (rankToNode[a] == rankToNode[b] && a < b)
    ensures Position(rankToNode, nNodes, a) < Position(rankToNode, nNodes, b)
  {
    hide Flat, Members;
    var n, m := rankToNode[a], rankToNode[b];
    if n < m {
      FlatPrefix(rankToNode, n + 1, m);
      FlatGrowsBy(rankToNode, n);
    } else {
      MembersPrefix(rankToNode, n, a + 1, b);
      MembersGrow(rankToNode, a);
    }
  }

  lemma FlatGrowsBy(rankToNode: seq<nat>, n: nat)
    ensures |Flat(rankToNode, n + 1)| == |Flat(rankToNode, n)| + |Members(rankToNode, n, |rankToNode|)|
  {
  }

  lemma MembersGrow(rankToNode: seq<nat>, a: nat)
    requires a < |rankToNode|
    ensures |Members(rankToNode, rankToNode[a], a + 1)| == |Members(rankToNode, rankToNode[a], a)| + 1
  {
  }

  lemma Grouped(rankToNode: seq<nat>, nNodes: nat, param: nat)
    requires ValidNodes(rankToNode, nNodes) && param > 0
    ensures var size := SizeOf(rankToNode, nNodes, param);
            WellGrouped(Flat(rankToNode, nNodes), size, DeltasOf(NGroups(rankToNode, nNodes, param)))
    ensures |Flat(rankToNode, nNodes)| == |rankToNode|
  {
    hide Permutation, Flat, Divides;
    SizeDivides(rankToNode, nNodes, param);
    FlatPermutes(rankToNode, nNodes);
  }

  /** The whole schedule of one rank. */
  ghost function Schedule(rankToNode: seq<nat>, nNodes: nat, param: nat, rank: nat): (s: seq<Entry>)
    requires ValidNodes(rankToNode, nNodes) && param > 0 && rank < |rankToNode|
    ensures |s| == |rankToNode|
  {
    Grouped(rankToNode, nNodes, param);
    var size := SizeOf(rankToNode, nNodes, param);
    Rounds(Flat(rankToNode, nNodes), size, DeltasOf(NGroups(rankToNode, nNodes, param)), Position(rankToNode, nNodes, rank))
  }

  lemma ScheduleAt(rankToNode: seq<nat>, nNodes: nat, param: nat, rank: nat, t: nat)
    requires ValidNodes(rankToNode, nNodes) && param > 0 && rank < |rankToNode| && t < |rankToNode|
    ensures var flat, size := Flat(rankToNode, nNodes), SizeOf(rankToNode, nNodes, param);
            var deltas := DeltasOf(NGroups(rankToNode, nNodes, param));
            && WellGrouped(flat, size, deltas) && |flat| == |rankToNode|
            && Schedule(rankToNode, nNodes, param, rank)[t]
            == Round(flat, size, deltas, Position(rankToNode, nNodes, rank), t)
  {
    Grouped(rankToNode, nNodes, param);
  }

  lemma PositionOfFlat(rankToNode: seq<nat>, nNodes: nat, x: nat)
    requires ValidNodes(rankToNode, nNodes) && x < |Flat(rankToNode, nNodes)|
    ensures 0 <= Flat(rankToNode, nNodes)[x] < |rankToNode| && Position(rankToNode, nNodes, Flat(rankToNode, nNodes)[x]) == x
  {
    hide Members, LocalRank;
    FlatPermutes(rankToNode, nNodes);
    var flat := Flat(rankToNode, nNodes);
    FlatMember(rankToNode, nNodes, flat[x]);
    var y := Position(rankToNode, nNodes, flat[x]);
    assert flat[y] == flat[x];
  }

  /** In round `t` a rank sends to the rank that is `t % size` places on in the group at the
      distance of round `t / size`, and receives from the one as far back. */
  lemma SchedulePeers(rankToNode: seq<nat>, nNodes: nat, param: nat, a: nat, t: nat)
    requires ValidNodes(rankToNode, nNodes) && param > 0 && a < |rankToNode| && t < |rankToNode|
    ensures var size, n := SizeOf(rankToNode, nNodes, param), NGroups(rankToNode, nNodes, param);
            var e, at := Schedule(rankToNode, nNodes, param, a)[t], Position(rankToNode, nNodes, a);
            && 0 <= e.sendRank < |rankToNode| && 0 <= e.recvRank < |rankToNode| && n > 0 && 0 <= t / size < n
            && var d, to, from := DeltasOf(n)[t / size], Position(rankToNode, nNodes, e.sendRank), Position(rankToNode, nNodes, e.recvRank);
               && to / size == (at / size + d) % n && to % size == (at % size + t % size) % size
               && from / size == (at / size - d) % n && from % size == (at % size - t % size) % size
  {
    hide Permutation, Flat, Position, DeltasOf, Schedule, Members, NGroups;
    var flat, size := Flat(rankToNode, nNodes), SizeOf(rankToNode, nNodes, param);
    var n, at := NGroups(rankToNode, nNodes, param), Position(rankToNode, nNodes, a);
    var deltas := DeltasOf(n);
    ScheduleAt(rankToNode, nNodes, param, a, t);
    hide Round, SizeOf;
    var to, from := RoundPlaces(flat, size, deltas, at, t);
    PositionOfFlat(rankToNode, nNodes, to);
    PositionOfFlat(rankToNode, nNodes, from);
  }

  /** Position `x` is in the group and at the place that the sums wrap around to. */
  ghost predicate Places(x: int, size: nat, n: nat, group: int, local: int)
    requires size > 0 && n > 0
  {
    x / size == group % n && x % size == local % size
  }

  lemma JoinPlaces(size: nat, n: nat, group: int, local: int)
    requires size > 0 && n > 0
    ensures var x := group % n * size + local % size;
            0 <= x < n * size && Places(x, size, n, group, local)
  {
    PositionJoin(group % n, local % size, size, n);
  }

  lemma RoundPlaces(flat: seq<int>, size: nat, deltas: seq<int>, at: nat, t: nat) returns (to: nat, from: nat)
    requires WellGrouped(flat, size, deltas) && at < |flat| && t < |flat|
    ensures 0 <= t / size < |deltas| && to < |flat| && from < |flat|
    ensures Round(flat, size, deltas, at, t) == Entry(flat[to], flat[from])
    ensures Places(to, size, |deltas|, at / size + deltas[t / size], at % size + t % size)
    ensures Places(from, size, |deltas|, at / size - deltas[t / size], at % size - t % size)
  {
    hide Permutation, Places, Round;
    var n := |deltas|;
    PositionParts(at, size, n);
    PositionParts(t, size, n);
    assert 0 <= deltas[t / size] < n by { InPermutation(deltas, t / size); }
    var group, local, d, e := at / size, at % size, deltas[t / size], t % size;
    RoundParts(flat, size, deltas, group, local, t / size, e);
    ModShift(group - d, 1, n);
    ModShift(local - e, 1, size);
    JoinPlaces(size, n, group + d, local + e);
    JoinPlaces(size, n, group - d, local - e);
    to, from := (group + d) % n * size + (local + e) % size, (group - d) % n * size + (local - e) % size;
  }

  lemma InPermutation(s: seq<int>, i: nat)
    requires Permutation(s) && i < |s|
    ensures 0 <= s[i] < |s|
  {
  }

  /** For any two ranks and any round, `a` sends to `b` exactly when `b` receives from `a`. */
  lemma ScheduleMatched(rankToNode: seq<nat>, nNodes: nat, param: nat, a: nat, b: nat, t: nat)
    requires ValidNodes(rankToNode, nNodes) && param > 0
    requires a < |rankToNode| && b < |rankToNode| && t < |rankToNode|
    ensures Schedule(rankToNode, nNodes, param, a)[t].sendRank == b
       <==> Schedule(rankToNode, nNodes, param, b)[t].recvRank == a
  {
    hide Schedule, Round, Position, SizeOf, DeltasOf, Flat;
    ScheduleAt(rankToNode, nNodes, param, a, t);
    ScheduleAt(rankToNode, nNodes, param, b, t);
    var flat, size := Flat(rankToNode, nNodes), SizeOf(rankToNode, nNodes, param);
    Matched(flat, size, DeltasOf(NGroups(rankToNode, nNodes, param)),
            Position(rankToNode, nNodes, a), Position(rankToNode, nNodes, b), t);
  }

  ghost function Sends(s: seq<Entry>): (r: seq<int>)
    ensures |r| == |s| && forall t :: 0 <= t < |s| ==> r[t] == s[t].sendRank
  {
    seq(|s|, t requires 0 <= t < |s| => s[t].sendRank)
  }

  ghost function Recvs(s: seq<Entry>): (r: seq<int>)
    ensures |r| == |s| && forall t :: 0 <= t < |s| ==> r[t] == s[t].recvRank
  {
    seq(|s|, t requires 0 <= t < |s| => s[t].recvRank)
  }

  /** Over its `nRanks` rounds a rank sends to every rank once and receives from every rank once. */
  lemma SchedulePermutes(rankToNode: seq<nat>, nNodes: nat, param: nat, a: nat)
    requires ValidNodes(rankToNode, nNodes) && param > 0 && a < |rankToNode|
    ensures Permutation(Sends(Schedule(rankToNode, nNodes, param, a)))
    ensures Permutation(Recvs(Schedule(rankToNode, nNodes, param, a)))
  {
    hide Schedule, Permutation, Distinct;
    var s := Schedule(rankToNode, nNodes, param, a);
    forall t | 0 <= t < |s| ensures 0 <= s[t].sendRank < |s| && 0 <= s[t].recvRank < |s| {
      ScheduleInRange(rankToNode, nNodes, param, a, t);
    }
    forall t, u | 0 <= t < u < |s| ensures s[t].sendRank != s[u].sendRank && s[t].recvRank != s[u].recvRank {
      ScheduleNoRepeat(rankToNode, nNodes, param, a, t, u);
    }
    AllDistinct(Sends(s));
    AllDistinct(Recvs(s));
  }

  lemma AllDistinct(s: seq<int>)
    requires forall t :: 0 <= t < |s| ==> 0 <= s[t] < |s|
    requires forall t, u :: 0 <= t < u < |s| ==> s[t] != s[u]
    ensures Permutation(s)
  {
    DistinctCovers(s, |s|);
  }

  lemma ScheduleInRange(rankToNode: seq<nat>, nNodes: nat, param: nat, a: nat, t: nat)
    requires ValidNodes(rankToNode, nNodes) && param > 0 && a < |rankToNode| && t < |rankToNode|
    ensures var e := Schedule(rankToNode, nNodes, param, a)[t];
            0 <= e.sendRank < |rankToNode| && 0 <= e.recvRank < |rankToNode|
  {
    hide Position, SizeOf, DeltasOf, Flat, Schedule, Round, WellGrouped;
    ScheduleAt(rankToNode, nNodes, param, a, t);
    var flat, size := Flat(rankToNode, nNodes), SizeOf(rankToNode, nNodes, param);
    RoundInRange(flat, size, DeltasOf(NGroups(rankToNode, nNodes, param)), Position(rankToNode, nNodes, a), t);
  }

  lemma RoundInRange(flat: seq<int>, size: nat, deltas: seq<int>, a: nat, t: nat)
    requires WellGrouped(flat, size, deltas) && a < |flat| && t < |flat|
    ensures var e := Round(flat, size, deltas, a, t); 0 <= e.sendRank < |flat| && 0 <= e.recvRank < |flat|
  {
    var n := |deltas|;
    PositionParts(a, size, n);
    PositionParts(t, size, n);
    var group, local, d, e := a / size, a % size, deltas[t / size], t % size;
    PositionJoin((group + d) % n, (local + e) % size, size, n);
    PositionJoin((group - d + n) % n, (local - e + size) % size, size, n);
  }

  lemma ScheduleNoRepeat(rankToNode: seq<nat>, nNodes: nat, param: nat, a: nat, t: nat, u: nat)
    requires ValidNodes(rankToNode, nNodes) && param > 0 && a < |rankToNode| && t < u < |rankToNode|
    ensures var s := Schedule(rankToNode, nNodes, param, a);
            s[t].sendRank != s[u].sendRank && s[t].recvRank != s[u].recvRank
  {
    hide Position, SizeOf, DeltasOf, Flat, Schedule, Round, WellGrouped;
    ScheduleAt(rankToNode, nNodes, param, a, t);
    ScheduleAt(rankToNode, nNodes, param, a, u);
    var flat, size := Flat(rankToNode, nNodes), SizeOf(rankToNode, nNodes, param);
    NoRepeat(flat, size, DeltasOf(NGroups(rankToNode, nNodes, param)), Position(rankToNode, nNodes, a), t, u);
  }
}
