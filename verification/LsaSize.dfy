/** The size of the LSA teams (src/dev_runtime.cc): aligned blocks of consecutive ranks that
    must each lie within one node. */
module LsaSize {
  import opened Arith

  /** `nodes[r]` is the node of rank `r`; a boundary is a rank on another node than the one
      before it. */
  ghost predicate Boundary(nodes: seq<int>, r: int) {
    0 < r < |nodes| && nodes[r] != nodes[r - 1]
  }

  /** `d` divides every boundary, and the number of ranks. */
  ghost predicate Aligned(nodes: seq<int>, d: nat)
    requires d > 0
  {
    Divides(d, |nodes|) && forall r :: Boundary(nodes, r) ==> Divides(d, r)
  }

  /** All ranks of each block of `d` ranks are on one node. */
  ghost predicate BlocksInOneNode(nodes: seq<int>, d: nat)
    requires d > 0
  {
    Divides(d, |nodes|) && forall r, q :: 0 <= r < |nodes| && 0 <= q < |nodes| && r / d == q / d ==> nodes[r] == nodes[q]
  }

  lemma {:induction false} NoBoundary(nodes: seq<int>, r: nat, q: nat)
    requires r <= q < |nodes| && forall b :: r < b <= q ==> !Boundary(nodes, b)
    ensures nodes[r] == nodes[q]
  {
    if r < q {
      NoBoundary(nodes, r, q - 1);
      assert !Boundary(nodes, q);
    }
  }

  lemma BlockStart(d: nat, b: nat, r: nat, q: nat)
    requires d > 0 && Divides(d, b) && r < b <= q
    ensures r / d < q / d
  {
    var k := b / d;
    assert b == k * d;
    if q / d < k { MulMono(q / d + 1, k, d); Distrib(q / d, 1, d); }
    if r / d >= k { MulMono(k, r / d, d); }
  }

  lemma SameBlock(d: nat, r: nat)
    requires d > 0 && r > 0 && !Divides(d, r)
    ensures (r - 1) / d == r / d
  {
    var k, m := r / d, r % d;
    assert r == k * d + m;
    DivModUnique(r - 1, d, k, m - 1);
  }

  /** A block size keeps every block within one node iff it divides all boundaries. */
  lemma AlignedIff(nodes: seq<int>, d: nat)
    requires d > 0
    ensures Aligned(nodes, d) <==> BlocksInOneNode(nodes, d)
  {
    hide Divides;
    if Aligned(nodes, d) {
      forall r, q | 0 <= r < |nodes| && 0 <= q < |nodes| && r / d == q / d ensures nodes[r] == nodes[q] {
        var a, b := if r <= q then r else q, if r <= q then q else r;
        forall x | a < x <= b ensures !Boundary(nodes, x) {
          if Boundary(nodes, x) { BlockStart(d, x, a, b); }
        }
        NoBoundary(nodes, a, b);
      }
    }
    if BlocksInOneNode(nodes, d) {
      forall r | Boundary(nodes, r) ensures Divides(d, r) {
        if !Divides(d, r) { SameBlock(d, r); }
      }
    }
  }

  /** `d` divides the boundaries up to rank `k`. */
  ghost predicate AlignedUpTo(nodes: seq<int>, k: int, d: nat)
    requires d > 0
  {
    forall r :: Boundary(nodes, r) && r <= k ==> Divides(d, r)
  }

  /** What the gcd so far stands for, after the run of ranks that starts at `start`. */
  ghost predicate Summary(nodes: seq<int>, param: nat, start: int, lsa: nat) {
    forall d: nat :: d > 0 ==> (Divides(d, lsa) <==> Divides(d, param) && AlignedUpTo(nodes, start, d))
  }

  lemma NextRun(nodes: seq<int>, param: nat, start: nat, lsa: nat, r: nat)
    requires Summary(nodes, param, start, lsa) && (start == 0 || Boundary(nodes, start)) && start < r && Boundary(nodes, r)
    requires forall b :: start < b < r ==> !Boundary(nodes, b)
    ensures Summary(nodes, param, r, Gcd(lsa, r - start))
  {
    hide Divides, Gcd, Boundary;
    forall d: nat | d > 0
      ensures Divides(d, Gcd(lsa, r - start)) <==> Divides(d, param) && AlignedUpTo(nodes, r, d)
    {
      GcdDivisors(lsa, r - start, d);
      RunDivides(nodes, start, r, d);
    }
  }

  lemma RunDivides(nodes: seq<int>, start: nat, r: nat, d: nat)
    requires d > 0 && (start == 0 || Boundary(nodes, start)) && start < r && Boundary(nodes, r)
    requires forall b :: start < b < r ==> !Boundary(nodes, b)
    ensures AlignedUpTo(nodes, r, d) <==> AlignedUpTo(nodes, start, d) && Divides(d, r - start)
  {
    hide Boundary;
    StartDivides(nodes, start, r, d);
    if AlignedUpTo(nodes, start, d) && Divides(d, r) {
      forall b | Boundary(nodes, b) && b <= r ensures Divides(d, b) {
        if b > start { assert b == r; }
      }
    }
  }

  lemma StartDivides(nodes: seq<int>, start: nat, r: nat, d: nat)
    requires d > 0 && (start == 0 || Boundary(nodes, start))
    ensures AlignedUpTo(nodes, start, d) ==> (Divides(d, r - start) <==> Divides(d, r))
  {
    if AlignedUpTo(nodes, start, d) {
      if start == 0 { ModSmall(0, d); }
      assert Divides(d, start);
      if Divides(d, r) { DividesSum(d, r, start); }
      if Divides(d, r - start) { DividesSum(d, r - start, start); }
    }
  }

  lemma LastRun(nodes: seq<int>, param: nat, start: nat, lsa: nat, d: nat)
    requires Summary(nodes, param, start, lsa) && (start == 0 || Boundary(nodes, start)) && start < |nodes| && d > 0
    requires forall b :: start < b < |nodes| ==> !Boundary(nodes, b)
    ensures Divides(d, Gcd(lsa, |nodes| - start)) <==> Divides(d, param) && Aligned(nodes, d)
  {
    hide Divides, Gcd;
    GcdDivisors(lsa, |nodes| - start, d);
    StartDivides(nodes, start, |nodes|, d);
  }

  /** `computeLsaSize`.  Outside the cross-clique case the result divides the number of ranks and
      keeps every aligned block of that many ranks within one node; unless a parameter limits
      it, it is the largest such size. */
  method ComputeLsaSize(nodes: seq<int>, param: nat, crossClique: bool, nvlDomainSize: nat) returns (lsa: nat)
    requires nodes != []
    ensures lsa > 0
    ensures crossClique && nvlDomainSize == |nodes| ==> lsa == |nodes|
    ensures !(crossClique && nvlDomainSize == |nodes|) ==>
              && BlocksInOneNode(nodes, lsa)
              && (forall d: nat :: d > 0 ==> (Divides(d, lsa) <==> Divides(d, param) && BlocksInOneNode(nodes, d)))
              && (param == 0 ==> forall d: nat :: d > 0 && BlocksInOneNode(nodes, d) ==> d <= lsa)
  {
    hide Divides, Gcd, Aligned, BlocksInOneNode;
    if crossClique && nvlDomainSize == |nodes| { return |nodes|; }
    lsa := param;
    var nodeSize := 1;
    NothingYet(nodes, param);
    for r := 1 to |nodes|
      invariant 1 <= nodeSize <= r
      invariant Summary(nodes, param, r - nodeSize, lsa) && (r == nodeSize || Boundary(nodes, r - nodeSize))
      invariant forall b :: r - nodeSize < b < r ==> !Boundary(nodes, b)
    {
      if nodes[r] == nodes[r - 1] {
        nodeSize := nodeSize + 1;
      } else {
        NextRun(nodes, param, r - nodeSize, lsa, r);
        lsa := ComputeGcd(lsa, nodeSize);
        nodeSize := 1;
      }
    }
    ghost var start := |nodes| - nodeSize;
    forall d: nat | d > 0
      ensures Divides(d, Gcd(lsa, nodeSize)) <==> Divides(d, param) && BlocksInOneNode(nodes, d)
    {
      LastRun(nodes, param, start, lsa, d);
      AlignedIff(nodes, d);
    }
    lsa := ComputeGcd(lsa, nodeSize);
    GcdPositive(param, lsa, nodes);
  }

  lemma NothingYet(nodes: seq<int>, param: nat)
    ensures Summary(nodes, param, 0, param)
  {
  }

  lemma GcdPositive(param: nat, lsa: nat, nodes: seq<int>)
    requires lsa > 0
    requires forall d: nat :: d > 0 ==> (Divides(d, lsa) <==> Divides(d, param) && BlocksInOneNode(nodes, d))
    ensures BlocksInOneNode(nodes, lsa)
    ensures param == 0 ==> forall d: nat :: d > 0 && BlocksInOneNode(nodes, d) ==> d <= lsa
  {
    hide BlocksInOneNode;
    DividesSelf(lsa);
    if param == 0 {
      forall d: nat | d > 0 && BlocksInOneNode(nodes, d) ensures d <= lsa {
        ModSmall(0, d);
        DivisorBound(d, lsa);
      }
    }
  }

  /** The ranks of a rank's team, as `ncclDevrInitOnce` lists them: they exist, they are the
      same list for every member, and they are on one node. */
  lemma TeamOfRank(nodes: seq<int>, lsa: nat, rank: nat, i: nat)
    requires lsa > 0 && BlocksInOneNode(nodes, lsa) && rank < |nodes| && i < lsa
    ensures var other := rank + (i - rank % lsa);
            && 0 <= other < |nodes| && other / lsa == rank / lsa && other % lsa == i && nodes[other] == nodes[rank]
  {
    var k := rank / lsa;
    assert rank == k * lsa + rank % lsa;
    DivModUnique(k * lsa + i, lsa, k, i);
    var n := |nodes| / lsa;
    assert |nodes| == n * lsa;
    if k >= n { MulMono(n, k, lsa); }
    MulMono(k + 1, n, lsa);
    Distrib(k, 1, lsa);
  }
}
