/** The loops that fill the node tables and the schedule (src/init.cc), proved against
    the definitions of `P2pSchedule`. */
module P2pPlanner {
  import opened Arith
  import opened Seqs
  import opened P2pSchedule

  ghost predicate TablesOf(rankToNode: seq<nat>, nNodes: nat, nodeRanks: seq<seq<int>>) {
    |nodeRanks| == nNodes && forall n :: 0 <= n < nNodes ==> nodeRanks[n] == Members(rankToNode, n, |rankToNode|)
  }

  lemma MembersStep(rankToNode: seq<nat>, node: nat, r: nat)
    requires r < |rankToNode|
    ensures Members(rankToNode, node, r + 1) == Members(rankToNode, node, r) + if rankToNode[r] == node then [r as int] else []
    ensures LocalRank(rankToNode, r) == |Members(rankToNode, rankToNode[r], r)|
    ensures Members(rankToNode, node, 0) == []
  {
  }

  /** Numbers each rank within its node by counting. */
  method CountRanks(rankToNode: seq<nat>, nNodes: nat) returns (localRanks: seq<nat>, counts: seq<nat>)
    requires ValidNodes(rankToNode, nNodes)
    ensures |localRanks| == |rankToNode| && forall r :: 0 <= r < |rankToNode| ==> localRanks[r] == LocalRank(rankToNode, r)
    ensures counts == Counts(rankToNode, nNodes)
  {
    hide Members, LocalRank;
    var count := new nat[nNodes](_ => 0);
    var local := new nat[|rankToNode|](_ => 0);
    forall n | 0 <= n < nNodes ensures Members(rankToNode, n, 0) == [] { MembersStep(rankToNode, n, 0); }
    for r := 0 to |rankToNode|
      invariant forall n :: 0 <= n < nNodes ==> count[n] == |Members(rankToNode, n, r)|
      invariant forall q :: 0 <= q < r ==> local[q] == LocalRank(rankToNode, q)
    {
      forall n | 0 <= n < nNodes
        ensures |Members(rankToNode, n, r + 1)| == |Members(rankToNode, n, r)| + if rankToNode[r] == n then 1 else 0
      {
        MembersStep(rankToNode, n, r);
      }
      MembersStep(rankToNode, 0, r);
      var node := rankToNode[r];
      local[r] := count[node];
      count[node] := count[node] + 1;
    }
    localRanks, counts := local[..], count[..];
  }

  method ListRanks(rankToNode: seq<nat>, nNodes: nat) returns (nodeRanks: seq<seq<int>>)
    requires ValidNodes(rankToNode, nNodes)
    ensures TablesOf(rankToNode, nNodes, nodeRanks)
  {
    nodeRanks := seq(nNodes, _ => []);
    for r := 0 to |rankToNode|
      invariant |nodeRanks| == nNodes
      invariant forall n :: 0 <= n < nNodes ==> nodeRanks[n] == Members(rankToNode, n, r)
    {
      var node := rankToNode[r];
      nodeRanks := nodeRanks[node := nodeRanks[node] + [r]];
    }
  }

  /** The tables of all nodes, and the size of the largest one. */
  method FillNodeTables(rankToNode: seq<nat>, nNodes: nat)
    returns (localRanks: seq<nat>, nodeRanks: seq<seq<int>>, maxLocalRanks: nat)
    requires ValidNodes(rankToNode, nNodes)
    ensures |localRanks| == |rankToNode| && forall r :: 0 <= r < |rankToNode| ==> localRanks[r] == LocalRank(rankToNode, r)
    ensures TablesOf(rankToNode, nNodes, nodeRanks)
    ensures forall n :: 0 <= n < nNodes ==> |nodeRanks[n]| <= maxLocalRanks
    ensures exists n :: 0 <= n < nNodes && maxLocalRanks == |nodeRanks[n]|
  {
    hide Members, LocalRank;
    var counts;
    localRanks, counts := CountRanks(rankToNode, nNodes);
    assert rankToNode[0] < nNodes;
    maxLocalRanks := counts[0];
    for n := 1 to nNodes
      invariant forall m :: 0 <= m < n ==> counts[m] <= maxLocalRanks
      invariant maxLocalRanks in counts
    {
      if counts[n] > maxLocalRanks { maxLocalRanks := counts[n]; }
    }
    nodeRanks := ListRanks(rankToNode, nNodes);
    assert forall n :: 0 <= n < nNodes ==> |nodeRanks[n]| == counts[n];
  }

  /** Shrinks the group size until it divides every node. */
  method PickGroupSize(start: nat, nodeRanks: seq<seq<int>>, ghost counts: seq<nat>) returns (size: nat)
    requires start > 0 && |counts| == |nodeRanks|
    requires forall n :: 0 <= n < |counts| ==> counts[n] == |nodeRanks[n]|
    ensures size == GroupSize(start, counts) && size > 0
    ensures forall d: nat :: d > 0 ==>
              (Divides(d, size) <==> Divides(d, start) && forall n :: 0 <= n < |nodeRanks| ==> Divides(d, |nodeRanks[n]|))
  {
    size := start;
    for node := 0 to |nodeRanks|
      invariant size == GroupSize(start, counts[..node])
    {
      assert counts[..node + 1][..node] == counts[..node];
      var localRanks := |nodeRanks[node]|;
      if localRanks % size != 0 || localRanks < size { size := ComputeGcd(size, localRanks); }
    }
    assert counts[..|counts|] == counts;
    hide GroupSize, Divides;
    forall d: nat | d > 0
      ensures Divides(d, size) <==> Divides(d, start) && forall n :: 0 <= n < |nodeRanks| ==> Divides(d, |nodeRanks[n]|)
    {
      GroupSizeDivisors(start, counts, d);
    }
  }

  /** Group `g` is the block of `size` ranks that starts at local rank `base` of `node`. */
  ghost predicate GroupAt(flat: seq<int>, nodeRanks: seq<seq<int>>, size: nat, g: nat, node: nat, base: nat) {
    && node < |nodeRanks| && base + size <= |nodeRanks[node]|
    && 0 <= g * size && g * size + size <= |flat|
    && nodeRanks[node][base..base + size] == flat[g * size..g * size + size]
  }

  ghost predicate Groups(flat: seq<int>, nodeRanks: seq<seq<int>>, size: nat, toNode: seq<nat>, toLocal: seq<nat>, n: nat) {
    n <= |toNode| && n <= |toLocal| && forall g :: 0 <= g < n ==> GroupAt(flat, nodeRanks, size, g, toNode[g], toLocal[g])
  }

  lemma FlatSlice(rankToNode: seq<nat>, nNodes: nat, node: nat)
    requires node < nNodes
    ensures var a, m := |Flat(rankToNode, node)|, Members(rankToNode, node, |rankToNode|);
            a + |m| <= |Flat(rankToNode, nNodes)| && Flat(rankToNode, nNodes)[a..a + |m|] == m
  {
    hide Members;
    FlatPrefix(rankToNode, node + 1, nNodes);
    assert Flat(rankToNode, node + 1) == Flat(rankToNode, node) + Members(rankToNode, node, |rankToNode|);
  }

  lemma BlockBounds(count: nat, g: nat, size: nat, total: nat)
    requires size > 0 && total % size == 0 && g < total / size
    ensures 0 <= g * size && g * size + size <= total
    ensures (count + g) * size == count * size + g * size && 0 <= count * size
    ensures (count + g + 1) * size == count * size + g * size + size
  {
    MulMono(0, g, size);
    MulMono(0, count, size);
    MulMono(g + 1, total / size, size);
    Distrib(g, 1, size);
    Distrib(count, g, size);
    Distrib(count + g, 1, size);
  }

  lemma GroupOfNode(flat: seq<int>, nodeRanks: seq<seq<int>>, size: nat, count: nat, node: nat, g: nat)
    requires size > 0 && node < |nodeRanks| && |nodeRanks[node]| % size == 0 && g < |nodeRanks[node]| / size
    requires 0 <= count * size && count * size + |nodeRanks[node]| <= |flat|
    requires flat[count * size..count * size + |nodeRanks[node]|] == nodeRanks[node]
    ensures GroupAt(flat, nodeRanks, size, count + g, node, g * size)
    ensures (count + g + 1) * size <= |flat|
  {
    BlockBounds(count, g, size, |nodeRanks[node]|);
    var a, x, m := count * size, g * size, nodeRanks[node];
    assert (count + g) * size == a + x;
    SliceOfSlice(flat, a, |m|, x, size);
  }

  lemma SliceOfSlice(flat: seq<int>, a: nat, n: nat, x: nat, size: nat)
    requires a + n <= |flat| && x + size <= n
    ensures flat[a..a + n][x..x + size] == flat[a + x..a + x + size]
  {
    var p, q := flat[a..a + n][x..x + size], flat[a + x..a + x + size];
    forall i | 0 <= i < size ensures p[i] == q[i] {
      assert p[i] == flat[a..a + n][x + i];
      assert flat[a..a + n][x + i] == flat[a + (x + i)];
    }
  }

  lemma FactorBound(a: int, b: int, size: nat)
    requires size > 0 && (a + 1) * size <= b * size
    ensures a < b
  {
    Distrib(b, a + 1, size);
    if b <= a { MulMono(b - (a + 1), -1, size); }
  }

  /** `count` groups hold `len` ranks. */
  ghost predicate Spans(count: int, size: nat, len: nat) { count * size == len }

  method NumberNode(ghost flat: seq<int>, nodeRanks: seq<seq<int>>, size: nat, node: nat, count: nat, ghost len: nat,
                    toNode: array<nat>, toLocal: array<nat>)
    returns (count': nat)
    requires size > 0 && node < |nodeRanks| && |nodeRanks[node]| % size == 0 && toNode != toLocal
    requires Spans(count, size, len) && len + |nodeRanks[node]| <= |flat|
    requires flat[len..len + |nodeRanks[node]|] == nodeRanks[node]
    requires Spans(toNode.Length, size, |flat|) && toLocal.Length == toNode.Length
    requires Groups(flat, nodeRanks, size, toNode[..], toLocal[..], count)
    modifies toNode, toLocal
    ensures count' == count + |nodeRanks[node]| / size <= toNode.Length
    ensures Groups(flat, nodeRanks, size, toNode[..], toLocal[..], count')
  {
    hide GroupAt;
    count' := count;
    for g := 0 to |nodeRanks[node]| / size
      invariant count' == count + g <= toNode.Length
      invariant forall h :: 0 <= h < count' ==> GroupAt(flat, nodeRanks, size, h, toNode[h], toLocal[h])
    {
      GroupOfNode(flat, nodeRanks, size, count, node, g);
      FactorBound(count', toNode.Length, size);
      BlockBounds(count, g, size, |nodeRanks[node]|);
      toLocal[count'] := g * size;
      toNode[count'] := node;
      count' := count' + 1;
    }
  }

  /** Numbers the groups node by node, and locates the caller's group. */
  method NumberGroups(ghost rankToNode: seq<nat>, nNodes: nat, nodeRanks: seq<seq<int>>, size: nat, nGroups: nat,
                      node: nat, localRank: nat)
    returns (ok: bool, toNode: array<nat>, toLocal: array<nat>, group: nat)
    requires ValidNodes(rankToNode, nNodes) && TablesOf(rankToNode, nNodes, nodeRanks)
    requires size > 0 && nGroups * size == |rankToNode| && node < nNodes
    requires forall n :: 0 <= n < nNodes ==> |nodeRanks[n]| % size == 0
    ensures ok && toNode.Length == toLocal.Length == nGroups
    ensures Groups(Flat(rankToNode, nNodes), nodeRanks, size, toNode[..], toLocal[..], nGroups)
    ensures group * size == |Flat(rankToNode, node)| + localRank / size * size
  {
    hide Flat, Members, GroupAt, Permutation, ValidNodes;
    ghost var flat := Flat(rankToNode, nNodes);
    FlatPermutes(rankToNode, nNodes);
    SizesOf(rankToNode, nNodes, nodeRanks);
    toNode, toLocal := new nat[nGroups](_ => 0), new nat[nGroups](_ => 0);
    ok, group := false, 0;
    var mine: nat := localRank / size;
    var skipped: nat := 0;
    var groupCount: nat := 0;
    FlatEmpty(rankToNode);
    assert Spans(groupCount, size, |Flat(rankToNode, 0)|) && Spans(nGroups, size, |flat|);
    assert Groups(flat, nodeRanks, size, toNode[..], toLocal[..], groupCount);
    hide Groups, TablesOf, Spans;
    for n := 0 to nNodes
      invariant Spans(groupCount, size, |Flat(rankToNode, n)|)
      invariant groupCount <= nGroups
      invariant Groups(flat, nodeRanks, size, toNode[..], toLocal[..], groupCount)
      invariant n <= node ==> skipped == groupCount
      invariant n >= node ==> Spans(skipped, size, |Flat(rankToNode, node)|)
    {
      if |nodeRanks[n]| % size != 0 { return; }
      NodeStep(rankToNode, nNodes, nodeRanks, size, groupCount, n);
      groupCount := NumberNode(flat, nodeRanks, size, n, groupCount, |Flat(rankToNode, n)|, toNode, toLocal);
      if n < node { skipped := skipped + |nodeRanks[n]| / size; }
    }
    SameFactor(groupCount, nGroups, size, |flat|);
    if groupCount != nGroups { return; }
    SpansPlus(skipped, mine, size, |Flat(rankToNode, node)|);
    ok, group := true, skipped + mine;
  }

  lemma SizesOf(rankToNode: seq<nat>, nNodes: nat, nodeRanks: seq<seq<int>>)
    requires TablesOf(rankToNode, nNodes, nodeRanks)
    ensures |nodeRanks| == nNodes
  {
  }

  lemma NodeStep(rankToNode: seq<nat>, nNodes: nat, nodeRanks: seq<seq<int>>, size: nat, count: nat, n: nat)
    requires TablesOf(rankToNode, nNodes, nodeRanks) && n < nNodes && size > 0 && |nodeRanks[n]| % size == 0
    requires Spans(count, size, |Flat(rankToNode, n)|)
    ensures var flat, len := Flat(rankToNode, nNodes), |Flat(rankToNode, n)|;
            len + |nodeRanks[n]| <= |flat| && flat[len..len + |nodeRanks[n]|] == nodeRanks[n]
    ensures Spans(count + |nodeRanks[n]| / size, size, |Flat(rankToNode, n + 1)|)
  {
    hide Flat, Members;
    FlatSlice(rankToNode, nNodes, n);
    FlatGrows(rankToNode, n);
    DistribQuotient(count, |nodeRanks[n]|, size);
  }

  lemma DistribQuotient(count: nat, total: nat, size: nat)
    requires size > 0 && total % size == 0
    ensures (count + total / size) * size == count * size + total && 0 <= count * size
  {
    Distrib(count, total / size, size);
    MulMono(0, count, size);
  }

  lemma SpansPlus(a: int, b: int, size: nat, len: nat)
    requires Spans(a, size, len)
    ensures (a + b) * size == len + b * size
  {
    Distrib(a, b, size);
  }

  lemma SameFactor(a: int, b: int, size: nat, len: nat)
    requires size > 0 && Spans(a, size, len) && Spans(b, size, len)
    ensures a == b
  {
    Distrib(a, b, size);
    SmallMultiple(a - b, size);
  }

  lemma FlatEmpty(rankToNode: seq<nat>)
    ensures |Flat(rankToNode, 0)| == 0
  {
  }

  lemma FlatGrows(rankToNode: seq<nat>, n: nat)
    ensures |Flat(rankToNode, n + 1)| == |Flat(rankToNode, n)| + |Members(rankToNode, n, |rankToNode|)|
  {
  }

  lemma {:induction false} DeltasPrefix(k: nat, nGroups: nat, a: nat, n: nat)
    requires a <= n
    ensures Deltas(k, nGroups, a) <= Deltas(k, nGroups, n)
  {
    if a < n { DeltasPrefix(k, nGroups, a, n - 1); }
  }

  /** A surviving delta has its place in the full list. */
  lemma DeltaIndex(k: nat, nGroups: nat, j: nat)
    requires j < Pow2(k) && nGroups <= Pow2(k) && Tri(j) % Pow2(k) < nGroups
    ensures var d, all := Deltas(k, nGroups, j), Deltas(k, nGroups, Pow2(k));
            && |d| < |all| == nGroups && all[|d|] == Tri(j) % Pow2(k)
            && |Deltas(k, nGroups, j + 1)| == |d| + 1
  {
    DeltasPermute(k, nGroups);
    DeltasPrefix(k, nGroups, j + 1, Pow2(k));
    assert Deltas(k, nGroups, j + 1) == Deltas(k, nGroups, j) + [Tri(j) % Pow2(k)];
  }

  lemma TriStep(k: nat, j: nat)
    ensures (Tri(j) % Pow2(k) + (j + 1)) % Pow2(k) == Tri(j + 1) % Pow2(k)
  {
    ModAdd(Tri(j), j + 1, Pow2(k));
  }

  /** The peers of one round, read through the group tables. */
  lemma RoundEntry(flat: seq<int>, nodeRanks: seq<seq<int>>, size: nat, deltas: seq<int>,
                   toNode: seq<nat>, toLocal: seq<nat>, group: nat, local: nat, index: nat, e: nat)
    requires WellGrouped(flat, size, deltas) && Groups(flat, nodeRanks, size, toNode, toLocal, |deltas|)
    requires group < |deltas| && local < size && index < |deltas| && e < size
    requires |toNode| == |toLocal| == |deltas|
    ensures var n, d := |deltas|, deltas[index];
            var sendGroup, recvGroup := (group + d) % n, (group - d + n) % n;
            var at, t := group * size + local, index * size + e;
            && 0 <= at < |flat| && 0 <= t < |flat|
            && toNode[sendGroup] < |nodeRanks| && toNode[recvGroup] < |nodeRanks|
            && toLocal[sendGroup] + (local + e) % size < |nodeRanks[toNode[sendGroup]]|
            && toLocal[recvGroup] + (local - e + size) % size < |nodeRanks[toNode[recvGroup]]|
            && Round(flat, size, deltas, at, t)
            == Entry(nodeRanks[toNode[sendGroup]][toLocal[sendGroup] + (local + e) % size],
                     nodeRanks[toNode[recvGroup]][toLocal[recvGroup] + (local - e + size) % size])
  {
    hide Permutation, GroupAt, Round;
    var n, d := |deltas|, deltas[index];
    RoundParts(flat, size, deltas, group, local, index, e);
    var sendGroup, recvGroup := (group + d) % n, (group - d + n) % n;
    MemberOfGroup(flat, nodeRanks, size, sendGroup, toNode[sendGroup], toLocal[sendGroup], (local + e) % size);
    MemberOfGroup(flat, nodeRanks, size, recvGroup, toNode[recvGroup], toLocal[recvGroup], (local - e + size) % size);
  }

  lemma MemberOfGroup(flat: seq<int>, nodeRanks: seq<seq<int>>, size: nat, g: nat, node: nat, base: nat, l: nat)
    requires GroupAt(flat, nodeRanks, size, g, node, base) && l < size
    ensures node < |nodeRanks| && base + l < |nodeRanks[node]| && 0 <= g * size + l < |flat|
    ensures nodeRanks[node][base + l] == flat[g * size + l]
  {
    assert nodeRanks[node][base..base + size][l] == nodeRanks[node][base + l];
    var a := g * size;
    assert flat[a..a + size][l] == flat[a + l];
  }

  function Pow2Up(n: nat): (p: nat)
    ensures p == Pow2(Log2Up(n))
  {
    if n <= 1 then 1 else 2 * Pow2Up((n + 1) / 2)
  }

  /** Everything `ncclP2pSchedule` has worked out before its main loop. */
  ghost predicate Ready(flat: seq<int>, nodeRanks: seq<seq<int>>, size: nat, nGroups: nat,
                        toNode: seq<nat>, toLocal: seq<nat>, group: nat, local: nat)
  {
    && |toNode| == |toLocal| == nGroups && group < nGroups && local < size
    && WellGrouped(flat, size, DeltasOf(nGroups))
    && Groups(flat, nodeRanks, size, toNode, toLocal, nGroups)
  }

  /** The rounds of one group distance. */
  method EmitGroup(ghost flat: seq<int>, nodeRanks: seq<seq<int>>, size: nat, nGroups: nat, toNode: array<nat>, toLocal: array<nat>,
                   group: nat, local: nat, groupDelta: nat, ghost index: nat, round: nat, ghost all: seq<Entry>, sched: array<Entry>)
    requires Ready(flat, nodeRanks, size, nGroups, toNode[..], toLocal[..], group, local)
    requires index < nGroups && groupDelta == DeltasOf(nGroups)[index] && round == index * size
    requires 0 <= group * size + local < |flat| && all == Rounds(flat, size, DeltasOf(nGroups), group * size + local)
    requires sched.Length == |all| && round + size <= |all|
    modifies sched
    ensures forall t :: 0 <= t < round ==> sched[t] == old(sched[t])
    ensures forall t :: round <= t < round + size ==> sched[t] == all[t]
  {
    hide WellGrouped, Groups, Round, DeltasOf, GroupAt;
    ghost var deltas := DeltasOf(nGroups);
    var sendGroup := (group + groupDelta) % nGroups;
    var recvGroup := (group - groupDelta + nGroups) % nGroups;
    for e := 0 to size
      invariant forall t :: 0 <= t < round ==> sched[t] == old(sched[t])
      invariant forall t :: round <= t < round + e ==> sched[t] == all[t]
    {
      RoundEntry(flat, nodeRanks, size, deltas, toNode[..], toLocal[..], group, local, index, e);
      var sendLocal := toLocal[sendGroup] + (local + e) % size;
      var recvLocal := toLocal[recvGroup] + (local - e + size) % size;
      sched[round + e] := Entry(nodeRanks[toNode[sendGroup]][sendLocal], nodeRanks[toNode[recvGroup]][recvLocal]);
    }
  }

  /** The quadratic walk over group distances. */
  method EmitRounds(ghost flat: seq<int>, nodeRanks: seq<seq<int>>, size: nat, nGroups: nat, toNode: array<nat>, toLocal: array<nat>,
                    group: nat, local: nat, sched: array<Entry>) returns (round: nat)
    requires Ready(flat, nodeRanks, size, nGroups, toNode[..], toLocal[..], group, local)
    requires sched.Length == |flat|
    modifies sched
    ensures round == |flat| && 0 <= group * size + local < |flat|
    ensures sched[..] == Rounds(flat, size, DeltasOf(nGroups), group * size + local)
  {
    hide Ready, WellGrouped, Round, Rounds, Groups, Deltas, Tri, Pow2, DeltasOf;
    ghost var k := Log2Up(nGroups);
    var nGroupsPow2 := Pow2Up(nGroups);
    var groupRound, groupDelta: nat := 0, 0;
    ReadyFacts(flat, nodeRanks, size, nGroups, toNode[..], toLocal[..], group, local);
    WalkStart(k, nGroups);
    ghost var at: nat := group * size + local;
    ghost var all := Rounds(flat, size, DeltasOf(nGroups), at);
    round := 0;
    while groupRound != nGroupsPow2
      invariant 0 <= groupRound <= nGroupsPow2 && groupDelta == Tri(groupRound) % Pow2(k)
      invariant round == |Deltas(k, nGroups, groupRound)| * size <= sched.Length
      invariant forall t :: 0 <= t < round ==> sched[t] == all[t]
      decreases nGroupsPow2 - groupRound
    {
      ghost var index := |Deltas(k, nGroups, groupRound)|;
      WalkStep(k, nGroups, groupRound, size);
      if groupDelta < nGroups {
        EmitGroup(flat, nodeRanks, size, nGroups, toNode, toLocal, group, local, groupDelta, index, round, all, sched);
        round := round + size;
      }
      TriStep(k, groupRound);
      groupRound := groupRound + 1;
      groupDelta := (groupDelta + groupRound) % nGroupsPow2;
    }
    WalkEnd(nGroups);
    assert sched[..] == all;
  }

  lemma ReadyFacts(flat: seq<int>, nodeRanks: seq<seq<int>>, size: nat, nGroups: nat,
                   toNode: seq<nat>, toLocal: seq<nat>, group: nat, local: nat)
    requires Ready(flat, nodeRanks, size, nGroups, toNode, toLocal, group, local)
    ensures WellGrouped(flat, size, DeltasOf(nGroups)) && |flat| == nGroups * size && size > 0
    ensures 0 <= group * size + local < |flat|
    ensures forall i :: 0 <= i < nGroups ==> 0 <= DeltasOf(nGroups)[i] < nGroups
  {
    PositionJoin(group, local, size, nGroups);
  }

  lemma WalkStart(k: nat, nGroups: nat)
    ensures |Deltas(k, nGroups, 0)| == 0 && Tri(0) % Pow2(k) == 0
  {
    ModSmall(0, Pow2(k));
  }

  lemma WalkStep(k: nat, nGroups: nat, j: nat, size: nat)
    requires k == Log2Up(nGroups) && j < Pow2(k)
    ensures var index, delta := |Deltas(k, nGroups, j)|, Tri(j) % Pow2(k);
            && (delta < nGroups ==>
                  && index < nGroups && DeltasOf(nGroups)[index] == delta
                  && |Deltas(k, nGroups, j + 1)| * size == index * size + size
                  && (index + 1) * size <= nGroups * size)
            && (delta >= nGroups ==> |Deltas(k, nGroups, j + 1)| == index)
  {
    if Tri(j) % Pow2(k) < nGroups {
      DeltaIndex(k, nGroups, j);
      var index := |Deltas(k, nGroups, j)|;
      Distrib(index, 1, size);
      MulMono(index + 1, nGroups, size);
    }
  }

  lemma WalkEnd(nGroups: nat)
    ensures |Deltas(Log2Up(nGroups), nGroups, Pow2(Log2Up(nGroups)))| == nGroups
  {
    DeltasPermute(Log2Up(nGroups), nGroups);
  }

  /** Node tables, group size, groups and rounds of one rank; the internal checks never fail. */
  method PlanP2p(rankToNode: seq<nat>, nNodes: nat, param: nat, rank: nat) returns (ok: bool, size: nat, sched: array<Entry>)
    requires ValidNodes(rankToNode, nNodes) && param > 0 && rank < |rankToNode|
    ensures ok && sched[..] == Schedule(rankToNode, nNodes, param, rank)
    ensures size > 0 && forall d: nat :: d > 0 ==>
              (Divides(d, size) <==>
               (nNodes > 1 ==> Divides(d, param)) && forall n :: 0 <= n < nNodes ==> Divides(d, RanksOn(rankToNode, n)))
  {
    hide Flat, Members, LocalRank, GroupSize, RanksOn, Groups, Schedule, TablesOf, ValidNodes, Divides, Permutation, Rounds, DeltasOf, SizeOf, Position;
    var localRanks, nodeRanks, maxLocalRanks := FillNodeTables(rankToNode, nNodes);
    StartSize(rankToNode, nNodes, nodeRanks, maxLocalRanks);
    var start := if nNodes > 1 then param else maxLocalRanks;
    size := PickGroupSize(start, nodeRanks, Counts(rankToNode, nNodes));
    PlanFacts(rankToNode, nNodes, param, rank, nodeRanks, size);
    var nGroups := |rankToNode| / size;
    sched := new Entry[|rankToNode|](_ => Entry(0, 0));
    var toNode, toLocal, group;
    ok, toNode, toLocal, group := NumberGroups(rankToNode, nNodes, nodeRanks, size, nGroups, rankToNode[rank], localRanks[rank]);
    if !ok { return; }
    var local := localRanks[rank] % size;
    PlanPosition(rankToNode, nNodes, rank, size, nGroups, group);
    var round := EmitRounds(Flat(rankToNode, nNodes), nodeRanks, size, nGroups, toNode, toLocal, group, local, sched);
    ok := round == |rankToNode|;
    ScheduleIs(rankToNode, nNodes, param, rank);
  }

  lemma StartSize(rankToNode: seq<nat>, nNodes: nat, nodeRanks: seq<seq<int>>, maxLocalRanks: nat)
    requires ValidNodes(rankToNode, nNodes) && TablesOf(rankToNode, nNodes, nodeRanks)
    requires exists n :: 0 <= n < nNodes && maxLocalRanks == |nodeRanks[n]|
    ensures nNodes == 1 ==> maxLocalRanks == |rankToNode|
    ensures nNodes >= 1 && |rankToNode| > 0 && |nodeRanks| == nNodes
    ensures forall n :: 0 <= n < nNodes ==> Counts(rankToNode, nNodes)[n] == |nodeRanks[n]|
  {
    assert rankToNode[0] < nNodes;
    if nNodes == 1 {
      FlatPermutes(rankToNode, 1);
      FlatGrows(rankToNode, 0);
      FlatEmpty(rankToNode);
    }
  }

  lemma PlanFacts(rankToNode: seq<nat>, nNodes: nat, param: nat, rank: nat, nodeRanks: seq<seq<int>>, size: nat)
    requires ValidNodes(rankToNode, nNodes) && TablesOf(rankToNode, nNodes, nodeRanks) && param > 0 && rank < |rankToNode|
    requires size == GroupSize(if nNodes > 1 then param else |rankToNode|, Counts(rankToNode, nNodes))
    ensures size == SizeOf(rankToNode, nNodes, param) && size > 0
    ensures |rankToNode| / size >= 1 && |rankToNode| / size * size == |rankToNode|
    ensures |rankToNode| / size == NGroups(rankToNode, nNodes, param)
    ensures forall n :: 0 <= n < nNodes ==> |nodeRanks[n]| % size == 0
    ensures rankToNode[rank] < nNodes
    ensures forall d: nat :: d > 0 ==>
              (Divides(d, size) <==>
               (nNodes > 1 ==> Divides(d, param)) && forall n :: 0 <= n < nNodes ==> Divides(d, RanksOn(rankToNode, n)))
    ensures WellGrouped(Flat(rankToNode, nNodes), size, DeltasOf(|rankToNode| / size))
    ensures |Flat(rankToNode, nNodes)| == |rankToNode|
  {
    hide Flat, Members, DeltasOf, GroupSize, RanksOn;
    forall d: nat | d > 0
      ensures Divides(d, size) <==>
              (nNodes > 1 ==> Divides(d, param)) && forall n :: 0 <= n < nNodes ==> Divides(d, RanksOn(rankToNode, n))
    {
      SizeGreatest(rankToNode, nNodes, param, d);
    }
    SizeDivides(rankToNode, nNodes, param);
    Grouped(rankToNode, nNodes, param);
    forall n | 0 <= n < nNodes ensures |nodeRanks[n]| % size == 0 {
      assert Divides(size, |Members(rankToNode, n, |rankToNode|)|);
    }
  }

  /** The caller's group and its place in the group are its position in the flat order. */
  lemma PlanPosition(rankToNode: seq<nat>, nNodes: nat, rank: nat, size: nat, nGroups: nat, group: nat)
    requires ValidNodes(rankToNode, nNodes) && rank < |rankToNode| && size > 0 && nGroups * size == |rankToNode|
    requires group * size == |Flat(rankToNode, rankToNode[rank])| + LocalRank(rankToNode, rank) / size * size
    ensures group * size + LocalRank(rankToNode, rank) % size == Position(rankToNode, nNodes, rank)
    ensures group < nGroups
  {
    hide Flat, LocalRank;
    var l := LocalRank(rankToNode, rank);
    var at := Position(rankToNode, nNodes, rank);
    assert l == l / size * size + l % size;
    if group >= nGroups { MulMono(nGroups, group, size); }
  }

  lemma ScheduleIs(rankToNode: seq<nat>, nNodes: nat, param: nat, rank: nat)
    requires ValidNodes(rankToNode, nNodes) && param > 0 && rank < |rankToNode|
    ensures var flat, size := Flat(rankToNode, nNodes), SizeOf(rankToNode, nNodes, param);
            && WellGrouped(flat, size, DeltasOf(NGroups(rankToNode, nNodes, param))) && |flat| == |rankToNode|
            && Schedule(rankToNode, nNodes, param, rank)
            == Rounds(flat, size, DeltasOf(NGroups(rankToNode, nNodes, param)), Position(rankToNode, nNodes, rank))
  {
    hide Flat, Position, DeltasOf, Rounds, WellGrouped;
    Grouped(rankToNode, nNodes, param);
  }
}
