/** The host side of the copy-engine synchronization (src/ce_coll.cc): which flag array and
    which value each `ncclMemOpSync` uses, how many syncs a batch issues, and why replayed
    graphs keep the two flag arrays alternating. */
module CeLaunch {
  import opened Arith
  import opened CeSync

  /** Numbers and arrays as a run of issues hands them out. */
  ghost predicate InOrder(issued: seq<Issued>) {
    forall k :: 0 <= k < |issued| ==>
      && issued[k].complete == (k % 2 == 1)
      && (issued[k].sync.Normal? ==> issued[k].sync.seqNum == k + 1)
  }

  /** Syncs that execute in the order in which they were issued are barriers unless the first was
      issued outside a graph and the third was captured; and as barriers they lose no flag. */
  lemma InOrderIsSynchronized(n: nat, issued: seq<Issued>)
    requires n >= 2 && InOrder(issued)
    ensures IsBarrier(n, issued) <==> !(|issued| > 2 && issued[0].sync.Normal? && issued[2].sync.Captured?)
    ensures IsBarrier(n, issued) ==> KeepsFlags(n, issued)
  {
    hide IsBarrier, KeepsFlags, Fresh;
    assert WellNumbered(issued) && Alternates(issued);
    MixedIff(n, issued);
    BarrierIff(n, issued);
    forall t: nat | t < |issued| ensures LastUse(issued, t, issued[t].complete) == if t < 2 then -1 else t - 2 {
      TwoBefore(issued, t);
    }
    if Fresh(issued) { FlagsKeptIff(n, issued); }
  }

  function CeilDiv(n: nat, f: nat): nat
    requires f > 0
  {
    (n + f - 1) / f
  }

  lemma NextDiv(i: nat, f: nat)
    requires f > 0
    ensures (i + 1) / f == i / f + (if (i + 1) % f == 0 then 1 else 0)
  {
    DivModNext(i, f);
  }

  lemma CeilOf(n: nat, f: nat)
    requires f > 0 && n > 0
    ensures CeilDiv(n, f) == (n - 1) / f + 1
  {
    var q, r := (n - 1) / f, (n - 1) % f;
    assert n + f - 1 == (q + 1) * f + r;
    DivModUnique(n + f - 1, f, q + 1, r);
  }

  /** From `from` on, every sync was issued in the given mode. */
  ghost predicate InMode(ops: seq<Issued>, from: nat, capturing: bool) {
    forall k :: from <= k < |ops| ==> (ops[k].sync.Captured? <==> capturing)
  }

  class Issuer {
    var ceSeqNum: nat
    var useCompletePtr: bool
    ghost var issued: seq<Issued>

    ghost predicate Valid()
      reads this
    {
      ceSeqNum == |issued| && useCompletePtr == (|issued| % 2 == 1) && InOrder(issued)
    }

    constructor ()
      ensures Valid() && issued == []
    {
      ceSeqNum, useCompletePtr, issued := 0, false, [];
    }

    method MemOpSync(capturing: bool) returns (op: Issued)
      requires Valid()
      modifies this
      ensures Valid() && issued == old(issued) + [op]
      ensures op.complete == old(useCompletePtr) && (op.sync.Captured? <==> capturing)
    {
      ceSeqNum := ceSeqNum + 1;
      op := Issued(useCompletePtr, if capturing then Captured else Normal(ceSeqNum));
      issued := issued + [op];
      useCompletePtr := !useCompletePtr;
    }

    /** The copy loop with a sync after every `freq`-th copy but the last. */
    method CopyLoop(numOps: nat, intraBatchSync: bool, freq: nat, capturing: bool)
      requires Valid() && freq > 0
      modifies this
      ensures Valid() && old(issued) <= issued && InMode(issued, |old(issued)|, capturing)
      ensures |issued| == |old(issued)| + if intraBatchSync && numOps > 0 then CeilDiv(numOps, freq) - 1 else 0
    {
      ghost var before := |issued|;
      var i := 0;
      while i < numOps
        invariant i <= numOps && Valid() && old(issued) <= issued && InMode(issued, before, capturing)
        invariant |issued| == before +
                    if !intraBatchSync || numOps == 0 then 0 else if i < numOps then i / freq else (numOps - 1) / freq
      {
        NextDiv(i, freq);
        if intraBatchSync && (i + 1) % freq == 0 && i + 1 < numOps {
          var _ := MemOpSync(capturing);
        }
        i := i + 1;
      }
      if numOps > 0 { CeilOf(numOps, freq); }
    }

    /** A batch in a captured graph or on the legacy stream issues an even number of syncs. */
    method CapturedBatch(numOps: nat, intraBatchSync: bool, freq: nat, capturing: bool)
      requires Valid() && freq > 0
      modifies this
      ensures Valid() && old(issued) <= issued && InMode(issued, |old(issued)|, capturing)
      ensures |issued| == |old(issued)| + if intraBatchSync then 2 * (CeilDiv(numOps, freq) / 2) else 0
    {
      if numOps == 0 {
        DivModUnique(freq - 1, freq, 0, freq - 1);
        return;
      }
      CopyLoop(numOps, intraBatchSync, freq, capturing);
      CeilOf(numOps, freq);
      if intraBatchSync && ((numOps + freq - 1) / freq) % 2 == 0 {
        var _ := MemOpSync(capturing);
      }
    }

    /** A captured collective: a sync, its copies, a sync.  The flag array is afterwards the
        one it was before, so the same graph can run again. */
    method CapturedCollective(numOps: nat, intraBatchSync: bool, freq: nat)
      requires Valid() && freq > 0
      modifies this
      ensures Valid() && old(issued) <= issued && InMode(issued, |old(issued)|, true)
      ensures |issued| == |old(issued)| + 2 + if intraBatchSync then 2 * (CeilDiv(numOps, freq) / 2) else 0
      ensures useCompletePtr == old(useCompletePtr)
    {
      hide CeilDiv, InOrder;
      var _ := MemOpSync(true);
      CapturedBatch(numOps, intraBatchSync, freq, true);
      var _ := MemOpSync(true);
    }

    /** A collective outside a graph with a driver that has no batched copy: one copy after the
        other with the same syncs among them, but without the one that makes their number even.
        The array selection is afterwards what it was before iff the number of sync groups is
        odd or nothing is synchronized. */
    method FallbackCollective(numOps: nat, intraBatchSync: bool, freq: nat)
      requires Valid() && freq > 0
      modifies this
      ensures Valid() && old(issued) <= issued && InMode(issued, |old(issued)|, false)
      ensures |issued| == |old(issued)| + 2 + if intraBatchSync && numOps > 0 then CeilDiv(numOps, freq) - 1 else 0
      ensures useCompletePtr == old(useCompletePtr) <==> !(intraBatchSync && numOps > 0) || CeilDiv(numOps, freq) % 2 == 1
    {
      hide CeilDiv, InOrder;
      var _ := MemOpSync(false);
      if numOps > 0 { CopyLoop(numOps, intraBatchSync, freq, false); }
      var _ := MemOpSync(false);
    }
  }

  // ---------------------------------------------------------------------------
  // Replays

  /** A launch of `count` syncs that were issued starting on array `start`. */
  datatype Launch = Launch(start: nat, count: nat)

  /** The arrays used when the launches execute one after the other. */
  ghost function Arrays(launches: seq<Launch>): seq<int> {
    if launches == [] then []
    else Arrays(launches[..|launches| - 1]) + Turns(launches[|launches| - 1])
  }

  /** The arrays of one launch. */
  ghost function Turns(l: Launch): (s: seq<int>)
    ensures |s| == l.count && forall k :: 0 <= k < l.count ==> s[k] == (l.start + k) % 2
  {
    seq(l.count, k => (l.start + k) % 2)
  }

  ghost predicate Alternating(arrays: seq<int>, start: nat) {
    forall k :: 0 <= k < |arrays| ==> arrays[k] == (start + k) % 2
  }

  /** Launches of even length that all start on one array alternate for ever, in whatever
      order and however often graphs are replayed. */
  lemma {:induction false} ReplaysAlternate(launches: seq<Launch>, start: nat)
    requires forall l :: 0 <= l < |launches| ==> launches[l].start == start && launches[l].count % 2 == 0
    ensures |Arrays(launches)| % 2 == 0 && Alternating(Arrays(launches), start)
  {
    if launches != [] {
      hide Turns, Alternating;
      var front, last := launches[..|launches| - 1], launches[|launches| - 1];
      forall l | 0 <= l < |front| ensures front[l].start == start && front[l].count % 2 == 0 { assert front[l] == launches[l]; }
      ReplaysAlternate(front, start);
      OneMoreLaunch(Arrays(front), last, start);
      EvenStep(|Arrays(front)|, last.count, start);
    }
  }

  lemma EvenStep(n: nat, c: nat, s: nat)
    requires n % 2 == 0 && c % 2 == 0
    ensures (n + c) % 2 == 0 && (s + n) % 2 == s % 2
  {
  }

  ghost function Total(launches: seq<Launch>): nat {
    if launches == [] then 0 else Total(launches[..|launches| - 1]) + launches[|launches| - 1].count
  }

  /** The launch has no syncs or starts on the array of an `n`-th sync. */
  ghost predicate InTurn(l: Launch, n: nat) { l.count > 0 ==> l.start % 2 == n % 2 }

  /** Every launch is in turn after those before it. */
  ghost predicate AllInTurn(launches: seq<Launch>, start: nat) {
    if launches == [] then true
    else
      var front := launches[..|launches| - 1];
      AllInTurn(front, start) && InTurn(launches[|launches| - 1], start + Total(front))
  }

  /** The syncs of launches alternate exactly when every launch that has any starts on the array
      that is next after all those before it. */
  lemma {:induction false} AlternatesIff(launches: seq<Launch>, start: nat)
    ensures |Arrays(launches)| == Total(launches)
    ensures Alternating(Arrays(launches), start) <==> AllInTurn(launches, start)
  {
    if launches != [] {
      hide Turns, Alternating, InTurn;
      var front, last := launches[..|launches| - 1], launches[|launches| - 1];
      AlternatesIff(front, start);
      OneMoreLaunch(Arrays(front), last, start);
    }
  }

  lemma OneMoreLaunch(arrays: seq<int>, l: Launch, start: nat)
    ensures Alternating(arrays + Turns(l), start) <==>
            Alternating(arrays, start) && InTurn(l, start + |arrays|)
  {
    hide Turns;
    var n, all := |arrays|, arrays + Turns(l);
    forall k | 0 <= k < n ensures all[k] == arrays[k] { }
    forall k | n <= k < |all| ensures all[k] == (l.start + (k - n)) % 2 { assert all[k] == Turns(l)[k - n]; }
    if Alternating(all, start) && l.count > 0 { assert all[n] == (start + n) % 2; }
    if Alternating(arrays, start) && (l.count > 0 ==> l.start % 2 == (start + n) % 2) {
      forall k | n <= k < |all| ensures all[k] == (start + k) % 2 { assert all[k] == (l.start + (k - n)) % 2; }
    }
  }

  /** The launches' syncs, on the arrays the launches were issued on. */
  ghost predicate Executes(prog: seq<Issued>, launches: seq<Launch>) {
    var arrays := Arrays(launches);
    |prog| == |arrays| && forall k :: 0 <= k < |prog| ==> prog[k].complete == (arrays[k] == 1)
  }

  lemma {:induction false} ArraysAreTwo(launches: seq<Launch>)
    ensures forall k :: 0 <= k < |Arrays(launches)| ==> 0 <= Arrays(launches)[k] < 2
  {
    if launches != [] { ArraysAreTwo(launches[..|launches| - 1]); }
  }

  lemma {:induction false} AlternatesFrom(prog: seq<Issued>, arrays: seq<int>, k: nat)
    requires |prog| == |arrays| && k < |prog| && Alternates(prog)
    requires forall i :: 0 <= i < |prog| ==> 0 <= arrays[i] < 2 && prog[i].complete == (arrays[i] == 1)
    ensures arrays[k] == (arrays[0] + k) % 2
  {
    if k > 0 {
      AlternatesFrom(prog, arrays, k - 1);
      assert prog[k - 1].complete != prog[k - 1 + 1].complete;
    }
  }

  /** Executing launches one after the other loses no flag, in any run, exactly when each that
      has any syncs starts on the array that is next after all those before it. */
  lemma LaunchesKeepFlagsIff(n: nat, prog: seq<Issued>, launches: seq<Launch>)
    requires n >= 2 && Fresh(prog) && Executes(prog, launches)
    ensures KeepsFlags(n, prog) <==> AllInTurn(launches, 0) || AllInTurn(launches, 1)
  {
    hide KeepsFlags, Fresh, AllInTurn, Arrays;
    var arrays := Arrays(launches);
    FlagsKeptIff(n, prog);
    ArraysAreTwo(launches);
    AlternatesIff(launches, 0);
    AlternatesIff(launches, 1);
    if Alternates(prog) && prog != [] {
      forall k | 0 <= k < |arrays| ensures arrays[k] == (arrays[0] + k) % 2 { AlternatesFrom(prog, arrays, k); }
      assert Alternating(arrays, arrays[0]);
    }
  }

  lemma ThreeInTurn(a: Launch, b: Launch, c: Launch, start: nat)
    ensures AllInTurn([a, b, c], start) <==>
            InTurn(a, start) && InTurn(b, start + a.count) && InTurn(c, start + a.count + b.count)
  {
    hide InTurn;
    assert [a, b, c][..2] == [a, b] && [a, b][..1] == [a] && [a][..0] == [];
    assert Total([a]) == a.count && Total([a, b]) == a.count + b.count;
    assert AllInTurn([a], start) <==> InTurn(a, start);
    assert AllInTurn([a, b], start) <==> AllInTurn([a], start) && InTurn(b, start + a.count);
  }

  /** A graph that was captured before an odd number of syncs were issued outside a graph no
      longer alternates with them when it is replayed: its first sync falls on the array of the
      sync just before it. */
  lemma OddThenReplay(start: nat, graph: nat, odd: nat)
    requires graph > 0 && graph % 2 == 0 && odd % 2 == 1
    ensures !Alternating(Arrays([Launch(start, graph), Launch(start, odd), Launch(start, graph)]), start)
  {
    hide AllInTurn, Alternating, Arrays;
    var g, o := Launch(start, graph), Launch(start, odd);
    AlternatesIff([g, o, g], start);
    ThreeInTurn(g, o, g, start);
  }

  /** Then some run loses a flag that is still waited for. */
  lemma ReplayLosesFlag(n: nat, prog: seq<Issued>, start: nat, graph: nat, odd: nat)
    requires n >= 2 && graph > 0 && graph % 2 == 0 && odd % 2 == 1
    requires Fresh(prog) && Executes(prog, [Launch(start, graph), Launch(start, odd), Launch(start, graph)])
    ensures !KeepsFlags(n, prog)
  {
    hide KeepsFlags, Fresh, Executes, AllInTurn;
    var g, o := Launch(start, graph), Launch(start, odd);
    LaunchesKeepFlagsIff(n, prog, [g, o, g]);
    ThreeInTurn(g, o, g, 0);
    ThreeInTurn(g, o, g, 1);
  }

  /** Evenness is needed: repeating a launch keeps the alternation only if its length is even. */
  lemma EvenNeeded(start: nat, count: nat)
    requires start < 2 && count > 0
    ensures Alternating(Arrays([Launch(start, count), Launch(start, count)]), start) <==> count % 2 == 0
  {
    var l := Launch(start, count);
    var ls := [l, l];
    AlternatesIff(ls, start);
    assert ls[..1] == [l] && [l][..0] == [];
    assert Total([l]) == count && AllInTurn([l], start);
  }
}
