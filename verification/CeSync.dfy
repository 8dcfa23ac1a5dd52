/** The copy-engine synchronization `ncclMemOpSync` (src/ce_coll.cc) as a barrier: every rank
    writes a flag into every peer's memory and waits, with EQ, for the flags of all peers.
    There are two flag arrays, ready and complete, and each sync is issued on one of them.
    Each stream executes its operations in order; streams of different ranks interleave
    freely. */
module CeSync {
  import opened Seqs

  /** One call: outside a graph it uses a fresh sequence number; a captured call uses the
      constant 1 and resets the flags after its waits. */
  datatype Sync = Normal(seqNum: nat) | Captured

  /** An issued sync and the flag array it was issued on. */
  datatype Issued = Issued(complete: bool, sync: Sync)

  const GRAPH_SYNC_VALUE: nat := 1

  function Value(op: Issued): nat { if op.sync.Normal? then op.sync.seqNum else GRAPH_SYNC_VALUE }

  /** Progress of one rank's stream: it is in sync `at`, has written the flags of the ranks
      in `wrote`, seen those in `passed` and reset the local flags in `cleared`. */
  datatype Rank = Rank(at: nat, wrote: set<int>, passed: set<int>, cleared: set<int>)

  /** The flag that `sender` sets in `owner`'s memory, in the ready or the complete array. */
  datatype Cell = Cell(owner: int, complete: bool, sender: int)

  datatype State = State(ranks: seq<Rank>, flags: map<Cell, nat>)

  ghost function Flag(s: State, c: Cell): nat { if c in s.flags then s.flags[c] else 0 }

  ghost function Peers(n: nat, i: int): set<int> { Range(n) - {i} }

  // ---------------------------------------------------------------------------
  // Steps.  `prog` is the list of syncs that every rank's stream executes.

  ghost predicate Init(n: nat, s: State) {
    |s.ranks| == n && (forall i :: 0 <= i < n ==> s.ranks[i] == Rank(0, {}, {}, {})) && s.flags == map[]
  }

  ghost predicate Running(prog: seq<Issued>, s: State, i: int) {
    0 <= i < |s.ranks| && s.ranks[i].at < |prog|
  }

  /** Rank `i` writes its flag into the memory of `j`.  The multicast form also writes its own. */
  ghost predicate Write(prog: seq<Issued>, s: State, s': State, i: int, j: int) {
    && Running(prog, s, i) && 0 <= j < |s.ranks|
    && var r := s.ranks[i];
       && r.passed == {} && j !in r.wrote
       && s' == State(s.ranks[i := r.(wrote := r.wrote + {j})],
                      s.flags[Cell(j, prog[r.at].complete, i) := Value(prog[r.at])])
  }

  /** Rank `i`'s wait for the flag of `j` is satisfied. */
  ghost predicate Wait(prog: seq<Issued>, s: State, s': State, i: int, j: int) {
    && Running(prog, s, i) && 0 <= j < |s.ranks| && j != i
    && var r := s.ranks[i];
       && Peers(|s.ranks|, i) <= r.wrote && j !in r.passed
       && Flag(s, Cell(i, prog[r.at].complete, j)) == Value(prog[r.at])
       && s' == s.(ranks := s.ranks[i := r.(passed := r.passed + {j})])
  }

  /** A captured sync resets rank `i`'s own copy of the flag of `j`. */
  ghost predicate Clear(prog: seq<Issued>, s: State, s': State, i: int, j: int) {
    && Running(prog, s, i) && 0 <= j < |s.ranks|
    && var r := s.ranks[i];
       && prog[r.at].sync.Captured? && Peers(|s.ranks|, i) <= r.wrote * r.passed && j !in r.cleared
       && s' == State(s.ranks[i := r.(cleared := r.cleared + {j})],
                      s.flags[Cell(i, prog[r.at].complete, j) := 0])
  }

  ghost predicate Finish(prog: seq<Issued>, s: State, s': State, i: int) {
    && Running(prog, s, i)
    && var r := s.ranks[i];
       && Peers(|s.ranks|, i) <= r.wrote * r.passed
       && (prog[r.at].sync.Captured? ==> Range(|s.ranks|) <= r.cleared)
       && s' == s.(ranks := s.ranks[i := Rank(r.at + 1, {}, {}, {})])
  }

  ghost predicate Moves(prog: seq<Issued>, s: State, s': State, i: int, j: int) {
    Write(prog, s, s', i, j) || Wait(prog, s, s', i, j) || Clear(prog, s, s', i, j) || Finish(prog, s, s', i)
  }

  ghost predicate Next(prog: seq<Issued>, s: State, s': State) {
    exists i: int, j: int :: Moves(prog, s, s', i, j)
  }

  ghost predicate Run(n: nat, prog: seq<Issued>, trace: seq<State>) {
    && trace != [] && Init(n, trace[0])
    && forall k :: 0 <= k < |trace| - 1 ==> Next(prog, trace[k], trace[k + 1])
  }

  // ---------------------------------------------------------------------------
  // What every step keeps

  /** The last sync before the `w`-th that uses the array; -1 if there is none. */
  ghost function LastUse(prog: seq<Issued>, w: nat, complete: bool): (u: int)
    requires w <= |prog|
    ensures -1 <= u < w && (u >= 0 ==> prog[u].complete == complete)
  {
    if w == 0 then -1 else if prog[w - 1].complete == complete then w - 1 else LastUse(prog, w - 1, complete)
  }

  /** What a flag of the array holds when the first `w` syncs are over. */
  ghost function Held(prog: seq<Issued>, w: nat, complete: bool): nat
    requires w <= |prog|
  {
    var u := LastUse(prog, w, complete);
    if u < 0 || prog[u].sync.Captured? then 0 else prog[u].sync.seqNum
  }

  /** No sync waits for a value its array already holds. */
  ghost predicate Fresh(prog: seq<Issued>) {
    forall t: nat :: t < |prog| ==> Value(prog[t]) != Held(prog, t, prog[t].complete)
  }

  /** Successive syncs use different arrays. */
  ghost predicate Alternates(prog: seq<Issued>) {
    forall t :: 0 <= t < |prog| - 1 ==> prog[t].complete != prog[t + 1].complete
  }

  /** How many syncs `j` has written to `i`. */
  ghost function Written(s: State, j: int, i: int): nat
    requires 0 <= j < |s.ranks|
  {
    s.ranks[j].at + if i in s.ranks[j].wrote then 1 else 0
  }

  ghost predicate RankInv(prog: seq<Issued>, s: State, i: int)
    requires 0 <= i < |s.ranks|
  {
    var n, r := |s.ranks|, s.ranks[i];
    && r.at <= |prog|
    && r.wrote <= Range(n) && r.passed <= Peers(n, i) && r.cleared <= Range(n)
    && (r.at == |prog| ==> r.wrote == {} && r.passed == {} && r.cleared == {})
    && (r.passed != {} ==> Peers(n, i) <= r.wrote)
    && (r.cleared != {} ==> prog[r.at].sync.Captured? && Peers(n, i) <= r.passed)
  }

  /** The flag of `j` at `i`.  One that `j` has written ahead may be overwritten or reset unless
      the arrays alternate; one that `i` has seen stands until `i` resets it. */
  ghost predicate FlagInv(prog: seq<Issued>, s: State, i: int, j: int, complete: bool)
    requires 0 <= i < |s.ranks| && 0 <= j < |s.ranks| && s.ranks[i].at <= Written(s, j, i) <= |prog|
  {
    var r, w, flag := s.ranks[i], Written(s, j, i), Flag(s, Cell(i, complete, j));
    if w > r.at + 1 && complete == prog[r.at + 1].complete then
      Alternates(prog) ==> flag == Value(prog[r.at + 1])
    else if w > r.at && complete == prog[r.at].complete then
      j in r.passed || Alternates(prog) ==> flag == if j in r.cleared then 0 else Value(prog[r.at])
    else
      flag == Held(prog, r.at, complete)
  }

  ghost predicate PairInv(prog: seq<Issued>, s: State, i: int, j: int)
    requires 0 <= i < |s.ranks| && 0 <= j < |s.ranks|
  {
    && s.ranks[i].at <= Written(s, j, i) <= |prog|
    && (j in s.ranks[i].passed ==> s.ranks[i].at < Written(s, j, i))
    && FlagInv(prog, s, i, j, false) && FlagInv(prog, s, i, j, true)
  }

  ghost predicate Inv(prog: seq<Issued>, s: State) {
    && (forall i :: 0 <= i < |s.ranks| ==> RankInv(prog, s, i))
    && (forall i, j :: 0 <= i < |s.ranks| && 0 <= j < |s.ranks| && i != j ==> PairInv(prog, s, i, j))
  }

  /** A flag of `j` that is out and that `i` still waits for. */
  ghost predicate Awaited(prog: seq<Issued>, s: State, i: int, j: int) {
    && Running(prog, s, i) && 0 <= j < |s.ranks| && j != i
    && s.ranks[i].at < Written(s, j, i) && j !in s.ranks[i].passed
  }

  /** Every flag that is out and still waited for shows the awaited value: it has been neither
      overwritten nor reset. */
  ghost predicate NoneLost(prog: seq<Issued>, s: State) {
    forall i, j :: Awaited(prog, s, i, j) ==>
      Flag(s, Cell(i, prog[s.ranks[i].at].complete, j)) == Value(prog[s.ranks[i].at])
  }

  /** Alternating arrays lose no flag. */
  lemma FlagStands(prog: seq<Issued>, s: State)
    requires Inv(prog, s) && Alternates(prog)
    ensures NoneLost(prog, s)
  {
    hide Range;
    forall i, j | Awaited(prog, s, i, j)
      ensures Flag(s, Cell(i, prog[s.ranks[i].at].complete, j)) == Value(prog[s.ranks[i].at])
    {
      assert RankInv(prog, s, i);
      assert PairInv(prog, s, i, j);
      assert j in Peers(|s.ranks|, i);
    }
  }

  /** A satisfied wait means the peer has written the flag of this very sync. */
  lemma WaitSound(prog: seq<Issued>, s: State, i: int, j: int)
    requires Inv(prog, s) && Running(prog, s, i) && 0 <= j < |s.ranks| && j != i
    requires Value(prog[s.ranks[i].at]) != Held(prog, s.ranks[i].at, prog[s.ranks[i].at].complete)
    requires Flag(s, Cell(i, prog[s.ranks[i].at].complete, j)) == Value(prog[s.ranks[i].at])
    ensures s.ranks[i].at < Written(s, j, i)
  {
    hide Range;
    assert RankInv(prog, s, i);
    assert PairInv(prog, s, i, j);
  }

  lemma WriteKeeps(prog: seq<Issued>, s: State, s': State, x: int, y: int)
    requires Inv(prog, s) && Write(prog, s, s', x, y)
    ensures Inv(prog, s')
  {
    hide Range, Held;
    forall i | 0 <= i < |s'.ranks| ensures RankInv(prog, s', i) { assert RankInv(prog, s, i); }
    forall i, j | 0 <= i < |s'.ranks| && 0 <= j < |s'.ranks| && i != j ensures PairInv(prog, s', i, j) {
      assert PairInv(prog, s, i, j);
      assert RankInv(prog, s, i) && RankInv(prog, s, j);
      if j == x && i == y {
        WriteFlag(prog, s, s', x, y);
      } else {
        assert Written(s', j, i) == Written(s, j, i);
      }
    }
  }

  lemma WriteFlag(prog: seq<Issued>, s: State, s': State, x: int, y: int)
    requires Inv(prog, s) && Write(prog, s, s', x, y) && x != y
    ensures PairInv(prog, s', y, x)
  {
    hide Range, Held;
    assert PairInv(prog, s, y, x) && PairInv(prog, s, x, y);
    assert RankInv(prog, s, y);
    assert s'.ranks[y] == s.ranks[y];
    var t := s.ranks[x].at;
    assert Written(s, x, y) == t && Written(s', x, y) == t + 1;
    assert x in s.ranks[y].cleared && t == s.ranks[y].at ==> x in s.ranks[y].passed by {
      assert x in Peers(|s.ranks|, y);
    }
  }

  lemma WaitKeeps(prog: seq<Issued>, s: State, s': State, x: int, y: int)
    requires Inv(prog, s) && Wait(prog, s, s', x, y)
    requires Value(prog[s.ranks[x].at]) != Held(prog, s.ranks[x].at, prog[s.ranks[x].at].complete)
    ensures Inv(prog, s')
  {
    hide Range, Held;
    WaitSound(prog, s, x, y);
    forall i | 0 <= i < |s'.ranks| ensures RankInv(prog, s', i) { assert RankInv(prog, s, i); }
    forall i, j | 0 <= i < |s'.ranks| && 0 <= j < |s'.ranks| && i != j ensures PairInv(prog, s', i, j) {
      assert PairInv(prog, s, i, j) && RankInv(prog, s, i);
      assert Written(s', j, i) == Written(s, j, i);
      if i == x && j == y { assert y in Peers(|s.ranks|, x); }
    }
  }

  lemma ClearKeeps(prog: seq<Issued>, s: State, s': State, x: int, y: int)
    requires Inv(prog, s) && Clear(prog, s, s', x, y)
    ensures Inv(prog, s')
  {
    hide Range, Held;
    forall i | 0 <= i < |s'.ranks| ensures RankInv(prog, s', i) { assert RankInv(prog, s, i); }
    forall i, j | 0 <= i < |s'.ranks| && 0 <= j < |s'.ranks| && i != j ensures PairInv(prog, s', i, j) {
      assert PairInv(prog, s, i, j) && PairInv(prog, s, j, i);
      assert Written(s', j, i) == Written(s, j, i);
      if i == x && j == y { assert y in Peers(|s.ranks|, x); }
    }
  }

  lemma FinishKeeps(prog: seq<Issued>, s: State, s': State, x: int)
    requires Inv(prog, s) && Finish(prog, s, s', x)
    ensures Inv(prog, s')
  {
    hide Range, Held;
    forall i | 0 <= i < |s'.ranks| ensures RankInv(prog, s', i) { assert RankInv(prog, s, i); }
    forall i, j | 0 <= i < |s'.ranks| && 0 <= j < |s'.ranks| && i != j ensures PairInv(prog, s', i, j) {
      assert PairInv(prog, s, i, j);
      if j == x { assert i in Peers(|s.ranks|, x); }
      assert Written(s', j, i) == Written(s, j, i);
      if i == x { FinishFlag(prog, s, s', x, j); }
    }
  }

  lemma FinishFlag(prog: seq<Issued>, s: State, s': State, x: int, y: int)
    requires Inv(prog, s) && Finish(prog, s, s', x) && 0 <= y < |s.ranks| && x != y
    ensures PairInv(prog, s', x, y)
  {
    hide Range;
    assert PairInv(prog, s, x, y) && PairInv(prog, s, y, x) && RankInv(prog, s, x);
    assert y in Peers(|s.ranks|, x) && y in Range(|s.ranks|);
    assert Written(s', y, x) == Written(s, y, x);
    assert Written(s, y, x) <= s.ranks[x].at + 2;
  }

  lemma {:induction false} RunInv(n: nat, prog: seq<Issued>, trace: seq<State>, k: nat)
    requires Fresh(prog) && Run(n, prog, trace) && k < |trace|
    ensures |trace[k].ranks| == n && Inv(prog, trace[k])
  {
    hide Range;
    if k > 0 {
      RunInv(n, prog, trace, k - 1);
      var s, s' := trace[k - 1], trace[k];
      assert Next(prog, s, s');
      var i, j :| Moves(prog, s, s', i, j);
      StepKeeps(prog, s, s', i, j);
    }
  }

  lemma StepKeeps(prog: seq<Issued>, s: State, s': State, i: int, j: int)
    requires Fresh(prog) && Inv(prog, s) && Moves(prog, s, s', i, j)
    ensures |s'.ranks| == |s.ranks| && Inv(prog, s')
  {
    hide Range, Inv, Held, Value;
    if Write(prog, s, s', i, j) {
      WriteKeeps(prog, s, s', i, j);
    } else if Wait(prog, s, s', i, j) {
      WaitKeeps(prog, s, s', i, j);
    } else if Clear(prog, s, s', i, j) {
      ClearKeeps(prog, s, s', i, j);
    } else {
      FinishKeeps(prog, s, s', i);
    }
  }

  // ---------------------------------------------------------------------------
  // The barrier

  /** Every wait that has been passed was for a flag the peer has written in that sync. */
  ghost predicate Safe(s: State) {
    forall i, j :: 0 <= i < |s.ranks| && 0 <= j < |s.ranks| && j in s.ranks[i].passed ==>
      s.ranks[i].at < Written(s, j, i)
  }

  ghost predicate IsBarrier(n: nat, prog: seq<Issued>) {
    forall trace, k :: Run(n, prog, trace) && 0 <= k < |trace| ==> Safe(trace[k])
  }

  /** In every run, a rank that has finished sync `t` did so after every peer had started it
      and had written its flag. */
  lemma NobodyFinishesEarly(n: nat, prog: seq<Issued>, trace: seq<State>, k: nat, i: int, j: int, t: nat)
    requires Fresh(prog) && Run(n, prog, trace) && k < |trace| && 0 <= i < n && 0 <= j < n && i != j
    requires |trace[k].ranks| == n && trace[k].ranks[i].at > t
    ensures trace[k].ranks[j].at > t || (trace[k].ranks[j].at == t && i in trace[k].ranks[j].wrote)
  {
    RunInv(n, prog, trace, k);
    assert PairInv(prog, trace[k], i, j);
  }

  // ---------------------------------------------------------------------------
  // Completing a run

  ghost predicate Done(prog: seq<Issued>, s: State) {
    forall i :: 0 <= i < |s.ranks| ==> s.ranks[i].at == |prog|
  }

  ghost function Hindmost(s: State): (i: int)
    requires |s.ranks| > 0
    ensures 0 <= i < |s.ranks|
    ensures forall j :: 0 <= j < |s.ranks| ==> s.ranks[i].at <= s.ranks[j].at
  {
    HindmostOf(s, |s.ranks|)
  }

  ghost function HindmostOf(s: State, m: nat): (i: int)
    requires 0 < m <= |s.ranks|
    ensures 0 <= i < m
    ensures forall j :: 0 <= j < m ==> s.ranks[i].at <= s.ranks[j].at
  {
    if m == 1 then 0
    else var i := HindmostOf(s, m - 1); if s.ranks[m - 1].at < s.ranks[i].at then m - 1 else i
  }

  /** Rank `i` has written its flags and each peer's flag is out and shows what `i` awaits. */
  ghost predicate Served(prog: seq<Issued>, s: State, i: int) {
    && Running(prog, s, i) && Peers(|s.ranks|, i) <= s.ranks[i].wrote
    && forall j :: j in Peers(|s.ranks|, i) && j !in s.ranks[i].passed ==>
         Flag(s, Cell(i, prog[s.ranks[i].at].complete, j)) == Value(prog[s.ranks[i].at])
  }

  /** A rank that is served can wait, reset its flags or finish. */
  lemma OwnStep(prog: seq<Issued>, s: State, i: int) returns (s': State, j: int)
    requires Served(prog, s, i)
    ensures Wait(prog, s, s', i, j) || Clear(prog, s, s', i, j) || Finish(prog, s, s', i)
  {
    var n, r := |s.ranks|, s.ranks[i];
    if y :| y in Peers(n, i) && y !in r.passed {
      j := y;
      s' := s.(ranks := s.ranks[i := r.(passed := r.passed + {j})]);
      assert Wait(prog, s, s', i, j);
    } else if y :| prog[r.at].sync.Captured? && y in Range(n) && y !in r.cleared {
      j := y;
      s' := State(s.ranks[i := r.(cleared := r.cleared + {j})], s.flags[Cell(i, prog[r.at].complete, j) := 0]);
      assert Clear(prog, s, s', i, j);
    } else {
      j := 0;
      s' := s.(ranks := s.ranks[i := Rank(r.at + 1, {}, {}, {})]);
      assert Finish(prog, s, s', i);
    }
  }

  /** Rank `i` is hindmost and all ranks level with it have written their flags. */
  ghost predicate LastToGo(s: State, i: int) {
    && 0 <= i < |s.ranks|
    && forall x :: 0 <= x < |s.ranks| ==>
         s.ranks[i].at <= s.ranks[x].at && (s.ranks[x].at == s.ranks[i].at ==> Peers(|s.ranks|, x) <= s.ranks[x].wrote)
  }

  lemma LastIsServed(prog: seq<Issued>, s: State, i: int)
    requires LastToGo(s, i) && Running(prog, s, i) && NoneLost(prog, s)
    ensures Served(prog, s, i)
  {
    hide Range;
    forall j | j in Peers(|s.ranks|, i) && j !in s.ranks[i].passed
      ensures Flag(s, Cell(i, prog[s.ranks[i].at].complete, j)) == Value(prog[s.ranks[i].at])
    {
      assert i in Peers(|s.ranks|, j);
      assert Awaited(prog, s, i, j);
    }
  }

  /** No deadlock: until all are done some rank can take a step, unless a flag has been lost. */
  lemma NeverStuck(prog: seq<Issued>, s: State) returns (s': State, i: int, j: int)
    requires Inv(prog, s) && NoneLost(prog, s) && !Done(prog, s)
    ensures Moves(prog, s, s', i, j)
    ensures if Write(prog, s, s', i, j) then forall x :: 0 <= x < |s.ranks| ==> s.ranks[i].at <= s.ranks[x].at
            else LastToGo(s, i)
  {
    hide Range, FlagInv, NoneLost, Served;
    var n := |s.ranks|;
    var h := Hindmost(s);
    assert RankInv(prog, s, h);
    assert s.ranks[h].at < |prog| by {
      var x :| 0 <= x < n && s.ranks[x].at != |prog|;
      assert RankInv(prog, s, x);
    }
    if x, y :| 0 <= x < n && s.ranks[x].at == s.ranks[h].at && y in Peers(n, x) && y !in s.ranks[x].wrote {
      assert RankInv(prog, s, x);
      i, j := x, y;
      var r := s.ranks[i];
      s' := State(s.ranks[i := r.(wrote := r.wrote + {j})],
                  s.flags[Cell(j, prog[r.at].complete, i) := Value(prog[r.at])]);
      assert Write(prog, s, s', i, j);
    } else {
      i := h;
      assert LastToGo(s, h);
      LastIsServed(prog, s, h);
      s', j := OwnStep(prog, s, h);
    }
  }

  ghost function Left(prog: seq<Issued>): Rank -> nat { (r: Rank) => if r.at <= |prog| then |prog| - r.at else 0 }

  ghost function Gap(n: nat, x: set<int>): nat { if |x| <= n then n - |x| else 0 }

  ghost function Room(n: nat): Rank -> nat { (r: Rank) => Gap(n, r.wrote) + Gap(n, r.passed) + Gap(n, r.cleared) }

  lemma GapShrinks(n: nat, x: set<int>, j: int)
    requires x <= Range(n) && j !in x && 0 <= j < n
    ensures Gap(n, x + {j}) < Gap(n, x)
  {
    RangeSize(n);
    SubsetSize(x + {j}, Range(n));
  }

  /** Every step uses up some of the work left, so no run goes on forever. */
  lemma StepShrinks(prog: seq<Issued>, s: State, s': State, i: int, j: int)
    requires Inv(prog, s) && Moves(prog, s, s', i, j)
    ensures |s'.ranks| == |s.ranks|
    ensures SumBy(s'.ranks, Left(prog)) < SumBy(s.ranks, Left(prog)) ||
            (SumBy(s'.ranks, Left(prog)) == SumBy(s.ranks, Left(prog)) &&
             SumBy(s'.ranks, Room(|s.ranks|)) < SumBy(s.ranks, Room(|s.ranks|)))
  {
    hide Range, FlagInv, SumBy, Gap;
    var n, r := |s.ranks|, s.ranks[i];
    assert RankInv(prog, s, i);
    SumByUpdate(s.ranks, i, s'.ranks[i], Left(prog));
    SumByUpdate(s.ranks, i, s'.ranks[i], Room(n));
    if Write(prog, s, s', i, j) {
      GapShrinks(n, r.wrote, j);
    } else if Wait(prog, s, s', i, j) {
      GapShrinks(n, r.passed, j);
    } else if Clear(prog, s, s', i, j) {
      GapShrinks(n, r.cleared, j);
    }
  }

  /** Nobody has started a sync that a peer has not reached. */
  ghost predicate Together(s: State) {
    forall i, j :: 0 <= i < |s.ranks| && 0 <= j < |s.ranks| && s.ranks[j].wrote != {} ==> s.ranks[j].at <= s.ranks[i].at
  }

  /** No flag is lost while the ranks stay together, whichever arrays the syncs use. */
  lemma TogetherKept(prog: seq<Issued>, s: State, s': State, i: int, j: int)
    requires Inv(prog, s) && Moves(prog, s, s', i, j) && Together(s) && NoneLost(prog, s)
    requires if Write(prog, s, s', i, j) then forall x :: 0 <= x < |s.ranks| ==> s.ranks[i].at <= s.ranks[x].at
             else LastToGo(s, i)
    ensures Together(s') && NoneLost(prog, s')
  {
    hide Range, FlagInv;
    assert RankInv(prog, s, i);
    forall x, y | Awaited(prog, s', x, y)
      ensures Flag(s', Cell(x, prog[s'.ranks[x].at].complete, y)) == Value(prog[s'.ranks[x].at])
    {
      assert PairInv(prog, s, x, y) && PairInv(prog, s, y, x) && RankInv(prog, s, x) && RankInv(prog, s, y);
      assert x in Peers(|s.ranks|, y) && y in Peers(|s.ranks|, x);
      if Awaited(prog, s, x, y) {
        assert Flag(s, Cell(x, prog[s.ranks[x].at].complete, y)) == Value(prog[s.ranks[x].at]);
      }
    }
  }

  lemma Extend(n: nat, prog: seq<Issued>, trace: seq<State>, s': State, i: int, j: int) returns (longer: seq<State>)
    requires Run(n, prog, trace) && Moves(prog, trace[|trace| - 1], s', i, j)
    ensures Run(n, prog, longer) && longer == trace + [s']
  {
    hide Moves, Init;
    longer := trace + [s'];
    assert Next(prog, trace[|trace| - 1], s');
    forall k | 0 <= k < |longer| - 1 ensures Next(prog, longer[k], longer[k + 1]) {
      if k < |trace| - 1 {
        assert longer[k] == trace[k] && longer[k + 1] == trace[k + 1];
        assert Next(prog, trace[k], trace[k + 1]);
      } else {
        assert longer[k] == trace[|trace| - 1] && longer[k + 1] == s';
      }
    }
  }

  /** A run extends to one in which all ranks have executed the whole program if the arrays
      alternate, and also if the ranks have so far stayed together. */
  lemma {:induction false} Completes(n: nat, prog: seq<Issued>, trace: seq<State>) returns (full: seq<State>)
    requires Fresh(prog) && Run(n, prog, trace)
    requires Alternates(prog) || (Together(trace[|trace| - 1]) && NoneLost(prog, trace[|trace| - 1]))
    ensures Run(n, prog, full) && |full| >= |trace| && full[..|trace|] == trace
    ensures |full[|full| - 1].ranks| == n && Done(prog, full[|full| - 1]) && Inv(prog, full[|full| - 1])
    decreases SumBy(trace[|trace| - 1].ranks, Left(prog)), SumBy(trace[|trace| - 1].ranks, Room(n))
  {
    hide Inv, SumBy, Fresh, Moves, Write, Left, Room, Init, Done, Together, NoneLost, LastToGo;
    var s := trace[|trace| - 1];
    RunInv(n, prog, trace, |trace| - 1);
    if Done(prog, s) {
      full := trace;
    } else {
      if Alternates(prog) { FlagStands(prog, s); }
      var s', i, j := NeverStuck(prog, s);
      StepShrinks(prog, s, s', i, j);
      if Together(s) { TogetherKept(prog, s, s', i, j); }
      var longer := Extend(n, prog, trace, s', i, j);
      full := Completes(n, prog, longer);
      assert full[..|trace|] == full[..|longer|][..|trace|] == trace;
    }
  }

  // ---------------------------------------------------------------------------
  // When the sync is a barrier, exactly

  lemma PrefixMoves(prog: seq<Issued>, t: nat, s: State, s': State, i: int, j: int)
    requires t <= |prog| && Moves(prog[..t], s, s', i, j)
    ensures Moves(prog, s, s', i, j)
  {
    assert prog[..t][s.ranks[i].at] == prog[s.ranks[i].at];
  }

  /** A run of the first `t` syncs is a run of the whole program. */
  lemma PrefixRun(n: nat, prog: seq<Issued>, t: nat, trace: seq<State>)
    requires t <= |prog| && Run(n, prog[..t], trace)
    ensures Run(n, prog, trace)
  {
    hide Moves, Init;
    forall k | 0 <= k < |trace| - 1 ensures Next(prog, trace[k], trace[k + 1]) {
      assert Next(prog[..t], trace[k], trace[k + 1]);
      var i, j :| Moves(prog[..t], trace[k], trace[k + 1], i, j);
      PrefixMoves(prog, t, trace[k], trace[k + 1], i, j);
    }
  }

  lemma {:induction false} PrefixUse(prog: seq<Issued>, t: nat, w: nat, complete: bool)
    requires w <= t <= |prog|
    ensures LastUse(prog[..t], w, complete) == LastUse(prog, w, complete)
    ensures Held(prog[..t], w, complete) == Held(prog, w, complete)
  {
    if w > 0 { PrefixUse(prog, t, w - 1, complete); }
  }

  /** The first `t` syncs can be executed, and leave the flags with what `Held` says. */
  lemma Reaches(n: nat, prog: seq<Issued>, t: nat) returns (trace: seq<State>)
    requires t <= |prog| && Fresh(prog[..t])
    ensures trace != [] && Run(n, prog, trace)
    ensures var s := trace[|trace| - 1];
            && s.ranks == seq(n, _ => Rank(t, {}, {}, {}))
            && forall i, j, complete :: 0 <= i < n && 0 <= j < n && i != j ==>
                 Flag(s, Cell(i, complete, j)) == Held(prog, t, complete)
  {
    hide Run, Range, Held, Fresh;
    var begin := State(seq(n, _ => Rank(0, {}, {}, {})), map[]);
    assert Run(n, prog[..t], [begin]) by { StartRun(n, prog[..t], begin); }
    assert Together(begin) && NoneLost(prog[..t], begin);
    trace := Completes(n, prog[..t], [begin]);
    PrefixRun(n, prog, t, trace);
    var s := trace[|trace| - 1];
    forall i | 0 <= i < n ensures s.ranks[i] == Rank(t, {}, {}, {}) { assert RankInv(prog[..t], s, i); }
    forall i, j, complete: bool | 0 <= i < n && 0 <= j < n && i != j
      ensures Flag(s, Cell(i, complete, j)) == Held(prog, t, complete)
    {
      assert PairInv(prog[..t], s, i, j);
      PrefixUse(prog, t, t, complete);
    }
  }

  lemma StartRun(n: nat, prog: seq<Issued>, begin: State)
    requires Init(n, begin)
    ensures Run(n, prog, [begin])
  {
  }

  /** Rank 0 alone writes the flags of sync `t` to ranks `1..m-1`. */
  lemma {:induction false} WritesAlone(n: nat, prog: seq<Issued>, t: nat, trace: seq<State>, m: nat) returns (more: seq<State>)
    requires trace != [] && Run(n, prog, trace) && t < |prog| && 1 <= m <= n
    requires var s := trace[|trace| - 1]; |s.ranks| == n && s.ranks[0] == Rank(t, {}, {}, {})
    ensures more != [] && Run(n, prog, more)
    ensures var s, s' := trace[|trace| - 1], more[|more| - 1];
            && |s'.ranks| == n && s'.ranks[1..] == s.ranks[1..]
            && s'.ranks[0] == Rank(t, Range(m) - {0}, {}, {})
            && forall j, complete :: Flag(s', Cell(0, complete, j)) == Flag(s, Cell(0, complete, j))
  {
    hide Run, Range;
    if m == 1 {
      more := trace;
    } else {
      var some := WritesAlone(n, prog, t, trace, m - 1);
      var s := some[|some| - 1];
      var r := s.ranks[0];
      var s' := State(s.ranks[0 := r.(wrote := r.wrote + {m - 1})],
                      s.flags[Cell(m - 1, prog[t].complete, 0) := Value(prog[t])]);
      assert Write(prog, s, s', 0, m - 1);
      more := Extend(n, prog, some, s', 0, m - 1);
      assert r.wrote + {m - 1} == Range(m) - {0};
    }
  }

  /** A sync that waits for a value its array holds can be passed before a peer has started it. */
  lemma StaleBreaks(n: nat, prog: seq<Issued>, t: nat)
    requires n >= 2 && t < |prog| && Fresh(prog[..t]) && Value(prog[t]) == Held(prog, t, prog[t].complete)
    ensures !IsBarrier(n, prog)
  {
    hide Run, Range, Held, Fresh;
    var level := Reaches(n, prog, t);
    var s := level[|level| - 1];
    var ready := WritesAlone(n, prog, t, level, n);
    var w := ready[|ready| - 1];
    var r := w.ranks[0];
    var s' := w.(ranks := w.ranks[0 := r.(passed := r.passed + {1})]);
    assert w.ranks[1] == w.ranks[1..][0] == s.ranks[1..][0] == s.ranks[1];
    assert Wait(prog, w, s', 0, 1);
    var trace := Extend(n, prog, ready, s', 0, 1);
    assert trace[|trace| - 1] == s';
    assert 1 in s'.ranks[0].passed && Written(s', 1, 0) == t;
    assert !Safe(trace[|trace| - 1]);
  }

  /** The sync is a barrier in every run exactly when no sync waits for a value that its flag
      array still holds from its last use, whichever arrays the syncs use. */
  lemma BarrierIff(n: nat, prog: seq<Issued>)
    requires n >= 2
    ensures IsBarrier(n, prog) <==> Fresh(prog)
  {
    if Fresh(prog) {
      forall trace, k | Run(n, prog, trace) && 0 <= k < |trace| ensures Safe(trace[k]) {
        RunInv(n, prog, trace, k);
        InvSafe(prog, trace[k]);
      }
    } else {
      var u: nat :| u < |prog| && Value(prog[u]) == Held(prog, u, prog[u].complete);
      var t := FirstStale(prog, u);
      StaleBreaks(n, prog, t);
    }
  }

  lemma InvSafe(prog: seq<Issued>, s: State)
    requires Inv(prog, s)
    ensures Safe(s)
  {
    hide Range, FlagInv;
    forall i, j | 0 <= i < |s.ranks| && 0 <= j < |s.ranks| && j in s.ranks[i].passed
      ensures s.ranks[i].at < Written(s, j, i)
    {
      assert RankInv(prog, s, i);
      assert PairInv(prog, s, i, j);
    }
  }

  lemma FreshPrefix(prog: seq<Issued>, t: nat)
    requires t <= |prog|
    requires forall v: nat :: v < t ==> Value(prog[v]) != Held(prog, v, prog[v].complete)
    ensures Fresh(prog[..t])
  {
    forall v: nat | v < t ensures Value(prog[..t][v]) != Held(prog[..t], v, prog[..t][v].complete) {
      PrefixUse(prog, t, v, prog[v].complete);
    }
  }

  lemma {:induction false} FirstStale(prog: seq<Issued>, u: nat) returns (t: nat)
    requires u < |prog| && Value(prog[u]) == Held(prog, u, prog[u].complete)
    ensures t < |prog| && Fresh(prog[..t]) && Value(prog[t]) == Held(prog, t, prog[t].complete)
    decreases u
  {
    if v: nat :| v < u && Value(prog[v]) == Held(prog, v, prog[v].complete) {
      t := FirstStale(prog, v);
    } else {
      t := u;
      FreshPrefix(prog, u);
    }
  }

  /** Sequence numbers as the host hands them out: positive and increasing. */
  ghost predicate WellNumbered(prog: seq<Issued>) {
    && (forall t :: 0 <= t < |prog| && prog[t].sync.Normal? ==> prog[t].sync.seqNum >= 1)
    && (forall t, u :: 0 <= t < u < |prog| && prog[t].sync.Normal? && prog[u].sync.Normal? ==>
          prog[t].sync.seqNum < prog[u].sync.seqNum)
  }

  /** The one way that mixing captured and other syncs goes wrong: a captured sync finds its
      array holding sequence number 1, which is the value captured syncs use. */
  lemma MixedIff(n: nat, prog: seq<Issued>)
    requires n >= 2 && WellNumbered(prog)
    ensures IsBarrier(n, prog) <==>
            forall t :: 0 <= t < |prog| && prog[t].sync.Captured? ==>
              var u := LastUse(prog, t, prog[t].complete); u >= 0 ==> prog[u].sync != Normal(1)
  {
    hide IsBarrier;
    BarrierIff(n, prog);
    if Fresh(prog) {
      forall t | 0 <= t < |prog| && prog[t].sync.Captured?
        ensures var u := LastUse(prog, t, prog[t].complete); u >= 0 ==> prog[u].sync != Normal(1)
      {
        assert Value(prog[t]) != Held(prog, t, prog[t].complete);
      }
    }
  }

  /** With alternating arrays the last use of an array was two syncs before. */
  lemma TwoBefore(prog: seq<Issued>, t: nat)
    requires Alternates(prog) && t < |prog|
    ensures LastUse(prog, t, prog[t].complete) == if t < 2 then -1 else t - 2
  {
    if t > 0 { assert prog[t - 1].complete != prog[t - 1 + 1].complete; }
    if t > 1 { assert prog[t - 2].complete != prog[t - 2 + 1].complete; }
  }

  /** The first collective runs outside a graph and a captured one follows: not a barrier. */
  lemma FirstThenGraph(n: nat)
    requires n >= 2
    ensures !IsBarrier(n, [Issued(false, Normal(1)), Issued(true, Normal(2)), Issued(false, Captured), Issued(true, Captured)])
  {
    var prog := [Issued(false, Normal(1)), Issued(true, Normal(2)), Issued(false, Captured), Issued(true, Captured)];
    MixedIff(n, prog);
    TwoBefore(prog, 2);
    assert prog[2].sync.Captured? && prog[0].sync == Normal(1);
  }

  // ---------------------------------------------------------------------------
  // When no flag is lost, exactly

  ghost predicate KeepsFlags(n: nat, prog: seq<Issued>) {
    forall trace, k :: Run(n, prog, trace) && 0 <= k < |trace| ==> NoneLost(prog, trace[k])
  }

  /** All ranks are in sync `t`, nobody has seen a flag and those written show. */
  ghost predicate Meeting(prog: seq<Issued>, s: State, t: nat) {
    && NoneLost(prog, s)
    && forall i :: 0 <= i < |s.ranks| ==> s.ranks[i].at == t && s.ranks[i].passed == {} && s.ranks[i].cleared == {}
  }

  /** From a meeting in which nobody waits yet, all ranks write all their flags. */
  lemma {:induction false} AllWrite(n: nat, prog: seq<Issued>, t: nat, trace: seq<State>) returns (more: seq<State>)
    requires Fresh(prog) && trace != [] && Run(n, prog, trace) && t < |prog|
    requires Meeting(prog, trace[|trace| - 1], t)
    ensures more != [] && Run(n, prog, more) && |more[|more| - 1].ranks| == n && Meeting(prog, more[|more| - 1], t)
    ensures forall i :: 0 <= i < n ==> Peers(n, i) <= more[|more| - 1].ranks[i].wrote
    decreases SumBy(trace[|trace| - 1].ranks, Left(prog)), SumBy(trace[|trace| - 1].ranks, Room(n))
  {
    hide Inv, SumBy, Fresh, Left, Room, Range, Run;
    RunInv(n, prog, trace, |trace| - 1);
    var s := trace[|trace| - 1];
    if i, j :| 0 <= i < n && j in Peers(n, i) && j !in s.ranks[i].wrote {
      var r := s.ranks[i];
      var s' := State(s.ranks[i := r.(wrote := r.wrote + {j})],
                      s.flags[Cell(j, prog[r.at].complete, i) := Value(prog[r.at])]);
      assert Write(prog, s, s', i, j);
      StepShrinks(prog, s, s', i, j);
      var longer := Extend(n, prog, trace, s', i, j);
      more := AllWrite(n, prog, t, longer);
    } else {
      more := trace;
    }
  }

  /** A served rank goes on by itself until it has finished its sync. */
  lemma {:induction false} RunsAlone(n: nat, prog: seq<Issued>, trace: seq<State>, i: int) returns (more: seq<State>)
    requires Fresh(prog) && trace != [] && Run(n, prog, trace) && Served(prog, trace[|trace| - 1], i)
    requires ResetDone(prog, trace[|trace| - 1], i)
    ensures more != [] && Run(n, prog, more)
    ensures FinishedAlone(prog, trace[|trace| - 1], more[|more| - 1], i)
    decreases SumBy(trace[|trace| - 1].ranks, Left(prog)), SumBy(trace[|trace| - 1].ranks, Room(n))
  {
    hide Inv, SumBy, Fresh, Left, Room, Range, Run;
    var s := trace[|trace| - 1];
    RunInv(n, prog, trace, |trace| - 1);
    var s', j := OwnStep(prog, s, i);
    StepShrinks(prog, s, s', i, j);
    more := Extend(n, prog, trace, s', i, j);
    if !Finish(prog, s, s', i) { more := RunsAlone(n, prog, more, i); }
  }

  /** The flags that rank `i` has reset are 0. */
  ghost predicate ResetDone(prog: seq<Issued>, s: State, i: int)
    requires Running(prog, s, i)
  {
    forall j :: j in s.ranks[i].cleared ==> Flag(s, Cell(i, prog[s.ranks[i].at].complete, j)) == 0
  }

  /** Rank `i` has finished its sync, and has changed nothing else but its own flags. */
  ghost predicate FinishedAlone(prog: seq<Issued>, s: State, s': State, i: int)
    requires Running(prog, s, i)
  {
    var r := s.ranks[i];
    && s'.ranks == s.ranks[i := Rank(r.at + 1, {}, {}, {})]
    && (forall x, j, complete :: x != i ==> Flag(s', Cell(x, complete, j)) == Flag(s, Cell(x, complete, j)))
    && (prog[r.at].sync.Captured? ==>
          forall j :: j in Range(|s.ranks|) ==> Flag(s', Cell(i, prog[r.at].complete, j)) == 0)
  }

  /** Two successive syncs on one array: rank 1 finishes the first and writes the flag of the
      second where rank 0 still waits for that of the first.  Either the awaited value is gone,
      or, both being captured, rank 0 resets the flag of the second with that of the first. */
  lemma LosesFlag(n: nat, prog: seq<Issued>, t: nat)
    requires n >= 2 && Fresh(prog) && t + 1 < |prog| && prog[t].complete == prog[t + 1].complete
    ensures !KeepsFlags(n, prog)
  {
    hide Run, Fresh, Held, Range;
    var trace := TwoAhead(n, prog, t);
    var s := trace[|trace| - 1];
    assert Awaited(prog, s, 0, 1);
    if Value(prog[t]) != Value(prog[t + 1]) {
      assert !NoneLost(prog, trace[|trace| - 1]);
    } else {
      assert prog[t].sync.Captured? by { SameValue(prog, t); }
      var more := RunsAlone(n, prog, trace, 0);
      var s' := more[|more| - 1];
      assert 1 in Range(n);
      assert Flag(s', Cell(0, prog[t].complete, 1)) == 0;
      assert Awaited(prog, s', 0, 1);
      assert !NoneLost(prog, more[|more| - 1]);
    }
  }

  lemma SameValue(prog: seq<Issued>, t: nat)
    requires Fresh(prog) && t + 1 < |prog| && prog[t].complete == prog[t + 1].complete
    requires Value(prog[t]) == Value(prog[t + 1])
    ensures prog[t].sync.Captured? && Value(prog[t + 1]) == 1
  {
    assert Value(prog[t + 1]) != Held(prog, t + 1, prog[t + 1].complete);
  }

  /** Rank 1 has written to rank 0 the flags of both syncs, and rank 0 has seen neither. */
  lemma TwoAhead(n: nat, prog: seq<Issued>, t: nat) returns (trace: seq<State>)
    requires n >= 2 && Fresh(prog) && t + 1 < |prog| && prog[t].complete == prog[t + 1].complete
    ensures trace != [] && Run(n, prog, trace)
    ensures var s := trace[|trace| - 1];
            && |s.ranks| == n && s.ranks[0].at == t && s.ranks[0].passed == {} && s.ranks[0].cleared == {}
            && s.ranks[1] == Rank(t + 1, {0}, {}, {})
            && Flag(s, Cell(0, prog[t].complete, 1)) == Value(prog[t + 1])
            && (Value(prog[t]) == Value(prog[t + 1]) ==> Served(prog, s, 0))
  {
    hide Run, Held, Range;
    FreshPrefix(prog, t);
    var level := Reaches(n, prog, t);
    var met := AllWrite(n, prog, t, level);
    var s := met[|met| - 1];
    forall i | 0 <= i < 2 ensures LastToGo(s, i) && Served(prog, s, i) { LastIsServed(prog, s, i); }
    var alone := RunsAlone(n, prog, met, 1);
    var w := alone[|alone| - 1];
    var r := w.ranks[1];
    var s' := State(w.ranks[1 := r.(wrote := r.wrote + {0})],
                    w.flags[Cell(0, prog[t + 1].complete, 1) := Value(prog[t + 1])]);
    assert Write(prog, w, s', 1, 0);
    trace := Extend(n, prog, alone, s', 1, 0);
    assert r.wrote + {0} == {0};
  }

  /** In every run no flag that is still waited for is overwritten or reset, exactly when
      successive syncs use different arrays. */
  lemma FlagsKeptIff(n: nat, prog: seq<Issued>)
    requires n >= 2 && Fresh(prog)
    ensures KeepsFlags(n, prog) <==> Alternates(prog)
  {
    hide Run, Fresh, NoneLost;
    if Alternates(prog) {
      forall trace, k | Run(n, prog, trace) && 0 <= k < |trace| ensures NoneLost(prog, trace[k]) {
        RunInv(n, prog, trace, k);
        FlagStands(prog, trace[k]);
      }
    } else {
      var t :| 0 <= t < |prog| - 1 && prog[t].complete == prog[t + 1].complete;
      LosesFlag(n, prog, t);
    }
  }
}
