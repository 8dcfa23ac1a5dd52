/** The ring allgathers of src/bootstrap.cc: `netRingAllGather` passes slices one way round
    the ring, `socketRingAllGather` both ways at once.  Ranks advance independently over FIFO
    links and store what arrives at the position they have worked out themselves. */
module RingAllGather {
  import opened RingIndex
  import opened Seqs

  /** `n` ranks; `k0` steps use the ring towards the next rank, the first `k1` of them also
      the ring towards the previous one. */
  datatype Plan = Plan(n: nat, k0: nat, k1: nat)

  function NetPlan(n: nat): Plan
    requires n > 0
  {
    Plan(n, n - 1, 0)
  }

  /** The loop of the bidirectional form: `n / 2` steps, the last one of them one way only
      when `n` is even. */
  function SocketPlan(n: nat): Plan
    requires n > 0
  {
    var totalSteps := n / 2;
    Plan(n, totalSteps, if n % 2 == 0 then totalSteps - 1 else totalSteps)
  }

  ghost predicate Complete(p: Plan) { p.n > 0 && p.k1 <= p.k0 && p.k0 + p.k1 == p.n - 1 }

  /** Both forms move `n - 1` slices to every rank, the bidirectional one in `n / 2` steps. */
  lemma PlansComplete(n: nat)
    requires n > 0
    ensures Complete(NetPlan(n)) && Complete(SocketPlan(n)) && SocketPlan(n).k0 == n / 2
  {
  }

  /** Progress within one step: the sends and receives already done on the two rings. */
  datatype Rank = Rank(step: nat, s0: bool, r0: bool, s1: bool, r1: bool)

  /** `link0[r]` and `link1[r]` are the messages on their way from `r` to the next and to the
      previous rank; `got[r]` lists the slices received by `r`. */
  datatype State = State(ranks: seq<Rank>, data: seq<seq<int>>, link0: seq<seq<int>>, link1: seq<seq<int>>, got: seq<seq<int>>)

  ghost predicate Shape(p: Plan, s: State) {
    && p.n > 0 && |s.ranks| == |s.data| == |s.link0| == |s.link1| == |s.got| == p.n
    && forall r :: 0 <= r < p.n ==> |s.data[r]| == p.n
  }

  ghost predicate IsRank(p: Plan, r: int) { 0 <= r < p.n }

  // ---------------------------------------------------------------------------
  // Steps

  ghost predicate Send0(p: Plan, s: State, s': State, r: int)
    requires Shape(p, s)
  {
    && IsRank(p, r) && s.ranks[r].step < p.k0 && !s.ranks[r].s0
    && s' == s.(ranks := s.ranks[r := s.ranks[r].(s0 := true)],
                link0 := s.link0[r := s.link0[r] + [s.data[r][Back(p.n, r, s.ranks[r].step)]]])
  }

  ghost predicate Recv0(p: Plan, s: State, s': State, r: int)
    requires Shape(p, s)
  {
    && IsRank(p, r) && s.ranks[r].step < p.k0 && !s.ranks[r].r0
    && var q, x := Pred(p.n, r), Back(p.n, r, s.ranks[r].step + 1);
       && s.link0[q] != []
       && s' == s.(ranks := s.ranks[r := s.ranks[r].(r0 := true)], link0 := s.link0[q := s.link0[q][1..]],
                   data := s.data[r := s.data[r][x := s.link0[q][0]]], got := s.got[r := s.got[r] + [x]])
  }

  ghost predicate Send1(p: Plan, s: State, s': State, r: int)
    requires Shape(p, s)
  {
    && IsRank(p, r) && s.ranks[r].step < p.k1 && !s.ranks[r].s1
    && s' == s.(ranks := s.ranks[r := s.ranks[r].(s1 := true)],
                link1 := s.link1[r := s.link1[r] + [s.data[r][Fwd(p.n, r, s.ranks[r].step)]]])
  }

  ghost predicate Recv1(p: Plan, s: State, s': State, r: int)
    requires Shape(p, s)
  {
    && IsRank(p, r) && s.ranks[r].step < p.k1 && !s.ranks[r].r1
    && var q, x := Succ(p.n, r), Fwd(p.n, r, s.ranks[r].step + 1);
       && s.link1[q] != []
       && s' == s.(ranks := s.ranks[r := s.ranks[r].(r1 := true)], link1 := s.link1[q := s.link1[q][1..]],
                   data := s.data[r := s.data[r][x := s.link1[q][0]]], got := s.got[r := s.got[r] + [x]])
  }

  ghost predicate Advance(p: Plan, s: State, s': State, r: int)
    requires Shape(p, s)
  {
    && IsRank(p, r) && s.ranks[r].step < p.k0 && s.ranks[r].s0 && s.ranks[r].r0
    && (s.ranks[r].step < p.k1 ==> s.ranks[r].s1 && s.ranks[r].r1)
    && s' == s.(ranks := s.ranks[r := Rank(s.ranks[r].step + 1, false, false, false, false)])
  }

  ghost predicate Moves(p: Plan, s: State, s': State, r: int) {
    && Shape(p, s)
    && (Send0(p, s, s', r) || Recv0(p, s, s', r) || Send1(p, s, s', r) || Recv1(p, s, s', r) || Advance(p, s, s', r))
  }

  ghost predicate Next(p: Plan, s: State, s': State) { exists r :: Moves(p, s, s', r) }

  /** Every rank starts with its own slice `v[r]`; the rest of its buffer is arbitrary. */
  ghost predicate Init(p: Plan, v: seq<int>, s: State) {
    && Shape(p, s) && |v| == p.n
    && forall r :: 0 <= r < p.n ==>
         && s.ranks[r] == Rank(0, false, false, false, false) && s.data[r][r] == v[r]
         && s.link0[r] == [] && s.link1[r] == [] && s.got[r] == []
  }

  ghost predicate Run(p: Plan, v: seq<int>, trace: seq<State>) {
    && trace != [] && Init(p, v, trace[0])
    && forall i :: 0 <= i < |trace| - 1 ==> Next(p, trace[i], trace[i + 1])
  }

  // ---------------------------------------------------------------------------
  // Counters and slices

  ghost function Sent0(l: Rank): nat { l.step + if l.s0 then 1 else 0 }
  ghost function Recvd0(l: Rank): nat { l.step + if l.r0 then 1 else 0 }
  ghost function Min(a: nat, b: nat): nat { if a <= b then a else b }
  ghost function Sent1(p: Plan, l: Rank): nat { Min(l.step, p.k1) + if l.s1 then 1 else 0 }
  ghost function Recvd1(p: Plan, l: Rank): nat { Min(l.step, p.k1) + if l.r1 then 1 else 0 }

  // ---------------------------------------------------------------------------
  // What every step keeps

  /** Slices that rank `r`, having got this far, holds: its own, those received on the first
      ring just behind it, those received on the second just ahead. */
  ghost predicate Held(p: Plan, l: Rank, r: int, x: int)
    requires p.n > 0
  {
    Off(p.n, r, x) <= Recvd0(l) || Off(p.n, r, x) >= p.n - Recvd1(p, l)
  }

  ghost predicate RankInv(p: Plan, l: Rank) {
    && l.step <= p.k0 && (l.step == p.k0 ==> !l.s0 && !l.r0) && (l.step >= p.k1 ==> !l.s1 && !l.r1)
  }

  /** Link 0 out of `r` carries what its receiver `q` has not taken yet, in order. */
  ghost predicate Link0Inv(p: Plan, v: seq<int>, s: State, r: int, q: int)
    requires Shape(p, s) && |v| == p.n && IsRank(p, r) && IsRank(p, q)
  {
    var done := Recvd0(s.ranks[q]);
    && |s.link0[r]| == Sent0(s.ranks[r]) - done
    && forall i :: 0 <= i < |s.link0[r]| ==> s.link0[r][i] == v[Back(p.n, r, done + i)]
  }

  ghost predicate Link1Inv(p: Plan, v: seq<int>, s: State, r: int, q: int)
    requires Shape(p, s) && |v| == p.n && IsRank(p, r) && IsRank(p, q)
  {
    var done := Recvd1(p, s.ranks[q]);
    && |s.link1[r]| == Sent1(p, s.ranks[r]) - done
    && forall i :: 0 <= i < |s.link1[r]| ==> s.link1[r][i] == v[Fwd(p.n, r, done + i)]
  }

  ghost predicate DataInv(p: Plan, v: seq<int>, s: State, r: int)
    requires Shape(p, s) && |v| == p.n && IsRank(p, r)
  {
    && (forall x :: 0 <= x < p.n && Held(p, s.ranks[r], r, x) ==> s.data[r][x] == v[x])
    && Distinct(s.got[r]) && |s.got[r]| == Recvd0(s.ranks[r]) + Recvd1(p, s.ranks[r])
    && (forall i :: 0 <= i < |s.got[r]| ==>
          0 <= s.got[r][i] < p.n && Off(p.n, r, s.got[r][i]) != 0 && Held(p, s.ranks[r], r, s.got[r][i]))
  }

  ghost predicate Inv(p: Plan, v: seq<int>, s: State) {
    && Complete(p) && Shape(p, s) && |v| == p.n
    && (forall r :: 0 <= r < p.n ==> RankInv(p, s.ranks[r]) && DataInv(p, v, s, r))
    && (forall r, q :: 0 <= r < p.n && 0 <= q < p.n && q == Succ(p.n, r) ==> Link0Inv(p, v, s, r, q))
    && (forall r, q :: 0 <= r < p.n && 0 <= q < p.n && q == Pred(p.n, r) ==> Link1Inv(p, v, s, r, q))
  }

  /** A slice is sent only by a rank that holds it. */
  lemma SendsHeld(p: Plan, v: seq<int>, s: State, r: int)
    requires Inv(p, v, s) && IsRank(p, r) && s.ranks[r].step < p.k0
    ensures s.data[r][Back(p.n, r, s.ranks[r].step)] == v[Back(p.n, r, s.ranks[r].step)]
    ensures s.ranks[r].step < p.k1 ==> s.data[r][Fwd(p.n, r, s.ranks[r].step)] == v[Fwd(p.n, r, s.ranks[r].step)]
  {
    hide Back, Fwd, Off, Succ, Pred, Link0Inv, Link1Inv;
    assert DataInv(p, v, s, r);
    BackFacts(p.n, r, s.ranks[r].step);
    FwdFacts(p.n, r, s.ranks[r].step);
  }

  /** Rank `x` neither receives nor stores. */
  lemma DataSame(p: Plan, v: seq<int>, s: State, s': State, x: int)
    requires Shape(p, s) && Shape(p, s') && |v| == p.n && IsRank(p, x) && DataInv(p, v, s, x)
    requires s'.data[x] == s.data[x] && s'.got[x] == s.got[x]
    requires Recvd0(s'.ranks[x]) == Recvd0(s.ranks[x]) && Recvd1(p, s'.ranks[x]) == Recvd1(p, s.ranks[x])
    ensures DataInv(p, v, s', x)
  {
    hide Off;
    assert forall y :: Held(p, s'.ranks[x], x, y) <==> Held(p, s.ranks[x], x, y);
  }

  lemma Link0Same(p: Plan, v: seq<int>, s: State, s': State, x: int, q: int)
    requires Shape(p, s) && Shape(p, s') && |v| == p.n && IsRank(p, x) && IsRank(p, q) && Link0Inv(p, v, s, x, q)
    requires s'.link0[x] == s.link0[x] && Sent0(s'.ranks[x]) == Sent0(s.ranks[x]) && Recvd0(s'.ranks[q]) == Recvd0(s.ranks[q])
    ensures Link0Inv(p, v, s', x, q)
  {
  }

  lemma Link1Same(p: Plan, v: seq<int>, s: State, s': State, x: int, q: int)
    requires Shape(p, s) && Shape(p, s') && |v| == p.n && IsRank(p, x) && IsRank(p, q) && Link1Inv(p, v, s, x, q)
    requires s'.link1[x] == s.link1[x] && Sent1(p, s'.ranks[x]) == Sent1(p, s.ranks[x])
    requires Recvd1(p, s'.ranks[q]) == Recvd1(p, s.ranks[q])
    ensures Link1Inv(p, v, s', x, q)
  {
  }

  lemma Push0(p: Plan, v: seq<int>, s: State, s': State, x: int, q: int)
    requires Shape(p, s) && Shape(p, s') && |v| == p.n && IsRank(p, x) && IsRank(p, q) && Link0Inv(p, v, s, x, q)
    requires s'.link0[x] == s.link0[x] + [v[Back(p.n, x, Sent0(s.ranks[x]))]]
    requires Sent0(s'.ranks[x]) == Sent0(s.ranks[x]) + 1 && Recvd0(s'.ranks[q]) == Recvd0(s.ranks[q])
    ensures Link0Inv(p, v, s', x, q)
  {
    hide Back;
  }

  lemma Push1(p: Plan, v: seq<int>, s: State, s': State, x: int, q: int)
    requires Shape(p, s) && Shape(p, s') && |v| == p.n && IsRank(p, x) && IsRank(p, q) && Link1Inv(p, v, s, x, q)
    requires s'.link1[x] == s.link1[x] + [v[Fwd(p.n, x, Sent1(p, s.ranks[x]))]]
    requires Sent1(p, s'.ranks[x]) == Sent1(p, s.ranks[x]) + 1 && Recvd1(p, s'.ranks[q]) == Recvd1(p, s.ranks[q])
    ensures Link1Inv(p, v, s', x, q)
  {
    hide Fwd;
  }

  lemma Pop0(p: Plan, v: seq<int>, s: State, s': State, x: int, q: int)
    requires Shape(p, s) && Shape(p, s') && |v| == p.n && IsRank(p, x) && IsRank(p, q) && Link0Inv(p, v, s, x, q)
    requires s.link0[x] != [] && s'.link0[x] == s.link0[x][1..]
    requires Sent0(s'.ranks[x]) == Sent0(s.ranks[x]) && Recvd0(s'.ranks[q]) == Recvd0(s.ranks[q]) + 1
    ensures Link0Inv(p, v, s', x, q) && s.link0[x][0] == v[Back(p.n, x, Recvd0(s.ranks[q]))]
  {
    hide Back;
  }

  lemma Pop1(p: Plan, v: seq<int>, s: State, s': State, x: int, q: int)
    requires Shape(p, s) && Shape(p, s') && |v| == p.n && IsRank(p, x) && IsRank(p, q) && Link1Inv(p, v, s, x, q)
    requires s.link1[x] != [] && s'.link1[x] == s.link1[x][1..]
    requires Sent1(p, s'.ranks[x]) == Sent1(p, s.ranks[x]) && Recvd1(p, s'.ranks[q]) == Recvd1(p, s.ranks[q]) + 1
    ensures Link1Inv(p, v, s', x, q) && s.link1[x][0] == v[Fwd(p.n, x, Recvd1(p, s.ranks[q]))]
  {
    hide Fwd;
  }

  lemma Send0Keeps(p: Plan, v: seq<int>, s: State, s': State, r: int)
    requires Inv(p, v, s) && Send0(p, s, s', r)
    ensures Inv(p, v, s')
  {
    hide Back, Fwd, Off, Succ, Pred, Held, Link0Inv, Link1Inv, DataInv;
    SendsHeld(p, v, s, r);
    forall x | 0 <= x < p.n ensures RankInv(p, s'.ranks[x]) && DataInv(p, v, s', x) {
      assert RankInv(p, s.ranks[x]);
      DataSame(p, v, s, s', x);
    }
    forall x, q | 0 <= x < p.n && 0 <= q < p.n && q == Succ(p.n, x) ensures Link0Inv(p, v, s', x, q) {
      if x == r { Push0(p, v, s, s', x, q); } else { Link0Same(p, v, s, s', x, q); }
    }
    forall x, q | 0 <= x < p.n && 0 <= q < p.n && q == Pred(p.n, x) ensures Link1Inv(p, v, s', x, q) {
      Link1Same(p, v, s, s', x, q);
    }
  }

  lemma Send1Keeps(p: Plan, v: seq<int>, s: State, s': State, r: int)
    requires Inv(p, v, s) && Send1(p, s, s', r)
    ensures Inv(p, v, s')
  {
    hide Back, Fwd, Off, Succ, Pred, Held, Link0Inv, Link1Inv, DataInv;
    SendsHeld(p, v, s, r);
    forall x | 0 <= x < p.n ensures RankInv(p, s'.ranks[x]) && DataInv(p, v, s', x) {
      assert RankInv(p, s.ranks[x]);
      DataSame(p, v, s, s', x);
    }
    forall x, q | 0 <= x < p.n && 0 <= q < p.n && q == Succ(p.n, x) ensures Link0Inv(p, v, s', x, q) {
      Link0Same(p, v, s, s', x, q);
    }
    forall x, q | 0 <= x < p.n && 0 <= q < p.n && q == Pred(p.n, x) ensures Link1Inv(p, v, s', x, q) {
      if x == r { Push1(p, v, s, s', x, q); } else { Link1Same(p, v, s, s', x, q); }
    }
  }

  lemma AdvanceKeeps(p: Plan, v: seq<int>, s: State, s': State, r: int)
    requires Inv(p, v, s) && Advance(p, s, s', r)
    ensures Inv(p, v, s')
  {
    hide Back, Fwd, Off, Succ, Pred, Held, Link0Inv, Link1Inv, DataInv;
    forall x | 0 <= x < p.n ensures RankInv(p, s'.ranks[x]) && DataInv(p, v, s', x) {
      assert RankInv(p, s.ranks[x]);
      DataSame(p, v, s, s', x);
    }
    forall x, q | 0 <= x < p.n && 0 <= q < p.n && q == Succ(p.n, x) ensures Link0Inv(p, v, s', x, q) {
      Link0Same(p, v, s, s', x, q);
    }
    forall x, q | 0 <= x < p.n && 0 <= q < p.n && q == Pred(p.n, x) ensures Link1Inv(p, v, s', x, q) {
      Link1Same(p, v, s, s', x, q);
    }
  }

  /** A received slice is a new one, and its value is right. */
  lemma Store(p: Plan, v: seq<int>, s: State, s': State, r: int, x: int)
    requires Inv(p, v, s) && Shape(p, s') && IsRank(p, r) && 0 <= x < p.n
    requires s'.data[r] == s.data[r][x := v[x]] && s'.got[r] == s.got[r] + [x]
    requires Off(p.n, r, x) != 0 && !Held(p, s.ranks[r], r, x) && Held(p, s'.ranks[r], r, x)
    requires forall y :: 0 <= y < p.n && y != x ==> (Held(p, s'.ranks[r], r, y) <==> Held(p, s.ranks[r], r, y))
    requires Recvd0(s'.ranks[r]) + Recvd1(p, s'.ranks[r]) == Recvd0(s.ranks[r]) + Recvd1(p, s.ranks[r]) + 1
    ensures DataInv(p, v, s', r)
  {
    hide Back, Fwd, Off, Succ, Pred, Held, Link0Inv, Link1Inv;
    assert DataInv(p, v, s, r);
    assert x !in s.got[r];
    DistinctJoin(s.got[r], [x]);
  }

  /** Receiving on the first ring extends the held slices by exactly the next one behind. */
  lemma Held0(p: Plan, l: Rank, r: int)
    requires Complete(p) && RankInv(p, l) && IsRank(p, r) && l.step < p.k0 && !l.r0
    ensures var x := Back(p.n, r, l.step + 1);
            && 0 <= x < p.n && Off(p.n, r, x) == l.step + 1 && !Held(p, l, r, x) && Held(p, l.(r0 := true), r, x)
            && forall y :: 0 <= y < p.n && y != x ==> (Held(p, l.(r0 := true), r, y) <==> Held(p, l, r, y))
  {
    hide Back, Fwd, Off, Succ, Pred;
    var x := Back(p.n, r, l.step + 1);
    BackFacts(p.n, r, l.step + 1);
    forall y | 0 <= y < p.n && y != x ensures Held(p, l.(r0 := true), r, y) <==> Held(p, l, r, y) {
      if Off(p.n, r, y) == l.step + 1 { OffUnique(p.n, r, x, y); }
    }
  }

  lemma Held1(p: Plan, l: Rank, r: int)
    requires Complete(p) && RankInv(p, l) && IsRank(p, r) && l.step < p.k1 && !l.r1
    ensures var x := Fwd(p.n, r, l.step + 1);
            && 0 <= x < p.n && Off(p.n, r, x) == p.n - (l.step + 1) && !Held(p, l, r, x) && Held(p, l.(r1 := true), r, x)
            && forall y :: 0 <= y < p.n && y != x ==> (Held(p, l.(r1 := true), r, y) <==> Held(p, l, r, y))
  {
    hide Back, Fwd, Off, Succ, Pred;
    var x := Fwd(p.n, r, l.step + 1);
    FwdFacts(p.n, r, l.step + 1);
    forall y | 0 <= y < p.n && y != x ensures Held(p, l.(r1 := true), r, y) <==> Held(p, l, r, y) {
      if Off(p.n, r, y) == p.n - (l.step + 1) { OffUnique(p.n, r, x, y); }
    }
  }

  lemma Recv0Keeps(p: Plan, v: seq<int>, s: State, s': State, r: int)
    requires Inv(p, v, s) && Recv0(p, s, s', r)
    ensures Inv(p, v, s')
  {
    hide Back, Fwd, Off, Succ, Pred, Held, Link0Inv, Link1Inv, DataInv;
    var l, b := s.ranks[r], Pred(p.n, r);
    Neighbours(p.n, r);
    SameSlice(p.n, r, l.step);
    Held0(p, l, r);
    Pop0(p, v, s, s', b, r);
    forall x | 0 <= x < p.n ensures RankInv(p, s'.ranks[x]) && DataInv(p, v, s', x) {
      assert RankInv(p, s.ranks[x]);
      if x == r { Store(p, v, s, s', r, Back(p.n, r, l.step + 1)); } else { DataSame(p, v, s, s', x); }
    }
    forall x, q | 0 <= x < p.n && 0 <= q < p.n && q == Succ(p.n, x) ensures Link0Inv(p, v, s', x, q) {
      Neighbours(p.n, x);
      if q == r { Pop0(p, v, s, s', x, q); } else { Link0Same(p, v, s, s', x, q); }
    }
    forall x, q | 0 <= x < p.n && 0 <= q < p.n && q == Pred(p.n, x) ensures Link1Inv(p, v, s', x, q) {
      Link1Same(p, v, s, s', x, q);
    }
  }

  lemma Recv1Keeps(p: Plan, v: seq<int>, s: State, s': State, r: int)
    requires Inv(p, v, s) && Recv1(p, s, s', r)
    ensures Inv(p, v, s')
  {
    hide Back, Fwd, Off, Succ, Pred, Held, Link0Inv, Link1Inv, DataInv;
    var l, f := s.ranks[r], Succ(p.n, r);
    Neighbours(p.n, r);
    SameSlice(p.n, r, l.step);
    Held1(p, l, r);
    Pop1(p, v, s, s', f, r);
    forall x | 0 <= x < p.n ensures RankInv(p, s'.ranks[x]) && DataInv(p, v, s', x) {
      assert RankInv(p, s.ranks[x]);
      if x == r { Store(p, v, s, s', r, Fwd(p.n, r, l.step + 1)); } else { DataSame(p, v, s, s', x); }
    }
    forall x, q | 0 <= x < p.n && 0 <= q < p.n && q == Succ(p.n, x) ensures Link0Inv(p, v, s', x, q) {
      Link0Same(p, v, s, s', x, q);
    }
    forall x, q | 0 <= x < p.n && 0 <= q < p.n && q == Pred(p.n, x) ensures Link1Inv(p, v, s', x, q) {
      Neighbours(p.n, x);
      if q == r { Pop1(p, v, s, s', x, q); } else { Link1Same(p, v, s, s', x, q); }
    }
  }

  lemma InitInv(p: Plan, v: seq<int>, s: State)
    requires Init(p, v, s) && Complete(p)
    ensures Inv(p, v, s)
  {
    forall r | 0 <= r < p.n ensures DataInv(p, v, s, r) {
      forall x | 0 <= x < p.n && Held(p, s.ranks[r], r, x) ensures s.data[r][x] == v[x] {
        BackFacts(p.n, r, 0);
        OffSelf(p.n, r);
        OffUnique(p.n, r, r, x);
      }
    }
  }

  lemma {:induction false} RunInv(p: Plan, v: seq<int>, trace: seq<State>, i: nat)
    requires Complete(p) && Run(p, v, trace) && i < |trace|
    ensures Inv(p, v, trace[i])
  {
    hide Inv;
    if i == 0 {
      InitInv(p, v, trace[0]);
    } else {
      RunInv(p, v, trace, i - 1);
      var s, s' := trace[i - 1], trace[i];
      assert Next(p, s, s');
      var r :| Moves(p, s, s', r);
      if Send0(p, s, s', r) {
        Send0Keeps(p, v, s, s', r);
      } else if Recv0(p, s, s', r) {
        Recv0Keeps(p, v, s, s', r);
      } else if Send1(p, s, s', r) {
        Send1Keeps(p, v, s, s', r);
      } else if Recv1(p, s, s', r) {
        Recv1Keeps(p, v, s, s', r);
      } else {
        AdvanceKeeps(p, v, s, s', r);
      }
    }
  }

  // ---------------------------------------------------------------------------
  // The allgather

  ghost predicate Finished(p: Plan, s: State, r: int)
    requires Shape(p, s) && IsRank(p, r)
  {
    s.ranks[r].step == p.k0
  }

  /** A rank that has left the loop holds every slice, and has received each foreign slice
      exactly once. */
  lemma FinishedHoldsAll(p: Plan, v: seq<int>, trace: seq<State>, i: nat, r: int)
    requires Complete(p) && Run(p, v, trace) && i < |trace| && IsRank(p, r)
    requires Shape(p, trace[i]) && Finished(p, trace[i], r)
    ensures trace[i].data[r] == v
    ensures Distinct(trace[i].got[r]) && |trace[i].got[r]| == p.n - 1
    ensures forall x :: x in trace[i].got[r] <==> 0 <= x < p.n && x != r
  {
    hide Back, Fwd, Off, Succ, Pred, Link0Inv, Link1Inv;
    RunInv(p, v, trace, i);
    var s := trace[i];
    var got := s.got[r];
    assert DataInv(p, v, s, r);
    OffSelf(p.n, r);
    assert forall x :: 0 <= x < p.n ==> Held(p, s.ranks[r], r, x);
    assert r !in got;
    DistinctJoin(got, [r]);
    DistinctCovers(got + [r], p.n);
    forall x | 0 <= x < p.n && x != r ensures x in got { assert x in got + [r]; }
  }

  /** No slice is ever received twice, and never a rank's own. */
  lemma NeverTwice(p: Plan, v: seq<int>, trace: seq<State>, i: nat, r: int)
    requires Complete(p) && Run(p, v, trace) && i < |trace| && IsRank(p, r)
    ensures Shape(p, trace[i]) && Distinct(trace[i].got[r]) && r !in trace[i].got[r]
  {
    RunInv(p, v, trace, i);
    assert DataInv(p, v, trace[i], r);
    OffSelf(p.n, r);
  }

  /** When all ranks are done the links are empty: every message sent has been received. */
  lemma NothingLeft(p: Plan, v: seq<int>, trace: seq<State>, i: nat, r: int)
    requires Complete(p) && Run(p, v, trace) && i < |trace| && IsRank(p, r) && Shape(p, trace[i])
    requires forall q :: 0 <= q < p.n ==> Finished(p, trace[i], q)
    ensures trace[i].link0[r] == [] && trace[i].link1[r] == []
  {
    hide Back, Fwd, Off, Succ, Pred, DataInv;
    RunInv(p, v, trace, i);
    Neighbours(p.n, r);
    var f, b := Succ(p.n, r), Pred(p.n, r);
    assert Finished(p, trace[i], r) && Finished(p, trace[i], f) && Finished(p, trace[i], b);
    assert RankInv(p, trace[i].ranks[r]) && RankInv(p, trace[i].ranks[f]) && RankInv(p, trace[i].ranks[b]);
    assert Link0Inv(p, v, trace[i], r, f);
    assert Link1Inv(p, v, trace[i], r, b);
  }

  /** No deadlock: a rank that nobody is behind of can act, or waits for a neighbour that can. */
  lemma HindmostMoves(p: Plan, v: seq<int>, s: State, r: int) returns (s': State, q: int)
    requires Inv(p, v, s) && IsRank(p, r) && !Finished(p, s, r)
    requires forall x :: 0 <= x < p.n ==> s.ranks[r].step <= s.ranks[x].step
    ensures Moves(p, s, s', q)
  {
    hide Back, Fwd, Off, DataInv;
    var l, n := s.ranks[r], p.n;
    Neighbours(n, r);
    var b, f := Pred(n, r), Succ(n, r);
    if x :| IsRank(p, x) && s.ranks[x].step == l.step && (!s.ranks[x].s0 || (l.step < p.k1 && !s.ranks[x].s1)) {
      q := x;
      if !s.ranks[x].s0 {
        s' := s.(ranks := s.ranks[x := s.ranks[x].(s0 := true)],
                 link0 := s.link0[x := s.link0[x] + [s.data[x][Back(n, x, l.step)]]]);
        assert Send0(p, s, s', x);
      } else {
        s' := s.(ranks := s.ranks[x := s.ranks[x].(s1 := true)],
                 link1 := s.link1[x := s.link1[x] + [s.data[x][Fwd(n, x, l.step)]]]);
        assert Send1(p, s, s', x);
      }
    } else {
      q := r;
      assert Link0Inv(p, v, s, b, r) && Link1Inv(p, v, s, f, r);
      assert RankInv(p, s.ranks[b]) && RankInv(p, s.ranks[f]) && RankInv(p, l);
      if !l.r0 {
        var x := Back(n, r, l.step + 1);
        s' := s.(ranks := s.ranks[r := l.(r0 := true)], link0 := s.link0[b := s.link0[b][1..]],
                 data := s.data[r := s.data[r][x := s.link0[b][0]]], got := s.got[r := s.got[r] + [x]]);
        assert Recv0(p, s, s', r);
      } else if l.step < p.k1 && !l.r1 {
        var x := Fwd(n, r, l.step + 1);
        s' := s.(ranks := s.ranks[r := l.(r1 := true)], link1 := s.link1[f := s.link1[f][1..]],
                 data := s.data[r := s.data[r][x := s.link1[f][0]]], got := s.got[r := s.got[r] + [x]]);
        assert Recv1(p, s, s', r);
      } else {
        s' := s.(ranks := s.ranks[r := Rank(l.step + 1, false, false, false, false)]);
        assert Advance(p, s, s', r);
      }
    }
  }

  ghost predicate AllFinished(p: Plan, s: State)
    requires Shape(p, s)
  {
    forall r :: 0 <= r < p.n ==> Finished(p, s, r)
  }

  /** A rank with the fewest steps among the first `n`. */
  lemma {:induction false} Hindmost(s: State, n: nat) returns (h: nat)
    requires 0 < n <= |s.ranks|
    ensures h < n && forall x :: 0 <= x < n ==> s.ranks[h].step <= s.ranks[x].step
  {
    h := 0;
    if n > 1 {
      h := Hindmost(s, n - 1);
      if s.ranks[n - 1].step < s.ranks[h].step { h := n - 1; }
    }
  }

  /** In every run, until all ranks are done some step is possible. */
  lemma NeverStuck(p: Plan, v: seq<int>, trace: seq<State>, i: nat) returns (s': State, q: int)
    requires Complete(p) && Run(p, v, trace) && i < |trace| && Shape(p, trace[i]) && !AllFinished(p, trace[i])
    ensures Moves(p, trace[i], s', q)
  {
    hide Run, Moves, Inv;
    var s := trace[i];
    RunInv(p, v, trace, i);
    var h := Hindmost(s, p.n);
    var x :| 0 <= x < p.n && !Finished(p, s, x);
    InvStep(p, v, s, x);
    s', q := HindmostMoves(p, v, s, h);
  }

  lemma InvStep(p: Plan, v: seq<int>, s: State, r: int)
    requires Inv(p, v, s) && IsRank(p, r)
    ensures RankInv(p, s.ranks[r])
  {
  }

  /** Sends, receives and steps that a rank has left. */
  ghost function Work(p: Plan): Rank -> nat {
    (l: Rank) => var n := 5 * (p.k0 - l.step) - Flag(l.s0) - Flag(l.r0) - Flag(l.s1) - Flag(l.r1); if n > 0 then n else 0
  }

  ghost function Flag(b: bool): nat { if b then 1 else 0 }

  /** Every step uses up some of the work left. */
  lemma StepShrinks(p: Plan, s: State, s': State, r: int)
    requires Complete(p) && Moves(p, s, s', r)
    ensures SumBy(s'.ranks, Work(p)) < SumBy(s.ranks, Work(p))
  {
    hide Back, Fwd, Succ, Pred, SumBy;
    SumByUpdate(s.ranks, r, s'.ranks[r], Work(p));
  }

  /** Every run can be continued until all ranks are done. */
  lemma {:induction false} Completes(p: Plan, v: seq<int>, trace: seq<State>) returns (full: seq<State>)
    requires Complete(p) && trace != [] && Run(p, v, trace)
    ensures |trace| <= |full| && full[..|trace|] == trace && Run(p, v, full)
    ensures Shape(p, full[|full| - 1]) && AllFinished(p, full[|full| - 1])
    decreases SumBy(trace[|trace| - 1].ranks, Work(p))
  {
    hide Inv, Init, Moves, SumBy, Shape, AllFinished;
    var s := trace[|trace| - 1];
    RunInv(p, v, trace, |trace| - 1);
    InvShape(p, v, s);
    if AllFinished(p, s) {
      full := trace;
    } else {
      var s', q := NeverStuck(p, v, trace, |trace| - 1);
      assert Next(p, s, s');
      StepShrinks(p, s, s', q);
      var longer := trace + [s'];
      assert forall k :: 0 <= k < |longer| - 1 ==> Next(p, longer[k], longer[k + 1]);
      full := Completes(p, v, longer);
      assert full[..|trace|] == full[..|longer|][..|trace|] == trace;
    }
  }

  lemma InvShape(p: Plan, v: seq<int>, s: State)
    requires Inv(p, v, s)
    ensures Shape(p, s)
  {
  }
}
