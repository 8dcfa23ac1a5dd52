/** The rendezvous at one bootstrap root (src/bootstrap.cc): check-ins arrive in any
    order, and each rank the root serves is told how to connect to its successor.
    Addresses and connection infos are integers, with 0 for "absent" as in the code. */
module RootMatch {
  import opened Arith

  datatype Message = Message(to: int, info: int)

  /** What a rank sends to a root. */
  datatype ExtInfo = ExtInfo(rank: int, nranks: int, iroot: int, nroots: int, offset: int,
                             listenRootAddress: int, connectInfo: int)

  // ---------------------------------------------------------------------------
  // Distribution of ranks over roots

  function Pid(i: int, n: int): int
    requires 0 < n
  {
    (i + n) % n
  }

  function Min(a: int, b: int): int { if a < b then a else b }

  /** Every root has at least one rank; the ranks below `offset` have no root. */
  predicate Layout(nRanks: int, nRoots: int, offset: int) {
    0 <= offset && 1 <= nRoots <= nRanks - offset
  }

  function FirstRankFromRoot(root: int, nRanks: int, nRoots: int, offset: int): int
    requires root != -1 ==> 0 < nRoots
  {
    if root == -1 then 0
    else offset + root * ((nRanks - offset) / nRoots) + Min(root, (nRanks - offset) % nRoots)
  }

  function RootIdFromRank(rank: int, nRanks: int, nRoots: int, offset: int): int
    requires 0 <= nRoots
    requires nRoots > 0 ==> Layout(nRanks, nRoots, offset)
  {
    if nRoots == 0 || rank < offset then -1 else
    var rmr := (nRanks - offset) % nRoots;
    var rpr := (nRanks - offset) / nRoots;
    assert rpr > 0 by { if rpr <= 0 { MulMono(rpr, 0, nRoots); } }
    var d := rmr * (rpr + 1);
    if rank - offset < d then (rank - offset) / (rpr + 1) else (rank - offset - d) / rpr + rmr
  }

  function NRankFromRoot(root: int, nRanks: int, nRoots: int, offset: int): int
    requires 0 < nRoots
  {
    if root == -1 then 0 else
    (nRanks - offset) / nRoots + if Pid(root, nRoots) < (nRanks - offset) % nRoots then 1 else 0
  }

  function LocalIdFromRoot(rank: int, root: int, nRanks: int, nRoots: int, offset: int): int
    requires 0 < nRoots
  {
    if root == -1 then rank else rank - FirstRankFromRoot(Pid(root, nRoots), nRanks, nRoots, offset)
  }

  lemma PerRoot(nRanks: int, nRoots: int, offset: int)
    requires Layout(nRanks, nRoots, offset)
    ensures (nRanks - offset) / nRoots >= 1
  {
    var rpr := (nRanks - offset) / nRoots;
    if rpr <= 0 { MulMono(rpr, 0, nRoots); }
  }

  /** The roots' blocks are consecutive, the first starts at `offset` and the last ends at `nRanks`. */
  lemma BlocksTile(root: int, nRanks: int, nRoots: int, offset: int)
    requires Layout(nRanks, nRoots, offset) && 0 <= root < nRoots
    ensures FirstRankFromRoot(0, nRanks, nRoots, offset) == offset
    ensures FirstRankFromRoot(nRoots, nRanks, nRoots, offset) == nRanks
    ensures FirstRankFromRoot(root + 1, nRanks, nRoots, offset)
         == FirstRankFromRoot(root, nRanks, nRoots, offset) + NRankFromRoot(root, nRanks, nRoots, offset)
    ensures NRankFromRoot(root, nRanks, nRoots, offset) >= 1
    ensures LocalIdFromRoot(FirstRankFromRoot(root, nRanks, nRoots, offset), root, nRanks, nRoots, offset) == 0
  {
    PerRoot(nRanks, nRoots, offset);
    ModWrap(root + nRoots, nRoots);
    var rpr := (nRanks - offset) / nRoots;
    Distrib(root, 1, rpr);
  }

  lemma {:induction false} BlocksOrdered(a: int, b: int, nRanks: int, nRoots: int, offset: int)
    requires Layout(nRanks, nRoots, offset) && 0 <= a <= b <= nRoots
    ensures FirstRankFromRoot(a, nRanks, nRoots, offset) + (b - a) <= FirstRankFromRoot(b, nRanks, nRoots, offset)
    decreases b - a
  {
    if a < b {
      BlocksTile(b - 1, nRanks, nRoots, offset);
      BlocksOrdered(a, b - 1, nRanks, nRoots, offset);
    }
  }

  /** The ranks are spread evenly: no root has fewer than a later one, or more than one more. */
  lemma BlocksEven(a: int, b: int, nRanks: int, nRoots: int, offset: int)
    requires Layout(nRanks, nRoots, offset) && 0 <= a <= b < nRoots
    ensures var m, n := NRankFromRoot(a, nRanks, nRoots, offset), NRankFromRoot(b, nRanks, nRoots, offset);
            n <= m <= n + 1
  {
    ModWrap(a + nRoots, nRoots);
    ModWrap(b + nRoots, nRoots);
  }

  lemma LowRoot(x: int, rpr: int, rmr: int)
    requires 0 <= x < rmr * (rpr + 1) && 1 <= rpr && 0 <= rmr
    ensures var q := x / (rpr + 1); 0 <= q < rmr && q * rpr + q <= x < (q + 1) * rpr + (q + 1)
  {
    var q := x / (rpr + 1);
    DivBounds(x, rpr + 1);
    if q < 0 { MulMono(q, -1, rpr + 1); }
    if q >= rmr { MulMono(rmr, q, rpr + 1); }
    Distrib(q, 1, rpr);
  }

  lemma HighRoot(x: int, rpr: int, rmr: int, nRoots: int)
    requires rmr * (rpr + 1) <= x < nRoots * rpr + rmr && 1 <= rpr && 0 <= rmr < nRoots
    ensures var q := (x - rmr * (rpr + 1)) / rpr;
            0 <= q < nRoots - rmr && (q + rmr) * rpr + rmr <= x < (q + rmr + 1) * rpr + rmr
  {
    var y := x - rmr * (rpr + 1);
    var q := y / rpr;
    Distrib(nRoots, rmr, rpr);
    DivBounds(y, rpr);
    if q < 0 { MulMono(q, -1, rpr); }
    if q >= nRoots - rmr { MulMono(nRoots - rmr, q, rpr); }
    Distrib(q, rmr, rpr);
    Distrib(q + rmr, 1, rpr);
  }

  /** A rank's root is the one whose block holds the rank. */
  lemma RootOwnsRank(rank: int, nRanks: int, nRoots: int, offset: int)
    requires Layout(nRanks, nRoots, offset) && offset <= rank < nRanks
    ensures var root := RootIdFromRank(rank, nRanks, nRoots, offset);
            && 0 <= root < nRoots
            && FirstRankFromRoot(root, nRanks, nRoots, offset) <= rank
            && rank < FirstRankFromRoot(root + 1, nRanks, nRoots, offset)
  {
    PerRoot(nRanks, nRoots, offset);
    var rmr, rpr := (nRanks - offset) % nRoots, (nRanks - offset) / nRoots;
    var x := rank - offset;
    assert nRanks - offset == nRoots * rpr + rmr;
    hide Layout;
    if x < rmr * (rpr + 1) {
      LowRoot(x, rpr, rmr);
      assert RootIdFromRank(rank, nRanks, nRoots, offset) == x / (rpr + 1);
    } else {
      HighRoot(x, rpr, rmr, nRoots);
      assert RootIdFromRank(rank, nRanks, nRoots, offset) == (x - rmr * (rpr + 1)) / rpr + rmr;
    }
  }

  lemma RootUnique(rank: int, root: int, nRanks: int, nRoots: int, offset: int)
    requires Layout(nRanks, nRoots, offset) && offset <= rank < nRanks && 0 <= root < nRoots
    requires FirstRankFromRoot(root, nRanks, nRoots, offset) <= rank
    requires rank < FirstRankFromRoot(root + 1, nRanks, nRoots, offset)
    ensures RootIdFromRank(rank, nRanks, nRoots, offset) == root
  {
    RootOwnsRank(rank, nRanks, nRoots, offset);
    var other := RootIdFromRank(rank, nRanks, nRoots, offset);
    if other < root { BlocksOrdered(other + 1, root, nRanks, nRoots, offset); }
    if root < other { BlocksOrdered(root + 1, other, nRanks, nRoots, offset); }
  }

  // ---------------------------------------------------------------------------
  // Matching, as a function of the check-ins seen so far

  /** `n2send` ranks are answered, `nrecv` check in; `multi` is `nroots > 1`. */
  datatype Plan = Plan(n2send: nat, nrecv: nat, multi: bool)

  predicate WfPlan(p: Plan) {
    && 1 <= p.nrecv && p.n2send <= p.nrecv <= p.n2send + 1
    && (p.multi ==> p.nrecv == p.n2send + 1)
  }

  datatype CheckIn = CheckIn(local: nat, addr: int, conn: int)

  /** `info` is `rankInfo`, `addr` is `rankAddressesRoot`. */
  datatype Tables = Tables(info: seq<int>, addr: seq<int>, sent: seq<Message>)

  predicate Sized(p: Plan, t: Tables) { |t.info| == p.nrecv && |t.addr| == p.nrecv }

  function Prev(p: Plan, l: nat): int
    requires WfPlan(p)
  {
    if p.multi then l - 1 else Pid(l - 1, p.nrecv)
  }

  function Next(p: Plan, l: nat): (n: nat)
    requires WfPlan(p)
    ensures n < p.nrecv
  {
    Pid(l + 1, p.nrecv)
  }

  function Zeros(n: nat): (s: seq<int>)
    ensures |s| == n && forall i :: 0 <= i < n ==> s[i] == 0
  {
    seq(n, _ => 0)
  }

  /** One check-in that passed the range and duplicate tests. */
  function Match(p: Plan, t: Tables, c: CheckIn): (t': Tables)
    requires WfPlan(p) && Sized(p, t) && c.local < p.nrecv
    ensures Sized(p, t')
  {
    var prev := Prev(p, c.local);
    var t1 := if 0 <= prev < p.n2send && t.addr[prev] != 0
              then t.(sent := t.sent + [Message(t.addr[prev], c.conn)])
              else t.(info := t.info[c.local := c.conn]);
    if c.local < p.n2send && t1.info[Next(p, c.local)] != 0
    then t1.(sent := t1.sent + [Message(c.addr, t1.info[Next(p, c.local)])])
    else t1.(addr := t1.addr[c.local := c.addr])
  }

  function Collect(p: Plan, cs: seq<CheckIn>): (t: Tables)
    requires WfPlan(p) && forall c :: c in cs ==> c.local < p.nrecv
    ensures Sized(p, t)
  {
    if cs == [] then Tables(Zeros(p.nrecv), Zeros(p.nrecv), [])
    else Match(p, Collect(p, cs[..|cs| - 1]), cs[|cs| - 1])
  }

  /** Each local id checks in at most once, with a nonzero info and, if the root is to answer it,
      a nonzero address.  The extra id of a grow is a rank that has no root and sends no address. */
  ghost predicate Orderly(p: Plan, cs: seq<CheckIn>)
    requires WfPlan(p)
  {
    && (forall i :: 0 <= i < |cs| ==> cs[i].local < p.nrecv && Proper(p, cs[i]))
    && (forall i, j :: 0 <= i < j < |cs| ==> cs[i].local != cs[j].local)
  }

  ghost predicate Proper(p: Plan, c: CheckIn) { c.conn != 0 && (c.local < p.n2send ==> c.addr != 0) }

  /** Position at which a local id checked in, or `|cs|` if it has not. */
  ghost function Arrival(cs: seq<CheckIn>, l: nat): (k: nat)
    ensures k <= |cs|
    ensures k < |cs| ==> cs[k].local == l
    ensures forall i :: 0 <= i < k ==> cs[i].local != l
  {
    if cs == [] then 0 else if cs[0].local == l then 0 else 1 + Arrival(cs[1..], l)
  }

  ghost predicate Seen(cs: seq<CheckIn>, l: nat) { Arrival(cs, l) < |cs| }

  /** What the tables hold for served rank `r` and its successor `n`: an entry only for
      a side that came first, so never both. */
  ghost predicate PairInv(p: Plan, cs: seq<CheckIn>, t: Tables, r: nat)
    requires WfPlan(p) && Sized(p, t) && r < p.n2send
  {
    var n := Next(p, r);
    var i, j := Arrival(cs, r), Arrival(cs, n);
    && (t.addr[r] != 0 <==> Seen(cs, r) && i < j)
    && (t.info[n] != 0 <==> Seen(cs, n) && j <= i)
    && (t.addr[r] != 0 ==> t.addr[r] == cs[i].addr)
    && (t.info[n] != 0 ==> t.info[n] == cs[j].conn)
  }

  ghost predicate Complete(p: Plan, cs: seq<CheckIn>, r: nat)
    requires WfPlan(p)
  {
    r < p.n2send && Seen(cs, r) && Seen(cs, Next(p, r))
  }

  /** `who[k]` is the served rank that the `k`-th message answers: each completed pair
      has exactly one message, the successor's info at the rank's own address. */
  ghost predicate Answered(p: Plan, cs: seq<CheckIn>, sent: seq<Message>, who: seq<nat>)
    requires WfPlan(p)
  {
    && |who| == |sent|
    && (forall k :: 0 <= k < |who| ==>
          && Complete(p, cs, who[k])
          && sent[k] == Message(cs[Arrival(cs, who[k])].addr, cs[Arrival(cs, Next(p, who[k]))].conn))
    && (forall k, m :: 0 <= k < m < |who| ==> who[k] != who[m])
    && (forall r :: Complete(p, cs, r) ==> r in who)
  }

  lemma PrevNext(p: Plan, l: nat, r: nat)
    requires WfPlan(p) && l < p.nrecv && r < p.n2send
    ensures Next(p, r) == l <==> Prev(p, l) == r
  {
    ModWrap(r + 1, p.nrecv);
    ModShift(r + 1, 1, p.nrecv);
    ModWrap(l - 1, p.nrecv);
    ModShift(l - 1, 1, p.nrecv);
  }

  lemma NextOf(p: Plan, l: nat)
    requires WfPlan(p) && l < p.nrecv
    ensures Next(p, l) == if l + 1 == p.nrecv then 0 else l + 1
  {
    ModShift(l + 1, 1, p.nrecv);
    ModWrap(l + 1, p.nrecv);
  }

  lemma {:induction false} ArrivalAppend(cs: seq<CheckIn>, c: CheckIn, l: nat)
    ensures Arrival(cs + [c], l)
         == if Seen(cs, l) then Arrival(cs, l) else if c.local == l then |cs| else |cs| + 1
  {
    if cs == [] {
      assert (cs + [c])[1..] == [];
    } else if cs[0].local != l {
      assert (cs + [c])[1..] == cs[1..] + [c];
      ArrivalAppend(cs[1..], c, l);
    }
  }

  lemma PairStep(p: Plan, cs: seq<CheckIn>, t: Tables, c: CheckIn, r: nat)
    requires WfPlan(p) && Sized(p, t) && r < p.n2send && c.local < p.nrecv && Proper(p, c)
    requires !Seen(cs, c.local)
    requires forall q :: 0 <= q < p.n2send ==> PairInv(p, cs, t, q)
    ensures PairInv(p, cs + [c], Match(p, t, c), r)
  {
    var n := Next(p, r);
    PrevNext(p, c.local, r);
    NextOf(p, r);
    NextOf(p, c.local);
    ArrivalAppend(cs, c, r);
    ArrivalAppend(cs, c, n);
    assert PairInv(p, cs, t, r);
    if c.local < p.n2send { assert PairInv(p, cs, t, c.local); }
  }

  ghost function Note(p: Plan, t: Tables, c: CheckIn, who: seq<nat>): seq<nat>
    requires WfPlan(p) && Sized(p, t) && c.local < p.nrecv
  {
    var prev := Prev(p, c.local);
    var first := 0 <= prev < p.n2send && t.addr[prev] != 0;
    var info := if first then t.info else t.info[c.local := c.conn];
    who + (if first then [prev] else [])
        + (if c.local < p.n2send && info[Next(p, c.local)] != 0 then [c.local] else [])
  }

  /** The pairs completed by one check-in are exactly the ones it sends for. */
  lemma NewlyComplete(p: Plan, cs: seq<CheckIn>, t: Tables, c: CheckIn, r: nat)
    requires WfPlan(p) && Sized(p, t) && c.local < p.nrecv && Proper(p, c)
    requires !Seen(cs, c.local)
    requires forall q :: 0 <= q < p.n2send ==> PairInv(p, cs, t, q)
    ensures Complete(p, cs + [c], r) && !Complete(p, cs, r) <==> r in Note(p, t, c, [])
    ensures Complete(p, cs, r) ==> Complete(p, cs + [c], r)
  {
    if r < p.n2send {
      PrevNext(p, c.local, r);
      ArrivalAppend(cs, c, r);
      ArrivalAppend(cs, c, Next(p, r));
      assert PairInv(p, cs, t, r);
    }
    if c.local < p.n2send {
      assert PairInv(p, cs, t, c.local);
      NextOf(p, c.local);
    }
    var prev := Prev(p, c.local);
    if 0 <= prev < p.n2send {
      PrevNext(p, c.local, prev);
      assert PairInv(p, cs, t, prev);
    }
  }

  lemma AnswerStep(p: Plan, cs: seq<CheckIn>, t: Tables, c: CheckIn, who: seq<nat>)
    requires WfPlan(p) && Sized(p, t) && c.local < p.nrecv && Proper(p, c)
    requires !Seen(cs, c.local)
    requires forall q :: 0 <= q < p.n2send ==> PairInv(p, cs, t, q)
    requires Answered(p, cs, t.sent, who)
    ensures Answered(p, cs + [c], Match(p, t, c).sent, Note(p, t, c, who))
  {
    var cs', t', who' := cs + [c], Match(p, t, c), Note(p, t, c, who);
    var added := Note(p, t, c, []);
    assert who' == who + added;
    forall r ensures Complete(p, cs', r) && !Complete(p, cs, r) <==> r in added
      ensures Complete(p, cs, r) ==> Complete(p, cs', r)
    {
      NewlyComplete(p, cs, t, c, r);
    }
    NoteDistinct(p, cs, t, c);
    forall k | 0 <= k < |who'|
      ensures Complete(p, cs', who'[k])
      ensures t'.sent[k] == Message(cs'[Arrival(cs', who'[k])].addr, cs'[Arrival(cs', Next(p, who'[k]))].conn)
    {
      var r := who'[k];
      if k < |who| { assert Complete(p, cs, r); } else { assert r in added; }
      AnswerAt(p, cs, t, c, who, k);
    }
    forall k, m | 0 <= k < m < |who'| ensures who'[k] != who'[m] {
      if m < |who| {
      } else if k < |who| {
        assert Complete(p, cs, who'[k]);
        assert who'[m] in added;
      } else {
        assert added[k - |who|] != added[m - |who|];
      }
    }
    forall r | Complete(p, cs', r) ensures r in who' {
      if Complete(p, cs, r) { assert r in who; } else { assert r in added; }
    }
  }

  lemma NoteDistinct(p: Plan, cs: seq<CheckIn>, t: Tables, c: CheckIn)
    requires WfPlan(p) && Sized(p, t) && c.local < p.nrecv && !Seen(cs, c.local)
    requires forall q :: 0 <= q < p.n2send ==> PairInv(p, cs, t, q)
    ensures var added := Note(p, t, c, []);
            |added| <= 2 && (|added| == 2 ==> added[0] != added[1])
  {
    var prev := Prev(p, c.local);
    if 0 <= prev < p.n2send { assert PairInv(p, cs, t, prev); }
  }

  lemma AnswerAt(p: Plan, cs: seq<CheckIn>, t: Tables, c: CheckIn, who: seq<nat>, k: nat)
    requires WfPlan(p) && Sized(p, t) && c.local < p.nrecv && Proper(p, c)
    requires !Seen(cs, c.local)
    requires forall q :: 0 <= q < p.n2send ==> PairInv(p, cs, t, q)
    requires Answered(p, cs, t.sent, who)
    requires k < |Note(p, t, c, who)| && Complete(p, cs + [c], Note(p, t, c, who)[k])
    ensures var r := Note(p, t, c, who)[k];
            && |Match(p, t, c).sent| == |Note(p, t, c, who)|
            && Match(p, t, c).sent[k]
            == Message((cs + [c])[Arrival(cs + [c], r)].addr, (cs + [c])[Arrival(cs + [c], Next(p, r))].conn)
  {
    var r := Note(p, t, c, who)[k];
    ArrivalAppend(cs, c, r);
    ArrivalAppend(cs, c, Next(p, r));
    PrevNext(p, c.local, r);
    NextOf(p, c.local);
    if k < |who| {
      assert Complete(p, cs, who[k]);
    } else {
      assert PairInv(p, cs, t, r);
      if c.local < p.n2send { assert PairInv(p, cs, t, c.local); }
    }
  }

  /** In every order of distinct check-ins, complete or not. */
  lemma {:induction false} CollectInv(p: Plan, cs: seq<CheckIn>) returns (who: seq<nat>)
    requires WfPlan(p) && Orderly(p, cs)
    ensures forall r :: 0 <= r < p.n2send ==> PairInv(p, cs, Collect(p, cs), r)
    ensures Answered(p, cs, Collect(p, cs).sent, who)
    decreases |cs|
  {
    if cs == [] {
      who := [];
    } else {
      var front, c := cs[..|cs| - 1], cs[|cs| - 1];
      assert cs == front + [c];
      who := CollectInv(p, front);
      var t := Collect(p, front);
      forall r | 0 <= r < p.n2send ensures PairInv(p, cs, Collect(p, cs), r) { PairStep(p, front, t, c, r); }
      AnswerStep(p, front, t, c, who);
      who := Note(p, t, c, who);
    }
  }

  /** All `nrecv` local ids have checked in. */
  ghost predicate Full(p: Plan, cs: seq<CheckIn>)
    requires WfPlan(p)
  {
    Orderly(p, cs) && forall l :: 0 <= l < p.nrecv ==> Seen(cs, l)
  }

  /** Once everyone has checked in, in whatever order, every served rank has been sent
      exactly one message, its successor's info, and the final sweep has nothing to send. */
  lemma EveryoneAnsweredOnce(p: Plan, cs: seq<CheckIn>) returns (who: seq<nat>)
    requires WfPlan(p) && Full(p, cs)
    ensures Answered(p, cs, Collect(p, cs).sent, who)
    ensures forall r: nat :: r in who <==> r < p.n2send
    ensures forall r :: 0 <= r < p.n2send ==> Collect(p, cs).addr[r] == 0 || Collect(p, cs).info[Next(p, r)] == 0
  {
    who := CollectInv(p, cs);
    forall r: nat ensures r in who <==> r < p.n2send {
      if r < p.n2send { assert Complete(p, cs, r); }
    }
    forall r | 0 <= r < p.n2send
      ensures Collect(p, cs).addr[r] == 0 || Collect(p, cs).info[Next(p, r)] == 0
    {
      assert PairInv(p, cs, Collect(p, cs), r);
    }
  }

  /** Two entries take part in no pair, and are stored when their local id checks in: the info of
      an id that no served id precedes, and the address of the extra id, which may be zero. */
  lemma {:induction false} Unpaired(p: Plan, cs: seq<CheckIn>, l: nat)
    requires WfPlan(p) && Orderly(p, cs) && l < p.nrecv
    ensures !(0 <= Prev(p, l) < p.n2send) ==> (Collect(p, cs).info[l] != 0 <==> Seen(cs, l))
    ensures l >= p.n2send ==> Collect(p, cs).addr[l] == if Seen(cs, l) then cs[Arrival(cs, l)].addr else 0
    decreases |cs|
  {
    if cs != [] {
      var front, c := cs[..|cs| - 1], cs[|cs| - 1];
      assert cs == front + [c];
      hide Match, Prev, Arrival;
      Unpaired(p, front, l);
      ArrivalAppend(front, c, l);
      UnpairedStep(p, Collect(p, front), c, l);
    }
  }

  lemma UnpairedStep(p: Plan, t: Tables, c: CheckIn, l: nat)
    requires WfPlan(p) && Sized(p, t) && c.local < p.nrecv && l < p.nrecv
    ensures !(0 <= Prev(p, l) < p.n2send) ==> Match(p, t, c).info[l] == if c.local == l then c.conn else t.info[l]
    ensures l >= p.n2send ==> Match(p, t, c).addr[l] == if c.local == l then c.addr else t.addr[l]
  {
    hide Prev, Next;
  }

  /** With an extra id nobody precedes local id 0. */
  lemma PrecededIff(p: Plan, l: nat)
    requires WfPlan(p) && l < p.nrecv
    ensures 0 <= Prev(p, l) < p.n2send <==> p.nrecv == p.n2send || l > 0
  {
    ModWrap(l - 1, p.nrecv);
    ModShift(l - 1, 1, p.nrecv);
  }

  /** The duplicate test looks for a nonzero entry of the local id.  A second check-in slips
      through exactly when neither entry was stored: the predecessor had checked in before, and
      so had the successor or, for the extra id, the address is zero. */
  lemma DuplicateUnseenIff(p: Plan, cs: seq<CheckIn>, l: nat)
    requires WfPlan(p) && Orderly(p, cs) && l < p.nrecv && Seen(cs, l)
    ensures Collect(p, cs).addr[l] == 0 && Collect(p, cs).info[l] == 0
       <==> && (p.nrecv == p.n2send || l > 0) && Prev(p, l) >= 0 && Arrival(cs, Prev(p, l)) < Arrival(cs, l)
            && if l < p.n2send then Arrival(cs, Next(p, l)) <= Arrival(cs, l) else cs[Arrival(cs, l)].addr == 0
  {
    var who := CollectInv(p, cs);
    PrecededIff(p, l);
    Unpaired(p, cs, l);
    if 0 <= Prev(p, l) < p.n2send {
      PrevNext(p, l, Prev(p, l));
      assert PairInv(p, cs, Collect(p, cs), Prev(p, l));
    }
    if l < p.n2send { assert PairInv(p, cs, Collect(p, cs), l); }
  }

  // ---------------------------------------------------------------------------
  // The root thread

  datatype RootEnd = Done | Waiting | Mismatch | OutOfRange | Duplicate

  /** What a root may rely on: it is one of the roots of a layout its callers use. */
  predicate FromClient(e: ExtInfo) {
    Layout(e.nranks, e.nroots, e.offset) && 0 <= e.iroot < e.nroots
  }

  function PlanOf(e: ExtInfo): (p: Plan)
    requires FromClient(e)
    ensures WfPlan(p) && p.n2send >= 1
  {
    BlocksTile(e.iroot, e.nranks, e.nroots, e.offset);
    var n2send := NRankFromRoot(e.iroot, e.nranks, e.nroots, e.offset);
    Plan(n2send, n2send + if e.offset > 0 || e.nroots > 1 then 1 else 0, e.nroots > 1)
  }

  predicate SameLayout(a: ExtInfo, b: ExtInfo) {
    a.nranks == b.nranks && a.nroots == b.nroots && a.iroot == b.iroot && a.offset == b.offset
  }

  function LocalId(first: ExtInfo, e: ExtInfo): int
    requires FromClient(first)
  {
    LocalIdFromRoot(e.rank, first.iroot, first.nranks, first.nroots, first.offset)
  }

  predicate InRange(first: ExtInfo, e: ExtInfo)
    requires FromClient(first)
  {
    0 <= LocalId(first, e) < PlanOf(first).nrecv
  }

  predicate AllInRange(first: ExtInfo, es: seq<ExtInfo>)
    requires FromClient(first)
  {
    forall i :: 0 <= i < |es| ==> InRange(first, es[i])
  }

  function CheckIns(first: ExtInfo, es: seq<ExtInfo>): (cs: seq<CheckIn>)
    requires FromClient(first) && AllInRange(first, es)
    ensures |cs| == |es|
    ensures forall i :: 0 <= i < |es| ==> cs[i] == CheckIn(LocalId(first, es[i]), es[i].listenRootAddress, es[i].connectInfo)
    ensures forall c :: c in cs ==> c.local < PlanOf(first).nrecv
  {
    seq(|es|, i requires 0 <= i < |es| =>
      assert InRange(first, es[i]);
      CheckIn(LocalId(first, es[i]), es[i].listenRootAddress, es[i].connectInfo))
  }

  lemma CollectAppend(p: Plan, cs: seq<CheckIn>, c: CheckIn)
    requires WfPlan(p) && (forall d :: d in cs ==> d.local < p.nrecv) && c.local < p.nrecv
    ensures forall d :: d in cs + [c] ==> d.local < p.nrecv
    ensures Collect(p, cs + [c]) == Match(p, Collect(p, cs), c)
  {
    assert (cs + [c])[..|cs|] == cs;
  }

  /** Only a local id that has checked in owns a nonzero entry. */
  lemma {:induction false} EntryMeansSeen(p: Plan, cs: seq<CheckIn>, l: nat)
    requires WfPlan(p) && (forall c :: c in cs ==> c.local < p.nrecv) && l < p.nrecv
    requires Collect(p, cs).addr[l] != 0 || Collect(p, cs).info[l] != 0
    ensures exists i :: 0 <= i < |cs| && cs[i].local == l
    decreases |cs|
  {
    if cs != [] {
      var front := cs[..|cs| - 1];
      if cs[|cs| - 1].local != l {
        EntryMeansSeen(p, front, l);
        var i :| 0 <= i < |front| && front[i].local == l;
        assert cs[i].local == l;
      }
    }
  }

  lemma RejectionSound(infos: seq<ExtInfo>, used: nat)
    requires (forall i :: 0 <= i < |infos| ==> FromClient(infos[i])) && used < |infos|
    requires AllInRange(infos[0], infos[..used]) && InRange(infos[0], infos[used])
    requires var t := Collect(PlanOf(infos[0]), CheckIns(infos[0], infos[..used]));
             var l := LocalId(infos[0], infos[used]);
             t.addr[l] != 0 || t.info[l] != 0
    ensures exists i :: 0 <= i < used && LocalId(infos[0], infos[i]) == LocalId(infos[0], infos[used])
    ensures !Rendezvous(infos)
  {
    var first := infos[0];
    var cs := CheckIns(first, infos[..used]);
    EntryMeansSeen(PlanOf(first), cs, LocalId(first, infos[used]));
    var i :| 0 <= i < |cs| && cs[i].local == LocalId(first, infos[used]);
    assert LocalId(first, infos[i]) == LocalId(first, infos[used]);
    if AllInRange(first, infos) {
      var all := CheckIns(first, infos);
      assert all[i].local == all[used].local;
    }
  }

  lemma NoRendezvous(infos: seq<ExtInfo>, used: nat)
    requires forall i :: 0 <= i < |infos| ==> FromClient(infos[i])
    requires used <= |infos|
    requires infos != [] ==>
               if used == |infos| then used < PlanOf(infos[0]).nrecv
               else !SameLayout(infos[0], infos[used]) || !InRange(infos[0], infos[used])
    ensures !Rendezvous(infos)
  {
  }

  lemma NothingToSweep(infos: seq<ExtInfo>)
    requires (forall i :: 0 <= i < |infos| ==> FromClient(infos[i])) && Rendezvous(infos)
    ensures var t := Collect(PlanOf(infos[0]), CheckIns(infos[0], infos));
            forall r :: 0 <= r < PlanOf(infos[0]).n2send ==> t.addr[r] == 0 || t.info[Next(PlanOf(infos[0]), r)] == 0
    ensures |infos| == PlanOf(infos[0]).nrecv && Full(PlanOf(infos[0]), CheckIns(infos[0], infos))
  {
    var who := EveryoneAnsweredOnce(PlanOf(infos[0]), CheckIns(infos[0], infos));
  }

  /** What the final sweep would send to the served ranks from `r` on. */
  function Leftover(p: Plan, t: Tables, r: nat): seq<Message>
    requires WfPlan(p) && Sized(p, t) && r <= p.n2send
    decreases p.n2send - r
  {
    if r == p.n2send then [] else
    (if t.addr[r] != 0 && t.info[Next(p, r)] != 0 then [Message(t.addr[r], t.info[Next(p, r)])] else [])
      + Leftover(p, t, r + 1)
  }

  lemma {:induction false} NoLeftover(p: Plan, t: Tables, r: nat)
    requires WfPlan(p) && Sized(p, t) && r <= p.n2send
    requires forall q :: 0 <= q < p.n2send ==> t.addr[q] == 0 || t.info[Next(p, q)] == 0
    ensures Leftover(p, t, r) == []
    decreases p.n2send - r
  {
    if r < p.n2send { NoLeftover(p, t, r + 1); }
  }

  /** Answers or records one accepted check-in. */
  method Serve(p: Plan, rankInfo: array<int>, rankAddressesRoot: array<int>, c: CheckIn) returns (out: seq<Message>)
    requires WfPlan(p) && c.local < p.nrecv == rankInfo.Length == rankAddressesRoot.Length
    requires rankInfo != rankAddressesRoot
    modifies rankInfo, rankAddressesRoot
    ensures Match(p, Tables(old(rankInfo[..]), old(rankAddressesRoot[..]), []), c)
         == Tables(rankInfo[..], rankAddressesRoot[..], out)
  {
    out := [];
    var prev := Prev(p, c.local);
    if 0 <= prev < p.n2send && rankAddressesRoot[prev] != 0 {
      out := out + [Message(rankAddressesRoot[prev], c.conn)];
    } else {
      rankInfo[c.local] := c.conn;
    }
    var next := Next(p, c.local);
    if c.local < p.n2send && rankInfo[next] != 0 {
      out := out + [Message(c.addr, rankInfo[next])];
    } else {
      rankAddressesRoot[c.local] := c.addr;
    }
  }

  method Sweep(p: Plan, rankInfo: array<int>, rankAddressesRoot: array<int>) returns (out: seq<Message>)
    requires WfPlan(p) && p.nrecv == rankInfo.Length == rankAddressesRoot.Length
    ensures out == Leftover(p, Tables(rankInfo[..], rankAddressesRoot[..], []), 0)
  {
    out := [];
    ghost var t := Tables(rankInfo[..], rankAddressesRoot[..], []);
    var r := 0;
    while r < p.n2send
      invariant r <= p.n2send && out + Leftover(p, t, r) == Leftover(p, t, 0)
    {
      var next := Next(p, r);
      if rankAddressesRoot[r] != 0 && rankInfo[next] != 0 {
        out := out + [Message(rankAddressesRoot[r], rankInfo[next])];
      }
      r := r + 1;
    }
  }

  lemma MatchSent(p: Plan, t: Tables, c: CheckIn)
    requires WfPlan(p) && Sized(p, t) && c.local < p.nrecv
    ensures Match(p, t, c).sent == t.sent + Match(p, t.(sent := []), c).sent
    ensures Match(p, t, c).info == Match(p, t.(sent := []), c).info
    ensures Match(p, t, c).addr == Match(p, t.(sent := []), c).addr
  {
  }

  /** Serves the check-ins `infos` in the order they are accepted; `used` of them were taken. */
  method BootstrapRoot(infos: seq<ExtInfo>)
    returns (end: RootEnd, sent: seq<Message>, used: nat, ghost who: seq<nat>)
    requires forall i :: 0 <= i < |infos| ==> FromClient(infos[i])
    ensures used <= |infos|
    ensures infos == [] ==> end == Waiting && sent == []
    ensures infos != [] ==> AllInRange(infos[0], infos[..used])
    ensures infos != [] ==> sent == SentFor(infos, used, end == Done)
    ensures end == Waiting ==> used == |infos| && (infos != [] ==> used < PlanOf(infos[0]).nrecv)
    ensures end == Done ==> infos != [] && used == PlanOf(infos[0]).nrecv
    ensures end == Mismatch ==> used < |infos| && !SameLayout(infos[0], infos[used])
    ensures end == OutOfRange ==> used < |infos| && !InRange(infos[0], infos[used])
    ensures end == Duplicate ==> used < |infos| && exists i :: 0 <= i < used && LocalId(infos[0], infos[i]) == LocalId(infos[0], infos[used])
    ensures Rendezvous(infos) ==> end == Done && sent == Collect(PlanOf(infos[0]), CheckIns(infos[0], infos)).sent
    ensures Rendezvous(infos) ==> Answered(PlanOf(infos[0]), CheckIns(infos[0], infos), sent, who)
    ensures Rendezvous(infos) ==> forall r: nat :: r in who <==> r < PlanOf(infos[0]).n2send
  {
    hide PlanOf, Match, Next, Prev, LocalId, Full, Answered, Leftover, Rendezvous, CheckIns, FromClient, SameLayout;
    sent, used, who := [], 0, [];
    if infos == [] {
      NoRendezvous(infos, 0);
      return Waiting, [], 0, [];
    }
    var first := infos[0];
    var p := PlanOf(first);
    var rankInfo := new int[p.nrecv](_ => 0);
    var rankAddressesRoot := new int[p.nrecv](_ => 0);
    ghost var cs: seq<CheckIn> := [];
    assert Collect(p, cs).info == rankInfo[..] && Collect(p, cs).addr == rankAddressesRoot[..];
    while used < p.nrecv
      invariant used <= |infos| && used <= p.nrecv
      invariant AllInRange(first, infos[..used]) && cs == CheckIns(first, infos[..used])
      invariant Collect(p, cs) == Tables(rankInfo[..], rankAddressesRoot[..], sent)
    {
      if used == |infos| {
        NoRendezvous(infos, used);
        return Waiting, sent, used, [];
      }
      var info := infos[used];
      if !SameLayout(first, info) {
        NoRendezvous(infos, used);
        return Mismatch, sent, used, [];
      }
      var localId := LocalId(first, info);
      if localId < 0 || localId >= p.nrecv {
        NoRendezvous(infos, used);
        return OutOfRange, sent, used, [];
      }
      if rankAddressesRoot[localId] != 0 || rankInfo[localId] != 0 {
        RejectionSound(infos, used);
        return Duplicate, sent, used, [];
      }
      var c := CheckIn(localId, info.listenRootAddress, info.connectInfo);
      CollectAppend(p, cs, c);
      MatchSent(p, Collect(p, cs), c);
      var out := Serve(p, rankInfo, rankAddressesRoot, c);
      sent := sent + out;
      used := used + 1;
      assert infos[..used] == infos[..used - 1] + [info];
      cs := cs + [c];
      assert cs == CheckIns(first, infos[..used]);
    }
    var out := Sweep(p, rankInfo, rankAddressesRoot);
    if Rendezvous(infos) {
      NothingToSweep(infos);
      assert infos[..used] == infos;
      NoLeftover(p, Tables(rankInfo[..], rankAddressesRoot[..], []), 0);
      who := EveryoneAnsweredOnce(p, cs);
    }
    LeftoverSent(p, Collect(p, cs), 0);
    end, sent := Done, sent + out;
  }

  lemma {:induction false} LeftoverSent(p: Plan, t: Tables, r: nat)
    requires WfPlan(p) && Sized(p, t) && r <= p.n2send
    ensures Leftover(p, t, r) == Leftover(p, t.(sent := []), r)
    decreases p.n2send - r
  {
    if r < p.n2send { LeftoverSent(p, t, r + 1); }
  }

  /** The messages of the first `used` check-ins, and of the sweep if it is reached. */
  ghost function SentFor(infos: seq<ExtInfo>, used: nat, swept: bool): seq<Message>
    requires infos != [] && FromClient(infos[0]) && used <= |infos| && AllInRange(infos[0], infos[..used])
  {
    var p := PlanOf(infos[0]);
    var t := Collect(p, CheckIns(infos[0], infos[..used]));
    t.sent + if swept then Leftover(p, t, 0) else []
  }

  /** Every expected local id checks in exactly once, and all check-ins agree on the layout. */
  ghost predicate Rendezvous(infos: seq<ExtInfo>)
    requires forall i :: 0 <= i < |infos| ==> FromClient(infos[i])
  {
    && infos != [] && |infos| == PlanOf(infos[0]).nrecv
    && (forall i :: 0 <= i < |infos| ==> SameLayout(infos[0], infos[i]))
    && AllInRange(infos[0], infos)
    && Full(PlanOf(infos[0]), CheckIns(infos[0], infos))
  }
}
