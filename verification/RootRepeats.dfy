/** What a bootstrap root does with a check-in that repeats a local id and is not recognised
    (src/bootstrap.cc): it counts it, so it stops listening one check-in too early. */
module RootRepeats {
  import opened RootMatch
  import opened Seqs

  ghost predicate InPlan(p: Plan, cs: seq<CheckIn>) { forall c :: c in cs ==> c.local < p.nrecv }

  ghost predicate CameFrom(cs: seq<CheckIn>, l: nat) { exists i :: 0 <= i < |cs| && cs[i].local == l }

  ghost predicate CameWith(cs: seq<CheckIn>, l: nat, addr: int) {
    exists i :: 0 <= i < |cs| && cs[i].local == l && cs[i].addr == addr
  }

  /** Message `k` answers the served id `who[k]`: it goes to an address that id checked in with,
      and the id's successor has checked in. */
  ghost predicate Told(p: Plan, cs: seq<CheckIn>, sent: seq<Message>, who: seq<nat>)
    requires WfPlan(p)
  {
    && |who| == |sent|
    && forall k :: 0 <= k < |who| ==>
         who[k] < p.n2send && CameWith(cs, who[k], sent[k].to) && CameFrom(cs, Next(p, who[k]))
  }

  /** Entries are those of ids that have checked in. */
  ghost predicate Backed(p: Plan, cs: seq<CheckIn>, t: Tables)
    requires Sized(p, t)
  {
    forall l :: 0 <= l < p.nrecv ==>
      && (t.addr[l] != 0 ==> CameWith(cs, l, t.addr[l]))
      && (t.info[l] != 0 ==> CameFrom(cs, l))
  }

  lemma CameMore(cs: seq<CheckIn>, c: CheckIn, l: nat, addr: int)
    ensures CameFrom(cs, l) || c.local == l ==> CameFrom(cs + [c], l)
    ensures CameWith(cs, l, addr) || (c.local == l && c.addr == addr) ==> CameWith(cs + [c], l, addr)
  {
    var cs' := cs + [c];
    assert cs'[|cs|] == c;
    if CameFrom(cs, l) {
      var i :| 0 <= i < |cs| && cs[i].local == l;
      assert cs'[i].local == l;
    }
    if CameWith(cs, l, addr) {
      var i :| 0 <= i < |cs| && cs[i].local == l && cs[i].addr == addr;
      assert cs'[i].local == l;
    }
  }

  lemma BackedStep(p: Plan, cs: seq<CheckIn>, t: Tables, c: CheckIn)
    requires WfPlan(p) && Sized(p, t) && c.local < p.nrecv && Backed(p, cs, t)
    ensures Backed(p, cs + [c], Match(p, t, c))
  {
    var t' := Match(p, t, c);
    forall l | 0 <= l < p.nrecv
      ensures t'.addr[l] != 0 ==> CameWith(cs + [c], l, t'.addr[l])
      ensures t'.info[l] != 0 ==> CameFrom(cs + [c], l)
    {
      CameMore(cs, c, l, t'.addr[l]);
    }
  }

  lemma ToldStep(p: Plan, cs: seq<CheckIn>, t: Tables, c: CheckIn, who: seq<nat>)
    requires WfPlan(p) && Sized(p, t) && c.local < p.nrecv && Backed(p, cs, t) && Told(p, cs, t.sent, who)
    ensures Told(p, cs + [c], Match(p, t, c).sent, Note(p, t, c, who))
  {
    var sent', who' := Match(p, t, c).sent, Note(p, t, c, who);
    var prev := Prev(p, c.local);
    if 0 <= prev < p.n2send { PrevNext(p, c.local, prev); }
    forall k | 0 <= k < |who'|
      ensures who'[k] < p.n2send && CameWith(cs + [c], who'[k], sent'[k].to) && CameFrom(cs + [c], Next(p, who'[k]))
    {
      if k < |who| { assert CameWith(cs, who[k], t.sent[k].to) && CameFrom(cs, Next(p, who[k])); }
      CameMore(cs, c, who'[k], sent'[k].to);
      CameMore(cs, c, Next(p, who'[k]), 0);
    }
  }

  /** Whatever checks in, in whatever order and however often, every message answers a served id
      that has checked in, as has its successor. */
  lemma {:induction false} OnlyKnownAnswered(p: Plan, cs: seq<CheckIn>) returns (who: seq<nat>)
    requires WfPlan(p) && InPlan(p, cs)
    ensures Backed(p, cs, Collect(p, cs)) && Told(p, cs, Collect(p, cs).sent, who)
    decreases |cs|
  {
    who := [];
    if cs != [] {
      var front, c := cs[..|cs| - 1], cs[|cs| - 1];
      assert cs == front + [c] && c in cs && forall d :: d in front ==> d in cs;
      who := OnlyKnownAnswered(p, front);
      BackedStep(p, front, Collect(p, front), c);
      ToldStep(p, front, Collect(p, front), c, who);
      who := Note(p, Collect(p, front), c, who);
    }
  }

  /** The same for the final sweep. */
  lemma {:induction false} SweepTold(p: Plan, cs: seq<CheckIn>, t: Tables, r: nat) returns (who: seq<nat>)
    requires WfPlan(p) && Sized(p, t) && r <= p.n2send && Backed(p, cs, t)
    ensures Told(p, cs, Leftover(p, t, r), who)
    decreases p.n2send - r
  {
    who := [];
    if r < p.n2send {
      var rest := SweepTold(p, cs, t, r + 1);
      who := (if t.addr[r] != 0 && t.info[Next(p, r)] != 0 then [r] else []) + rest;
    }
  }

  lemma ToldJoin(p: Plan, cs: seq<CheckIn>, a: seq<Message>, b: seq<Message>, who: seq<nat>, more: seq<nat>)
    requires WfPlan(p) && Told(p, cs, a, who) && Told(p, cs, b, more)
    ensures Told(p, cs, a + b, who + more)
  {
  }

  ghost function Locals(cs: seq<CheckIn>): seq<int> { seq(|cs|, i requires 0 <= i < |cs| => cs[i].local) }

  /** If each of `nrecv` local ids is to check in and one of the `nrecv` check-ins is a repeat,
      some id has not checked in. */
  lemma RepeatLeavesOut(p: Plan, cs: seq<CheckIn>) returns (l: nat)
    requires WfPlan(p) && InPlan(p, cs) && |cs| == p.nrecv && !Distinct(Locals(cs))
    ensures l < p.nrecv && !CameFrom(cs, l)
  {
    var s := Locals(cs);
    if forall x :: 0 <= x < p.nrecv ==> x in s {
      CoverDistinct(s);
    }
    l :| 0 <= l < p.nrecv && l !in s;
    assert forall i :: 0 <= i < |cs| ==> s[i] == cs[i].local;
  }

  /** A root that has taken all the check-ins it waits for, one of them a repeat, leaves a rank
      that it serves without an answer, and the rank waits for ever. */
  lemma RepeatStarves(p: Plan, cs: seq<CheckIn>) returns (r: nat, who: seq<nat>)
    requires WfPlan(p) && InPlan(p, cs) && |cs| == p.nrecv && !Distinct(Locals(cs))
    ensures r < p.n2send && (!CameFrom(cs, r) || !CameFrom(cs, Next(p, r)))
    ensures Told(p, cs, Collect(p, cs).sent + Leftover(p, Collect(p, cs), 0), who) && r !in who
  {
    var l := RepeatLeavesOut(p, cs);
    assert p.nrecv > 1;
    r := if l < p.n2send then l else p.n2send - 1;
    NextOf(p, r);
    var t := Collect(p, cs);
    var a := OnlyKnownAnswered(p, cs);
    var b := SweepTold(p, cs, t, 0);
    ToldJoin(p, cs, t.sent, Leftover(p, t, 0), a, b);
    who := a + b;
    forall k | 0 <= k < |who| ensures CameFrom(cs, who[k]) && CameFrom(cs, Next(p, who[k])) {
      WithIsFrom(cs, who[k], (t.sent + Leftover(p, t, 0))[k].to);
    }
  }

  lemma WithIsFrom(cs: seq<CheckIn>, l: nat, addr: int)
    requires CameWith(cs, l, addr)
    ensures CameFrom(cs, l)
  {
  }

  /** Four ranks, one root: 0, 2 and 1 check in, and 1 checks in again.  The repeat passes the
      test, the root has counted four, and rank 3 is never heard of. */
  lemma RepeatMissed(c0: CheckIn, c1: CheckIn, c2: CheckIn)
    requires c0.local == 0 && c1.local == 1 && c2.local == 2
    requires forall c :: c in [c0, c1, c2] ==> c.addr != 0 && c.conn != 0
    ensures var p := Plan(4, 4, false); var t := Collect(p, [c0, c2, c1]);
            && WfPlan(p) && Orderly(p, [c0, c2, c1]) && t.addr[1] == 0 && t.info[1] == 0
            && |[c0, c2, c1, c1]| == p.nrecv && !Distinct(Locals([c0, c2, c1, c1]))
  {
    var p, cs := Plan(4, 4, false), [c0, c2, c1];
    assert c0 in [c0, c1, c2] && c1 in [c0, c1, c2] && c2 in [c0, c1, c2];
    assert Arrival(cs, 1) == 2 && Arrival(cs, 0) == 0 && Arrival(cs, 2) == 1 by {
      assert cs[0].local == 0 && cs[1].local == 2 && cs[2].local == 1;
    }
    DuplicateUnseenIff(p, cs, 1);
    var four := Locals([c0, c2, c1, c1]);
    assert four[2] == four[3];
  }

  /** A grow with one root that serves two ranks: local id 1 checks in, then the extra id, which is
      rank 0 and has no address.  A repeat of the extra id passes the test, the root has counted
      three, and local id 0 is never heard of. */
  lemma GrowRepeatMissed(c1: CheckIn, c2: CheckIn)
    requires c1.local == 1 && c2.local == 2 && c1.addr != 0 && c1.conn != 0 && c2.addr == 0 && c2.conn != 0
    ensures var p := Plan(2, 3, false); var t := Collect(p, [c1, c2]);
            && WfPlan(p) && Orderly(p, [c1, c2]) && t.addr[2] == 0 && t.info[2] == 0
            && |[c1, c2, c2]| == p.nrecv && !Distinct(Locals([c1, c2, c2]))
  {
    var p, cs := Plan(2, 3, false), [c1, c2];
    assert Arrival(cs, 1) == 0 && Arrival(cs, 2) == 1 by { assert cs[0].local == 1 && cs[1].local == 2; }
    DuplicateUnseenIff(p, cs, 2);
    var three := Locals([c1, c2, c2]);
    assert three[1] == three[2];
  }
}
