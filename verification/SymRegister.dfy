/** Symmetric memory registration (src/dev_runtime.cc): all ranks of a communicator register
    and deregister windows in the same order.  They compare their own candidates for reuse and
    must all take the same decision; ranks of one LSA team must place a registration at the
    same offset of the big address space, each with its own copy of the allocator. */
module SymRegister {
  import opened Arith
  import opened Messages
  import Space

  /** `lsa` ranks form a team; every rank's space has `bigSize` bytes, handed out in multiples
      of `granularity`; rank `r` sees its own space at `base[r]`. */
  datatype World = World(ranks: nat, lsa: nat, bigSize: nat, granularity: nat, base: seq<int>)

  /** What one rank passes to a registration. */
  datatype Request = Request(addr: int, size: nat, flags: int, handles: seq<int>, mask: int, mode: int)

  datatype Mem = Mem(id: nat, addr: int, size: nat, flags: int, handles: seq<int>, lsaMaxSize: nat, bigOffset: int, refCount: nat)

  /** `mems` is the list from its head: the most recent first. */
  datatype Rank = Rank(mems: seq<Mem>, nextId: nat, cuts: seq<int>)

  datatype Decision = Fail | Reuse | Create

  ghost predicate ValidWorld(w: World) { w.ranks > 0 && w.lsa > 0 && w.granularity > 0 && |w.base| == w.ranks }

  predicate Matches(m: Mem, q: Request) {
    m.addr == q.addr && m.size == q.size && m.flags == q.flags && m.handles == q.handles
  }

  /** The most recent registration of the same memory. */
  function Candidate(mems: seq<Mem>, q: Request): (id: Option<nat>)
    ensures id.Some? ==> exists i :: 0 <= i < |mems| && mems[i].id == id.value && Matches(mems[i], q)
  {
    if mems == [] then None
    else if Matches(mems[0], q) then Some(mems[0].id)
    else
      var id := Candidate(mems[1..], q);
      assert id.Some? ==> exists i :: 0 <= i < |mems[1..]| && mems[1..][i].id == id.value && Matches(mems[1..][i], q);
      id
  }

  /** What each rank contributes to the allgather. */
  datatype Info = Info(mask: int, mode: int, size: nat, candidate: Option<nat>)

  ghost predicate Disagrees(infos: seq<Info>, r: int)
    requires 0 <= r < |infos|
  {
    exists q :: 0 <= q < |infos| && (infos[q].mask != infos[r].mask || infos[q].mode != infos[r].mode)
  }

  ghost predicate SameCandidates(infos: seq<Info>, r: int)
    requires 0 <= r < |infos|
  {
    forall q :: 0 <= q < |infos| ==> infos[q].candidate == infos[r].candidate
  }

  ghost function Decided(infos: seq<Info>, r: int): Decision
    requires 0 <= r < |infos|
  {
    if Disagrees(infos, r) then Fail
    else if infos[r].candidate.Some? && SameCandidates(infos, r) then Reuse
    else Create
  }

  /** All ranks decide alike. */
  lemma Unanimous(infos: seq<Info>, a: int, b: int)
    requires 0 <= a < |infos| && 0 <= b < |infos|
    ensures Decided(infos, a) == Decided(infos, b)
  {
    if Disagrees(infos, a) { DisagreeAlike(infos, a, b); }
    if Disagrees(infos, b) { DisagreeAlike(infos, b, a); }
    if SameCandidates(infos, a) { assert infos[b].candidate == infos[a].candidate; }
    if SameCandidates(infos, b) { assert infos[a].candidate == infos[b].candidate; }
  }

  lemma DisagreeAlike(infos: seq<Info>, a: int, b: int)
    requires 0 <= a < |infos| && 0 <= b < |infos| && Disagrees(infos, a)
    ensures Disagrees(infos, b)
  {
    var q :| 0 <= q < |infos| && (infos[q].mask != infos[a].mask || infos[q].mode != infos[a].mode);
    if infos[a].mask == infos[b].mask && infos[a].mode == infos[b].mode {
      assert infos[q].mask != infos[b].mask || infos[q].mode != infos[b].mode;
    } else {
      assert infos[a].mask != infos[b].mask || infos[a].mode != infos[b].mode;
    }
  }

  // ---------------------------------------------------------------------------
  // Steps of one rank

  ghost function TeamBase(w: World, r: int): int
    requires w.lsa > 0
  {
    w.lsa * (r / w.lsa)
  }

  /** The largest size among ranks `from .. from + n`. */
  ghost function MaxSize(infos: seq<Info>, from: int, n: nat): nat {
    if n == 0 then 0
    else
      var m, r := MaxSize(infos, from, n - 1), from + n - 1;
      if 0 <= r < |infos| && infos[r].size > m then infos[r].size else m
  }

  ghost function LsaMaxSize(w: World, infos: seq<Info>, r: int): nat
    requires ValidWorld(w)
  {
    MaxSize(infos, TeamBase(w, r), w.lsa)
  }

  ghost function Mapped(w: World, r: int, q: Request, off: int): int
    requires 0 <= r < |w.base|
  {
    if q.addr == 0 then w.base[r] + off else q.addr
  }

  /** One rank goes through a registration with the gathered `infos`. */
  ghost predicate Obtains(w: World, infos: seq<Info>, r: int, q: Request, s: Rank, s': Rank)
    requires ValidWorld(w) && |infos| == w.ranks && 0 <= r < w.ranks
  {
    match Decided(infos, r)
    case Fail => s' == s
    case Reuse =>
      exists i: nat :: i < |s.mems| && s.mems[i].id == infos[r].candidate.value
        && s' == s.(mems := s.mems[i := s.mems[i].(refCount := s.mems[i].refCount + 1)])
    case Create =>
      var size := LsaMaxSize(w, infos, r);
      && |s'.mems| > 0
      && Space.Allocated(s.cuts, w.bigSize, size, w.granularity, s'.mems[0].bigOffset, s'.cuts)
      && s'.nextId == s.nextId + 1
      && s'.mems == [Mem(s.nextId, Mapped(w, r, q, s'.mems[0].bigOffset), q.size, q.flags, q.handles, size,
                         s'.mems[0].bigOffset, 1)] + s.mems
  }

  /** One rank drops a reference to registration `id`. */
  ghost predicate Drops(id: nat, s: Rank, s': Rank) {
    exists i: nat :: i < |s.mems| && s.mems[i].id == id && s.mems[i].refCount > 0 && DropsAt(i, s, s')
  }

  ghost predicate DropsAt(i: nat, s: Rank, s': Rank)
    requires i < |s.mems| && s.mems[i].refCount > 0
  {
    var m := s.mems[i];
    if m.refCount > 1 then s' == s.(mems := s.mems[i := m.(refCount := m.refCount - 1)])
    else
      && Space.Released(s.cuts, m.bigOffset, m.lsaMaxSize, s'.cuts)
      && s' == s.(mems := s.mems[..i] + s.mems[i + 1..], cuts := s'.cuts)
  }

  // ---------------------------------------------------------------------------
  // All ranks

  datatype Op = Register(reqs: seq<Request>) | Deregister(id: nat)

  ghost function Infos(w: World, s: seq<Rank>, reqs: seq<Request>): (infos: seq<Info>)
    requires |s| == |reqs| == w.ranks
    ensures |infos| == w.ranks
    ensures forall r :: 0 <= r < w.ranks ==> infos[r] == Info(reqs[r].mask, reqs[r].mode, reqs[r].size, Candidate(s[r].mems, reqs[r]))
  {
    seq(w.ranks, r requires 0 <= r < w.ranks => Info(reqs[r].mask, reqs[r].mode, reqs[r].size, Candidate(s[r].mems, reqs[r])))
  }

  ghost predicate Step(w: World, s: seq<Rank>, s': seq<Rank>, op: Op)
    requires ValidWorld(w)
  {
    && |s| == |s'| == w.ranks
    && match op
       case Register(reqs) =>
         && |reqs| == w.ranks && (forall r :: 0 <= r < w.ranks ==> reqs[r].size > 0)
         && forall r :: 0 <= r < w.ranks ==> Obtains(w, Infos(w, s, reqs), r, reqs[r], s[r], s'[r])
       case Deregister(id) => forall r :: 0 <= r < w.ranks ==> Drops(id, s[r], s'[r])
  }

  ghost predicate Init(w: World, s: seq<Rank>) {
    |s| == w.ranks && forall r :: 0 <= r < w.ranks ==> s[r] == Rank([], 0, [])
  }

  ghost predicate Run(w: World, trace: seq<seq<Rank>>, ops: seq<Op>) {
    && ValidWorld(w) && |trace| == |ops| + 1 && Init(w, trace[0])
    && forall t :: 0 <= t < |ops| ==> Step(w, trace[t], trace[t + 1], ops[t])
  }

  // ---------------------------------------------------------------------------
  // What every operation keeps

  ghost predicate SameTeam(w: World, a: int, b: int)
    requires w.lsa > 0
  {
    a / w.lsa == b / w.lsa
  }

  /** Two ranks have registered the same things; in one team also at the same place. */
  ghost predicate Agree(w: World, a: int, sa: Rank, b: int, sb: Rank)
    requires w.lsa > 0
  {
    && sa.nextId == sb.nextId && |sa.mems| == |sb.mems|
    && (forall i :: 0 <= i < |sa.mems| ==> sa.mems[i].id == sb.mems[i].id && sa.mems[i].refCount == sb.mems[i].refCount)
    && (SameTeam(w, a, b) ==>
          && sa.cuts == sb.cuts
          && forall i :: 0 <= i < |sa.mems| ==>
               sa.mems[i].bigOffset == sb.mems[i].bigOffset && sa.mems[i].lsaMaxSize == sb.mems[i].lsaMaxSize)
  }

  ghost predicate Overlap(m: Mem, n: Mem, x: int) {
    m.bigOffset <= x < m.bigOffset + m.lsaMaxSize && n.bigOffset <= x < n.bigOffset + n.lsaMaxSize
  }

  /** A rank's own books: distinct ids below the counter, and disjoint ranges that its space
      has marked full. */
  ghost predicate RankInv(s: Rank) {
    && Space.Canonical(s.cuts)
    && (forall i :: 0 <= i < |s.mems| ==> s.mems[i].id < s.nextId && s.mems[i].refCount > 0 && s.mems[i].lsaMaxSize > 0)
    && (forall i, j :: 0 <= i < j < |s.mems| ==> s.mems[i].id != s.mems[j].id)
    && (forall i, j, x :: 0 <= i < j < |s.mems| ==> !Overlap(s.mems[i], s.mems[j], x))
    && (forall i, x :: 0 <= i < |s.mems| && s.mems[i].bigOffset <= x < s.mems[i].bigOffset + s.mems[i].lsaMaxSize ==>
          Space.Has(s.cuts, x))
  }

  ghost predicate Inv(w: World, s: seq<Rank>) {
    && ValidWorld(w) && |s| == w.ranks
    && (forall r :: 0 <= r < w.ranks ==> RankInv(s[r]))
    && (forall a, b :: 0 <= a < w.ranks && 0 <= b < w.ranks ==> Agree(w, a, s[a], b, s[b]))
  }

  lemma SameMax(w: World, infos: seq<Info>, a: int, b: int)
    requires ValidWorld(w) && SameTeam(w, a, b)
    ensures LsaMaxSize(w, infos, a) == LsaMaxSize(w, infos, b)
  {
  }

  lemma {:induction false} MaxAtLeast(infos: seq<Info>, from: int, n: nat, r: int)
    requires from <= r < from + n && 0 <= r < |infos|
    ensures MaxSize(infos, from, n) >= infos[r].size
  {
    if r < from + n - 1 { MaxAtLeast(infos, from, n - 1, r); }
  }

  lemma {:induction false} MaxAttained(infos: seq<Info>, from: int, n: nat)
    ensures MaxSize(infos, from, n) == 0 ||
            exists r :: from <= r < from + n && 0 <= r < |infos| && infos[r].size == MaxSize(infos, from, n)
  {
    if n > 0 { MaxAttained(infos, from, n - 1); }
  }

  /** A rank is in the block of its team, and the ranks of the block are its team. */
  lemma TeamBlock(w: World, r: int, q: int)
    requires ValidWorld(w)
    ensures SameTeam(w, r, q) <==> TeamBase(w, r) <= q < TeamBase(w, r) + w.lsa
  {
    var t := r / w.lsa;
    assert q == w.lsa * (q / w.lsa) + q % w.lsa;
    if TeamBase(w, r) <= q < TeamBase(w, r) + w.lsa { DivModUnique(q, w.lsa, t, q - w.lsa * t); }
  }

  /** No rank of the team has a larger size, and one has that size. */
  lemma LargestOfTeam(w: World, infos: seq<Info>, r: int)
    requires ValidWorld(w) && 0 <= r < |infos|
    ensures forall q :: 0 <= q < |infos| && SameTeam(w, r, q) ==> infos[q].size <= LsaMaxSize(w, infos, r)
    ensures exists q :: 0 <= q < |infos| && SameTeam(w, r, q) && infos[q].size == LsaMaxSize(w, infos, r)
  {
    hide SameTeam;
    var base, max := TeamBase(w, r), LsaMaxSize(w, infos, r);
    forall q | 0 <= q < |infos| && SameTeam(w, r, q) ensures infos[q].size <= max {
      TeamBlock(w, r, q);
      MaxAtLeast(infos, base, w.lsa, q);
    }
    OwnTeam(w, infos, r);
    MaxAttained(infos, base, w.lsa);
    var p := if max == 0 then r else var q :| base <= q < base + w.lsa && 0 <= q < |infos| && infos[q].size == max; q;
    TeamBlock(w, r, p);
    assert SameTeam(w, r, r) by { SameAsSelf(w, r); }
  }

  lemma SameAsSelf(w: World, r: int)
    requires ValidWorld(w)
    ensures SameTeam(w, r, r)
  {
  }

  lemma OwnTeam(w: World, infos: seq<Info>, r: int)
    requires ValidWorld(w) && 0 <= r < |infos|
    ensures LsaMaxSize(w, infos, r) >= infos[r].size
  {
    assert r == w.lsa * (r / w.lsa) + r % w.lsa;
    MaxAtLeast(infos, TeamBase(w, r), w.lsa, r);
  }

  lemma CreateKeeps(w: World, infos: seq<Info>, r: int, q: Request, s: Rank, s': Rank)
    requires ValidWorld(w) && |infos| == w.ranks && 0 <= r < w.ranks && infos[r].size > 0 && RankInv(s)
    requires Obtains(w, infos, r, q, s, s') && Decided(infos, r) == Create
    ensures RankInv(s')
  {
    hide Space.Canonical, Space.Has, Space.Floor, Space.Tight;
    OwnTeam(w, infos, r);
    var m, size := s'.mems[0], LsaMaxSize(w, infos, r);
    var lo, hi := m.bigOffset, m.bigOffset + size;
    forall i | 1 <= i < |s'.mems| ensures s'.mems[i] == s.mems[i - 1] { }
    forall x | lo <= x < hi ensures !Space.Has(s.cuts, x) && Space.Has(s'.cuts, x) {
      MarksAtLeast(s.cuts, w.bigSize, size, m.bigOffset, s'.cuts, w.granularity, x);
    }
    forall i, x | 0 <= i < |s'.mems| && s'.mems[i].bigOffset <= x < s'.mems[i].bigOffset + s'.mems[i].lsaMaxSize
      ensures Space.Has(s'.cuts, x)
    {
      if i > 0 {
        assert s'.mems[i] == s.mems[i - 1] && Space.Has(s.cuts, x);
        KeepsFull(s.cuts, w.bigSize, size, m.bigOffset, s'.cuts, w.granularity, x);
      }
    }
    forall i, j, x | 0 <= i < j < |s'.mems| ensures !Overlap(s'.mems[i], s'.mems[j], x) {
      if i == 0 {
        var n := s.mems[j - 1];
        assert s'.mems[j] == n;
        assert n.bigOffset <= x < n.bigOffset + n.lsaMaxSize ==> Space.Has(s.cuts, x);
      } else {
        assert !Overlap(s.mems[i - 1], s.mems[j - 1], x);
      }
    }
  }

  lemma MarksAtLeast(cuts: seq<int>, limit: int, size: int, off: int, after: seq<int>, align: int, x: int)
    requires 0 < align && Space.Canonical(cuts) && Space.Allocated(cuts, limit, size, align, off, after) && off <= x < off + size
    ensures !Space.Has(cuts, x) && Space.Has(after, x)
  {
    hide Space.Has, Space.Canonical;
    MarkBelow(cuts, limit, size, off);
  }

  lemma KeepsFull(cuts: seq<int>, limit: int, size: int, off: int, after: seq<int>, align: int, x: int)
    requires 0 < align && Space.Allocated(cuts, limit, size, align, off, after) && Space.Has(cuts, x)
    ensures Space.Has(after, x)
  {
    hide Space.Has, Space.Canonical, Space.Floor, Space.Tight;
  }

  lemma MarkBelow(cuts: seq<int>, limit: int, size: int, off: int)
    requires Space.Canonical(cuts) && 0 <= off
    ensures Space.MarkFrom(cuts, limit, size, off) <= off
  {
    hide Space.Tight;
  }

  lemma CountKeeps(s: Rank, i: nat, c: nat)
    requires RankInv(s) && i < |s.mems| && c > 0
    ensures RankInv(s.(mems := s.mems[i := s.mems[i].(refCount := c)]))
  {
    hide Space.Has, Space.Canonical;
    var s' := s.(mems := s.mems[i := s.mems[i].(refCount := c)]);
    forall j, k, x | 0 <= j < k < |s'.mems| ensures !Overlap(s'.mems[j], s'.mems[k], x) {
      assert !Overlap(s.mems[j], s.mems[k], x);
    }
  }

  lemma DropKeeps(s: Rank, s': Rank, i: nat)
    requires RankInv(s) && i < |s.mems| && s.mems[i].refCount > 0 && DropsAt(i, s, s')
    ensures RankInv(s')
  {
    hide Space.Has, Space.Canonical;
    var m := s.mems[i];
    if m.refCount > 1 {
      CountKeeps(s, i, m.refCount - 1);
    } else {
      var d := s'.mems;
      forall j | 0 <= j < |d| ensures d[j] == s.mems[if j < i then j else j + 1] { }
      forall j, k, x | 0 <= j < k < |d| ensures !Overlap(d[j], d[k], x) {
        assert !Overlap(s.mems[if j < i then j else j + 1], s.mems[if k < i then k else k + 1], x);
      }
      forall j, x | 0 <= j < |d| && d[j].bigOffset <= x < d[j].bigOffset + d[j].lsaMaxSize ensures Space.Has(s'.cuts, x) {
        var k := if j < i then j else j + 1;
        assert Space.Has(s.cuts, x);
        assert !Overlap(s.mems[if k < i then k else i], s.mems[if k < i then i else k], x);
      }
    }
  }

  /** The registration with one id is at one place in both lists. */
  lemma SameIndex(w: World, a: int, sa: Rank, b: int, sb: Rank, i: nat, j: nat)
    requires ValidWorld(w) && RankInv(sb) && Agree(w, a, sa, b, sb)
    requires i < |sa.mems| && j < |sb.mems| && sa.mems[i].id == sb.mems[j].id
    ensures i == j
  {
    hide Overlap, SameTeam, Space.Has, Space.Canonical;
    assert sb.mems[i].id == sb.mems[j].id;
  }

  lemma AgreeCount(w: World, a: int, sa: Rank, b: int, sb: Rank, i: nat, c: nat)
    requires ValidWorld(w) && Agree(w, a, sa, b, sb) && i < |sa.mems|
    ensures Agree(w, a, sa.(mems := sa.mems[i := sa.mems[i].(refCount := c)]), b, sb.(mems := sb.mems[i := sb.mems[i].(refCount := c)]))
  {
    hide SameTeam;
  }

  lemma AgreePush(w: World, a: int, sa: Rank, b: int, sb: Rank, ma: Mem, mb: Mem, ca: seq<int>, cb: seq<int>)
    requires ValidWorld(w) && Agree(w, a, sa, b, sb) && ma.id == mb.id && ma.refCount == mb.refCount
    requires SameTeam(w, a, b) ==> ma.bigOffset == mb.bigOffset && ma.lsaMaxSize == mb.lsaMaxSize && ca == cb
    ensures Agree(w, a, Rank([ma] + sa.mems, sa.nextId + 1, ca), b, Rank([mb] + sb.mems, sb.nextId + 1, cb))
  {
    hide SameTeam;
    var la, lb := [ma] + sa.mems, [mb] + sb.mems;
    forall i | 0 <= i < |la| ensures la[i] == (if i == 0 then ma else sa.mems[i - 1]) && lb[i] == (if i == 0 then mb else sb.mems[i - 1]) { }
  }

  lemma AgreeRemove(w: World, a: int, sa: Rank, b: int, sb: Rank, i: nat, ca: seq<int>, cb: seq<int>)
    requires ValidWorld(w) && Agree(w, a, sa, b, sb) && i < |sa.mems| && (SameTeam(w, a, b) ==> ca == cb)
    ensures Agree(w, a, Rank(sa.mems[..i] + sa.mems[i + 1..], sa.nextId, ca), b, Rank(sb.mems[..i] + sb.mems[i + 1..], sb.nextId, cb))
  {
    hide SameTeam;
    var la, lb := sa.mems[..i] + sa.mems[i + 1..], sb.mems[..i] + sb.mems[i + 1..];
    forall k | 0 <= k < |la| ensures la[k] == sa.mems[if k < i then k else k + 1] && lb[k] == sb.mems[if k < i then k else k + 1] { }
  }

  /** Two ranks that agree still agree after the same registration. */
  lemma ObtainAgrees(w: World, infos: seq<Info>, a: int, qa: Request, sa: Rank, sa': Rank, b: int, qb: Request, sb: Rank, sb': Rank)
    requires ValidWorld(w) && |infos| == w.ranks && 0 <= a < w.ranks && 0 <= b < w.ranks
    requires RankInv(sa) && RankInv(sb) && Agree(w, a, sa, b, sb)
    requires Obtains(w, infos, a, qa, sa, sa') && Obtains(w, infos, b, qb, sb, sb')
    ensures Agree(w, a, sa', b, sb')
  {
    hide Space.Allocated, LsaMaxSize, SameTeam, RankInv, Agree, Decided, Mapped;
    Unanimous(infos, a, b);
    match Decided(infos, a)
    case Fail =>
    case Reuse =>
      ReuseSame(infos, a, b);
      var i: nat :| i < |sa.mems| && sa.mems[i].id == infos[a].candidate.value
        && sa' == sa.(mems := sa.mems[i := sa.mems[i].(refCount := sa.mems[i].refCount + 1)]);
      var j: nat :| j < |sb.mems| && sb.mems[j].id == infos[b].candidate.value
        && sb' == sb.(mems := sb.mems[j := sb.mems[j].(refCount := sb.mems[j].refCount + 1)]);
      SameIndex(w, a, sa, b, sb, i, j);
      SameCount(w, a, sa, b, sb, i);
      AgreeCount(w, a, sa, b, sb, i, sa.mems[i].refCount + 1);
    case Create =>
      AgreeBasics(w, a, sa, b, sb);
      if SameTeam(w, a, b) {
        SameMax(w, infos, a, b);
        Space.AllocatedUnique(sa.cuts, w.bigSize, LsaMaxSize(w, infos, a), w.granularity,
                              sa'.mems[0].bigOffset, sa'.cuts, sb'.mems[0].bigOffset, sb'.cuts);
      }
      AgreePush(w, a, sa, b, sb, sa'.mems[0], sb'.mems[0], sa'.cuts, sb'.cuts);
      assert sa' == Rank([sa'.mems[0]] + sa.mems, sa.nextId + 1, sa'.cuts);
      assert sb' == Rank([sb'.mems[0]] + sb.mems, sb.nextId + 1, sb'.cuts);
  }

  lemma ReuseSame(infos: seq<Info>, a: int, b: int)
    requires 0 <= a < |infos| && 0 <= b < |infos| && Decided(infos, a) == Reuse
    ensures infos[a].candidate.Some? && infos[b].candidate == infos[a].candidate
  {
    assert SameCandidates(infos, a);
  }

  lemma SameCount(w: World, a: int, sa: Rank, b: int, sb: Rank, i: nat)
    requires ValidWorld(w) && Agree(w, a, sa, b, sb) && i < |sa.mems|
    ensures |sb.mems| == |sa.mems| && sa.mems[i].refCount == sb.mems[i].refCount
    ensures SameTeam(w, a, b) ==> sa.mems[i].bigOffset == sb.mems[i].bigOffset && sa.mems[i].lsaMaxSize == sb.mems[i].lsaMaxSize
  {
  }

  lemma AgreeBasics(w: World, a: int, sa: Rank, b: int, sb: Rank)
    requires ValidWorld(w) && Agree(w, a, sa, b, sb)
    ensures sa.nextId == sb.nextId && (SameTeam(w, a, b) ==> sa.cuts == sb.cuts)
  {
  }

  lemma DropAgrees(w: World, id: nat, a: int, sa: Rank, sa': Rank, b: int, sb: Rank, sb': Rank)
    requires ValidWorld(w) && RankInv(sa) && RankInv(sb) && Agree(w, a, sa, b, sb) && Drops(id, sa, sa') && Drops(id, sb, sb')
    ensures Agree(w, a, sa', b, sb')
  {
    hide Space.Released, SameTeam, RankInv, Agree;
    var i: nat :| i < |sa.mems| && sa.mems[i].id == id && sa.mems[i].refCount > 0 && DropsAt(i, sa, sa');
    var j: nat :| j < |sb.mems| && sb.mems[j].id == id && sb.mems[j].refCount > 0 && DropsAt(j, sb, sb');
    SameIndex(w, a, sa, b, sb, i, j);
    SameCount(w, a, sa, b, sb, i);
    AgreeBasics(w, a, sa, b, sb);
    if sa.mems[i].refCount == 1 {
      if SameTeam(w, a, b) {
        Space.ReleasedUnique(sa.cuts, sa.mems[i].bigOffset, sa.mems[i].lsaMaxSize, sa'.cuts, sb'.cuts);
      }
      AgreeRemove(w, a, sa, b, sb, i, sa'.cuts, sb'.cuts);
    } else {
      AgreeCount(w, a, sa, b, sb, i, sa.mems[i].refCount - 1);
    }
  }

  lemma ObtainKeeps(w: World, infos: seq<Info>, r: int, q: Request, s: Rank, s': Rank)
    requires ValidWorld(w) && |infos| == w.ranks && 0 <= r < w.ranks && infos[r].size > 0 && RankInv(s)
    requires Obtains(w, infos, r, q, s, s')
    ensures RankInv(s')
  {
    hide RankInv, LsaMaxSize, Space.Allocated;
    match Decided(infos, r)
    case Fail =>
    case Reuse =>
      var i: nat :| i < |s.mems| && s.mems[i].id == infos[r].candidate.value
        && s' == s.(mems := s.mems[i := s.mems[i].(refCount := s.mems[i].refCount + 1)]);
      CountKeeps(s, i, s.mems[i].refCount + 1);
    case Create =>
      CreateKeeps(w, infos, r, q, s, s');
  }

  lemma StepKeeps(w: World, s: seq<Rank>, s': seq<Rank>, op: Op)
    requires Inv(w, s) && Step(w, s, s', op)
    ensures Inv(w, s')
  {
    hide RankInv, Agree, Obtains, DropsAt;
    match op
    case Register(reqs) =>
      var infos := Infos(w, s, reqs);
      forall r | 0 <= r < w.ranks ensures RankInv(s'[r]) { ObtainKeeps(w, infos, r, reqs[r], s[r], s'[r]); }
      forall a, b | 0 <= a < w.ranks && 0 <= b < w.ranks ensures Agree(w, a, s'[a], b, s'[b]) {
        ObtainAgrees(w, infos, a, reqs[a], s[a], s'[a], b, reqs[b], s[b], s'[b]);
      }
    case Deregister(id) =>
      forall r | 0 <= r < w.ranks ensures RankInv(s'[r]) {
        assert Drops(id, s[r], s'[r]);
        var i: nat :| i < |s[r].mems| && s[r].mems[i].id == id && s[r].mems[i].refCount > 0 && DropsAt(i, s[r], s'[r]);
        DropKeeps(s[r], s'[r], i);
      }
      forall a, b | 0 <= a < w.ranks && 0 <= b < w.ranks ensures Agree(w, a, s'[a], b, s'[b]) {
        DropAgrees(w, id, a, s[a], s'[a], b, s[b], s'[b]);
      }
  }

  lemma {:induction false} RunInv(w: World, trace: seq<seq<Rank>>, ops: seq<Op>, t: nat)
    requires Run(w, trace, ops) && t < |trace|
    ensures Inv(w, trace[t])
  {
    hide Step;
    if t > 0 {
      RunInv(w, trace, ops, t - 1);
      StepKeeps(w, trace[t - 1], trace[t], ops[t - 1]);
    }
  }

  /** In every run, all ranks have the same counter and the same registrations with the same
      reference counts, and ranks of one team have them at the same offsets. */
  lemma RanksAgree(w: World, trace: seq<seq<Rank>>, ops: seq<Op>, t: nat, a: int, b: int)
    requires Run(w, trace, ops) && t < |trace| && 0 <= a < w.ranks && 0 <= b < w.ranks
    ensures |trace[t]| == w.ranks && Agree(w, a, trace[t][a], b, trace[t][b])
  {
    hide Agree, RankInv;
    RunInv(w, trace, ops, t);
  }

  /** In every run, a registration either reuses on all ranks or creates on all ranks. */
  lemma SameChoice(w: World, trace: seq<seq<Rank>>, ops: seq<Op>, t: nat, a: int, b: int)
    requires Run(w, trace, ops) && t < |ops| && ops[t].Register? && 0 <= a < w.ranks && 0 <= b < w.ranks
    ensures |trace[t]| == |trace[t + 1]| == |ops[t].reqs| == w.ranks
    ensures Decided(Infos(w, trace[t], ops[t].reqs), a) == Decided(Infos(w, trace[t], ops[t].reqs), b)
    ensures trace[t + 1][a].nextId - trace[t][a].nextId == trace[t + 1][b].nextId - trace[t][b].nextId
  {
    hide Obtains, Decided;
    assert Step(w, trace[t], trace[t + 1], ops[t]);
    Unanimous(Infos(w, trace[t], ops[t].reqs), a, b);
    RanksAgree(w, trace, ops, t, a, b);
    RanksAgree(w, trace, ops, t + 1, a, b);
  }

  /** In every run, the live registrations of a rank occupy disjoint ranges, all of them
      marked full in its space, so that dropping the last reference can always free them. */
  lemma LiveDisjoint(w: World, trace: seq<seq<Rank>>, ops: seq<Op>, t: nat, r: int, i: nat, j: nat, x: int)
    requires Run(w, trace, ops) && t < |trace| && 0 <= r < w.ranks && |trace[t]| == w.ranks
    requires i < |trace[t][r].mems| && j < |trace[t][r].mems|
    ensures i != j ==> !Overlap(trace[t][r].mems[i], trace[t][r].mems[j], x)
    ensures var m := trace[t][r].mems[i];
            m.bigOffset <= x < m.bigOffset + m.lsaMaxSize ==> Space.Has(trace[t][r].cuts, x)
  {
    hide Agree, Space.Has, Space.Canonical;
    RunInv(w, trace, ops, t);
    assert RankInv(trace[t][r]);
    if i < j {
      assert !Overlap(trace[t][r].mems[i], trace[t][r].mems[j], x);
    } else if j < i {
      assert !Overlap(trace[t][r].mems[j], trace[t][r].mems[i], x);
    }
  }

  // ---------------------------------------------------------------------------
  // With aligned sizes the space holds exactly the live registrations

  /** Every size that is registered is a multiple of the granularity. */
  ghost predicate Grained(w: World, op: Op)
    requires w.granularity > 0
  {
    op.Register? ==> forall r :: 0 <= r < |op.reqs| ==> op.reqs[r].size % w.granularity == 0
  }

  ghost predicate Live(mems: seq<Mem>, x: int) {
    exists i :: 0 <= i < |mems| && mems[i].bigOffset <= x < mems[i].bigOffset + mems[i].lsaMaxSize
  }

  ghost predicate OnGrain(m: Mem, g: nat)
    requires g > 0
  {
    m.bigOffset % g == 0 && m.lsaMaxSize % g == 0
  }

  /** Cuts and ranges lie on the granularity, and only live ranges are full. */
  ghost predicate Exact(g: nat, s: Rank)
    requires g > 0
  {
    && Space.AlignedCuts(s.cuts, g) && (forall i :: 0 <= i < |s.mems| ==> OnGrain(s.mems[i], g))
    && forall x :: Space.Has(s.cuts, x) ==> Live(s.mems, x)
  }

  lemma {:induction false} MaxOnGrain(infos: seq<Info>, from: int, n: nat, g: nat)
    requires g > 0 && forall r :: 0 <= r < |infos| ==> infos[r].size % g == 0
    ensures MaxSize(infos, from, n) % g == 0
  {
    if n == 0 { ModSmall(0, g); } else { MaxOnGrain(infos, from, n - 1, g); }
  }

  lemma CreateExact(w: World, infos: seq<Info>, r: int, q: Request, s: Rank, s': Rank)
    requires ValidWorld(w) && |infos| == w.ranks && 0 <= r < w.ranks && infos[r].size > 0 && RankInv(s) && Exact(w.granularity, s)
    requires Obtains(w, infos, r, q, s, s') && Decided(infos, r) == Create
    requires forall p :: 0 <= p < |infos| ==> infos[p].size % w.granularity == 0
    ensures Exact(w.granularity, s')
  {
    hide Space.Canonical, Space.Has, Space.Floor, Space.Tight, Space.MarkFrom, Space.AlignedCuts, Overlap;
    OwnTeam(w, infos, r);
    MaxOnGrain(infos, TeamBase(w, r), w.lsa, w.granularity);
    var m, size := s'.mems[0], LsaMaxSize(w, infos, r);
    Space.AlignedAllocIsExact(s.cuts, w.bigSize, size, w.granularity, m.bigOffset, s'.cuts);
    Space.AllocKeepsAligned(s.cuts, w.bigSize, size, w.granularity, m.bigOffset, s'.cuts);
    forall i | 1 <= i < |s'.mems| ensures s'.mems[i] == s.mems[i - 1] { }
    forall x | Space.Has(s'.cuts, x) ensures Live(s'.mems, x) {
      if m.bigOffset <= x < m.bigOffset + size {
        assert s'.mems[0] == m;
      } else {
        assert Space.Has(s.cuts, x);
        var i :| 0 <= i < |s.mems| && s.mems[i].bigOffset <= x < s.mems[i].bigOffset + s.mems[i].lsaMaxSize;
        assert s'.mems[i + 1] == s.mems[i];
      }
    }
  }

  lemma CountExact(g: nat, s: Rank, i: nat, c: nat)
    requires g > 0 && Exact(g, s) && i < |s.mems|
    ensures Exact(g, s.(mems := s.mems[i := s.mems[i].(refCount := c)]))
  {
    hide Space.Has, Space.AlignedCuts;
    var d := s.mems[i := s.mems[i].(refCount := c)];
    forall x | Space.Has(s.cuts, x) ensures Live(d, x) {
      var j :| 0 <= j < |s.mems| && s.mems[j].bigOffset <= x < s.mems[j].bigOffset + s.mems[j].lsaMaxSize;
      assert d[j].bigOffset == s.mems[j].bigOffset;
    }
  }

  lemma DropExact(g: nat, s: Rank, s': Rank, i: nat)
    requires g > 0 && RankInv(s) && Exact(g, s) && i < |s.mems| && s.mems[i].refCount > 0 && DropsAt(i, s, s')
    ensures Exact(g, s')
  {
    hide Space.Has, Space.Canonical, Space.AlignedCuts, Overlap;
    var m := s.mems[i];
    if m.refCount > 1 {
      CountExact(g, s, i, m.refCount - 1);
    } else {
      var d := s'.mems;
      forall j | 0 <= j < |d| ensures d[j] == s.mems[if j < i then j else j + 1] { }
      assert OnGrain(m, g);
      Space.FreeKeepsAligned(s.cuts, m.bigOffset, m.lsaMaxSize, g, s'.cuts);
      forall x | Space.Has(s'.cuts, x) ensures Live(d, x) {
        assert Space.Has(s.cuts, x) && !(m.bigOffset <= x < m.bigOffset + m.lsaMaxSize);
        var j :| 0 <= j < |s.mems| && s.mems[j].bigOffset <= x < s.mems[j].bigOffset + s.mems[j].lsaMaxSize;
        assert d[if j < i then j else j - 1] == s.mems[j];
      }
    }
  }

  lemma StepExact(w: World, s: seq<Rank>, s': seq<Rank>, op: Op, r: int)
    requires Inv(w, s) && Step(w, s, s', op) && Grained(w, op) && 0 <= r < w.ranks && Exact(w.granularity, s[r])
    ensures Exact(w.granularity, s'[r])
  {
    hide RankInv, Agree, DropsAt, Exact, LsaMaxSize, Decided, Space.Allocated, Mapped;
    match op
    case Register(reqs) =>
      var infos := Infos(w, s, reqs);
      assert Obtains(w, infos, r, reqs[r], s[r], s'[r]);
      match Decided(infos, r) {
        case Fail =>
        case Reuse =>
          ReuseSame(infos, r, r);
          var i: nat :| i < |s[r].mems| && s[r].mems[i].id == infos[r].candidate.value
            && s'[r] == s[r].(mems := s[r].mems[i := s[r].mems[i].(refCount := s[r].mems[i].refCount + 1)]);
          CountExact(w.granularity, s[r], i, s[r].mems[i].refCount + 1);
        case Create =>
          CreateExact(w, infos, r, reqs[r], s[r], s'[r]);
      }
    case Deregister(id) =>
      assert Drops(id, s[r], s'[r]);
      var i: nat :| i < |s[r].mems| && s[r].mems[i].id == id && s[r].mems[i].refCount > 0 && DropsAt(i, s[r], s'[r]);
      DropExact(w.granularity, s[r], s'[r], i);
  }

  lemma {:induction false} RunExact(w: World, trace: seq<seq<Rank>>, ops: seq<Op>, t: nat, r: int)
    requires Run(w, trace, ops) && t < |trace| && 0 <= r < w.ranks && forall k :: 0 <= k < |ops| ==> Grained(w, ops[k])
    ensures |trace[t]| == w.ranks && Exact(w.granularity, trace[t][r])
  {
    hide Step;
    RunInv(w, trace, ops, t);
    if t > 0 {
      RunInv(w, trace, ops, t - 1);
      RunExact(w, trace, ops, t - 1, r);
      StepExact(w, trace[t - 1], trace[t], ops[t - 1], r);
    }
  }

  /** In every run with sizes that are multiples of the granularity, a rank's space is full at
      exactly the live registrations; so nothing leaks, and with nothing live it is empty. */
  lemma NothingLeaks(w: World, trace: seq<seq<Rank>>, ops: seq<Op>, t: nat, r: int)
    requires Run(w, trace, ops) && t < |trace| && 0 <= r < w.ranks && forall k :: 0 <= k < |ops| ==> Grained(w, ops[k])
    ensures |trace[t]| == w.ranks
    ensures forall x :: Space.Has(trace[t][r].cuts, x) <==> Live(trace[t][r].mems, x)
    ensures trace[t][r].mems == [] ==> trace[t][r].cuts == []
  {
    hide Run, Agree, Space.Has, Space.Canonical, Space.AlignedCuts;
    RunInv(w, trace, ops, t);
    RunExact(w, trace, ops, t, r);
    var s := trace[t][r];
    assert RankInv(s);
    if s.mems == [] {
      forall x ensures Space.Has(s.cuts, x) <==> Space.Has([], x) { NothingIn(x); }
      NoCuts();
      Space.CutsUnique(s.cuts, []);
    }
  }

  lemma NothingIn(x: int)
    ensures !Space.Has([], x)
  {
  }

  lemma NoCuts()
    ensures Space.Canonical([])
  {
  }
}
