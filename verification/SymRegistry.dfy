/** One rank's registry of symmetric memory (src/dev_runtime.cc): the list of registrations, the
    id counter and the allocator of the big space, updated in place. */
module SymRegistry {
  import opened Messages
  import opened Space
  import opened SymRegister

  class Registry {
    const w: World
    const rank: int
    const space: CutSpace
    var mems: seq<Mem>
    var nextRegistryId: nat

    ghost predicate Valid()
      reads this, space, space.cuts
    {
      ValidWorld(w) && 0 <= rank < w.ranks && space.Valid() && RankInv(Now())
    }

    ghost function Now(): Rank
      requires space.count <= space.cuts.Length
      reads this, space, space.cuts
    {
      SymRegister.Rank(mems, nextRegistryId, space.Cuts())
    }

    constructor (w: World, rank: int)
      requires ValidWorld(w) && 0 <= rank < w.ranks
      ensures Valid() && this.w == w && this.rank == rank && fresh(space) && fresh(space.cuts)
      ensures Now() == SymRegister.Rank([], 0, [])
    {
      this.w, this.rank := w, rank;
      space := new CutSpace();
      mems, nextRegistryId := [], 0;
    }

    /** The first registration in the list for the same memory. */
    method FindCandidate(q: Request) returns (id: Option<nat>, i: nat)
      ensures id == Candidate(mems, q) && i <= |mems| && (id.Some? <==> i < |mems|)
      ensures i < |mems| ==> mems[i].id == id.value && Matches(mems[i], q)
      ensures forall j :: 0 <= j < i ==> !Matches(mems[j], q)
    {
      i := 0;
      assert mems[0..] == mems;
      while i < |mems| && !Matches(mems[i], q)
        invariant i <= |mems| && Candidate(mems[i..], q) == Candidate(mems, q)
        invariant forall j :: 0 <= j < i ==> !Matches(mems[j], q)
      {
        assert mems[i..][1..] == mems[i + 1..];
        i := i + 1;
      }
      id := if i < |mems| then Some(mems[i].id) else None;
    }

    /** The loop over what all ranks contributed. */
    method Decide(infos: seq<Info>) returns (d: Decision)
      requires 0 <= rank < |infos|
      ensures d == Decided(infos, rank)
      ensures d == Fail <==> exists q :: 0 <= q < |infos| && (infos[q].mask != infos[rank].mask || infos[q].mode != infos[rank].mode)
      ensures d == Reuse ==> exists id :: forall q :: 0 <= q < |infos| ==> infos[q].candidate == Some(id)
      ensures d == Create ==> infos[rank].candidate.None? || exists q :: 0 <= q < |infos| && infos[q].candidate != infos[rank].candidate
    {
      var mine := infos[rank];
      var mem := mine.candidate.Some?;
      for r := 0 to |infos|
        invariant forall q :: 0 <= q < r ==> infos[q].mask == mine.mask && infos[q].mode == mine.mode
        invariant mem <==> mine.candidate.Some? && forall q :: 0 <= q < r ==> infos[q].candidate == mine.candidate
      {
        if infos[r].mask != mine.mask {
          assert Disagrees(infos, rank);
          return Fail;
        }
        if infos[r].candidate != mine.candidate { mem := false; }
        if infos[r].mode != mine.mode {
          assert Disagrees(infos, rank);
          return Fail;
        }
      }
      d := if mem then Reuse else Create;
    }

    /** The largest size in the rank's own team. */
    method TeamMax(infos: seq<Info>) returns (size: nat)
      requires ValidWorld(w) && 0 <= rank < |infos|
      ensures size == LsaMaxSize(w, infos, rank)
      ensures forall q :: 0 <= q < |infos| && SameTeam(w, rank, q) ==> infos[q].size <= size
      ensures exists q :: 0 <= q < |infos| && SameTeam(w, rank, q) && infos[q].size == size
    {
      LargestOfTeam(w, infos, rank);
      var base := w.lsa * (rank / w.lsa);
      size := 0;
      for i := 0 to w.lsa
        invariant size == MaxSize(infos, base, i)
      {
        var r := base + i;
        if 0 <= r < |infos| && infos[r].size > size { size := infos[r].size; }
      }
    }

    /** `symMemoryObtain` once the contributions of all ranks are known. */
    method Obtain(infos: seq<Info>, q: Request) returns (ok: bool)
      requires Valid() && |infos| == w.ranks && q.size > 0
      requires infos[rank] == Info(q.mask, q.mode, q.size, Candidate(mems, q))
      modifies this, space, space.cuts
      ensures Valid() && (space.cuts == old(space.cuts) || fresh(space.cuts))
      ensures ok ==> Decided(infos, rank) != Fail && Obtains(w, infos, rank, q, old(Now()), Now())
      ensures !ok ==> Decided(infos, rank) != Reuse && mems == old(mems) && space.Cuts() == old(space.Cuts())
      ensures !ok ==> nextRegistryId == old(nextRegistryId) + if Decided(infos, rank) == Create then 1 else 0
      ensures !ok && Decided(infos, rank) == Create ==>
                forall o :: !Feasible(old(space.Cuts()), w.bigSize, LsaMaxSize(w, infos, rank), w.granularity, o)
    {
      hide RankInv, LsaMaxSize, Decided, Canonical, Feasible, Allocated, Has;
      ghost var s := Now();
      var d := Decide(infos);
      ok := d != Fail;
      if d == Reuse {
        ReuseSame(infos, rank, rank);
        var id, i := FindCandidate(q);
        CountKeeps(s, i, mems[i].refCount + 1);
        mems := mems[i := mems[i].(refCount := mems[i].refCount + 1)];
      } else if d == Create {
        var id := nextRegistryId;
        nextRegistryId := nextRegistryId + 1;
        var size := TeamMax(infos);
        OwnTeam(w, infos, rank);
        var off;
        ok, off := space.TryAlloc(w.bigSize, size, w.granularity);
        if !ok {
          CounterKeeps(s);
          return;
        }
        var addr := if q.addr == 0 then w.base[rank] + off else q.addr;
        mems := [Mem(id, addr, q.size, q.flags, q.handles, size, off, 1)] + mems;
        CreateKeeps(w, infos, rank, q, s, Now());
      }
    }

    /** `symMemoryDropRef` of the registration at position `i` of the list. */
    method DropRef(i: nat)
      requires Valid() && i < |mems|
      modifies this, space, space.cuts
      ensures Valid() && (space.cuts == old(space.cuts) || fresh(space.cuts))
      ensures old(mems[i]).refCount > 0 && DropsAt(i, old(Now()), Now())
    {
      hide Canonical, Has, Released, Overlap;
      ghost var s := Now();
      var m := mems[i];
      if m.refCount > 1 {
        CountKeeps(s, i, m.refCount - 1);
        mems := mems[i := m.(refCount := m.refCount - 1)];
      } else {
        var ok := space.Free(m.bigOffset, m.lsaMaxSize);
        assert ok;
        mems := mems[..i] + mems[i + 1..];
        DropKeeps(s, Now(), i);
      }
    }
  }

  lemma CounterKeeps(s: SymRegister.Rank)
    requires RankInv(s)
    ensures RankInv(s.(nextId := s.nextId + 1))
  {
    hide Canonical, Has, Overlap;
  }
}
