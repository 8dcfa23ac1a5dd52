/** The tracker of dynamic device memory (src/mem_manager.cc): scratch and offload buffers, own
    ones and ones imported from peers, with totals per kind; and how they are suspended to the
    host and resumed.  The driver is a table of physical allocations with their contents and a
    table that maps addresses to them; its calls succeed.  A value of type int stands for the
    contents of a whole buffer. */
module MemManager {
  import opened Messages
  import opened Seqs

  datatype MemType = Persist | Scratch | Offload

  datatype HandleType = Posix | Fabric | OtherHandle

  /** An own buffer knows the peers it was exported to, an imported one its owner. */
  datatype Desc = Own(exported: seq<int>) | Imported(ownerRank: int, ownerPtr: int)

  datatype Entry = Entry(ptr: int, size: nat, handle: int, handleType: HandleType, memType: MemType, active: bool,
                         backup: Option<int>, desc: Desc)

  // ---------------------------------------------------------------------------
  // Totals

  function OwnScratch(e: Entry): nat { if e.desc.Own? && e.memType == Scratch then e.size else 0 }
  function OwnOffload(e: Entry): nat { if e.desc.Own? && e.memType == Offload then e.size else 0 }
  function ImportedScratch(e: Entry): nat { if e.desc.Imported? && e.memType == Scratch then e.size else 0 }
  function ImportedOffload(e: Entry): nat { if e.desc.Imported? && e.memType == Offload then e.size else 0 }
  function BackedUp(e: Entry): nat { if e.backup.Some? then e.size else 0 }

  datatype Totals = Totals(scratch: nat, offload: nat, scratchImported: nat, offloadImported: nat, cpuBackup: nat)

  /** What the counters must be: sums over the entries. */
  ghost function SumOf(entries: seq<Entry>): Totals {
    Totals(SumBy(entries, OwnScratch), SumBy(entries, OwnOffload), SumBy(entries, ImportedScratch),
           SumBy(entries, ImportedOffload), SumBy(entries, BackedUp))
  }

  lemma SumPush(e: Entry, s: seq<Entry>)
    ensures var t, u := SumOf([e] + s), SumOf(s);
            t == Totals(u.scratch + OwnScratch(e), u.offload + OwnOffload(e), u.scratchImported + ImportedScratch(e),
                        u.offloadImported + ImportedOffload(e), u.cpuBackup + BackedUp(e))
  {
    SumByPush(e, s, OwnScratch);
    SumByPush(e, s, OwnOffload);
    SumByPush(e, s, ImportedScratch);
    SumByPush(e, s, ImportedOffload);
    SumByPush(e, s, BackedUp);
  }

  lemma SumRemove(s: seq<Entry>, i: nat)
    requires i < |s|
    ensures var t, u, e := SumOf(s), SumOf(s[..i] + s[i + 1..]), s[i];
            t == Totals(u.scratch + OwnScratch(e), u.offload + OwnOffload(e), u.scratchImported + ImportedScratch(e),
                        u.offloadImported + ImportedOffload(e), u.cpuBackup + BackedUp(e))
  {
    SumByRemove(s, i, OwnScratch);
    SumByRemove(s, i, OwnOffload);
    SumByRemove(s, i, ImportedScratch);
    SumByRemove(s, i, ImportedOffload);
    SumByRemove(s, i, BackedUp);
  }

  /** Changing an entry without changing its size, kind or owner. */
  lemma SumUpdate(s: seq<Entry>, i: nat, e: Entry)
    requires i < |s| && e.size == s[i].size && e.memType == s[i].memType && (e.desc.Own? <==> s[i].desc.Own?)
    ensures var t, u := SumOf(s[i := e]), SumOf(s);
            && t == u.(cpuBackup := t.cpuBackup)
            && t.cpuBackup == u.cpuBackup - BackedUp(s[i]) + BackedUp(e)
  {
    SumByUpdate(s, i, e, OwnScratch);
    SumByUpdate(s, i, e, OwnOffload);
    SumByUpdate(s, i, e, ImportedScratch);
    SumByUpdate(s, i, e, ImportedOffload);
    SumByUpdate(s, i, e, BackedUp);
  }

  // ---------------------------------------------------------------------------
  // The manager

  /** An entry has a host backup exactly while it is a suspended own offload buffer. */
  ghost predicate EntryOk(e: Entry, released: bool) {
    && e.memType != Persist
    && (e.backup.Some? <==> e.desc.Own? && e.memType == Offload && !e.active)
    && (!released && e.desc.Own? ==> e.active)
  }

  ghost predicate EntriesOk(entries: seq<Entry>, released: bool) {
    forall i :: 0 <= i < |entries| ==> EntryOk(entries[i], released)
  }

  /** The first entry for `ptr`, which is `e`, has been taken out. */
  ghost predicate RemovedAt(before: seq<Entry>, after: seq<Entry>, i: nat, ptr: int, e: Entry)
    requires i < |before|
  {
    && e == before[i] && e.ptr == ptr && after == before[..i] + before[i + 1..]
    && forall j :: 0 <= j < i ==> before[j].ptr != ptr
  }

  /** The first entry for `ptr` is an own buffer that `peer` has not imported. */
  ghost predicate Markable(entries: seq<Entry>, i: nat, ptr: int, peer: int) {
    && i < |entries| && entries[i].ptr == ptr && (forall j :: 0 <= j < i ==> entries[j].ptr != ptr)
    && entries[i].desc.Own? && peer !in entries[i].desc.exported
  }

  ghost predicate MarkedAt(before: seq<Entry>, after: seq<Entry>, i: nat, ptr: int, peer: int)
    requires i < |before|
  {
    && Markable(before, i, ptr, peer)
    && after == before[i := before[i].(desc := Own(before[i].desc.exported + [peer]))]
  }

  // ---------------------------------------------------------------------------
  // Device memory

  /** A physical allocation: of which rank, and which one. */
  datatype Ref = Ref(rank: int, handle: int)

  /** Entries of one rank, its address map, its physical allocations with their contents, and a
      bound on the handles in use. */
  datatype Snap = Snap(entries: seq<Entry>, mapped: map<int, Ref>, phys: map<int, int>, nextHandle: nat)

  /** An active entry is mapped: an own one to the allocation of its handle, an imported one to
      an allocation of its owner. */
  ghost predicate MappedOk(rank: int, s: Snap, e: Entry) {
    && e.ptr in s.mapped
    && if e.desc.Own? then s.mapped[e.ptr] == Ref(rank, e.handle) && e.handle in s.phys
       else s.mapped[e.ptr].rank == e.desc.ownerRank
  }

  /** The driver agrees with the entries, and no two entries share an address or an allocation. */
  ghost predicate MemOk(rank: int, s: Snap) {
    && (forall i :: 0 <= i < |s.entries| ==>
          if s.entries[i].active then MappedOk(rank, s, s.entries[i]) else s.entries[i].ptr !in s.mapped)
    && (forall i, j :: 0 <= i < j < |s.entries| ==> s.entries[i].ptr != s.entries[j].ptr)
    && (forall i, j :: 0 <= i < j < |s.entries| && Holder(s.entries[i]) && Holder(s.entries[j]) ==>
          s.entries[i].handle != s.entries[j].handle)
    && s.nextHandle > 0 && (forall h :: h in s.phys ==> 0 < h < s.nextHandle)
  }

  /** An own buffer with physical memory. */
  ghost predicate Holder(e: Entry) { e.desc.Own? && e.active }

  ghost predicate Same(e: Entry, d: Entry) {
    e.ptr == d.ptr && e.size == d.size && e.memType == d.memType && e.handleType == d.handleType && e.desc == d.desc
  }

  /** Suspending keeps what an entry is, takes its memory, and keeps the contents of an own
      offload buffer on the host. */
  ghost predicate Suspended(s: Snap, e: Entry, d: Entry) {
    && Same(e, d) && !d.active && (e.active ==> d.handle == 0)
    && d.backup == if Holder(e) && e.memType == Offload && e.handle in s.phys then Some(s.phys[e.handle]) else e.backup
  }

  /** The two passes. */
  ghost predicate Unmapped(e: Entry, d: Entry) {
    d == if e.desc.Imported? && e.active then e.(active := false, handle := 0) else e
  }

  ghost predicate Saved(s: Snap, e: Entry, d: Entry) {
    if !Holder(e) then d == e
    else d == e.(active := false, handle := 0,
                 backup := if e.memType == Offload && e.handle in s.phys then Some(s.phys[e.handle]) else e.backup)
  }

  /** Resuming gives a suspended own buffer memory at its address, with the contents that were
      kept; it leaves all else. */
  ghost predicate Resumed(s': Snap, e: Entry, d: Entry) {
    if e.desc.Imported? || e.active then d == e
    else
      && Same(e, d) && d.active && d.handle in s'.phys
      && (e.memType == Offload && e.backup.Some? ==> s'.phys[d.handle] == e.backup.value && d.backup.None?)
      && (!(e.memType == Offload && e.backup.Some?) ==> d.backup == e.backup)
  }

  class Manager {
    const rank: int
    var entries: seq<Entry>
    var numEntries: nat
    var released: bool
    var totalPersist: nat
    var totalPersistImported: nat
    var totals: Totals
    var mapped: map<int, Ref>
    var phys: map<int, int>
    var nextHandle: nat

    ghost function Now(): Snap
      reads this
    {
      Snap(entries, mapped, phys, nextHandle)
    }

    ghost predicate Valid()
      reads this
    {
      numEntries == |entries| && totals == SumOf(entries) && EntriesOk(entries, released)
    }

    constructor (rank: int)
      ensures Valid() && MemOk(rank, Now()) && entries == [] && !released && totalPersist == totalPersistImported == 0 && this.rank == rank
    {
      this.rank := rank;
      entries, numEntries, released, totalPersist, totalPersistImported := [], 0, false, 0, 0;
      totals := Totals(0, 0, 0, 0, 0);
      mapped, phys, nextHandle := map[], map[], 1;
    }

    /** `ncclMemTrackInternal`: persistent memory is only counted; other memory is listed. */
    method Track(ptr: int, size: nat, handle: int, handleType: HandleType, memType: MemType, desc: Desc) returns (ok: bool)
      requires Valid() && (desc.Own? ==> desc.exported == [])
      modifies this`entries, this`numEntries, this`totals, this`totalPersist, this`totalPersistImported
      ensures Valid() && ok == (ptr != 0)
      ensures memType == Persist || !ok ==> entries == old(entries)
      ensures totalPersist == old(totalPersist) + (if ok && memType == Persist && desc.Own? then size else 0)
      ensures totalPersistImported == old(totalPersistImported) + (if ok && memType == Persist && desc.Imported? then size else 0)
      ensures memType != Persist && ok ==>
                entries == [Entry(ptr, size, handle, handleType, memType, true, None, desc)] + old(entries)
      ensures MemOk(rank, old(Now())) && (memType != Persist && ok ==> Unused(rank, old(Now()), entries[0])) ==> MemOk(rank, Now())
    {
      hide MemOk, SumOf, Unused;
      ok := ptr != 0;
      if !ok { return; }
      if memType == Persist {
        if desc.Imported? {
          totalPersistImported := totalPersistImported + size;
        } else {
          totalPersist := totalPersist + size;
        }
        return;
      }
      var e := Entry(ptr, size, handle, handleType, memType, true, None, desc);
      SumPush(e, entries);
      if MemOk(rank, Now()) && Unused(rank, Now(), e) { TrackKeeps(rank, Now(), e); }
      entries, numEntries := [e] + entries, numEntries + 1;
      match (desc.Imported?, memType)
      case (true, Scratch) => totals := totals.(scratchImported := totals.scratchImported + size);
      case (true, Offload) => totals := totals.(offloadImported := totals.offloadImported + size);
      case (false, Scratch) => totals := totals.(scratch := totals.scratch + size);
      case (false, Offload) => totals := totals.(offload := totals.offload + size);
    }

    /** Position of the first entry for `ptr`, or the number of entries. */
    method Find(ptr: int) returns (i: nat)
      ensures i <= |entries| && (i < |entries| ==> entries[i].ptr == ptr)
      ensures forall j :: 0 <= j < i ==> entries[j].ptr != ptr
    {
      i := 0;
      while i < |entries| && entries[i].ptr != ptr
        invariant i <= |entries| && forall j :: 0 <= j < i ==> entries[j].ptr != ptr
      {
        i := i + 1;
      }
    }

    /** `ncclMemUntrackDynamic`: the entry, if there is one, goes with its share of the totals
        and its backup; an unknown pointer is not an error. */
    method Untrack(ptr: int) returns (found: Option<Entry>)
      requires Valid()
      modifies this`entries, this`numEntries, this`totals
      ensures Valid()
      ensures found.None? ==> entries == old(entries) && forall j :: 0 <= j < |entries| ==> entries[j].ptr != ptr
      ensures found.Some? ==> exists i: nat :: i < |old(entries)| && RemovedAt(old(entries), entries, i, ptr, found.value)
      ensures MemOk(rank, old(Now())) ==> MemOk(rank, Now())
    {
      hide MemOk, SumOf, EntryOk;
      var i := Find(ptr);
      if i == |entries| { return None; }
      var e := entries[i];
      SumRemove(entries, i);
      if MemOk(rank, Now()) { UntrackKeeps(rank, Now(), i); }
      entries, numEntries := entries[..i] + entries[i + 1..], numEntries - 1;
      if e.backup.Some? { totals := totals.(cpuBackup := totals.cpuBackup - e.size); }
      if e.desc.Imported? {
        if e.memType == Scratch {
          totals := totals.(scratchImported := totals.scratchImported - e.size);
        } else if e.memType == Offload {
          totals := totals.(offloadImported := totals.offloadImported - e.size);
        }
      } else {
        if e.memType == Scratch {
          totals := totals.(scratch := totals.scratch - e.size);
        } else if e.memType == Offload {
          totals := totals.(offload := totals.offload - e.size);
        }
      }
      assert RemovedAt(old(entries), entries, i, ptr, e);
      found := Some(e);
    }

    /** `ncclDynMemMarkExportToPeer`: fails for an unknown or imported buffer and for a peer that
        is already marked. */
    method MarkExport(ptr: int, peer: int) returns (ok: bool)
      requires Valid()
      modifies this`entries
      ensures Valid()
      ensures ok <==> ptr != 0 && exists i: nat :: Markable(old(entries), i, ptr, peer)
      ensures !ok ==> entries == old(entries)
      ensures ok ==> exists i: nat :: i < |old(entries)| && MarkedAt(old(entries), entries, i, ptr, peer)
      ensures MemOk(rank, old(Now())) ==> MemOk(rank, Now())
    {
      hide MemOk;
      var i := Find(ptr);
      if ptr == 0 || i == |entries| || entries[i].desc.Imported? { return false; }
      var peers := entries[i].desc.exported;
      if peer in peers { return false; }
      var e := entries[i].(desc := Own(peers + [peer]));
      SumUpdate(entries, i, e);
      if MemOk(rank, Now()) { MarkKeeps(rank, Now(), i, e); }
      entries := entries[i := e];
      assert Markable(old(entries), i, ptr, peer) && MarkedAt(old(entries), entries, i, ptr, peer);
      ok := true;
    }

    /** Takes the memory of entry `i`: the address is unmapped and an own allocation is released. */
    method Take(i: nat)
      requires i < |entries| && MemOk(rank, Now()) && entries[i].active
      modifies this`entries, this`mapped, this`phys
      ensures MemOk(rank, Now()) && entries == old(entries)[i := old(entries)[i].(active := false, handle := 0)]
      ensures phys == if old(entries)[i].desc.Own? then old(phys) - {old(entries)[i].handle} else old(phys)
    {
      ghost var s := Now();
      var e := entries[i];
      mapped := mapped - {e.ptr};
      if e.desc.Own? || e.handle != 0 {
        if e.desc.Own? { phys := phys - {e.handle}; }
        entries := entries[i := e.(handle := 0)];
      }
      entries := entries[i := entries[i].(active := false)];
      TakeKeeps(rank, s, i, Now());
    }

    /** `ncclCommMemSuspend`: imported buffers are unmapped first, then own ones are saved if they
        must be and released. */
    method Suspend() returns (ok: bool)
      requires Valid() && MemOk(rank, Now())
      modifies this`entries, this`totals, this`released, this`mapped, this`phys
      ensures Valid() && MemOk(rank, Now()) && ok == !old(released) && released
      ensures !ok ==> Now() == old(Now())
      ensures ok ==> |entries| == |old(entries)| && forall i :: 0 <= i < |entries| ==> Suspended(old(Now()), old(entries)[i], entries[i])
      ensures ok ==> forall i :: 0 <= i < |entries| && Holder(old(entries)[i]) ==> old(entries)[i].handle !in phys
    {
      ok := !released;
      if !ok { return; }
      ghost var s0 := Now();
      UnmapImports();
      ghost var s1 := Now();
      SaveOwn(s1);
      released := true;
      SuspendDone(rank, s0, s1, Now());
    }

    method UnmapImports()
      requires Valid() && !released && MemOk(rank, Now())
      modifies this`entries, this`mapped, this`phys
      ensures Valid() && MemOk(rank, Now()) && phys == old(phys) && |entries| == |old(entries)|
      ensures forall j :: 0 <= j < |entries| ==> Unmapped(old(entries)[j], entries[j])
    {
      ghost var before := entries;
      var n := |entries|;
      for i := 0 to n
        invariant n == |entries| == |before| && Valid() && MemOk(rank, Now()) && phys == old(phys)
        invariant forall j :: 0 <= j < i ==> Unmapped(before[j], entries[j])
        invariant forall j :: i <= j < n ==> entries[j] == before[j]
      {
        if entries[i].desc.Imported? && entries[i].active {
          SumUpdate(entries, i, entries[i].(active := false, handle := 0));
          Take(i);
        }
      }
    }

    method SaveOwn(ghost s: Snap)
      requires Valid() && !released && MemOk(rank, Now()) && s == Now()
      modifies this`entries, this`totals, this`mapped, this`phys
      ensures numEntries == |entries| && totals == SumOf(entries) && EntriesOk(entries, true) && MemOk(rank, Now())
      ensures |entries| == |s.entries| && forall j :: 0 <= j < |entries| ==> Saved(s, s.entries[j], entries[j])
      ensures forall j :: 0 <= j < |entries| && Holder(s.entries[j]) ==> s.entries[j].handle !in phys
    {
      hide MemOk, SumOf, Saved;
      var n := |entries|;
      assert EntriesOk(entries, true);
      for i := 0 to n
        invariant n == |entries| == |s.entries| == numEntries && totals == SumOf(entries) && EntriesOk(entries, true) && MemOk(rank, Now())
        invariant forall j :: 0 <= j < i ==> Saved(s, s.entries[j], entries[j])
        invariant forall j :: 0 <= j < i && Holder(s.entries[j]) ==> s.entries[j].handle !in phys
        invariant forall j :: i <= j < n ==> entries[j] == s.entries[j]
        invariant forall h :: h in phys ==> h in s.phys && phys[h] == s.phys[h]
      {
        if entries[i].desc.Own? && entries[i].active {
          SaveOne(i, s);
        } else {
          NotSaved(s, s.entries[i]);
        }
      }
    }

    method SaveOne(i: nat, ghost s: Snap)
      requires i < |entries| && Holder(entries[i]) && MemOk(rank, Now())
      requires numEntries == |entries| && totals == SumOf(entries) && EntriesOk(entries, true)
      requires forall h :: h in phys ==> h in s.phys && phys[h] == s.phys[h]
      modifies this`entries, this`totals, this`mapped, this`phys
      ensures numEntries == |entries| && totals == SumOf(entries) && EntriesOk(entries, true) && MemOk(rank, Now())
      ensures |entries| == |old(entries)| && entries == old(entries)[i := entries[i]] && Saved(s, old(entries)[i], entries[i])
      ensures old(entries)[i].handle !in phys && forall h :: h in phys ==> h in old(phys) && phys[h] == old(phys)[h]
    {
      hide MemOk, SumOf;
      assert EntryOk(entries[i], true);
      InPhys(rank, Now(), i);
      if entries[i].memType == Offload { BackUp(i); }
      SumUpdate(entries, i, entries[i].(active := false, handle := 0));
      Take(i);
    }

    /** The contents at the buffer's address go to the host. */
    method BackUp(i: nat)
      requires i < |entries| && MemOk(rank, Now()) && Holder(entries[i]) && entries[i].backup.None? && totals == SumOf(entries)
      modifies this`entries, this`totals
      ensures MemOk(rank, Now()) && totals == SumOf(entries)
      ensures old(entries)[i].handle in phys && entries == old(entries)[i := old(entries)[i].(backup := Some(phys[old(entries)[i].handle]))]
    {
      ghost var s := Now();
      var e := entries[i];
      assert MappedOk(rank, s, e);
      var host := phys[mapped[e.ptr].handle];
      SumUpdate(entries, i, e.(backup := Some(host)));
      entries := entries[i := e.(backup := Some(host))];
      totals := totals.(cpuBackup := totals.cpuBackup + e.size);
      BackupKeeps(rank, s, i, entries[i].backup);
    }

    /** Gives own entry `i` a new allocation with arbitrary contents, at its old address. */
    method Give(i: nat, junk: int)
      requires i < |entries| && MemOk(rank, Now()) && entries[i].desc.Own? && !entries[i].active
      modifies this`entries, this`mapped, this`phys, this`nextHandle
      ensures MemOk(rank, Now()) && |entries| == |old(entries)|
      ensures entries == old(entries)[i := old(entries)[i].(active := true, handle := entries[i].handle)]
      ensures entries[i].handle !in old(phys) && phys == old(phys)[entries[i].handle := junk]
    {
      ghost var s := Now();
      var e := entries[i];
      var newHandle := nextHandle;
      nextHandle := newHandle + 1;
      phys := phys[newHandle := junk];
      mapped := mapped[e.ptr := Ref(rank, newHandle)];
      entries := entries[i := e.(handle := newHandle)];
      entries := entries[i := entries[i].(active := true)];
      GiveKeeps(rank, s, i, Now(), newHandle, junk);
    }

    /** The saved contents go back to the buffer's address. */
    method Restore(i: nat)
      requires i < |entries| && MemOk(rank, Now()) && Holder(entries[i]) && entries[i].backup.Some? && totals == SumOf(entries)
      modifies this`entries, this`totals, this`phys
      ensures MemOk(rank, Now()) && totals == SumOf(entries)
      ensures entries == old(entries)[i := old(entries)[i].(backup := None)]
      ensures old(entries)[i].handle in old(phys) && phys == old(phys)[old(entries)[i].handle := old(entries)[i].backup.value]
    {
      ghost var s := Now();
      var e := entries[i];
      assert MappedOk(rank, s, e);
      phys := phys[mapped[e.ptr].handle := e.backup.value];
      SumUpdate(entries, i, e.(backup := None));
      entries := entries[i := e.(backup := None)];
      totals := totals.(cpuBackup := totals.cpuBackup - e.size);
      RestoreKeeps(rank, s, i, Now());
    }

    /** The first step of `ncclCommMemResume`: own buffers get new memory at their old address,
        and saved contents come back. */
    method ResumeLocal(junk: int)
      requires Valid() && released && MemOk(rank, Now())
      modifies this`entries, this`totals, this`mapped, this`phys, this`nextHandle
      ensures numEntries == |entries| && totals == SumOf(entries) && EntriesOk(entries, false) && MemOk(rank, Now())
      ensures |entries| == |old(entries)| && forall i :: 0 <= i < |entries| ==> Resumed(Now(), old(entries)[i], entries[i])
    {
      ghost var before := entries;
      var n := |entries|;
      for i := 0 to n
        invariant n == |entries| == |before| == numEntries && totals == SumOf(entries) && EntriesOk(entries, true) && MemOk(rank, Now())
        invariant forall j :: 0 <= j < i ==> Resumed(Now(), before[j], entries[j])
        invariant forall j :: i <= j < n ==> entries[j] == before[j]
      {
        if entries[i].desc.Own? && !entries[i].active {
          ResumeOne(i, junk);
        }
      }
    }

    method ResumeOne(i: nat, junk: int)
      requires i < |entries| && entries[i].desc.Own? && !entries[i].active
      requires numEntries == |entries| && totals == SumOf(entries) && EntriesOk(entries, true) && MemOk(rank, Now())
      modifies this`entries, this`totals, this`mapped, this`phys, this`nextHandle
      ensures numEntries == |entries| && totals == SumOf(entries) && EntriesOk(entries, true) && MemOk(rank, Now())
      ensures entries == old(entries)[i := entries[i]] && |entries| == |old(entries)| && Resumed(Now(), old(entries)[i], entries[i])
      ensures forall h :: h in old(phys) ==> h in phys && phys[h] == old(phys)[h]
    {
      ghost var e := entries[i];
      assert EntryOk(e, true);
      ghost var g := entries;
      Give(i, junk);
      SumUpdate(g, i, entries[i]);
      if entries[i].memType == Offload && entries[i].backup.Some? { Restore(i); }
    }

    /** The two passes that count and then describe the own buffers with peers. */
    method BuildInfos() returns (infos: seq<Info>)
      ensures infos == InfosOf(rank, entries)
    {
      var count := 0;
      for i := 0 to |entries|
        invariant count == |InfosOf(rank, entries[..i])|
      {
        InfosStep(rank, entries, i);
        if Shared(entries[i]) { count := count + 1; }
      }
      assert entries[..|entries|] == entries;
      infos := [];
      var i := 0;
      while i < |entries| && |infos| < count
        invariant i <= |entries| && infos == InfosOf(rank, entries[..i])
      {
        InfosStep(rank, entries, i);
        if Shared(entries[i]) { infos := infos + [InfoFor(rank, entries[i])]; }
        i := i + 1;
      }
      InfosMonotone(rank, entries, i);
    }

    /** The last step of `ncclCommMemResume`: released imports are mapped again through the
        exchanged table. */
    method Reimport(infos: seq<Info>, sameHost: int -> bool)
      requires numEntries == |entries| && totals == SumOf(entries) && EntriesOk(entries, false) && MemOk(rank, Now())
      modifies this`entries, this`released, this`mapped
      ensures Valid() && MemOk(rank, Now()) && !released && entries == ReimportedAll(old(entries), infos, sameHost)
      ensures forall i :: 0 <= i < |entries| && !old(entries)[i].active && entries[i].active ==>
                entries[i].ptr in mapped && entries[i].desc.Imported? && mapped[entries[i].ptr] == Ref(entries[i].desc.ownerRank, entries[i].handle)
    {
      hide MemOk, SumOf, For, Importable;
      ghost var before := entries;
      var n := |entries|;
      for i := 0 to n
        modifies this`entries, this`mapped
        invariant n == |entries| == |before| == numEntries && totals == SumOf(entries) && EntriesOk(entries, false) && MemOk(rank, Now())
        invariant forall j :: 0 <= j < n ==>
          entries[j] == if j < i then Reimported(before[j], infos, sameHost) else before[j]
        invariant forall j :: 0 <= j < i && !before[j].active && entries[j].active ==> Import(mapped, entries[j])
      {
        var e := entries[i];
        if e.desc.Imported? && !e.active {
          var k := FindInfo(infos, e);
          if k < |infos| && Importable(infos[k], sameHost) {
            MapImport(i, infos[k]);
          }
        }
      }
      released := false;
      assert entries == ReimportedAll(before, infos, sameHost);
    }

    method MapImport(i: nat, m: Info)
      requires i < |entries| && entries[i].desc.Imported? && !entries[i].active && For(m, entries[i])
      requires totals == SumOf(entries) && EntriesOk(entries, false) && MemOk(rank, Now())
      modifies this`entries, this`mapped
      ensures totals == SumOf(entries) && EntriesOk(entries, false) && MemOk(rank, Now())
      ensures entries == old(entries)[i := old(entries)[i].(active := true, handle := m.handle)] && Import(mapped, entries[i])
      ensures mapped == old(mapped)[entries[i].ptr := mapped[entries[i].ptr]]
      ensures forall j :: 0 <= j < |entries| && j != i ==> entries[j].ptr != entries[i].ptr
    {
      ghost var s := Now();
      var e := entries[i];
      mapped := mapped[e.ptr := Ref(m.ownerRank, m.handle)];
      SumUpdate(entries, i, e.(active := true, handle := m.handle));
      entries := entries[i := e.(handle := m.handle)];
      entries := entries[i := entries[i].(active := true)];
      ImportKeeps(rank, s, i, Now(), m);
    }
  }

  ghost predicate Import(mapped: map<int, Ref>, e: Entry) {
    e.desc.Imported? && e.ptr in mapped && mapped[e.ptr] == Ref(e.desc.ownerRank, e.handle)
  }

  // ---------------------------------------------------------------------------
  // Each driver call keeps the driver and the entries in agreement

  lemma TakeKeeps(rank: int, s: Snap, i: nat, s': Snap)
    requires MemOk(rank, s) && i < |s.entries| && s.entries[i].active
    requires s'.entries == s.entries[i := s.entries[i].(active := false, handle := 0)] && s'.nextHandle == s.nextHandle
    requires s'.mapped == s.mapped - {s.entries[i].ptr}
    requires s'.phys == if s.entries[i].desc.Own? then s.phys - {s.entries[i].handle} else s.phys
    ensures MemOk(rank, s')
  {
    forall j | 0 <= j < |s'.entries|
      ensures if s'.entries[j].active then MappedOk(rank, s', s'.entries[j]) else s'.entries[j].ptr !in s'.mapped
    {
      if j != i && s.entries[j].active {
        assert MappedOk(rank, s, s.entries[j]);
        assert s.entries[j].ptr != s.entries[i].ptr;
      }
    }
  }

  /** The address and the allocation of a new entry are mapped, and no entry has them. */
  ghost predicate Unused(rank: int, s: Snap, e: Entry) {
    && e.active && MappedOk(rank, s, e)
    && forall i :: 0 <= i < |s.entries| ==> s.entries[i].ptr != e.ptr && (Holder(s.entries[i]) && Holder(e) ==> s.entries[i].handle != e.handle)
  }

  lemma TrackKeeps(rank: int, s: Snap, e: Entry)
    requires MemOk(rank, s) && Unused(rank, s, e)
    ensures MemOk(rank, s.(entries := [e] + s.entries))
  {
    var s' := s.(entries := [e] + s.entries);
    forall j | 0 <= j < |s'.entries|
      ensures if s'.entries[j].active then MappedOk(rank, s', s'.entries[j]) else s'.entries[j].ptr !in s'.mapped
    {
      if j > 0 && s'.entries[j].active { assert MappedOk(rank, s, s.entries[j - 1]); }
    }
  }

  lemma UntrackKeeps(rank: int, s: Snap, i: nat)
    requires MemOk(rank, s) && i < |s.entries|
    ensures MemOk(rank, s.(entries := s.entries[..i] + s.entries[i + 1..]))
  {
    var s' := s.(entries := s.entries[..i] + s.entries[i + 1..]);
    forall j | 0 <= j < |s'.entries|
      ensures s'.entries[j] == s.entries[if j < i then j else j + 1]
      ensures if s'.entries[j].active then MappedOk(rank, s', s'.entries[j]) else s'.entries[j].ptr !in s'.mapped
    {
      var k := if j < i then j else j + 1;
      if s.entries[k].active { assert MappedOk(rank, s, s.entries[k]); }
    }
  }

  lemma MarkKeeps(rank: int, s: Snap, i: nat, e: Entry)
    requires MemOk(rank, s) && i < |s.entries| && s.entries[i].desc.Own? && e == s.entries[i].(desc := e.desc) && e.desc.Own?
    ensures MemOk(rank, s.(entries := s.entries[i := e]))
  {
    var s' := s.(entries := s.entries[i := e]);
    forall j | 0 <= j < |s'.entries|
      ensures if s'.entries[j].active then MappedOk(rank, s', s'.entries[j]) else s'.entries[j].ptr !in s'.mapped
    {
      if s.entries[j].active { assert MappedOk(rank, s, s.entries[j]); }
    }
  }

  lemma BackupKeeps(rank: int, s: Snap, i: nat, backup: Option<int>)
    requires MemOk(rank, s) && i < |s.entries|
    ensures MemOk(rank, s.(entries := s.entries[i := s.entries[i].(backup := backup)]))
  {
    var s' := s.(entries := s.entries[i := s.entries[i].(backup := backup)]);
    forall j | 0 <= j < |s'.entries|
      ensures if s'.entries[j].active then MappedOk(rank, s', s'.entries[j]) else s'.entries[j].ptr !in s'.mapped
    {
      if s.entries[j].active { assert MappedOk(rank, s, s.entries[j]); }
    }
  }

  lemma GiveKeeps(rank: int, s: Snap, i: nat, s': Snap, h: nat, junk: int)
    requires MemOk(rank, s) && i < |s.entries| && s.entries[i].desc.Own? && !s.entries[i].active && h == s.nextHandle
    requires s' == Snap(s.entries[i := s.entries[i].(active := true, handle := h)], s.mapped[s.entries[i].ptr := Ref(rank, h)],
                        s.phys[h := junk], h + 1)
    ensures MemOk(rank, s')
  {
    forall j | 0 <= j < |s'.entries|
      ensures if s'.entries[j].active then MappedOk(rank, s', s'.entries[j]) else s'.entries[j].ptr !in s'.mapped
    {
      if j != i {
        assert s.entries[j].ptr != s.entries[i].ptr;
        if s.entries[j].active { assert MappedOk(rank, s, s.entries[j]); }
      }
    }
    forall j, k | 0 <= j < k < |s'.entries| && Holder(s'.entries[j]) && Holder(s'.entries[k])
      ensures s'.entries[j].handle != s'.entries[k].handle
    {
      if j != i { assert MappedOk(rank, s, s.entries[j]); }
      if k != i { assert MappedOk(rank, s, s.entries[k]); }
    }
  }

  lemma RestoreKeeps(rank: int, s: Snap, i: nat, s': Snap)
    requires MemOk(rank, s) && i < |s.entries| && Holder(s.entries[i]) && s.entries[i].backup.Some?
    requires s.entries[i].handle in s.phys
    requires s' == s.(entries := s.entries[i := s.entries[i].(backup := None)],
                      phys := s.phys[s.entries[i].handle := s.entries[i].backup.value])
    ensures MemOk(rank, s')
  {
    forall j | 0 <= j < |s'.entries|
      ensures if s'.entries[j].active then MappedOk(rank, s', s'.entries[j]) else s'.entries[j].ptr !in s'.mapped
    {
      if s.entries[j].active { assert MappedOk(rank, s, s.entries[j]); }
    }
  }

  lemma ImportKeeps(rank: int, s: Snap, i: nat, s': Snap, m: Info)
    requires MemOk(rank, s) && i < |s.entries| && s.entries[i].desc.Imported? && !s.entries[i].active && For(m, s.entries[i])
    requires s' == s.(entries := s.entries[i := s.entries[i].(active := true, handle := m.handle)],
                      mapped := s.mapped[s.entries[i].ptr := Ref(m.ownerRank, m.handle)])
    ensures MemOk(rank, s')
  {
    forall j | 0 <= j < |s'.entries|
      ensures if s'.entries[j].active then MappedOk(rank, s', s'.entries[j]) else s'.entries[j].ptr !in s'.mapped
    {
      if j != i {
        assert s.entries[j].ptr != s.entries[i].ptr;
        if s.entries[j].active { assert MappedOk(rank, s, s.entries[j]); }
      }
    }
  }

  lemma InPhys(rank: int, s: Snap, i: nat)
    requires MemOk(rank, s) && i < |s.entries| && Holder(s.entries[i])
    ensures s.entries[i].handle in s.phys
  {
    assert MappedOk(rank, s, s.entries[i]);
  }

  lemma NotSaved(s: Snap, e: Entry)
    requires !Holder(e)
    ensures Saved(s, e, e)
  {
  }

  lemma SuspendDone(rank: int, s0: Snap, s1: Snap, s2: Snap)
    requires MemOk(rank, s0) && EntriesOk(s0.entries, false)
    requires |s0.entries| == |s1.entries| == |s2.entries| && s1.phys == s0.phys
    requires forall j :: 0 <= j < |s0.entries| ==> Unmapped(s0.entries[j], s1.entries[j]) && Saved(s1, s1.entries[j], s2.entries[j])
    ensures forall j :: 0 <= j < |s0.entries| ==> Suspended(s0, s0.entries[j], s2.entries[j])
    ensures forall j :: 0 <= j < |s0.entries| && Holder(s0.entries[j]) ==> s1.entries[j] == s0.entries[j]
  {
    forall j | 0 <= j < |s0.entries| ensures Suspended(s0, s0.entries[j], s2.entries[j]) {
      assert EntryOk(s0.entries[j], false);
      assert Unmapped(s0.entries[j], s1.entries[j]) && Saved(s1, s1.entries[j], s2.entries[j]);
    }
  }

  // ---------------------------------------------------------------------------
  // Exchange of handles

  datatype Info = Info(ptr: int, ownerRank: int, size: nat, handleType: HandleType, handle: int)

  /** An own active buffer that some peer has imported. */
  predicate Shared(e: Entry) { e.desc.Own? && e.desc.exported != [] && e.active }

  function InfoFor(rank: int, e: Entry): Info { Info(e.ptr, rank, e.size, e.handleType, e.handle) }

  ghost function InfosOf(rank: int, entries: seq<Entry>): seq<Info> {
    if entries == [] then []
    else InfosOf(rank, entries[..|entries| - 1]) +
         if Shared(entries[|entries| - 1]) then [InfoFor(rank, entries[|entries| - 1])] else []
  }

  lemma InfosStep(rank: int, entries: seq<Entry>, i: nat)
    requires i < |entries|
    ensures InfosOf(rank, entries[..i + 1]) ==
            InfosOf(rank, entries[..i]) + if Shared(entries[i]) then [InfoFor(rank, entries[i])] else []
  {
    assert entries[..i + 1][..i] == entries[..i];
  }

  /** Once as many have been found as there are, the rest has none. */
  lemma {:induction false} InfosMonotone(rank: int, entries: seq<Entry>, i: nat)
    requires i <= |entries|
    ensures InfosOf(rank, entries[..i]) <= InfosOf(rank, entries)
    decreases |entries| - i
  {
    if i == |entries| {
      assert entries[..i] == entries;
    } else {
      InfosStep(rank, entries, i);
      InfosMonotone(rank, entries, i + 1);
    }
  }

  lemma {:induction false} InfoOfEntry(rank: int, entries: seq<Entry>, j: nat)
    requires j < |entries| && Shared(entries[j])
    ensures InfoFor(rank, entries[j]) in InfosOf(rank, entries)
  {
    if j < |entries| - 1 {
      InfoOfEntry(rank, entries[..|entries| - 1], j);
    }
  }

  lemma {:induction false} EntryOfInfo(rank: int, entries: seq<Entry>, m: Info) returns (j: nat)
    requires m in InfosOf(rank, entries)
    ensures j < |entries| && Shared(entries[j]) && m == InfoFor(rank, entries[j])
  {
    var front := entries[..|entries| - 1];
    if m in InfosOf(rank, front) {
      j := EntryOfInfo(rank, front, m);
    } else {
      j := |entries| - 1;
    }
  }

  predicate For(m: Info, e: Entry) {
    e.desc.Imported? && m.ownerRank == e.desc.ownerRank && m.ptr == e.desc.ownerPtr && m.size == e.size
  }

  /** The first info for an import, or the number of infos. */
  method FindInfo(infos: seq<Info>, e: Entry) returns (k: nat)
    ensures k <= |infos| && (k < |infos| ==> For(infos[k], e)) && forall j :: 0 <= j < k ==> !For(infos[j], e)
  {
    k := 0;
    while k < |infos| && !For(infos[k], e)
      invariant k <= |infos| && forall j :: 0 <= j < k ==> !For(infos[j], e)
    {
      k := k + 1;
    }
  }

  ghost function FirstFor(infos: seq<Info>, e: Entry): (k: nat)
    ensures k <= |infos| && (k < |infos| ==> For(infos[k], e)) && forall j :: 0 <= j < k ==> !For(infos[j], e)
  {
    if infos == [] then 0
    else
      var k := FirstFor(infos[..|infos| - 1], e);
      if k < |infos| - 1 then k else if For(infos[|infos| - 1], e) then |infos| - 1 else |infos|
  }

  /** File descriptors only work between ranks of one host; fabric handles work everywhere. */
  predicate Importable(m: Info, sameHost: int -> bool) {
    m.handleType == Fabric || (m.handleType == Posix && sameHost(m.ownerRank))
  }

  ghost function Reimported(e: Entry, infos: seq<Info>, sameHost: int -> bool): Entry {
    var k := FirstFor(infos, e);
    if e.desc.Imported? && !e.active && k < |infos| && Importable(infos[k], sameHost)
      then e.(active := true, handle := infos[k].handle) else e
  }

  ghost function ReimportedAll(entries: seq<Entry>, infos: seq<Info>, sameHost: int -> bool): (s: seq<Entry>)
    ensures |s| == |entries| && forall i :: 0 <= i < |s| ==> s[i] == Reimported(entries[i], infos, sameHost)
  {
    seq(|entries|, i requires 0 <= i < |entries| => Reimported(entries[i], infos, sameHost))
  }

  ghost function Concat(parts: seq<seq<Info>>): seq<Info> {
    if parts == [] then [] else Concat(parts[..|parts| - 1]) + parts[|parts| - 1]
  }

  lemma {:induction false} InConcat(parts: seq<seq<Info>>, m: Info)
    ensures m in Concat(parts) <==> exists r :: 0 <= r < |parts| && m in parts[r]
  {
    if parts != [] {
      var front := parts[..|parts| - 1];
      InConcat(front, m);
      if r :| 0 <= r < |parts| && m in parts[r] {
        if r < |parts| - 1 { assert m in front[r]; }
      }
      if m in Concat(front) {
        var r :| 0 <= r < |front| && m in front[r];
        assert m in parts[r];
      }
    }
  }

  lemma ConcatStep(parts: seq<seq<Info>>, r: nat)
    requires r < |parts|
    ensures Concat(parts[..r + 1]) == Concat(parts[..r]) + parts[r]
  {
    assert parts[..r + 1][..r] == parts[..r];
  }

  /** The table that every rank assembles: the gathered counts give each rank's offset, and the
      messages are received at those offsets. */
  method AssembleInfos(parts: seq<seq<Info>>) returns (all: array<Info>)
    ensures all[..] == Concat(parts)
  {
    var offsets, total := new nat[|parts|], 0;
    for r := 0 to |parts|
      invariant total == |Concat(parts[..r])|
      invariant forall q :: 0 <= q < r ==> offsets[q] == |Concat(parts[..q])|
    {
      ConcatStep(parts, r);
      offsets[r] := total;
      total := total + |parts[r]|;
    }
    assert parts[..|parts|] == parts;
    all := new Info[total];
    for r := 0 to |parts|
      invariant forall q :: 0 <= q < |parts| ==> offsets[q] == |Concat(parts[..q])|
      invariant |Concat(parts[..r])| <= all.Length && all[..|Concat(parts[..r])|] == Concat(parts[..r])
    {
      ConcatStep(parts, r);
      ConcatPrefix(parts, r + 1);
      Receive(all, offsets[r], parts[r]);
    }
  }

  lemma {:induction false} ConcatPrefix(parts: seq<seq<Info>>, r: nat)
    requires r <= |parts|
    ensures Concat(parts[..r]) <= Concat(parts)
    decreases |parts| - r
  {
    if r == |parts| {
      assert parts[..r] == parts;
    } else {
      ConcatStep(parts, r);
      ConcatPrefix(parts, r + 1);
    }
  }

  method Receive(all: array<Info>, offset: nat, part: seq<Info>)
    requires offset + |part| <= all.Length
    modifies all
    ensures all[..offset] == old(all[..offset]) && all[offset..offset + |part|] == part
    ensures all[..offset + |part|] == old(all[..offset]) + part
  {
    for i := 0 to |part|
      invariant forall j :: 0 <= j < i ==> all[offset + j] == part[j]
      invariant forall j :: 0 <= j < offset ==> all[j] == old(all[j])
    {
      all[offset + i] := part[i];
    }
    assert all[..offset + |part|] == all[..offset] + all[offset..offset + |part|];
  }

  // ---------------------------------------------------------------------------
  // All ranks together

  /** What all ranks together do: each suspends and resumes its own buffers, the infos are
      exchanged, and each maps its imports again.  These are the contracts of `Suspend`,
      `ResumeLocal`, `BuildInfos`, `AssembleInfos` and `Reimport`. */
  ghost predicate Cycle(before: seq<Snap>, mid: seq<Snap>, res: seq<Snap>, fin: seq<Snap>, parts: seq<seq<Info>>, near: (int, int) -> bool) {
    && |before| == |mid| == |res| == |fin| == |parts|
    && forall r :: 0 <= r < |before| ==> RankCycle(r, before[r], mid[r], res[r], fin[r], parts, near)
  }

  ghost predicate RankCycle(r: int, b: Snap, m: Snap, s: Snap, f: Snap, parts: seq<seq<Info>>, near: (int, int) -> bool)
    requires 0 <= r < |parts|
  {
    && EntriesOk(b.entries, false) && MemOk(r, b) && MemOk(r, s) && MemOk(r, f)
    && |b.entries| == |m.entries| == |s.entries| == |f.entries|
    && (forall i :: 0 <= i < |b.entries| ==> Suspended(b, b.entries[i], m.entries[i]) && Resumed(s, m.entries[i], s.entries[i]))
    && parts[r] == InfosOf(r, s.entries) && f.phys == s.phys
    && f.entries == ReimportedAll(s.entries, Concat(parts), q => near(r, q))
    && forall i :: 0 <= i < |s.entries| && !s.entries[i].active && f.entries[i].active ==> Import(f.mapped, f.entries[i])
  }

  /** What the rank reads at an address. */
  ghost function Read(ranks: seq<Snap>, r: int, ptr: int): Option<int>
    requires 0 <= r < |ranks|
  {
    if ptr !in ranks[r].mapped then None else
    var a := ranks[r].mapped[ptr];
    if 0 <= a.rank < |ranks| && a.handle in ranks[a.rank].phys then Some(ranks[a.rank].phys[a.handle]) else None
  }

  /** Every own buffer is active again, with memory at its old address, and an offload buffer
      reads as it did before. */
  lemma OwnBack(before: seq<Snap>, mid: seq<Snap>, res: seq<Snap>, fin: seq<Snap>, parts: seq<seq<Info>>, near: (int, int) -> bool, r: int, i: int)
    requires Cycle(before, mid, res, fin, parts, near) && 0 <= r < |before| && 0 <= i < |before[r].entries| == |fin[r].entries|
    requires before[r].entries[i].desc.Own?
    ensures var e, d := before[r].entries[i], fin[r].entries[i];
            && Same(e, d) && d.active && d.backup.None? && fin[r].entries[i] == res[r].entries[i]
            && Read(fin, r, e.ptr).Some? && (e.memType == Offload ==> Read(fin, r, e.ptr) == Read(before, r, e.ptr))
  {
    var b, m, s, f := before[r], mid[r], res[r], fin[r];
    assert RankCycle(r, b, m, s, f, parts, near);
    assert EntryOk(b.entries[i], false);
    assert MappedOk(r, b, b.entries[i]);
    assert Suspended(b, b.entries[i], m.entries[i]) && Resumed(s, m.entries[i], s.entries[i]);
    assert MappedOk(r, f, f.entries[i]);
  }

  /** The counters are what they were, and no host memory stays in use. */
  lemma CountersBack(before: seq<Snap>, mid: seq<Snap>, res: seq<Snap>, fin: seq<Snap>, parts: seq<seq<Info>>, near: (int, int) -> bool, r: int)
    requires Cycle(before, mid, res, fin, parts, near) && 0 <= r < |before|
    ensures SumOf(fin[r].entries) == SumOf(before[r].entries) && SumOf(fin[r].entries).cpuBackup == 0
  {
    var b, m, s, f := before[r], mid[r], res[r], fin[r];
    assert RankCycle(r, b, m, s, f, parts, near);
    forall i | 0 <= i < |b.entries| ensures SameCounts(f.entries[i], b.entries[i]) {
      assert EntryOk(b.entries[i], false);
      assert Suspended(b, b.entries[i], m.entries[i]) && Resumed(s, m.entries[i], s.entries[i]);
      if b.entries[i].desc.Own? { OwnBack(before, mid, res, fin, parts, near, r, i); }
    }
    SameSums(f.entries, b.entries);
    NoBackups(b.entries);
  }

  ghost predicate SameCounts(e: Entry, d: Entry) {
    e.size == d.size && e.memType == d.memType && (e.desc.Own? <==> d.desc.Own?) && e.backup.None? && d.backup.None?
  }

  lemma {:induction false} SameSums(s: seq<Entry>, t: seq<Entry>)
    requires |s| == |t| && forall i :: 0 <= i < |s| ==> SameCounts(s[i], t[i])
    ensures SumOf(s) == SumOf(t)
  {
    if s != [] {
      SameSums(s[..|s| - 1], t[..|t| - 1]);
      assert SameCounts(s[|s| - 1], t[|t| - 1]);
    }
  }

  lemma {:induction false} NoBackups(s: seq<Entry>)
    requires forall i :: 0 <= i < |s| ==> s[i].backup.None?
    ensures SumOf(s).cpuBackup == 0
  {
    if s != [] { NoBackups(s[..|s| - 1]); }
  }

  /** Entry `j` of the owner is the exported buffer that an import stands for. */
  ghost predicate Exports(owner: seq<Entry>, j: nat, e: Entry) {
    && j < |owner| && e.desc.Imported? && owner[j].desc.Own? && owner[j].desc.exported != []
    && owner[j].ptr == e.desc.ownerPtr && owner[j].size == e.size
  }

  /** After every rank has resumed its own buffers, an import finds a handle in the exchanged
      table iff its owner lists the buffer as exported, and it is the handle of that buffer. */
  lemma ImportFound(res: seq<Snap>, parts: seq<seq<Info>>, e: Entry, j: nat)
    requires |parts| == |res| && forall r :: 0 <= r < |res| ==> parts[r] == InfosOf(r, res[r].entries) && MemOk(r, res[r])
    requires e.desc.Imported? && 0 <= e.desc.ownerRank < |res|
    ensures var a, k := e.desc.ownerRank, FirstFor(Concat(parts), e);
            && (k < |Concat(parts)| ==> exists i: nat :: Exports(res[a].entries, i, e))
            && (Exports(res[a].entries, j, e) && res[a].entries[j].active ==>
                  k < |Concat(parts)| && Concat(parts)[k] == InfoFor(a, res[a].entries[j]))
  {
    var a, all := e.desc.ownerRank, Concat(parts);
    var k := FirstFor(all, e);
    if Exports(res[a].entries, j, e) && res[a].entries[j].active {
      InfoOfEntry(a, res[a].entries, j);
      InConcat(parts, InfoFor(a, res[a].entries[j]));
      var l :| 0 <= l < |all| && all[l] == InfoFor(a, res[a].entries[j]);
      assert For(all[l], e);
    }
    if k < |all| {
      InConcat(parts, all[k]);
      var r :| 0 <= r < |parts| && all[k] in parts[r];
      var i := EntryOfInfo(r, res[r].entries, all[k]);
      assert r == a && Exports(res[a].entries, i, e);
      if Exports(res[a].entries, j, e) { assert i == j; }
    }
  }

  /** An import that was active is active again iff its owner lists the buffer as exported with a
      handle that works here.  It is then mapped to the owner's resumed buffer, and if it was
      mapped to that buffer before and it is an offload buffer, it reads as it did before. */
  lemma ImportBack(before: seq<Snap>, mid: seq<Snap>, res: seq<Snap>, fin: seq<Snap>, parts: seq<seq<Info>>, near: (int, int) -> bool,
                   r: int, i: int, j: nat)
    requires Cycle(before, mid, res, fin, parts, near) && 0 <= r < |before| && 0 <= i < |before[r].entries| == |fin[r].entries|
    requires before[r].entries[i].active && before[r].entries[i].desc.Imported? && 0 <= before[r].entries[i].desc.ownerRank < |before|
    ensures var e, d := before[r].entries[i], fin[r].entries[i]; var a := e.desc.ownerRank;
            && Same(e, d) && (d.active ==> exists k: nat :: Exports(before[a].entries, k, e))
            && (Exports(before[a].entries, j, e) ==>
                  && (d.active <==> Works(before[a].entries[j], near(r, a)))
                  && (d.active ==> ReadsOwner(before, fin, r, e, a, j)))
  {
    hide MemOk, Works, RankCycle, Read;
    var e, a := before[r].entries[i], before[r].entries[i].desc.ownerRank;
    var s := ImportKept(before, mid, res, fin, parts, near, r, i, j);
    if k: nat :| Exports(res[a].entries, k, s) { OwnerSame(before, mid, res, fin, parts, near, a, e, s, k); }
    OwnerSame(before, mid, res, fin, parts, near, a, e, s, j);
    if Exports(before[a].entries, j, e) && fin[r].entries[i].active {
      ImportReads(before, mid, res, fin, parts, near, r, fin[r].entries[i], a, j);
    }
  }

  /** The import is mapped to the owner's buffer, whose contents it reads. */
  ghost predicate ReadsOwner(before: seq<Snap>, fin: seq<Snap>, r: int, e: Entry, a: int, j: nat)
    requires 0 <= r < |before| == |fin| && 0 <= a < |before| && j < |before[a].entries|
  {
    && j < |fin[a].entries| && e.ptr in fin[r].mapped && fin[r].mapped[e.ptr] == Ref(a, fin[a].entries[j].handle)
    && (before[a].entries[j].memType == Offload && e.ptr in before[r].mapped && before[r].mapped[e.ptr] == Ref(a, before[a].entries[j].handle) ==>
          Read(fin, r, e.ptr) == Read(before, r, e.ptr))
  }

  /** A suspended import is looked up in the exchanged table. */
  lemma ImportKept(before: seq<Snap>, mid: seq<Snap>, res: seq<Snap>, fin: seq<Snap>, parts: seq<seq<Info>>, near: (int, int) -> bool,
                   r: int, i: int, j: nat) returns (s: Entry)
    requires Cycle(before, mid, res, fin, parts, near) && 0 <= r < |before| && 0 <= i < |before[r].entries| == |fin[r].entries|
    requires before[r].entries[i].active && before[r].entries[i].desc.Imported? && 0 <= before[r].entries[i].desc.ownerRank < |before|
    ensures var e, d := before[r].entries[i], fin[r].entries[i]; var owner := res[e.desc.ownerRank].entries;
            && Same(e, s) && Same(e, d) && (d.active ==> exists k: nat :: Exports(owner, k, s))
            && (Exports(owner, j, s) && owner[j].active ==>
                  && (d.active <==> Works(owner[j], near(r, e.desc.ownerRank)))
                  && (d.active ==> d.handle == owner[j].handle && Import(fin[r].mapped, d)))
  {
    var e, a := before[r].entries[i], before[r].entries[i].desc.ownerRank;
    assert RankCycle(r, before[r], mid[r], res[r], fin[r], parts, near);
    assert Suspended(before[r], e, mid[r].entries[i]) && Resumed(res[r], mid[r].entries[i], res[r].entries[i]);
    hide MemOk;
    forall q | 0 <= q < |res| ensures parts[q] == InfosOf(q, res[q].entries) && MemOk(q, res[q]) {
      assert RankCycle(q, before[q], mid[q], res[q], fin[q], parts, near);
    }
    hide RankCycle, Suspended, Resumed, InfosOf;
    s := res[r].entries[i];
    ImportFound(res, parts, s, j);
  }

  lemma OwnerSame(before: seq<Snap>, mid: seq<Snap>, res: seq<Snap>, fin: seq<Snap>, parts: seq<seq<Info>>, near: (int, int) -> bool,
                  a: int, e: Entry, s: Entry, j: nat)
    requires Cycle(before, mid, res, fin, parts, near) && 0 <= a < |before| && Same(e, s)
    ensures Exports(before[a].entries, j, e) <==> Exports(res[a].entries, j, s)
    ensures Exports(res[a].entries, j, s) ==> res[a].entries[j].active && forall near: bool ::
              Works(res[a].entries[j], near) <==> Works(before[a].entries[j], near)
  {
    var b, m, s' := before[a], mid[a], res[a];
    assert RankCycle(a, b, m, s', fin[a], parts, near);
    hide MemOk;
    if j < |b.entries| {
      assert Suspended(b, b.entries[j], m.entries[j]) && Resumed(s', m.entries[j], s'.entries[j]);
    }
  }

  lemma ImportReads(before: seq<Snap>, mid: seq<Snap>, res: seq<Snap>, fin: seq<Snap>, parts: seq<seq<Info>>, near: (int, int) -> bool,
                    r: int, d: Entry, a: int, j: nat)
    requires Cycle(before, mid, res, fin, parts, near) && 0 <= r < |before| && 0 <= a < |before|
    requires j < |before[a].entries| && before[a].entries[j].desc.Own? && j < |res[a].entries|
    requires Import(fin[r].mapped, d) && d.desc.ownerRank == a && d.handle == res[a].entries[j].handle
    ensures ReadsOwner(before, fin, r, d, a, j)
  {
    var b, m, s, f := before[a], mid[a], res[a], fin[a];
    assert RankCycle(a, b, m, s, f, parts, near);
    OwnBack(before, mid, res, fin, parts, near, a, j);
    assert EntryOk(b.entries[j], false);
    assert MappedOk(a, b, b.entries[j]) && MappedOk(a, f, f.entries[j]);
  }

  /** File descriptors work on one host only. */
  ghost predicate Works(e: Entry, near: bool) { e.handleType == Fabric || (e.handleType == Posix && near) }

  // ---------------------------------------------------------------------------
  // The cycle, run

  ghost predicate Idle(m: Manager, r: int)
    reads m
  {
    m.Valid() && m.rank == r && MemOk(r, m.Now()) && !m.released
  }

  ghost predicate Asleep(m: Manager, r: int, b: Snap)
    reads m
  {
    && m.Valid() && m.rank == r && MemOk(r, m.Now()) && m.released && |b.entries| == |m.entries|
    && forall i :: 0 <= i < |b.entries| ==> Suspended(b, b.entries[i], m.entries[i])
  }

  ghost predicate HalfAwake(m: Manager, r: int, s: Snap)
    reads m
  {
    && m.numEntries == |m.entries| && m.totals == SumOf(m.entries) && EntriesOk(m.entries, false)
    && m.rank == r && MemOk(r, m.Now()) && |s.entries| == |m.entries|
    && forall i :: 0 <= i < |s.entries| ==> Resumed(m.Now(), s.entries[i], m.entries[i])
  }

  ghost predicate Awake(m: Manager, r: int, s: Snap, infos: seq<Info>, near: (int, int) -> bool)
    reads m
  {
    && Idle(m, r) && m.phys == s.phys && m.entries == ReimportedAll(s.entries, infos, q => near(r, q))
    && forall i :: 0 <= i < |s.entries| && !s.entries[i].active && m.entries[i].active ==> Import(m.mapped, m.entries[i])
  }

  /** All ranks suspend, then all resume: after the barriers the steps of different ranks are
      those of one rank after the other. */
  method SuspendAll(ms: seq<Manager>, ghost before: seq<Snap>)
    requires Distinct(ms) && |before| == |ms| && forall r :: 0 <= r < |ms| ==> Idle(ms[r], r) && before[r] == ms[r].Now()
    modifies set m | m in ms
    ensures forall r :: 0 <= r < |ms| ==> Asleep(ms[r], r, before[r])
  {
    hide MemOk, Suspended, SumOf;
    for i := 0 to |ms|
      invariant forall r :: 0 <= r < i ==> Asleep(ms[r], r, before[r])
      invariant forall r :: i <= r < |ms| ==> Idle(ms[r], r) && before[r] == ms[r].Now()
    {
      var _ := ms[i].Suspend();
    }
  }

  method ResumeOwn(ms: seq<Manager>, ghost before: seq<Snap>, ghost mid: seq<Snap>, junk: int) returns (parts: seq<seq<Info>>)
    requires Distinct(ms) && |before| == |mid| == |ms|
    requires forall r :: 0 <= r < |ms| ==> Asleep(ms[r], r, before[r]) && mid[r] == ms[r].Now()
    modifies set m | m in ms
    ensures |parts| == |ms|
    ensures forall r :: 0 <= r < |ms| ==> HalfAwake(ms[r], r, mid[r]) && parts[r] == InfosOf(r, ms[r].entries)
  {
    hide MemOk, Suspended, Resumed, SumOf, InfosOf;
    parts := [];
    for i := 0 to |ms|
      invariant |parts| == i
      invariant forall r :: 0 <= r < i ==> HalfAwake(ms[r], r, mid[r]) && parts[r] == InfosOf(r, ms[r].entries)
      invariant forall r :: i <= r < |ms| ==> Asleep(ms[r], r, before[r]) && mid[r] == ms[r].Now()
    {
      ms[i].ResumeLocal(junk);
      var infos := ms[i].BuildInfos();
      parts := parts + [infos];
    }
  }

  method ReimportAll(ms: seq<Manager>, ghost mid: seq<Snap>, ghost res: seq<Snap>, infos: seq<Info>, near: (int, int) -> bool)
    requires Distinct(ms) && |mid| == |res| == |ms|
    requires forall r :: 0 <= r < |ms| ==> HalfAwake(ms[r], r, mid[r]) && res[r] == ms[r].Now()
    modifies set m | m in ms
    ensures forall r :: 0 <= r < |ms| ==> Awake(ms[r], r, res[r], infos, near)
  {
    hide MemOk, Resumed, SumOf, ReimportedAll;
    for i := 0 to |ms|
      invariant forall r :: 0 <= r < i ==> Awake(ms[r], r, res[r], infos, near)
      invariant forall r :: i <= r < |ms| ==> HalfAwake(ms[r], r, mid[r]) && res[r] == ms[r].Now()
    {
      ms[i].Reimport(infos, q => near(i, q));
    }
  }

  ghost function Snaps(ms: seq<Manager>): (s: seq<Snap>)
    reads set m | m in ms
    ensures |s| == |ms| && forall r :: 0 <= r < |ms| ==> s[r] == ms[r].Now()
  {
    seq(|ms|, r requires 0 <= r < |ms| reads ms => ms[r].Now())
  }

  /** A whole job suspends and resumes; what has become of every buffer then is stated by
      `OwnBack`, `ImportBack` and `CountersBack`. */
  method SuspendAndResume(ms: seq<Manager>, junk: int, near: (int, int) -> bool)
    returns (ghost mid: seq<Snap>, ghost res: seq<Snap>, ghost parts: seq<seq<Info>>)
    requires Distinct(ms) && forall r :: 0 <= r < |ms| ==> Idle(ms[r], r)
    modifies set m | m in ms
    ensures Cycle(old(Snaps(ms)), mid, res, Snaps(ms), parts, near)
    ensures forall r :: 0 <= r < |ms| ==> Idle(ms[r], r)
  {
    hide MemOk, Suspended, Resumed, SumOf, InfosOf, ReimportedAll, Concat;
    ghost var before := Snaps(ms);
    SuspendAll(ms, before);
    mid := Snaps(ms);
    assert forall r :: 0 <= r < |ms| ==> SleptOk(r, before[r], mid[r]);
    var each := ResumeOwn(ms, before, mid, junk);
    res, parts := Snaps(ms), each;
    assert forall r :: 0 <= r < |ms| ==> WokeOk(r, mid[r], res[r], parts[r]);
    var all := AssembleInfos(each);
    ReimportAll(ms, mid, res, all[..], near);
    forall r | 0 <= r < |ms| ensures RankCycle(r, before[r], mid[r], res[r], Snaps(ms)[r], parts, near) {
      assert SleptOk(r, before[r], mid[r]) && WokeOk(r, mid[r], res[r], parts[r]) && Awake(ms[r], r, res[r], all[..], near);
    }
  }

  ghost predicate SleptOk(r: int, b: Snap, m: Snap) {
    && MemOk(r, b) && EntriesOk(b.entries, false) && |b.entries| == |m.entries|
    && forall i :: 0 <= i < |b.entries| ==> Suspended(b, b.entries[i], m.entries[i])
  }

  ghost predicate WokeOk(r: int, m: Snap, s: Snap, infos: seq<Info>) {
    && MemOk(r, s) && infos == InfosOf(r, s.entries) && |m.entries| == |s.entries|
    && forall i :: 0 <= i < |m.entries| ==> Resumed(s, m.entries[i], s.entries[i])
  }
}
