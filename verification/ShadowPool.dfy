/** `ncclShadowPool` (src/allocator.cc): device objects with host shadows.  The pool refines
    the finite map `live` from device address to object. */
module ShadowPool {
  import opened Arith
  import opened Links
  import opened Seqs
  import opened ShadowTable
  import opened ShadowPages

  class Pool {
    const hash: Hash
    var count: nat
    var hbits: nat
    var table: seq<seq<Obj>>
    /** Pages, and the links of the page list. */
    var pages: seq<Page>
    var next: seq<int>
    var head: int
    ghost var live: map<nat, Obj>
    ghost var listed: seq<int>

    ghost predicate TableValid()
      reads this
    {
      && count == |live| && (hbits == 0 ==> table == [] && live == map[] && pages == [])
      && (hbits > 0 ==> hbits >= 4 && TableOk(hash, hbits, table, live) && count <= 2 * Pow2(hbits))
    }

    ghost predicate Valid()
      reads this
    {
      TableValid() && PagesOk(pages, live) && ListOk(pages, next, head, listed)
    }

    constructor (hash: Hash)
      ensures Valid() && live == map[] && pages == []
    {
      this.hash := hash;
      count, hbits, table, pages, next, head := 0, 0, [], [], [], -1;
      live, listed := map[], [];
    }

    /** Room for one more object: the first table, or a doubled one. */
    method Reserve()
      requires TableValid()
      modifies this`hbits, this`table
      ensures TableValid() && hbits >= 4 && count + 1 <= 2 * Pow2(hbits)
      ensures hbits == GrownBits(old(hbits), count)
    {
      hide TableOk;
      if hbits == 0 {
        hbits := 4;
        table := seq(Pow2(4), _ => []);
        EmptyOk(hash, 4);
      }
      if count + 1 > 2 * Pow2(hbits) {
        table := Double(hash, hbits, table, live);
        hbits := hbits + 1;
      }
    }

    /** The first listed page for objects of this size, and the one before it in the list. */
    method FindPage(objSize: nat) returns (page: int, prev: int, ghost i: nat)
      requires Valid()
      ensures i <= |listed| && page == (if i < |listed| then listed[i] else -1)
      ensures prev == if i == 0 then -1 else listed[i - 1]
      ensures page == -1 || (0 <= page < |pages| && page in listed && pages[page].objSize == objSize)
      ensures page == -1 ==> forall j :: 0 <= j < |listed| ==> 0 <= listed[j] < |pages| && pages[listed[j]].objSize != objSize
      ensures forall j :: 0 <= j < i ==> 0 <= listed[j] < |pages| && pages[listed[j]].objSize != objSize
    {
      hide PagesOk, TableOk;
      i := 0;
      page, prev := head, -1;
      assert Inner(next, listed);
      while page != -1 && pages[page].objSize != objSize
        invariant i <= |listed| && page == if i < |listed| then listed[i] else -1
        invariant prev == if i == 0 then -1 else listed[i - 1]
        invariant forall j :: 0 <= j < i ==> 0 <= listed[j] < |pages| && pages[listed[j]].objSize != objSize
        decreases |listed| - i
      {
        prev := page;
        page := next[page];
        i := i + 1;
      }
    }

    /** `popFirstOneBit`: the lowest free slot. */
    method FirstFree(free: set<nat>, slots: nat) returns (slot: nat)
      requires free != {} && forall k :: k in free ==> k < slots
      ensures slot in free && forall k :: k in free ==> slot <= k
    {
      ghost var some :| some in free;
      slot := 0;
      while slot !in free
        invariant slot <= some && forall k :: k in free ==> slot <= k
        decreases slots - slot
      {
        slot := slot + 1;
      }
    }

    /** A new page goes to the front of the list; it has more than one slot. */
    method NewPage(objSize: nat, base: nat) returns (page: int)
      requires PagesOk(pages, live) && ListOk(pages, next, head, listed)
      requires 0 < objSize && 2 * objSize <= PAGE_BYTES && base > 0 && Unused(pages, live, base, base + PageBytes(objSize))
      modifies this`pages, this`next, this`head, this`listed
      ensures PagesOk(pages, live) && ListOk(pages, next, head, listed)
      ensures page == |old(pages)| < |pages| && listed == [page] + old(listed)
      ensures pages == old(pages) + [FreshPage(objSize, base)] && 0 in pages[page].free && 1 in pages[page].free
    {
      hide PagesOk, ListOk;
      SlotBounds(objSize);
      var slots := Slots(objSize);
      var g := Page(objSize, slots, AllOnes(slots), base);
      EndOf(g, slots, objSize);
      UnusedPart(pages, live, base, PageEnd(g), base + PageBytes(objSize));
      AddPage(pages, live, g);
      ListNew(pages, next, head, listed, g);
      page := |pages|;
      pages, next, head, listed := pages + [g], next + [head], page, [page] + listed;
    }

    /** Takes the lowest free slot of `page`.  If that fills the page it is unlinked through
        `prev`, which is its predecessor in the list unless the page is new. */
    method PopSlot(page: int, prev: int, ghost i: nat, size: nat, host: nat) returns (o: Obj)
      requires PagesOk(pages, live) && ListOk(pages, next, head, listed) && 0 <= page < |pages| && page in listed
      requires 0 < size <= pages[page].objSize && i < |listed| && page == listed[i]
      requires (0 in pages[page].free && 1 in pages[page].free) || prev == if i == 0 then -1 else listed[i - 1]
      modifies this`pages, this`next, this`head, this`listed, this`live
      ensures o.host == host && o.size == size && o.dev > 0 && o.dev !in old(live) && live == old(live)[o.dev := o]
      ensures PagesOk(pages, live) && ListOk(pages, next, head, listed)
      ensures Popped(old(pages), old(listed), i, o, pages, listed)
    {
      hide PagesOk, ListOk, Addr;
      ListedHasFree(pages, live, next, head, listed, page);
      var g := pages[page];
      var slot := FirstFree(g.free, g.slots);
      o := Obj(g.base + slot * g.objSize, host, size, page);
      AddrIs(g, slot);
      TakeSlot(pages, live, page, slot, o);
      FreeSlotUnused(pages, live, page, slot);
      var g' := g.(free := g.free - {slot});
      if g'.free == {} {
        SlotsLeft(g, slot);
        ListUnlink(pages, next, head, listed, i, g');
        ListedAll(pages, live, next, head, listed);
        if prev == -1 { head := next[page]; } else { next := next[prev := next[page]]; }
        listed := listed[..i] + listed[i + 1..];
      } else {
        ListSame(pages, next, head, listed, page, g');
      }
      pages := pages[page := g'];
      live := live[o.dev := o];
      assert LowestFree(g, slot);
    }

    /** Takes a slot for an object of `size` bytes.  `base` is where a new page would lie. */
    method TakeFromPage(size: nat, host: nat, base: nat) returns (o: Obj)
      requires Valid() && size > 0 && FitsPage(size) && base > 0
      requires Unused(pages, live, base, base + PageBytes(ObjSize(size)))
      modifies this`pages, this`next, this`head, this`listed, this`live
      ensures o.host == host && o.size == size && o.dev > 0 && o.dev !in old(live) && live == old(live)[o.dev := o]
      ensures PagesOk(pages, live) && ListOk(pages, next, head, listed)
      ensures FromPage(old(pages), old(listed), size, base, o, pages, listed)
    {
      hide TableOk, PagesOk, ListOk, Popped, FromPage, FreshPage, Slots, PageBytes, Unused;
      ghost var pages0, listed0 := pages, listed;
      var objSize := ObjSize(size);
      PageSlots(size);
      ThreeTimes(size);
      var page, prev;
      ghost var i;
      page, prev, i := FindPage(objSize);
      ghost var found := page != -1;
      if page == -1 {
        page := NewPage(objSize, base);
        i := 0;
      }
      FreshHolds(objSize, base);
      o := PopSlot(page, prev, i, size, host);
      if found {
        FoundFits(pages0, listed0, i, size, base, o, pages, listed);
      } else {
        NewFits(pages0, listed0, size, base, o, pages, listed);
      }
    }

    /** A zeroed device object and its host shadow.  `host` and `base` are the addresses that
        the allocations of host and device memory, if made, return. */
    method Alloc(size: nat, host: nat, base: nat) returns (dev: nat, hostObj: nat)
      requires Valid() && base > 0 && (size > 0 ==> Unused(pages, live, base, base + Needed(size)))
      modifies this
      ensures Valid()
      ensures size == 0 ==> dev == 0 && hostObj == 0 && live == old(live)
      ensures size > 0 ==> dev > 0 && dev !in old(live) && hostObj == host
      ensures size > 0 ==> dev in live && live[dev].host == host && live[dev].size == size && live == old(live)[dev := live[dev]]
      ensures size > 0 && FitsPage(size) ==>
                live[dev].dev == dev && FromPage(old(pages), old(listed), size, base, live[dev], pages, listed)
      ensures size > 0 && !FitsPage(size) ==> dev == base && live[dev].page == -1
      ensures size == 0 || !FitsPage(size) ==> pages == old(pages) && listed == old(listed)
      ensures hbits == if size == 0 then old(hbits) else GrownBits(old(hbits), |old(live)|)
    {
      hide TableOk, PagesOk, ListOk, Unused, FromPage;
      if size == 0 {
        dev, hostObj := 0, 0;
        return;
      }
      Reserve();
      ghost var before := live;
      var o;
      if FitsPage(size) {
        o := TakeFromPage(size, host, base);
      } else {
        o := Obj(base, host, size, -1);
        AddAlone(pages, live, o);
        live := live[base := o];
      }
      InsertOk(hash, hbits, table, before, o);
      var b := hash(hbits, o.dev);
      table := table[b := [o] + table[b]];
      OneMore(before, o.dev, o);
      count := count + 1;
      dev, hostObj := o.dev, o.host;
    }

    /** The shadow of a device object, through however many doublings. */
    method ToHost(dev: nat) returns (ok: bool, host: nat)
      requires Valid() && (dev > 0 ==> hbits > 0)
      ensures ok == (dev == 0 || dev in live)
      ensures ok ==> host == if dev == 0 then 0 else live[dev].host
    {
      hide TableOk, PagesOk, ListOk;
      ok, host := true, 0;
      if dev == 0 { return; }
      var b, i := Find(hash, hbits, table, dev, live);
      if i == |table[b]| { ok := false; return; }
      host := table[b][i].host;
    }

    /** The slot of an object becomes free; a page that was full is listed again. */
    method ReleaseSlot(o: Obj)
      requires PagesOk(pages, live) && ListOk(pages, next, head, listed) && o.dev in live && live[o.dev] == o && o.page != -1
      modifies this`pages, this`next, this`head, this`listed
      ensures PagesOk(pages, live - {o.dev}) && ListOk(pages, next, head, listed)
      ensures GivenBack(old(pages), old(listed), o, pages, listed)
    {
      hide PagesOk, ListOk, Addr;
      ghost var k := SlotOf(pages, live, o.dev);
      AddrIs(pages[o.page], k);
      DropSlot(pages, live, o.dev, k);
      ListedAll(pages, live, next, head, listed);
      var g := pages[o.page];
      var slot := (o.dev - g.base) / g.objSize;
      var g' := g.(free := g.free + {slot});
      assert slot in g'.free;
      if g.free == {} {
        ListPush(pages, next, head, listed, o.page, g');
        next := next[o.page := head];
        head := o.page;
        listed := [o.page] + listed;
      } else {
        ListSame(pages, next, head, listed, o.page, g');
      }
      pages := pages[o.page := g'];
    }

    /** Forgets a device object.  Its slot becomes free again, which lists a full page in front. */
    method Free(dev: nat) returns (ok: bool)
      requires Valid() && (dev > 0 ==> hbits > 0)
      modifies this
      ensures Valid() && live == old(live) - {dev} && ok == (dev == 0 || dev in old(live)) && hbits == old(hbits)
      ensures if dev in old(live) && old(live)[dev].page != -1
              then old(live)[dev].dev == dev && GivenBack(old(pages), old(listed), old(live)[dev], pages, listed)
              else pages == old(pages) && listed == old(listed)
    {
      hide TableOk, PagesOk, ListOk, Addr, GivenBack;
      ok := true;
      NoNull(pages, live);
      if dev == 0 { return; }
      var b, i := Find(hash, hbits, table, dev, live);
      if i == |table[b]| { ok := false; return; }
      var o := table[b][i];
      RemoveOk(hash, hbits, table, live, b, i);
      DevOf(pages, live, dev);
      table := table[b := table[b][..i] + table[b][i + 1..]];
      if o.page != -1 {
        ReleaseSlot(o);
      } else {
        DropAlone(pages, live, dev);
      }
      OneLess(live, dev);
      live := live - {dev};
      count := count - 1;
    }

    /** Lists every page again and frees the objects allocated on their own. */
    method Sweep() returns (freed: seq<nat>)
      requires Valid() && hbits > 0
      modifies this`pages, this`next, this`head, this`listed
      ensures ListOk(pages, next, head, listed) && SameBases(old(pages), pages)
      ensures forall p :: 0 <= p < |pages| ==> p in listed
      ensures Distinct(freed) && forall d: nat :: d in freed <==> Alone(live, d)
    {
      hide TableOk, PagesOk, ListOk, Swept;
      freed := [];
      ghost var pages0 := pages;
      SweptStart(hash, hbits, table, live, pages);
      TableSize(hash, hbits, table, live);
      for i0 := 0 to |table|
        invariant ListOk(pages, next, head, listed) && SameBases(pages0, pages)
        invariant Swept(hash, hbits, table, live, i0, 0, pages, freed)
      {
        var j := 0;
        while j < |table[i0]|
          invariant j <= |table[i0]|
          invariant ListOk(pages, next, head, listed) && SameBases(pages0, pages)
          invariant Swept(hash, hbits, table, live, i0, j, pages, freed)
        {
          var o := table[i0][j];
          EntryOf(hash, hbits, table, live, pages0, i0, j);
          ListedAll(pages, live, next, head, listed);
          ghost var before, freed0 := pages, freed;
          if o.page != -1 {
            var g := pages[o.page];
            if g.free == {} {
              var g' := g.(free := {0});
              ListPush(pages, next, head, listed, o.page, g');
              next := next[o.page := head];
              head := o.page;
              listed := [o.page] + listed;
              pages := pages[o.page := g'];
            }
          } else {
            freed := freed + [o.dev];
          }
          SweptOne(hash, hbits, table, live, i0, j, before, freed0, pages);
          j := j + 1;
        }
        SweptBucket(hash, hbits, table, live, i0, pages, freed);
      }
      SweptEnd(hash, hbits, table, live, pages0, pages, freed);
      AllListed(pages, next, head, listed);
    }

    /** Walks the list and frees the memory of each page. */
    method FreePages() returns (freed: seq<nat>)
      requires ListOk(pages, next, head, listed)
      modifies this`head
      ensures Within(listed, |pages|) && freed == Bases(pages, listed)
    {
      hide ListOk;
      freed := [];
      ghost var n := 0;
      ChainStart(pages, next, head, listed);
      while head != -1
        invariant 0 <= n <= |listed| && head == if n < |listed| then listed[n] else -1
        invariant freed == Bases(pages, listed[..n])
        decreases |listed| - n
      {
        freed := freed + [pages[head].base];
        BasesStep(pages, listed, n);
        head := next[head];
        n := n + 1;
      }
      assert n == |listed| && listed[..n] == listed;
    }

    /** `ncclShadowPoolDestruct`: every page and every object allocated on its own is freed,
        and each exactly once. */
    method Destruct() returns (freed: seq<nat>)
      requires Valid()
      modifies this
      ensures Distinct(freed)
      ensures forall x: nat :: x in freed <==> Alone(old(live), x) || IsBase(old(pages), x)
    {
      hide TableOk, PagesOk, ListOk, SameBases, Bases, IsBase;
      freed := [];
      if hbits == 0 {
        NoPages(pages);
        return;
      }
      ghost var pages0 := pages;
      SameIsSame(pages);
      if count != 0 {
        freed := Sweep();
      } else {
        NothingLive(pages, live, next, head, listed);
      }
      ghost var alone := freed;
      BasesSame(pages0, pages);
      ChainStart(pages, next, head, listed);
      BasesApart(pages0, live);
      FreedOnce(pages0, pages, live, next, listed, alone);
      var more := FreePages();
      freed := freed + more;
    }
  }

  /** Bytes of device memory that an allocation may have to get. */
  /** A table of 16 buckets at first, and twice as many when there would be more than two objects
      per bucket. */
  ghost function GrownBits(hbits: nat, count: nat): nat {
    if hbits == 0 then 4 else if count + 1 > 2 * Pow2(hbits) then hbits + 1 else hbits
  }

  ghost function FreshPage(objSize: nat, base: nat): Page
    requires objSize > 0
  {
    Page(objSize, Slots(objSize), AllOnes(Slots(objSize)), base)
  }

  /** The first listed page for the object size is at position `i`. */
  ghost predicate FirstFit(pages: seq<Page>, listed: seq<int>, objSize: nat, i: nat) {
    && i < |listed| && 0 <= listed[i] < |pages| && pages[listed[i]].objSize == objSize
    && forall j :: 0 <= j < i ==> 0 <= listed[j] < |pages| && pages[listed[j]].objSize != objSize
  }

  ghost predicate LowestFree(g: Page, k: nat) { k in g.free && forall l :: l in g.free ==> k <= l }

  /** `o` is the lowest free slot of the page at position `i` of the list; the slot is taken, and
      the page leaves the list if it was its last. */
  ghost predicate Popped(pages: seq<Page>, listed: seq<int>, i: nat, o: Obj, pages': seq<Page>, listed': seq<int>) {
    && i < |listed| && o.page == listed[i] && 0 <= o.page < |pages|
    && var g := pages[o.page];
       exists k: nat ::
         && LowestFree(g, k) && o.dev == g.base + k * g.objSize
         && pages' == pages[o.page := g.(free := g.free - {k})]
         && listed' == if g.free == {k} then listed[..i] + listed[i + 1..] else listed
  }

  /** The slot of `o` is free again; a page that had none free heads the list. */
  ghost predicate GivenBack(pages: seq<Page>, listed: seq<int>, o: Obj, pages': seq<Page>, listed': seq<int>) {
    && 0 <= o.page < |pages|
    && var g := pages[o.page];
       exists k: nat ::
         && k !in g.free && o.dev == g.base + k * g.objSize
         && pages' == pages[o.page := g.(free := g.free + {k})]
         && listed' == if g.free == {} then [o.page] + listed else listed
  }

  /** Where an object that shares pages comes from: the first listed page for its size, or if no
      listed page has that size the start of one new page at `base`, which heads the list. */
  ghost predicate FromPage(pages: seq<Page>, listed: seq<int>, size: nat, base: nat, o: Obj, pages': seq<Page>, listed': seq<int>)
    requires size > 0
  {
    var objSize := ObjSize(size);
    && objSize > 0
    && (forall i: nat :: FirstFit(pages, listed, objSize, i) ==> Popped(pages, listed, i, o, pages', listed'))
    && ((forall j :: 0 <= j < |listed| && 0 <= listed[j] < |pages| ==> pages[listed[j]].objSize != objSize) ==>
          o.dev == base && Popped(pages + [FreshPage(objSize, base)], [|pages|] + listed, 0, o, pages', listed'))
  }

  lemma FreshHolds(objSize: nat, base: nat)
    requires objSize > 0
    ensures FreshPage(objSize, base).objSize == objSize
  {
  }

  lemma FoundFits(pages: seq<Page>, listed: seq<int>, i: nat, size: nat, base: nat, o: Obj, pages': seq<Page>, listed': seq<int>)
    requires size > 0 && ObjSize(size) > 0 && FirstFit(pages, listed, ObjSize(size), i)
    requires Popped(pages, listed, i, o, pages', listed')
    ensures FromPage(pages, listed, size, base, o, pages', listed')
  {
    hide Popped, ObjSize;
    forall j: nat | FirstFit(pages, listed, ObjSize(size), j) ensures j == i { }
  }

  lemma NewFits(pages: seq<Page>, listed: seq<int>, size: nat, base: nat, o: Obj, pages': seq<Page>, listed': seq<int>)
    requires size > 0 && ObjSize(size) > 0 && Slots(ObjSize(size)) > 0
    requires forall j :: 0 <= j < |listed| ==> 0 <= listed[j] < |pages| && pages[listed[j]].objSize != ObjSize(size)
    requires Popped(pages + [FreshPage(ObjSize(size), base)], [|pages|] + listed, 0, o, pages', listed')
    ensures FromPage(pages, listed, size, base, o, pages', listed')
  {
    hide ObjSize, Slots;
    assert o.dev == base by {
      var g := FreshPage(ObjSize(size), base);
      var k: nat :| LowestFree(g, k) && o.dev == g.base + k * g.objSize;
      assert 0 in g.free;
    }
    hide Popped;
  }

  function Needed(size: nat): nat
    requires size > 0
  {
    if FitsPage(size) then PageBytes(ObjSize(size)) else size
  }

  lemma OneMore(m: map<nat, Obj>, d: nat, o: Obj)
    requires d !in m
    ensures |m[d := o]| == |m| + 1
  {
    assert m[d := o].Keys == m.Keys + {d};
  }

  lemma OneLess(m: map<nat, Obj>, d: nat)
    requires d in m
    ensures |m - {d}| == |m| - 1
  {
    assert m.Keys == (m - {d}).Keys + {d};
  }

  lemma NoNull(pages: seq<Page>, live: map<nat, Obj>)
    requires PagesOk(pages, live)
    ensures 0 !in live && live - {0} == live
  {
    forall d | d in live ensures d > 0 { assert ObjOk(pages, live, d); }
  }

  lemma DevOf(pages: seq<Page>, live: map<nat, Obj>, d: nat)
    requires PagesOk(pages, live) && d in live
    ensures live[d].dev == d && (live[d].page == -1 || 0 <= live[d].page < |pages|)
  {
    assert ObjOk(pages, live, d);
  }

  /** The mask with the lowest `n` bits set. */
  function AllOnes(n: nat): (s: set<nat>)
    ensures forall k: nat :: k in s <==> k < n
  {
    if n == 0 then {} else AllOnes(n - 1) + {n - 1}
  }

  lemma AddrIs(g: Page, k: nat)
    ensures Addr(g, k) == g.base + k * g.objSize
  {
  }

  lemma ListedAll(pages: seq<Page>, live: map<nat, Obj>, next: seq<int>, head: int, listed: seq<int>)
    requires ListOk(pages, next, head, listed)
    ensures |next| == |pages| && forall i :: 0 <= i < |listed| ==> 0 <= listed[i] < |pages|
  {
  }

  lemma EndOf(g: Page, slots: nat, objSize: nat)
    requires g.slots == slots && g.objSize == objSize
    ensures PageEnd(g) == g.base + slots * objSize
  {
  }

  lemma UnusedPart(pages: seq<Page>, live: map<nat, Obj>, lo: int, mid: int, hi: int)
    requires Unused(pages, live, lo, hi) && lo <= mid <= hi
    ensures Unused(pages, live, lo, mid)
  {
  }

  lemma ListedHasFree(pages: seq<Page>, live: map<nat, Obj>, next: seq<int>, head: int, listed: seq<int>, p: int)
    requires PagesOk(pages, live) && ListOk(pages, next, head, listed) && p in listed
    ensures 0 <= p < |pages| == |next| && pages[p].free != {} && forall k :: k in pages[p].free ==> k < pages[p].slots
  {
    var i :| 0 <= i < |listed| && listed[i] == p;
    assert PageOk(pages, live, p);
  }

  /** A page that one slot leaves full had just that one free: it is not a new page. */
  lemma SlotsLeft(g: Page, slot: nat)
    requires slot in g.free && g.free - {slot} == {}
    ensures forall k :: k in g.free ==> k == slot
  {
    forall k | k in g.free ensures k == slot {
      assert k in g.free - {slot} || k == slot;
    }
  }

  // ---------------------------------------------------------------------------
  // Destruction

  ghost predicate SameBases(pages: seq<Page>, pages': seq<Page>) {
    |pages'| == |pages| && forall p :: 0 <= p < |pages| ==> pages'[p].base == pages[p].base && (pages[p].free != {} ==> pages'[p].free != {})
  }

  lemma BasesSame(pages: seq<Page>, pages': seq<Page>)
    requires SameBases(pages, pages')
    ensures |pages'| == |pages| && forall p :: 0 <= p < |pages| ==> pages'[p].base == pages[p].base
  {
  }

  ghost predicate IsBase(pages: seq<Page>, x: int) { exists p :: 0 <= p < |pages| && pages[p].base == x }

  /** What has been done for the objects passed so far. */
  ghost predicate Swept(h: Hash, hbits: nat, table: seq<seq<Obj>>, live: map<nat, Obj>, i0: nat, j: nat,
                        pages: seq<Page>, freed: seq<nat>) {
    && Distinct(freed)
    && (forall d: nat :: d in freed <==> Alone(live, d) && Passed(h, hbits, table, i0, j, live[d]))
    && (forall d :: d in live && live[d].page != -1 && Passed(h, hbits, table, i0, j, live[d]) ==>
          0 <= live[d].page < |pages| && pages[live[d].page].free != {})
  }

  lemma SweptStart(h: Hash, hbits: nat, table: seq<seq<Obj>>, live: map<nat, Obj>, pages: seq<Page>)
    requires TableOk(h, hbits, table, live)
    ensures Swept(h, hbits, table, live, 0, 0, pages, [])
  {
    assert |table| > 0 ==> table[0][..0] == [];
    assert forall o: Obj :: !Passed(h, hbits, table, 0, 0, o);
  }

  lemma EntryOf(h: Hash, hbits: nat, table: seq<seq<Obj>>, live: map<nat, Obj>, pages: seq<Page>, i0: nat, j: nat)
    requires TableOk(h, hbits, table, live) && PagesOk(pages, live) && i0 < |table| && j < |table[i0]|
    ensures var o := table[i0][j];
            o.dev in live && live[o.dev] == o && (o.page == -1 || 0 <= o.page < |pages|)
  {
    assert BucketOk(h, hbits, table[i0], i0, live);
    assert ObjOk(pages, live, table[i0][j].dev);
  }

  lemma PassOne(h: Hash, hbits: nat, table: seq<seq<Obj>>, live: map<nat, Obj>, i0: nat, j: nat, d: nat)
    requires TableOk(h, hbits, table, live) && i0 < |table| && j < |table[i0]| && d in live
    ensures Passed(h, hbits, table, i0, j + 1, live[d]) <==> Passed(h, hbits, table, i0, j, live[d]) || live[d] == table[i0][j]
    ensures live[d] == table[i0][j] ==> !Passed(h, hbits, table, i0, j, live[d])
    ensures live[d] == table[i0][j] <==> d == table[i0][j].dev
  {
    assert BucketOk(h, hbits, table[i0], i0, live);
    assert table[i0][..j + 1] == table[i0][..j] + [table[i0][j]];
    assert table[i0][j] !in table[i0][..j];
  }

  lemma SweptOne(h: Hash, hbits: nat, table: seq<seq<Obj>>, live: map<nat, Obj>, i0: nat, j: nat,
                 pages: seq<Page>, freed: seq<nat>, pages': seq<Page>)
    requires TableOk(h, hbits, table, live) && i0 < |table| && j < |table[i0]| && Swept(h, hbits, table, live, i0, j, pages, freed)
    requires SameBases(pages, pages')
    requires var o := table[i0][j];
             o.dev in live && live[o.dev] == o && (o.page == -1 || (0 <= o.page < |pages| && pages'[o.page].free != {}))
    ensures var o := table[i0][j];
            Swept(h, hbits, table, live, i0, j + 1, pages', if o.page == -1 then freed + [o.dev] else freed)
  {
    hide TableOk, Passed;
    var o := table[i0][j];
    var freed' := if o.page == -1 then freed + [o.dev] else freed;
    PassOne(h, hbits, table, live, i0, j, o.dev);
    forall d: nat ensures d in freed' <==> Alone(live, d) && Passed(h, hbits, table, i0, j + 1, live[d]) {
      if d in live { PassOne(h, hbits, table, live, i0, j, d); }
    }
    assert o.page == -1 ==> o.dev !in freed;
    DistinctJoin(freed, [o.dev]);
    forall d | d in live && live[d].page != -1 && Passed(h, hbits, table, i0, j + 1, live[d])
      ensures 0 <= live[d].page < |pages'| && pages'[live[d].page].free != {}
    {
      PassOne(h, hbits, table, live, i0, j, d);
    }
  }

  lemma SweptBucket(h: Hash, hbits: nat, table: seq<seq<Obj>>, live: map<nat, Obj>, i0: nat, pages: seq<Page>, freed: seq<nat>)
    requires TableOk(h, hbits, table, live) && i0 < |table| && Swept(h, hbits, table, live, i0, |table[i0]|, pages, freed)
    ensures Swept(h, hbits, table, live, i0 + 1, 0, pages, freed)
  {
    assert table[i0][..|table[i0]|] == table[i0];
    forall d | d in live
      ensures Passed(h, hbits, table, i0, |table[i0]|, live[d]) <==> Passed(h, hbits, table, i0 + 1, 0, live[d])
    {
      if h(hbits, d) == i0 { assert live[d] in table[i0]; }
      if i0 + 1 < |table| { assert table[i0 + 1][..0] == []; }
    }
  }

  /** At the end every page has something free: a full page has a live object in each slot. */
  lemma SweptEnd(h: Hash, hbits: nat, table: seq<seq<Obj>>, live: map<nat, Obj>, pages0: seq<Page>, pages: seq<Page>, freed: seq<nat>)
    requires TableOk(h, hbits, table, live) && Swept(h, hbits, table, live, |table|, 0, pages, freed)
    requires PagesOk(pages0, live) && SameBases(pages0, pages)
    ensures forall p :: 0 <= p < |pages| ==> pages[p].free != {}
    ensures Distinct(freed) && forall d: nat :: d in freed <==> Alone(live, d)
  {
    assert forall d :: d in live ==> h(hbits, d) < |table|;
    forall p | 0 <= p < |pages| ensures pages[p].free != {} {
      assert PageOk(pages0, live, p);
      if pages0[p].free == {} { assert 0 in pages0[p].free || TakenBy(live, Addr(pages0[p], 0), p); }
    }
  }

  lemma AllListed(pages: seq<Page>, next: seq<int>, head: int, listed: seq<int>)
    requires ListOk(pages, next, head, listed) && forall p :: 0 <= p < |pages| ==> pages[p].free != {}
    ensures forall p :: 0 <= p < |pages| ==> p in listed
  {
  }

  lemma NoPages(pages: seq<Page>)
    requires pages == []
    ensures forall x :: !IsBase(pages, x)
  {
  }

  lemma SameIsSame(pages: seq<Page>)
    ensures SameBases(pages, pages)
  {
  }

  /** Without live objects every page has a free slot. */
  lemma NothingLive(pages: seq<Page>, live: map<nat, Obj>, next: seq<int>, head: int, listed: seq<int>)
    requires PagesOk(pages, live) && ListOk(pages, next, head, listed) && |live| == 0
    ensures forall p :: 0 <= p < |pages| ==> p in listed
    ensures forall d :: !Alone(live, d)
  {
    assert live.Keys == {};
    forall p | 0 <= p < |pages| ensures pages[p].free != {} {
      assert PageOk(pages, live, p);
      assert 0 in pages[p].free || TakenBy(live, Addr(pages[p], 0), p);
    }
  }

  lemma ChainStart(pages: seq<Page>, next: seq<int>, head: int, listed: seq<int>)
    requires ListOk(pages, next, head, listed)
    ensures Distinct(listed) && Within(listed, |pages|) && |next| == |pages| && head == Head(listed) && Inner(next, listed)
    ensures listed != [] ==> next[listed[|listed| - 1]] == -1
  {
  }

  ghost function Bases(pages: seq<Page>, c: seq<int>): (b: seq<nat>)
    requires Within(c, |pages|)
    ensures |b| == |c| && forall i :: 0 <= i < |c| ==> b[i] == pages[c[i]].base
  {
    seq(|c|, i requires 0 <= i < |c| => pages[c[i]].base)
  }

  lemma BasesStep(pages: seq<Page>, c: seq<int>, n: nat)
    requires Within(c, |pages|) && n < |c|
    ensures Bases(pages, c[..n + 1]) == Bases(pages, c[..n]) + [pages[c[n]].base]
  {
  }

  /** Pages start at different addresses, none of them that of an object of its own. */
  lemma BasesApart(pages: seq<Page>, live: map<nat, Obj>)
    requires PagesOk(pages, live)
    ensures forall p, q :: 0 <= p < q < |pages| ==> pages[p].base != pages[q].base
    ensures forall d, p :: Alone(live, d) && 0 <= p < |pages| ==> pages[p].base != d
  {
    hide PageEnd;
    forall p | 0 <= p < |pages| ensures pages[p].base < PageEnd(pages[p]) {
      assert PageOk(pages, live, p);
      SlotInside(pages[p], 0);
    }
    forall d, p | Alone(live, d) && 0 <= p < |pages| ensures pages[p].base != d { assert ObjOk(pages, live, d); }
  }

  lemma FreedOnce(pages0: seq<Page>, pages: seq<Page>, live: map<nat, Obj>, next: seq<int>, listed: seq<int>, alone: seq<nat>)
    requires |pages| == |pages0| && (forall p :: 0 <= p < |pages| ==> pages[p].base == pages0[p].base)
    requires Distinct(listed) && Within(listed, |pages|) && forall p :: 0 <= p < |pages| ==> p in listed
    requires Distinct(alone) && forall d: nat :: d in alone <==> Alone(live, d)
    requires forall p, q :: 0 <= p < q < |pages0| ==> pages0[p].base != pages0[q].base
    requires forall d, p :: Alone(live, d) && 0 <= p < |pages0| ==> pages0[p].base != d
    ensures Distinct(alone + Bases(pages, listed))
    ensures forall x: nat :: x in alone + Bases(pages, listed) <==> Alone(live, x) || IsBase(pages0, x)
  {
    var b := Bases(pages, listed);
    forall i, j | 0 <= i < j < |b| ensures b[i] != b[j] { assert listed[i] != listed[j]; }
    forall x: nat ensures x in b <==> IsBase(pages0, x) {
      if IsBase(pages0, x) {
        var p :| 0 <= p < |pages0| && pages0[p].base == x;
        assert p in listed;
        var i :| 0 <= i < |listed| && listed[i] == p;
        assert b[i] == x;
      }
    }
    DistinctJoin(alone, b);
  }
}
