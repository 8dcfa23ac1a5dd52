/** The pages of `ncclShadowPool` (src/allocator.cc): blocks of up to 64 equally sized slots
    with a mask of free ones; pages with a free slot are linked in a list. */
module ShadowPages {
  import opened Arith
  import opened Links
  import opened Seqs
  import opened ShadowTable

  /** `free` is the set of ones of the free mask; `base` is where the page's memory starts. */
  datatype Page = Page(objSize: nat, slots: nat, free: set<nat>, base: nat)

  // ---------------------------------------------------------------------------
  // Page geometry

  const PAGE_BYTES: nat := 65536

  function Log2Down(n: nat): (k: nat)
    requires n > 0
    ensures Pow2(k) <= n < 2 * Pow2(k)
  {
    if n == 1 then 0 else 1 + Log2Down(n / 2)
  }

  function Shift(size: nat): (s: nat)
    requires size > 0
    ensures s == 0 || 8 * Pow2(s) <= size
  {
    var l := Log2Down(size);
    if l < 3 then 0 else EightTimes(l); l - 3
  }

  lemma EightTimes(l: nat)
    requires l >= 3
    ensures Pow2(l) == 8 * Pow2(l - 3)
  {
    assert Pow2(l) == 2 * Pow2(l - 1) == 4 * Pow2(l - 2);
  }

  /** The size rounded up so that at most an eighth is wasted. */
  function ObjSize(size: nat): (o: nat)
    requires size > 0
  {
    (size + Pow2(Shift(size)) - 1) / Pow2(Shift(size)) * Pow2(Shift(size))
  }

  function PageBytes(objSize: nat): nat { if 64 * objSize <= PAGE_BYTES then 64 * objSize else PAGE_BYTES }

  function Slots(objSize: nat): nat
    requires objSize > 0
  {
    PageBytes(objSize) / objSize
  }

  predicate FitsPage(size: nat)
    requires size > 0
  {
    PAGE_BYTES / size >= 3
  }

  lemma RoundUp(x: nat, d: nat)
    requires d > 0
    ensures x <= (x + d - 1) / d * d < x + d
  {
    var q, r := (x + d - 1) / d, (x + d - 1) % d;
    assert x + d - 1 == q * d + r;
  }

  /** Every page has from 2 to 64 slots, and they fit into it. */
  lemma PageSlots(size: nat)
    requires size > 0 && FitsPage(size)
    ensures var o := ObjSize(size);
            size <= o && 8 * o <= 9 * size && 2 <= Slots(o) <= 64 && Slots(o) * o <= PageBytes(o)
  {
    var d, o := Pow2(Shift(size)), ObjSize(size);
    RoundUp(size, d);
    ThreeTimes(size);
    SlotBounds(o);
  }

  /** Slots are as small as four significant bits allow: the least multiple of a power of two that
      holds the object, where the size is 8 to 16 times that power, or less if the power is 1. */
  lemma FourBits(size: nat) returns (s: nat)
    requires size > 0
    ensures (s == 0 || 8 * Pow2(s) <= size) && size < 16 * Pow2(s)
    ensures ObjSize(size) % Pow2(s) == 0 && size <= ObjSize(size) < size + Pow2(s)
  {
    s := Shift(size);
    RoundUp(size, Pow2(s));
    ModOfMultiple((size + Pow2(s) - 1) / Pow2(s), Pow2(s));
    var l := Log2Down(size);
    if l >= 3 { EightTimes(l); } else { assert Pow2(l) <= Pow2(2) by { assert Pow2(2) == 4 && Pow2(1) == 2; } }
  }

  /** Objects of which three fit into 64 KiB share pages. */
  lemma ThreeTimes(size: nat)
    requires size > 0
    ensures FitsPage(size) <==> 3 * size <= PAGE_BYTES
  {
    var q := PAGE_BYTES / size;
    assert PAGE_BYTES == q * size + PAGE_BYTES % size;
    if q >= 3 { MulMono(3, q, size); } else { MulMono(q, 2, size); }
  }

  /** A page has 64 slots or as many as fit into 64 KiB. */
  lemma SlotBounds(o: nat)
    requires 0 < o && 2 * o <= PAGE_BYTES
    ensures 2 <= Slots(o) <= 64 && Slots(o) * o <= PageBytes(o) <= PAGE_BYTES
    ensures Slots(o) == 64 || (Slots(o) + 1) * o > PAGE_BYTES
  {
    var q, r := PageBytes(o) / o, PageBytes(o) % o;
    assert PageBytes(o) == q * o + r;
    Distrib(q, 1, o);
    if q < 2 { MulMono(q, 1, o); }
    if q > 64 { MulMono(65, q, o); }
    if q < 64 { MulMono(q + 1, 64, o); }
  }

  // ---------------------------------------------------------------------------
  // What slots and objects occupy

  ghost function Addr(g: Page, k: int): int { g.base + k * g.objSize }

  ghost predicate Apart(lo: int, hi: int, lo': int, hi': int) { hi <= lo' || hi' <= lo }

  ghost predicate TakenBy(live: map<nat, Obj>, d: int, p: int) { d in live && live[d].page == p }

  ghost predicate PageOk(pages: seq<Page>, live: map<nat, Obj>, p: int)
    requires 0 <= p < |pages|
  {
    var g := pages[p];
    && g.objSize > 0 && 2 <= g.slots <= 64 && g.base > 0 && (forall k :: k in g.free ==> k < g.slots)
    && forall k :: 0 <= k < g.slots ==> (k in g.free <==> !TakenBy(live, Addr(g, k), p))
  }

  ghost predicate IsSlot(g: Page, d: int, k: int) { 0 <= k < g.slots && d == Addr(g, k) }

  ghost predicate InPage(pages: seq<Page>, o: Obj) {
    0 <= o.page < |pages| && o.size <= pages[o.page].objSize && exists k :: IsSlot(pages[o.page], o.dev, k)
  }

  ghost predicate ObjOk(pages: seq<Page>, live: map<nat, Obj>, d: nat)
    requires d in live
  {
    live[d].dev == d > 0 && live[d].size > 0 && (live[d].page == -1 || InPage(pages, live[d]))
  }

  /** The memory of page `p` and of an object allocated on its own. */
  ghost function PageEnd(g: Page): int { Addr(g, g.slots) }

  ghost predicate Alone(live: map<nat, Obj>, d: int) { d in live && live[d].page == -1 }

  ghost predicate Separate(pages: seq<Page>, live: map<nat, Obj>) {
    && (forall p, q :: 0 <= p < q < |pages| ==> Apart(pages[p].base, PageEnd(pages[p]), pages[q].base, PageEnd(pages[q])))
    && (forall d, p :: Alone(live, d) && 0 <= p < |pages| ==> Apart(d, d + live[d].size, pages[p].base, PageEnd(pages[p])))
    && (forall d, e :: Alone(live, d) && Alone(live, e) && d != e ==> Apart(d, d + live[d].size, e, e + live[e].size))
  }

  ghost predicate PagesOk(pages: seq<Page>, live: map<nat, Obj>) {
    && (forall p :: 0 <= p < |pages| ==> PageOk(pages, live, p))
    && (forall d :: d in live ==> ObjOk(pages, live, d))
    && Separate(pages, live)
  }

  /** The list holds each page with a free slot once, and no other. */
  ghost predicate ListOk(pages: seq<Page>, next: seq<int>, head: int, listed: seq<int>) {
    && |next| == |pages| && Linked(next, head, listed) && Distinct(listed)
    && forall p :: 0 <= p < |pages| ==> (p in listed <==> pages[p].free != {})
  }

  lemma SlotInside(g: Page, k: int)
    requires 0 <= k < g.slots
    ensures g.base <= Addr(g, k) && Addr(g, k) + g.objSize <= PageEnd(g)
  {
    MulMono(0, k, g.objSize);
    MulMono(k + 1, g.slots, g.objSize);
    Distrib(k, 1, g.objSize);
  }

  lemma SlotsApart(g: Page, j: int, k: int)
    requires 0 <= j < k
    ensures Addr(g, j) + g.objSize <= Addr(g, k)
  {
    MulMono(j + 1, k, g.objSize);
    Distrib(j, 1, g.objSize);
  }

  /** Where a live object lies: inside its page, or in memory of its own. */
  lemma Extent(pages: seq<Page>, live: map<nat, Obj>, d: nat)
    requires PagesOk(pages, live) && d in live
    ensures live[d].page == -1 ||
            (0 <= live[d].page < |pages| && pages[live[d].page].base <= d && d + live[d].size <= PageEnd(pages[live[d].page]))
  {
    assert ObjOk(pages, live, d);
    if live[d].page != -1 {
      var g := pages[live[d].page];
      var k :| IsSlot(g, d, k);
      SlotInside(g, k);
    }
  }

  /** Live objects never overlap. */
  lemma NoOverlap(pages: seq<Page>, live: map<nat, Obj>, d: nat, e: nat)
    requires PagesOk(pages, live) && d in live && e in live && d != e
    ensures Apart(d, d + live[d].size, e, e + live[e].size)
  {
    hide Addr, PageEnd;
    Extent(pages, live, d);
    Extent(pages, live, e);
    assert ObjOk(pages, live, d) && ObjOk(pages, live, e);
    var p, q := live[d].page, live[e].page;
    if p == q && p != -1 {
      SamePageApart(pages, live, d, e);
    } else if p == -1 && q == -1 {
      assert Alone(live, d) && Alone(live, e);
    } else if p == -1 {
      assert Alone(live, d);
    } else if q == -1 {
      assert Alone(live, e);
    }
  }

  lemma SamePageApart(pages: seq<Page>, live: map<nat, Obj>, d: nat, e: nat)
    requires PagesOk(pages, live) && d in live && e in live && d != e && live[d].page == live[e].page != -1
    ensures Apart(d, d + live[d].size, e, e + live[e].size)
  {
    hide Addr;
    assert ObjOk(pages, live, d) && ObjOk(pages, live, e);
    var g := pages[live[d].page];
    var j :| IsSlot(g, d, j);
    var k :| IsSlot(g, e, k);
    if j < k { SlotsApart(g, j, k); } else if k < j { SlotsApart(g, k, j); }
  }

  // ---------------------------------------------------------------------------
  // Changes

  /** The address of a free slot is not in use. */
  lemma FreeSlotUnused(pages: seq<Page>, live: map<nat, Obj>, p: int, k: int)
    requires PagesOk(pages, live) && 0 <= p < |pages| && k in pages[p].free
    ensures 0 <= k < pages[p].slots && Addr(pages[p], k) > 0 && Addr(pages[p], k) !in live
  {
    hide Addr, PageEnd;
    var g := pages[p];
    assert PageOk(pages, live, p);
    SlotInside(g, k);
    if Addr(g, k) in live { OwnsSlot(pages, live, p, k); }
  }

  /** An object at the address of a slot is an object of that page. */
  lemma OwnsSlot(pages: seq<Page>, live: map<nat, Obj>, p: int, k: int)
    requires PagesOk(pages, live) && 0 <= p < |pages| && 0 <= k < pages[p].slots && Addr(pages[p], k) in live
    ensures TakenBy(live, Addr(pages[p], k), p)
  {
    hide Addr, PageEnd;
    var d := Addr(pages[p], k);
    assert PageOk(pages, live, p);
    SlotInside(pages[p], k);
    assert Alone(live, d) <==> live[d].page == -1;
    Extent(pages, live, d);
    assert ObjOk(pages, live, d);
  }

  /** No live object starts in unused memory. */
  lemma NotInUnused(pages: seq<Page>, live: map<nat, Obj>, d: nat, lo: int, hi: int)
    requires PagesOk(pages, live) && d in live && lo <= d < hi
    ensures !Unused(pages, live, lo, hi)
  {
    hide Addr, PageEnd;
    Extent(pages, live, d);
    assert ObjOk(pages, live, d);
    var p := live[d].page;
    if p == -1 {
      assert Alone(live, d) && !Apart(d, d + live[d].size, lo, hi);
    } else {
      assert !Apart(pages[p].base, PageEnd(pages[p]), lo, hi);
    }
  }

  lemma TakeSlot(pages: seq<Page>, live: map<nat, Obj>, p: int, k: int, o: Obj)
    requires PagesOk(pages, live) && 0 <= p < |pages| && k in pages[p].free && o.dev == Addr(pages[p], k)
    requires o.page == p && 0 < o.size <= pages[p].objSize
    ensures o.dev !in live
    ensures PagesOk(pages[p := pages[p].(free := pages[p].free - {k})], live[o.dev := o])
  {
    hide Addr, PageEnd;
    FreeSlotUnused(pages, live, p, k);
    var g := pages[p];
    var pages', live' := pages[p := g.(free := g.free - {k})], live[o.dev := o];
    AddrSame(pages, p, g.free - {k});
    forall q | 0 <= q < |pages'| ensures PageOk(pages', live', q) {
      assert PageOk(pages, live, q);
      if q == p { TakeOwn(pages, live, p, k, o); } else { TakeOther(pages, live, q, o, pages'[p]); }
    }
    forall d | d in live' ensures ObjOk(pages', live', d) {
      if d == o.dev {
        assert IsSlot(pages'[p], d, k);
      } else {
        assert ObjOk(pages, live, d);
        SameSlots(pages, pages', live[d]);
      }
    }
    assert forall d :: Alone(live', d) <==> Alone(live, d);
  }

  /** Slots lie where they did when only free masks change. */
  lemma AddrSame(pages: seq<Page>, p: int, free: set<nat>)
    requires 0 <= p < |pages|
    ensures var pages' := pages[p := pages[p].(free := free)];
            && (forall q, k :: 0 <= q < |pages| ==> Addr(pages'[q], k) == Addr(pages[q], k))
            && (forall q :: 0 <= q < |pages| ==> PageEnd(pages'[q]) == PageEnd(pages[q]) && pages'[q].base == pages[q].base)
  {
    var pages' := pages[p := pages[p].(free := free)];
    forall q, k | 0 <= q < |pages| ensures Addr(pages'[q], k) == Addr(pages[q], k) {
      assert pages'[q].base == pages[q].base && pages'[q].objSize == pages[q].objSize;
    }
  }

  lemma SameSlots(pages: seq<Page>, pages': seq<Page>, o: Obj)
    requires |pages'| == |pages| && (o.page == -1 || InPage(pages, o))
    requires forall q, k :: 0 <= q < |pages| ==> Addr(pages'[q], k) == Addr(pages[q], k)
    requires forall q :: 0 <= q < |pages| ==> pages'[q].slots == pages[q].slots && pages'[q].objSize == pages[q].objSize
    ensures o.page == -1 || InPage(pages', o)
  {
    hide Addr;
    if o.page != -1 {
      var k :| IsSlot(pages[o.page], o.dev, k);
      assert IsSlot(pages'[o.page], o.dev, k);
    }
  }

  lemma TakeOwn(pages: seq<Page>, live: map<nat, Obj>, p: int, k: int, o: Obj)
    requires 0 <= p < |pages| && PageOk(pages, live, p) && k in pages[p].free && o.dev == Addr(pages[p], k) && o.page == p
    ensures PageOk(pages[p := pages[p].(free := pages[p].free - {k})], live[o.dev := o], p)
  {
    hide Addr;
    var g := pages[p];
    var g', live' := g.(free := g.free - {k}), live[o.dev := o];
    AddrSame(pages, p, g'.free);
    forall j | 0 <= j < g.slots ensures j in g'.free <==> !TakenBy(live', Addr(g', j), p) {
      assert Addr(g', j) == Addr(pages[p := g'][p], j) == Addr(g, j);
      if j < k { SlotsApart(g, j, k); } else if k < j { SlotsApart(g, k, j); }
    }
  }

  lemma TakeOther(pages: seq<Page>, live: map<nat, Obj>, q: int, o: Obj, g: Page)
    requires 0 <= q < |pages| && PageOk(pages, live, q) && o.page != q && o.dev !in live && 0 <= o.page < |pages|
    ensures PageOk(pages[o.page := g], live[o.dev := o], q)
  {
    hide Addr;
    assert pages[o.page := g][q] == pages[q];
    forall k | 0 <= k < pages[q].slots
      ensures TakenBy(live[o.dev := o], Addr(pages[q], k), q) <==> TakenBy(live, Addr(pages[q], k), q)
    {
    }
  }

  /** A page allocated in unused memory, with all slots free. */
  lemma AddPage(pages: seq<Page>, live: map<nat, Obj>, g: Page)
    requires PagesOk(pages, live) && g.objSize > 0 && 2 <= g.slots <= 64 && g.base > 0
    requires (forall k: nat :: k in g.free <==> k < g.slots) && Unused(pages, live, g.base, PageEnd(g))
    ensures PagesOk(pages + [g], live)
  {
    hide Addr, PageEnd;
    var pages' := pages + [g];
    var n := |pages|;
    forall q | 0 <= q < |pages'| ensures PageOk(pages', live, q) {
      if q < n {
        assert PageOk(pages, live, q);
      } else {
        forall k | 0 <= k < g.slots ensures !TakenBy(live, Addr(g, k), n) {
          if Addr(g, k) in live { assert ObjOk(pages, live, Addr(g, k)); }
        }
      }
    }
    forall d | d in live ensures ObjOk(pages', live, d) { assert ObjOk(pages, live, d); }
  }

  /** `[lo, hi)` meets neither a page nor an object allocated on its own. */
  ghost predicate Unused(pages: seq<Page>, live: map<nat, Obj>, lo: int, hi: int) {
    && (forall p :: 0 <= p < |pages| ==> Apart(pages[p].base, PageEnd(pages[p]), lo, hi))
    && (forall d :: Alone(live, d) ==> Apart(d, d + live[d].size, lo, hi))
  }

  lemma AddAlone(pages: seq<Page>, live: map<nat, Obj>, o: Obj)
    requires PagesOk(pages, live) && o.page == -1 && o.size > 0 && o.dev > 0 && Unused(pages, live, o.dev, o.dev + o.size)
    ensures o.dev !in live && PagesOk(pages, live[o.dev := o])
  {
    hide Addr, PageEnd;
    if o.dev in live { NotInUnused(pages, live, o.dev, o.dev, o.dev + o.size); }
    var live' := live[o.dev := o];
    forall q | 0 <= q < |pages| ensures PageOk(pages, live', q) {
      assert PageOk(pages, live, q);
      forall k | 0 <= k < pages[q].slots ensures TakenBy(live', Addr(pages[q], k), q) <==> TakenBy(live, Addr(pages[q], k), q) { }
    }
    forall d | d in live' ensures ObjOk(pages, live', d) { if d != o.dev { assert ObjOk(pages, live, d); } }
    forall d | Alone(live', d) && d != o.dev ensures Alone(live, d) { }
  }

  lemma DropAlone(pages: seq<Page>, live: map<nat, Obj>, d: nat)
    requires PagesOk(pages, live) && d in live && live[d].page == -1
    ensures PagesOk(pages, live - {d})
  {
    hide Addr, PageEnd;
    var live' := live - {d};
    forall q | 0 <= q < |pages| ensures PageOk(pages, live', q) {
      assert PageOk(pages, live, q);
      forall k | 0 <= k < pages[q].slots ensures TakenBy(live', Addr(pages[q], k), q) <==> TakenBy(live, Addr(pages[q], k), q) { }
    }
    forall e | e in live' ensures ObjOk(pages, live', e) { assert ObjOk(pages, live, e); }
    forall e | Alone(live', e) ensures Alone(live, e) { }
  }

  /** The slot number that `ncclShadowPoolFree` computes from the address. */
  lemma SlotOf(pages: seq<Page>, live: map<nat, Obj>, d: nat) returns (k: nat)
    requires PagesOk(pages, live) && d in live && live[d].page != -1
    ensures 0 <= live[d].page < |pages|
    ensures var g := pages[live[d].page];
            g.objSize > 0 && g.base <= d && k == (d - g.base) / g.objSize && IsSlot(g, d, k) && k !in g.free
  {
    assert ObjOk(pages, live, d);
    var p := live[d].page;
    var g := pages[p];
    assert PageOk(pages, live, p);
    k :| IsSlot(g, d, k);
    SlotInside(g, k);
    DivModUnique(d - g.base, g.objSize, k, 0);
    assert TakenBy(live, Addr(g, k), p);
  }

  lemma DropSlot(pages: seq<Page>, live: map<nat, Obj>, d: nat, k: nat)
    requires PagesOk(pages, live) && d in live && 0 <= live[d].page < |pages| && IsSlot(pages[live[d].page], d, k)
    ensures var p := live[d].page;
            PagesOk(pages[p := pages[p].(free := pages[p].free + {k})], live - {d})
  {
    hide Addr, PageEnd;
    var p := live[d].page;
    var g := pages[p];
    var g' := g.(free := g.free + {k});
    var pages', live' := pages[p := g'], live - {d};
    AddrSame(pages, p, g'.free);
    forall q | 0 <= q < |pages'| ensures PageOk(pages', live', q) {
      assert PageOk(pages, live, q);
      if q == p {
        forall j | 0 <= j < g.slots ensures j in g'.free <==> !TakenBy(live', Addr(g', j), p) {
          assert Addr(g', j) == Addr(pages'[p], j) == Addr(g, j);
          if j < k { SlotsApart(g, j, k); } else if k < j { SlotsApart(g, k, j); }
        }
      } else {
        forall j | 0 <= j < pages[q].slots ensures TakenBy(live', Addr(pages[q], j), q) <==> TakenBy(live, Addr(pages[q], j), q) { }
      }
    }
    forall e | e in live' ensures ObjOk(pages', live', e) {
      assert ObjOk(pages, live, e);
      SameSlots(pages, pages', live[e]);
    }
    forall e | Alone(live', e) ensures Alone(live, e) { }
  }

  // ---------------------------------------------------------------------------
  // The list

  /** A page that gains its first free slot goes to the front. */
  lemma ListPush(pages: seq<Page>, next: seq<int>, head: int, listed: seq<int>, p: int, g: Page)
    requires ListOk(pages, next, head, listed) && 0 <= p < |pages| && pages[p].free == {} && g.free != {}
    ensures ListOk(pages[p := g], next[p := head], p, [p] + listed)
  {
    hide Linked;
    PushLinked(next, p, head, listed);
    DistinctJoin([p], listed);
  }

  /** A new page at the end of the array goes to the front of the list. */
  lemma ListNew(pages: seq<Page>, next: seq<int>, head: int, listed: seq<int>, g: Page)
    requires ListOk(pages, next, head, listed) && g.free != {}
    ensures ListOk(pages + [g], next + [head], |pages|, [|pages|] + listed)
  {
    var n := |pages|;
    forall i | 0 <= i < |listed| ensures 0 <= listed[i] < n && listed[i] != n { }
    assert n !in listed;
    DistinctJoin([n], listed);
    var c := [n] + listed;
    assert forall i :: 1 <= i < |c| ==> c[i] == listed[i - 1];
  }

  /** A page whose last slot is taken leaves the list; `i` is its position. */
  lemma ListUnlink(pages: seq<Page>, next: seq<int>, head: int, listed: seq<int>, i: nat, g: Page)
    requires ListOk(pages, next, head, listed) && i < |listed| && 0 <= listed[i] < |pages| && g.free == {}
    ensures Within(listed, |next|)
    ensures ListOk(pages[listed[i] := g], Relink(next, listed, i, next[listed[i]]), if i == 0 then next[listed[i]] else head,
                   listed[..i] + listed[i + 1..])
  {
    hide Linked, Inner;
    LinkedBounds(next, head, listed);
    LinkDelete(next, head, listed, i);
    Removing(listed, i);
    var pages' := pages[listed[i] := g];
    forall p | 0 <= p < |pages'| ensures p in listed[..i] + listed[i + 1..] <==> pages'[p].free != {} {
      assert p in listed <==> pages[p].free != {};
    }
  }

  lemma ListSame(pages: seq<Page>, next: seq<int>, head: int, listed: seq<int>, p: int, g: Page)
    requires ListOk(pages, next, head, listed) && 0 <= p < |pages| && pages[p].free != {} && g.free != {}
    ensures ListOk(pages[p := g], next, head, listed)
  {
  }
}
