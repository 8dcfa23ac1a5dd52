/** The work list of the proxy progress thread (src/proxy.cc).  Elements are linked two ways:
    `next` links the active list, one element per append pointer, and the free pool;
    `nextPeer` links, behind each active element, those waiting for the same append pointer.
    An append pointer (a "slot" here) names the last element waiting for it. */
module ProxyArgs {
  import opened Links
  import opened Seqs

  datatype Status = None | Ready | Running

  /** `kind` stands for the fields that all subs of one element must share. */
  datatype Op = Op(slot: nat, opCount: nat, shared: bool, kind: int, body: int)

  datatype Elem = Elem(slot: nat, opCount: nat, kind: int, subs: seq<Op>, status: Status)

  datatype Mem = Mem(next: seq<int>, nextPeer: seq<int>, elem: seq<Elem>, active: int, pool: int, append: seq<int>)

  /** What the links stand for: the slots in the order of the active list, the chain of each
      slot, and the free pool. */
  datatype Lists = Lists(order: seq<nat>, chain: seq<seq<int>>, free: seq<int>)

  ghost predicate Listed(g: Lists) {
    && Distinct(g.order)
    && (forall i :: 0 <= i < |g.order| ==> g.order[i] < |g.chain| && g.chain[g.order[i]] != [])
    && (forall s :: 0 <= s < |g.chain| && g.chain[s] != [] ==> s in g.order)
  }

  ghost function Heads(g: Lists): (h: seq<int>)
    requires Listed(g)
    ensures |h| == |g.order| && forall i :: 0 <= i < |h| ==> h[i] == g.chain[g.order[i]][0]
  {
    seq(|g.order|, i requires 0 <= i < |g.order| => g.chain[g.order[i]][0])
  }

  /** The chain of slot `s`; its append pointer is null iff it is empty and else its last. */
  ghost predicate ChainOk(m: Mem, g: Lists, s: nat)
    requires s < |g.chain| && |m.append| == |g.chain|
  {
    && Linked(m.nextPeer, Head(g.chain[s]), g.chain[s]) && Distinct(g.chain[s])
    && Within(g.chain[s], |m.elem|)
    && m.append[s] == (if g.chain[s] == [] then -1 else g.chain[s][|g.chain[s]| - 1])
    && forall i :: 0 <= i < |g.chain[s]| ==> m.elem[g.chain[s][i]].slot == s
  }

  ghost predicate Placed(m: Mem, g: Lists, loose: set<int>, x: nat)
    requires x < |m.elem|
  {
    var inChain := m.elem[x].slot < |g.chain| && x in g.chain[m.elem[x].slot];
    && (x in g.free || inChain || x in loose)
    && !(x in g.free && inChain) && !(x in g.free && x in loose) && !(inChain && x in loose)
  }

  /** The links represent the lists; each element is in the free pool, in one chain, or one of
      the `loose` ones being worked on. */
  ghost predicate Good(m: Mem, g: Lists, loose: set<int>) {
    && |m.next| == |m.nextPeer| == |m.elem| && |m.append| == |g.chain| && Listed(g)
    && Linked(m.next, m.active, Heads(g))
    && Linked(m.next, m.pool, g.free) && Distinct(g.free)
    && (forall s :: 0 <= s < |g.chain| ==> ChainOk(m, g, s))
    && (forall x :: 0 <= x < |m.elem| ==> Placed(m, g, loose, x))
  }

  /** The operations held by the elements of a chain, in order. */
  ghost function Contents(elem: seq<Elem>, c: seq<int>): seq<Op>
    requires Within(c, |elem|)
  {
    if c == [] then [] else elem[c[0]].subs + Contents(elem, c[1..])
  }

  // ---------------------------------------------------------------------------
  // Facts about the lists

  lemma InChain(m: Mem, g: Lists, loose: set<int>, s: nat, x: int)
    requires Good(m, g, loose) && s < |g.chain| && x in g.chain[s]
    ensures 0 <= x < |m.elem| && m.elem[x].slot == s && x !in g.free && x !in loose
    ensures forall s' :: 0 <= s' < |g.chain| && s' != s ==> x !in g.chain[s']
  {
    hide Linked, Heads;
    assert ChainOk(m, g, s);
    var i :| 0 <= i < |g.chain[s]| && g.chain[s][i] == x;
    assert Placed(m, g, loose, x);
    forall s' | 0 <= s' < |g.chain| && s' != s ensures x !in g.chain[s'] {
      assert ChainOk(m, g, s');
    }
  }

  lemma HeadAt(m: Mem, g: Lists, loose: set<int>, i: nat)
    requires Good(m, g, loose) && i < |g.order|
    ensures var s, x := g.order[i], Heads(g)[i];
            && s < |g.chain| && g.chain[s] != [] && x == g.chain[s][0]
            && 0 <= x < |m.elem| && m.elem[x].slot == s && x !in g.free && x !in loose
  {
    InChain(m, g, loose, g.order[i], Heads(g)[i]);
  }

  lemma HeadsDistinct(m: Mem, g: Lists, loose: set<int>)
    requires Good(m, g, loose)
    ensures Distinct(Heads(g)) && Within(Heads(g), |m.elem|)
    ensures forall x :: x in Heads(g) ==> x !in g.free && x !in loose
  {
    hide Linked, ChainOk, Placed;
    forall i | 0 <= i < |g.order| ensures 0 <= Heads(g)[i] < |m.elem| { HeadAt(m, g, loose, i); }
    forall i, j | 0 <= i < j < |g.order| ensures Heads(g)[i] != Heads(g)[j] {
      HeadAt(m, g, loose, i);
      HeadAt(m, g, loose, j);
    }
    forall x | x in Heads(g) ensures x !in g.free && x !in loose {
      var i :| 0 <= i < |Heads(g)| && Heads(g)[i] == x;
      HeadAt(m, g, loose, i);
    }
  }

  lemma FreeOrLoose(m: Mem, g: Lists, loose: set<int>, x: int)
    requires Good(m, g, loose) && (x in g.free || x in loose) && 0 <= x < |m.elem|
    ensures forall s :: 0 <= s < |g.chain| ==> x !in g.chain[s]
    ensures x !in Heads(g)
  {
    hide Linked, ChainOk, Placed;
    forall s | 0 <= s < |g.chain| ensures x !in g.chain[s] {
      if x in g.chain[s] { InChain(m, g, loose, s, x); }
    }
  }

  /** Every element is in the free pool or in a chain, never both and never in two chains,
      and each list holds it once. */
  lemma OneHome(m: Mem, g: Lists, x: int)
    requires Good(m, g, {}) && 0 <= x < |m.elem|
    ensures x in g.free <==> forall s :: 0 <= s < |g.chain| ==> x !in g.chain[s]
    ensures forall s, s' :: 0 <= s < |g.chain| && 0 <= s' < |g.chain| && x in g.chain[s] && x in g.chain[s'] ==> s == s'
    ensures Distinct(g.free) && forall s :: 0 <= s < |g.chain| ==> Distinct(g.chain[s])
  {
    hide Linked, Heads;
    assert Placed(m, g, {}, x);
    if x in g.free { FreeOrLoose(m, g, {}, x); }
    forall s | 0 <= s < |g.chain| && x in g.chain[s] ensures s == m.elem[x].slot { InChain(m, g, {}, s, x); }
    forall s | 0 <= s < |g.chain| ensures Distinct(g.chain[s]) { assert ChainOk(m, g, s); }
  }

  // ---------------------------------------------------------------------------
  // The links after each change

  /** A chain that the change leaves alone. */
  lemma ChainSame(m: Mem, m': Mem, g: Lists, g': Lists, s: nat)
    requires s < |g.chain| && |m.append| == |g.chain| && ChainOk(m, g, s)
    requires s < |g'.chain| && |m'.append| == |g'.chain| && g'.chain[s] == g.chain[s] && m'.append[s] == m.append[s]
    requires Linked(m'.nextPeer, Head(g.chain[s]), g.chain[s]) && |m'.elem| >= |m.elem|
    requires forall x :: x in g.chain[s] && 0 <= x < |m.elem| ==> m'.elem[x].slot == m.elem[x].slot
    ensures ChainOk(m', g', s)
  {
    hide Linked;
  }

  /** A loose element becomes the last of a chain that is not empty. */
  lemma ExtendChain(m: Mem, g: Lists, loose: set<int>, s: nat, e: int, el: Elem)
    requires Good(m, g, loose) && s < |g.chain| && g.chain[s] != [] && e in loose && 0 <= e < |m.elem|
    requires el.slot == s && m.nextPeer[e] == -1
    ensures 0 <= m.append[s] < |m.nextPeer|
    ensures Good(m.(elem := m.elem[e := el], nextPeer := m.nextPeer[m.append[s] := e], append := m.append[s := e]),
                 g.(chain := g.chain[s := g.chain[s] + [e]]), loose - {e})
  {
    hide Linked, Inner;
    assert ChainOk(m, g, s);
    var c, last := g.chain[s], m.append[s];
    assert last in c;
    var m' := m.(elem := m.elem[e := el], nextPeer := m.nextPeer[last := e], append := m.append[s := e]);
    var g' := g.(chain := g.chain[s := c + [e]]);
    FreeOrLoose(m, g, loose, e);
    InChain(m, g, loose, s, last);
    ExtendOwn(m, m', g, g', s, e);
    forall s' | 0 <= s' < |g'.chain| ensures ChainOk(m', g', s') {
      assert ChainOk(m, g, s');
      if s' != s {
        LinkedFrame(m.nextPeer, last, e, Head(g.chain[s']), g.chain[s']);
        ChainSame(m, m', g, g', s');
      }
    }
    assert Heads(g') == Heads(g);
    ExtendPlaced(m, m', g, g', loose, s, e);
  }

  lemma ExtendOwn(m: Mem, m': Mem, g: Lists, g': Lists, s: nat, e: int)
    requires s < |g.chain| && |m.append| == |g.chain| && ChainOk(m, g, s) && g.chain[s] != [] && e !in g.chain[s]
    requires |g'.chain| == |g.chain| && |m'.append| == |m.append| && |m'.elem| == |m.elem| && 0 <= e < |m.elem| && 0 <= e < |m.nextPeer|
    requires g'.chain[s] == g.chain[s] + [e] && m'.append[s] == e && m'.elem[e].slot == s
    requires 0 <= m.append[s] < |m.nextPeer| && m'.nextPeer == m.nextPeer[m.append[s] := e] && m.nextPeer[e] == -1
    requires forall x :: 0 <= x < |m.elem| && x != e ==> m'.elem[x] == m.elem[x]
    ensures ChainOk(m', g', s)
  {
    hide Linked, Inner;
    var c := g.chain[s];
    SingleLinked(m.nextPeer, e);
    DistinctJoin(c, [e]);
    LinkJoin(m.nextPeer, Head(c), c, e, [e]);
  }

  /** An element moves from loose into chain `s`; everything else stays where it is. */
  lemma ExtendPlaced(m: Mem, m': Mem, g: Lists, g': Lists, loose: set<int>, s: nat, e: int)
    requires Good(m, g, loose) && s < |g.chain| && e in loose && 0 <= e < |m.elem|
    requires |m'.elem| == |m.elem| && m'.elem[e].slot == s && |g'.chain| == |g.chain| && g'.free == g.free
    requires forall x :: 0 <= x < |m.elem| && x != e ==> m'.elem[x].slot == m.elem[x].slot
    requires forall s' :: 0 <= s' < |g.chain| && s' != s ==> g'.chain[s'] == g.chain[s']
    requires forall x :: x in g'.chain[s] <==> x in g.chain[s] || x == e
    ensures forall x :: 0 <= x < |m'.elem| ==> Placed(m', g', loose - {e}, x)
  {
    hide Linked, Heads, ChainOk;
    forall x | 0 <= x < |m'.elem| ensures Placed(m', g', loose - {e}, x) { assert Placed(m, g, loose, x); }
  }

  /** A loose element becomes the only one of its slot and the last of the active list. */
  lemma NewChain(m: Mem, g: Lists, loose: set<int>, s: nat, e: int, el: Elem, last: int)
    requires Good(m, g, loose) && s < |g.chain| && g.chain[s] == [] && e in loose && 0 <= e < |m.elem|
    requires el.slot == s && m.nextPeer[e] == -1 && m.next[e] == -1
    requires if m.active == -1 then last == e else g.order != [] && last == Heads(g)[|g.order| - 1]
    ensures 0 <= last < |m.next|
    ensures Good(m.(elem := m.elem[e := el], next := m.next[last := if m.active == -1 then -1 else e],
                    active := if m.active == -1 then e else m.active, append := m.append[s := e]),
                 g.(order := g.order + [s], chain := g.chain[s := [e]]), loose - {e})
  {
    hide Linked, Inner, Placed;
    HeadsDistinct(m, g, loose);
    HeadOf(m.next, m.active, Heads(g));
    FreeOrLoose(m, g, loose, e);
    var m' := m.(elem := m.elem[e := el], next := m.next[last := if m.active == -1 then -1 else e],
                 active := if m.active == -1 then e else m.active, append := m.append[s := e]);
    var g' := g.(order := g.order + [s], chain := g.chain[s := [e]]);
    SingleLinked(m.nextPeer, e);
    forall s' | 0 <= s' < |g'.chain| ensures ChainOk(m', g', s') {
      assert ChainOk(m, g, s');
      if s' != s { ChainSame(m, m', g, g', s'); }
    }
    NewListed(g, s, e);
    NewHeads(m, g, e, last);
    assert last !in g.free by {
      if last == e { LooseNotFree(m, g, loose, e); } else { assert Heads(g)[|g.order| - 1] in Heads(g); }
    }
    LinkedFrame(m.next, last, if m.active == -1 then -1 else e, m.pool, g.free);
    ExtendPlaced(m, m', g, g', loose, s, e);
  }

  lemma LooseNotFree(m: Mem, g: Lists, loose: set<int>, e: int)
    requires Good(m, g, loose) && e in loose && 0 <= e < |m.elem|
    ensures e !in g.free
  {
    assert Placed(m, g, loose, e);
  }

  lemma NewListed(g: Lists, s: nat, e: int)
    requires Listed(g) && s < |g.chain| && g.chain[s] == []
    ensures var g' := g.(order := g.order + [s], chain := g.chain[s := [e]]);
            Listed(g') && Heads(g') == Heads(g) + [e]
  {
    assert s !in g.order;
    DistinctJoin(g.order, [s]);
    var g' := g.(order := g.order + [s], chain := g.chain[s := [e]]);
    forall s' | 0 <= s' < |g'.chain| && g'.chain[s'] != [] ensures s' in g'.order {
      if s' == s { assert g'.order[|g.order|] == s; } else { assert s' in g.order; }
    }
    forall i | 0 <= i < |g.order| ensures g'.order[i] < |g'.chain| && g'.chain[g'.order[i]] == g.chain[g.order[i]] {
      assert g.order[i] in g.order;
    }
  }

  lemma NewHeads(m: Mem, g: Lists, e: int, last: int)
    requires Listed(g) && Linked(m.next, m.active, Heads(g)) && Distinct(Heads(g)) && e !in Heads(g)
    requires 0 <= e < |m.next| && m.next[e] == -1
    requires if Heads(g) == [] then last == e else last == Heads(g)[|Heads(g)| - 1]
    ensures 0 <= last < |m.next|
    ensures if Heads(g) == [] then Linked(m.next[last := -1], e, Heads(g) + [e])
            else Linked(m.next[last := e], m.active, Heads(g) + [e])
  {
    hide Linked, Inner;
    var h := Heads(g);
    LinkedBounds(m.next, m.active, h);
    SingleLinked(m.next, e);
    if h == [] {
      assert h + [e] == [e] && m.next[last := -1] == m.next;
    } else {
      DistinctJoin(h, [e]);
      LinkJoin(m.next, m.active, h, e, [e]);
    }
  }

  /** A loose element goes back to the front of the free pool. */
  lemma PushFree(m: Mem, g: Lists, loose: set<int>, x: int)
    requires Good(m, g, loose) && x in loose && 0 <= x < |m.elem|
    ensures Good(m.(next := m.next[x := m.pool], pool := x), g.(free := [x] + g.free), loose - {x})
  {
    hide Linked, Inner, ChainOk;
    FreeOrLoose(m, g, loose, x);
    LooseNotFree(m, g, loose, x);
    PushLinked(m.next, x, m.pool, g.free);
    LinkedFrame(m.next, x, m.pool, m.active, Heads(g));
    DistinctJoin([x], g.free);
    var m', g' := m.(next := m.next[x := m.pool], pool := x), g.(free := [x] + g.free);
    assert Heads(g') == Heads(g);
    forall s | 0 <= s < |g'.chain| ensures ChainOk(m', g', s) {
      assert ChainOk(m, g, s);
      SameChain(m, m', g, g', s);
    }
    forall z | 0 <= z < |m'.elem| ensures Placed(m', g', loose - {x}, z) { assert Placed(m, g, loose, z); }
  }

  lemma SameChain(m: Mem, m': Mem, g: Lists, g': Lists, s: nat)
    requires s < |g.chain| && |m.append| == |g.chain| && ChainOk(m, g, s)
    requires m'.nextPeer == m.nextPeer && m'.elem == m.elem && m'.append == m.append && g'.chain == g.chain
    ensures ChainOk(m', g', s)
  {
  }

  /** An element leaves chain `s` and becomes loose. */
  lemma LeavePlaced(m: Mem, m': Mem, g: Lists, g': Lists, loose: set<int>, s: nat, x: int)
    requires Good(m, g, loose) && s < |g.chain| && x in g.chain[s]
    requires m'.elem == m.elem && |g'.chain| == |g.chain| && g'.free == g.free
    requires forall s' :: 0 <= s' < |g.chain| && s' != s ==> g'.chain[s'] == g.chain[s']
    requires forall z :: z in g'.chain[s] <==> z in g.chain[s] && z != x
    ensures forall z :: 0 <= z < |m'.elem| ==> Placed(m', g', loose + {x}, z)
  {
    hide Linked, Heads, ChainOk;
    InChain(m, g, loose, s, x);
    forall z | 0 <= z < |m'.elem| ensures Placed(m', g', loose + {x}, z) { assert Placed(m, g, loose, z); }
  }

  lemma DropFirst(c: seq<int>)
    requires Distinct(c) && c != []
    ensures forall z :: z in c[1..] <==> z in c && z != c[0]
    ensures Distinct(c[1..])
  {
    forall z | z in c && z != c[0] ensures z in c[1..] {
      var i :| 0 <= i < |c| && c[i] == z;
      assert c[1..][i - 1] == z;
    }
  }

  /** The chain without its head. */
  lemma TailOk(m: Mem, m': Mem, g: Lists, g': Lists, s: nat)
    requires s < |g.chain| && |m.append| == |g.chain| && ChainOk(m, g, s) && g.chain[s] != []
    requires |m'.append| == |g'.chain| == |g.chain| && m'.nextPeer == m.nextPeer && m'.elem == m.elem
    requires g'.chain[s] == g.chain[s][1..] && m'.append[s] == if |g.chain[s]| == 1 then -1 else m.append[s]
    ensures ChainOk(m', g', s)
  {
    hide Linked, Inner;
    var c := g.chain[s];
    LinkTail(m.nextPeer, Head(c), c);
    ChainFirst(m.nextPeer, c);
    HeadOf(m.nextPeer, m.nextPeer[c[0]], c[1..]);
    DropFirst(c);
  }

  /** `removeOp` on an element with another one waiting behind it: the latter takes its place. */
  lemma ReplaceHead(m: Mem, g: Lists, loose: set<int>, i: nat)
    requires Good(m, g, loose) && i < |g.order| && |g.chain[g.order[i]]| > 1
    ensures var s := g.order[i];
            var x, y := g.chain[s][0], g.chain[s][1];
            && 0 <= x < |m.next| && 0 <= y < |m.next| && m.nextPeer[x] == y && Within(Heads(g), |m.next|)
            && Good(m.(next := Relink(m.next, Heads(g), i, y)[y := m.next[x]], active := if i == 0 then y else m.active),
                    g.(chain := g.chain[s := g.chain[s][1..]]), loose + {x})
  {
    hide Linked, Inner, Placed;
    var s := g.order[i];
    var c, h := g.chain[s], Heads(g);
    var x, y := c[0], c[1];
    HeadsDistinct(m, g, loose);
    HeadAt(m, g, loose, i);
    assert x in c && y in c;
    InChain(m, g, loose, s, y);
    var m' := m.(next := Relink(m.next, h, i, y)[y := m.next[x]], active := if i == 0 then y else m.active);
    var g' := g.(chain := g.chain[s := c[1..]]);
    SecondIsNoHead(m, g, loose, i);
    LinkReplace(m.next, m.active, h, i, y);
    ReplaceListed(g, i);
    FreeApart(m, g, loose, i, y, m.next[x]);
    forall s' | 0 <= s' < |g'.chain| ensures ChainOk(m', g', s') {
      assert ChainOk(m, g, s');
      if s' == s { TailOk(m, m', g, g', s); } else { ChainSame(m, m', g, g', s'); }
    }
    assert ChainOk(m, g, s);
    ChainFirst(m.nextPeer, c);
    DropFirst(c);
    LeavePlaced(m, m', g, g', loose, s, x);
  }

  lemma ChainFirst(next: seq<int>, c: seq<int>)
    requires Linked(next, Head(c), c) && c != []
    ensures 0 <= c[0] < |next| && next[c[0]] == if |c| > 1 then c[1] else -1
  {
  }

  lemma SecondIsNoHead(m: Mem, g: Lists, loose: set<int>, i: nat)
    requires Good(m, g, loose) && i < |g.order| && |g.chain[g.order[i]]| > 1
    ensures g.chain[g.order[i]][1] !in Heads(g)
  {
    hide Linked, Placed;
    var y := g.chain[g.order[i]][1];
    assert y in g.chain[g.order[i]];
    InChain(m, g, loose, g.order[i], y);
    forall j | 0 <= j < |g.order| ensures Heads(g)[j] != y {
      HeadAt(m, g, loose, j);
      assert ChainOk(m, g, g.order[i]);
    }
  }

  lemma ReplaceListed(g: Lists, i: nat)
    requires Listed(g) && i < |g.order| && |g.chain[g.order[i]]| > 1
    ensures var g' := g.(chain := g.chain[g.order[i] := g.chain[g.order[i]][1..]]);
            Listed(g') && Heads(g') == Heads(g)[i := g.chain[g.order[i]][1]]
  {
  }

  /** The links written for position `i` of the active list are not in the free pool. */
  lemma FreeApart(m: Mem, g: Lists, loose: set<int>, i: nat, y: int, v: int)
    requires Good(m, g, loose) && i < |g.order| && 0 <= y < |m.next| && y !in g.free && Within(Heads(g), |m.next|)
    ensures forall w :: Linked(Relink(m.next, Heads(g), i, w)[y := v], m.pool, g.free)
    ensures forall w :: Linked(Relink(m.next, Heads(g), i, w), m.pool, g.free)
  {
    hide Linked, Inner, Placed, ChainOk;
    HeadsDistinct(m, g, loose);
    forall w ensures Linked(Relink(m.next, Heads(g), i, w), m.pool, g.free) {
      if i > 0 {
        assert Heads(g)[i - 1] in Heads(g);
        LinkedFrame(m.next, Heads(g)[i - 1], w, m.pool, g.free);
      }
    }
    forall w ensures Linked(Relink(m.next, Heads(g), i, w)[y := v], m.pool, g.free) {
      LinkedFrame(Relink(m.next, Heads(g), i, w), y, v, m.pool, g.free);
    }
  }

  /** `removeOp` on the only element of its slot: it leaves the active list. */
  lemma DropHead(m: Mem, g: Lists, loose: set<int>, i: nat)
    requires Good(m, g, loose) && i < |g.order| && |g.chain[g.order[i]]| == 1
    ensures var s := g.order[i];
            var x := g.chain[s][0];
            && 0 <= x < |m.next| && m.nextPeer[x] == -1 && Within(Heads(g), |m.next|)
            && Good(m.(next := Relink(m.next, Heads(g), i, m.next[x]), active := if i == 0 then m.next[x] else m.active,
                       append := m.append[s := -1]),
                    g.(order := g.order[..i] + g.order[i + 1..], chain := g.chain[s := []]), loose + {x})
  {
    hide Linked, Inner, Placed;
    var s := g.order[i];
    var c, h := g.chain[s], Heads(g);
    var x := c[0];
    HeadsDistinct(m, g, loose);
    HeadAt(m, g, loose, i);
    assert x in c && c[1..] == [];
    var m' := m.(next := Relink(m.next, h, i, m.next[x]), active := if i == 0 then m.next[x] else m.active,
                 append := m.append[s := -1]);
    var g' := g.(order := g.order[..i] + g.order[i + 1..], chain := g.chain[s := []]);
    LinkDelete(m.next, m.active, h, i);
    DropListed(g, i);
    FreeApart(m, g, loose, i, x, m.next[x]);
    forall s' | 0 <= s' < |g'.chain| ensures ChainOk(m', g', s') {
      assert ChainOk(m, g, s');
      if s' == s { TailOk(m, m', g, g', s); } else { ChainSame(m, m', g, g', s'); }
    }
    assert ChainOk(m, g, s);
    ChainFirst(m.nextPeer, c);
    DropFirst(c);
    LeavePlaced(m, m', g, g', loose, s, x);
  }

  /** The order without its `i`-th slot, whose chain is now empty. */
  ghost function Dropped(g: Lists, i: nat): Lists
    requires i < |g.order| && g.order[i] < |g.chain|
  {
    g.(order := g.order[..i] + g.order[i + 1..], chain := g.chain[g.order[i] := []])
  }

  lemma DropListed(g: Lists, i: nat)
    requires Listed(g) && i < |g.order|
    ensures Listed(Dropped(g, i)) && Heads(Dropped(g, i)) == Heads(g)[..i] + Heads(g)[i + 1..]
  {
    var o, g' := g.order, Dropped(g, i);
    Removing(o, i);
    forall j | 0 <= j < |g'.order| ensures g'.order[j] < |g'.chain| && g'.chain[g'.order[j]] == g.chain[o[if j < i then j else j + 1]] != [] {
      assert g'.order[j] in g'.order;
    }
    assert Listed(g');
    DropHeads(g, i);
  }

  lemma DropHeads(g: Lists, i: nat)
    requires Listed(g) && i < |g.order| && Listed(Dropped(g, i))
    ensures Heads(Dropped(g, i)) == Heads(g)[..i] + Heads(g)[i + 1..]
  {
    var o, h, h' := g.order, Heads(g), Heads(Dropped(g, i));
    forall j | 0 <= j < |h'| ensures h'[j] == h[if j < i then j else j + 1] {
      var j' := if j < i then j else j + 1;
      assert Dropped(g, i).order[j] == o[j'] != o[i];
    }
  }

  /** A new block of `k` elements fills the empty pool. */
  lemma GrowPool(m: Mem, m': Mem, g: Lists, k: nat)
    requires Good(m, g, {}) && g.free == [] && k > 0
    requires m.next <= m'.next && m.nextPeer <= m'.nextPeer && m.elem <= m'.elem
    requires |m'.next| == |m'.nextPeer| == |m'.elem| == |m.elem| + k && m'.pool == |m.elem|
    requires forall i :: |m.elem| <= i < |m'.next| ==> m'.next[i] == if i == |m'.next| - 1 then -1 else i + 1
    requires m'.active == m.active && m'.append == m.append
    ensures Good(m', g.(free := seq(k, i => |m.elem| + i)), {})
  {
    var n := |m.elem|;
    var g' := g.(free := seq(k, i => n + i));
    assert Heads(g') == Heads(g);
    forall s | 0 <= s < |g'.chain| ensures ChainOk(m', g', s) {
      assert ChainOk(m, g, s);
    }
    forall x | 0 <= x < |m'.elem| ensures Placed(m', g', {}, x) { GrowPlaces(m, m', g, g', x); }
  }

  lemma GrowPlaces(m: Mem, m': Mem, g: Lists, g': Lists, x: nat)
    requires Good(m, g, {}) && g.free == [] && m.elem <= m'.elem && x < |m'.elem|
    requires g' == g.(free := seq(|m'.elem| - |m.elem|, i => |m.elem| + i))
    ensures Placed(m', g', {}, x)
  {
    hide Linked;
    var n := |m.elem|;
    if x < n {
      assert Placed(m, g, {}, x);
    } else {
      assert g'.free[x - n] == x;
      if m'.elem[x].slot < |g.chain| { assert ChainOk(m, g, m'.elem[x].slot); }
    }
  }

  lemma TakeFree(m: Mem, g: Lists)
    requires Good(m, g, {}) && g.free != []
    ensures var x := g.free[0];
            && 0 <= x < |m.next| && m.pool == x
            && Good(m.(pool := m.next[x], next := m.next[x := -1], nextPeer := m.nextPeer[x := -1]),
                    g.(free := g.free[1..]), {x})
  {
    hide Inner;
    var x := g.free[0];
    assert x in g.free;
    ChainFirst(m.next, g.free);
    FreeOrLoose(m, g, {}, x);
    DropFirst(g.free);
    LinkTail(m.next, m.pool, g.free);
    LinkedFrame(m.next, x, -1, m.next[x], g.free[1..]);
    LinkedFrame(m.next, x, -1, m.active, Heads(g));
    var m' := m.(pool := m.next[x], next := m.next[x := -1], nextPeer := m.nextPeer[x := -1]);
    var g' := g.(free := g.free[1..]);
    assert Heads(g') == Heads(g);
    TakeRest(m, m', g, g', x);
  }

  lemma TakeRest(m: Mem, m': Mem, g: Lists, g': Lists, x: int)
    requires Good(m, g, {}) && x in g.free && 0 <= x < |m.elem| && (forall s :: 0 <= s < |g.chain| ==> x !in g.chain[s])
    requires m' == m.(pool := m'.pool, next := m'.next, nextPeer := m.nextPeer[x := -1]) && g' == g.(free := g'.free)
    requires forall z :: z in g'.free <==> z in g.free && z != x
    ensures forall s :: 0 <= s < |g'.chain| ==> ChainOk(m', g', s)
    ensures forall z :: 0 <= z < |m'.elem| ==> Placed(m', g', {x}, z)
  {
    hide Linked, Inner, Heads, Listed;
    forall s | 0 <= s < |g'.chain| ensures ChainOk(m', g', s) {
      assert ChainOk(m, g, s);
      LinkedFrame(m.nextPeer, x, -1, Head(g.chain[s]), g.chain[s]);
      ChainSame(m, m', g, g', s);
    }
    forall z | 0 <= z < |m'.elem| ensures Placed(m', g', {x}, z) { assert Placed(m, g, {}, z); }
  }

  // ---------------------------------------------------------------------------
  // Order of execution

  lemma {:induction false} ContentsConcat(elem: seq<Elem>, a: seq<int>, b: seq<int>)
    requires Within(a, |elem|) && Within(b, |elem|)
    ensures Contents(elem, a + b) == Contents(elem, a) + Contents(elem, b)
  {
    if a == [] {
      assert a + b == b;
    } else {
      ContentsConcat(elem, a[1..], b);
      assert (a + b)[1..] == a[1..] + b;
    }
  }

  lemma {:induction false} ContentsFrame(elem: seq<Elem>, x: int, el: Elem, c: seq<int>)
    requires Within(c, |elem|) && 0 <= x < |elem| && (x in c ==> el.subs == elem[x].subs)
    ensures Contents(elem[x := el], c) == Contents(elem, c)
  {
    if c != [] { ContentsFrame(elem, x, el, c[1..]); }
  }

  lemma {:induction false} ContentsGrow(elem: seq<Elem>, elem': seq<Elem>, c: seq<int>)
    requires Within(c, |elem|) && elem <= elem'
    ensures Contents(elem', c) == Contents(elem, c)
  {
    if c != [] { ContentsGrow(elem, elem', c[1..]); }
  }

  /** One more sub in the last element of a chain. */
  lemma ContentsAdd(elem: seq<Elem>, c: seq<int>, el: Elem, op: Op)
    requires Within(c, |elem|) && c != [] && Distinct(c) && el.subs == elem[c[|c| - 1]].subs + [op]
    ensures Contents(elem[c[|c| - 1] := el], c) == Contents(elem, c) + [op]
  {
    var x, front := c[|c| - 1], c[..|c| - 1];
    assert c == front + [x];
    DistinctParts(front, [x]);
    ContentsConcat(elem, front, [x]);
    ContentsConcat(elem[x := el], front, [x]);
    ContentsFrame(elem, x, el, front);
    assert [x][1..] == [];
  }

  /** For every slot: the operations of finished elements, then those in its chain, are those
      appended, in order. */
  ghost predicate InOrder(elem: seq<Elem>, chain: seq<seq<int>>, appended: seq<seq<Op>>, finished: seq<seq<Op>>) {
    && |appended| == |finished| == |chain|
    && forall s :: 0 <= s < |chain| ==> Within(chain[s], |elem|) && appended[s] == finished[s] + Contents(elem, chain[s])
  }

  /** No element of a chain is idle, except perhaps `x`. */
  ghost predicate Alive(elem: seq<Elem>, chain: seq<seq<int>>, x: int) {
    forall s, i :: 0 <= s < |chain| && 0 <= i < |chain[s]| && chain[s][i] != x ==>
      0 <= chain[s][i] < |elem| && elem[chain[s][i]].status != None
  }

  // ---------------------------------------------------------------------------
  // The progress thread's state

  /** `op` became the last sub-operation of `x` and nothing else changed. */
  ghost predicate Joined(elem: seq<Elem>, elem': seq<Elem>, x: int, op: Op) {
    0 <= x < |elem| && elem' == elem[x := elem[x].(subs := elem[x].subs + [op])]
  }

  /** `op` is alone in a new last element of its slot's chain. */
  ghost predicate StartsNew(chain: seq<seq<int>>, chain': seq<seq<int>>, elem: seq<Elem>, op: Op) {
    exists e: int :: 0 <= e < |elem| && elem[e] == Elem(op.slot, op.opCount, op.kind, [op], Ready) &&
                     op.slot < |chain| && chain' == chain[op.slot := chain[op.slot] + [e]]
  }

  /** The progress functions of `ran` have set the statuses of their elements, and nothing else
      changed. */
  ghost predicate RanOn(elem: seq<Elem>, elem': seq<Elem>, ran: seq<int>, run: int -> Outcome) {
    |elem| == |elem'| && forall x :: 0 <= x < |elem| ==>
      elem'[x] == elem[x].(status := if x in ran then run(x).status else elem[x].status)
  }

  lemma NoneRan(elem: seq<Elem>, run: int -> Outcome)
    ensures RanOn(elem, elem, [], run)
  {
  }

  lemma OneRan(elem: seq<Elem>, elem': seq<Elem>, ran: seq<int>, run: int -> Outcome, x: int)
    requires RanOn(elem, elem', ran, run) && 0 <= x < |elem'|
    ensures RanOn(elem, elem'[x := elem'[x].(status := run(x).status)], ran + [x], run)
  {
  }

  /** What the transport's progress function does with one element. */
  datatype Outcome = Outcome(status: Status, idle: bool, ok: bool)

  ghost predicate Gone(run: int -> Outcome, x: int) { run(x).status == None || !run(x).ok }

  ghost predicate AllOk(run: int -> Outcome, ran: seq<int>) { forall i :: 0 <= i < |ran| ==> run(ran[i]).ok }

  ghost predicate AllIdle(run: int -> Outcome, ran: seq<int>) { forall i :: 0 <= i < |ran| ==> run(ran[i]).idle }

  lemma OneMore(run: int -> Outcome, ran: seq<int>, x: int)
    ensures AllOk(run, ran + [x]) == (AllOk(run, ran) && run(x).ok)
    ensures AllIdle(run, ran + [x]) == (AllIdle(run, ran) && run(x).idle)
  {
    assert (ran + [x])[|ran|] == x;
    assert forall i :: 0 <= i < |ran| ==> (ran + [x])[i] == ran[i];
  }

  lemma NoneYet(run: int -> Outcome)
    ensures AllOk(run, []) && AllIdle(run, [])
  {
  }

  class Progress {
    const maxSubs: nat
    const block: nat
    var next: seq<int>
    var nextPeer: seq<int>
    var elem: seq<Elem>
    var active: int
    var pool: int
    var append: seq<int>
    ghost var lists: Lists
    ghost var appended: seq<seq<Op>>
    ghost var finished: seq<seq<Op>>

    ghost function Now(): Mem
      reads this
    {
      Mem(next, nextPeer, elem, active, pool, append)
    }

    ghost predicate Consistent()
      reads this
    {
      block > 0 && maxSubs > 0 && Good(Now(), lists, {}) && InOrder(elem, lists.chain, appended, finished)
    }

    ghost predicate Valid()
      reads this
    {
      Consistent() && Alive(elem, lists.chain, -1)
    }

    constructor (slots: nat, maxSubs: nat, block: nat)
      requires maxSubs > 0 && block > 0
      ensures Valid() && |append| == slots && lists == Lists([], seq(slots, _ => []), [])
      ensures appended == finished == seq(slots, _ => [])
    {
      this.maxSubs, this.block := maxSubs, block;
      next, nextPeer, elem, active, pool, append := [], [], [], -1, -1, seq(slots, _ => -1);
      lists := Lists([], seq(slots, _ => []), []);
      appended, finished := seq(slots, _ => []), seq(slots, _ => []);
    }

    /** A new block of elements, chained in order, becomes the pool. */
    method GrowBlock()
      requires Consistent() && pool == -1
      modifies this`next, this`nextPeer, this`elem, this`pool, this`lists
      ensures Good(Now(), lists, {}) && lists.order == old(lists.order) && lists.chain == old(lists.chain)
      ensures old(elem) <= elem && |elem| == |old(elem)| + block && pool == |old(elem)|
    {
      hide Good;
      ghost var m0, g0 := Now(), lists;
      GoodSizes(m0, g0, {});
      PoolHead(m0, g0, {});
      var links, i, n := [], 0, |elem|;
      while i < block
        invariant i <= block && |links| == i
        invariant forall j :: 0 <= j < i ==> links[j] == if j + 1 < block then n + j + 1 else -1
      {
        links := links + [if i + 1 < block then n + i + 1 else -1];
        i := i + 1;
      }
      next, nextPeer := next + links, nextPeer + seq(block, _ => -1);
      elem := elem + seq(block, _ => Elem(0, 0, 0, [], None));
      pool := n;
      lists := lists.(free := seq(block, i => n + i));
      GrowPool(m0, Now(), g0, block);
    }

    /** Takes an element from the pool, which gets a new block of elements when it is empty. */
    method AllocateArgs() returns (e: int)
      requires Consistent()
      modifies this`next, this`nextPeer, this`elem, this`pool, this`lists
      ensures Good(Now(), lists, {e}) && lists.order == old(lists.order) && lists.chain == old(lists.chain)
      ensures 0 <= e < |elem| && next[e] == nextPeer[e] == -1 && old(elem) <= elem
      ensures if old(pool) != -1 then old(lists.free) == [e] + lists.free && elem == old(elem)
              else |elem| == |old(elem)| + block && e == |old(elem)|
    {
      hide Good, Listed;
      PoolHead(Now(), lists, {});
      if pool == -1 { GrowBlock(); }
      PoolHead(Now(), lists, {});
      TakeFree(Now(), lists);
      GoodSizes(Now(), lists, {});
      e := pool;
      pool := next[e];
      next, nextPeer := next[e := -1], nextPeer[e := -1];
      lists := lists.(free := lists.free[1..]);
    }

    /** `ncclProxyOpToArgs` for an operation that joins the last element of its slot. */
    method AddSub(args: int, op: Op) returns (ok: bool)
      requires Valid() && op.slot < |append| && append[op.slot] == args != -1
      modifies this`elem, this`appended
      ensures Valid() && |elem| == |old(elem)| && 0 <= args < |elem|
      ensures ok <==> |old(elem)[args].subs| < maxSubs && old(elem)[args].kind == op.kind && old(elem)[args].status == Ready
      ensures if |old(elem)[args].subs| < maxSubs
              then appended == old(appended)[op.slot := old(appended)[op.slot] + [op]] && Joined(old(elem), elem, args, op)
              else appended == old(appended) && elem == old(elem)
    {
      hide Good, InOrder, Alive, Contents;
      var s := op.slot;
      LastOf(Now(), lists, s);
      OrderSizes(elem, lists.chain, appended, finished);
      ok := false;
      if |elem[args].subs| >= maxSubs { return; }
      var el := elem[args].(subs := elem[args].subs + [op]);
      AddSubKeeps(Now(), lists, appended, finished, s, el, op);
      elem := elem[args := el];
      appended := appended[s := appended[s] + [op]];
      ok := el.kind == op.kind && el.status == Ready;
    }

    /** An operation for which nothing runs yet starts a new entry of the active list. */
    method AppendFirst(op: Op)
      requires Valid() && op.slot < |append| && append[op.slot] == -1
      modifies this
      ensures Valid() && lists.order == old(lists.order) + [op.slot]
      ensures StartsNew(old(lists.chain), lists.chain, elem, op)
      ensures appended == old(appended)[op.slot := old(appended)[op.slot] + [op]] && finished == old(finished)
    {
      hide Good, Heads, Listed, InOrder, Alive, Contents;
      var s := op.slot;
      ghost var elem0 := elem;
      GoodSizes(Now(), lists, {});
      OrderSizes(elem, lists.chain, appended, finished);
      EmptyAt(Now(), lists, s);
      var e := AllocateArgs();
      GoodSizes(Now(), lists, {e});
      var el := Elem(s, op.opCount, op.kind, [op], Ready);
      ghost var m, g := Now(), lists;
      var last := e;
      if active == -1 {
        active := e;
      } else {
        last := LastActive(e);
        next := next[last := e];
      }
      assert m.next[last := if m.active == -1 then -1 else e] == next;
      NewChain(m, g, {e}, s, e, el, last);
      FirstOrder(elem0, m, g, appended, finished, s, e, el, op);
      elem := elem[e := el];
      append := append[s := e];
      appended := appended[s := appended[s] + [op]];
      lists := g.(order := g.order + [s], chain := g.chain[s := [e]]);
      assert old(lists.chain)[s] + [e] == [e] && elem[e] == el;
      assert {e} - {e} == {};
    }

    /** The walk to the end of the active list. */
    method LastActive(ghost e: int) returns (last: int)
      requires Good(Now(), lists, {e}) && active != -1
      ensures lists.order != [] && last == Heads(lists)[|lists.order| - 1] && 0 <= last < |next|
    {
      ghost var h, i := Heads(lists), 0;
      last := active;
      while next[last] != -1
        invariant 0 <= i < |h| && last == h[i]
        invariant i < |h| - 1 ==> next[last] == h[i + 1] && h[i + 1] >= 0
        decreases |h| - i
      {
        last := next[last];
        i := i + 1;
      }
      assert i == |h| - 1;
    }

    /** An operation that must wait goes behind the last element of its slot. */
    method AppendBehind(op: Op)
      requires Valid() && op.slot < |append| && append[op.slot] != -1
      modifies this
      ensures Valid() && lists.order == old(lists.order)
      ensures StartsNew(old(lists.chain), lists.chain, elem, op)
      ensures appended == old(appended)[op.slot := old(appended)[op.slot] + [op]] && finished == old(finished)
    {
      hide Good, InOrder, Alive, Contents;
      var s, prev := op.slot, append[op.slot];
      ghost var elem0 := elem;
      LastOf(Now(), lists, s);
      OrderSizes(elem, lists.chain, appended, finished);
      var e := AllocateArgs();
      var el := Elem(s, op.opCount, op.kind, [op], Ready);
      ghost var m, g := Now(), lists;
      GoodSizes(m, g, {e});
      ExtendChain(m, g, {e}, s, e, el);
      BehindOrder(elem0, m, g, appended, finished, s, e, el, op);
      elem := elem[e := el];
      nextPeer := nextPeer[prev := e];
      append := append[s := e];
      appended := appended[s := appended[s] + [op]];
      lists := g.(chain := g.chain[s := g.chain[s] + [e]]);
      assert {e} - {e} == {};
    }

    /** `ProxyAppend`: an operation joins the last element of its slot if its connection is
        shared and they have one count, waits behind it otherwise, and starts at once if there
        is none. */
    method ProxyAppend(op: Op) returns (ok: bool)
      requires Valid() && op.slot < |append|
      modifies this
      ensures Valid() && finished == old(finished)
      ensures lists.order == old(lists.order) + if old(append)[op.slot] == -1 then [op.slot] else []
      ensures appended == old(appended)[op.slot := old(appended)[op.slot] + [op]] || (!ok && appended == old(appended))
      ensures var last := old(append)[op.slot];
              if last != -1 && op.shared && 0 <= last < |old(elem)| && old(elem)[last].opCount == op.opCount
              then
                && lists == old(lists)
                && (ok <==> |old(elem)[last].subs| < maxSubs && old(elem)[last].kind == op.kind && old(elem)[last].status == Ready)
                && (elem == old(elem) || Joined(old(elem), elem, last, op))
              else
                && ok
                && StartsNew(old(lists.chain), lists.chain, elem, op)
    {
      hide Good, InOrder, Alive, Contents;
      GoodSizes(Now(), lists, {});
      var args := append[op.slot];
      ok := true;
      if args == -1 {
        AppendFirst(op);
      } else {
        LastOf(Now(), lists, op.slot);
        if op.shared && elem[args].opCount == op.opCount {
          ok := AddSub(args, op);
        } else {
          AppendBehind(op);
        }
      }
    }

    /** `removeOp` of the `i`-th element of the active list, with its predecessor in `prev`. */
    method RemoveOp(op: int, prev: int, ghost i: nat) returns (op': int, prev': int)
      requires Consistent() && Listed(lists) && i < |lists.order| && op == Heads(lists)[i] && Alive(elem, lists.chain, op)
      requires prev == if i == 0 then -1 else Heads(lists)[i - 1]
      modifies this
      ensures Valid() && elem == old(elem) && appended == old(appended) && lists.free == [op] + old(lists.free)
      ensures op' == if i + 1 < |old(lists.order)| then old(Heads(lists))[i + 1] else -1
      ensures var s := old(lists.order)[i];
              && 0 <= op < |elem| && s < |old(finished)| && finished == old(finished)[s := old(finished)[s] + elem[op].subs]
              && s < |old(lists.chain)| && RemovedFrom(old(lists), lists, i, s, prev, prev')
    {
      hide Good, Heads, Listed, InOrder, Alive, Contents;
      ghost var m, g := Now(), lists;
      ghost var s := ActiveAt(m, g, i);
      OrderSizes(elem, g.chain, appended, finished);
      RemoveOrder(elem, g.chain, appended, finished, s);
      op' := next[op];
      prev' := prev;
      if nextPeer[op] != -1 {
        ReplaceHead(m, g, {}, i);
        var y := nextPeer[op];
        if prev != -1 { next := next[prev := y]; } else { active := y; }
        next := next[y := op'];
        prev' := y;
        lists := g.(chain := g.chain[s := g.chain[s][1..]]);
      } else {
        DropHead(m, g, {}, i);
        append := append[elem[op].slot := -1];
        if prev != -1 { next := next[prev := op']; } else { active := op'; }
        lists := g.(order := g.order[..i] + g.order[i + 1..], chain := g.chain[s := g.chain[s][1..]]);
      }
      finished := finished[s := finished[s] + elem[op].subs];
      Freed(Now(), lists, op);
      next := next[op := pool];
      pool := op;
      lists := lists.(free := [op] + lists.free);
    }

    /** One pass of the progress thread.  It runs the progress function of exactly the elements
        that head the active list when it starts, in order; those that finish or fail give way
        to the next one of their slot, which is not run in this pass. */
    method ProgressOps(run: int -> Outcome) returns (ok: bool, idle: bool, ran: seq<int>)
      requires Valid() && Listed(lists)
      modifies this
      ensures Valid() && appended == old(appended) && RanOn(old(elem), elem, ran, run) && ran == old(Heads(lists))
      ensures lists.chain == Advanced(old(lists.chain), old(lists.order), run)
      ensures lists.order == Kept(old(lists.order), old(lists.chain), run)
      ensures ok == AllOk(run, ran) && idle == AllIdle(run, ran)
    {
      hide Good, InOrder, Alive, Contents, Turn, Listed, Heads, Advanced, Kept, AllOk, AllIdle, RanOn, Pass;
      ghost var g0, elem0, k := lists, elem, 0;
      ActiveHead(Now(), lists);
      PassStarts(g0, elem, run, active);
      var prev, op := -1, active;
      ok, idle, ran := true, true, [];
      while op != -1
        invariant Valid() && appended == old(appended)
        invariant 0 <= k <= |g0.order| && Pass(g0, elem0, elem, lists, run, k, op, prev, ran, ok, idle)
        decreases |g0.order| - k
      {
        PassTurn(g0, elem0, elem, lists, run, k, op, prev, ran, ok, idle);
        var x, r := op, run(op);
        ghost var was, g, before := elem, lists, prev;
        op, prev := RunOne(run, op, prev, g0, k, elem0, ran);
        PassStep(g0, elem0, was, g, before, elem, lists, run, k, x, op, prev, ran, ok, idle);
        ran, ok, idle := ran + [x], ok && r.ok, idle && r.idle;
        k := k + 1;
      }
      PassEnds(g0, elem0, elem, lists, run, k, prev, ran, ok, idle);
    }

    method RunOne(run: int -> Outcome, op: int, prev: int, ghost g0: Lists, ghost k: nat, ghost elem0: seq<Elem>, ghost ran: seq<int>)
      returns (op': int, prev': int)
      requires Valid() && Listed(g0) && k < |g0.order| && Turn(g0, lists, k, run, op, prev) && RanOn(elem0, elem, ran, run)
      modifies this
      ensures Valid() && appended == old(appended) && RanOn(elem0, elem, ran + [op], run)
      ensures Turn(g0, lists, k + 1, run, op', prev')
      ensures op' == if k + 1 < |g0.order| then Heads(g0)[k + 1] else -1
    {
      hide Good, InOrder, Alive, Contents, Turn, Heads, Listed, Advanced, Kept, RanOn;
      ghost var g := lists;
      ghost var i := NextUp(g0, lists, k, run, op, prev);
      ghost var s := ActiveAt(Now(), lists, i);
      var r := run(op);
      StatusKeeps(Now(), lists, appended, finished, op, r.status);
      OneRan(elem0, elem, ran, run, op);
      elem := elem[op := elem[op].(status := r.status)];
      if r.status == None || !r.ok {
        op', prev' := RemoveOp(op, prev, i);
        GoodSizes(Now(), lists, {});
        TurnGone(g0, g, lists, k, run, i, op, prev, op', prev');
      } else {
        AliveAgain(elem, lists.chain, op);
        op', prev' := next[op], op;
        TurnStays(g0, lists, k, run, i, op, prev, op');
      }
      NextIs(g0, lists, k + 1, run, op', prev');
    }
  }

  // ---------------------------------------------------------------------------
  // One pass

  /** The pass has run the first `k` heads of `g0`, with these results, and is at `op`. */
  ghost predicate Pass(g0: Lists, elem0: seq<Elem>, elem: seq<Elem>, g: Lists, run: int -> Outcome, k: nat, op: int, prev: int,
                       ran: seq<int>, ok: bool, idle: bool)
  {
    && Listed(g0) && k <= |g0.order| && Turn(g0, g, k, run, op, prev) && RanOn(elem0, elem, ran, run)
    && op == (if k < |g0.order| then Heads(g0)[k] else -1) && ran == Heads(g0)[..k]
    && ok == AllOk(run, ran) && idle == AllIdle(run, ran)
    && forall i :: 0 <= i < |g0.order| ==> Heads(g0)[i] >= 0
  }

  lemma PassStarts(g: Lists, elem: seq<Elem>, run: int -> Outcome, op: int)
    requires Listed(g) && op == (if g.order == [] then -1 else Heads(g)[0]) && forall i :: 0 <= i < |g.order| ==> Heads(g)[i] >= 0
    ensures Pass(g, elem, elem, g, run, 0, op, -1, [], true, true)
  {
    hide Turn, Advanced, Kept, Heads, Listed;
    FirstTurn(g, run, op);
    NoneYet(run);
    NoneRan(elem, run);
  }

  lemma PassTurn(g0: Lists, elem0: seq<Elem>, elem: seq<Elem>, g: Lists, run: int -> Outcome, k: nat, op: int, prev: int,
                 ran: seq<int>, ok: bool, idle: bool)
    requires Pass(g0, elem0, elem, g, run, k, op, prev, ran, ok, idle) && op != -1
    ensures Listed(g0) && k < |g0.order| && Turn(g0, g, k, run, op, prev) && RanOn(elem0, elem, ran, run)
  {
    hide Turn, Listed, RanOn;
  }

  lemma PassStep(g0: Lists, elem0: seq<Elem>, was: seq<Elem>, g': Lists, before: int, elem: seq<Elem>, g: Lists, run: int -> Outcome, k: nat,
                 x: int, op: int, prev: int, ran: seq<int>, ok: bool, idle: bool)
    requires Pass(g0, elem0, was, g', run, k, x, before, ran, ok, idle) && x != -1 && k < |g0.order|
    requires Turn(g0, g, k + 1, run, op, prev) && RanOn(elem0, elem, ran + [x], run)
    requires op == if k + 1 < |g0.order| then Heads(g0)[k + 1] else -1
    ensures Pass(g0, elem0, elem, g, run, k + 1, op, prev, ran + [x], ok && run(x).ok, idle && run(x).idle)
  {
    hide Turn, Listed, RanOn, AllOk, AllIdle, Heads;
    OneMore(run, ran, x);
    assert Heads(g0)[..k + 1] == Heads(g0)[..k] + [Heads(g0)[k]];
  }

  lemma PassEnds(g0: Lists, elem0: seq<Elem>, elem: seq<Elem>, g: Lists, run: int -> Outcome, k: nat, prev: int,
                 ran: seq<int>, ok: bool, idle: bool)
    requires Pass(g0, elem0, elem, g, run, k, -1, prev, ran, ok, idle)
    ensures Listed(g0) && ran == Heads(g0) && RanOn(elem0, elem, ran, run) && ok == AllOk(run, ran) && idle == AllIdle(run, ran)
    ensures g.chain == Advanced(g0.chain, g0.order, run) && g.order == Kept(g0.order, g0.chain, run)
  {
    hide Turn, RanOn, AllOk, AllIdle, Advanced, Kept;
    assert k == |g0.order| && Heads(g0)[..k] == Heads(g0);
    LastTurn(g0, g, k, run, -1, prev);
  }

  /** The chain of slot `s` after its head has run. */
  ghost function After(c: seq<int>, run: int -> Outcome): seq<int> {
    if c != [] && Gone(run, c[0]) then c[1..] else c
  }

  /** The chains after the slots in `o` have had their turn. */
  ghost function Advanced(chain: seq<seq<int>>, o: seq<nat>, run: int -> Outcome): seq<seq<int>> {
    seq(|chain|, s requires 0 <= s < |chain| => if s in o then After(chain[s], run) else chain[s])
  }

  /** The slots in `o` that still have something to run. */
  ghost function Kept(o: seq<nat>, chain: seq<seq<int>>, run: int -> Outcome): seq<nat> {
    if o == [] then []
    else
      var s := o[|o| - 1];
      Kept(o[..|o| - 1], chain, run) + if s < |chain| && After(chain[s], run) != [] then [s] else []
  }

  lemma AdvancedStep(chain: seq<seq<int>>, o: seq<nat>, k: nat, run: int -> Outcome)
    requires Distinct(o) && k < |o| && o[k] < |chain|
    ensures Advanced(chain, o[..k + 1], run) == Advanced(chain, o[..k], run)[o[k] := After(chain[o[k]], run)]
  {
    assert o[..k + 1] == o[..k] + [o[k]];
    var a, b := Advanced(chain, o[..k + 1], run), Advanced(chain, o[..k], run)[o[k] := After(chain[o[k]], run)];
    forall s | 0 <= s < |chain| ensures a[s] == b[s] {
      assert s in o[..k + 1] <==> s in o[..k] || s == o[k];
    }
  }

  /** The first `k` entries of the list `g0` have run; `op` is the next one, `prev` the last
      one kept. */
  ghost predicate Turn(g0: Lists, g: Lists, k: nat, run: int -> Outcome, op: int, prev: int) {
    && Listed(g0) && Listed(g) && k <= |g0.order|
    && g.chain == Advanced(g0.chain, g0.order[..k], run)
    && g.order == Kept(g0.order[..k], g0.chain, run) + g0.order[k..]
    && op == (if k < |g0.order| then Heads(g0)[k] else -1)
    && var n := |Kept(g0.order[..k], g0.chain, run)|;
       prev == if n == 0 then -1 else Heads(g)[n - 1]
  }

  lemma FirstTurn(g: Lists, run: int -> Outcome, op: int)
    requires Listed(g) && op == if g.order == [] then -1 else Heads(g)[0]
    ensures Turn(g, g, 0, run, op, -1)
  {
    assert g.order[..0] == [] && [] + g.order[0..] == g.order;
    assert Advanced(g.chain, [], run) == g.chain;
  }

  lemma NextIs(g0: Lists, g: Lists, k: nat, run: int -> Outcome, op: int, prev: int)
    requires Turn(g0, g, k, run, op, prev)
    ensures Listed(g0) && k <= |g0.order| && op == if k < |g0.order| then Heads(g0)[k] else -1
  {
  }

  lemma LastTurn(g0: Lists, g: Lists, k: nat, run: int -> Outcome, op: int, prev: int)
    requires Turn(g0, g, k, run, op, prev) && k == |g0.order|
    ensures g.chain == Advanced(g0.chain, g0.order, run) && g.order == Kept(g0.order, g0.chain, run)
  {
    assert g0.order[..k] == g0.order;
  }

  /** The slot whose turn it is has not been touched yet. */
  lemma NextUp(g0: Lists, g: Lists, k: nat, run: int -> Outcome, op: int, prev: int) returns (i: nat)
    requires Turn(g0, g, k, run, op, prev) && k < |g0.order|
    ensures Listed(g) && i == |Kept(g0.order[..k], g0.chain, run)| < |g.order| && g.order[i] == g0.order[k] < |g0.chain| == |g.chain|
    ensures g.chain[g.order[i]] == g0.chain[g.order[i]] != [] && op == Heads(g)[i] == g.chain[g.order[i]][0]
    ensures prev == if i == 0 then -1 else Heads(g)[i - 1]
  {
    hide Kept, Advanced, Listed;
    var o := g0.order;
    i := |Kept(o[..k], g0.chain, run)|;
    assert g.order[i] == o[k..][0];
    ListedAt(g0, k);
    AdvancedAt(g0.chain, o, k, run);
  }

  lemma KeptStep(o: seq<nat>, chain: seq<seq<int>>, run: int -> Outcome, k: nat)
    requires k < |o| && o[k] < |chain|
    ensures Kept(o[..k + 1], chain, run) == Kept(o[..k], chain, run) + if After(chain[o[k]], run) != [] then [o[k]] else []
  {
    assert o[..k + 1][..k] == o[..k];
  }

  lemma Shift(kept: seq<nat>, o: seq<nat>, k: nat)
    requires k < |o|
    ensures kept + o[k..] == (kept + [o[k]]) + o[k + 1..]
    ensures (kept + o[k..])[..|kept|] == kept && (kept + o[k..])[|kept| + 1..] == o[k + 1..]
    ensures k + 1 < |o| ==> (kept + o[k..])[|kept| + 1] == o[k + 1]
  {
  }

  /** The entry after the current one. */
  lemma Following(g0: Lists, g: Lists, k: nat, run: int -> Outcome, i: nat, op: int, prev: int)
    requires Turn(g0, g, k, run, op, prev) && k < |g0.order| && i == |Kept(g0.order[..k], g0.chain, run)|
    ensures Listed(g0) && Listed(g) && (i + 1 < |g.order| <==> k + 1 < |g0.order|)
    ensures k + 1 < |g0.order| ==> Heads(g)[i + 1] == Heads(g0)[k + 1]
  {
    hide Kept, Advanced, Listed;
    Shift(Kept(g0.order[..k], g0.chain, run), g0.order, k);
    if k + 1 < |g0.order| { LaterHead(g0, g, k, run, i + 1); }
  }

  lemma TurnStays(g0: Lists, g: Lists, k: nat, run: int -> Outcome, i: nat, op: int, prev: int, op': int)
    requires Turn(g0, g, k, run, op, prev) && k < |g0.order| && i == |Kept(g0.order[..k], g0.chain, run)|
    requires !Gone(run, op) && Listed(g) && i < |g.order| && op' == if i + 1 < |g.order| then Heads(g)[i + 1] else -1
    ensures Turn(g0, g, k + 1, run, op', op)
  {
    hide Kept, Advanced, Listed, Gone, Heads;
    var _ := NextUp(g0, g, k, run, op, prev);
    var o, s := g0.order, g.order[i];
    Following(g0, g, k, run, i, op, prev);
    KeptStep(o, g0.chain, run, k);
    Shift(Kept(o[..k], g0.chain, run), o, k);
    ListedDistinct(g0);
    AdvancedStep(g0.chain, o, k, run);
    assert g.chain[s := After(g0.chain[s], run)] == g.chain;
  }

  lemma ListedAt(g: Lists, k: nat)
    requires Listed(g) && k < |g.order|
    ensures Distinct(g.order) && (forall i :: 0 <= i < |g.order| ==> g.order[i] < |g.chain|) && g.chain[g.order[k]] != []
  {
  }

  lemma ListedDistinct(g: Lists)
    requires Listed(g)
    ensures Distinct(g.order)
  {
  }

  lemma TurnGone(g0: Lists, g: Lists, g': Lists, k: nat, run: int -> Outcome, i: nat, op: int, prev: int, op': int, prev': int)
    requires Turn(g0, g, k, run, op, prev) && k < |g0.order| && i == |Kept(g0.order[..k], g0.chain, run)|
    requires Gone(run, op) && Listed(g) && Listed(g') && i < |g.order|
    requires op' == if i + 1 < |g.order| then Heads(g)[i + 1] else -1
    requires var s := g.order[i];
             s < |g.chain| && RemovedFrom(g, g', i, s, prev, prev')
    ensures Turn(g0, g', k + 1, run, op', prev')
  {
    hide Kept, Advanced, Listed, Gone, Heads, RemovedFrom, Turn;
    var _ := NextUp(g0, g, k, run, op, prev);
    var o, s := g0.order, g.order[i];
    Following(g0, g, k, run, i, op, prev);
    KeptStep(o, g0.chain, run, k);
    Shift(Kept(o[..k], g0.chain, run), o, k);
    ListedDistinct(g0);
    AdvancedStep(g0.chain, o, k, run);
    GoneLists(g0, g, g', k, run, i, s, op, prev, prev');
    GonePrev(g, g', i, s, prev, prev');
    TurnIs(g0, g', k + 1, run, op', prev');
  }

  ghost predicate RemovedFrom(g: Lists, g': Lists, i: nat, s: nat, prev: int, prev': int)
    requires i < |g.order| && s < |g.chain|
  {
    var c := g.chain[s];
    && c != [] && g'.chain == g.chain[s := c[1..]]
    && (if |c| > 1 then g'.order == g.order && prev' == c[1]
        else g'.order == g.order[..i] + g.order[i + 1..] && prev' == prev)
  }

  lemma TurnIs(g0: Lists, g: Lists, k: nat, run: int -> Outcome, op: int, prev: int)
    requires Listed(g0) && Listed(g) && k <= |g0.order|
    requires g.chain == Advanced(g0.chain, g0.order[..k], run)
    requires g.order == Kept(g0.order[..k], g0.chain, run) + g0.order[k..]
    requires op == (if k < |g0.order| then Heads(g0)[k] else -1)
    requires var n := |Kept(g0.order[..k], g0.chain, run)|;
             prev == if n == 0 then -1 else Heads(g)[n - 1]
    ensures Turn(g0, g, k, run, op, prev)
  {
  }

  lemma GoneLists(g0: Lists, g: Lists, g': Lists, k: nat, run: int -> Outcome, i: nat, s: nat, op: int, prev: int, prev': int)
    requires Turn(g0, g, k, run, op, prev) && k < |g0.order| && i == |Kept(g0.order[..k], g0.chain, run)| < |g.order|
    requires s == g.order[i] == g0.order[k] && s < |g.chain| == |g0.chain| && g.chain[s] == g0.chain[s] != [] && g.chain[s][0] == op
    requires Gone(run, op) && RemovedFrom(g, g', i, s, prev, prev')
    requires Advanced(g0.chain, g0.order[..k + 1], run) == Advanced(g0.chain, g0.order[..k], run)[s := After(g0.chain[s], run)]
    requires Kept(g0.order[..k + 1], g0.chain, run) ==
             Kept(g0.order[..k], g0.chain, run) + if After(g0.chain[s], run) != [] then [s] else []
    ensures g'.chain == Advanced(g0.chain, g0.order[..k + 1], run)
    ensures g'.order == Kept(g0.order[..k + 1], g0.chain, run) + g0.order[k + 1..]
    ensures |Kept(g0.order[..k + 1], g0.chain, run)| == if |g.chain[s]| > 1 then i + 1 else i
  {
    hide Kept, Advanced, Listed, Gone, Heads;
    Shift(Kept(g0.order[..k], g0.chain, run), g0.order, k);
  }

  /** The entry before the place of the removed one. */
  lemma GonePrev(g: Lists, g': Lists, i: nat, s: nat, prev: int, prev': int)
    requires Listed(g) && Listed(g') && i < |g.order| && s == g.order[i] && RemovedFrom(g, g', i, s, prev, prev')
    requires prev == if i == 0 then -1 else Heads(g)[i - 1]
    ensures var n := if |g.chain[s]| > 1 then i + 1 else i;
            n <= |g'.order| && prev' == if n == 0 then -1 else Heads(g')[n - 1]
  {
    var c := g.chain[s];
    if |c| > 1 {
      assert Heads(g')[i] == g'.chain[s][0];
    } else if i > 0 {
      assert g'.order[i - 1] == g.order[i - 1] != s;
    }
  }

  lemma AdvancedAt(chain: seq<seq<int>>, o: seq<nat>, k: nat, run: int -> Outcome)
    requires Distinct(o) && k < |o| && forall i :: 0 <= i < |o| ==> o[i] < |chain|
    ensures |Advanced(chain, o[..k], run)| == |chain|
    ensures forall j :: k <= j < |o| ==> Advanced(chain, o[..k], run)[o[j]] == chain[o[j]]
  {
    forall j | k <= j < |o| ensures o[j] !in o[..k] { }
  }

  /** The entry after the current one heads the same chain as at the start of the pass. */
  lemma LaterHead(g0: Lists, g: Lists, k: nat, run: int -> Outcome, n: nat)
    requires Listed(g0) && Listed(g) && k + 1 < |g0.order| && n < |g.order| && g.order[n] == g0.order[k + 1]
    requires g.chain == Advanced(g0.chain, g0.order[..k], run) || g.chain == Advanced(g0.chain, g0.order[..k + 1], run)
    ensures Heads(g)[n] == Heads(g0)[k + 1]
  {
    AdvancedAt(g0.chain, g0.order, k, run);
    AdvancedAt(g0.chain, g0.order, k + 1, run);
  }

  lemma ActiveHead(m: Mem, g: Lists)
    requires Good(m, g, {}) && Listed(g)
    ensures m.active == if g.order == [] then -1 else Heads(g)[0]
    ensures forall i :: 0 <= i < |Heads(g)| ==> Heads(g)[i] >= 0
  {
    HeadsDistinct(m, g, {});
  }

  lemma StatusKeeps(m: Mem, g: Lists, appended: seq<seq<Op>>, finished: seq<seq<Op>>, x: int, st: Status)
    requires Good(m, g, {}) && InOrder(m.elem, g.chain, appended, finished) && Alive(m.elem, g.chain, -1) && 0 <= x < |m.elem|
    ensures var elem := m.elem[x := m.elem[x].(status := st)];
            Good(m.(elem := elem), g, {}) && InOrder(elem, g.chain, appended, finished) && Alive(elem, g.chain, x)
  {
    hide Linked, Contents;
    var el := m.elem[x].(status := st);
    var m' := m.(elem := m.elem[x := el]);
    forall s | 0 <= s < |g.chain| ensures ChainOk(m', g, s) { assert ChainOk(m, g, s); }
    forall z | 0 <= z < |m'.elem| ensures Placed(m', g, {}, z) { assert Placed(m, g, {}, z); }
    forall s | 0 <= s < |g.chain| ensures Contents(m'.elem, g.chain[s]) == Contents(m.elem, g.chain[s]) {
      ContentsFrame(m.elem, x, el, g.chain[s]);
    }
  }

  lemma AliveAgain(elem: seq<Elem>, chain: seq<seq<int>>, x: int)
    requires Alive(elem, chain, x) && 0 <= x < |elem| && elem[x].status != None
    ensures Alive(elem, chain, -1)
  {
  }

  /** The `i`-th entry of the active list: its links, and where its neighbours are. */
  lemma ActiveAt(m: Mem, g: Lists, i: nat) returns (s: nat)
    requires Good(m, g, {}) && i < |g.order| && Listed(g)
    ensures s == g.order[i] < |g.chain| && g.chain[s] != [] && Heads(g)[i] == g.chain[s][0]
    ensures Within(Heads(g), |m.next|) && |m.next| == |m.nextPeer| == |m.elem| && |m.append| == |g.chain|
    ensures var x := Heads(g)[i];
            && 0 <= x < |m.elem| && m.elem[x].slot == s
            && m.next[x] == (if i + 1 < |g.order| then Heads(g)[i + 1] else -1)
            && m.nextPeer[x] == (if |g.chain[s]| > 1 then g.chain[s][1] else -1)
            && (|g.chain[s]| > 1 ==> g.chain[s][1] >= 0)
            && (|g.chain[s]| == 1 ==> g.chain[s][1..] == [])
            && Distinct(g.chain[s]) && forall s' :: 0 <= s' < |g.chain| && s' != s ==> x !in g.chain[s']
  {
    hide Placed;
    s := g.order[i];
    HeadsDistinct(m, g, {});
    HeadAt(m, g, {}, i);
    assert ChainOk(m, g, s);
    InChain(m, g, {}, s, g.chain[s][0]);
    ChainFirst(m.nextPeer, g.chain[s]);
  }

  lemma Freed(m: Mem, g: Lists, x: int)
    requires 0 <= x < |m.elem| && Good(m, g, {} + {x})
    ensures Good(m.(next := m.next[x := m.pool], pool := x), g.(free := [x] + g.free), {})
  {
    hide Good;
    GoodSizes(m, g, {} + {x});
    PushFree(m, g, {} + {x}, x);
    assert {} + {x} - {x} == {};
  }

  /** The head of chain `s` is finished. */
  lemma RemoveOrder(elem: seq<Elem>, chain: seq<seq<int>>, appended: seq<seq<Op>>, finished: seq<seq<Op>>, s: nat)
    requires InOrder(elem, chain, appended, finished) && s < |chain| && chain[s] != [] && Distinct(chain[s])
    requires Alive(elem, chain, chain[s][0])
    requires forall s' :: 0 <= s' < |chain| && s' != s ==> chain[s][0] !in chain[s']
    ensures 0 <= chain[s][0] < |elem|
    ensures InOrder(elem, chain[s := chain[s][1..]], appended, finished[s := finished[s] + elem[chain[s][0]].subs])
    ensures Alive(elem, chain[s := chain[s][1..]], -1)
  {
    hide Contents;
    var c := chain[s];
    var chain' := chain[s := c[1..]];
    UnfoldContents(elem, c);
    forall s', i | 0 <= s' < |chain'| && 0 <= i < |chain'[s']| && chain'[s'][i] != -1
      ensures 0 <= chain'[s'][i] < |elem| && elem[chain'[s'][i]].status != None
    {
      if s' == s {
        assert chain'[s'][i] == chain[s][i + 1];
        assert c[0] != c[i + 1];
      } else {
        assert chain[s'][i] in chain[s'];
      }
    }
  }

  lemma UnfoldContents(elem: seq<Elem>, c: seq<int>)
    requires Within(c, |elem|) && c != []
    ensures Within(c[1..], |elem|) && Contents(elem, c) == elem[c[0]].subs + Contents(elem, c[1..])
  {
  }

  lemma OrderSizes(elem: seq<Elem>, chain: seq<seq<int>>, appended: seq<seq<Op>>, finished: seq<seq<Op>>)
    requires InOrder(elem, chain, appended, finished)
    ensures |appended| == |finished| == |chain|
  {
  }

  lemma PoolHead(m: Mem, g: Lists, loose: set<int>)
    requires Good(m, g, loose)
    ensures m.pool == -1 <==> g.free == []
    ensures g.free != [] ==> m.pool == g.free[0]
  {
  }

  lemma GoodSizes(m: Mem, g: Lists, loose: set<int>)
    requires Good(m, g, loose)
    ensures |m.next| == |m.nextPeer| == |m.elem| && |m.append| == |g.chain| && Listed(g)
  {
  }

  lemma EmptyAt(m: Mem, g: Lists, s: nat)
    requires Good(m, g, {}) && s < |g.chain| && m.append[s] == -1
    ensures g.chain[s] == []
  {
    assert ChainOk(m, g, s);
  }

  lemma LastOf(m: Mem, g: Lists, s: nat)
    requires Good(m, g, {}) && s < |m.append| && m.append[s] != -1
    ensures |m.append| == |g.chain| && g.chain[s] != [] && Distinct(g.chain[s])
    ensures m.append[s] == g.chain[s][|g.chain[s]| - 1] && 0 <= m.append[s] < |m.elem| && m.elem[m.append[s]].slot == s
    ensures |m.next| == |m.nextPeer| == |m.elem|
  {
    assert ChainOk(m, g, s);
  }

  lemma AddSubKeeps(m: Mem, g: Lists, appended: seq<seq<Op>>, finished: seq<seq<Op>>, s: nat, el: Elem, op: Op)
    requires Good(m, g, {}) && InOrder(m.elem, g.chain, appended, finished) && Alive(m.elem, g.chain, -1)
    requires s < |g.chain| && m.append[s] != -1 && 0 <= m.append[s] < |m.elem|
    requires el == m.elem[m.append[s]].(subs := m.elem[m.append[s]].subs + [op])
    ensures Good(m.(elem := m.elem[m.append[s] := el]), g, {}) && Alive(m.elem[m.append[s] := el], g.chain, -1)
    ensures InOrder(m.elem[m.append[s] := el], g.chain, appended[s := appended[s] + [op]], finished)
  {
    hide Linked, Contents;
    LastOf(m, g, s);
    var x := m.append[s];
    var m' := m.(elem := m.elem[x := el]);
    forall s' | 0 <= s' < |g.chain| ensures ChainOk(m', g, s') { assert ChainOk(m, g, s'); }
    forall z | 0 <= z < |m'.elem| ensures Placed(m', g, {}, z) { assert Placed(m, g, {}, z); }
    assert x in g.chain[s];
    InChain(m, g, {}, s, x);
    forall s' | 0 <= s' < |g.chain|
      ensures appended[s := appended[s] + [op]][s'] == finished[s'] + Contents(m'.elem, g.chain[s'])
    {
      if s' == s { ContentsAdd(m.elem, g.chain[s], el, op); } else { ContentsFrame(m.elem, x, el, g.chain[s']); }
    }
  }

  lemma FirstOrder(elem0: seq<Elem>, m: Mem, g: Lists, appended: seq<seq<Op>>, finished: seq<seq<Op>>,
                   s: nat, e: int, el: Elem, op: Op)
    requires elem0 <= m.elem && InOrder(elem0, g.chain, appended, finished) && Alive(elem0, g.chain, -1)
    requires Good(m, g, {e}) && s < |g.chain| && g.chain[s] == [] && 0 <= e < |m.elem| && el.subs == [op] && el.status != None
    ensures InOrder(m.elem[e := el], g.chain[s := [e]], appended[s := appended[s] + [op]], finished)
    ensures Alive(m.elem[e := el], g.chain[s := [e]], -1)
  {
    hide Contents;
    FreeOrLoose(m, g, {e}, e);
    OneElem(m.elem[e := el], e);
    NothingIn(m.elem[e := el]);
    NothingIn(elem0);
    forall s' | 0 <= s' < |g.chain| && s' != s ensures Contents(m.elem[e := el], g.chain[s']) == Contents(elem0, g.chain[s']) {
      ContentsGrow(elem0, m.elem, g.chain[s']);
      ContentsFrame(m.elem, e, el, g.chain[s']);
    }
  }

  lemma OneElem(elem: seq<Elem>, e: int)
    requires 0 <= e < |elem|
    ensures Contents(elem, [e]) == elem[e].subs
  {
    assert [e][1..] == [];
  }

  lemma NothingIn(elem: seq<Elem>)
    ensures Contents(elem, []) == []
  {
  }

  lemma BehindOrder(elem0: seq<Elem>, m: Mem, g: Lists, appended: seq<seq<Op>>, finished: seq<seq<Op>>,
                    s: nat, e: int, el: Elem, op: Op)
    requires elem0 <= m.elem && InOrder(elem0, g.chain, appended, finished) && Alive(elem0, g.chain, -1)
    requires Good(m, g, {e}) && s < |g.chain| && 0 <= e < |m.elem| && el.subs == [op] && el.status != None
    ensures InOrder(m.elem[e := el], g.chain[s := g.chain[s] + [e]], appended[s := appended[s] + [op]], finished)
    ensures Alive(m.elem[e := el], g.chain[s := g.chain[s] + [e]], -1)
  {
    hide Contents, Good;
    FreeOrLoose(m, g, {e}, e);
    var elem' := m.elem[e := el];
    OneElem(elem', e);
    forall s' | 0 <= s' < |g.chain| ensures Contents(elem', g.chain[s']) == Contents(elem0, g.chain[s']) {
      ContentsGrow(elem0, m.elem, g.chain[s']);
      ContentsFrame(m.elem, e, el, g.chain[s']);
    }
    ContentsConcat(elem', g.chain[s], [e]);
    forall s', i | 0 <= s' < |g.chain| && 0 <= i < |g.chain[s']|
      ensures 0 <= g.chain[s'][i] < |elem'| && elem'[g.chain[s'][i]].status != None
    {
      assert g.chain[s'][i] in g.chain[s'];
    }
  }
}
