/** The protocol of ProxyOps on the shared array of src/proxy.cc: chains are index links in
    `next`, with heads and ends held by the pool, the clients and the progress thread.  Each
    method is one atomic step; any interleaving of calls is a run of ProxyOps. */
module ProxyPool {
  import opened Arith
  import opened Links
  import opened Seqs
  import opened ProxyOps

  /** A client's `ncclProxyOps`. */
  datatype ClientOps = ClientOps(freeOp: int, nextOps: int, nextOpsEnd: int, count: nat)

  /** The chain of operations the progress thread is returning to a client; once `loaded`, its
      end points to the value `oldFree` last read from `freeOps`. */
  datatype Back = Back(head: int, end: int, loaded: bool, oldFree: int)

  datatype Heads = Heads(nextOps: int, nextOpsEnd: int, stateNextOps: int, freeOps: seq<int>,
                         client: seq<ClientOps>, back: seq<Back>)

  ghost predicate ClientLinked(next: seq<int>, h: Heads, ch: map<Loc, seq<int>>, r: int)
    requires 0 <= r < |h.client| && |h.freeOps| == |h.back| == |h.client|
  {
    var back := At(ch, Returning(r));
    && Linked(next, h.freeOps[r], At(ch, Shared(r)))
    && Linked(next, h.client[r].freeOp, At(ch, Local(r)))
    && Linked(next, h.client[r].nextOps, At(ch, Pending(r))) && EndsAt(At(ch, Pending(r)), h.client[r].nextOpsEnd)
    && h.client[r].count == |At(ch, Pending(r))|
    && h.back[r].head == Head(back) && Inner(next, back) && EndsAt(back, h.back[r].end)
    && (back != [] && h.back[r].loaded ==> next[back[|back| - 1]] == h.back[r].oldFree)
  }

  ghost predicate AllLinked(next: seq<int>, h: Heads, s: State) {
    && |next| == |s.ops| && |h.freeOps| == |h.back| == |h.client| == |s.appended|
    && Linked(next, h.nextOps, At(s.chains, Posted)) && EndsAt(At(s.chains, Posted), h.nextOpsEnd)
    && Linked(next, h.stateNextOps, At(s.chains, Grabbed))
    && forall r :: 0 <= r < |h.client| ==> ClientLinked(next, h, s.chains, r)
  }

  // ---------------------------------------------------------------------------
  // The links after each step

  ghost predicate Ready(next: seq<int>, h: Heads, s: State) { Inv(s) && AllLinked(next, h, s) }

  lemma ChainFacts(s: State, l: Loc)
    requires Inv(s)
    ensures Distinct(At(s.chains, l)) && Within(At(s.chains, l), |s.ops|)
    ensures forall x, l': Loc :: x in At(s.chains, l) && l' != l ==> x !in At(s.chains, l')
  {
    hide InOrder, Belongs, At;
    PlacedWithin(s.m, |s.ops|, s.chains, l);
  }

  ghost predicate SameFor(h: Heads, h': Heads, ch: map<Loc, seq<int>>, ch': map<Loc, seq<int>>, q: int)
    requires 0 <= q < |h.client| && |h.freeOps| == |h.back| == |h.client|
    requires |h'.freeOps| == |h'.back| == |h'.client| == |h.client|
  {
    && h'.freeOps[q] == h.freeOps[q] && h'.client[q] == h.client[q] && h'.back[q] == h.back[q]
    && At(ch', Shared(q)) == At(ch, Shared(q)) && At(ch', Local(q)) == At(ch, Local(q))
    && At(ch', Pending(q)) == At(ch, Pending(q)) && At(ch', Returning(q)) == At(ch, Returning(q))
  }

  /** Index `x` is in none of the chains of client `q`. */
  ghost predicate NotWith(ch: map<Loc, seq<int>>, q: int, x: int) {
    x !in At(ch, Shared(q)) && x !in At(ch, Local(q)) && x !in At(ch, Pending(q)) && x !in At(ch, Returning(q))
  }

  /** The chains of a client that a step at `x` and `y` does not concern. */
  lemma Unconcerned(next: seq<int>, x: int, v: int, y: int, w: int, h: Heads, h': Heads,
                    ch: map<Loc, seq<int>>, ch': map<Loc, seq<int>>, q: int)
    requires 0 <= x < |next| && 0 <= y < |next| && 0 <= q < |h.client| && |h.freeOps| == |h.back| == |h.client|
    requires |h'.freeOps| == |h'.back| == |h'.client| == |h.client| && SameFor(h, h', ch, ch', q)
    requires ClientLinked(next, h, ch, q) && NotWith(ch, q, x) && NotWith(ch, q, y)
    ensures ClientLinked(next[x := v][y := w], h', ch', q)
  {
    hide Linked, Inner, At;
    LinkedFrame2(next, x, v, y, w, h.freeOps[q], At(ch, Shared(q)));
    LinkedFrame2(next, x, v, y, w, h.client[q].freeOp, At(ch, Local(q)));
    LinkedFrame2(next, x, v, y, w, h.client[q].nextOps, At(ch, Pending(q)));
    BackFrame2(next, x, v, y, w, At(ch, Returning(q)));
  }

  lemma Elsewhere(s: State, l: Loc, q: int, x: int)
    requires Inv(s) && x in At(s.chains, l) && (l.Posted? || l.Grabbed? || l.r != q)
    ensures NotWith(s.chains, q, x)
  {
    hide Inv, At;
    ChainFacts(s, l);
  }

  ghost function Exchanged(h: Heads, r: int): Heads
    requires 0 <= r < |h.client| && |h.freeOps| == |h.client|
  {
    h.(freeOps := h.freeOps[r := -1], client := h.client[r := h.client[r].(freeOp := h.freeOps[r])])
  }

  lemma ExchangeLinked(next: seq<int>, h: Heads, s: State, s': State, r: int)
    requires Ready(next, h, s) && Exchange(s, s', r)
    ensures AllLinked(next, Exchanged(h, r), s')
  {
    hide Linked, Inner, Inv;
    var h' := Exchanged(h, r);
    assert ClientLinked(next, h, s.chains, r);
    assert Linked(next, -1, []) by { EmptyLinked(next); }
    forall q | 0 <= q < |h'.client| ensures ClientLinked(next, h', s'.chains, q) {
      assert ClientLinked(next, h, s.chains, q);
    }
  }

  /** Where an appended operation is linked in: behind the pending chain, or onto itself. */
  ghost function Behind(cl: ClientOps): int { if cl.nextOps == -1 then cl.freeOp else cl.nextOpsEnd }

  ghost function AppendHeads(next: seq<int>, h: Heads, r: int): Heads
    requires 0 <= r < |h.client| && 0 <= h.client[r].freeOp < |next|
  {
    var cl := h.client[r];
    h.(client := h.client[r := ClientOps(next[cl.freeOp], if cl.nextOps == -1 then cl.freeOp else cl.nextOps,
                                         cl.freeOp, cl.count + 1)])
  }

  /** The entry after the first pending one is always written; with nothing pending the write
      of the end mark is repeated. */
  ghost function AppendNext(next: seq<int>, cl: ClientOps): seq<int>
    requires 0 <= cl.freeOp < |next| && 0 <= Behind(cl) < |next|
  {
    next[cl.freeOp := -1][Behind(cl) := if cl.nextOps == -1 then -1 else cl.freeOp]
  }

  lemma AppendBounds(next: seq<int>, h: Heads, s: State, s': State, r: int, op: Op)
    requires Ready(next, h, s) && Append(s, s', r, op)
    ensures 0 <= h.client[r].freeOp < |next| && 0 <= Behind(h.client[r]) < |next|
    ensures h.client[r].freeOp == At(s.chains, Local(r))[0]
    ensures Behind(h.client[r]) in (if At(s.chains, Pending(r)) == [] then At(s.chains, Local(r)) else At(s.chains, Pending(r)))
    ensures h.client[r].nextOps == -1 <==> At(s.chains, Pending(r)) == []
  {
    hide Inv;
    assert ClientLinked(next, h, s.chains, r);
  }

  lemma AppendLinked(next: seq<int>, h: Heads, s: State, s': State, r: int, op: Op)
    requires Ready(next, h, s) && Append(s, s', r, op)
    requires 0 <= h.client[r].freeOp < |next| && 0 <= Behind(h.client[r]) < |next|
    ensures AllLinked(AppendNext(next, h.client[r]), AppendHeads(next, h, r), s')
  {
    hide Linked, Inner, Inv;
    AppendBounds(next, h, s, s', r, op);
    var cl, h', next' := h.client[r], AppendHeads(next, h, r), AppendNext(next, h.client[r]);
    var x, y, w := cl.freeOp, Behind(cl), if cl.nextOps == -1 then -1 else cl.freeOp;
    ChainFacts(s, Local(r));
    ChainFacts(s, Pending(r));
    assert x in At(s.chains, Local(r));
    LinkedFrame2(next, x, -1, y, w, h.nextOps, At(s.chains, Posted));
    LinkedFrame2(next, x, -1, y, w, h.stateNextOps, At(s.chains, Grabbed));
    forall q | 0 <= q < |h'.client| ensures ClientLinked(next', h', s'.chains, q) {
      assert ClientLinked(next, h, s.chains, q);
      if q == r {
        LinkedFrame2(next, x, -1, y, w, h.freeOps[r], At(s.chains, Shared(r)));
        BackFrame2(next, x, -1, y, w, At(s.chains, Returning(r)));
        DistinctJoin(At(s.chains, Pending(r)), At(s.chains, Local(r)));
        AppendOwn(next, cl, At(s.chains, Local(r)), At(s.chains, Pending(r)));
      } else {
        Elsewhere(s, Local(r), q, x);
        Elsewhere(s, if At(s.chains, Pending(r)) == [] then Local(r) else Pending(r), q, y);
        Unconcerned(next, x, -1, y, w, h, h', s.chains, s'.chains, q);
      }
    }
  }

  /** The client's own two chains. */
  lemma AppendOwn(next: seq<int>, cl: ClientOps, free: seq<int>, pending: seq<int>)
    requires Linked(next, cl.freeOp, free) && free != [] && Linked(next, cl.nextOps, pending) && EndsAt(pending, cl.nextOpsEnd)
    requires Distinct(pending + free) && 0 <= cl.freeOp < |next| && 0 <= Behind(cl) < |next|
    ensures Linked(AppendNext(next, cl), next[cl.freeOp], free[1..])
    ensures Linked(AppendNext(next, cl), if cl.nextOps == -1 then cl.freeOp else cl.nextOps, pending + [free[0]])
  {
    hide Linked, Inner, Distinct;
    var x := free[0];
    HeadOf(next, cl.freeOp, free);
    HeadOf(next, cl.nextOps, pending);
    Apart(pending, free);
    LinkTail(next, x, free);
    if pending == [] {
      LinkedFrame2(next, x, -1, x, -1, next[x], free[1..]);
      assert pending + [x] == [x];
      SingleLinked(next[x := -1][x := -1], x);
    } else {
      var e := pending[|pending| - 1];
      LinkedFrame2(next, x, -1, e, x, next[x], free[1..]);
      LinkedFrame(next, x, -1, cl.nextOps, pending);
      SingleLinked(next[x := -1], x);
      LinkJoin(next[x := -1], cl.nextOps, pending, x, [x]);
    }
  }

  lemma Apart(pending: seq<int>, free: seq<int>)
    requires Distinct(pending + free) && free != []
    ensures free[0] !in pending && free[0] !in free[1..] && Distinct(pending + [free[0]])
    ensures pending != [] ==> pending[|pending| - 1] !in free[1..]
  {
    DistinctParts(pending, free);
    assert free[0] in free;
    assert forall z :: z in free[1..] ==> z in free;
    DistinctJoin(pending, [free[0]]);
    if pending != [] { assert pending[|pending| - 1] in pending; }
  }

  // Posting the first `k` pending operations, the last of which is `x`.

  ghost function PostAt(h: Heads, x: int): int { if h.nextOps == -1 then x else h.nextOpsEnd }

  ghost function PostNext(next: seq<int>, h: Heads, r: int, x: int): seq<int>
    requires 0 <= r < |h.client| && 0 <= x < |next| && 0 <= PostAt(h, x) < |next|
  {
    next[x := -1][PostAt(h, x) := if h.nextOps == -1 then -1 else h.client[r].nextOps]
  }

  ghost function PostHeads(next: seq<int>, h: Heads, r: int, x: int, k: nat): Heads
    requires 0 <= r < |h.client| && 0 <= x < |next| && k <= h.client[r].count
  {
    var cl := h.client[r];
    h.(nextOps := if h.nextOps == -1 then cl.nextOps else h.nextOps, nextOpsEnd := x,
       client := h.client[r := cl.(nextOps := next[x], count := cl.count - k)])
  }

  lemma PostOwn(next: seq<int>, hp: int, posted: seq<int>, hc: int, c: seq<int>, k: nat, y: int, w: int)
    requires Linked(next, hp, posted) && Linked(next, hc, c) && 0 < k <= |c| && Distinct(posted + c)
    requires if posted == [] then y == c[k - 1] && w == -1 else y == posted[|posted| - 1] && w == hc
    ensures 0 <= c[k - 1] < |next| && 0 <= y < |next|
    ensures Linked(next[c[k - 1] := -1][y := w], if posted == [] then hc else hp, posted + c[..k])
    ensures Linked(next[c[k - 1] := -1][y := w], next[c[k - 1]], c[k..])
  {
    hide Linked, Inner, Distinct;
    var x := c[k - 1];
    LinkedBounds(next, hp, posted);
    LinkedBounds(next, hc, c);
    PostApart(posted, c, k);
    LinkCut(next, hc, c, k);
    if posted == [] {
      assert posted + c[..k] == c[..k];
      assert next[x := -1][x := -1] == next[x := -1];
    } else {
      LinkedFrame(next, x, -1, hp, posted);
      LinkedFrame(next[x := -1], y, hc, next[x], c[k..]);
      LinkJoin(next[x := -1], hp, posted, hc, c[..k]);
    }
  }

  lemma PostApart(posted: seq<int>, c: seq<int>, k: nat)
    requires Distinct(posted + c) && 0 < k <= |c|
    ensures Distinct(c) && c[k - 1] !in posted && Distinct(posted + c[..k])
    ensures posted != [] ==> posted[|posted| - 1] !in c[k..]
  {
    DistinctParts(posted, c);
    assert c[k - 1] in c;
    assert forall z :: z in c[k..] ==> z in c;
    assert posted + c[..k] == (posted + c)[..|posted| + k];
    if posted != [] { assert posted[|posted| - 1] in posted; }
  }

  lemma PostBounds(next: seq<int>, h: Heads, s: State, r: int, k: nat)
    requires Ready(next, h, s) && Client(s, r) && 0 < k <= |At(s.chains, Pending(r))|
    ensures var x := At(s.chains, Pending(r))[k - 1];
            && 0 <= x < |next| && 0 <= PostAt(h, x) < |next| && k <= h.client[r].count
            && (h.nextOps == -1 <==> At(s.chains, Posted) == [])
  {
    hide Linked, Inner, Inv, At;
    assert ClientLinked(next, h, s.chains, r);
    LinkedBounds(next, h.nextOps, At(s.chains, Posted));
    LinkedBounds(next, h.client[r].nextOps, At(s.chains, Pending(r)));
  }

  /** The posted chain and the rest of the pending chain. */
  lemma PostMoved(next: seq<int>, h: Heads, s: State, r: int, k: nat, x: int, y: int, w: int)
    requires Ready(next, h, s) && Client(s, r) && 0 < k <= |At(s.chains, Pending(r))|
    requires x == At(s.chains, Pending(r))[k - 1] && y == PostAt(h, x) && w == (if h.nextOps == -1 then -1 else h.client[r].nextOps)
    requires 0 <= x < |next| && 0 <= y < |next|
    ensures var posted, c := At(s.chains, Posted), At(s.chains, Pending(r));
            && Linked(next[x := -1][y := w], if h.nextOps == -1 then h.client[r].nextOps else h.nextOps, posted + c[..k])
            && Linked(next[x := -1][y := w], next[x], c[k..])
            && Linked(next[x := -1][y := w], h.stateNextOps, At(s.chains, Grabbed))
  {
    hide Linked, Inner, Inv, At;
    PostBounds(next, h, s, r, k);
    assert ClientLinked(next, h, s.chains, r);
    var posted, c := At(s.chains, Posted), At(s.chains, Pending(r));
    ChainFacts(s, Posted);
    ChainFacts(s, Pending(r));
    DistinctJoin(posted, c);
    PostOwn(next, h.nextOps, posted, h.client[r].nextOps, c, k, y, w);
    assert x in c && (y in c || y in posted);
    LinkedFrame2(next, x, -1, y, w, h.stateNextOps, At(s.chains, Grabbed));
  }

  lemma PostLinked(next: seq<int>, h: Heads, s: State, s': State, r: int, k: nat)
    requires Ready(next, h, s) && Post(s, s', r, k)
    ensures var x := At(s.chains, Pending(r))[k - 1];
            && 0 <= x < |next| && 0 <= PostAt(h, x) < |next| && k <= h.client[r].count
            && AllLinked(PostNext(next, h, r, x), PostHeads(next, h, r, x, k), s')
  {
    hide Linked, Inner, Inv, ClientLinked;
    PostBounds(next, h, s, r, k);
    var x := At(s.chains, Pending(r))[k - 1];
    var h', next' := PostHeads(next, h, r, x, k), PostNext(next, h, r, x);
    PostMoved(next, h, s, r, k, x, PostAt(h, x), if h.nextOps == -1 then -1 else h.client[r].nextOps);
    forall q | 0 <= q < |h'.client| ensures ClientLinked(next', h', s'.chains, q) {
      if q == r { PostMine(next, h, s, s', r, k); } else { PostOthers(next, h, s, s', r, k, q); }
    }
  }

  lemma PostMine(next: seq<int>, h: Heads, s: State, s': State, r: int, k: nat)
    requires Ready(next, h, s) && Post(s, s', r, k)
    requires var x := At(s.chains, Pending(r))[k - 1];
             0 <= x < |next| && 0 <= PostAt(h, x) < |next| && k <= h.client[r].count
    ensures var x := At(s.chains, Pending(r))[k - 1];
            ClientLinked(PostNext(next, h, r, x), PostHeads(next, h, r, x, k), s'.chains, r)
  {
    hide Linked, Inner, Inv;
    PostBounds(next, h, s, r, k);
    assert ClientLinked(next, h, s.chains, r);
    var posted, c := At(s.chains, Posted), At(s.chains, Pending(r));
    var x := c[k - 1];
    var y, w := PostAt(h, x), if h.nextOps == -1 then -1 else h.client[r].nextOps;
    PostMoved(next, h, s, r, k, x, y, w);
    ChainFacts(s, Posted);
    ChainFacts(s, Pending(r));
    assert x in c && (y in c || y in posted);
    LinkedFrame2(next, x, -1, y, w, h.freeOps[r], At(s.chains, Shared(r)));
    LinkedFrame2(next, x, -1, y, w, h.client[r].freeOp, At(s.chains, Local(r)));
    BackFrame2(next, x, -1, y, w, At(s.chains, Returning(r)));
    LastWithin(next, At(s.chains, Returning(r)));
  }

  lemma PostOthers(next: seq<int>, h: Heads, s: State, s': State, r: int, k: nat, q: int)
    requires Ready(next, h, s) && Post(s, s', r, k) && 0 <= q < |h.client| && q != r
    requires var x := At(s.chains, Pending(r))[k - 1];
             0 <= x < |next| && 0 <= PostAt(h, x) < |next| && k <= h.client[r].count
    ensures var x := At(s.chains, Pending(r))[k - 1];
            ClientLinked(PostNext(next, h, r, x), PostHeads(next, h, r, x, k), s'.chains, q)
  {
    hide Linked, Inner, Inv;
    var posted, c := At(s.chains, Posted), At(s.chains, Pending(r));
    var x := c[k - 1];
    assert ClientLinked(next, h, s.chains, q);
    PoolMinus(next, h, s);
    assert x in c;
    Elsewhere(s, Pending(r), q, x);
    Elsewhere(s, if posted == [] then Pending(r) else Posted, q, PostAt(h, x));
    Unconcerned(next, x, -1, PostAt(h, x), if h.nextOps == -1 then -1 else h.client[r].nextOps,
                h, PostHeads(next, h, r, x, k), s.chains, s'.chains, q);
  }

  lemma GrabLinked(next: seq<int>, h: Heads, s: State, s': State)
    requires Ready(next, h, s) && Grab(s, s')
    ensures AllLinked(next, h.(stateNextOps := h.nextOps, nextOps := -1, nextOpsEnd := -1), s')
  {
    hide Linked, Inner, Inv;
    EmptyLinked(next);
    var h' := h.(stateNextOps := h.nextOps, nextOps := -1, nextOpsEnd := -1);
    forall q | 0 <= q < |h'.client| ensures ClientLinked(next, h', s'.chains, q) {
      assert ClientLinked(next, h, s.chains, q);
    }
  }

  ghost function ProcessHeads(next: seq<int>, h: Heads, r: int): Heads
    requires 0 <= r < |h.back| && 0 <= h.stateNextOps < |next|
  {
    var x, b := h.stateNextOps, h.back[r];
    h.(stateNextOps := next[x],
       back := h.back[r := if b.head == -1 then Back(x, x, false, -1) else b.(head := x)])
  }

  lemma ProcessLinked(next: seq<int>, h: Heads, s: State, s': State)
    requires Ready(next, h, s) && Process(s, s')
    ensures var x := h.stateNextOps;
            var r := x / s.m;
            && 0 <= x < |next| && x == At(s.chains, Grabbed)[0] && 0 <= r < |h.back|
            && AllLinked(next[x := if h.back[r].head == -1 then next[x] else h.back[r].head], ProcessHeads(next, h, r), s')
  {
    hide Linked, Inner, Inv;
    var g := At(s.chains, Grabbed);
    LinkedBounds(next, h.stateNextOps, g);
    var x := h.stateNextOps;
    var r := x / s.m;
    var v := if h.back[r].head == -1 then next[x] else h.back[r].head;
    ChainFacts(s, Grabbed);
    assert x in g && x !in g[1..];
    LinkTail(next, x, g);
    LinkedFrame(next, x, v, next[x], g[1..]);
    LinkedFrame(next, x, v, h.nextOps, At(s.chains, Posted));
    var h', next' := ProcessHeads(next, h, r), next[x := v];
    forall q | 0 <= q < |h'.client| ensures ClientLinked(next', h', s'.chains, q) {
      assert ClientLinked(next, h, s.chains, q);
      Elsewhere(s, Grabbed, q, x);
      if q == r {
        ProcessOwn(next, h, s.chains, r, x);
      } else {
        assert next[x := v][x := v] == next';
        Unconcerned(next, x, v, x, v, h, h', s.chains, s'.chains, q);
      }
    }
  }

  lemma ProcessOwn(next: seq<int>, h: Heads, ch: map<Loc, seq<int>>, r: int, x: int)
    requires 0 <= r < |h.client| && |h.freeOps| == |h.back| == |h.client| && 0 <= x < |next| && h.stateNextOps == x
    requires ClientLinked(next, h, ch, r) && NotWith(ch, r, x)
    ensures ClientLinked(next[x := if h.back[r].head == -1 then next[x] else h.back[r].head], ProcessHeads(next, h, r),
                         ch[Grabbed := At(ch, Grabbed)[..0]][Returning(r) := [x] + At(ch, Returning(r))], r)
  {
    hide Linked, Inner;
    var back := At(ch, Returning(r));
    var v := if h.back[r].head == -1 then next[x] else h.back[r].head;
    LinkedFrame(next, x, v, h.freeOps[r], At(ch, Shared(r)));
    LinkedFrame(next, x, v, h.client[r].freeOp, At(ch, Local(r)));
    LinkedFrame(next, x, v, h.client[r].nextOps, At(ch, Pending(r)));
    InnerFrame(next, x, v, back);
    FirstWithin(next, back);
    PushInner(next[x := v], x, back);
    LastWithin(next, back);
  }

  ghost function LoadHeads(h: Heads, r: int): Heads
    requires 0 <= r < |h.back| && |h.freeOps| == |h.back|
  {
    h.(back := h.back[r := h.back[r].(loaded := true, oldFree := h.freeOps[r])])
  }

  lemma LoadLinked(next: seq<int>, h: Heads, s: State, r: int)
    requires Ready(next, h, s) && 0 <= r < |h.client| && At(s.chains, Returning(r)) != []
    ensures 0 <= h.back[r].end < |next| && AllLinked(next[h.back[r].end := h.freeOps[r]], LoadHeads(h, r), s)
  {
    hide Linked, Inner, Inv;
    assert ClientLinked(next, h, s.chains, r);
    var c := At(s.chains, Returning(r));
    var y, v := h.back[r].end, h.freeOps[r];
    ChainFacts(s, Returning(r));
    LastWithin(next, c);
    assert y in c;
    LinkedFrame(next, y, v, h.nextOps, At(s.chains, Posted));
    LinkedFrame(next, y, v, h.stateNextOps, At(s.chains, Grabbed));
    var h', next' := LoadHeads(h, r), next[y := v];
    forall q | 0 <= q < |h'.client| ensures ClientLinked(next', h', s.chains, q) {
      assert ClientLinked(next, h, s.chains, q);
      if q == r {
        LinkedFrame(next, y, v, h.freeOps[r], At(s.chains, Shared(r)));
        LinkedFrame(next, y, v, h.client[r].freeOp, At(s.chains, Local(r)));
        LinkedFrame(next, y, v, h.client[r].nextOps, At(s.chains, Pending(r)));
        LastFree(next, c, v);
      } else {
        Elsewhere(s, Returning(r), q, y);
        assert next[y := v][y := v] == next';
        Unconcerned(next, y, v, y, v, h, h', s.chains, s.chains, q);
      }
    }
  }

  ghost function CasHeads(h: Heads, r: int): Heads
    requires 0 <= r < |h.back| && |h.freeOps| == |h.back|
  {
    h.(freeOps := h.freeOps[r := h.back[r].head], back := h.back[r := Back(-1, -1, false, -1)])
  }

  lemma CasLinked(next: seq<int>, h: Heads, s: State, s': State, r: int)
    requires Ready(next, h, s) && Return(s, s', r) && h.back[r].loaded && h.back[r].oldFree == h.freeOps[r]
    ensures AllLinked(next, CasHeads(h, r), s')
  {
    hide Linked, Inner, Inv;
    assert ClientLinked(next, h, s.chains, r);
    var h' := CasHeads(h, r);
    JoinLinked(next, At(s.chains, Returning(r)), h.freeOps[r], At(s.chains, Shared(r)));
    EmptyLinked(next);
    EmptyInner(next);
    forall q | 0 <= q < |h'.client| ensures ClientLinked(next, h', s'.chains, q) {
      assert ClientLinked(next, h, s.chains, q);
    }
  }

  // ---------------------------------------------------------------------------
  // The steps in place

  /** Operation count of the `i`-th index of a chain. */
  ghost function CountAt(ops: seq<Op>, c: seq<int>, i: int): nat
    requires 0 <= i < |c| && Within(c, |ops|)
  {
    ops[c[i]].opCount
  }

  /** The cut before the last run of equal operation counts: what follows it has the count of
      the last one, what precedes it ends with another count. */
  ghost predicate IsCut(ops: seq<Op>, c: seq<int>, k: nat)
    requires c != [] && Within(c, |ops|)
  {
    && k < |c|
    && (k > 0 ==> CountAt(ops, c, k - 1) != CountAt(ops, c, |c| - 1))
    && forall i :: k <= i < |c| ==> CountAt(ops, c, i) == CountAt(ops, c, |c| - 1)
  }

  class Pool {
    const m: nat
    const next: array<int>
    const ops: array<Op>
    const freeOps: array<int>
    const client: array<ClientOps>
    const back: array<Back>
    var nextOps: int
    var nextOpsEnd: int
    var stateNextOps: int
    ghost var abs: State

    ghost function Now(): Heads
      reads this, freeOps, client, back
    {
      Heads(nextOps, nextOpsEnd, stateNextOps, freeOps[..], client[..], back[..])
    }

    ghost predicate Valid()
      reads this, next, ops, freeOps, client, back
    {
      next != freeOps && abs.m == m && ops[..] == abs.ops && Ready(next[..], Now(), abs)
    }

    /** The pool as `proxyProgressInit` sets it up: each segment is one free chain. */
    constructor (clients: nat, perPeer: nat)
      requires perPeer > 0
      ensures Valid() && m == perPeer && |abs.appended| == clients && Init(abs)
      ensures fresh(next) && fresh(ops) && fresh(freeOps) && fresh(client) && fresh(back)
    {
      hide ChainOf, Init, Inv, AllLinked, Fresh;
      var n := clients * perPeer;
      m, nextOps, nextOpsEnd, stateNextOps := perPeer, -1, -1, -1;
      next, ops, freeOps := new int[n], new Op[n], new int[clients];
      client := new ClientOps[clients](_ => ClientOps(-1, -1, -1, 0));
      back := new Back[clients](_ => Back(-1, -1, false, -1));
      new;
      InitChains(next, freeOps, clients, perPeer);
      abs := Fresh(clients, perPeer, ops[..]);
      FreshInit(clients, perPeer, ops[..]);
      InitInv(abs);
      InitLinked(next[..], Now(), abs);
    }

    /** The exchange on the client's shared free list; false if nothing has been returned. */
    method TryExchange(r: int) returns (ok: bool)
      requires Valid() && Client(abs, r) && r !in abs.failed && client[r].freeOp == -1
      modifies this, freeOps, client
      ensures Valid() && (if ok then Exchange(old(abs), abs, r) else abs == old(abs))
      ensures !ok ==> At(abs.chains, Local(r)) == [] && At(abs.chains, Shared(r)) == []
    {
      hide Linked, Inner, Inv;
      ghost var s, nx, h := abs, next[..], Now();
      assert ClientLinked(nx, h, s.chains, r);
      HeadsMinus(nx, h, s, r);
      var v := freeOps[r];
      freeOps[r] := -1;
      ok := v != -1;
      if ok {
        client[r] := client[r].(freeOp := v);
        abs := s.(chains := s.chains[Local(r) := At(s.chains, Shared(r))][Shared(r) := []]);
        ExchangeLinked(nx, h, s, abs, r);
        StepKeeps(s, abs, r, Op(0, 0), 0);
        assert next[..] == nx && Now() == Exchanged(h, r);
      } else {
        assert Now() == h;
      }
    }

    method Append(r: int, op: Op)
      requires Valid() && Client(abs, r) && r !in abs.failed && client[r].freeOp != -1 && client[r].count < m
      modifies this, next, ops, client
      ensures Valid() && ProxyOps.Append(old(abs), abs, r, op)
    {
      hide Linked, Inner, Inv;
      ghost var s, nx, h := abs, next[..], Now();
      assert ClientLinked(nx, h, s.chains, r);
      HeadsMinus(nx, h, s, r);
      ChainFacts(s, Local(r));
      ghost var free, pending := At(s.chains, Local(r)), At(s.chains, Pending(r));
      abs := s.(chains := s.chains[Local(r) := free[1..]][Pending(r) := pending + [free[0]]],
                ops := s.ops[free[0] := op], appended := s.appended[r := s.appended[r] + [op]]);
      AppendBounds(nx, h, s, abs, r, op);
      AppendLinked(nx, h, s, abs, r, op);
      StepKeeps(s, abs, r, op, 0);
      var cl := client[r];
      var x := cl.freeOp;
      var rest := next[x];
      ops[x] := op;
      next[x] := -1;
      if cl.nextOps == -1 {
        client[r] := ClientOps(rest, x, x, cl.count + 1);
      } else {
        next[cl.nextOpsEnd] := x;
        client[r] := ClientOps(rest, cl.nextOps, x, cl.count + 1);
      }
      assert next[..] == AppendNext(nx, h.client[r]);
      assert Now() == AppendHeads(nx, h, r);
    }

    /** `ncclProxyPost` of the pending chain up to `x`, its `k`-th entry, cut off first. */
    method PostUpTo(r: int, x: int, k: nat)
      requires Valid() && Client(abs, r) && r !in abs.failed && 0 < k <= |At(abs.chains, Pending(r))|
      requires At(abs.chains, Pending(r))[k - 1] == x
      modifies this, next, client
      ensures Valid() && Post(old(abs), abs, r, k)
    {
      hide Linked, Inner, Inv;
      ghost var s, nx, h := abs, next[..], Now();
      ghost var pending := At(s.chains, Pending(r));
      abs := s.(chains := s.chains[Pending(r) := pending[k..]][Posted := At(s.chains, Posted) + pending[..k]]);
      PostLinked(nx, h, s, abs, r, k);
      StepKeeps(s, abs, r, Op(0, 0), k);
      var cl := client[r];
      client[r] := cl.(nextOps := next[x], count := cl.count - k);
      next[x] := -1;
      if nextOps == -1 {
        nextOps := cl.nextOps;
      } else {
        next[nextOpsEnd] := cl.nextOps;
      }
      nextOpsEnd := x;
      assert next[..] == PostNext(nx, h, r, x);
      assert Now() == PostHeads(nx, h, r, x, k);
    }

    /** The scan of a full pending chain for the last entry that may be posted. */
    method FindCut(r: int) returns (lastOp: int, toSend: nat)
      requires Valid() && Client(abs, r) && client[r].nextOps != -1
      ensures At(abs.chains, Pending(r)) != [] && Within(At(abs.chains, Pending(r)), |abs.ops|)
      ensures IsCut(abs.ops, At(abs.chains, Pending(r)), toSend)
      ensures if toSend == 0 then lastOp == -1 else lastOp == At(abs.chains, Pending(r))[toSend - 1]
    {
      hide Inv;
      ghost var c, nx := At(abs.chains, Pending(r)), next[..];
      assert ClientLinked(nx, Now(), abs.chains, r);
      ChainFacts(abs, Pending(r));
      var cl := client[r];
      var op, n := cl.nextOps, 0;
      lastOp, toSend := -1, 0;
      var lastOpCount := ops[cl.nextOpsEnd].opCount;
      while op != cl.nextOpsEnd
        invariant n < |c| && op == c[n] && toSend <= n
        invariant if toSend == 0 then lastOp == -1 else lastOp == c[toSend - 1] && CountAt(abs.ops, c, toSend - 1) != lastOpCount
        invariant forall i :: toSend <= i < n ==> CountAt(abs.ops, c, i) == lastOpCount
        decreases |c| - n
      {
        n := n + 1;
        if ops[op].opCount != lastOpCount {
          lastOp, toSend := op, n;
        }
        assert nx[c[n - 1]] == c[n];
        op := next[op];
      }
      assert n == |c| - 1;
    }

    /** A client whose pending chain has filled its segment posts all but the last run of
        operations with one count; if that is everything it fails. */
    method PostFull(r: int) returns (ok: bool)
      requires Valid() && Client(abs, r) && r !in abs.failed && client[r].count == m
      modifies this, next, client
      ensures Valid() && old(At(abs.chains, Pending(r))) != [] && Within(old(At(abs.chains, Pending(r))), |old(abs.ops)|)
      ensures ok ==> exists k :: Post(old(abs), abs, r, k) && IsCut(old(abs.ops), old(At(abs.chains, Pending(r))), k)
      ensures !ok ==> Fail(old(abs), abs, r) && IsCut(old(abs.ops), old(At(abs.chains, Pending(r))), 0)
      ensures ok ==> client[r].count < m
    {
      hide Linked, Inner, Inv, IsCut;
      assert ClientLinked(next[..], Now(), abs.chains, r);
      HeadsMinus(next[..], Now(), abs, r);
      ShapePositive(abs);
      var lastOp, k := FindCut(r);
      CutShort(abs.ops, At(abs.chains, Pending(r)), k);
      ok := lastOp != -1;
      if ok {
        NotMinus(abs, Pending(r));
        PostUpTo(r, lastOp, k);
        assert ClientLinked(next[..], Now(), abs.chains, r);
      } else {
        NotMinus(abs, Pending(r));
        ghost var s := abs;
        abs := s.(failed := s.failed + {r});
        StepKeeps(s, abs, r, Op(0, 0), 0);
      }
    }

    /** `ncclProxyStart` for one client: everything pending is posted. */
    method Start(r: int)
      requires Valid() && Client(abs, r) && r !in abs.failed
      modifies this, next, client
      ensures Valid() && At(abs.chains, Pending(r)) == []
      ensures if old(At(abs.chains, Pending(r))) == [] then abs == old(abs)
              else Post(old(abs), abs, r, |old(At(abs.chains, Pending(r)))|)
    {
      hide Linked, Inner, Inv;
      assert ClientLinked(next[..], Now(), abs.chains, r);
      HeadsMinus(next[..], Now(), abs, r);
      if client[r].nextOps != -1 {
        PostUpTo(r, client[r].nextOpsEnd, client[r].count);
      }
    }

    /** The progress thread takes the whole posted chain. */
    method GrabPosted() returns (ok: bool)
      requires Valid() && stateNextOps == -1
      modifies this
      ensures Valid() && (if ok then Grab(old(abs), abs) else abs == old(abs) && At(abs.chains, Posted) == [])
    {
      hide Inner, Inv;
      ghost var s, nx, h := abs, next[..], Now();
      PoolMinus(nx, h, s);
      ok := nextOps != -1;
      if ok {
        abs := s.(chains := s.chains[Grabbed := At(s.chains, Posted)][Posted := []]);
        GrabLinked(nx, h, s, abs);
        StepKeeps(s, abs, 0, Op(0, 0), 0);
        stateNextOps := nextOps;
        nextOps, nextOpsEnd := -1, -1;
      }
    }

    /** One turn of the loop that hands operations to `ProxyAppend`. */
    method ProcessOne() returns (op: Op)
      requires Valid() && stateNextOps != -1
      modifies this, next, back
      ensures Valid() && Process(old(abs), abs)
      ensures var x := old(At(abs.chains, Grabbed))[0];
              0 <= x < |old(abs.ops)| && op == old(abs.ops)[x]
    {
      hide Linked, Inner, Inv;
      ghost var s, nx, h := abs, next[..], Now();
      PoolMinus(nx, h, s);
      GrabbedClient(s);
      ghost var g := At(s.chains, Grabbed);
      ghost var q := g[0] / s.m;
      abs := s.(chains := s.chains[Grabbed := g[1..]][Returning(q) := [g[0]] + At(s.chains, Returning(q))],
                delivered := s.delivered[q := s.delivered[q] + [s.ops[g[0]]]]);
      ProcessLinked(nx, h, s, abs);
      StepKeeps(s, abs, 0, Op(0, 0), 0);
      var x := stateNextOps;
      op := ops[x];
      var peer := x / m;
      stateNextOps := next[x];
      var b := back[peer];
      if b.head == -1 {
        back[peer] := Back(x, x, false, -1);
      } else {
        next[x] := b.head;
        back[peer] := b.(head := x);
      }
      assert next[..] == nx[x := if h.back[peer].head == -1 then nx[x] else h.back[peer].head];
      assert Now() == ProcessHeads(nx, h, peer);
    }

    /** The load of `freeOps[r]`, or its reload after a lost compare-exchange. */
    method ReturnLoad(r: int)
      requires Valid() && Client(abs, r) && back[r].head != -1
      modifies this, next, back
      ensures Valid() && abs == old(abs) && back[r].loaded
    {
      hide Linked, Inner, Inv;
      ghost var s, nx, h := abs, next[..], Now();
      assert ClientLinked(nx, h, s.chains, r);
      LoadLinked(nx, h, s, r);
      var b := back[r];
      next[b.end] := freeOps[r];
      back[r] := b.(loaded := true, oldFree := freeOps[r]);
      assert Now() == LoadHeads(h, r);
    }

    /** The compare-exchange: it succeeds unless the client has emptied its list meanwhile. */
    method ReturnCas(r: int) returns (ok: bool)
      requires Valid() && Client(abs, r) && back[r].head != -1 && back[r].loaded
      modifies this, freeOps, back
      ensures Valid() && (if ok then Return(old(abs), abs, r) else abs == old(abs))
      ensures ok == (old(freeOps[r]) == old(back[r].oldFree))
    {
      hide Linked, Inner, Inv;
      ghost var s, nx, h := abs, next[..], Now();
      assert ClientLinked(nx, h, s.chains, r);
      var b := back[r];
      ok := freeOps[r] == b.oldFree;
      if ok {
        abs := s.(chains := s.chains[Shared(r) := At(s.chains, Returning(r)) + At(s.chains, Shared(r))][Returning(r) := []]);
        CasLinked(nx, h, s, abs, r);
        StepKeeps(s, abs, r, Op(0, 0), 0);
        freeOps[r] := b.head;
        back[r] := Back(-1, -1, false, -1);
        assert next[..] == nx && Now() == CasHeads(h, r);
      }
    }
  }

  lemma HeadsMinus(next: seq<int>, h: Heads, s: State, r: int)
    requires AllLinked(next, h, s) && Client(s, r)
    ensures h.freeOps[r] == -1 <==> At(s.chains, Shared(r)) == []
    ensures h.client[r].freeOp == -1 <==> At(s.chains, Local(r)) == []
    ensures h.client[r].nextOps == -1 <==> At(s.chains, Pending(r)) == []
  {
    assert ClientLinked(next, h, s.chains, r);
  }

  lemma PoolMinus(next: seq<int>, h: Heads, s: State)
    requires AllLinked(next, h, s)
    ensures h.nextOps == -1 <==> At(s.chains, Posted) == []
    ensures h.stateNextOps == -1 <==> At(s.chains, Grabbed) == []
  {
  }

  lemma ShapePositive(s: State)
    requires Inv(s)
    ensures s.m > 0
  {
  }

  lemma GrabbedClient(s: State)
    requires Inv(s) && At(s.chains, Grabbed) != []
    ensures var x := At(s.chains, Grabbed)[0];
            s.m > 0 && 0 <= x < |s.ops| && Client(s, x / s.m) && |s.delivered| == |s.appended|
  {
    var x := At(s.chains, Grabbed)[0];
    assert x in At(s.chains, Grabbed);
    assert Belongs(s.m, |s.ops|, Grabbed, x);
    OwnerInRange(s.m, |s.appended|, x);
  }

  lemma NotMinus(s: State, l: Loc)
    requires Inv(s)
    ensures -1 !in At(s.chains, l)
  {
    ChainFacts(s, l);
  }

  lemma CutShort(ops: seq<Op>, c: seq<int>, k: nat)
    requires c != [] && Within(c, |ops|) && IsCut(ops, c, k)
    ensures k < |c|
  {
  }

  // ---------------------------------------------------------------------------
  // Setting up the pool

  /** Segment `r` is linked in order and ends with the end mark. */
  ghost predicate ChainOf(next: seq<int>, r: nat, m: nat) {
    && r * m + m <= |next|
    && forall i :: r * m <= i < r * m + m ==> next[i] == if i == r * m + m - 1 then -1 else i + 1
  }

  lemma SegmentBounds(m: nat, r: nat, n: nat)
    requires r < n
    ensures r * m + m <= n * m && forall q: nat :: q < r ==> q * m + m <= r * m
  {
    MulMono(r + 1, n, m);
    Distrib(r, 1, m);
    forall q: nat | q < r ensures q * m + m <= r * m {
      MulMono(q + 1, r, m);
      Distrib(q, 1, m);
    }
  }

  method InitSegment(next: array<int>, r: nat, m: nat)
    requires m > 0 && r * m + m <= next.Length
    modifies next
    ensures ChainOf(next[..], r, m)
    ensures forall i :: 0 <= i < next.Length && !(r * m <= i < r * m + m) ==> next[i] == old(next[i])
  {
    var base := r * m;
    for i := 0 to m - 1
      invariant forall j :: base <= j < base + i ==> next[j] == j + 1
      invariant forall j :: 0 <= j < next.Length && !(base <= j < base + i) ==> next[j] == old(next[j])
    {
      next[base + i] := base + i + 1;
    }
    next[base + m - 1] := -1;
  }

  lemma ChainFrame(next: seq<int>, next': seq<int>, q: nat, r: nat, m: nat)
    requires ChainOf(next, q, m) && |next'| == |next| && q * m + m <= r * m
    requires forall i :: 0 <= i < |next| && !(r * m <= i < r * m + m) ==> next'[i] == next[i]
    ensures ChainOf(next', q, m)
  {
  }

  method InitChains(next: array<int>, freeOps: array<int>, clients: nat, m: nat)
    requires m > 0 && next.Length == clients * m && freeOps.Length == clients && next != freeOps
    modifies next, freeOps
    ensures forall r :: 0 <= r < clients ==> freeOps[r] == r * m && ChainOf(next[..], r, m)
  {
    hide ChainOf;
    for r := 0 to clients
      invariant forall q :: 0 <= q < r ==> freeOps[q] == q * m && ChainOf(next[..], q, m)
    {
      SegmentBounds(m, r, clients);
      ghost var before := next[..];
      freeOps[r] := r * m;
      InitSegment(next, r, m);
      forall q | 0 <= q < r ensures ChainOf(next[..], q, m) { ChainFrame(before, next[..], q, r, m); }
    }
  }

  /** The protocol state of a new pool. */
  ghost function Fresh(clients: nat, m: nat, ops: seq<Op>): State {
    State(m, map r: int | 0 <= r < clients :: Shared(r) := Segment(m, r), ops, seq(clients, _ => []), seq(clients, _ => []), {})
  }

  lemma FreshInit(clients: nat, m: nat, ops: seq<Op>)
    requires m > 0 && |ops| == clients * m
    ensures Init(Fresh(clients, m, ops)) && Fresh(clients, m, ops).ops == ops && Fresh(clients, m, ops).m == m
    ensures |Fresh(clients, m, ops).appended| == clients
  {
    var s := Fresh(clients, m, ops);
    forall l: Loc ensures At(s.chains, l) == if l.Shared? && 0 <= l.r < |s.appended| then Segment(s.m, l.r) else [] {
    }
  }

  lemma InitLinked(next: seq<int>, h: Heads, s: State)
    requires Init(s) && |next| == |s.ops| && |h.freeOps| == |h.back| == |h.client| == |s.appended|
    requires h.nextOps == -1 && h.stateNextOps == -1
    requires forall r :: 0 <= r < |h.client| ==>
      && h.freeOps[r] == r * s.m && ChainOf(next, r, s.m)
      && h.client[r] == ClientOps(-1, -1, -1, 0) && h.back[r].head == -1
    ensures AllLinked(next, h, s)
  {
    forall r | 0 <= r < |h.client| ensures ClientLinked(next, h, s.chains, r) {
      SegmentLinked(next, r, s.m);
      assert At(s.chains, Shared(r)) == Segment(s.m, r);
      assert At(s.chains, Local(r)) == At(s.chains, Pending(r)) == At(s.chains, Returning(r)) == [];
    }
    assert At(s.chains, Posted) == At(s.chains, Grabbed) == [];
  }

  lemma SegmentLinked(next: seq<int>, r: nat, m: nat)
    requires m > 0 && ChainOf(next, r, m)
    ensures Linked(next, r * m, Segment(m, r))
  {
  }
}
