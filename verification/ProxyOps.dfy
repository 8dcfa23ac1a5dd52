/** How proxy operations travel between the clients of a node and the progress thread
    (src/proxy.cc).  Each client owns a segment of `m` entries of a shared array; entries move
    along chains: the client's free list, its pending chain, the posted chain, the chain the
    progress thread works on, and back.  This module is the protocol on whole chains, in any
    interleaving; ProxyPool implements it with links in an array. */
module ProxyOps {
  import opened Arith
  import opened Links
  import opened Seqs

  datatype Op = Op(opCount: nat, body: int)

  /** The chains; those with a client are that client's alone. */
  datatype Loc = Local(r: int) | Shared(r: int) | Pending(r: int) | Posted | Grabbed | Returning(r: int)

  /** `appended[r]` and `delivered[r]` are what client `r` has appended and what `ProxyAppend`
      has received from it.  A client in `failed` got an error and stops. */
  datatype State = State(m: nat, chains: map<Loc, seq<int>>, ops: seq<Op>,
                         appended: seq<seq<Op>>, delivered: seq<seq<Op>>, failed: set<int>)

  ghost function At(ch: map<Loc, seq<int>>, l: Loc): seq<int> { if l in ch then ch[l] else [] }

  ghost predicate Client(s: State, r: int) { 0 <= r < |s.appended| }

  ghost predicate Shape(s: State) {
    s.m > 0 && |s.delivered| == |s.appended| && |s.ops| == |s.appended| * s.m
  }

  // ---------------------------------------------------------------------------
  // Steps

  /** The exchange on `freeOps[r]`: the client takes over the whole returned chain. */
  ghost predicate Exchange(s: State, s': State, r: int) {
    && Client(s, r) && r !in s.failed && At(s.chains, Local(r)) == [] && At(s.chains, Shared(r)) != []
    && s' == s.(chains := s.chains[Local(r) := At(s.chains, Shared(r))][Shared(r) := []])
  }

  ghost predicate Append(s: State, s': State, r: int, op: Op) {
    var free, pending := At(s.chains, Local(r)), At(s.chains, Pending(r));
    && Client(s, r) && r !in s.failed && free != [] && |pending| < s.m && 0 <= free[0] < |s.ops|
    && s' == s.(chains := s.chains[Local(r) := free[1..]][Pending(r) := pending + [free[0]]],
                ops := s.ops[free[0] := op], appended := s.appended[r := s.appended[r] + [op]])
  }

  /** The first `k` pending operations are posted. */
  ghost predicate Post(s: State, s': State, r: int, k: nat) {
    var pending := At(s.chains, Pending(r));
    && Client(s, r) && r !in s.failed && 0 < k <= |pending|
    && s' == s.(chains := s.chains[Pending(r) := pending[k..]][Posted := At(s.chains, Posted) + pending[..k]])
  }

  ghost predicate Fail(s: State, s': State, r: int) {
    Client(s, r) && s' == s.(failed := s.failed + {r})
  }

  ghost predicate Grab(s: State, s': State) {
    && At(s.chains, Grabbed) == [] && At(s.chains, Posted) != []
    && s' == s.(chains := s.chains[Grabbed := At(s.chains, Posted)][Posted := []])
  }

  /** `ProxyAppend` of the next operation, which then joins its client's return chain. */
  ghost predicate Process(s: State, s': State) {
    var g := At(s.chains, Grabbed);
    && s.m > 0 && g != [] && 0 <= g[0] < |s.ops|
    && var r := g[0] / s.m;
       && Client(s, r) && r < |s.delivered|
       && s' == s.(chains := s.chains[Grabbed := g[1..]][Returning(r) := [g[0]] + At(s.chains, Returning(r))],
                   delivered := s.delivered[r := s.delivered[r] + [s.ops[g[0]]]])
  }

  /** A successful compare-exchange puts the return chain in front of `freeOps[r]`. */
  ghost predicate Return(s: State, s': State, r: int) {
    && Client(s, r) && At(s.chains, Returning(r)) != []
    && s' == s.(chains := s.chains[Shared(r) := At(s.chains, Returning(r)) + At(s.chains, Shared(r))][Returning(r) := []])
  }

  ghost predicate Moves(s: State, s': State, r: int, op: Op, k: nat) {
    || Exchange(s, s', r) || Append(s, s', r, op) || Post(s, s', r, k) || Fail(s, s', r)
    || Grab(s, s') || Process(s, s') || Return(s, s', r)
  }

  ghost predicate Next(s: State, s': State) {
    exists r: int, op: Op, k: nat :: Moves(s, s', r, op, k)
  }

  /** The indices of segment `r`. */
  ghost function Segment(m: nat, r: nat): (c: seq<int>)
    ensures |c| == m && forall i :: 0 <= i < m ==> c[i] == r * m + i
  {
    seq(m, i => r * m + i)
  }

  /** Every segment starts as the shared free chain of its client. */
  ghost predicate Init(s: State) {
    && Shape(s) && s.failed == {}
    && (forall r :: 0 <= r < |s.appended| ==> s.appended[r] == [] && s.delivered[r] == [])
    && (forall l: Loc :: At(s.chains, l) ==
          if l.Shared? && 0 <= l.r < |s.appended| then Segment(s.m, l.r) else [])
  }

  ghost predicate Run(trace: seq<State>) {
    trace != [] && Init(trace[0]) && forall i :: 0 <= i < |trace| - 1 ==> Next(trace[i], trace[i + 1])
  }

  // ---------------------------------------------------------------------------
  // Ownership

  ghost function Owner(m: nat, x: int): int
    requires m > 0
  {
    x / m
  }

  ghost predicate Belongs(m: nat, n: nat, l: Loc, x: int)
    requires m > 0
  {
    0 <= x < n && (l.Posted? || l.Grabbed? || Owner(m, x) == l.r)
  }

  ghost predicate Somewhere(ch: map<Loc, seq<int>>, x: int) { exists l: Loc :: x in At(ch, l) }

  /** Every index of the array is in exactly one chain, once, and only in chains open to its
      client. */
  ghost predicate Placed(m: nat, n: nat, ch: map<Loc, seq<int>>)
    requires m > 0
  {
    && (forall l: Loc :: Distinct(At(ch, l)))
    && (forall l: Loc, x :: x in At(ch, l) ==> Belongs(m, n, l, x))
    && (forall l: Loc, l': Loc, x :: x in At(ch, l) && x in At(ch, l') ==> l == l')
    && (forall x :: 0 <= x < n ==> Somewhere(ch, x))
  }

  /** Redistributing the indices of two chains between them keeps the partition. */
  lemma Redistribute(m: nat, n: nat, ch: map<Loc, seq<int>>, a: Loc, ca: seq<int>, b: Loc, cb: seq<int>)
    requires m > 0 && Placed(m, n, ch) && a != b && Distinct(ca + cb)
    requires forall x :: x in ca || x in cb <==> x in At(ch, a) || x in At(ch, b)
    requires (forall x :: x in ca ==> Belongs(m, n, a, x)) && (forall x :: x in cb ==> Belongs(m, n, b, x))
    ensures Placed(m, n, ch[a := ca][b := cb])
  {
    hide Belongs;
    var ch' := ch[a := ca][b := cb];
    assert At(ch', a) == ca && At(ch', b) == cb;
    assert forall l :: l != a && l != b ==> At(ch', l) == At(ch, l);
    DistinctParts(ca, cb);
    forall x | 0 <= x < n ensures Somewhere(ch', x) {
      assert Somewhere(ch, x);
      var l: Loc :| x in At(ch, l);
      if l == a || l == b { assert x in At(ch', a) || x in At(ch', b); } else { assert x in At(ch', l); }
    }
  }

  // ---------------------------------------------------------------------------
  // Order

  /** The operations of client `r` along a chain. */
  ghost function Flow(m: nat, ops: seq<Op>, c: seq<int>, r: int): seq<Op>
    requires m > 0 && Within(c, |ops|)
  {
    if c == [] then []
    else
      var x := c[|c| - 1];
      Flow(m, ops, c[..|c| - 1], r) + if Owner(m, x) == r then [ops[x]] else []
  }

  lemma {:induction false} FlowConcat(m: nat, ops: seq<Op>, a: seq<int>, b: seq<int>, r: int)
    requires m > 0 && Within(a, |ops|) && Within(b, |ops|)
    ensures Flow(m, ops, a + b, r) == Flow(m, ops, a, r) + Flow(m, ops, b, r)
  {
    hide Owner;
    if b == [] {
      assert a + b == a;
    } else {
      var front := b[..|b| - 1];
      assert (a + b)[..|a + b| - 1] == a + front;
      FlowConcat(m, ops, a, front, r);
    }
  }

  lemma {:induction false} FlowFrame(m: nat, ops: seq<Op>, x: int, op: Op, c: seq<int>, r: int)
    requires m > 0 && Within(c, |ops|) && 0 <= x < |ops| && x !in c
    ensures Flow(m, ops[x := op], c, r) == Flow(m, ops, c, r)
  {
    if c != [] { FlowFrame(m, ops, x, op, c[..|c| - 1], r); }
  }

  lemma FlowOne(m: nat, ops: seq<Op>, x: int, r: int)
    requires m > 0 && 0 <= x < |ops|
    ensures Flow(m, ops, [x], r) == if Owner(m, x) == r then [ops[x]] else []
  {
    assert [x][..0] == [];
  }

  /** What client `r` appended has been delivered, is with the progress thread, is posted or
      is pending, in this order. */
  ghost predicate InOrder(s: State, r: int)
    requires Shape(s) && Client(s, r)
  {
    && (forall l: Loc :: Within(At(s.chains, l), |s.ops|))
    && s.appended[r] == s.delivered[r] + Flow(s.m, s.ops, At(s.chains, Grabbed), r)
                        + Flow(s.m, s.ops, At(s.chains, Posted), r) + Flow(s.m, s.ops, At(s.chains, Pending(r)), r)
  }

  ghost predicate Inv(s: State) {
    && Shape(s) && Placed(s.m, |s.ops|, s.chains)
    && forall r :: Client(s, r) ==> InOrder(s, r)
  }

  lemma PlacedWithin(m: nat, n: nat, ch: map<Loc, seq<int>>, l: Loc)
    requires m > 0 && Placed(m, n, ch)
    ensures Within(At(ch, l), n)
  {
    var c := At(ch, l);
    forall i | 0 <= i < |c| ensures 0 <= c[i] < n { assert c[i] in At(ch, l); }
  }

  /** Two chains and their concatenation. */
  lemma TwoChains(m: nat, n: nat, ch: map<Loc, seq<int>>, a: Loc, b: Loc)
    requires m > 0 && Placed(m, n, ch) && a != b
    ensures Distinct(At(ch, a) + At(ch, b)) && Distinct(At(ch, b) + At(ch, a))
  {
    hide At, Belongs;
    forall x ensures !(x in At(ch, a) && x in At(ch, b)) { }
    DistinctJoin(At(ch, a), At(ch, b));
    DistinctJoin(At(ch, b), At(ch, a));
  }

  lemma {:induction false} ShuffleDistinct<T>(a: seq<T>, b: seq<T>)
    requires Distinct(a) && multiset(a) == multiset(b)
    ensures Distinct(b) && forall x :: x in a <==> x in b
  {
    PermDistinct(b, a);
    forall x ensures x in a <==> x in b { PermMember(a, b, x); }
  }

  /** Moving whole pieces: the two chains together stay a rearrangement of what they were. */
  lemma Rearrange(m: nat, n: nat, ch: map<Loc, seq<int>>, a: Loc, ca: seq<int>, b: Loc, cb: seq<int>)
    requires m > 0 && Placed(m, n, ch) && a != b
    requires multiset(ca) + multiset(cb) == multiset(At(ch, a)) + multiset(At(ch, b))
    requires (forall x :: x in ca ==> Belongs(m, n, a, x)) && (forall x :: x in cb ==> Belongs(m, n, b, x))
    ensures Placed(m, n, ch[a := ca][b := cb])
  {
    hide Belongs, Placed;
    TwoChains(m, n, ch, a, b);
    assert multiset(ca + cb) == multiset(At(ch, a) + At(ch, b));
    ShuffleDistinct(At(ch, a) + At(ch, b), ca + cb);
    forall x ensures x in ca || x in cb <==> x in At(ch, a) || x in At(ch, b) {
      assert x in ca + cb <==> x in ca || x in cb;
      assert x in At(ch, a) + At(ch, b) <==> x in At(ch, a) || x in At(ch, b);
    }
    Redistribute(m, n, ch, a, ca, b, cb);
  }

  lemma CanMove(m: nat, n: nat, ch: map<Loc, seq<int>>, a: Loc, b: Loc, x: int)
    requires m > 0 && Placed(m, n, ch) && x in At(ch, a)
    requires b.Posted? || b.Grabbed? || (!a.Posted? && !a.Grabbed? && a.r == b.r)
    ensures Belongs(m, n, b, x)
  {
    assert Belongs(m, n, a, x);
  }

  lemma Uncons(c: seq<int>)
    requires c != []
    ensures c == [c[0]] + c[1..] && multiset(c) == multiset{c[0]} + multiset(c[1..])
  {
    assert c == [c[0]] + c[1..];
  }

  lemma Halves(c: seq<int>, k: nat)
    requires k <= |c|
    ensures c == c[..k] + c[k..] && multiset(c) == multiset(c[..k]) + multiset(c[k..])
  {
    assert c == c[..k] + c[k..];
  }

  lemma PlacedKept(s: State, s': State, r: int, op: Op, k: nat)
    requires Shape(s) && Placed(s.m, |s.ops|, s.chains) && Moves(s, s', r, op, k)
    ensures Shape(s') && s'.m == s.m && |s'.ops| == |s.ops| && Placed(s.m, |s.ops|, s'.chains)
  {
    hide Placed, Belongs;
    var m, n, ch := s.m, |s.ops|, s.chains;
    if Exchange(s, s', r) {
      forall x | x in At(ch, Shared(r)) ensures Belongs(m, n, Local(r), x) { CanMove(m, n, ch, Shared(r), Local(r), x); }
      Rearrange(m, n, ch, Local(r), At(ch, Shared(r)), Shared(r), []);
    } else if Append(s, s', r, op) {
      AppendPlaced(s, r);
    } else if Post(s, s', r, k) {
      PostPlaced(s, r, k);
    } else if Grab(s, s') {
      forall x | x in At(ch, Posted) ensures Belongs(m, n, Grabbed, x) { CanMove(m, n, ch, Posted, Grabbed, x); }
      Rearrange(m, n, ch, Grabbed, At(ch, Posted), Posted, []);
    } else if Process(s, s') {
      ProcessPlaced(s);
    } else if Return(s, s', r) {
      ReturnPlaced(s, r);
    }
  }

  lemma AppendPlaced(s: State, r: int)
    requires Shape(s) && Placed(s.m, |s.ops|, s.chains) && At(s.chains, Local(r)) != []
    ensures var free := At(s.chains, Local(r));
            Placed(s.m, |s.ops|, s.chains[Local(r) := free[1..]][Pending(r) := At(s.chains, Pending(r)) + [free[0]]])
  {
    hide Placed, Belongs;
    var m, n, ch := s.m, |s.ops|, s.chains;
    var free, pending := At(ch, Local(r)), At(ch, Pending(r));
    Uncons(free);
    forall x | x in free[1..] ensures Belongs(m, n, Local(r), x) { CanMove(m, n, ch, Local(r), Local(r), x); }
    forall x | x in pending + [free[0]] ensures Belongs(m, n, Pending(r), x) {
      CanMove(m, n, ch, if x in pending then Pending(r) else Local(r), Pending(r), x);
    }
    Rearrange(m, n, ch, Local(r), free[1..], Pending(r), pending + [free[0]]);
  }

  lemma PostPlaced(s: State, r: int, k: nat)
    requires Shape(s) && Placed(s.m, |s.ops|, s.chains) && k <= |At(s.chains, Pending(r))|
    ensures var pending := At(s.chains, Pending(r));
            Placed(s.m, |s.ops|, s.chains[Pending(r) := pending[k..]][Posted := At(s.chains, Posted) + pending[..k]])
  {
    hide Placed, Belongs;
    var m, n, ch := s.m, |s.ops|, s.chains;
    var pending, posted := At(ch, Pending(r)), At(ch, Posted);
    Halves(pending, k);
    forall x | x in pending[k..] ensures Belongs(m, n, Pending(r), x) { CanMove(m, n, ch, Pending(r), Pending(r), x); }
    forall x | x in posted + pending[..k] ensures Belongs(m, n, Posted, x) {
      CanMove(m, n, ch, if x in posted then Posted else Pending(r), Posted, x);
    }
    Rearrange(m, n, ch, Pending(r), pending[k..], Posted, posted + pending[..k]);
  }

  lemma ProcessPlaced(s: State)
    requires Shape(s) && Placed(s.m, |s.ops|, s.chains) && At(s.chains, Grabbed) != []
    ensures var g := At(s.chains, Grabbed);
            var r := g[0] / s.m;
            Placed(s.m, |s.ops|, s.chains[Grabbed := g[1..]][Returning(r) := [g[0]] + At(s.chains, Returning(r))])
  {
    hide Placed, Belongs;
    var m, n, ch := s.m, |s.ops|, s.chains;
    var g := At(ch, Grabbed);
    var r := g[0] / m;
    var back := At(ch, Returning(r));
    Uncons(g);
    forall x | x in g[1..] ensures Belongs(m, n, Grabbed, x) { CanMove(m, n, ch, Grabbed, Grabbed, x); }
    forall x | x in [g[0]] + back ensures Belongs(m, n, Returning(r), x) {
      if x in back { CanMove(m, n, ch, Returning(r), Returning(r), x); } else { GoesHome(m, n, ch, x); }
    }
    Rearrange(m, n, ch, Grabbed, g[1..], Returning(r), [g[0]] + back);
  }

  lemma GoesHome(m: nat, n: nat, ch: map<Loc, seq<int>>, x: int)
    requires m > 0 && Placed(m, n, ch) && x in At(ch, Grabbed)
    ensures Belongs(m, n, Returning(x / m), x)
  {
    assert Belongs(m, n, Grabbed, x);
  }

  lemma ReturnPlaced(s: State, r: int)
    requires Shape(s) && Placed(s.m, |s.ops|, s.chains)
    ensures Placed(s.m, |s.ops|, s.chains[Shared(r) := At(s.chains, Returning(r)) + At(s.chains, Shared(r))][Returning(r) := []])
  {
    hide Placed, Belongs;
    var m, n, ch := s.m, |s.ops|, s.chains;
    var back, shared := At(ch, Returning(r)), At(ch, Shared(r));
    forall x | x in back + shared ensures Belongs(m, n, Shared(r), x) {
      CanMove(m, n, ch, if x in back then Returning(r) else Shared(r), Shared(r), x);
    }
    Rearrange(m, n, ch, Shared(r), back + shared, Returning(r), []);
  }

  // ---------------------------------------------------------------------------
  // Every step keeps the order

  ghost function InFlight(s: State, r: int): seq<Op>
    requires s.m > 0 && forall l: Loc :: Within(At(s.chains, l), |s.ops|)
  {
    Flow(s.m, s.ops, At(s.chains, Grabbed), r) + Flow(s.m, s.ops, At(s.chains, Posted), r)
    + Flow(s.m, s.ops, At(s.chains, Pending(r)), r)
  }

  lemma AllWithin(m: nat, n: nat, ch: map<Loc, seq<int>>)
    requires m > 0 && Placed(m, n, ch)
    ensures forall l: Loc :: Within(At(ch, l), n)
  {
    forall l: Loc ensures Within(At(ch, l), n) { PlacedWithin(m, n, ch, l); }
  }

  /** A step that leaves the three chains and their contents alone. */
  lemma SameFlow(s: State, s': State, r: int)
    requires Inv(s) && Client(s, r) && Shape(s') && s'.m == s.m && s'.ops == s.ops && Client(s', r)
    requires s'.appended[r] == s.appended[r] && s'.delivered[r] == s.delivered[r]
    requires Placed(s.m, |s.ops|, s'.chains)
    requires At(s'.chains, Grabbed) == At(s.chains, Grabbed) && At(s'.chains, Posted) == At(s.chains, Posted)
    requires At(s'.chains, Pending(r)) == At(s.chains, Pending(r))
    ensures InOrder(s', r)
  {
    hide Placed, At, Flow;
    AllWithin(s.m, |s.ops|, s'.chains);
    assert InOrder(s, r);
  }

  lemma AppendOrder(s: State, s': State, r: int, op: Op, q: int)
    requires Inv(s) && Append(s, s', r, op) && Placed(s.m, |s.ops|, s'.chains) && Shape(s') && Client(s, q)
    ensures InOrder(s', q)
  {
    hide Placed, Flow;
    var m, n, ch := s.m, |s.ops|, s.chains;
    var x := At(ch, Local(r))[0];
    AllWithin(m, n, ch);
    AllWithin(m, n, s'.chains);
    assert InOrder(s, q);
    assert x in At(ch, Local(r));
    NotElsewhere(m, n, ch, Local(r), x);
    FlowFrame(m, s.ops, x, op, At(ch, Grabbed), q);
    FlowFrame(m, s.ops, x, op, At(ch, Posted), q);
    FlowFrame(m, s.ops, x, op, At(ch, Pending(q)), q);
    if q == r {
      OwnerOf(m, n, ch, Local(r), x);
      FlowConcat(m, s'.ops, At(ch, Pending(r)), [x], r);
      FlowOne(m, s'.ops, x, r);
    }
  }

  lemma NotElsewhere(m: nat, n: nat, ch: map<Loc, seq<int>>, l: Loc, x: int)
    requires m > 0 && Placed(m, n, ch) && x in At(ch, l)
    ensures forall l': Loc :: l' != l ==> x !in At(ch, l')
  {
    hide At, Belongs;
  }

  lemma OwnerOf(m: nat, n: nat, ch: map<Loc, seq<int>>, l: Loc, x: int)
    requires m > 0 && Placed(m, n, ch) && x in At(ch, l) && !l.Posted? && !l.Grabbed?
    ensures Owner(m, x) == l.r
  {
    assert Belongs(m, n, l, x);
  }

  lemma PostOrder(s: State, s': State, r: int, k: nat, q: int)
    requires Inv(s) && Post(s, s', r, k) && Placed(s.m, |s.ops|, s'.chains) && Shape(s') && Client(s, q)
    ensures InOrder(s', q)
  {
    hide Placed, Flow;
    var m, n, ch := s.m, |s.ops|, s.chains;
    var pending, posted := At(ch, Pending(r)), At(ch, Posted);
    AllWithin(m, n, ch);
    AllWithin(m, n, s'.chains);
    assert InOrder(s, q);
    Halves(pending, k);
    FlowConcat(m, s.ops, posted, pending[..k], q);
    FlowConcat(m, s.ops, pending[..k], pending[k..], q);
    if q != r { ForeignFlow(m, n, ch, s.ops, r, k, q); }
  }

  lemma ForeignFlow(m: nat, n: nat, ch: map<Loc, seq<int>>, ops: seq<Op>, r: int, k: nat, q: int)
    requires m > 0 && |ops| == n && Placed(m, n, ch) && q != r && k <= |At(ch, Pending(r))|
    ensures Within(At(ch, Pending(r))[..k], n) && Flow(m, ops, At(ch, Pending(r))[..k], q) == []
  {
    var c := At(ch, Pending(r));
    PlacedWithin(m, n, ch, Pending(r));
    forall i | 0 <= i < |c| ensures Owner(m, c[i]) == r {
      assert c[i] in At(ch, Pending(r));
      OwnerOf(m, n, ch, Pending(r), c[i]);
    }
    NoFlow(m, ops, c[..k], q);
  }

  lemma {:induction false} NoFlow(m: nat, ops: seq<Op>, c: seq<int>, q: int)
    requires m > 0 && Within(c, |ops|) && forall i :: 0 <= i < |c| ==> Owner(m, c[i]) != q
    ensures Flow(m, ops, c, q) == []
  {
    if c != [] { NoFlow(m, ops, c[..|c| - 1], q); }
  }

  lemma GrabOrder(s: State, s': State, q: int)
    requires Inv(s) && Grab(s, s') && Placed(s.m, |s.ops|, s'.chains) && Shape(s') && Client(s, q)
    ensures InOrder(s', q)
  {
    hide Placed;
    AllWithin(s.m, |s.ops|, s'.chains);
    assert InOrder(s, q);
  }

  lemma ProcessOrder(s: State, s': State, q: int)
    requires Inv(s) && Process(s, s') && Placed(s.m, |s.ops|, s'.chains) && Shape(s') && Client(s, q)
    ensures InOrder(s', q)
  {
    hide Placed, Flow;
    var g := At(s.chains, Grabbed);
    AllWithin(s.m, |s.ops|, s.chains);
    AllWithin(s.m, |s.ops|, s'.chains);
    assert InOrder(s, q);
    Uncons(g);
    FlowConcat(s.m, s.ops, [g[0]], g[1..], q);
    FlowOne(s.m, s.ops, g[0], q);
  }

  lemma StepKeeps(s: State, s': State, r: int, op: Op, k: nat)
    requires Inv(s) && Moves(s, s', r, op, k)
    ensures Inv(s')
  {
    hide Placed, InOrder;
    PlacedKept(s, s', r, op, k);
    forall q | Client(s', q) ensures InOrder(s', q) {
      if Append(s, s', r, op) {
        AppendOrder(s, s', r, op, q);
      } else if Post(s, s', r, k) {
        PostOrder(s, s', r, k, q);
      } else if Grab(s, s') {
        GrabOrder(s, s', q);
      } else if Process(s, s') {
        ProcessOrder(s, s', q);
      } else {
        SameFlow(s, s', q);
      }
    }
  }

  lemma InitInv(s: State)
    requires Init(s)
    ensures Inv(s)
  {
    InitPlaced(s);
    AllWithin(s.m, |s.ops|, s.chains);
  }

  lemma SegmentOwner(m: nat, r: nat, n: nat, i: nat)
    requires i < m && r < n
    ensures 0 <= r * m + i < n * m && (r * m + i) / m == r
  {
    DivModUnique(r * m + i, m, r, i);
    MulMono(r + 1, n, m);
    Distrib(r, 1, m);
  }

  lemma OwnerInRange(m: nat, n: nat, x: nat)
    requires x < n * m && m > 0
    ensures 0 <= x / m < n && x == x / m * m + x % m
  {
    if x / m >= n { MulMono(n, x / m, m); }
  }

  lemma InitPlaced(s: State)
    requires Init(s)
    ensures Placed(s.m, |s.ops|, s.chains)
  {
    var m, n, ch := s.m, |s.ops|, s.chains;
    forall l: Loc, x | x in At(ch, l) ensures Belongs(m, n, l, x) && l == Shared(x / m) {
      SegmentOwner(m, l.r, |s.appended|, x - l.r * m);
    }
    forall x | 0 <= x < n ensures Somewhere(ch, x) {
      OwnerInRange(m, |s.appended|, x);
      assert At(ch, Shared(x / m))[x % m] == x;
    }
  }

  lemma {:induction false} RunInv(trace: seq<State>, i: nat)
    requires Run(trace) && i < |trace|
    ensures Inv(trace[i])
  {
    hide Inv;
    if i == 0 {
      InitInv(trace[0]);
    } else {
      RunInv(trace, i - 1);
      assert Next(trace[i - 1], trace[i]);
      var r, op, k :| Moves(trace[i - 1], trace[i], r, op, k);
      StepKeeps(trace[i - 1], trace[i], r, op, k);
    }
  }

  // ---------------------------------------------------------------------------
  // What holds in every run

  /** Every index of a client's segment is in exactly one chain, and only once in it. */
  lemma ExactlyOneChain(trace: seq<State>, i: nat, x: int) returns (l: Loc)
    requires Run(trace) && i < |trace| && 0 <= x < |trace[i].ops|
    ensures x in At(trace[i].chains, l) && Distinct(At(trace[i].chains, l))
    ensures forall l': Loc :: x in At(trace[i].chains, l') ==> l' == l
  {
    hide At, Belongs, InOrder;
    RunInv(trace, i);
    var ch := trace[i].chains;
    assert Somewhere(ch, x);
    l :| x in At(ch, l);
  }

  /** Each client's operations reach `ProxyAppend` in the order it appended them, each once:
      the delivered ones are a prefix, and all others are on their way, in order. */
  lemma DeliveredInOrder(trace: seq<State>, i: nat, r: int)
    requires Run(trace) && i < |trace| && Client(trace[i], r)
    ensures |trace[i].delivered| == |trace[i].appended| && trace[i].m > 0
    ensures forall l: Loc :: Within(At(trace[i].chains, l), |trace[i].ops|)
    ensures trace[i].appended[r] == trace[i].delivered[r] + InFlight(trace[i], r)
  {
    hide Placed, Flow, At;
    RunInv(trace, i);
    assert InOrder(trace[i], r);
  }

  lemma SegmentNotPending(m: nat, c: seq<int>, r: nat) returns (x: int)
    requires |c| < m
    ensures x !in c && r * m <= x < r * m + m
  {
    var all := Segment(m, r);
    DistinctSizeBound(c);
    assert Distinct(all);
    DistinctSize(all);
    if forall i :: 0 <= i < m ==> all[i] in c {
      assert Elements(all) <= Elements(c);
      SubsetSize(Elements(all), Elements(c));
    }
    var i :| 0 <= i < m && all[i] !in c;
    x := all[i];
  }

  lemma {:induction false} DistinctSizeBound(s: seq<int>)
    ensures |Elements(s)| <= |s|
  {
    if s != [] {
      var front, last := s[..|s| - 1], s[|s| - 1];
      DistinctSizeBound(front);
      assert s == front + [last];
      assert Elements(s) == Elements(front) + {last};
    }
  }

  /** A client that finds no free operation and is not full has one with the progress thread
      or on the way to or from it. */
  lemma WaitingClient(trace: seq<State>, i: nat, r: int) returns (x: int)
    requires Run(trace) && i < |trace| && Client(trace[i], r)
    requires At(trace[i].chains, Local(r)) == [] && At(trace[i].chains, Shared(r)) == []
    requires |At(trace[i].chains, Pending(r))| < trace[i].m
    ensures trace[i].m > 0 && 0 <= x < |trace[i].ops| && Owner(trace[i].m, x) == r
    ensures x in At(trace[i].chains, Posted) || x in At(trace[i].chains, Grabbed) || x in At(trace[i].chains, Returning(r))
  {
    hide InOrder;
    RunInv(trace, i);
    var s := trace[i];
    x := SegmentNotPending(s.m, At(s.chains, Pending(r)), r);
    SegmentOwner(s.m, r, |s.appended|, x - r * s.m);
    assert Somewhere(s.chains, x);
    var l: Loc :| x in At(s.chains, l);
    assert Belongs(s.m, |s.ops|, l, x);
  }

  /** Operation `x` is posted, in progress or on its client's return chain. */
  ghost predicate OnWay(s: State, x: int) {
    && s.m > 0 && 0 <= x < |s.ops|
    && (x in At(s.chains, Posted) || x in At(s.chains, Grabbed) || x in At(s.chains, Returning(Owner(s.m, x))))
  }

  ghost function Stage(s: State, x: int): nat {
    if x in At(s.chains, Posted) then 2 else if x in At(s.chains, Grabbed) then 1 else 0
  }

  /** A step of the progress thread. */
  ghost predicate Progress(s: State, s': State) { Grab(s, s') || Process(s, s') || exists r: int :: Return(s, s', r) }

  /** As long as an operation is on its way, the progress thread has a step that brings it nearer
      to its client: to a later stage, or nearer to the head of the grabbed chain, or back. */
  lemma ProgressMoves(s: State, x: int) returns (s': State)
    requires Inv(s) && OnWay(s, x)
    ensures Progress(s, s') && s'.m == s.m && |s'.ops| == |s.ops|
    ensures At(s'.chains, Shared(Owner(s.m, x))) != [] || (OnWay(s', x) &&
              (Stage(s', x) < Stage(s, x) || (Stage(s', x) == Stage(s, x) && |At(s'.chains, Grabbed)| < |At(s.chains, Grabbed)|)))
  {
    hide InOrder, Owner;
    var r, g, p := Owner(s.m, x), At(s.chains, Grabbed), At(s.chains, Posted);
    OwnerIs(s, x);
    if x in At(s.chains, Returning(r)) {
      s' := s.(chains := s.chains[Shared(r) := At(s.chains, Returning(r)) + At(s.chains, Shared(r))][Returning(r) := []]);
      assert Return(s, s', r);
    } else if g != [] {
      s' := ProcessHead(s, x);
    } else {
      s' := s.(chains := s.chains[Grabbed := p][Posted := []]);
      assert Grab(s, s');
      assert At(s'.chains, Posted) == [] && At(s'.chains, Grabbed) == p;
    }
  }

  lemma OwnerIs(s: State, x: int)
    requires Shape(s) && 0 <= x < |s.ops|
    ensures Client(s, Owner(s.m, x)) && Owner(s.m, x) == x / s.m
  {
    OwnerInRange(s.m, |s.appended|, x);
  }

  lemma ProcessHead(s: State, x: int) returns (s': State)
    requires Inv(s) && OnWay(s, x) && At(s.chains, Grabbed) != [] && x !in At(s.chains, Returning(Owner(s.m, x)))
    ensures Process(s, s') && s'.m == s.m && |s'.ops| == |s.ops| && OnWay(s', x) && Stage(s', x) <= Stage(s, x)
    ensures |At(s'.chains, Grabbed)| < |At(s.chains, Grabbed)|
  {
    hide InOrder, Owner;
    var g := At(s.chains, Grabbed);
    assert g[0] in At(s.chains, Grabbed);
    assert Belongs(s.m, |s.ops|, Grabbed, g[0]);
    OwnerIs(s, g[0]);
    var q := g[0] / s.m;
    s' := s.(chains := s.chains[Grabbed := g[1..]][Returning(q) := [g[0]] + At(s.chains, Returning(q))],
             delivered := s.delivered[q := s.delivered[q] + [s.ops[g[0]]]]);
    assert At(s'.chains, Grabbed) == g[1..] && At(s'.chains, Posted) == At(s.chains, Posted);
    if x == g[0] { assert x in At(s'.chains, Returning(q)); }
  }

  /** Every run can be continued by the progress thread alone until the chain that it returns to
      the operation's client is not empty. */
  lemma {:induction false} ComesBack(trace: seq<State>, x: int) returns (full: seq<State>)
    requires trace != [] && Run(trace) && OnWay(trace[|trace| - 1], x)
    ensures |trace| <= |full| && full[..|trace|] == trace && Run(full)
    ensures forall i :: |trace| - 1 <= i < |full| - 1 ==> Progress(full[i], full[i + 1])
    ensures full[|full| - 1].m == trace[|trace| - 1].m
    ensures At(full[|full| - 1].chains, Shared(Owner(trace[|trace| - 1].m, x))) != []
    decreases Stage(trace[|trace| - 1], x), |At(trace[|trace| - 1].chains, Grabbed)|
  {
    hide Inv, Init, Progress, Owner, Stage, At;
    var s := trace[|trace| - 1];
    RunInv(trace, |trace| - 1);
    var s' := ProgressMoves(s, x);
    ProgressNext(s, s');
    var longer := trace + [s'];
    assert forall i :: 0 <= i < |longer| - 1 ==> Next(longer[i], longer[i + 1]);
    if At(s'.chains, Shared(Owner(s.m, x))) != [] {
      full := longer;
    } else {
      full := ComesBack(longer, x);
      assert full[..|trace|] == full[..|longer|][..|trace|] == trace;
      assert full[|trace| - 1] == full[..|longer|][|trace| - 1] == s && full[|trace|] == full[..|longer|][|trace|] == s';
    }
  }

  lemma ProgressNext(s: State, s': State)
    requires Progress(s, s')
    ensures Next(s, s')
  {
    var op, k := Op(0, 0), 0;
    if Grab(s, s') || Process(s, s') {
      assert Moves(s, s', 0, op, k);
    } else {
      var r: int :| Return(s, s', r);
      assert Moves(s, s', r, op, k);
    }
  }

  /** A client that finds no free operation and is not full is served: the run can be continued by
      the progress thread alone until operations have come back to it. */
  lemma WaitEnds(trace: seq<State>, r: int) returns (full: seq<State>)
    requires trace != [] && Run(trace) && Client(trace[|trace| - 1], r)
    requires At(trace[|trace| - 1].chains, Local(r)) == [] && At(trace[|trace| - 1].chains, Shared(r)) == []
    requires |At(trace[|trace| - 1].chains, Pending(r))| < trace[|trace| - 1].m
    ensures |trace| <= |full| && full[..|trace|] == trace && Run(full)
    ensures forall i :: |trace| - 1 <= i < |full| - 1 ==> Progress(full[i], full[i + 1])
    ensures At(full[|full| - 1].chains, Shared(r)) != []
  {
    hide Run, Progress;
    var x := WaitingClient(trace, |trace| - 1, r);
    full := ComesBack(trace, x);
  }
}
