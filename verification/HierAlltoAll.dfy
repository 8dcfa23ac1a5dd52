/** The network part of the hierarchical copy-engine alltoall (src/ce_coll.cc): every rank puts
    one block, in chunks, into each rank of the other nodes, and waits for as many signals.
    Chunk `c` of a peer travels on context `c % numCtx`.  `bytes` is the size of a block. */
module HierAlltoAll {
  import opened Arith
  import opened RingIndex
  import opened HierGather
  import CP = ChunkPlan

  /** A put: `len` bytes from offset `src` of the send buffer to offset `dst` of the peer's
      receive buffer. */
  datatype PutOp = PutOp(peer: int, src: int, dst: int, len: int)

  datatype Wait = Wait(peer: int, signals: nat)

  ghost function Remote(j: Job): nat
    requires j.nodes > 0
  {
    (j.nodes - 1) * j.locals
  }

  function Width(j: Job): nat { if j.bytes == 0 then 0 else CP.ChunkWidth(j.bytes, j.numCtx) }

  function Chunks(j: Job): nat { CP.NumChunks(j.bytes, Width(j)) }

  lemma WidthIsGood(j: Job)
    ensures CP.GoodWidth(Width(j))
  {
    if j.bytes > 0 { CP.WidthAligned(j.bytes, j.numCtx); }
  }

  // ---------------------------------------------------------------------------
  // Both sides visit every remote rank once

  /** The sender goes round the nodes upwards from its own, the receiver downwards. */
  ghost function NodeAt(j: Job, node: int, up: bool, s: int): int
    requires j.nodes > 0
  {
    if up then Fwd(j.nodes, node, s) else Back(j.nodes, node, s)
  }

  ghost function StepTo(j: Job, node: int, up: bool, n: int): int
    requires j.nodes > 0
  {
    if up then j.nodes - Off(j.nodes, node, n) else Off(j.nodes, node, n)
  }

  lemma StepIs(j: Job, node: int, up: bool, n: int, s: int)
    requires Table(j) && 0 <= node < j.nodes && 0 <= n < j.nodes && n != node && 1 <= s < j.nodes
    ensures 1 <= StepTo(j, node, up, n) < j.nodes
    ensures NodeAt(j, node, up, s) == n <==> s == StepTo(j, node, up, n)
    ensures 0 <= NodeAt(j, node, up, s) < j.nodes && NodeAt(j, node, up, s) != node
  {
    hide Fwd, Back, Off;
    FwdFacts(j.nodes, node, s);
    BackFacts(j.nodes, node, s);
    OffSelf(j.nodes, node);
    OffBound(j.nodes, node, n);
    if Off(j.nodes, node, n) == 0 { OffUnique(j.nodes, node, n, node); }
    if s == StepTo(j, node, up, n) { OffUnique(j.nodes, node, n, NodeAt(j, node, up, s)); }
  }

  lemma OffBound(n: nat, r: int, x: int)
    requires n > 0
    ensures 0 <= Off(n, r, x) < n
  {
  }

  /** The `p`-th peer. */
  ghost function PeerAt(j: Job, node: int, up: bool, p: nat): int
    requires Table(j)
  {
    j.rankOf[NodeAt(j, node, up, p / j.locals + 1)][p % j.locals]
  }

  ghost function IndexOf(j: Job, node: int, up: bool, n: int, r: int): int
    requires Table(j)
  {
    (StepTo(j, node, up, n) - 1) * j.locals + r
  }

  /** A rank of another node is the peer at exactly one index. */
  lemma PeerIndex(j: Job, node: int, up: bool, n: int, r: int, p: nat)
    requires ValidJob(j) && 0 <= node < j.nodes && IsSeat(j, n, r) && n != node && p < Remote(j)
    ensures 0 <= IndexOf(j, node, up, n, r) < Remote(j)
    ensures PeerAt(j, node, up, p) == Rank(j, n, r) <==> p == IndexOf(j, node, up, n, r)
  {
    StepBound(j, p);
    StepIs(j, node, up, n, p / j.locals + 1);
    hide NodeAt, StepTo, Remote;
    Places(j.locals, j.nodes, p, StepTo(j, node, up, n), r);
    PeerSeat(j, node, up, p, n, r);
  }

  lemma Places(locals: nat, nodes: nat, p: nat, t: int, r: int)
    requires 0 <= r < locals && 1 <= t < nodes
    ensures 0 <= (t - 1) * locals + r < (nodes - 1) * locals
    ensures p == (t - 1) * locals + r <==> p / locals + 1 == t && p % locals == r
  {
    MulMono(t, nodes - 1, locals);
    Distrib(t, 1, locals);
    DivModUnique((t - 1) * locals + r, locals, t - 1, r);
    assert p == p / locals * locals + p % locals;
  }

  lemma PeerSeat(j: Job, node: int, up: bool, p: nat, n: int, r: int)
    requires ValidJob(j) && IsSeat(j, n, r)
    ensures PeerAt(j, node, up, p) == Rank(j, n, r) <==> NodeAt(j, node, up, p / j.locals + 1) == n && p % j.locals == r
  {
    var m, q := NodeAt(j, node, up, p / j.locals + 1), p % j.locals;
    assert IsSeat(j, m, q) && PeerAt(j, node, up, p) == Rank(j, m, q);
  }

  lemma StepBound(j: Job, p: nat)
    requires Table(j) && p < Remote(j)
    ensures 1 <= p / j.locals + 1 < j.nodes && 0 <= p % j.locals < j.locals
  {
    if p / j.locals >= j.nodes - 1 { MulMono(j.nodes - 1, p / j.locals, j.locals); }
  }

  /** No rank of the own node is a peer. */
  lemma PeerElsewhere(j: Job, node: int, up: bool, r: int, p: nat)
    requires ValidJob(j) && IsSeat(j, node, r) && p < Remote(j)
    ensures PeerAt(j, node, up, p) != Rank(j, node, r)
  {
    hide NodeAt, StepTo;
    StepBound(j, p);
    var s := p / j.locals + 1;
    var other := if node == 0 then 1 else 0;
    StepIs(j, node, up, other, s);
    assert PeerAt(j, node, up, p) == Rank(j, NodeAt(j, node, up, s), p % j.locals);
  }

  // ---------------------------------------------------------------------------
  // What the two sides build

  /** The puts of the first `c` chunks for one peer, on context `k`. */
  ghost function ChunkPuts(j: Job, me: int, peer: int, k: int, c: nat): seq<PutOp>
    requires j.numCtx > 0
  {
    if c == 0 then [] else
    ChunkPuts(j, me, peer, k, c - 1) + if (c - 1) % j.numCtx == k then [ChunkPut(j, me, peer, c - 1)] else []
  }

  ghost function ChunkPut(j: Job, me: int, peer: int, c: nat): PutOp {
    var off := CP.ChunkAt(j.bytes, Width(j), c);
    PutOp(peer, peer * j.bytes + off, me * j.bytes + off, CP.ChunkLen(j.bytes, Width(j), c))
  }

  /** The puts for the first `p` peers. */
  ghost function Puts(j: Job, me: int, node: int, k: int, p: nat): seq<PutOp>
    requires Table(j)
  {
    if p == 0 then [] else Puts(j, me, node, k, p - 1) + ChunkPuts(j, me, PeerAt(j, node, true, p - 1), k, Chunks(j))
  }

  /** Chunks of one peer on context `k`, of the first `c`. */
  ghost function ChunksOn(j: Job, k: int, c: nat): nat
    requires j.numCtx > 0
  {
    if c == 0 then 0 else ChunksOn(j, k, c - 1) + if (c - 1) % j.numCtx == k then 1 else 0
  }

  /** The waits for the first `p` peers. */
  ghost function Waits(j: Job, node: int, k: int, p: nat): seq<Wait>
    requires Table(j)
  {
    if p == 0 then [] else
    var sig := ChunksOn(j, k, Chunks(j));
    Waits(j, node, k, p - 1) + if sig > 0 then [Wait(PeerAt(j, node, false, p - 1), sig)] else []
  }

  // ---------------------------------------------------------------------------
  // Raised equals awaited

  ghost function Count(ops: seq<PutOp>, f: PutOp -> bool): nat {
    if ops == [] then 0 else Count(ops[..|ops| - 1], f) + if f(ops[|ops| - 1]) then 1 else 0
  }

  lemma {:induction false} CountConcat(a: seq<PutOp>, b: seq<PutOp>, f: PutOp -> bool)
    ensures Count(a + b, f) == Count(a, f) + Count(b, f)
  {
    if b == [] {
      assert a + b == a;
    } else {
      CountConcat(a, b[..|b| - 1], f);
      assert (a + b)[..|a + b| - 1] == a + b[..|b| - 1];
    }
  }

  lemma CountOne(op: PutOp, f: PutOp -> bool)
    ensures Count([op], f) == if f(op) then 1 else 0
  {
    assert [op][..0] == [];
  }

  /** Each put raises one signal at its peer. */
  ghost function GoesTo(peer: int): PutOp -> bool { (op: PutOp) => op.peer == peer }

  ghost function Raised(ops: seq<PutOp>, peer: int): nat { Count(ops, GoesTo(peer)) }

  ghost function Awaited(waits: seq<Wait>, peer: int): nat {
    if waits == [] then 0 else
    Awaited(waits[..|waits| - 1], peer) + if waits[|waits| - 1].peer == peer then waits[|waits| - 1].signals else 0
  }

  /** One more chunk. */
  lemma OneMore(j: Job, me: int, peer: int, k: int, c: nat, f: PutOp -> bool)
    requires j.numCtx > 0
    ensures Count(ChunkPuts(j, me, peer, k, c + 1), f)
         == Count(ChunkPuts(j, me, peer, k, c), f) + if c % j.numCtx == k && f(ChunkPut(j, me, peer, c)) then 1 else 0
    ensures ChunksOn(j, k, c + 1) == ChunksOn(j, k, c) + if c % j.numCtx == k then 1 else 0
  {
    hide Count, ChunkPut;
    var op, some := ChunkPut(j, me, peer, c), ChunkPuts(j, me, peer, k, c);
    CountConcat(some, [op], f);
    CountOne(op, f);
    assert some + [] == some;
  }

  lemma {:induction false} ChunkPutsRaise(j: Job, me: int, peer: int, k: int, c: nat, to: int)
    requires j.numCtx > 0
    ensures Raised(ChunkPuts(j, me, peer, k, c), to) == if to == peer then ChunksOn(j, k, c) else 0
    decreases c
  {
    if c == 0 {
      Nothing(GoesTo(to));
    } else {
      hide Count, ChunkPuts, ChunksOn;
      ChunkPutsRaise(j, me, peer, k, c - 1, to);
      OneMore(j, me, peer, k, c - 1, GoesTo(to));
    }
  }

  lemma Nothing(f: PutOp -> bool)
    ensures Count([], f) == 0
  {
  }

  lemma {:induction false} PutsRaise(j: Job, me: int, node: int, k: int, p: nat, n: int, r: int)
    requires ValidJob(j) && 0 <= node < j.nodes && IsSeat(j, n, r) && p <= Remote(j)
    ensures Raised(Puts(j, me, node, k, p), Rank(j, n, r))
         == if n != node && IndexOf(j, node, true, n, r) < p then ChunksOn(j, k, Chunks(j)) else 0
    decreases p
  {
    hide Count, ChunksOn, ChunkPuts, PeerAt, IndexOf, Rank, Chunks;
    var to := Rank(j, n, r);
    var f := GoesTo(to);
    if p == 0 {
      Nothing(f);
      if n != node && Remote(j) > 0 { PeerIndex(j, node, true, n, r, 0); }
      if n != node && Remote(j) == 0 { NoOthers(j, node, n); }
    } else {
      PutsRaise(j, me, node, k, p - 1, n, r);
      var peer := PeerAt(j, node, true, p - 1);
      CountConcat(Puts(j, me, node, k, p - 1), ChunkPuts(j, me, peer, k, Chunks(j)), f);
      ChunkPutsRaise(j, me, peer, k, Chunks(j), to);
      if n == node { PeerElsewhere(j, node, true, r, p - 1); } else { PeerIndex(j, node, true, n, r, p - 1); }
    }
  }

  lemma NoOthers(j: Job, node: int, n: int)
    requires Table(j) && Remote(j) == 0 && 0 <= node < j.nodes && 0 <= n < j.nodes
    ensures n == node
  {
    if j.nodes > 1 { MulMono(1, j.nodes - 1, j.locals); }
  }

  lemma AwaitedSnoc(waits: seq<Wait>, w: Wait, peer: int)
    ensures Awaited(waits + [w], peer) == Awaited(waits, peer) + if w.peer == peer then w.signals else 0
  {
    assert (waits + [w])[..|waits|] == waits;
  }

  lemma {:induction false} WaitsAwait(j: Job, node: int, k: int, p: nat, n: int, r: int)
    requires ValidJob(j) && 0 <= node < j.nodes && IsSeat(j, n, r) && p <= Remote(j)
    ensures Awaited(Waits(j, node, k, p), Rank(j, n, r))
         == if n != node && IndexOf(j, node, false, n, r) < p then ChunksOn(j, k, Chunks(j)) else 0
    decreases p
  {
    hide ChunksOn, PeerAt, IndexOf, Rank, Chunks;
    if p == 0 {
      if n != node && Remote(j) > 0 { PeerIndex(j, node, false, n, r, 0); }
      if n != node && Remote(j) == 0 { NoOthers(j, node, n); }
    } else {
      WaitsAwait(j, node, k, p - 1, n, r);
      var sig, some := ChunksOn(j, k, Chunks(j)), Waits(j, node, k, p - 1);
      AwaitedSnoc(some, Wait(PeerAt(j, node, false, p - 1), sig), Rank(j, n, r));
      assert some + [] == some;
      if n == node { PeerElsewhere(j, node, false, r, p - 1); } else { PeerIndex(j, node, false, n, r, p - 1); }
    }
  }

  /** For any two ranks and any context, the signals that the puts of the first raise at the
      second are the signals that the second awaits from the first: the number of chunks of a
      block on the context between ranks of different nodes, and none within a node. */
  lemma RaisedIsAwaited(j: Job, na: int, ra: int, nb: int, rb: int, k: int)
    requires ValidJob(j) && IsSeat(j, na, ra) && IsSeat(j, nb, rb)
    ensures Raised(Puts(j, Rank(j, na, ra), na, k, Remote(j)), Rank(j, nb, rb)) == Awaited(Waits(j, nb, k, Remote(j)), Rank(j, na, ra))
    ensures Awaited(Waits(j, nb, k, Remote(j)), Rank(j, na, ra)) == if na != nb then ChunksOn(j, k, Chunks(j)) else 0
  {
    hide Puts, Waits, Raised, Awaited, ChunksOn, IndexOf, Rank, Chunks;
    PutsRaise(j, Rank(j, na, ra), na, k, Remote(j), nb, rb);
    WaitsAwait(j, nb, k, Remote(j), na, ra);
    if na != nb {
      if Remote(j) == 0 { NoOthers(j, na, nb); }
      PeerIndex(j, na, true, nb, rb, 0);
      PeerIndex(j, nb, false, na, ra, 0);
    }
  }

  /** The wait list of a context names all peers in order, or nobody if there is nothing to
      await there. */
  lemma {:induction false} WaitsAt(j: Job, node: int, k: int, p: nat)
    requires ValidJob(j) && 0 <= node < j.nodes && p <= Remote(j)
    ensures |Waits(j, node, k, p)| == if ChunksOn(j, k, Chunks(j)) > 0 then p else 0
    ensures forall i :: 0 <= i < |Waits(j, node, k, p)| ==>
              Waits(j, node, k, p)[i] == Wait(PeerAt(j, node, false, i), ChunksOn(j, k, Chunks(j)))
    decreases p
  {
    hide ChunksOn, PeerAt, Chunks;
    if p > 0 { WaitsAt(j, node, k, p - 1); }
  }

  /** No peer is listed twice or without signals to await. */
  lemma WaitsDistinct(j: Job, node: int, k: int, i: nat, m: nat)
    requires ValidJob(j) && 0 <= node < j.nodes && i < m < |Waits(j, node, k, Remote(j))|
    ensures var ws := Waits(j, node, k, Remote(j)); ws[i].signals > 0 && ws[m].signals > 0 && ws[i].peer != ws[m].peer
  {
    hide ChunksOn, PeerAt, Chunks, Waits;
    WaitsAt(j, node, k, Remote(j));
    PeersDiffer(j, node, i, m);
  }

  lemma PeersDiffer(j: Job, node: int, p: nat, q: nat)
    requires ValidJob(j) && 0 <= node < j.nodes && p < q < Remote(j)
    ensures PeerAt(j, node, false, p) != PeerAt(j, node, false, q)
  {
    hide NodeAt, IndexOf;
    StepBound(j, q);
    var s := q / j.locals + 1;
    StepIs(j, node, false, if node == 0 then 1 else 0, s);
    var n, r := NodeAt(j, node, false, s), q % j.locals;
    PeerIndex(j, node, false, n, r, q);
    PeerIndex(j, node, false, n, r, p);
  }

  // ---------------------------------------------------------------------------
  // Every byte is put once

  /** `op` brings byte `d` of the block for `peer` to its place in the block from `me`. */
  ghost predicate Carries(j: Job, me: int, peer: int, d: nat, op: PutOp) {
    && op.peer == peer && op.src <= peer * j.bytes + d < op.src + op.len
    && op.dst + (peer * j.bytes + d - op.src) == me * j.bytes + d
  }

  ghost function Carrying(j: Job, me: int, peer: int, d: nat): PutOp -> bool { (op: PutOp) => Carries(j, me, peer, d, op) }

  ghost function Carriers(j: Job, me: int, peer: int, d: nat, ops: seq<PutOp>): nat { Count(ops, Carrying(j, me, peer, d)) }

  lemma {:induction false} ChunkCarries(j: Job, me: int, peer: int, k: int, c: nat, to: int, d: nat, at: nat)
    requires j.numCtx > 0 && d < j.bytes && c <= Chunks(j) && at < Chunks(j)
    requires CP.ChunkAt(j.bytes, Width(j), at) <= d < CP.ChunkAt(j.bytes, Width(j), at) + CP.ChunkLen(j.bytes, Width(j), at)
    ensures Carriers(j, me, to, d, ChunkPuts(j, me, peer, k, c)) == if to == peer && at < c && at % j.numCtx == k then 1 else 0
    decreases c
  {
    if c == 0 {
      Nothing(Carrying(j, me, to, d));
    } else {
      hide Count, ChunkPuts, ChunksOn, CP.ChunkAt, CP.ChunkLen, CP.NumChunks, Width, ChunkPut, Carries;
      ChunkCarries(j, me, peer, k, c - 1, to, d, at);
      OneMore(j, me, peer, k, c - 1, Carrying(j, me, to, d));
      OnlyChunk(j, me, peer, to, d, at, c - 1);
    }
  }

  lemma OnlyChunk(j: Job, me: int, peer: int, to: int, d: nat, at: nat, c: nat)
    requires d < j.bytes && c < Chunks(j) && at < Chunks(j)
    requires CP.ChunkAt(j.bytes, Width(j), at) <= d < CP.ChunkAt(j.bytes, Width(j), at) + CP.ChunkLen(j.bytes, Width(j), at)
    ensures Carries(j, me, to, d, ChunkPut(j, me, peer, c)) <==> to == peer && c == at
  {
    hide CP.ChunkAt, CP.ChunkLen, CP.NumChunks, Width, CP.GoodWidth;
    WidthIsGood(j);
    if at < c { CP.ChunksApart(j.bytes, Width(j), at, c); }
    if c < at { CP.ChunksApart(j.bytes, Width(j), c, at); }
  }

  lemma {:induction false} PutsCarry(j: Job, me: int, node: int, k: int, p: nat, n: int, r: int, d: nat, at: nat)
    requires ValidJob(j) && 0 <= node < j.nodes && IsSeat(j, n, r) && n != node && p <= Remote(j) && d < j.bytes && at < Chunks(j)
    requires CP.ChunkAt(j.bytes, Width(j), at) <= d < CP.ChunkAt(j.bytes, Width(j), at) + CP.ChunkLen(j.bytes, Width(j), at)
    ensures Carriers(j, me, Rank(j, n, r), d, Puts(j, me, node, k, p))
         == if IndexOf(j, node, true, n, r) < p && at % j.numCtx == k then 1 else 0
    decreases p
  {
    hide Count, ChunkPuts, PeerAt, IndexOf, Rank, Chunks, CP.ChunkAt, CP.ChunkLen, Carries;
    var to := Rank(j, n, r);
    var f := Carrying(j, me, to, d);
    if p == 0 {
      Nothing(f);
      if Remote(j) == 0 { NoOthers(j, node, n); } else { PeerIndex(j, node, true, n, r, 0); }
    } else {
      PutsCarry(j, me, node, k, p - 1, n, r, d, at);
      var peer := PeerAt(j, node, true, p - 1);
      CountConcat(Puts(j, me, node, k, p - 1), ChunkPuts(j, me, peer, k, Chunks(j)), f);
      ChunkCarries(j, me, peer, k, Chunks(j), to, d, at);
      PeerIndex(j, node, true, n, r, p - 1);
    }
  }

  /** Every byte of the block from one rank to a rank of another node is carried by exactly one
      put, on exactly one context: that of its chunk, to which chunks are dealt out in turn. */
  lemma EveryByteOnce(j: Job, na: int, ra: int, nb: int, rb: int, d: nat) returns (ctx: nat, at: nat)
    requires ValidJob(j) && IsSeat(j, na, ra) && IsSeat(j, nb, rb) && na != nb && d < j.bytes
    ensures ctx == at % j.numCtx && at < Chunks(j)
    ensures CP.ChunkAt(j.bytes, Width(j), at) <= d < CP.ChunkAt(j.bytes, Width(j), at) + CP.ChunkLen(j.bytes, Width(j), at)
    ensures forall k :: Carriers(j, Rank(j, na, ra), Rank(j, nb, rb), d, Puts(j, Rank(j, na, ra), na, k, Remote(j)))
                     == if k == ctx then 1 else 0
  {
    hide Carriers, Puts, IndexOf, Rank, CP.ChunkAt, CP.ChunkLen, CP.NumChunks, Width, CP.GoodWidth;
    WidthIsGood(j);
    at := CP.ChunkOf(j.bytes, Width(j), d);
    ctx := at % j.numCtx;
    if Remote(j) == 0 { NoOthers(j, na, nb); }
    PeerIndex(j, na, true, nb, rb, 0);
    forall k ensures Carriers(j, Rank(j, na, ra), Rank(j, nb, rb), d, Puts(j, Rank(j, na, ra), na, k, Remote(j)))
                  == if k == ctx then 1 else 0
    {
      PutsCarry(j, Rank(j, na, ra), na, k, Remote(j), nb, rb, d, at);
    }
  }

  /** Each context has its share of the chunks of a block, the first ones one more. */
  lemma {:induction false} EvenLoad(j: Job, k: nat, c: nat)
    requires k < j.numCtx
    ensures ChunksOn(j, k, c) == c / j.numCtx + if k < c % j.numCtx then 1 else 0
    decreases c
  {
    if c == 0 {
      ModSmall(0, j.numCtx);
    } else {
      EvenLoad(j, k, c - 1);
      DivModNext(c - 1, j.numCtx);
    }
  }

  // ---------------------------------------------------------------------------
  // The order of puts and waits

  /** How many nodes on, or back, from `node` the node `n` is. */
  ghost function Distance(j: Job, node: int, up: bool, n: int): int
    requires j.nodes > 0
  {
    (if up then n - node else node - n) % j.nodes
  }

  /** Peers come by the distance of their node, and by local rank within a node. */
  lemma PeerOrder(j: Job, node: int, up: bool, p: nat) returns (n: int, r: int)
    requires Table(j) && 0 <= node < j.nodes && p < Remote(j)
    ensures IsSeat(j, n, r) && n != node && PeerAt(j, node, up, p) == Rank(j, n, r)
    ensures p == (Distance(j, node, up, n) - 1) * j.locals + r
  {
    hide NodeAt, Distance, Remote, StepTo;
    StepBound(j, p);
    var s := p / j.locals + 1;
    n, r := NodeAt(j, node, up, s), p % j.locals;
    StepIs(j, node, up, if node == 0 then 1 else 0, s);
    DistanceIs(j, node, up, s);
    assert p == p / j.locals * j.locals + p % j.locals;
  }

  lemma DistanceIs(j: Job, node: int, up: bool, s: int)
    requires 0 <= node < j.nodes && 1 <= s < j.nodes
    ensures Distance(j, node, up, NodeAt(j, node, up, s)) == s
  {
    hide Fwd, Back;
    FwdIs(j.nodes, node, s);
    BackIs(j.nodes, node, s);
    ModWrap(s, j.nodes);
    ModWrap(s - j.nodes, j.nodes);
  }

  /** `op` is the put of chunk `c` for the peer at index `p`, on context `k`. */
  ghost predicate PutFor(j: Job, me: int, node: int, k: int, op: PutOp, p: nat, c: nat)
    requires Table(j)
  {
    c < Chunks(j) && c % j.numCtx == k && op == ChunkPut(j, me, PeerAt(j, node, true, p), c)
  }

  lemma {:induction false} ChunkPutAt(j: Job, me: int, peer: int, k: int, n: nat, i: nat) returns (c: nat)
    requires j.numCtx > 0 && i < |ChunkPuts(j, me, peer, k, n)|
    ensures c < n && c % j.numCtx == k && ChunkPuts(j, me, peer, k, n)[i] == ChunkPut(j, me, peer, c)
    ensures |ChunkPuts(j, me, peer, k, c)| == i
    decreases n
  {
    hide ChunkPut;
    if i < |ChunkPuts(j, me, peer, k, n - 1)| { c := ChunkPutAt(j, me, peer, k, n - 1, i); } else { c := n - 1; }
  }

  lemma {:induction false} ChunkPutsGrow(j: Job, me: int, peer: int, k: int, c: nat, n: nat)
    requires j.numCtx > 0 && c <= n
    ensures |ChunkPuts(j, me, peer, k, c)| <= |ChunkPuts(j, me, peer, k, n)|
    decreases n
  {
    if c < n { ChunkPutsGrow(j, me, peer, k, c, n - 1); }
  }

  lemma {:induction false} PutAt(j: Job, me: int, node: int, k: int, n: nat, i: nat) returns (p: nat, c: nat)
    requires Table(j) && i < |Puts(j, me, node, k, n)|
    ensures p < n && PutFor(j, me, node, k, Puts(j, me, node, k, n)[i], p, c)
    ensures i == |Puts(j, me, node, k, p)| + |ChunkPuts(j, me, PeerAt(j, node, true, p), k, c)|
    decreases n
  {
    hide ChunkPuts, ChunkPut, PeerAt, Chunks;
    var before := Puts(j, me, node, k, n - 1);
    if i < |before| {
      p, c := PutAt(j, me, node, k, n - 1, i);
    } else {
      p := n - 1;
      c := ChunkPutAt(j, me, PeerAt(j, node, true, p), k, Chunks(j), i - |before|);
    }
  }

  lemma {:induction false} PutsGrow(j: Job, me: int, node: int, k: int, p: nat, n: nat)
    requires Table(j) && p < n
    ensures |Puts(j, me, node, k, p)| + |ChunkPuts(j, me, PeerAt(j, node, true, p), k, Chunks(j))| <= |Puts(j, me, node, k, n)|
    decreases n
  {
    hide ChunkPuts, PeerAt, Chunks;
    if p < n - 1 { PutsGrow(j, me, node, k, p, n - 1); }
  }

  /** The puts of a context come in the order of their peers, and of the chunks for one peer. */
  lemma PutsOrdered(j: Job, me: int, node: int, k: int, a: nat, b: nat) returns (p: nat, c: nat, q: nat, d: nat)
    requires Table(j) && a < b < |Puts(j, me, node, k, Remote(j))|
    ensures p <= q < Remote(j) && (p == q ==> c < d)
    ensures PutFor(j, me, node, k, Puts(j, me, node, k, Remote(j))[a], p, c)
    ensures PutFor(j, me, node, k, Puts(j, me, node, k, Remote(j))[b], q, d)
  {
    hide ChunkPuts, ChunkPut, PeerAt, Puts;
    p, c := PutAt(j, me, node, k, Remote(j), a);
    q, d := PutAt(j, me, node, k, Remote(j), b);
    ChunkPutsGrow(j, me, PeerAt(j, node, true, q), k, d, Chunks(j));
    if q < p { PutsGrow(j, me, node, k, q, p); }
    if q == p && d <= c { ChunkPutsGrow(j, me, PeerAt(j, node, true, q), k, d, c); }
  }

  // ---------------------------------------------------------------------------
  // The passes over the plan

  /** The plan that `ChunkPlan.BuildChunk` makes for all remote peers. */
  ghost predicate PlanOk(j: Job, chunkStart: seq<nat>, chunkBytes: seq<int>, chunkOff: seq<int>)
    requires j.nodes > 0
  {
    && |chunkStart| == Remote(j) + 1 && (forall p :: 0 <= p <= Remote(j) ==> chunkStart[p] == p * Chunks(j))
    && |chunkBytes| == |chunkOff| == Remote(j) * Chunks(j)
    && forall p: nat :: p < Remote(j) ==>
         CP.Filled(chunkBytes, chunkOff, p * Chunks(j), Chunks(j), CP.Uniform(j.bytes, Width(j)), CP.Last(j.bytes, Width(j)))
  }

  lemma PlanAt(j: Job, chunkStart: seq<nat>, chunkBytes: seq<int>, chunkOff: seq<int>, p: nat, c: nat)
    requires j.nodes > 0 && PlanOk(j, chunkStart, chunkBytes, chunkOff) && p < Remote(j) && c < Chunks(j)
    ensures chunkStart[p + 1] == chunkStart[p] + Chunks(j) <= |chunkBytes| == |chunkOff|
    ensures chunkBytes[chunkStart[p] + c] == CP.ChunkLen(j.bytes, Width(j), c)
    ensures chunkOff[chunkStart[p] + c] == CP.ChunkAt(j.bytes, Width(j), c)
  {
    hide Width, CP.NumChunks, CP.Uniform, CP.Last;
    assert CP.Filled(chunkBytes, chunkOff, p * Chunks(j), Chunks(j), CP.Uniform(j.bytes, Width(j)), CP.Last(j.bytes, Width(j)));
    Distrib(p, 1, Chunks(j));
    MulMono(p + 1, Remote(j), Chunks(j));
  }

  lemma AtLeastOne(j: Job)
    ensures Chunks(j) >= 1
  {
    CP.ChunksPositive(j.bytes, Width(j));
  }

  /** Pass 1: the number of puts per context, which is the room that is allocated for them. */
  method CountOps(j: Job, chunkStart: array<nat>, numRemotePeers: nat) returns (ctxOps: array<nat>)
    requires j.nodes > 0 && j.numCtx > 0 && numRemotePeers == Remote(j) && chunkStart.Length == Remote(j) + 1
    requires forall p :: 0 <= p <= Remote(j) ==> chunkStart[p] == p * Chunks(j)
    ensures ctxOps.Length == j.numCtx && forall k :: 0 <= k < j.numCtx ==> ctxOps[k] == numRemotePeers * ChunksOn(j, k, Chunks(j))
  {
    hide Chunks;
    ctxOps := new nat[j.numCtx](_ => 0);
    for p := 0 to numRemotePeers
      invariant forall k :: 0 <= k < j.numCtx ==> ctxOps[k] == p * ChunksOn(j, k, Chunks(j))
    {
      Distrib(p, 1, Chunks(j));
      assert chunkStart[p + 1] == chunkStart[p] + Chunks(j);
      var c := chunkStart[p];
      while c < chunkStart[p + 1]
        invariant chunkStart[p] <= c <= chunkStart[p] + Chunks(j)
        invariant forall k :: 0 <= k < j.numCtx ==> ctxOps[k] == p * ChunksOn(j, k, Chunks(j)) + ChunksOn(j, k, c - chunkStart[p])
      {
        var k := (c - chunkStart[p]) % j.numCtx;
        ctxOps[k] := ctxOps[k] + 1;
        c := c + 1;
      }
      forall k | 0 <= k < j.numCtx ensures ctxOps[k] == (p + 1) * ChunksOn(j, k, Chunks(j)) {
        Distrib(p, 1, ChunksOn(j, k, Chunks(j)));
      }
    }
  }

  /** Pass 2 for one peer. */
  method PutPeer(j: Job, me: int, peer: int, p: nat, chunkStart: array<nat>, chunkBytes: array<int>, chunkOff: array<int>,
                 groupOps: array<seq<PutOp>>)
    requires j.nodes > 0 && j.numCtx > 0 && p < Remote(j) && groupOps.Length == j.numCtx
    requires PlanOk(j, chunkStart[..], chunkBytes[..], chunkOff[..])
    modifies groupOps
    ensures forall k :: 0 <= k < j.numCtx ==> groupOps[k] == old(groupOps[k]) + ChunkPuts(j, me, peer, k, Chunks(j))
  {
    hide Chunks, PlanOk, ChunkPut, Width;
    AtLeastOne(j);
    PlanAt(j, chunkStart[..], chunkBytes[..], chunkOff[..], p, 0);
    PlanSize(j, chunkStart[..], chunkBytes[..], chunkOff[..]);
    var c := chunkStart[p];
    while c < chunkStart[p + 1]
      invariant chunkStart[p] <= c <= chunkStart[p] + Chunks(j)
      invariant forall k :: 0 <= k < j.numCtx ==> groupOps[k] == old(groupOps[k]) + ChunkPuts(j, me, peer, k, c - chunkStart[p])
    {
      PlanAt(j, chunkStart[..], chunkBytes[..], chunkOff[..], p, c - chunkStart[p]);
      var k := (c - chunkStart[p]) % j.numCtx;
      var subBytes, off := chunkBytes[c], chunkOff[c];
      var op := PutOp(peer, peer * j.bytes + off, me * j.bytes + off, subBytes);
      assert op == ChunkPut(j, me, peer, c - chunkStart[p]) by { PutIs(j, me, peer, c - chunkStart[p], off, subBytes); }
      groupOps[k] := groupOps[k] + [op];
      c := c + 1;
    }
  }

  lemma PlanSize(j: Job, chunkStart: seq<nat>, chunkBytes: seq<int>, chunkOff: seq<int>)
    requires j.nodes > 0 && PlanOk(j, chunkStart, chunkBytes, chunkOff)
    ensures |chunkStart| == Remote(j) + 1
  {
  }

  lemma PutIs(j: Job, me: int, peer: int, c: nat, off: int, len: int)
    requires off == CP.ChunkAt(j.bytes, Width(j), c) && len == CP.ChunkLen(j.bytes, Width(j), c)
    ensures ChunkPut(j, me, peer, c) == PutOp(peer, peer * j.bytes + off, me * j.bytes + off, len)
  {
  }

  /** Pass 2: each chunk's put goes to its context. */
  method BuildPuts(j: Job, me: int, myNode: int, chunkStart: array<nat>, chunkBytes: array<int>, chunkOff: array<int>)
    returns (groupOps: array<seq<PutOp>>)
    requires ValidJob(j) && 0 <= myNode < j.nodes && PlanOk(j, chunkStart[..], chunkBytes[..], chunkOff[..])
    ensures fresh(groupOps) && groupOps.Length == j.numCtx
    ensures forall k :: 0 <= k < j.numCtx ==> groupOps[k] == Puts(j, me, myNode, k, Remote(j))
  {
    hide PlanOk, ChunkPuts, Chunks;
    groupOps := new seq<PutOp>[j.numCtx](_ => []);
    var p := 0;
    for s := 1 to j.nodes
      invariant p == (s - 1) * j.locals
      invariant forall k :: 0 <= k < j.numCtx ==> groupOps[k] == Puts(j, me, myNode, k, p)
    {
      var n := (myNode + s) % j.nodes;
      Places(j.locals, j.nodes, 0, s, 0);
      for lr := 0 to j.locals
        invariant p == (s - 1) * j.locals + lr
        invariant forall k :: 0 <= k < j.numCtx ==> groupOps[k] == Puts(j, me, myNode, k, p)
      {
        Places(j.locals, j.nodes, p, s, lr);
        var peer := j.rankOf[n][lr];
        assert peer == PeerAt(j, myNode, true, p);
        PutPeer(j, me, peer, p, chunkStart, chunkBytes, chunkOff, groupOps);
        p := p + 1;
      }
      Distrib(s - 1, 1, j.locals);
    }
  }

  /** The receiver's count for one peer on context `k`. */
  method SignalsOf(j: Job, p: nat, k: int, chunkStart: array<nat>) returns (sig: nat)
    requires j.nodes > 0 && j.numCtx > 0 && p < Remote(j) && chunkStart.Length == Remote(j) + 1
    requires forall p :: 0 <= p <= Remote(j) ==> chunkStart[p] == p * Chunks(j)
    ensures sig == ChunksOn(j, k, Chunks(j))
  {
    hide Chunks;
    Distrib(p, 1, Chunks(j));
    assert chunkStart[p + 1] == chunkStart[p] + Chunks(j);
    sig := 0;
    var c := chunkStart[p];
    while c < chunkStart[p + 1]
      invariant chunkStart[p] <= c <= chunkStart[p] + Chunks(j)
      invariant sig == ChunksOn(j, k, c - chunkStart[p])
    {
      if (c - chunkStart[p]) % j.numCtx == k { sig := sig + 1; }
      c := c + 1;
    }
  }

  /** The wait of one context. */
  method BuildWaits(j: Job, myNode: int, k: int, chunkStart: array<nat>) returns (waits: seq<Wait>)
    requires ValidJob(j) && 0 <= myNode < j.nodes && chunkStart.Length == Remote(j) + 1
    requires forall p :: 0 <= p <= Remote(j) ==> chunkStart[p] == p * Chunks(j)
    ensures waits == Waits(j, myNode, k, Remote(j))
  {
    hide Chunks, ChunksOn;
    waits := [];
    var p := 0;
    for s := 1 to j.nodes
      invariant p == (s - 1) * j.locals
      invariant waits == Waits(j, myNode, k, p)
    {
      var n := (myNode - s + j.nodes) % j.nodes;
      Places(j.locals, j.nodes, 0, s, 0);
      for lr := 0 to j.locals
        invariant p == (s - 1) * j.locals + lr
        invariant waits == Waits(j, myNode, k, p)
      {
        Places(j.locals, j.nodes, p, s, lr);
        var sig := SignalsOf(j, p, k, chunkStart);
        if sig > 0 {
          assert j.rankOf[n][lr] == PeerAt(j, myNode, false, p);
          waits := waits + [Wait(j.rankOf[n][lr], sig)];
        }
        p := p + 1;
      }
      Distrib(s - 1, 1, j.locals);
    }
  }

  lemma {:induction false} ChunkPutsSize(j: Job, me: int, peer: int, k: int, c: nat)
    requires j.numCtx > 0
    ensures |ChunkPuts(j, me, peer, k, c)| == ChunksOn(j, k, c)
    decreases c
  {
    if c > 0 { ChunkPutsSize(j, me, peer, k, c - 1); }
  }

  lemma {:induction false} PutsSize(j: Job, me: int, node: int, k: int, p: nat)
    requires Table(j)
    ensures |Puts(j, me, node, k, p)| == p * ChunksOn(j, k, Chunks(j))
    decreases p
  {
    hide ChunkPuts, ChunksOn, PeerAt, Chunks;
    if p > 0 {
      PutsSize(j, me, node, k, p - 1);
      ChunkPutsSize(j, me, PeerAt(j, node, true, p - 1), k, Chunks(j));
      Distrib(p - 1, 1, ChunksOn(j, k, Chunks(j)));
    }
  }

  /** Phase 3 and phase 5 of one rank, from the plan to the puts and waits of every context; the
      room counted for the puts is exactly used. */
  method Prepare(j: Job, me: int, myNode: int)
    returns (ctxOps: array<nat>, groupOps: array<seq<PutOp>>, waits: array<seq<Wait>>)
    requires ValidJob(j) && 0 <= myNode < j.nodes
    ensures ctxOps.Length == groupOps.Length == waits.Length == j.numCtx
    ensures forall k :: 0 <= k < j.numCtx ==> groupOps[k] == Puts(j, me, myNode, k, Remote(j)) && |groupOps[k]| == ctxOps[k]
    ensures forall k :: 0 <= k < j.numCtx ==> waits[k] == Waits(j, myNode, k, Remote(j))
  {
    hide Puts, Waits, CP.PeerTiled, CP.Filled, CP.NumChunks, CP.Uniform, CP.Last;
    var numRemotePeers := (j.nodes - 1) * j.locals;
    var chunkStart, chunkBytes, chunkOff := CP.BuildChunk(j.bytes, numRemotePeers, Width(j));
    assert PlanOk(j, chunkStart[..], chunkBytes[..], chunkOff[..]);
    ctxOps := CountOps(j, chunkStart, numRemotePeers);
    groupOps := BuildPuts(j, me, myNode, chunkStart, chunkBytes, chunkOff);
    waits := new seq<Wait>[j.numCtx](_ => []);
    for k := 0 to j.numCtx
      invariant forall i :: 0 <= i < k ==> waits[i] == Waits(j, myNode, i, Remote(j))
      modifies waits
    {
      if ctxOps[k] != 0 {
        waits[k] := BuildWaits(j, myNode, k, chunkStart);
      } else {
        NoWaits(j, myNode, k);
        waits[k] := [];
      }
    }
    forall k | 0 <= k < j.numCtx ensures |groupOps[k]| == ctxOps[k] { PutsSize(j, me, myNode, k, Remote(j)); }
  }

  lemma NoWaits(j: Job, node: int, k: int)
    requires ValidJob(j) && 0 <= node < j.nodes && Remote(j) * ChunksOn(j, k, Chunks(j)) == 0
    ensures Waits(j, node, k, Remote(j)) == []
  {
    hide Waits, ChunksOn, Chunks;
    WaitsAt(j, node, k, Remote(j));
    var a, b := Remote(j), ChunksOn(j, k, Chunks(j));
    if a > 0 && b > 0 { MulMono(1, a, b); }
  }
}
