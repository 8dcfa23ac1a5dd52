/** The memory of the hierarchical ring allgather (src/ce_coll.cc), byte by byte and for all
    ranks.  The ranks with one local rank form a rail and run the rounds of `HierRing`; every
    rank also copies what it has and what it receives into the receive buffers of the other
    ranks of its node.  Offsets are relative to the receive buffer, which lies at one offset
    of the symmetric window on all ranks. */
module HierGather {
  import opened Arith
  import opened RingIndex
  import opened Seqs
  import opened HierRing
  import CP = ChunkPlan

  /** `rankOf[n][r]` is the rank with local rank `r` on node `n`; every rank contributes `bytes`
      bytes.  In place, the send buffer is the rank's own slot of the receive buffer. */
  datatype Job = Job(nodes: nat, locals: nat, rankOf: seq<seq<int>>, bytes: nat, numCtx: nat, inPlace: bool)

  // ---------------------------------------------------------------------------
  // Ranks and slots

  ghost predicate Table(j: Job) {
    && j.nodes > 0 && j.locals > 0 && j.numCtx > 0
    && |j.rankOf| == j.nodes && forall n :: 0 <= n < j.nodes ==> |j.rankOf[n]| == j.locals
  }

  ghost predicate IsSeat(j: Job, n: int, r: int) { 0 <= n < j.nodes && 0 <= r < j.locals }

  ghost function Rank(j: Job, n: int, r: int): int
    requires Table(j) && IsSeat(j, n, r)
  {
    j.rankOf[n][r]
  }

  ghost function NRanks(j: Job): nat { j.nodes * j.locals }

  ghost predicate Seated(j: Job, k: int)
    requires Table(j)
  {
    exists n, r :: IsSeat(j, n, r) && Rank(j, n, r) == k
  }

  /** The table is one to one between seats and ranks. */
  ghost predicate ValidJob(j: Job) {
    && Table(j)
    && (forall n, r :: IsSeat(j, n, r) ==> 0 <= Rank(j, n, r) < NRanks(j))
    && (forall n, r, m, q :: IsSeat(j, n, r) && IsSeat(j, m, q) && Rank(j, n, r) == Rank(j, m, q) ==> n == m && r == q)
    && (forall k :: 0 <= k < NRanks(j) ==> Seated(j, k))
  }

  function CwBytes(j: Job): nat { if j.bytes <= 1 then j.bytes else j.bytes / 2 }

  function CcwBytes(j: Job): nat { j.bytes - CwBytes(j) }

  function Width(j: Job): nat {
    if j.bytes == 0 then 0 else CP.RingChunkWidth(j.bytes, CwBytes(j), CcwBytes(j), j.numCtx)
  }

  /** No plan is built for an empty half. */
  function Count(bytes: nat, width: nat): nat { if bytes > 0 then CP.NumChunks(bytes, width) else 0 }

  function Cfg(j: Job): Config { Config(j.nodes, j.numCtx, Count(CwBytes(j), Width(j)), Count(CcwBytes(j), Width(j))) }

  function HalfBytes(j: Job, h: Half): nat { if h.Cw? then CwBytes(j) else CcwBytes(j) }

  function HalfStart(j: Job, h: Half): nat { if h.Cw? then 0 else CwBytes(j) }

  /** Offset and length of a chunk within a slice. */
  function Within(j: Job, h: Half): nat { HalfStart(j, h) + CP.ChunkAt(HalfBytes(j, h), Width(j), h.c) }

  function Len(j: Job, h: Half): int { CP.ChunkLen(HalfBytes(j, h), Width(j), h.c) }

  ghost function Base(j: Job, n: int, r: int): int
    requires Table(j) && IsSeat(j, n, r)
  {
    Rank(j, n, r) * j.bytes
  }

  ghost function Size(j: Job): nat { NRanks(j) * j.bytes }

  /** The clockwise chunks carry the first half of a slice and the others the rest; a slice of one
      byte goes clockwise. */
  lemma Halves(j: Job, h: Half, d: int)
    requires IsHalf(Cfg(j), h) && Within(j, h) <= d < Within(j, h) + Len(j, h)
    ensures 0 <= d < j.bytes && (h.Cw? <==> 2 * d + 1 < j.bytes || j.bytes == 1)
  {
    hide CP.NumChunks, CP.ChunkAt, CP.ChunkLen, CP.RingChunkWidth;
    GoodWidth(j);
    CP.ChunkInside(HalfBytes(j, h), Width(j), h.c);
    ChunkAtNonneg(j, h);
  }

  lemma ChunkAtNonneg(j: Job, h: Half)
    ensures CP.ChunkAt(HalfBytes(j, h), Width(j), h.c) >= 0
  {
  }

  /** Where the rank on node `i` puts a chunk of round `step` into its neighbour, and for rounds
      after the first also where it reads it. */
  ghost function SendSlot(j: Job, i: int, r: int, step: int, h: Half): int
    requires Table(j) && 0 <= r < j.locals
  {
    Base(j, SendOrigin(Cfg(j), i, step, h), r) + Within(j, h)
  }

  /** Where the rank on node `i` finds a chunk of round `step` when it fans it out. */
  ghost function FanSlot(j: Job, i: int, r: int, step: int, h: Half): int
    requires Table(j) && 0 <= r < j.locals
  {
    Base(j, RecvOrigin(Cfg(j), i, step, h), r) + Within(j, h)
  }

  /** The sender's destination is the place that the receiver fans out and then forwards. */
  lemma SameSlot(j: Job, i: int, r: int, step: int, h: Half)
    requires Table(j) && IsSeat(j, i, r) && 1 <= step <= j.nodes
    ensures SendSlot(j, if h.Cw? then Pred(j.nodes, i) else Succ(j.nodes, i), r, step, h) == FanSlot(j, i, r, step, h)
    ensures step < j.nodes ==> SendSlot(j, i, r, step + 1, h) == FanSlot(j, i, r, step, h)
  {
    hide Cfg, SendOrigin, RecvOrigin, Pred, Succ;
    CfgIs(j);
    SameOrigin(Cfg(j), i, step, h);
    if step < j.nodes { SameOrigin(Cfg(j), i, step + 1, h); }
  }

  lemma CfgIs(j: Job)
    ensures Cfg(j).nodes == j.nodes && Cfg(j).numCtx == j.numCtx
  {
  }

  /** The bytes of a piece of rail `r`. */
  ghost function Slot(j: Job, r: int, x: Piece): int
    requires Table(j) && IsSeat(j, x.origin, r)
  {
    Base(j, x.origin, r) + Within(j, x.half)
  }

  ghost predicate InSlot(j: Job, r: int, x: Piece, o: int)
    requires Table(j) && IsSeat(j, x.origin, r)
  {
    Slot(j, r, x) <= o < Slot(j, r, x) + Len(j, x.half)
  }

  // ---------------------------------------------------------------------------
  // The slots tile the receive buffer

  /** The receive buffer holds the slices in the order of the ranks. */
  lemma SliceIs(j: Job, n: int, r: int, o: int)
    requires Table(j) && IsSeat(j, n, r) && j.bytes > 0
    ensures InSlice(j, n, r, o) <==> o / j.bytes == Rank(j, n, r)
  {
    var k := Rank(j, n, r);
    assert o == o / j.bytes * j.bytes + o % j.bytes;
    if InSlice(j, n, r, o) { DivModUnique(o, j.bytes, k, o - k * j.bytes); }
  }

  lemma GoodWidth(j: Job)
    ensures CP.GoodWidth(Width(j))
  {
    if j.bytes > 0 { CP.RingWidthAligned(j.bytes, CwBytes(j), CcwBytes(j), j.numCtx); }
  }

  lemma HalfInside(j: Job, h: Half)
    requires IsHalf(Cfg(j), h)
    ensures Len(j, h) > 0 && HalfStart(j, h) <= Within(j, h) && Within(j, h) + Len(j, h) <= HalfStart(j, h) + HalfBytes(j, h) <= j.bytes
  {
    hide Width, CP.ChunkAt, CP.ChunkLen, CP.GoodWidth;
    GoodWidth(j);
    CP.ChunkInside(HalfBytes(j, h), Width(j), h.c);
  }

  lemma HalvesApart(j: Job, h: Half, g: Half, o: int)
    requires IsHalf(Cfg(j), h) && IsHalf(Cfg(j), g)
    requires Within(j, h) <= o < Within(j, h) + Len(j, h) && Within(j, g) <= o < Within(j, g) + Len(j, g)
    ensures h == g
  {
    hide Width, CP.ChunkAt, CP.ChunkLen, CP.GoodWidth;
    GoodWidth(j);
    HalfInside(j, h);
    HalfInside(j, g);
    if h.c < g.c && h.Cw? == g.Cw? { CP.ChunksApart(HalfBytes(j, h), Width(j), h.c, g.c); }
    if g.c < h.c && h.Cw? == g.Cw? { CP.ChunksApart(HalfBytes(j, h), Width(j), g.c, h.c); }
  }

  lemma HalfOf(j: Job, o: nat) returns (h: Half)
    requires o < j.bytes
    ensures IsHalf(Cfg(j), h) && Within(j, h) <= o < Within(j, h) + Len(j, h)
  {
    hide Width, CP.ChunkAt, CP.ChunkLen, CP.GoodWidth;
    GoodWidth(j);
    if o < CwBytes(j) {
      var c := CP.ChunkOf(CwBytes(j), Width(j), o);
      h := Cw(c);
    } else {
      var c := CP.ChunkOf(CcwBytes(j), Width(j), o - CwBytes(j));
      h := Ccw(c);
    }
  }

  lemma SliceInside(j: Job, n: int, r: int)
    requires ValidJob(j) && IsSeat(j, n, r)
    ensures 0 <= Base(j, n, r) && Base(j, n, r) + j.bytes <= Size(j)
  {
    var k := Rank(j, n, r);
    MulMono(k + 1, NRanks(j), j.bytes);
    Distrib(k, 1, j.bytes);
  }

  lemma SlicesApart(j: Job, n: int, r: int, m: int, q: int, o: int)
    requires ValidJob(j) && IsSeat(j, n, r) && IsSeat(j, m, q)
    requires Base(j, n, r) <= o < Base(j, n, r) + j.bytes && Base(j, m, q) <= o < Base(j, m, q) + j.bytes
    ensures n == m && r == q
  {
    var a, b := Rank(j, n, r), Rank(j, m, q);
    DivModUnique(o, j.bytes, a, o - a * j.bytes);
    DivModUnique(o, j.bytes, b, o - b * j.bytes);
  }

  ghost predicate IsSlot(j: Job, r: int, x: Piece)
    requires Table(j)
  {
    0 <= r < j.locals && IsPiece(Cfg(j), x)
  }

  /** Slots lie inside the buffer and inside the slice of their rank. */
  lemma SlotInside(j: Job, r: int, x: Piece)
    requires ValidJob(j) && IsSlot(j, r, x)
    ensures IsSeat(j, x.origin, r) && Len(j, x.half) > 0
    ensures Base(j, x.origin, r) <= Slot(j, r, x) && Slot(j, r, x) + Len(j, x.half) <= Base(j, x.origin, r) + j.bytes
    ensures 0 <= Slot(j, r, x) && Slot(j, r, x) + Len(j, x.half) <= Size(j)
  {
    hide Len, Within, Size, Base;
    CfgIs(j);
    HalfInside(j, x.half);
    SliceInside(j, x.origin, r);
  }

  /** Slots of different ranks or pieces share no byte. */
  lemma SlotsApart(j: Job, r: int, x: Piece, q: int, y: Piece, o: int)
    requires ValidJob(j) && IsSlot(j, r, x) && IsSlot(j, q, y) && IsSeat(j, x.origin, r) && IsSeat(j, y.origin, q)
    requires InSlot(j, r, x, o) && InSlot(j, q, y, o)
    ensures r == q && x == y
  {
    hide Len, Within, Base, Cfg;
    SlotInside(j, r, x);
    SlotInside(j, q, y);
    SlicesApart(j, x.origin, r, y.origin, q, o);
    HalvesApart(j, x.half, y.half, o - Base(j, x.origin, r));
  }

  /** Every byte of the buffer is in a slot. */
  lemma SlotOf(j: Job, o: int) returns (r: int, x: Piece)
    requires ValidJob(j) && 0 <= o < Size(j)
    ensures IsSlot(j, r, x) && IsSeat(j, x.origin, r) && InSlot(j, r, x, o)
  {
    hide Len, Within;
    assert j.bytes > 0;
    var k := o / j.bytes;
    DivBounds(o, j.bytes);
    if k < 0 { MulMono(k, -1, j.bytes); }
    if k >= NRanks(j) { MulMono(NRanks(j), k, j.bytes); }
    assert Seated(j, k);
    var n, s :| IsSeat(j, n, s) && Rank(j, n, s) == k;
    var h := HalfOf(j, o - k * j.bytes);
    r, x := s, Piece(n, h);
  }

  // ---------------------------------------------------------------------------
  // Steps

  /** `rails[r]` are the rounds and signals of rail `r`; `told[r][n]` says whether the rank with
      local rank `r` on node `n` has broadcast its own slice within the node; `mem[r][n]` is the
      receive buffer of that rank. */
  datatype World = World(rails: seq<State>, told: seq<seq<bool>>, mem: seq<seq<seq<int>>>)

  ghost predicate WShape(j: Job, w: World) {
    && ValidJob(j) && |w.rails| == |w.told| == |w.mem| == j.locals
    && (forall r :: 0 <= r < j.locals ==> Shape(Cfg(j), w.rails[r]) && |w.told[r]| == j.nodes && |w.mem[r]| == j.nodes)
    && (forall r, n :: IsSeat(j, n, r) ==> |w.mem[r][n]| == Size(j))
  }

  ghost predicate InMem(j: Job, q: int, n: int, o: int) { IsSeat(j, n, q) && 0 <= o < Size(j) }

  ghost function At(j: Job, w: World, q: int, n: int, o: int): int
    requires WShape(j, w) && InMem(j, q, n, o)
  {
    w.mem[q][n][o]
  }

  /** `v(o)` is what byte `o` of every receive buffer has to become: byte `o % bytes` of the send
      buffer of rank `o / bytes`. */
  ghost predicate Init(j: Job, v: int -> int, w: World) {
    && WShape(j, w)
    && (forall r :: 0 <= r < j.locals ==> HierRing.Init(Cfg(j), w.rails[r]))
    && (forall r, n :: IsSeat(j, n, r) ==> !w.told[r][n])
    && (j.inPlace ==> forall r, n, o :: InMem(j, r, n, o) && InSlice(j, n, r, o) ==> At(j, w, r, n, o) == v(o))
  }

  ghost predicate InSlice(j: Job, n: int, r: int, o: int)
    requires Table(j) && IsSeat(j, n, r)
  {
    Base(j, n, r) <= o < Base(j, n, r) + j.bytes
  }

  /** Byte `d` of the send buffer of a rank. */
  ghost function OwnByte(j: Job, v: int -> int, w: World, r: int, n: int, d: int): int
    requires WShape(j, w) && IsSeat(j, n, r) && 0 <= d < j.bytes
  {
    SliceInside(j, n, r);
    if j.inPlace then At(j, w, r, n, Base(j, n, r) + d) else v(Base(j, n, r) + d)
  }

  /** The rank copies its own slice into its slot of all receive buffers of the node; in place its
      own copy is there already. */
  ghost predicate Bcast(j: Job, v: int -> int, w: World, w': World, r: int, i: int)
    requires WShape(j, w)
  {
    && WShape(j, w') && IsSeat(j, i, r) && !w.told[r][i]
    && w'.rails == w.rails && w'.told == w.told[r := w.told[r][i := true]]
    && forall q, n, o :: InMem(j, q, n, o) ==>
         At(j, w', q, n, o) == if n == i && InSlice(j, i, r, o) then OwnByte(j, v, w, r, i, o - Base(j, i, r)) else At(j, w, q, n, o)
  }

  /** Issuing a round, waiting for one and retiring one touch no receive buffer.  The broadcast
      comes first on the stream. */
  ghost predicate Quiet(j: Job, w: World, w': World, r: int, i: int)
    requires WShape(j, w)
  {
    && IsSeat(j, i, r) && |w'.rails| == |w.rails| && w' == w.(rails := w.rails[r := w'.rails[r]])
    && (Issue(Cfg(j), w.rails[r], w'.rails[r], i) || Wait(Cfg(j), w.rails[r], w'.rails[r], i) || Retire(Cfg(j), w.rails[r], w'.rails[r], i))
    && w.told[r][i]
  }

  /** The round and the chunk of the next put of a lane. */
  ghost function StepOf(j: Job, s: State, l: Lane): nat
    requires ValidConfig(Cfg(j)) && Batch(Cfg(j), l) != []
  {
    Raised(s, l) / |Batch(Cfg(j), l)| + 1
  }

  ghost function HalfAt(j: Job, s: State, l: Lane): Half
    requires ValidConfig(Cfg(j)) && Batch(Cfg(j), l) != []
  {
    Batch(Cfg(j), l)[Raised(s, l) % |Batch(Cfg(j), l)|]
  }

  /** The next put of lane `l` of rail `r` is issued and carries chunk `h` in round `step`. */
  ghost predicate NextPut(j: Job, w: World, r: int, l: Lane, step: nat, h: Half)
    requires WShape(j, w)
  {
    && IsSeat(j, l.src, r) && ValidConfig(Cfg(j)) && Batch(Cfg(j), l) != []
    && Raised(w.rails[r], l) < w.rails[r].nodes[l.src].issued * |Batch(Cfg(j), l)|
    && step > 0 && step == StepOf(j, w.rails[r], l) && h == HalfAt(j, w.rails[r], l) && IsHalf(Cfg(j), h)
  }

  /** The bytes that a put of round `step` writes. */
  ghost predicate InSend(j: Job, i: int, r: int, step: int, h: Half, o: int)
    requires Table(j) && 0 <= r < j.locals
  {
    SendSlot(j, i, r, step, h) <= o < SendSlot(j, i, r, step, h) + Len(j, h)
  }

  /** What a put reads for byte `o` of its destination: round 1 reads the send buffer, later
      rounds the receive buffer. */
  ghost function SourceByte(j: Job, v: int -> int, w: World, r: int, i: int, step: nat, h: Half, o: int): int
    requires WShape(j, w) && IsSeat(j, i, r) && IsHalf(Cfg(j), h) && step > 0 && InSend(j, i, r, step, h, o)
  {
    HalfInside(j, h);
    OriginInRange(Cfg(j), i, step, h);
    SlotInside(j, r, Piece(SendOrigin(Cfg(j), i, step, h), h));
    if step == 1 then OwnByte(j, v, w, r, i, Within(j, h) + (o - SendSlot(j, i, r, step, h))) else At(j, w, r, i, o)
  }

  /** The bytes of one put arrive. */
  ghost predicate Written(j: Job, v: int -> int, w: World, w': World, r: int, l: Lane, step: nat, h: Half)
    requires WShape(j, w) && WShape(j, w') && IsSeat(j, l.src, r) && IsHalf(Cfg(j), h) && step > 0
  {
    forall q, n, o :: InMem(j, q, n, o) ==>
      At(j, w', q, n, o) == if q == r && n == l.dst && InSend(j, l.src, r, step, h, o)
                            then SourceByte(j, v, w, r, l.src, step, h, o) else At(j, w, q, n, o)
  }

  /** The next put of a lane writes its bytes and raises its signal. */
  ghost predicate Land(j: Job, v: int -> int, w: World, w': World, r: int, l: Lane)
    requires WShape(j, w)
  {
    && WShape(j, w') && 0 <= r < j.locals
    && w'.rails == w.rails[r := w'.rails[r]] && w'.told == w.told
    && Effect(Cfg(j), w.rails[r], w'.rails[r], l)
    && exists step: nat, h :: NextPut(j, w, r, l, step, h) && Written(j, v, w, w', r, l, step, h)
  }

  ghost predicate Fanned(j: Job, i: int, r: int, step: int, o: int)
    requires Table(j) && IsSeat(j, i, r)
  {
    exists h :: IsHalf(Cfg(j), h) && FanSlot(j, i, r, step, h) <= o < FanSlot(j, i, r, step, h) + Len(j, h)
  }

  /** The rank copies the chunks of the last round waited for to the other ranks of its node. */
  ghost predicate Fan(j: Job, w: World, w': World, r: int, i: int)
    requires WShape(j, w)
  {
    && IsSeat(j, i, r) && WShape(j, w')
    && w'.rails == w.rails[r := w'.rails[r]] && w'.told == w.told
    && Scatter(Cfg(j), w.rails[r], w'.rails[r], i)
    && forall q, n, o :: InMem(j, q, n, o) ==>
         At(j, w', q, n, o) == if n == i && q != r && Fanned(j, i, r, w.rails[r].nodes[i].scattered + 1, o)
                               then At(j, w, r, i, o) else At(j, w, q, n, o)
  }

  ghost predicate Moves(j: Job, v: int -> int, w: World, w': World, r: int, i: int, l: Lane) {
    && WShape(j, w)
    && (Bcast(j, v, w, w', r, i) || Quiet(j, w, w', r, i) || Land(j, v, w, w', r, l) || Fan(j, w, w', r, i))
  }

  ghost predicate Next(j: Job, v: int -> int, w: World, w': World) {
    exists r: int, i: int, l: Lane :: Moves(j, v, w, w', r, i, l)
  }

  ghost predicate Run(j: Job, v: int -> int, trace: seq<World>) {
    && trace != [] && Init(j, v, trace[0])
    && forall t :: 0 <= t < |trace| - 1 ==> Next(j, v, trace[t], trace[t + 1])
  }

  // ---------------------------------------------------------------------------
  // What every step keeps

  /** The rank with local rank `q` on node `n` has piece `x` of rail `r`: own slices by the
      broadcast, pieces of its own rail by puts, pieces of other rails by their fanout. */
  ghost predicate Has(j: Job, w: World, q: int, n: int, r: int, x: Piece)
    requires WShape(j, w) && IsSeat(j, n, q) && IsSlot(j, r, x)
  {
    if x.origin == n then w.told[r][n] || (j.inPlace && q == r)
    else if q == r then Holds(Cfg(j), w.rails[r], n, x)
    else Spread(Cfg(j), w.rails[r].nodes[n], n, x)
  }

  ghost predicate Known(j: Job, w: World, q: int, n: int, o: int)
    requires WShape(j, w) && InMem(j, q, n, o)
  {
    exists r: int, x: Piece :: IsSlot(j, r, x) && IsSeat(j, x.origin, r) && InSlot(j, r, x, o) && Has(j, w, q, n, r, x)
  }

  ghost predicate MemInv(j: Job, v: int -> int, w: World)
    requires WShape(j, w)
  {
    forall q, n, o :: InMem(j, q, n, o) && Known(j, w, q, n, o) ==> At(j, w, q, n, o) == v(o)
  }

  ghost predicate Inv(j: Job, v: int -> int, w: World) {
    && WShape(j, w)
    && (forall r :: 0 <= r < j.locals ==> HierRing.Inv(Cfg(j), w.rails[r]))
    && (forall r, n :: IsSeat(j, n, r) && w.rails[r].nodes[n].issued > 0 ==> w.told[r][n])
    && MemInv(j, v, w)
  }

  lemma InitInv(j: Job, v: int -> int, w: World)
    requires Init(j, v, w)
    ensures Inv(j, v, w)
  {
    hide Cfg, Slot, Len, Base;
    CfgIs(j);
    forall r | 0 <= r < j.locals ensures HierRing.Inv(Cfg(j), w.rails[r]) { HierRing.InitInv(Cfg(j), w.rails[r]); }
    forall q, n, o | InMem(j, q, n, o) && Known(j, w, q, n, o) ensures At(j, w, q, n, o) == v(o) {
      var r: int, x: Piece :| IsSlot(j, r, x) && IsSeat(j, x.origin, r) && InSlot(j, r, x, o) && Has(j, w, q, n, r, x);
      SlotInside(j, r, x);
      NothingYet(j, w, q, n, r, x);
    }
  }

  lemma NothingYet(j: Job, w: World, q: int, n: int, r: int, x: Piece)
    requires WShape(j, w) && IsSeat(j, n, q) && IsSlot(j, r, x) && Has(j, w, q, n, r, x) && !w.told[r][n]
    requires HierRing.Init(Cfg(j), w.rails[r])
    ensures j.inPlace && q == r && x.origin == n
  {
    hide Batch, Put;
  }

  /** The send buffer of a rank holds its slice. */
  lemma OwnIsRight(j: Job, v: int -> int, w: World, r: int, n: int, d: int)
    requires WShape(j, w) && MemInv(j, v, w) && IsSeat(j, n, r) && 0 <= d < j.bytes
    ensures OwnByte(j, v, w, r, n, d) == v(Base(j, n, r) + d)
  {
    hide Len, Within, Cfg;
    if j.inPlace {
      var h := HalfOf(j, d);
      CfgIs(j);
      SliceInside(j, n, r);
      var o := Base(j, n, r) + d;
      assert InSlot(j, r, Piece(n, h), o) && Has(j, w, r, n, r, Piece(n, h));
      assert Known(j, w, r, n, o);
    }
  }

  lemma BcastKeeps(j: Job, v: int -> int, w: World, w': World, r: int, i: int)
    requires Inv(j, v, w) && Bcast(j, v, w, w', r, i)
    ensures Inv(j, v, w')
  {
    hide Cfg, Slot, Len, Base, OwnByte, HierRing.Inv;
    forall q, n, o | InMem(j, q, n, o) && Known(j, w', q, n, o) ensures At(j, w', q, n, o) == v(o) {
      if n == i && InSlice(j, i, r, o) {
        OwnIsRight(j, v, w, r, i, o - Base(j, i, r));
      } else {
        var s: int, x: Piece :| IsSlot(j, s, x) && IsSeat(j, x.origin, s) && InSlot(j, s, x, o) && Has(j, w', q, n, s, x);
        SlotInside(j, s, x);
        assert Has(j, w, q, n, s, x);
        assert Known(j, w, q, n, o);
      }
    }
  }

  lemma QuietKeeps(j: Job, v: int -> int, w: World, w': World, r: int, i: int)
    requires Inv(j, v, w) && Quiet(j, w, w', r, i)
    ensures Inv(j, v, w')
  {
    hide Cfg, Slot, Len, Base, HierRing.Inv, Has, Quiet;
    QuietShape(j, v, w, w', r, i);
    forall q, n, o | InMem(j, q, n, o) && Known(j, w', q, n, o) ensures At(j, w', q, n, o) == v(o) {
      var s: int, x: Piece :| IsSlot(j, s, x) && IsSeat(j, x.origin, s) && InSlot(j, s, x, o) && Has(j, w', q, n, s, x);
      QuietHas(j, w, w', q, n, s, x);
      assert Known(j, w, q, n, o);
    }
  }

  lemma QuietShape(j: Job, v: int -> int, w: World, w': World, r: int, i: int)
    requires Inv(j, v, w) && Quiet(j, w, w', r, i)
    ensures WShape(j, w') && w'.mem == w.mem && w'.told == w.told
    ensures forall t :: 0 <= t < j.locals ==> HierRing.Inv(Cfg(j), w'.rails[t]) && w'.rails[t].raised == w.rails[t].raised
    ensures forall t, n :: IsSeat(j, n, t) ==> w'.rails[t].nodes[n].scattered == w.rails[t].nodes[n].scattered
    ensures forall t, n :: IsSeat(j, n, t) && w'.rails[t].nodes[n].issued > 0 ==> w'.told[t][n]
  {
    hide MemInv, Size, Issue, Wait, Retire, HierRing.Inv, Cfg;
    CfgIs(j);
    assert HierRing.Inv(Cfg(j), w.rails[r]);
    QuietRail(Cfg(j), w.rails[r], w'.rails[r], i);
  }

  /** What these steps do to a rail. */
  lemma QuietRail(g: Config, s: State, s': State, i: int)
    requires HierRing.Inv(g, s) && IsNode(g, i) && (Issue(g, s, s', i) || Wait(g, s, s', i) || Retire(g, s, s', i))
    ensures HierRing.Inv(g, s') && s'.raised == s.raised && |s'.nodes| == |s.nodes|
    ensures forall n :: 0 <= n < g.nodes ==>
              s'.nodes[n].scattered == s.nodes[n].scattered && (n != i ==> s'.nodes[n] == s.nodes[n])
  {
    LocalKeeps(g, s, s', i);
  }

  lemma QuietHas(j: Job, w: World, w': World, q: int, n: int, s: int, x: Piece)
    requires WShape(j, w) && WShape(j, w') && IsSeat(j, n, q) && IsSlot(j, s, x)
    requires w'.told == w.told && w'.rails[s].raised == w.rails[s].raised
    requires w'.rails[s].nodes[n].scattered == w.rails[s].nodes[n].scattered
    requires Has(j, w', q, n, s, x)
    ensures Has(j, w, q, n, s, x)
  {
    hide Cfg, Holds, InRound;
    CfgIs(j);
    if x.origin != n && q == s { HoldsSame(Cfg(j), w.rails[s], w'.rails[s], n, x); }
  }

  /** A put carries the right bytes. */
  lemma LandSource(j: Job, v: int -> int, w: World, r: int, l: Lane, step: nat, h: Half, o: int)
    requires Inv(j, v, w) && NextPut(j, w, r, l, step, h) && InSend(j, l.src, r, step, h, o)
    ensures IsSeat(j, l.src, r) && SourceByte(j, v, w, r, l.src, step, h, o) == v(o)
  {
    hide Cfg, Batch, SendOrigin, RecvOrigin, Len, Within, Base, OwnByte, Holds, MemInv;
    CfgIs(j);
    var g, s, i := Cfg(j), w.rails[r], l.src;
    var p, b := Raised(s, l), |Batch(g, l)|;
    PutIndex(b, p, s.nodes[i].issued);
    var x := Put(g, l, p);
    SourceHolds(g, s, l, p);
    OriginInRange(g, i, step, h);
    SlotInside(j, r, x);
    if step == 1 {
      OwnOrigin(g, l, p);
      HalfInside(j, h);
      OwnIsRight(j, v, w, r, i, Within(j, h) + (o - SendSlot(j, i, r, step, h)));
    } else {
      assert NodeInv(g, s.nodes[i]);
      NotOwn(g, i, step - 1, h);
      assert Has(j, w, r, i, r, x);
      KnownIsRight(j, v, w, r, i, r, x, o);
    }
  }

  lemma KnownIsRight(j: Job, v: int -> int, w: World, q: int, n: int, r: int, x: Piece, o: int)
    requires WShape(j, w) && MemInv(j, v, w) && IsSeat(j, n, q) && IsSlot(j, r, x) && IsSeat(j, x.origin, r)
    requires InSlot(j, r, x, o) && Has(j, w, q, n, r, x)
    ensures InMem(j, q, n, o) && At(j, w, q, n, o) == v(o)
  {
    hide Cfg, Slot, Len, Has;
    SlotInside(j, r, x);
    assert Known(j, w, q, n, o);
  }

  lemma LandKeeps(j: Job, v: int -> int, w: World, w': World, r: int, l: Lane)
    requires Inv(j, v, w) && Land(j, v, w, w', r, l)
    ensures Inv(j, v, w')
  {
    hide Cfg, Slot, Len, Base, InSend, HierRing.Inv, Has, SourceByte, MemInv, Size;
    LandShape(j, v, w, w', r, l);
    var step: nat, h :| NextPut(j, w, r, l, step, h) && Written(j, v, w, w', r, l, step, h);
    forall q, n, o | InMem(j, q, n, o) && Known(j, w', q, n, o) ensures At(j, w', q, n, o) == v(o) {
      if q == r && n == l.dst && InSend(j, l.src, r, step, h, o) {
        LandSource(j, v, w, r, l, step, h, o);
      } else {
        var s: int, x: Piece :| IsSlot(j, s, x) && IsSeat(j, x.origin, s) && InSlot(j, s, x, o) && Has(j, w', q, n, s, x);
        LandHas(j, w, w', r, l, step, h, q, n, s, x, o);
        KnownIsRight(j, v, w, q, n, s, x, o);
      }
    }
    assert MemInv(j, v, w') by { Spelled(j, v, w'); }
  }

  lemma Spelled(j: Job, v: int -> int, w: World)
    requires WShape(j, w) && forall q, n, o :: InMem(j, q, n, o) && Known(j, w, q, n, o) ==> At(j, w, q, n, o) == v(o)
    ensures MemInv(j, v, w)
  {
  }

  lemma LandShape(j: Job, v: int -> int, w: World, w': World, r: int, l: Lane)
    requires Inv(j, v, w) && Land(j, v, w, w', r, l)
    ensures w'.told == w.told && forall t :: 0 <= t < j.locals ==> HierRing.Inv(Cfg(j), w'.rails[t]) && w'.rails[t].nodes == w.rails[t].nodes
    ensures forall t, n :: IsSeat(j, n, t) && w'.rails[t].nodes[n].issued > 0 ==> w'.told[t][n]
  {
    hide MemInv, Size, HierRing.Inv, Cfg, Batch, InSend, SourceByte;
    CfgIs(j);
    assert HierRing.Inv(Cfg(j), w.rails[r]);
    EffectKeeps(Cfg(j), w.rails[r], w'.rails[r], l);
  }

  lemma LandHas(j: Job, w: World, w': World, r: int, l: Lane, step: nat, h: Half, q: int, n: int, s: int, x: Piece, o: int)
    requires WShape(j, w) && WShape(j, w') && NextPut(j, w, r, l, step, h)
    requires IsSeat(j, n, q) && IsSlot(j, s, x) && IsSeat(j, x.origin, s)
    requires Effect(Cfg(j), w.rails[r], w'.rails[r], l) && w'.rails == w.rails[r := w'.rails[r]] && w'.told == w.told
    requires Has(j, w', q, n, s, x) && InSlot(j, s, x, o)
    requires !(q == r && n == l.dst && InSend(j, l.src, r, step, h, o))
    ensures Has(j, w, q, n, s, x)
  {
    hide Cfg, Batch, SendOrigin, Len, Within, Base, Holds, InRound;
    CfgIs(j);
    if x.origin != n && q == s == r { HoldsGrows(Cfg(j), w.rails[r], w'.rails[r], l, n, x); }
  }

  /** What is fanned out is right. */
  lemma FanSource(j: Job, v: int -> int, w: World, r: int, i: int, step: nat, o: int)
    requires Inv(j, v, w) && IsSeat(j, i, r) && 1 <= step <= w.rails[r].nodes[i].waited && Fanned(j, i, r, step, o)
    ensures InMem(j, r, i, o) && At(j, w, r, i, o) == v(o)
  {
    hide Cfg, Batch, RecvOrigin, Len, Within, Base, Holds, MemInv;
    CfgIs(j);
    var g := Cfg(j);
    var h :| IsHalf(g, h) && FanSlot(j, i, r, step, h) <= o < FanSlot(j, i, r, step, h) + Len(j, h);
    assert NodeInv(g, w.rails[r].nodes[i]);
    RoundArrived(g, w.rails[r], i, step, h);
    NotOwn(g, i, step, h);
    var x := Piece(RecvOrigin(g, i, step, h), h);
    OriginInRange(g, i, step, h);
    KnownIsRight(j, v, w, r, i, r, x, o);
  }

  lemma FanKeeps(j: Job, v: int -> int, w: World, w': World, r: int, i: int)
    requires Inv(j, v, w) && Fan(j, w, w', r, i)
    ensures Inv(j, v, w')
  {
    hide Cfg, Slot, Len, Base, Fanned, HierRing.Inv, Has, MemInv, Size;
    FanShape(j, v, w, w', r, i);
    var step := w.rails[r].nodes[i].scattered + 1;
    forall q, n, o | InMem(j, q, n, o) && Known(j, w', q, n, o) ensures At(j, w', q, n, o) == v(o) {
      if n == i && q != r && Fanned(j, i, r, step, o) {
        FanSource(j, v, w, r, i, step, o);
      } else {
        var s: int, x: Piece :| IsSlot(j, s, x) && IsSeat(j, x.origin, s) && InSlot(j, s, x, o) && Has(j, w', q, n, s, x);
        FanHas(j, w, w', r, i, q, n, s, x, o);
        KnownIsRight(j, v, w, q, n, s, x, o);
      }
    }
    assert MemInv(j, v, w') by { Spelled(j, v, w'); }
  }

  lemma FanShape(j: Job, v: int -> int, w: World, w': World, r: int, i: int)
    requires Inv(j, v, w) && Fan(j, w, w', r, i)
    ensures w'.told == w.told && forall t :: 0 <= t < j.locals ==> HierRing.Inv(Cfg(j), w'.rails[t])
    ensures w.rails[r].nodes[i].scattered < w.rails[r].nodes[i].waited
    ensures forall t, n :: IsSeat(j, n, t) && w'.rails[t].nodes[n].issued > 0 ==> w'.told[t][n]
  {
    hide MemInv, Size, HierRing.Inv, Cfg, Fanned;
    CfgIs(j);
    assert HierRing.Inv(Cfg(j), w.rails[r]);
    LocalKeeps(Cfg(j), w.rails[r], w'.rails[r], i);
  }

  lemma FanHas(j: Job, w: World, w': World, r: int, i: int, q: int, n: int, s: int, x: Piece, o: int)
    requires WShape(j, w) && WShape(j, w') && IsSeat(j, i, r) && IsSeat(j, n, q) && IsSlot(j, s, x) && IsSeat(j, x.origin, s)
    requires Scatter(Cfg(j), w.rails[r], w'.rails[r], i) && w'.rails == w.rails[r := w'.rails[r]] && w'.told == w.told
    requires Has(j, w', q, n, s, x) && InSlot(j, s, x, o)
    requires !(n == i && q != r && Fanned(j, i, r, w.rails[r].nodes[i].scattered + 1, o))
    ensures Has(j, w, q, n, s, x)
  {
    hide Cfg, Batch, RecvOrigin, Len, Within, Base, Holds;
    CfgIs(j);
    if x.origin != n {
      if q == s {
        HoldsSame(Cfg(j), w.rails[s], w'.rails[s], n, x);
      } else if s == r && n == i {
        var step := w.rails[r].nodes[i].scattered + 1;
        var k :| 1 <= k <= step && InRound(Cfg(j), n, k, x);
        assert FanSlot(j, i, r, k, x.half) == Slot(j, r, x);
      }
    }
  }

  /** Every step, of whatever rank, keeps the invariant. */
  lemma StepKeeps(j: Job, v: int -> int, w: World, w': World)
    requires Inv(j, v, w) && Next(j, v, w, w')
    ensures Inv(j, v, w')
  {
    hide Inv, Bcast, Quiet, Land, Fan;
    var r, i, l :| Moves(j, v, w, w', r, i, l);
    if Bcast(j, v, w, w', r, i) {
      BcastKeeps(j, v, w, w', r, i);
    } else if Quiet(j, w, w', r, i) {
      QuietKeeps(j, v, w, w', r, i);
    } else if Land(j, v, w, w', r, l) {
      LandKeeps(j, v, w, w', r, l);
    } else {
      FanKeeps(j, v, w, w', r, i);
    }
  }

  lemma {:induction false} RunInv(j: Job, v: int -> int, trace: seq<World>, t: nat)
    requires Run(j, v, trace) && t < |trace|
    ensures Inv(j, v, trace[t])
  {
    hide Inv, Next, Init;
    if t == 0 {
      InitInv(j, v, trace[0]);
    } else {
      RunInv(j, v, trace, t - 1);
      StepKeeps(j, v, trace[t - 1], trace[t]);
    }
  }

  // ---------------------------------------------------------------------------
  // What the allgather achieves

  /** The ranks of node `n` have passed the last barrier: all of them are through. */
  ghost predicate NodeDone(j: Job, w: World, n: int)
    requires WShape(j, w) && 0 <= n < j.nodes
  {
    forall r :: 0 <= r < j.locals ==> w.told[r][n] && w.rails[r].nodes[n].scattered == j.nodes - 1
  }

  /** In every run, once the ranks of a node are through, each of them holds every byte of the
      slice of every rank. */
  lemma EveryRankHoldsAll(j: Job, v: int -> int, trace: seq<World>, t: nat, q: int, n: int, o: int)
    requires Run(j, v, trace) && t < |trace| && WShape(j, trace[t]) && InMem(j, q, n, o) && NodeDone(j, trace[t], n)
    ensures At(j, trace[t], q, n, o) == v(o)
  {
    hide Run, Cfg, Slot, Len, Holds, Spread, MemInv, HierRing.Inv;
    var w := trace[t];
    RunInv(j, v, trace, t);
    CfgIs(j);
    var r, x := SlotOf(j, o);
    if x.origin != n { AllArrived(Cfg(j), w.rails[r], n, x); }
    KnownIsRight(j, v, w, q, n, r, x, o);
  }

  /** A copy into the receive buffer of some rank: by a put of the rank's rail, by the fanout of
      another rank of the node, or by a broadcast. */
  datatype Copy = ByPut(l: Lane, p: nat) | ByFan(s: int, step: nat, h: Half) | ByBcast(s: int)

  /** Copies into the buffer of the rank at `(i, r)` that are still to come. */
  ghost predicate ToCome(j: Job, w: World, i: int, r: int, c: Copy)
    requires WShape(j, w) && IsSeat(j, i, r)
  {
    match c
    case ByPut(l, p) =>
      IsNode(Cfg(j), l.src) && l.dst == i && Batch(Cfg(j), l) != [] && Raised(w.rails[r], l) <= p < Rounds(Cfg(j)) * |Batch(Cfg(j), l)|
    case ByFan(s, step, h) =>
      IsSeat(j, i, s) && s != r && w.rails[s].nodes[i].scattered < step < j.nodes && IsHalf(Cfg(j), h)
    case ByBcast(s) => IsSeat(j, i, s) && !w.told[s][i] && (s == r ==> !j.inPlace)
  }

  ghost predicate Hits(j: Job, w: World, i: int, r: int, c: Copy, o: int)
    requires WShape(j, w) && IsSeat(j, i, r) && ToCome(j, w, i, r, c)
  {
    match c
    case ByPut(l, p) =>
      var x := Put(Cfg(j), l, p);
      IsSlot(j, r, x) && IsSeat(j, x.origin, r) && InSlot(j, r, x, o)
    case ByFan(s, step, h) => FanSlot(j, i, s, step, h) <= o < FanSlot(j, i, s, step, h) + Len(j, h)
    case ByBcast(s) => InSlice(j, i, s, o)
  }

  /** Byte `o` of its receive buffer is read by a put that the rank at `(i, r)` has issued. */
  ghost predicate PutReads(j: Job, w: World, i: int, r: int, l: Lane, p: nat, o: int)
    requires WShape(j, w) && IsSeat(j, i, r)
  {
    && l.src == i && Batch(Cfg(j), l) != [] && p < w.rails[r].nodes[i].issued * |Batch(Cfg(j), l)|
    && var step, h := p / |Batch(Cfg(j), l)| + 1, Batch(Cfg(j), l)[p % |Batch(Cfg(j), l)|];
       (step > 1 || j.inPlace) && InSend(j, i, r, step, h, o)
  }

  /** In every run, a byte being sent is never a byte still to be written. */
  lemma NoClash(j: Job, v: int -> int, trace: seq<World>, t: nat, i: int, r: int, l: Lane, p: nat, c: Copy, o: int)
    requires Run(j, v, trace) && t < |trace| && WShape(j, trace[t]) && IsSeat(j, i, r)
    requires PutReads(j, trace[t], i, r, l, p, o) && ToCome(j, trace[t], i, r, c)
    ensures !Hits(j, trace[t], i, r, c, o)
  {
    RunInv(j, v, trace, t);
    SentElsewhere(j, v, trace[t], i, r, l, p, c, o);
  }

  lemma SentElsewhere(j: Job, v: int -> int, w: World, i: int, r: int, l: Lane, p: nat, c: Copy, o: int)
    requires Inv(j, v, w) && IsSeat(j, i, r) && PutReads(j, w, i, r, l, p, o) && ToCome(j, w, i, r, c)
    ensures !Hits(j, w, i, r, c, o)
  {
    hide Cfg, Batch, SendOrigin, RecvOrigin, Len, Within, Base, Holds, MemInv;
    CfgIs(j);
    var g, s := Cfg(j), w.rails[r];
    var x, b := Put(g, l, p), |Batch(g, l)|;
    PutIndex(b, p, s.nodes[i].issued);
    BatchHas(g, l, x.half);
    OriginInRange(g, i, p / b + 1, x.half);
    if c.ByPut? {
      PiecesDiffer(g, s, l, p, c.l, c.p);
    } else {
      assert s.nodes[i].issued > 0;
    }
    OtherBytes(j, w, i, r, x, c, o);
  }

  /** Copies of other pieces, of other ranks and of own slices of other ranks lie elsewhere. */
  lemma OtherBytes(j: Job, w: World, i: int, r: int, x: Piece, c: Copy, o: int)
    requires WShape(j, w) && IsSeat(j, i, r) && IsSlot(j, r, x) && IsSeat(j, x.origin, r) && InSlot(j, r, x, o)
    requires ToCome(j, w, i, r, c) && (c.ByPut? ==> Put(Cfg(j), c.l, c.p) != x) && (c.ByBcast? ==> c.s != r)
    ensures !Hits(j, w, i, r, c, o)
  {
    hide Cfg, Batch, Put, Len, Within, Base, RecvOrigin;
    CfgIs(j);
    if Hits(j, w, i, r, c, o) {
      match c
      case ByPut(l, p) => SlotsApart(j, r, x, r, Put(Cfg(j), l, p), o);
      case ByFan(s, step, h) =>
        OriginInRange(Cfg(j), i, step, h);
        SlotsApart(j, r, x, s, Piece(RecvOrigin(Cfg(j), i, step, h), h), o);
      case ByBcast(s) =>
        SlotInside(j, r, x);
        SlicesApart(j, x.origin, r, i, s, o);
    }
  }

  /** In every run, a byte being fanned out is never a byte still to be written. */
  lemma FanNoClash(j: Job, v: int -> int, trace: seq<World>, t: nat, i: int, r: int, step: nat, h: Half, c: Copy, o: int)
    requires Run(j, v, trace) && t < |trace| && WShape(j, trace[t]) && IsSeat(j, i, r)
    requires 1 <= step <= trace[t].rails[r].nodes[i].waited && IsHalf(Cfg(j), h)
    requires FanSlot(j, i, r, step, h) <= o < FanSlot(j, i, r, step, h) + Len(j, h) && ToCome(j, trace[t], i, r, c)
    ensures !Hits(j, trace[t], i, r, c, o)
  {
    RunInv(j, v, trace, t);
    FannedElsewhere(j, v, trace[t], i, r, step, h, c, o);
  }

  lemma FannedElsewhere(j: Job, v: int -> int, w: World, i: int, r: int, step: nat, h: Half, c: Copy, o: int)
    requires Inv(j, v, w) && IsSeat(j, i, r) && 1 <= step <= w.rails[r].nodes[i].waited && IsHalf(Cfg(j), h)
    requires FanSlot(j, i, r, step, h) <= o < FanSlot(j, i, r, step, h) + Len(j, h) && ToCome(j, w, i, r, c)
    ensures !Hits(j, w, i, r, c, o)
  {
    hide Cfg, Batch, SendOrigin, RecvOrigin, Len, Within, Base, MemInv;
    CfgIs(j);
    var g, s := Cfg(j), w.rails[r];
    assert NodeInv(g, s.nodes[i]);
    OriginInRange(g, i, step, h);
    var x := Piece(RecvOrigin(g, i, step, h), h);
    if c.ByPut? { LaterRound(g, s, i, step, x, c.l, c.p); }
    OtherBytes(j, w, i, r, x, c, o);
  }

  lemma LaterRound(g: Config, s: State, i: int, step: nat, x: Piece, l: Lane, p: nat)
    requires HierRing.Inv(g, s) && IsNode(g, i) && 1 <= step <= s.nodes[i].waited && InRound(g, i, step, x)
    requires IsNode(g, l.src) && l.dst == i && Batch(g, l) != [] && Raised(s, l) <= p < Rounds(g) * |Batch(g, l)|
    ensures Put(g, l, p) != x
  {
    hide Batch, Put, RecvOrigin, RoundOf;
    assert NodeInv(g, s.nodes[i]);
    InboundRound(g, l, p);
    var b := |Batch(g, l)|;
    var y := Put(g, l, p);
    PutIndex(b, p, Rounds(g));
    if y == x {
      RoundIs(g, i, x, step);
      assert WaitInv(g, s, i, l.ctx) by { LaneCtx(g, l, y.half); }
      MulMono(p / b + 1, s.nodes[i].waited, b);
    }
  }

  // ---------------------------------------------------------------------------
  // No deadlock

  /** Buffers with given contents. */
  lemma Buffers(j: Job, f: (int, int, int) -> int) returns (mem: seq<seq<seq<int>>>)
    ensures |mem| == j.locals && (forall q :: 0 <= q < j.locals ==> |mem[q]| == j.nodes)
    ensures forall q, n :: IsSeat(j, n, q) ==> |mem[q][n]| == Size(j)
    ensures forall q, n, o :: InMem(j, q, n, o) ==> mem[q][n][o] == f(q, n, o)
  {
    hide Size;
    mem := seq(j.locals, q => seq(j.nodes, n => seq(Size(j), o => f(q, n, o))));
  }

  lemma CanBcast(j: Job, v: int -> int, w: World, r: int, i: int) returns (w': World)
    requires WShape(j, w) && IsSeat(j, i, r) && !w.told[r][i]
    ensures Bcast(j, v, w, w', r, i)
  {
    hide OwnByte, Base, Size, Cfg;
    var mem := Buffers(j, (q, n, o) =>
      if !InMem(j, q, n, o) then 0
      else if n == i && InSlice(j, i, r, o) then OwnByte(j, v, w, r, i, o - Base(j, i, r)) else At(j, w, q, n, o));
    w' := World(w.rails, w.told[r := w.told[r][i := true]], mem);
  }

  lemma CanFan(j: Job, w: World, r: int, i: int, s': State) returns (w': World)
    requires WShape(j, w) && IsSeat(j, i, r) && Scatter(Cfg(j), w.rails[r], s', i)
    ensures Fan(j, w, w', r, i) && w'.rails == w.rails[r := s']
  {
    hide Fanned, Size, Cfg;
    var step := w.rails[r].nodes[i].scattered + 1;
    var mem := Buffers(j, (q, n, o) =>
      if !InMem(j, q, n, o) then 0
      else if n == i && q != r && Fanned(j, i, r, step, o) then At(j, w, r, i, o) else At(j, w, q, n, o));
    w' := World(w.rails[r := s'], w.told, mem);
  }

  lemma CanLand(j: Job, v: int -> int, w: World, r: int, l: Lane, s': State) returns (w': World)
    requires WShape(j, w) && 0 <= r < j.locals && Effect(Cfg(j), w.rails[r], s', l)
    ensures Land(j, v, w, w', r, l) && w'.rails == w.rails[r := s']
  {
    hide SourceByte, InSend, Size, Cfg, Batch;
    CfgIs(j);
    var step, h := StepOf(j, w.rails[r], l), HalfAt(j, w.rails[r], l);
    BatchHas(Cfg(j), l, h);
    var mem := Buffers(j, (q, n, o) =>
      if !InMem(j, q, n, o) then 0
      else if q == r && n == l.dst && InSend(j, l.src, r, step, h, o) then SourceByte(j, v, w, r, l.src, step, h, o) else At(j, w, q, n, o));
    w' := World(w.rails[r := s'], w.told, mem);
    assert NextPut(j, w, r, l, step, h) && Written(j, v, w, w', r, l, step, h);
  }

  /** All ranks of all nodes are through. */
  ghost predicate Done(j: Job, w: World)
    requires WShape(j, w)
  {
    && (forall r, n :: IsSeat(j, n, r) ==> w.told[r][n])
    && (forall r :: 0 <= r < j.locals ==> HierRing.Done(Cfg(j), w.rails[r]))
  }

  /** In every run, until then some step is possible. */
  lemma NeverStuck(j: Job, v: int -> int, trace: seq<World>, t: nat) returns (w': World, r: int, i: int, l: Lane)
    requires Run(j, v, trace) && t < |trace| && WShape(j, trace[t]) && !Done(j, trace[t])
    ensures Moves(j, v, trace[t], w', r, i, l)
  {
    RunInv(j, v, trace, t);
    w', r, i, l := CanMove(j, v, trace[t]);
  }

  lemma CanMove(j: Job, v: int -> int, w: World) returns (w': World, r: int, i: int, l: Lane)
    requires Inv(j, v, w) && !Done(j, w)
    ensures Moves(j, v, w, w', r, i, l)
  {
    hide Cfg, Batch, MemInv, HierRing.Inv, HierRing.Done, Bcast, Fan, Land, Issue, Wait, Retire, Scatter, Effect;
    CfgIs(j);
    l := Lane(0, 0, 0);
    if q, n :| IsSeat(j, n, q) && !w.told[q][n] {
      r, i := q, n;
      w' := CanBcast(j, v, w, r, i);
    } else {
      var q :| 0 <= q < j.locals && !HierRing.Done(Cfg(j), w.rails[q]);
      var s', n, m := HierRing.NeverStuck(Cfg(j), w.rails[q]);
      r, i, l := q, n, m;
      if Effect(Cfg(j), w.rails[q], s', l) {
        w' := CanLand(j, v, w, r, l, s');
      } else {
        LocalSeat(Cfg(j), w.rails[q], s', n);
        if Scatter(Cfg(j), w.rails[q], s', n) {
          w' := CanFan(j, w, r, i, s');
        } else {
          w' := w.(rails := w.rails[r := s']);
        }
      }
    }
  }

  lemma LocalSeat(g: Config, s: State, s': State, i: int)
    requires Shape(g, s) && Local(g, s, s', i)
    ensures IsNode(g, i)
  {
  }

  ghost function RailWork(g: Config): State -> nat
    requires ValidConfig(g)
  {
    (s: State) => SumBy(s.nodes, Work(g))
  }

  ghost function Untold(): seq<bool> -> nat { (row: seq<bool>) => SumBy(row, (b: bool) => if b then 0 else 1) }

  ghost function AllPending(j: Job, w: World): (a: set<(int, (Lane, int))>)
    requires WShape(j, w) && ValidConfig(Cfg(j))
    ensures forall r: int, e: (Lane, int) :: (r, e) in a <==> 0 <= r < j.locals && e in Pending(Cfg(j), w.rails[r])
  {
    set r, e | 0 <= r < j.locals && e in Pending(Cfg(j), w.rails[r]) :: (r, e)
  }

  /** Steps and broadcasts left. */
  ghost function Left(j: Job, w: World): nat
    requires WShape(j, w) && ValidConfig(Cfg(j))
  {
    SumBy(w.told, Untold()) + SumBy(w.rails, RailWork(Cfg(j)))
  }

  /** Every step uses up some of the work left. */
  lemma StepShrinks(j: Job, v: int -> int, w: World, w': World, r: int, i: int, l: Lane)
    requires Inv(j, v, w) && Moves(j, v, w, w', r, i, l) && WShape(j, w') && ValidConfig(Cfg(j))
    ensures Left(j, w') < Left(j, w) || (Left(j, w') == Left(j, w) && AllPending(j, w') < AllPending(j, w))
  {
    hide Cfg, SumBy, MemInv, HierRing.Inv, AllPending, Pending, Work, Written, Fanned, At;
    if Bcast(j, v, w, w', r, i) {
      hide Bcast;
      BcastShrinks(j, v, w, w', r, i);
    } else {
      RailMoves(j, v, w, w', r, i, l);
      hide Bcast, Quiet, Land, Fan, HierRing.Moves;
      SumByUpdate(w.rails, r, w'.rails[r], RailWork(Cfg(j)));
      HierRing.StepShrinks(Cfg(j), w.rails[r], w'.rails[r], i, l);
      if Pending(Cfg(j), w'.rails[r]) < Pending(Cfg(j), w.rails[r]) { FewerPending(j, w, w', r); }
    }
  }

  lemma BcastShrinks(j: Job, v: int -> int, w: World, w': World, r: int, i: int)
    requires WShape(j, w) && ValidConfig(Cfg(j)) && Bcast(j, v, w, w', r, i)
    ensures Left(j, w') < Left(j, w)
  {
    hide Cfg, SumBy, At, OwnByte, InSlice;
    SumByUpdate(w.told, r, w'.told[r], Untold());
    SumByUpdate(w.told[r], i, true, (b: bool) => if b then 0 else 1);
  }

  /** All other steps are steps of one rail. */
  lemma RailMoves(j: Job, v: int -> int, w: World, w': World, r: int, i: int, l: Lane)
    requires WShape(j, w) && (Quiet(j, w, w', r, i) || Land(j, v, w, w', r, l) || Fan(j, w, w', r, i))
    ensures 0 <= r < j.locals && w'.told == w.told && |w'.rails| == |w.rails| && w'.rails == w.rails[r := w'.rails[r]]
    ensures HierRing.Moves(Cfg(j), w.rails[r], w'.rails[r], i, l)
  {
    hide Cfg, At, Written, Fanned, Issue, Wait, Retire, Scatter, Effect;
  }

  lemma FewerPending(j: Job, w: World, w': World, r: int)
    requires WShape(j, w) && WShape(j, w') && ValidConfig(Cfg(j)) && 0 <= r < j.locals && w'.rails == w.rails[r := w'.rails[r]]
    requires Pending(Cfg(j), w'.rails[r]) < Pending(Cfg(j), w.rails[r])
    ensures AllPending(j, w') < AllPending(j, w)
  {
    hide Cfg, Pending, AllPending;
    var e :| e in Pending(Cfg(j), w.rails[r]) && e !in Pending(Cfg(j), w'.rails[r]);
    assert (r, e) in AllPending(j, w) && (r, e) !in AllPending(j, w');
    forall x | x in AllPending(j, w') ensures x in AllPending(j, w) {
      var q, d := x.0, x.1;
      assert (q, d) in AllPending(j, w') && (q != r ==> w'.rails[q] == w.rails[q]);
      assert (q, d) in AllPending(j, w);
    }
  }

  /** Every job has a run. */
  lemma Starts(j: Job, v: int -> int) returns (w: World)
    requires ValidJob(j)
    ensures Init(j, v, w) && Run(j, v, [w])
  {
    hide Size, Cfg, Base;
    CfgIs(j);
    var mem := Buffers(j, (q, n, o) => v(o));
    var s := State(seq(j.nodes, _ => Node(0, 0, 0, 0)), map[]);
    w := World(seq(j.locals, _ => s), seq(j.locals, _ => seq(j.nodes, _ => false)), mem);
  }

  /** Every run can be continued until all ranks are through. */
  lemma {:induction false} Completes(j: Job, v: int -> int, trace: seq<World>) returns (full: seq<World>)
    requires trace != [] && Run(j, v, trace) && WShape(j, trace[|trace| - 1]) && ValidConfig(Cfg(j))
    ensures |trace| <= |full| && full[..|trace|] == trace && Run(j, v, full)
    ensures WShape(j, full[|full| - 1]) && Done(j, full[|full| - 1])
    decreases Left(j, trace[|trace| - 1]), AllPending(j, trace[|trace| - 1])
  {
    hide Left, AllPending, Inv, Moves, Init, Done, WShape, Cfg;
    var w := trace[|trace| - 1];
    RunInv(j, v, trace, |trace| - 1);
    if Done(j, w) {
      full := trace;
    } else {
      var w', r, i, l := CanMove(j, v, w);
      assert Next(j, v, w, w');
      StepKeeps(j, v, w, w');
      InvShape(j, v, w');
      StepShrinks(j, v, w, w', r, i, l);
      var longer := trace + [w'];
      assert forall k :: 0 <= k < |longer| - 1 ==> Next(j, v, longer[k], longer[k + 1]);
      full := Completes(j, v, longer);
      assert full[..|trace|] == full[..|longer|][..|trace|] == trace;
    }
  }

  lemma InvShape(j: Job, v: int -> int, w: World)
    requires Inv(j, v, w)
    ensures WShape(j, w)
  {
  }
}
