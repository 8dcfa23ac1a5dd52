/** The bidirectional ring of the hierarchical copy-engine allgather (src/ce_coll.cc) along one
    rail: the ranks with one local rank on all nodes.  Every slice is cut into a clockwise and
    a counterclockwise half, each half into chunks, and chunk `c` travels on context
    `c % numCtx`.  Puts between two nodes on one context take effect in order, and each raises
    a signal.  Nodes advance independently.  This module has the rounds and signals of one
    rail; `HierGather` adds the memory of all ranks. */
module HierRing {
  import opened Arith
  import opened RingIndex
  import opened Seqs

  datatype Half = Cw(c: nat) | Ccw(c: nat)

  /** A chunk of the slice of node `origin`. */
  datatype Piece = Piece(origin: int, half: Half)

  /** `nodes` nodes; `nCw` and `nCcw` chunks per half. */
  datatype Config = Config(nodes: nat, numCtx: nat, nCw: nat, nCcw: nat)

  /** The channel of the puts from `src` to `dst` on context `ctx`. */
  datatype Lane = Lane(src: int, dst: int, ctx: int)

  /** Rounds whose puts a node has issued, rounds whose arrival it has waited for and then
      fanned out to the other ranks of the node, and rounds whose own puts it has retired. */
  datatype Node = Node(issued: nat, waited: nat, scattered: nat, retired: nat)

  /** `raised[l]` puts of lane `l` have taken effect. */
  datatype State = State(nodes: seq<Node>, raised: map<Lane, nat>)

  ghost function Raised(s: State, l: Lane): nat { if l in s.raised then s.raised[l] else 0 }

  ghost predicate ValidConfig(g: Config) { g.nodes > 0 && g.numCtx > 0 }

  ghost function Rounds(g: Config): nat
    requires ValidConfig(g)
  {
    g.nodes - 1
  }

  ghost predicate IsNode(g: Config, i: int) { 0 <= i < g.nodes }

  ghost predicate IsHalf(g: Config, h: Half) { if h.Cw? then h.c < g.nCw else h.c < g.nCcw }

  ghost predicate IsPiece(g: Config, p: Piece) { 0 <= p.origin < g.nodes && IsHalf(g, p.half) }

  /** The chunks `c < n` on context `k`, in order. */
  ghost function OnCtx(n: nat, numCtx: nat, k: int): seq<nat>
    requires numCtx > 0
  {
    if n == 0 then [] else OnCtx(n - 1, numCtx, k) + if (n - 1) % numCtx == k then [n - 1] else []
  }

  /** What one round puts on a lane: clockwise chunks go to the next node, counterclockwise
      ones to the previous node, which with two nodes is the same one. */
  ghost function Batch(g: Config, l: Lane): seq<Half>
    requires ValidConfig(g)
  {
    var cw, ccw := OnCtx(g.nCw, g.numCtx, l.ctx), OnCtx(g.nCcw, g.numCtx, l.ctx);
    (if l.dst == Succ(g.nodes, l.src) then seq(|cw|, i requires 0 <= i < |cw| => Cw(cw[i])) else [])
    + (if l.dst == Pred(g.nodes, l.src) then seq(|ccw|, i requires 0 <= i < |ccw| => Ccw(ccw[i])) else [])
  }

  /** The node whose slice node `i` forwards in round `step` (from 1). */
  ghost function SendOrigin(g: Config, i: int, step: int, h: Half): int
    requires ValidConfig(g)
  {
    if h.Cw? then Back(g.nodes, i, step - 1) else Fwd(g.nodes, i, step - 1)
  }

  ghost function RecvOrigin(g: Config, i: int, step: int, h: Half): int
    requires ValidConfig(g)
  {
    if h.Cw? then Back(g.nodes, i, step) else Fwd(g.nodes, i, step)
  }

  /** The piece carried by the `p`-th put of a lane. */
  ghost function Put(g: Config, l: Lane, p: nat): Piece
    requires ValidConfig(g) && Batch(g, l) != []
  {
    var b := Batch(g, l);
    Piece(SendOrigin(g, l.src, p / |b| + 1, b[p % |b|]), b[p % |b|])
  }

  // ---------------------------------------------------------------------------
  // Steps

  ghost predicate Shape(g: Config, s: State) { ValidConfig(g) && |s.nodes| == g.nodes }

  ghost predicate Init(g: Config, s: State) {
    Shape(g, s) && s.raised == map[] && forall i :: 0 <= i < g.nodes ==> s.nodes[i] == Node(0, 0, 0, 0)
  }

  ghost predicate Issue(g: Config, s: State, s': State, i: int)
    requires Shape(g, s)
  {
    && IsNode(g, i) && s.nodes[i].issued == s.nodes[i].waited < Rounds(g)
    && s' == s.(nodes := s.nodes[i := s.nodes[i].(issued := s.nodes[i].issued + 1)])
  }

  /** The next put of a lane takes effect. */
  ghost predicate Effect(g: Config, s: State, s': State, l: Lane)
    requires Shape(g, s)
  {
    && IsNode(g, l.src) && IsNode(g, l.dst) && Batch(g, l) != []
    && Raised(s, l) < s.nodes[l.src].issued * |Batch(g, l)|
    && s' == s.(raised := s.raised[l := Raised(s, l) + 1])
  }

  /** The signals of `rounds` rounds have been raised on a lane. */
  ghost predicate Arrived(g: Config, s: State, l: Lane, rounds: nat)
    requires ValidConfig(g)
  {
    Raised(s, l) >= rounds * |Batch(g, l)|
  }

  ghost predicate Wait(g: Config, s: State, s': State, i: int)
    requires Shape(g, s)
  {
    && IsNode(g, i) && s.nodes[i].waited < s.nodes[i].issued && s.nodes[i].retired == s.nodes[i].waited
    && (forall k :: 0 <= k < g.numCtx ==>
          && Arrived(g, s, Lane(Pred(g.nodes, i), i, k), s.nodes[i].waited + 1)
          && Arrived(g, s, Lane(Succ(g.nodes, i), i, k), s.nodes[i].waited + 1))
    && s' == s.(nodes := s.nodes[i := s.nodes[i].(waited := s.nodes[i].waited + 1)])
  }

  /** The pieces node `i` receives in round `step`. */
  ghost predicate InRound(g: Config, i: int, step: int, p: Piece)
    requires ValidConfig(g)
  {
    IsPiece(g, p) && p.origin == RecvOrigin(g, i, step, p.half)
  }

  /** The pieces of the last round waited for are copied to the other ranks of the node. */
  ghost predicate Scatter(g: Config, s: State, s': State, i: int)
    requires Shape(g, s)
  {
    && IsNode(g, i) && s.nodes[i].scattered < s.nodes[i].waited
    && s' == s.(nodes := s.nodes[i := s.nodes[i].(scattered := s.nodes[i].scattered + 1)])
  }

  /** The stream blocks until the puts of the round just fanned out have completed. */
  ghost predicate Retire(g: Config, s: State, s': State, i: int)
    requires Shape(g, s)
  {
    && IsNode(g, i) && s.nodes[i].retired < s.nodes[i].scattered
    && (forall k :: 0 <= k < g.numCtx ==>
          && Arrived(g, s, Lane(i, Succ(g.nodes, i), k), s.nodes[i].retired + 1)
          && Arrived(g, s, Lane(i, Pred(g.nodes, i), k), s.nodes[i].retired + 1))
    && s' == s.(nodes := s.nodes[i := s.nodes[i].(retired := s.nodes[i].retired + 1)])
  }

  /** A step of the rank on node `i`. */
  ghost predicate Local(g: Config, s: State, s': State, i: int)
    requires Shape(g, s)
  {
    Issue(g, s, s', i) || Wait(g, s, s', i) || Scatter(g, s, s', i) || Retire(g, s, s', i)
  }

  ghost predicate Moves(g: Config, s: State, s': State, i: int, l: Lane) {
    Shape(g, s) && (Local(g, s, s', i) || Effect(g, s, s', l))
  }

  ghost predicate Next(g: Config, s: State, s': State) { exists i: int, l: Lane :: Moves(g, s, s', i, l) }

  // ---------------------------------------------------------------------------
  // Batches

  lemma {:induction false} OnCtxHas(n: nat, numCtx: nat, k: int, c: nat)
    requires numCtx > 0
    ensures c in OnCtx(n, numCtx, k) <==> c < n && c % numCtx == k
  {
    if n > 0 { OnCtxHas(n - 1, numCtx, k, c); }
  }

  /** A chunk travels on exactly one lane between its two neighbours. */
  lemma BatchHas(g: Config, l: Lane, h: Half)
    requires ValidConfig(g)
    ensures h in Batch(g, l) <==>
            IsHalf(g, h) && h.c % g.numCtx == l.ctx && l.dst == if h.Cw? then Succ(g.nodes, l.src) else Pred(g.nodes, l.src)
  {
    hide OnCtx, Succ, Pred;
    OnCtxHas(g.nCw, g.numCtx, l.ctx, h.c);
    OnCtxHas(g.nCcw, g.numCtx, l.ctx, h.c);
    var cw, ccw := OnCtx(g.nCw, g.numCtx, l.ctx), OnCtx(g.nCcw, g.numCtx, l.ctx);
    var a, b := seq(|cw|, i requires 0 <= i < |cw| => Cw(cw[i])), seq(|ccw|, i requires 0 <= i < |ccw| => Ccw(ccw[i]));
    assert h in a <==> h.Cw? && h.c in cw by {
      if h.Cw? && h.c in cw {
        var i :| 0 <= i < |cw| && cw[i] == h.c;
        assert a[i] == h;
      }
    }
    assert h in b <==> h.Ccw? && h.c in ccw by {
      if h.Ccw? && h.c in ccw {
        var i :| 0 <= i < |ccw| && ccw[i] == h.c;
        assert b[i] == h;
      }
    }
  }

  /** Round and place of a put within its lane. */
  lemma PutIndex(b: nat, p: nat, rounds: nat)
    requires b > 0 && p < rounds * b
    ensures p / b < rounds && p % b < b && p < (p / b + 1) * b
  {
    Distrib(p / b, 1, b);
    if p / b >= rounds { MulMono(rounds, p / b, b); }
  }

  lemma PutAt(g: Config, l: Lane, r: nat, t: nat)
    requires ValidConfig(g) && t < |Batch(g, l)|
    ensures Put(g, l, r * |Batch(g, l)| + t) == Piece(SendOrigin(g, l.src, r + 1, Batch(g, l)[t]), Batch(g, l)[t])
  {
    DivModUnique(r * |Batch(g, l)| + t, |Batch(g, l)|, r, t);
  }

  /** Sender and receiver agree on the origin of every chunk of a round. */
  lemma SameOrigin(g: Config, i: int, step: int, h: Half)
    requires ValidConfig(g) && IsNode(g, i) && 1 <= step <= g.nodes
    ensures SendOrigin(g, if h.Cw? then Pred(g.nodes, i) else Succ(g.nodes, i), step, h) == RecvOrigin(g, i, step, h)
    ensures SendOrigin(g, i, step, h) == RecvOrigin(g, i, step - 1, h)
  {
    SameSlice(g.nodes, i, step - 1);
  }

  /** The lane on which node `i` receives half `h`. */
  ghost function LaneIn(g: Config, i: int, h: Half): Lane
    requires ValidConfig(g)
  {
    Lane(if h.Cw? then Pred(g.nodes, i) else Succ(g.nodes, i), i, h.c % g.numCtx)
  }

  lemma LaneInHas(g: Config, i: int, h: Half)
    requires ValidConfig(g) && IsNode(g, i) && IsHalf(g, h)
    ensures h in Batch(g, LaneIn(g, i, h)) && IsNode(g, LaneIn(g, i, h).src) && 0 <= LaneIn(g, i, h).ctx < g.numCtx
  {
    hide Batch;
    Neighbours(g.nodes, i);
    BatchHas(g, LaneIn(g, i, h), h);
  }

  // ---------------------------------------------------------------------------
  // What every step keeps

  /** The `p`-th put of lane `l` has taken effect and carried `x`. */
  ghost predicate Carried(g: Config, s: State, l: Lane, p: nat, x: Piece)
    requires ValidConfig(g)
  {
    p < Raised(s, l) && Batch(g, l) != [] && Put(g, l, p) == x
  }

  ghost predicate Holds(g: Config, s: State, j: int, x: Piece)
    requires ValidConfig(g)
  {
    IsPiece(g, x) && (x.origin == j || exists l: Lane, p: nat :: l.dst == j && Carried(g, s, l, p, x))
  }

  ghost predicate NodeInv(g: Config, d: Node)
    requires ValidConfig(g)
  {
    && d.retired <= d.scattered <= d.waited <= d.retired + 1
    && d.waited <= d.issued <= d.waited + 1 && d.issued <= Rounds(g)
  }

  ghost predicate WaitInv(g: Config, s: State, i: int, k: int)
    requires Shape(g, s) && IsNode(g, i)
  {
    && Arrived(g, s, Lane(Pred(g.nodes, i), i, k), s.nodes[i].waited)
    && Arrived(g, s, Lane(Succ(g.nodes, i), i, k), s.nodes[i].waited)
  }

  ghost predicate LaneInv(g: Config, s: State, l: Lane)
    requires Shape(g, s) && IsNode(g, l.src)
  {
    Raised(s, l) <= s.nodes[l.src].issued * |Batch(g, l)|
  }

  /** Pieces fanned out so far. */
  ghost predicate Spread(g: Config, d: Node, j: int, x: Piece)
    requires ValidConfig(g)
  {
    IsPiece(g, x) && exists r :: 1 <= r <= d.scattered && InRound(g, j, r, x)
  }

  ghost predicate Inv(g: Config, s: State) {
    && Shape(g, s)
    && (forall i :: 0 <= i < g.nodes ==> NodeInv(g, s.nodes[i]))
    && (forall i, k :: 0 <= i < g.nodes && 0 <= k < g.numCtx ==> WaitInv(g, s, i, k))
    && (forall l: Lane :: IsNode(g, l.src) ==> LaneInv(g, s, l))
  }

  /** A piece of a round that a node has waited for has arrived there. */
  lemma RoundArrived(g: Config, s: State, i: int, step: nat, h: Half)
    requires Shape(g, s) && IsNode(g, i) && IsHalf(g, h) && 1 <= step <= s.nodes[i].waited && step < g.nodes
    requires forall k :: 0 <= k < g.numCtx ==> WaitInv(g, s, i, k)
    ensures Holds(g, s, i, Piece(RecvOrigin(g, i, step, h), h))
  {
    hide Batch, Back, Fwd, Succ, Pred, SendOrigin, RecvOrigin, Put;
    var l := LaneIn(g, i, h);
    LaneInHas(g, i, h);
    var b := Batch(g, l);
    var t :| 0 <= t < |b| && b[t] == h;
    var p := (step - 1) * |b| + t;
    PutAt(g, l, step - 1, t);
    SameOrigin(g, i, step, h);
    assert WaitInv(g, s, i, l.ctx);
    EarlierRound(step, s.nodes[i].waited, |b|, t);
    assert Carried(g, s, l, p, Piece(RecvOrigin(g, i, step, h), h));
    OriginInRange(g, i, step, h);
  }

  lemma EarlierRound(step: nat, waited: nat, b: nat, t: nat)
    requires 1 <= step <= waited && t < b
    ensures (step - 1) * b + t < waited * b
  {
    MulMono(step, waited, b);
    Distrib(step, 1, b);
  }

  lemma OriginInRange(g: Config, i: int, step: int, h: Half)
    requires ValidConfig(g)
    ensures 0 <= RecvOrigin(g, i, step, h) < g.nodes && 0 <= SendOrigin(g, i, step, h) < g.nodes
  {
  }

  lemma FirstRound(g: Config, i: int, h: Half)
    requires ValidConfig(g) && IsNode(g, i)
    ensures SendOrigin(g, i, 1, h) == i
  {
    BackIs(g.nodes, i, 0);
    FwdIs(g.nodes, i, 0);
  }

  /** Each round forwards only what the node holds: its own slice in round 1, and after that
      what arrived in the round before. */
  lemma SourceHolds(g: Config, s: State, l: Lane, p: nat)
    requires Inv(g, s) && IsNode(g, l.src) && Batch(g, l) != [] && p < s.nodes[l.src].issued * |Batch(g, l)|
    ensures Holds(g, s, l.src, Put(g, l, p))
    ensures p / |Batch(g, l)| > 0 ==> InRound(g, l.src, p / |Batch(g, l)|, Put(g, l, p))
  {
    hide Batch, SendOrigin, InRound, NodeInv, WaitInv, Holds, LaneInv;
    var b := Batch(g, l);
    PutIndex(|b|, p, s.nodes[l.src].issued);
    BatchHas(g, l, b[p % |b|]);
    RoundHolds(g, s, l.src, p / |b|, b[p % |b|]);
  }

  /** The same for one chunk of round `r + 1`. */
  lemma RoundHolds(g: Config, s: State, i: int, r: nat, h: Half)
    requires Inv(g, s) && IsNode(g, i) && IsHalf(g, h) && r < s.nodes[i].issued
    ensures var x := Piece(SendOrigin(g, i, r + 1, h), h); Holds(g, s, i, x) && (r > 0 ==> InRound(g, i, r, x))
  {
    hide Batch, Back, Fwd, Succ, Pred, SendOrigin, RecvOrigin, Holds, LaneInv;
    OriginInRange(g, i, r + 1, h);
    assert NodeInv(g, s.nodes[i]);
    if r == 0 {
      FirstRound(g, i, h);
      OwnHeld(g, s, i, h);
    } else {
      SameOrigin(g, i, r + 1, h);
      RoundArrived(g, s, i, r, h);
    }
  }

  lemma OwnHeld(g: Config, s: State, i: int, h: Half)
    requires ValidConfig(g) && IsNode(g, i) && IsHalf(g, h)
    ensures Holds(g, s, i, Piece(i, h))
  {
  }

  lemma LocalKeeps(g: Config, s: State, s': State, i: int)
    requires Inv(g, s) && Local(g, s, s', i)
    ensures Inv(g, s')
  {
    hide Batch, Back, Fwd, Succ, Pred;
    forall j | 0 <= j < g.nodes ensures NodeInv(g, s'.nodes[j]) { assert NodeInv(g, s.nodes[j]); }
    forall j, k | 0 <= j < g.nodes && 0 <= k < g.numCtx ensures WaitInv(g, s', j, k) { assert WaitInv(g, s, j, k); }
    forall l: Lane | IsNode(g, l.src) ensures LaneInv(g, s', l) {
      assert LaneInv(g, s, l);
      MulMono(s.nodes[l.src].issued, s'.nodes[l.src].issued, |Batch(g, l)|);
    }
  }

  lemma EffectKeeps(g: Config, s: State, s': State, l: Lane)
    requires Inv(g, s) && Effect(g, s, s', l)
    ensures Inv(g, s')
  {
    hide Batch, Back, Fwd, Succ, Pred;
    forall j | 0 <= j < g.nodes ensures NodeInv(g, s'.nodes[j]) { assert NodeInv(g, s.nodes[j]); }
    forall j, k | 0 <= j < g.nodes && 0 <= k < g.numCtx ensures WaitInv(g, s', j, k) { assert WaitInv(g, s, j, k); }
    forall l': Lane | IsNode(g, l'.src) ensures LaneInv(g, s', l') { assert LaneInv(g, s, l'); }
  }

  lemma InitInv(g: Config, s: State)
    requires Init(g, s)
    ensures Inv(g, s)
  {
    hide Batch;
  }

  /** Every step of a rail keeps the invariant. */
  lemma StepKeeps(g: Config, s: State, s': State)
    requires Inv(g, s) && Next(g, s, s')
    ensures Inv(g, s')
  {
    hide Inv, Local, Effect;
    var i, l :| Moves(g, s, s', i, l);
    if Local(g, s, s', i) { LocalKeeps(g, s, s', i); } else { EffectKeeps(g, s, s', l); }
  }

  /** Only an effect changes what a node holds, and by one piece of one node. */
  lemma HoldsSame(g: Config, s: State, s': State, j: int, x: Piece)
    requires ValidConfig(g) && s'.raised == s.raised && Holds(g, s', j, x)
    ensures Holds(g, s, j, x)
  {
    hide Batch, Put;
    if x.origin != j {
      var l: Lane, p: nat :| l.dst == j && Carried(g, s', l, p, x);
      assert Carried(g, s, l, p, x);
    }
  }

  lemma HoldsGrows(g: Config, s: State, s': State, l: Lane, j: int, x: Piece)
    requires Shape(g, s) && Effect(g, s, s', l) && Holds(g, s', j, x)
    ensures Holds(g, s, j, x) || (j == l.dst && x == Put(g, l, Raised(s, l)))
  {
    hide Batch, Put;
    if x.origin != j {
      var l': Lane, p: nat :| l'.dst == j && Carried(g, s', l', p, x);
      if l' != l || p != Raised(s, l) { assert Carried(g, s, l', p, x); }
    }
  }

  // ---------------------------------------------------------------------------
  // What the ring achieves

  /** Every piece reaches node `j` in exactly one round. */
  ghost function RoundOf(g: Config, j: int, x: Piece): int
    requires ValidConfig(g)
  {
    if x.half.Cw? then Off(g.nodes, j, x.origin) else g.nodes - Off(g.nodes, j, x.origin)
  }

  lemma RoundIs(g: Config, j: int, x: Piece, r: int)
    requires ValidConfig(g) && IsNode(g, j) && IsPiece(g, x) && x.origin != j && 1 <= r < g.nodes
    ensures 1 <= RoundOf(g, j, x) < g.nodes
    ensures InRound(g, j, r, x) <==> r == RoundOf(g, j, x)
  {
    hide Back, Fwd, Off;
    OffSelf(g.nodes, j);
    OffRange(g.nodes, j, x.origin);
    if Off(g.nodes, j, x.origin) == 0 { OffUnique(g.nodes, j, x.origin, j); }
    BackFacts(g.nodes, j, r);
    FwdFacts(g.nodes, j, r);
    if r == RoundOf(g, j, x) {
      OffUnique(g.nodes, j, x.origin, if x.half.Cw? then Back(g.nodes, j, r) else Fwd(g.nodes, j, r));
    }
  }

  lemma OffRange(n: nat, r: int, x: int)
    requires n > 0
    ensures 0 <= Off(n, r, x) < n
  {
  }

  /** After the last round and its fanout, a node has received and fanned out every piece that
      is not its own. */
  lemma AllArrived(g: Config, s: State, j: int, x: Piece)
    requires Inv(g, s) && IsNode(g, j) && IsPiece(g, x) && x.origin != j && s.nodes[j].scattered == Rounds(g)
    ensures Holds(g, s, j, x) && Spread(g, s.nodes[j], j, x)
  {
    hide Batch, Put, InRound, RecvOrigin, Holds;
    assert NodeInv(g, s.nodes[j]);
    var r := RoundOf(g, j, x);
    RoundIs(g, j, x, 1);
    RoundIs(g, j, x, r);
    RoundArrived(g, s, j, r, x.half);
    InRoundIs(g, j, r, x);
  }

  lemma InRoundIs(g: Config, j: int, r: int, x: Piece)
    requires ValidConfig(g) && InRound(g, j, r, x)
    ensures x == Piece(RecvOrigin(g, j, r, x.half), x.half)
  {
  }

  /** A put into `j` in round `r` brings a piece of that round, on the piece's lane. */
  lemma InboundRound(g: Config, l: Lane, p: nat)
    requires ValidConfig(g) && IsNode(g, l.src) && IsNode(g, l.dst) && Batch(g, l) != [] && p < Rounds(g) * |Batch(g, l)|
    ensures var x := Put(g, l, p);
            && InRound(g, l.dst, p / |Batch(g, l)| + 1, x) && x.origin != l.dst && l == LaneIn(g, l.dst, x.half)
            && p / |Batch(g, l)| + 1 == RoundOf(g, l.dst, x)
  {
    hide Batch, Back, Fwd, Succ, Pred, Off, SendOrigin, RecvOrigin, RoundOf;
    var b := Batch(g, l);
    PutIndex(|b|, p, Rounds(g));
    var r, h := p / |b| + 1, b[p % |b|];
    BatchHas(g, l, h);
    Neighbours(g.nodes, l.src);
    SameOrigin(g, l.dst, r, h);
    OriginInRange(g, l.dst, r, h);
    NotOwn(g, l.dst, r, h);
    RoundIs(g, l.dst, Put(g, l, p), r);
  }

  lemma NotOwn(g: Config, j: int, r: int, h: Half)
    requires ValidConfig(g) && IsNode(g, j) && 1 <= r < g.nodes
    ensures RecvOrigin(g, j, r, h) != j
  {
    BackIs(g.nodes, j, r);
    FwdIs(g.nodes, j, r);
  }

  /** A piece being received is never a piece being read: a put that node `i` has issued and a
      put into `i` that is still to take effect carry different pieces. */
  lemma PiecesDiffer(g: Config, s: State, out: Lane, p: nat, inb: Lane, q: nat)
    requires Inv(g, s)
    requires IsNode(g, out.src) && Batch(g, out) != [] && p < s.nodes[out.src].issued * |Batch(g, out)|
    requires IsNode(g, inb.src) && inb.dst == out.src && Batch(g, inb) != [] && q < Rounds(g) * |Batch(g, inb)|
    requires q >= Raised(s, inb)
    ensures Put(g, out, p) != Put(g, inb, q)
  {
    hide Batch, Back, Fwd, Succ, Pred, Off, SendOrigin, RecvOrigin, InRound, RoundOf, Put;
    var i := out.src;
    SourceHolds(g, s, out, p);
    InboundRound(g, inb, q);
    var b, c := |Batch(g, out)|, |Batch(g, inb)|;
    PutIndex(b, p, s.nodes[i].issued);
    PutIndex(c, q, Rounds(g));
    assert NodeInv(g, s.nodes[i]);
    var x := Put(g, inb, q);
    if Put(g, out, p) == x {
      if p / b == 0 {
        OwnOrigin(g, out, p);
      } else {
        RoundIs(g, i, x, p / b);
        assert WaitInv(g, s, i, inb.ctx) by { LaneCtx(g, inb, x.half); }
        MulMono(q / c + 1, s.nodes[i].waited, c);
      }
    }
  }

  lemma OwnOrigin(g: Config, l: Lane, p: nat)
    requires ValidConfig(g) && IsNode(g, l.src) && Batch(g, l) != [] && p / |Batch(g, l)| == 0
    ensures Put(g, l, p).origin == l.src
  {
    FirstRound(g, l.src, Batch(g, l)[p % |Batch(g, l)|]);
  }

  lemma LaneCtx(g: Config, l: Lane, h: Half)
    requires ValidConfig(g) && l == LaneIn(g, l.dst, h)
    ensures 0 <= l.ctx < g.numCtx
  {
  }

  /** Chunks are dealt out to the contexts in turn: each has its share, the first ones one more. */
  lemma {:induction false} EvenLoad(n: nat, numCtx: nat, k: nat)
    requires k < numCtx
    ensures |OnCtx(n, numCtx, k)| == n / numCtx + if k < n % numCtx then 1 else 0
  {
    if n == 0 {
      ModSmall(0, numCtx);
    } else {
      EvenLoad(n - 1, numCtx, k);
      DivModNext(n - 1, numCtx);
    }
  }

  lemma {:induction false} OnCtxDistinct(n: nat, numCtx: nat, k: int)
    requires numCtx > 0
    ensures Distinct(OnCtx(n, numCtx, k)) && forall i :: 0 <= i < |OnCtx(n, numCtx, k)| ==> OnCtx(n, numCtx, k)[i] < n
  {
    if n > 0 { OnCtxDistinct(n - 1, numCtx, k); }
  }

  lemma BatchDistinct(g: Config, l: Lane)
    requires ValidConfig(g)
    ensures Distinct(Batch(g, l))
  {
    hide OnCtx, Succ, Pred;
    OnCtxDistinct(g.nCw, g.numCtx, l.ctx);
    OnCtxDistinct(g.nCcw, g.numCtx, l.ctx);
  }

  /** No piece is put into a node twice. */
  lemma NeverTwice(g: Config, l: Lane, p: nat, l': Lane, p': nat)
    requires ValidConfig(g) && IsNode(g, l.src) && IsNode(g, l.dst) && Batch(g, l) != [] && p < Rounds(g) * |Batch(g, l)|
    requires IsNode(g, l'.src) && l'.dst == l.dst && Batch(g, l') != [] && p' < Rounds(g) * |Batch(g, l')|
    requires Put(g, l, p) == Put(g, l', p')
    ensures l == l' && p == p'
  {
    hide Batch, Back, Fwd, Succ, Pred, Off, SendOrigin, RecvOrigin, InRound, RoundOf;
    InboundRound(g, l, p);
    InboundRound(g, l', p');
    BatchDistinct(g, l);
    var b := |Batch(g, l)|;
    assert p % b == p' % b;
    assert p == p / b * b + p % b && p' == p' / b * b + p' % b;
  }

  /** On every lane the signals that one round raises are the signals that one round awaits:
      the clockwise ones from the previous node and the counterclockwise ones from the next,
      merged into one wait when both are the same node. */
  lemma SignalsAwaited(g: Config, i: int, j: int, k: int)
    requires ValidConfig(g) && IsNode(g, i) && IsNode(g, j)
    ensures |Batch(g, Lane(j, i, k))| == (if j == Pred(g.nodes, i) then |OnCtx(g.nCw, g.numCtx, k)| else 0)
                                         + (if j == Succ(g.nodes, i) then |OnCtx(g.nCcw, g.numCtx, k)| else 0)
  {
    hide OnCtx, Succ, Pred;
    Neighbours(g.nodes, i);
    Neighbours(g.nodes, j);
  }

  /** Signals awaited from one peer. */
  datatype Await = Await(peer: int, signals: int)

  ghost function Share(w: Await, peer: int): int { if w.peer == peer && w.signals > 0 then w.signals else 0 }

  ghost function Awaited(waits: seq<Await>, peer: int): int {
    if waits == [] then 0 else Share(waits[0], peer) + Awaited(waits[1..], peer)
  }

  lemma Unfolded(waits: seq<Await>, peer: int)
    requires |waits| <= 2
    ensures Awaited(waits, peer) ==
              (if |waits| > 0 then Share(waits[0], peer) else 0) + (if |waits| > 1 then Share(waits[1], peer) else 0)
  {
    if |waits| == 2 { assert waits[1..] == [waits[1]]; }
  }

  /** `ncclProxyBuildWaitPeersRing`: at most two waits, without the empty ones, and one wait with
      both counts when they are for the same peer. */
  method MergeWaits(waits: seq<Await>) returns (ok: bool, merged: seq<Await>)
    ensures ok == (|waits| <= 2) && (!ok ==> merged == [])
    ensures ok ==> forall p :: Awaited(merged, p) == Awaited(waits, p)
    ensures forall i :: 0 <= i < |merged| ==> merged[i].signals > 0
    ensures forall i, j :: 0 <= i < j < |merged| ==> merged[i].peer != merged[j].peer
    ensures ok && waits != [] && waits[0].signals > 0 ==> merged != [] && merged[0].peer == waits[0].peer
  {
    ok, merged := true, [];
    if |waits| == 0 { return; }
    if |waits| > 2 { return false, []; }
    if waits[0].signals > 0 { merged := [waits[0]]; }
    if |waits| == 2 && waits[1].signals > 0 {
      if |merged| > 0 && merged[0].peer == waits[1].peer {
        merged := [Await(merged[0].peer, merged[0].signals + waits[1].signals)];
      } else {
        merged := merged + [waits[1]];
      }
    }
    forall p ensures Awaited(merged, p) == Awaited(waits, p) { Unfolded(merged, p); Unfolded(waits, p); }
  }

  /** The waits of one round on context `k` take from every node exactly the signals that the
      puts of that node raise there in one round. */
  method RoundWaits(g: Config, i: int, k: int, cwOps: nat, ccwOps: nat) returns (ok: bool, merged: seq<Await>)
    requires ValidConfig(g) && IsNode(g, i)
    requires cwOps == |OnCtx(g.nCw, g.numCtx, k)| && ccwOps == |OnCtx(g.nCcw, g.numCtx, k)|
    ensures ok && forall j :: 0 <= j < g.nodes ==> Awaited(merged, j) == |Batch(g, Lane(j, i, k))|
    ensures forall a, b :: 0 <= a < b < |merged| ==> merged[a].peer != merged[b].peer
  {
    hide OnCtx, Batch;
    var nextNode, prevNode := (i + 1) % g.nodes, (i - 1 + g.nodes) % g.nodes;
    var waits: seq<Await> := [];
    if cwOps > 0 { waits := waits + [Await(prevNode, cwOps)]; }
    if ccwOps > 0 { waits := waits + [Await(nextNode, ccwOps)]; }
    ok, merged := MergeWaits(waits);
    forall j | 0 <= j < g.nodes ensures Awaited(merged, j) == |Batch(g, Lane(j, i, k))| {
      SignalsAwaited(g, i, j, k);
      Unfolded(waits, j);
    }
  }

  // ---------------------------------------------------------------------------
  // No deadlock

  ghost predicate Done(g: Config, s: State)
    requires Shape(g, s)
  {
    forall i :: 0 <= i < g.nodes ==> s.nodes[i].retired == Rounds(g)
  }

  /** The first node with the fewest rounds retired. */
  lemma {:induction false} Hindmost(s: State, n: nat) returns (h: nat)
    requires 0 < n <= |s.nodes|
    ensures h < n && forall q :: 0 <= q < n ==> s.nodes[h].retired <= s.nodes[q].retired
  {
    h := 0;
    if n > 1 {
      h := Hindmost(s, n - 1);
      if s.nodes[n - 1].retired < s.nodes[h].retired { h := n - 1; }
    }
  }

  /** Until all nodes are done, some rank can act or some put can take effect. */
  lemma NeverStuck(g: Config, s: State) returns (s': State, j: int, l: Lane)
    requires Inv(g, s) && !Done(g, s)
    ensures Moves(g, s, s', j, l)
  {
    hide Batch, Back, Fwd, Succ, Pred, Wait, Retire, Effect;
    var i := Hindmost(s, g.nodes);
    var x :| 0 <= x < g.nodes && s.nodes[x].retired != Rounds(g);
    assert NodeInv(g, s.nodes[i]) && NodeInv(g, s.nodes[x]);
    var d := s.nodes[i];
    j, l := i, Lane(i, i, 0);
    if d.scattered < d.waited {
      s' := s.(nodes := s.nodes[i := d.(scattered := d.scattered + 1)]);
      assert Scatter(g, s, s', i);
    } else if d.retired < d.scattered {
      s', l := RetireMoves(g, s, i);
    } else if q :| 0 <= q < g.nodes && s.nodes[q].issued == s.nodes[q].waited == d.waited {
      j := q;
      s' := s.(nodes := s.nodes[q := s.nodes[q].(issued := s.nodes[q].issued + 1)]);
      assert Issue(g, s, s', q);
    } else {
      forall q | 0 <= q < g.nodes ensures s.nodes[q].issued > d.waited { assert NodeInv(g, s.nodes[q]); }
      s', l := WaitMoves(g, s, i);
    }
  }

  lemma RetireMoves(g: Config, s: State, i: int) returns (s': State, l: Lane)
    requires Inv(g, s) && IsNode(g, i) && s.nodes[i].retired < s.nodes[i].scattered == s.nodes[i].waited
    ensures Retire(g, s, s', i) || Effect(g, s, s', l)
  {
    hide Batch, Back, Fwd, Succ, Pred, Arrived;
    var d := s.nodes[i];
    l := Lane(i, i, 0);
    Neighbours(g.nodes, i);
    var b, f := Pred(g.nodes, i), Succ(g.nodes, i);
    assert NodeInv(g, d);
    if k :| 0 <= k < g.numCtx && !(Arrived(g, s, Lane(i, f, k), d.waited) && Arrived(g, s, Lane(i, b, k), d.waited)) {
      l := Lane(i, if Arrived(g, s, Lane(i, f, k), d.waited) then b else f, k);
      s' := CanTakeEffect(g, s, l, d.waited);
    } else {
      s' := s.(nodes := s.nodes[i := d.(retired := d.retired + 1)]);
    }
  }

  lemma WaitMoves(g: Config, s: State, i: int) returns (s': State, l: Lane)
    requires Inv(g, s) && IsNode(g, i) && s.nodes[i].retired == s.nodes[i].waited
    requires forall q :: 0 <= q < g.nodes ==> s.nodes[q].issued > s.nodes[i].waited
    ensures Wait(g, s, s', i) || Effect(g, s, s', l)
  {
    hide Batch, Back, Fwd, Succ, Pred, Arrived;
    var d := s.nodes[i];
    l := Lane(i, i, 0);
    Neighbours(g.nodes, i);
    var b, f := Pred(g.nodes, i), Succ(g.nodes, i);
    if k :| 0 <= k < g.numCtx && !(Arrived(g, s, Lane(b, i, k), d.waited + 1) && Arrived(g, s, Lane(f, i, k), d.waited + 1)) {
      l := Lane(if Arrived(g, s, Lane(b, i, k), d.waited + 1) then f else b, i, k);
      s' := CanTakeEffect(g, s, l, d.waited + 1);
    } else {
      s' := s.(nodes := s.nodes[i := d.(waited := d.waited + 1)]);
    }
  }

  lemma CanTakeEffect(g: Config, s: State, l: Lane, rounds: nat) returns (s': State)
    requires Inv(g, s) && IsNode(g, l.src) && IsNode(g, l.dst) && !Arrived(g, s, l, rounds) && rounds <= s.nodes[l.src].issued
    ensures Effect(g, s, s', l)
  {
    hide Batch;
    var b := Batch(g, l);
    MulMono(rounds, s.nodes[l.src].issued, |b|);
    assert b != [];
    s' := s.(raised := s.raised[l := Raised(s, l) + 1]);
  }

  ghost function Work(g: Config): Node -> nat
    requires ValidConfig(g)
  {
    (d: Node) => var n := 4 * Rounds(g) - d.issued - d.waited - d.scattered - d.retired; if n > 0 then n else 0
  }

  ghost function Lanes(g: Config): (s: set<Lane>)
    ensures forall l: Lane :: l in s <==> IsNode(g, l.src) && IsNode(g, l.dst) && 0 <= l.ctx < g.numCtx
  {
    set i, j, k | 0 <= i < g.nodes && 0 <= j < g.nodes && 0 <= k < g.numCtx :: Lane(i, j, k)
  }

  /** Puts still to take effect before all rounds are over. */
  ghost function Pending(g: Config, s: State): (a: set<(Lane, int)>)
    requires ValidConfig(g)
    ensures forall l: Lane, p: int :: (l, p) in a <==> l in Lanes(g) && Raised(s, l) <= p < Rounds(g) * |Batch(g, l)|
  {
    set l, p | l in Lanes(g) && Raised(s, l) <= p < Rounds(g) * |Batch(g, l)| :: (l, p)
  }

  /** Every step uses up some of the work left. */
  lemma StepShrinks(g: Config, s: State, s': State, i: int, l: Lane)
    requires Inv(g, s) && Moves(g, s, s', i, l)
    ensures SumBy(s'.nodes, Work(g)) < SumBy(s.nodes, Work(g)) ||
            (SumBy(s'.nodes, Work(g)) == SumBy(s.nodes, Work(g)) && Pending(g, s') < Pending(g, s))
  {
    hide Batch, Back, Fwd, Succ, Pred, Pending, Lanes, Arrived;
    if Local(g, s, s', i) {
      assert NodeInv(g, s.nodes[i]);
      SumByUpdate(s.nodes, i, s'.nodes[i], Work(g));
    } else {
      var p := Raised(s, l);
      assert NodeInv(g, s.nodes[l.src]);
      MulMono(s.nodes[l.src].issued, Rounds(g), |Batch(g, l)|);
      BatchCtx(g, l);
      assert (l, p) in Pending(g, s) && (l, p) !in Pending(g, s');
      forall e | e in Pending(g, s') ensures e in Pending(g, s) { assert (e.0, e.1) in Pending(g, s'); }
    }
  }

  lemma BatchCtx(g: Config, l: Lane)
    requires ValidConfig(g) && Batch(g, l) != []
    ensures 0 <= l.ctx < g.numCtx
  {
    hide Batch;
    BatchHas(g, l, Batch(g, l)[0]);
  }
}
