/** The two launchers that cut a batch of copies into chunks (src/ce_coll.cc): one submits a
    batch per round, the other one batch for all rounds that starts each round at another
    copy. */
module BatchChunks {
  import opened Arith
  import opened ChunkPlan
  import opened Seqs

  /** A copy of the batch, and a chunk of copy `op` as it is submitted. */
  datatype Copy = Copy(dst: nat, src: nat, size: nat)

  datatype Chunk = Chunk(op: nat, dst: nat, src: nat, size: nat)

  /** `e` moves bytes `off .. off + e.size` of its copy. */
  ghost predicate Moves(ops: seq<Copy>, e: Chunk, off: int) {
    e.op < |ops| && e.dst == ops[e.op].dst + off && e.src == ops[e.op].src + off
  }

  /** How far the chunks of copy `i`, in order of submission, cover it from the start without
      gap or overlap; -1 if they do not. */
  ghost function Reach(ops: seq<Copy>, out: seq<Chunk>, i: nat): int {
    if out == [] then 0
    else
      var r, e := Reach(ops, out[..|out| - 1], i), out[|out| - 1];
      if e.op != i then r
      else if r >= 0 && e.size > 0 && Moves(ops, e, r) then r + e.size
      else -1
  }

  lemma ReachAdd(ops: seq<Copy>, out: seq<Chunk>, e: Chunk, i: nat)
    ensures Reach(ops, out + [e], i) ==
            if e.op != i then Reach(ops, out, i)
            else if Reach(ops, out, i) >= 0 && e.size > 0 && Moves(ops, e, Reach(ops, out, i)) then Reach(ops, out, i) + e.size
            else -1
  {
    assert (out + [e])[..|out|] == out;
  }

  /** Chunk `k` of the output carries byte `b` of copy `i`. */
  ghost predicate Carries(ops: seq<Copy>, e: Chunk, i: nat, b: int) {
    && i < |ops| && e.op == i && ops[i].dst + b < e.dst + e.size && e.dst <= ops[i].dst + b
    && e.src - ops[i].src == e.dst - ops[i].dst
  }

  /** Chunks that reach `n` carry each byte below `n` exactly once, and no other byte. */
  lemma {:induction false} EachByteOnce(ops: seq<Copy>, out: seq<Chunk>, i: nat, b: nat) returns (k: nat)
    requires i < |ops| && Reach(ops, out, i) > b
    ensures k < |out| && Carries(ops, out[k], i, b)
    ensures forall l :: 0 <= l < |out| && out[l].op == i && Carries(ops, out[l], i, b) ==> l == k
    ensures forall l, c :: 0 <= l < |out| && Carries(ops, out[l], i, c) ==> 0 <= c < Reach(ops, out, i)
  {
    forall l, c | 0 <= l < |out| && Carries(ops, out[l], i, c) ensures 0 <= c < Reach(ops, out, i) { Below(ops, out, i, l); }
    var n := |out| - 1;
    var r := Reach(ops, out[..n], i);
    if out[n].op == i && r <= b {
      k := n;
      forall l | 0 <= l < n && out[l].op == i ensures !Carries(ops, out[l], i, b) {
        Below(ops, out[..n], i, l);
        assert out[..n][l] == out[l];
      }
    } else {
      k := EachByteOnce(ops, out[..n], i, b);
      assert out[..n][k] == out[k];
      forall l | 0 <= l < |out| && out[l].op == i && Carries(ops, out[l], i, b) ensures l == k {
        if l < n { assert out[..n][l] == out[l]; }
      }
    }
  }

  lemma {:induction false} Below(ops: seq<Copy>, out: seq<Chunk>, i: nat, l: nat)
    requires i < |ops| && Reach(ops, out, i) >= 0 && l < |out| && out[l].op == i
    ensures out[l].dst + out[l].size <= ops[i].dst + Reach(ops, out, i)
    ensures out[l].dst >= ops[i].dst && out[l].src - ops[i].src == out[l].dst - ops[i].dst
  {
    var n := |out| - 1;
    if l < n {
      assert out[..n][l] == out[l];
      Below(ops, out[..n], i, l);
    } else {
      ReachNonneg(ops, out[..n], i);
    }
  }

  lemma {:induction false} ReachNonneg(ops: seq<Copy>, out: seq<Chunk>, i: nat)
    ensures Reach(ops, out, i) >= -1
  {
    if out != [] { ReachNonneg(ops, out[..|out| - 1], i); }
  }

  // ---------------------------------------------------------------------------
  // The launchers

  method MaxSize(ops: seq<Copy>) returns (m: nat)
    ensures forall i :: 0 <= i < |ops| ==> ops[i].size <= m
    ensures m == 0 || exists i :: 0 <= i < |ops| && ops[i].size == m
  {
    m := 0;
    for i := 0 to |ops|
      invariant forall j :: 0 <= j < i ==> ops[j].size <= m
      invariant m == 0 || exists j :: 0 <= j < i && ops[j].size == m
    {
      if ops[i].size > m { m := ops[i].size; }
    }
  }

  /** What copy `i` is covered to after `done` bytes of every copy have been offered. */
  ghost function Covered(ops: seq<Copy>, i: nat, done: nat): nat
    requires i < |ops|
  {
    if ops[i].size <= done then ops[i].size else done
  }

  ghost predicate AllCovered(ops: seq<Copy>, out: seq<Chunk>, done: nat) {
    forall i: nat :: i < |ops| ==> Reach(ops, out, i) == Covered(ops, i, done)
  }

  /** The chunk of copy `i` at `offset`, if it has one. */
  function ChunkAt(ops: seq<Copy>, i: nat, offset: nat, chunkSize: nat): (e: seq<Chunk>)
    requires i < |ops|
  {
    if offset >= ops[i].size then []
    else [Chunk(i, ops[i].dst + offset, ops[i].src + offset, ChunkPlan.Min(ops[i].size - offset, chunkSize))]
  }

  lemma ChunkExtends(ops: seq<Copy>, out: seq<Chunk>, i: nat, offset: nat, chunkSize: nat, j: nat)
    requires i < |ops| && chunkSize > 0 && j < |ops|
    requires i == j ==> Reach(ops, out, i) == Covered(ops, i, offset)
    ensures Reach(ops, out + ChunkAt(ops, i, offset, chunkSize), j) ==
            if i == j then Covered(ops, i, offset + chunkSize) else Reach(ops, out, j)
  {
    if offset < ops[i].size {
      ReachAdd(ops, out, ChunkAt(ops, i, offset, chunkSize)[0], j);
    } else {
      assert out + [] == out;
    }
  }

  // ---------------------------------------------------------------------------
  // What a round holds

  /** `e` is the chunk of its copy that starts at `offset`. */
  ghost predicate IsChunk(ops: seq<Copy>, e: Chunk, offset: nat, chunkSize: nat) {
    && e.op < |ops| && offset < ops[e.op].size && Moves(ops, e, offset)
    && 0 < e.size <= chunkSize && (e.size == chunkSize || offset + e.size == ops[e.op].size)
    && offset + e.size <= ops[e.op].size
  }

  /** The copies that `visited` holds of and that are longer than `offset` have their chunk in
      `part`, and nothing else has. */
  ghost predicate ChunksOf(ops: seq<Copy>, part: seq<Chunk>, offset: nat, chunkSize: nat, visited: set<int>) {
    && (forall a :: 0 <= a < |part| ==> IsChunk(ops, part[a], offset, chunkSize) && part[a].op in visited)
    && forall i :: i in visited && 0 <= i < |ops| && offset < ops[i].size ==> HasChunk(part, i)
  }

  ghost predicate HasChunk(part: seq<Chunk>, i: int) { exists a :: 0 <= a < |part| && part[a].op == i }

  lemma ChunksGrow(ops: seq<Copy>, part: seq<Chunk>, offset: nat, chunkSize: nat, visited: set<int>, i: nat)
    requires i < |ops| && chunkSize > 0 && ChunksOf(ops, part, offset, chunkSize, visited)
    ensures ChunksOf(ops, part + ChunkAt(ops, i, offset, chunkSize), offset, chunkSize, visited + {i})
  {
    var e := ChunkAt(ops, i, offset, chunkSize);
    var part' := part + e;
    forall j | j in visited + {i} && 0 <= j < |ops| && offset < ops[j].size ensures HasChunk(part', j) {
      if j == i {
        assert part'[|part|].op == i;
      } else {
        assert HasChunk(part, j);
        var a :| 0 <= a < |part| && part[a].op == j;
        assert part'[a].op == j;
      }
    }
  }

  /** The chunks of a batch belong to different copies, in order of the copies. */
  ghost predicate OnePerCopy(wave: seq<Chunk>) { forall a, b :: 0 <= a < b < |wave| ==> wave[a].op < wave[b].op }

  /** The batch of round `w`: the chunk at `w * chunkSize` of every copy that is so long. */
  ghost predicate IsWave(ops: seq<Copy>, wave: seq<Chunk>, w: nat, chunkSize: nat) {
    ChunksOf(ops, wave, w * chunkSize, chunkSize, Range(|ops|)) && OnePerCopy(wave)
  }

  /** `ncclCeLaunchChunkedMemcpyBatchAsync`: one batch per round, each with one chunk of every copy
      that is still longer.  Together they move exactly the bytes of the copies, in as many batches
      as the longest copy has chunks. */
  method ChunkedLaunch(ops: seq<Copy>, chunkSize: nat) returns (waves: seq<seq<Chunk>>, out: seq<Chunk>)
    requires chunkSize > 0
    ensures out == Flat(waves) && forall i: nat :: i < |ops| ==> Reach(ops, out, i) == ops[i].size
    ensures forall w: nat :: w < |waves| ==> waves[w] != [] && IsWave(ops, waves[w], w, chunkSize)
    ensures forall i: nat :: i < |ops| ==> ops[i].size <= |waves| * chunkSize
  {
    hide Reach, IsWave;
    var maxSize := MaxSize(ops);
    var numRounds := if maxSize == 0 then 0 else 1 + (maxSize - 1) / chunkSize;
    EnoughRounds(maxSize, chunkSize, numRounds);
    waves, out := [], [];
    StartCovered(ops);
    for round := 0 to numRounds
      invariant out == Flat(waves) && |waves| == round && AllCovered(ops, out, round * chunkSize)
      invariant forall w: nat :: w < |waves| ==> waves[w] != [] && IsWave(ops, waves[w], w, chunkSize)
    {
      var wave := OneWave(ops, out, round, chunkSize);
      Distrib(round, 1, chunkSize);
      StillLonger(ops, wave, round, chunkSize, maxSize, numRounds);
      if wave != [] {
        FlatAdd(waves, wave);
        waves := waves + [wave];
      }
      out := out + wave;
    }
    AllDone(ops, out, numRounds * chunkSize);
  }

  lemma StillLonger(ops: seq<Copy>, wave: seq<Chunk>, round: nat, chunkSize: nat, maxSize: nat, numRounds: nat)
    requires chunkSize > 0 && numRounds == (if maxSize == 0 then 0 else 1 + (maxSize - 1) / chunkSize) && round < numRounds
    requires (maxSize == 0 || exists i :: 0 <= i < |ops| && ops[i].size == maxSize) && IsWave(ops, wave, round, chunkSize)
    ensures wave != []
  {
    MulMono(round, numRounds - 1, chunkSize);
    DivBounds(maxSize - 1, chunkSize);
    var i :| 0 <= i < |ops| && ops[i].size == maxSize;
    assert HasChunk(wave, i);
  }

  method OneWave(ops: seq<Copy>, ghost out: seq<Chunk>, round: nat, chunkSize: nat) returns (wave: seq<Chunk>)
    requires chunkSize > 0 && AllCovered(ops, out, round * chunkSize)
    ensures AllCovered(ops, out + wave, round * chunkSize + chunkSize) && IsWave(ops, wave, round, chunkSize)
  {
    hide Reach, IsChunk;
    var offset := round * chunkSize;
    wave := [];
    assert out + [] == out;
    for i := 0 to |ops|
      invariant OnePerCopy(wave) && ChunksOf(ops, wave, offset, chunkSize, Range(i))
      invariant forall j: nat :: j < |ops| ==> Reach(ops, out + wave, j) == Covered(ops, j, if j < i then offset + chunkSize else offset)
    {
      forall j: nat | j < |ops|
        ensures Reach(ops, out + (wave + ChunkAt(ops, i, offset, chunkSize)), j) ==
                Covered(ops, j, if j < i + 1 then offset + chunkSize else offset)
      {
        assert out + (wave + ChunkAt(ops, i, offset, chunkSize)) == out + wave + ChunkAt(ops, i, offset, chunkSize);
        ChunkExtends(ops, out + wave, i, offset, chunkSize, j);
      }
      ChunksGrow(ops, wave, offset, chunkSize, Range(i), i);
      assert Range(i) + {i} == Range(i + 1);
      wave := wave + ChunkAt(ops, i, offset, chunkSize);
    }
  }

  /** Round `r` of the single batch: the chunk at `r * chunkSize` of every copy that is so long,
      starting with copy `r` modulo the number of copies and going round. */
  ghost predicate IsRotation(ops: seq<Copy>, part: seq<Chunk>, r: nat, chunkSize: nat)
    requires ops != []
  {
    && ChunksOf(ops, part, r * chunkSize, chunkSize, Range(|ops|))
    && forall a, b :: 0 <= a < b < |part| ==> Turn(|ops|, r, part[a].op) < Turn(|ops|, r, part[b].op)
  }

  /** The launcher with intra-batch synchronization: one batch, and round `r` visits the copies
      starting from number `r`.  `rounds` is the batch, cut by rounds. */
  method RotatedLaunch(ops: seq<Copy>, threshold: nat) returns (out: seq<Chunk>, rounds: seq<seq<Chunk>>)
    requires ops != [] && threshold / |ops| > 0
    ensures forall i: nat :: i < |ops| ==> Reach(ops, out, i) == ops[i].size
    ensures forall a :: 0 <= a < |out| ==> out[a].size * |ops| <= threshold
    ensures out == Flat(rounds)
    ensures forall r: nat :: r < |rounds| ==> rounds[r] != [] && IsRotation(ops, rounds[r], r, threshold / |ops|)
  {
    hide Reach, IsRotation;
    var maxSize := MaxSize(ops);
    var chunkSize := threshold / |ops|;
    var numRounds := (maxSize + chunkSize - 1) / chunkSize;
    assert numRounds == ChunkPlan.DivUp(maxSize, chunkSize);
    out, rounds := [], [];
    StartCovered(ops);
    for round := 0 to numRounds
      invariant AllCovered(ops, out, round * chunkSize) && out == Flat(rounds) && |rounds| == round
      invariant forall r: nat :: r < round ==> rounds[r] != [] && IsRotation(ops, rounds[r], r, chunkSize)
      invariant forall a :: 0 <= a < |out| ==> out[a].size <= chunkSize
    {
      var part := OneRotation(ops, out, round, chunkSize);
      MulMono(round, numRounds - 1, chunkSize);
      Distrib(numRounds, 1, chunkSize);
      LongestHasChunk(ops, part, round, chunkSize, maxSize);
      FlatAdd(rounds, part);
      out, rounds := out + part, rounds + [part];
      Distrib(round, 1, chunkSize);
    }
    AllDone(ops, out, numRounds * chunkSize);
    forall a | 0 <= a < |out| ensures out[a].size * |ops| <= threshold {
      MulMono(out[a].size, chunkSize, |ops|);
      DivBounds(threshold, |ops|);
    }
  }

  lemma LongestHasChunk(ops: seq<Copy>, part: seq<Chunk>, r: nat, chunkSize: nat, maxSize: nat)
    requires ops != [] && (maxSize == 0 || exists i :: 0 <= i < |ops| && ops[i].size == maxSize)
    requires r * chunkSize < maxSize && IsRotation(ops, part, r, chunkSize)
    ensures part != []
  {
    hide Turn, IsChunk;
    var i :| 0 <= i < |ops| && ops[i].size == maxSize;
    assert HasChunk(part, i);
  }

  method OneRotation(ops: seq<Copy>, ghost out: seq<Chunk>, round: nat, chunkSize: nat) returns (part: seq<Chunk>)
    requires ops != [] && chunkSize > 0 && AllCovered(ops, out, round * chunkSize)
    ensures AllCovered(ops, out + part, round * chunkSize + chunkSize) && IsRotation(ops, part, round, chunkSize)
    ensures forall a :: 0 <= a < |part| ==> part[a].size <= chunkSize
  {
    hide Reach, Turn;
    var n, offset := |ops|, round * chunkSize;
    part := [];
    assert out + [] == out;
    NoneVisited(n, round);
    for i := 0 to n
      invariant forall j: nat :: j < n ==> Reach(ops, out + part, j) == Covered(ops, j, if Visited(n, round, i, j) then offset + chunkSize else offset)
      invariant ChunksOf(ops, part, offset, chunkSize, VisitedBy(n, round, i))
      invariant forall a, b :: 0 <= a < b < |part| ==> Turn(n, round, part[a].op) < Turn(n, round, part[b].op)
    {
      var index := (i + round) % n;
      forall j: nat | j < n
        ensures Reach(ops, out + (part + ChunkAt(ops, index, offset, chunkSize)), j) ==
                Covered(ops, j, if Visited(n, round, i + 1, j) then offset + chunkSize else offset)
      {
        assert out + (part + ChunkAt(ops, index, offset, chunkSize)) == out + part + ChunkAt(ops, index, offset, chunkSize);
        VisitNext(n, round, i, j);
        ChunkExtends(ops, out + part, index, offset, chunkSize, j);
      }
      ChunksGrow(ops, part, offset, chunkSize, VisitedBy(n, round, i), index);
      VisitMore(n, round, i);
      part := part + ChunkAt(ops, index, offset, chunkSize);
    }
    forall j: nat | j < n ensures Visited(n, round, n, j) { VisitAll(n, round, j); }
    assert VisitedBy(n, round, n) == Range(n);
  }

  /** The copies that the first `i` steps of a round visit. */
  ghost function VisitedBy(n: nat, round: nat, i: nat): (s: set<int>)
    requires n > 0
    ensures forall j :: j in s <==> 0 <= j < n && Visited(n, round, i, j)
  {
    set j | j in Range(n) && Visited(n, round, i, j)
  }

  lemma VisitMore(n: nat, round: nat, i: nat)
    requires i < n
    ensures VisitedBy(n, round, i + 1) == VisitedBy(n, round, i) + {(i + round) % n}
    ensures !Visited(n, round, i, (i + round) % n) && forall j :: j in VisitedBy(n, round, i) ==> Turn(n, round, j) < Turn(n, round, (i + round) % n)
  {
    var x := (i + round) % n;
    VisitNext(n, round, i, x);
    forall j | 0 <= j < n ensures j in VisitedBy(n, round, i + 1) <==> j in VisitedBy(n, round, i) || j == x { VisitNext(n, round, i, j); }
  }

  /** How many copies round `round` visits before copy `j`. */
  ghost function Turn(n: nat, round: nat, j: int): int
    requires n > 0
  {
    (j - round) % n
  }

  ghost predicate Visited(n: nat, round: nat, i: nat, j: int)
    requires n > 0
  {
    Turn(n, round, j) < i
  }

  /** A round visits every copy exactly once. */
  lemma VisitNext(n: nat, round: nat, i: nat, j: int)
    requires i < n && 0 <= j < n
    ensures Visited(n, round, i + 1, j) <==> Visited(n, round, i, j) || j == (i + round) % n
    ensures j == (i + round) % n ==> !Visited(n, round, i, j)
  {
    ModSmall(i, n);
    ModSmall(j, n);
    ModAdd(i + round, 0 - round, n);
    ModAdd(j - round, round, n);
  }

  lemma NoneVisited(n: nat, round: nat)
    requires n > 0
    ensures VisitedBy(n, round, 0) == {} && forall j :: 0 <= j < n ==> !Visited(n, round, 0, j)
  {
  }

  lemma VisitAll(n: nat, round: nat, j: nat)
    requires n > 0
    ensures Visited(n, round, n, j)
  {
  }

  // ---------------------------------------------------------------------------

  ghost function Flat(waves: seq<seq<Chunk>>): seq<Chunk> {
    if waves == [] then [] else Flat(waves[..|waves| - 1]) + waves[|waves| - 1]
  }

  lemma FlatAdd(waves: seq<seq<Chunk>>, wave: seq<Chunk>)
    ensures Flat(waves + [wave]) == Flat(waves) + wave
  {
    assert (waves + [wave])[..|waves|] == waves;
  }

  lemma StartCovered(ops: seq<Copy>)
    ensures AllCovered(ops, [], 0 * 1) && forall c: nat :: AllCovered(ops, [], 0 * c)
  {
  }

  lemma EnoughRounds(maxSize: nat, chunkSize: nat, numRounds: nat)
    requires chunkSize > 0 && numRounds == if maxSize == 0 then 0 else 1 + (maxSize - 1) / chunkSize
    ensures maxSize <= numRounds * chunkSize
  {
    if maxSize > 0 {
      var q, r := (maxSize - 1) / chunkSize, (maxSize - 1) % chunkSize;
      assert maxSize - 1 == q * chunkSize + r;
      Distrib(q, 1, chunkSize);
    }
  }

  lemma AllDone(ops: seq<Copy>, out: seq<Chunk>, done: nat)
    requires AllCovered(ops, out, done) && forall i :: 0 <= i < |ops| ==> ops[i].size <= done
    ensures forall i: nat :: i < |ops| ==> Reach(ops, out, i) == ops[i].size
  {
    hide Reach;
  }
}
