/** How the hierarchical collectives cut a peer's slice into chunks (src/ce_coll.cc). */
module ChunkPlan {
  import opened Arith

  const MAX_CHUNK_SIZE: nat := 67108864
  const CHUNK_ALIGN: nat := 8192

  function DivUp(x: nat, d: nat): (q: nat)
    requires d > 0
    ensures x <= q * d < x + d
  {
    var q, r := (x + d - 1) / d, (x + d - 1) % d;
    assert x + d - 1 == q * d + r;
    q
  }

  function AlignUp(x: nat): (y: nat)
    ensures x <= y < x + CHUNK_ALIGN && y % CHUNK_ALIGN == 0
  {
    (x + CHUNK_ALIGN - 1) / CHUNK_ALIGN * CHUNK_ALIGN
  }

  // ---------------------------------------------------------------------------
  // Chunk width

  /** `ncclHierCollChunkWidth`. */
  function ChunkWidth(perPeerBytes: nat, numCtx: nat): nat
    requires perPeerBytes > 0
  {
    if numCtx > 1 then
      var target := AlignUp(DivUp(perPeerBytes, numCtx * ChunksPerCtx(perPeerBytes, numCtx)));
      if target < MAX_CHUNK_SIZE then target else MAX_CHUNK_SIZE
    else MAX_CHUNK_SIZE
  }

  function ChunksPerCtx(perPeerBytes: nat, numCtx: nat): (c: nat)
    requires numCtx > 0 && perPeerBytes > 0
    ensures c > 0 && numCtx * c > 0
  {
    var perCtx := DivUp(perPeerBytes, numCtx);
    var c := DivUp(perCtx, MAX_CHUNK_SIZE);
    assert numCtx * c > 0;
    c
  }

  const HALF_AWARE_THRESHOLD: nat := 134217728
  const MIN_HALF_AWARE_CHUNK: nat := 8388608

  function Min(a: nat, b: nat): nat { if a <= b then a else b }
  function Max(a: nat, b: nat): nat { if a >= b then a else b }

  /** `ncclHierCollRingChunkWidth`. */
  function RingChunkWidth(perRankBytes: nat, cwBytes: nat, ccwBytes: nat, numCtx: nat): nat
    requires perRankBytes > 0
  {
    var maxChunk := ChunkWidth(perRankBytes, numCtx);
    if numCtx < 4 || perRankBytes < HALF_AWARE_THRESHOLD then maxChunk
    else
      var halfBytes := Max(cwBytes, ccwBytes);
      if halfBytes == 0 then maxChunk
      else
        var halfAware := Min(AlignUp(DivUp(halfBytes, numCtx)), MAX_CHUNK_SIZE);
        Min(maxChunk, Max(halfAware, MIN_HALF_AWARE_CHUNK))
  }

  /** Widths are multiples of the alignment and between it and the cap. */
  lemma WidthAligned(perPeerBytes: nat, numCtx: nat)
    requires perPeerBytes > 0
    ensures CHUNK_ALIGN <= ChunkWidth(perPeerBytes, numCtx) <= MAX_CHUNK_SIZE
    ensures ChunkWidth(perPeerBytes, numCtx) % CHUNK_ALIGN == 0
  {
    if numCtx > 1 {
      var k := numCtx * ChunksPerCtx(perPeerBytes, numCtx);
      AtLeastOne(perPeerBytes, k);
    }
  }

  lemma AtLeastOne(x: nat, d: nat)
    requires x > 0 && d > 0
    ensures DivUp(x, d) >= 1 && AlignUp(DivUp(x, d)) >= CHUNK_ALIGN
  {
    var q := DivUp(x, d);
    assert q == 0 ==> q * d == 0;
    SmallestMultiple(AlignUp(q));
  }

  lemma SmallestMultiple(y: nat)
    requires y > 0 && y % CHUNK_ALIGN == 0
    ensures y >= CHUNK_ALIGN
  {
  }

  lemma RingWidthAligned(perRankBytes: nat, cwBytes: nat, ccwBytes: nat, numCtx: nat)
    requires perRankBytes > 0
    ensures CHUNK_ALIGN <= RingChunkWidth(perRankBytes, cwBytes, ccwBytes, numCtx) <= MAX_CHUNK_SIZE
    ensures RingChunkWidth(perRankBytes, cwBytes, ccwBytes, numCtx) % CHUNK_ALIGN == 0
  {
    WidthAligned(perRankBytes, numCtx);
  }

  lemma LeastDivUp(x: nat, d: nat, q: nat)
    requires d > 0 && x <= q * d
    ensures DivUp(x, d) <= q
  {
    var p := DivUp(x, d);
    if p > q { MulMono(q + 1, p, d); Distrib(q, 1, d); }
  }

  lemma LeastAligned(x: nat, y: nat)
    requires x <= y && y % CHUNK_ALIGN == 0
    ensures AlignUp(x) <= y
  {
  }

  /** The chunks per context are as few as the cap allows. */
  lemma ChunksPerCtxLeast(bytes: nat, numCtx: nat, c: nat)
    requires numCtx > 0 && bytes > 0
    ensures ChunksPerCtx(bytes, numCtx) <= c <==> bytes <= numCtx * (c * MAX_CHUNK_SIZE)
  {
    var perCtx, least := DivUp(bytes, numCtx), ChunksPerCtx(bytes, numCtx);
    if least <= c {
      MulMono(least, c, MAX_CHUNK_SIZE);
      MulMono(perCtx, c * MAX_CHUNK_SIZE, numCtx);
    }
    if bytes <= numCtx * (c * MAX_CHUNK_SIZE) {
      LeastDivUp(bytes, numCtx, c * MAX_CHUNK_SIZE);
      LeastDivUp(perCtx, MAX_CHUNK_SIZE, c);
    }
  }

  /** The width is the cap for one context.  For several it is the least aligned width with which
      that many chunks on every context hold the slice. */
  lemma WidthLeast(bytes: nat, numCtx: nat, w: nat)
    requires bytes > 0 && w % CHUNK_ALIGN == 0
    ensures numCtx <= 1 ==> ChunkWidth(bytes, numCtx) == MAX_CHUNK_SIZE
    ensures numCtx > 1 ==>
              (ChunkWidth(bytes, numCtx) <= w <==> bytes <= w * (numCtx * ChunksPerCtx(bytes, numCtx)))
  {
    if numCtx > 1 {
      var c, width := ChunksPerCtx(bytes, numCtx), ChunkWidth(bytes, numCtx);
      var k := numCtx * c;
      WidthCovers(bytes, numCtx, c, width);
      if width <= w { MulMono(width, w, k); }
      if bytes <= w * k {
        LeastDivUp(bytes, k, w);
        LeastAligned(DivUp(bytes, k), w);
      }
    }
  }

  /** The width of the ring is that of the slice, except that large slices on four or more
      contexts are cut finer: into the least aligned width, of 8 MiB or more, with which one chunk
      on every context holds the larger half. */
  lemma RingWidthLeast(bytes: nat, cwBytes: nat, ccwBytes: nat, numCtx: nat, w: nat)
    requires bytes > 0 && w % CHUNK_ALIGN == 0
    ensures var half, ring, plain := Max(cwBytes, ccwBytes), RingChunkWidth(bytes, cwBytes, ccwBytes, numCtx), ChunkWidth(bytes, numCtx);
            if numCtx < 4 || bytes < HALF_AWARE_THRESHOLD || half == 0 then ring == plain
            else ring <= w <==> plain <= w || (MIN_HALF_AWARE_CHUNK <= w && (half <= w * numCtx || MAX_CHUNK_SIZE <= w))
  {
    var half := Max(cwBytes, ccwBytes);
    WidthAligned(bytes, numCtx);
    if !(numCtx < 4 || bytes < HALF_AWARE_THRESHOLD || half == 0) {
      var share := DivUp(half, numCtx);
      if half <= w * numCtx {
        LeastDivUp(half, numCtx, w);
        LeastAligned(share, w);
      }
      if share <= w { MulMono(share, w, numCtx); }
    }
  }

  // ---------------------------------------------------------------------------
  // The chunks of one slice

  function NumChunks(bytes: nat, maxChunk: nat): nat {
    if bytes == 0 || maxChunk == 0 || bytes <= maxChunk then 1 else DivUp(bytes, maxChunk)
  }

  function UniformSize(bytes: nat, maxChunk: nat): nat
    requires maxChunk > 0 && bytes > maxChunk
  {
    var n := NumChunks(bytes, maxChunk);
    ChunksPositive(bytes, maxChunk);
    Max(bytes / n / CHUNK_ALIGN * CHUNK_ALIGN, CHUNK_ALIGN)
  }

  lemma ChunksPositive(bytes: nat, maxChunk: nat)
    ensures NumChunks(bytes, maxChunk) >= 1
    ensures maxChunk > 0 && bytes > maxChunk ==> NumChunks(bytes, maxChunk) >= 2
  {
    if maxChunk > 0 && bytes > maxChunk {
      var n := DivUp(bytes, maxChunk);
      if n <= 1 { MulMono(n, 1, maxChunk); }
    }
  }

  /** The size of all chunks but the last, and of the last; the last one of a slice that is
      cut too fine for the alignment comes out negative. */
  function Uniform(bytes: nat, maxChunk: nat): nat {
    if bytes == 0 || maxChunk == 0 || bytes <= maxChunk then bytes else UniformSize(bytes, maxChunk)
  }

  function Last(bytes: nat, maxChunk: nat): int {
    if bytes == 0 || maxChunk == 0 || bytes <= maxChunk then bytes
    else bytes - UniformSize(bytes, maxChunk) * (NumChunks(bytes, maxChunk) - 1)
  }

  /** All chunk sizes of a nonempty slice are positive, exactly when the width is not too fine. */
  lemma PositiveIff(bytes: nat, maxChunk: nat)
    requires bytes > 0
    ensures Uniform(bytes, maxChunk) > 0
    ensures Last(bytes, maxChunk) > 0 <==>
            maxChunk == 0 || bytes <= maxChunk || maxChunk >= CHUNK_ALIGN
            || CHUNK_ALIGN * (NumChunks(bytes, maxChunk) - 1) < bytes
  {
    if maxChunk > 0 && bytes > maxChunk {
      ChunksPositive(bytes, maxChunk);
      var n := NumChunks(bytes, maxChunk);
      UniformBounds(bytes, maxChunk, n);
      if maxChunk >= CHUNK_ALIGN {
        WideEnough(bytes, maxChunk, n);
      } else {
        TooNarrow(bytes, maxChunk, n);
      }
    }
  }

  /** The uniform size is the share per chunk rounded down, or the alignment. */
  lemma UniformBounds(bytes: nat, maxChunk: nat, n: nat)
    requires maxChunk > 0 && bytes > maxChunk && n == NumChunks(bytes, maxChunk) && n >= 2
    ensures bytes / n <= maxChunk
    ensures var u := UniformSize(bytes, maxChunk);
            u >= CHUNK_ALIGN && u > bytes / n - CHUNK_ALIGN && (u <= bytes / n || u == CHUNK_ALIGN)
  {
    assert bytes <= n * maxChunk;
    var f, r := bytes / n, bytes % n;
    assert bytes == f * n + r;
    if f > maxChunk {
      MulMono(maxChunk + 1, f, n);
      Distrib(maxChunk, 1, n);
    }
    var d := f / CHUNK_ALIGN;
    assert f == d * CHUNK_ALIGN + f % CHUNK_ALIGN;
  }

  /** The uniform size is the largest multiple of the alignment that is not above the share of a
      chunk, or the alignment if there is none. */
  lemma UniformLargest(bytes: nat, maxChunk: nat, n: nat, m: nat)
    requires 0 < maxChunk < bytes && n == NumChunks(bytes, maxChunk) && n >= 2
    requires m > 0 && m % CHUNK_ALIGN == 0
    ensures var u := UniformSize(bytes, maxChunk);
            u > 0 && u % CHUNK_ALIGN == 0 && (m <= u <==> m * n <= bytes || m == CHUNK_ALIGN)
  {
    var u, f := UniformSize(bytes, maxChunk), bytes / n;
    UniformBounds(bytes, maxChunk, n);
    assert bytes == f * n + bytes % n;
    if m <= f {
      MulMono(m, f, n);
    } else {
      MulMono(f + 1, m, n);
      Distrib(f, 1, n);
    }
    SmallestMultiple(m);
    if u <= f && m > u { MultiplesApart(u, m, CHUNK_ALIGN); }
  }

  lemma WideEnough(bytes: nat, maxChunk: nat, n: nat)
    requires maxChunk >= CHUNK_ALIGN && bytes > maxChunk && n == NumChunks(bytes, maxChunk) && n >= 2
    ensures UniformSize(bytes, maxChunk) * (n - 1) < bytes
  {
    var u, f := UniformSize(bytes, maxChunk), bytes / n;
    UniformBounds(bytes, maxChunk, n);
    Distrib(n, 1, maxChunk);
    assert (n - 1) * maxChunk < bytes;
    if u <= f {
      MulMono(u, f, n - 1);
      assert bytes == f * n + bytes % n;
      assert f * n == f * (n - 1) + f;
    } else {
      MulMono(CHUNK_ALIGN, maxChunk, n - 1);
    }
  }

  lemma TooNarrow(bytes: nat, maxChunk: nat, n: nat)
    requires 0 < maxChunk < CHUNK_ALIGN && bytes > maxChunk && n == NumChunks(bytes, maxChunk) && n >= 2
    ensures UniformSize(bytes, maxChunk) == CHUNK_ALIGN
  {
    UniformBounds(bytes, maxChunk, n);
  }

  /** A width below the alignment can break the plan. */
  lemma NarrowWidthFails()
    ensures Last(4096, 1024) < 0
  {
    assert NumChunks(4096, 1024) == 4 by { DivUpIs(4096, 1024, 4); }
    TooNarrow(4096, 1024, 4);
  }

  lemma DivUpIs(x: nat, d: nat, q: nat)
    requires d > 0 && x <= q * d < x + d
    ensures DivUp(x, d) == q
  {
    var p := DivUp(x, d);
    if p < q { MulMono(p + 1, q, d); Distrib(p, 1, d); }
    if p > q { MulMono(q + 1, p, d); Distrib(q, 1, d); }
  }

  /** The last of `n` chunks exceeds the width by less than `n - 1` alignment units, except for
      the single chunk of exactly the width. */
  lemma LastBound(bytes: nat, maxChunk: nat)
    requires bytes > 0 && maxChunk > 0
    ensures Last(bytes, maxChunk) < maxChunk + (NumChunks(bytes, maxChunk) - 1) * CHUNK_ALIGN <==> bytes != maxChunk
  {
    if bytes > maxChunk {
      ChunksPositive(bytes, maxChunk);
      var n := NumChunks(bytes, maxChunk);
      var u, f := UniformSize(bytes, maxChunk), bytes / n;
      UniformBounds(bytes, maxChunk, n);
      LastArith(bytes, n - 1, f, u, maxChunk);
    }
  }

  lemma LastArith(bytes: nat, m: nat, f: nat, u: nat, maxChunk: nat)
    requires m >= 1 && f == bytes / (m + 1) && u > f - CHUNK_ALIGN && f <= maxChunk && bytes <= (m + 1) * maxChunk
    ensures bytes - u * m < maxChunk + m * CHUNK_ALIGN
  {
    var r := bytes % (m + 1);
    assert bytes == f * (m + 1) + r;
    Distrib(m, 1, f);
    Distrib(m, 1, maxChunk);
    MulMono(f - CHUNK_ALIGN + 1, u, m);
    var x, y, z := f * m, u * m, CHUNK_ALIGN * m;
    Distrib(f - CHUNK_ALIGN, 1, m);
    Distrib(f, CHUNK_ALIGN, m);
    assert y >= x - z + m;
    assert bytes == x + f + r;
  }

  /** With several contexts there are at most as many chunks as contexts times the chunks per
      context that the cap calls for. */
  lemma ChunkCount(perPeerBytes: nat, numCtx: nat)
    requires perPeerBytes > 0 && numCtx > 1
    ensures NumChunks(perPeerBytes, ChunkWidth(perPeerBytes, numCtx)) <= numCtx * ChunksPerCtx(perPeerBytes, numCtx)
  {
    var c := ChunksPerCtx(perPeerBytes, numCtx);
    var k, w := numCtx * c, ChunkWidth(perPeerBytes, numCtx);
    WidthAligned(perPeerBytes, numCtx);
    if perPeerBytes > w {
      WidthCovers(perPeerBytes, numCtx, c, w);
      FewChunks(perPeerBytes, w, k);
    }
  }

  lemma WidthCovers(bytes: nat, numCtx: nat, c: nat, w: nat)
    requires bytes > 0 && numCtx > 1 && c == ChunksPerCtx(bytes, numCtx) && w == ChunkWidth(bytes, numCtx)
    ensures bytes <= w * (numCtx * c)
  {
    var k := numCtx * c;
    var share := DivUp(bytes, k);
    if w < MAX_CHUNK_SIZE {
      MulMono(share, w, k);
    } else {
      var perCtx := DivUp(bytes, numCtx);
      assert perCtx <= c * MAX_CHUNK_SIZE;
      MulMono(perCtx, c * MAX_CHUNK_SIZE, numCtx);
      assert c * MAX_CHUNK_SIZE * numCtx == MAX_CHUNK_SIZE * (numCtx * c);
    }
  }

  lemma FewChunks(bytes: nat, w: nat, k: nat)
    requires 0 < w < bytes <= w * k
    ensures DivUp(bytes, w) <= k
  {
    var q := DivUp(bytes, w);
    if q > k {
      MulMono(k + 1, q, w);
      Distrib(k, 1, w);
    }
  }

  // ---------------------------------------------------------------------------
  // Where the chunks lie

  /** Offset and size of chunk `c` in its slice. */
  function ChunkAt(bytes: nat, maxChunk: nat, c: nat): nat { c * Uniform(bytes, maxChunk) }

  function ChunkLen(bytes: nat, maxChunk: nat, c: nat): int {
    if c == NumChunks(bytes, maxChunk) - 1 then Last(bytes, maxChunk) else Uniform(bytes, maxChunk)
  }

  ghost predicate GoodWidth(maxChunk: nat) { maxChunk == 0 || maxChunk >= CHUNK_ALIGN }

  lemma LastEnds(bytes: nat, maxChunk: nat)
    ensures NumChunks(bytes, maxChunk) >= 1
    ensures ChunkAt(bytes, maxChunk, NumChunks(bytes, maxChunk) - 1) + Last(bytes, maxChunk) == bytes
  {
    ChunksPositive(bytes, maxChunk);
  }

  /** Every chunk is a nonempty part of the slice. */
  lemma ChunkInside(bytes: nat, maxChunk: nat, c: nat)
    requires bytes > 0 && GoodWidth(maxChunk) && c < NumChunks(bytes, maxChunk)
    ensures ChunkLen(bytes, maxChunk, c) > 0 && ChunkAt(bytes, maxChunk, c) + ChunkLen(bytes, maxChunk, c) <= bytes
  {
    hide NumChunks, Uniform, Last;
    PositiveIff(bytes, maxChunk);
    LastEnds(bytes, maxChunk);
    var n, u := NumChunks(bytes, maxChunk), Uniform(bytes, maxChunk);
    if c < n - 1 {
      MulMono(c + 1, n - 1, u);
      Distrib(c, 1, u);
    }
  }

  /** Chunks do not overlap. */
  lemma ChunksApart(bytes: nat, maxChunk: nat, c: nat, d: nat)
    requires bytes > 0 && GoodWidth(maxChunk) && c < d < NumChunks(bytes, maxChunk)
    ensures ChunkAt(bytes, maxChunk, c) + ChunkLen(bytes, maxChunk, c) <= ChunkAt(bytes, maxChunk, d)
  {
    var u := Uniform(bytes, maxChunk);
    MulMono(c + 1, d, u);
    Distrib(c, 1, u);
  }

  /** Every byte of the slice is in a chunk. */
  lemma ChunkOf(bytes: nat, maxChunk: nat, o: nat) returns (c: nat)
    requires o < bytes && GoodWidth(maxChunk)
    ensures c < NumChunks(bytes, maxChunk)
    ensures ChunkAt(bytes, maxChunk, c) <= o < ChunkAt(bytes, maxChunk, c) + ChunkLen(bytes, maxChunk, c)
  {
    hide NumChunks, Uniform, Last;
    PositiveIff(bytes, maxChunk);
    LastEnds(bytes, maxChunk);
    var n, u := NumChunks(bytes, maxChunk), Uniform(bytes, maxChunk);
    if o >= (n - 1) * u {
      c := n - 1;
    } else {
      c := o / u;
      DivBounds(o, u);
      if c >= n - 1 { MulMono(n - 1, c, u); }
    }
  }

  // ---------------------------------------------------------------------------
  // Building the plan

  /** Chunks that follow one another without gap or overlap from 0 to `total`. */
  ghost predicate Tiling(sizes: seq<int>, offs: seq<int>, total: int) {
    && |sizes| == |offs| > 0 && offs[0] == 0
    && (forall c :: 0 <= c < |sizes| - 1 ==> offs[c + 1] == offs[c] + sizes[c])
    && offs[|offs| - 1] + sizes[|sizes| - 1] == total
  }

  /** Entries `base .. base + n` of the two arrays. */
  ghost predicate Filled(sizes: seq<int>, offs: seq<int>, base: nat, n: nat, uniform: int, last: int) {
    && base + n <= |sizes| == |offs|
    && forall i :: base <= i < base + n ==>
         sizes[i] == (if i == base + n - 1 then last else uniform) && offs[i] == (i - base) * uniform
  }

  lemma FilledTiles(sizes: seq<int>, offs: seq<int>, base: nat, n: nat, uniform: int, last: int, total: int)
    requires Filled(sizes, offs, base, n, uniform, last) && n > 0 && total == uniform * (n - 1) + last
    ensures Tiling(sizes[base..base + n], offs[base..base + n], total)
  {
    var a, b := sizes[base..base + n], offs[base..base + n];
    forall c | 0 <= c < n ensures a[c] == (if c == n - 1 then last else uniform) && b[c] == c * uniform { }
    forall c | 0 <= c < n - 1 ensures b[c + 1] == b[c] + a[c] { Distrib(c, 1, uniform); }
  }

  lemma FilledFrame(sizes: seq<int>, offs: seq<int>, sizes': seq<int>, offs': seq<int>, base: nat, n: nat, from: nat, uniform: int, last: int)
    requires Filled(sizes, offs, base, n, uniform, last) && base + n <= from
    requires |sizes'| == |sizes| && |offs'| == |offs|
    requires forall i :: 0 <= i < from && i < |sizes| ==> sizes'[i] == sizes[i] && offs'[i] == offs[i]
    ensures Filled(sizes', offs', base, n, uniform, last)
  {
  }

  method FillPeer(chunkBytes: array<int>, chunkOff: array<int>, base: nat, n: nat, uniform: int, last: int)
    requires n > 0 && base + n <= chunkBytes.Length == chunkOff.Length && chunkBytes != chunkOff
    modifies chunkBytes, chunkOff
    ensures Filled(chunkBytes[..], chunkOff[..], base, n, uniform, last)
    ensures forall i :: 0 <= i < base ==> chunkBytes[i] == old(chunkBytes[i]) && chunkOff[i] == old(chunkOff[i])
  {
    var off := 0;
    for c := 0 to n
      invariant c < n ==> off == c * uniform
      invariant forall i :: base <= i < base + c ==>
        chunkBytes[i] == (if i == base + n - 1 then last else uniform) && chunkOff[i] == (i - base) * uniform
      invariant forall i :: 0 <= i < base ==> chunkBytes[i] == old(chunkBytes[i]) && chunkOff[i] == old(chunkOff[i])
    {
      var sz := if c == n - 1 then last else uniform;
      chunkBytes[base + c] := sz;
      chunkOff[base + c] := off;
      Distrib(c, 1, uniform);
      off := off + sz;
    }
  }

  method Starts(nPeers: nat, n: nat) returns (chunkStart: array<nat>)
    ensures chunkStart.Length == nPeers + 1 && forall p :: 0 <= p <= nPeers ==> chunkStart[p] == p * n
  {
    chunkStart := new nat[nPeers + 1];
    for p := 0 to nPeers + 1
      invariant forall q :: 0 <= q < p ==> chunkStart[q] == q * n
    {
      chunkStart[p] := p * n;
    }
  }

  lemma PeerBounds(p: nat, nPeers: nat, n: nat)
    requires p < nPeers
    ensures p * n + n <= nPeers * n && forall q: nat :: q < p ==> q * n + n <= p * n
  {
    MulMono(p + 1, nPeers, n);
    Distrib(p, 1, n);
    forall q: nat | q < p ensures q * n + n <= p * n {
      MulMono(q + 1, p, n);
      Distrib(q, 1, n);
    }
  }

  method FillPeers(nPeers: nat, n: nat, uniform: int, last: int) returns (chunkBytes: array<int>, chunkOff: array<int>)
    requires n > 0
    ensures chunkBytes.Length == chunkOff.Length == nPeers * n
    ensures forall p: nat :: p < nPeers ==> Filled(chunkBytes[..], chunkOff[..], p * n, n, uniform, last)
  {
    hide Filled;
    chunkBytes, chunkOff := new int[nPeers * n], new int[nPeers * n];
    for p := 0 to nPeers
      invariant forall q: nat :: q < p ==> Filled(chunkBytes[..], chunkOff[..], q * n, n, uniform, last)
      modifies chunkBytes, chunkOff
    {
      PeerBounds(p, nPeers, n);
      ghost var sizes, offs := chunkBytes[..], chunkOff[..];
      FillPeer(chunkBytes, chunkOff, p * n, n, uniform, last);
      forall q: nat | q < p ensures Filled(chunkBytes[..], chunkOff[..], q * n, n, uniform, last) {
        FilledFrame(sizes, offs, chunkBytes[..], chunkOff[..], q * n, n, p * n, uniform, last);
      }
    }
  }

  /** `ncclHierCollBuildChunk`: every peer's slice is tiled exactly by its chunks, which are all
      positive for a nonempty slice if the last one is. */
  method BuildChunk(bytes: nat, nPeers: nat, maxChunk: nat)
    returns (chunkStart: array<nat>, chunkBytes: array<int>, chunkOff: array<int>)
    ensures var n := NumChunks(bytes, maxChunk);
            && chunkStart.Length == nPeers + 1 && (forall p :: 0 <= p <= nPeers ==> chunkStart[p] == p * n)
            && chunkBytes.Length == chunkOff.Length == nPeers * n
            && (forall p: nat :: p < nPeers ==> PeerTiled(chunkBytes[..], chunkOff[..], p * n, n, bytes, maxChunk))
            && (forall p: nat :: p < nPeers ==>
                 Filled(chunkBytes[..], chunkOff[..], p * n, n, Uniform(bytes, maxChunk), Last(bytes, maxChunk)))
            && (if 0 < maxChunk < bytes then (n - 1) * maxChunk < bytes <= n * maxChunk else n == 1)
            && (0 < maxChunk < bytes ==>
                 forall p: nat :: p < nPeers ==> PeerAligned(chunkBytes[..], chunkOff[..], p * n, n, bytes))
  {
    hide NumChunks, Uniform, Last, UniformSize, Filled, PeerTiled, PeerAligned;
    ChunksPositive(bytes, maxChunk);
    CountIs(bytes, maxChunk);
    var n, uniform, last := NumChunks(bytes, maxChunk), Uniform(bytes, maxChunk), Last(bytes, maxChunk);
    chunkStart := Starts(nPeers, n);
    chunkBytes, chunkOff := FillPeers(nPeers, n, uniform, last);
    forall p: nat | p < nPeers
      ensures PeerTiled(chunkBytes[..], chunkOff[..], p * n, n, bytes, maxChunk)
      ensures 0 < maxChunk < bytes ==> PeerAligned(chunkBytes[..], chunkOff[..], p * n, n, bytes)
    {
      FilledPeer(chunkBytes[..], chunkOff[..], p * n, bytes, maxChunk);
      if 0 < maxChunk < bytes { FilledAligned(chunkBytes[..], chunkOff[..], p * n, bytes, maxChunk); }
    }
  }

  /** All chunks but the last have the largest multiple of the alignment not above the share of
      one chunk of `n`, or the alignment if there is none, and all start at a multiple of it. */
  ghost predicate PeerAligned(sizes: seq<int>, offs: seq<int>, base: nat, n: nat, bytes: nat) {
    && base + n <= |sizes| == |offs|
    && (forall i :: base <= i < base + n ==> offs[i] % CHUNK_ALIGN == 0)
    && forall i :: base <= i < base + n - 1 ==>
         && sizes[i] > 0 && sizes[i] % CHUNK_ALIGN == 0
         && (sizes[i] * n <= bytes || sizes[i] == CHUNK_ALIGN) && bytes < (sizes[i] + CHUNK_ALIGN) * n
  }

  lemma CountIs(bytes: nat, maxChunk: nat)
    ensures var n := NumChunks(bytes, maxChunk);
            if 0 < maxChunk < bytes then (n - 1) * maxChunk < bytes <= n * maxChunk else n == 1
  {
    if 0 < maxChunk < bytes { Distrib(NumChunks(bytes, maxChunk), 1, maxChunk); }
  }

  lemma FilledAligned(sizes: seq<int>, offs: seq<int>, base: nat, bytes: nat, maxChunk: nat)
    requires 0 < maxChunk < bytes
    requires Filled(sizes, offs, base, NumChunks(bytes, maxChunk), Uniform(bytes, maxChunk), Last(bytes, maxChunk))
    ensures PeerAligned(sizes, offs, base, NumChunks(bytes, maxChunk), bytes)
  {
    hide NumChunks, UniformSize, Last;
    var n, u := NumChunks(bytes, maxChunk), UniformSize(bytes, maxChunk);
    ChunksPositive(bytes, maxChunk);
    UniformLargest(bytes, maxChunk, n, CHUNK_ALIGN);
    UniformLargest(bytes, maxChunk, n, u);
    UniformLargest(bytes, maxChunk, n, u + CHUNK_ALIGN);
    forall i | base <= i < base + n ensures offs[i] % CHUNK_ALIGN == 0 {
      DividesMultiple(CHUNK_ALIGN, u, i - base);
    }
  }

  ghost predicate PeerTiled(sizes: seq<int>, offs: seq<int>, base: nat, n: nat, bytes: nat, maxChunk: nat) {
    && base + n <= |sizes| == |offs| && Tiling(sizes[base..base + n], offs[base..base + n], bytes)
    && (bytes > 0 && Last(bytes, maxChunk) > 0 ==> forall c :: base <= c < base + n ==> sizes[c] > 0)
  }

  lemma FilledPeer(sizes: seq<int>, offs: seq<int>, base: nat, bytes: nat, maxChunk: nat)
    requires Filled(sizes, offs, base, NumChunks(bytes, maxChunk), Uniform(bytes, maxChunk), Last(bytes, maxChunk))
    ensures PeerTiled(sizes, offs, base, NumChunks(bytes, maxChunk), bytes, maxChunk)
  {
    var n := NumChunks(bytes, maxChunk);
    ChunksPositive(bytes, maxChunk);
    if bytes > 0 { PositiveIff(bytes, maxChunk); }
    FilledTiles(sizes, offs, base, n, Uniform(bytes, maxChunk), Last(bytes, maxChunk), bytes);
  }
}
