/** Positions in a ring of `n` ranks or nodes, as the ring algorithms compute them. */
module RingIndex {
  import opened Arith

  ghost function Succ(n: nat, r: int): (x: int)
    requires n > 0
    ensures 0 <= x < n
  {
    (r + 1) % n
  }

  ghost function Pred(n: nat, r: int): (x: int)
    requires n > 0
    ensures 0 <= x < n
  {
    (r - 1 + n) % n
  }

  /** Slice numbers as the code computes them. */
  ghost function Back(n: nat, r: int, k: int): (x: int)
    requires n > 0
    ensures 0 <= x < n
  {
    (r - k + n) % n
  }

  ghost function Fwd(n: nat, r: int, k: int): (x: int)
    requires n > 0
    ensures 0 <= x < n
  {
    (r + k) % n
  }

  /** How far slice `x` lies behind rank `r` in the ring. */
  ghost function Off(n: nat, r: int, x: int): int
    requires n > 0
  {
    (r - x + n) % n
  }

  lemma BackFacts(n: nat, r: int, k: int)
    requires 0 <= r < n && 0 <= k < n
    ensures 0 <= Back(n, r, k) < n && Off(n, r, Back(n, r, k)) == k
  {
    ModShift(r - k, 1, n);
    ModWrap(r - k, n);
    var b := Back(n, r, k);
    ModShift(r - b, 1, n);
    ModWrap(r - b, n);
  }

  lemma FwdFacts(n: nat, r: int, k: int)
    requires 0 <= r < n && 0 <= k < n
    ensures 0 <= Fwd(n, r, k) < n && Off(n, r, Fwd(n, r, k)) == if k == 0 then 0 else n - k
  {
    ModWrap(r + k, n);
    var f := Fwd(n, r, k);
    ModShift(r - f, 1, n);
    ModWrap(r - f, n);
  }

  lemma Neighbours(n: nat, r: int)
    requires 0 <= r < n
    ensures 0 <= Succ(n, r) < n && 0 <= Pred(n, r) < n
    ensures Succ(n, Pred(n, r)) == r && Pred(n, Succ(n, r)) == r
  {
    ModWrap(r + 1, n);
    ModShift(r - 1, 1, n);
    ModWrap(r - 1, n);
    var s, q := Succ(n, r), Pred(n, r);
    ModShift(s - 1, 1, n);
    ModWrap(s - 1, n);
    ModWrap(q + 1, n);
  }

  /** Neighbours agree on the slice of each message. */
  lemma SameSlice(n: nat, r: int, k: int)
    requires 0 <= r < n && 0 <= k < n
    ensures Back(n, Pred(n, r), k) == Back(n, r, k + 1)
    ensures Fwd(n, Succ(n, r), k) == Fwd(n, r, k + 1)
  {
    hide Back, Fwd, Pred, Succ;
    BackIs(n, Pred(n, r), k);
    BackIs(n, r, k + 1);
    FwdIs(n, Succ(n, r), k);
    FwdIs(n, r, k + 1);
    NeighbourIs(n, r);
  }

  lemma BackIs(n: nat, r: int, k: int)
    requires 0 <= r < n && 0 <= k <= n
    ensures Back(n, r, k) == if r < k then r - k + n else r - k
  {
    ModWrap(r - k + n, n);
  }

  lemma FwdIs(n: nat, r: int, k: int)
    requires 0 <= r < n && 0 <= k <= n
    ensures Fwd(n, r, k) == if r + k < n then r + k else r + k - n
  {
    ModWrap(r + k, n);
  }

  lemma NeighbourIs(n: nat, r: int)
    requires 0 <= r < n
    ensures Pred(n, r) == (if r == 0 then n - 1 else r - 1) && Succ(n, r) == if r == n - 1 then 0 else r + 1
  {
    ModWrap(r - 1 + n, n);
    ModWrap(r + 1, n);
  }

  lemma OffUnique(n: nat, r: int, x: int, y: int)
    requires 0 <= r < n && 0 <= x < n && 0 <= y < n && Off(n, r, x) == Off(n, r, y)
    ensures x == y
  {
    ModShift(r - x, 1, n);
    ModWrap(r - x, n);
    ModShift(r - y, 1, n);
    ModWrap(r - y, n);
  }

  lemma OffSelf(n: nat, r: int)
    requires 0 <= r < n
    ensures Off(n, r, r) == 0
  {
    ModShift(0, 1, n);
  }
}
