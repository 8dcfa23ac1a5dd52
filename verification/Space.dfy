/** The cut array of `ncclSpace` (src/allocator.cc): a sorted array of cuts that
    divides the non-negative integers into segments which alternate between full
    and empty.  The segment after the last cut is empty. */
module Space {
  import opened Arith

  // ---------------------------------------------------------------------------
  // The set of integers a cut sequence stands for

  /** An odd number of cuts lie strictly above `x`. */
  ghost predicate OddAbove(cuts: seq<int>, x: int) {
    cuts != [] && ((x < cuts[0]) != OddAbove(cuts[1..], x))
  }

  /** `x` lies in a full segment. */
  ghost predicate Has(cuts: seq<int>, x: int) {
    0 <= x && OddAbove(cuts, x)
  }

  ghost predicate Ascending(s: seq<int>) {
    forall i, j :: 0 <= i <= j < |s| ==> s[i] <= s[j]
  }

  /** What every operation keeps: cuts are positive and strictly increasing. */
  ghost predicate Canonical(s: seq<int>) {
    && (forall i :: 0 <= i < |s| ==> 0 < s[i])
    && (forall i, j :: 0 <= i < j < |s| ==> s[i] < s[j])
  }

  /** `after` is `before` with membership flipped on exactly `[lo, hi)`. */
  ghost predicate Toggled(before: seq<int>, after: seq<int>, lo: int, hi: int) {
    forall x :: 0 <= x ==> (OddAbove(after, x) <==> (OddAbove(before, x) != (lo <= x < hi)))
  }

  /** `after` holds what `before` holds and the whole of `[lo, hi)`. */
  ghost predicate Grown(before: seq<int>, after: seq<int>, lo: int, hi: int) {
    forall x :: Has(after, x) <==> Has(before, x) || (0 <= x && lo <= x < hi)
  }

  /** `after` holds what `before` holds outside `[lo, hi)`. */
  ghost predicate Shrunk(before: seq<int>, after: seq<int>, lo: int, hi: int) {
    forall x :: Has(after, x) <==> Has(before, x) && !(lo <= x < hi)
  }

  lemma {:induction false} OddAboveConcat(a: seq<int>, b: seq<int>, x: int)
    ensures OddAbove(a + b, x) == (OddAbove(a, x) != OddAbove(b, x))
  {
    if a == [] {
      assert a + b == b;
    } else {
      OddAboveConcat(a[1..], b, x);
      assert (a + b)[1..] == a[1..] + b;
    }
  }

  lemma {:induction false} OddAboveAll(s: seq<int>, x: int)
    requires forall i :: 0 <= i < |s| ==> x < s[i]
    ensures OddAbove(s, x) == (|s| % 2 == 1)
  {
    if s != [] { OddAboveAll(s[1..], x); }
  }

  /** The formula of the data structure's own description: the segment that ends
      at `cuts[i]` is full exactly when `i` and the number of cuts differ in parity.
      `i == |cuts|` is the unallocated frontier. */
  lemma {:induction false} SegmentParity(cuts: seq<int>, i: nat, x: int)
    requires Ascending(cuts) && i <= |cuts|
    requires i > 0 ==> cuts[i - 1] <= x
    requires i < |cuts| ==> x < cuts[i]
    ensures OddAbove(cuts, x) == (i % 2 != |cuts| % 2)
  {
    if i == 0 {
      forall k | 0 <= k < |cuts| ensures x < cuts[k] { assert cuts[0] <= cuts[k]; }
      OddAboveAll(cuts, x);
    } else {
      assert cuts[0] <= cuts[i - 1] <= x;
      SegmentParity(cuts[1..], i - 1, x);
    }
  }

  lemma OddAboveLast(s: seq<int>, x: int)
    requires s != []
    ensures OddAbove(s, x) == (OddAbove(s[..|s| - 1], x) != (x < s[|s| - 1]))
  {
    var n := |s| - 1;
    assert s == s[..n] + [s[n]];
    OddAboveConcat(s[..n], [s[n]], x);
    assert OddAbove([s[n]], x) == (x < s[n]);
  }

  /** A set of integers has one cut sequence: the representation is canonical. */
  lemma {:induction false} CutsUnique(a: seq<int>, b: seq<int>)
    requires Canonical(a) && Canonical(b)
    requires forall x :: Has(a, x) <==> Has(b, x)
    ensures a == b
    decreases |a|
  {
    if a == [] && b == [] { return; }
    var top := if a == [] then b[|b| - 1] else if b == [] then a[|a| - 1]
               else if a[|a| - 1] < b[|b| - 1] then b[|b| - 1] else a[|a| - 1];
    TopCut(a, top);
    TopCut(b, top);
    assert Has(a, top - 1) <==> Has(b, top - 1);
    var a', b' := a[..|a| - 1], b[..|b| - 1];
    forall x ensures Has(a', x) <==> Has(b', x) {
      OddAboveLast(a, x);
      OddAboveLast(b, x);
      assert Has(a, x) <==> Has(b, x);
    }
    CutsUnique(a', b');
    assert a == a' + [top] && b == b' + [top];
  }

  lemma TopCut(s: seq<int>, top: int)
    requires Canonical(s) && 0 < top
    requires s != [] ==> s[|s| - 1] <= top
    ensures Has(s, top - 1) <==> s != [] && s[|s| - 1] == top
  {
    if s != [] && s[|s| - 1] == top {
      SegmentParity(s, |s| - 1, top - 1);
    } else {
      SegmentParity(s, |s|, top - 1);
    }
  }

  // ---------------------------------------------------------------------------
  // What the operations promise, on cut sequences

  function AlignUp(x: int, align: int): (r: int)
    requires 0 < align && 0 <= x
    ensures x <= r && r % align == 0
    ensures forall o :: x <= o && o % align == 0 ==> r <= o
  {
    var r := (x + align - 1) / align * align;
    assert r % align == 0 by { ModOfMultiple((x + align - 1) / align, align); }
    assert x <= r < x + align by { DivBounds(x + align - 1, align); }
    assert forall o :: x <= o && o % align == 0 ==> r <= o by {
      forall o | x <= o && o % align == 0 ensures r <= o {
        if o < r { MultiplesApart(o, r, align); }
      }
    }
    r
  }

  /** The greatest cut at or below `x`, or 0: where the segment of `x` begins. */
  ghost function Floor(cuts: seq<int>, x: int): (lo: int)
    ensures Ascending(cuts) && 0 <= x ==> lo <= x
  {
    if cuts == [] then 0
    else if cuts[|cuts| - 1] <= x then cuts[|cuts| - 1]
    else Floor(cuts[..|cuts| - 1], x)
  }

  lemma {:induction false} FloorAt(cuts: seq<int>, i: nat, x: int)
    requires Ascending(cuts) && i <= |cuts|
    requires i > 0 ==> cuts[i - 1] <= x
    requires i < |cuts| ==> x < cuts[i]
    ensures Floor(cuts, x) == if i == 0 then 0 else cuts[i - 1]
    decreases |cuts|
  {
    if i < |cuts| { FloorAt(cuts[..|cuts| - 1], i, x); }
  }

  /** An aligned interval at `o` that is wholly empty and ends below the limit, or
      in a hole below the last cut (the code compares a hole with its own end only). */
  ghost predicate Feasible(cuts: seq<int>, limit: int, size: int, align: int, o: int)
    requires 0 < align
  {
    && 0 <= o && o % align == 0
    && (forall x :: o <= x < o + size ==> !Has(cuts, x))
    && (o + size <= limit || (cuts != [] && o + size <= cuts[|cuts| - 1]))
  }

  /** The interval ends exactly where its empty segment does. */
  ghost predicate Tight(cuts: seq<int>, limit: int, size: int, off: int) {
    || off + size in cuts
    || (off + size == limit && (cuts == [] || cuts[|cuts| - 1] <= off))
  }

  /** Where marking starts: at the offset, except that the append path also fills
      the alignment padding that precedes it. */
  ghost function MarkFrom(cuts: seq<int>, limit: int, size: int, off: int): int {
    if Floor(cuts, off) == 0 || Tight(cuts, limit, size, off) then off else Floor(cuts, off)
  }

  /** Outcome of a successful allocation at `off`. */
  ghost predicate Allocated(cuts: seq<int>, limit: int, size: int, align: int, off: int, after: seq<int>)
    requires 0 < align
  {
    && Canonical(after)
    && Feasible(cuts, limit, size, align, off)
    && (forall o :: Feasible(cuts, limit, size, align, o) ==> off <= o)
    && Grown(cuts, after, MarkFrom(cuts, limit, size, off), off + size)
  }

  /** Outcome of a successful release of `[offset, offset + size)`. */
  ghost predicate Released(cuts: seq<int>, offset: int, size: int, after: seq<int>) {
    && Canonical(after)
    && (forall x :: offset <= x < offset + size ==> Has(cuts, x))
    && Shrunk(cuts, after, offset, offset + size)
  }

  // ---------------------------------------------------------------------------
  // The structure

  class CutSpace {
    var cuts: array<int>   // cuts.Length is the capacity
    var count: nat

    ghost predicate Valid()
      reads this, cuts
    {
      && count <= cuts.Length
      && (cuts.Length == 0 || cuts.Length >= 16)
      && Canonical(cuts[..count])
    }

    ghost function Cuts(): (s: seq<int>)
      requires count <= cuts.Length
      reads this, cuts
    {
      cuts[..count]
    }

    constructor ()
      ensures Valid() && Cuts() == [] && fresh(cuts)
    {
      cuts := new int[0];
      count := 0;
    }

    /** The enlarged array of a full space, with a gap of two before `index`. */
    method WideCopy(index: nat) returns (cuts1: array<int>)
      requires index <= count <= cuts.Length && (cuts.Length == 0 || 16 <= cuts.Length)
      ensures fresh(cuts1) && count + 2 <= cuts1.Length && 16 <= cuts1.Length
      ensures cuts1[..index] == cuts[..index] && cuts1[index + 2..count + 2] == cuts[index..count]
    {
      cuts1 := new int[if cuts.Length == 0 then 16 else cuts.Length * 2];
      for i := 0 to index
        invariant forall k :: 0 <= k < i ==> cuts1[k] == cuts[k]
      {
        cuts1[i] := cuts[i];
      }
      for i := index to count
        invariant forall k :: 0 <= k < index ==> cuts1[k] == cuts[k]
        invariant forall k :: index + 2 <= k < i + 2 ==> cuts1[k] == cuts[k - 2]
      {
        cuts1[i + 2] := cuts[i];
      }
    }

    /** Moves the cuts from `index` on up by two. */
    method ShiftUp(index: nat)
      requires index <= count && count + 2 <= cuts.Length
      modifies cuts
      ensures cuts[..index] == old(cuts[..index]) && cuts[index + 2..count + 2] == old(cuts[index..count])
    {
      for i := count downto index
        invariant forall k :: 0 <= k < i ==> cuts[k] == old(cuts[k])
        invariant forall k :: i + 2 <= k < count + 2 ==> cuts[k] == old(cuts[k - 2])
      {
        cuts[i + 2] := cuts[i];
      }
    }

    /** Inserts two cuts before `index`, growing the array if it is full. */
    method OpenGap(index: nat, lo: int, hi: int)
      requires Valid() && index <= count
      modifies this, cuts
      ensures count == old(count) + 2 <= cuts.Length && 16 <= cuts.Length
      ensures Cuts() == old(Cuts()[..index]) + [lo, hi] + old(Cuts()[index..])
      ensures cuts == old(cuts) || fresh(cuts)
    {
      hide Canonical;
      ghost var s := cuts[..count];
      if count + 2 > cuts.Length {
        cuts := WideCopy(index);
      } else {
        ShiftUp(index);
      }
      assert cuts[..index] == s[..index] && cuts[index + 2..count + 2] == s[index..];
      cuts[index], cuts[index + 1] := lo, hi;
      count := count + 2;
      assert cuts[..count] == cuts[..index] + [lo, hi] + cuts[index + 2..count];
    }

    /** Drops pairs of equal neighbours and all leading zeros, from `index` on, with
        a read and a write cursor over the same array. */
    method DropEmptySegments(index: nat)
      requires index <= count <= cuts.Length && 16 <= cuts.Length
      requires FilterInv(Cuts(), index, Cuts()[..index], if index == 0 then 0 else Cuts()[index - 1])
      modifies this`count, cuts
      ensures Valid()
      ensures SameSet(old(Cuts()), Cuts())
    {
      hide Canonical, Ascending, SameSet, FilterInv;
      ghost var s := cuts[..count];
      ghost var kept := s[..index];
      var r, w := index, index;
      var prev := if r == 0 then 0 else cuts[r - 1];
      while r < count
        modifies cuts
        invariant |kept| == w <= r <= count == |s|
        invariant forall k :: 0 <= k < w ==> cuts[k] == kept[k]
        invariant forall k :: r <= k < count ==> cuts[k] == s[k]
        invariant FilterInv(s, r, kept, prev)
      {
        FilterStep(s, r, kept, prev);
        var cur := cuts[r];
        r := r + 1;
        cuts[w] := cur;
        w := w + 1;
        kept := kept + [cur];
        if prev == cur {
          w := w - if w == 1 then 1 else 2;
          kept := kept[..w];
          cur := 0;
        }
        prev := cur;
      }
      FilterEnd(s, kept, prev);
      count := w;
      assert cuts[..count] == kept;
    }

    /** Flips `[lo, hi)` between full and empty. */
    method InsertSegment(index: nat, lo: int, hi: int)
      requires Valid() && index <= count && 0 <= lo <= hi
      requires index > 0 ==> cuts[index - 1] <= lo
      requires index < count ==> hi <= cuts[index]
      modifies this, cuts
      ensures Valid() && (cuts == old(cuts) || fresh(cuts))
      ensures Toggled(old(Cuts()), Cuts(), lo, hi)
    {
      ghost var s := cuts[..count];
      assert index > 0 ==> s[index - 1] <= lo;
      assert index < count ==> hi <= s[index];
      GapToggles(s, index, lo, hi);
      hide Canonical, Ascending, Toggled, SameSet, FilterInv;
      OpenGap(index, lo, hi);
      ghost var wide := cuts[..count];
      assert wide[..index] == s[..index];
      FilterStart(wide, index);
      DropEmptySegments(index);
      ToggledSame(s, wide, cuts[..count], lo, hi);
    }

    /** Walks the empty segments for the first one that can hold the interval. */
    method FindHole(limit: int, size: int, align: int) returns (i: nat, off: int)
      requires Valid() && 0 < size && 0 < align
      ensures i % 2 == count % 2
      ensures SearchedTo(Cuts(), limit, size, align, i)
      ensures i <= count ==> off == AlignUp(if i == 0 then 0 else cuts[i - 1], align)
      ensures i <= count ==> off + size <= if i == count then limit else cuts[i]
    {
      ghost var s := cuts[..count];
      i := count % 2;
      off := 0;
      SearchStart(s, limit, size, align);
      hide SearchedTo;
      while i <= count
        invariant i % 2 == count % 2
        invariant SearchedTo(s, limit, size, align, i)
      {
        var lo := if i == 0 then 0 else cuts[i - 1];
        var hi := if i == count then limit else cuts[i];
        off := AlignUp(lo, align);
        if off + size <= hi { return; }
        SearchStep(s, i, limit, size, align, off);
        i := i + 2;
      }
    }

    /** First fit: the least feasible aligned offset, or failure with nothing changed. */
    method TryAlloc(limit: int, size: int, align: int) returns (ok: bool, off: int)
      requires Valid() && 0 < size && 0 < align
      modifies this, cuts
      ensures Valid() && (cuts == old(cuts) || fresh(cuts))
      ensures ok ==> Allocated(old(Cuts()), limit, size, align, off, Cuts())
      ensures !ok ==> Cuts() == old(Cuts())
      ensures !ok ==> forall o :: !Feasible(old(Cuts()), limit, size, align, o)
    {
      ghost var s := cuts[..count];
      var i: nat;
      i, off := FindHole(limit, size, align);
      ok := i <= count;
      if ok {
        FitsAt(s, i, limit, size, align, off);
        hide Canonical, Toggled, Grown, Feasible, Allocated, SearchedTo, Tight, Floor;
        if i == 0 || off + size == if i == count then limit else cuts[i] {
          InsertSegment(i, off, off + size);
          AllocDone(s, i, limit, size, align, off, off, Cuts());
        } else {
          AppendToFull(s, i, limit, size, off);
          cuts[i - 1] := off + size;
          assert cuts[..count] == s[i - 1 := off + size];
          AllocDone(s, i, limit, size, align, off, s[i - 1], Cuts());
        }
      } else {
        SearchEnd(s, limit, size, align, i);
      }
    }

    /** The first full segment that ends beyond `offset`. */
    method FindFull(offset: int) returns (i: nat)
      requires Valid() && count > 0 && offset < cuts[count - 1]
      ensures i < count && i % 2 != count % 2 && offset < cuts[i] && (i > 1 ==> cuts[i - 2] <= offset)
    {
      hide Canonical;
      i := 1 - count % 2;
      while cuts[i] <= offset
        invariant i % 2 != count % 2 && i < count
        invariant i > 1 ==> cuts[i - 2] <= offset
        decreases count - i
      {
        i := i + 2;
      }
    }

    /** Empties part of the full segment that ends at `cuts[i]`, by moving the cut at either end
        of that segment or by cutting it twice. */
    method Empty(i: nat, offset: int, size: int)
      requires Valid() && i < count && 0 < size
      requires (if i == 0 then 0 else cuts[i - 1]) <= offset && offset + size <= cuts[i]
      modifies this, cuts
      ensures Valid() && (cuts == old(cuts) || fresh(cuts))
      ensures Toggled(old(Cuts()), Cuts(), offset, offset + size)
    {
      ghost var s := cuts[..count];
      var lo := if i == 0 then 0 else cuts[i - 1];
      var hi := cuts[i];
      if i != 0 && lo == offset && offset + size != hi {
        MoveCut(s, i - 1, offset + size);
        hide Canonical, Toggled;
        cuts[i - 1] := offset + size;
        assert cuts[..count] == s[i - 1 := offset + size];
      } else if lo != offset && offset + size == hi {
        MoveCut(s, i, offset);
        hide Canonical, Toggled;
        cuts[i] := offset;
        assert cuts[..count] == s[i := offset];
      } else {
        hide Canonical, Toggled;
        InsertSegment(i, offset, offset + size);
      }
    }

    /** Succeeds exactly when the whole interval is full, and then empties it. */
    method Free(offset: int, size: int) returns (ok: bool)
      requires Valid() && 0 < size
      modifies this, cuts
      ensures Valid() && (cuts == old(cuts) || fresh(cuts))
      ensures ok <==> forall x :: offset <= x < offset + size ==> Has(old(Cuts()), x)
      ensures ok ==> Released(old(Cuts()), offset, size, Cuts())
      ensures !ok ==> Cuts() == old(Cuts())
    {
      hide Canonical, Toggled, Released, Has;
      ghost var s := cuts[..count];
      if count == 0 || cuts[count - 1] <= offset {
        BeyondAll(s, offset);
        assert Cuts() == s;
        return false;
      }
      var i := FindFull(offset);
      if offset < (if i == 0 then 0 else cuts[i - 1]) || cuts[i] < offset + size {
        OutsideFull(s, i, offset, size);
        assert Cuts() == s;
        return false;
      }
      InsideFull(s, i, offset, size);
      Empty(i, offset, size);
      ReleaseDone(s, Cuts(), offset, size);
      ok := true;
    }
  }

  // ---------------------------------------------------------------------------
  // Steps of the proofs above

  /** The kept prefix without the cut that its equal neighbour cancels. */
  ghost function Shorter(kept: seq<int>): seq<int> {
    if kept == [] then [] else kept[..|kept| - 1]
  }

  ghost predicate SameSet(a: seq<int>, b: seq<int>) {
    forall x :: 0 <= x ==> OddAbove(a, x) == OddAbove(b, x)
  }

  /** Between two reads of the filter: what is kept together with what is still
      unread stands for the same set, and `prev` is the last kept cut, or 0 when
      the last kept cut can no longer be cancelled. */
  ghost predicate FilterInv(s: seq<int>, r: nat, kept: seq<int>, prev: int)
    requires r <= |s|
  {
    && Ascending(s) && (forall i :: 0 <= i < |s| ==> 0 <= s[i])
    && Canonical(kept)
    && (prev != 0 ==> kept != [] && kept[|kept| - 1] == prev && (r < |s| ==> prev <= s[r]))
    && (prev == 0 && kept != [] && r < |s| ==> kept[|kept| - 1] < s[r])
    && SameSet(s, kept + s[r..])
  }

  lemma FilterStart(s: seq<int>, index: nat)
    requires Ascending(s) && index <= |s| && Canonical(s[..index])
    requires forall i :: 0 <= i < |s| ==> 0 <= s[i]
    ensures FilterInv(s, index, s[..index], if index == 0 then 0 else s[index - 1])
  {
    assert s[..index] + s[index..] == s;
    if index > 0 { assert s[..index][index - 1] == s[index - 1]; }
  }

  lemma FilterEnd(s: seq<int>, kept: seq<int>, prev: int)
    requires FilterInv(s, |s|, kept, prev)
    ensures Canonical(kept) && SameSet(s, kept)
  {
    assert kept + s[|s|..] == kept;
  }

  lemma FilterStep(s: seq<int>, r: nat, kept: seq<int>, prev: int)
    requires r < |s| && FilterInv(s, r, kept, prev)
    ensures prev == s[r] ==>
              var w := |kept| + 1 - if |kept| == 0 then 1 else 2;
              (kept + [s[r]])[..w] == Shorter(kept) && FilterInv(s, r + 1, (kept + [s[r]])[..w], 0)
    ensures prev != s[r] ==> FilterInv(s, r + 1, kept + [s[r]], s[r])
  {
    assert kept + s[r..] == kept + [s[r]] + s[r + 1..];
    if prev == s[r] {
      PairDropped(kept, s[r], s[r + 1..]);
      if kept != [] && r + 1 < |s| && |kept| > 1 {
        assert kept[|kept| - 2] < kept[|kept| - 1] == s[r] <= s[r + 1];
      }
    } else if r + 1 < |s| {
      assert s[r] <= s[r + 1];
    }
  }

  lemma PairDropped(kept: seq<int>, cur: int, rest: seq<int>)
    requires 0 <= cur
    requires kept == [] ==> cur == 0
    requires kept != [] ==> kept[|kept| - 1] == cur
    ensures SameSet(kept + [cur] + rest, Shorter(kept) + rest)
  {
    forall x | 0 <= x ensures OddAbove(Shorter(kept) + rest, x) == OddAbove(kept + [cur] + rest, x) {
      OddAboveConcat(Shorter(kept), rest, x);
      OddAboveConcat(kept + [cur], rest, x);
      OddAboveLast(kept + [cur], x);
      assert (kept + [cur])[..|kept|] == kept;
      if kept != [] { OddAboveLast(kept, x); }
    }
  }

  lemma GapToggles(s: seq<int>, index: nat, lo: int, hi: int)
    requires Canonical(s) && index <= |s| && 0 <= lo <= hi
    requires index > 0 ==> s[index - 1] <= lo
    requires index < |s| ==> hi <= s[index]
    ensures var wide := s[..index] + [lo, hi] + s[index..];
            && Ascending(wide) && (forall i :: 0 <= i < |wide| ==> 0 <= wide[i])
            && Canonical(s[..index]) && Toggled(s, wide, lo, hi)
  {
    var wide := s[..index] + [lo, hi] + s[index..];
    assert Toggled(s, wide, lo, hi) by {
      hide Canonical;
      forall x ensures OddAbove(wide, x) == (OddAbove(s, x) != (lo <= x < hi)) { GapTogglesAt(s, index, lo, hi, x); }
    }
    GapAscends(s, index, lo, hi);
  }

  lemma GapAscends(s: seq<int>, index: nat, lo: int, hi: int)
    requires Canonical(s) && index <= |s| && 0 <= lo <= hi
    requires index > 0 ==> s[index - 1] <= lo
    requires index < |s| ==> hi <= s[index]
    ensures var wide := s[..index] + [lo, hi] + s[index..]; Ascending(wide) && forall i :: 0 <= i < |wide| ==> 0 <= wide[i]
  {
    hide Canonical;
    var wide := s[..index] + [lo, hi] + s[index..];
    forall k | 0 <= k < |wide| ensures wide[k] == GapAt(s, index, lo, hi, k) { }
    forall i, j | 0 <= i <= j < |wide| ensures 0 <= wide[i] <= wide[j] {
      GapOrder(s, index, lo, hi, i, j);
    }
  }

  ghost function GapAt(s: seq<int>, index: nat, lo: int, hi: int, k: nat): int
    requires index <= |s| && k < |s| + 2
  {
    if k < index then s[k] else if k == index then lo else if k == index + 1 then hi else s[k - 2]
  }

  lemma GapOrder(s: seq<int>, index: nat, lo: int, hi: int, i: nat, j: nat)
    requires Canonical(s) && index <= |s| && 0 <= lo <= hi && i <= j < |s| + 2
    requires index > 0 ==> s[index - 1] <= lo
    requires index < |s| ==> hi <= s[index]
    ensures 0 <= GapAt(s, index, lo, hi, i) <= GapAt(s, index, lo, hi, j)
  {
    if i < index { assert s[i] <= s[index - 1]; }
    if j > index + 1 { assert s[index] <= s[j - 2]; }
  }

  lemma GapTogglesAt(s: seq<int>, index: nat, lo: int, hi: int, x: int)
    requires index <= |s| && lo <= hi
    ensures OddAbove(s[..index] + [lo, hi] + s[index..], x) == (OddAbove(s, x) != (lo <= x < hi))
  {
    assert s == s[..index] + s[index..];
    OddAboveConcat(s[..index], s[index..], x);
    OddAboveConcat(s[..index] + [lo, hi], s[index..], x);
    OddAboveConcat(s[..index], [lo, hi], x);
    assert [lo, hi][1..] == [hi];
    assert OddAbove([hi], x) == (x < hi);
  }

  lemma ToggledSame(s: seq<int>, wide: seq<int>, t: seq<int>, lo: int, hi: int)
    requires Toggled(s, wide, lo, hi) && SameSet(wide, t)
    ensures Toggled(s, t, lo, hi)
  {
  }

  /** Moving one cut flips exactly the integers it passes over. */
  lemma MoveCut(s: seq<int>, i: nat, to: int)
    requires Canonical(s) && i < |s| && 0 < to
    requires i > 0 ==> s[i - 1] < to
    requires i + 1 < |s| ==> to < s[i + 1]
    ensures Canonical(s[i := to])
    ensures s[i] <= to ==> Toggled(s, s[i := to], s[i], to)
    ensures to <= s[i] ==> Toggled(s, s[i := to], to, s[i])
  {
    var t := s[i := to];
    forall x ensures OddAbove(t, x) == (OddAbove(s, x) != ((x < s[i]) != (x < to))) {
      assert s == s[..i] + [s[i]] + s[i + 1..] && t == s[..i] + [to] + s[i + 1..];
      OddAboveConcat(s[..i] + [s[i]], s[i + 1..], x);
      OddAboveConcat(s[..i] + [to], s[i + 1..], x);
      OddAboveConcat(s[..i], [s[i]], x);
      OddAboveConcat(s[..i], [to], x);
      assert OddAbove([to], x) == (x < to) && OddAbove([s[i]], x) == (x < s[i]);
    }
  }

  lemma ReleaseDone(s: seq<int>, t: seq<int>, offset: int, size: int)
    requires Canonical(t) && Toggled(s, t, offset, offset + size)
    requires forall x :: offset <= x < offset + size ==> Has(s, x)
    ensures Released(s, offset, size, t)
  {
    forall x ensures Has(t, x) <==> Has(s, x) && !(offset <= x < offset + size) {
      if offset <= x < offset + size { assert Has(s, x); }
    }
  }

  /** No feasible offset lies below the empty segment that ends at `cuts[i]`. */
  ghost predicate SearchedTo(s: seq<int>, limit: int, size: int, align: int, i: nat)
    requires 0 < align
  {
    forall o :: Feasible(s, limit, size, align, o) ==> i <= |s| && (i == 0 || s[i - 1] <= o)
  }

  lemma SearchStart(s: seq<int>, limit: int, size: int, align: int)
    requires Canonical(s) && 0 < size && 0 < align
    ensures SearchedTo(s, limit, size, align, |s| % 2)
  {
    if |s| % 2 == 1 {
      forall o ensures Feasible(s, limit, size, align, o) ==> s[0] <= o {
        if 0 <= o < s[0] {
          SegmentParity(s, 0, o);
          assert Has(s, o);
        }
      }
    }
  }

  lemma SearchStep(s: seq<int>, i: nat, limit: int, size: int, align: int, off: int)
    requires Canonical(s) && i <= |s| && i % 2 == |s| % 2 && 0 < size && 0 < align
    requires off == AlignUp(if i == 0 then 0 else s[i - 1], align)
    requires off + size > if i == |s| then limit else s[i]
    requires SearchedTo(s, limit, size, align, i)
    ensures SearchedTo(s, limit, size, align, i + 2)
  {
    forall o ensures Feasible(s, limit, size, align, o) ==> i + 2 <= |s| && s[i + 1] <= o {
      if i < |s| && off <= o < s[i + 1] {
        var x := if o < s[i] then s[i] else o;
        SegmentParity(s, i + 1, x);
        assert o <= x < o + size && Has(s, x);
      }
    }
  }

  lemma SearchEnd(s: seq<int>, limit: int, size: int, align: int, i: nat)
    requires 0 < align && |s| < i && SearchedTo(s, limit, size, align, i)
    ensures forall o :: !Feasible(s, limit, size, align, o)
  {
  }

  lemma EmptySegment(s: seq<int>, i: nat, lo: int, hi: int)
    requires Canonical(s) && i <= |s| && i % 2 == |s| % 2
    requires lo >= if i == 0 then 0 else s[i - 1]
    requires i < |s| ==> hi <= s[i]
    ensures forall x :: lo <= x < hi ==> !Has(s, x)
  {
    forall x | lo <= x < hi ensures !Has(s, x) { SegmentParity(s, i, x); }
  }

  /** The interval found by the search: wholly empty back to the start of its segment,
      and least among the feasible ones. */
  lemma FitsAt(s: seq<int>, i: nat, limit: int, size: int, align: int, off: int)
    requires Canonical(s) && i <= |s| && i % 2 == |s| % 2 && 0 < size && 0 < align
    requires off == AlignUp(if i == 0 then 0 else s[i - 1], align)
    requires off + size <= if i == |s| then limit else s[i]
    requires SearchedTo(s, limit, size, align, i)
    ensures Feasible(s, limit, size, align, off)
    ensures forall o :: Feasible(s, limit, size, align, o) ==> off <= o
    ensures Floor(s, off) == if i == 0 then 0 else s[i - 1]
    ensures Tight(s, limit, size, off) <==> off + size == if i == |s| then limit else s[i]
  {
    var lo := if i == 0 then 0 else s[i - 1];
    EmptySegment(s, i, lo, off + size);
    FloorAt(s, i, off);
    if i < |s| { assert s[i] <= s[|s| - 1]; }
    if off + size in s {
      var k :| 0 <= k < |s| && s[k] == off + size;
      assert i <= k;
    }
  }

  lemma AppendToFull(s: seq<int>, i: nat, limit: int, size: int, off: int)
    requires Canonical(s) && 0 < i <= |s| && 0 < size && s[i - 1] <= off
    requires i < |s| ==> off + size < s[i]
    ensures Canonical(s[i - 1 := off + size])
    ensures Toggled(s, s[i - 1 := off + size], s[i - 1], off + size)
  {
    MoveCut(s, i - 1, off + size);
  }

  lemma AllocDone(s: seq<int>, i: nat, limit: int, size: int, align: int, off: int, from: int, t: seq<int>)
    requires Canonical(s) && Canonical(t) && i <= |s| && i % 2 == |s| % 2 && 0 < size && 0 < align
    requires off + size <= if i == |s| then limit else s[i]
    requires Feasible(s, limit, size, align, off)
    requires forall o :: Feasible(s, limit, size, align, o) ==> off <= o
    requires Floor(s, off) == (if i == 0 then 0 else s[i - 1]) <= from <= off
    requires from == MarkFrom(s, limit, size, off)
    requires Toggled(s, t, from, off + size)
    ensures Allocated(s, limit, size, align, off, t)
  {
    EmptySegment(s, i, from, off + size);
  }

  lemma BeyondAll(s: seq<int>, offset: int)
    requires Canonical(s) && (s == [] || s[|s| - 1] <= offset)
    ensures !Has(s, offset)
  {
    SegmentParity(s, |s|, offset);
  }

  lemma OutsideFull(s: seq<int>, i: nat, offset: int, size: int)
    requires Canonical(s) && i < |s| && i % 2 != |s| % 2 && 0 < size
    requires i > 1 ==> s[i - 2] <= offset
    requires offset < s[i]
    requires offset < (if i == 0 then 0 else s[i - 1]) || s[i] < offset + size
    ensures !forall x :: offset <= x < offset + size ==> Has(s, x)
  {
    if offset < 0 {
      assert !Has(s, offset);
    } else if i > 0 && offset < s[i - 1] {
      SegmentParity(s, i - 1, offset);
      assert !Has(s, offset);
    } else {
      SegmentParity(s, i + 1, s[i]);
      assert !Has(s, s[i]);
    }
  }

  lemma InsideFull(s: seq<int>, i: nat, offset: int, size: int)
    requires Canonical(s) && i < |s| && i % 2 != |s| % 2 && 0 < size
    requires (if i == 0 then 0 else s[i - 1]) <= offset && offset + size <= s[i]
    ensures forall x :: offset <= x < offset + size ==> Has(s, x)
  {
    forall x | offset <= x < offset + size ensures Has(s, x) { SegmentParity(s, i, x); }
  }

  // ---------------------------------------------------------------------------
  // What follows from the outcomes, for every cut sequence

  /** Both outcomes are functions of the cuts: two spaces with equal cuts that serve
      the same request stay equal and hand out the same offset. */
  lemma AllocatedUnique(cuts: seq<int>, limit: int, size: int, align: int,
                        off1: int, after1: seq<int>, off2: int, after2: seq<int>)
    requires 0 < align
    requires Allocated(cuts, limit, size, align, off1, after1)
    requires Allocated(cuts, limit, size, align, off2, after2)
    ensures off1 == off2 && after1 == after2
  {
    assert off1 == off2;
    CutsUnique(after1, after2);
  }

  lemma ReleasedUnique(cuts: seq<int>, offset: int, size: int, after1: seq<int>, after2: seq<int>)
    requires Released(cuts, offset, size, after1) && Released(cuts, offset, size, after2)
    ensures after1 == after2
  {
    CutsUnique(after1, after2);
  }

  /** An allocation marks exactly its interval iff it starts its segment, or the
      segment starts at zero, or it ends its segment: in every other case the append
      path also marks the alignment padding. */
  lemma AllocExactIff(cuts: seq<int>, limit: int, size: int, align: int, off: int, after: seq<int>)
    requires Canonical(cuts) && 0 < size && 0 < align && Allocated(cuts, limit, size, align, off, after)
    ensures Grown(cuts, after, off, off + size)
        <==> Floor(cuts, off) == off || Floor(cuts, off) == 0 || Tight(cuts, limit, size, off)
  {
    var from := MarkFrom(cuts, limit, size, off);
    if from < off {
      FloorPadding(cuts, off);
      assert Has(after, from) && !Has(cuts, from);
    }
  }

  lemma {:induction false} FloorIndex(cuts: seq<int>, x: int) returns (i: nat)
    requires Canonical(cuts) && 0 <= x
    ensures i <= |cuts| && (i > 0 ==> cuts[i - 1] <= x) && (i < |cuts| ==> x < cuts[i])
    ensures Floor(cuts, x) == if i == 0 then 0 else cuts[i - 1]
  {
    i := |cuts|;
    while i > 0 && x < cuts[i - 1]
      invariant i <= |cuts| && (i < |cuts| ==> x < cuts[i])
    {
      i := i - 1;
    }
    FloorAt(cuts, i, x);
  }

  /** A segment is uniformly full or empty, from its floor on. */
  lemma FloorPadding(cuts: seq<int>, x: int)
    requires Canonical(cuts) && 0 <= x
    ensures 0 <= Floor(cuts, x) && (Has(cuts, Floor(cuts, x)) <==> Has(cuts, x))
  {
    var i := FloorIndex(cuts, x);
    SegmentParity(cuts, i, x);
    SegmentParity(cuts, i, Floor(cuts, x));
  }

  ghost predicate AlignedCuts(cuts: seq<int>, align: int)
    requires 0 < align
  {
    forall i :: 0 <= i < |cuts| ==> cuts[i] % align == 0
  }

  /** With aligned cuts an allocation marks exactly its interval. */
  lemma AlignedAllocIsExact(cuts: seq<int>, limit: int, size: int, align: int, off: int, after: seq<int>)
    requires Canonical(cuts) && 0 < size && 0 < align && AlignedCuts(cuts, align)
    requires Allocated(cuts, limit, size, align, off, after)
    ensures Grown(cuts, after, off, off + size)
  {
    var i := FloorIndex(cuts, off);
    var lo := Floor(cuts, off);
    assert lo % align == 0;
    SegmentParity(cuts, i, off);
    assert !Has(cuts, off);
    if lo < off && i < |cuts| {
      MultiplesApart(lo, off, align);
    }
    assert Feasible(cuts, limit, size, align, lo) by {
      forall x | lo <= x < lo + size ensures !Has(cuts, x) {
        if off <= x { assert !Has(cuts, x); } else { SegmentParity(cuts, i, x); }
      }
    }
  }

  /** A cut is where membership changes, so a canonical sequence is aligned exactly
      when membership is constant on aligned blocks. */
  lemma AlignedCutsIff(cuts: seq<int>, align: int)
    requires Canonical(cuts) && 0 < align
    ensures AlignedCuts(cuts, align) <==> forall x :: 0 < x && x % align != 0 ==> (Has(cuts, x) <==> Has(cuts, x - 1))
  {
    forall x | 0 < x && x !in cuts ensures Has(cuts, x) <==> Has(cuts, x - 1) {
      var i := FloorIndex(cuts, x);
      SegmentParity(cuts, i, x);
      SegmentParity(cuts, i, x - 1);
    }
    forall i | 0 <= i < |cuts| ensures Has(cuts, cuts[i]) <==> !Has(cuts, cuts[i] - 1) {
      SegmentParity(cuts, i + 1, cuts[i]);
      SegmentParity(cuts, i, cuts[i] - 1);
    }
  }

  /** Aligned cuts stay aligned. */
  lemma AllocKeepsAligned(cuts: seq<int>, limit: int, size: int, align: int, off: int, after: seq<int>)
    requires Canonical(cuts) && 0 < size && 0 < align && size % align == 0 && AlignedCuts(cuts, align)
    requires Allocated(cuts, limit, size, align, off, after)
    ensures AlignedCuts(after, align)
  {
    AlignedAllocIsExact(cuts, limit, size, align, off, after);
    AlignedCutsIff(cuts, align);
    AlignedCutsIff(after, align);
    ModAdd(off, size, align);
    ModAdd(size, 0, align);
  }

  lemma FreeKeepsAligned(cuts: seq<int>, offset: int, size: int, align: int, after: seq<int>)
    requires Canonical(cuts) && 0 < size && 0 < align && AlignedCuts(cuts, align)
    requires offset % align == 0 && size % align == 0 && Released(cuts, offset, size, after)
    ensures AlignedCuts(after, align)
  {
    AlignedCutsIff(cuts, align);
    AlignedCutsIff(after, align);
    ModAdd(offset, size, align);
    ModAdd(size, 0, align);
  }

  /** Releasing an exact allocation restores the cuts themselves, not only the set. */
  lemma FreeUndoesAlloc(cuts: seq<int>, limit: int, size: int, align: int, off: int,
                        after: seq<int>, again: seq<int>)
    requires Canonical(cuts) && 0 < size && 0 < align
    requires Allocated(cuts, limit, size, align, off, after)
    requires Released(after, off, size, again)
    ensures again == cuts <==> Grown(cuts, after, off, off + size)
  {
    if Grown(cuts, after, off, off + size) {
      forall x ensures Has(again, x) <==> Has(cuts, x) {
        if off <= x < off + size { assert !Has(cuts, x); }
      }
      CutsUnique(again, cuts);
    } else {
      var from := MarkFrom(cuts, limit, size, off);
      AllocExactIff(cuts, limit, size, align, off, after);
      FloorPadding(cuts, off);
      assert Has(again, from) && !Has(cuts, from);
    }
  }

  lemma OneCut(c: int, x: int)
    ensures OddAbove([c], x) == (x < c)
  {
    assert [c][1..] == [];
  }

  /** With one unit allocated at zero, an aligned request takes its padding along, and
      releasing it leaves that padding full for good. */
  lemma PaddingLeaks()
    ensures Allocated([1], 100, 4, 4, 4, [8]) && Released([8], 4, 4, [4])
  {
    forall x ensures OddAbove([1], x) == (x < 1) && OddAbove([4], x) == (x < 4) && OddAbove([8], x) == (x < 8) {
      OneCut(1, x);
      OneCut(4, x);
      OneCut(8, x);
    }
    assert Floor([1], 4) == 1;
    assert MarkFrom([1], 100, 4, 4) == 1;
    forall o | Feasible([1], 100, 4, 4, o) ensures 4 <= o { if o < 4 { assert o == 0 && Has([1], 0); } }
  }
}
