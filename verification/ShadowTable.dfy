/** The hash table of `ncclShadowPool` (src/allocator.cc): chains of objects keyed by device
    address, doubled when the number of objects would exceed twice the number of buckets.
    It refines a finite map. */
module ShadowTable {
  import opened Arith

  /** `page` is -1 for an object allocated on its own. */
  datatype Obj = Obj(dev: nat, host: nat, size: nat, page: int)

  /** `ncclHashPointer`: any function into the buckets. */
  type Hash = h: (nat, nat) -> nat | forall b, d :: h(b, d) < Pow2(b) witness ((b, d) => 0)

  ghost predicate DistinctDevs(c: seq<Obj>) {
    forall i, j :: 0 <= i < j < |c| ==> c[i].dev != c[j].dev
  }

  ghost predicate BucketOk(h: Hash, hbits: nat, c: seq<Obj>, b: nat, live: map<nat, Obj>) {
    && DistinctDevs(c)
    && forall i :: 0 <= i < |c| ==> h(hbits, c[i].dev) == b && c[i].dev in live && live[c[i].dev] == c[i]
  }

  /** The table holds exactly the objects of `live`, each in the bucket of its address. */
  ghost predicate TableOk(h: Hash, hbits: nat, table: seq<seq<Obj>>, live: map<nat, Obj>) {
    && |table| == Pow2(hbits)
    && (forall b :: 0 <= b < |table| ==> BucketOk(h, hbits, table[b], b, live))
    && (forall d :: d in live ==> live[d].dev == d && live[d] in table[h(hbits, d)])
  }

  lemma InsertOk(h: Hash, hbits: nat, table: seq<seq<Obj>>, live: map<nat, Obj>, o: Obj)
    requires TableOk(h, hbits, table, live) && o.dev !in live
    ensures h(hbits, o.dev) < |table|
    ensures TableOk(h, hbits, table[h(hbits, o.dev) := [o] + table[h(hbits, o.dev)]], live[o.dev := o])
  {
    var b := h(hbits, o.dev);
    var c, table', live' := [o] + table[b], table[b := [o] + table[b]], live[o.dev := o];
    forall b' | 0 <= b' < |table'| ensures BucketOk(h, hbits, table'[b'], b', live') {
      assert BucketOk(h, hbits, table[b'], b', live);
      assert b' == b ==> forall i :: 1 <= i < |c| ==> c[i] == table[b][i - 1];
    }
    forall d | d in live' ensures live'[d].dev == d && live'[d] in table'[h(hbits, d)] {
      if d == o.dev {
        assert c[0] == o;
      } else if h(hbits, d) == b {
        assert live[d] in table[b];
      }
    }
  }

  /** Lookup along a chain: its position, or the length if it is not there. */
  method Find(h: Hash, hbits: nat, table: seq<seq<Obj>>, dev: nat, ghost live: map<nat, Obj>) returns (b: nat, i: nat)
    requires TableOk(h, hbits, table, live)
    ensures b == h(hbits, dev) < |table| && i <= |table[b]|
    ensures dev in live <==> i < |table[b]|
    ensures i < |table[b]| ==> table[b][i] == live[dev]
  {
    b, i := h(hbits, dev), 0;
    assert BucketOk(h, hbits, table[b], b, live);
    while i < |table[b]| && table[b][i].dev != dev
      invariant i <= |table[b]| && forall j :: 0 <= j < i ==> table[b][j].dev != dev
    {
      i := i + 1;
    }
    if dev in live {
      assert live[dev] in table[b];
    }
  }

  lemma RemoveOk(h: Hash, hbits: nat, table: seq<seq<Obj>>, live: map<nat, Obj>, b: nat, i: nat)
    requires TableOk(h, hbits, table, live) && b < |table| && i < |table[b]|
    ensures TableOk(h, hbits, table[b := table[b][..i] + table[b][i + 1..]], live - {table[b][i].dev})
  {
    var o := table[b][i];
    var c := table[b][..i] + table[b][i + 1..];
    var table', live' := table[b := c], live - {o.dev};
    assert BucketOk(h, hbits, table[b], b, live);
    assert forall j :: 0 <= j < |c| ==> c[j] == table[b][if j < i then j else j + 1];
    forall b' | 0 <= b' < |table'| ensures BucketOk(h, hbits, table'[b'], b', live') {
      assert BucketOk(h, hbits, table[b'], b', live);
    }
    forall d | d in live' ensures live'[d].dev == d && live'[d] in table'[h(hbits, d)] {
      assert live[d] in table[h(hbits, d)];
      if h(hbits, d) == b {
        var j :| 0 <= j < |table[b]| && table[b][j] == live[d];
        assert c[if j < i then j else j - 1] == live[d];
      }
    }
  }

  // ---------------------------------------------------------------------------
  // Doubling

  /** `o` has been moved once buckets below `i0` and the first `j` of bucket `i0` have. */
  ghost predicate Passed(h: Hash, hbits: nat, table: seq<seq<Obj>>, i0: nat, j: nat, o: Obj) {
    h(hbits, o.dev) < i0 || (h(hbits, o.dev) == i0 < |table| && j <= |table[i0]| && o in table[i0][..j])
  }

  ghost predicate HalfWay(h: Hash, hbits: nat, table: seq<seq<Obj>>, live: map<nat, Obj>, i0: nat, j: nat, moved: map<nat, Obj>) {
    && (forall d :: d in moved ==> d in live && moved[d] == live[d])
    && (forall d :: d in live ==> (d in moved <==> Passed(h, hbits, table, i0, j, live[d])))
  }

  lemma MoveOne(h: Hash, hbits: nat, table: seq<seq<Obj>>, live: map<nat, Obj>, i0: nat, j: nat, moved: map<nat, Obj>)
    requires TableOk(h, hbits, table, live) && i0 < |table| && j < |table[i0]| && HalfWay(h, hbits, table, live, i0, j, moved)
    ensures var o := table[i0][j];
            o.dev !in moved && HalfWay(h, hbits, table, live, i0, j + 1, moved[o.dev := o])
  {
    var o := table[i0][j];
    assert BucketOk(h, hbits, table[i0], i0, live);
    assert o !in table[i0][..j];
    assert table[i0][..j + 1] == table[i0][..j] + [o];
    forall d | d in live ensures d in moved[o.dev := o] <==> Passed(h, hbits, table, i0, j + 1, live[d]) {
      if h(hbits, d) == i0 && d != o.dev { assert live[d] != o; }
    }
  }

  lemma NextBucket(h: Hash, hbits: nat, table: seq<seq<Obj>>, live: map<nat, Obj>, i0: nat, moved: map<nat, Obj>)
    requires TableOk(h, hbits, table, live) && i0 < |table| && HalfWay(h, hbits, table, live, i0, |table[i0]|, moved)
    ensures HalfWay(h, hbits, table, live, i0 + 1, 0, moved)
  {
    assert table[i0][..|table[i0]|] == table[i0];
    forall d | d in live
      ensures Passed(h, hbits, table, i0, |table[i0]|, live[d]) <==> Passed(h, hbits, table, i0 + 1, 0, live[d])
    {
      if h(hbits, d) == i0 { assert live[d] in table[i0]; }
      if i0 + 1 < |table| { assert table[i0 + 1][..0] == []; }
    }
  }

  /** A table of twice the size with the same objects. */
  method Double(h: Hash, hbits: nat, table0: seq<seq<Obj>>, ghost live: map<nat, Obj>) returns (table: seq<seq<Obj>>)
    requires TableOk(h, hbits, table0, live)
    ensures TableOk(h, hbits + 1, table, live)
  {
    hide TableOk, HalfWay;
    table := seq(Pow2(hbits + 1), _ => []);
    ghost var moved: map<nat, Obj> := map[];
    EmptyOk(h, hbits + 1);
    HalfWayStart(h, hbits, table0, live);
    TableSize(h, hbits, table0, live);
    for i0 := 0 to |table0|
      invariant TableOk(h, hbits + 1, table, moved) && HalfWay(h, hbits, table0, live, i0, 0, moved)
    {
      var j := 0;
      while j < |table0[i0]|
        invariant j <= |table0[i0]|
        invariant TableOk(h, hbits + 1, table, moved) && HalfWay(h, hbits, table0, live, i0, j, moved)
      {
        var o := table0[i0][j];
        MoveOne(h, hbits, table0, live, i0, j, moved);
        InsertOk(h, hbits + 1, table, moved, o);
        var b := h(hbits + 1, o.dev);
        table := table[b := [o] + table[b]];
        moved := moved[o.dev := o];
        j := j + 1;
      }
      NextBucket(h, hbits, table0, live, i0, moved);
    }
    HalfWayEnd(h, hbits, table0, live, moved);
  }

  lemma TableSize(h: Hash, hbits: nat, table: seq<seq<Obj>>, live: map<nat, Obj>)
    requires TableOk(h, hbits, table, live)
    ensures |table| == Pow2(hbits)
  {
  }

  lemma EmptyOk(h: Hash, hbits: nat)
    ensures TableOk(h, hbits, seq(Pow2(hbits), _ => []), map[])
  {
  }

  lemma HalfWayStart(h: Hash, hbits: nat, table: seq<seq<Obj>>, live: map<nat, Obj>)
    requires TableOk(h, hbits, table, live)
    ensures HalfWay(h, hbits, table, live, 0, 0, map[])
  {
    assert |table| > 0 ==> table[0][..0] == [];
  }

  lemma HalfWayEnd(h: Hash, hbits: nat, table: seq<seq<Obj>>, live: map<nat, Obj>, moved: map<nat, Obj>)
    requires TableOk(h, hbits, table, live) && HalfWay(h, hbits, table, live, |table|, 0, moved)
    ensures moved == live
  {
    forall d | d in live ensures d in moved { assert h(hbits, d) < |table|; }
  }
}
