/** Index-linked lists: `next[x]` is the element after `x`, and -1 ends a list. */
module Links {
  import opened Seqs

  ghost predicate Within(c: seq<int>, n: nat) { forall i :: 0 <= i < |c| ==> 0 <= c[i] < n }

  ghost function Head(c: seq<int>): int { if c == [] then -1 else c[0] }

  ghost predicate Inner(next: seq<int>, c: seq<int>) {
    && Within(c, |next|)
    && forall i :: 0 <= i < |c| - 1 ==> next[c[i]] == c[i + 1]
  }

  /** `c` is the chain from `head` to the end mark -1. */
  ghost predicate Linked(next: seq<int>, head: int, c: seq<int>) {
    head == Head(c) && Inner(next, c) && (c != [] ==> next[c[|c| - 1]] == -1)
  }

  ghost predicate EndsAt(c: seq<int>, end: int) { c != [] ==> end == c[|c| - 1] }

  lemma LinkedFrame(next: seq<int>, x: int, v: int, head: int, c: seq<int>)
    requires 0 <= x < |next| && x !in c && Linked(next, head, c)
    ensures Linked(next[x := v], head, c)
  {
    InnerFrame(next, x, v, c);
  }

  lemma InnerFrame(next: seq<int>, x: int, v: int, c: seq<int>)
    requires 0 <= x < |next| && x !in c && Inner(next, c)
    ensures Inner(next[x := v], c)
    ensures c != [] ==> next[x := v][c[|c| - 1]] == next[c[|c| - 1]]
  {
    forall i | 0 <= i < |c| ensures c[i] != x { assert c[i] in c; }
  }

  /** Appending a chain behind the last element of another. */
  lemma LinkJoin(next: seq<int>, head: int, a: seq<int>, hb: int, b: seq<int>)
    requires Linked(next, head, a) && Linked(next, hb, b) && a != [] && b != [] && Distinct(a + b)
    ensures Linked(next[a[|a| - 1] := hb], head, a + b)
  {
    var x := a[|a| - 1];
    var next' := next[x := hb];
    var c := a + b;
    forall i | 0 <= i < |c| - 1 ensures next'[c[i]] == c[i + 1] {
      if i != |a| - 1 { assert c[i] != c[|a| - 1]; }
    }
    assert c[|c| - 1] != c[|a| - 1];
  }

  lemma LinkTail(next: seq<int>, head: int, c: seq<int>)
    requires Linked(next, head, c) && c != []
    ensures Linked(next, next[c[0]], c[1..])
  {
    if |c| > 1 { assert c[1..][|c| - 2] == c[|c| - 1]; }
  }

  /** Cutting a chain after its `k`-th element. */
  lemma LinkCut(next: seq<int>, head: int, c: seq<int>, k: nat)
    requires Linked(next, head, c) && 0 < k <= |c| && Distinct(c)
    ensures Linked(next[c[k - 1] := -1], head, c[..k])
    ensures Linked(next[c[k - 1] := -1], next[c[k - 1]], c[k..])
  {
    var next' := next[c[k - 1] := -1];
    forall i | 0 <= i < |c| && i != k - 1 ensures next'[c[i]] == next[c[i]] { assert c[i] != c[k - 1]; }
    assert forall i :: 0 <= i < |c| - k ==> c[k..][i] == c[k + i];
  }

  lemma EmptyLinked(next: seq<int>)
    ensures Linked(next, -1, [])
  {
  }

  /** `c` stays linked when `next` changes at `x` and then at `y`, neither in `c`. */
  lemma LinkedFrame2(next: seq<int>, x: int, v: int, y: int, w: int, head: int, c: seq<int>)
    requires 0 <= x < |next| && 0 <= y < |next| && x !in c && y !in c && Linked(next, head, c)
    ensures Linked(next[x := v][y := w], head, c)
  {
    hide Linked;
    LinkedFrame(next, x, v, head, c);
    LinkedFrame(next[x := v], y, w, head, c);
  }

  lemma BackFrame2(next: seq<int>, x: int, v: int, y: int, w: int, c: seq<int>)
    requires 0 <= x < |next| && 0 <= y < |next| && x !in c && y !in c && Inner(next, c)
    ensures Inner(next[x := v][y := w], c)
    ensures c != [] ==> next[x := v][y := w][c[|c| - 1]] == next[c[|c| - 1]]
  {
    hide Inner;
    InnerFrame(next, x, v, c);
    InnerFrame(next[x := v], y, w, c);
    LastWithin(next, c);
  }

  lemma LastWithin(next: seq<int>, c: seq<int>)
    requires Inner(next, c)
    ensures c != [] ==> 0 <= c[|c| - 1] < |next|
  {
  }

  lemma HeadOf(next: seq<int>, head: int, c: seq<int>)
    requires Linked(next, head, c)
    ensures head == Head(c) && (c != [] ==> head >= 0)
  {
  }

  lemma SingleLinked(next: seq<int>, x: int)
    requires 0 <= x < |next| && next[x] == -1
    ensures Linked(next, x, [x])
  {
  }

  lemma LinkedBounds(next: seq<int>, head: int, c: seq<int>)
    requires Linked(next, head, c)
    ensures forall i :: 0 <= i < |c| ==> 0 <= c[i] < |next|
    ensures head == Head(c)
  {
  }

  lemma FirstWithin(next: seq<int>, c: seq<int>)
    requires Inner(next, c)
    ensures c != [] ==> 0 <= c[0] < |next|
  {
  }

  lemma PushInner(next: seq<int>, x: int, c: seq<int>)
    requires Inner(next, c) && 0 <= x < |next| && (c != [] ==> next[x] == c[0])
    ensures Inner(next, [x] + c)
    ensures c != [] ==> c[0] >= 0
  {
    assert forall i :: 1 <= i < |c| + 1 ==> ([x] + c)[i] == c[i - 1];
  }

  lemma LastFree(next: seq<int>, c: seq<int>, v: int)
    requires Inner(next, c) && Distinct(c) && c != []
    ensures Inner(next[c[|c| - 1] := v], c)
  {
    forall i | 0 <= i < |c| - 1 ensures c[i] != c[|c| - 1] { }
  }

  lemma EmptyInner(next: seq<int>)
    ensures Inner(next, [])
  {
  }

  lemma JoinLinked(next: seq<int>, a: seq<int>, hb: int, b: seq<int>)
    requires a != [] && Inner(next, a) && Linked(next, hb, b) && next[a[|a| - 1]] == hb
    ensures Linked(next, a[0], a + b)
  {
    var c := a + b;
    forall i | 0 <= i < |c| - 1 ensures next[c[i]] == c[i + 1] {
      if i == |a| - 1 { assert c[i] == a[|a| - 1]; } else if i < |a| - 1 { assert c[i] == a[i]; } else { assert c[i] == b[i - |a|]; }
    }
  }

  lemma PushLinked(next: seq<int>, x: int, head: int, c: seq<int>)
    requires Linked(next, head, c) && 0 <= x < |next| && x !in c
    ensures Linked(next[x := head], x, [x] + c)
  {
    LinkedFrame(next, x, head, head, c);
    var d := [x] + c;
    assert forall i :: 1 <= i < |d| ==> d[i] == c[i - 1];
  }

  /** The link written into the element before position `i`, if there is one. */
  ghost function Relink(next: seq<int>, c: seq<int>, i: nat, v: int): seq<int>
    requires i < |c| && Within(c, |next|)
  {
    if i == 0 then next else next[c[i - 1] := v]
  }

  /** Unlinking the element at position `i`. */
  lemma LinkDelete(next: seq<int>, head: int, c: seq<int>, i: nat)
    requires Linked(next, head, c) && i < |c| && Distinct(c)
    ensures Linked(Relink(next, c, i, next[c[i]]), if i == 0 then next[c[i]] else head, c[..i] + c[i + 1..])
  {
    if i == 0 {
      LinkTail(next, head, c);
      assert c[..0] + c[1..] == c[1..];
    } else {
      var next' := next[c[i - 1] := next[c[i]]];
      var d := c[..i] + c[i + 1..];
      forall j | 0 <= j < |c| && j != i - 1 ensures next'[c[j]] == next[c[j]] { assert c[j] != c[i - 1]; }
      forall j | 0 <= j < |d| - 1 ensures next'[d[j]] == d[j + 1] {
        assert d[j] == c[if j < i then j else j + 1] && d[j + 1] == c[if j + 1 < i then j + 1 else j + 2];
      }
    }
  }

  /** Putting `y` in the place of the element at position `i`. */
  lemma LinkReplace(next: seq<int>, head: int, c: seq<int>, i: nat, y: int)
    requires Linked(next, head, c) && i < |c| && Distinct(c) && y !in c && 0 <= y < |next|
    ensures Linked(Relink(next, c, i, y)[y := next[c[i]]], if i == 0 then y else head, c[i := y])
  {
    var next', d := Relink(next, c, i, y)[y := next[c[i]]], c[i := y];
    forall j | 0 <= j < |c| ensures c[j] != y { assert c[j] in c; }
    forall j | 0 <= j < |c| && j != i - 1 ensures next'[c[j]] == next[c[j]] {
      if i > 0 { assert c[j] != c[i - 1]; }
    }
  }
}
