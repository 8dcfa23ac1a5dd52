/** Receiving bootstrap messages (src/bootstrap.cc): connections arrive in any order and are
    matched by peer and tag; those nobody asked for yet wait in the unexpected queue. */
module Receive {
  import opened Links
  import opened Messages
  import opened Seqs
  import AsyncSend

  /** A negative peer accepts a connection from anyone. */
  predicate Matches(m: Msg, peer: int, tag: int) {
    (peer < 0 || m.key.peer == peer) && m.key.tag == tag
  }

  ghost predicate NoneMatches(s: seq<Msg>, peer: int, tag: int) {
    forall i :: 0 <= i < |s| ==> !Matches(s[i], peer, tag)
  }

  /** `r` is the first match in `s`, and `rest` is `s` without it; or there is no match. */
  ghost predicate TakesFirst(s: seq<Msg>, peer: int, tag: int, r: Option<Msg>, rest: seq<Msg>) {
    match r
    case None => NoneMatches(s, peer, tag) && rest == s
    case Some(m) =>
      exists i: nat :: i < |s| && IsFirst(s, i, peer, tag) && m == s[i] && rest == Without(s, i)
  }

  ghost predicate IsFirst(s: seq<Msg>, i: nat, peer: int, tag: int)
    requires i < |s|
  {
    Matches(s[i], peer, tag) && NoneMatches(s[..i], peer, tag)
  }

  /** The connections of a chain of nodes. */
  ghost function Along(conns: seq<Msg>, chain: seq<int>): (s: seq<Msg>)
    requires Within(chain, |conns|)
    ensures |s| == |chain| && forall i :: 0 <= i < |chain| ==> s[i] == conns[chain[i]]
  {
    seq(|chain|, i requires 0 <= i < |chain| => conns[chain[i]])
  }

  class Receiver {
    /** The nodes of the list of accepted connections that no receive has asked for, their links,
        and the first one. */
    var conns: seq<Msg>
    var next: seq<int>
    var head: int
    ghost var chain: seq<int>
    /** Connections waiting to be accepted, in accept order. */
    var backlog: seq<Msg>
    /** Every connection so far, and those handed to a receive, in order. */
    ghost var arrivals: seq<Msg>
    ghost var received: seq<Msg>

    ghost predicate ListOk()
      reads this
    {
      |conns| == |next| && Linked(next, head, chain) && Distinct(chain)
    }

    ghost function Unexpected(): seq<Msg>
      requires ListOk()
      reads this
    {
      Along(conns, chain)
    }

    ghost predicate Valid()
      reads this
    {
      ListOk() && forall k :: Balanced(received, Unexpected() + backlog, arrivals, k)
    }

    constructor ()
      ensures Valid() && Unexpected() == [] && backlog == [] && arrivals == [] && received == []
    {
      conns, next, head, chain := [], [], -1, [];
      backlog, arrivals, received := [], [], [];
    }

    /** A peer connects. */
    method Connect(m: Msg)
      requires Valid()
      modifies this`backlog, this`arrivals
      ensures Valid() && backlog == old(backlog) + [m] && arrivals == old(arrivals) + [m]
    {
      ghost var pending := Unexpected() + backlog;
      backlog := backlog + [m];
      arrivals := arrivals + [m];
      assert Unexpected() + backlog == pending + [m];
      forall k ensures Balanced(received, Unexpected() + backlog, arrivals, k) {
        assert Balanced(received, pending, old(arrivals), k);
        BalancedConnect(received, pending, old(arrivals), m, k);
      }
    }

    /** A new node goes behind the last one of the list. */
    method UnexpectedEnqueue(m: Msg)
      requires ListOk()
      modifies this`conns, this`next, this`head, this`chain
      ensures ListOk() && Unexpected() == old(Unexpected()) + [m]
    {
      var unex := |conns|;
      ghost var c := chain;
      LinkedGrows(next, head, c);
      conns, next := conns + [m], next + [-1];
      SingleLinked(next, unex);
      if head == -1 {
        head := unex;
        chain := [unex];
      } else {
        var list := Last();
        EndFresh(c, unex);
        LinkJoin(next, head, c, unex, [unex]);
        next := next[list := unex];
        chain := c + [unex];
      }
    }

    method Last() returns (list: int)
      requires Linked(next, head, chain) && head != -1
      ensures chain != [] && list == chain[|chain| - 1] && 0 <= list < |next|
    {
      ghost var i := 0;
      list := head;
      while next[list] != -1
        invariant 0 <= i < |chain| && list == chain[i] && 0 <= list < |next|
        decreases |chain| - i
      {
        After(next, head, chain, i);
        list := next[list];
        i := i + 1;
        After(next, head, chain, i);
      }
      After(next, head, chain, i);
    }

    /** The first node that matches, and the one before it; -1 for none. */
    method FindMatch(peer: int, tag: int) returns (elem: int, prev: int, ghost i: nat)
      requires ListOk()
      ensures i <= |chain| && elem == (if i < |chain| then chain[i] else -1) && prev == if i == 0 then -1 else chain[i - 1]
      ensures NoneMatches(Unexpected()[..i], peer, tag) && (i < |chain| ==> Matches(Unexpected()[i], peer, tag))
      ensures elem == -1 ==> NoneMatches(Unexpected(), peer, tag)
      ensures elem != -1 ==> i < |chain| && elem in chain && 0 <= elem < |conns| && Matches(conns[elem], peer, tag)
    {
      hide Linked;
      ghost var s := Unexpected();
      i := 0;
      elem, prev := head, -1;
      LinkedBounds(next, head, chain);
      while elem != -1 && !Matches(conns[elem], peer, tag)
        invariant 0 <= i <= |chain| && elem == (if i < |chain| then chain[i] else -1) && prev == if i == 0 then -1 else chain[i - 1]
        invariant NoneMatches(s[..i], peer, tag)
        decreases |chain| - i
      {
        After(next, head, chain, i);
        assert s[..i + 1] == s[..i] + [s[i]];
        prev := elem;
        elem := next[elem];
        i := i + 1;
      }
      if i < |chain| { After(next, head, chain, i); } else { assert s[..i] == s; }
    }

    /** Unlinks the first node that matches. */
    method UnexpectedDequeue(peer: int, tag: int) returns (r: Option<Msg>)
      requires ListOk()
      modifies this`next, this`head, this`chain
      ensures ListOk() && TakesFirst(old(Unexpected()), peer, tag, r, Unexpected())
    {
      hide Linked;
      ghost var s := Unexpected();
      LinkedBounds(next, head, chain);
      var elem, prev, i := FindMatch(peer, tag);
      if elem == -1 {
        assert s[..i] == s;
        return None;
      }
      After(next, head, chain, i);
      if i > 0 { After(next, head, chain, i - 1); }
      LinkDelete(next, head, chain, i);
      Removing(chain, i);
      if prev == -1 { head := next[elem]; } else { next := next[prev := next[elem]]; }
      r := Some(conns[elem]);
      assert IsFirst(s, i, peer, tag);
      chain := chain[..i] + chain[i + 1..];
      LinkedBounds(next, head, chain);
      AlongWithout(conns, old(chain), i);
    }

    /** Takes the first matching connection in accept order, whether already accepted or still
        in the backlog; without one it blocks, everything accepted and nothing lost. */
    method Accept(peer: int, tag: int) returns (r: Option<Msg>)
      requires Valid()
      modifies this
      ensures Valid() && arrivals == old(arrivals)
      ensures TakesFirst(old(Unexpected() + backlog), peer, tag, r, Unexpected() + backlog)
      ensures received == old(received) + if r.Some? then [r.value] else []
      ensures r.None? ==> backlog == []
    {
      hide Linked, TakesFirst;
      ghost var first := Unexpected();
      ghost var pending := first + backlog;
      r := UnexpectedDequeue(peer, tag);
      if r.None? {
        NotTaken(first, peer, tag, Unexpected());
        r := AcceptNew(peer, tag, pending);
      } else {
        TakesFirstEarly(first, backlog, peer, tag, r, Unexpected());
      }
      if r.Some? { received := received + [r.value]; }
      assert received == old(received) + if r.Some? then [r.value] else [];
      forall k ensures Balanced(received, Unexpected() + backlog, arrivals, k) {
        assert Balanced(old(received), pending, arrivals, k);
        BalancedTake(old(received), pending, arrivals, peer, tag, r, Unexpected() + backlog, k);
      }
    }

    method AcceptNew(peer: int, tag: int, ghost pending: seq<Msg>) returns (r: Option<Msg>)
      requires ListOk() && pending == Unexpected() + backlog && NoneMatches(Unexpected(), peer, tag)
      modifies this`conns, this`next, this`head, this`chain, this`backlog
      ensures ListOk() && TakesFirst(pending, peer, tag, r, Unexpected() + backlog)
      ensures r.None? ==> backlog == []
    {
      hide Linked;
      while backlog != []
        invariant ListOk() && pending == Unexpected() + backlog && NoneMatches(Unexpected(), peer, tag)
        decreases |backlog|
      {
        var m := backlog[0];
        ghost var before := Unexpected();
        assert pending[|before|] == m && pending[..|before|] == before;
        backlog := backlog[1..];
        if Matches(m, peer, tag) {
          r := Some(m);
          assert IsFirst(pending, |before|, peer, tag);
          assert Unexpected() + backlog == Without(pending, |before|);
          return;
        }
        UnexpectedEnqueue(m);
      }
      r := None;
    }
  }

  lemma LinkedGrows(next: seq<int>, head: int, c: seq<int>)
    requires Linked(next, head, c)
    ensures Linked(next + [-1], head, c)
  {
  }

  /** The link of the `i`-th node of a chain. */
  lemma After(next: seq<int>, head: int, c: seq<int>, i: nat)
    requires Linked(next, head, c) && i < |c|
    ensures 0 <= c[i] < |next| && next[c[i]] == (if i + 1 < |c| then c[i + 1] else -1) && (i + 1 < |c| ==> c[i + 1] >= 0)
  {
  }

  lemma AlongWithout(conns: seq<Msg>, c: seq<int>, i: nat)
    requires Within(c, |conns|) && i < |c| && Within(c[..i] + c[i + 1..], |conns|)
    ensures Along(conns, c[..i] + c[i + 1..]) == Without(Along(conns, c), i)
  {
  }

  lemma EndFresh(c: seq<int>, x: nat)
    requires Distinct(c) && Within(c, x)
    ensures Distinct(c + [x])
  {
  }

  lemma NotTaken(s: seq<Msg>, peer: int, tag: int, rest: seq<Msg>)
    requires TakesFirst(s, peer, tag, None, rest)
    ensures NoneMatches(s, peer, tag) && rest == s
  {
  }

  // ---------------------------------------------------------------------------
  // Order and conservation

  /** For one peer and tag: what was received, then what is still pending, is what arrived. */
  ghost predicate Balanced(received: seq<Msg>, pending: seq<Msg>, arrivals: seq<Msg>, k: Key) {
    Sel(received, k) + Sel(pending, k) == Sel(arrivals, k)
  }

  lemma BalancedConnect(received: seq<Msg>, pending: seq<Msg>, arrivals: seq<Msg>, m: Msg, k: Key)
    requires Balanced(received, pending, arrivals, k)
    ensures Balanced(received, pending + [m], arrivals + [m], k)
  {
    SelAppend(pending, m, k);
    SelAppend(arrivals, m, k);
  }

  lemma TakesFirstEarly(s: seq<Msg>, more: seq<Msg>, peer: int, tag: int, r: Option<Msg>, rest: seq<Msg>)
    requires r.Some? && TakesFirst(s, peer, tag, r, rest)
    ensures TakesFirst(s + more, peer, tag, r, rest + more)
  {
    var i: nat :| i < |s| && IsFirst(s, i, peer, tag) && r.value == s[i] && rest == Without(s, i);
    assert (s + more)[..i] == s[..i];
    assert IsFirst(s + more, i, peer, tag);
    assert rest + more == Without(s + more, i);
  }

  /** The first match is the first of its own peer and tag, even for a wildcard receive. */
  lemma BalancedTake(received: seq<Msg>, pending: seq<Msg>, arrivals: seq<Msg>, peer: int, tag: int,
                     r: Option<Msg>, rest: seq<Msg>, k: Key)
    requires Balanced(received, pending, arrivals, k) && TakesFirst(pending, peer, tag, r, rest)
    ensures Balanced(received + if r.Some? then [r.value] else [], rest, arrivals, k)
  {
    hide Sel;
    match r
    case None =>
      assert received + [] == received;
    case Some(m) =>
      var i: nat :| i < |pending| && IsFirst(pending, i, peer, tag) && m == pending[i] && rest == Without(pending, i);
      forall j | 0 <= j < i ensures pending[j].key != pending[i].key { assert pending[..i][j] == pending[j]; }
      TakeFirst(pending, i, k);
      SelAppend(received, m, k);
  }

  /** The n-th message received from a peer on a tag is the n-th that arrived from it. */
  lemma NthReceive(received: seq<Msg>, pending: seq<Msg>, arrivals: seq<Msg>, k: Key, n: nat)
    requires Balanced(received, pending, arrivals, k) && n < |Sel(received, k)|
    ensures n < |Sel(arrivals, k)| && Sel(received, k)[n] == Sel(arrivals, k)[n]
  {
    assert (Sel(received, k) + Sel(pending, k))[n] == Sel(received, k)[n];
  }

  /** Messages of one key, by payload. */
  ghost function Payloads(s: seq<Msg>): (p: seq<seq<int>>)
    ensures |p| == |s| && forall i :: 0 <= i < |p| ==> p[i] == s[i].data
  {
    seq(|s|, i requires 0 <= i < |s| => s[i].data)
  }

  /** End to end: if connections from rank `src` arrive at rank `dst` in the order in which
      `src` made them, then what `dst` has received from `src` on a tag is a prefix of what
      `src` sent to `dst` on that tag, whatever other traffic, receives and failures occur. */
  lemma SentIsReceived(trace: seq<AsyncSend.State>, t: nat, received: seq<Msg>, pending: seq<Msg>, arrivals: seq<Msg>,
                       src: int, dst: int, tag: int)
    requires AsyncSend.Run(trace) && t < |trace| && AsyncSend.Known(trace[t].calls, trace[t].arrivals)
    requires Balanced(received, pending, arrivals, Key(src, tag))
    requires Payloads(Sel(arrivals, Key(src, tag))) <=
             Payloads(Sel(AsyncSend.Delivered(trace[t].calls, trace[t].arrivals), Key(dst, tag)))
    ensures Payloads(Sel(received, Key(src, tag))) <= Payloads(Sel(trace[t].calls, Key(dst, tag)))
  {
    hide Sel;
    AsyncSend.DeliveredInCallOrder(trace, t, Key(dst, tag));
    var a, b := Sel(received, Key(src, tag)), Sel(arrivals, Key(src, tag));
    var c, d := Sel(AsyncSend.Delivered(trace[t].calls, trace[t].arrivals), Key(dst, tag)), Sel(trace[t].calls, Key(dst, tag));
    assert a <= b && c <= d;
    assert |a| <= |b| == |Payloads(b)| <= |Payloads(c)| == |c| <= |d|;
    forall i | 0 <= i < |a| ensures a[i].data == d[i].data {
      assert Payloads(b)[i] == Payloads(c)[i];
    }
  }
}
