/** The dissemination barrier `bootstrapP2PBarrier` (src/bootstrap.cc), used over and over
    on one tag by ranks that advance independently.  A message carries no data, so a
    channel is a pair of counters: messages sent and messages received, in order. */
module Barrier {
  import opened Arith
  import opened Seqs

  /** `epoch` barriers entered; in the current one `round` rounds are complete, and
      `sent` says whether the message of the next round is out. */
  datatype Local = Local(epoch: nat, round: nat, sent: bool)

  /** `sent[a][b]` and `recvd[a][b]`: messages from `a` to `b`. */
  datatype State = State(ranks: seq<Local>, sent: seq<seq<nat>>, recvd: seq<seq<nat>>)

  ghost function Mask(k: nat): (m: nat)
    ensures m >= 1 && m > k
  {
    if k == 0 then 1 else 2 * Mask(k - 1)
  }

  /** Rounds of one barrier among `n` ranks: masks 1, 2, 4, ... below `n`. */
  ghost function Rounds(n: nat): (k: nat)
    requires n >= 1
    ensures Mask(k) >= n && (k > 0 ==> Mask(k - 1) < n)
  {
    RoundsFrom(n, 0)
  }

  ghost function RoundsFrom(n: nat, k: nat): (r: nat)
    requires n >= 1 && (k > 0 ==> Mask(k - 1) < n)
    ensures r >= k && Mask(r) >= n && (r > 0 ==> Mask(r - 1) < n)
    decreases n - Mask(k)
  {
    if Mask(k) >= n then k else RoundsFrom(n, k + 1)
  }

  lemma {:induction false} MaskMono(a: nat, b: nat)
    requires a <= b
    ensures Mask(a) <= Mask(b) && (a < b ==> 2 * Mask(a) <= Mask(b))
  {
    if a < b { MaskMono(a, b - 1); }
  }

  ghost function Dst(n: nat, r: nat, k: nat): (d: nat)
    requires r < n
    ensures d < n
  {
    (r + Mask(k)) % n
  }

  ghost function Src(n: nat, r: nat, k: nat): (s: nat)
    requires r < n && k < Rounds(n)
    ensures s < n
  {
    (r - Mask(k) + n) % n
  }

  ghost function Behind(n: nat, r: nat, j: nat): (q: nat)
    requires r < n && j < n
    ensures q < n
  {
    (r - j + n) % n
  }

  lemma {:induction false} MaskIs(k: nat)
    ensures Mask(k) == Pow2(k)
  {
    if k > 0 { MaskIs(k - 1); }
  }

  /** A rank counted on or back round the ranks. */
  ghost function Wrapped(n: nat, x: int): int { if x < 0 then x + n else if x < n then x else x - n }

  /** Round `k` reaches twice as far as the one before, and there are as few rounds as that allows:
      the logarithm of the number of ranks, rounded up. */
  lemma LogRounds(n: nat, r: nat, k: nat)
    requires r < n && k < Rounds(n)
    ensures n <= Pow2(Rounds(n)) && Pow2(Rounds(n) - 1) < n
    ensures Pow2(k) < n && Dst(n, r, k) == Wrapped(n, r + Pow2(k)) && Src(n, r, k) == Wrapped(n, r - Pow2(k))
  {
    hide Mask, Pow2, Rounds, Dst, Src;
    var top := Rounds(n) - 1;
    MaskIs(top + 1);
    MaskIs(top);
    MaskIs(k);
    MaskMono(k, top);
    Partners(n, r, k);
  }

  lemma Partners(n: nat, r: nat, k: nat)
    requires r < n && k < Rounds(n) && Mask(k) < n
    ensures Dst(n, r, k) == Wrapped(n, r + Mask(k)) && Src(n, r, k) == Wrapped(n, r - Mask(k))
  {
    hide Mask, Rounds;
    ModWrap(r + Mask(k), n);
    ModWrap(r - Mask(k) + n, n);
  }

  ghost predicate Shape(s: State) {
    && |s.ranks| >= 1 && |s.sent| == |s.recvd| == |s.ranks|
    && (forall a :: 0 <= a < |s.ranks| ==> |s.sent[a]| == |s.ranks| && |s.recvd[a]| == |s.ranks|)
    && (forall r :: 0 <= r < |s.ranks| ==> s.ranks[r].round <= Rounds(|s.ranks|))
  }

  ghost predicate Outside(s: State, r: nat)
    requires Shape(s) && r < |s.ranks|
  {
    s.ranks[r].round == Rounds(|s.ranks|)
  }

  // ---------------------------------------------------------------------------
  // Steps

  ghost predicate Init(s: State) {
    && Shape(s)
    && (forall r :: 0 <= r < |s.ranks| ==> s.ranks[r] == Local(0, Rounds(|s.ranks|), false))
    && (forall a, b :: 0 <= a < |s.ranks| && 0 <= b < |s.ranks| ==> s.sent[a][b] == 0 && s.recvd[a][b] == 0)
  }

  /** Rank `r` calls the barrier. */
  ghost predicate Enter(s: State, s': State, r: nat)
    requires Shape(s) && r < |s.ranks|
  {
    Outside(s, r) && s' == s.(ranks := s.ranks[r := Local(s.ranks[r].epoch + 1, 0, false)])
  }

  ghost predicate Send(s: State, s': State, r: nat)
    requires Shape(s) && r < |s.ranks|
  {
    var l := s.ranks[r];
    && !Outside(s, r) && !l.sent
    && var d := Dst(|s.ranks|, r, l.round);
       s' == s.(ranks := s.ranks[r := l.(sent := true)],
                sent := s.sent[r := s.sent[r][d := s.sent[r][d] + 1]])
  }

  /** There is a message from the source of the current round. */
  ghost predicate CanReceive(s: State, r: nat)
    requires Shape(s) && r < |s.ranks| && !Outside(s, r)
  {
    var q := Src(|s.ranks|, r, s.ranks[r].round);
    s.recvd[q][r] < s.sent[q][r]
  }

  ghost predicate Receive(s: State, s': State, r: nat)
    requires Shape(s) && r < |s.ranks|
  {
    var l := s.ranks[r];
    && !Outside(s, r) && l.sent && CanReceive(s, r)
    && var q := Src(|s.ranks|, r, l.round);
       s' == s.(ranks := s.ranks[r := Local(l.epoch, l.round + 1, false)],
                recvd := s.recvd[q := s.recvd[q][r := s.recvd[q][r] + 1]])
  }

  ghost predicate Next(s: State, s': State) {
    Shape(s) && exists r: nat :: r < |s.ranks| && (Enter(s, s', r) || Send(s, s', r) || Receive(s, s', r))
  }

  ghost predicate Run(trace: seq<State>) {
    trace != [] && Init(trace[0]) && forall i :: 0 <= i < |trace| - 1 ==> Next(trace[i], trace[i + 1])
  }

  // ---------------------------------------------------------------------------
  // What every step keeps

  /** Messages a rank in state `l` has sent for round `k`, over all its barriers. */
  ghost function SentBy(l: Local, k: nat): int {
    if l.round > k || (l.round == k && l.sent) then l.epoch else l.epoch - 1
  }

  ghost function ReceivedBy(l: Local, k: nat): int {
    if l.round > k then l.epoch else l.epoch - 1
  }

  /** The channel of round `k` out of `a` has carried one message per barrier. */
  ghost predicate ChannelInv(s: State, a: nat, k: nat)
    requires Shape(s) && a < |s.ranks| && k < Rounds(|s.ranks|)
  {
    var b := Dst(|s.ranks|, a, k);
    && s.sent[a][b] == SentBy(s.ranks[a], k)
    && s.recvd[a][b] == ReceivedBy(s.ranks[b], k)
    && s.recvd[a][b] <= s.sent[a][b]
  }

  /** After `k` complete rounds a rank knows that the `2^k` ranks up to itself have entered. */
  ghost predicate Knows(s: State, r: nat, j: nat)
    requires Shape(s) && r < |s.ranks| && j < |s.ranks|
  {
    s.ranks[Behind(|s.ranks|, r, j)].epoch >= s.ranks[r].epoch
  }

  ghost predicate Inv(s: State) {
    && Shape(s)
    && (forall a, k :: 0 <= a < |s.ranks| && 0 <= k < Rounds(|s.ranks|) ==> ChannelInv(s, a, k))
    && (forall r, j :: 0 <= r < |s.ranks| && 0 <= j < |s.ranks| && j < Mask(s.ranks[r].round) ==> Knows(s, r, j))
    && (forall r, q :: 0 <= r < |s.ranks| && 0 <= q < |s.ranks| ==> s.ranks[q].epoch >= s.ranks[r].epoch - 1)
    && (forall a, b :: 0 <= a < |s.ranks| && 0 <= b < |s.ranks| ==> s.sent[a][b] <= s.ranks[a].epoch)
  }

  lemma DstSrc(n: nat, a: nat, r: nat, k: nat)
    requires a < n && r < n && k < Rounds(n)
    ensures Mask(k) < n
    ensures Dst(n, a, k) == r <==> a == Src(n, r, k)
  {
    hide Rounds, Mask;
    MaskMono(k, Rounds(n) - 1);
    WrapInverse(a, r, Mask(k), n);
  }

  lemma WrapInverse(a: nat, r: nat, m: nat, n: nat)
    requires a < n && r < n && m < n
    ensures (a + m) % n == r <==> a == (r - m + n) % n
  {
    ModWrap(a + m, n);
    ModShift(r - m, 1, n);
    ModWrap(r - m, n);
  }

  /** Two rounds of one barrier never use the same ordered pair. */
  lemma DstInjective(n: nat, a: nat, k: nat, k': nat)
    requires a < n && k < Rounds(n) && k' < Rounds(n) && Dst(n, a, k) == Dst(n, a, k')
    ensures k == k'
  {
    hide Rounds, Mask;
    MaskMono(k, Rounds(n) - 1);
    MaskMono(k', Rounds(n) - 1);
    WrapInjective(a, Mask(k), Mask(k'), n);
    if k < k' { MaskMono(k, k'); }
    if k' < k { MaskMono(k', k); }
  }

  lemma WrapInjective(a: nat, x: nat, y: nat, n: nat)
    requires a < n && x < n && y < n && (a + x) % n == (a + y) % n
    ensures x == y
  {
    ModWrap(a + x, n);
    ModWrap(a + y, n);
  }

  lemma BehindAll(n: nat, r: nat, q: nat) returns (j: nat)
    requires r < n && q < n
    ensures j < n && Behind(n, r, j) == q
  {
    j := if q <= r then r - q else r - q + n;
    ModShift(r - j, 1, n);
    ModWrap(r - j, n);
  }

  lemma BehindSum(n: nat, r: nat, m: nat, j: nat)
    requires r < n && m <= j < n
    ensures Behind(n, r, j) == Behind(n, Behind(n, r, m), j - m)
    ensures Behind(n, r, 0) == r
  {
    ModShift(r - m, 1, n);
    ModWrap(r - m, n);
    var s := Behind(n, r, m);
    ModShift(r - j, 1, n);
    ModWrap(r - j, n);
    ModShift(s - (j - m), 1, n);
    ModWrap(s - (j - m), n);
    ModWrap(r, n);
    ModShift(r, 1, n);
  }

  lemma OnlySelf(n: nat, r: nat, j: nat)
    requires r < n && j < n && j < Mask(0)
    ensures Behind(n, r, j) == r
  {
    BehindSum(n, r, 0, 0);
  }

  lemma InitInv(s: State)
    requires Init(s)
    ensures Inv(s)
  {
  }

  lemma EnterKeeps(s: State, s': State, r: nat)
    requires Inv(s) && r < |s.ranks| && Enter(s, s', r)
    ensures Inv(s')
  {
    hide Mask, Dst, Src, Rounds, Behind;
    var n := |s.ranks|;
    OutsideSeesAll(s, r);
    forall a, k | 0 <= a < n && 0 <= k < Rounds(n) ensures ChannelInv(s', a, k) { assert ChannelInv(s, a, k); }
    forall x, j | 0 <= x < n && 0 <= j < n && j < Mask(s'.ranks[x].round) ensures Knows(s', x, j) {
      if x == r { OnlySelf(n, r, j); } else { assert Knows(s, x, j); }
    }
  }

  lemma SendKeeps(s: State, s': State, r: nat)
    requires Inv(s) && r < |s.ranks| && Send(s, s', r)
    ensures Inv(s')
  {
    hide Mask, Dst, Src, Rounds, Behind;
    var n, l := |s.ranks|, s.ranks[r];
    assert ChannelInv(s, r, l.round);
    forall a, k | 0 <= a < n && 0 <= k < Rounds(n) ensures ChannelInv(s', a, k) {
      assert ChannelInv(s, a, k);
      if a == r && Dst(n, a, k) == Dst(n, r, l.round) { DstInjective(n, r, k, l.round); }
    }
    forall x, j | 0 <= x < n && 0 <= j < n && j < Mask(s'.ranks[x].round) ensures Knows(s', x, j) {
      assert Knows(s, x, j);
    }
  }

  /** A receive hands over what the sender knew. */
  lemma ReceiveLearns(s: State, s': State, r: nat, j: nat)
    requires Inv(s) && r < |s.ranks| && Receive(s, s', r) && Shape(s')
    requires j < |s.ranks| && j < Mask(s.ranks[r].round + 1)
    ensures s.ranks[Behind(|s.ranks|, r, j)].epoch >= s.ranks[r].epoch
  {
    hide Mask, Dst, Src, Rounds, Behind;
    var n, l := |s.ranks|, s.ranks[r];
    var m, q := Mask(l.round), Src(n, r, l.round);
    if j < m {
      assert Knows(s, r, j);
    } else {
      SourceKnows(n, r, l.round, j);
      DstSrc(n, q, r, l.round);
      assert ChannelInv(s, q, l.round);
      assert SentBy(s.ranks[q], l.round) >= l.epoch;
      if s.ranks[q].epoch == l.epoch {
        MaskMono(l.round, s.ranks[q].round);
        assert Knows(s, q, j - m);
      }
    }
  }

  lemma SourceKnows(n: nat, r: nat, k: nat, j: nat)
    requires r < n && k < Rounds(n) && Mask(k) <= j < n && j < Mask(k + 1)
    ensures j - Mask(k) < Mask(k) && Behind(n, r, j) == Behind(n, Src(n, r, k), j - Mask(k))
  {
    BehindSum(n, r, Mask(k), j);
  }

  lemma ReceiveKeeps(s: State, s': State, r: nat)
    requires Inv(s) && r < |s.ranks| && Receive(s, s', r)
    ensures Inv(s')
  {
    hide Mask, Dst, Src, Rounds, Behind;
    var n, l := |s.ranks|, s.ranks[r];
    var q := Src(n, r, l.round);
    forall a, k | 0 <= a < n && 0 <= k < Rounds(n) ensures ChannelInv(s', a, k) {
      assert ChannelInv(s, a, k);
      DstSrc(n, a, r, k);
      DstSrc(n, q, r, l.round);
      if a == q && Dst(n, a, k) == r { DstInjective(n, q, k, l.round); }
    }
    forall x, j | 0 <= x < n && 0 <= j < n && j < Mask(s'.ranks[x].round) ensures Knows(s', x, j) {
      if x == r {
        ReceiveLearns(s, s', r, j);
      } else {
        assert Knows(s, x, j);
      }
    }
  }

  lemma OutsideSeesAll(s: State, r: nat)
    requires Inv(s) && r < |s.ranks| && Outside(s, r)
    ensures forall q :: 0 <= q < |s.ranks| ==> s.ranks[q].epoch >= s.ranks[r].epoch
  {
    forall q | 0 <= q < |s.ranks| ensures s.ranks[q].epoch >= s.ranks[r].epoch {
      var j := BehindAll(|s.ranks|, r, q);
      assert Knows(s, r, j);
    }
  }

  lemma {:induction false} RunInv(trace: seq<State>, i: nat)
    requires Run(trace) && i < |trace|
    ensures Inv(trace[i])
  {
    if i == 0 {
      InitInv(trace[0]);
    } else {
      RunInv(trace, i - 1);
      var s, s' := trace[i - 1], trace[i];
      assert Next(s, s');
      var r: nat :| r < |s.ranks| && (Enter(s, s', r) || Send(s, s', r) || Receive(s, s', r));
      if Enter(s, s', r) {
        EnterKeeps(s, s', r);
      } else if Send(s, s', r) {
        SendKeeps(s, s', r);
      } else {
        ReceiveKeeps(s, s', r);
      }
    }
  }

  // ---------------------------------------------------------------------------
  // The barrier

  /** Rank `r` has left its `e`-th barrier. */
  ghost predicate HasLeft(s: State, r: nat, e: nat)
    requires Shape(s) && r < |s.ranks|
  {
    s.ranks[r].epoch > e || (s.ranks[r].epoch == e && Outside(s, r))
  }

  /** In every run, a rank that has left its `e`-th barrier left it after every rank had
      entered its own `e`-th. */
  lemma NobodyLeavesEarly(trace: seq<State>, i: nat, r: nat, e: nat, q: nat)
    requires Run(trace) && i < |trace|
    requires Shape(trace[i]) && r < |trace[i].ranks| && q < |trace[i].ranks| && HasLeft(trace[i], r, e)
    ensures trace[i].ranks[q].epoch >= e
  {
    RunInv(trace, i);
    if Outside(trace[i], r) { OutsideSeesAll(trace[i], r); }
  }

  /** No ordered pair of ranks ever exchanges more messages than barriers entered, and a
      channel in use carries exactly one per barrier: the difference of its two counters
      never exceeds two. */
  lemma OneMessagePerBarrier(trace: seq<State>, i: nat, a: nat, b: nat, k: nat)
    requires Run(trace) && i < |trace|
    requires Shape(trace[i]) && a < |trace[i].ranks| && b < |trace[i].ranks| && k < Rounds(|trace[i].ranks|)
    ensures var s := trace[i];
            && s.sent[a][b] <= s.ranks[a].epoch
            && (b == Dst(|s.ranks|, a, k) ==>
                  && s.ranks[a].epoch - 1 <= s.sent[a][b]
                  && s.recvd[a][b] <= s.sent[a][b] <= s.recvd[a][b] + 2)
  {
    RunInv(trace, i);
    assert ChannelInv(trace[i], a, k);
  }

  ghost predicate NoEarlier(l: Local, m: Local) {
    m.epoch < l.epoch || (m.epoch == l.epoch && (m.round < l.round || (m.round == l.round && (m.sent ==> l.sent))))
  }

  /** No deadlock: a rank that nobody is behind of is never stuck inside a barrier. */
  lemma HindmostMoves(s: State, r: nat)
    requires Inv(s) && r < |s.ranks| && !Outside(s, r) && s.ranks[r].sent
    requires forall q :: 0 <= q < |s.ranks| ==> NoEarlier(s.ranks[q], s.ranks[r])
    ensures CanReceive(s, r)
  {
    var n, l := |s.ranks|, s.ranks[r];
    var q := Src(n, r, l.round);
    DstSrc(n, q, r, l.round);
    assert ChannelInv(s, q, l.round);
    assert NoEarlier(s.ranks[q], l);
  }

  // ---------------------------------------------------------------------------
  // Every barrier that all ranks enter is left by all

  /** Nobody has entered more than `e` barriers. */
  ghost predicate UpTo(s: State, e: nat) { forall r :: 0 <= r < |s.ranks| ==> s.ranks[r].epoch <= e }

  ghost predicate AllLeft(s: State, e: nat)
    requires Shape(s)
  {
    forall r :: 0 <= r < |s.ranks| ==> HasLeft(s, r, e)
  }

  lemma {:induction false} Hindmost(s: State, n: nat) returns (h: nat)
    requires 0 < n <= |s.ranks|
    ensures h < n && forall q :: 0 <= q < n ==> NoEarlier(s.ranks[q], s.ranks[h])
  {
    h := 0;
    if n > 1 {
      h := Hindmost(s, n - 1);
      if !NoEarlier(s.ranks[n - 1], s.ranks[h]) { h := n - 1; }
    }
  }

  ghost predicate Moves(s: State, s': State, r: nat)
    requires Shape(s) && r < |s.ranks|
  {
    Enter(s, s', r) || Send(s, s', r) || Receive(s, s', r)
  }

  /** In every run, as long as some rank has not left its `e`-th barrier, some rank can go on
      without entering a later one. */
  lemma NeverStuck(trace: seq<State>, i: nat, e: nat) returns (s': State, r: nat)
    requires Run(trace) && i < |trace| && Shape(trace[i]) && UpTo(trace[i], e) && !AllLeft(trace[i], e)
    ensures r < |trace[i].ranks| && Moves(trace[i], s', r) && UpTo(s', e)
  {
    hide Run, Inv, Mask, Rounds;
    var s := trace[i];
    RunInv(trace, i);
    r := Hindmost(s, |s.ranks|);
    var l, n := s.ranks[r], |s.ranks|;
    var x :| 0 <= x < n && !HasLeft(s, x, e);
    assert NoEarlier(s.ranks[x], l);
    if Outside(s, r) {
      s' := s.(ranks := s.ranks[r := Local(l.epoch + 1, 0, false)]);
      assert Enter(s, s', r);
    } else if !l.sent {
      var d := Dst(n, r, l.round);
      s' := s.(ranks := s.ranks[r := l.(sent := true)], sent := s.sent[r := s.sent[r][d := s.sent[r][d] + 1]]);
      assert Send(s, s', r);
    } else {
      HindmostMoves(s, r);
      var q := Src(n, r, l.round);
      s' := s.(ranks := s.ranks[r := Local(l.epoch, l.round + 1, false)], recvd := s.recvd[q := s.recvd[q][r := s.recvd[q][r] + 1]]);
      assert Receive(s, s', r);
    }
  }

  /** What a rank has left to do until it has left its `e`-th barrier. */
  ghost function Work(e: nat, rounds: nat): Local -> nat {
    (l: Local) => if l.epoch <= e && l.round <= rounds
                  then (e - l.epoch) * (2 * rounds + 2) + 2 * (rounds - l.round) + (if l.sent then 0 else 1) else 0
  }

  lemma StepShrinks(s: State, s': State, r: nat, e: nat)
    requires Shape(s) && r < |s.ranks| && Moves(s, s', r) && UpTo(s, e) && UpTo(s', e)
    ensures |s'.ranks| == |s.ranks| && SumBy(s'.ranks, Work(e, Rounds(|s.ranks|))) < SumBy(s.ranks, Work(e, Rounds(|s.ranks|)))
  {
    hide Mask, Rounds, SumBy;
    var n, l, l' := |s.ranks|, s.ranks[r], s'.ranks[r];
    assert l'.epoch <= e;
    SumByUpdate(s.ranks, r, l', Work(e, Rounds(n)));
    if Enter(s, s', r) { Distrib(e - l'.epoch, 1, 2 * Rounds(n) + 2); }
  }

  /** Every run in which nobody has entered more than `e` barriers can be continued until all
      ranks have left their `e`-th. */
  lemma {:induction false} Completes(trace: seq<State>, e: nat) returns (full: seq<State>)
    requires trace != [] && Run(trace) && UpTo(trace[|trace| - 1], e) && Shape(trace[|trace| - 1])
    ensures |trace| <= |full| && full[..|trace|] == trace && Run(full)
    ensures Shape(full[|full| - 1]) && AllLeft(full[|full| - 1], e)
    decreases SumBy(trace[|trace| - 1].ranks, Work(e, Rounds(|trace[|trace| - 1].ranks|)))
  {
    hide Init, SumBy, Shape, AllLeft, UpTo, Moves, Inv;
    var s := trace[|trace| - 1];
    if AllLeft(s, e) {
      full := trace;
    } else {
      var s', r := NeverStuck(trace, |trace| - 1, e);
      MovesNext(s, s', r);
      StepShrinks(s, s', r, e);
      var longer := trace + [s'];
      assert forall k :: 0 <= k < |longer| - 1 ==> Next(longer[k], longer[k + 1]);
      RunInv(longer, |longer| - 1);
      InvShape(s');
      full := Completes(longer, e);
      assert full[..|trace|] == full[..|longer|][..|trace|] == trace;
    }
  }

  lemma MovesNext(s: State, s': State, r: nat)
    requires Shape(s) && r < |s.ranks| && Moves(s, s', r)
    ensures Next(s, s')
  {
  }

  lemma InvShape(s: State)
    requires Inv(s)
    ensures Shape(s)
  {
  }
}
