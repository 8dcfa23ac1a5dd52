/** Asynchronous bootstrap sends (src/bootstrap.cc): `bootstrapSend` queues an operation and
    starts a thread for it; the thread waits until its operation is the oldest queued one for
    its peer and tag, sends unless an error is recorded, and leaves the queue.
    `bootstrapAsyncSendDrain` closes the queue and waits for it to empty. */
module AsyncSend {
  import opened Messages

  /** A connection seen by the receiver; a failed send may leave an incomplete one. */
  datatype Arrival = Arrival(id: nat, whole: bool)

  /** Operation `id` carries `calls[id]`.  `failures` lists the results of failed sends in the
      order in which their threads reported them.  `drained` is what drain returned. */
  datatype State = State(calls: seq<Msg>, queue: seq<nat>, sending: set<nat>, arrivals: seq<Arrival>,
                         error: Option<int>, failures: seq<int>, closing: bool, drained: Option<Option<int>>)

  ghost predicate Init(s: State) {
    s == State([], [], {}, [], None, [], false, None)
  }

  // ---------------------------------------------------------------------------
  // Steps, each atomic under the lock or the arrival of one connection

  /** An accepted call.  With an error recorded or the state closing a call is refused. */
  ghost predicate Call(s: State, s': State, m: Msg) {
    s.error.None? && !s.closing && s' == s.(calls := s.calls + [m], queue := s.queue + [|s.calls|])
  }

  /** The scan for an earlier operation with the same peer and tag finds none. */
  ghost predicate Oldest(s: State, x: nat) {
    && x in s.queue && x < |s.calls|
    && forall y :: y in s.queue && y < x ==> y < |s.calls| && s.calls[y].key != s.calls[x].key
  }

  ghost predicate Begin(s: State, s': State, x: nat) {
    Oldest(s, x) && x !in s.sending && s.error.None? && s' == s.(sending := s.sending + {x})
  }

  ghost predicate HasArrived(s: State, x: nat) {
    exists i :: 0 <= i < |s.arrivals| && s.arrivals[i].id == x
  }

  ghost predicate ArrivedWhole(s: State, x: nat) {
    exists i :: 0 <= i < |s.arrivals| && s.arrivals[i] == Arrival(x, true)
  }

  ghost predicate Arrive(s: State, s': State, x: nat, whole: bool) {
    && x in s.sending && !HasArrived(s, x)
    && s' == s.(arrivals := s.arrivals + [Arrival(x, whole)])
  }

  ghost predicate Ascending(q: seq<nat>) { forall i, j :: 0 <= i < j < |q| ==> q[i] < q[j] }

  ghost function Removed(queue: seq<nat>, x: nat): (q: seq<nat>)
    ensures forall y :: y in q <==> y in queue && y != x
    ensures |q| <= |queue|
  {
    if queue == [] then []
    else Removed(queue[..|queue| - 1], x) + if queue[|queue| - 1] == x then [] else [queue[|queue| - 1]]
  }

  lemma AscendingAppend(q: seq<nat>, x: nat)
    requires Ascending(q) && forall y :: y in q ==> y < x
    ensures Ascending(q + [x])
  {
    forall i, j | 0 <= i < j < |q| + 1 ensures (q + [x])[i] < (q + [x])[j] {
      assert q[i] in q;
    }
  }

  lemma {:induction false} RemovedAscending(queue: seq<nat>, x: nat)
    requires Ascending(queue)
    ensures Ascending(Removed(queue, x))
  {
    if queue != [] {
      var front, last := queue[..|queue| - 1], queue[|queue| - 1];
      RemovedAscending(front, x);
      if last != x { AscendingAppend(Removed(front, x), last); }
    }
  }

  ghost predicate Succeed(s: State, s': State, x: nat) {
    && x in s.sending && ArrivedWhole(s, x)
    && s' == s.(sending := s.sending - {x}, queue := Removed(s.queue, x))
  }

  /** The first failure is recorded; later ones are not. */
  ghost predicate Fail(s: State, s': State, x: nat, e: int) {
    && x in s.sending
    && s' == s.(sending := s.sending - {x}, queue := Removed(s.queue, x), failures := s.failures + [e],
                error := if s.error.None? then Some(e) else s.error)
  }

  ghost predicate Skip(s: State, s': State, x: nat) {
    Oldest(s, x) && x !in s.sending && s.error.Some? && s' == s.(queue := Removed(s.queue, x))
  }

  ghost predicate Close(s: State, s': State) {
    s' == s.(closing := true)
  }

  ghost predicate DrainReturns(s: State, s': State) {
    s.closing && s.queue == [] && s' == s.(drained := Some(s.error))
  }

  ghost predicate Moves(s: State, s': State, x: nat, m: Msg, e: int, whole: bool) {
    || Call(s, s', m) || Begin(s, s', x) || Arrive(s, s', x, whole) || Succeed(s, s', x)
    || Fail(s, s', x, e) || Skip(s, s', x) || Close(s, s') || DrainReturns(s, s')
  }

  ghost predicate Next(s: State, s': State) {
    exists x: nat, m: Msg, e: int, whole: bool :: Moves(s, s', x, m, e, whole)
  }

  ghost predicate Run(trace: seq<State>) {
    trace != [] && Init(trace[0]) && forall i :: 0 <= i < |trace| - 1 ==> Next(trace[i], trace[i + 1])
  }

  // ---------------------------------------------------------------------------
  // What every step keeps

  ghost predicate SameKey(s: State, x: nat, y: nat) {
    x < |s.calls| && y < |s.calls| && s.calls[x].key == s.calls[y].key
  }

  /** Arrival `i` comes after whole arrivals of all earlier calls with its key, and after no
      later one. */
  ghost predicate InOrder(s: State, i: nat)
    requires i < |s.arrivals|
  {
    var x := s.arrivals[i].id;
    && x < |s.calls|
    && (forall y: nat :: y < x && SameKey(s, x, y) ==>
          exists j :: 0 <= j < i && s.arrivals[j] == Arrival(y, true))
    && (forall j :: 0 <= j < i && SameKey(s, x, s.arrivals[j].id) ==> s.arrivals[j].id < x)
  }

  ghost predicate Ordered(s: State) { forall i :: 0 <= i < |s.arrivals| ==> InOrder(s, i) }

  ghost predicate Inv(s: State) {
    && Ascending(s.queue) && (forall x :: x in s.queue ==> x < |s.calls|)
    && (forall x :: x in s.sending ==> x in s.queue)
    && (forall x, y: nat :: x in s.sending && y < x && SameKey(s, x, y) ==> y !in s.queue && ArrivedWhole(s, y))
    && Ordered(s)
    && (forall i :: 0 <= i < |s.arrivals| && s.arrivals[i].id in s.queue ==> s.arrivals[i].id in s.sending)
    && (s.error.None? ==> forall x: nat :: x < |s.calls| && x !in s.queue ==> ArrivedWhole(s, x))
    && s.error == (if s.failures == [] then None else Some(s.failures[0]))
    && (s.drained.Some? ==> s.closing && s.queue == [] && s.drained == Some(s.error))
  }

  lemma ArrivalsGrow(s: State, s': State)
    requires s.arrivals <= s'.arrivals
    ensures forall x :: ArrivedWhole(s, x) ==> ArrivedWhole(s', x)
  {
    forall x | ArrivedWhole(s, x) ensures ArrivedWhole(s', x) {
      var i :| 0 <= i < |s.arrivals| && s.arrivals[i] == Arrival(x, true);
      assert s'.arrivals[i] == Arrival(x, true);
    }
  }

  lemma InOrderGrows(s: State, s': State, i: nat)
    requires s.calls <= s'.calls && s.arrivals <= s'.arrivals && i < |s.arrivals|
    requires Ordered(s)
    ensures InOrder(s', i)
  {
    var x := s.arrivals[i].id;
    assert InOrder(s, i);
    assert s'.arrivals[i] == s.arrivals[i];
    forall y: nat | y < x && SameKey(s', x, y) ensures exists j :: 0 <= j < i && s'.arrivals[j] == Arrival(y, true) {
      assert SameKey(s, x, y);
      var j :| 0 <= j < i && s.arrivals[j] == Arrival(y, true);
      assert s'.arrivals[j] == Arrival(y, true);
    }
    forall j | 0 <= j < i && SameKey(s', x, s'.arrivals[j].id) ensures s'.arrivals[j].id < x {
      assert InOrder(s, j);
      assert SameKey(s, x, s.arrivals[j].id);
    }
  }

  lemma CallKeeps(s: State, s': State, m: Msg)
    requires Inv(s) && Call(s, s', m)
    ensures Inv(s')
  {
    ArrivalsGrow(s, s');
    forall i | 0 <= i < |s'.arrivals| ensures InOrder(s', i) { InOrderGrows(s, s', i); }
    forall x, y: nat | x in s'.sending && y < x && SameKey(s', x, y) ensures y !in s'.queue && ArrivedWhole(s', y) {
      assert SameKey(s, x, y);
    }
    forall i | 0 <= i < |s'.arrivals| && s'.arrivals[i].id in s'.queue ensures s'.arrivals[i].id in s'.sending {
      assert InOrder(s, i);
      assert s'.arrivals[i].id in s.queue;
    }
    AscendingAppend(s.queue, |s.calls|);
    assert s'.queue[|s.queue|] == |s.calls|;
    forall x: nat | x < |s'.calls| && x !in s'.queue ensures ArrivedWhole(s', x) {
      assert x != |s.calls| && x !in s.queue;
    }
  }

  lemma BeginKeeps(s: State, s': State, x: nat)
    requires Inv(s) && Begin(s, s', x)
    ensures Inv(s')
  {
    ArrivalsGrow(s, s');
    forall i | 0 <= i < |s'.arrivals| ensures InOrder(s', i) { InOrderGrows(s, s', i); }
  }

  lemma ArriveKeeps(s: State, s': State, x: nat, whole: bool)
    requires Inv(s) && Arrive(s, s', x, whole)
    ensures Inv(s')
  {
    ArrivalsGrow(s, s');
    forall i | 0 <= i < |s'.arrivals| ensures InOrder(s', i) {
      if i < |s.arrivals| { InOrderGrows(s, s', i); } else { NewestInOrder(s, s', x, whole); }
    }
  }

  lemma NewestInOrder(s: State, s': State, x: nat, whole: bool)
    requires Inv(s) && Arrive(s, s', x, whole)
    ensures InOrder(s', |s.arrivals|)
  {
    var n := |s.arrivals|;
    forall y: nat | y < x && SameKey(s', x, y) ensures exists j :: 0 <= j < n && s'.arrivals[j] == Arrival(y, true) {
      assert SameKey(s, x, y);
      var j :| 0 <= j < n && s.arrivals[j] == Arrival(y, true);
      assert s'.arrivals[j] == Arrival(y, true);
    }
    forall j | 0 <= j < n && SameKey(s', x, s'.arrivals[j].id) ensures s'.arrivals[j].id < x {
      assert InOrder(s, j);
      if s.arrivals[j].id >= x { ArrivedBefore(s, j, x); }
    }
  }

  lemma ArrivedBefore(s: State, j: nat, x: nat)
    requires j < |s.arrivals| && InOrder(s, j) && s.arrivals[j].id >= x && SameKey(s, s.arrivals[j].id, x)
    ensures HasArrived(s, x)
  {
    if s.arrivals[j].id > x {
      var l :| 0 <= l < j && s.arrivals[l] == Arrival(x, true);
    }
  }

  lemma LeaveKeeps(s: State, s': State, x: nat, e: int)
    requires Inv(s) && (Succeed(s, s', x) || Fail(s, s', x, e) || Skip(s, s', x))
    ensures Inv(s')
  {
    ArrivalsGrow(s, s');
    RemovedAscending(s.queue, x);
    forall i | 0 <= i < |s'.arrivals| ensures InOrder(s', i) { InOrderGrows(s, s', i); }
    forall y, z: nat | y in s'.sending && z < y && SameKey(s', y, z) ensures z !in s'.queue && ArrivedWhole(s', z) {
      assert SameKey(s, y, z);
    }
  }

  lemma StepKeeps(s: State, s': State, x: nat, m: Msg, e: int, whole: bool)
    requires Inv(s) && Moves(s, s', x, m, e, whole)
    ensures Inv(s')
  {
    hide Inv;
    if Call(s, s', m) {
      CallKeeps(s, s', m);
    } else if Begin(s, s', x) {
      BeginKeeps(s, s', x);
    } else if Arrive(s, s', x, whole) {
      ArriveKeeps(s, s', x, whole);
    } else if Close(s, s') || DrainReturns(s, s') {
      EndKeeps(s, s');
    } else {
      LeaveKeeps(s, s', x, e);
    }
  }

  lemma EndKeeps(s: State, s': State)
    requires Inv(s) && (Close(s, s') || DrainReturns(s, s'))
    ensures Inv(s')
  {
    ArrivalsGrow(s, s');
    forall i | 0 <= i < |s'.arrivals| ensures InOrder(s', i) { InOrderGrows(s, s', i); }
    forall x, y: nat | x in s'.sending && y < x && SameKey(s', x, y) ensures y !in s'.queue && ArrivedWhole(s', y) {
      assert SameKey(s, x, y);
    }
  }

  lemma {:induction false} RunInv(trace: seq<State>, i: nat)
    requires Run(trace) && i < |trace|
    ensures Inv(trace[i])
  {
    if i > 0 {
      RunInv(trace, i - 1);
      var s, s' := trace[i - 1], trace[i];
      assert Next(s, s');
      var x: nat, m, e, whole :| Moves(s, s', x, m, e, whole);
      StepKeeps(s, s', x, m, e, whole);
    }
  }

  // ---------------------------------------------------------------------------
  // Delivery in call order

  ghost predicate Known(calls: seq<Msg>, arrivals: seq<Arrival>) {
    forall i :: 0 <= i < |arrivals| ==> arrivals[i].id < |calls|
  }

  /** What the receiver sees, in order of arrival. */
  ghost function Delivered(calls: seq<Msg>, arrivals: seq<Arrival>): (d: seq<Msg>)
    requires Known(calls, arrivals)
    ensures |d| == |arrivals| && forall i :: 0 <= i < |d| ==> d[i] == calls[arrivals[i].id]
  {
    seq(|arrivals|, i requires 0 <= i < |arrivals| => calls[arrivals[i].id])
  }

  /** The first `n` arrivals with key `k` are the calls with key `k` below some bound. */
  lemma {:induction false} PrefixBound(s: State, k: Key, n: nat) returns (b: nat)
    requires Ordered(s) && Known(s.calls, s.arrivals) && n <= |s.arrivals|
    ensures b <= |s.calls| && Sel(Delivered(s.calls, s.arrivals)[..n], k) == Sel(s.calls[..b], k)
    ensures forall i :: 0 <= i < n && s.calls[s.arrivals[i].id].key == k ==> s.arrivals[i].id < b
    ensures b > 0 ==> n > 0 && exists i :: 0 <= i < n && s.arrivals[i].id == b - 1 && s.calls[b - 1].key == k
  {
    hide Sel, InOrder;
    var d := Delivered(s.calls, s.arrivals);
    if n == 0 {
      b := 0;
      assert d[..0] == [] && s.calls[..0] == [];
    } else {
      var b' := PrefixBound(s, k, n - 1);
      var x := s.arrivals[n - 1].id;
      assert d[..n] == d[..n - 1] + [d[n - 1]];
      SelAppend(d[..n - 1], d[n - 1], k);
      assert InOrder(s, n - 1);
      if s.calls[x].key == k {
        b := x + 1;
        NoneBetween(s, k, n - 1, b');
        var mid := s.calls[b'..x];
        assert s.calls[..x] == s.calls[..b'] + mid;
        SelConcat(s.calls[..b'], mid, k);
        SelNone(mid, k);
        assert s.calls[..x + 1] == s.calls[..x] + [s.calls[x]];
        SelAppend(s.calls[..x], s.calls[x], k);
      } else {
        b := b';
      }
    }
  }

  /** Between the last call delivered so far and the next one lies none with the same key. */
  lemma NoneBetween(s: State, k: Key, n: nat, b: nat)
    requires n < |s.arrivals| && InOrder(s, n) && s.calls[s.arrivals[n].id].key == k
    requires Known(s.calls, s.arrivals)
    requires forall i :: 0 <= i < n && s.calls[s.arrivals[i].id].key == k ==> s.arrivals[i].id < b
    requires b <= |s.calls|
    requires b > 0 ==> exists i :: 0 <= i < n && s.arrivals[i].id == b - 1 && s.calls[b - 1].key == k
    ensures b <= s.arrivals[n].id
    ensures forall y :: b <= y < s.arrivals[n].id ==> s.calls[y].key != k
  {
    var x := s.arrivals[n].id;
    if b > 0 {
      var i :| 0 <= i < n && s.arrivals[i].id == b - 1 && s.calls[b - 1].key == k;
      assert SameKey(s, x, s.arrivals[i].id);
    }
    forall y: nat | b <= y < x ensures s.calls[y].key != k {
      if s.calls[y].key == k { NotYet(s, n, y, b); }
    }
  }

  lemma NotYet(s: State, n: nat, y: nat, b: nat)
    requires n < |s.arrivals| && InOrder(s, n) && y < s.arrivals[n].id && SameKey(s, s.arrivals[n].id, y)
    requires Known(s.calls, s.arrivals)
    requires forall i :: 0 <= i < n && s.calls[s.arrivals[i].id].key == s.calls[y].key ==> s.arrivals[i].id < b
    ensures y < b
  {
    var j :| 0 <= j < n && s.arrivals[j] == Arrival(y, true);
  }

  lemma InRange(trace: seq<State>, i: nat)
    requires Run(trace) && i < |trace|
    ensures Ordered(trace[i]) && Known(trace[i].calls, trace[i].arrivals)
  {
    RunInv(trace, i);
    forall j | 0 <= j < |trace[i].arrivals| ensures trace[i].arrivals[j].id < |trace[i].calls| {
      assert InOrder(trace[i], j);
    }
  }

  /** In every run and under any failures, the messages delivered for a peer and tag are a
      prefix of those sent, in call order, and all but the last of them are whole. */
  lemma DeliveredInCallOrder(trace: seq<State>, i: nat, k: Key)
    requires Run(trace) && i < |trace|
    ensures Known(trace[i].calls, trace[i].arrivals)
    ensures Sel(Delivered(trace[i].calls, trace[i].arrivals), k) <= Sel(trace[i].calls, k)
    ensures forall j, l :: 0 <= j < l < |trace[i].arrivals| && SameKey(trace[i], trace[i].arrivals[j].id, trace[i].arrivals[l].id) ==>
              trace[i].arrivals[j].whole
  {
    hide Inv, Run, Sel, InOrder;
    var s := trace[i];
    InRange(trace, i);
    var d := Delivered(s.calls, s.arrivals);
    var b := PrefixBound(s, k, |s.arrivals|);
    assert d[..|d|] == d && s.calls == s.calls[..b] + s.calls[b..];
    SelConcat(s.calls[..b], s.calls[b..], k);
    forall j, l | 0 <= j < l < |s.arrivals| && SameKey(s, s.arrivals[j].id, s.arrivals[l].id) ensures s.arrivals[j].whole {
      assert InOrder(s, j) && InOrder(s, l);
      Earlier(s, j, l);
    }
  }

  lemma Earlier(s: State, j: nat, l: nat)
    requires j < l < |s.arrivals| && InOrder(s, j) && InOrder(s, l) && SameKey(s, s.arrivals[j].id, s.arrivals[l].id)
    requires Ordered(s)
    ensures s.arrivals[j].whole
  {
    var y, x := s.arrivals[j].id, s.arrivals[l].id;
    assert SameKey(s, x, y) && y < x;
    var i :| 0 <= i < l && s.arrivals[i] == Arrival(y, true);
    assert InOrder(s, i);
    if i != j {
      assert SameKey(s, y, s.arrivals[i].id) && SameKey(s, s.arrivals[i].id, s.arrivals[j].id);
    }
  }

  /** A drain that reports success means every call was delivered, whole and in order. */
  lemma DrainedClean(trace: seq<State>, i: nat, k: Key)
    requires Run(trace) && i < |trace| && trace[i].drained == Some(None)
    ensures Known(trace[i].calls, trace[i].arrivals)
    ensures Sel(Delivered(trace[i].calls, trace[i].arrivals), k) == Sel(trace[i].calls, k)
    ensures forall x: nat :: x < |trace[i].calls| ==> ArrivedWhole(trace[i], x)
  {
    hide Sel, InOrder, Run;
    var s := trace[i];
    RunInv(trace, i);
    InRange(trace, i);
    var d := Delivered(s.calls, s.arrivals);
    var b := PrefixBound(s, k, |s.arrivals|);
    assert d[..|d|] == d && s.calls == s.calls[..b] + s.calls[b..];
    SelConcat(s.calls[..b], s.calls[b..], k);
    forall y: nat | b <= y < |s.calls| ensures s.calls[y].key != k {
      assert ArrivedWhole(s, y);
      var j :| 0 <= j < |s.arrivals| && s.arrivals[j] == Arrival(y, true);
    }
    SelNone(s.calls[b..], k);
  }

  // ---------------------------------------------------------------------------
  // Errors and drain

  /** The recorded error is the first one reported, and it is never replaced. */
  lemma {:induction false} FirstErrorKept(trace: seq<State>, i: nat, j: nat)
    requires Run(trace) && i <= j < |trace|
    ensures trace[i].failures <= trace[j].failures
    ensures trace[j].error == if trace[j].failures == [] then None else Some(trace[j].failures[0])
    ensures trace[i].error.Some? ==> trace[j].error == trace[i].error
  {
    RunInv(trace, i);
    RunInv(trace, j);
    if i < j {
      FirstErrorKept(trace, i, j - 1);
      assert Next(trace[j - 1], trace[j]);
    }
  }

  /** Drain returns only with an empty queue and no send in progress, with the recorded
      error; nothing is queued or delivered afterwards. */
  lemma {:induction false} DrainIsFinal(trace: seq<State>, i: nat, j: nat)
    requires Run(trace) && i <= j < |trace| && trace[i].drained.Some?
    ensures trace[i].queue == [] && trace[i].sending == {} && trace[i].drained == Some(trace[i].error)
    ensures trace[j].queue == [] && trace[j].calls == trace[i].calls && trace[j].arrivals == trace[i].arrivals
    ensures trace[j].drained == trace[i].drained
  {
    hide Inv, Moves;
    RunInv(trace, i);
    Idle(trace[i]);
    if i < j {
      DrainIsFinal(trace, i, j - 1);
      RunInv(trace, j - 1);
      assert Next(trace[j - 1], trace[j]);
      Idle(trace[j - 1]);
      var x: nat, m, e, whole :| Moves(trace[j - 1], trace[j], x, m, e, whole);
      IdleStays(trace[j - 1], trace[j], x, m, e, whole);
    }
  }

  lemma Idle(s: State)
    requires Inv(s) && s.drained.Some?
    ensures s.closing && s.queue == [] && s.sending == {} && s.drained == Some(s.error)
  {
    hide Ordered, ArrivedWhole, SameKey;
  }

  lemma IdleStays(s: State, s': State, x: nat, m: Msg, e: int, whole: bool)
    requires s.closing && s.queue == [] && s.sending == {} && s.drained == Some(s.error) && Moves(s, s', x, m, e, whole)
    ensures s'.queue == [] && s'.calls == s.calls && s'.arrivals == s.arrivals && s'.drained == s.drained
  {
  }

  /** The connection of `x` broke off. */
  ghost predicate Broken(s: State, x: nat) { HasArrived(s, x) && !ArrivedWhole(s, x) }

  /** The operation at the head of the queue can always go on, and has to fail only if its
      connection broke off. */
  lemma HeadMoves(s: State) returns (s': State, x: nat, e: int, whole: bool)
    requires Inv(s) && s.queue != []
    ensures x == s.queue[0]
    ensures Begin(s, s', x) || Arrive(s, s', x, true) || Succeed(s, s', x) || Skip(s, s', x) || (Fail(s, s', x, e) && Broken(s, x))
    ensures |s'.queue| < |s.queue| || (s'.queue == s.queue && ToGo(s', x) < ToGo(s, x))
  {
    hide Ordered;
    x, e, whole := s.queue[0], 1, true;
    assert s.queue[0] in s.queue;
    assert Oldest(s, x);
    RemovedShorter(s.queue, x);
    if x !in s.sending && s.error.None? {
      s' := s.(sending := s.sending + {x});
      assert Begin(s, s', x);
    } else if x !in s.sending {
      s' := s.(queue := Removed(s.queue, x));
      assert Skip(s, s', x);
    } else if !HasArrived(s, x) {
      s' := s.(arrivals := s.arrivals + [Arrival(x, true)]);
      assert Arrive(s, s', x, true);
      assert s'.arrivals[|s.arrivals|].id == x;
    } else if ArrivedWhole(s, x) {
      s' := s.(sending := s.sending - {x}, queue := Removed(s.queue, x));
      assert Succeed(s, s', x);
    } else {
      s' := s.(sending := s.sending - {x}, queue := Removed(s.queue, x), failures := s.failures + [e],
               error := if s.error.None? then Some(e) else s.error);
      assert Fail(s, s', x, e);
    }
  }

  /** Steps of `x` before it leaves the queue. */
  ghost function ToGo(s: State, x: nat): nat { if x !in s.sending then 2 else if !HasArrived(s, x) then 1 else 0 }

  lemma {:induction false} RemovedShorter(queue: seq<nat>, x: nat)
    requires x in queue
    ensures |Removed(queue, x)| < |queue|
  {
    var front := queue[..|queue| - 1];
    if queue[|queue| - 1] != x { RemovedShorter(front, x); }
  }

  /** No error so far, and no connection that is being used has broken off. */
  ghost predicate Sound(s: State) { s.error.None? && forall x :: x in s.sending ==> !Broken(s, x) }

  lemma HeadStaysSound(s: State, s': State, x: nat, e: int)
    requires Sound(s)
    requires Begin(s, s', x) || Arrive(s, s', x, true) || Succeed(s, s', x) || Skip(s, s', x) || (Fail(s, s', x, e) && Broken(s, x))
    requires forall i :: 0 <= i < |s.arrivals| && s.arrivals[i].id in s.queue ==> s.arrivals[i].id in s.sending
    ensures Sound(s')
  {
    if Begin(s, s', x) {
      assert !HasArrived(s, x);
    } else if Arrive(s, s', x, true) {
      assert s'.arrivals[|s.arrivals|] == Arrival(x, true);
      forall y | y in s'.sending ensures !Broken(s', y) {
        if y != x && HasArrived(s', y) {
          var i :| 0 <= i < |s'.arrivals| && s'.arrivals[i].id == y;
          assert s.arrivals[i].id == y;
          var j :| 0 <= j < |s.arrivals| && s.arrivals[j] == Arrival(y, true);
          assert s'.arrivals[j] == Arrival(y, true);
        }
      }
    }
  }

  /** Every run in which the state is closing can be continued until drain returns, and without an
      error if there was none and no connection in use had broken off. */
  lemma {:induction false} DrainEnds(trace: seq<State>) returns (full: seq<State>)
    requires trace != [] && Run(trace) && trace[|trace| - 1].closing
    ensures |trace| <= |full| && full[..|trace|] == trace && Run(full)
    ensures full[|full| - 1].drained.Some?
    ensures Sound(trace[|trace| - 1]) ==> full[|full| - 1].drained == Some(None)
    decreases |trace[|trace| - 1].queue|, if trace[|trace| - 1].queue == [] then 0 else ToGo(trace[|trace| - 1], trace[|trace| - 1].queue[0])
  {
    hide Ordered, ArrivedWhole, HasArrived, Ascending;
    var s := trace[|trace| - 1];
    RunInv(trace, |trace| - 1);
    if s.drained.Some? {
      full := trace;
      return;
    }
    var s', x, e, whole;
    if s.queue == [] {
      s' := s.(drained := Some(s.error));
      x, e, whole := 0, 0, true;
      assert DrainReturns(s, s');
    } else {
      s', x, e, whole := HeadMoves(s);
      if Sound(s) { HeadStaysSound(s, s', x, e); }
    }
    var m := Msg(Key(0, 0), []);
    assert Moves(s, s', x, m, e, true);
    var longer := trace + [s'];
    assert forall i :: 0 <= i < |longer| - 1 ==> Next(longer[i], longer[i + 1]);
    if s.queue == [] {
      full := longer;
    } else {
      full := DrainEnds(longer);
      assert full[..|trace|] == full[..|longer|][..|trace|] == trace;
    }
  }
}
