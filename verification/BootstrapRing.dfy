/** The ring built by `bootstrapInit` (src/bootstrap.cc): the check-ins every rank sends,
    the answers of all roots, and in a grow the exchange over the parent's bootstrap,
    together hand every rank the connection info of its successor. */
module BootstrapRing {
  import opened Arith
  import opened RootMatch
  import opened Seqs

  /** `offset` is 0 for a plain init and one less than the parent's size for a grow. */
  datatype Config = Config(nRanks: nat, nRoots: nat, offset: nat, grow: bool)

  ghost predicate ValidConfig(g: Config) {
    Layout(g.nRanks, g.nRoots, g.offset) && (g.grow || g.offset == 0)
  }

  /** Per rank: the address it listens on for its root, if it has one, and how its ring neighbour
      reaches it. */
  ghost predicate ValidTables(g: Config, listen: seq<int>, conn: seq<int>) {
    && |listen| == |conn| == g.nRanks
    && (forall r :: 0 <= r < g.nRanks ==> conn[r] != 0)
    && (forall r :: g.offset <= r < g.nRanks ==> listen[r] != 0)
    && (forall r, q :: g.offset <= r < q < g.nRanks ==> listen[r] != listen[q])
  }

  /** The root address in the check-ins of rank `r`: a rank below the offset has no root, does not
      listen for one, and leaves the field zero. */
  function Address(g: Config, listen: seq<int>, r: nat): int
    requires r < |listen|
  {
    if r < g.offset then 0 else listen[r]
  }

  /** In a grow only the boundary ranks of the parent and the new ranks hold the handle. */
  function Handles(g: Config, r: nat): nat { if 0 < r < g.offset then 0 else g.nRoots }

  function RootOf(g: Config, r: int): int
    requires Layout(g.nRanks, g.nRoots, g.offset)
  {
    RootIdFromRank(r, g.nRanks, g.nRoots, g.offset)
  }

  function First(g: Config, root: int): int
    requires Layout(g.nRanks, g.nRoots, g.offset)
  {
    FirstRankFromRoot(root, g.nRanks, g.nRoots, g.offset)
  }

  datatype ToRoot = ToRoot(root: int, info: ExtInfo)

  /** The check-ins of rank `r`: one with its own root, and one with the previous rank's
      root if `r` is the first rank of its block. */
  function Sends(g: Config, listen: seq<int>, conn: seq<int>, r: nat): seq<ToRoot>
    requires Layout(g.nRanks, g.nRoots, g.offset) && r < g.nRanks == |listen| == |conn|
  {
    var nHandles := Handles(g, r);
    var currRoot := RootIdFromRank(r, g.nRanks, nHandles, g.offset);
    var own := if currRoot >= 0
               then [ToRoot(currRoot, ExtInfo(r, g.nRanks, currRoot, nHandles, g.offset, listen[r], conn[r]))] else [];
    var address := if currRoot >= 0 then listen[r] else 0;
    var existing := g.grow && r <= g.offset;
    if ((existing && g.offset > 0) || nHandles > 1) && r == FirstRankFromRoot(currRoot, g.nRanks, nHandles, g.offset) then
      var prevRank := Pid(r - 1, g.nRanks);
      var prevRoot := RootIdFromRank(prevRank, g.nRanks, nHandles, g.offset);
      own + if prevRoot >= 0
            then [ToRoot(prevRoot, ExtInfo(prevRank + 1, g.nRanks, prevRoot, nHandles, g.offset, address, conn[r]))]
            else []
    else own
  }

  function Addressed(ms: seq<ToRoot>, root: int): seq<ExtInfo> {
    if ms == [] then [] else
    (if ms[0].root == root then [ms[0].info] else []) + Addressed(ms[1..], root)
  }

  /** Everything ranks below `n` send to `root`, in rank order. */
  function RootInbox(g: Config, listen: seq<int>, conn: seq<int>, root: int, n: nat): seq<ExtInfo>
    requires Layout(g.nRanks, g.nRoots, g.offset) && n <= g.nRanks == |listen| == |conn|
  {
    if n == 0 then []
    else RootInbox(g, listen, conn, root, n - 1) + Addressed(Sends(g, listen, conn, n - 1), root)
  }

  // ---------------------------------------------------------------------------
  // What each root is sent

  ghost predicate IsRoot(g: Config, i: int) {
    Layout(g.nRanks, g.nRoots, g.offset) && 0 <= i < g.nRoots
  }

  ghost function Served(g: Config, i: int): (n: nat)
    requires IsRoot(g, i)
    ensures n >= 1 && First(g, i + 1) == First(g, i) + n && g.offset + i <= First(g, i) && First(g, i + 1) <= g.nRanks
    ensures i + 1 == g.nRoots ==> First(g, i + 1) == g.nRanks
    ensures i == 0 ==> First(g, i) == g.offset
    ensures n == NRankFromRoot(i, g.nRanks, g.nRoots, g.offset)
  {
    BlocksTile(i, g.nRanks, g.nRoots, g.offset);
    BlocksOrdered(0, i, g.nRanks, g.nRoots, g.offset);
    BlocksOrdered(i + 1, g.nRoots, g.nRanks, g.nRoots, g.offset);
    NRankFromRoot(i, g.nRanks, g.nRoots, g.offset)
  }

  ghost predicate Stitched(g: Config) { g.offset > 0 || g.nRoots > 1 }

  ghost function Expected(g: Config, i: int): (n: nat)
    requires IsRoot(g, i)
  {
    Served(g, i) + if Stitched(g) then 1 else 0
  }

  /** The rank behind local id `l` of root `i`. */
  ghost function Owner(g: Config, i: int, l: nat): (r: nat)
    requires IsRoot(g, i) && l <= Served(g, i)
    ensures r < g.nRanks && (First(g, i) + l < g.nRanks ==> r == First(g, i) + l)
    ensures First(g, i) + l == g.nRanks ==> r == 0
    ensures r == (First(g, i) + l) % g.nRanks
  {
    ModWrap(First(g, i) + l, g.nRanks);
    (First(g, i) + l) % g.nRanks
  }

  ghost function InfoAt(g: Config, listen: seq<int>, conn: seq<int>, i: int, l: nat): ExtInfo
    requires IsRoot(g, i) && l <= Served(g, i) && g.nRanks == |listen| == |conn|
  {
    var o := Owner(g, i, l);
    ExtInfo(First(g, i) + l, g.nRanks, i, g.nRoots, g.offset, Address(g, listen, o), conn[o])
  }

  ghost function InfosBelow(g: Config, listen: seq<int>, conn: seq<int>, i: int, n: nat): (s: seq<ExtInfo>)
    requires IsRoot(g, i) && n <= Served(g, i) + 1 && g.nRanks == |listen| == |conn|
    ensures |s| == n && forall l :: 0 <= l < n ==> s[l] == InfoAt(g, listen, conn, i, l)
  {
    seq(n, l requires 0 <= l < n => InfoAt(g, listen, conn, i, l))
  }

  /** The root whose missing successor is `r`, if there is one: the previous block's root
      for the first rank of a later block, the last root for rank 0. */
  ghost function ExtraRoot(g: Config, r: nat): int
    requires Layout(g.nRanks, g.nRoots, g.offset) && r < g.nRanks
  {
    if !Stitched(g) then -1
    else if r == 0 then g.nRoots - 1
    else if r < g.offset then -1
    else if First(g, RootOf(g, r)) == r then RootOf(g, r) - 1
    else -1
  }

  /** What a rank sends, said in terms of local ids. */
  lemma SendsOf(g: Config, listen: seq<int>, conn: seq<int>, r: nat)
    requires ValidConfig(g) && r < g.nRanks == |listen| == |conn|
    ensures g.offset <= r ==> IsRoot(g, RootOf(g, r)) && 0 <= r - First(g, RootOf(g, r)) < Served(g, RootOf(g, r))
    ensures ExtraRoot(g, r) >= 0 ==> IsRoot(g, ExtraRoot(g, r)) && Owner(g, ExtraRoot(g, r), Served(g, ExtraRoot(g, r))) == r
    ensures Sends(g, listen, conn, r)
         == (if g.offset <= r
             then [ToRoot(RootOf(g, r), InfoAt(g, listen, conn, RootOf(g, r), r - First(g, RootOf(g, r))))] else [])
          + (if ExtraRoot(g, r) >= 0
             then [ToRoot(ExtraRoot(g, r), InfoAt(g, listen, conn, ExtraRoot(g, r), Served(g, ExtraRoot(g, r))))] else [])
  {
    if g.offset <= r {
      RootOwnsRank(r, g.nRanks, g.nRoots, g.offset);
      var n := Served(g, RootOf(g, r));
    }
    SendsExtra(g, listen, conn, r);
  }

  lemma SendsExtra(g: Config, listen: seq<int>, conn: seq<int>, r: nat)
    requires ValidConfig(g) && r < g.nRanks == |listen| == |conn|
    ensures ExtraRoot(g, r) >= 0 ==> IsRoot(g, ExtraRoot(g, r)) && Owner(g, ExtraRoot(g, r), Served(g, ExtraRoot(g, r))) == r
    ensures var currRoot := RootIdFromRank(r, g.nRanks, Handles(g, r), g.offset);
            var prevRank := Pid(r - 1, g.nRanks);
            var prevRoot := RootIdFromRank(prevRank, g.nRanks, Handles(g, r), g.offset);
            var sends := ((g.grow && r <= g.offset && g.offset > 0) || Handles(g, r) > 1)
                      && r == FirstRankFromRoot(currRoot, g.nRanks, Handles(g, r), g.offset);
            && ExtraRoot(g, r) == (if sends && prevRoot >= 0 then prevRoot else -1)
            && (ExtraRoot(g, r) >= 0 ==> prevRank + 1 == First(g, prevRoot) + Served(g, prevRoot) && Handles(g, r) == g.nRoots)
  {
    ModWrap(r - 1 + g.nRanks, g.nRanks);
    if r == 0 {
      if Stitched(g) { LastRoot(g); }
    } else if g.offset <= r {
      RootOwnsRank(r, g.nRanks, g.nRoots, g.offset);
      var j := RootOf(g, r);
      if First(g, j) == r {
        if j > 0 {
          var n := Served(g, j - 1);
          RootUnique(r - 1, j - 1, g.nRanks, g.nRoots, g.offset);
        } else {
          var n := Served(g, 0);
        }
      }
    }
  }

  lemma LastRoot(g: Config)
    requires ValidConfig(g)
    ensures RootOf(g, g.nRanks - 1) == g.nRoots - 1
    ensures g.offset == 0 ==> RootOf(g, 0) == 0 && First(g, 0) == 0
  {
    var n := Served(g, g.nRoots - 1);
    RootUnique(g.nRanks - 1, g.nRoots - 1, g.nRanks, g.nRoots, g.offset);
    if g.offset == 0 {
      var m := Served(g, 0);
      RootUnique(0, 0, g.nRanks, g.nRoots, g.offset);
    }
  }

  ghost function Clamp(x: int, hi: nat): (c: nat)
    ensures c <= hi
  {
    if x < 0 then 0 else if x > hi then hi else x
  }

  /** The last root hears from rank 0 first, and from its own block later. */
  ghost function LastInbox(g: Config, listen: seq<int>, conn: seq<int>, i: int, n: nat): seq<ExtInfo>
    requires IsRoot(g, i) && n <= g.nRanks == |listen| == |conn|
  {
    (if n > 0 then [InfoAt(g, listen, conn, i, Served(g, i))] else [])
      + InfosBelow(g, listen, conn, i, Clamp(n - First(g, i), Served(g, i)))
  }

  /** A root's inbox, part way through the ranks: its own block in order, and then the first
      of the next block if there is a next root. */
  lemma {:induction false} PlainInbox(g: Config, listen: seq<int>, conn: seq<int>, i: int, n: nat)
    requires ValidConfig(g) && IsRoot(g, i) && n <= g.nRanks == |listen| == |conn|
    requires i + 1 < g.nRoots || !Stitched(g)
    ensures RootInbox(g, listen, conn, i, n) == InfosBelow(g, listen, conn, i, Clamp(n - First(g, i), Expected(g, i)))
    decreases n
  {
    hide Sends, InfoAt, FirstRankFromRoot, RootIdFromRank, NRankFromRoot, ExtraRoot, Addressed, ValidConfig;
    var served, first := Served(g, i), First(g, i);
    if n > 0 {
      PlainInbox(g, listen, conn, i, n - 1);
      AddressedPair(g, listen, conn, i, n - 1);
      var added := Addressed(Sends(g, listen, conn, n - 1), i);
      if i + 1 < g.nRoots { var s1 := Served(g, i + 1); }
      var k := Clamp(n - 1 - first, Expected(g, i));
      if first <= n - 1 && k < Expected(g, i) {
        InfosGrow(g, listen, conn, i, k);
        assert added == [InfoAt(g, listen, conn, i, k)];
      } else {
        assert added == [];
      }
    }
  }

  lemma LastInboxGrows(g: Config, listen: seq<int>, conn: seq<int>, i: int, n: nat)
    requires IsRoot(g, i) && i + 1 == g.nRoots && First(g, i) > 0 && 0 < n <= g.nRanks == |listen| == |conn|
    ensures LastInbox(g, listen, conn, i, n)
         == LastInbox(g, listen, conn, i, n - 1)
          + if First(g, i) <= n - 1 then [InfoAt(g, listen, conn, i, n - 1 - First(g, i))]
            else if n == 1 then [InfoAt(g, listen, conn, i, Served(g, i))] else []
  {
    hide InfoAt, FirstRankFromRoot, NRankFromRoot, Served, InfosBelow;
    var k := n - 1 - First(g, i);
    if k >= 0 { InfosGrow(g, listen, conn, i, k); }
  }

  /** The last of several roots also hears from rank 0, which in rank order comes first. */
  lemma {:induction false} StitchedInbox(g: Config, listen: seq<int>, conn: seq<int>, i: int, n: nat)
    requires ValidConfig(g) && IsRoot(g, i) && n <= g.nRanks == |listen| == |conn|
    requires i + 1 == g.nRoots && Stitched(g)
    ensures RootInbox(g, listen, conn, i, n) == LastInbox(g, listen, conn, i, n)
    decreases n
  {
    hide Sends, InfoAt, FirstRankFromRoot, RootIdFromRank, NRankFromRoot, ExtraRoot, Addressed, ValidConfig,
      Owner, Served, InfosBelow;
    if n == 0 {
      assert Clamp(n - First(g, i), Served(g, i)) == 0;
    } else {
      hide LastInbox;
      StitchedInbox(g, listen, conn, i, n - 1);
      AddressedPair(g, listen, conn, i, n - 1);
      LastInboxGrows(g, listen, conn, i, n);
    }
  }

  lemma InfosGrow(g: Config, listen: seq<int>, conn: seq<int>, i: int, k: nat)
    requires IsRoot(g, i) && k <= Served(g, i) && g.nRanks == |listen| == |conn|
    ensures InfosBelow(g, listen, conn, i, k + 1) == InfosBelow(g, listen, conn, i, k) + [InfoAt(g, listen, conn, i, k)]
  {
  }

  lemma AddressedPair(g: Config, listen: seq<int>, conn: seq<int>, i: int, r: nat)
    requires ValidConfig(g) && IsRoot(g, i) && r < g.nRanks == |listen| == |conn|
    ensures Addressed(Sends(g, listen, conn, r), i)
         == (if First(g, i) <= r < First(g, i + 1) then [InfoAt(g, listen, conn, i, r - First(g, i))] else [])
          + (if Stitched(g) && r == Owner(g, i, Served(g, i)) then [InfoAt(g, listen, conn, i, Served(g, i))] else [])
  {
    hide Sends, InfoAt, FirstRankFromRoot, RootIdFromRank, NRankFromRoot, ExtraRoot, Served, Owner;
    var served := Served(g, i);
    SendsOf(g, listen, conn, r);
    var ms := Sends(g, listen, conn, r);
    if g.offset <= r {
      RootOwnsRank(r, g.nRanks, g.nRoots, g.offset);
      if First(g, i) <= r < First(g, i + 1) { RootUnique(r, i, g.nRanks, g.nRoots, g.offset); }
    }
    assert g.offset <= r && RootOf(g, r) == i <==> First(g, i) <= r < First(g, i + 1);
    ExtraIff(g, i, r);
    var own := if g.offset <= r
               then [ToRoot(RootOf(g, r), InfoAt(g, listen, conn, RootOf(g, r), r - First(g, RootOf(g, r))))] else [];
    AddressedConcat(own, ms[|own|..], i);
    assert ms == own + ms[|own|..];
    AddressedOne(own, i);
    AddressedOne(ms[|own|..], i);
  }

  lemma AddressedOne(ms: seq<ToRoot>, root: int)
    requires |ms| <= 1
    ensures Addressed(ms, root) == if ms != [] && ms[0].root == root then [ms[0].info] else []
  {
    if ms != [] { assert ms[1..] == []; }
  }

  lemma {:induction false} AddressedConcat(a: seq<ToRoot>, b: seq<ToRoot>, root: int)
    ensures Addressed(a + b, root) == Addressed(a, root) + Addressed(b, root)
  {
    if a == [] {
      assert a + b == b;
    } else {
      AddressedConcat(a[1..], b, root);
      assert (a + b)[1..] == a[1..] + b;
    }
  }

  lemma ExtraIff(g: Config, i: int, r: nat)
    requires ValidConfig(g) && IsRoot(g, i) && r < g.nRanks
    ensures ExtraRoot(g, r) == i <==> Stitched(g) && r == Owner(g, i, Served(g, i))
  {
    var s := Served(g, i);
    var next := First(g, i + 1);
    if i + 1 < g.nRoots {
      var s1 := Served(g, i + 1);
      RootUnique(next, i + 1, g.nRanks, g.nRoots, g.offset);
      if r > 0 && g.offset <= r {
        RootOwnsRank(r, g.nRanks, g.nRoots, g.offset);
      }
    } else if r > 0 && g.offset <= r {
      RootOwnsRank(r, g.nRanks, g.nRoots, g.offset);
    }
  }

  // ---------------------------------------------------------------------------
  // Any arrival order is a rendezvous

  lemma InboxIsEveryLocalId(g: Config, listen: seq<int>, conn: seq<int>, i: int)
    requires ValidConfig(g) && IsRoot(g, i) && g.nRanks == |listen| == |conn|
    ensures multiset(RootInbox(g, listen, conn, i, g.nRanks))
         == multiset(InfosBelow(g, listen, conn, i, Expected(g, i)))
  {
    hide InfoAt, FirstRankFromRoot, RootInbox, NRankFromRoot, InfosBelow;
    var served := Served(g, i);
    if i + 1 < g.nRoots || !Stitched(g) {
      PlainInbox(g, listen, conn, i, g.nRanks);
      if i + 1 < g.nRoots { var s1 := Served(g, i + 1); }
    } else {
      StitchedInbox(g, listen, conn, i, g.nRanks);
      InfosGrow(g, listen, conn, i, served);
    }
  }

  /** The check-ins that reach root `i`, in the order it accepts them. */
  ghost predicate Order(g: Config, listen: seq<int>, conn: seq<int>, i: int, arr: seq<ExtInfo>)
    requires Layout(g.nRanks, g.nRoots, g.offset) && g.nRanks == |listen| == |conn|
  {
    multiset(arr) == multiset(RootInbox(g, listen, conn, i, g.nRanks))
  }

  lemma InfoFacts(g: Config, listen: seq<int>, conn: seq<int>, i: int, l: nat, m: nat)
    requires IsRoot(g, i) && l <= Served(g, i) && m <= Served(g, i) && g.nRanks == |listen| == |conn|
    ensures FromClient(InfoAt(g, listen, conn, i, l))
    ensures PlanOf(InfoAt(g, listen, conn, i, m)) == Plan(Served(g, i), Expected(g, i), g.nRoots > 1)
    ensures LocalId(InfoAt(g, listen, conn, i, m), InfoAt(g, listen, conn, i, l)) == l
    ensures SameLayout(InfoAt(g, listen, conn, i, m), InfoAt(g, listen, conn, i, l))
  {
    ModWrap(i + g.nRoots, g.nRoots);
  }

  /** Each position of an arrival order holds the info of some local id. */
  lemma OrderEntries(g: Config, listen: seq<int>, conn: seq<int>, i: int, arr: seq<ExtInfo>)
    requires ValidConfig(g) && IsRoot(g, i) && g.nRanks == |listen| == |conn| && Order(g, listen, conn, i, arr)
    ensures |arr| == Expected(g, i)
    ensures forall j :: 0 <= j < |arr| ==> exists l: nat :: l < Expected(g, i) && arr[j] == InfoAt(g, listen, conn, i, l)
    ensures forall l :: 0 <= l < Expected(g, i) ==> InfoAt(g, listen, conn, i, l) in arr
    ensures Distinct(arr)
  {
    InboxIsEveryLocalId(g, listen, conn, i);
    var all := InfosBelow(g, listen, conn, i, Expected(g, i));
    PermMember(arr, all, all[0]);
    forall j | 0 <= j < |arr| ensures exists l: nat :: l < Expected(g, i) && arr[j] == InfoAt(g, listen, conn, i, l) {
      PermMember(arr, all, arr[j]);
      var l :| 0 <= l < |all| && all[l] == arr[j];
      assert arr[j] == InfoAt(g, listen, conn, i, l);
    }
    forall l | 0 <= l < Expected(g, i) ensures InfoAt(g, listen, conn, i, l) in arr {
      assert all[l] in all;
      PermMember(arr, all, all[l]);
    }
    forall a, b | 0 <= a < b < |all| ensures all[a] != all[b] {
      assert all[a].rank != all[b].rank;
    }
    PermDistinct(arr, all);
  }

  lemma OrderIsRendezvous(g: Config, listen: seq<int>, conn: seq<int>, i: int, arr: seq<ExtInfo>)
    requires ValidConfig(g) && ValidTables(g, listen, conn) && IsRoot(g, i) && Order(g, listen, conn, i, arr)
    ensures arr != [] && (forall j :: 0 <= j < |arr| ==> FromClient(arr[j])) && Rendezvous(arr)
    ensures PlanOf(arr[0]) == Plan(Served(g, i), Expected(g, i), g.nRoots > 1)
    ensures forall j :: 0 <= j < |arr| ==> exists l: nat :: l < Expected(g, i) && arr[j] == InfoAt(g, listen, conn, i, l)
    ensures forall j, l: nat :: 0 <= j < |arr| && l < Expected(g, i) && arr[j] == InfoAt(g, listen, conn, i, l) ==>
              LocalId(arr[0], arr[j]) == l
  {
    hide InfoAt, PlanOf, LocalId, NRankFromRoot, FirstRankFromRoot, Order, Full, FromClient, InRange, SameLayout;
    OrderGathered(g, listen, conn, i, arr);
    OrderIsFull(g, listen, conn, i, arr);
  }

  lemma OrderGathered(g: Config, listen: seq<int>, conn: seq<int>, i: int, arr: seq<ExtInfo>)
    requires ValidConfig(g) && ValidTables(g, listen, conn) && IsRoot(g, i) && Order(g, listen, conn, i, arr)
    ensures Gathered(g, listen, conn, i, arr) && forall j :: 0 <= j < |arr| ==> SameLayout(arr[0], arr[j])
  {
    hide InfoAt, PlanOf, LocalId, NRankFromRoot, FirstRankFromRoot, Order, Served, SameLayout;
    OrderEntries(g, listen, conn, i, arr);
    var m: nat :| m < Expected(g, i) && arr[0] == InfoAt(g, listen, conn, i, m);
    forall j, l: nat | 0 <= j < |arr| && l < Expected(g, i) && arr[j] == InfoAt(g, listen, conn, i, l)
      ensures FitsPlan(g, i, arr[0], arr[j], l)
    {
      InfoFacts(g, listen, conn, i, l, m);
      InfoFacts(g, listen, conn, i, m, m);
    }
    assert FitsPlan(g, i, arr[0], arr[0], m);
    forall j | 0 <= j < |arr|
      ensures FromClient(arr[j]) && SameLayout(arr[0], arr[j]) && InRange(arr[0], arr[j])
    {
      var l: nat :| l < Expected(g, i) && arr[j] == InfoAt(g, listen, conn, i, l);
      assert FitsPlan(g, i, arr[0], arr[j], l);
    }
  }

  /** Info `e` has the layout of `head`, which gives it local id `l`. */
  ghost predicate FitsPlan(g: Config, i: int, head: ExtInfo, e: ExtInfo, l: nat)
    requires IsRoot(g, i)
  {
    && FromClient(head) && FromClient(e) && PlanOf(head) == Plan(Served(g, i), Expected(g, i), g.nRoots > 1)
    && LocalId(head, e) == l && SameLayout(head, e)
  }

  /** Every served rank's info is in `arr` once, and its local id is its index. */
  ghost predicate Gathered(g: Config, listen: seq<int>, conn: seq<int>, i: int, arr: seq<ExtInfo>) {
    && ValidConfig(g) && ValidTables(g, listen, conn) && IsRoot(g, i) && |arr| == Expected(g, i) && Distinct(arr)
    && (forall j :: 0 <= j < |arr| ==> exists l: nat :: l < Expected(g, i) && arr[j] == InfoAt(g, listen, conn, i, l))
    && (forall l :: 0 <= l < Expected(g, i) ==> InfoAt(g, listen, conn, i, l) in arr)
    && (forall j :: 0 <= j < |arr| ==> FromClient(arr[j])) && |arr| > 0 && AllInRange(arr[0], arr)
    && PlanOf(arr[0]) == Plan(Served(g, i), Expected(g, i), g.nRoots > 1)
    && (forall j, l: nat :: 0 <= j < |arr| && l < Expected(g, i) && arr[j] == InfoAt(g, listen, conn, i, l) ==>
          LocalId(arr[0], arr[j]) == l)
  }

  lemma GatheredAt(g: Config, listen: seq<int>, conn: seq<int>, i: int, arr: seq<ExtInfo>, j: nat) returns (l: nat)
    requires Gathered(g, listen, conn, i, arr) && j < |arr|
    ensures l < Expected(g, i) && arr[j] == InfoAt(g, listen, conn, i, l) && LocalId(arr[0], arr[j]) == l
    ensures arr[j].connectInfo != 0 && (l < Served(g, i) ==> arr[j].listenRootAddress != 0)
  {
    hide PlanOf, LocalId, NRankFromRoot, FirstRankFromRoot, Distinct;
    l :| l < Expected(g, i) && arr[j] == InfoAt(g, listen, conn, i, l);
  }

  lemma GatheredSeen(g: Config, listen: seq<int>, conn: seq<int>, i: int, arr: seq<ExtInfo>, l: nat)
    requires Gathered(g, listen, conn, i, arr) && l < Expected(g, i)
    ensures Seen(CheckIns(arr[0], arr), l)
  {
    hide PlanOf, LocalId, NRankFromRoot, FirstRankFromRoot, CheckIns, Distinct;
    var j :| 0 <= j < |arr| && arr[j] == InfoAt(g, listen, conn, i, l);
    assert CheckIns(arr[0], arr)[j].local == l;
  }

  lemma OrderIsFull(g: Config, listen: seq<int>, conn: seq<int>, i: int, arr: seq<ExtInfo>)
    requires Gathered(g, listen, conn, i, arr)
    ensures Full(PlanOf(arr[0]), CheckIns(arr[0], arr))
  {
    hide PlanOf, LocalId, NRankFromRoot, FirstRankFromRoot, CheckIns, InfoAt, Seen;
    var cs := CheckIns(arr[0], arr);
    forall j | 0 <= j < |cs| ensures Proper(PlanOf(arr[0]), cs[j]) && cs[j].local < Expected(g, i) {
      var _ := GatheredAt(g, listen, conn, i, arr, j);
    }
    forall a, b | 0 <= a < b < |cs| ensures cs[a].local != cs[b].local {
      var _ := GatheredAt(g, listen, conn, i, arr, a);
      var _ := GatheredAt(g, listen, conn, i, arr, b);
    }
    forall l | 0 <= l < Expected(g, i) ensures Seen(cs, l) {
      GatheredSeen(g, listen, conn, i, arr, l);
    }
  }

  // ---------------------------------------------------------------------------
  // The ring

  /** What root `i` sends when it has served the arrivals `arr`. */
  ghost function RootSent(arr: seq<ExtInfo>): seq<Message>
    requires arr != [] && FromClient(arr[0]) && AllInRange(arr[0], arr)
  {
    Collect(PlanOf(arr[0]), CheckIns(arr[0], arr)).sent
  }

  ghost function MessagesTo(ms: seq<Message>, a: int): seq<int> {
    if ms == [] then [] else MessagesTo(ms[..|ms| - 1], a) + if ms[|ms| - 1].to == a then [ms[|ms| - 1].info] else []
  }

  lemma {:induction false} OnlyMessage(ms: seq<Message>, a: int, k: nat)
    requires k < |ms| && ms[k].to == a
    requires forall m :: 0 <= m < |ms| && m != k ==> ms[m].to != a
    ensures MessagesTo(ms, a) == [ms[k].info]
    decreases |ms|
  {
    var front := ms[..|ms| - 1];
    if k == |ms| - 1 {
      NoMessage(front, a);
    } else {
      OnlyMessage(front, a, k);
    }
  }

  lemma {:induction false} NoMessage(ms: seq<Message>, a: int)
    requires forall m :: 0 <= m < |ms| ==> ms[m].to != a
    ensures MessagesTo(ms, a) == []
    decreases |ms|
  {
    if ms != [] { NoMessage(ms[..|ms| - 1], a); }
  }

  /** The `k`-th message of a root, with the ranks behind its two ends. */
  lemma MessageAt(g: Config, listen: seq<int>, conn: seq<int>, i: int, arr: seq<ExtInfo>, cs: seq<CheckIn>, w: nat)
    requires ValidConfig(g) && ValidTables(g, listen, conn) && IsRoot(g, i) && Order(g, listen, conn, i, arr)
    requires arr != [] && FromClient(arr[0]) && AllInRange(arr[0], arr) && cs == CheckIns(arr[0], arr)
    requires w < Expected(g, i) && Seen(cs, w)
    ensures cs[Arrival(cs, w)].addr == Address(g, listen, Owner(g, i, w)) && cs[Arrival(cs, w)].conn == conn[Owner(g, i, w)]
  {
    OrderIsRendezvous(g, listen, conn, i, arr);
    var j := Arrival(cs, w);
    var l: nat :| l < Expected(g, i) && arr[j] == InfoAt(g, listen, conn, i, l);
    assert l == w;
  }

  /** A root sends each rank of its block the successor's info once, and nobody else anything. */
  lemma OneRoot(g: Config, listen: seq<int>, conn: seq<int>, i: int, arr: seq<ExtInfo>, r: nat)
    requires ValidConfig(g) && ValidTables(g, listen, conn) && IsRoot(g, i) && Order(g, listen, conn, i, arr)
    requires r < g.nRanks
    requires arr != [] && FromClient(arr[0]) && AllInRange(arr[0], arr)
    ensures MessagesTo(RootSent(arr), Address(g, listen, r))
         == if First(g, i) <= r < First(g, i + 1) then [conn[(r + 1) % g.nRanks]] else []
  {
    var who := RootAnswers(g, listen, conn, i, arr);
    RouteOne(listen, conn, First(g, i), Served(g, i), RootSent(arr), who, r, Address(g, listen, r));
  }

  lemma RouteOne(listen: seq<int>, conn: seq<int>, first: int, served: int, sent: seq<Message>, who: seq<nat>, r: nat, address: int)
    requires ForRanks(listen, conn, first, served, sent, who)
    requires forall w: nat :: w in who <==> w < served
    requires r < |listen| && (first <= r < first + served ==> address == listen[r])
    requires forall q :: first <= q < first + served && q != r ==> listen[q] != address
    ensures MessagesTo(sent, address) == if first <= r < first + served then [conn[(r + 1) % |conn|]] else []
  {
    if first <= r < first + served {
      var w: nat := r - first;
      assert w in who;
      var k :| 0 <= k < |who| && who[k] == w;
      forall m | 0 <= m < |sent| && m != k ensures sent[m].to != address { assert who[m] != who[k]; }
      OnlyMessage(sent, address, k);
    } else {
      NoMessage(sent, address);
    }
  }

  lemma RootAnswers(g: Config, listen: seq<int>, conn: seq<int>, i: int, arr: seq<ExtInfo>) returns (who: seq<nat>)
    requires ValidConfig(g) && ValidTables(g, listen, conn) && IsRoot(g, i) && Order(g, listen, conn, i, arr)
    requires arr != [] && FromClient(arr[0]) && AllInRange(arr[0], arr)
    ensures ForRanks(listen, conn, First(g, i), Served(g, i), RootSent(arr), who)
    ensures forall w: nat :: w in who <==> w < Served(g, i)
  {
    hide FirstRankFromRoot, NRankFromRoot, Order, ValidTables, ValidConfig, PlanOf, Rendezvous, Full, Answered, CheckIns, AllInRange, FromClient;
    OrderIsRendezvous(g, listen, conn, i, arr);
    RendezvousFull(arr);
    var p, cs := PlanOf(arr[0]), CheckIns(arr[0], arr);
    who := EveryoneAnsweredOnce(p, cs);
    AnswersForRanks(g, listen, conn, i, arr, who);
  }

  lemma AnswersForRanks(g: Config, listen: seq<int>, conn: seq<int>, i: int, arr: seq<ExtInfo>, who: seq<nat>)
    requires ValidConfig(g) && ValidTables(g, listen, conn) && IsRoot(g, i) && Order(g, listen, conn, i, arr)
    requires arr != [] && FromClient(arr[0]) && AllInRange(arr[0], arr)
    requires PlanOf(arr[0]) == Plan(Served(g, i), Expected(g, i), g.nRoots > 1)
    requires Answered(PlanOf(arr[0]), CheckIns(arr[0], arr), RootSent(arr), who)
    ensures ForRanks(listen, conn, First(g, i), Served(g, i), RootSent(arr), who)
  {
    hide FirstRankFromRoot, NRankFromRoot, Order, ValidConfig, CheckIns, AllInRange, FromClient, RootSent, Arrival, Next, PlanOf;
    var p, cs, sent := PlanOf(arr[0]), CheckIns(arr[0], arr), RootSent(arr);
    forall k | 0 <= k < |who|
      ensures who[k] < Served(g, i) && sent[k].to == listen[First(g, i) + who[k]]
      ensures sent[k].info == conn[(First(g, i) + who[k] + 1) % g.nRanks]
    {
      assert Complete(p, cs, who[k]);
      MessageAt(g, listen, conn, i, arr, cs, who[k]);
      SuccessorOwner(g, i, p, who[k]);
      MessageAt(g, listen, conn, i, arr, cs, Next(p, who[k]));
    }
  }

  lemma RendezvousFull(arr: seq<ExtInfo>)
    requires (forall j :: 0 <= j < |arr| ==> FromClient(arr[j])) && Rendezvous(arr)
    ensures arr != [] && AllInRange(arr[0], arr) && Full(PlanOf(arr[0]), CheckIns(arr[0], arr))
  {
  }

  /** Message `k` goes to rank `first + who[k]` and carries its successor's info. */
  ghost predicate ForRanks(listen: seq<int>, conn: seq<int>, first: int, served: int, sent: seq<Message>, who: seq<nat>) {
    && 0 <= first && first + served <= |listen| == |conn|
    && |who| == |sent| && Distinct(who)
    && (forall k :: 0 <= k < |who| ==>
          && who[k] < served
          && sent[k].to == listen[first + who[k]]
          && sent[k].info == conn[(first + who[k] + 1) % |conn|])
  }

  lemma SuccessorOwner(g: Config, i: int, p: Plan, w: nat)
    requires ValidConfig(g) && IsRoot(g, i) && p == Plan(Served(g, i), Expected(g, i), g.nRoots > 1)
    requires WfPlan(p) && w < Served(g, i)
    ensures Next(p, w) < Expected(g, i)
    ensures Owner(g, i, Next(p, w)) == (First(g, i) + w + 1) % g.nRanks
    ensures Owner(g, i, w) == First(g, i) + w
  {
    NextOf(p, w);
    if !Stitched(g) && w + 1 == Served(g, i) {
      ModOfMultiple(1, g.nRanks);
      ModSmall(0, g.nRanks);
    }
  }

  /** One arrival order for every root. */
  ghost predicate Orders(g: Config, listen: seq<int>, conn: seq<int>, arrivals: seq<seq<ExtInfo>>)
    requires ValidConfig(g) && ValidTables(g, listen, conn)
  {
    |arrivals| == g.nRoots && forall i :: 0 <= i < g.nRoots ==> Order(g, listen, conn, i, arrivals[i])
  }

  lemma OrdersShape(g: Config, listen: seq<int>, conn: seq<int>, i: int, arr: seq<ExtInfo>)
    requires ValidConfig(g) && ValidTables(g, listen, conn) && IsRoot(g, i) && Order(g, listen, conn, i, arr)
    ensures arr != [] && FromClient(arr[0]) && AllInRange(arr[0], arr)
  {
    OrderIsRendezvous(g, listen, conn, i, arr);
  }

  /** What the first `n` roots send to address `a`. */
  ghost function FromRoots(g: Config, listen: seq<int>, conn: seq<int>, arrivals: seq<seq<ExtInfo>>, n: nat, a: int): seq<int>
    requires ValidConfig(g) && ValidTables(g, listen, conn) && Orders(g, listen, conn, arrivals) && n <= g.nRoots
    decreases n
  {
    if n == 0 then [] else
    OrdersShape(g, listen, conn, n - 1, arrivals[n - 1]);
    FromRoots(g, listen, conn, arrivals, n - 1, a) + MessagesTo(RootSent(arrivals[n - 1]), a)
  }

  /** The connection infos that ranks below `n` send to rank `r` over the parent's bootstrap. */
  ghost function FromParent(g: Config, conn: seq<int>, r: nat, n: nat): seq<int>
    requires n <= g.nRanks == |conn|
  {
    if n == 0 then [] else
    var q := n - 1;
    FromParent(g, conn, r, q) + if g.grow && q <= g.offset && q != 0 && q - 1 == r then [conn[q]] else []
  }

  lemma {:induction false} ParentMail(g: Config, conn: seq<int>, r: nat, n: nat)
    requires n <= g.nRanks == |conn|
    ensures FromParent(g, conn, r, n) == if g.grow && r < g.offset && r + 1 < n then [conn[r + 1]] else []
  {
    if n > 0 { ParentMail(g, conn, r, n - 1); }
  }

  lemma {:induction false} RootsMail(g: Config, listen: seq<int>, conn: seq<int>, arrivals: seq<seq<ExtInfo>>, r: nat, n: nat)
    requires ValidConfig(g) && ValidTables(g, listen, conn) && Orders(g, listen, conn, arrivals)
    requires r < g.nRanks && n <= g.nRoots
    ensures FromRoots(g, listen, conn, arrivals, n, Address(g, listen, r))
         == if g.offset <= r < First(g, n) then [conn[(r + 1) % g.nRanks]] else []
    decreases n
  {
    hide RootSent, MessagesTo, FirstRankFromRoot, NRankFromRoot, AllInRange, FromClient, Order, ValidTables;
    BlocksTile(0, g.nRanks, g.nRoots, g.offset);
    if n > 0 {
      RootsMail(g, listen, conn, arrivals, r, n - 1);
      OrdersShape(g, listen, conn, n - 1, arrivals[n - 1]);
      OneRoot(g, listen, conn, n - 1, arrivals[n - 1], r);
      var s := Served(g, n - 1);
    }
  }

  /** Every connection info that rank `r` receives. */
  ghost function Mail(g: Config, listen: seq<int>, conn: seq<int>, arrivals: seq<seq<ExtInfo>>, r: nat): seq<int>
    requires ValidConfig(g) && ValidTables(g, listen, conn) && Orders(g, listen, conn, arrivals) && r < g.nRanks
  {
    FromRoots(g, listen, conn, arrivals, g.nRoots, Address(g, listen, r)) + FromParent(g, conn, r, g.nRanks)
  }

  /** Every rank receives exactly one connection info, that of `(r + 1) mod nRanks`: from its
      root if it has one and over the parent's bootstrap otherwise.  This holds for every
      number of roots, every offset, and every order in which each root accepts check-ins. */
  lemma EveryRankLearnsItsSuccessor(g: Config, listen: seq<int>, conn: seq<int>, arrivals: seq<seq<ExtInfo>>, r: nat)
    requires ValidConfig(g) && ValidTables(g, listen, conn) && Orders(g, listen, conn, arrivals)
    requires r < g.nRanks
    ensures Mail(g, listen, conn, arrivals, r) == [conn[(r + 1) % g.nRanks]]
    ensures FromParent(g, conn, r, g.nRanks) != [] <==> r < g.offset
  {
    hide FromRoots, FromParent, FirstRankFromRoot, NRankFromRoot, Orders, LocalIdFromRoot;
    RootsMail(g, listen, conn, arrivals, r, g.nRoots);
    ParentMail(g, conn, r, g.nRanks);
    BlocksTile(0, g.nRanks, g.nRoots, g.offset);
    if r < g.offset { ModSmall(r + 1, g.nRanks); }
  }

  // ---------------------------------------------------------------------------
  // Following the next peers

  /** The rank that `r` connects to: the one whose connection info `r` was sent. */
  ghost function NextPeer(g: Config, listen: seq<int>, conn: seq<int>, arrivals: seq<seq<ExtInfo>>, r: nat): (q: nat)
    requires ValidConfig(g) && ValidTables(g, listen, conn) && Orders(g, listen, conn, arrivals) && r < g.nRanks
    ensures q < g.nRanks && Mail(g, listen, conn, arrivals, r) == [conn[q]]
  {
    EveryRankLearnsItsSuccessor(g, listen, conn, arrivals, r);
    var q: nat :| q < g.nRanks && Mail(g, listen, conn, arrivals, r) == [conn[q]];
    q
  }

  /** The rank reached from rank 0 over `k` such connections. */
  ghost function Follow(g: Config, listen: seq<int>, conn: seq<int>, arrivals: seq<seq<ExtInfo>>, k: nat): (r: nat)
    requires ValidConfig(g) && ValidTables(g, listen, conn) && Orders(g, listen, conn, arrivals)
    ensures r < g.nRanks
    decreases k
  {
    if k == 0 then 0 else NextPeer(g, listen, conn, arrivals, Follow(g, listen, conn, arrivals, k - 1))
  }

  lemma NextPeerIs(g: Config, listen: seq<int>, conn: seq<int>, arrivals: seq<seq<ExtInfo>>, r: nat)
    requires ValidConfig(g) && ValidTables(g, listen, conn) && Orders(g, listen, conn, arrivals) && r < g.nRanks
    requires Distinct(conn)
    ensures NextPeer(g, listen, conn, arrivals, r) == (r + 1) % g.nRanks
  {
    hide Orders, Mail, ValidConfig;
    EveryRankLearnsItsSuccessor(g, listen, conn, arrivals, r);
    var q, s := NextPeer(g, listen, conn, arrivals, r), (r + 1) % g.nRanks;
    assert [conn[q]][0] == [conn[s]][0];
  }

  lemma {:induction false} FollowIs(g: Config, listen: seq<int>, conn: seq<int>, arrivals: seq<seq<ExtInfo>>, k: nat)
    requires ValidConfig(g) && ValidTables(g, listen, conn) && Orders(g, listen, conn, arrivals) && Distinct(conn)
    ensures Follow(g, listen, conn, arrivals, k) == Place(k, g.nRanks)
    decreases k
  {
    hide Orders, NextPeer, ValidTables, ValidConfig, Distinct, Place;
    SomeRank(g);
    PlaceStep(k, g.nRanks);
    if k > 0 {
      FollowIs(g, listen, conn, arrivals, k - 1);
      NextPeerIs(g, listen, conn, arrivals, Follow(g, listen, conn, arrivals, k - 1));
    }
  }

  ghost function Place(k: nat, n: nat): nat
    requires n > 0
  {
    k % n
  }

  lemma PlaceStep(k: nat, n: nat)
    requires n > 0
    ensures Place(0, n) == 0 && (k > 0 ==> Place(k, n) == (Place(k - 1, n) + 1) % n)
  {
    ModSmall(0, n);
    if k > 0 { ModAdd(k - 1, 1, n); }
  }

  lemma SomeRank(g: Config)
    requires ValidConfig(g)
    ensures g.nRanks > 0
  {
  }

  /** The ranks met on the first `n` steps. */
  ghost function Met(g: Config, listen: seq<int>, conn: seq<int>, arrivals: seq<seq<ExtInfo>>, n: nat): (s: seq<int>)
    requires ValidConfig(g) && ValidTables(g, listen, conn) && Orders(g, listen, conn, arrivals)
    ensures |s| == n && forall k :: 0 <= k < n ==> s[k] == Follow(g, listen, conn, arrivals, k)
    decreases n
  {
    if n == 0 then [] else Met(g, listen, conn, arrivals, n - 1) + [Follow(g, listen, conn, arrivals, n - 1)]
  }

  /** One ring: following the peers that the ranks were told about, from rank 0, meets every
      rank exactly once and then returns. */
  lemma OneRing(g: Config, listen: seq<int>, conn: seq<int>, arrivals: seq<seq<ExtInfo>>)
    requires ValidConfig(g) && ValidTables(g, listen, conn) && Orders(g, listen, conn, arrivals) && Distinct(conn)
    ensures Permutation(Met(g, listen, conn, arrivals, g.nRanks))
    ensures Follow(g, listen, conn, arrivals, g.nRanks) == 0
  {
    hide Orders, Follow, Met, ValidConfig, ValidTables;
    var walk := Met(g, listen, conn, arrivals, g.nRanks);
    forall k | 0 <= k < g.nRanks ensures walk[k] == k {
      FollowIs(g, listen, conn, arrivals, k);
      ModSmall(k, g.nRanks);
    }
    forall x | 0 <= x < |walk| ensures x in walk { assert walk[x] == x; }
    FollowIs(g, listen, conn, arrivals, g.nRanks);
    SelfMod(g.nRanks);
  }

  lemma SelfMod(n: nat)
    requires n > 0
    ensures n % n == 0
  {
    DivModUnique(n, n, 1, 0);
  }
}
