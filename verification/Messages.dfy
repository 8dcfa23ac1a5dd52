/** Point-to-point bootstrap messages, told apart by peer and tag (src/bootstrap.cc). */
module Messages {

  datatype Option<T> = None | Some(value: T)

  datatype Key = Key(peer: int, tag: int)

  datatype Msg = Msg(key: Key, data: seq<int>)

  /** The messages of one (peer, tag), in order. */
  ghost function Sel(s: seq<Msg>, k: Key): seq<Msg> {
    if s == [] then []
    else Sel(s[..|s| - 1], k) + if s[|s| - 1].key == k then [s[|s| - 1]] else []
  }

  lemma {:induction false} SelConcat(a: seq<Msg>, b: seq<Msg>, k: Key)
    ensures Sel(a + b, k) == Sel(a, k) + Sel(b, k)
  {
    if b == [] {
      assert a + b == a;
    } else {
      var front := b[..|b| - 1];
      SelConcat(a, front, k);
      assert (a + b)[..|a + b| - 1] == a + front;
    }
  }

  lemma SelOne(m: Msg, k: Key)
    ensures Sel([m], k) == if m.key == k then [m] else []
  {
    assert [m][..0] == [];
  }

  lemma SelAppend(s: seq<Msg>, m: Msg, k: Key)
    ensures Sel(s + [m], k) == Sel(s, k) + if m.key == k then [m] else []
  {
    assert (s + [m])[..|s|] == s;
  }

  lemma {:induction false} SelNone(s: seq<Msg>, k: Key)
    requires forall i :: 0 <= i < |s| ==> s[i].key != k
    ensures Sel(s, k) == []
  {
    if s != [] { SelNone(s[..|s| - 1], k); }
  }

  ghost function Without(s: seq<Msg>, i: nat): seq<Msg>
    requires i < |s|
  {
    s[..i] + s[i + 1..]
  }

  /** Taking out the first message of its key shortens that key's list at the front and
      leaves all others. */
  lemma TakeFirst(s: seq<Msg>, i: nat, k: Key)
    requires i < |s| && forall j :: 0 <= j < i ==> s[j].key != s[i].key
    ensures Sel(s, k) == (if s[i].key == k then [s[i]] else []) + Sel(Without(s, i), k)
  {
    hide Sel;
    var a, b := s[..i], s[i + 1..];
    assert s == a + ([s[i]] + b);
    SelConcat(a, [s[i]] + b, k);
    SelConcat([s[i]], b, k);
    SelConcat(a, b, k);
    SelOne(s[i], k);
    if s[i].key == k { SelNone(a, k); }
  }
}
