/** Go's doubly linked list, as pointers: a root, two links for every element, and the list that an
    element says it belongs to. */
module ElementChain {
  import opened Options

  /** `None` is the root, and the target of a link that is nil. `owned` are the elements whose own
      `list` field names this list, whether or not they can be reached. */
  datatype Chain<T(==)> = Chain(next: map<Option<T>, Option<T>>, prev: map<Option<T>, Option<T>>, owned: set<T>, len: int)

  function Next<T>(c: Chain<T>, x: Option<T>): Option<T> { if x in c.next then c.next[x] else None }

  function Prev<T>(c: Chain<T>, x: Option<T>): Option<T> { if x in c.prev then c.prev[x] else None }

  function SetNext<T>(c: Chain<T>, x: Option<T>, y: Option<T>): (r: Chain<T>)
    ensures r.owned == c.owned && r.len == c.len
  {
    c.(next := c.next[x := y])
  }

  function SetPrev<T>(c: Chain<T>, x: Option<T>, y: Option<T>): (r: Chain<T>)
    ensures r.owned == c.owned && r.len == c.len
  {
    c.(prev := c.prev[x := y])
  }

  /** `list.New` and `Init`: the root's links and the length, nothing else. */
  function New<T>(): Chain<T> { Init(Chain(map[], map[], {}, 0)) }

  function Init<T>(c: Chain<T>): Chain<T> { SetPrev(SetNext(c, None, None), None, None).(len := 0) }

  function Front<T>(c: Chain<T>): Option<T> { if c.len == 0 then None else Next(c, None) }

  function Back<T>(c: Chain<T>): Option<T> { if c.len == 0 then None else Prev(c, None) }

  /** Bridges over `e`. */
  function Unlink<T>(c: Chain<T>, e: T): Chain<T> {
    var c' := SetNext(c, Prev(c, Some(e)), Next(c, Some(e)));
    SetPrev(c', Next(c', Some(e)), Prev(c', Some(e)))
  }

  /** Links `e` in behind `at`. */
  function LinkIn<T>(c: Chain<T>, e: T, at: Option<T>): Chain<T> {
    var c1 := SetPrev(c, Some(e), at);
    var c2 := SetNext(c1, Some(e), Next(c1, at));
    var c3 := SetNext(c2, Prev(c2, Some(e)), Some(e));
    SetPrev(c3, Next(c3, Some(e)), Some(e))
  }

  function PushBack<T>(c: Chain<T>, e: T): Chain<T> {
    var c' := LinkIn(c, e, Prev(c, None));
    c'.(owned := c'.owned + {e}, len := c'.len + 1)
  }

  function Remove<T>(c: Chain<T>, e: T): Chain<T> {
    if e !in c.owned then c
    else
      var c' := SetPrev(SetNext(Unlink(c, e), Some(e), None), Some(e), None);
      c'.(owned := c'.owned - {e}, len := c'.len - 1)
  }

  /** Goes by what the element says about itself, not by whether it can be reached. */
  function MoveToBack<T>(c: Chain<T>, e: T): Chain<T> {
    var at := Prev(c, None);
    if e !in c.owned || at == Some(e) then c else LinkIn(Unlink(c, e), e, at)
  }

  /** Place `i` of the ring: the root at both ends, the elements between. */
  function At<T>(s: seq<T>, i: int): Option<T> { if 0 < i <= |s| then Some(s[i - 1]) else None }

  predicate Link<T(==)>(c: Chain<T>, s: seq<T>, i: int) {
    Next(c, At(s, i)) == At(s, i + 1) && Prev(c, At(s, i + 1)) == At(s, i)
  }

  ghost predicate Once<T>(s: seq<T>) { forall i, j :: 0 <= i < j < |s| ==> s[i] != s[j] }

  /** The links form one ring through the root that visits exactly `s`. */
  ghost predicate Ring<T>(c: Chain<T>, s: seq<T>) {
    Once(s) && forall i {:trigger Link(c, s, i)} :: 0 <= i <= |s| ==> Link(c, s, i)
  }

  /** A link of an element left out of the ring leads to the root or to another such element. */
  ghost predicate Outside<T>(c: Chain<T>, s: seq<T>, x: Option<T>) {
    x.Some? ==> x.value in c.owned && x.value !in s
  }

  ghost predicate Stray<T>(c: Chain<T>, s: seq<T>, e: T) {
    e in c.owned && e !in s ==> Outside(c, s, Next(c, Some(e))) && Outside(c, s, Prev(c, Some(e)))
  }

  ghost predicate Represents<T>(c: Chain<T>, s: seq<T>) {
    && Ring(c, s) && c.len == |s|
    && (forall i :: 0 <= i < |s| ==> s[i] in c.owned)
    && (forall e :: e in c.owned ==> Stray(c, s, e))
  }

  lemma AtOnce<T>(s: seq<T>, i: int, j: int)
    requires Once(s) && 0 <= i <= |s| && 0 <= j <= |s| && i != j
    ensures At(s, i) != At(s, j)
  {
  }

  lemma Ends<T>(c: Chain<T>, s: seq<T>)
    requires Ring(c, s)
    ensures Next(c, None) == At(s, 1) && Prev(c, None) == At(s, |s|)
  {
    assert Link(c, s, 0) && Link(c, s, |s|);
  }

  function Without<T>(s: seq<T>, i: nat): (r: seq<T>)
    requires i < |s|
    ensures |r| == |s| - 1
    ensures forall k :: 0 <= k <= |s| ==> At(r, k) == if k <= i then At(s, k) else At(s, k + 1)
  {
    s[..i] + s[i + 1..]
  }

  lemma LinkIs<T>(c: Chain<T>, s: seq<T>, i: int)
    requires Ring(c, s) && 0 <= i <= |s|
    ensures Next(c, At(s, i)) == At(s, i + 1) && Prev(c, At(s, i + 1)) == At(s, i)
  {
    assert Link(c, s, i);
  }

  /** What bridging over place `i` does to the links. */
  lemma UnlinkIs<T>(c: Chain<T>, s: seq<T>, i: nat)
    requires Ring(c, s) && i < |s|
    ensures var r := Unlink(c, s[i]);
      && r.owned == c.owned && r.len == c.len
      && (forall z :: Next(r, z) == if z == At(s, i) then At(s, i + 2) else Next(c, z))
      && (forall z :: Prev(r, z) == if z == At(s, i + 2) then At(s, i) else Prev(c, z))
  {
    LinkIs(c, s, i);
    LinkIs(c, s, i + 1);
    AtOnce(s, i, i + 1);
  }

  lemma Bridge<T>(c: Chain<T>, s: seq<T>, i: nat, k: nat)
    requires Ring(c, s) && i < |s| && k < |s|
    requires Next(c, At(s, k)) == At(s, k + 1) && Prev(c, At(s, k + 1)) == At(s, k)
    requires Next(c, At(s, k + 1)) == At(s, k + 2) && Prev(c, At(s, k + 2)) == At(s, k + 1)
    ensures Link(Unlink(c, s[i]), Without(s, i), k)
  {
    hide Without, Unlink;
    UnlinkIs(c, s, i);
    Distinguish(s, i, k);
  }

  /** Places are told apart by their number, the two ends being the same. */
  lemma Distinguish<T>(s: seq<T>, i: nat, k: nat)
    requires Once(s) && i < |s| && k < |s|
    ensures k < i ==> At(s, k) != At(s, i) && At(s, k + 1) != At(s, i + 2)
    ensures k > i ==> At(s, k + 1) != At(s, i) && At(s, k + 2) != At(s, i + 2)
  {
  }

  /** Bridging over an element takes it out of the ring. */
  lemma UnlinkRing<T>(c: Chain<T>, s: seq<T>, i: nat)
    requires Ring(c, s) && i < |s|
    ensures Ring(Unlink(c, s[i]), Without(s, i))
  {
    var r := Without(s, i);
    assert Once(r);
    forall k {:trigger Link(Unlink(c, s[i]), r, k)} | 0 <= k <= |r| ensures Link(Unlink(c, s[i]), r, k) {
      LinkIs(c, s, k);
      LinkIs(c, s, k + 1);
      Bridge(c, s, i, k);
    }
  }

  /** Linking in behind the last element appends. */
  lemma LinkInRing<T>(c: Chain<T>, s: seq<T>, e: T)
    requires Ring(c, s) && e !in s
    ensures Ring(LinkIn(c, e, At(s, |s|)), s + [e])
  {
    var r, at := s + [e], At(s, |s|);
    var c' := LinkIn(c, e, at);
    LinkInIs(c, s, e);
    hide LinkIn;
    forall k {:trigger Link(c', r, k)} | 0 <= k <= |r| ensures Link(c', r, k) {
      assert k <= |s| ==> At(r, k) == At(s, k);
      if k < |s| {
        LinkIs(c, s, k);
        AtOnce(s, k, |s|);
      }
    }
  }

  lemma LinkInIs<T>(c: Chain<T>, s: seq<T>, e: T)
    requires Ring(c, s) && e !in s
    ensures var at := At(s, |s|);
      var r := LinkIn(c, e, at);
      && r.owned == c.owned && r.len == c.len
      && (forall z :: Next(r, z) == if z == at then Some(e) else if z == Some(e) then None else Next(c, z))
      && (forall z :: Prev(r, z) == if z == None then Some(e) else if z == Some(e) then at else Prev(c, z))
  {
    LinkIs(c, s, |s|);
  }

  // ---------- the operations ----------

  lemma InitRepresents<T>(c: Chain<T>, s: seq<T>)
    requires Represents(c, s)
    ensures Represents(Init(c), []) && Init(c).owned == c.owned
  {
    var none: seq<T> := [];
    var c' := Init(c);
    assert Link(c', none, 0);
    forall e | e in c.owned ensures Stray(c', none, e) {
      assert Stray(c, s, e);
      if i :| 0 <= i < |s| && s[i] == e {
        LinkIs(c, s, i);
        LinkIs(c, s, i + 1);
        assert At(s, i + 1) == Some(e);
      }
    }
  }

  lemma NewRepresents<T>()
    ensures Represents(New<T>(), [])
  {
    var c: Chain<T> := Chain(map[], map[], {}, 0);
    var none: seq<T> := [];
    assert Link(Init(c), none, 0);
  }

  lemma PushBackRepresents<T>(c: Chain<T>, s: seq<T>, e: T)
    requires Represents(c, s) && e !in c.owned
    ensures Represents(PushBack(c, e), s + [e]) && PushBack(c, e).owned == c.owned + {e}
  {
    Ends(c, s);
    LinkInRing(c, s, e);
    LinkInIs(c, s, e);
    var c', r := PushBack(c, e), s + [e];
    RingOf(LinkIn(c, e, At(s, |s|)), c', r);
    forall d | d in c'.owned ensures Stray(c', r, d) {
      assert d != e ==> Stray(c, s, d);
      assert At(s, |s|).Some? ==> At(s, |s|).value in s;
    }
  }

  /** Only the links matter for the ring. */
  lemma RingOf<T>(c: Chain<T>, c': Chain<T>, s: seq<T>)
    requires Ring(c, s) && c'.next == c.next && c'.prev == c.prev
    ensures Ring(c', s)
  {
    forall i {:trigger Link(c', s, i)} | 0 <= i <= |s| ensures Link(c', s, i) {
      LinkIs(c, s, i);
    }
  }

  lemma RemoveRepresents<T>(c: Chain<T>, s: seq<T>, i: nat)
    requires Represents(c, s) && i < |s|
    ensures Represents(Remove(c, s[i]), Without(s, i)) && Remove(c, s[i]).owned == c.owned - {s[i]}
  {
    var e, r, c' := s[i], Without(s, i), Remove(c, s[i]);
    UnlinkRing(c, s, i);
    UnlinkIs(c, s, i);
    WithoutHas(s, i);
    forall k {:trigger Link(c', r, k)} | 0 <= k <= |r| ensures Link(c', r, k) {
      LinkIs(Unlink(c, e), r, k);
      AtHas(r, k);
      AtHas(r, k + 1);
    }
    forall d | d in c'.owned ensures Stray(c', r, d) {
      assert Stray(c, s, d);
      AtHas(s, i);
      AtHas(s, i + 2);
    }
  }

  lemma AtHas<T>(s: seq<T>, i: int)
    ensures At(s, i).Some? ==> At(s, i).value in s
  {
  }

  lemma WithoutHas<T>(s: seq<T>, i: nat)
    requires Once(s) && i < |s|
    ensures forall e :: e in Without(s, i) <==> e in s && e != s[i]
  {
    var r := Without(s, i);
    assert s == s[..i] + [s[i]] + s[i + 1..];
    forall e ensures e in r <==> e in s && e != s[i] {
      assert e in r <==> e in s[..i] || e in s[i + 1..];
    }
  }

  /** On an element of the ring, `MoveToBack` is move-to-back. */
  lemma MoveToBackRepresents<T>(c: Chain<T>, s: seq<T>, i: nat)
    requires Represents(c, s) && i < |s|
    ensures Represents(MoveToBack(c, s[i]), Without(s, i) + [s[i]]) && MoveToBack(c, s[i]).owned == c.owned
  {
    var e, r := s[i], Without(s, i);
    Ends(c, s);
    if i == |s| - 1 {
      assert r + [e] == s;
    } else {
      MoveInner(c, s, i);
    }
  }

  lemma MoveInner<T>(c: Chain<T>, s: seq<T>, i: nat)
    requires Represents(c, s) && i < |s| - 1
    ensures Represents(MoveToBack(c, s[i]), Without(s, i) + [s[i]]) && MoveToBack(c, s[i]).owned == c.owned
  {
    var e, r, u, c' := s[i], Without(s, i), Unlink(c, s[i]), MoveToBack(c, s[i]);
    Ends(c, s);
    UnlinkRing(c, s, i);
    UnlinkIs(c, s, i);
    WithoutHas(s, i);
    AtOnce(s, |s|, i + 1);
    assert At(r, |r|) == At(s, |s|);
    LinkInRing(u, r, e);
    LinkInIs(u, r, e);
    forall d | d in c'.owned ensures Stray(c', r + [e], d) {
      assert Stray(c, s, d);
      AtHas(s, i);
      AtHas(s, i + 2);
      AtHas(s, |s|);
    }
  }

  /** On an element that says so but is not in the ring, it becomes the back of a list that is not
      empty, and no order that leaves it out is represented any more. */
  lemma MoveToBackStray<T>(c: Chain<T>, s: seq<T>, e: T)
    requires Represents(c, s) && e in c.owned && e !in s && s != []
    ensures Prev(MoveToBack(c, e), None) == Some(e)
    ensures forall r :: e !in r ==> !Represents(MoveToBack(c, e), r)
  {
    var c' := MoveToBack(c, e);
    Ends(c, s);
    LinkIs(c, s, |s|);
    assert Stray(c, s, e);
    var at := At(s, |s|);
    AtHas(s, |s|);
    assert Next(c, at) == None;
    assert Next(Unlink(c, e), at) == None;
    assert Prev(c', None) == Some(e);
    forall r | e !in r ensures !Represents(c', r) {
      if Represents(c', r) {
        Ends(c', r);
        AtHas(r, |r|);
        assert false;
      }
    }
  }

  lemma FrontIs<T>(c: Chain<T>, s: seq<T>)
    requires Represents(c, s)
    ensures Front(c) == At(s, 1) && (c.len > 0 <==> s != [])
  {
    Ends(c, s);
  }

  // ---------- keeping account of the elements that `Init` left behind ----------

  /** The ring is `s`; besides its elements, exactly the `strays` say that they belong to the list. */
  ghost predicate Keeps<T>(c: Chain<T>, s: seq<T>, strays: set<T>) {
    && Represents(c, s) && strays <= c.owned
    && (forall e :: e in c.owned ==> e in s || e in strays)
    && (forall i :: 0 <= i < |s| ==> s[i] !in strays)
  }

  lemma KeepsMove<T>(c: Chain<T>, s: seq<T>, strays: set<T>, i: nat)
    requires Keeps(c, s, strays) && i < |s|
    ensures Keeps(MoveToBack(c, s[i]), Without(s, i) + [s[i]], strays)
  {
    MoveToBackRepresents(c, s, i);
    WithoutHas(s, i);
    hide MoveToBack, Represents, Without;
    var r := Without(s, i);
    forall k | 0 <= k < |r| ensures r[k] !in strays {
      assert r[k] in s;
    }
  }

  lemma KeepsRemove<T>(c: Chain<T>, s: seq<T>, strays: set<T>, i: nat)
    requires Keeps(c, s, strays) && i < |s|
    ensures Keeps(Remove(c, s[i]), Without(s, i), strays)
  {
    RemoveRepresents(c, s, i);
    WithoutHas(s, i);
    hide Remove, Represents, Without;
    var r := Without(s, i);
    forall k | 0 <= k < |r| ensures r[k] !in strays {
      assert r[k] in s;
    }
  }

  lemma KeepsPush<T>(c: Chain<T>, s: seq<T>, strays: set<T>, e: T)
    requires Keeps(c, s, strays) && e !in c.owned
    ensures Keeps(PushBack(c, e), s + [e], strays)
  {
    PushBackRepresents(c, s, e);
    hide PushBack, Represents;
  }

  /** `Init` turns every element of the ring into a stray. */
  lemma KeepsInit<T>(c: Chain<T>, s: seq<T>, strays: set<T>)
    requires Keeps(c, s, strays)
    ensures Keeps(Init(c), [], strays + set e | e in s)
  {
    InitRepresents(c, s);
    hide Init, Represents;
  }

  /** A stray that is moved to the back of a list that is not empty spoils it: no order without the
      stray is what the links say. */
  lemma StraySpoils<T>(c: Chain<T>, s: seq<T>, strays: set<T>, e: T)
    requires Keeps(c, s, strays) && e in strays && s != []
    ensures Prev(MoveToBack(c, e), None) == Some(e)
    ensures forall r :: e !in r ==> !Represents(MoveToBack(c, e), r)
  {
    assert e !in s;
    MoveToBackStray(c, s, e);
  }

  lemma ForeignHarmless<T>(c: Chain<T>, s: seq<T>, strays: set<T>, e: T)
    requires Keeps(c, s, strays) && e !in strays && e !in s
    ensures MoveToBack(c, e) == c
  {
  }

  /** One element pushed, the list cleared, another one pushed and the first one moved to the back: the
      length is 1, the back is the cleared element, and the front is the root, which holds no value. */
  lemma ClearedElementSpoils<T>(a: T, b: T)
    requires a != b
    ensures var c := MoveToBack(PushBack(Init(PushBack(New<T>(), a)), b), a);
      c.len == 1 && Back(c) == Some(a) && Front(c) == None
  {
  }
}
