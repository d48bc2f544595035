/** One level of one bucket: slots in pre-allocated arrays, threaded on a `Links` ring, with a map
    from keys to slots. */
module Lru2Cache {
  import opened Options
  import opened Recency
  import opened Ring

  /** The entry in slot `x`. */
  function At<V>(m: seq<Node<V>>, x: int): Node<V>
    requires 1 <= x <= |m|
  {
    m[x - 1]
  }

  /** The entries stored in the slots `s`. */
  ghost function Entries<V>(s: seq<uint16>, m: seq<Node<V>>): (r: seq<Node<V>>)
    requires forall i :: 0 <= i < |s| ==> 1 <= s[i] <= |m|
    ensures |r| == |s| && forall i :: 0 <= i < |s| ==> r[i] == At(m, s[i])
  {
    seq(|s|, i requires 0 <= i < |s| => At(m, s[i]))
  }

  // ---------- the map and the entries ----------

  /** `hmap` is a bijection between the stored keys and the slots in use. */
  ghost predicate Mapped<V>(hmap: map<Key, uint16>, last: int, m: seq<Node<V>>) {
    && 0 <= last <= |m|
    && (forall k :: k in hmap ==> 1 <= hmap[k] <= last && At(m, hmap[k]).k == k)
    && (forall x :: 1 <= x <= last ==> At(m, x).k in hmap && hmap[At(m, x).k] == x)
  }

  lemma EntriesDistinct<V>(s: seq<uint16>, last: int, hmap: map<Key, uint16>, m: seq<Node<V>>)
    requires Slots(s, last) && Mapped(hmap, last, m)
    ensures Distinct(Entries(s, m))
  {
    var e := Entries(s, m);
    forall i, j | 0 <= i < j < |e|
      ensures e[i].k != e[j].k
    {
      assert hmap[At(m, s[i]).k] == s[i] && hmap[At(m, s[j]).k] == s[j];
      if s[i] == s[j] { Same(s, i, j); }
    }
  }

  lemma MapMisses<V>(s: seq<uint16>, last: int, hmap: map<Key, uint16>, m: seq<Node<V>>, key: Key)
    requires Slots(s, last) && Mapped(hmap, last, m) && key !in hmap
    ensures !Has(Entries(s, m), key)
  {
    var e := Entries(s, m);
    forall i | 0 <= i < |e|
      ensures e[i].k != key
    {
      assert At(m, s[i]).k in hmap;
    }
  }

  /** The map finds the slot of the entry of a key. */
  lemma MapFinds<V>(s: seq<uint16>, last: int, hmap: map<Key, uint16>, m: seq<Node<V>>, key: Key)
    requires Slots(s, last) && Mapped(hmap, last, m) && key in hmap
    ensures hmap[key] in s
    ensures var e, j := Entries(s, m), Position(s, hmap[key]);
         && e[j] == At(m, hmap[key]) && e[j].k == key
         && Lookup(e, key) == Some(e[j]) && TakenOut(e, j, Without(e, key))
  {
    var x := hmap[key];
    var e, j := Entries(s, m), Position(s, x);
    EntriesDistinct(s, last, hmap, m);
    assert TakenOut(e, j, Without(e, key)) by { WithoutAt(e, j); }
    assert Lookup(e, key) == Some(e[j]) by { LookupAt(e, j); }
  }

  /** `m'` holds the entries of `m`, except perhaps in slot `x`. */
  ghost predicate Rewritten<V>(m: seq<Node<V>>, m': seq<Node<V>>, x: int) {
    |m'| == |m| && forall y :: 1 <= y <= |m| && y != x ==> At(m', y) == At(m, y)
  }

  /** `r` is `e` without its entry at place `j`. */
  ghost predicate TakenOut<V>(e: seq<Node<V>>, j: nat, r: seq<Node<V>>) {
    && j < |e| && |r| == |e| - 1
    && (forall k {:trigger r[k]} :: 0 <= k < j ==> r[k] == e[k])
    && (forall k {:trigger r[k]} :: j <= k < |r| ==> r[k] == e[k + 1])
  }

  /** Moving a slot and rewriting its entry moves and rewrites the entry. */
  lemma EntriesFront<V>(s: seq<uint16>, m: seq<Node<V>>, m': seq<Node<V>>, x: uint16, rest: seq<Node<V>>)
    requires (forall i :: 0 <= i < |s| ==> 1 <= s[i] <= |m|) && Once(s) && x in s && Rewritten(m, m', x)
    requires TakenOut(Entries(s, m), Position(s, x), rest)
    ensures forall i :: 0 <= i < |s| ==> 1 <= ToFront(s, x)[i] <= |m|
    ensures Entries(ToFront(s, x), m') == [At(m', x)] + rest
  {
    var j, r := Position(s, x), ToFront(s, x);
    forall i | 0 <= i < |s|
      ensures 1 <= r[i] <= |m| && At(m', r[i]) == ([At(m', x)] + rest)[i]
    {
      if 0 < i {
        var k := if i <= j then i - 1 else i;
        assert r[i] == s[k] && rest[i - 1] == Entries(s, m)[k];
        assert s[k] != x by { assert Position(s, s[k]) == k; }
      }
    }
  }

  lemma EntriesBack<V>(s: seq<uint16>, m: seq<Node<V>>, m': seq<Node<V>>, x: uint16, rest: seq<Node<V>>)
    requires (forall i :: 0 <= i < |s| ==> 1 <= s[i] <= |m|) && Once(s) && x in s && Rewritten(m, m', x)
    requires TakenOut(Entries(s, m), Position(s, x), rest)
    ensures forall i :: 0 <= i < |s| ==> 1 <= ToBack(s, x)[i] <= |m|
    ensures Entries(ToBack(s, x), m') == rest + [At(m', x)]
  {
    var j, r := Position(s, x), ToBack(s, x);
    forall i | 0 <= i < |s|
      ensures 1 <= r[i] <= |m| && At(m', r[i]) == (rest + [At(m', x)])[i]
    {
      if i < |s| - 1 {
        var k := if i < j then i else i + 1;
        assert r[i] == s[k] && rest[i] == Entries(s, m)[k];
        assert s[k] != x by { assert Position(s, s[k]) == k; }
      }
    }
  }

  lemma MappedOverwrite<V>(hmap: map<Key, uint16>, last: int, m: seq<Node<V>>, n: Node<V>)
    requires Mapped(hmap, last, m) && n.k in hmap
    ensures Mapped(hmap, last, m[hmap[n.k] - 1 := n])
  {
    var m' := m[hmap[n.k] - 1 := n];
    assert forall y :: 1 <= y <= last ==> At(m', y) == if y == hmap[n.k] then n else At(m, y);
  }

  /** `e` is the recency list that the slots `s`, the map and the entries represent. */
  ghost predicate Stores<V>(s: seq<uint16>, last: int, hmap: map<Key, uint16>, m: seq<Node<V>>, e: seq<Node<V>>) {
    && Slots(s, last) && Mapped(hmap, last, m)
    && e == Entries(s, m)
  }

  lemma OverwriteRefines<V>(s: seq<uint16>, last: int, hmap: map<Key, uint16>, m: seq<Node<V>>, e: seq<Node<V>>,
                            n: Node<V>)
    requires Stores(s, last, hmap, m, e) && n.k in hmap
    ensures hmap[n.k] in s && 1 <= hmap[n.k] <= |m| && m[hmap[n.k] - 1].k == n.k
    ensures Stores(ToFront(s, hmap[n.k]), last, hmap, m[hmap[n.k] - 1 := n], Put(e, |m|, n))
  {
    MappedOverwrite(hmap, last, m, n);
    MapFinds(s, last, hmap, m, n.k);
    SlotsMoved(s, last, hmap[n.k]);
    EntriesFront(s, m, m[hmap[n.k] - 1 := n], hmap[n.k], Without(e, n.k));
  }

  /** The tail slot is taken over by a key that is not there. */
  lemma MappedReplace<V>(hmap: map<Key, uint16>, last: int, m: seq<Node<V>>, x: uint16, n: Node<V>)
    requires Mapped(hmap, last, m) && 1 <= x <= last && n.k !in hmap
    ensures Mapped((hmap - {At(m, x).k})[n.k := x], last, m[x - 1 := n])
  {
    var m' := m[x - 1 := n];
    assert forall y :: 1 <= y <= last ==> At(m', y) == if y == x then n else At(m, y);
  }

  lemma ReplaceRefines<V>(s: seq<uint16>, hmap: map<Key, uint16>, m: seq<Node<V>>, e: seq<Node<V>>, n: Node<V>)
    requires Stores(s, |m|, hmap, m, e) && n.k !in hmap && |m| > 0
    ensures |s| == |m| && s[|m| - 1] in s && 1 <= s[|m| - 1] <= |m|
    ensures var x := s[|m| - 1];
      Stores(ToFront(s, x), |m|, (hmap - {m[x - 1].k})[n.k := x], m[x - 1 := n], Put(e, |m|, n))
    ensures Evicts(e, |m|, n.k) == if m[s[|m| - 1] - 1].Live() then Some(m[s[|m| - 1] - 1]) else None
  {
    var x := s[|m| - 1];
    assert m[x - 1] == At(m, x);
    MappedReplace(hmap, |m|, m, x, n);
    MapMisses(s, |m|, hmap, m, n.k);
    SlotsMoved(s, |m|, x);
    assert Position(s, s[|m| - 1]) == |m| - 1;
    EntriesFront(s, m, m[x - 1 := n], x, e[..|m| - 1]);
  }

  /** The next unused slot takes a key that is not there. */
  lemma MappedAppend<V>(hmap: map<Key, uint16>, x: uint16, m: seq<Node<V>>, n: Node<V>)
    requires 0 < x <= |m| && Mapped(hmap, x - 1, m) && n.k !in hmap
    ensures Mapped(hmap[n.k := x], x, m[x - 1 := n])
  {
    var m' := m[x - 1 := n];
    assert forall y :: 1 <= y <= x ==> At(m', y) == if y == x then n else At(m, y);
  }

  lemma EntriesPush<V>(s: seq<uint16>, m: seq<Node<V>>, m': seq<Node<V>>, x: uint16)
    requires (forall i :: 0 <= i < |s| ==> 1 <= s[i] < x) && 1 <= x <= |m| && Rewritten(m, m', x)
    ensures forall i :: 0 <= i <= |s| ==> 1 <= ([x] + s)[i] <= |m|
    ensures Entries([x] + s, m') == [At(m', x)] + Entries(s, m)
  {
    var r := [x] + s;
    forall i | 0 <= i < |r|
      ensures 1 <= r[i] <= |m| && At(m', r[i]) == ([At(m', x)] + Entries(s, m))[i]
    {
      if 0 < i { assert r[i] == s[i - 1]; }
    }
  }

  lemma MapEmpty<V>(s: seq<uint16>, hmap: map<Key, uint16>, m: seq<Node<V>>, e: seq<Node<V>>)
    requires Stores(s, |s|, hmap, m, e)
    ensures |hmap| == 0 <==> s == []
  {
    if s != [] { assert At(m, 1).k in hmap; }
  }

  lemma AppendRefines<V>(s: seq<uint16>, hmap: map<Key, uint16>, m: seq<Node<V>>, e: seq<Node<V>>, n: Node<V>)
    requires |s| < |m| < 0x1_0000 && Stores(s, |s|, hmap, m, e) && n.k !in hmap
    ensures var x := |s| + 1;
      Stores([x] + s, x, hmap[n.k := x], m[x - 1 := n], Put(e, |m|, n))
  {
    var x: uint16 := |s| + 1;
    MappedAppend(hmap, x, m, n);
    MapMisses(s, |s|, hmap, m, n.k);
    SlotsPush(s, x);
    EntriesPush(s, m, m[x - 1 := n], x);
  }

  lemma TouchRefines<V>(s: seq<uint16>, last: int, hmap: map<Key, uint16>, m: seq<Node<V>>, e: seq<Node<V>>, key: Key)
    requires Stores(s, last, hmap, m, e)
    ensures |e| == last && (Has(e, key) <==> key in hmap)
    ensures key !in hmap ==> Touch(e, key) == e
    ensures key in hmap ==> hmap[key] in s && 1 <= hmap[key] <= |m|
    ensures Lookup(e, key) == if key in hmap then Some(m[hmap[key] - 1]) else None
    ensures key in hmap ==>
      Stores(ToFront(s, hmap[key]), last, hmap, m, Touch(e, key))
  {
    if key in hmap {
      var x := hmap[key];
      MapFinds(s, last, hmap, m, key);
      SlotsMoved(s, last, x);
      EntriesFront(s, m, m, x, Without(e, key));
    } else {
      MapMisses(s, last, hmap, m, key);
    }
  }

  /** What `del` returns. */
  ghost predicate Buried<V>(e: seq<Node<V>>, key: Key, r: Option<Node<V>>, deadline: int) {
    match LiveAt(e, key)
    case Some(x) => r == Some(x.(expireAt := 0)) && deadline == x.expireAt
    case None => r == None && deadline == 0
  }

  lemma BuryFound<V>(s: seq<uint16>, last: int, hmap: map<Key, uint16>, m: seq<Node<V>>, e: seq<Node<V>>, key: Key)
    requires Stores(s, last, hmap, m, e) && key in hmap
    ensures 1 <= hmap[key] <= |m|
    ensures var x := hmap[key]; var n := m[x - 1].(expireAt := 0);
      && x in s && Lookup(e, key) == Some(m[x - 1])
      && Stores(ToBack(s, x), last, hmap, m[x - 1 := n], Without(e, key) + [n])
  {
    var x := hmap[key];
    var n := At(m, x).(expireAt := 0);
    MapFinds(s, last, hmap, m, key);
    MappedOverwrite(hmap, last, m, n);
    assert Slots(ToBack(s, x), last) by {
      SeenLinked(s, last, x, false);
      assert MovedTo(s, x, false) == ToBack(s, x);
    }
    EntriesBack(s, m, m[x - 1 := n], x, Without(e, key));
  }

  lemma BuryRefines<V>(s: seq<uint16>, last: int, hmap: map<Key, uint16>, m: seq<Node<V>>, e: seq<Node<V>>, key: Key)
    requires Stores(s, last, hmap, m, e)
    ensures key in hmap ==> 1 <= hmap[key] <= |m|
    ensures key !in hmap || !m[hmap[key] - 1].Live() ==> Bury(e, key) == e && Buried(e, key, None, 0)
    ensures key in hmap && m[hmap[key] - 1].Live() ==>
      var x := hmap[key]; var n := m[x - 1].(expireAt := 0);
      && x in s && Buried(e, key, Some(n), m[x - 1].expireAt)
      && Stores(ToBack(s, x), last, hmap, m[x - 1 := n], Bury(e, key))
  {
    hide Stores, Slots;
    if key in hmap {
      BuryFound(s, last, hmap, m, e, key);
    } else {
      assert !Has(e, key) by { TouchRefines(s, last, hmap, m, e, key); }
    }
  }

  lemma StoredAt<V>(s: seq<uint16>, last: int, hmap: map<Key, uint16>, m: seq<Node<V>>, e: seq<Node<V>>, i: nat)
    requires Stores(s, last, hmap, m, e) && i <= |s|
    ensures |e| == |s|
    ensures i < |s| ==> 1 <= s[i] <= |m| && e[i] == m[s[i] - 1]
  {
    if i < |s| { assert e[i] == At(m, s[i]); }
  }

  class Cache<V(0)> {
    const dlnk: Links
    const m: array<Node<V>>
    var hmap: map<Key, uint16>
    var last: uint16
    /** The recency list the arrays represent. */
    ghost var contents: seq<Node<V>>

    ghost predicate Valid()
      reads Footprint()
    {
      && 0 < m.Length < 65535
      && dlnk.Valid() && dlnk.succ.Length == m.Length + 1
      && |dlnk.order| == last
      && Stores(dlnk.order, last, hmap, m[..], contents)
    }

    ghost function Footprint(): set<object> { {this, m, dlnk, dlnk.pred, dlnk.succ} }

    constructor (cap: uint16, zero: V)
      requires 0 < cap < 65535
      ensures Valid() && fresh(Footprint())
      ensures m.Length == cap && contents == []
    {
      dlnk := new Links(cap + 1);
      m := new Node<V>[cap](i => Node([], zero, 0));
      hmap := map[];
      last := 0;
      contents := [];
    }

    /** `put` on a key that is there. */
    method Overwrite(key: Key, val: V, expireAt: int)
      requires Valid() && key in hmap
      modifies Footprint()
      ensures Valid()
      ensures contents == Recency.Put(old(contents), m.Length, Node(key, val, expireAt))
    {
      hide Stores, Slots, Linked;
      var idx := hmap[key];
      ghost var s, ms, n := dlnk.order, m[..], Node(key, val, expireAt);
      OverwriteRefines(s, last, hmap, ms, contents, n);
      contents := Recency.Put(contents, m.Length, n);
      m[idx - 1] := m[idx - 1].(v := val, expireAt := expireAt);
      ghost var ms' := ms[idx - 1 := n];
      assert m[..] == ms';
      dlnk.Refresh(idx);
      assert m[..] == ms';
    }

    /** `put` of a new key when no slot is free: the tail slot is taken over. */
    method Replace(key: Key, val: V, expireAt: int) returns (evicted: Option<Node<V>>)
      requires Valid() && key !in hmap && last == m.Length
      modifies Footprint()
      ensures Valid()
      ensures contents == Recency.Put(old(contents), m.Length, Node(key, val, expireAt))
      ensures evicted == Evicts(old(contents), m.Length, key)
    {
      hide Stores, Slots;
      ghost var s, ms, n := dlnk.order, m[..], Node(key, val, expireAt);
      ReplaceRefines(s, hmap, ms, contents, n);
      contents := Recency.Put(contents, m.Length, n);
      var tail := dlnk.pred[0];
      assert tail == s[|s| - 1];
      evicted := if m[tail - 1].expireAt > 0 then Some(m[tail - 1]) else None;
      hmap := (hmap - {m[tail - 1].k})[key := tail];
      m[tail - 1] := Node(key, val, expireAt);
      ghost var ms' := ms[tail - 1 := n];
      assert m[..] == ms';
      dlnk.Refresh(tail);
      assert m[..] == ms';
    }

    /** `put` of a new key into the next unused slot. */
    method Append(key: Key, val: V, expireAt: int)
      requires Valid() && key !in hmap && last < m.Length
      modifies Footprint()
      ensures Valid()
      ensures contents == Recency.Put(old(contents), m.Length, Node(key, val, expireAt))
    {
      hide Stores, Slots, Linked;
      ghost var s, ms, n := dlnk.order, m[..], Node(key, val, expireAt);
      MapEmpty(s, hmap, ms, contents);
      AppendRefines(s, hmap, ms, contents, n);
      contents := Recency.Put(contents, m.Length, n);
      var first := |hmap| <= 0;
      last := last + 1;
      m[last - 1] := Node(key, val, expireAt);
      ghost var ms' := ms[last - 1 := n];
      assert m[..] == ms';
      hmap := hmap[key := last];
      dlnk.Push(last, first);
      assert m[..] == ms';
    }

    /** `put`: 0 if the key was there, 1 if it is new. `evicted` is the entry `onEvicted` is
        called with, if it is called. */
    method Put(key: Key, val: V, expireAt: int) returns (r: int, evicted: Option<Node<V>>)
      requires Valid()
      modifies Footprint()
      ensures Valid()
      ensures contents == Recency.Put(old(contents), m.Length, Node(key, val, expireAt))
      ensures r == if Has(old(contents), key) then 0 else 1
      ensures evicted == Evicts(old(contents), m.Length, key)
    {
      hide Stores, Slots, Linked;
      evicted := None;
      TouchRefines(dlnk.order, last, hmap, m[..], contents, key);
      if key in hmap {
        Overwrite(key, val, expireAt);
        return 0, None;
      }
      r := 1;
      if last == m.Length {
        evicted := Replace(key, val, expireAt);
      } else {
        Append(key, val, expireAt);
      }
    }

    method Get(key: Key) returns (r: Option<Node<V>>)
      requires Valid()
      modifies Footprint()
      ensures Valid()
      ensures contents == Touch(old(contents), key)
      ensures r == Lookup(old(contents), key)
    {
      hide Stores, Slots, Linked;
      TouchRefines(dlnk.order, last, hmap, m[..], contents, key);
      r := None;
      if key in hmap {
        var idx := hmap[key];
        r := Some(m[idx - 1]);
        contents := Touch(contents, key);
        dlnk.Refresh(idx);
      }
    }

    /** `del`: the entry, now marked, and the deadline it had. */
    method Del(key: Key) returns (r: Option<Node<V>>, e: int)
      requires Valid()
      modifies Footprint()
      ensures Valid()
      ensures contents == Bury(old(contents), key)
      ensures Buried(old(contents), key, r, e)
    {
      hide Stores, Slots, Linked;
      ghost var ms := m[..];
      BuryRefines(dlnk.order, last, hmap, ms, contents, key);
      r, e := None, 0;
      if key in hmap && m[hmap[key] - 1].expireAt > 0 {
        var idx := hmap[key];
        e := m[idx - 1].expireAt;
        r := Some(m[idx - 1].(expireAt := 0));
        contents := Bury(contents, key);
        m[idx - 1] := m[idx - 1].(expireAt := 0);
        ghost var ms' := ms[idx - 1 := r.value];
        assert m[..] == ms';
        dlnk.Demote(idx);
        assert m[..] == ms';
      }
    }

    /** `walk`: shows the live entries to `walker` from the head on, until it declines one. The
        argument of `walker` is all it has been shown so far. */
    method Walk(walker: seq<Node<V>> -> bool) returns (seen: seq<Node<V>>)
      requires Valid()
      ensures seen <= Live(contents)
      ensures forall j :: 0 < j < |seen| ==> walker(seen[..j])
      ensures seen == Live(contents) || (seen != [] && !walker(seen))
    {
      hide Slots, Stores;
      seen := [];
      ghost var s, ms := dlnk.order, m[..];
      ghost var i := 0;
      var idx := dlnk.succ[0];
      StoredAt(s, last, hmap, ms, contents, 0);
      while idx != 0
        invariant 0 <= i <= |s| && |s| == |contents| && idx == if i < |s| then s[i] else 0
        invariant seen == Live(contents[..i])
        invariant forall j :: 0 < j <= |seen| ==> walker(seen[..j])
        decreases |s| - i
      {
        StoredAt(s, last, hmap, ms, contents, i);
        LiveStep(contents, i);
        assert dlnk.succ[..][s[i]] == After(s, i);
        if m[idx - 1].expireAt > 0 {
          ghost var before := seen;
          seen := seen + [m[idx - 1]];
          assert forall j :: 0 < j <= |before| ==> seen[..j] == before[..j];
          assert seen[..|seen|] == seen;
          if !walker(seen) {
            return;
          }
        }
        idx := dlnk.succ[idx];
        i := i + 1;
      }
      assert contents[..i] == contents;
    }
  }
}
