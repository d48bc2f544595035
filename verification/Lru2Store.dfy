/** The two-level store: an array of buckets, each a pair of caches. */
module Lru2Store {
  import opened Options
  import opened Recency
  import opened RecencyLaws
  import opened Ring
  import opened Bucketing
  import opened Lru2Cache
  import opened Lru2Model
  import opened Lru2Freshness

  ghost function Both<V(0)>(p: (Cache<V>, Cache<V>)): set<object> {
    p.0.Footprint() + p.1.Footprint()
  }

  ghost predicate Made<V(0)>(p: (Cache<V>, Cache<V>), cap1: nat, cap2: nat)
    reads Both(p)
  {
    && p.0 in p.0.Footprint() && p.1 in p.1.Footprint() && p.0.Footprint() !! p.1.Footprint()
    && p.0.Valid() && p.0.m.Length == cap1 && p.0.contents == []
    && p.1.Valid() && p.1.m.Length == cap2 && p.1.contents == []
  }

  ghost predicate AllMade<V(0)>(cs: seq<(Cache<V>, Cache<V>)>, cap1: nat, cap2: nat, repr: set<object>)
    reads repr
  {
    && (forall i :: 0 <= i < |cs| ==> Both(cs[i]) <= repr && Made(cs[i], cap1, cap2))
    && (forall i, j :: 0 <= i < |cs| && 0 <= j < |cs| && i != j ==> Both(cs[i]) !! Both(cs[j]))
  }

  method MakePair<V(0)>(cap1: uint16, cap2: uint16, zero: V) returns (p: (Cache<V>, Cache<V>))
    requires 0 < cap1 < 65535 && 0 < cap2 < 65535
    ensures fresh(Both(p)) && Made(p, cap1, cap2)
  {
    var a := new Cache(cap1, zero);
    var b := new Cache(cap2, zero);
    p := (a, b);
  }

  method MakeCaches<V(0)>(n: nat, cap1: uint16, cap2: uint16, zero: V)
    returns (cs: seq<(Cache<V>, Cache<V>)>, ghost repr: set<object>)
    requires 0 < cap1 < 65535 && 0 < cap2 < 65535
    ensures |cs| == n && fresh(repr) && AllMade(cs, cap1, cap2, repr)
  {
    hide Cache.Footprint, Cache.Valid, Both, Made;
    cs, repr := [], {};
    for i := 0 to n
      invariant |cs| == i && fresh(repr) && AllMade(cs, cap1, cap2, repr)
    {
      var p := MakePair(cap1, cap2, zero);
      ghost var old_cs, old_repr := cs, repr;
      assert AllMade(old_cs, cap1, cap2, old_repr);
      assert forall j :: 0 <= j < i ==> Both(cs[j]) !! Both(p);
      cs := cs + [p];
      repr := repr + Both(p);
    }
  }

  /** What the first level holds for a key just set. */
  lemma SetStores<V>(b: Bucket<V>, cfg: Config, i: nat, n: Node<V>)
    requires BucketOk(b, i, cfg) && cfg.Valid()
    ensures Lookup(SetIn(b, cfg.cap1, n).b.l1, n.k) == Some(n)
  {
    PutLookup(b.l1, cfg.cap1, n, n.k);
  }

  lemma StoreAt<V>(st: seq<Bucket<V>>, cfg: Config, i: nat)
    requires StoreOk(st, cfg) && i < |st|
    ensures BucketOk(st[i], i, cfg)
  {
  }

  class Store<V(0)> {
    const mask: nat
    const caches: seq<(Cache<V>, Cache<V>)>
    ghost const cfg: Config
    ghost const Repr: set<object>
    /** The recency lists of the buckets. */
    ghost var view: seq<Bucket<V>>

    ghost function Foot(i: nat): set<object>
      requires i < |caches|
    {
      caches[i].0.Footprint() + caches[i].1.Footprint()
    }

    /** Bucket `i` is in order and represents `b`. */
    ghost predicate Holds(i: nat, b: Bucket<V>)
      requires i < |caches|
      reads Foot(i)
    {
      && caches[i].0.Valid() && caches[i].0.m.Length == cfg.cap1 && caches[i].0.contents == b.l1
      && caches[i].1.Valid() && caches[i].1.m.Length == cfg.cap2 && caches[i].1.contents == b.l2
    }

    /** The buckets share no memory. */
    ghost predicate Apart() {
      && |caches| == mask + 1 && cfg.mask == mask
      && (forall i :: 0 <= i < |caches| ==> Foot(i) <= Repr && this !in Foot(i))
      && (forall i :: 0 <= i < |caches| ==>
            caches[i].0 in caches[i].0.Footprint() && caches[i].1 in caches[i].1.Footprint())
      && (forall i :: 0 <= i < |caches| ==> caches[i].0.Footprint() !! caches[i].1.Footprint())
      && (forall i, j :: 0 <= i < |caches| && 0 <= j < |caches| && i != j ==> Foot(i) !! Foot(j))
    }

    ghost predicate Valid()
      reads this, Repr
    {
      && Apart()
      && StoreOk(view, cfg)
      && forall i :: 0 <= i < |caches| ==> Holds(i, view[i])
    }

    /** `newLRU2Cache`, with the defaults for options that are zero. */
    constructor (bucketCount: bv16, capPerBucket: uint16, level2Cap: uint16, zero: V)
      requires bucketCount <= 32768 && capPerBucket < 65535 && level2Cap < 65535
      ensures Valid() && fresh(Repr)
      ensures mask == MaskFor(bucketCount)
      ensures cfg.cap1 == (if capPerBucket == 0 then 1024 else capPerBucket)
      ensures cfg.cap2 == (if level2Cap == 0 then 1024 else level2Cap)
      ensures view == Empty(mask)
    {
      hide Cache.Footprint, Cache.Valid, StoreOk, MaskFor;
      var cap1 := if capPerBucket == 0 then 1024 else capPerBucket;
      var cap2 := if level2Cap == 0 then 1024 else level2Cap;
      var n := MaskFor(bucketCount) + 1;
      var cs, repr := MakeCaches(n, cap1, cap2, zero);
      mask := n - 1;
      caches := cs;
      cfg := Config(cap1, cap2, n - 1);
      Repr := repr;
      view := Empty(n - 1);
      new;
      EmptyOk<V>(cfg);
    }

    // ---------- one cache of one bucket ----------

    method DelFirst(key: Key, idx: nat) returns (n: Option<Node<V>>, e: int)
      requires Valid() && idx <= mask
      modifies Foot(idx), `view
      ensures Valid() && |old(view)| == mask + 1
      ensures view == old(view)[idx := Bucket(Bury(old(view)[idx].l1, key), old(view)[idx].l2)]
      ensures Buried(old(view)[idx].l1, key, n, e)
    {
      hide StoreOk, Cache.Footprint, Cache.Valid, Bury, LiveAt;
      StoreShape(view, cfg);
      BuryAtOk(view, cfg, idx, key);
      n, e := caches[idx].0.Del(key);
      view := view[idx := Bucket(Bury(view[idx].l1, key), view[idx].l2)];
    }

    /** `_get` on the second level, with its own reading of the clock. */
    method GetSecondLevel(key: Key, idx: nat, now: int) returns (n: Option<Node<V>>)
      requires Valid() && idx <= mask
      modifies Foot(idx), `view
      ensures Valid() && |old(view)| == mask + 1
      ensures view == old(view)[idx := Bucket(old(view)[idx].l1, Touch(old(view)[idx].l2, key))]
      ensures var x := LiveAt(old(view)[idx].l2, key);
        n == if x.Some? && now < x.value.expireAt then x else None
    {
      hide StoreOk, Cache.Footprint, Cache.Valid, Touch, Lookup;
      StoreShape(view, cfg);
      TouchAtOk(view, cfg, idx, key);
      n := caches[idx].1.Get(key);
      view := view[idx := Bucket(view[idx].l1, Touch(view[idx].l2, key))];
      if n.Some? && (n.value.expireAt <= 0 || now >= n.value.expireAt) {
        n := None;
      }
    }

    method PutFirst(idx: nat, n: Node<V>) returns (fired: seq<(Key, V)>)
      requires Valid() && idx == Idx(n.k, mask)
      modifies Foot(idx), `view
      ensures Valid() && |old(view)| == mask + 1
      ensures view == old(view)[idx := SetIn(old(view)[idx], cfg.cap1, n).b]
      ensures fired == SetIn(old(view)[idx], cfg.cap1, n).fired
    {
      hide StoreOk, Cache.Footprint, Cache.Valid, Recency.Put, Evicts;
      StoreShape(view, cfg);
      SetAtOk(view, cfg, n);
      var r, evicted := caches[idx].0.Put(n.k, n.v, n.expireAt);
      fired := Fired(evicted);
      view := view[idx := SetIn(view[idx], cfg.cap1, n).b];
    }

    method PutSecond(idx: nat, n: Node<V>) returns (fired: seq<(Key, V)>)
      requires Valid() && idx == Idx(n.k, mask)
      modifies Foot(idx), `view
      ensures Valid() && |old(view)| == mask + 1
      ensures view == old(view)[idx := Bucket(old(view)[idx].l1, Recency.Put(old(view)[idx].l2, cfg.cap2, n))]
      ensures fired == Fired(Evicts(old(view)[idx].l2, cfg.cap2, n.k))
    {
      hide StoreOk, Cache.Footprint, Cache.Valid, Recency.Put, Evicts;
      StoreShape(view, cfg);
      PutAtOk(view, cfg, idx, n);
      var r, evicted := caches[idx].1.Put(n.k, n.v, n.expireAt);
      fired := Fired(evicted);
      view := view[idx := Bucket(view[idx].l1, Recency.Put(view[idx].l2, cfg.cap2, n))];
    }

    /** `delete`: removes the key from both levels of bucket `idx`. */
    method DeleteAt(key: Key, idx: nat) returns (deleted: bool, fired: seq<(Key, V)>)
      requires Valid() && idx <= mask
      modifies Foot(idx), `view
      ensures Valid() && |old(view)| == mask + 1
      ensures view == old(view)[idx := DeleteIn(old(view)[idx], key).b]
      ensures fired == DeleteIn(old(view)[idx], key).fired && (deleted <==> fired != [])
    {
      hide StoreOk, Cache.Footprint, Cache.Valid, Bury;
      StoreShape(view, cfg);
      ghost var b := view[idx];
      DeleteAtOk(view, cfg, idx, key);
      assert Holds(idx, b);
      var n1, e1 := caches[idx].0.Del(key);
      var n2, e2 := caches[idx].1.Del(key);
      deleted := n1.Some? || n2.Some?;
      fired := [];
      if deleted {
        fired := if n1.Some? then [(key, n1.value.v)] else [(key, n2.value.v)];
      }
      view := view[idx := DeleteIn(b, key).b];
    }

    // ---------- the operations ----------

    method Get(key: Key, now: nat, now2: nat) returns (r: Option<V>, fired: seq<(Key, V)>)
      requires Valid()
      modifies Repr, this
      ensures Valid() && |old(view)| == mask + 1
      ensures view == Apply(old(view), cfg, GetOp(key, now, now2))
      ensures var o := GetIn(old(view)[Idx(key, mask)], cfg.cap2, key, now, now2); r == o.value && fired == o.fired
    {
      hide StoreOk, Cache.Footprint, Cache.Valid, Holds, Foot, Recency.Put, Evicts, Touch, Bury;
      var h := HashBKRD(key);
      var idx := And(h, mask);
      StoreShape(view, cfg);
      ghost var st := view;
      var n1, expireAt := DelFirst(key, idx);
      if n1.Some? {
        if expireAt > 0 && now >= expireAt {
          var d, f := DeleteAt(key, idx);
          return None, f;
        }
        fired := PutSecond(idx, Node(key, n1.value.v, expireAt));
        return Some(n1.value.v), fired;
      }
      assert Bury(st[idx].l1, key) == st[idx].l1 by { BuryDead(st[idx].l1, key); }
      assert view == st;
      var n2 := GetSecondLevel(key, idx, now2);
      if n2.Some? {
        if n2.value.expireAt > 0 && now >= n2.value.expireAt {
          var d, f := DeleteAt(key, idx);
          return None, f;
        }
        return Some(n2.value.v), [];
      }
      return None, [];
    }

    method SetWithExpiration(key: Key, v: V, ttl: int, now: nat) returns (fired: seq<(Key, V)>)
      requires Valid()
      modifies Repr, this
      ensures Valid() && |old(view)| == mask + 1
      ensures view == Apply(old(view), cfg, SetOp(key, v, ttl, now))
      ensures fired == SetIn(old(view)[Idx(key, mask)], cfg.cap1, Entry(key, v, ttl, now)).fired
      ensures |view| == mask + 1
      ensures Lookup(view[Idx(key, mask)].l1, key) == Some(Node(key, v, if ttl > 0 then now + ttl else 0))
    {
      hide StoreOk, Cache.Footprint, Cache.Valid, Holds, Foot, SetIn;
      var expireAt := 0;
      if ttl > 0 {
        expireAt := now + ttl;
      }
      var h := HashBKRD(key);
      var idx := And(h, mask);
      StoreShape(view, cfg);
      StoreAt(view, cfg, idx);
      SetStores(view[idx], cfg, idx, Node(key, v, expireAt));
      fired := PutFirst(idx, Node(key, v, expireAt));
    }

    /** Returns whether the key was live on either level. */
    method Delete(key: Key) returns (deleted: bool, fired: seq<(Key, V)>)
      requires Valid()
      modifies Repr, this
      ensures Valid() && |old(view)| == mask + 1
      ensures view == Apply(old(view), cfg, DeleteOp(key))
      ensures var b := old(view)[Idx(key, mask)];
        && fired == DeleteIn(b, key).fired
        && (deleted <==> LiveAt(b.l1, key).Some? || LiveAt(b.l2, key).Some?)
    {
      hide StoreOk, Cache.Footprint, Cache.Valid, Holds, Foot, Bury;
      var h := HashBKRD(key);
      var idx := And(h, mask);
      deleted, fired := DeleteAt(key, idx);
    }

    /** What a full walk of the two levels of bucket `i` shows. */
    method WalkBoth(i: nat) returns (s1: seq<Node<V>>, s2: seq<Node<V>>)
      requires Valid() && i <= mask
      ensures |view| == mask + 1 && s1 == Live(view[i].l1) && s2 == Live(view[i].l2)
    {
      hide StoreOk, Live;
      StoreShape(view, cfg);
      assert Holds(i, view[i]);
      s1 := caches[i].0.Walk(shown => true);
      s2 := caches[i].1.Walk(shown => true);
    }

    method Len() returns (count: nat)
      requires Valid()
      ensures count == Lru2Freshness.Len(view)
    {
      hide StoreOk, Holds, Foot, Live;
      StoreShape(view, cfg);
      count := 0;
      for i := 0 to |caches|
        invariant count == Lru2Freshness.Len(view[..i])
      {
        var s1, s2 := WalkBoth(i);
        count := count + |s1| + |s2|;
        assert view[..i + 1][..i] == view[..i];
      }
      assert view[..|caches|] == view;
    }

    /** `keys`, then the keys of the walked entries that are not there yet. */
    static method AddNew(keys: seq<Key>, s: seq<Node<V>>) returns (r: seq<Key>)
      ensures r == Merge(keys, s)
    {
      r := keys;
      for i := 0 to |s|
        invariant Merge(r, s[i..]) == Merge(keys, s)
      {
        if s[i].k !in r {
          r := r + [s[i].k];
        }
        assert s[i..][1..] == s[i + 1..];
      }
    }

    method Clear() returns (fired: seq<(Key, V)>)
      requires Valid()
      modifies Repr, this
      ensures Valid() && |old(view)| == mask + 1
      ensures view == Apply(old(view), cfg, ClearOp)
      ensures fired == DeleteKeysFired(old(view), mask, LiveKeys(old(view), mask + 1))
    {
      hide StoreOk, Holds, Foot, Live, Merge, DeleteIn;
      StoreShape(view, cfg);
      ghost var st := view;
      var keys: seq<Key> := [];
      for i := 0 to |caches|
        invariant Valid() && view == st
        invariant keys == LiveKeys(st, i)
      {
        var s1, s2 := WalkBoth(i);
        keys := AddNew(keys + Keys(s1), s2);
      }
      fired := [];
      for j := 0 to |keys|
        invariant Valid()
        invariant view == DeleteKeys(st, mask, keys[..j])
        invariant fired == DeleteKeysFired(st, mask, keys[..j])
      {
        var d, f := Delete(keys[j]);
        assert keys[..j + 1][..j] == keys[..j];
        fired := fired + f;
      }
      assert keys[..|keys|] == keys;
    }

    /** One round of `cleanupLoop`. */
    method Cleanup(now: nat) returns (fired: seq<(Key, V)>)
      requires Valid()
      modifies Repr, this
      ensures Valid() && |old(view)| == mask + 1
      ensures view == Apply(old(view), cfg, CleanupOp(now))
      ensures fired == CleanFired(old(view), mask + 1, now)
    {
      hide StoreOk, Holds, Live, Merge, DeleteIn, DeleteAll, DeleteAllFired;
      StoreShape(view, cfg);
      ghost var st := view;
      fired := [];
      for i := 0 to |caches|
        invariant Valid() && |view| == |st|
        invariant forall j :: 0 <= j < i ==> view[j] == CleanIn(st[j], now)
        invariant forall j :: i <= j < |st| ==> view[j] == st[j]
        invariant fired == CleanFired(st, i, now)
      {
        ghost var before := view;
        var f := CleanBucket(i, now);
        assert before[i] == st[i];
        fired := fired + f;
      }
    }

    /** One bucket of that round. */
    method CleanBucket(i: nat, now: nat) returns (fired: seq<(Key, V)>)
      requires Valid() && i <= mask
      modifies Foot(i), `view
      ensures Valid() && |old(view)| == mask + 1
      ensures view == old(view)[i := CleanIn(old(view)[i], now)]
      ensures fired == DeleteAllFired(old(view)[i], ExpiredKeys(old(view)[i], now))
    {
      hide StoreOk, Holds, Live, Merge, DeleteIn;
      StoreShape(view, cfg);
      ghost var st := view;
      var s1, s2 := WalkBoth(i);
      var expired := AddNew(Keys(Expired(s1, now)), Expired(s2, now));
      fired := [];
      for j := 0 to |expired|
        invariant Valid()
        invariant view == st[i := DeleteAll(st[i], expired[..j])]
        invariant fired == DeleteAllFired(st[i], expired[..j])
      {
        var d, f := DeleteAt(expired[j], i);
        assert expired[..j + 1][..j] == expired[..j];
        fired := fired + f;
      }
      assert expired[..|expired|] == expired;
    }
  }
}
