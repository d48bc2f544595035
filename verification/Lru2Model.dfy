/** The two-level store on recency lists: what each store operation does to a bucket, and what
    runs of operations guarantee. The class in `Lru2Store` is proved to do the same. */
module Lru2Model {
  import opened Options
  import opened Recency
  import opened RecencyLaws
  import opened Bucketing

  datatype Config = Config(cap1: nat, cap2: nat, mask: nat)
  {
    ghost predicate Valid() { 0 < cap1 && 0 < cap2 }
  }

  /** The first-level list takes new entries; entries that are read move to the second. */
  datatype Bucket<+V> = Bucket(l1: seq<Node<V>>, l2: seq<Node<V>>)

  /** A bucket after an operation, the value returned, and the calls of `onEvicted`. */
  datatype Outcome<+V> = Outcome(b: Bucket<V>, value: Option<V>, fired: seq<(Key, V)>)

  function Fired<V>(n: Option<Node<V>>): seq<(Key, V)> {
    if n.Some? then [(n.value.k, n.value.v)] else []
  }

  function DeleteIn<V>(b: Bucket<V>, key: Key): Outcome<V> {
    var n := if LiveAt(b.l1, key).Some? then LiveAt(b.l1, key) else LiveAt(b.l2, key);
    Outcome(Bucket(Bury(b.l1, key), Bury(b.l2, key)), None, Fired(n))
  }

  function SetIn<V>(b: Bucket<V>, cap1: nat, n: Node<V>): Outcome<V> {
    Outcome(Bucket(Put(b.l1, cap1, n), b.l2), None, Fired(Evicts(b.l1, cap1, n.k)))
  }

  /** `Get` with the live entry `x` on the first level. */
  function GetFirst<V>(b: Bucket<V>, cap2: nat, x: Node<V>, now: int): Outcome<V> {
    var c := Bucket(Bury(b.l1, x.k), b.l2);
    if now >= x.expireAt then DeleteIn(c, x.k)
    else Outcome(Bucket(c.l1, Put(b.l2, cap2, x)), Some(x.v), Fired(Evicts(b.l2, cap2, x.k)))
  }

  /** `Get` with no live entry on the first level. The clock is read once at the start and once
      more before a second-level hit is accepted. */
  function GetSecond<V>(b: Bucket<V>, key: Key, now: int, now2: int): Outcome<V> {
    var c := Bucket(b.l1, Touch(b.l2, key));
    match LiveAt(b.l2, key)
    case Some(y) =>
      if now2 >= y.expireAt then Outcome(c, None, [])
      else if now >= y.expireAt then DeleteIn(c, key)
      else Outcome(c, Some(y.v), [])
    case None => Outcome(c, None, [])
  }

  function GetIn<V>(b: Bucket<V>, cap2: nat, key: Key, now: int, now2: int): Outcome<V> {
    match LiveAt(b.l1, key)
    case Some(x) => GetFirst(b, cap2, x, now)
    case None => GetSecond(b, key, now, now2)
  }

  function DeleteAll<V>(b: Bucket<V>, keys: seq<Key>): Bucket<V> {
    if keys == [] then b
    else DeleteIn(DeleteAll(b, keys[..|keys| - 1]), keys[|keys| - 1]).b
  }

  /** The calls of `onEvicted` these deletions make. */
  function DeleteAllFired<V>(b: Bucket<V>, keys: seq<Key>): seq<(Key, V)> {
    if keys == [] then []
    else
      var init, key := keys[..|keys| - 1], keys[|keys| - 1];
      DeleteAllFired(b, init) + DeleteIn(DeleteAll(b, init), key).fired
  }

  /** `keys`, then the keys of `s` that are not there yet. */
  function Merge<V>(keys: seq<Key>, s: seq<Node<V>>): seq<Key>
    decreases |s|
  {
    if s == [] then keys
    else Merge(if s[0].k in keys then keys else keys + [s[0].k], s[1..])
  }

  function Keys<V>(s: seq<Node<V>>): (r: seq<Key>)
    ensures |r| == |s| && forall i :: 0 <= i < |s| ==> r[i] == s[i].k
  {
    seq(|s|, i requires 0 <= i < |s| => s[i].k)
  }

  function Expired<V>(s: seq<Node<V>>, now: int): seq<Node<V>> {
    if s == [] then []
    else if now >= s[0].expireAt then [s[0]] + Expired(s[1..], now)
    else Expired(s[1..], now)
  }

  function ExpiredKeys<V>(b: Bucket<V>, now: int): seq<Key> {
    Merge(Keys(Expired(Live(b.l1), now)), Expired(Live(b.l2), now))
  }

  function CleanIn<V>(b: Bucket<V>, now: int): Bucket<V> {
    DeleteAll(b, ExpiredKeys(b, now))
  }

  /** The live keys of the first `n` buckets, as `Clear` collects them. */
  function LiveKeys<V>(st: seq<Bucket<V>>, n: nat): seq<Key>
    requires n <= |st|
  {
    if n == 0 then []
    else Merge(LiveKeys(st, n - 1) + Keys(Live(st[n - 1].l1)), Live(st[n - 1].l2))
  }

  function DeleteKeys<V>(st: seq<Bucket<V>>, mask: nat, keys: seq<Key>): (r: seq<Bucket<V>>)
    requires |st| == mask + 1
    ensures |r| == |st|
  {
    if keys == [] then st
    else
      var s := DeleteKeys(st, mask, keys[..|keys| - 1]);
      var key := keys[|keys| - 1];
      s[Idx(key, mask) := DeleteIn(s[Idx(key, mask)], key).b]
  }

  function DeleteKeysFired<V>(st: seq<Bucket<V>>, mask: nat, keys: seq<Key>): seq<(Key, V)>
    requires |st| == mask + 1
  {
    if keys == [] then []
    else
      var init, key := keys[..|keys| - 1], keys[|keys| - 1];
      DeleteKeysFired(st, mask, init) + DeleteIn(DeleteKeys(st, mask, init)[Idx(key, mask)], key).fired
  }

  /** The calls of `onEvicted` that a cleanup of the first `n` buckets makes. */
  function CleanFired<V>(st: seq<Bucket<V>>, n: nat, now: int): seq<(Key, V)>
    requires n <= |st|
  {
    if n == 0 then []
    else CleanFired(st, n - 1, now) + DeleteAllFired(st[n - 1], ExpiredKeys(st[n - 1], now))
  }

  // ---------- deletions ----------

  predicate AnyExpired<V>(b: Bucket<V>, key: Key, now: int) {
    || (LiveAt(b.l1, key).Some? && now >= LiveAt(b.l1, key).value.expireAt)
    || (LiveAt(b.l2, key).Some? && now >= LiveAt(b.l2, key).value.expireAt)
  }

  lemma DeleteInLive<V>(b: Bucket<V>, key: Key, q: Key)
    ensures LiveAt(DeleteIn(b, key).b.l1, q) == if q == key then None else LiveAt(b.l1, q)
    ensures LiveAt(DeleteIn(b, key).b.l2, q) == if q == key then None else LiveAt(b.l2, q)
  {
    BuryLookup(b.l1, key, q);
    BuryLookup(b.l2, key, q);
  }

  lemma {:induction false} DeleteAllLive<V>(b: Bucket<V>, keys: seq<Key>, q: Key)
    ensures LiveAt(DeleteAll(b, keys).l1, q) == if q in keys then None else LiveAt(b.l1, q)
    ensures LiveAt(DeleteAll(b, keys).l2, q) == if q in keys then None else LiveAt(b.l2, q)
  {
    if keys != [] {
      var init, key := keys[..|keys| - 1], keys[|keys| - 1];
      assert keys == init + [key];
      DeleteAllLive(b, init, q);
      DeleteInLive(DeleteAll(b, init), key, q);
    }
  }

  lemma {:induction false} MergeHas<V>(keys: seq<Key>, s: seq<Node<V>>, q: Key)
    ensures q in Merge(keys, s) <==> q in keys || exists i :: 0 <= i < |s| && s[i].k == q
    decreases |s|
  {
    if s != [] {
      MergeHas(if s[0].k in keys then keys else keys + [s[0].k], s[1..], q);
      assert forall i :: 0 < i < |s| ==> s[i] == s[1..][i - 1];
    }
  }

  lemma ExpiredKeysHas<V>(b: Bucket<V>, now: int, q: Key)
    requires Distinct(b.l1) && Distinct(b.l2)
    ensures q in ExpiredKeys(b, now) <==> AnyExpired(b, q, now)
  {
    var e1, e2 := Expired(Live(b.l1), now), Expired(Live(b.l2), now);
    MergeHas(Keys(e1), e2, q);
    ExpiredHas(b.l1, now, q);
    ExpiredHas(b.l2, now, q);
  }

  lemma {:induction false} ExpiredIn<V>(s: seq<Node<V>>, now: int, n: Node<V>)
    ensures n in Expired(s, now) <==> n in s && now >= n.expireAt
  {
    if s != [] {
      ExpiredIn(s[1..], now, n);
      assert n in s <==> n == s[0] || n in s[1..];
    }
  }

  lemma ExpiredHas<V>(s: seq<Node<V>>, now: int, q: Key)
    requires Distinct(s)
    ensures (exists i :: 0 <= i < |Expired(Live(s), now)| && Expired(Live(s), now)[i].k == q) <==>
            LiveAt(s, q).Some? && now >= LiveAt(s, q).value.expireAt
    ensures q in Keys(Expired(Live(s), now)) <==>
            LiveAt(s, q).Some? && now >= LiveAt(s, q).value.expireAt
  {
    var e := Expired(Live(s), now);
    forall i | 0 <= i < |e| && e[i].k == q
      ensures LiveAt(s, q) == Some(e[i]) && now >= e[i].expireAt
    {
      ExpiredIn(Live(s), now, e[i]);
      LiveHas(s, e[i]);
    }
    if LiveAt(s, q).Some? && now >= LiveAt(s, q).value.expireAt {
      var n := LiveAt(s, q).value;
      LiveHas(s, n);
      ExpiredIn(Live(s), now, n);
      var i :| 0 <= i < |e| && e[i] == n;
      assert Keys(e)[i] == q;
    }
  }

  /** A cleanup pass at `now` deletes exactly the keys with an expired copy on either level, and
      leaves no live entry whose deadline has passed. */
  lemma CleanInLive<V>(b: Bucket<V>, now: int, q: Key)
    requires Distinct(b.l1) && Distinct(b.l2)
    ensures LiveAt(CleanIn(b, now).l1, q) == if AnyExpired(b, q, now) then None else LiveAt(b.l1, q)
    ensures LiveAt(CleanIn(b, now).l2, q) == if AnyExpired(b, q, now) then None else LiveAt(b.l2, q)
    ensures !AnyExpired(CleanIn(b, now), q, now)
  {
    ExpiredKeysHas(b, now, q);
    DeleteAllLive(b, ExpiredKeys(b, now), q);
  }

  // ---------- soundness of the lists ----------

  ghost predicate SoundBucket<V>(b: Bucket<V>, cfg: Config) {
    Sound(b.l1, cfg.cap1) && Sound(b.l2, cfg.cap2)
  }

  lemma DeleteInSound<V>(b: Bucket<V>, cfg: Config, key: Key)
    requires SoundBucket(b, cfg)
    ensures SoundBucket(DeleteIn(b, key).b, cfg)
  {
    BurySound(b.l1, cfg.cap1, key);
    BurySound(b.l2, cfg.cap2, key);
  }

  lemma GetInSound<V>(b: Bucket<V>, cfg: Config, key: Key, now: int, now2: int)
    requires SoundBucket(b, cfg) && cfg.Valid()
    ensures SoundBucket(GetIn(b, cfg.cap2, key, now, now2).b, cfg)
  {
    if LiveAt(b.l1, key).Some? {
      BurySound(b.l1, cfg.cap1, key);
      DeleteInSound(Bucket(Bury(b.l1, key), b.l2), cfg, key);
      PutSound(b.l2, cfg.cap2, LiveAt(b.l1, key).value);
    } else {
      TouchSound(b.l2, cfg.cap2, key);
      DeleteInSound(Bucket(b.l1, Touch(b.l2, key)), cfg, key);
    }
  }

  lemma {:induction false} DeleteAllSound<V>(b: Bucket<V>, cfg: Config, keys: seq<Key>)
    requires SoundBucket(b, cfg)
    ensures SoundBucket(DeleteAll(b, keys), cfg)
  {
    if keys != [] {
      DeleteAllSound(b, cfg, keys[..|keys| - 1]);
      DeleteInSound(DeleteAll(b, keys[..|keys| - 1]), cfg, keys[|keys| - 1]);
    }
  }
}
