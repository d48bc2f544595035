/** Runs of the two-level store: bulk operations, placement, and which value a hit returns. */
module Lru2Freshness {
  import opened Options
  import opened Recency
  import opened RecencyLaws
  import opened Bucketing
  import opened Lru2Model
  import Lru2Runs

  /** One operation of the store with the clock readings it makes; times to live are added to the
      clock reading. */
  datatype Op<V> =
    | SetOp(key: Key, v: V, ttl: int, now: nat)
    | GetOp(key: Key, now: nat, now2: nat)
    | DeleteOp(key: Key)
    | ClearOp
    | CleanupOp(now: nat)

  function Entry<V>(key: Key, v: V, ttl: int, now: nat): Node<V> {
    Node(key, v, if ttl > 0 then now + ttl else 0)
  }

  function Apply<V>(st: seq<Bucket<V>>, cfg: Config, op: Op<V>): (r: seq<Bucket<V>>)
    requires |st| == cfg.mask + 1
    ensures |r| == |st|
  {
    match op
    case SetOp(key, v, ttl, now) =>
      var i := Idx(key, cfg.mask);
      st[i := SetIn(st[i], cfg.cap1, Entry(key, v, ttl, now)).b]
    case GetOp(key, now, now2) =>
      var i := Idx(key, cfg.mask);
      st[i := GetIn(st[i], cfg.cap2, key, now, now2).b]
    case DeleteOp(key) =>
      var i := Idx(key, cfg.mask);
      st[i := DeleteIn(st[i], key).b]
    case ClearOp => DeleteKeys(st, cfg.mask, LiveKeys(st, |st|))
    case CleanupOp(now) => seq(|st|, i requires 0 <= i < |st| => CleanIn(st[i], now))
  }

  function Empty<V>(mask: nat): (r: seq<Bucket<V>>)
    ensures |r| == mask + 1 && forall i :: 0 <= i < |r| ==> r[i] == Bucket([], [])
  {
    seq(mask + 1, i => Bucket([], []))
  }

  function Run<V>(cfg: Config, ops: seq<Op<V>>): (r: seq<Bucket<V>>)
    ensures |r| == cfg.mask + 1
  {
    if ops == [] then Empty(cfg.mask)
    else Apply(Run(cfg, ops[..|ops| - 1]), cfg, ops[|ops| - 1])
  }

  // ---------- placement and bulk operations ----------

  /** Bucket `i` is sound and holds only keys that belong there. */
  ghost predicate BucketOk<V>(b: Bucket<V>, i: nat, cfg: Config) {
    && SoundBucket(b, cfg)
    && (forall k :: Has(b.l1, k) || Has(b.l2, k) ==> Idx(k, cfg.mask) == i)
  }

  ghost predicate StoreOk<V>(st: seq<Bucket<V>>, cfg: Config) {
    && cfg.Valid() && |st| == cfg.mask + 1
    && forall i :: 0 <= i < |st| ==> BucketOk(st[i], i, cfg)
  }

  lemma DeleteInOk<V>(b: Bucket<V>, i: nat, cfg: Config, key: Key)
    requires BucketOk(b, i, cfg)
    ensures BucketOk(DeleteIn(b, key).b, i, cfg)
  {
    DeleteInSound(b, cfg, key);
    var b' := DeleteIn(b, key).b;
    forall k | Has(b'.l1, k) || Has(b'.l2, k)
      ensures Idx(k, cfg.mask) == i
    {
      BuryLookup(b.l1, key, k);
      BuryLookup(b.l2, key, k);
    }
  }

  lemma SetInOk<V>(b: Bucket<V>, i: nat, cfg: Config, n: Node<V>)
    requires BucketOk(b, i, cfg) && cfg.Valid() && Idx(n.k, cfg.mask) == i
    ensures BucketOk(SetIn(b, cfg.cap1, n).b, i, cfg)
  {
    PutSound(b.l1, cfg.cap1, n);
    var b' := SetIn(b, cfg.cap1, n).b;
    forall k | Has(b'.l1, k) || Has(b'.l2, k)
      ensures Idx(k, cfg.mask) == i
    {
      PutLookup(b.l1, cfg.cap1, n, k);
    }
  }

  lemma GetInOk<V>(b: Bucket<V>, i: nat, cfg: Config, key: Key, now: int, now2: int)
    requires BucketOk(b, i, cfg) && cfg.Valid()
    ensures BucketOk(GetIn(b, cfg.cap2, key, now, now2).b, i, cfg)
  {
    GetInSound(b, cfg, key, now, now2);
    var b' := GetIn(b, cfg.cap2, key, now, now2).b;
    forall k | Has(b'.l1, k) || Has(b'.l2, k)
      ensures Idx(k, cfg.mask) == i
    {
      if LiveAt(b.l1, key).Some? {
        BuryLookup(b.l1, key, k);
        BuryLookup(Bury(b.l1, key), key, k);
        BuryLookup(b.l2, key, k);
        PutLookup(b.l2, cfg.cap2, LiveAt(b.l1, key).value, k);
      } else {
        BuryLookup(b.l1, key, k);
        TouchLookup(b.l2, key, k);
        BuryLookup(Touch(b.l2, key), key, k);
      }
    }
  }

  lemma {:induction false} DeleteAllOk<V>(b: Bucket<V>, i: nat, cfg: Config, keys: seq<Key>)
    requires BucketOk(b, i, cfg)
    ensures BucketOk(DeleteAll(b, keys), i, cfg)
  {
    if keys != [] {
      DeleteAllOk(b, i, cfg, keys[..|keys| - 1]);
      DeleteInOk(DeleteAll(b, keys[..|keys| - 1]), i, cfg, keys[|keys| - 1]);
    }
  }

  lemma {:induction false} DeleteKeysOk<V>(st: seq<Bucket<V>>, cfg: Config, keys: seq<Key>)
    requires StoreOk(st, cfg)
    ensures StoreOk(DeleteKeys(st, cfg.mask, keys), cfg)
  {
    if keys != [] {
      var init, key := keys[..|keys| - 1], keys[|keys| - 1];
      DeleteKeysOk(st, cfg, init);
      var i := Idx(key, cfg.mask);
      DeleteInOk(DeleteKeys(st, cfg.mask, init)[i], i, cfg, key);
    }
  }

  lemma StoreShape<V>(st: seq<Bucket<V>>, cfg: Config)
    requires StoreOk(st, cfg)
    ensures |st| == cfg.mask + 1 && cfg.Valid()
  {
  }

  lemma DeleteAtOk<V>(st: seq<Bucket<V>>, cfg: Config, i: nat, key: Key)
    requires StoreOk(st, cfg) && i < |st|
    ensures StoreOk(st[i := DeleteIn(st[i], key).b], cfg)
  {
    DeleteInOk(st[i], i, cfg, key);
  }

  lemma BuryAtOk<V>(st: seq<Bucket<V>>, cfg: Config, i: nat, key: Key)
    requires StoreOk(st, cfg) && i < |st|
    ensures StoreOk(st[i := Bucket(Bury(st[i].l1, key), st[i].l2)], cfg)
  {
    var b := st[i];
    BurySound(b.l1, cfg.cap1, key);
    forall k | Has(Bury(b.l1, key), k)
      ensures Idx(k, cfg.mask) == i
    {
      BuryLookup(b.l1, key, k);
    }
  }

  lemma TouchAtOk<V>(st: seq<Bucket<V>>, cfg: Config, i: nat, key: Key)
    requires StoreOk(st, cfg) && i < |st|
    ensures StoreOk(st[i := Bucket(st[i].l1, Touch(st[i].l2, key))], cfg)
  {
    var b := st[i];
    TouchSound(b.l2, cfg.cap2, key);
    forall k | Has(Touch(b.l2, key), k)
      ensures Idx(k, cfg.mask) == i
    {
      TouchLookup(b.l2, key, k);
    }
  }

  lemma PutAtOk<V>(st: seq<Bucket<V>>, cfg: Config, i: nat, n: Node<V>)
    requires StoreOk(st, cfg) && i < |st| && Idx(n.k, cfg.mask) == i
    ensures StoreOk(st[i := Bucket(st[i].l1, Put(st[i].l2, cfg.cap2, n))], cfg)
  {
    var b := st[i];
    PutSound(b.l2, cfg.cap2, n);
    forall k | Has(Put(b.l2, cfg.cap2, n), k)
      ensures Idx(k, cfg.mask) == i
    {
      PutLookup(b.l2, cfg.cap2, n, k);
    }
  }

  lemma SetAtOk<V>(st: seq<Bucket<V>>, cfg: Config, n: Node<V>)
    requires StoreOk(st, cfg)
    ensures var i := Idx(n.k, cfg.mask); StoreOk(st[i := SetIn(st[i], cfg.cap1, n).b], cfg)
  {
    SetInOk(st[Idx(n.k, cfg.mask)], Idx(n.k, cfg.mask), cfg, n);
  }

  lemma BuryDead<V>(s: seq<Node<V>>, key: Key)
    requires LiveAt(s, key) == None
    ensures Bury(s, key) == s
  {
  }

  lemma ApplyOk<V>(st: seq<Bucket<V>>, cfg: Config, op: Op<V>)
    requires StoreOk(st, cfg)
    ensures StoreOk(Apply(st, cfg, op), cfg)
  {
    match op
    case SetOp(key, v, ttl, now) =>
      SetInOk(st[Idx(key, cfg.mask)], Idx(key, cfg.mask), cfg, Entry(key, v, ttl, now));
    case GetOp(key, now, now2) =>
      GetInOk(st[Idx(key, cfg.mask)], Idx(key, cfg.mask), cfg, key, now, now2);
    case DeleteOp(key) => DeleteInOk(st[Idx(key, cfg.mask)], Idx(key, cfg.mask), cfg, key);
    case ClearOp => DeleteKeysOk(st, cfg, LiveKeys(st, |st|));
    case CleanupOp(now) =>
      forall i | 0 <= i < |st|
        ensures BucketOk(CleanIn(st[i], now), i, cfg)
      {
        DeleteAllOk(st[i], i, cfg, ExpiredKeys(st[i], now));
      }
  }

  lemma EmptyOk<V>(cfg: Config)
    requires cfg.Valid()
    ensures StoreOk(Empty<V>(cfg.mask), cfg)
  {
  }

  lemma {:induction false} RunOk<V>(cfg: Config, ops: seq<Op<V>>)
    requires cfg.Valid()
    ensures StoreOk(Run(cfg, ops), cfg)
  {
    if ops != [] {
      RunOk(cfg, ops[..|ops| - 1]);
      ApplyOk(Run(cfg, ops[..|ops| - 1]), cfg, ops[|ops| - 1]);
    }
  }

  lemma {:induction false} DeleteKeysLive<V>(st: seq<Bucket<V>>, mask: nat, keys: seq<Key>, q: Key)
    requires |st| == mask + 1
    ensures var i, r := Idx(q, mask), DeleteKeys(st, mask, keys);
      && LiveAt(r[i].l1, q) == (if q in keys then None else LiveAt(st[i].l1, q))
      && LiveAt(r[i].l2, q) == (if q in keys then None else LiveAt(st[i].l2, q))
  {
    if keys != [] {
      var init, key := keys[..|keys| - 1], keys[|keys| - 1];
      assert keys == init + [key];
      DeleteKeysLive(st, mask, init, q);
      var i := Idx(q, mask);
      DeleteInLive(DeleteKeys(st, mask, init)[i], key, q);
    }
  }

  lemma {:induction false} LiveKeysHas<V>(st: seq<Bucket<V>>, n: nat, i: nat, q: Key)
    requires i < n <= |st|
    requires Distinct(st[i].l1) && Distinct(st[i].l2)
    requires LiveAt(st[i].l1, q).Some? || LiveAt(st[i].l2, q).Some?
    ensures q in LiveKeys(st, n)
  {
    var b := st[n - 1];
    MergeHas(LiveKeys(st, n - 1) + Keys(Live(b.l1)), Live(b.l2), q);
    if i < n - 1 {
      LiveKeysHas(st, n - 1, i, q);
    } else if LiveAt(b.l1, q).Some? {
      LiveHas(b.l1, LiveAt(b.l1, q).value);
      var j :| 0 <= j < |Live(b.l1)| && Live(b.l1)[j] == LiveAt(b.l1, q).value;
      assert Keys(Live(b.l1))[j] == q;
    } else {
      LiveHas(b.l2, LiveAt(b.l2, q).value);
    }
  }

  predicate LiveIn<V>(b: Bucket<V>, q: Key) { LiveAt(b.l1, q).Some? || LiveAt(b.l2, q).Some? }

  /** The keys that `Clear` collects from the first `n` buckets are exactly the live ones. */
  lemma {:induction false} LiveKeysIff<V>(st: seq<Bucket<V>>, n: nat, q: Key)
    requires n <= |st| && forall i :: 0 <= i < n ==> Distinct(st[i].l1) && Distinct(st[i].l2)
    ensures q in LiveKeys(st, n) <==> exists i :: 0 <= i < n && LiveIn(st[i], q)
  {
    if i :| 0 <= i < n && LiveIn(st[i], q) {
      LiveKeysHas(st, n, i, q);
    }
    if q in LiveKeys(st, n) {
      var b := st[n - 1];
      var keys := LiveKeys(st, n - 1) + Keys(Live(b.l1));
      MergeHas(keys, Live(b.l2), q);
      if q in LiveKeys(st, n - 1) {
        LiveKeysIff(st, n - 1, q);
      } else if j :| 0 <= j < |Live(b.l1)| && Live(b.l1)[j].k == q {
        LiveHas(b.l1, Live(b.l1)[j]);
        assert LiveIn(st[n - 1], q);
      } else {
        assert q !in Keys(Live(b.l1));
        var j :| 0 <= j < |Live(b.l2)| && Live(b.l2)[j].k == q;
        LiveHas(b.l2, Live(b.l2)[j]);
        assert LiveIn(st[n - 1], q);
      }
    }
  }

  /** The callback hears of the key. */
  predicate Heard<V>(fired: seq<(Key, V)>, q: Key) { exists i :: 0 <= i < |fired| && fired[i].0 == q }

  lemma HeardConcat<V>(a: seq<(Key, V)>, b: seq<(Key, V)>, q: Key)
    ensures Heard(a + b, q) <==> Heard(a, q) || Heard(b, q)
  {
    if i :| 0 <= i < |a| && a[i].0 == q {
      assert (a + b)[i].0 == q;
    }
    if i :| 0 <= i < |b| && b[i].0 == q {
      assert (a + b)[|a| + i].0 == q;
    }
  }

  /** During deletions the callback hears of a key exactly if the key is listed and was live. */
  lemma {:induction false} DeleteKeysFires<V>(st: seq<Bucket<V>>, mask: nat, keys: seq<Key>, q: Key)
    requires |st| == mask + 1
    ensures Heard(DeleteKeysFired(st, mask, keys), q) <==> q in keys && LiveIn(st[Idx(q, mask)], q)
  {
    if keys != [] {
      hide DeleteKeysFired, DeleteIn, DeleteKeys, Heard, LiveAt, Idx;
      var init, key := keys[..|keys| - 1], keys[|keys| - 1];
      var b := DeleteKeys(st, mask, init)[Idx(key, mask)];
      FiredSnoc(st, mask, keys);
      DeleteKeysFires(st, mask, init, q);
      DeleteKeysLive(st, mask, init, q);
      InSnoc(keys, q);
      FiresOwn(b, key, q);
      HeardConcat(DeleteKeysFired(st, mask, init), DeleteIn(b, key).fired, q);
    }
  }

  /** And so in one bucket of a cleanup. */
  lemma {:induction false} DeleteAllFires<V>(b: Bucket<V>, keys: seq<Key>, q: Key)
    ensures Heard(DeleteAllFired(b, keys), q) <==> q in keys && LiveIn(b, q)
  {
    if keys != [] {
      hide Heard, LiveAt, DeleteIn;
      var init, key := keys[..|keys| - 1], keys[|keys| - 1];
      DeleteAllFires(b, init, q);
      DeleteAllLive(b, init, q);
      InSnoc(keys, q);
      FiresOwn(DeleteAll(b, init), key, q);
      HeardConcat(DeleteAllFired(b, init), DeleteIn(DeleteAll(b, init), key).fired, q);
    }
  }

  /** A live copy of the key in one of the first `n` buckets has expired. */
  predicate SomeExpired<V>(st: seq<Bucket<V>>, n: nat, q: Key, now: int)
    requires n <= |st|
  {
    exists i :: 0 <= i < n && AnyExpired(st[i], q, now)
  }

  lemma SomeExpiredSnoc<V>(st: seq<Bucket<V>>, n: nat, q: Key, now: int)
    requires 0 < n <= |st|
    ensures SomeExpired(st, n, q, now) <==> SomeExpired(st, n - 1, q, now) || AnyExpired(st[n - 1], q, now)
  {
    hide AnyExpired;
  }

  /** During a cleanup the callback hears of a key exactly if one of its live copies has expired. */
  lemma {:induction false} CleanFires<V>(st: seq<Bucket<V>>, n: nat, now: int, q: Key)
    requires n <= |st| && forall i :: 0 <= i < n ==> Distinct(st[i].l1) && Distinct(st[i].l2)
    ensures Heard(CleanFired(st, n, now), q) <==> SomeExpired(st, n, q, now)
  {
    if n > 0 {
      hide Heard, CleanFired, DeleteAllFired, ExpiredKeys, AnyExpired, SomeExpired, Distinct;
      CleanFiredSnoc(st, n, now);
      SomeExpiredSnoc(st, n, q, now);
      var b := st[n - 1];
      CleanFires(st, n - 1, now, q);
      BucketFires(b, now, q);
      HeardConcat(CleanFired(st, n - 1, now), DeleteAllFired(b, ExpiredKeys(b, now)), q);
    }
  }

  lemma CleanFiredSnoc<V>(st: seq<Bucket<V>>, n: nat, now: int)
    requires 0 < n <= |st|
    ensures CleanFired(st, n, now)
      == CleanFired(st, n - 1, now) + DeleteAllFired(st[n - 1], ExpiredKeys(st[n - 1], now))
  {
  }

  lemma BucketFires<V>(b: Bucket<V>, now: int, q: Key)
    requires Distinct(b.l1) && Distinct(b.l2)
    ensures Heard(DeleteAllFired(b, ExpiredKeys(b, now)), q) <==> AnyExpired(b, q, now)
  {
    hide Heard, ExpiredKeys, DeleteAllFired;
    DeleteAllFires(b, ExpiredKeys(b, now), q);
    ExpiredKeysHas(b, now, q);
  }

  lemma InSnoc<T>(s: seq<T>, x: T)
    requires s != []
    ensures x in s <==> x in s[..|s| - 1] || x == s[|s| - 1]
  {
    assert s == s[..|s| - 1] + [s[|s| - 1]];
  }

  lemma FiredSnoc<V>(st: seq<Bucket<V>>, mask: nat, keys: seq<Key>)
    requires |st| == mask + 1 && keys != []
    ensures var init, key := keys[..|keys| - 1], keys[|keys| - 1];
      DeleteKeysFired(st, mask, keys)
        == DeleteKeysFired(st, mask, init) + DeleteIn(DeleteKeys(st, mask, init)[Idx(key, mask)], key).fired
  {
  }

  lemma FiresOwn<V>(b: Bucket<V>, key: Key, q: Key)
    ensures Heard(DeleteIn(b, key).fired, q) <==> q == key && LiveIn(b, key)
  {
    var fired := DeleteIn(b, key).fired;
    if LiveIn(b, key) {
      assert |fired| == 1 && fired[0].0 == key;
    }
  }

  /** What `Len` counts. */
  function Len<V>(st: seq<Bucket<V>>): nat {
    if st == [] then 0
    else Len(st[..|st| - 1]) + |Live(st[|st| - 1].l1)| + |Live(st[|st| - 1].l2)|
  }

  lemma {:induction false} LenNone<V>(st: seq<Bucket<V>>)
    requires forall i :: 0 <= i < |st| ==> Live(st[i].l1) == [] && Live(st[i].l2) == []
    ensures Len(st) == 0
  {
    if st != [] { LenNone(st[..|st| - 1]); }
  }

  lemma NoneLive<V>(s: seq<Node<V>>)
    requires Distinct(s) && forall q :: LiveAt(s, q) == None
    ensures Live(s) == []
  {
    if Live(s) != [] {
      LiveHas(s, Live(s)[0]);
    }
  }

  /** `Clear` empties the store. */
  lemma ClearEmpties<V>(st: seq<Bucket<V>>, cfg: Config)
    requires StoreOk(st, cfg)
    ensures Len(Apply(st, cfg, ClearOp)) == 0
  {
    var keys := LiveKeys(st, |st|);
    var r := DeleteKeys(st, cfg.mask, keys);
    DeleteKeysOk(st, cfg, keys);
    forall i | 0 <= i < |r|
      ensures Live(r[i].l1) == [] && Live(r[i].l2) == []
    {
      forall q
        ensures LiveAt(r[i].l1, q) == None && LiveAt(r[i].l2, q) == None
      {
        if Idx(q, cfg.mask) == i {
          DeleteKeysLive(st, cfg.mask, keys, q);
          if LiveAt(st[i].l1, q).Some? || LiveAt(st[i].l2, q).Some? { LiveKeysHas(st, |st|, i, q); }
        }
      }
      NoneLive(r[i].l1);
      NoneLive(r[i].l2);
    }
    LenNone(r);
  }

  lemma OneMore(n: int, c: int)
    ensures n * c == (n - 1) * c + c
  {
  }

  lemma {:induction false} LenBound<V>(st: seq<Bucket<V>>, cfg: Config)
    requires forall i :: 0 <= i < |st| ==> SoundBucket(st[i], cfg)
    ensures Len(st) <= |st| * (cfg.cap1 + cfg.cap2)
  {
    if st != [] {
      LenBound(st[..|st| - 1], cfg);
      OneMore(|st|, cfg.cap1 + cfg.cap2);
      assert SoundBucket(st[|st| - 1], cfg);
    }
  }

  // ---------- which value a hit returns ----------

  /** The history of one key: what was stored for it since it was last deleted, and whether the
      latest of that was pushed out of the first level before it was read. */
  datatype Track<V> = Track(hist: seq<Node<V>>, lost: bool)

  /** A store of another key pushes the live first-level entry of `k` out. */
  ghost predicate PushesOut<V>(st: seq<Bucket<V>>, cfg: Config, op: Op<V>, k: Key)
    requires |st| == cfg.mask + 1
  {
    op.SetOp? && var e := Evicts(st[Idx(op.key, cfg.mask)].l1, cfg.cap1, op.key); e.Some? && e.value.k == k
  }

  ghost function Evolve<V>(st: seq<Bucket<V>>, t: Track<V>, cfg: Config, op: Op<V>, k: Key): Track<V>
    requires |st| == cfg.mask + 1
  {
    if op.SetOp? && op.key == k then Track(t.hist + [Entry(k, op.v, op.ttl, op.now)], false)
    else if op == DeleteOp(k) || op.ClearOp? then Track([], false)
    else Track(t.hist, t.lost || PushesOut(st, cfg, op, k))
  }

  ghost function History<V>(cfg: Config, ops: seq<Op<V>>, k: Key): Track<V> {
    if ops == [] then Track([], false)
    else
      var init := ops[..|ops| - 1];
      Evolve(Run(cfg, init), History(cfg, init, k), cfg, ops[|ops| - 1], k)
  }

  ghost predicate Latest<V>(t: Track<V>, n: Node<V>) {
    t.hist != [] && n == t.hist[|t.hist| - 1]
  }

  ghost predicate Older<V>(t: Track<V>, n: Node<V>) {
    t.hist != [] && n in t.hist[..|t.hist| - 1]
  }

  ghost predicate Fresh<V>(b: Bucket<V>, t: Track<V>, k: Key) {
    var n1, n2 := LiveAt(b.l1, k), LiveAt(b.l2, k);
    && (n1.Some? ==> Latest(t, n1.value) && !t.lost)
    && (n1.Some? && n2.Some? ==> Older(t, n2.value))
    && (n1.None? && n2.Some? ==> if t.lost then Older(t, n2.value) else Latest(t, n2.value))
  }

  lemma SetFresh<V>(b: Bucket<V>, cfg: Config, t: Track<V>, k: Key, n: Node<V>)
    requires SoundBucket(b, cfg) && cfg.Valid() && Fresh(b, t, k) && n.Live()
    ensures var b' := SetIn(b, cfg.cap1, n).b;
      var e := Evicts(b.l1, cfg.cap1, n.k);
      Fresh(b', if n.k == k then Track(t.hist + [n], false)
                else Track(t.hist, t.lost || (e.Some? && e.value.k == k)), k)
  {
    PutLookup(b.l1, cfg.cap1, n, k);
    if n.k == k {
      var t' := Track(t.hist + [n], false);
      assert t'.hist[..|t'.hist| - 1] == t.hist;
    } else if !Has(b.l1, n.k) && cfg.cap1 <= |b.l1| {
      LookupAt(b.l1, |b.l1| - 1);
    }
  }

  lemma GetFirstLive<V>(b: Bucket<V>, cfg: Config, x: Node<V>, now: int, q: Key)
    requires SoundBucket(b, cfg) && cfg.Valid() && LiveAt(b.l1, x.k) == Some(x)
    ensures var b' := GetFirst(b, cfg.cap2, x, now).b;
      && LiveAt(b'.l1, q) == (if q == x.k then None else LiveAt(b.l1, q))
      && LiveAt(b'.l2, q) in {None, if q == x.k then Some(x) else LiveAt(b.l2, q)}
  {
    BuryLookup(b.l1, x.k, q);
    DeleteInLive(Bucket(Bury(b.l1, x.k), b.l2), x.k, q);
    PutLookup(b.l2, cfg.cap2, x, q);
  }

  lemma GetSecondLive<V>(b: Bucket<V>, key: Key, now: int, now2: int, q: Key)
    requires LiveAt(b.l1, key) == None
    ensures var b' := GetSecond(b, key, now, now2).b;
      && LiveAt(b'.l1, q) == LiveAt(b.l1, q)
      && LiveAt(b'.l2, q) in {None, LiveAt(b.l2, q)}
  {
    hide DeleteIn, Lookup, Touch;
    TouchLookup(b.l2, key, q);
    DeleteInLive(Bucket(b.l1, Touch(b.l2, key)), key, q);
  }

  lemma GetFresh<V>(b: Bucket<V>, cfg: Config, t: Track<V>, k: Key, key: Key, now: int, now2: int)
    requires SoundBucket(b, cfg) && cfg.Valid() && Fresh(b, t, k)
    ensures Fresh(GetIn(b, cfg.cap2, key, now, now2).b, t, k)
  {
    if LiveAt(b.l1, key).Some? {
      GetFirstLive(b, cfg, LiveAt(b.l1, key).value, now, k);
    } else {
      GetSecondLive(b, key, now, now2, k);
    }
  }

  lemma PushesOutHere<V>(st: seq<Bucket<V>>, cfg: Config, op: Op<V>, k: Key)
    requires StoreOk(st, cfg)
    ensures PushesOut(st, cfg, op, k) ==> Idx(op.key, cfg.mask) == Idx(k, cfg.mask)
  {
    if PushesOut(st, cfg, op, k) {
      var l := st[Idx(op.key, cfg.mask)].l1;
      assert l[|l| - 1].k == k;
      assert Has(l, k);
    }
  }

  lemma ApplyFresh<V>(st: seq<Bucket<V>>, cfg: Config, t: Track<V>, op: Op<V>, k: Key)
    requires StoreOk(st, cfg) && Fresh(st[Idx(k, cfg.mask)], t, k)
    requires op.SetOp? ==> op.ttl > 0
    ensures Fresh(Apply(st, cfg, op)[Idx(k, cfg.mask)], Evolve(st, t, cfg, op, k), k)
  {
    var i := Idx(k, cfg.mask);
    match op
    case SetOp(key, v, ttl, now) =>
      if Idx(key, cfg.mask) == i {
        SetFresh(st[i], cfg, t, k, Entry(key, v, ttl, now));
      } else {
        PushesOutHere(st, cfg, op, k);
      }
    case GetOp(key, now, now2) =>
      if Idx(key, cfg.mask) == i { GetFresh(st[i], cfg, t, k, key, now, now2); }
    case DeleteOp(key) => DeleteInLive(st[i], key, k);
    case ClearOp =>
      DeleteKeysLive(st, cfg.mask, LiveKeys(st, |st|), k);
      if LiveAt(st[i].l1, k).Some? || LiveAt(st[i].l2, k).Some? { LiveKeysHas(st, |st|, i, k); }
    case CleanupOp(now) => CleanInLive(st[i], now, k);
  }

  ghost predicate PositiveTtls<V>(ops: seq<Op<V>>) {
    forall i :: 0 <= i < |ops| && ops[i].SetOp? ==> ops[i].ttl > 0
  }

  lemma {:induction false} RunFresh<V>(cfg: Config, ops: seq<Op<V>>, k: Key)
    requires cfg.Valid() && PositiveTtls(ops)
    ensures Fresh(Run(cfg, ops)[Idx(k, cfg.mask)], History(cfg, ops, k), k)
  {
    if ops != [] {
      var init := ops[..|ops| - 1];
      RunFresh(cfg, init, k);
      RunOk(cfg, init);
      ApplyFresh(Run(cfg, init), cfg, History(cfg, init, k), ops[|ops| - 1], k);
    }
  }

  /** What `Get(k)` returns after the run `ops`. */
  function Hit<V>(cfg: Config, ops: seq<Op<V>>, k: Key, now: nat, now2: nat): Option<V> {
    GetIn(Run(cfg, ops)[Idx(k, cfg.mask)], cfg.cap2, k, now, now2).value
  }

  lemma HitEntry<V>(cfg: Config, ops: seq<Op<V>>, k: Key, now: nat, now2: nat) returns (n: Node<V>)
    requires cfg.Valid() && PositiveTtls(ops)
    requires Hit(cfg, ops, k, now, now2).Some?
    ensures n.k == k && n.v == Hit(cfg, ops, k, now, now2).value && now < n.expireAt
    ensures var t := History(cfg, ops, k); if t.lost then Older(t, n) else Latest(t, n)
  {
    RunFresh(cfg, ops, k);
    var b := Run(cfg, ops)[Idx(k, cfg.mask)];
    n := if LiveAt(b.l1, k).Some? then LiveAt(b.l1, k).value else LiveAt(b.l2, k).value;
  }

  /** A hit returns an unexpired value stored for the key after it was last deleted: the latest
      one, or, if that was pushed out of the first level unread, an older one. */
  lemma HitIsFresh<V>(cfg: Config, ops: seq<Op<V>>, k: Key, now: nat, now2: nat)
    requires cfg.Valid() && PositiveTtls(ops)
    requires Hit(cfg, ops, k, now, now2).Some?
    ensures var t := History(cfg, ops, k);
      exists n: Node<V> ::
        && n.k == k && n.v == Hit(cfg, ops, k, now, now2).value && now < n.expireAt
        && if t.lost then Older(t, n) else Latest(t, n)
  {
    var n := HitEntry(cfg, ops, k, now, now2);
  }

  // ---------- when a `Get` hits ----------

  /** The copy that `Get` looks at. */
  function Copy<V>(b: Bucket<V>, k: Key): Option<Node<V>> {
    if LiveAt(b.l1, k).Some? then LiveAt(b.l1, k) else LiveAt(b.l2, k)
  }

  /** Promoting another key pushes the copy out, if that is on the second level. */
  ghost predicate PushesOutSecond<V>(st: seq<Bucket<V>>, cfg: Config, op: Op<V>, k: Key)
    requires |st| == cfg.mask + 1
  {
    op.GetOp? && LiveAt(st[Idx(k, cfg.mask)].l1, k) == None &&
    var b := st[Idx(op.key, cfg.mask)];
    && LiveAt(b.l1, op.key).Some? && op.now < LiveAt(b.l1, op.key).value.expireAt
    && var e := Evicts(b.l2, cfg.cap2, op.key);
       e.Some? && e.value.k == k
  }

  /** The operation meets an expired copy of the key: `Get` the one it looks at, cleanup any. */
  ghost predicate MeetsExpired<V>(st: seq<Bucket<V>>, cfg: Config, op: Op<V>, k: Key)
    requires |st| == cfg.mask + 1
  {
    var b := st[Idx(k, cfg.mask)];
    || (op.CleanupOp? && AnyExpired(b, k, op.now))
    || (op.GetOp? && op.key == k && Copy(b, k).Some? && op.now >= Copy(b, k).value.expireAt)
  }

  ghost predicate Disturbs<V>(st: seq<Bucket<V>>, cfg: Config, op: Op<V>, k: Key)
    requires |st| == cfg.mask + 1
  {
    PushesOut(st, cfg, op, k) || PushesOutSecond(st, cfg, op, k) || MeetsExpired(st, cfg, op, k)
  }

  /** The key was stored after its last deletion, and nothing has disturbed it since its last store. */
  ghost predicate Undisturbed<V>(cfg: Config, ops: seq<Op<V>>, k: Key) {
    ops != [] &&
    var init, op := ops[..|ops| - 1], ops[|ops| - 1];
    if op.SetOp? && op.key == k then true
    else if op == DeleteOp(k) || op.ClearOp? then false
    else Undisturbed(cfg, init, k) && !Disturbs(Run(cfg, init), cfg, op, k)
  }

  /** `put` of another key leaves a live entry unless it pushes it out. */
  lemma PutKeeps<V>(s: seq<Node<V>>, cap: nat, x: Node<V>, k: Key)
    requires Sound(s, cap) && 0 < cap && x.k != k
    requires var e := Evicts(s, cap, x.k); e.Some? ==> e.value.k != k
    ensures LiveAt(Put(s, cap, x), k) == LiveAt(s, k)
  {
    PutLookup(s, cap, x, k);
    if !Has(s, x.k) && cap <= |s| {
      LookupAt(s, |s| - 1);
    }
    hide Put;
  }

  lemma SetCopy<V>(b: Bucket<V>, cfg: Config, n: Node<V>, k: Key)
    requires SoundBucket(b, cfg) && cfg.Valid() && n.Live()
    requires n.k != k ==> var e := Evicts(b.l1, cfg.cap1, n.k); e.Some? ==> e.value.k != k
    ensures Copy(SetIn(b, cfg.cap1, n).b, k) == if n.k == k then Some(n) else Copy(b, k)
  {
    if n.k == k {
      PutLookup(b.l1, cfg.cap1, n, k);
    } else {
      PutKeeps(b.l1, cfg.cap1, n, k);
    }
  }

  lemma GetCopy<V>(b: Bucket<V>, cfg: Config, key: Key, now: int, now2: int, k: Key)
    requires SoundBucket(b, cfg) && cfg.Valid()
    requires key == k ==> Copy(b, k).Some? && now < Copy(b, k).value.expireAt
    requires key != k && LiveAt(b.l1, key).Some? && now < LiveAt(b.l1, key).value.expireAt && LiveAt(b.l1, k) == None ==>
      var e := Evicts(b.l2, cfg.cap2, key); e.Some? ==> e.value.k != k
    ensures Copy(GetIn(b, cfg.cap2, key, now, now2).b, k) == Copy(b, k)
  {
    LookupKey(b.l1, key);
    hide GetFirst, GetSecond, Evicts;
    if LiveAt(b.l1, key).Some? {
      GetFirstCopy(b, cfg, LiveAt(b.l1, key).value, now, k);
    } else {
      GetSecondCopy(b, key, now, now2, k);
    }
  }

  lemma GetSecondCopy<V>(b: Bucket<V>, key: Key, now: int, now2: int, k: Key)
    requires LiveAt(b.l1, key) == None
    requires key == k ==> Copy(b, k).Some? && now < Copy(b, k).value.expireAt
    ensures Copy(GetSecond(b, key, now, now2).b, k) == Copy(b, k)
  {
    hide DeleteIn, Lookup, Touch;
    TouchLookup(b.l2, key, k);
    TouchLookup(b.l2, key, key);
    DeleteInLive(Bucket(b.l1, Touch(b.l2, key)), key, k);
  }

  lemma GetFirstCopy<V>(b: Bucket<V>, cfg: Config, x: Node<V>, now: int, k: Key)
    requires SoundBucket(b, cfg) && cfg.Valid() && LiveAt(b.l1, x.k) == Some(x)
    requires x.k == k ==> now < x.expireAt
    requires x.k != k && now < x.expireAt && LiveAt(b.l1, k) == None ==> var e := Evicts(b.l2, cfg.cap2, x.k); e.Some? ==> e.value.k != k
    ensures Copy(GetFirst(b, cfg.cap2, x, now).b, k) == Copy(b, k)
  {
    if now < x.expireAt {
      PromoteCopy(b, cfg, x, k);
    } else {
      hide Bury, DeleteIn;
      BuryLookup(b.l1, x.k, k);
      DeleteInLive(Bucket(Bury(b.l1, x.k), b.l2), x.k, k);
    }
  }

  lemma PromoteCopy<V>(b: Bucket<V>, cfg: Config, x: Node<V>, k: Key)
    requires SoundBucket(b, cfg) && cfg.Valid() && LiveAt(b.l1, x.k) == Some(x)
    requires x.k != k && LiveAt(b.l1, k) == None ==> var e := Evicts(b.l2, cfg.cap2, x.k); e.Some? ==> e.value.k != k
    ensures Copy(Bucket(Bury(b.l1, x.k), Put(b.l2, cfg.cap2, x)), k) == Copy(b, k)
  {
    hide Bury, Put, Evicts;
    BuryLookup(b.l1, x.k, k);
    if x.k == k {
      PutLookup(b.l2, cfg.cap2, x, k);
    } else if LiveAt(b.l1, k) == None {
      PutKeeps(b.l2, cfg.cap2, x, k);
    }
  }

  lemma ApplyCopy<V>(st: seq<Bucket<V>>, cfg: Config, op: Op<V>, k: Key)
    requires StoreOk(st, cfg) && (op.SetOp? ==> op.ttl > 0)
    requires Copy(st[Idx(k, cfg.mask)], k).Some? || (op.SetOp? && op.key == k)
    requires !(op.SetOp? && op.key == k) ==> op != DeleteOp(k) && !op.ClearOp? && !Disturbs(st, cfg, op, k)
    ensures Copy(Apply(st, cfg, op)[Idx(k, cfg.mask)], k) ==
      if op.SetOp? && op.key == k then Some(Entry(k, op.v, op.ttl, op.now)) else Copy(st[Idx(k, cfg.mask)], k)
  {
    var i := Idx(k, cfg.mask);
    match op
    case SetOp(key, v, ttl, now) =>
      if Idx(key, cfg.mask) == i { SetCopy(st[i], cfg, Entry(key, v, ttl, now), k); }
    case GetOp(key, now, now2) =>
      if Idx(key, cfg.mask) == i { GetCopy(st[i], cfg, key, now, now2, k); }
    case DeleteOp(key) => DeleteInLive(st[i], key, k);
    case ClearOp =>
    case CleanupOp(now) => CleanInLive(st[i], now, k);
  }

  /** The copy that `Get` looks at is the latest one as long as nothing disturbs it. */
  lemma {:induction false} UndisturbedCopy<V>(cfg: Config, ops: seq<Op<V>>, k: Key)
    requires cfg.Valid() && PositiveTtls(ops) && Undisturbed(cfg, ops, k)
    ensures History(cfg, ops, k).hist != []
    ensures var h := History(cfg, ops, k).hist; Copy(Run(cfg, ops)[Idx(k, cfg.mask)], k) == Some(h[|h| - 1])
  {
    hide Apply, Disturbs, Copy;
    var init, op := ops[..|ops| - 1], ops[|ops| - 1];
    RunOk(cfg, init);
    if !(op.SetOp? && op.key == k) {
      UndisturbedCopy(cfg, init, k);
    }
    ApplyCopy(Run(cfg, init), cfg, op, k);
  }

  /** When a `Get` hits, in terms of the copy it looks at: both readings of the clock are before the
      deadline, the second one being made on the second level only. */
  lemma HitIff<V>(b: Bucket<V>, cap2: nat, k: Key, now: int, now2: int)
    ensures GetIn(b, cap2, k, now, now2).value ==
      match Copy(b, k)
      case Some(n) => if now < n.expireAt && (LiveAt(b.l1, k).Some? || now2 < n.expireAt) then Some(n.v) else None
      case None => None
  {
    if LiveAt(b.l1, k).Some? {
      LookupKey(b.l1, k);
    }
  }

  lemma {:induction false} LookupKey<V>(s: seq<Node<V>>, k: Key)
    ensures Lookup(s, k).Some? ==> Lookup(s, k).value.k == k
  {
    if s != [] {
      LookupKey(s[1..], k);
    }
  }

  /** A key that was stored after its last deletion, and not disturbed since, hits with its latest value
      at every time before its deadline. */
  lemma UndisturbedHits<V>(cfg: Config, ops: seq<Op<V>>, k: Key, now: nat, now2: nat)
    requires cfg.Valid() && PositiveTtls(ops) && Undisturbed(cfg, ops, k)
    ensures var h := History(cfg, ops, k).hist;
      && h != []
      && (now < h[|h| - 1].expireAt && now2 < h[|h| - 1].expireAt ==>
            Hit(cfg, ops, k, now, now2) == Some(h[|h| - 1].v))
  {
    hide Run, History, Undisturbed, Copy, GetIn, Idx, LiveAt;
    UndisturbedCopy(cfg, ops, k);
    HitIff(Run(cfg, ops)[Idx(k, cfg.mask)], cfg.cap2, k, now, now2);
  }

  /** No two entries of a history carry the same value. */
  ghost predicate DistinctValues<V>(s: seq<Node<V>>) {
    forall i, j :: 0 <= i < j < |s| ==> s[i].v != s[j].v
  }

  /** If no value is stored twice for the key, a hit returns the latest exactly when that was not
      pushed out unread. */
  lemma HitIsLatestIff<V>(cfg: Config, ops: seq<Op<V>>, k: Key, now: nat, now2: nat)
    requires cfg.Valid() && PositiveTtls(ops)
    requires Hit(cfg, ops, k, now, now2).Some? && DistinctValues(History(cfg, ops, k).hist)
    ensures var t := History(cfg, ops, k);
      && t.hist != []
      && (Hit(cfg, ops, k, now, now2).value == t.hist[|t.hist| - 1].v <==> !t.lost)
  {
    hide Run, History, Hit;
    var n := HitEntry(cfg, ops, k, now, now2);
    var t := History(cfg, ops, k);
    if t.lost {
      var j :| 0 <= j < |t.hist| - 1 && t.hist[..|t.hist| - 1][j] == n;
      assert t.hist[j].v != t.hist[|t.hist| - 1].v;
    }
  }

  /** With one slot a level: the store of another key pushes the unread second value of the first
      key out, and the first value comes back. */
  lemma OlderReappears(u: int, v: int, w: int)
    ensures var cfg := Config(1, 1, 0); var k: Key, j: Key := [97], [98];
      var ops := [SetOp(k, u, 9, 1), GetOp(k, 1, 1), SetOp(k, v, 9, 1), SetOp(j, w, 9, 1)];
      && Hit(cfg, ops, k, 2, 2) == Some(u)
      && History(cfg, ops, k) == Track([Node(k, u, 10), Node(k, v, 10)], true)
  {
    OneSlotRun(u, v, w);
    OneSlotHistory(u, v, w);
    SlotPut([97], [98], u, v, w);
    hide Run, History;
  }

  /** The history of the key along that run. */
  lemma OneSlotHistory(u: int, v: int, w: int)
    ensures var cfg := Config(1, 1, 0); var k: Key, j: Key := [97], [98];
      var ops := [SetOp(k, u, 9, 1), GetOp(k, 1, 1), SetOp(k, v, 9, 1), SetOp(j, w, 9, 1)];
      History(cfg, ops, k) == Track([Node(k, u, 10), Node(k, v, 10)], true)
  {
    hide Run;
    var k: Key, j: Key := [97], [98];
    var o1, o2, o3, o4 := SetOp(k, u, 9, 1), GetOp(k, 1, 1), SetOp(k, v, 9, 1), SetOp(j, w, 9, 1);
    assert [o1, o2, o3, o4][..3] == [o1, o2, o3];
    OwnHistory(u, v);
    OneSlotRun(u, v, w);
    SlotPut(k, j, u, v, w);
  }

  lemma OwnHistory(u: int, v: int)
    ensures var k: Key := [97];
      History(Config(1, 1, 0), [SetOp(k, u, 9, 1), GetOp(k, 1, 1), SetOp(k, v, 9, 1)], k)
        == Track([Node(k, u, 10), Node(k, v, 10)], false)
  {
    hide Run;
    var cfg, k: Key := Config(1, 1, 0), [97];
    var o1, o2, o3 := SetOp(k, u, 9, 1), GetOp(k, 1, 1), SetOp(k, v, 9, 1);
    var ops0: seq<Op<int>>, ops1, ops2, ops3 := [], [o1], [o1, o2], [o1, o2, o3];
    assert ops1[..0] == ops0 && ops2[..1] == ops1 && ops3[..2] == ops2;
    assert History(cfg, ops0, k) == Track([], false);
    assert History(cfg, ops1, k) == Track([Node(k, u, 10)], false);
    assert History(cfg, ops2, k) == Track([Node(k, u, 10)], false);
  }

  /** The states of the store along that run. */
  lemma OneSlotRun(u: int, v: int, w: int)
    ensures var cfg := Config(1, 1, 0); var k: Key, j: Key := [97], [98];
      var ops := [SetOp(k, u, 9, 1), GetOp(k, 1, 1), SetOp(k, v, 9, 1), SetOp(j, w, 9, 1)];
      && Run(cfg, ops[..3])[0] == Bucket([Node(k, v, 10)], [Node(k, u, 10)])
      && Run(cfg, ops)[0] == Bucket([Node(j, w, 10)], [Node(k, u, 10)])
  {
    var cfg := Config(1, 1, 0);
    var k: Key, j: Key := [97], [98];
    var o1, o2, o3, o4 := SetOp(k, u, 9, 1), GetOp(k, 1, 1), SetOp(k, v, 9, 1), SetOp(j, w, 9, 1);
    var ops0: seq<Op<int>>, ops1, ops2, ops3, ops := [], [o1], [o1, o2], [o1, o2, o3], [o1, o2, o3, o4];
    assert ops1[..0] == ops0 && ops2[..1] == ops1 && ops3[..2] == ops2 && ops[..3] == ops3;
    SlotPut(k, j, u, v, w);
    SlotBury(k, u);
    var a := Node(k, u, 10);
    assert Run(cfg, ops0)[0] == Bucket([], []);
    assert Run(cfg, ops1)[0] == Bucket([a], []);
    assert Run(cfg, ops2)[0] == Bucket([Node(k, u, 0)], [a]);
  }

  /** Set, read, set again, clean up: the second value is gone before its deadline. */
  lemma CleanupDropsUnexpired(u: int, v: int)
    ensures var cfg := Config(1, 1, 0); var k: Key := [97];
      var ops := [SetOp(k, u, 9, 1), GetOp(k, 1, 1), SetOp(k, v, 19, 1)];
      && Hit(cfg, ops, k, 10, 10) == Some(v)
      && Hit(cfg, ops + [CleanupOp(10)], k, 10, 10) == None
  {
    var cfg := Config(1, 1, 0);
    var k: Key := [97];
    var o1, o2, o3 := SetOp(k, u, 9, 1), GetOp(k, 1, 1), SetOp(k, v, 19, 1);
    var ops0: seq<Op<int>>, ops1, ops2, ops := [], [o1], [o1, o2], [o1, o2, o3];
    assert ops1[..0] == ops0 && ops2[..1] == ops1 && ops[..2] == ops2;
    assert (ops + [CleanupOp(10)])[..3] == ops;
    OneSlot(Node(k, u, 10));
    OneSlot(Node(k, u, 0));
    OneSlot(Node(k, v, 20));
    SlotBury(k, u);
    var b := Bucket([Node(k, v, 20)], [Node(k, u, 10)]);
    assert Run(cfg, ops0)[0] == Bucket([], []);
    assert Run(cfg, ops1)[0] == Bucket([Node(k, u, 10)], []);
    assert Run(cfg, ops2)[0] == Bucket([Node(k, u, 0)], [Node(k, u, 10)]);
    assert Run(cfg, ops)[0] == b;
    CleanInLive(b, 10, k);
    assert Run(cfg, ops + [CleanupOp(10)])[0] == CleanIn(b, 10);
  }

  lemma SlotPut(k: Key, j: Key, u: int, v: int, w: int)
    requires k != j
    ensures var a, b, c, a' := Node(k, u, 10), Node(k, v, 10), Node(j, w, 10), Node(k, u, 0);
      && Put([], 1, a) == [a] && Evicts<int>([], 1, k) == None
      && Put([a'], 1, b) == [b] && Evicts([a'], 1, k) == None
      && Put([b], 1, c) == [c] && Evicts([b], 1, j) == Some(b)
      && LiveAt([c], k) == None && LiveAt([a], k) == Some(a) && LiveAt<int>([], k) == None
  {
    OneSlot(Node(k, u, 10));
    OneSlot(Node(k, u, 0));
    OneSlot(Node(k, v, 10));
    OneSlot(Node(j, w, 10));
  }

  lemma SlotBury(k: Key, u: int)
    ensures Bury([Node(k, u, 10)], k) == [Node(k, u, 0)]
  {
    OneSlot(Node(k, u, 10));
  }

  lemma OneSlot(n: Node<int>)
    ensures Lookup([n], n.k) == Some(n) && Has([n], n.k) && Without([n], n.k) == []
    ensures forall q :: q != n.k ==> Lookup([n], q) == None
  {
    assert [n][1..] == [];
    assert [n][0].k == n.k;
  }

  /** With positive times to live, deleted entries of a first-level list stay behind the live
      ones. */
  lemma {:induction false} FirstLevelDeadLast<V>(cfg: Config, ops: seq<Op<V>>, i: nat)
    requires cfg.Valid() && PositiveTtls(ops) && i <= cfg.mask
    ensures Lru2Runs.DeadLast(Run(cfg, ops)[i].l1)
  {
    if ops != [] {
      var init, op := ops[..|ops| - 1], ops[|ops| - 1];
      FirstLevelDeadLast(cfg, init, i);
      RunOk(cfg, init);
      ApplyDeadLast(Run(cfg, init), cfg, op, i);
    }
  }

  /** So a full first-level list gives up a deleted slot before it pushes out a live entry. */
  lemma FirstLevelReusesDeleted<V>(cfg: Config, ops: seq<Op<V>>, i: nat, key: Key, p: nat)
    requires cfg.Valid() && PositiveTtls(ops) && i <= cfg.mask && p < |Run(cfg, ops)[i].l1|
    requires Evicts(Run(cfg, ops)[i].l1, cfg.cap1, key).Some?
    ensures Run(cfg, ops)[i].l1[p].Live()
  {
    FirstLevelDeadLast(cfg, ops, i);
    Lru2Runs.EvictsOnlyWhenAllLive(Run(cfg, ops)[i].l1, cfg.cap1, key, p);
  }

  lemma ApplyDeadLast<V>(st: seq<Bucket<V>>, cfg: Config, op: Op<V>, i: nat)
    requires StoreOk(st, cfg) && i < |st| && Lru2Runs.DeadLast(st[i].l1)
    requires op.SetOp? ==> op.ttl > 0
    ensures Lru2Runs.DeadLast(Apply(st, cfg, op)[i].l1)
  {
    var l := st[i].l1;
    assert SoundBucket(st[i], cfg);
    match op
    case SetOp(key, v, ttl, now) => Lru2Runs.PutDeadLast(l, cfg.cap1, Entry(key, v, ttl, now));
    case GetOp(key, now, now2) => BuryTwice(l, cfg, key);
    case DeleteOp(key) => Lru2Runs.BuryDeadLast(l, key);
    case ClearOp => DeleteKeysDeadLast(st, cfg, LiveKeys(st, |st|), i);
    case CleanupOp(now) => DeleteAllDeadLast(st[i], cfg, ExpiredKeys(st[i], now));
  }

  lemma BuryTwice<V>(l: seq<Node<V>>, cfg: Config, key: Key)
    requires Sound(l, cfg.cap1) && Lru2Runs.DeadLast(l)
    ensures Lru2Runs.DeadLast(Bury(l, key)) && Lru2Runs.DeadLast(Bury(Bury(l, key), key))
  {
    Lru2Runs.BuryDeadLast(l, key);
    BurySound(l, cfg.cap1, key);
    Lru2Runs.BuryDeadLast(Bury(l, key), key);
  }

  lemma {:induction false} DeleteAllDeadLast<V>(b: Bucket<V>, cfg: Config, keys: seq<Key>)
    requires SoundBucket(b, cfg) && Lru2Runs.DeadLast(b.l1)
    ensures Lru2Runs.DeadLast(DeleteAll(b, keys).l1)
  {
    if keys != [] {
      var init := keys[..|keys| - 1];
      DeleteAllDeadLast(b, cfg, init);
      DeleteAllSound(b, cfg, init);
      Lru2Runs.BuryDeadLast(DeleteAll(b, init).l1, keys[|keys| - 1]);
    }
  }

  lemma {:induction false} DeleteKeysDeadLast<V>(st: seq<Bucket<V>>, cfg: Config, keys: seq<Key>, i: nat)
    requires StoreOk(st, cfg) && i < |st| && Lru2Runs.DeadLast(st[i].l1)
    ensures Lru2Runs.DeadLast(DeleteKeys(st, cfg.mask, keys)[i].l1)
  {
    if keys != [] {
      var init, key := keys[..|keys| - 1], keys[|keys| - 1];
      DeleteKeysDeadLast(st, cfg, init, i);
      DeleteKeysOk(st, cfg, init);
      assert SoundBucket(DeleteKeys(st, cfg.mask, init)[i], cfg);
      Lru2Runs.BuryDeadLast(DeleteKeys(st, cfg.mask, init)[i].l1, key);
    }
  }
}
