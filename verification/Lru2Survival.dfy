/** How long an entry of the two-level store is safe from eviction. */
module Lru2Survival {
  import opened Options
  import opened Recency
  import opened RecencyLaws
  import opened Bucketing
  import opened Lru2Model
  import opened Lru2Freshness
  import opened Lru2Observed

  // ---------- one list ----------

  /** The key is live, with at most `n` entries in front of it. */
  predicate Within<V>(s: seq<Node<V>>, k: Key, n: nat) {
    exists i :: 0 <= i < |s| && i <= n && s[i].k == k && s[i].Live()
  }

  lemma WithinLive<V>(s: seq<Node<V>>, k: Key, n: nat)
    requires Distinct(s) && Within(s, k, n)
    ensures LiveAt(s, k).Some?
  {
    var i :| 0 <= i < |s| && i <= n && s[i].k == k && s[i].Live();
    LookupAt(s, i);
  }

  lemma WithoutWithin<V>(s: seq<Node<V>>, key: Key, k: Key, n: nat)
    requires Distinct(s) && key != k && Within(s, k, n)
    ensures Within(Without(s, key), k, n)
  {
    var i :| 0 <= i < |s| && i <= n && s[i].k == k && s[i].Live();
    if Has(s, key) {
      var j :| 0 <= j < |s| && s[j].k == key;
      WithoutAt(s, j);
      assert Without(s, key)[if i < j then i else i - 1] == s[i];
    } else {
      WithoutAbsent(s, key);
    }
  }

  lemma BehindWithin<V>(x: Node<V>, s: seq<Node<V>>, k: Key, n: nat)
    requires Within(s, k, n)
    ensures Within([x] + s, k, n + 1)
  {
    var i :| 0 <= i < |s| && i <= n && s[i].k == k && s[i].Live();
    assert ([x] + s)[i + 1] == s[i];
  }

  /** Storing another key moves it back by one place at most, and pushes it out of the last place only. */
  lemma PutWithin<V>(s: seq<Node<V>>, cap: nat, x: Node<V>, k: Key, n: nat)
    requires Sound(s, cap) && x.k != k && Within(s, k, n) && n + 1 < cap
    ensures Within(Put(s, cap, x), k, n + 1)
    ensures var e := Evicts(s, cap, x.k); e.Some? ==> e.value.k != k
  {
    var i :| 0 <= i < |s| && i <= n && s[i].k == k && s[i].Live();
    if Has(s, x.k) {
      WithoutWithin(s, x.k, k, n);
      BehindWithin(x, Without(s, x.k), k, n);
    } else {
      var rest := if cap <= |s| then s[..|s| - 1] else s;
      assert rest[i] == s[i];
      BehindWithin(x, rest, k, n);
    }
  }

  lemma TouchWithin<V>(s: seq<Node<V>>, key: Key, k: Key, n: nat)
    requires Distinct(s) && key != k && Within(s, k, n)
    ensures Within(Touch(s, key), k, n + 1)
  {
    if Has(s, key) {
      WithoutWithin(s, key, k, n);
      BehindWithin(Lookup(s, key).value, Without(s, key), k, n);
    } else {
      WithinMore(s, k, n, n + 1);
    }
  }

  lemma WithinMore<V>(s: seq<Node<V>>, k: Key, n: nat, m: nat)
    requires Within(s, k, n) && n <= m
    ensures Within(s, k, m)
  {
  }

  lemma BuryWithin<V>(s: seq<Node<V>>, key: Key, k: Key, n: nat)
    requires Distinct(s) && key != k && Within(s, k, n)
    ensures Within(Bury(s, key), k, n)
  {
    if LiveAt(s, key).Some? {
      WithoutWithin(s, key, k, n);
      var w := Without(s, key);
      var i :| 0 <= i < |w| && i <= n && w[i].k == k && w[i].Live();
      assert Bury(s, key)[i] == w[i];
    }
  }

  // ---------- one bucket ----------

  /** The copy that `Get` looks at is live, with at most so many entries in front of it on its level. */
  predicate Safe<V>(b: Bucket<V>, k: Key, n1: nat, n2: nat) {
    if LiveAt(b.l1, k).Some? then Within(b.l1, k, n1) else Within(b.l2, k, n2)
  }

  lemma SafeMore<V>(b: Bucket<V>, k: Key, n1: nat, n2: nat, m1: nat, m2: nat)
    requires Safe(b, k, n1, n2) && n1 <= m1 && n2 <= m2
    ensures Safe(b, k, m1, m2)
  {
  }

  lemma SetSafe<V>(b: Bucket<V>, cfg: Config, n: Node<V>, k: Key, n1: nat, n2: nat)
    requires SoundBucket(b, cfg) && n.k != k && Safe(b, k, n1, n2) && n1 + 1 < cfg.cap1
    ensures Safe(SetIn(b, cfg.cap1, n).b, k, n1 + 1, n2)
    ensures var e := Evicts(b.l1, cfg.cap1, n.k); e.Some? ==> e.value.k != k
  {
    hide Within, Put;
    PutLookup(b.l1, cfg.cap1, n, k);
    if LiveAt(b.l1, k).Some? {
      PutWithin(b.l1, cfg.cap1, n, k, n1);
      PutSound(b.l1, cfg.cap1, n);
      WithinLive(Put(b.l1, cfg.cap1, n), k, n1 + 1);
    } else {
      EvictsLive(b.l1, cfg.cap1, n.k, k);
    }
  }

  lemma EvictsLive<V>(s: seq<Node<V>>, cap: nat, key: Key, k: Key)
    requires Distinct(s) && LiveAt(s, k) == None
    ensures var e := Evicts(s, cap, key); e.Some? ==> e.value.k != k
  {
    if Evicts(s, cap, key).Some? {
      LookupAt(s, |s| - 1);
    }
  }

  lemma DeleteSafe<V>(b: Bucket<V>, cfg: Config, key: Key, k: Key, n1: nat, n2: nat)
    requires SoundBucket(b, cfg) && key != k && Safe(b, k, n1, n2)
    ensures Safe(DeleteIn(b, key).b, k, n1, n2)
  {
    hide Within, Bury;
    BuryLookup(b.l1, key, k);
    if LiveAt(b.l1, k).Some? {
      BuryWithin(b.l1, key, k, n1);
    } else {
      BuryWithin(b.l2, key, k, n2);
    }
  }

  lemma BuryFirstSafe<V>(b: Bucket<V>, cfg: Config, key: Key, k: Key, n1: nat, n2: nat)
    requires SoundBucket(b, cfg) && key != k && Safe(b, k, n1, n2)
    ensures Safe(Bucket(Bury(b.l1, key), b.l2), k, n1, n2)
  {
    hide Within, Bury;
    BuryLookup(b.l1, key, k);
    if LiveAt(b.l1, k).Some? {
      BuryWithin(b.l1, key, k, n1);
    }
  }

  lemma PutSecondSafe<V>(b: Bucket<V>, cfg: Config, x: Node<V>, k: Key, n1: nat, n2: nat)
    requires SoundBucket(b, cfg) && x.k != k && Safe(b, k, n1, n2) && n2 + 1 < cfg.cap2
    ensures Safe(Bucket(b.l1, Put(b.l2, cfg.cap2, x)), k, n1, n2 + 1)
    ensures LiveAt(b.l1, k) == None ==> var e := Evicts(b.l2, cfg.cap2, x.k); e.Some? ==> e.value.k != k
  {
    hide Within, Put;
    if LiveAt(b.l1, k) == None {
      PutWithin(b.l2, cfg.cap2, x, k, n2);
    }
  }

  lemma TouchSecondSafe<V>(b: Bucket<V>, cfg: Config, key: Key, k: Key, n1: nat, n2: nat)
    requires SoundBucket(b, cfg) && key != k && Safe(b, k, n1, n2)
    ensures Safe(Bucket(b.l1, Touch(b.l2, key)), k, n1, n2 + 1)
  {
    hide Within, Touch;
    if LiveAt(b.l1, k) == None {
      TouchWithin(b.l2, key, k, n2);
    }
  }

  lemma GetOtherSafe<V>(b: Bucket<V>, cfg: Config, key: Key, now: int, now2: int, k: Key, n1: nat, n2: nat)
    requires SoundBucket(b, cfg) && key != k && Safe(b, k, n1, n2) && n2 + 1 < cfg.cap2
    ensures Safe(GetIn(b, cfg.cap2, key, now, now2).b, k, n1, n2 + 1)
    ensures LiveAt(b.l1, k) == None && LiveAt(b.l1, key).Some? && now < LiveAt(b.l1, key).value.expireAt ==>
      var e := Evicts(b.l2, cfg.cap2, key); e.Some? ==> e.value.k != k
  {
    hide Safe, Put, Touch, Bury, DeleteIn, Evicts, Sound;
    LookupKey(b.l1, key);
    if LiveAt(b.l1, key).Some? {
      var x := LiveAt(b.l1, key).value;
      var c := Bucket(Bury(b.l1, key), b.l2);
      BuryFirstSafe(b, cfg, key, k, n1, n2);
      BurySound(b.l1, cfg.cap1, key);
      BuryLookup(b.l1, key, k);
      if now >= x.expireAt {
        DeleteSafe(c, cfg, key, k, n1, n2);
        SafeMore(DeleteIn(c, key).b, k, n1, n2, n1, n2 + 1);
      } else {
        PutSecondSafe(c, cfg, x, k, n1, n2);
      }
    } else {
      var c := Bucket(b.l1, Touch(b.l2, key));
      TouchSecondSafe(b, cfg, key, k, n1, n2);
      TouchSound(b.l2, cfg.cap2, key);
      DeleteSafe(c, cfg, key, k, n1, n2 + 1);
    }
  }

  /** Reading the key itself, unexpired, brings its copy to the front of the second level. */
  lemma GetOwnSafe<V>(b: Bucket<V>, cfg: Config, k: Key, now: int, now2: int, n1: nat, n2: nat)
    requires SoundBucket(b, cfg) && cfg.Valid() && Copy(b, k).Some? && now < Copy(b, k).value.expireAt
    ensures Safe(GetIn(b, cfg.cap2, k, now, now2).b, k, n1, n2)
  {
    hide Within, Put, Touch, Bury;
    if LiveAt(b.l1, k).Some? {
      BuryLookup(b.l1, k, k);
      PutFront(b.l2, cfg.cap2, LiveAt(b.l1, k).value);
      WithinMore(Put(b.l2, cfg.cap2, LiveAt(b.l1, k).value), k, 0, n2);
    } else {
      TouchFront(b.l2, k);
      WithinMore(Touch(b.l2, k), k, 0, n2);
    }
  }

  lemma PutFront<V>(s: seq<Node<V>>, cap: nat, x: Node<V>)
    requires x.Live()
    ensures Within(Put(s, cap, x), x.k, 0)
  {
    assert Put(s, cap, x)[0] == x;
  }

  lemma TouchFront<V>(s: seq<Node<V>>, k: Key)
    requires LiveAt(s, k).Some?
    ensures Within(Touch(s, k), k, 0)
  {
    LookupKey(s, k);
    assert Touch(s, k)[0] == LiveAt(s, k).value;
  }

  lemma {:induction false} DeleteAllSafe<V>(b: Bucket<V>, cfg: Config, keys: seq<Key>, k: Key, n1: nat, n2: nat)
    requires SoundBucket(b, cfg) && k !in keys && Safe(b, k, n1, n2)
    ensures Safe(DeleteAll(b, keys), k, n1, n2)
  {
    hide Safe, DeleteIn, Sound;
    if keys != [] {
      var init := keys[..|keys| - 1];
      DeleteAllSafe(b, cfg, init, k, n1, n2);
      DeleteAllSound(b, cfg, init);
      DeleteSafe(DeleteAll(b, init), cfg, keys[|keys| - 1], k, n1, n2);
    }
  }

  lemma CleanSafe<V>(b: Bucket<V>, cfg: Config, now: int, k: Key, n1: nat, n2: nat)
    requires SoundBucket(b, cfg) && Safe(b, k, n1, n2) && !AnyExpired(b, k, now)
    ensures Safe(CleanIn(b, now), k, n1, n2)
  {
    hide Safe, AnyExpired;
    ExpiredKeysHas(b, now, k);
    DeleteAllSafe(b, cfg, ExpiredKeys(b, now), k, n1, n2);
  }

  // ---------- runs ----------

  predicate SetsOther<V>(op: Op<V>, k: Key) { op.SetOp? && op.key != k }

  predicate ReadsOther<V>(op: Op<V>, k: Key) { op.GetOp? && op.key != k }

  function CountSets<V>(ops: seq<Op<V>>, k: Key): nat {
    if ops == [] then 0 else CountSets(ops[..|ops| - 1], k) + if SetsOther(ops[|ops| - 1], k) then 1 else 0
  }

  function CountReads<V>(ops: seq<Op<V>>, k: Key): nat {
    if ops == [] then 0 else CountReads(ops[..|ops| - 1], k) + if ReadsOther(ops[|ops| - 1], k) then 1 else 0
  }

  /** What an operation that does not disturb the key does to its safety. */
  lemma ApplySafe<V>(st: seq<Bucket<V>>, cfg: Config, op: Op<V>, k: Key, n1: nat, n2: nat)
    requires StoreOk(st, cfg) && Safe(st[Idx(k, cfg.mask)], k, n1, n2)
    requires !(op.SetOp? && op.key == k) && op != DeleteOp(k) && !op.ClearOp? && !MeetsExpired(st, cfg, op, k)
    requires n1 + (if SetsOther(op, k) then 1 else 0) < cfg.cap1 && n2 + (if ReadsOther(op, k) then 1 else 0) < cfg.cap2
    ensures Safe(Apply(st, cfg, op)[Idx(k, cfg.mask)], k,
                 n1 + if SetsOther(op, k) then 1 else 0, n2 + if ReadsOther(op, k) then 1 else 0)
    ensures !Disturbs(st, cfg, op, k)
  {
    hide Safe, GetIn, SetIn, CleanIn, DeleteIn, Sound, Evicts, AnyExpired, LiveAt;
    var i := Idx(k, cfg.mask);
    assert BucketOk(st[i], i, cfg);
    match op
    case SetOp(key, v, ttl, now) =>
      PushesOutHere(st, cfg, op, k);
      if Idx(key, cfg.mask) == i {
        SetSafe(st[i], cfg, Entry(key, v, ttl, now), k, n1, n2);
      } else {
        SafeMore(st[i], k, n1, n2, n1 + 1, n2);
      }
    case GetOp(key, now, now2) =>
      PushesSecondHere(st, cfg, op, k);
      if key == k {
        SafeCopy(st[i], cfg, k, n1, n2);
        GetOwnSafe(st[i], cfg, k, now, now2, n1, n2);
      } else if Idx(key, cfg.mask) == i {
        GetOtherSafe(st[i], cfg, key, now, now2, k, n1, n2);
      } else {
        SafeMore(st[i], k, n1, n2, n1, n2 + 1);
      }
    case DeleteOp(key) =>
      if Idx(key, cfg.mask) == i {
        DeleteSafe(st[i], cfg, key, k, n1, n2);
      }
    case ClearOp =>
    case CleanupOp(now) => CleanSafe(st[i], cfg, now, k, n1, n2);
  }

  lemma SafeCopy<V>(b: Bucket<V>, cfg: Config, k: Key, n1: nat, n2: nat)
    requires SoundBucket(b, cfg) && Safe(b, k, n1, n2)
    ensures Copy(b, k).Some?
  {
    if LiveAt(b.l1, k) == None {
      WithinLive(b.l2, k, n2);
    }
  }

  lemma PushesSecondHere<V>(st: seq<Bucket<V>>, cfg: Config, op: Op<V>, k: Key)
    requires StoreOk(st, cfg)
    ensures PushesOutSecond(st, cfg, op, k) ==> Idx(op.key, cfg.mask) == Idx(k, cfg.mask) && op.key != k
  {
    if PushesOutSecond(st, cfg, op, k) {
      var l := st[Idx(op.key, cfg.mask)].l2;
      assert l[|l| - 1].k == k;
      assert Has(l, k);
    }
  }

  /** Operation `j` is the last `Set` of the key; after it come no deletion, fewer `Set`s of other keys than the
      first level holds, fewer `Get`s of other keys than the second level holds, no cleanup after the deadline
      of any `Set` of the key so far, and no `Get` of the key after the deadline of this one. */
  ghost predicate Quiet<V>(cfg: Config, ops: seq<Op<V>>, k: Key, j: nat) {
    && SetAt(ops, k, j) && NotSetAfter(ops, k, j)
    && CountSets(ops[j + 1..], k) < cfg.cap1 && CountReads(ops[j + 1..], k) < cfg.cap2
    && (forall i, m :: j < i < |ops| && ops[i].CleanupOp? && 0 <= m <= j && ops[m].SetOp? && ops[m].key == k ==>
          ops[i].now < ops[m].now + ops[m].ttl)
    && (forall i :: j < i < |ops| && ops[i].GetOp? && ops[i].key == k ==> ops[i].now < ops[j].now + ops[j].ttl)
  }

  lemma QuietInit<V>(cfg: Config, ops: seq<Op<V>>, k: Key, j: nat)
    requires Quiet(cfg, ops, k, j) && j < |ops| - 1
    ensures Quiet(cfg, ops[..|ops| - 1], k, j)
    ensures CountSets(ops[j + 1..], k)
      == CountSets(ops[..|ops| - 1][j + 1..], k) + if SetsOther(ops[|ops| - 1], k) then 1 else 0
    ensures CountReads(ops[j + 1..], k)
      == CountReads(ops[..|ops| - 1][j + 1..], k) + if ReadsOther(ops[|ops| - 1], k) then 1 else 0
  {
    var init := ops[..|ops| - 1];
    assert ops[j + 1..][..|ops| - j - 2] == init[j + 1..];
    assert forall i :: 0 <= i < |init| ==> init[i] == ops[i];
    hide CountSets, CountReads;
  }

  /** Every live copy of a key comes from one of its `Set`s. */
  lemma CopyComesFrom<V>(cfg: Config, ops: seq<Op<V>>, k: Key, n: Node<V>) returns (m: nat)
    requires cfg.Valid() && PositiveTtls(ops)
    requires var b := Run(cfg, ops)[Idx(k, cfg.mask)]; LiveAt(b.l1, k) == Some(n) || LiveAt(b.l2, k) == Some(n)
    ensures SetAt(ops, k, m) && StoredBy(ops, n, m)
  {
    RunFresh(cfg, ops, k);
    var h := History(cfg, ops, k).hist;
    var i: nat :| i < |h| && h[i] == n;
    m := HistoryComesFrom(cfg, ops, k, i);
  }

  /** So the next operation of a quiet run meets no expired copy. */
  lemma QuietMeetsNone<V>(cfg: Config, ops: seq<Op<V>>, k: Key, j: nat)
    requires cfg.Valid() && PositiveTtls(ops) && Quiet(cfg, ops, k, j) && j < |ops| - 1
    requires Undisturbed(cfg, ops[..|ops| - 1], k)
    ensures !MeetsExpired(Run(cfg, ops[..|ops| - 1]), cfg, ops[|ops| - 1], k)
  {
    hide Run, Undisturbed, History, CountSets, CountReads;
    var init, op := ops[..|ops| - 1], ops[|ops| - 1];
    assert forall i :: 0 <= i < |init| ==> init[i] == ops[i];
    var b := Run(cfg, init)[Idx(k, cfg.mask)];
    if op.CleanupOp? && AnyExpired(b, k, op.now) {
      var n := if LiveAt(b.l1, k).Some? && op.now >= LiveAt(b.l1, k).value.expireAt then LiveAt(b.l1, k).value
               else LiveAt(b.l2, k).value;
      var m := CopyComesFrom(cfg, init, k, n);
    }
    if op.GetOp? && op.key == k {
      UndisturbedCopy(cfg, init, k);
      var h := History(cfg, init, k).hist;
      var m := HistoryComesFrom(cfg, init, k, |h| - 1);
      SameSet(init, k, m, j);
    }
  }

  lemma LastSetUndisturbed<V>(cfg: Config, ops: seq<Op<V>>, k: Key)
    requires cfg.Valid() && ops != [] && ops[|ops| - 1].SetOp? && ops[|ops| - 1].key == k && ops[|ops| - 1].ttl > 0
    ensures Undisturbed(cfg, ops, k) && Safe(Run(cfg, ops)[Idx(k, cfg.mask)], k, 0, 0)
  {
    hide Within, Put;
    var init, op := ops[..|ops| - 1], ops[|ops| - 1];
    RunOk(cfg, init);
    var b := Run(cfg, init)[Idx(k, cfg.mask)];
    var n := Entry(k, op.v, op.ttl, op.now);
    assert BucketOk(b, Idx(k, cfg.mask), cfg);
    PutLookup(b.l1, cfg.cap1, n, k);
    PutFront(b.l1, cfg.cap1, n);
  }

  lemma {:induction false} QuietSafe<V>(cfg: Config, ops: seq<Op<V>>, k: Key, j: nat)
    requires cfg.Valid() && PositiveTtls(ops) && Quiet(cfg, ops, k, j)
    ensures Undisturbed(cfg, ops, k)
    ensures Safe(Run(cfg, ops)[Idx(k, cfg.mask)], k, CountSets(ops[j + 1..], k), CountReads(ops[j + 1..], k))
    decreases |ops|
  {
    hide Safe, Apply, Disturbs, MeetsExpired;
    var init, op := ops[..|ops| - 1], ops[|ops| - 1];
    if j == |ops| - 1 {
      LastSetUndisturbed(cfg, ops, k);
      SafeMore(Run(cfg, ops)[Idx(k, cfg.mask)], k, 0, 0, CountSets(ops[j + 1..], k), CountReads(ops[j + 1..], k));
    } else {
      QuietInit(cfg, ops, k, j);
      QuietSafe(cfg, init, k, j);
      QuietMeetsNone(cfg, ops, k, j);
      RunOk(cfg, init);
      ApplySafe(Run(cfg, init), cfg, op, k, CountSets(init[j + 1..], k), CountReads(init[j + 1..], k));
    }
  }

  /** What a caller can count on: after its last `Set`, a key that is not deleted hits with the value of that `Set`
      until its deadline, as long as fewer other keys are stored than the first level holds, fewer are read than
      the second level holds, and no cleanup comes after the deadline of an earlier `Set` of the key. */
  lemma QuietHits<V>(cfg: Config, ops: seq<Op<V>>, k: Key, j: nat, now: nat, now2: nat)
    requires cfg.Valid() && PositiveTtls(ops) && Quiet(cfg, ops, k, j)
    ensures var until := ops[j].now + ops[j].ttl;
      && (now < until && now2 < until ==> Hit(cfg, ops, k, now, now2) == Some(ops[j].v))
      && (now >= until ==> Hit(cfg, ops, k, now, now2) == None)
  {
    hide Run, Undisturbed, Hit, Safe, CountSets, CountReads;
    QuietSafe(cfg, ops, k, j);
    SetHitsUntil(cfg, ops, j, k, ops[j].v, ops[j].ttl, ops[j].now, now, now2);
  }
}
