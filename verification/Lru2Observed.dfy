/** What a caller sees of the two-level store: which `Set` a hit comes from, until when it can come, and whom
    the callback hears of. */
module Lru2Observed {
  import opened Options
  import opened Recency
  import opened RecencyLaws
  import opened Lru2Model
  import opened Lru2Freshness
  import opened Bucketing

  /** Operation `j` sets the key, and it is neither deleted nor cleared afterwards. */
  ghost predicate SetAt<V>(ops: seq<Op<V>>, k: Key, j: nat) {
    && j < |ops| && ops[j].SetOp? && ops[j].key == k
    && forall i :: j < i < |ops| ==> ops[i] != DeleteOp(k) && !ops[i].ClearOp?
  }

  ghost predicate NotSetAfter<V>(ops: seq<Op<V>>, k: Key, j: nat) {
    forall i :: j < i < |ops| ==> !(ops[i].SetOp? && ops[i].key == k)
  }

  /** The entry that operation `j` stores. */
  ghost predicate StoredBy<V>(ops: seq<Op<V>>, n: Node<V>, j: nat) {
    j < |ops| && ops[j].SetOp? && n.v == ops[j].v && n.expireAt == ops[j].now + ops[j].ttl
  }

  lemma SetAtMore<V>(ops: seq<Op<V>>, k: Key, n: Node<V>, j: nat)
    requires ops != [] && ops[|ops| - 1] != DeleteOp(k) && !ops[|ops| - 1].ClearOp?
    requires SetAt(ops[..|ops| - 1], k, j) && StoredBy(ops[..|ops| - 1], n, j)
    ensures SetAt(ops, k, j) && StoredBy(ops, n, j)
    ensures !(ops[|ops| - 1].SetOp? && ops[|ops| - 1].key == k) && NotSetAfter(ops[..|ops| - 1], k, j) ==>
      NotSetAfter(ops, k, j)
  {
    var init := ops[..|ops| - 1];
    assert forall i :: 0 <= i < |init| ==> init[i] == ops[i];
  }

  /** Every entry of the history comes from a `Set` since the last deletion, the latest from the last one. */
  lemma {:induction false} HistoryComesFrom<V>(cfg: Config, ops: seq<Op<V>>, k: Key, i: nat) returns (j: nat)
    requires PositiveTtls(ops) && i < |History(cfg, ops, k).hist|
    ensures var h := History(cfg, ops, k).hist;
      SetAt(ops, k, j) && StoredBy(ops, h[i], j) && (i == |h| - 1 ==> NotSetAfter(ops, k, j))
  {
    hide Run, SetAt, StoredBy, NotSetAfter;
    var init, op := ops[..|ops| - 1], ops[|ops| - 1];
    if op.SetOp? && op.key == k && i == |History(cfg, init, k).hist| {
      j := |ops| - 1;
      LastSet(ops, k);
    } else {
      j := HistoryComesFrom(cfg, init, k, i);
      SetAtMore(ops, k, History(cfg, init, k).hist[i], j);
    }
  }

  lemma LastSet<V>(ops: seq<Op<V>>, k: Key)
    requires ops != [] && ops[|ops| - 1].SetOp? && ops[|ops| - 1].key == k && ops[|ops| - 1].ttl > 0
    ensures var op := ops[|ops| - 1];
      && SetAt(ops, k, |ops| - 1) && NotSetAfter(ops, k, |ops| - 1)
      && StoredBy(ops, Entry(k, op.v, op.ttl, op.now), |ops| - 1)
  {
  }

  /** A hit comes from a `Set` of the key that no deletion followed, before the time of that `Set` plus its time
      to live; from the last one, unless that was pushed out of the first level unread. */
  lemma HitComesFromSet<V>(cfg: Config, ops: seq<Op<V>>, k: Key, now: nat, now2: nat) returns (j: nat)
    requires cfg.Valid() && PositiveTtls(ops) && Hit(cfg, ops, k, now, now2).Some?
    ensures SetAt(ops, k, j)
    ensures Hit(cfg, ops, k, now, now2) == Some(ops[j].v) && now < ops[j].now + ops[j].ttl
    ensures NotSetAfter(ops, k, j) || History(cfg, ops, k).lost
  {
    hide Hit, SetAt, NotSetAfter;
    var n := HitEntry(cfg, ops, k, now, now2);
    var h := History(cfg, ops, k).hist;
    var i: nat :| i < |h| && h[i] == n && (!History(cfg, ops, k).lost ==> i == |h| - 1);
    j := HistoryComesFrom(cfg, ops, k, i);
  }

  /** After a `Set` that is the last one of its key, and that nothing has disturbed, the key hits with its value
      as long as the clock is before the time of that `Set` plus its time to live, and misses from then on. */
  lemma SetHitsUntil<V>(cfg: Config, ops: seq<Op<V>>, j: nat, k: Key, v: V, ttl: int, t: nat, now: nat, now2: nat)
    requires cfg.Valid() && PositiveTtls(ops) && Undisturbed(cfg, ops, k)
    requires j < |ops| && ops[j] == SetOp(k, v, ttl, t) && NotSetAfter(ops, k, j)
    ensures now < t + ttl && now2 < t + ttl ==> Hit(cfg, ops, k, now, now2) == Some(v)
    ensures now >= t + ttl ==> Hit(cfg, ops, k, now, now2) == None
  {
    hide Run, Undisturbed, Copy, GetIn, Idx, LiveAt;
    var h := History(cfg, ops, k).hist;
    UndisturbedCopy(cfg, ops, k);
    var i := HistoryComesFrom(cfg, ops, k, |h| - 1);
    SameSet(ops, k, i, j);
    HitIff(Run(cfg, ops)[Idx(k, cfg.mask)], cfg.cap2, k, now, now2);
  }

  /** Two operations that set the key, both last. */
  lemma SameSet<V>(ops: seq<Op<V>>, k: Key, i: nat, j: nat)
    requires i < |ops| && ops[i].SetOp? && ops[i].key == k && NotSetAfter(ops, k, i)
    requires j < |ops| && ops[j].SetOp? && ops[j].key == k && NotSetAfter(ops, k, j)
    ensures i == j
  {
  }

  // ---------- callbacks of single operations ----------

  /** `Set` reports exactly the live entry of another key that it takes out of the first level. */
  lemma SetFires<V>(b: Bucket<V>, cfg: Config, n: Node<V>, q: Key, v: V)
    requires SoundBucket(b, cfg) && cfg.Valid()
    ensures var o := SetIn(b, cfg.cap1, n);
      && |o.fired| <= 1
      && ((q, v) in o.fired <==>
            q != n.k && LiveAt(b.l1, q).Some? && LiveAt(b.l1, q).value.v == v && LiveAt(o.b.l1, q) == None)
  {
    PutReports(b.l1, cfg.cap1, n, q, v);
  }

  lemma PutReports<V>(s: seq<Node<V>>, cap: nat, n: Node<V>, q: Key, v: V)
    requires Sound(s, cap) && 0 < cap
    ensures (q, v) in Fired(Evicts(s, cap, n.k)) <==>
      q != n.k && LiveAt(s, q).Some? && LiveAt(s, q).value.v == v && LiveAt(Put(s, cap, n), q) == None
  {
    PutLookup(s, cap, n, q);
    if !Has(s, n.k) && cap <= |s| {
      LookupAt(s, |s| - 1);
      assert Has(s, s[|s| - 1].k);
    }
  }

  /** `Delete` reports the key, with the first-level value if there is one. */
  lemma DeleteFires<V>(b: Bucket<V>, key: Key)
    ensures DeleteIn(b, key).fired ==
      if LiveAt(b.l1, key).Some? then [(key, LiveAt(b.l1, key).value.v)]
      else if LiveAt(b.l2, key).Some? then [(key, LiveAt(b.l2, key).value.v)]
      else []
  {
    LookupKey(b.l1, key);
    LookupKey(b.l2, key);
  }

  /** `Get` that promotes a first-level entry reports exactly the live entry of another key that this takes out
      of the second level. `Get` that finds the first-level entry expired reports the second-level copy of the
      key, if that is live, and nothing otherwise. On the second level it reports an expired copy only if it
      expired between the two readings of the clock. */
  lemma GetFires<V>(b: Bucket<V>, cfg: Config, key: Key, now: int, now2: int, q: Key, v: V)
    requires SoundBucket(b, cfg) && cfg.Valid()
    ensures var o, n1, n2 := GetIn(b, cfg.cap2, key, now, now2), LiveAt(b.l1, key), LiveAt(b.l2, key);
      && |o.fired| <= 1
      && ((q, v) in o.fired <==>
            LiveAt(b.l2, q).Some? && LiveAt(b.l2, q).value.v == v &&
            if n1.Some? && now < n1.value.expireAt then q != key && LiveAt(o.b.l2, q) == None
            else q == key && if n1.Some? then now >= n1.value.expireAt else now2 < n2.value.expireAt <= now)
  {
    hide Bury, Put, Touch, Evicts;
    if LiveAt(b.l1, key).Some? {
      var x := LiveAt(b.l1, key).value;
      LookupKey(b.l1, key);
      if now < x.expireAt {
        PutReports(b.l2, cfg.cap2, x, q, v);
      } else {
        BuryLookup(b.l1, key, key);
        DeleteFires(Bucket(Bury(b.l1, key), b.l2), key);
      }
    } else {
      TouchLookup(b.l2, key, key);
      DeleteFires(Bucket(b.l1, Touch(b.l2, key)), key);
    }
  }
}
