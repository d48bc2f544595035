/** Whole runs of the second size-bounded LRU cache. */
module ByteRuns {
  import opened Options
  import opened ByteList
  import opened ByteStore

  /** A `Get` whose sections are apart is its answer, which changes nothing, and a later `DoPromote`;
      `present` says that the element it found is still the one of the key. What happens when it is one
      that `Clear` dropped is in `ElementRuns`. */
  datatype Op =
    | DoSet(key: string, value: Option<string>, ttl: int, now: int, later: int)
    | DoDelete(key: string)
    | DoGet(key: string, now: int)
    | DoPromote(key: string, present: bool)
    | DoUpdate(key: string, ttl: int, now: int)
    | DoClear
    | DoEvict(now: int)
    | DoSetMax(max: int, now: int)

  function Apply(st: Store, op: Op): Store {
    match op
    case DoSet(key, value, ttl, now, later) => Set(st, key, value, ttl, now, later)
    case DoDelete(key) => Delete(st, key)
    case DoGet(key, now) => Get(st, key, now).0
    case DoPromote(key, present) => Promote(st, key, present)
    case DoUpdate(key, ttl, now) => UpdateExpiration(st, key, ttl, now)
    case DoClear => Clear(st)
    case DoEvict(now) => Evict(st, now)
    case DoSetMax(max, now) => SetMaxBytes(st, max, now)
  }

  function Run(max: int, ops: seq<Op>): Store {
    if ops == [] then Store([], map[], max) else Apply(Run(max, ops[..|ops| - 1]), ops[|ops| - 1])
  }

  /** What the last `Set` of a key stored, and until when. */
  datatype Last = Last(value: string, deadline: Option<int>)

  function Until(ttl: int, now: int): Option<int> { if ttl > 0 then Some(now + ttl) else None }

  function Record(l: map<string, Last>, op: Op): map<string, Last> {
    match op
    case DoSet(key, value, ttl, now, _) =>
      if value == None then l - {key} else l[key := Last(value.value, Until(ttl, now))]
    case DoDelete(key) => l - {key}
    case DoUpdate(key, ttl, now) => if key in l then l[key := l[key].(deadline := Until(ttl, now))] else l
    case DoClear => map[]
    case _ => l
  }

  /** The last `Set` of each key after the last `Delete` of it and the last `Clear`. */
  function Latest(ops: seq<Op>): map<string, Last> {
    if ops == [] then map[] else Record(Latest(ops[..|ops| - 1]), ops[|ops| - 1])
  }

  predicate Matches(st: Store, l: map<string, Last>, e: Entry) {
    && e.key in l && l[e.key].value == e.value
    && l[e.key].deadline == if e.key in st.expires then Some(st.expires[e.key]) else None
  }

  ghost predicate Agrees(st: Store, l: map<string, Last>) {
    Good(st) && forall e :: e in st.items ==> Matches(st, l, e)
  }

  /** Good stores, entry by entry. */
  lemma GoodIf(st: Store)
    requires Distinct(st.items) && forall k :: k in st.expires ==> exists e :: e in st.items && e.key == k
    ensures Good(st)
  {
    forall k | k in st.expires ensures Has(st.items, k) {
      HasEntry(st.items, k);
    }
  }

  lemma GoodHas(st: Store, k: string)
    requires Good(st)
    ensures k in st.expires ==> exists e :: e in st.items && e.key == k
    ensures Has(st.items, k) <==> exists e :: e in st.items && e.key == k
  {
    HasEntry(st.items, k);
  }

  lemma EvictAgrees(st: Store, l: map<string, Last>, now: int)
    requires Agrees(st, l)
    ensures Agrees(Evict(st, now), l)
  {
    EvictIs(st, now);
    hide Evict, Good;
    forall e | e in Evict(st, now).items ensures Matches(Evict(st, now), l, e) {
      assert Matches(st, l, e);
    }
  }

  lemma PutAgrees(st: Store, l: map<string, Last>, key: string, value: string, expires: map<string, int>)
    requires Agrees(st, l) && key in l && l[key].value == value
    requires l[key].deadline == if key in expires then Some(expires[key]) else None
    requires expires - {key} == st.expires - {key}
    ensures Agrees(st.(items := Put(st.items, key, value), expires := expires), l)
  {
    var st' := st.(items := Put(st.items, key, value), expires := expires);
    PutIs(st.items, key, value);
    hide Put;
    forall k | k in expires ensures exists e :: e in st'.items && e.key == k {
      if k == key {
        assert Entry(key, value) in st'.items;
      } else {
        assert k in (expires - {key}) && k in st.expires;
        GoodHas(st, k);
        var e :| e in st.items && e.key == k;
        assert e in st'.items;
      }
    }
    GoodIf(st');
    forall e | e in st'.items ensures Matches(st', l, e) {
      if e.key != key {
        assert Matches(st, l, e);
        assert e.key in expires <==> e.key in (expires - {key});
        assert e.key in st.expires <==> e.key in (st.expires - {key});
        assert e.key in expires ==> (expires - {key})[e.key] == (st.expires - {key})[e.key];
      }
    }
  }

  lemma RecordOther(st: Store, l: map<string, Last>, l': map<string, Last>, key: string)
    requires Agrees(st, l) && l' - {key} == l - {key}
    ensures Agrees(st.(items := Without(st.items, key), expires := st.expires - {key}), l')
  {
    var st' := st.(items := Without(st.items, key), expires := st.expires - {key});
    WithoutIs(st.items, key);
    hide Without;
    forall k | k in st'.expires ensures exists e :: e in st'.items && e.key == k {
      GoodHas(st, k);
      var e :| e in st.items && e.key == k;
      assert e in st'.items;
    }
    GoodIf(st');
    forall e | e in st'.items ensures Matches(st', l', e) {
      assert Matches(st, l, e);
      assert e.key in (l - {key}) && (l' - {key})[e.key] == (l - {key})[e.key];
    }
  }

  lemma AbsentOther(st: Store, l: map<string, Last>, l': map<string, Last>, key: string)
    requires Agrees(st, l) && !Has(st.items, key) && l' - {key} == l - {key}
    ensures Agrees(st, l')
  {
    RecordOther(st, l, l', key);
    WithoutAbsent(st.items, key);
    assert st.expires - {key} == st.expires;
  }

  lemma DeleteAgrees(st: Store, l: map<string, Last>, key: string)
    requires Agrees(st, l)
    ensures Agrees(Delete(st, key), l - {key})
  {
    assert (l - {key}) - {key} == l - {key};
    if Has(st.items, key) {
      RecordOther(st, l, l - {key}, key);
    } else {
      AbsentOther(st, l, l - {key}, key);
    }
  }

  /** Storing a key anew does not need what was known about it. */
  lemma StoreAgrees(st: Store, l: map<string, Last>, key: string, value: string, ttl: int, now: int)
    requires Agrees(st, l)
    ensures Agrees(st.(items := Put(st.items, key, value), expires := Deadline(st.expires, key, ttl, now)),
                   l[key := Last(value, Until(ttl, now))])
  {
    var l' := l[key := Last(value, Until(ttl, now))];
    assert l' - {key} == l - {key};
    RecordOther(st, l, l', key);
    var bare := st.(items := Without(st.items, key), expires := st.expires - {key});
    var expires := Deadline(st.expires, key, ttl, now);
    assert expires - {key} == bare.expires - {key};
    PutAgrees(bare, l', key, value, expires);
    WithoutTwice(st.items, key);
  }

  lemma WithoutTwice(s: seq<Entry>, key: string)
    ensures Without(Without(s, key), key) == Without(s, key)
  {
    WithoutHas(s, key, key);
    WithoutAbsent(Without(s, key), key);
  }

  lemma SetAgrees(st: Store, l: map<string, Last>, op: Op)
    requires Agrees(st, l) && op.DoSet?
    ensures Agrees(Apply(st, op), Record(l, op))
  {
    if op.value == None {
      DeleteAgrees(st, l, op.key);
    } else {
      StoreAgrees(st, l, op.key, op.value.value, op.ttl, op.now);
      if !Has(st.items, op.key) {
        var st' := st.(items := Put(st.items, op.key, op.value.value),
                       expires := Deadline(st.expires, op.key, op.ttl, op.now));
        EvictAgrees(st', Record(l, op), op.later);
      }
    }
  }

  lemma GetAgrees(st: Store, l: map<string, Last>, key: string, now: int)
    requires Agrees(st, l)
    ensures Agrees(Get(st, key, now).0, l)
  {
    GetIsBothSections(st, key, now);
    PromoteAgrees(st, l, key, Get(st, key, now).1.Some?);
  }

  lemma PromoteAgrees(st: Store, l: map<string, Last>, key: string, present: bool)
    requires Agrees(st, l)
    ensures Agrees(Promote(st, key, present), l)
  {
    var v := ValueOf(st.items, key);
    if v.Some? {
      assert Matches(st, l, Entry(key, v.value));
      PutAgrees(st, l, key, v.value, st.expires);
    }
  }

  lemma UpdateAgrees(st: Store, l: map<string, Last>, op: Op)
    requires Agrees(st, l) && op.DoUpdate?
    ensures Agrees(Apply(st, op), Record(l, op))
  {
    var l', st' := Record(l, op), Apply(st, op);
    if !Has(st.items, op.key) {
      assert l' - {op.key} == l - {op.key};
      AbsentOther(st, l, l', op.key);
    } else {
      GoodHas(st, op.key);
      forall e | e in st'.items ensures Matches(st', l', e) {
        assert Matches(st, l, e);
      }
    }
  }

  lemma {:induction false} RunAgrees(max: int, ops: seq<Op>)
    ensures Agrees(Run(max, ops), Latest(ops))
  {
    if ops != [] {
      var p, op := ops[..|ops| - 1], ops[|ops| - 1];
      RunAgrees(max, p);
      var st, l := Run(max, p), Latest(p);
      hide Agrees, Get, Evict, Delete, Set, UpdateExpiration, Promote;
      match op
      case DoSet(_, _, _, _, _) => SetAgrees(st, l, op);
      case DoDelete(key) => DeleteAgrees(st, l, key);
      case DoGet(key, now) => GetAgrees(st, l, key, now);
      case DoPromote(key, present) => PromoteAgrees(st, l, key, present);
      case DoUpdate(_, _, _) => UpdateAgrees(st, l, op);
      case DoClear => ClearAgrees(st);
      case DoEvict(now) => EvictAgrees(st, l, now);
      case DoSetMax(m, now) => {
        MaxAgrees(st, l, m);
        EvictAgrees(st.(maxBytes := m), l, now);
      }
    }
  }

  lemma ClearAgrees(st: Store)
    ensures Agrees(Clear(st), map[])
  {
  }

  lemma MaxAgrees(st: Store, l: map<string, Last>, m: int)
    requires Agrees(st, l)
    ensures Agrees(st.(maxBytes := m), l)
  {
    var st' := st.(maxBytes := m);
    forall e | e in st'.items ensures Matches(st', l, e) {
      assert Matches(st, l, e);
    }
  }

  // ---------- what is stored, and when a `Get` hits ----------

  /** The store that `evict` finds, and the time it reads, if the operation evicts. */
  function EvictAt(st: Store, op: Op): Option<(Store, int)> {
    match op
    case DoSet(key, value, ttl, now, later) =>
      if value == None || Has(st.items, key) then None
      else
        Some((st.(items := Put(st.items, key, value.value), expires := Deadline(st.expires, key, ttl, now)), later))
    case DoEvict(now) => Some((st, now))
    case DoSetMax(max, now) => if max > 0 then Some((st.(maxBytes := max), now)) else None
    case _ => None
  }

  /** The eviction of the operation takes the key. */
  predicate PushesKey(st: Store, op: Op, key: string) {
    match EvictAt(st, op)
    case Some((s, t)) => Has(s.items, key) && !Has(Evict(s, t).items, key)
    case None => false
  }

  /** Whom an eviction takes: who has expired, and, under a limit, who is not in a most recent run of the
      others that fits. */
  lemma EvictTakesIff(st: Store, t: int, i: nat)
    requires Good(st) && i < |st.items|
    ensures var e, live := st.items[i], Timely(st, t);
      && (e in live <==> (e.key in st.expires ==> t <= st.expires[e.key]))
      && (e !in live ==> !Has(Evict(st, t).items, e.key))
      && (forall j :: 0 <= j < |live| && live[j] == e ==>
            (Has(Evict(st, t).items, e.key) <==> (st.maxBytes > 0 ==> Size(live[j..]) <= st.maxBytes)))
  {
    var e, live, kept := st.items[i], Timely(st, t), Evict(st, t).items;
    TimelyIs(st, t);
    SiftIs(st.items, Late(st.expires, t));
    EvictIs(st, t);
    HasEntry(kept, e.key);
    hide Sift, Late, Trim, Size, Good, Evict, Has;
    forall j | 0 <= j < |live| && live[j] == e
      ensures Has(kept, e.key) <==> (st.maxBytes > 0 ==> Size(live[j..]) <= st.maxBytes)
    {
      LiveTaken(st, t, j);
    }
  }

  lemma LiveTaken(st: Store, t: int, i: nat)
    requires Good(st) && i < |Timely(st, t)|
    ensures var live := Timely(st, t);
      Has(Evict(st, t).items, live[i].key) <==> (st.maxBytes > 0 ==> Size(live[i..]) <= st.maxBytes)
  {
    var live := Timely(st, t);
    SiftIs(st.items, Late(st.expires, t));
    if st.maxBytes > 0 {
      var k := TrimIs(live, st.maxBytes);
      hide Sift, Late, Trim, Size, Good;
      if k <= i {
        SuffixSize(live, k, i);
      }
      SuffixHas(live, k, i);
    }
  }

  lemma SuffixSize(s: seq<Entry>, k: nat, i: nat)
    requires k <= i <= |s|
    ensures Size(s[i..]) <= Size(s[k..])
  {
    SizeConcat(s[k..i], s[i..]);
    assert s[k..] == s[k..i] + s[i..];
  }

  lemma SuffixHas(s: seq<Entry>, k: nat, i: nat)
    requires Distinct(s) && i < |s| && k <= |s|
    ensures Has(s[k..], s[i].key) <==> k <= i
  {
    if k <= i {
      assert s[k..][i - k].key == s[i].key;
    }
  }

  predicate Stores(op: Op, key: string) { op.DoSet? && op.key == key && op.value.Some? }

  predicate Removes(op: Op, key: string) {
    (op.DoSet? && op.key == key && op.value == None) || op == DoDelete(key) || op == DoClear
  }

  /** The key was pushed out by an eviction since it was last stored or removed. */
  predicate Pushed(max: int, ops: seq<Op>, key: string) {
    ops != [] &&
    var st, op := Run(max, ops[..|ops| - 1]), ops[|ops| - 1];
    if Stores(op, key) then PushesKey(st, op, key)
    else !Removes(op, key) && (Pushed(max, ops[..|ops| - 1], key) || PushesKey(st, op, key))
  }

  /** What an operation does to the presence of a key. */
  lemma HasStep(st: Store, op: Op, key: string)
    requires Good(st)
    ensures Has(Apply(st, op).items, key) <==>
      !Removes(op, key) && (Stores(op, key) || Has(st.items, key)) && !PushesKey(st, op, key)
  {
    match op
    case DoSet(k, v, ttl, now, later) =>
      if v == None {
        DeleteHas(st, k, key);
      } else {
        PutHas(st.items, k, v.value, key);
        if !Has(st.items, k) {
          SetGood(st, k, v.value, ttl, now);
          EvictLess(EvictAt(st, op).value.0, later, key);
        }
      }
    case DoDelete(k) => DeleteHas(st, k, key);
    case DoGet(k, at) => {
      GetIsBothSections(st, k, at);
      PromoteHas(st, k, Get(st, k, at).1.Some?, key);
    }
    case DoPromote(k, present) => PromoteHas(st, k, present, key);
    case DoUpdate(_, _, _) =>
    case DoClear =>
    case DoEvict(at) => EvictLess(st, at, key);
    case DoSetMax(max, at) => EvictLess(st.(maxBytes := max), at, key);
  }

  lemma EvictLess(st: Store, at: int, key: string)
    requires Good(st)
    ensures Has(Evict(st, at).items, key) ==> Has(st.items, key)
  {
    EvictIs(st, at);
    HasEntry(st.items, key);
    HasEntry(Evict(st, at).items, key);
  }

  lemma DeleteHas(st: Store, gone: string, key: string)
    ensures Has(Delete(st, gone).items, key) <==> Has(st.items, key) && key != gone
  {
    WithoutHas(st.items, gone, key);
  }

  lemma PromoteHas(st: Store, front: string, present: bool, key: string)
    requires Good(st)
    ensures Has(Promote(st, front, present).items, key) <==> Has(st.items, key)
  {
    var v := ValueOf(st.items, front);
    if v.Some? {
      PutHas(st.items, front, v.value, key);
    }
  }

  /** A key is stored exactly if it was stored after its last removal and not pushed out since. */
  lemma {:induction false} StoredIff(max: int, ops: seq<Op>, key: string)
    ensures Has(Run(max, ops).items, key) <==> key in Latest(ops) && !Pushed(max, ops, key)
  {
    if ops != [] {
      var p, op := ops[..|ops| - 1], ops[|ops| - 1];
      StoredIff(max, p, key);
      RunGood(max, p);
      HasStep(Run(max, p), op, key);
      RecordHas(Latest(p), op, key);
      hide Apply, PushesKey, Record, Has, Good;
    }
  }

  lemma RecordHas(l: map<string, Last>, op: Op, key: string)
    ensures key in Record(l, op) <==> !Removes(op, key) && (Stores(op, key) || key in l)
  {
  }

  /** A `Get` hits exactly if the key was stored after its last removal, has not been pushed out since,
      and its latest deadline has not passed; and then it returns the latest value. */
  lemma HitIff(max: int, ops: seq<Op>, key: string, now: int)
    ensures Get(Run(max, ops), key, now).1 ==
      if key in Latest(ops) && !Pushed(max, ops, key) && Unexpired(Latest(ops)[key], now)
      then Some(Latest(ops)[key].value) else None
  {
    StoredIff(max, ops, key);
    RunAgrees(max, ops);
    var st := Run(max, ops);
    if Has(st.items, key) {
      StoredIsLatest(st, Latest(ops), key);
      assert Matches(st, Latest(ops), Entry(key, ValueOf(st.items, key).value));
    }
    hide Run, Latest, Pushed, Agrees;
  }

  /** Every hit, in every run, is the value of the last `Set` of the key, no later `Delete` or `Clear`
      came between, and its deadline, if it has one, has not passed. */
  lemma HitIsLatest(max: int, ops: seq<Op>, key: string, now: int)
    requires Get(Run(max, ops), key, now).1.Some?
    ensures var l, v := Latest(ops), Get(Run(max, ops), key, now).1;
      && key in l && l[key].value == v.value
      && (l[key].deadline.Some? ==> now <= l[key].deadline.value)
  {
    RunAgrees(max, ops);
    var st := Run(max, ops);
    assert Matches(st, Latest(ops), Entry(key, ValueOf(st.items, key).value));
  }

  /** In every run there is one entry per key, and deadlines only for keys that are there. */
  lemma RunGood(max: int, ops: seq<Op>)
    ensures Good(Run(max, ops))
  {
    RunAgrees(max, ops);
  }

  /** A `Set` ends within the bound exactly when the key was new or its longer value still fits. */
  lemma SetWithinBoundIff(st: Store, key: string, value: string, ttl: int, now: int, later: int)
    requires Good(st) && st.maxBytes > 0
    ensures Size(Set(st, key, Some(value), ttl, now, later).items) <= st.maxBytes <==>
      (Has(st.items, key) ==> Size(st.items) - |ValueOf(st.items, key).value| + |value| <= st.maxBytes)
  {
    if Has(st.items, key) {
      PutSize(st.items, key, value);
    } else {
      var st' := st.(items := Put(st.items, key, value), expires := Deadline(st.expires, key, ttl, now));
      var k := TrimIs(Sift(st'.items, Late(st'.expires, later)), st.maxBytes);
    }
  }

  lemma PutSize(s: seq<Entry>, key: string, value: string)
    requires Distinct(s) && Has(s, key)
    ensures Size(Put(s, key, value)) == Size(s) - |ValueOf(s, key).value| + |value|
  {
    var e := Entry(key, ValueOf(s, key).value);
    var i :| 0 <= i < |s| && s[i] == e;
    WithoutAt(s, i);
    SizeConcat(Without(s, key), [Entry(key, value)]);
  }

  /** An update that is longer than the room left breaks the bound. */
  lemma UpdateExceedsBound()
    ensures var st := Store([Entry("k", "v")], map[], 2);
      Good(st) && Size(st.items) <= 2 && Size(Set(st, "k", Some("vw"), 0, 0, 0).items) == 3
  {
    var e := Entry("k", "v");
    var st := Store([e], map[], 2);
    assert [e][1..] == [];
    assert Size([e]) == 2;
    assert st.items[0].key == "k" && Has(st.items, "k");
    assert ValueOf(st.items, "k") == Some("v");
    PutSize(st.items, "k", "vw");
  }

  // ---------- the deletion that an expired `Get` schedules ----------

  predicate Stale(st: Store, key: string, now: int) { Has(st.items, key) ==> Expired(st, key, now) }

  /** The operation gives the key a new value or a new deadline. */
  predicate Refreshes(op: Op, key: string) {
    (op.DoSet? && op.key == key && op.value.Some?) || (op.DoUpdate? && op.key == key)
  }

  lemma EvictStale(st: Store, key: string, now: int, at: int)
    requires Good(st) && Stale(st, key, now)
    ensures Stale(Evict(st, at), key, now)
  {
    var st' := Evict(st, at);
    EvictIs(st, at);
    hide Evict;
    HasEntry(st.items, key);
    HasEntry(st'.items, key);
  }

  lemma PutHas(s: seq<Entry>, key: string, value: string, k: string)
    requires Distinct(s)
    ensures Has(Put(s, key, value), k) <==> k == key || Has(s, k)
  {
    var r := Put(s, key, value);
    PutIs(s, key, value);
    hide Put;
    HasEntry(s, k);
    HasEntry(r, k);
    assert Entry(key, value) in r;
    if Has(s, k) && k != key {
      var e :| e in s && e.key == k;
      assert e in r;
    }
  }

  lemma SetStale(st: Store, op: Op, key: string, now: int)
    requires Good(st) && Stale(st, key, now) && op.DoSet? && op.value.Some? && op.key != key
    ensures Stale(Apply(st, op), key, now)
  {
    PutHas(st.items, op.key, op.value.value, key);
    var st' := st.(items := Put(st.items, op.key, op.value.value),
                   expires := Deadline(st.expires, op.key, op.ttl, op.now));
    assert Stale(st', key, now);
    if !Has(st.items, op.key) {
      SetGood(st, op.key, op.value.value, op.ttl, op.now);
      EvictStale(st', key, now, op.later);
    }
  }

  lemma SetGood(st: Store, key: string, value: string, ttl: int, now: int)
    requires Good(st)
    ensures Good(st.(items := Put(st.items, key, value), expires := Deadline(st.expires, key, ttl, now)))
  {
    PutIs(st.items, key, value);
    forall k | k in Deadline(st.expires, key, ttl, now) ensures Has(Put(st.items, key, value), k) {
      PutHas(st.items, key, value, k);
    }
  }

  lemma DeleteStale(st: Store, gone: string, key: string, now: int)
    requires Stale(st, key, now)
    ensures Stale(Delete(st, gone), key, now)
  {
    WithoutHas(st.items, gone, key);
  }

  lemma PromoteStale(st: Store, front: string, present: bool, key: string, now: int)
    requires Good(st) && Stale(st, key, now)
    ensures Stale(Promote(st, front, present), key, now)
  {
    var v := ValueOf(st.items, front);
    if v.Some? {
      PutHas(st.items, front, v.value, key);
    }
  }

  /** An expired or absent key stays so under everything that does not refresh it. */
  lemma StaleKept(st: Store, op: Op, key: string, now: int)
    requires Good(st) && Stale(st, key, now) && !Refreshes(op, key)
    ensures Stale(Apply(st, op), key, now)
  {
    match op
    case DoSet(k, v, _, _, _) =>
      if v == None {
        DeleteStale(st, k, key, now);
      } else {
        SetStale(st, op, key, now);
      }
    case DoDelete(k) => DeleteStale(st, k, key, now);
    case DoGet(k, at) => {
      GetIsBothSections(st, k, at);
      PromoteStale(st, k, Get(st, k, at).1.Some?, key, now);
    }
    case DoPromote(k, present) => PromoteStale(st, k, present, key, now);
    case DoUpdate(_, _, _) =>
    case DoClear =>
    case DoEvict(at) => EvictStale(st, key, now, at);
    case DoSetMax(max, at) => EvictStale(st.(maxBytes := max), key, now, at);
  }

  ghost predicate SomeRefreshes(ops: seq<Op>, key: string) {
    exists i :: 0 <= i < |ops| && Refreshes(ops[i], key)
  }

  lemma {:induction false} StaleRun(max: int, ops: seq<Op>, mid: seq<Op>, key: string, now: int)
    requires Stale(Run(max, ops), key, now) && !SomeRefreshes(mid, key)
    ensures Stale(Run(max, ops + mid), key, now)
    decreases |mid|
  {
    if mid == [] {
      assert ops + mid == ops;
    } else {
      var n := |mid| - 1;
      assert !SomeRefreshes(mid[..n], key) by {
        assert forall i :: 0 <= i < n ==> mid[..n][i] == mid[i];
      }
      StaleRun(max, ops, mid[..n], key, now);
      assert (ops + mid)[..|ops + mid| - 1] == ops + mid[..n];
      RunGood(max, ops + mid[..n]);
      StaleKept(Run(max, ops + mid[..n]), mid[n], key, now);
      hide Apply;
    }
  }

  /** The deadline of the last `Set` or `UpdateExpiration`, if there is one, has not passed at `t`. */
  predicate Unexpired(l: Last, t: int) { l.deadline.Some? ==> t <= l.deadline.value }

  /** `Get` would hit before the operation, and misses after it. */
  ghost predicate Loses(max: int, ops: seq<Op>, op: Op, key: string, t: int) {
    Get(Run(max, ops), key, t).1.Some? && Get(Run(max, ops + [op]), key, t).1 == None
  }

  /** A `Get` at `now` finds the key expired and schedules its deletion, which comes at `t` after any
      operations `mid`. It loses a value if and only if one of them refreshed the key, the key is still
      stored, and the latest deadline has not passed. Without a refresh it only ever removes what has
      expired. */
  lemma LateDeleteIff(max: int, ops: seq<Op>, key: string, now: int, mid: seq<Op>, t: int)
    requires Has(Run(max, ops).items, key) && Expired(Run(max, ops), key, now) && now <= t
    ensures Get(Run(max, ops), key, now).1 == None
    ensures var all := ops + [DoGet(key, now)] + mid;
      Loses(max, all, DoDelete(key), key, t) <==>
        && SomeRefreshes(mid, key)
        && Has(Run(max, all).items, key)
        && key in Latest(all) && Unexpired(Latest(all)[key], t)
  {
    var read := ops + [DoGet(key, now)];
    var all := read + mid;
    assert read[..|ops|] == ops && Run(max, read) == Run(max, ops);
    if !SomeRefreshes(mid, key) {
      StaleRun(max, read, mid, key, now);
    }
    var st := Run(max, all);
    RunAgrees(max, all);
    if Has(st.items, key) {
      StoredIsLatest(st, Latest(all), key);
    }
    assert (all + [DoDelete(key)])[..|all|] == all;
    DeletedMisses(st, key, t);
    hide Run, Latest, Agrees, Delete;
  }

  lemma StoredIsLatest(st: Store, l: map<string, Last>, key: string)
    requires Agrees(st, l) && Has(st.items, key)
    ensures key in l && forall t :: Expired(st, key, t) <==> !Unexpired(l[key], t)
  {
    assert Matches(st, l, Entry(key, ValueOf(st.items, key).value));
  }

  lemma DeletedMisses(st: Store, key: string, t: int)
    ensures Get(Delete(st, key), key, t).1 == None
  {
    WithoutHas(st.items, key, key);
  }

  /** With one `Set` in between, the fresh value is lost. */
  lemma LateDeleteDropsFreshValue(max: int, ops: seq<Op>, key: string, value: string, now: int)
    requires Has(Run(max, ops).items, key) && Expired(Run(max, ops), key, now)
    ensures Loses(max, ops + [DoGet(key, now)] + [DoSet(key, Some(value), 0, now, now)], DoDelete(key), key, now)
  {
    var mid := [DoSet(key, Some(value), 0, now, now)];
    var read := ops + [DoGet(key, now)];
    var all := read + mid;
    assert read[..|ops|] == ops && all[..|read|] == read;
    assert Refreshes(mid[0], key);
    var st := Run(max, ops);
    RunGood(max, ops);
    PutHas(st.items, key, value, key);
    LateDeleteIff(max, ops, key, now, mid, now);
  }
}
