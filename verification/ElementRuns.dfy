/** Runs of the second size-bounded LRU cache in which the two sections of a `Get` are apart, with the
    elements and the links of its list. */
module ElementRuns {
  import opened Options
  import opened ByteList
  import opened ByteStore
  import opened ByteRuns
  import C = ElementChain

  /** Elements are numbered as they are made; `born` says for which key. `ids` is the map of the cache,
      `strays` are the elements that `Clear` has dropped. */
  datatype World = World(st: Store, used: int, ids: map<string, nat>, chain: C.Chain<nat>,
                         born: seq<string>, strays: set<nat>)

  /** A whole operation, or the second section of a `Get` that found element `elem`. */
  datatype Move = Whole(op: Op) | Second(key: string, elem: nat)

  function Start(max: int): World { World(Store([], map[], max), 0, map[], C.New(), [], {}) }

  predicate Enabled(w: World, m: Move) {
    match m
    case Whole(op) => !op.DoPromote?
    case Second(key, elem) => elem < |w.born| && w.born[elem] == key
  }

  /** The elements of the entries. */
  function Elements(ids: map<string, nat>, s: seq<Entry>): (r: seq<nat>)
    ensures |r| == |s|
    ensures forall i :: 0 <= i < |s| && s[i].key in ids ==> r[i] == ids[s[i].key]
  {
    seq(|s|, i requires 0 <= i < |s| => if s[i].key in ids then ids[s[i].key] else 0)
  }

  /** `removeElement` for every entry of `s` whose key is not in `kept`. */
  function Prune(c: C.Chain<nat>, ids: map<string, nat>, s: seq<Entry>, kept: seq<Entry>): C.Chain<nat>
    decreases |s|
  {
    if s == [] then c
    else if Has(kept, s[0].key) || s[0].key !in ids then Prune(c, ids, s[1..], kept)
    else Prune(C.Remove(c, ids[s[0].key]), ids, s[1..], kept)
  }

  /** The bytes of those entries. */
  function Shed(s: seq<Entry>, kept: seq<Entry>): nat {
    if s == [] then 0 else (if Has(kept, s[0].key) then 0 else Cost(s[0])) + Shed(s[1..], kept)
  }

  /** Elements leave one by one until the store is `st`. */
  function Settle(w: World, st: Store): World {
    w.(st := st,
       used := w.used - Shed(w.st.items, st.items),
       ids := map k | k in w.ids && Has(st.items, k) :: w.ids[k],
       chain := Prune(w.chain, w.ids, w.st.items, st.items))
  }

  function SetMove(w: World, key: string, value: string, ttl: int, now: int, later: int): World {
    var st := Set(w.st, key, Some(value), ttl, now, later);
    if key in w.ids then
      var was := ValueOf(w.st.items, key);
      w.(st := st,
         used := w.used + |value| - (if was.Some? then |was.value| else 0),
         chain := C.MoveToBack(w.chain, w.ids[key]))
    else
      var elem := |w.born|;
      var pushed := w.st.(items := w.st.items + [Entry(key, value)], expires := Deadline(w.st.expires, key, ttl, now));
      Settle(World(pushed, w.used + |key| + |value|, w.ids[key := elem], C.PushBack(w.chain, elem),
                   w.born + [key], w.strays), st)
  }

  function Step(w: World, m: Move): World
    requires Enabled(w, m)
  {
    match m
    case Second(key, elem) =>
      if key !in w.ids then w
      else w.(st := Promote(w.st, key, elem == w.ids[key]), chain := C.MoveToBack(w.chain, elem))
    case Whole(op) =>
      var st := Apply(w.st, op);
      match op
      case DoSet(key, value, ttl, now, later) =>
        if value == None then Settle(w, st) else SetMove(w, key, value.value, ttl, now, later)
      case DoGet(key, now) =>
        if Get(w.st, key, now).1.Some? && key in w.ids then w.(st := st, chain := C.MoveToBack(w.chain, w.ids[key]))
        else w.(st := st)
      case DoUpdate(_, _, _) => w.(st := st)
      case DoClear => World(st, 0, map[], C.Init(w.chain), w.born, w.strays + w.ids.Values)
      case _ => Settle(w, st)
  }

  function Run(max: int, ms: seq<Move>): Option<World> {
    if ms == [] then Some(Start(max))
    else
      var w, m := Run(max, ms[..|ms| - 1]), ms[|ms| - 1];
      if w.Some? && Enabled(w.value, m) then Some(Step(w.value, m)) else None
  }

  /** The list is one ring of the elements of the map, in the order of the entries, one for each key, and
      the bytes are accounted for. */
  ghost predicate InOrder(w: World) {
    && Good(w.st)
    && (forall k :: k in w.ids <==> Has(w.st.items, k))
    && C.Represents(w.chain, Elements(w.ids, w.st.items))
    && w.used == Size(w.st.items)
  }

  ghost predicate Sane(w: World) {
    && Good(w.st)
    && (forall k :: k in w.ids <==> Has(w.st.items, k))
    && C.Keeps(w.chain, Elements(w.ids, w.st.items), w.strays)
    && w.used == Size(w.st.items)
    && (forall k :: k in w.ids ==> w.ids[k] < |w.born| && w.born[w.ids[k]] == k)
    && (forall e :: e in w.chain.owned ==> e < |w.born|)
  }

  /** A second section meets an element that `Clear` dropped, and its key is stored again. */
  predicate Spoils(w: World, m: Move) { m.Second? && m.key in w.ids && m.elem in w.strays }

  // ---------- entries leave ----------

  lemma ElementsCons(ids: map<string, nat>, e: Entry, s: seq<Entry>)
    ensures Elements(ids, [e] + s) == [if e.key in ids then ids[e.key] else 0] + Elements(ids, s)
  {
  }

  /** The entries of `s` that stay are those without a mark in `gone`. */
  ghost predicate Marked(ids: map<string, nat>, s: seq<Entry>, kept: seq<Entry>, gone: set<string>) {
    forall i :: 0 <= i < |s| ==> s[i].key in ids && (Has(kept, s[i].key) <==> s[i].key !in gone)
  }

  lemma MarkedTail(ids: map<string, nat>, s: seq<Entry>, kept: seq<Entry>, gone: set<string>)
    requires Marked(ids, s, kept, gone) && s != []
    ensures s[0].key in ids && (Has(kept, s[0].key) <==> s[0].key !in gone) && Marked(ids, s[1..], kept, gone)
    ensures Elements(ids, s) == [ids[s[0].key]] + Elements(ids, s[1..])
  {
    hide Has;
  }

  lemma {:induction false} PruneKeeps(c: C.Chain<nat>, ids: map<string, nat>, pre: seq<nat>, s: seq<Entry>,
                                      kept: seq<Entry>, gone: set<string>, strays: set<nat>)
    requires C.Keeps(c, pre + Elements(ids, s), strays) && Marked(ids, s, kept, gone)
    ensures C.Keeps(Prune(c, ids, s, kept), pre + Elements(ids, Sift(s, gone)), strays)
    ensures Prune(c, ids, s, kept).owned <= c.owned
    decreases |s|
  {
    if s != [] {
      hide C.Keeps, C.Remove, Elements, Has, Marked;
      MarkedTail(ids, s, kept, gone);
      if Has(kept, s[0].key) {
        PruneStay(c, ids, pre, s, kept, gone, strays);
      } else {
        PruneGo(c, ids, pre, s, strays);
        PruneKeeps(C.Remove(c, ids[s[0].key]), ids, pre, s[1..], kept, gone, strays);
      }
    }
  }

  lemma {:induction false} PruneStay(c: C.Chain<nat>, ids: map<string, nat>, pre: seq<nat>, s: seq<Entry>,
                                     kept: seq<Entry>, gone: set<string>, strays: set<nat>)
    requires C.Keeps(c, pre + Elements(ids, s), strays) && Marked(ids, s, kept, gone)
    requires s != [] && Has(kept, s[0].key)
    ensures C.Keeps(Prune(c, ids, s, kept), pre + Elements(ids, Sift(s, gone)), strays)
    ensures Prune(c, ids, s, kept).owned <= c.owned
    decreases |s|, 0
  {
    hide C.Keeps, C.Remove, Elements, Has, Marked;
    MarkedTail(ids, s, kept, gone);
    var e, rest := ids[s[0].key], s[1..];
    Regroup(pre, e, Elements(ids, rest));
    PruneKeeps(c, ids, pre + [e], rest, kept, gone, strays);
    ElementsCons(ids, s[0], Sift(rest, gone));
    Regroup(pre, e, Elements(ids, Sift(rest, gone)));
  }

  lemma Regroup(pre: seq<nat>, e: nat, rest: seq<nat>)
    ensures pre + ([e] + rest) == pre + [e] + rest
  {
  }

  lemma PruneGo(c: C.Chain<nat>, ids: map<string, nat>, pre: seq<nat>, s: seq<Entry>, strays: set<nat>)
    requires s != [] && s[0].key in ids && C.Keeps(c, pre + Elements(ids, s), strays)
    ensures C.Keeps(C.Remove(c, ids[s[0].key]), pre + Elements(ids, s[1..]), strays)
    ensures C.Remove(c, ids[s[0].key]).owned <= c.owned
  {
    hide C.Keeps, C.Remove;
    var e, all := ids[s[0].key], pre + Elements(ids, s);
    assert all[|pre|] == e;
    C.KeepsRemove(c, all, strays, |pre|);
    assert C.Without(all, |pre|) == pre + Elements(ids, s[1..]);
    RemoveOwned(c, e);
  }

  lemma RemoveOwned(c: C.Chain<nat>, e: nat)
    ensures C.Remove(c, e).owned <= c.owned
  {
  }

  lemma {:induction false} ShedIs(s: seq<Entry>, kept: seq<Entry>, gone: set<string>)
    requires forall i :: 0 <= i < |s| ==> (Has(kept, s[i].key) <==> s[i].key !in gone)
    ensures Size(Sift(s, gone)) == Size(s) - Shed(s, kept)
  {
    if s != [] {
      assert forall i :: 0 <= i < |s| - 1 ==> s[1..][i] == s[i + 1];
      ShedIs(s[1..], kept, gone);
    }
  }

  lemma SiftHas(s: seq<Entry>, gone: set<string>, k: string)
    requires Distinct(s)
    ensures Has(Sift(s, gone), k) <==> Has(s, k) && k !in gone
  {
    SiftIs(s, gone);
    HasEntry(s, k);
    HasEntry(Sift(s, gone), k);
  }

  lemma SettleKeys(w: World, st: Store, gone: set<string>)
    requires Distinct(w.st.items) && (forall k :: k in w.ids <==> Has(w.st.items, k))
    requires st.items == Sift(w.st.items, gone)
    ensures Marked(w.ids, w.st.items, st.items, gone)
    ensures forall k :: k in Settle(w, st).ids <==> Has(st.items, k)
  {
    var s := w.st.items;
    forall k ensures Has(st.items, k) <==> Has(s, k) && k !in gone {
      SiftHas(s, gone, k);
    }
    forall i | 0 <= i < |s| ensures Has(s, s[i].key) {
    }
    hide Has, Sift;
  }

  /** Fewer keys in the map make no difference to the entries that are left. */
  lemma SameElements(ids: map<string, nat>, ids': map<string, nat>, s: seq<Entry>)
    requires forall k :: k in ids' <==> k in ids && Has(s, k)
    requires forall k :: k in ids' ==> ids'[k] == ids[k]
    ensures Elements(ids', s) == Elements(ids, s)
  {
    forall i | 0 <= i < |s| ensures Has(s, s[i].key) {
    }
    hide Has;
  }

  /** Taking out the entries of some keys keeps the world sane. */
  lemma SettleSane(w: World, st: Store, gone: set<string>)
    requires Sane(w) && Good(st) && st.items == Sift(w.st.items, gone)
    ensures Sane(Settle(w, st))
  {
    hide C.Keeps, Prune, Shed, Sift, Size, Has, Marked, Elements;
    var w' := Settle(w, st);
    SettleKeys(w, st, gone);
    Unprefixed(w.ids, w.st.items);
    Unprefixed(w.ids, st.items);
    PruneKeeps(w.chain, w.ids, [], w.st.items, st.items, gone, w.strays);
    MarkedShed(w.ids, w.st.items, st.items, gone);
    SameElements(w.ids, w'.ids, st.items);
    hide Good;
  }

  lemma Unprefixed(ids: map<string, nat>, s: seq<Entry>)
    ensures [] + Elements(ids, s) == Elements(ids, s)
  {
  }

  lemma MarkedShed(ids: map<string, nat>, s: seq<Entry>, kept: seq<Entry>, gone: set<string>)
    requires Marked(ids, s, kept, gone)
    ensures Size(Sift(s, gone)) == Size(s) - Shed(s, kept)
  {
    ShedIs(s, kept, gone);
  }

  // ---------- every operation takes out entries, or moves one to the back, or pushes one ----------

  lemma {:induction false} TailIsSift(s: seq<Entry>, k: nat) returns (gone: set<string>)
    requires Distinct(s) && k <= |s|
    ensures s[k..] == Sift(s, gone)
    ensures forall x :: x in gone ==> Has(s[..k], x)
  {
    if k == 0 {
      gone := {};
      SiftAway(s, {});
      assert s[0..] == s;
    } else {
      var rest := s[1..];
      assert Distinct(rest);
      var g := TailIsSift(rest, k - 1);
      gone := g + {s[0].key};
      assert rest[k - 1..] == s[k..];
      forall x | x in gone ensures Has(s[..k], x) {
        if x in g {
          var i :| 0 <= i < k - 1 && rest[..k - 1][i].key == x;
          assert s[..k][i + 1].key == x;
        } else {
          assert s[..k][0].key == x;
        }
      }
      SiftMoreAway(rest, g, s[0].key);
    }
  }

  lemma {:induction false} SiftAway(s: seq<Entry>, gone: set<string>)
    requires forall i :: 0 <= i < |s| ==> s[i].key !in gone
    ensures Sift(s, gone) == s
  {
    if s != [] {
      SiftAway(s[1..], gone);
      assert [s[0]] + s[1..] == s;
    }
  }

  lemma {:induction false} SiftMoreAway(s: seq<Entry>, gone: set<string>, key: string)
    requires forall i :: 0 <= i < |s| ==> s[i].key != key
    ensures Sift(s, gone + {key}) == Sift(s, gone)
  {
    if s != [] {
      SiftMoreAway(s[1..], gone, key);
    }
  }

  lemma {:induction false} SiftTwice(s: seq<Entry>, a: set<string>, b: set<string>)
    ensures Sift(Sift(s, a), b) == Sift(s, a + b)
  {
    if s != [] {
      SiftTwice(s[1..], a, b);
    }
  }

  lemma EvictSifts(st: Store, now: int) returns (gone: set<string>)
    requires Good(st)
    ensures Evict(st, now).items == Sift(st.items, gone)
  {
    var late := Late(st.expires, now);
    var live := Sift(st.items, late);
    SiftIs(st.items, late);
    var k := 0;
    if st.maxBytes > 0 {
      k := TrimIs(live, st.maxBytes);
    }
    assert live[0..] == live;
    var g := TailIsSift(live, k);
    gone := late + g;
    SiftTwice(st.items, late, g);
  }

  lemma EvictSane(w: World, now: int)
    requires Sane(w)
    ensures Sane(Settle(w, Evict(w.st, now)))
  {
    var gone := EvictSifts(w.st, now);
    EvictIs(w.st, now);
    hide Evict, Settle, Sane;
    SettleSane(w, Evict(w.st, now), gone);
  }

  lemma DeleteSane(w: World, key: string)
    requires Sane(w)
    ensures Sane(Settle(w, Delete(w.st, key)))
  {
    DeleteGood(w.st, key);
    WithoutIsSift(w.st.items, key);
    if Has(w.st.items, key) {
      SettleSane(w, Delete(w.st, key), {key});
    } else {
      WithoutAbsent(w.st.items, key);
      SettleSane(w, w.st, {key});
    }
  }

  lemma DeleteGood(st: Store, key: string)
    requires Good(st)
    ensures Good(Delete(st, key))
  {
    WithoutIs(st.items, key);
    forall k | k in st.expires && k != key ensures Has(Without(st.items, key), k) {
      WithoutHas(st.items, key, k);
    }
  }

  /** Where the entry of a key is. */
  lemma PlaceOf(w: World, key: string) returns (i: nat)
    requires Sane(w) && key in w.ids
    ensures i < |w.st.items| && w.st.items[i].key == key && Elements(w.ids, w.st.items)[i] == w.ids[key]
    ensures ValueOf(w.st.items, key) == Some(w.st.items[i].value)
  {
    i :| 0 <= i < |w.st.items| && w.st.items[i].key == key;
    var e := Entry(key, ValueOf(w.st.items, key).value);
    var j :| 0 <= j < |w.st.items| && w.st.items[j] == e;
    assert i == j;
  }

  /** Storing a value under a key that is there is moving its element to the back. */
  lemma MovedSane(w: World, key: string, value: string, expires: map<string, int>)
    requires Sane(w) && key in w.ids
    requires Good(w.st.(items := Put(w.st.items, key, value), expires := expires))
    ensures Sane(w.(st := w.st.(items := Put(w.st.items, key, value), expires := expires),
                    used := w.used + |value| - |ValueOf(w.st.items, key).value|,
                    chain := C.MoveToBack(w.chain, w.ids[key])))
  {
    hide C.Keeps, C.MoveToBack, Put, Elements, Has, Size, ValueOf;
    var s := w.st.items;
    var i := PlaceOf(w, key);
    C.KeepsMove(w.chain, Elements(w.ids, s), w.strays, i);
    MovedElements(w.ids, s, i, value);
    MovedSize(s, i, value);
    forall k ensures Has(Put(s, key, value), k) <==> Has(s, k) {
      PutHas(s, key, value, k);
      ValueHas(s, key);
    }
    MoveOwned(w.chain, w.ids[key]);
    hide Good;
  }

  lemma ValueHas(s: seq<Entry>, key: string)
    ensures ValueOf(s, key).Some? <==> Has(s, key)
  {
  }

  lemma MovedElements(ids: map<string, nat>, s: seq<Entry>, i: nat, value: string)
    requires Distinct(s) && i < |s| && s[i].key in ids
    ensures Elements(ids, Put(s, s[i].key, value)) == C.Without(Elements(ids, s), i) + [ids[s[i].key]]
  {
    WithoutAt(s, i);
  }

  lemma MovedSize(s: seq<Entry>, i: nat, value: string)
    requires Distinct(s) && i < |s|
    ensures Size(Put(s, s[i].key, value)) == Size(s) + |value| - |s[i].value|
  {
    WithoutAt(s, i);
    SizeConcat(Without(s, s[i].key), [Entry(s[i].key, value)]);
  }

  lemma MoveOwned(c: C.Chain<nat>, e: nat)
    ensures C.MoveToBack(c, e).owned == c.owned
  {
  }

  lemma PushSane(w: World, key: string, value: string, expires: map<string, int>)
    requires Sane(w) && key !in w.ids
    requires Good(w.st.(items := Put(w.st.items, key, value), expires := expires))
    ensures w.st.items + [Entry(key, value)] == Put(w.st.items, key, value)
    ensures Sane(World(w.st.(items := Put(w.st.items, key, value), expires := expires), w.used + |key| + |value|,
                       w.ids[key := |w.born|], C.PushBack(w.chain, |w.born|), w.born + [key], w.strays))
  {
    hide C.Keeps, C.PushBack, Elements, Has, Size, Put;
    var s, elem := w.st.items, |w.born|;
    PutAbsent(s, key, value);
    C.KeepsPush(w.chain, Elements(w.ids, s), w.strays, elem);
    PushedElements(w.ids, s, key, value, elem);
    SizeConcat(s, [Entry(key, value)]);
    SizeOne(Entry(key, value));
    forall k ensures Has(Put(s, key, value), k) <==> Has(s, k) || k == key {
      PutHas(s, key, value, k);
    }
    PushOwned(w.chain, elem);
    hide Good;
  }

  lemma SizeOne(e: Entry)
    ensures Size([e]) == Cost(e)
  {
    assert [e][1..] == [];
  }

  lemma PushOwned(c: C.Chain<nat>, e: nat)
    ensures C.PushBack(c, e).owned == c.owned + {e}
  {
  }

  lemma PushedElements(ids: map<string, nat>, s: seq<Entry>, key: string, value: string, elem: nat)
    requires !Has(s, key)
    ensures Elements(ids[key := elem], s + [Entry(key, value)]) == Elements(ids, s) + [elem]
  {
    forall i | 0 <= i < |s| ensures s[i].key != key {
    }
  }

  lemma SetOverSane(w: World, key: string, value: string, ttl: int, now: int, later: int)
    requires Sane(w) && key in w.ids
    ensures Sane(SetMove(w, key, value, ttl, now, later))
    ensures SetMove(w, key, value, ttl, now, later).st == Set(w.st, key, Some(value), ttl, now, later)
  {
    hide Evict, Settle, Put, Deadline, ValueOf, Good, C.PushBack, C.MoveToBack, C.Keeps, Has, Elements, Size;
    SetGood(w.st, key, value, ttl, now);
    ValueHas(w.st.items, key);
    MovedSane(w, key, value, Deadline(w.st.expires, key, ttl, now));
    hide Sane;
  }

  lemma SetNewSane(w: World, key: string, value: string, ttl: int, now: int, later: int)
    requires Sane(w) && key !in w.ids
    ensures Sane(SetMove(w, key, value, ttl, now, later))
    ensures SetMove(w, key, value, ttl, now, later).st == Set(w.st, key, Some(value), ttl, now, later)
  {
    hide Evict, Settle, Put, Deadline, ValueOf, Good, C.PushBack, C.MoveToBack, C.Keeps, Has, Elements, Size;
    assert !Has(w.st.items, key);
    var expires := Deadline(w.st.expires, key, ttl, now);
    SetGood(w.st, key, value, ttl, now);
    PushSane(w, key, value, expires);
    hide Sane;
    var pushed := World(w.st.(items := Put(w.st.items, key, value), expires := expires), w.used + |key| + |value|,
                        w.ids[key := |w.born|], C.PushBack(w.chain, |w.born|), w.born + [key], w.strays);
    EvictSane(pushed, later);
    SettleStore(pushed, Evict(pushed.st, later));
  }

  lemma SetSane(w: World, key: string, value: string, ttl: int, now: int, later: int)
    requires Sane(w)
    ensures Sane(SetMove(w, key, value, ttl, now, later))
    ensures SetMove(w, key, value, ttl, now, later).st == Set(w.st, key, Some(value), ttl, now, later)
  {
    hide Sane, SetMove, Set;
    if key in w.ids {
      SetOverSane(w, key, value, ttl, now, later);
    } else {
      SetNewSane(w, key, value, ttl, now, later);
    }
  }

  lemma SettleStore(w: World, st: Store)
    ensures Settle(w, st).st == st
  {
  }

  lemma PromoteSane(w: World, key: string)
    requires Sane(w) && key in w.ids
    ensures Sane(w.(st := Promote(w.st, key, true), chain := C.MoveToBack(w.chain, w.ids[key])))
  {
    ValueHas(w.st.items, key);
    var v := ValueOf(w.st.items, key).value;
    PutGood(w.st, key, v);
    MovedSane(w, key, v, w.st.expires);
    hide Sane, Put, Good;
    assert w.used + |v| - |v| == w.used;
    assert w.st.(items := Put(w.st.items, key, v), expires := w.st.expires) == Promote(w.st, key, true);
  }

  lemma PutGood(st: Store, key: string, value: string)
    requires Good(st)
    ensures Good(st.(items := Put(st.items, key, value)))
  {
    PutIs(st.items, key, value);
    forall k | k in st.expires ensures Has(Put(st.items, key, value), k) {
      PutHas(st.items, key, value, k);
    }
  }

  lemma GetSane(w: World, op: Op)
    requires Sane(w) && op.DoGet?
    ensures Sane(Step(w, Whole(op)))
  {
    GetIsBothSections(w.st, op.key, op.now);
    ValueHas(w.st.items, op.key);
    if Get(w.st, op.key, op.now).1.Some? {
      PromoteSane(w, op.key);
    }
    hide Sane, C.MoveToBack;
  }

  /** The list holds the elements of the map. */
  lemma ElementsAreValues(w: World)
    requires Sane(w)
    ensures (set e | e in Elements(w.ids, w.st.items)) == w.ids.Values
  {
    hide C.Keeps, Elements, Has;
    var es := Elements(w.ids, w.st.items);
    forall e ensures e in es <==> e in w.ids.Values {
      if e in w.ids.Values {
        var k :| k in w.ids && w.ids[k] == e;
        var i := PlaceOf(w, k);
      }
      if i :| 0 <= i < |es| && es[i] == e {
        ItemHas(w.st.items, i);
      }
    }
  }

  lemma ItemHas(s: seq<Entry>, i: nat)
    requires i < |s|
    ensures Has(s, s[i].key)
  {
  }

  lemma ClearSane(w: World)
    requires Sane(w)
    ensures Sane(Step(w, Whole(DoClear)))
  {
    ElementsAreValues(w);
    hide C.Keeps, C.Init;
    C.KeepsInit(w.chain, Elements(w.ids, w.st.items), w.strays);
    InitOwned(w.chain);
    assert Elements(map[], []) == [];
    hide Elements;
  }

  lemma InitOwned(c: C.Chain<nat>)
    ensures C.Init(c).owned == c.owned
  {
  }

  lemma UpdateSane(w: World, op: Op)
    requires Sane(w) && op.DoUpdate?
    ensures Sane(Step(w, Whole(op)))
  {
    hide C.Keeps;
  }

  lemma LimitSane(w: World, op: Op)
    requires Sane(w) && op.DoSetMax?
    ensures Sane(Step(w, Whole(op)))
  {
    hide Step, Settle, Evict, Good;
    LimitStep(w, op);
    var w' := w.(st := w.st.(maxBytes := op.max));
    NewLimit(w, op.max);
    hide Sane;
    if op.max > 0 {
      EvictSane(w', op.now);
    } else {
      NothingLeaves(w');
    }
  }

  lemma LimitStep(w: World, op: Op)
    requires op.DoSetMax?
    ensures var w' := w.(st := w.st.(maxBytes := op.max));
      Step(w, Whole(op)) == Settle(w', if op.max > 0 then Evict(w'.st, op.now) else w'.st)
  {
    hide Evict, Prune, Shed;
  }

  lemma NewLimit(w: World, max: int)
    requires Sane(w)
    ensures Sane(w.(st := w.st.(maxBytes := max)))
  {
    hide C.Keeps;
  }

  lemma NothingLeaves(w: World)
    requires Sane(w)
    ensures Sane(Settle(w, w.st))
  {
    hide Settle, C.Keeps;
    SiftAway(w.st.items, {});
    SettleSane(w, w.st, {});
  }

  /** A second section that does not meet a dropped element: it moves the element that the key has, or
      the element names no list any more. */
  lemma SecondSane(w: World, m: Move)
    requires Sane(w) && Enabled(w, m) && m.Second? && !Spoils(w, m)
    ensures Sane(Step(w, m))
  {
    if m.key in w.ids {
      if m.elem == w.ids[m.key] {
        PromoteSane(w, m.key);
      } else {
        var es := Elements(w.ids, w.st.items);
        forall i | 0 <= i < |es| ensures es[i] != m.elem {
          assert Has(w.st.items, w.st.items[i].key);
          assert w.born[es[i]] == w.st.items[i].key;
        }
        C.ForeignHarmless(w.chain, es, w.strays, m.elem);
        assert Step(w, m) == w;
      }
    }
  }

  lemma StepSane(w: World, m: Move)
    requires Sane(w) && Enabled(w, m) && !Spoils(w, m)
    ensures Sane(Step(w, m))
  {
    match m
    case Second(_, _) => SecondSane(w, m);
    case Whole(op) =>
      match op
      case DoSet(key, value, ttl, now, later) =>
        if value == None {
          DeleteSane(w, key);
        } else {
          SetSane(w, key, value.value, ttl, now, later);
        }
      case DoDelete(key) => DeleteSane(w, key);
      case DoGet(_, _) => GetSane(w, op);
      case DoUpdate(_, _, _) => UpdateSane(w, op);
      case DoClear => ClearSane(w);
      case DoEvict(now) => EvictSane(w, now);
      case DoSetMax(_, _) => LimitSane(w, op);
  }

  /** A second section that meets a dropped element whose key is stored again spoils the list. */
  lemma StepSpoils(w: World, m: Move)
    requires Sane(w) && Enabled(w, m) && Spoils(w, m)
    ensures C.Prev(Step(w, m).chain, None) == Some(m.elem) && !InOrder(Step(w, m))
  {
    var es, w' := Elements(w.ids, w.st.items), Step(w, m);
    var i := PlaceOf(w, m.key);
    assert m.elem !in es;
    C.StraySpoils(w.chain, es, w.strays, m.elem);
    assert m.elem != w.ids[m.key];
    assert w'.st == w.st && Elements(w'.ids, w'.st.items) == es;
  }

  // ---------- runs ----------

  /** No second section has spoiled the list. */
  predicate Careful(max: int, ms: seq<Move>)
    requires Run(max, ms).Some?
  {
    ms == [] || (Careful(max, ms[..|ms| - 1]) && !Spoils(Run(max, ms[..|ms| - 1]).value, ms[|ms| - 1]))
  }

  lemma StartSane(max: int)
    ensures Sane(Start(max))
  {
    C.NewRepresents<nat>();
    assert Elements(map[], []) == [];
  }

  lemma {:induction false} RunSane(max: int, ms: seq<Move>)
    requires Run(max, ms).Some? && Careful(max, ms)
    ensures Sane(Run(max, ms).value) && InOrder(Run(max, ms).value)
  {
    if ms == [] {
      StartSane(max);
    } else {
      RunSane(max, ms[..|ms| - 1]);
      StepSane(Run(max, ms[..|ms| - 1]).value, ms[|ms| - 1]);
      hide Step, Elements, Careful, Enabled;
    }
  }

  lemma {:induction false} RunPrefix(max: int, ms: seq<Move>, n: nat)
    requires Run(max, ms).Some? && n <= |ms|
    ensures Run(max, ms[..n]).Some?
    decreases |ms|
  {
    if n < |ms| {
      RunPrefix(max, ms[..|ms| - 1], n);
      assert ms[..|ms| - 1][..n] == ms[..n];
    } else {
      assert ms[..n] == ms;
    }
  }

  /** List, map and accounting are in order at every moment of the run. */
  ghost predicate AlwaysInOrder(max: int, ms: seq<Move>) {
    forall n :: 0 <= n <= |ms| ==> Run(max, ms[..n]).Some? && InOrder(Run(max, ms[..n]).value)
  }

  /** In every run, list, map and accounting stay in order if and only if no second section meets an
      element that `Clear` dropped while its key is stored again. */
  lemma {:induction false} StaysInOrderIff(max: int, ms: seq<Move>)
    requires Run(max, ms).Some?
    ensures AlwaysInOrder(max, ms) <==> Careful(max, ms)
    decreases |ms|
  {
    assert ms[..|ms|] == ms;
    if ms != [] {
      var p := ms[..|ms| - 1];
      StaysInOrderIff(max, p);
      forall n | 0 <= n <= |p| ensures p[..n] == ms[..n] {
      }
      if AlwaysInOrder(max, ms) {
        assert AlwaysInOrder(max, p);
        RunSane(max, p);
        if Spoils(Run(max, p).value, ms[|ms| - 1]) {
          StepSpoils(Run(max, p).value, ms[|ms| - 1]);
          assert false;
        }
      }
    }
    if Careful(max, ms) {
      RunSane(max, ms);
      forall n | 0 <= n <= |ms| ensures Run(max, ms[..n]).Some? && InOrder(Run(max, ms[..n]).value) {
        if n < |ms| {
          assert ms[..|ms| - 1][..n] == ms[..n];
        }
      }
    }
    hide Run, InOrder, Sane;
  }

  // ---------- what careful runs keep ----------

  /** What a move does to the store. */
  function OpOf(w: World, m: Move): Op {
    match m
    case Whole(op) => op
    case Second(key, elem) => DoPromote(key, key in w.ids && elem == w.ids[key])
  }

  function Ops(max: int, ms: seq<Move>): (r: seq<Op>)
    requires Run(max, ms).Some?
    ensures |r| == |ms|
  {
    if ms == [] then []
    else
      var p := ms[..|ms| - 1];
      Ops(max, p) + [OpOf(Run(max, p).value, ms[|ms| - 1])]
  }

  lemma StepStore(w: World, m: Move)
    requires Enabled(w, m)
    ensures Step(w, m).st == Apply(w.st, OpOf(w, m))
  {
    hide Evict, Prune, Shed;
  }

  lemma {:induction false} RunStore(max: int, ms: seq<Move>)
    requires Run(max, ms).Some?
    ensures Run(max, ms).value.st == ByteRuns.Run(max, Ops(max, ms))
  {
    if ms != [] {
      var p := ms[..|ms| - 1];
      RunStore(max, p);
      StepStore(Run(max, p).value, ms[|ms| - 1]);
      assert Ops(max, ms)[..|ms| - 1] == Ops(max, p);
      hide Step, Apply, OpOf, Enabled;
    }
  }

  lemma {:induction false} OpsPrefix(max: int, ms: seq<Move>, n: nat)
    requires Run(max, ms).Some? && n <= |ms| && Run(max, ms[..n]).Some?
    ensures Ops(max, ms)[..n] == Ops(max, ms[..n])
    decreases |ms|
  {
    if n < |ms| {
      var p := ms[..|ms| - 1];
      assert p[..n] == ms[..n];
      OpsPrefix(max, p, n);
      assert Ops(max, ms)[..n] == Ops(max, p)[..n];
    } else {
      assert ms[..n] == ms;
    }
  }

  /** In a careful run there is one entry and one element for each key, and deadlines only for stored
      keys; a `Get` hits exactly if the key was stored after its last removal, has not been pushed out
      since, and its latest deadline has not passed; and it returns the latest value. */
  lemma CarefulHitIff(max: int, ms: seq<Move>, key: string, now: int)
    requires Run(max, ms).Some? && Careful(max, ms)
    ensures InOrder(Run(max, ms).value)
    ensures var ops := Ops(max, ms);
      Get(Run(max, ms).value.st, key, now).1 ==
        if key in Latest(ops) && !Pushed(max, ops, key) && Unexpired(Latest(ops)[key], now)
        then Some(Latest(ops)[key].value) else None
  {
    hide Get, Latest, Pushed, InOrder, Sane, Ops;
    RunSane(max, ms);
    RunStore(max, ms);
    HitIff(max, Ops(max, ms), key, now);
  }

  /** In a careful run the deletion that an expired `Get` scheduled loses a value if and only if the key
      was refreshed in between, is still stored, and its latest deadline has not passed. */
  lemma CarefulLateDeleteIff(max: int, ms: seq<Move>, n: nat, key: string, now: int, t: int)
    requires Run(max, ms).Some? && Careful(max, ms) && n < |ms| && ms[n] == Whole(DoGet(key, now)) && now <= t
    requires Run(max, ms[..n]).Some?
    requires var st := Run(max, ms[..n]).value.st; Has(st.items, key) && Expired(st, key, now)
    ensures InOrder(Run(max, ms).value)
    ensures var ops, st := Ops(max, ms), Run(max, ms).value.st;
      (Get(st, key, t).1.Some? && Get(Delete(st, key), key, t).1 == None) <==>
        && SomeRefreshes(ops[n + 1..], key) && Has(st.items, key)
        && key in Latest(ops) && Unexpired(Latest(ops)[key], t)
  {
    hide *;
    RunSane(max, ms);
    RunStore(max, ms);
    RunStore(max, ms[..n]);
    var ops := Ops(max, ms);
    OpsSplit(max, ms, n, key, now);
    LateDeleteIff(max, Ops(max, ms[..n]), key, now, ops[n + 1..], t);
    LosesIs(max, ops, key, t);
  }

  lemma OpsSplit(max: int, ms: seq<Move>, n: nat, key: string, now: int)
    requires Run(max, ms).Some? && n < |ms| && ms[n] == Whole(DoGet(key, now)) && Run(max, ms[..n]).Some?
    ensures Ops(max, ms) == Ops(max, ms[..n]) + [DoGet(key, now)] + Ops(max, ms)[n + 1..]
  {
    RunPrefix(max, ms, n + 1);
    OpsPrefix(max, ms, n + 1);
    OpsLast(max, ms, n);
    hide Run, Ops;
    Rejoin(Ops(max, ms), n + 1);
  }

  lemma OpsLast(max: int, ms: seq<Move>, n: nat)
    requires n < |ms| && Run(max, ms[..n]).Some? && Run(max, ms[..n + 1]).Some?
    ensures Ops(max, ms[..n + 1]) == Ops(max, ms[..n]) + [OpOf(Run(max, ms[..n]).value, ms[n])]
  {
    hide Run;
    assert ms[..n + 1][..n] == ms[..n] && ms[..n + 1][n] == ms[n];
  }

  lemma Rejoin<T>(s: seq<T>, n: nat)
    requires n <= |s|
    ensures s[..n] + s[n..] == s
  {
  }

  lemma LosesIs(max: int, ops: seq<Op>, key: string, t: int)
    ensures var st := ByteRuns.Run(max, ops);
      Loses(max, ops, DoDelete(key), key, t) <==> Get(st, key, t).1.Some? && Get(Delete(st, key), key, t).1 == None
  {
    hide Get, Delete;
    assert (ops + [DoDelete(key)])[..|ops|] == ops;
  }

  /** In an orderly world an expired or absent key stays so under every careful move that does not
      refresh it. */
  lemma CarefulStaleKept(w: World, m: Move, key: string, now: int)
    requires Sane(w) && Enabled(w, m) && !Spoils(w, m)
    requires Stale(w.st, key, now) && !Refreshes(OpOf(w, m), key)
    ensures Sane(Step(w, m)) && Stale(Step(w, m).st, key, now)
  {
    StepSane(w, m);
    StepStore(w, m);
    StaleKept(w.st, OpOf(w, m), key, now);
    hide Step, Apply, OpOf;
  }

  /** A first store in an empty cache without a limit. */
  lemma FirstSet(w: World, key: string, value: string)
    requires w.st == Store([], map[], 0) && w.ids == map[]
    ensures SetMove(w, key, value, 0, 0, 0)
      == World(Store([Entry(key, value)], map[], 0), w.used + |key| + |value|, map[key := |w.born|],
               C.PushBack(w.chain, |w.born|), w.born + [key], w.strays)
  {
    hide C.PushBack;
    var s, elem := [Entry(key, value)], |w.born|;
    assert s[0].key == key && Has(s, key);
    assert Put([], key, value) == s && !Has([], key);
    var none: map<string, int> := map[];
    assert none - {key} == none;
    SiftAway(s, {});
    assert Late(none, 0) == {};
    assert Restrict(none, s) == none;
    var st := Store(s, map[], 0);
    assert Set(w.st, key, Some(value), 0, 0, 0) == st;
    assert s[1..] == [];
    var c, ids: map<string, nat> := C.PushBack(w.chain, elem), map[key := elem];
    StaysAlone(c, ids, Entry(key, value));
    AllKept(ids, s);
  }

  lemma StaysAlone(c: C.Chain<nat>, ids: map<string, nat>, e: Entry)
    ensures Prune(c, ids, [e], [e]) == c && Shed([e], [e]) == 0
  {
    var s := [e];
    ItemHas(s, 0);
    assert s[1..] == [];
    assert Prune(c, ids, [], s) == c && Shed([], s) == 0;
  }

  lemma AllKept(ids: map<string, nat>, s: seq<Entry>)
    requires forall k :: k in ids ==> Has(s, k)
    ensures (map k | k in ids && Has(s, k) :: ids[k]) == ids
  {
    hide Has;
    var m := map k | k in ids && Has(s, k) :: ids[k];
    assert m.Keys == ids.Keys;
  }

  /** Store, clear, store again, and the second section of a `Get` that found the first element: the
      length is 1, but the back is the dropped element and the front is the root, which holds no entry. */
  lemma SpoiledRun(key: string, a: string, b: string)
    ensures var ms := [Whole(DoSet(key, Some(a), 0, 0, 0)), Whole(DoClear),
                       Whole(DoSet(key, Some(b), 0, 0, 0)), Second(key, 0)];
      && Run(0, ms).Some? && !Careful(0, ms)
      && var w := Run(0, ms).value;
        w.chain.len == 1 && w.ids == map[key := 1] && C.Back(w.chain) == Some(0) && C.Front(w.chain) == None
  {
    hide SetMove, C.PushBack, C.Init, C.New, C.MoveToBack, C.Front, C.Back, Apply;
    var m1, m2, m3, m4 := Whole(DoSet(key, Some(a), 0, 0, 0)), Whole(DoClear),
                          Whole(DoSet(key, Some(b), 0, 0, 0)), Second(key, 0);
    var w3 := SpoiledStart(key, a, b);
    C.ClearedElementSpoils<nat>(0, 1);
    RunFour(m1, m2, m3, m4);
  }

  /** The world before the second section. */
  lemma SpoiledStart(key: string, a: string, b: string) returns (w: World)
    ensures var m1, m2, m3 := Whole(DoSet(key, Some(a), 0, 0, 0)), Whole(DoClear), Whole(DoSet(key, Some(b), 0, 0, 0));
      && w == Step(Step(Step(Start(0), m1), m2), m3)
      && w.ids == map[key := 1] && w.born == [key, key] && w.strays == {0}
      && w.chain == C.PushBack(C.Init(C.PushBack(C.New<nat>(), 0)), 1)
  {
    hide C.PushBack, C.Init, C.New, SetMove;
    var w0 := Start(0);
    FirstSet(w0, key, a);
    var w1 := Step(w0, Whole(DoSet(key, Some(a), 0, 0, 0)));
    var w2 := Step(w1, Whole(DoClear));
    ValuesOne(key, 0);
    FirstSet(w2, key, b);
    w := Step(w2, Whole(DoSet(key, Some(b), 0, 0, 0)));
    assert w0.born == [] && [] + [key] == [key] && [key] + [key] == [key, key];
  }

  lemma ValuesOne(key: string, elem: nat)
    ensures map[key := elem].Values == {elem}
  {
    var m := map[key := elem];
    assert key in m && m[key] == elem;
    forall e ensures e in m.Values <==> e == elem {
    }
  }

  lemma RunFour(m1: Move, m2: Move, m3: Move, m4: Move)
    requires Enabled(Start(0), m1) && Enabled(Step(Start(0), m1), m2)
    requires Enabled(Step(Step(Start(0), m1), m2), m3)
    requires Enabled(Step(Step(Step(Start(0), m1), m2), m3), m4)
    ensures Run(0, [m1, m2, m3]) == Some(Step(Step(Step(Start(0), m1), m2), m3))
    ensures Run(0, [m1, m2, m3, m4]) == Some(Step(Step(Step(Step(Start(0), m1), m2), m3), m4))
    ensures [m1, m2, m3, m4][..3] == [m1, m2, m3]
  {
    hide Step, Enabled, Start;
    assert [m1][..0] == [] && [m1, m2][..1] == [m1] && [m1, m2, m3][..2] == [m1, m2];
    assert [m1, m2, m3, m4][..3] == [m1, m2, m3];
    assert Run(0, []) == Some(Start(0));
    assert Run(0, [m1]) == Some(Step(Start(0), m1));
    assert Run(0, [m1, m2]) == Some(Step(Step(Start(0), m1), m2));
  }
}
