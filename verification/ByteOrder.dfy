/** The order of the entries of the second size-bounded LRU cache in terms of a run, and whom an eviction
    takes first. */
module ByteOrder {
  import opened Options
  import opened ByteList
  import opened ByteStore
  import opened ByteRuns

  /** The operation stores the key, or finds it stored and unexpired, or is the second section of a `Get` that
      did. */
  predicate Uses(st: Store, op: Op, key: string) {
    || Stores(op, key)
    || (op.DoGet? && op.key == key && Has(st.items, key) && (key in st.expires ==> op.now <= st.expires[key]))
    || (op.DoPromote? && op.key == key && op.present && Has(st.items, key))
  }

  /** The number of the last operation that used the key. */
  function LastUse(max: int, ops: seq<Op>, key: string): nat {
    if ops == [] then 0
    else if Uses(Run(max, ops[..|ops| - 1]), ops[|ops| - 1], key) then |ops|
    else LastUse(max, ops[..|ops| - 1], key)
  }

  /** Oldest use first. */
  ghost predicate Sorted(s: seq<Entry>, use: string -> nat) {
    forall i, j :: 0 <= i < j < |s| ==> use(s[i].key) < use(s[j].key)
  }

  lemma SortedCons(x: Entry, s: seq<Entry>, use: string -> nat)
    ensures Sorted([x] + s, use) <==> Sorted(s, use) && forall i :: 0 <= i < |s| ==> use(x.key) < use(s[i].key)
  {
    var r := [x] + s;
    assert forall i :: 0 <= i < |s| ==> s[i] == r[i + 1];
    assert r[0] == x;
  }

  lemma {:induction false} SiftSorted(s: seq<Entry>, gone: set<string>, use: string -> nat)
    requires Sorted(s, use)
    ensures Sorted(Sift(s, gone), use)
    ensures forall i :: 0 <= i < |Sift(s, gone)| ==> Sift(s, gone)[i] in s
  {
    if s != [] {
      hide Sorted;
      var rest := s[1..];
      assert s == [s[0]] + rest;
      SortedCons(s[0], rest, use);
      SiftSorted(rest, gone, use);
      SortedCons(s[0], Sift(rest, gone), use);
    }
  }

  lemma SortedEvict(st: Store, now: int, use: string -> nat)
    requires Good(st) && Sorted(st.items, use)
    ensures Sorted(Evict(st, now).items, use)
  {
    SiftSorted(st.items, Late(st.expires, now), use);
    var k := EvictKeepsLongestRun(st, now);
    hide Evict;
  }

  /** A key that is used goes to the end, and the others stay in order. */
  lemma SortedPut(s: seq<Entry>, key: string, value: string, use: string -> nat, use': string -> nat)
    requires Distinct(s) && Sorted(s, use)
    requires forall k :: k != key ==> use'(k) == use(k) < use'(key)
    ensures Sorted(Put(s, key, value), use')
  {
    WithoutIsSift(s, key);
    SiftSorted(s, {key}, use);
    SiftIs(s, {key});
    var w := Without(s, key);
    forall i | 0 <= i < |w| ensures w[i].key != key {
      assert w[i] in w;
    }
    hide Without, Sift;
  }

  lemma SortedSame(s: seq<Entry>, use: string -> nat, use': string -> nat)
    requires Sorted(s, use) && forall i :: 0 <= i < |s| ==> use'(s[i].key) == use(s[i].key)
    ensures Sorted(s, use')
  {
  }

  lemma {:induction false} LastUseBound(max: int, ops: seq<Op>, key: string)
    ensures LastUse(max, ops, key) <= |ops|
  {
    if ops != [] {
      LastUseBound(max, ops[..|ops| - 1], key);
    }
  }

  lemma SortedNone(use: string -> nat)
    ensures Sorted([], use)
  {
  }

  lemma SetSorted(st: Store, op: Op, use: string -> nat, use': string -> nat)
    requires Good(st) && Sorted(st.items, use) && op.DoSet?
    requires forall k :: if Stores(op, k) then use(k) < use'(k) else use'(k) == use(k)
    requires forall k :: use(k) < use'(op.key) || op.value == None
    ensures Sorted(Apply(st, op).items, use')
  {
    hide Sorted, Evict, Put, Has;
    if op.value == None {
      DeleteSorted(st, op.key, use, use');
    } else {
      SortedPut(st.items, op.key, op.value.value, use, use');
      if !Has(st.items, op.key) {
        SetGood(st, op.key, op.value.value, op.ttl, op.now);
        SortedEvict(EvictAt(st, op).value.0, op.later, use');
      }
    }
  }

  lemma ApplySorted(st: Store, op: Op, use: string -> nat, use': string -> nat, now: nat)
    requires Good(st) && Sorted(st.items, use) && forall k :: use(k) < now
    requires forall k :: use'(k) == if Uses(st, op, k) then now else use(k)
    ensures Sorted(Apply(st, op).items, use')
  {
    hide Sorted, Evict, Put, Has;
    match op
    case DoSet(_, _, _, _, _) => SetSorted(st, op, use, use');
    case DoDelete(key) => DeleteSorted(st, key, use, use');
    case DoGet(key, at) =>
      if Get(st, key, at).1.Some? {
        SortedPut(st.items, key, Get(st, key, at).1.value, use, use');
      } else {
        SortedSame(st.items, use, use');
      }
    case DoPromote(key, present) =>
      if present && Has(st.items, key) {
        SortedPut(st.items, key, ValueOf(st.items, key).value, use, use');
      } else {
        SortedSame(st.items, use, use');
      }
    case DoUpdate(_, _, _) => SortedSame(st.items, use, use');
    case DoClear => SortedNone(use');
    case DoEvict(at) => {
      SortedSame(st.items, use, use');
      SortedEvict(st, at, use');
    }
    case DoSetMax(max, at) => {
      SortedSame(st.items, use, use');
      SortedEvict(st.(maxBytes := max), at, use');
    }
  }

  lemma DeleteSorted(st: Store, key: string, use: string -> nat, use': string -> nat)
    requires Sorted(st.items, use) && forall k :: use'(k) == use(k)
    ensures Sorted(Delete(st, key).items, use')
  {
    WithoutIsSift(st.items, key);
    SiftSorted(st.items, {key}, use);
    SortedSame(Without(st.items, key), use, use');
    SortedSame(st.items, use, use');
  }

  /** After every run, the entries are in the order in which their keys were last used. */
  lemma {:induction false} RunSorted(max: int, ops: seq<Op>)
    ensures Sorted(Run(max, ops).items, k => LastUse(max, ops, k))
  {
    if ops != [] {
      hide Apply, Good, Sorted, Uses;
      var init, op := ops[..|ops| - 1], ops[|ops| - 1];
      RunSorted(max, init);
      RunGood(max, init);
      forall k ensures LastUse(max, init, k) < |ops| {
        LastUseBound(max, init, k);
      }
      ApplySorted(Run(max, init), op, k => LastUse(max, init, k), k => LastUse(max, ops, k), |ops|);
    } else {
      assert Run(max, ops).items == [];
    }
  }

  /** An eviction that takes an unexpired entry keeps only entries that were used later, in every run. */
  lemma EvictsOldestFirst(max: int, ops: seq<Op>, now: int, gone: string, kept: string)
    requires var st := Run(max, ops);
      && Has(st.items, gone) && (gone in st.expires ==> now <= st.expires[gone])
      && !Has(Evict(st, now).items, gone) && Has(Evict(st, now).items, kept)
    ensures LastUse(max, ops, gone) < LastUse(max, ops, kept)
  {
    hide Run, LastUse, Late, Trim, Evict, Sorted;
    var st := Run(max, ops);
    var use := (k: string) => LastUse(max, ops, k);
    RunGood(max, ops);
    RunSorted(max, ops);
    SiftSorted(st.items, Late(st.expires, now), use);
    var k := EvictKeepsLongestRun(st, now);
    var live := Timely(st, now);
    var i :| 0 <= i < |st.items| && st.items[i].key == gone;
    assert st.items[i] in live;
    FrontBeforeBack(live, k, gone, kept, use);
  }

  lemma FrontBeforeBack(s: seq<Entry>, k: nat, a: string, b: string, use: string -> nat)
    requires k <= |s| && Sorted(s, use) && Has(s[k..], b) && !Has(s[k..], a) && exists e :: e in s && e.key == a
    ensures use(a) < use(b)
  {
    var e :| e in s && e.key == a;
    var i :| 0 <= i < |s| && s[i] == e;
    var j :| 0 <= j < |s[k..]| && s[k..][j].key == b;
    if i >= k {
      assert s[k..][i - k].key == a;
    }
  }

  // ---------- limits ----------

  /** The limit set last. */
  function LastMax(max: int, ops: seq<Op>): int {
    if ops == [] then max
    else if ops[|ops| - 1].DoSetMax? then ops[|ops| - 1].max
    else LastMax(max, ops[..|ops| - 1])
  }

  lemma {:induction false} LimitIs(max: int, ops: seq<Op>)
    ensures Run(max, ops).maxBytes == LastMax(max, ops)
  {
    if ops != [] {
      LimitIs(max, ops[..|ops| - 1]);
    }
  }

  /** Only an eviction, a `Set` of a new key and a positive limit push anything out. */
  lemma OthersStay(max: int, ops: seq<Op>, op: Op, key: string)
    requires Has(Run(max, ops).items, key) && !Removes(op, key)
    requires !op.DoEvict? && (op.DoSet? ==> Has(Run(max, ops).items, op.key)) && (op.DoSetMax? ==> op.max <= 0)
    ensures Has(Run(max, ops + [op]).items, key)
  {
    RunGood(max, ops);
    HasStep(Run(max, ops), op, key);
    assert (ops + [op])[..|ops|] == ops;
    hide Apply;
  }
}
