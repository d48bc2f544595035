/** What runs of `put`, `get` and `del` on one cache keep. */
module Lru2Runs {
  import opened Options
  import opened Recency
  import opened RecencyLaws

  datatype Op<V> = PutOp(x: Node<V>) | GetOp(key: Key) | DelOp(key: Key)

  function Step<V>(s: seq<Node<V>>, cap: nat, op: Op<V>): seq<Node<V>> {
    match op
    case PutOp(x) => Put(s, cap, x)
    case GetOp(key) => Touch(s, key)
    case DelOp(key) => Bury(s, key)
  }

  /** The cache after `ops`, starting from `s`. */
  function Run<V>(s: seq<Node<V>>, cap: nat, ops: seq<Op<V>>): seq<Node<V>>
    decreases |ops|
  {
    if ops == [] then s else Run(Step(s, cap, ops[0]), cap, ops[1..])
  }

  lemma StepSound<V>(s: seq<Node<V>>, cap: nat, op: Op<V>)
    requires Sound(s, cap) && 0 < cap
    ensures Sound(Step(s, cap, op), cap)
  {
    match op
    case PutOp(x) => PutSound(s, cap, x);
    case GetOp(key) => TouchSound(s, cap, key);
    case DelOp(key) => BurySound(s, cap, key);
  }

  // ---------- inclusion ----------

  /** `a` is a subsequence of `b`. */
  ghost predicate Sub<T>(a: seq<T>, b: seq<T>) {
    a == [] || (b != [] && if a[0] == b[0] then Sub(a[1..], b[1..]) else Sub(a, b[1..]))
  }

  lemma {:induction false} SubSkip<T>(a: seq<T>, y: T, b: seq<T>)
    requires Sub(a, b)
    ensures Sub(a, [y] + b)
    decreases |b|
  {
    assert ([y] + b)[1..] == b;
    if a != [] && a[0] == y {
      if a[0] == b[0] {
        SubSkip(a[1..], b[0], b[1..]);
      } else {
        SubTail(a, b[1..]);
        SubSkip(a[1..], b[0], b[1..]);
      }
      assert [b[0]] + b[1..] == b;
    }
  }

  lemma {:induction false} SubTail<T>(a: seq<T>, b: seq<T>)
    requires Sub(a, b) && a != []
    ensures Sub(a[1..], b)
    decreases |b|, 1
  {
    if a[0] == b[0] {
      SubSkip(a[1..], b[0], b[1..]);
    } else {
      SubTail(a, b[1..]);
      SubSkip(a[1..], b[0], b[1..]);
    }
    assert [b[0]] + b[1..] == b;
  }

  lemma {:induction false} SubLength<T>(a: seq<T>, b: seq<T>)
    requires Sub(a, b)
    ensures |a| <= |b|
    decreases |b|
  {
    if a != [] {
      SubLength(if a[0] == b[0] then a[1..] else a, b[1..]);
    }
  }

  lemma {:induction false} SubInit<T>(a: seq<T>, b: seq<T>)
    requires Sub(a, b) && a != []
    ensures b != [] && Sub(a[..|a| - 1], b[..|b| - 1])
    decreases |b|
  {
    var a', b' := a[..|a| - 1], b[..|b| - 1];
    SubLength(a, b);
    if a[0] == b[0] {
      if |a| > 1 {
        SubInit(a[1..], b[1..]);
        assert a'[1..] == a[1..][..|a| - 2] && b'[1..] == b[1..][..|b| - 2];
      }
    } else {
      SubInit(a, b[1..]);
      assert |b| > 1;
      assert b'[1..] == b[1..][..|b| - 2];
    }
  }

  lemma {:induction false} SubSnoc<T>(a: seq<T>, b: seq<T>, x: T)
    requires Sub(a, b)
    ensures Sub(a + [x], b + [x]) && Sub(a, b + [x])
    decreases |b|
  {
    if b == [] {
      assert a + [x] == b + [x] == [x];
      assert Sub([x][1..], [x][1..]);
    } else {
      assert (b + [x])[1..] == b[1..] + [x];
      if a == [] {
        SubSnoc(a, b[1..], x);
        assert a + [x] == [x];
        if x == b[0] { assert [x][1..] == []; }
      } else {
        assert (a + [x])[1..] == a[1..] + [x];
        SubSnoc(if a[0] == b[0] then a[1..] else a, b[1..], x);
      }
    }
  }

  lemma {:induction false} SubWithout<V>(a: seq<Node<V>>, b: seq<Node<V>>, key: Key)
    requires Sub(a, b)
    ensures Sub(Without(a, key), Without(b, key))
    decreases |b|
  {
    if a != [] {
      if a[0] == b[0] {
        SubWithout(a[1..], b[1..], key);
        if a[0].k != key {
          assert Without(a, key)[1..] == Without(a[1..], key);
          assert Without(b, key)[1..] == Without(b[1..], key);
        }
      } else {
        SubWithout(a, b[1..], key);
        if b[0].k != key {
          SubSkip(Without(a, key), b[0], Without(b[1..], key));
        }
      }
    }
  }

  /** A subsequence of a list without duplicates agrees with it on every key it has. */
  lemma {:induction false} SubLookup<V>(a: seq<Node<V>>, b: seq<Node<V>>, key: Key)
    requires Sub(a, b) && Distinct(b) && Has(a, key)
    ensures Lookup(b, key) == Lookup(a, key)
    decreases |b|
  {
    var bt := b[1..];
    assert b == [b[0]] + bt;
    DistinctCons(b[0], bt);
    LookupCons(b[0], bt, key);
    if a[0] == b[0] {
      assert a == [a[0]] + a[1..];
      LookupCons(a[0], a[1..], key);
      if a[0].k != key { SubLookup(a[1..], bt, key); }
    } else {
      SubLookup(a, bt, key);
    }
  }

  /** What relates a small cache to a large one that serves the same operations. */
  ghost predicate Included<V>(a: seq<Node<V>>, small: nat, b: seq<Node<V>>, large: nat) {
    && 0 < small <= large && Sound(a, small) && Sound(b, large)
    && Sub(a, b)
    && (|a| < small ==> a == b)
  }

  lemma PutIncluded<V>(a: seq<Node<V>>, small: nat, b: seq<Node<V>>, large: nat, x: Node<V>)
    requires Included(a, small, b, large)
    ensures Included(Put(a, small, x), small, Put(b, large, x), large)
  {
    PutSound(a, small, x);
    PutSound(b, large, x);
    var a', b' := Put(a, small, x), Put(b, large, x);
    if |a| == small {
      SubLength(a, b);
      WithoutLength(a, x.k);
      var init := a[..|a| - 1];
      if Has(a, x.k) {
        SubLookup(a, b, x.k);
        SubWithout(a, b, x.k);
        ConsSub(x, Without(a, x.k), Without(b, x.k));
      } else {
        SubInit(a, b);
        SubPrefix(init, a, b);
        if Has(b, x.k) {
          assert !Has(init, x.k);
          WithoutAbsent(init, x.k);
          SubWithout(init, b, x.k);
          ConsSub(x, init, Without(b, x.k));
        } else if |b| == large {
          ConsSub(x, init, b[..|b| - 1]);
        } else {
          ConsSub(x, init, b);
        }
      }
    } else {
      SubRefl(a');
    }
  }

  lemma ConsSub<T>(x: T, a: seq<T>, b: seq<T>)
    requires Sub(a, b)
    ensures Sub([x] + a, [x] + b)
  {
    assert ([x] + a)[1..] == a && ([x] + b)[1..] == b;
  }

  lemma {:induction false} SubRefl<T>(a: seq<T>)
    ensures Sub(a, a)
  {
    if a != [] { SubRefl(a[1..]); }
  }

  lemma SubPrefix<T>(init: seq<T>, a: seq<T>, b: seq<T>)
    requires Sub(a, b) && a != [] && init == a[..|a| - 1]
    ensures Sub(init, b)
  {
    SubInit(a, b);
    SubSnoc(init, b[..|b| - 1], b[|b| - 1]);
    assert b == b[..|b| - 1] + [b[|b| - 1]];
  }

  lemma TouchIncluded<V>(a: seq<Node<V>>, small: nat, b: seq<Node<V>>, large: nat, key: Key)
    requires Included(a, small, b, large)
    ensures Included(Touch(a, key), small, Touch(b, key), large)
  {
    TouchSound(a, small, key);
    TouchSound(b, large, key);
    WithoutLength(a, key);
    SubWithout(a, b, key);
    if Has(a, key) {
      SubLookup(a, b, key);
      ConsSub(Lookup(a, key).value, Without(a, key), Without(b, key));
    } else {
      WithoutAbsent(a, key);
      if Has(b, key) { SubSkip(a, Lookup(b, key).value, Without(b, key)); }
    }
  }

  lemma BuryIncluded<V>(a: seq<Node<V>>, small: nat, b: seq<Node<V>>, large: nat, key: Key)
    requires Included(a, small, b, large)
    ensures Included(Bury(a, key), small, Bury(b, key), large)
  {
    BurySound(a, small, key);
    BurySound(b, large, key);
    WithoutLength(a, key);
    SubWithout(a, b, key);
    if Has(a, key) {
      SubLookup(a, b, key);
    } else {
      WithoutAbsent(a, key);
    }
    if LiveAt(b, key).Some? {
      SubSnoc(Without(a, key), Without(b, key), LiveAt(b, key).value.(expireAt := 0));
    }
  }

  lemma {:induction false} RunIncluded<V>(a: seq<Node<V>>, small: nat, b: seq<Node<V>>, large: nat, ops: seq<Op<V>>)
    requires Included(a, small, b, large)
    ensures Included(Run(a, small, ops), small, Run(b, large, ops), large)
    decreases |ops|
  {
    if ops != [] {
      match ops[0] {
        case PutOp(x) => PutIncluded(a, small, b, large, x);
        case GetOp(key) => TouchIncluded(a, small, b, large, key);
        case DelOp(key) => BuryIncluded(a, small, b, large, key);
      }
      RunIncluded(Step(a, small, ops[0]), small, Step(b, large, ops[0]), large, ops[1..]);
    }
  }

  /** LRU inclusion: after any common run, the smaller cache is a subsequence of the larger one,
      equal to it until it is full, and every key in it has the same entry in the larger. */
  lemma Inclusion<V>(small: nat, large: nat, ops: seq<Op<V>>, key: Key)
    requires 0 < small <= large
    ensures var a, b := Run([], small, ops), Run([], large, ops);
      && Sub(a, b)
      && (|a| < small ==> a == b)
      && (Has(a, key) ==> Lookup(b, key) == Lookup(a, key))
  {
    var e: seq<Node<V>> := [];
    RunIncluded(e, small, e, large, ops);
    var a, b := Run(e, small, ops), Run(e, large, ops);
    if Has(a, key) { SubLookup(a, b, key); }
  }

  // ---------- deleted slots ----------

  /** Deleted entries come after all live ones. */
  ghost predicate DeadLast<V>(s: seq<Node<V>>) {
    forall i, j :: 0 <= i < j < |s| && s[j].Live() ==> s[i].Live()
  }

  lemma PutDeadLast<V>(s: seq<Node<V>>, cap: nat, x: Node<V>)
    requires Sound(s, cap) && DeadLast(s) && x.Live()
    ensures DeadLast(Put(s, cap, x))
  {
    if Has(s, x.k) {
      WithoutDeadLast(s, x.k);
    }
  }

  lemma WithoutDeadLast<V>(s: seq<Node<V>>, key: Key)
    requires Distinct(s) && DeadLast(s)
    ensures DeadLast(Without(s, key))
  {
    if Has(s, key) {
      var p :| 0 <= p < |s| && s[p].k == key;
      WithoutAt(s, p);
      var r := Without(s, key);
      forall i, j | 0 <= i < j < |r| && r[j].Live()
        ensures r[i].Live()
      {
        assert r[i] == s[if i < p then i else i + 1] && r[j] == s[if j < p then j else j + 1];
      }
    } else {
      WithoutAbsent(s, key);
    }
  }

  lemma BuryDeadLast<V>(s: seq<Node<V>>, key: Key)
    requires Distinct(s) && DeadLast(s)
    ensures DeadLast(Bury(s, key))
  {
    WithoutDeadLast(s, key);
  }

  /** `get` keeps deleted entries last unless it meets one of them while something is live. */
  lemma TouchDeadLast<V>(s: seq<Node<V>>, key: Key)
    requires Distinct(s) && DeadLast(s) && Has(s, key)
    ensures DeadLast(Touch(s, key)) <==>
      LiveAt(s, key).Some? || forall i :: 0 <= i < |s| ==> !s[i].Live()
  {
    var p :| 0 <= p < |s| && s[p].k == key;
    LookupAt(s, p);
    WithoutAt(s, p);
    WithoutDeadLast(s, key);
    var r := Touch(s, key);
    if !s[p].Live() {
      if i :| 0 <= i < |s| && s[i].Live() {
        assert i < p;
        assert r[i + 1] == s[i] && r[0] == s[p];
        assert !DeadLast(r);
      }
    }
  }

  /** `put` pushes out a live entry only when no slot holds a deleted one. */
  lemma EvictsOnlyWhenAllLive<V>(s: seq<Node<V>>, cap: nat, key: Key, i: nat)
    requires DeadLast(s) && Evicts(s, cap, key).Some? && i < |s|
    ensures s[i].Live()
  {
  }

  /** `put` pushes out a live entry while a deleted one keeps its slot. */
  ghost predicate Wastes<V>(s: seq<Node<V>>, cap: nat, key: Key) {
    Evicts(s, cap, key).Some? && exists i :: 0 <= i < |s| && !s[i].Live()
  }

  /** Stores of live entries, each under a key that is not there yet. */
  ghost predicate NewKeys<V>(s: seq<Node<V>>, cap: nat, xs: seq<Node<V>>)
    decreases |xs|
  {
    xs != [] ==> xs[0].Live() && !Has(s, xs[0].k) && NewKeys(Put(s, cap, xs[0]), cap, xs[1..])
  }

  /** One of the stores wastes a slot. */
  ghost predicate SomeWastes<V>(s: seq<Node<V>>, cap: nat, xs: seq<Node<V>>)
    decreases |xs|
  {
    xs != [] && (Wastes(s, cap, xs[0].k) || SomeWastes(Put(s, cap, xs[0]), cap, xs[1..]))
  }

  lemma {:induction false} DeadLastWastesNone<V>(s: seq<Node<V>>, cap: nat, xs: seq<Node<V>>)
    requires 0 < cap && Sound(s, cap) && DeadLast(s) && NewKeys(s, cap, xs)
    ensures !SomeWastes(s, cap, xs)
    decreases |xs|
  {
    if xs != [] {
      if Evicts(s, cap, xs[0].k).Some? {
        forall i | 0 <= i < |s| ensures s[i].Live() {
          EvictsOnlyWhenAllLive(s, cap, xs[0].k, i);
        }
      }
      PutDeadLast(s, cap, xs[0]);
      PutSound(s, cap, xs[0]);
      DeadLastWastesNone(Put(s, cap, xs[0]), cap, xs[1..]);
    }
  }

  lemma {:induction false} UnusedKey<V>(s: seq<Node<V>>) returns (key: Key)
    ensures forall i :: 0 <= i < |s| ==> |s[i].k| < |key|
    ensures !Has(s, key)
  {
    if s == [] {
      key := [0];
    } else {
      var k := UnusedKey(s[1..]);
      key := seq(|k| + |s[0].k| + 1, i => 0);
      assert forall i :: 1 <= i < |s| ==> s[i] == s[1..][i - 1];
    }
  }

  /** A deleted entry in front of a live one: enough new keys push the live one out first. */
  lemma {:induction false} WasteAhead<V>(s: seq<Node<V>>, cap: nat, i: nat, j: nat) returns (xs: seq<Node<V>>)
    requires 0 < cap && Sound(s, cap) && |s| == cap && i < j < |s| && !s[i].Live() && s[j].Live()
    ensures NewKeys(s, cap, xs) && SomeWastes(s, cap, xs)
    decreases |s| - j
  {
    var key := UnusedKey(s);
    var x := Node(key, s[j].v, 1);
    if j == |s| - 1 {
      xs := [x];
      assert Wastes(s, cap, x.k);
    } else {
      var r := Put(s, cap, x);
      PutSound(s, cap, x);
      assert r == [x] + s[..|s| - 1];
      var rest := WasteAhead(r, cap, i + 1, j + 1);
      xs := [x] + rest;
      assert xs[1..] == rest;
    }
  }

  ghost predicate ReusesFirst<V(!new)>(s: seq<Node<V>>, cap: nat) {
    forall xs :: NewKeys(s, cap, xs) ==> !SomeWastes(s, cap, xs)
  }

  /** A full list gives up every deleted slot before it pushes out a live entry, whatever new keys
      are stored, if and only if its deleted entries come last. */
  lemma ReusesDeletedFirstIff<V(!new)>(s: seq<Node<V>>, cap: nat)
    requires 0 < cap && Sound(s, cap) && |s| == cap
    ensures ReusesFirst(s, cap) <==> DeadLast(s)
  {
    hide DeadLast, Sound;
    if DeadLast(s) {
      forall xs | NewKeys(s, cap, xs) ensures !SomeWastes(s, cap, xs) {
        DeadLastWastesNone(s, cap, xs);
      }
    } else {
      var i, j := DeadBeforeLive(s);
      var xs := WasteAhead(s, cap, i, j);
      assert !(NewKeys(s, cap, xs) ==> !SomeWastes(s, cap, xs));
    }
  }

  lemma DeadBeforeLive<V>(s: seq<Node<V>>) returns (i: nat, j: nat)
    requires !DeadLast(s)
    ensures i < j < |s| && !s[i].Live() && s[j].Live()
  {
    i, j :| 0 <= i < j < |s| && s[j].Live() && !s[i].Live();
  }

  /** What reaches the first level: stores with a deadline, and deletions. */
  ghost predicate FirstLevel<V>(ops: seq<Op<V>>) {
    forall i :: 0 <= i < |ops| ==> !ops[i].GetOp? && (ops[i].PutOp? ==> ops[i].x.Live())
  }

  lemma {:induction false} FirstLevelDeadLast<V>(s: seq<Node<V>>, cap: nat, ops: seq<Op<V>>)
    requires 0 < cap && Sound(s, cap) && DeadLast(s) && FirstLevel(ops)
    ensures DeadLast(Run(s, cap, ops))
    decreases |ops|
  {
    if ops != [] {
      match ops[0] {
        case PutOp(x) => PutDeadLast(s, cap, x);
        case DelOp(key) => BuryDeadLast(s, key);
      }
      StepSound(s, cap, ops[0]);
      FirstLevelDeadLast(Step(s, cap, ops[0]), cap, ops[1..]);
    }
  }

  /** In the second level, where `get` is called, a full `put` can push out a live entry while a
      deleted one keeps its slot. */
  lemma SecondLevelWastes(v: int)
    ensures var a, b, c := Node([97], v, 9), Node([98], v, 9), Node([99], v, 9);
      var s := Run([], 2, [PutOp(b), PutOp(a), DelOp(a.k), GetOp(a.k)]);
      && s == [a.(expireAt := 0), b]
      && Evicts(s, 2, c.k) == Some(b)
      && Put(s, 2, c) == [c, a.(expireAt := 0)]
  {
    var a, b, c := Node([97], v, 9), Node([98], v, 9), Node([99], v, 9);
    var a' := a.(expireAt := 0);
    var e: seq<Node<int>> := [];
    assert Put(e, 2, b) == [b];
    assert !Has([b], a.k) && Put([b], 2, a) == [a, b];
    WithoutAbsent([b], a.k);
    assert [a, b][1..] == [b] && Without([a, b], a.k) == [b];
    assert Bury([a, b], a.k) == [b, a'];
    assert [a'][1..] == [] && Without([a'], a.k) == [];
    assert [b, a'][1..] == [a'] && Without([b, a'], a.k) == [b];
    assert Lookup([b, a'], a.k) == Some(a');
    assert Touch([b, a'], a.k) == [a', b];
    var ops := [PutOp(b), PutOp(a), DelOp(a.k), GetOp(a.k)];
    assert ops[1..] == [PutOp(a), DelOp(a.k), GetOp(a.k)];
    assert ops[1..][1..] == [DelOp(a.k), GetOp(a.k)];
    assert ops[1..][1..][1..] == [GetOp(a.k)];
    calc {
      Run(e, 2, ops);
      Run([b], 2, ops[1..]);
      Run([a, b], 2, ops[1..][1..]);
      Run([b, a'], 2, ops[1..][1..][1..]);
      Run([a', b], 2, []);
      [a', b];
    }
    assert !Has([a', b], c.k);
  }
}
