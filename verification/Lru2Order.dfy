/** The order of a recency list in terms of the operations of a run, and whom `put` pushes out. */
module Lru2Order {
  import opened Options
  import opened Recency
  import opened RecencyLaws
  import opened Lru2Runs

  /** Where the run so far puts a key: the later it was stored or read, the further in front; the later it was
      deleted, the further back. Deleting a deleted key changes nothing. */
  datatype Place = Place(rank: int, live: bool)

  function PlaceOf<V>(ops: seq<Op<V>>, k: Key): Place {
    if ops == [] then Place(0, false)
    else
      var p := PlaceOf(ops[..|ops| - 1], k);
      match ops[|ops| - 1]
      case PutOp(x) => if x.k == k then Place(|ops|, x.Live()) else p
      case GetOp(key) => if key == k then Place(|ops|, p.live) else p
      case DelOp(key) => if key == k && p.live then Place(-|ops|, false) else p
  }

  ghost predicate Placed<V>(ops: seq<Op<V>>, n: Node<V>) {
    var p := PlaceOf(ops, n.k);
    n.Live() == p.live && -|ops| <= p.rank <= |ops|
  }

  /** The list is in the order of the places of its keys. */
  ghost predicate Ranked<V>(s: seq<Node<V>>, ops: seq<Op<V>>) {
    && (forall i :: 0 <= i < |s| ==> Placed(ops, s[i]))
    && (forall i, j :: 0 <= i < j < |s| ==> PlaceOf(ops, s[i].k).rank > PlaceOf(ops, s[j].k).rank)
  }

  predicate About<V>(op: Op<V>, k: Key) {
    match op
    case PutOp(x) => x.k == k
    case GetOp(key) => key == k
    case DelOp(key) => key == k
  }

  lemma PlaceSnoc<V>(ops: seq<Op<V>>, op: Op<V>, k: Key)
    ensures var p, p' := PlaceOf(ops, k), PlaceOf(ops + [op], k);
      p' == match op
            case PutOp(x) => if x.k == k then Place(|ops| + 1, x.Live()) else p
            case GetOp(key) => if key == k then Place(|ops| + 1, p.live) else p
            case DelOp(key) => if key == k && p.live then Place(-(|ops| + 1), false) else p
  {
    assert (ops + [op])[..|ops|] == ops;
  }

  /** Entries that the operation is not about stay in order. */
  lemma OthersRanked<V>(s: seq<Node<V>>, ops: seq<Op<V>>, op: Op<V>)
    requires Ranked(s, ops) && forall i :: 0 <= i < |s| ==> !About(op, s[i].k)
    ensures Ranked(s, ops + [op])
    ensures forall i :: 0 <= i < |s| ==> PlaceOf(ops + [op], s[i].k) == PlaceOf(ops, s[i].k)
  {
    hide PlaceOf;
    forall i | 0 <= i < |s| ensures PlaceOf(ops + [op], s[i].k) == PlaceOf(ops, s[i].k) {
      PlaceSnoc(ops, op, s[i].k);
    }
  }

  lemma WithoutRanked<V>(s: seq<Node<V>>, ops: seq<Op<V>>, key: Key)
    requires Ranked(s, ops) && Distinct(s)
    ensures Ranked(Without(s, key), ops) && forall i :: 0 <= i < |Without(s, key)| ==> Without(s, key)[i].k != key
  {
    hide PlaceOf, Placed;
    if Has(s, key) {
      var i :| 0 <= i < |s| && s[i].k == key;
      WithoutAt(s, i);
    } else {
      WithoutAbsent(s, key);
    }
  }

  lemma FrontRanked<V>(x: Node<V>, s: seq<Node<V>>, ops: seq<Op<V>>)
    requires Ranked(s, ops) && Placed(ops, x) && forall i :: 0 <= i < |s| ==> PlaceOf(ops, x.k).rank > PlaceOf(ops, s[i].k).rank
    ensures Ranked([x] + s, ops)
  {
    hide PlaceOf, Placed;
  }

  lemma BackRanked<V>(s: seq<Node<V>>, x: Node<V>, ops: seq<Op<V>>)
    requires Ranked(s, ops) && Placed(ops, x) && forall i :: 0 <= i < |s| ==> PlaceOf(ops, s[i].k).rank > PlaceOf(ops, x.k).rank
    ensures Ranked(s + [x], ops)
  {
    hide PlaceOf, Placed;
  }

  lemma PutRanked<V>(s: seq<Node<V>>, cap: nat, ops: seq<Op<V>>, x: Node<V>)
    requires Sound(s, cap) && 0 < cap && Ranked(s, ops)
    ensures Ranked(Put(s, cap, x), ops + [PutOp(x)])
  {
    hide PlaceOf, Sound;
    var rest := if Has(s, x.k) then Without(s, x.k) else if cap <= |s| then s[..|s| - 1] else s;
    if Has(s, x.k) {
      WithoutRanked(s, ops, x.k);
    }
    OthersRanked(rest, ops, PutOp(x));
    PlaceSnoc(ops, PutOp(x), x.k);
    FrontRanked(x, rest, ops + [PutOp(x)]);
  }

  lemma TouchRanked<V>(s: seq<Node<V>>, ops: seq<Op<V>>, key: Key)
    requires Distinct(s) && Ranked(s, ops)
    ensures Ranked(Touch(s, key), ops + [GetOp(key)])
  {
    hide PlaceOf;
    var rest := Without(s, key);
    WithoutRanked(s, ops, key);
    if Has(s, key) {
      OthersRanked(rest, ops, GetOp(key));
      PlaceSnoc(ops, GetOp(key), key);
      FrontRanked(Lookup(s, key).value, rest, ops + [GetOp(key)]);
    } else {
      OthersRanked(s, ops, GetOp(key));
    }
  }

  lemma BuryRanked<V>(s: seq<Node<V>>, ops: seq<Op<V>>, key: Key)
    requires Distinct(s) && Ranked(s, ops)
    ensures Ranked(Bury(s, key), ops + [DelOp(key)])
  {
    hide PlaceOf;
    if LiveAt(s, key).Some? {
      var rest := Without(s, key);
      WithoutRanked(s, ops, key);
      OthersRanked(rest, ops, DelOp(key));
      PlaceSnoc(ops, DelOp(key), key);
      BackRanked(rest, LiveAt(s, key).value.(expireAt := 0), ops + [DelOp(key)]);
    } else {
      DeadStays(s, ops, key);
    }
  }

  /** Deleting a key that is deleted or absent leaves the places of the list as they are. */
  lemma DeadStays<V>(s: seq<Node<V>>, ops: seq<Op<V>>, key: Key)
    requires Distinct(s) && Ranked(s, ops) && LiveAt(s, key) == None
    ensures Ranked(s, ops + [DelOp(key)])
  {
    hide PlaceOf;
    forall i | 0 <= i < |s| ensures PlaceOf(ops + [DelOp(key)], s[i].k) == PlaceOf(ops, s[i].k) {
      PlaceSnoc(ops, DelOp(key), s[i].k);
      LookupAt(s, i);
    }
  }

  lemma {:induction false} RunSnoc<V>(s: seq<Node<V>>, cap: nat, ops: seq<Op<V>>, op: Op<V>)
    ensures Run(s, cap, ops + [op]) == Step(Run(s, cap, ops), cap, op)
    decreases |ops|
  {
    if ops == [] {
      assert [op][1..] == [];
    } else {
      assert (ops + [op])[1..] == ops[1..] + [op];
      RunSnoc(Step(s, cap, ops[0]), cap, ops[1..], op);
    }
  }

  /** After every run of `put`, `get` and `del`, the list is in the order of the places of its keys. */
  lemma {:induction false} RunRanked<V>(cap: nat, ops: seq<Op<V>>)
    requires 0 < cap
    ensures Ranked(Run([], cap, ops), ops) && Sound(Run([], cap, ops), cap)
  {
    hide PlaceOf, Step;
    if ops != [] {
      var init, op := ops[..|ops| - 1], ops[|ops| - 1];
      var s := Run<V>([], cap, init);
      RunRanked(cap, init);
      assert init + [op] == ops;
      RunSnoc([], cap, init, op);
      StepSound(s, cap, op);
      StepRanked(s, cap, init, op);
    }
  }

  lemma StepRanked<V>(s: seq<Node<V>>, cap: nat, ops: seq<Op<V>>, op: Op<V>)
    requires Sound(s, cap) && 0 < cap && Ranked(s, ops)
    ensures Ranked(Step(s, cap, op), ops + [op])
  {
    hide PlaceOf, Ranked;
    match op
    case PutOp(x) => PutRanked(s, cap, ops, x);
    case GetOp(key) => TouchRanked(s, ops, key);
    case DelOp(key) => BuryRanked(s, ops, key);
  }

  /** A new key is pushed in at the expense of another only when the cache is full, and then of exactly the one
      with the least place: of those deleted and not read since, the one deleted last; if there are none, the one
      stored or read longest ago. */
  lemma VictimIff<V>(cap: nat, ops: seq<Op<V>>, x: Node<V>, q: Key)
    requires 0 < cap && !Has(Run([], cap, ops), x.k) && Has(Run([], cap, ops), q)
    ensures var s := Run([], cap, ops);
      !Has(Put(s, cap, x), q) <==>
        |s| == cap && forall p :: Has(s, p) && p != q ==> PlaceOf(ops, p).rank > PlaceOf(ops, q).rank
  {
    hide PlaceOf, Run, Placed;
    RunRanked(cap, ops);
    var s := Run<V>([], cap, ops);
    PutLookup(s, cap, x, q);
    var i :| 0 <= i < |s| && s[i].k == q;
    if i < |s| - 1 {
      assert Has(s, s[|s| - 1].k) && s[|s| - 1].k != q;
    }
  }
}
