/** Recency lists: the abstract value of one level of the two-level store.

    A recency list holds the entries of a cache from the most to the least recently used, one per
    key. `Put`, `Touch` and `Bury` say what `put`, `get` and `del` do to it; the array-backed
    class in `Lru2Cache` is proved to do exactly that to the list threaded through its links. */
module Recency {

  import opened Options

  /** A Go string is a sequence of bytes. */
  type Key = seq<bv8>

  /** `expireAt == 0` marks an entry as deleted. */
  datatype Node<+V> = Node(k: Key, v: V, expireAt: int)
  {
    predicate Live() { expireAt > 0 }
  }

  predicate Has<V>(s: seq<Node<V>>, key: Key) {
    exists i :: 0 <= i < |s| && s[i].k == key
  }

  ghost predicate Distinct<V>(s: seq<Node<V>>) {
    forall i, j :: 0 <= i < j < |s| ==> s[i].k != s[j].k
  }

  function Without<V>(s: seq<Node<V>>, key: Key): seq<Node<V>> {
    if s == [] then []
    else if s[0].k == key then Without(s[1..], key)
    else [s[0]] + Without(s[1..], key)
  }

  function Lookup<V>(s: seq<Node<V>>, key: Key): (r: Option<Node<V>>)
    ensures r.Some? <==> Has(s, key)
    ensures r.Some? ==> r.value.k == key && r.value in s
  {
    if s == [] then None
    else if s[0].k == key then Some(s[0])
    else
      var r := Lookup(s[1..], key);
      assert r.Some? ==> exists i :: 0 <= i < |s[1..]| && s[1..][i].k == key;
      assert forall i :: 0 < i < |s| ==> s[i] == s[1..][i - 1];
      r
  }

  /** The entry of `key`, if it is there and not deleted. */
  function LiveAt<V>(s: seq<Node<V>>, key: Key): Option<Node<V>> {
    var r := Lookup(s, key);
    if r.Some? && r.value.Live() then r else None
  }

  /** What `walk` visits. */
  function Live<V>(s: seq<Node<V>>): (r: seq<Node<V>>)
    ensures |r| <= |s|
  {
    if s == [] then []
    else if s[0].Live() then [s[0]] + Live(s[1..])
    else Live(s[1..])
  }

  function Put<V>(s: seq<Node<V>>, cap: nat, x: Node<V>): seq<Node<V>> {
    if Has(s, x.k) then [x] + Without(s, x.k)
    else if 0 < cap <= |s| then [x] + s[..|s| - 1]
    else [x] + s
  }

  /** The live entry that `put` pushes out, if any. */
  function Evicts<V>(s: seq<Node<V>>, cap: nat, key: Key): Option<Node<V>> {
    if !Has(s, key) && 0 < cap <= |s| && s[|s| - 1].Live() then Some(s[|s| - 1]) else None
  }

  function Touch<V>(s: seq<Node<V>>, key: Key): seq<Node<V>> {
    match Lookup(s, key)
    case Some(x) => [x] + Without(s, key)
    case None => s
  }

  function Bury<V>(s: seq<Node<V>>, key: Key): seq<Node<V>> {
    match LiveAt(s, key)
    case Some(x) => Without(s, key) + [x.(expireAt := 0)]
    case None => s
  }

  // ---------- Without ----------

  lemma {:induction false} WithoutAbsent<V>(s: seq<Node<V>>, key: Key)
    requires !Has(s, key)
    ensures Without(s, key) == s
  {
    if s != [] {
      assert s[0].k != key;
      assert forall i :: 0 <= i < |s[1..]| ==> s[1..][i] == s[i + 1];
      WithoutAbsent(s[1..], key);
    }
  }

  /** Removing a key from a list without duplicates takes out its one entry. */
  lemma {:induction false} WithoutAt<V>(s: seq<Node<V>>, i: nat)
    requires i < |s| && Distinct(s)
    ensures var r := Without(s, s[i].k);
      && |r| == |s| - 1
      && (forall k :: 0 <= k < i ==> r[k] == s[k])
      && (forall k :: i <= k < |r| ==> r[k] == s[k + 1])
  {
    var tail := s[1..];
    assert forall j :: 0 <= j < |tail| ==> tail[j] == s[j + 1];
    if i == 0 {
      assert !Has(tail, s[0].k);
      WithoutAbsent(tail, s[0].k);
    } else {
      assert tail[i - 1] == s[i];
      WithoutAt(tail, i - 1);
    }
  }

  lemma {:induction false} LiveConcat<V>(a: seq<Node<V>>, b: seq<Node<V>>)
    ensures Live(a + b) == Live(a) + Live(b)
  {
    if a == [] {
      assert a + b == b;
    } else {
      assert (a + b)[0] == a[0] && (a + b)[1..] == a[1..] + b;
      LiveConcat(a[1..], b);
    }
  }

  lemma LiveOne<V>(n: Node<V>)
    ensures Live([n]) == if n.Live() then [n] else []
  {
    assert [n][1..] == [];
  }

  lemma SplitAt<T>(e: seq<T>, i: nat)
    requires i < |e|
    ensures e[..i + 1] == e[..i] + [e[i]]
    ensures e == (e[..i] + [e[i]]) + e[i + 1..]
  {
  }

  lemma LiveStep<V>(e: seq<Node<V>>, i: nat)
    requires i < |e|
    ensures Live(e[..i + 1]) == Live(e[..i]) + if e[i].Live() then [e[i]] else []
    ensures Live(e[..i + 1]) <= Live(e)
  {
    var a, x, b := e[..i], [e[i]], e[i + 1..];
    SplitAt(e, i);
    assert Live(a + x) == Live(a) + Live(x) by { LiveConcat(a, x); }
    assert Live(e) == Live(a + x) + Live(b) by { LiveConcat(a + x, b); }
    LiveOne(e[i]);
  }

  lemma LookupAt<V>(s: seq<Node<V>>, i: nat)
    requires i < |s| && Distinct(s)
    ensures Lookup(s, s[i].k) == Some(s[i])
  {
    var r := Lookup(s, s[i].k);
    assert Has(s, s[i].k);
    var j :| 0 <= j < |s| && s[j] == r.value;
  }
}
