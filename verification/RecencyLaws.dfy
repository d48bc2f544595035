/** How lookups, presence and distinctness go through the operations on recency lists. */
module RecencyLaws {
  import opened Options
  import opened Recency

  lemma {:induction false} LookupWithout<V>(s: seq<Node<V>>, key: Key, q: Key)
    ensures Lookup(Without(s, key), q) == if q == key then None else Lookup(s, q)
  {
    if s != [] {
      LookupWithout(s[1..], key, q);
      if s[0].k != key {
        assert ([s[0]] + Without(s[1..], key))[1..] == Without(s[1..], key);
      }
    }
  }

  lemma {:induction false} LookupConcat<V>(a: seq<Node<V>>, b: seq<Node<V>>, q: Key)
    ensures Lookup(a + b, q) == if Lookup(a, q).Some? then Lookup(a, q) else Lookup(b, q)
  {
    if a == [] {
      assert a + b == b;
    } else {
      assert (a + b)[0] == a[0] && (a + b)[1..] == a[1..] + b;
      LookupConcat(a[1..], b, q);
    }
  }

  lemma LookupCons<V>(x: Node<V>, s: seq<Node<V>>, q: Key)
    ensures Lookup([x] + s, q) == if q == x.k then Some(x) else Lookup(s, q)
  {
    assert ([x] + s)[1..] == s;
  }

  lemma LookupSnoc<V>(s: seq<Node<V>>, x: Node<V>, q: Key)
    ensures Lookup(s + [x], q) ==
      if Lookup(s, q).Some? then Lookup(s, q) else if q == x.k then Some(x) else None
  {
    LookupConcat(s, [x], q);
    assert [x][1..] == [];
  }

  /** Distinctness, in the form that follows the data. */
  lemma DistinctCons<V>(x: Node<V>, s: seq<Node<V>>)
    ensures Distinct([x] + s) <==> Distinct(s) && !Has(s, x.k)
  {
    var r := [x] + s;
    assert forall i :: 0 <= i < |s| ==> s[i] == r[i + 1];
    if Distinct(r) {
      forall i | 0 <= i < |s|
        ensures s[i].k != x.k
      {
        assert r[0].k != r[i + 1].k;
      }
    }
  }

  lemma {:induction false} WithoutDistinct<V>(s: seq<Node<V>>, key: Key)
    requires Distinct(s)
    ensures Distinct(Without(s, key))
  {
    if s != [] {
      var t := s[1..];
      assert s == [s[0]] + t;
      DistinctCons(s[0], t);
      WithoutDistinct(t, key);
      if s[0].k != key {
        LookupWithout(t, key, s[0].k);
        DistinctCons(s[0], Without(t, key));
      }
    }
  }

  lemma SnocDistinct<V>(s: seq<Node<V>>, x: Node<V>)
    requires Distinct(s) && !Has(s, x.k)
    ensures Distinct(s + [x])
  {
  }

  lemma WithoutLength<V>(s: seq<Node<V>>, key: Key)
    requires Distinct(s)
    ensures |Without(s, key)| == if Has(s, key) then |s| - 1 else |s|
  {
    if Has(s, key) {
      var i :| 0 <= i < |s| && s[i].k == key;
      WithoutAt(s, i);
    } else {
      WithoutAbsent(s, key);
    }
  }

  /** The last entry of a list without duplicates. */
  lemma LookupInit<V>(s: seq<Node<V>>, q: Key)
    requires s != [] && Distinct(s)
    ensures var x := s[|s| - 1];
      Lookup(s[..|s| - 1], q) == if q == x.k then None else Lookup(s, q)
  {
    var init, x := s[..|s| - 1], s[|s| - 1];
    assert s == init + [x];
    LookupSnoc(init, x, q);
    assert !Has(init, x.k);
  }

  /** `s` is a recency list of a cache with `cap` slots. */
  ghost predicate Sound<V>(s: seq<Node<V>>, cap: nat) {
    Distinct(s) && |s| <= cap
  }

  lemma PutSound<V>(s: seq<Node<V>>, cap: nat, x: Node<V>)
    requires Sound(s, cap) && 0 < cap
    ensures Sound(Put(s, cap, x), cap)
  {
    if Has(s, x.k) {
      WithoutDistinct(s, x.k);
      WithoutLength(s, x.k);
      LookupWithout(s, x.k, x.k);
      DistinctCons(x, Without(s, x.k));
    } else if cap <= |s| {
      assert !Has(s[..|s| - 1], x.k);
      DistinctCons(x, s[..|s| - 1]);
    } else {
      DistinctCons(x, s);
    }
  }

  lemma TouchSound<V>(s: seq<Node<V>>, cap: nat, key: Key)
    requires Sound(s, cap)
    ensures Sound(Touch(s, key), cap)
  {
    if Has(s, key) {
      WithoutDistinct(s, key);
      WithoutLength(s, key);
      LookupWithout(s, key, key);
      DistinctCons(Lookup(s, key).value, Without(s, key));
    }
  }

  lemma BurySound<V>(s: seq<Node<V>>, cap: nat, key: Key)
    requires Sound(s, cap)
    ensures Sound(Bury(s, key), cap)
  {
    if LiveAt(s, key).Some? {
      WithoutDistinct(s, key);
      WithoutLength(s, key);
      LookupWithout(s, key, key);
      SnocDistinct(Without(s, key), Lookup(s, key).value.(expireAt := 0));
    }
  }

  // ---------- what an operation does to the entry of a key ----------

  lemma PutLookup<V>(s: seq<Node<V>>, cap: nat, x: Node<V>, q: Key)
    requires Sound(s, cap) && 0 < cap
    ensures Lookup(Put(s, cap, x), q) ==
      if q == x.k then Some(x)
      else if !Has(s, x.k) && cap <= |s| && q == s[|s| - 1].k then None
      else Lookup(s, q)
  {
    if Has(s, x.k) {
      LookupCons(x, Without(s, x.k), q);
      LookupWithout(s, x.k, q);
    } else if cap <= |s| {
      LookupCons(x, s[..|s| - 1], q);
      LookupInit(s, q);
    } else {
      LookupCons(x, s, q);
    }
  }

  lemma TouchLookup<V>(s: seq<Node<V>>, key: Key, q: Key)
    ensures Lookup(Touch(s, key), q) == Lookup(s, q)
  {
    if Has(s, key) {
      LookupCons(Lookup(s, key).value, Without(s, key), q);
      LookupWithout(s, key, q);
    }
  }

  lemma BuryLookup<V>(s: seq<Node<V>>, key: Key, q: Key)
    ensures Lookup(Bury(s, key), q) ==
      if q == key && LiveAt(s, key).Some? then Some(Lookup(s, key).value.(expireAt := 0)) else Lookup(s, q)
  {
    if LiveAt(s, key).Some? {
      LookupWithout(s, key, q);
      LookupSnoc(Without(s, key), Lookup(s, key).value.(expireAt := 0), q);
    }
  }

  /** The list a walk shows holds exactly the live entries. */
  lemma {:induction false} LiveHas<V>(s: seq<Node<V>>, n: Node<V>)
    requires Distinct(s)
    ensures n in Live(s) <==> LiveAt(s, n.k) == Some(n)
  {
    if s != [] {
      var t := s[1..];
      assert s == [s[0]] + t;
      DistinctCons(s[0], t);
      LookupCons(s[0], t, n.k);
      LiveHas(t, n);
    }
  }
}
