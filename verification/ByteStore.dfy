/** What the second size-bounded LRU cache does, on values. */
module ByteStore {
  import opened Options
  import opened ByteList

  /** `items` are oldest first; a key without a deadline never expires. */
  datatype Store = Store(items: seq<Entry>, expires: map<string, int>, maxBytes: int)

  /** Without the entries of some keys. */
  function Sift(s: seq<Entry>, gone: set<string>): seq<Entry> {
    if s == [] then []
    else if s[0].key in gone then Sift(s[1..], gone)
    else [s[0]] + Sift(s[1..], gone)
  }

  function Late(expires: map<string, int>, now: int): set<string> {
    set k | k in expires && now > expires[k]
  }

  /** The deadlines of the keys that are still there. */
  function Restrict(expires: map<string, int>, s: seq<Entry>): map<string, int> {
    map k | k in expires && Has(s, k) :: expires[k]
  }

  /** Expired entries go first, then the least recently used ones as far as needed. */
  function Evict(st: Store, now: int): Store {
    var live := Sift(st.items, Late(st.expires, now));
    var kept := if st.maxBytes > 0 then Trim(live, st.maxBytes) else live;
    st.(items := kept, expires := Restrict(st.expires, kept))
  }

  function Delete(st: Store, key: string): Store {
    if Has(st.items, key) then st.(items := Without(st.items, key), expires := st.expires - {key}) else st
  }

  function Deadline(expires: map<string, int>, key: string, ttl: int, now: int): map<string, int> {
    if ttl > 0 then expires[key := now + ttl] else expires - {key}
  }

  /** `now` is when the deadline is computed, `later` when the expired entries are looked for. */
  function Set(st: Store, key: string, value: Option<string>, ttl: int, now: int, later: int): Store {
    if value == None then Delete(st, key)
    else
      var st' := st.(items := Put(st.items, key, value.value), expires := Deadline(st.expires, key, ttl, now));
      if Has(st.items, key) then st' else Evict(st', later)
  }

  function ValueOf(s: seq<Entry>, key: string): (v: Option<string>)
    ensures v.Some? <==> Has(s, key)
    ensures v.Some? ==> Entry(key, v.value) in s
  {
    if s == [] then None
    else
      assert [s[0]] + s[1..] == s;
      HasCons(s[0], s[1..], key);
      if s[0].key == key then Some(s[0].value) else ValueOf(s[1..], key)
  }

  function Expired(st: Store, key: string, now: int): bool { key in st.expires && now > st.expires[key] }

  /** A hit makes the entry the newest; an expired entry is left in place. */
  function Get(st: Store, key: string, now: int): (Store, Option<string>) {
    var v := ValueOf(st.items, key);
    if v == None || Expired(st, key, now) then (st, None)
    else (st.(items := Put(st.items, key, v.value)), v)
  }

  /** The second section of a `Get` that found the key: if the element it found is still in the list,
      it becomes the newest. */
  function Promote(st: Store, key: string, present: bool): Store {
    var v := ValueOf(st.items, key);
    if present && v.Some? then st.(items := Put(st.items, key, v.value)) else st
  }

  /** Without anything in between, the two sections are the whole `Get`. */
  lemma GetIsBothSections(st: Store, key: string, now: int)
    ensures Get(st, key, now).0 == Promote(st, key, Get(st, key, now).1.Some?)
  {
  }

  function UpdateExpiration(st: Store, key: string, ttl: int, now: int): Store {
    if Has(st.items, key) then st.(expires := Deadline(st.expires, key, ttl, now)) else st
  }

  function Clear(st: Store): Store { st.(items := [], expires := map[]) }

  function SetMaxBytes(st: Store, max: int, now: int): Store {
    var st' := st.(maxBytes := max);
    if max > 0 then Evict(st', now) else st'
  }

  /** One entry per key, and deadlines only for keys that are there. */
  ghost predicate Good(st: Store) {
    Distinct(st.items) && forall k :: k in st.expires ==> Has(st.items, k)
  }

  lemma {:induction false} SiftIs(s: seq<Entry>, gone: set<string>)
    requires Distinct(s)
    ensures Distinct(Sift(s, gone)) && forall e :: e in Sift(s, gone) <==> e in s && e.key !in gone
  {
    if s != [] {
      SiftIs(s[1..], gone);
      assert [s[0]] + s[1..] == s;
      assert Distinct(s[1..]);
      forall e | e in Sift(s[1..], gone) ensures e.key != s[0].key {
        var i :| 0 <= i < |s| - 1 && s[1..][i] == e;
        assert s[i + 1] == e;
      }
    }
  }

  lemma HasEntry(s: seq<Entry>, key: string)
    ensures Has(s, key) <==> exists e :: e in s && e.key == key
  {
    if Has(s, key) {
      var i :| 0 <= i < |s| && s[i].key == key;
      assert s[i] in s;
    }
  }

  lemma {:induction false} WithoutIs(s: seq<Entry>, key: string)
    requires Distinct(s)
    ensures Distinct(Without(s, key)) && forall e :: e in Without(s, key) <==> e in s && e.key != key
  {
    WithoutIsSift(s, key);
    SiftIs(s, {key});
  }

  lemma {:induction false} WithoutIsSift(s: seq<Entry>, key: string)
    ensures Without(s, key) == Sift(s, {key})
  {
    if s != [] {
      WithoutIsSift(s[1..], key);
    }
  }

  lemma PutIs(s: seq<Entry>, key: string, value: string)
    requires Distinct(s)
    ensures var r := Put(s, key, value);
      Distinct(r) && forall e :: e in r <==> e == Entry(key, value) || (e in s && e.key != key)
  {
    WithoutIs(s, key);
    var w := Without(s, key);
    forall i | 0 <= i < |w| ensures w[i].key != key {
      assert w[i] in w;
    }
  }

  lemma EvictIs(st: Store, now: int)
    requires Good(st)
    ensures var st' := Evict(st, now);
      && Good(st') && st'.maxBytes == st.maxBytes
      && (forall e :: e in st'.items ==> e in st.items && !Expired(st, e.key, now))
      && (forall k :: k in st'.expires ==> k in st.expires && st'.expires[k] == st.expires[k])
      && (forall e :: e in st'.items && e.key in st.expires ==> e.key in st'.expires)
      && (st.maxBytes > 0 ==> Size(st'.items) <= st.maxBytes)
  {
    var live := Sift(st.items, Late(st.expires, now));
    SiftIs(st.items, Late(st.expires, now));
    var k := 0;
    if st.maxBytes > 0 {
      k := TrimIs(live, st.maxBytes);
    } else {
      assert live[0..] == live;
    }
    var kept := live[k..];
    assert Evict(st, now).items == kept;
    forall e | e in kept ensures e in live && Has(kept, e.key) {
      HasEntry(kept, e.key);
    }
  }

  /** The entries whose deadline, if they have one, has not passed. */
  function Timely(st: Store, now: int): seq<Entry> { Sift(st.items, Late(st.expires, now)) }

  lemma TimelyIs(st: Store, now: int)
    requires Good(st)
    ensures forall e :: e in Timely(st, now) <==>
      e in st.items && (e.key in st.expires ==> now <= st.expires[e.key])
  {
    SiftIs(st.items, Late(st.expires, now));
  }

  /** What an eviction keeps: all entries whose deadline has not passed, and with a bound the longest most
      recent run of these that fits. */
  lemma EvictKeepsLongestRun(st: Store, now: int) returns (k: nat)
    requires Good(st)
    ensures forall e :: e in Timely(st, now) <==>
      e in st.items && (e.key in st.expires ==> now <= st.expires[e.key])
    ensures st.maxBytes <= 0 ==> k == 0
    ensures var live, kept := Timely(st, now), Evict(st, now).items;
      && k <= |live| && kept == live[k..]
      && (st.maxBytes > 0 ==> Size(kept) <= st.maxBytes && forall j :: 0 <= j < k ==> Size(live[j..]) > st.maxBytes)
  {
    TimelyIs(st, now);
    var live := Timely(st, now);
    if st.maxBytes > 0 {
      k := TrimIs(live, st.maxBytes);
    } else {
      k := 0;
      assert live[0..] == live;
    }
  }
}
