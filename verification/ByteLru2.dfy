/** The second size-bounded LRU cache, as an object; the time is a parameter. */
module ByteLru2 {
  import opened Options
  import opened ByteList
  import opened ByteStore
  import opened ByteElements
  import C = ElementChain

  class LruCache {
    /** The least recently used element is at the front. */
    var list: C.Chain<Element>
    var items: map<string, Element>
    var expires: map<string, int>
    var maxBytes: int
    var usedBytes: int
    /** The calls of `onEvicted`. */
    var evicted: multiset<Entry>
    /** The elements from the front to the back, and what they hold. */
    ghost var order: seq<Element>
    ghost var held: seq<Entry>
    /** The elements that `Clear` dropped and that still name the list as theirs. */
    ghost var strays: set<Element>

    ghost function View(): Store
      reads this
    {
      Store(held, expires, maxBytes)
    }

    ghost predicate Valid()
      reads this, order
    {
      && C.Keeps(list, order, strays)
      && Linked(order, items) && held == ByteElements.View(order) && usedBytes == Size(held)
      && forall k :: k in expires ==> k in items
    }

    constructor (maxBytes: int)
      ensures Valid() && View() == Store([], map[], maxBytes) && evicted == multiset{} && strays == {}
    {
      C.NewRepresents<Element>();
      list, items, expires, this.maxBytes, usedBytes := C.New(), map[], map[], maxBytes, 0;
      evicted, order, held, strays := multiset{}, [], [], {};
    }

    /** The object is in order: one entry per key, exact accounting, deadlines only for stored keys. */
    lemma ValidIsGood()
      requires Valid()
      ensures Good(View()) && forall k :: k in items <==> Has(held, k)
    {
      LinkedDistinct(order, items);
      forall k ensures k in items <==> Has(held, k) {
        LinkedHas(order, items, k);
      }
    }

    method MoveToBack(key: string)
      requires Valid() && key in items
      modifies `list, `order, `held
      ensures Valid() && held == Put(old(held), key, items[key].value)
    {
      hide ByteElements.View, Put, C.Keeps, Linked, Moved, Size;
      ghost var i := Moving(key);
      list := C.MoveToBack(list, items[key]);
      held := Put(held, key, items[key].value);
      order := Moved(order, i);
    }

    /** What the list is when the element of the key has been moved. */
    lemma Moving(key: string) returns (i: nat)
      requires Valid() && key in items
      ensures i < |order| && order[i] == items[key]
      ensures Linked(Moved(order, i), items) && C.Keeps(C.MoveToBack(list, items[key]), Moved(order, i), strays)
      ensures ByteElements.View(Moved(order, i)) == Put(held, key, items[key].value)
      ensures Size(Put(held, key, items[key].value)) == Size(held)
    {
      hide ByteElements.View, Put, C.Keeps, IndexOf;
      i := IndexOf(order, items[key]);
      C.KeepsMove(list, order, strays, i);
      LinkedDistinct(order, items);
      LinkedMove(order, items, i);
      MovedView(order, i);
      assert order[i].key == key;
      hide Linked;
      assert C.Without(order, i) + [order[i]] == Moved(order, i);
    }

    method RemoveElement(elem: Element)
      requires Valid() && elem in order
      modifies this
      ensures Valid() && maxBytes == old(maxBytes)
      ensures held == Without(old(held), elem.key) && expires == old(expires) - {elem.key}
      ensures items == old(items) - {elem.key} && strays == old(strays)
      ensures evicted == old(evicted) + multiset{Entry(elem.key, elem.value)}
    {
      hide ByteElements.View, Without, Linked, Dropped, Size, IndexOf, C.Keeps;
      ghost var at := Leaving(elem);
      list := C.Remove(list, elem);
      order := Dropped(order, at);
      items := items - {elem.key};
      expires := expires - {elem.key};
      usedBytes := usedBytes - (|elem.key| + |elem.value|);
      evicted := evicted + multiset{Entry(elem.key, elem.value)};
      held := Without(held, elem.key);
    }

    /** What is left of the order when an element is taken out. */
    lemma Leaving(elem: Element) returns (i: nat)
      requires Valid() && elem in order
      ensures i < |order| && Linked(Dropped(order, i), items - {elem.key})
      ensures C.Keeps(C.Remove(list, elem), Dropped(order, i), strays)
      ensures ByteElements.View(Dropped(order, i)) == Without(held, elem.key)
      ensures Size(Without(held, elem.key)) == Size(held) - |elem.key| - |elem.value|
      ensures multiset(Without(held, elem.key)) + multiset{Entry(elem.key, elem.value)} == multiset(held)
    {
      hide Without, Linked, Distinct, C.Keeps;
      i := IndexOf(order, elem);
      C.KeepsRemove(list, order, strays, i);
      assert C.Without(order, i) == Dropped(order, i);
      hide Dropped;
      LinkedDistinct(order, items);
      LinkedDrop(order, items, i);
      DroppedView(order, i);
      WithoutCounts(held, i);
      assert held[i] == Entry(elem.key, elem.value);
    }

    method DeleteKey(key: string) returns (ok: bool)
      requires Valid()
      modifies this
      ensures Valid() && View() == Delete(old(View()), key) && strays == old(strays)
      ensures ok <==> Has(old(held), key)
      ensures evicted + multiset(held) == old(evicted) + multiset(old(held))
    {
      LinkedHas(order, items, key);
      if key in items {
        InList(key);
        hide Linked, Without, Has, C.Keeps, ByteElements.View;
        ghost var at := Leaving(items[key]);
        RemoveElement(items[key]);
        return true;
      }
      return false;
    }

    lemma InList(key: string)
      requires Valid() && key in items
      ensures items[key] in order && items[key].key == key
      ensures Has(held, key) && ValueOf(held, key) == Some(items[key].value)
    {
      LinkedDistinct(order, items);
      LinkedHas(order, items, key);
      var i := IndexOf(order, items[key]);
      var e := Entry(key, ValueOf(held, key).value);
      var j :| 0 <= j < |held| && held[j] == e;
      assert held[i].key == key;
    }

    /** The section of `Get` under the read lock: the value and its element, or a miss; an expired
        entry is left in place and its deletion scheduled. */
    method Find(key: string, now: int) returns (value: Option<string>, elem: Element?, scheduled: bool)
      requires Valid()
      ensures value == Get(View(), key, now).1
      ensures if value.Some? then elem != null && elem in order && elem !in strays && elem.key == key else elem == null
      ensures scheduled <==> Has(held, key) && Expired(View(), key, now)
    {
      LinkedHas(order, items, key);
      if key !in items {
        return None, null, false;
      }
      InList(key);
      if key in expires && now > expires[key] {
        return None, null, true;
      }
      return Some(items[key].value), items[key], false;
    }

    /** The section under the write lock, which may come later. It checks the key only, and the list
        only that the element names it. An element that was removed no longer does; one that `Clear`
        dropped still does, and if its key is stored again the list is spoiled. */
    method PromoteElement(key: string, elem: Element)
      requires Valid() && elem.key == key
      modifies `list, `order, `held
      ensures key in items && elem in strays ==>
        && C.Prev(list, None) == Some(elem) && elem !in items.Values
        && forall s :: Linked(s, items) ==> !C.Represents(list, s)
      ensures !(key in items && elem in strays) ==>
        Valid() && View() == Promote(old(View()), key, elem in old(order))
    {
      hide Linked, ByteElements.View, Put, ValueOf, Has, C.Keeps, Moved, C.Prev, C.Represents, C.MoveToBack, Size;
      LinkedHas(order, items, key);
      if key in items {
        ghost var at := 0;
        InList(key);
        if elem in strays {
          Spoiled(elem);
        } else if elem in order {
          OneElement(elem);
          at := Moving(key);
        } else {
          C.ForeignHarmless(list, order, strays, elem);
        }
        list := C.MoveToBack(list, elem);
        if elem !in strays && elem in order {
          held := Put(held, key, items[key].value);
          order := Moved(order, at);
        }
      }
    }

    lemma Spoiled(elem: Element)
      requires Valid() && elem.key in items && elem in strays
      ensures C.Prev(C.MoveToBack(list, elem), None) == Some(elem) && elem !in items.Values
      ensures forall s :: Linked(s, items) ==> !C.Represents(C.MoveToBack(list, elem), s)
    {
      assert elem !in order;
      C.StraySpoils(list, order, strays, elem);
      hide C.MoveToBack, C.Represents, C.Prev;
      forall s: seq<Element> | Linked(s, items) ensures elem !in s {
      }
    }

    lemma OneElement(elem: Element)
      requires Valid() && elem in order
      ensures elem.key in items && items[elem.key] == elem
    {
    }

    /** `Get` with nothing in between. */
    method Lookup(key: string, now: int) returns (value: Option<string>, scheduled: bool)
      requires Valid()
      modifies `list, `order, `held
      ensures Valid() && (View(), value) == Get(old(View()), key, now)
      ensures scheduled <==> Has(old(held), key) && Expired(old(View()), key, now)
    {
      hide Linked, ByteElements.View, Has, C.Keeps;
      GetIsBothSections(View(), key, now);
      var elem: Element?;
      value, elem, scheduled := Find(key, now);
      hide Get;
      if value.Some? {
        PromoteElement(key, elem);
      }
    }

    /** Takes out the element of a key. */
    method Leave(key: string)
      requires Valid() && key in items
      modifies this
      ensures Valid() && maxBytes == old(maxBytes)
      ensures held == Without(old(held), key) && expires == old(expires) - {key} && items == old(items) - {key}
      ensures strays == old(strays)
      ensures evicted + multiset(held) == old(evicted) + multiset(old(held))
    {
      hide ByteElements.View, Without, Linked, C.Keeps;
      InList(key);
      ghost var at := Leaving(items[key]);
      RemoveElement(items[key]);
    }

    /** The first loop of `evict`, over the deadlines in any order. */
    method DropExpired(now: int)
      requires Valid()
      modifies this
      ensures Valid() && maxBytes == old(maxBytes) && strays == old(strays)
      ensures held == Sift(old(held), Late(old(expires), now))
      ensures Narrowed(old(expires), expires, items) && items.Keys <= old(items).Keys
      ensures evicted + multiset(held) == old(evicted) + multiset(old(held))
    {
      hide Linked, ByteElements.View, Without, Sift, C.Keeps;
      ghost var gone: set<string> := {};
      var left := expires.Keys;
      SiftNone(held);
      while left != {}
        invariant Valid() && maxBytes == old(maxBytes) && strays == old(strays)
        invariant left <= expires.Keys && gone <= Late(old(expires), now) <= gone + left
        invariant held == Sift(old(held), gone)
        invariant Narrowed(old(expires), expires, items) && items.Keys <= old(items).Keys
        invariant evicted + multiset(held) == old(evicted) + multiset(old(held))
      {
        var key :| key in left;
        left := left - {key};
        if now > expires[key] {
          if key in items {
            SiftMore(old(held), gone, key);
            gone := gone + {key};
            Leave(key);
          }
        }
      }
      assert gone == Late(old(expires), now);
    }

    lemma FirstGoes()
      requires Valid() && order != []
      ensures Without(held, order[0].key) == held[1..]
    {
      LinkedDistinct(order, items);
      WithoutAt(held, 0);
      assert held[..0] + held[1..] == held[1..];
    }

    /** The second loop of `evict`. */
    method Shrink()
      requires Valid()
      modifies this
      ensures Valid() && maxBytes == old(maxBytes) && strays == old(strays)
      ensures held == if maxBytes > 0 then Trim(old(held), maxBytes) else old(held)
      ensures Narrowed(old(expires), expires, items) && items.Keys <= old(items).Keys
      ensures evicted + multiset(held) == old(evicted) + multiset(old(held))
    {
      hide Linked, ByteElements.View, Trim, Size, Without, C.Keeps;
      FrontElement();
      while maxBytes > 0 && usedBytes > maxBytes && list.len > 0
        invariant Valid() && maxBytes == old(maxBytes) && strays == old(strays)
        invariant maxBytes > 0 ==> Trim(held, maxBytes) == Trim(old(held), maxBytes)
        invariant maxBytes <= 0 ==> held == old(held)
        invariant Narrowed(old(expires), expires, items) && items.Keys <= old(items).Keys
        invariant evicted + multiset(held) == old(evicted) + multiset(old(held))
        invariant list.len > 0 <==> order != []
        decreases |held|
      {
        TrimStep(held, maxBytes);
        FirstGoes();
        FrontElement();
        var elem := C.Front(list).value;
        ghost var at := Leaving(elem);
        RemoveElement(elem);
        FrontElement();
      }
      if maxBytes > 0 {
        NothingWeighsNothing();
        TrimDone(held, maxBytes);
      }
    }

    lemma FrontElement()
      requires Valid()
      ensures (list.len > 0 <==> order != []) && (order != [] ==> C.Front(list) == Some(order[0]))
    {
      C.FrontIs(list, order);
    }

    lemma NothingWeighsNothing()
      requires Valid()
      ensures order == [] ==> Size(held) == 0
    {
    }

    method EvictAll(now: int)
      requires Valid()
      modifies this
      ensures Valid() && View() == Evict(old(View()), now) && strays == old(strays)
      ensures evicted + multiset(held) == old(evicted) + multiset(old(held))
    {
      hide Linked, ByteElements.View, Trim, Size, Sift, Late, Has, C.Keeps;
      DropExpired(now);
      Shrink();
      ValidIsGood();
      assert expires == Restrict(old(expires), held);
    }

    method Update(key: string, value: string)
      requires Valid() && key in items
      modifies `list, `order, `held, `usedBytes, order
      ensures Valid() && held == Put(old(held), key, value)
    {
      ghost var i := InPlace(key, value);
      var elem := items[key];
      hide Linked, Put, Size, C.Keeps;
      usedBytes := usedBytes + (|value| - |elem.value|);
      held := held[i := Entry(key, value)];
      elem.value := value;
      assert ByteElements.View(order) == held;
      hide ByteElements.View;
      MoveToBack(key);
    }

    /** Where the element is, and what storing a value in it does. */
    lemma InPlace(key: string, value: string) returns (i: nat)
      requires Valid() && key in items
      ensures i < |order| && order[i] == items[key] && items[key].key == key
      ensures forall j :: 0 <= j < |order| && j != i ==> order[j] != items[key]
      ensures var s := held[i := Entry(key, value)];
        && Size(s) == Size(held) + |value| - |items[key].value|
        && Put(s, key, value) == Put(held, key, value)
    {
      i := IndexOf(order, items[key]);
      LinkedDistinct(order, items);
      var s := held[i := Entry(key, value)];
      WithoutAt(held, i);
      WithoutAt(s, i);
      assert s[..i] == held[..i] && s[i + 1..] == held[i + 1..];
      assert held[i].key == key && s[i].key == key;
    }

    method PushBack(key: string, value: string)
      requires C.Keeps(list, order, strays)
      requires Linked(order, items) && held == ByteElements.View(order) && usedBytes == Size(held)
      requires key !in items && forall k :: k in expires ==> k in items || k == key
      modifies `list, `order, `items, `usedBytes, `held
      ensures Valid() && held == Put(old(held), key, value)
      ensures multiset(held) == multiset(old(held)) + multiset{Entry(key, value)}
    {
      hide ByteElements.View, Put, Has, C.Keeps, Linked, Size;
      var elem := new Element(key, value);
      assert elem !in list.owned;
      Pushing(elem);
      list := C.PushBack(list, elem);
      order := order + [elem];
      items := items[key := elem];
      usedBytes := usedBytes + |key| + |value|;
      held := held + [Entry(key, value)];
    }

    /** What the list is when a new element has been pushed. */
    lemma Pushing(elem: Element)
      requires C.Keeps(list, order, strays) && elem !in list.owned && elem.key !in items
      requires Linked(order, items) && held == ByteElements.View(order) && usedBytes == Size(held)
      ensures Linked(order + [elem], items[elem.key := elem])
      ensures C.Keeps(C.PushBack(list, elem), order + [elem], strays)
      ensures var s := held + [Entry(elem.key, elem.value)];
        && ByteElements.View(order + [elem]) == s && s == Put(held, elem.key, elem.value)
        && Size(s) == Size(held) + |elem.key| + |elem.value|
    {
      hide ByteElements.View, Put, Has, C.PushBack;
      LinkedHas(order, items, elem.key);
      PutAbsent(held, elem.key, elem.value);
      assert elem !in order;
      C.KeepsPush(list, order, strays, elem);
      hide C.Keeps;
      LinkedPush(order, items, elem);
      PushedView(order, elem);
    }

    /** `now` is when the deadline is computed, `later` when `evict` reads the time. */
    method SetWithExpiration(key: string, value: Option<string>, ttl: int, now: int, later: int)
      requires Valid()
      modifies this, order
      ensures Valid() && View() == Set(old(View()), key, value, ttl, now, later) && strays == old(strays)
      ensures value == None ==> evicted + multiset(held) == old(evicted) + multiset(old(held))
      ensures value.Some? && Has(old(held), key) ==> evicted == old(evicted)
      ensures value.Some? && !Has(old(held), key) ==>
        evicted + multiset(held) == old(evicted) + multiset(old(held)) + multiset{Entry(key, value.value)}
    {
      hide ByteElements.View, Put, Has, Evict, Size, Linked, C.Keeps;
      if value == None {
        var _ := DeleteKey(key);
        return;
      }
      LinkedHas(order, items, key);
      expires := if ttl > 0 then expires[key := now + ttl] else expires - {key};
      if key in items {
        Update(key, value.value);
        return;
      }
      PushBack(key, value.value);
      EvictAll(later);
    }

    method UpdateDeadline(key: string, ttl: int, now: int) returns (ok: bool)
      requires Valid()
      modifies `expires
      ensures Valid() && View() == UpdateExpiration(old(View()), key, ttl, now)
      ensures ok <==> Has(old(held), key)
    {
      LinkedHas(order, items, key);
      hide Has, Linked;
      if key !in items {
        return false;
      }
      expires := if ttl > 0 then expires[key := now + ttl] else expires - {key};
      return true;
    }

    /** The elements that were in the list become strays. */
    method ClearAll()
      requires Valid()
      modifies this
      ensures Valid() && View() == Clear(old(View()))
      ensures strays == old(strays) + set e | e in old(order)
      ensures evicted == old(evicted) + multiset(old(held))
    {
      hide ByteElements.View, Linked, C.Keeps, C.Init, Size;
      var calls := Contents();
      evicted := evicted + calls;
      C.KeepsInit(list, order, strays);
      NothingLinked();
      strays := strays + set e | e in order;
      list, items, expires, usedBytes, order, held := C.Init(list), map[], map[], 0, [], [];
    }

    /** What `Clear` hands to the callback: every element of the map, in any order. */
    method Contents() returns (calls: multiset<Entry>)
      requires Valid()
      ensures calls == multiset(held)
    {
      hide ByteElements.View, Linked, C.Keeps, Sift;
      calls := multiset{};
      var left := items.Keys;
      ValidIsGood();
      SiftAll(held, left);
      while left != {}
        invariant left <= items.Keys && calls == multiset(Sift(held, left))
      {
        var key :| key in left;
        InList(key);
        SiftLess(held, left, key);
        left := left - {key};
        calls := calls + multiset{Entry(key, items[key].value)};
      }
      SiftNone(held);
    }

    method SetMax(max: int, now: int)
      requires Valid()
      modifies this
      ensures Valid() && View() == SetMaxBytes(old(View()), max, now) && strays == old(strays)
      ensures max > 0 ==> usedBytes <= max
      ensures evicted + multiset(held) == old(evicted) + multiset(old(held))
    {
      hide Linked, Evict, C.Keeps;
      maxBytes := max;
      if max > 0 {
        ValidIsGood();
        EvictIs(View(), now);
        EvictAll(now);
      }
    }
  }

  /** The deadlines of the keys that are still in the map. */
  ghost predicate Narrowed(before: map<string, int>, after: map<string, int>, items: map<string, Element>) {
    && (forall k :: k in after <==> k in before && k in items)
    && (forall k :: k in after ==> after[k] == before[k])
  }

  lemma {:induction false} SiftNone(s: seq<Entry>)
    ensures Sift(s, {}) == s
  {
    if s != [] {
      SiftNone(s[1..]);
      assert [s[0]] + s[1..] == s;
    }
  }

  lemma {:induction false} SiftMore(s: seq<Entry>, gone: set<string>, key: string)
    ensures Without(Sift(s, gone), key) == Sift(s, gone + {key})
  {
    if s != [] {
      SiftMore(s[1..], gone, key);
    }
  }

  lemma NothingLinked()
    ensures Linked([], map[]) && ByteElements.View([]) == [] && Size([]) == 0
  {
  }

  lemma {:induction false} SiftAll(s: seq<Entry>, gone: set<string>)
    requires forall i :: 0 <= i < |s| ==> s[i].key in gone
    ensures Sift(s, gone) == []
  {
    if s != [] {
      SiftAll(s[1..], gone);
    }
  }

  /** One key less to leave out is one entry more. */
  lemma SiftLess(s: seq<Entry>, gone: set<string>, key: string)
    requires Distinct(s) && Has(s, key) && key in gone
    ensures multiset(Sift(s, gone - {key})) == multiset(Sift(s, gone)) + multiset{Entry(key, ValueOf(s, key).value)}
  {
    var r, e := Sift(s, gone - {key}), Entry(key, ValueOf(s, key).value);
    SiftIs(s, gone - {key});
    SiftMore(s, gone - {key}, key);
    assert gone - {key} + {key} == gone;
    assert e in r;
    var i :| 0 <= i < |r| && r[i] == e;
    WithoutCounts(r, i);
  }
}
