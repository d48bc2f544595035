/** The first size-bounded LRU cache. */
module ByteLru1 {
  import opened Options
  import opened ByteList
  import opened ByteElements

  /** What `Add` leaves: the stored entry as the newest, and the oldest ones dropped as far as needed. */
  function Kept(s: seq<Entry>, key: string, value: string, maxBytes: int): seq<Entry> {
    var all := Put(s, key, value);
    if maxBytes > 0 then Trim(all, maxBytes) else all
  }

  class Cache {
    const maxBytes: int
    var nBytes: int
    /** Oldest first: `Back()` is element 0, `PushFront` appends. */
    var ll: seq<Element>
    var cache: map<string, Element>
    /** The calls of `OnEvicted`, in order. */
    var evicted: seq<Entry>
    /** What the elements of `ll` hold. */
    ghost var items: seq<Entry>

    ghost predicate Valid()
      reads this, ll
    {
      Linked(ll, cache) && items == View(ll) && nBytes == Size(items)
    }

    constructor (maxBytes: int)
      ensures Valid() && items == [] && evicted == [] && this.maxBytes == maxBytes
    {
      this.maxBytes := maxBytes;
      nBytes, ll, cache, evicted, items := 0, [], map[], [], [];
    }

    /** The list and the map hold the same keys. */
    lemma MapAndList(key: string)
      requires Valid()
      ensures Distinct(items) && (key in cache <==> Has(items, key))
      ensures key in cache ==> Entry(key, cache[key].value) in items
    {
      LinkedDistinct(ll, cache);
      LinkedHas(ll, cache, key);
      if key in cache {
        var i := IndexOf(ll, cache[key]);
        assert items[i] == Entry(key, cache[key].value);
      }
    }

    method Get(key: string) returns (value: Option<string>)
      requires Valid()
      modifies `ll, `items
      ensures Valid()
      ensures value == if key in cache then Some(cache[key].value) else None
      ensures items == if value.Some? then Put(old(items), key, value.value) else old(items)
    {
      if key in cache {
        MoveToFront(key);
        return Some(cache[key].value);
      }
      return None;
    }

    method MoveToFront(key: string)
      requires Valid() && key in cache
      modifies `ll, `items
      ensures Valid() && ll != [] && ll[|ll| - 1] == cache[key] && cache[key].key == key
      ensures items == Put(old(items), key, cache[key].value)
    {
      hide View, Put;
      var i := IndexOf(ll, cache[key]);
      LinkedDistinct(ll, cache);
      LinkedMove(ll, cache, i);
      MovedView(ll, i);
      assert ll[i].key == key;
      hide Linked;
      ll := Moved(ll, i);
      items := View(ll);
    }

    /** The element in front takes the new value. */
    method Replace(key: string, value: string)
      requires Valid() && key in cache
      modifies this, ll
      ensures Valid() && evicted == old(evicted)
      ensures items == Put(old(items), key, value)
    {
      MoveToFront(key);
      SetLast(value);
    }

    method SetLast(value: string)
      requires Valid() && ll != []
      modifies `nBytes, `items, ll
      ensures Valid()
      ensures var n := |old(items)| - 1;
        items == old(items)[..n] + [Entry(old(items)[n].key, value)]
    {
      var kv := ll[|ll| - 1];
      assert forall i :: 0 <= i < |ll| - 1 ==> ll[i] != kv;
      hide Linked;
      LastSize(items, Entry(kv.key, value));
      nBytes := nBytes + |value| - |kv.value|;
      items := items[..|items| - 1] + [Entry(kv.key, value)];
      kv.value := value;
      assert View(ll) == items;
    }

    method PushFront(key: string, value: string)
      requires Valid() && key !in cache
      modifies this
      ensures Valid() && evicted == old(evicted)
      ensures items == Put(old(items), key, value)
    {
      hide Linked, View, Put, Has;
      LinkedHas(ll, cache, key);
      PutAbsent(items, key, value);
      var ele := new Element(key, value);
      LinkedPush(ll, cache, ele);
      PushedView(ll, ele);
      ll := ll + [ele];
      cache := cache[key := ele];
      nBytes := nBytes + |key| + |value|;
      items := items + [Entry(key, value)];
    }

    /** Drops the oldest entry, if there is one. */
    method RemoveOldest()
      requires Valid()
      modifies this
      ensures Valid()
      ensures if old(items) == [] then items == [] && evicted == old(evicted)
        else items == old(items)[1..] && evicted == old(evicted) + [old(items)[0]]
    {
      hide Linked;
      if |ll| != 0 {
        var ele := ll[0];
        assert items[0] == Entry(ele.key, ele.value);
        DroppedFirst(ll, cache);
        hide View;
        ll := ll[1..];
        cache := cache - {ele.key};
        nBytes := nBytes - (|ele.key| + |ele.value|);
        evicted := evicted + [Entry(ele.key, ele.value)];
        items := items[1..];
      }
    }

    /** Terminates, and restores the bound, because the accounting is exact. */
    method Add(key: string, value: string)
      requires Valid() && maxBytes >= 0
      modifies this, ll
      ensures Valid() && (maxBytes > 0 ==> nBytes <= maxBytes)
      ensures items == Kept(old(items), key, value, maxBytes)
      ensures evicted + items == old(evicted) + Put(old(items), key, value)
    {
      hide Put;
      if key in cache {
        Replace(key, value);
      } else {
        PushFront(key, value);
      }
      Shrink();
    }

    /** The loop of `Add`. */
    method Shrink()
      requires Valid() && maxBytes >= 0
      modifies this
      ensures Valid() && (maxBytes > 0 ==> nBytes <= maxBytes)
      ensures items == if maxBytes > 0 then Trim(old(items), maxBytes) else old(items)
      ensures evicted + items == old(evicted) + old(items)
    {
      hide Linked, View, Trim, Size;
      while maxBytes != 0 && maxBytes < nBytes
        invariant Valid()
        invariant maxBytes > 0 ==> Trim(items, maxBytes) == Trim(old(items), maxBytes)
        invariant maxBytes == 0 ==> items == old(items)
        invariant evicted + items == old(evicted) + old(items)
        decreases |items|
      {
        TrimStep(items, maxBytes);
        RemoveOldest();
      }
      if maxBytes > 0 {
        TrimDone(items, maxBytes);
      }
    }
  }
}
