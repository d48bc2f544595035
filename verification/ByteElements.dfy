/** The list of elements and the map into it that both size-bounded caches keep. */
module ByteElements {
  import opened ByteList

  /** A list element; the value is replaced in place. */
  class Element {
    const key: string
    var value: string

    constructor (key: string, value: string)
      ensures this.key == key && this.value == value
    {
      this.key, this.value := key, value;
    }
  }

  /** What the elements hold, in the same order. */
  ghost function View(ll: seq<Element>): (s: seq<Entry>)
    reads ll
    ensures |s| == |ll| && forall i :: 0 <= i < |ll| ==> s[i] == Entry(ll[i].key, ll[i].value)
  {
    seq(|ll|, i requires 0 <= i < |ll| reads ll => Entry(ll[i].key, ll[i].value))
  }

  /** The map leads from every key to its one element of the list. */
  ghost predicate Linked(ll: seq<Element>, cache: map<string, Element>) {
    && (forall i :: 0 <= i < |ll| ==> ll[i].key in cache && cache[ll[i].key] == ll[i])
    && (forall i, j :: 0 <= i < j < |ll| ==> ll[i] != ll[j])
    && (forall k :: k in cache ==> cache[k] in ll && cache[k].key == k)
  }

  /** Where an element stands in the list. */
  function IndexOf(ll: seq<Element>, e: Element): (i: nat)
    requires e in ll
    ensures i < |ll| && ll[i] == e
  {
    if ll[0] == e then 0 else 1 + IndexOf(ll[1..], e)
  }

  lemma LinkedDistinct(ll: seq<Element>, cache: map<string, Element>)
    requires Linked(ll, cache)
    ensures Distinct(View(ll))
  {
  }

  lemma LinkedHas(ll: seq<Element>, cache: map<string, Element>, key: string)
    requires Linked(ll, cache)
    ensures key in cache <==> Has(View(ll), key)
  {
    if key in cache {
      var i := IndexOf(ll, cache[key]);
      assert View(ll)[i].key == key;
    }
  }

  /** `MoveToBack` in terms of positions. */
  function Moved(ll: seq<Element>, i: nat): seq<Element>
    requires i < |ll|
  {
    ll[..i] + ll[i + 1..] + [ll[i]]
  }

  function Dropped(ll: seq<Element>, i: nat): seq<Element>
    requires i < |ll|
  {
    ll[..i] + ll[i + 1..]
  }

  lemma MovedSame(ll: seq<Element>, i: nat)
    requires i < |ll|
    ensures forall e :: e in Moved(ll, i) <==> e in ll
  {
    var r := Moved(ll, i);
    assert ll == ll[..i] + [ll[i]] + ll[i + 1..];
    forall e ensures e in r <==> e in ll {
      assert e in r <==> e in ll[..i] || e in ll[i + 1..] || e == ll[i];
    }
  }

  lemma LinkedMove(ll: seq<Element>, cache: map<string, Element>, i: nat)
    requires Linked(ll, cache) && i < |ll|
    ensures Linked(Moved(ll, i), cache)
  {
    var r := Moved(ll, i);
    assert forall j, k :: 0 <= j < k < |r| ==> r[j] != r[k];
    MovedSame(ll, i);
    hide Moved;
    forall j | 0 <= j < |r| ensures r[j].key in cache && cache[r[j].key] == r[j] {
      assert r[j] in ll;
    }
  }

  lemma LinkedDrop(ll: seq<Element>, cache: map<string, Element>, i: nat)
    requires Linked(ll, cache) && i < |ll|
    ensures Linked(Dropped(ll, i), cache - {ll[i].key})
  {
    var r := ll[..i] + ll[i + 1..];
    forall k | k in cache && k != ll[i].key ensures cache[k] in r {
      var j := IndexOf(ll, cache[k]);
      assert r[if j < i then j else j - 1] == ll[j];
    }
  }

  lemma LinkedPush(ll: seq<Element>, cache: map<string, Element>, e: Element)
    requires Linked(ll, cache) && e !in ll && e.key !in cache
    ensures Linked(ll + [e], cache[e.key := e])
  {
    var r := ll + [e];
    forall k | k in cache ensures cache[k] in r {
      var j := IndexOf(ll, cache[k]);
      assert r[j] == ll[j];
    }
    assert r[|ll|] == e;
  }

  lemma DroppedView(ll: seq<Element>, i: nat)
    requires i < |ll| && Distinct(View(ll))
    ensures View(Dropped(ll, i)) == Without(View(ll), ll[i].key)
    ensures Size(View(Dropped(ll, i))) == Size(View(ll)) - |ll[i].key| - |ll[i].value|
  {
    WithoutAt(View(ll), i);
    assert View(Dropped(ll, i)) == View(ll)[..i] + View(ll)[i + 1..];
  }

  lemma PushedView(ll: seq<Element>, e: Element)
    ensures View(ll + [e]) == View(ll) + [Entry(e.key, e.value)]
    ensures Size(View(ll + [e])) == Size(View(ll)) + |e.key| + |e.value|
  {
    assert View(ll + [e]) == View(ll) + [Entry(e.key, e.value)];
    SizeConcat(View(ll), [Entry(e.key, e.value)]);
  }

  lemma MovedView(ll: seq<Element>, i: nat)
    requires i < |ll| && Distinct(View(ll))
    ensures View(Moved(ll, i)) == Put(View(ll), ll[i].key, ll[i].value)
    ensures Size(View(Moved(ll, i))) == Size(View(ll))
  {
    DroppedView(ll, i);
    PushedView(Dropped(ll, i), ll[i]);
  }

  lemma LinkedDropFirst(ll: seq<Element>, cache: map<string, Element>)
    requires Linked(ll, cache) && ll != []
    ensures Linked(ll[1..], cache - {ll[0].key})
  {
    LinkedDrop(ll, cache, 0);
    hide Linked;
    assert Dropped(ll, 0) == ll[1..];
  }

  lemma DroppedFirst(ll: seq<Element>, cache: map<string, Element>)
    requires Linked(ll, cache) && ll != []
    ensures Linked(ll[1..], cache - {ll[0].key})
    ensures View(ll[1..]) == View(ll)[1..]
    ensures Size(View(ll)) == |ll[0].key| + |ll[0].value| + Size(View(ll)[1..])
  {
    assert View(ll)[0] == Entry(ll[0].key, ll[0].value);
    LinkedDropFirst(ll, cache);
    hide Linked;
  }

  lemma LastSize(s: seq<Entry>, e: Entry)
    requires s != []
    ensures Size(s[..|s| - 1] + [e]) == Size(s) - Cost(s[|s| - 1]) + Cost(e)
  {
    var n := |s| - 1;
    SizeConcat(s[..n], [s[n]]);
    SizeConcat(s[..n], [e]);
    assert s[..n] + [s[n]] == s;
  }
}
