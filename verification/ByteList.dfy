/** Entries with a size, oldest first, and what eviction by size does to them. */
module ByteList {

  datatype Entry = Entry(key: string, value: string)

  function Cost(e: Entry): nat { |e.key| + |e.value| }

  function Size(s: seq<Entry>): nat { if s == [] then 0 else Cost(s[0]) + Size(s[1..]) }

  lemma {:induction false} SizeConcat(a: seq<Entry>, b: seq<Entry>)
    ensures Size(a + b) == Size(a) + Size(b)
  {
    if a == [] {
      assert a + b == b;
    } else {
      assert (a + b)[1..] == a[1..] + b;
      SizeConcat(a[1..], b);
    }
  }

  ghost predicate Distinct(s: seq<Entry>) { forall i, j :: 0 <= i < j < |s| ==> s[i].key != s[j].key }

  predicate Has(s: seq<Entry>, key: string) { exists i :: 0 <= i < |s| && s[i].key == key }

  function Without(s: seq<Entry>, key: string): seq<Entry> {
    if s == [] then []
    else if s[0].key == key then Without(s[1..], key)
    else [s[0]] + Without(s[1..], key)
  }

  /** The value most recently stored for the key. */
  function Put(s: seq<Entry>, key: string, value: string): seq<Entry> { Without(s, key) + [Entry(key, value)] }

  lemma {:induction false} WithoutAbsent(s: seq<Entry>, key: string)
    requires !Has(s, key)
    ensures Without(s, key) == s
  {
    if s != [] {
      assert s[0].key != key;
      assert !Has(s[1..], key) by {
        assert forall i :: 0 <= i < |s| - 1 ==> s[1..][i] == s[i + 1];
      }
      WithoutAbsent(s[1..], key);
      assert [s[0]] + s[1..] == s;
    }
  }

  /** Entry `i` is the only one that goes. */
  lemma {:induction false} WithoutAt(s: seq<Entry>, i: nat)
    requires Distinct(s) && i < |s|
    ensures Without(s, s[i].key) == s[..i] + s[i + 1..]
    ensures Size(Without(s, s[i].key)) == Size(s) - Cost(s[i])
  {
    if i == 0 {
      WithoutAbsent(s[1..], s[0].key);
      assert s[..0] + s[1..] == s[1..];
    } else {
      assert Distinct(s[1..]);
      WithoutAt(s[1..], i - 1);
      assert [s[0]] + (s[1..][..i - 1] + s[1..][i..]) == s[..i] + s[i + 1..];
    }
  }

  lemma {:induction false} WithoutHas(s: seq<Entry>, key: string, k: string)
    ensures Has(Without(s, key), k) <==> Has(s, k) && k != key
  {
    if s != [] {
      WithoutHas(s[1..], key, k);
      HasCons(s[0], s[1..], k);
      HasCons(s[0], Without(s[1..], key), k);
      assert [s[0]] + s[1..] == s;
    }
  }

  lemma HasCons(e: Entry, s: seq<Entry>, k: string)
    ensures Has([e] + s, k) <==> e.key == k || Has(s, k)
  {
    var t := [e] + s;
    assert t[0] == e;
    forall i | 0 <= i < |s| ensures t[i + 1] == s[i] {
    }
    if Has(s, k) {
      var i :| 0 <= i < |s| && s[i].key == k;
      assert t[i + 1].key == k;
    }
    if Has(t, k) && e.key != k {
      var i :| 0 <= i < |t| && t[i].key == k;
      assert s[i - 1].key == k;
    }
  }

  /** Drops the oldest entries until the rest fits. */
  function Trim(s: seq<Entry>, max: nat): seq<Entry> {
    if Size(s) <= max then s else Trim(s[1..], max)
  }

  /** What is left is the longest most recent run that fits. */
  lemma {:induction false} TrimIs(s: seq<Entry>, max: nat) returns (k: nat)
    ensures k <= |s| && Trim(s, max) == s[k..] && Size(s[k..]) <= max
    ensures forall j :: 0 <= j < k ==> Size(s[j..]) > max
  {
    if Size(s) <= max {
      k := 0;
      assert s[0..] == s;
    } else {
      k := TrimIs(s[1..], max);
      k := k + 1;
      assert s[1..][k - 1..] == s[k..];
      forall j | 0 <= j < k ensures Size(s[j..]) > max {
        if j > 0 {
          assert s[1..][j - 1..] == s[j..];
        } else {
          assert s[0..] == s;
        }
      }
    }
  }

  /** Any most recent run that fits is part of what is left. */
  lemma TrimLongest(s: seq<Entry>, max: nat, j: nat)
    requires j <= |s| && Size(s[j..]) <= max
    ensures |s[j..]| <= |Trim(s, max)|
  {
    var k := TrimIs(s, max);
  }

  lemma PutAbsent(s: seq<Entry>, key: string, value: string)
    requires !Has(s, key)
    ensures Put(s, key, value) == s + [Entry(key, value)]
  {
    WithoutAbsent(s, key);
  }

  lemma TrimStep(s: seq<Entry>, max: nat)
    requires Size(s) > max
    ensures s != [] && Trim(s, max) == Trim(s[1..], max) && [s[0]] + s[1..] == s
  {
  }

  lemma TrimDone(s: seq<Entry>, max: nat)
    requires Size(s) <= max
    ensures Trim(s, max) == s
  {
  }

  lemma WithoutCounts(s: seq<Entry>, i: nat)
    requires Distinct(s) && i < |s|
    ensures multiset(Without(s, s[i].key)) + multiset{s[i]} == multiset(s)
  {
    WithoutAt(s, i);
    assert s == s[..i] + [s[i]] + s[i + 1..];
  }
}
