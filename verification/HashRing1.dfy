/** The first consistent-hash ring: nodes are only ever added. */
module HashRing1 {
  import opened RingPoints

  function VirtualName(i: nat, key: string): string { Itoa(i) + key }

  /** The points of one node, in the order they are added. */
  function Points(hash: string -> nat, replicas: int, key: string): (r: seq<nat>)
    ensures |r| == if replicas < 0 then 0 else replicas
    ensures forall i :: 0 <= i < |r| ==> r[i] == hash(VirtualName(i, key))
  {
    seq<nat>(if replicas < 0 then 0 else replicas, i requires 0 <= i => hash(VirtualName(i, key)))
  }

  function AllPoints(hash: string -> nat, replicas: int, names: seq<string>): seq<nat> {
    if names == [] then []
    else AllPoints(hash, replicas, names[..|names| - 1]) + Points(hash, replicas, names[|names| - 1])
  }

  /** Later nodes take over the points they share with earlier ones. */
  function PlaceAll(owners: map<nat, string>, hash: string -> nat, replicas: int, names: seq<string>): map<nat, string> {
    if names == [] then owners
    else
      var last := names[|names| - 1];
      Place(PlaceAll(owners, hash, replicas, names[..|names| - 1]), Points(hash, replicas, last), last)
  }

  lemma {:induction false} PlaceAllOwners(owners: map<nat, string>, hash: string -> nat, replicas: int, names: seq<string>)
    ensures var after := PlaceAll(owners, hash, replicas, names);
      && owners.Keys <= after.Keys
      && (forall p :: p in after ==> after[p] in names || (p in owners && after[p] == owners[p]))
      && (forall p :: p in after <==> p in owners || p in AllPoints(hash, replicas, names))
  {
    if names != [] {
      var n := |names| - 1;
      PlaceAllOwners(owners, hash, replicas, names[..n]);
      assert names == names[..n] + [names[n]];
    }
  }

  lemma WrapsOnce(idx: nat, n: nat)
    requires idx <= n && n > 0
    ensures idx % n == if idx == n then 0 else idx
  {
  }

  lemma NobodyHome(owners: map<nat, string>, h: nat)
    requires forall p :: p !in owners
    ensures Owner(owners, h) == ""
  {
    assert owners == map[];
  }

  class Map {
    const hash: string -> nat
    const replicas: int
    var keys: seq<nat>
    var hashMap: map<nat, string>

    ghost predicate Valid()
      reads this
    {
      Ordered(keys) && Covers(keys, hashMap)
    }

    constructor (replicas: int, hash: string -> nat)
      ensures Valid() && keys == [] && hashMap == map[] && this.replicas == replicas && this.hash == hash
    {
      this.replicas, this.hash := replicas, hash;
      keys, hashMap := [], map[];
    }

    method AddKey(key: string)
      modifies this
      ensures keys == old(keys) + Points(hash, replicas, key)
      ensures hashMap == Place(old(hashMap), Points(hash, replicas, key), key)
    {
      ghost var ps := Points(hash, replicas, key);
      hide Place;
      PlaceNone(old(hashMap), key);
      var i := 0;
      while i < replicas
        invariant 0 <= i <= |ps|
        invariant keys == old(keys) + ps[..i]
        invariant hashMap == Place(old(hashMap), ps[..i], key)
      {
        var h := hash(Itoa(i) + key);
        assert ps[..i + 1] == ps[..i] + [h];
        PlaceSnoc(old(hashMap), ps[..i], h, key);
        keys := keys + [h];
        hashMap := hashMap[h := key];
        i := i + 1;
      }
      assert ps[..i] == ps;
    }

    method Add(names: seq<string>)
      requires Valid()
      modifies this
      ensures Valid()
      ensures keys == Sort(old(keys) + AllPoints(hash, replicas, names))
      ensures hashMap == PlaceAll(old(hashMap), hash, replicas, names)
    {
      hide Place, Points, Sort, Ordered;
      for k := 0 to |names|
        invariant keys == old(keys) + AllPoints(hash, replicas, names[..k])
        invariant hashMap == PlaceAll(old(hashMap), hash, replicas, names[..k])
      {
        assert names[..k + 1][..k] == names[..k];
        AddKey(names[k]);
      }
      assert names[..|names|] == names;
      ghost var unsorted := keys;
      keys := Sort(keys);
      SortIs(unsorted);
      SameElements(keys, unsorted);
      PlaceAllOwners(old(hashMap), hash, replicas, names);
    }

    /** The owner of the first point at or after the hash of the key. */
    method Get(key: string) returns (node: string)
      requires Valid()
      ensures node == Owner(hashMap, hash(key))
    {
      hide Ordered, Owner;
      if |keys| == 0 {
        NobodyHome(hashMap, hash(key));
        return "";
      }
      var h := hash(key);
      var idx := Search(keys, h);
      SearchFindsSuccessor(keys, hashMap, h, idx);
      WrapsOnce(idx, |keys|);
      return hashMap[keys[idx % |keys|]];
    }
  }

  lemma SameElements(a: seq<nat>, b: seq<nat>)
    requires multiset(a) == multiset(b)
    ensures forall p :: p in a <==> p in b
  {
    forall p ensures p in a <==> p in b {
      assert p in a <==> p in multiset(a);
    }
  }

  /** Adding nodes moves keys only to the added nodes, whatever the hash function. */
  lemma AddMovesOnlyToNew(owners: map<nat, string>, hash: string -> nat, replicas: int, names: seq<string>, h: nat)
    ensures var after := PlaceAll(owners, hash, replicas, names);
      Owner(after, h) == Owner(owners, h) || Owner(after, h) in names
  {
    PlaceAllOwners(owners, hash, replicas, names);
    var news := set n | n in names;
    OwnerAfterAdding(owners, PlaceAll(owners, hash, replicas, names), news, h);
  }

  /** Replica numbers run into names: these two nodes share a point under every hash function. */
  lemma NamesClash(key: string)
    ensures VirtualName(11, key) == VirtualName(1, "1" + key) && key != "1" + key
  {
    assert Itoa(11) == "11" && Itoa(1) == "1";
    assert "11" == "1" + "1";
    assert "1" + "1" + key == "1" + ("1" + key);
    assert |"1" + key| == |key| + 1;
  }

  /** Two virtual names are the same exactly when the shorter number begins the longer one and the
      first key continues with the rest of that number and the second key. */
  lemma NamesCollideIff(i: nat, a: string, j: nat, b: string)
    requires |Itoa(i)| <= |Itoa(j)|
    ensures VirtualName(i, a) == VirtualName(j, b) <==>
      Itoa(i) <= Itoa(j) && a == Itoa(j)[|Itoa(i)|..] + b
  {
    var x, y, n := Itoa(i), Itoa(j), |Itoa(i)|;
    if VirtualName(i, a) == VirtualName(j, b) {
      assert (x + a)[..n] == x && (y + b)[..n] == y[..n];
      assert (x + a)[n..] == a && (y + b)[n..] == y[n..] + b;
    }
    if x <= y && a == y[n..] + b {
      assert x + (y[n..] + b) == x + y[n..] + b;
      assert x + y[n..] == y;
    }
  }

  /** The nodes have a point in common. */
  predicate Shares(hash: string -> nat, replicas: int, a: string, b: string) {
    exists i, j ::
      && 0 <= i < |Points(hash, replicas, a)| && 0 <= j < |Points(hash, replicas, b)|
      && Points(hash, replicas, a)[i] == Points(hash, replicas, b)[j]
  }

  predicate Collide(replicas: int, a: string, b: string) {
    exists i, j :: 0 <= i < replicas && 0 <= j < replicas && VirtualName(i, a) == VirtualName(j, b)
  }

  /** Two nodes share a point under every hash function if and only if two of their virtual names
      are the same. */
  lemma ShareAlwaysIff(replicas: int, a: string, b: string)
    ensures (forall hash: string -> nat :: Shares(hash, replicas, a, b)) <==> Collide(replicas, a, b)
  {
    if Collide(replicas, a, b) {
      var i, j :| 0 <= i < replicas && 0 <= j < replicas && VirtualName(i, a) == VirtualName(j, b);
      forall hash: string -> nat ensures Shares(hash, replicas, a, b) {
        assert Points(hash, replicas, a)[i] == Points(hash, replicas, b)[j];
      }
    } else {
      var names := set i | 0 <= i < replicas :: VirtualName(i, a);
      var apart: string -> nat := s => if s in names then 1 else 0;
      assert !Shares(apart, replicas, a, b);
    }
  }

  /** The order in which two nodes are added makes no difference to any position if and only if they
      share no point. */
  lemma AddOrderIff(owners: map<nat, string>, hash: string -> nat, replicas: int, a: string, b: string)
    requires a != b
    ensures (forall h :: Owner(PlaceAll(owners, hash, replicas, [a, b]), h)
                         == Owner(PlaceAll(owners, hash, replicas, [b, a]), h))
      <==> !Shares(hash, replicas, a, b)
  {
    var pa, pb := Points(hash, replicas, a), Points(hash, replicas, b);
    var one, other := PlaceAll(owners, hash, replicas, [a, b]), PlaceAll(owners, hash, replicas, [b, a]);
    PlaceTwo(owners, hash, replicas, a, b);
    PlaceTwo(owners, hash, replicas, b, a);
    hide PlaceAll, Points, Owner, Place;
    if Shares(hash, replicas, a, b) {
      var i, j :| 0 <= i < |pa| && 0 <= j < |pb| && pa[i] == pb[j];
      var p := pa[i];
      PlaceLast(owners, pa, a, pb, b, p);
      PlaceLast(owners, pb, b, pa, a, p);
      OwnerAt(one, p);
      OwnerAt(other, p);
      assert Owner(one, p) != Owner(other, p);
    } else {
      PlaceSwap(owners, pa, a, pb, b);
    }
  }

  lemma PlaceTwo(owners: map<nat, string>, hash: string -> nat, replicas: int, a: string, b: string)
    ensures PlaceAll(owners, hash, replicas, [a, b])
      == Place(Place(owners, Points(hash, replicas, a), a), Points(hash, replicas, b), b)
  {
    assert [a, b][..1] == [a] && [a][..0] == [];
    assert PlaceAll(owners, hash, replicas, []) == owners;
    assert PlaceAll(owners, hash, replicas, [a]) == Place(owners, Points(hash, replicas, a), a);
  }

  lemma PlaceSwap(owners: map<nat, string>, pa: seq<nat>, a: string, pb: seq<nat>, b: string)
    requires forall p :: p in pa ==> p !in pb
    ensures Place(Place(owners, pa, a), pb, b) == Place(Place(owners, pb, b), pa, a)
  {
  }

  lemma PlaceLast(owners: map<nat, string>, pa: seq<nat>, a: string, pb: seq<nat>, b: string, p: nat)
    requires p in pb
    ensures p in Place(Place(owners, pa, a), pb, b) && Place(Place(owners, pa, a), pb, b)[p] == b
  {
  }

  /** A point serves its own position. */
  lemma OwnerAt(owners: map<nat, string>, p: nat)
    requires p in owners
    ensures Owner(owners, p) == owners[p]
  {
    SuccessorUnique(owners.Keys, p, p, Successor(owners.Keys, p));
  }

  /** So the order in which nodes are added decides who serves some keys. */
  lemma AddOrderMatters(hash: string -> nat, replicas: int, key: string) returns (p: nat)
    requires replicas >= 12
    ensures var one, other := PlaceAll(map[], hash, replicas, [key, "1" + key]),
                              PlaceAll(map[], hash, replicas, ["1" + key, key]);
      Owner(one, p) == "1" + key && Owner(other, p) == key && key != "1" + key
  {
    NamesClash(key);
    var twin := "1" + key;
    p := hash(VirtualName(11, key));
    assert Points(hash, replicas, key)[11] == p && Points(hash, replicas, twin)[1] == p;
    PlaceTwo(map[], hash, replicas, key, twin);
    PlaceTwo(map[], hash, replicas, twin, key);
    OwnerAt(PlaceAll(map[], hash, replicas, [key, twin]), p);
    OwnerAt(PlaceAll(map[], hash, replicas, [twin, key]), p);
  }
}
