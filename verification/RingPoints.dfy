/** The sorted points of a consistent-hash ring, and what "clockwise successor" means. */
module RingPoints {

  predicate Ordered(s: seq<nat>) { forall i, j :: 0 <= i < j < |s| ==> s[i] <= s[j] }

  function Insert(x: nat, s: seq<nat>): seq<nat> {
    if s == [] then [x] else if x <= s[0] then [x] + s else [s[0]] + Insert(x, s[1..])
  }

  /** `sort.Ints`. */
  function Sort(s: seq<nat>): seq<nat> { if s == [] then [] else Insert(s[0], Sort(s[1..])) }

  lemma {:induction false} InsertCounts(x: nat, s: seq<nat>)
    ensures multiset(Insert(x, s)) == multiset(s) + multiset{x}
  {
    if s != [] && x > s[0] {
      InsertCounts(x, s[1..]);
      assert s == [s[0]] + s[1..];
    }
  }

  lemma {:induction false} InsertHas(x: nat, s: seq<nat>, i: nat)
    requires i < |Insert(x, s)|
    ensures Insert(x, s)[i] == x || Insert(x, s)[i] in s
  {
    if s != [] && x > s[0] && i > 0 {
      InsertHas(x, s[1..], i - 1);
    }
  }

  lemma {:induction false} InsertOrders(x: nat, s: seq<nat>)
    requires Ordered(s)
    ensures Ordered(Insert(x, s))
  {
    if s != [] && x > s[0] {
      InsertOrders(x, s[1..]);
      forall i | 0 <= i < |Insert(x, s[1..])| ensures s[0] <= Insert(x, s[1..])[i] {
        InsertHas(x, s[1..], i);
      }
      hide Insert;
    }
  }

  /** Sorting orders the points and keeps every occurrence. */
  lemma {:induction false} SortIs(s: seq<nat>)
    ensures Ordered(Sort(s)) && multiset(Sort(s)) == multiset(s)
  {
    if s != [] {
      SortIs(s[1..]);
      InsertCounts(s[0], Sort(s[1..]));
      InsertOrders(s[0], Sort(s[1..]));
      assert s == [s[0]] + s[1..];
    }
  }

  lemma Tail(a: seq<nat>)
    requires a != []
    ensures multiset(a[1..]) == multiset(a) - multiset{a[0]}
  {
    assert a == [a[0]] + a[1..];
  }

  lemma SameFirst(a: seq<nat>, b: seq<nat>)
    requires Ordered(a) && Ordered(b) && multiset(a) == multiset(b) && a != [] && b != []
    ensures a[0] == b[0]
  {
    assert a[0] in multiset(b) && b[0] in multiset(a);
    assert a[0] in b && b[0] in a;
  }

  /** Ordered sequences with the same occurrences are the same. */
  lemma {:induction false} OrderedUnique(a: seq<nat>, b: seq<nat>)
    requires Ordered(a) && Ordered(b) && multiset(a) == multiset(b)
    ensures a == b
  {
    assert |multiset(a)| == |a| && |multiset(b)| == |b|;
    if a != [] {
      SameFirst(a, b);
      Tail(a);
      Tail(b);
      OrderedUnique(a[1..], b[1..]);
      assert a == [a[0]] + a[1..] && b == [b[0]] + b[1..];
    }
  }

  /** `p` is the first point at or after `h`, or the least one when there is none. */
  predicate IsSuccessor(ps: set<nat>, h: nat, p: nat) {
    && p in ps
    && (if p >= h then forall q :: q in ps && q >= h ==> p <= q
        else forall q :: q in ps ==> p <= q < h)
  }

  lemma SuccessorUnique(ps: set<nat>, h: nat, p: nat, q: nat)
    requires IsSuccessor(ps, h, p) && IsSuccessor(ps, h, q)
    ensures p == q
  {
  }

  lemma {:induction false} Least(ps: set<nat>) returns (p: nat)
    requires ps != {}
    ensures p in ps && forall q :: q in ps ==> p <= q
    decreases |ps|
  {
    var x :| x in ps;
    p := x;
    var rest := ps - {x};
    assert forall q :: q in ps ==> q == x || q in rest;
    if rest != {} {
      var q := Least(rest);
      if q < p {
        p := q;
      }
    }
  }

  lemma SuccessorExists(ps: set<nat>, h: nat) returns (p: nat)
    requires ps != {}
    ensures IsSuccessor(ps, h, p)
  {
    var above := set q | q in ps && q >= h;
    if above != {} {
      p := Least(above);
      assert p in above && forall q :: q in ps && q >= h ==> q in above;
    } else {
      p := Least(ps);
      assert forall q :: q in ps ==> q !in above;
    }
  }

  ghost function Successor(ps: set<nat>, h: nat): (p: nat)
    requires ps != {}
    ensures IsSuccessor(ps, h, p)
  {
    assert exists p :: IsSuccessor(ps, h, p) by {
      var p := SuccessorExists(ps, h);
    }
    var p :| IsSuccessor(ps, h, p);
    p
  }

  /** Who owns position `h`; nobody on an empty ring. */
  ghost function Owner(owners: map<nat, string>, h: nat): string {
    if owners == map[] then "" else owners[Successor(owners.Keys, h)]
  }

  /** Points that are overwritten or added all belong to the new names: nothing else moves. */
  lemma OwnerAfterAdding(before: map<nat, string>, after: map<nat, string>, names: set<string>, h: nat)
    requires before.Keys <= after.Keys
    requires forall p :: p in after ==> after[p] in names || (p in before && after[p] == before[p])
    ensures after != map[] ==> Owner(after, h) in names || (before != map[] && Owner(after, h) == Owner(before, h))
  {
    if after != map[] {
      var p := Successor(after.Keys, h);
      if after[p] !in names {
        SuccessorUnique(before.Keys, h, p, Successor(before.Keys, h));
      }
    }
  }

  /** Taking points away moves only the positions they served. */
  lemma OwnerAfterRemoving(before: map<nat, string>, after: map<nat, string>, h: nat)
    requires after.Keys <= before.Keys && forall p :: p in after ==> after[p] == before[p]
    requires before != map[] && Successor(before.Keys, h) in after
    ensures Owner(after, h) == Owner(before, h)
  {
    SuccessorUnique(after.Keys, h, Successor(before.Keys, h), Successor(after.Keys, h));
  }

  /** `sort.Search` for the first point at or after `h`. */
  method Search(keys: seq<nat>, h: nat) returns (idx: nat)
    requires Ordered(keys)
    ensures idx <= |keys|
    ensures forall k :: 0 <= k < idx ==> keys[k] < h
    ensures forall k :: idx <= k < |keys| ==> keys[k] >= h
  {
    var j := |keys|;
    idx := 0;
    while idx < j
      invariant 0 <= idx <= j <= |keys|
      invariant forall k :: 0 <= k < idx ==> keys[k] < h
      invariant forall k :: j <= k < |keys| ==> keys[k] >= h
    {
      var m := (idx + j) / 2;
      if keys[m] < h {
        idx := m + 1;
      } else {
        j := m;
      }
    }
  }

  ghost predicate Covers(keys: seq<nat>, owners: map<nat, string>) {
    forall p :: p in keys <==> p in owners
  }

  /** The point that `Search` leads to is the successor. */
  lemma SearchFindsSuccessor(keys: seq<nat>, owners: map<nat, string>, h: nat, idx: nat)
    requires Ordered(keys) && Covers(keys, owners) && idx <= |keys| && keys != []
    requires forall k :: 0 <= k < idx ==> keys[k] < h
    requires forall k :: idx <= k < |keys| ==> keys[k] >= h
    ensures var p := keys[if idx == |keys| then 0 else idx];
      p in owners && owners != map[] && Owner(owners, h) == owners[p]
  {
    var p := keys[if idx == |keys| then 0 else idx];
    assert p in owners;
    forall q | q in owners.Keys ensures q >= h ==> p <= q && p >= h ensures q < h ==> p >= h || p <= q {
      assert q in keys;
    }
    SuccessorUnique(owners.Keys, h, p, Successor(owners.Keys, h));
  }

  function Digit(n: nat): char { "0123456789"[n % 10] }

  /** `strconv.Itoa` of a replica number. */
  function Itoa(n: nat): (s: string)
    ensures s != []
  {
    if n < 10 then [Digit(n)] else Itoa(n / 10) + [Digit(n)]
  }

  /** What a string of digits says in decimal. */
  function Decimal(s: string): int {
    if s == [] then 0 else 10 * Decimal(s[..|s| - 1]) + (s[|s| - 1] as int - '0' as int)
  }

  /** Read as a decimal, the number written is the number, and it has no leading zero. */
  lemma {:induction false} ItoaReads(n: nat)
    ensures Decimal(Itoa(n)) == n && (n > 0 ==> Itoa(n)[0] != '0')
  {
    var s := Itoa(n);
    if n >= 10 {
      ItoaReads(n / 10);
      assert s[..|s| - 1] == Itoa(n / 10);
    } else {
      assert s[..0] == [];
    }
  }

  lemma DigitInjective(m: nat, n: nat)
    requires Digit(m) == Digit(n)
    ensures m % 10 == n % 10
  {
  }

  lemma {:induction false} ItoaInjective(m: nat, n: nat)
    requires Itoa(m) == Itoa(n)
    ensures m == n
  {
    var a, b := Itoa(m), Itoa(n);
    assert a[|a| - 1] == Digit(m) && b[|b| - 1] == Digit(n);
    DigitInjective(m, n);
    if m >= 10 && n >= 10 {
      assert a[..|a| - 1] == Itoa(m / 10) && b[..|b| - 1] == Itoa(n / 10);
      ItoaInjective(m / 10, n / 10);
    }
  }

  lemma {:induction false} ItoaDigits(n: nat, c: char)
    requires c in Itoa(n)
    ensures '0' <= c <= '9'
  {
    if n >= 10 && c != Digit(n) {
      ItoaDigits(n / 10, c);
    }
  }

  /** Writing a node's points over the map. */
  function Place(owners: map<nat, string>, ps: seq<nat>, node: string): map<nat, string> {
    owners + map p | p in ps :: node
  }

  lemma PlaceNone(owners: map<nat, string>, node: string)
    ensures Place(owners, [], node) == owners
  {
  }

  lemma PlaceSnoc(owners: map<nat, string>, ps: seq<nat>, p: nat, node: string)
    ensures Place(owners, ps + [p], node) == Place(owners, ps, node)[p := node]
  {
  }
}
