/** The link table of a cache: a circular doubly linked list of slots through the sentinel slot 0.

    The source keeps an array of link pairs; here each direction is an array of its own, and a
    direction is named by its array. */
module Ring {
  type uint16 = x: int | 0 <= x < 0x1_0000

  ghost predicate Slots(s: seq<uint16>, last: int) {
    && |s| == last
    && (forall i :: 0 <= i < |s| ==> 1 <= s[i] <= last)
    && Once(s)
    && (forall x: uint16 :: 1 <= x <= last ==> x in s)
  }

  /** The neighbours of the slot at place `i`; the sentinel 0 is beyond both ends. */
  ghost function After(s: seq<uint16>, i: nat): uint16
    requires i < |s|
  {
    if i == |s| - 1 then 0 else s[i + 1]
  }

  ghost function Before(s: seq<uint16>, i: nat): uint16
    requires i < |s|
  {
    if i == 0 then 0 else s[i - 1]
  }

  ghost function Position<T>(s: seq<T>, x: T): (i: nat)
    requires x in s
    ensures i < |s| && s[i] == x
  {
    var i :| 0 <= i < |s| && s[i] == x;
    i
  }

  /** Every slot occurs once. */
  ghost predicate Once<T>(s: seq<T>) {
    forall i {:trigger Position(s, s[i])} :: 0 <= i < |s| ==> Position(s, s[i]) == i
  }

  lemma Same<T>(s: seq<T>, i: nat, j: nat)
    requires Once(s) && i < |s| && j < |s| && s[i] == s[j]
    ensures i == j
  {
    assert Position(s, s[i]) == i && Position(s, s[j]) == j;
  }

  /** Move-to-front: the slots before `x` shift back by one place. */
  ghost function ToFront(s: seq<uint16>, x: uint16): (r: seq<uint16>)
    requires x in s
    ensures |r| == |s| && r[0] == x
    ensures forall i {:trigger r[i]} :: 0 < i <= Position(s, x) ==> r[i] == s[i - 1]
    ensures forall i {:trigger r[i]} :: Position(s, x) < i < |s| ==> r[i] == s[i]
  {
    var j := Position(s, x);
    seq(|s|, i requires 0 <= i < |s| => if i == 0 then x else if i <= j then s[i - 1] else s[i])
  }

  /** Move-to-back: the slots behind `x` shift up by one place. */
  ghost function ToBack(s: seq<uint16>, x: uint16): (r: seq<uint16>)
    requires x in s
    ensures |r| == |s| && r[|s| - 1] == x
    ensures forall i {:trigger r[i]} :: 0 <= i < Position(s, x) ==> r[i] == s[i]
    ensures forall i {:trigger r[i]} :: Position(s, x) <= i < |s| - 1 ==> r[i] == s[i + 1]
  {
    var j := Position(s, x);
    seq(|s|, i requires 0 <= i < |s| => if i < j then s[i] else if i < |s| - 1 then s[i + 1] else x)
  }

  ghost function Reverse(s: seq<uint16>): (r: seq<uint16>)
    ensures |r| == |s|
    ensures forall i :: 0 <= i < |s| ==> r[i] == s[|s| - 1 - i]
  {
    seq(|s|, i requires 0 <= i < |s| => s[|s| - 1 - i])
  }

  lemma ReverseHas(s: seq<uint16>, x: uint16)
    requires x in s
    ensures x in Reverse(s)
  {
    assert Reverse(s)[|s| - 1 - Position(s, x)] == x;
  }

  /** A sequence that picks the places of `s`, each at most once, repeats nothing. */
  lemma OncePicked<T>(s: seq<T>, r: seq<T>, at: seq<nat>)
    requires Once(s) && |at| == |r|
    requires forall i :: 0 <= i < |r| ==> at[i] < |s| && r[i] == s[at[i]]
    requires forall i, j :: 0 <= i < |r| && 0 <= j < |r| && at[i] == at[j] ==> i == j
    ensures Once(r)
  {
    forall i | 0 <= i < |r|
      ensures Position(r, r[i]) == i
    {
      var k := Position(r, r[i]);
      Same(s, at[k], at[i]);
    }
  }

  lemma SlotsReverse(s: seq<uint16>, last: int)
    requires Slots(s, last)
    ensures Slots(Reverse(s), last)
  {
    OncePicked(s, Reverse(s), seq(|s|, i requires 0 <= i < |s| => |s| - 1 - i));
    forall x: uint16 | 1 <= x <= last
      ensures x in Reverse(s)
    {
      ReverseHas(s, x);
    }
  }

  lemma SlotsMoved(s: seq<uint16>, last: int, x: uint16)
    requires Slots(s, last) && x in s
    ensures Slots(ToFront(s, x), last)
  {
    var j, r := Position(s, x), ToFront(s, x);
    var at: seq<nat> := seq(|s|, i requires 0 <= i < |s| => if i == 0 then j else if i <= j then i - 1 else i);
    OncePicked(s, r, at);
    forall y: uint16 | 1 <= y <= last
      ensures y in r
    {
      var i := Position(s, y);
      assert r[if i == j then 0 else if i < j then i + 1 else i] == y;
    }
  }

  lemma ToBackReverse(s: seq<uint16>, x: uint16)
    requires Once(Reverse(s)) && x in s && x in Reverse(s)
    ensures ToBack(s, x) == Reverse(ToFront(Reverse(s), x))
  {
    var n, j, r := |s|, Position(s, x), Reverse(s);
    assert r[n - 1 - j] == x;
    assert Position(r, r[n - 1 - j]) == n - 1 - j;
    var b, f := ToBack(s, x), ToFront(r, x);
    forall i | 0 <= i < n
      ensures b[i] == f[n - 1 - i]
    {
      if i < j {
        assert f[n - 1 - i] == r[n - 1 - i];
      } else if i < n - 1 {
        assert f[n - 1 - i] == r[n - 2 - i];
      }
    }
  }

  /** The list as a walk in one direction meets it: forwards, or from the tail. */
  ghost function Seen(s: seq<uint16>, forwards: bool): seq<uint16> {
    if forwards then s else Reverse(s)
  }

  ghost function MovedTo(s: seq<uint16>, x: uint16, front: bool): seq<uint16>
    requires x in s
  {
    if front then ToFront(s, x) else ToBack(s, x)
  }

  lemma SeenLinked(s: seq<uint16>, last: int, x: uint16, forwards: bool)
    requires Slots(s, last) && x in s
    ensures var r := Seen(s, forwards);
      && x in r && Once(r) && Moved(r, Position(r, x), ToFront(r, x))
      && Slots(MovedTo(s, x, forwards), last)
      && MovedTo(s, x, forwards) == Seen(ToFront(r, x), forwards)
  {
    ReverseHas(s, x);
    SlotsReverse(s, last);
    SlotsMoved(Seen(s, forwards), last, x);
    if !forwards {
      ToBackReverse(s, x);
      SlotsReverse(ToFront(Reverse(s), x), last);
    }
  }

  /** `s` is what a walk along the links `fwd` from the sentinel meets before it is back at the
      sentinel, and the links `bwd` lead the same way back. */
  ghost predicate Linked(s: seq<uint16>, fwd: seq<uint16>, bwd: seq<uint16>) {
    && |fwd| == |bwd| > 0
    && (forall i :: 0 <= i < |s| ==> 0 < s[i] < |fwd|)
    && fwd[0] == (if s == [] then 0 else s[0])
    && bwd[0] == (if s == [] then 0 else s[|s| - 1])
    && (forall i {:trigger After(s, i)} :: 0 <= i < |s| ==> fwd[s[i]] == After(s, i))
    && (forall i {:trigger Before(s, i)} :: 0 <= i < |s| ==> bwd[s[i]] == Before(s, i))
  }

  lemma LinkedReverse(s: seq<uint16>, fwd: seq<uint16>, bwd: seq<uint16>)
    requires Linked(s, fwd, bwd)
    ensures Linked(Reverse(s), bwd, fwd)
  {
    var r := Reverse(s);
    forall i | 0 <= i < |r|
      ensures bwd[r[i]] == After(r, i) && fwd[r[i]] == Before(r, i)
    {
      var k := |s| - 1 - i;
      assert r[i] == s[k];
      assert Before(r, i) == After(s, k) && After(r, i) == Before(s, k);
    }
  }

  /** The links after cutting out slot `idx` and splicing it in behind the sentinel. */
  ghost predicate SplicedFwd(fwd: seq<uint16>, idx: uint16, prev: uint16, r: seq<uint16>)
    requires idx < |fwd|
  {
    && |r| == |fwd|
    && forall x :: 0 <= x < |fwd| ==>
         r[x] == (if x == 0 then idx else if x == idx then fwd[0] else if x == prev then fwd[idx] else fwd[x])
  }

  ghost predicate SplicedBwd(bwd: seq<uint16>, idx: uint16, next: uint16, head: uint16, r: seq<uint16>)
    requires idx < |bwd|
  {
    && |r| == |bwd|
    && forall x :: 0 <= x < |bwd| ==>
         r[x] == (if x == head then idx else if x == idx then 0 else if x == next then bwd[idx] else bwd[x])
  }

  ghost predicate Adjusted(x: uint16, fwd: seq<uint16>, bwd: seq<uint16>, fwd': seq<uint16>, bwd': seq<uint16>)
    requires x < |fwd| == |bwd|
  {
    if bwd[x] == 0 then fwd' == fwd && bwd' == bwd
    else SplicedFwd(fwd, x, bwd[x], fwd') && SplicedBwd(bwd, x, fwd[x], fwd[0], bwd')
  }

  /** `r` is `s` with `s[j]` moved to the front. */
  ghost predicate Moved(s: seq<uint16>, j: nat, r: seq<uint16>)
    requires j < |s|
  {
    && |r| == |s| && r[0] == s[j]
    && (forall i :: 0 < i <= j ==> r[i] == s[i - 1])
    && (forall i :: j < i < |s| ==> r[i] == s[i])
  }

  lemma MovedFwd(s: seq<uint16>, j: nat, fwd: seq<uint16>, bwd: seq<uint16>, fwd': seq<uint16>, r: seq<uint16>, i: nat)
    requires Linked(s, fwd, bwd) && 0 < j < |s| && Once(s) && Moved(s, j, r)
    requires SplicedFwd(fwd, s[j], s[j - 1], fwd')
    requires i < |s|
    ensures 0 < r[i] < |fwd| && fwd'[r[i]] == After(r, i)
  {
    assert Position(s, s[i]) == i && Position(s, s[j]) == j && Position(s, s[j - 1]) == j - 1;
    if i == 0 {
      assert r[1] == s[0];
    } else if i < j {
      assert Position(s, s[i - 1]) == i - 1;
      assert r[i] == s[i - 1] && r[i + 1] == s[i];
      assert fwd[s[i - 1]] == After(s, i - 1);
    } else if i == j {
      assert r[i] == s[i - 1];
      assert fwd[s[j]] == After(s, j) && After(r, j) == After(s, j);
    } else {
      assert r[i] == s[i];
      assert fwd[s[i]] == After(s, i) && After(r, i) == After(s, i);
    }
  }

  lemma MovedBwd(s: seq<uint16>, j: nat, fwd: seq<uint16>, bwd: seq<uint16>, bwd': seq<uint16>, r: seq<uint16>, i: nat)
    requires Linked(s, fwd, bwd) && 0 < j < |s| && Once(s) && Moved(s, j, r)
    requires SplicedBwd(bwd, s[j], After(s, j), s[0], bwd')
    requires i < |s|
    ensures 0 < r[i] < |bwd| && bwd'[r[i]] == Before(r, i)
  {
    assert bwd[s[j]] == Before(s, j);
    assert Position(s, s[i]) == i && Position(s, s[j]) == j && Position(s, s[0]) == 0;
    if j < |s| - 1 { assert Position(s, s[j + 1]) == j + 1; }
    if i == 0 {
    } else if i <= j {
      assert Position(s, s[i - 1]) == i - 1;
      assert r[i] == s[i - 1] && bwd[s[i - 1]] == Before(s, i - 1);
      assert Before(r, i) == if i == 1 then s[j] else s[i - 2];
    } else {
      assert r[i] == s[i] && bwd[s[i]] == Before(s, i);
      assert Before(r, i) == if i == j + 1 then s[j - 1] else s[i - 1];
    }
  }

  lemma MovedEnds(s: seq<uint16>, j: nat, fwd: seq<uint16>, bwd: seq<uint16>,
                  fwd': seq<uint16>, bwd': seq<uint16>, r: seq<uint16>)
    requires Linked(s, fwd, bwd) && 0 < j < |s| && Moved(s, j, r)
    requires SplicedFwd(fwd, s[j], s[j - 1], fwd')
    requires SplicedBwd(bwd, s[j], After(s, j), s[0], bwd')
    ensures fwd'[0] == r[0] && bwd'[0] == r[|r| - 1]
  {
    assert 0 < s[0] && 0 < s[j];
    assert bwd[s[j]] == Before(s, j);
    if j == |s| - 1 {
      assert r[j] == s[j - 1];
    } else {
      assert 0 < s[j + 1];
    }
  }

  /** Splicing slot `s[j]` in behind the sentinel moves it to the front of the sequence. */
  lemma LinkedMoved(s: seq<uint16>, j: nat, fwd: seq<uint16>, bwd: seq<uint16>,
                    fwd': seq<uint16>, bwd': seq<uint16>, r: seq<uint16>)
    requires Linked(s, fwd, bwd) && 0 < j < |s| && Once(s) && Moved(s, j, r)
    requires SplicedFwd(fwd, s[j], s[j - 1], fwd')
    requires SplicedBwd(bwd, s[j], After(s, j), s[0], bwd')
    ensures Linked(r, fwd', bwd')
  {
    forall i | 0 <= i < |r|
      ensures 0 < r[i] < |fwd|
      ensures fwd'[r[i]] == After(r, i) && bwd'[r[i]] == Before(r, i)
    {
      MovedFwd(s, j, fwd, bwd, fwd', r, i);
      MovedBwd(s, j, fwd, bwd, bwd', r, i);
    }
    MovedEnds(s, j, fwd, bwd, fwd', bwd', r);
  }

  ghost predicate LinkedEither(s: seq<uint16>, front: bool, fwd: seq<uint16>, bwd: seq<uint16>) {
    if front then Linked(s, fwd, bwd) else Linked(s, bwd, fwd)
  }

  lemma SeenEither(s: seq<uint16>, front: bool, fwd: seq<uint16>, bwd: seq<uint16>)
    requires LinkedEither(s, front, fwd, bwd)
    ensures Linked(Seen(s, front), fwd, bwd)
  {
    if !front { LinkedReverse(s, bwd, fwd); }
  }

  /** The slot to move, its neighbours and the first slot are pairwise distinct where it matters. */
  lemma SpliceSafe(s: seq<uint16>, x: uint16, fwd: seq<uint16>, bwd: seq<uint16>)
    requires Linked(s, fwd, bwd) && Once(s) && x in s && bwd[x] != 0
    ensures var j := Position(s, x); 0 < j && bwd[x] == s[j - 1] && fwd[x] == After(s, j) && fwd[0] == s[0]
    ensures bwd[x] != x && fwd[x] != x && fwd[0] != x && fwd[0] != 0 && fwd[x] != fwd[0]
    ensures 0 < x < |fwd| && bwd[x] < |fwd| && fwd[x] < |fwd| && fwd[0] < |fwd|
  {
    var j := Position(s, x);
    assert fwd[s[j]] == After(s, j) && bwd[s[j]] == Before(s, j);
    assert Position(s, s[0]) == 0 && Position(s, s[j - 1]) == j - 1;
    if j < |s| - 1 { assert Position(s, s[j + 1]) == j + 1; }
  }

  lemma HeadStays(s: seq<uint16>, x: uint16, fwd: seq<uint16>, bwd: seq<uint16>)
    requires Linked(s, fwd, bwd) && x in s && bwd[x] == 0
    ensures ToFront(s, x) == s
  {
    var j := Position(s, x);
    assert bwd[s[j]] == Before(s, j);
    assert j == 0;
  }

  lemma BeforeAdjust(s: seq<uint16>, last: int, x: uint16, front: bool, fwd: seq<uint16>, bwd: seq<uint16>)
    requires Slots(s, last) && x in s && LinkedEither(s, front, fwd, bwd)
    ensures x < |fwd| && bwd[x] < |fwd| && fwd[x] < |fwd| && fwd[0] < |fwd|
    ensures bwd[x] != 0 ==>
      bwd[x] != x && fwd[x] != x && fwd[0] != x && fwd[0] != 0 && fwd[x] != fwd[0]
  {
    SeenEither(s, front, fwd, bwd);
    SeenLinked(s, last, x, front);
    var r := Seen(s, front);
    assert fwd[r[Position(r, x)]] == After(r, Position(r, x));
    if bwd[x] != 0 {
      SpliceSafe(r, x, fwd, bwd);
    }
  }

  lemma AdjustSeen(r: seq<uint16>, x: uint16, fwd: seq<uint16>, bwd: seq<uint16>,
                   fwd': seq<uint16>, bwd': seq<uint16>)
    requires Linked(r, fwd, bwd) && Once(r) && x in r && x < |fwd|
    requires Moved(r, Position(r, x), ToFront(r, x)) && Adjusted(x, fwd, bwd, fwd', bwd')
    ensures Linked(ToFront(r, x), fwd', bwd')
  {
    if bwd[x] != 0 {
      SpliceSafe(r, x, fwd, bwd);
      LinkedMoved(r, Position(r, x), fwd, bwd, fwd', bwd', ToFront(r, x));
    } else {
      HeadStays(r, x, fwd, bwd);
    }
  }

  /** What `adjust` does to the links is what moving the slot does to the sequence. */
  lemma AfterAdjust(s: seq<uint16>, last: int, x: uint16, front: bool, fwd: seq<uint16>, bwd: seq<uint16>,
                    fwd': seq<uint16>, bwd': seq<uint16>)
    requires Slots(s, last) && x in s && LinkedEither(s, front, fwd, bwd) && x < |fwd| == |bwd|
    requires Adjusted(x, fwd, bwd, fwd', bwd')
    ensures Slots(MovedTo(s, x, front), last) && LinkedEither(MovedTo(s, x, front), front, fwd', bwd')
  {
    SeenEither(s, front, fwd, bwd);
    SeenLinked(s, last, x, front);
    var r := Seen(s, front);
    AdjustSeen(r, x, fwd, bwd, fwd', bwd');
    if !front { LinkedReverse(ToFront(r, x), fwd', bwd'); }
  }

  /** The links after threading in the fresh slot `x` behind the sentinel. */
  ghost predicate Pushed(x: uint16, fwd: seq<uint16>, bwd: seq<uint16>, fwd': seq<uint16>, bwd': seq<uint16>) {
    && |fwd| == |bwd| == |fwd'| == |bwd'| > 0
    && (forall y :: 0 <= y < |fwd| ==> fwd'[y] == (if y == 0 then x else if y == x then fwd[0] else fwd[y]))
    && (forall y :: 0 <= y < |bwd| ==> bwd'[y] == (if y == fwd[0] then x else if y == x then 0 else bwd[y]))
  }

  lemma SlotsPush(s: seq<uint16>, x: uint16)
    requires Slots(s, |s|) && x == |s| + 1
    ensures Slots([x] + s, x)
  {
    var r := [x] + s;
    assert forall i :: 0 < i < |r| ==> r[i] == s[i - 1];
    forall i | 0 <= i < |r|
      ensures Position(r, r[i]) == i
    {
      var k := Position(r, r[i]);
      if 0 < i && 0 < k { Same(s, k - 1, i - 1); }
    }
    forall y: uint16 | 1 <= y <= x
      ensures y in r
    {
      assert y < x ==> r[Position(s, y) + 1] == y;
    }
  }

  lemma PushedAt(s: seq<uint16>, x: uint16, fwd: seq<uint16>, bwd: seq<uint16>,
                 fwd': seq<uint16>, bwd': seq<uint16>, k: nat)
    requires Linked(s, fwd, bwd) && Once(s) && Pushed(x, fwd, bwd, fwd', bwd')
    requires k < |s| && s[k] < x
    ensures fwd'[s[k]] == After(s, k) && bwd'[s[k]] == (if k == 0 then x else s[k - 1])
  {
    assert Position(s, s[k]) == k && Position(s, s[0]) == 0;
    assert fwd[s[k]] == After(s, k) && bwd[s[k]] == Before(s, k);
  }

  lemma LinkedPush(s: seq<uint16>, x: uint16, fwd: seq<uint16>, bwd: seq<uint16>,
                   fwd': seq<uint16>, bwd': seq<uint16>)
    requires Linked(s, fwd, bwd) && Once(s) && Pushed(x, fwd, bwd, fwd', bwd')
    requires 0 < x < |fwd| && forall i :: 0 <= i < |s| ==> s[i] < x
    ensures Linked([x] + s, fwd', bwd')
  {
    var r := [x] + s;
    forall i | 0 <= i < |r|
      ensures 0 < r[i] < |fwd| && fwd'[r[i]] == After(r, i) && bwd'[r[i]] == Before(r, i)
    {
      if 0 < i {
        assert r[i] == s[i - 1];
        PushedAt(s, x, fwd, bwd, fwd', bwd', i - 1);
        assert After(r, i) == After(s, i - 1);
      } else if s != [] {
        assert r[1] == s[0];
      }
    }
    assert bwd'[0] == r[|r| - 1] by {
      if s != [] { assert 0 < s[0] && r[|r| - 1] == s[|s| - 1]; }
    }
  }

  class Links {
    const pred: array<uint16>
    const succ: array<uint16>
    /** The slots in use, from the head of the list to its tail. */
    ghost var order: seq<uint16>

    ghost predicate Valid()
      reads this, pred, succ
    {
      && pred != succ && pred.Length == succ.Length > |order|
      && Slots(order, |order|)
      && Linked(order, succ[..], pred[..])
    }

    /** The arrays start zeroed, as Go's `make` leaves them. */
    constructor (size: nat)
      requires 0 < size < 0x1_0000
      ensures Valid() && fresh(this) && fresh(pred) && fresh(succ)
      ensures succ.Length == size && order == []
    {
      pred := new uint16[size](i => 0);
      succ := new uint16[size](i => 0);
      order := [];
    }

    /** Cuts slot `idx` out of the ring and splices it in behind the sentinel, as seen walking
        along the links `t`, unless it is there already. */
    method Adjust(idx: uint16, f: array<uint16>, t: array<uint16>)
      requires f != t && f.Length == t.Length > idx
      requires f[idx] < f.Length && t[idx] < t.Length && t[0] < t.Length
      requires f[idx] != 0 ==>
        f[idx] != idx && t[idx] != idx && t[0] != idx && t[0] != 0 && t[idx] != t[0]
      modifies f, t
      ensures Adjusted(idx, old(t[..]), old(f[..]), t[..], f[..])
    {
      if f[idx] != 0 {
        f[t[idx]] := f[idx];
        t[f[idx]] := t[idx];
        f[idx] := 0;
        t[idx] := t[0];
        f[t[0]] := idx;
        t[0] := idx;
      }
    }

    /** The first use of `adjust`: along the successors, it is move-to-front. */
    method Refresh(idx: uint16)
      requires Valid() && idx in order
      modifies this, pred, succ
      ensures Valid() && order == ToFront(old(order), idx)
    {
      ghost var s, fwd: seq<uint16>, bwd: seq<uint16> := order, succ[..], pred[..];
      BeforeAdjust(s, |s|, idx, true, fwd, bwd);
      order := ToFront(s, idx);
      Adjust(idx, pred, succ);
      AfterAdjust(s, |s|, idx, true, fwd, bwd, succ[..], pred[..]);
    }

    /** The second use, with the two directions swapped, is move-to-back. */
    method Demote(idx: uint16)
      requires Valid() && idx in order
      modifies this, pred, succ
      ensures Valid() && order == ToBack(old(order), idx)
    {
      ghost var s, fwd: seq<uint16>, bwd: seq<uint16> := order, succ[..], pred[..];
      BeforeAdjust(s, |s|, idx, false, bwd, fwd);
      order := ToBack(s, idx);
      Adjust(idx, succ, pred);
      AfterAdjust(s, |s|, idx, false, bwd, fwd, pred[..], succ[..]);
    }

    /** Threads the fresh slot `x` in at the head. */
    method Push(x: uint16, first: bool)
      requires Valid() && x == |order| + 1 < succ.Length && (first <==> order == [])
      modifies this, pred, succ
      ensures Valid() && order == [x] + old(order)
    {
      ghost var s, fwd: seq<uint16>, bwd: seq<uint16> := order, succ[..], pred[..];
      assert first ==> fwd[0] == 0;
      assert fwd[0] < x by { if !first { assert 1 <= s[0] <= |s|; } }
      order := [x] + s;
      Thread(x, first);
      SlotsPush(s, x);
      LinkedPush(s, x, fwd, bwd, succ[..], pred[..]);
    }

    method Thread(x: uint16, first: bool)
      requires pred != succ && 0 < x < succ.Length == pred.Length && succ[0] < x
      requires first ==> succ[0] == 0
      modifies pred, succ
      ensures Pushed(x, old(succ[..]), old(pred[..]), succ[..], pred[..])
    {
      if first {
        pred[0] := x;
      } else {
        pred[succ[0]] := x;
      }
      pred[x], succ[x] := 0, succ[0];
      succ[0] := x;
    }
  }
}
