/** Which of several matching routes is found. */
module RoutePriority {
  import opened Options
  import opened Paths
  import opened RouteTree
  import opened Routes

  /** Where the two first differ, `q` asks for a literal segment. */
  predicate Prefers(q: seq<Kind>, q': seq<Kind>)
    decreases |q|
  {
    q == q' || (q != [] && q' != [] && if q[0] == q'[0] then Prefers(q[1..], q'[1..]) else q[0].Lit?)
  }

  /** Of two different lists of kinds at most one is preferred. */
  lemma {:induction false} PrefersOne(q: seq<Kind>, q': seq<Kind>, segs: seq<string>)
    requires Matches(q, segs) && Matches(q', segs) && Prefers(q, q') && Prefers(q', q)
    ensures q == q'
    decreases |q|
  {
    if q != [] && q' != [] && q[0] == q'[0] && |q| > 1 && |q'| > 1 {
      PrefersOne(q[1..], q'[1..], segs[1..]);
      assert q == [q[0]] + q[1..] && q' == [q'[0]] + q'[1..];
    }
  }

  lemma {:induction false} FirstFound(cs: seq<Tree>, i: nat, rest: seq<string>) returns (j: nat)
    requires i <= |cs| && rest != [] && SearchFrom(cs, i, rest).Some?
    ensures i <= j < |cs| && Accepts(cs[j], rest[0]) && Search(cs[j], rest[1..]) == SearchFrom(cs, i, rest)
    ensures forall k :: i <= k < j ==> !(Accepts(cs[k], rest[0]) && Search(cs[k], rest[1..]).Some?)
    decreases |cs| - i
  {
    if Accepts(cs[i], rest[0]) && Search(cs[i], rest[1..]).Some? {
      j := i;
    } else {
      j := FirstFound(cs, i + 1, rest);
    }
  }

  /** In every trie, the node found is the one preferred to all others whose kinds match. */
  lemma {:induction false} SearchPrefers(t: Tree, rest: seq<string>) returns (q: seq<Kind>)
    requires Shaped(t) && !Starred(t.part) && Search(t, rest).Some?
    ensures Get(t, q) == Search(t, rest).value.pattern != "" && Matches(q, rest)
    ensures forall q' :: Get(t, q') != "" && Matches(q', rest) ==> Prefers(q, q')
    decreases |rest|
  {
    q := [];
    if rest != [] {
      var i := FirstFound(t.children, 0, rest);
      var c, below := t.children[i], [];
      KindAt(t, i);
      if !Starred(c.part) {
        below := SearchPrefers(c, rest[1..]);
      }
      q := [KindOf(c.part)] + below;
      assert q[1..] == below;
      forall q' | Get(t, q') != "" && Matches(q', rest) ensures Prefers(q, q') {
        Rival(t, rest, i, below, q');
      }
    }
  }

  lemma Rival(t: Tree, rest: seq<string>, i: nat, below: seq<Kind>, q': seq<Kind>)
    requires Shaped(t) && rest != [] && i < |t.children|
    requires forall k :: 0 <= k < i ==> !(Accepts(t.children[k], rest[0]) && Search(t.children[k], rest[1..]).Some?)
    requires Get(t, q') != "" && Matches(q', rest)
    requires Starred(t.children[i].part) ==> below == []
    requires !Starred(t.children[i].part) ==>
      forall p :: Get(t.children[i], p) != "" && Matches(p, rest[1..]) ==> Prefers(below, p)
    ensures Prefers([KindOf(t.children[i].part)] + below, q')
  {
    var i' := KindFrom(t.children, 0, q'[0]);
    var q, c, c' := [KindOf(t.children[i].part)] + below, t.children[i], t.children[i'];
    assert q[1..] == below;
    KindAt(t, i);
    if i == i' {
      if Starred(c.part) {
        assert q' == [Star];
      }
    } else {
      if !Starred(c'.part) {
        SearchComplete(c', rest[1..], q'[1..]);
      }
      assert Accepts(c', rest[0]) && Search(c', rest[1..]).Some?;
      assert i < i';
      assert !c.isWild;
    }
  }

  /** Without a clash, a path is answered by the matching route that is preferred to all other current ones:
      literal segments before parameters and catch-alls, from left to right. */
  lemma RoutePrefers(regs: seq<string>, segs: seq<string>, p': string)
    requires ClashFree(regs) && Search(TreeOf(regs), segs).Some?
    requires Current(regs, p') && p' != "" && Matches(KindsOf(p'), segs)
    ensures var p := Search(TreeOf(regs), segs).value.pattern;
      Current(regs, p) && Matches(KindsOf(p), segs) && Prefers(KindsOf(p), KindsOf(p'))
  {
    hide TreeOf, KindsOf, Table, Shaped, Search, Get;
    TreeShaped(regs);
    var q := SearchPrefers(TreeOf(regs), segs);
    TreeStores(regs, q);
    TableOwn(regs, q);
    TreeStores(regs, KindsOf(p'));
  }
}
