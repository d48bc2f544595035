/** What `getRoutes` lists. */
module RouteList {
  import opened Paths
  import opened RouteTree
  import opened Routes

  function Under(k: Kind, qs: seq<seq<Kind>>): (r: seq<seq<Kind>>)
    ensures |r| == |qs| && forall i :: 0 <= i < |qs| ==> r[i] == [k] + qs[i]
  {
    seq(|qs|, i requires 0 <= i < |qs| => [k] + qs[i])
  }

  /** The places of the nodes that `travel` visits, in its order. */
  function Places(t: Tree): seq<seq<Kind>>
    decreases t, 0
  {
    (if t.pattern != "" then [[]] else []) + PlacesIn(t, |t.children|)
  }

  function PlacesIn(t: Tree, n: nat): seq<seq<Kind>>
    requires n <= |t.children|
    decreases t, 0, n
  {
    if n == 0 then []
    else PlacesIn(t, n - 1) + Under(KindOf(t.children[n - 1].part), Places(t.children[n - 1]))
  }

  /** The listed nodes are those at the places, and hold what is stored there. */
  ghost predicate Agree(t: Tree, nodes: seq<Tree>, qs: seq<seq<Kind>>) {
    |nodes| == |qs| && forall i :: 0 <= i < |qs| ==> Get(t, qs[i]) == nodes[i].pattern != ""
  }

  lemma AgreeConcat(t: Tree, a: seq<Tree>, p: seq<seq<Kind>>, b: seq<Tree>, q: seq<seq<Kind>>)
    requires Agree(t, a, p) && Agree(t, b, q)
    ensures Agree(t, a + b, p + q)
  {
  }

  lemma AgreeUnder(t: Tree, i: nat)
    requires Shaped(t) && i < |t.children|
    requires Agree(t.children[i], Labelled(t.children[i]), Places(t.children[i]))
    ensures Agree(t, Labelled(t.children[i]), Under(KindOf(t.children[i].part), Places(t.children[i])))
  {
    hide Labelled, Places, Shaped;
    var c := t.children[i];
    KindAt(t, i);
    forall j | 0 <= j < |Places(c)| ensures Get(t, [KindOf(c.part)] + Places(c)[j]) == Get(c, Places(c)[j]) {
      assert ([KindOf(c.part)] + Places(c)[j])[1..] == Places(c)[j];
    }
  }

  lemma {:induction false} PlacesAgree(t: Tree)
    requires Shaped(t)
    ensures Agree(t, Labelled(t), Places(t))
    decreases t, 0
  {
    hide Agree;
    PlacesInAgree(t, |t.children|);
    AgreeOwn(t);
    AgreeConcat(t, if t.pattern != "" then [t] else [], if t.pattern != "" then [[]] else [],
                LabelledIn(t, |t.children|), PlacesIn(t, |t.children|));
  }

  lemma AgreeOwn(t: Tree)
    ensures Agree(t, if t.pattern != "" then [t] else [], if t.pattern != "" then [[]] else [])
    ensures Agree(t, [], [])
  {
  }

  lemma {:induction false} PlacesInAgree(t: Tree, n: nat)
    requires Shaped(t) && n <= |t.children|
    ensures Agree(t, LabelledIn(t, n), PlacesIn(t, n))
    decreases t, 0, n
  {
    hide Agree;
    AgreeOwn(t);
    if n > 0 {
      var c := t.children[n - 1];
      PlacesInAgree(t, n - 1);
      PlacesAgree(c);
      AgreeUnder(t, n - 1);
      AgreeConcat(t, LabelledIn(t, n - 1), PlacesIn(t, n - 1), Labelled(c), Under(KindOf(c.part), Places(c)));
    }
  }

  // ---------- every place once ----------

  ghost predicate NoneTwice<T>(s: seq<T>) { forall i, j :: 0 <= i < j < |s| ==> s[i] != s[j] }

  lemma NoneTwiceConcat<T>(a: seq<T>, b: seq<T>)
    requires NoneTwice(a) && NoneTwice(b) && forall i, j :: 0 <= i < |a| && 0 <= j < |b| ==> a[i] != b[j]
    ensures NoneTwice(a + b)
  {
  }

  lemma {:induction false} PlacesOnce(t: Tree)
    requires Shaped(t)
    ensures NoneTwice(Places(t))
    decreases t, 0
  {
    PlacesInOnce(t, |t.children|);
    NoneTwiceConcat(if t.pattern != "" then [[]] else [], PlacesIn(t, |t.children|));
  }

  /** A place under the first `n` children starts with the kind of one of them. */
  lemma {:induction false} PlacesInOnce(t: Tree, n: nat)
    requires Shaped(t) && n <= |t.children|
    ensures NoneTwice(PlacesIn(t, n))
    ensures forall i :: 0 <= i < |PlacesIn(t, n)| ==>
      PlacesIn(t, n)[i] != [] && KindFrom(t.children, 0, PlacesIn(t, n)[i][0]) < n
    decreases t, 0, n
  {
    if n > 0 {
      var c := t.children[n - 1];
      PlacesInOnce(t, n - 1);
      PlacesOnce(c);
      KindAt(t, n - 1);
      var a, b := PlacesIn(t, n - 1), Under(KindOf(c.part), Places(c));
      forall i, j | 0 <= i < j < |b| ensures b[i] != b[j] {
        assert b[i][1..] == Places(c)[i] && b[j][1..] == Places(c)[j];
      }
      NoneTwiceConcat(a, b);
      hide Shaped;
    }
  }

  lemma {:induction false} PlacesHas(t: Tree, q: seq<Kind>)
    requires Get(t, q) != ""
    ensures q in Places(t)
    decreases t
  {
    if q != [] {
      var i := KindFrom(t.children, 0, q[0]);
      PlacesHas(t.children[i], q[1..]);
      assert q == [q[0]] + q[1..];
      PlacesInHas(t, |t.children|, i, q[1..]);
    } else {
      assert Places(t)[0] == [];
    }
  }

  lemma {:induction false} PlacesInHas(t: Tree, n: nat, i: nat, q: seq<Kind>)
    requires i < n <= |t.children| && q in Places(t.children[i])
    ensures [KindOf(t.children[i].part)] + q in PlacesIn(t, n)
    decreases n
  {
    var c := t.children[n - 1];
    if i < n - 1 {
      PlacesInHas(t, n - 1, i, q);
    } else {
      var j :| 0 <= j < |Places(c)| && Places(c)[j] == q;
      assert Under(KindOf(c.part), Places(c))[j] == [KindOf(c.part)] + q;
    }
  }

  // ---------- what is listed ----------

  predicate Lists(nodes: seq<Tree>, p: string) { exists i :: 0 <= i < |nodes| && nodes[i].pattern == p }

  /** In whatever trie, the patterns listed are exactly those stored somewhere. */
  lemma ListedIff(t: Tree, p: string)
    requires Shaped(t)
    ensures Lists(Labelled(t), p) <==> p != "" && exists q :: Get(t, q) == p
  {
    hide Labelled, Places, Shaped, Get;
    PlacesAgree(t);
    if p != "" {
      if q :| Get(t, q) == p {
        PlacesHas(t, q);
        var i :| 0 <= i < |Places(t)| && Places(t)[i] == q;
        assert Labelled(t)[i].pattern == p;
      }
    }
  }

  /** A pattern is current if it was registered and no later registration has the same kinds. */
  lemma {:induction false} CurrentIff(regs: seq<string>, p: string)
    ensures Current(regs, p) <==>
      exists i :: 0 <= i < |regs| && regs[i] == p && forall j :: i < j < |regs| ==> KindsOf(regs[j]) != KindsOf(p)
  {
    hide KindsOf;
    if regs != [] {
      var init, last := regs[..|regs| - 1], regs[|regs| - 1];
      CurrentIff(init, p);
      if KindsOf(last) != KindsOf(p) {
        assert Current(regs, p) <==> Current(init, p);
        if Current(init, p) {
          var i :| 0 <= i < |init| && init[i] == p && forall j :: i < j < |init| ==> KindsOf(init[j]) != KindsOf(p);
          assert regs[i] == p;
          assert forall j :: i < j < |init| ==> init[j] == regs[j];
        }
        if i :| 0 <= i < |regs| && regs[i] == p && forall j :: i < j < |regs| ==> KindsOf(regs[j]) != KindsOf(p) {
          assert init[i] == p;
          assert forall j :: i < j < |init| ==> init[j] == regs[j];
        }
      } else if last == p {
        assert regs[|regs| - 1] == p;
      }
    }
  }

  /** Without a clash, `getRoutes` lists a pattern if and only if it is current and not empty, and each once. */
  lemma RoutesListed(regs: seq<string>)
    requires ClashFree(regs)
    ensures forall p :: Lists(Labelled(TreeOf(regs)), p) <==> p != "" && Current(regs, p)
    ensures var nodes := Labelled(TreeOf(regs)); forall i, j :: 0 <= i < j < |nodes| ==> nodes[i].pattern != nodes[j].pattern
  {
    hide Labelled, Places, Shaped, Get, TreeOf, KindsOf;
    var t := TreeOf(regs);
    TreeShaped(regs);
    forall p ensures Lists(Labelled(t), p) <==> p != "" && Current(regs, p) {
      ListedIff(t, p);
      TreeStores(regs, KindsOf(p));
      if p != "" {
        if q :| Get(t, q) == p {
          TreeStores(regs, q);
          TableOwn(regs, q);
        }
      }
    }
    PlacesAgree(t);
    PlacesOnce(t);
    forall i, j | 0 <= i < j < |Labelled(t)| ensures Labelled(t)[i].pattern != Labelled(t)[j].pattern {
      StoredOnce(regs, Places(t)[i], Places(t)[j]);
    }
  }

  lemma StoredOnce(regs: seq<string>, q: seq<Kind>, q': seq<Kind>)
    requires ClashFree(regs) && q != q' && Get(TreeOf(regs), q) != "" && Get(TreeOf(regs), q') != ""
    ensures Get(TreeOf(regs), q) != Get(TreeOf(regs), q')
  {
    TreeStores(regs, q);
    TreeStores(regs, q');
    TableOwn(regs, q);
    TableOwn(regs, q');
  }
}
