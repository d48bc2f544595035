/** Route tables: what `getRoute` finds, and the parameters it returns. */
module Routes {
  import opened Options
  import opened Paths
  import opened RouteTree

  const ROOT: Tree := Node("", "", [], false)

  function KindsOf(pattern: string): seq<Kind> { Kinds(Parts(pattern)) }

  function Names(regs: seq<string>): set<string> { set p | p in regs }

  /** The trie after registering the patterns in order. */
  function TreeOf(regs: seq<string>): (t: Tree)
    ensures t.part == ""
  {
    if regs == [] then ROOT
    else
      var p := regs[|regs| - 1];
      Insert(TreeOf(regs[..|regs| - 1]), p, Parts(p))
  }

  lemma TreeOfNone()
    ensures TreeOf([]) == ROOT
  {
  }

  lemma TreeOfSnoc(regs: seq<string>, p: string)
    ensures TreeOf(regs + [p]) == Insert(TreeOf(regs), p, Parts(p))
  {
    assert (regs + [p])[..|regs|] == regs;
  }

  /** The pattern registered last for each list of kinds. */
  function Table(regs: seq<string>): map<seq<Kind>, string> {
    if regs == [] then map[]
    else
      var p := regs[|regs| - 1];
      Table(regs[..|regs| - 1])[KindsOf(p) := p]
  }

  /** No registration reuses a wildcard child for a part of another kind. */
  ghost predicate ClashFree(regs: seq<string>) {
    regs == [] ||
    var init, p := regs[..|regs| - 1], regs[|regs| - 1];
    ClashFree(init) && NoClash(TreeOf(init), Parts(p))
  }

  lemma {:induction false} TreeShaped(regs: seq<string>)
    ensures Shaped(TreeOf(regs)) && DepthOk(TreeOf(regs), 0)
    ensures AllIn(TreeOf(regs), Names(regs))
  {
    if regs != [] {
      var init, p := regs[..|regs| - 1], regs[|regs| - 1];
      TreeShaped(init);
      InsertShaped(TreeOf(init), p, Parts(p));
      InsertDepth(TreeOf(init), 0, p, Parts(p));
      AllInMore(TreeOf(init), Names(init), Names(regs));
      InsertAllIn(TreeOf(init), Names(regs), p, Parts(p));
    }
  }

  lemma {:induction false} TreeStores(regs: seq<string>, q: seq<Kind>)
    requires ClashFree(regs)
    ensures Get(TreeOf(regs), q) == if q in Table(regs) then Table(regs)[q] else ""
  {
    if regs != [] {
      var init, p := regs[..|regs| - 1], regs[|regs| - 1];
      TreeStores(init, q);
      TreeShaped(init);
      InsertGet(TreeOf(init), p, Parts(p), q);
    }
  }

  lemma {:induction false} TableOwn(regs: seq<string>, q: seq<Kind>)
    ensures q in Table(regs) ==> Table(regs)[q] in regs && KindsOf(Table(regs)[q]) == q
  {
    if regs != [] {
      var init := regs[..|regs| - 1];
      TableOwn(init, q);
      assert regs[|regs| - 1] in regs && forall x :: x in init ==> x in regs;
    }
  }

  /** `p` is the pattern registered last for its kinds. */
  predicate Current(regs: seq<string>, p: string) {
    KindsOf(p) in Table(regs) && Table(regs)[KindsOf(p)] == p
  }

  /** Safety, whatever is registered: a search returns a registered pattern with no more parts than
      the path has segments. */
  lemma SearchRegistered(regs: seq<string>, segs: seq<string>)
    requires Search(TreeOf(regs), segs).Some?
    ensures var p := Search(TreeOf(regs), segs).value.pattern;
      p != "" && p in regs && |Parts(p)| <= |segs|
  {
    TreeShaped(regs);
    SearchSafe(TreeOf(regs), 0, Names(regs), segs);
  }

  /** Soundness: without a clash, the pattern returned is registered and matches. */
  lemma RouteSound(regs: seq<string>, segs: seq<string>)
    requires ClashFree(regs) && Search(TreeOf(regs), segs).Some?
    ensures var p := Search(TreeOf(regs), segs).value.pattern;
      p != "" && p in regs && Current(regs, p) && Matches(KindsOf(p), segs)
  {
    TreeShaped(regs);
    var q := SearchSound(TreeOf(regs), segs);
    TreeStores(regs, q);
    TableOwn(regs, q);
  }

  /** Completeness: without a clash, a route is found if one that is current matches. */
  lemma RouteComplete(regs: seq<string>, segs: seq<string>, p: string)
    requires ClashFree(regs) && Current(regs, p) && p != "" && Matches(KindsOf(p), segs)
    ensures Search(TreeOf(regs), segs).Some?
  {
    TreeShaped(regs);
    TreeStores(regs, KindsOf(p));
    SearchComplete(TreeOf(regs), segs, KindsOf(p));
  }

  /** The last registration without parts, if there is one, is not the empty string. */
  predicate RootStands(regs: seq<string>) { [] in Table(regs) ==> Table(regs)[[]] != "" }

  /** The kinds of a pattern have parts unless the path it matches is empty. */
  lemma MatchesEmpty(q: seq<Kind>, segs: seq<string>)
    requires Matches(q, segs)
    ensures q == [] <==> segs == []
  {
  }

  /** Without a clash, a route is found for a path exactly when some registered pattern matches it
      and, for the empty path, the empty string has not replaced the root route. */
  lemma RouteIff(regs: seq<string>, segs: seq<string>)
    requires ClashFree(regs)
    ensures Search(TreeOf(regs), segs).Some? <==>
      && (exists p :: p in regs && Matches(KindsOf(p), segs))
      && (segs == [] ==> RootStands(regs))
  {
    if Search(TreeOf(regs), segs).Some? {
      RouteSound(regs, segs);
      MatchesEmpty(KindsOf(Search(TreeOf(regs), segs).value.pattern), segs);
    }
    if p :| p in regs && Matches(KindsOf(p), segs) {
      TableHas(regs, p);
      TableOwn(regs, KindsOf(p));
      MatchesEmpty(KindsOf(p), segs);
      var last := Table(regs)[KindsOf(p)];
      PartsOfEmpty();
      if last != "" {
        RouteComplete(regs, segs, last);
      }
    }
  }

  lemma PartsOfEmpty()
    ensures KindsOf("") == []
  {
    assert Split("") == [""] && [""][1..] == [] && NonEmpty([""]) == [];
  }

  /** The promise that routes are found exactly when a registered pattern matches is kept for all
      paths exactly when the empty string has not replaced the root route. */
  lemma AllRoutesIff(regs: seq<string>)
    requires ClashFree(regs)
    ensures (forall segs :: Search(TreeOf(regs), segs).Some? <==> exists p :: p in regs && Matches(KindsOf(p), segs))
      <==> RootStands(regs)
  {
    forall segs
      ensures Search(TreeOf(regs), segs).Some? <==>
        (exists p :: p in regs && Matches(KindsOf(p), segs)) && (segs == [] ==> RootStands(regs))
    {
      RouteIff(regs, segs);
    }
    if !RootStands(regs) {
      TableOwn(regs, []);
      var p := Table(regs)[[]];
      assert p in regs && Matches(KindsOf(p), []);
      RouteIff(regs, []);
    }
  }

  lemma {:induction false} TableHas(regs: seq<string>, p: string)
    requires p in regs
    ensures KindsOf(p) in Table(regs)
  {
    var init := regs[..|regs| - 1];
    if p != regs[|regs| - 1] {
      assert p in init;
      TableHas(init, p);
    }
  }

  /** The empty pattern hides the root route: both have no parts, and an empty pattern on a node
      reads as no pattern. */
  lemma EmptyHidesRoot()
    ensures ClashFree(["/", ""])
    ensures Matches(KindsOf("/"), []) && Search(TreeOf(["/", ""]), []) == None
  {
    assert ["/", ""][..1] == ["/"] && ["/"][..0] == [];
    assert Split("") == [""] && NonEmpty([""][1..]) == [] && NonEmpty([""]) == [];
    assert "/"[1..] == "" && Split("/") == ["", ""];
    assert ["", ""][1..] == [""];
    assert Parts("/") == [] && Parts("") == [];
    assert TreeOf(["/"]) == Insert(ROOT, "/", []);
    assert TreeOf(["/", ""]) == Insert(TreeOf(["/"]), "", []);
  }
}
