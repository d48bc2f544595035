/** What goes wrong when an insertion reuses a wildcard child, and exactly when it does. */
module RouteClash {
  import opened Options
  import opened Paths
  import opened RouteTree
  import opened Routes

  /** After "/:a", any other one-part pattern lands on the same node. */
  lemma OneNode(part: string)
    requires part != "" && '/' !in part
    ensures TreeOf(["/:a", "/" + part]) == Node("", "", [Node("/" + part, ":a", [], true)], false)
    ensures ClashFree(["/:a", "/" + part]) <==> KindOf(part).Param?
  {
    var p := "/" + part;
    var t := Node("", "", [Node("/:a", ":a", [], true)], false);
    assert ["/:a", p][..1] == ["/:a"] && ["/:a"][..0] == [];
    FirstNode();
    PartsOfShort(part);
    assert [part][1..] == [] && Match(t, part) == 0;
    assert Insert(t.children[0], p, []) == Node(p, ":a", [], true);
    assert Insert(t, p, [part]).children == [Node(p, ":a", [], true)];
    assert NoClash(t, [part]) <==> KindOf(part).Param?;
  }

  lemma FirstNode()
    ensures TreeOf(["/:a"]) == Node("", "", [Node("/:a", ":a", [], true)], false) && ClashFree(["/:a"])
  {
    PartsOfShort(":a");
    assert "/" + ":a" == "/:a" && ["/:a"][..0] == [] && [":a"][1..] == [];
    assert Insert(Child(":a"), "/:a", []) == Node("/:a", ":a", [], true);
    assert Insert(ROOT, "/:a", [":a"]).children == [Node("/:a", ":a", [], true)];
  }

  /** A literal stored under a parameter answers for every other segment. */
  lemma ClashMisleads()
    ensures !ClashFree(["/:a", "/b"])
    ensures var r := Search(TreeOf(["/:a", "/b"]), ["c"]);
      r.Some? && r.value.pattern == "/b" && !Matches(KindsOf("/b"), ["c"])
  {
    OneNode("b");
    PartsOfShort("b");
    assert "/" + "b" == "/b" && ["c"][1..] == [];
    var n := Node("/b", ":a", [], true);
    assert Search(n, []) == Some(n);
    assert SearchFrom([n], 0, ["c"]) == Some(n);
  }

  /** A catch-all stored under a parameter no longer catches longer paths. */
  lemma ClashMisses()
    ensures !ClashFree(["/:a", "/*f"])
    ensures Matches(KindsOf("/*f"), ["x", "y"]) && Search(TreeOf(["/:a", "/*f"]), ["x", "y"]) == None
  {
    OneNode("*f");
    PartsOfShort("*f");
    assert "/" + "*f" == "/*f" && ["x", "y"][1..] == ["y"];
    var n := Node("/*f", ":a", [], true);
    assert Search(n, ["y"]) == SearchFrom([], 0, ["y"]) == None;
    assert SearchFrom([n], 0, ["x", "y"]) == SearchFrom([n], 1, ["x", "y"]) == None;
  }

  lemma PartsOfShort(part: string)
    requires part != "" && '/' !in part
    ensures Parts("/" + part) == [part]
  {
    SplitFirst("", part);
    assert "" + ("/" + part) == "/" + part;
    SplitPlain(part);
    assert Split("/" + part) == ["", part] by { assert [""] + [part] == ["", part]; }
    assert [part][1..] == [] && NonEmpty([part]) == [part] + NonEmpty([]) == [part];
    assert ["", part][1..] == [part] && NonEmpty(["", part]) == [part];
    assert UpToStar([part]) == [part];
  }

  // ---------- exactly when every answer matches ----------

  /** A search can follow the kinds `loc` to the end. */
  predicate Open(loc: seq<Kind>) {
    forall i :: 0 <= i < |loc| - 1 ==> loc[i] != Star
  }

  /** A pattern of kinds `ks` matches all that its place `loc` is reached for. */
  predicate Fits(loc: seq<Kind>, ks: seq<Kind>) {
    |loc| == |ks| &&
    forall i :: 0 <= i < |loc| ==>
      loc[i] == ks[i] || (ks[i] == Param && loc[i].Lit?) || (ks[i] == Star && i == |ks| - 1)
  }

  /** Every pattern a search can reach sits where its own parts allow it. */
  ghost predicate InPlace(t: Tree) {
    forall loc :: Open(loc) && Get(t, loc) != "" ==> Fits(loc, KindsOf(Get(t, loc)))
  }

  /** Every search answers with a pattern that matches. */
  ghost predicate AlwaysMatches(t: Tree) {
    forall segs :: Search(t, segs).Some? ==> Matches(KindsOf(Search(t, segs).value.pattern), segs)
  }

  lemma {:induction false} MatchesOpen(q: seq<Kind>, segs: seq<string>)
    requires Matches(q, segs)
    ensures Open(q)
    decreases |q|
  {
    if q != [] && q[0] != Star {
      MatchesOpen(q[1..], segs[1..]);
      assert forall i :: 0 < i < |q| ==> q[i] == q[1..][i - 1];
    }
  }

  lemma {:induction false} FitsMatches(loc: seq<Kind>, ks: seq<Kind>, segs: seq<string>)
    requires Fits(loc, ks) && Matches(loc, segs)
    ensures Matches(ks, segs)
    decreases |loc|
  {
    if loc != [] {
      if ks[0] != Star {
        assert forall i :: 0 <= i < |loc| - 1 ==> loc[1..][i] == loc[i + 1] && ks[1..][i] == ks[i + 1];
        FitsMatches(loc[1..], ks[1..], segs[1..]);
      }
    }
  }

  /** A path that leads a search along `loc`: literals as they are, and an unknown segment for
      each wildcard, two for a catch-all. */
  function Probe(loc: seq<Kind>, odd: string): seq<string>
    decreases |loc|
  {
    if loc == [] then []
    else match loc[0]
      case Lit(s) => [s] + Probe(loc[1..], odd)
      case Param => [odd] + Probe(loc[1..], odd)
      case Star => [odd, odd]
  }

  /** No part below `t` reads like `odd`. */
  ghost predicate Unknown(t: Tree, odd: string) {
    forall i :: 0 <= i < |t.children| ==> t.children[i].part != odd && Unknown(t.children[i], odd)
  }

  lemma {:induction false} ProbeFinds(t: Tree, loc: seq<Kind>, odd: string)
    requires Shaped(t) && !Starred(t.part) && Unknown(t, odd)
    requires Open(loc) && Get(t, loc) != ""
    ensures var r := Search(t, Probe(loc, odd)); r.Some? && r.value.pattern == Get(t, loc)
    decreases |loc|
  {
    if loc != [] {
      var cs, rest := t.children, Probe(loc, odd);
      var i := KindFrom(cs, 0, loc[0]);
      forall j | 0 <= j < i
        ensures !Accepts(cs[j], rest[0])
      {
        assert !cs[j].isWild && KindOf(cs[j].part) != loc[0];
      }
      if loc[0] == Star {
        assert |loc| == 1 && loc[1..] == [] && rest[1..] == [odd];
        assert Starred(cs[i].part);
      } else {
        assert forall j :: 0 <= j < |loc| - 1 ==> loc[1..][j] == loc[j + 1];
        assert rest[1..] == Probe(loc[1..], odd);
        ProbeFinds(cs[i], loc[1..], odd);
      }
      SkipTo(cs, 0, i, rest);
    }
  }

  lemma {:induction false} SkipTo(cs: seq<Tree>, j: nat, i: nat, rest: seq<string>)
    requires j <= i < |cs| && rest != []
    requires forall k :: j <= k < i ==> !Accepts(cs[k], rest[0])
    requires Accepts(cs[i], rest[0]) && Search(cs[i], rest[1..]).Some?
    ensures SearchFrom(cs, j, rest) == Search(cs[i], rest[1..])
    decreases i - j
  {
    if j < i { SkipTo(cs, j + 1, i, rest); }
  }

  /** Only a pattern that fits the place matches the probe of the place. */
  lemma {:induction false} ProbeFits(loc: seq<Kind>, ks: seq<Kind>, odd: string)
    requires |loc| == |ks| && Open(loc) && Lit(odd) !in ks
    requires Matches(ks, Probe(loc, odd))
    ensures Fits(loc, ks)
    decreases |loc|
  {
    if loc != [] {
      var rest := Probe(loc, odd);
      assert ks[0] in ks;
      if loc[0] == Star {
        assert |loc| == 1 && rest == [odd, odd] && rest[1..] == [odd];
        if ks[0] == Param { assert ks[1..] == []; }
      } else if ks[0] == Star {
        assert loc[0] != Star;
      } else {
        assert forall i :: 0 <= i < |loc| - 1 ==> loc[1..][i] == loc[i + 1] && ks[1..][i] == ks[i + 1];
        assert rest[1..] == Probe(loc[1..], odd);
        ProbeFits(loc[1..], ks[1..], odd);
        assert forall i :: 0 < i < |loc| ==> loc[i] == loc[1..][i - 1] && ks[i] == ks[1..][i - 1];
      }
    }
  }

  lemma {:induction false} UnknownIf(t: Tree, odd: string)
    requires |odd| > Longest(t)
    ensures Unknown(t, odd)
    decreases t
  {
    forall i | 0 <= i < |t.children|
      ensures t.children[i].part != odd && Unknown(t.children[i], odd)
    {
      LongestIn(t, |t.children|, i);
      UnknownIf(t.children[i], odd);
    }
  }

  /** The length of the longest part below `t`. */
  function Longest(t: Tree): nat
    decreases t, 0
  {
    LongestOf(t, |t.children|)
  }

  function LongestOf(t: Tree, n: nat): nat
    requires n <= |t.children|
    decreases t, 0, n
  {
    if n == 0 then 0
    else
      var c := t.children[n - 1];
      Max(LongestOf(t, n - 1), Max(|c.part|, Longest(c)))
  }

  function Max(a: nat, b: nat): nat { if a < b then b else a }

  lemma {:induction false} LongestIn(t: Tree, n: nat, i: nat)
    requires i < n <= |t.children|
    ensures |t.children[i].part| <= LongestOf(t, n) && Longest(t.children[i]) <= LongestOf(t, n)
    decreases n
  {
    if i < n - 1 { LongestIn(t, n - 1, i); }
  }

  lemma {:induction false} OddOneOut(t: Tree, ks: seq<Kind>) returns (odd: string)
    ensures Unknown(t, odd) && Lit(odd) !in ks
  {
    var n := LongestLit(ks);
    odd := seq(Max(Longest(t), n) + 1, i => 'a');
    UnknownIf(t, odd);
    forall i | 0 <= i < |ks|
      ensures ks[i] != Lit(odd)
    {
      if ks[i].Lit? { LitIn(ks, i); }
    }
  }

  function LongestLit(ks: seq<Kind>): nat {
    if ks == [] then 0
    else Max(if ks[0].Lit? then |ks[0].s| else 0, LongestLit(ks[1..]))
  }

  lemma {:induction false} LitIn(ks: seq<Kind>, i: nat)
    requires i < |ks| && ks[i].Lit?
    ensures |ks[i].s| <= LongestLit(ks)
  {
    if i > 0 { LitIn(ks[1..], i - 1); }
  }

  lemma {:induction false} GetDepth(t: Tree, d: nat, q: seq<Kind>)
    requires DepthOk(t, d) && Get(t, q) != ""
    ensures |KindsOf(Get(t, q))| == d + |q|
    decreases |q|
  {
    if q != [] { GetDepth(t.children[KindFrom(t.children, 0, q[0])], d + 1, q[1..]); }
  }

  /** For every route table, clashing or not: all answers match if and only if every pattern that a
      search can reach sits where its own parts allow it. */
  lemma AlwaysMatchesIff(regs: seq<string>)
    ensures AlwaysMatches(TreeOf(regs)) <==> InPlace(TreeOf(regs))
  {
    var t := TreeOf(regs);
    TreeShaped(regs);
    if InPlace(t) {
      forall segs | Search(t, segs).Some?
        ensures Matches(KindsOf(Search(t, segs).value.pattern), segs)
      {
        var q := SearchSound(t, segs);
        MatchesOpen(q, segs);
        FitsMatches(q, KindsOf(Get(t, q)), segs);
      }
    }
    if AlwaysMatches(t) {
      forall loc | Open(loc) && Get(t, loc) != ""
        ensures Fits(loc, KindsOf(Get(t, loc)))
      {
        var ks := KindsOf(Get(t, loc));
        var odd := OddOneOut(t, ks);
        GetDepth(t, 0, loc);
        ProbeFinds(t, loc, odd);
        ProbeFits(loc, ks, odd);
      }
    }
  }

  // ---------- exactly when no match is missed ----------

  /** Every path that a registered pattern matches is found. */
  ghost predicate AlwaysFinds(regs: seq<string>) {
    forall segs, p :: p in regs && Matches(KindsOf(p), segs) ==> Search(TreeOf(regs), segs).Some?
  }

  /** `ks` is `q` with a final catch-all spelled out as one or more parameters. */
  predicate SpellsOut(q: seq<Kind>, ks: seq<Kind>)
    decreases |q|
  {
    if q == [] then ks == []
    else if q == [Star] then ks != [] && forall i :: 0 <= i < |ks| ==> ks[i] == Param
    else ks != [] && ks[0] == q[0] && SpellsOut(q[1..], ks[1..])
  }

  /** Whatever `ks` matches, `q` matches too. */
  predicate Takes(q: seq<Kind>, ks: seq<Kind>)
    decreases |q|
  {
    if q == [] then ks == []
    else
      && ks != []
      && if q[0] == Star then |q| == 1 else (q[0] == Param || q[0] == ks[0]) && Takes(q[1..], ks[1..])
  }

  /** Some stored place takes everything that `ks` matches. */
  ghost predicate Covered(t: Tree, ks: seq<Kind>) { exists q :: Get(t, q) != "" && Takes(q, ks) }

  /** Every registered pattern, however long its catch-all, is covered by what the trie stores. */
  ghost predicate AllCovered(regs: seq<string>) {
    forall p, ks :: p in regs && SpellsOut(KindsOf(p), ks) ==> Covered(TreeOf(regs), ks)
  }

  lemma {:induction false} SpellOut(q: seq<Kind>, segs: seq<string>) returns (ks: seq<Kind>)
    requires Matches(q, segs)
    ensures SpellsOut(q, ks) && Matches(ks, segs) && Star !in ks
    decreases |q|
  {
    if q == [] {
      ks := [];
    } else if q[0] == Star {
      assert q == [Star];
      ks := AllParams(segs);
    } else {
      var rest := SpellOut(q[1..], segs[1..]);
      ks := [q[0]] + rest;
      assert ks[1..] == rest;
    }
  }

  lemma {:induction false} AllParams(segs: seq<string>) returns (ks: seq<Kind>)
    ensures |ks| == |segs| && Matches(ks, segs) && forall i :: 0 <= i < |ks| ==> ks[i] == Param
  {
    if segs == [] {
      ks := [];
    } else {
      var rest := AllParams(segs[1..]);
      ks := [Param] + rest;
      assert ks[1..] == rest;
    }
  }

  lemma {:induction false} TakesMatches(q: seq<Kind>, ks: seq<Kind>, segs: seq<string>)
    requires Takes(q, ks) && Matches(ks, segs) && Star !in ks
    ensures Matches(q, segs)
    decreases |q|
  {
    if q != [] && q[0] != Star {
      assert ks[0] in ks;
      TakesMatches(q[1..], ks[1..], segs[1..]);
    }
  }

  /** The probe of `ks` is matched by every pattern that `ks` spells out. */
  lemma {:induction false} ProbeMatches(q: seq<Kind>, ks: seq<Kind>, odd: string)
    requires SpellsOut(q, ks) && Open(q)
    ensures Matches(q, Probe(ks, odd)) && Star !in ks && Matches(ks, Probe(ks, odd))
    decreases |q|, |ks|
  {
    if q == [Star] {
      ParamsProbe(ks, odd);
    } else if q != [] {
      assert forall i :: 0 <= i < |q| - 1 ==> q[1..][i] == q[i + 1];
      if |q| == 1 { assert q == [q[0]]; }
      ProbeMatches(q[1..], ks[1..], odd);
      assert ks == [ks[0]] + ks[1..];
      assert Probe(ks, odd)[1..] == Probe(ks[1..], odd);
    }
  }

  lemma {:induction false} ParamsProbe(ks: seq<Kind>, odd: string)
    requires forall i :: 0 <= i < |ks| ==> ks[i] == Param
    ensures Matches(ks, Probe(ks, odd)) && |Probe(ks, odd)| == |ks|
  {
    if ks != [] {
      ParamsProbe(ks[1..], odd);
      assert Probe(ks, odd)[1..] == Probe(ks[1..], odd);
    }
  }

  /** A place that matches the probe of `ks`, and has no literal like the odd segment, takes `ks`. */
  lemma {:induction false} ProbeTakes(q: seq<Kind>, ks: seq<Kind>, odd: string)
    requires Matches(q, Probe(ks, odd)) && Lit(odd) !in q && Star !in ks
    ensures Takes(q, ks)
    decreases |q|
  {
    if q != [] {
      assert q[0] in q && ks != [] && ks[0] in ks;
      if q[0] != Star {
        assert Probe(ks, odd)[1..] == Probe(ks[1..], odd);
        ProbeTakes(q[1..], ks[1..], odd);
      }
    }
  }

  lemma {:induction false} StoredIsKnown(t: Tree, q: seq<Kind>, odd: string)
    requires Unknown(t, odd) && Get(t, q) != ""
    ensures Lit(odd) !in q
    decreases |q|
  {
    if q != [] {
      var i := KindFrom(t.children, 0, q[0]);
      StoredIsKnown(t.children[i], q[1..], odd);
      assert q == [q[0]] + q[1..];
    }
  }

  lemma CoveredFinds(regs: seq<string>, p: string, segs: seq<string>)
    requires AllCovered(regs) && p in regs && Matches(KindsOf(p), segs)
    ensures Search(TreeOf(regs), segs).Some?
  {
    var t := TreeOf(regs);
    var ks := SpellOut(KindsOf(p), segs);
    assert Covered(t, ks);
    var q :| Get(t, q) != "" && Takes(q, ks);
    TakesMatches(q, ks, segs);
    TreeShaped(regs);
    SearchComplete(t, segs, q);
  }

  lemma FindsCovered(regs: seq<string>, p: string, ks: seq<Kind>)
    requires AlwaysFinds(regs) && p in regs && SpellsOut(KindsOf(p), ks)
    ensures Covered(TreeOf(regs), ks)
  {
    var t := TreeOf(regs);
    TreeShaped(regs);
    var odd := OddOneOut(t, ks);
    var segs := Probe(ks, odd);
    ProbeMatches(KindsOf(p), ks, odd);
    assert Search(t, segs).Some?;
    var q := SearchSound(t, segs);
    StoredIsKnown(t, q, odd);
    ProbeTakes(q, ks, odd);
  }

  /** For every route table, clashing or not: no match is missed if and only if every registered
      pattern is covered by what the trie stores. */
  lemma AlwaysFindsIff(regs: seq<string>)
    ensures AlwaysFinds(regs) <==> AllCovered(regs)
  {
    if AllCovered(regs) {
      forall segs, p | p in regs && Matches(KindsOf(p), segs)
        ensures Search(TreeOf(regs), segs).Some?
      {
        CoveredFinds(regs, p, segs);
      }
    }
    if AlwaysFinds(regs) {
      forall p, ks | p in regs && SpellsOut(KindsOf(p), ks)
        ensures Covered(TreeOf(regs), ks)
      {
        FindsCovered(regs, p, ks);
      }
    }
  }
}
