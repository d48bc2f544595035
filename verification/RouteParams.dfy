/** The parameters of a matched route, and putting them back into the pattern. */
module RouteParams {
  import opened Paths
  import opened RouteTree
  import opened Routes

  type Bindings = map<string, string>

  /** A catch-all with a name. */
  predicate NamedStar(part: string) { Starred(part) && |part| > 1 }

  predicate Named(part: string) { KindOf(part).Param? || NamedStar(part) }

  /** A catch-all, if there is one, has a name. */
  predicate StarNamed(parts: seq<string>) {
    parts != [] && Starred(parts[|parts| - 1]) ==> NamedStar(parts[|parts| - 1])
  }

  /** What the loop of `getRoute` collects from part `i` on. */
  function Params(parts: seq<string>, segs: seq<string>, i: nat, m: Bindings): Bindings
    requires i <= |parts| <= |segs| && WellFormed(parts)
    decreases |parts| - i
  {
    if i == |parts| then m
    else if NamedStar(parts[i]) then m[parts[i][1..] := Join(segs[i..])]
    else if KindOf(parts[i]).Param? then Params(parts, segs, i + 1, m[parts[i][1..] := segs[i]])
    else Params(parts, segs, i + 1, m)
  }

  /** The pattern with its parameters put in. */
  function Substitute(parts: seq<string>, m: Bindings): (r: seq<string>)
    requires WellFormed(parts)
    ensures |r| == |parts|
  {
    seq(|parts|, i requires 0 <= i < |parts| =>
      if Named(parts[i]) && parts[i][1..] in m then m[parts[i][1..]] else parts[i])
  }

  /** The text a named part is matched with. */
  function Bound(parts: seq<string>, segs: seq<string>, i: nat): string
    requires i < |parts| <= |segs|
  {
    if Starred(parts[i]) then Join(segs[i..]) else segs[i]
  }

  ghost predicate DistinctNames(parts: seq<string>)
    requires WellFormed(parts)
  {
    forall i, j :: 0 <= i < j < |parts| && Named(parts[i]) && Named(parts[j]) ==> parts[i][1..] != parts[j][1..]
  }

  /** A name is bound to what the last part with that name is matched with. */
  lemma {:induction false} ParamsBind(parts: seq<string>, segs: seq<string>, i: nat, m: Bindings, j: nat)
    requires i <= |parts| <= |segs| && WellFormed(parts) && j < |parts| && Named(parts[j])
    requires forall k :: j < k < |parts| && Named(parts[k]) ==> parts[k][1..] != parts[j][1..]
    requires j < i ==> parts[j][1..] in m && m[parts[j][1..]] == Bound(parts, segs, j)
    ensures var r := Params(parts, segs, i, m);
      parts[j][1..] in r && r[parts[j][1..]] == Bound(parts, segs, j)
    decreases |parts| - i
  {
    if i < |parts| {
      if NamedStar(parts[i]) {
        assert i == |parts| - 1;
      } else if KindOf(parts[i]).Param? {
        ParamsBind(parts, segs, i + 1, m[parts[i][1..] := segs[i]], j);
      } else {
        ParamsBind(parts, segs, i + 1, m, j);
      }
    }
  }

  /** Part `i` has this name, and no later part has it. */
  predicate LastNamedAt(parts: seq<string>, i: nat, name: string) {
    && i < |parts| && Named(parts[i]) && parts[i][1..] == name
    && forall k :: i < k < |parts| && Named(parts[k]) ==> parts[k][1..] != name
  }

  lemma {:induction false} ParamsOnly(parts: seq<string>, segs: seq<string>, i: nat, m: Bindings, name: string)
    requires i <= |parts| <= |segs| && WellFormed(parts)
    ensures name in Params(parts, segs, i, m) ==>
      name in m || exists j :: i <= j < |parts| && Named(parts[j]) && parts[j][1..] == name
    decreases |parts| - i
  {
    if i < |parts| && !NamedStar(parts[i]) {
      ParamsOnly(parts, segs, i + 1, if KindOf(parts[i]).Param? then m[parts[i][1..] := segs[i]] else m, name);
    }
  }

  /** What is bound: exactly the names of the pattern, each to what the last part with that name is matched
      with, a catch-all to the rest of the path. */
  lemma ParamsExact(parts: seq<string>, segs: seq<string>, name: string)
    requires WellFormed(parts) && |parts| <= |segs|
    ensures var r := Params(parts, segs, 0, map[]);
      && (name in r <==> exists i: nat :: LastNamedAt(parts, i, name))
      && forall i: nat :: LastNamedAt(parts, i, name) ==>
           r[name] == if Starred(parts[i]) then Join(segs[i..]) else segs[i]
  {
    hide Params, Join;
    ParamsOnly(parts, segs, 0, map[], name);
    if j :| 0 <= j < |parts| && Named(parts[j]) && parts[j][1..] == name {
      var l := LastNamed(parts, j, j);
      assert LastNamedAt(parts, l, name);
    }
    forall i: nat | LastNamedAt(parts, i, name)
      ensures var r := Params(parts, segs, 0, map[]); name in r && r[name] == Bound(parts, segs, i)
    {
      ParamsBind(parts, segs, 0, map[], i);
    }
  }

  /** What matching says place by place. */
  lemma {:induction false} MatchesAt(parts: seq<string>, segs: seq<string>, i: nat)
    requires WellFormed(parts) && Matches(Kinds(parts), segs) && i < |parts|
    ensures |parts| <= |segs| && (KindOf(parts[i]).Lit? ==> segs[i] == parts[i])
    ensures !Starred(parts[|parts| - 1]) ==> |parts| == |segs|
    decreases |parts|
  {
    assert Kinds(parts)[1..] == Kinds(parts[1..]);
    if |parts| > 1 {
      MatchesAt(parts[1..], segs[1..], if i == 0 then 0 else i - 1);
    } else {
      assert Kinds(parts[1..]) == [];
    }
  }

  /** Every part is replaced by what it is matched with. */
  lemma SubstitutesBound(parts: seq<string>, segs: seq<string>, i: nat)
    requires WellFormed(parts) && Matches(Kinds(parts), segs) && DistinctNames(parts) && StarNamed(parts)
    requires i < |parts| <= |segs|
    ensures Substitute(parts, Params(parts, segs, 0, map[]))[i] == Bound(parts, segs, i)
  {
    hide Matches, Params, Join;
    MatchesAt(parts, segs, i);
    if Named(parts[i]) {
      ParamsBind(parts, segs, 0, map[], i);
    }
  }

  /** Round trip: if the names are distinct and a catch-all has a name, putting the parameters back
      into the pattern rebuilds the path. */
  lemma RoundTrip(parts: seq<string>, segs: seq<string>)
    requires WellFormed(parts) && Matches(Kinds(parts), segs) && DistinctNames(parts)
    requires StarNamed(parts)
    ensures |parts| <= |segs|
    ensures Join(Substitute(parts, Params(parts, segs, 0, map[]))) == Join(segs)
  {
    if parts == [] {
      assert Kinds(parts) == [];
    } else {
      hide Matches, Params, Substitute, Join, DistinctNames;
      MatchesAt(parts, segs, 0);
      var n := |parts| - 1;
      var sub := Substitute(parts, Params(parts, segs, 0, map[]));
      forall i | 0 <= i <= n
        ensures sub[i] == Bound(parts, segs, i)
      {
        SubstitutesBound(parts, segs, i);
      }
      Rejoin(sub, segs);
    }
  }

  /** All but the last as they were, and the last either too or all the rest in one. */
  lemma Rejoin(sub: seq<string>, segs: seq<string>)
    requires 0 < |sub| <= |segs| && forall i :: 0 <= i < |sub| - 1 ==> sub[i] == segs[i]
    requires var n := |sub| - 1; sub[n] == Join(segs[n..]) || (|segs| == |sub| && sub[n] == segs[n])
    ensures Join(sub) == Join(segs)
  {
    hide Join;
    var n := |sub| - 1;
    AllButLast(sub, segs);
    if sub[n] == Join(segs[n..]) {
      JoinTail(segs[..n], segs[n..]);
    }
  }

  lemma AllButLast<T>(a: seq<T>, b: seq<T>)
    requires 0 < |a| <= |b| && forall i :: 0 <= i < |a| - 1 ==> a[i] == b[i]
    ensures var n := |a| - 1; a == b[..n] + [a[n]] && b == b[..n] + b[n..]
    ensures |a| == |b| && a[|a| - 1] == b[|a| - 1] ==> a == b
  {
  }

  /** Two parameters of one name: the later value takes the place of the earlier. */
  lemma SameNameLoses()
    ensures var parts, segs := [":x", ":x"], ["a", "b"];
      && Matches(Kinds(parts), segs)
      && Substitute(parts, Params(parts, segs, 0, map[])) == ["b", "b"]
  {
    var parts, segs := [":x", ":x"], ["a", "b"];
    assert Kinds(parts) == [Param, Param];
    assert [Param, Param][1..] == [Param] && [Param][1..] == [];
    assert Params(parts, segs, 2, map["x" := "b"]) == map["x" := "b"];
    assert map["x" := "a"]["x" := "b"] == map["x" := "b"];
    assert Params(parts, segs, 0, map[]) == map["x" := "b"];
  }

  /** A catch-all without a name is lost. */
  lemma UnnamedStarLoses()
    ensures Matches(Kinds(["*"]), ["a"])
    ensures Substitute(["*"], Params(["*"], ["a"], 0, map[])) == ["*"]
  {
    assert Kinds(["*"]) == [Star];
  }

  // ---------- exactly when the round trip works ----------

  /** Putting the parameters back rebuilds every path that matches. */
  ghost predicate RoundTrips(parts: seq<string>)
    requires WellFormed(parts)
  {
    forall segs :: Matches(Kinds(parts), segs) ==>
      |parts| <= |segs| && Join(Substitute(parts, Params(parts, segs, 0, map[]))) == Join(segs)
  }

  /** A path that matches: one letter for each wildcard, another one at place `j`. */
  function Sample(parts: seq<string>, j: nat): (r: seq<string>)
    ensures |r| == |parts|
    ensures forall k :: 0 <= k < |r| ==>
      r[k] == if KindOf(parts[k]).Lit? then parts[k] else if k == j then "b" else "a"
  {
    seq(|parts|, k requires 0 <= k < |parts| =>
      if KindOf(parts[k]).Lit? then parts[k] else if k == j then "b" else "a")
  }

  lemma {:induction false} SampleMatches(parts: seq<string>, segs: seq<string>)
    requires WellFormed(parts) && |segs| == |parts|
    requires forall k :: 0 <= k < |parts| && KindOf(parts[k]).Lit? ==> segs[k] == parts[k]
    ensures Matches(Kinds(parts), segs)
    decreases |parts|
  {
    if parts != [] {
      assert Kinds(parts)[1..] == Kinds(parts[1..]);
      SampleMatches(parts[1..], segs[1..]);
    }
  }

  predicate Short(m: Bindings) { forall name :: name in m ==> |m[name]| == 1 }

  /** What is bound while every wildcard is matched with one letter is one letter long. */
  lemma {:induction false} ParamsShort(parts: seq<string>, segs: seq<string>, i: nat, m: Bindings)
    requires i <= |parts| == |segs| && WellFormed(parts)
    requires forall k :: 0 <= k < |parts| && !KindOf(parts[k]).Lit? ==> |segs[k]| == 1
    requires Short(m)
    ensures Short(Params(parts, segs, i, m))
    decreases |parts| - i
  {
    if i < |parts| {
      if NamedStar(parts[i]) {
        assert i == |parts| - 1 && segs[i..] == [segs[i]];
      } else if KindOf(parts[i]).Param? {
        var m' := m[parts[i][1..] := segs[i]];
        assert Short(m') by {
          assert |segs[i]| == 1;
        }
        ParamsShort(parts, segs, i + 1, m');
      } else {
        ParamsShort(parts, segs, i + 1, m);
      }
    }
  }

  /** Joining loses nothing when the lengths are known. */
  lemma {:induction false} JoinInjective(a: seq<string>, b: seq<string>)
    requires |a| == |b| && forall k :: 0 <= k < |a| ==> |a[k]| == |b[k]|
    requires Join(a) == Join(b)
    ensures a == b
  {
    if |a| > 1 {
      var n := |a[0]|;
      assert Join(a)[..n] == a[0] && Join(b)[..n] == b[0];
      assert Join(a)[n + 1..] == Join(a[1..]) && Join(b)[n + 1..] == Join(b[1..]);
      JoinInjective(a[1..], b[1..]);
      assert a == [a[0]] + a[1..] && b == [b[0]] + b[1..];
    } else if |a| == 1 {
      assert a == [Join(a)] && b == [Join(b)];
    }
  }

  lemma SameLength(parts: seq<string>, j: nat, m: Bindings, i: nat)
    requires WellFormed(parts) && i < |parts| && Short(m)
    requires Named(parts[i]) ==> parts[i][1..] in m
    ensures |Substitute(parts, m)[i]| == |Sample(parts, j)[i]|
  {
  }

  /** One part that is not rebuilt spoils the round trip of a sample. */
  lemma SampleFails(parts: seq<string>, j: nat, k: nat)
    requires WellFormed(parts) && k < |parts|
    requires Substitute(parts, Params(parts, Sample(parts, j), 0, map[]))[k] != Sample(parts, j)[k]
    ensures !RoundTrips(parts)
  {
    var segs := Sample(parts, j);
    var m := Params(parts, segs, 0, map[]);
    var sub := Substitute(parts, m);
    SampleMatches(parts, segs);
    ParamsShort(parts, segs, 0, map[]);
    forall i | 0 <= i < |parts| ensures |sub[i]| == |segs[i]| {
      if Named(parts[i]) {
        var l := LastNamed(parts, i, i);
        ParamsBind(parts, segs, 0, map[], l);
      }
      SameLength(parts, j, m, i);
    }
    hide Substitute, Sample, Params, Join, WellFormed, Matches;
    if Join(sub) == Join(segs) {
      JoinInjective(sub, segs);
    }
  }

  /** The last part with the name of part `i`. */
  lemma {:induction false} LastNamed(parts: seq<string>, i: nat, j: nat) returns (l: nat)
    requires i <= j < |parts| && Named(parts[i]) && Named(parts[j]) && parts[j][1..] == parts[i][1..]
    ensures j <= l < |parts| && Named(parts[l]) && parts[l][1..] == parts[i][1..]
    ensures forall k :: l < k < |parts| && Named(parts[k]) ==> parts[k][1..] != parts[l][1..]
    decreases |parts| - j
  {
    l := j;
    if k :| j < k < |parts| && Named(parts[k]) && parts[k][1..] == parts[i][1..] {
      l := LastNamed(parts, i, k);
    }
  }

  lemma SameNameFails(parts: seq<string>, i: nat, j: nat)
    requires WellFormed(parts) && i < j < |parts|
    requires Named(parts[i]) && Named(parts[j]) && parts[i][1..] == parts[j][1..]
    ensures !RoundTrips(parts)
  {
    var l := LastNamed(parts, i, j);
    var segs := Sample(parts, l);
    ParamsBind(parts, segs, 0, map[], l);
    if Starred(parts[l]) {
      assert l == |parts| - 1 && segs[l..] == [segs[l]];
    }
    assert Bound(parts, segs, l) == "b" && segs[i] == "a";
    SampleFails(parts, l, i);
  }

  /** For well-formed parts, the round trip works for all paths that match if and only if the names
      are distinct and a catch-all has a name. */
  lemma RoundTripsIff(parts: seq<string>)
    requires WellFormed(parts)
    ensures RoundTrips(parts) <==> DistinctNames(parts) && StarNamed(parts)
  {
    if DistinctNames(parts) && StarNamed(parts) {
      forall segs | Matches(Kinds(parts), segs)
        ensures |parts| <= |segs| && Join(Substitute(parts, Params(parts, segs, 0, map[]))) == Join(segs)
      {
        RoundTrip(parts, segs);
      }
    } else if !DistinctNames(parts) {
      var i, j :| 0 <= i < j < |parts| && Named(parts[i]) && Named(parts[j]) && parts[i][1..] == parts[j][1..];
      SameNameFails(parts, i, j);
    } else {
      SampleFails(parts, |parts| - 1, |parts| - 1);
    }
  }

  /** The whole of `getRoute`: with clash-free registrations the pattern returned takes its
      parameters back to the path. */
  lemma RouteRoundTrip(regs: seq<string>, path: string)
    requires ClashFree(regs) && Search(TreeOf(regs), Parts(path)).Some?
    ensures var parts := Parts(Search(TreeOf(regs), Parts(path)).value.pattern);
      && |parts| <= |Parts(path)|
      && (DistinctNames(parts) && StarNamed(parts) ==>
            Join(Substitute(parts, Params(parts, Parts(path), 0, map[]))) == Join(Parts(path)))
  {
    var p := Search(TreeOf(regs), Parts(path)).value.pattern;
    RouteSound(regs, Parts(path));
    SearchRegistered(regs, Parts(path));
    if DistinctNames(Parts(p)) && StarNamed(Parts(p)) {
      RoundTrip(Parts(p), Parts(path));
    }
  }
}
