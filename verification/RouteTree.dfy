/** The route trie as a value: insertion, search, and what relates them to the registered
    patterns. The class in `Trie` is proved to do the same. */
module RouteTree {
  import opened Options
  import opened Paths

  datatype Tree = Node(pattern: string, part: string, children: seq<Tree>, isWild: bool)

  /** What a part of a pattern matches: itself, one segment, or all remaining segments. */
  datatype Kind = Lit(s: string) | Param | Star

  function KindOf(part: string): Kind {
    if part != "" && part[0] == ':' then Param
    else if Starred(part) then Star
    else Lit(part)
  }

  function Kinds(ps: seq<string>): (r: seq<Kind>)
    ensures |r| == |ps| && forall i :: 0 <= i < |ps| ==> r[i] == KindOf(ps[i])
  {
    seq(|ps|, i requires 0 <= i < |ps| => KindOf(ps[i]))
  }

  predicate Accepts(t: Tree, part: string) { t.part == part || t.isWild }

  /** `matchChild`: the place of the first child that accepts the part, or the number of
      children. */
  function MatchFrom(cs: seq<Tree>, i: nat, part: string): (r: nat)
    requires i <= |cs|
    ensures i <= r <= |cs|
    ensures r < |cs| ==> Accepts(cs[r], part)
    ensures forall j :: i <= j < r ==> !Accepts(cs[j], part)
    decreases |cs| - i
  {
    if i == |cs| || Accepts(cs[i], part) then i else MatchFrom(cs, i + 1, part)
  }

  function Match(t: Tree, part: string): (r: nat)
    ensures r <= |t.children|
  {
    MatchFrom(t.children, 0, part)
  }

  function Child(part: string): Tree {
    Node("", part, [], KindOf(part) != Lit(part))
  }

  function Insert(t: Tree, pattern: string, ps: seq<string>): (r: Tree)
    ensures r.part == t.part && r.isWild == t.isWild
    decreases |ps|
  {
    if ps == [] then t.(pattern := pattern)
    else
      var i := Match(t, ps[0]);
      if i == |t.children| then t.(children := t.children + [Insert(Child(ps[0]), pattern, ps[1..])])
      else t.(children := t.children[i := Insert(t.children[i], pattern, ps[1..])])
  }

  /** `search` with the remaining path segments. */
  function Search(t: Tree, rest: seq<string>): Option<Tree>
    decreases |rest|, 1, 0
  {
    if rest == [] || Starred(t.part) then
      if t.pattern == "" then None else Some(t)
    else SearchFrom(t.children, 0, rest)
  }

  function SearchFrom(cs: seq<Tree>, i: nat, rest: seq<string>): Option<Tree>
    requires i <= |cs| && rest != []
    decreases |rest|, 0, |cs| - i
  {
    if i == |cs| then None
    else
      var r := if Accepts(cs[i], rest[0]) then Search(cs[i], rest[1..]) else None;
      if r.Some? then r else SearchFrom(cs, i + 1, rest)
  }

  /** `travel`: the nodes that hold a pattern. */
  function Labelled(t: Tree): seq<Tree>
    decreases t, 0
  {
    (if t.pattern != "" then [t] else []) + LabelledIn(t, |t.children|)
  }

  function LabelledIn(t: Tree, n: nat): seq<Tree>
    requires n <= |t.children|
    decreases t, 0, n
  {
    if n == 0 then [] else LabelledIn(t, n - 1) + Labelled(t.children[n - 1])
  }

  // ---------- the form of every trie, whatever was inserted ----------

  /** Only a last child is wild, and no two children are alike. */
  ghost predicate Siblings(cs: seq<Tree>) {
    && (forall i :: 0 <= i < |cs| - 1 ==> !cs[i].isWild)
    && (forall i, j :: 0 <= i < j < |cs| ==> cs[i].part != cs[j].part)
  }

  ghost predicate Shaped(t: Tree) {
    && (forall i :: 0 <= i < |t.children| ==>
          t.children[i].part != "" && (t.children[i].isWild <==> !KindOf(t.children[i].part).Lit?))
    && Siblings(t.children)
    && (forall i :: 0 <= i < |t.children| ==> Shaped(t.children[i]))
  }

  lemma {:induction false} InsertShaped(t: Tree, pattern: string, ps: seq<string>)
    requires Shaped(t) && forall i :: 0 <= i < |ps| ==> ps[i] != ""
    ensures Shaped(Insert(t, pattern, ps))
    decreases |ps|
  {
    if ps != [] {
      var i := Match(t, ps[0]);
      var c := if i == |t.children| then Child(ps[0]) else t.children[i];
      InsertShaped(c, pattern, ps[1..]);
      ChildShaped(t, i, Insert(c, pattern, ps[1..]), Insert(t, pattern, ps));
    }
  }

  /** A new child at the end, if no other accepts its part, or a changed one with its old part. */
  lemma ChildShaped(t: Tree, i: nat, c: Tree, t': Tree)
    requires Shaped(t) && Shaped(c) && i <= |t.children|
    requires t'.children == if i == |t.children| then t.children + [c] else t.children[i := c]
    requires if i < |t.children| then c.part == t.children[i].part && c.isWild == t.children[i].isWild
             else c.part != "" && (c.isWild <==> !KindOf(c.part).Lit?)
                  && forall j :: 0 <= j < i ==> !Accepts(t.children[j], c.part)
    ensures Shaped(t')
  {
    hide Siblings;
    if i == |t.children| { SiblingsGrow(t.children, c); } else { SiblingsKeep(t.children, i, c); }
  }

  lemma SiblingsGrow(cs: seq<Tree>, c: Tree)
    requires Siblings(cs) && forall j :: 0 <= j < |cs| ==> !Accepts(cs[j], c.part)
    ensures Siblings(cs + [c])
  {
    forall i | 0 <= i < |cs|
      ensures !cs[i].isWild && cs[i].part != c.part
    {
      assert !Accepts(cs[i], c.part);
    }
  }

  lemma SiblingsKeep(cs: seq<Tree>, i: nat, c: Tree)
    requires Siblings(cs) && i < |cs| && c.part == cs[i].part && c.isWild == cs[i].isWild
    ensures Siblings(cs[i := c])
  {
  }

  /** A node that holds a pattern is as deep as the pattern has parts. */
  ghost predicate DepthOk(t: Tree, d: nat) {
    && (t.pattern != "" ==> |Parts(t.pattern)| == d)
    && (forall i :: 0 <= i < |t.children| ==> DepthOk(t.children[i], d + 1))
  }

  lemma {:induction false} InsertDepth(t: Tree, d: nat, pattern: string, ps: seq<string>)
    requires DepthOk(t, d) && |Parts(pattern)| == d + |ps|
    ensures DepthOk(Insert(t, pattern, ps), d)
    decreases |ps|
  {
    if ps != [] {
      var i := Match(t, ps[0]);
      var c := if i == |t.children| then Child(ps[0]) else t.children[i];
      InsertDepth(c, d + 1, pattern, ps[1..]);
    }
  }

  /** All patterns in the trie are among `names`. */
  ghost predicate AllIn(t: Tree, names: set<string>) {
    && (t.pattern != "" ==> t.pattern in names)
    && (forall i :: 0 <= i < |t.children| ==> AllIn(t.children[i], names))
  }

  lemma {:induction false} AllInMore(t: Tree, names: set<string>, more: set<string>)
    requires AllIn(t, names) && names <= more
    ensures AllIn(t, more)
    decreases t
  {
    forall i | 0 <= i < |t.children|
      ensures AllIn(t.children[i], more)
    {
      AllInMore(t.children[i], names, more);
    }
  }

  lemma {:induction false} InsertAllIn(t: Tree, names: set<string>, pattern: string, ps: seq<string>)
    requires AllIn(t, names) && pattern in names
    ensures AllIn(Insert(t, pattern, ps), names)
    decreases |ps|
  {
    if ps != [] {
      var i := Match(t, ps[0]);
      var c := if i == |t.children| then Child(ps[0]) else t.children[i];
      InsertAllIn(c, names, pattern, ps[1..]);
    }
  }

  /** Whatever was inserted, a search returns a node with a registered pattern that has no more
      parts than the path has segments. */
  lemma {:induction false} SearchSafe(t: Tree, d: nat, names: set<string>, rest: seq<string>)
    requires DepthOk(t, d) && AllIn(t, names) && Search(t, rest).Some?
    ensures var p := Search(t, rest).value.pattern;
      p != "" && p in names && |Parts(p)| <= d + |rest|
    decreases |rest|, 1, 0
  {
    if rest != [] && !Starred(t.part) { SearchFromSafe(t.children, 0, d, names, rest); }
  }

  lemma {:induction false} SearchFromSafe(cs: seq<Tree>, i: nat, d: nat, names: set<string>, rest: seq<string>)
    requires i <= |cs| && rest != [] && SearchFrom(cs, i, rest).Some?
    requires forall j :: 0 <= j < |cs| ==> DepthOk(cs[j], d + 1) && AllIn(cs[j], names)
    ensures var p := SearchFrom(cs, i, rest).value.pattern;
      p != "" && p in names && |Parts(p)| <= d + |rest|
    decreases |rest|, 0, |cs| - i
  {
    if Accepts(cs[i], rest[0]) && Search(cs[i], rest[1..]).Some? {
      SearchSafe(cs[i], d + 1, names, rest[1..]);
    } else {
      SearchFromSafe(cs, i + 1, d, names, rest);
    }
  }

  // ---------- what a trie stores ----------

  function KindFrom(cs: seq<Tree>, i: nat, k: Kind): (r: nat)
    requires i <= |cs|
    ensures i <= r <= |cs| && (r < |cs| ==> KindOf(cs[r].part) == k)
    ensures forall j :: i <= j < r ==> KindOf(cs[j].part) != k
    decreases |cs| - i
  {
    if i == |cs| || KindOf(cs[i].part) == k then i else KindFrom(cs, i + 1, k)
  }

  /** The pattern stored under a list of kinds, empty if there is none. */
  function Get(t: Tree, q: seq<Kind>): string
    decreases |q|
  {
    if q == [] then t.pattern
    else
      var i := KindFrom(t.children, 0, q[0]);
      if i == |t.children| then "" else Get(t.children[i], q[1..])
  }

  /** No insertion step takes a child of another kind than the part asks for. */
  predicate NoClash(t: Tree, ps: seq<string>)
    decreases |ps|
  {
    ps == [] ||
    var i := Match(t, ps[0]);
    i == |t.children| || (KindOf(t.children[i].part) == KindOf(ps[0]) && NoClash(t.children[i], ps[1..]))
  }

  /** In a shaped trie a kind occurs at one place. */
  lemma KindAt(t: Tree, i: nat)
    requires Shaped(t) && i < |t.children|
    ensures KindFrom(t.children, 0, KindOf(t.children[i].part)) == i
  {
    var j := KindFrom(t.children, 0, KindOf(t.children[i].part));
    assert j <= i;
  }

  /** Without a clash, the child taken is the one of the right kind. */
  lemma MatchIsKind(t: Tree, part: string)
    requires Shaped(t) && part != ""
    requires var i := Match(t, part); i == |t.children| || KindOf(t.children[i].part) == KindOf(part)
    ensures KindFrom(t.children, 0, KindOf(part)) == Match(t, part)
  {
    var i, j := Match(t, part), KindFrom(t.children, 0, KindOf(part));
    if i < |t.children| {
      KindAt(t, i);
    } else if j < |t.children| {
      assert Accepts(t.children[j], part);
    }
  }

  lemma {:induction false} GetChild(part: string, q: seq<Kind>)
    ensures Get(Child(part), q) == ""
  {
  }

  /** Insertion without a clash stores the pattern under its kinds and nothing else changes. */
  lemma {:induction false} InsertGet(t: Tree, pattern: string, ps: seq<string>, q: seq<Kind>)
    requires Shaped(t) && NoClash(t, ps) && forall i :: 0 <= i < |ps| ==> ps[i] != ""
    ensures Get(Insert(t, pattern, ps), q) == if q == Kinds(ps) then pattern else Get(t, q)
    decreases |ps|
  {
    if ps != [] && q != [] {
      var cs, i, k := t.children, Match(t, ps[0]), KindOf(ps[0]);
      MatchIsKind(t, ps[0]);
      var c := if i == |cs| then Child(ps[0]) else cs[i];
      var cs' := Insert(t, pattern, ps).children;
      assert q == Kinds(ps) <==> q[0] == k && q[1..] == Kinds(ps[1..]) by {
        assert Kinds(ps) == [k] + Kinds(ps[1..]);
        assert q == [q[0]] + q[1..];
      }
      KindOfGrown(cs, cs', q[0]);
      if q[0] == k {
        InsertGet(c, pattern, ps[1..], q[1..]);
        GetChild(ps[0], q[1..]);
      }
    }
  }

  /** Changing a child below its part, or adding one at the end, moves no kind. */
  lemma KindOfGrown(cs: seq<Tree>, cs': seq<Tree>, k: Kind)
    requires |cs| <= |cs'| <= |cs| + 1
    requires forall i :: 0 <= i < |cs| ==> cs'[i].part == cs[i].part
    ensures var i := KindFrom(cs, 0, k);
      KindFrom(cs', 0, k) ==
        if i < |cs| then i
        else if |cs'| > |cs| && KindOf(cs'[|cs|].part) == k then |cs| else |cs'|
  {
    var i, j := KindFrom(cs, 0, k), KindFrom(cs', 0, k);
    if i < |cs| {
      assert KindOf(cs'[i].part) == k;
    }
  }

  // ---------- search finds exactly what matches ----------

  /** The declarative matching relation. */
  predicate Matches(q: seq<Kind>, segs: seq<string>)
    decreases |q|
  {
    if q == [] then segs == []
    else
      segs != [] &&
      match q[0]
      case Star => |q| == 1
      case Param => Matches(q[1..], segs[1..])
      case Lit(s) => segs[0] == s && Matches(q[1..], segs[1..])
  }

  lemma {:induction false} SearchSound(t: Tree, rest: seq<string>) returns (q: seq<Kind>)
    requires Shaped(t) && !Starred(t.part) && Search(t, rest).Some?
    ensures Get(t, q) == Search(t, rest).value.pattern != "" && Matches(q, rest)
    decreases |rest|
  {
    q := [];
    if rest != [] {
      var i := FoundAt(t.children, 0, rest);
      var c := t.children[i];
      KindAt(t, i);
      if Starred(c.part) {
        q := [Star];
      } else {
        var q' := SearchSound(c, rest[1..]);
        q := [KindOf(c.part)] + q';
        assert q[1..] == q';
      }
    }
  }

  lemma {:induction false} FoundAt(cs: seq<Tree>, i: nat, rest: seq<string>) returns (j: nat)
    requires i <= |cs| && rest != [] && SearchFrom(cs, i, rest).Some?
    ensures i <= j < |cs| && Accepts(cs[j], rest[0])
    ensures Search(cs[j], rest[1..]) == SearchFrom(cs, i, rest)
    decreases |cs| - i
  {
    if Accepts(cs[i], rest[0]) && Search(cs[i], rest[1..]).Some? {
      j := i;
    } else {
      j := FoundAt(cs, i + 1, rest);
    }
  }

  lemma {:induction false} FoundIf(cs: seq<Tree>, i: nat, rest: seq<string>, j: nat)
    requires i <= j < |cs| && rest != []
    requires Accepts(cs[j], rest[0]) && Search(cs[j], rest[1..]).Some?
    ensures SearchFrom(cs, i, rest).Some?
    decreases j - i
  {
    if i < j { FoundIf(cs, i + 1, rest, j); }
  }

  lemma {:induction false} SearchComplete(t: Tree, rest: seq<string>, q: seq<Kind>)
    requires Shaped(t) && !Starred(t.part)
    requires Get(t, q) != "" && Matches(q, rest)
    ensures Search(t, rest).Some?
    decreases |q|
  {
    if q != [] {
      var i := KindFrom(t.children, 0, q[0]);
      var c := t.children[i];
      assert Accepts(c, rest[0]);
      if !Starred(c.part) {
        SearchComplete(c, rest[1..], q[1..]);
      }
      FoundIf(t.children, 0, rest, i);
    }
  }
}
