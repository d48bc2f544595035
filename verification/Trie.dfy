/** The route trie as linked nodes. */
module Trie {
  import opened Options
  import opened Paths
  import opened RouteTree

  class TrieNode {
    var pattern: string
    var part: string
    var children: seq<TrieNode>
    var isWild: bool
    ghost var Repr: set<object>
    /** The value this node and everything below it represents. */
    ghost var tree: Tree

    ghost predicate Valid()
      reads this, Repr
      decreases Repr
      ensures Valid() ==> this in Repr
    {
      && this in Repr
      && Below()
      && (forall i :: 0 <= i < |children| ==> children[i].Valid())
      && Represents()
    }

    /** The subtrees are part of this node's memory and share nothing. */
    ghost predicate Below()
      reads this, Repr
    {
      && (forall i :: 0 <= i < |children| ==>
            children[i] in Repr && children[i].Repr <= Repr && this !in children[i].Repr)
      && (forall i, j :: 0 <= i < j < |children| ==> children[i].Repr !! children[j].Repr)
    }

    ghost predicate Represents()
      reads this, children
    {
      && tree.pattern == pattern && tree.part == part && tree.isWild == isWild
      && |tree.children| == |children|
      && forall i :: 0 <= i < |children| ==> children[i].tree == tree.children[i]
    }

    constructor (part: string, isWild: bool)
      ensures Valid() && fresh(Repr) && tree == Node("", part, [], isWild)
    {
      this.pattern, this.part, this.children, this.isWild := "", part, [], isWild;
      tree := Node("", part, [], isWild);
      Repr := {this};
    }

    method MatchChild(part: string) returns (child: TrieNode?, ghost i: nat)
      requires Valid()
      ensures var j := Match(tree, part); child == if j < |children| then children[j] else null
      ensures i == Match(tree, part)
    {
      for k := 0 to |children|
        invariant MatchFrom(tree.children, 0, part) == MatchFrom(tree.children, k, part)
      {
        if children[k].part == part || children[k].isWild {
          return children[k], k;
        }
      }
      return null, |children|;
    }

    /** Appends a new, empty child. */
    method AddChild(part: string) returns (child: TrieNode)
      requires Valid() && part != ""
      modifies this
      ensures Valid() && fresh(Repr - old(Repr))
      ensures children == old(children) + [child]
      ensures tree == old(tree).(children := old(tree).children + [Child(part)])
    {
      child := new TrieNode(part, part[0] == ':' || part[0] == '*');
      children := children + [child];
      Repr := Repr + child.Repr;
      tree := tree.(children := tree.children + [child.tree]);
    }

    /** Takes in what child `i` has grown by. */
    ghost method Absorb(i: nat)
      requires i < |children| && this in Repr
      requires forall k :: 0 <= k < |children| ==> this !in children[k].Repr && children[k].Valid()
      requires forall k :: 0 <= k < |children| && k != i ==> children[k].Repr <= Repr
      requires forall j, k :: 0 <= j < k < |children| ==> children[j].Repr !! children[k].Repr
      requires Represents()
      modifies `Repr
      ensures Valid() && Repr == old(Repr) + children[i].Repr
    {
      Repr := Repr + children[i].Repr;
    }

    /** Inserts below child `i`. */
    method InsertBelow(child: TrieNode, ghost i: nat, pattern: string, parts: seq<string>, height: nat)
      requires Valid() && i < |children| && child == children[i] && height <= |parts|
      requires forall k :: 0 <= k < |parts| ==> parts[k] != ""
      modifies Repr
      ensures Valid() && fresh(Repr - old(Repr))
      ensures tree == old(tree).(children :=
        old(tree).children[i := RouteTree.Insert(old(tree).children[i], pattern, parts[height..])])
      decreases |parts| - height, 2
    {
      hide RouteTree.Insert;
      tree := tree.(children := tree.children[i := RouteTree.Insert(tree.children[i], pattern, parts[height..])]);
      child.Insert(pattern, parts, height);
      assert forall k :: 0 <= k < |children| && k != i ==>
        children[k].Valid() && children[k].Repr == old(children[k].Repr) && children[k].tree == tree.children[k];
      Absorb(i);
    }

    method Insert(pattern: string, parts: seq<string>, height: nat)
      requires Valid() && height <= |parts|
      requires forall i :: 0 <= i < |parts| ==> parts[i] != ""
      modifies Repr
      ensures Valid() && fresh(Repr - old(Repr))
      ensures tree == RouteTree.Insert(old(tree), pattern, parts[height..])
      decreases |parts| - height, 1
    {
      if |parts| == height {
        this.pattern := pattern;
        tree := tree.(pattern := pattern);
        return;
      }
      hide Below;
      var part := parts[height];
      ghost var t, rest := tree, parts[height..];
      assert rest[0] == part && rest[1..] == parts[height + 1..];
      var child, i := MatchChild(part);
      if child == null {
        child := AddChild(part);
        assert (t.children + [Child(part)])[i := RouteTree.Insert(Child(part), pattern, rest[1..])]
            == t.children + [RouteTree.Insert(Child(part), pattern, rest[1..])];
      }
      InsertBelow(child, i, pattern, parts, height + 1);
    }

    method MatchChildren(part: string) returns (nodes: seq<TrieNode>)
      requires Valid()
      ensures forall k :: 0 <= k < |nodes| ==> nodes[k] in children
      ensures Trees(nodes) == Accepting(tree.children, |children|, part)
    {
      nodes := [];
      for i := 0 to |children|
        invariant forall k :: 0 <= k < |nodes| ==> nodes[k] in children
        invariant Trees(nodes) == Accepting(tree.children, i, part)
      {
        if children[i].part == part || children[i].isWild {
          TreesConcat(nodes, [children[i]]);
          nodes := nodes + [children[i]];
        }
      }
    }

    method Search(parts: seq<string>, height: nat) returns (n: TrieNode?)
      requires Valid() && height <= |parts|
      ensures n == null <==> RouteTree.Search(tree, parts[height..]) == None
      ensures n != null ==>
        n in Repr && n.Valid() && Some(n.tree) == RouteTree.Search(tree, parts[height..])
      decreases |parts| - height
    {
      hide RouteTree.SearchFrom, Accepting;
      ghost var rest := parts[height..];
      if |parts| == height || Starred(this.part) {
        if pattern == "" {
          return null;
        }
        return this;
      }
      assert rest[0] == parts[height] && rest[1..] == parts[height + 1..];
      var nodes := MatchChildren(parts[height]);
      ghost var ts := Trees(nodes);
      SearchIsFirst(tree.children, rest);
      for k := 0 to |nodes|
        invariant FirstOf(ts[..k], rest[1..]) == None
      {
        assert ts[..k + 1][..k] == ts[..k];
        var result := nodes[k].Search(parts, height + 1);
        if result != null {
          FirstStays(ts, k + 1, rest[1..]);
          return result;
        }
      }
      assert ts[..|nodes|] == ts;
      return null;
    }

    /** Appends the nodes that hold a pattern, this one first. */
    method Travel(list: seq<TrieNode>) returns (r: seq<TrieNode>)
      requires Valid()
      ensures Trees(r) == Trees(list) + Labelled(tree)
      decreases Repr
    {
      r := list;
      if pattern != "" {
        TreesConcat(r, [this]);
        r := r + [this];
      }
      ghost var own := Trees(r);
      for i := 0 to |children|
        invariant Trees(r) == own + LabelledIn(tree, i)
      {
        r := children[i].Travel(r);
      }
    }
  }

  ghost function Trees(ns: seq<TrieNode>): (r: seq<Tree>)
    reads ns
    ensures |r| == |ns| && forall i :: 0 <= i < |ns| ==> r[i] == ns[i].tree
  {
    seq(|ns|, i requires 0 <= i < |ns| reads ns => ns[i].tree)
  }

  lemma TreesConcat(a: seq<TrieNode>, b: seq<TrieNode>)
    ensures Trees(a + b) == Trees(a) + Trees(b)
  {
  }

  /** What `matchChildren` selects among the first `n` children. */
  function Accepting(cs: seq<Tree>, n: nat, part: string): seq<Tree>
    requires n <= |cs|
  {
    if n == 0 then []
    else Accepting(cs, n - 1, part) + if Accepts(cs[n - 1], part) then [cs[n - 1]] else []
  }

  /** The first hit below a list of trees. */
  function FirstOf(ts: seq<Tree>, rest: seq<string>): Option<Tree> {
    if ts == [] then None
    else
      var r := FirstOf(ts[..|ts| - 1], rest);
      if r.Some? then r else RouteTree.Search(ts[|ts| - 1], rest)
  }

  lemma {:induction false} FirstStays(ts: seq<Tree>, k: nat, rest: seq<string>)
    requires k <= |ts| && FirstOf(ts[..k], rest).Some?
    ensures FirstOf(ts, rest) == FirstOf(ts[..k], rest)
    decreases |ts|
  {
    if k < |ts| {
      assert ts[..|ts| - 1][..k] == ts[..k];
      FirstStays(ts[..|ts| - 1], k, rest);
    } else {
      assert ts[..k] == ts;
    }
  }

  lemma {:induction false} FirstFrom(cs: seq<Tree>, n: nat, rest: seq<string>)
    requires n <= |cs| && rest != []
    ensures var r := FirstOf(Accepting(cs, n, rest[0]), rest[1..]);
      SearchFrom(cs, 0, rest) == if r.Some? then r else SearchFrom(cs, n, rest)
  {
    if n > 0 {
      FirstFrom(cs, n - 1, rest);
      var a := Accepting(cs, n - 1, rest[0]);
      if Accepts(cs[n - 1], rest[0]) {
        assert (a + [cs[n - 1]])[..|a|] == a;
      } else {
        assert a + [] == a;
      }
    }
  }

  lemma SearchIsFirst(cs: seq<Tree>, rest: seq<string>)
    requires rest != []
    ensures SearchFrom(cs, 0, rest) == FirstOf(Accepting(cs, |cs|, rest[0]), rest[1..])
  {
    FirstFrom(cs, |cs|, rest);
  }
}
