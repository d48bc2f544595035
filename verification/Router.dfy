/** The router: a trie and a handler table for each HTTP method. */
module Router {
  import opened Paths
  import opened Options
  import opened RouteTree
  import opened Routes
  import opened RouteParams
  import opened Trie

  function HandlerKey(verb: string, pattern: string): string { verb + "-" + pattern }

  /** Keys of verbs without a dash never run into each other. */
  lemma {:induction false} HandlerKeyInjective(v: string, p: string, v': string, p': string)
    requires '-' !in v && '-' !in v' && HandlerKey(v, p) == HandlerKey(v', p')
    ensures v == v' && p == p'
  {
    FirstDash(v, p);
    FirstDash(v', p');
    var k := HandlerKey(v, p);
    assert v == k[..|v|] && v' == k[..|v'|];
    assert p == k[|v| + 1..] && p' == k[|v'| + 1..];
  }

  lemma FirstDash(v: string, p: string)
    requires '-' !in v
    ensures var k := HandlerKey(v, p);
      |v| < |k| && k[|v|] == '-' && forall i :: 0 <= i < |v| ==> k[i] != '-'
  {
  }

  /** Every registered pattern has a handler. */
  ghost predicate Handled<H>(regs: map<string, seq<string>>, handlers: map<string, H>) {
    forall v :: v in regs ==> forall p :: p in regs[v] ==> HandlerKey(v, p) in handlers
  }

  lemma HandledNone<H>(regs: map<string, seq<string>>, handlers: map<string, H>, verb: string)
    requires Handled(regs, handlers)
    ensures Handled(regs[verb := []], handlers)
  {
  }

  lemma HandledMore<H>(regs: map<string, seq<string>>, handlers: map<string, H>, verb: string, p: string, h: H)
    requires Handled(regs, handlers) && verb in regs
    ensures Handled(regs[verb := regs[verb] + [p]], handlers[HandlerKey(verb, p) := h])
  {
  }

  /** The memory of the tries: within `repr`, away from the router, and pairwise disjoint. */
  ghost predicate Apart(own: map<string, set<object>>, repr: set<object>, self: object) {
    && self in repr
    && (forall v :: v in own ==> own[v] <= repr && self !in own[v])
    && (forall v, w :: v in own && w in own && v != w ==> own[v] !! own[w])
  }

  lemma ApartAt(own: map<string, set<object>>, repr: set<object>, self: object, v: string)
    requires Apart(own, repr, self) && v in own
    ensures own[v] <= repr && self !in own[v]
    ensures forall w :: w in own && w != v ==> own[w] !! own[v]
  {
  }

  /** A trie may take in memory that nothing else used. */
  lemma ApartGrow(own: map<string, set<object>>, repr: set<object>, self: object, v: string, more: set<object>)
    requires Apart(own, repr, self)
    requires v in own ==> more - own[v] !! repr
    requires v !in own ==> more !! repr
    ensures Apart(own[v := more], repr + more, self)
  {
  }

  /** The trie of `root` lives in `own` and represents the patterns `ps`. */
  ghost predicate Serves(root: TrieNode, own: set<object>, ps: seq<string>)
    reads root, own
  {
    root in own && root.Repr == own && root.Valid() && root.tree == TreeOf(ps)
  }

  /** Every method's trie serves its patterns, within `repr`. */
  ghost predicate Serving(roots: map<string, TrieNode>, own: map<string, set<object>>, regs: map<string, seq<string>>,
                          repr: set<object>)
    reads repr
  {
    forall v :: v in roots ==>
      v in own && v in regs && roots[v] in own[v] && own[v] <= repr && Serves(roots[v], own[v], regs[v])
  }

  /** The other tries do not use the memory of this one. */
  lemma ServingApart(roots: map<string, TrieNode>, own: map<string, set<object>>, regs: map<string, seq<string>>,
                     repr: set<object>, verb: string)
    requires Serving(roots, own, regs, repr) && verb in own
    requires forall w :: w in own && w != verb ==> own[w] !! own[verb]
    ensures Serving(roots - {verb}, own, regs, repr - own[verb])
  {
    hide Serves;
  }

  lemma ServingMore(roots: map<string, TrieNode>, own: map<string, set<object>>, regs: map<string, seq<string>>,
                    repr: set<object>, verb: string, root: TrieNode, more: set<object>, ps: seq<string>)
    requires Serving(roots - {verb}, own, regs, repr)
    requires root in more && Serves(root, more, ps)
    ensures Serving(roots[verb := root], own[verb := more], regs[verb := ps], repr + more)
  {
    hide Serves;
  }

  lemma ServingWider(roots: map<string, TrieNode>, own: map<string, set<object>>, regs: map<string, seq<string>>,
                     repr: set<object>, repr': set<object>)
    requires Serving(roots, own, regs, repr) && repr <= repr'
    ensures Serving(roots, own, regs, repr')
  {
    hide Serves;
  }

  lemma ServingAt(roots: map<string, TrieNode>, own: map<string, set<object>>, regs: map<string, seq<string>>,
                  repr: set<object>, verb: string)
    requires Serving(roots, own, regs, repr) && verb in roots
    ensures verb in own && verb in regs && own[verb] <= repr && Serves(roots[verb], own[verb], regs[verb])
  {
    hide Serves;
  }

  lemma Widened(repr: set<object>, own: set<object>, more: set<object>, self: object)
    requires own <= repr && self !in own && self !in more
    ensures repr + more - repr <= more - own
    ensures repr - {self} - own + more <= repr + more - {self}
  {
  }

  function Opened(regs: map<string, seq<string>>, verb: string): map<string, seq<string>> {
    if verb in regs then regs else regs[verb := []]
  }

  /** The registrations after one more. */
  function Registered(regs: map<string, seq<string>>, verb: string, pattern: string): map<string, seq<string>> {
    var rs := Opened(regs, verb);
    rs[verb := rs[verb] + [pattern]]
  }

  class Router<H> {
    var roots: map<string, TrieNode>
    var handlers: map<string, H>
    ghost var Repr: set<object>
    /** The patterns registered for each method, in order. */
    ghost var regs: map<string, seq<string>>
    /** The memory of each method's trie. */
    ghost var own: map<string, set<object>>

    ghost predicate Valid()
      reads this, Repr
    {
      && Apart(own, Repr, this)
      && roots.Keys == regs.Keys && own.Keys == regs.Keys
      && Serving(roots, own, regs, Repr - {this})
      && Handled(regs, handlers)
    }

    constructor ()
      ensures Valid() && fresh(Repr) && regs == map[] && handlers == map[]
    {
      roots, handlers, regs, own := map[], map[], map[], map[];
      Repr := {this};
    }

    /** Makes sure there is a trie for the method. */
    method Root(verb: string) returns (root: TrieNode)
      requires Valid()
      modifies this
      ensures Valid() && fresh(Repr - old(Repr)) && handlers == old(handlers)
      ensures verb in roots && root == roots[verb]
      ensures regs == Opened(old(regs), verb)
    {
      hide Handled, TreeOf, TrieNode.Valid, Apart, Serving, Serves;
      if verb in roots {
        return roots[verb];
      }
      root := new TrieNode("", false);
      NewServes(root);
      assert roots - {verb} == roots;
      ServingMore(roots, own, regs, Repr - {this}, verb, root, root.Repr, []);
      assert Repr - {this} + root.Repr == Repr + root.Repr - {this};
      ApartGrow(own, Repr, this, verb, root.Repr);
      HandledNone(regs, handlers, verb);
      roots, own, regs, Repr := roots[verb := root], own[verb := root.Repr], regs[verb := []], Repr + root.Repr;
    }

    method AddRoute(verb: string, pattern: string, handler: H)
      requires Valid()
      modifies Repr
      ensures Valid() && fresh(Repr - old(Repr))
      ensures handlers == old(handlers)[HandlerKey(verb, pattern) := handler]
      ensures regs == Registered(old(regs), verb, pattern)
    {
      hide TreeOf, Handled, Apart, Serves, Serving, TrieNode.Valid;
      ApartSelf(own, Repr, this);
      var parts := ParsePattern(pattern);
      var key := verb + "-" + pattern;
      var root := Root(verb);
      Register(verb, root, pattern, parts, key, handler);
    }

    /** Inserts into the method's trie and files the handler. */
    method Register(verb: string, root: TrieNode, pattern: string, parts: seq<string>, key: string, handler: H)
      requires Valid() && verb in roots && root == roots[verb] && parts == Parts(pattern)
      requires key == HandlerKey(verb, pattern)
      modifies Repr
      ensures Valid() && fresh(Repr - old(Repr)) && handlers == old(handlers)[key := handler]
      ensures regs == old(regs)[verb := old(regs)[verb] + [pattern]]
    {
      hide TreeOf, Handled, Apart, Serves, Serving, TrieNode.Valid;
      ApartSelf(own, Repr, this);
      ApartAt(own, Repr, this, verb);
      HandledMore(regs, handlers, verb, pattern, handler);
      ghost var rest := Repr - {this};
      ServingApart(roots, own, regs, rest, verb);
      ServingAt(roots, own, regs, rest, verb);
      InsertAt(root, own[verb], regs[verb], pattern, parts);
      handlers := handlers[key := handler];
      Absorb(verb, root, pattern);
    }

    /** Takes in what the method's trie has grown by, and the new pattern. */
    ghost method Absorb(verb: string, root: TrieNode, pattern: string)
      requires roots.Keys == regs.Keys && own.Keys == regs.Keys && verb in roots && roots[verb] == root
      requires Apart(own, Repr, this) && own[verb] <= Repr
      requires root.Repr - own[verb] !! Repr && this !in own[verb]
      requires Serving(roots - {verb}, own, regs, Repr - {this} - own[verb])
      requires root in root.Repr && Serves(root, root.Repr, regs[verb] + [pattern]) && this !in root.Repr
      requires Handled(regs[verb := regs[verb] + [pattern]], handlers)
      modifies `own, `regs, `Repr
      ensures Valid() && Repr == old(Repr) + root.Repr
      ensures regs == old(regs)[verb := old(regs)[verb] + [pattern]]
    {
      hide TreeOf, Handled, Apart, Serves, Serving, TrieNode.Valid;
      ghost var own', regs' := own[verb := root.Repr], regs[verb := regs[verb] + [pattern]];
      ghost var rest := Repr - {this} - own[verb];
      Widened(Repr, own[verb], root.Repr, this);
      ServingMore(roots, own, regs, rest, verb, root, root.Repr, regs[verb] + [pattern]);
      assert roots[verb := root] == roots;
      ServingWider(roots, own', regs', rest + root.Repr, Repr + root.Repr - {this});
      ApartGrow(own, Repr, this, verb, root.Repr);
      own, regs, Repr := own', regs', Repr + root.Repr;
    }

    /** The node found for a path, if any, and the parameters. */
    method GetRoute(verb: string, path: string) returns (n: TrieNode?, params: Bindings)
      requires Valid()
      ensures verb !in roots ==> n == null && params == map[]
      ensures verb in roots ==>
        var found := Search(TreeOf(regs[verb]), Parts(path));
        && (n == null <==> found == None)
        && (n == null ==> params == map[])
        && (n != null ==>
              && n.tree == found.value && n.pattern == found.value.pattern
              && n.pattern in regs[verb] && HandlerKey(verb, n.pattern) in handlers
              && |Parts(n.pattern)| <= |Parts(path)|
              && params == Params(Parts(n.pattern), Parts(path), 0, map[]))
    {
      hide TreeOf;
      var searchParts := ParsePattern(path);
      params := map[];
      if verb !in roots {
        return null, map[];
      }
      n := roots[verb].Search(searchParts, 0);
      assert searchParts[0..] == searchParts;
      if n == null {
        return null, map[];
      }
      SearchRegistered(regs[verb], searchParts);
      assert n.pattern == n.tree.pattern;
      params := Collect(n.pattern, searchParts);
    }

    /** The loop of `getRoute` over the parts of the pattern. */
    method Collect(pattern: string, searchParts: seq<string>) returns (params: Bindings)
      requires |Parts(pattern)| <= |searchParts|
      ensures params == Params(Parts(pattern), searchParts, 0, map[])
    {
      var parts := ParsePattern(pattern);
      params := map[];
      for i := 0 to |parts|
        invariant Params(parts, searchParts, 0, map[]) == Params(parts, searchParts, i, params)
      {
        if parts[i][0] == ':' {
          params := params[parts[i][1..] := searchParts[i]];
        }
        if parts[i][0] == '*' && |parts[i]| > 1 {
          params := params[parts[i][1..] := Join(searchParts[i..])];
          return;
        }
      }
    }

    /** The nodes with a pattern, parents before children. */
    method GetRoutes(verb: string) returns (nodes: seq<TrieNode>)
      requires Valid()
      ensures verb !in roots ==> nodes == []
      ensures verb in roots ==> Trees(nodes) == Labelled(TreeOf(regs[verb]))
    {
      hide TreeOf, Labelled;
      if verb !in roots {
        return [];
      }
      nodes := roots[verb].Travel([]);
      assert Trees([]) == [];
    }
  }

  lemma NewServes(root: TrieNode)
    requires root.Valid() && root.tree == ROOT
    ensures root in root.Repr && Serves(root, root.Repr, [])
  {
    TreeOfNone();
  }

  lemma ApartSelf(own: map<string, set<object>>, repr: set<object>, self: object)
    requires Apart(own, repr, self)
    ensures self in repr
  {
  }

  /** `insert` on the trie that serves `ps` leaves one that serves `ps` and the new pattern. */
  method InsertAt(root: TrieNode, ghost own: set<object>, ghost ps: seq<string>, pattern: string, parts: seq<string>)
    requires Serves(root, own, ps) && parts == Parts(pattern)
    modifies own
    ensures root in root.Repr && fresh(root.Repr - own) && Serves(root, root.Repr, ps + [pattern])
  {
    hide TreeOf, TrieNode.Valid;
    root.Insert(pattern, parts, 0);
    TreeOfSnoc(ps, pattern);
    assert parts[0..] == parts;
  }
}
