/** The second consistent-hash ring: nodes come and go. */
module HashRing2 {
  import opened RingPoints

  function VirtualName(node: string, i: nat): string { node + "-" + Itoa(i) }

  /** Here a virtual name tells its node and its replica. */
  lemma VirtualNameInjective(a: string, i: nat, b: string, j: nat)
    requires VirtualName(a, i) == VirtualName(b, j)
    ensures a == b && i == j
  {
    var v := VirtualName(a, i);
    LastDash(a, i);
    LastDash(b, j);
    assert v == VirtualName(b, j);
    assert a == v[..|a|] && b == v[..|b|];
    assert Itoa(i) == v[|a| + 1..] && Itoa(j) == v[|b| + 1..];
    ItoaInjective(i, j);
  }

  lemma LastDash(a: string, i: nat)
    ensures var v := VirtualName(a, i);
      |a| < |v| && v[|a|] == '-' && forall k :: |a| < k < |v| ==> v[k] != '-'
  {
    var v := VirtualName(a, i);
    forall k | |a| < k < |v| ensures v[k] != '-' {
      assert v[k] == Itoa(i)[k - |a| - 1];
      ItoaDigits(i, v[k]);
    }
  }

  function Points(hash: string -> nat, node: string, n: int): (r: seq<nat>)
    ensures |r| == if n < 0 then 0 else n
    ensures forall i :: 0 <= i < |r| ==> r[i] == hash(VirtualName(node, i))
  {
    seq<nat>(if n < 0 then 0 else n, i requires 0 <= i => hash(VirtualName(node, i)))
  }

  /** The ring: its points, their owners, and how many replicas each node has. */
  datatype State = State(keys: seq<nat>, owners: map<nat, string>, replicas: map<string, int>)

  const EMPTY := State([], map[], map[])

  function AddNode(hash: string -> nat, s: State, node: string, n: int): State {
    var ps := Points(hash, node, n);
    State(s.keys + ps, Place(s.owners, ps, node), s.replicas[node := n])
  }

  /** The loop of `Add`, before the points are sorted again. */
  function AddNodes(hash: string -> nat, s: State, nodes: seq<string>, n: int): State {
    if nodes == [] then s
    else
      var s', last := AddNodes(hash, s, nodes[..|nodes| - 1], n), nodes[|nodes| - 1];
      if last == "" then s' else AddNode(hash, s', last, n)
  }

  function Added(hash: string -> nat, s: State, nodes: seq<string>, n: int): State {
    if nodes == [] then s
    else var s' := AddNodes(hash, s, nodes, n); s'.(keys := Sort(s'.keys))
  }

  /** Without the first occurrence of `p`. */
  function RemoveFirst(keys: seq<nat>, p: nat): seq<nat> {
    if keys == [] then []
    else if keys[0] == p then keys[1..]
    else [keys[0]] + RemoveFirst(keys[1..], p)
  }

  function RemoveEach(keys: seq<nat>, ps: seq<nat>): seq<nat> {
    if ps == [] then keys else RemoveFirst(RemoveEach(keys, ps[..|ps| - 1]), ps[|ps| - 1])
  }

  function ReplicasOf(s: State, node: string): int { if node in s.replicas then s.replicas[node] else 0 }

  /** Nothing happens for the empty name and for a node without replicas. */
  function Removed(hash: string -> nat, s: State, node: string): State {
    if node == "" || ReplicasOf(s, node) == 0 then s
    else
      var ps := Points(hash, node, s.replicas[node]);
      State(RemoveEach(s.keys, ps), s.owners - Set(ps), s.replicas - {node})
  }

  function Set(ps: seq<nat>): set<nat> { set p | p in ps }

  /** What `Get` answers at position `h`: a point without an owner yields the empty name. */
  ghost function Lookup(s: State, h: nat): string {
    if s.keys == [] then ""
    else
      assert s.keys[0] in Set(s.keys);
      var p := Successor(Set(s.keys), h);
      if p in s.owners then s.owners[p] else ""
  }

  lemma {:induction false} RemoveFirstCounts(keys: seq<nat>, p: nat)
    ensures multiset(RemoveFirst(keys, p)) == multiset(keys) - multiset{p}
  {
    if keys != [] {
      assert keys == [keys[0]] + keys[1..];
      if keys[0] != p {
        RemoveFirstCounts(keys[1..], p);
      }
    }
  }

  lemma {:induction false} RemoveFirstOrders(keys: seq<nat>, p: nat)
    requires Ordered(keys)
    ensures Ordered(RemoveFirst(keys, p))
  {
    if keys != [] && keys[0] != p {
      RemoveFirstOrders(keys[1..], p);
      var r := RemoveFirst(keys[1..], p);
      RemoveFirstCounts(keys[1..], p);
      forall i | 0 <= i < |r| ensures keys[0] <= r[i] {
        assert r[i] in multiset(r);
        assert r[i] in keys[1..];
      }
      hide RemoveFirst;
    }
  }

  lemma {:induction false} RemoveEachCounts(keys: seq<nat>, ps: seq<nat>)
    ensures multiset(RemoveEach(keys, ps)) == multiset(keys) - multiset(ps)
  {
    if ps != [] {
      var n := |ps| - 1;
      RemoveEachCounts(keys, ps[..n]);
      RemoveFirstCounts(RemoveEach(keys, ps[..n]), ps[n]);
      LastCount(ps);
    }
  }

  lemma LastCount(ps: seq<nat>)
    requires ps != []
    ensures var n := |ps| - 1; forall m: multiset<nat> :: m - multiset(ps) == m - multiset(ps[..n]) - multiset{ps[n]}
  {
    assert ps == ps[..|ps| - 1] + [ps[|ps| - 1]];
  }

  /** A removal takes one occurrence per replica, as far as there are any, and keeps the order. */
  lemma {:induction false} RemoveEachIs(keys: seq<nat>, ps: seq<nat>)
    ensures multiset(RemoveEach(keys, ps)) == multiset(keys) - multiset(ps)
    ensures Ordered(keys) ==> Ordered(RemoveEach(keys, ps))
  {
    RemoveEachCounts(keys, ps);
    if ps != [] && Ordered(keys) {
      RemoveEachIs(keys, ps[..|ps| - 1]);
      RemoveFirstOrders(RemoveEach(keys, ps[..|ps| - 1]), ps[|ps| - 1]);
    }
  }

  /** After a removal every point has an owner exactly when the node had no more copies of its points
      in the ring than the removal takes away. */
  lemma RemoveLeavesNoHoleIff(hash: string -> nat, s: State, node: string)
    requires Covers(s.keys, s.owners) && node != "" && ReplicasOf(s, node) != 0
    ensures var ps, s' := Points(hash, node, s.replicas[node]), Removed(hash, s, node);
      Covers(s'.keys, s'.owners) <==> forall p :: p in ps ==> multiset(s.keys)[p] <= multiset(ps)[p]
  {
    var ps, s' := Points(hash, node, s.replicas[node]), Removed(hash, s, node);
    RemoveEachIs(s.keys, ps);
    forall p ensures p in s'.keys <==> multiset(s.keys)[p] > multiset(ps)[p] {
      assert p in s'.keys <==> p in multiset(s'.keys);
    }
    forall p ensures p in s'.owners <==> p in s.keys && p !in ps {
    }
    forall p ensures p !in ps ==> (p in s'.keys <==> p in s.keys) {
      assert p !in ps ==> multiset(ps)[p] == 0;
      assert p in s.keys <==> multiset(s.keys)[p] > 0;
    }
    hide Removed, Points;
  }

  /** A node that was added twice and removed once leaves only holes: every lookup answers the empty name. */
  lemma AddedTwice(hash: string -> nat, node: string, n: int, h: nat)
    requires node != "" && n > 0
    ensures var s := Removed(hash, Added(hash, Added(hash, EMPTY, [node], n), [node], n), node);
      s.keys != [] && s.owners == map[] && Lookup(s, h) == ""
  {
    var ps := Points(hash, node, n);
    var one, two := Added(hash, EMPTY, [node], n), Added(hash, Added(hash, EMPTY, [node], n), [node], n);
    AddedOne(hash, EMPTY, node, n);
    AddedOne(hash, one, node, n);
    var s := Removed(hash, two, node);
    RemoveEachIs(two.keys, ps);
    assert multiset(s.keys) == multiset(ps);
    assert ps[0] in multiset(s.keys);
    assert s.owners == map[];
  }

  lemma AddedOne(hash: string -> nat, s: State, node: string, n: int)
    requires node != ""
    ensures var s', ps := Added(hash, s, [node], n), Points(hash, node, n);
      && multiset(s'.keys) == multiset(s.keys) + multiset(ps) && Ordered(s'.keys)
      && s'.owners == Place(s.owners, ps, node) && s'.replicas == s.replicas[node := n]
  {
    assert [node][..0] == [];
    assert AddNodes(hash, s, [], n) == s;
    SortIs(s.keys + Points(hash, node, n));
  }

  /** The points a node has: no other node shares them, and none is in the ring more often than it should. */
  ghost predicate Placed(hash: string -> nat, s: State, node: string)
    requires node in s.replicas
  {
    var ps := Points(hash, node, s.replicas[node]);
    forall p :: p in ps ==> p in s.owners && s.owners[p] == node && multiset(s.keys)[p] == multiset(ps)[p]
  }

  ghost predicate Clean(hash: string -> nat, s: State) {
    && Covers(s.keys, s.owners)
    && "" !in s.replicas
    && (forall node :: node in s.replicas ==> Placed(hash, s, node))
    && (forall p :: p in s.owners ==> Owned(hash, s, p))
  }

  ghost predicate Owned(hash: string -> nat, s: State, p: nat)
    requires p in s.owners
  {
    s.owners[p] in s.replicas && p in Points(hash, s.owners[p], s.replicas[s.owners[p]])
  }

  /** On a clean ring with points, every lookup names a node of the ring. */
  lemma LookupIsNode(hash: string -> nat, s: State, h: nat)
    requires Clean(hash, s) && s.keys != []
    ensures Lookup(s, h) in s.replicas && Lookup(s, h) != ""
    ensures Lookup(s, h) == Owner(s.owners, h)
  {
    assert s.keys[0] in s.owners;
    assert Set(s.keys) == s.owners.Keys;
  }

  /** A new node shares no point with the ring. */
  ghost predicate Strange(hash: string -> nat, s: State, node: string, n: int) {
    node != "" && node !in s.replicas && forall p :: p in Points(hash, node, n) ==> p !in s.owners
  }

  lemma CountNone(s: seq<nat>, p: nat)
    ensures p !in s <==> multiset(s)[p] == 0
  {
    assert p in s <==> p in multiset(s);
  }

  lemma AddKeepsPlaced(hash: string -> nat, s: State, node: string, n: int, m: string)
    requires Covers(s.keys, s.owners) && Strange(hash, s, node, n)
    requires m == node || (m in s.replicas && Placed(hash, s, m))
    ensures Placed(hash, AddNode(hash, s, node, n), m)
  {
    hide Points;
    var s', ps := AddNode(hash, s, node, n), Points(hash, node, n);
    forall p | p in Points(hash, m, s'.replicas[m])
      ensures multiset(s'.keys)[p] == multiset(Points(hash, m, s'.replicas[m]))[p]
    {
      CountNone(s.keys, p);
      CountNone(ps, p);
      assert multiset(s'.keys)[p] == multiset(s.keys)[p] + multiset(ps)[p];
    }
  }

  lemma AddKeepsOwned(hash: string -> nat, s: State, node: string, n: int)
    requires Covers(s.keys, s.owners) && node !in s.replicas && forall p :: p in s.owners ==> Owned(hash, s, p)
    ensures var s' := AddNode(hash, s, node, n);
      Covers(s'.keys, s'.owners) && forall p :: p in s'.owners ==> Owned(hash, s', p)
  {
    hide Points;
    var s' := AddNode(hash, s, node, n);
    forall p | p in s'.owners ensures Owned(hash, s', p) {
      assert p in s.owners ==> Owned(hash, s, p);
    }
  }

  lemma AddNodeClean(hash: string -> nat, s: State, node: string, n: int)
    requires Clean(hash, s) && Strange(hash, s, node, n)
    ensures Clean(hash, AddNode(hash, s, node, n))
  {
    hide Placed, Owned, Covers, Points;
    AddKeepsOwned(hash, s, node, n);
    forall m | m in AddNode(hash, s, node, n).replicas ensures Placed(hash, AddNode(hash, s, node, n), m) {
      AddKeepsPlaced(hash, s, node, n, m);
    }
  }

  lemma SortClean(hash: string -> nat, s: State)
    requires Clean(hash, s)
    ensures Clean(hash, s.(keys := Sort(s.keys))) && Ordered(Sort(s.keys))
  {
    var s' := s.(keys := Sort(s.keys));
    SortIs(s.keys);
    forall p ensures p in s'.keys <==> p in s.keys {
      CountNone(s'.keys, p);
      CountNone(s.keys, p);
    }
    forall m | m in s.replicas ensures Placed(hash, s', m) {
      assert Placed(hash, s, m);
    }
  }

  lemma RemovedIs(hash: string -> nat, s: State, node: string)
    requires Clean(hash, s) && node in s.replicas && s.replicas[node] != 0
    ensures var s', ps := Removed(hash, s, node), Points(hash, node, s.replicas[node]);
      && multiset(s'.keys) == multiset(s.keys) - multiset(ps) && (Ordered(s.keys) ==> Ordered(s'.keys))
      && s'.owners == s.owners - Set(ps) && s'.replicas == s.replicas - {node}
      && (forall p :: p in s.owners ==> (p in ps <==> s.owners[p] == node))
  {
    RemoveEachIs(s.keys, Points(hash, node, s.replicas[node]));
    assert Placed(hash, s, node);
  }

  lemma RemoveKeepsPlaced(hash: string -> nat, s: State, node: string, m: string)
    requires Clean(hash, s) && node in s.replicas && s.replicas[node] != 0 && m in s.replicas && m != node
    ensures Placed(hash, Removed(hash, s, node), m)
  {
    hide Removed, Points, Covers, Owned, RemoveEach;
    RemovedIs(hash, s, node);
    assert Placed(hash, s, m);
    var s', ps := Removed(hash, s, node), Points(hash, node, s.replicas[node]);
    forall p | p in Points(hash, m, s.replicas[m]) ensures multiset(s'.keys)[p] == multiset(s.keys)[p] {
      CountNone(ps, p);
    }
  }

  lemma RemoveKeepsCovered(hash: string -> nat, s: State, node: string)
    requires Clean(hash, s) && node in s.replicas && s.replicas[node] != 0
    ensures var s' := Removed(hash, s, node); Covers(s'.keys, s'.owners)
  {
    hide Removed, Points, Covers, Owned;
    RemoveLeavesNoHoleIff(hash, s, node);
    assert Placed(hash, s, node);
  }

  lemma RemoveKeepsOwned(hash: string -> nat, s: State, node: string, p: nat)
    requires Clean(hash, s) && node in s.replicas && s.replicas[node] != 0 && p in Removed(hash, s, node).owners
    ensures Owned(hash, Removed(hash, s, node), p)
  {
    hide Removed, Points, Covers, Placed;
    RemovedIs(hash, s, node);
    assert Owned(hash, s, p);
  }

  lemma RemoveClean(hash: string -> nat, s: State, node: string)
    requires Clean(hash, s) && node in s.replicas && s.replicas[node] != 0
    ensures Clean(hash, Removed(hash, s, node))
  {
    hide Removed, Placed, Owned, Covers, Points;
    RemoveKeepsCovered(hash, s, node);
    RemovedIs(hash, s, node);
    var s' := Removed(hash, s, node);
    forall m | m in s'.replicas ensures Placed(hash, s', m) {
      RemoveKeepsPlaced(hash, s, node, m);
    }
    forall p | p in s'.owners ensures Owned(hash, s', p) {
      RemoveKeepsOwned(hash, s, node, p);
    }
  }

  /** Removing a node moves only the keys it served. */
  lemma RemoveMovesOnlyItsOwn(hash: string -> nat, s: State, node: string, h: nat)
    requires Clean(hash, s) && node in s.replicas && s.replicas[node] != 0
    ensures Lookup(s, h) != node ==> Lookup(Removed(hash, s, node), h) == Lookup(s, h)
  {
    var s' := Removed(hash, s, node);
    if s.keys != [] && Lookup(s, h) != node {
      LookupIsNode(hash, s, h);
      RemovedIs(hash, s, node);
      RemoveClean(hash, s, node);
      assert s.keys[0] in s.owners;
      var p := Successor(s.owners.Keys, h);
      assert p in s'.owners;
      CountNone(s'.keys, p);
      OwnerAfterRemoving(s.owners, s'.owners, h);
      LookupIsNode(hash, s', h);
    } else if s.keys == [] {
      RemovedIs(hash, s, node);
    }
  }

  /** Adding a node and removing it again restores the ring. */
  lemma RemoveUndoesAdd(hash: string -> nat, s: State, node: string, n: int)
    requires Clean(hash, s) && Ordered(s.keys) && Strange(hash, s, node, n) && n > 0
    ensures Removed(hash, Added(hash, s, [node], n), node) == s
  {
    hide Added, Removed, Points, RemoveEach;
    var s', ps := Added(hash, s, [node], n), Points(hash, node, n);
    AddedOne(hash, s, node, n);
    RemovedRaw(hash, s', node);
    RemoveEachIs(s'.keys, ps);
    var back := Removed(hash, s', node);
    assert multiset(back.keys) == multiset(s.keys) + multiset(ps) - multiset(ps);
    OrderedUnique(back.keys, s.keys);
    PlaceBack(s.owners, ps, node);
    assert s.replicas[node := n] - {node} == s.replicas;
  }

  lemma RemovedRaw(hash: string -> nat, s: State, node: string)
    requires node != "" && ReplicasOf(s, node) != 0
    ensures var ps := Points(hash, node, s.replicas[node]);
      Removed(hash, s, node) == State(RemoveEach(s.keys, ps), s.owners - Set(ps), s.replicas - {node})
  {
  }

  lemma PlaceBack(owners: map<nat, string>, ps: seq<nat>, node: string)
    requires forall p :: p in ps ==> p !in owners
    ensures Place(owners, ps, node) - Set(ps) == owners
  {
  }

  datatype Op = Join(nodes: seq<string>) | Leave(node: string)

  function Apply(hash: string -> nat, n: int, s: State, op: Op): State {
    match op
    case Join(nodes) => Added(hash, s, nodes, n)
    case Leave(node) => Removed(hash, s, node)
  }

  function Run(hash: string -> nat, n: int, ops: seq<Op>): State {
    if ops == [] then EMPTY else Apply(hash, n, Run(hash, n, ops[..|ops| - 1]), ops[|ops| - 1])
  }

  /** No two of these nodes have a point in common. */
  ghost predicate NoSharing(hash: string -> nat, n: int, names: set<string>) {
    forall a, b, p :: a in names && b in names && a != b && p in Points(hash, a, n) ==> p !in Points(hash, b, n)
  }

  /** Each name occurs once, and none is in the ring already. */
  predicate Newcomers(s: State, nodes: seq<string>) {
    && (forall i :: 0 <= i < |nodes| ==> nodes[i] !in s.replicas)
    && (forall i, j :: 0 <= i < j < |nodes| ==> nodes[i] != nodes[j])
  }

  /** Nodes are added only while they are not in the ring, and come from `names`. */
  ghost predicate Careful(hash: string -> nat, n: int, names: set<string>, ops: seq<Op>) {
    ops != [] ==>
      var p, op := ops[..|ops| - 1], ops[|ops| - 1];
      && Careful(hash, n, names, p)
      && (op.Join? ==> Newcomers(Run(hash, n, p), op.nodes) && forall m :: m in op.nodes ==> m in names)
  }

  ghost predicate Good(hash: string -> nat, n: int, names: set<string>, s: State) {
    Clean(hash, s) && forall m :: m in s.replicas ==> m in names && s.replicas[m] == n
  }

  lemma AddNodeGood(hash: string -> nat, n: int, names: set<string>, s: State, node: string)
    requires NoSharing(hash, n, names) && Good(hash, n, names, s)
    requires node in names && node != "" && node !in s.replicas
    ensures Good(hash, n, names, AddNode(hash, s, node, n))
  {
    forall p | p in s.owners ensures p !in Points(hash, node, n) {
      assert Owned(hash, s, p);
    }
    AddNodeClean(hash, s, node, n);
  }

  lemma {:induction false} AddNodesGood(hash: string -> nat, n: int, names: set<string>, s: State, nodes: seq<string>)
    requires NoSharing(hash, n, names) && Good(hash, n, names, s)
    requires Newcomers(s, nodes) && forall m :: m in nodes ==> m in names
    ensures var s' := AddNodes(hash, s, nodes, n);
      Good(hash, n, names, s') && forall m :: m in s'.replicas ==> m in s.replicas || m in nodes
  {
    if nodes != [] {
      var k := |nodes| - 1;
      AddNodesGood(hash, n, names, s, nodes[..k]);
      var s' := AddNodes(hash, s, nodes[..k], n);
      if nodes[k] != "" {
        AddNodeGood(hash, n, names, s', nodes[k]);
      }
    }
  }

  /** Rings that are used with care stay clean and sorted, whatever comes and goes. */
  lemma {:induction false} RunClean(hash: string -> nat, n: int, names: set<string>, ops: seq<Op>)
    requires NoSharing(hash, n, names) && Careful(hash, n, names, ops)
    ensures Good(hash, n, names, Run(hash, n, ops)) && Ordered(Run(hash, n, ops).keys)
  {
    if ops != [] {
      var p, op := ops[..|ops| - 1], ops[|ops| - 1];
      RunClean(hash, n, names, p);
      var s := Run(hash, n, p);
      match op
      case Join(nodes) =>
        if nodes != [] {
          AddNodesGood(hash, n, names, s, nodes);
          SortClean(hash, AddNodes(hash, s, nodes, n));
        }
      case Leave(node) =>
        if node != "" && ReplicasOf(s, node) != 0 {
          RemoveClean(hash, s, node);
          RemovedIs(hash, s, node);
        }
    }
  }

  datatype RemoveResult = Done | InvalidNode | NodeNotFound

  class Map {
    const hash: string -> nat
    const defaultReplicas: int
    var keys: seq<nat>
    var hashMap: map<nat, string>
    var nodeReplicas: map<string, int>
    var nodeCounts: map<string, nat>
    var totalRequests: nat

    ghost function View(): State
      reads this
    {
      State(keys, hashMap, nodeReplicas)
    }

    constructor (hash: string -> nat, defaultReplicas: int)
      ensures View() == EMPTY && nodeCounts == map[] && totalRequests == 0
      ensures this.hash == hash && this.defaultReplicas == defaultReplicas
    {
      this.hash, this.defaultReplicas := hash, defaultReplicas;
      keys, hashMap, nodeReplicas, nodeCounts, totalRequests := [], map[], map[], map[], 0;
    }

    method AddNodeReplicas(node: string, replicas: int)
      modifies `keys, `hashMap, `nodeReplicas
      ensures View() == AddNode(hash, old(View()), node, replicas)
    {
      ghost var ps := Points(hash, node, replicas);
      hide Place;
      PlaceNone(hashMap, node);
      var i := 0;
      while i < replicas
        invariant 0 <= i <= |ps|
        invariant keys == old(keys) + ps[..i] && hashMap == Place(old(hashMap), ps[..i], node)
        invariant nodeReplicas == old(nodeReplicas)
      {
        var h := hash(node + "-" + Itoa(i));
        assert ps[..i + 1] == ps[..i] + [h];
        PlaceSnoc(old(hashMap), ps[..i], h, node);
        keys := keys + [h];
        hashMap := hashMap[h := node];
        i := i + 1;
      }
      assert ps[..i] == ps;
      nodeReplicas := nodeReplicas[node := replicas];
    }

    /** Fails only without any name; empty names are skipped. */
    method Add(nodes: seq<string>) returns (ok: bool)
      modifies `keys, `hashMap, `nodeReplicas
      ensures ok <==> nodes != []
      ensures View() == Added(hash, old(View()), nodes, defaultReplicas)
    {
      if |nodes| == 0 {
        return false;
      }
      for k := 0 to |nodes|
        invariant View() == AddNodes(hash, old(View()), nodes[..k], defaultReplicas)
      {
        assert nodes[..k + 1][..k] == nodes[..k];
        if nodes[k] != "" {
          AddNodeReplicas(nodes[k], defaultReplicas);
        }
      }
      assert nodes[..|nodes|] == nodes;
      keys := Sort(keys);
      return true;
    }

    /** Deletes the first point equal to `h`. */
    method DeletePoint(h: nat)
      modifies `keys
      ensures keys == RemoveFirst(old(keys), h)
    {
      for j := 0 to |keys|
        invariant keys == old(keys)
        invariant RemoveFirst(keys, h) == keys[..j] + RemoveFirst(keys[j..], h)
      {
        if keys[j] == h {
          keys := keys[..j] + keys[j + 1..];
          return;
        }
      }
      assert keys[..|keys|] == keys && keys[..|keys|] + [] == keys;
    }

    method Remove(node: string) returns (r: RemoveResult)
      modifies `keys, `hashMap, `nodeReplicas, `nodeCounts
      ensures View() == Removed(hash, old(View()), node)
      ensures r == if node == "" then InvalidNode else if ReplicasOf(old(View()), node) == 0 then NodeNotFound else Done
      ensures nodeCounts == if r == Done then old(nodeCounts) - {node} else old(nodeCounts)
    {
      if node == "" {
        return InvalidNode;
      }
      var replicas := if node in nodeReplicas then nodeReplicas[node] else 0;
      if replicas == 0 {
        return NodeNotFound;
      }
      ghost var ps := Points(hash, node, replicas);
      var i := 0;
      while i < replicas
        invariant 0 <= i <= |ps|
        invariant keys == RemoveEach(old(keys), ps[..i]) && hashMap == old(hashMap) - Set(ps[..i])
        invariant nodeReplicas == old(nodeReplicas) && nodeCounts == old(nodeCounts)
      {
        var h := hash(node + "-" + Itoa(i));
        assert ps[..i + 1] == ps[..i] + [h] && ps[..i + 1][..i] == ps[..i];
        hashMap := hashMap - {h};
        assert Set(ps[..i + 1]) == Set(ps[..i]) + {h};
        DeletePoint(h);
        i := i + 1;
      }
      assert ps[..i] == ps;
      nodeReplicas := nodeReplicas - {node};
      nodeCounts := nodeCounts - {node};
      return Done;
    }

    method Get(key: string) returns (node: string)
      requires Ordered(keys)
      modifies `nodeCounts, `totalRequests
      ensures node == if key == "" then "" else Lookup(View(), hash(key))
      ensures key == "" || keys == [] ==> nodeCounts == old(nodeCounts) && totalRequests == old(totalRequests)
      ensures key != "" && keys != [] ==>
        && totalRequests == old(totalRequests) + 1
        && nodeCounts == old(nodeCounts)[node := (if node in old(nodeCounts) then old(nodeCounts)[node] else 0) + 1]
    {
      if key == "" {
        return "";
      }
      if |keys| == 0 {
        return "";
      }
      var h := hash(key);
      var idx := Search(keys, h);
      FoundByLookup(View(), h, idx);
      if idx == |keys| {
        idx := 0;
      }
      node := if keys[idx] in hashMap then hashMap[keys[idx]] else "";
      var count := if node in nodeCounts then nodeCounts[node] else 0;
      nodeCounts := nodeCounts[node := count + 1];
      totalRequests := totalRequests + 1;
    }
  }

  lemma FoundByLookup(s: State, h: nat, idx: nat)
    requires Ordered(s.keys) && s.keys != [] && idx <= |s.keys|
    requires forall k :: 0 <= k < idx ==> s.keys[k] < h
    requires forall k :: idx <= k < |s.keys| ==> s.keys[k] >= h
    ensures var p := s.keys[if idx == |s.keys| then 0 else idx];
      Lookup(s, h) == if p in s.owners then s.owners[p] else ""
  {
    var p, ps := s.keys[if idx == |s.keys| then 0 else idx], Set(s.keys);
    assert p in ps;
    SuccessorUnique(ps, h, p, Successor(ps, h));
  }
}
