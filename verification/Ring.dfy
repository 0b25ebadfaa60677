/** The consistent-hash ring of cluster/ring.rs: who owns a key, what moves when
    nodes join or leave, and MOVED routing. Both hashes are parameters. */
module Ring {
  import opened Primitives

  type NodeId = Bytes
  datatype Node = Node(id: NodeId, addr: Bytes)

  /** Hash of virtual point `i` of a node. */
  type PointHash = (NodeId, nat) -> nat

  // ---- Ordered points ----

  predicate IsLeast(m: nat, s: set<nat>) { m in s && forall x | x in s :: m <= x }

  lemma {:induction false} LeastExists(s: set<nat>)
    requires s != {}
    ensures exists m :: IsLeast(m, s)
    decreases |s|
  {
    var x :| x in s;
    if s == {x} {
      assert IsLeast(x, s);
    } else {
      var rest := s - {x};
      assert rest != {};
      LeastExists(rest);
      var m :| IsLeast(m, rest);
      assert s == rest + {x};
      assert IsLeast(if x <= m then x else m, s);
    }
  }

  function Least(s: set<nat>): (m: nat)
    requires s != {}
    ensures IsLeast(m, s)
  {
    LeastExists(s);
    var m :| m in s && IsLeast(m, s);
    m
  }

  function From(points: set<nat>, h: nat): set<nat> { set p | p in points && h <= p }

  /** The first point at or clockwise of `h`, wrapping around. */
  function Successor(points: set<nat>, h: nat): (p: nat)
    requires points != {}
    ensures p in points
  {
    if From(points, h) != {} then Least(From(points, h)) else Least(points)
  }

  /** `get_node`. */
  function Owner(ring: map<nat, NodeId>, h: nat): Option<NodeId> {
    if ring.Keys == {} then None else Some(ring[Successor(ring.Keys, h)])
  }

  /** A point that survives into a smaller ring, and was chosen there, is chosen. */
  lemma SuccessorInSubset(small: set<nat>, big: set<nat>, h: nat)
    requires small <= big && big != {} && Successor(big, h) in small
    ensures small != {} && Successor(small, h) == Successor(big, h)
  {
    var p := Successor(big, h);
    assert From(small, h) <= From(big, h);
    if From(big, h) != {} { assert p in From(small, h); } else { assert From(small, h) == {}; }
  }

  // ---- Membership changes ----

  function AddPoints(ring: map<nat, NodeId>, id: NodeId, count: nat, hash: PointHash): map<nat, NodeId> {
    if count == 0 then ring else AddPoints(ring, id, count - 1, hash)[hash(id, count - 1) := id]
  }

  function DropPoints(ring: map<nat, NodeId>, id: NodeId): map<nat, NodeId> {
    map p | p in ring && ring[p] != id :: ring[p]
  }

  lemma {:induction false} AddPointsOnlyAdds(ring: map<nat, NodeId>, id: NodeId, count: nat, hash: PointHash)
    ensures var grown := AddPoints(ring, id, count, hash);
            && ring.Keys <= grown.Keys
            && (forall p | p in grown && grown[p] != id :: p in ring && grown[p] == ring[p])
            && (forall i | 0 <= i < count :: hash(id, i) in grown && grown[hash(id, i)] == id)
            && (forall p | p in grown && p !in ring :: exists i: nat :: i < count && hash(id, i) == p)
            && (forall p | p in ring && grown[p] != ring[p] :: exists i: nat :: i < count && hash(id, i) == p)
  {
    if count > 0 {
      AddPointsOnlyAdds(ring, id, count - 1, hash);
      var before, grown := AddPoints(ring, id, count - 1, hash), AddPoints(ring, id, count, hash);
      forall p | p in grown && p !in ring ensures exists i: nat :: i < count && hash(id, i) == p {
        if p in before { var i: nat :| i < count - 1 && hash(id, i) == p; } else { assert hash(id, count - 1) == p; }
      }
      forall p | p in ring && grown[p] != ring[p] ensures exists i: nat :: i < count && hash(id, i) == p {
        if p == hash(id, count - 1) { assert hash(id, count - 1) == p; }
        else { var i: nat :| i < count - 1 && hash(id, i) == p; }
      }
    }
  }

  /** A joining node takes keys only for itself, whatever the hashes collide with. */
  lemma JoinMovesOnlyToJoiner(ring: map<nat, NodeId>, id: NodeId, count: nat, hash: PointHash, h: nat)
    ensures var after := Owner(AddPoints(ring, id, count, hash), h);
            after == Owner(ring, h) || after == Some(id)
  {
    var grown := AddPoints(ring, id, count, hash);
    AddPointsOnlyAdds(ring, id, count, hash);
    if grown.Keys != {} {
      var p := Successor(grown.Keys, h);
      if grown[p] != id { SuccessorInSubset(ring.Keys, grown.Keys, h); }
    }
  }

  /** A leaving node moves only the keys it owned, and none stays with it. */
  lemma LeaveMovesOnlyItsOwn(ring: map<nat, NodeId>, id: NodeId, h: nat)
    ensures Owner(ring, h) != Some(id) ==> Owner(DropPoints(ring, id), h) == Owner(ring, h)
    ensures Owner(DropPoints(ring, id), h) != Some(id)
  {
    var left := DropPoints(ring, id);
    assert left.Keys <= ring.Keys;
    if ring.Keys != {} && Owner(ring, h) != Some(id) { SuccessorInSubset(left.Keys, ring.Keys, h); }
  }

  // ---- Histories of membership ----

  datatype Cluster = Cluster(ring: map<nat, NodeId>, nodes: map<NodeId, Node>)

  datatype Change = Join(node: Node) | Leave(id: NodeId)

  function Adjust(c: Cluster, e: Change, count: nat, hash: PointHash): Cluster {
    match e
    case Join(node) => Cluster(AddPoints(c.ring, node.id, count, hash), c.nodes[node.id := node])
    case Leave(id) => Cluster(DropPoints(c.ring, id), c.nodes - {id})
  }

  function Replay(changes: seq<Change>, count: nat, hash: PointHash): Cluster {
    if changes == [] then Cluster(map[], map[])
    else Adjust(Replay(changes[..|changes| - 1], count, hash), changes[|changes| - 1], count, hash)
  }

  /** Every point on the ring belongs to a member with a record under its id. */
  ghost predicate Known(c: Cluster) {
    (forall p | p in c.ring :: c.ring[p] in c.nodes) && forall n | n in c.nodes :: c.nodes[n].id == n
  }

  lemma {:induction false} HistoryKeepsKnown(changes: seq<Change>, count: nat, hash: PointHash)
    ensures Known(Replay(changes, count, hash))
  {
    if changes != [] {
      var n := |changes| - 1;
      HistoryKeepsKnown(changes[..n], count, hash);
      if changes[n].Join? {
        AddPointsOnlyAdds(Replay(changes[..n], count, hash).ring, changes[n].node.id, count, hash);
      }
    }
  }

  /** No two nodes share a virtual point. */
  ghost predicate CollisionFree(ids: set<NodeId>, count: nat, hash: PointHash) {
    forall a, b | a in ids && b in ids && a != b :: !SharePoint(a, b, count, hash)
  }

  ghost predicate SharePoint(a: NodeId, b: NodeId, count: nat, hash: PointHash) {
    exists i: nat, j: nat :: i < count && j < count && hash(a, i) == hash(b, j)
  }

  ghost function Joined(changes: seq<Change>): set<NodeId> {
    set i | 0 <= i < |changes| && changes[i].Join? :: changes[i].node.id
  }

  /** The ring holds exactly the points of the nodes `ids`. */
  ghost predicate Canonical(ring: map<nat, NodeId>, ids: set<NodeId>, count: nat, hash: PointHash) {
    && (forall n, i | n in ids && 0 <= i < count :: hash(n, i) in ring && ring[hash(n, i)] == n)
    && (forall p | p in ring :: ring[p] in ids && exists i: nat :: i < count && hash(ring[p], i) == p)
  }

  lemma CanonicalIsUnique(a: map<nat, NodeId>, b: map<nat, NodeId>, ids: set<NodeId>, count: nat, hash: PointHash)
    requires Canonical(a, ids, count, hash) && Canonical(b, ids, count, hash)
    ensures a == b
  {
    forall p | p in a ensures p in b && b[p] == a[p] {
      var i: nat :| i < count && hash(a[p], i) == p;
    }
    forall p | p in b ensures p in a {
      var i: nat :| i < count && hash(b[p], i) == p;
    }
  }

  lemma JoinKeepsCanonical(ring: map<nat, NodeId>, ids: set<NodeId>, id: NodeId, count: nat, hash: PointHash)
    requires Canonical(ring, ids, count, hash)
    requires forall a | a in ids && a != id :: !SharePoint(a, id, count, hash)
    ensures Canonical(AddPoints(ring, id, count, hash), ids + {id}, count, hash)
  {
    var grown := AddPoints(ring, id, count, hash);
    AddPointsOnlyAdds(ring, id, count, hash);
    forall n, i | n in ids + {id} && 0 <= i < count ensures hash(n, i) in grown && grown[hash(n, i)] == n {
      if n != id {
        var p := hash(n, i);
        assert p in ring && ring[p] == n && !SharePoint(n, id, count, hash);
      }
    }
    forall p | p in grown ensures grown[p] in ids + {id} && exists i: nat :: i < count && hash(grown[p], i) == p {
      if grown[p] == id {
        if p in ring && ring[p] == id { assert exists i: nat :: i < count && hash(ring[p], i) == p; }
      }
    }
  }

  lemma LeaveKeepsCanonical(ring: map<nat, NodeId>, ids: set<NodeId>, id: NodeId, count: nat, hash: PointHash)
    requires Canonical(ring, ids, count, hash)
    ensures Canonical(DropPoints(ring, id), ids - {id}, count, hash)
  {
    var left := DropPoints(ring, id);
    forall n, i | n in ids - {id} && 0 <= i < count ensures hash(n, i) in left && left[hash(n, i)] == n {
      assert hash(n, i) in ring && ring[hash(n, i)] == n;
    }
    forall p | p in left ensures left[p] in ids - {id} && exists i: nat :: i < count && hash(left[p], i) == p {
      assert p in ring;
    }
  }

  /** After any history without colliding points, the ring is the canonical ring
      of the nodes that are still members. */
  lemma {:induction false} HistoryIsForgotten(changes: seq<Change>, count: nat, hash: PointHash)
    requires CollisionFree(Joined(changes), count, hash)
    ensures var c := Replay(changes, count, hash);
            Canonical(c.ring, c.nodes.Keys, count, hash) && c.nodes.Keys <= Joined(changes)
  {
    if changes != [] {
      var n := |changes| - 1;
      var before := changes[..n];
      forall id | id in Joined(before) ensures id in Joined(changes) {
        var i :| 0 <= i < |before| && before[i].Join? && before[i].node.id == id;
        assert changes[i] == before[i];
      }
      assert CollisionFree(Joined(before), count, hash);
      HistoryIsForgotten(before, count, hash);
      var c, c' := Replay(before, count, hash), Replay(changes, count, hash);
      match changes[n] {
        case Join(node) =>
          assert node.id in Joined(changes);
          JoinKeepsCanonical(c.ring, c.nodes.Keys, node.id, count, hash);
          assert c'.nodes.Keys == c.nodes.Keys + {node.id};
        case Leave(id) =>
          LeaveKeepsCanonical(c.ring, c.nodes.Keys, id, count, hash);
          assert c'.nodes.Keys == c.nodes.Keys - {id};
      }
    }
  }

  // ---- Routing ----

  /** `node_for_key`. */
  function NodeFor(c: Cluster, h: nat): Option<Node> {
    match Owner(c.ring, h)
    case None => None
    case Some(id) => if id in c.nodes then Some(c.nodes[id]) else None
  }

  /** The routing gate of a server: `Some` is a MOVED reply naming the target. */
  function Route(c: Cluster, localId: NodeId, h: nat): Option<Node> {
    match NodeFor(c, h)
    case None => None
    case Some(target) => if target.id != localId then Some(target) else None
  }

  /** Servers that agree on the members send a client away at most once, however
      differently they came to know them. */
  lemma RedirectedAtMostOnce(xs: seq<Change>, ys: seq<Change>, count: nat, hash: PointHash, here: NodeId, h: nat)
    requires CollisionFree(Joined(xs), count, hash) && CollisionFree(Joined(ys), count, hash)
    requires Replay(xs, count, hash).nodes.Keys == Replay(ys, count, hash).nodes.Keys
    ensures Replay(xs, count, hash).ring == Replay(ys, count, hash).ring
    ensures var moved := Route(Replay(xs, count, hash), here, h);
            moved.Some? ==> Route(Replay(ys, count, hash), moved.value.id, h) == None
  {
    var x, y := Replay(xs, count, hash), Replay(ys, count, hash);
    HistoryIsForgotten(xs, count, hash);
    HistoryIsForgotten(ys, count, hash);
    CanonicalIsUnique(x.ring, y.ring, x.nodes.Keys, count, hash);
    HistoryKeepsKnown(xs, count, hash);
    HistoryKeepsKnown(ys, count, hash);
  }

  /** Two nodes with a common point: joining in either order leaves the same members,
      and the last comer owns the keys at that point. */
  lemma CollisionsRememberHistory(a: NodeId, b: NodeId, i: nat, j: nat, count: nat, hash: PointHash)
    requires a != b && i < count && j < count && hash(a, i) == hash(b, j)
    ensures var ab, ba := Replay(JoinBoth(a, b), count, hash), Replay(JoinBoth(b, a), count, hash);
            && ab.nodes.Keys == ba.nodes.Keys
            && Owner(ab.ring, hash(a, i)) == Some(b) && Owner(ba.ring, hash(a, i)) == Some(a)
  {
    LastComerOwns(a, b, j, count, hash);
    LastComerOwns(b, a, i, count, hash);
  }

  function JoinBoth(a: NodeId, b: NodeId): seq<Change> { [Join(Node(a, [])), Join(Node(b, []))] }

  lemma LastComerOwns(a: NodeId, b: NodeId, j: nat, count: nat, hash: PointHash)
    requires j < count
    ensures var c := Replay(JoinBoth(a, b), count, hash);
            c.nodes.Keys == {a, b} && Owner(c.ring, hash(b, j)) == Some(b)
    ensures Joined(JoinBoth(a, b)) == {a, b}
  {
    var both := JoinBoth(a, b);
    var one, c, p := Replay(both[..1], count, hash), Replay(both, count, hash), hash(b, j);
    FirstChange(both, count, hash);
    assert one.nodes == map[a := Node(a, [])] && c.nodes == one.nodes[b := Node(b, [])];
    AddPointsOnlyAdds(one.ring, b, count, hash);
    assert p in From(c.ring.Keys, p);
    assert Successor(c.ring.Keys, p) == p;
    BothJoined(both);
  }

  lemma FirstChange(changes: seq<Change>, count: nat, hash: PointHash)
    requires changes != []
    ensures Replay(changes[..1], count, hash) == Adjust(Cluster(map[], map[]), changes[0], count, hash)
  {
    assert changes[..1][..0] == [];
  }

  lemma BothJoined(both: seq<Change>)
    requires |both| == 2 && both[0].Join? && both[1].Join?
    ensures Joined(both) == {both[0].node.id, both[1].node.id}
  {
  }

  /** No key tells the two rings apart. */
  ghost predicate SameOwners(a: map<nat, NodeId>, b: map<nat, NodeId>) { forall h: nat :: Owner(a, h) == Owner(b, h) }

  /** Histories over `ids` that end with the same members end with the same owners. */
  ghost predicate MembershipDecides(ids: set<NodeId>, count: nat, hash: PointHash) {
    forall xs, ys | Joined(xs) <= ids && Joined(ys) <= ids &&
                    Replay(xs, count, hash).nodes.Keys == Replay(ys, count, hash).nodes.Keys ::
      SameOwners(Replay(xs, count, hash).ring, Replay(ys, count, hash).ring)
  }

  /** Ownership depends on the present members alone, whatever the history over a set
      of nodes, if and only if no two of those nodes share a point. */
  lemma MembershipDecidesIffCollisionFree(ids: set<NodeId>, count: nat, hash: PointHash)
    ensures MembershipDecides(ids, count, hash) <==> CollisionFree(ids, count, hash)
  {
    if CollisionFree(ids, count, hash) {
      forall xs, ys | Joined(xs) <= ids && Joined(ys) <= ids &&
                      Replay(xs, count, hash).nodes.Keys == Replay(ys, count, hash).nodes.Keys
        ensures SameOwners(Replay(xs, count, hash).ring, Replay(ys, count, hash).ring)
      {
        RedirectedAtMostOnce(xs, ys, count, hash, [], 0);
      }
    } else {
      var a, b :| a in ids && b in ids && a != b && SharePoint(a, b, count, hash);
      var i: nat, j: nat :| i < count && j < count && hash(a, i) == hash(b, j);
      CollisionsRememberHistory(a, b, i, j, count, hash);
      LastComerOwns(a, b, j, count, hash);
      LastComerOwns(b, a, i, count, hash);
      assert !SameOwners(Replay(JoinBoth(a, b), count, hash).ring, Replay(JoinBoth(b, a), count, hash).ring);
    }
  }

  // ---- Replica placement ----

  function Sorted(s: set<nat>): seq<nat>
    decreases |s|
  {
    if s == {} then [] else [Least(s)] + Sorted(s - {Least(s)})
  }

  lemma {:induction false} SortedCovers(s: set<nat>)
    ensures forall x :: x in Sorted(s) <==> x in s
    ensures s != {} ==> Sorted(s) != [] && Sorted(s)[0] == Least(s)
    decreases |s|
  {
    if s != {} { SortedCovers(s - {Least(s)}); }
  }

  /** Owners met walking from `h` to the end, then once around. */
  function Walk(ring: map<nat, NodeId>, h: nat): seq<NodeId> {
    var path := Sorted(From(ring.Keys, h)) + Sorted(ring.Keys);
    SortedCovers(From(ring.Keys, h));
    SortedCovers(ring.Keys);
    seq(|path|, i requires 0 <= i < |path| => assert path[i] in path; ring[path[i]])
  }

  /** First occurrences only. */
  function Distinct(q: seq<NodeId>): (r: seq<NodeId>)
    ensures |r| <= |q|
  {
    if q == [] then []
    else
      var r := Distinct(q[..|q| - 1]);
      if q[|q| - 1] in q[..|q| - 1] then r else r + [q[|q| - 1]]
  }

  lemma {:induction false} DistinctCovers(q: seq<NodeId>)
    ensures forall x :: x in Distinct(q) <==> x in q
    ensures q != [] ==> Distinct(q) != [] && Distinct(q)[0] == q[0]
  {
    if q != [] {
      var init, last := q[..|q| - 1], q[|q| - 1];
      DistinctCovers(init);
      assert q == init + [last];
    }
  }

  lemma {:induction false} DistinctIsDistinct(q: seq<NodeId>)
    ensures forall i, j | 0 <= i < j < |Distinct(q)| :: Distinct(q)[i] != Distinct(q)[j]
  {
    if q != [] {
      DistinctIsDistinct(q[..|q| - 1]);
      DistinctCovers(q[..|q| - 1]);
    }
  }

  lemma {:induction false} DistinctCount(q: seq<NodeId>)
    ensures |Distinct(q)| == |set x | x in q|
  {
    if q != [] {
      var init, last := q[..|q| - 1], q[|q| - 1];
      DistinctCount(init);
      assert q == init + [last];
      var before := set x | x in init;
      assert (set x | x in q) == before + {last};
      if last in init { assert before + {last} == before; }
    }
  }

  lemma {:induction false} DistinctPrefix(q: seq<NodeId>, n: nat)
    requires n <= |q|
    ensures |Distinct(q[..n])| <= |Distinct(q)| && Distinct(q[..n]) == Distinct(q)[..|Distinct(q[..n])|]
  {
    if n < |q| {
      DistinctPrefix(q[..|q| - 1], n);
      assert q[..|q| - 1][..n] == q[..n];
    } else {
      assert q[..n] == q;
    }
  }

  lemma WalkCovers(ring: map<nat, NodeId>, h: nat)
    ensures forall x :: x in Walk(ring, h) <==> x in ring.Values
    ensures ring.Keys != {} ==> Walk(ring, h) != [] && Owner(ring, h) == Some(Walk(ring, h)[0])
  {
    var near, all := From(ring.Keys, h), ring.Keys;
    var path := Sorted(near) + Sorted(all);
    SortedCovers(near);
    SortedCovers(all);
    forall x | x in ring.Values ensures x in Walk(ring, h) {
      var p :| p in ring && ring[p] == x;
      var i :| 0 <= i < |Sorted(all)| && Sorted(all)[i] == p;
      assert path[|Sorted(near)| + i] == p;
      assert Walk(ring, h)[|Sorted(near)| + i] == x;
    }
    forall x | x in Walk(ring, h) ensures x in ring.Values {
      var i :| 0 <= i < |path| && Walk(ring, h)[i] == x;
      assert path[i] in path;
      assert path[i] in ring.Keys;
    }
    if all != {} { assert path[0] == Successor(all, h); }
  }

  /** How many nodes are returned: the source checks the count after each push,
      so a request for none still yields the owner. */
  function Wanted(count: nat, available: nat): nat {
    var n := if count == 0 then 1 else count;
    if n <= available then n else available
  }

  function Placement(ring: map<nat, NodeId>, h: nat, count: nat): seq<NodeId> {
    var all := Distinct(Walk(ring, h));
    all[..Wanted(count, |all|)]
  }

  /** Replica placement: as many different nodes as asked for or available, all of
      them on the ring, the key's owner first. */
  lemma PlacementIsDistinct(ring: map<nat, NodeId>, h: nat, count: nat)
    ensures var out := Placement(ring, h, count);
            && |out| == Wanted(count, |ring.Values|)
            && (forall i, j | 0 <= i < j < |out| :: out[i] != out[j])
            && (forall i | 0 <= i < |out| :: out[i] in ring.Values)
            && (out != [] ==> Owner(ring, h) == Some(out[0]))
  {
    var walk := Walk(ring, h);
    WalkCovers(ring, h);
    DistinctCovers(walk);
    DistinctIsDistinct(walk);
    DistinctCount(walk);
    assert (set x | x in walk) == ring.Values;
    forall i | 0 <= i < |Distinct(walk)| ensures Distinct(walk)[i] in ring.Values {
      assert Distinct(walk)[i] in Distinct(walk);
    }
    if Distinct(walk) != [] { assert walk != []; }
  }

  class ConsistentHashRing {
    const pointHash: PointHash
    const keyHash: Bytes -> nat
    const virtualNodes: nat
    var ring: map<nat, NodeId>
    var nodes: map<NodeId, Node>

    constructor (virtualNodes: nat, pointHash: PointHash, keyHash: Bytes -> nat)
      ensures AsCluster() == Cluster(map[], map[])
      ensures this.virtualNodes == virtualNodes && this.pointHash == pointHash && this.keyHash == keyHash
    {
      this.virtualNodes, this.pointHash, this.keyHash := virtualNodes, pointHash, keyHash;
      ring, nodes := map[], map[];
    }

    ghost function AsCluster(): Cluster
      reads this
    {
      Cluster(ring, nodes)
    }

    method AddNode(node: Node)
      modifies this
      ensures AsCluster() == Adjust(old(AsCluster()), Join(node), virtualNodes, pointHash)
    {
      nodes := nodes[node.id := node];
      for i := 0 to virtualNodes
        invariant nodes == old(nodes)[node.id := node] && ring == AddPoints(old(ring), node.id, i, pointHash)
      {
        ring := ring[pointHash(node.id, i) := node.id];
      }
    }

    method RemoveNode(id: NodeId)
      modifies this
      ensures AsCluster() == Adjust(old(AsCluster()), Leave(id), virtualNodes, pointHash)
    {
      nodes := nodes - {id};
      ring := map p | p in ring && ring[p] != id :: ring[p];
    }

    /** Distinct nodes met clockwise from the key, its owner first. */
    method GetNodesForReplication(key: Bytes, count: nat) returns (out: seq<NodeId>)
      ensures out == Placement(ring, keyHash(key), count)
    {
      out := FirstDistinct(Walk(ring, keyHash(key)), count);
    }
  }

  lemma DistinctGrows(walk: seq<NodeId>, i: nat)
    requires i < |walk|
    ensures Distinct(walk[..i + 1])
         == if walk[i] in walk[..i] then Distinct(walk[..i]) else Distinct(walk[..i]) + [walk[i]]
    ensures forall x :: x in walk[..i + 1] <==> x in walk[..i] || x == walk[i]
  {
    assert walk[..i + 1] == walk[..i] + [walk[i]];
  }

  /** The loop of `get_nodes_for_replication` with its set of nodes seen. */
  method FirstDistinct(walk: seq<NodeId>, count: nat) returns (out: seq<NodeId>)
    ensures out == Distinct(walk)[..Wanted(count, |Distinct(walk)|)]
  {
    out := [];
    var seen: set<NodeId> := {};
    for i := 0 to |walk|
      invariant out == Distinct(walk[..i]) && forall x :: x in seen <==> x in walk[..i]
      invariant |out| < if count == 0 then 1 else count
    {
      DistinctGrows(walk, i);
      if walk[i] !in seen {
        seen := seen + {walk[i]};
        out := out + [walk[i]];
        if |out| >= count {
          DistinctPrefix(walk, i + 1);
          return;
        }
      }
    }
    assert walk[..|walk|] == walk;
  }
}
