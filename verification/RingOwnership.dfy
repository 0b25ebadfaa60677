/** Who owns a key, told from the points of the ring alone: ownership, routing and
    replica placement in clockwise order. */
module RingOwnership {
  import opened Primitives
  import opened Ring

  // ---- Owners ----

  /** Clockwise from `h`, `p` comes before `q`: points from `h` up to the greatest, then
      those below `h`. */
  predicate Nearer(p: nat, q: nat, h: nat) {
    if h <= p then q < h || p < q else q < h && p < q
  }

  /** The key belongs to the node of the first point clockwise. */
  lemma OwnerIsFirstClockwise(ring: map<nat, NodeId>, h: nat, p: nat)
    requires p in ring && forall q | q in ring && q != p :: Nearer(p, q, h)
    ensures Owner(ring, h) == Some(ring[p])
  {
    var s := Successor(ring.Keys, h);
    if h <= p { assert p in From(ring.Keys, h); }
    if s != p { assert Nearer(p, s, h); }
  }

  /** The same in words of intervals: nothing lies between the hash and the point, or all
      points lie below the hash and this is the least. */
  lemma OwnerByInterval(ring: map<nat, NodeId>, h: nat, p: nat)
    requires p in ring
    requires || (h <= p && forall q | q in ring :: !(h <= q < p))
             || ((forall q | q in ring :: q < h) && forall q | q in ring :: p <= q)
    ensures Owner(ring, h) == Some(ring[p])
  {
    OwnerIsFirstClockwise(ring, h, p);
  }

  lemma NobodyOwnsAnEmptyRing(h: nat)
    ensures Owner(map[], h) == None
  {
  }

  // ---- Routing ----

  /** Among the members of a cluster exactly the owner serves a key; every other one sends
      the client to the owner's record. */
  lemma OnlyTheOwnerServes(c: Cluster, me: NodeId, h: nat)
    requires Known(c) && c.ring.Keys != {}
    ensures Owner(c.ring, h).Some? && Owner(c.ring, h).value in c.nodes
    ensures Route(c, me, h) == None <==> Owner(c.ring, h) == Some(me)
    ensures Owner(c.ring, h) != Some(me) ==> Route(c, me, h) == Some(c.nodes[Owner(c.ring, h).value])
  {
    var s := Successor(c.ring.Keys, h);
    assert c.ring[s] in c.nodes;
  }

  /** A server without a ring sends nobody away. */
  lemma EmptyRingServesAll(c: Cluster, me: NodeId, h: nat)
    requires c.ring == map[]
    ensures Route(c, me, h) == None
  {
  }

  /** After every history of joins and leaves, each key has exactly one member that serves
      it, as long as somebody has points. */
  lemma EveryKeyIsServedOnce(changes: seq<Change>, count: nat, hash: PointHash, h: nat)
    requires Replay(changes, count, hash).ring.Keys != {}
    ensures var c := Replay(changes, count, hash);
            exists o :: o in c.nodes && forall me :: Route(c, me, h) == None <==> me == o
  {
    var c := Replay(changes, count, hash);
    HistoryKeepsKnown(changes, count, hash);
    var o := c.ring[Successor(c.ring.Keys, h)];
    forall me: NodeId ensures Route(c, me, h) == None <==> me == o { OnlyTheOwnerServes(c, me, h); }
    assert o in c.nodes;
  }

  // ---- Replica placement ----

  lemma {:induction false} SortedAscends(s: set<nat>)
    ensures forall i, j | 0 <= i < j < |Sorted(s)| :: Sorted(s)[i] < Sorted(s)[j]
    decreases |s|
  {
    if s != {} {
      var m := Least(s);
      var rest := s - {m};
      SortedAscends(rest);
      SortedCovers(rest);
      forall i, j | 0 <= i < j < |Sorted(s)| ensures Sorted(s)[i] < Sorted(s)[j] {
        assert Sorted(s)[j] == Sorted(rest)[j - 1] && Sorted(rest)[j - 1] in rest;
        if i > 0 { assert Sorted(s)[i] == Sorted(rest)[i - 1]; }
      }
    }
  }

  ghost function Path(ring: map<nat, NodeId>, h: nat): seq<nat> { Sorted(From(ring.Keys, h)) + Sorted(ring.Keys) }

  /** `x` is met at `a` on the walk and not before. */
  ghost predicate FirstMet(walk: seq<NodeId>, x: NodeId, a: nat) {
    a < |walk| && walk[a] == x && x !in walk[..a]
  }

  lemma {:induction false} DistinctInOrder(q: seq<NodeId>, i: nat) returns (a: nat)
    requires i < |Distinct(q)|
    ensures FirstMet(q, Distinct(q)[i], a)
    ensures forall x | x in q[..a] :: exists k | 0 <= k < i :: Distinct(q)[k] == x
  {
    var n := |q| - 1;
    var init := q[..n];
    if i < |Distinct(init)| {
      a := DistinctInOrder(init, i);
      assert q[..a] == init[..a];
      forall x | x in q[..a] ensures exists k | 0 <= k < i :: Distinct(q)[k] == x {
        var k :| 0 <= k < i && Distinct(init)[k] == x;
        assert Distinct(q)[k] == x;
      }
    } else {
      a := n;
      DistinctCovers(init);
      forall x | x in q[..a] ensures exists k | 0 <= k < i :: Distinct(q)[k] == x {
        assert x in Distinct(init);
        var k :| 0 <= k < |Distinct(init)| && Distinct(init)[k] == x;
        assert Distinct(q)[k] == x;
      }
    }
  }

  lemma PathPoints(ring: map<nat, NodeId>, h: nat, a: nat)
    requires a < |Path(ring, h)|
    ensures |Walk(ring, h)| == |Path(ring, h)| && Path(ring, h)[a] in ring
    ensures Walk(ring, h)[a] == ring[Path(ring, h)[a]]
    ensures a < |Sorted(From(ring.Keys, h))| ==> h <= Path(ring, h)[a]
  {
    SortedCovers(From(ring.Keys, h));
    SortedCovers(ring.Keys);
    assert Path(ring, h)[a] in Path(ring, h);
    if a < |Sorted(From(ring.Keys, h))| { assert Path(ring, h)[a] in Sorted(From(ring.Keys, h)); }
  }

  /** Where a point stands on the path for the first time, and which points come before. */
  lemma PlaceOnPath(ring: map<nat, NodeId>, h: nat, q: nat) returns (k: nat)
    requires q in ring
    ensures k < |Path(ring, h)| && Path(ring, h)[k] == q
    ensures h <= q <==> k < |Sorted(From(ring.Keys, h))|
    ensures forall i | 0 <= i < k && (h <= q || |Sorted(From(ring.Keys, h))| <= i) :: Path(ring, h)[i] < q
  {
    var near, all := Sorted(From(ring.Keys, h)), Sorted(ring.Keys);
    SortedCovers(From(ring.Keys, h));
    SortedCovers(ring.Keys);
    SortedAscends(From(ring.Keys, h));
    SortedAscends(ring.Keys);
    if h <= q {
      assert q in near;
      k :| 0 <= k < |near| && near[k] == q;
    } else {
      assert q in all;
      var m :| 0 <= m < |all| && all[m] == q;
      k := |near| + m;
    }
  }

  /** A node met first at `a` is nearer, by the point there, than any point of a node not
      met up to `a`. */
  lemma MetFirstIsNearer(ring: map<nat, NodeId>, h: nat, x: NodeId, a: nat, q: nat)
    requires FirstMet(Walk(ring, h), x, a) && q in ring && ring[q] != x && ring[q] !in Walk(ring, h)[..a]
    ensures Path(ring, h)[a] in ring && ring[Path(ring, h)[a]] == x && Nearer(Path(ring, h)[a], q, h)
  {
    PathPoints(ring, h, a);
    var k := PlaceOnPath(ring, h, q);
    NotMetYet(ring, h, a, k, q);
    if |Sorted(From(ring.Keys, h))| <= a { OnceAroundIsBelow(ring, h, x, a); }
  }

  lemma InPrefix<T>(q: seq<T>, a: nat, k: nat)
    requires k < a <= |q|
    ensures q[k] in q[..a]
  {
    assert q[..a][k] == q[k];
  }

  /** A point whose node is not met up to `a` lies behind `a` on the path. */
  lemma NotMetYet(ring: map<nat, NodeId>, h: nat, a: nat, k: nat, q: nat)
    requires a < |Walk(ring, h)| && k < |Path(ring, h)| && Path(ring, h)[k] == q && q in ring
    requires ring[q] != Walk(ring, h)[a] && ring[q] !in Walk(ring, h)[..a]
    ensures a < k
  {
    PathPoints(ring, h, k);
    if k < a {
      InPrefix(Walk(ring, h), a, k);
      assert false;
    }
  }

  /** A node first met on the second stretch of the path is met at a point below the hash. */
  lemma OnceAroundIsBelow(ring: map<nat, NodeId>, h: nat, x: NodeId, a: nat)
    requires FirstMet(Walk(ring, h), x, a) && |Sorted(From(ring.Keys, h))| <= a
    ensures Path(ring, h)[a] < h
  {
    var p := Path(ring, h)[a];
    PathPoints(ring, h, a);
    if h <= p {
      var k := PlaceOnPath(ring, h, p);
      PathPoints(ring, h, k);
      InPrefix(Walk(ring, h), a, k);
      assert false;
    }
  }

  /** Placement goes clockwise: each chosen node has a point that is nearer to the key than
      every point of the nodes chosen after it, and of those not chosen at all. */
  lemma PlacementGoesClockwise(ring: map<nat, NodeId>, h: nat, count: nat, i: nat) returns (p: nat)
    requires i < |Placement(ring, h, count)|
    ensures p in ring && ring[p] == Placement(ring, h, count)[i]
    ensures forall q | q in ring && ring[q] !in Placement(ring, h, count)[..i + 1] :: Nearer(p, q, h)
  {
    var walk, out := Walk(ring, h), Placement(ring, h, count);
    var a := DistinctInOrder(walk, i);
    p := Path(ring, h)[a];
    PathPoints(ring, h, a);
    forall x | x in walk[..a] ensures x in out[..i + 1] {
      var k: nat :| k < i && Distinct(walk)[k] == x;
      InPrefix(out, i + 1, k);
    }
    forall q | q in ring && ring[q] !in out[..i + 1] ensures Nearer(p, q, h) {
      InPrefix(out, i + 1, i);
      MetFirstIsNearer(ring, h, out[i], a, q);
    }
  }
}
