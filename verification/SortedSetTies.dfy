/** Which pops depend on the iteration order of a bucket: exactly those that cut a
    tie in two. */
module SortedSetTies {
  import opened Primitives
  import opened SortedSets

  type Order = set<Bytes> -> seq<Bytes>

  ghost function Enumerate(s: set<Bytes>): (q: seq<Bytes>)
    ensures Lists(q, s)
    decreases |s|
  {
    if s == {} then []
    else
      var x :| x in s;
      [x] + Enumerate(s - {x})
  }

  /** An iteration order that meets `m` first wherever it occurs. */
  ghost function MeetsFirst(m: Bytes): Order {
    (s: set<Bytes>) => if m in s then [m] + Enumerate(s - {m}) else Enumerate(s)
  }

  /** An iteration order that meets `m` last wherever it occurs. */
  ghost function MeetsLast(m: Bytes): Order {
    (s: set<Bytes>) => if m in s then Enumerate(s - {m}) + [m] else Enumerate(s)
  }

  lemma BothIterate(m: Bytes)
    ensures Iterates(MeetsFirst(m)) && Iterates(MeetsLast(m))
  {
    forall s: set<Bytes> ensures Lists(MeetsFirst(m)(s), s) && Lists(MeetsLast(m)(s), s) {
      if m in s { assert Lists(Enumerate(s - {m}), s - {m}); }
    }
  }

  /** `m` stands in the bucket that the next pop takes from. */
  ghost predicate InExtremeBucket(z: ZIndex, lowest: bool, m: Bytes) {
    Valid(z) && z.byScore.Keys != {} && m in z.byScore[Extreme(z, lowest)]
  }

  lemma AbsentStaysAbsent(z: ZIndex, count: nat, order: Order, lowest: bool, m: Bytes)
    requires Valid(z) && Iterates(order) && m !in z.scores
    ensures m !in Pop(z, count, order, lowest).left.scores
  {
    PopTakesExtremes(z, count, order, lowest);
  }

  lemma PopTakesHead(z: ZIndex, count: nat, order: Order, lowest: bool, m: Bytes)
    requires count > 0 && z.byScore.Keys != {}
    requires var q := order(z.byScore[Extreme(z, lowest)]); q != [] && q[0] == m
    ensures Pop(z, count, order, lowest).left == Pop(Remove(z, m), count - 1, order, lowest).left
  {
  }

  lemma MetFirstIsTaken(z: ZIndex, count: nat, lowest: bool, m: Bytes)
    requires InExtremeBucket(z, lowest, m) && count > 0
    ensures m !in Pop(z, count, MeetsFirst(m), lowest).left.scores
  {
    PopTakesHead(z, count, MeetsFirst(m), lowest, m);
    assert m !in Remove(z, m).scores;
    RemoveKeepsIndexes(z, m);
    BothIterate(m);
    AbsentStaysAbsent(Remove(z, m), count - 1, MeetsFirst(m), lowest, m);
  }

  /** Of several members, the order that meets `m` last takes another one. */
  lemma AnotherIsNext(z: ZIndex, lowest: bool, m: Bytes) returns (x: Bytes)
    requires InExtremeBucket(z, lowest, m) && |z.byScore[Extreme(z, lowest)]| > 1
    ensures var bucket := z.byScore[Extreme(z, lowest)];
            MeetsLast(m)(bucket) != [] && x == MeetsLast(m)(bucket)[0] && x in bucket && x != m
  {
    var rest := z.byScore[Extreme(z, lowest)] - {m};
    x := Enumerate(rest)[0];
    assert x in Enumerate(rest);
  }

  lemma {:induction false} MetLastIsSpared(z: ZIndex, count: nat, lowest: bool, m: Bytes)
    requires InExtremeBucket(z, lowest, m) && count < |z.byScore[Extreme(z, lowest)]|
    ensures m in Pop(z, count, MeetsLast(m), lowest).left.scores
    decreases count
  {
    var s := Extreme(z, lowest);
    assert InBucket(z.byScore, s, m);
    if count > 0 {
      var x := AnotherIsNext(z, lowest, m);
      assert InBucket(z.byScore, s, x);
      RemoveKeepsIndexes(z, x);
      RemoveFromBucket(z, s, x, lowest);
      MetLastIsSpared(Remove(z, x), count - 1, lowest, m);
    }
  }

  /** `m` is taken when it is met first and stays when it is met last. */
  ghost predicate Shows(z: ZIndex, count: nat, lowest: bool, m: Bytes) {
    && m !in Pop(z, count, MeetsFirst(m), lowest).left.scores
    && m in Pop(z, count, MeetsLast(m), lowest).left.scores
  }

  lemma ShowsFurtherOn(z: ZIndex, count: nat, lowest: bool, s: Score, m: Bytes)
    requires Ready(z, count, lowest, s) && Shows(DropBucket(z, s), count - |z.byScore[s]|, lowest, m)
    ensures Shows(z, count, lowest, m)
  {
    BothIterate(m);
    PopEmptiesBucket(z, count, MeetsFirst(m), lowest, s);
    PopEmptiesBucket(z, count, MeetsLast(m), lowest, s);
  }

  /** A pop that cuts a tie treats some member differently under different orders. */
  lemma {:induction false} CutTieShows(z: ZIndex, count: nat, lowest: bool) returns (m: Bytes)
    requires Valid(z) && !WholeBuckets(z, count, lowest)
    ensures Shows(z, count, lowest, m)
    decreases count
  {
    var s := Extreme(z, lowest);
    var bucket := z.byScore[s];
    assert bucket != {};
    if |bucket| <= count {
      DropBucketKeepsIndexes(z, s);
      m := CutTieShows(DropBucket(z, s), count - |bucket|, lowest);
      ShowsFurtherOn(z, count, lowest, s, m);
    } else {
      m := SomeOf(bucket);
      MetFirstIsTaken(z, count, lowest, m);
      MetLastIsSpared(z, count, lowest, m);
    }
  }

  /** What a pop leaves is the same under every iteration order if and only if it
      takes whole buckets. */
  lemma OrderMattersIffTieIsCut(z: ZIndex, count: nat, lowest: bool)
    requires Valid(z)
    ensures WholeBuckets(z, count, lowest) <==>
              forall o1: Order, o2: Order | Iterates(o1) && Iterates(o2) ::
                Pop(z, count, o1, lowest).left == Pop(z, count, o2, lowest).left
  {
    if WholeBuckets(z, count, lowest) {
      forall o1: Order, o2: Order | Iterates(o1) && Iterates(o2)
        ensures Pop(z, count, o1, lowest).left == Pop(z, count, o2, lowest).left
      {
        PopIgnoresOrder(z, count, o1, o2, lowest);
      }
    } else {
      var m := CutTieShows(z, count, lowest);
      BothIterate(m);
      assert Pop(z, count, MeetsFirst(m), lowest).left != Pop(z, count, MeetsLast(m), lowest).left;
    }
  }
}
