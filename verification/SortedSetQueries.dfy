/** The ordered queries of a sorted set: listings, windows and score ranges. */
module SortedSetQueries {
  import opened Primitives
  import opened Z = SortedSets

  // ---- Listings ----

  function Tagged(ms: seq<Bytes>, s: Score): (r: seq<(Bytes, Score)>)
    ensures |r| == |ms| && forall i | 0 <= i < |r| :: r[i] == (ms[i], s)
  {
    seq(|ms|, i requires 0 <= i < |ms| => (ms[i], s))
  }

  /** Members of the buckets `keys`: buckets ascending, each in hash order. */
  function Listing(z: ZIndex, keys: set<Score>, order: set<Bytes> -> seq<Bytes>): seq<(Bytes, Score)>
    requires keys <= z.byScore.Keys
    decreases |keys|
  {
    if keys == {} then []
    else
      var s := Least(keys);
      Tagged(order(z.byScore[s]), s) + Listing(z, keys - {s}, order)
  }

  ghost function MembersIn(z: ZIndex, keys: set<Score>): set<Bytes> {
    set m | m in z.scores && z.scores[m] in keys
  }

  /** `q` lists the members with a score in `keys`, each once, with their scores,
      by ascending score. */
  ghost predicate ListsByScore(z: ZIndex, q: seq<(Bytes, Score)>, keys: set<Score>) {
    && (forall i | 0 <= i < |q| :: q[i].0 in z.scores && z.scores[q[i].0] == q[i].1 && q[i].1 in keys)
    && (forall i, j | 0 <= i < j < |q| :: q[i].0 != q[j].0 && q[i].1 <= q[j].1)
    && Members(q) == MembersIn(z, keys)
  }

  lemma MembersJoin(a: seq<(Bytes, Score)>, b: seq<(Bytes, Score)>)
    ensures Members(a + b) == Members(a) + Members(b)
  {
    forall m | m in Members(a) + Members(b) ensures m in Members(a + b) {
      if m in Members(a) { var i :| 0 <= i < |a| && a[i].0 == m; assert (a + b)[i].0 == m; }
      else { var i :| 0 <= i < |b| && b[i].0 == m; assert (a + b)[|a| + i].0 == m; }
    }
  }

  lemma ListedOnce<T(!new)>(q: seq<T>, s: set<T>)
    requires Lists(q, s)
    ensures forall i, j | 0 <= i < j < |q| :: q[i] != q[j]
  {
    forall i, j | 0 <= i < j < |q| ensures q[i] != q[j] {
      if q[i] == q[j] {
        var shorter := q[..j] + q[j + 1..];
        forall x | x in s ensures x in shorter {
          var k :| 0 <= k < |q| && q[k] == x;
          if k < j { assert shorter[k] == x; }
          else if k == j { assert shorter[i] == x; }
          else { assert shorter[k - 1] == x; }
        }
        TooFewToCover(shorter, s);
      }
    }
  }

  lemma {:induction false} TooFewToCover<T(!new)>(q: seq<T>, s: set<T>)
    requires forall x | x in s :: x in q
    ensures |s| <= |q|
  {
    if q == [] {
      assert s == {};
    } else {
      var s' := s - {q[0]};
      forall x | x in s' ensures x in q[1..] { assert x in q; }
      TooFewToCover(q[1..], s');
      assert s <= s' + {q[0]};
      assert |s| <= |s' + {q[0]}| by { SubsetSize(s, s' + {q[0]}); }
    }
  }

  lemma {:induction false} SubsetSize<T>(a: set<T>, b: set<T>)
    requires a <= b
    ensures |a| <= |b|
  {
    if x :| x in a { SubsetSize(a - {x}, b - {x}); }
  }

  lemma BucketListed(z: ZIndex, s: Score, order: set<Bytes> -> seq<Bytes>)
    requires Valid(z) && Iterates(order) && s in z.byScore
    ensures ListsByScore(z, Tagged(order(z.byScore[s]), s), {s})
  {
    var bucket := z.byScore[s];
    var q := Tagged(order(bucket), s);
    assert Lists(order(bucket), bucket);
    ListedOnce(order(bucket), bucket);
    forall i | 0 <= i < |q| ensures q[i].0 in z.scores && z.scores[q[i].0] == s {
      assert InBucket(z.byScore, s, order(bucket)[i]);
    }
    forall m | m in MembersIn(z, {s}) ensures m in Members(q) {
      assert InBucket(z.byScore, z.scores[m], m);
      var i :| 0 <= i < |order(bucket)| && order(bucket)[i] == m;
      assert q[i].0 == m;
    }
  }

  lemma JoinListings(z: ZIndex, a: seq<(Bytes, Score)>, b: seq<(Bytes, Score)>, s: Score, keys: set<Score>)
    requires ListsByScore(z, a, {s}) && ListsByScore(z, b, keys)
    requires s !in keys && forall t | t in keys :: s <= t
    ensures ListsByScore(z, a + b, keys + {s})
  {
    var q := a + b;
    MembersJoin(a, b);
    assert MembersIn(z, keys + {s}) == MembersIn(z, {s}) + MembersIn(z, keys);
    forall i, j | 0 <= i < j < |q| ensures q[i].0 != q[j].0 && q[i].1 <= q[j].1 {
      if i < |a| && |a| <= j { assert q[i] == a[i] && q[j] == b[j - |a|]; }
    }
  }

  /** Every listing is complete, duplicate-free and ascending in score. */
  lemma {:induction false} ListingLists(z: ZIndex, keys: set<Score>, order: set<Bytes> -> seq<Bytes>)
    requires Valid(z) && Iterates(order) && keys <= z.byScore.Keys
    ensures ListsByScore(z, Listing(z, keys, order), keys)
    decreases |keys|
  {
    if keys == {} {
      assert Members([]) == {} == MembersIn(z, keys);
    } else {
      var s := Least(keys);
      BucketListed(z, s, order);
      ListingLists(z, keys - {s}, order);
      JoinListings(z, Tagged(order(z.byScore[s]), s), Listing(z, keys - {s}, order), s, keys - {s});
      assert keys - {s} + {s} == keys;
    }
  }

  /** Positions start..=stop of `q`, cut at its end. */
  function Window<T>(q: seq<T>, start: nat, stop: nat): (r: seq<T>)
    ensures var end := if stop < |q| then stop + 1 else |q|; |r| == if start < end then end - start else 0
    ensures forall i | 0 <= i < |r| :: r[i] == q[start + i]
  {
    if start > stop || start >= |q| then []
    else if stop < |q| then q[start..stop + 1]
    else q[start..]
  }

  function InRange(keys: set<Score>, min: Score, max: Score): set<Score> {
    set s | s in keys && min <= s <= max
  }

  /** ZRANGEBYSCORE's listing is exactly the score filter. */
  lemma RangeByScoreIsFilter(z: ZIndex, min: Score, max: Score, order: set<Bytes> -> seq<Bytes>)
    requires Valid(z) && Iterates(order)
    ensures var q := Listing(z, InRange(z.byScore.Keys, min, max), order);
            ListsByScore(z, q, InRange(z.byScore.Keys, min, max)) &&
            Members(q) == set m | m in z.scores && min <= z.scores[m] <= max
  {
    ListingLists(z, InRange(z.byScore.Keys, min, max), order);
    forall m | m in z.scores ensures z.scores[m] in z.byScore.Keys {
      assert InBucket(z.byScore, z.scores[m], m);
    }
  }
}
