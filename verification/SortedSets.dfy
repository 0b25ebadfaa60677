/** The two-index sorted set of data_structures/sorted_set.rs. Scores are reals
    (a total order); the iteration order of a hash set is a parameter. */
module SortedSets {
  import opened Primitives

  type Score = real

  /** Score -> members, and member -> score. */
  datatype ZIndex = ZIndex(byScore: map<Score, set<Bytes>>, scores: map<Bytes, Score>)

  const EMPTY := ZIndex(map[], map[])

  /** `m` stands in the bucket of score `s`. */
  ghost predicate InBucket(byScore: map<Score, set<Bytes>>, s: Score, m: Bytes) {
    s in byScore && m in byScore[s]
  }

  ghost predicate NoEmptyBucket(byScore: map<Score, set<Bytes>>) {
    forall s | s in byScore :: byScore[s] != {}
  }

  /** The two indexes are mutually inverse and no bucket is empty. */
  ghost predicate Valid(z: ZIndex) {
    && (forall m | m in z.scores :: InBucket(z.byScore, z.scores[m], m))
    && (forall s, m :: InBucket(z.byScore, s, m) ==> m in z.scores && z.scores[m] == s)
    && NoEmptyBucket(z.byScore)
  }

  // ---- Updates ----

  function DropMember(byScore: map<Score, set<Bytes>>, s: Score, m: Bytes): map<Score, set<Bytes>> {
    if s !in byScore then byScore
    else if byScore[s] - {m} == {} then byScore - {s}
    else byScore[s := byScore[s] - {m}]
  }

  function Add(z: ZIndex, score: Score, m: Bytes): ZIndex {
    var cleared := if m in z.scores then DropMember(z.byScore, z.scores[m], m) else z.byScore;
    var bucket := if score in cleared then cleared[score] else {};
    ZIndex(cleared[score := bucket + {m}], z.scores[m := score])
  }

  function Remove(z: ZIndex, m: Bytes): ZIndex {
    if m !in z.scores then z
    else ZIndex(DropMember(z.byScore, z.scores[m], m), z.scores - {m})
  }

  lemma DropMemberDrops(byScore: map<Score, set<Bytes>>, s: Score, m: Bytes)
    requires NoEmptyBucket(byScore)
    ensures NoEmptyBucket(DropMember(byScore, s, m))
    ensures forall t, x :: InBucket(DropMember(byScore, s, m), t, x) <==> InBucket(byScore, t, x) && !(t == s && x == m)
  {
    var after := DropMember(byScore, s, m);
    forall t, x
      ensures InBucket(after, t, x) <==> InBucket(byScore, t, x) && !(t == s && x == m)
    {
      if t == s && s in byScore && byScore[s] - {m} == {} && x in byScore[s] {
        assert x !in byScore[s] - {m};
      }
    }
  }

  lemma AddKeepsIndexes(z: ZIndex, score: Score, m: Bytes)
    requires Valid(z)
    ensures Valid(Add(z, score, m)) && Add(z, score, m).scores == z.scores[m := score]
  {
    var w := Add(z, score, m);
    if m in z.scores { DropMemberDrops(z.byScore, z.scores[m], m); }
    forall x | x in w.scores ensures InBucket(w.byScore, w.scores[x], x) {
      if x != m { assert InBucket(z.byScore, z.scores[x], x); }
    }
    forall s, x | InBucket(w.byScore, s, x) ensures x in w.scores && w.scores[x] == s {
      if !(s == score && x == m) { assert InBucket(z.byScore, s, x); }
    }
  }

  lemma RemoveKeepsIndexes(z: ZIndex, m: Bytes)
    requires Valid(z)
    ensures Valid(Remove(z, m)) && Remove(z, m).scores == z.scores - {m}
  {
    var w := Remove(z, m);
    if m in z.scores {
      DropMemberDrops(z.byScore, z.scores[m], m);
      forall x | x in w.scores ensures InBucket(w.byScore, w.scores[x], x) {
        assert InBucket(z.byScore, z.scores[x], x);
      }
      forall s, x | InBucket(w.byScore, s, x) ensures x in w.scores && w.scores[x] == s {
        assert InBucket(z.byScore, s, x);
      }
    }
  }

  /** A valid pair of indexes is determined by the member index alone. */
  lemma IndexesAreCanonical(z: ZIndex, w: ZIndex)
    requires Valid(z) && Valid(w) && z.scores == w.scores
    ensures z == w
  {
    assert forall s, m :: InBucket(z.byScore, s, m) <==> m in z.scores && z.scores[m] == s;
    assert forall s, m :: InBucket(w.byScore, s, m) <==> m in z.scores && z.scores[m] == s;
    SameBuckets(z.byScore, w.byScore);
  }

  lemma SameBuckets(a: map<Score, set<Bytes>>, b: map<Score, set<Bytes>>)
    requires NoEmptyBucket(a) && NoEmptyBucket(b) && forall s, m :: InBucket(a, s, m) <==> InBucket(b, s, m)
    ensures a == b
  {
    forall s | s in a ensures s in b {
      var m :| m in a[s];
      assert InBucket(a, s, m);
    }
    forall s | s in b ensures s in a && a[s] == b[s] {
      var m :| m in b[s];
      assert InBucket(b, s, m);
      assert InBucket(a, s, m);
      forall x ensures x in a[s] <==> x in b[s] {
        assert InBucket(a, s, x) <==> InBucket(b, s, x);
      }
    }
  }

  // ---- Ascending scores ----

  /** `s` is a score of `keys` that no other one comes before. */
  predicate IsExtreme(s: Score, keys: set<Score>, lowest: bool) {
    s in keys && forall t | t in keys :: NotAfter(s, t, lowest)
  }

  /** `a` may come out before `b`. */
  predicate NotAfter(a: Score, b: Score, lowest: bool) {
    if lowest then a <= b else b <= a
  }

  lemma ExtremeWithOneMore(s: Score, rest: set<Score>, x: Score, lowest: bool)
    requires IsExtreme(s, rest, lowest)
    ensures IsExtreme(if NotAfter(x, s, lowest) then x else s, rest + {x}, lowest)
  {
  }

  lemma SomeOf<T>(s: set<T>) returns (x: T)
    requires s != {}
    ensures x in s
  {
    x :| x in s;
  }

  lemma {:induction false} ExtremeExists(keys: set<Score>, lowest: bool)
    requires keys != {}
    ensures exists s :: IsExtreme(s, keys, lowest)
    decreases |keys|
  {
    var x := SomeOf(keys);
    var rest := keys - {x};
    if rest == {} {
      assert keys == {x};
      assert IsExtreme(x, keys, lowest);
    } else {
      ExtremeExists(rest, lowest);
      var s :| IsExtreme(s, rest, lowest);
      ExtremeWithOneMore(s, rest, x, lowest);
      assert rest + {x} == keys;
    }
  }

  function Least(keys: set<Score>): (s: Score)
    requires keys != {}
    ensures s in keys && forall t | t in keys :: s <= t
  {
    ExtremeExists(keys, true);
    var s :| s in keys && IsExtreme(s, keys, true);
    assert forall t | t in keys :: NotAfter(s, t, true);
    s
  }

  function Greatest(keys: set<Score>): (s: Score)
    requires keys != {}
    ensures s in keys && forall t | t in keys :: t <= s
  {
    ExtremeExists(keys, false);
    var s :| s in keys && IsExtreme(s, keys, false);
    assert forall t | t in keys :: NotAfter(s, t, false);
    s
  }

  // ---- Hash iteration order ----

  /** `q` lists each element of `s` once. */
  ghost predicate Lists<T(!new)>(q: seq<T>, s: set<T>) {
    |q| == |s| && forall x :: x in q <==> x in s
  }

  /** `order` is some iteration order of hash sets. */
  ghost predicate Iterates(order: set<Bytes> -> seq<Bytes>) {
    forall s {:trigger Lists(order(s), s)} :: Lists(order(s), s)
  }

  // ---- Popping ----

  datatype Popped = Popped(out: seq<(Bytes, Score)>, left: ZIndex)

  /** The member that the next pop takes. */
  function NextOut(z: ZIndex, order: set<Bytes> -> seq<Bytes>, lowest: bool): (r: (Bytes, Score))
    requires z.byScore.Keys != {} && order(z.byScore[Extreme(z, lowest)]) != []
  {
    (order(z.byScore[Extreme(z, lowest)])[0], Extreme(z, lowest))
  }

  function Extreme(z: ZIndex, lowest: bool): (s: Score)
    requires z.byScore.Keys != {}
    ensures s in z.byScore
  {
    if lowest then Least(z.byScore.Keys) else Greatest(z.byScore.Keys)
  }

  /** `pop_min` (lowest) and `pop_max`: stop early on an empty index or bucket. */
  function Pop(z: ZIndex, count: nat, order: set<Bytes> -> seq<Bytes>, lowest: bool): Popped
    decreases count
  {
    if count == 0 || z.byScore.Keys == {} || order(z.byScore[Extreme(z, lowest)]) == [] then Popped([], z)
    else
      var next := NextOut(z, order, lowest);
      var rest := Pop(Remove(z, next.0), count - 1, order, lowest);
      Popped([next] + rest.out, rest.left)
  }

  function Members(out: seq<(Bytes, Score)>): set<Bytes> {
    set i | 0 <= i < |out| :: out[i].0
  }

  lemma NextOutIsExtreme(z: ZIndex, order: set<Bytes> -> seq<Bytes>, lowest: bool)
    requires Valid(z) && Iterates(order) && z.scores != map[]
    ensures z.byScore.Keys != {} && order(z.byScore[Extreme(z, lowest)]) != []
    ensures var next := NextOut(z, order, lowest);
            next.0 in z.scores && z.scores[next.0] == next.1 &&
            forall m | m in z.scores :: NotAfter(next.1, z.scores[m], lowest)
  {
    var m :| m in z.scores;
    assert InBucket(z.byScore, z.scores[m], m);
    var bucket := z.byScore[Extreme(z, lowest)];
    assert Lists(order(bucket), bucket) && bucket != {};
    assert order(bucket)[0] in bucket;
    assert InBucket(z.byScore, Extreme(z, lowest), order(bucket)[0]);
    forall x | x in z.scores ensures NotAfter(Extreme(z, lowest), z.scores[x], lowest) {
      assert InBucket(z.byScore, z.scores[x], x);
    }
  }

  lemma ValidEmpty(z: ZIndex)
    requires Valid(z) && z.scores == map[]
    ensures z.byScore.Keys == {}
  {
    if z.byScore.Keys != {} {
      var s := Least(z.byScore.Keys);
      var m :| m in z.byScore[s];
      assert InBucket(z.byScore, s, m);
      assert false;
    }
  }

  /** `out` holds members of `z` with their scores, each once, in pop order,
      and nothing left behind in `left` could have come out before them. */
  ghost predicate TakesExtremes(z: ZIndex, out: seq<(Bytes, Score)>, left: ZIndex, lowest: bool) {
    && (forall i | 0 <= i < |out| :: out[i].0 in z.scores && z.scores[out[i].0] == out[i].1)
    && (forall i, j | 0 <= i < j < |out| :: out[i].0 != out[j].0 && NotAfter(out[i].1, out[j].1, lowest))
    && left.scores == z.scores - Members(out)
    && (forall i, m | 0 <= i < |out| && m in left.scores :: NotAfter(out[i].1, left.scores[m], lowest))
  }

  lemma TakesOneMore(z: ZIndex, next: (Bytes, Score), out: seq<(Bytes, Score)>, left: ZIndex, lowest: bool)
    requires next.0 in z.scores && z.scores[next.0] == next.1
    requires forall m | m in z.scores :: NotAfter(next.1, z.scores[m], lowest)
    requires TakesExtremes(ZIndex(map[], z.scores - {next.0}), out, left, lowest)
    ensures TakesExtremes(z, [next] + out, left, lowest)
  {
    var all := [next] + out;
    MembersCons(next, out);
    assert left.scores == z.scores - Members(all);
    forall i | 0 <= i < |all| ensures all[i].0 in z.scores && z.scores[all[i].0] == all[i].1 {
      if i > 0 { assert all[i] == out[i - 1]; }
    }
    forall i, j | 0 <= i < j < |all| ensures all[i].0 != all[j].0 && NotAfter(all[i].1, all[j].1, lowest) {
      assert all[j] == out[j - 1];
      if i > 0 { assert all[i] == out[i - 1]; }
    }
    forall i, m | 0 <= i < |all| && m in left.scores ensures NotAfter(all[i].1, left.scores[m], lowest) {
      if i > 0 { assert all[i] == out[i - 1]; } else { assert m in z.scores; }
    }
  }

  ghost predicate PoppedWell(z: ZIndex, count: nat, p: Popped, lowest: bool) {
    && |p.out| == (if count <= |z.scores| then count else |z.scores|)
    && TakesExtremes(z, p.out, p.left, lowest)
    && Valid(p.left)
  }

  lemma PopStops(z: ZIndex, lowest: bool)
    requires Valid(z)
    ensures PoppedWell(z, 0, Popped([], z), lowest)
  {
    assert Members([]) == {};
    assert z.scores - {} == z.scores;
  }

  lemma PopTurn(z: ZIndex, count: nat, next: (Bytes, Score), rest: Popped, lowest: bool)
    requires Valid(z) && count > 0 && next.0 in z.scores && z.scores[next.0] == next.1
    requires forall m | m in z.scores :: NotAfter(next.1, z.scores[m], lowest)
    requires PoppedWell(Remove(z, next.0), count - 1, rest, lowest)
    ensures PoppedWell(z, count, Popped([next] + rest.out, rest.left), lowest)
  {
    var w := Remove(z, next.0);
    assert w.scores.Keys == z.scores.Keys - {next.0};
    assert w.scores == z.scores - {next.0};
    TakesOneMore(z, next, rest.out, rest.left, lowest);
  }

  /** What a pop returns and what it leaves, for every iteration order: exactly
      min(count, len) members with their scores, in score order; the rest keeps
      its scores and lies on the far side of everything returned. */
  lemma {:induction false} PopTakesExtremes(z: ZIndex, count: nat, order: set<Bytes> -> seq<Bytes>, lowest: bool)
    requires Valid(z) && Iterates(order)
    ensures PoppedWell(z, count, Pop(z, count, order, lowest), lowest)
    decreases count
  {
    if z.scores == map[] {
      ValidEmpty(z);
      PopStops(z, lowest);
    } else if count > 0 {
      NextOutIsExtreme(z, order, lowest);
      var next := NextOut(z, order, lowest);
      RemoveKeepsIndexes(z, next.0);
      PopTakesExtremes(Remove(z, next.0), count - 1, order, lowest);
      PopTurn(z, count, next, Pop(Remove(z, next.0), count - 1, order, lowest), lowest);
    } else {
      PopStops(z, lowest);
    }
  }

  lemma PopKeepsIndexes(z: ZIndex, count: nat, order: set<Bytes> -> seq<Bytes>, lowest: bool)
    requires Valid(z) && Iterates(order)
    ensures Valid(Pop(z, count, order, lowest).left)
  {
    PopTakesExtremes(z, count, order, lowest);
  }

  lemma MembersCons(x: (Bytes, Score), out: seq<(Bytes, Score)>)
    ensures Members([x] + out) == {x.0} + Members(out)
  {
    var all := [x] + out;
    forall m | m in {x.0} + Members(out) ensures m in Members(all) {
      if m == x.0 { assert all[0].0 == m; }
      else { var i :| 0 <= i < |out| && out[i].0 == m; assert all[i + 1].0 == m; }
    }
  }

  /** The pop takes whole buckets: no tie is cut in two. */
  ghost predicate WholeBuckets(z: ZIndex, count: nat, lowest: bool)
    decreases count
  {
    count == 0 || z.byScore.Keys == {} ||
    var s := Extreme(z, lowest);
    0 < |z.byScore[s]| <= count && WholeBuckets(DropBucket(z, s), count - |z.byScore[s]|, lowest)
  }

  ghost function DropBucket(z: ZIndex, s: Score): ZIndex
    requires s in z.byScore
  {
    ZIndex(z.byScore - {s}, z.scores - z.byScore[s])
  }

  lemma DropBucketKeepsIndexes(z: ZIndex, s: Score)
    requires Valid(z) && s in z.byScore
    ensures Valid(DropBucket(z, s))
  {
    var w := DropBucket(z, s);
    forall m | m in w.scores ensures InBucket(w.byScore, w.scores[m], m) {
      assert InBucket(z.byScore, z.scores[m], m);
    }
    forall t, m | InBucket(w.byScore, t, m) ensures m in w.scores && w.scores[m] == t {
      assert InBucket(z.byScore, t, m);
      if m in z.byScore[s] { assert InBucket(z.byScore, s, m); }
    }
  }

  lemma RemoveLastOfBucket(z: ZIndex, s: Score, m: Bytes)
    requires m in z.scores && z.scores[m] == s && s in z.byScore && z.byScore[s] == {m}
    ensures Remove(z, m) == DropBucket(z, s)
  {
    assert z.byScore[s] - {m} == {};
  }

  lemma RemoveFromBucket(z: ZIndex, s: Score, m: Bytes, lowest: bool)
    requires m in z.scores && z.scores[m] == s && s in z.byScore && m in z.byScore[s] && z.byScore[s] != {m}
    requires s == Extreme(z, lowest)
    ensures var w := Remove(z, m);
            w.byScore.Keys == z.byScore.Keys && w.byScore[s] == z.byScore[s] - {m} &&
            Extreme(w, lowest) == s && DropBucket(w, s) == DropBucket(z, s) &&
            0 < |w.byScore[s]| == |z.byScore[s]| - 1
  {
    var bucket, w := z.byScore[s], Remove(z, m);
    assert bucket - {m} != {} by { var x :| x in bucket && x != m; assert x in bucket - {m}; }
    assert w.byScore == z.byScore[s := bucket - {m}];
    assert w.byScore.Keys == z.byScore.Keys;
    assert w.scores - w.byScore[s] == z.scores - bucket;
  }

  /** The first turn of a pop takes some member of the extreme bucket. */
  lemma PopOnce(z: ZIndex, count: nat, order: set<Bytes> -> seq<Bytes>, lowest: bool) returns (m: Bytes)
    requires Valid(z) && Iterates(order) && z.byScore.Keys != {} && count > 0
    ensures m in z.scores && z.scores[m] == Extreme(z, lowest) && m in z.byScore[Extreme(z, lowest)]
    ensures Valid(Remove(z, m))
    ensures Pop(z, count, order, lowest).left == Pop(Remove(z, m), count - 1, order, lowest).left
  {
    var s := Extreme(z, lowest);
    var some :| some in z.byScore[s];
    assert InBucket(z.byScore, s, some);
    NextOutIsExtreme(z, order, lowest);
    m := NextOut(z, order, lowest).0;
    assert InBucket(z.byScore, s, m);
    RemoveKeepsIndexes(z, m);
  }

  /** Popping `count` leaves what popping the rest from a set without the extreme bucket leaves. */
  ghost predicate EmptiesFirst(z: ZIndex, count: nat, order: set<Bytes> -> seq<Bytes>, lowest: bool, s: Score)
    requires s in z.byScore && |z.byScore[s]| <= count
  {
    Pop(z, count, order, lowest).left == Pop(DropBucket(z, s), count - |z.byScore[s]|, order, lowest).left
  }

  lemma EmptiedByOne(z: ZIndex, count: nat, order: set<Bytes> -> seq<Bytes>, lowest: bool, s: Score, m: Bytes)
    requires count > 0 && m in z.scores && z.scores[m] == s && s in z.byScore && z.byScore[s] == {m}
    requires Pop(z, count, order, lowest).left == Pop(Remove(z, m), count - 1, order, lowest).left
    ensures EmptiesFirst(z, count, order, lowest, s)
  {
    RemoveLastOfBucket(z, s, m);
  }

  lemma EmptiedFurther(z: ZIndex, w: ZIndex, count: nat, order: set<Bytes> -> seq<Bytes>, lowest: bool, s: Score)
    requires s in z.byScore && s in w.byScore && |w.byScore[s]| == |z.byScore[s]| - 1
    requires DropBucket(w, s) == DropBucket(z, s) && |z.byScore[s]| <= count
    requires Pop(z, count, order, lowest).left == Pop(w, count - 1, order, lowest).left
    requires EmptiesFirst(w, count - 1, order, lowest, s)
    ensures EmptiesFirst(z, count, order, lowest, s)
  {
    assert count - 1 - |w.byScore[s]| == count - |z.byScore[s]|;
  }

  /** A set whose extreme bucket is `s`, and holds between one and `count` members. */
  ghost predicate Ready(z: ZIndex, count: nat, lowest: bool, s: Score) {
    Valid(z) && z.byScore.Keys != {} && s == Extreme(z, lowest) && 0 < |z.byScore[s]| <= count
  }

  /** One turn either empties the extreme bucket or makes it smaller by one. */
  lemma EmptyOneTurn(z: ZIndex, count: nat, order: set<Bytes> -> seq<Bytes>, lowest: bool, s: Score)
    returns (w: ZIndex, emptied: bool)
    requires Ready(z, count, lowest, s) && Iterates(order)
    ensures if emptied then EmptiesFirst(z, count, order, lowest, s) else
            (&& Ready(w, count - 1, lowest, s) && |w.byScore[s]| == |z.byScore[s]| - 1
             && DropBucket(w, s) == DropBucket(z, s)
             && Pop(z, count, order, lowest).left == Pop(w, count - 1, order, lowest).left)
  {
    var m := PopOnce(z, count, order, lowest);
    w, emptied := Remove(z, m), z.byScore[s] == {m};
    if emptied {
      EmptiedByOne(z, count, order, lowest, s, m);
    } else {
      RemoveFromBucket(z, s, m, lowest);
    }
  }

  /** Popping at least as many members as the extreme bucket holds first empties it. */
  lemma {:induction false} PopEmptiesBucket(z: ZIndex, count: nat, order: set<Bytes> -> seq<Bytes>, lowest: bool,
                                            s: Score)
    requires Ready(z, count, lowest, s) && Iterates(order)
    ensures EmptiesFirst(z, count, order, lowest, s)
    decreases count
  {
    var w, emptied := EmptyOneTurn(z, count, order, lowest, s);
    if !emptied {
      PopEmptiesBucket(w, count - 1, order, lowest, s);
      EmptiedFurther(z, w, count, order, lowest, s);
    }
  }

  /** When no tie is cut, what remains does not depend on the iteration order. */
  lemma {:induction false} PopIgnoresOrder(z: ZIndex, count: nat, o1: set<Bytes> -> seq<Bytes>,
                                           o2: set<Bytes> -> seq<Bytes>, lowest: bool)
    requires Valid(z) && Iterates(o1) && Iterates(o2) && WholeBuckets(z, count, lowest)
    ensures Pop(z, count, o1, lowest).left == Pop(z, count, o2, lowest).left
    decreases count
  {
    if count > 0 && z.byScore.Keys != {} {
      var s := Extreme(z, lowest);
      PopEmptiesBucket(z, count, o1, lowest, s);
      PopEmptiesBucket(z, count, o2, lowest, s);
      DropBucketKeepsIndexes(z, s);
      PopIgnoresOrder(DropBucket(z, s), count - |z.byScore[s]|, o1, o2, lowest);
    }
  }
}
