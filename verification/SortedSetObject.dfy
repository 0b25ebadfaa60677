/** The sorted set as the object that the server updates in place. */
module SortedSetObject {
  import opened Primitives
  import Z = SortedSets
  import opened SortedSetQueries
  import opened SortedSetRanks

  lemma WindowGrows<T>(q: seq<T>, n: nat, start: nat, stop: nat)
    requires n < |q| && n <= stop
    ensures Window(q[..n + 1], start, stop) == Window(q[..n], start, stop) + (if n >= start then [q[n]] else [])
    ensures n == stop ==> Window(q[..n + 1], start, stop) == Window(q, start, stop)
  {
    if start <= n { assert q[..n + 1][start..] == q[..n][start..] + [q[n]]; }
  }

  lemma WindowOfPrefix<T>(q: seq<T>, more: seq<T>, start: nat, stop: nat)
    requires |q| > stop
    ensures Window(q + more, start, stop) == Window(q, start, stop)
  {
  }

  /** `all` is what `out` and then the pop `rest` amount to. */
  ghost predicate PoppedSoFar(all: Z.Popped, out: seq<(Bytes, Z.Score)>, rest: Z.Popped) {
    all == Z.Popped(out + rest.out, rest.left)
  }

  lemma PopBegins(all: Z.Popped)
    ensures PoppedSoFar(all, [], all)
  {
    assert [] + all.out == all.out;
  }

  lemma PopStep(all: Z.Popped, out: seq<(Bytes, Z.Score)>, z: Z.ZIndex, count: nat,
                order: set<Bytes> -> seq<Bytes>, lowest: bool)
    requires count > 0 && z.byScore.Keys != {} && order(z.byScore[Z.Extreme(z, lowest)]) != []
    requires PoppedSoFar(all, out, Z.Pop(z, count, order, lowest))
    ensures var next := Z.NextOut(z, order, lowest);
            PoppedSoFar(all, out + [next], Z.Pop(Z.Remove(z, next.0), count - 1, order, lowest))
  {
    var next := Z.NextOut(z, order, lowest);
    Assoc(out, [next], Z.Pop(Z.Remove(z, next.0), count - 1, order, lowest).out);
  }

  class SortedSetValue {
    var byScore: map<Z.Score, set<Bytes>>
    var scores: map<Bytes, Z.Score>

    constructor ()
      ensures Index() == Z.EMPTY && Z.Valid(Index())
    {
      byScore, scores := map[], map[];
    }

    ghost function Index(): Z.ZIndex
      reads this
    {
      Z.ZIndex(byScore, scores)
    }

    method ForgetScore(member: Bytes)
      requires member in scores
      modifies `byScore
      ensures byScore == Z.DropMember(old(byScore), scores[member], member)
    {
      var score := scores[member];
      if score in byScore {
        byScore := byScore[score := byScore[score] - {member}];
        if byScore[score] == {} { byScore := byScore - {score}; }
      }
    }

    method Add(score: Z.Score, member: Bytes) returns (r: bool)
      requires Z.Valid(Index())
      modifies this
      ensures r && Z.Valid(Index()) && Index() == Z.Add(old(Index()), score, member)
    {
      ghost var z := Z.Add(Index(), score, member);
      Z.AddKeepsIndexes(Index(), score, member);
      if member in scores { ForgetScore(member); }
      scores := scores[member := score];
      if score !in byScore { byScore := byScore[score := {}]; }
      byScore := byScore[score := byScore[score] + {member}];
      assert byScore == z.byScore;
      return true;
    }

    method Remove(member: Bytes) returns (r: bool)
      requires Z.Valid(Index())
      modifies this
      ensures Z.Valid(Index()) && Index() == Z.Remove(old(Index()), member) && r == (member in old(scores))
    {
      Z.RemoveKeepsIndexes(Index(), member);
      if member !in scores { return false; }
      ForgetScore(member);
      scores := scores - {member};
      return true;
    }

    /** `pop_min` when `lowest`, else `pop_max`. */
    method Pop(count: nat, order: set<Bytes> -> seq<Bytes>, lowest: bool) returns (out: seq<(Bytes, Z.Score)>)
      requires Z.Valid(Index())
      modifies this
      ensures Z.Valid(Index()) && Z.Popped(out, Index()) == Z.Pop(old(Index()), count, order, lowest)
    {
      out := [];
      ghost var all := Z.Pop(Index(), count, order, lowest);
      PopBegins(all);
      while |out| < count
        invariant |out| <= count && Z.Valid(Index())
        invariant PoppedSoFar(all, out, Z.Pop(Index(), count - |out|, order, lowest))
      {
        if byScore.Keys == {} { break; }
        var score := if lowest then Z.Least(byScore.Keys) else Z.Greatest(byScore.Keys);
        var members := order(byScore[score]);
        if members == [] { break; }
        PopStep(all, out, Index(), count - |out|, order, lowest);
        var _ := Remove(members[0]);
        out := out + [(members[0], score)];
      }
      assert out + [] == out;
    }

    /** One bucket of `get_range`: count every member, keep those in the window. */
    method ScanBucket(members: seq<Bytes>, score: Z.Score, start: nat, stop: nat,
                      result: seq<(Bytes, Z.Score)>, count: nat, ghost done: seq<(Bytes, Z.Score)>)
      returns (r: seq<(Bytes, Z.Score)>, n: nat, full: bool)
      requires count == |done| <= stop && result == Window(done, start, stop)
      ensures r == Window(done + Tagged(members, score), start, stop)
      ensures !full ==> n == count + |members| <= stop
      ensures full ==> count + |members| > stop
    {
      r, n := result, count;
      ghost var all := done + Tagged(members, score);
      for k := 0 to |members|
        invariant n == count + k <= stop && r == Window(all[..n], start, stop)
      {
        WindowGrows(all, n, start, stop);
        if n >= start { r := r + [(members[k], score)]; }
        n := n + 1;
        if n > stop { return r, n, true; }
      }
      assert all[..n] == all;
      return r, n, false;
    }

    method GetRange(start: nat, stop: nat, order: set<Bytes> -> seq<Bytes>) returns (result: seq<(Bytes, Z.Score)>)
      ensures result == Window(Listing(Index(), byScore.Keys, order), start, stop)
    {
      result := [];
      var count, rest := 0, byScore.Keys;
      ghost var all, done := Listing(Index(), byScore.Keys, order), [];
      while rest != {}
        invariant rest <= byScore.Keys && done + Listing(Index(), rest, order) == all
        invariant count == |done| <= stop && result == Window(done, start, stop)
        decreases |rest|
      {
        var score := Z.Least(rest);
        var full;
        ghost var bucket := Tagged(order(byScore[score]), score);
        result, count, full := ScanBucket(order(byScore[score]), score, start, stop, result, count, done);
        Assoc(done, bucket, Listing(Index(), rest - {score}, order));
        rest := rest - {score};
        done := done + bucket;
        if full {
          WindowOfPrefix(done, Listing(Index(), rest, order), start, stop);
          return;
        }
      }
      assert done + [] == done;
    }

    method GetRangeByScore(min: Z.Score, max: Z.Score, order: set<Bytes> -> seq<Bytes>)
      returns (result: seq<(Bytes, Z.Score)>)
      ensures result == Listing(Index(), InRange(byScore.Keys, min, max), order)
    {
      result := [];
      var rest := InRange(byScore.Keys, min, max);
      ghost var all := Listing(Index(), rest, order);
      while rest != {}
        invariant rest <= byScore.Keys && result + Listing(Index(), rest, order) == all
        decreases |rest|
      {
        var score := Z.Least(rest);
        Assoc(result, Tagged(order(byScore[score]), score), Listing(Index(), rest - {score}, order));
        result := result + Tagged(order(byScore[score]), score);
        rest := rest - {score};
      }
      assert result + [] == result;
    }

    /** Members whose bucket has already been passed. */
    ghost function Passed(rest: set<Z.Score>): set<Bytes>
      reads this
    {
      set x | x in scores && scores[x] !in rest
    }

    method GetRank(member: Bytes) returns (r: Option<nat>)
      requires Z.Valid(Index())
      ensures r == if member in scores then Some(RankOf(Index(), member)) else None
    {
      if member !in scores { return None; }
      var target := scores[member];
      assert Z.InBucket(byScore, target, member);
      var rank, rest := 0, byScore.Keys;
      assert Passed(rest) == {} by {
        forall x | x in scores ensures scores[x] in rest { assert Z.InBucket(byScore, scores[x], x); }
      }
      while true
        invariant rest <= byScore.Keys && target in rest && rank == |Passed(rest)|
        invariant forall s | s in byScore && s !in rest :: s < target
        decreases |rest|
      {
        var score := Z.Least(rest);
        if score < target {
          PassBucket(rest, score);
          rank := rank + |byScore[score]|;
          rest := rest - {score};
        } else {
          forall x | x in scores ensures scores[x] !in rest <==> scores[x] < target {
            assert Z.InBucket(byScore, scores[x], x);
          }
          assert Passed(rest) == Below(Index(), target);
          rank := RankInBucket(member, rank);
          return Some(rank);
        }
      }
    }

    lemma PassBucket(rest: set<Z.Score>, score: Z.Score)
      requires Z.Valid(Index()) && score in rest && score in byScore
      ensures |Passed(rest - {score})| == |Passed(rest)| + |byScore[score]|
    {
      forall x | x in byScore[score] ensures x in scores && scores[x] == score { assert Z.InBucket(byScore, score, x); }
      forall x | x in scores && scores[x] == score ensures x in byScore[score] {
        assert Z.InBucket(byScore, scores[x], x);
      }
      assert Passed(rest - {score}) == Passed(rest) + byScore[score];
      assert Passed(rest) !! byScore[score];
    }

    /** The walk over the sorted members of the target's own bucket. */
    method RankInBucket(member: Bytes, base: nat) returns (rank: nat)
      requires Z.Valid(Index()) && member in scores && base == |Below(Index(), scores[member])|
      ensures rank == RankOf(Index(), member)
    {
      var score := scores[member];
      assert Z.InBucket(byScore, score, member);
      var bucket := byScore[score];
      var left := bucket;
      rank := base;
      ghost var below := Below(Index(), score);
      forall x | x in bucket ensures x in scores && scores[x] == score { assert Z.InBucket(byScore, score, x); }
      assert below + (bucket - left) == below;
      while LexLeast(left) != member
        invariant member in left && left <= bucket && rank == |below + (bucket - left)|
        invariant forall x, y | x in bucket && x !in left && y in left :: LexLess(x, y)
        decreases |left|
      {
        var m := LexLeast(left);
        assert below + (bucket - (left - {m})) == (below + (bucket - left)) + {m};
        rank := rank + 1;
        left := left - {m};
      }
      AheadIs(member, left);
    }

    lemma AheadIs(member: Bytes, left: set<Bytes>)
      requires Z.Valid(Index()) && member in scores && scores[member] in byScore
      requires member in left && left <= byScore[scores[member]] && IsLexLeast(member, left)
      requires forall x | x in byScore[scores[member]] && x !in left :: LexLess(x, member)
      ensures Below(Index(), scores[member]) + (byScore[scores[member]] - left) == Ahead(Index(), member)
    {
      var score := scores[member];
      forall x ensures x in Below(Index(), score) + (byScore[score] - left) <==> x in Ahead(Index(), member) {
        if x in scores && scores[x] == score { assert Z.InBucket(byScore, score, x); }
        if x in byScore[score] { assert Z.InBucket(byScore, score, x); }
        if x in left { LexTotal(x, member); }
      }
    }
  }
}
