/** ZRANK: ranks are a bijection that follows (score, member) order, and they
    agree with every listing on scores. */
module SortedSetRanks {
  import opened Primitives
  import opened SortedSets
  import opened SortedSetQueries

  // ---- Byte-wise order of members ----

  predicate LexLess(a: Bytes, b: Bytes) {
    b != [] && (a == [] || a[0] < b[0] || (a[0] == b[0] && LexLess(a[1..], b[1..])))
  }

  lemma {:induction false} LexTotal(a: Bytes, b: Bytes)
    ensures LexLess(a, b) || a == b || LexLess(b, a)
    ensures !(LexLess(a, b) && LexLess(b, a)) && !LexLess(a, a)
  {
    if a != [] {
      LexTotal(a[1..], a[1..]);
      if b != [] {
        LexTotal(a[1..], b[1..]);
        if a[0] == b[0] && a[1..] == b[1..] { assert a == [a[0]] + a[1..] == b; }
      }
    }
  }

  /** `a` and `b` agree up to `i`, where `a` ends or has the smaller byte. */
  predicate DiffersAt(a: Bytes, b: Bytes, i: nat) {
    i <= |a| && i < |b| && a[..i] == b[..i] && (i == |a| || a[i] < b[i])
  }

  /** Members are compared byte by byte, a prefix before what it begins. */
  lemma {:induction false} LexIsByteOrder(a: Bytes, b: Bytes)
    ensures LexLess(a, b) <==> exists i: nat :: DiffersAt(a, b, i)
  {
    if a == [] || b == [] || a[0] < b[0] {
      if b != [] { assert DiffersAt(a, b, 0); }
    } else {
      LexIsByteOrder(a[1..], b[1..]);
      if LexLess(a, b) {
        var i: nat :| DiffersAt(a[1..], b[1..], i);
        assert a[..i + 1] == [a[0]] + a[1..][..i] && b[..i + 1] == [b[0]] + b[1..][..i];
        assert DiffersAt(a, b, i + 1);
      }
      forall i: nat | DiffersAt(a, b, i) ensures LexLess(a, b) {
        assert i > 0 && a[0] == a[..i][0] == b[..i][0] == b[0];
        assert a[1..][..i - 1] == a[..i][1..] && b[1..][..i - 1] == b[..i][1..];
        assert DiffersAt(a[1..], b[1..], i - 1);
      }
    }
  }

  lemma {:induction false} LexTransitive(a: Bytes, b: Bytes, c: Bytes)
    requires LexLess(a, b) && LexLess(b, c)
    ensures LexLess(a, c)
  {
    if a != [] && a[0] == b[0] == c[0] { LexTransitive(a[1..], b[1..], c[1..]); }
  }

  predicate IsLexLeast(m: Bytes, s: set<Bytes>) {
    m in s && forall x | x in s :: x == m || LexLess(m, x)
  }

  lemma LexLeastOfMore(m: Bytes, s: set<Bytes>, x: Bytes)
    requires IsLexLeast(m, s)
    ensures IsLexLeast(if LexLess(x, m) then x else m, s + {x})
  {
    if LexLess(x, m) {
      forall y | y in s && y != m ensures LexLess(x, y) { LexTransitive(x, m, y); }
    } else {
      LexTotal(x, m);
    }
  }

  lemma {:induction false} LexLeastExists(s: set<Bytes>)
    requires s != {}
    ensures exists m :: IsLexLeast(m, s)
    decreases |s|
  {
    var x :| x in s;
    if s == {x} {
      assert IsLexLeast(x, s);
    } else {
      var rest := s - {x};
      assert rest != {};
      LexLeastExists(rest);
      var m :| IsLexLeast(m, rest);
      LexLeastOfMore(m, rest, x);
      assert rest + {x} == s;
    }
  }

  lemma LexLeastUnique(m: Bytes, n: Bytes, s: set<Bytes>)
    requires IsLexLeast(m, s) && IsLexLeast(n, s)
    ensures m == n
  {
    LexTotal(m, n);
  }

  function LexLeast(s: set<Bytes>): (m: Bytes)
    requires s != {}
    ensures IsLexLeast(m, s)
  {
    LexLeastExists(s);
    assert forall m, n | IsLexLeast(m, s) && IsLexLeast(n, s) :: m == n by {
      forall m, n | IsLexLeast(m, s) && IsLexLeast(n, s) ensures m == n { LexLeastUnique(m, n, s); }
    }
    var m :| m in s && IsLexLeast(m, s);
    m
  }

  // ---- Rank ----

  /** `a` stands before `b` in (score, member) order. */
  ghost predicate Precedes(z: ZIndex, a: Bytes, b: Bytes)
    requires a in z.scores && b in z.scores
  {
    z.scores[a] < z.scores[b] || (z.scores[a] == z.scores[b] && LexLess(a, b))
  }

  ghost function Ahead(z: ZIndex, m: Bytes): set<Bytes>
    requires m in z.scores
  {
    set x | x in z.scores && Precedes(z, x, m)
  }

  ghost function RankOf(z: ZIndex, m: Bytes): nat
    requires m in z.scores
  {
    |Ahead(z, m)|
  }

  lemma ProperSubsetSize<T>(a: set<T>, b: set<T>, x: T)
    requires a <= b && x in b && x !in a
    ensures |a| < |b|
  {
    SubsetSize(a, b - {x});
  }

  lemma RankFollowsOrder(z: ZIndex, a: Bytes, b: Bytes)
    requires a in z.scores && b in z.scores
    ensures RankOf(z, a) < |z.scores|
    ensures RankOf(z, a) < RankOf(z, b) <==> Precedes(z, a, b)
    ensures RankOf(z, a) == RankOf(z, b) <==> a == b
  {
    LexTotal(a, a);
    ProperSubsetSize(Ahead(z, a), z.scores.Keys, a);
    LexTotal(a, b);
    if Precedes(z, a, b) { AheadGrows(z, a, b); }
    if Precedes(z, b, a) { AheadGrows(z, b, a); }
  }

  lemma AheadGrows(z: ZIndex, a: Bytes, b: Bytes)
    requires a in z.scores && b in z.scores && Precedes(z, a, b)
    ensures RankOf(z, a) < RankOf(z, b)
  {
    forall x | x in Ahead(z, a) ensures x in Ahead(z, b) {
      if z.scores[x] == z.scores[b] { LexTransitive(x, a, b); }
    }
    LexTotal(a, a);
    ProperSubsetSize(Ahead(z, a), Ahead(z, b), a);
  }

  ghost function Ranks(z: ZIndex, ms: set<Bytes>): set<nat>
    requires ms <= z.scores.Keys
  {
    set m | m in ms :: RankOf(z, m)
  }

  lemma {:induction false} RanksAreDistinct(z: ZIndex, ms: set<Bytes>)
    requires ms <= z.scores.Keys
    ensures |Ranks(z, ms)| == |ms|
    decreases |ms|
  {
    if m :| m in ms {
      var rest := ms - {m};
      RanksAreDistinct(z, rest);
      assert Ranks(z, ms) == Ranks(z, rest) + {RankOf(z, m)};
      if RankOf(z, m) in Ranks(z, rest) {
        var n :| n in rest && RankOf(z, n) == RankOf(z, m);
        RankFollowsOrder(z, m, n);
      }
    }
  }

  lemma {:induction false} InitialNats(n: nat) returns (s: set<nat>)
    ensures forall i: nat :: i in s <==> i < n
    ensures |s| == n
  {
    if n == 0 { s := {}; } else { s := InitialNats(n - 1); s := s + {n - 1}; }
  }

  lemma {:induction false} SameSizeSubset<T>(a: set<T>, b: set<T>)
    requires a <= b && |a| == |b|
    ensures a == b
  {
    if x :| x in b && x !in a { ProperSubsetSize(a, b, x); }
  }

  /** Ranks are onto 0..len-1: with RankFollowsOrder, a bijection. */
  lemma EveryRankIsTaken(z: ZIndex, i: nat)
    requires i < |z.scores|
    ensures exists m :: m in z.scores && RankOf(z, m) == i
  {
    var all := InitialNats(|z.scores|);
    forall r | r in Ranks(z, z.scores.Keys) ensures r in all {
      var m :| m in z.scores && RankOf(z, m) == r;
      RankFollowsOrder(z, m, m);
    }
    RanksAreDistinct(z, z.scores.Keys);
    SameSizeSubset(Ranks(z, z.scores.Keys), all);
    assert i in Ranks(z, z.scores.Keys);
  }

  // ---- Rank and position agree on scores ----

  ghost function Below(z: ZIndex, s: Score): set<Bytes> { set m | m in z.scores && z.scores[m] < s }
  ghost function UpTo(z: ZIndex, s: Score): set<Bytes> { set m | m in z.scores && z.scores[m] <= s }

  lemma RankWithinScore(z: ZIndex, m: Bytes)
    requires m in z.scores
    ensures |Below(z, z.scores[m])| <= RankOf(z, m) < |UpTo(z, z.scores[m])|
  {
    SubsetSize(Below(z, z.scores[m]), Ahead(z, m));
    LexTotal(m, m);
    ProperSubsetSize(Ahead(z, m), UpTo(z, z.scores[m]), m);
  }

  lemma {:induction false} DistinctMembersCount(q: seq<(Bytes, Score)>)
    requires forall i, j | 0 <= i < j < |q| :: q[i].0 != q[j].0
    ensures |Members(q)| == |q|
  {
    if q != [] {
      DistinctMembersCount(q[1..]);
      assert q == [q[0]] + q[1..];
      MembersCons(q[0], q[1..]);
      assert q[0].0 !in Members(q[1..]);
    } else {
      assert Members(q) == {};
    }
  }

  lemma PositionWithinScore(z: ZIndex, q: seq<(Bytes, Score)>, i: nat)
    requires ListsByScore(z, q, z.byScore.Keys) && Valid(z) && i < |q|
    ensures |Below(z, q[i].1)| <= i < |UpTo(z, q[i].1)|
  {
    forall m | m in Below(z, q[i].1) ensures m in Members(q[..i]) {
      assert InBucket(z.byScore, z.scores[m], m);
      assert m in MembersIn(z, z.byScore.Keys);
      var j :| 0 <= j < |q| && q[j].0 == m;
      assert j < i;
      assert q[..i][j].0 == m;
    }
    DistinctMembersCount(q[..i]);
    SubsetSize(Below(z, q[i].1), Members(q[..i]));
    DistinctMembersCount(q[..i + 1]);
    forall m | m in Members(q[..i + 1]) ensures m in UpTo(z, q[i].1) {
      var j :| 0 <= j <= i && q[..i + 1][j].0 == m;
      assert q[j].0 == m;
    }
    SubsetSize(Members(q[..i + 1]), UpTo(z, q[i].1));
  }

  /** Whatever the order inside a bucket, position i of a full listing carries
      the score of the member of rank i; and the listing has one position per rank. */
  lemma RankScoreIsPositionScore(z: ZIndex, order: set<Bytes> -> seq<Bytes>, m: Bytes)
    requires Valid(z) && Iterates(order) && m in z.scores
    ensures var q := Listing(z, z.byScore.Keys, order);
            |q| == |z.scores| && RankOf(z, m) < |q| && q[RankOf(z, m)].1 == z.scores[m]
  {
    var q := Listing(z, z.byScore.Keys, order);
    ListingLists(z, z.byScore.Keys, order);
    DistinctMembersCount(q);
    forall x | x in z.scores ensures x in MembersIn(z, z.byScore.Keys) {
      assert InBucket(z.byScore, z.scores[x], x);
    }
    assert MembersIn(z, z.byScore.Keys) == z.scores.Keys;
    RankFollowsOrder(z, m, m);
    var i := RankOf(z, m);
    RankWithinScore(z, m);
    PositionWithinScore(z, q, i);
    if q[i].1 < z.scores[m] { SubsetSize(UpTo(z, q[i].1), Below(z, z.scores[m])); }
    if z.scores[m] < q[i].1 { SubsetSize(UpTo(z, z.scores[m]), Below(z, q[i].1)); }
  }
}
