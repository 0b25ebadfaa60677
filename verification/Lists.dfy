/** List slicing and removal: LRANGE, LTRIM and LREM (data_structures/list.rs,
    storage.rs). */
module Lists {
  import opened Primitives

  function Min(a: int, b: int): int { if a <= b then a else b }
  function Max(a: int, b: int): int { if a >= b then a else b }

  // ---- Slicing ----

  /** LRANGE: a start beyond the end is clamped to the last element. */
  function GetRange(items: seq<Bytes>, start: int, stop: int): (r: seq<Bytes>) {
    var len := |items|;
    var from := if start < 0 then Max(len + start, 0) else Max(Min(start, len - 1), 0);
    var to := if stop < 0 then Max(len + stop + 1, 0) else Max(Min(stop + 1, len), 0);
    if from >= to then [] else items[from..to]
  }

  /** LTRIM: a start beyond the end empties the list. */
  function Trim(items: seq<Bytes>, start: int, stop: int): (r: seq<Bytes>) {
    var len := |items|;
    var from := if start < 0 then Max(len + start, 0) else Min(start, len);
    var to := if stop < 0 then Max(len + stop, -1) + 1 else Min(stop + 1, len);
    if from >= to then [] else items[from..][..to - from]
  }

  /** The position an index names; negative ones count from the end. */
  function Position(len: nat, i: int): int { if i < 0 then len + i else i }

  predicate Between(len: nat, start: int, p: int, stop: int) { Position(len, start) <= p <= Position(len, stop) }

  /** LRANGE shows, in order, the elements from the one position to the other, and a start
      beyond the end stands for the last element. */
  lemma RangeShows(items: seq<Bytes>, start: int, stop: int) returns (a: nat, b: nat)
    ensures a <= b <= |items| && GetRange(items, start, stop) == items[a..b]
    ensures var first := Min(start, |items| - 1);
            forall p | 0 <= p < |items| :: a <= p < b <==> Between(|items|, first, p, stop)
  {
    var len := |items|;
    a := if start < 0 then Max(len + start, 0) else Max(Min(start, len - 1), 0);
    b := if stop < 0 then Max(len + stop + 1, 0) else Min(stop + 1, len);
    if a >= b { a, b := 0, 0; }
  }

  /** LTRIM leaves, in order, the elements from the one position to the other. */
  lemma TrimLeaves(items: seq<Bytes>, start: int, stop: int) returns (a: nat, b: nat)
    ensures a <= b <= |items| && Trim(items, start, stop) == items[a..b]
    ensures forall p | 0 <= p < |items| :: a <= p < b <==> Between(|items|, start, p, stop)
  {
    var len := |items|;
    a := if start < 0 then Max(len + start, 0) else Min(start, len);
    b := if stop < 0 then Max(len + stop + 1, 0) else Min(stop + 1, len);
    if a >= b { a, b := 0, 0; } else { assert items[a..][..b - a] == items[a..b]; }
  }

  /** LTRIM keeps what LRANGE of the same bounds would have shown, except when the
      start lies beyond the end of a non-empty list and the bounds still reach
      its last element: then LRANGE shows that element and LTRIM drops it. */
  lemma TrimKeepsTheRange(items: seq<Bytes>, start: int, stop: int)
    ensures Trim(items, start, stop) == GetRange(items, start, stop)
       <==> !(items != [] && start >= |items| && (stop >= |items| - 1 || stop == -1))
  {
    var len := |items|;
    var from := if start < 0 then Max(len + start, 0) else Min(start, len);
    var to := if stop < 0 then Max(len + stop, -1) + 1 else Min(stop + 1, len);
    if from < to { assert items[from..][..to - from] == items[from..to]; }
  }

  /** LTRIM then LRANGE 0 -1 shows LRANGE's old answer. */
  lemma WholeListAfterTrim(items: seq<Bytes>, start: int, stop: int)
    requires start < |items|
    ensures GetRange(Trim(items, start, stop), 0, -1) == GetRange(items, start, stop)
  {
    TrimKeepsTheRange(items, start, stop);
    var t := Trim(items, start, stop);
    assert t[0..|t|] == t;
  }

  // ---- Removal ----

  function Count(items: seq<Bytes>, v: Bytes): nat {
    if items == [] then 0 else (if items[0] == v then 1 else 0) + Count(items[1..], v)
  }

  /** All elements but `v`. */
  function Without(items: seq<Bytes>, v: Bytes): seq<Bytes> {
    if items == [] then []
    else (if items[0] == v then [] else [items[0]]) + Without(items[1..], v)
  }

  /** Drop `v` from the head on, at most `limit` times. */
  function DropFirst(items: seq<Bytes>, limit: nat, v: Bytes): seq<Bytes> {
    if items == [] then []
    else if items[0] == v && limit > 0 then DropFirst(items[1..], limit - 1, v)
    else [items[0]] + DropFirst(items[1..], limit, v)
  }

  function Reverse(items: seq<Bytes>): (r: seq<Bytes>)
    ensures |r| == |items| && forall i | 0 <= i < |r| :: r[i] == items[|items| - 1 - i]
  {
    if items == [] then [] else Reverse(items[1..]) + [items[0]]
  }

  /** LREM's result, by the sign of `count`. */
  function Rem(items: seq<Bytes>, count: int, v: Bytes): seq<Bytes> {
    if count == 0 then Without(items, v)
    else if count > 0 then DropFirst(items, count, v)
    else Reverse(DropFirst(Reverse(items), -count, v))
  }

  function Removed(items: seq<Bytes>, count: int, v: Bytes): nat {
    if count == 0 then Count(items, v) else Min(if count < 0 then -count else count, Count(items, v))
  }

  lemma {:induction false} CountJoin(a: seq<Bytes>, b: seq<Bytes>, v: Bytes)
    ensures Count(a + b, v) == Count(a, v) + Count(b, v)
  {
    if a == [] {
      assert a + b == b;
    } else {
      CountJoin(a[1..], b, v);
      assert (a + b)[1..] == a[1..] + b;
    }
  }

  lemma {:induction false} CountIsMultiplicity(items: seq<Bytes>, v: Bytes)
    ensures Count(items, v) == multiset(items)[v]
  {
    if items != [] {
      CountIsMultiplicity(items[1..], v);
      assert items == [items[0]] + items[1..];
    }
  }

  lemma {:induction false} WithoutTakesAll(items: seq<Bytes>, v: Bytes)
    ensures multiset(Without(items, v)) == multiset(items)[v := 0]
  {
    if items != [] {
      WithoutTakesAll(items[1..], v);
      assert items == [items[0]] + items[1..];
    }
  }

  /** LREM with a count of 0 takes every occurrence and nothing else, and says how many. */
  lemma RemAll(items: seq<Bytes>, v: Bytes)
    ensures multiset(Rem(items, 0, v)) == multiset(items)[v := 0] && v !in Rem(items, 0, v)
    ensures Removed(items, 0, v) == multiset(items)[v]
  {
    WithoutTakesAll(items, v);
    CountIsMultiplicity(items, v);
    assert multiset(Without(items, v))[v] == 0;
  }

  lemma {:induction false} WithoutJoin(a: seq<Bytes>, b: seq<Bytes>, v: Bytes)
    ensures Without(a + b, v) == Without(a, v) + Without(b, v)
  {
    if a == [] {
      assert a + b == b;
    } else {
      WithoutJoin(a[1..], b, v);
      assert (a + b)[1..] == a[1..] + b;
      var head := if a[0] == v then [] else [a[0]];
      Assoc(head, Without(a[1..], v), Without(b, v));
    }
  }

  lemma {:induction false} ReverseJoin(a: seq<Bytes>, b: seq<Bytes>)
    ensures Reverse(a + b) == Reverse(b) + Reverse(a)
  {
  }

  lemma {:induction false} ReverseFacts(a: seq<Bytes>, v: Bytes)
    ensures Count(Reverse(a), v) == Count(a, v)
    ensures Without(Reverse(a), v) == Reverse(Without(a, v))
  {
    if a != [] {
      ReverseFacts(a[1..], v);
      CountJoin(Reverse(a[1..]), [a[0]], v);
      WithoutJoin(Reverse(a[1..]), [a[0]], v);
      assert Without([a[0]], v) == if a[0] == v then [] else [a[0]];
      ReverseJoin(if a[0] == v then [] else [a[0]], Without(a[1..], v));
      assert Count([a[0]], v) == if a[0] == v then 1 else 0;
    }
  }

  lemma SplitOneMore(items: seq<Bytes>, rest: nat, v: Bytes)
    requires items != [] && rest < |items|
    ensures items[rest + 1..] == items[1..][rest..]
    ensures Count(items[..rest + 1], v) == Count(items[1..][..rest], v) + (if items[0] == v then 1 else 0)
    ensures Without(items[..rest + 1], v) == (if items[0] == v then [] else [items[0]]) + Without(items[1..][..rest], v)
  {
    assert items[..rest + 1][1..] == items[1..][..rest];
  }

  /** The first `k` elements lose every `v`, of which there are as many as allowed; the rest stays. */
  ghost predicate SplitsAt(items: seq<Bytes>, limit: nat, v: Bytes, k: nat) {
    && k <= |items| && Count(items[..k], v) == Min(limit, Count(items, v))
    && DropFirst(items, limit, v) == Without(items[..k], v) + items[k..]
  }

  lemma SplitsBehind(items: seq<Bytes>, limit: nat, v: Bytes, rest: nat)
    requires items != [] && limit > 0 && SplitsAt(items[1..], if items[0] == v then limit - 1 else limit, v, rest)
    ensures SplitsAt(items, limit, v, rest + 1)
  {
    SplitOneMore(items, rest, v);
    var head, kept, tail := if items[0] == v then [] else [items[0]], Without(items[1..][..rest], v), items[rest + 1..];
    assert head + (kept + tail) == head + kept + tail;
  }

  /** Dropping from the head strips one prefix of `v` and leaves the rest alone. */
  lemma {:induction false} DropFirstSplits(items: seq<Bytes>, limit: nat, v: Bytes) returns (k: nat)
    ensures SplitsAt(items, limit, v, k)
  {
    if items == [] || limit == 0 {
      k := 0;
      DropNothing(items, v);
      assert [] + items[0..] == items;
    } else {
      var rest := DropFirstSplits(items[1..], if items[0] == v then limit - 1 else limit, v);
      SplitsBehind(items, limit, v, rest);
      k := rest + 1;
    }
  }

  lemma {:induction false} DropNothing(items: seq<Bytes>, v: Bytes)
    ensures DropFirst(items, 0, v) == items
  {
    if items != [] { DropNothing(items[1..], v); }
  }

  /** LREM with a positive count removes the first occurrences and nothing else. */
  lemma RemFromHead(items: seq<Bytes>, count: int, v: Bytes) returns (k: nat)
    requires count > 0
    ensures k <= |items| && Count(items[..k], v) == Removed(items, count, v)
    ensures Rem(items, count, v) == Without(items[..k], v) + items[k..]
  {
    k := DropFirstSplits(items, count, v);
  }

  /** LREM with a negative count removes the last occurrences and nothing else. */
  lemma RemFromTail(items: seq<Bytes>, count: int, v: Bytes) returns (k: nat)
    requires count < 0
    ensures k <= |items| && Count(items[k..], v) == Removed(items, count, v)
    ensures Rem(items, count, v) == items[..k] + Without(items[k..], v)
  {
    var j := DropFirstSplits(Reverse(items), -count, v);
    k := |items| - j;
    ReverseHalves(items, k);
    ReverseFacts(items, v);
    ReverseFacts(items[k..], v);
    ReverseRejoins(items[..k], Without(items[k..], v));
  }

  lemma ReverseHalves(items: seq<Bytes>, k: nat)
    requires k <= |items|
    ensures Reverse(items)[..|items| - k] == Reverse(items[k..])
    ensures Reverse(items)[|items| - k..] == Reverse(items[..k])
  {
    assert items == items[..k] + items[k..];
    ReverseJoin(items[..k], items[k..]);
  }

  lemma ReverseRejoins(a: seq<Bytes>, b: seq<Bytes>)
    ensures Reverse(Reverse(b) + Reverse(a)) == a + b
  {
  }

  class ListValue {
    var items: seq<Bytes>

    /** `lrem`, returning how many elements went. */
    method RemoveMatching(count: int, value: Bytes) returns (removed: nat)
      modifies this
      ensures items == Rem(old(items), count, value)
      ensures removed == Removed(old(items), count, value)
    {
      if count == 0 {
        items, removed := Sweep(items, |items|, value);
        DropAll(old(items), |old(items)|, value);
      } else if count > 0 {
        items, removed := Sweep(items, count, value);
      } else {
        ReverseFacts(items, value);
        var keep;
        keep, removed := Sweep(Reverse(items), -count, value);
        items := Reverse(keep);
      }
    }

    /** LTRIM: cut the front, then the back. */
    method TrimTo(start: int, stop: int)
      modifies this
      ensures items == Trim(old(items), start, stop)
    {
      var len := |items|;
      var s := if start < 0 then Max(len + start, 0) else Min(start, len);
      var e := if stop < 0 then Max(len + stop, -1) + 1 else Min(stop + 1, len);
      if s >= e {
        items := [];
      } else {
        items := items[s..];
        items := items[..e - s];
      }
    }
  }

  /** The removal scan: skip `value` until `limit` of them are gone. */
  method Sweep(items: seq<Bytes>, limit: nat, value: Bytes) returns (keep: seq<Bytes>, removed: nat)
    ensures keep == DropFirst(items, limit, value)
    ensures removed == Min(limit, Count(items, value))
  {
    keep, removed := [], 0;
    assert items[0..] == items;
    for i := 0 to |items|
      invariant removed <= limit
      invariant keep + DropFirst(items[i..], limit - removed, value) == DropFirst(items, limit, value)
      invariant removed + Min(limit - removed, Count(items[i..], value)) == Min(limit, Count(items, value))
    {
      assert items[i..][1..] == items[i + 1..];
      if removed < limit && items[i] == value {
        removed := removed + 1;
      } else {
        keep := keep + [items[i]];
      }
    }
  }

  lemma {:induction false} DropAll(items: seq<Bytes>, limit: nat, v: Bytes)
    requires limit >= |items|
    ensures DropFirst(items, limit, v) == Without(items, v) && Count(items, v) <= |items|
  {
    if items != [] { DropAll(items[1..], if items[0] == v then limit - 1 else limit, v); }
  }
}
