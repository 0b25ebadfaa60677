/** Writes that name no common key commute, and so any two orders of the same writes
    lead to the same store as long as they agree on all writes that share a key. */
module Reordering {
  import opened Primitives
  import opened Commands
  import opened Effects
  import S = Store
  import Sharding

  // ---- Two writes ----

  /** The commands name no common key. */
  predicate Independent(a: Command, b: Command) {
    !a.FlushAll? && !b.FlushAll? && Touches(a) !! Touches(b)
  }

  ghost predicate AgreeOn(keys: set<Bytes>, a: S.Store, b: S.Store) { forall k | k in keys :: S.At(a, k) == S.At(b, k) }

  lemma {:induction false} SetAllIsLocal(a: S.Store, b: S.Store, pairs: seq<(Bytes, Bytes)>, k: Bytes)
    requires S.At(a, k) == S.At(b, k) || exists p | p in pairs :: p.0 == k
    ensures S.At(SetAll(a, pairs), k) == S.At(SetAll(b, pairs), k)
    decreases |pairs|
  {
    if pairs != [] {
      var v := S.SetString(pairs[0].1, None, 0);
      assert pairs == [pairs[0]] + pairs[1..];
      SetAllIsLocal(S.Put(a, pairs[0].0, v), S.Put(b, pairs[0].0, v), pairs[1..], k);
    }
  }

  lemma TwoKeysAreLocal(cmd: Command, a: S.Store, b: S.Store, env: S.Env, k: Bytes)
    requires (cmd.RPopLPush? || cmd.SMove? || cmd.Rename?) && AgreeOn(Touches(cmd), a, b) && k in Touches(cmd)
    ensures S.At(Live(cmd, a, env), k) == S.At(Live(cmd, b, env), k)
  {
    if cmd.Rename? { assert S.At(a, cmd.key) == S.At(b, cmd.key); }
    else { assert S.At(a, cmd.source) == S.At(b, cmd.source) && S.At(a, cmd.destination) == S.At(b, cmd.destination); }
  }

  /** What a command does to the keys it names depends on those keys alone. */
  lemma EffectIsLocal(cmd: Command, a: S.Store, b: S.Store, env: S.Env, k: Bytes)
    requires !cmd.FlushAll? && AgreeOn(Touches(cmd), a, b) && k in Touches(cmd)
    ensures S.At(Live(cmd, a, env), k) == S.At(Live(cmd, b, env), k)
  {
    if cmd.MSet? { SetAllIsLocal(a, b, cmd.pairs, k); }
    else if cmd.RPopLPush? || cmd.SMove? || cmd.Rename? { TwoKeysAreLocal(cmd, a, b, env, k); }
    else {
      var x, y := LiveSlot(cmd, S.At(a, k), env), LiveSlot(cmd, S.At(b, k), env);
      S.PutTwice(a, k, x, x);
      S.PutTwice(b, k, y, y);
    }
  }

  /** An independent write leaves alone what the other names. */
  lemma OutOfTheWay(a: Command, b: Command, st: S.Store, env: S.Env)
    requires Independent(a, b)
    ensures AgreeOn(Touches(a), st, Live(b, st, env))
  {
    forall k | k in Touches(a) ensures S.At(st, k) == S.At(Live(b, st, env), k) { OutsideFootprint(b, st, env, k); }
  }

  lemma EntryCommutes(a: Executed, b: Executed, st: S.Store, k: Bytes)
    requires Independent(a.cmd, b.cmd)
    ensures S.At(Live(a.cmd, Live(b.cmd, st, b.env), a.env), k) == S.At(Live(b.cmd, Live(a.cmd, st, a.env), b.env), k)
  {
    var afterA, afterB := Live(a.cmd, st, a.env), Live(b.cmd, st, b.env);
    if k in Touches(a.cmd) {
      OutOfTheWay(a.cmd, b.cmd, st, b.env);
      EffectIsLocal(a.cmd, afterB, st, a.env, k);
      OutsideFootprint(b.cmd, afterA, b.env, k);
    } else {
      OutsideFootprint(a.cmd, afterB, a.env, k);
      if k in Touches(b.cmd) {
        OutOfTheWay(b.cmd, a.cmd, st, a.env);
        EffectIsLocal(b.cmd, st, afterA, b.env, k);
      } else {
        OutsideFootprint(b.cmd, st, b.env, k);
        OutsideFootprint(b.cmd, afterA, b.env, k);
        OutsideFootprint(a.cmd, st, a.env, k);
      }
    }
  }

  lemma IndependentWritesCommute(a: Executed, b: Executed, st: S.Store)
    requires Independent(a.cmd, b.cmd)
    ensures Live(a.cmd, Live(b.cmd, st, b.env), a.env) == Live(b.cmd, Live(a.cmd, st, a.env), b.env)
  {
    var x, y := Live(a.cmd, Live(b.cmd, st, b.env), a.env), Live(b.cmd, Live(a.cmd, st, a.env), b.env);
    forall k ensures S.At(x, k) == S.At(y, k) { EntryCommutes(a, b, st, k); }
    Sharding.SameSlots(x, y);
  }

  /** Membership of the fragment depends on the keys a command names alone. */
  lemma FragmentIsLocal(cmd: Command, a: S.Store, b: S.Store)
    requires !cmd.FlushAll? && AgreeOn(Touches(cmd), a, b) && Deterministic(cmd, a)
    ensures Deterministic(cmd, b)
  {
    if cmd.ZPopMin? || cmd.ZPopMax? { assert cmd.key in Touches(cmd) && S.At(a, cmd.key) == S.At(b, cmd.key); }
  }

  // ---- One write moves behind later ones ----

  lemma LiveOneMore(st: S.Store, run: seq<Executed>, x: Executed)
    ensures LiveAll(st, run + [x]) == Live(x.cmd, LiveAll(st, run), x.env)
  {
    assert (run + [x])[..|run|] == run;
  }

  ghost predicate IndependentOfAll(w: Executed, ys: seq<Executed>) {
    forall i | 0 <= i < |ys| :: Independent(w.cmd, ys[i].cmd)
  }

  /** `w` may as well run after `ys` as before. */
  lemma {:induction false} MoveBehind(st: S.Store, xs: seq<Executed>, w: Executed, ys: seq<Executed>)
    requires IndependentOfAll(w, ys)
    ensures LiveAll(st, xs + [w] + ys) == LiveAll(st, xs + ys + [w])
    decreases |ys|
  {
    if ys == [] {
      assert xs + [w] + ys == xs + ys + [w];
    } else {
      var n := |ys| - 1;
      var init, y := ys[..n], ys[n];
      MoveBehind(st, xs, w, init);
      SplitLast(xs + [w], ys);
      SplitLast(xs, ys);
      LiveOneMore(st, xs + [w] + init, y);
      LiveOneMore(st, xs + init, w);
      LiveOneMore(st, xs + init, y);
      LiveOneMore(st, xs + ys, w);
      IndependentWritesCommute(w, y, LiveAll(st, xs + init));
    }
  }

  ghost predicate InFragment(st: S.Store, x: Executed) { S.Sane(x.env) && Deterministic(x.cmd, st) }

  lemma FragmentOneMore(st: S.Store, run: seq<Executed>, x: Executed)
    ensures FragmentRun(st, run + [x]) <==> FragmentRun(st, run) && InFragment(LiveAll(st, run), x)
  {
    var longer := run + [x];
    assert longer[..|run|] == run;
    if FragmentRun(st, longer) {
      assert longer[|run|] == x;
      forall i | 0 <= i < |run| ensures S.Sane(run[i].env) && Deterministic(run[i].cmd, LiveAll(st, run[..i])) {
        assert longer[i] == run[i] && longer[..i] == run[..i];
      }
    }
    if FragmentRun(st, run) && InFragment(LiveAll(st, run), x) {
      forall i | 0 <= i < |longer|
        ensures S.Sane(longer[i].env) && Deterministic(longer[i].cmd, LiveAll(st, longer[..i]))
      {
        if i < |run| { assert longer[i] == run[i] && longer[..i] == run[..i]; }
      }
    }
  }

  /** Moving a write behind independent ones keeps the run in the fragment. */
  lemma {:induction false} MoveBehindKeepsFragment(st: S.Store, xs: seq<Executed>, w: Executed, ys: seq<Executed>)
    requires IndependentOfAll(w, ys) && FragmentRun(st, xs + [w] + ys)
    ensures FragmentRun(st, xs + ys) && InFragment(LiveAll(st, xs + ys), w)
    decreases |ys|
  {
    if ys == [] {
      assert xs + [w] + ys == xs + [w] && xs + ys == xs;
      FragmentOneMore(st, xs, w);
    } else {
      var n := |ys| - 1;
      var init, y := ys[..n], ys[n];
      var before := LiveAll(st, xs + init);
      SplitLast(xs + [w], ys);
      SplitLast(xs, ys);
      FragmentOneMore(st, xs + [w] + init, y);
      MoveBehindKeepsFragment(st, xs, w, init);
      MoveBehind(st, xs, w, init);
      LiveOneMore(st, xs + init, w);
      LiveOneMore(st, xs + init, y);
      SwapKeepsFragment(before, w, y);
      FragmentOneMore(st, xs + init, y);
    }
  }

  lemma SplitLast<T>(xs: seq<T>, ys: seq<T>)
    requires ys != []
    ensures var n := |ys| - 1; xs + ys == (xs + ys[..n]) + [ys[n]]
  {
  }

  lemma SwapKeepsFragment(st: S.Store, w: Executed, y: Executed)
    requires Independent(w.cmd, y.cmd) && InFragment(st, w) && InFragment(Live(w.cmd, st, w.env), y)
    ensures InFragment(st, y) && InFragment(Live(y.cmd, st, y.env), w)
  {
    OutOfTheWay(y.cmd, w.cmd, st, w.env);
    FragmentIsLocal(y.cmd, Live(w.cmd, st, w.env), st);
    OutOfTheWay(w.cmd, y.cmd, st, y.env);
    FragmentIsLocal(w.cmd, st, Live(y.cmd, st, y.env));
  }

  // ---- Any order of the same writes ----

  /** `order` lists the numbers below `n`, each once. */
  ghost predicate IsOrder(order: seq<nat>, n: nat) {
    && |order| == n && (forall i | 0 <= i < n :: order[i] < n)
    && forall i, j | 0 <= i < j < n :: order[i] != order[j]
  }

  /** The writes in the given order. */
  ghost function Pick(run: seq<Executed>, order: seq<nat>): (r: seq<Executed>)
    requires forall i | 0 <= i < |order| :: order[i] < |run|
    ensures |r| == |order| && forall i | 0 <= i < |r| :: r[i] == run[order[i]]
  {
    seq(|order|, i requires 0 <= i < |order| => run[order[i]])
  }

  /** Writes that overtake each other in `order` name no common key. */
  ghost predicate OvertakersIndependent(run: seq<Executed>, order: seq<nat>)
    requires forall i | 0 <= i < |order| :: order[i] < |run|
  {
    forall i, j | 0 <= i < j < |order| && order[j] < order[i] :: Independent(run[order[i]].cmd, run[order[j]].cmd)
  }

  /** Numbers below `n`, each at most once, are at most `n`; so `n` different ones below
      `n` include the greatest. */
  lemma {:induction false} Pigeonhole(order: seq<nat>, n: nat)
    requires (forall i | 0 <= i < |order| :: order[i] < n) && forall i, j | 0 <= i < j < |order| :: order[i] != order[j]
    ensures |order| <= n
    decreases n
  {
    if order != [] {
      var first := order[0];
      assert first < n;
      if p :| 0 <= p < |order| && order[p] == n - 1 {
        Pigeonhole(order[..p] + order[p + 1..], n - 1);
      } else {
        Pigeonhole(order, n - 1);
      }
    }
  }

  lemma GreatestIsThere(order: seq<nat>, n: nat) returns (p: nat)
    requires IsOrder(order, n) && n > 0
    ensures p < n && order[p] == n - 1
  {
    p := 0;
    if q :| 0 <= q < n && order[q] == n - 1 {
      p := q;
    } else {
      Pigeonhole(order, n - 1);
      assert false;
    }
  }

  /** The order without its greatest number, at position `p`. */
  ghost function Without(order: seq<nat>, p: nat): (r: seq<nat>)
    requires p < |order|
    ensures |r| == |order| - 1
    ensures forall i | 0 <= i < |r| :: r[i] == order[if i < p then i else i + 1]
  {
    order[..p] + order[p + 1..]
  }

  lemma WithoutIsOrder(order: seq<nat>, p: nat)
    requires p < |order| && IsOrder(order, |order|) && order[p] == |order| - 1
    ensures IsOrder(Without(order, p), |order| - 1)
  {
    var n, less := |order| - 1, Without(order, p);
    forall i | 0 <= i < n ensures less[i] < n { assert order[if i < p then i else i + 1] != order[p]; }
  }

  lemma WithoutKeepsIndependence(run: seq<Executed>, order: seq<nat>, p: nat)
    requires run != [] && IsOrder(order, |run|) && OvertakersIndependent(run, order)
    requires p < |order| && order[p] == |run| - 1 && IsOrder(Without(order, p), |run| - 1)
    ensures OvertakersIndependent(run[..|run| - 1], Without(order, p))
  {
    var less := Without(order, p);
    forall i, j | 0 <= i < j < |less| && less[j] < less[i] ensures Independent(run[less[i]].cmd, run[less[j]].cmd) {
      var x, y := if i < p then i else i + 1, if j < p then j else j + 1;
      assert order[x] == less[i] && order[y] == less[j];
    }
  }

  lemma WithoutGreatest(run: seq<Executed>, order: seq<nat>, p: nat)
    requires run != [] && IsOrder(order, |run|) && OvertakersIndependent(run, order)
    requires p < |order| && order[p] == |run| - 1 && IsOrder(Without(order, p), |run| - 1)
    ensures var all, n := Pick(run, order), |run| - 1;
            && all == all[..p] + [run[n]] + all[p + 1..]
            && IndependentOfAll(run[n], all[p + 1..])
            && Pick(run[..n], Without(order, p)) == all[..p] + all[p + 1..]
  {
    var n, all := |run| - 1, Pick(run, order);
    var ys := all[p + 1..];
    forall i | 0 <= i < |ys| ensures Independent(run[n].cmd, ys[i].cmd) {
      assert ys[i] == run[order[p + 1 + i]] && order[p + 1 + i] != order[p];
    }
  }

  lemma LastMayComeEarly(st: S.Store, init: seq<Executed>, w: Executed, xs: seq<Executed>, ys: seq<Executed>)
    requires IndependentOfAll(w, ys) && LiveAll(st, xs + ys) == LiveAll(st, init)
    ensures LiveAll(st, xs + [w] + ys) == LiveAll(st, init + [w])
  {
    MoveBehind(st, xs, w, ys);
    LiveOneMore(st, xs + ys, w);
    LiveOneMore(st, init, w);
  }

  lemma EarlyLastKeepsFragment(st: S.Store, init: seq<Executed>, w: Executed, xs: seq<Executed>, ys: seq<Executed>)
    requires IndependentOfAll(w, ys) && LiveAll(st, xs + ys) == LiveAll(st, init)
    requires FragmentRun(st, xs + ys) ==> FragmentRun(st, init)
    requires FragmentRun(st, xs + [w] + ys)
    ensures FragmentRun(st, init + [w])
  {
    MoveBehindKeepsFragment(st, xs, w, ys);
    FragmentOneMore(st, init, w);
  }

  lemma EarlyLast(st: S.Store, run: seq<Executed>, xs: seq<Executed>, ys: seq<Executed>)
    requires run != [] && IndependentOfAll(run[|run| - 1], ys)
    requires LiveAll(st, xs + ys) == LiveAll(st, run[..|run| - 1])
    requires FragmentRun(st, xs + ys) ==> FragmentRun(st, run[..|run| - 1])
    ensures LiveAll(st, xs + [run[|run| - 1]] + ys) == LiveAll(st, run)
    ensures FragmentRun(st, xs + [run[|run| - 1]] + ys) ==> FragmentRun(st, run)
  {
    var init, w := run[..|run| - 1], run[|run| - 1];
    assert run == init + [w];
    LastMayComeEarly(st, init, w, xs, ys);
    if FragmentRun(st, xs + [w] + ys) { EarlyLastKeepsFragment(st, init, w, xs, ys); }
  }

  /** Any order of the same writes leads to the same store, if writes that overtake each
      other name no common key; and it stays within the deterministic fragment. */
  lemma {:induction false} OrderDoesNotMatter(st: S.Store, run: seq<Executed>, order: seq<nat>)
    requires IsOrder(order, |run|) && OvertakersIndependent(run, order)
    ensures LiveAll(st, Pick(run, order)) == LiveAll(st, run)
    ensures FragmentRun(st, Pick(run, order)) ==> FragmentRun(st, run)
    decreases |run|
  {
    if run != [] {
      var p := GreatestIsThere(order, |run|);
      WithoutIsOrder(order, p);
      WithoutKeepsIndependence(run, order, p);
      WithoutGreatest(run, order, p);
      OrderDoesNotMatter(st, run[..|run| - 1], Without(order, p));
      EarlyLast(st, run, Pick(run, order)[..p], Pick(run, order)[p + 1..]);
    } else {
      assert Pick(run, order) == run;
    }
  }

  // ---- Where order matters ----

  /** A SET followed by writes that only take deadlines away, on entries without any. */
  lemma {:induction false} SetStands(run: seq<Executed>, p: nat, k: Bytes, v: Bytes)
    requires p < |run| && run[p].cmd == Command.Set(k, v, None)
    requires forall i | p < i < |run| :: run[i].cmd.Persist?
    ensures S.At(LiveAll(map[], run), k) == Some(S.Str(v, None))
    decreases |run|
  {
    var n := |run| - 1;
    var st := LiveAll(map[], run[..n]);
    if p == n {
      S.PutTwice(st, k, Some(S.Str(v, None)), None);
    } else {
      SetStands(run[..n], p, k, v);
      PersistKeeps(run[n], st, k);
    }
  }

  lemma PersistKeeps(x: Executed, st: S.Store, k: Bytes)
    requires x.cmd.Persist? && S.Timeless(S.At(st, k))
    ensures S.At(Live(x.cmd, st, x.env), k) == S.At(st, k)
  {
    if x.cmd.key != k { PutElsewhere(st, x.cmd.key, LiveSlot(x.cmd, S.At(st, x.cmd.key), x.env), k); }
    else { S.PutTwice(st, k, LiveSlot(x.cmd, S.At(st, k), x.env), None); }
  }

  /** `run` is made of writes on the given keys, one each. */
  ghost predicate WritesOn(run: seq<Executed>, keys: seq<Bytes>) {
    |run| == |keys| && forall i | 0 <= i < |run| :: IsWrite(run[i].cmd) && Touches(run[i].cmd) == {keys[i]}
  }

  /** Whatever is written to these keys, the order leads to the same store. */
  ghost predicate OrderIsSafe(keys: seq<Bytes>, order: seq<nat>)
    requires IsOrder(order, |keys|)
  {
    forall run | WritesOn(run, keys) :: LiveAll(map[], Pick(run, order)) == LiveAll(map[], run)
  }

  /** Two writes on one key change places. */
  ghost predicate Overtaken(keys: seq<Bytes>, order: seq<nat>)
    requires IsOrder(order, |keys|)
  {
    exists i, j | 0 <= i < j < |order| :: order[j] < order[i] && keys[order[i]] == keys[order[j]]
  }

  /** Two different SETs at `a` and `b`, and nothing of effect elsewhere. */
  ghost function Telltale(keys: seq<Bytes>, a: nat, b: nat, env: S.Env): (run: seq<Executed>)
    requires a < |keys| && b < |keys| && a != b
    ensures WritesOn(run, keys) && run[a].cmd == Command.Set(keys[a], [0], None)
    ensures run[b].cmd == Command.Set(keys[b], [1], None)
    ensures forall i | 0 <= i < |run| && i != a && i != b :: run[i].cmd.Persist?
  {
    seq(|keys|, i requires 0 <= i < |keys| =>
      Executed(if i == a then Command.Set(keys[i], [0], None) else if i == b then Command.Set(keys[i], [1], None)
               else Persist(keys[i]), env))
  }

  lemma OvertakenShows(keys: seq<Bytes>, order: seq<nat>, i: nat, j: nat, env: S.Env)
    requires IsOrder(order, |keys|) && i < j < |order| && order[j] < order[i] && keys[order[i]] == keys[order[j]]
    ensures var run := Telltale(keys, order[j], order[i], env);
            LiveAll(map[], Pick(run, order)) != LiveAll(map[], run)
  {
    var a, b, k := order[j], order[i], keys[order[i]];
    var run := Telltale(keys, a, b, env);
    var picked := Pick(run, order);
    forall m | j < m < |picked| ensures picked[m].cmd.Persist? { assert order[m] != a && order[m] != b; }
    SetStands(picked, j, k, [0]);
    SetStands(run, b, k, [1]);
  }

  /** Exactly when order matters, for writes of one key each: whatever they write, an
      order of landing leads to the store of the order of sending if and only if no two
      writes on the same key change places. */
  lemma OrderMattersIffOvertaken(keys: seq<Bytes>, order: seq<nat>, env: S.Env)
    requires IsOrder(order, |keys|)
    ensures OrderIsSafe(keys, order) <==> !Overtaken(keys, order)
  {
    if Overtaken(keys, order) {
      var i, j :| 0 <= i < j < |order| && order[j] < order[i] && keys[order[i]] == keys[order[j]];
      OvertakenShows(keys, order, i, j, env);
      assert WritesOn(Telltale(keys, order[j], order[i], env), keys);
    } else {
      forall run | WritesOn(run, keys) ensures LiveAll(map[], Pick(run, order)) == LiveAll(map[], run) {
        assert OvertakersIndependent(run, order);
        OrderDoesNotMatter(map[], run, order);
      }
    }
  }

  // ---- Footprints of several keys ----

  lemma {:induction false} AllTo(keys: set<Bytes>, v: Bytes) returns (pairs: seq<(Bytes, Bytes)>)
    ensures Touches(MSet(pairs)) == keys && forall p | p in pairs :: p.1 == v
    decreases |keys|
  {
    if keys == {} {
      pairs := [];
    } else {
      var k :| k in keys;
      var rest := AllTo(keys - {k}, v);
      pairs := [(k, v)] + rest;
      TouchesOneMore((k, v), rest);
    }
  }

  lemma TouchesOneMore(first: (Bytes, Bytes), rest: seq<(Bytes, Bytes)>)
    ensures Touches(MSet([first] + rest)) == {first.0} + Touches(MSet(rest))
  {
    var all := [first] + rest;
    assert forall p :: p in all <==> p == first || p in rest;
    assert first in all;
  }

  lemma {:induction false} SetAllSets(st: S.Store, pairs: seq<(Bytes, Bytes)>, v: Bytes, k: Bytes)
    requires (exists p | p in pairs :: p.0 == k) || S.At(st, k) == Some(S.Str(v, None))
    requires forall p | p in pairs :: p.1 == v
    ensures S.At(SetAll(st, pairs), k) == Some(S.Str(v, None))
    decreases |pairs|
  {
    if pairs != [] {
      assert pairs == [pairs[0]] + pairs[1..];
      assert pairs[0] in pairs;
      S.PutTwice(st, pairs[0].0, S.SetString(pairs[0].1, None, 0), None);
      SetAllSets(S.Put(st, pairs[0].0, S.SetString(pairs[0].1, None, 0)), pairs[1..], v, k);
    }
  }

  /** Any two footprints with a common key belong to two writes, in the fragment on every
      store, that leave different values under that key in their two orders. */
  lemma SharedKeyTells(x: set<Bytes>, y: set<Bytes>, k: Bytes) returns (a: Command, b: Command)
    requires k in x && k in y
    ensures IsWrite(a) && IsWrite(b) && Touches(a) == x && Touches(b) == y
    ensures forall st, env :: S.At(Live(a, st, env), k) == Some(S.Str([0], None))
    ensures forall st, env :: S.At(Live(b, st, env), k) == Some(S.Str([1], None))
    ensures forall st :: Deterministic(a, st) && Deterministic(b, st)
    ensures a.MSet? && b.MSet?
  {
    var xs := AllTo(x, [0]);
    var ys := AllTo(y, [1]);
    a, b := MSet(xs), MSet(ys);
    forall st, env: S.Env ensures S.At(Live(a, st, env), k) == Some(S.Str([0], None)) { SetAllSets(st, xs, [0], k); }
    forall st, env: S.Env ensures S.At(Live(b, st, env), k) == Some(S.Str([1], None)) { SetAllSets(st, ys, [1], k); }
  }
}
