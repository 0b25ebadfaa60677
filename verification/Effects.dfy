/** What write commands touch, what they keep, and the deterministic fragment on
    which replaying a history rebuilds the live store. */
module Effects {
  import opened Primitives
  import opened Commands
  import S = Store
  import Z = SortedSets
  import X = Streams

  // ---- Footprint ----

  /** Keys whose entry a command other than FLUSHALL may change. */
  function Touches(cmd: Command): set<Bytes> {
    if !IsWrite(cmd) || cmd.FlushAll? then {}
    else if cmd.MSet? then set p | p in cmd.pairs :: p.0
    else if cmd.RPopLPush? || cmd.SMove? then {cmd.source, cmd.destination}
    else if cmd.Rename? then {cmd.key, cmd.newKey}
    else {cmd.key}
  }

  lemma {:induction false} SetAllTouches(st: S.Store, pairs: seq<(Bytes, Bytes)>, k: Bytes)
    requires forall p | p in pairs :: p.0 != k
    ensures S.At(SetAll(st, pairs), k) == S.At(st, k)
    decreases |pairs|
  {
    if pairs != [] {
      assert pairs[0] in pairs;
      SetAllTouches(S.Put(st, pairs[0].0, S.SetString(pairs[0].1, None, 0)), pairs[1..], k);
    }
  }

  lemma PutElsewhere(st: S.Store, key: Bytes, slot: S.Slot, k: Bytes)
    requires k != key
    ensures S.At(S.Put(st, key, slot), k) == S.At(st, k)
  {
  }

  /** A live command changes no entry outside its footprint, and a command that does
      not pass the write gate has no footprint. */
  lemma OutsideFootprint(cmd: Command, st: S.Store, env: S.Env, k: Bytes)
    requires !cmd.FlushAll? && k !in Touches(cmd)
    ensures S.At(Live(cmd, st, env), k) == S.At(st, k)
  {
    if OneSlot(cmd) && k != cmd.key {
      PutElsewhere(st, cmd.key, LiveSlot(cmd, S.At(st, cmd.key), env), k);
    } else if OneSlot(cmd) {
      assert LiveSlot(cmd, S.At(st, k), env) == S.At(st, k);
    } else if cmd.MSet? {
      forall p | p in cmd.pairs ensures p.0 != k { assert p.0 in Touches(cmd); }
      SetAllTouches(st, cmd.pairs, k);
    }
  }

  // ---- Well-formed collections are kept ----

  lemma PutKeepsGood(st: S.Store, key: Bytes, slot: S.Slot)
    requires S.Good(st) && S.GoodSlot(slot)
    ensures S.Good(S.Put(st, key, slot))
  {
  }

  /** XADD with a generated id on a live stream whose sequence number is exhausted. */
  predicate SlotWraps(slot: S.Slot, env: S.Env) {
    && slot.Some? && slot.value.Stream? && !S.Expired(slot.value, env.now)
    && X.Wraps(slot.value.log, None, env.unixMs)
  }

  /** The command, executed in `env`, generates a stream id that wraps. */
  predicate LiveWraps(cmd: Command, st: S.Store, env: S.Env) {
    cmd.XAdd? && cmd.id.None? && SlotWraps(S.At(st, cmd.key), env)
  }

  /** The same for replay, which takes an unparseable id for a generated one. */
  predicate ReplayWraps(cmd: Command, st: S.Store, env: S.Env) {
    cmd.XAdd? && (cmd.id.None? || X.ParseId(cmd.id.value, false).None?) && SlotWraps(S.At(st, cmd.key), env)
  }

  lemma XAddKeepsGood(slot: S.Slot, requested: Option<X.StreamId>, fields: X.Fields, env: S.Env)
    requires S.GoodSlot(slot) && S.Sane(env) && (requested.Some? ==> X.IsU64(requested.value))
    ensures S.GoodSlot(S.XAdd(slot, requested, fields, env)) <==> !(requested.None? && SlotWraps(slot, env))
  {
    X.AddAppends(X.EMPTY, requested, fields, env.unixMs);
    if slot.Some? && slot.value.Stream? { X.AddAppends(slot.value.log, requested, fields, env.unixMs); }
  }

  predicate EditsSortedSet(cmd: Command) {
    cmd.ZAdd? || cmd.ZRem? || cmd.ZIncrBy? || cmd.ZPopMin? || cmd.ZPopMax?
  }

  lemma ZAddKeepsGood(slot: S.Slot, scored: seq<(real, Bytes)>)
    requires S.GoodSlot(slot)
    ensures S.GoodSlot(S.ZAdd(slot, scored))
  {
    S.AddAllKeeps(if slot.Some? && slot.value.SortedSet? then slot.value.z else Z.EMPTY, scored);
  }

  lemma ZRemKeepsGood(slot: S.Slot, members: seq<Bytes>)
    requires S.GoodSlot(slot)
    ensures S.GoodSlot(S.ZRem(slot, members))
  {
    if slot.Some? && slot.value.SortedSet? { S.RemoveAllKeeps(slot.value.z, members); }
  }

  lemma ZIncrByKeepsGood(slot: S.Slot, amount: real, member: Bytes, now: S.Instant)
    requires S.GoodSlot(slot)
    ensures S.GoodSlot(S.ZIncrBy(slot, amount, member, now))
  {
    Z.AddKeepsIndexes(Z.EMPTY, amount, member);
    if slot.Some? && slot.value.SortedSet? {
      var z := slot.value.z;
      Z.AddKeepsIndexes(z, (if member in z.scores then z.scores[member] else 0.0) + amount, member);
    }
  }

  lemma ZPopKeepsGood(slot: S.Slot, many: nat, lowest: bool, env: S.Env)
    requires S.GoodSlot(slot) && S.Sane(env)
    ensures S.GoodSlot(S.ZPop(slot, many, lowest, env))
  {
    if slot.Some? && slot.value.SortedSet? { Z.PopKeepsIndexes(slot.value.z, many, env.order, lowest); }
  }

  lemma SortedSetKeepsGood(cmd: Command, slot: S.Slot, env: S.Env)
    requires S.GoodSlot(slot) && S.Sane(env) && EditsSortedSet(cmd)
    ensures S.GoodSlot(ApplySlot(cmd, slot, env))
  {
    if cmd.ZAdd? { ZAddKeepsGood(slot, cmd.scored); }
    else if cmd.ZRem? { ZRemKeepsGood(slot, cmd.members); }
    else if cmd.ZIncrBy? { ZIncrByKeepsGood(slot, cmd.amount, cmd.member, env.now); }
    else { ZPopKeepsGood(slot, cmd.many, cmd.ZPopMin?, env); }
  }

  lemma {:induction false} SetAllKeepsGood(st: S.Store, pairs: seq<(Bytes, Bytes)>)
    requires S.Good(st)
    ensures S.Good(SetAll(st, pairs))
    ensures S.NoDeadlines(st) ==> S.NoDeadlines(SetAll(st, pairs))
    decreases |pairs|
  {
    if pairs != [] { SetAllKeepsGood(S.Put(st, pairs[0].0, S.SetString(pairs[0].1, None, 0)), pairs[1..]); }
  }

  lemma {:induction false} SetFieldsKeeps(slot: S.Slot, pairs: seq<(Bytes, Bytes)>)
    requires S.GoodSlot(slot)
    ensures S.GoodSlot(SetFields(slot, pairs)) && (S.Timeless(slot) ==> S.Timeless(SetFields(slot, pairs)))
    decreases |pairs|
  {
    if pairs != [] { SetFieldsKeeps(S.HSet(slot, pairs[0].0, pairs[0].1), pairs[1..]); }
  }

  lemma OtherArmsKeepGood(cmd: Command, slot: S.Slot, env: S.Env)
    requires S.GoodSlot(slot) && !EditsSortedSet(cmd) && !cmd.XAdd? && !cmd.HMSet?
    ensures S.GoodSlot(ApplySlot(cmd, slot, env))
  {
  }

  lemma PutIsGoodIff(st: S.Store, key: Bytes, slot: S.Slot)
    requires S.Good(st)
    ensures S.Good(S.Put(st, key, slot)) <==> S.GoodSlot(slot)
  {
    if S.GoodSlot(slot) { PutKeepsGood(st, key, slot); }
    else { assert key in S.Put(st, key, slot) && S.Put(st, key, slot)[key] == slot.value; }
  }

  lemma ApplySlotKeepsGood(cmd: Command, slot: S.Slot, env: S.Env)
    requires S.GoodSlot(slot) && S.Sane(env) && !cmd.XAdd?
    ensures S.GoodSlot(ApplySlot(cmd, slot, env))
  {
    if EditsSortedSet(cmd) { SortedSetKeepsGood(cmd, slot, env); }
    else if cmd.HMSet? { SetFieldsKeeps(slot, cmd.pairs); }
    else { OtherArmsKeepGood(cmd, slot, env); }
  }

  /** An applied command keeps both indexes of every sorted set inverse and every
      stream's ids increasing, unless and only unless a generated stream id wraps. */
  lemma ApplyKeepsGood(cmd: Command, st: S.Store, env: S.Env)
    requires S.Good(st) && S.Sane(env)
    ensures S.Good(Apply(cmd, st, env)) <==> !ReplayWraps(cmd, st, env)
  {
    if OneSlot(cmd) {
      var slot := S.At(st, cmd.key);
      PutIsGoodIff(st, cmd.key, ApplySlot(cmd, slot, env));
      if cmd.XAdd? {
        XAddKeepsGood(slot, if cmd.id.Some? then X.ParseId(cmd.id.value, false) else None, cmd.pairs, env);
      } else {
        ApplySlotKeepsGood(cmd, slot, env);
      }
    } else if cmd.MSet? {
      SetAllKeepsGood(st, cmd.pairs);
    }
  }

  /** The same for live execution. */
  lemma LiveKeepsGood(cmd: Command, st: S.Store, env: S.Env)
    requires S.Good(st) && S.Sane(env)
    ensures S.Good(Live(cmd, st, env)) <==> !LiveWraps(cmd, st, env)
  {
    if Drifts(cmd, st) {
      PutIsGoodIff(st, cmd.key, LiveSlot(cmd, S.At(st, cmd.key), env));
    } else {
      DispatchersAgree(cmd, st, env);
      ApplyKeepsGood(cmd, st, env);
    }
  }

  // ---- The deterministic fragment ----

  /** Effects that depend on nothing outside the store: no deadlines, no float
      text, no random or generated choice, no tie cut by a pop. */
  ghost predicate Deterministic(cmd: Command, st: S.Store) {
    match cmd
    case Set(_, _, ttl) => ttl == None
    case SetEx(_, _, _) => false
    case Expire(_, _) => false
    case PExpire(_, _) => false
    case ExpireAt(_, _) => false
    case IncrByFloat(_, _) => false
    case SPop(_, _) => false
    case XAdd(_, id, _) => id.Some? && X.ParseId(id.value, false).Some?
    case ZPopMin(key, many) => PopsWholeBuckets(S.At(st, key), many, true)
    case ZPopMax(key, many) => PopsWholeBuckets(S.At(st, key), many, false)
    case _ => true
  }

  ghost predicate PopsWholeBuckets(slot: S.Slot, many: nat, lowest: bool) {
    slot.Some? && slot.value.SortedSet? ==> Z.WholeBuckets(slot.value.z, many, lowest)
  }

  /** A store the fragment works on. */
  ghost predicate Settled(st: S.Store) { S.Good(st) && S.NoDeadlines(st) }

  lemma ZPopIgnoresEnv(slot: S.Slot, many: nat, lowest: bool, e1: S.Env, e2: S.Env)
    requires S.GoodSlot(slot) && S.Timeless(slot) && S.Sane(e1) && S.Sane(e2) && PopsWholeBuckets(slot, many, lowest)
    ensures S.ZPop(slot, many, lowest, e1) == S.ZPop(slot, many, lowest, e2)
  {
    if slot.Some? && slot.value.SortedSet? { Z.PopIgnoresOrder(slot.value.z, many, e1.order, e2.order, lowest); }
  }

  lemma OtherArmsIgnoreEnv(cmd: Command, slot: S.Slot, st: S.Store, e1: S.Env, e2: S.Env)
    requires S.Timeless(slot) && Deterministic(cmd, st) && !cmd.ZPopMin? && !cmd.ZPopMax?
    ensures ApplySlot(cmd, slot, e1) == ApplySlot(cmd, slot, e2)
  {
  }

  lemma SlotIgnoresEnv(cmd: Command, st: S.Store, e1: S.Env, e2: S.Env)
    requires Settled(st) && S.Sane(e1) && S.Sane(e2) && Deterministic(cmd, st) && OneSlot(cmd)
    ensures ApplySlot(cmd, S.At(st, cmd.key), e1) == ApplySlot(cmd, S.At(st, cmd.key), e2)
  {
    var slot := S.At(st, cmd.key);
    if cmd.ZPopMin? { ZPopIgnoresEnv(slot, cmd.many, true, e1, e2); }
    else if cmd.ZPopMax? { ZPopIgnoresEnv(slot, cmd.many, false, e1, e2); }
    else { OtherArmsIgnoreEnv(cmd, slot, st, e1, e2); }
  }

  lemma MultiKeyIgnoresEnv(cmd: Command, st: S.Store, e1: S.Env, e2: S.Env)
    requires Settled(st) && !OneSlot(cmd)
    ensures Apply(cmd, st, e1) == Apply(cmd, st, e2)
  {
  }

  lemma ApplyIgnoresEnv(cmd: Command, st: S.Store, e1: S.Env, e2: S.Env)
    requires Settled(st) && S.Sane(e1) && S.Sane(e2) && Deterministic(cmd, st)
    ensures Apply(cmd, st, e1) == Apply(cmd, st, e2)
  {
    if OneSlot(cmd) { SlotIgnoresEnv(cmd, st, e1, e2); } else { MultiKeyIgnoresEnv(cmd, st, e1, e2); }
  }

  lemma SlotStaysTimeless(cmd: Command, slot: S.Slot, st: S.Store, env: S.Env)
    requires S.GoodSlot(slot) && S.Timeless(slot) && Deterministic(cmd, st)
    ensures S.Timeless(ApplySlot(cmd, slot, env))
  {
    if cmd.HMSet? { SetFieldsKeeps(slot, cmd.pairs); }
  }

  lemma PutAddsNoDeadline(st: S.Store, key: Bytes, slot: S.Slot)
    requires S.NoDeadlines(st) && S.Timeless(slot)
    ensures S.NoDeadlines(S.Put(st, key, slot))
  {
  }

  lemma ApplyAddsNoDeadline(cmd: Command, st: S.Store, env: S.Env)
    requires Settled(st) && Deterministic(cmd, st)
    ensures S.NoDeadlines(Apply(cmd, st, env))
  {
    if OneSlot(cmd) {
      SlotStaysTimeless(cmd, S.At(st, cmd.key), st, env);
      PutAddsNoDeadline(st, cmd.key, ApplySlot(cmd, S.At(st, cmd.key), env));
    } else if cmd.MSet? {
      SetAllKeepsGood(st, cmd.pairs);
    }
  }

  lemma ApplyKeepsSettled(cmd: Command, st: S.Store, env: S.Env)
    requires Settled(st) && S.Sane(env) && Deterministic(cmd, st)
    ensures Settled(Apply(cmd, st, env))
  {
    ApplyKeepsGood(cmd, st, env);
    ApplyAddsNoDeadline(cmd, st, env);
  }

  /** On the fragment, executing a command here and replaying it there, later and
      under another clock and hash order, have the same effect. */
  lemma LiveIsReplayed(cmd: Command, st: S.Store, here: S.Env, there: S.Env)
    requires Settled(st) && S.Sane(here) && S.Sane(there) && Deterministic(cmd, st)
    ensures Live(cmd, st, here) == Apply(cmd, st, there)
    ensures Settled(Live(cmd, st, here))
  {
    DispatchersAgree(cmd, st, here);
    ApplyIgnoresEnv(cmd, st, here, there);
    ApplyKeepsSettled(cmd, st, here);
  }

  // ---- Histories ----

  /** A command together with the environment it ran in. */
  datatype Executed = Executed(cmd: Command, env: S.Env)

  function LiveAll(st: S.Store, run: seq<Executed>): S.Store {
    if run == [] then st else Live(run[|run| - 1].cmd, LiveAll(st, run[..|run| - 1]), run[|run| - 1].env)
  }

  function ApplyAll(st: S.Store, run: seq<Executed>): S.Store {
    if run == [] then st else Apply(run[|run| - 1].cmd, ApplyAll(st, run[..|run| - 1]), run[|run| - 1].env)
  }

  ghost predicate NeverWraps(run: seq<Executed>) {
    forall i | 0 <= i < |run| :: S.Sane(run[i].env) && !LiveWraps(run[i].cmd, LiveAll(map[], run[..i]), run[i].env)
  }

  /** Whatever commands ran from an empty store, of the fragment or not, its collections
      are well-formed as long as no generated stream id wrapped. */
  lemma {:induction false} LiveRunIsGood(run: seq<Executed>)
    requires NeverWraps(run)
    ensures S.Good(LiveAll(map[], run))
  {
    if run != [] {
      var n := |run| - 1;
      assert NeverWraps(run[..n]) by {
        forall i | 0 <= i < n
          ensures S.Sane(run[..n][i].env) &&
                  !LiveWraps(run[..n][i].cmd, LiveAll(map[], run[..n][..i]), run[..n][i].env)
        {
          assert run[..n][..i] == run[..i];
        }
      }
      LiveRunIsGood(run[..n]);
      LiveKeepsGood(run[n].cmd, LiveAll(map[], run[..n]), run[n].env);
    }
  }

  /** Each command is in the fragment where it ran. */
  ghost predicate FragmentRun(st: S.Store, run: seq<Executed>) {
    forall i | 0 <= i < |run| :: S.Sane(run[i].env) && Deterministic(run[i].cmd, LiveAll(st, run[..i]))
  }

  /** The same commands, run again in environments of their own. */
  ghost predicate SameCommands(a: seq<Executed>, b: seq<Executed>) {
    |a| == |b| && forall i | 0 <= i < |a| :: a[i].cmd == b[i].cmd && S.Sane(b[i].env)
  }

  lemma FragmentPrefix(st: S.Store, run: seq<Executed>, n: nat)
    requires FragmentRun(st, run) && n <= |run|
    ensures FragmentRun(st, run[..n])
  {
    forall i | 0 <= i < n
      ensures S.Sane(run[..n][i].env) && Deterministic(run[..n][i].cmd, LiveAll(st, run[..n][..i]))
    {
      assert run[..n][..i] == run[..i];
    }
  }

  lemma FragmentLast(st: S.Store, run: seq<Executed>)
    requires FragmentRun(st, run) && run != []
    ensures var n := |run| - 1; S.Sane(run[n].env) && Deterministic(run[n].cmd, LiveAll(st, run[..n]))
  {
  }

  lemma SamePrefix(a: seq<Executed>, b: seq<Executed>, n: nat)
    requires SameCommands(a, b) && n <= |a|
    ensures SameCommands(a[..n], b[..n])
  {
  }

  /** Replaying a whole history of the fragment rebuilds the live store. */
  lemma {:induction false} HistoryReplays(st: S.Store, run: seq<Executed>, again: seq<Executed>)
    requires Settled(st) && FragmentRun(st, run) && SameCommands(run, again)
    ensures LiveAll(st, run) == ApplyAll(st, again)
    ensures Settled(LiveAll(st, run))
  {
    var n := |run|;
    if n > 0 {
      FragmentPrefix(st, run, n - 1);
      SamePrefix(run, again, n - 1);
      HistoryReplays(st, run[..n - 1], again[..n - 1]);
      FragmentLast(st, run);
      LastReplays(st, run, again);
    }
  }

  lemma LastReplays(st: S.Store, run: seq<Executed>, again: seq<Executed>)
    requires run != [] && SameCommands(run, again)
    requires var n := |run| - 1;
             && S.Sane(run[n].env) && Deterministic(run[n].cmd, LiveAll(st, run[..n]))
             && Settled(LiveAll(st, run[..n])) && LiveAll(st, run[..n]) == ApplyAll(st, again[..n])
    ensures LiveAll(st, run) == ApplyAll(st, again) && Settled(LiveAll(st, run))
  {
    var n := |run| - 1;
    LiveIsReplayed(run[n].cmd, LiveAll(st, run[..n]), run[n].env, again[n].env);
  }
}
