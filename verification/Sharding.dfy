/** The 64-shard map of storage.rs, updated one shard at a time, behaves as one
    map; and the shards a command bumps cover every shard it can change. */
module Sharding {
  import opened Primitives
  import opened Commands
  import S = Store
  import E = Effects
  import Z = SortedSets
  import Q = SortedSetQueries

  const SHARD_COUNT: nat := 64

  /** The 64-bit hash is a parameter; the shard is its low six bits. */
  function ShardOf(hash: Bytes -> nat, key: Bytes): (i: nat)
    ensures i < SHARD_COUNT
  {
    hash(key) % SHARD_COUNT
  }

  /** One of 64 shards: the hash less whole multiples of 64. */
  lemma ShardIsLowBits(hash: Bytes -> nat, key: Bytes, multiple: nat, i: nat)
    requires hash(key) == multiple * 64 + i && i < 64
    ensures ShardOf(hash, key) == i
  {
  }

  // ---- Shards as one map ----

  /** The union of the shards. */
  ghost function Merged(shards: seq<S.Store>): S.Store {
    if shards == [] then map[] else Merged(shards[..|shards| - 1]) + shards[|shards| - 1]
  }

  /** Each key lives only in its own shard. */
  ghost predicate Placed(hash: Bytes -> nat, shards: seq<S.Store>) {
    |shards| <= SHARD_COUNT && forall i, k | 0 <= i < |shards| && k in shards[i] :: ShardOf(hash, k) == i
  }

  lemma {:induction false} MergedAt(hash: Bytes -> nat, shards: seq<S.Store>, k: Bytes)
    requires Placed(hash, shards)
    ensures S.At(Merged(shards), k) == if ShardOf(hash, k) < |shards| then S.At(shards[ShardOf(hash, k)], k) else None
  {
    if shards != [] {
      var init := shards[..|shards| - 1];
      assert Placed(hash, init);
      MergedAt(hash, init, k);
    }
  }

  lemma SameSlots(a: S.Store, b: S.Store)
    requires forall k :: S.At(a, k) == S.At(b, k)
    ensures a == b
  {
    assert forall k | k in a :: S.At(a, k) == S.At(b, k);
    assert forall k | k in b :: S.At(a, k) == S.At(b, k);
    assert a.Keys == b.Keys;
  }

  /** Editing a slot in its own shard is editing it in the merged map. */
  lemma PutInShard(hash: Bytes -> nat, shards: seq<S.Store>, key: Bytes, slot: S.Slot)
    requires Placed(hash, shards) && |shards| == SHARD_COUNT
    ensures var i := ShardOf(hash, key);
            var edited := shards[i := S.Put(shards[i], key, slot)];
            Placed(hash, edited) && Merged(edited) == S.Put(Merged(shards), key, slot)
  {
    var i := ShardOf(hash, key);
    var edited := shards[i := S.Put(shards[i], key, slot)];
    forall j, k | 0 <= j < |edited| && k in edited[j] ensures ShardOf(hash, k) == j {
      if j != i || k != key { assert k in shards[j]; }
    }
    forall k ensures S.At(Merged(edited), k) == S.At(S.Put(Merged(shards), key, slot), k) {
      MergedAt(hash, shards, k);
      MergedAt(hash, edited, k);
    }
    SameSlots(Merged(edited), S.Put(Merged(shards), key, slot));
  }

  // ---- Live keys ----

  ghost function LiveKeys(st: S.Store, now: S.Instant): set<Bytes> {
    set k | k in st && !S.Expired(st[k], now)
  }

  lemma LiveKeysJoin(hash: Bytes -> nat, shards: seq<S.Store>, now: S.Instant)
    requires Placed(hash, shards) && shards != []
    ensures var n := |shards| - 1;
            LiveKeys(Merged(shards), now) == LiveKeys(Merged(shards[..n]), now) + LiveKeys(shards[n], now) &&
            LiveKeys(Merged(shards[..n]), now) !! LiveKeys(shards[n], now)
  {
    var n := |shards| - 1;
    assert Placed(hash, shards[..n]);
    forall k | k in shards[n] ensures k !in Merged(shards[..n]) {
      MergedAt(hash, shards[..n], k);
    }
  }

  lemma LiveCountGrows(hash: Bytes -> nat, shards: seq<S.Store>, i: nat, now: S.Instant)
    requires Placed(hash, shards) && i < |shards|
    ensures |LiveKeys(Merged(shards[..i + 1]), now)|
         == |LiveKeys(Merged(shards[..i]), now)| + |LiveKeys(shards[i], now)|
  {
    assert shards[..i + 1][..i] == shards[..i];
    LiveKeysJoin(hash, shards[..i + 1], now);
  }

  /** What an expiry-checking read sees. */
  function Look(st: S.Store, k: Bytes, now: S.Instant): S.Slot {
    if k in st && !S.Expired(st[k], now) then Some(st[k]) else None
  }

  class CacheStorage {
    const hash: Bytes -> nat
    var shards: seq<S.Store>

    ghost predicate Valid()
      reads this
    {
      |shards| == SHARD_COUNT && Placed(hash, shards)
    }

    ghost function Contents(): S.Store
      reads this
    {
      Merged(shards)
    }

    constructor (hash: Bytes -> nat)
      ensures Valid() && Contents() == map[] && this.hash == hash
    {
      this.hash := hash;
      shards := seq(SHARD_COUNT, i => map[]);
      new;
      forall k ensures S.At(Contents(), k) == S.At(map[], k) { MergedAt(hash, shards, k); }
      SameSlots(Contents(), map[]);
    }

    method Get(key: Bytes) returns (slot: S.Slot)
      requires Valid()
      ensures slot == S.At(Contents(), key)
    {
      MergedAt(hash, shards, key);
      slot := S.At(shards[ShardOf(hash, key)], key);
    }

    method Write(key: Bytes, slot: S.Slot)
      requires Valid()
      modifies `shards
      ensures Valid() && Contents() == S.Put(old(Contents()), key, slot)
    {
      PutInShard(hash, shards, key, slot);
      var i := ShardOf(hash, key);
      shards := shards[i := S.Put(shards[i], key, slot)];
    }

    /** The storage arm of any command, shard by shard. */
    method Execute(cmd: Command, env: S.Env)
      requires Valid()
      modifies `shards
      ensures Valid() && Contents() == Live(cmd, old(Contents()), env)
    {
      if OneSlot(cmd) {
        var slot := Get(cmd.key);
        Write(cmd.key, LiveSlot(cmd, slot, env));
      } else if cmd.FlushAll? {
        Flush();
      } else if cmd.MSet? {
        SetPairs(cmd.pairs);
      } else if cmd.RPopLPush? {
        PopThenPush(cmd.source, cmd.destination, env.now);
      } else if cmd.SMove? {
        Move(cmd.source, cmd.destination, cmd.member, env.now);
      } else if cmd.Rename? {
        var slot := Get(cmd.key);
        if slot.Some? {
          Write(cmd.key, None);
          if !S.Expired(slot.value, env.now) { Write(cmd.newKey, slot); }
        }
      }
    }

    method Flush()
      requires Valid()
      modifies `shards
      ensures Valid() && Contents() == map[]
    {
      for i := 0 to SHARD_COUNT
        invariant |shards| == SHARD_COUNT && forall j | 0 <= j < i :: shards[j] == map[]
      {
        shards := shards[i := map[]];
      }
      forall k ensures S.At(Contents(), k) == S.At(map[], k) { MergedAt(hash, shards, k); }
      SameSlots(Contents(), map[]);
    }

    method SetPairs(pairs: seq<(Bytes, Bytes)>)
      requires Valid()
      modifies `shards
      ensures Valid() && Contents() == SetAll(old(Contents()), pairs)
    {
      ghost var goal := SetAll(Contents(), pairs);
      assert pairs[0..] == pairs;
      for i := 0 to |pairs|
        invariant Valid() && SetAll(Contents(), pairs[i..]) == goal
      {
        assert pairs[i..][1..] == pairs[i + 1..];
        Write(pairs[i].0, S.SetString(pairs[i].1, None, 0));
      }
    }

    method PopThenPush(source: Bytes, destination: Bytes, now: S.Instant)
      requires Valid()
      modifies `shards
      ensures Valid() && Contents() == S.RPopLPush(old(Contents()), source, destination, now)
    {
      var slot := Get(source);
      if slot.Some? && slot.value.List? && !S.Expired(slot.value, now) && slot.value.items != [] {
        var items := slot.value.items;
        Write(source, Some(S.List(items[..|items| - 1], slot.value.exp)));
        var target := Get(destination);
        Write(destination, S.PushFront(target, items[|items| - 1], now));
      }
    }

    method Move(source: Bytes, destination: Bytes, member: Bytes, now: S.Instant)
      requires Valid()
      modifies `shards
      ensures Valid() && Contents() == S.SMove(old(Contents()), source, destination, member, now)
    {
      var slot := Get(source);
      if slot.Some? && slot.value.Set? && !S.Expired(slot.value, now) && member in slot.value.members {
        Write(source, Some(S.Set(slot.value.members - {member}, slot.value.exp)));
        var target := Get(destination);
        Write(destination, S.Receive(target, member, now));
      }
    }

    /** DBSIZE: the per-shard counts add up to the number of live keys. */
    method DbSize(now: S.Instant) returns (size: nat)
      requires Valid()
      ensures size == |LiveKeys(Contents(), now)|
    {
      size := 0;
      for i := 0 to SHARD_COUNT
        invariant size == |LiveKeys(Merged(shards[..i]), now)|
      {
        var live := set k | k in shards[i] && !S.Expired(shards[i][k], now);
        assert live == LiveKeys(shards[i], now);
        LiveCountGrows(hash, shards, i, now);
        size := size + |live|;
      }
      assert shards[..SHARD_COUNT] == shards;
    }

    /** KEYS: each live key that matches once, shard by shard in hash order. */
    method Keys(pattern: Bytes, order: set<Bytes> -> seq<Bytes>, now: S.Instant) returns (out: seq<Bytes>)
      requires Valid() && Z.Iterates(order)
      ensures Z.Lists(out, Found(Contents(), pattern, now))
    {
      out := [];
      for i := 0 to SHARD_COUNT
        invariant Z.Lists(out, Found(Merged(shards[..i]), pattern, now))
      {
        var found := ScanShard(shards[i], pattern, order, now);
        FoundJoin(hash, shards, i, pattern, now);
        ListsJoin(out, Found(Merged(shards[..i]), pattern, now), found, Found(shards[i], pattern, now));
        out := out + found;
      }
      assert shards[..SHARD_COUNT] == shards;
    }

    /** The background sweep: drop what has expired. */
    method CleanupExpired(now: S.Instant)
      requires Valid()
      modifies `shards
      ensures Valid()
      ensures forall k, later: S.Instant | later >= now :: Look(Contents(), k, later) == Look(old(Contents()), k, later)
      ensures Contents().Keys == LiveKeys(old(Contents()), now)
    {
      ghost var before := shards;
      for i := 0 to SHARD_COUNT
        invariant |shards| == SHARD_COUNT
        invariant forall j | 0 <= j < i :: shards[j] == Retained(before[j], now)
        invariant forall j | i <= j < SHARD_COUNT :: shards[j] == before[j]
      {
        var shard := shards[i];
        shards := shards[i := map k | k in shard && !S.Expired(shard[k], now) :: shard[k]];
      }
      forall k
        ensures S.At(Contents(), k) == if k in LiveKeys(Merged(before), now) then S.At(Merged(before), k) else None
      {
        MergedAt(hash, shards, k);
        MergedAt(hash, before, k);
      }
      assert forall k :: k in Contents() <==> S.At(Contents(), k).Some?;
    }
  }

  ghost function Retained(shard: S.Store, now: S.Instant): S.Store {
    map k | k in shard && !S.Expired(shard[k], now) :: shard[k]
  }

  // ---- Key patterns ----

  predicate OccursAt(text: Bytes, part: Bytes, i: nat) { i + |part| <= |text| && text[i..i + |part|] == part }

  predicate Contains(text: Bytes, part: Bytes) { exists i: nat | i <= |text| :: OccursAt(text, part, i) }

  /** The pattern without its stars. */
  function Stripped(pattern: Bytes): Bytes {
    if pattern == [] then [] else (if pattern[0] == STAR then [] else [pattern[0]]) + Stripped(pattern[1..])
  }

  const STAR: Byte := 42

  /** A lone star matches everything; otherwise stars are dropped and what is left has to
      occur in the key, decoded lossily. */
  predicate KeyMatches(pattern: Bytes, key: Bytes) {
    pattern == [STAR] || Contains(Lossy(key), Stripped(pattern))
  }

  lemma {:induction false} StrippedJoin(p: Bytes, q: Bytes)
    ensures Stripped(p + q) == Stripped(p) + Stripped(q)
  {
    if p == [] { assert p + q == q; }
    else {
      var first := if p[0] == STAR then [] else [p[0]];
      StrippedJoin(p[1..], q);
      assert (p + q)[1..] == p[1..] + q;
      Assoc(first, Stripped(p[1..]), Stripped(q));
    }
  }

  /** A star in a pattern does nothing, wherever it stands. */
  lemma StarsDoNothing(p: Bytes, q: Bytes, key: Bytes)
    ensures KeyMatches(p + [STAR] + q, key) <==> KeyMatches(p + q, key)
  {
    StrippedJoin(p + [STAR], q);
    StrippedJoin(p, [STAR]);
    StrippedJoin(p, q);
    assert Stripped([STAR]) == [] && Stripped(p) + [] == Stripped(p);
    assert OccursAt(Lossy(key), [], 0);
  }

  ghost predicate Around(text: Bytes, a: Bytes, part: Bytes, b: Bytes) { text == a + part + b }

  ghost predicate IsPart(text: Bytes, part: Bytes) { exists a, b :: Around(text, a, part, b) }

  lemma {:induction false} StrippedPlain(p: Bytes)
    requires STAR !in p
    ensures Stripped(p) == p
  {
    if p != [] { StrippedPlain(p[1..]); }
  }

  lemma OccursBetween(text: Bytes, part: Bytes, i: nat) returns (a: Bytes, b: Bytes)
    requires OccursAt(text, part, i)
    ensures Around(text, a, part, b)
  {
    a, b := text[..i], text[i + |part|..];
  }

  lemma PartOccurs(text: Bytes, a: Bytes, part: Bytes, b: Bytes)
    requires Around(text, a, part, b)
    ensures |a| <= |text| && OccursAt(text, part, |a|)
  {
  }

  /** A pattern without stars matches the keys that it is a part of. */
  lemma PlainPatternIsPart(p: Bytes, key: Bytes)
    requires STAR !in p
    ensures KeyMatches(p, key) <==> IsPart(Lossy(key), p)
  {
    var text := Lossy(key);
    StrippedPlain(p);
    if KeyMatches(p, key) {
      var i: nat :| i <= |text| && OccursAt(text, p, i);
      var a, b := OccursBetween(text, p, i);
      assert IsPart(text, p);
    }
    if IsPart(text, p) {
      var a, b :| Around(text, a, p, b);
      PartOccurs(text, a, p, b);
      assert KeyMatches(p, key);
    }
  }

  ghost function Found(st: S.Store, pattern: Bytes, now: S.Instant): set<Bytes> {
    set k | k in LiveKeys(st, now) && KeyMatches(pattern, k)
  }

  lemma FoundJoin(hash: Bytes -> nat, shards: seq<S.Store>, i: nat, pattern: Bytes, now: S.Instant)
    requires Placed(hash, shards) && i < |shards|
    ensures Found(Merged(shards[..i + 1]), pattern, now)
         == Found(Merged(shards[..i]), pattern, now) + Found(shards[i], pattern, now)
    ensures Found(Merged(shards[..i]), pattern, now) !! Found(shards[i], pattern, now)
  {
    assert shards[..i + 1][..i] == shards[..i];
    LiveKeysJoin(hash, shards[..i + 1], now);
  }

  /** The scan picks this key of the shard. */
  predicate Picks(shard: S.Store, pattern: Bytes, now: S.Instant, k: Bytes) {
    k in shard && !S.Expired(shard[k], now) && KeyMatches(pattern, k)
  }

  function Filtered(keys: seq<Bytes>, shard: S.Store, pattern: Bytes, now: S.Instant): seq<Bytes> {
    if keys == [] then []
    else
      var k := keys[|keys| - 1];
      Filtered(keys[..|keys| - 1], shard, pattern, now) + (if Picks(shard, pattern, now, k) then [k] else [])
  }

  /** Those among `keys` that the scan picks. */
  ghost function FoundAmong(keys: seq<Bytes>, shard: S.Store, pattern: Bytes, now: S.Instant): set<Bytes> {
    set k | k in keys && Picks(shard, pattern, now, k)
  }

  lemma FoundAmongOneMore(init: seq<Bytes>, k: Bytes, shard: S.Store, pattern: Bytes, now: S.Instant)
    ensures FoundAmong(init + [k], shard, pattern, now)
         == FoundAmong(init, shard, pattern, now) + (if Picks(shard, pattern, now, k) then {k} else {})
  {
  }

  lemma {:induction false} FilteredLists(keys: seq<Bytes>, shard: S.Store, pattern: Bytes, now: S.Instant)
    requires forall i, j | 0 <= i < j < |keys| :: keys[i] != keys[j]
    ensures Z.Lists(Filtered(keys, shard, pattern, now), FoundAmong(keys, shard, pattern, now))
  {
    if keys != [] {
      var init, k := keys[..|keys| - 1], keys[|keys| - 1];
      FilteredLists(init, shard, pattern, now);
      assert k !in init;
      assert keys == init + [k];
      FoundAmongOneMore(init, k, shard, pattern, now);
      if Picks(shard, pattern, now, k) {
        ListsJoin(Filtered(init, shard, pattern, now), FoundAmong(init, shard, pattern, now), [k], {k});
      } else {
        assert FoundAmong(init, shard, pattern, now) + {} == FoundAmong(init, shard, pattern, now);
      }
    }
  }

  method ScanShard(shard: S.Store, pattern: Bytes, order: set<Bytes> -> seq<Bytes>, now: S.Instant)
    returns (out: seq<Bytes>)
    requires Z.Iterates(order)
    ensures Z.Lists(out, Found(shard, pattern, now))
  {
    var all := order(shard.Keys);
    out := [];
    for i := 0 to |all|
      invariant out == Filtered(all[..i], shard, pattern, now)
    {
      assert all[..i + 1][..i] == all[..i];
      if Picks(shard, pattern, now, all[i]) { out := out + [all[i]]; }
    }
    assert all[..|all|] == all;
    assert Z.Lists(all, shard.Keys);
    Q.ListedOnce(all, shard.Keys);
    FilteredLists(all, shard, pattern, now);
    assert FoundAmong(all, shard, pattern, now) == Found(shard, pattern, now);
  }

  lemma ListsJoin(a: seq<Bytes>, s: set<Bytes>, b: seq<Bytes>, t: set<Bytes>)
    requires Z.Lists(a, s) && Z.Lists(b, t) && s !! t
    ensures Z.Lists(a + b, s + t)
  {
  }

  // ---- Version bumps cover every change ----

  /** `command_key`, arm by arm. */
  function CommandKey(cmd: Command): (r: Option<Bytes>) {
    match cmd
    case KeyRead(_, key) => Some(key)
    case Set(key, _, _) => Some(key)
    case Delete(key) => Some(key)
    case Incr(key) => Some(key)
    case Decr(key) => Some(key)
    case Append(key, _) => Some(key)
    case HSet(key, _, _) => Some(key)
    case HDel(key, _) => Some(key)
    case LPush(key, _) => Some(key)
    case RPush(key, _) => Some(key)
    case LPop(key) => Some(key)
    case RPop(key) => Some(key)
    case SAdd(key, _) => Some(key)
    case SRem(key, _) => Some(key)
    case ZAdd(key, _) => Some(key)
    case ZRem(key, _) => Some(key)
    case Expire(key, _) => Some(key)
    case PExpire(key, _) => Some(key)
    case ExpireAt(key, _) => Some(key)
    case Persist(key) => Some(key)
    case SetNx(key, _) => Some(key)
    case SetEx(key, _, _) => Some(key)
    case GetSet(key, _) => Some(key)
    case IncrBy(key, _) => Some(key)
    case DecrBy(key, _) => Some(key)
    case IncrByFloat(key, _) => Some(key)
    case HMSet(key, _) => Some(key)
    case HSetNx(key, _, _) => Some(key)
    case HIncrBy(key, _, _) => Some(key)
    case LSet(key, _, _) => Some(key)
    case LRem(key, _, _) => Some(key)
    case LTrim(key, _, _) => Some(key)
    case SPop(key, _) => Some(key)
    case ZIncrBy(key, _, _) => Some(key)
    case ZPopMin(key, _) => Some(key)
    case ZPopMax(key, _) => Some(key)
    case RPopLPush(source, _) => Some(source)
    case SMove(source, _, _) => Some(source)
    case Rename(key, _) => Some(key)
    case MSet(_) => None
    case Multi => None
    case Exec => None
    case Discard => None
    case Watch(_) => None
    case Unwatch => None
    case XAdd(key, _, _) => Some(key)
    case Script(_) => None
    case FlushAll => None
    case Keyless => None
  }

  /** `bump_versions_for`: the shards bumped, in order; by default that of the
      command's key, if it has one. */
  function BumpList(hash: Bytes -> nat, cmd: Command): (r: seq<nat>)
    ensures forall i | 0 <= i < |r| :: r[i] < SHARD_COUNT
  {
    if cmd.MSet? then seq(|cmd.pairs|, i requires 0 <= i < |cmd.pairs| => ShardOf(hash, cmd.pairs[i].0))
    else if cmd.RPopLPush? || cmd.SMove? then [ShardOf(hash, cmd.source), ShardOf(hash, cmd.destination)]
    else if cmd.Rename? then [ShardOf(hash, cmd.key), ShardOf(hash, cmd.newKey)]
    else if cmd.FlushAll? then seq(SHARD_COUNT, i => i)
    else match CommandKey(cmd) case None => [] case Some(k) => [ShardOf(hash, k)]
  }

  /** Frame completeness: whatever entry a command changes, the command passes the
      write gate and the entry's shard is among those it bumps. */
  lemma ChangesAreBumped(hash: Bytes -> nat, cmd: Command, st: S.Store, env: S.Env, k: Bytes)
    requires S.At(Live(cmd, st, env), k) != S.At(st, k)
    ensures IsWrite(cmd) && ShardOf(hash, k) in BumpList(hash, cmd)
  {
    if cmd.FlushAll? {
      assert BumpList(hash, cmd)[ShardOf(hash, k)] == ShardOf(hash, k);
    } else if k !in E.Touches(cmd) {
      E.OutsideFootprint(cmd, st, env, k);
      assert false;
    } else if cmd.MSet? {
      var i :| 0 <= i < |cmd.pairs| && cmd.pairs[i].0 == k;
      assert BumpList(hash, cmd)[i] == ShardOf(hash, k);
    } else if cmd.RPopLPush? || cmd.SMove? || cmd.Rename? {
      assert ShardOf(hash, k) == BumpList(hash, cmd)[0] || ShardOf(hash, k) == BumpList(hash, cmd)[1];
    } else {
      assert BumpList(hash, cmd)[0] == ShardOf(hash, k);
    }
  }

  /** The gate and the versions see the key a command works on, reads included. */
  lemma OneKeyIsTheCommandKey(cmd: Command)
    requires OneSlot(cmd)
    ensures CommandKey(cmd) == Some(cmd.key)
  {
  }

  /** Nothing but the shards of the keys a command names is bumped, except by FLUSHALL,
      which bumps all 64. */
  lemma OnlyNamedAreBumped(hash: Bytes -> nat, cmd: Command, s: nat)
    requires IsWrite(cmd) && s in BumpList(hash, cmd)
    ensures if cmd.FlushAll? then |BumpList(hash, cmd)| == 64 && forall t: nat | t < 64 :: t in BumpList(hash, cmd)
            else exists k | k in E.Touches(cmd) :: ShardOf(hash, k) == s
  {
    if cmd.FlushAll? {
      forall t: nat | t < 64 ensures t in BumpList(hash, cmd) { assert BumpList(hash, cmd)[t] == t; }
    }
  }
}
