/** Commands, the live dispatcher of server.rs and the replay dispatcher of
    commands.rs, and exactly where the two agree. */
module Commands {
  import opened Primitives
  import opened S = Store
  import X = Streams

  /** Commands that only read, or that never touch storage. */
  datatype ReadOp =
    | GET | STRLEN | HGET | HGETALL | HKEYS | HVALS | HLEN | HEXISTS | HMGET | LRANGE | LLEN | LINDEX
    | SMEMBERS | SISMEMBER | SCARD | SRANDMEMBER | ZRANGE | ZRANK | ZSCORE | ZCARD | ZCOUNT
    | ZRANGEBYSCORE | ZREVRANGE | GETRANGE | TTL | PTTL | TYPE | XLEN | XRANGE

  datatype Command =
    | Set(key: Bytes, value: Bytes, ttlSecs: Option<nat>)
    | Delete(key: Bytes)
    | Incr(key: Bytes)
    | Decr(key: Bytes)
    | Append(key: Bytes, value: Bytes)
    | HSet(key: Bytes, field: Bytes, value: Bytes)
    | HDel(key: Bytes, names: seq<Bytes>)
    | LPush(key: Bytes, values: seq<Bytes>)
    | RPush(key: Bytes, values: seq<Bytes>)
    | LPop(key: Bytes)
    | RPop(key: Bytes)
    | SAdd(key: Bytes, members: seq<Bytes>)
    | SRem(key: Bytes, members: seq<Bytes>)
    | ZAdd(key: Bytes, scored: seq<(real, Bytes)>)
    | ZRem(key: Bytes, members: seq<Bytes>)
    | FlushAll
    | Expire(key: Bytes, seconds: int)
    | PExpire(key: Bytes, millis: int)
    | ExpireAt(key: Bytes, unixSecs: int)
    | Persist(key: Bytes)
    | SetNx(key: Bytes, value: Bytes)
    | SetEx(key: Bytes, ttl: nat, value: Bytes)
    | GetSet(key: Bytes, value: Bytes)
    | MSet(pairs: seq<(Bytes, Bytes)>)
    | IncrBy(key: Bytes, delta: int)
    | DecrBy(key: Bytes, delta: int)
    | IncrByFloat(key: Bytes, amount: real)
    | HMSet(key: Bytes, pairs: seq<(Bytes, Bytes)>)
    | HSetNx(key: Bytes, field: Bytes, value: Bytes)
    | HIncrBy(key: Bytes, field: Bytes, delta: int)
    | LSet(key: Bytes, index: int, value: Bytes)
    | LRem(key: Bytes, count: int, value: Bytes)
    | LTrim(key: Bytes, start: int, stop: int)
    | RPopLPush(source: Bytes, destination: Bytes)
    | SPop(key: Bytes, limit: Option<nat>)
    | SMove(source: Bytes, destination: Bytes, member: Bytes)
    | ZIncrBy(key: Bytes, amount: real, member: Bytes)
    | ZPopMin(key: Bytes, many: nat)
    | ZPopMax(key: Bytes, many: nat)
    | Rename(key: Bytes, newKey: Bytes)
    | XAdd(key: Bytes, id: Option<Bytes>, pairs: seq<(Bytes, Bytes)>)
    // Not writes
    | KeyRead(op: ReadOp, key: Bytes)
    | Keyless
    | Multi
    | Exec
    | Discard
    | Watch(keys: seq<Bytes>)
    | Unwatch
    | Script(effects: seq<Command>)

  /** `is_write_command`, arm by arm. */
  predicate IsWrite(cmd: Command) {
    || cmd.Set? || cmd.Delete? || cmd.Incr? || cmd.Decr? || cmd.Append? || cmd.HSet? || cmd.HDel?
    || cmd.LPush? || cmd.RPush? || cmd.LPop? || cmd.RPop? || cmd.SAdd? || cmd.SRem? || cmd.ZAdd? || cmd.ZRem?
    || cmd.FlushAll? || cmd.Expire? || cmd.PExpire? || cmd.ExpireAt? || cmd.Persist?
    || cmd.SetNx? || cmd.SetEx? || cmd.GetSet? || cmd.MSet? || cmd.IncrBy? || cmd.DecrBy? || cmd.IncrByFloat?
    || cmd.HMSet? || cmd.HSetNx? || cmd.HIncrBy? || cmd.LSet? || cmd.LRem? || cmd.LTrim? || cmd.RPopLPush?
    || cmd.SPop? || cmd.SMove? || cmd.ZIncrBy? || cmd.ZPopMin? || cmd.ZPopMax? || cmd.Rename? || cmd.XAdd?
  }

  /** Commands whose arm works on the entry of one key, reads among them. */
  predicate OneSlot(cmd: Command) {
    !(|| cmd.FlushAll? || cmd.MSet? || cmd.RPopLPush? || cmd.SMove? || cmd.Rename? || cmd.Keyless?
      || cmd.Multi? || cmd.Exec? || cmd.Discard? || cmd.Watch? || cmd.Unwatch? || cmd.Script?)
  }

  // ---- Shared loops ----

  function SetAll(st: Store, pairs: seq<(Bytes, Bytes)>): Store
    decreases |pairs|
  {
    if pairs == [] then st else SetAll(S.Put(st, pairs[0].0, S.SetString(pairs[0].1, None, 0)), pairs[1..])
  }

  /** HMSET while executing: stop at the first refusal. */
  function SetFieldsOrStop(slot: Slot, pairs: seq<(Bytes, Bytes)>): Slot
    decreases |pairs|
  {
    if pairs == [] || !TakesFields(slot) then slot
    else SetFieldsOrStop(S.HSet(slot, pairs[0].0, pairs[0].1), pairs[1..])
  }

  /** HMSET while replaying: carry on past refusals. */
  function SetFields(slot: Slot, pairs: seq<(Bytes, Bytes)>): Slot
    decreases |pairs|
  {
    if pairs == [] then slot else SetFields(S.HSet(slot, pairs[0].0, pairs[0].1), pairs[1..])
  }

  function Millis(secs: Option<nat>): Option<nat> {
    match secs case None => None case Some(s) => Some(s * 1000)
  }

  // ---- Live execution (the arms of `execute_command`) ----

  /** What the arms of `execute_command` make of the one slot a command edits. */
  function LiveSlot(cmd: Command, slot: Slot, env: Env): Slot {
    match cmd
    case Set(_, value, ttl) => S.SetString(value, Millis(ttl), env.now)
    case Delete(_) => None
    case Incr(_) => S.Step(slot, 1)
    case Decr(_) => S.Step(slot, -1)
    case Append(_, value) => S.Append(slot, value)
    case HSet(_, field, value) => S.HSet(slot, field, value)
    case HDel(_, names) => S.HDel(slot, names)
    case LPush(_, values) => S.LPush(slot, values)
    case RPush(_, values) => S.RPush(slot, values)
    case LPop(_) => S.LPop(slot)
    case RPop(_) => S.RPop(slot)
    case SAdd(_, members) => S.SAdd(slot, members)
    case SRem(_, members) => S.SRem(slot, members)
    case ZAdd(_, scored) => S.ZAdd(slot, scored)
    case ZRem(_, members) => S.ZRem(slot, members)
    case Expire(_, seconds) =>
      if seconds < 0 then slot else S.SetExpiry(slot, env.now + seconds * 1000, env.now)
    case PExpire(_, millis) =>
      if millis < 0 then slot else S.SetExpiry(slot, env.now + millis, env.now)
    case ExpireAt(_, unixSecs) =>
      var nowSecs := env.unixMs / 1000;
      if unixSecs <= nowSecs then None
      else S.SetExpiry(slot, env.now + (unixSecs - nowSecs) * 1000, env.now)
    case Persist(_) => S.Persist(slot, env.now)
    case SetNx(_, value) => S.SetNx(slot, value, env.now)
    case SetEx(_, ttl, value) => S.SetString(value, Some(ttl * 1000), env.now)
    case GetSet(_, value) => S.GetSet(slot, value, env.now)
    case IncrBy(_, delta) => S.IncrBy(slot, delta)
    case DecrBy(_, delta) => S.IncrBy(slot, Wrap64(-delta))
    case IncrByFloat(_, amount) => S.IncrByFloat(slot, amount, env)
    case HMSet(_, pairs) => SetFieldsOrStop(slot, pairs)
    case HSetNx(_, field, value) => S.HSetNx(slot, field, value, env.now)
    case HIncrBy(_, field, delta) => S.HIncrBy(slot, field, delta, env.now)
    case LSet(_, index, value) => S.LSet(slot, index, value, env.now)
    case LRem(_, count, value) => S.LRem(slot, count, value, env.now)
    case LTrim(_, start, stop) => S.LTrim(slot, start, stop, env.now)
    case SPop(_, limit) => S.SPop(slot, if limit.None? then 1 else limit.value, env)
    case ZIncrBy(_, amount, member) => S.ZIncrBy(slot, amount, member, env.now)
    case ZPopMin(_, many) => S.ZPop(slot, many, true, env)
    case ZPopMax(_, many) => S.ZPop(slot, many, false, env)
    case XAdd(_, id, pairs) =>
      if id.Some? && X.ParseId(id.value, false).None? then slot
      else S.XAdd(slot, if id.Some? then X.ParseId(id.value, false) else None, pairs, env)
    case _ => slot
  }

  function Live(cmd: Command, st: Store, env: Env): Store {
    if OneSlot(cmd) then S.Put(st, cmd.key, LiveSlot(cmd, S.At(st, cmd.key), env))
    else if cmd.FlushAll? then map[]
    else if cmd.MSet? then SetAll(st, cmd.pairs)
    else if cmd.RPopLPush? then S.RPopLPush(st, cmd.source, cmd.destination, env.now)
    else if cmd.SMove? then S.SMove(st, cmd.source, cmd.destination, cmd.member, env.now)
    else if cmd.Rename? then S.Rename(st, cmd.key, cmd.newKey, env.now)
    else st
  }

  // ---- Replay and replica apply (`apply_write_command`) ----

  /** What `apply_write_command` makes of the one slot a command edits. */
  function ApplySlot(cmd: Command, slot: Slot, env: Env): Slot {
    match cmd
    case Set(_, value, ttl) => S.SetString(value, Millis(ttl), env.now)
    case Delete(_) => None
    case Incr(_) => S.Step(slot, 1)
    case Decr(_) => S.Step(slot, -1)
    case Append(_, value) => S.Append(slot, value)
    case HSet(_, field, value) => S.HSet(slot, field, value)
    case HDel(_, names) => S.HDel(slot, names)
    case LPush(_, values) => S.LPush(slot, values)
    case RPush(_, values) => S.RPush(slot, values)
    case LPop(_) => S.LPop(slot)
    case RPop(_) => S.RPop(slot)
    case SAdd(_, members) => S.SAdd(slot, members)
    case SRem(_, members) => S.SRem(slot, members)
    case ZAdd(_, scored) => S.ZAdd(slot, scored)
    case ZRem(_, members) => S.ZRem(slot, members)
    case Expire(_, seconds) =>
      if seconds < 0 then slot else S.SetExpiry(slot, env.now + seconds * 1000, env.now)
    case PExpire(_, millis) =>
      if millis < 0 then slot else S.SetExpiry(slot, env.now + millis, env.now)
    case ExpireAt(_, unixSecs) =>
      if unixSecs < 0 then slot
      else
        var nowSecs := env.unixMs / 1000;
        if unixSecs > nowSecs then S.SetExpiry(slot, env.now + (unixSecs - nowSecs) * 1000, env.now)
        else None
    case Persist(_) => S.Persist(slot, env.now)
    case SetNx(_, value) => S.SetNx(slot, value, env.now)
    case SetEx(_, ttl, value) => S.SetString(value, Some(ttl * 1000), env.now)
    case GetSet(_, value) => S.GetSet(slot, value, env.now)
    case IncrBy(_, delta) => S.IncrBy(slot, delta)
    case DecrBy(_, delta) => S.IncrBy(slot, Wrap64(-delta))
    case IncrByFloat(_, amount) => S.IncrByFloat(slot, amount, env)
    case HMSet(_, pairs) => SetFields(slot, pairs)
    case HSetNx(_, field, value) => S.HSetNx(slot, field, value, env.now)
    case HIncrBy(_, field, delta) => S.HIncrBy(slot, field, delta, env.now)
    case LSet(_, index, value) => S.LSet(slot, index, value, env.now)
    case LRem(_, count, value) => S.LRem(slot, count, value, env.now)
    case LTrim(_, start, stop) => S.LTrim(slot, start, stop, env.now)
    case SPop(_, limit) => S.SPop(slot, if limit.None? then 1 else limit.value, env)
    case ZIncrBy(_, amount, member) => S.ZIncrBy(slot, amount, member, env.now)
    case ZPopMin(_, many) => S.ZPop(slot, many, true, env)
    case ZPopMax(_, many) => S.ZPop(slot, many, false, env)
    case XAdd(_, id, pairs) =>
      S.XAdd(slot, if id.Some? then X.ParseId(id.value, false) else None, pairs, env)
    case _ => slot
  }

  function Apply(cmd: Command, st: Store, env: Env): Store {
    if OneSlot(cmd) then S.Put(st, cmd.key, ApplySlot(cmd, S.At(st, cmd.key), env))
    else if cmd.FlushAll? then map[]
    else if cmd.MSet? then SetAll(st, cmd.pairs)
    else if cmd.RPopLPush? then S.RPopLPush(st, cmd.source, cmd.destination, env.now)
    else if cmd.SMove? then S.SMove(st, cmd.source, cmd.destination, cmd.member, env.now)
    else if cmd.Rename? then S.Rename(st, cmd.key, cmd.newKey, env.now)
    else st
  }

  // ---- Agreement ----

  lemma {:induction false} RefusedFieldsChangeNothing(slot: Slot, pairs: seq<(Bytes, Bytes)>)
    requires !TakesFields(slot)
    ensures SetFields(slot, pairs) == slot
  {
    if pairs != [] { RefusedFieldsChangeNothing(slot, pairs[1..]); }
  }

  /** Stopping early and carrying on leave the same hash. */
  lemma {:induction false} FieldLoopsAgree(slot: Slot, pairs: seq<(Bytes, Bytes)>)
    ensures SetFieldsOrStop(slot, pairs) == SetFields(slot, pairs)
    decreases |pairs|
  {
    if !TakesFields(slot) { RefusedFieldsChangeNothing(slot, pairs); }
    else if pairs != [] { FieldLoopsAgree(S.HSet(slot, pairs[0].0, pairs[0].1), pairs[1..]); }
  }

  /** The two kinds of command that replay may treat differently, seen on a store. */
  predicate Drifts(cmd: Command, st: Store) { OneSlot(cmd) && SlotDrifts(cmd, S.At(st, cmd.key)) }

  /** An XADD with a generated id always changes the slot it may write to. */
  lemma AutoIdChangesSlot(slot: Slot, fields: X.Fields, env: Env)
    requires slot.None? || slot.value.Stream?
    ensures S.XAdd(slot, None, fields, env) != slot
  {
    if slot.Some? && !S.Expired(slot.value, env.now) {
      var last := slot.value.log.lastId;
      assert X.AutoId(last, env.unixMs) != last by {
        if env.unixMs <= last.ms && last.sequence == U64_MAX { assert (last.sequence + 1) % (U64_MAX + 1) == 0; }
      }
    }
  }

  /** Where replay edits a slot differently than execution did. */
  predicate SlotDrifts(cmd: Command, slot: Slot) {
    || (cmd.ExpireAt? && cmd.unixSecs < 0 && slot.Some?)
    || (cmd.XAdd? && cmd.id.Some? && X.ParseId(cmd.id.value, false).None? && (slot.None? || slot.value.Stream?))
  }

  lemma SlotsAgree(cmd: Command, slot: Slot, env: Env)
    ensures LiveSlot(cmd, slot, env) == ApplySlot(cmd, slot, env) <==> !SlotDrifts(cmd, slot)
  {
    if cmd.HMSet? { FieldLoopsAgree(slot, cmd.pairs); }
    if cmd.XAdd? && (slot.None? || slot.value.Stream?) { AutoIdChangesSlot(slot, cmd.pairs, env); }
  }

  /** In one environment the live and the replay dispatcher have the same effect
      on a store exactly when the command does not drift on it. */
  lemma DispatchersAgree(cmd: Command, st: Store, env: Env)
    ensures Live(cmd, st, env) == Apply(cmd, st, env) <==> !Drifts(cmd, st)
  {
    if OneSlot(cmd) {
      var slot := S.At(st, cmd.key);
      SlotsAgree(cmd, slot, env);
      SlotsTellStoresApart(st, cmd.key, LiveSlot(cmd, slot, env), ApplySlot(cmd, slot, env));
    }
  }

  lemma SlotsTellStoresApart(st: Store, key: Bytes, a: Slot, b: Slot)
    ensures S.Put(st, key, a) == S.Put(st, key, b) <==> a == b
  {
    assert S.At(S.Put(st, key, a), key) == a && S.At(S.Put(st, key, b), key) == b;
  }
}
