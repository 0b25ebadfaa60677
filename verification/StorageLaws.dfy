/** What the write commands mean to a caller, told by what is under the keys before and
    after, for every store and every environment. */
module StorageLaws {
  import opened Primitives
  import opened Commands
  import opened Effects
  import S = Store
  import Lists
  import Z = SortedSets
  import X = Streams

  /** What is under the command's key afterwards. */
  function After(cmd: Command, st: S.Store, env: S.Env): S.Slot
    requires OneSlot(cmd)
  {
    S.At(Live(cmd, st, env), cmd.key)
  }

  lemma AfterIs(cmd: Command, st: S.Store, env: S.Env)
    requires OneSlot(cmd)
    ensures After(cmd, st, env) == LiveSlot(cmd, S.At(st, cmd.key), env)
  {
    S.PutTwice(st, cmd.key, LiveSlot(cmd, S.At(st, cmd.key), env), None);
  }

  /** The deadline of an entry; an absent one has none. */
  function Deadline(slot: S.Slot): Option<S.Instant> { if slot.None? then None else slot.value.exp }

  predicate IsLive(slot: S.Slot, now: S.Instant) { slot.Some? && !S.Expired(slot.value, now) }

  /** The same value, whatever the deadlines. */
  predicate SameValue(a: S.Slot, b: S.Slot) {
    a.Some? && b.Some? && a.value.(exp := None) == b.value.(exp := None)
  }

  // ---- Strings and counters ----

  predicate IsI64(n: int) { I64_MIN <= n <= I64_MAX }

  predicate Counts(cmd: Command) { cmd.Incr? || cmd.Decr? || cmd.IncrBy? || (cmd.DecrBy? && cmd.delta > I64_MIN) }

  function Delta(cmd: Command): int
    requires Counts(cmd)
  {
    if cmd.Incr? then 1 else if cmd.Decr? then -1 else if cmd.IncrBy? then cmd.delta else -cmd.delta
  }

  /** The number under a key; an absent one counts as zero. */
  function Number(slot: S.Slot): Option<int> {
    if slot.None? then Some(0) else if slot.value.Str? then ParseI64(slot.value.bytes) else None
  }

  /** `after` is `slot` counted on by `delta`, past 64 bits as `wraps` says. */
  ghost predicate CountedOn(slot: S.Slot, delta: int, wraps: bool, after: S.Slot) {
    match Number(slot)
    case None => after == slot
    case Some(n) =>
      var sum := n + delta;
      if !IsI64(sum) && !wraps then after == slot
      else
        && after.Some? && after.value.Str? && Deadline(after) == Deadline(slot)
        && Number(after).Some? && (Number(after).value - sum) % 0x1_0000_0000_0000_0000 == 0
        && (IsI64(sum) ==> Number(after) == Some(sum))
  }

  /** Text that reads as `m` is the slot counted on, if `m` is the sum or its wrapping. */
  lemma CountedText(slot: S.Slot, delta: int, wraps: bool, m: int, text: Bytes)
    requires Number(slot).Some? && ParseI64(text) == Some(m)
    requires (m - (Number(slot).value + delta)) % 0x1_0000_0000_0000_0000 == 0
    requires if IsI64(Number(slot).value + delta) then m == Number(slot).value + delta else wraps
    ensures CountedOn(slot, delta, wraps, Some(S.Str(text, Deadline(slot))))
  {
  }

  lemma StepIs(slot: S.Slot, delta: int)
    requires IsI64(delta)
    ensures S.Step(slot, delta) == match Number(slot)
                                   case None => slot
                                   case Some(n) => Some(S.Str(PrintInt(Wrap64(n + delta)), Deadline(slot)))
  {
  }

  lemma StepCounts(slot: S.Slot, delta: int)
    requires IsI64(delta)
    ensures CountedOn(slot, delta, true, S.Step(slot, delta))
  {
    StepIs(slot, delta);
    if Number(slot).Some? {
      var m := Wrap64(Number(slot).value + delta);
      ParsePrintedI64(m);
      CountedText(slot, delta, true, m, PrintInt(m));
    }
  }

  lemma IncrByIs(slot: S.Slot, delta: int)
    requires IsI64(delta)
    ensures S.IncrBy(slot, delta) == match Number(slot)
                                     case None => slot
                                     case Some(n) =>
                                       if !IsI64(n + delta) then slot
                                       else Some(S.Str(PrintInt(n + delta), Deadline(slot)))
  {
  }

  lemma IncrByCounts(slot: S.Slot, delta: int)
    requires IsI64(delta)
    ensures CountedOn(slot, delta, false, S.IncrBy(slot, delta))
  {
    IncrByIs(slot, delta);
    if Number(slot).Some? && IsI64(Number(slot).value + delta) {
      var m := Number(slot).value + delta;
      ParsePrintedI64(m);
      CountedText(slot, delta, false, m, PrintInt(m));
    }
  }

  lemma SlotCounts(cmd: Command, slot: S.Slot, env: S.Env)
    requires Counts(cmd) && IsI64(Delta(cmd))
    ensures CountedOn(slot, Delta(cmd), cmd.Incr? || cmd.Decr?, LiveSlot(cmd, slot, env))
  {
    if cmd.Incr? || cmd.Decr? { StepCounts(slot, Delta(cmd)); } else { IncrByCounts(slot, Delta(cmd)); }
  }

  /** A counter command adds to the number and keeps the deadline; what is no number stays
      as it is. Past 64 bits INCR and DECR wrap, INCRBY and DECRBY refuse. */
  lemma CountersCount(cmd: Command, st: S.Store, env: S.Env)
    requires Counts(cmd) && IsI64(Delta(cmd))
    ensures CountedOn(S.At(st, cmd.key), Delta(cmd), cmd.Incr? || cmd.Decr?, After(cmd, st, env))
  {
    AfterIs(cmd, st, env);
    SlotCounts(cmd, S.At(st, cmd.key), env);
  }

  function Text(slot: S.Slot): Bytes { if slot.Some? && slot.value.Str? then slot.value.bytes else [] }

  /** INCRBYFLOAT puts the text of the sum in place, none standing for an absent string; what
      is no number stays, and so does the deadline. */
  lemma FloatsAdd(key: Bytes, amount: real, st: S.Store, env: S.Env)
    ensures var slot, after := S.At(st, key), After(IncrByFloat(key, amount), st, env);
            var sum := if slot.None? then env.addFloat(None, amount)
                       else if slot.value.Str? then env.addFloat(Some(slot.value.bytes), amount) else None;
            after == if sum.None? then slot else Some(S.Str(sum.value, Deadline(slot)))
  {
    AfterIs(IncrByFloat(key, amount), st, env);
  }

  /** APPEND puts the bytes behind the text and keeps the deadline; another type stays. */
  lemma AppendExtends(key: Bytes, value: Bytes, st: S.Store, env: S.Env)
    ensures var slot, after := S.At(st, key), After(Command.Append(key, value), st, env);
            if slot.Some? && !slot.value.Str? then after == slot
            else after.Some? && after.value.Str? && |Text(after)| == |Text(slot)| + |value| &&
                 Text(slot) <= Text(after) && Text(after)[|Text(slot)|..] == value && Deadline(after) == Deadline(slot)
  {
  }

  /** SET and SETEX: the value under the key, and until when. */
  lemma SetSets(key: Bytes, value: Bytes, secs: nat, st: S.Store, env: S.Env)
    ensures After(Command.Set(key, value, None), st, env) == Some(S.Str(value, None))
    ensures After(Command.Set(key, value, Some(secs)), st, env) == Some(S.Str(value, Some(env.now + 1000 * secs)))
    ensures After(SetEx(key, secs, value), st, env) == Some(S.Str(value, Some(env.now + 1000 * secs)))
  {
    AfterIs(Command.Set(key, value, None), st, env);
    AfterIs(Command.Set(key, value, Some(secs)), st, env);
    AfterIs(SetEx(key, secs, value), st, env);
  }

  /** An entry with a time to live is live up to its last instant and not a tick longer. */
  lemma LivesUntilItsDeadline(key: Bytes, value: Bytes, secs: nat, st: S.Store, env: S.Env, later: S.Instant)
    ensures IsLive(After(SetEx(key, secs, value), st, env), later) <==> later <= env.now + 1000 * secs
    ensures IsLive(After(Command.Set(key, value, None), st, env), later)
  {
    SetSets(key, value, secs, st, env);
  }

  /** SETNX leaves a live entry alone; GETSET only one of another type. */
  lemma CarefulSetters(key: Bytes, value: Bytes, st: S.Store, env: S.Env)
    ensures After(SetNx(key, value), st, env)
         == if IsLive(S.At(st, key), env.now) then S.At(st, key) else Some(S.Str(value, None))
    ensures var slot := S.At(st, key);
            After(GetSet(key, value), st, env)
              == if IsLive(slot, env.now) && !slot.value.Str? then slot else Some(S.Str(value, None))
  {
    AfterIs(SetNx(key, value), st, env);
    AfterIs(GetSet(key, value), st, env);
  }

  lemma DeleteRemoves(key: Bytes, st: S.Store, env: S.Env)
    ensures Live(Delete(key), st, env) == map k | k in st && k != key :: st[k]
  {
  }

  lemma FlushRemovesAll(st: S.Store, env: S.Env)
    ensures Live(FlushAll, st, env) == map[]
  {
  }

  /** The value that the last pair gives a name. */
  function LastGiven(pairs: seq<(Bytes, Bytes)>, name: Bytes): Option<Bytes> {
    if pairs == [] then None
    else if pairs[|pairs| - 1].0 == name then Some(pairs[|pairs| - 1].1)
    else LastGiven(pairs[..|pairs| - 1], name)
  }

  lemma {:induction false} LastGivenFirst(pairs: seq<(Bytes, Bytes)>, name: Bytes)
    requires pairs != []
    ensures LastGiven(pairs, name)
         == if LastGiven(pairs[1..], name).Some? then LastGiven(pairs[1..], name)
            else if pairs[0].0 == name then Some(pairs[0].1) else None
  {
    var n := |pairs| - 1;
    if n > 0 && pairs[n].0 != name {
      LastGivenFirst(pairs[..n], name);
      assert pairs[..n][1..] == pairs[1..][..n - 1];
    }
  }

  /** MSET: the last value given for a key, without a deadline; other keys as before. */
  lemma {:induction false} MSetSets(pairs: seq<(Bytes, Bytes)>, st: S.Store, env: S.Env, k: Bytes)
    ensures S.At(Live(MSet(pairs), st, env), k)
         == match LastGiven(pairs, k) case None => S.At(st, k) case Some(v) => Some(S.Str(v, None))
    decreases |pairs|
  {
    if pairs != [] {
      LastGivenFirst(pairs, k);
      MSetSets(pairs[1..], S.Put(st, pairs[0].0, S.SetString(pairs[0].1, None, 0)), env, k);
    }
  }

  // ---- Deadlines ----

  /** EXPIRE and PEXPIRE move the deadline of a live entry that many seconds or
      milliseconds from now and leave its value; negative ones and dead entries stay. */
  lemma ExpireMovesDeadline(key: Bytes, n: int, st: S.Store, env: S.Env)
    ensures var slot, after := S.At(st, key), After(Expire(key, n), st, env);
            if n < 0 || !IsLive(slot, env.now) then after == slot
            else SameValue(after, slot) && Deadline(after) == Some(env.now + 1000 * n)
    ensures var slot, after := S.At(st, key), After(PExpire(key, n), st, env);
            if n < 0 || !IsLive(slot, env.now) then after == slot
            else SameValue(after, slot) && Deadline(after) == Some(env.now + n)
  {
  }

  /** EXPIREAT with a time in the past removes the entry; otherwise the deadline lies as
      many whole seconds ahead as the given second is from the present one. */
  lemma ExpireAtMovesDeadline(key: Bytes, second: int, st: S.Store, env: S.Env)
    ensures var slot, after := S.At(st, key), After(ExpireAt(key, second), st, env);
            if 1000 * second <= env.unixMs then after == None
            else if !IsLive(slot, env.now) then after == slot
            else SameValue(after, slot) && Deadline(after).Some? &&
                 (Deadline(after).value - env.now) % 1000 == 0 &&
                 env.unixMs - 1000 < 1000 * second - (Deadline(after).value - env.now) <= env.unixMs
  {
  }

  /** PERSIST takes a live entry's deadline away and leaves its value. */
  lemma PersistTakesDeadline(key: Bytes, st: S.Store, env: S.Env)
    ensures var slot, after := S.At(st, key), After(Persist(key), st, env);
            if !IsLive(slot, env.now) then after == slot else SameValue(after, slot) && Deadline(after) == None
  {
  }

  // ---- Hashes ----

  predicate TakesHash(slot: S.Slot) { slot.None? || slot.value.Hash? }

  function Fields(slot: S.Slot): map<Bytes, Bytes> {
    if slot.Some? && slot.value.Hash? then slot.value.fields else map[]
  }

  /** The fields that a command which looks at deadlines finds. */
  function LiveFields(slot: S.Slot, now: S.Instant): map<Bytes, Bytes> {
    if IsLive(slot, now) then Fields(slot) else map[]
  }

  function LiveDeadline(slot: S.Slot, now: S.Instant): Option<S.Instant> {
    if IsLive(slot, now) then slot.value.exp else None
  }

  ghost predicate IsHash(slot: S.Slot, fields: map<Bytes, Bytes>, exp: Option<S.Instant>) {
    slot.Some? && slot.value.Hash? && slot.value.fields == fields && slot.value.exp == exp
  }

  /** HSET sets one field, HDEL takes just the named ones away; another type stays. */
  lemma HashEdits(key: Bytes, field: Bytes, value: Bytes, names: seq<Bytes>, st: S.Store, env: S.Env)
    ensures var slot, after := S.At(st, key), After(HSet(key, field, value), st, env);
            if TakesHash(slot) then IsHash(after, Fields(slot)[field := value], Deadline(slot)) else after == slot
    ensures var slot, after := S.At(st, key), After(HDel(key, names), st, env);
            if slot.Some? && slot.value.Hash?
            then IsHash(after, map f | f in Fields(slot) && f !in names :: Fields(slot)[f], Deadline(slot))
            else after == slot
  {
  }

  /** HSETNX sets a field that a live hash lacks; an expired hash is begun anew. */
  lemma HSetNxSetsAbsent(key: Bytes, field: Bytes, value: Bytes, st: S.Store, env: S.Env)
    ensures var slot, after := S.At(st, key), After(HSetNx(key, field, value), st, env);
            var fields := LiveFields(slot, env.now);
            if !TakesHash(slot) || field in fields then after == slot
            else IsHash(after, fields[field := value], LiveDeadline(slot, env.now))
  {
  }

  ghost predicate FieldCountedOn(slot: S.Slot, field: Bytes, delta: int, now: S.Instant, after: S.Slot) {
    var fields := LiveFields(slot, now);
    var n := if field in fields then ParseI64(fields[field]) else Some(0);
    if !TakesHash(slot) || n.None? || !IsI64(n.value + delta) then after == slot
    else
      && after.Some? && after.value.Hash? && Deadline(after) == LiveDeadline(slot, now)
      && field in Fields(after) && ParseI64(Fields(after)[field]) == Some(n.value + delta)
      && Fields(after) - {field} == fields - {field}
  }

  lemma FieldText(slot: S.Slot, field: Bytes, delta: int, now: S.Instant, m: int, text: Bytes)
    requires TakesHash(slot) && ParseI64(text) == Some(m) && IsI64(m)
    requires var fields := LiveFields(slot, now);
             (if field in fields then ParseI64(fields[field]) else Some(0)) == Some(m - delta)
    ensures FieldCountedOn(slot, field, delta, now,
                           Some(S.Hash(LiveFields(slot, now)[field := text], LiveDeadline(slot, now))))
  {
  }

  lemma HIncrByIs(slot: S.Slot, field: Bytes, delta: int, now: S.Instant)
    requires IsI64(delta)
    ensures var fields := LiveFields(slot, now);
            var n := if field in fields then ParseI64(fields[field]) else Some(0);
            S.HIncrBy(slot, field, delta, now) ==
              if !TakesHash(slot) || n.None? || !IsI64(n.value + delta) then slot
              else Some(S.Hash(fields[field := PrintInt(n.value + delta)], LiveDeadline(slot, now)))
  {
  }

  lemma FieldCounts(slot: S.Slot, field: Bytes, delta: int, now: S.Instant)
    requires IsI64(delta)
    ensures FieldCountedOn(slot, field, delta, now, S.HIncrBy(slot, field, delta, now))
  {
    var fields := LiveFields(slot, now);
    var n := if field in fields then ParseI64(fields[field]) else Some(0);
    HIncrByIs(slot, field, delta, now);
    if TakesHash(slot) && n.Some? && IsI64(n.value + delta) {
      var m := n.value + delta;
      ParsePrintedI64(m);
      FieldText(slot, field, delta, now, m, PrintInt(m));
    }
  }

  lemma HIncrByAfter(key: Bytes, field: Bytes, delta: int, st: S.Store, env: S.Env)
    requires IsI64(delta)
    ensures After(HIncrBy(key, field, delta), st, env) == S.HIncrBy(S.At(st, key), field, delta, env.now)
  {
    AfterIs(HIncrBy(key, field, delta), st, env);
  }

  /** HINCRBY adds to the number in a field, an absent one counting as zero; what is no
      number, or would leave 64 bits, stays. An expired hash is begun anew. */
  lemma HIncrByCounts(key: Bytes, field: Bytes, delta: int, st: S.Store, env: S.Env, after: S.Slot)
    requires IsI64(delta) && after == After(HIncrBy(key, field, delta), st, env)
    ensures FieldCountedOn(S.At(st, key), field, delta, env.now, after)
  {
    HIncrByAfter(key, field, delta, st, env);
    FieldCounts(S.At(st, key), field, delta, env.now);
  }

  lemma {:induction false} SetFieldsSets(slot: S.Slot, pairs: seq<(Bytes, Bytes)>, f: Bytes)
    requires TakesHash(slot) && pairs != []
    ensures var after := SetFields(slot, pairs);
            && after.Some? && after.value.Hash? && Deadline(after) == Deadline(slot)
            && (match LastGiven(pairs, f)
                case None => (f in Fields(after) <==> f in Fields(slot)) &&
                             (f in Fields(slot) ==> Fields(after)[f] == Fields(slot)[f])
                case Some(v) => f in Fields(after) && Fields(after)[f] == v)
    decreases |pairs|
  {
    LastGivenFirst(pairs, f);
    if |pairs| > 1 { SetFieldsSets(S.HSet(slot, pairs[0].0, pairs[0].1), pairs[1..], f); }
  }

  /** HMSET: the last value given for a field, other fields as before. */
  lemma HMSetSets(key: Bytes, pairs: seq<(Bytes, Bytes)>, st: S.Store, env: S.Env, f: Bytes)
    requires TakesHash(S.At(st, key)) && pairs != []
    ensures var slot, after := S.At(st, key), After(HMSet(key, pairs), st, env);
            && after.Some? && after.value.Hash? && Deadline(after) == Deadline(slot)
            && (match LastGiven(pairs, f)
                case None => (f in Fields(after) <==> f in Fields(slot)) &&
                             (f in Fields(slot) ==> Fields(after)[f] == Fields(slot)[f])
                case Some(v) => f in Fields(after) && Fields(after)[f] == v)
  {
    FieldLoopsAgree(S.At(st, key), pairs);
    SetFieldsSets(S.At(st, key), pairs, f);
    S.PutTwice(st, key, SetFields(S.At(st, key), pairs), None);
  }

  // ---- Lists ----

  predicate TakesList(slot: S.Slot) { slot.None? || slot.value.List? }

  function Items(slot: S.Slot): seq<Bytes> { if slot.Some? && slot.value.List? then slot.value.items else [] }

  predicate IsList(slot: S.Slot, items: seq<Bytes>, exp: Option<S.Instant>) { slot == Some(S.List(items, exp)) }

  /** LPUSH of one value puts it in front, RPUSH behind; another type stays. */
  lemma PushOne(key: Bytes, v: Bytes, st: S.Store, env: S.Env)
    ensures var slot := S.At(st, key);
            if TakesList(slot) then
              && IsList(After(LPush(key, [v]), st, env), [v] + Items(slot), Deadline(slot))
              && IsList(After(RPush(key, [v]), st, env), Items(slot) + [v], Deadline(slot))
            else After(LPush(key, [v]), st, env) == slot == After(RPush(key, [v]), st, env)
  {
    AfterIs(LPush(key, [v]), st, env);
    AfterIs(RPush(key, [v]), st, env);
    assert Lists.Reverse([v]) == [v];
    assert [v] + [] == [v] == [] + [v];
  }

  lemma PushSlots(slot: S.Slot, v: Bytes, more: seq<Bytes>)
    ensures S.LPush(slot, [v] + more) == S.LPush(S.LPush(slot, [v]), more)
    ensures S.RPush(slot, [v] + more) == S.RPush(S.RPush(slot, [v]), more)
  {
    assert Lists.Reverse([v]) == [v];
    Lists.ReverseJoin([v], more);
    if slot.Some? && slot.value.List? {
      Assoc(Lists.Reverse(more), [v], slot.value.items);
      Assoc(slot.value.items, [v], more);
    }
  }

  /** Several values are pushed one after the other. */
  lemma PushesPush(key: Bytes, v: Bytes, more: seq<Bytes>, st: S.Store, env: S.Env)
    ensures Live(LPush(key, [v] + more), st, env) == Live(LPush(key, more), Live(LPush(key, [v]), st, env), env)
    ensures Live(RPush(key, [v] + more), st, env) == Live(RPush(key, more), Live(RPush(key, [v]), st, env), env)
  {
    PushSlots(S.At(st, key), v, more);
    TwoInARow(LPush(key, [v]), LPush(key, more), LPush(key, [v] + more), st, env);
    TwoInARow(RPush(key, [v]), RPush(key, more), RPush(key, [v] + more), st, env);
  }

  lemma TwoInARow(a: Command, b: Command, ab: Command, st: S.Store, env: S.Env)
    requires OneSlot(a) && OneSlot(b) && OneSlot(ab) && a.key == b.key == ab.key
    requires LiveSlot(b, LiveSlot(a, S.At(st, a.key), env), env) == LiveSlot(ab, S.At(st, a.key), env)
    ensures Live(b, Live(a, st, env), env) == Live(ab, st, env)
  {
    S.PutTwice(st, a.key, LiveSlot(a, S.At(st, a.key), env), LiveSlot(ab, S.At(st, a.key), env));
  }

  lemma PopSlots(slot: S.Slot, v: Bytes)
    requires slot.Some? && slot.value.List?
    ensures S.LPop(S.LPush(slot, [v])) == slot && S.RPop(S.RPush(slot, [v])) == slot
  {
    var items := slot.value.items;
    assert Lists.Reverse([v]) == [v];
    assert ([v] + items)[1..] == items && (items + [v])[..|items|] == items;
  }

  /** LPOP takes what LPUSH put in front, RPOP what RPUSH put behind; nothing else moves. */
  lemma PopsUndoPushes(key: Bytes, v: Bytes, st: S.Store, env: S.Env)
    requires S.At(st, key).Some? && S.At(st, key).value.List?
    ensures Live(LPop(key), Live(LPush(key, [v]), st, env), env) == st
    ensures Live(RPop(key), Live(RPush(key, [v]), st, env), env) == st
  {
    var slot := S.At(st, key);
    PopSlots(slot, v);
    S.PutTwice(st, key, S.LPush(slot, [v]), slot);
    S.PutTwice(st, key, S.RPush(slot, [v]), slot);
    S.PutBack(st, key);
  }

  /** A pop from a list that holds something leaves it one shorter, from the one end or the
      other; from anything else it takes nothing. */
  lemma PopsTakeOne(key: Bytes, st: S.Store, env: S.Env)
    ensures var slot := S.At(st, key);
            if Items(slot) == [] then Live(LPop(key), st, env) == st == Live(RPop(key), st, env)
            else
              && [Items(slot)[0]] + Items(After(LPop(key), st, env)) == Items(slot)
              && Items(After(RPop(key), st, env)) + [Items(slot)[|Items(slot)| - 1]] == Items(slot)
              && Deadline(After(LPop(key), st, env)) == Deadline(slot) == Deadline(After(RPop(key), st, env))
  {
    S.PutBack(st, key);
  }

  /** LSET replaces one element of a live list, counted from the front or, below zero, from
      the back; outside the list it does nothing. */
  lemma LSetReplaces(key: Bytes, index: int, v: Bytes, st: S.Store, env: S.Env)
    ensures var slot, after := S.At(st, key), After(LSet(key, index, v), st, env);
            var n := |Items(slot)|;
            if !IsLive(slot, env.now) || !slot.value.List? || !(-n <= index < n) then after == slot
            else
              && after.Some? && after.value.List? && Deadline(after) == Deadline(slot) && |Items(after)| == n
              && forall i | 0 <= i < n ::
                   Items(after)[i] == if i == index || i == n + index then v else Items(slot)[i]
  {
  }

  /** LREM and LTRIM work on the items of a live list and keep its deadline. */
  lemma ListSweeps(key: Bytes, count: int, v: Bytes, start: int, stop: int, st: S.Store, env: S.Env)
    ensures var slot := S.At(st, key);
            if IsLive(slot, env.now) && slot.value.List? then
              && IsList(After(LRem(key, count, v), st, env), Lists.Rem(Items(slot), count, v), Deadline(slot))
              && IsList(After(LTrim(key, start, stop), st, env), Lists.Trim(Items(slot), start, stop), Deadline(slot))
            else After(LRem(key, count, v), st, env) == slot == After(LTrim(key, start, stop), st, env)
  {
    AfterIs(LRem(key, count, v), st, env);
    AfterIs(LTrim(key, start, stop), st, env);
  }

  /** The list a pushing command finds: an expired one counts as absent. */
  function LiveItems(slot: S.Slot, now: S.Instant): seq<Bytes> { if IsLive(slot, now) then Items(slot) else [] }

  /** RPOPLPUSH between two keys moves the last element of the source to the front of the
      destination: source items followed by destination items read the same before and
      after. A missing or expired destination is begun anew; one of another type stays,
      and the element is lost. */
  lemma RPopLPushMoves(source: Bytes, destination: Bytes, st: S.Store, env: S.Env)
    requires source != destination
    ensures var after := Live(RPopLPush(source, destination), st, env);
            var from, to, now := S.At(st, source), S.At(st, destination), env.now;
            var from', to' := S.At(after, source), S.At(after, destination);
            if LiveItems(from, now) == [] then after == st
            else
              && from'.Some? && from'.value.List? && Deadline(from') == Deadline(from)
              && |Items(from')| == |Items(from)| - 1
              && (if TakesList(to)
                  then && to'.Some? && to'.value.List? && Deadline(to') == LiveDeadline(to, now)
                       && |Items(to')| == |LiveItems(to, now)| + 1
                       && Items(from') + Items(to') == Items(from) + LiveItems(to, now)
                  else to' == to && Items(from') + [Items(from)[|Items(from)| - 1]] == Items(from))
  {
    var from, to := S.At(st, source), S.At(st, destination);
    if LiveItems(from, env.now) != [] {
      var n := |Items(from)| - 1;
      var x := Items(from)[n];
      assert Items(from) == Items(from)[..n] + [x];
      Assoc(Items(from)[..n], [x], LiveItems(to, env.now));
      assert [x] + [] == [x];
      S.PutTwice(st, source, Some(S.List(Items(from)[..n], Deadline(from))), None);
    }
  }

  /** RPOPLPUSH of a list to itself rotates it by one. */
  lemma RPopLPushRotates(key: Bytes, st: S.Store, env: S.Env)
    ensures var slot, after := S.At(st, key), Live(RPopLPush(key, key), st, env);
            if LiveItems(slot, env.now) == [] then after == st
            else
              && Deadline(S.At(after, key)) == Deadline(slot) && |Items(S.At(after, key))| == |Items(slot)|
              && [Items(slot)[|Items(slot)| - 1]] + Items(slot) ==
                 Items(S.At(after, key)) + [Items(slot)[|Items(slot)| - 1]]
  {
    var slot := S.At(st, key);
    if LiveItems(slot, env.now) != [] {
      var n := |Items(slot)| - 1;
      var popped := Some(S.List(Items(slot)[..n], Deadline(slot)));
      S.PutTwice(st, key, popped, S.PushFront(popped, Items(slot)[n], env.now));
    }
  }

  // ---- Sets ----

  predicate TakesSet(slot: S.Slot) { slot.None? || slot.value.Set? }

  function Members(slot: S.Slot): set<Bytes> { if slot.Some? && slot.value.Set? then slot.value.members else {} }

  function LiveMembers(slot: S.Slot, now: S.Instant): set<Bytes> { if IsLive(slot, now) then Members(slot) else {} }

  /** SADD and SREM: who is in the set afterwards. */
  lemma SetEdits(key: Bytes, ms: seq<Bytes>, st: S.Store, env: S.Env)
    ensures var slot, after := S.At(st, key), After(SAdd(key, ms), st, env);
            if !TakesSet(slot) then after == slot
            else after.Some? && after.value.Set? && Deadline(after) == Deadline(slot) &&
                 forall m :: m in Members(after) <==> m in Members(slot) || m in ms
    ensures var slot, after := S.At(st, key), After(SRem(key, ms), st, env);
            if slot.None? || !slot.value.Set? then after == slot
            else after.Some? && after.value.Set? && Deadline(after) == Deadline(slot) &&
                 forall m :: m in Members(after) <==> m in Members(slot) && m !in ms
  {
  }

  /** SPOP takes as many members as asked for or as there are, and no one else. */
  lemma SPopTakes(key: Bytes, limit: Option<nat>, st: S.Store, env: S.Env)
    requires S.Sane(env)
    ensures var slot, after := S.At(st, key), After(SPop(key, limit), st, env);
            var n := if limit.None? then 1 else limit.value;
            if !IsLive(slot, env.now) || !slot.value.Set? then after == slot
            else && after.Some? && after.value.Set? && Deadline(after) == Deadline(slot)
                 && Members(after) <= Members(slot)
                 && |Members(after)| == if n <= |Members(slot)| then |Members(slot)| - n else 0
  {
    var slot := S.At(st, key);
    AfterIs(SPop(key, limit), st, env);
    if IsLive(slot, env.now) && slot.value.Set? {
      var n := if limit.None? then 1 else limit.value;
      var taken := env.sample(slot.value.members, n);
      assert S.Samples(env.sample);
      assert slot.value.members == (slot.value.members - taken) + taken;
    }
  }

  /** SMOVE between two keys: the member leaves the one and joins the other, and the two
      sets together hold who they held; one that is not in the source moves nothing. */
  lemma SMoveMoves(source: Bytes, destination: Bytes, m: Bytes, st: S.Store, env: S.Env)
    requires source != destination
    ensures var after, now := Live(SMove(source, destination, m), st, env), env.now;
            var from, to := S.At(st, source), S.At(st, destination);
            var from', to' := S.At(after, source), S.At(after, destination);
            if m !in LiveMembers(from, now) then after == st
            else
              && from'.Some? && from'.value.Set? && Deadline(from') == Deadline(from)
              && m !in Members(from') && Members(from') + {m} == Members(from)
              && (if TakesSet(to)
                  then && to'.Some? && to'.value.Set? && Deadline(to') == LiveDeadline(to, now) && m in Members(to')
                       && Members(from') + Members(to') == Members(from) + LiveMembers(to, now)
                  else to' == to)
  {
    var from := S.At(st, source);
    if m in LiveMembers(from, env.now) {
      S.PutTwice(st, source, Some(S.Set(Members(from) - {m}, Deadline(from))), None);
    }
  }

  // ---- Sorted sets ----

  function Scores(slot: S.Slot): map<Bytes, Z.Score> {
    if slot.Some? && slot.value.SortedSet? then slot.value.z.scores else map[]
  }

  function LastScore(scored: seq<(real, Bytes)>, m: Bytes): Option<Z.Score> {
    if scored == [] then None
    else if scored[|scored| - 1].1 == m then Some(scored[|scored| - 1].0)
    else LastScore(scored[..|scored| - 1], m)
  }

  lemma {:induction false} LastScoreFirst(scored: seq<(real, Bytes)>, m: Bytes)
    requires scored != []
    ensures LastScore(scored, m)
         == if LastScore(scored[1..], m).Some? then LastScore(scored[1..], m)
            else if scored[0].1 == m then Some(scored[0].0) else None
  {
    var n := |scored| - 1;
    if n > 0 && scored[n].1 != m {
      LastScoreFirst(scored[..n], m);
      assert scored[..n][1..] == scored[1..][..n - 1];
    }
  }

  /** `m` has the score `given`, or if there is none the one it had. */
  ghost predicate Scored(scores: map<Bytes, Z.Score>, m: Bytes, given: Option<Z.Score>, before: map<Bytes, Z.Score>) {
    if given.Some? then m in scores && scores[m] == given.value
    else (m in scores <==> m in before) && (m in before ==> scores[m] == before[m])
  }

  lemma {:induction false} AddAllScores(z: Z.ZIndex, scored: seq<(real, Bytes)>, m: Bytes)
    requires Z.Valid(z)
    ensures Scored(S.AddAll(z, scored).scores, m, LastScore(scored, m), z.scores)
    decreases |scored|
  {
    if scored != [] {
      Z.AddKeepsIndexes(z, scored[0].0, scored[0].1);
      LastScoreFirst(scored, m);
      AddAllScores(Z.Add(z, scored[0].0, scored[0].1), scored[1..], m);
    }
  }

  lemma {:induction false} RemoveAllScores(z: Z.ZIndex, ms: seq<Bytes>, m: Bytes)
    requires Z.Valid(z)
    ensures var after := S.RemoveAll(z, ms).scores;
            (m in after <==> m in z.scores && m !in ms) && (m in after ==> after[m] == z.scores[m])
    decreases |ms|
  {
    if ms != [] {
      Z.RemoveKeepsIndexes(z, ms[0]);
      RemoveAllScores(Z.Remove(z, ms[0]), ms[1..], m);
    }
  }

  predicate TakesScores(slot: S.Slot) { slot.None? || slot.value.SortedSet? }

  /** ZADD gives each named member the last score named for it, ZREM takes members away;
      everybody else keeps theirs. */
  lemma ScoreEdits(key: Bytes, scored: seq<(real, Bytes)>, ms: seq<Bytes>, m: Bytes, st: S.Store, env: S.Env)
    requires S.Good(st) && TakesScores(S.At(st, key))
    ensures var slot, after := S.At(st, key), After(ZAdd(key, scored), st, env);
            && after.Some? && after.value.SortedSet? && Deadline(after) == Deadline(slot)
            && Scored(Scores(after), m, LastScore(scored, m), Scores(slot))
    ensures var slot, after := S.At(st, key), After(ZRem(key, ms), st, env);
            && Deadline(after) == Deadline(slot) && (m in Scores(after) <==> m in Scores(slot) && m !in ms)
            && (m in Scores(after) ==> Scores(after)[m] == Scores(slot)[m])
  {
    var slot := S.At(st, key);
    var z := if slot.Some? then slot.value.z else Z.EMPTY;
    AfterIs(ZAdd(key, scored), st, env);
    AfterIs(ZRem(key, ms), st, env);
    AddAllScores(z, scored, m);
    RemoveAllScores(z, ms, m);
  }

  lemma ZIncrBySlot(slot: S.Slot, amount: real, m: Bytes, now: S.Instant)
    requires S.GoodSlot(slot) && TakesScores(slot)
    ensures var after := S.ZIncrBy(slot, amount, m, now);
            var before := if IsLive(slot, now) then Scores(slot) else map[];
            && after.Some? && after.value.SortedSet? && Deadline(after) == LiveDeadline(slot, now)
            && Scores(after) == before[m := (if m in before then before[m] else 0.0) + amount]
  {
    Z.AddKeepsIndexes(Z.EMPTY, amount, m);
    if slot.Some? {
      var z := slot.value.z;
      Z.AddKeepsIndexes(z, (if m in z.scores then z.scores[m] else 0.0) + amount, m);
    }
    assert map[][m := 0.0 + amount] == map[m := amount];
  }

  /** ZINCRBY adds to one member's score, zero for a new one, and touches no other; an
      expired sorted set is begun anew. */
  lemma ZIncrByAdds(key: Bytes, amount: real, m: Bytes, st: S.Store, env: S.Env)
    requires S.Good(st) && TakesScores(S.At(st, key))
    ensures var slot, after := S.At(st, key), After(ZIncrBy(key, amount, m), st, env);
            var before := if IsLive(slot, env.now) then Scores(slot) else map[];
            && after.Some? && after.value.SortedSet? && Deadline(after) == LiveDeadline(slot, env.now)
            && Scores(after) == before[m := (if m in before then before[m] else 0.0) + amount]
  {
    AfterIs(ZIncrBy(key, amount, m), st, env);
    ZIncrBySlot(S.At(st, key), amount, m, env.now);
  }

  /** `after` is `slot` less `many` members from the one end: whoever stays lies on the far
      side of whoever went. */
  ghost predicate PoppedFrom(slot: S.Slot, many: nat, lowest: bool, after: S.Slot) {
    && Deadline(after) == Deadline(slot)
    && |Scores(after)| == (if many <= |Scores(slot)| then |Scores(slot)| - many else 0)
    && (forall m | m in Scores(after) :: m in Scores(slot) && Scores(after)[m] == Scores(slot)[m])
    && (forall m, x | m in Scores(after) && x in Scores(slot) && x !in Scores(after) ::
          if lowest then Scores(slot)[x] <= Scores(after)[m] else Scores(after)[m] <= Scores(slot)[x])
  }

  lemma ZPopSlot(slot: S.Slot, many: nat, lowest: bool, env: S.Env)
    requires S.GoodSlot(slot) && S.Sane(env) && IsLive(slot, env.now) && slot.value.SortedSet?
    ensures PoppedFrom(slot, many, lowest, S.ZPop(slot, many, lowest, env))
  {
    var z := slot.value.z;
    var p := Z.Pop(z, many, env.order, lowest);
    Z.PopTakesExtremes(z, many, env.order, lowest);
    OutCount(z, p.out);
    forall m, x | m in p.left.scores && x in z.scores && x !in p.left.scores
      ensures if lowest then z.scores[x] <= p.left.scores[m] else p.left.scores[m] <= z.scores[x]
    {
      PoppedAway(z, p, lowest, x, m);
    }
  }

  function ZPopOf(key: Bytes, many: nat, lowest: bool): Command {
    if lowest then ZPopMin(key, many) else ZPopMax(key, many)
  }

  lemma ZPopAfter(key: Bytes, many: nat, lowest: bool, st: S.Store, env: S.Env)
    ensures After(ZPopOf(key, many, lowest), st, env) == S.ZPop(S.At(st, key), many, lowest, env)
  {
    AfterIs(ZPopOf(key, many, lowest), st, env);
  }

  /** ZPOPMIN and ZPOPMAX take the asked number of members, or all, from the one end of a
      live sorted set. */
  lemma ZPopsTakeExtremes(key: Bytes, many: nat, lowest: bool, st: S.Store, env: S.Env, after: S.Slot)
    requires S.GoodSlot(S.At(st, key)) && S.Sane(env)
    requires IsLive(S.At(st, key), env.now) && S.At(st, key).value.SortedSet?
    requires after == After(ZPopOf(key, many, lowest), st, env)
    ensures PoppedFrom(S.At(st, key), many, lowest, after)
  {
    ZPopAfter(key, many, lowest, st, env);
    ZPopSlot(S.At(st, key), many, lowest, env);
  }

  lemma PoppedAway(z: Z.ZIndex, p: Z.Popped, lowest: bool, gone: Bytes, kept: Bytes)
    requires Z.TakesExtremes(z, p.out, p.left, lowest)
    requires gone in z.scores && gone !in p.left.scores && kept in p.left.scores
    ensures Z.NotAfter(z.scores[gone], p.left.scores[kept], lowest)
  {
    var i :| 0 <= i < |p.out| && p.out[i].0 == gone;
    assert Z.NotAfter(p.out[i].1, p.left.scores[kept], lowest);
  }

  lemma {:induction false} OutCount(z: Z.ZIndex, out: seq<(Bytes, Z.Score)>)
    requires forall i | 0 <= i < |out| :: out[i].0 in z.scores
    requires forall i, j | 0 <= i < j < |out| :: out[i].0 != out[j].0
    ensures |z.scores - Z.Members(out)| == |z.scores| - |out|
    decreases |out|
  {
    if out == [] {
      assert Z.Members(out) == {};
    } else {
      var n := |out| - 1;
      var init, x := out[..n], out[n].0;
      OutCount(z, init);
      assert x !in Z.Members(init);
      assert Z.Members(out) == Z.Members(init) + {x} by { OutLast(out); }
      assert z.scores - Z.Members(out) == (z.scores - Z.Members(init)) - {x};
    }
  }

  lemma OutLast(out: seq<(Bytes, Z.Score)>)
    requires out != []
    ensures Z.Members(out) == Z.Members(out[..|out| - 1]) + {out[|out| - 1].0}
  {
    var init, n := out[..|out| - 1], |out| - 1;
    forall m | m in Z.Members(out) ensures m in Z.Members(init) + {out[n].0} {
      var i :| 0 <= i < |out| && out[i].0 == m;
      if i < n { assert init[i].0 == m; }
    }
    forall m | m in Z.Members(init) + {out[n].0} ensures m in Z.Members(out) {
      if m in Z.Members(init) { var i :| 0 <= i < |init| && init[i].0 == m; assert out[i].0 == m; }
    }
  }

  // ---- Keys and streams ----

  /** RENAME carries a live value and its deadline to the new key, which forgets what it
      had; the old key is empty afterwards, and so it is for an expired value, which is lost. */
  lemma RenameCarries(key: Bytes, newKey: Bytes, st: S.Store, env: S.Env)
    ensures var slot, after := S.At(st, key), Live(Rename(key, newKey), st, env);
            if slot.None? then after == st
            else if IsLive(slot, env.now) then
              S.At(after, newKey) == slot && (newKey != key ==> S.At(after, key) == None)
            else after == Live(Delete(key), st, env)
  {
  }

  function Log(slot: S.Slot): X.Log { if slot.Some? && slot.value.Stream? then slot.value.log else X.EMPTY }

  function LiveLog(slot: S.Slot, now: S.Instant): X.Log { if IsLive(slot, now) then Log(slot) else X.EMPTY }

  lemma XAddSlot(slot: S.Slot, id: X.StreamId, fields: seq<(Bytes, Bytes)>, env: S.Env)
    requires S.GoodSlot(slot) && X.IsU64(id) && (slot.Some? ==> slot.value.Stream?)
    ensures var log := LiveLog(slot, env.now);
            S.XAdd(slot, Some(id), fields, env) ==
              if X.AtMost(id, log.lastId) then slot
              else Some(S.Stream(X.Log(log.entries + [X.Entry(id, fields)], id), LiveDeadline(slot, env.now)))
  {
    X.AddAppends(LiveLog(slot, env.now), Some(id), fields, env.unixMs);
  }

  /** XADD of an id that parses: refused unless it is above the last id of the live stream;
      otherwise one entry with these fields goes to the end under that id. */
  lemma XAddAppends(key: Bytes, text: Bytes, id: X.StreamId, fields: seq<(Bytes, Bytes)>, st: S.Store, env: S.Env)
    requires S.Good(st) && (S.At(st, key).Some? ==> S.At(st, key).value.Stream?)
    requires X.ParseId(text, false) == Some(id)
    ensures var slot, after := S.At(st, key), After(Command.XAdd(key, Some(text), fields), st, env);
            var log := LiveLog(slot, env.now);
            if X.AtMost(id, log.lastId) then after == slot
            else after == Some(S.Stream(X.Log(log.entries + [X.Entry(id, fields)], id), LiveDeadline(slot, env.now)))
  {
    AfterIs(Command.XAdd(key, Some(text), fields), st, env);
    XAddSlot(S.At(st, key), id, fields, env);
  }

  /** XADD *: the entry goes to the end under the least id above the last that is not
      before the clock. */
  lemma XAddGenerates(key: Bytes, fields: seq<(Bytes, Bytes)>, st: S.Store, env: S.Env, other: X.StreamId)
    requires S.Good(st) && S.Sane(env) && (S.At(st, key).Some? ==> S.At(st, key).value.Stream?)
    requires !X.Wraps(LiveLog(S.At(st, key), env.now), None, env.unixMs)
    ensures var slot, after := S.At(st, key), After(Command.XAdd(key, None, fields), st, env);
            var log := LiveLog(slot, env.now);
            && after.Some? && after.value.Stream? && Deadline(after) == LiveDeadline(slot, env.now)
            && Log(after).entries == log.entries + [X.Entry(Log(after).lastId, fields)]
            && X.Less(log.lastId, Log(after).lastId) && env.unixMs <= Log(after).lastId.ms
            && (X.IsU64(other) && X.Less(log.lastId, other) && env.unixMs <= other.ms ==>
                  X.AtMost(Log(after).lastId, other))
  {
    var log := LiveLog(S.At(st, key), env.now);
    AfterIs(Command.XAdd(key, None, fields), st, env);
    X.AddAppends(log, None, fields, env.unixMs);
    X.GeneratedIdIsLeast(log, fields, env.unixMs, other);
  }
}
