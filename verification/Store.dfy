/** Cached values and the storage operations behind the write commands
    (storage.rs), as functions of the slot a key occupies. Reading the clock,
    hash order, random choice and float text are the environment's. */
module Store {
  import opened Primitives
  import Lists
  import Z = SortedSets
  import X = Streams

  type Instant = nat // milliseconds

  datatype CacheValue =
    | Str(bytes: Bytes, exp: Option<Instant>)
    | Hash(fields: map<Bytes, Bytes>, exp: Option<Instant>)
    | List(items: seq<Bytes>, exp: Option<Instant>)
    | Set(members: set<Bytes>, exp: Option<Instant>)
    | SortedSet(z: Z.ZIndex, exp: Option<Instant>)
    | Stream(log: X.Log, exp: Option<Instant>)

  type Slot = Option<CacheValue>
  type Store = map<Bytes, CacheValue>

  /** What an operation takes from outside the store. */
  datatype Env = Env(
    now: Instant,
    unixMs: nat,
    order: set<Bytes> -> seq<Bytes>,
    sample: (set<Bytes>, nat) -> set<Bytes>,
    addFloat: (Option<Bytes>, real) -> Option<Bytes>)

  ghost predicate Sane(env: Env) {
    Z.Iterates(env.order) && Samples(env.sample) && env.unixMs <= U64_MAX
  }

  /** A random choice is of members, and of as many as asked for or available. */
  ghost predicate Samples(sample: (set<Bytes>, nat) -> set<Bytes>) {
    forall s, n: nat {:trigger sample(s, n)} :: sample(s, n) <= s && |sample(s, n)| == if n <= |s| then n else |s|
  }

  predicate Expired(v: CacheValue, now: Instant) {
    v.exp.Some? && now > v.exp.value
  }

  function At(st: Store, key: Bytes): Slot {
    if key in st then Some(st[key]) else None
  }

  function Put(st: Store, key: Bytes, slot: Slot): Store {
    match slot case None => st - {key} case Some(v) => st[key := v]
  }

  lemma PutTwice(st: Store, key: Bytes, a: Slot, b: Slot)
    ensures Put(Put(st, key, a), key, b) == Put(st, key, b) && At(Put(st, key, a), key) == a
  {
  }

  lemma PutBack(st: Store, key: Bytes)
    ensures Put(st, key, At(st, key)) == st
  {
  }

  // ---- Strings ----

  function SetString(value: Bytes, ttlMs: Option<nat>, now: Instant): Slot {
    Some(Str(value, match ttlMs case None => None case Some(ms) => Some(now + ms)))
  }

  /** INCR and DECR: a plain 64-bit sum, wrapping as in a release build. */
  function Step(slot: Slot, delta: int): Slot {
    match slot
    case Some(Str(bytes, exp)) =>
      (match ParseI64(bytes)
       case None => slot
       case Some(n) => Some(Str(PrintInt(Wrap64(n + delta)), exp)))
    case Some(_) => slot
    case None => Some(Str(PrintInt(delta), None))
  }

  /** INCRBY and DECRBY: overflow is an error. */
  function IncrBy(slot: Slot, delta: int): Slot {
    match slot
    case Some(Str(bytes, exp)) =>
      (match ParseI64(bytes)
       case None => slot
       case Some(n) => if I64_MIN <= n + delta <= I64_MAX then Some(Str(PrintInt(n + delta), exp)) else slot)
    case Some(_) => slot
    case None => Some(Str(PrintInt(delta), None))
  }

  function IncrByFloat(slot: Slot, delta: real, env: Env): Slot {
    match slot
    case Some(Str(bytes, exp)) =>
      (match env.addFloat(Some(bytes), delta) case None => slot case Some(text) => Some(Str(text, exp)))
    case Some(_) => slot
    case None => (match env.addFloat(None, delta) case None => slot case Some(text) => Some(Str(text, None)))
  }

  function Append(slot: Slot, value: Bytes): Slot {
    match slot
    case Some(Str(bytes, exp)) => Some(Str(bytes + value, exp))
    case Some(_) => slot
    case None => Some(Str(value, None))
  }

  function SetNx(slot: Slot, value: Bytes, now: Instant): Slot {
    if slot.Some? && !Expired(slot.value, now) then slot else Some(Str(value, None))
  }

  function GetSet(slot: Slot, value: Bytes, now: Instant): Slot {
    if slot.Some? && !slot.value.Str? && !Expired(slot.value, now) then slot else Some(Str(value, None))
  }

  // ---- Expiry ----

  function SetExpiry(slot: Slot, at: Instant, now: Instant): Slot {
    if slot.Some? && !Expired(slot.value, now) then Some(slot.value.(exp := Some(at))) else slot
  }

  function Persist(slot: Slot, now: Instant): Slot {
    if slot.Some? && !Expired(slot.value, now) then Some(slot.value.(exp := None)) else slot
  }

  // ---- Hashes ----

  /** HSET is refused on any other type of value. */
  predicate TakesFields(slot: Slot) { slot.None? || slot.value.Hash? }

  function HSet(slot: Slot, field: Bytes, value: Bytes): Slot {
    match slot
    case Some(Hash(fields, exp)) => Some(Hash(fields[field := value], exp))
    case Some(_) => slot
    case None => Some(Hash(map[field := value], None))
  }

  function HDel(slot: Slot, names: seq<Bytes>): Slot {
    match slot
    case Some(Hash(fields, exp)) => Some(Hash(fields - (set f | f in names), exp))
    case _ => slot
  }

  function HSetNx(slot: Slot, field: Bytes, value: Bytes, now: Instant): Slot {
    match slot
    case Some(Hash(fields, exp)) =>
      if Expired(slot.value, now) then Some(Hash(map[field := value], None))
      else if field in fields then slot
      else Some(Hash(fields[field := value], exp))
    case Some(_) => slot
    case None => Some(Hash(map[field := value], None))
  }

  function HIncrBy(slot: Slot, field: Bytes, delta: int, now: Instant): Slot {
    match slot
    case Some(Hash(fields, exp)) =>
      if Expired(slot.value, now) then Some(Hash(map[field := PrintInt(delta)], None))
      else
        (match if field in fields then ParseI64(fields[field]) else Some(0)
         case None => slot
         case Some(n) =>
           if I64_MIN <= n + delta <= I64_MAX then Some(Hash(fields[field := PrintInt(n + delta)], exp)) else slot)
    case Some(_) => slot
    case None => Some(Hash(map[field := PrintInt(delta)], None))
  }

  // ---- Lists ----

  function LPush(slot: Slot, values: seq<Bytes>): Slot {
    match slot
    case Some(List(items, exp)) => Some(List(Lists.Reverse(values) + items, exp))
    case Some(_) => slot
    case None => Some(List(Lists.Reverse(values), None))
  }

  function RPush(slot: Slot, values: seq<Bytes>): Slot {
    match slot
    case Some(List(items, exp)) => Some(List(items + values, exp))
    case Some(_) => slot
    case None => Some(List(values, None))
  }

  function LPop(slot: Slot): Slot {
    match slot
    case Some(List(items, exp)) => if items == [] then slot else Some(List(items[1..], exp))
    case _ => slot
  }

  function RPop(slot: Slot): Slot {
    match slot
    case Some(List(items, exp)) => if items == [] then slot else Some(List(items[..|items| - 1], exp))
    case _ => slot
  }

  function LSet(slot: Slot, index: int, value: Bytes, now: Instant): Slot {
    match slot
    case Some(List(items, exp)) =>
      var place := if index < 0 then |items| + index else index;
      if Expired(slot.value, now) || place < 0 || place >= |items| then slot
      else Some(List(items[place := value], exp))
    case _ => slot
  }

  function LRem(slot: Slot, count: int, value: Bytes, now: Instant): Slot {
    match slot
    case Some(List(items, exp)) =>
      if Expired(slot.value, now) then slot else Some(List(Lists.Rem(items, count, value), exp))
    case _ => slot
  }

  function LTrim(slot: Slot, start: int, stop: int, now: Instant): Slot {
    match slot
    case Some(List(items, exp)) =>
      if Expired(slot.value, now) then slot else Some(List(Lists.Trim(items, start, stop), exp))
    case _ => slot
  }

  /** The receiving half of RPOPLPUSH. */
  function PushFront(slot: Slot, value: Bytes, now: Instant): Slot {
    match slot
    case Some(List(items, exp)) =>
      if Expired(slot.value, now) then Some(List([value], None)) else Some(List([value] + items, exp))
    case Some(_) => slot
    case None => Some(List([value], None))
  }

  /** Pop the tail of `source`, then push it on the head of `destination`; a
      destination of another type is noticed only after the pop. */
  function RPopLPush(st: Store, source: Bytes, destination: Bytes, now: Instant): Store {
    match At(st, source)
    case Some(List(items, exp)) =>
      if Expired(st[source], now) || items == [] then st
      else
        var popped := Put(st, source, Some(List(items[..|items| - 1], exp)));
        Put(popped, destination, PushFront(At(popped, destination), items[|items| - 1], now))
    case _ => st
  }

  // ---- Sets ----

  function SAdd(slot: Slot, members: seq<Bytes>): Slot {
    match slot
    case Some(Set(ms, exp)) => Some(Set(ms + (set m | m in members), exp))
    case Some(_) => slot
    case None => Some(Set((set m | m in members), None))
  }

  function SRem(slot: Slot, members: seq<Bytes>): Slot {
    match slot
    case Some(Set(ms, exp)) => Some(Set(ms - (set m | m in members), exp))
    case _ => slot
  }

  function SPop(slot: Slot, count: nat, env: Env): Slot {
    match slot
    case Some(Set(ms, exp)) => if Expired(slot.value, env.now) then slot else Some(Set(ms - env.sample(ms, count), exp))
    case _ => slot
  }

  function Receive(slot: Slot, member: Bytes, now: Instant): Slot {
    match slot
    case Some(Set(ms, exp)) =>
      if Expired(slot.value, now) then Some(Set({member}, None)) else Some(Set(ms + {member}, exp))
    case Some(_) => slot
    case None => Some(Set({member}, None))
  }

  function SMove(st: Store, source: Bytes, destination: Bytes, member: Bytes, now: Instant): Store {
    match At(st, source)
    case Some(Set(ms, exp)) =>
      if Expired(st[source], now) || member !in ms then st
      else
        var taken := Put(st, source, Some(Set(ms - {member}, exp)));
        Put(taken, destination, Receive(At(taken, destination), member, now))
    case _ => st
  }

  // ---- Sorted sets ----

  function AddAll(z: Z.ZIndex, scored: seq<(real, Bytes)>): Z.ZIndex
    decreases |scored|
  {
    if scored == [] then z else AddAll(Z.Add(z, scored[0].0, scored[0].1), scored[1..])
  }

  function RemoveAll(z: Z.ZIndex, members: seq<Bytes>): Z.ZIndex
    decreases |members|
  {
    if members == [] then z else RemoveAll(Z.Remove(z, members[0]), members[1..])
  }

  function ZAdd(slot: Slot, scored: seq<(real, Bytes)>): Slot {
    match slot
    case Some(SortedSet(z, exp)) => Some(SortedSet(AddAll(z, scored), exp))
    case Some(_) => slot
    case None => Some(SortedSet(AddAll(Z.EMPTY, scored), None))
  }

  function ZRem(slot: Slot, members: seq<Bytes>): Slot {
    match slot
    case Some(SortedSet(z, exp)) => Some(SortedSet(RemoveAll(z, members), exp))
    case _ => slot
  }

  function ZIncrBy(slot: Slot, delta: real, member: Bytes, now: Instant): Slot {
    match slot
    case Some(SortedSet(z, exp)) =>
      if Expired(slot.value, now) then Some(SortedSet(Z.Add(Z.EMPTY, delta, member), None))
      else Some(SortedSet(Z.Add(z, (if member in z.scores then z.scores[member] else 0.0) + delta, member), exp))
    case Some(_) => slot
    case None => Some(SortedSet(Z.Add(Z.EMPTY, delta, member), None))
  }

  function ZPop(slot: Slot, count: nat, lowest: bool, env: Env): Slot {
    match slot
    case Some(SortedSet(z, exp)) =>
      if Expired(slot.value, env.now) then slot else Some(SortedSet(Z.Pop(z, count, env.order, lowest).left, exp))
    case _ => slot
  }

  // ---- Streams and keys ----

  function XAdd(slot: Slot, requested: Option<X.StreamId>, fields: X.Fields, env: Env): Slot {
    match slot
    case Some(Stream(log, exp)) =>
      var base, keep := if Expired(slot.value, env.now) then X.EMPTY else log,
                        if Expired(slot.value, env.now) then None else exp;
      (match X.Add(base, requested, fields, env.unixMs) case None => slot case Some(grown) => Some(Stream(grown, keep)))
    case Some(_) => slot
    case None =>
      (match X.Add(X.EMPTY, requested, fields, env.unixMs)
       case None => None
       case Some(grown) => Some(Stream(grown, None)))
  }

  /** RENAME removes the source first; an expired source is lost. */
  function Rename(st: Store, key: Bytes, newKey: Bytes, now: Instant): Store {
    match At(st, key)
    case None => st
    case Some(v) => if Expired(v, now) then Put(st, key, None) else Put(Put(st, key, None), newKey, Some(v))
  }

  // ---- What every value keeps ----

  ghost predicate GoodValue(v: CacheValue) {
    match v
    case SortedSet(z, _) => Z.Valid(z)
    case Stream(log, _) => X.Valid(log)
    case _ => true
  }

  ghost predicate GoodSlot(slot: Slot) { slot.Some? ==> GoodValue(slot.value) }

  ghost predicate Good(st: Store) { forall k | k in st :: GoodValue(st[k]) }

  ghost predicate Timeless(slot: Slot) { slot.Some? ==> slot.value.exp == None }

  /** No entry carries a deadline. */
  ghost predicate NoDeadlines(st: Store) { forall k | k in st :: st[k].exp == None }

  lemma {:induction false} AddAllKeeps(z: Z.ZIndex, scored: seq<(real, Bytes)>)
    requires Z.Valid(z)
    ensures Z.Valid(AddAll(z, scored))
    decreases |scored|
  {
    if scored != [] {
      Z.AddKeepsIndexes(z, scored[0].0, scored[0].1);
      AddAllKeeps(Z.Add(z, scored[0].0, scored[0].1), scored[1..]);
    }
  }

  lemma {:induction false} RemoveAllKeeps(z: Z.ZIndex, members: seq<Bytes>)
    requires Z.Valid(z)
    ensures Z.Valid(RemoveAll(z, members))
    decreases |members|
  {
    if members != [] {
      Z.RemoveKeepsIndexes(z, members[0]);
      RemoveAllKeeps(Z.Remove(z, members[0]), members[1..]);
    }
  }
}
