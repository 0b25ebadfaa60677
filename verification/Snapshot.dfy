/** Snapshots by reconstruction commands (persistence/snapshot.rs): saving turns
    each value into the commands that rebuild it plus an absolute deadline, and
    loading applies them. */
module Snapshot {
  import opened Primitives
  import opened Commands
  import opened S = Store
  import Z = SortedSets
  import Q = SortedSetQueries
  import X = Streams
  import Sharding
  import E = Effects

  datatype Record = Record(key: Bytes, commands: seq<Command>, deadline: Option<nat>)

  // ---- Saving ----

  /** A monotonic deadline as unix milliseconds; a passed one saturates at now. */
  function ToUnix(exp: Option<Instant>, env: Env): Option<nat> {
    match exp case None => None case Some(e) => Some(env.unixMs + if e >= env.now then e - env.now else 0)
  }

  function FieldCommands(key: Bytes, fields: map<Bytes, Bytes>, names: seq<Bytes>): seq<Command>
    requires forall f | f in names :: f in fields
  {
    seq(|names|, i requires 0 <= i < |names| => assert names[i] in names; Command.HSet(key, names[i], fields[names[i]]))
  }

  function ScoredMembers(q: seq<(Bytes, real)>): (r: seq<(real, Bytes)>)
    ensures |r| == |q| && forall i | 0 <= i < |r| :: r[i] == (q[i].1, q[i].0)
  {
    seq(|q|, i requires 0 <= i < |q| => (q[i].1, q[i].0))
  }

  function EntryCommands(key: Bytes, entries: seq<X.Entry>): (r: seq<Command>)
    ensures |r| == |entries|
  {
    seq(|entries|, i requires 0 <= i < |entries| =>
      Command.XAdd(key, Some(X.PrintId(entries[i].id)), entries[i].fields))
  }

  /** The commands that rebuild a value; none for an empty collection. */
  ghost function CommandsFor(key: Bytes, v: CacheValue, env: Env): seq<Command>
    requires Sane(env)
  {
    match v
    case Str(bytes, _) => [Command.Set(key, bytes, None)]
    case Hash(fields, _) =>
      assert Z.Lists(env.order(fields.Keys), fields.Keys);
      FieldCommands(key, fields, env.order(fields.Keys))
    case List(items, _) => if items == [] then [] else [Command.RPush(key, items)]
    case Set(members, _) => if env.order(members) == [] then [] else [Command.SAdd(key, env.order(members))]
    case SortedSet(z, _) =>
      var scored := ScoredMembers(Q.Listing(z, z.byScore.Keys, env.order));
      if scored == [] then [] else [Command.ZAdd(key, scored)]
    case Stream(log, _) => EntryCommands(key, log.entries)
  }

  /** Skipped at save: strings from the deadline on, collections only after it. */
  predicate SkippedAtSave(v: CacheValue, env: Env) {
    if v.Str? then v.exp.Some? && v.exp.value <= env.now else Expired(v, env.now)
  }

  ghost function RecordFor(key: Bytes, v: CacheValue, env: Env): Option<Record>
    requires Sane(env)
  {
    if SkippedAtSave(v, env) || CommandsFor(key, v, env) == [] then None
    else Some(Record(key, CommandsFor(key, v, env), ToUnix(v.exp, env)))
  }

  /** `create_snapshot` over the entries in iteration order. */
  ghost function Save(st: Store, keys: seq<Bytes>, env: Env): seq<Record>
    requires Sane(env) && forall k | k in keys :: k in st
  {
    if keys == [] then []
    else
      var n := |keys| - 1;
      var before := Save(st, keys[..n], env);
      match RecordFor(keys[n], st[keys[n]], env) case None => before case Some(r) => before + [r]
  }

  // ---- Loading ----

  function ApplyEach(st: Store, cmds: seq<Command>, env: Env): Store
    decreases |cmds|
  {
    if cmds == [] then st else ApplyEach(Apply(cmds[0], st, env), cmds[1..], env)
  }

  function LoadRecord(st: Store, r: Record, env: Env): Store {
    if r.deadline.Some? && r.deadline.value <= env.unixMs then st
    else
      var built := ApplyEach(st, r.commands, env);
      if r.deadline.None? then built
      else Put(built, r.key, SetExpiry(At(built, r.key), env.now + (r.deadline.value - env.unixMs), env.now))
  }

  function Load(records: seq<Record>, env: Env): Store {
    if records == [] then map[] else LoadRecord(Load(records[..|records| - 1], env), records[|records| - 1], env)
  }

  // ---- One slot at a time ----

  function FoldSlot(slot: Slot, cmds: seq<Command>, env: Env): Slot
    decreases |cmds|
  {
    if cmds == [] then slot else FoldSlot(ApplySlot(cmds[0], slot, env), cmds[1..], env)
  }

  ghost predicate AllOn(cmds: seq<Command>, key: Bytes) {
    forall i | 0 <= i < |cmds| :: OneSlot(cmds[i]) && cmds[i].key == key
  }

  /** Commands on one key act on its slot alone. */
  lemma {:induction false} ApplyEachOnSlot(st: Store, key: Bytes, cmds: seq<Command>, env: Env)
    requires AllOn(cmds, key)
    ensures ApplyEach(st, cmds, env) == Put(st, key, FoldSlot(At(st, key), cmds, env))
    decreases |cmds|
  {
    if cmds != [] {
      var slot := ApplySlot(cmds[0], At(st, key), env);
      var next := Put(st, key, slot);
      assert OneSlot(cmds[0]) && cmds[0].key == key;
      ApplyEachOnSlot(next, key, cmds[1..], env);
      PutTwice(st, key, slot, FoldSlot(slot, cmds[1..], env));
    }
  }

  // ---- Rebuilding each type of value ----

  ghost function Picked(fields: map<Bytes, Bytes>, names: seq<Bytes>): map<Bytes, Bytes>
    requires forall f | f in names :: f in fields
  {
    map f | f in names :: fields[f]
  }

  lemma PickedOneMore(fields: map<Bytes, Bytes>, names: seq<Bytes>, have: map<Bytes, Bytes>)
    requires names != [] && forall f | f in names :: f in fields
    ensures names[0] in fields && forall f | f in names[1..] :: f in fields
    ensures have[names[0] := fields[names[0]]] + Picked(fields, names[1..]) == have + Picked(fields, names)
  {
    assert names == [names[0]] + names[1..];
  }

  lemma FieldStep(key: Bytes, fields: map<Bytes, Bytes>, names: seq<Bytes>, have: map<Bytes, Bytes>, env: Env)
    requires names != [] && (forall f | f in names :: f in fields) && names[0] in fields
    ensures FoldSlot(Some(Hash(have, None)), FieldCommands(key, fields, names), env)
         == FoldSlot(Some(Hash(have[names[0] := fields[names[0]]], None)), FieldCommands(key, fields, names[1..]), env)
  {
    var cmds := FieldCommands(key, fields, names);
    FoldFrom(Some(Hash(have, None)), cmds, 0, env);
    assert cmds[1..] == FieldCommands(key, fields, names[1..]);
  }

  lemma {:induction false} FieldsRebuild(key: Bytes, fields: map<Bytes, Bytes>, names: seq<Bytes>,
                                         have: map<Bytes, Bytes>, env: Env)
    requires forall f | f in names :: f in fields
    ensures FoldSlot(Some(Hash(have, None)), FieldCommands(key, fields, names), env)
         == Some(Hash(have + Picked(fields, names), None))
    decreases |names|
  {
    if names == [] {
      assert have + Picked(fields, names) == have;
    } else {
      PickedOneMore(fields, names, have);
      FieldStep(key, fields, names, have, env);
      FieldsRebuild(key, fields, names[1..], have[names[0] := fields[names[0]]], env);
    }
  }

  lemma PickedAll(fields: map<Bytes, Bytes>, names: seq<Bytes>)
    requires Z.Lists(names, fields.Keys) && names != []
    ensures forall f | f in names :: f in fields
    ensures map[names[0] := fields[names[0]]] + Picked(fields, names[1..]) == fields
  {
    assert names == [names[0]] + names[1..];
  }

  lemma HashRebuilds(key: Bytes, fields: map<Bytes, Bytes>, names: seq<Bytes>, env: Env)
    requires Z.Lists(names, fields.Keys) && names != []
    ensures FoldSlot(None, FieldCommands(key, fields, names), env) == Some(Hash(fields, None))
  {
    var f, cmds := names[0], FieldCommands(key, fields, names);
    assert f in names;
    FoldFrom(None, cmds, 0, env);
    assert ApplySlot(cmds[0], None, env) == Some(Hash(map[f := fields[f]], None));
    assert cmds[1..] == FieldCommands(key, fields, names[1..]);
    FieldsRebuild(key, fields, names[1..], map[f := fields[f]], env);
    PickedAll(fields, names);
  }

  /** One turn of the fold, at position `n` of the commands. */
  lemma FoldFrom(slot: Slot, cmds: seq<Command>, n: nat, env: Env)
    requires n < |cmds|
    ensures FoldSlot(slot, cmds[n..], env) == FoldSlot(ApplySlot(cmds[n], slot, env), cmds[n + 1..], env)
    ensures cmds[0..] == cmds
  {
    assert cmds[n..][1..] == cmds[n + 1..];
  }

  /** Adding members with the scores `goal` gives them builds up `goal`. */
  lemma {:induction false} ScoresBuildUp(goal: map<Bytes, real>, z: Z.ZIndex, scored: seq<(real, Bytes)>)
    requires Z.Valid(z) && z.scores.Keys <= goal.Keys && forall m | m in z.scores :: z.scores[m] == goal[m]
    requires forall p | p in scored :: p.1 in goal && goal[p.1] == p.0
    ensures var w := AddAll(z, scored);
            && Z.Valid(w) && w.scores.Keys == z.scores.Keys + (set p | p in scored :: p.1)
            && forall m | m in w.scores :: m in goal && w.scores[m] == goal[m]
    decreases |scored|
  {
    if scored != [] {
      var p := scored[0];
      assert p in scored && scored == [p] + scored[1..];
      Z.AddKeepsIndexes(z, p.0, p.1);
      ScoresBuildUp(goal, Z.Add(z, p.0, p.1), scored[1..]);
      assert (set q | q in scored :: q.1) == {p.1} + (set q | q in scored[1..] :: q.1);
    }
  }

  lemma ListingCarriesScores(z: Z.ZIndex, q: seq<(Bytes, real)>)
    requires Z.Valid(z) && Q.ListsByScore(z, q, z.byScore.Keys)
    ensures forall p | p in ScoredMembers(q) :: p.1 in z.scores && z.scores[p.1] == p.0
    ensures (set p | p in ScoredMembers(q) :: p.1) == z.scores.Keys
  {
    var scored := ScoredMembers(q);
    forall p | p in scored ensures p.1 in z.scores && z.scores[p.1] == p.0 {
      var i :| 0 <= i < |scored| && scored[i] == p;
      assert q[i].0 in z.scores;
    }
    forall m | m in z.scores ensures m in (set p | p in scored :: p.1) {
      assert Z.InBucket(z.byScore, z.scores[m], m);
      assert m in Q.MembersIn(z, z.byScore.Keys);
      var i :| 0 <= i < |q| && q[i].0 == m;
      assert scored[i] in scored && scored[i].1 == m;
    }
  }

  /** A listing of a sorted set rebuilds both of its indexes. */
  lemma SortedSetRebuilds(z: Z.ZIndex, order: set<Bytes> -> seq<Bytes>)
    requires Z.Valid(z) && Z.Iterates(order)
    ensures AddAll(Z.EMPTY, ScoredMembers(Q.Listing(z, z.byScore.Keys, order))) == z
  {
    var q := Q.Listing(z, z.byScore.Keys, order);
    var scored := ScoredMembers(q);
    Q.ListingLists(z, z.byScore.Keys, order);
    ListingCarriesScores(z, q);
    ScoresBuildUp(z.scores, Z.EMPTY, scored);
    var w := AddAll(Z.EMPTY, scored);
    assert w.scores == z.scores;
    Z.IndexesAreCanonical(w, z);
  }

  lemma EmptyListing(z: Z.ZIndex, order: set<Bytes> -> seq<Bytes>)
    requires Z.Valid(z) && Z.Iterates(order)
    ensures Q.Listing(z, z.byScore.Keys, order) == [] <==> z.scores == map[]
  {
    var q := Q.Listing(z, z.byScore.Keys, order);
    Q.ListingLists(z, z.byScore.Keys, order);
    if q != [] { assert q[0].0 in z.scores; }
    else { ListingCarriesScores(z, q); assert z.scores.Keys == {}; }
  }

  ghost function Upto(log: X.Log, n: nat): X.Log
    requires n <= |log.entries|
  {
    X.Log(log.entries[..n], if n == 0 then X.MIN else log.entries[n - 1].id)
  }

  lemma UptoIsValid(log: X.Log, n: nat)
    requires X.Valid(log) && n <= |log.entries|
    ensures X.Valid(Upto(log, n))
  {
  }

  /** The slot after the first `n` entries. */
  ghost function Grown(log: X.Log, n: nat): Slot
    requires n <= |log.entries|
  {
    if n == 0 then None else Some(Stream(Upto(log, n), None))
  }

  lemma NextEntryIsAdded(log: X.Log, n: nat, nowMs: nat)
    requires X.Valid(log) && n < |log.entries|
    ensures X.Add(Upto(log, n), Some(log.entries[n].id), log.entries[n].fields, nowMs) == Some(Upto(log, n + 1))
    ensures n == 0 ==> Upto(log, n) == X.EMPTY
  {
    var e := log.entries[n];
    assert e in log.entries;
    UptoIsValid(log, n);
    assert X.Less(Upto(log, n).lastId, e.id);
    X.AddAppends(Upto(log, n), Some(e.id), e.fields, nowMs);
    assert log.entries[..n] + [X.Entry(e.id, e.fields)] == log.entries[..n + 1];
  }

  lemma XAddGrows(log: X.Log, n: nat, env: Env)
    requires X.Valid(log) && n < |log.entries|
    ensures S.XAdd(Grown(log, n), Some(log.entries[n].id), log.entries[n].fields, env) == Grown(log, n + 1)
  {
    NextEntryIsAdded(log, n, env.unixMs);
  }

  lemma PrintedIdIsAdded(key: Bytes, id: X.StreamId, fields: X.Fields, slot: Slot, env: Env)
    requires X.IsU64(id)
    ensures ApplySlot(Command.XAdd(key, Some(X.PrintId(id)), fields), slot, env) == S.XAdd(slot, Some(id), fields, env)
  {
    X.IdRoundTrip(id, false);
  }

  lemma StreamGrows(key: Bytes, log: X.Log, n: nat, env: Env)
    requires X.Valid(log) && n < |log.entries|
    ensures ApplySlot(EntryCommands(key, log.entries)[n], Grown(log, n), env) == Grown(log, n + 1)
  {
    assert log.entries[n] in log.entries;
    PrintedIdIsAdded(key, log.entries[n].id, log.entries[n].fields, Grown(log, n), env);
    XAddGrows(log, n, env);
  }

  /** A fold whose every step is known. */
  lemma {:induction false} FoldAlong(slots: seq<Slot>, cmds: seq<Command>, n: nat, env: Env)
    requires |slots| == |cmds| + 1 && n <= |cmds|
    requires forall i | 0 <= i < |cmds| :: ApplySlot(cmds[i], slots[i], env) == slots[i + 1]
    ensures FoldSlot(slots[n], cmds[n..], env) == slots[|cmds|]
    decreases |cmds| - n
  {
    if n < |cmds| {
      FoldFrom(slots[n], cmds, n, env);
      FoldAlong(slots, cmds, n + 1, env);
    }
  }

  lemma StreamRebuilds(key: Bytes, log: X.Log, env: Env)
    requires X.Valid(log)
    ensures FoldSlot(None, EntryCommands(key, log.entries), env) == Grown(log, |log.entries|)
  {
    var cmds := EntryCommands(key, log.entries);
    var slots := seq(|cmds| + 1, i requires 0 <= i <= |cmds| => Grown(log, i));
    forall i | 0 <= i < |cmds| ensures ApplySlot(cmds[i], slots[i], env) == slots[i + 1] {
      StreamGrows(key, log, i, env);
    }
    FoldAlong(slots, cmds, 0, env);
    assert cmds[0..] == cmds;
  }

  predicate NonEmpty(v: CacheValue) {
    match v
    case Str(_, _) => true
    case Hash(fields, _) => fields != map[]
    case List(items, _) => items != []
    case Set(members, _) => members != {}
    case SortedSet(z, _) => z.scores != map[]
    case Stream(log, _) => log.entries != []
  }

  /** What commands recorded for a value have to achieve. */
  ghost predicate Rebuild(cmds: seq<Command>, key: Bytes, v: CacheValue, env: Env) {
    && AllOn(cmds, key) && (cmds == [] <==> !NonEmpty(v))
    && (NonEmpty(v) ==> FoldSlot(None, cmds, env) == Some(v.(exp := None)))
  }

  lemma OneCommandRebuilds(cmd: Command, key: Bytes, v: CacheValue, env: Env)
    requires OneSlot(cmd) && cmd.key == key && NonEmpty(v) && ApplySlot(cmd, None, env) == Some(v.(exp := None))
    ensures Rebuild([cmd], key, v, env)
  {
    FoldFrom(None, [cmd], 0, env);
  }

  lemma HashCase(key: Bytes, v: CacheValue, save: Env, load: Env)
    requires v.Hash? && Sane(save)
    ensures Rebuild(CommandsFor(key, v, save), key, v, load)
  {
    var names := save.order(v.fields.Keys);
    assert Z.Lists(names, v.fields.Keys);
    if names != [] {
      assert names[0] in v.fields.Keys;
      HashRebuilds(key, v.fields, names, load);
    } else {
      assert v.fields.Keys == {};
    }
  }

  lemma SetCase(key: Bytes, v: CacheValue, save: Env, load: Env)
    requires v.Set? && Sane(save)
    ensures Rebuild(CommandsFor(key, v, save), key, v, load)
  {
    var listed := save.order(v.members);
    assert Z.Lists(listed, v.members);
    if listed != [] {
      assert listed[0] in v.members;
      assert (set m | m in listed) == v.members;
      OneCommandRebuilds(Command.SAdd(key, listed), key, v, load);
    }
  }

  lemma SortedSetCase(key: Bytes, v: CacheValue, save: Env, load: Env)
    requires v.SortedSet? && GoodValue(v) && Sane(save)
    ensures Rebuild(CommandsFor(key, v, save), key, v, load)
  {
    var scored := ScoredMembers(Q.Listing(v.z, v.z.byScore.Keys, save.order));
    EmptyListing(v.z, save.order);
    if scored != [] {
      SortedSetRebuilds(v.z, save.order);
      OneCommandRebuilds(Command.ZAdd(key, scored), key, v, load);
    }
  }

  lemma StreamCase(key: Bytes, v: CacheValue, save: Env, load: Env)
    requires v.Stream? && GoodValue(v) && Sane(save)
    ensures Rebuild(CommandsFor(key, v, save), key, v, load)
  {
    if v.log.entries != [] {
      StreamRebuilds(key, v.log, load);
      assert v.log.entries[..|v.log.entries|] == v.log.entries;
    }
  }

  /** The recorded commands rebuild exactly the value, without its deadline; a
      value with no commands is an empty collection. */
  lemma CommandsRebuild(key: Bytes, v: CacheValue, save: Env, load: Env)
    requires GoodValue(v) && Sane(save)
    ensures Rebuild(CommandsFor(key, v, save), key, v, load)
  {
    match v {
      case Str(bytes, _) => OneCommandRebuilds(Command.Set(key, bytes, None), key, v, load);
      case Hash(_, _) => HashCase(key, v, save, load);
      case List(items, _) => if items != [] { OneCommandRebuilds(Command.RPush(key, items), key, v, load); }
      case Set(_, _) => SetCase(key, v, save, load);
      case SortedSet(_, _) => SortedSetCase(key, v, save, load);
      case Stream(_, _) => StreamCase(key, v, save, load);
    }
  }

  // ---- Whole snapshots ----

  /** Not yet past its deadline when it is loaded. */
  predicate Survives(v: CacheValue, save: Env, load: Env) {
    NonEmpty(v) && !SkippedAtSave(v, save) &&
    match ToUnix(v.exp, save) case None => true case Some(deadline) => deadline > load.unixMs
  }

  /** The value with its deadline moved to the loading process's clock. */
  function Rebased(v: CacheValue, save: Env, load: Env): CacheValue
    requires Survives(v, save, load)
  {
    v.(exp := match ToUnix(v.exp, save)
              case None => None
              case Some(deadline) => Some(load.now + (deadline - load.unixMs)))
  }

  /** There is a record unless the value is empty or skipped, and its commands build the value. */
  lemma RecordBuilds(st: Store, key: Bytes, v: CacheValue, save: Env, load: Env)
    requires GoodValue(v) && Sane(save) && At(st, key) == None
    ensures match RecordFor(key, v, save)
            case None => !NonEmpty(v) || SkippedAtSave(v, save)
            case Some(r) =>
              && NonEmpty(v) && !SkippedAtSave(v, save) && r.key == key && r.deadline == ToUnix(v.exp, save)
              && ApplyEach(st, r.commands, load) == Put(st, key, Some(v.(exp := None)))
  {
    CommandsRebuild(key, v, save, load);
    if NonEmpty(v) { ApplyEachOnSlot(st, key, CommandsFor(key, v, save), load); }
  }

  /** What becomes of a built value under a unix deadline; None once that has passed. */
  function Landed(v: CacheValue, deadline: Option<nat>, load: Env): Slot {
    match deadline
    case None => Some(v.(exp := None))
    case Some(d) => if d <= load.unixMs then None else Some(v.(exp := Some(load.now + (d - load.unixMs))))
  }

  lemma LoadBuilt(st: Store, r: Record, v: CacheValue, load: Env)
    requires At(st, r.key) == None && ApplyEach(st, r.commands, load) == Put(st, r.key, Some(v.(exp := None)))
    ensures LoadRecord(st, r, load) == Put(st, r.key, Landed(v, r.deadline, load))
  {
    if r.deadline.Some? && r.deadline.value > load.unixMs {
      PutTwice(st, r.key, Some(v.(exp := None)), Landed(v, r.deadline, load));
    } else if r.deadline.Some? {
      PutNothing(st, r.key);
    }
  }

  lemma PutNothing(st: Store, key: Bytes)
    requires At(st, key) == None
    ensures Put(st, key, None) == st
  {
  }

  lemma LandedIsRebased(v: CacheValue, save: Env, load: Env)
    requires NonEmpty(v) && !SkippedAtSave(v, save)
    ensures Landed(v, ToUnix(v.exp, save), load)
         == if Survives(v, save, load) then Some(Rebased(v, save, load)) else None
  {
  }

  /** What loading the record of one entry adds to a store without that key. */
  ghost function AfterRecord(st: Store, record: Option<Record>, load: Env): Store {
    if record.None? then st else LoadRecord(st, record.value, load)
  }

  lemma LoadOne(st: Store, key: Bytes, v: CacheValue, save: Env, load: Env)
    requires GoodValue(v) && Sane(save) && At(st, key) == None
    ensures AfterRecord(st, RecordFor(key, v, save), load)
         == Put(st, key, if Survives(v, save, load) then Some(Rebased(v, save, load)) else None)
  {
    RecordBuilds(st, key, v, save, load);
    var record := RecordFor(key, v, save);
    if record.Some? {
      LoadBuilt(st, record.value, v, load);
      LandedIsRebased(v, save, load);
    } else {
      PutNothing(st, key);
    }
  }

  /** The entry of `k` after loading a snapshot of `keys`. */
  ghost function Restored(st: Store, keys: seq<Bytes>, save: Env, load: Env, k: Bytes): Slot {
    if k in keys && k in st && Survives(st[k], save, load) then Some(Rebased(st[k], save, load)) else None
  }

  lemma {:induction false} LoadRestores(st: Store, keys: seq<Bytes>, save: Env, load: Env, k: Bytes)
    requires Good(st) && Sane(save) && (forall x | x in keys :: x in st)
    requires forall i, j | 0 <= i < j < |keys| :: keys[i] != keys[j]
    ensures At(Load(Save(st, keys, save), load), k) == Restored(st, keys, save, load, k)
    decreases |keys|
  {
    if keys != [] {
      var n := |keys| - 1;
      var init, last := keys[..n], keys[n];
      assert last !in init && keys == init + [last];
      LoadRestores(st, init, save, load, k);
      LoadRestores(st, init, save, load, last);
      LoadOneMore(st, keys, save, load);
      LoadOne(Load(Save(st, init, save), load), last, st[last], save, load);
    }
  }

  lemma LoadOneMore(st: Store, keys: seq<Bytes>, save: Env, load: Env)
    requires Sane(save) && keys != [] && forall x | x in keys :: x in st
    ensures var n := |keys| - 1;
            Load(Save(st, keys, save), load)
              == AfterRecord(Load(Save(st, keys[..n], save), load), RecordFor(keys[n], st[keys[n]], save), load)
  {
    var n := |keys| - 1;
    var before, record := Save(st, keys[..n], save), RecordFor(keys[n], st[keys[n]], save);
    if record.Some? { assert (before + [record.value])[..|before|] == before; }
  }

  /** Snapshot round trip: for every store with well-formed collections, in any
      iteration order, loading its snapshot into an empty store yields exactly
      the entries that survive, each with its value intact (list order, both
      sorted-set indexes, stream entries and last id) and its deadline carried
      over; empty collections and expired entries are what is left out. */
  lemma SnapshotRoundTrip(st: Store, keys: seq<Bytes>, save: Env, load: Env)
    requires Good(st) && Sane(save) && Z.Lists(keys, st.Keys)
    ensures Load(Save(st, keys, save), load)
         == map k | k in st && Survives(st[k], save, load) :: Rebased(st[k], save, load)
  {
    Q.ListedOnce(keys, st.Keys);
    var want := map k | k in st && Survives(st[k], save, load) :: Rebased(st[k], save, load);
    forall k ensures At(Load(Save(st, keys, save), load), k) == At(want, k) { LoadRestores(st, keys, save, load, k); }
    Sharding.SameSlots(Load(Save(st, keys, save), load), want);
  }

  /** Whatever commands a server has executed from an empty store, of the deterministic
      fragment or not, its snapshot restores what survives of its store, as long as no
      generated stream id wrapped. */
  lemma LiveRunRoundTrip(run: seq<E.Executed>, keys: seq<Bytes>, save: Env, load: Env)
    requires E.NeverWraps(run) && Sane(save) && Z.Lists(keys, E.LiveAll(map[], run).Keys)
    ensures var st := E.LiveAll(map[], run);
            Load(Save(st, keys, save), load)
              == map k | k in st && Survives(st[k], save, load) :: Rebased(st[k], save, load)
  {
    E.LiveRunIsGood(run);
    SnapshotRoundTrip(E.LiveAll(map[], run), keys, save, load);
  }

  /** Loaded no earlier than saved, an entry survives exactly when it is not empty
      and its deadline, in unix time, lies ahead of the load; and the unix time of
      that deadline is the same before and after. */
  lemma DeadlinesCarryOver(v: CacheValue, save: Env, load: Env)
    requires save.unixMs <= load.unixMs
    ensures Survives(v, save, load) <==>
              NonEmpty(v) && (v.exp.None? || save.unixMs + v.exp.value - save.now > load.unixMs)
    ensures Survives(v, save, load) && v.exp.Some? ==>
              Rebased(v, save, load).exp.Some? &&
              load.unixMs + Rebased(v, save, load).exp.value - load.now == save.unixMs + v.exp.value - save.now
    ensures Survives(v, save, load) ==> Rebased(v, save, load).(exp := v.exp) == v
  {
  }
}
