/** Transaction state, shard versions and one connection's command execution
    (transactions.rs, the gates and control arms of server.rs), as objects. */
module Transactions {
  import opened Primitives
  import opened Commands
  import opened Sharding
  import opened Chokepoint
  import I = Interleaving
  import S = Store
  import G = Ring

  // ---- Versions ----

  class ShardVersions {
    const versions: array<nat>

    constructor (count: nat)
      ensures versions.Length == count && fresh(versions) && forall i | 0 <= i < count :: versions[i] == 0
    {
      versions := new nat[count](i => 0);
    }

    method Read(shard: nat) returns (v: nat)
      requires shard < versions.Length
      ensures v == versions[shard]
    {
      v := versions[shard];
    }

    method Bump(shard: nat)
      requires shard < versions.Length
      modifies versions
      ensures versions[..] == I.BumpAt(old(versions[..]), shard)
    {
      versions[shard] := versions[shard] + 1;
    }

    method BumpAll(shards: seq<nat>)
      requires forall i | 0 <= i < |shards| :: shards[i] < versions.Length
      modifies versions
      ensures versions[..] == BumpEach(old(versions[..]), shards)
    {
      ghost var goal := BumpEach(versions[..], shards);
      assert shards[0..] == shards;
      for i := 0 to |shards|
        invariant BumpEach(versions[..], shards[i..]) == goal
      {
        assert shards[i..][1..] == shards[i + 1..];
        Bump(shards[i]);
      }
    }
  }

  // ---- Transaction state ----

  class TxState {
    var queue: Option<seq<Command>>
    var watched: map<nat, nat>

    constructor ()
      ensures queue == None && watched == map[]
    {
      queue, watched := None, map[];
    }

    /** Only the first version seen of a shard is kept. */
    method Watch(shard: nat, version: nat)
      modifies `watched
      ensures watched == if shard in old(watched) then old(watched) else old(watched)[shard := version]
    {
      if shard !in watched { watched := watched[shard := version]; }
    }

    method AnyWatchedChanged(now: ShardVersions) returns (r: bool)
      requires forall s | s in watched :: s < now.versions.Length
      ensures r <==> exists s | s in watched :: now.versions[s] != watched[s]
    {
      var rest := watched.Keys;
      while rest != {}
        invariant rest <= watched.Keys
        invariant forall s | s in watched && s !in rest :: now.versions[s] == watched[s]
        decreases |rest|
      {
        var s :| s in rest;
        if now.versions[s] != watched[s] { return true; }
        rest := rest - {s};
      }
      return false;
    }
  }

  // ---- Records ----

  /** What watching `keys` records: every shard they lie in, at its current version
      unless it was recorded before. */
  ghost predicate Records(hash: Bytes -> nat, keys: seq<Bytes>, before: map<nat, nat>, after: map<nat, nat>,
                          versions: seq<nat>) {
    && (forall s :: s in after <==> s in before || InShard(hash, keys, s))
    && (forall s | s in after ::
          if s in before then after[s] == before[s] else s < |versions| && after[s] == versions[s])
  }

  ghost predicate InShard(hash: Bytes -> nat, keys: seq<Bytes>, s: nat) {
    exists i | 0 <= i < |keys| :: ShardOf(hash, keys[i]) == s
  }

  lemma RecordsOneMore(hash: Bytes -> nat, keys: seq<Bytes>, i: nat, before: map<nat, nat>, mid: map<nat, nat>,
                       versions: seq<nat>)
    requires i < |keys| && Records(hash, keys[..i], before, mid, versions) && ShardOf(hash, keys[i]) < |versions|
    ensures var s := ShardOf(hash, keys[i]);
            Records(hash, keys[..i + 1], before, if s in mid then mid else mid[s := versions[s]], versions)
  {
    var shard := ShardOf(hash, keys[i]);
    forall s ensures InShard(hash, keys[..i + 1], s) <==> InShard(hash, keys[..i], s) || s == shard {
      if InShard(hash, keys[..i], s) {
        var j :| 0 <= j < i && ShardOf(hash, keys[..i][j]) == s;
        assert keys[..i + 1][j] == keys[..i][j];
      }
      if s == shard { assert keys[..i + 1][i] == keys[i]; }
      if InShard(hash, keys[..i + 1], s) {
        var j :| 0 <= j < i + 1 && ShardOf(hash, keys[..i + 1][j]) == s;
        if j < i { assert keys[..i][j] == keys[..i + 1][j]; }
      }
    }
  }

  datatype Reply = Done | Queued | Refused | Aborted | Ran(count: nat) | Moved(target: G.Node)

  // ---- One connection ----

  class Connection {
    const storage: CacheStorage
    const versions: ShardVersions
    const tx: TxState
    const place: Place
    var log: seq<Command>

    constructor (hash: Bytes -> nat, place: Place)
      ensures Valid() && RecordsOk() && fresh(tx) && fresh(storage) && fresh(versions.versions) && this.place == place
    {
      this.place := place;
      storage := new CacheStorage(hash);
      versions := new ShardVersions(SHARD_COUNT);
      tx := new TxState();
      log := [];
    }

    ghost predicate Valid()
      reads this, storage, tx
    {
      && storage.Valid() && versions.versions.Length == SHARD_COUNT
      && (forall s | s in tx.watched :: s < SHARD_COUNT)
      && (tx.queue.Some? ==> I.Clean(tx.queue.value))
    }

    ghost function Shared(): World
      reads this, storage, versions.versions
    {
      World(storage.Contents(), log, versions.versions[..])
    }

    /** Storage calls that EXEC would make. */
    ghost function QueuedCalls(): nat
      reads tx
    {
      if tx.queue.None? then 0 else CallsOf(tx.queue.value)
    }

    /** No record is ahead of its shard's version. */
    ghost predicate RecordsOk()
      requires Valid()
      reads this, storage, tx, versions.versions
    {
      RecordsHold(tx.watched, versions.versions[..])
    }

    /** Some entry of a recorded shard differs from what it was in `w`. */
    ghost predicate TouchedSince(w: World)
      reads this, storage, tx
    {
      Touched(storage.hash, tx.watched, w.store, storage.Contents())
    }

    ghost predicate WatchBroken()
      requires Valid()
      reads this, storage, tx, versions.versions
    {
      Broken(tx.watched, versions.versions[..])
    }

    method Append(cmd: Command)
      requires Valid()
      modifies `log, versions.versions
      ensures Valid() && Shared() == LogAndBump(storage.hash, cmd, old(Shared()))
    {
      log := log + [cmd];
      versions.BumpAll(BumpList(storage.hash, cmd));
    }

    method RunScript(effects: seq<Command>, envs: seq<S.Env>)
      requires Valid() && |effects| <= |envs|
      modifies `log, storage, versions.versions
      ensures Valid() && Shared() == Scripted(storage.hash, effects, old(Shared()), envs)
    {
      RunCalls(effects, envs);
      LogCalls(effects);
    }

    method RunCalls(effects: seq<Command>, envs: seq<S.Env>)
      requires Valid() && |effects| <= |envs|
      modifies storage
      ensures Valid() && storage.Contents() == LiveEach(old(storage.Contents()), effects, envs)
    {
      ghost var goal := LiveEach(storage.Contents(), effects, envs);
      assert effects[0..] == effects && envs[0..] == envs;
      for i := 0 to |effects|
        invariant Valid() && LiveEach(storage.Contents(), effects[i..], envs[i..]) == goal
      {
        assert effects[i..][1..] == effects[i + 1..] && envs[i..][1..] == envs[i + 1..];
        storage.Execute(effects[i], envs[i]);
      }
    }

    /** `persist_script_writes`. */
    method LogCalls(effects: seq<Command>)
      requires Valid()
      modifies `log, versions.versions
      ensures Valid() && Shared() == LogAndBumpEach(storage.hash, effects, old(Shared()))
    {
      ghost var goal := LogAndBumpEach(storage.hash, effects, Shared());
      assert effects[0..] == effects;
      for i := 0 to |effects|
        invariant Valid() && LogAndBumpEach(storage.hash, effects[i..], Shared()) == goal
      {
        assert effects[i..][1..] == effects[i + 1..];
        Append(effects[i]);
      }
    }

    /** `execute_command`: the queueing gate, the write chokepoint and the
        transaction arms. The queue never holds a control command, so the call
        that EXEC makes for each queued command cannot reach EXEC again. */
    method Execute(cmd: Command, envs: seq<S.Env>) returns (reply: Reply)
      requires Valid() && RecordsOk() && Calls(cmd) <= |envs| && (cmd.Exec? ==> QueuedCalls() <= |envs|)
      modifies this, tx, storage, versions.versions
      ensures Valid() && RecordsOk()
      ensures old(tx.queue).Some? && !I.IsControl(cmd) ==>
                reply == Queued && Shared() == old(Shared()) &&
                tx.queue == Some(old(tx.queue).value + [cmd]) && tx.watched == old(tx.watched)
      ensures old(tx.queue).None? && !I.IsControl(cmd) ==>
                Shared() == Perform(storage.hash, place, cmd, old(Shared()), envs) &&
                tx.queue == None && tx.watched == old(tx.watched) &&
                reply == (match Redirected(place, cmd) case None => Done case Some(node) => Moved(node))
      // a change in a recorded shard shows at the next EXEC, whatever happens in between
      ensures old(WatchBroken()) && !cmd.Exec? && !cmd.Discard? && !cmd.Unwatch? ==> WatchBroken()
      ensures old(tx.queue).None? && !I.IsControl(cmd) && TouchedSince(old(Shared())) ==> WatchBroken()
      // a key that another member owns
      ensures old(tx.queue).None? && !I.IsControl(cmd) && (place.Member? ==> G.Known(place.cluster)) &&
              OwnedElsewhere(place, cmd).Some? ==>
                reply == Moved(OwnedElsewhere(place, cmd).value) && Shared() == old(Shared())
      ensures I.IsControl(cmd) && !cmd.Exec? ==>
                Shared() == old(Shared()) &&
                Controlled(cmd, old(tx.queue), old(tx.watched), reply, tx.queue, tx.watched)
      ensures cmd.Exec? && old(tx.queue).None? ==>
                reply == Refused && Shared() == old(Shared()) && tx.watched == old(tx.watched)
      ensures cmd.Exec? && old(tx.queue).Some? ==> tx.queue == None && tx.watched == map[]
      ensures cmd.Exec? && old(tx.queue).Some? && old(WatchBroken()) ==>
                reply == Aborted && Shared() == old(Shared())
      ensures cmd.Exec? && old(tx.queue).Some? && !old(WatchBroken()) ==>
                reply == Ran(|old(tx.queue).value|) &&
                Shared() == PerformEach(storage.hash, place, old(tx.queue).value, old(Shared()), envs)
      decreases if cmd.Exec? then 1 else 0, 0
    {
      if tx.queue.Some? && !I.IsControl(cmd) {
        tx.queue := Some(tx.queue.value + [cmd]);
        return Queued;
      }
      if !I.IsControl(cmd) {
        reply := RunOutside(cmd, envs);
        return;
      }
      if cmd.Exec? { reply := RunExec(envs); } else { reply := Control(cmd); }
    }

    /** A command outside MULTI that is not itself transaction control. */
    method RunOutside(cmd: Command, envs: seq<S.Env>) returns (reply: Reply)
      requires Valid() && RecordsOk() && Calls(cmd) <= |envs|
      modifies `log, storage, versions.versions
      ensures Valid() && RecordsOk() && Shared() == Perform(storage.hash, place, cmd, old(Shared()), envs)
      ensures reply == match Redirected(place, cmd) case None => Done case Some(node) => Moved(node)
      ensures TouchedSince(old(Shared())) || old(WatchBroken()) ==> WatchBroken()
      ensures (place.Member? ==> G.Known(place.cluster)) && OwnedElsewhere(place, cmd).Some? ==>
                reply == Moved(OwnedElsewhere(place, cmd).value) && Shared() == old(Shared())
    {
      ghost var before := Shared();
      reply := RunOrRedirect(cmd, envs);
      RecordsAfter(storage.hash, place, cmd, before, envs, tx.watched, Shared());
      if place.Member? ==> G.Known(place.cluster) { SentToTheOwner(place, cmd); }
    }

    /** The cluster routing gate, which lets every command without a key through, and what
        lies behind it. */
    method RunOrRedirect(cmd: Command, envs: seq<S.Env>) returns (reply: Reply)
      requires Valid() && Calls(cmd) <= |envs|
      modifies `log, storage, versions.versions
      ensures Valid() && Shared() == Perform(storage.hash, place, cmd, old(Shared()), envs)
      ensures reply == match Redirected(place, cmd) case None => Done case Some(node) => Moved(node)
    {
      var elsewhere := Redirected(place, cmd);
      if elsewhere.Some? { return Moved(elsewhere.value); }
      RunPlain(cmd, envs);
      return Done;
    }

    /** The write chokepoint and the arms behind it. */
    method RunPlain(cmd: Command, envs: seq<S.Env>)
      requires Valid() && Calls(cmd) <= |envs| && Redirected(place, cmd).None?
      modifies `log, storage, versions.versions
      ensures Valid() && Shared() == Perform(storage.hash, place, cmd, old(Shared()), envs)
    {
      if IsWrite(cmd) {
        Append(cmd);
        storage.Execute(cmd, envs[0]);
      } else if cmd.Script? {
        RunScript(cmd.effects, envs);
      }
    }

    /** What MULTI, DISCARD, WATCH and UNWATCH answer and leave behind. */
    ghost predicate Controlled(cmd: Command, queue: Option<seq<Command>>, watched: map<nat, nat>,
                               reply: Reply, queueAfter: Option<seq<Command>>, watchedAfter: map<nat, nat>)
      reads versions.versions
    {
      if ((cmd.Multi? || cmd.Watch?) && queue.Some?) || (cmd.Discard? && queue.None?)
      then reply == Refused && queueAfter == queue && watchedAfter == watched
      else
        && reply == Done
        && queueAfter == (if cmd.Multi? then Some([]) else if cmd.Discard? then None else queue)
        && (cmd.Multi? ==> watchedAfter == watched)
        && (cmd.Discard? || cmd.Unwatch? ==> watchedAfter == map[])
        && (cmd.Watch? ==> Records(storage.hash, cmd.keys, watched, watchedAfter, versions.versions[..]))
    }

    method Control(cmd: Command) returns (reply: Reply)
      requires Valid() && RecordsOk() && I.IsControl(cmd) && !cmd.Exec?
      modifies tx
      ensures Valid() && RecordsOk()
      ensures Controlled(cmd, old(tx.queue), old(tx.watched), reply, tx.queue, tx.watched)
      ensures old(WatchBroken()) && !cmd.Discard? && !cmd.Unwatch? ==> WatchBroken()
    {
      match cmd {
        case Multi =>
          if tx.queue.Some? { return Refused; }
          tx.queue := Some([]);
        case Discard =>
          if tx.queue.None? { return Refused; }
          tx.queue, tx.watched := None, map[];
        case Watch(keys) =>
          if tx.queue.Some? { return Refused; }
          WatchKeys(keys);
        case Unwatch => tx.watched := map[];
      }
      return Done;
    }

    method WatchKeys(keys: seq<Bytes>)
      requires Valid() && RecordsOk()
      modifies tx`watched
      ensures Valid() && RecordsOk() && Records(storage.hash, keys, old(tx.watched), tx.watched, versions.versions[..])
    {
      for i := 0 to |keys|
        invariant Valid() && Records(storage.hash, keys[..i], old(tx.watched), tx.watched, versions.versions[..])
      {
        var shard := ShardOf(storage.hash, keys[i]);
        RecordsOneMore(storage.hash, keys, i, old(tx.watched), tx.watched, versions.versions[..]);
        var v := versions.Read(shard);
        tx.Watch(shard, v);
      }
      assert keys[..|keys|] == keys;
    }

    method RunExec(envs: seq<S.Env>) returns (reply: Reply)
      requires Valid() && RecordsOk() && QueuedCalls() <= |envs|
      modifies this, tx, storage, versions.versions
      ensures Valid() && RecordsOk()
      ensures old(tx.queue).None? ==> reply == Refused && Shared() == old(Shared()) && tx.watched == old(tx.watched)
      ensures old(tx.queue).Some? ==> tx.queue == None && tx.watched == map[]
      ensures old(tx.queue).Some? && old(WatchBroken()) ==> reply == Aborted && Shared() == old(Shared())
      ensures old(tx.queue).Some? && !old(WatchBroken()) ==>
                reply == Ran(|old(tx.queue).value|) &&
                Shared() == PerformEach(storage.hash, place, old(tx.queue).value, old(Shared()), envs)
      decreases 0, 2
    {
      if tx.queue == None { return Refused; }
      var queue := tx.queue.value;
      tx.queue := None;
      var changed := tx.AnyWatchedChanged(versions);
      tx.watched := map[];
      if changed { return Aborted; }
      RunQueue(queue, envs);
      return Ran(|queue|);
    }

    /** The queued commands, one by one through `Execute`. */
    method RunQueue(queue: seq<Command>, envs: seq<S.Env>)
      requires Valid() && tx.queue == None && tx.watched == map[] && I.Clean(queue) && CallsOf(queue) <= |envs|
      modifies this, tx, storage, versions.versions
      ensures Valid() && tx.queue == None && tx.watched == map[]
      ensures Shared() == PerformEach(storage.hash, place, queue, old(Shared()), envs)
      decreases 0, 1
    {
      ghost var goal := PerformEach(storage.hash, place, queue, Shared(), envs);
      var rest := envs;
      assert queue[0..] == queue;
      for i := 0 to |queue|
        invariant Valid() && tx.queue == None && tx.watched == map[]
        invariant CallsOf(queue[i..]) <= |rest|
        invariant PerformEach(storage.hash, place, queue[i..], Shared(), rest) == goal
      {
        assert queue[i..][1..] == queue[i + 1..];
        var _ := Execute(queue[i], rest);
        rest := rest[Calls(queue[i])..];
      }
    }
  }

  lemma OneKeyInShard(hash: Bytes -> nat, key: Bytes)
    ensures InShard(hash, [key], ShardOf(hash, key))
  {
    assert ShardOf(hash, [key][0]) == ShardOf(hash, key);
  }

  /** The classic conflict, for every command, script or write: watch a key, let the command
      run, open MULTI and say EXEC. If the key's entry has changed, EXEC aborts. */
  method ConflictAborts(conn: Connection, key: Bytes, cmd: Command, envs: seq<S.Env>) returns (reply: Reply)
    requires conn.Valid() && conn.RecordsOk() && conn.tx.queue == None
    requires !I.IsControl(cmd) && 1 <= |envs| && Calls(cmd) <= |envs|
    modifies conn, conn.tx, conn.storage, conn.versions.versions
    ensures S.At(conn.storage.Contents(), key) != S.At(old(conn.storage.Contents()), key) ==> reply == Aborted
  {
    ghost var start := conn.Shared();
    var _ := conn.Execute(Watch([key]), envs);
    OneKeyInShard(conn.storage.hash, key);
    assert ShardOf(conn.storage.hash, key) in conn.tx.watched;
    var _ := conn.Execute(cmd, envs);
    var _ := conn.Execute(Multi, envs);
    reply := conn.Execute(Exec, envs);
  }
}
