/** The write chokepoint as a function of the shared state: what a command does to the
    store, the log and the shard versions, and what the versions give away. */
module Chokepoint {
  import opened Primitives
  import opened Commands
  import opened Sharding
  import I = Interleaving
  import S = Store
  import G = Ring
  import O = RingOwnership

  function BumpEach(versions: seq<nat>, shards: seq<nat>): (r: seq<nat>)
    ensures |r| == |versions|
    decreases |shards|
  {
    if shards == [] then versions else BumpEach(I.BumpAt(versions, shards[0]), shards[1..])
  }

  // ---- What commands do to the shared state ----

  /** The store, the write-ahead log and the versions. */
  datatype World = World(store: S.Store, log: seq<Command>, versions: seq<nat>)

  function LogAndBump(hash: Bytes -> nat, cmd: Command, w: World): World {
    w.(log := w.log + [cmd], versions := BumpEach(w.versions, BumpList(hash, cmd)))
  }

  /** One storage call after the other, each in surroundings of its own. */
  function LiveEach(st: S.Store, cmds: seq<Command>, envs: seq<S.Env>): S.Store
    requires |cmds| <= |envs|
    decreases |cmds|
  {
    if cmds == [] then st else LiveEach(Live(cmds[0], st, envs[0]), cmds[1..], envs[1..])
  }

  function LogAndBumpEach(hash: Bytes -> nat, cmds: seq<Command>, w: World): World
    decreases |cmds|
  {
    if cmds == [] then w else LogAndBumpEach(hash, cmds[1..], LogAndBump(hash, cmds[0], w))
  }

  /** The server's place in a cluster, if it is in one. */
  datatype Place = Alone | Member(cluster: G.Cluster, id: G.NodeId, keyHash: Bytes -> nat)

  /** The cluster routing gate: the node a command is sent to instead. */
  function Redirected(place: Place, cmd: Command): Option<G.Node> {
    if place.Alone? || CommandKey(cmd).None? then None
    else G.Route(place.cluster, place.id, place.keyHash(CommandKey(cmd).value))
  }

  /** How many storage calls a command makes, at most. */
  function Calls(cmd: Command): nat { if cmd.Script? then |cmd.effects| else 1 }

  function CallsOf(cmds: seq<Command>): nat { if cmds == [] then 0 else Calls(cmds[0]) + CallsOf(cmds[1..]) }

  /** A command outside transaction control. */
  function Perform(hash: Bytes -> nat, place: Place, cmd: Command, w: World, envs: seq<S.Env>): World
    requires Calls(cmd) <= |envs|
  {
    if Redirected(place, cmd).Some? then w
    else if IsWrite(cmd) then
      var logged := LogAndBump(hash, cmd, w);
      logged.(store := Live(cmd, w.store, envs[0]))
    else if cmd.Script? then Scripted(hash, cmd.effects, w, envs)
    else w
  }

  /** A script: all its calls, then their log entries and bumps. */
  function Scripted(hash: Bytes -> nat, effects: seq<Command>, w: World, envs: seq<S.Env>): World
    requires |effects| <= |envs|
  {
    LogAndBumpEach(hash, effects, w.(store := LiveEach(w.store, effects, envs)))
  }

  function PerformEach(hash: Bytes -> nat, place: Place, cmds: seq<Command>, w: World, envs: seq<S.Env>): World
    requires CallsOf(cmds) <= |envs|
    decreases |cmds|
  {
    if cmds == [] then w
    else PerformEach(hash, place, cmds[1..], Perform(hash, place, cmds[0], w, envs), envs[Calls(cmds[0])..])
  }

  // ---- What gets logged ----

  /** The log entries of a command. */
  function Entries(place: Place, cmd: Command): seq<Command> {
    if Redirected(place, cmd).Some? then [] else if IsWrite(cmd) then [cmd] else if cmd.Script? then cmd.effects else []
  }

  function EntriesEach(place: Place, cmds: seq<Command>): seq<Command> {
    if cmds == [] then [] else Entries(place, cmds[0]) + EntriesEach(place, cmds[1..])
  }

  /** Every shard bumped for some log entries, as often as it is. */
  function Bumps(hash: Bytes -> nat, entries: seq<Command>): seq<nat> {
    if entries == [] then [] else BumpList(hash, entries[0]) + Bumps(hash, entries[1..])
  }

  function Occurs(list: seq<nat>, s: nat): nat {
    if list == [] then 0 else (if list[0] == s then 1 else 0) + Occurs(list[1..], s)
  }

  lemma {:induction false} OccursJoin(a: seq<nat>, b: seq<nat>, s: nat)
    ensures Occurs(a + b, s) == Occurs(a, s) + Occurs(b, s)
  {
    if a == [] { assert a + b == b; }
    else {
      OccursJoin(a[1..], b, s);
      assert (a + b)[1..] == a[1..] + b;
    }
  }

  lemma {:induction false} OccursIfIn(list: seq<nat>, s: nat)
    ensures s in list <==> Occurs(list, s) > 0
  {
    if list != [] {
      OccursIfIn(list[1..], s);
      assert list == [list[0]] + list[1..];
    }
  }

  lemma {:induction false} BumpsJoin(hash: Bytes -> nat, a: seq<Command>, b: seq<Command>)
    ensures Bumps(hash, a + b) == Bumps(hash, a) + Bumps(hash, b)
  {
    if a == [] { assert a + b == b; }
    else {
      BumpsJoin(hash, a[1..], b);
      assert (a + b)[1..] == a[1..] + b;
      Assoc(BumpList(hash, a[0]), Bumps(hash, a[1..]), Bumps(hash, b));
    }
  }

  /** Bumping raises each version by exactly as often as its shard is listed. */
  lemma {:induction false} BumpEachCounts(versions: seq<nat>, shards: seq<nat>, s: nat)
    requires s < |versions|
    ensures BumpEach(versions, shards)[s] == versions[s] + Occurs(shards, s)
    decreases |shards|
  {
    if shards != [] { BumpEachCounts(I.BumpAt(versions, shards[0]), shards[1..], s); }
  }

  /** `t` is `w` with these entries logged and every version raised by as often as its
      shard is listed for them. */
  ghost predicate Logged(hash: Bytes -> nat, w: World, entries: seq<Command>, t: World) {
    && t.log == w.log + entries && |t.versions| == |w.versions|
    && forall s | 0 <= s < |w.versions| :: t.versions[s] == w.versions[s] + Occurs(Bumps(hash, entries), s)
  }

  lemma OneLogged(hash: Bytes -> nat, cmd: Command, w: World)
    ensures Logged(hash, w, [cmd], LogAndBump(hash, cmd, w))
  {
    assert Bumps(hash, [cmd]) == BumpList(hash, cmd) + Bumps(hash, []) == BumpList(hash, cmd);
    forall s | 0 <= s < |w.versions|
      ensures LogAndBump(hash, cmd, w).versions[s] == w.versions[s] + Occurs(Bumps(hash, [cmd]), s)
    {
      BumpEachCounts(w.versions, BumpList(hash, cmd), s);
    }
  }

  lemma LoggedJoin(hash: Bytes -> nat, w: World, a: seq<Command>, u: World, b: seq<Command>, t: World)
    requires Logged(hash, w, a, u) && Logged(hash, u, b, t)
    ensures Logged(hash, w, a + b, t)
  {
    Assoc(w.log, a, b);
    BumpsJoin(hash, a, b);
    forall s | 0 <= s < |w.versions| ensures t.versions[s] == w.versions[s] + Occurs(Bumps(hash, a + b), s) {
      OccursJoin(Bumps(hash, a), Bumps(hash, b), s);
    }
  }

  lemma NothingLogged(hash: Bytes -> nat, w: World, t: World)
    requires t.log == w.log && t.versions == w.versions
    ensures Logged(hash, w, [], t)
  {
    assert w.log + [] == w.log;
  }

  lemma {:induction false} EachLogged(hash: Bytes -> nat, cmds: seq<Command>, w: World)
    ensures Logged(hash, w, cmds, LogAndBumpEach(hash, cmds, w))
    ensures LogAndBumpEach(hash, cmds, w).store == w.store
    decreases |cmds|
  {
    if cmds == [] { NothingLogged(hash, w, w); }
    else {
      var u := LogAndBump(hash, cmds[0], w);
      OneLogged(hash, cmds[0], w);
      EachLogged(hash, cmds[1..], u);
      LoggedJoin(hash, w, [cmds[0]], u, cmds[1..], LogAndBumpEach(hash, cmds, w));
      assert [cmds[0]] + cmds[1..] == cmds;
    }
  }

  /** A performed command logs its entries and raises every version by exactly as often as
      its shard is bumped for them; a redirected one does nothing at all. */
  lemma PerformLogs(hash: Bytes -> nat, place: Place, cmd: Command, w: World, envs: seq<S.Env>)
    requires Calls(cmd) <= |envs|
    ensures Logged(hash, w, Entries(place, cmd), Perform(hash, place, cmd, w, envs))
    ensures Redirected(place, cmd).Some? ==> Perform(hash, place, cmd, w, envs) == w
    ensures Redirected(place, cmd).None? && IsWrite(cmd) ==>
              Perform(hash, place, cmd, w, envs).store == Live(cmd, w.store, envs[0])
    ensures Redirected(place, cmd).None? && cmd.Script? ==>
              Perform(hash, place, cmd, w, envs).store == LiveEach(w.store, cmd.effects, envs)
  {
    if Redirected(place, cmd).Some? { NothingLogged(hash, w, w); }
    else if IsWrite(cmd) { OneLogged(hash, cmd, w); }
    else if cmd.Script? { ScriptLogs(hash, cmd.effects, w, envs); }
    else { NothingLogged(hash, w, w); }
  }

  /** What only reads leaves the store, the log and the versions as they are. */
  lemma ReadsDoNothing(hash: Bytes -> nat, place: Place, cmd: Command, w: World, envs: seq<S.Env>)
    requires envs != [] && (cmd.KeyRead? || cmd.Keyless? || (!IsWrite(cmd) && !cmd.Script?))
    ensures Perform(hash, place, cmd, w, envs) == w
  {
  }

  lemma ScriptLogs(hash: Bytes -> nat, effects: seq<Command>, w: World, envs: seq<S.Env>)
    requires |effects| <= |envs|
    ensures Logged(hash, w, effects, Scripted(hash, effects, w, envs))
    ensures Scripted(hash, effects, w, envs).store == LiveEach(w.store, effects, envs)
  {
    var u := w.(store := LiveEach(w.store, effects, envs));
    NothingLogged(hash, w, u);
    EachLogged(hash, effects, u);
    LoggedJoin(hash, w, [], u, effects, Scripted(hash, effects, w, envs));
    assert [] + effects == effects;
  }

  /** The same for the queue of an EXEC. */
  lemma {:induction false} PerformEachLogs(hash: Bytes -> nat, place: Place, cmds: seq<Command>, w: World,
                                           envs: seq<S.Env>)
    requires CallsOf(cmds) <= |envs|
    ensures Logged(hash, w, EntriesEach(place, cmds), PerformEach(hash, place, cmds, w, envs))
    decreases |cmds|
  {
    if cmds == [] { NothingLogged(hash, w, w); }
    else {
      var u, rest := Perform(hash, place, cmds[0], w, envs), envs[Calls(cmds[0])..];
      PerformLogs(hash, place, cmds[0], w, envs);
      PerformEachLogs(hash, place, cmds[1..], u, rest);
      LoggedJoin(hash, w, Entries(place, cmds[0]), u, EntriesEach(place, cmds[1..]),
                 PerformEach(hash, place, cmds, w, envs));
    }
  }

  // ---- What the versions give away ----

  /** Every changed entry shows in the version of its shard. */
  ghost predicate Announced(hash: Bytes -> nat, w: World, t: World) {
    forall k | S.At(t.store, k) != S.At(w.store, k) && ShardOf(hash, k) < |w.versions| ::
      ShardOf(hash, k) < |t.versions| && w.versions[ShardOf(hash, k)] < t.versions[ShardOf(hash, k)]
  }

  lemma {:induction false} CallsAreBumped(hash: Bytes -> nat, st: S.Store, cmds: seq<Command>, envs: seq<S.Env>,
                                          k: Bytes)
    requires |cmds| <= |envs| && S.At(LiveEach(st, cmds, envs), k) != S.At(st, k)
    ensures ShardOf(hash, k) in Bumps(hash, cmds)
    decreases |cmds|
  {
    var next := Live(cmds[0], st, envs[0]);
    if S.At(next, k) != S.At(st, k) { ChangesAreBumped(hash, cmds[0], st, envs[0], k); }
    else { CallsAreBumped(hash, next, cmds[1..], envs[1..], k); }
  }

  /** Whatever entry a performed command changes, the version of its shard is greater
      afterwards. */
  lemma PerformAnnounces(hash: Bytes -> nat, place: Place, cmd: Command, w: World, envs: seq<S.Env>)
    requires Calls(cmd) <= |envs|
    ensures Announced(hash, w, Perform(hash, place, cmd, w, envs))
  {
    var t := Perform(hash, place, cmd, w, envs);
    PerformLogs(hash, place, cmd, w, envs);
    forall k | S.At(t.store, k) != S.At(w.store, k) && ShardOf(hash, k) < |w.versions|
      ensures w.versions[ShardOf(hash, k)] < t.versions[ShardOf(hash, k)]
    {
      ChangeIsListed(hash, place, cmd, w, envs, k);
      OccursIfIn(Bumps(hash, Entries(place, cmd)), ShardOf(hash, k));
    }
  }

  lemma ChangeIsListed(hash: Bytes -> nat, place: Place, cmd: Command, w: World, envs: seq<S.Env>, k: Bytes)
    requires Calls(cmd) <= |envs| && S.At(Perform(hash, place, cmd, w, envs).store, k) != S.At(w.store, k)
    ensures ShardOf(hash, k) in Bumps(hash, Entries(place, cmd))
  {
    if IsWrite(cmd) {
      ChangesAreBumped(hash, cmd, w.store, envs[0], k);
      assert Bumps(hash, [cmd]) == BumpList(hash, cmd) + Bumps(hash, []);
    } else {
      ScriptLogs(hash, cmd.effects, w, envs);
      CallsAreBumped(hash, w.store, cmd.effects, envs, k);
    }
  }

  lemma {:induction false} PerformEachAnnounces(hash: Bytes -> nat, place: Place, cmds: seq<Command>, w: World,
                                                envs: seq<S.Env>)
    requires CallsOf(cmds) <= |envs|
    ensures Announced(hash, w, PerformEach(hash, place, cmds, w, envs))
    decreases |cmds|
  {
    if cmds != [] {
      var u, rest := Perform(hash, place, cmds[0], w, envs), envs[Calls(cmds[0])..];
      PerformLogs(hash, place, cmds[0], w, envs);
      PerformAnnounces(hash, place, cmds[0], w, envs);
      PerformEachLogs(hash, place, cmds[1..], u, rest);
      PerformEachAnnounces(hash, place, cmds[1..], u, rest);
      AnnouncedJoin(hash, w, u, PerformEach(hash, place, cmds, w, envs));
    }
  }

  lemma AnnouncedJoin(hash: Bytes -> nat, w: World, u: World, t: World)
    requires Announced(hash, w, u) && Announced(hash, u, t)
    requires |w.versions| == |u.versions| == |t.versions|
    requires forall s | 0 <= s < |w.versions| :: w.versions[s] <= u.versions[s] <= t.versions[s]
    ensures Announced(hash, w, t)
  {
  }

  /** Hence a standing record of the shard, whenever it was made, no longer matches. */
  lemma ChangeBreaksRecord(hash: Bytes -> nat, place: Place, cmd: Command, w: World, envs: seq<S.Env>,
                           watched: map<nat, nat>, k: Bytes)
    requires Calls(cmd) <= |envs| && S.At(Perform(hash, place, cmd, w, envs).store, k) != S.At(w.store, k)
    requires ShardOf(hash, k) in watched && ShardOf(hash, k) < |w.versions|
    requires watched[ShardOf(hash, k)] <= w.versions[ShardOf(hash, k)]
    ensures ShardOf(hash, k) < |Perform(hash, place, cmd, w, envs).versions|
    ensures Perform(hash, place, cmd, w, envs).versions[ShardOf(hash, k)] != watched[ShardOf(hash, k)]
  {
    PerformAnnounces(hash, place, cmd, w, envs);
    PerformLogs(hash, place, cmd, w, envs);
  }

  /** Records never exceed the versions they were made of. */
  ghost predicate RecordsHold(watched: map<nat, nat>, versions: seq<nat>) {
    forall s | s in watched :: s < |versions| && watched[s] <= versions[s]
  }

  ghost predicate Broken(watched: map<nat, nat>, versions: seq<nat>) {
    exists s | s in watched && s < |versions| :: versions[s] != watched[s]
  }

  /** Some entry of a recorded shard differs. */
  ghost predicate Touched(hash: Bytes -> nat, watched: map<nat, nat>, a: S.Store, b: S.Store) {
    exists k :: S.At(b, k) != S.At(a, k) && ShardOf(hash, k) in watched
  }

  /** What a performed command does to records: a changed entry in a recorded shard breaks
      them, and broken ones stay broken. */
  lemma RecordsAfter(hash: Bytes -> nat, place: Place, cmd: Command, w: World, envs: seq<S.Env>,
                     watched: map<nat, nat>, t: World)
    requires Calls(cmd) <= |envs| && RecordsHold(watched, w.versions) && t == Perform(hash, place, cmd, w, envs)
    ensures RecordsHold(watched, t.versions)
    ensures Touched(hash, watched, w.store, t.store) || Broken(watched, w.versions) ==> Broken(watched, t.versions)
  {
    PerformLogs(hash, place, cmd, w, envs);
    PerformAnnounces(hash, place, cmd, w, envs);
    RecordsAfterBumps(hash, w, watched, t);
  }

  lemma RecordsAfterBumps(hash: Bytes -> nat, w: World, watched: map<nat, nat>, t: World)
    requires RecordsHold(watched, w.versions) && Announced(hash, w, t) && |t.versions| == |w.versions|
    requires forall s | 0 <= s < |w.versions| :: w.versions[s] <= t.versions[s]
    ensures RecordsHold(watched, t.versions)
    ensures Touched(hash, watched, w.store, t.store) || Broken(watched, w.versions) ==> Broken(watched, t.versions)
  {
  }

  // ---- Routing ----

  /** The member that owns the command's key instead of this server. */
  ghost function OwnedElsewhere(place: Place, cmd: Command): Option<G.Node> {
    if place.Alone? || CommandKey(cmd).None? then None
    else
      var owner := G.Owner(place.cluster.ring, place.keyHash(CommandKey(cmd).value));
      if owner.None? || owner == Some(place.id) || owner.value !in place.cluster.nodes then None
      else Some(place.cluster.nodes[owner.value])
  }

  /** In a cluster whose points belong to known nodes, a command is sent away exactly when
      another member owns its key, and to that member; reads as well as writes. */
  lemma SentToTheOwner(place: Place, cmd: Command)
    requires place.Member? ==> G.Known(place.cluster)
    ensures Redirected(place, cmd) == OwnedElsewhere(place, cmd)
  {
    if place.Member? && CommandKey(cmd).Some? {
      var h := place.keyHash(CommandKey(cmd).value);
      if place.cluster.ring.Keys != {} { O.OnlyTheOwnerServes(place.cluster, place.id, h); }
    }
  }
}
