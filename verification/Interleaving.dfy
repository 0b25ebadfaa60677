/** WATCH/MULTI/EXEC among many connections, as interleaved steps: an ordinary
    write logs, bumps shard by shard, then makes its storage calls; a script makes
    its calls first and bumps afterwards; EXEC compares versions shard by shard. */
module Interleaving {
  import opened Primitives
  import opened Commands
  import opened Sharding
  import S = Store
  import E = Effects

  /** What a connection is in the middle of. */
  datatype Activity =
    | Idle
    | Bumping(cmd: Command, rest: seq<nat>)
    | Mutating(cmd: Command, parts: seq<Command>)
    | Scripting(calls: seq<Command>, touched: set<nat>)
    | Settling(writes: seq<Command>, rest: seq<nat>, unsettled: set<nat>)
    | Checking(unread: set<nat>)

  /** `watched` maps a shard to the version first seen; `todo` is what remains of
      a queue that EXEC is running. */
  datatype Conn = Conn(queue: Option<seq<Command>>, watched: map<nat, nat>, todo: seq<Command>, act: Activity)

  datatype State = State(store: S.Store, versions: seq<nat>, log: seq<Command>, conns: map<nat, Conn>)

  /** `is_tx_control`. */
  predicate IsControl(cmd: Command) {
    cmd.Multi? || cmd.Exec? || cmd.Discard? || cmd.Watch? || cmd.Unwatch?
  }

  function BumpSet(hash: Bytes -> nat, cmd: Command): set<nat> { set s | s in BumpList(hash, cmd) }

  // ---- Storage calls ----

  /** Commands whose storage calls depend on what they find under several keys. */
  predicate Compound(cmd: Command) { cmd.RPopLPush? || cmd.SMove? || cmd.Rename? || cmd.FlushAll? }

  /** The atomic storage calls of any other write, in order. */
  function Parts(cmd: Command): (r: seq<Command>) {
    if cmd.MSet? then
      seq(|cmd.pairs|, i requires 0 <= i < |cmd.pairs| => Command.Set(cmd.pairs[i].0, cmd.pairs[i].1, None))
    else if cmd.HMSet? then
      seq(|cmd.pairs|, i requires 0 <= i < |cmd.pairs| => HSet(cmd.key, cmd.pairs[i].0, cmd.pairs[i].1))
    else if OneSlot(cmd) then [cmd]
    else []
  }

  /** The command may change the entry of `k`. */
  predicate Names(cmd: Command, k: Bytes) { cmd.FlushAll? || k in E.Touches(cmd) }

  ghost predicate SameUnlessNamed(cmd: Command, a: S.Store, b: S.Store) {
    forall k | !Names(cmd, k) :: S.At(a, k) == S.At(b, k)
  }

  function LandAll(st: S.Store, parts: seq<Command>, env: S.Env): S.Store
    decreases |parts|
  {
    if parts == [] then st else LandAll(Live(parts[0], st, env), parts[1..], env)
  }

  lemma {:induction false} LandPairs(st: S.Store, pairs: seq<(Bytes, Bytes)>, env: S.Env)
    ensures LandAll(st, Parts(MSet(pairs)), env) == SetAll(st, pairs)
    decreases |pairs|
  {
    if pairs != [] {
      LandPairs(S.Put(st, pairs[0].0, S.SetString(pairs[0].1, None, 0)), pairs[1..], env);
      assert Parts(MSet(pairs))[1..] == Parts(MSet(pairs[1..]));
    }
  }

  lemma {:induction false} LandFields(st: S.Store, key: Bytes, pairs: seq<(Bytes, Bytes)>, env: S.Env)
    ensures LandAll(st, Parts(HMSet(key, pairs)), env) == S.Put(st, key, SetFields(S.At(st, key), pairs))
    decreases |pairs|
  {
    if pairs == [] {
      S.PutBack(st, key);
    } else {
      var slot := S.HSet(S.At(st, key), pairs[0].0, pairs[0].1);
      LandFields(S.Put(st, key, slot), key, pairs[1..], env);
      S.PutTwice(st, key, slot, SetFields(slot, pairs[1..]));
      LandFirstField(st, key, pairs, env);
    }
  }

  lemma LandFirstField(st: S.Store, key: Bytes, pairs: seq<(Bytes, Bytes)>, env: S.Env)
    requires pairs != []
    ensures LandAll(st, Parts(HMSet(key, pairs)), env)
         == LandAll(S.Put(st, key, S.HSet(S.At(st, key), pairs[0].0, pairs[0].1)), Parts(HMSet(key, pairs[1..])), env)
  {
    assert Parts(HMSet(key, pairs))[1..] == Parts(HMSet(key, pairs[1..]));
  }

  /** The steps do what the command is meant to do: its parts, landed one after the
      other, are its effect; and a compound command changes only keys it names. */
  lemma PartsAreTheEffect(cmd: Command, st: S.Store, env: S.Env)
    requires IsWrite(cmd)
    ensures !Compound(cmd) ==> LandAll(st, Parts(cmd), env) == Live(cmd, st, env)
    ensures SameUnlessNamed(cmd, st, Live(cmd, st, env))
  {
    if cmd.MSet? { LandPairs(st, cmd.pairs, env); }
    else if cmd.HMSet? {
      LandFields(st, cmd.key, cmd.pairs, env);
      FieldLoopsAgree(S.At(st, cmd.key), cmd.pairs);
    } else if OneSlot(cmd) {
      assert LandAll(st, [cmd], env) == LandAll(Live(cmd, st, env), [cmd][1..], env);
    }
    forall k | !Names(cmd, k) ensures S.At(st, k) == S.At(Live(cmd, st, env), k) {
      E.OutsideFootprint(cmd, st, env, k);
    }
  }

  /** What the scripting bridge lets a script write with. */
  predicate Bridged(cmd: Command) {
    || (cmd.Set? && cmd.ttlSecs == None) || cmd.Delete? || cmd.Incr? || cmd.Decr?
    || cmd.HSet? || cmd.LPush? || cmd.RPush? || cmd.SAdd?
  }

  // ---- Steps ----

  datatype Step =
    | Open(c: nat)
    | BeginWrite(c: nat, cmd: Command)
    | Bump(c: nat)
    | BumpsDone(c: nat)
    | Land(c: nat, env: S.Env)
    | Edit(c: nat, after: S.Store)
    | Finish(c: nat)
    | BeginScript(c: nat, cmd: Command)
    | ScriptCall(c: nat, call: Command, env: S.Env, recorded: bool)
    | EndScript(c: nat)
    | SettleLog(c: nat)
    | SettleBump(c: nat)
    | Skip(c: nat)
    | WatchKey(c: nat, key: Bytes)
    | ClearWatch(c: nat)
    | StartMulti(c: nat)
    | Enqueue(c: nat, cmd: Command)
    | DiscardMulti(c: nat)
    | BeginExec(c: nat)
    | CheckShard(c: nat, shard: nat)
    | PassExec(c: nat, queue: seq<Command>)

  function SetConn(s: State, c: nat, conn: Conn): State { s.(conns := s.conns[c := conn]) }

  /** The next command of `conn` may be taken from its client or its queue. */
  ghost predicate MayRun(conn: Conn, cmd: Command) {
    conn.act.Idle? && if conn.todo == [] then conn.queue == None else cmd == conn.todo[0]
  }

  function Dequeue(conn: Conn): Conn { if conn.todo == [] then conn else conn.(todo := conn.todo[1..]) }

  function BumpAt(versions: seq<nat>, s: nat): seq<nat> {
    if s < |versions| then versions[s := versions[s] + 1] else versions
  }

  ghost predicate Next(hash: Bytes -> nat, s: State, l: Step, t: State) {
    if l.Open? then l.c !in s.conns && t == SetConn(s, l.c, Conn(None, map[], [], Idle))
    else
      l.c in s.conns &&
      var conn := s.conns[l.c];
      match l
      case BeginWrite(c, cmd) => // one WAL entry, then the bumps
        IsWrite(cmd) && MayRun(conn, cmd) &&
        t == SetConn(s.(log := s.log + [cmd]), c, Dequeue(conn).(act := Bumping(cmd, BumpList(hash, cmd))))
      case Bump(c) =>
        conn.act.Bumping? && conn.act.rest != [] &&
        t == SetConn(s.(versions := BumpAt(s.versions, conn.act.rest[0])), c,
                     conn.(act := Bumping(conn.act.cmd, conn.act.rest[1..])))
      case BumpsDone(c) =>
        conn.act.Bumping? && conn.act.rest == [] &&
        t == SetConn(s, c, conn.(act := Mutating(conn.act.cmd, Parts(conn.act.cmd))))
      case Land(c, env) => // one atomic storage call
        conn.act.Mutating? && conn.act.parts != [] && S.Sane(env) &&
        t == SetConn(s.(store := Live(conn.act.parts[0], s.store, env)), c,
                     conn.(act := Mutating(conn.act.cmd, conn.act.parts[1..])))
      case Edit(c, after) => // some part of a compound command's effect
        conn.act.Mutating? && Compound(conn.act.cmd) && SameUnlessNamed(conn.act.cmd, s.store, after) &&
        t == s.(store := after)
      case Finish(c) => // HMSET stops early when it is refused
        conn.act.Mutating? && (conn.act.parts == [] || conn.act.cmd.HMSet?) &&
        t == SetConn(s, c, conn.(act := Idle))
      case BeginScript(c, cmd) =>
        cmd.Script? && MayRun(conn, cmd) && t == SetConn(s, c, Dequeue(conn).(act := Scripting([], {})))
      case ScriptCall(c, call, env, recorded) => // a call that changes something is recorded
        conn.act.Scripting? && Bridged(call) && S.Sane(env) && (recorded || Live(call, s.store, env) == s.store) &&
        t == SetConn(s.(store := Live(call, s.store, env)), c,
                     if recorded
                     then conn.(act := Scripting(conn.act.calls + [call], conn.act.touched + {ShardOf(hash, call.key)}))
                     else conn)
      case EndScript(c) =>
        conn.act.Scripting? &&
        t == SetConn(s, c, conn.(act := Settling(conn.act.calls, [], conn.act.touched)))
      case SettleLog(c) =>
        conn.act.Settling? && conn.act.rest == [] && conn.act.writes != [] &&
        t == SetConn(s.(log := s.log + [conn.act.writes[0]]), c,
                     conn.(act := Settling(conn.act.writes[1..], BumpList(hash, conn.act.writes[0]),
                                           conn.act.unsettled)))
      case SettleBump(c) =>
        conn.act.Settling? && conn.act.rest != [] &&
        t == SetConn(s.(versions := BumpAt(s.versions, conn.act.rest[0])), c,
                     conn.(act := Settling(conn.act.writes, conn.act.rest[1..],
                                           conn.act.unsettled - {conn.act.rest[0]})))
      case Skip(c) => // a read runs, or a script has settled
        (|| (conn.act.Idle? && t == SetConn(s, c, Dequeue(conn)))
         || (conn.act.Settling? && conn.act.rest == [] && conn.act.writes == [] &&
             t == SetConn(s, c, conn.(act := Idle))))
      case WatchKey(c, key) =>
        var shard := ShardOf(hash, key);
        conn.act.Idle? && conn.todo == [] && conn.queue == None && shard < |s.versions| &&
        t == SetConn(s, c, if shard in conn.watched then conn
                           else conn.(watched := conn.watched[shard := s.versions[shard]]))
      case ClearWatch(c) =>
        conn.act.Idle? && conn.todo == [] && t == SetConn(s, c, conn.(watched := map[]))
      case StartMulti(c) =>
        conn.act.Idle? && conn.todo == [] && conn.queue == None && t == SetConn(s, c, conn.(queue := Some([])))
      case Enqueue(c, cmd) =>
        conn.act.Idle? && conn.todo == [] && conn.queue.Some? && !IsControl(cmd) &&
        t == SetConn(s, c, conn.(queue := Some(conn.queue.value + [cmd])))
      case DiscardMulti(c) =>
        conn.act.Idle? && conn.todo == [] && conn.queue.Some? &&
        t == SetConn(s, c, conn.(queue := None, watched := map[]))
      case BeginExec(c) =>
        conn.act.Idle? && conn.todo == [] && conn.queue.Some? &&
        t == SetConn(s, c, conn.(act := Checking(conn.watched.Keys)))
      case CheckShard(c, shard) => // one version comparison; a difference aborts
        conn.act.Checking? && shard in conn.act.unread && shard in conn.watched && shard < |s.versions| &&
        t == SetConn(s, c, if s.versions[shard] == conn.watched[shard]
                           then conn.(act := Checking(conn.act.unread - {shard}))
                           else Conn(None, map[], [], Idle))
      case PassExec(c, queue) =>
        conn.act == Checking({}) && conn.queue == Some(queue) && t == SetConn(s, c, Conn(None, map[], queue, Idle))
  }

  /** Shards bumped on behalf of some writes. */
  ghost function Covered(hash: Bytes -> nat, writes: seq<Command>): set<nat> {
    if writes == [] then {} else BumpSet(hash, writes[0]) + Covered(hash, writes[1..])
  }

  // ---- Invariant of every run ----

  predicate Clean(cmds: seq<Command>) { forall i | 0 <= i < |cmds| :: !IsControl(cmds[i]) }

  ghost predicate ConnOk(hash: Bytes -> nat, versions: seq<nat>, conn: Conn) {
    && (forall s | s in conn.watched :: s < |versions| && conn.watched[s] <= versions[s])
    && Clean(conn.todo) && (conn.queue.Some? ==> Clean(conn.queue.value))
    && (conn.act.Scripting? ==> conn.act.touched <= Covered(hash, conn.act.calls))
    && CallsOk(conn.act)
    && (conn.act.Settling? ==> conn.act.unsettled <= (set s | s in conn.act.rest) + Covered(hash, conn.act.writes))
  }

  ghost predicate Inv(hash: Bytes -> nat, s: State) {
    |s.versions| == SHARD_COUNT && forall c | c in s.conns :: ConnOk(hash, s.versions, s.conns[c])
  }

  ghost predicate Init(s: State) {
    |s.versions| == SHARD_COUNT && s.conns == map[]
  }

  lemma VersionsOnlyGrow(hash: Bytes -> nat, s: State, l: Step, t: State)
    requires Next(hash, s, l, t)
    ensures |t.versions| == |s.versions|
    ensures forall i | 0 <= i < |s.versions| :: s.versions[i] <= t.versions[i]
    ensures forall i | 0 <= i < |s.versions| :: s.versions[i] < t.versions[i] <==> BumpsShard(s, l, i)
  {
  }

  /** The step increments the version of shard `i`. */
  ghost predicate BumpsShard(s: State, l: Step, i: nat) {
    && (l.Bump? || l.SettleBump?) && l.c in s.conns
    && var act := s.conns[l.c].act;
       (act.Bumping? || act.Settling?) && act.rest != [] && act.rest[0] == i
  }

  lemma ConnStaysOk(hash: Bytes -> nat, v: seq<nat>, w: seq<nat>, conn: Conn)
    requires ConnOk(hash, v, conn) && |v| == |w| && forall i | 0 <= i < |v| :: v[i] <= w[i]
    ensures ConnOk(hash, w, conn)
  {
  }

  lemma SettlerStaysOk(hash: Bytes -> nat, s: State, l: Step, t: State)
    requires Inv(hash, s) && Next(hash, s, l, t) && (l.Bump? || l.SettleLog? || l.SettleBump? || l.EndScript?)
    ensures l.c in t.conns && ConnOk(hash, t.versions, t.conns[l.c])
  {
    assert ConnOk(hash, s.versions, s.conns[l.c]);
    var act := s.conns[l.c].act;
    if l.SettleBump? { assert act.rest == [act.rest[0]] + act.rest[1..]; }
  }

  lemma {:induction false} CoveredGrows(hash: Bytes -> nat, calls: seq<Command>, call: Command)
    ensures Covered(hash, calls + [call]) == Covered(hash, calls) + BumpSet(hash, call)
  {
    if calls == [] {
      assert [call][1..] == [];
    } else {
      CoveredGrows(hash, calls[1..], call);
      assert (calls + [call])[1..] == calls[1..] + [call];
    }
  }

  lemma CallerStaysOk(hash: Bytes -> nat, s: State, l: Step, t: State)
    requires Inv(hash, s) && Next(hash, s, l, t) && l.ScriptCall?
    ensures l.c in t.conns && ConnOk(hash, t.versions, t.conns[l.c])
  {
    assert ConnOk(hash, s.versions, s.conns[l.c]);
    CoveredGrows(hash, s.conns[l.c].act.calls, l.call);
    assert BumpList(hash, l.call)[0] == ShardOf(hash, l.call.key);
  }

  lemma ActorStaysOk(hash: Bytes -> nat, s: State, l: Step, t: State)
    requires Inv(hash, s) && Next(hash, s, l, t)
    ensures l.c in t.conns && ConnOk(hash, t.versions, t.conns[l.c])
  {
    if l.Bump? || l.SettleLog? || l.SettleBump? || l.EndScript? { SettlerStaysOk(hash, s, l, t); }
    else if l.ScriptCall? { CallerStaysOk(hash, s, l, t); }
    else if !l.Open? { assert ConnOk(hash, s.versions, s.conns[l.c]); }
  }

  lemma OthersUntouched(hash: Bytes -> nat, s: State, l: Step, t: State)
    requires Next(hash, s, l, t)
    ensures forall c | c in t.conns && c != l.c :: c in s.conns && t.conns[c] == s.conns[c]
    ensures forall c | c in s.conns :: c in t.conns
  {
  }

  lemma NextKeepsInv(hash: Bytes -> nat, s: State, l: Step, t: State)
    requires Inv(hash, s) && Next(hash, s, l, t)
    ensures Inv(hash, t)
  {
    VersionsOnlyGrow(hash, s, l, t);
    ActorStaysOk(hash, s, l, t);
    forall c | c in t.conns ensures ConnOk(hash, t.versions, t.conns[c]) {
      if c != l.c { OtherStaysOk(hash, s, l, t, c); }
    }
  }

  lemma OtherStaysOk(hash: Bytes -> nat, s: State, l: Step, t: State, c: nat)
    requires Inv(hash, s) && Next(hash, s, l, t) && c in t.conns && c != l.c
    ensures ConnOk(hash, t.versions, t.conns[c])
  {
    VersionsOnlyGrow(hash, s, l, t);
    OthersUntouched(hash, s, l, t);
    ConnStaysOk(hash, s.versions, t.versions, s.conns[c]);
  }

  // ---- Runs ----

  /** A run: states and the steps between them. */
  datatype Run = Run(states: seq<State>, steps: seq<Step>)

  ghost predicate IsRun(hash: Bytes -> nat, r: Run) {
    && |r.states| == |r.steps| + 1 && Init(r.states[0])
    && forall i | 0 <= i < |r.steps| :: Taken(hash, r, i)
  }

  ghost predicate Taken(hash: Bytes -> nat, r: Run, i: nat)
    requires i < |r.steps| && |r.states| == |r.steps| + 1
  {
    Next(hash, r.states[i], r.steps[i], r.states[i + 1])
  }

  /** In every reachable state no recorded version exceeds the current one, and
      neither a queue nor what EXEC is running holds a control command. */
  lemma {:induction false} RunKeepsInv(hash: Bytes -> nat, r: Run, i: nat)
    requires IsRun(hash, r) && i < |r.states|
    ensures Inv(hash, r.states[i])
  {
    if i > 0 {
      RunKeepsInv(hash, r, i - 1);
      assert Taken(hash, r, i - 1);
      NextKeepsInv(hash, r.states[i - 1], r.steps[i - 1], r.states[i]);
    }
  }

  // ---- Who may still change a key without bumping its shard again ----

  /** The storage call would change the entry `slot` of `key`. */
  ghost predicate Changes(part: Command, key: Bytes, slot: S.Slot) {
    OneSlot(part) && part.key == key && exists env :: S.Sane(env) && LiveSlot(part, slot, env) != slot
  }

  function Ahead(act: Activity): seq<Command> {
    if act.Bumping? then Parts(act.cmd) else if act.Mutating? then act.parts else []
  }

  ghost predicate Threatens(act: Activity, key: Bytes, slot: S.Slot) {
    && (act.Bumping? || act.Mutating?)
    && (|| (Compound(act.cmd) && Names(act.cmd, key))
        || exists i | 0 <= i < |Ahead(act)| :: Changes(Ahead(act)[i], key, slot))
  }

  /** A write that has bumped `shard` for the last time, if it bumps it at all. */
  predicate PastBumps(act: Activity, shard: nat) { act.Mutating? || (act.Bumping? && shard !in act.rest) }

  /** Past its bumps of the key's shard, and about to change the entry `slot` of the key. */
  ghost predicate Armed(hash: Bytes -> nat, conn: Conn, key: Bytes, slot: S.Slot) {
    PastBumps(conn.act, ShardOf(hash, key)) && Threatens(conn.act, key, slot)
  }

  ghost predicate NoneArmed(hash: Bytes -> nat, s: State, key: Bytes, slot: S.Slot) {
    forall d | d in s.conns :: !Armed(hash, s.conns[d], key, slot)
  }

  /** A script that has changed `shard` and has not bumped it yet. */
  ghost predicate Unsettled(conn: Conn, shard: nat) {
    (conn.act.Scripting? && shard in conn.act.touched) || (conn.act.Settling? && shard in conn.act.unsettled)
  }

  ghost predicate AllSettled(s: State, shard: nat) {
    forall d | d in s.conns :: !Unsettled(s.conns[d], shard)
  }

  /** Nobody is about to change the key unannounced, or some script still owes a bump
      that will give the change away. */
  ghost predicate SafeToWatch(hash: Bytes -> nat, s: State, key: Bytes) {
    NoneArmed(hash, s, key, S.At(s.store, key)) || !AllSettled(s, ShardOf(hash, key))
  }

  /** As long as `c`'s recorded version is current, `key` holds `entry` and nobody is
      about to change that, unless a script has changed the shard and not owned up yet. */
  ghost predicate Guarded(hash: Bytes -> nat, s: State, c: nat, key: Bytes, entry: S.Slot) {
    var shard := ShardOf(hash, key);
    c in s.conns && shard in s.conns[c].watched && shard < |s.versions| &&
    (s.versions[shard] == s.conns[c].watched[shard] ==>
       !AllSettled(s, shard) || (S.At(s.store, key) == entry && NoneArmed(hash, s, key, entry)))
  }

  lemma WatchGuards(hash: Bytes -> nat, s: State, c: nat, key: Bytes, t: State)
    requires Inv(hash, s) && Next(hash, s, WatchKey(c, key), t) && NoneArmed(hash, s, key, S.At(s.store, key))
    ensures Guarded(hash, t, c, key, S.At(s.store, key))
  {
    forall d | d in t.conns ensures !Armed(hash, t.conns[d], key, S.At(s.store, key)) {
      assert !Armed(hash, s.conns[d], key, S.At(s.store, key));
    }
  }

  /** Steps by which `c` forgets what it watched. */
  ghost predicate Forgets(l: Step, c: nat) {
    l.c == c && (l.ClearWatch? || l.DiscardMulti? || l.PassExec?)
  }

  /** Whatever a write threatens lies in a shard it bumps. */
  lemma ThreatIsBumped(hash: Bytes -> nat, cmd: Command, key: Bytes, slot: S.Slot)
    requires IsWrite(cmd) && Threatens(Bumping(cmd, BumpList(hash, cmd)), key, slot)
    ensures ShardOf(hash, key) in BumpList(hash, cmd)
  {
    var list := BumpList(hash, cmd);
    if cmd.FlushAll? { assert list[ShardOf(hash, key)] == ShardOf(hash, key); }
    else if Compound(cmd) { assert list[0] == ShardOf(hash, key) || list[1] == ShardOf(hash, key); }
    else {
      var i :| 0 <= i < |Parts(cmd)| && Changes(Parts(cmd)[i], key, slot);
      if cmd.MSet? { assert list[i] == ShardOf(hash, key); } else { assert list[0] == ShardOf(hash, key); }
    }
  }

  /** Fewer calls ahead threaten no more. */
  lemma ThreatShrinks(cmd: Command, parts: seq<Command>, key: Bytes, slot: S.Slot)
    requires parts != [] && Threatens(Mutating(cmd, parts[1..]), key, slot)
    ensures Threatens(Mutating(cmd, parts), key, slot)
  {
    if !(Compound(cmd) && Names(cmd, key)) {
      var i :| 0 <= i < |parts[1..]| && Changes(parts[1..][i], key, slot);
      assert Changes(Ahead(Mutating(cmd, parts))[i + 1], key, slot);
    }
  }

  lemma SameThreat(a: Activity, b: Activity, key: Bytes, slot: S.Slot)
    requires (a.Bumping? || a.Mutating?) && (b.Bumping? || b.Mutating?) && a.cmd == b.cmd && Ahead(a) == Ahead(b)
    ensures Threatens(a, key, slot) == Threatens(b, key, slot)
  {
  }

  lemma ActorStaysUnarmed(hash: Bytes -> nat, s: State, l: Step, t: State, key: Bytes, slot: S.Slot)
    requires Next(hash, s, l, t) && !BumpsShard(s, l, ShardOf(hash, key)) && l.c in t.conns
    requires l.c in s.conns ==> !Armed(hash, s.conns[l.c], key, slot)
    ensures !Armed(hash, t.conns[l.c], key, slot)
  {
    if Armed(hash, t.conns[l.c], key, slot) {
      var act, now := s.conns[l.c].act, t.conns[l.c].act;
      if l.BeginWrite? { ThreatIsBumped(hash, l.cmd, key, slot); }
      else if l.Bump? { assert act.rest == [act.rest[0]] + act.rest[1..]; SameThreat(act, now, key, slot); }
      else if l.Land? { ThreatShrinks(act.cmd, act.parts, key, slot); }
      else if l.BumpsDone? { SameThreat(act, now, key, slot); }
      assert false;
    }
  }

  lemma NoneBecomesArmed(hash: Bytes -> nat, s: State, l: Step, t: State, key: Bytes, slot: S.Slot)
    requires Next(hash, s, l, t) && NoneArmed(hash, s, key, slot) && !BumpsShard(s, l, ShardOf(hash, key))
    ensures NoneArmed(hash, t, key, slot)
  {
    OthersUntouched(hash, s, l, t);
    forall d | d in t.conns ensures !Armed(hash, t.conns[d], key, slot) {
      if d == l.c { ActorStaysUnarmed(hash, s, l, t, key, slot); }
    }
  }

  lemma ActorStaysUnsettled(hash: Bytes -> nat, s: State, l: Step, t: State, shard: nat)
    requires Next(hash, s, l, t) && !BumpsShard(s, l, shard) && l.c in s.conns && l.c in t.conns
    requires ConnOk(hash, s.versions, s.conns[l.c]) && Unsettled(s.conns[l.c], shard)
    ensures Unsettled(t.conns[l.c], shard)
  {
    var act := s.conns[l.c].act;
    if l.SettleBump? { assert act.rest[0] != shard; }
  }

  /** A script that owes a bump of `shard` owes it until someone bumps it. */
  lemma UnsettledStays(hash: Bytes -> nat, s: State, l: Step, t: State, shard: nat)
    requires Inv(hash, s) && Next(hash, s, l, t) && !BumpsShard(s, l, shard) && !AllSettled(s, shard)
    ensures !AllSettled(t, shard)
  {
    OthersUntouched(hash, s, l, t);
    var d :| d in s.conns && Unsettled(s.conns[d], shard);
    assert d in t.conns;
    if d == l.c { ActorStaysUnsettled(hash, s, l, t, shard); }
    assert Unsettled(t.conns[d], shard);
  }

  /** Storage calls are on one key each. */
  ghost predicate CallsOk(act: Activity) { act.Mutating? ==> forall i | 0 <= i < |act.parts| :: OneSlot(act.parts[i]) }

  lemma PartsAreCalls(cmd: Command)
    ensures forall i | 0 <= i < |Parts(cmd)| :: OneSlot(Parts(cmd)[i])
  {
  }

  lemma LandingIsHarmless(act: Activity, st: S.Store, env: S.Env, key: Bytes)
    requires act.Mutating? && CallsOk(act) && act.parts != [] && S.Sane(env) && !Threatens(act, key, S.At(st, key))
    ensures S.At(Live(act.parts[0], st, env), key) == S.At(st, key)
  {
    var part := act.parts[0];
    assert Ahead(act)[0] == part && !Changes(part, key, S.At(st, key));
    if part.key != key { E.PutElsewhere(st, part.key, LiveSlot(part, S.At(st, part.key), env), key); }
  }

  /** The entry of a key changes only under a write armed for it or under a script that
      is unsettled on its shard afterwards. */
  lemma ChangeIsAnnounced(hash: Bytes -> nat, s: State, l: Step, t: State, key: Bytes)
    requires Inv(hash, s) && Next(hash, s, l, t) && NoneArmed(hash, s, key, S.At(s.store, key))
    ensures S.At(t.store, key) == S.At(s.store, key) || !AllSettled(t, ShardOf(hash, key))
  {
    if l.Land? {
      assert ConnOk(hash, s.versions, s.conns[l.c]) && !Armed(hash, s.conns[l.c], key, S.At(s.store, key));
      LandingIsHarmless(s.conns[l.c].act, s.store, l.env, key);
    } else if l.Edit? {
      assert !Armed(hash, s.conns[l.c], key, S.At(s.store, key));
    } else if l.ScriptCall? {
      CallIsAnnounced(hash, s, l, t, key);
    }
  }

  lemma CallIsAnnounced(hash: Bytes -> nat, s: State, l: Step, t: State, key: Bytes)
    requires Next(hash, s, l, t) && l.ScriptCall?
    ensures S.At(t.store, key) == S.At(s.store, key) || !AllSettled(t, ShardOf(hash, key))
  {
    if l.call.key != key {
      E.PutElsewhere(s.store, l.call.key, LiveSlot(l.call, S.At(s.store, l.call.key), l.env), key);
    } else if l.recorded {
      assert Unsettled(t.conns[l.c], ShardOf(hash, key));
    }
  }

  lemma NextKeepsGuarded(hash: Bytes -> nat, s: State, l: Step, t: State, c: nat, key: Bytes, entry: S.Slot)
    requires Inv(hash, s) && Next(hash, s, l, t) && Guarded(hash, s, c, key, entry)
    requires !Forgets(l, c) && c in t.conns && ShardOf(hash, key) in t.conns[c].watched
    ensures Guarded(hash, t, c, key, entry)
  {
    var shard := ShardOf(hash, key);
    VersionsOnlyGrow(hash, s, l, t);
    assert ConnOk(hash, s.versions, s.conns[c]);
    assert t.conns[c].watched[shard] == s.conns[c].watched[shard];
    if !BumpsShard(s, l, shard) && s.versions[shard] == s.conns[c].watched[shard] {
      if !AllSettled(s, shard) {
        UnsettledStays(hash, s, l, t, shard);
      } else {
        NoneBecomesArmed(hash, s, l, t, key, entry);
        ChangeIsAnnounced(hash, s, l, t, key);
      }
    }
  }

  /** `c` keeps its record of `shard` from state `i` to state `j`. */
  ghost predicate StillWatching(r: Run, c: nat, shard: nat, i: nat, j: nat)
    requires j < |r.states|
  {
    forall m | i <= m <= j :: c in r.states[m].conns && shard in r.states[m].conns[c].watched &&
                              (m < j ==> m < |r.steps| && !Forgets(r.steps[m], c))
  }

  lemma WatchedMeanwhile(hash: Bytes -> nat, r: Run, c: nat, shard: nat, i: nat, j: nat)
    requires IsRun(hash, r) && i < j < |r.states| && StillWatching(r, c, shard, i, j)
    ensures StillWatching(r, c, shard, i, j - 1)
    ensures c in r.states[j].conns && shard in r.states[j].conns[c].watched && !Forgets(r.steps[j - 1], c)
    ensures Next(hash, r.states[j - 1], r.steps[j - 1], r.states[j])
  {
    assert Taken(hash, r, j - 1);
    assert c in r.states[j - 1].conns;
  }

  lemma GuardedOneMore(hash: Bytes -> nat, r: Run, c: nat, key: Bytes, entry: S.Slot, i: nat, j: nat)
    requires IsRun(hash, r) && i < j < |r.states| && StillWatching(r, c, ShardOf(hash, key), i, j)
    requires Guarded(hash, r.states[j - 1], c, key, entry)
    ensures Guarded(hash, r.states[j], c, key, entry)
  {
    WatchedMeanwhile(hash, r, c, ShardOf(hash, key), i, j);
    RunKeepsInv(hash, r, j - 1);
    NextKeepsGuarded(hash, r.states[j - 1], r.steps[j - 1], r.states[j], c, key, entry);
  }

  lemma {:induction false} GuardedAlong(hash: Bytes -> nat, r: Run, c: nat, key: Bytes, entry: S.Slot, i: nat, j: nat)
    requires IsRun(hash, r) && i <= j < |r.states| && StillWatching(r, c, ShardOf(hash, key), i, j)
    requires Guarded(hash, r.states[i], c, key, entry)
    ensures Guarded(hash, r.states[j], c, key, entry)
    decreases j - i
  {
    if i < j {
      WatchedMeanwhile(hash, r, c, ShardOf(hash, key), i, j);
      GuardedAlong(hash, r, c, key, entry, i, j - 1);
      GuardedOneMore(hash, r, c, key, entry, i, j);
    }
  }

  /** The version `c` recorded for `shard` is still the current one. */
  ghost predicate Matches(s: State, c: nat, shard: nat) {
    && c in s.conns && shard in s.conns[c].watched && shard < |s.versions|
    && s.versions[shard] == s.conns[c].watched[shard]
  }

  lemma UnsettledOneMore(hash: Bytes -> nat, r: Run, shard: nat, m: nat)
    requires IsRun(hash, r) && m < |r.steps| && !AllSettled(r.states[m], shard)
    requires !BumpsShard(r.states[m], r.steps[m], shard)
    ensures !AllSettled(r.states[m + 1], shard)
  {
    RunKeepsInv(hash, r, m);
    assert Taken(hash, r, m);
    UnsettledStays(hash, r.states[m], r.steps[m], r.states[m + 1], shard);
  }

  lemma {:induction false} UnsettledAlong(hash: Bytes -> nat, r: Run, shard: nat, i: nat, j: nat)
    requires IsRun(hash, r) && i <= j < |r.states| && !AllSettled(r.states[i], shard)
    requires forall m | i <= m < j :: !BumpsShard(r.states[m], r.steps[m], shard)
    ensures !AllSettled(r.states[j], shard)
    decreases j - i
  {
    if i < j {
      UnsettledAlong(hash, r, shard, i, j - 1);
      UnsettledOneMore(hash, r, shard, j - 1);
    }
  }

  lemma WatchRecords(hash: Bytes -> nat, s: State, c: nat, key: Bytes, t: State)
    requires Inv(hash, s) && Next(hash, s, WatchKey(c, key), t)
    ensures c in t.conns && ShardOf(hash, key) in t.conns[c].watched && ShardOf(hash, key) < |s.versions|
    ensures t.conns[c].watched[ShardOf(hash, key)] <= s.versions[ShardOf(hash, key)]
  {
    assert ConnOk(hash, s.versions, s.conns[c]);
  }

  /** A standing record that is still current: nobody bumped the shard since the WATCH. */
  lemma MatchMeansNoBump(hash: Bytes -> nat, r: Run, c: nat, key: Bytes, i: nat, j: nat)
    requires IsRun(hash, r) && i < j < |r.states| && r.steps[i] == WatchKey(c, key)
    requires StillWatching(r, c, ShardOf(hash, key), i + 1, j) && Matches(r.states[j], c, ShardOf(hash, key))
    ensures forall m | i <= m < j :: !BumpsShard(r.states[m], r.steps[m], ShardOf(hash, key))
  {
    RunKeepsInv(hash, r, i);
    assert Taken(hash, r, i);
    WatchRecords(hash, r.states[i], c, key, r.states[i + 1]);
    RecordStands(hash, r, c, ShardOf(hash, key), i + 1, j);
    VersionsAlong(hash, r, ShardOf(hash, key), i, j);
  }

  /** Optimistic concurrency, in every interleaving: if step `i` watches a key and,
      with the watch still standing, EXEC's comparison of its shard at state `j`
      finds the recorded version, then the key holds the entry it held when it was
      watched, given that no script was between changing and bumping the shard at
      the check, and that at the WATCH either no write was past its bumps of the shard
      and about to change the key, or some script still owed the shard a bump. */
  lemma PassedCheckMeansUnchanged(hash: Bytes -> nat, r: Run, c: nat, key: Bytes, i: nat, j: nat)
    requires IsRun(hash, r) && i < j < |r.steps| && r.steps[i] == WatchKey(c, key)
    requires r.steps[j] == CheckShard(c, ShardOf(hash, key))
    requires StillWatching(r, c, ShardOf(hash, key), i + 1, j)
    requires Matches(r.states[j], c, ShardOf(hash, key))
    requires SafeToWatch(hash, r.states[i], key)
    requires AllSettled(r.states[j], ShardOf(hash, key))
    ensures S.At(r.states[j].store, key) == S.At(r.states[i].store, key)
  {
    MatchMeansNoBump(hash, r, c, key, i, j);
    if !AllSettled(r.states[i], ShardOf(hash, key)) {
      UnsettledAlong(hash, r, ShardOf(hash, key), i, j);
      assert false;
    }
    GuardedSinceWatch(hash, r, c, key, i, j);
  }

  lemma GuardedSinceWatch(hash: Bytes -> nat, r: Run, c: nat, key: Bytes, i: nat, j: nat)
    requires IsRun(hash, r) && i < j < |r.states| && r.steps[i] == WatchKey(c, key)
    requires StillWatching(r, c, ShardOf(hash, key), i + 1, j)
    requires NoneArmed(hash, r.states[i], key, S.At(r.states[i].store, key))
    ensures Guarded(hash, r.states[j], c, key, S.At(r.states[i].store, key))
  {
    RunKeepsInv(hash, r, i);
    assert Taken(hash, r, i);
    WatchGuards(hash, r.states[i], c, key, r.states[i + 1]);
    GuardedAlong(hash, r, c, key, S.At(r.states[i].store, key), i + 1, j);
  }

  // ---- A whole EXEC ----

  /** `b` is the EXEC of `c` that is still comparing at state `j`. */
  ghost predicate ExecSince(hash: Bytes -> nat, r: Run, c: nat, b: nat, j: nat) {
    && IsRun(hash, r) && b < j < |r.states| && r.steps[b] == BeginExec(c)
    && (forall m | b < m < j :: r.steps[m] != BeginExec(c))
    && c in r.states[j].conns && r.states[j].conns[c].act.Checking?
  }

  /** Somewhere between `b` and `j`, `c` compared `shard` and found its record current. */
  ghost predicate ComparedBetween(r: Run, c: nat, shard: nat, b: nat, j: nat)
    requires j <= |r.steps| && j <= |r.states|
  {
    exists m | b < m < j :: r.steps[m] == CheckShard(c, shard) && Matches(r.states[m], c, shard)
  }

  lemma ExecBegins(hash: Bytes -> nat, s: State, t: State, c: nat)
    requires Next(hash, s, BeginExec(c), t)
    ensures c in s.conns && c in t.conns && t.conns[c].watched == s.conns[c].watched
    ensures t.conns[c].act == Checking(s.conns[c].watched.Keys)
  {
  }

  /** A step under which `c` goes on comparing: it keeps its records, and ticks off
      a shard only by a comparison that found them current. */
  ghost predicate KeepsComparing(s: State, l: Step, t: State, c: nat) {
    && c in s.conns && c in t.conns && s.conns[c].act.Checking? && t.conns[c].act.Checking?
    && t.conns[c].watched == s.conns[c].watched && !Forgets(l, c)
    && forall shard | shard in s.conns[c].act.unread && shard !in t.conns[c].act.unread ::
         l == CheckShard(c, shard) && Matches(s, c, shard)
  }

  lemma ComparingStep(hash: Bytes -> nat, s: State, l: Step, t: State, c: nat)
    requires Next(hash, s, l, t) && l != BeginExec(c) && c in t.conns && t.conns[c].act.Checking?
    ensures KeepsComparing(s, l, t, c)
  {
    if l.c == c { ComparersStep(hash, s, l, t); } else { OthersUntouched(hash, s, l, t); }
  }

  lemma ComparersStep(hash: Bytes -> nat, s: State, l: Step, t: State)
    requires Next(hash, s, l, t) && !l.BeginExec? && l.c in t.conns && t.conns[l.c].act.Checking?
    ensures KeepsComparing(s, l, t, l.c)
  {
  }

  ghost predicate ComparingAlong(r: Run, c: nat, b: nat, j: nat) {
    && |r.states| == |r.steps| + 1 && b < j < |r.states|
    && forall m | b < m < j :: KeepsComparing(r.states[m], r.steps[m], r.states[m + 1], c)
  }

  lemma ExecOneBack(hash: Bytes -> nat, r: Run, c: nat, b: nat, j: nat)
    requires ExecSince(hash, r, c, b, j) && b < j - 1
    ensures KeepsComparing(r.states[j - 1], r.steps[j - 1], r.states[j], c)
    ensures ExecSince(hash, r, c, b, j - 1)
  {
    assert Taken(hash, r, j - 1);
    ComparingStep(hash, r.states[j - 1], r.steps[j - 1], r.states[j], c);
  }

  lemma OneMoreCompared(r: Run, c: nat, b: nat, j: nat)
    requires b < j - 1 && j < |r.states| && ComparingAlong(r, c, b, j - 1)
    requires KeepsComparing(r.states[j - 1], r.steps[j - 1], r.states[j], c)
    ensures ComparingAlong(r, c, b, j)
  {
    forall m | b < m < j ensures KeepsComparing(r.states[m], r.steps[m], r.states[m + 1], c) {
      if m < j - 1 { assert m + 1 <= j - 1; }
    }
  }

  lemma {:induction false} ExecIsComparing(hash: Bytes -> nat, r: Run, c: nat, b: nat, j: nat)
    requires ExecSince(hash, r, c, b, j)
    ensures ComparingAlong(r, c, b, j)
    ensures c in r.states[b + 1].conns && r.states[b + 1].conns[c].act.Checking?
    decreases j - b
  {
    if b < j - 1 {
      ExecOneBack(hash, r, c, b, j);
      ExecIsComparing(hash, r, c, b, j - 1);
      OneMoreCompared(r, c, b, j);
    }
  }

  /** Comparing neither drops nor alters a record, and what is no longer unread
      was compared. */
  lemma {:induction false} ExecCompares(r: Run, c: nat, shard: nat, b: nat, j: nat)
    requires ComparingAlong(r, c, b, j) && c in r.states[b + 1].conns && r.states[b + 1].conns[c].act.Checking?
    requires shard in r.states[b + 1].conns[c].watched && shard in r.states[b + 1].conns[c].act.unread
    ensures StillWatching(r, c, shard, b + 1, j)
    ensures c in r.states[j].conns && r.states[j].conns[c].act.Checking?
    ensures shard in r.states[j].conns[c].act.unread || ComparedBetween(r, c, shard, b, j)
    decreases j - b
  {
    if b < j - 1 {
      assert KeepsComparing(r.states[j - 1], r.steps[j - 1], r.states[j], c);
      ExecCompares(r, c, shard, b, j - 1);
    }
  }

  lemma ExecComparesAll(hash: Bytes -> nat, r: Run, c: nat, shard: nat, b: nat, j: nat)
    requires ExecSince(hash, r, c, b, j)
    requires c in r.states[b].conns && shard in r.states[b].conns[c].watched
    ensures StillWatching(r, c, shard, b, j)
    ensures c in r.states[j].conns && r.states[j].conns[c].act.Checking?
    ensures shard in r.states[j].conns[c].act.unread || ComparedBetween(r, c, shard, b, j)
  {
    ExecIsComparing(hash, r, c, b, j);
    assert Taken(hash, r, b);
    ExecBegins(hash, r.states[b], r.states[b + 1], c);
    ExecCompares(r, c, shard, b, j);
  }

  lemma WatchedAcross(r: Run, c: nat, shard: nat, i: nat, b: nat, j: nat, m: nat)
    requires i <= b <= m <= j < |r.states|
    requires StillWatching(r, c, shard, i, b) && StillWatching(r, c, shard, b, j)
    ensures StillWatching(r, c, shard, i, m)
  {
  }

  /** An EXEC that goes on to run its queue has compared every watched key's shard,
      and at that comparison, unless a script had just changed the shard and owed it
      a bump, the key held the entry it held when it was watched. */
  lemma PassedExecMeansUnchanged(hash: Bytes -> nat, r: Run, c: nat, key: Bytes, i: nat, b: nat, p: nat,
                                 queue: seq<Command>)
    requires ExecSince(hash, r, c, b, p) && p < |r.steps| && r.steps[p] == PassExec(c, queue)
    requires i < b && r.steps[i] == WatchKey(c, key)
    requires StillWatching(r, c, ShardOf(hash, key), i + 1, b)
    requires SafeToWatch(hash, r.states[i], key)
    ensures exists m | b < m < p :: r.steps[m] == CheckShard(c, ShardOf(hash, key)) &&
              (AllSettled(r.states[m], ShardOf(hash, key)) ==>
                 S.At(r.states[m].store, key) == S.At(r.states[i].store, key))
  {
    var shard := ShardOf(hash, key);
    assert c in r.states[b].conns && shard in r.states[b].conns[c].watched;
    assert Taken(hash, r, p);
    ExecComparesAll(hash, r, c, shard, b, p);
    var m :| b < m < p && r.steps[m] == CheckShard(c, shard) && Matches(r.states[m], c, shard);
    WatchedAcross(r, c, shard, i + 1, b, p, m);
    if AllSettled(r.states[m], shard) { PassedCheckMeansUnchanged(hash, r, c, key, i, m); }
  }

  // ---- The check is exact ----

  lemma {:induction false} VersionsAlong(hash: Bytes -> nat, r: Run, shard: nat, i: nat, j: nat)
    requires IsRun(hash, r) && i <= j < |r.states| && shard < SHARD_COUNT
    ensures |r.states[i].versions| == |r.states[j].versions| == SHARD_COUNT
    ensures r.states[i].versions[shard] <= r.states[j].versions[shard]
    ensures r.states[i].versions[shard] == r.states[j].versions[shard]
       <==> forall m | i <= m < j :: !BumpsShard(r.states[m], r.steps[m], shard)
    decreases j - i
  {
    RunKeepsInv(hash, r, j);
    if i < j {
      VersionsAlong(hash, r, shard, i, j - 1);
      assert Taken(hash, r, j - 1);
      VersionsOnlyGrow(hash, r.states[j - 1], r.steps[j - 1], r.states[j]);
    } else {
      RunKeepsInv(hash, r, i);
    }
  }

  lemma {:induction false} RecordStands(hash: Bytes -> nat, r: Run, c: nat, shard: nat, i: nat, j: nat)
    requires IsRun(hash, r) && i <= j < |r.states| && StillWatching(r, c, shard, i, j)
    ensures r.states[j].conns[c].watched[shard] == r.states[i].conns[c].watched[shard]
    decreases j - i
  {
    if i < j {
      WatchedMeanwhile(hash, r, c, shard, i, j);
      RecordStands(hash, r, c, shard, i, j - 1);
    }
  }

  /** EXEC's comparison finds a difference exactly when the shard was bumped after
      the WATCH that recorded it, by whichever connection. */
  lemma CheckFailsIffBumped(hash: Bytes -> nat, r: Run, c: nat, key: Bytes, i: nat, j: nat)
    requires IsRun(hash, r) && i < j < |r.states| && r.steps[i] == WatchKey(c, key)
    requires c in r.states[i].conns && ShardOf(hash, key) !in r.states[i].conns[c].watched
    requires StillWatching(r, c, ShardOf(hash, key), i + 1, j)
    ensures !Matches(r.states[j], c, ShardOf(hash, key))
       <==> exists m | i < m < j :: BumpsShard(r.states[m], r.steps[m], ShardOf(hash, key))
  {
    var shard := ShardOf(hash, key);
    assert Taken(hash, r, i);
    VersionsAlong(hash, r, shard, i + 1, j);
    RecordStands(hash, r, c, shard, i + 1, j);
  }
}
