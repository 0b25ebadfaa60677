/** How far the optimistic-concurrency theorem reaches: from which states EXEC's
    comparison can pass although the watched key has changed. */
module InterleavingLimits {
  import opened Primitives
  import opened Commands
  import opened Sharding
  import opened Interleaving
  import S = Store
  import E = Effects

  // ---- Runs and their continuations ----

  ghost function Last(r: Run): State
    requires r.states != []
  {
    r.states[|r.states| - 1]
  }

  ghost predicate Continues(q: Run, r: Run) { r.states <= q.states && r.steps <= q.steps }

  function Grown(r: Run, l: Step, t: State): Run { Run(r.states + [t], r.steps + [l]) }

  lemma GrownIsRun(hash: Bytes -> nat, r: Run, l: Step, t: State)
    requires IsRun(hash, r) && Next(hash, Last(r), l, t)
    ensures IsRun(hash, Grown(r, l, t)) && Last(Grown(r, l, t)) == t && Continues(Grown(r, l, t), r)
  {
    var q := Grown(r, l, t);
    forall i | 0 <= i < |q.steps| ensures Taken(hash, q, i) {
      if i < |r.steps| { assert Taken(hash, r, i); }
    }
  }

  // ---- Slipping through ----

  /** `c` may WATCH a key of `shard`, and has no record of that shard. */
  ghost predicate MayWatch(s: State, c: nat, shard: nat) {
    && c in s.conns && s.conns[c].act.Idle? && s.conns[c].todo == [] && s.conns[c].queue == None
    && shard !in s.conns[c].watched
  }

  /** Step `i` watches the key, the comparison at `j` passes, and the key has changed. */
  ghost predicate Slips(hash: Bytes -> nat, r: Run, c: nat, key: Bytes, i: nat, j: nat) {
    var shard := ShardOf(hash, key);
    && IsRun(hash, r) && i < j < |r.steps|
    && r.steps[i] == WatchKey(c, key) && r.steps[j] == CheckShard(c, shard)
    && StillWatching(r, c, shard, i + 1, j) && Matches(r.states[j], c, shard)
    && S.At(r.states[j].store, key) != S.At(r.states[i].store, key)
  }

  /** `q` continues `r` with a WATCH whose record stands and is still current. */
  ghost predicate OnCourse(hash: Bytes -> nat, r: Run, q: Run, c: nat, key: Bytes) {
    && IsRun(hash, q) && Continues(q, r) && r.states != [] && |r.steps| < |q.steps|
    && |r.states| == |r.steps| + 1 && q.steps[|r.steps|] == WatchKey(c, key)
    && StillWatching(q, c, ShardOf(hash, key), |r.steps| + 1, |q.steps|)
    && Matches(Last(q), c, ShardOf(hash, key))
  }

  /** The connection `c` after its WATCH. */
  ghost function Watched(s: State, c: nat, shard: nat): State
    requires MayWatch(s, c, shard) && shard < |s.versions|
  {
    SetConn(s, c, s.conns[c].(watched := s.conns[c].watched[shard := s.versions[shard]]))
  }

  lemma WatchNow(hash: Bytes -> nat, r: Run, c: nat, key: Bytes) returns (q: Run)
    requires IsRun(hash, r) && MayWatch(Last(r), c, ShardOf(hash, key))
    ensures |Last(r).versions| == SHARD_COUNT && OnCourse(hash, r, q, c, key)
    ensures Last(q) == Watched(Last(r), c, ShardOf(hash, key))
  {
    RunKeepsInv(hash, r, |r.steps|);
    var t := Watched(Last(r), c, ShardOf(hash, key));
    GrownIsRun(hash, r, WatchKey(c, key), t);
    q := Grown(r, WatchKey(c, key), t);
  }

  /** A step that leaves the record and the shard's version alone. */
  lemma StayOnCourse(hash: Bytes -> nat, r: Run, q: Run, c: nat, key: Bytes, l: Step, t: State) returns (p: Run)
    requires OnCourse(hash, r, q, c, key) && Next(hash, Last(q), l, t) && !Forgets(l, c)
    requires Matches(t, c, ShardOf(hash, key))
    ensures OnCourse(hash, r, p, c, key) && p == Grown(q, l, t) && Last(p) == t
  {
    p := Grown(q, l, t);
    GrownIsRun(hash, q, l, t);
    var n, shard := |q.steps|, ShardOf(hash, key);
    forall m | |r.steps| + 1 <= m <= n + 1
      ensures c in p.states[m].conns && shard in p.states[m].conns[c].watched &&
              (m < n + 1 ==> !Forgets(p.steps[m], c))
    {
      if m <= n { assert p.states[m] == q.states[m] && (m < n ==> p.steps[m] == q.steps[m]); }
    }
  }

  /** `c` is where MULTI may follow. */
  ghost predicate AtRest(s: State, c: nat) {
    c in s.conns && s.conns[c].act.Idle? && s.conns[c].todo == [] && s.conns[c].queue == None
  }

  /** `s` with `c` inside an EXEC that has compared nothing yet. */
  ghost function Comparing(s: State, c: nat): State
    requires c in s.conns
  {
    SetConn(s, c, s.conns[c].(queue := Some([]), act := Checking(s.conns[c].watched.Keys)))
  }

  /** `c` opens MULTI and begins EXEC. */
  lemma BeginComparing(hash: Bytes -> nat, r: Run, q: Run, c: nat, key: Bytes) returns (p: Run)
    requires OnCourse(hash, r, q, c, key) && AtRest(Last(q), c)
    ensures OnCourse(hash, r, p, c, key) && Last(p) == Comparing(Last(q), c)
  {
    var s := Last(q);
    var inMulti := s.conns[c].(queue := Some([]));
    var a := SetConn(s, c, inMulti);
    var q1 := StayOnCourse(hash, r, q, c, key, StartMulti(c), a);
    var b := SetConn(a, c, inMulti.(act := Checking(inMulti.watched.Keys)));
    p := StayOnCourse(hash, r, q1, c, key, BeginExec(c), b);
    assert b.conns == Comparing(s, c).conns;
  }

  /** `c` compares: with the key changed, it has slipped. */
  lemma CompareNow(hash: Bytes -> nat, r: Run, q: Run, c: nat, key: Bytes) returns (p: Run, j: nat)
    requires OnCourse(hash, r, q, c, key) && AtRest(Last(q), c)
    requires S.At(Last(q).store, key) != S.At(Last(r).store, key)
    ensures Continues(p, r) && Slips(hash, p, c, key, |r.steps|, j) && p.states[j] == Comparing(Last(q), c)
  {
    var shard := ShardOf(hash, key);
    var q2 := BeginComparing(hash, r, q, c, key);
    var b := Last(q2);
    j := |q2.steps|;
    var checked := SetConn(b, c, b.conns[c].(act := Checking(b.conns[c].act.unread - {shard})));
    p := StayOnCourse(hash, r, q2, c, key, CheckShard(c, shard), checked);
    assert p.states[j] == b && p.states[|r.steps|] == Last(r);
    WatchedUntil(p, c, shard, |r.steps| + 1, j, j + 1);
  }

  lemma WatchedUntil(r: Run, c: nat, shard: nat, i: nat, j: nat, k: nat)
    requires i <= j <= k < |r.states| && StillWatching(r, c, shard, i, k)
    ensures StillWatching(r, c, shard, i, j)
  {
    forall m | i <= m <= j
      ensures c in r.states[m].conns && shard in r.states[m].conns[c].watched &&
              (m < j ==> m < |r.steps| && !Forgets(r.steps[m], c))
    {
      assert c in r.states[m].conns;
    }
  }

  // ---- A write past its bump at the WATCH ----

  /** `d` is in the middle of a write and, if still bumping, past its bumps of `shard`. */
  ghost predicate Writing(s: State, d: nat, shard: nat) { d in s.conns && PastBumps(s.conns[d].act, shard) }

  /** `s` with `d` about to make the storage calls that lie ahead of it. */
  ghost function Calling(s: State, d: nat): map<nat, Conn>
    requires d in s.conns && (s.conns[d].act.Bumping? || s.conns[d].act.Mutating?)
  {
    s.conns[d := s.conns[d].(act := Mutating(s.conns[d].act.cmd, Ahead(s.conns[d].act)))]
  }

  /** Such a writer gets through its other bumps. */
  lemma {:induction false} FinishBumps(hash: Bytes -> nat, r: Run, q: Run, c: nat, key: Bytes, d: nat) returns (p: Run)
    requires OnCourse(hash, r, q, c, key) && d != c && Writing(Last(q), d, ShardOf(hash, key))
    ensures OnCourse(hash, r, p, c, key) && Last(p).store == Last(q).store
    ensures Last(p).conns == Calling(Last(q), d)
    decreases if Last(q).conns[d].act.Bumping? then |Last(q).conns[d].act.rest| + 1 else 0
  {
    var s := Last(q);
    var conn := s.conns[d];
    if conn.act.Mutating? {
      p := q;
      assert s.conns[d := conn] == s.conns;
    } else if conn.act.rest == [] {
      var t := SetConn(s, d, conn.(act := Mutating(conn.act.cmd, Parts(conn.act.cmd))));
      p := StayOnCourse(hash, r, q, c, key, BumpsDone(d), t);
    } else {
      var rest := conn.act.rest;
      var t := SetConn(s.(versions := BumpAt(s.versions, rest[0])), d, conn.(act := Bumping(conn.act.cmd, rest[1..])));
      var q' := StayOnCourse(hash, r, q, c, key, Bump(d), t);
      p := FinishBumps(hash, r, q', c, key, d);
      assert Last(p).conns == Calling(s, d);
    }
  }

  /** The first `n` storage calls leave the key's entry alone; the next one need not. */
  lemma {:induction false} LandUpTo(hash: Bytes -> nat, r: Run, q: Run, c: nat, key: Bytes, d: nat, env: S.Env, n: nat)
    returns (p: Run)
    requires OnCourse(hash, r, q, c, key) && d != c && d in Last(q).conns && S.Sane(env)
    requires Last(q).conns[d].act.Mutating? && n <= |Last(q).conns[d].act.parts| && CallsOk(Last(q).conns[d].act)
    requires forall i | 0 <= i < n :: !Changes(Last(q).conns[d].act.parts[i], key, S.At(Last(q).store, key))
    ensures OnCourse(hash, r, p, c, key) && S.At(Last(p).store, key) == S.At(Last(q).store, key)
    ensures var act := Last(q).conns[d].act;
            Last(p).conns == Last(q).conns[d := Last(q).conns[d].(act := Mutating(act.cmd, act.parts[n..]))]
    decreases n
  {
    var s := Last(q);
    var conn := s.conns[d];
    var parts := conn.act.parts;
    if n == 0 {
      p := q;
      assert parts[0..] == parts && s.conns[d := conn] == s.conns;
    } else {
      UnchangedByCall(parts[0], s.store, env, key);
      var t := SetConn(s.(store := Live(parts[0], s.store, env)), d, conn.(act := Mutating(conn.act.cmd, parts[1..])));
      var q' := StayOnCourse(hash, r, q, c, key, Land(d, env), t);
      forall i | 0 <= i < n - 1 ensures !Changes(parts[1..][i], key, S.At(t.store, key)) {
        assert parts[1..][i] == parts[i + 1];
      }
      p := LandUpTo(hash, r, q', c, key, d, env, n - 1);
      assert parts[1..][n - 1..] == parts[n..];
    }
  }

  lemma UnchangedByCall(part: Command, st: S.Store, env: S.Env, key: Bytes)
    requires OneSlot(part) && S.Sane(env) && !Changes(part, key, S.At(st, key))
    ensures S.At(Live(part, st, env), key) == S.At(st, key)
  {
    if part.key != key { E.PutElsewhere(st, part.key, LiveSlot(part, S.At(st, part.key), env), key); }
  }

  /** The first call ahead that would change the entry. */
  lemma {:induction false} FirstChange(parts: seq<Command>, key: Bytes, slot: S.Slot, i: nat) returns (n: nat)
    requires i < |parts| && Changes(parts[i], key, slot)
    ensures n < |parts| && Changes(parts[n], key, slot) && forall j | 0 <= j < n :: !Changes(parts[j], key, slot)
  {
    if j :| 0 <= j < i && Changes(parts[j], key, slot) { n := FirstChange(parts, key, slot, j); } else { n := i; }
  }

  /** Among the calls ahead of `d` is one that changes the key: it gets that far. */
  lemma LandTheChange(hash: Bytes -> nat, r: Run, q: Run, c: nat, key: Bytes, d: nat, i: nat) returns (p: Run)
    requires OnCourse(hash, r, q, c, key) && d != c && d in Last(q).conns && CallsOk(Last(q).conns[d].act)
    requires Last(q).conns[d].act.Mutating? && i < |Last(q).conns[d].act.parts|
    requires Changes(Last(q).conns[d].act.parts[i], key, S.At(Last(q).store, key))
    ensures OnCourse(hash, r, p, c, key) && S.At(Last(p).store, key) != S.At(Last(q).store, key)
    ensures ChangedOnly(Last(q), Last(p), d)
  {
    var s, slot := Last(q), S.At(Last(q).store, key);
    var act := s.conns[d].act;
    var n := FirstChange(act.parts, key, slot, i);
    var env :| S.Sane(env) && LiveSlot(act.parts[n], slot, env) != slot;
    var q' := LandUpTo(hash, r, q, c, key, d, env, n);
    var u := Last(q');
    var conn := u.conns[d];
    assert conn.act.parts[0] == act.parts[n];
    var t := SetConn(u.(store := Live(conn.act.parts[0], u.store, env)), d,
                     conn.(act := Mutating(act.cmd, conn.act.parts[1..])));
    p := StayOnCourse(hash, r, q', c, key, Land(d, env), t);
  }

  /** Nothing happened to other connections, and `d` is still in its write. */
  ghost predicate ChangedOnly(s: State, t: State, d: nat) {
    && t.conns.Keys == s.conns.Keys && d in t.conns && t.conns[d].act.Mutating?
    && forall e | e in s.conns && e != d :: t.conns[e] == s.conns[e]
  }

  lemma ChangedKey(st: S.Store, key: Bytes) returns (after: S.Store)
    ensures S.At(after, key) != S.At(st, key) && forall k | k != key :: S.At(after, k) == S.At(st, k)
  {
    after := if key in st then st - {key} else st[key := S.Str([], None)];
  }

  /** A compound command past its bumps changes the key. */
  lemma EditTheKey(hash: Bytes -> nat, r: Run, q: Run, c: nat, key: Bytes, d: nat) returns (p: Run)
    requires OnCourse(hash, r, q, c, key) && d != c && d in Last(q).conns && Last(q).conns[d].act.Mutating?
    requires Compound(Last(q).conns[d].act.cmd) && Names(Last(q).conns[d].act.cmd, key)
    ensures OnCourse(hash, r, p, c, key) && S.At(Last(p).store, key) != S.At(Last(q).store, key)
    ensures ChangedOnly(Last(q), Last(p), d)
  {
    var after := ChangedKey(Last(q).store, key);
    p := StayOnCourse(hash, r, q, c, key, Edit(d, after), Last(q).(store := after));
  }

  lemma CallsStayOk(hash: Bytes -> nat, r: Run, q: Run, c: nat, key: Bytes, d: nat)
    requires OnCourse(hash, r, q, c, key) && d in Last(q).conns
    ensures CallsOk(Last(q).conns[d].act)
  {
    RunKeepsInv(hash, q, |q.steps|);
    assert ConnOk(hash, Last(q).versions, Last(q).conns[d]);
  }

  /** An armed writer goes on to change the key. */
  lemma WriteLands(hash: Bytes -> nat, r: Run, q: Run, c: nat, key: Bytes, d: nat) returns (p: Run)
    requires OnCourse(hash, r, q, c, key) && d != c && d in Last(q).conns
    requires Armed(hash, Last(q).conns[d], key, S.At(Last(q).store, key))
    ensures OnCourse(hash, r, p, c, key) && S.At(Last(p).store, key) != S.At(Last(q).store, key)
    ensures ChangedOnly(Last(q), Last(p), d)
  {
    var act := Last(q).conns[d].act;
    var q' := FinishBumps(hash, r, q, c, key, d);
    CallsStayOk(hash, r, q', c, key, d);
    if Compound(act.cmd) && Names(act.cmd, key) {
      p := EditTheKey(hash, r, q', c, key, d);
    } else {
      var i :| 0 <= i < |Ahead(act)| && Changes(Ahead(act)[i], key, S.At(Last(q).store, key));
      p := LandTheChange(hash, r, q', c, key, d, i);
    }
  }

  /** From every reachable state in which `c` may WATCH a key while a write is past its
      bumps of the shard, about to change the key, and no script owes the shard a bump:
      that write changes the key, EXEC does not notice, and no script is to blame. */
  lemma LateWriteSlips(hash: Bytes -> nat, r: Run, c: nat, key: Bytes, d: nat) returns (p: Run, j: nat)
    requires IsRun(hash, r) && MayWatch(Last(r), c, ShardOf(hash, key)) && AllSettled(Last(r), ShardOf(hash, key))
    requires d in Last(r).conns && Armed(hash, Last(r).conns[d], key, S.At(Last(r).store, key))
    ensures Continues(p, r) && Slips(hash, p, c, key, |r.steps|, j) && AllSettled(p.states[j], ShardOf(hash, key))
  {
    var q := WatchNow(hash, r, c, key);
    var q' := WriteLands(hash, r, q, c, key, d);
    p, j := CompareNow(hash, r, q', c, key);
    SettledStill(Last(r), p.states[j], c, d, ShardOf(hash, key));
  }

  lemma SettledStill(s: State, t: State, c: nat, d: nat, shard: nat)
    requires AllSettled(s, shard) && c in t.conns && d in t.conns
    requires t.conns[c].act.Checking? && t.conns[d].act.Mutating?
    requires forall e | e in t.conns && e != c && e != d :: e in s.conns && t.conns[e] == s.conns[e]
    ensures AllSettled(t, shard)
  {
  }

  /** Some continuation slips through although every script has settled by then. */
  ghost predicate CanSlip(hash: Bytes -> nat, r: Run, c: nat, key: Bytes) {
    exists q, j: nat :: Continues(q, r) && Slips(hash, q, c, key, |r.steps|, j) &&
                        AllSettled(q.states[j], ShardOf(hash, key))
  }

  /** The exact condition: from a reachable state in which `c` may WATCH a key, EXEC
      can be deceived about it without an unsettled script at the comparison if and
      only if some write is past its bumps of the shard and about to change the key's
      present entry, and no script owes the shard a bump. */
  lemma SlipsIffArmedAndSettled(hash: Bytes -> nat, r: Run, c: nat, key: Bytes)
    requires IsRun(hash, r) && MayWatch(Last(r), c, ShardOf(hash, key))
    ensures CanSlip(hash, r, c, key) <==>
              !NoneArmed(hash, Last(r), key, S.At(Last(r).store, key)) && AllSettled(Last(r), ShardOf(hash, key))
  {
    var shard, s := ShardOf(hash, key), Last(r);
    var slot := S.At(s.store, key);
    if CanSlip(hash, r, c, key) {
      var q, j: nat :| Continues(q, r) && Slips(hash, q, c, key, |r.steps|, j) && AllSettled(q.states[j], shard);
      assert q.states[|r.steps|] == s;
      if NoneArmed(hash, s, key, slot) || !AllSettled(s, shard) {
        PassedCheckMeansUnchanged(hash, q, c, key, |r.steps|, j);
        assert false;
      }
    } else if !NoneArmed(hash, s, key, slot) && AllSettled(s, shard) {
      var d :| d in s.conns && Armed(hash, s.conns[d], key, slot);
      var q, j := LateWriteSlips(hash, r, c, key, d);
      assert false;
    }
  }

  // ---- A script between mutation and bump at the check ----

  lemma {:induction false} Above(s: set<nat>) returns (n: nat)
    ensures forall x | x in s :: x < n
    decreases |s|
  {
    if s == {} {
      n := 0;
    } else {
      var x :| x in s;
      var m := Above(s - {x});
      n := if m <= x then x + 1 else m;
      assert s == (s - {x}) + {x};
    }
  }

  /** A script on a new connection makes one call. */
  lemma ScriptCalls(hash: Bytes -> nat, r: Run, q: Run, c: nat, key: Bytes, e: nat, call: Command, env: S.Env)
    returns (p: Run)
    requires OnCourse(hash, r, q, c, key) && e !in Last(q).conns && Bridged(call) && S.Sane(env)
    ensures OnCourse(hash, r, p, c, key) && Last(p).store == Live(call, Last(q).store, env)
    ensures c in Last(q).conns && c in Last(p).conns && Last(p).conns[c] == Last(q).conns[c]
  {
    var s := Last(q);
    var blank := Conn(None, map[], [], Idle);
    var q1 := StayOnCourse(hash, r, q, c, key, Open(e), SetConn(s, e, blank));
    var a := SetConn(Last(q1), e, blank.(act := Scripting([], {})));
    var q2 := StayOnCourse(hash, r, q1, c, key, BeginScript(e, Script([call])), a);
    var b := SetConn(a.(store := Live(call, s.store, env)), e,
                     blank.(act := Scripting([] + [call], {} + {ShardOf(hash, call.key)})));
    p := StayOnCourse(hash, r, q2, c, key, ScriptCall(e, call, env, true), b);
  }

  /** From every reachable state in which `c` may WATCH a key, whoever else is at work:
      a script on a new connection that changes the key goes unseen until it bumps. */
  lemma UnsettledScriptSlips(hash: Bytes -> nat, r: Run, c: nat, key: Bytes, call: Command, env: S.Env)
    returns (p: Run, j: nat)
    requires IsRun(hash, r) && MayWatch(Last(r), c, ShardOf(hash, key)) && Bridged(call) && S.Sane(env)
    requires S.At(Live(call, Last(r).store, env), key) != S.At(Last(r).store, key)
    ensures Continues(p, r) && Slips(hash, p, c, key, |r.steps|, j)
    ensures p.states[j].store == Live(call, Last(r).store, env)
  {
    var q := WatchAndScript(hash, r, c, key, call, env);
    p, j := CompareNow(hash, r, q, c, key);
  }

  lemma WatchAndScript(hash: Bytes -> nat, r: Run, c: nat, key: Bytes, call: Command, env: S.Env) returns (p: Run)
    requires IsRun(hash, r) && MayWatch(Last(r), c, ShardOf(hash, key)) && Bridged(call) && S.Sane(env)
    ensures OnCourse(hash, r, p, c, key) && AtRest(Last(p), c) && Last(p).store == Live(call, Last(r).store, env)
  {
    var q := WatchNow(hash, r, c, key);
    var e := Above(Last(q).conns.Keys);
    p := ScriptCalls(hash, r, q, c, key, e, call, env);
  }
}
