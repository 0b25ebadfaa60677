/** How far replication keeps master and replica equal: two writers that land in
    another order than they were sent. */
module ReplicationLimits {
  import opened Primitives
  import opened Commands
  import opened Effects
  import R = Reordering
  import opened Replication
  import S = Store

  // ---- Runs and their continuations ----

  datatype Run = Run(states: seq<State>, steps: seq<Step>)

  ghost predicate Reached(r: Run, s: State) { IsRun(r.states, r.steps) && r.states[|r.states| - 1] == s }

  ghost predicate Continues(q: Run, r: Run) { r.states <= q.states && r.steps <= q.steps }

  lemma OneMore(r: Run, s: State, l: Step, t: State) returns (q: Run)
    requires Reached(r, s) && Next(s, l, t)
    ensures Reached(q, t) && Continues(q, r)
  {
    q := Run(r.states + [t], r.steps + [l]);
    forall i | 0 <= i < |q.steps| ensures Taken(q.states, q.steps, i) {
      if i < |r.steps| { assert Taken(r.states, r.steps, i); }
    }
  }

  lemma ReachedIsOk(r: Run, s: State)
    requires Reached(r, s)
    ensures Inv(s) && StoreOk(s)
  {
    RunKeepsInv(r.states, r.steps, |r.states| - 1);
  }

  /** `c` was registered and has a working connection. */
  ghost predicate Served(s: State, c: nat) { c in s.links && s.links[c].open && s.links[c].start.Some? }

  function Fed(k: Link, cmd: Command): Link { k.(channel := k.channel + [cmd]) }

  /** The same but for links other than `c`. */
  ghost predicate SameFor(s: State, t: State, c: nat) {
    && t.offset == s.offset && t.sent == s.sent && t.replicas == s.replicas && t.store == s.store
    && t.waiting == s.waiting && t.landed == s.landed && c in t.links
  }

  // ---- One write to all replicas ----

  lemma {:induction false} SendToAll(r: Run, s: State, c: nat) returns (q: Run, t: State)
    requires Reached(r, s) && s.write.Sending? && Served(s, c)
    ensures Reached(q, t) && Continues(q, r) && SameFor(s, t, c) && t.write == Sending(s.write.cmd, {})
    ensures t.links[c] == if c in s.write.rest then Fed(s.links[c], s.write.cmd) else s.links[c]
    decreases |s.write.rest|
  {
    if s.write.rest == {} {
      q, t := r, s;
    } else {
      ReachedIsOk(r, s);
      var x :| x in s.write.rest;
      var k := if s.links[x].open then Fed(s.links[x], s.write.cmd) else s.links[x];
      var u := SetLink(s.(write := Sending(s.write.cmd, s.write.rest - {x})), x, k);
      var p := OneMore(r, s, Send(x), u);
      q, t := SendToAll(p, u, c);
    }
  }

  /** `t` is `s` after `cmd` went to all replicas, `c` among them, and waits to land. */
  ghost predicate Sent(s: State, t: State, c: nat, cmd: Command)
    requires c in s.links
  {
    && t.write.Quiet? && t.sent == s.sent + [cmd] && t.store == s.store && t.landed == s.landed
    && t.waiting == s.waiting + {|s.sent|} && Served(t, c) && t.links[c] == Fed(s.links[c], cmd)
  }

  lemma Replicate(r: Run, s: State, c: nat, cmd: Command) returns (q: Run, t: State)
    requires Reached(r, s) && s.write.Quiet? && Served(s, c) && IsWrite(cmd)
    ensures Reached(q, t) && Continues(q, r) && Sent(s, t, c, cmd)
  {
    ServedIsRegistered(r, s, c);
    var p1, b := BeginFanOut(r, s, cmd);
    var p2, u := SendToAll(p1, b, c);
    t := u.(write := Quiet, waiting := u.waiting + {|u.sent| - 1});
    q := OneMore(p2, u, WriteDone, t);
  }

  lemma ServedIsRegistered(r: Run, s: State, c: nat)
    requires Reached(r, s) && Served(s, c)
    ensures c in s.replicas.Values
  {
    ReachedIsOk(r, s);
    assert LinkOk(s, c, s.links[c]);
  }

  lemma BeginFanOut(r: Run, s: State, cmd: Command) returns (q: Run, t: State)
    requires Reached(r, s) && s.write.Quiet? && IsWrite(cmd)
    ensures Reached(q, t) && Continues(q, r)
    ensures t == s.(offset := s.offset + 1, sent := s.sent + [cmd], write := Sending(cmd, s.replicas.Values))
  {
    var a := s.(offset := s.offset + 1, write := Raised(cmd));
    var p := OneMore(r, s, Raise(cmd), a);
    t := a.(sent := a.sent + [cmd], write := Sending(cmd, a.replicas.Values));
    q := OneMore(p, a, FanOut, t);
  }

  lemma {:induction false} DrainLink(r: Run, s: State, c: nat) returns (q: Run, t: State)
    requires Reached(r, s) && c in s.links
    ensures Reached(q, t) && Continues(q, r) && SameFor(s, t, c) && t.write == s.write
    ensures t.links[c] == s.links[c].(applied := s.links[c].applied + s.links[c].channel, channel := [])
    decreases |s.links[c].channel|
  {
    var k := s.links[c];
    if k.channel == [] {
      q, t := r, s;
      assert k.applied + [] == k.applied;
    } else {
      var u := SetLink(s, c, k.(applied := k.applied + [k.channel[0]], channel := k.channel[1..]));
      var p := OneMore(r, s, Deliver(c), u);
      q, t := DrainLink(p, u, c);
      assert k.applied + [k.channel[0]] + k.channel[1..] == k.applied + k.channel;
    }
  }

  lemma LandNow(r: Run, s: State, index: nat, env: S.Env) returns (q: Run, t: State)
    requires Reached(r, s) && index in s.waiting && index < |s.sent|
    ensures Reached(q, t) && Continues(q, r)
    ensures t == s.(store := Live(s.sent[index], s.store, env), waiting := s.waiting - {index},
                    landed := s.landed + [Landing(index, env)])
  {
    t := s.(store := Live(s.sent[index], s.store, env), waiting := s.waiting - {index},
            landed := s.landed + [Landing(index, env)]);
    q := OneMore(r, s, Land(index, env), t);
  }

  // ---- Two writers ----

  /** Two writes were sent, `a` before `b`, landed the other way round, and reached
      the replica, with nothing left to deliver to it. */
  ghost predicate Crossed(s: State, t: State, c: nat, a: Executed, b: Executed)
    requires c in s.links
  {
    && t.sent == s.sent + [a.cmd, b.cmd] && t.write.Quiet? && t.waiting == s.waiting && Served(t, c)
    && t.landed == s.landed + [Landing(|s.sent| + 1, b.env), Landing(|s.sent|, a.env)]
    && t.store == Live(a.cmd, Live(b.cmd, s.store, b.env), a.env)
    && t.links[c].start == s.links[c].start && t.links[c].channel == []
    && t.links[c].applied == s.links[c].applied + s.links[c].channel + [a.cmd, b.cmd]
  }

  /** From every reachable state between two fan-outs with a served replica, and for every
      two writes, the master's writers may cross. */
  lemma WritersMayCross(r: Run, s: State, c: nat, a: Executed, b: Executed) returns (q: Run, t: State)
    requires Reached(r, s) && s.write.Quiet? && Served(s, c) && IsWrite(a.cmd) && IsWrite(b.cmd)
    ensures Reached(q, t) && Continues(q, r) && Crossed(s, t, c, a, b)
  {
    ReachedIsOk(r, s);
    var p1, s1 := SendBoth(r, s, c, a.cmd, b.cmd);
    var p2, s2 := LandCrossed(p1, s1, |s.sent|, a.env, b.env, s.waiting);
    q, t := DrainLink(p2, s2, c);
    Assoc(s.links[c].applied, s.links[c].channel, [a.cmd, b.cmd]);
  }

  lemma SendBoth(r: Run, s: State, c: nat, a: Command, b: Command) returns (q: Run, t: State)
    requires Reached(r, s) && s.write.Quiet? && Served(s, c) && IsWrite(a) && IsWrite(b)
    ensures Reached(q, t) && Continues(q, r) && t.write.Quiet? && t.sent == s.sent + [a, b]
    ensures t.store == s.store && t.landed == s.landed && t.waiting == s.waiting + {|s.sent|} + {|s.sent| + 1}
    ensures Served(t, c) && t.links[c] == s.links[c].(channel := s.links[c].channel + [a, b])
  {
    var p, u := Replicate(r, s, c, a);
    q, t := Replicate(p, u, c, b);
    assert s.sent + [a] + [b] == s.sent + [a, b];
    assert s.links[c].channel + [a] + [b] == s.links[c].channel + [a, b];
  }

  lemma LandCrossed(r: Run, s: State, n: nat, ea: S.Env, eb: S.Env, others: set<nat>) returns (q: Run, t: State)
    requires Reached(r, s) && |s.sent| == n + 2 && s.waiting == others + {n} + {n + 1}
    requires n !in others && n + 1 !in others
    ensures Reached(q, t) && Continues(q, r)
    ensures t == s.(store := Live(s.sent[n], Live(s.sent[n + 1], s.store, eb), ea), waiting := others,
                    landed := s.landed + [Landing(n + 1, eb), Landing(n, ea)])
  {
    var p, u := LandNow(r, s, n + 1, eb);
    q, t := LandNow(p, u, n, ea);
    assert t.waiting == others;
    assert s.landed + [Landing(n + 1, eb)] + [Landing(n, ea)] == s.landed + [Landing(n + 1, eb), Landing(n, ea)];
  }

  /** Sharing a key is enough to diverge: from every reachable state with all writes landed
      and a served replica, for every two footprints with a common key, there are two
      writes with those footprints, in the fragment wherever they run, that leave the
      drained replica without the master's value under that key. */
  lemma SharedKeyMayDiverge(r: Run, s: State, c: nat, x: set<Bytes>, y: set<Bytes>, key: Bytes, env: S.Env)
    returns (q: Run, t: State, a: Command, b: Command)
    requires Reached(r, s) && AllLanded(s) && Served(s, c) && key in x && key in y
    ensures IsWrite(a) && IsWrite(b) && Touches(a) == x && Touches(b) == y
    ensures forall st :: Deterministic(a, st) && Deterministic(b, st)
    ensures Reached(q, t) && Continues(q, r) && AllLanded(t) && Served(t, c)
    ensures Crossed(s, t, c, Executed(a, env), Executed(b, env))
    ensures forall envs | |envs| == |t.links[c].applied| ::
              S.At(ApplyAll(map[], RunBy(t.links[c].applied, envs)), key) != S.At(t.store, key)
  {
    a, b := R.SharedKeyTells(x, y, key);
    q, t := WritersMayCross(r, s, c, Executed(a, env), Executed(b, env));
    forall envs | |envs| == |t.links[c].applied|
      ensures S.At(ApplyAll(map[], RunBy(t.links[c].applied, envs)), key) != S.At(t.store, key)
    {
      LastOneWins(t.links[c].applied, envs, key, b);
    }
  }

  lemma LastOneWins(cmds: seq<Command>, envs: seq<S.Env>, key: Bytes, b: Command)
    requires |cmds| == |envs| > 0 && cmds[|cmds| - 1] == b && !Drifting(b)
    requires forall st, env :: S.At(Live(b, st, env), key) == Some(S.Str([1], None))
    ensures S.At(ApplyAll(map[], RunBy(cmds, envs)), key) == Some(S.Str([1], None))
  {
    var n := |cmds| - 1;
    var st := ApplyAll(map[], RunBy(cmds, envs)[..n]);
    DispatchersAgree(b, st, envs[n]);
  }

  /** Commands that replay may treat differently on some store. */
  predicate Drifting(cmd: Command) { cmd.ExpireAt? || cmd.XAdd? }

  /** The two SETs of the textbook: the master keeps the value sent first, the replica the
      one sent last. */
  lemma CrossedWritersDiverge(r: Run, s: State, c: nat, key: Bytes, v: Bytes, w: Bytes, env: S.Env)
    returns (q: Run, t: State)
    requires Reached(r, s) && AllLanded(s) && Served(s, c) && v != w
    ensures Reached(q, t) && Continues(q, r) && AllLanded(t) && Served(t, c) && t.links[c].channel == []
    ensures S.At(t.store, key) == Some(S.Str(v, None))
    ensures forall envs | |envs| == |t.links[c].applied| ::
              S.At(ApplyAll(map[], RunBy(t.links[c].applied, envs)), key) == Some(S.Str(w, None))
  {
    var a, b := Executed(Command.Set(key, v, None), env), Executed(Command.Set(key, w, None), env);
    q, t := WritersMayCross(r, s, c, a, b);
    forall envs | |envs| == |t.links[c].applied|
      ensures S.At(ApplyAll(map[], RunBy(t.links[c].applied, envs)), key) == Some(S.Str(w, None))
    {
      LastSetWins(t.links[c].applied, envs, key, w);
    }
  }

  lemma LastSetWins(cmds: seq<Command>, envs: seq<S.Env>, key: Bytes, w: Bytes)
    requires |cmds| == |envs| > 0 && cmds[|cmds| - 1] == Command.Set(key, w, None)
    ensures S.At(ApplyAll(map[], RunBy(cmds, envs)), key) == Some(S.Str(w, None))
  {
  }
}
