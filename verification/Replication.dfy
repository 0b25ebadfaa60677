/** Replication fan-out (replication/master.rs, replication/replica.rs) as a
    protocol of steps: the offset is read, later the replica is registered; a
    write raises the offset, feeds one FIFO channel per registered replica, and
    lands in the master's own store some time afterwards. */
module Replication {
  import opened Primitives
  import opened Commands
  import opened Effects
  import opened Reordering
  import S = Store

  /** One replica connection: the offset it was told, where in the master's
      sequence it was registered, what is under way to it and what it applied. */
  datatype Link = Link(told: nat, start: Option<nat>, channel: seq<Command>, applied: seq<Command>, open: bool)

  /** How far `replicate_write` has got. */
  datatype Write = Quiet | Raised(cmd: Command) | Sending(cmd: Command, rest: set<nat>)

  /** A write of the master's sequence as it was executed on the master's store. */
  datatype Landing = Landing(index: nat, env: S.Env)

  /** `sent` is the master's sequence: writes whose fan-out has begun; `waiting` are
      those whose fan-out is over but which have not reached the master's store. */
  datatype State = State(offset: nat, sent: seq<Command>, replicas: map<Bytes, nat>, links: map<nat, Link>,
                         write: Write, store: S.Store, waiting: set<nat>, landed: seq<Landing>)

  datatype Step =
    | ReadOffset(link: nat)
    | Register(link: nat, id: Bytes)
    | Raise(cmd: Command)
    | FanOut
    | Send(link: nat)
    | WriteDone
    | Land(index: nat, env: S.Env)
    | Deliver(link: nat)
    | Lose(link: nat)

  function SetLink(s: State, c: nat, l: Link): State { s.(links := s.links[c := l]) }

  /** The sender held under an id is dropped when the id is registered again. */
  function Displaced(s: State, id: Bytes): State {
    if id in s.replicas && s.replicas[id] in s.links
    then SetLink(s, s.replicas[id], s.links[s.replicas[id]].(open := false)) else s
  }

  ghost predicate Next(s: State, l: Step, t: State) {
    match l
    case ReadOffset(c) => // the offset lock excludes a write in progress
      s.write.Quiet? && c !in s.links && t == SetLink(s, c, Link(s.offset, None, [], [], true))
    case Register(c, id) => // the replica-map lock excludes a running fan-out
      && !s.write.Sending? && c in s.links && s.links[c].start == None && s.links[c].open
      && var d := Displaced(s, id);
         t == SetLink(d.(replicas := s.replicas[id := c]), c, s.links[c].(start := Some(|s.sent|)))
    case Raise(cmd) => IsWrite(cmd) && s.write.Quiet? && t == s.(offset := s.offset + 1, write := Raised(cmd))
    case FanOut =>
      s.write.Raised? && t == s.(sent := s.sent + [s.write.cmd], write := Sending(s.write.cmd, s.replicas.Values))
    case Send(c) => // a closed channel swallows the command
      && s.write.Sending? && c in s.write.rest && c in s.links
      && t == SetLink(s.(write := Sending(s.write.cmd, s.write.rest - {c})), c,
                      if s.links[c].open then s.links[c].(channel := s.links[c].channel + [s.write.cmd])
                      else s.links[c])
    case WriteDone =>
      && s.write.Sending? && s.write.rest == {} && s.sent != []
      && t == s.(write := Quiet, waiting := s.waiting + {|s.sent| - 1})
    case Land(index, env) => // no lock orders the writers between fan-out and store
      && index in s.waiting && index < |s.sent|
      && t == s.(store := Live(s.sent[index], s.store, env), waiting := s.waiting - {index},
                 landed := s.landed + [Landing(index, env)])
    case Deliver(c) =>
      && c in s.links && s.links[c].channel != []
      && var k := s.links[c];
         t == SetLink(s, c, k.(applied := k.applied + [k.channel[0]], channel := k.channel[1..]))
    case Lose(c) => c in s.links && t == SetLink(s, c, s.links[c].(open := false, channel := []))
  }

  ghost predicate Init(s: State) {
    s == State(0, [], map[], map[], Quiet, map[], {}, [])
  }

  // ---- What every run keeps ----

  /** Still owed the command being sent. */
  function Owed(s: State, c: nat): nat { if s.write.Sending? && c in s.write.rest then 1 else 0 }

  ghost predicate LinkOk(s: State, c: nat, k: Link) {
    if k.start == None then
      k.channel == [] && k.applied == [] && k.told <= |s.sent| && Owed(s, c) == 0
    else
      var from := k.start.value;
      var got := k.applied + k.channel;
      && k.told <= from && from + |got| <= |s.sent| && got == s.sent[from..from + |got|]
      && (k.open ==> from + |got| + Owed(s, c) == |s.sent| && c in s.replicas.Values)
  }

  ghost predicate Inv(s: State) {
    && s.offset == |s.sent| + (if s.write.Raised? then 1 else 0)
    && (s.write.Sending? ==> s.sent != [] && s.sent[|s.sent| - 1] == s.write.cmd && s.write.rest <= s.replicas.Values)
    && (forall id | id in s.replicas :: s.replicas[id] in s.links && s.links[s.replicas[id]].start.Some?)
    && (forall c | c in s.links :: LinkOk(s, c, s.links[c]))
  }

  /** The writes as they ran on the master's store, in the order they landed. */
  ghost function Ran(s: State): (r: seq<Executed>)
    requires InSequence(s)
    ensures |r| == |s.landed|
    ensures forall i | 0 <= i < |r| :: r[i] == Executed(s.sent[s.landed[i].index], s.landed[i].env)
  {
    seq(|s.landed|, i requires 0 <= i < |s.landed| => Executed(s.sent[s.landed[i].index], s.landed[i].env))
  }

  ghost predicate InSequence(s: State) { forall i | 0 <= i < |s.landed| :: s.landed[i].index < |s.sent| }

  ghost predicate HasLanded(landed: seq<Landing>, k: nat) { exists i | 0 <= i < |landed| :: landed[i].index == k }

  /** Of the first `n` writes each has landed, once, or waits, or is the last and being sent. */
  ghost predicate Accounted(n: nat, sending: bool, waiting: set<nat>, landed: seq<Landing>) {
    && (forall i | 0 <= i < |landed| :: landed[i].index < n)
    && (forall i, j | 0 <= i < j < |landed| :: landed[i].index != landed[j].index)
    && (forall k | k in waiting :: k < n && !HasLanded(landed, k))
    && (sending ==> n > 0 && n - 1 !in waiting && !HasLanded(landed, n - 1))
    && (forall k | 0 <= k < n :: HasLanded(landed, k) || k in waiting || (sending && k == n - 1))
  }

  /** The master's store is what has landed. */
  ghost predicate StoreOk(s: State) {
    && Accounted(|s.sent|, s.write.Sending?, s.waiting, s.landed) && InSequence(s)
    && s.store == LiveAll(map[], Ran(s))
  }

  lemma LandedGrows(landed: seq<Landing>, l: Landing, k: nat)
    ensures HasLanded(landed + [l], k) <==> HasLanded(landed, k) || k == l.index
  {
    var more := landed + [l];
    if HasLanded(landed, k) {
      var i :| 0 <= i < |landed| && landed[i].index == k;
      assert more[i].index == k;
    }
    if k == l.index { assert more[|landed|].index == k; }
  }

  lemma LandAccounted(n: nat, sending: bool, waiting: set<nat>, landed: seq<Landing>, l: Landing)
    requires Accounted(n, sending, waiting, landed) && l.index in waiting
    ensures Accounted(n, sending, waiting - {l.index}, landed + [l])
  {
    forall k: nat ensures HasLanded(landed + [l], k) <==> HasLanded(landed, k) || k == l.index {
      LandedGrows(landed, l, k);
    }
    forall i | 0 <= i < |landed| ensures landed[i].index != l.index { assert HasLanded(landed, landed[i].index); }
  }

  lemma FanOutAccounted(n: nat, waiting: set<nat>, landed: seq<Landing>)
    requires Accounted(n, false, waiting, landed)
    ensures Accounted(n + 1, true, waiting, landed)
  {
  }

  lemma DoneAccounted(n: nat, waiting: set<nat>, landed: seq<Landing>)
    requires Accounted(n, true, waiting, landed)
    ensures Accounted(n, false, waiting + {n - 1}, landed)
  {
  }

  lemma RanGrows(s: State, t: State, l: Landing)
    requires InSequence(s) && t.sent == s.sent && t.landed == s.landed + [l] && l.index < |s.sent|
    ensures InSequence(t) && Ran(t) == Ran(s) + [Executed(s.sent[l.index], l.env)]
    ensures LiveAll(map[], Ran(t)) == Live(s.sent[l.index], LiveAll(map[], Ran(s)), l.env)
  {
    assert Ran(t)[..|s.landed|] == Ran(s);
  }

  lemma RanStays(s: State, t: State)
    requires InSequence(s) && t.landed == s.landed && s.sent <= t.sent
    ensures InSequence(t) && Ran(t) == Ran(s)
  {
  }

  lemma NextKeepsStore(s: State, l: Step, t: State)
    requires StoreOk(s) && Next(s, l, t)
    ensures StoreOk(t)
  {
    if l.Land? {
      LandAccounted(|s.sent|, s.write.Sending?, s.waiting, s.landed, Landing(l.index, l.env));
      RanGrows(s, t, Landing(l.index, l.env));
    } else {
      if l.FanOut? { FanOutAccounted(|s.sent|, s.waiting, s.landed); }
      else if l.WriteDone? { DoneAccounted(|s.sent|, s.waiting, s.landed); }
      RanStays(s, t);
    }
  }

  lemma Untouched(s: State, t: State, c: nat)
    requires Inv(s) && c in s.links && c in t.links && t.links[c] == s.links[c]
    requires t.sent == s.sent && Owed(t, c) == Owed(s, c)
    requires s.links[c].open && s.links[c].start.Some? ==> c in t.replicas.Values
    ensures LinkOk(t, c, t.links[c])
  {
  }

  lemma StillRegistered(s: State, t: State, id: Bytes, link: nat, c: nat)
    requires t.replicas == s.replicas[id := link] && c in s.replicas.Values
    requires id in s.replicas ==> c != s.replicas[id]
    ensures c in t.replicas.Values
  {
    var other :| other in s.replicas && s.replicas[other] == c;
    assert t.replicas[other] == c;
  }

  lemma FreshLinkOk(s: State, t: State, c: nat, id: Bytes)
    requires c in s.links && c in t.links && LinkOk(s, c, s.links[c]) && s.links[c].start == None
    requires t.sent == s.sent && t.write == s.write && id in t.replicas && t.replicas[id] == c
    requires t.links[c] == s.links[c].(start := Some(|s.sent|))
    ensures LinkOk(t, c, t.links[c])
  {
    assert c in t.replicas.Values;
    assert [] + [] == s.sent[|s.sent|..|s.sent|];
  }

  lemma RegisteredLinkOk(s: State, l: Step, t: State, c: nat)
    requires Inv(s) && Next(s, l, t) && l.Register? && c in t.links
    ensures LinkOk(t, c, t.links[c])
  {
    assert LinkOk(s, c, s.links[c]);
    if c == l.link {
      FreshLinkOk(s, t, c, l.id);
    } else if l.id !in s.replicas || c != s.replicas[l.id] {
      if s.links[c].open && s.links[c].start.Some? { StillRegistered(s, t, l.id, l.link, c); }
      Untouched(s, t, c);
    }
  }

  lemma RegisterKeepsInv(s: State, l: Step, t: State)
    requires Inv(s) && Next(s, l, t) && l.Register?
    ensures Inv(t)
  {
    forall c | c in t.links ensures LinkOk(t, c, t.links[c]) { RegisteredLinkOk(s, l, t, c); }
    forall id | id in t.replicas ensures t.replicas[id] in t.links && t.links[t.replicas[id]].start.Some? {
      if id != l.id { assert id in s.replicas; }
    }
  }

  lemma FanOutKeepsInv(s: State, t: State)
    requires Inv(s) && Next(s, FanOut, t)
    ensures Inv(t)
  {
    forall c | c in t.links ensures LinkOk(t, c, t.links[c]) {
      var k := s.links[c];
      assert LinkOk(s, c, k);
      if k.start.Some? {
        var from, n := k.start.value, |k.applied + k.channel|;
        assert t.sent[from..from + n] == s.sent[from..from + n];
      }
    }
  }

  lemma FedLinkOk(s: State, t: State, c: nat, k: Link)
    requires LinkOk(s, c, k) && k.open && k.start.Some? && Owed(s, c) == 1 && Owed(t, c) == 0
    requires s.sent != [] && t.sent == s.sent && t.replicas == s.replicas && s.write.cmd == s.sent[|s.sent| - 1]
    ensures LinkOk(t, c, k.(channel := k.channel + [s.write.cmd]))
  {
    var from, got, cmd := k.start.value, k.applied + k.channel, s.write.cmd;
    assert k.applied + (k.channel + [cmd]) == got + [cmd];
    assert s.sent[from..from + |got| + 1] == s.sent[from..from + |got|] + [s.sent[from + |got|]];
  }

  lemma SendKeepsInv(s: State, l: Step, t: State)
    requires Inv(s) && Next(s, l, t) && l.Send?
    ensures Inv(t)
  {
    forall c | c in t.links ensures LinkOk(t, c, t.links[c]) {
      var k := s.links[c];
      assert LinkOk(s, c, k);
      if c != l.link { Untouched(s, t, c); }
      else if k.open && k.start.Some? { FedLinkOk(s, t, c, k); }
    }
  }

  lemma ServedLinkOk(s: State, t: State, c: nat, k: Link)
    requires LinkOk(s, c, k) && k.channel != []
    requires t.sent == s.sent && t.replicas == s.replicas && Owed(t, c) == Owed(s, c)
    ensures LinkOk(t, c, k.(applied := k.applied + [k.channel[0]], channel := k.channel[1..]))
  {
    assert k.applied + [k.channel[0]] + k.channel[1..] == k.applied + k.channel;
  }

  lemma DeliverKeepsInv(s: State, l: Step, t: State)
    requires Inv(s) && Next(s, l, t) && l.Deliver?
    ensures Inv(t)
  {
    forall c | c in t.links ensures LinkOk(t, c, t.links[c]) {
      assert LinkOk(s, c, s.links[c]);
      if c != l.link { Untouched(s, t, c); } else { ServedLinkOk(s, t, c, s.links[c]); }
    }
  }

  lemma LoseKeepsInv(s: State, l: Step, t: State)
    requires Inv(s) && Next(s, l, t) && l.Lose?
    ensures Inv(t)
  {
    forall c | c in t.links ensures LinkOk(t, c, t.links[c]) {
      var k := s.links[c];
      assert LinkOk(s, c, k);
      if c != l.link { Untouched(s, t, c); }
      else if k.start.Some? {
        var from, n, m := k.start.value, |k.applied|, |k.applied + k.channel|;
        assert k.applied + [] == k.applied == (k.applied + k.channel)[..n];
        assert s.sent[from..from + m][..n] == s.sent[from..from + n];
      }
    }
  }

  lemma OtherStepsKeepInv(s: State, l: Step, t: State)
    requires Inv(s) && Next(s, l, t) && (l.ReadOffset? || l.Raise? || l.WriteDone? || l.Land?)
    ensures Inv(t)
  {
    forall c | c in t.links ensures LinkOk(t, c, t.links[c]) {
      if c in s.links { Untouched(s, t, c); }
    }
  }

  lemma NextKeepsInv(s: State, l: Step, t: State)
    requires Inv(s) && Next(s, l, t)
    ensures Inv(t)
  {
    if l.Register? { RegisterKeepsInv(s, l, t); }
    else if l.FanOut? { FanOutKeepsInv(s, t); }
    else if l.Send? { SendKeepsInv(s, l, t); }
    else if l.Deliver? { DeliverKeepsInv(s, l, t); }
    else if l.Lose? { LoseKeepsInv(s, l, t); }
    else { OtherStepsKeepInv(s, l, t); }
  }

  ghost predicate IsRun(states: seq<State>, steps: seq<Step>) {
    && |states| == |steps| + 1 && Init(states[0])
    && forall i | 0 <= i < |steps| :: Taken(states, steps, i)
  }

  ghost predicate Taken(states: seq<State>, steps: seq<Step>, i: nat)
    requires i < |steps| && |states| == |steps| + 1
  {
    Next(states[i], steps[i], states[i + 1])
  }

  lemma {:induction false} RunKeepsInv(states: seq<State>, steps: seq<Step>, i: nat)
    requires IsRun(states, steps) && i < |states|
    ensures Inv(states[i]) && StoreOk(states[i])
  {
    if i > 0 {
      RunKeepsInv(states, steps, i - 1);
      assert Taken(states, steps, i - 1);
      NextKeepsInv(states[i - 1], steps[i - 1], states[i]);
      NextKeepsStore(states[i - 1], steps[i - 1], states[i]);
    }
  }

  // ---- Results ----

  /** The offset a replica reports. */
  function ReplicaOffset(k: Link): nat { k.told + |k.applied| }

  /** In every interleaving, what a replica has applied on a connection is a
      gap-free run of the master's sequence from its registration on. */
  lemma AppliedIsGapFree(states: seq<State>, steps: seq<Step>, i: nat, c: nat)
    requires IsRun(states, steps) && i < |states| && c in states[i].links && states[i].links[c].start.Some?
    ensures var s := states[i];
            var k := s.links[c];
            k.start.value + |k.applied| <= |s.sent| &&
            k.applied == s.sent[k.start.value..k.start.value + |k.applied|]
  {
    RunKeepsInv(states, steps, i);
    var s := states[i];
    var k := s.links[c];
    assert LinkOk(s, c, k);
    var from, got, n := k.start.value, k.applied + k.channel, |k.applied|;
    assert k.applied == got[..n];
    assert s.sent[from..from + |got|][..n] == s.sent[from..from + n];
  }

  /** A replica's offset never runs ahead of the master's, counting what is under
      way; between writes, an open connection lags by exactly the writes that fell
      between reading the offset and registering. */
  lemma OffsetDeficit(states: seq<State>, steps: seq<Step>, i: nat, c: nat)
    requires IsRun(states, steps) && i < |states| && c in states[i].links
    ensures var s := states[i];
            var k := s.links[c];
            && ReplicaOffset(k) + |k.channel| <= s.offset
            && (k.open && k.start.Some? && s.write.Quiet? ==>
                  s.offset - (ReplicaOffset(k) + |k.channel|) == k.start.value - k.told)
  {
    RunKeepsInv(states, steps, i);
    assert LinkOk(states[i], c, states[i].links[c]);
  }

  /** Between writes, with nothing left to land. */
  ghost predicate AllLanded(s: State) { s.write.Quiet? && s.waiting == {} }

  /** The order in which writes reached the master's store. */
  ghost function LandingOrder(s: State): (r: seq<nat>)
    ensures |r| == |s.landed| && forall i | 0 <= i < |r| :: r[i] == s.landed[i].index
  {
    seq(|s.landed|, i requires 0 <= i < |s.landed| => s.landed[i].index)
  }

  /** Writes that overtook each other on the way to the master's store name no common key. */
  ghost predicate OvertookOnlyOthers(s: State)
    requires InSequence(s)
  {
    forall i, j | 0 <= i < j < |s.landed| && s.landed[j].index < s.landed[i].index ::
      Independent(s.sent[s.landed[i].index], s.sent[s.landed[j].index])
  }

  /** Commands as a replica runs them, each in surroundings of its own. */
  ghost function RunBy(cmds: seq<Command>, envs: seq<S.Env>): (r: seq<Executed>)
    requires |cmds| == |envs|
    ensures |r| == |cmds| && forall i | 0 <= i < |r| :: r[i] == Executed(cmds[i], envs[i])
  {
    seq(|cmds|, i requires 0 <= i < |cmds| => Executed(cmds[i], envs[i]))
  }

  lemma AllLandedOnce(s: State)
    requires StoreOk(s) && AllLanded(s)
    ensures IsOrder(LandingOrder(s), |s.sent|)
  {
    Pigeonhole(LandingOrder(s), |s.sent|);
    var places := Places(s, |s.sent|);
    Pigeonhole(places, |s.landed|);
  }

  /** Where each of the first `n` writes landed. */
  lemma {:induction false} Places(s: State, n: nat) returns (places: seq<nat>)
    requires StoreOk(s) && AllLanded(s) && n <= |s.sent|
    ensures |places| == n && forall i | 0 <= i < n :: places[i] < |s.landed| && s.landed[places[i]].index == i
  {
    places := [];
    if n > 0 {
      var before := Places(s, n - 1);
      assert HasLanded(s.landed, n - 1);
      var i :| 0 <= i < |s.landed| && s.landed[i].index == n - 1;
      places := before + [i];
    }
  }

  /** The writes in the order they were sent, each as it ran on the master. */
  lemma SentRun(s: State) returns (run: seq<Executed>)
    requires StoreOk(s) && AllLanded(s)
    ensures |run| == |s.sent| && (forall k | 0 <= k < |run| :: run[k].cmd == s.sent[k])
    ensures IsOrder(LandingOrder(s), |run|) && Pick(run, LandingOrder(s)) == Ran(s)
  {
    AllLandedOnce(s);
    var places := Places(s, |s.sent|);
    run := seq(|s.sent|, k requires 0 <= k < |s.sent| => Executed(s.sent[k], s.landed[places[k]].env));
    var order := LandingOrder(s);
    forall i | 0 <= i < |order| ensures Pick(run, order)[i] == Ran(s)[i] {
      assert s.landed[places[order[i]]].index == order[i];
      assert places[order[i]] == i;
    }
  }

  lemma DrainedHasApplied(s: State, c: nat)
    requires Inv(s) && c in s.links && s.write.Quiet?
    requires var k := s.links[c]; k.open && k.start == Some(0) && k.channel == []
    ensures s.links[c].applied == s.sent
  {
    assert LinkOk(s, c, s.links[c]);
    assert s.links[c].applied + [] == s.links[c].applied && s.sent[0..|s.sent|] == s.sent;
  }

  /** In every run in which only writes without a common key overtake each other on their
      way to the master's store, a replica registered before the first write and fully
      drained holds the master's store, for writes of the deterministic fragment, whatever
      the clocks and hash orders on either side. */
  lemma DrainedReplicaEqualsMaster(states: seq<State>, steps: seq<Step>, i: nat, c: nat, envs: seq<S.Env>)
    requires IsRun(states, steps) && i < |states| && c in states[i].links
    requires var k := states[i].links[c];
             k.open && k.start == Some(0) && k.channel == [] && |envs| == |k.applied|
    requires AllLanded(states[i]) && InSequence(states[i]) && OvertookOnlyOthers(states[i])
    requires FragmentRun(map[], Ran(states[i])) && forall j | 0 <= j < |envs| :: S.Sane(envs[j])
    ensures ApplyAll(map[], RunBy(states[i].links[c].applied, envs)) == states[i].store
  {
    var s := states[i];
    RunKeepsInv(states, steps, i);
    DrainedHasApplied(s, c);
    var run := SentRun(s);
    assert OvertakersIndependent(run, LandingOrder(s));
    OrderDoesNotMatter(map[], run, LandingOrder(s));
    HistoryReplays(map[], run, RunBy(s.links[c].applied, envs));
  }
}
