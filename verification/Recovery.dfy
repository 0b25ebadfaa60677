/** WAL-only durability: one writer logs a command, then applies it; a script applies
    its commands, then logs them; at any point the process may stop and rebuild its
    store from the bytes of the log files. */
module Recovery {
  import opened Primitives
  import opened Commands
  import opened Effects
  import R = Reordering
  import S = Store
  import W = Wal
  import F = WalFiles

  /** The log files, the history behind them, the live store, the command that is
      logged but not applied, and a script's commands that are applied but not logged. */
  datatype Server = Server(files: F.Files, log: F.View, store: S.Store, pending: Option<Executed>,
                           unlogged: seq<Executed>)

  datatype Step =
    | LogCommand(what: Executed, timestamp: nat, rotate: bool)
    | ApplyPending
    | ScriptCall(what: Executed)
    | ScriptLog(timestamp: nat, rotate: bool)
    | Restart(envs: seq<S.Env>)

  /** The entries, each replayed in an environment of its own. */
  function Replays(es: seq<W.WalEntry>, envs: seq<S.Env>): (r: seq<Executed>)
    requires |es| == |envs|
    ensures |r| == |es| && forall i | 0 <= i < |r| :: r[i] == Executed(es[i].command, envs[i])
  {
    seq(|es|, i requires 0 <= i < |es| => Executed(es[i].command, envs[i]))
  }

  /** One environment for every entry that the files deliver. */
  ghost predicate EnvsFor(codec: W.Codec, files: F.Files, envs: seq<S.Env>) {
    |envs| == |F.ReplayFiles(codec, files).entries| && forall i | 0 <= i < |envs| :: S.Sane(envs[i])
  }

  /** Loading from persistence: replay the bytes of every file onto an empty store. */
  ghost function Recovered(codec: W.Codec, files: F.Files, envs: seq<S.Env>): S.Store
    requires EnvsFor(codec, files, envs)
  {
    ApplyAll(map[], Replays(F.ReplayFiles(codec, files).entries, envs))
  }

  function LoggedFiles(codec: W.Codec, files: F.Files, e: W.WalEntry, rotate: bool): F.Files
    requires files.segments != []
  {
    var appended := F.AppendBytes(codec, files, e);
    if rotate then F.RotateFiles(appended) else appended
  }

  function Logged(log: F.View, e: W.WalEntry, rotate: bool): F.View
    requires log.disk.segments != []
  {
    if rotate then F.RotatedView(F.Appended(log, e)) else F.Appended(log, e)
  }

  ghost predicate Next(codec: W.Codec, a: Server, l: Step, b: Server) {
    match l
    case LogCommand(what, timestamp, rotate) =>
      && a.pending == None && a.unlogged == [] && S.Sane(what.env) && Deterministic(what.cmd, a.store)
      && LogsTo(codec, a, what.cmd, timestamp, rotate, b.files, b.log)
      && b.store == a.store && b.pending == Some(what) && b.unlogged == []
    case ApplyPending =>
      a.pending.Some? && b == a.(store := Live(a.pending.value.cmd, a.store, a.pending.value.env), pending := None)
    case ScriptCall(what) => // a script runs its calls before any of them is logged
      && a.pending == None && S.Sane(what.env) && Deterministic(what.cmd, a.store)
      && b == a.(store := Live(what.cmd, a.store, what.env), unlogged := a.unlogged + [what])
    case ScriptLog(timestamp, rotate) =>
      && a.pending == None && a.unlogged != []
      && LogsTo(codec, a, a.unlogged[0].cmd, timestamp, rotate, b.files, b.log)
      && b.store == a.store && b.pending == None && b.unlogged == a.unlogged[1..]
    case Restart(envs) => // the store from the files' entries, the next number from their headers
      var best := F.ScanFiles(a.files, |a.files.segments|);
      && EnvsFor(codec, a.files, envs) && best.Some?
      && b == Server(a.files, a.log.(next := F.NumberAfter(best.value)), Recovered(codec, a.files, envs), None, [])
  }

  /** One more entry in files and history. */
  ghost predicate LogsTo(codec: W.Codec, a: Server, cmd: Command, timestamp: nat, rotate: bool,
                         files: F.Files, log: F.View) {
    var e := W.WalEntry(a.log.next, timestamp, cmd);
    && W.Fits(codec, e) && a.log.disk.segments != [] && a.files.segments != []
    && files == LoggedFiles(codec, a.files, e, rotate) && log == Logged(a.log, e, rotate)
  }

  ghost predicate Init(codec: W.Codec, a: Server) {
    && F.OnDisk(codec, a.files, a.log.disk) && F.Consistent(a.log)
    && a.log.history == [] && a.log.rotations == 0 && a.store == map[] && a.pending == None && a.unlogged == []
  }

  /** The store once the pending command is applied. */
  function Completed(a: Server): S.Store {
    if a.pending.None? then a.store else Live(a.pending.value.cmd, a.store, a.pending.value.env)
  }

  /** The history logs just these commands. */
  ghost predicate Logs(ran: seq<Executed>, history: seq<W.WalEntry>) {
    |ran| == |history| && forall i | 0 <= i < |ran| :: ran[i].cmd == history[i].command
  }

  lemma LogsOneMore(ran: seq<Executed>, history: seq<W.WalEntry>, x: Executed, e: W.WalEntry)
    requires Logs(ran, history) && e.command == x.cmd
    ensures Logs(ran + [x], history + [e])
  {
  }

  /** `ran` is how the logged history came about, and `ran` with the unlogged calls behind
      is how the store did. */
  ghost predicate RanAs(a: Server, ran: seq<Executed>) {
    && Logs(ran, a.log.history) && FragmentRun(map[], ran + a.unlogged)
    && (if a.pending.None? then a.store == LiveAll(map[], ran + a.unlogged)
        else a.unlogged == [] && ran != [] && ran[|ran| - 1] == a.pending.value &&
             a.store == LiveAll(map[], ran[..|ran| - 1]))
  }

  ghost predicate Intact(log: F.View) { log.rotations <= |log.disk.segments| }

  ghost predicate Inv(codec: W.Codec, a: Server) {
    && F.OnDisk(codec, a.files, a.log.disk) && F.Consistent(a.log)
    && (Intact(a.log) ==> HasRun(a))
  }

  ghost predicate HasRun(a: Server) { exists ran :: RanAs(a, ran) }

  lemma CompletedIsLive(a: Server, ran: seq<Executed>)
    requires RanAs(a, ran)
    ensures Completed(a) == LiveAll(map[], ran + a.unlogged)
  {
    if a.pending.Some? { assert ran + [] == ran; }
  }

  lemma RetainedReplays(es: seq<W.WalEntry>, ran: seq<Executed>, envs: seq<S.Env>)
    requires |ran| == |es| == |envs| && (forall i | 0 <= i < |ran| :: ran[i].cmd == es[i].command)
    requires FragmentRun(map[], ran) && forall i | 0 <= i < |envs| :: S.Sane(envs[i])
    ensures ApplyAll(map[], Replays(es, envs)) == LiveAll(map[], ran)
  {
    HistoryReplays(map[], ran, Replays(es, envs));
  }

  lemma {:induction false} LiveBehind(st: S.Store, xs: seq<Executed>, ys: seq<Executed>)
    ensures LiveAll(st, xs + ys) == LiveAll(LiveAll(st, xs), ys)
    decreases |ys|
  {
    if ys == [] {
      assert xs + ys == xs;
    } else {
      var n := |ys| - 1;
      LiveBehind(st, xs, ys[..n]);
      assert xs + ys == (xs + ys[..n]) + [ys[n]];
      R.LiveOneMore(st, xs + ys[..n], ys[n]);
    }
  }

  /** Bytes that deliver a history of the fragment rebuild the live store, but for what
      a script has not logged and with what is logged but not applied. */
  lemma ReplayRebuilds(codec: W.Codec, files: F.Files, a: Server, ran: seq<Executed>, envs: seq<S.Env>)
    requires F.ReplayFiles(codec, files).entries == a.log.history && RanAs(a, ran) && EnvsFor(codec, files, envs)
    ensures Recovered(codec, files, envs) == LiveAll(map[], ran)
    ensures LiveAll(Recovered(codec, files, envs), a.unlogged) == Completed(a)
  {
    FragmentFront(ran, a.unlogged);
    RetainedReplays(a.log.history, ran, envs);
    CompletedIsLive(a, ran);
    LiveBehind(map[], ran, a.unlogged);
  }

  lemma FragmentFront(xs: seq<Executed>, ys: seq<Executed>)
    requires FragmentRun(map[], xs + ys)
    ensures FragmentRun(map[], xs)
  {
    FragmentPrefix(map[], xs + ys, |xs|);
    assert (xs + ys)[..|xs|] == xs;
  }

  lemma LoggedHistory(log: F.View, e: W.WalEntry, rotate: bool)
    requires log.disk.segments != []
    ensures Logged(log, e, rotate).history == log.history + [e]
  {
  }

  lemma LogExtends(codec: W.Codec, a: Server, ran: seq<Executed>, l: Step, b: Server)
    requires RanAs(a, ran) && l.LogCommand? && Next(codec, a, l, b)
    ensures RanAs(b, ran + [l.what])
  {
    assert ran + [] == ran && ran + [l.what] + [] == ran + [l.what];
    R.FragmentOneMore(map[], ran, l.what);
    assert (ran + [l.what])[..|ran|] == ran;
    var e := W.WalEntry(a.log.next, l.timestamp, l.what.cmd);
    LoggedHistory(a.log, e, l.rotate);
    LogsOneMore(ran, a.log.history, l.what, e);
  }

  lemma CallExtends(codec: W.Codec, a: Server, ran: seq<Executed>, l: Step, b: Server)
    requires RanAs(a, ran) && l.ScriptCall? && Next(codec, a, l, b)
    ensures RanAs(b, ran)
  {
    assert ran + (a.unlogged + [l.what]) == (ran + a.unlogged) + [l.what];
    R.FragmentOneMore(map[], ran + a.unlogged, l.what);
    R.LiveOneMore(map[], ran + a.unlogged, l.what);
  }

  lemma ScriptLogShifts(codec: W.Codec, a: Server, ran: seq<Executed>, l: Step, b: Server)
    requires RanAs(a, ran) && l.ScriptLog? && Next(codec, a, l, b)
    ensures RanAs(b, ran + [a.unlogged[0]])
  {
    var e := W.WalEntry(a.log.next, l.timestamp, a.unlogged[0].cmd);
    LoggedHistory(a.log, e, l.rotate);
    FirstCallLogged(a, ran, e, b);
  }

  lemma FirstCallLogged(a: Server, ran: seq<Executed>, e: W.WalEntry, b: Server)
    requires RanAs(a, ran) && a.pending == None && a.unlogged != [] && e.command == a.unlogged[0].cmd
    requires b.log.history == a.log.history + [e] && b.store == a.store
    requires b.pending == None && b.unlogged == a.unlogged[1..]
    ensures RanAs(b, ran + [a.unlogged[0]])
  {
    LogsOneMore(ran, a.log.history, a.unlogged[0], e);
    ShiftOne(ran, a.unlogged);
  }

  lemma ShiftOne<T>(xs: seq<T>, ys: seq<T>)
    requires ys != []
    ensures xs + [ys[0]] + ys[1..] == xs + ys
  {
  }

  lemma ApplyCompletes(codec: W.Codec, a: Server, ran: seq<Executed>, b: Server)
    requires RanAs(a, ran) && Next(codec, a, ApplyPending, b)
    ensures RanAs(b, ran)
  {
    assert ran + [] == ran;
    LiveLast(ran);
  }

  lemma LiveLast(run: seq<Executed>)
    requires run != []
    ensures var n := |run| - 1; LiveAll(map[], run) == Live(run[n].cmd, LiveAll(map[], run[..n]), run[n].env)
  {
  }

  lemma LoggedIsConsistent(log: F.View, e: W.WalEntry, rotate: bool)
    requires F.Consistent(log) && e.sequence == log.next
    ensures F.Consistent(Logged(log, e, rotate)) && (Intact(Logged(log, e, rotate)) ==> Intact(log))
  {
    F.AppendKeepsConsistent(log, e);
    if rotate { F.RotateKeepsConsistent(F.Appended(log, e)); }
  }

  lemma LoggedIsOnDisk(codec: W.Codec, files: F.Files, log: F.View, e: W.WalEntry, rotate: bool)
    requires F.OnDisk(codec, files, log.disk) && log.disk.segments != [] && W.Fits(codec, e)
    ensures F.OnDisk(codec, LoggedFiles(codec, files, e, rotate), Logged(log, e, rotate).disk)
  {
    F.AppendOnDisk(codec, files, log.disk, e);
    if rotate { F.RotateOnDisk(codec, F.AppendBytes(codec, files, e), F.Appended(log, e).disk); }
  }

  lemma LogsToKeeps(codec: W.Codec, a: Server, cmd: Command, timestamp: nat, rotate: bool, b: Server)
    requires F.OnDisk(codec, a.files, a.log.disk) && F.Consistent(a.log)
    requires LogsTo(codec, a, cmd, timestamp, rotate, b.files, b.log)
    ensures F.OnDisk(codec, b.files, b.log.disk) && F.Consistent(b.log) && (Intact(b.log) ==> Intact(a.log))
  {
    var e := W.WalEntry(a.log.next, timestamp, cmd);
    LoggedIsConsistent(a.log, e, rotate);
    LoggedIsOnDisk(codec, a.files, a.log, e, rotate);
  }

  /** What led to the store goes on leading to it. */
  lemma StepKeepsRan(codec: W.Codec, a: Server, l: Step, b: Server)
    requires HasRun(a) && Next(codec, a, l, b) && !l.Restart?
    ensures HasRun(b)
  {
    var ran :| RanAs(a, ran);
    match l {
      case LogCommand(_, _, _) => LogExtends(codec, a, ran, l, b);
      case ApplyPending => ApplyCompletes(codec, a, ran, b);
      case ScriptCall(_) => CallExtends(codec, a, ran, l, b);
      case ScriptLog(_, _) => ScriptLogShifts(codec, a, ran, l, b);
    }
  }

  /** A restart numbers on from the last entry ever appended. */
  lemma RestartNumbersOn(codec: W.Codec, a: Server)
    requires F.OnDisk(codec, a.files, a.log.disk) && F.Consistent(a.log)
    ensures F.ScanFiles(a.files, |a.files.segments|).Some?
    ensures var best := F.ScanFiles(a.files, |a.files.segments|).value;
            F.NumberAfter(best) == F.NextAfter(a.log.history) && F.Consistent(a.log.(next := F.NumberAfter(best)))
  {
    F.ScanHeld(codec, a.files, a.log.disk, |a.files.segments|);
    F.NextFromScan(a.log);
  }

  lemma RestartedRan(a: Server, ran: seq<Executed>, b: Server)
    requires RanAs(a, ran) && b.log.history == a.log.history
    requires b.pending == None && b.unlogged == [] && b.store == LiveAll(map[], ran)
    ensures HasRun(b)
  {
    FragmentFront(ran, a.unlogged);
    assert ran + [] == ran;
    assert RanAs(b, ran);
  }

  /** What led to the store, unlogged calls left aside, leads to what a restart finds. */
  lemma RestartFinds(codec: W.Codec, a: Server, ran: seq<Executed>, envs: seq<S.Env>)
    requires F.OnDisk(codec, a.files, a.log.disk) && F.Consistent(a.log) && Intact(a.log)
    requires RanAs(a, ran) && EnvsFor(codec, a.files, envs)
    ensures Recovered(codec, a.files, envs) == LiveAll(map[], ran)
  {
    F.FilesReplay(codec, a.files, a.log.disk);
    NothingDropped(a.log);
    ReplayRebuilds(codec, a.files, a, ran, envs);
  }

  lemma RestartKeepsInv(codec: W.Codec, a: Server, l: Step, b: Server)
    requires Inv(codec, a) && Next(codec, a, l, b) && l.Restart?
    ensures Inv(codec, b)
  {
    RestartNumbersOn(codec, a);
    if Intact(b.log) {
      var ran :| RanAs(a, ran);
      RestartFinds(codec, a, ran, l.envs);
      RestartedRan(a, ran, b);
    }
  }

  lemma NothingDropped(log: F.View)
    requires F.Consistent(log) && Intact(log)
    ensures F.Retained(log.disk) == log.history
  {
    assert [] + F.Retained(log.disk) == F.Retained(log.disk);
  }

  lemma NextKeepsInv(codec: W.Codec, a: Server, l: Step, b: Server)
    requires Inv(codec, a) && Next(codec, a, l, b)
    ensures Inv(codec, b)
  {
    if l.Restart? {
      RestartKeepsInv(codec, a, l, b);
    } else {
      if l.LogCommand? { LogsToKeeps(codec, a, l.what.cmd, l.timestamp, l.rotate, b); }
      else if l.ScriptLog? { LogsToKeeps(codec, a, a.unlogged[0].cmd, l.timestamp, l.rotate, b); }
      if Intact(b.log) { StepKeepsRan(codec, a, l, b); }
    }
  }

  lemma InitIsInv(codec: W.Codec, a: Server)
    requires Init(codec, a)
    ensures Inv(codec, a)
  {
    NothingRan(a);
  }

  lemma NothingRan(a: Server)
    requires a.log.history == [] && a.store == map[] && a.pending == None && a.unlogged == []
    ensures RanAs(a, [])
  {
  }

  ghost predicate IsRun(codec: W.Codec, states: seq<Server>, steps: seq<Step>) {
    && |states| == |steps| + 1 && Init(codec, states[0])
    && forall i | 0 <= i < |steps| :: Taken(codec, states, steps, i)
  }

  ghost predicate Taken(codec: W.Codec, states: seq<Server>, steps: seq<Step>, i: nat)
    requires i < |steps| && |states| == |steps| + 1
  {
    Next(codec, states[i], steps[i], states[i + 1])
  }

  lemma BeginsOk(codec: W.Codec, states: seq<Server>, steps: seq<Step>)
    requires IsRun(codec, states, steps)
    ensures Inv(codec, states[0])
  {
    InitIsInv(codec, states[0]);
  }

  lemma StepKeepsInv(codec: W.Codec, states: seq<Server>, steps: seq<Step>, i: nat)
    requires IsRun(codec, states, steps) && 0 < i < |states| && Inv(codec, states[i - 1])
    ensures Inv(codec, states[i])
  {
    assert Taken(codec, states, steps, i - 1);
    NextKeepsInv(codec, states[i - 1], steps[i - 1], states[i]);
  }

  /** The invariant, at a state of a run. */
  ghost predicate Kept(codec: W.Codec, states: seq<Server>, i: nat) { i < |states| && Inv(codec, states[i]) }

  lemma RunKeepsInv(codec: W.Codec, states: seq<Server>, steps: seq<Step>, i: nat)
    requires IsRun(codec, states, steps) && i < |states|
    ensures Inv(codec, states[i])
  {
    BeginsOk(codec, states, steps);
    for n := 0 to i
      invariant Kept(codec, states, n)
    {
      StepKeepsInv(codec, states, steps, n + 1);
    }
  }

  /** Durability in every run of logging, applying, scripting, rotating and restarting: as
      long as rotations do not exceed the retained segments, the bytes of the files
      replay without error, and onto an empty store, under any clocks and hash orders,
      they yield the live store, or the live store after the one command logged but not
      yet applied, or, inside a script, the store that lacks just what the script has
      applied and not yet logged. */
  lemma CrashAnywhereRecovers(codec: W.Codec, states: seq<Server>, steps: seq<Step>, i: nat, envs: seq<S.Env>)
    requires IsRun(codec, states, steps) && i < |states|
    requires Intact(states[i].log) && EnvsFor(codec, states[i].files, envs)
    ensures F.ReplayFiles(codec, states[i].files).ok
    ensures LiveAll(Recovered(codec, states[i].files, envs), states[i].unlogged) == Completed(states[i])
    ensures states[i].unlogged == [] ==> Recovered(codec, states[i].files, envs) == Completed(states[i])
  {
    var a := states[i];
    RunKeepsInv(codec, states, steps, i);
    F.FilesReplay(codec, a.files, a.log.disk);
    NothingDropped(a.log);
    var ran :| RanAs(a, ran);
    ReplayRebuilds(codec, a.files, a, ran, envs);
  }

  /** Several writers at once: if the logged commands reached the store in another order,
      and only commands without a common key overtook each other, the bytes still
      rebuild the store. */
  lemma OvertakingWritersRecover(codec: W.Codec, files: F.Files, log: F.View, ran: seq<Executed>, order: seq<nat>,
                                 envs: seq<S.Env>)
    requires F.OnDisk(codec, files, log.disk) && F.Consistent(log) && Intact(log) && EnvsFor(codec, files, envs)
    requires |ran| == |log.history| && (forall i | 0 <= i < |ran| :: ran[i].cmd == log.history[i].command)
    requires R.IsOrder(order, |ran|) && R.OvertakersIndependent(ran, order)
    requires FragmentRun(map[], R.Pick(ran, order))
    ensures Recovered(codec, files, envs) == LiveAll(map[], R.Pick(ran, order))
  {
    F.FilesReplay(codec, files, log.disk);
    NothingDropped(log);
    R.OrderDoesNotMatter(map[], ran, order);
    RetainedReplays(log.history, ran, envs);
  }

  // ---- A crash inside an append ----

  /** The files when the process stops `n` bytes into appending `e`. */
  function TornFiles(codec: W.Codec, files: F.Files, e: W.WalEntry, n: nat): F.Files
    requires n < |W.Serialize(codec, e)|
  {
    files.(active := files.active + W.Serialize(codec, e)[..n])
  }

  /** What the torn files hold: whatever part of the new entry reached them, replay
      delivers the store as it was before that command, with an error exactly when the
      cut is inside the body. Whether the server gets as far as replaying them is
      another matter. */
  lemma TornFilesHold(codec: W.Codec, states: seq<Server>, steps: seq<Step>, i: nat, e: W.WalEntry, n: nat,
                      envs: seq<S.Env>)
    requires IsRun(codec, states, steps) && i < |states| && Intact(states[i].log)
    requires W.Fits(codec, e) && n < |W.Serialize(codec, e)|
    requires EnvsFor(codec, TornFiles(codec, states[i].files, e, n), envs)
    ensures LiveAll(Recovered(codec, TornFiles(codec, states[i].files, e, n), envs), states[i].unlogged)
         == Completed(states[i])
    ensures F.ReplayFiles(codec, TornFiles(codec, states[i].files, e, n)).ok <==> n < W.HEADER
  {
    var a := states[i];
    RunKeepsInv(codec, states, steps, i);
    F.TornAppendReplays(codec, a.files, a.log.disk, e, n);
    NothingDropped(a.log);
    var ran :| RanAs(a, ran);
    ReplayRebuilds(codec, TornFiles(codec, a.files, e, n), a, ran, envs);
  }

  /** The log reopens, and with the right next number, if and only if the cut is inside
      the header; otherwise the server does not start. */
  lemma TornLogReopensIff(codec: W.Codec, states: seq<Server>, steps: seq<Step>, i: nat, e: W.WalEntry, n: nat)
    requires IsRun(codec, states, steps) && i < |states|
    requires W.Fits(codec, e) && n < |W.Serialize(codec, e)|
    ensures var torn := TornFiles(codec, states[i].files, e, n);
            var best := F.ScanFiles(torn, |torn.segments|);
            && (best.Some? <==> n < W.HEADER)
            && (best.Some? ==> F.NumberAfter(best.value) == F.NextAfter(states[i].log.history))
  {
    var a := states[i];
    RunKeepsInv(codec, states, steps, i);
    F.TornAppendScans(codec, a.files, a.log.disk, e, n, |a.files.segments|);
    F.NextFromScan(a.log);
  }

  /** Reopened on a torn header, the server is not safe: the next entry is written behind
      the torn bytes, and when the length that is then read points past the end of the
      file, everything from there on is lost and the log does not open again. */
  lemma AppendBehindTornHeaderIsLost(codec: W.Codec, files: F.Files, d: F.Disk, torn: Bytes, more: Bytes)
    requires F.OnDisk(codec, files, d) && 0 < |torn| < W.HEADER <= |torn + more|
    requires |torn + more| < W.EntrySize(torn + more)
    ensures var after := files.(active := files.active + (torn + more));
            && F.ReplayFiles(codec, after) == W.Replayed(F.Retained(d), false)
            && F.ScanFiles(after, |after.segments|) == None
  {
    F.BadTail(codec, files, d, torn + more);
  }

  /** So it is for one torn byte, whatever it is, and every entry whose timestamp does not
      end in a zero byte, with a command below 16 MiB. */
  lemma OneTornByteLosesTheNext(codec: W.Codec, files: F.Files, d: F.Disk, torn: Byte, e: W.WalEntry)
    requires F.OnDisk(codec, files, d) && W.Fits(codec, e)
    requires e.timestamp % 256 != 0 && |codec.encode(e.command)| < 0x100_0000 - 24
    ensures var after := files.(active := files.active + ([torn] + W.Serialize(codec, e)));
            && F.ReplayFiles(codec, after) == W.Replayed(F.Retained(d), false)
            && F.ScanFiles(after, |after.segments|) == None
  {
    W.ShiftedSizeField(codec, torn, e);
    AppendBehindTornHeaderIsLost(codec, files, d, [torn], W.Serialize(codec, e));
  }
}
