/** The log's files: append, size-triggered rotation, replay order and reopening
    (persistence/wal.rs), with every append flushed. */
module WalFiles {
  import opened Primitives
  import opened Commands
  import opened Wal

  // ---- What the files hold ----

  /** Entries of the active file, and of the segments `.1` (newest), `.2`, ...; a
      missing segment holds nothing. */
  datatype Disk = Disk(active: seq<WalEntry>, segments: seq<seq<WalEntry>>)

  /** Segments from the oldest to the newest. */
  function OldestFirst(segments: seq<seq<WalEntry>>): seq<WalEntry> {
    if segments == [] then [] else OldestFirst(segments[1..]) + segments[0]
  }

  /** Everything on disk, in replay order. */
  function Retained(d: Disk): seq<WalEntry> { OldestFirst(d.segments) + d.active }

  /** Segments move up by one, the last falls off, the active file becomes `.1`. */
  function Rotated(d: Disk): Disk
    requires d.segments != []
  {
    Disk([], [d.active] + d.segments[..|d.segments| - 1])
  }

  lemma {:induction false} LastSegmentIsOldest(segments: seq<seq<WalEntry>>)
    requires segments != []
    ensures OldestFirst(segments) == segments[|segments| - 1] + OldestFirst(segments[..|segments| - 1])
  {
    var n := |segments|;
    if n > 1 {
      LastSegmentIsOldest(segments[1..]);
      assert segments[1..][..n - 2] == segments[..n - 1][1..];
      Assoc(segments[n - 1], OldestFirst(segments[1..][..n - 2]), segments[0]);
    }
  }

  /** Rotation loses exactly what the last segment held. */
  lemma RotationDropsOldest(d: Disk)
    requires d.segments != []
    ensures Retained(d) == d.segments[|d.segments| - 1] + Retained(Rotated(d))
  {
    var n := |d.segments|;
    var kept := d.segments[..n - 1];
    LastSegmentIsOldest(d.segments);
    assert Rotated(d).segments[1..] == kept;
    Assoc(d.segments[n - 1], OldestFirst(kept), d.active);
    assert Retained(Rotated(d)) == OldestFirst(kept) + d.active;
  }

  // ---- The history behind the files ----

  ghost predicate Increasing(es: seq<WalEntry>) {
    forall i, j | 0 <= i < j < |es| :: es[i].sequence < es[j].sequence
  }

  /** The files, everything ever appended, what rotation has dropped of it, how
      often it ran, and the next sequence number. */
  datatype View = View(disk: Disk, history: seq<WalEntry>, dropped: seq<WalEntry>, rotations: nat, next: nat)

  /** The files are a suffix of the history, and all of it while rotations do not
      exceed the retained segments; sequence numbers strictly increase and the
      next one exceeds them all; the last entry is never lost. */
  ghost predicate Consistent(v: View) {
    && v.disk.segments != []
    && v.history == v.dropped + Retained(v.disk)
    && (v.rotations <= |v.disk.segments| ==> v.dropped == [])
    && (forall i | v.rotations <= i < |v.disk.segments| :: v.disk.segments[i] == [])
    && Increasing(v.history) && (forall e | e in v.history :: e.sequence < v.next)
    && (v.history != [] ==> Retained(v.disk) != [])
  }

  function Appended(v: View, e: WalEntry): View {
    v.(disk := v.disk.(active := v.disk.active + [e]), history := v.history + [e], next := v.next + 1)
  }

  lemma AppendKeepsConsistent(v: View, e: WalEntry)
    requires Consistent(v) && e.sequence == v.next
    ensures Consistent(Appended(v, e))
  {
    Assoc(OldestFirst(v.disk.segments), v.disk.active, [e]);
    Assoc(v.dropped, Retained(v.disk), [e]);
    var w := Appended(v, e);
    assert Retained(w.disk) == Retained(v.disk) + [e];
    forall i, j | 0 <= i < j < |w.history| ensures w.history[i].sequence < w.history[j].sequence {
      if j == |v.history| { assert w.history[i] == v.history[i] && v.history[i] in v.history; }
    }
  }

  function RotatedView(v: View): View
    requires v.disk.segments != []
  {
    v.(disk := Rotated(v.disk), rotations := v.rotations + 1,
       dropped := v.dropped + v.disk.segments[|v.disk.segments| - 1])
  }

  lemma RotateKeepsConsistent(v: View)
    requires Consistent(v) && v.disk.active != []
    ensures Consistent(RotatedView(v))
  {
    RotationDropsOldest(v.disk);
    var n := |v.disk.segments|;
    var w := RotatedView(v);
    Assoc(v.dropped, v.disk.segments[n - 1], Retained(w.disk));
    forall i | w.rotations <= i < n ensures w.disk.segments[i] == [] {
      assert w.disk.segments[i] == v.disk.segments[i - 1];
    }
    assert Retained(w.disk) != [] by {
      assert w.disk.segments[1..] == v.disk.segments[..n - 1];
      assert OldestFirst(w.disk.segments) == OldestFirst(v.disk.segments[..n - 1]) + v.disk.active;
    }
  }

  // ---- Sequence numbers on disk ----

  /** The active file, then segments `.1`, `.2`, ...: the order of the scan. */
  ghost function NewestFirst(d: Disk, n: nat): seq<WalEntry>
    requires n <= |d.segments|
  {
    if n == 0 then d.active else NewestFirst(d, n - 1) + d.segments[n - 1]
  }

  lemma {:induction false} SegmentsCover(segments: seq<seq<WalEntry>>, i: nat)
    requires i < |segments|
    ensures forall e | e in segments[i] :: e in OldestFirst(segments)
  {
    if i > 0 { SegmentsCover(segments[1..], i - 1); }
  }

  lemma {:induction false} OldestFirstFrom(segments: seq<seq<WalEntry>>, e: WalEntry) returns (i: nat)
    requires e in OldestFirst(segments)
    ensures i < |segments| && e in segments[i]
  {
    if e in segments[0] { i := 0; } else { i := OldestFirstFrom(segments[1..], e); i := i + 1; }
  }

  lemma {:induction false} ScanOrderCovers(d: Disk, n: nat, e: WalEntry)
    requires n <= |d.segments|
    ensures e in NewestFirst(d, n) <==> e in d.active || exists i | 0 <= i < n :: e in d.segments[i]
  {
    if n > 0 { ScanOrderCovers(d, n - 1, e); }
  }

  lemma ScanSeesRetained(d: Disk, e: WalEntry)
    ensures e in NewestFirst(d, |d.segments|) <==> e in Retained(d)
  {
    ScanOrderCovers(d, |d.segments|, e);
    if e in OldestFirst(d.segments) { var i := OldestFirstFrom(d.segments, e); }
    if i :| 0 <= i < |d.segments| && e in d.segments[i] { SegmentsCover(d.segments, i); }
  }

  lemma {:induction false} HighestIsBound(es: seq<WalEntry>, best: Option<nat>)
    ensures best.Some? ==> Highest(es, best).Some? && Highest(es, best).value >= best.value
    ensures forall e | e in es :: Highest(es, best).Some? && e.sequence <= Highest(es, best).value
    ensures Highest(es, best) == best || exists e :: e in es && Highest(es, best) == Some(e.sequence)
    decreases |es|
  {
    if es != [] {
      var next := Some(if best.Some? && best.value > es[0].sequence then best.value else es[0].sequence);
      HighestIsBound(es[1..], next);
      assert es == [es[0]] + es[1..];
      if Highest(es, best) == next { assert es[0] in es; }
      else { var e :| e in es[1..] && Highest(es, best) == Some(e.sequence); assert e in es; }
    }
  }

  lemma {:induction false} HighestJoin(a: seq<WalEntry>, b: seq<WalEntry>, best: Option<nat>)
    ensures Highest(a + b, best) == Highest(b, Highest(a, best))
    decreases |a|
  {
    if a == [] {
      assert a + b == b;
    } else {
      assert (a + b)[1..] == a[1..] + b;
      HighestJoin(a[1..], b, Some(if best.Some? && best.value > a[0].sequence then best.value else a[0].sequence));
    }
  }

  function NextAfter(history: seq<WalEntry>): nat {
    if history == [] then 0 else history[|history| - 1].sequence + 1
  }

  /** The highest number on disk is that of the last entry ever appended. */
  lemma HighestIsLast(v: View)
    requires Consistent(v)
    ensures Highest(NewestFirst(v.disk, |v.disk.segments|), None)
         == if v.history == [] then None else Some(v.history[|v.history| - 1].sequence)
  {
    var es := NewestFirst(v.disk, |v.disk.segments|);
    HighestIsBound(es, None);
    forall e ensures e in es <==> e in Retained(v.disk) { ScanSeesRetained(v.disk, e); }
    assert forall e | e in Retained(v.disk) :: e in v.history;
    if v.history != [] {
      var last := v.history[|v.history| - 1];
      assert last == Retained(v.disk)[|Retained(v.disk)| - 1];
      assert last in es;
      var e :| e in es && Highest(es, None) == Some(e.sequence);
      assert e in v.history;
      LastIsGreatest(v.history, e);
    }
  }

  lemma LastIsGreatest(es: seq<WalEntry>, e: WalEntry)
    requires Increasing(es) && e in es
    ensures e.sequence <= es[|es| - 1].sequence
  {
    var i :| 0 <= i < |es| && es[i] == e;
    if i != |es| - 1 { assert es[i].sequence < es[|es| - 1].sequence; }
  }

  lemma ReopenKeepsConsistent(v: View)
    requires Consistent(v)
    ensures Consistent(v.(next := NextAfter(v.history)))
  {
    forall e | e in v.history ensures e.sequence < NextAfter(v.history) { LastIsGreatest(v.history, e); }
  }

  lemma NextFromScan(v: View)
    requires Consistent(v)
    ensures var best := Highest(NewestFirst(v.disk, |v.disk.segments|), None);
            NextAfter(v.history) == NumberAfter(best)
    ensures Consistent(v.(next := NextAfter(v.history)))
  {
    HighestIsLast(v);
    ReopenKeepsConsistent(v);
  }

  // ---- Bytes ----

  /** The active file, and segments `.1`, `.2`, ... as far as they exist. */
  datatype Files = Files(active: Bytes, segments: seq<Option<Bytes>>)

  /** One more file behind what was replayed before; an error stops the replay. */
  function ReplayNext(codec: Codec, before: Replayed, file: Option<Bytes>): Replayed {
    if !before.ok || file.None? then before
    else
      var r := ReplayFile(codec, file.value);
      Replayed(before.entries + r.entries, r.ok)
  }

  function ReplaySegments(codec: Codec, segments: seq<Option<Bytes>>): Replayed {
    if segments == [] then Replayed([], true)
    else ReplayNext(codec, ReplaySegments(codec, segments[1..]), segments[0])
  }

  /** `replay`: segments from the oldest to the newest, then the active file. */
  function ReplayFiles(codec: Codec, files: Files): Replayed {
    ReplayNext(codec, ReplaySegments(codec, files.segments), Some(files.active))
  }

  /** `read_last_sequence`: the active file and then the first `n` segments. */
  function ScanFiles(files: Files, n: nat): Option<Option<nat>>
    requires n <= |files.segments|
  {
    if n == 0 then ScanSequences(files.active, None)
    else
      match ScanFiles(files, n - 1)
      case None => None
      case Some(best) => ScanNext(files.segments[n - 1], best)
  }

  function ScanNext(file: Option<Bytes>, best: Option<nat>): Option<Option<nat>> {
    if file.None? then Some(best) else ScanSequences(file.value, best)
  }

  function NumberAfter(best: Option<nat>): nat { if best.Some? then best.value + 1 else 0 }

  function AppendBytes(codec: Codec, files: Files, e: WalEntry): Files {
    files.(active := files.active + Serialize(codec, e))
  }

  function RotateFiles(files: Files): Files
    requires files.segments != []
  {
    Files([], [Some(files.active)] + files.segments[..|files.segments| - 1])
  }

  // ---- Bytes and entries ----

  /** The file, if it exists, encodes the entries. */
  ghost predicate Holds(codec: Codec, file: Option<Bytes>, es: seq<WalEntry>) {
    if file.Some? then file.value == Encoded(codec, es) else es == []
  }

  ghost predicate HoldAll(codec: Codec, files: seq<Option<Bytes>>, parts: seq<seq<WalEntry>>) {
    |files| == |parts| && forall i | 0 <= i < |files| :: Holds(codec, files[i], parts[i])
  }

  /** The files are the encodings of what is on disk, and it all fits. */
  ghost predicate OnDisk(codec: Codec, files: Files, d: Disk) {
    && ChecksumsFit(codec) && AllFit(codec, Retained(d))
    && files.active == Encoded(codec, d.active) && HoldAll(codec, files.segments, d.segments)
  }

  lemma PartsFit(codec: Codec, d: Disk)
    requires AllFit(codec, Retained(d))
    ensures AllFit(codec, d.active) && forall i | 0 <= i < |d.segments| :: AllFit(codec, d.segments[i])
  {
    forall i | 0 <= i < |d.segments| ensures AllFit(codec, d.segments[i]) { SegmentsCover(d.segments, i); }
  }

  lemma WholeFile(codec: Codec, es: seq<WalEntry>)
    requires ChecksumsFit(codec) && AllFit(codec, es)
    ensures ReplayFile(codec, Encoded(codec, es)) == Replayed(es, true)
  {
    ReplayWhole(codec, es, []);
    assert Encoded(codec, es) + [] == Encoded(codec, es) && es + [] == es;
  }

  lemma ReplayHeldNext(codec: Codec, done: seq<WalEntry>, file: Option<Bytes>, es: seq<WalEntry>)
    requires ChecksumsFit(codec) && AllFit(codec, es) && Holds(codec, file, es)
    ensures ReplayNext(codec, Replayed(done, true), file) == Replayed(done + es, true)
  {
    if file.Some? { WholeFile(codec, es); } else { assert done + [] == done; }
  }

  lemma {:induction false} ReplayHeldSegments(codec: Codec, files: seq<Option<Bytes>>, parts: seq<seq<WalEntry>>)
    requires ChecksumsFit(codec) && HoldAll(codec, files, parts)
    requires forall i | 0 <= i < |parts| :: AllFit(codec, parts[i])
    ensures ReplaySegments(codec, files) == Replayed(OldestFirst(parts), true)
  {
    if files != [] {
      ReplayHeldSegments(codec, files[1..], parts[1..]);
      ReplayHeldNext(codec, OldestFirst(parts[1..]), files[0], parts[0]);
    }
  }

  /** Replaying the bytes of all files delivers exactly the retained entries. */
  lemma FilesReplay(codec: Codec, files: Files, d: Disk)
    requires OnDisk(codec, files, d)
    ensures ReplayFiles(codec, files) == Replayed(Retained(d), true)
  {
    PartsFit(codec, d);
    ReplayHeldSegments(codec, files.segments, d.segments);
    ReplayHeldNext(codec, OldestFirst(d.segments), Some(files.active), d.active);
  }

  /** A crash inside an append leaves a strict prefix of the new entry behind: that
      entry alone is lost, quietly inside its header, else with an error. */
  lemma TornAppendReplays(codec: Codec, files: Files, d: Disk, e: WalEntry, n: nat)
    requires OnDisk(codec, files, d) && Fits(codec, e) && n < |Serialize(codec, e)|
    ensures ReplayFiles(codec, files.(active := files.active + Serialize(codec, e)[..n]))
         == Replayed(Retained(d), n < HEADER)
  {
    PartsFit(codec, d);
    ReplayHeldSegments(codec, files.segments, d.segments);
    ReplayTornEntry(codec, e, n);
    ReplayWhole(codec, d.active, Serialize(codec, e)[..n]);
    assert d.active + [] == d.active;
  }

  lemma {:induction false} ScanHeld(codec: Codec, files: Files, d: Disk, n: nat)
    requires OnDisk(codec, files, d) && n <= |files.segments|
    ensures ScanFiles(files, n) == Some(Highest(NewestFirst(d, n), None))
  {
    PartsFit(codec, d);
    if n == 0 {
      ScanFindsHighest(codec, d.active, None);
    } else {
      ScanHeld(codec, files, d, n - 1);
      var part := d.segments[n - 1];
      HighestJoin(NewestFirst(d, n - 1), part, None);
      assert Holds(codec, files.segments[n - 1], part);
      if files.segments[n - 1].Some? { ScanFindsHighest(codec, part, Highest(NewestFirst(d, n - 1), None)); }
    }
  }

  /** A tail that announces more than is there stops replay and scan with an error. */
  lemma BadTail(codec: Codec, files: Files, d: Disk, tail: Bytes)
    requires OnDisk(codec, files, d) && HEADER <= |tail| < EntrySize(tail)
    ensures var after := files.(active := files.active + tail);
            ReplayFiles(codec, after) == Replayed(Retained(d), false) && ScanFiles(after, |after.segments|) == None
  {
    PartsFit(codec, d);
    ReplayHeldSegments(codec, files.segments, d.segments);
    ReplayWhole(codec, d.active, tail);
    assert d.active + [] == d.active;
    ScanThrough(codec, d.active, tail, None);
    ScanFails(files.(active := files.active + tail), |files.segments|);
  }

  lemma {:induction false} ScanFails(files: Files, n: nat)
    requires n <= |files.segments| && ScanSequences(files.active, None) == None
    ensures ScanFiles(files, n) == None
  {
    if n > 0 { ScanFails(files, n - 1); }
  }

  lemma ScanTornEntry(codec: Codec, e: WalEntry, n: nat, best: Option<nat>)
    requires ChecksumsFit(codec) && Fits(codec, e) && n < |Serialize(codec, e)|
    ensures ScanSequences(Serialize(codec, e)[..n], best) == if n < HEADER then Some(best) else None
  {
    if n >= HEADER {
      SerializedShape(codec, e);
      assert Serialize(codec, e)[..n][16..20] == Serialize(codec, e)[16..20];
    }
  }

  /** Scanning a torn append: as if it were not there, or an error. */
  lemma {:induction false} TornAppendScans(codec: Codec, files: Files, d: Disk, e: WalEntry, n: nat, m: nat)
    requires OnDisk(codec, files, d) && Fits(codec, e) && n < |Serialize(codec, e)| && m <= |files.segments|
    ensures ScanFiles(files.(active := files.active + Serialize(codec, e)[..n]), m)
         == if n < HEADER then Some(Highest(NewestFirst(d, m), None)) else None
  {
    var torn := files.(active := files.active + Serialize(codec, e)[..n]);
    if m == 0 {
      PartsFit(codec, d);
      ScanThrough(codec, d.active, Serialize(codec, e)[..n], None);
      ScanTornEntry(codec, e, n, Highest(d.active, None));
    } else {
      TornAppendScans(codec, files, d, e, n, m - 1);
      ScanHeld(codec, files, d, m - 1);
      ScanHeld(codec, files, d, m);
    }
  }

  lemma AppendOnDisk(codec: Codec, files: Files, d: Disk, e: WalEntry)
    requires OnDisk(codec, files, d) && Fits(codec, e)
    ensures OnDisk(codec, AppendBytes(codec, files, e), d.(active := d.active + [e]))
  {
    EncodeOneMore(codec, d.active, e);
    Assoc(OldestFirst(d.segments), d.active, [e]);
  }

  lemma RotateOnDisk(codec: Codec, files: Files, d: Disk)
    requires OnDisk(codec, files, d) && d.segments != []
    ensures OnDisk(codec, RotateFiles(files), Rotated(d))
  {
    RotationDropsOldest(d);
    var after, parts := RotateFiles(files).segments, Rotated(d).segments;
    forall i | 0 <= i < |after| ensures Holds(codec, after[i], parts[i]) {
      if i > 0 { assert Holds(codec, files.segments[i - 1], d.segments[i - 1]); }
    }
  }

  lemma EncodeOneMore(codec: Codec, es: seq<WalEntry>, e: WalEntry)
    ensures Encoded(codec, es + [e]) == Encoded(codec, es) + Serialize(codec, e)
  {
    EncodedJoin(codec, es, [e]);
    assert Encoded(codec, [e]) == Serialize(codec, e) + Encoded(codec, []);
    assert Serialize(codec, e) + [] == Serialize(codec, e);
  }

  lemma {:induction false} NothingYet(segments: seq<seq<WalEntry>>)
    requires forall i | 0 <= i < |segments| :: segments[i] == []
    ensures OldestFirst(segments) == []
  {
    if segments != [] { NothingYet(segments[1..]); }
  }

  // ---- The log as an object ----

  class WriteAheadLog {
    const codec: Codec
    const maxSize: nat
    var active: Bytes
    /** `files[n - 1]` is segment `.n`, if it exists. */
    var files: seq<Option<Bytes>>
    var sequence: nat
    var currentSize: nat
    ghost var view: View

    function AsFiles(): Files
      reads this
    {
      Files(active, files)
    }

    ghost predicate Valid()
      reads this
    {
      && OnDisk(codec, AsFiles(), view.disk) && Consistent(view)
      && sequence == view.next && currentSize == |active|
    }

    /** A fresh log that keeps max(backupCount, 1) segments. */
    constructor (codec: Codec, maxSize: nat, backupCount: nat)
      requires ChecksumsFit(codec)
      ensures Valid() && this.codec == codec && this.maxSize == maxSize
      ensures view.history == [] && view.rotations == 0
      ensures |view.disk.segments| == if backupCount == 0 then 1 else backupCount
    {
      var keep := if backupCount == 0 then 1 else backupCount;
      this.codec, this.maxSize := codec, maxSize;
      active, files, sequence, currentSize := [], seq(keep, i => None), 0, 0;
      view := View(Disk([], seq(keep, i => [])), [], [], 0, 0);
      new;
      NothingYet(view.disk.segments);
    }

    /** The file shuffle of `rotate`: remove the last segment, rename each `.n` to
        `.n+1`, copy the active file to `.1` and truncate it. */
    method ShiftFiles()
      requires files != []
      modifies `files, `active, `currentSize
      ensures AsFiles() == RotateFiles(old(AsFiles())) && currentSize == 0
    {
      var keep := |files|;
      ghost var before := files;
      if files[keep - 1].Some? { files := files[keep - 1 := None]; }
      for n := keep downto 1
        invariant |files| == keep && active == old(active) && files[n - 1] == None
        invariant forall i | 0 <= i < n - 1 :: files[i] == before[i]
        invariant forall i | n <= i < keep :: files[i] == before[i - 1]
      {
        if files[n - 1].Some? { files := files[n := files[n - 1]][n - 1 := None]; }
      }
      files := files[0 := Some(active)];
      active, currentSize := [], 0;
      assert files == [Some(old(active))] + before[..keep - 1];
    }

    method RotateLog()
      requires Valid() && view.disk.active != []
      modifies this
      ensures Valid() && view == RotatedView(old(view)) && AsFiles() == RotateFiles(old(AsFiles()))
    {
      RotateKeepsConsistent(view);
      RotateOnDisk(codec, AsFiles(), view.disk);
      ShiftFiles();
      view := RotatedView(view);
    }

    /** `append_command`, rotating once the active file has reached its size limit. */
    method AppendCommand(cmd: Command, timestamp: nat) returns (number: nat)
      requires Valid() && Fits(codec, WalEntry(sequence, timestamp, cmd))
      modifies this
      ensures Valid() && number == old(sequence)
      ensures var e := WalEntry(number, timestamp, cmd);
              var full := old(currentSize) + |Serialize(codec, e)| >= maxSize;
              var appended, bytes := Appended(old(view), e), AppendBytes(codec, old(AsFiles()), e);
              && view == (if full then RotatedView(appended) else appended)
              && AsFiles() == if full then RotateFiles(bytes) else bytes
    {
      number := sequence;
      sequence := sequence + 1;
      var entry := WalEntry(number, timestamp, cmd);
      var bytes := Serialize(codec, entry);
      AppendOnDisk(codec, AsFiles(), view.disk, entry);
      AppendKeepsConsistent(view, entry);
      active := active + bytes;
      currentSize := currentSize + |bytes|;
      view := Appended(view, entry);
      if currentSize >= maxSize { RotateLog(); }
    }

    /** `replay`, on whatever bytes the files hold; those of a valid log deliver
        exactly the retained entries, and without error. */
    method Replay() returns (entries: seq<WalEntry>, ok: bool)
      ensures Replayed(entries, ok) == ReplayFiles(codec, AsFiles())
      ensures Valid() ==> ok && entries == Retained(view.disk)
    {
      entries, ok := [], true;
      assert files[|files|..] == [];
      for n := |files| downto 0
        invariant Replayed(entries, ok) == ReplaySegments(codec, files[n..])
      {
        assert files[n..][1..] == files[n + 1..];
        if ok && files[n].Some? {
          var some;
          some, ok := ReplayLoop(codec, files[n].value);
          entries := entries + some;
        }
      }
      assert files[0..] == files;
      if ok {
        var some;
        some, ok := ReplayLoop(codec, active);
        entries := entries + some;
      }
      if Valid() { FilesReplay(codec, AsFiles(), view.disk); }
    }

    /** `read_last_sequence`, on whatever bytes the files hold; `None` is an error. */
    method ReadLastSequence() returns (r: Option<Option<nat>>)
      ensures r == ScanFiles(AsFiles(), |files|)
      ensures Valid() ==> r == Some(Highest(NewestFirst(view.disk, |files|), None))
    {
      r := ScanSequences(active, None);
      for n := 0 to |files|
        invariant r == ScanFiles(AsFiles(), n)
      {
        if r.Some? && files[n].Some? { r := ScanSequences(files[n].value, r.value); }
      }
      if Valid() { ScanHeld(codec, AsFiles(), view.disk, |files|); }
    }

    /** A restart at an entry boundary: the next number continues the history. */
    method Reopen()
      requires Valid()
      modifies `sequence, `currentSize, `view
      ensures Valid() && view == old(view).(next := NextAfter(old(view).history))
    {
      var best := ReadLastSequence();
      ghost var reopened := view.(next := NextAfter(view.history));
      assert Consistent(reopened) && reopened.next == NumberAfter(best.value) by { NextFromScan(view); }
      sequence := NumberAfter(best.value);
      currentSize := |active|;
      view := reopened;
    }
  }
}
