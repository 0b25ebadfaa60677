/** The append-only stream of data_structures/stream.rs: ids, the ordered log,
    and what a consumer that keeps reading after its last id has seen. */
module Streams {
  import opened Primitives

  datatype StreamId = StreamId(ms: nat, sequence: nat)

  const MIN := StreamId(0, 0)
  const MAX := StreamId(U64_MAX, U64_MAX)

  predicate IsU64(id: StreamId) { id.ms <= U64_MAX && id.sequence <= U64_MAX }

  predicate Less(a: StreamId, b: StreamId) {
    a.ms < b.ms || (a.ms == b.ms && a.sequence < b.sequence)
  }

  predicate AtMost(a: StreamId, b: StreamId) { a == b || Less(a, b) }

  // ---- Textual ids ----

  function PrintId(id: StreamId): Bytes {
    Digits(id.ms) + [MINUS] + Digits(id.sequence)
  }

  function DashAt(s: Bytes): (r: Option<nat>)
    ensures r.Some? ==> r.value < |s|
  {
    if s == [] then None
    else if s[0] == MINUS then Some(0)
    else match DashAt(s[1..]) case None => None case Some(i) => Some(i + 1)
  }

  function ParseId(s: Bytes, isUpper: bool): (r: Option<StreamId>)
    ensures r.Some? ==> IsU64(r.value)
  {
    if s == [MINUS] then Some(MIN)
    else if s == [PLUS] || s == ['$' as int] then Some(MAX)
    else
      match DashAt(s)
      case Some(i) =>
        var ms, sequence := ParseU64(s[..i]), ParseU64(s[i + 1..]);
        if ms.Some? && sequence.Some? then Some(StreamId(ms.value, sequence.value)) else None
      case None =>
        match ParseU64(s)
        case None => None
        case Some(ms) => Some(StreamId(ms, if isUpper then U64_MAX else 0))
  }

  lemma {:induction false} DashAfterDigits(digits: Bytes, rest: Bytes)
    requires AllDigits(digits)
    ensures DashAt(digits + [MINUS] + rest) == Some(|digits|)
  {
    if digits != [] {
      DashAfterDigits(digits[1..], rest);
      assert (digits + [MINUS] + rest)[1..] == digits[1..] + [MINUS] + rest;
    }
  }

  /** Ids survive print and parse, as lower and as upper bound. */
  lemma IdRoundTrip(id: StreamId, isUpper: bool)
    requires IsU64(id)
    ensures ParseId(PrintId(id), isUpper) == Some(id)
  {
    var s, i := PrintId(id), |Digits(id.ms)|;
    DashAfterDigits(Digits(id.ms), Digits(id.sequence));
    assert s[..i] == Digits(id.ms) && s[i + 1..] == Digits(id.sequence);
    ParsePrintedU64(id.ms);
    ParsePrintedU64(id.sequence);
  }

  // ---- The log ----

  type Fields = seq<(Bytes, Bytes)>
  datatype Entry = Entry(id: StreamId, fields: Fields)

  /** The ordered map from ids to fields, listed by ascending id. */
  datatype Log = Log(entries: seq<Entry>, lastId: StreamId)

  const EMPTY := Log([], MIN)

  ghost predicate Ascending(entries: seq<Entry>) {
    forall i, j | 0 <= i < j < |entries| :: Less(entries[i].id, entries[j].id)
  }

  /** Strictly increasing ids above 0-0, with `lastId` the greatest. */
  ghost predicate Valid(log: Log) {
    && Ascending(log.entries)
    && (forall e | e in log.entries :: Less(MIN, e.id) && IsU64(e.id))
    && log.lastId == if log.entries == [] then MIN else log.entries[|log.entries| - 1].id
  }

  /** Insertion into the ordered map. */
  function Insert(entries: seq<Entry>, id: StreamId, fields: Fields): seq<Entry> {
    if entries == [] || Less(id, entries[0].id) then [Entry(id, fields)] + entries
    else if entries[0].id == id then [Entry(id, fields)] + entries[1..]
    else [entries[0]] + Insert(entries[1..], id, fields)
  }

  /** The id generated for `*`; the sequence wraps like a u64. */
  function AutoId(lastId: StreamId, nowMs: nat): StreamId {
    if nowMs > lastId.ms then StreamId(nowMs, 0)
    else StreamId(lastId.ms, (lastId.sequence + 1) % (U64_MAX + 1))
  }

  /** `None` is the "equal or smaller" error. */
  function Add(log: Log, requested: Option<StreamId>, fields: Fields, nowMs: nat): Option<Log> {
    match requested
    case Some(id) => if AtMost(id, log.lastId) then None else Some(Log(Insert(log.entries, id, fields), id))
    case None =>
      var id := AutoId(log.lastId, nowMs);
      Some(Log(Insert(log.entries, id, fields), id))
  }

  lemma {:induction false} InsertAbove(entries: seq<Entry>, id: StreamId, fields: Fields)
    requires forall e | e in entries :: Less(e.id, id)
    ensures Insert(entries, id, fields) == entries + [Entry(id, fields)]
  {
    if entries != [] {
      assert entries[0] in entries;
      InsertAbove(entries[1..], id, fields);
      assert entries == [entries[0]] + entries[1..];
    }
  }

  /** The id an XADD will use. */
  function ChosenId(log: Log, requested: Option<StreamId>, nowMs: nat): StreamId {
    match requested case Some(id) => id case None => AutoId(log.lastId, nowMs)
  }

  /** The generated id would need a sequence number beyond 64 bits. */
  predicate Wraps(log: Log, requested: Option<StreamId>, nowMs: nat) {
    requested.None? && nowMs <= log.lastId.ms && log.lastId.sequence == U64_MAX
  }

  /** What the clock and the caller may pass to XADD. */
  predicate InRange(requested: Option<StreamId>, nowMs: nat) {
    if requested.Some? then IsU64(requested.value) else nowMs <= U64_MAX
  }

  lemma {:induction false} InsertBelow(entries: seq<Entry>, id: StreamId, fields: Fields)
    requires entries != [] && Less(id, entries[|entries| - 1].id)
    ensures var r := Insert(entries, id, fields); r != [] && r[|r| - 1] == entries[|entries| - 1]
  {
    if !Less(id, entries[0].id) && entries[0].id != id {
      InsertBelow(entries[1..], id, fields);
    }
  }

  /** A wrapped id goes in below the greatest one and becomes the last id all the same. */
  lemma WrappedIdMisorders(log: Log, fields: Fields, nowMs: nat)
    requires Valid(log) && Wraps(log, None, nowMs)
    ensures Add(log, None, fields, nowMs).Some?
    ensures var after := Add(log, None, fields, nowMs).value;
            Less(after.lastId, log.lastId) && !Valid(after)
  {
    var id := AutoId(log.lastId, nowMs);
    assert (U64_MAX + 1) % (U64_MAX + 1) == 0;
    InsertBelow(log.entries, id, fields);
  }

  lemma GreaterIdAppends(log: Log, id: StreamId, fields: Fields)
    requires Valid(log) && Less(log.lastId, id) && IsU64(id)
    ensures var after := Log(log.entries + [Entry(id, fields)], id);
            Valid(after) && Insert(log.entries, id, fields) == after.entries
  {
    forall e | e in log.entries ensures Less(e.id, id) {
      var i :| 0 <= i < |log.entries| && log.entries[i] == e;
      if i < |log.entries| - 1 { assert Less(e.id, log.lastId); }
    }
    InsertAbove(log.entries, id, fields);
    var grown := log.entries + [Entry(id, fields)];
    assert Ascending(grown) by {
      forall i, j | 0 <= i < j < |grown| ensures Less(grown[i].id, grown[j].id) {
        assert grown[i] == log.entries[i];
      }
    }
  }

  /** XADD refuses an explicit id exactly when it is not above the last; otherwise it
      appends one entry under a strictly greater id, unless the generated sequence
      number wraps: then the log is out of order. */
  lemma AddAppends(log: Log, requested: Option<StreamId>, fields: Fields, nowMs: nat)
    requires Valid(log) && InRange(requested, nowMs)
    ensures var id, r := ChosenId(log, requested, nowMs), Add(log, requested, fields, nowMs);
            if requested.Some? && !Less(log.lastId, id) then r == None
            else if Wraps(log, requested, nowMs) then r.Some? && Less(r.value.lastId, log.lastId) && !Valid(r.value)
            else
              && Less(log.lastId, id) && r == Some(Log(log.entries + [Entry(id, fields)], id))
              && Valid(r.value)
  {
    var id := ChosenId(log, requested, nowMs);
    assert IsU64(log.lastId) by { if log.entries != [] { assert log.entries[|log.entries| - 1] in log.entries; } }
    if Wraps(log, requested, nowMs) { WrappedIdMisorders(log, fields, nowMs); }
    else if Less(log.lastId, id) { GreaterIdAppends(log, id, fields); }
  }

  /** A generated id is the least one above the last that is not before the clock. */
  lemma GeneratedIdIsLeast(log: Log, fields: Fields, nowMs: nat, other: StreamId)
    requires Valid(log) && nowMs <= U64_MAX && !Wraps(log, None, nowMs)
    ensures Add(log, None, fields, nowMs).Some?
    ensures var id := Add(log, None, fields, nowMs).value.lastId;
            && IsU64(id) && Less(log.lastId, id) && nowMs <= id.ms
            && (IsU64(other) && Less(log.lastId, other) && nowMs <= other.ms ==> AtMost(id, other))
  {
    AddAppends(log, None, fields, nowMs);
    var after := Add(log, None, fields, nowMs).value;
    assert after.entries[|after.entries| - 1] in after.entries;
  }

  /** Ids are ordered as 128-bit numbers with the milliseconds on top. */
  lemma IdOrderIsNumeric(a: StreamId, b: StreamId)
    requires IsU64(a) && IsU64(b)
    ensures Less(a, b) <==>
              a.ms * (U64_MAX + 1) + a.sequence < b.ms * (U64_MAX + 1) + b.sequence
  {
    if a.ms < b.ms { assert (a.ms + 1) * (U64_MAX + 1) <= b.ms * (U64_MAX + 1); }
    if b.ms < a.ms { assert (b.ms + 1) * (U64_MAX + 1) <= a.ms * (U64_MAX + 1); }
  }

  /** Shorthands: a bare time is its first or its last id, `-` and `+` are the ends. */
  lemma ShortIds(ms: nat)
    requires ms <= U64_MAX
    ensures ParseId(Digits(ms), false) == Some(StreamId(ms, 0))
    ensures ParseId(Digits(ms), true) == Some(StreamId(ms, U64_MAX))
    ensures forall upper :: ParseId([MINUS], upper) == Some(StreamId(0, 0))
    ensures forall upper :: ParseId([PLUS], upper) == Some(StreamId(U64_MAX, U64_MAX))
    ensures forall upper :: ParseId([36], upper) == Some(StreamId(U64_MAX, U64_MAX))
  {
    NoDashInDigits(Digits(ms));
    ParsePrintedU64(ms);
  }

  lemma {:induction false} NoDashInDigits(digits: Bytes)
    requires AllDigits(digits)
    ensures DashAt(digits) == None
  {
    if digits != [] { NoDashInDigits(digits[1..]); }
  }

  // ---- Reading ----

  /** How many leading entries have an id of at most `cursor`. */
  function Seen(entries: seq<Entry>, cursor: StreamId): (n: nat)
    ensures n <= |entries|
  {
    if entries == [] || Less(cursor, entries[0].id) then 0 else 1 + Seen(entries[1..], cursor)
  }

  lemma {:induction false} SeenSplits(entries: seq<Entry>, cursor: StreamId)
    requires Ascending(entries)
    ensures forall i | 0 <= i < |entries| :: AtMost(entries[i].id, cursor) <==> i < Seen(entries, cursor)
  {
    if entries != [] {
      var tail := entries[1..];
      assert Ascending(tail) by {
        forall i, j | 0 <= i < j < |tail| ensures Less(tail[i].id, tail[j].id) {
          assert tail[i] == entries[i + 1] && tail[j] == entries[j + 1];
        }
      }
      SeenSplits(tail, cursor);
      forall i | 0 <= i < |entries| ensures AtMost(entries[i].id, cursor) <==> i < Seen(entries, cursor) {
        if i > 0 { assert entries[i] == tail[i - 1]; assert Less(entries[0].id, entries[i].id); }
      }
    }
  }

  lemma SeenAt(entries: seq<Entry>, cursor: StreamId, k: nat)
    requires Ascending(entries) && k < |entries|
    ensures AtMost(entries[k].id, cursor) <==> k < Seen(entries, cursor)
  {
    SeenSplits(entries, cursor);
  }

  function AtLeastOne(limit: nat): nat { if limit == 0 then 1 else limit }

  /** At most `limit` entries; the source tests the limit after each push, so a
      limit of 0 still lets one entry through. */
  function Capped(entries: seq<Entry>, limit: Option<nat>): (r: seq<Entry>)
    ensures r <= entries
    ensures if limit.None? || |entries| <= limit.value then |r| == |entries|
            else |r| == if limit.value == 0 then 1 else limit.value
  {
    match limit
    case None => entries
    case Some(n) => if |entries| <= AtLeastOne(n) then entries else entries[..AtLeastOne(n)]
  }

  /** Collecting `es[lo..k]` of `es[lo..hi]` is enough at the limit, or at the end. */
  lemma CappedAt(es: seq<Entry>, lo: nat, k: nat, hi: nat, limit: Option<nat>)
    requires lo <= k <= hi <= |es|
    requires (limit.Some? && k - lo == AtLeastOne(limit.value)) || (k == hi && Below(k - lo, limit))
    ensures Capped(es[lo..hi], limit) == es[lo..k]
  {
    assert es[lo..hi][..k - lo] == es[lo..k];
  }

  /** `n` entries leave room for another. */
  predicate Below(n: int, limit: Option<nat>) { limit.Some? ==> n < AtLeastOne(limit.value) }

  class StreamValue {
    var entries: seq<Entry>
    var lastId: StreamId

    constructor ()
      ensures AsLog() == EMPTY && Valid(AsLog())
    {
      entries, lastId := [], MIN;
    }

    ghost function AsLog(): Log
      reads this
    {
      Log(entries, lastId)
    }

    /** XADD, with the clock reading passed in. */
    method Append(requested: Option<StreamId>, fields: Fields, nowMs: nat) returns (r: Option<StreamId>)
      requires Valid(AsLog()) && InRange(requested, nowMs)
      modifies this
      ensures Valid(AsLog()) <==> !Wraps(old(AsLog()), requested, nowMs)
      ensures match Add(old(AsLog()), requested, fields, nowMs)
              case None => r == None && AsLog() == old(AsLog())
              case Some(log) => r == Some(log.lastId) && AsLog() == log
    {
      AddAppends(AsLog(), requested, fields, nowMs);
      var id;
      match requested {
        case Some(wanted) =>
          if AtMost(wanted, lastId) { return None; }
          id := wanted;
        case None =>
          id := if nowMs > lastId.ms then StreamId(nowMs, 0)
                else StreamId(lastId.ms, (lastId.sequence + 1) % (U64_MAX + 1));
      }
      entries := Insert(entries, id, fields);
      lastId := id;
      return Some(id);
    }

    /** `range`: inclusive bounds. */
    method Range(start: StreamId, end: StreamId, limit: Option<nat>) returns (out: seq<Entry>)
      requires Ascending(entries) && AtMost(start, end)
      ensures exists lo, hi | 0 <= lo <= hi <= |entries| ::
                out == Capped(entries[lo..hi], limit) &&
                forall i | 0 <= i < |entries| ::
                  AtMost(start, entries[i].id) && AtMost(entries[i].id, end) <==> lo <= i < hi
    {
      var lo := 0;
      while lo < |entries| && Less(entries[lo].id, start)
        invariant lo <= |entries|
        invariant forall i | 0 <= i < lo :: Less(entries[i].id, start)
      { lo := lo + 1; }
      ghost var hi := Seen(entries, end);
      SeenSplits(entries, end);
      assert hi < |entries| ==> !AtMost(entries[hi].id, end) && !Less(entries[hi].id, start);
      assert lo <= hi;
      assert forall i | 0 <= i < |entries| ::
          AtMost(start, entries[i].id) && AtMost(entries[i].id, end) <==> lo <= i < hi;
      out := CollectUpTo(lo, end, limit);
    }

    method CollectUpTo(lo: nat, end: StreamId, limit: Option<nat>) returns (out: seq<Entry>)
      requires Ascending(entries) && lo <= Seen(entries, end)
      ensures out == Capped(entries[lo..Seen(entries, end)], limit)
    {
      out := [];
      var k := lo;
      ghost var hi := Seen(entries, end);
      SeenSplits(entries, end);
      while k < |entries| && AtMost(entries[k].id, end)
        invariant lo <= k <= hi && out == entries[lo..k] && Below(|out|, limit)
      {
        out := out + [entries[k]];
        k := k + 1;
        if limit.Some? && |out| >= limit.value {
          CappedAt(entries, lo, k, hi, limit);
          return;
        }
      }
      CappedAt(entries, lo, k, hi, limit);
    }

    /** `read_after`: everything strictly newer than the cursor. */
    method ReadAfter(cursor: StreamId, limit: Option<nat>) returns (out: seq<Entry>)
      requires Ascending(entries)
      ensures out == Capped(entries[Seen(entries, cursor)..], limit)
    {
      out := [];
      ghost var from := Seen(entries, cursor);
      for k := 0 to |entries|
        invariant out == (if k <= from then [] else entries[from..k]) && Below(|out|, limit)
      {
        SeenAt(entries, cursor, k);
        if AtMost(entries[k].id, cursor) { continue; }
        out := out + [entries[k]];
        if limit.Some? && |out| >= limit.value {
          CappedAt(entries, from, k + 1, |entries|, limit);
          return;
        }
      }
      CappedAt(entries, from, |entries|, |entries|, limit);
    }
  }

  // ---- A consumer interleaved with producers ----

  datatype Event =
    | Produce(requested: Option<StreamId>, fields: Fields, nowMs: nat)
    | Consume(limit: Option<nat>)

  /** The log, the consumer's cursor, and everything it has received. */
  datatype Session = Session(log: Log, cursor: StreamId, received: seq<Entry>)

  function Advance(s: Session, e: Event): Session {
    match e
    case Produce(requested, fields, nowMs) =>
      (match Add(s.log, requested, fields, nowMs)
       case None => s
       case Some(log) => s.(log := log))
    case Consume(limit) =>
      var batch := Capped(s.log.entries[Seen(s.log.entries, s.cursor)..], limit);
      Session(s.log, if batch == [] then s.cursor else batch[|batch| - 1].id, s.received + batch)
  }

  function Play(s: Session, events: seq<Event>): Session {
    if events == [] then s else Advance(Play(s, events[..|events| - 1]), events[|events| - 1])
  }

  /** The event is one the code handles without wrapping a counter. */
  ghost predicate InBounds(s: Session, e: Event) {
    match e
    case Produce(requested, _, nowMs) => InRange(requested, nowMs) && !Wraps(s.log, requested, nowMs)
    case Consume(_) => true
  }

  ghost predicate AllInBounds(s: Session, events: seq<Event>) {
    forall i | 0 <= i < |events| :: InBounds(Play(s, events[..i]), events[i])
  }

  /** Received exactly the entries above `start` up to the cursor, once, in order. */
  ghost predicate CaughtUp(s: Session, start: StreamId) {
    && Valid(s.log)
    && Seen(s.log.entries, start) <= Seen(s.log.entries, s.cursor)
    && s.received == s.log.entries[Seen(s.log.entries, start)..Seen(s.log.entries, s.cursor)]
    && (s.cursor == start || (AtMost(s.cursor, s.log.lastId) && AtMost(start, s.cursor)))
  }

  lemma SeenIs(entries: seq<Entry>, cursor: StreamId, n: nat)
    requires Ascending(entries) && n <= |entries|
    requires n > 0 ==> AtMost(entries[n - 1].id, cursor)
    requires n < |entries| ==> Less(cursor, entries[n].id)
    ensures Seen(entries, cursor) == n
  {
    SeenSplits(entries, cursor);
  }

  lemma SeenAfterAppend(log: Log, e: Entry, cursor: StreamId)
    requires Valid(log) && Valid(Log(log.entries + [e], e.id))
    ensures Seen(log.entries + [e], cursor)
         == if AtMost(e.id, cursor) then |log.entries| + 1 else Seen(log.entries, cursor)
  {
    var grown, n := log.entries + [e], Seen(log.entries, cursor);
    SeenSplits(log.entries, cursor);
    if AtMost(e.id, cursor) {
      SeenIs(grown, cursor, |grown|);
    } else {
      assert n < |log.entries| ==> Less(cursor, log.entries[n].id) by {
        if n < |log.entries| { assert !AtMost(log.entries[n].id, cursor); }
      }
      SeenIs(grown, cursor, n);
    }
  }

  lemma GrowthKeepsCaughtUp(s: Session, start: StreamId, entry: Entry)
    requires CaughtUp(s, start) && Less(s.log.lastId, entry.id) && Valid(Log(s.log.entries + [entry], entry.id))
    ensures CaughtUp(s.(log := Log(s.log.entries + [entry], entry.id)), start)
  {
    SeenAfterAppend(s.log, entry, start);
    SeenAfterAppend(s.log, entry, s.cursor);
    var a, b := Seen(s.log.entries, start), Seen(s.log.entries, s.cursor);
    assert (s.log.entries + [entry])[a..b] == s.log.entries[a..b];
  }

  /** One append leaves a consumer caught up if and only if its generated id does not wrap. */
  lemma AppendKeepsCaughtUpIff(s: Session, start: StreamId, e: Event)
    requires CaughtUp(s, start) && e.Produce? && InRange(e.requested, e.nowMs)
    ensures CaughtUp(Advance(s, e), start) <==> !Wraps(s.log, e.requested, e.nowMs)
  {
    AddAppends(s.log, e.requested, e.fields, e.nowMs);
    if !Wraps(s.log, e.requested, e.nowMs) { ProduceKeepsCaughtUp(s, start, e); }
  }

  lemma ProduceKeepsCaughtUp(s: Session, start: StreamId, e: Event)
    requires CaughtUp(s, start) && e.Produce? && InBounds(s, e)
    ensures CaughtUp(Advance(s, e), start)
  {
    AddAppends(s.log, e.requested, e.fields, e.nowMs);
    if Add(s.log, e.requested, e.fields, e.nowMs).Some? {
      GrowthKeepsCaughtUp(s, start, Entry(ChosenId(s.log, e.requested, e.nowMs), e.fields));
    }
  }

  /** Reading on from `b` to `c`: the cursor moves to the last entry read. */
  lemma ReadOn(log: Log, start: StreamId, a: nat, b: nat, c: nat)
    requires Valid(log) && a == Seen(log.entries, start) <= b < c <= |log.entries|
    ensures var cursor := log.entries[c - 1].id;
            Seen(log.entries, cursor) == c && AtMost(cursor, log.lastId) && AtMost(start, cursor)
    ensures log.entries[a..b] + log.entries[b..c] == log.entries[a..c]
  {
    var es, cursor := log.entries, log.entries[c - 1].id;
    SeenIs(es, cursor, c);
    SeenSplits(es, start);
    assert !AtMost(es[c - 1].id, start);
    if c - 1 < |es| - 1 { assert Less(es[c - 1].id, es[|es| - 1].id); }
  }

  lemma ReadingOnKeepsCaughtUp(s: Session, start: StreamId, b: nat, c: nat)
    requires CaughtUp(s, start) && b == Seen(s.log.entries, s.cursor) && b < c <= |s.log.entries|
    ensures CaughtUp(Session(s.log, s.log.entries[c - 1].id, s.received + s.log.entries[b..c]), start)
  {
    ReadOn(s.log, start, Seen(s.log.entries, start), b, c);
  }

  lemma ConsumeKeepsCaughtUp(s: Session, start: StreamId, limit: Option<nat>)
    requires CaughtUp(s, start)
    ensures CaughtUp(Advance(s, Consume(limit)), start)
  {
    var es, b := s.log.entries, Seen(s.log.entries, s.cursor);
    var batch := Capped(es[b..], limit);
    var c := b + |batch|;
    assert batch == es[b..c];
    if batch == [] {
      assert s.received + batch == s.received;
    } else {
      assert batch[|batch| - 1] == es[c - 1];
      ReadingOnKeepsCaughtUp(s, start, b, c);
    }
  }

  lemma EventKeepsCaughtUp(s: Session, start: StreamId, e: Event)
    requires CaughtUp(s, start) && InBounds(s, e)
    ensures CaughtUp(Advance(s, e), start)
  {
    match e {
      case Produce(_, _, _) => ProduceKeepsCaughtUp(s, start, e);
      case Consume(limit) => ConsumeKeepsCaughtUp(s, start, limit);
    }
  }

  lemma EarlierInBounds(s: Session, events: seq<Event>, n: nat)
    requires AllInBounds(s, events) && n < |events|
    ensures AllInBounds(s, events[..n]) && InBounds(Play(s, events[..n]), events[n])
  {
    forall i | 0 <= i < n ensures InBounds(Play(s, events[..n][..i]), events[..n][i]) {
      assert events[..n][..i] == events[..i];
    }
  }

  /** In every interleaving of appends and reads, from any starting cursor and
      any log, the consumer has received exactly the entries above where it
      started and up to its cursor: none lost, none twice, in order. */
  lemma {:induction false} ConsumerMissesNothing(s: Session, events: seq<Event>)
    requires Valid(s.log) && s.received == [] && AllInBounds(s, events)
    ensures CaughtUp(Play(s, events), s.cursor)
  {
    var n := |events|;
    if n == 0 {
      assert s.log.entries[Seen(s.log.entries, s.cursor)..Seen(s.log.entries, s.cursor)] == [];
    } else {
      var before := events[..n - 1];
      EarlierInBounds(s, events, n - 1);
      ConsumerMissesNothing(s, before);
      EventKeepsCaughtUp(Play(s, before), s.cursor, events[n - 1]);
    }
  }
}
