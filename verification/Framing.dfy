/** The connection's drain loop over RESP frames, and the reply frames that the
    server assembles by hand for EXEC, XRANGE and XREAD. */
module Framing {
  import opened Primitives
  import opened Resp

  const BUFFER_LIMIT: nat := 1024 * 1024

  // ---- Draining complete frames ----

  datatype Drained = Drained(frames: seq<RespValue>, rest: Bytes)

  function Drain(buf: Bytes): (d: Drained)
    ensures |d.rest| <= |buf|
  {
    match ParseResp(buf)
    case None => Drained([], buf)
    case Some(p) =>
      var d := Drain(buf[p.used..]);
      Drained([p.value] + d.frames, d.rest)
  }

  /** The inner `while !buffer.is_empty()` loop of a connection. */
  method DrainBuffer(input: Bytes) returns (frames: seq<RespValue>, buffer: Bytes)
    ensures Drain(input) == Drained(frames, buffer)
  {
    frames, buffer := [], input;
    assert [] + Drain(input).frames == Drain(input).frames;
    while buffer != []
      invariant Drain(input) == Drained(frames + Drain(buffer).frames, Drain(buffer).rest)
      decreases |buffer|
    {
      var cursor := new Cursor(buffer);
      assert cursor.Unread() == buffer;
      var v := cursor.Parse();
      if v == None { break; }
      assert frames + Drain(buffer).frames == frames + [v.value] + Drain(buffer[cursor.pos..]).frames;
      frames := frames + [v.value];
      buffer := buffer[cursor.pos..];
    }
    assert frames + [] == frames;
  }

  lemma DrainOne(buf: Bytes, v: RespValue, used: nat)
    requires ParseResp(buf) == Some(Parsed(v, used))
    ensures Drain(buf) == Drained([v] + Drain(buf[used..]).frames, Drain(buf[used..]).rest)
  {
  }

  /** What draining `early` first and then its leftover with `b` behind gives. */
  ghost function Resumed(early: Drained, b: Bytes): Drained {
    Drained(early.frames + Drain(early.rest + b).frames, Drain(early.rest + b).rest)
  }

  lemma ResumedOne(v: RespValue, early: Drained, b: Bytes)
    ensures Resumed(Drained([v] + early.frames, early.rest), b)
         == Drained([v] + Resumed(early, b).frames, Resumed(early, b).rest)
  {
    Assoc([v], early.frames, Drain(early.rest + b).frames);
  }

  lemma ResumedNone(a: Bytes, b: Bytes)
    ensures Resumed(Drained([], a), b) == Drain(a + b)
  {
    assert [] + Drain(a + b).frames == Drain(a + b).frames;
  }

  /** Draining early and carrying the leftover over is the same as waiting. */
  lemma {:induction false} DrainInTwo(a: Bytes, b: Bytes)
    ensures Drain(a + b) == Resumed(Drain(a), b)
    decreases |a|
  {
    match ParseResp(a) {
      case None => ResumedNone(a, b);
      case Some(p) =>
        ParseUnchangedByExtension(a, b);
        DrainOne(a, p.value, p.used);
        DrainOne(a + b, p.value, p.used);
        DropWithin(a, b, p.used);
        DrainInTwo(a[p.used..], b);
        ResumedOne(p.value, Drain(a[p.used..]), b);
    }
  }

  lemma DropWithin(a: Bytes, b: Bytes, n: nat)
    requires n <= |a|
    ensures (a + b)[n..] == a[n..] + b
  {
  }

  /** A connection: frames handed on so far, unread bytes, still open. */
  datatype Connection = Connection(frames: seq<RespValue>, buffer: Bytes, open: bool)

  function Receive(c: Connection, chunk: Bytes): Connection {
    if !c.open then c
    else
      var d := Drain(c.buffer + chunk);
      Connection(c.frames + d.frames, d.rest, |d.rest| <= BUFFER_LIMIT)
  }

  function ReceiveAll(chunks: seq<Bytes>): Connection {
    if chunks == [] then Connection([], [], true)
    else Receive(ReceiveAll(chunks[..|chunks| - 1]), chunks[|chunks| - 1])
  }

  function Joined(chunks: seq<Bytes>): Bytes {
    if chunks == [] then [] else Joined(chunks[..|chunks| - 1]) + chunks[|chunks| - 1]
  }

  /** No leftover of the stream outgrows the buffer at a read boundary. */
  ghost predicate WithinLimit(chunks: seq<Bytes>) {
    forall i | 0 < i <= |chunks| :: |Drain(Joined(chunks[..i])).rest| <= BUFFER_LIMIT
  }

  lemma WithinLimitOneMore(chunks: seq<Bytes>)
    requires chunks != []
    ensures WithinLimit(chunks) <==>
              WithinLimit(chunks[..|chunks| - 1]) && |Drain(Joined(chunks)).rest| <= BUFFER_LIMIT
  {
    var n := |chunks|;
    var init := chunks[..n - 1];
    assert chunks[..n] == chunks;
    forall i | 0 < i < n ensures init[..i] == chunks[..i] { }
    if WithinLimit(chunks) {
      forall i | 0 < i <= |init| ensures |Drain(Joined(init[..i])).rest| <= BUFFER_LIMIT {
        assert init[..i] == chunks[..i];
      }
    } else {
      var i :| 0 < i <= n && |Drain(Joined(chunks[..i])).rest| > BUFFER_LIMIT;
      if i < n { assert init[..i] == chunks[..i]; }
    }
  }

  /** What a connection has handed on depends only on the bytes, not on how the
      network cut them up; it stays open exactly while the leftovers fit. */
  lemma {:induction false} ChunkingIndependence(chunks: seq<Bytes>)
    ensures ReceiveAll(chunks).open <==> WithinLimit(chunks)
    ensures WithinLimit(chunks) ==>
              ReceiveAll(chunks).frames == Drain(Joined(chunks)).frames &&
              ReceiveAll(chunks).buffer == Drain(Joined(chunks)).rest
  {
    var n := |chunks|;
    if n > 0 {
      var init := chunks[..n - 1];
      ChunkingIndependence(init);
      WithinLimitOneMore(chunks);
      DrainInTwo(Joined(init), chunks[n - 1]);
    }
  }

  /** Two cuts of one stream, both within the limit, are indistinguishable. */
  lemma SameStreamSameFrames(xs: seq<Bytes>, ys: seq<Bytes>)
    requires Joined(xs) == Joined(ys) && WithinLimit(xs) && WithinLimit(ys)
    ensures ReceiveAll(xs) == ReceiveAll(ys)
  {
    ChunkingIndependence(xs);
    ChunkingIndependence(ys);
  }

  // ---- Hand-built replies ----

  function Flat(parts: seq<Bytes>): Bytes {
    if parts == [] then [] else parts[0] + Flat(parts[1..])
  }

  lemma {:induction false} FlatAppend(parts: seq<Bytes>, last: Bytes)
    ensures Flat(parts + [last]) == Flat(parts) + last
  {
    if parts == [] {
      assert Flat([last]) == last + Flat([]);
    } else {
      FlatAppend(parts[1..], last);
      assert (parts + [last])[1..] == parts[1..] + [last];
      assert parts[0] + (Flat(parts[1..]) + last) == parts[0] + Flat(parts[1..]) + last;
    }
  }

  /** The reply is one whole frame holding `v`. */
  ghost predicate OneFrame(reply: Bytes, v: RespValue) {
    ParseResp(reply) == Some(Parsed(v, |reply|))
  }

  /** A serialized reply is one frame exactly when it is printable: an error or status text
      with a CRLF inside, which a client can provoke, is not. */
  lemma ReplyIsOneFrameIff(v: RespValue)
    ensures OneFrame(Print(v), v) <==> Printable(v)
  {
    PrintIsFrameIff(v, []);
    assert Print(v) + [] == Print(v);
  }

  function ExecFrame(replies: seq<Bytes>): Bytes {
    Line('*', Digits(|replies|)) + Flat(replies)
  }

  /** EXEC's reply buffer: an array header and the serialized replies in turn. */
  method BuildExecReply(replies: seq<Bytes>) returns (out: Bytes)
    ensures out == ExecFrame(replies)
  {
    out := [42] + Digits(|replies|) + [CR, LF];
    ghost var head := out;
    for i := 0 to |replies|
      invariant out == head + Flat(replies[..i])
    {
      out := out + replies[i];
      FlatAppend(replies[..i], replies[i]);
      assert replies[..i] + [replies[i]] == replies[..i + 1];
    }
    assert replies[..|replies|] == replies;
  }

  lemma {:induction false} FlatFramesParse(replies: seq<Bytes>, vs: seq<RespValue>, rest: Bytes)
    requires |replies| == |vs| && forall i | 0 <= i < |vs| :: OneFrame(replies[i], vs[i])
    ensures ParseItems(Flat(replies) + rest, |vs|) == Some(Parsed(vs, |Flat(replies)|))
  {
    if vs != [] {
      FlatFramesParse(replies[1..], vs[1..], rest);
      assert OneFrame(replies[0], vs[0]);
      ParseUnchangedByExtension(replies[0], Flat(replies[1..]) + rest);
      ConsItems(vs, replies[0], Flat(replies[1..]), rest);
    }
  }

  /** When every inner reply is one whole frame, EXEC's bytes are one array of
      exactly those replies, whatever follows on the wire. */
  lemma ExecReplyParses(replies: seq<Bytes>, vs: seq<RespValue>, rest: Bytes)
    requires |replies| == |vs| <= I64_MAX && forall i | 0 <= i < |vs| :: OneFrame(replies[i], vs[i])
    ensures ParseResp(ExecFrame(replies) + rest) == Some(Parsed(Array(vs), |ExecFrame(replies)|))
  {
    FlatFramesParse(replies, vs, rest);
    ReadFramedItems(vs, Flat(replies), rest);
  }

  // ---- Stream replies ----

  type Fields = seq<(Bytes, Bytes)>
  /** A stream entry as it is replied: printed id and fields. */
  datatype ReplyEntry = ReplyEntry(id: Bytes, fields: Fields)

  function Bulk(data: Bytes): RespValue { BulkString(Some(data)) }

  function FieldValues(fields: Fields): (r: seq<RespValue>)
    ensures |r| == 2 * |fields|
  {
    if fields == [] then []
    else FieldValues(fields[..|fields| - 1]) + [Bulk(fields[|fields| - 1].0)] + [Bulk(fields[|fields| - 1].1)]
  }

  function EntryValue(e: ReplyEntry): RespValue {
    Array([Bulk(e.id), Array(FieldValues(e.fields))])
  }

  function EntryValues(entries: seq<ReplyEntry>): (r: seq<RespValue>)
    ensures |r| == |entries| && forall i | 0 <= i < |r| :: r[i] == EntryValue(entries[i])
  {
    seq(|entries|, i requires 0 <= i < |entries| => EntryValue(entries[i]))
  }

  method AppendBulk(out: Bytes, data: Bytes) returns (r: Bytes)
    ensures r == out + Print(Bulk(data))
  {
    r := out + [36] + Digits(|data|) + [CR, LF] + data + [CR, LF];
  }

  /** Behind `head`, the items printed so far and one more. */
  lemma GrowItems(head: Bytes, done: seq<RespValue>, v: RespValue)
    ensures head + PrintAll(done) + Print(v) == head + PrintAll(done + [v])
  {
    PrintAllAppend(done, v);
  }

  method AppendFields(out: Bytes, fields: Fields) returns (r: Bytes)
    ensures r == out + Print(Array(FieldValues(fields)))
  {
    r := out + [42] + Digits(|fields| * 2) + [CR, LF];
    ghost var head, done: seq<RespValue> := r, [];
    for i := 0 to |fields|
      invariant r == head + PrintAll(done) && done == FieldValues(fields[..i])
    {
      r := AppendBulk(r, fields[i].0);
      GrowItems(head, done, Bulk(fields[i].0));
      r := AppendBulk(r, fields[i].1);
      GrowItems(head, done + [Bulk(fields[i].0)], Bulk(fields[i].1));
      FieldValuesGrow(fields, i);
      done := done + [Bulk(fields[i].0)] + [Bulk(fields[i].1)];
    }
    assert fields[..|fields|] == fields;
    LineAppended(out, '*', Digits(|fields| * 2));
    Assoc(out, Line('*', Digits(|fields| * 2)), PrintAll(done));
  }

  lemma FieldValuesGrow(fields: Fields, i: nat)
    requires i < |fields|
    ensures FieldValues(fields[..i + 1]) == FieldValues(fields[..i]) + [Bulk(fields[i].0)] + [Bulk(fields[i].1)]
  {
    assert fields[..i + 1][..i] == fields[..i];
  }

  lemma PrintPair(a: RespValue, b: RespValue)
    ensures Print(Array([a, b])) == [42, 50, CR, LF] + Print(a) + Print(b)
  {
    assert Digits(2) == [50];
    assert PrintAll([a, b]) == Print(a) + PrintAll([b]);
    assert PrintAll([b]) == Print(b) + PrintAll([]);
  }

  method AppendEntry(out: Bytes, e: ReplyEntry) returns (r: Bytes)
    ensures r == out + Print(EntryValue(e))
  {
    r := AppendBulk(out + [42, 50, CR, LF], e.id);
    r := AppendFields(r, e.fields);
    PrintPair(Bulk(e.id), Array(FieldValues(e.fields)));
  }

  /** `format_xentries` builds exactly the print of an array of [id, fields]. */
  method FormatXEntries(entries: seq<ReplyEntry>) returns (out: Bytes)
    ensures out == Print(Array(EntryValues(entries)))
  {
    out := [42] + Digits(|entries|) + [CR, LF];
    ghost var head, done: seq<RespValue> := out, [];
    for i := 0 to |entries|
      invariant out == head + PrintAll(done) && done == EntryValues(entries[..i])
    {
      out := AppendEntry(out, entries[i]);
      GrowItems(head, done, EntryValue(entries[i]));
      done := done + [EntryValue(entries[i])];
    }
    assert entries[..|entries|] == entries;
  }

  /** One stream of an XREAD reply. */
  datatype StreamReply = StreamReply(name: Bytes, entries: seq<ReplyEntry>)

  function StreamReplyValue(s: StreamReply): RespValue {
    Array([Bulk(s.name), Array(EntryValues(s.entries))])
  }

  function StreamReplyValues(streams: seq<StreamReply>): (r: seq<RespValue>)
    ensures |r| == |streams| && forall i | 0 <= i < |r| :: r[i] == StreamReplyValue(streams[i])
  {
    seq(|streams|, i requires 0 <= i < |streams| => StreamReplyValue(streams[i]))
  }

  method AppendStreamReply(out: Bytes, s: StreamReply) returns (r: Bytes)
    ensures r == out + Print(StreamReplyValue(s))
  {
    r := AppendBulk(out + [42, 50, CR, LF], s.name);
    var body := FormatXEntries(s.entries);
    r := r + body;
    PrintPair(Bulk(s.name), Array(EntryValues(s.entries)));
  }

  /** `format_xread` builds exactly the print of an array of [name, entries]. */
  method FormatXRead(streams: seq<StreamReply>) returns (out: Bytes)
    ensures out == Print(Array(StreamReplyValues(streams)))
  {
    out := [42] + Digits(|streams|) + [CR, LF];
    ghost var head, done: seq<RespValue> := out, [];
    for i := 0 to |streams|
      invariant out == head + PrintAll(done) && done == StreamReplyValues(streams[..i])
    {
      out := AppendStreamReply(out, streams[i]);
      GrowItems(head, done, StreamReplyValue(streams[i]));
      done := done + [StreamReplyValue(streams[i])];
    }
    assert streams[..|streams|] == streams;
  }

  // ---- Sizes: every length the reply mentions fits an i64 ----

  ghost predicate FieldsFit(fields: Fields) {
    2 * |fields| <= I64_MAX && forall f | f in fields :: |f.0| <= I64_MAX && |f.1| <= I64_MAX
  }

  ghost predicate EntriesFit(entries: seq<ReplyEntry>) {
    |entries| <= I64_MAX && forall e | e in entries :: |e.id| <= I64_MAX && FieldsFit(e.fields)
  }

  lemma {:induction false} FieldValuesPrintable(fields: Fields)
    requires forall f | f in fields :: |f.0| <= I64_MAX && |f.1| <= I64_MAX
    ensures forall v | v in FieldValues(fields) :: Printable(v)
  {
    if fields != [] { FieldValuesPrintable(fields[..|fields| - 1]); }
  }

  lemma EntryValuesPrintable(entries: seq<ReplyEntry>)
    requires EntriesFit(entries)
    ensures Printable(Array(EntryValues(entries)))
  {
    forall v | v in EntryValues(entries) ensures Printable(v) {
      var i :| 0 <= i < |entries| && v == EntryValue(entries[i]);
      FieldValuesPrintable(entries[i].fields);
      assert Printable(Array(FieldValues(entries[i].fields)));
    }
  }

  /** XRANGE's bytes parse back as one array of the right entries. */
  lemma XRangeReplyParses(entries: seq<ReplyEntry>, rest: Bytes)
    requires EntriesFit(entries)
    ensures var v := Array(EntryValues(entries)); ParseResp(Print(v) + rest) == Some(Parsed(v, |Print(v)|))
  {
    EntryValuesPrintable(entries);
    RespRoundTrip(Array(EntryValues(entries)), rest);
  }

  /** XREAD's bytes parse back as one array of the right streams. */
  lemma XReadReplyParses(streams: seq<StreamReply>, rest: Bytes)
    requires |streams| <= I64_MAX && forall s | s in streams :: |s.name| <= I64_MAX && EntriesFit(s.entries)
    ensures var v := Array(StreamReplyValues(streams)); ParseResp(Print(v) + rest) == Some(Parsed(v, |Print(v)|))
  {
    var v := Array(StreamReplyValues(streams));
    forall x | x in v.items ensures Printable(x) {
      var i :| 0 <= i < |streams| && x == StreamReplyValue(streams[i]);
      EntryValuesPrintable(streams[i].entries);
    }
    RespRoundTrip(v, rest);
  }
}
