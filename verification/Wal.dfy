/** The write-ahead log's entry format and file replay (persistence/wal.rs).
    Files are byte sequences; bincode and CRC-32 are parameters. */
module Wal {
  import opened Primitives
  import opened Commands

  /** The foreign codec: payload encoding and checksum. */
  datatype Codec = Codec(encode: Command -> Bytes, decode: Bytes -> Option<Command>, crc: Bytes -> nat)

  /** Checksums are u32. */
  ghost predicate ChecksumsFit(codec: Codec) { forall b :: codec.crc(b) < U32_SPAN }

  datatype WalEntry = WalEntry(sequence: nat, timestamp: nat, command: Command)

  /** The entry's fields fit their widths, and its command survives encoding. */
  predicate Fits(codec: Codec, e: WalEntry) {
    && e.sequence <= U64_MAX && e.timestamp <= U64_MAX
    && codec.decode(codec.encode(e.command)) == Some(e.command) && |codec.encode(e.command)| < U32_SPAN
  }

  /** A codec that stores a DEL as its key. */
  const KEY_CODEC := Codec((cmd: Command) => if cmd.Delete? then cmd.key else [], b => Some(Delete(b)),
                           b => |b| % U32_SPAN)

  /** There are codecs and entries to speak of: under this one every DEL of a key
      below 4 GiB fits. */
  lemma SomeEntriesFit(sequence: nat, timestamp: nat, key: Bytes)
    requires sequence <= U64_MAX && timestamp <= U64_MAX && |key| < U32_SPAN
    ensures ChecksumsFit(KEY_CODEC) && Fits(KEY_CODEC, WalEntry(sequence, timestamp, Delete(key)))
    ensures Deserialize(KEY_CODEC, Serialize(KEY_CODEC, WalEntry(sequence, timestamp, Delete(key))))
         == Some(WalEntry(sequence, timestamp, Delete(key)))
  {
    EntryRoundTrip(KEY_CODEC, WalEntry(sequence, timestamp, Delete(key)));
  }

  const HEADER: nat := 20
  const CHECKSUM: nat := 4

  // ---- Entries ----

  function Head(e: WalEntry, size: nat): (h: Bytes)
    ensures |h| == HEADER
  {
    BigEndian(e.sequence, 8) + BigEndian(e.timestamp, 8) + BigEndian(size % U32_SPAN, 4)
  }

  /** [sequence:8][timestamp:8][size:4][command][checksum:4] */
  function Serialize(codec: Codec, e: WalEntry): (s: Bytes)
    ensures |s| >= HEADER + CHECKSUM
  {
    var payload := codec.encode(e.command);
    var body := Head(e, |payload|) + payload;
    body + BigEndian(codec.crc(body), CHECKSUM)
  }

  /** The length field of a header. */
  function SizeField(s: Bytes): nat
    requires |s| >= HEADER
  {
    FromBigEndian(s[16..20])
  }

  /** What `deserialize` makes of a whole entry; `None` is any of its errors. */
  function Deserialize(codec: Codec, data: Bytes): (r: Option<WalEntry>) {
    if |data| < HEADER + CHECKSUM then None
    else
      var end := |data| - CHECKSUM;
      if codec.crc(data[..end]) != FromBigEndian(data[end..]) then None
      else if |data| - HEADER < SizeField(data) + CHECKSUM then None
      else
        match codec.decode(data[HEADER..HEADER + SizeField(data)])
        case None => None
        case Some(cmd) => Some(WalEntry(FromBigEndian(data[..8]), FromBigEndian(data[8..16]), cmd))
  }

  lemma HeadFields(e: WalEntry, size: nat, rest: Bytes)
    requires e.sequence <= U64_MAX && e.timestamp <= U64_MAX && size < U32_SPAN
    ensures var s := Head(e, size) + rest;
            FromBigEndian(s[..8]) == e.sequence && FromBigEndian(s[8..16]) == e.timestamp && SizeField(s) == size
  {
    var s := Head(e, size) + rest;
    U64AndU32Widths();
    BigEndianRoundTrip(e.sequence, 8);
    BigEndianRoundTrip(e.timestamp, 8);
    BigEndianRoundTrip(size, 4);
    assert s[..8] == BigEndian(e.sequence, 8);
    assert s[8..16] == BigEndian(e.timestamp, 8);
    assert s[16..20] == BigEndian(size, 4);
  }

  lemma SerializedShape(codec: Codec, e: WalEntry)
    requires ChecksumsFit(codec) && Fits(codec, e)
    ensures var s, size := Serialize(codec, e), |codec.encode(e.command)|;
            |s| == HEADER + size + CHECKSUM && SizeField(s) == size &&
            FromBigEndian(s[..8]) == e.sequence && FromBigEndian(s[8..16]) == e.timestamp
  {
    var payload := codec.encode(e.command);
    HeadFields(e, |payload|, payload + BigEndian(codec.crc(Head(e, |payload|) + payload), CHECKSUM));
    assert Serialize(codec, e)
        == Head(e, |payload|) + (payload + BigEndian(codec.crc(Head(e, |payload|) + payload), CHECKSUM));
  }

  lemma EntryRoundTrip(codec: Codec, e: WalEntry)
    requires ChecksumsFit(codec) && Fits(codec, e)
    ensures Deserialize(codec, Serialize(codec, e)) == Some(e)
  {
    var payload := codec.encode(e.command);
    var body := Head(e, |payload|) + payload;
    var s := Serialize(codec, e);
    SerializedShape(codec, e);
    U64AndU32Widths();
    BigEndianRoundTrip(codec.crc(body), CHECKSUM);
    assert s[..|s| - CHECKSUM] == body && s[|s| - CHECKSUM..] == BigEndian(codec.crc(body), CHECKSUM);
    assert s[HEADER..HEADER + |payload|] == payload;
  }

  /** On disk: number, timestamp and payload size from the most significant byte on, the
      payload, and the checksum of all that. */
  lemma EntryLayout(codec: Codec, e: WalEntry)
    requires Fits(codec, e)
    ensures var payload := codec.encode(e.command);
            var body := Field(e.sequence, 8) + Field(e.timestamp, 8) + Field(|payload|, 4) + payload;
            Serialize(codec, e) == body + Field(codec.crc(body), 4)
  {
    var payload := codec.encode(e.command);
    BigEndianIsField(e.sequence, 8);
    BigEndianIsField(e.timestamp, 8);
    BigEndianIsField(|payload|, 4);
    BigEndianIsField(codec.crc(Head(e, |payload|) + payload), 4);
  }

  // ---- Replaying a file ----

  /** Entries handed to the callback, and whether the scan ended without error. */
  datatype Replayed = Replayed(entries: seq<WalEntry>, ok: bool)

  /** The bytes of one entry, by its own length field. */
  function EntrySize(file: Bytes): nat
    requires |file| >= HEADER
  {
    HEADER + SizeField(file) + CHECKSUM
  }

  function One(r: Option<WalEntry>): seq<WalEntry> { if r.Some? then [r.value] else [] }

  /** A torn header ends the scan quietly, a torn body with an error; an entry
      that does not deserialize is skipped. */
  function ReplayFile(codec: Codec, file: Bytes): Replayed
    decreases |file|
  {
    if |file| < HEADER then Replayed([], true)
    else if |file| < EntrySize(file) then Replayed([], false)
    else
      var rest := ReplayFile(codec, file[EntrySize(file)..]);
      Replayed(One(Deserialize(codec, file[..EntrySize(file)])) + rest.entries, rest.ok)
  }

  /** `all` is what `done` entries and then `rest` amount to. */
  ghost predicate SoFar(all: Replayed, done: seq<WalEntry>, rest: Replayed) {
    all == Replayed(done + rest.entries, rest.ok)
  }

  lemma SoFarBegins(all: Replayed)
    ensures SoFar(all, [], all)
  {
    assert [] + all.entries == all.entries;
  }

  lemma SoFarEnds(all: Replayed, done: seq<WalEntry>, ok: bool)
    requires SoFar(all, done, Replayed([], ok))
    ensures all == Replayed(done, ok)
  {
    assert done + [] == done;
  }

  lemma SoFarStep(all: Replayed, done: seq<WalEntry>, entry: Option<WalEntry>, rest: Replayed)
    requires SoFar(all, done, Replayed(One(entry) + rest.entries, rest.ok))
    ensures SoFar(all, done + One(entry), rest)
  {
    Assoc(done, One(entry), rest.entries);
  }

  /** `replay_file`'s read loop over the file. */
  method ReplayLoop(codec: Codec, file: Bytes) returns (entries: seq<WalEntry>, ok: bool)
    ensures Replayed(entries, ok) == ReplayFile(codec, file)
  {
    entries := [];
    var unread := file;
    ghost var all := ReplayFile(codec, file);
    SoFarBegins(all);
    while |unread| >= HEADER
      invariant SoFar(all, entries, ReplayFile(codec, unread))
      decreases |unread|
    {
      var size := EntrySize(unread);
      if |unread| < size {
        SoFarEnds(all, entries, false);
        return entries, false;
      }
      var entry := Deserialize(codec, unread[..size]);
      SoFarStep(all, entries, entry, ReplayFile(codec, unread[size..]));
      entries := entries + One(entry);
      unread := unread[size..];
    }
    SoFarEnds(all, entries, true);
    return entries, true;
  }

  /** A well-formed log: the entries one after the other. */
  function Encoded(codec: Codec, es: seq<WalEntry>): Bytes {
    if es == [] then [] else Serialize(codec, es[0]) + Encoded(codec, es[1..])
  }

  predicate AllFit(codec: Codec, es: seq<WalEntry>) { forall e | e in es :: Fits(codec, e) }

  /** A whole entry at the front is delivered, and the scan goes on behind it. */
  lemma ReplayOne(codec: Codec, e: WalEntry, rest: Bytes)
    requires ChecksumsFit(codec) && Fits(codec, e)
    ensures ReplayFile(codec, Serialize(codec, e) + rest)
         == Replayed([e] + ReplayFile(codec, rest).entries, ReplayFile(codec, rest).ok)
  {
    var s := Serialize(codec, e);
    var file := s + rest;
    SerializedShape(codec, e);
    EntryRoundTrip(codec, e);
    assert file[16..20] == s[16..20];
    assert file[..|s|] == s && file[|s|..] == rest;
  }

  lemma {:induction false} ReplayWhole(codec: Codec, es: seq<WalEntry>, rest: Bytes)
    requires ChecksumsFit(codec) && AllFit(codec, es)
    ensures ReplayFile(codec, Encoded(codec, es) + rest)
         == Replayed(es + ReplayFile(codec, rest).entries, ReplayFile(codec, rest).ok)
  {
    if es == [] {
      assert Encoded(codec, es) + rest == rest;
    } else {
      assert es[0] in es;
      ReplayWhole(codec, es[1..], rest);
      ReplayOne(codec, es[0], Encoded(codec, es[1..]) + rest);
      Assoc(Serialize(codec, es[0]), Encoded(codec, es[1..]), rest);
      Assoc([es[0]], es[1..], ReplayFile(codec, rest).entries);
      assert [es[0]] + es[1..] == es;
    }
  }

  /** A strict prefix of one entry delivers nothing: quietly inside the header,
      with an error inside the body. */
  lemma ReplayTornEntry(codec: Codec, e: WalEntry, n: nat)
    requires ChecksumsFit(codec) && Fits(codec, e) && n < |Serialize(codec, e)|
    ensures ReplayFile(codec, Serialize(codec, e)[..n]) == Replayed([], n < HEADER)
  {
    if n >= HEADER {
      SerializedShape(codec, e);
      assert Serialize(codec, e)[..n][16..20] == Serialize(codec, e)[16..20];
    }
  }

  /** One more whole entry in front of what was torn further on. */
  lemma TornBehind(codec: Codec, es: seq<WalEntry>, torn: Bytes, j: nat)
    requires ChecksumsFit(codec) && es != [] && Fits(codec, es[0]) && j < |es|
    requires |Encoded(codec, es[1..][..j])| <= |torn|
    requires ReplayFile(codec, torn) == Replayed(es[1..][..j], |torn| - |Encoded(codec, es[1..][..j])| < HEADER)
    ensures var s := Serialize(codec, es[0]);
            && |Encoded(codec, es[..j + 1])| == |s| + |Encoded(codec, es[1..][..j])|
            && ReplayFile(codec, s + torn)
            == Replayed(es[..j + 1], |s| + |torn| - |Encoded(codec, es[..j + 1])| < HEADER)
  {
    ReplayOne(codec, es[0], torn);
    EncodedTake(codec, es, j);
  }

  /** Torn logs: any byte prefix of a well-formed log delivers exactly the entries
      wholly inside it, in order. */
  lemma {:induction false} TornLog(codec: Codec, es: seq<WalEntry>, n: nat) returns (k: nat)
    requires ChecksumsFit(codec) && AllFit(codec, es) && n <= |Encoded(codec, es)|
    ensures k <= |es| && |Encoded(codec, es[..k])| <= n
    ensures k < |es| ==> n < |Encoded(codec, es[..k + 1])|
    ensures ReplayFile(codec, Encoded(codec, es)[..n])
         == Replayed(es[..k], n - |Encoded(codec, es[..k])| < HEADER)
  {
    if es == [] {
      k := 0;
    } else {
      var s, tail := Serialize(codec, es[0]), Encoded(codec, es[1..]);
      assert es[0] in es;
      if n < |s| {
        k := 0;
        ReplayTornEntry(codec, es[0], n);
        PrefixOfJoin(s, tail, n);
        EncodedTake(codec, es, 0);
      } else {
        var j := TornLog(codec, es[1..], n - |s|);
        k := j + 1;
        PrefixOfJoin(s, tail, n);
        TornBehind(codec, es, tail[..n - |s|], j);
        if k < |es| { EncodedTake(codec, es, j + 1); }
      }
    }
  }

  lemma PrefixOfJoin<T>(a: seq<T>, b: seq<T>, n: nat)
    requires n <= |a| + |b|
    ensures (a + b)[..n] == if n < |a| then a[..n] else a + b[..n - |a|]
  {
  }

  lemma EncodedTake(codec: Codec, es: seq<WalEntry>, j: nat)
    requires j < |es|
    ensures Encoded(codec, es[..j + 1]) == Serialize(codec, es[0]) + Encoded(codec, es[1..][..j])
    ensures es[..j + 1] == [es[0]] + es[1..][..j]
  {
    assert es[..j + 1][1..] == es[1..][..j];
  }

  /** A damaged entry: as long as before, length field intact, checksum wrong. */
  ghost predicate Damaged(codec: Codec, e: WalEntry, bytes: Bytes) {
    var s := Serialize(codec, e);
    && |bytes| == |s| && bytes[16..20] == s[16..20]
    && codec.crc(bytes[..|bytes| - CHECKSUM]) != FromBigEndian(bytes[|bytes| - CHECKSUM..])
  }

  /** A damaged entry is skipped and costs neither earlier nor later entries. */
  lemma DamagedEntryIsSkipped(codec: Codec, before: seq<WalEntry>, e: WalEntry, bytes: Bytes, after: seq<WalEntry>)
    requires ChecksumsFit(codec) && AllFit(codec, before) && Fits(codec, e) && AllFit(codec, after)
    requires Damaged(codec, e, bytes)
    ensures ReplayFile(codec, Encoded(codec, before) + (bytes + Encoded(codec, after)))
         == Replayed(before + after, true)
  {
    var tail := Encoded(codec, after);
    var file := bytes + tail;
    SerializedShape(codec, e);
    assert file[16..20] == bytes[16..20];
    assert file[..|bytes|] == bytes && file[|bytes|..] == tail;
    ReplayWhole(codec, after, []);
    assert tail + [] == tail && after + [] == after;
    assert ReplayFile(codec, file) == Replayed([] + after, true);
    assert [] + after == after;
    ReplayWhole(codec, before, file);
  }

  lemma {:induction false} EncodedJoin(codec: Codec, a: seq<WalEntry>, b: seq<WalEntry>)
    ensures Encoded(codec, a + b) == Encoded(codec, a) + Encoded(codec, b)
  {
    if a == [] {
      assert a + b == b;
    } else {
      EncodedJoin(codec, a[1..], b);
      assert (a + b)[1..] == a[1..] + b;
      Assoc(Serialize(codec, a[0]), Encoded(codec, a[1..]), Encoded(codec, b));
    }
  }

  // ---- Scanning for the highest sequence number ----

  /** The highest sequence in the headers of a file, from `best` on; `None` is the
      error of a torn body. */
  function ScanSequences(file: Bytes, best: Option<nat>): Option<Option<nat>>
    decreases |file|
  {
    if |file| < HEADER then Some(best)
    else
      var n := FromBigEndian(file[..8]);
      if |file| < EntrySize(file) then None
      else ScanSequences(file[EntrySize(file)..], Some(if best.Some? && best.value > n then best.value else n))
  }

  function Highest(es: seq<WalEntry>, best: Option<nat>): Option<nat>
    decreases |es|
  {
    if es == [] then best
    else Highest(es[1..], Some(if best.Some? && best.value > es[0].sequence then best.value else es[0].sequence))
  }

  lemma {:induction false} ScanFindsHighest(codec: Codec, es: seq<WalEntry>, best: Option<nat>)
    requires ChecksumsFit(codec) && AllFit(codec, es)
    ensures ScanSequences(Encoded(codec, es), best) == Some(Highest(es, best))
    decreases |es|
  {
    if es != [] {
      var e, s, rest := es[0], Serialize(codec, es[0]), Encoded(codec, es[1..]);
      assert e in es;
      var file := s + rest;
      SerializedShape(codec, e);
      assert file[..8] == s[..8] && file[16..20] == s[16..20] && file[|s|..] == rest;
      ScanFindsHighest(codec, es[1..], Some(if best.Some? && best.value > e.sequence then best.value else e.sequence));
    }
  }

  /** Scanning whole entries goes on with what lies behind them. */
  lemma {:induction false} ScanThrough(codec: Codec, es: seq<WalEntry>, rest: Bytes, best: Option<nat>)
    requires ChecksumsFit(codec) && AllFit(codec, es)
    ensures ScanSequences(Encoded(codec, es) + rest, best) == ScanSequences(rest, Highest(es, best))
    decreases |es|
  {
    if es == [] {
      assert Encoded(codec, es) + rest == rest;
    } else {
      var e, s, tail := es[0], Serialize(codec, es[0]), Encoded(codec, es[1..]) + rest;
      assert e in es;
      Assoc(s, Encoded(codec, es[1..]), rest);
      var file := s + tail;
      SerializedShape(codec, e);
      assert file[..8] == s[..8] && file[16..20] == s[16..20] && file[|s|..] == tail;
      ScanThrough(codec, es[1..], rest, Some(if best.Some? && best.value > e.sequence then best.value else e.sequence));
    }
  }

  /** Behind one stray byte the length field begins with the last byte of the timestamp. */
  lemma ShiftedSizeField(codec: Codec, stray: Byte, e: WalEntry)
    requires ChecksumsFit(codec) && Fits(codec, e)
    requires e.timestamp % 256 != 0 && |codec.encode(e.command)| < 0x100_0000 - 24
    ensures var file := [stray] + Serialize(codec, e); HEADER <= |file| < EntrySize(file)
  {
    var s := Serialize(codec, e);
    var file := [stray] + s;
    SerializedShape(codec, e);
    var size := |codec.encode(e.command)|;
    assert s[..HEADER] == Head(e, size);
    assert file[16] == s[15] == Head(e, size)[15] == BigEndian(e.timestamp, 8)[7] == e.timestamp % 256;
    FirstByteWeighs(file[16..20]);
  }

  lemma FirstByteWeighs(b: Bytes)
    requires |b| == 4 && b[0] > 0
    ensures FromBigEndian(b) >= 0x100_0000
  {
    assert b[..3][..2][..1] == [b[0]] && [b[0]][..0] == [];
    var first: int := b[0];
    assert FromBigEndian([b[0]]) == first;
    assert FromBigEndian(b[..2]) >= 256 * first by { assert b[..2][..1] == [b[0]]; }
    assert FromBigEndian(b[..3]) >= 256 * FromBigEndian(b[..2]) by { assert b[..3][..2] == b[..2]; }
    assert FromBigEndian(b) >= 256 * FromBigEndian(b[..3]);
  }
}
