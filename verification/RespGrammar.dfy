/** The grammar of RESP frames, told without reference to the parser, and the parser as
    its exact recogniser (protocol.rs). */
module RespGrammar {
  import opened Primitives
  import opened Resp
  import opened Framing

  // ---- The grammar ----

  /** One or more digits behind an optional sign stand for `n`, which fits 64 bits. */
  ghost predicate Numeral(line: Bytes, n: int) {
    && I64_MIN <= n <= I64_MAX && line != []
    && var signed := line[0] == PLUS || line[0] == MINUS;
       var digits := if signed then line[1..] else line;
       digits != [] && AllDigits(digits) &&
       (if line[0] == MINUS then n + DigitsValue(digits) == 0 else n == DigitsValue(digits))
  }

  /** A marker, a line without CRLF inside, its CRLF, and the rest. */
  ghost predicate Headed(s: Bytes, marker: char, line: Bytes, rest: Bytes) {
    marker < '~' && SingleLine(line) && s == [marker as int] + line + [CR, LF] + rest
  }

  /** `s` is one whole frame of `v`: what a sender may write for it. Text is decoded
      lossily; -1 stands for the absent string and any negative count for the empty array. */
  ghost predicate Frame(s: Bytes, v: RespValue)
    decreases v
  {
    match v
    case SimpleString(text) => exists line :: Headed(s, '+', line, []) && text == Lossy(line)
    case Error(text) => exists line :: Headed(s, '-', line, []) && text == Lossy(line)
    case Integer(n) => exists line :: Headed(s, ':', line, []) && Numeral(line, n)
    case BulkString(None) => exists line :: Headed(s, '$', line, []) && Numeral(line, -1)
    case BulkString(Some(data)) => exists line :: Headed(s, '$', line, data + [CR, LF]) && Numeral(line, |data|)
    case Array(items) =>
      || (items == [] && exists line, count :: count < 0 && Headed(s, '*', line, []) && Numeral(line, count))
      || exists line, body :: Headed(s, '*', line, body) && Numeral(line, |items|) && Frames(body, items)
  }

  /** The frames of `items`, one after the other. */
  ghost predicate Frames(s: Bytes, items: seq<RespValue>)
    decreases items
  {
    if items == [] then s == []
    else exists n | 0 <= n <= |s| :: Frame(s[..n], items[0]) && Frames(s[n..], items[1..])
  }

  // ---- Numbers ----

  lemma NumeralIsParsed(line: Bytes, n: int)
    ensures ParseI64(line) == Some(n) <==> Numeral(line, n)
  {
  }

  lemma NumeralIsSingle(line: Bytes, n: int)
    requires Numeral(line, n)
    ensures SingleLine(line)
  {
    forall i | 0 <= i < |line| ensures line[i] != CR {
      if i > 0 { assert line[1..][i - 1] == line[i]; }
    }
  }

  lemma ReadNumeral(line: Bytes, n: int, rest: Bytes)
    requires Numeral(line, n)
    ensures ReadInteger(line + [CR, LF] + rest) == Some(Parsed(n, |line| + 2))
  {
    NumeralIsParsed(line, n);
    NumeralIsSingle(line, n);
    ReadPrintedLine(line, rest);
  }

  // ---- Frames are parsed ----

  lemma HeadedIsLine(s: Bytes, marker: char, line: Bytes, body: Bytes, rest: Bytes)
    requires Headed(s, marker, line, body)
    ensures s + rest == Line(marker, line) + (body + rest) && |s| == |line| + 3 + |body|
  {
  }

  lemma TextFrameParses(s: Bytes, line: Bytes, isError: bool, rest: Bytes)
    requires Headed(s, if isError then '-' else '+', line, [])
    ensures Reads(s + rest, if isError then Error(Lossy(line)) else SimpleString(Lossy(line)), |s|)
  {
    var marker := if isError then '-' else '+';
    HeadedIsLine(s, marker, line, [], rest);
    assert [] + rest == rest;
    ReadPrintedLine(line, rest);
    LineIsParsed(marker, line, rest, if isError then Error(Lossy(line)) else SimpleString(Lossy(line)), |line| + 2);
  }

  lemma NumberFrameParses(s: Bytes, line: Bytes, n: int, rest: Bytes)
    requires Headed(s, ':', line, []) && Numeral(line, n)
    ensures Reads(s + rest, Integer(n), |s|)
  {
    HeadedIsLine(s, ':', line, [], rest);
    assert [] + rest == rest;
    ReadNumeral(line, n, rest);
    ReadNumberFrame(line, n, rest);
  }

  lemma NilFrameParses(s: Bytes, line: Bytes, rest: Bytes)
    requires Headed(s, '$', line, []) && Numeral(line, -1)
    ensures Reads(s + rest, BulkString(None), |s|)
  {
    HeadedIsLine(s, '$', line, [], rest);
    assert [] + rest == rest;
    ReadNumeral(line, -1, rest);
    LineIsParsed('$', line, rest, BulkString(None), |line| + 2);
  }

  lemma BulkFrameParses(s: Bytes, line: Bytes, data: Bytes, rest: Bytes)
    requires Headed(s, '$', line, data + [CR, LF]) && Numeral(line, |data|)
    ensures Reads(s + rest, BulkString(Some(data)), |s|)
  {
    var tail := data + [CR, LF] + rest;
    HeadedIsLine(s, '$', line, data + [CR, LF], rest);
    BulkPieces(line, data, rest);
    assert s + rest == Line('$', line) + data + [CR, LF] + rest;
    ReadNumeral(line, |data|, tail);
    ReadPrintedPayload(data, rest);
    ReadBulkBehind(s + rest, line + [CR, LF] + tail, |line| + 2, tail, data);
  }

  lemma NoItemsParse(s: Bytes, line: Bytes, count: int, rest: Bytes)
    requires Headed(s, '*', line, []) && Numeral(line, count) && count < 0
    ensures Reads(s + rest, Array([]), |s|)
  {
    HeadedIsLine(s, '*', line, [], rest);
    assert [] + rest == rest;
    ReadNumeral(line, count, rest);
    LineIsParsed('*', line, rest, Array([]), |line| + 2);
  }

  lemma ItemsFrameParses(s: Bytes, line: Bytes, tail: Bytes, items: seq<RespValue>, used: nat)
    requires s == Line('*', line) + tail && Numeral(line, |items|)
    requires ParseItems(tail, |items|) == Some(Parsed(items, used))
    ensures Reads(s, Array(items), |line| + 3 + used)
  {
    ReadNumeral(line, |items|, tail);
    ReadArrayFrame(line, items, tail, used);
  }

  /** A frame is parsed to its value whatever follows, and no further. */
  lemma {:induction false} FrameParses(s: Bytes, v: RespValue, rest: Bytes)
    requires Frame(s, v)
    ensures Reads(s + rest, v, |s|)
    decreases v, 1
  {
    match v {
      case SimpleString(text) =>
        var line :| Headed(s, '+', line, []) && text == Lossy(line);
        TextFrameParses(s, line, false, rest);
      case Error(text) =>
        var line :| Headed(s, '-', line, []) && text == Lossy(line);
        TextFrameParses(s, line, true, rest);
      case Integer(n) =>
        var line :| Headed(s, ':', line, []) && Numeral(line, n);
        NumberFrameParses(s, line, n, rest);
      case BulkString(None) =>
        var line :| Headed(s, '$', line, []) && Numeral(line, -1);
        NilFrameParses(s, line, rest);
      case BulkString(Some(data)) =>
        var line :| Headed(s, '$', line, data + [CR, LF]) && Numeral(line, |data|);
        BulkFrameParses(s, line, data, rest);
      case Array(items) => ArrayFrameParses(s, v, rest);
    }
  }

  lemma {:induction false} ArrayFrameParses(s: Bytes, v: RespValue, rest: Bytes)
    requires v.Array? && Frame(s, v)
    ensures Reads(s + rest, v, |s|)
    decreases v, 0
  {
    if v.items == [] && exists line, count :: count < 0 && Headed(s, '*', line, []) && Numeral(line, count) {
      var line, count :| count < 0 && Headed(s, '*', line, []) && Numeral(line, count);
      NoItemsParse(s, line, count, rest);
    } else {
      var line, body :| Headed(s, '*', line, body) && Numeral(line, |v.items|) && Frames(body, v.items);
      FramesParse(v, body, v.items, rest);
      HeadedIsLine(s, '*', line, body, rest);
      ItemsFrameParses(s + rest, line, body + rest, v.items, |body|);
    }
  }

  lemma FirstFrame(s: Bytes, items: seq<RespValue>) returns (head: Bytes, tail: Bytes)
    requires items != [] && Frames(s, items)
    ensures s == head + tail && Frame(head, items[0]) && Frames(tail, items[1..])
  {
    var n :| 0 <= n <= |s| && Frame(s[..n], items[0]) && Frames(s[n..], items[1..]);
    head, tail := s[..n], s[n..];
  }

  lemma {:induction false} FramesParse(v: RespValue, s: Bytes, items: seq<RespValue>, rest: Bytes)
    requires Frames(s, items) && forall x | x in items :: x < v
    ensures ParseItems(s + rest, |items|) == Some(Parsed(items, |s|))
    decreases v, 0, |items|
  {
    if items != [] {
      var head, tail := FirstFrame(s, items);
      assert items[0] in items && forall x | x in items[1..] :: x in items;
      FrameParses(head, items[0], tail + rest);
      FramesParse(v, tail, items[1..], rest);
      ConsItems(items, head, tail, rest);
    }
  }

  // ---- What is parsed is a frame ----

  /** `s` is a marker in front of `t`. */
  ghost predicate Marked(s: Bytes, marker: char, t: Bytes) { marker < '~' && s == [marker as int] + t }

  lemma LineIsHeaded(s: Bytes, marker: char, t: Bytes)
    requires Marked(s, marker, t) && ReadLine(t).Some?
    ensures var line := ReadLine(t).value;
            Headed(s[..line.used + 1], marker, line.value, []) && line.used == |line.value| + 2
  {
    FoundLineIsSingle(t);
    FoundIsCrlf(t);
    var line := ReadLine(t).value;
    assert s[..line.used + 1] == [marker as int] + t[..line.used];
    assert t[..line.used] == line.value + [CR, LF];
  }

  lemma {:induction false} FoundIsCrlf(s: Bytes)
    requires FindCrlf(s).Some?
    ensures s[FindCrlf(s).value] == CR && s[FindCrlf(s).value + 1] == LF
  {
    if FindCrlf(s).value > 0 { FoundIsCrlf(s[1..]); }
  }

  lemma NumberIsHeaded(s: Bytes, marker: char, t: Bytes) returns (line: Bytes)
    requires Marked(s, marker, t) && ReadInteger(t).Some?
    ensures var num := ReadInteger(t).value;
            && Headed(s[..num.used + 1], marker, line, []) && num.used == |line| + 2
            && Numeral(line, num.value)
  {
    line := ReadLine(t).value.value;
    LineIsHeaded(s, marker, t);
    NumeralIsParsed(line, ReadInteger(t).value.value);
  }

  lemma HeadedMore(s: Bytes, marker: char, line: Bytes, n: nat, m: nat)
    requires n <= m <= |s| && Headed(s[..n], marker, line, [])
    ensures Headed(s[..m], marker, line, s[n..m])
  {
    assert s[..m] == s[..n] + s[n..m];
  }

  lemma HeadedData(s: Bytes, line: Bytes, at: nat, data: Bytes)
    requires at + |data| + 2 <= |s| && Headed(s[..at], '$', line, []) && Numeral(line, |data|)
    requires s[at..at + |data| + 2] == data + [CR, LF]
    ensures Frame(s[..at + |data| + 2], BulkString(Some(data)))
  {
    HeadedMore(s, '$', line, at, at + |data| + 2);
  }

  lemma BulkIsFrame(s: Bytes, t: Bytes)
    requires Marked(s, '$', t) && ReadBulk(t).Some?
    ensures Frame(s[..ReadBulk(t).value.used + 1], ReadBulk(t).value.value)
  {
    var line := NumberIsHeaded(s, '$', t);
    var Parsed(len, used) := ReadInteger(t).value;
    if len >= 0 {
      var data := t[used..][..len];
      assert s[used + 1..used + 1 + len + 2] == data + [CR, LF];
      HeadedData(s, line, used + 1, data);
    }
  }

  /** Whatever the parser accepts is a frame of the value it yields. */
  lemma {:induction false} ParsedIsFrame(s: Bytes)
    requires ParseResp(s).Some?
    ensures Frame(s[..ParseResp(s).value.used], ParseResp(s).value.value)
    decreases |s|, 1
  {
    var t := s[1..];
    assert s == [s[0]] + t;
    if s[0] == '+' as int { LineIsHeaded(s, '+', t); }
    else if s[0] == '-' as int { LineIsHeaded(s, '-', t); }
    else if s[0] == ':' as int { var line := NumberIsHeaded(s, ':', t); }
    else if s[0] == '$' as int { BulkIsFrame(s, t); }
    else { ArrayIsFrame(s, t); }
  }

  lemma HeadedItems(s: Bytes, line: Bytes, at: nat, end: nat, items: seq<RespValue>)
    requires at <= end <= |s| && Headed(s[..at], '*', line, []) && Numeral(line, |items|) && Frames(s[at..end], items)
    ensures Frame(s[..end], Array(items))
  {
    HeadedMore(s, '*', line, at, end);
  }

  lemma NoItems(s: Bytes, line: Bytes, count: int)
    requires count < 0 && Headed(s, '*', line, []) && Numeral(line, count)
    ensures Frame(s, Array([]))
  {
  }

  lemma {:induction false} ArrayIsFrame(s: Bytes, t: Bytes)
    requires Marked(s, '*', t) && ReadArray(t).Some?
    ensures Frame(s[..ReadArray(t).value.used + 1], ReadArray(t).value.value)
    decreases |s|, 0
  {
    var line := NumberIsHeaded(s, '*', t);
    var Parsed(count, used) := ReadInteger(t).value;
    if count < 0 {
      NoItems(s[..used + 1], line, count);
    } else {
      var items := ArrayItems(t, count, used);
      assert t[used..] == s[used + 1..];
      ItemsBehind(s, line, used + 1, items);
    }
  }

  lemma {:induction false} ItemsBehind(s: Bytes, line: Bytes, at: nat, items: Parsed<seq<RespValue>>)
    requires 0 < at <= |s| && Headed(s[..at], '*', line, []) && Numeral(line, |items.value|)
    requires ParseItems(s[at..], |items.value|) == Some(items)
    ensures at + items.used <= |s| && Frame(s[..at + items.used], Array(items.value))
    decreases |s| - at, 4
  {
    ItemsAt(s, at, items);
    HeadedItems(s, line, at, at + items.used, items.value);
  }

  lemma ArrayItems(t: Bytes, count: nat, used: nat) returns (items: Parsed<seq<RespValue>>)
    requires ReadArray(t).Some? && ReadInteger(t) == Some(Parsed(count, used))
    ensures ParseItems(t[used..], count) == Some(items) && |items.value| == count
    ensures ReadArray(t) == Some(Parsed(Array(items.value), used + items.used))
  {
    items := ParseItems(t[used..], count).value;
  }

  lemma {:induction false} ItemsAt(s: Bytes, at: nat, items: Parsed<seq<RespValue>>)
    requires 0 < at <= |s| && ParseItems(s[at..], |items.value|) == Some(items)
    ensures at + items.used <= |s| && Frames(s[at..at + items.used], items.value)
    decreases |s| - at, 3
  {
    ItemsAreFrames(s[at..], |items.value|);
    assert s[at..][..items.used] == s[at..at + items.used];
  }

  lemma {:induction false} ItemsAreFrames(s: Bytes, count: nat)
    requires ParseItems(s, count).Some?
    ensures Frames(s[..ParseItems(s, count).value.used], ParseItems(s, count).value.value)
    decreases |s|, 2
  {
    if count > 0 {
      var first, all := ParseResp(s).value, ParseItems(s, count).value;
      var t := s[..all.used];
      ParsedIsFrame(s);
      ItemsAreFrames(s[first.used..], count - 1);
      assert t[..first.used] == s[..first.used];
      assert t[first.used..] == s[first.used..][..all.used - first.used];
      assert all.value[1..] == ParseItems(s[first.used..], count - 1).value.value;
    }
  }

  // ---- Recognition ----

  /** The parser takes `n` bytes and yields `v` exactly if those bytes are a frame of `v`. */
  lemma ParserRecognises(s: Bytes, v: RespValue, n: nat)
    ensures ParseResp(s) == Some(Parsed(v, n)) <==> n <= |s| && Frame(s[..n], v)
  {
    if ParseResp(s) == Some(Parsed(v, n)) { ParsedIsFrame(s); }
    if n <= |s| && Frame(s[..n], v) {
      FrameParses(s[..n], v, s[n..]);
      assert s[..n] + s[n..] == s;
    }
  }

  /** No frame begins another frame, and none has two meanings. */
  lemma FramesArePrefixFree(s: Bytes, v: RespValue, rest: Bytes, w: RespValue)
    requires Frame(s, v) && Frame(s + rest, w)
    ensures rest == [] && v == w
  {
    FrameParses(s, v, rest);
    FrameParses(s + rest, w, []);
    assert s + rest + [] == s + rest;
  }

  lemma DrainStep(buf: Bytes, vs: seq<RespValue>, n: nat, rest: Bytes)
    requires vs != [] && Reads(buf, vs[0], n) && Drain(buf[n..]) == Drained(vs[1..], rest)
    ensures Drain(buf) == Drained(vs, rest)
  {
    assert [vs[0]] + vs[1..] == vs;
  }

  lemma DrainFirst(head: Bytes, tail: Bytes, vs: seq<RespValue>, rest: Bytes)
    requires vs != [] && Frame(head, vs[0]) && Drain(tail + rest) == Drained(vs[1..], rest)
    ensures Drain(head + tail + rest) == Drained(vs, rest)
  {
    FrameParses(head, vs[0], tail + rest);
    Assoc(head, tail, rest);
    assert (head + (tail + rest))[|head|..] == tail + rest;
    DrainStep(head + (tail + rest), vs, |head|, rest);
  }

  /** A buffer of frames and an unfinished rest is drained to just their values, in order,
      and the rest stays. */
  lemma {:induction false} DrainsAllFrames(s: Bytes, vs: seq<RespValue>, rest: Bytes)
    requires Frames(s, vs) && ParseResp(rest).None?
    ensures Drain(s + rest) == Drained(vs, rest)
    decreases |vs|
  {
    if vs == [] {
      assert s + rest == rest;
    } else {
      var head, tail := FirstFrame(s, vs);
      DrainsAllFrames(tail, vs[1..], rest);
      DrainFirst(head, tail, vs, rest);
    }
  }
}
