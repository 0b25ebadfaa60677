/** The RESP codec of protocol.rs: the recursive parser over a cursor, the
    printer, and the laws that tie them together. */
module Resp {
  import opened Primitives

  datatype RespValue =
    | SimpleString(text: Bytes)
    | Error(text: Bytes)
    | Integer(n: int)
    | BulkString(data: Option<Bytes>)
    | Array(items: seq<RespValue>)

  /** A parse: the value and how many bytes it took. */
  datatype Parsed<+T> = Parsed(value: T, used: nat)

  // ---- Parser, as a function of the unread bytes ----

  /** Length of the line before the first CRLF. */
  function FindCrlf(s: Bytes): (r: Option<nat>)
    ensures r.Some? ==> r.value + 2 <= |s|
  {
    if |s| < 2 then None
    else if s[0] == CR && s[1] == LF then Some(0)
    else
      match FindCrlf(s[1..])
      case None => None
      case Some(i) => Some(i + 1)
  }

  /** A CRLF-terminated line of raw bytes. */
  function ReadLine(s: Bytes): (r: Option<Parsed<Bytes>>)
    ensures r.Some? ==> 2 <= r.value.used <= |s|
  {
    match FindCrlf(s)
    case None => None
    case Some(i) => Some(Parsed(s[..i], i + 2))
  }

  /** A line holding an i64. Lossy decoding cannot turn a non-numeral into a
      numeral, so the raw bytes are parsed. */
  function ReadInteger(s: Bytes): (r: Option<Parsed<int>>)
    ensures r.Some? ==> 2 <= r.value.used <= |s|
  {
    match ReadLine(s)
    case None => None
    case Some(line) =>
      match ParseI64(line.value)
      case None => None
      case Some(n) => Some(Parsed(n, line.used))
  }

  /** `len` payload bytes and their CRLF. */
  function ReadPayload(s: Bytes, len: nat): (r: Option<Parsed<Bytes>>)
    ensures r.Some? ==> r.value.used == len + 2 <= |s|
  {
    if |s| < len + 2 || s[len] != CR || s[len + 1] != LF then None
    else Some(Parsed(s[..len], len + 2))
  }

  function ReadBulk(s: Bytes): (r: Option<Parsed<RespValue>>)
    ensures r.Some? ==> r.value.used <= |s|
  {
    match ReadInteger(s)
    case None => None
    case Some(Parsed(len, used)) =>
      if len == -1 then Some(Parsed(BulkString(None), used))
      else if len < 0 then None
      else
        match ReadPayload(s[used..], len)
        case None => None
        case Some(p) => Some(Parsed(BulkString(Some(p.value)), used + p.used))
  }

  function ReadText(s: Bytes, isError: bool): (r: Option<Parsed<RespValue>>)
    ensures r.Some? ==> r.value.used <= |s|
  {
    match ReadLine(s)
    case None => None
    case Some(line) =>
      Some(Parsed(if isError then Error(Lossy(line.value)) else SimpleString(Lossy(line.value)), line.used))
  }

  function ReadNumber(s: Bytes): (r: Option<Parsed<RespValue>>)
    ensures r.Some? ==> r.value.used <= |s|
  {
    match ReadInteger(s)
    case None => None
    case Some(num) => Some(Parsed(Integer(num.value), num.used))
  }

  function ReadArray(s: Bytes): (r: Option<Parsed<RespValue>>)
    ensures r.Some? ==> r.value.used <= |s|
    decreases |s|, 2
  {
    match ReadInteger(s)
    case None => None
    case Some(Parsed(count, used)) =>
      if count < 0 then Some(Parsed(Array([]), used))
      else
        match ParseItems(s[used..], count)
        case None => None
        case Some(items) => Some(Parsed(Array(items.value), used + items.used))
  }

  /** The value behind a type marker. */
  function ReadBody(marker: Byte, s: Bytes): (r: Option<Parsed<RespValue>>)
    ensures r.Some? ==> r.value.used <= |s|
    decreases |s|, 3
  {
    if marker == '+' as int then ReadText(s, false)
    else if marker == '-' as int then ReadText(s, true)
    else if marker == ':' as int then ReadNumber(s)
    else if marker == '$' as int then ReadBulk(s)
    else if marker == '*' as int then ReadArray(s)
    else None
  }

  function ParseResp(s: Bytes): (r: Option<Parsed<RespValue>>)
    ensures r.Some? ==> 0 < r.value.used <= |s|
    decreases |s|, 0
  {
    if s == [] then None
    else
      match ReadBody(s[0], s[1..])
      case None => None
      case Some(p) => Some(Parsed(p.value, p.used + 1))
  }

  function ParseItems(s: Bytes, count: nat): (r: Option<Parsed<seq<RespValue>>>)
    ensures r.Some? ==> r.value.used <= |s| && |r.value.value| == count
    decreases |s|, 1
  {
    if count == 0 then Some(Parsed([], 0))
    else
      match ParseResp(s)
      case None => None
      case Some(first) =>
        match ParseItems(s[first.used..], count - 1)
        case None => None
        case Some(rest) => Some(Parsed([first.value] + rest.value, first.used + rest.used))
  }

  // ---- The cursor, advanced in place as the source does ----

  /** A cursor read that returned `r` and moved this far did what `p` says. */
  ghost predicate Took<T>(r: Option<T>, moved: int, p: Option<Parsed<T>>) {
    match p
    case None => r == None
    case Some(q) => r == Some(q.value) && moved == q.used
  }

  class Cursor {
    const buf: Bytes
    var pos: nat

    constructor (buf: Bytes)
      ensures this.buf == buf && pos == 0
    {
      this.buf := buf;
      pos := 0;
    }

    ghost function Unread(): Bytes
      requires pos <= |buf|
      reads this
    {
      buf[pos..]
    }

    method ReadLineHere() returns (r: Option<Bytes>)
      requires pos <= |buf|
      modifies this
      ensures pos <= |buf|
      ensures Took(r, pos - old(pos), ReadLine(old(Unread())))
    {
      var start := pos;
      var i := 0;
      ghost var s := buf[start..];
      while i + 2 <= |buf| - start
        invariant i <= |buf| - start && pos == start
        invariant match FindCrlf(s[i..])
                  case None => FindCrlf(s) == None
                  case Some(j) => FindCrlf(s) == Some(i + j)
      {
        if buf[start + i] == CR && buf[start + i + 1] == LF {
          pos := start + i + 2;
          assert buf[start..start + i] == s[..i];
          return Some(buf[start..start + i]);
        }
        assert s[i..][1..] == s[i + 1..];
        i := i + 1;
      }
      return None;
    }

    method ReadIntegerHere() returns (r: Option<int>)
      requires pos <= |buf|
      modifies this
      ensures pos <= |buf|
      ensures Took(r, pos - old(pos), ReadInteger(old(Unread())))
    {
      var line := ReadLineHere();
      match line {
        case None => return None;
        case Some(text) => return ParseI64(text);
      }
    }

    method Parse() returns (r: Option<RespValue>)
      requires pos <= |buf|
      modifies this
      ensures pos <= |buf|
      ensures Took(r, pos - old(pos), ParseResp(old(Unread())))
      decreases |buf| - pos, 0
    {
      if pos == |buf| { return None; }
      ghost var s := Unread();
      var marker := buf[pos];
      pos := pos + 1;
      assert Unread() == s[1..] && marker == s[0];
      if marker == '+' as int || marker == '-' as int {
        var line := ReadLineHere();
        if line == None { return None; }
        r := Some(if marker == '-' as int then Error(Lossy(line.value)) else SimpleString(Lossy(line.value)));
        assert Took(r, pos - old(pos) - 1, ReadText(s[1..], marker == '-' as int));
      } else if marker == ':' as int {
        var num := ReadIntegerHere();
        if num == None { return None; }
        r := Some(Integer(num.value));
        assert Took(r, pos - old(pos) - 1, ReadNumber(s[1..]));
      } else if marker == '$' as int {
        r := ParseBulk();
      } else if marker == '*' as int {
        r := ParseArray();
      } else {
        return None;
      }
    }

    method ParseBulk() returns (r: Option<RespValue>)
      requires pos <= |buf|
      modifies this
      ensures pos <= |buf|
      ensures Took(r, pos - old(pos), ReadBulk(old(Unread())))
    {
      var start := pos;
      var len := ReadIntegerHere();
      if len == None { return None; }
      if len.value == -1 { return Some(BulkString(None)); }
      if len.value < 0 { return None; }
      assert buf[start..][pos - start..] == buf[pos..];
      if |buf| - pos < len.value + 2 { return None; }
      var data := buf[pos..pos + len.value];
      assert data == buf[pos..][..len.value];
      pos := pos + len.value;
      var cr, lf := buf[pos], buf[pos + 1];
      pos := pos + 2;
      if cr != CR || lf != LF { return None; }
      return Some(BulkString(Some(data)));
    }

    method ParseArray() returns (r: Option<RespValue>)
      requires pos <= |buf|
      modifies this
      ensures pos <= |buf|
      ensures Took(r, pos - old(pos), ReadArray(old(Unread())))
      decreases |buf| - pos, 3
    {
      var start := pos;
      var count := ReadIntegerHere();
      if count == None { return None; }
      if count.value < 0 { return Some(Array([])); }
      assert buf[start..][pos - start..] == buf[pos..];
      var items := ParseElements(count.value);
      if items == None { return None; }
      return Some(Array(items.value));
    }

    /** The element loop of `parse_array`. */
    method ParseElements(count: nat) returns (r: Option<seq<RespValue>>)
      requires pos <= |buf|
      modifies this
      ensures pos <= |buf|
      ensures Took(r, pos - old(pos), ParseItems(old(Unread()), count))
      decreases |buf| - pos, 2
    {
      var start := pos;
      ghost var all := ParseItems(Unread(), count);
      var items: seq<RespValue> := [];
      ItemsBegin(all);
      for i := 0 to count
        invariant start <= pos <= |buf|
        invariant ItemsSoFar(all, items, pos - start, ParseItems(Unread(), count - i))
      {
        var more := PushElement(items, all, pos - start, count - i);
        if more == None { return None; }
        items := more.value;
      }
      ItemsDone(all, items, pos - start, Unread());
      return Some(items);
    }

    /** One turn of the element loop. */
    method PushElement(items: seq<RespValue>, ghost all: Option<Parsed<seq<RespValue>>>, ghost used: nat,
                       ghost left: nat)
      returns (r: Option<seq<RespValue>>)
      requires pos <= |buf| && left > 0
      requires ItemsSoFar(all, items, used, ParseItems(Unread(), left))
      modifies this
      ensures pos <= |buf|
      ensures r == None ==> all == None
      ensures r.Some? ==>
                old(pos) <= pos && ItemsSoFar(all, r.value, used + (pos - old(pos)), ParseItems(Unread(), left - 1))
      decreases |buf| - pos, 1
    {
      var start := pos;
      ItemsStep(all, items, used, Unread(), left);
      var item := Parse();
      if item == None { return None; }
      assert buf[start..][pos - start..] == buf[pos..];
      return Some(items + [item.value]);
    }
  }

  /** `all` is what `done` items over `used` bytes and then `rest` amount to. */
  ghost predicate ItemsSoFar(all: Option<Parsed<seq<RespValue>>>, done: seq<RespValue>, used: nat,
                             rest: Option<Parsed<seq<RespValue>>>) {
    all == match rest
           case None => None
           case Some(r) => Some(Parsed(done + r.value, used + r.used))
  }

  lemma ItemsBegin(all: Option<Parsed<seq<RespValue>>>)
    ensures ItemsSoFar(all, [], 0, all)
  {
    if all.Some? { assert [] + all.value.value == all.value.value; }
  }

  lemma ItemsDone(all: Option<Parsed<seq<RespValue>>>, done: seq<RespValue>, used: nat, s: Bytes)
    requires ItemsSoFar(all, done, used, ParseItems(s, 0))
    ensures all == Some(Parsed(done, used))
  {
    assert done + [] == done;
  }

  lemma ItemsStep(all: Option<Parsed<seq<RespValue>>>, done: seq<RespValue>, used: nat, s: Bytes, count: nat)
    requires count > 0 && ItemsSoFar(all, done, used, ParseItems(s, count))
    ensures match ParseResp(s)
            case None => all == None
            case Some(first) =>
              ItemsSoFar(all, done + [first.value], used + first.used, ParseItems(s[first.used..], count - 1))
  {
    if ParseItems(s, count).Some? {
      var first := ParseResp(s).value;
      var rest := ParseItems(s[first.used..], count - 1).value;
      assert done + ([first.value] + rest.value) == done + [first.value] + rest.value;
    }
  }

  // ---- Printer ----

  function Line(marker: char, text: Bytes): Bytes
    requires marker as int < 256
  {
    [marker as int] + text + [CR, LF]
  }

  function PrintBulk(data: Bytes): Bytes {
    Line('$', Digits(|data|)) + data + [CR, LF]
  }

  function Print(v: RespValue): (s: Bytes)
    ensures s != []
  {
    match v
    case SimpleString(text) => Line('+', text)
    case Error(text) => Line('-', text)
    case Integer(n) => Line(':', PrintInt(n))
    case BulkString(Some(data)) => PrintBulk(data)
    case BulkString(None) => [36, 45, 49, CR, LF]
    case Array(items) => Line('*', Digits(|items|)) + PrintAll(items)
  }

  function PrintAll(items: seq<RespValue>): Bytes {
    if items == [] then [] else Print(items[0]) + PrintAll(items[1..])
  }

  lemma {:induction false} PrintAllAppend(xs: seq<RespValue>, x: RespValue)
    ensures PrintAll(xs + [x]) == PrintAll(xs) + Print(x)
  {
    if xs == [] {
      assert PrintAll([x]) == Print(x) + PrintAll([]);
    } else {
      PrintAllAppend(xs[1..], x);
      assert (xs + [x])[1..] == xs[1..] + [x];
      Assoc(Print(xs[0]), PrintAll(xs[1..]), Print(x));
    }
  }

  lemma LineAppended(buf: Bytes, marker: char, text: Bytes)
    requires marker as int < 256
    ensures buf + [marker as int] + text + [CR, LF] == buf + Line(marker, text)
  {
  }

  lemma BulkAppended(buf: Bytes, data: Bytes)
    ensures buf + [36] + Digits(|data|) + [CR, LF] + data + [CR, LF] == buf + PrintBulk(data)
  {
    LineAppended(buf, '$', Digits(|data|));
    Assoc(buf, Line('$', Digits(|data|)), data);
    Assoc(buf, Line('$', Digits(|data|)) + data, [CR, LF]);
  }

  /** `write_resp`: append the printed value to a growing buffer. */
  method WriteResp(buf: Bytes, v: RespValue) returns (out: Bytes)
    ensures out == buf + Print(v)
    decreases v
  {
    match v {
      case SimpleString(text) =>
        out := buf + [43] + text + [CR, LF];
        LineAppended(buf, '+', text);
      case Error(text) =>
        out := buf + [45] + text + [CR, LF];
        LineAppended(buf, '-', text);
      case Integer(n) =>
        out := buf + [58] + PrintInt(n) + [CR, LF];
        LineAppended(buf, ':', PrintInt(n));
      case BulkString(Some(data)) =>
        out := buf + [36] + Digits(|data|) + [CR, LF] + data + [CR, LF];
        BulkAppended(buf, data);
      case BulkString(None) => out := buf + [36, 45, 49, CR, LF];
      case Array(items) =>
        out := buf + [42] + Digits(|items|) + [CR, LF];
        LineAppended(buf, '*', Digits(|items|));
        ghost var head := out;
        for i := 0 to |items|
          invariant out == head + PrintAll(items[..i])
        {
          out := WriteResp(out, items[i]);
          PrintAllAppend(items[..i], items[i]);
          assert items[..i] + [items[i]] == items[..i + 1];
        }
        assert items[..|items|] == items;
        Assoc(buf, Line('*', Digits(|items|)), PrintAll(items));
    }
  }

  // ---- A successful parse depends only on the bytes it consumes ----

  /** The first `n` bytes are the same. */
  ghost predicate Agree(s: Bytes, t: Bytes, n: nat) {
    n <= |s| && n <= |t| && s[..n] == t[..n]
  }

  lemma AgreeOn(s: Bytes, t: Bytes, n: nat, skip: nat, m: nat)
    requires Agree(s, t, n) && skip + m <= n
    ensures Agree(s[skip..], t[skip..], m)
    ensures m > 0 ==> s[skip] == t[skip]
  {
    forall k | 0 <= k < m ensures s[skip..][k] == t[skip..][k] {
      assert s[..n][skip + k] == t[..n][skip + k];
    }
    if m > 0 { assert s[..n][skip] == t[..n][skip]; }
  }

  lemma AgreeLess(s: Bytes, t: Bytes, n: nat, m: nat)
    requires Agree(s, t, n) && m <= n
    ensures Agree(s, t, m)
  {
    assert s[..m] == s[..n][..m] && t[..m] == t[..n][..m];
  }

  lemma {:induction false} FindCrlfLocal(s: Bytes, t: Bytes)
    requires FindCrlf(s).Some? && Agree(s, t, FindCrlf(s).value + 2)
    ensures FindCrlf(t) == FindCrlf(s)
  {
    var n := FindCrlf(s).value + 2;
    AgreeOn(s, t, n, 0, n);
    AgreeOn(s, t, n, 1, n - 1);
    if !(s[0] == CR && s[1] == LF) { FindCrlfLocal(s[1..], t[1..]); }
  }

  lemma ReadLineLocal(s: Bytes, t: Bytes)
    requires ReadLine(s).Some? && Agree(s, t, ReadLine(s).value.used)
    ensures ReadLine(t) == ReadLine(s)
  {
    FindCrlfLocal(s, t);
    AgreeOn(s, t, ReadLine(s).value.used, 0, FindCrlf(s).value);
    assert s[0..] == s && t[0..] == t;
  }

  lemma ReadIntegerLocal(s: Bytes, t: Bytes)
    requires ReadInteger(s).Some? && Agree(s, t, ReadInteger(s).value.used)
    ensures ReadInteger(t) == ReadInteger(s)
  {
    ReadLineLocal(s, t);
  }

  lemma ReadPayloadLocal(s: Bytes, t: Bytes, len: nat)
    requires ReadPayload(s, len).Some? && Agree(s, t, len + 2)
    ensures ReadPayload(t, len) == ReadPayload(s, len)
  {
    AgreeOn(s, t, len + 2, len, 2);
    AgreeOn(s, t, len + 2, len + 1, 1);
    AgreeOn(s, t, len + 2, 0, len);
    assert s[0..] == s && t[0..] == t;
  }

  lemma ReadBulkLocal(s: Bytes, t: Bytes)
    requires ReadBulk(s).Some? && Agree(s, t, ReadBulk(s).value.used)
    ensures ReadBulk(t) == ReadBulk(s)
  {
    var n := ReadBulk(s).value.used;
    var Parsed(len, used) := ReadInteger(s).value;
    AgreeLess(s, t, n, used);
    ReadIntegerLocal(s, t);
    if len >= 0 {
      AgreeOn(s, t, n, used, n - used);
      ReadPayloadLocal(s[used..], t[used..], len);
    }
  }

  lemma {:induction false} ReadArrayLocal(s: Bytes, t: Bytes)
    requires ReadArray(s).Some? && Agree(s, t, ReadArray(s).value.used)
    ensures ReadArray(t) == ReadArray(s)
    decreases |s|, 2
  {
    var n := ReadArray(s).value.used;
    var Parsed(count, used) := ReadInteger(s).value;
    AgreeLess(s, t, n, used);
    ReadIntegerLocal(s, t);
    if count >= 0 {
      AgreeOn(s, t, n, used, n - used);
      ItemsLocal(s[used..], t[used..], count);
    }
  }

  lemma {:induction false} ReadBodyLocal(marker: Byte, s: Bytes, t: Bytes)
    requires ReadBody(marker, s).Some? && Agree(s, t, ReadBody(marker, s).value.used)
    ensures ReadBody(marker, t) == ReadBody(marker, s)
    decreases |s|, 3
  {
    if marker == '+' as int || marker == '-' as int { ReadLineLocal(s, t); }
    else if marker == ':' as int { ReadIntegerLocal(s, t); }
    else if marker == '$' as int { ReadBulkLocal(s, t); }
    else { ReadArrayLocal(s, t); }
  }

  /** Locality: any buffer that starts with the consumed bytes parses to the same
      value and consumes exactly as many. */
  lemma {:induction false} ParseLocal(s: Bytes, t: Bytes)
    requires ParseResp(s).Some? && Agree(s, t, ParseResp(s).value.used)
    ensures ParseResp(t) == ParseResp(s)
    decreases |s|, 0
  {
    var n := ParseResp(s).value.used;
    AgreeOn(s, t, n, 0, n);
    AgreeOn(s, t, n, 1, n - 1);
    ReadBodyLocal(s[0], s[1..], t[1..]);
  }

  lemma {:induction false} ItemsLocal(s: Bytes, t: Bytes, count: nat)
    requires ParseItems(s, count).Some? && Agree(s, t, ParseItems(s, count).value.used)
    ensures ParseItems(t, count) == ParseItems(s, count)
    decreases |s|, 1
  {
    if count > 0 {
      var n, used := ParseItems(s, count).value.used, ParseResp(s).value.used;
      AgreeLess(s, t, n, used);
      ParseLocal(s, t);
      AgreeOn(s, t, n, used, n - used);
      ItemsLocal(s[used..], t[used..], count - 1);
    }
  }

  /** No extension of the buffer changes a successful parse. */
  lemma ParseUnchangedByExtension(buf: Bytes, more: Bytes)
    requires ParseResp(buf).Some?
    ensures ParseResp(buf + more) == ParseResp(buf)
  {
    ParseLocal(buf, buf + more);
  }

  // ---- Round trip ----

  /** No CRLF pair inside: the line ends where it was meant to. */
  predicate SingleLine(text: Bytes) {
    forall i | 0 <= i < |text| - 1 :: !(text[i] == CR && text[i + 1] == LF)
  }

  /** The values a Rust program can hold and print unambiguously: strings are
      UTF-8 without CRLF, integers are i64, lengths fit an i64. */
  predicate Printable(v: RespValue) {
    match v
    case SimpleString(text) => ValidUtf8(text) && SingleLine(text)
    case Error(text) => ValidUtf8(text) && SingleLine(text)
    case Integer(n) => I64_MIN <= n <= I64_MAX
    case BulkString(Some(data)) => |data| <= I64_MAX
    case BulkString(None) => true
    case Array(items) => |items| <= I64_MAX && forall x | x in items :: Printable(x)
  }

  lemma {:induction false} FindPrintedCrlf(text: Bytes, rest: Bytes)
    requires SingleLine(text)
    ensures FindCrlf(text + [CR, LF] + rest) == Some(|text|)
  {
    var s := text + [CR, LF] + rest;
    if text != [] {
      assert !(s[0] == CR && s[1] == LF) by {
        if |text| > 1 { assert s[0] == text[0] && s[1] == text[1]; }
      }
      FindPrintedCrlf(text[1..], rest);
      assert s[1..] == text[1..] + [CR, LF] + rest;
    }
  }

  lemma ReadPrintedLine(text: Bytes, rest: Bytes)
    requires SingleLine(text)
    ensures ReadLine(text + [CR, LF] + rest) == Some(Parsed(text, |text| + 2))
  {
    FindPrintedCrlf(text, rest);
    assert (text + [CR, LF] + rest)[..|text|] == text;
  }

  lemma ReadPrintedInteger(n: int, rest: Bytes)
    requires I64_MIN <= n <= I64_MAX
    ensures ReadInteger(PrintInt(n) + [CR, LF] + rest) == Some(Parsed(n, |PrintInt(n)| + 2))
  {
    ParsePrintedI64(n);
    ReadPrintedLine(PrintInt(n), rest);
  }

  ghost predicate Reads(s: Bytes, v: RespValue, used: nat) {
    ParseResp(s) == Some(Parsed(v, used))
  }

  /** A printed line parses as its marker says. */
  lemma LineIsParsed(marker: char, text: Bytes, rest: Bytes, v: RespValue, used: nat)
    requires marker as int < 256 && ReadBody(marker as int, text + [CR, LF] + rest) == Some(Parsed(v, used))
    ensures Reads(Line(marker, text) + rest, v, used + 1)
  {
    assert (Line(marker, text) + rest)[1..] == text + [CR, LF] + rest;
  }

  lemma ReadPrintedPayload(data: Bytes, rest: Bytes)
    ensures ReadPayload(data + [CR, LF] + rest, |data|) == Some(Parsed(data, |data| + 2))
  {
    assert (data + [CR, LF] + rest)[..|data|] == data;
  }

  lemma ReadBulkBehind(s: Bytes, inner: Bytes, used: nat, tail: Bytes, data: Bytes)
    requires s != [] && s[0] == 36 && s[1..] == inner
    requires ReadInteger(inner) == Some(Parsed(|data|, used)) && inner[used..] == tail
    requires ReadPayload(tail, |data|) == Some(Parsed(data, |data| + 2))
    ensures Reads(s, BulkString(Some(data)), used + |data| + 3)
  {
  }

  lemma BulkPieces(num: Bytes, data: Bytes, rest: Bytes)
    ensures var s := Line('$', num) + data + [CR, LF] + rest;
            var tail := data + [CR, LF] + rest;
            s != [] && s[0] == 36 && s[1..] == num + [CR, LF] + tail && (num + [CR, LF] + tail)[|num| + 2..] == tail
  {
  }

  lemma ReadPrintedBulk(data: Bytes, rest: Bytes)
    requires |data| <= I64_MAX
    ensures Reads(PrintBulk(data) + rest, BulkString(Some(data)), |PrintBulk(data)|)
  {
    var num, tail := PrintInt(|data|), data + [CR, LF] + rest;
    BulkPieces(num, data, rest);
    ReadPrintedInteger(|data|, tail);
    ReadPrintedPayload(data, rest);
    ReadBulkBehind(PrintBulk(data) + rest, num + [CR, LF] + tail, |num| + 2, tail, data);
  }

  lemma ReadPrintedNil(rest: Bytes)
    ensures Reads(Print(BulkString(None)) + rest, BulkString(None), 5)
  {
    assert PrintInt(-1) == [45, 49];
    assert Print(BulkString(None)) == Line('$', PrintInt(-1));
    ReadPrintedInteger(-1, rest);
    LineIsParsed('$', PrintInt(-1), rest, BulkString(None), 4);
  }

  lemma ReadNumberFrame(num: Bytes, n: int, rest: Bytes)
    requires ReadInteger(num + [CR, LF] + rest) == Some(Parsed(n, |num| + 2))
    ensures Reads(Line(':', num) + rest, Integer(n), |num| + 3)
  {
    LineIsParsed(':', num, rest, Integer(n), |num| + 2);
  }

  lemma ReadPrintedNumber(n: int, rest: Bytes)
    requires I64_MIN <= n <= I64_MAX
    ensures Reads(Line(':', PrintInt(n)) + rest, Integer(n), |PrintInt(n)| + 3)
  {
    ReadPrintedInteger(n, rest);
    ReadNumberFrame(PrintInt(n), n, rest);
  }

  lemma ReadTextFrame(text: Bytes, isError: bool, rest: Bytes)
    requires SingleLine(text) && ValidUtf8(text)
    ensures Reads(Line(if isError then '-' else '+', text) + rest,
                  if isError then Error(text) else SimpleString(text), |text| + 3)
  {
    ReadPrintedLine(text, rest);
    LossyKeepsValid(text);
    assert ReadText(text + [CR, LF] + rest, isError)
        == Some(Parsed(if isError then Error(text) else SimpleString(text), |text| + 2));
    LineIsParsed(if isError then '-' else '+', text, rest,
                 if isError then Error(text) else SimpleString(text), |text| + 2);
  }

  /** Round trip: a printed value followed by any bytes parses back to itself,
      and the cursor stops exactly at the end of the print. */
  lemma {:induction false} RespRoundTrip(v: RespValue, rest: Bytes)
    requires Printable(v)
    ensures ParseResp(Print(v) + rest) == Some(Parsed(v, |Print(v)|))
    decreases v, 1
  {
    match v {
      case SimpleString(text) => ReadTextFrame(text, false, rest);
      case Error(text) => ReadTextFrame(text, true, rest);
      case Integer(n) => ReadPrintedNumber(n, rest);
      case BulkString(None) => ReadPrintedNil(rest);
      case BulkString(Some(data)) => ReadPrintedBulk(data, rest);
      case Array(items) =>
        ItemsRoundTrip(v, items, rest);
        ReadFramedItems(items, PrintAll(items), rest);
    }
  }

  lemma {:induction false} ItemsRoundTrip(v: RespValue, items: seq<RespValue>, rest: Bytes)
    requires forall x | x in items :: x < v && Printable(x)
    ensures ParseItems(PrintAll(items) + rest, |items|) == Some(Parsed(items, |PrintAll(items)|))
    decreases v, 0, |items|
  {
    if items != [] {
      assert items[0] in items;
      RespRoundTrip(items[0], PrintAll(items[1..]) + rest);
      ItemsRoundTrip(v, items[1..], rest);
      ConsItems(items, Print(items[0]), PrintAll(items[1..]), rest);
    }
  }

  lemma ConsItems(items: seq<RespValue>, head: Bytes, body: Bytes, rest: Bytes)
    requires items != []
    requires ParseResp(head + (body + rest)) == Some(Parsed(items[0], |head|))
    requires ParseItems(body + rest, |items| - 1) == Some(Parsed(items[1..], |body|))
    ensures ParseItems(head + body + rest, |items|) == Some(Parsed(items, |head + body|))
  {
    Assoc(head, body, rest);
    assert (head + (body + rest))[|head|..] == body + rest;
    assert items == [items[0]] + items[1..];
  }

  /** An array behind a line `num` that reads as its length. */
  lemma ReadArrayFrame(num: Bytes, items: seq<RespValue>, tail: Bytes, used: nat)
    requires ReadInteger(num + [CR, LF] + tail) == Some(Parsed(|items|, |num| + 2))
    requires ParseItems(tail, |items|) == Some(Parsed(items, used))
    ensures Reads(Line('*', num) + tail, Array(items), |num| + 3 + used)
  {
    assert (num + [CR, LF] + tail)[|num| + 2..] == tail;
    assert ReadArray(num + [CR, LF] + tail) == Some(Parsed(Array(items), |num| + 2 + used));
    LineIsParsed('*', num, tail, Array(items), |num| + 2 + used);
  }

  /** An array header in front of bytes that parse as that many items. */
  lemma ReadFramedItems(items: seq<RespValue>, body: Bytes, rest: Bytes)
    requires |items| <= I64_MAX
    requires ParseItems(body + rest, |items|) == Some(Parsed(items, |body|))
    ensures Reads(Line('*', Digits(|items|)) + body + rest, Array(items), |Line('*', Digits(|items|))| + |body|)
  {
    Assoc(Line('*', Digits(|items|)), body, rest);
    ReadPrintedInteger(|items|, body + rest);
    ReadArrayFrame(PrintInt(|items|), items, body + rest, |body|);
  }

  /** Hence printing is injective on printable values. */
  lemma PrintInjective(v: RespValue, w: RespValue)
    requires Printable(v) && Printable(w) && Print(v) == Print(w)
    ensures v == w
  {
    RespRoundTrip(v, []);
    RespRoundTrip(w, []);
  }

  // ---- What a parse can yield ----

  lemma {:induction false} FoundLineIsSingle(s: Bytes)
    requires FindCrlf(s).Some?
    ensures SingleLine(s[..FindCrlf(s).value])
  {
    var n := FindCrlf(s).value;
    if n > 0 {
      FoundLineIsSingle(s[1..]);
      forall i | 0 <= i < n - 1 ensures !(s[..n][i] == CR && s[..n][i + 1] == LF) {
        if i > 0 { assert s[1..][..n - 1][i - 1] == s[i] && s[1..][..n - 1][i] == s[i + 1]; }
      }
    }
  }

  /** A piece of a scalar ends in CR only if it is one, and decoding adds no line feed. */
  lemma LossyHead(s: Bytes)
    requires s != []
    ensures Lossy(s) != [] && (Lossy(s)[0] == LF ==> s[0] == LF)
  {
  }

  lemma {:induction false} LossyStaysSingle(s: Bytes)
    requires SingleLine(s)
    ensures SingleLine(Lossy(s))
  {
    if s != [] {
      var c := NextScalar(s);
      var piece, rest := if c.Legal? then s[..c.size] else [0xEF, 0xBF, 0xBD], s[c.size..];
      assert SingleLine(rest) by {
        forall i | 0 <= i < |rest| - 1 ensures !(rest[i] == CR && rest[i + 1] == LF) {
          assert rest[i] == s[c.size + i] && rest[i + 1] == s[c.size + i + 1];
        }
      }
      LossyStaysSingle(rest);
      if rest != [] { LossyHead(rest); }
      JoinStaysSingle(s, c, piece, Lossy(rest));
    }
  }

  lemma JoinStaysSingle(s: Bytes, c: Scalar, piece: Bytes, tail: Bytes)
    requires s != [] && c == NextScalar(s) && piece == (if c.Legal? then s[..c.size] else [0xEF, 0xBF, 0xBD])
    requires SingleLine(s) && SingleLine(tail)
    requires tail != [] && tail[0] == LF ==> c.size < |s| && s[c.size] == LF
    ensures SingleLine(piece + tail)
  {
    var all := piece + tail;
    forall i | 0 <= i < |all| - 1 ensures !(all[i] == CR && all[i + 1] == LF) {
      if i >= |piece| { assert all[i] == tail[i - |piece|] && all[i + 1] == tail[i + 1 - |piece|]; }
      else if all[i] == CR { assert c == Legal(1); }
    }
  }

  lemma LineIsPrintable(s: Bytes)
    requires ReadLine(s).Some?
    ensures ValidUtf8(Lossy(ReadLine(s).value.value)) && SingleLine(Lossy(ReadLine(s).value.value))
  {
    FoundLineIsSingle(s);
    LossyIsValid(ReadLine(s).value.value);
    LossyStaysSingle(ReadLine(s).value.value);
  }

  /** Whatever the bytes, a successful parse yields a value that prints unambiguously. */
  lemma {:induction false} ParsedIsPrintable(s: Bytes)
    requires ParseResp(s).Some?
    ensures Printable(ParseResp(s).value.value)
    decreases |s|, 0
  {
    BodyIsPrintable(s[0], s[1..]);
  }

  lemma {:induction false} BodyIsPrintable(marker: Byte, s: Bytes)
    requires ReadBody(marker, s).Some?
    ensures Printable(ReadBody(marker, s).value.value)
    decreases |s|, 3
  {
    if marker == '+' as int || marker == '-' as int {
      LineIsPrintable(s);
    } else if marker == '*' as int && ReadInteger(s).value.value >= 0 {
      var Parsed(count, used) := ReadInteger(s).value;
      ItemsArePrintable(s[used..], count);
    }
  }

  lemma {:induction false} ItemsArePrintable(s: Bytes, count: nat)
    requires ParseItems(s, count).Some?
    ensures forall x | x in ParseItems(s, count).value.value :: Printable(x)
    decreases |s|, 1
  {
    if count > 0 {
      var used := ParseResp(s).value.used;
      ParsedIsPrintable(s);
      ItemsArePrintable(s[used..], count - 1);
    }
  }

  /** A print, whatever bytes follow it, is one frame holding its value if and only if the
      value is printable. */
  lemma PrintIsFrameIff(v: RespValue, rest: Bytes)
    ensures ParseResp(Print(v) + rest) == Some(Parsed(v, |Print(v)|)) <==> Printable(v)
  {
    if Printable(v) { RespRoundTrip(v, rest); }
    else if ParseResp(Print(v) + rest) == Some(Parsed(v, |Print(v)|)) {
      ParsedIsPrintable(Print(v) + rest);
      assert false;
    }
  }
}
