/** The client's side of GET, SET and DEL (`command_to_resp`) and the server's
    (`parse_command`), over the RESP codec. */
module CommandCodec {
  import opened Primitives
  import opened Resp
  import C = Commands

  const GET: Bytes := [71, 69, 84]
  const SET: Bytes := [83, 69, 84]
  const DEL: Bytes := [68, 69, 76]
  const EX: Bytes := [69, 88]
  const PX: Bytes := [80, 88]

  /** ASCII upper-casing. A name that is not valid UTF-8 equals no command name
      before or after lossy decoding, so the raw bytes are compared. */
  function Upper(s: Bytes): (r: Bytes)
    ensures |r| == |s|
  {
    seq(|s|, i requires 0 <= i < |s| => if 97 <= s[i] <= 122 then s[i] - 32 else s[i])
  }

  /** `extract_bulk_string`. */
  function Text(v: RespValue): Option<Bytes> {
    match v case BulkString(data) => data case SimpleString(text) => Some(text) case _ => None
  }

  /** `extract_integer`. */
  function Number(v: RespValue): Option<int> {
    match v
    case Integer(n) => Some(n)
    case BulkString(Some(data)) => ParseI64(data)
    case _ => None
  }

  /** What `parse_command` yields: a command, an error, or a command name that
      this model does not interpret. */
  datatype Outcome = Ok(cmd: C.Command) | Err | Other(name: Bytes)

  /** The options of SET from `i` on; the last EX or PX wins, unknown words pass. */
  function SetOptions(args: seq<RespValue>, i: nat, ttl: Option<nat>): (r: Option<Option<nat>>)
    decreases |args| - i
  {
    if i >= |args| then Some(ttl)
    else
      match Text(args[i])
      case None => None
      case Some(word) =>
        if Upper(word) == EX || Upper(word) == PX then
          if i + 1 >= |args| then None
          else
            match Number(args[i + 1])
            case None => None
            case Some(n) =>
              var u32 := n % U32_SPAN;
              SetOptions(args, i + 2, Some(if Upper(word) == EX then u32 else u32 / 1000))
        else SetOptions(args, i + 1, ttl)
  }

  /** SET's option loop. */
  method ParseSetOptions(args: seq<RespValue>) returns (r: Option<Option<nat>>)
    requires |args| >= 3
    ensures r == SetOptions(args, 3, None)
  {
    var i, ttl: Option<nat> := 3, None;
    while i < |args|
      invariant 3 <= i && SetOptions(args, i, ttl) == SetOptions(args, 3, None)
    {
      var word := Text(args[i]);
      if word == None { return None; }
      if Upper(word.value) == EX || Upper(word.value) == PX {
        if i + 1 >= |args| { return None; }
        var n := Number(args[i + 1]);
        if n == None { return None; }
        var u32 := n.value % U32_SPAN;
        ttl := Some(if Upper(word.value) == EX then u32 else u32 / 1000);
        i := i + 1;
      }
      i := i + 1;
    }
    return Some(ttl);
  }

  /** Options read up to the end of `args` are read on with what follows. */
  lemma {:induction false} OptionsGoOn(args: seq<RespValue>, more: seq<RespValue>, i: nat, ttl: Option<nat>,
                                       t: Option<nat>)
    requires i <= |args| && SetOptions(args, i, ttl) == Some(t)
    ensures SetOptions(args + more, i, ttl) == SetOptions(args + more, |args|, t)
    decreases |args| - i
  {
    if i < |args| {
      var word := Upper(Text(args[i]).value);
      if word == EX || word == PX {
        var u32 := Number(args[i + 1]).value % U32_SPAN;
        OptionsGoOn(args, more, i + 2, Some(if word == EX then u32 else u32 / 1000), t);
      } else {
        OptionsGoOn(args, more, i + 1, ttl, t);
      }
    }
  }

  /** What one more word says behind options that read as `t`: EX and PX, in any case,
      replace the deadline by the number behind them as a u32 of seconds or milliseconds,
      and fail without one; any other word changes nothing. */
  lemma LastOptionWins(args: seq<RespValue>, w: RespValue, v: RespValue, t: Option<nat>)
    requires |args| >= 3 && SetOptions(args, 3, None) == Some(t)
    ensures |args| == 3 ==> t == None
    ensures Text(w).None? ==> SetOptions(args + [w], 3, None) == None
    ensures Text(w).Some? && Upper(Text(w).value) != [69, 88] && Upper(Text(w).value) != [80, 88] ==>
              SetOptions(args + [w], 3, None) == Some(t)
    ensures Text(w).Some? && Upper(Text(w).value) in {[69, 88], [80, 88]} ==>
              && SetOptions(args + [w], 3, None) == None
              && SetOptions(args + [w, v], 3, None) ==
                 match Number(v)
                 case None => None
                 case Some(n) => Some(Some(n % U32_SPAN / if Upper(Text(w).value) == [69, 88] then 1 else 1000))
  {
    OptionsGoOn(args, [w], 3, None, t);
    OptionsGoOn(args, [w, v], 3, None, t);
  }

  function ParseCommand(v: RespValue): (r: Outcome) {
    if !v.Array? || v.items == [] then Err
    else
      var args := v.items;
      match Text(args[0])
      case None => Err
      case Some(word) =>
        var name := Upper(word);
        if name == GET then
          if |args| != 2 || Text(args[1]).None? then Err else Ok(C.KeyRead(C.GET, Text(args[1]).value))
        else if name == DEL then
          if |args| != 2 || Text(args[1]).None? then Err else Ok(C.Delete(Text(args[1]).value))
        else if name == SET then
          if |args| < 3 || Text(args[1]).None? || Text(args[2]).None? then Err
          else
            match SetOptions(args, 3, None)
            case None => Err
            case Some(ttl) => Ok(C.Set(Text(args[1]).value, Text(args[2]).value, ttl))
        else Other(name)
  }

  function B(data: Bytes): RespValue { BulkString(Some(data)) }

  /** `command_to_resp`: other commands have no wire form here. */
  function ToResp(cmd: C.Command): Option<RespValue> {
    match cmd
    case KeyRead(GET, key) => Some(Array([B(GET), B(key)]))
    case Delete(key) => Some(Array([B(DEL), B(key)]))
    case Set(key, value, None) => Some(Array([B(SET), B(key), B(value)]))
    case Set(key, value, Some(secs)) => Some(Array([B(SET), B(key), B(value), B(EX), B(Digits(secs))]))
    case _ => None
  }

  /** Arguments of a size the wire format can announce; a TTL is a u32. */
  ghost predicate Sendable(cmd: C.Command) {
    && ToResp(cmd).Some?
    && (cmd.KeyRead? || cmd.Delete? ==> |cmd.key| <= I64_MAX)
    && (cmd.Set? ==> |cmd.key| <= I64_MAX && |cmd.value| <= I64_MAX)
    && (cmd.Set? && cmd.ttlSecs.Some? ==> cmd.ttlSecs.value < U32_SPAN)
  }

  lemma SetRoundTrip(cmd: C.Command)
    requires Sendable(cmd) && cmd.Set?
    ensures ParseCommand(ToResp(cmd).value) == Ok(cmd)
  {
    assert Upper(SET) == SET && SET != GET && SET != DEL;
    var args := ToResp(cmd).value.items;
    if cmd.ttlSecs.Some? {
      assert Upper(EX) == EX;
      ParsePrintedI64(cmd.ttlSecs.value);
      assert SetOptions(args, 5, cmd.ttlSecs) == Some(cmd.ttlSecs);
      assert SetOptions(args, 3, None) == SetOptions(args, 5, cmd.ttlSecs);
    }
  }

  lemma CommandSurvivesResp(cmd: C.Command)
    requires Sendable(cmd)
    ensures ParseCommand(ToResp(cmd).value) == Ok(cmd)
  {
    assert Upper(GET) == GET && Upper(DEL) == DEL && GET != DEL;
    if cmd.Set? { SetRoundTrip(cmd); }
  }

  lemma {:induction false} DigitsShort(n: nat, bound: nat)
    requires n < bound
    ensures |Digits(n)| <= bound
  {
    if n >= 10 { DigitsShort(n / 10, bound - 1); }
  }

  /** GET, SET (with or without EX) and DEL survive serialisation, the wire and
      parsing, for arbitrary key and value bytes and whatever follows. */
  lemma CommandRoundTrip(cmd: C.Command, rest: Bytes)
    requires Sendable(cmd)
    ensures var sent := Print(ToResp(cmd).value);
            var got := ParseResp(sent + rest);
            got.Some? && got.value.used == |sent| && ParseCommand(got.value.value) == Ok(cmd)
  {
    var v := ToResp(cmd).value;
    if cmd.Set? && cmd.ttlSecs.Some? { DigitsShort(cmd.ttlSecs.value, U32_SPAN); }
    assert forall x | x in v.items :: Printable(x);
    RespRoundTrip(v, rest);
    CommandSurvivesResp(cmd);
  }
}
