/** The RESP2/RESP3 parser of the Redis dissector against an encoder: whatever
    was encoded within the limits is parsed back and exactly the tail is left. */
module Resp {
  import opened Basics

  const MAX_BULK := 512 * 1024 * 1024
  const MAX_CAPTURE := 1024 * 1024
  const MAX_ELEMENTS := 1024 * 1024
  const MAX_DEPTH := 64

  const CR: Byte := 13
  const LF: Byte := 10
  const MINUS: Byte := 45
  const PLUS: Byte := 43

  // Type bytes, as characters of the protocol.
  const ARRAY: Byte := '*' as int
  const SET: Byte := '~' as int
  const PUSH: Byte := '>' as int
  const MAP: Byte := '%' as int
  const ATTR: Byte := '|' as int
  const BULK: Byte := '$' as int
  const VERBATIM: Byte := '=' as int
  const NULL: Byte := '_' as int
  const INLINE: Byte := 'i' as int

  predicate IsLineType(t: Byte) {
    t as int in {'+' as int, '-' as int, ':' as int, ',' as int, '(' as int, '#' as int}
  }

  predicate IsAggType(t: Byte) { t == ARRAY || t == SET || t == PUSH || t == MAP }

  predicate IsBulkType(t: Byte) { t == BULK || t == VERBATIM }

  /** A parsed value. attrs are the elements of an attribute in front of it. */
  datatype RespVal = RespVal(typ: Byte, str: seq<Byte>, arr: seq<RespVal>, isNull: bool, attrs: seq<RespVal>)

  datatype Parsed = Ok(v: RespVal, rest: seq<Byte>) | Fail
  datatype ParsedSeq = Many(vs: seq<RespVal>, rest: seq<Byte>) | NoneParsed
  datatype Line = Got(line: seq<Byte>, rest: seq<Byte>) | NoLine
  datatype Number = Num(n: int) | NaN

  // ----- Lines and numbers ---------------------------------------------------

  /** Up to and without the next line feed. */
  function ReadLine(input: seq<Byte>): (r: Line)
    ensures r.Got? ==> |r.rest| < |input|
  {
    if input == [] then NoLine
    else if input[0] == LF then Got([], input[1..])
    else match ReadLine(input[1..])
      case Got(line, rest) => Got([input[0]] + line, rest)
      case NoLine => NoLine
  }

  function TrimRight(s: seq<Byte>): seq<Byte> {
    if s != [] && (s[|s| - 1] == CR || s[|s| - 1] == LF) then TrimRight(s[..|s| - 1]) else s
  }

  function ReadCRLF(input: seq<Byte>): (r: Line)
    ensures r.Got? ==> |r.rest| < |input|
  {
    match ReadLine(input)
    case Got(line, rest) => Got(TrimRight(line), rest)
    case NoLine => NoLine
  }

  predicate IsDigit(b: Byte) { 48 <= b <= 57 }

  predicate AllDigits(s: seq<Byte>) { forall i :: 0 <= i < |s| ==> IsDigit(s[i]) }

  function DigitsValue(s: seq<Byte>): int {
    if s == [] then 0 else DigitsValue(s[..|s| - 1]) * 10 + (s[|s| - 1] as int - 48)
  }

  /** Decimal with an optional sign, within 64 bits. */
  function Atoi(s: seq<Byte>): Number {
    var negative := s != [] && s[0] == MINUS;
    var digits := if s != [] && (s[0] == MINUS || s[0] == PLUS) then s[1..] else s;
    if digits == [] || !AllDigits(digits) then NaN
    else
      var n := if negative then -DigitsValue(digits) else DigitsValue(digits);
      if -0x8000_0000_0000_0000 <= n < 0x8000_0000_0000_0000 then Num(n) else NaN
  }

  // ----- Parser --------------------------------------------------------------

  function ParseBulk(t: Byte, input: seq<Byte>): (r: Parsed)
    ensures r.Ok? ==> |r.rest| < |input|
  {
    match ReadCRLF(input)
    case NoLine => Fail
    case Got(line, rest) =>
      match Atoi(line)
      case NaN => Fail
      case Num(n) =>
        if n < 0 then Ok(RespVal(t, [], [], true, []), rest)
        else if n > MAX_BULK || |rest| < n + 2 then Fail
        else
          var take := if n > MAX_CAPTURE then MAX_CAPTURE else n;
          Ok(RespVal(t, rest[..take], [], false, []), rest[n + 2..])
  }

  /** One complete value. */
  function Parse(input: seq<Byte>, depth: nat): (r: Parsed)
    ensures r.Ok? ==> |r.rest| < |input|
    decreases |input|, 0
  {
    if depth > MAX_DEPTH || input == [] then Fail
    else
      var t, body := input[0], input[1..];
      if IsLineType(t) then
        match ReadCRLF(body)
        case Got(line, rest) => Ok(RespVal(t, line, [], false, []), rest)
        case NoLine => Fail
      else if t == NULL then
        match ReadCRLF(body)
        case Got(_, rest) => Ok(RespVal(t, [], [], true, []), rest)
        case NoLine => Fail
      else if IsBulkType(t) then ParseBulk(t, body)
      else if IsAggType(t) then ParseAgg(t, body, depth, if t == MAP then 2 else 1)
      else if t == ATTR then
        match ParseAgg(t, body, depth, 2)
        case Fail => Fail
        case Ok(attr, rest) =>
          match Parse(rest, depth)
          case Fail => Fail
          case Ok(v, rest') => Ok(v.(attrs := attr.arr), rest')
      else
        match ReadCRLF(body)
        case Got(line, rest) => Ok(RespVal(INLINE, [t] + line, [], false, []), rest)
        case NoLine => Fail
  }

  function ParseAgg(t: Byte, input: seq<Byte>, depth: nat, mult: nat): (r: Parsed)
    ensures r.Ok? ==> |r.rest| < |input|
    decreases |input|, 2
  {
    match ReadCRLF(input)
    case NoLine => Fail
    case Got(line, rest) =>
      match Atoi(line)
      case NaN => Fail
      case Num(n) =>
        if n < 0 then Ok(RespVal(t, [], [], true, []), rest)
        else if n * mult > MAX_ELEMENTS then Fail
        else
          match ParseSeq(rest, depth + 1, n * mult)
          case NoneParsed => Fail
          case Many(vs, rest') => Ok(RespVal(t, [], vs, false, []), rest')
  }

  function ParseSeq(input: seq<Byte>, depth: nat, count: nat): (r: ParsedSeq)
    ensures r.Many? ==> |r.rest| <= |input| && |r.vs| == count
    decreases |input|, 1
  {
    if count == 0 then Many([], input)
    else
      match Parse(input, depth)
      case Fail => NoneParsed
      case Ok(v, rest) =>
        match ParseSeq(rest, depth, count - 1)
        case NoneParsed => NoneParsed
        case Many(vs, rest') => Many([v] + vs, rest')
  }

  function Prepend(arr: seq<RespVal>, p: ParsedSeq): ParsedSeq {
    if p.Many? then Many(arr + p.vs, p.rest) else NoneParsed
  }

  lemma PrependStep(arr: seq<RespVal>, input: seq<Byte>, depth: nat, count: nat)
    requires count > 0
    ensures var el := Parse(input, depth);
            Prepend(arr, ParseSeq(input, depth, count)) ==
            if el.Fail? then NoneParsed else Prepend(arr + [el.v], ParseSeq(el.rest, depth, count - 1))
  {
    var el := Parse(input, depth);
    if el.Ok? {
      var more := ParseSeq(el.rest, depth, count - 1);
      assert more.Many? ==> arr + ([el.v] + more.vs) == (arr + [el.v]) + more.vs;
    }
  }

  /** The parser as it runs: recursion for values, a loop for elements. */
  method ParseValue(input: seq<Byte>, depth: nat) returns (r: Parsed)
    ensures r == Parse(input, depth)
    decreases |input|, 0
  {
    if depth > MAX_DEPTH || input == [] {
      return Fail;
    }
    var t, body := input[0], input[1..];
    if IsAggType(t) {
      r := ParseAggregate(t, body, depth, if t == MAP then 2 else 1);
    } else if t == ATTR {
      var attr := ParseAggregate(t, body, depth, 2);
      if attr.Fail? {
        return Fail;
      }
      r := ParseValue(attr.rest, depth);
      if r.Ok? {
        r := Ok(r.v.(attrs := attr.v.arr), r.rest);
      }
    } else if IsBulkType(t) {
      r := ParseBulk(t, body);
    } else {
      var line := ReadCRLF(body);
      if line.NoLine? {
        return Fail;
      }
      r := Ok(if t == NULL then RespVal(t, [], [], true, [])
              else if IsLineType(t) then RespVal(t, line.line, [], false, [])
              else RespVal(INLINE, [t] + line.line, [], false, []), line.rest);
    }
  }

  method ParseAggregate(t: Byte, input: seq<Byte>, depth: nat, mult: nat) returns (r: Parsed)
    ensures r == ParseAgg(t, input, depth, mult)
    decreases |input|, 2
  {
    var line := ReadCRLF(input);
    if line.NoLine? || Atoi(line.line).NaN? {
      return Fail;
    }
    var n := Atoi(line.line).n;
    if n < 0 {
      return Ok(RespVal(t, [], [], true, []), line.rest);
    }
    var count := n * mult;
    if count > MAX_ELEMENTS {
      return Fail;
    }
    var elems := ParseElements(line.rest, depth + 1, count);
    if elems.NoneParsed? {
      return Fail;
    }
    r := Ok(RespVal(t, [], elems.vs, false, []), elems.rest);
  }

  method ParseElements(input: seq<Byte>, depth: nat, count: nat) returns (r: ParsedSeq)
    ensures r == ParseSeq(input, depth, count)
    decreases |input|, 1
  {
    var arr, rest := [], input;
    for i := 0 to count
      invariant |rest| <= |input|
      invariant Prepend(arr, ParseSeq(rest, depth, count - i)) == ParseSeq(input, depth, count)
    {
      PrependStep(arr, rest, depth, count - i);
      var el := ParseValue(rest, depth);
      if el.Fail? {
        return NoneParsed;
      }
      arr, rest := arr + [el.v], el.rest;
    }
    r := Many(arr, rest);
  }

  // ----- Encoder -------------------------------------------------------------

  /** What a peer sends. Missing is a null of any type that has one. */
  datatype Msg =
    | Text(typ: Byte, text: seq<Byte>)
    | Missing(typ: Byte)
    | Data(typ: Byte, data: seq<Byte>)
    | Agg(typ: Byte, elems: seq<Msg>)
    | Command(text: seq<Byte>)
    | With(attrs: seq<Msg>, msg: Msg)

  const CRLF: seq<Byte> := [CR, LF]

  function Digits(n: nat): seq<Byte> {
    if n < 10 then [48 + n] else Digits(n / 10) + [48 + n % 10]
  }

  /** The element count an aggregate announces. */
  function Announced(t: Byte, n: nat): nat { if t == MAP || t == ATTR then n / 2 else n }

  function Encode(m: Msg): seq<Byte>
    decreases m
  {
    match m
    case Text(t, text) => [t] + text + CRLF
    case Missing(t) => if t == NULL then [t] + CRLF else [t] + [MINUS, 49] + CRLF
    case Data(t, data) => [t] + Digits(|data|) + CRLF + data + CRLF
    case Agg(t, elems) => [t] + Digits(Announced(t, |elems|)) + CRLF + EncodeSeq(elems)
    case Command(text) => text + CRLF
    case With(attrs, msg) => [ATTR] + Digits(Announced(ATTR, |attrs|)) + CRLF + EncodeSeq(attrs) + Encode(msg)
  }

  function EncodeSeq(ms: seq<Msg>): seq<Byte>
    decreases ms
  {
    if ms == [] then [] else Encode(ms[0]) + EncodeSeq(ms[1..])
  }

  /** A line that survives: no line feed inside, no carriage return at its end. */
  ghost predicate LineSafe(s: seq<Byte>) {
    (forall i :: 0 <= i < |s| ==> s[i] != LF) && (s != [] ==> s[|s| - 1] != CR)
  }

  predicate IsTypeByte(t: Byte) {
    IsLineType(t) || t == NULL || IsBulkType(t) || IsAggType(t) || t == ATTR
  }

  /** Within the parser's limits at this nesting depth. */
  ghost predicate Encodable(m: Msg, depth: nat)
    decreases m
  {
    depth <= MAX_DEPTH &&
    match m
    case Text(t, text) => IsLineType(t) && LineSafe(text)
    case Missing(t) => t == NULL || IsBulkType(t) || IsAggType(t)
    case Data(t, data) => IsBulkType(t) && |data| <= MAX_BULK
    case Agg(t, elems) => IsAggType(t) && |elems| <= MAX_ELEMENTS && (t == MAP ==> |elems| % 2 == 0) && AllEncodable(elems, depth + 1)
    case Command(text) => text != [] && !IsTypeByte(text[0]) && LineSafe(text[1..])
    case With(attrs, msg) => |attrs| <= MAX_ELEMENTS && |attrs| % 2 == 0 && AllEncodable(attrs, depth + 1) && Encodable(msg, depth)
  }

  ghost predicate AllEncodable(ms: seq<Msg>, depth: nat)
    decreases ms
  {
    ms != [] ==> Encodable(ms[0], depth) && AllEncodable(ms[1..], depth)
  }

  /** What the parser should make of a message. A long bulk string is cut to what
      is kept in memory; the outermost attribute wins. */
  function ValueOf(m: Msg): RespVal
    decreases m
  {
    match m
    case Text(t, text) => RespVal(t, text, [], false, [])
    case Missing(t) => RespVal(t, [], [], true, [])
    case Data(t, data) => RespVal(t, if |data| > MAX_CAPTURE then data[..MAX_CAPTURE] else data, [], false, [])
    case Agg(t, elems) => RespVal(t, [], ValuesOf(elems), false, [])
    case Command(text) => RespVal(INLINE, text, [], false, [])
    case With(attrs, msg) => ValueOf(msg).(attrs := ValuesOf(attrs))
  }

  function ValuesOf(ms: seq<Msg>): (vs: seq<RespVal>)
    ensures |vs| == |ms|
    decreases ms
  {
    if ms == [] then [] else [ValueOf(ms[0])] + ValuesOf(ms[1..])
  }

  // ----- Lines and numbers round trip ----------------------------------------

  lemma {:induction false} ReadLineEncoded(text: seq<Byte>, tail: seq<Byte>)
    requires forall i :: 0 <= i < |text| ==> text[i] != LF
    ensures ReadLine(text + [LF] + tail) == Got(text, tail)
  {
    var input := text + [LF] + tail;
    if text == [] {
      assert input[1..] == tail;
    } else {
      assert input[1..] == text[1..] + [LF] + tail;
      ReadLineEncoded(text[1..], tail);
      assert text == [text[0]] + text[1..];
    }
  }

  lemma ReadCRLFEncoded(text: seq<Byte>, tail: seq<Byte>)
    requires LineSafe(text)
    ensures ReadCRLF(text + CRLF + tail) == Got(text, tail)
  {
    assert text + CRLF + tail == (text + [CR]) + [LF] + tail;
    ReadLineEncoded(text + [CR], tail);
    assert (text + [CR])[..|text|] == text;
    assert TrimRight(text + [CR]) == TrimRight(text);
  }

  lemma {:induction false} DigitsFacts(n: nat)
    ensures Digits(n) != [] && DigitsValue(Digits(n)) == n
    ensures forall i :: 0 <= i < |Digits(n)| ==> IsDigit(Digits(n)[i])
  {
    if n < 10 {
      assert Digits(n)[..0] == [];
      assert DigitsValue(Digits(n)) == DigitsValue([]) * 10 + n;
    } else {
      DigitsFacts(n / 10);
      var s := Digits(n);
      assert s[..|s| - 1] == Digits(n / 10);
    }
  }

  lemma AtoiDigits(n: nat)
    requires n < 0x8000_0000_0000_0000
    ensures Atoi(Digits(n)) == Num(n) && LineSafe(Digits(n))
  {
    DigitsFacts(n);
    assert IsDigit(Digits(n)[0]) && IsDigit(Digits(n)[|Digits(n)| - 1]);
  }

  lemma AtoiMinusOne()
    ensures Atoi([MINUS, 49]) == Num(-1) && LineSafe([MINUS, 49])
  {
    var s: seq<Byte> := [MINUS, 49];
    var d: seq<Byte> := [49];
    assert s[1..] == d;
    assert forall i :: 0 <= i < |d| ==> IsDigit(d[i]);
    assert DigitsValue(d) == DigitsValue(d[..0]) * 10 + 1;
  }

  lemma CountLine(n: nat, tail: seq<Byte>)
    requires n < 0x8000_0000_0000_0000
    ensures ReadCRLF(Digits(n) + CRLF + tail) == Got(Digits(n), tail) && Atoi(Digits(n)) == Num(n)
  {
    AtoiDigits(n);
    ReadCRLFEncoded(Digits(n), tail);
  }

  // ----- Values round trip ---------------------------------------------------

  lemma TextRoundTrip(m: Msg, tail: seq<Byte>, depth: nat)
    requires m.Text? && Encodable(m, depth)
    ensures Parse(Encode(m) + tail, depth) == Ok(ValueOf(m), tail)
  {
    var body := m.text + CRLF + tail;
    assert Encode(m) + tail == [m.typ] + body;
    ReadCRLFEncoded(m.text, tail);
    ParseLineType(m.typ, body, m.text, tail, depth);
  }

  lemma ParseLineType(t: Byte, body: seq<Byte>, line: seq<Byte>, rest: seq<Byte>, depth: nat)
    requires IsLineType(t) && depth <= MAX_DEPTH && ReadCRLF(body) == Got(line, rest)
    ensures Parse([t] + body, depth) == Ok(RespVal(t, line, [], false, []), rest)
  {
    assert ([t] + body)[1..] == body;
  }

  lemma CommandRoundTrip(m: Msg, tail: seq<Byte>, depth: nat)
    requires m.Command? && Encodable(m, depth)
    ensures Parse(Encode(m) + tail, depth) == Ok(ValueOf(m), tail)
  {
    var input := Encode(m) + tail;
    assert input[1..] == m.text[1..] + CRLF + tail;
    ReadCRLFEncoded(m.text[1..], tail);
    assert m.text == [m.text[0]] + m.text[1..];
  }

  lemma MissingRoundTrip(m: Msg, tail: seq<Byte>, depth: nat)
    requires m.Missing? && Encodable(m, depth)
    ensures Parse(Encode(m) + tail, depth) == Ok(ValueOf(m), tail)
  {
    var input := Encode(m) + tail;
    AtoiMinusOne();
    if m.typ == NULL {
      assert input[1..] == [] + CRLF + tail;
      ReadCRLFEncoded([], tail);
    } else {
      assert input[1..] == [MINUS, 49] + CRLF + tail;
      ReadCRLFEncoded([MINUS, 49], tail);
    }
  }

  lemma DataRoundTrip(m: Msg, tail: seq<Byte>, depth: nat)
    requires m.Data? && Encodable(m, depth)
    ensures Parse(Encode(m) + tail, depth) == Ok(ValueOf(m), tail)
  {
    var input, n := Encode(m) + tail, |m.data|;
    var rest := m.data + CRLF + tail;
    assert input[1..] == Digits(n) + CRLF + rest;
    CountLine(n, rest);
    assert rest[n + 2..] == tail;
    assert n > MAX_CAPTURE ==> rest[..MAX_CAPTURE] == m.data[..MAX_CAPTURE];
    assert rest[..n] == m.data;
  }

  lemma AggHead(t: Byte, elems: seq<Msg>, tail: seq<Byte>, depth: nat)
    requires |elems| <= MAX_ELEMENTS && (t == MAP || t == ATTR ==> |elems| % 2 == 0)
    requires ParseSeq(EncodeSeq(elems) + tail, depth + 1, |elems|) == Many(ValuesOf(elems), tail)
    ensures ParseAgg(t, Digits(Announced(t, |elems|)) + CRLF + EncodeSeq(elems) + tail, depth, if t == MAP || t == ATTR then 2 else 1)
            == Ok(RespVal(t, [], ValuesOf(elems), false, []), tail)
  {
    var n := Announced(t, |elems|);
    var rest := EncodeSeq(elems) + tail;
    Assoc(Digits(n) + CRLF, EncodeSeq(elems), tail);
    CountLine(n, rest);
    AggCounted(t, Digits(n) + CRLF + rest, Digits(n), n, rest, depth, if t == MAP || t == ATTR then 2 else 1);
  }

  lemma Assoc(a: seq<Byte>, b: seq<Byte>, c: seq<Byte>)
    ensures a + b + c == a + (b + c)
  {
  }

  lemma AggCounted(t: Byte, input: seq<Byte>, line: seq<Byte>, n: nat, rest: seq<Byte>, depth: nat, mult: nat)
    requires ReadCRLF(input) == Got(line, rest) && Atoi(line) == Num(n)
    ensures ParseAgg(t, input, depth, mult) ==
            if n * mult > MAX_ELEMENTS || ParseSeq(rest, depth + 1, n * mult).NoneParsed? then Fail
            else Ok(RespVal(t, [], ParseSeq(rest, depth + 1, n * mult).vs, false, []), ParseSeq(rest, depth + 1, n * mult).rest)
  {
  }

  lemma AggRoundTrip(m: Msg, tail: seq<Byte>, depth: nat)
    requires m.Agg? && Encodable(m, depth)
    requires ParseSeq(EncodeSeq(m.elems) + tail, depth + 1, |m.elems|) == Many(ValuesOf(m.elems), tail)
    ensures Parse(Encode(m) + tail, depth) == Ok(ValueOf(m), tail)
  {
    var body := Digits(Announced(m.typ, |m.elems|)) + CRLF + EncodeSeq(m.elems) + tail;
    assert Encode(m) + tail == [m.typ] + body;
    AggHead(m.typ, m.elems, tail, depth);
    ParseAggType(m.typ, body, depth);
  }

  lemma ParseAggType(t: Byte, body: seq<Byte>, depth: nat)
    requires IsAggType(t) && depth <= MAX_DEPTH
    ensures Parse([t] + body, depth) == ParseAgg(t, body, depth, if t == MAP || t == ATTR then 2 else 1)
  {
    assert ([t] + body)[1..] == body;
  }

  lemma WithRoundTrip(m: Msg, tail: seq<Byte>, depth: nat)
    requires m.With? && Encodable(m, depth)
    requires ParseSeq(EncodeSeq(m.attrs) + (Encode(m.msg) + tail), depth + 1, |m.attrs|) == Many(ValuesOf(m.attrs), Encode(m.msg) + tail)
    requires Parse(Encode(m.msg) + tail, depth) == Ok(ValueOf(m.msg), tail)
    ensures Parse(Encode(m) + tail, depth) == Ok(ValueOf(m), tail)
  {
    var more := Encode(m.msg) + tail;
    var body := Digits(Announced(ATTR, |m.attrs|)) + CRLF + EncodeSeq(m.attrs) + more;
    assert Encode(m) + tail == [ATTR] + body;
    AggHead(ATTR, m.attrs, more, depth);
    ParseAttr(body, RespVal(ATTR, [], ValuesOf(m.attrs), false, []), more, ValueOf(m.msg), tail, depth);
  }

  lemma ParseAttr(body: seq<Byte>, attr: RespVal, rest: seq<Byte>, v: RespVal, rest': seq<Byte>, depth: nat)
    requires depth <= MAX_DEPTH
    requires ParseAgg(ATTR, body, depth, 2) == Ok(attr, rest) && Parse(rest, depth) == Ok(v, rest')
    ensures Parse([ATTR] + body, depth) == Ok(v.(attrs := attr.arr), rest')
  {
    var input := [ATTR] + body;
    assert input[0] == ATTR && input[1..] == body;
  }

  lemma ParseSeqCons(input: seq<Byte>, depth: nat, count: nat, v: RespVal, rest: seq<Byte>, vs: seq<RespVal>, rest': seq<Byte>)
    requires Parse(input, depth) == Ok(v, rest) && ParseSeq(rest, depth, count) == Many(vs, rest')
    ensures ParseSeq(input, depth, count + 1) == Many([v] + vs, rest')
  {
  }

  /** For every message within the limits, parsing its encoding in front of any
      tail returns its value and leaves exactly the tail. */
  lemma {:induction false} RoundTrip(m: Msg, tail: seq<Byte>, depth: nat)
    requires Encodable(m, depth)
    ensures Parse(Encode(m) + tail, depth) == Ok(ValueOf(m), tail)
    decreases m
  {
    match m
    case Text(_, _) => TextRoundTrip(m, tail, depth);
    case Missing(_) => MissingRoundTrip(m, tail, depth);
    case Data(_, _) => DataRoundTrip(m, tail, depth);
    case Command(_) => CommandRoundTrip(m, tail, depth);
    case Agg(_, elems) =>
      SeqRoundTrip(elems, tail, depth + 1);
      AggRoundTrip(m, tail, depth);
    case With(attrs, msg) =>
      SeqRoundTrip(attrs, Encode(msg) + tail, depth + 1);
      RoundTrip(msg, tail, depth);
      WithRoundTrip(m, tail, depth);
  }

  lemma EncodeSeqCons(ms: seq<Msg>, tail: seq<Byte>)
    requires ms != []
    ensures EncodeSeq(ms) + tail == Encode(ms[0]) + (EncodeSeq(ms[1..]) + tail)
    ensures ValuesOf(ms) == [ValueOf(ms[0])] + ValuesOf(ms[1..])
  {
  }

  lemma {:induction false} SeqRoundTrip(ms: seq<Msg>, tail: seq<Byte>, depth: nat)
    requires AllEncodable(ms, depth)
    ensures ParseSeq(EncodeSeq(ms) + tail, depth, |ms|) == Many(ValuesOf(ms), tail)
    decreases ms
  {
    if ms == [] {
      assert EncodeSeq(ms) + tail == tail;
    } else {
      var more := EncodeSeq(ms[1..]) + tail;
      RoundTrip(ms[0], more, depth);
      SeqRoundTrip(ms[1..], tail, depth);
      EncodeSeqCons(ms, tail);
      ParseSeqCons(Encode(ms[0]) + more, depth, |ms| - 1, ValueOf(ms[0]), more, ValuesOf(ms[1..]), tail);
    }
  }

  // ----- A pipelined connection ----------------------------------------------

  /** The dissector's loop: values until one cannot be parsed. */
  function ParseAll(input: seq<Byte>): seq<RespVal>
    decreases |input|
  {
    match Parse(input, 0)
    case Fail => []
    case Ok(v, rest) => [v] + ParseAll(rest)
  }

  /** Pipelined commands split correctly, whatever follows them. */
  lemma {:induction false} PipelineSplits(ms: seq<Msg>, tail: seq<Byte>)
    requires AllEncodable(ms, 0)
    ensures ParseAll(EncodeSeq(ms) + tail) == ValuesOf(ms) + ParseAll(tail)
  {
    if ms == [] {
      assert EncodeSeq(ms) + tail == tail;
    } else {
      var more := EncodeSeq(ms[1..]) + tail;
      assert EncodeSeq(ms) + tail == Encode(ms[0]) + more;
      RoundTrip(ms[0], more, 0);
      PipelineSplits(ms[1..], tail);
    }
  }

  function BulkArray(args: seq<seq<Byte>>): Msg {
    Agg(ARRAY, seq(|args|, i requires 0 <= i < |args| => Data(BULK, args[i])))
  }

  lemma {:induction false} EncodeSeqSnoc(ms: seq<Msg>, m: Msg)
    ensures EncodeSeq(ms + [m]) == EncodeSeq(ms) + Encode(m)
  {
    if ms == [] {
      assert ms + [m] == [m] && [m][1..] == [];
      assert EncodeSeq([m]) == Encode(m) + EncodeSeq([]);
    } else {
      assert (ms + [m])[1..] == ms[1..] + [m];
      EncodeSeqSnoc(ms[1..], m);
    }
  }

  /** A command whose arguments keep the parser's limits. */
  predicate WithinLimits(args: seq<seq<Byte>>) {
    |args| <= MAX_ELEMENTS && forall i :: 0 <= i < |args| ==> |args[i]| <= MAX_BULK
  }

  /** The value of a command: an array of its arguments, each cut to what is kept. */
  function CommandValue(args: seq<seq<Byte>>): RespVal {
    RespVal(ARRAY, [], seq(|args|, i requires 0 <= i < |args| => ValueOf(Data(BULK, args[i]))), false, [])
  }

  lemma {:induction false} BulksEncodable(args: seq<seq<Byte>>, k: nat)
    requires k <= |args| && WithinLimits(args)
    ensures AllEncodable(BulkArray(args).elems[k..], 1)
    decreases |args| - k
  {
    var elems := BulkArray(args).elems;
    if k < |args| {
      BulksEncodable(args, k + 1);
      assert elems[k..][1..] == elems[k + 1..] && elems[k..][0] == Data(BULK, args[k]);
    }
  }

  lemma {:induction false} ValuesAt(ms: seq<Msg>, i: nat)
    requires i < |ms|
    ensures |ValuesOf(ms)| == |ms| && ValuesOf(ms)[i] == ValueOf(ms[i])
  {
    if i > 0 {
      ValuesAt(ms[1..], i - 1);
    } else if |ms| > 1 {
      ValuesAt(ms[1..], 0);
    }
  }

  /** A rendered command parses to itself and leaves exactly what follows it. */
  lemma CommandParses(args: seq<seq<Byte>>, tail: seq<Byte>)
    requires WithinLimits(args)
    ensures Parse(Encode(BulkArray(args)) + tail, 0) == Ok(CommandValue(args), tail)
  {
    var elems := BulkArray(args).elems;
    BulksEncodable(args, 0);
    assert elems[0..] == elems;
    RoundTrip(BulkArray(args), tail, 0);
    forall i | 0 <= i < |elems| ensures |ValuesOf(elems)| == |elems| && ValuesOf(elems)[i] == CommandValue(args).arr[i] {
      ValuesAt(elems, i);
    }
    assert ValuesOf(elems) == CommandValue(args).arr;
  }

  /** The demo's command renderer is one such encoder. */
  method DemoRESP(args: seq<seq<Byte>>) returns (out: seq<Byte>)
    ensures out == Encode(BulkArray(args))
    ensures WithinLimits(args) ==> forall tail :: Parse(out + tail, 0) == Ok(CommandValue(args), tail)
  {
    out := [ARRAY] + Digits(|args|) + CRLF;
    ghost var head, elems := out, BulkArray(args).elems;
    for i := 0 to |args|
      invariant out == head + EncodeSeq(elems[..i])
    {
      out := out + ([BULK] + Digits(|args[i]|) + CRLF + args[i] + CRLF);
      EncodeSeqSnoc(elems[..i], elems[i]);
      assert elems[..i + 1] == elems[..i] + [elems[i]];
    }
    assert elems[..|args|] == elems;
    if WithinLimits(args) {
      forall tail ensures Parse(out + tail, 0) == Ok(CommandValue(args), tail) { CommandParses(args, tail); }
    }
  }

  // ----- By the bytes on the wire --------------------------------------------

  function Ascii(s: string): seq<Byte>
    requires forall i :: 0 <= i < |s| ==> s[i] as int < 256
  {
    seq(|s|, i requires 0 <= i < |s| => s[i] as int)
  }

  /** The first bytes of the protocol. */
  lemma TypeBytes(t: Byte)
    ensures IsLineType(t) <==> t in Ascii("+-:,(#")
    ensures IsBulkType(t) <==> t in Ascii("$=")
    ensures IsAggType(t) <==> t in Ascii("*~>%")
    ensures [MAP, ATTR, NULL, INLINE] == Ascii("%|_i")
  {
    assert Ascii("+-:,(#") == [43, 45, 58, 44, 40, 35];
    assert Ascii("$=") == [36, 61];
    assert Ascii("*~>%") == [42, 126, 62, 37];
  }

  /** What a peer puts on the wire for each kind of message. */
  lemma EncodedAs(m: Msg)
    ensures m.Text? ==> Encode(m) == [m.typ] + m.text + [13, 10]
    ensures m.Data? ==> Encode(m) == [m.typ] + Digits(|m.data|) + [13, 10] + m.data + [13, 10]
    ensures m.Command? ==> Encode(m) == m.text + [13, 10]
    ensures m.Missing? ==> Encode(m) == [m.typ] + (if m.typ as int == '_' as int then [] else Ascii("-1")) + [13, 10]
    ensures m.Agg? ==>
              Encode(m) == [m.typ] + Digits(if m.typ as int in {'%' as int, '|' as int} then |m.elems| / 2 else |m.elems|) + [13, 10] + EncodeSeq(m.elems)
    ensures m.With? ==> Encode(m) == Ascii("|") + Digits(|m.attrs| / 2) + [13, 10] + EncodeSeq(m.attrs) + Encode(m.msg)
  {
    assert Ascii("-1") == [45, 49] && Ascii("|") == [124];
    if m.Missing? && m.typ == NULL { assert [m.typ] + [] == [m.typ]; }
  }

  function Pow10(k: nat): nat { if k == 0 then 1 else 10 * Pow10(k - 1) }

  lemma Scale(x: int, p: int, d: int)
    ensures (x * p) * 10 + d == x * (10 * p) + d
  {
  }

  /** Numerals are decimal: a digit counts ten times the one after it. */
  lemma {:induction false} DigitsConcat(a: seq<Byte>, b: seq<Byte>)
    ensures DigitsValue(a + b) == DigitsValue(a) * Pow10(|b|) + DigitsValue(b)
    ensures |b| == 1 ==> DigitsValue(b) == b[0] as int - '0' as int
  {
    if b == [] {
      assert a + b == a;
    } else {
      var n := |b| - 1;
      DigitsConcat(a, b[..n]);
      assert (a + b)[..|a| + n] == a + b[..n];
      Scale(DigitsValue(a), Pow10(n), DigitsValue(b[..n]) * 10 + (b[n] as int - 48));
      if n == 0 { assert b[..0] == [] && DigitsValue([]) == 0; }
    }
  }

  /** A number is an optional sign and at least one decimal digit, in 64 bits. */
  lemma AtoiReads(digits: seq<Byte>)
    requires digits != [] && forall i :: 0 <= i < |digits| ==> '0' as int <= digits[i] <= '9' as int
    ensures Atoi(digits) == (if DigitsValue(digits) <= 0x7fff_ffff_ffff_ffff then Num(DigitsValue(digits)) else NaN)
    ensures Atoi(Ascii("+") + digits) == Atoi(digits)
    ensures Atoi(Ascii("-") + digits) == (if DigitsValue(digits) <= 0x8000_0000_0000_0000 then Num(-DigitsValue(digits)) else NaN)
  {
    DigitsNonNegative(digits);
    assert Ascii("+") == [43] && Ascii("-") == [45];
    AtoiOf(digits, digits, false);
    AtoiOf([43] + digits, digits, false);
    AtoiOf([45] + digits, digits, true);
  }

  lemma AtoiOf(s: seq<Byte>, digits: seq<Byte>, negative: bool)
    requires digits != [] && forall i :: 0 <= i < |digits| ==> 48 <= digits[i] <= 57
    requires (s == digits && !negative) || s == [if negative then 45 else 43] + digits
    ensures var n := if negative then -DigitsValue(digits) else DigitsValue(digits);
            Atoi(s) == if -0x8000_0000_0000_0000 <= n < 0x8000_0000_0000_0000 then Num(n) else NaN
  {
    assert s == digits || s[1..] == digits;
    assert forall i :: 0 <= i < |digits| ==> IsDigit(digits[i]);
    assert s == digits ==> s[0] != MINUS && s[0] != PLUS by { assert IsDigit(digits[0]); }
  }

  lemma {:induction false} DigitsNonNegative(digits: seq<Byte>)
    requires forall i :: 0 <= i < |digits| ==> '0' as int <= digits[i] <= '9' as int
    ensures DigitsValue(digits) >= 0
  {
    if digits != [] { DigitsNonNegative(digits[..|digits| - 1]); }
  }

  /** And nothing else is one. */
  lemma AtoiRefuses(s: seq<Byte>)
    ensures var digits := if s != [] && (s[0] == 43 || s[0] == 45) then s[1..] else s;
            digits == [] || (exists i :: 0 <= i < |digits| && !('0' as int <= digits[i] <= '9' as int)) ==> Atoi(s) == NaN
  {
    var digits := if s != [] && (s[0] == 43 || s[0] == 45) then s[1..] else s;
    if i :| 0 <= i < |digits| && !('0' as int <= digits[i] <= '9' as int) {
      assert !IsDigit(digits[i]);
      assert !AllDigits(digits);
    }
  }

  /** A line ends at the first line feed, without the carriage returns before it;
      without a line feed there is none. */
  ghost predicate LineOf(input: seq<Byte>, line: seq<Byte>, rest: seq<Byte>) {
    exists k: nat ::
      && k < |input| && input[k] == 10 && (forall i :: 0 <= i < k ==> input[i] != 10) && rest == input[k + 1..]
      && |line| <= k && line == input[..|line|] && (forall i :: |line| <= i < k ==> input[i] == 13)
      && (line != [] ==> line[|line| - 1] != 13)
  }

  lemma LineReads(input: seq<Byte>)
    ensures ReadCRLF(input).NoLine? <==> forall i :: 0 <= i < |input| ==> input[i] != 10
    ensures ReadCRLF(input).Got? ==> LineOf(input, ReadCRLF(input).line, ReadCRLF(input).rest)
  {
    ReadLineFirst(input);
    var r := ReadLine(input);
    if r.Got? {
      TrimmedLine(r.line);
      LineWithin(input, r.line, TrimRight(r.line));
    }
  }

  lemma LineWithin(input: seq<Byte>, full: seq<Byte>, line: seq<Byte>)
    requires |full| < |input| && input[|full|] == 10 && full == input[..|full|] && forall i :: 0 <= i < |full| ==> full[i] != 10
    requires |line| <= |full| && line == full[..|line|] && (forall i :: |line| <= i < |full| ==> full[i] == 13)
    requires line != [] ==> line[|line| - 1] != 13
    ensures LineOf(input, line, input[|full| + 1..])
  {
    var k := |full|;
    assert forall i :: 0 <= i < k ==> input[i] == full[i];
    assert line == input[..|line|];
  }

  lemma {:induction false} ReadLineFirst(input: seq<Byte>)
    ensures var r := ReadLine(input);
            && (r.NoLine? <==> forall i :: 0 <= i < |input| ==> input[i] != 10)
            && (r.Got? ==>
                  && |r.line| < |input| && input[|r.line|] == 10 && r.line == input[..|r.line|] && r.rest == input[|r.line| + 1..]
                  && forall i :: 0 <= i < |r.line| ==> r.line[i] != 10)
  {
    if input != [] && input[0] != LF {
      ReadLineFirst(input[1..]);
      var r := ReadLine(input[1..]);
      if r.Got? {
        assert input[1..][|r.line|] == 10;
        assert [input[0]] + r.line == input[..|r.line| + 1];
      } else {
        assert forall i :: 1 <= i < |input| ==> input[i] == input[1..][i - 1];
      }
    }
  }

  lemma {:induction false} TrimmedLine(s: seq<Byte>)
    requires forall i :: 0 <= i < |s| ==> s[i] != 10
    ensures var t := TrimRight(s);
            && |t| <= |s| && t == s[..|t|] && (forall i :: |t| <= i < |s| ==> s[i] == 13) && (t != [] ==> t[|t| - 1] != 13)
  {
    if s != [] && s[|s| - 1] == CR { TrimmedLine(s[..|s| - 1]); }
  }

  /** A bulk string is taken exactly up to 512 MiB, nested at most 64 deep, with its
      two closing bytes there; up to 1 MiB of it is kept. */
  lemma BulkLimits(t: Byte, n: nat, rest: seq<Byte>, depth: nat)
    requires IsBulkType(t) && n < 0x8000_0000_0000_0000
    ensures var r := Parse([t] + Digits(n) + CRLF + rest, depth);
            && (r.Ok? <==> depth <= 64 && n <= 536_870_912 && |rest| >= n + 2)
            && (r.Ok? ==> r.v == RespVal(t, rest[..if n <= 1_048_576 then n else 1_048_576], [], false, []) && r.rest == rest[n + 2..])
  {
    var body := Digits(n) + CRLF + rest;
    CountLine(n, rest);
    HeadFirst(t, Digits(n), CRLF, rest);
    if depth <= MAX_DEPTH {
      ParseBulkType(t, body, depth);
      BulkCounted(t, body, Digits(n), n, rest);
    }
  }

  lemma HeadFirst(t: Byte, a: seq<Byte>, b: seq<Byte>, c: seq<Byte>)
    ensures [t] + a + b + c == [t] + (a + b + c)
  {
  }

  lemma ParseBulkType(t: Byte, body: seq<Byte>, depth: nat)
    requires IsBulkType(t) && depth <= MAX_DEPTH
    ensures Parse([t] + body, depth) == ParseBulk(t, body)
  {
    assert ([t] + body)[1..] == body;
  }

  lemma BulkCounted(t: Byte, input: seq<Byte>, line: seq<Byte>, n: nat, rest: seq<Byte>)
    requires ReadCRLF(input) == Got(line, rest) && Atoi(line) == Num(n)
    ensures ParseBulk(t, input) ==
            if n > 536_870_912 || |rest| < n + 2 then Fail
            else Ok(RespVal(t, rest[..if n <= 1_048_576 then n else 1_048_576], [], false, []), rest[n + 2..])
  {
  }

  /** An aggregate announces at most 1048576 elements, a map two for each. */
  lemma AggLimits(t: Byte, n: nat, rest: seq<Byte>, depth: nat)
    requires IsAggType(t) && n < 0x8000_0000_0000_0000
    ensures var count := if t as int == '%' as int then 2 * n else n;
            var r, elems := Parse([t] + Digits(n) + CRLF + rest, depth), ParseSeq(rest, depth + 1, count);
            && (r.Ok? <==> depth <= 64 && count <= 1_048_576 && elems.Many?)
            && (r.Ok? ==> r.v == RespVal(t, [], elems.vs, false, []) && r.rest == elems.rest)
  {
    var body := Digits(n) + CRLF + rest;
    CountLine(n, rest);
    HeadFirst(t, Digits(n), CRLF, rest);
    if depth <= MAX_DEPTH {
      ParseAggType(t, body, depth);
      AggCounted(t, body, Digits(n), n, rest, depth, if t == MAP then 2 else 1);
    }
  }
}
