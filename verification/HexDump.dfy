/** The hexdump wire format: the worker's renderer, the browser's renderer, and
    the parser both the hub and the browser use to get the bytes back. */
module HexDump {
  import opened Basics

  const HEX_DIGITS := "0123456789abcdef"

  function Min(a: int, b: int): int { if a < b then a else b }

  // ----- Digits --------------------------------------------------------------

  function Digit(n: nat): char
    requires n < 16
  {
    HEX_DIGITS[n]
  }

  predicate IsHex(c: char) { '0' <= c <= '9' || 'a' <= c <= 'f' }

  function HexVal(c: char): (v: nat)
    requires IsHex(c)
    ensures v < 16 && "0123456789abcdef"[v] == c
  {
    if c <= '9' then c as int - '0' as int else c as int - 'a' as int + 10
  }

  lemma DigitRoundTrip(n: nat)
    requires n < 16
    ensures IsHex(Digit(n)) && HexVal(Digit(n)) == n
  {
  }

  /** The low d hex digits of n, most significant first. */
  function HexN(n: nat, d: nat): (s: string)
    ensures |s| == d
  {
    if d == 0 then "" else HexN(n / 16, d - 1) + [Digit(n % 16)]
  }

  function HexLen(n: nat): nat { if n < 16 then 1 else 1 + HexLen(n / 16) }

  function Pow16(k: nat): (p: nat)
    ensures p > 0
  {
    if k == 0 then 1 else 16 * Pow16(k - 1)
  }

  /** Offsets are at least eight digits wide. */
  function OffsetText(off: nat): string { HexN(off, if HexLen(off) < 8 then 8 else HexLen(off)) }

  // ----- Rendering -----------------------------------------------------------

  function ByteCol(line: seq<Byte>, j: nat): string {
    if j < |line| then [Digit(line[j] / 16), Digit(line[j] % 16), ' '] else "   "
  }

  /** Column j; one more space ends the first group of eight. */
  function Col(line: seq<Byte>, j: nat): string {
    if j == 7 then ByteCol(line, j) + " " else ByteCol(line, j)
  }

  /** Hex columns j to 15 of a line. */
  function Cols(line: seq<Byte>, j: nat): string
    decreases 16 - j
  {
    if j >= 16 then "" else Col(line, j) + Cols(line, j + 1)
  }

  function Printable(c: Byte): char { if 0x20 <= c < 0x7f then c as char else '.' }

  function Ascii(line: seq<Byte>): (s: string)
    ensures |s| == |line|
  {
    seq(|line|, i requires 0 <= i < |line| => Printable(line[i]))
  }

  /** What stands before the gutter of a line. */
  function Left(off: nat, line: seq<Byte>): string { OffsetText(off) + "  " + Cols(line, 0) }

  function Gutter(line: seq<Byte>): string { Ascii(line) + "|" }

  /** One line, without its line feed. */
  function LineText(off: nat, line: seq<Byte>): string { Left(off, line) + " |" + Gutter(line) }

  /** The dump of everything from off on. */
  function Dump(b: seq<Byte>, off: nat): string
    decreases |b| - off
  {
    if off >= |b| then ""
    else LineText(off, b[off..Min(off + 16, |b|)]) + "\n" + Dump(b, off + 16)
  }

  // ----- Parsing -------------------------------------------------------------

  predicate IsSpace(c: char) { c == ' ' || c == '\t' || c == '\n' || c == '\r' || c as int == 12 }

  function Split(s: string): (lines: seq<string>)
    decreases |s|
  {
    var k := IndexOf(s, "\n", 0);
    if k == |s| then [s] else [s[..k]] + Split(s[k + 1..])
  }

  /** The first position from i on where sub occurs in s, or |s|. */
  function IndexOf(s: string, sub: string, i: nat): (k: nat)
    requires i <= |s|
    ensures i <= k <= |s|
    decreases |s| - i
  {
    if i == |s| then |s|
    else if i + |sub| <= |s| && s[i..i + |sub|] == sub then i
    else IndexOf(s, sub, i + 1)
  }

  predicate Blank(s: string) { forall i :: 0 <= i < |s| ==> IsSpace(s[i]) }

  function DropSpaces(s: string): string {
    if s != "" && IsSpace(s[0]) then DropSpaces(s[1..]) else s
  }

  /** The leading eight-digit offset and the space after it go. */
  function StripOffset(s: string): string {
    if |s| > 8 && (forall i :: 0 <= i < 8 ==> IsHex(s[i])) && IsSpace(s[8]) then DropSpaces(s[8..]) else s
  }

  /** Every two-digit token, left to right. */
  function HexPairs(s: string): seq<Byte>
    decreases |s|
  {
    if |s| < 2 then []
    else if IsHex(s[0]) && IsHex(s[1]) then [HexVal(s[0]) * 16 + HexVal(s[1])] + HexPairs(s[2..])
    else HexPairs(s[1..])
  }

  function HexPart(line: string): string { line[..IndexOf(line, " |", 0)] }

  function ParseLine(line: string): seq<Byte> {
    if Blank(line) then [] else HexPairs(StripOffset(HexPart(line)))
  }

  function FlatMap(f: string -> seq<Byte>, lines: seq<string>): seq<Byte> {
    if lines == [] then [] else FlatMap(f, lines[..|lines| - 1]) + f(lines[|lines| - 1])
  }

  function ParseDump(dump: string): seq<Byte> { FlatMap(ParseLine, Split(dump)) }

  // ----- Text facts ----------------------------------------------------------

  ghost predicate Free(s: string, c: char) { forall i :: 0 <= i < |s| ==> s[i] != c }

  /** The first occurrence of a separator lies where it was put, if its last
      character does not occur before. */
  lemma {:induction false} IndexOfFirst(s: string, sub: string, rest: string, i: nat)
    requires i <= |s| && sub != "" && Free(s + sub[..|sub| - 1], sub[|sub| - 1])
    ensures IndexOf(s + sub + rest, sub, i) == |s|
    decreases |s| - i
  {
    var t, n := s + sub + rest, |sub|;
    if i == |s| {
      assert t[i..i + n] == sub;
    } else {
      assert t[i + n - 1] == (s + sub[..n - 1])[i + n - 1] != sub[n - 1];
      assert t[i..i + n][n - 1] == t[i + n - 1];
      IndexOfFirst(s, sub, rest, i + 1);
    }
  }

  lemma {:induction false} IndexOfNone(s: string, c: char, i: nat)
    requires i <= |s| && Free(s, c)
    ensures IndexOf(s, [c], i) == |s|
    decreases |s| - i
  {
    if i < |s| {
      assert s[i..i + 1][0] == s[i];
      IndexOfNone(s, c, i + 1);
    }
  }

  lemma {:induction false} HexNFree(n: nat, d: nat)
    ensures forall i :: 0 <= i < d ==> IsHex(HexN(n, d)[i])
  {
    if d > 0 {
      HexNFree(n / 16, d - 1);
      DigitRoundTrip(n % 16);
    }
  }

  predicate HexOrSpace(s: string) { forall i :: 0 <= i < |s| ==> IsHex(s[i]) || s[i] == ' ' }

  lemma ColText(line: seq<Byte>, j: nat)
    ensures HexOrSpace(Col(line, j))
  {
    if j < |line| {
      DigitRoundTrip(line[j] / 16);
      DigitRoundTrip(line[j] % 16);
    }
  }

  lemma {:induction false} ColsText(line: seq<Byte>, j: nat)
    ensures HexOrSpace(Cols(line, j))
    decreases 16 - j
  {
    if j < 16 {
      ColsText(line, j + 1);
      ColText(line, j);
    }
  }

  lemma LeftOf(d: string, cols: string)
    requires HexOrSpace(d) && |d| > 0 && IsHex(d[0]) && HexOrSpace(cols)
    ensures var left := d + "  " + cols; HexOrSpace(left) && |left| > 0 && IsHex(left[0])
  {
  }

  lemma LeftText(off: nat, line: seq<Byte>)
    ensures HexOrSpace(Left(off, line)) && |Left(off, line)| > 0 && IsHex(Left(off, line)[0])
  {
    HexNFree(off, |OffsetText(off)|);
    ColsText(line, 0);
    LeftOf(OffsetText(off), Cols(line, 0));
  }

  /** The gutter never hides the cut: everything before it has no bar. */
  lemma CutAtGutter(left: string, gutter: string)
    requires HexOrSpace(left)
    ensures HexPart(left + " |" + gutter) == left
  {
    assert Free(left + " ", '|');
    assert " |"[..1] == " ";
    IndexOfFirst(left, " |", gutter, 0);
  }

  lemma LineHexPart(off: nat, line: seq<Byte>)
    ensures HexPart(LineText(off, line)) == Left(off, line)
  {
    LeftText(off, line);
    CutAtGutter(Left(off, line), Gutter(line));
  }

  lemma NoLineFeed(left: string, gutter: string)
    requires HexOrSpace(left) && |left| > 0 && IsHex(left[0]) && Free(gutter, '\n')
    ensures Free(left + " |" + gutter, '\n') && !Blank(left + " |" + gutter)
  {
    assert (left + " |" + gutter)[0] == left[0];
  }

  lemma GutterText(line: seq<Byte>)
    ensures Free(Gutter(line), '\n')
  {
  }

  lemma LineIsOneLine(off: nat, line: seq<Byte>)
    ensures Free(LineText(off, line), '\n') && !Blank(LineText(off, line))
  {
    LeftText(off, line);
    GutterText(line);
    NoLineFeed(Left(off, line), Gutter(line));
  }

  // ----- Round trip of a line ------------------------------------------------

  lemma SkipSpace(s: string)
    ensures HexPairs(" " + s) == HexPairs(s)
  {
    assert (" " + s)[1..] == s;
  }

  lemma SkipThree(s: string)
    ensures HexPairs("   " + s) == HexPairs(s)
  {
    assert "   " + s == " " + (" " + (" " + s));
    SkipSpace(s);
    SkipSpace(" " + s);
    SkipSpace(" " + (" " + s));
  }

  lemma TakePair(b: Byte, s: string)
    ensures HexPairs([Digit(b / 16), Digit(b % 16), ' '] + s) == [b] + HexPairs(s)
  {
    var t := [Digit(b / 16), Digit(b % 16), ' '] + s;
    DigitRoundTrip(b / 16);
    DigitRoundTrip(b % 16);
    assert t[2..] == " " + s;
    SkipSpace(s);
  }

  lemma ColParse(line: seq<Byte>, j: nat, rest: string)
    ensures HexPairs(Col(line, j) + rest) == if j < |line| then [line[j]] + HexPairs(rest) else HexPairs(rest)
  {
    var more := if j == 7 then " " + rest else rest;
    assert Col(line, j) + rest == ByteCol(line, j) + more;
    SkipSpace(rest);
    if j < |line| { TakePair(line[j], more); } else { SkipThree(more); }
  }

  lemma {:induction false} ColsParse(line: seq<Byte>, j: nat)
    requires |line| <= 16 && j <= 16
    ensures HexPairs(Cols(line, j)) == if j < |line| then line[j..] else []
    decreases 16 - j
  {
    if j < 16 {
      ColsParse(line, j + 1);
      ColParse(line, j, Cols(line, j + 1));
    }
  }

  lemma {:induction false} HexLenBound(n: nat, k: nat)
    requires k > 0
    ensures HexLen(n) <= k <==> n < Pow16(k)
  {
    if k > 1 && n >= 16 {
      HexLenBound(n / 16, k - 1);
    } else if n >= 16 {
      assert HexLen(n) >= 2 && Pow16(1) == 16;
    }
  }

  lemma Pow16Of8()
    ensures Pow16(8) == 0x1_0000_0000
  {
    assert Pow16(2) == 256 && Pow16(1) == 16;
    assert Pow16(4) == 16 * (16 * Pow16(2));
    assert Pow16(8) == 16 * (16 * (16 * (16 * Pow16(4))));
  }

  /** An eight-digit offset and the two spaces go, and nothing more. */
  lemma StripEight(d: string, cols: string)
    requires |d| == 8 && (forall i :: 0 <= i < 8 ==> IsHex(d[i])) && cols != "" && IsHex(cols[0])
    ensures StripOffset(d + "  " + cols) == cols
  {
    var left := d + "  " + cols;
    assert forall i :: 0 <= i < 8 ==> left[i] == d[i];
    assert left[8..] == " " + (" " + cols);
    assert (" " + (" " + cols))[1..] == " " + cols && (" " + cols)[1..] == cols;
    assert DropSpaces(" " + cols) == cols;
  }

  lemma ColsStart(line: seq<Byte>)
    requires line != []
    ensures Cols(line, 0) != "" && IsHex(Cols(line, 0)[0])
  {
    DigitRoundTrip(line[0] / 16);
    assert Col(line, 0)[0] == Digit(line[0] / 16);
  }

  lemma EightDigits(off: nat)
    ensures |OffsetText(off)| >= 8 && (|OffsetText(off)| == 8 <==> off < 0x1_0000_0000)
  {
    Pow16Of8();
    HexLenBound(off, 8);
  }

  lemma StripLeft(off: nat, line: seq<Byte>)
    requires line != [] && off < 0x1_0000_0000
    ensures StripOffset(Left(off, line)) == Cols(line, 0)
  {
    EightDigits(off);
    HexNFree(off, 8);
    ColsStart(line);
    StripEight(OffsetText(off), Cols(line, 0));
  }

  lemma LineRoundTrip(off: nat, line: seq<Byte>)
    requires 0 < |line| <= 16 && off < 0x1_0000_0000
    ensures ParseLine(LineText(off, line)) == line
  {
    LineHexPart(off, line);
    LineIsOneLine(off, line);
    StripLeft(off, line);
    ColsParse(line, 0);
    assert line[0..] == line;
  }

  // ----- Round trip of a dump ------------------------------------------------

  lemma SplitFirst(line: string, rest: string)
    requires Free(line, '\n')
    ensures Split(line + "\n" + rest) == [line] + Split(rest)
  {
    var s := line + "\n" + rest;
    assert "\n"[..0] == "";
    assert line + "" == line;
    IndexOfFirst(line, "\n", rest, 0);
    assert s[..|line|] == line && s[|line| + 1..] == rest;
  }

  lemma FlatMapSnoc(f: string -> seq<Byte>, lines: seq<string>, line: string)
    ensures FlatMap(f, lines + [line]) == FlatMap(f, lines) + f(line)
  {
    assert (lines + [line])[..|lines|] == lines;
  }

  lemma {:induction false} FlatMapCons(f: string -> seq<Byte>, line: string, lines: seq<string>)
    ensures FlatMap(f, [line] + lines) == f(line) + FlatMap(f, lines)
  {
    if lines == [] {
      FlatMapSnoc(f, [], line);
      assert [line] + lines == [] + [line];
    } else {
      var n := |lines| - 1;
      FlatMapCons(f, line, lines[..n]);
      FlatMapSnoc(f, [line] + lines[..n], lines[n]);
      assert [line] + lines == [line] + lines[..n] + [lines[n]];
    }
  }

  lemma DumpStep(b: seq<Byte>, off: nat)
    requires off < |b|
    ensures ParseDump(Dump(b, off)) == ParseLine(LineText(off, b[off..Min(off + 16, |b|)])) + ParseDump(Dump(b, off + 16))
  {
    var line := LineText(off, b[off..Min(off + 16, |b|)]);
    LineIsOneLine(off, b[off..Min(off + 16, |b|)]);
    assert Dump(b, off) == line + "\n" + Dump(b, off + 16);
    SplitFirst(line, Dump(b, off + 16));
    FlatMapCons(ParseLine, line, Split(Dump(b, off + 16)));
  }

  lemma EmptyDump()
    ensures ParseDump("") == []
  {
    assert Split("") == [""];
    FlatMapSnoc(ParseLine, [], "");
    assert [] + [""] == [""];
  }

  /** What a reader f of one line makes of all the lines from off on. */
  function Collected(f: (nat, seq<Byte>) -> seq<Byte>, b: seq<Byte>, off: nat): seq<Byte>
    decreases |b| - off
  {
    if off >= |b| then [] else f(off, b[off..Min(off + 16, |b|)]) + Collected(f, b, off + 16)
  }

  function LineReader(): (nat, seq<Byte>) -> seq<Byte> { (off, line) => ParseLine(LineText(off, line)) }

  lemma {:induction false} DumpReadsLines(b: seq<Byte>, off: nat)
    ensures ParseDump(Dump(b, off)) == Collected(LineReader(), b, off)
    decreases |b| - off
  {
    if off >= |b| {
      EmptyDump();
    } else {
      DumpStep(b, off);
      DumpReadsLines(b, off + 16);
    }
  }

  ghost predicate Faithful(f: (nat, seq<Byte>) -> seq<Byte>) {
    forall off: nat, line: seq<Byte> :: 0 < |line| <= 16 && off < 0x1_0000_0000 ==> f(off, line) == line
  }

  ghost predicate Overreads(f: (nat, seq<Byte>) -> seq<Byte>) {
    forall off: nat, line: seq<Byte> :: 0 < |line| <= 16 && off >= 0x1_0000_0000 ==> |f(off, line)| > |line|
  }

  lemma {:induction false} CollectsAll(f: (nat, seq<Byte>) -> seq<Byte>, b: seq<Byte>, off: nat)
    requires Faithful(f) && |b| <= 0x1_0000_0000
    ensures Collected(f, b, off) == if off < |b| then b[off..] else []
    decreases |b| - off
  {
    if off < |b| {
      CollectsAll(f, b, off + 16);
      var end := Min(off + 16, |b|);
      assert b[off..] == b[off..end] + b[end..];
    }
  }

  // ----- The bound is exact --------------------------------------------------

  /** Dropping characters in front never yields more pairs, and a run of hex
      digits in front yields its pairs. */
  lemma {:induction false} HexRun(s: string, t: string)
    requires forall i :: 0 <= i < |s| ==> IsHex(s[i])
    ensures |HexPairs(s + " " + t)| == |s| / 2 + |HexPairs(t)|
  {
    var u := s + " " + t;
    if |s| == 0 {
      assert u == " " + t;
      SkipSpace(t);
    } else if |s| == 1 {
      assert u[1..] == " " + t;
      SkipSpace(t);
    } else {
      assert u[2..] == s[2..] + " " + t;
      HexRun(s[2..], t);
    }
  }

  lemma NothingStripped(d: string, rest: string)
    requires |d| > 8 && IsHex(d[8])
    ensures StripOffset(d + rest) == d + rest
  {
    assert (d + rest)[8] == d[8];
  }

  /** An offset of nine digits or more is not recognised and read as bytes. */
  lemma WideText(d: string, cols: string)
    requires |d| > 8 && (forall i :: 0 <= i < |d| ==> IsHex(d[i]))
    ensures |HexPairs(StripOffset(d + "  " + cols))| == |d| / 2 + |HexPairs(cols)|
  {
    NothingStripped(d, "  " + cols);
    assert d + "  " + cols == d + ("  " + cols) == d + " " + (" " + cols);
    HexRun(d, " " + cols);
    SkipSpace(cols);
  }

  lemma WideLeft(off: nat, line: seq<Byte>)
    requires 0 < |line| <= 16 && off >= 0x1_0000_0000
    ensures |HexPairs(StripOffset(Left(off, line)))| > |line|
  {
    EightDigits(off);
    HexNFree(off, |OffsetText(off)|);
    WideText(OffsetText(off), Cols(line, 0));
    ColsParse(line, 0);
  }

  lemma WideLine(off: nat, line: seq<Byte>)
    requires 0 < |line| <= 16 && off >= 0x1_0000_0000
    ensures |ParseLine(LineText(off, line))| > |line|
  {
    LineHexPart(off, line);
    LineIsOneLine(off, line);
    WideLeft(off, line);
  }

  lemma LineReaderReads()
    ensures Faithful(LineReader()) && Overreads(LineReader())
  {
    forall off: nat, line: seq<Byte> | 0 < |line| <= 16 && off < 0x1_0000_0000
      ensures LineReader()(off, line) == line
    {
      LineRoundTrip(off, line);
    }
    forall off: nat, line: seq<Byte> | 0 < |line| <= 16 && off >= 0x1_0000_0000
      ensures |LineReader()(off, line)| > |line|
    {
      WideLine(off, line);
    }
  }

  lemma {:induction false} CollectsTooMuch(f: (nat, seq<Byte>) -> seq<Byte>, b: seq<Byte>, off: nat)
    requires Faithful(f) && Overreads(f)
    ensures |Collected(f, b, off)| >= |b| - off
    ensures |b| > 0x1_0000_0000 && off % 16 == 0 && off < |b| ==> |Collected(f, b, off)| > |b| - off
    decreases |b| - off
  {
    if off < |b| {
      CollectsTooMuch(f, b, off + 16);
      var line := b[off..Min(off + 16, |b|)];
      assert off < 0x1_0000_0000 ==> f(off, line) == line;
      assert off >= 0x1_0000_0000 ==> |f(off, line)| > |line|;
    }
  }

  /** A dump parses back to the dumped bytes, whatever they are, exactly when
      every offset fits in eight digits. */
  lemma RoundTripIff(b: seq<Byte>)
    ensures ParseDump(Dump(b, 0)) == b <==> |b| <= 0x1_0000_0000
  {
    DumpReadsLines(b, 0);
    LineReaderReads();
    if |b| <= 0x1_0000_0000 {
      CollectsAll(LineReader(), b, 0);
      assert b == [] || b[0..] == b;
    } else {
      CollectsTooMuch(LineReader(), b, 0);
    }
  }

  // ----- The layout of a line ------------------------------------------------

  function HexNumber(s: string): nat
    requires forall i :: 0 <= i < |s| ==> IsHex(s[i])
  {
    if s == "" then 0 else 16 * HexNumber(s[..|s| - 1]) + HexVal(s[|s| - 1])
  }

  lemma {:induction false} HexNReads(n: nat, d: nat)
    requires n < Pow16(d)
    ensures (forall i :: 0 <= i < d ==> IsHex(HexN(n, d)[i])) && HexNumber(HexN(n, d)) == n
  {
    HexNFree(n, d);
    if d > 0 {
      HexNReads(n / 16, d - 1);
      DigitRoundTrip(n % 16);
      var s := HexN(n, d);
      assert s[..d - 1] == HexN(n / 16, d - 1);
    }
  }

  /** A column of three: two digits and a space, or blank past the end. */
  ghost predicate ColumnReads(s: string, line: seq<Byte>, j: nat) {
    && |s| == 3 && s[2] == ' '
    && if j < |line| then IsHex(s[0]) && IsHex(s[1]) && HexVal(s[0]) * 16 + HexVal(s[1]) == line[j] else s[0] == ' ' == s[1]
  }

  lemma ColumnAt(line: seq<Byte>, j: nat)
    ensures ColumnReads(ByteCol(line, j), line, j)
  {
    if j < |line| {
      DigitRoundTrip(line[j] / 16);
      DigitRoundTrip(line[j] % 16);
    }
  }

  /** Where column k starts, in two groups of eight with a space between. */
  function ColumnStart(k: nat): nat { if k < 8 then 3 * k else 3 * k + 1 }

  lemma {:induction false} ColsLength(line: seq<Byte>, j: nat)
    requires j <= 16
    ensures |Cols(line, j)| == 49 - ColumnStart(j) && |Col(line, j)| == ColumnStart(j + 1) - ColumnStart(j)
    decreases 16 - j
  {
    if j < 16 { ColsLength(line, j + 1); }
  }

  /** Column k, with what stands before and after it. */
  lemma {:induction false} ColsSplit(line: seq<Byte>, j: nat, k: nat) returns (pre: string, post: string)
    requires j <= k < 16
    ensures |pre| == ColumnStart(k) - ColumnStart(j) && Cols(line, j) == pre + ByteCol(line, k) + post
    decreases k - j
  {
    var more := Cols(line, j + 1);
    if j == k {
      pre, post := "", if j == 7 then " " + more else more;
      SplitHere(ByteCol(line, j), " ", more);
    } else {
      var p;
      p, post := ColsSplit(line, j + 1, k);
      pre := Col(line, j) + p;
      SplitLater(Col(line, j), p, ByteCol(line, k), post);
    }
  }

  lemma SplitHere(a: string, gap: string, b: string)
    ensures a + b == "" + a + b && a + gap + b == "" + a + (gap + b)
  {
  }

  lemma SplitLater(a: string, p: string, x: string, post: string)
    ensures a + (p + x + post) == a + p + x + post
  {
  }

  lemma ColsAt(line: seq<Byte>, j: nat, k: nat)
    requires j <= k < 16
    ensures var p := ColumnStart(k) - ColumnStart(j);
            0 <= p <= p + 3 <= |Cols(line, j)| && Cols(line, j)[p..p + 3] == ByteCol(line, k)
  {
    var pre, post := ColsSplit(line, j, k);
  }

  lemma {:induction false} GroupGap(line: seq<Byte>, j: nat)
    requires j <= 7
    ensures |Cols(line, j)| > 24 - ColumnStart(j) && Cols(line, j)[24 - ColumnStart(j)] == ' '
    decreases 16 - j
  {
    ColsLength(line, j);
    if j < 7 {
      GroupGap(line, j + 1);
    } else {
      assert Col(line, 7) == ByteCol(line, 7) + " ";
      assert Cols(line, 7)[3] == Col(line, 7)[3];
    }
  }

  /** A line is its offset in eight digits, two spaces, sixteen columns, a space and
      the printable text between bars. */
  ghost predicate LaidOut(s: string, off: nat, line: seq<Byte>) {
    && |s| == 62 + |line|
    && (forall i :: 0 <= i < 8 ==> IsHex(s[i])) && HexNumber(s[..8]) == off && s[8] == s[9] == ' '
    && (forall j :: 0 <= j < 16 ==> ColumnReads(s[10 + ColumnStart(j)..13 + ColumnStart(j)], line, j)) && s[34] == ' '
    && s[59] == ' ' && s[60] == '|' && s[|s| - 1] == '|'
    && (forall i :: 0 <= i < |line| ==> s[61 + i] == if ' ' as int <= line[i] <= '~' as int then line[i] as char else '.')
  }

  lemma LineLayout(off: nat, line: seq<Byte>)
    requires off < 0x1_0000_0000 && |line| <= 16
    ensures LaidOut(LineText(off, line), off, line)
  {
    var first: nat :| first == 0;
    OffsetReads(off);
    LineIs(off, line, first);
    ColumnsRead(line, first, Cols(line, first));
    LayoutOf(LineText(off, line), off, line, OffsetText(off), Cols(line, first), Ascii(line));
  }

  lemma ColumnsRead(line: seq<Byte>, first: nat, cols: string)
    requires first == 0 && cols == Cols(line, first)
    ensures |cols| == 49 && cols[24] == ' '
    ensures forall j :: 0 <= j < 16 ==> ColumnReads(cols[ColumnStart(j)..ColumnStart(j) + 3], line, j)
  {
    GapAt(line, first, cols);
    forall j | 0 <= j < 16 ensures ColumnReads(cols[ColumnStart(j)..ColumnStart(j) + 3], line, j) {
      ColumnReadAt(line, first, j, cols, ColumnStart(j));
    }
  }

  lemma GapAt(line: seq<Byte>, first: nat, cols: string)
    requires first == 0 && cols == Cols(line, first)
    ensures |cols| == 49 && cols[24] == ' '
  {
    ColsLength(line, first);
    GroupGap(line, first);
  }

  lemma ColumnReadAt(line: seq<Byte>, first: nat, j: nat, cols: string, p: nat)
    requires first <= j < 16 && cols == Cols(line, first) && p == ColumnStart(j) - ColumnStart(first)
    ensures p + 3 <= |cols| && ColumnReads(cols[p..p + 3], line, j)
  {
    ColsAt(line, first, j);
    ColumnAt(line, j);
    assert cols[p..p + 3] == ByteCol(line, j);
  }

  lemma LayoutOf(s: string, off: nat, line: seq<Byte>, d: string, cols: string, ascii: string)
    requires s == d + "  " + cols + " |" + (ascii + "|")
    requires |d| == 8 && (forall i :: 0 <= i < 8 ==> IsHex(d[i])) && HexNumber(d) == off
    requires |cols| == 49 && cols[24] == ' ' && ascii == Ascii(line)
    requires forall j :: 0 <= j < 16 ==> ColumnReads(cols[ColumnStart(j)..ColumnStart(j) + 3], line, j)
    ensures LaidOut(s, off, line)
  {
    Placed(d, cols, ascii, 0);
    assert forall i :: 0 <= i < |line| ==> ascii[i] == Printable(line[i]);
    forall j | 0 <= j < 16 ensures ColumnReads(s[10 + ColumnStart(j)..13 + ColumnStart(j)], line, j) {
      Placed(d, cols, ascii, ColumnStart(j));
    }
  }

  lemma OffsetReads(off: nat)
    requires off < 0x1_0000_0000
    ensures var d := OffsetText(off); |d| == 8 && (forall i :: 0 <= i < 8 ==> IsHex(d[i])) && HexNumber(d) == off
  {
    EightDigits(off);
    Pow16Of8();
    HexNReads(off, 8);
  }

  lemma LineIs(off: nat, line: seq<Byte>, first: nat)
    requires first == 0
    ensures LineText(off, line) == OffsetText(off) + "  " + Cols(line, first) + " |" + (Ascii(line) + "|")
  {
  }

  lemma Placed(d: string, cols: string, ascii: string, p: nat)
    requires |d| == 8 && |cols| == 49 && p + 3 <= 49
    ensures var s := d + "  " + cols + " |" + (ascii + "|");
            && |s| == 62 + |ascii| && s[..8] == d && s[8] == ' ' == s[9] && s[10 + p..13 + p] == cols[p..p + 3] && s[34] == cols[24]
            && s[59] == ' ' && s[60] == '|' && s[|s| - 1] == '|' && (forall i :: 0 <= i < |ascii| ==> s[61 + i] == ascii[i])
            && (forall i :: 0 <= i < 8 ==> s[i] == d[i])
  {
    var left, right := d + "  " + cols, ascii + "|";
    var s := left + " |" + right;
    assert |left| == 59 && s[..59] == left && s[59..61] == " |" && s[61..] == right;
    assert left[10..] == cols;
  }

  // ----- The worker's renderer -----------------------------------------------

  /** n shifted right by i hex digits. */
  function Shr(n: nat, i: nat): nat { if i == 0 then n else Shr(n, i - 1) / 16 }

  lemma {:induction false} ShrFront(n: nat, i: nat)
    ensures Shr(n, i + 1) == Shr(n / 16, i)
  {
    if i > 0 { ShrFront(n, i - 1); }
  }

  lemma {:induction false} ShrIsZero(n: nat, i: nat)
    requires i > 0
    ensures Shr(n, i) == 0 <==> HexLen(n) <= i
  {
    if i == 1 {
      assert Shr(n, 1) == n / 16;
    } else {
      ShrFront(n, i - 1);
      ShrIsZero(n / 16, i - 1);
      if n < 16 { assert HexLen(n / 16) == 1; }
    }
  }

  /** The width search: the highest non-zero digit above the low eight. */
  method OffsetWidth(off: nat) returns (digits: nat)
    requires off < 0x8000_0000_0000_0000
    ensures digits == |OffsetText(off)|
  {
    digits := 8;
    ShrIsZero(off, 8);
    if Shr(off, 8) != 0 {
      SixteenDigits(off);
      var i := 15;
      while i > 7
        invariant 7 <= i <= 15 && HexLen(off) <= i + 1 && digits == 8
      {
        ShrIsZero(off, i);
        ShrIsZero(off, i + 1);
        if Shr(off, i) % 16 != 0 {
          digits := i + 1;
          return;
        }
        i := i - 1;
      }
    }
  }

  lemma SixteenDigits(off: nat)
    requires off < 0x8000_0000_0000_0000
    ensures HexLen(off) <= 16
  {
    Pow16Of8();
    assert Pow16(12) == 16 * (16 * (16 * (16 * Pow16(8))));
    assert Pow16(16) == 16 * (16 * (16 * (16 * Pow16(12))));
    HexLenBound(off, 16);
  }

  lemma Assoc(a: string, b: string, c: string)
    ensures a + (b + c) == a + b + c
  {
  }

  method WriteOffset(sb: string, off: nat, digits: nat) returns (out: string)
    ensures out == sb + HexN(off, digits)
  {
    out := sb;
    var i := digits;
    while i > 0
      invariant 0 <= i <= digits
      invariant out == sb + HexN(Shr(off, i), digits - i)
    {
      i := i - 1;
      Assoc(sb, HexN(Shr(off, i + 1), digits - i - 1), [Digit(Shr(off, i) % 16)]);
      out := out + [Digit(Shr(off, i) % 16)];
    }
  }

  method WriteColumn(sb: string, line: seq<Byte>, j: nat) returns (out: string)
    ensures out == sb + Col(line, j)
  {
    out := sb;
    if j < |line| {
      var c := line[j];
      out := out + [Digit(c / 16)];
      out := out + [Digit(c % 16)];
      out := out + " ";
    } else {
      out := out + "   ";
    }
    if j == 7 { out := out + " "; }
  }

  method WriteColumns(sb: string, line: seq<Byte>) returns (out: string)
    ensures out == sb + Cols(line, 0)
  {
    out := sb;
    var j := 0;
    while j < 16
      invariant 0 <= j <= 16
      invariant out + Cols(line, j) == sb + Cols(line, 0)
    {
      Assoc(out, Col(line, j), Cols(line, j + 1));
      out := WriteColumn(out, line, j);
      j := j + 1;
    }
  }

  method WriteAscii(sb: string, line: seq<Byte>) returns (out: string)
    ensures out == sb + Ascii(line)
  {
    out := sb;
    var i := 0;
    while i < |line|
      invariant 0 <= i <= |line|
      invariant out == sb + Ascii(line)[..i]
    {
      var c := line[i];
      if c >= 0x20 && c < 0x7f { out := out + [c as char]; } else { out := out + "."; }
      i := i + 1;
    }
  }

  lemma LineGlue(d: string, cols: string, ascii: string)
    ensures d + "  " + cols + " |" + ascii + "|" == d + "  " + cols + " |" + (ascii + "|")
  {
  }

  /** Everything after the offset of one line, up to the line feed. */
  method WriteLine(sb: string, off: nat, line: seq<Byte>) returns (out: string)
    requires sb == OffsetText(off)
    ensures out == LineText(off, line)
  {
    out := sb + "  ";
    out := WriteColumns(out, line);
    out := out + " |";
    out := WriteAscii(out, line);
    out := out + "|";
    LineGlue(OffsetText(off), Cols(line, 0), Ascii(line));
  }

  method WriteWorkerLine(off: nat, line: seq<Byte>) returns (text: string)
    requires off < 0x8000_0000_0000_0000
    ensures text == LineText(off, line)
  {
    var digits := OffsetWidth(off);
    text := WriteOffset("", off, digits);
    assert "" + OffsetText(off) == OffsetText(off);
    text := WriteLine(text, off, line);
  }

  lemma DumpGrows(sb: string, b: seq<Byte>, off: nat, text: string)
    requires off < |b| && text == LineText(off, b[off..Min(off + 16, |b|)])
    ensures sb + text + "\n" + Dump(b, off + 16) == sb + Dump(b, off)
  {
    Assoc(sb, text, "\n");
    Assoc(sb, text + "\n", Dump(b, off + 16));
  }

  method AppendLine(sb: string, b: seq<Byte>, off: nat) returns (out: string)
    requires off < |b| < 0x8000_0000_0000_0000
    ensures out + Dump(b, off + 16) == sb + Dump(b, off)
  {
    var end := off + 16;
    if end > |b| { end := |b|; }
    var text := WriteWorkerLine(off, b[off..end]);
    DumpGrows(sb, b, off, text);
    out := sb + text + "\n";
  }

  method DumpLines(b: seq<Byte>) returns (sb: string)
    requires |b| < 0x8000_0000_0000_0000
    ensures sb == Dump(b, 0)
  {
    sb := "";
    ghost var whole, rest := Dump(b, 0), Dump(b, 0);
    var off := 0;
    while off < |b|
      invariant 0 <= off && rest == Dump(b, off) && sb + rest == whole
    {
      sb := AppendLine(sb, b, off);
      rest := Dump(b, off + 16);
      off := off + 16;
    }
    assert rest == "";
  }

  /** The worker's dump, at most limit bytes of b; lengths are 64-bit ints. */
  method HexDump(b: seq<Byte>, limit: int) returns (sb: string)
    requires |b| < 0x8000_0000_0000_0000
    ensures sb == Dump(if limit <= 0 then [] else b[..Min(limit, |b|)], 0)
  {
    if limit <= 0 || |b| == 0 { return ""; }
    var body := if |b| > limit then b[..limit] else b;
    assert body == b[..Min(limit, |b|)];
    sb := DumpLines(body);
  }

  // ----- The browser's renderer ----------------------------------------------

  /** Number.toString(16). */
  function ToHex(n: nat): string { if n < 16 then [Digit(n)] else ToHex(n / 16) + [Digit(n % 16)] }

  function Zeros(k: nat): string { seq(k, _ => '0') }

  /** String.padStart(8, "0"). */
  function PadStart8(s: string): string { if |s| >= 8 then s else Zeros(8 - |s|) + s }

  lemma {:induction false} ToHexLength(n: nat)
    ensures |ToHex(n)| == HexLen(n)
  {
    if n >= 16 { ToHexLength(n / 16); }
  }

  lemma OneDigit(n: nat, k: nat)
    requires n < 16
    ensures HexN(n, k + 1) == Zeros(k) + [Digit(n)]
  {
    ZeroDigits(k);
    assert n / 16 == 0 && n % 16 == n;
  }

  lemma LastDigit(n: nat, d: nat)
    ensures HexN(n, d + 1) == HexN(n / 16, d) + [Digit(n % 16)]
  {
  }

  lemma {:induction false} ToHexIsHexN(n: nat, k: nat)
    ensures Zeros(k) + ToHex(n) == HexN(n, k + HexLen(n))
  {
    if n < 16 {
      OneDigit(n, k);
    } else {
      ToHexIsHexN(n / 16, k);
      LastDigit(n, k + HexLen(n / 16));
      Assoc(Zeros(k), ToHex(n / 16), [Digit(n % 16)]);
    }
  }

  lemma {:induction false} ZeroDigits(k: nat)
    ensures HexN(0, k) == Zeros(k)
  {
    if k > 0 {
      ZeroDigits(k - 1);
      assert Zeros(k) == Zeros(k - 1) + ['0'];
    }
  }

  lemma PaddedOffset(off: nat)
    ensures PadStart8(ToHex(off)) == OffsetText(off)
  {
    ToHexLength(off);
    ToHexIsHexN(off, 0);
    assert Zeros(0) + ToHex(off) == ToHex(off);
    if HexLen(off) < 8 { ToHexIsHexN(off, 8 - HexLen(off)); }
  }

  function Join(lines: seq<string>): string {
    if lines == [] then ""
    else if |lines| == 1 then lines[0]
    else Join(lines[..|lines| - 1]) + "\n" + lines[|lines| - 1]
  }

  lemma JoinSnoc(lines: seq<string>, line: string)
    ensures Join(lines + [line]) == if lines == [] then line else Join(lines) + "\n" + line
  {
    assert (lines + [line])[..|lines|] == lines;
  }

  /** The text of the lines so far: each one ended by a line feed. */
  function Ended(lines: seq<string>): string { if lines == [] then "" else Join(lines) + "\n" }

  lemma EndedSnoc(lines: seq<string>, line: string, rest: string)
    ensures Ended(lines + [line]) + rest == Ended(lines) + (line + "\n" + rest)
  {
    JoinSnoc(lines, line);
  }

  method PushLine(lines: seq<string>, bytes: seq<Byte>, off: nat) returns (out: seq<string>)
    requires off < |bytes|
    ensures out != [] && Ended(out) + Dump(bytes, off + 16) == Ended(lines) + Dump(bytes, off)
  {
    var line := bytes[off..Min(off + 16, |bytes|)];
    PaddedOffset(off);
    var t := WriteLine(PadStart8(ToHex(off)), off, line);
    EndedSnoc(lines, t, Dump(bytes, off + 16));
    out := lines + [t];
  }

  /** The browser's dump is the worker's, byte for byte. */
  method RenderHexDump(bytes: seq<Byte>) returns (s: string)
    ensures s == Dump(bytes, 0)
  {
    if |bytes| == 0 { return ""; }
    var lines: seq<string> := [];
    ghost var whole, rest := Dump(bytes, 0), Dump(bytes, 0);
    var off := 0;
    while off < |bytes|
      invariant 0 <= off && (off > 0 ==> lines != [])
      invariant rest == Dump(bytes, off) && Ended(lines) + rest == whole
    {
      lines := PushLine(lines, bytes, off);
      rest := Dump(bytes, off + 16);
      off := off + 16;
    }
    assert rest == "";
    s := Join(lines) + "\n";
  }

  // ----- The parser ----------------------------------------------------------

  method ParseHexDump(dump: string) returns (out: seq<Byte>)
    ensures out == ParseDump(dump)
    ensures forall b: seq<Byte> :: |b| <= 0x1_0000_0000 && dump == Dump(b, 0) ==> out == b
  {
    out := [];
    var lines := Split(dump);
    for k := 0 to |lines|
      invariant out == FlatMap(ParseLine, lines[..k])
    {
      var line := lines[k];
      FlatMapSnoc(ParseLine, lines[..k], line);
      assert lines[..k + 1] == lines[..k] + [line];
      if !Blank(line) {
        var hexPart := StripOffset(HexPart(line));
        out := out + HexPairs(hexPart);
      }
    }
    assert lines[..|lines|] == lines;
    forall b: seq<Byte> | |b| <= 0x1_0000_0000 && dump == Dump(b, 0) ensures out == b { RoundTripIff(b); }
  }
}
