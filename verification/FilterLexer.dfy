/** The lexer of the filter language, the spelling of its tokens, and the
    browser's rendering of a picked suggestion. Text is a sequence of single-byte
    characters; case folding is that of ASCII. */
module FilterLexer {
  import opened Basics

  datatype Kind = Ident | String | Number | Op | LParen | RParen | Comma | And | Or | Not

  datatype Token = Token(kind: Kind, val: string)

  /** What strconv.ParseFloat makes of a word. */
  type ParseNumber = string -> Option<real>

  // ----- ASCII folding -------------------------------------------------------

  function LowerChar(c: char): char { if 'A' <= c <= 'Z' then c - 'A' + 'a' else c }

  function Lower(s: string): (r: string)
    ensures |r| == |s|
  {
    seq(|s|, i requires 0 <= i < |s| => LowerChar(s[i]))
  }

  /** The same character, or the two cases of one letter. */
  predicate SameLetter(a: char, b: char) {
    a == b || ('A' <= a <= 'Z' && b as int == a as int + 32) || ('A' <= b <= 'Z' && a as int == b as int + 32)
  }

  /** w stands in s at i, whatever the case. */
  predicate SameAt(s: string, i: nat, w: string) {
    i + |w| <= |s| && forall k :: 0 <= k < |w| ==> SameLetter(s[i + k], w[k])
  }

  predicate SameText(a: string, b: string) { |a| == |b| && SameAt(a, 0, b) }

  predicate Mentions(s: string, w: string) { exists i :: 0 <= i <= |s| && SameAt(s, i, w) }

  lemma LetterFold(a: char, b: char)
    ensures LowerChar(a) == LowerChar(b) <==> SameLetter(a, b)
  {
  }

  /** Folding compares texts letter by letter, whatever the case. */
  lemma FoldAt(s: string, i: nat, w: string)
    requires i + |w| <= |s|
    ensures Lower(s)[i..i + |w|] == Lower(w) <==> SameAt(s, i, w)
  {
    var a, b := Lower(s)[i..i + |w|], Lower(w);
    forall k | 0 <= k < |w| ensures a[k] == b[k] <==> SameLetter(s[i + k], w[k]) { LetterFold(s[i + k], w[k]); }
  }

  lemma FoldText(a: string, b: string)
    ensures Lower(a) == Lower(b) <==> SameText(a, b)
  {
    if |a| == |b| {
      FoldAt(a, 0, b);
      assert Lower(a)[0..|b|] == Lower(a);
    }
  }

  lemma LowerIsLower(w: string)
    requires forall i :: 0 <= i < |w| ==> !('A' <= w[i] <= 'Z')
    ensures Lower(w) == w
  {
  }

  // ----- The lexer as a function of the remaining text -----------------------

  predicate Space(c: char) { c == ' ' || c == '\t' || c == '\n' }

  function Delimiter(c: char): (r: bool)
    ensures r <==> c as int in {9, 10, 32, 33, 34, 39, 40, 41, 44, 60, 61, 62}
  {
    Space(c) || c == '(' || c == ')' || c == '=' || c == '!' || c == '<' || c == '>' || c == '"' || c == '\'' || c == ','
  }

  /** The length of the run of word characters at the front. */
  function WordLength(s: string): (n: nat)
    ensures n <= |s|
  {
    if s == "" || Delimiter(s[0]) then 0 else 1 + WordLength(s[1..])
  }

  function Classify(num: ParseNumber, word: string): Token {
    var low := Lower(word);
    if low == "and" then Token(And, word)
    else if low == "or" then Token(Or, word)
    else if low == "not" then Token(Not, word)
    else if low in {"contains", "matches", "startswith", "in"} then Token(Op, low)
    else if num(word).Some? then Token(Number, word)
    else Token(Ident, word)
  }

  /** A word is a connective or a word operator in any case, else a number exactly
      when the number parser takes it, else a name. */
  lemma ClassifyMeans(num: ParseNumber, word: string)
    ensures var t := Classify(num, word);
            && (t.kind == And <==> SameText(word, "and")) && (t.kind == Or <==> SameText(word, "or"))
            && (t.kind == Not <==> SameText(word, "not"))
            && (t.kind == Op <==> SameText(word, "contains") || SameText(word, "matches") || SameText(word, "startswith") || SameText(word, "in"))
            && (t.kind == Op ==> t.val in {"contains", "matches", "startswith", "in"} && SameText(word, t.val))
            && (t.kind == Number ==> num(word).Some?) && (t.kind == Ident ==> num(word).None?)
            && (t.kind != Op ==> t.val == word) && t.kind in {And, Or, Not, Op, Number, Ident}
  {
    KeywordFold(word, "and");
    KeywordFold(word, "or");
    KeywordFold(word, "not");
    KeywordFold(word, "contains");
    KeywordFold(word, "matches");
    KeywordFold(word, "startswith");
    KeywordFold(word, "in");
  }

  lemma KeywordFold(word: string, key: string)
    requires forall i :: 0 <= i < |key| ==> 'a' <= key[i] <= 'z'
    ensures Lower(word) == key <==> SameText(word, key)
  {
    LowerIsLower(key);
    FoldText(word, key);
  }

  datatype Scanned = Unterminated | Closed(val: string, used: nat)

  /** The string literal at the front, after its opening quote. */
  function Scan(s: string, quote: char): (r: Scanned)
    ensures r.Closed? ==> 0 < r.used <= |s|
    decreases |s|
  {
    if s == "" then Unterminated
    else if s[0] == quote then Closed("", 1)
    else if s[0] == '\\' && |s| > 1 then Push(s[1], 2, Scan(s[2..], quote))
    else Push(s[0], 1, Scan(s[1..], quote))
  }

  function Push(c: char, n: nat, r: Scanned): Scanned {
    if r.Closed? then Closed([c] + r.val, n + r.used) else Unterminated
  }

  predicate TwoCharOp(s: string) { s == "==" || s == "!=" || s == ">=" || s == "<=" }

  datatype Step = Bad | Skip | Emit(t: Token, used: nat)

  function LexStep(num: ParseNumber, s: string): (r: Step)
    requires s != ""
    ensures r.Emit? ==> 0 < r.used <= |s|
  {
    var c := s[0];
    if Space(c) then Skip
    else if c == '(' then Emit(Token(LParen, "("), 1)
    else if c == ')' then Emit(Token(RParen, ")"), 1)
    else if c == ',' then Emit(Token(Comma, ","), 1)
    else if c == '"' || c == '\'' then
      var lit := Scan(s[1..], c);
      if lit.Closed? then Emit(Token(String, lit.val), 1 + lit.used) else Bad
    else if |s| > 1 && TwoCharOp(s[..2]) then Emit(Token(Op, s[..2]), 2)
    else if c == '>' || c == '<' then Emit(Token(Op, [c]), 1)
    else
      var n := WordLength(s);
      if n == 0 then Bad else Emit(Classify(num, s[..n]), n)
  }

  function Lex(num: ParseNumber, s: string): Option<seq<Token>>
    decreases |s|
  {
    if s == "" then Some([])
    else
      var r := LexStep(num, s);
      if r.Bad? then None
      else if r.Skip? then Lex(num, s[1..])
      else Cons([r.t], Lex(num, s[r.used..]))
  }

  function Cons(ts: seq<Token>, r: Option<seq<Token>>): Option<seq<Token>> {
    if r.Some? then Some(ts + r.value) else None
  }

  // ----- The lexer as the hub runs it ----------------------------------------

  /** Reads the literal whose opening quote is at i; next is past its closing one. */
  method ReadQuoted(s: string, i: nat) returns (ok: bool, val: string, next: nat)
    requires i < |s|
    ensures ok == Scan(s[i + 1..], s[i]).Closed?
    ensures ok ==> i + 1 < next <= |s| && Scan(s[i + 1..], s[i]) == Closed(val, next - i - 1)
  {
    var quote, j := s[i], i + 1;
    val := "";
    while j < |s| && s[j] != quote
      invariant i < j <= |s|
      invariant Scan(s[i + 1..], quote) == Resumed(val, j - i - 1, Scan(s[j..], quote))
      decreases |s| - j
    {
      ghost var was, start := val, j;
      if s[j] == '\\' && j + 1 < |s| { j := j + 1; }
      val := val + [s[j]];
      j := j + 1;
      assert s[start..][j - start..] == s[j..];
      ResumePush(was, start - i - 1, s[j - 1], j - start, Scan(s[j..], quote));
    }
    ok, next := j < |s|, j + 1;
  }

  function Resumed(val: string, n: nat, r: Scanned): Scanned {
    if r.Closed? then Closed(val + r.val, n + r.used) else Unterminated
  }

  lemma ResumePush(val: string, n: nat, c: char, k: nat, r: Scanned)
    ensures Resumed(val, n, Push(c, k, r)) == Resumed(val + [c], n + k, r)
  {
    if r.Closed? { assert val + ([c] + r.val) == val + [c] + r.val; }
  }

  method ReadWord(s: string, i: nat) returns (j: nat)
    requires i <= |s|
    ensures i <= j <= |s| && j - i == WordLength(s[i..])
  {
    j := i;
    while j < |s| && !Delimiter(s[j])
      invariant i <= j <= |s|
      invariant WordLength(s[i..]) == j - i + WordLength(s[j..])
    {
      assert s[j..][1..] == s[j + 1..];
      j := j + 1;
    }
  }

  /** One turn of the lexer's switch at position i. */
  method LexAt(num: ParseNumber, s: string, i: nat) returns (r: Step)
    requires i < |s|
    ensures r == LexStep(num, s[i..])
  {
    var c := s[i];
    assert s[i..][1..] == s[i + 1..];
    if Space(c) { return Skip; }
    if c == '(' { return Emit(Token(LParen, "("), 1); }
    if c == ')' { return Emit(Token(RParen, ")"), 1); }
    if c == ',' { return Emit(Token(Comma, ","), 1); }
    if c == '"' || c == '\'' {
      var ok, val, next := ReadQuoted(s, i);
      return if ok then Emit(Token(String, val), next - i) else Bad;
    }
    assert i + 1 < |s| ==> s[i..][..2] == s[i..i + 2];
    if i + 1 < |s| && TwoCharOp(s[i..i + 2]) { return Emit(Token(Op, s[i..i + 2]), 2); }
    if c == '>' || c == '<' { return Emit(Token(Op, [c]), 1); }
    var j := ReadWord(s, i);
    assert s[i..][..j - i] == s[i..j];
    return if j == i then Bad else Emit(Classify(num, s[i..j]), j - i);
  }

  method LexAll(num: ParseNumber, s: string) returns (r: Option<seq<Token>>)
    ensures r == Lex(num, s)
  {
    var toks: seq<Token> := [];
    var i := 0;
    assert s[0..] == s;
    ghost var whole, rest := Lex(num, s), Lex(num, s);
    ConsNil(whole);
    while i < |s|
      invariant 0 <= i <= |s|
      invariant rest == Lex(num, s[i..]) && whole == Cons(toks, rest)
      decreases |s| - i
    {
      var step := LexAt(num, s, i);
      LexAdvance(num, s, i);
      if step.Bad? { return None; }
      if step.Skip? {
        i := i + 1;
      } else {
        var t, used := step.t, step.used;
        ConsCons(toks, t, Lex(num, s[i + used..]));
        toks, i := toks + [t], i + used;
      }
      rest := Lex(num, s[i..]);
    }
    LexEnd(num, s[i..]);
    assert toks + [] == toks;
    r := Some(toks);
  }

  lemma LexEnd(num: ParseNumber, s: string)
    ensures s == "" ==> Lex(num, s) == Some([])
  {
  }

  lemma LexAdvance(num: ParseNumber, s: string, i: nat)
    requires i < |s|
    ensures var r := LexStep(num, s[i..]);
            Lex(num, s[i..]) == if r.Bad? then None else if r.Skip? then Lex(num, s[i + 1..]) else Cons([r.t], Lex(num, s[i + r.used..]))
  {
    var r := LexStep(num, s[i..]);
    LexUnfold(num, s[i..]);
    assert s[i..][1..] == s[i + 1..];
    assert r.Emit? ==> s[i..][r.used..] == s[i + r.used..];
  }

  lemma LexUnfold(num: ParseNumber, s: string)
    requires s != ""
    ensures var r := LexStep(num, s);
            Lex(num, s) == if r.Bad? then None else if r.Skip? then Lex(num, s[1..]) else Cons([r.t], Lex(num, s[r.used..]))
  {
  }

  lemma ConsNil(r: Option<seq<Token>>)
    ensures Cons([], r) == r
  {
    if r.Some? { assert [] + r.value == r.value; }
  }

  lemma ConsCons(ts: seq<Token>, t: Token, r: Option<seq<Token>>)
    ensures Cons(ts, Cons([t], r)) == Cons(ts + [t], r)
  {
    if r.Some? { assert ts + ([t] + r.value) == ts + [t] + r.value; }
  }

  // ----- Spelling tokens -----------------------------------------------------

  function EscapeChar(c: char): string { if c == '"' || c == '\\' then ['\\', c] else [c] }

  /** A backslash before every double quote and every backslash. */
  function Escape(s: string): string { if s == "" then "" else EscapeChar(s[0]) + Escape(s[1..]) }

  function Quote(s: string): string { "\"" + Escape(s) + "\"" }

  datatype Slot = ValueSlot(numeric: bool) | OtherSlot

  /** What the suggestion box splices into the filter for a picked candidate. */
  function RenderInsertion(slot: Slot, text: string): string {
    if slot.ValueSlot? then (if slot.numeric then text else Quote(text)) else text + " "
  }

  lemma {:induction false} ScanEscaped(s: string, rest: string)
    ensures Scan(Escape(s) + "\"" + rest, '"') == Closed(s, |Escape(s)| + 1)
  {
    if s == "" {
      assert (Escape(s) + "\"" + rest)[0] == '"';
    } else {
      ScanEscaped(s[1..], rest);
      EscapeSplits(EscapeChar(s[0]), Escape(s[1..]), rest);
      ScanStep(s[0], Escape(s[1..]) + "\"" + rest);
      assert [s[0]] + s[1..] == s;
    }
  }

  lemma EscapeSplits(a: string, b: string, rest: string)
    ensures a + b + "\"" + rest == a + (b + "\"" + rest)
  {
  }

  lemma ScanStep(c: char, tail: string)
    ensures Scan(EscapeChar(c) + tail, '"') == Push(c, |EscapeChar(c)|, Scan(tail, '"'))
  {
    assert (EscapeChar(c) + tail)[|EscapeChar(c)|..] == tail;
  }

  predicate Bland(s: string, quote: char) { forall i :: 0 <= i < |s| ==> s[i] != quote && s[i] != '\\' }

  /** A literal without its quote and without backslashes stands for itself, in
      either kind of quotes; without its closing quote the text is rejected. */
  lemma {:induction false} ScanBland(s: string, quote: char, rest: string)
    requires Bland(s, quote)
    ensures Scan(s + [quote] + rest, quote) == Closed(s, |s| + 1)
    ensures Scan(s, quote) == Unterminated
  {
    var text := s + [quote] + rest;
    if s == "" {
      assert text[0] == quote;
    } else {
      ScanBland(s[1..], quote, rest);
      assert text[1..] == s[1..] + [quote] + rest;
      assert [s[0]] + s[1..] == s;
    }
  }

  lemma QuotedLexes(num: ParseNumber, s: string, quote: char)
    requires quote as int in {34, 39} && Bland(s, quote)
    ensures Lex(num, [quote] + s + [quote]) == Some([Token(String, s)])
    ensures Lex(num, [quote] + s) == None
  {
    var whole, open := [quote] + s + [quote], [quote] + s;
    ScanBland(s, quote, "");
    assert whole[1..] == s + [quote] + "" && open[1..] == s;
    LexUnfold(num, whole);
    LexUnfold(num, open);
    assert whole[|s| + 2..] == "" && Lex(num, "") == Some([]);
    assert [Token(String, s)] + [] == [Token(String, s)];
  }

  /** What the lexer takes for a word. */
  predicate PlainWord(w: string) { w != "" && forall i :: 0 <= i < |w| ==> !Delimiter(w[i]) }

  predicate Wordlike(t: Token) { t.kind in {Ident, Number, And, Or, Not} || (t.kind == Op && PlainWord(t.val)) }

  /** Tokens the lexer can produce. */
  predicate Spellable(num: ParseNumber, t: Token) {
    match t.kind
    case LParen => t.val == "("
    case RParen => t.val == ")"
    case Comma => t.val == ","
    case String => true
    case Op => TwoCharOp(t.val) || t.val == ">" || t.val == "<" || (PlainWord(t.val) && Classify(num, t.val) == t)
    case _ => PlainWord(t.val) && Classify(num, t.val) == t
  }

  function Spell(t: Token): string { if t.kind == String then Quote(t.val) else t.val }

  /** Where the text after a token may not be mistaken for more of it. */
  predicate Separated(t: Token, rest: string) {
    rest == "" || ((Wordlike(t) ==> Delimiter(rest[0])) && (t.kind == Op && t.val in {">", "<"} ==> rest[0] != '='))
  }

  lemma {:induction false} WordLengthOf(w: string, rest: string)
    requires (forall i :: 0 <= i < |w| ==> !Delimiter(w[i])) && (rest == "" || Delimiter(rest[0]))
    ensures WordLength(w + rest) == |w|
  {
    if w == "" {
      assert w + rest == rest;
    } else {
      assert (w + rest)[1..] == w[1..] + rest;
      WordLengthOf(w[1..], rest);
    }
  }

  lemma StepWord(num: ParseNumber, w: string, rest: string)
    requires PlainWord(w) && (rest == "" || Delimiter(rest[0]))
    ensures LexStep(num, w + rest) == Emit(Classify(num, w), |w|)
  {
    var s := w + rest;
    WordLengthOf(w, rest);
    assert s[0] == w[0] && !Delimiter(w[0]);
    assert |s| > 1 ==> s[..2][0] == w[0];
    assert s[..|w|] == w;
  }

  lemma StepQuoted(num: ParseNumber, v: string, rest: string)
    ensures LexStep(num, Quote(v) + rest) == Emit(Token(String, v), |Quote(v)|)
  {
    var s := Quote(v) + rest;
    assert s[1..] == Escape(v) + "\"" + rest;
    ScanEscaped(v, rest);
  }

  lemma StepSymbol(num: ParseNumber, t: Token, rest: string)
    requires t.kind == Op && (TwoCharOp(t.val) || ((t.val == ">" || t.val == "<") && Separated(t, rest)))
    ensures LexStep(num, t.val + rest) == Emit(t, |t.val|)
  {
    var s := t.val + rest;
    if TwoCharOp(t.val) {
      assert s[..2] == t.val;
    } else {
      assert |s| > 1 ==> s[..2][1] == rest[0];
    }
  }

  /** One spelled token is read back whole. */
  lemma StepSpelled(num: ParseNumber, t: Token, rest: string)
    requires Spellable(num, t) && Separated(t, rest)
    ensures LexStep(num, Spell(t) + rest) == Emit(t, |Spell(t)|)
  {
    if t.kind == String {
      StepQuoted(num, t.val, rest);
    } else if t.kind == Op && !PlainWord(t.val) {
      StepSymbol(num, t, rest);
    } else if Wordlike(t) {
      StepWord(num, t.val, rest);
    }
  }

  lemma LexSpelled(num: ParseNumber, t: Token, rest: string)
    requires Spellable(num, t) && Separated(t, rest)
    ensures Lex(num, Spell(t) + rest) == Cons([t], Lex(num, rest))
  {
    StepSpelled(num, t, rest);
    assert Spell(t) != "";
    LexUnfold(num, Spell(t) + rest);
    assert (Spell(t) + rest)[|Spell(t)|..] == rest;
  }

  /** A literal the browser inserts lexes to that literal, whatever its text. */
  lemma InsertionLexes(num: ParseNumber, text: string)
    ensures Lex(num, RenderInsertion(ValueSlot(false), text)) == Some([Token(String, text)])
  {
    LexSpelled(num, Token(String, text), "");
    assert Quote(text) + "" == Quote(text);
    assert Lex(num, "") == Some([]) && [Token(String, text)] + [] == [Token(String, text)];
  }

  /** A number it inserts stays one word, and a field or an operator is followed by
      a blank that the lexer skips. */
  lemma PlainInsertionLexes(num: ParseNumber, w: string)
    requires PlainWord(w)
    ensures Lex(num, RenderInsertion(ValueSlot(true), w)) == Some([Classify(num, w)])
    ensures Lex(num, RenderInsertion(OtherSlot, w)) == Some([Classify(num, w)])
  {
    var t := Classify(num, w);
    StepWord(num, w, "");
    StepWord(num, w, " ");
    LexUnfold(num, w);
    LexUnfold(num, w + " ");
    LexUnfold(num, " ");
    assert w + "" == w && w[|w|..] == "" && (w + " ")[|w|..] == " " && " "[1..] == "";
    assert Lex(num, "") == Some([]) && [t] + [] == [t];
  }

  // ----- Tokens with space between -------------------------------------------

  predicate Gap(s: string) { forall i :: 0 <= i < |s| ==> Space(s[i]) }

  predicate NeedsGap(t: Token, u: Token) {
    (Wordlike(t) && Wordlike(u)) || (t.kind == Op && t.val in {">", "<"} && u.kind == Op && TwoCharOp(u.val) && u.val[0] == '=')
  }

  /** The tokens, each followed by its gap. */
  function Weave(ts: seq<Token>, gaps: seq<string>): string
    requires |gaps| == |ts|
  {
    if ts == [] then "" else Spell(ts[0]) + (gaps[0] + Weave(ts[1..], gaps[1..]))
  }

  predicate GapFits(ts: seq<Token>, gap: string)
    requires ts != []
  {
    Gap(gap) && (|ts| == 1 ==> gap == "") && (|ts| > 1 && NeedsGap(ts[0], ts[1]) ==> gap != "")
  }

  /** Gaps are blank, present where two tokens would run together, and none
      follows the last token. */
  predicate Spaced(ts: seq<Token>, gaps: seq<string>) {
    |gaps| == |ts| && (ts == [] || (GapFits(ts, gaps[0]) && Spaced(ts[1..], gaps[1..])))
  }

  lemma {:induction false} LexGap(num: ParseNumber, gap: string, rest: string)
    requires Gap(gap)
    ensures Lex(num, gap + rest) == Lex(num, rest)
  {
    if gap == "" {
      assert gap + rest == rest;
    } else {
      assert (gap + rest)[1..] == gap[1..] + rest;
      LexGap(num, gap[1..], rest);
    }
  }

  /** How a spelled token starts. */
  lemma SpellStart(num: ParseNumber, t: Token)
    requires Spellable(num, t)
    ensures Spell(t) != ""
    ensures !Wordlike(t) ==> Delimiter(Spell(t)[0])
    ensures Spell(t)[0] == '=' ==> t.kind == Op && TwoCharOp(t.val)
  {
  }

  lemma GapSeparates(num: ParseNumber, t: Token, gap: string, u: Token, rest: string)
    requires Spellable(num, u) && Gap(gap) && (NeedsGap(t, u) ==> gap != "")
    ensures Separated(t, gap + (Spell(u) + rest))
  {
    SpellStart(num, u);
    var s := gap + (Spell(u) + rest);
    assert s[0] == if gap != "" then gap[0] else Spell(u)[0];
  }

  predicate AllSpellable(num: ParseNumber, ts: seq<Token>) { forall i :: 0 <= i < |ts| ==> Spellable(num, ts[i]) }

  lemma LexOne(num: ParseNumber, t: Token, gap: string, more: string)
    requires Spellable(num, t) && Gap(gap) && Separated(t, gap + more)
    ensures Lex(num, Spell(t) + (gap + more)) == Cons([t], Lex(num, more))
  {
    LexSpelled(num, t, gap + more);
    LexGap(num, gap, more);
  }

  lemma WovenSeparated(num: ParseNumber, ts: seq<Token>, gaps: seq<string>)
    requires AllSpellable(num, ts) && ts != [] && Spaced(ts, gaps)
    ensures Separated(ts[0], gaps[0] + Weave(ts[1..], gaps[1..]))
  {
    var us, hs := ts[1..], gaps[1..];
    if us != [] {
      GapSeparates(num, ts[0], gaps[0], us[0], hs[0] + Weave(us[1..], hs[1..]));
    } else {
      assert gaps[0] + Weave(us, hs) == "";
    }
  }

  /** Woven tokens lex back to themselves, whatever blanks stand between. */
  lemma {:induction false} LexWoven(num: ParseNumber, ts: seq<Token>, gaps: seq<string>)
    requires AllSpellable(num, ts) && Spaced(ts, gaps)
    ensures Lex(num, Weave(ts, gaps)) == Some(ts)
  {
    if ts != [] {
      WovenSeparated(num, ts, gaps);
      LexOne(num, ts[0], gaps[0], Weave(ts[1..], gaps[1..]));
      TailSpellable(num, ts);
      LexWoven(num, ts[1..], gaps[1..]);
      assert [ts[0]] + ts[1..] == ts;
    }
  }

  lemma TailSpellable(num: ParseNumber, ts: seq<Token>)
    requires AllSpellable(num, ts) && ts != []
    ensures AllSpellable(num, ts[1..]) && Spellable(num, ts[0])
  {
  }

  // ----- Trimming ------------------------------------------------------------

  /** What TrimSpace takes off at both ends. */
  predicate White(c: char) { c == ' ' || 9 <= c as int <= 13 }

  function TrimLeft(s: string): string { if s != "" && White(s[0]) then TrimLeft(s[1..]) else s }

  function TrimRight(s: string): string {
    if s != "" && White(s[|s| - 1]) then TrimRight(s[..|s| - 1]) else s
  }

  function TrimSpace(s: string): string { TrimRight(TrimLeft(s)) }

  predicate Blank(s: string) { forall i :: 0 <= i < |s| ==> s[i] as int in {9, 10, 11, 12, 13, 32} }

  lemma {:induction false} TrimLeftOf(lead: string, s: string)
    requires Blank(lead) && (s != "" ==> !White(s[0]))
    ensures TrimLeft(lead + s) == s
  {
    if lead == "" {
      assert lead + s == s;
    } else {
      assert (lead + s)[1..] == lead[1..] + s;
      TrimLeftOf(lead[1..], s);
    }
  }

  lemma {:induction false} TrimRightOf(s: string, trail: string)
    requires Blank(trail) && (s != "" ==> !White(s[|s| - 1]))
    ensures TrimRight(s + trail) == s
  {
    if trail == "" {
      assert s + trail == s;
    } else {
      var n := |trail| - 1;
      assert (s + trail)[..|s| + n] == s + trail[..n];
      assert (s + trail)[|s| + n] == trail[n];
      TrimRightOf(s, trail[..n]);
    }
  }

  lemma TrimOf(lead: string, s: string, trail: string)
    requires Blank(lead) && Blank(trail) && s != "" && !White(s[0]) && !White(s[|s| - 1])
    ensures TrimSpace(lead + s + trail) == s
  {
    assert lead + s + trail == lead + (s + trail);
    assert (s + trail)[0] == s[0];
    TrimLeftOf(lead, s + trail);
    TrimRightOf(s, trail);
  }
}
