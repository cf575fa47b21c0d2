/** Compiling a filter, and printing one: every expression, printed with any
    spacing, compiles exactly when it keeps within the limits, and then to its own
    meaning, with not binding tighter than and, and and tighter than or. */
module FilterCompile {
  import opened Basics
  import opened FilterLexer
  import opened FilterMatch
  import opened FilterParser

  // ----- Compiling -----------------------------------------------------------

  datatype Compiled = Rejected | Everything | Where(x: Expr)

  function Compile(lib: Library, text: string): Compiled {
    var s := TrimSpace(text);
    if s == "" then Everything
    else if |s| > MAX_LENGTH then Rejected
    else
      var toks := Lex(lib.num, s);
      if toks.None? then Rejected
      else
        var p := ParseOr(lib, toks.value, 0);
        if p.Done? && p.rest == [] then Where(p.x) else Rejected
  }

  predicate Selects(lib: Library, c: Compiled, e: Entry) { c.Everything? || (c.Where? && Eval(lib, c.x, e)) }

  method CompileFilter(lib: Library, text: string) returns (r: Option<Pred>)
    requires Sound(lib)
    ensures r.Some? <==> !Compile(lib, text).Rejected?
    ensures r.Some? ==> forall e :: r.value(e) == Selects(lib, Compile(lib, text), e)
  {
    var s := TrimSpace(text);
    if s == "" { return Some(_ => true); }
    if |s| > MAX_LENGTH { return None; }
    var toks := LexAll(lib.num, s);
    if toks.None? { return None; }
    var p := new Parser(lib, toks.value);
    assert p.Rest() == toks.value;
    r := p.DoOr();
    if r.Some? && p.pos != |p.toks| { return None; }
  }

  // ----- Printing ------------------------------------------------------------

  function Prec(x: Expr): nat { if x.Disj? then 0 else if x.Conj? then 1 else 2 }

  const OPEN := Token(LParen, "(")
  const CLOSE := Token(RParen, ")")

  function RelationText(op: Relation): string {
    match op
    case Eq => "==" case Ne => "!=" case Gt => ">" case Lt => "<" case Ge => ">=" case Le => "<="
    case Contains => "contains" case Matches => "matches" case StartsWith => "startswith"
  }

  function LitToken(num: ParseNumber, lit: Lit): Token {
    if lit.Quoted? then Token(String, lit.s) else Classify(num, lit.s)
  }

  function ListTokens(num: ParseNumber, lits: seq<Lit>): seq<Token> {
    if lits == [] then [CLOSE]
    else if |lits| == 1 then [LitToken(num, lits[0]), CLOSE]
    else [LitToken(num, lits[0]), Token(Comma, ",")] + ListTokens(num, lits[1..])
  }

  function LeafTokens(num: ParseNumber, x: Expr): seq<Token>
    requires Leaf(x)
  {
    match x
    case Text(lit) => [LitToken(num, lit)]
    case Cmp(field, op, lit) => [Token(Ident, field), Token(Op, RelationText(op)), LitToken(num, lit)]
    case OneOfList(field, lits) => [Token(Ident, field), Token(Op, "in"), OPEN] + ListTokens(num, lits)
  }

  predicate Leaf(x: Expr) { x.Text? || x.Cmp? || x.OneOfList? }

  /** The tokens of x where an operand of the given precedence is expected;
      parentheses stand only where they are needed. */
  function Tokens(num: ParseNumber, x: Expr, level: nat): seq<Token>
    decreases x, level
  {
    if Prec(x) < level then [OPEN] + Tokens(num, x, 0) + [CLOSE]
    else
      match x
      case Disj(l, r) => Tokens(num, l, 0) + [Token(Or, "or")] + Tokens(num, r, 1)
      case Conj(l, r) => Tokens(num, l, 1) + [Token(And, "and")] + Tokens(num, r, 2)
      case Neg(y) => [Token(Not, "not")] + Tokens(num, y, 2)
      case _ => LeafTokens(num, x)
  }

  /** Bare words and fields are words the lexer takes for words. */
  predicate PlainLit(num: ParseNumber, lit: Lit) {
    lit.Bare? ==> PlainWord(lit.s) && Classify(num, lit.s).kind in {Ident, Number}
  }

  predicate PlainField(num: ParseNumber, field: string) { PlainWord(field) && Classify(num, field) == Token(Ident, field) }

  predicate Printable(num: ParseNumber, x: Expr) {
    match x
    case Disj(l, r) => Printable(num, l) && Printable(num, r)
    case Conj(l, r) => Printable(num, l) && Printable(num, r)
    case Neg(y) => Printable(num, y)
    case Text(lit) => PlainLit(num, lit)
    case Cmp(field, _, lit) => PlainField(num, field) && PlainLit(num, lit)
    case OneOfList(field, lits) => PlainField(num, field) && forall i :: 0 <= i < |lits| ==> PlainLit(num, lits[i])
  }

  // ----- The limits ----------------------------------------------------------

  predicate LeafOk(lib: Library, x: Expr)
    requires Leaf(x)
  {
    match x
    case Text(_) => true
    case Cmp(field, op, lit) => ComparisonOk(lib, field, op, lit.s)
    case OneOfList(field, lits) => Known(lib, field) && 1 <= |lits| <= 64
  }

  /** Nesting, counted from d, stays within the depth limit, and every leaf
      compiles. */
  predicate Fits(lib: Library, x: Expr, level: nat, d: nat)
    decreases x, level
  {
    if Prec(x) < level then d + 1 <= 64 && Fits(lib, x, 0, d + 1)
    else
      match x
      case Disj(l, r) => Fits(lib, l, 0, d) && Fits(lib, r, 1, d)
      case Conj(l, r) => Fits(lib, l, 1, d) && Fits(lib, r, 2, d)
      case Neg(y) => d + 1 <= 64 && Fits(lib, y, 2, d + 1)
      case _ => LeafOk(lib, x)
  }

  // ----- Parsing printed tokens ----------------------------------------------

  /** What may follow an operand. */
  predicate Stops(rest: seq<Token>) { rest == [] || rest[0].kind in {And, Or, RParen} }

  lemma LitTokenOf(num: ParseNumber, lit: Lit)
    requires PlainLit(num, lit)
    ensures IsValue(LitToken(num, lit).kind) && LitOf(LitToken(num, lit)) == lit && LitToken(num, lit).val == lit.s
  {
  }

  lemma RelationRoundTrip(op: Relation)
    ensures RelationOf(RelationText(op)) == Some(op) && RelationText(op) != "in"
  {
  }

  lemma LastValue(t: Token, n: nat, rest: seq<Token>)
    requires IsValue(t.kind)
    ensures ParseList([t, CLOSE] + rest, n) == if n + 1 > MAX_VALUES then BadList else Listed([LitOf(t)], rest)
  {
    var ts := [t, CLOSE] + rest;
    assert ts[1..][0] == CLOSE && ts[2..] == rest;
  }

  lemma NextValue(t: Token, n: nat, more: seq<Token>)
    requires IsValue(t.kind)
    ensures ParseList([t, Token(Comma, ",")] + more, n) ==
            if n + 1 > MAX_VALUES then BadList else After([LitOf(t)], ParseList(more, n + 1))
  {
    var ts := [t, Token(Comma, ",")] + more;
    assert ts[1..][0].kind == Comma && ts[2..] == more;
  }

  lemma NoValues(rest: seq<Token>, n: nat)
    ensures ParseList([CLOSE] + rest, n) == BadList
  {
    assert ([CLOSE] + rest)[0] == CLOSE;
  }

  lemma ListSplit(num: ParseNumber, lits: seq<Lit>, rest: seq<Token>)
    requires |lits| > 1
    ensures ListTokens(num, lits) + rest ==
            [LitToken(num, lits[0]), Token(Comma, ",")] + (ListTokens(num, lits[1..]) + rest)
  {
  }

  lemma {:induction false} ListParses(num: ParseNumber, lits: seq<Lit>, n: nat, rest: seq<Token>)
    requires forall i :: 0 <= i < |lits| ==> PlainLit(num, lits[i])
    ensures ParseList(ListTokens(num, lits) + rest, n) ==
            if 1 <= |lits| <= MAX_VALUES - n then Listed(lits, rest) else BadList
  {
    if lits == [] {
      NoValues(rest, n);
      return;
    }
    var t := LitToken(num, lits[0]);
    LitTokenOf(num, lits[0]);
    if |lits| == 1 {
      assert ListTokens(num, lits) == [t, CLOSE];
      LastValue(t, n, rest);
      assert lits == [lits[0]];
    } else {
      var more := ListTokens(num, lits[1..]) + rest;
      ListSplit(num, lits, rest);
      NextValue(t, n, more);
      ListParses(num, lits[1..], n + 1, rest);
      assert lits == [lits[0]] + lits[1..];
    }
  }

  lemma CmpParses(lib: Library, field: string, op: Relation, lit: Lit, rest: seq<Token>)
    requires PlainLit(lib.num, lit)
    ensures ParseLeaf(lib, LeafTokens(lib.num, Cmp(field, op, lit)) + rest) ==
            if ComparisonOk(lib, field, op, lit.s) then Done(Cmp(field, op, lit), rest) else Fail
  {
    var ts := LeafTokens(lib.num, Cmp(field, op, lit)) + rest;
    LitTokenOf(lib.num, lit);
    RelationRoundTrip(op);
    assert ts[2..] == [LitToken(lib.num, lit)] + rest;
    assert ts[2..][1..] == rest;
  }

  lemma InParses(lib: Library, field: string, lits: seq<Lit>, rest: seq<Token>)
    requires forall i :: 0 <= i < |lits| ==> PlainLit(lib.num, lits[i])
    ensures ParseLeaf(lib, LeafTokens(lib.num, OneOfList(field, lits)) + rest) ==
            if LeafOk(lib, OneOfList(field, lits)) then Done(OneOfList(field, lits), rest) else Fail
  {
    var ts := LeafTokens(lib.num, OneOfList(field, lits)) + rest;
    assert ts[2..] == [OPEN] + (ListTokens(lib.num, lits) + rest);
    assert ts[2..][1..] == ListTokens(lib.num, lits) + rest;
    ListParses(lib.num, lits, 0, rest);
  }

  lemma TextParses(lib: Library, lit: Lit, rest: seq<Token>)
    requires PlainLit(lib.num, lit) && Stops(rest)
    ensures ParseLeaf(lib, [LitToken(lib.num, lit)] + rest) == Done(Text(lit), rest)
  {
    LitTokenOf(lib.num, lit);
    var ts := [LitToken(lib.num, lit)] + rest;
    assert ts[1..] == rest;
    assert |ts| > 1 ==> ts[1] == rest[0];
  }

  function LeafResult(lib: Library, x: Expr, rest: seq<Token>): Parsed
    requires Leaf(x)
  {
    if LeafOk(lib, x) then Done(x, rest) else Fail
  }

  lemma LeafParses(lib: Library, x: Expr, rest: seq<Token>)
    requires Leaf(x) && Printable(lib.num, x) && Stops(rest)
    ensures ParseLeaf(lib, LeafTokens(lib.num, x) + rest) == LeafResult(lib, x, rest)
  {
    match x
    case Text(lit) => TextParses(lib, lit, rest);
    case Cmp(field, op, lit) => CmpParses(lib, field, op, lit, rest);
    case OneOfList(field, lits) => InParses(lib, field, lits, rest);
  }

  lemma LeafUnary(lib: Library, ts: seq<Token>, d: nat)
    requires ts != [] && IsValue(ts[0].kind)
    ensures ParseUnary(lib, ts, d) == ParseLeaf(lib, ts)
  {
    assert ParsePrimary(lib, ts, d) == ParseLeaf(lib, ts);
  }

  lemma LeafStart(num: ParseNumber, x: Expr)
    requires Leaf(x) && Printable(num, x)
    ensures LeafTokens(num, x) != [] && IsValue(LeafTokens(num, x)[0].kind)
  {
    if x.Text? { LitTokenOf(num, x.lit); }
  }

  lemma ParensUnary(lib: Library, ts: seq<Token>, d: nat)
    ensures ParseUnary(lib, [OPEN] + ts, d) ==
            if d + 1 > MAX_DEPTH then Fail else Closing(ParseOr(lib, ts, d + 1))
  {
    assert ([OPEN] + ts)[1..] == ts;
    assert ParseUnary(lib, [OPEN] + ts, d) == ParsePrimary(lib, [OPEN] + ts, d);
  }

  function Closing(p: Parsed): Parsed {
    if p.Done? && Head(p.rest) == RParen then Done(p.x, p.rest[1..]) else Fail
  }

  lemma NotUnary(lib: Library, ts: seq<Token>, d: nat)
    ensures ParseUnary(lib, [Token(Not, "not")] + ts, d) ==
            if d + 1 > MAX_DEPTH then Fail else Negated(ParseUnary(lib, ts, d + 1))
  {
    assert ([Token(Not, "not")] + ts)[1..] == ts;
  }

  function Negated(p: Parsed): Parsed { if p.Done? then Done(Neg(p.x), p.rest) else Fail }

  lemma OrLoopTurn(lib: Library, x: Expr, ts: seq<Token>, d: nat)
    ensures var p := ParseAnd(lib, ts, d);
            OrLoop(lib, x, [Token(Or, "or")] + ts, d) ==
            if p.Done? then OrLoop(lib, Disj(x, p.x), p.rest, d) else Fail
  {
    assert ([Token(Or, "or")] + ts)[1..] == ts;
  }

  lemma AndLoopTurn(lib: Library, x: Expr, ts: seq<Token>, d: nat)
    ensures var p := ParseUnary(lib, ts, d);
            AndLoop(lib, x, [Token(And, "and")] + ts, d) ==
            if p.Done? then AndLoop(lib, Conj(x, p.x), p.rest, d) else Fail
  {
    assert ([Token(And, "and")] + ts)[1..] == ts;
  }

  lemma LoopsEnd(lib: Library, x: Expr, rest: seq<Token>, d: nat)
    ensures Head(rest) != And ==> AndLoop(lib, x, rest, d) == Done(x, rest)
    ensures Head(rest) != Or ==> OrLoop(lib, x, rest, d) == Done(x, rest)
  {
  }

  /** Where a unary operand is expected. */
  function UnaryResult(lib: Library, x: Expr, d: nat, rest: seq<Token>): Parsed {
    if Fits(lib, x, 2, d) then Done(x, rest) else Fail
  }

  /** Where a conjunction is expected: what follows may add to it. */
  function AndResult(lib: Library, x: Expr, d: nat, rest: seq<Token>): Parsed {
    if Fits(lib, x, 1, d) then AndLoop(lib, x, rest, d) else Fail
  }

  function OrResult(lib: Library, x: Expr, d: nat, rest: seq<Token>): Parsed {
    if Fits(lib, x, 0, d) then OrLoop(lib, x, rest, d) else Fail
  }

  lemma InParens(num: ParseNumber, x: Expr, level: nat, rest: seq<Token>)
    requires Prec(x) < level
    ensures Tokens(num, x, level) + rest == [OPEN] + (Tokens(num, x, 0) + ([CLOSE] + rest))
  {
  }

  lemma ParenthesesParse(lib: Library, x: Expr, level: nat, d: nat, rest: seq<Token>)
    requires Prec(x) < level
    requires d + 1 <= MAX_DEPTH ==>
      ParseOr(lib, Tokens(lib.num, x, 0) + ([CLOSE] + rest), d + 1) == OrResult(lib, x, d + 1, [CLOSE] + rest)
    ensures ParseUnary(lib, Tokens(lib.num, x, level) + rest, d) == if Fits(lib, x, level, d) then Done(x, rest) else Fail
  {
    var inner := Tokens(lib.num, x, 0) + ([CLOSE] + rest);
    InParens(lib.num, x, level, rest);
    ParensUnary(lib, inner, d);
    LoopsEnd(lib, x, [CLOSE] + rest, d + 1);
    assert ([CLOSE] + rest)[1..] == rest;
  }

  lemma LeafUnaryParses(lib: Library, x: Expr, d: nat, rest: seq<Token>)
    requires Leaf(x) && Printable(lib.num, x) && Stops(rest)
    ensures ParseUnary(lib, Tokens(lib.num, x, 2) + rest, d) == UnaryResult(lib, x, d, rest)
  {
    LeafParses(lib, x, rest);
    LeafStart(lib.num, x);
    LeafUnary(lib, LeafTokens(lib.num, x) + rest, d);
  }

  lemma NegParses(lib: Library, y: Expr, ts: seq<Token>, d: nat, rest: seq<Token>)
    requires ParseUnary(lib, ts, d + 1) == UnaryResult(lib, y, d + 1, rest)
    ensures ParseUnary(lib, [Token(Not, "not")] + ts, d) == UnaryResult(lib, Neg(y), d, rest)
  {
    NotUnary(lib, ts, d);
  }

  lemma NegTokens(num: ParseNumber, y: Expr, rest: seq<Token>)
    ensures Tokens(num, Neg(y), 2) + rest == [Token(Not, "not")] + (Tokens(num, y, 2) + rest)
  {
  }

  lemma {:induction false} UnaryParses(lib: Library, x: Expr, d: nat, rest: seq<Token>)
    requires Printable(lib.num, x) && Stops(rest)
    ensures ParseUnary(lib, Tokens(lib.num, x, 2) + rest, d) == UnaryResult(lib, x, d, rest)
    decreases x, if Prec(x) < 2 then 3 else 0
  {
    var num := lib.num;
    if Prec(x) < 2 {
      OrParses(lib, x, d + 1, [CLOSE] + rest);
      ParenthesesParse(lib, x, 2, d, rest);
    } else if x.Neg? {
      UnaryParses(lib, x.x, d + 1, rest);
      NegTokens(num, x.x, rest);
      NegParses(lib, x.x, Tokens(num, x.x, 2) + rest, d, rest);
    } else {
      LeafUnaryParses(lib, x, d, rest);
    }
  }

  lemma AndOfUnary(lib: Library, x: Expr, ts: seq<Token>, d: nat, rest: seq<Token>)
    requires Prec(x) != 1 && ParseUnary(lib, ts, d) == if Fits(lib, x, 1, d) then Done(x, rest) else Fail
    ensures ParseAnd(lib, ts, d) == AndResult(lib, x, d, rest)
  {
  }

  lemma LevelsMeet(lib: Library, x: Expr, d: nat)
    ensures Prec(x) == 2 ==> Tokens(lib.num, x, 1) == Tokens(lib.num, x, 2) && Fits(lib, x, 1, d) == Fits(lib, x, 2, d)
    ensures Prec(x) >= 1 ==> Tokens(lib.num, x, 0) == Tokens(lib.num, x, 1) && Fits(lib, x, 0, d) == Fits(lib, x, 1, d)
  {
  }

  lemma Assoc(a: seq<Token>, b: seq<Token>, c: seq<Token>, d: seq<Token>)
    ensures a + b + c + d == a + (b + (c + d))
  {
  }

  lemma ConjTokens(num: ParseNumber, l: Expr, r: Expr, rest: seq<Token>)
    ensures Tokens(num, Conj(l, r), 1) + rest == Tokens(num, l, 1) + ([Token(And, "and")] + (Tokens(num, r, 2) + rest))
  {
    Assoc(Tokens(num, l, 1), [Token(And, "and")], Tokens(num, r, 2), rest);
  }

  lemma DisjTokens(num: ParseNumber, l: Expr, r: Expr, rest: seq<Token>)
    ensures Tokens(num, Disj(l, r), 0) + rest == Tokens(num, l, 0) + ([Token(Or, "or")] + (Tokens(num, r, 1) + rest))
  {
    Assoc(Tokens(num, l, 0), [Token(Or, "or")], Tokens(num, r, 1), rest);
  }

  lemma ConjParses(lib: Library, l: Expr, r: Expr, d: nat, rest: seq<Token>)
    requires ParseUnary(lib, Tokens(lib.num, r, 2) + rest, d) == UnaryResult(lib, r, d, rest)
    ensures var more := [Token(And, "and")] + (Tokens(lib.num, r, 2) + rest);
            AndResult(lib, l, d, more) == AndResult(lib, Conj(l, r), d, rest)
  {
    AndLoopTurn(lib, l, Tokens(lib.num, r, 2) + rest, d);
  }

  lemma {:induction false} AndParses(lib: Library, x: Expr, d: nat, rest: seq<Token>)
    requires Printable(lib.num, x) && Stops(rest)
    ensures ParseAnd(lib, Tokens(lib.num, x, 1) + rest, d) == AndResult(lib, x, d, rest)
    decreases x, if Prec(x) == 0 then 4 else 1
  {
    var num := lib.num;
    if x.Disj? {
      OrParses(lib, x, d + 1, [CLOSE] + rest);
      ParenthesesParse(lib, x, 1, d, rest);
      AndOfUnary(lib, x, Tokens(num, x, 1) + rest, d, rest);
    } else if x.Conj? {
      var more := [Token(And, "and")] + (Tokens(num, x.r, 2) + rest);
      ConjTokens(num, x.l, x.r, rest);
      AndParses(lib, x.l, d, more);
      UnaryParses(lib, x.r, d, rest);
      ConjParses(lib, x.l, x.r, d, rest);
    } else {
      LevelsMeet(lib, x, d);
      UnaryParses(lib, x, d, rest);
      AndOfUnary(lib, x, Tokens(num, x, 1) + rest, d, rest);
    }
  }

  lemma DisjParses(lib: Library, l: Expr, r: Expr, d: nat, rest: seq<Token>)
    requires Head(rest) != And
    requires ParseAnd(lib, Tokens(lib.num, r, 1) + rest, d) == AndResult(lib, r, d, rest)
    ensures var more := [Token(Or, "or")] + (Tokens(lib.num, r, 1) + rest);
            OrResult(lib, l, d, more) == OrResult(lib, Disj(l, r), d, rest)
  {
    OrLoopTurn(lib, l, Tokens(lib.num, r, 1) + rest, d);
    LoopsEnd(lib, r, rest, d);
  }

  lemma OrOfAnd(lib: Library, x: Expr, ts: seq<Token>, d: nat, rest: seq<Token>)
    requires Head(rest) != And && Fits(lib, x, 0, d) == Fits(lib, x, 1, d) && ParseAnd(lib, ts, d) == AndResult(lib, x, d, rest)
    ensures ParseOr(lib, ts, d) == OrResult(lib, x, d, rest)
  {
    LoopsEnd(lib, x, rest, d);
  }

  lemma {:induction false} OrParses(lib: Library, x: Expr, d: nat, rest: seq<Token>)
    requires Printable(lib.num, x) && Stops(rest) && Head(rest) != And
    ensures ParseOr(lib, Tokens(lib.num, x, 0) + rest, d) == OrResult(lib, x, d, rest)
    decreases x, 2
  {
    var num := lib.num;
    if x.Disj? {
      var more := [Token(Or, "or")] + (Tokens(num, x.r, 1) + rest);
      DisjTokens(num, x.l, x.r, rest);
      OrParses(lib, x.l, d, more);
      AndParses(lib, x.r, d, rest);
      DisjParses(lib, x.l, x.r, d, rest);
    } else {
      LevelsMeet(lib, x, d);
      AndParses(lib, x, d, rest);
      OrOfAnd(lib, x, Tokens(num, x, 0) + rest, d, rest);
    }
  }

  /** Printed tokens parse back to the expression, all of them consumed, exactly
      when it keeps within the limits. */
  lemma PrintedParses(lib: Library, x: Expr)
    requires Printable(lib.num, x)
    ensures ParseOr(lib, Tokens(lib.num, x, 0), 0) == if Fits(lib, x, 0, 0) then Done(x, []) else Fail
  {
    OrParses(lib, x, 0, []);
    LoopsEnd(lib, x, [], 0);
    assert Tokens(lib.num, x, 0) + [] == Tokens(lib.num, x, 0);
  }

  // ----- From text to meaning ------------------------------------------------

  lemma SpellableConcat(num: ParseNumber, a: seq<Token>, b: seq<Token>)
    requires AllSpellable(num, a) && AllSpellable(num, b)
    ensures AllSpellable(num, a + b)
  {
  }

  lemma OneSpellable(num: ParseNumber, t: Token)
    requires Spellable(num, t)
    ensures AllSpellable(num, [t])
  {
  }

  lemma LitSpellable(num: ParseNumber, lit: Lit)
    requires PlainLit(num, lit)
    ensures Spellable(num, LitToken(num, lit))
  {
  }

  lemma {:induction false} ListSpellable(num: ParseNumber, lits: seq<Lit>)
    requires forall i :: 0 <= i < |lits| ==> PlainLit(num, lits[i])
    ensures AllSpellable(num, ListTokens(num, lits))
  {
    if lits != [] {
      LitSpellable(num, lits[0]);
      ListSpellable(num, lits[1..]);
    }
  }

  lemma LowerWord(w: string)
    requires forall i :: 0 <= i < |w| ==> 'a' <= w[i] <= 'z'
    ensures Lower(w) == w && (w != "" ==> PlainWord(w))
  {
  }

  lemma WordOperator(num: ParseNumber, w: string)
    requires w == "contains" || w == "matches" || w == "startswith" || w == "in"
    ensures Spellable(num, Token(Op, w))
  {
    LowerWord(w);
  }

  lemma ConnectiveWords(num: ParseNumber)
    ensures Spellable(num, Token(Or, "or")) && Spellable(num, Token(And, "and")) && Spellable(num, Token(Not, "not"))
  {
    LowerWord("or");
    LowerWord("and");
    LowerWord("not");
  }

  lemma RelationSpellable(num: ParseNumber, op: Relation)
    ensures Spellable(num, Token(Op, RelationText(op)))
  {
    if op == Relation.Contains || op == Matches || op == StartsWith { WordOperator(num, RelationText(op)); }
  }

  lemma LeafSpellable(num: ParseNumber, x: Expr)
    requires Leaf(x) && Printable(num, x)
    ensures AllSpellable(num, LeafTokens(num, x))
  {
    match x
    case Text(lit) => LitSpellable(num, lit);
    case Cmp(field, op, lit) =>
      LitSpellable(num, lit);
      RelationSpellable(num, op);
    case OneOfList(field, lits) =>
      ListSpellable(num, lits);
      WordOperator(num, "in");
      SpellableConcat(num, [Token(Ident, field), Token(Op, "in"), OPEN], ListTokens(num, lits));
  }

  lemma JoinSpellable(num: ParseNumber, a: seq<Token>, t: Token, b: seq<Token>)
    requires AllSpellable(num, a) && Spellable(num, t) && AllSpellable(num, b)
    ensures AllSpellable(num, a + [t] + b)
  {
    OneSpellable(num, t);
    SpellableConcat(num, a, [t]);
    SpellableConcat(num, a + [t], b);
  }

  lemma {:induction false} TokensSpellable(num: ParseNumber, x: Expr, level: nat)
    requires Printable(num, x)
    ensures Tokens(num, x, level) != [] && AllSpellable(num, Tokens(num, x, level))
    decreases x, level
  {
    if Prec(x) < level {
      TokensSpellable(num, x, 0);
      SpellableConcat(num, [OPEN], Tokens(num, x, 0));
      SpellableConcat(num, [OPEN] + Tokens(num, x, 0), [CLOSE]);
    } else if Leaf(x) {
      LeafSpellable(num, x);
      LeafStart(num, x);
    } else if x.Neg? {
      ConnectiveWords(num);
      TokensSpellable(num, x.x, 2);
      SpellableConcat(num, [Token(Not, "not")], Tokens(num, x.x, 2));
    } else {
      var p := Prec(x);
      ConnectiveWords(num);
      TokensSpellable(num, x.l, p);
      TokensSpellable(num, x.r, p + 1);
      JoinSpellable(num, Tokens(num, x.l, p), if x.Disj? then Token(Or, "or") else Token(And, "and"), Tokens(num, x.r, p + 1));
    }
  }

  /** No white space at the edges, where trimming would take it off a word. */
  predicate Trimmed(text: string) { text != "" ==> !White(text[0]) && !White(text[|text| - 1]) }

  /** An expression, printed with whatever blanks between and around its tokens,
      compiles exactly when its text, its nesting and its leaves keep the limits,
      and then selects exactly the entries the expression means. */
  lemma PrintedCompiles(lib: Library, x: Expr, gaps: seq<string>, lead: string, trail: string)
    requires Printable(lib.num, x) && Spaced(Tokens(lib.num, x, 0), gaps) && Blank(lead) && Blank(trail)
    requires Trimmed(Weave(Tokens(lib.num, x, 0), gaps))
    ensures var text := Weave(Tokens(lib.num, x, 0), gaps);
            Compile(lib, lead + text + trail) ==
            if |text| <= 4096 && Fits(lib, x, 0, 0) then Where(x) else Rejected
  {
    TokensSpellable(lib.num, x, 0);
    WovenCompiles(lib, Tokens(lib.num, x, 0), gaps, lead, trail);
    PrintedParses(lib, x);
  }

  /** Compiling woven tokens is parsing them, if the text is not too long. */
  lemma WovenCompiles(lib: Library, ts: seq<Token>, gaps: seq<string>, lead: string, trail: string)
    requires ts != [] && AllSpellable(lib.num, ts) && Spaced(ts, gaps) && Blank(lead) && Blank(trail) && Trimmed(Weave(ts, gaps))
    ensures Compile(lib, lead + Weave(ts, gaps) + trail) ==
            var p := ParseOr(lib, ts, 0);
            if |Weave(ts, gaps)| <= MAX_LENGTH && p.Done? && p.rest == [] then Where(p.x) else Rejected
  {
    SpellStart(lib.num, ts[0]);
    assert Weave(ts, gaps) != "";
    TrimOf(lead, Weave(ts, gaps), trail);
    LexWoven(lib.num, ts, gaps);
    CompileTrimmed(lib, lead + Weave(ts, gaps) + trail, Weave(ts, gaps), ts);
  }

  lemma CompileTrimmed(lib: Library, padded: string, text: string, ts: seq<Token>)
    requires TrimSpace(padded) == text != "" && Lex(lib.num, text) == Some(ts)
    ensures Compile(lib, padded) ==
            var p := ParseOr(lib, ts, 0);
            if |text| <= MAX_LENGTH && p.Done? && p.rest == [] then Where(p.x) else Rejected
  {
  }

  // ----- From text to text ---------------------------------------------------

  /** Two woven token lists with a gap between them. */
  lemma {:induction false} WeaveJoin(ts: seq<Token>, gaps: seq<string>, g: string, us: seq<Token>, hs: seq<string>)
    requires ts != [] && us != [] && Spaced(ts, gaps) && Spaced(us, hs) && Gap(g) && g != ""
    ensures var all := gaps[..|gaps| - 1] + [g] + hs;
            Spaced(ts + us, all) && Weave(ts + us, all) == Weave(ts, gaps) + g + Weave(us, hs)
  {
    if |ts| == 1 {
      JoinLast(ts[0], gaps[0], g, us, hs);
      assert ts == [ts[0]] && gaps == [""] && gaps[..0] + [g] + hs == [g] + hs;
    } else {
      var more := gaps[1..][..|gaps| - 2] + [g] + hs;
      WeaveJoin(ts[1..], gaps[1..], g, us, hs);
      GapsJoin(gaps, g, hs);
      TokensJoin(ts, us);
      JoinMore(ts[0], gaps[0], ts[1..] + us, more);
      JoinText(Spell(ts[0]), gaps[0], Weave(ts[1..], gaps[1..]), g, Weave(us, hs));
    }
  }

  lemma GapsJoin(gaps: seq<string>, g: string, hs: seq<string>)
    requires |gaps| > 1
    ensures gaps[..|gaps| - 1] + [g] + hs == [gaps[0]] + (gaps[1..][..|gaps| - 2] + [g] + hs)
  {
  }

  lemma TokensJoin(ts: seq<Token>, us: seq<Token>)
    requires |ts| > 1
    ensures ts + us == [ts[0]] + (ts[1..] + us) && (ts[1..] + us)[0] == ts[1]
  {
  }

  lemma JoinLast(t: Token, gap: string, g: string, us: seq<Token>, hs: seq<string>)
    requires us != [] && gap == "" && Spaced(us, hs) && Gap(g) && g != ""
    ensures Spaced([t] + us, [g] + hs) && Weave([t] + us, [g] + hs) == Weave([t], [gap]) + g + Weave(us, hs)
  {
    JoinMore(t, g, us, hs);
    assert Weave([t], [gap]) == Spell(t) + ("" + "") == Spell(t);
    assert Spell(t) + (g + Weave(us, hs)) == Spell(t) + g + Weave(us, hs);
  }

  lemma JoinMore(t: Token, g: string, us: seq<Token>, hs: seq<string>)
    requires us != [] && Spaced(us, hs) && Gap(g) && (NeedsGap(t, us[0]) ==> g != "")
    ensures Spaced([t] + us, [g] + hs) && Weave([t] + us, [g] + hs) == Spell(t) + (g + Weave(us, hs))
  {
    assert ([t] + us)[1..] == us && ([g] + hs)[1..] == hs;
  }

  lemma JoinText(a: string, b: string, c: string, d: string, e: string)
    ensures a + (b + (c + d + e)) == a + (b + c) + d + e
  {
  }

  /** A text of x where an operand of the given precedence may stand. */
  ghost predicate Prints(num: ParseNumber, x: Expr, level: nat, text: string) {
    Printable(num, x) && exists gaps :: PrintsWith(num, x, level, gaps, text)
  }

  ghost predicate PrintsWith(num: ParseNumber, x: Expr, level: nat, gaps: seq<string>, text: string) {
    Spaced(Tokens(num, x, level), gaps) && text == Weave(Tokens(num, x, level), gaps) && Trimmed(text)
  }

  lemma Between(num: ParseNumber, l: Expr, ll: nat, t: Token, r: Expr, rl: nat, a: string, b: string)
    returns (gaps: seq<string>)
    requires Prints(num, l, ll, a) && Prints(num, r, rl, b) && t.kind != String
    ensures WovenAs(Tokens(num, l, ll) + [t] + Tokens(num, r, rl), gaps, a + " " + t.val + " " + b)
  {
    var ts, us := Tokens(num, l, ll), Tokens(num, r, rl);
    var ga :| PrintsWith(num, l, ll, ga, a);
    var gb :| PrintsWith(num, r, rl, gb, b);
    PrintedSome(num, l, ll, ga);
    PrintedSome(num, r, rl, gb);
    JoinMore(t, " ", us, gb);
    WeaveJoin(ts, ga, " ", [t] + us, [" "] + gb);
    gaps := ga[..|ga| - 1] + [" "] + ([" "] + gb);
    assert ts + ([t] + us) == ts + [t] + us;
    BetweenText(a, t.val, b);
  }

  lemma Before(num: ParseNumber, y: Expr, a: string) returns (gaps: seq<string>)
    requires Prints(num, y, 2, a)
    ensures WovenAs([Token(Not, "not")] + Tokens(num, y, 2), gaps, "not " + a)
  {
    var ga :| PrintsWith(num, y, 2, ga, a);
    PrintedSome(num, y, 2, ga);
    JoinMore(Token(Not, "not"), " ", Tokens(num, y, 2), ga);
    gaps := [" "] + ga;
    SpelledNot(a);
  }

  lemma SpelledNot(a: string)
    requires a != "" && Trimmed(a)
    ensures "not" + (" " + a) == "not " + a && Trimmed("not " + a)
  {
    var text := "not " + a;
    assert text[|text| - 1] == a[|a| - 1];
  }

  lemma Spelled(a: string, b: string)
    ensures a + " " + "or" + " " + b == a + " or " + b
    ensures a + " " + "and" + " " + b == a + " and " + b
  {
    assert a + " " + "or" + " " == a + " or ";
    assert a + " " + "and" + " " == a + " and ";
  }

  lemma BetweenText(a: string, w: string, b: string)
    requires a != "" && b != "" && Trimmed(a) && Trimmed(b)
    ensures Trimmed(a + " " + w + " " + b) && a + " " + (w + (" " + b)) == a + " " + w + " " + b
  {
    Ends(a, w, b);
  }

  lemma TextCompiles(lib: Library, x: Expr, gaps: seq<string>, text: string)
    requires Printable(lib.num, x) && PrintsWith(lib.num, x, 0, gaps, text)
    ensures Compile(lib, text) == if |text| <= 4096 && Fits(lib, x, 0, 0) then Where(x) else Rejected
  {
    Unpadded(text);
    PrintedCompiles(lib, x, gaps, "", "");
  }

  ghost predicate WovenAs(ts: seq<Token>, gaps: seq<string>, text: string) {
    Spaced(ts, gaps) && Weave(ts, gaps) == text && Trimmed(text)
  }

  lemma OrCompiles(lib: Library, l: Expr, r: Expr, gaps: seq<string>, text: string)
    requires Printable(lib.num, l) && Printable(lib.num, r)
    requires WovenAs(Tokens(lib.num, l, 0) + [Token(Or, "or")] + Tokens(lib.num, r, 1), gaps, text)
    ensures Compile(lib, text) == if |text| <= 4096 && Fits(lib, l, 0, 0) && Fits(lib, r, 1, 0) then Where(Disj(l, r)) else Rejected
  {
    TextCompiles(lib, Disj(l, r), gaps, text);
  }

  lemma AndCompiles(lib: Library, l: Expr, r: Expr, gaps: seq<string>, text: string)
    requires Printable(lib.num, l) && Printable(lib.num, r)
    requires WovenAs(Tokens(lib.num, l, 1) + [Token(And, "and")] + Tokens(lib.num, r, 2), gaps, text)
    ensures Compile(lib, text) == if |text| <= 4096 && Fits(lib, l, 1, 0) && Fits(lib, r, 2, 0) then Where(Conj(l, r)) else Rejected
  {
    TextCompiles(lib, Conj(l, r), gaps, text);
  }

  lemma NotCompiles(lib: Library, y: Expr, gaps: seq<string>, text: string)
    requires Printable(lib.num, y) && WovenAs([Token(Not, "not")] + Tokens(lib.num, y, 2), gaps, text)
    ensures Compile(lib, text) == if |text| <= 4096 && Fits(lib, y, 2, 1) then Where(Neg(y)) else Rejected
  {
    TextCompiles(lib, Neg(y), gaps, text);
  }

  lemma Meanings(lib: Library, l: Expr, r: Expr, e: Entry)
    ensures Selects(lib, Where(Disj(l, r)), e) <==> Eval(lib, l, e) || Eval(lib, r, e)
    ensures Selects(lib, Where(Conj(l, r)), e) <==> Eval(lib, l, e) && Eval(lib, r, e)
    ensures Selects(lib, Where(Neg(r)), e) <==> !Eval(lib, r, e)
  {
  }

  lemma PrintedSome(num: ParseNumber, x: Expr, level: nat, gaps: seq<string>)
    requires Printable(num, x) && Spaced(Tokens(num, x, level), gaps)
    ensures Tokens(num, x, level) != [] && Weave(Tokens(num, x, level), gaps) != ""
  {
    TokensSpellable(num, x, level);
    SpellStart(num, Tokens(num, x, level)[0]);
  }

  lemma Unpadded(text: string)
    ensures Blank("") && "" + text + "" == text
  {
  }

  /** The words between two texts: "or" selects what either selects. */
  lemma OrText(lib: Library, l: Expr, r: Expr, a: string, b: string, e: Entry)
    requires Prints(lib.num, l, 0, a) && Prints(lib.num, r, 1, b)
    ensures var c := Compile(lib, a + " or " + b);
            && (c.Rejected? <==> |a + " or " + b| > 4096 || !Fits(lib, l, 0, 0) || !Fits(lib, r, 1, 0))
            && (!c.Rejected? ==> (Selects(lib, c, e) <==> Eval(lib, l, e) || Eval(lib, r, e)))
  {
    var gaps := Between(lib.num, l, 0, Token(Or, "or"), r, 1, a, b);
    Spelled(a, b);
    OrCompiles(lib, l, r, gaps, a + " or " + b);
    Meanings(lib, l, r, e);
  }

  /** "and" selects what both select. */
  lemma AndText(lib: Library, l: Expr, r: Expr, a: string, b: string, e: Entry)
    requires Prints(lib.num, l, 1, a) && Prints(lib.num, r, 2, b)
    ensures var c := Compile(lib, a + " and " + b);
            && (c.Rejected? <==> |a + " and " + b| > 4096 || !Fits(lib, l, 1, 0) || !Fits(lib, r, 2, 0))
            && (!c.Rejected? ==> (Selects(lib, c, e) <==> Eval(lib, l, e) && Eval(lib, r, e)))
  {
    var gaps := Between(lib.num, l, 1, Token(And, "and"), r, 2, a, b);
    Spelled(a, b);
    AndCompiles(lib, l, r, gaps, a + " and " + b);
    Meanings(lib, l, r, e);
  }

  /** "not" selects what its operand does not. */
  lemma NotText(lib: Library, y: Expr, a: string, e: Entry)
    requires Prints(lib.num, y, 2, a)
    ensures var c := Compile(lib, "not " + a);
            && (c.Rejected? <==> |"not " + a| > 4096 || !Fits(lib, y, 2, 1))
            && (!c.Rejected? ==> (Selects(lib, c, e) <==> !Eval(lib, y, e)))
  {
    var gaps := Before(lib.num, y, a);
    NotCompiles(lib, y, gaps, "not " + a);
    Meanings(lib, y, y, e);
  }

  /** How each operator of the language is written. */
  predicate Written(op: Relation, w: string) {
    (op == Eq && w == "==") || (op == Ne && w == "!=") || (op == Gt && w == ">") || (op == Lt && w == "<") ||
    (op == Ge && w == ">=") || (op == Le && w == "<=") || (op == Relation.Contains && w == "contains") ||
    (op == Matches && w == "matches") || (op == StartsWith && w == "startswith")
  }

  /** A comparison written as field, operator and plain word compiles exactly when
      the field is known and the word makes sense, and selects by that relation. */
  lemma ComparisonText(lib: Library, field: string, op: Relation, w: string, val: string, e: Entry)
    requires Written(op, w) && PlainField(lib.num, field) && PlainLit(lib.num, Bare(val))
    requires !White(field[0]) && !White(val[|val| - 1])
    ensures var text := field + " " + w + " " + val;
            var c := Compile(lib, text);
            && (c.Rejected? <==> |text| > 4096 || !ComparisonOk(lib, field, op, val))
            && (!c.Rejected? ==> Selects(lib, c, e) == Holds(lib, field, op, val, e))
  {
    var x, text := Cmp(field, op, Bare(val)), field + " " + w + " " + val;
    CmpTokens(lib, x, w);
    Ends(field, w, val);
    TextCompiles(lib, x, [" ", " ", ""], text);
  }

  lemma Ends(a: string, w: string, b: string)
    requires a != "" && b != "" && !White(a[0]) && !White(b[|b| - 1])
    ensures Trimmed(a + " " + w + " " + b)
  {
    var text := a + " " + w + " " + b;
    assert text[0] == a[0] && text[|text| - 1] == b[|b| - 1];
  }

  lemma CmpTokens(lib: Library, x: Expr, w: string)
    requires x.Cmp? && x.lit.Bare? && PlainLit(lib.num, x.lit) && RelationText(x.op) == w
    ensures var ts := Tokens(lib.num, x, 0);
            Spaced(ts, [" ", " ", ""]) && Weave(ts, [" ", " ", ""]) == x.field + " " + w + " " + x.lit.s
    ensures Fits(lib, x, 0, 0) == ComparisonOk(lib, x.field, x.op, x.lit.s)
  {
    LitTokenOf(lib.num, x.lit);
    var ts := Tokens(lib.num, x, 0);
    assert ts == LeafTokens(lib.num, x);
    WeaveThree(ts[0], ts[1], ts[2]);
    assert ts == [ts[0], ts[1], ts[2]];
  }

  lemma WeaveThree(t: Token, u: Token, v: Token)
    requires t.kind != String && u.kind != String && v.kind != String
    ensures Spaced([t, u, v], [" ", " ", ""]) && Weave([t, u, v], [" ", " ", ""]) == t.val + " " + u.val + " " + v.val
  {
    assert Spaced([], []) && [v][1..] == [] && [""][1..] == [];
    assert Spaced([v], [""]) && Weave([v], [""]) == v.val + ("" + "") == v.val;
    JoinMore(u, " ", [v], [""]);
    assert [u] + [v] == [u, v] && [" "] + [""] == [" ", ""];
    JoinMore(t, " ", [u, v], [" ", ""]);
    assert [t] + [u, v] == [t, u, v] && [" "] + [" ", ""] == [" ", " ", ""];
    assert t.val + (" " + (u.val + (" " + v.val))) == t.val + " " + u.val + " " + v.val;
  }
}
