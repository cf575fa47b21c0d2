/** The recursive-descent compiler of the filter language: what an expression
    means, the grammar as a function on the remaining tokens, and the hub's parser
    object proved to follow it. */
module FilterParser {
  import opened Basics
  import opened FilterLexer
  import opened FilterMatch

  const MAX_LENGTH := 4096
  const MAX_DEPTH := 64
  const MAX_VALUES := 64

  /** A literal, quoted or a bare word. */
  datatype Lit = Quoted(s: string) | Bare(s: string)

  datatype Expr =
    | Disj(l: Expr, r: Expr)
    | Conj(l: Expr, r: Expr)
    | Neg(x: Expr)
    | Text(lit: Lit)
    | Cmp(field: string, op: Relation, lit: Lit)
    | OneOfList(field: string, lits: seq<Lit>)

  // ----- Meaning -------------------------------------------------------------

  function Values(lits: seq<Lit>): seq<string> { seq(|lits|, i requires 0 <= i < |lits| => lits[i].s) }

  predicate Eval(lib: Library, x: Expr, e: Entry) {
    match x
    case Disj(l, r) => Eval(lib, l, e) || Eval(lib, r, e)
    case Conj(l, r) => Eval(lib, l, e) && Eval(lib, r, e)
    case Neg(y) => !Eval(lib, y, e)
    case Text(lit) => Mentions(SearchText(e), lit.s)
    case Cmp(field, op, lit) => ComparisonOk(lib, field, op, lit.s) && Holds(lib, field, op, lit.s, e)
    case OneOfList(field, lits) => Known(lib, field) && HoldsIn(lib, field, Values(lits), e)
  }

  // ----- Grammar -------------------------------------------------------------

  datatype Parsed = Fail | Done(x: Expr, rest: seq<Token>)

  datatype ParsedList = BadList | Listed(lits: seq<Lit>, rest: seq<Token>)

  /** The kind of the current token; past the end there is an empty operator. */
  function Head(ts: seq<Token>): Kind { if ts == [] then Op else ts[0].kind }

  function LitOf(t: Token): Lit { if t.kind == String then Quoted(t.val) else Bare(t.val) }

  function RelationOf(op: string): Option<Relation> {
    if op == "==" then Some(Eq)
    else if op == "!=" then Some(Ne)
    else if op == ">" then Some(Gt)
    else if op == "<" then Some(Lt)
    else if op == ">=" then Some(Ge)
    else if op == "<=" then Some(Le)
    else if op == "contains" then Some(Relation.Contains)
    else if op == "matches" then Some(Matches)
    else if op == "startswith" then Some(StartsWith)
    else None
  }

  predicate IsValue(k: Kind) { k == String || k == Number || k == Ident }

  function ParseOr(lib: Library, ts: seq<Token>, d: nat): (p: Parsed)
    ensures p.Done? ==> |p.rest| < |ts|
    decreases |ts|, 4
  {
    var p := ParseAnd(lib, ts, d);
    if p.Done? then OrLoop(lib, p.x, p.rest, d) else Fail
  }

  function OrLoop(lib: Library, x: Expr, ts: seq<Token>, d: nat): (p: Parsed)
    ensures p.Done? ==> |p.rest| <= |ts|
    decreases |ts|, 5
  {
    if Head(ts) != Or then Done(x, ts)
    else
      var p := ParseAnd(lib, ts[1..], d);
      if p.Done? then OrLoop(lib, Disj(x, p.x), p.rest, d) else Fail
  }

  function ParseAnd(lib: Library, ts: seq<Token>, d: nat): (p: Parsed)
    ensures p.Done? ==> |p.rest| < |ts|
    decreases |ts|, 2
  {
    var p := ParseUnary(lib, ts, d);
    if p.Done? then AndLoop(lib, p.x, p.rest, d) else Fail
  }

  function AndLoop(lib: Library, x: Expr, ts: seq<Token>, d: nat): (p: Parsed)
    ensures p.Done? ==> |p.rest| <= |ts|
    decreases |ts|, 3
  {
    if Head(ts) != And then Done(x, ts)
    else
      var p := ParseUnary(lib, ts[1..], d);
      if p.Done? then AndLoop(lib, Conj(x, p.x), p.rest, d) else Fail
  }

  function ParseUnary(lib: Library, ts: seq<Token>, d: nat): (p: Parsed)
    ensures p.Done? ==> |p.rest| < |ts|
    decreases |ts|, 1
  {
    if Head(ts) != Not then ParsePrimary(lib, ts, d)
    else if d + 1 > MAX_DEPTH then Fail
    else
      var p := ParseUnary(lib, ts[1..], d + 1);
      if p.Done? then Done(Neg(p.x), p.rest) else Fail
  }

  function ParsePrimary(lib: Library, ts: seq<Token>, d: nat): (p: Parsed)
    ensures p.Done? ==> |p.rest| < |ts|
    decreases |ts|, 0
  {
    if Head(ts) == LParen then
      if d + 1 > MAX_DEPTH then Fail
      else
        var p := ParseOr(lib, ts[1..], d + 1);
        if p.Done? && Head(p.rest) == RParen then Done(p.x, p.rest[1..]) else Fail
    else ParseLeaf(lib, ts)
  }

  function ParseLeaf(lib: Library, ts: seq<Token>): (p: Parsed)
    ensures p.Done? ==> |p.rest| < |ts|
  {
    if !IsValue(Head(ts)) then Fail
    else if Head(ts) == Ident && |ts| > 1 && ts[1].kind == Op then ParseComparison(lib, ts)
    else Done(Text(LitOf(ts[0])), ts[1..])
  }

  function ParseComparison(lib: Library, ts: seq<Token>): (p: Parsed)
    requires |ts| > 1
    ensures p.Done? ==> |p.rest| < |ts|
  {
    if ts[1].val == "in" then ParseIn(lib, ts[0].val, ts[2..]) else ParseRelation(lib, ts[0].val, ts[1].val, ts[2..])
  }

  function ParseIn(lib: Library, field: string, ts: seq<Token>): (p: Parsed)
    ensures p.Done? ==> |p.rest| < |ts|
  {
    if Head(ts) != LParen then Fail
    else
      var p := ParseList(ts[1..], 0);
      if p.Listed? && Known(lib, field) then Done(OneOfList(field, p.lits), p.rest) else Fail
  }

  function ParseRelation(lib: Library, field: string, op: string, ts: seq<Token>): (p: Parsed)
    ensures p.Done? ==> |p.rest| < |ts|
  {
    if ts == [] || RelationOf(op).None? then Fail
    else if ComparisonOk(lib, field, RelationOf(op).value, ts[0].val) then
      Done(Cmp(field, RelationOf(op).value, LitOf(ts[0])), ts[1..])
    else Fail
  }

  datatype Turn = Reject | Finish(lit: Lit) | Continue(lit: Lit)

  /** One value and what follows it, n values read already. */
  function ListTurn(ts: seq<Token>, n: nat): (t: Turn)
    ensures !t.Reject? ==> |ts| >= 2
  {
    if !IsValue(Head(ts)) || n + 1 > MAX_VALUES then Reject
    else if Head(ts[1..]) == RParen then Finish(LitOf(ts[0]))
    else if Head(ts[1..]) == Comma then Continue(LitOf(ts[0]))
    else Reject
  }

  function After(lits: seq<Lit>, p: ParsedList): ParsedList {
    if p.Listed? then Listed(lits + p.lits, p.rest) else BadList
  }

  /** The values after the opening parenthesis, n of them read already. */
  function ParseList(ts: seq<Token>, n: nat): (p: ParsedList)
    ensures p.Listed? ==> |p.rest| < |ts|
  {
    var t := ListTurn(ts, n);
    if t.Reject? then BadList
    else if t.Finish? then Listed([t.lit], ts[2..])
    else After([t.lit], ParseList(ts[2..], n + 1))
  }

  // ----- The parser object ---------------------------------------------------

  /** A compiled predicate is what the grammar says the tokens mean. */
  ghost predicate Agrees(lib: Library, want: Parsed, got: Option<Pred>, rest: seq<Token>) {
    (got.Some? <==> want.Done?) && (got.Some? ==> want.rest == rest && forall e :: got.value(e) == Eval(lib, want.x, e))
  }

  class Parser {
    const lib: Library
    const toks: seq<Token>
    var pos: nat
    var depth: nat

    constructor (lib: Library, toks: seq<Token>)
      ensures this.lib == lib && this.toks == toks && pos == 0 && depth == 0
    {
      this.lib, this.toks, pos, depth := lib, toks, 0, 0;
    }

    ghost predicate Valid()
      reads this
    {
      pos <= |toks| && Sound(lib)
    }

    function Rest(): seq<Token>
      requires pos <= |toks|
      reads this
    {
      toks[pos..]
    }

    function Cur(): (t: Token)
      requires pos <= |toks|
      reads this
      ensures t.kind == Head(Rest())
      ensures pos < |toks| ==> t == Rest()[0]
    {
      if pos < |toks| then toks[pos] else Token(Op, "")
    }

    lemma Advance(n: nat)
      requires pos + n <= |toks|
      ensures Rest()[n..] == toks[pos + n..]
    {
    }

    method DoOr() returns (r: Option<Pred>)
      requires Valid()
      modifies this
      ensures Valid() && Agrees(lib, ParseOr(lib, old(Rest()), old(depth)), r, Rest())
      ensures depth >= old(depth) && (r.Some? ==> pos > old(pos) && depth == old(depth))
      decreases |toks| - pos, 4
    {
      ghost var want := ParseOr(lib, Rest(), depth);
      r := DoAnd();
      if r.None? { return; }
      var left := r.value;
      ghost var x := ParseAnd(lib, old(Rest()), depth).x;
      while Cur().kind == Or
        invariant Valid() && pos > old(pos) && depth == old(depth)
        invariant want == OrLoop(lib, x, Rest(), depth)
        invariant forall e :: left(e) == Eval(lib, x, e)
        decreases |toks| - pos
      {
        Advance(1);
        ghost var ts := toks[pos + 1..];
        pos := pos + 1;
        var right := DoAnd();
        if right.None? { return None; }
        x := Disj(x, ParseAnd(lib, ts, depth).x);
        var l, rr := left, right.value;
        left := e => l(e) || rr(e);
      }
      r := Some(left);
    }

    method DoAnd() returns (r: Option<Pred>)
      requires Valid()
      modifies this
      ensures Valid() && Agrees(lib, ParseAnd(lib, old(Rest()), old(depth)), r, Rest())
      ensures depth >= old(depth) && (r.Some? ==> pos > old(pos) && depth == old(depth))
      decreases |toks| - pos, 2
    {
      ghost var want := ParseAnd(lib, Rest(), depth);
      r := DoUnary();
      if r.None? { return; }
      var left := r.value;
      ghost var x := ParseUnary(lib, old(Rest()), depth).x;
      while Cur().kind == And
        invariant Valid() && pos > old(pos) && depth == old(depth)
        invariant want == AndLoop(lib, x, Rest(), depth)
        invariant forall e :: left(e) == Eval(lib, x, e)
        decreases |toks| - pos
      {
        Advance(1);
        ghost var ts := toks[pos + 1..];
        pos := pos + 1;
        var right := DoUnary();
        if right.None? { return None; }
        x := Conj(x, ParseUnary(lib, ts, depth).x);
        var l, rr := left, right.value;
        left := e => l(e) && rr(e);
      }
      r := Some(left);
    }

    method DoUnary() returns (r: Option<Pred>)
      requires Valid()
      modifies this
      ensures Valid() && Agrees(lib, ParseUnary(lib, old(Rest()), old(depth)), r, Rest())
      ensures depth >= old(depth) && (r.Some? ==> pos > old(pos) && depth == old(depth))
      decreases |toks| - pos, 1
    {
      if Cur().kind != Not {
        r := DoPrimary();
        return;
      }
      Advance(1);
      pos := pos + 1;
      depth := depth + 1;
      if depth > MAX_DEPTH { return None; }
      var inner := DoUnary();
      depth := depth - 1;
      if inner.None? { return None; }
      var f := inner.value;
      r := Some(e => !f(e));
    }

    method DoPrimary() returns (r: Option<Pred>)
      requires Valid()
      modifies this
      ensures Valid() && Agrees(lib, ParsePrimary(lib, old(Rest()), old(depth)), r, Rest())
      ensures depth >= old(depth) && (r.Some? ==> pos > old(pos) && depth == old(depth))
      decreases |toks| - pos, 0
    {
      if Cur().kind != LParen {
        r := DoLeaf();
        return;
      }
      Advance(1);
      pos := pos + 1;
      depth := depth + 1;
      if depth > MAX_DEPTH { return None; }
      r := DoOr();
      depth := depth - 1;
      if r.None? { return None; }
      if Cur().kind != RParen { return None; }
      Advance(1);
      pos := pos + 1;
    }

    method DoLeaf() returns (r: Option<Pred>)
      requires Valid()
      modifies this`pos
      ensures Valid() && Agrees(lib, ParseLeaf(lib, old(Rest())), r, Rest())
      ensures r.Some? ==> pos > old(pos)
    {
      var t := Cur();
      if !IsValue(t.kind) { return None; }
      if t.kind == Ident && pos + 1 < |toks| && toks[pos + 1].kind == Op {
        r := DoComparison();
        return;
      }
      Advance(1);
      pos := pos + 1;
      var needle := Lower(t.val);
      r := Some(e => Within(Fulltext(e), needle));
      forall e ensures Within(Fulltext(e), needle) == Mentions(SearchText(e), t.val) { FulltextMeans(e, t.val); }
    }

    method DoComparison() returns (r: Option<Pred>)
      requires Valid() && pos + 1 < |toks|
      modifies this`pos
      ensures Valid() && Agrees(lib, ParseComparison(lib, old(Rest())), r, Rest())
      ensures r.Some? ==> pos > old(pos)
    {
      ghost var ts := Rest();
      var field := Cur().val;
      pos := pos + 1;
      var op := Cur().val;
      pos := pos + 1;
      assert ts[2..] == Rest() && ts[0].val == field && ts[1].val == op;
      if op == "in" { r := DoIn(field); } else { r := DoRelation(field, op); }
    }

    /** The list of an "in", and its predicate. */
    method DoIn(field: string) returns (r: Option<Pred>)
      requires Valid()
      modifies this`pos
      ensures Valid() && pos >= old(pos) && Agrees(lib, ParseIn(lib, field, old(Rest())), r, Rest())
    {
      var ok, values := DoInList();
      if !ok { return None; }
      r := CompileIn(lib, field, values);
      InCompiles(lib, field, ParseList(old(Rest())[1..], 0).lits, r);
    }

    /** The value of any other comparison, and its predicate. */
    method DoRelation(field: string, op: string) returns (r: Option<Pred>)
      requires Valid()
      modifies this`pos
      ensures Valid() && pos >= old(pos) && Agrees(lib, ParseRelation(lib, field, op, old(Rest())), r, Rest())
    {
      if pos >= |toks| { return None; }
      var t := Cur();
      Suffix(toks, pos, 1);
      pos := pos + 1;
      var rel := RelationOf(op);
      if rel.None? { return None; }
      r := CompileComparison(lib, field, rel.value, t.val);
      ComparisonCompiles(lib, field, rel.value, LitOf(t), r);
    }

    method DoInList() returns (ok: bool, values: seq<string>)
      requires Valid()
      modifies this`pos
      ensures Valid() && pos >= old(pos)
      ensures ok == (Head(old(Rest())) == LParen && ParseList(old(Rest())[1..], 0).Listed?)
      ensures ok ==> var p := ParseList(old(Rest())[1..], 0); values == Values(p.lits) && Rest() == p.rest
    {
      if Cur().kind != LParen { return false, []; }
      Suffix(toks, pos, 1);
      pos := pos + 1;
      ok, values := DoValues();
    }

    method DoValues() returns (ok: bool, values: seq<string>)
      requires Valid()
      modifies this`pos
      ensures Valid() && pos >= old(pos) && ok == ParseList(old(Rest()), 0).Listed?
      ensures ok ==> var p := ParseList(old(Rest()), 0); values == Values(p.lits) && Rest() == p.rest
    {
      values := [];
      ghost var want := ParseList(Rest(), 0);
      ghost var lits, next := [], want;
      AfterNone(want);
      while true
        invariant Valid() && pos >= old(pos) && values == Values(lits)
        invariant next == ParseList(toks[pos..], |lits|) && want == After(lits, next)
        decreases |toks| - pos
      {
        var turn := DoValue(|values|);
        if turn.Reject? { return false, []; }
        ghost var was := lits;
        ValuesSnoc(was, turn.lit);
        lits := lits + [turn.lit];
        values := values + [turn.lit.s];
        if turn.Finish? { return true, values; }
        next := ParseList(toks[pos..], |lits|);
        AfterAfter(was, turn.lit, next);
      }
    }

    /** One value and the comma or parenthesis after it. */
    method DoValue(n: nat) returns (turn: Turn)
      requires Valid()
      modifies this`pos
      ensures Valid() && turn == ListTurn(old(Rest()), n) && pos >= old(pos)
      ensures !turn.Reject? ==> pos == old(pos) + 2 && Rest() == old(Rest())[2..]
    {
      var t := Cur();
      if !IsValue(t.kind) { return Reject; }
      Suffix(toks, pos, 1);
      pos := pos + 1;
      if n + 1 > MAX_VALUES { return Reject; }
      if Cur().kind == RParen {
        pos := pos + 1;
        return Finish(LitOf(t));
      }
      if Cur().kind != Comma { return Reject; }
      pos := pos + 1;
      return Continue(LitOf(t));
    }
  }

  lemma Suffix(ts: seq<Token>, i: nat, n: nat)
    requires i + n <= |ts|
    ensures ts[i..][n..] == ts[i + n..]
  {
  }

  lemma ValuesSnoc(lits: seq<Lit>, lit: Lit)
    ensures Values(lits + [lit]) == Values(lits) + [lit.s]
  {
  }

  lemma AfterNone(p: ParsedList)
    ensures After([], p) == p
  {
    if p.Listed? { assert [] + p.lits == p.lits; }
  }

  function AnyEntry(): Entry {
    Entry("", "", "", "", 0, "", "", "", 0, "", "", "", "", map[], 0, 0, 0, 0, 0, 0, 0, 0, None, None, None, None)
  }

  lemma InCompiles(lib: Library, field: string, lits: seq<Lit>, r: Option<Pred>)
    requires r == CompileIn(lib, field, Values(lits))
    ensures r.Some? <==> Known(lib, field)
    ensures r.Some? ==> forall e :: r.value(e) == Eval(lib, OneOfList(field, lits), e)
  {
    InMeans(lib, field, Values(lits), AnyEntry());
    if r.Some? {
      forall e ensures r.value(e) == Eval(lib, OneOfList(field, lits), e) { InMeans(lib, field, Values(lits), e); }
    }
  }

  lemma ComparisonCompiles(lib: Library, field: string, op: Relation, lit: Lit, r: Option<Pred>)
    requires Sound(lib) && r == CompileComparison(lib, field, op, lit.s)
    ensures r.Some? <==> ComparisonOk(lib, field, op, lit.s)
    ensures r.Some? ==> forall e :: r.value(e) == Eval(lib, Cmp(field, op, lit), e)
  {
    ComparisonMeans(lib, field, op, lit.s, AnyEntry());
    if r.Some? {
      forall e ensures r.value(e) == Eval(lib, Cmp(field, op, lit), e) { ComparisonMeans(lib, field, op, lit.s, e); }
    }
  }

  lemma AfterAfter(lits: seq<Lit>, lit: Lit, p: ParsedList)
    ensures After(lits, After([lit], p)) == After(lits + [lit], p)
  {
    if p.Listed? { assert lits + ([lit] + p.lits) == lits + [lit] + p.lits; }
  }
}
