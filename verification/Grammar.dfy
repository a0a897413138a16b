/** The grammar as functions from tokens to trees, with the nesting limit. */
module Grammar {
  import opened Syntax

  const MaxDepth := 32

  datatype ErrCode = SyntaxError | LimitError | ForbiddenError | RuntimeError | OutputShapeError

  /** What a parse function makes of some tokens: a value and the tokens left, or an error. */
  datatype Parsed<+T> = Got(value: T, rest: seq<Token>) | Bad(code: ErrCode) {
    predicate IsFailure() {
      Bad?
    }

    function PropagateFailure<U>(): Parsed<U>
      requires Bad?
    {
      Bad(code)
    }

    function Extract(): (T, seq<Token>)
      requires Got?
    {
      (value, rest)
    }
  }

  predicate At(ts: seq<Token>, text: Text)
    requires |ts| > 0
  {
    ts[0].text == text && ts[0].kind != Str
  }

  function Skip(ts: seq<Token>): (r: seq<Token>)
    requires Lexed(ts) && ts[0].text != Nothing
    ensures Lexed(r) && |r| == |ts| - 1
  {
    ts[1..]
  }

  function Expect(ts: seq<Token>, text: Text): (r: Parsed<()>)
    requires Lexed(ts) && text != Nothing
    ensures r.Got? ==> Lexed(r.rest) && |r.rest| == |ts| - 1
  {
    if At(ts, text) then Got((), Skip(ts)) else Bad(SyntaxError)
  }

  /** The binary operator at the front, if there is one. */
  function PeekPrec(ts: seq<Token>): int
    requires |ts| > 0
  {
    if ts[0].kind == Punct && ts[0].text.Op? then Prec(ts[0].text.op) else -1
  }

  function UnaryAt(t: Token): (r: seq<UnOp>)
    ensures |r| <= 1
  {
    if t.kind == Punct && t.text == Bang then [Not]
    else if t.kind == Punct && t.text == Op(Minus) then [Neg]
    else if t.kind == Punct && t.text == Op(Plus) then [Pos]
    else if t.kind == Keyword && t.text == TypeOfWord then [TypeOf]
    else []
  }

  predicate LiteralAt(t: Token) {
    t.kind == Number || t.kind == Str
    || (t.kind == Keyword && (t.text == True || t.text == False || t.text == NullWord || t.text == Undefined))
  }

  function LiteralOf(t: Token): Literal
    requires LiteralAt(t)
  {
    if t.kind == Number then NumLit(t.num, t.text)
    else if t.kind == Str then StrLit(t.text)
    else if t.text == True || t.text == False then BoolLit(t.text == True)
    else NullLit(t.text)
  }

  // ---------------------------------------------------------------- expressions

  /** A tree read from the front of `ts` never has more nodes than the tokens it took. */
  ghost predicate Fits(ts: seq<Token>, r: Parsed<Expr>) {
    r.Got? ==> Lexed(r.rest) && |r.rest| < |ts| && Nodes(r.value) + |r.rest| <= |ts|
  }

  function ParseTernary(ts: seq<Token>, d: nat): (r: Parsed<Expr>)
    requires Lexed(ts)
    ensures Fits(ts, r)
    decreases |ts|, 4
  {
    if d + 1 > MaxDepth then Bad(LimitError)
    else
      var c :- ParseBinary(ts, 0, d + 1);
      if !At(c.1, Question) then Got(c.0, c.1)
      else
        var y :- ParseTernary(Skip(c.1), d + 1);
        var colon :- Expect(y.1, Colon);
        var n :- ParseTernary(colon.1, d + 1);
        Got(Cond(c.0, y.0, n.0), n.1)
  }

  function ParseBinary(ts: seq<Token>, min: int, d: nat): (r: Parsed<Expr>)
    requires Lexed(ts)
    ensures Fits(ts, r)
    decreases |ts|, 3
  {
    if d + 1 > MaxDepth then Bad(LimitError)
    else
      var l :- ParseUnary(ts, d + 1);
      BinaryLoop(l.0, l.1, min, d + 1)
  }

  function BinaryLoop(left: Expr, ts: seq<Token>, min: int, d: nat): (r: Parsed<Expr>)
    requires Lexed(ts)
    ensures r.Got? ==> Lexed(r.rest) && |r.rest| <= |ts| && Nodes(r.value) + |r.rest| <= Nodes(left) + |ts|
    decreases |ts|, 3
  {
    var prec := PeekPrec(ts);
    if prec < min || prec < 0 then Got(left, ts)
    else
      var right :- ParseBinary(Skip(ts), prec + 1, d);
      BinaryLoop(Bin(ts[0].text.op, left, right.0), right.1, min, d)
  }

  function ParseUnary(ts: seq<Token>, d: nat): (r: Parsed<Expr>)
    requires Lexed(ts)
    ensures Fits(ts, r)
    decreases |ts|, 2
  {
    var op := UnaryAt(ts[0]);
    if op != [] then
      var e :- ParseUnary(Skip(ts), d);
      Got(Unary(op[0], e.0), e.1)
    else ParsePostfix(ts, d)
  }

  function ParsePostfix(ts: seq<Token>, d: nat): (r: Parsed<Expr>)
    requires Lexed(ts)
    ensures Fits(ts, r)
    decreases |ts|, 1
  {
    var e :- ParsePrimary(ts, d);
    PostfixLoop(e.0, e.1, d)
  }

  function PostfixLoop(e: Expr, ts: seq<Token>, d: nat): (r: Parsed<Expr>)
    requires Lexed(ts)
    ensures r.Got? ==> Lexed(r.rest) && |r.rest| <= |ts| && Nodes(r.value) + |r.rest| <= Nodes(e) + |ts|
    decreases |ts|, 5
  {
    if At(ts, Dot) then
      var t := Skip(ts);
      if t[0].kind != Ident && t[0].kind != Keyword then Bad(SyntaxError)
      else PostfixLoop(Member(e, t[0].text), SkipAny(t), d)
    else if At(ts, LBracket) then
      var i :- ParseTernary(Skip(ts), d);
      var close :- Expect(i.1, RBracket);
      PostfixLoop(Index(e, i.0), close.1, d)
    else Got(e, ts)
  }

  /** Past a token that is not the end of file, whatever its text. */
  function SkipAny(ts: seq<Token>): (r: seq<Token>)
    requires Lexed(ts) && ts[0].kind != Eof
    ensures Lexed(r) && |r| == |ts| - 1
  {
    ts[1..]
  }

  function ParsePrimary(ts: seq<Token>, d: nat): (r: Parsed<Expr>)
    requires Lexed(ts)
    ensures Fits(ts, r)
    decreases |ts|, 0
  {
    var t := ts[0];
    if d + 1 > MaxDepth then Bad(LimitError)
    else if LiteralAt(t) then Got(Lit(LiteralOf(t)), SkipAny(ts))
    else if t.text == LParen then
      var e :- ParseTernary(Skip(ts), d + 1);
      var close :- Expect(e.1, RParen);
      Got(e.0, close.1)
    else if t.text == LBracket then
      var items :- ParseItems(Skip(ts), RBracket, d + 1);
      Got(ArrayLit(items.0), items.1)
    else if t.text == LBrace then
      var props :- ParseProps(Skip(ts), d + 1);
      Got(ObjectLit(props.0), props.1)
    else if t.kind == Ident then
      var after := SkipAny(ts);
      if At(after, LParen) then
        var args :- ParseItems(Skip(after), RParen, d + 1);
        Got(Call(t.text, args.0), args.1)
      else Got(Id(t.text), after)
    else Bad(SyntaxError)
  }

  /** Expressions up to a closing word: the arguments of a call or the items of an array, the opening word being past. */
  function ParseItems(ts: seq<Token>, close: Text, d: nat): (r: Parsed<seq<Expr>>)
    requires Lexed(ts) && close != Nothing
    ensures r.Got? ==> Lexed(r.rest) && |r.rest| < |ts| && NodesAll(r.value) + |r.rest| <= |ts|
    decreases |ts|, 6
  {
    if At(ts, close) then Got([], Skip(ts)) else MoreItems(ts, close, d)
  }

  function MoreItems(ts: seq<Token>, close: Text, d: nat): (r: Parsed<seq<Expr>>)
    requires Lexed(ts) && close != Nothing
    ensures r.Got? ==> Lexed(r.rest) && |r.rest| < |ts| && NodesAll(r.value) + |r.rest| <= |ts|
    decreases |ts|, 5
  {
    var e :- ParseTernary(ts, d);
    if At(e.1, Comma) && !At(Skip(e.1), close) then
      var more :- MoreItems(Skip(e.1), close, d);
      assert ([e.0] + more.0)[1..] == more.0;
      Got([e.0] + more.0, more.1)
    else
      var end :- Expect(if At(e.1, Comma) then Skip(e.1) else e.1, close);
      assert NodesAll([e.0]) == Nodes(e.0) + NodesAll([]);
      Got([e.0], end.1)
  }

  predicate KeyKind(k: Kind) {
    k == Ident || k == Keyword || k == Str || k == Number
  }

  function ParseProps(ts: seq<Token>, d: nat): (r: Parsed<seq<Prop>>)
    requires Lexed(ts)
    ensures r.Got? ==> Lexed(r.rest) && |r.rest| < |ts| && NodesProps(r.value) + |r.rest| <= |ts|
    decreases |ts|, 6
  {
    if At(ts, RBrace) then Got([], Skip(ts)) else MoreProps(ts, d)
  }

  function MoreProps(ts: seq<Token>, d: nat): (r: Parsed<seq<Prop>>)
    requires Lexed(ts)
    ensures r.Got? ==> Lexed(r.rest) && |r.rest| < |ts| && NodesProps(r.value) + |r.rest| <= |ts|
    decreases |ts|, 5
  {
    if !KeyKind(ts[0].kind) then Bad(SyntaxError)
    else if ProtoKey(ts[0].text) then Bad(ForbiddenError)
    else
      var colon :- Expect(SkipAny(ts), Colon);
      var v :- ParseTernary(colon.1, d);
      var p := Prop(ts[0].text, v.0);
      if At(v.1, Comma) && !At(Skip(v.1), RBrace) then
        var more :- MoreProps(Skip(v.1), d);
        assert ([p] + more.0)[1..] == more.0;
        Got([p] + more.0, more.1)
      else
        var end :- Expect(if At(v.1, Comma) then Skip(v.1) else v.1, RBrace);
        assert NodesProps([p]) == Nodes(v.0) + NodesProps([]);
        Got([p], end.1)
  }
}
