/** Printed trees parse back to themselves, unless they nest deeper than the limit; they are never syntax errors. */
module RoundTrip {
  import opened Syntax
  import opened Grammar
  import opened Printing

  /** Nothing in front that an operand could go on with. */
  predicate Loose(ts: seq<Token>) {
    |ts| > 0 && !At(ts, LParen) && !At(ts, Dot) && !At(ts, LBracket)
  }

  /** Nothing in front that an expression could go on with. */
  predicate Ended(ts: seq<Token>) {
    Loose(ts) && PeekPrec(ts) == -1 && !At(ts, Question)
  }

  /** The tree, unless it nests too deep. */
  function Res<T>(value: T, rest: seq<Token>, depth: int): Parsed<T> {
    if depth <= MaxDepth then Got(value, rest) else Bad(LimitError)
  }

  // ---------------------------------------------------------------- first tokens

  predicate Closing(t: Token) {
    t.kind == Eof || (t.kind != Str && (t.text == RParen || t.text == RBracket || t.text == RBrace || t.text == Semi))
  }

  lemma {:induction false} FirstToken(e: Expr, lvl: int, rest: seq<Token>)
    requires Printable(e)
    ensures var ts := Emit(e, lvl, rest);
            |ts| > 0 && !Closing(ts[0]) && (lvl >= 11 || Level(e) >= 11 ==> UnaryAt(ts[0]) == [])
    decreases e, if Level(e) < lvl then 1 else 0
  {
    hide Emit;
    EmitUnfolds(e, lvl, rest);
    if Level(e) >= lvl {
      match e
      case Member(obj, name) => FirstToken(obj, 11, Put(P(Dot), Put(Word(name), rest)));
      case Index(obj, index) => FirstToken(obj, 11, Put(P(LBracket), Emit(index, 0, Put(P(RBracket), rest))));
      case Bin(op, l, r) => FirstToken(l, Prec(op), Put(P(Op(op)), Emit(r, Prec(op) + 1, rest)));
      case Cond(c, y, n) => FirstToken(c, 1, Put(P(Question), Emit(y, 0, Put(P(Colon), Emit(n, 0, rest)))));
      case _ =>
    }
  }

  lemma EmitUnfolds(e: Expr, lvl: int, rest: seq<Token>)
    ensures Emit(e, lvl, rest) ==
            if Level(e) < lvl then Put(P(LParen), Emit(e, 0, Put(P(RParen), rest)))
            else
              match e
              case Lit(l) => Put(LiteralToken(l), rest)
              case Id(name) => Put(Word(name), rest)
              case Member(obj, name) => Emit(obj, 11, Put(P(Dot), Put(Word(name), rest)))
              case Index(obj, index) => Emit(obj, 11, Put(P(LBracket), Emit(index, 0, Put(P(RBracket), rest))))
              case Unary(op, oper) => Put(UnaryToken(op), Emit(oper, 10, rest))
              case Bin(op, l, r) => Emit(l, Prec(op), Put(P(Op(op)), Emit(r, Prec(op) + 1, rest)))
              case Cond(c, y, n) => Emit(c, 1, Put(P(Question), Emit(y, 0, Put(P(Colon), Emit(n, 0, rest)))))
              case Call(fn, args) => Put(Word(fn), Put(P(LParen), EmitItems(args, RParen, rest)))
              case ArrayLit(items) => Put(P(LBracket), EmitItems(items, RBracket, rest))
              case ObjectLit(props) => Put(P(LBrace), EmitProps(props, rest))
  {
    hide Put, Level;
  }

  // ---------------------------------------------------------------- one production at a time

  lemma NestingUnfolds(e: Expr, lvl: int)
    requires 0 <= lvl <= 12
    ensures Nesting(e, lvl) ==
            if Level(e) < lvl then (if lvl <= 9 then 2 else 1) + Nesting(e, 0)
            else if lvl == 0 then
              1 + if e.Cond? then Max(Nesting(e.cond, 1), Max(Nesting(e.yes, 0), Nesting(e.no, 0))) else Nesting(e, 1)
            else if lvl <= 9 then
              if e.Bin? then Max(Nesting(e.left, Prec(e.bop)), 1 + Nesting(e.right, Prec(e.bop) + 1)) else 1 + Nesting(e, 10)
            else if lvl == 10 then
              if e.Unary? then Nesting(e.oper, 10) else Nesting(e, 11)
            else if lvl == 11 then
              if e.Member? then Nesting(e.obj, 11)
              else if e.Index? then Max(Nesting(e.obj, 11), Nesting(e.index, 0))
              else Nesting(e, 12)
            else
              1 + match e
                  case Call(_, args) => NestingAll(args)
                  case ArrayLit(items) => NestingAll(items)
                  case ObjectLit(props) => NestingProps(props)
                  case _ => 0
  {
    hide Level, Prec;
  }

  lemma ParenForm(e: Expr, rest: seq<Token>, inner: seq<Token>, d: nat, n: nat)
    requires Lexed(rest) && Lexed(inner)
    requires d + 1 <= MaxDepth ==> ParseTernary(inner, d + 1) == Res(e, Put(P(RParen), rest), d + 1 + n)
    ensures ParsePrimary(Put(P(LParen), inner), d) == Res(e, rest, d + 1 + n)
  {
    hide ParseTernary, ParseItems, ParseProps, Fits;
  }

  lemma DotForm(obj: Expr, name: Text, rest: seq<Token>, d: nat)
    requires Lexed(rest) && (name.Other? || KeywordText(name))
    ensures Lexed(Put(P(Dot), Put(Word(name), rest)))
    ensures PostfixLoop(obj, Put(P(Dot), Put(Word(name), rest)), d) == PostfixLoop(Member(obj, name), rest, d)
  {
    hide ParseTernary, Fits;
  }

  lemma IndexForm(obj: Expr, index: Expr, inner: seq<Token>, rest: seq<Token>, d: nat, n: nat)
    requires Lexed(rest) && Lexed(inner) && ParseTernary(inner, d) == Res(index, Put(P(RBracket), rest), d + n)
    ensures PostfixLoop(obj, Put(P(LBracket), inner), d) == if d + n <= MaxDepth then PostfixLoop(Index(obj, index), rest, d) else Bad(LimitError)
  {
    hide ParseTernary, Fits;
  }

  lemma BinForm(op: BinOp, l: Expr, r: Expr, min: int, right: seq<Token>, rest: seq<Token>, d: nat, n: nat)
    requires Lexed(rest) && Lexed(right) && min <= Prec(op) && PeekPrec(rest) <= Prec(op)
    requires ParseBinary(right, Prec(op) + 1, d) == if d + n <= MaxDepth then BinaryLoop(r, rest, Prec(op) + 1, d + 1) else Bad(LimitError)
    ensures BinaryLoop(l, Put(P(Op(op)), right), min, d) == if d + n <= MaxDepth then BinaryLoop(Bin(op, l, r), rest, min, d) else Bad(LimitError)
  {
    hide ParseBinary, Fits;
  }

  lemma UnaryForm(op: UnOp, e: Expr, ts: seq<Token>, d: nat)
    requires Lexed(ts)
    ensures ParseUnary(Put(UnaryToken(op), ts), d) == match ParseUnary(ts, d) case Got(v, rest) => Got(Unary(op, v), rest) case Bad(code) => Bad(code)
  {
    hide ParsePostfix, Fits;
  }

  lemma CondForm(c: Expr, y: Expr, n: Expr, ts: seq<Token>, yes: seq<Token>, no: seq<Token>, rest: seq<Token>,
                 d: nat, nc: nat, ny: nat, nn: nat)
    requires Lexed(ts) && Lexed(yes) && Lexed(no) && Lexed(rest)
    requires ParseBinary(ts, 0, d + 1) == Res(c, Put(P(Question), yes), d + 1 + nc)
    requires ParseTernary(yes, d + 1) == Res(y, Put(P(Colon), no), d + 1 + ny)
    requires ParseTernary(no, d + 1) == Res(n, rest, d + 1 + nn)
    ensures ParseTernary(ts, d) == Res(Cond(c, y, n), rest, d + 1 + Max(nc, Max(ny, nn)))
  {
    hide ParseBinary, Fits;
    ConditionalUnfolds(ts, d);
  }

  lemma ConditionalUnfolds(ts: seq<Token>, d: nat)
    requires Lexed(ts)
    ensures ParseTernary(ts, d) ==
            if d + 1 > MaxDepth then Bad(LimitError)
            else
              var c :- ParseBinary(ts, 0, d + 1);
              if !At(c.1, Question) then Got(c.0, c.1)
              else
                var y :- ParseTernary(Skip(c.1), d + 1);
                var colon :- Expect(y.1, Colon);
                var n :- ParseTernary(colon.1, d + 1);
                Got(Cond(c.0, y.0, n.0), n.1)
  {
    hide ParseBinary;
  }

  lemma PrimaryUnfolds(ts: seq<Token>, d: nat)
    requires Lexed(ts)
    ensures ParsePrimary(ts, d) ==
            var t := ts[0];
            if d + 1 > MaxDepth then Bad(LimitError)
            else if LiteralAt(t) then Got(Lit(LiteralOf(t)), SkipAny(ts))
            else if t.text == LParen then
              var e :- ParseTernary(Skip(ts), d + 1);
              var close :- Expect(e.1, RParen);
              Got(e.0, close.1)
            else if t.text == LBracket then
              var items :- ParseItems(Skip(ts), RBracket, d + 1);
              Got(ArrayLit(items.0), items.1)
            else if t.text == LBrace then
              var props :- ParseProps(Skip(ts), d + 1);
              Got(ObjectLit(props.0), props.1)
            else if t.kind == Ident then
              var after := SkipAny(ts);
              if At(after, LParen) then
                var args :- ParseItems(Skip(after), RParen, d + 1);
                Got(Call(t.text, args.0), args.1)
              else Got(Id(t.text), after)
            else Bad(SyntaxError)
  {
    hide ParseTernary, ParseItems, ParseProps;
  }

  lemma CallForm(fn: Text, args: seq<Expr>, inner: seq<Token>, rest: seq<Token>, d: nat, n: nat)
    requires fn.Other? && Lexed(rest) && Lexed(inner)
    requires d + 1 <= MaxDepth ==> ParseItems(inner, RParen, d + 1) == Res(args, rest, d + 1 + n)
    ensures ParsePrimary(Put(Word(fn), Put(P(LParen), inner)), d) == Res(Call(fn, args), rest, d + 1 + n)
  {
    hide ParseTernary, ParseItems, ParseProps, Fits;
  }

  lemma ArrayForm(items: seq<Expr>, inner: seq<Token>, rest: seq<Token>, d: nat, n: nat)
    requires Lexed(rest) && Lexed(inner)
    requires d + 1 <= MaxDepth ==> ParseItems(inner, RBracket, d + 1) == Res(items, rest, d + 1 + n)
    ensures ParsePrimary(Put(P(LBracket), inner), d) == Res(ArrayLit(items), rest, d + 1 + n)
  {
    hide ParseTernary, ParseItems, ParseProps, Fits;
  }

  lemma ObjectForm(props: seq<Prop>, inner: seq<Token>, rest: seq<Token>, d: nat, n: nat)
    requires Lexed(rest) && Lexed(inner)
    requires d + 1 <= MaxDepth ==> ParseProps(inner, d + 1) == Res(props, rest, d + 1 + n)
    ensures ParsePrimary(Put(P(LBrace), inner), d) == Res(ObjectLit(props), rest, d + 1 + n)
  {
    hide ParseTernary, ParseItems, ParseProps, Fits;
  }

  lemma LeafForm(e: Expr, rest: seq<Token>, d: nat)
    requires (e.Lit? || e.Id?) && Printable(e) && Lexed(rest) && !At(rest, LParen)
    ensures ParsePrimary(if e.Lit? then Put(LiteralToken(e.lit), rest) else Put(Word(e.name), rest), d) == Res(e, rest, d + 1)
  {
    hide ParseTernary, ParseItems, ParseProps, Fits;
  }

  lemma ItemsUnfold(ts: seq<Token>, close: Text, d: nat)
    requires Lexed(ts) && close != Nothing
    ensures MoreItems(ts, close, d) ==
            var e :- ParseTernary(ts, d);
            if At(e.1, Comma) && !At(Skip(e.1), close) then
              var more :- MoreItems(Skip(e.1), close, d);
              Got([e.0] + more.0, more.1)
            else
              var end :- Expect(if At(e.1, Comma) then Skip(e.1) else e.1, close);
              Got([e.0], end.1)
  {
    hide ParseTernary;
  }

  lemma LastItemForm(e: Expr, close: Text, ts: seq<Token>, rest: seq<Token>, d: nat, n: nat)
    requires Lexed(rest) && Lexed(ts) && (close == RParen || close == RBracket)
    requires ParseTernary(ts, d) == Res(e, Put(P(close), rest), d + n)
    ensures MoreItems(ts, close, d) == Res([e], rest, d + n)
  {
    hide ParseTernary, MoreItems;
    ItemsUnfold(ts, close, d);
  }

  lemma NextItemForm(e: Expr, es: seq<Expr>, close: Text, ts: seq<Token>, more: seq<Token>, rest: seq<Token>,
                     d: nat, n: nat, m: nat)
    requires Lexed(rest) && Lexed(ts) && Lexed(more) && !At(more, close) && (close == RParen || close == RBracket)
    requires ParseTernary(ts, d) == Res(e, Put(P(Comma), more), d + n)
    requires MoreItems(more, close, d) == Res(es, rest, d + m)
    ensures MoreItems(ts, close, d) == Res([e] + es, rest, d + Max(n, m))
  {
    hide ParseTernary, MoreItems;
    ItemsUnfold(ts, close, d);
  }

  lemma PropsUnfold(ts: seq<Token>, d: nat)
    requires Lexed(ts) && KeyKind(ts[0].kind) && !ProtoKey(ts[0].text) && At(SkipAny(ts), Colon)
    ensures MoreProps(ts, d) ==
            var v :- ParseTernary(Skip(SkipAny(ts)), d);
            var p := Prop(ts[0].text, v.0);
            if At(v.1, Comma) && !At(Skip(v.1), RBrace) then
              var more :- MoreProps(Skip(v.1), d);
              Got([p] + more.0, more.1)
            else
              var end :- Expect(if At(v.1, Comma) then Skip(v.1) else v.1, RBrace);
              Got([p], end.1)
  {
    hide ParseTernary, ProtoKey;
  }

  function Keyed(key: Text, value: seq<Token>): seq<Token> {
    Put(Token(Str, key, 0.0), Put(P(Colon), value))
  }

  lemma LastPropForm(p: Prop, value: seq<Token>, rest: seq<Token>, d: nat, n: nat)
    requires Lexed(rest) && Lexed(value) && !ProtoKey(p.key)
    requires ParseTernary(value, d) == Res(p.val, Put(P(RBrace), rest), d + n)
    ensures Lexed(Keyed(p.key, value)) && MoreProps(Keyed(p.key, value), d) == Res([p], rest, d + n)
  {
    hide ParseTernary, MoreProps, ProtoKey;
    PropsUnfold(Keyed(p.key, value), d);
  }

  lemma NextPropForm(p: Prop, ps: seq<Prop>, value: seq<Token>, more: seq<Token>, rest: seq<Token>, d: nat,
                     n: nat, m: nat)
    requires Lexed(rest) && Lexed(value) && Lexed(more) && !At(more, RBrace) && !ProtoKey(p.key)
    requires ParseTernary(value, d) == Res(p.val, Put(P(Comma), more), d + n)
    requires MoreProps(more, d) == Res(ps, rest, d + m)
    ensures Lexed(Keyed(p.key, value)) && MoreProps(Keyed(p.key, value), d) == Res([p] + ps, rest, d + Max(n, m))
  {
    hide ParseTernary, MoreProps, ProtoKey;
    PropsUnfold(Keyed(p.key, value), d);
  }

  // ---------------------------------------------------------------- level by level

  lemma {:induction false} ParenBack(e: Expr, rest: seq<Token>, d: nat)
    requires Printable(e) && Lexed(rest)
    ensures var ts := Put(P(LParen), Emit(e, 0, Put(P(RParen), rest)));
            Lexed(ts) && ParsePrimary(ts, d) == Res(e, rest, d + 1 + Nesting(e, 0))
    decreases e, 1, 0
  {
    hide ParseTernary, ParsePrimary, Emit, Nesting, Fits, Printable, Level;
    var inner := Put(P(RParen), rest);
    EmitLexed(e, 0, inner);
    TernaryBack(e, inner, d + 1);
    ParenForm(e, rest, Emit(e, 0, inner), d, Nesting(e, 0));
  }

  lemma {:induction false} PrimaryBack(e: Expr, rest: seq<Token>, d: nat)
    requires Printable(e) && Level(e) == 12 && Lexed(rest) && !At(rest, LParen)
    ensures Lexed(Emit(e, 12, rest)) && ParsePrimary(Emit(e, 12, rest), d) == Res(e, rest, d + Nesting(e, 12))
    decreases e, 0, 0
  {
    hide ParsePrimary, ParseItems, ParseProps, Emit, EmitItems, EmitProps, Nesting, NestingAll, NestingProps, Fits, Put;
    EmitLexed(e, 12, rest);
    EmitUnfolds(e, 12, rest);
    NestingUnfolds(e, 12);
    match e
    case Call(fn, args) =>
      EmitItemsLexed(args, RParen, rest);
      if d + 1 <= MaxDepth {
        ItemsBack(args, RParen, rest, d + 1);
      }
      CallForm(fn, args, EmitItems(args, RParen, rest), rest, d, NestingAll(args));
    case ArrayLit(items) =>
      EmitItemsLexed(items, RBracket, rest);
      if d + 1 <= MaxDepth {
        ItemsBack(items, RBracket, rest, d + 1);
      }
      ArrayForm(items, EmitItems(items, RBracket, rest), rest, d, NestingAll(items));
    case ObjectLit(props) =>
      EmitPropsLexed(props, rest);
      if d + 1 <= MaxDepth {
        PropsBack(props, rest, d + 1);
      }
      ObjectForm(props, EmitProps(props, rest), rest, d, NestingProps(props));
    case _ =>
      LeafForm(e, rest, d);
  }

  lemma {:induction false} PostfixBack(e: Expr, rest: seq<Token>, d: nat)
    requires Printable(e) && Lexed(rest) && !At(rest, LParen)
    ensures Lexed(Emit(e, 11, rest))
    ensures ParsePostfix(Emit(e, 11, rest), d) == if d + Nesting(e, 11) <= MaxDepth then PostfixLoop(e, rest, d) else Bad(LimitError)
    decreases e, if Level(e) < 11 then 1 else 0, 1
  {
    hide ParsePrimary, ParseTernary, PostfixLoop, Emit, Fits, Nesting, Put;
    EmitLexed(e, 11, rest);
    EmitUnfolds(e, 11, rest);
    NestingUnfolds(e, 11);
    if Level(e) < 11 {
      ParenBack(e, rest, d);
    } else {
      if e.Member? {
        DotForm(e.obj, e.name, rest, d);
        PostfixBack(e.obj, Put(P(Dot), Put(Word(e.name), rest)), d);
      } else if e.Index? {
        var inner := Put(P(RBracket), rest);
        EmitLexed(e.index, 0, inner);
        PostfixBack(e.obj, Put(P(LBracket), Emit(e.index, 0, inner)), d);
        TernaryBack(e.index, inner, d);
        IndexForm(e.obj, e.index, Emit(e.index, 0, inner), rest, d, Nesting(e.index, 0));
      } else {
        EmitUnfolds(e, 12, rest);
        PrimaryBack(e, rest, d);
      }
    }
  }

  lemma {:induction false} UnaryBack(e: Expr, rest: seq<Token>, d: nat)
    requires Printable(e) && Lexed(rest) && Loose(rest)
    ensures Lexed(Emit(e, 10, rest)) && ParseUnary(Emit(e, 10, rest), d) == Res(e, rest, d + Nesting(e, 10))
    decreases e, if Level(e) < 10 then 1 else 0, 2
  {
    hide ParsePostfix, ParseTernary, Emit, Fits, Nesting, Put;
    EmitLexed(e, 10, rest);
    EmitUnfolds(e, 10, rest);
    NestingUnfolds(e, 10);
    if e.Unary? {
      UnaryBack(e.oper, rest, d);
      UnaryForm(e.uop, e.oper, Emit(e.oper, 10, rest), d);
    } else {
      EmitUnfolds(e, 11, rest);
      NestingUnfolds(e, 11);
      FirstToken(e, 11, rest);
      PostfixBack(e, rest, d);
    }
  }

  /** The heart of precedence: printed at a level, a tree is what the operator loop has in hand when it reaches `rest`. */
  lemma {:induction false} BinaryBack(e: Expr, q: int, min: int, rest: seq<Token>, d: nat)
    requires Printable(e) && 1 <= q <= 9 && min <= q && Lexed(rest) && Loose(rest) && PeekPrec(rest) <= q
    ensures Lexed(Emit(e, q, rest))
    ensures ParseBinary(Emit(e, q, rest), min, d) == if d + Nesting(e, q) <= MaxDepth then BinaryLoop(e, rest, min, d + 1) else Bad(LimitError)
    decreases e, if Level(e) < q then 1 else 0, 3
  {
    hide ParseUnary, BinaryLoop, Emit, Fits, Nesting;
    EmitLexed(e, q, rest);
    EmitUnfolds(e, q, rest);
    NestingUnfolds(e, q);
    if e.Bin? && Prec(e.bop) >= q {
      var p := Prec(e.bop);
      var right := Emit(e.right, p + 1, rest);
      EmitLexed(e.right, p + 1, rest);
      BinaryBack(e.left, p, min, Put(P(Op(e.bop)), right), d);
      BinaryBack(e.right, p + 1, p + 1, rest, d + 1);
      BinForm(e.bop, e.left, e.right, min, right, rest, d + 1, Nesting(e.right, p + 1));
    } else {
      EmitUnfolds(e, 10, rest);
      NestingUnfolds(e, 10);
      UnaryBack(e, rest, d + 1);
    }
  }

  lemma {:induction false} TernaryBack(e: Expr, rest: seq<Token>, d: nat)
    requires Printable(e) && Lexed(rest) && Ended(rest)
    ensures Lexed(Emit(e, 0, rest)) && ParseTernary(Emit(e, 0, rest), d) == Res(e, rest, d + Nesting(e, 0))
    decreases e, 0, 4
  {
    hide ParseBinary, ParseTernary, BinaryLoop, Emit, Fits, Nesting, Put;
    EmitLexed(e, 0, rest);
    EmitUnfolds(e, 0, rest);
    NestingUnfolds(e, 0);
    if e.Cond? {
      CondBack(e, rest, d);
    } else {
      EmitUnfolds(e, 1, rest);
      BinaryBack(e, 1, 0, rest, d + 1);
      LoopStops(e, rest, 0, d + 2);
      ConditionalUnfolds(Emit(e, 0, rest), d);
    }
  }

  lemma {:induction false} CondBack(e: Expr, rest: seq<Token>, d: nat)
    requires Printable(e) && e.Cond? && Lexed(rest) && Ended(rest)
    ensures Lexed(Emit(e, 0, rest)) && ParseTernary(Emit(e, 0, rest), d) == Res(e, rest, d + Nesting(e, 0))
    decreases e, 0, 3
  {
    hide ParseBinary, ParseTernary, BinaryLoop, Emit, Fits, Nesting, Put;
    EmitLexed(e, 0, rest);
    EmitUnfolds(e, 0, rest);
    NestingUnfolds(e, 0);
    var no := Emit(e.no, 0, rest);
    EmitLexed(e.no, 0, rest);
    var yes := Emit(e.yes, 0, Put(P(Colon), no));
    EmitLexed(e.yes, 0, Put(P(Colon), no));
    BinaryBack(e.cond, 1, 0, Put(P(Question), yes), d + 1);
    LoopStops(e.cond, Put(P(Question), yes), 0, d + 2);
    TernaryBack(e.yes, Put(P(Colon), no), d + 1);
    TernaryBack(e.no, rest, d + 1);
    CondForm(e.cond, e.yes, e.no, Emit(e, 0, rest), yes, no, rest, d, Nesting(e.cond, 1), Nesting(e.yes, 0), Nesting(e.no, 0));
  }

  lemma LoopStops(e: Expr, rest: seq<Token>, min: int, d: nat)
    requires Lexed(rest) && PeekPrec(rest) < min
    ensures BinaryLoop(e, rest, min, d) == Got(e, rest)
  {
  }

  lemma {:induction false} ItemsBack(es: seq<Expr>, close: Text, rest: seq<Token>, d: nat)
    requires PrintableAll(es) && Lexed(rest) && d <= MaxDepth && (close == RParen || close == RBracket)
    ensures Lexed(EmitItems(es, close, rest))
    ensures ParseItems(EmitItems(es, close, rest), close, d) == Res(es, rest, d + NestingAll(es))
    decreases es, 0, 1
  {
    hide MoreItems, EmitItems, NestingAll;
    EmitItemsLexed(es, close, rest);
    NoItems(close, rest);
    if es != [] {
      FirstItem(es, close, rest);
      MoreItemsBack(es, close, rest, d);
    }
  }

  lemma NoItems(close: Text, rest: seq<Token>)
    ensures NestingAll([]) == 0 && NestingProps([]) == 0
    ensures EmitItems([], close, rest) == Put(P(close), rest) && EmitProps([], rest) == Put(P(RBrace), rest)
  {
  }

  lemma {:induction false} MoreItemsBack(es: seq<Expr>, close: Text, rest: seq<Token>, d: nat)
    requires PrintableAll(es) && Lexed(rest) && d <= MaxDepth && (close == RParen || close == RBracket) && es != []
    ensures Lexed(EmitItems(es, close, rest))
    ensures MoreItems(EmitItems(es, close, rest), close, d) == Res(es, rest, d + NestingAll(es))
    decreases es, 0, 0
  {
    hide ParseTernary, MoreItems, Emit, EmitItems, Nesting, NestingAll, Put, Printable;
    var e, es' := es[0], es[1..];
    EmitItemsLexed(es, close, rest);
    ItemsEmitted(es, close, rest);
    assert es == [e] + es';
    if |es| == 1 {
      assert es == [e];
      TernaryBack(e, Put(P(close), rest), d);
      LastItemForm(e, close, Emit(e, 0, Put(P(close), rest)), rest, d, Nesting(e, 0));
    } else {
      var more := EmitItems(es', close, rest);
      EmitItemsLexed(es', close, rest);
      FirstItem(es', close, rest);
      MoreItemsBack(es', close, rest, d);
      TernaryBack(e, Put(P(Comma), more), d);
      NextItemForm(e, es', close, Emit(e, 0, Put(P(Comma), more)), more, rest, d, Nesting(e, 0), NestingAll(es'));
    }
  }

  lemma ItemsEmitted(es: seq<Expr>, close: Text, rest: seq<Token>)
    requires es != []
    ensures EmitItems(es, close, rest) == Emit(es[0], 0, if |es| == 1 then Put(P(close), rest) else Put(P(Comma), EmitItems(es[1..], close, rest)))
    ensures NestingAll(es) == if |es| == 1 then Nesting(es[0], 0) else Max(Nesting(es[0], 0), NestingAll(es[1..]))
  {
    hide Emit, Nesting, Put;
    if |es| == 1 {
      assert es[1..] == [];
    }
  }

  /** Items do not start with the closing word. */
  lemma FirstItem(es: seq<Expr>, close: Text, rest: seq<Token>)
    requires PrintableAll(es) && es != [] && (close == RParen || close == RBracket)
    ensures var ts := EmitItems(es, close, rest); |ts| > 0 && !At(ts, close)
  {
    hide Emit;
    var tail := if |es| == 1 then Put(P(close), rest) else Put(P(Comma), EmitItems(es[1..], close, rest));
    FirstToken(es[0], 0, tail);
  }

  lemma {:induction false} PropsBack(ps: seq<Prop>, rest: seq<Token>, d: nat)
    requires PrintableProps(ps) && Lexed(rest) && d <= MaxDepth
    ensures Lexed(EmitProps(ps, rest))
    ensures ParseProps(EmitProps(ps, rest), d) == Res(ps, rest, d + NestingProps(ps))
    decreases ps, 0, 1
  {
    hide MoreProps, EmitProps, NestingProps;
    EmitPropsLexed(ps, rest);
    NoItems(RBrace, rest);
    if ps != [] {
      FirstProp(ps, rest);
      MorePropsBack(ps, rest, d);
    }
  }

  lemma {:induction false} MorePropsBack(ps: seq<Prop>, rest: seq<Token>, d: nat)
    requires PrintableProps(ps) && Lexed(rest) && d <= MaxDepth && ps != []
    ensures Lexed(EmitProps(ps, rest))
    ensures MoreProps(EmitProps(ps, rest), d) == Res(ps, rest, d + NestingProps(ps))
    decreases ps, 0, 0
  {
    hide ParseTernary, MoreProps, Emit, EmitProps, EmitProp, NestingProp, NestingProps, Put, Printable, ProtoKey, Keyed;
    var p, ps' := ps[0], ps[1..];
    EmitPropsLexed(ps, rest);
    PropsEmitted(ps, rest);
    assert ps == [p] + ps';
    if |ps| == 1 {
      assert ps == [p];
      PropBack(p, Put(P(RBrace), rest), d);
      LastPropForm(p, Emit(p.val, 0, Put(P(RBrace), rest)), rest, d, NestingProp(p));
    } else {
      var more := EmitProps(ps', rest);
      EmitPropsLexed(ps', rest);
      FirstProp(ps', rest);
      MorePropsBack(ps', rest, d);
      PropBack(p, Put(P(Comma), more), d);
      NextPropForm(p, ps', Emit(p.val, 0, Put(P(Comma), more)), more, rest, d, NestingProp(p), NestingProps(ps'));
    }
  }

  lemma PropsEmitted(ps: seq<Prop>, rest: seq<Token>)
    requires ps != []
    ensures EmitProps(ps, rest) == EmitProp(ps[0], if |ps| == 1 then Put(P(RBrace), rest) else Put(P(Comma), EmitProps(ps[1..], rest)))
    ensures NestingProps(ps) == if |ps| == 1 then NestingProp(ps[0]) else Max(NestingProp(ps[0]), NestingProps(ps[1..]))
  {
    hide EmitProp, NestingProp, Put;
    if |ps| == 1 {
      assert ps[1..] == [];
    }
  }

  lemma FirstProp(ps: seq<Prop>, rest: seq<Token>)
    requires ps != []
    ensures var ts := EmitProps(ps, rest); |ts| > 0 && !At(ts, RBrace)
  {
    hide Emit;
  }

  lemma {:induction false} PropBack(p: Prop, tail: seq<Token>, d: nat)
    requires PrintableProp(p) && Lexed(tail) && Ended(tail)
    ensures !ProtoKey(p.key)
    ensures var value := Emit(p.val, 0, tail);
            Lexed(value) && EmitProp(p, tail) == Keyed(p.key, value) && ParseTernary(value, d) == Res(p.val, tail, d + NestingProp(p))
    decreases p, 0, 0
  {
    hide ParseTernary, Emit, Fits, Nesting, ProtoKey;
    TernaryBack(p.val, tail, d);
  }

  /** Printing a tree and parsing it gives the tree back exactly when it nests at most 32 deep; otherwise the nesting limit. */
  lemma PrintedParsesBack(e: Expr)
    requires Printable(e)
    ensures Lexed(Emit(e, 0, [EofToken]))
    ensures ParseTernary(Emit(e, 0, [EofToken]), 0) == if Nesting(e, 0) <= 32 then Got(e, [EofToken]) else Bad(LimitError)
  {
    hide ParseTernary, Emit, Nesting;
    TernaryBack(e, [EofToken], 0);
  }
}
