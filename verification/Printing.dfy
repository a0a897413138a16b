/** Printing trees with parentheses only where the precedence table needs them; printing and parsing are inverse. */
module Printing {
  import opened Syntax

  // ---------------------------------------------------------------- the printer

  /** How tightly a tree holds together: conditionals 0, operators 1 to 8, unary 10, access 11, everything else 12. */
  function Level(e: Expr): (l: int)
    ensures 0 <= l <= 12
  {
    match e
    case Cond(_, _, _) => 0
    case Bin(op, _, _) => Prec(op)
    case Unary(_, _) => 10
    case Member(_, _) => 11
    case Index(_, _) => 11
    case _ => 12
  }

  function P(text: Text): Token {
    Token(Punct, text, 0.0)
  }

  predicate KeywordText(t: Text) {
    t in {Var, If, Else, Return, True, False, NullWord, Undefined, TypeOfWord}
  }

  function Word(t: Text): Token {
    Token(if t.Other? then Ident else Keyword, t, 0.0)
  }

  function UnaryToken(op: UnOp): Token {
    match op
    case Not => P(Bang)
    case Neg => P(Op(Minus))
    case Pos => P(Op(Plus))
    case TypeOf => Word(TypeOfWord)
  }

  function LiteralToken(l: Literal): Token {
    match l
    case NumLit(num, raw) => Token(Number, raw, num)
    case StrLit(text) => Token(Str, text, 0.0)
    case BoolLit(b) => Word(if b then True else False)
    case NullLit(raw) => Word(raw)
  }

  /** A token in front of others. */
  function Put(t: Token, rest: seq<Token>): (r: seq<Token>)
    ensures |r| == |rest| + 1 && r[0] == t && r[1..] == rest
    ensures Lexed(rest) ==> Lexed(r)
  {
    [t] + rest
  }

  /** The tokens of a tree where the grammar wants at least a level, in front of `rest`. */
  function Emit(e: Expr, lvl: int, rest: seq<Token>): seq<Token>
    decreases e, if Level(e) < lvl then 1 else 0
  {
    if Level(e) < lvl then Put(P(LParen), Emit(e, 0, Put(P(RParen), rest)))
    else
      match e
      case Lit(l) => Put(LiteralToken(l), rest)
      case Id(name) => Put(Word(name), rest)
      case Member(obj, name) => Emit(obj, 11, Put(P(Dot), Put(Word(name), rest)))
      case Index(obj, index) => Emit(obj, 11, Put(P(LBracket), Emit(index, 0, Put(P(RBracket), rest))))
      case Unary(op, oper) => Put(UnaryToken(op), Emit(oper, 10, rest))
      case Bin(op, l, r) => Emit(l, Prec(op), Put(P(Op(op)), Emit(r, Prec(op) + 1, rest)))
      case Cond(c, y, n) => Emit(c, 1, Put(P(Question), Emit(y, 0, Put(P(Colon), Emit(n, 0, rest)))))
      case Call(fn, args) => Put(Word(fn), Put(P(LParen), EmitItems(args, RParen, rest)))
      case ArrayLit(items) => Put(P(LBracket), EmitItems(items, RBracket, rest))
      case ObjectLit(props) => Put(P(LBrace), EmitProps(props, rest))
  }

  function EmitItems(es: seq<Expr>, close: Text, rest: seq<Token>): seq<Token>
    decreases es, 0
  {
    if es == [] then Put(P(close), rest)
    else Emit(es[0], 0, if |es| == 1 then Put(P(close), rest) else Put(P(Comma), EmitItems(es[1..], close, rest)))
  }

  function EmitProps(ps: seq<Prop>, rest: seq<Token>): seq<Token>
    decreases ps, 0
  {
    if ps == [] then Put(P(RBrace), rest)
    else EmitProp(ps[0], if |ps| == 1 then Put(P(RBrace), rest) else Put(P(Comma), EmitProps(ps[1..], rest)))
  }

  function EmitProp(p: Prop, rest: seq<Token>): seq<Token>
    decreases p, 0
  {
    Put(Token(Str, p.key, 0.0), Put(P(Colon), Emit(p.val, 0, rest)))
  }

  lemma {:induction false} EmitLexed(e: Expr, lvl: int, rest: seq<Token>)
    requires Lexed(rest)
    ensures Lexed(Emit(e, lvl, rest))
    decreases e, if Level(e) < lvl then 1 else 0
  {
    hide Put, Lexed, Level;
    if Level(e) < lvl {
      EmitLexed(e, 0, Put(P(RParen), rest));
    } else {
      match e
      case Member(obj, name) => EmitLexed(obj, 11, Put(P(Dot), Put(Word(name), rest)));
      case Index(obj, index) =>
        EmitLexed(index, 0, Put(P(RBracket), rest));
        EmitLexed(obj, 11, Put(P(LBracket), Emit(index, 0, Put(P(RBracket), rest))));
      case Unary(op, oper) => EmitLexed(oper, 10, rest);
      case Bin(op, l, r) =>
        EmitLexed(r, Prec(op) + 1, rest);
        EmitLexed(l, Prec(op), Put(P(Op(op)), Emit(r, Prec(op) + 1, rest)));
      case Cond(c, y, n) =>
        EmitLexed(n, 0, rest);
        EmitLexed(y, 0, Put(P(Colon), Emit(n, 0, rest)));
        EmitLexed(c, 1, Put(P(Question), Emit(y, 0, Put(P(Colon), Emit(n, 0, rest)))));
      case Call(fn, args) => EmitItemsLexed(args, RParen, rest);
      case ArrayLit(items) => EmitItemsLexed(items, RBracket, rest);
      case ObjectLit(props) => EmitPropsLexed(props, rest);
      case _ =>
    }
  }

  lemma {:induction false} EmitItemsLexed(es: seq<Expr>, close: Text, rest: seq<Token>)
    requires Lexed(rest)
    ensures Lexed(EmitItems(es, close, rest))
    decreases es, 0
  {
    hide Put, Lexed, Emit;
    if es != [] {
      if |es| > 1 {
        EmitItemsLexed(es[1..], close, rest);
      }
      EmitLexed(es[0], 0, if |es| == 1 then Put(P(close), rest) else Put(P(Comma), EmitItems(es[1..], close, rest)));
    }
  }

  lemma {:induction false} EmitPropsLexed(ps: seq<Prop>, rest: seq<Token>)
    requires Lexed(rest)
    ensures Lexed(EmitProps(ps, rest))
    decreases ps, 0
  {
    hide Put, Lexed, EmitProp;
    if ps != [] {
      if |ps| > 1 {
        EmitPropsLexed(ps[1..], rest);
      }
      EmitPropLexed(ps[0], if |ps| == 1 then Put(P(RBrace), rest) else Put(P(Comma), EmitProps(ps[1..], rest)));
    }
  }

  lemma EmitPropLexed(p: Prop, rest: seq<Token>)
    requires Lexed(rest)
    ensures Lexed(EmitProp(p, rest))
    decreases p, 0
  {
    hide Put, Lexed, Emit;
    EmitLexed(p.val, 0, rest);
  }

  // ---------------------------------------------------------------- what can be printed, and how deep it nests

  /** Trees whose names and literals are words a lexer can deliver. */
  predicate Printable(e: Expr) {
    match e
    case Lit(NumLit(_, raw)) => raw.Other?
    case Lit(StrLit(_)) => true
    case Lit(BoolLit(_)) => true
    case Lit(NullLit(raw)) => raw == NullWord || raw == Undefined
    case Id(name) => name.Other?
    case Member(obj, name) => Printable(obj) && (name.Other? || KeywordText(name))
    case Index(obj, index) => Printable(obj) && Printable(index)
    case Unary(_, oper) => Printable(oper)
    case Bin(_, l, r) => Printable(l) && Printable(r)
    case Cond(c, y, n) => Printable(c) && Printable(y) && Printable(n)
    case Call(fn, args) => fn.Other? && PrintableAll(args)
    case ArrayLit(items) => PrintableAll(items)
    case ObjectLit(props) => PrintableProps(props)
  }

  predicate PrintableAll(es: seq<Expr>) {
    es == [] || (Printable(es[0]) && PrintableAll(es[1..]))
  }

  predicate PrintableProps(ps: seq<Prop>) {
    ps == [] || (PrintableProp(ps[0]) && PrintableProps(ps[1..]))
  }

  predicate PrintableProp(p: Prop) {
    !ProtoKey(p.key) && Printable(p.val)
  }

  function Max(a: int, b: int): int {
    if a < b then b else a
  }

  /** How many levels of nesting the parser enters for a tree printed at a level. */
  function Nesting(e: Expr, lvl: int): (n: nat)
    decreases e, (if Level(e) < lvl then 1 else 0), if lvl <= 12 then 12 - lvl else 0
  {
    if Level(e) < lvl then (if lvl <= 9 then 2 else 1) + Nesting(e, 0)
    else if lvl <= 0 then
      1 + if e.Cond? then Max(Nesting(e.cond, 1), Max(Nesting(e.yes, 0), Nesting(e.no, 0))) else Nesting(e, 1)
    else if lvl <= 9 then
      if e.Bin? then Max(Nesting(e.left, Prec(e.bop)), 1 + Nesting(e.right, Prec(e.bop) + 1)) else 1 + Nesting(e, 10)
    else if lvl == 10 then
      if e.Unary? then Nesting(e.oper, 10) else Nesting(e, 11)
    else if lvl == 11 then
      if e.Member? then Nesting(e.obj, 11)
      else if e.Index? then Max(Nesting(e.obj, 11), Nesting(e.index, 0))
      else Nesting(e, 12)
    else
      1 + match e
          case Call(_, args) => NestingAll(args)
          case ArrayLit(items) => NestingAll(items)
          case ObjectLit(props) => NestingProps(props)
          case _ => 0
  }

  function NestingAll(es: seq<Expr>): nat
    decreases es, 0, 0
  {
    if es == [] then 0 else Max(Nesting(es[0], 0), NestingAll(es[1..]))
  }

  function NestingProps(ps: seq<Prop>): nat
    decreases ps, 0, 0
  {
    if ps == [] then 0 else Max(NestingProp(ps[0]), NestingProps(ps[1..]))
  }

  function NestingProp(p: Prop): nat
    decreases p, 0, 0
  {
    Nesting(p.val, 0)
  }
}
