/** Rules of the grammar read off small inputs: which operator binds tighter, and which words cannot be keys. */
module GrammarRules {
  import opened Syntax
  import opened Grammar
  import opened Scripts

  /** The levels as the language documents them, by the spelling of the operator. */
  function Level(s: string): int {
    if s == "??" then 1
    else if s == "||" then 2
    else if s == "&&" then 3
    else if s == "==" || s == "!=" then 4
    else if s == "<" || s == ">" || s == "<=" || s == ">=" then 5
    else if s == "+" || s == "-" then 6
    else if s == "*" || s == "/" || s == "%" then 7
    else if s == "**" then 8
    else 0
  }

  function Name(s: string): Token {
    Token(Ident, Other(s), 0.0)
  }

  function Operator(op: BinOp): Token {
    Token(Punct, Text.Op(op), 0.0)
  }

  lemma LevelOf(op: BinOp)
    ensures Prec(op) == Level(SpellOp(op))
  {
  }

  lemma NamePrimary(s: string, rest: seq<Token>, d: nat)
    requires Lexed(rest) && rest[0].text != LParen && rest[0].text != Dot && rest[0].text != LBracket && d < MaxDepth
    ensures Lexed([Name(s)] + rest) && ParseUnary([Name(s)] + rest, d) == Got(Id(Other(s)), rest)
  {
    var ts := [Name(s)] + rest;
    assert ts[1..] == rest;
    assert ParsePrimary(ts, d) == Got(Id(Other(s)), rest);
    assert PostfixLoop(Id(Other(s)), rest, d) == Got(Id(Other(s)), rest);
  }

  /** A name is the first operand of whatever follows. */
  lemma FirstOperand(s: string, rest: seq<Token>, min: int, d: nat)
    requires Lexed(rest) && rest[0].text != LParen && rest[0].text != Dot && rest[0].text != LBracket && d + 1 < MaxDepth
    ensures Lexed([Name(s)] + rest) && ParseBinary([Name(s)] + rest, min, d) == BinaryLoop(Id(Other(s)), rest, min, d + 1)
  {
    hide ParseUnary, BinaryLoop;
    NamePrimary(s, rest, d + 1);
  }

  /** Nothing follows: the expression is complete. */
  lemma LoopStops(left: Expr, min: int, d: nat)
    ensures BinaryLoop(left, [EofToken], min, d) == Got(left, [EofToken])
  {
    hide ParseBinary;
  }

  /** An operator follows: it is taken if its level is high enough. */
  lemma LoopStep(left: Expr, p: BinOp, rest: seq<Token>, min: int, d: nat)
    requires Lexed(rest)
    ensures Lexed([Operator(p)] + rest)
    ensures BinaryLoop(left, [Operator(p)] + rest, min, d)
         == if Level(SpellOp(p)) < min then Got(left, [Operator(p)] + rest)
            else
              var right := ParseBinary(rest, Level(SpellOp(p)) + 1, d);
              if right.Bad? then Bad(right.code) else BinaryLoop(Bin(p, left, right.value), right.rest, min, d)
  {
    hide ParseBinary, SpellOp, Level, Prec;
    LevelOf(p);
    var ts := [Operator(p)] + rest;
    assert ts[1..] == rest && ts[0] == Operator(p);
    assert PeekPrec(ts) == Prec(p);
  }

  /** One operator after an operand, and then the end. */
  lemma OneOperator(left: Expr, q: BinOp, z: string, min: int, d: nat)
    requires d + 1 < MaxDepth
    ensures var ts := [Operator(q)] + ([Name(z)] + [EofToken]);
      Lexed(ts) && BinaryLoop(left, ts, min, d)
        == if Level(SpellOp(q)) >= min then Got(Bin(q, left, Id(Other(z))), [EofToken]) else Got(left, ts)
  {
    hide SpellOp, Level, ParseBinary, BinaryLoop;
    LoopStep(left, q, [Name(z)] + [EofToken], min, d);
    FirstOperand(z, [EofToken], Level(SpellOp(q)) + 1, d);
    LoopStops(Id(Other(z)), Level(SpellOp(q)) + 1, d + 1);
    LoopStops(Bin(q, left, Id(Other(z))), min, d);
  }

  lemma WholeExpression(ts: seq<Token>, e: Expr)
    requires Lexed(ts) && ParseBinary(ts, 0, 1) == Got(e, [EofToken])
    ensures ParseTernary(ts, 0) == Got(e, [EofToken])
  {
    hide ParseBinary;
  }

  /**
   * x p y q z: the operator of the lower level ends up at the top, and between operators of one level the right one does.
   */
  lemma LowerLevelIsOutermost(x: string, p: BinOp, y: string, q: BinOp, z: string)
    ensures var ts := [Name(x), Operator(p), Name(y), Operator(q), Name(z), EofToken];
      var a, b, c := Id(Other(x)), Id(Other(y)), Id(Other(z));
      Lexed(ts) && ParseTernary(ts, 0)
        == Got(if Level(SpellOp(p)) >= Level(SpellOp(q)) then Bin(q, Bin(p, a, b), c) else Bin(p, a, Bin(q, b, c)), [EofToken])
  {
    hide SpellOp, Level, ParseBinary, BinaryLoop, ParseTernary;
    var tail := [Operator(q)] + ([Name(z)] + [EofToken]);
    var mid := [Name(y)] + tail;
    var most := [Operator(p)] + mid;
    var ts := [Name(x), Operator(p), Name(y), Operator(q), Name(z), EofToken];
    var a, b, c := Id(Other(x)), Id(Other(y)), Id(Other(z));
    var l, m := Level(SpellOp(p)), Level(SpellOp(q));
    assert ts == [Name(x)] + most;
    OneOperator(b, q, z, l + 1, 3);
    FirstOperand(y, tail, l + 1, 2);
    LoopStep(a, p, mid, 0, 2);
    FirstOperand(x, most, 0, 1);
    OneOperator(Bin(p, a, b), q, z, 0, 2);
    LoopStops(Bin(p, a, Bin(q, b, c)), 0, 2);
    LevelsArePositive(p);
    LevelsArePositive(q);
    WholeExpression(ts, if l >= m then Bin(q, Bin(p, a, b), c) else Bin(p, a, Bin(q, b, c)));
  }

  lemma LevelsArePositive(op: BinOp)
    ensures Level(SpellOp(op)) > 0
  {
  }

  /** An object whose first key is a prototype word is refused, whatever follows. */
  lemma PrototypeKeysAreRefused(key: string, kind: Kind, num: real, rest: seq<Token>, d: nat)
    requires key in {"__proto__", "constructor", "prototype", "toString", "valueOf", "hasOwnProperty", "isPrototypeOf",
                     "propertyIsEnumerable", "__defineGetter__", "__defineSetter__", "__lookupGetter__", "__lookupSetter__",
                     "caller", "callee", "arguments"}
    requires Lexed(rest) && (kind == Ident || kind == Keyword || kind == Str || kind == Number)
    ensures ParseProps([Token(kind, Other(key), num)] + rest, d) == Bad(ForbiddenError)
  {
    var ts := [Token(kind, Other(key), num)] + rest;
    assert ts[0] == Token(kind, Other(key), num);
  }

  /** Exactly these words are refused as keys; any other word fails for want of a colon. */
  lemma OnlyPrototypeKeysAreRefused(key: string, kind: Kind, num: real, d: nat)
    requires kind == Ident || kind == Keyword || kind == Str || kind == Number
    ensures ParseProps([Token(kind, Other(key), num), EofToken], d)
         == Bad(if key in {"__proto__", "constructor", "prototype", "toString", "valueOf", "hasOwnProperty", "isPrototypeOf",
                           "propertyIsEnumerable", "__defineGetter__", "__defineSetter__", "__lookupGetter__", "__lookupSetter__",
                           "caller", "callee", "arguments"} then ForbiddenError else SyntaxError)
  {
    var ts := [Token(kind, Other(key), num), EofToken];
    assert ts[1..] == [EofToken];
    hide ParseTernary;
  }

  // ---------------------------------------------------------------- words

  /** The word a lexer finds in some characters. */
  function Lexeme(s: string): Text {
    if Level(s) > 0 then Text.Op(OperatorOf(s)) else WordOf(s)
  }

  function WordOf(s: string): Text {
    if s == "!" then Bang
    else if s == "(" then LParen
    else if s == ")" then RParen
    else if s == "[" then LBracket
    else if s == "]" then RBracket
    else if s == "{" then LBrace
    else if s == "}" then RBrace
    else if s == "," then Comma
    else if s == "." then Dot
    else if s == ":" then Colon
    else if s == ";" then Semi
    else if s == "?" then Question
    else if s == "=" then Assign
    else if s == "var" then Var
    else if s == "if" then If
    else if s == "else" then Else
    else if s == "return" then Return
    else if s == "true" then True
    else if s == "false" then False
    else if s == "null" then NullWord
    else if s == "undefined" then Undefined
    else if s == "typeof" then TypeOfWord
    else if s == "" then Nothing
    else Other(s)
  }

  function OperatorOf(s: string): BinOp
    requires Level(s) > 0
  {
    if s == "??" then Coalesce
    else if s == "||" then Or
    else if s == "&&" then And
    else if s == "==" then Eq
    else if s == "!=" then Ne
    else if s == "<" then Lt
    else if s == ">" then Gt
    else if s == "<=" then Le
    else if s == ">=" then Ge
    else if s == "+" then Plus
    else if s == "-" then Minus
    else if s == "*" then Times
    else if s == "/" then Over
    else if s == "%" then Rem
    else Power
  }

  /** Reading and spelling are inverse: no two words look alike. */
  lemma ReadingSpells(s: string, t: Text)
    ensures Spell(Lexeme(s)) == s
    ensures !t.Other? ==> Lexeme(Spell(t)) == t
  {
    hide WordOf, OperatorOf, Level, SpellOp;
    if Level(s) > 0 {
      OperatorSpells(s);
    } else {
      WordSpells(s);
    }
    if t.Op? {
      OperatorReads(t.op);
    } else if !t.Other? {
      WordReads(t);
    }
  }

  lemma OperatorSpells(s: string)
    requires Level(s) > 0
    ensures SpellOp(OperatorOf(s)) == s
  {
  }

  lemma WordSpells(s: string)
    ensures Spell(WordOf(s)) == s
  {
  }

  lemma OperatorReads(op: BinOp)
    ensures Level(SpellOp(op)) > 0 && OperatorOf(SpellOp(op)) == op
  {
  }

  lemma WordReads(t: Text)
    requires !t.Op? && !t.Other?
    ensures Level(Spell(t)) == 0 && WordOf(Spell(t)) == t
  {
  }

  lemma Signs()
    ensures Lexeme("=") == Assign && Lexeme(",") == Comma && Lexeme(";") == Semi && Lexeme("}") == RBrace
    ensures Lexeme("!") == Bang && Lexeme("+") == Text.Op(Plus) && Lexeme("-") == Text.Op(Minus)
  {
    hide Lexeme;
    ReadingSpells("", Assign);
    ReadingSpells("", Comma);
    ReadingSpells("", Semi);
    ReadingSpells("", RBrace);
    ReadingSpells("", Bang);
    ReadingSpells("", Text.Op(Plus));
    ReadingSpells("", Text.Op(Minus));
  }

  lemma Keywords()
    ensures Lexeme("var") == Var && Lexeme("if") == If && Lexeme("else") == Else && Lexeme("return") == Return
    ensures Lexeme("typeof") == TypeOfWord
  {
    hide Lexeme;
    ReadingSpells("", Var);
    ReadingSpells("", If);
    ReadingSpells("", Else);
    ReadingSpells("", Return);
    ReadingSpells("", TypeOfWord);
  }

  lemma NotNothing(s: string)
    requires s != ""
    ensures Lexeme(s) != Nothing
  {
  }

  function Mark(s: string): Token {
    Token(Punct, Lexeme(s), 0.0)
  }

  function Reserved(s: string): Token {
    Token(Keyword, Lexeme(s), 0.0)
  }

  // ---------------------------------------------------------------- small expressions

  /** A sign or typeof in front of a name. */
  lemma PrefixOperator(t: Token, op: UnOp, x: string)
    requires || (t == Mark("!") && op == Not) || (t == Mark("-") && op == Neg) || (t == Mark("+") && op == Pos)
             || (t == Reserved("typeof") && op == TypeOf)
    ensures var ts := [t] + [Name(x), EofToken];
      Lexed(ts) && ParseTernary(ts, 0) == Got(Unary(op, Id(Other(x))), [EofToken])
  {
    hide ParseTernary, ParseBinary, Lexeme;
    Signs();
    Keywords();
    var ts := [t] + [Name(x), EofToken];
    assert ts[1..] == [Name(x)] + [EofToken];
    NamePrimary(x, [EofToken], 2);
    assert ParseUnary(ts, 2) == Got(Unary(op, Id(Other(x))), [EofToken]);
    OperandAlone(ts, Unary(op, Id(Other(x))));
  }

  lemma OperandAlone(ts: seq<Token>, e: Expr)
    requires Lexed(ts) && ParseUnary(ts, 2) == Got(e, [EofToken])
    ensures ParseTernary(ts, 0) == Got(e, [EofToken])
  {
    hide ParseUnary, BinaryLoop, ParseTernary;
    LoopStops(e, 0, 2);
    WholeExpression(ts, e);
  }

  /** A literal is the number or text of its token, or one of four words. */
  lemma Literals(t: Token, l: Literal)
    requires || (t.kind == Number && l == NumLit(t.num, t.text)) || (t.kind == Str && l == StrLit(t.text))
             || (t == Reserved("true") && l == BoolLit(true)) || (t == Reserved("false") && l == BoolLit(false))
             || (t == Reserved("null") && l == NullLit(t.text)) || (t == Reserved("undefined") && l == NullLit(t.text))
    ensures Lexed([t, EofToken]) && ParseTernary([t, EofToken], 0) == Got(Lit(l), [EofToken])
  {
    hide ParseTernary, ParseBinary, Lexeme;
    LiteralWords();
    var ts := [t, EofToken];
    assert ts[1..] == [EofToken];
    assert ParsePrimary(ts, 2) == Got(Lit(l), [EofToken]);
    assert PostfixLoop(Lit(l), [EofToken], 2) == Got(Lit(l), [EofToken]);
    OperandAlone(ts, Lit(l));
  }

  lemma LiteralWords()
    ensures Lexeme("true") == True && Lexeme("false") == False && Lexeme("null") == NullWord && Lexeme("undefined") == Undefined
  {
    hide Lexeme;
    ReadingSpells("", True);
    ReadingSpells("", False);
    ReadingSpells("", NullWord);
    ReadingSpells("", Undefined);
  }

  lemma Brackets()
    ensures Lexeme("?") == Question && Lexeme(":") == Colon && Lexeme(".") == Dot
    ensures Lexeme("(") == LParen && Lexeme(")") == RParen && Lexeme("[") == LBracket && Lexeme("]") == RBracket
  {
    hide Lexeme;
    ReadingSpells("", Question);
    ReadingSpells("", Colon);
    ReadingSpells("", Dot);
    ReadingSpells("", LParen);
    ReadingSpells("", RParen);
    ReadingSpells("", LBracket);
    ReadingSpells("", RBracket);
  }

  /** x ? y : z has its condition first, then the branch for a true one. */
  lemma Conditional(x: string, y: string, z: string)
    ensures var ts := [Name(x), Mark("?"), Name(y), Mark(":"), Name(z), EofToken];
      Lexed(ts) && ParseTernary(ts, 0) == Got(Cond(Id(Other(x)), Id(Other(y)), Id(Other(z))), [EofToken])
  {
    hide ParseTernary, Lexeme;
    Brackets();
    var last := [Name(z)] + [EofToken];
    var mid := [Name(y)] + ([Mark(":")] + last);
    var ts := [Name(x), Mark("?"), Name(y), Mark(":"), Name(z), EofToken];
    assert ts == [Name(x)] + ([Mark("?")] + mid);
    NameAlone(z, [EofToken], 1);
    NameAlone(y, [Mark(":")] + last, 1);
    NameThenMark(x, [Mark("?")] + mid);
    assert ([Mark("?")] + mid)[1..] == mid && ([Mark(":")] + last)[1..] == last;
    TernaryUnfolds(ts);
  }

  /** Before a word that is no operator a name is a whole expression. */
  lemma NameAlone(x: string, rest: seq<Token>, d: nat)
    requires Lexed(rest) && d + 4 < MaxDepth && rest[0].text in {Colon, RParen, RBracket, Comma, Nothing}
    ensures Lexed([Name(x)] + rest) && ParseTernary([Name(x)] + rest, d) == Got(Id(Other(x)), rest)
  {
    hide ParseUnary, ParseTernary;
    NamePrimary(x, rest, d + 2);
    assert BinaryLoop(Id(Other(x)), rest, 0, d + 2) == Got(Id(Other(x)), rest);
    TernaryOf([Name(x)] + rest, d);
  }

  lemma TernaryOf(ts: seq<Token>, d: nat)
    requires Lexed(ts) && d < MaxDepth
    ensures var c := ParseBinary(ts, 0, d + 1);
      c.Got? && !At(c.rest, Question) ==> ParseTernary(ts, d) == c
  {
    hide ParseBinary;
  }

  lemma NameThenMark(x: string, rest: seq<Token>)
    requires Lexed(rest) && rest[0] == Mark("?")
    ensures Lexed([Name(x)] + rest) && ParseBinary([Name(x)] + rest, 0, 1) == Got(Id(Other(x)), rest)
  {
    hide ParseUnary, Lexeme;
    Brackets();
    NamePrimary(x, rest, 2);
  }

  lemma TernaryUnfolds(ts: seq<Token>)
    requires Lexed(ts) && ParseBinary(ts, 0, 1).Got? && At(ParseBinary(ts, 0, 1).rest, Question)
    ensures ParseTernary(ts, 0) ==
            var c :- ParseBinary(ts, 0, 1);
            var y :- ParseTernary(Skip(c.1), 1);
            var colon :- Expect(y.1, Colon);
            var n :- ParseTernary(colon.1, 1);
            Got(Cond(c.0, y.0, n.0), n.1)
  {
    hide ParseBinary;
  }

  /** x[y] is the item of x at y, and f(x, y) the call of f with x first. */
  lemma ItemsAndCalls(x: string, y: string, f: string)
    ensures var item := [Name(x), Mark("["), Name(y), Mark("]"), EofToken];
      Lexed(item) && ParseUnary(item, 2) == Got(Index(Id(Other(x)), Id(Other(y))), [EofToken])
    ensures var call := [Name(f), Mark("("), Name(x), Mark(","), Name(y), Mark(")"), EofToken];
      Lexed(call) && ParseUnary(call, 2) == Got(Call(Other(f), [Id(Other(x)), Id(Other(y))]), [EofToken])
  {
    hide ParseTernary, ParseUnary, Lexeme;
    ItemOf(x, y);
    CallOfTwo(f, x, y);
  }

  lemma ItemOf(x: string, y: string)
    ensures var item := [Name(x), Mark("["), Name(y), Mark("]"), EofToken];
      Lexed(item) && ParseUnary(item, 2) == Got(Index(Id(Other(x)), Id(Other(y))), [EofToken])
  {
    hide ParseTernary, ParsePrimary, PostfixLoop, Lexeme;
    Brackets();
    var inner := [Name(y)] + ([Mark("]")] + [EofToken]);
    var item := [Name(x), Mark("["), Name(y), Mark("]"), EofToken];
    assert item == [Name(x)] + ([Mark("[")] + inner);
    NamePrimaryOnly(x, [Mark("[")] + inner, 2);
    ItemAfter(Id(Other(x)), y);
  }

  lemma NamePrimaryOnly(s: string, rest: seq<Token>, d: nat)
    requires Lexed(rest) && rest[0].text != LParen && d < MaxDepth
    ensures Lexed([Name(s)] + rest) && ParsePrimary([Name(s)] + rest, d) == Got(Id(Other(s)), rest)
  {
    assert ([Name(s)] + rest)[1..] == rest;
  }

  lemma ItemAfter(e: Expr, y: string)
    ensures var ts := [Mark("[")] + ([Name(y)] + ([Mark("]")] + [EofToken]));
      Lexed(ts) && PostfixLoop(e, ts, 2) == Got(Index(e, Id(Other(y))), [EofToken])
  {
    hide ParseTernary, Lexeme;
    Brackets();
    var close := [Mark("]")] + [EofToken];
    var inner := [Name(y)] + close;
    assert ([Mark("[")] + inner)[1..] == inner && close[1..] == [EofToken];
    NameAlone(y, close, 2);
    assert PostfixLoop(Index(e, Id(Other(y))), [EofToken], 2) == Got(Index(e, Id(Other(y))), [EofToken]);
  }

  lemma CallOfTwo(f: string, x: string, y: string)
    ensures var call := [Name(f), Mark("("), Name(x), Mark(","), Name(y), Mark(")"), EofToken];
      Lexed(call) && ParseUnary(call, 2) == Got(Call(Other(f), [Id(Other(x)), Id(Other(y))]), [EofToken])
  {
    hide Mark, ParseUnary, ParseItems;
    var items := [Name(x), Mark(","), Name(y), Mark(")"), EofToken];
    assert [Name(f), Mark("("), Name(x), Mark(","), Name(y), Mark(")"), EofToken] == [Name(f)] + ([Mark("(")] + items);
    TwoItems(x, y);
    CallOf(f, items, [Id(Other(x)), Id(Other(y))]);
  }

  lemma TwoItems(x: string, y: string)
    ensures var items := [Name(x), Mark(","), Name(y), Mark(")"), EofToken];
      Lexed(items) && ParseItems(items, RParen, 3) == Got([Id(Other(x)), Id(Other(y))], [EofToken])
  {
    hide ParseTernary, Lexeme;
    Signs();
    var second := [Name(y)] + ([Mark(")")] + [EofToken]);
    var items := [Name(x)] + ([Mark(",")] + second);
    assert items == [Name(x), Mark(","), Name(y), Mark(")"), EofToken];
    assert ([Mark(",")] + second)[1..] == second;
    NameAlone(x, [Mark(",")] + second, 3);
    LastItem(y);
    assert [Id(Other(x))] + [Id(Other(y))] == [Id(Other(x)), Id(Other(y))];
  }

  lemma LastItem(y: string)
    ensures var ts := [Name(y)] + ([Mark(")")] + [EofToken]);
      Lexed(ts) && MoreItems(ts, RParen, 3) == Got([Id(Other(y))], [EofToken])
  {
    hide ParseTernary, Lexeme;
    Brackets();
    var close := [Mark(")")] + [EofToken];
    assert close[1..] == [EofToken];
    NameAlone(y, close, 3);
  }

  lemma CallOf(f: string, items: seq<Token>, args: seq<Expr>)
    requires Lexed(items) && ParseItems(items, RParen, 3) == Got(args, [EofToken])
    ensures var ts := [Name(f)] + ([Mark("(")] + items);
      Lexed(ts) && ParseUnary(ts, 2) == Got(Call(Other(f), args), [EofToken])
  {
    hide ParsePrimary, ParseItems;
    CallPrimary(f, items, args);
    assert PostfixLoop(Call(Other(f), args), [EofToken], 2) == Got(Call(Other(f), args), [EofToken]);
  }

  lemma CallPrimary(f: string, items: seq<Token>, args: seq<Expr>)
    requires Lexed(items) && ParseItems(items, RParen, 3) == Got(args, [EofToken])
    ensures var ts := [Name(f)] + ([Mark("(")] + items);
      Lexed(ts) && ParsePrimary(ts, 2) == Got(Call(Other(f), args), [EofToken]) && UnaryAt(ts[0]) == []
  {
    hide ParseItems, Lexeme;
    Brackets();
    var after := [Mark("(")] + items;
    assert ([Name(f)] + after)[1..] == after && after[1..] == items;
  }

  /** Only signs are operators: before a string literal spelled as one the expression ends, and it is no prefix either. */
  lemma OnlySignsAreOperators(left: Expr, t: Token, rest: seq<Token>, min: int, d: nat)
    requires Lexed([t] + rest) && t.kind != Punct
    ensures BinaryLoop(left, [t] + rest, min, d) == Got(left, [t] + rest)
    ensures t.kind != Keyword ==> ParseUnary([t] + rest, d) == ParsePostfix([t] + rest, d)
  {
    hide ParseBinary, ParsePostfix;
    assert ([t] + rest)[0] == t;
  }

  /** A text that ends, or goes on with a sign no expression starts with, is a syntax error. */
  lemma NoExpression(t: Token, rest: seq<Token>, d: nat)
    requires Lexed([t] + rest) && d + 1 <= 32
    requires t == EofToken || t in {Mark(")"), Mark("]"), Mark("}"), Mark(","), Mark(";"), Mark("=")}
    ensures ParsePrimary([t] + rest, d) == Bad(SyntaxError)
  {
    hide ParseTernary, ParseItems, ParseProps, Lexeme;
    Brackets();
    Signs();
    assert ([t] + rest)[0] == t;
  }

  /** A declaration without a name, a dot without a property and a block without an end are syntax errors. */
  lemma SyntaxErrors(e: Expr, t: Token, rest: seq<Token>, d: nat)
    requires Lexed([t] + rest) && t.kind != Ident
    ensures Lexed([Reserved("var")] + ([t] + rest)) && ParseStatement([Reserved("var")] + ([t] + rest)) == Bad(SyntaxError)
    ensures t.kind != Keyword ==> Lexed([Mark(".")] + ([t] + rest)) && PostfixLoop(e, [Mark(".")] + ([t] + rest), d) == Bad(SyntaxError)
    ensures ParseStatements([EofToken], true) == Bad(SyntaxError) && ParseStatements([EofToken], false) == Got([], [EofToken])
  {
    hide ParseTernary, Lexeme, ParseStatements, ParseStatement;
    Keywords();
    DeclarationNeedsName(t, rest);
    if t.kind != Keyword {
      DotNeedsName(e, t, rest, d);
    }
    StatementsUnfold([EofToken], true);
    StatementsUnfold([EofToken], false);
  }

  lemma DeclarationNeedsName(t: Token, rest: seq<Token>)
    requires Lexed([t] + rest) && t.kind != Ident
    ensures Lexed([Reserved("var")] + ([t] + rest)) && ParseStatement([Reserved("var")] + ([t] + rest)) == Bad(SyntaxError)
  {
    hide ParseTernary, Lexeme;
    Keywords();
    assert ([Reserved("var")] + ([t] + rest))[1..] == [t] + rest && ([t] + rest)[0] == t;
  }

  lemma DotNeedsName(e: Expr, t: Token, rest: seq<Token>, d: nat)
    requires Lexed([t] + rest) && t.kind != Ident && t.kind != Keyword
    ensures Lexed([Mark(".")] + ([t] + rest)) && PostfixLoop(e, [Mark(".")] + ([t] + rest), d) == Bad(SyntaxError)
  {
    hide ParseTernary, Lexeme;
    Brackets();
    assert ([Mark(".")] + ([t] + rest))[1..] == [t] + rest && ([t] + rest)[0] == t;
  }

  // ---------------------------------------------------------------- other ways to write the same

  /** A declaration is an assignment. */
  lemma DeclarationIsAssignment(s: string, rest: seq<Token>)
    requires Lexed(rest)
    ensures var short := [Name(s)] + ([Mark("=")] + rest);
      Lexed(short) && Lexed([Reserved("var")] + short) && ParseStatement([Reserved("var")] + short) == ParseStatement(short)
  {
    hide ParseTernary, Lexeme;
    Signs();
    Keywords();
    var tail := [Mark("=")] + rest;
    var short := [Name(s)] + tail;
    assert ([Reserved("var")] + short)[1..] == short && short[1..] == tail && tail[1..] == rest;
  }

  /** A return without a value returns null. */
  lemma BareReturnIsNull(t: Token, rest: seq<Token>)
    requires Lexed([t] + rest) && ((t.kind != Str && (t.text == Lexeme(";") || t.text == Lexeme("}"))) || t.kind == Eof)
    ensures var ts := [Reserved("return")] + ([t] + rest);
      Lexed(ts) && ParseStatement(ts) == Got(ReturnStmt(Lit(NullLit(Nothing))), [t] + rest)
  {
    hide ParseTernary, Lexeme;
    Signs();
    Keywords();
    assert ([Reserved("return")] + ([t] + rest))[1..] == [t] + rest;
  }

  /** An else-if is an else whose block holds that if alone. */
  lemma ElseIfIsElse(c: Expr, yes: seq<Stmt>, rest: seq<Token>)
    requires Lexed(rest)
    ensures var ts := [Reserved("else")] + ([Reserved("if")] + rest);
      var inner := ParseStatement([Reserved("if")] + rest);
      Lexed(ts) && Lexed([Reserved("if")] + rest)
      && ParseElse(c, yes, ts) == if inner.Bad? then Bad(inner.code) else Got(IfStmt(c, yes, [inner.value]), inner.rest)
  {
    hide ParseTernary, ParseIf, Lexeme;
    Keywords();
    var one := [Reserved("if")] + rest;
    var ts := [Reserved("else")] + one;
    assert ts[1..] == one && one[1..] == rest;
    ElseUnfolds(c, yes, ts);
  }

  /** Without an else there is nothing to do when the condition fails. */
  lemma NoElse(c: Expr, yes: seq<Stmt>, ts: seq<Token>)
    requires Lexed(ts) && ts[0].text != Lexeme("else")
    ensures ParseElse(c, yes, ts) == Got(IfStmt(c, yes, []), ts)
  {
    hide Lexeme;
    Keywords();
  }

  /** A comma before the closing word of a list changes nothing. */
  lemma TrailingComma(ts: seq<Token>, e: Expr, close: string, rest: seq<Token>, d: nat)
    requires Lexed(ts) && Lexed(rest) && close != ""
    requires ParseTernary(ts, d) == Got(e, [Mark(",")] + ([Mark(close)] + rest))
    ensures Lexeme(close) != Nothing && MoreItems(ts, Lexeme(close), d) == Got([e], rest)
  {
    hide ParseTernary, Lexeme;
    Signs();
    NotNothing(close);
    var tail := [Mark(close)] + rest;
    assert ([Mark(",")] + tail)[1..] == tail && tail[1..] == rest;
  }
}
