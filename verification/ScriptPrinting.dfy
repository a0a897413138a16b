/** Printing whole scripts, and the round trip for them. */
module ScriptPrinting {
  import opened Syntax
  import opened Grammar
  import opened Scripts
  import opened Printing
  import opened RoundTrip

  // ---------------------------------------------------------------- the printer

  /** A string literal that the statement loop would take for punctuation. */
  predicate Swallowed(t: Token) {
    t.kind == Str && (t.text == Semi || t.text == RBrace)
  }

  /** An expression statement; parentheses keep a leading string literal from being swallowed. */
  function EmitExprStmt(e: Expr, rest: seq<Token>): seq<Token> {
    var ts := Emit(e, 0, rest);
    if ts != [] && Swallowed(ts[0]) then Put(P(LParen), Emit(e, 0, Put(P(RParen), rest))) else ts
  }

  const NoValue := Lit(NullLit(Nothing))

  function EmitStmt(s: Stmt, rest: seq<Token>): seq<Token>
    decreases s, 0
  {
    match s
    case AssignStmt(name, val) => Put(Word(name), Put(P(Assign), Emit(val, 0, rest)))
    case ReturnStmt(val) => Put(Word(Return), if val == NoValue then rest else Emit(val, 0, rest))
    case ExprStmt(e) => EmitExprStmt(e, rest)
    case IfStmt(c, yes, no) =>
      Put(Word(If), Put(P(LParen), Emit(c, 0, Put(P(RParen), EmitBraces(yes,
        if no == [] then rest else Put(Word(Else), EmitBraces(no, rest)))))))
  }

  function EmitBraces(b: seq<Stmt>, rest: seq<Token>): seq<Token>
    decreases b, 1
  {
    Put(P(LBrace), EmitBlock(b, Put(P(RBrace), rest)))
  }

  /** Statements, each closed by a semicolon. */
  function EmitBlock(b: seq<Stmt>, rest: seq<Token>): seq<Token>
    decreases b, 0
  {
    if b == [] then rest else EmitStmt(b[0], Put(P(Semi), EmitBlock(b[1..], rest)))
  }

  predicate PrintableStmt(s: Stmt) {
    match s
    case AssignStmt(name, val) => name.Other? && Printable(val)
    case ReturnStmt(val) => val == NoValue || Printable(val)
    case ExprStmt(e) => Printable(e)
    case IfStmt(c, yes, no) => Printable(c) && PrintableBlock(yes) && PrintableBlock(no)
  }

  predicate PrintableBlock(b: seq<Stmt>) {
    b == [] || (PrintableStmt(b[0]) && PrintableBlock(b[1..]))
  }

  /** How deep an expression statement nests: parentheses around all of it cost three levels. */
  function ExprStmtNesting(e: Expr): nat {
    var ts := Emit(e, 0, [EofToken]);
    (if ts != [] && Swallowed(ts[0]) then 3 else 0) + Nesting(e, 0)
  }

  function StmtNesting(s: Stmt): nat {
    match s
    case AssignStmt(_, val) => Nesting(val, 0)
    case ReturnStmt(val) => if val == NoValue then 0 else Nesting(val, 0)
    case ExprStmt(e) => ExprStmtNesting(e)
    case IfStmt(c, yes, no) => Max(Nesting(c, 0), Max(BlockNesting(yes), BlockNesting(no)))
  }

  function BlockNesting(b: seq<Stmt>): nat {
    if b == [] then 0 else Max(StmtNesting(b[0]), BlockNesting(b[1..]))
  }

  // ---------------------------------------------------------------- printed tokens

  lemma {:induction false} StmtLexed(s: Stmt, rest: seq<Token>)
    requires Lexed(rest)
    ensures Lexed(EmitStmt(s, rest))
    decreases s, 0
  {
    hide Emit, EmitBlock, Put, Lexed;
    match s
    case AssignStmt(_, val) => EmitLexed(val, 0, rest);
    case ReturnStmt(val) => EmitLexed(val, 0, rest);
    case ExprStmt(e) =>
      EmitLexed(e, 0, rest);
      EmitLexed(e, 0, Put(P(RParen), rest));
    case IfStmt(c, yes, no) =>
      BracesLexed(no, rest);
      var tail := if no == [] then rest else Put(Word(Else), EmitBraces(no, rest));
      BracesLexed(yes, tail);
      EmitLexed(c, 0, Put(P(RParen), EmitBraces(yes, tail)));
  }

  lemma {:induction false} BracesLexed(b: seq<Stmt>, rest: seq<Token>)
    requires Lexed(rest)
    ensures Lexed(EmitBraces(b, rest))
    decreases b, 1
  {
    hide EmitBlock, Put, Lexed;
    BlockLexed(b, Put(P(RBrace), rest));
  }

  lemma {:induction false} BlockLexed(b: seq<Stmt>, rest: seq<Token>)
    requires Lexed(rest)
    ensures Lexed(EmitBlock(b, rest))
    decreases b, 0
  {
    hide EmitStmt, Put, Lexed;
    if b != [] {
      BlockLexed(b[1..], rest);
      StmtLexed(b[0], Put(P(Semi), EmitBlock(b[1..], rest)));
    }
  }

  /** An expression starts with no word that begins another statement, and a leading name is not assigned to. */
  predicate StartsExpression(ts: seq<Token>) {
    |ts| > 1
    && (ts[0].kind == Keyword ==> ts[0].text != Var && ts[0].text != If && ts[0].text != Return)
    && (ts[0].kind == Ident ==> ts[1].text != Assign)
  }

  lemma {:induction false} ExpressionStarts(e: Expr, lvl: int, rest: seq<Token>)
    requires Printable(e) && |rest| > 0 && rest[0].text != Assign
    ensures StartsExpression(Emit(e, lvl, rest))
    decreases e, if Level(e) < lvl then 1 else 0
  {
    hide Emit, Nesting, EmitItems, EmitProps;
    EmitUnfolds(e, lvl, rest);
    if Level(e) < lvl {
      FirstToken(e, 0, Put(P(RParen), rest));
    } else {
      match e
      case Member(obj, name) => ExpressionStarts(obj, 11, Put(P(Dot), Put(Word(name), rest)));
      case Index(obj, index) => ExpressionStarts(obj, 11, Put(P(LBracket), Emit(index, 0, Put(P(RBracket), rest))));
      case Unary(op, oper) => FirstToken(oper, 10, rest);
      case Bin(op, l, r) => ExpressionStarts(l, Prec(op), Put(P(Op(op)), Emit(r, Prec(op) + 1, rest)));
      case Cond(c, y, n) => ExpressionStarts(c, 1, Put(P(Question), Emit(y, 0, Put(P(Colon), Emit(n, 0, rest)))));
      case ArrayLit(items) => ItemsStart(items, RBracket, rest);
      case ObjectLit(props) => PropsStart(props, rest);
      case _ =>
    }
  }

  lemma ItemsStart(es: seq<Expr>, close: Text, rest: seq<Token>)
    requires PrintableAll(es) && (close == RParen || close == RBracket)
    ensures |EmitItems(es, close, rest)| > 0
  {
    hide Emit;
    if es != [] {
      FirstItem(es, close, rest);
    }
  }

  lemma PropsStart(ps: seq<Prop>, rest: seq<Token>)
    ensures |EmitProps(ps, rest)| > 0
  {
    hide Emit;
  }

  /** The first token of a tree does not depend on what follows it. */
  lemma {:induction false} SameStart(e: Expr, lvl: int, a: seq<Token>, b: seq<Token>)
    requires Printable(e)
    ensures Emit(e, lvl, a) != [] && Emit(e, lvl, b) != [] && Emit(e, lvl, a)[0] == Emit(e, lvl, b)[0]
    decreases e, if Level(e) < lvl then 1 else 0
  {
    hide Emit, Nesting, EmitItems, EmitProps;
    EmitUnfolds(e, lvl, a);
    EmitUnfolds(e, lvl, b);
    if Level(e) >= lvl {
      match e
      case Member(obj, name) => SameStart(obj, 11, Put(P(Dot), Put(Word(name), a)), Put(P(Dot), Put(Word(name), b)));
      case Index(obj, index) =>
        SameStart(obj, 11, Put(P(LBracket), Emit(index, 0, Put(P(RBracket), a))), Put(P(LBracket), Emit(index, 0, Put(P(RBracket), b))));
      case Bin(op, l, r) =>
        SameStart(l, Prec(op), Put(P(Op(op)), Emit(r, Prec(op) + 1, a)), Put(P(Op(op)), Emit(r, Prec(op) + 1, b)));
      case Cond(c, y, n) =>
        SameStart(c, 1, Put(P(Question), Emit(y, 0, Put(P(Colon), Emit(n, 0, a)))), Put(P(Question), Emit(y, 0, Put(P(Colon), Emit(n, 0, b)))));
      case _ =>
    }
  }

  // ---------------------------------------------------------------- the round trip

  /** A statement stands before a semicolon. */
  predicate BeforeSemi(rest: seq<Token>) {
    |rest| > 0 && rest[0] == P(Semi)
  }

  lemma ExprStmtBack(e: Expr, rest: seq<Token>)
    requires Printable(e) && Lexed(rest) && BeforeSemi(rest)
    ensures var ts := EmitExprStmt(e, rest);
            Lexed(ts) && ts[0].kind != Eof && !Swallowed(ts[0]) && !Closing(ts[0])
            && ParseStatement(ts) == Res(ExprStmt(e), rest, ExprStmtNesting(e))
  {
    hide ParseTernary, ParseStatement, Emit, Nesting, Printable, Put;
    SameStart(e, 0, rest, [EofToken]);
    EmitLexed(e, 0, rest);
    FirstToken(e, 0, rest);
    if Swallowed(Emit(e, 0, rest)[0]) {
      GroupedBack(e, rest);
    } else {
      ExpressionStarts(e, 0, rest);
      TernaryBack(e, rest, 0);
      ExpressionForm(Emit(e, 0, rest), e, rest, Nesting(e, 0));
    }
  }

  lemma ExpressionForm(ts: seq<Token>, e: Expr, rest: seq<Token>, n: nat)
    requires Lexed(ts) && StartsExpression(ts) && ts[0].kind != Eof && ParseTernary(ts, 0) == Res(e, rest, n)
    ensures ParseStatement(ts) == Res(ExprStmt(e), rest, n)
  {
    hide ParseTernary, ParseIf, ParseDeclaration, ParseReturn, StmtFits, Fits, Nodes, StmtNodes;
  }

  /** A whole expression in parentheses takes three levels more. */
  lemma GroupedBack(e: Expr, rest: seq<Token>)
    requires Printable(e) && Lexed(rest) && BeforeSemi(rest)
    ensures var ts := Put(P(LParen), Emit(e, 0, Put(P(RParen), rest)));
            Lexed(ts) && ParseStatement(ts) == Res(ExprStmt(e), rest, 3 + Nesting(e, 0))
  {
    hide ParseTernary, ParseStatement, ParsePrimary, ParseBinary, Emit, Nesting, Printable, Put, Fits;
    var inner := Put(P(RParen), rest);
    var ts := Put(P(LParen), Emit(e, 0, inner));
    EmitLexed(e, 0, inner);
    FirstToken(e, 0, inner);
    GroupedTernary(e, ts, rest);
    ExpressionForm(ts, e, rest, 3 + Nesting(e, 0));
  }

  lemma GroupedTernary(e: Expr, ts: seq<Token>, rest: seq<Token>)
    requires Printable(e) && Lexed(rest) && BeforeSemi(rest) && ts == Put(P(LParen), Emit(e, 0, Put(P(RParen), rest)))
    ensures Lexed(ts) && ParseTernary(ts, 0) == Res(e, rest, 3 + Nesting(e, 0))
  {
    hide ParseTernary, ParsePrimary, ParseBinary, Emit, Nesting, Printable, Put, Fits;
    ParenBack(e, rest, 2);
    GroupedUnary(e, ts, rest);
    GroupedBinary(e, ts, rest);
    ConditionalUnfolds(ts, 0);
  }

  lemma GroupedUnary(e: Expr, ts: seq<Token>, rest: seq<Token>)
    requires Lexed(ts) && Lexed(rest) && BeforeSemi(rest) && ts[0] == P(LParen)
    requires ParsePrimary(ts, 2) == Res(e, rest, 3 + Nesting(e, 0))
    ensures ParseUnary(ts, 2) == Res(e, rest, 3 + Nesting(e, 0))
  {
    hide ParsePrimary, PostfixLoop, Nesting, Fits;
    AccessStops(e, rest, 2);
  }

  lemma AccessStops(e: Expr, rest: seq<Token>, d: nat)
    requires Lexed(rest) && BeforeSemi(rest)
    ensures PostfixLoop(e, rest, d) == Got(e, rest)
  {
    hide ParseTernary;
  }

  lemma GroupedBinary(e: Expr, ts: seq<Token>, rest: seq<Token>)
    requires Lexed(ts) && Lexed(rest) && BeforeSemi(rest)
    requires ParseUnary(ts, 2) == Res(e, rest, 3 + Nesting(e, 0))
    ensures ParseBinary(ts, 0, 1) == Res(e, rest, 3 + Nesting(e, 0))
  {
    hide ParseUnary, BinaryLoop, Nesting, Fits;
    LoopStops(e, rest, 0, 2);
  }

  lemma {:induction false} StmtBack(s: Stmt, rest: seq<Token>)
    requires PrintableStmt(s) && Lexed(rest) && BeforeSemi(rest)
    ensures var ts := EmitStmt(s, rest);
            Lexed(ts) && ts[0].kind != Eof && !Swallowed(ts[0]) && !Closing(ts[0])
            && ParseStatement(ts) == Res(s, rest, StmtNesting(s))
    decreases s, 0
  {
    hide ParseStatement, EmitExprStmt, Emit, EmitBraces, Nesting, Printable, PrintableBlock, ExprStmtNesting, BlockNesting, Put;
    match s
    case AssignStmt(name, val) => AssignBack(name, val, rest);
    case ReturnStmt(val) => ReturnBack(val, rest);
    case ExprStmt(e) => ExprStmtBack(e, rest);
    case IfStmt(c, yes, no) => IfBack(c, yes, no, rest);
  }

  lemma AssignBack(name: Text, val: Expr, rest: seq<Token>)
    requires name.Other? && Printable(val) && Lexed(rest) && BeforeSemi(rest)
    ensures var ts := Put(Word(name), Put(P(Assign), Emit(val, 0, rest)));
            Lexed(ts) && ParseStatement(ts) == Res(AssignStmt(name, val), rest, Nesting(val, 0))
  {
    hide ParseTernary, ParseStatement, Emit, Nesting, Printable, Put;
    EmitLexed(val, 0, rest);
    TernaryBack(val, rest, 0);
    AssignForm(name, val, Emit(val, 0, rest), rest, Nesting(val, 0));
  }

  lemma ReturnBack(val: Expr, rest: seq<Token>)
    requires (val == NoValue || Printable(val)) && Lexed(rest) && BeforeSemi(rest)
    ensures var ts := Put(Word(Return), if val == NoValue then rest else Emit(val, 0, rest));
            Lexed(ts) && ParseStatement(ts) == Res(ReturnStmt(val), rest, if val == NoValue then 0 else Nesting(val, 0))
  {
    hide ParseTernary, ParseStatement, Emit, Nesting, Printable, Put;
    if val == NoValue {
      EmptyReturnForm(rest);
    } else {
      EmitLexed(val, 0, rest);
      FirstToken(val, 0, rest);
      TernaryBack(val, rest, 0);
      ReturnForm(Emit(val, 0, rest));
    }
  }

  lemma ReturnForm(ts: seq<Token>)
    requires Lexed(ts) && !Closing(ts[0])
    ensures ParseStatement(Put(Word(Return), ts)) ==
            match ParseTernary(ts, 0)
            case Got(e, end) => Got(ReturnStmt(e), end)
            case Bad(code) => Bad(code)
  {
    hide ParseTernary, ParseIf, ParseDeclaration, Fits, StmtFits, Nodes, StmtNodes;
  }

  lemma AssignForm(name: Text, val: Expr, ts: seq<Token>, rest: seq<Token>, n: nat)
    requires name.Other? && Lexed(ts) && ParseTernary(ts, 0) == Res(val, rest, n)
    ensures ParseStatement(Put(Word(name), Put(P(Assign), ts))) == Res(AssignStmt(name, val), rest, n)
  {
    hide ParseTernary, ParseIf, ParseDeclaration, ParseReturn, StmtFits, Fits, Nodes, StmtNodes;
  }

  lemma EmptyReturnForm(rest: seq<Token>)
    requires Lexed(rest) && BeforeSemi(rest)
    ensures ParseStatement(Put(Word(Return), rest)) == Got(ReturnStmt(NoValue), rest)
  {
    hide ParseTernary, ParseIf, ParseDeclaration, StmtFits, Fits, StmtNodes;
  }

  lemma {:induction false} IfBack(c: Expr, yes: seq<Stmt>, no: seq<Stmt>, rest: seq<Token>)
    requires Printable(c) && PrintableBlock(yes) && PrintableBlock(no) && Lexed(rest) && BeforeSemi(rest)
    ensures var s := IfStmt(c, yes, no);
            Lexed(EmitStmt(s, rest)) && EmitStmt(s, rest)[0] == Word(If)
            && ParseStatement(EmitStmt(s, rest)) == Res(s, rest, StmtNesting(s))
    decreases IfStmt(c, yes, no), -1
  {
    hide ParseTernary, ParseStatement, ParseIf, ParseElse, ParseBlock, Emit, EmitBraces, Nesting, Printable, PrintableBlock, BlockNesting, Put;
    var s := IfStmt(c, yes, no);
    StmtLexed(s, rest);
    BracesLexed(no, rest);
    var tail := if no == [] then rest else Put(Word(Else), EmitBraces(no, rest));
    BracesLexed(yes, tail);
    var branch := EmitBraces(yes, tail);
    EmitLexed(c, 0, Put(P(RParen), branch));
    TernaryBack(c, Put(P(RParen), branch), 0);
    BracesBack(yes, tail);
    BracesBack(no, rest);
    ElseForm(c, yes, no, tail, EmitBraces(no, rest), rest);
    IfForm(c, yes, no, Emit(c, 0, Put(P(RParen), branch)), branch, tail, rest, Nesting(c, 0), BlockNesting(yes), BlockNesting(no));
  }

  lemma ElseForm(c: Expr, yes: seq<Stmt>, no: seq<Stmt>, tail: seq<Token>, braces: seq<Token>, rest: seq<Token>)
    requires Lexed(rest) && BeforeSemi(rest) && Lexed(braces) && braces[0] == P(LBrace)
    requires tail == if no == [] then rest else Put(Word(Else), braces)
    requires ParseBlock(braces) == Res(no, rest, BlockNesting(no))
    ensures Lexed(tail) && ParseElse(c, yes, tail) == Res(IfStmt(c, yes, no), rest, BlockNesting(no))
  {
    hide ParseBlock, ParseIf, ParseElse, BlockNodes, Nodes, StmtNodes, BlockNesting;
    ElseUnfolds(c, yes, tail);
    NothingNests();
  }

  lemma NothingNests()
    ensures BlockNesting([]) == 0
  {
  }

  lemma IfForm(c: Expr, yes: seq<Stmt>, no: seq<Stmt>, cond: seq<Token>, branch: seq<Token>, tail: seq<Token>, rest: seq<Token>,
               nc: nat, ny: nat, nn: nat)
    requires Lexed(cond) && Lexed(branch) && Lexed(tail) && Lexed(rest)
    requires ParseTernary(cond, 0) == Res(c, Put(P(RParen), branch), nc)
    requires ParseBlock(branch) == Res(yes, tail, ny)
    requires ParseElse(c, yes, tail) == Res(IfStmt(c, yes, no), rest, nn)
    ensures ParseStatement(Put(Word(If), Put(P(LParen), cond))) == Res(IfStmt(c, yes, no), rest, Max(nc, Max(ny, nn)))
  {
    hide ParseTernary, ParseBlock, ParseElse, ParseIf, ParseDeclaration, ParseReturn, StmtFits, Fits, Nodes, StmtNodes, BlockNodes;
    IfUnfolds(Put(P(LParen), cond));
  }

  lemma {:induction false} BracesBack(b: seq<Stmt>, rest: seq<Token>)
    requires PrintableBlock(b) && Lexed(rest)
    ensures Lexed(EmitBraces(b, rest)) && EmitBraces(b, rest)[0] == P(LBrace)
    ensures ParseBlock(EmitBraces(b, rest)) == Res(b, rest, BlockNesting(b))
    decreases b, 1
  {
    hide ParseStatements, EmitBlock, BlockNesting, PrintableBlock, BlockFits, BlockNodes;
    var inner := Put(P(RBrace), rest);
    BracesLexed(b, rest);
    BlockLexed(b, inner);
    BlockBack(b, inner, true);
  }

  /** What ends a list of statements. */
  predicate EndsBlock(rest: seq<Token>, nested: bool) {
    |rest| > 0 && if nested then rest[0] == P(RBrace) else rest[0].kind == Eof
  }

  lemma {:induction false} BlockBack(b: seq<Stmt>, rest: seq<Token>, nested: bool)
    requires PrintableBlock(b) && Lexed(rest) && EndsBlock(rest, nested)
    ensures Lexed(EmitBlock(b, rest))
    ensures ParseStatements(EmitBlock(b, rest), nested) == Res(b, rest, BlockNesting(b))
    decreases b, 0
  {
    hide ParseStatements, ParseStatement, EmitStmt, PrintableStmt, StmtNesting, Put, BlockFits, StmtFits, BlockNodes, StmtNodes;
    BlockLexed(b, rest);
    StatementsUnfold(EmitBlock(b, rest), nested);
    if b != [] {
      var more := EmitBlock(b[1..], rest);
      BlockLexed(b[1..], rest);
      BlockBack(b[1..], rest, nested);
      StmtBack(b[0], Put(P(Semi), more));
      assert b == [b[0]] + b[1..];
    }
  }

  /** Printing a script and parsing it gives the script back exactly when no expression in it nests more than 32 deep. */
  lemma PrintedScriptParsesBack(b: seq<Stmt>)
    requires PrintableBlock(b)
    ensures Lexed(EmitBlock(b, [EofToken]))
    ensures ParseScript(EmitBlock(b, [EofToken])) == if BlockNesting(b) <= 32 then Got(b, [EofToken]) else Bad(LimitError)
  {
    hide ParseStatements, EmitBlock, BlockNesting, PrintableBlock, BlockNodes;
    BlockBack(b, [EofToken], false);
  }

  /** Where a statement may start, a string literal holding a semicolon or a brace is taken for one, whatever its quotes. */
  lemma StringsCanBeSwallowed(ts: seq<Token>, nested: bool)
    requires Lexed(ts) && ts[0].kind == Str
    ensures ts[0].text == Semi ==> ParseStatements(ts, nested) == ParseStatements(Skip(ts), nested)
    ensures ts[0].text == RBrace && nested ==> ParseStatements(ts, nested) == Got([], ts) && ParseBlock(Put(P(LBrace), ts)) == Bad(SyntaxError)
  {
    hide ParseStatement, ParseStatements, BlockFits, BlockNodes;
    StatementsUnfold(ts, nested);
  }
}
