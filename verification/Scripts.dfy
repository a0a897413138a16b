/** The grammar of statements and whole scripts. */
module Scripts {
  import opened Syntax
  import opened Grammar

  /** A statement has at most two tree nodes for each token it took. */
  ghost predicate StmtFits(ts: seq<Token>, r: Parsed<Stmt>) {
    r.Got? ==> Lexed(r.rest) && |r.rest| < |ts| && StmtNodes(r.value) + 2 * |r.rest| <= 2 * |ts|
  }

  ghost predicate BlockFits(ts: seq<Token>, r: Parsed<seq<Stmt>>) {
    r.Got? ==> Lexed(r.rest) && |r.rest| <= |ts| && BlockNodes(r.value) + 2 * |r.rest| <= 2 * |ts|
  }

  /** Statements up to the end of file, or up to a closing brace inside a block. */
  function ParseStatements(ts: seq<Token>, nested: bool): (r: Parsed<seq<Stmt>>)
    requires Lexed(ts)
    ensures BlockFits(ts, r)
    ensures r.Got? && !nested ==> r.rest[0].kind == Eof
    decreases |ts|, 1
  {
    var t := ts[0];
    if t.kind == Eof then if nested then Bad(SyntaxError) else Got([], ts)
    else if nested && t.text == RBrace then Got([], ts)
    else if t.text == Semi then ParseStatements(Skip(ts), nested)
    else
      var s :- ParseStatement(ts);
      var more :- ParseStatements(if At(s.1, Semi) then Skip(s.1) else s.1, nested);
      assert ([s.0] + more.0)[1..] == more.0;
      Got([s.0] + more.0, more.1)
  }

  function ParseStatement(ts: seq<Token>): (r: Parsed<Stmt>)
    requires Lexed(ts) && ts[0].kind != Eof
    ensures StmtFits(ts, r)
    decreases |ts|, 0
  {
    var t := ts[0];
    if t.text == Var && t.kind == Keyword then ParseDeclaration(Skip(ts))
    else if t.text == If && t.kind == Keyword then ParseIf(Skip(ts))
    else if t.text == Return && t.kind == Keyword then ParseReturn(Skip(ts))
    else if t.kind == Ident && SkipAny(ts)[0].text == Assign then
      var e :- ParseTernary(Skip(SkipAny(ts)), 0);
      Got(AssignStmt(t.text, e.0), e.1)
    else
      var e :- ParseTernary(ts, 0);
      Got(ExprStmt(e.0), e.1)
  }

  /** The rest of a declaration, after its keyword. */
  function ParseDeclaration(ts: seq<Token>): (r: Parsed<Stmt>)
    requires Lexed(ts)
    ensures StmtFits(ts, r)
  {
    if ts[0].kind != Ident then Bad(SyntaxError)
    else
      var eq :- Expect(SkipAny(ts), Assign);
      var e :- ParseTernary(eq.1, 0);
      Got(AssignStmt(ts[0].text, e.0), e.1)
  }

  /** The rest of a return, after its keyword; without a value it returns null. */
  function ParseReturn(ts: seq<Token>): (r: Parsed<Stmt>)
    requires Lexed(ts)
    ensures r.Got? ==> Lexed(r.rest) && |r.rest| <= |ts| && StmtNodes(r.value) + 2 * |r.rest| <= 2 * |ts| + 2
  {
    if At(ts, Semi) || At(ts, RBrace) || ts[0].kind == Eof then Got(ReturnStmt(Lit(NullLit(Nothing))), ts)
    else
      var e :- ParseTernary(ts, 0);
      Got(ReturnStmt(e.0), e.1)
  }

  /** A block in braces. */
  function ParseBlock(ts: seq<Token>): (r: Parsed<seq<Stmt>>)
    requires Lexed(ts)
    ensures r.Got? ==> Lexed(r.rest) && |r.rest| < |ts| && BlockNodes(r.value) + 2 * |r.rest| <= 2 * |ts|
    decreases |ts|, 2
  {
    var open :- Expect(ts, LBrace);
    var body :- ParseStatements(open.1, true);
    var close :- Expect(body.1, RBrace);
    Got(body.0, close.1)
  }

  /** The rest of an if, after its keyword; an `else if` is an if of its own. */
  function ParseIf(ts: seq<Token>): (r: Parsed<Stmt>)
    requires Lexed(ts)
    ensures StmtFits(ts, r)
    decreases |ts|, 4
  {
    var open :- Expect(ts, LParen);
    var c :- ParseTernary(open.1, 0);
    var close :- Expect(c.1, RParen);
    var yes :- ParseBlock(close.1);
    ParseElse(c.0, yes.0, yes.1)
  }

  function ParseElse(c: Expr, yes: seq<Stmt>, ts: seq<Token>): (r: Parsed<Stmt>)
    requires Lexed(ts)
    ensures r.Got? ==> Lexed(r.rest) && |r.rest| <= |ts|
                       && StmtNodes(r.value) + 2 * |r.rest| <= 1 + Nodes(c) + BlockNodes(yes) + 2 * |ts|
    decreases |ts|, 3
  {
    if !At(ts, Else) then Got(IfStmt(c, yes, []), ts)
    else if At(Skip(ts), If) then
      var inner :- ParseIf(Skip(Skip(ts)));
      assert BlockNodes([inner.0]) == StmtNodes(inner.0) + BlockNodes([]);
      Got(IfStmt(c, yes, [inner.0]), inner.1)
    else
      var no :- ParseBlock(Skip(ts));
      Got(IfStmt(c, yes, no.0), no.1)
  }

  lemma StatementsUnfold(ts: seq<Token>, nested: bool)
    requires Lexed(ts)
    ensures ParseStatements(ts, nested) ==
            var t := ts[0];
            if t.kind == Eof then if nested then Bad(SyntaxError) else Got([], ts)
            else if nested && t.text == RBrace then Got([], ts)
            else if t.text == Semi then ParseStatements(Skip(ts), nested)
            else
              var s :- ParseStatement(ts);
              var more :- ParseStatements(if At(s.1, Semi) then Skip(s.1) else s.1, nested);
              Got([s.0] + more.0, more.1)
  {
    hide ParseStatement;
  }

  lemma IfUnfolds(ts: seq<Token>)
    requires Lexed(ts)
    ensures ParseIf(ts) ==
            var open :- Expect(ts, LParen);
            var c :- ParseTernary(open.1, 0);
            var close :- Expect(c.1, RParen);
            var yes :- ParseBlock(close.1);
            ParseElse(c.0, yes.0, yes.1)
  {
    hide ParseTernary, ParseBlock, ParseElse;
  }

  lemma ElseUnfolds(c: Expr, yes: seq<Stmt>, ts: seq<Token>)
    requires Lexed(ts)
    ensures ParseElse(c, yes, ts) ==
            if !At(ts, Else) then Got(IfStmt(c, yes, []), ts)
            else if At(Skip(ts), If) then
              var inner :- ParseIf(Skip(Skip(ts)));
              Got(IfStmt(c, yes, [inner.0]), inner.1)
            else
              var no :- ParseBlock(Skip(ts));
              Got(IfStmt(c, yes, no.0), no.1)
  {
    hide ParseIf, ParseBlock;
  }

  function ParseScript(ts: seq<Token>): (r: Parsed<seq<Stmt>>)
    requires Lexed(ts)
    ensures r.Got? ==> BlockNodes(r.value) < 2 * |ts|
  {
    ParseStatements(ts, false)
  }
}
