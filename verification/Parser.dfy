/** The recursive-descent parser: one object whose position and depth every parse method moves. */
module Parsing {
  import opened Syntax
  import opened Grammar
  import opened RoundTrip
  import opened Scripts

  datatype Read<+T> = Value(value: T) | Error(code: ErrCode) {
    predicate IsFailure() {
      Error?
    }

    function PropagateFailure<U>(): Read<U>
      requires Error?
    {
      Error(code)
    }

    function Extract(): T
      requires Value?
    {
      value
    }
  }

  /** A method's result and the tokens it leaves are what the grammar says. */
  ghost predicate Agrees<T>(r: Read<T>, left: seq<Token>, p: Parsed<T>) {
    match p
    case Got(value, rest) => r == Value(value) && left == rest
    case Bad(code) => r == Error(code)
  }

  // ---------------------------------------------------------------- one step of each production

  lemma BinaryUnfolds(ts: seq<Token>, min: int, d: nat)
    requires Lexed(ts)
    ensures Grammar.ParseBinary(ts, min, d) ==
            if d + 1 > MaxDepth then Bad(LimitError)
            else
              var l :- Grammar.ParseUnary(ts, d + 1);
              BinaryLoop(l.0, l.1, min, d + 1)
  {
    hide Grammar.ParseUnary, BinaryLoop;
  }

  lemma LoopUnfolds(left: Expr, ts: seq<Token>, min: int, d: nat)
    requires Lexed(ts)
    ensures PeekPrec(ts) == PeekPrec([ts[0]])
    ensures BinaryLoop(left, ts, min, d) ==
            var prec := PeekPrec(ts);
            if prec < min || prec < 0 then Got(left, ts)
            else
              var right :- Grammar.ParseBinary(Skip(ts), prec + 1, d);
              BinaryLoop(Bin(ts[0].text.op, left, right.0), right.1, min, d)
  {
    hide Grammar.ParseBinary;
  }

  lemma UnaryUnfolds(ts: seq<Token>, d: nat)
    requires Lexed(ts)
    ensures Grammar.ParseUnary(ts, d) ==
            var op := UnaryAt(ts[0]);
            if op != [] then
              var e :- Grammar.ParseUnary(Skip(ts), d);
              Got(Unary(op[0], e.0), e.1)
            else Grammar.ParsePostfix(ts, d)
  {
    hide Grammar.ParsePostfix;
  }

  lemma PostfixUnfolds(ts: seq<Token>, d: nat)
    requires Lexed(ts)
    ensures Grammar.ParsePostfix(ts, d) ==
            var e :- Grammar.ParsePrimary(ts, d);
            PostfixLoop(e.0, e.1, d)
  {
    hide Grammar.ParsePrimary, PostfixLoop;
  }

  lemma AccessUnfolds(e: Expr, ts: seq<Token>, d: nat)
    requires Lexed(ts)
    ensures PostfixLoop(e, ts, d) ==
            if At(ts, Dot) then
              var t := Skip(ts);
              if t[0].kind != Ident && t[0].kind != Keyword then Bad(SyntaxError)
              else PostfixLoop(Member(e, t[0].text), SkipAny(t), d)
            else if At(ts, LBracket) then
              var i :- Grammar.ParseTernary(Skip(ts), d);
              var close :- Expect(i.1, RBracket);
              PostfixLoop(Index(e, i.0), close.1, d)
            else Got(e, ts)
  {
    hide Grammar.ParseTernary;
  }

  lemma AllPropsUnfold(ts: seq<Token>, d: nat)
    requires Lexed(ts)
    ensures MoreProps(ts, d) ==
            if !KeyKind(ts[0].kind) then Bad(SyntaxError)
            else if ProtoKey(ts[0].text) then Bad(ForbiddenError)
            else
              var colon :- Expect(SkipAny(ts), Colon);
              var v :- Grammar.ParseTernary(colon.1, d);
              var p := Prop(ts[0].text, v.0);
              if At(v.1, Comma) && !At(Skip(v.1), RBrace) then
                var more :- MoreProps(Skip(v.1), d);
                Got([p] + more.0, more.1)
              else
                var end :- Expect(if At(v.1, Comma) then Skip(v.1) else v.1, RBrace);
                Got([p], end.1)
  {
    hide Grammar.ParseTernary, ProtoKey;
  }

  /** Items already read, in front of those still to be read. */
  ghost function ItemsAfter<T>(items: seq<T>, p: Parsed<seq<T>>): Parsed<seq<T>> {
    match p
    case Got(more, rest) => Got(items + more, rest)
    case Bad(code) => Bad(code)
  }

  lemma ItemsStart<T>(p: Parsed<seq<T>>)
    ensures ItemsAfter([], p) == p
  {
    assert p.Got? ==> [] + p.value == p.value;
  }

  lemma ItemsEnd<T>(items: seq<T>)
    ensures forall x, rest :: ItemsAfter(items, Got([x], rest)) == Got(items + [x], rest)
    ensures forall code :: ItemsAfter(items, Bad(code)) == Bad(code)
  {
  }

  lemma ItemsNext<T>(items: seq<T>, x: T, p: Parsed<seq<T>>)
    ensures ItemsAfter(items, match p case Got(more, rest) => Got([x] + more, rest) case Bad(code) => Bad(code)) == ItemsAfter(items + [x], p)
  {
    if p.Got? {
      assert items + ([x] + p.value) == (items + [x]) + p.value;
    }
  }

  lemma StatementsEnd<T>(out: seq<T>, ts: seq<Token>)
    ensures ItemsAfter(out, Got([], ts)) == Got(out, ts)
    ensures forall code :: ItemsAfter(out, Bad(code)) == Bad(code)
  {
    assert out + [] == out;
  }

  class Parser {
    const toks: seq<Token>
    var pos: nat
    var depth: nat

    constructor (toks: seq<Token>)
      requires Lexed(toks)
      ensures this.toks == toks && pos == 0 && depth == 0 && Valid()
    {
      this.toks, pos, depth := toks, 0, 0;
    }

    ghost predicate Valid()
      reads this
    {
      pos < |toks| && Lexed(toks)
    }

    ghost function Rest(): (r: seq<Token>)
      reads this
      requires Valid()
      ensures Lexed(r) && |r| == |toks| - pos && r[0] == toks[pos]
    {
      toks[pos..]
    }

    function Cur(): Token
      reads this
      requires Valid()
    {
      toks[pos]
    }

    function Next(): Token
      reads this
      requires Valid() && Cur().kind != Eof
      ensures Next() == SkipAny(Rest())[0]
    {
      toks[pos + 1]
    }

    predicate Sees(text: Text)
      reads this
      requires Valid()
      ensures Sees(text) == At(Rest(), text)
    {
      toks[pos].text == text && toks[pos].kind != Str
    }

    method Advance()
      requires Valid() && Cur() != EofToken
      modifies this`pos
      ensures Valid() && Rest() == old(Rest())[1..]
    {
      pos := pos + 1;
    }

    method Demand(text: Text) returns (r: Read<()>)
      requires Valid() && text != Nothing
      modifies this`pos
      ensures Valid() && Agrees(r, Rest(), Expect(old(Rest()), text))
      ensures r.Value? ==> pos == old(pos) + 1
    {
      if !Sees(text) {
        return Error(SyntaxError);
      }
      Advance();
      return Value(());
    }

    /** After an item: past the closing word, which a comma may precede, or at the next item. */
    method EndOfItem(close: Text) returns (done: Read<bool>)
      requires Valid() && close != Nothing
      modifies this`pos
      ensures Valid() && (done.Value? ==> pos > old(pos))
      ensures var ts := old(Rest());
              if At(ts, Comma) && !At(Skip(ts), close) then done == Value(false) && Rest() == Skip(ts)
              else
                match Expect(if At(ts, Comma) then Skip(ts) else ts, close)
                case Got(_, rest) => done == Value(true) && Rest() == rest
                case Bad(code) => done == Error(code)
    {
      hide Lexed;
      if Sees(Comma) {
        Advance();
        if !Sees(close) {
          return Value(false);
        }
      }
      var _ :- Demand(close);
      return Value(true);
    }

    method ParseTernary() returns (r: Read<Expr>)
      requires Valid()
      modifies this
      ensures Valid()
      ensures r.Value? ==> depth == old(depth) && pos > old(pos)
      ensures Agrees(r, Rest(), Grammar.ParseTernary(old(Rest()), old(depth)))
      decreases |toks| - pos, 4
    {
      hide Grammar.ParseTernary, Grammar.ParseBinary, Lexed, Fits, At, Nodes;
      ConditionalUnfolds(Rest(), depth);
      depth := depth + 1;
      if depth > MaxDepth {
        return Error(LimitError);
      }
      var c :- ParseBinary(0);
      if !Sees(Question) {
        depth := depth - 1;
        return Value(c);
      }
      Advance();
      var y :- ParseTernary();
      var _ :- Demand(Colon);
      var n :- ParseTernary();
      depth := depth - 1;
      return Value(Cond(c, y, n));
    }

    method ParseBinary(min: int) returns (r: Read<Expr>)
      requires Valid()
      modifies this
      ensures Valid()
      ensures r.Value? ==> depth == old(depth) && pos > old(pos)
      ensures Agrees(r, Rest(), Grammar.ParseBinary(old(Rest()), min, old(depth)))
      decreases |toks| - pos, 3
    {
      hide Grammar.ParseBinary, Grammar.ParseUnary, BinaryLoop, Lexed, Fits, At, Nodes;
      BinaryUnfolds(Rest(), min, depth);
      depth := depth + 1;
      if depth > MaxDepth {
        return Error(LimitError);
      }
      var left :- ParseUnary();
      ghost var whole := BinaryLoop(left, Rest(), min, depth);
      while true
        invariant Valid() && depth == old(depth) + 1 && pos > old(pos)
        invariant whole == BinaryLoop(left, Rest(), min, depth)
        decreases |toks| - pos
      {
        LoopUnfolds(left, Rest(), min, depth);
        var prec := PeekPrec([Cur()]);
        if prec < min || prec < 0 {
          depth := depth - 1;
          return Value(left);
        }
        var op := Cur().text.op;
        Advance();
        var right :- ParseBinary(prec + 1);
        left := Bin(op, left, right);
      }
    }

    method ParseUnary() returns (r: Read<Expr>)
      requires Valid()
      modifies this
      ensures Valid()
      ensures r.Value? ==> depth == old(depth) && pos > old(pos)
      ensures Agrees(r, Rest(), Grammar.ParseUnary(old(Rest()), old(depth)))
      decreases |toks| - pos, 2
    {
      hide Grammar.ParseUnary, Grammar.ParsePostfix, Lexed, Fits, At, Nodes;
      UnaryUnfolds(Rest(), depth);
      var op := UnaryAt(Cur());
      if op != [] {
        Advance();
        var e :- ParseUnary();
        return Value(Unary(op[0], e));
      }
      r := ParsePostfix();
    }

    method ParsePostfix() returns (r: Read<Expr>)
      requires Valid()
      modifies this
      ensures Valid()
      ensures r.Value? ==> depth == old(depth) && pos > old(pos)
      ensures Agrees(r, Rest(), Grammar.ParsePostfix(old(Rest()), old(depth)))
      decreases |toks| - pos, 1
    {
      hide Grammar.ParsePostfix, Grammar.ParsePrimary, Grammar.ParseTernary, PostfixLoop, Lexed, Fits, At, Nodes;
      PostfixUnfolds(Rest(), depth);
      var e :- ParsePrimary();
      ghost var whole := PostfixLoop(e, Rest(), depth);
      while true
        invariant Valid() && depth == old(depth) && pos > old(pos)
        invariant whole == PostfixLoop(e, Rest(), depth)
        decreases |toks| - pos
      {
        AccessUnfolds(e, Rest(), depth);
        if Sees(Dot) {
          Advance();
          if Cur().kind != Ident && Cur().kind != Keyword {
            return Error(SyntaxError);
          }
          e := Member(e, Cur().text);
          Advance();
        } else if Sees(LBracket) {
          Advance();
          var index :- ParseTernary();
          var _ :- Demand(RBracket);
          e := Index(e, index);
        } else {
          return Value(e);
        }
      }
    }

    method ParsePrimary() returns (r: Read<Expr>)
      requires Valid()
      modifies this
      ensures Valid()
      ensures r.Value? ==> depth == old(depth) && pos > old(pos)
      ensures Agrees(r, Rest(), Grammar.ParsePrimary(old(Rest()), old(depth)))
      decreases |toks| - pos, 0, 1
    {
      hide Grammar.ParsePrimary, Grammar.ParseTernary, Grammar.ParseItems, Grammar.ParseProps, Lexed, Fits, At,
        Nodes, NodesAll, NodesProps, LiteralOf;
      PrimaryUnfolds(Rest(), depth);
      depth := depth + 1;
      if depth > MaxDepth {
        return Error(LimitError);
      }
      var t := Cur();
      if LiteralAt(t) {
        Advance();
        r := Value(Lit(LiteralOf(t)));
      } else if t.text == LParen || t.text == LBracket || t.text == LBrace {
        var e :- ParseBracketed(t.text);
        r := Value(e);
      } else if t.kind == Ident {
        var e :- ParseNamed(t.text);
        r := Value(e);
      } else {
        return Error(SyntaxError);
      }
      depth := depth - 1;
    }

    /** A parenthesised expression, an array or an object; the nesting level has been entered. */
    method ParseBracketed(open: Text) returns (r: Read<Expr>)
      requires Valid() && 1 <= depth <= MaxDepth && !LiteralAt(Cur()) && Cur().text == open
      requires open == LParen || open == LBracket || open == LBrace
      modifies this
      ensures Valid()
      ensures r.Value? ==> depth == old(depth) && pos > old(pos)
      ensures Agrees(r, Rest(), Grammar.ParsePrimary(old(Rest()), old(depth) - 1))
      decreases |toks| - pos, 0, 0
    {
      hide Grammar.ParsePrimary, Grammar.ParseTernary, Grammar.ParseItems, Grammar.ParseProps, Lexed, Fits, At,
        Nodes, NodesAll, NodesProps, LiteralOf;
      PrimaryUnfolds(Rest(), depth - 1);
      Advance();
      if open == LParen {
        var e :- ParseTernary();
        var _ :- Demand(RParen);
        return Value(e);
      } else if open == LBracket {
        var items :- ParseItems(RBracket);
        return Value(ArrayLit(items));
      } else {
        var props :- ParseProps();
        return Value(ObjectLit(props));
      }
    }

    /** A name, or a call of it; the nesting level has been entered. */
    method ParseNamed(name: Text) returns (r: Read<Expr>)
      requires Valid() && 1 <= depth <= MaxDepth && Cur().kind == Ident && Cur().text == name
      requires name != LParen && name != LBracket && name != LBrace
      modifies this
      ensures Valid()
      ensures r.Value? ==> depth == old(depth) && pos > old(pos)
      ensures Agrees(r, Rest(), Grammar.ParsePrimary(old(Rest()), old(depth) - 1))
      decreases |toks| - pos, 0, 0
    {
      hide Grammar.ParsePrimary, Grammar.ParseTernary, Grammar.ParseItems, Grammar.ParseProps, Lexed, Fits, At,
        Nodes, NodesAll, NodesProps, LiteralOf;
      PrimaryUnfolds(Rest(), depth - 1);
      Advance();
      if !Sees(LParen) {
        return Value(Id(name));
      }
      Advance();
      var args :- ParseItems(RParen);
      return Value(Call(name, args));
    }

    /** The arguments of a call or the items of an array, after the opening word. */
    method ParseItems(close: Text) returns (r: Read<seq<Expr>>)
      requires Valid() && close != Nothing
      modifies this
      ensures Valid()
      ensures r.Value? ==> depth == old(depth) && pos > old(pos)
      ensures Agrees(r, Rest(), Grammar.ParseItems(old(Rest()), close, old(depth)))
      decreases |toks| - pos, 6
    {
      hide MoreItems, Lexed, Fits, At, Nodes, NodesAll;
      if Sees(close) {
        Advance();
        return Value([]);
      }
      r := ParseMoreItems(close);
    }

    method ParseMoreItems(close: Text) returns (r: Read<seq<Expr>>)
      requires Valid() && close != Nothing
      modifies this
      ensures Valid()
      ensures r.Value? ==> depth == old(depth) && pos > old(pos)
      ensures Agrees(r, Rest(), MoreItems(old(Rest()), close, old(depth)))
      decreases |toks| - pos, 5
    {
      hide Grammar.ParseTernary, MoreItems, Lexed, Fits, At, Nodes, NodesAll, ItemsAfter;
      var items: seq<Expr> := [];
      ghost var whole := MoreItems(Rest(), close, depth);
      ItemsStart(whole);
      while true
        invariant Valid() && depth == old(depth) && pos >= old(pos)
        invariant whole == ItemsAfter(items, MoreItems(Rest(), close, depth))
        decreases |toks| - pos
      {
        ItemsUnfold(Rest(), close, depth);
        ghost var before := items;
        ItemsEnd(items);
        var e :- ParseTernary();
        items := items + [e];
        var done :- EndOfItem(close);
        if done {
          return Value(items);
        }
        ItemsNext(before, e, MoreItems(Rest(), close, depth));
      }
    }

    method ParseProps() returns (r: Read<seq<Prop>>)
      requires Valid()
      modifies this
      ensures Valid()
      ensures r.Value? ==> depth == old(depth) && pos > old(pos)
      ensures Agrees(r, Rest(), Grammar.ParseProps(old(Rest()), old(depth)))
      decreases |toks| - pos, 6
    {
      hide Grammar.ParseTernary, MoreProps, Lexed, Fits, At, Nodes, NodesProps, ProtoKey;
      var props: seq<Prop> := [];
      if Sees(RBrace) {
        Advance();
        return Value(props);
      }
      ghost var whole := MoreProps(Rest(), depth);
      ItemsStart(whole);
      while true
        invariant Valid() && depth == old(depth) && pos >= old(pos)
        invariant whole == ItemsAfter(props, MoreProps(Rest(), depth))
        decreases |toks| - pos
      {
        AllPropsUnfold(Rest(), depth);
        ghost var before := props;
        var t := Cur();
        if !KeyKind(t.kind) {
          return Error(SyntaxError);
        }
        if ProtoKey(t.text) {
          return Error(ForbiddenError);
        }
        Advance();
        var _ :- Demand(Colon);
        var v :- ParseTernary();
        props := props + [Prop(t.text, v)];
        var done :- EndOfItem(RBrace);
        if done {
          return Value(props);
        }
        ItemsNext(before, Prop(t.text, v), MoreProps(Rest(), depth));
      }
    }

    // ---------------------------------------------------------------- statements

    method ParseStatements(nested: bool) returns (r: Read<seq<Stmt>>)
      requires Valid() && depth == 0
      modifies this
      ensures Valid()
      ensures r.Value? ==> depth == 0 && pos >= old(pos)
      ensures Agrees(r, Rest(), Scripts.ParseStatements(old(Rest()), nested))
      decreases |toks| - pos, 1
    {
      hide Scripts.ParseStatements, Scripts.ParseStatement, Lexed, BlockFits, StmtFits, At, StmtNodes,
        BlockNodes, ItemsAfter;
      var out: seq<Stmt> := [];
      ghost var whole := Scripts.ParseStatements(Rest(), nested);
      ItemsStart(whole);
      while true
        invariant Valid() && depth == 0 && pos >= old(pos)
        invariant whole == ItemsAfter(out, Scripts.ParseStatements(Rest(), nested))
        decreases |toks| - pos
      {
        StatementsUnfold(Rest(), nested);
        StatementsEnd(out, Rest());
        var t := Cur();
        if t.kind == Eof {
          if nested {
            return Error(SyntaxError);
          }
          return Value(out);
        }
        if nested && t.text == RBrace {
          return Value(out);
        }
        if t.text == Semi {
          Advance();
          continue;
        }
        ghost var before := out;
        var s :- ParseStatement();
        out := out + [s];
        if Sees(Semi) {
          Advance();
        }
        ItemsNext(before, s, Scripts.ParseStatements(Rest(), nested));
      }
    }

    method ParseStatement() returns (r: Read<Stmt>)
      requires Valid() && depth == 0 && Cur().kind != Eof
      modifies this
      ensures Valid()
      ensures r.Value? ==> depth == 0 && pos > old(pos)
      ensures Agrees(r, Rest(), Scripts.ParseStatement(old(Rest())))
      decreases |toks| - pos, 0, 1
    {
      hide Grammar.ParseTernary, Scripts.ParseIf, Lexed, Fits, StmtFits, At, Nodes, StmtNodes;
      var t := Cur();
      if t.text == Var && t.kind == Keyword {
        Advance();
        if Cur().kind != Ident {
          return Error(SyntaxError);
        }
        r := ParseAssignAfterName();
        return;
      }
      if t.text == If && t.kind == Keyword {
        r := ParseIf();
        return;
      }
      if t.text == Return && t.kind == Keyword {
        Advance();
        if Sees(Semi) || Sees(RBrace) || Cur().kind == Eof {
          return Value(ReturnStmt(Lit(NullLit(Nothing))));
        }
        var e :- ParseTernary();
        return Value(ReturnStmt(e));
      }
      if t.kind == Ident && Next().text == Assign {
        Advance();
        Advance();
        var e :- ParseTernary();
        return Value(AssignStmt(t.text, e));
      }
      var e :- ParseTernary();
      return Value(ExprStmt(e));
    }

    method ParseAssignAfterName() returns (r: Read<Stmt>)
      requires Valid() && depth == 0 && Cur().kind == Ident
      modifies this
      ensures Valid()
      ensures r.Value? ==> depth == 0 && pos > old(pos)
      ensures Agrees(r, Rest(), ParseDeclaration(old(Rest())))
      decreases |toks| - pos, 5
    {
      hide Grammar.ParseTernary, Lexed, Fits, StmtFits, At, Nodes, StmtNodes;
      var name := Cur().text;
      Advance();
      var _ :- Demand(Assign);
      var e :- ParseTernary();
      return Value(AssignStmt(name, e));
    }

    /** An if with its branches, from its keyword on. */
    method ParseIf() returns (r: Read<Stmt>)
      requires Valid() && depth == 0 && Cur().text == If
      modifies this
      ensures Valid()
      ensures r.Value? ==> depth == 0 && pos > old(pos)
      ensures Agrees(r, Rest(), Scripts.ParseIf(Skip(old(Rest()))))
      decreases |toks| - pos, 0, 0
    {
      hide Grammar.ParseTernary, Scripts.ParseIf, ParseElse, Scripts.ParseBlock, Lexed, Fits, StmtFits, At,
        Nodes, StmtNodes, BlockNodes;
      IfUnfolds(Skip(Rest()));
      Advance();
      var _ :- Demand(LParen);
      var c :- ParseTernary();
      var _ :- Demand(RParen);
      var yes :- ParseBlock();
      ElseUnfolds(c, yes, Rest());
      if !Sees(Else) {
        return Value(IfStmt(c, yes, []));
      }
      Advance();
      if Sees(If) {
        var inner :- ParseIf();
        return Value(IfStmt(c, yes, [inner]));
      }
      var no :- ParseBlock();
      return Value(IfStmt(c, yes, no));
    }

    /** The statements between braces. */
    method ParseBlock() returns (r: Read<seq<Stmt>>)
      requires Valid() && depth == 0
      modifies this
      ensures Valid()
      ensures r.Value? ==> depth == 0 && pos > old(pos)
      ensures Agrees(r, Rest(), Scripts.ParseBlock(old(Rest())))
      decreases |toks| - pos, 2
    {
      hide Scripts.ParseStatements, Lexed, BlockFits, At, BlockNodes;
      var _ :- Demand(LBrace);
      var body :- ParseStatements(true);
      var _ :- Demand(RBrace);
      return Value(body);
    }
  }

  /** Parses a whole script: its tree has fewer than two nodes for each token. */
  method Parse(toks: seq<Token>) returns (r: Read<seq<Stmt>>)
    requires Lexed(toks)
    ensures match ParseScript(toks)
            case Got(body, _) => r == Value(body)
            case Bad(code) => r == Error(code)
    ensures r.Value? ==> BlockNodes(r.value) < 2 * |toks|
  {
    hide Scripts.ParseStatements, BlockNodes;
    var p := new Parser(toks);
    assert p.Rest() == toks;
    var body :- p.ParseStatements(false);
    if p.Cur().kind != Eof {
      return Error(SyntaxError);
    }
    return Value(body);
  }
}
