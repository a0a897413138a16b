/** The analysis against the text of a script: variables in the order they are written, and the names in front of a parenthesis. */
module ReadingOrder {
  import opened Ordering
  import opened Syntax
  import opened Grammar
  import opened Evaluation
  import opened Printing
  import opened ScriptPrinting
  import opened ScriptSafety
  import opened Analysis

  /** What makes a name before it a function or the target of an assignment. */
  predicate Opens(ts: seq<Token>) {
    ts != [] && (ts[0] == P(LParen) || ts[0] == P(Assign))
  }

  /** The variables of a text in the order written: names not after a dot and not before a parenthesis or an equals sign. */
  function VariablesIn(ts: seq<Token>, afterDot: bool): seq<Text> {
    if ts == [] then []
    else
      (if ts[0].kind == Ident && !afterDot && !Opens(ts[1..]) then [ts[0].text] else [])
      + VariablesIn(ts[1..], ts[0] == P(Dot))
  }

  /** The names in front of a parenthesis. */
  function CalledIn(ts: seq<Token>): set<Text> {
    if ts == [] then {}
    else
      (if ts[0].kind == Ident && |ts| > 1 && ts[1] == P(LParen) then {ts[0].text} else {}) + CalledIn(ts[1..])
  }

  /** The tokens in front of `rest` mention these variables, in this order, and call these functions. */
  ghost predicate Mentions(ts: seq<Token>, names: seq<Text>, calls: set<Text>, rest: seq<Token>) {
    VariablesIn(ts, false) == names + VariablesIn(rest, false) && CalledIn(ts) == calls + CalledIn(rest)
  }

  predicate Silent(t: Token) {
    t.kind != Ident && t != P(Dot)
  }

  lemma Nothing(rest: seq<Token>)
    ensures Mentions(rest, [], {}, rest)
  {
  }

  /** A token that is neither a name nor a dot mentions nothing. */
  lemma Skips(ts: seq<Token>, names: seq<Text>, calls: set<Text>, t: Token, rest: seq<Token>)
    requires Mentions(ts, names, calls, Put(t, rest)) && Silent(t)
    ensures Mentions(ts, names, calls, rest)
  {
  }

  lemma Begins(t: Token, names: seq<Text>, calls: set<Text>, ts: seq<Token>, rest: seq<Token>)
    requires Mentions(ts, names, calls, rest) && Silent(t)
    ensures Mentions(Put(t, ts), names, calls, rest)
  {
  }

  lemma Joins(ts: seq<Token>, names: seq<Text>, calls: set<Text>, mid: seq<Token>, more: seq<Text>, others: set<Text>, rest: seq<Token>)
    requires Mentions(ts, names, calls, mid) && Mentions(mid, more, others, rest)
    ensures Mentions(ts, names + more, calls + others, rest)
  {
  }

  lemma OneName(name: Text, rest: seq<Token>)
    requires name.Other? && !Opens(rest)
    ensures Mentions(Put(Word(name), rest), [name], {}, rest)
  {
  }

  lemma AfterDot(name: Text, rest: seq<Token>)
    requires !Opens(rest)
    ensures Mentions(Put(P(Dot), Put(Word(name), rest)), [], {}, rest)
  {
    var more := Put(Word(name), rest);
    assert VariablesIn(more, true) == VariablesIn(rest, false);
  }

  lemma Target(name: Text, rest: seq<Token>)
    requires name.Other?
    ensures Mentions(Put(Word(name), Put(P(Assign), rest)), [], {}, rest)
  {
    var more := Put(P(Assign), rest);
    assert VariablesIn(Put(Word(name), more), false) == VariablesIn(more, false);
  }

  lemma Called(fn: Text, names: seq<Text>, calls: set<Text>, ts: seq<Token>, rest: seq<Token>)
    requires fn.Other? && Mentions(ts, names, calls, rest)
    ensures Mentions(Put(Word(fn), Put(P(LParen), ts)), names, {fn} + calls, rest)
  {
    var more := Put(P(LParen), ts);
    assert VariablesIn(Put(Word(fn), more), false) == VariablesIn(more, false);
    assert CalledIn(Put(Word(fn), more)) == {fn} + CalledIn(more);
  }

  /** Printed, an expression mentions its variables in the order the analysis lists them, and calls the functions it names. */
  lemma {:induction false} ExpressionAsWritten(e: Expr, lvl: int, rest: seq<Token>)
    requires Printable(e) && !Opens(rest)
    ensures Mentions(Emit(e, lvl, rest), Names(e), Calls(e), rest)
    decreases e, if Level(e) < lvl then 2 else 1
  {
    hide Mentions, Put, Level, EmitItems, EmitProps, NamesAll, NamesProps, CallsAll, CallsProps;
    if Level(e) < lvl {
      ExpressionAsWritten(e, 0, Put(P(RParen), rest));
      Enclosed(Emit(e, 0, Put(P(RParen), rest)), Names(e), Calls(e), rest);
    } else {
      match e
      case Lit(l) =>
        Nothing(rest);
        Begins(LiteralToken(l), [], {}, rest, rest);
      case Id(name) => OneName(name, rest);
      case Member(obj, name) => MemberAsWritten(obj, name, rest);
      case Index(obj, index) =>
        var close := Put(P(RBracket), rest);
        var inner := Emit(index, 0, close);
        ExpressionAsWritten(index, 0, close);
        Skips(inner, Names(index), Calls(index), P(RBracket), rest);
        Then(obj, 11, P(LBracket), inner, Names(index), Calls(index), rest);
      case Unary(op, oper) =>
        ExpressionAsWritten(oper, 10, rest);
        Begins(UnaryToken(op), Names(oper), Calls(oper), Emit(oper, 10, rest), rest);
      case Bin(op, l, r) =>
        ExpressionAsWritten(r, Prec(op) + 1, rest);
        Then(l, Prec(op), P(Op(op)), Emit(r, Prec(op) + 1, rest), Names(r), Calls(r), rest);
      case Cond(c, y, n) => CondAsWritten(c, y, n, rest);
      case Call(fn, args) =>
        ItemsAsWritten(args, RParen, rest);
        Called(fn, NamesAll(args), CallsAll(args), EmitItems(args, RParen, rest), rest);
      case ArrayLit(items) =>
        ItemsAsWritten(items, RBracket, rest);
        Begins(P(LBracket), NamesAll(items), CallsAll(items), EmitItems(items, RBracket, rest), rest);
      case ObjectLit(props) =>
        PropsAsWritten(props, rest);
        Begins(P(LBrace), NamesProps(props), CallsProps(props), EmitProps(props, rest), rest);
    }
  }

  lemma Enclosed(ts: seq<Token>, names: seq<Text>, calls: set<Text>, rest: seq<Token>)
    requires Mentions(ts, names, calls, Put(P(RParen), rest))
    ensures Mentions(Put(P(LParen), ts), names, calls, rest)
  {
    hide Mentions, Put;
    Skips(ts, names, calls, P(RParen), rest);
    Begins(P(LParen), names, calls, ts, rest);
  }

  lemma {:induction false} MemberAsWritten(obj: Expr, name: Text, rest: seq<Token>)
    requires Printable(obj) && !Opens(rest)
    ensures Mentions(Emit(obj, 11, Put(P(Dot), Put(Word(name), rest))), Names(obj), Calls(obj), rest)
    decreases obj, 3
  {
    hide Mentions, Emit, Put, Names, Calls, Printable;
    var after := Put(P(Dot), Put(Word(name), rest));
    ExpressionAsWritten(obj, 11, after);
    AfterDot(name, rest);
    Joins(Emit(obj, 11, after), Names(obj), Calls(obj), after, [], {}, rest);
    assert Names(obj) + [] == Names(obj) && Calls(obj) + {} == Calls(obj);
  }

  lemma {:induction false} CondAsWritten(c: Expr, y: Expr, n: Expr, rest: seq<Token>)
    requires Printable(c) && Printable(y) && Printable(n) && !Opens(rest)
    ensures Mentions(Emit(c, 1, Put(P(Question), Emit(y, 0, Put(P(Colon), Emit(n, 0, rest))))),
                     Names(c) + Names(y) + Names(n), Calls(c) + Calls(y) + Calls(n), rest)
    decreases Cond(c, y, n), 0
  {
    hide Mentions, Emit, Put, Names, Calls, Printable;
    var last := Emit(n, 0, rest);
    var mid := Emit(y, 0, Put(P(Colon), last));
    ExpressionAsWritten(n, 0, rest);
    Then(y, 0, P(Colon), last, Names(n), Calls(n), rest);
    Then(c, 1, P(Question), mid, Names(y) + Names(n), Calls(y) + Calls(n), rest);
    assert Names(c) + (Names(y) + Names(n)) == Names(c) + Names(y) + Names(n);
    assert Calls(c) + (Calls(y) + Calls(n)) == Calls(c) + Calls(y) + Calls(n);
  }

  /** An expression, a sign, and what follows it. */
  lemma {:induction false} Then(e: Expr, lvl: int, t: Token, ts: seq<Token>, names: seq<Text>, calls: set<Text>, rest: seq<Token>)
    requires Printable(e) && Mentions(ts, names, calls, rest) && Silent(t) && t != P(LParen) && t != P(Assign)
    ensures Mentions(Emit(e, lvl, Put(t, ts)), Names(e) + names, Calls(e) + calls, rest)
    decreases e, 3
  {
    hide Mentions, Emit, Names, Calls, Printable;
    ExpressionAsWritten(e, lvl, Put(t, ts));
    Begins(t, names, calls, ts, rest);
    Joins(Emit(e, lvl, Put(t, ts)), Names(e), Calls(e), Put(t, ts), names, calls, rest);
  }

  lemma {:induction false} ItemsAsWritten(es: seq<Expr>, close: Text, rest: seq<Token>)
    requires PrintableAll(es) && (close == RParen || close == RBracket)
    ensures Mentions(EmitItems(es, close, rest), NamesAll(es), CallsAll(es), rest)
    decreases es, 0
  {
    hide Mentions, Emit, Put, Names, Calls, Printable;
    Nothing(rest);
    if es == [] {
      Begins(P(close), [], {}, rest, rest);
    } else if |es| == 1 {
      assert es[1..] == [];
      Then(es[0], 0, P(close), rest, [], {}, rest);
    } else {
      ItemsAsWritten(es[1..], close, rest);
      Then(es[0], 0, P(Comma), EmitItems(es[1..], close, rest), NamesAll(es[1..]), CallsAll(es[1..]), rest);
    }
  }

  lemma {:induction false} PropsAsWritten(ps: seq<Prop>, rest: seq<Token>)
    requires PrintableProps(ps)
    ensures Mentions(EmitProps(ps, rest), NamesProps(ps), CallsProps(ps), rest)
    decreases ps, 0
  {
    hide Mentions, EmitProp, Put, NamesProp, CallsProp, PrintableProp;
    Nothing(rest);
    if ps == [] {
      Begins(P(RBrace), [], {}, rest, rest);
    } else if |ps| == 1 {
      assert ps[1..] == [];
      PropAsWritten(ps[0], P(RBrace), rest, [], {}, rest);
    } else {
      PropsAsWritten(ps[1..], rest);
      PropAsWritten(ps[0], P(Comma), EmitProps(ps[1..], rest), NamesProps(ps[1..]), CallsProps(ps[1..]), rest);
    }
  }

  lemma {:induction false} PropAsWritten(p: Prop, t: Token, ts: seq<Token>, names: seq<Text>, calls: set<Text>, rest: seq<Token>)
    requires PrintableProp(p) && Mentions(ts, names, calls, rest) && Silent(t) && t != P(LParen) && t != P(Assign)
    ensures Mentions(EmitProp(p, Put(t, ts)), NamesProp(p) + names, CallsProp(p) + calls, rest)
    decreases p, 0
  {
    hide Mentions, Emit, Put, Names, Calls, Printable;
    var val := Emit(p.val, 0, Put(t, ts));
    Then(p.val, 0, t, ts, names, calls, rest);
    Begins(P(Colon), Names(p.val) + names, Calls(p.val) + calls, val, rest);
    Begins(Token(Str, p.key, 0.0), Names(p.val) + names, Calls(p.val) + calls, Put(P(Colon), val), rest);
  }

  // ---------------------------------------------------------------- statements

  lemma {:induction false} StatementAsWritten(s: Stmt, rest: seq<Token>)
    requires PrintableStmt(s) && !Opens(rest)
    ensures Mentions(EmitStmt(s, rest), StmtNames(s), StmtCalls(s), rest)
    decreases s, 0
  {
    hide Mentions, Emit, EmitBraces, Put, Names, Calls, Printable, EmitExprStmt;
    Nothing(rest);
    match s
    case AssignStmt(name, val) =>
      ExpressionAsWritten(val, 0, rest);
      Target(name, Emit(val, 0, rest));
      Joins(EmitStmt(s, rest), [], {}, Emit(val, 0, rest), Names(val), Calls(val), rest);
      assert [] + Names(val) == Names(val) && {} + Calls(val) == Calls(val);
    case ReturnStmt(val) => ReturnAsWritten(val, rest);
    case ExprStmt(e) => ExprStmtAsWritten(e, rest);
    case IfStmt(c, yes, no) =>
      ElseAsWritten(no, rest);
      var tail := if no == [] then rest else Put(Word(Else), EmitBraces(no, rest));
      BracesAsWritten(yes, tail);
      Joins(EmitBraces(yes, tail), BlockNames(yes), BlockCalls(yes), tail, BlockNames(no), BlockCalls(no), rest);
      Then(c, 0, P(RParen), EmitBraces(yes, tail), BlockNames(yes) + BlockNames(no), BlockCalls(yes) + BlockCalls(no), rest);
      assert Names(c) + (BlockNames(yes) + BlockNames(no)) == StmtNames(s);
      assert Calls(c) + (BlockCalls(yes) + BlockCalls(no)) == StmtCalls(s);
      var cond := Emit(c, 0, Put(P(RParen), EmitBraces(yes, tail)));
      Begins(P(LParen), StmtNames(s), StmtCalls(s), cond, rest);
      Begins(Word(If), StmtNames(s), StmtCalls(s), Put(P(LParen), cond), rest);
  }

  lemma ReturnAsWritten(val: Expr, rest: seq<Token>)
    requires (val == NoValue || Printable(val)) && !Opens(rest)
    ensures Mentions(EmitStmt(ReturnStmt(val), rest), Names(val), Calls(val), rest)
  {
    hide Mentions, Emit, Put;
    if val == NoValue {
      Nothing(rest);
      Begins(Word(Return), [], {}, rest, rest);
    } else {
      ExpressionAsWritten(val, 0, rest);
      Begins(Word(Return), Names(val), Calls(val), Emit(val, 0, rest), rest);
    }
  }

  lemma ExprStmtAsWritten(e: Expr, rest: seq<Token>)
    requires Printable(e) && !Opens(rest)
    ensures Mentions(EmitExprStmt(e, rest), Names(e), Calls(e), rest)
  {
    hide Mentions, Emit, Put, Names, Calls;
    ExpressionAsWritten(e, 0, rest);
    ExpressionAsWritten(e, 0, Put(P(RParen), rest));
    Skips(Emit(e, 0, Put(P(RParen), rest)), Names(e), Calls(e), P(RParen), rest);
    Begins(P(LParen), Names(e), Calls(e), Emit(e, 0, Put(P(RParen), rest)), rest);
  }

  lemma {:induction false} ElseAsWritten(no: seq<Stmt>, rest: seq<Token>)
    requires PrintableBlock(no) && !Opens(rest)
    ensures Mentions(if no == [] then rest else Put(Word(Else), EmitBraces(no, rest)), BlockNames(no), BlockCalls(no), rest)
    decreases no, 2
  {
    hide Mentions, EmitBraces, Put;
    if no == [] {
      Nothing(rest);
    } else {
      BracesAsWritten(no, rest);
      Begins(Word(Else), BlockNames(no), BlockCalls(no), EmitBraces(no, rest), rest);
    }
  }

  lemma {:induction false} BracesAsWritten(b: seq<Stmt>, rest: seq<Token>)
    requires PrintableBlock(b)
    ensures Mentions(EmitBraces(b, rest), BlockNames(b), BlockCalls(b), rest)
    decreases b, 1
  {
    hide Mentions, EmitBlock, Put, BlockNames, BlockCalls;
    BlockAsWritten(b, Put(P(RBrace), rest));
    Skips(EmitBlock(b, Put(P(RBrace), rest)), BlockNames(b), BlockCalls(b), P(RBrace), rest);
    Begins(P(LBrace), BlockNames(b), BlockCalls(b), EmitBlock(b, Put(P(RBrace), rest)), rest);
  }

  lemma {:induction false} BlockAsWritten(b: seq<Stmt>, rest: seq<Token>)
    requires PrintableBlock(b)
    ensures Mentions(EmitBlock(b, rest), BlockNames(b), BlockCalls(b), rest)
    decreases b, 0
  {
    hide Mentions, EmitStmt, Put, StmtNames, StmtCalls, PrintableStmt;
    if b == [] {
      Nothing(rest);
    } else {
      var more := EmitBlock(b[1..], rest);
      BlockAsWritten(b[1..], rest);
      StatementAsWritten(b[0], Put(P(Semi), more));
      Skips(EmitStmt(b[0], Put(P(Semi), more)), StmtNames(b[0]), StmtCalls(b[0]), P(Semi), more);
      Joins(EmitBlock(b, rest), StmtNames(b[0]), StmtCalls(b[0]), more, BlockNames(b[1..]), BlockCalls(b[1..]), rest);
    }
  }

  // ---------------------------------------------------------------- the report

  /** In a list, one element is met before another. */
  ghost predicate MetBefore(all: seq<Text>, a: Text, b: Text) {
    exists k :: 0 <= k < |all| && all[k] == a && b !in all[..k + 1]
  }

  /** The elements of a list, each once, in the order they are first met. */
  ghost predicate FirstMentions(out: seq<Text>, all: seq<Text>) {
    && (forall x :: x in out <==> x in all)
    && (forall i, j :: 0 <= i < j < |out| ==> out[i] != out[j] && MetBefore(all, out[i], out[j]))
  }

  lemma {:induction false} GatheredInOrder(all: seq<Text>)
    ensures FirstMentions(Gathered([], all), all)
    decreases |all|
  {
    if all != [] {
      var n := |all| - 1;
      var x, so, out := all[n], Gathered([], all[..n]), Gathered([], all);
      GatheredInOrder(all[..n]);
      assert all == all[..n] + [x];
      forall i, j | 0 <= i < j < |out|
        ensures out[i] != out[j] && MetBefore(all, out[i], out[j])
      {
        assert out[i] == so[i] && so[i] in so;
        if j < |so| {
          var k :| 0 <= k < n && all[..n][k] == so[i] && so[j] !in all[..n][..k + 1];
          assert all[..n][..k + 1] == all[..k + 1];
          assert all[k] == out[i] && out[j] !in all[..k + 1];
        } else {
          var k :| 0 <= k < n && all[..n][k] == so[i];
          assert forall m :: 0 <= m < k + 1 ==> all[..k + 1][m] == all[..n][m];
          assert all[k] == out[i] && out[j] !in all[..k + 1];
        }
      }
    }
  }

  /**
   * The report on a script agrees with its text: its variables are those the text mentions, each once, in the order first
   * mentioned; its calls are the names in front of a parenthesis, in order, and the unknown ones those no host function has.
   */
  lemma ReportReadsTheText(b: seq<Stmt>, x: string)
    requires PrintableBlock(b)
    ensures var text, report := EmitBlock(b, [EofToken]), ReportOf(b);
      && FirstMentions(report.variables, VariablesIn(text, false))
      && Sorted(report.calls) && Distinct(report.calls)
      && (x in report.calls <==> Other(x) in CalledIn(text))
      && (x in report.unknown <==> Other(x) in CalledIn(text) && HostOf(Other(x)).None?)
  {
    hide EmitBlock, BlockNames, BlockCalls, Gathered, HostOf, FirstMentions;
    TextMentions(b);
    GatheredInOrder(BlockNames(b));
    BlockCallsNames(b);
    SpelledAre(BlockCalls(b), x);
    UnknownAre(ReportOf(b).calls, x);
  }

  lemma {:induction false} BlockCallsNames(b: seq<Stmt>)
    requires PrintableBlock(b)
    ensures forall fn :: fn in BlockCalls(b) ==> fn.Other?
    decreases b, 0
  {
    hide StmtCalls, PrintableStmt;
    if b != [] {
      StmtCallsNames(b[0]);
      BlockCallsNames(b[1..]);
    }
  }

  lemma {:induction false} StmtCallsNames(s: Stmt)
    requires PrintableStmt(s)
    ensures forall fn :: fn in StmtCalls(s) ==> fn.Other?
    decreases s, 0
  {
    hide Calls, Printable, BlockCalls;
    match s
    case AssignStmt(_, val) => PrintableCalls(val);
    case ReturnStmt(val) => 
      NoValueCallsNothing();
      if val != NoValue {
        PrintableCalls(val);
      }
    case ExprStmt(e) => PrintableCalls(e);
    case IfStmt(c, yes, no) =>
      PrintableCalls(c);
      BlockCallsNames(yes);
      BlockCallsNames(no);
  }

  lemma NoValueCallsNothing()
    ensures Calls(NoValue) == {}
  {
  }

  lemma TextMentions(b: seq<Stmt>)
    requires PrintableBlock(b)
    ensures var text := EmitBlock(b, [EofToken]);
      BlockNames(b) == VariablesIn(text, false) && BlockCalls(b) == CalledIn(text)
  {
    hide EmitBlock, BlockNames, BlockCalls;
    BlockAsWritten(b, [EofToken]);
    assert [EofToken][1..] == [];
    assert VariablesIn([EofToken], false) == [] && CalledIn([EofToken]) == {};
  }
}
