/** The static analysis shown before a script runs: the variables it reads and the functions it calls. */
module Analysis {
  import opened Outcomes
  import opened Ordering
  import opened Syntax
  import opened Grammar
  import opened Scripts
  import opened Parsing
  import opened Evaluation
  import opened ScriptSafety
  import opened Noninterference
  import opened Printing
  import opened Reprinting

  // ---------------------------------------------------------------- occurrences, in reading order

  function Names(e: Expr): seq<Text> {
    match e
    case Lit(_) => []
    case Id(name) => [name]
    case Member(obj, _) => Names(obj)
    case Index(obj, index) => Names(obj) + Names(index)
    case Unary(_, oper) => Names(oper)
    case Bin(_, l, r) => Names(l) + Names(r)
    case Cond(c, y, n) => Names(c) + Names(y) + Names(n)
    case Call(_, args) => NamesAll(args)
    case ArrayLit(items) => NamesAll(items)
    case ObjectLit(props) => NamesProps(props)
  }

  function NamesAll(es: seq<Expr>): seq<Text> {
    if es == [] then [] else Names(es[0]) + NamesAll(es[1..])
  }

  function NamesProps(ps: seq<Prop>): seq<Text> {
    if ps == [] then [] else NamesProp(ps[0]) + NamesProps(ps[1..])
  }

  function NamesProp(p: Prop): seq<Text> {
    Names(p.val)
  }

  function StmtNames(s: Stmt): seq<Text> {
    match s
    case AssignStmt(_, val) => Names(val)
    case IfStmt(c, y, n) => Names(c) + BlockNames(y) + BlockNames(n)
    case ReturnStmt(val) => Names(val)
    case ExprStmt(e) => Names(e)
  }

  function BlockNames(b: seq<Stmt>): seq<Text> {
    if b == [] then [] else StmtNames(b[0]) + BlockNames(b[1..])
  }

  lemma {:induction false} NamesAreIdents(e: Expr)
    ensures forall x :: x in Names(e) <==> x in Idents(e)
    decreases e, 0
  {
    match e
    case Lit(_) =>
    case Id(_) =>
    case Member(obj, _) => NamesAreIdents(obj);
    case Index(obj, index) =>
      NamesAreIdents(obj);
      NamesAreIdents(index);
    case Unary(_, oper) => NamesAreIdents(oper);
    case Bin(_, l, r) =>
      NamesAreIdents(l);
      NamesAreIdents(r);
    case Cond(c, y, n) =>
      NamesAreIdents(c);
      NamesAreIdents(y);
      NamesAreIdents(n);
    case Call(_, args) => AllAreIdents(args);
    case ArrayLit(items) => AllAreIdents(items);
    case ObjectLit(props) => PropsAreIdents(props);
  }

  lemma {:induction false} AllAreIdents(es: seq<Expr>)
    ensures forall x :: x in NamesAll(es) <==> x in IdentsAll(es)
    decreases es, 0
  {
    hide Names, Idents;
    if es != [] {
      NamesAreIdents(es[0]);
      AllAreIdents(es[1..]);
    }
  }

  lemma {:induction false} PropsAreIdents(ps: seq<Prop>)
    ensures forall x :: x in NamesProps(ps) <==> x in IdentsProps(ps)
    decreases ps, 0
  {
    hide NamesProp, IdentsProp;
    if ps != [] {
      PropIsIdents(ps[0]);
      PropsAreIdents(ps[1..]);
    }
  }

  lemma {:induction false} PropIsIdents(p: Prop)
    ensures forall x :: x in NamesProp(p) <==> x in IdentsProp(p)
    decreases p, 0
  {
    hide Names, Idents;
    NamesAreIdents(p.val);
  }

  lemma {:induction false} StmtAreIdents(s: Stmt)
    ensures forall x :: x in StmtNames(s) <==> x in StmtIdents(s)
    decreases s, 0
  {
    hide Names, Idents;
    match s
    case AssignStmt(_, val) => NamesAreIdents(val);
    case IfStmt(c, y, n) =>
      NamesAreIdents(c);
      BlockAreIdents(y);
      BlockAreIdents(n);
    case ReturnStmt(val) => NamesAreIdents(val);
    case ExprStmt(e) => NamesAreIdents(e);
  }

  lemma {:induction false} BlockAreIdents(b: seq<Stmt>)
    ensures forall x :: x in BlockNames(b) <==> x in BlockIdents(b)
    decreases b, 0
  {
    hide StmtNames, StmtIdents;
    if b != [] {
      StmtAreIdents(b[0]);
      BlockAreIdents(b[1..]);
    }
  }

  // ---------------------------------------------------------------- the collectors

  /** A list with the new names of another added in order. */
  function Gathered(out: seq<Text>, names: seq<Text>): seq<Text> {
    if names == [] then out
    else
      var so := Gathered(out, names[..|names| - 1]);
      var x := names[|names| - 1];
      if x in so then so else so + [x]
  }

  lemma {:induction false} GatheredTwice(out: seq<Text>, a: seq<Text>, b: seq<Text>)
    ensures Gathered(Gathered(out, a), b) == Gathered(out, a + b)
  {
    if b == [] {
      assert a + b == a;
    } else {
      var n := |b| - 1;
      GatheredTwice(out, a, b[..n]);
      assert (a + b)[..|a + b| - 1] == a + b[..n] && (a + b)[|a + b| - 1] == b[n];
    }
  }

  lemma {:induction false} GatheredHolds(out: seq<Text>, names: seq<Text>)
    requires Distinct(out)
    ensures Distinct(Gathered(out, names)) && forall x :: x in Gathered(out, names) <==> x in out || x in names
  {
    if names != [] {
      var n := |names| - 1;
      GatheredHolds(out, names[..n]);
      assert names == names[..n] + [names[n]];
    }
  }

  /** Collects the variables a script mentions, each once, in the order they are first met. */
  class IdentCollector {
    var seen: set<Text>
    var out: seq<Text>

    constructor ()
      ensures Valid() && out == []
    {
      seen, out := {}, [];
    }

    ghost predicate Valid()
      reads this
    {
      forall x :: x in seen <==> x in out
    }

    method Note(name: Text)
      requires Valid()
      modifies this
      ensures Valid() && out == Gathered(old(out), [name])
    {
      assert [name][..0] == [];
      if name !in seen {
        seen, out := seen + {name}, out + [name];
      }
    }

    method WalkExpr(e: Expr)
      requires Valid()
      modifies this
      ensures Valid() && out == Gathered(old(out), Names(e))
      decreases e, 0
    {
      hide Gathered, NamesAll, NamesProps, Valid;
      match e {
        case Lit(_) => NothingGathered(out);
        case Id(name) => Note(name);
        case Member(obj, _) => WalkExpr(obj);
        case Index(obj, index) =>
          GatheredTwice(out, Names(obj), Names(index));
          WalkExpr(obj);
          WalkExpr(index);
        case Unary(_, oper) => WalkExpr(oper);
        case Bin(_, left, right) =>
          GatheredTwice(out, Names(left), Names(right));
          WalkExpr(left);
          WalkExpr(right);
        case Cond(c, yes, no) =>
          GatheredTwice(out, Names(c), Names(yes));
          GatheredTwice(out, Names(c) + Names(yes), Names(no));
          WalkExpr(c);
          WalkExpr(yes);
          WalkExpr(no);
        case Call(_, args) => WalkAll(args);
        case ArrayLit(items) => WalkAll(items);
        case ObjectLit(props) => WalkProps(props);
      }
    }

    method WalkAll(es: seq<Expr>)
      requires Valid()
      modifies this
      ensures Valid() && out == Gathered(old(out), NamesAll(es))
      decreases es, 0
    {
      hide Gathered, Names, Valid;
      ghost var whole := Gathered(out, NamesAll(es));
      for i := 0 to |es|
        invariant Valid() && whole == Gathered(out, NamesAll(es[i..]))
      {
        assert es[i..][0] == es[i] && es[i..][1..] == es[i + 1..];
        GatheredTwice(out, Names(es[i]), NamesAll(es[i + 1..]));
        WalkExpr(es[i]);
      }
      assert es[|es|..] == [];
      NothingGathered(out);
    }

    method WalkProps(ps: seq<Prop>)
      requires Valid()
      modifies this
      ensures Valid() && out == Gathered(old(out), NamesProps(ps))
      decreases ps, 0
    {
      hide Gathered, NamesProp, Valid;
      ghost var whole := Gathered(out, NamesProps(ps));
      for i := 0 to |ps|
        invariant Valid() && whole == Gathered(out, NamesProps(ps[i..]))
      {
        assert ps[i..][0] == ps[i] && ps[i..][1..] == ps[i + 1..];
        GatheredTwice(out, NamesProp(ps[i]), NamesProps(ps[i + 1..]));
        WalkProp(ps[i]);
      }
      assert ps[|ps|..] == [];
      NothingGathered(out);
    }

    method WalkProp(p: Prop)
      requires Valid()
      modifies this
      ensures Valid() && out == Gathered(old(out), NamesProp(p))
      decreases p, 0
    {
      WalkExpr(p.val);
    }

    method WalkStmt(s: Stmt)
      requires Valid()
      modifies this
      ensures Valid() && out == Gathered(old(out), StmtNames(s))
      decreases s, 0
    {
      hide Gathered, Names, BlockNames, Valid;
      match s {
        case AssignStmt(_, val) => WalkExpr(val);
        case IfStmt(c, yes, no) =>
          GatheredTwice(out, Names(c), BlockNames(yes));
          GatheredTwice(out, Names(c) + BlockNames(yes), BlockNames(no));
          WalkExpr(c);
          WalkBlock(yes);
          WalkBlock(no);
        case ReturnStmt(val) => WalkExpr(val);
        case ExprStmt(e) => WalkExpr(e);
      }
    }

    method WalkBlock(b: seq<Stmt>)
      requires Valid()
      modifies this
      ensures Valid() && out == Gathered(old(out), BlockNames(b))
      decreases b, 0
    {
      hide Gathered, StmtNames, Valid;
      ghost var whole := Gathered(out, BlockNames(b));
      for i := 0 to |b|
        invariant Valid() && whole == Gathered(out, BlockNames(b[i..]))
      {
        assert b[i..][0] == b[i] && b[i..][1..] == b[i + 1..];
        GatheredTwice(out, StmtNames(b[i]), BlockNames(b[i + 1..]));
        WalkStmt(b[i]);
      }
      assert b[|b|..] == [];
      NothingGathered(out);
    }
  }

  lemma NothingGathered(out: seq<Text>)
    ensures Gathered(out, []) == out
  {
  }

  /** Collects the functions a script calls. */
  class CallCollector {
    var fns: set<Text>

    constructor ()
      ensures fns == {}
    {
      fns := {};
    }

    method WalkExpr(e: Expr)
      modifies this
      ensures fns == old(fns) + Calls(e)
      decreases e, 0
    {
      hide CallsAll, CallsProps;
      match e {
        case Lit(_) =>
        case Id(_) =>
        case Member(obj, _) => WalkExpr(obj);
        case Index(obj, index) =>
          WalkExpr(obj);
          WalkExpr(index);
        case Unary(_, oper) => WalkExpr(oper);
        case Bin(_, left, right) =>
          WalkExpr(left);
          WalkExpr(right);
        case Cond(c, yes, no) =>
          WalkExpr(c);
          WalkExpr(yes);
          WalkExpr(no);
        case Call(fn, args) =>
          fns := fns + {fn};
          WalkAll(args);
        case ArrayLit(items) => WalkAll(items);
        case ObjectLit(props) => WalkProps(props);
      }
    }

    method WalkAll(es: seq<Expr>)
      modifies this
      ensures fns == old(fns) + CallsAll(es)
      decreases es, 0
    {
      hide Calls;
      for i := 0 to |es|
        invariant fns + CallsAll(es[i..]) == old(fns) + CallsAll(es)
      {
        assert es[i..][0] == es[i] && es[i..][1..] == es[i + 1..];
        WalkExpr(es[i]);
      }
      assert es[|es|..] == [];
    }

    method WalkProps(ps: seq<Prop>)
      modifies this
      ensures fns == old(fns) + CallsProps(ps)
      decreases ps, 0
    {
      hide CallsProp;
      for i := 0 to |ps|
        invariant fns + CallsProps(ps[i..]) == old(fns) + CallsProps(ps)
      {
        assert ps[i..][0] == ps[i] && ps[i..][1..] == ps[i + 1..];
        WalkProp(ps[i]);
      }
      assert ps[|ps|..] == [];
    }

    method WalkProp(p: Prop)
      modifies this
      ensures fns == old(fns) + CallsProp(p)
      decreases p, 0
    {
      WalkExpr(p.val);
    }

    method WalkStmt(s: Stmt)
      modifies this
      ensures fns == old(fns) + StmtCalls(s)
      decreases s, 0
    {
      hide Calls, BlockCalls;
      match s {
        case AssignStmt(_, val) => WalkExpr(val);
        case IfStmt(c, yes, no) =>
          WalkExpr(c);
          WalkBlock(yes);
          WalkBlock(no);
        case ReturnStmt(val) => WalkExpr(val);
        case ExprStmt(e) => WalkExpr(e);
      }
    }

    method WalkBlock(b: seq<Stmt>)
      modifies this
      ensures fns == old(fns) + BlockCalls(b)
      decreases b, 0
    {
      hide StmtCalls;
      for i := 0 to |b|
        invariant fns + BlockCalls(b[i..]) == old(fns) + BlockCalls(b)
      {
        assert b[i..][0] == b[i] && b[i..][1..] == b[i + 1..];
        WalkStmt(b[i]);
      }
      assert b[|b|..] == [];
    }
  }

  // ---------------------------------------------------------------- the report

  datatype Report = Report(variables: seq<Text>, calls: seq<string>, unknown: seq<string>)

  function Spelled(fns: set<Text>): set<string> {
    set fn | fn in fns :: Spell(fn)
  }

  /** The names of a list that no host function has. */
  function Unknown(names: seq<string>): seq<string> {
    if names == [] then []
    else Unknown(names[..|names| - 1]) + if HostOf(Other(names[|names| - 1])).None? then [names[|names| - 1]] else []
  }

  function ReportOf(body: seq<Stmt>): Report {
    var calls := SortedElements(Spelled(BlockCalls(body)));
    Report(Gathered([], BlockNames(body)), calls, Unknown(calls))
  }

  /** Parses a script and reports what it would read and call, without running it. */
  method Analyze(toks: seq<Token>) returns (r: Read<Report>)
    requires Lexed(toks)
    ensures match ParseScript(toks)
            case Got(body, _) => r == Value(ReportOf(body))
            case Bad(code) => r == Error(code)
  {
    hide ParseScript, BlockNames, BlockCalls, Gathered, HostOf, SortedElements, BlockNodes, Spell;
    var body :- Parse(toks);
    var idents := new IdentCollector();
    idents.WalkBlock(body);
    var fns := new CallCollector();
    fns.WalkBlock(body);
    assert fns.fns == BlockCalls(body);
    var calls := SortedElements(Spelled(fns.fns));
    var unknown: seq<string> := [];
    for i := 0 to |calls|
      invariant unknown == Unknown(calls[..i])
    {
      assert calls[..i + 1][..i] == calls[..i];
      if HostOf(Other(calls[i])).None? {
        unknown := unknown + [calls[i]];
      }
    }
    assert calls[..|calls|] == calls;
    return Value(Report(idents.out, calls, unknown));
  }

  lemma {:induction false} UnknownAre(names: seq<string>, x: string)
    ensures x in Unknown(names) <==> x in names && HostOf(Other(x)).None?
  {
    hide HostOf;
    if names != [] {
      var n := |names| - 1;
      UnknownAre(names[..n], x);
      assert names == names[..n] + [names[n]];
    }
  }

  /** The report is right about a script before it runs. */
  lemma ReportPredicts(vs: Values, a: Env, b: Env, body: seq<Stmt>, budget: int)
    requires forall fn :: fn in BlockCalls(body) ==> fn.Other?
    ensures var report := ReportOf(body);
            && Distinct(report.variables)
            && (Agree(a, b, set x | x in report.variables) ==> RunScript(vs, a, body, budget) == RunScript(vs, b, body, budget))
            && (forall s :: s in report.unknown <==> Other(s) in UnknownCalls(body))
            && (report.unknown == [] ==>
                  !(RunScript(vs, a, body, budget).Halted? && RunScript(vs, a, body, budget).fault.UnknownCall?))
  {
    hide RunScript, HostOf, BlockCalls, BlockNames, BlockIdents, Gathered, SortedElements;
    var report := ReportOf(body);
    GatheredHolds([], BlockNames(body));
    BlockAreIdents(body);
    if Agree(a, b, set x | x in report.variables) {
      assert (set x | x in report.variables) == BlockIdents(body);
      OnlyFreeVariablesMatter(vs, a, b, body, budget);
    }
    forall s
      ensures s in report.unknown <==> Other(s) in UnknownCalls(body)
    {
      UnknownAre(report.calls, s);
      SpelledAre(BlockCalls(body), s);
    }
    if report.unknown == [] {
      NoUnknown(body, report.unknown);
      KnownCallsAreAnswered(vs, a, body, budget);
    }
  }

  lemma SpelledAre(fns: set<Text>, s: string)
    requires forall fn :: fn in fns ==> fn.Other?
    ensures s in Spelled(fns) <==> Other(s) in fns
  {
    if Other(s) in fns {
      assert Spell(Other(s)) == s;
    }
  }

  lemma NoUnknown(body: seq<Stmt>, unknown: seq<string>)
    requires forall fn :: fn in BlockCalls(body) ==> fn.Other?
    requires unknown == [] && forall s :: s in unknown <==> Other(s) in UnknownCalls(body)
    ensures UnknownCalls(body) == {}
  {
    hide HostOf, BlockCalls;
    forall fn | fn in BlockCalls(body)
      ensures HostOf(fn).Some?
    {
      assert Other(fn.s) == fn;
      assert fn.s !in unknown;
    }
  }

  // ---------------------------------------------------------------- calls in parsed scripts are names

  ghost predicate Plain(fns: set<Text>) {
    forall fn :: fn in fns ==> fn.Other?
  }

  lemma {:induction false} PrintableCalls(e: Expr)
    requires Printable(e)
    ensures Plain(Calls(e))
    decreases e, 0
  {
    match e
    case Member(obj, _) => PrintableCalls(obj);
    case Index(obj, index) =>
      PrintableCalls(obj);
      PrintableCalls(index);
    case Unary(_, oper) => PrintableCalls(oper);
    case Bin(_, l, r) =>
      PrintableCalls(l);
      PrintableCalls(r);
    case Cond(c, y, n) =>
      PrintableCalls(c);
      PrintableCalls(y);
      PrintableCalls(n);
    case Call(_, args) => AllPrintableCalls(args);
    case ArrayLit(items) => AllPrintableCalls(items);
    case ObjectLit(props) => PropsPrintableCalls(props);
    case _ =>
  }

  lemma {:induction false} AllPrintableCalls(es: seq<Expr>)
    requires PrintableAll(es)
    ensures Plain(CallsAll(es))
    decreases es, 0
  {
    hide Calls, Printable;
    if es != [] {
      PrintableCalls(es[0]);
      AllPrintableCalls(es[1..]);
    }
  }

  lemma {:induction false} PropsPrintableCalls(ps: seq<Prop>)
    requires PrintableProps(ps)
    ensures Plain(CallsProps(ps))
    decreases ps, 0
  {
    hide CallsProp, PrintableProp;
    if ps != [] {
      PropPrintableCalls(ps[0]);
      PropsPrintableCalls(ps[1..]);
    }
  }

  lemma {:induction false} PropPrintableCalls(p: Prop)
    requires PrintableProp(p)
    ensures Plain(CallsProp(p))
    decreases p, 0
  {
    hide Calls, Printable, ProtoKey;
    PrintableCalls(p.val);
  }

  lemma ExprPlain(ts: seq<Token>)
    requires Lexed(ts) && Written(ts)
    ensures var r := ParseTernary(ts, 0); r.Got? ==> Plain(Calls(r.value)) && Written(r.rest)
  {
    hide ParseTernary, Calls, Printable, Plain, Written;
    TernaryTight(ts, 0);
    if ParseTernary(ts, 0).Got? {
      PrintableCalls(ParseTernary(ts, 0).value);
    }
  }

  lemma {:induction false} StatementsPlain(ts: seq<Token>, nested: bool)
    requires Lexed(ts) && Written(ts)
    ensures var r := ParseStatements(ts, nested); r.Got? ==> Plain(BlockCalls(r.value)) && Written(r.rest)
    decreases |ts|, 1
  {
    hide ParseStatements, ParseStatement, Written, StmtCalls, BlockNodes;
    StatementsUnfold(ts, nested);
    WrittenOn(ts);
    if ts[0].kind != Eof && !(nested && ts[0].text == RBrace) {
      if ts[0].text == Semi {
        StatementsPlain(Skip(ts), nested);
      } else {
        StatementPlain(ts);
        var s := ParseStatement(ts);
        if s.Got? {
          WrittenOn(s.rest);
          var next := if At(s.rest, Semi) then Skip(s.rest) else s.rest;
          StatementsPlain(next, nested);
          var more := ParseStatements(next, nested);
          if more.Got? {
            assert ([s.value] + more.value)[1..] == more.value;
          }
        }
      }
    }
  }

  lemma {:induction false} StatementPlain(ts: seq<Token>)
    requires Lexed(ts) && Written(ts) && ts[0].kind != Eof
    ensures var r := ParseStatement(ts); r.Got? ==> Plain(StmtCalls(r.value)) && Written(r.rest)
    decreases |ts|, 0
  {
    hide ParseTernary, ParseIf, ParseDeclaration, ParseReturn, Written, Calls, StmtNodes, Nodes;
    WrittenOn(ts);
    var t := ts[0];
    var after := SkipAny(ts);
    if t.text == Var && t.kind == Keyword {
      DeclarationPlain(after);
    } else if t.text == If && t.kind == Keyword {
      IfPlain(after);
    } else if t.text == Return && t.kind == Keyword {
      ReturnPlain(after);
    } else if t.kind == Ident && after[0].text == Assign {
      WrittenOn(after);
      ExprPlain(Skip(after));
    } else {
      ExprPlain(ts);
    }
  }

  lemma DeclarationPlain(ts: seq<Token>)
    requires Lexed(ts) && Written(ts)
    ensures var r := ParseDeclaration(ts); r.Got? ==> Plain(StmtCalls(r.value)) && Written(r.rest)
  {
    hide ParseTernary, Written, Calls, Nodes, StmtNodes;
    WrittenOn(ts);
    if ts[0].kind == Ident && At(SkipAny(ts), Assign) {
      WrittenOn(SkipAny(ts));
      ExprPlain(Skip(SkipAny(ts)));
    }
  }

  lemma ReturnPlain(ts: seq<Token>)
    requires Lexed(ts) && Written(ts)
    ensures var r := ParseReturn(ts); r.Got? ==> Plain(StmtCalls(r.value)) && Written(r.rest)
  {
    hide ParseTernary, Written, Nodes, StmtNodes;
    ExprPlain(ts);
  }

  lemma {:induction false} BlockPlain(ts: seq<Token>)
    requires Lexed(ts) && Written(ts)
    ensures var r := ParseBlock(ts); r.Got? ==> Plain(BlockCalls(r.value)) && Written(r.rest)
    decreases |ts|, 2
  {
    hide ParseStatements, Written, BlockCalls, BlockNodes;
    if At(ts, LBrace) {
      WrittenOn(ts);
      StatementsPlain(Skip(ts), true);
      var body := ParseStatements(Skip(ts), true);
      if body.Got? {
        WrittenOn(body.rest);
      }
    }
  }

  lemma {:induction false} IfPlain(ts: seq<Token>)
    requires Lexed(ts) && Written(ts)
    ensures var r := ParseIf(ts); r.Got? ==> Plain(StmtCalls(r.value)) && Written(r.rest)
    decreases |ts|, 4
  {
    hide ParseTernary, ParseBlock, ParseElse, ParseIf, Written, Calls, BlockCalls, Nodes, BlockNodes, StmtNodes;
    IfUnfolds(ts);
    if At(ts, LParen) {
      WrittenOn(ts);
      ExprPlain(Skip(ts));
      var c := ParseTernary(Skip(ts), 0);
      if c.Got? && At(c.rest, RParen) {
        WrittenOn(c.rest);
        BlockPlain(Skip(c.rest));
        var yes := ParseBlock(Skip(c.rest));
        if yes.Got? {
          ElsePlain(c.value, yes.value, yes.rest);
        }
      }
    }
  }

  lemma {:induction false} ElsePlain(c: Expr, yes: seq<Stmt>, ts: seq<Token>)
    requires Lexed(ts) && Written(ts) && Plain(Calls(c)) && Plain(BlockCalls(yes))
    ensures var r := ParseElse(c, yes, ts); r.Got? ==> Plain(StmtCalls(r.value)) && Written(r.rest)
    decreases |ts|, 3
  {
    hide ParseBlock, ParseElse, ParseIf, Written, Calls, Nodes, BlockNodes, StmtNodes;
    ElseUnfolds(c, yes, ts);
    if At(ts, Else) {
      WrittenOn(ts);
      if At(Skip(ts), If) {
        WrittenOn(Skip(ts));
        IfPlain(Skip(Skip(ts)));
        var inner := ParseIf(Skip(Skip(ts)));
        if inner.Got? {
          assert BlockCalls([inner.value]) == StmtCalls(inner.value) + BlockCalls([]);
        }
      } else {
        BlockPlain(Skip(ts));
      }
    }
  }

  /** For a script as the lexer delivers it, the report made before a run is right about every run. */
  lemma AnalysisPredicts(vs: Values, toks: seq<Token>, a: Env, b: Env, budget: int)
    requires Lexed(toks) && Written(toks) && ParseScript(toks).Got?
    ensures var body := ParseScript(toks).value;
            var report := ReportOf(body);
            && Distinct(report.variables)
            && (Agree(a, b, set x | x in report.variables) ==> RunScript(vs, a, body, budget) == RunScript(vs, b, body, budget))
            && (report.unknown == [] ==>
                  !(RunScript(vs, a, body, budget).Halted? && RunScript(vs, a, body, budget).fault.UnknownCall?))
  {
    hide RunScript, ReportOf, BlockCalls, BlockNodes, ParseStatements;
    StatementsPlain(toks, false);
    ReportPredicts(vs, a, b, ParseScript(toks).value, budget);
  }
}
