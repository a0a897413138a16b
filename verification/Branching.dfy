/** Which part of a script runs next: conditions, short circuits, names, statements and the cost of each step. */
module Branching {
  import opened Outcomes
  import opened Syntax
  import opened Grammar
  import opened Evaluation

  /** The four values that count as false. */
  predicate Falsy(v: Val) {
    v == VNull || v == VBool(false) || v == VNum(0.0) || v == VStr("")
  }

  /** The state once the step of a node or statement is paid. */
  function Paid(st: St): St {
    st.(budget := st.budget - 1)
  }

  /** What comes after a value, or the failure instead of it. */
  function AfterValue<T>(o: Out<Val>, next: (Val, St) -> Out<T>): Out<T> {
    match o
    case Done(v, s) => next(v, s)
    case Halted(f, s) => Halted(f, s)
  }

  lemma TruthyExactly(v: Val)
    ensures Truthy(v) <==> !Falsy(v)
  {
  }

  /** The last step of the budget is the limit, whatever comes next. */
  lemma LastStepIsTheLimit(vs: Values, env: Env, e: Expr, b: seq<Stmt>, st: St)
    requires st.budget <= 1
    ensures Eval(vs, env, e, st) == Halted(StepLimit, Paid(st))
    ensures b != [] ==> ExecBlock(vs, env, b, st) == Halted(StepLimit, Paid(st))
  {
  }

  /** Inside the budget an expression is its node, one step poorer. */
  lemma OneStep(vs: Values, env: Env, e: Expr, st: St)
    requires st.budget > 1
    ensures Eval(vs, env, e, st) == EvalNode(vs, env, e, Paid(st))
  {
    hide EvalNode;
  }

  /** c ? x : y is its first branch unless the condition is one of the four false values, and then the second. */
  lemma ConditionChooses(vs: Values, env: Env, c: Expr, x: Expr, y: Expr, st: St)
    requires st.budget > 1
    ensures Eval(vs, env, Cond(c, x, y), st)
         == AfterValue(Eval(vs, env, c, Paid(st)), (v: Val, s: St) => Eval(vs, env, if Falsy(v) then y else x, s))
  {
    hide Eval, Truthy, Falsy;
    OneStep(vs, env, Cond(c, x, y), st);
    var b := Eval(vs, env, c, Paid(st));
    if b.Done? {
      TruthyExactly(b.value);
    }
  }

  /** Whether the left side alone answers: a false one for and, a true one for or, one that is not null for the third. */
  predicate LeftAnswers(op: BinOp, v: Val) {
    (op == And && Falsy(v)) || (op == Or && !Falsy(v)) || (op == Coalesce && v != VNull)
  }

  /** And, or and coalesce give their left side without a look at the right one, or else exactly their right side. */
  lemma ShortCircuits(vs: Values, env: Env, op: BinOp, left: Expr, right: Expr, st: St)
    requires st.budget > 1 && (op == And || op == Or || op == Coalesce)
    ensures Eval(vs, env, Bin(op, left, right), st)
         == AfterValue(Eval(vs, env, left, Paid(st)), (v: Val, s: St) => if LeftAnswers(op, v) then Done(v, s) else Eval(vs, env, right, s))
  {
    hide Eval, Truthy, Falsy;
    OneStep(vs, env, Bin(op, left, right), st);
    var l := Eval(vs, env, left, Paid(st));
    if l.Done? {
      TruthyExactly(l.value);
    }
  }

  /** Every other operator has both sides evaluated, the left one first. */
  lemma OthersTakeBothSides(vs: Values, env: Env, op: BinOp, left: Expr, right: Expr, st: St)
    requires st.budget > 1 && op != And && op != Or && op != Coalesce
    ensures Eval(vs, env, Bin(op, left, right), st)
         == AfterValue(Eval(vs, env, left, Paid(st)), (l: Val, s: St) =>
              AfterValue(Eval(vs, env, right, s), (r: Val, t: St) =>
                match vs.binary(op, l, r) case Ans(v) => Done(v, t) case Refuse(code) => Halted(Refused(code), t)))
  {
    hide Eval, Truthy;
    OneStep(vs, env, Bin(op, left, right), st);
  }

  /** A name means what the script assigned last, and otherwise what it was given. */
  lemma NamesMean(vs: Values, env: Env, name: Text, st: St)
    requires st.budget > 1
    ensures Eval(vs, env, Id(name), st)
         == if name in st.local then Done(st.local[name], Paid(st))
            else if name in env then Done(env[name], Paid(st))
            else Halted(UndefinedVar(name), Paid(st))
  {
    OneStep(vs, env, Id(name), st);
  }

  // ---------------------------------------------------------------- statements

  /** The rest of a block, after a part of it that may have returned. */
  function Continued(vs: Values, env: Env, o: Out<Flow>, rest: seq<Stmt>): Out<Flow> {
    match o
    case Halted(f, s) => Halted(f, s)
    case Done(Returned(v), s) => Done(Returned(v), s)
    case Done(Next, s) => ExecBlock(vs, env, rest, s)
  }

  lemma FirstStatement(vs: Values, env: Env, s: Stmt, rest: seq<Stmt>, st: St)
    requires st.budget > 1
    ensures ExecBlock(vs, env, [s] + rest, st) == Continued(vs, env, Exec(vs, env, s, Paid(st)), rest)
  {
    hide Exec;
    assert ([s] + rest)[1..] == rest;
  }

  /** An if runs its first block unless the condition is one of the four false values, and then the second. */
  lemma IfChooses(vs: Values, env: Env, c: Expr, yes: seq<Stmt>, no: seq<Stmt>, rest: seq<Stmt>, st: St)
    requires st.budget > 1
    ensures ExecBlock(vs, env, [IfStmt(c, yes, no)] + rest, st)
         == AfterValue(Eval(vs, env, c, Paid(st)), (v: Val, s: St) =>
              Continued(vs, env, ExecBlock(vs, env, if Falsy(v) then no else yes, s), rest))
  {
    hide Eval, ExecBlock, Truthy, Falsy;
    FirstStatement(vs, env, IfStmt(c, yes, no), rest, st);
    var b := Eval(vs, env, c, Paid(st));
    if b.Done? {
      TruthyExactly(b.value);
    }
  }

  /** After an assignment the name holds the value. */
  lemma AssignmentHolds(vs: Values, env: Env, name: Text, val: Expr, rest: seq<Stmt>, st: St)
    requires st.budget > 1
    ensures ExecBlock(vs, env, [AssignStmt(name, val)] + rest, st)
         == AfterValue(Eval(vs, env, val, Paid(st)), (v: Val, s: St) => ExecBlock(vs, env, rest, s.(local := s.local[name := v])))
  {
    hide Eval, ExecBlock;
    FirstStatement(vs, env, AssignStmt(name, val), rest, st);
  }

  /** A return ends the block with its value, and an expression leaves nothing but its effects. */
  lemma ReturnEnds(vs: Values, env: Env, e: Expr, rest: seq<Stmt>, st: St)
    requires st.budget > 1
    ensures ExecBlock(vs, env, [ReturnStmt(e)] + rest, st)
         == AfterValue(Eval(vs, env, e, Paid(st)), (v: Val, s: St) => Done(Returned(v), s))
    ensures ExecBlock(vs, env, [ExprStmt(e)] + rest, st)
         == AfterValue(Eval(vs, env, e, Paid(st)), (_: Val, s: St) => ExecBlock(vs, env, rest, s))
  {
    hide Eval, ExecBlock;
    FirstStatement(vs, env, ReturnStmt(e), rest, st);
    FirstStatement(vs, env, ExprStmt(e), rest, st);
  }

  /** The result of a script: what it returns, or else the last value of `out`, or an error. */
  lemma ScriptResult(vs: Values, env: Env, body: seq<Stmt>, budget: int)
    ensures RunScript(vs, env, body, budget)
         == match ExecBlock(vs, env, body, St(map[], budget, []))
            case Halted(f, s) => Halted(f, s)
            case Done(Returned(v), s) => Done(v, s)
            case Done(Next, s) => if Other("out") in s.local then Done(s.local[Other("out")], s) else Halted(NoResult, s)
  {
    hide ExecBlock;
  }

  // ---------------------------------------------------------------- host functions

  function NameOf(h: HostFn): string {
    match h
    case HString => "string"
    case HNumber => "number"
    case HLen => "len"
    case HJoin => "join"
    case HTrim => "trim"
    case HSlice => "slice"
    case HUpper => "upper"
    case HLower => "lower"
    case HReplace => "replace"
    case HDefault => "default"
    case HHas => "has"
    case HToast => "toast"
    case HLog => "log"
  }

  /** Exactly the thirteen names are host functions. */
  lemma HostNamesExactly(fn: Text, h: HostFn)
    ensures HostOf(fn) == Some(h) <==> fn == Other(NameOf(h))
  {
  }

  /** What a computed answer leaves of the evaluation. */
  function Answered(a: Answer, st: St): Out<Val> {
    match a
    case Ans(v) => Done(v, st)
    case Refuse(code) => Halted(Refused(code), st)
  }

  /** A call reaches the host function of that name; an unknown name, or a ninth argument, ends it before any argument is evaluated. */
  lemma CallsReach(vs: Values, env: Env, fn: Text, h: HostFn, args: seq<Expr>, st: St)
    requires st.budget > 1
    ensures fn == Other(NameOf(h)) ==>
      Eval(vs, env, Call(fn, args), st)
      == if |args| > 8 then Halted(TooManyArgs, Paid(st)) else EvalHost(vs, env, h, args, Paid(st))
    ensures (forall k: HostFn :: fn != Other(NameOf(k))) ==> Eval(vs, env, Call(fn, args), st) == Halted(UnknownCall(fn), Paid(st))
  {
    hide Eval, EvalHost, HostOf, NameOf;
    OneStep(vs, env, Call(fn, args), st);
    HostNamesExactly(fn, h);
    if HostOf(fn).Some? {
      HostNamesExactly(fn, HostOf(fn).value);
    }
  }

  lemma ArgIs(vs: Values, env: Env, args: seq<Expr>, i: nat, st: St)
    ensures Arg(vs, env, args, i, st) == if i < |args| then Eval(vs, env, args[i], st) else Done(VNull, st)
  {
    hide Eval;
  }

  /** A whole number argument: null stands for the default, and a value that is no whole number is an error. */
  lemma IntArgIs(vs: Values, env: Env, args: seq<Expr>, i: nat, absent: Option<int>, st: St)
    requires i < |args|
    ensures IntArg(vs, env, args, i, absent, st)
         == AfterValue(Eval(vs, env, args[i], st), (v: Val, s: St) =>
              if v == VNull then Done(absent, s)
              else if vs.integer(v).None? then Halted(Refused(RuntimeError), s)
              else Done(vs.integer(v), s))
  {
    hide Eval, Arg;
    ArgIs(vs, env, args, i, st);
  }

  /** string, number, len, trim, upper and lower are computed from their one argument. */
  lemma OneArgument(vs: Values, env: Env, h: HostFn, a: Expr, st: St)
    requires h == HString || h == HNumber || h == HLen || h == HTrim || h == HUpper || h == HLower
    ensures EvalHost(vs, env, h, [a], st) == AfterValue(Eval(vs, env, a, st), (v: Val, s: St) => Answered(vs.host(h, [v]), s))
  {
    hide Eval, Arg;
    ArgIs(vs, env, [a], 0, st);
  }

  /** toast(x) and log(x) add the text of their argument to the notes and give null. */
  lemma NotesAreKept(vs: Values, env: Env, h: HostFn, a: Expr, st: St)
    requires h == HToast || h == HLog
    ensures EvalHost(vs, env, h, [a], st)
         == AfterValue(Eval(vs, env, a, st), (v: Val, s: St) => Done(VNull, s.(notes := s.notes + [vs.text(v)])))
  {
    hide Eval, Arg;
    ArgIs(vs, env, [a], 0, st);
  }

  /** default(a, b) is its first argument, unless that is null or the empty string; only then is the second evaluated. */
  lemma DefaultChooses(vs: Values, env: Env, a: Expr, b: Expr, st: St)
    ensures EvalHost(vs, env, HDefault, [a, b], st)
         == AfterValue(Eval(vs, env, a, st), (v: Val, s: St) => if v == VNull || v == VStr("") then Eval(vs, env, b, s) else Done(v, s))
  {
    hide Eval, Arg;
    ArgIs(vs, env, [a, b], 0, st);
    var v := Eval(vs, env, a, st);
    ArgIs(vs, env, [a, b], 1, v.st);
  }

  /** join(list, separator) evaluates the separator first. */
  lemma JoinOrder(vs: Values, env: Env, a: Expr, b: Expr, st: St)
    ensures EvalHost(vs, env, HJoin, [a, b], st)
         == AfterValue(Eval(vs, env, b, st), (sep: Val, s: St) =>
              AfterValue(Eval(vs, env, a, s), (list: Val, t: St) => Answered(vs.host(HJoin, [list, sep]), t)))
  {
    hide Eval, Arg;
    ArgIs(vs, env, [a, b], 1, st);
    ArgIs(vs, env, [a, b], 0, Eval(vs, env, b, st).st);
  }

  /** has(object, key) goes from left to right. */
  lemma HasOrder(vs: Values, env: Env, a: Expr, b: Expr, st: St)
    ensures EvalHost(vs, env, HHas, [a, b], st)
         == AfterValue(Eval(vs, env, a, st), (v: Val, s: St) =>
              AfterValue(Eval(vs, env, b, s), (w: Val, t: St) => Answered(vs.host(HHas, [v, w]), t)))
  {
    hide Eval, Arg;
    ArgIs(vs, env, [a, b], 0, st);
    ArgIs(vs, env, [a, b], 1, Eval(vs, env, a, st).st);
  }

  /** replace(text, old, new) goes from left to right. */
  lemma ReplaceOrder(vs: Values, env: Env, a: Expr, b: Expr, c: Expr, st: St)
    ensures var v := Eval(vs, env, a, st);
      var w := Eval(vs, env, b, v.st);
      var u := Eval(vs, env, c, w.st);
      EvalHost(vs, env, HReplace, [a, b, c], st)
        == if v.Halted? then v else if w.Halted? then w else if u.Halted? then u
           else Answered(vs.host(HReplace, [v.value, w.value, u.value]), u.st)
  {
    hide Eval, Arg;
    var args := [a, b, c];
    assert args[0] == a && args[1] == b && args[2] == c;
    var v := Eval(vs, env, a, st);
    var w := Eval(vs, env, b, v.st);
    ArgIs(vs, env, args, 0, st);
    ArgIs(vs, env, args, 1, v.st);
    ArgIs(vs, env, args, 2, w.st);
  }

  /** slice(x, from, to) looks at `to` only when x is a text or a list, and takes null for the start or the end. */
  lemma SliceOrder(vs: Values, env: Env, a: Expr, b: Expr, c: Expr, st: St)
    ensures var v := Eval(vs, env, a, st);
      var from := Eval(vs, env, b, v.st);
      var to := Eval(vs, env, c, from.st);
      EvalHost(vs, env, HSlice, [a, b, c], st)
        == if v.Halted? then v
           else if from.Halted? then from
           else if from.value != VNull && vs.integer(from.value).None? then Halted(Refused(RuntimeError), from.st)
           else if !v.value.VStr? && !v.value.VList? then Halted(Refused(RuntimeError), from.st)
           else if to.Halted? then to
           else if to.value != VNull && vs.integer(to.value).None? then Halted(Refused(RuntimeError), to.st)
           else Answered(vs.slice(v.value, if from.value == VNull then 0 else vs.integer(from.value).value,
                                  if to.value == VNull then None else vs.integer(to.value)), to.st)
  {
    hide Eval, Arg, IntArg;
    var args := [a, b, c];
    assert args[0] == a && args[1] == b && args[2] == c;
    var v := Eval(vs, env, a, st);
    var from := Eval(vs, env, b, v.st);
    ArgIs(vs, env, args, 0, st);
    IntArgIs(vs, env, args, 1, Some(0), v.st);
    IntArgIs(vs, env, args, 2, None, from.st);
    assert EvalHost(vs, env, HSlice, args, st) == EvalSlice(vs, env, args, st);
  }

  // ---------------------------------------------------------------- cost

  /** No branch, no short circuit and no call: every node is evaluated. */
  predicate Straight(e: Expr) {
    match e
    case Lit(_) => true
    case Id(_) => true
    case Member(obj, _) => Straight(obj)
    case Index(obj, index) => Straight(obj) && Straight(index)
    case Unary(_, oper) => Straight(oper)
    case Bin(op, left, right) => op != And && op != Or && op != Coalesce && Straight(left) && Straight(right)
    case Cond(_, _, _) => false
    case Call(_, _) => false
    case ArrayLit(items) => StraightAll(items)
    case ObjectLit(props) => StraightProps(props)
  }

  predicate StraightAll(es: seq<Expr>) {
    es == [] || (Straight(es[0]) && StraightAll(es[1..]))
  }

  predicate StraightProp(p: Prop) {
    Straight(p.val)
  }

  predicate StraightProps(ps: seq<Prop>) {
    ps == [] || (StraightProp(ps[0]) && StraightProps(ps[1..]))
  }

  /** A straight expression that is evaluated to the end costs exactly one step per node. */
  lemma {:induction false} StraightCost(vs: Values, env: Env, e: Expr, st: St)
    requires Straight(e) && Eval(vs, env, e, st).Done?
    ensures Eval(vs, env, e, st).st.budget == st.budget - Nodes(e)
    decreases e, 1
  {
    var s := Paid(st);
    match e
    case Lit(_) =>
    case Id(_) =>
    case Member(obj, _) => StraightCost(vs, env, obj, s);
    case Index(obj, index) =>
      StraightCost(vs, env, obj, s);
      StraightCost(vs, env, index, Eval(vs, env, obj, s).st);
    case Unary(_, oper) => StraightCost(vs, env, oper, s);
    case Bin(_, left, right) =>
      StraightCost(vs, env, left, s);
      StraightCost(vs, env, right, Eval(vs, env, left, s).st);
    case ArrayLit(items) => StraightCostAll(vs, env, items, s);
    case ObjectLit(props) => StraightCostProps(vs, env, props, map[], s);
  }

  lemma {:induction false} StraightCostAll(vs: Values, env: Env, es: seq<Expr>, st: St)
    requires StraightAll(es) && EvalAll(vs, env, es, st).Done?
    ensures EvalAll(vs, env, es, st).st.budget == st.budget - NodesAll(es)
    decreases es, 0
  {
    hide Eval;
    if es != [] {
      StraightCost(vs, env, es[0], st);
      StraightCostAll(vs, env, es[1..], Eval(vs, env, es[0], st).st);
    }
  }

  lemma {:induction false} StraightCostProps(vs: Values, env: Env, ps: seq<Prop>, into: map<Text, Val>, st: St)
    requires StraightProps(ps) && EvalProps(vs, env, ps, into, st).Done?
    ensures EvalProps(vs, env, ps, into, st).st.budget == st.budget - NodesProps(ps)
    decreases ps, 0
  {
    hide Eval;
    if ps != [] {
      StraightCostProp(vs, env, ps[0], st);
      var v := EvalProp(vs, env, ps[0], st);
      StraightCostProps(vs, env, ps[1..], into[ps[0].key := v.value], v.st);
    }
  }

  lemma {:induction false} StraightCostProp(vs: Values, env: Env, p: Prop, st: St)
    requires StraightProp(p) && EvalProp(vs, env, p, st).Done?
    ensures EvalProp(vs, env, p, st).st.budget == st.budget - PropNodes(p)
    decreases p, 0
  {
    StraightCost(vs, env, p.val, st);
  }

  // ---------------------------------------------------------------- literals

  /** A number, a text, true, false and null mean themselves. */
  lemma LiteralsMean(vs: Values, env: Env, st: St, n: real, raw: Text, t: Text, b: bool)
    requires st.budget > 1
    ensures Eval(vs, env, Lit(NumLit(n, raw)), st) == Done(VNum(n), Paid(st))
    ensures Eval(vs, env, Lit(StrLit(t)), st) == Done(VStr(Spell(t)), Paid(st))
    ensures Eval(vs, env, Lit(BoolLit(b)), st) == Done(VBool(b), Paid(st))
    ensures Eval(vs, env, Lit(NullLit(raw)), st) == Done(VNull, Paid(st))
  {
    hide Spell;
    OneStep(vs, env, Lit(NumLit(n, raw)), st);
    OneStep(vs, env, Lit(StrLit(t)), st);
    OneStep(vs, env, Lit(BoolLit(b)), st);
    OneStep(vs, env, Lit(NullLit(raw)), st);
  }

  /** Member, index and unary expressions hand their parts on in this order. */
  lemma PartsAreHandedOn(vs: Values, env: Env, op: UnOp, a: Expr, b: Expr, name: Text, st: St)
    requires st.budget > 1
    ensures Eval(vs, env, Member(a, name), st)
         == AfterValue(Eval(vs, env, a, Paid(st)), (v: Val, s: St) => Answered(vs.member(v, name), s))
    ensures Eval(vs, env, Unary(op, a), st)
         == AfterValue(Eval(vs, env, a, Paid(st)), (v: Val, s: St) => Answered(vs.unary(op, v), s))
    ensures Eval(vs, env, Index(a, b), st)
         == AfterValue(Eval(vs, env, a, Paid(st)), (v: Val, s: St) =>
              AfterValue(Eval(vs, env, b, s), (w: Val, t: St) => Answered(vs.index(v, w), t)))
  {
    hide Eval;
    OneStep(vs, env, Member(a, name), st);
    OneStep(vs, env, Unary(op, a), st);
    OneStep(vs, env, Index(a, b), st);
  }

  /** A list holds the values of its items in their order, evaluated from the first to the last. */
  lemma {:induction false} ListsKeepOrder(vs: Values, env: Env, es: seq<Expr>, st: St, i: nat)
    requires i < |es| && EvalAll(vs, env, es, st).Done?
    ensures |EvalAll(vs, env, es, st).value| == |es|
    ensures EvalAll(vs, env, es[..i], st).Done?
    ensures var before := EvalAll(vs, env, es[..i], st).st;
      Eval(vs, env, es[i], before).Done? && Eval(vs, env, es[i], before).value == EvalAll(vs, env, es, st).value[i]
    decreases |es|
  {
    hide Eval;
    var v := Eval(vs, env, es[0], st);
    if i == 0 {
      assert es[..0] == [];
    } else {
      ListsKeepOrder(vs, env, es[1..], v.st, i - 1);
      assert es[..i][1..] == es[1..][..i - 1] && es[..i][0] == es[0];
    }
    if |es| > 1 {
      ListsKeepOrder(vs, env, es[1..], v.st, 0);
    }
  }

  /** An object holds, for each key, the value of the last property of that name. */
  lemma {:induction false} LastPropertyWins(vs: Values, env: Env, ps: seq<Prop>, into: map<Text, Val>, last: Prop, st: St)
    requires EvalProps(vs, env, ps + [last], into, st).Done?
    ensures EvalProps(vs, env, ps, into, st).Done?
    ensures var before := EvalProps(vs, env, ps, into, st);
      var v := Eval(vs, env, last.val, before.st);
      v.Done? && EvalProps(vs, env, ps + [last], into, st) == Done(before.value[last.key := v.value], v.st)
    decreases |ps|
  {
    hide Eval;
    if ps == [] {
      assert ps + [last] == [last] && [last][1..] == [];
    } else {
      var v := EvalProp(vs, env, ps[0], st);
      assert (ps + [last])[1..] == ps[1..] + [last];
      LastPropertyWins(vs, env, ps[1..], into[ps[0].key := v.value], last, v.st);
    }
  }
}
