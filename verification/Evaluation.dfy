/** The meaning of scripts: evaluation with a step budget, host functions and notes. */
module Evaluation {
  import opened Outcomes
  import opened Syntax
  import opened Grammar

  /** The values of a script; `VHost` is any other value the host puts in the environment. */
  datatype Val =
    | VNull
    | VBool(b: bool)
    | VNum(n: real)
    | VStr(s: string)
    | VList(items: seq<Val>)
    | VObj(props: map<Text, Val>)
    | VHost(tag: nat)

  datatype Answer = Ans(v: Val) | Refuse(code: ErrCode)

  datatype HostFn =
    | HString | HNumber | HLen | HJoin | HTrim | HSlice | HUpper | HLower | HReplace | HDefault | HHas | HToast | HLog

  /** What operators and host functions compute from values; none of them sees the script or its variables. */
  datatype Values = Values(
    text: Val -> string,
    integer: Val -> Option<int>,
    unary: (UnOp, Val) -> Answer,
    binary: (BinOp, Val, Val) -> Answer,
    member: (Val, Text) -> Answer,
    index: (Val, Val) -> Answer,
    slice: (Val, int, Option<int>) -> Answer,
    host: (HostFn, seq<Val>) -> Answer)

  /** Why a script stops early. */
  datatype Fault =
    | StepLimit
    | UnknownCall(fn: Text)
    | TooManyArgs
    | UndefinedVar(name: Text)
    | NoResult
    | Refused(code: ErrCode)

  type Env = map<Text, Val>

  datatype St = St(local: Env, budget: int, notes: seq<string>)

  datatype Out<+T> = Done(value: T, st: St) | Halted(fault: Fault, st: St) {
    predicate IsFailure() {
      Halted?
    }

    function PropagateFailure<U>(): Out<U>
      requires Halted?
    {
      Halted(fault, st)
    }

    function Extract(): (T, St)
      requires Done?
    {
      (value, st)
    }
  }

  const MaxArgs := 8

  /** The host functions by name; every other call is refused. */
  function HostOf(fn: Text): Option<HostFn> {
    if !fn.Other? then None
    else if fn.s == "string" then Some(HString)
    else if fn.s == "number" then Some(HNumber)
    else if fn.s == "len" then Some(HLen)
    else if fn.s == "join" then Some(HJoin)
    else if fn.s == "trim" then Some(HTrim)
    else if fn.s == "slice" then Some(HSlice)
    else if fn.s == "upper" then Some(HUpper)
    else if fn.s == "lower" then Some(HLower)
    else if fn.s == "replace" then Some(HReplace)
    else if fn.s == "default" then Some(HDefault)
    else if fn.s == "has" then Some(HHas)
    else if fn.s == "toast" then Some(HToast)
    else if fn.s == "log" then Some(HLog)
    else None
  }

  predicate Truthy(v: Val) {
    match v
    case VNull => false
    case VBool(b) => b
    case VNum(n) => n != 0.0
    case VStr(s) => s != ""
    case _ => true
  }

  function Settle(a: Answer, st: St): Out<Val> {
    match a
    case Ans(v) => Done(v, st)
    case Refuse(code) => Halted(Refused(code), st)
  }

  /** Every statement and every node of an expression costs one step. */
  function Tick(st: St): Out<()> {
    var s := st.(budget := st.budget - 1);
    if s.budget <= 0 then Halted(StepLimit, s) else Done((), s)
  }

  function LiteralVal(l: Literal): Val {
    match l
    case NumLit(n, _) => VNum(n)
    case StrLit(t) => VStr(Spell(t))
    case BoolLit(b) => VBool(b)
    case NullLit(_) => VNull
  }

  function Lookup(env: Env, name: Text, st: St): Out<Val> {
    if name in st.local then Done(st.local[name], st)
    else if name in env then Done(env[name], st)
    else Halted(UndefinedVar(name), st)
  }

  function Eval(vs: Values, env: Env, e: Expr, st: St): Out<Val>
    decreases e, 1
  {
    var t :- Tick(st);
    EvalNode(vs, env, e, t.1)
  }

  /** A node whose own step is paid for. */
  function EvalNode(vs: Values, env: Env, e: Expr, st: St): Out<Val>
    decreases e, 0
  {
    match e
    case Lit(l) => Done(LiteralVal(l), st)
    case Id(name) => Lookup(env, name, st)
    case Member(obj, name) =>
      var o :- Eval(vs, env, obj, st);
      Settle(vs.member(o.0, name), o.1)
    case Index(obj, index) =>
      var o :- Eval(vs, env, obj, st);
      var i :- Eval(vs, env, index, o.1);
      Settle(vs.index(o.0, i.0), i.1)
    case Unary(op, oper) =>
      var o :- Eval(vs, env, oper, st);
      Settle(vs.unary(op, o.0), o.1)
    case Bin(op, left, right) =>
      var l :- Eval(vs, env, left, st);
      if Decides(op, l.0) then Done(l.0, l.1)
      else
        var r :- Eval(vs, env, right, l.1);
        Combine(vs, op, l.0, r.0, r.1)
    case Cond(c, yes, no) =>
      var b :- Eval(vs, env, c, st);
      if Truthy(b.0) then Eval(vs, env, yes, b.1) else Eval(vs, env, no, b.1)
    case Call(fn, args) => EvalCall(vs, env, fn, args, st)
    case ArrayLit(items) =>
      var r :- EvalAll(vs, env, items, st);
      Done(VList(r.0), r.1)
    case ObjectLit(props) =>
      var r :- EvalProps(vs, env, props, map[], st);
      Done(VObj(r.0), r.1)
  }

  /** The value of an operator once both sides are known; the short-circuit operators give their right side. */
  function Combine(vs: Values, op: BinOp, l: Val, r: Val, st: St): Out<Val> {
    if op.And? || op.Or? || op.Coalesce? then Done(r, st) else Settle(vs.binary(op, l, r), st)
  }

  /** Whether the left operand alone is the answer. */
  predicate Decides(op: BinOp, l: Val) {
    match op
    case And => !Truthy(l)
    case Or => Truthy(l)
    case Coalesce => l != VNull
    case _ => false
  }

  function EvalAll(vs: Values, env: Env, es: seq<Expr>, st: St): Out<seq<Val>>
    decreases es, 0
  {
    if es == [] then Done([], st)
    else
      var v :- Eval(vs, env, es[0], st);
      var more :- EvalAll(vs, env, es[1..], v.1);
      Done([v.0] + more.0, more.1)
  }

  function EvalProps(vs: Values, env: Env, ps: seq<Prop>, into: map<Text, Val>, st: St): Out<map<Text, Val>>
    decreases ps, 0
  {
    if ps == [] then Done(into, st)
    else
      var v :- EvalProp(vs, env, ps[0], st);
      EvalProps(vs, env, ps[1..], into[ps[0].key := v.0], v.1)
  }

  function EvalProp(vs: Values, env: Env, p: Prop, st: St): Out<Val>
    decreases p, 0
  {
    Eval(vs, env, p.val, st)
  }

  // ---------------------------------------------------------------- host functions

  /** An argument; a missing one is null and costs nothing. */
  function Arg(vs: Values, env: Env, args: seq<Expr>, i: nat, st: St): Out<Val>
    decreases args, 0
  {
    if i >= |args| then Done(VNull, st) else Eval(vs, env, args[i], st)
  }

  function IntArg(vs: Values, env: Env, args: seq<Expr>, i: nat, absent: Option<int>, st: St): Out<Option<int>>
    decreases args, 1
  {
    var v :- Arg(vs, env, args, i, st);
    if v.0 == VNull then Done(absent, v.1)
    else if vs.integer(v.0).None? then Halted(Refused(RuntimeError), v.1)
    else Done(vs.integer(v.0), v.1)
  }

  function EvalCall(vs: Values, env: Env, fn: Text, args: seq<Expr>, st: St): Out<Val>
    decreases args, 4
  {
    if HostOf(fn).None? then Halted(UnknownCall(fn), st)
    else if |args| > MaxArgs then Halted(TooManyArgs, st)
    else EvalHost(vs, env, HostOf(fn).value, args, st)
  }

  /** Each host function evaluates the arguments it needs, in its own order, each at most once. */
  function EvalHost(vs: Values, env: Env, h: HostFn, args: seq<Expr>, st: St): Out<Val>
    decreases args, 3
  {
    match h
    case HJoin => EvalJoin(vs, env, args, st)
    case HSlice => EvalSlice(vs, env, args, st)
    case HReplace =>
      var a :- Arg(vs, env, args, 0, st);
      var b :- Arg(vs, env, args, 1, a.1);
      var c :- Arg(vs, env, args, 2, b.1);
      Settle(vs.host(h, [a.0, b.0, c.0]), c.1)
    case HDefault =>
      var a :- Arg(vs, env, args, 0, st);
      if a.0 == VNull || a.0 == VStr("") then Arg(vs, env, args, 1, a.1) else Done(a.0, a.1)
    case HHas =>
      var a :- Arg(vs, env, args, 0, st);
      var b :- Arg(vs, env, args, 1, a.1);
      Settle(vs.host(h, [a.0, b.0]), b.1)
    case HToast => EvalNote(vs, env, args, st)
    case HLog => EvalNote(vs, env, args, st)
    case _ =>
      var a :- Arg(vs, env, args, 0, st);
      Settle(vs.host(h, [a.0]), a.1)
  }

  /** The separator comes second but is evaluated first. */
  function EvalJoin(vs: Values, env: Env, args: seq<Expr>, st: St): Out<Val>
    decreases args, 1
  {
    if |args| > 1 then
      var sep :- Arg(vs, env, args, 1, st);
      var items :- Arg(vs, env, args, 0, sep.1);
      Settle(vs.host(HJoin, [items.0, sep.0]), items.1)
    else
      var items :- Arg(vs, env, args, 0, st);
      Settle(vs.host(HJoin, [items.0]), items.1)
  }

  /** The end of the range is evaluated only for strings and arrays. */
  function EvalSlice(vs: Values, env: Env, args: seq<Expr>, st: St): Out<Val>
    decreases args, 2
  {
    var v :- Arg(vs, env, args, 0, st);
    var start :- IntArg(vs, env, args, 1, Some(0), v.1);
    if !v.0.VStr? && !v.0.VList? then Halted(Refused(RuntimeError), start.1)
    else if |args| <= 2 then Settle(vs.slice(v.0, start.0.value, None), start.1)
    else
      var end :- IntArg(vs, env, args, 2, None, start.1);
      Settle(vs.slice(v.0, start.0.value, end.0), end.1)
  }

  function EvalNote(vs: Values, env: Env, args: seq<Expr>, st: St): Out<Val>
    decreases args, 1
  {
    var v :- Arg(vs, env, args, 0, st);
    Done(VNull, v.1.(notes := v.1.notes + [vs.text(v.0)]))
  }

  // ---------------------------------------------------------------- statements

  datatype Flow = Next | Returned(v: Val)

  function Exec(vs: Values, env: Env, s: Stmt, st: St): Out<Flow>
    decreases s, 0
  {
    match s
    case AssignStmt(name, val) =>
      var v :- Eval(vs, env, val, st);
      Done(Next, v.1.(local := v.1.local[name := v.0]))
    case IfStmt(c, yes, no) =>
      var b :- Eval(vs, env, c, st);
      if Truthy(b.0) then ExecBlock(vs, env, yes, b.1) else ExecBlock(vs, env, no, b.1)
    case ReturnStmt(val) =>
      var v :- Eval(vs, env, val, st);
      Done(Returned(v.0), v.1)
    case ExprStmt(e) =>
      var v :- Eval(vs, env, e, st);
      Done(Next, v.1)
  }

  function ExecBlock(vs: Values, env: Env, b: seq<Stmt>, st: St): Out<Flow>
    decreases b, 0
  {
    if b == [] then Done(Next, st)
    else
      var t :- Tick(st);
      var f :- Exec(vs, env, b[0], t.1);
      if f.0.Returned? then Done(f.0, f.1) else ExecBlock(vs, env, b[1..], f.1)
  }

  const OutName := Other("out")

  /** Runs a script: its result is what it returns, or else its variable `out`. */
  function RunScript(vs: Values, env: Env, body: seq<Stmt>, budget: int): Out<Val> {
    var f :- ExecBlock(vs, env, body, St(map[], budget, []));
    match f.0
    case Returned(v) => Done(v, f.1)
    case Next => if OutName in f.1.local then Done(f.1.local[OutName], f.1) else Halted(NoResult, f.1)
  }
}
