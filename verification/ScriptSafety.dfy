/** What can be said of a script before it runs: the steps it may take, the functions and the variables it depends on. */
module ScriptSafety {
  import opened Outcomes
  import opened Syntax
  import opened Grammar
  import opened Scripts
  import opened Evaluation

  // ---------------------------------------------------------------- names in a script

  /** The variables a tree mentions. */
  function Idents(e: Expr): set<Text> {
    match e
    case Lit(_) => {}
    case Id(name) => {name}
    case Member(obj, _) => Idents(obj)
    case Index(obj, index) => Idents(obj) + Idents(index)
    case Unary(_, oper) => Idents(oper)
    case Bin(_, l, r) => Idents(l) + Idents(r)
    case Cond(c, y, n) => Idents(c) + Idents(y) + Idents(n)
    case Call(_, args) => IdentsAll(args)
    case ArrayLit(items) => IdentsAll(items)
    case ObjectLit(props) => IdentsProps(props)
  }

  function IdentsAll(es: seq<Expr>): set<Text> {
    if es == [] then {} else Idents(es[0]) + IdentsAll(es[1..])
  }

  function IdentsProps(ps: seq<Prop>): set<Text> {
    if ps == [] then {} else IdentsProp(ps[0]) + IdentsProps(ps[1..])
  }

  function IdentsProp(p: Prop): set<Text> {
    Idents(p.val)
  }

  function StmtIdents(s: Stmt): set<Text> {
    match s
    case AssignStmt(_, val) => Idents(val)
    case IfStmt(c, y, n) => Idents(c) + BlockIdents(y) + BlockIdents(n)
    case ReturnStmt(val) => Idents(val)
    case ExprStmt(e) => Idents(e)
  }

  function BlockIdents(b: seq<Stmt>): set<Text> {
    if b == [] then {} else StmtIdents(b[0]) + BlockIdents(b[1..])
  }

  /** The functions a tree calls. */
  function Calls(e: Expr): set<Text> {
    match e
    case Lit(_) => {}
    case Id(_) => {}
    case Member(obj, _) => Calls(obj)
    case Index(obj, index) => Calls(obj) + Calls(index)
    case Unary(_, oper) => Calls(oper)
    case Bin(_, l, r) => Calls(l) + Calls(r)
    case Cond(c, y, n) => Calls(c) + Calls(y) + Calls(n)
    case Call(fn, args) => {fn} + CallsAll(args)
    case ArrayLit(items) => CallsAll(items)
    case ObjectLit(props) => CallsProps(props)
  }

  function CallsAll(es: seq<Expr>): set<Text> {
    if es == [] then {} else Calls(es[0]) + CallsAll(es[1..])
  }

  function CallsProps(ps: seq<Prop>): set<Text> {
    if ps == [] then {} else CallsProp(ps[0]) + CallsProps(ps[1..])
  }

  function CallsProp(p: Prop): set<Text> {
    Calls(p.val)
  }

  function StmtCalls(s: Stmt): set<Text> {
    match s
    case AssignStmt(_, val) => Calls(val)
    case IfStmt(c, y, n) => Calls(c) + BlockCalls(y) + BlockCalls(n)
    case ReturnStmt(val) => Calls(val)
    case ExprStmt(e) => Calls(e)
  }

  function BlockCalls(b: seq<Stmt>): set<Text> {
    if b == [] then {} else StmtCalls(b[0]) + BlockCalls(b[1..])
  }

  // ---------------------------------------------------------------- bounded steps, known calls

  /**
   * A computation from `st` that takes at most `cost` steps, runs into the step limit only if the budget did not
   * exceed that, and meets an unknown function only if it is among `calls`; notes are only added.
   */
  ghost predicate Sound<T>(r: Out<T>, st: St, cost: int, calls: set<Text>) {
    && st.budget - cost <= r.st.budget <= st.budget
    && st.notes <= r.st.notes
    && (r.Halted? && r.fault.StepLimit? ==> st.budget <= cost)
    && (r.Halted? && r.fault.UnknownCall? ==> r.fault.fn in calls && HostOf(r.fault.fn).None?)
  }

  lemma Compose<T, U>(first: Out<T>, second: Out<U>, st: St, c1: int, c2: int, k1: set<Text>, k2: set<Text>)
    requires Sound(first, st, c1, k1) && c2 >= 0
    requires first.Done? ==> Sound(second, first.st, c2, k2)
    requires first.Halted? ==> second == Out<U>.Halted(first.fault, first.st)
    ensures Sound(second, st, c1 + c2, k1 + k2)
  {
    hide HostOf;
  }

  /** What follows costs nothing. */
  lemma ComposeLast<T, U>(first: Out<T>, second: Out<U>, st: St, cost: int, calls: set<Text>)
    requires Sound(first, st, cost, calls)
    requires first.Done? ==> Sound(second, first.st, 0, {})
    requires first.Halted? ==> second == Out<U>.Halted(first.fault, first.st)
    ensures Sound(second, st, cost, calls)
  {
    hide HostOf;
  }

  lemma Widen<T>(r: Out<T>, st: St, cost: int, calls: set<Text>, cost': int, calls': set<Text>)
    requires Sound(r, st, cost, calls) && cost <= cost' && calls <= calls'
    ensures Sound(r, st, cost', calls')
  {
    hide HostOf;
  }

  lemma TickSound(st: St)
    ensures Sound(Tick(st), st, 1, {})
  {
    hide HostOf;
  }

  lemma SettleSound(a: Answer, st: St)
    ensures Sound(Evaluation.Settle(a, st), st, 0, {})
  {
    hide HostOf;
  }

  lemma DoneSound<T>(v: T, st: St)
    ensures Sound(Done(v, st), st, 0, {})
  {
    hide HostOf;
  }

  lemma {:induction false} EvalSound(vs: Values, env: Env, e: Expr, st: St)
    ensures Sound(Eval(vs, env, e, st), st, Nodes(e), Calls(e))
    decreases e, 1
  {
    hide EvalNode, Sound, Tick, Nodes, Calls;
    var t := Tick(st);
    TickSound(st);
    if t.Done? {
      NodeSound(vs, env, e, t.st);
    }
    Compose(t, Eval(vs, env, e, st), st, 1, Nodes(e) - 1, {}, Calls(e));
    Widen(Eval(vs, env, e, st), st, 1 + (Nodes(e) - 1), {} + Calls(e), Nodes(e), Calls(e));
  }

  /** Once the step of a node itself is paid for, the rest is paid for by its children. */
  lemma {:induction false} NodeSound(vs: Values, env: Env, e: Expr, st: St)
    ensures Sound(EvalNode(vs, env, e, st), st, Nodes(e) - 1, Calls(e))
    decreases e, 0
  {
    hide Eval, EvalCall, EvalAll, EvalProps, Sound, HostOf, Evaluation.Settle;
    var whole := EvalNode(vs, env, e, st);
    match e
    case Lit(l) => DoneSound(LiteralVal(l), st);
    case Id(name) => LookupSound(env, name, st);
    case Member(obj, name) =>
      EvalSound(vs, env, obj, st);
      var o := Eval(vs, env, obj, st);
      if o.Done? {
        SettleSound(vs.member(o.value, name), o.st);
      }
      ComposeLast(o, whole, st, Nodes(obj), Calls(obj));
    case Index(obj, index) =>
      EvalSound(vs, env, obj, st);
      var o := Eval(vs, env, obj, st);
      if o.Done? {
        EvalSound(vs, env, index, o.st);
        var i := Eval(vs, env, index, o.st);
        if i.Done? {
          SettleSound(vs.index(o.value, i.value), i.st);
        }
        ComposeLast(i, whole, o.st, Nodes(index), Calls(index));
      }
      Compose(o, whole, st, Nodes(obj), Nodes(index), Calls(obj), Calls(index));
    case Unary(op, oper) =>
      EvalSound(vs, env, oper, st);
      var o := Eval(vs, env, oper, st);
      if o.Done? {
        SettleSound(vs.unary(op, o.value), o.st);
      }
      ComposeLast(o, whole, st, Nodes(oper), Calls(oper));
    case Bin(op, left, right) => BinSound(vs, env, op, left, right, st);
    case Cond(c, yes, no) => CondSound(vs, env, c, yes, no, st);
    case Call(fn, args) => CallSound(vs, env, fn, args, st);
    case ArrayLit(items) =>
      AllSound(vs, env, items, st);
      var r := EvalAll(vs, env, items, st);
      if r.Done? {
        DoneSound(VList(r.value), r.st);
      }
      ComposeLast(r, whole, st, NodesAll(items), CallsAll(items));
    case ObjectLit(props) =>
      PropsSound(vs, env, props, map[], st);
      var r := EvalProps(vs, env, props, map[], st);
      if r.Done? {
        DoneSound(VObj(r.value), r.st);
      }
      ComposeLast(r, whole, st, NodesProps(props), CallsProps(props));
  }

  lemma LookupSound(env: Env, name: Text, st: St)
    ensures Sound(Lookup(env, name, st), st, 0, {})
  {
    hide HostOf;
  }

  lemma {:induction false} BinSound(vs: Values, env: Env, op: BinOp, left: Expr, right: Expr, st: St)
    ensures Sound(EvalNode(vs, env, Bin(op, left, right), st), st, Nodes(left) + Nodes(right), Calls(left) + Calls(right))
    decreases Bin(op, left, right), -1
  {
    hide Eval, Sound, Evaluation.Settle, Decides, Nodes, Calls;
    var whole := EvalNode(vs, env, Bin(op, left, right), st);
    EvalSound(vs, env, left, st);
    var l := Eval(vs, env, left, st);
    if l.Done? {
      if Decides(op, l.value) {
        DoneSound(l.value, l.st);
        Widen(whole, l.st, 0, {}, Nodes(right), Calls(right));
      } else {
        EvalSound(vs, env, right, l.st);
        var r := Eval(vs, env, right, l.st);
        if r.Done? {
          CombineSound(vs, op, l.value, r.value, r.st);
        }
        ComposeLast(r, whole, l.st, Nodes(right), Calls(right));
      }
    }
    Compose(l, whole, st, Nodes(left), Nodes(right), Calls(left), Calls(right));
  }

  lemma CombineSound(vs: Values, op: BinOp, l: Val, r: Val, st: St)
    ensures Sound(Combine(vs, op, l, r, st), st, 0, {})
  {
    hide HostOf;
  }

  lemma {:induction false} CondSound(vs: Values, env: Env, c: Expr, yes: Expr, no: Expr, st: St)
    ensures Sound(EvalNode(vs, env, Cond(c, yes, no), st), st, Nodes(c) + Nodes(yes) + Nodes(no), Calls(c) + Calls(yes) + Calls(no))
    decreases Cond(c, yes, no), -1
  {
    hide Eval, Sound, Truthy, Nodes, Calls;
    var whole := EvalNode(vs, env, Cond(c, yes, no), st);
    EvalSound(vs, env, c, st);
    var b := Eval(vs, env, c, st);
    if b.Done? {
      var branch := if Truthy(b.value) then yes else no;
      EvalSound(vs, env, branch, b.st);
      Widen(whole, b.st, Nodes(branch), Calls(branch), Nodes(yes) + Nodes(no), Calls(yes) + Calls(no));
    }
    Compose(b, whole, st, Nodes(c), Nodes(yes) + Nodes(no), Calls(c), Calls(yes) + Calls(no));
    Widen(whole, st, Nodes(c) + (Nodes(yes) + Nodes(no)), Calls(c) + (Calls(yes) + Calls(no)),
          Nodes(c) + Nodes(yes) + Nodes(no), Calls(c) + Calls(yes) + Calls(no));
  }

  lemma {:induction false} AllSound(vs: Values, env: Env, es: seq<Expr>, st: St)
    ensures Sound(EvalAll(vs, env, es, st), st, NodesAll(es), CallsAll(es))
    decreases es, 0
  {
    hide Eval, Sound, Nodes, Calls;
    var whole := EvalAll(vs, env, es, st);
    if es == [] {
      DoneSound<seq<Val>>([], st);
    } else {
      EvalSound(vs, env, es[0], st);
      var v := Eval(vs, env, es[0], st);
      if v.Done? {
        AllSound(vs, env, es[1..], v.st);
        var more := EvalAll(vs, env, es[1..], v.st);
        if more.Done? {
          DoneSound([v.value] + more.value, more.st);
        }
        ComposeLast(more, whole, v.st, NodesAll(es[1..]), CallsAll(es[1..]));
      }
      Compose(v, whole, st, Nodes(es[0]), NodesAll(es[1..]), Calls(es[0]), CallsAll(es[1..]));
    }
  }

  lemma {:induction false} PropsSound(vs: Values, env: Env, ps: seq<Prop>, into: map<Text, Val>, st: St)
    ensures Sound(EvalProps(vs, env, ps, into, st), st, NodesProps(ps), CallsProps(ps))
    decreases ps, 0
  {
    hide EvalProp, Sound, PropNodes, CallsProp;
    var whole := EvalProps(vs, env, ps, into, st);
    if ps == [] {
      DoneSound(into, st);
    } else {
      PropSound(vs, env, ps[0], st);
      var v := EvalProp(vs, env, ps[0], st);
      if v.Done? {
        PropsSound(vs, env, ps[1..], into[ps[0].key := v.value], v.st);
      }
      Compose(v, whole, st, PropNodes(ps[0]), NodesProps(ps[1..]), CallsProp(ps[0]), CallsProps(ps[1..]));
    }
  }

  lemma {:induction false} PropSound(vs: Values, env: Env, p: Prop, st: St)
    ensures Sound(EvalProp(vs, env, p, st), st, PropNodes(p), CallsProp(p))
    decreases p, 0
  {
    hide Eval, Sound, Nodes, Calls;
    EvalSound(vs, env, p.val, st);
  }

  // ---------------------------------------------------------------- host functions

  function ArgNodes(args: seq<Expr>, i: nat): nat {
    if i < |args| then Nodes(args[i]) else 0
  }

  lemma {:induction false} ArgCalls(args: seq<Expr>, i: nat)
    requires i < |args|
    ensures Calls(args[i]) <= CallsAll(args)
  {
    hide Calls;
    if i > 0 {
      ArgCalls(args[1..], i - 1);
    }
  }

  /** Three different arguments together have no more nodes than all. */
  lemma ThreeArgs(args: seq<Expr>)
    ensures ArgNodes(args, 0) + ArgNodes(args, 1) + ArgNodes(args, 2) <= NodesAll(args)
  {
    hide Nodes;
    if |args| > 0 {
      assert NodesAll(args) == Nodes(args[0]) + NodesAll(args[1..]);
      if |args| > 1 {
        assert NodesAll(args[1..]) == Nodes(args[1]) + NodesAll(args[1..][1..]);
        if |args| > 2 {
          assert NodesAll(args[1..][1..]) == Nodes(args[2]) + NodesAll(args[1..][1..][1..]);
        }
      }
    }
  }

  lemma {:induction false} ArgSound(vs: Values, env: Env, args: seq<Expr>, i: nat, st: St)
    ensures Sound(Arg(vs, env, args, i, st), st, ArgNodes(args, i), CallsAll(args))
    decreases args, 0
  {
    hide Eval, Sound, Nodes, Calls, CallsAll;
    if i >= |args| {
      DoneSound(VNull, st);
      Widen(Arg(vs, env, args, i, st), st, 0, {}, 0, CallsAll(args));
    } else {
      EvalSound(vs, env, args[i], st);
      ArgCalls(args, i);
      Widen(Arg(vs, env, args, i, st), st, Nodes(args[i]), Calls(args[i]), Nodes(args[i]), CallsAll(args));
    }
  }

  lemma {:induction false} IntArgSound(vs: Values, env: Env, args: seq<Expr>, i: nat, absent: Option<int>, st: St)
    ensures var r := IntArg(vs, env, args, i, absent, st);
            Sound(r, st, ArgNodes(args, i), CallsAll(args)) && (absent.Some? && r.Done? ==> r.value.Some?)
    decreases args, 1, 0
  {
    hide Arg, Sound, ArgNodes, CallsAll;
    var whole := IntArg(vs, env, args, i, absent, st);
    ArgSound(vs, env, args, i, st);
    var v := Arg(vs, env, args, i, st);
    if v.Done? {
      ValueSound(whole, v.st);
    }
    ComposeLast(v, whole, st, ArgNodes(args, i), CallsAll(args));
  }

  /** Working on values costs nothing and calls nothing. */
  lemma ValueSound<T>(r: Out<T>, st: St)
    requires r.Done? || r.fault.Refused?
    requires r.st == st
    ensures Sound(r, st, 0, {})
  {
    hide HostOf;
  }

  /** One more argument in front of a computation that is already known to be sound. */
  lemma {:induction false} AfterArg<T>(vs: Values, env: Env, args: seq<Expr>, i: nat, st: St, whole: Out<T>, cost: nat)
    requires var v := Arg(vs, env, args, i, st);
             if v.Done? then Sound(whole, v.st, cost, CallsAll(args)) else whole == Out<T>.Halted(v.fault, v.st)
    ensures Sound(whole, st, ArgNodes(args, i) + cost, CallsAll(args))
    decreases args, 1
  {
    hide Arg, Sound, ArgNodes, CallsAll;
    ArgSound(vs, env, args, i, st);
    var v := Arg(vs, env, args, i, st);
    Compose(v, whole, st, ArgNodes(args, i), cost, CallsAll(args), CallsAll(args));
    Widen(whole, st, ArgNodes(args, i) + cost, CallsAll(args) + CallsAll(args), ArgNodes(args, i) + cost, CallsAll(args));
  }

  lemma {:induction false} CallSound(vs: Values, env: Env, fn: Text, args: seq<Expr>, st: St)
    ensures Sound(EvalCall(vs, env, fn, args, st), st, NodesAll(args), {fn} + CallsAll(args))
    decreases args, 4
  {
    hide EvalHost, HostOf, NodesAll, CallsAll;
    if HostOf(fn).Some? && |args| <= MaxArgs {
      HostSound(vs, env, HostOf(fn).value, args, st);
    }
  }

  lemma SettledValue(a: Answer, st: St, calls: set<Text>)
    ensures Sound(Evaluation.Settle(a, st), st, 0, calls)
  {
    hide HostOf;
  }

  lemma {:induction false} HostSound(vs: Values, env: Env, h: HostFn, args: seq<Expr>, st: St)
    ensures Sound(EvalHost(vs, env, h, args, st), st, NodesAll(args), CallsAll(args))
    decreases args, 3
  {
    hide Arg, Sound, ArgNodes, NodesAll, CallsAll, EvalJoin, EvalSlice, EvalNote, Evaluation.Settle;
    ThreeArgs(args);
    var whole := EvalHost(vs, env, h, args, st);
    var all := CallsAll(args);
    var a := Arg(vs, env, args, 0, st);
    match h
    case HJoin => JoinSound(vs, env, args, st);
    case HSlice => SliceSound(vs, env, args, st);
    case HReplace =>
      if a.Done? {
        var b := Arg(vs, env, args, 1, a.st);
        if b.Done? {
          var c := Arg(vs, env, args, 2, b.st);
          if c.Done? {
            SettledValue(vs.host(h, [a.value, b.value, c.value]), c.st, all);
          }
          AfterArg(vs, env, args, 2, b.st, whole, 0);
        }
        AfterArg(vs, env, args, 1, a.st, whole, ArgNodes(args, 2));
      }
      AfterArg(vs, env, args, 0, st, whole, ArgNodes(args, 1) + ArgNodes(args, 2));
      Widen(whole, st, ArgNodes(args, 0) + (ArgNodes(args, 1) + ArgNodes(args, 2)), all, NodesAll(args), all);
    case HDefault =>
      if a.Done? {
        if a.value == VNull || a.value == VStr("") {
          ArgSound(vs, env, args, 1, a.st);
        } else {
          ValueSound(whole, a.st);
          Widen(whole, a.st, 0, {}, ArgNodes(args, 1), all);
        }
      }
      AfterArg(vs, env, args, 0, st, whole, ArgNodes(args, 1));
      Widen(whole, st, ArgNodes(args, 0) + ArgNodes(args, 1), all, NodesAll(args), all);
    case HHas =>
      if a.Done? {
        var b := Arg(vs, env, args, 1, a.st);
        if b.Done? {
          SettledValue(vs.host(h, [a.value, b.value]), b.st, all);
        }
        AfterArg(vs, env, args, 1, a.st, whole, 0);
      }
      AfterArg(vs, env, args, 0, st, whole, ArgNodes(args, 1));
      Widen(whole, st, ArgNodes(args, 0) + ArgNodes(args, 1), all, NodesAll(args), all);
    case HToast => NoteSound(vs, env, args, st);
    case HLog => NoteSound(vs, env, args, st);
    case _ =>
      if a.Done? {
        SettledValue(vs.host(h, [a.value]), a.st, all);
      }
      AfterArg(vs, env, args, 0, st, whole, 0);
      Widen(whole, st, ArgNodes(args, 0) + 0, all, NodesAll(args), all);
  }

  lemma {:induction false} JoinSound(vs: Values, env: Env, args: seq<Expr>, st: St)
    ensures Sound(EvalJoin(vs, env, args, st), st, NodesAll(args), CallsAll(args))
    decreases args, 2
  {
    hide Arg, Sound, ArgNodes, NodesAll, CallsAll, Evaluation.Settle;
    ThreeArgs(args);
    var whole := EvalJoin(vs, env, args, st);
    var all := CallsAll(args);
    if |args| > 1 {
      var sep := Arg(vs, env, args, 1, st);
      if sep.Done? {
        var items := Arg(vs, env, args, 0, sep.st);
        if items.Done? {
          SettledValue(vs.host(HJoin, [items.value, sep.value]), items.st, all);
        }
        AfterArg(vs, env, args, 0, sep.st, whole, 0);
      }
      AfterArg(vs, env, args, 1, st, whole, ArgNodes(args, 0));
      Widen(whole, st, ArgNodes(args, 1) + ArgNodes(args, 0), all, NodesAll(args), all);
    } else {
      var items := Arg(vs, env, args, 0, st);
      if items.Done? {
        SettledValue(vs.host(HJoin, [items.value]), items.st, all);
      }
      AfterArg(vs, env, args, 0, st, whole, 0);
      Widen(whole, st, ArgNodes(args, 0) + 0, all, NodesAll(args), all);
    }
  }

  lemma {:induction false} SliceSound(vs: Values, env: Env, args: seq<Expr>, st: St)
    ensures Sound(EvalSlice(vs, env, args, st), st, NodesAll(args), CallsAll(args))
    decreases args, 2
  {
    hide Arg, IntArg, Sound, ArgNodes, NodesAll, CallsAll, Evaluation.Settle;
    ThreeArgs(args);
    var whole := EvalSlice(vs, env, args, st);
    var all := CallsAll(args);
    var v := Arg(vs, env, args, 0, st);
    if v.Done? {
      IntArgSound(vs, env, args, 1, Some(0), v.st);
      var start := IntArg(vs, env, args, 1, Some(0), v.st);
      if start.Done? {
        SliceTail(vs, env, args, v.value, start, whole);
      }
      Compose(start, whole, v.st, ArgNodes(args, 1), ArgNodes(args, 2), all, all);
      Widen(whole, v.st, ArgNodes(args, 1) + ArgNodes(args, 2), all + all, ArgNodes(args, 1) + ArgNodes(args, 2), all);
    }
    AfterArg(vs, env, args, 0, st, whole, ArgNodes(args, 1) + ArgNodes(args, 2));
    Widen(whole, st, ArgNodes(args, 0) + (ArgNodes(args, 1) + ArgNodes(args, 2)), all, NodesAll(args), all);
  }

  lemma {:induction false} SliceTail(vs: Values, env: Env, args: seq<Expr>, v: Val, start: Out<Option<int>>,
                                     whole: Out<Val>)
    requires start.Done? && start.value.Some?
    requires whole ==
             if !v.VStr? && !v.VList? then Out<Val>.Halted(Refused(RuntimeError), start.st)
             else if |args| <= 2 then Evaluation.Settle(vs.slice(v, start.value.value, None), start.st)
             else
               var end :- IntArg(vs, env, args, 2, None, start.st);
               Evaluation.Settle(vs.slice(v, start.value.value, end.0), end.1)
    ensures Sound(whole, start.st, ArgNodes(args, 2), CallsAll(args))
    decreases args, 1, 1
  {
    hide IntArg, Sound, ArgNodes, CallsAll, Evaluation.Settle;
    var all := CallsAll(args);
    if !v.VStr? && !v.VList? {
      ValueSound(whole, start.st);
      Widen(whole, start.st, 0, {}, ArgNodes(args, 2), all);
    } else if |args| <= 2 {
      SettledValue(vs.slice(v, start.value.value, None), start.st, all);
      Widen(whole, start.st, 0, all, ArgNodes(args, 2), all);
    } else {
      IntArgSound(vs, env, args, 2, None, start.st);
      var end := IntArg(vs, env, args, 2, None, start.st);
      if end.Done? {
        SettledValue(vs.slice(v, start.value.value, end.value), end.st, all);
      }
      Compose(end, whole, start.st, ArgNodes(args, 2), 0, all, all);
      Widen(whole, start.st, ArgNodes(args, 2) + 0, all + all, ArgNodes(args, 2), all);
    }
  }

  lemma {:induction false} NoteSound(vs: Values, env: Env, args: seq<Expr>, st: St)
    ensures Sound(EvalNote(vs, env, args, st), st, NodesAll(args), CallsAll(args))
    decreases args, 2
  {
    hide Arg, ArgNodes, NodesAll, CallsAll, HostOf;
    ThreeArgs(args);
    var whole := EvalNote(vs, env, args, st);
    var all := CallsAll(args);
    AfterArg(vs, env, args, 0, st, whole, 0);
    Widen(whole, st, ArgNodes(args, 0) + 0, all, NodesAll(args), all);
  }

  // ---------------------------------------------------------------- statements and whole scripts

  lemma {:induction false} ExecSound(vs: Values, env: Env, s: Stmt, st: St)
    ensures Sound(Exec(vs, env, s, st), st, StmtNodes(s) - 1, StmtCalls(s))
    decreases s, 0
  {
    hide Eval, ExecBlock, Sound, Truthy, Nodes, Calls, BlockNodes, BlockCalls;
    var whole := Exec(vs, env, s, st);
    match s
    case AssignStmt(name, val) =>
      EvalSound(vs, env, val, st);
      AssignSound(Eval(vs, env, val, st), whole, st, name, Nodes(val), Calls(val));
    case IfStmt(c, yes, no) =>
      EvalSound(vs, env, c, st);
      var b := Eval(vs, env, c, st);
      var cost, calls := BlockNodes(yes) + BlockNodes(no), BlockCalls(yes) + BlockCalls(no);
      if b.Done? {
        if Truthy(b.value) {
          BlockSound(vs, env, yes, b.st);
          Widen(whole, b.st, BlockNodes(yes), BlockCalls(yes), cost, calls);
        } else {
          BlockSound(vs, env, no, b.st);
          Widen(whole, b.st, BlockNodes(no), BlockCalls(no), cost, calls);
        }
      }
      Compose(b, whole, st, Nodes(c), cost, Calls(c), calls);
      Widen(whole, st, Nodes(c) + cost, Calls(c) + calls, StmtNodes(s) - 1, StmtCalls(s));
    case ReturnStmt(val) =>
      EvalSound(vs, env, val, st);
      var v := Eval(vs, env, val, st);
      if v.Done? {
        DoneSound(Returned(v.value), v.st);
      }
      ComposeLast(v, whole, st, Nodes(val), Calls(val));
    case ExprStmt(e) =>
      EvalSound(vs, env, e, st);
      var v := Eval(vs, env, e, st);
      if v.Done? {
        DoneSound(Next, v.st);
      }
      ComposeLast(v, whole, st, Nodes(e), Calls(e));
  }

  lemma AssignSound(v: Out<Val>, whole: Out<Flow>, st: St, name: Text, cost: int, calls: set<Text>)
    requires Sound(v, st, cost, calls)
    requires whole == match v
                      case Done(x, s) => Done(Next, s.(local := s.local[name := x]))
                      case Halted(f, s) => Out<Flow>.Halted(f, s)
    ensures Sound(whole, st, cost, calls)
  {
    hide HostOf;
  }

  lemma {:induction false} BlockSound(vs: Values, env: Env, b: seq<Stmt>, st: St)
    ensures Sound(ExecBlock(vs, env, b, st), st, BlockNodes(b), BlockCalls(b))
    decreases b, 0
  {
    hide Exec, Sound, Tick, StmtNodes, StmtCalls;
    var whole := ExecBlock(vs, env, b, st);
    if b == [] {
      DoneSound(Next, st);
    } else {
      var t := Tick(st);
      var rest, calls := BlockNodes(b[1..]), BlockCalls(b[1..]);
      TickSound(st);
      if t.Done? {
        ExecSound(vs, env, b[0], t.st);
        var f := Exec(vs, env, b[0], t.st);
        if f.Done? {
          if f.value.Returned? {
            DoneSound(f.value, f.st);
            Widen(whole, f.st, 0, {}, rest, calls);
          } else {
            BlockSound(vs, env, b[1..], f.st);
          }
        }
        Compose(f, whole, t.st, StmtNodes(b[0]) - 1, rest, StmtCalls(b[0]), calls);
      }
      Compose(t, whole, st, 1, StmtNodes(b[0]) - 1 + rest, {}, StmtCalls(b[0]) + calls);
      Widen(whole, st, 1 + (StmtNodes(b[0]) - 1 + rest), {} + (StmtCalls(b[0]) + calls), BlockNodes(b), BlockCalls(b));
    }
  }

  /** A script spends at most one step per tree node, and refuses a call only if the script names an unknown function. */
  lemma ScriptIsSound(vs: Values, env: Env, body: seq<Stmt>, budget: int)
    ensures Sound(RunScript(vs, env, body, budget), St(map[], budget, []), BlockNodes(body), BlockCalls(body))
  {
    hide ExecBlock, HostOf, BlockNodes, BlockCalls;
    BlockSound(vs, env, body, St(map[], budget, []));
  }

  /** The calls of a script that no host function answers. */
  ghost function UnknownCalls(body: seq<Stmt>): set<Text> {
    set fn | fn in BlockCalls(body) && HostOf(fn).None?
  }

  /** A script whose calls are all host functions never fails on an unknown function. */
  lemma KnownCallsAreAnswered(vs: Values, env: Env, body: seq<Stmt>, budget: int)
    ensures var r := RunScript(vs, env, body, budget);
            r.Halted? && r.fault.UnknownCall? ==> r.fault.fn in UnknownCalls(body)
    ensures UnknownCalls(body) == {} ==> !(RunScript(vs, env, body, budget).Halted? && RunScript(vs, env, body, budget).fault.UnknownCall?)
  {
    hide RunScript, HostOf, BlockCalls;
    ScriptIsSound(vs, env, body, budget);
  }

  /** A script read from t tokens spends fewer than 2t steps, so with a budget of 2t or more it never meets the step limit. */
  lemma StepsFollowTokens(ts: seq<Token>, vs: Values, env: Env, budget: int)
    requires Lexed(ts) && ParseScript(ts).Got?
    ensures var r := RunScript(vs, env, ParseScript(ts).value, budget);
            && budget - r.st.budget < 2 * |ts|
            && (budget >= 2 * |ts| ==> !(r.Halted? && r.fault.StepLimit?))
  {
    hide RunScript, HostOf, BlockNodes, BlockCalls;
    ScriptIsSound(vs, env, ParseScript(ts).value, budget);
  }
}
