/** A script depends on its free variables and nothing else; a larger budget changes nothing once it is enough. */
module Noninterference {
  import opened Outcomes
  import opened Syntax
  import opened Evaluation
  import opened ScriptSafety

  /** Two environments give some names the same meaning. */
  ghost predicate Agree(a: Env, b: Env, names: set<Text>) {
    forall n :: n in names ==> (n in a <==> n in b) && (n in a ==> a[n] == b[n])
  }

  function Up(st: St, k: int): St {
    st.(budget := st.budget + k)
  }

  function UpOut<T>(r: Out<T>, k: int): Out<T> {
    match r
    case Done(v, st) => Done(v, Up(st, k))
    case Halted(f, st) => Halted(f, Up(st, k))
  }

  /** With `k` more steps to spend the outcome is the same, `k` steps being left over; unless the smaller budget ran out. */
  ghost predicate Same<T>(r: Out<T>, s: Out<T>, k: nat) {
    (k == 0 || !(r.Halted? && r.fault.StepLimit?)) ==> s == UpOut(r, k)
  }

  lemma TickSame(st: St, k: nat)
    ensures Same(Tick(st), Tick(Up(st, k)), k)
  {
  }

  lemma SettleSame(a: Answer, st: St, k: nat)
    ensures Same(Evaluation.Settle(a, st), Evaluation.Settle(a, Up(st, k)), k)
  {
  }

  lemma CombineSame(vs: Values, op: BinOp, l: Val, r: Val, st: St, k: nat)
    ensures Same(Combine(vs, op, l, r, st), Combine(vs, op, l, r, Up(st, k)), k)
  {
  }

  lemma LookupSame(a: Env, b: Env, names: set<Text>, n: Text, st: St, k: nat)
    requires Agree(a, b, names) && n in names
    ensures Same(Lookup(a, n, st), Lookup(b, n, Up(st, k)), k)
  {
  }

  lemma {:induction false} EvalSame(vs: Values, a: Env, b: Env, names: set<Text>, k: nat, e: Expr, st: St)
    requires Agree(a, b, names) && Idents(e) <= names
    ensures Same(Eval(vs, a, e, st), Eval(vs, b, e, Up(st, k)), k)
    decreases e, 1
  {
    hide EvalNode, Tick, Agree, Idents;
    TickSame(st, k);
    if Tick(st).Done? {
      NodeSame(vs, a, b, names, k, e, Tick(st).st);
    }
  }

  lemma {:induction false} NodeSame(vs: Values, a: Env, b: Env, names: set<Text>, k: nat, e: Expr, st: St)
    requires Agree(a, b, names) && Idents(e) <= names
    ensures Same(EvalNode(vs, a, e, st), EvalNode(vs, b, e, Up(st, k)), k)
    decreases e, 0
  {
    hide Eval, EvalCall, EvalAll, EvalProps, Evaluation.Settle, Agree, Lookup, Combine, Decides, Truthy, LiteralVal;
    match e
    case Lit(l) =>
    case Id(name) => LookupSame(a, b, names, name, st, k);
    case Member(obj, name) =>
      EvalSame(vs, a, b, names, k, obj, st);
      var o := Eval(vs, a, obj, st);
      if o.Done? {
        SettleSame(vs.member(o.value, name), o.st, k);
      }
    case Index(obj, index) =>
      EvalSame(vs, a, b, names, k, obj, st);
      var o := Eval(vs, a, obj, st);
      if o.Done? {
        EvalSame(vs, a, b, names, k, index, o.st);
        var i := Eval(vs, a, index, o.st);
        if i.Done? {
          SettleSame(vs.index(o.value, i.value), i.st, k);
        }
      }
    case Unary(op, oper) =>
      EvalSame(vs, a, b, names, k, oper, st);
      var o := Eval(vs, a, oper, st);
      if o.Done? {
        SettleSame(vs.unary(op, o.value), o.st, k);
      }
    case Bin(op, left, right) =>
      EvalSame(vs, a, b, names, k, left, st);
      var l := Eval(vs, a, left, st);
      if l.Done? && !Decides(op, l.value) {
        EvalSame(vs, a, b, names, k, right, l.st);
        var r := Eval(vs, a, right, l.st);
        if r.Done? {
          CombineSame(vs, op, l.value, r.value, r.st, k);
        }
      }
    case Cond(c, yes, no) =>
      EvalSame(vs, a, b, names, k, c, st);
      var t := Eval(vs, a, c, st);
      if t.Done? {
        EvalSame(vs, a, b, names, k, if Truthy(t.value) then yes else no, t.st);
      }
    case Call(fn, args) => CallSame(vs, a, b, names, k, fn, args, st);
    case ArrayLit(items) => AllSame(vs, a, b, names, k, items, st);
    case ObjectLit(props) => PropsSame(vs, a, b, names, k, props, map[], st);
  }

  lemma {:induction false} AllSame(vs: Values, a: Env, b: Env, names: set<Text>, k: nat, es: seq<Expr>, st: St)
    requires Agree(a, b, names) && IdentsAll(es) <= names
    ensures Same(EvalAll(vs, a, es, st), EvalAll(vs, b, es, Up(st, k)), k)
    decreases es, 0
  {
    hide Eval, Agree, Idents;
    if es != [] {
      EvalSame(vs, a, b, names, k, es[0], st);
      var v := Eval(vs, a, es[0], st);
      if v.Done? {
        AllSame(vs, a, b, names, k, es[1..], v.st);
      }
    }
  }

  lemma {:induction false} PropsSame(vs: Values, a: Env, b: Env, names: set<Text>, k: nat, ps: seq<Prop>,
                                     into: map<Text, Val>, st: St)
    requires Agree(a, b, names) && IdentsProps(ps) <= names
    ensures Same(EvalProps(vs, a, ps, into, st), EvalProps(vs, b, ps, into, Up(st, k)), k)
    decreases ps, 0
  {
    hide EvalProp, Agree, IdentsProp;
    if ps != [] {
      PropSame(vs, a, b, names, k, ps[0], st);
      var v := EvalProp(vs, a, ps[0], st);
      if v.Done? {
        PropsSame(vs, a, b, names, k, ps[1..], into[ps[0].key := v.value], v.st);
      }
    }
  }

  lemma {:induction false} PropSame(vs: Values, a: Env, b: Env, names: set<Text>, k: nat, p: Prop, st: St)
    requires Agree(a, b, names) && IdentsProp(p) <= names
    ensures Same(EvalProp(vs, a, p, st), EvalProp(vs, b, p, Up(st, k)), k)
    decreases p, 0
  {
    hide Eval, Agree, Idents;
    EvalSame(vs, a, b, names, k, p.val, st);
  }

  // ---------------------------------------------------------------- host functions

  lemma {:induction false} ArgIdents(args: seq<Expr>, i: nat)
    requires i < |args|
    ensures Idents(args[i]) <= IdentsAll(args)
  {
    hide Idents;
    if i > 0 {
      ArgIdents(args[1..], i - 1);
    }
  }

  lemma {:induction false} ArgSame(vs: Values, a: Env, b: Env, names: set<Text>, k: nat, args: seq<Expr>, i: nat,
                                   st: St)
    requires Agree(a, b, names) && IdentsAll(args) <= names
    ensures Same(Arg(vs, a, args, i, st), Arg(vs, b, args, i, Up(st, k)), k)
    decreases args, 0
  {
    hide Eval, Agree, Idents, IdentsAll;
    if i < |args| {
      ArgIdents(args, i);
      EvalSame(vs, a, b, names, k, args[i], st);
    }
  }

  lemma {:induction false} IntArgSame(vs: Values, a: Env, b: Env, names: set<Text>, k: nat, args: seq<Expr>,
                                      i: nat, absent: Option<int>, st: St)
    requires Agree(a, b, names) && IdentsAll(args) <= names
    ensures Same(IntArg(vs, a, args, i, absent, st), IntArg(vs, b, args, i, absent, Up(st, k)), k)
    decreases args, 1
  {
    hide Arg, Agree, IdentsAll;
    ArgSame(vs, a, b, names, k, args, i, st);
  }

  lemma {:induction false} CallSame(vs: Values, a: Env, b: Env, names: set<Text>, k: nat, fn: Text,
                                    args: seq<Expr>, st: St)
    requires Agree(a, b, names) && IdentsAll(args) <= names
    ensures Same(EvalCall(vs, a, fn, args, st), EvalCall(vs, b, fn, args, Up(st, k)), k)
    decreases args, 4
  {
    hide EvalHost, HostOf, Agree, IdentsAll;
    if HostOf(fn).Some? && |args| <= MaxArgs {
      HostSame(vs, a, b, names, k, HostOf(fn).value, args, st);
    }
  }

  lemma {:induction false} HostSame(vs: Values, a: Env, b: Env, names: set<Text>, k: nat, h: HostFn,
                                    args: seq<Expr>, st: St)
    requires Agree(a, b, names) && IdentsAll(args) <= names
    ensures Same(EvalHost(vs, a, h, args, st), EvalHost(vs, b, h, args, Up(st, k)), k)
    decreases args, 3
  {
    hide Arg, EvalJoin, EvalSlice, EvalNote, Evaluation.Settle, Agree, IdentsAll;
    ArgSame(vs, a, b, names, k, args, 0, st);
    var x := Arg(vs, a, args, 0, st);
    match h
    case HJoin => JoinSame(vs, a, b, names, k, args, st);
    case HSlice => SliceSame(vs, a, b, names, k, args, st);
    case HReplace =>
      if x.Done? {
        ArgSame(vs, a, b, names, k, args, 1, x.st);
        var y := Arg(vs, a, args, 1, x.st);
        if y.Done? {
          ArgSame(vs, a, b, names, k, args, 2, y.st);
          var z := Arg(vs, a, args, 2, y.st);
          if z.Done? {
            SettleSame(vs.host(h, [x.value, y.value, z.value]), z.st, k);
          }
        }
      }
    case HDefault =>
      if x.Done? {
        ArgSame(vs, a, b, names, k, args, 1, x.st);
      }
    case HHas =>
      if x.Done? {
        ArgSame(vs, a, b, names, k, args, 1, x.st);
        var y := Arg(vs, a, args, 1, x.st);
        if y.Done? {
          SettleSame(vs.host(h, [x.value, y.value]), y.st, k);
        }
      }
    case HToast => NoteSame(vs, a, b, names, k, args, st);
    case HLog => NoteSame(vs, a, b, names, k, args, st);
    case _ =>
      if x.Done? {
        SettleSame(vs.host(h, [x.value]), x.st, k);
      }
  }

  lemma {:induction false} JoinSame(vs: Values, a: Env, b: Env, names: set<Text>, k: nat, args: seq<Expr>, st: St)
    requires Agree(a, b, names) && IdentsAll(args) <= names
    ensures Same(EvalJoin(vs, a, args, st), EvalJoin(vs, b, args, Up(st, k)), k)
    decreases args, 2
  {
    hide Arg, Evaluation.Settle, Agree, IdentsAll;
    if |args| > 1 {
      ArgSame(vs, a, b, names, k, args, 1, st);
      var sep := Arg(vs, a, args, 1, st);
      if sep.Done? {
        ArgSame(vs, a, b, names, k, args, 0, sep.st);
        var items := Arg(vs, a, args, 0, sep.st);
        if items.Done? {
          SettleSame(vs.host(HJoin, [items.value, sep.value]), items.st, k);
        }
      }
    } else {
      ArgSame(vs, a, b, names, k, args, 0, st);
      var items := Arg(vs, a, args, 0, st);
      if items.Done? {
        SettleSame(vs.host(HJoin, [items.value]), items.st, k);
      }
    }
  }

  lemma {:induction false} SliceSame(vs: Values, a: Env, b: Env, names: set<Text>, k: nat, args: seq<Expr>, st: St)
    requires Agree(a, b, names) && IdentsAll(args) <= names
    ensures Same(EvalSlice(vs, a, args, st), EvalSlice(vs, b, args, Up(st, k)), k)
    decreases args, 2
  {
    hide Arg, IntArg, Evaluation.Settle, Agree, IdentsAll;
    ArgSame(vs, a, b, names, k, args, 0, st);
    var v := Arg(vs, a, args, 0, st);
    if v.Done? {
      IntArgSame(vs, a, b, names, k, args, 1, Some(0), v.st);
      IntArgSound(vs, a, args, 1, Some(0), v.st);
      var start := IntArg(vs, a, args, 1, Some(0), v.st);
      if start.Done? && (v.value.VStr? || v.value.VList?) {
        if |args| <= 2 {
          SettleSame(vs.slice(v.value, start.value.value, None), start.st, k);
        } else {
          IntArgSame(vs, a, b, names, k, args, 2, None, start.st);
          var end := IntArg(vs, a, args, 2, None, start.st);
          if end.Done? {
            SettleSame(vs.slice(v.value, start.value.value, end.value), end.st, k);
          }
        }
      }
    }
  }

  lemma {:induction false} NoteSame(vs: Values, a: Env, b: Env, names: set<Text>, k: nat, args: seq<Expr>, st: St)
    requires Agree(a, b, names) && IdentsAll(args) <= names
    ensures Same(EvalNote(vs, a, args, st), EvalNote(vs, b, args, Up(st, k)), k)
    decreases args, 2
  {
    hide Arg, Agree, IdentsAll;
    ArgSame(vs, a, b, names, k, args, 0, st);
  }

  // ---------------------------------------------------------------- statements and whole scripts

  lemma {:induction false} ExecSame(vs: Values, a: Env, b: Env, names: set<Text>, k: nat, s: Stmt, st: St)
    requires Agree(a, b, names) && StmtIdents(s) <= names
    ensures Same(Exec(vs, a, s, st), Exec(vs, b, s, Up(st, k)), k)
    decreases s, 0
  {
    hide Eval, ExecBlock, Truthy, Agree, Idents, BlockIdents;
    match s
    case AssignStmt(name, val) => EvalSame(vs, a, b, names, k, val, st);
    case IfStmt(c, yes, no) =>
      EvalSame(vs, a, b, names, k, c, st);
      var t := Eval(vs, a, c, st);
      if t.Done? {
        if Truthy(t.value) {
          BlockSame(vs, a, b, names, k, yes, t.st);
        } else {
          BlockSame(vs, a, b, names, k, no, t.st);
        }
      }
    case ReturnStmt(val) => EvalSame(vs, a, b, names, k, val, st);
    case ExprStmt(e) => EvalSame(vs, a, b, names, k, e, st);
  }

  lemma {:induction false} BlockSame(vs: Values, a: Env, b: Env, names: set<Text>, k: nat, block: seq<Stmt>, st: St)
    requires Agree(a, b, names) && BlockIdents(block) <= names
    ensures Same(ExecBlock(vs, a, block, st), ExecBlock(vs, b, block, Up(st, k)), k)
    decreases block, 0
  {
    hide Exec, Tick, Agree, StmtIdents;
    if block != [] {
      TickSame(st, k);
      var t := Tick(st);
      if t.Done? {
        ExecSame(vs, a, b, names, k, block[0], t.st);
        var f := Exec(vs, a, block[0], t.st);
        if f.Done? {
          BlockSame(vs, a, b, names, k, block[1..], f.st);
        }
      }
    }
  }

  /** The outcome of a script, its value, notes, remaining budget or error, depends only on its free variables. */
  lemma OnlyFreeVariablesMatter(vs: Values, a: Env, b: Env, body: seq<Stmt>, budget: int)
    requires Agree(a, b, BlockIdents(body))
    ensures RunScript(vs, a, body, budget) == RunScript(vs, b, body, budget)
  {
    hide ExecBlock, Agree, BlockIdents;
    var st := St(map[], budget, []);
    BlockSame(vs, a, b, BlockIdents(body), 0, body, st);
    assert Up(st, 0) == st;
    var r := ExecBlock(vs, a, body, st);
    assert UpOut(r, 0) == r;
  }

  /** A budget that was enough can be raised at will: only the steps left over change. */
  lemma EnoughIsEnough(vs: Values, env: Env, body: seq<Stmt>, budget: int, k: nat)
    requires !(RunScript(vs, env, body, budget).Halted? && RunScript(vs, env, body, budget).fault.StepLimit?)
    ensures RunScript(vs, env, body, budget + k) == UpOut(RunScript(vs, env, body, budget), k)
  {
    hide ExecBlock, BlockIdents;
    var st := St(map[], budget, []);
    BlockSame(vs, env, env, BlockIdents(body), k, body, st);
    assert Up(st, k) == St(map[], budget + k, []);
  }
}
