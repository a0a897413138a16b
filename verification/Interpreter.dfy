/** The interpreter: one object whose variables, budget and notes evaluation updates. */
module Interpreting {
  import opened Outcomes
  import opened Syntax
  import opened Grammar
  import opened Evaluation

  datatype Ret<+T> = Good(value: T) | Bad(fault: Fault) {
    predicate IsFailure() {
      Bad?
    }

    function PropagateFailure<U>(): Ret<U>
      requires Bad?
    {
      Ret<U>.Bad(fault)
    }

    function Extract(): T
      requires Good?
    {
      value
    }
  }

  /** A method's result and the state it leaves are what evaluation says. */
  ghost predicate Does<T>(r: Ret<T>, after: St, spec: Out<T>) {
    match spec
    case Done(v, st) => r == Good(v) && after == st
    case Halted(f, st) => r == Ret<T>.Bad(f) && after == st
  }

  method OfAnswer(a: Answer) returns (r: Ret<Val>)
    ensures forall st :: Does(r, st, Evaluation.Settle(a, st))
  {
    match a
    case Ans(v) => r := Good(v);
    case Refuse(code) => r := Ret<Val>.Bad(Refused(code));
  }

  class Interpreter {
    const vs: Values
    const env: Env
    var local: Env
    var budget: int
    var notes: seq<string>

    constructor (vs: Values, env: Env, budget: int)
      ensures this.vs == vs && this.env == env && State() == St(map[], budget, [])
    {
      this.vs, this.env := vs, env;
      this.local, this.budget, this.notes := map[], budget, [];
    }

    ghost function State(): St
      reads this
    {
      St(local, budget, notes)
    }

    method Tick() returns (r: Ret<()>)
      modifies this`budget
      ensures Does(r, State(), Evaluation.Tick(old(State())))
    {
      budget := budget - 1;
      if budget <= 0 {
        return Ret<()>.Bad(StepLimit);
      }
      return Good(());
    }

    method Eval(e: Expr) returns (r: Ret<Val>)
      modifies this
      ensures Does(r, State(), Evaluation.Eval(vs, env, e, old(State())))
      decreases e, 1
    {
      hide Evaluation.Tick, Evaluation.EvalNode;
      var _ :- Tick();
      r := EvalNode(e);
    }

    method EvalNode(e: Expr) returns (r: Ret<Val>)
      modifies this
      ensures Does(r, State(), Evaluation.EvalNode(vs, env, e, old(State())))
      decreases e, 0
    {
      hide Evaluation.Eval, Evaluation.EvalCall, Evaluation.EvalAll, Evaluation.EvalProps, Evaluation.Settle,
        Combine, Decides, Truthy, LiteralVal;
      match e {
        case Lit(l) => r := Good(LiteralVal(l));
        case Id(name) =>
          if name in local {
            r := Good(local[name]);
          } else if name in env {
            r := Good(env[name]);
          } else {
            r := Ret<Val>.Bad(UndefinedVar(name));
          }
        case Member(obj, name) =>
          var o :- Eval(obj);
          r := OfAnswer(vs.member(o, name));
        case Index(obj, index) =>
          var o :- Eval(obj);
          var i :- Eval(index);
          r := OfAnswer(vs.index(o, i));
        case Unary(op, oper) =>
          var o :- Eval(oper);
          r := OfAnswer(vs.unary(op, o));
        case Bin(op, left, right) => r := EvalBinary(op, left, right);
        case Cond(c, yes, no) =>
          var b :- Eval(c);
          if Truthy(b) {
            r := Eval(yes);
          } else {
            r := Eval(no);
          }
        case Call(fn, args) => r := EvalCall(fn, args);
        case ArrayLit(items) =>
          var list :- EvalAll(items);
          r := Good(VList(list));
        case ObjectLit(props) =>
          var out :- EvalProps(props);
          r := Good(VObj(out));
      }
    }

    /** Short circuits leave the right side alone. */
    method EvalBinary(op: BinOp, left: Expr, right: Expr) returns (r: Ret<Val>)
      modifies this
      ensures Does(r, State(), Evaluation.EvalNode(vs, env, Bin(op, left, right), old(State())))
      decreases Bin(op, left, right), -1
    {
      hide Evaluation.Eval, Evaluation.Settle;
      if op == And {
        var l :- Eval(left);
        if !Truthy(l) {
          return Good(l);
        }
        r := Eval(right);
      } else if op == Or {
        var l :- Eval(left);
        if Truthy(l) {
          return Good(l);
        }
        r := Eval(right);
      } else if op == Coalesce {
        var l :- Eval(left);
        if l != VNull {
          return Good(l);
        }
        r := Eval(right);
      } else {
        var l :- Eval(left);
        var x :- Eval(right);
        r := OfAnswer(vs.binary(op, l, x));
      }
    }

    method EvalAll(es: seq<Expr>) returns (r: Ret<seq<Val>>)
      modifies this
      ensures Does(r, State(), Evaluation.EvalAll(vs, env, es, old(State())))
      decreases es, 0
    {
      hide Evaluation.EvalAll, Evaluation.Eval;
      var out: seq<Val> := [];
      ghost var whole := Evaluation.EvalAll(vs, env, es, State());
      ListStart(whole);
      for i := 0 to |es|
        invariant whole == ListAfter(out, Evaluation.EvalAll(vs, env, es[i..], State()))
      {
        AllUnfold(vs, env, es[i..], State(), out);
        assert es[i..][0] == es[i] && es[i..][1..] == es[i + 1..];
        var v :- Eval(es[i]);
        out := out + [v];
      }
      AllDone(vs, env, State(), out);
      assert es[|es|..] == [];
      return Good(out);
    }

    method EvalProps(ps: seq<Prop>) returns (r: Ret<map<Text, Val>>)
      modifies this
      ensures Does(r, State(), Evaluation.EvalProps(vs, env, ps, map[], old(State())))
      decreases ps, 0
    {
      hide Evaluation.EvalProps, Evaluation.EvalProp;
      var out: map<Text, Val> := map[];
      ghost var whole := Evaluation.EvalProps(vs, env, ps, out, State());
      for i := 0 to |ps|
        invariant whole == Evaluation.EvalProps(vs, env, ps[i..], out, State())
      {
        PropsUnfolded(vs, env, ps[i..], out, State());
        assert ps[i..][0] == ps[i] && ps[i..][1..] == ps[i + 1..];
        var v :- EvalProp(ps[i]);
        out := out[ps[i].key := v];
      }
      PropsUnfolded(vs, env, [], out, State());
      assert ps[|ps|..] == [];
      return Good(out);
    }

    method EvalProp(p: Prop) returns (r: Ret<Val>)
      modifies this
      ensures Does(r, State(), Evaluation.EvalProp(vs, env, p, old(State())))
      decreases p, 0
    {
      hide Evaluation.Eval;
      r := Eval(p.val);
    }

    // ---------------------------------------------------------------- host functions

    method Arg(args: seq<Expr>, i: nat) returns (r: Ret<Val>)
      modifies this
      ensures Does(r, State(), Evaluation.Arg(vs, env, args, i, old(State())))
      decreases args, 0
    {
      hide Evaluation.Eval;
      if i >= |args| {
        return Good(VNull);
      }
      r := Eval(args[i]);
    }

    method IntArg(args: seq<Expr>, i: nat, absent: Option<int>) returns (r: Ret<Option<int>>)
      modifies this
      ensures Does(r, State(), Evaluation.IntArg(vs, env, args, i, absent, old(State())))
      ensures r.Good? && absent.Some? ==> r.value.Some?
      decreases args, 1
    {
      hide Evaluation.Arg;
      var v :- Arg(args, i);
      if v == VNull {
        return Good(absent);
      }
      var n := vs.integer(v);
      if n.None? {
        return Ret<Option<int>>.Bad(Refused(RuntimeError));
      }
      return Good(n);
    }

    method EvalCall(fn: Text, args: seq<Expr>) returns (r: Ret<Val>)
      modifies this
      ensures Does(r, State(), Evaluation.EvalCall(vs, env, fn, args, old(State())))
      decreases args, 4
    {
      hide Evaluation.EvalHost, HostOf;
      var h := HostOf(fn);
      if h.None? {
        return Ret<Val>.Bad(UnknownCall(fn));
      }
      if |args| > MaxArgs {
        return Ret<Val>.Bad(TooManyArgs);
      }
      r := EvalHost(h.value, args);
    }

    method EvalHost(h: HostFn, args: seq<Expr>) returns (r: Ret<Val>)
      modifies this
      ensures Does(r, State(), Evaluation.EvalHost(vs, env, h, args, old(State())))
      decreases args, 3
    {
      hide Evaluation.Arg, Evaluation.EvalJoin, Evaluation.EvalSlice, Evaluation.EvalNote, Evaluation.Settle;
      match h {
        case HJoin => r := HostJoin(args);
        case HSlice => r := HostSlice(args);
        case HReplace =>
          var src :- Arg(args, 0);
          var from :- Arg(args, 1);
          var to :- Arg(args, 2);
          r := OfAnswer(vs.host(h, [src, from, to]));
        case HDefault =>
          var v :- Arg(args, 0);
          if v == VNull || v == VStr("") {
            r := Arg(args, 1);
          } else {
            r := Good(v);
          }
        case HHas =>
          var obj :- Arg(args, 0);
          var key :- Arg(args, 1);
          r := OfAnswer(vs.host(h, [obj, key]));
        case HToast => r := HostNote(args);
        case HLog => r := HostNote(args);
        case _ =>
          var v :- Arg(args, 0);
          r := OfAnswer(vs.host(h, [v]));
      }
    }

    method HostJoin(args: seq<Expr>) returns (r: Ret<Val>)
      modifies this
      ensures Does(r, State(), EvalJoin(vs, env, args, old(State())))
      decreases args, 2
    {
      hide Evaluation.Arg, Evaluation.Settle;
      if |args| > 1 {
        var sep :- Arg(args, 1);
        var items :- Arg(args, 0);
        r := OfAnswer(vs.host(HJoin, [items, sep]));
      } else {
        var items :- Arg(args, 0);
        r := OfAnswer(vs.host(HJoin, [items]));
      }
    }

    method HostSlice(args: seq<Expr>) returns (r: Ret<Val>)
      modifies this
      ensures Does(r, State(), EvalSlice(vs, env, args, old(State())))
      decreases args, 2
    {
      hide Evaluation.Arg, Evaluation.IntArg, Evaluation.Settle;
      SliceUnfolds(vs, env, args, State());
      var v :- Arg(args, 0);
      var start :- IntArg(args, 1, Some(0));
      if !v.VStr? && !v.VList? {
        return Ret<Val>.Bad(Refused(RuntimeError));
      }
      if |args| <= 2 {
        r := OfAnswer(vs.slice(v, start.value, None));
        return;
      }
      var end :- IntArg(args, 2, None);
      r := OfAnswer(vs.slice(v, start.value, end));
    }

    method HostNote(args: seq<Expr>) returns (r: Ret<Val>)
      modifies this
      ensures Does(r, State(), EvalNote(vs, env, args, old(State())))
      decreases args, 2
    {
      hide Evaluation.Arg;
      var v :- Arg(args, 0);
      notes := notes + [vs.text(v)];
      return Good(VNull);
    }

    // ---------------------------------------------------------------- statements

    method ExecStmt(s: Stmt) returns (r: Ret<Flow>)
      modifies this
      ensures Does(r, State(), Exec(vs, env, s, old(State())))
      decreases s, 0
    {
      hide Evaluation.Eval, Evaluation.ExecBlock, Truthy;
      match s {
        case AssignStmt(name, val) =>
          var v :- Eval(val);
          local := local[name := v];
          r := Good(Next);
        case IfStmt(c, yes, no) =>
          var b :- Eval(c);
          if Truthy(b) {
            r := ExecBlock(yes);
          } else {
            r := ExecBlock(no);
          }
        case ReturnStmt(val) =>
          var v :- Eval(val);
          r := Good(Returned(v));
        case ExprStmt(e) =>
          var _ :- Eval(e);
          r := Good(Next);
      }
    }

    method ExecBlock(b: seq<Stmt>) returns (r: Ret<Flow>)
      modifies this
      ensures Does(r, State(), Evaluation.ExecBlock(vs, env, b, old(State())))
      decreases b, 0
    {
      hide Evaluation.ExecBlock, Exec, Evaluation.Tick;
      ghost var whole := Evaluation.ExecBlock(vs, env, b, State());
      for i := 0 to |b|
        invariant whole == Evaluation.ExecBlock(vs, env, b[i..], State())
      {
        BlockUnfolds(vs, env, b[i..], State());
        assert b[i..][0] == b[i] && b[i..][1..] == b[i + 1..];
        var _ :- Tick();
        var f :- ExecStmt(b[i]);
        if f.Returned? {
          return Good(f);
        }
      }
      BlockUnfolds(vs, env, [], State());
      assert b[|b|..] == [];
      return Good(Next);
    }

    /** Runs a whole script from a fresh state. */
    method Run(body: seq<Stmt>) returns (r: Ret<Val>)
      requires local == map[] && notes == []
      modifies this
      ensures Does(r, State(), RunScript(vs, env, body, old(budget)))
    {
      hide Evaluation.ExecBlock;
      var f :- ExecBlock(body);
      match f {
        case Returned(v) => r := Good(v);
        case Next =>
          if OutName in local {
            r := Good(local[OutName]);
          } else {
            r := Ret<Val>.Bad(NoResult);
          }
      }
    }
  }

  // ---------------------------------------------------------------- one step of each list

  /** Values already computed, in front of those still to come. */
  ghost function ListAfter(out: seq<Val>, r: Out<seq<Val>>): Out<seq<Val>> {
    match r
    case Done(more, st) => Done(out + more, st)
    case Halted(f, st) => Halted(f, st)
  }

  lemma ListStart(r: Out<seq<Val>>)
    ensures ListAfter([], r) == r
  {
    assert r.Done? ==> [] + r.value == r.value;
  }

  lemma AllUnfold(vs: Values, env: Env, es: seq<Expr>, st: St, out: seq<Val>)
    requires es != []
    ensures ListAfter(out, Evaluation.EvalAll(vs, env, es, st)) ==
            var v := Evaluation.Eval(vs, env, es[0], st);
            if v.Halted? then Out<seq<Val>>.Halted(v.fault, v.st)
            else ListAfter(out + [v.value], Evaluation.EvalAll(vs, env, es[1..], v.st))
  {
    hide Evaluation.Eval;
    var v := Evaluation.Eval(vs, env, es[0], st);
    if v.Done? {
      var more := Evaluation.EvalAll(vs, env, es[1..], v.st);
      assert more.Done? ==> out + ([v.value] + more.value) == (out + [v.value]) + more.value;
    }
  }

  lemma AllDone(vs: Values, env: Env, st: St, out: seq<Val>)
    ensures ListAfter(out, Evaluation.EvalAll(vs, env, [], st)) == Done(out, st)
  {
    assert out + [] == out;
  }

  lemma PropsUnfolded(vs: Values, env: Env, ps: seq<Prop>, into: map<Text, Val>, st: St)
    ensures Evaluation.EvalProps(vs, env, ps, into, st) ==
            if ps == [] then Done(into, st)
            else
              var v :- Evaluation.EvalProp(vs, env, ps[0], st);
              Evaluation.EvalProps(vs, env, ps[1..], into[ps[0].key := v.0], v.1)
  {
    hide Evaluation.EvalProp;
  }

  lemma SliceUnfolds(vs: Values, env: Env, args: seq<Expr>, st: St)
    ensures EvalSlice(vs, env, args, st) ==
            var v :- Evaluation.Arg(vs, env, args, 0, st);
            var start :- Evaluation.IntArg(vs, env, args, 1, Some(0), v.1);
            if !v.0.VStr? && !v.0.VList? then Halted(Refused(RuntimeError), start.1)
            else if |args| <= 2 then Evaluation.Settle(vs.slice(v.0, start.0.value, None), start.1)
            else
              var end :- Evaluation.IntArg(vs, env, args, 2, None, start.1);
              Evaluation.Settle(vs.slice(v.0, start.0.value, end.0), end.1)
  {
  }

  lemma BlockUnfolds(vs: Values, env: Env, b: seq<Stmt>, st: St)
    ensures Evaluation.ExecBlock(vs, env, b, st) ==
            if b == [] then Done(Next, st)
            else
              var t :- Evaluation.Tick(st);
              var f :- Exec(vs, env, b[0], t.1);
              if f.0.Returned? then Done(f.0, f.1) else Evaluation.ExecBlock(vs, env, b[1..], f.1)
  {
    hide Exec, Evaluation.Tick;
  }
}
