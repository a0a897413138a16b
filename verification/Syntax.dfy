/** The script language: tokens and syntax trees. */
module Syntax {
  datatype BinOp =
    | Coalesce | Or | And | Eq | Ne | Lt | Gt | Le | Ge | Plus | Minus | Times | Over | Rem | Power

  /** Larger binds tighter. */
  function Prec(op: BinOp): (p: int)
    ensures 1 <= p <= 8
  {
    match op
    case Coalesce => 1
    case Or => 2
    case And => 3
    case Eq | Ne => 4
    case Lt | Gt | Le | Ge => 5
    case Plus | Minus => 6
    case Times | Over | Rem => 7
    case Power => 8
  }

  /**
   * A piece of source text. The words the grammar looks for have constructors of their own;
   * `Other` is any text but those, and `Nothing` is the empty text.
   */
  datatype Text =
    | Op(op: BinOp)
    | Bang | LParen | RParen | LBracket | RBracket | LBrace | RBrace
    | Comma | Dot | Colon | Semi | Question | Assign
    | Var | If | Else | Return | True | False | NullWord | Undefined | TypeOfWord
    | Nothing
    | Other(s: string)

  function SpellOp(op: BinOp): string {
    match op
    case Coalesce => "??"
    case Or => "||"
    case And => "&&"
    case Eq => "=="
    case Ne => "!="
    case Lt => "<"
    case Gt => ">"
    case Le => "<="
    case Ge => ">="
    case Plus => "+"
    case Minus => "-"
    case Times => "*"
    case Over => "/"
    case Rem => "%"
    case Power => "**"
  }

  /** The characters of a text. */
  function Spell(t: Text): string {
    match t
    case Op(op) => SpellOp(op)
    case Bang => "!"
    case LParen => "("
    case RParen => ")"
    case LBracket => "["
    case RBracket => "]"
    case LBrace => "{"
    case RBrace => "}"
    case Comma => ","
    case Dot => "."
    case Colon => ":"
    case Semi => ";"
    case Question => "?"
    case Assign => "="
    case Var => "var"
    case If => "if"
    case Else => "else"
    case Return => "return"
    case True => "true"
    case False => "false"
    case NullWord => "null"
    case Undefined => "undefined"
    case TypeOfWord => "typeof"
    case Nothing => ""
    case Other(s) => s
  }

  datatype Kind = Eof | Number | Str | Ident | Punct | Keyword

  datatype Token = Token(kind: Kind, text: Text, num: real)

  const EofToken := Token(Eof, Nothing, 0.0)

  /** What the lexer delivers: the end of file comes last. */
  ghost predicate Lexed(ts: seq<Token>) {
    |ts| > 0 && ts[|ts| - 1] == EofToken
  }

  datatype UnOp = Not | Neg | Pos | TypeOf

  datatype Literal = NumLit(num: real, raw: Text) | StrLit(text: Text) | BoolLit(b: bool) | NullLit(raw: Text)

  datatype Prop = Prop(key: Text, val: Expr)

  datatype Expr =
    | Lit(lit: Literal)
    | Id(name: Text)
    | Member(obj: Expr, name: Text)
    | Index(obj: Expr, index: Expr)
    | Unary(uop: UnOp, oper: Expr)
    | Bin(bop: BinOp, left: Expr, right: Expr)
    | Cond(cond: Expr, yes: Expr, no: Expr)
    | Call(fn: Text, args: seq<Expr>)
    | ArrayLit(items: seq<Expr>)
    | ObjectLit(props: seq<Prop>)

  datatype Stmt =
    | AssignStmt(name: Text, val: Expr)
    | IfStmt(cond: Expr, yes: seq<Stmt>, no: seq<Stmt>)
    | ReturnStmt(val: Expr)
    | ExprStmt(e: Expr)

  // ---------------------------------------------------------------- sizes

  function Nodes(e: Expr): (n: nat)
    ensures n >= 1
  {
    match e
    case Lit(_) => 1
    case Id(_) => 1
    case Member(obj, _) => 1 + Nodes(obj)
    case Index(obj, index) => 1 + Nodes(obj) + Nodes(index)
    case Unary(_, oper) => 1 + Nodes(oper)
    case Bin(_, left, right) => 1 + Nodes(left) + Nodes(right)
    case Cond(c, y, n) => 1 + Nodes(c) + Nodes(y) + Nodes(n)
    case Call(_, args) => 1 + NodesAll(args)
    case ArrayLit(items) => 1 + NodesAll(items)
    case ObjectLit(props) => 1 + NodesProps(props)
  }

  function NodesAll(es: seq<Expr>): nat {
    if es == [] then 0 else Nodes(es[0]) + NodesAll(es[1..])
  }

  function PropNodes(p: Prop): nat {
    Nodes(p.val)
  }

  function NodesProps(ps: seq<Prop>): nat {
    if ps == [] then 0 else PropNodes(ps[0]) + NodesProps(ps[1..])
  }

  function StmtNodes(s: Stmt): (n: nat)
    ensures n >= 1
  {
    match s
    case AssignStmt(_, val) => 1 + Nodes(val)
    case IfStmt(c, y, n) => 1 + Nodes(c) + BlockNodes(y) + BlockNodes(n)
    case ReturnStmt(val) => 1 + Nodes(val)
    case ExprStmt(e) => 1 + Nodes(e)
  }

  function BlockNodes(b: seq<Stmt>): nat {
    if b == [] then 0 else StmtNodes(b[0]) + BlockNodes(b[1..])
  }

  lemma {:induction false} NodesAllAppend(a: seq<Expr>, e: Expr)
    ensures NodesAll(a + [e]) == NodesAll(a) + Nodes(e)
  {
    if a != [] {
      NodesAllAppend(a[1..], e);
      assert (a + [e])[1..] == a[1..] + [e];
    }
  }

  lemma {:induction false} NodesPropsAppend(a: seq<Prop>, p: Prop)
    ensures NodesProps(a + [p]) == NodesProps(a) + Nodes(p.val)
  {
    if a != [] {
      NodesPropsAppend(a[1..], p);
      assert (a + [p])[1..] == a[1..] + [p];
    }
  }

  lemma {:induction false} BlockNodesAppend(a: seq<Stmt>, s: Stmt)
    ensures BlockNodes(a + [s]) == BlockNodes(a) + StmtNodes(s)
  {
    if a != [] {
      BlockNodesAppend(a[1..], s);
      assert (a + [s])[1..] == a[1..] + [s];
    }
  }

  const ProtoKeys: set<string> := {
    "__proto__", "constructor", "prototype", "toString", "valueOf", "hasOwnProperty", "isPrototypeOf",
    "propertyIsEnumerable", "__defineGetter__", "__defineSetter__", "__lookupGetter__", "__lookupSetter__",
    "caller", "callee", "arguments" }

  predicate ProtoKey(t: Text) {
    t.Other? && t.s in ProtoKeys
  }
}
