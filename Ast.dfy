// The Python syntax tree the builder consumes, in the shape `ast.parse`
// gives it under Python 3.8 (a subscript's index is wrapped in `Index`).
// Only the node kinds the builder dispatches on are distinguished; every
// other kind is one `Other…` constructor that the builder rejects.

module Ast {
  import opened Wrappers

  datatype Const =
    | CStr(s: string)
    | CBool(b: bool)
    | CInt(i: int)
    | CFloat(text: string)  // the literal's text as `str(float)` writes it
    | CNone
    | COther                // bytes, complex, Ellipsis

  datatype BinOperator = Add | Sub | Mult | Div | OtherBinOp
  datatype UnaryOperator = UAdd | USub | Not | Invert
  datatype BoolOperator = And | Or
  datatype CmpOp = Eq | NotEq | Lt | LtE | Gt | GtE | In | OtherCmp

  datatype Expr =
    | Constant(c: Const)
    | Name(id: string)
    | BinOp(left: Expr, op: BinOperator, right: Expr)
    | UnaryOp(uop: UnaryOperator, operand: Expr)
    | Call(func: Expr, args: seq<Expr>, keywords: seq<Keyword>)
    | Attribute(value: Expr, attr: string)
    | Compare(left: Expr, ops: seq<CmpOp>, comparators: seq<Expr>)
    | BoolOp(bop: BoolOperator, values: seq<Expr>)
    | List(elts: seq<Expr>)
    | Tuple(elts: seq<Expr>)
    | Subscript(value: Expr, slice: Slice)
    | IfExp(test: Expr, body: Expr, orelse: Expr)
    | OtherExpr

  datatype Keyword = Keyword(arg: string, value: Expr)

  datatype Slice =
    | Index(value: Expr)
    | SliceRange  // `a[i:j]`
    | ExtSlice    // `a[i:j, k]`

  datatype Arg = Arg(arg: string, annotation: Option<Expr>)

  datatype Arguments = Arguments(args: seq<Arg>, defaults: seq<Expr>, vararg: Option<Arg>)

  datatype Stmt =
    | FunctionDef(name: string, params: Arguments, body: seq<Stmt>, retAnn: Option<Expr>)
    | Return(retValue: Option<Expr>)
    | Assign(targets: seq<Expr>, value: Expr)
    | AugAssign(target: Expr, aop: BinOperator, value: Expr)
    | AnnAssign(target: Expr, annotation: Expr, annValue: Option<Expr>)
    | ExprStmt(value: Expr)
    | If(test: Expr, body: seq<Stmt>, orelse: seq<Stmt>)
    | For(target: Expr, iter: Expr, body: seq<Stmt>, orelse: seq<Stmt>)
    | ImportFrom(moduleName: Option<string>)
    | Assert(test: Expr, msg: Option<Expr>)
    | OtherStmt

  // ------------------------------------------------------------- measures
  // The builder lowers a few nodes it makes up itself (the string argument
  // `input()` receives, the `return None` a function gets, the assignment
  // an augmented assignment becomes); the measures are chosen so that each
  // of them is smaller than the node it comes from, or the same size and
  // handled one step further down.

  function ExprSize(e: Expr): nat
  {
    match e
    case Constant(_) => 1
    case Name(_) => 1
    case BinOp(l, _, r) => 1 + ExprSize(l) + ExprSize(r)
    case UnaryOp(_, x) => 1 + ExprSize(x)
    case Call(f, args, kws) => 2 + ExprSize(f) + (if args == [] then 1 else ExprsSize(args)) + KeywordsSize(kws)
    case Attribute(v, _) => 1 + ExprSize(v)
    case Compare(l, _, cs) => 1 + ExprSize(l) + ExprsSize(cs)
    case BoolOp(_, vs) => 1 + ExprsSize(vs)
    case List(es) => 1 + ExprsSize(es)
    case Tuple(es) => 1 + ExprsSize(es)
    case Subscript(v, sl) => 1 + ExprSize(v) + SliceSize(sl)
    case IfExp(t, b, o) => 1 + ExprSize(t) + ExprSize(b) + ExprSize(o)
    case OtherExpr => 1
  }

  function ExprsSize(es: seq<Expr>): nat
  {
    if es == [] then 0 else ExprSize(es[0]) + ExprsSize(es[1..])
  }

  /** A call's positional arguments; no arguments weigh as much as one
      constant, so that `input()` and `input("")` are the same size. */
  function ArgsSize(es: seq<Expr>): nat
  {
    if es == [] then 1 else ExprsSize(es)
  }

  function KeywordsSize(ks: seq<Keyword>): nat
  {
    if ks == [] then 0 else 1 + ExprSize(ks[0].value) + KeywordsSize(ks[1..])
  }

  function SliceSize(sl: Slice): nat
  {
    match sl
    case Index(v) => 1 + ExprSize(v)
    case _ => 1
  }

  function OptExprSize(e: Option<Expr>): nat
  {
    match e
    case None => 0
    case Some(x) => ExprSize(x)
  }

  function StmtSize(s: Stmt): nat
  {
    match s
    case FunctionDef(_, ps, body, ret) => 3 + ParamsSize(ps) + StmtsSize(body) + OptExprSize(ret)
    case Return(v) => 1 + OptExprSize(v)
    case Assign(ts, v) => 1 + ExprsSize(ts) + ExprSize(v)
    case AugAssign(t, _, v) => 3 + 2 * ExprSize(t) + ExprSize(v)
    case AnnAssign(t, a, v) => 1 + ExprSize(t) + ExprSize(a) + OptExprSize(v)
    case ExprStmt(v) => 1 + ExprSize(v)
    case If(t, body, orelse) => 1 + ExprSize(t) + StmtsSize(body) + StmtsSize(orelse)
    case For(t, it, body, orelse) => 1 + ExprSize(t) + ExprSize(it) + StmtsSize(body) + StmtsSize(orelse)
    case ImportFrom(_) => 1
    case Assert(t, m) => 1 + ExprSize(t) + OptExprSize(m)
    case OtherStmt => 1
  }

  function StmtsSize(ss: seq<Stmt>): nat
  {
    if ss == [] then 0 else StmtSize(ss[0]) + StmtsSize(ss[1..])
  }

  function ParamsSize(ps: Arguments): nat
  {
    ExprsSize(ps.defaults) + ArgAnnotationsSize(ps.args)
  }

  function ArgAnnotationsSize(args: seq<Arg>): nat
  {
    if args == [] then 0 else OptExprSize(args[0].annotation) + ArgAnnotationsSize(args[1..])
  }

  lemma {:induction false} ExprInSize(es: seq<Expr>, i: int)
    requires 0 <= i < |es|
    ensures ExprSize(es[i]) <= ExprsSize(es)
  {
    if i > 0 {
      ExprInSize(es[1..], i - 1);
    }
  }

  lemma {:induction false} KeywordInSize(ks: seq<Keyword>, i: int)
    requires 0 <= i < |ks|
    ensures ExprSize(ks[i].value) < KeywordsSize(ks)
  {
    if i > 0 {
      KeywordInSize(ks[1..], i - 1);
    }
  }

  lemma {:induction false} StmtInSize(ss: seq<Stmt>, i: int)
    requires 0 <= i < |ss|
    ensures StmtSize(ss[i]) <= StmtsSize(ss)
  {
    if i > 0 {
      StmtInSize(ss[1..], i - 1);
    }
  }

  lemma {:induction false} DefaultInSize(ps: Arguments, i: int)
    requires 0 <= i < |ps.defaults|
    ensures ExprSize(ps.defaults[i]) <= ParamsSize(ps)
  {
    ExprInSize(ps.defaults, i);
  }

  lemma {:induction false} AnnotationInSize(args: seq<Arg>, i: int)
    requires 0 <= i < |args| && args[i].annotation.Some?
    ensures ExprSize(args[i].annotation.value) <= ArgAnnotationsSize(args)
  {
    if i > 0 {
      AnnotationInSize(args[1..], i - 1);
    }
  }
}
