// The expression rules of `_Builder` (pyschemetranspiler/builder.py and,
// where `b.legacy` is set, the older PySchemeTranspiler/builder.py): each
// rule lowers one Python expression node to Racket text and its type,
// reading and updating the builder's state. A rule that fails returns the
// Python exception class it would raise; the source turns every such
// exception into a fatal conversion error, so the state left behind by a
// failing rule is never used again and is not specified.
//
// Every rule below promises the same frame: the builder stays valid, the
// scopes are unchanged when it succeeds (every `TempState` it opens is
// closed again), build flags are only ever switched on and warnings only
// appended. Under `__resolveAsIf__` (the test of an `if`), every
// successful rule yields a Racket boolean, or the bare text the tuple
// resolver gives, whose type is `Null`.

module ExprLowering {
  import opened Wrappers
  import opened Types
  import opened Ast
  import opened ExtraCodes
  import opened Truthiness
  import opened Scope
  import opened Rules

  /** Flags switched on stay on; the table only grows. */
  predicate FlagsKept(before: map<Flag, bool>, after: map<Flag, bool>)
  {
    before.Keys <= after.Keys && forall f :: f in before && before[f] ==> after[f]
  }

  /** The type of a lowered `if` test. */
  predicate IsTestType(t: Ty)
  {
    t == Bool || t == Null
  }

  /** `IfLiteralResolver.resolve` when `on`, the rule's own result otherwise. */
  function Resolved(on: bool, res: (string, Ty), legacy: bool): (r: Result<(string, Ty)>)
    ensures on && r.Ok? ==> IsTestType(r.value.1)
    ensures !on ==> r == Ok(res)
  {
    if on then
      var t := ResolveTruth(res.0, res.1, legacy);
      if t.Ok? then ResolvedTestIsBoolean(res.0, res.1, legacy); t else t
    else Ok(res)
  }

  /** The rules of the two leaf nodes, names and literals. */
  function LeafRule(frames: seq<Frame>, e: Expr, on: bool, legacy: bool): Result<(string, Ty)>
    requires e.Name? || e.Constant?
  {
    var res :- if e.Name? then NameRule(frames, e.id) else ConstantRule(e.c, legacy);
    Resolved(on, res, legacy)
  }

  /** `Name` before the literal-if check: the name and the type bound to it
      in the nearest scope that has it. A program name that collides with
      one of the builder's bookkeeping keys is not modelled. */
  function NameRule(frames: seq<Frame>, id: string): Result<(string, Ty)>
  {
    if id in Reserved then Err(Unmodelled)
    else
      match LookupIn(frames, id)
      case None => Err(KeyError)
      case Some(v) => if v.TyVal? then Ok((id, v.t)) else Err(Unmodelled)
  }

  /** The function type bound to `name`, if it is bound to one. */
  function Callee(frames: seq<Frame>, name: string): Option<Ty>
  {
    match LookupIn(frames, name)
    case Some(TyVal(t)) => if t.TFunction? then Some(t) else None
    case _ => None
  }

  /** `_Typer.Constant`: the Python class of a literal. */
  function ConstantType(c: Const): Result<Ty>
  {
    match c
    case CStr(_) => Ok(Str)
    case CBool(_) => Ok(Bool)
    case CInt(_) => Ok(Int)
    case CFloat(_) => Ok(Float)
    case CNone => Ok(NoneType)
    case COther => Err(Unmodelled)
  }

  /** A literal's deduced class is the type its lowering carries, except
      for `None`, which lowers with the value None as its type. */
  lemma ConstantTypeAgrees(c: Const, legacy: bool)
    ensures ConstantType(c).Ok? <==> ConstantRule(c, legacy).Ok?
    ensures ConstantType(c).Ok? && !c.CNone? ==> ConstantType(c).value == ConstantRule(c, legacy).value.1
    ensures c.CNone? ==> ConstantType(c) == Ok(NoneType) && ConstantRule(c, legacy).value.1 == NoneLit
  {
  }

  function Texts(vs: seq<(string, Ty)>): (r: seq<string>)
    ensures |r| == |vs| && forall i :: 0 <= i < |vs| ==> r[i] == vs[i].0
  {
    seq(|vs|, i requires 0 <= i < |vs| => vs[i].0)
  }

  function TypesOf(vs: seq<(string, Ty)>): (r: seq<Ty>)
    ensures |r| == |vs| && forall i :: 0 <= i < |vs| ==> r[i] == vs[i].1
  {
    seq(|vs|, i requires 0 <= i < |vs| => vs[i].1)
  }

  /** The text of `(gvector e1 e2 ...)`. */
  function VectorText(elements: seq<string>): string
  {
    if elements == [] then "(gvector)" else "(gvector " + Join(elements, " ") + ")"
  }

  /** The element type of a list literal: the elements' types merged into
      the pending type, left to right (the older snapshot's merge in legacy
      mode). */
  function ElementType(acc: Ty, ts: seq<Ty>, legacy: bool): Result<Ty>
    decreases |ts|
  {
    if ts == [] then Ok(acc)
    else
      var m :- if legacy then LegacyMerge(acc, ts[0]) else Merge(acc, ts[0], false);
      ElementType(m, ts[1..], legacy)
  }

  /** Merging one more element type into the fold of the previous ones. */
  lemma {:induction false} ElementTypeSnoc(acc: Ty, ts: seq<Ty>, t: Ty, legacy: bool, m: Ty)
    requires ElementType(acc, ts, legacy) == Ok(m)
    ensures ElementType(acc, ts + [t], legacy) == if legacy then LegacyMerge(m, t) else Merge(m, t, false)
    decreases |ts|
  {
    if ts == [] {
      assert (ts + [t])[1..] == [];
    } else {
      var m0 := if legacy then LegacyMerge(acc, ts[0]) else Merge(acc, ts[0], false);
      assert (ts + [t])[0] == ts[0];
      assert (ts + [t])[1..] == ts[1..] + [t];
      ElementTypeSnoc(m0.value, ts[1..], t, legacy, m);
    }
  }

  /** A list literal whose elements all have one plain type is a list of
      that type; the empty literal is a list whose type is still pending. */
  lemma {:induction false} UniformListType(t: Ty, ts: seq<Ty>, legacy: bool)
    requires forall i :: 0 <= i < |ts| ==> ts[i] == t
    ensures ElementType(TPending, ts, legacy).Ok?
    ensures ts == [] ==> ElementType(TPending, ts, legacy).value == TPending
    ensures ts != [] ==> PyEq(ElementType(TPending, ts, legacy).value, t)
  {
    if ts != [] {
      MergePendingLeft(t, false);
      PyEqReflexive(t);
      var m := if legacy then LegacyMerge(TPending, t) else Merge(TPending, t, false);
      assert m.Ok? && PyEq(m.value, t) by {
        LegacyMergeAgrees(TPending, t);
      }
      UniformTail(m.value, t, ts[1..], legacy);
    }
  }

  lemma {:induction false} UniformTail(m: Ty, t: Ty, ts: seq<Ty>, legacy: bool)
    requires PyEq(m, t)
    requires forall i :: 0 <= i < |ts| ==> ts[i] == t
    ensures ElementType(m, ts, legacy).Ok?
    ensures PyEq(ElementType(m, ts, legacy).value, t)
    decreases |ts|
  {
    if ts != [] {
      PyEqSymmetric(m, t);
      assert Merge(m, t, false) == Ok(m);
      assert LegacyMerge(m, t) == Ok(m);
      UniformTail(m, t, ts[1..], legacy);
    }
  }

  /** Setting one key in the current scope leaves every other name's
      binding as it was. */
  lemma LookupOtherKey(h: seq<Frame>, key: string, v: Val, id: string)
    requires |h| >= 1 && id != key
    ensures LookupIn(Outer(h) + [h[|h| - 1][key := v]], id) == LookupIn(h, id)
  {
    var h' := Outer(h) + [h[|h| - 1][key := v]];
    assert h'[..|h'| - 1] == Outer(h);
    assert h[..|h| - 1] == Outer(h);
  }

  // ------------------------------------------------------------ dispatch

  /** `buildFromNodeType`: lower one expression by its node kind. */
  method LowerExpr(b: Builder, e: Expr) returns (r: Result<(string, Ty)>)
    requires b.Valid()
    modifies b
    decreases ExprSize(e), 6
    ensures b.Valid()
    ensures r.Ok? ==> b.stateHistory == old(b.stateHistory)
    ensures FlagsKept(old(b.buildFlags), b.buildFlags) && old(b.warnings) <= b.warnings
    ensures r.Ok? && old(b.Flag(ResolveKey)) ==> IsTestType(r.value.1)
    ensures e.Name? || e.Constant? ==> r == LeafRule(old(b.stateHistory), e, old(b.Flag(ResolveKey)), b.legacy)
    ensures e.Attribute? || e.OtherExpr? ==> r == Err(ValueError)
    ensures e.Constant? ==> b.warnings == old(b.warnings)
    ensures b.legacy && (e.Tuple? || e.IfExp?) ==> r == Err(ValueError)
  {
    match e
    case Constant(c) => r := LowerConstant(b, c);
    case Name(id) => r := LowerName(b, id);
    case BinOp(_, _, _) =>
      var res, _, _ := LowerBinOp(b, e);
      r := res;
    case UnaryOp(_, _) =>
      var res, _ := LowerUnary(b, e);
      r := res;
    case Call(_, _, _) => r := LowerCall(b, e);
    case Compare(_, _, _) => r := LowerCompare(b, e);
    case BoolOp(_, _) => r := LowerBoolOp(b, e);
    case List(_) =>
      var res, _ := LowerList(b, e);
      r := res;
    case Subscript(_, _) => r := LowerSubscript(b, e);
    case Tuple(_) =>
      if b.legacy {
        r := Err(ValueError);
      } else {
        r := LowerTuple(b, e);
      }
    case IfExp(_, _, _) =>
      if b.legacy {
        r := Err(ValueError);
      } else {
        r := LowerIfExp(b, e);
      }
    case Attribute(_, _) => r := Err(ValueError);
    case OtherExpr => r := Err(ValueError);
  }

  /** Lower the expressions in order, stopping at the first failure. */
  method LowerAll(b: Builder, es: seq<Expr>) returns (r: Result<seq<(string, Ty)>>)
    requires b.Valid()
    modifies b
    decreases ExprsSize(es), 7
    ensures b.Valid()
    ensures r.Ok? ==> b.stateHistory == old(b.stateHistory) && |r.value| == |es|
    ensures FlagsKept(old(b.buildFlags), b.buildFlags) && old(b.warnings) <= b.warnings
  {
    var out: seq<(string, Ty)> := [];
    var i := 0;
    while i < |es|
      invariant 0 <= i <= |es| && |out| == i
      invariant b.Valid() && b.stateHistory == old(b.stateHistory)
      invariant FlagsKept(old(b.buildFlags), b.buildFlags) && old(b.warnings) <= b.warnings
    {
      ExprInSize(es, i);
      var x :- LowerExpr(b, es[i]);
      out := out + [x];
      i := i + 1;
    }
    r := Ok(out);
  }

  /** Lower `e` with `key` temporarily set to `v` (`with TempState(key, v)`). */
  method LowerWith(b: Builder, key: string, v: Val, e: Expr) returns (r: Result<(string, Ty)>)
    requires b.Valid() && WellKinded(key, v)
    modifies b
    decreases ExprSize(e), 7
    ensures b.Valid()
    ensures r.Ok? ==> b.stateHistory == old(b.stateHistory)
    ensures FlagsKept(old(b.buildFlags), b.buildFlags) && old(b.warnings) <= b.warnings
  {
    ghost var h := b.stateHistory;
    var saved := b.TempEnter(key, v);
    r := LowerExpr(b, e);
    if r.Ok? {
      b.TempExit(key, saved);
      TempStackRoundTrip(h, key, v);
    }
  }

  /** `isTypeCompatible` as the rules use it: the answer, with its warnings
      appended (their number is stated by `Builder.Check`). */
  method Fits(b: Builder, t1: Ty, t2: Ty) returns (ok: bool)
    requires b.Valid()
    modifies b
    ensures b.Valid() && b.stateHistory == old(b.stateHistory) && b.buildFlags == old(b.buildFlags)
    ensures old(b.warnings) <= b.warnings
    ensures ok == Compatible(t1, t2)
  {
    ghost var before := b.warnings;
    ok := b.Check(t1, t2);
    assert before <= b.warnings by {
      var added := NoneWarnings(CompatWarnings(t1, t2, b.legacy));
      assert b.warnings == before + added;
    }
  }

  /** The literal-if check at the end of a rule; every resolution also
      switches on the `!=` snippet. */
  method MaybeResolve(b: Builder, text: string, t: Ty) returns (r: Result<(string, Ty)>)
    requires b.Valid()
    modifies b
    ensures b.Valid() && b.stateHistory == old(b.stateHistory) && b.warnings == old(b.warnings)
    ensures FlagsKept(old(b.buildFlags), b.buildFlags)
    ensures r == Resolved(b.Flag(ResolveKey), (text, t), b.legacy)
  {
    if b.Flag(ResolveKey) {
      b.SetFlag(NOT_EQUAL);
      r := ResolveTruth(text, t, b.legacy);
    } else {
      r := Ok((text, t));
    }
  }

  // ------------------------------------------------------------ literals and names

  /** `Constant`: a literal and its class, resolved in a test. */
  method LowerConstant(b: Builder, c: Const) returns (r: Result<(string, Ty)>)
    requires b.Valid()
    modifies b
    ensures b.Valid() && b.stateHistory == old(b.stateHistory) && b.warnings == old(b.warnings)
    ensures FlagsKept(old(b.buildFlags), b.buildFlags)
    ensures r == (var lit :- ConstantRule(c, b.legacy); Resolved(old(b.Flag(ResolveKey)), lit, b.legacy))
  {
    var lit :- ConstantRule(c, b.legacy);
    r := MaybeResolve(b, lit.0, lit.1);
  }

  /** `Name`: the name itself, typed by the nearest scope binding it. */
  method LowerName(b: Builder, id: string) returns (r: Result<(string, Ty)>)
    requires b.Valid()
    modifies b
    ensures b.Valid() && b.stateHistory == old(b.stateHistory) && b.warnings == old(b.warnings)
    ensures FlagsKept(old(b.buildFlags), b.buildFlags)
    ensures r == (var n :- NameRule(old(b.stateHistory), id); Resolved(old(b.Flag(ResolveKey)), n, b.legacy))
  {
    if id in Reserved {
      return Err(Unmodelled);
    }
    var v :- b.GetStateKey(id);
    if !v.TyVal? {
      return Err(Unmodelled);
    }
    r := MaybeResolve(b, id, v.t);
  }

  // ------------------------------------------------------------ operators

  /** `BinOp`: both operands under the current flag, then arithmetic on
      numbers or `string-append` on strings, the text passed through the
      textual flattening as written (`BinOpTextAsWritten`). Under `__resolveAsIf__`
      the operands are tests (booleans), so a binary operation can never be
      the test of an `if`. */
  method LowerBinOp(b: Builder, e: Expr) returns (r: Result<(string, Ty)>, ghost left: Option<(string, Ty)>, ghost right: Option<(string, Ty)>)
    requires b.Valid() && e.BinOp?
    modifies b
    decreases ExprSize(e), 5
    ensures b.Valid()
    ensures r.Ok? ==> b.stateHistory == old(b.stateHistory)
    ensures FlagsKept(old(b.buildFlags), b.buildFlags) && old(b.warnings) <= b.warnings
    ensures old(b.Flag(ResolveKey)) ==> r.Err?
    ensures r.Ok? ==> left.Some? && right.Some?
    ensures left.Some? && right.Some? ==> r == BinOpRule(e.op, left.value, right.value)
    ensures r.Ok? ==> r.value.1 in {Int, Float, Str}
    ensures r.Ok? ==> (r.value.1 == Int <==> left.value.1 == Int && right.value.1 == Int)
    ensures r.Ok? ==> (r.value.1 == Str <==> left.value.1 == Str && right.value.1 == Str && e.op == Add)
  {
    right := None;
    var l := LowerExpr(b, e.left);
    if l.Err? {
      left := None;
      r := Err(l.error);
      return;
    }
    left := Some(l.value);
    r, right := BinOpRight(b, e, l.value);
  }

  /** The second half of `BinOp`, once the left operand is lowered; the
      ghost `right` is the lowered right operand, when lowering it succeeds. */
  method BinOpRight(b: Builder, e: Expr, l: (string, Ty)) returns (r: Result<(string, Ty)>, ghost right: Option<(string, Ty)>)
    requires b.Valid() && e.BinOp?
    requires b.Flag(ResolveKey) ==> IsTestType(l.1)
    modifies b
    decreases ExprSize(e), 4
    ensures b.Valid()
    ensures r.Ok? ==> b.stateHistory == old(b.stateHistory)
    ensures FlagsKept(old(b.buildFlags), b.buildFlags) && old(b.warnings) <= b.warnings
    ensures old(b.Flag(ResolveKey)) ==> r.Err?
    ensures r.Ok? ==> right.Some?
    ensures right.Some? ==> r == BinOpRule(e.op, l, right.value)
    ensures r.Ok? ==> r.value.1 in {Int, Float, Str}
    ensures r.Ok? ==> (r.value.1 == Int <==> l.1 == Int && right.value.1 == Int)
  {
    var rt := LowerExpr(b, e.right);
    if rt.Err? {
      right := None;
      r := Err(rt.error);
      return;
    }
    right := Some(rt.value);
    r := BinOpRule(e.op, l, rt.value);
  }

  /** `UnaryOp`: `+`/`-` on numbers and `not` on booleans; the operand is
      lowered outside the test. In a test, `not x` on any other testable
      value negates x's resolved test, as written (`NotTestAsWritten`). */
  method LowerUnary(b: Builder, e: Expr) returns (r: Result<(string, Ty)>, ghost operand: Option<(string, Ty)>)
    requires b.Valid() && e.UnaryOp?
    modifies b
    decreases ExprSize(e), 5
    ensures b.Valid()
    ensures r.Ok? ==> b.stateHistory == old(b.stateHistory)
    ensures FlagsKept(old(b.buildFlags), b.buildFlags) && old(b.warnings) <= b.warnings
    ensures r.Ok? ==> operand.Some?
    ensures r.Ok? && old(b.Flag(ResolveKey)) ==> IsTestType(r.value.1)
    ensures r.Ok? && !old(b.Flag(ResolveKey)) ==>
      (IsNumber(r.value.1) && e.uop in {UAdd, USub}) || (r.value.1 == Bool && e.uop == Not)
    ensures r.Ok? && !old(b.Flag(ResolveKey)) ==>
      r.value.1 == operand.value.1 &&
      UnaryCore(e.uop, operand.value.0, operand.value.1, e.operand.Constant?) == Ok(Some(r.value))
    ensures (r.Ok? && old(b.Flag(ResolveKey)) &&
      UnaryCore(e.uop, operand.value.0, operand.value.1, e.operand.Constant?) == Ok(None)) ==>
      NotTestAsWritten(operand.value.0, operand.value.1, b.legacy).Ok? &&
      r.value == (NotTestAsWritten(operand.value.0, operand.value.1, b.legacy).value, Null)
  {
    var x := LowerWith(b, ResolveKey, FlagVal(false), e.operand);
    if x.Err? {
      operand := None;
      r := Err(x.error);
      return;
    }
    operand := Some(x.value);
    assert b.Flag(ResolveKey) == old(b.Flag(ResolveKey));
    r := UnaryFinish(b, e, x.value);
  }

  /** The rest of `UnaryOp`, once the operand is lowered. */
  method UnaryFinish(b: Builder, e: Expr, x: (string, Ty)) returns (r: Result<(string, Ty)>)
    requires b.Valid() && e.UnaryOp?
    modifies b
    ensures b.Valid()
    ensures r.Ok? ==> b.stateHistory == old(b.stateHistory)
    ensures FlagsKept(old(b.buildFlags), b.buildFlags) && old(b.warnings) <= b.warnings
    ensures r.Ok? && old(b.Flag(ResolveKey)) ==> IsTestType(r.value.1)
    ensures r.Ok? && !old(b.Flag(ResolveKey)) ==>
      (IsNumber(r.value.1) && e.uop in {UAdd, USub}) || (r.value.1 == Bool && e.uop == Not)
    ensures r.Ok? && !old(b.Flag(ResolveKey)) ==>
      r.value.1 == x.1 && UnaryCore(e.uop, x.0, x.1, e.operand.Constant?) == Ok(Some(r.value))
    ensures r.Ok? && old(b.Flag(ResolveKey)) && UnaryCore(e.uop, x.0, x.1, e.operand.Constant?) == Ok(None) ==>
      NotTestAsWritten(x.0, x.1, b.legacy).Ok? && r.value == (NotTestAsWritten(x.0, x.1, b.legacy).value, Null)
  {
    var core :- UnaryCore(e.uop, x.0, x.1, e.operand.Constant?);
    UnaryTyping(e.uop, x.0, x.1, e.operand.Constant?);
    if b.Flag(ResolveKey) {
      if core.Some? {
        r := MaybeResolve(b, core.value.0, core.value.1);
      } else {
        var sym :- UnarySymbol(e.uop);
        if sym != "not" {
          return Err(TypeError);
        }
        b.SetFlag(NOT_EQUAL);
        var test :- NotTestAsWritten(x.0, x.1, b.legacy);
        r := Ok((test, Null));
      }
    } else {
      if core.None? {
        return Err(TypeError);
      }
      r := Ok(core.value);
    }
  }

  // ------------------------------------------------------------ calls

  /** `Call`: dispatch on the callee's text (outside the test) to the
      resolvers of the builtins, to a list method for `name.attr(...)`, or to
      an ordinary call; then resolve in a test. */
  method LowerCall(b: Builder, e: Expr) returns (r: Result<(string, Ty)>)
    requires b.Valid() && e.Call?
    modifies b
    decreases ExprSize(e), 5
    ensures b.Valid()
    ensures r.Ok? ==> b.stateHistory == old(b.stateHistory)
    ensures FlagsKept(old(b.buildFlags), b.buildFlags) && old(b.warnings) <= b.warnings
    ensures r.Ok? && old(b.Flag(ResolveKey)) ==> IsTestType(r.value.1)
    ensures r.Ok? && e.func.Name? && !IsSpecialCall(e.func.id) ==>
      Callee(old(b.stateHistory), e.func.id).Some?
      && ArityCheck(|Callee(old(b.stateHistory), e.func.id).value.args|,
                    |Callee(old(b.stateHistory), e.func.id).value.kwArgs|,
                    Callee(old(b.stateHistory), e.func.id).value.vararg, |e.args|, |e.keywords|).Ok?
    ensures r.Ok? && e.func.Name? && !IsSpecialCall(e.func.id) && !old(b.Flag(ResolveKey)) ==>
      r.value.1 == Callee(old(b.stateHistory), e.func.id).value.ret
  {
    ghost var h := b.stateHistory;
    var saved := b.TempEnter(ResolveKey, FlagVal(false));
    var inner :- CallInner(b, e);
    b.TempExit(ResolveKey, saved);
    TempStackRoundTrip(h, ResolveKey, FlagVal(false));
    if e.func.Name? {
      LookupOtherKey(h, ResolveKey, FlagVal(false), e.func.id);
    }
    r := MaybeResolve(b, inner.0, inner.1);
  }

  /** The dispatch of `Call`, outside the test: a list method, a builtin
      named by the callee's text, or an ordinary call. */
  method CallInner(b: Builder, e: Expr) returns (r: Result<(string, Ty)>)
    requires b.Valid() && e.Call? && !b.Flag(ResolveKey)
    modifies b
    decreases ExprSize(e), 4
    ensures b.Valid()
    ensures r.Ok? ==> b.stateHistory == old(b.stateHistory)
    ensures FlagsKept(old(b.buildFlags), b.buildFlags) && old(b.warnings) <= b.warnings
    ensures r.Ok? && e.func.Name? ==> e.func.id != ResolveKey
    ensures r.Ok? && e.func.Name? && !IsSpecialCall(e.func.id) ==>
      Callee(old(b.stateHistory), e.func.id).Some?
      && ArityCheck(|Callee(old(b.stateHistory), e.func.id).value.args|,
                    |Callee(old(b.stateHistory), e.func.id).value.kwArgs|,
                    Callee(old(b.stateHistory), e.func.id).value.vararg, |e.args|, |e.keywords|).Ok?
      && r.value.1 == Callee(old(b.stateHistory), e.func.id).value.ret
  {
    if e.func.Attribute? {
      r := CallAttribute(b, e);
      return;
    }
    var f :- LowerExpr(b, e.func);
    if e.func.Name? {
      assert f.0 == e.func.id && e.func.id !in Reserved;
    }
    r := CallBuiltin(b, e, f.0);
  }

  /** The builtins' resolvers, chosen by the callee's text; any other callee
      is an ordinary call. */
  method CallBuiltin(b: Builder, e: Expr, fname: string) returns (r: Result<(string, Ty)>)
    requires b.Valid() && e.Call? && !b.Flag(ResolveKey)
    modifies b
    decreases ExprSize(e), 3
    ensures b.Valid()
    ensures r.Ok? ==> b.stateHistory == old(b.stateHistory)
    ensures FlagsKept(old(b.buildFlags), b.buildFlags) && old(b.warnings) <= b.warnings
    ensures r.Ok? && e.func == Name(fname) && !IsSpecialCall(fname) ==>
      Callee(old(b.stateHistory), fname).Some?
      && ArityCheck(|Callee(old(b.stateHistory), fname).value.args|,
                    |Callee(old(b.stateHistory), fname).value.kwArgs|,
                    Callee(old(b.stateHistory), fname).value.vararg, |e.args|, |e.keywords|).Ok?
      && r.value.1 == Callee(old(b.stateHistory), fname).value.ret
  {
    var conv := ConverterNamed(fname);
    if fname == "print" {
      r := CallPrint(b, e);
    } else if fname == "range" {
      r := CallRange(b, e);
    } else if fname == "input" {
      r := CallInput(b, e);
    } else if fname == "len" {
      r := CallLen(b, e);
    } else if conv.Some? {
      r := CallConvert(b, e, conv.value);
    } else {
      r := CallNormal(b, e);
    }
  }

  /** `CallResolver.normal`: the callee must be bound to a function type;
      positional arguments must match its parameters in number (at least as
      many with a variadic parameter) and type, keyword arguments must name
      keyword parameters of compatible type. The call has the function's
      return type. */
  method CallNormal(b: Builder, e: Expr) returns (r: Result<(string, Ty)>)
    requires b.Valid() && e.Call? && !b.Flag(ResolveKey)
    modifies b
    decreases ExprSize(e), 0
    ensures b.Valid()
    ensures r.Ok? ==> b.stateHistory == old(b.stateHistory)
    ensures FlagsKept(old(b.buildFlags), b.buildFlags) && old(b.warnings) <= b.warnings
    ensures r.Ok? && e.func.Name? ==>
      Callee(old(b.stateHistory), e.func.id).Some?
      && ArityCheck(|Callee(old(b.stateHistory), e.func.id).value.args|,
                    |Callee(old(b.stateHistory), e.func.id).value.kwArgs|,
                    Callee(old(b.stateHistory), e.func.id).value.vararg, |e.args|, |e.keywords|).Ok?
      && r.value.1 == Callee(old(b.stateHistory), e.func.id).value.ret
  {
    var f :- LowerExpr(b, e.func);
    var fv :- b.GetStateKey(f.0);
    if !(fv.TyVal? && fv.t.TFunction?) {
      return Err(AttributeError);
    }
    var ft := fv.t;
    var arity :- ArityCheck(|ft.args|, |ft.kwArgs|, ft.vararg, |e.args|, |e.keywords|);
    var text :- CallArguments(b, e.args, e.keywords, ft);
    r := Ok((CallText(f.0, text), ft.ret));
  }

  /** The arguments of an ordinary call, checked against the callee's type
      and joined into the argument text. */
  method CallArguments(b: Builder, es: seq<Expr>, ks: seq<Keyword>, ft: Ty) returns (r: Result<string>)
    requires b.Valid() && ft.TFunction? && |ft.args| <= |es|
    modifies b
    decreases ExprsSize(es) + KeywordsSize(ks) + 1, 8
    ensures b.Valid()
    ensures r.Ok? ==> b.stateHistory == old(b.stateHistory)
    ensures FlagsKept(old(b.buildFlags), b.buildFlags) && old(b.warnings) <= b.warnings
  {
    var args :- LowerAll(b, es);
    var posOk := CheckArguments(b, TypesOf(args)[..|ft.args|], ft.args);
    if !posOk {
      return Err(TypeError);
    }
    var kws :- LowerKeywords(b, ks);
    var text :- AppendKeywords(b, AppendArgs("", Texts(args)), kws, ft.kwArgs);
    r := Ok(text);
  }

  /** The positional argument check: each argument's type against its
      parameter's, in order, stopping at the first mismatch. */
  method CheckArguments(b: Builder, argTypes: seq<Ty>, params: seq<Ty>) returns (ok: bool)
    requires b.Valid() && |argTypes| == |params|
    modifies b
    ensures b.Valid() && b.stateHistory == old(b.stateHistory) && b.buildFlags == old(b.buildFlags)
    ensures old(b.warnings) <= b.warnings
    ensures ok <==> forall i :: 0 <= i < |params| ==> Compatible(argTypes[i], params[i])
  {
    var i := 0;
    while i < |params|
      invariant 0 <= i <= |params|
      invariant b.Valid() && b.stateHistory == old(b.stateHistory) && b.buildFlags == old(b.buildFlags)
      invariant old(b.warnings) <= b.warnings
      invariant forall k :: 0 <= k < i ==> Compatible(argTypes[k], params[k])
    {
      var c := Fits(b, argTypes[i], params[i]);
      if !c {
        return false;
      }
      i := i + 1;
    }
    ok := true;
  }

  /** Check one keyword argument against the keyword parameters. */
  method KeywordFits(b: Builder, params: seq<(string, Ty)>, kw: (string, string, Ty)) returns (ok: bool)
    requires b.Valid()
    modifies b
    ensures b.Valid() && b.stateHistory == old(b.stateHistory) && b.buildFlags == old(b.buildFlags)
    ensures old(b.warnings) <= b.warnings
    ensures ok == KwFits(params, kw)
  {
    var kt := KwLookup(params, kw.0);
    if kt.None? {
      return false;
    }
    ok := Fits(b, kw.2, kt.value);
  }

  /** The texts of the keyword arguments. */
  function KwTexts(kws: seq<(string, string, Ty)>): (r: seq<string>)
    ensures |r| == |kws| && forall i :: 0 <= i < |kws| ==> r[i] == kws[i].1
  {
    seq(|kws|, i requires 0 <= i < |kws| => kws[i].1)
  }

  /** The keyword argument check: each keyword must name a keyword parameter
      whose type it fits; its text is appended to the argument string. */
  method AppendKeywords(b: Builder, args: string, kws: seq<(string, string, Ty)>, params: seq<(string, Ty)>)
    returns (r: Result<string>)
    requires b.Valid()
    modifies b
    ensures b.Valid() && b.stateHistory == old(b.stateHistory) && b.buildFlags == old(b.buildFlags)
    ensures old(b.warnings) <= b.warnings
    ensures r.Ok? <==> forall i :: 0 <= i < |kws| ==> KwFits(params, kws[i])
    ensures r.Ok? ==> r.value == AppendArgs(args, KwTexts(kws))
  {
    var text := args;
    var j := 0;
    while j < |kws|
      invariant 0 <= j <= |kws|
      invariant b.Valid() && b.stateHistory == old(b.stateHistory) && b.buildFlags == old(b.buildFlags)
      invariant old(b.warnings) <= b.warnings
      invariant forall i :: 0 <= i < j ==> KwFits(params, kws[i])
      invariant text == AppendArgs(args, KwTexts(kws[..j]))
    {
      var c := KeywordFits(b, params, kws[j]);
      if !c {
        return Err(TypeError);
      }
      KwTextsStep(args, kws, j);
      text := AppendArg(text, kws[j].1);
      j := j + 1;
    }
    assert kws[..j] == kws;
    r := Ok(text);
  }

  /** Appending one more keyword's text extends the texts appended so far. */
  lemma KwTextsStep(args: string, kws: seq<(string, string, Ty)>, j: nat)
    requires j < |kws|
    ensures AppendArgs(args, KwTexts(kws[..j + 1])) == AppendArg(AppendArgs(args, KwTexts(kws[..j])), kws[j].1)
  {
    assert KwTexts(kws[..j + 1]) == KwTexts(kws[..j]) + [kws[j].1];
    AppendArgsSnoc(args, KwTexts(kws[..j]), kws[j].1);
  }

  /** `keyword` for every keyword argument: its name (read back from its
      text), its text `#:name value` and its type. */
  method LowerKeywords(b: Builder, ks: seq<Keyword>) returns (r: Result<seq<(string, string, Ty)>>)
    requires b.Valid()
    modifies b
    decreases KeywordsSize(ks), 7
    ensures b.Valid()
    ensures r.Ok? ==> b.stateHistory == old(b.stateHistory) && |r.value| == |ks|
    ensures FlagsKept(old(b.buildFlags), b.buildFlags) && old(b.warnings) <= b.warnings
    ensures r.Ok? ==> forall i :: 0 <= i < |ks| ==>
      r.value[i].0 == KeywordName(r.value[i].1)
      && ((forall k :: 0 <= k < |ks[i].arg| ==> ks[i].arg[k] != ' ') ==> r.value[i].0 == ks[i].arg)
  {
    var out: seq<(string, string, Ty)> := [];
    var i := 0;
    while i < |ks|
      invariant 0 <= i <= |ks| && |out| == i
      invariant b.Valid() && b.stateHistory == old(b.stateHistory)
      invariant FlagsKept(old(b.buildFlags), b.buildFlags) && old(b.warnings) <= b.warnings
      invariant forall j :: 0 <= j < i ==>
        out[j].0 == KeywordName(out[j].1)
        && ((forall k :: 0 <= k < |ks[j].arg| ==> ks[j].arg[k] != ' ') ==> out[j].0 == ks[j].arg)
    {
      KeywordInSize(ks, i);
      var one :- LowerKeyword(b, ks[i]);
      out := out + [one];
      i := i + 1;
    }
    r := Ok(out);
  }

  /** One keyword argument: its name, its `#:name value` text and its type. */
  method LowerKeyword(b: Builder, k: Keyword) returns (r: Result<(string, string, Ty)>)
    requires b.Valid()
    modifies b
    decreases ExprSize(k.value), 8
    ensures b.Valid()
    ensures r.Ok? ==> b.stateHistory == old(b.stateHistory)
    ensures FlagsKept(old(b.buildFlags), b.buildFlags) && old(b.warnings) <= b.warnings
    ensures r.Ok? ==> (r.value.0 == KeywordName(r.value.1)
      && ((forall j :: 0 <= j < |k.arg| ==> k.arg[j] != ' ') ==> r.value.0 == k.arg))
  {
    var v :- LowerExpr(b, k.value);
    var text := KeywordText(k.arg, v.0);
    if forall j :: 0 <= j < |k.arg| ==> k.arg[j] != ' ' {
      KeywordNameRoundTrip(k.arg, v.0);
    }
    r := Ok((KeywordName(text), text, v.1));
  }

  /** `print(...)`: switch on the print snippet and call `PRINT`. */
  method CallPrint(b: Builder, e: Expr) returns (r: Result<(string, Ty)>)
    requires b.Valid() && e.Call? && !b.Flag(ResolveKey)
    modifies b
    decreases ExprSize(e), 2
    ensures b.Valid()
    ensures r.Ok? ==> b.stateHistory == old(b.stateHistory)
    ensures FlagsKept(old(b.buildFlags), b.buildFlags) && old(b.warnings) <= b.warnings
    ensures PRINT in b.buildFlags && b.buildFlags[PRINT]
  {
    b.SetFlag(PRINT);
    var renamed := if e.func.Name? then e.(func := Name("PRINT")) else e;
    assert ExprSize(renamed) == ExprSize(e);
    r := CallNormal(b, renamed);
  }

  /** `range(...)`: one to three arguments, each deduced to be an int. */
  method CallRange(b: Builder, e: Expr) returns (r: Result<(string, Ty)>)
    requires b.Valid() && e.Call? && !b.Flag(ResolveKey)
    modifies b
    decreases ExprSize(e), 2
    ensures b.Valid()
    ensures r.Ok? ==> b.stateHistory == old(b.stateHistory)
    ensures FlagsKept(old(b.buildFlags), b.buildFlags) && old(b.warnings) <= b.warnings
    ensures r.Ok? ==> 1 <= |e.args| <= 3
  {
    if !(0 < |e.args| < 4) {
      return Err(TypeError);
    }
    var allInt :- DeduceAllCompatible(b, e, Int);
    if !allInt {
      return Err(TypeError);
    }
    r := CallNormal(b, e);
  }

  /** `input(...)`: at most one argument, deduced to be a string; with none,
      the empty prompt `""` is passed. */
  method CallInput(b: Builder, e: Expr) returns (r: Result<(string, Ty)>)
    requires b.Valid() && e.Call? && !b.Flag(ResolveKey)
    modifies b
    decreases ExprSize(e), 2
    ensures b.Valid()
    ensures r.Ok? ==> b.stateHistory == old(b.stateHistory)
    ensures FlagsKept(old(b.buildFlags), b.buildFlags) && old(b.warnings) <= b.warnings
    ensures INPUT in b.buildFlags && b.buildFlags[INPUT]
    ensures r.Ok? ==> |e.args| <= 1
  {
    b.SetFlag(INPUT);
    if !(|e.args| < 2) {
      return Err(TypeError);
    }
    var allStr :- DeduceAllCompatible(b, e, Str);
    if !allStr {
      return Err(TypeError);
    }
    var withPrompt := if e.args == [] then e.(args := [Constant(CStr(""))]) else e;
    assert ExprSize(withPrompt) == ExprSize(e);
    r := CallNormal(b, withPrompt);
  }

  /** Deduce every argument's type (all of them, as the list comprehension
      does) and report whether each is compatible with `t`. */
  method DeduceAllCompatible(b: Builder, e: Expr, t: Ty) returns (r: Result<bool>)
    requires b.Valid() && e.Call?
    modifies b
    decreases ExprSize(e), 0
    ensures b.Valid()
    ensures r.Ok? ==> b.stateHistory == old(b.stateHistory)
    ensures FlagsKept(old(b.buildFlags), b.buildFlags) && old(b.warnings) <= b.warnings
  {
    var all := true;
    var i := 0;
    while i < |e.args|
      invariant 0 <= i <= |e.args|
      invariant b.Valid() && b.stateHistory == old(b.stateHistory)
      invariant FlagsKept(old(b.buildFlags), b.buildFlags) && old(b.warnings) <= b.warnings
    {
      ExprInSize(e.args, i);
      var at :- DeduceType(b, Some(e.args[i]));
      var ok := Fits(b, at, t);
      all := all && ok;
      i := i + 1;
    }
    r := Ok(all);
  }

  /** `len(x)`: the length of a string, a list or (newer snapshot) a tuple. */
  method CallLen(b: Builder, e: Expr) returns (r: Result<(string, Ty)>)
    requires b.Valid() && e.Call? && !b.Flag(ResolveKey)
    modifies b
    decreases ExprSize(e), 2
    ensures b.Valid()
    ensures r.Ok? ==> b.stateHistory == old(b.stateHistory)
    ensures FlagsKept(old(b.buildFlags), b.buildFlags) && old(b.warnings) <= b.warnings
    ensures r.Ok? ==> |e.args| == 1 && r.value.1 == Int
  {
    if |e.args| != 1 {
      return Err(TypeError);
    }
    ExprInSize(e.args, 0);
    var a :- LowerExpr(b, e.args[0]);
    var text :- LenText(a.0, a.1, b.legacy);
    r := Ok((text, Int));
  }

  /** `int(x)`, `float(x)`, `str(x)`, `bool(x)`: one scalar argument (or, in
      the newer snapshot, an unknown tuple element, with a warning unless
      values are being skipped); the result has the converter's class. */
  method CallConvert(b: Builder, e: Expr, c: Converter) returns (r: Result<(string, Ty)>)
    requires b.Valid() && e.Call? && !b.Flag(ResolveKey)
    modifies b
    decreases ExprSize(e), 2
    ensures b.Valid()
    ensures r.Ok? ==> b.stateHistory == old(b.stateHistory)
    ensures FlagsKept(old(b.buildFlags), b.buildFlags) && old(b.warnings) <= b.warnings
    ensures ConverterFlag(c) in b.buildFlags && b.buildFlags[ConverterFlag(c)]
    ensures r.Ok? ==> |e.args| == 1 && r.value.1 == ConverterResult(c)
  {
    b.SetFlag(ConverterFlag(c));
    if |e.args| != 1 {
      return Err(TypeError);
    }
    ExprInSize(e.args, 0);
    var a :- LowerExpr(b, e.args[0]);
    var unchecked :- ConvertCheck(c, a.1, b.legacy);
    if unchecked && !b.Flag(SkipKey) {
      b.Warn(UncheckedAny);
    }
    r := Ok(("(" + ConverterName(c) + " " + a.0 + ")", ConverterResult(c)));
  }

  /** `name.append(x)`, `name.pop(i)`, `name.insert(i, x)` on a list
      variable: the element must fit the list's element type and the index
      must be an int (wrapped for negative values). */
  method CallAttribute(b: Builder, e: Expr) returns (r: Result<(string, Ty)>)
    requires b.Valid() && e.Call? && e.func.Attribute? && !b.Flag(ResolveKey)
    modifies b
    decreases ExprSize(e), 2
    ensures b.Valid()
    ensures r.Ok? ==> b.stateHistory == old(b.stateHistory)
    ensures FlagsKept(old(b.buildFlags), b.buildFlags) && old(b.warnings) <= b.warnings
    ensures r.Ok? ==> e.func.value.Name? && e.func.attr in {"append", "pop", "insert"}
    ensures r.Ok? ==> var n := NameRule(old(b.stateHistory), e.func.value.id);
      n.Ok? && n.value.1.TList?
      && (e.func.attr == "pop" ==> r.value.1 == n.value.1.contained)
      && (e.func.attr != "pop" ==> r.value.1 == Null)
  {
    if !e.func.value.Name? {
      return Err(TypeError);
    }
    var n :- LowerExpr(b, e.func.value);
    if !n.1.TList? {
      return Err(TypeError);
    }
    if e.func.attr == "append" {
      r := ListAppend(b, e, n.0, n.1.contained);
    } else if e.func.attr == "pop" {
      r := ListPop(b, e, n.0, n.1.contained);
    } else if e.func.attr == "insert" {
      r := ListInsert(b, e, n.0, n.1.contained);
    } else {
      r := Err(AttributeError);
    }
  }

  /** `name.append(x)`: `x` must fit the element type. */
  method ListAppend(b: Builder, e: Expr, name: string, contained: Ty) returns (r: Result<(string, Ty)>)
    requires b.Valid() && e.Call? && e.func.Attribute?
    modifies b
    decreases ExprSize(e), 1
    ensures b.Valid()
    ensures r.Ok? ==> b.stateHistory == old(b.stateHistory)
    ensures FlagsKept(old(b.buildFlags), b.buildFlags) && old(b.warnings) <= b.warnings
    ensures |e.args| != 1 ==> r == Err(ValueError)
    ensures r.Ok? ==> r.value.1 == Null
  {
    if |e.args| != 1 {
      return Err(ValueError);
    }
    ExprInSize(e.args, 0);
    var v :- LowerExpr(b, e.args[0]);
    var ok := Fits(b, v.1, contained);
    if !ok {
      return Err(TypeError);
    }
    r := Ok(("(gvector-add! " + name + " " + v.0 + ")", Null));
  }

  /** `name.pop(i)`: an int index, wrapped for negative values; the result
      is an element. */
  method ListPop(b: Builder, e: Expr, name: string, contained: Ty) returns (r: Result<(string, Ty)>)
    requires b.Valid() && e.Call? && e.func.Attribute?
    modifies b
    decreases ExprSize(e), 1
    ensures b.Valid()
    ensures r.Ok? ==> b.stateHistory == old(b.stateHistory)
    ensures FlagsKept(old(b.buildFlags), b.buildFlags) && old(b.warnings) <= b.warnings
    ensures |e.args| != 1 ==> r == Err(ValueError)
    ensures r.Ok? ==> r.value.1 == contained
  {
    if |e.args| != 1 {
      return Err(ValueError);
    }
    ExprInSize(e.args, 0);
    var ix :- LowerExpr(b, e.args[0]);
    if ix.1 != Int {
      return Err(TypeError);
    }
    r := Ok(("(gvector-pop! " + name + " " + WrapIndex("gvector-count", name, ix.0) + ")", contained));
  }

  /** `name.insert(i, x)`: an int index and an element that fits. */
  method ListInsert(b: Builder, e: Expr, name: string, contained: Ty) returns (r: Result<(string, Ty)>)
    requires b.Valid() && e.Call? && e.func.Attribute?
    modifies b
    decreases ExprSize(e), 1
    ensures b.Valid()
    ensures r.Ok? ==> b.stateHistory == old(b.stateHistory)
    ensures FlagsKept(old(b.buildFlags), b.buildFlags) && old(b.warnings) <= b.warnings
    ensures |e.args| != 2 ==> r == Err(ValueError)
    ensures r.Ok? ==> r.value.1 == Null
  {
    if |e.args| != 2 {
      return Err(ValueError);
    }
    ExprInSize(e.args, 0);
    var ix :- LowerExpr(b, e.args[0]);
    if ix.1 != Int {
      return Err(TypeError);
    }
    r := InsertValue(b, e, name, contained, ix.0);
  }

  /** The value argument of `name.insert(i, x)`, once the index is lowered:
      it must fit the list's element type. */
  method InsertValue(b: Builder, e: Expr, name: string, contained: Ty, ix: string) returns (r: Result<(string, Ty)>)
    requires b.Valid() && e.Call? && |e.args| == 2
    modifies b
    decreases ExprSize(e), 0
    ensures b.Valid()
    ensures r.Ok? ==> b.stateHistory == old(b.stateHistory)
    ensures FlagsKept(old(b.buildFlags), b.buildFlags) && old(b.warnings) <= b.warnings
    ensures r.Ok? ==> r.value.1 == Null
  {
    ExprInSize(e.args, 1);
    var v :- LowerExpr(b, e.args[1]);
    var ok := Fits(b, v.1, contained);
    if !ok {
      return Err(TypeError);
    }
    r := Ok(("(gvector-insert! " + name + " " + WrapIndex("gvector-count", name, ix) + " " + v.0 + ")", Null));
  }

  // ------------------------------------------------------------ comparisons

  /** A comparison operator node: its symbol, switching on the snippet it
      needs. */
  method LowerCmpOp(b: Builder, op: CmpOp) returns (r: Result<string>)
    requires b.Valid()
    modifies b
    ensures b.Valid() && b.stateHistory == old(b.stateHistory) && b.warnings == old(b.warnings)
    ensures FlagsKept(old(b.buildFlags), b.buildFlags)
    ensures r == CmpSymbol(op, b.legacy)
    ensures r.Ok? && CmpFlag(op, b.legacy).Some? ==>
      CmpFlag(op, b.legacy).value in b.buildFlags && b.buildFlags[CmpFlag(op, b.legacy).value]
  {
    r := CmpSymbol(op, b.legacy);
    var f := CmpFlag(op, b.legacy);
    if r.Ok? && f.Some? {
      b.SetFlag(f.value);
    }
  }

  /** `determineOp`, with the warning for an unknown tuple element. */
  method CompareOp(b: Builder, sym: string, t1: Ty, t2: Ty) returns (r: Result<string>)
    requires b.Valid()
    modifies b
    ensures b.Valid() && b.stateHistory == old(b.stateHistory) && b.buildFlags == old(b.buildFlags)
    ensures old(b.warnings) <= b.warnings
    ensures r.Ok? <==> DetermineOp(sym, t1, t2, b.legacy).Ok?
    ensures r.Ok? ==> r.value == DetermineOp(sym, t1, t2, b.legacy).value.0
  {
    var d :- DetermineOp(sym, t1, t2, b.legacy);
    if d.1 {
      b.Warn(UncheckedAny);
    }
    r := Ok(d.0);
  }

  /** `Compare`, outside the test: `(op a b)` for one operator, and
      `(and (op1 a b)(op2 b c)...)` for a chain `a op1 b op2 c ...`. A
      comparison is always a boolean. */
  method LowerCompare(b: Builder, e: Expr) returns (r: Result<(string, Ty)>)
    requires b.Valid() && e.Compare?
    modifies b
    decreases ExprSize(e), 5
    ensures b.Valid()
    ensures r.Ok? ==> b.stateHistory == old(b.stateHistory)
    ensures FlagsKept(old(b.buildFlags), b.buildFlags) && old(b.warnings) <= b.warnings
    ensures r.Ok? ==> r.value.1 == Bool && |e.ops| >= 1 && |e.comparators| >= |e.ops|
    ensures r.Ok? ==> forall i :: 0 <= i < |e.ops| ==> CmpSymbol(e.ops[i], b.legacy).Ok?
  {
    ghost var h := b.stateHistory;
    var saved := b.TempEnter(ResolveKey, FlagVal(false));
    var text :- CompareChain(b, e);
    b.TempExit(ResolveKey, saved);
    TempStackRoundTrip(h, ResolveKey, FlagVal(false));
    r := Ok((text, Bool));
  }

  /** The text of a comparison chain, outside the test. */
  method CompareChain(b: Builder, e: Expr) returns (r: Result<string>)
    requires b.Valid() && e.Compare? && !b.Flag(ResolveKey)
    modifies b
    decreases ExprSize(e), 2
    ensures b.Valid()
    ensures r.Ok? ==> b.stateHistory == old(b.stateHistory)
    ensures FlagsKept(old(b.buildFlags), b.buildFlags) && old(b.warnings) <= b.warnings
    ensures r.Ok? ==> |e.ops| >= 1 && |e.comparators| >= |e.ops|
    ensures r.Ok? ==> forall i :: 0 <= i < |e.ops| ==> CmpSymbol(e.ops[i], b.legacy).Ok?
  {
    var text :- CompareHead(b, e);
    if |e.ops| == 1 {
      return Ok(text);
    }
    var i := 1;
    while i < |e.ops|
      invariant 1 <= i <= |e.ops| && i <= |e.comparators|
      invariant b.Valid() && b.stateHistory == old(b.stateHistory)
      invariant FlagsKept(old(b.buildFlags), b.buildFlags) && old(b.warnings) <= b.warnings
      invariant forall k :: 0 <= k < i ==> CmpSymbol(e.ops[k], b.legacy).Ok?
    {
      var link :- CompareLink(b, e, i);
      text := text + link;
      i := i + 1;
    }
    r := Ok("(and " + text + ")");
  }

  /** The first link `(op left comparators[0])` of a chain. */
  method CompareHead(b: Builder, e: Expr) returns (r: Result<string>)
    requires b.Valid() && e.Compare?
    modifies b
    decreases ExprSize(e), 1
    ensures b.Valid()
    ensures r.Ok? ==> b.stateHistory == old(b.stateHistory)
    ensures FlagsKept(old(b.buildFlags), b.buildFlags) && old(b.warnings) <= b.warnings
    ensures r.Ok? ==> |e.ops| >= 1 && |e.comparators| >= 1 && CmpSymbol(e.ops[0], b.legacy).Ok?
  {
    var l :- LowerExpr(b, e.left);
    if |e.comparators| == 0 {
      return Err(IndexError);
    }
    ExprInSize(e.comparators, 0);
    var c0 :- LowerExpr(b, e.comparators[0]);
    if |e.ops| == 0 {
      return Err(IndexError);
    }
    var sym0 :- LowerCmpOp(b, e.ops[0]);
    var op0 :- CompareOp(b, sym0, l.1, c0.1);
    r := Ok("(" + op0 + " " + l.0 + " " + c0.0 + ")");
  }

  /** One link `(op b c)` of a chain: the operands `comparators[i-1]` and
      `comparators[i]` around `ops[i]`. */
  method CompareLink(b: Builder, e: Expr, i: nat) returns (r: Result<string>)
    requires b.Valid() && e.Compare? && 1 <= i < |e.ops| && i <= |e.comparators|
    modifies b
    decreases ExprSize(e), 1
    ensures b.Valid()
    ensures r.Ok? ==> b.stateHistory == old(b.stateHistory)
    ensures FlagsKept(old(b.buildFlags), b.buildFlags) && old(b.warnings) <= b.warnings
    ensures r.Ok? ==> i < |e.comparators| && CmpSymbol(e.ops[i], b.legacy).Ok?
  {
    if i >= |e.comparators| {
      return Err(IndexError);
    }
    ExprInSize(e.comparators, i - 1);
    var sym :- LowerCmpOp(b, e.ops[i]);
    var lv :- LowerExpr(b, e.comparators[i - 1]);
    r := CompareRight(b, e, i, sym, lv);
  }

  /** The right operand of one link and the link's text, once its symbol
      and left operand are lowered. */
  method CompareRight(b: Builder, e: Expr, i: nat, sym: string, lv: (string, Ty)) returns (r: Result<string>)
    requires b.Valid() && e.Compare? && 1 <= i < |e.comparators|
    modifies b
    decreases ExprSize(e), 0
    ensures b.Valid()
    ensures r.Ok? ==> b.stateHistory == old(b.stateHistory)
    ensures FlagsKept(old(b.buildFlags), b.buildFlags) && old(b.warnings) <= b.warnings
  {
    ExprInSize(e.comparators, i);
    var rv :- LowerExpr(b, e.comparators[i]);
    var op :- CompareOp(b, sym, lv.1, rv.1);
    r := Ok("(" + op + " " + lv.0 + " " + rv.0 + ")");
  }

  /** `BoolOp`: `(and a b ...)` or `(or a b ...)` over the operands'
      texts, lowered under the current flag; always a boolean. */
  method LowerBoolOp(b: Builder, e: Expr) returns (r: Result<(string, Ty)>)
    requires b.Valid() && e.BoolOp?
    modifies b
    decreases ExprSize(e), 5
    ensures b.Valid()
    ensures r.Ok? ==> b.stateHistory == old(b.stateHistory)
    ensures FlagsKept(old(b.buildFlags), b.buildFlags) && old(b.warnings) <= b.warnings
    ensures r.Ok? ==> r.value.1 == Bool
    ensures r.Ok? ==> StartsWith(r.value.0, if e.bop == And then "(and " else "(or ")
  {
    var vs :- LowerAll(b, e.values);
    var head := if e.bop == And then "(and " else "(or ";
    r := Ok((head + Join(Texts(vs), " ") + ")", Bool));
    assert (head + Join(Texts(vs), " ") + ")")[..|head|] == head;
  }

  // ------------------------------------------------------------ collections

  /** `List`: `(gvector e1 ...)`, a growable list whose element type merges
      the elements' types (pending when empty). */
  method LowerList(b: Builder, e: Expr) returns (r: Result<(string, Ty)>, ghost types: seq<Ty>)
    requires b.Valid() && e.List?
    modifies b
    decreases ExprSize(e), 5
    ensures b.Valid()
    ensures r.Ok? ==> b.stateHistory == old(b.stateHistory)
    ensures FlagsKept(old(b.buildFlags), b.buildFlags) && old(b.warnings) <= b.warnings
    ensures GROWABLE_VECTOR in b.buildFlags && b.buildFlags[GROWABLE_VECTOR]
    ensures r.Ok? ==> |types| == |e.elts| && ElementType(TPending, types, b.legacy).Ok?
    ensures ElementType(TPending, types, b.legacy).Err? ==> r.Err?
    ensures r.Ok? && old(b.Flag(ResolveKey)) ==> IsTestType(r.value.1)
    ensures r.Ok? && !old(b.Flag(ResolveKey)) ==>
      r.value.1 == TList(ElementType(TPending, types, b.legacy).value, false)
  {
    b.SetFlag(GROWABLE_VECTOR);
    var v;
    v, types := ListElements(b, e);
    if v.Err? {
      r := Err(v.error);
      return;
    }
    r := MaybeResolve(b, VectorText(v.value.0), TList(v.value.1, false));
  }

  /** The elements of a `List`, lowered outside the test one at a time,
      each element's type merged into the element type as soon as it is
      lowered (so a clash stops the rule before the next element). The
      ghost `types` are the elements' types, in order. */
  method ListElements(b: Builder, e: Expr) returns (r: Result<(seq<string>, Ty)>, ghost types: seq<Ty>)
    requires b.Valid() && e.List?
    modifies b
    decreases ExprSize(e), 4
    ensures b.Valid()
    ensures r.Ok? ==> b.stateHistory == old(b.stateHistory) && |r.value.0| == |e.elts| == |types|
    ensures r.Ok? ==> ElementType(TPending, types, b.legacy) == Ok(r.value.1)
    ensures |types| <= |e.elts|
    ensures ElementType(TPending, types, b.legacy).Err? ==>
      r.Err? && |types| >= 1 && ElementType(TPending, types[..|types| - 1], b.legacy).Ok?
    ensures FlagsKept(old(b.buildFlags), b.buildFlags) && old(b.warnings) <= b.warnings
  {
    ghost var h := b.stateHistory;
    var saved := b.TempEnter(ResolveKey, FlagVal(false));
    ghost var inner := b.stateHistory;
    var texts: seq<string> := [];
    types := [];
    var contained := TPending;
    var i := 0;
    while i < |e.elts|
      invariant 0 <= i <= |e.elts| && |texts| == i && |types| == i
      invariant b.Valid() && b.stateHistory == inner
      invariant FlagsKept(old(b.buildFlags), b.buildFlags) && old(b.warnings) <= b.warnings
      invariant ElementType(TPending, types, b.legacy) == Ok(contained)
    {
      ExprInSize(e.elts, i);
      var x :- LowerExpr(b, e.elts[i]);
      ElementTypeSnoc(TPending, types, x.1, b.legacy, contained);
      ghost var before := types;
      types := before + [x.1];
      assert types[..|types| - 1] == before;
      contained :- if b.legacy then LegacyMerge(contained, x.1) else Merge(contained, x.1, false);
      texts := texts + [x.0];
      i := i + 1;
    }
    b.TempExit(ResolveKey, saved);
    TempStackRoundTrip(h, ResolveKey, FlagVal(false));
    r := Ok((texts, contained));
  }

  /** `Tuple` (newer snapshot): `(vector-immutable e1 e2 ...)` over at least
      two elements, typed by the elements' types in order. */
  method LowerTuple(b: Builder, e: Expr) returns (r: Result<(string, Ty)>)
    requires b.Valid() && e.Tuple?
    modifies b
    decreases ExprSize(e), 5
    ensures b.Valid()
    ensures r.Ok? ==> b.stateHistory == old(b.stateHistory)
    ensures FlagsKept(old(b.buildFlags), b.buildFlags) && old(b.warnings) <= b.warnings
    ensures r.Ok? ==> |e.elts| >= 2
    ensures r.Ok? && old(b.Flag(ResolveKey)) ==> IsTestType(r.value.1)
    ensures r.Ok? && !old(b.Flag(ResolveKey)) ==> r.value.1.TTuple? && |r.value.1.elems| == |e.elts|
  {
    ghost var h := b.stateHistory;
    var saved := b.TempEnter(ResolveKey, FlagVal(false));
    var vs :- LowerAll(b, e.elts);
    if |vs| < 2 {
      return Err(ValueError);
    }
    b.TempExit(ResolveKey, saved);
    TempStackRoundTrip(h, ResolveKey, FlagVal(false));
    r := MaybeResolve(b, "(vector-immutable " + Join(Texts(vs), " ") + ")", TTuple(TypesOf(vs)));
  }

  /** `Index`: only names, literals and arithmetic may index. */
  method LowerIndex(b: Builder, x: Expr) returns (r: Result<(string, Ty)>)
    requires b.Valid()
    modifies b
    decreases ExprSize(x), 7
    ensures b.Valid()
    ensures r.Ok? ==> b.stateHistory == old(b.stateHistory)
    ensures FlagsKept(old(b.buildFlags), b.buildFlags) && old(b.warnings) <= b.warnings
    ensures !(x.Name? || x.Constant? || x.UnaryOp? || x.BinOp?) ==> r == Err(TypeError)
  {
    if !(x.Name? || x.Constant? || x.UnaryOp? || x.BinOp?) {
      return Err(TypeError);
    }
    r := LowerExpr(b, x);
  }

  /** `Subscript`: `a[i]` on a list (an int index, a literal one written as
      its number in the newer snapshot) or, in the newer snapshot, on a
      tuple (a literal index must be in range and selects that element's
      type); slices are not implemented. */
  method LowerSubscript(b: Builder, e: Expr) returns (r: Result<(string, Ty)>)
    requires b.Valid() && e.Subscript?
    modifies b
    decreases ExprSize(e), 5
    ensures b.Valid()
    ensures r.Ok? ==> b.stateHistory == old(b.stateHistory)
    ensures FlagsKept(old(b.buildFlags), b.buildFlags) && old(b.warnings) <= b.warnings
    ensures r.Ok? ==> e.slice.Index?
    ensures r.Ok? && old(b.Flag(ResolveKey)) ==> IsTestType(r.value.1)
  {
    var n :- LowerWith(b, ResolveKey, FlagVal(false), e.value);
    ghost var h := b.stateHistory;
    var saved := b.TempEnter(ResolveKey, FlagVal(false));
    var res: (string, Ty);
    if n.1.TList? || (!b.legacy && n.1.TTuple?) {
      match e.slice {
        case Index(x) =>
          assert ExprSize(x) < ExprSize(e);
          var ix :- LowerIndex(b, x);
          if n.1.TList? {
            var idx :- ListIndex(n.0, ix.0, ix.1, !b.legacy);
            res := ("(gvector-access " + n.0 + " " + idx + ")", n.1.contained);
          } else {
            res :- TupleIndex(n.0, ix.0, ix.1, n.1.elems);
          }
        case SliceRange =>
          return Err(NotImplementedError);
        case ExtSlice =>
          return Err(TypeError);
      }
    } else {
      return Err(TypeError);
    }
    b.TempExit(ResolveKey, saved);
    TempStackRoundTrip(h, ResolveKey, FlagVal(false));
    r := MaybeResolve(b, res.0, res.1);
  }

  /** `IfExp` (newer snapshot): `(if test body orelse)`, the test lowered as
      a test, the branches merged in equality mode. */
  method LowerIfExp(b: Builder, e: Expr) returns (r: Result<(string, Ty)>)
    requires b.Valid() && e.IfExp?
    modifies b
    decreases ExprSize(e), 5
    ensures b.Valid()
    ensures r.Ok? ==> b.stateHistory == old(b.stateHistory)
    ensures FlagsKept(old(b.buildFlags), b.buildFlags) && old(b.warnings) <= b.warnings
    ensures r.Ok? && old(b.Flag(ResolveKey)) ==> IsTestType(r.value.1)
  {
    ghost var on := b.Flag(ResolveKey);
    var t :- LowerWith(b, ResolveKey, FlagVal(true), e.test);
    assert b.Flag(ResolveKey) == on;
    var body :- LowerExpr(b, e.body);
    assert b.Flag(ResolveKey) == on;
    var orelse :- LowerExpr(b, e.orelse);
    var ty :- BranchType(body.1, orelse.1);
    r := Ok(("(if " + t.0 + " " + body.0 + " " + orelse.0 + ")", ty));
  }

  /** The type of a conditional expression: its branches' types merged in
      equality mode. Two tests merge into a test, and the order of the
      branches does not matter. */
  function BranchType(bodyT: Ty, orelseT: Ty): (r: Result<Ty>)
    ensures IsTestType(bodyT) && IsTestType(orelseT) && r.Ok? ==> IsTestType(r.value)
    ensures r.Ok? == Merge(orelseT, bodyT, true).Ok?
  {
    MergeSymmetric(bodyT, orelseT);
    Merge(bodyT, orelseT, true)
  }

  // ------------------------------------------------------------ deduction

  /** `Typer.deduceTypeFromNode`: the type of a node without lowering it,
      except for calls, whose type is the lowered call's. A missing node is
      None; a subscript is read as an annotation. */
  method DeduceType(b: Builder, x: Option<Expr>) returns (r: Result<Ty>)
    requires b.Valid()
    modifies b
    decreases OptExprSize(x), 7
    ensures b.Valid()
    ensures r.Ok? ==> b.stateHistory == old(b.stateHistory)
    ensures FlagsKept(old(b.buildFlags), b.buildFlags) && old(b.warnings) <= b.warnings
    ensures x.None? ==> r == Ok(NoneLit)
    ensures x.Some? && x.value.Constant? ==> r == ConstantType(x.value.c)
    ensures x.Some? && x.value.Name? ==> r == (var n :- NameRule(old(b.stateHistory), x.value.id); Ok(n.1))
    ensures x.Some? && x.value.Subscript? ==> r == LiteralAnnotation(old(b.stateHistory), x.value, b.legacy)
    ensures x.Some? && x.value.Call? && !(x.value.func.Name? || x.value.func.Attribute?) ==> r == Err(TypeError)
    ensures x.Some? && !(x.value.Constant? || x.value.Name? || x.value.Subscript? || x.value.Call?) ==> r == Err(TypeError)
  {
    match x
    case None => r := Ok(NoneLit);
    case Some(node) =>
      match node {
        case Constant(c) => r := ConstantType(c);
        case Name(id) =>
          if id in Reserved {
            return Err(Unmodelled);
          }
          var v :- b.GetStateKey(id);
          if !v.TyVal? {
            return Err(Unmodelled);
          }
          r := Ok(v.t);
        case Subscript(_, _) => r := LiteralAnnotation(b.stateHistory, node, b.legacy);
        case Call(f, _, _) =>
          if !(f.Name? || f.Attribute?) {
            return Err(TypeError);
          }
          var c :- LowerExpr(b, node);
          r := Ok(c.1);
        case _ => r := Err(TypeError);
      }
  }
}
