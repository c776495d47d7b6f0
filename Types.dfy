// The type lattice of the transpiler's `Typer`: the type values that the
// builder stores in its scope, Python's `==` on them, the compatibility
// check used at every assignment, call and return, and the merge used by
// list literals, conditional expressions and rebinding. Both snapshots of
// the builder share these definitions except where `legacy` is named.

module Types {
  import opened Wrappers

  /** A value the builder uses as a type. Python mixes classes (`int`),
      the value `None`, `typing.Any` and instances of Typer's own classes;
      each of them is one constructor here. */
  datatype Ty =
    | Bool | Int | Float | Str          // the classes bool, int, float, str
    | NoneLit                            // the value None (an empty return annotation)
    | NoneType                           // type(None), from a `-> None` annotation
    | RawList                            // the class list
    | TypingAny                          // typing.Any
    | ListClass                          // the class Typer.TList itself
    | TupleClass                         // the class Typer.TTuple itself
    | AnnotationSentinel                 // the function _Typer.error, returned (not called)
                                         // for an unknown annotation name
    | TypeList(items: seq<Ty>)           // a Python list of types (a tuple annotation)
    | Null                               // Typer.Null(): the type of a bare string result
    | TPending                           // Typer.TPending(): declared, not yet known
    | TAny                               // Typer.TAny(): unknown element of a tuple
    | TList(contained: Ty, native: bool)
    | TTuple(elems: seq<Ty>)
    | TFunction(args: seq<Ty>, kwArgs: seq<(string, Ty)>, vararg: bool, ret: Ty)
    | TUnion(anyOf: seq<Ty>)
    | TOptional(optOf: Ty)

  /** Instances of Typer.T whose `__dict__` is empty. */
  predicate Fieldless(t: Ty)
  {
    t.Null? || t.TPending? || t.TAny?
  }

  /** Instances of Typer.T (everything else is a class or a plain value). */
  predicate IsTInstance(t: Ty)
  {
    Fieldless(t) || t.TList? || t.TTuple? || t.TFunction? || t.TUnion? || t.TOptional?
  }

  predicate IsNumber(t: Ty)
  {
    t == Int || t == Float
  }

  /** Python's `a == b` on type values. `Typer.T.__eq__` compares the
      instances' `__dict__`s whatever their class, so the three field-less
      instances are all equal; classes and None compare by identity. */
  function PyEq(a: Ty, b: Ty): bool
    decreases a
  {
    if Fieldless(a) || Fieldless(b) then Fieldless(a) && Fieldless(b)
    else match a
      case TList(c, n) => b.TList? && n == b.native && PyEq(c, b.contained)
      case TTuple(cs) =>
        b.TTuple? && |cs| == |b.elems| && forall i :: 0 <= i < |cs| ==> PyEq(cs[i], b.elems[i])
      case TUnion(xs) =>
        b.TUnion? && |xs| == |b.anyOf| && forall i :: 0 <= i < |xs| ==> PyEq(xs[i], b.anyOf[i])
      case TypeList(xs) =>
        b.TypeList? && |xs| == |b.items| && forall i :: 0 <= i < |xs| ==> PyEq(xs[i], b.items[i])
      case TOptional(x) => b.TOptional? && PyEq(x, b.optOf)
      case TFunction(args, kws, va, ret) =>
        b.TFunction? && va == b.vararg && PyEq(ret, b.ret)
        && |args| == |b.args| && (forall i :: 0 <= i < |args| ==> PyEq(args[i], b.args[i]))
        && |kws| == |b.kwArgs|
        && (forall i :: 0 <= i < |kws| ==> kws[i].0 == b.kwArgs[i].0 && PyEq(kws[i].1, b.kwArgs[i].1))
      case _ => a == b
  }

  /** The representative of a type's `==` class: every field-less instance
      becomes TPending. */
  function Canon(t: Ty): Ty
  {
    match t
    case Null => TPending
    case TAny => TPending
    case TList(c, n) => TList(Canon(c), n)
    case TTuple(cs) => TTuple(seq(|cs|, i requires 0 <= i < |cs| => Canon(cs[i])))
    case TUnion(xs) => TUnion(seq(|xs|, i requires 0 <= i < |xs| => Canon(xs[i])))
    case TypeList(xs) => TypeList(seq(|xs|, i requires 0 <= i < |xs| => Canon(xs[i])))
    case TOptional(x) => TOptional(Canon(x))
    case TFunction(args, kws, va, ret) =>
      TFunction(seq(|args|, i requires 0 <= i < |args| => Canon(args[i])),
                seq(|kws|, i requires 0 <= i < |kws| => (kws[i].0, Canon(kws[i].1))),
                va, Canon(ret))
    case _ => t
  }

  function CanonKw(kws: seq<(string, Ty)>): seq<(string, Ty)>
  {
    seq(|kws|, i requires 0 <= i < |kws| => (kws[i].0, Canon(kws[i].1)))
  }

  lemma {:induction false} CanonSeqEq(xs: seq<Ty>, ys: seq<Ty>)
    requires forall i :: 0 <= i < |xs| && i < |ys| ==> (PyEq(xs[i], ys[i]) <==> Canon(xs[i]) == Canon(ys[i]))
    ensures (|xs| == |ys| && forall i :: 0 <= i < |xs| ==> PyEq(xs[i], ys[i]))
        <==> seq(|xs|, i requires 0 <= i < |xs| => Canon(xs[i])) == seq(|ys|, i requires 0 <= i < |ys| => Canon(ys[i]))
  {
    var cx := seq(|xs|, i requires 0 <= i < |xs| => Canon(xs[i]));
    var cy := seq(|ys|, i requires 0 <= i < |ys| => Canon(ys[i]));
    if cx == cy {
      assert |xs| == |ys|;
      forall i | 0 <= i < |xs| ensures PyEq(xs[i], ys[i]) {
        assert cx[i] == cy[i];
      }
    }
  }

  lemma {:induction false} CanonKwEq(kws: seq<(string, Ty)>, lws: seq<(string, Ty)>)
    requires forall i :: 0 <= i < |kws| && i < |lws| ==> (PyEq(kws[i].1, lws[i].1) <==> Canon(kws[i].1) == Canon(lws[i].1))
    ensures (|kws| == |lws| && forall i :: 0 <= i < |kws| ==> kws[i].0 == lws[i].0 && PyEq(kws[i].1, lws[i].1))
        <==> CanonKw(kws) == CanonKw(lws)
  {
    if CanonKw(kws) == CanonKw(lws) {
      assert |kws| == |lws|;
      forall i | 0 <= i < |kws| ensures kws[i].0 == lws[i].0 && PyEq(kws[i].1, lws[i].1) {
        assert CanonKw(kws)[i] == CanonKw(lws)[i];
      }
    }
  }

  /** Python's `==` on types is equality of canonical representatives: so it
      is reflexive, symmetric and transitive. */
  lemma {:induction false} PyEqIsCanonEq(a: Ty, b: Ty)
    ensures PyEq(a, b) <==> Canon(a) == Canon(b)
    decreases a, 1
  {
    if Fieldless(a) || Fieldless(b) {
      FieldlessCase(a, b);
    } else if a.TList? || a.TOptional? {
      WrapperCase(a, b);
    } else if a.TTuple? || a.TUnion? || a.TypeList? {
      SeqCase(a, b);
    } else if a.TFunction? {
      FunctionCase(a, b);
    } else {
      AtomCase(a, b);
    }
  }

  lemma {:induction false} WrapperCase(a: Ty, b: Ty)
    requires a.TList? || a.TOptional?
    ensures PyEq(a, b) <==> Canon(a) == Canon(b)
    decreases a, 0
  {
    CanonKind(b);
    if a.TList? && b.TList? {
      PyEqIsCanonEq(a.contained, b.contained);
    } else if a.TOptional? && b.TOptional? {
      PyEqIsCanonEq(a.optOf, b.optOf);
    }
  }

  lemma FieldlessCase(a: Ty, b: Ty)
    requires Fieldless(a) || Fieldless(b)
    ensures PyEq(a, b) <==> Canon(a) == Canon(b)
  {
    CanonKind(a);
    CanonKind(b);
  }

  /** `Canon` keeps the constructor, except that it sends every field-less
      instance to TPending. */
  lemma CanonKind(t: Ty)
    ensures Canon(t).TPending? <==> Fieldless(t)
    ensures Canon(t).TList? <==> t.TList?
    ensures Canon(t).TOptional? <==> t.TOptional?
  {
  }

  lemma AtomCase(a: Ty, b: Ty)
    requires !IsTInstance(a) && !a.TypeList?
    ensures PyEq(a, b) <==> Canon(a) == Canon(b)
  {
    assert Canon(a) == a;
  }

  function Children(t: Ty): seq<Ty>
  {
    match t
    case TTuple(cs) => cs
    case TUnion(xs) => xs
    case TypeList(xs) => xs
    case _ => []
  }

  lemma {:induction false} SeqCase(a: Ty, b: Ty)
    requires a.TTuple? || a.TUnion? || a.TypeList?
    ensures PyEq(a, b) <==> Canon(a) == Canon(b)
    decreases a, 0
  {
    var xs, ys := Children(a), Children(b);
    forall i | 0 <= i < |xs| && i < |ys|
      ensures PyEq(xs[i], ys[i]) <==> Canon(xs[i]) == Canon(ys[i])
    {
      PyEqIsCanonEq(xs[i], ys[i]);
    }
    CanonSeqEq(xs, ys);
  }

  lemma {:induction false} FunctionCase(a: Ty, b: Ty)
    requires a.TFunction?
    ensures PyEq(a, b) <==> Canon(a) == Canon(b)
    decreases a, 0
  {
    if b.TFunction? {
      PyEqIsCanonEq(a.ret, b.ret);
      forall i | 0 <= i < |a.args| && i < |b.args|
        ensures PyEq(a.args[i], b.args[i]) <==> Canon(a.args[i]) == Canon(b.args[i])
      {
        PyEqIsCanonEq(a.args[i], b.args[i]);
      }
      CanonSeqEq(a.args, b.args);
      forall i | 0 <= i < |a.kwArgs| && i < |b.kwArgs|
        ensures PyEq(a.kwArgs[i].1, b.kwArgs[i].1) <==> Canon(a.kwArgs[i].1) == Canon(b.kwArgs[i].1)
      {
        assert a.kwArgs[i] < a;
        PyEqIsCanonEq(a.kwArgs[i].1, b.kwArgs[i].1);
      }
      CanonKwEq(a.kwArgs, b.kwArgs);
      assert Canon(a).kwArgs == CanonKw(a.kwArgs);
      assert Canon(b).kwArgs == CanonKw(b.kwArgs);
    }
  }

  lemma PyEqReflexive(a: Ty)
    ensures PyEq(a, a)
  {
    PyEqIsCanonEq(a, a);
  }

  lemma PyEqSymmetric(a: Ty, b: Ty)
    ensures PyEq(a, b) == PyEq(b, a)
  {
    PyEqIsCanonEq(a, b);
    PyEqIsCanonEq(b, a);
  }

  lemma PyEqTransitive(a: Ty, b: Ty, c: Ty)
    requires PyEq(a, b) && PyEq(b, c)
    ensures PyEq(a, c)
  {
    PyEqIsCanonEq(a, b);
    PyEqIsCanonEq(b, c);
    PyEqIsCanonEq(a, c);
  }

  /** `Typer.isTypeCompatible(type1, type2)`: may a value of type `t1` be
      used where `t2` is wanted? The rules are tried in the source's order. */
  function Compatible(t1: Ty, t2: Ty): bool
    decreases t1, t2
  {
    if PyEq(t1, t2) then true
    else if (t1 == NoneLit && t2 == NoneType) || (t1 == NoneType && t2 == NoneLit) then true
    else if t1 == TypingAny || t2 == TypingAny then true
    else if t1 == NoneLit || t2 == NoneLit then true
    else if t1.TUnion? then forall i :: 0 <= i < |t1.anyOf| ==> Compatible(t1.anyOf[i], t2)
    else if t2.TUnion? then exists i :: 0 <= i < |t2.anyOf| && Compatible(t1, t2.anyOf[i])
    else if t1.TOptional? then t2.TOptional? && Compatible(t1.optOf, t2.optOf)
    else if t2.TOptional? then Compatible(t1, t2.optOf)
    else if t1.TList? then t2.TList? && Compatible(t1.contained, t2.contained)
    else if t2.TList? then false
    else if t1.TPending? then !t2.TPending?
    else if t2.TPending? then !t1.TPending?
    else t1 == Int && t2 == Float
  }

  function SumNat(xs: seq<nat>): nat
  {
    if |xs| == 0 then 0 else xs[0] + SumNat(xs[1..])
  }

  /** How many "Can not assure type correctness for None" warnings one call
      of `isTypeCompatible` prints. The union rules build the whole list of
      element results before `all`/`any` look at it, so every element is
      checked. The older snapshot lacks the rule that quietly accepts None
      against type(None). */
  function CompatWarnings(t1: Ty, t2: Ty, legacy: bool): nat
    decreases t1, t2
  {
    if PyEq(t1, t2) then 0
    else if !legacy && ((t1 == NoneLit && t2 == NoneType) || (t1 == NoneType && t2 == NoneLit)) then 0
    else if t1 == TypingAny || t2 == TypingAny then 0
    else if t1 == NoneLit then 1
    else if t2 == NoneLit then 0
    else if t1.TUnion? then
      SumNat(seq(|t1.anyOf|, i requires 0 <= i < |t1.anyOf| => CompatWarnings(t1.anyOf[i], t2, legacy)))
    else if t2.TUnion? then
      SumNat(seq(|t2.anyOf|, i requires 0 <= i < |t2.anyOf| => CompatWarnings(t1, t2.anyOf[i], legacy)))
    else if t1.TOptional? then (if t2.TOptional? then CompatWarnings(t1.optOf, t2.optOf, legacy) else 0)
    else if t2.TOptional? then CompatWarnings(t1, t2.optOf, legacy)
    else if t1.TList? then (if t2.TList? then CompatWarnings(t1.contained, t2.contained, legacy) else 0)
    else 0
  }

  /** `Typer.mergeTypes(type1, type2, equals)`: the type of a variable that
      receives values of both types; `equals` (conditional expressions)
      treats a pending type on either side alike. Rebuilt lists lose `native`. */
  function Merge(t1: Ty, t2: Ty, equals: bool): Result<Ty>
    decreases t1
  {
    if PyEq(t1, t2) then Ok(t1)
    else if (t1 == Int && t2 == Float) || (t1 == Float && t2 == Int) then Ok(Float)
    else if t1.TPending? then Ok(t2)
    else if equals && t2.TPending? then Ok(t1)
    else if t1.TList? && t2.TList? then
      var c :- Merge(t1.contained, t2.contained, equals);
      Ok(TList(c, false))
    else if t1 == NoneLit then Ok(t2)
    else if t2 == NoneLit then Ok(t1)
    else Err(TypeError)
  }

  /** The older snapshot's `mergeTypes`: no `equals` mode and no list rule. */
  function LegacyMerge(t1: Ty, t2: Ty): Result<Ty>
  {
    if PyEq(t1, t2) then Ok(t1)
    else if (t1 == Int && t2 == Float) || (t1 == Float && t2 == Int) then Ok(Float)
    else if t1.TPending? then Ok(t2)
    else if t1 == NoneLit then Ok(t2)
    else if t2 == NoneLit then Ok(t1)
    else Err(TypeError)
  }

  /** `Typer.isRestrictedType`: list-valued types may only be bound by an
      annotated assignment. A Python list of types is itself of class list. */
  predicate IsRestricted(t: Ty)
  {
    t == RawList || t == ListClass || t.TList? || t.TypeList?
  }

  // ---------------------------------------------------------------- lemmas

  lemma CompatibleReflexive(t: Ty)
    ensures Compatible(t, t)
  {
    PyEqReflexive(t);
  }

  /** Equal types are compatible in both directions. */
  lemma PyEqImpliesCompatible(a: Ty, b: Ty)
    requires PyEq(a, b)
    ensures Compatible(a, b) && Compatible(b, a)
  {
    PyEqSymmetric(a, b);
  }

  /** An int may flow into a float but never the other way round. */
  lemma NumericWidening()
    ensures Compatible(Int, Float)
    ensures !Compatible(Float, Int)
    ensures !Compatible(Bool, Int) && !Compatible(Int, Bool)
  {
  }

  /** None is accepted on either side, whatever the other type. */
  lemma NoneIsWildcard(t: Ty)
    ensures Compatible(NoneLit, t) && Compatible(t, NoneLit)
  {
  }

  /** Two lists are compatible exactly when their contents are. */
  lemma {:induction false} ListCompatibility(a: Ty, n: bool, b: Ty, m: bool)
    ensures Compatible(TList(a, n), TList(b, m)) <==> Compatible(a, b)
  {
    if PyEq(TList(a, n), TList(b, m)) {
      PyEqImpliesCompatible(a, b);
    }
  }

  /** A list never fits where a plain class is wanted, nor the reverse. */
  lemma ListVersusScalar(c: Ty, n: bool, s: Ty)
    requires s in {Bool, Int, Float, Str, NoneType, RawList, ListClass, TupleClass}
    ensures !Compatible(TList(c, n), s) && !Compatible(s, TList(c, n))
  {
  }

  /** A union on the left must fit with every member; on the right, with one. */
  lemma UnionRules(xs: seq<Ty>, t: Ty)
    requires !t.TUnion? && !IsTInstance(t) && t != TypingAny && t != NoneLit
    ensures Compatible(TUnion(xs), t) <==> forall i :: 0 <= i < |xs| ==> Compatible(xs[i], t)
    ensures Compatible(t, TUnion(xs)) <==> exists i :: 0 <= i < |xs| && Compatible(t, xs[i])
  {
  }

  /** A pending type is compatible with every type except a list (whose rule
      is tried first) and the pending types themselves, which are `==`. */
  lemma PendingCompatibility(t: Ty)
    requires !t.TUnion? && !t.TOptional?
    ensures Compatible(TPending, t) <==> !t.TList?
  {
  }

  /** The older snapshot decides compatibility identically; only the warning
      for None against type(None) differs. */
  lemma LegacyNoneTypeWarning()
    ensures Compatible(NoneLit, NoneType)
    ensures CompatWarnings(NoneLit, NoneType, true) == 1
    ensures CompatWarnings(NoneLit, NoneType, false) == 0
  {
  }

  lemma MergeIdempotent(t: Ty, equals: bool)
    ensures Merge(t, t, equals) == Ok(t)
    ensures LegacyMerge(t, t) == Ok(t)
  {
    PyEqReflexive(t);
  }

  /** Types that the builder derives from literals and annotations. */
  predicate Plain(t: Ty)
  {
    match t
    case Bool => true
    case Int => true
    case Float => true
    case Str => true
    case NoneLit => true
    case TList(c, _) => Plain(c)
    case _ => false
  }

  /** Merging never loses data: both inputs fit into the merged type. */
  lemma {:induction false} MergeIsUpperBound(t1: Ty, t2: Ty, equals: bool)
    requires Plain(t1) && Plain(t2)
    requires Merge(t1, t2, equals).Ok?
    ensures Compatible(t1, Merge(t1, t2, equals).value)
    ensures Compatible(t2, Merge(t1, t2, equals).value)
  {
    if PyEq(t1, t2) {
      PyEqImpliesCompatible(t1, t2);
      CompatibleReflexive(t1);
    } else if t1.TList? && t2.TList? {
      var c := Merge(t1.contained, t2.contained, equals).value;
      MergeIsUpperBound(t1.contained, t2.contained, equals);
      ListCompatibility(t1.contained, t1.native, c, false);
      ListCompatibility(t2.contained, t2.native, c, false);
    } else if t1 == NoneLit {
      CompatibleReflexive(t2);
    } else if t2 == NoneLit {
      CompatibleReflexive(t1);
    }
  }

  /** In `equals` mode the merge does not depend on the order of its
      arguments (up to `==`): both branches of a conditional expression are
      treated alike. */
  lemma {:induction false} MergeSymmetric(t1: Ty, t2: Ty)
    ensures Merge(t1, t2, true).Ok? == Merge(t2, t1, true).Ok?
    ensures Merge(t1, t2, true).Ok? ==> PyEq(Merge(t1, t2, true).value, Merge(t2, t1, true).value)
    decreases t1
  {
    PyEqSymmetric(t1, t2);
    if PyEq(t1, t2) {
    } else if t1.TList? && t2.TList? {
      MergeSymmetric(t1.contained, t2.contained);
      if Merge(t1.contained, t2.contained, true).Ok? {
        PyEqSymmetric(Merge(t1.contained, t2.contained, true).value, Merge(t2.contained, t1.contained, true).value);
      }
    } else {
      MergeSymmetricFlat(t1, t2);
    }
  }

  /** The cases of `MergeSymmetric` without recursion: the merge is one of
      its arguments, or float. */
  lemma MergeSymmetricFlat(t1: Ty, t2: Ty)
    requires !PyEq(t1, t2) && !PyEq(t2, t1) && !(t1.TList? && t2.TList?)
    ensures Merge(t1, t2, true).Ok? == Merge(t2, t1, true).Ok?
    ensures Merge(t1, t2, true).Ok? ==> PyEq(Merge(t1, t2, true).value, Merge(t2, t1, true).value)
  {
    MergeUnequal(t1, t2);
    MergeUnequal(t2, t1);
    FlatMergeSymmetric(t1, t2);
    if FlatMerge(t1, t2).Ok? {
      PyEqReflexive(FlatMerge(t1, t2).value);
    }
  }

  /** The non-list rules of `Merge` in `equals` mode, once the two types
      are known to differ. */
  function FlatMerge(t1: Ty, t2: Ty): Result<Ty>
  {
    if (t1 == Int && t2 == Float) || (t1 == Float && t2 == Int) then Ok(Float)
    else if t1.TPending? then Ok(t2)
    else if t2.TPending? then Ok(t1)
    else if t1 == NoneLit then Ok(t2)
    else if t2 == NoneLit then Ok(t1)
    else Err(TypeError)
  }

  lemma MergeUnequal(t1: Ty, t2: Ty)
    requires !PyEq(t1, t2) && !(t1.TList? && t2.TList?)
    ensures Merge(t1, t2, true) == FlatMerge(t1, t2)
  {
  }

  lemma FlatMergeSymmetric(t1: Ty, t2: Ty)
    ensures FlatMerge(t1, t2) == FlatMerge(t2, t1)
  {
  }

  /** Whatever the older merge accepts, the newer one merges the same way;
      the newer one also merges two different lists, which the older one
      rejects. */
  lemma LegacyMergeAgrees(t1: Ty, t2: Ty)
    ensures LegacyMerge(t1, t2).Ok? ==> Merge(t1, t2, false) == LegacyMerge(t1, t2)
    ensures t1.TList? && t2.TList? && !PyEq(t1, t2) ==> LegacyMerge(t1, t2).Err?
  {
  }

  /** An int and a float merge into a float, in either order and mode. */
  lemma MergeNumbers(equals: bool)
    ensures Merge(Int, Float, equals) == Ok(Float) && Merge(Float, Int, equals) == Ok(Float)
    ensures LegacyMerge(Int, Float) == Ok(Float) && LegacyMerge(Float, Int) == Ok(Float)
  {
  }

  /** On the right the pending type is absorbed in equality mode only;
      otherwise a scalar does not merge with it. */
  lemma MergePendingRight(t: Ty)
    requires t in {Bool, Int, Float, Str}
    ensures Merge(t, TPending, true) == Ok(t)
    ensures Merge(t, TPending, false) == Err(TypeError)
    ensures LegacyMerge(t, TPending) == Err(TypeError)
  {
  }

  /** Two different lists merge element by element into a non-native list. */
  lemma MergeLists(a: Ty, b: Ty, n: bool, m: bool, equals: bool)
    requires !PyEq(TList(a, n), TList(b, m))
    ensures Merge(TList(a, n), TList(b, m), equals).Ok? <==> Merge(a, b, equals).Ok?
    ensures Merge(a, b, equals).Ok? ==> Merge(TList(a, n), TList(b, m), equals) == Ok(TList(Merge(a, b, equals).value, false))
  {
  }

  /** The pending type gives way to whatever it is merged with. */
  lemma MergePendingLeft(t: Ty, equals: bool)
    ensures Merge(TPending, t, equals).Ok?
    ensures PyEq(Merge(TPending, t, equals).value, t)
  {
    PyEqReflexive(t);
    PyEqSymmetric(TPending, t);
  }
}
