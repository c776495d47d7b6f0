// The statement rules of `_Builder` (pyschemetranspiler/builder.py and,
// where `b.legacy` is set, the older PySchemeTranspiler/builder.py): each
// rule lowers one Python statement to Racket text, binding names in the
// current scope as it goes. As for expressions, a failing rule returns the
// exception class it would raise and the state it leaves is not specified.
//
// Every statement rule promises the same frame: the builder stays valid,
// build flags are only switched on and warnings only appended, and a
// successful rule changes the current scope only (`Effect`): it leaves the
// return paths of an enclosing `if` alone and sets `__didReturn__` exactly
// when the statement executes a `return` (`SetsReturn`).

module StmtLowering {
  import opened Wrappers
  import opened Types
  import opened Ast
  import opened ExtraCodes
  import opened Scope
  import opened Rules
  import opened ExprLowering

  // ------------------------------------------------------------ scope effects

  function Last(h: seq<Frame>): Frame
    requires |h| >= 1
  {
    h[|h| - 1]
  }

  /** Both scopes hold the same entry for `k`, or neither holds one. */
  predicate SameEntry(a: Frame, b: Frame, k: string)
  {
    (k in a <==> k in b) && (k in a ==> a[k] == b[k])
  }

  /** The entry of `k` in the scope, if any. */
  function Entry(f: Frame, k: string): Option<Val>
  {
    if k in f then Some(f[k]) else None
  }

  /** The bookkeeping entries of a scope, key by key of `Reserved`. */
  function Bookkeeping(f: Frame): seq<Option<Val>>
  {
    [Entry(f, ForKey), Entry(f, IfKey), Entry(f, InnerBodyKey), Entry(f, ClaimKey), Entry(f, SkipKey),
     Entry(f, ResolveKey), Entry(f, DidReturnKey), Entry(f, PathsKey), Entry(f, DefsKey), Entry(f, ReturnTypeKey)]
  }

  /** No bookkeeping entry of the scope changed. */
  predicate KeptReserved(a: Frame, b: Frame)
  {
    Bookkeeping(a) == Bookkeeping(b)
  }

  /** Conversely, keeping every key of `Reserved` keeps the bookkeeping. */
  lemma EntriesKept(a: Frame, b: Frame)
    requires forall k :: k in Reserved ==> SameEntry(a, b, k)
    ensures KeptReserved(a, b)
  {
    assert ForKey in Reserved && IfKey in Reserved && InnerBodyKey in Reserved && ClaimKey in Reserved;
    assert SkipKey in Reserved && ResolveKey in Reserved && DidReturnKey in Reserved && PathsKey in Reserved;
    assert DefsKey in Reserved && ReturnTypeKey in Reserved;
  }

  /** Every key of `Reserved` keeps its entry. */
  lemma KeptEntries(a: Frame, b: Frame)
    requires KeptReserved(a, b)
    ensures forall k :: k in Reserved ==> SameEntry(a, b, k)
  {
    var x, y := Bookkeeping(a), Bookkeeping(b);
    assert x[0] == y[0] && x[1] == y[1] && x[2] == y[2] && x[3] == y[3] && x[4] == y[4];
    assert x[5] == y[5] && x[6] == y[6] && x[7] == y[7] && x[8] == y[8] && x[9] == y[9];
  }

  /** `__didReturn__` is set in the scope. */
  predicate Returned(f: Frame)
  {
    DidReturnKey in f && f[DidReturnKey] == FlagVal(true)
  }

  /** Only the current scope differs; the scopes around it are untouched. */
  predicate SameShape(before: seq<Frame>, after: seq<Frame>)
  {
    |before| >= 1 && |after| == |before| && Outer(after) == Outer(before)
  }

  /** The current scope holds the root claim of a control statement. */
  predicate Claimed(f: Frame)
  {
    ClaimKey in f && f[ClaimKey] == FlagVal(true)
  }

  /** The definitions the scope has hoisted so far. */
  function DefsIn(f: Frame): seq<string>
  {
    if DefsKey in f && f[DefsKey].DefsVal? then f[DefsKey].defs else []
  }

  /** While a control statement holds the claim, the claim stays and
      hoisted definitions are only added to. */
  predicate Hoisting(a: Frame, c: Frame)
  {
    Claimed(a) ==> Claimed(c) && DefsIn(a) <= DefsIn(c)
  }

  /** Only the current scope changed, and `__didReturn__` is set in it
      exactly when `ret` (or it was set already). */
  predicate Moves(before: seq<Frame>, after: seq<Frame>, ret: bool)
  {
    SameShape(before, after) && (Returned(Last(after)) <==> Returned(Last(before)) || ret)
  }

  /** What a successful statement does to the scope stack: it changes the
      current scope only, leaves the return paths of an enclosing `if`
      alone, keeps a held claim and its definitions, and sets
      `__didReturn__` exactly when `ret` (or it was set already). */
  predicate Effect(before: seq<Frame>, after: seq<Frame>, ret: bool)
  {
    Moves(before, after, ret) && SameEntry(Last(before), Last(after), PathsKey)
    && Hoisting(Last(before), Last(after))
  }

  /** The return behaviours an `if` has recorded so far. */
  function PathsIn(f: Frame): set<bool>
  {
    if PathsKey in f && f[PathsKey].PathsVal? then f[PathsKey].paths else {}
  }

  /** The keys whose entries `Effect` watches. */
  const Watched: set<string> := {PathsKey, DidReturnKey, ClaimKey, DefsKey}

  lemma EffectTrans(a: seq<Frame>, b: seq<Frame>, c: seq<Frame>, r1: bool, r2: bool)
    requires Effect(a, b, r1) && Effect(b, c, r2)
    ensures Effect(a, c, r1 || r2)
  {
  }

  lemma MovesTrans(a: seq<Frame>, b: seq<Frame>, c: seq<Frame>, r1: bool, r2: bool)
    requires Moves(a, b, r1) && Moves(b, c, r2)
    ensures Moves(a, c, r1 || r2)
  {
  }

  lemma EffectRefl(h: seq<Frame>)
    requires |h| >= 1
    ensures Effect(h, h, false)
  {
  }

  /** Binding any key the effect does not watch is effect-free. */
  lemma EffectOfSet(h: seq<Frame>, key: string, v: Val)
    requires |h| >= 1 && key !in Watched
    ensures Effect(h, Outer(h) + [Last(h)[key := v]], false)
  {
    var h' := Outer(h) + [Last(h)[key := v]];
    assert Outer(h') == Outer(h);
  }

  /** So is leaving a `TempState` on such a key. */
  lemma EffectOfRestore(h: seq<Frame>, key: string, saved: Option<Val>)
    requires |h| >= 1 && key !in Watched
    ensures Effect(h, Outer(h) + [Restore(Last(h), key, saved)], false)
  {
    var h' := Outer(h) + [Restore(Last(h), key, saved)];
    assert Outer(h') == Outer(h);
  }

  /** Recording a `return` is the one effect a statement can add. */
  lemma EffectOfReturn(h: seq<Frame>)
    requires |h| >= 1
    ensures Effect(h, Outer(h) + [Last(h)[DidReturnKey := FlagVal(true)]], true)
  {
    var h' := Outer(h) + [Last(h)[DidReturnKey := FlagVal(true)]];
    assert Outer(h') == Outer(h);
  }

  /** A `TempState` around a part that moves the stack moves it the same
      way; it keeps the effect when its key is not watched, and it gives
      its own key back. */
  lemma AcrossTemp(h0: seq<Frame>, h2: seq<Frame>, key: string, v: Val, ret: bool)
    requires |h0| >= 1 && key != DidReturnKey
    requires Moves(Outer(h0) + [Last(h0)[key := v]], h2, ret)
    ensures var h3 := Outer(h2) + [Restore(Last(h2), key, Saved(Last(h0), key))];
      Moves(h0, h3, ret) && SameEntry(Last(h0), Last(h3), key) &&
      (key !in Watched && Effect(Outer(h0) + [Last(h0)[key := v]], h2, ret) ==> Effect(h0, h3, ret)) &&
      (key in Reserved && KeptReserved(Last(h0)[key := v], Last(h2)) ==> KeptReserved(Last(h0), Last(h3))) &&
      (key != ClaimKey && key != DefsKey && Hoisting(Last(h0)[key := v], Last(h2)) ==> Hoisting(Last(h0), Last(h3)))
  {
    var h1 := Outer(h0) + [Last(h0)[key := v]];
    var h3 := Outer(h2) + [Restore(Last(h2), key, Saved(Last(h0), key))];
    assert Outer(h3) == Outer(h2) && Outer(h1) == Outer(h0);
    TempStateRestoresKey(Last(h0), Last(h2), key);
    if key in Reserved && KeptReserved(Last(h0)[key := v], Last(h2)) {
      KeptAcrossTemp(Last(h0), Last(h2), key, v);
    }
  }

  /** The bookkeeping a `TempState` on a bookkeeping key finds is the
      bookkeeping it leaves, when the part inside kept it. */
  lemma KeptAcrossTemp(f0: Frame, f2: Frame, key: string, v: Val)
    requires key in Reserved && KeptReserved(f0[key := v], f2)
    ensures KeptReserved(f0, Restore(f2, key, Saved(f0, key)))
  {
    KeptEntries(f0[key := v], f2);
    TempStateRestoresKey(f0, f2, key);
    EntriesKept(f0, Restore(f2, key, Saved(f0, key)));
  }

  /** A rule that keeps every bookkeeping entry has no effect. */
  lemma KeptEffect(h: seq<Frame>, h': seq<Frame>)
    requires SameShape(h, h') && KeptReserved(Last(h), Last(h'))
    ensures Effect(h, h', false)
  {
    assert PathsKey in Reserved && DidReturnKey in Reserved && ClaimKey in Reserved && DefsKey in Reserved;
  }

  /** Binding a variable keeps the bookkeeping and every other entry. */
  lemma KeptBySet(f: Frame, k: string, v: Val)
    requires k !in Reserved
    ensures KeptReserved(f, f[k := v]) && f.Keys <= f[k := v].Keys
  {
  }

  lemma KeptSame(f: Frame)
    ensures KeptReserved(f, f)
  {
  }

  lemma KeptTrans(a: Frame, b: Frame, c: Frame)
    requires KeptReserved(a, b) && KeptReserved(b, c)
    ensures KeptReserved(a, c)
  {
  }

  lemma WidenedReserved(legacy: bool)
    ensures WidenedKeys(legacy) <= Reserved
  {
  }

  // ------------------------------------------------------------ return behaviour

  /** Whether lowering `s` sets `__didReturn__` in the current scope: a
      `return`, or one inside the branches or the loop body lowered with
      it. (A nested function has its own scope.) The older snapshot lowers
      only the first statement of an `else` that starts with an `if`. */
  predicate SetsReturn(s: Stmt, legacy: bool)
    decreases StmtSize(s), 1
  {
    match s
    case Return(_) => true
    case If(_, body, orelse) =>
      AnyReturn(body, legacy) ||
      (if legacy && |orelse| > 0 && orelse[0].If? then
         (StmtInSize(orelse, 0); SetsReturn(orelse[0], legacy))
       else AnyReturn(orelse, legacy))
    case For(_, _, body, _) => AnyReturn(body, legacy)
    case _ => false
  }

  /** Some statement of `ss` sets `__didReturn__`. */
  predicate AnyReturn(ss: seq<Stmt>, legacy: bool)
    decreases StmtsSize(ss), 3
  {
    ReturnsAmong(ss, |ss|, legacy)
  }

  /** One of the first `n` statements sets `__didReturn__`. */
  predicate ReturnsAmong(ss: seq<Stmt>, n: int, legacy: bool)
    requires 0 <= n <= |ss|
    decreases StmtsSize(ss), 2
  {
    AllInSize(ss);
    exists j :: 0 <= j < n && SetsReturn(ss[j], legacy)
  }

  lemma AnyReturnSingle(s: Stmt, legacy: bool)
    ensures AnyReturn([s], legacy) <==> SetsReturn(s, legacy)
  {
    if SetsReturn(s, legacy) {
      assert [s][0] == s;
    }
  }

  lemma AllInSize(ss: seq<Stmt>)
    ensures forall j :: 0 <= j < |ss| ==> StmtSize(ss[j]) <= StmtsSize(ss)
  {
    forall j | 0 <= j < |ss| ensures StmtSize(ss[j]) <= StmtsSize(ss) {
      StmtInSize(ss, j);
    }
  }

  lemma ReturnsAmongStep(ss: seq<Stmt>, n: int, legacy: bool)
    requires 0 <= n < |ss|
    ensures ReturnsAmong(ss, n + 1, legacy) <==> ReturnsAmong(ss, n, legacy) || SetsReturn(ss[n], legacy)
  {
    if ReturnsAmong(ss, n + 1, legacy) && !SetsReturn(ss[n], legacy) {
      var j :| 0 <= j < n + 1 && SetsReturn(ss[j], legacy);
      assert j < n;
    }
  }

  /** The newer snapshot's return behaviour of a statement in a branch: a
      `return`, or an `if` whose body ends in one. */
  predicate Returns(s: Stmt)
    decreases StmtSize(s)
  {
    match s
    case Return(_) => true
    case If(_, body, _) => |body| > 0 && (StmtInSize(body, |body| - 1); Returns(body[|body| - 1]))
    case _ => false
  }

  /** The branch ends in a statement that returns. */
  predicate EndsInReturn(ss: seq<Stmt>)
  {
    |ss| > 0 && Returns(ss[|ss| - 1])
  }

  /** No statement before the last returns. */
  predicate NothingAfterReturn(ss: seq<Stmt>)
  {
    forall j :: 0 <= j < |ss| - 1 ==> !Returns(ss[j])
  }

  // ------------------------------------------------------------ return

  /** The check and bookkeeping of `return` once its value is lowered: the
      value's type must fit the function's declared return type (there is
      none at module level), and the scope records that it returned. */
  method ReturnValue(b: Builder, vType: Ty) returns (r: Result<()>)
    requires b.Valid()
    modifies b
    ensures b.Valid() && b.buildFlags == old(b.buildFlags)
    ensures r.Ok? <==> ReturnTypeKey in old(b.Top()) && old(b.Top())[ReturnTypeKey].TyVal?
                       && Compatible(vType, old(b.Top())[ReturnTypeKey].t)
    ensures r.Ok? ==> b.stateHistory == old(Outer(b.stateHistory)) + [old(b.Top())[DidReturnKey := FlagVal(true)]]
    ensures old(b.warnings) <= b.warnings
    ensures forall i :: |old(b.warnings)| <= i < |b.warnings| ==> b.warnings[i] == UncheckedNone
  {
    var rt :- b.GetStateKeyLocal(ReturnTypeKey);
    if !rt.TyVal? {
      return Err(Unmodelled);
    }
    NoneWarningsOnly(CompatWarnings(vType, rt.t, b.legacy));
    var ok := b.Check(vType, rt.t);
    if !ok {
      return Err(TypeError);
    }
    b.SetStateKey(DidReturnKey, FlagVal(true));
    r := Ok(());
  }

  lemma NoneWarningsOnly(n: nat)
    ensures forall i :: 0 <= i < |NoneWarnings(n)| ==> NoneWarnings(n)[i] == UncheckedNone
  {
    if n > 0 {
      NoneWarningsOnly(n - 1);
    }
  }

  /** `Return`: a bare `return` returns None (the older snapshot cannot lower
      it), a `return` inside a loop is refused (newer snapshot), and the
      value goes through `ReturnValue`. */
  method LowerReturn(b: Builder, s: Stmt) returns (r: Result<string>)
    requires b.Valid() && s.Return?
    modifies b
    ensures b.Valid()
    ensures FlagsKept(old(b.buildFlags), b.buildFlags) && old(b.warnings) <= b.warnings
    ensures b.legacy && s.retValue.None? ==> r == Err(ValueError)
    ensures !b.legacy && old(b.Flag(ForKey)) ==> r == Err(ValueError)
    ensures r.Ok? ==> ReturnTypeKey in old(b.Top())
    ensures r.Ok? ==> b.stateHistory == old(Outer(b.stateHistory)) + [old(b.Top())[DidReturnKey := FlagVal(true)]]
    ensures r.Ok? ==> Effect(old(b.stateHistory), b.stateHistory, true)
    ensures s.retValue.Some? && s.retValue.value.Constant? ==>
      forall i :: |old(b.warnings)| <= i < |b.warnings| ==> b.warnings[i] == UncheckedNone
  {
    var value: Expr;
    if s.retValue.Some? {
      value := s.retValue.value;
    } else if b.legacy {
      return Err(ValueError);
    } else {
      value := Constant(CNone);
    }
    if !b.legacy && b.Flag(ForKey) {
      return Err(ValueError);
    }
    var v :- LowerExpr(b, value);
    var _ :- ReturnValue(b, v.1);
    EffectOfReturn(old(b.stateHistory));
    r := Ok(v.0);
  }

  // ------------------------------------------------------------ assignment

  /** `(set! id value)`: assignment to a name of the current scope. */
  function SetText(id: string, value: string): string
  {
    "(set! " + id + " " + value + ")"
  }

  /** `(define id value)`, or `(define id void)` while a body hoists its
      definitions (`__assignSkipValue__`). */
  function DefineText(id: string, value: string, skip: bool): string
  {
    "(define " + id + " " + (if skip then "void" else value) + ")"
  }

  /** A name bound to None takes the type of the first value assigned. */
  function Retyped(sType: Ty, vType: Ty): Ty
  {
    if sType == NoneLit && vType != NoneLit then vType else sType
  }

  /** Merging None with a type gives the type, in both snapshots. */
  lemma MergeNone(t: Ty)
    requires t != NoneLit
    ensures Merge(NoneLit, t, false) == Ok(t) && LegacyMerge(NoneLit, t) == Ok(t)
  {
  }

  /** Assignment to a name of the current scope whose type `sType` the
      value fits: a name bound to None takes the value's type, which is
      reported when it happens under a control statement. */
  method Rebind(b: Builder, id: string, sType: Ty, vType: Ty)
    requires b.Valid() && id !in Reserved && id in b.Top() && b.Top()[id] == TyVal(sType)
    modifies b
    ensures b.Valid() && b.buildFlags == old(b.buildFlags)
    ensures b.stateHistory == old(Outer(b.stateHistory)) + [old(b.Top())[id := TyVal(Retyped(sType, vType))]]
    ensures b.warnings == old(b.warnings) +
      (if sType == NoneLit && vType != NoneLit && old(b.Flag(ClaimKey)) then [RetypedInControl] else [])
  {
    if sType == NoneLit && vType != NoneLit {
      if b.Flag(ClaimKey) {
        b.Warn(RetypedInControl);
      }
      // the source merges the two types, which gives `vType` (`MergeNone`)
      b.SetStateKey(id, TyVal(vType));
    } else {
      assert b.Top()[id := TyVal(sType)] == b.Top();
      assert b.stateHistory == Outer(b.stateHistory) + [b.Top()];
    }
  }

  /** Assignment to one name. A name of the current scope keeps its type
      and must receive a compatible value (one bound to None takes the
      value's type); a new name is defined with the value's type, which may
      not be a list type. Only these texts can result. */
  method NameAssign(b: Builder, id: string, value: string, vType: Ty) returns (r: Result<(string, bool)>)
    requires b.Valid()
    modifies b
    ensures b.Valid()
    ensures b.buildFlags == old(b.buildFlags) && old(b.warnings) <= b.warnings
    ensures id in Reserved ==> r == Err(Unmodelled)
    ensures id !in Reserved && id in old(b.Top()) ==>
      old(b.Top())[id].TyVal? &&
      (r.Ok? <==> Compatible(vType, old(b.Top())[id].t)) &&
      (r.Ok? ==> r.value == (SetText(id, value), false)
                 && b.stateHistory == old(Outer(b.stateHistory)) + [old(b.Top())[id := TyVal(Retyped(old(b.Top())[id].t, vType))]])
    ensures id !in Reserved && id !in old(b.Top()) ==>
      (r.Ok? <==> !IsRestricted(vType)) &&
      (r.Ok? ==> r.value == (DefineText(id, value, old(b.Flag(SkipKey))), true)
                 && b.stateHistory == old(Outer(b.stateHistory)) + [old(b.Top())[id := TyVal(vType)]])
    ensures r.Ok? && id in old(b.Top()) && old(b.Top())[id] == TyVal(NoneLit) && vType != NoneLit && old(b.Flag(ClaimKey)) ==>
      RetypedInControl in b.warnings[|old(b.warnings)|..]
    ensures r.Ok? ==> SameShape(old(b.stateHistory), b.stateHistory) && KeptReserved(old(b.Top()), b.Top())
  {
    if id in Reserved {
      return Err(Unmodelled);
    }
    if id in b.Top() {
      r := AssignExisting(b, id, value, vType);
    } else {
      r := AssignNew(b, id, value, vType);
    }
  }

  /** `NameAssign` on a name of the current scope. */
  method AssignExisting(b: Builder, id: string, value: string, vType: Ty) returns (r: Result<(string, bool)>)
    requires b.Valid() && id !in Reserved && id in b.Top()
    modifies b
    ensures b.Valid()
    ensures b.buildFlags == old(b.buildFlags) && old(b.warnings) <= b.warnings
    ensures old(b.Top())[id].TyVal? && (r.Ok? <==> Compatible(vType, old(b.Top())[id].t))
    ensures r.Ok? ==> r.value == (SetText(id, value), false)
    ensures r.Ok? ==> b.stateHistory == old(Outer(b.stateHistory)) + [old(b.Top())[id := TyVal(Retyped(old(b.Top())[id].t, vType))]]
    ensures r.Ok? && old(b.Top())[id] == TyVal(NoneLit) && vType != NoneLit && old(b.Flag(ClaimKey)) ==>
      RetypedInControl in b.warnings[|old(b.warnings)|..]
    ensures r.Ok? ==> SameShape(old(b.stateHistory), b.stateHistory) && KeptReserved(old(b.Top()), b.Top())
  {
    assert FrameOk(b.stateHistory[|b.stateHistory| - 1], b.legacy);
    var sv := b.Top()[id];
    assert sv.TyVal?;
    var ok := Fits(b, vType, sv.t);
    if !ok {
      return Err(TypeError);
    }
    ghost var w := b.warnings;
    ghost var h := b.stateHistory;
    Rebind(b, id, sv.t, vType);
    assert Outer(b.stateHistory) == Outer(h);
    KeptBySet(Last(h), id, TyVal(Retyped(sv.t, vType)));
    assert b.warnings[|old(b.warnings)|..] == w[|old(b.warnings)|..] + b.warnings[|w|..];
    r := Ok((SetText(id, value), false));
  }

  /** `NameAssign` on a name the current scope does not have. */
  method AssignNew(b: Builder, id: string, value: string, vType: Ty) returns (r: Result<(string, bool)>)
    requires b.Valid() && id !in Reserved && id !in b.Top()
    modifies b
    ensures b.Valid()
    ensures b.buildFlags == old(b.buildFlags) && b.warnings == old(b.warnings)
    ensures r.Ok? <==> !IsRestricted(vType)
    ensures r.Ok? ==> r.value == (DefineText(id, value, old(b.Flag(SkipKey))), true)
    ensures r.Ok? ==> b.stateHistory == old(Outer(b.stateHistory)) + [old(b.Top())[id := TyVal(vType)]]
    ensures r.Ok? ==> SameShape(old(b.stateHistory), b.stateHistory) && KeptReserved(old(b.Top()), b.Top())
  {
    if IsRestricted(vType) {
      return Err(TypeError);
    }
    ghost var h := b.stateHistory;
    var skip := b.Flag(SkipKey);
    b.SetStateKey(id, TyVal(vType));
    assert Outer(b.stateHistory) == Outer(h);
    KeptBySet(Last(h), id, TyVal(vType));
    r := Ok((DefineText(id, value, skip), true));
  }

  /** `(safe-gvector-set! name index value)`. */
  function VectorSetText(name: string, index: string, value: string): string
  {
    "(safe-gvector-set! " + name + " " + index + " " + value + ")"
  }

  /** `text` stores a value of type `vType` into a list whose elements it
      fits, at an int index wrapped for negative values. */
  ghost predicate IsVectorSet(text: string, vType: Ty, value: string)
  {
    exists list: (string, Ty), index: (string, Ty) ::
      list.1.TList? && Compatible(vType, list.1.contained) && index.1 == Int &&
      text == VectorSetText(list.0, WrapIndex("gvector-count", list.0, index.0), value)
  }

  /** Assignment to `a[i]`: `a` must be a list whose elements the value
      fits, `i` an int, which is always wrapped for negative values (there
      is no literal shortcut here); slices are refused. */
  method SubscriptAssign(b: Builder, target: Expr, value: string, vType: Ty) returns (r: Result<string>)
    requires b.Valid() && target.Subscript?
    modifies b
    ensures b.Valid()
    ensures r.Ok? ==> b.stateHistory == old(b.stateHistory)
    ensures FlagsKept(old(b.buildFlags), b.buildFlags) && old(b.warnings) <= b.warnings
    ensures !target.slice.Index? ==> r.Err?
    ensures r.Ok? ==> IsVectorSet(r.value, vType, value)
  {
    var n :- LowerExpr(b, target.value);
    if !n.1.TList? {
      return Err(TypeError);
    }
    match target.slice {
      case Index(x) =>
        var _ :- LowerIndex(b, x);
        var ix :- LowerIndex(b, x);
        var idx :- ListIndex(n.0, ix.0, ix.1, false);
        assert ix.1 == Int && idx == WrapIndex("gvector-count", n.0, ix.0);
        var ok := Fits(b, vType, n.1.contained);
        if !ok {
          return Err(TypeError);
        }
        r := Ok(VectorSetText(n.0, idx, value));
      case SliceRange =>
        r := Err(NotImplementedError);
      case ExtSlice =>
        r := Err(TypeError);
    }
  }

  /** The name under a subscripted target `a[i][j]`. */
  function SubscriptBase(e: Expr): Result<string>
    requires e.Subscript?
    decreases ExprSize(e)
  {
    match e.value
    case Name(id) => Ok(id)
    case Subscript(_, _) => SubscriptBase(e.value)
    case _ => Err(ValueError)
  }

  /** The same subscript over another name. */
  function RenameBase(e: Expr, newName: string): (r: Expr)
    requires e.Subscript?
    decreases ExprSize(e)
    ensures r.Subscript? && ExprSize(r) == ExprSize(e)
    ensures SubscriptBase(e).Ok? ==> SubscriptBase(r) == Ok(newName)
  {
    match e.value
    case Name(_) => Subscript(Name(newName), e.slice)
    case Subscript(_, _) => Subscript(RenameBase(e.value, newName), e.slice)
    case _ => e
  }

  /** The alias a multi-assignment keeps of a variable it overwrites. */
  function CaptureName(id: string): string
  {
    "___" + id + "___"
  }

  lemma CaptureNotReserved(id: string)
    ensures CaptureName(id) !in Reserved
  {
    var c := CaptureName(id);
    assert c[2] == '_';
    assert forall k :: k in Reserved ==> |k| > 2 && k[2] != '_';
  }

  /** The name a multi-assignment target assigns to. */
  function TargetName(e: Expr): Result<string>
  {
    if e.Name? then Ok(e.id)
    else if e.Subscript? then SubscriptBase(e)
    else Err(AttributeError)
  }

  /** A value of a multi-assignment, reading captured variables through
      their aliases. */
  function Aliased(v: Expr, captured: seq<string>): Result<Expr>
  {
    if v.Name? && CaptureName(v.id) in captured then Ok(Name(CaptureName(v.id)))
    else if v.Subscript? then
      var base :- SubscriptBase(v);
      if CaptureName(base) in captured then Ok(RenameBase(v, CaptureName(base))) else Ok(v)
    else Ok(v)
  }

  /** `Assign([target], value)` for a single name or subscript target, as
      the elements of a multi-assignment are lowered. */
  method SingleAssign(b: Builder, target: Expr, value: Expr) returns (r: Result<string>)
    requires b.Valid() && (target.Name? || target.Subscript?)
    modifies b
    ensures b.Valid()
    ensures r.Ok? ==> SameShape(old(b.stateHistory), b.stateHistory) && KeptReserved(old(b.Top()), b.Top())
    ensures FlagsKept(old(b.buildFlags), b.buildFlags) && old(b.warnings) <= b.warnings
  {
    var v :- LowerExpr(b, value);
    r := AssignLowered(b, target, v);
  }

  /** A single target given its lowered value. */
  method AssignLowered(b: Builder, target: Expr, v: (string, Ty)) returns (r: Result<string>)
    requires b.Valid() && (target.Name? || target.Subscript?)
    modifies b
    ensures b.Valid()
    ensures r.Ok? ==> SameShape(old(b.stateHistory), b.stateHistory) && KeptReserved(old(b.Top()), b.Top())
    ensures FlagsKept(old(b.buildFlags), b.buildFlags) && old(b.warnings) <= b.warnings
  {
    if target.Subscript? {
      r := SubscriptAssign(b, target, v.0, v.1);
    } else {
      var res :- NameAssign(b, target.id, v.0, v.1);
      r := Ok(res.0);
    }
  }

  /** Capture of one target variable of the current scope: the deep-copy
      helper is requested, the variable is read again and, the first time,
      its alias is defined with the variable's type. */
  method CaptureOne(b: Builder, id: string, captured: seq<string>) returns (r: Result<(string, Ty)>)
    requires b.Valid() && id in b.Top()
    modifies b
    ensures b.Valid()
    ensures FlagsKept(old(b.buildFlags), b.buildFlags) && old(b.warnings) <= b.warnings
    ensures r.Ok? ==> SameShape(old(b.stateHistory), b.stateHistory) && KeptReserved(old(b.Top()), b.Top())
    ensures r.Ok? ==> old(b.Top()).Keys <= b.Top().Keys
    ensures r.Ok? && CaptureName(id) !in captured ==> CaptureName(id) in b.Top()
  {
    b.SetFlag(DEEPCOPY);
    var cur :- LowerExpr(b, Name(id));
    CaptureBind(b, id, cur.1, captured);
    r := Ok(cur);
  }

  /** Bind the alias of `id` to its type, unless it is bound already. */
  method CaptureBind(b: Builder, id: string, t: Ty, captured: seq<string>)
    requires b.Valid()
    modifies b
    ensures b.Valid() && b.buildFlags == old(b.buildFlags) && b.warnings == old(b.warnings)
    ensures SameShape(old(b.stateHistory), b.stateHistory) && KeptReserved(old(b.Top()), b.Top())
    ensures old(b.Top()).Keys <= b.Top().Keys
    ensures CaptureName(id) !in captured ==> CaptureName(id) in b.Top()
  {
    ghost var h := b.stateHistory;
    var d := CaptureName(id);
    if d !in captured {
      CaptureNotReserved(id);
      b.SetStateKey(d, TyVal(t));
      assert Outer(b.stateHistory) == Outer(h);
      KeptBySet(Last(h), d, TyVal(t));
    } else {
      KeptSame(Last(h));
    }
  }

  /** The capture step of a multi-assignment `a, b = b, a`: every target
      variable already in the current scope is copied to its alias first
      (and the value is read again, as the source does), so that the
      values still see the old contents. */
  /** Every alias made so far is bound in `top` and is no bookkeeping key. */
  predicate Captures(captured: seq<string>, top: Frame)
  {
    forall k :: k in captured ==> k in top && k !in Reserved
  }

  lemma CapturesKept(captured: seq<string>, top: Frame, top': Frame)
    requires Captures(captured, top) && top.Keys <= top'.Keys
    ensures Captures(captured, top')
  {
  }

  lemma CapturesGrow(captured: seq<string>, top: Frame, d: string)
    requires Captures(captured, top) && d in top && d !in Reserved
    ensures Captures(captured + [d], top)
  {
  }

  method CaptureTargets(b: Builder, elts: seq<Expr>, value: (string, Ty))
    returns (r: Result<(seq<string>, string, (string, Ty))>)
    requires b.Valid()
    modifies b
    ensures b.Valid()
    ensures FlagsKept(old(b.buildFlags), b.buildFlags) && old(b.warnings) <= b.warnings
    ensures r.Ok? ==> forall i :: 0 <= i < |elts| ==> TargetName(elts[i]).Ok?
    ensures (exists i :: 0 <= i < |elts| && !(elts[i].Name? || elts[i].Subscript?)) ==> r.Err?
    ensures r.Ok? ==> SameShape(old(b.stateHistory), b.stateHistory) && KeptReserved(old(b.Top()), b.Top())
    ensures r.Ok? ==> Captures(r.value.0, b.Top())
  {
    ghost var h := b.stateHistory;
    var captured: seq<string> := [];
    var preInner := "";
    var cur := value;
    var i := 0;
    KeptSame(Last(h));
    while i < |elts|
      invariant 0 <= i <= |elts|
      invariant b.Valid() && SameShape(h, b.stateHistory) && KeptReserved(Last(h), b.Top())
      invariant FlagsKept(old(b.buildFlags), b.buildFlags) && old(b.warnings) <= b.warnings
      invariant forall j :: 0 <= j < i ==> TargetName(elts[j]).Ok?
      invariant Captures(captured, b.Top())
    {
      var id :- TargetName(elts[i]);
      if id in b.Top() {
        ghost var top := b.Top();
        cur :- CaptureOne(b, id, captured);
        KeptTrans(Last(h), top, b.Top());
        var d := CaptureName(id);
        CapturesKept(captured, top, b.Top());
        if d !in captured {
          CaptureNotReserved(id);
          CapturesGrow(captured, b.Top(), d);
          captured := captured + [d];
          preInner := preInner + "(define " + d + " (deepcopy " + id + "))";
        }
      }
      i := i + 1;
    }
    r := Ok((captured, preInner, cur));
  }

  /** Drop the aliases again. */
  method ReleaseCaptures(b: Builder, captured: seq<string>) returns (r: Result<()>)
    requires b.Valid() && forall k :: k in captured ==> k !in Reserved
    modifies b
    ensures b.Valid() && b.buildFlags == old(b.buildFlags) && b.warnings == old(b.warnings)
    ensures r.Ok? ==> SameShape(old(b.stateHistory), b.stateHistory) && KeptReserved(old(b.Top()), b.Top())
    ensures r.Ok? ==> forall k :: k in captured ==> k !in b.Top()
  {
    WidenedReserved(b.legacy);
    var i := 0;
    while i < |captured|
      invariant 0 <= i <= |captured|
      invariant b.Valid() && SameShape(old(b.stateHistory), b.stateHistory) && KeptReserved(old(b.Top()), b.Top())
      invariant b.buildFlags == old(b.buildFlags) && b.warnings == old(b.warnings)
      invariant forall j :: 0 <= j < i ==> captured[j] !in b.Top()
    {
      ghost var h := b.stateHistory;
      var _ :- b.RemoveStateKeyLocal(captured[i]);
      assert Outer(b.stateHistory) == Outer(h);
      i := i + 1;
    }
    r := Ok(());
  }

  /** Every subscripted value has a name underneath (the source finds it
      again when it undoes its renames). */
  predicate BasesFound(vs: seq<Expr>)
  {
    forall i :: 0 <= i < |vs| && vs[i].Subscript? ==> SubscriptBase(vs[i]).Ok?
  }

  /** `a, b = x, y` (newer snapshot): the pairs are assigned one by one,
      those to variables of the current scope inside a `lambda` that reads
      the overwritten variables through their aliases, so that a swap
      works. Returns the text, whether it counts as a definition, and the
      value the later targets of the statement see. */
  method TupleAssign(b: Builder, elts: seq<Expr>, valueNode: Expr, value: (string, Ty))
    returns (r: Result<(string, bool, (string, Ty))>)
    requires b.Valid()
    modifies b
    ensures b.Valid()
    ensures FlagsKept(old(b.buildFlags), b.buildFlags) && old(b.warnings) <= b.warnings
    ensures r.Ok? ==> SameShape(old(b.stateHistory), b.stateHistory) && KeptReserved(old(b.Top()), b.Top())
    ensures (exists i :: 0 <= i < |elts| && !(elts[i].Name? || elts[i].Subscript?)) ==> r.Err?
    ensures !(valueNode.Tuple? || valueNode.List?) ==> r.Err?
    ensures r.Ok? ==> r.value.1 == old(b.Flag(SkipKey))
  {
    ghost var h := b.stateHistory;
    ghost var skip := b.Flag(SkipKey);
    var cap :- CaptureTargets(b, elts, value);
    var captured := cap.0;
    if !(valueNode.Tuple? || valueNode.List?) {
      return Err(AttributeError);
    }
    var vals := valueNode.elts;
    var pre := "";
    var inner := "";
    var i := 0;
    while i < |elts| && i < |vals|
      invariant 0 <= i <= |elts| && i <= |vals|
      invariant b.Valid() && SameShape(h, b.stateHistory) && KeptReserved(Last(h), b.Top())
      invariant FlagsKept(old(b.buildFlags), b.buildFlags) && old(b.warnings) <= b.warnings
      invariant b.Flag(SkipKey) == skip
      invariant forall k :: k in captured ==> k !in Reserved
    {
      var v :- Aliased(vals[i], captured);
      var name :- TargetName(elts[i]);
      var local := name in b.Top();
      var text :- SingleAssign(b, elts[i], v);
      if local {
        inner := inner + text;
      } else {
        pre := pre + text;
      }
      assert Outer(b.stateHistory) == Outer(h);
      i := i + 1;
    }
    var _ :- ReleaseCaptures(b, captured);
    if !BasesFound(vals) {
      return Err(ValueError);
    }
    if b.Flag(SkipKey) {
      r := Ok((pre, true, cap.2));
    } else {
      r := Ok((pre + (if inner != "" then "((lambda () " + cap.1 + inner + "))" else ""), false, cap.2));
    }
  }

  /** What one target of an assignment contributes: text to append, text
      that replaces the statement's so far along with the value the later
      targets see, or the statement's final text. */
  datatype TargetText =
    | Append(text: string, isDefine: bool)
    | Replace(text: string, isDefine: bool, value: (string, Ty))
    | Final(text: string)

  /** A tuple target of an `Assign` (newer snapshot). */
  method TupleTarget(b: Builder, elts: seq<Expr>, valueNode: Expr, value: (string, Ty)) returns (r: Result<TargetText>)
    requires b.Valid()
    modifies b
    ensures b.Valid()
    ensures FlagsKept(old(b.buildFlags), b.buildFlags) && old(b.warnings) <= b.warnings
    ensures r.Ok? ==> SameShape(old(b.stateHistory), b.stateHistory) && KeptReserved(old(b.Top()), b.Top())
    ensures r.Ok? ==> r.value.Replace?
  {
    var res :- TupleAssign(b, elts, valueNode, value);
    r := Ok(Replace(res.0, res.1, res.2));
  }

  /** A subscript target of an `Assign`. */
  method SubscriptTarget(b: Builder, t: Expr, value: (string, Ty)) returns (r: Result<TargetText>)
    requires b.Valid() && t.Subscript?
    modifies b
    ensures b.Valid()
    ensures FlagsKept(old(b.buildFlags), b.buildFlags) && old(b.warnings) <= b.warnings
    ensures r.Ok? ==> SameShape(old(b.stateHistory), b.stateHistory) && KeptReserved(old(b.Top()), b.Top())
    ensures r.Ok? ==> r.value.Final?
  {
    ghost var h := b.stateHistory;
    var res := SubscriptAssign(b, t, value.0, value.1);
    if res.Err? {
      return Err(res.error);
    }
    assert b.stateHistory == h;
    r := Ok(Final(res.value));
  }

  /** A name target of an `Assign`: its text and whether it defines. */
  method NameTarget(b: Builder, id: string, value: (string, Ty)) returns (r: Result<TargetText>)
    requires b.Valid()
    modifies b
    ensures b.Valid()
    ensures FlagsKept(old(b.buildFlags), b.buildFlags) && old(b.warnings) <= b.warnings
    ensures r.Ok? ==> SameShape(old(b.stateHistory), b.stateHistory) && KeptReserved(old(b.Top()), b.Top())
    ensures r.Ok? ==> r.value.Append?
  {
    var res :- NameAssign(b, id, value.0, value.1);
    r := Ok(Append(res.0, res.1));
  }

  /** One target of an `Assign`: a name, a subscript or (newer snapshot) a
      tuple; anything else is refused. */
  method AssignTarget(b: Builder, t: Expr, valueNode: Expr, value: (string, Ty)) returns (r: Result<TargetText>)
    requires b.Valid()
    modifies b
    ensures b.Valid()
    ensures FlagsKept(old(b.buildFlags), b.buildFlags) && old(b.warnings) <= b.warnings
    ensures r.Ok? ==> SameShape(old(b.stateHistory), b.stateHistory) && KeptReserved(old(b.Top()), b.Top())
    ensures r.Ok? ==> (r.value.Append? <==> t.Name?) && (r.value.Final? <==> t.Subscript?)
    ensures r.Ok? && r.value.Replace? ==> t.Tuple? && !b.legacy
  {
    if t.Tuple? && !b.legacy {
      r := TupleTarget(b, t.elts, valueNode, value);
    } else if t.Subscript? {
      r := SubscriptTarget(b, t, value);
    } else if t.Name? {
      r := NameTarget(b, t.id, value);
    } else {
      r := Err(AttributeError);
    }
  }

  /** `Assign`: the value is lowered once, then each target in turn; the
      texts of name targets accumulate, a multi-assignment replaces what
      came before, and a subscript target ends the statement with its own
      text. The flag says whether the last target defined a name. An
      assignment never touches the builder's bookkeeping. */
  method LowerAssign(b: Builder, s: Stmt) returns (r: Result<(string, bool)>)
    requires b.Valid() && s.Assign?
    modifies b
    ensures b.Valid()
    ensures FlagsKept(old(b.buildFlags), b.buildFlags) && old(b.warnings) <= b.warnings
    ensures r.Ok? ==> SameShape(old(b.stateHistory), b.stateHistory) && KeptReserved(old(b.Top()), b.Top())
    ensures r.Ok? ==> Effect(old(b.stateHistory), b.stateHistory, false)
    ensures r.Ok? && (forall i :: 0 <= i < |s.targets| ==> !s.targets[i].Subscript?) ==>
      forall i :: 0 <= i < |s.targets| ==> s.targets[i].Name? || (!b.legacy && s.targets[i].Tuple?)
  {
    var value :- LowerExpr(b, s.value);
    r := AssignTargets(b, s, value);
  }

  /** The targets of an `Assign`, left to right, once the value is lowered. */
  method AssignTargets(b: Builder, s: Stmt, v: (string, Ty)) returns (r: Result<(string, bool)>)
    requires b.Valid() && s.Assign?
    modifies b
    ensures b.Valid()
    ensures FlagsKept(old(b.buildFlags), b.buildFlags) && old(b.warnings) <= b.warnings
    ensures r.Ok? ==> SameShape(old(b.stateHistory), b.stateHistory) && KeptReserved(old(b.Top()), b.Top())
    ensures r.Ok? ==> Effect(old(b.stateHistory), b.stateHistory, false)
    ensures r.Ok? && (forall i :: 0 <= i < |s.targets| ==> !s.targets[i].Subscript?) ==>
      forall i :: 0 <= i < |s.targets| ==> s.targets[i].Name? || (!b.legacy && s.targets[i].Tuple?)
  {
    ghost var h := b.stateHistory;
    var value := v;
    var ret := "";
    var isDefine := false;
    var i := 0;
    while i < |s.targets|
      invariant 0 <= i <= |s.targets|
      invariant b.Valid() && SameShape(h, b.stateHistory) && KeptReserved(Last(h), b.Top())
      invariant FlagsKept(old(b.buildFlags), b.buildFlags) && old(b.warnings) <= b.warnings
      invariant forall j :: 0 <= j < i ==> s.targets[j].Name? || (!b.legacy && s.targets[j].Tuple?)
    {
      ghost var top := b.Top();
      var t :- AssignTarget(b, s.targets[i], s.value, value);
      KeptTrans(Last(h), top, b.Top());
      match t {
        case Append(text, d) =>
          ret := ret + text;
          isDefine := d;
        case Replace(text, d, v) =>
          ret := text;
          isDefine := d;
          value := v;
        case Final(text) =>
          KeptEffect(h, b.stateHistory);
          return Ok((text, false));
      }
      i := i + 1;
    }
    KeptEffect(h, b.stateHistory);
    r := Ok((ret, isDefine));
  }

  // ------------------------------------------------------------ annotated assignment

  /** The type an annotated assignment binds, given the name's entry in the
      current scope: a new name gets the annotation (newer snapshot: the
      pending type while a body hoists its definitions); a name already
      bound is refused in strict mode, unless (newer snapshot) it is only
      pending. */
  function AnnBinding(local: Option<Val>, aType: Ty, skip: bool, legacy: bool): Result<Ty>
  {
    match local
    case Some(v) => if !legacy && v == TyVal(TPending) then Ok(aType) else Err(TypeError)
    case None => Ok(if skip && !legacy then TPending else aType)
  }

  /** An annotated assignment in an `if` or `for` body is bound twice: by
      the first pass, under `__assignSkipValue__`, and by the second. In
      the older snapshot the first pass binds the annotation itself, so the
      second refuses the name as already bound, whatever the annotation. */
  lemma HoistedAnnAsWritten(aType: Ty)
    ensures AnnBinding(None, aType, true, true) == Ok(aType)
    ensures AnnBinding(Some(TyVal(aType)), aType, false, true) == Err(TypeError)
  {
  }

  /** The newer snapshot's first pass binds the pending type, which the
      second pass replaces with the annotation. */
  lemma HoistedAnnBinds(aType: Ty)
    ensures AnnBinding(None, aType, true, false) == Ok(TPending)
    ensures AnnBinding(Some(TyVal(TPending)), aType, false, false) == Ok(aType)
  {
  }

  /** `AnnAssign`: the target must be a name and the value present; the
      value must fit the annotation; then the name is bound as
      `AnnBinding` says, and the text sets or defines it. */
  method LowerAnnAssign(b: Builder, s: Stmt) returns (r: Result<string>)
    requires b.Valid() && s.AnnAssign?
    modifies b
    ensures b.Valid()
    ensures FlagsKept(old(b.buildFlags), b.buildFlags) && old(b.warnings) <= b.warnings
    ensures !s.target.Name? ==> r == Err(AttributeError)
    ensures s.target.Name? && s.annValue.None? ==> r == Err(ValueError)
    ensures r.Ok? ==> s.target.Name? && s.target.id !in Reserved &&
                      LiteralAnnotation(old(b.stateHistory), s.annotation, b.legacy).Ok?
    ensures r.Ok? ==>
      var aType := LiteralAnnotation(old(b.stateHistory), s.annotation, b.legacy).value;
      var bound := AnnBinding(Saved(old(b.Top()), s.target.id), aType, old(b.Flag(SkipKey)), b.legacy);
      bound.Ok? && b.stateHistory == old(Outer(b.stateHistory)) + [old(b.Top())[s.target.id := TyVal(bound.value)]]
    ensures r.Ok? ==> AnnText(r.value, s.target.id, LiteralAnnotation(old(b.stateHistory), s.annotation, b.legacy).value,
                              s.target.id in old(b.Top()), old(b.Flag(SkipKey)))
    ensures r.Ok? ==> SameShape(old(b.stateHistory), b.stateHistory) && KeptReserved(old(b.Top()), b.Top())
    ensures r.Ok? ==> (LegacyIsDefine(r.value) <==> s.target.id !in old(b.Top()))
  {
    if !s.target.Name? {
      return Err(AttributeError);
    }
    if s.annValue.None? {
      return Err(ValueError);
    }
    var v :- LowerExpr(b, s.annValue.value);
    assert b.Top() == old(b.Top()) && b.Flag(SkipKey) == old(b.Flag(SkipKey));
    r := AnnBind(b, s.target.id, s.annotation, v);
  }

  /** `text` assigns or defines `id` with a value whose type fits `aType`. */
  ghost predicate AnnText(text: string, id: string, aType: Ty, bound: bool, skip: bool)
  {
    exists v: (string, Ty) ::
      Compatible(v.1, aType) && text == (if bound then SetText(id, v.0) else DefineText(id, v.0, skip))
  }

  /** The rest of `AnnAssign`, once the value is lowered: check it against
      the annotation and bind the name. */
  method AnnBind(b: Builder, name: string, annotation: Expr, v: (string, Ty)) returns (r: Result<string>)
    requires b.Valid()
    modifies b
    ensures b.Valid()
    ensures FlagsKept(old(b.buildFlags), b.buildFlags) && old(b.warnings) <= b.warnings
    ensures r.Ok? ==> name !in Reserved && LiteralAnnotation(old(b.stateHistory), annotation, b.legacy).Ok?
    ensures r.Ok? ==>
      var aType := LiteralAnnotation(old(b.stateHistory), annotation, b.legacy).value;
      var bound := AnnBinding(Saved(old(b.Top()), name), aType, old(b.Flag(SkipKey)), b.legacy);
      bound.Ok? && b.stateHistory == old(Outer(b.stateHistory)) + [old(b.Top())[name := TyVal(bound.value)]]
    ensures r.Ok? ==> Compatible(v.1, LiteralAnnotation(old(b.stateHistory), annotation, b.legacy).value)
    ensures r.Ok? ==> r.value == (if name in old(b.Top()) then SetText(name, v.0)
                                  else DefineText(name, v.0, old(b.Flag(SkipKey))))
    ensures r.Ok? ==> SameShape(old(b.stateHistory), b.stateHistory) && KeptReserved(old(b.Top()), b.Top())
    ensures r.Ok? ==> (LegacyIsDefine(r.value) <==> name !in old(b.Top()))
  {
    var aType :- LiteralAnnotation(b.stateHistory, annotation, b.legacy);
    var ok := Fits(b, v.1, aType);
    if !ok {
      return Err(TypeError);
    }
    if name in Reserved {
      return Err(Unmodelled);
    }
    assert b.Top() == old(b.Top()) && b.Flag(SkipKey) == old(b.Flag(SkipKey));
    r := AnnStore(b, name, aType, v.0);
  }

  /** Bind a checked annotated name and give the assignment's text. */
  method AnnStore(b: Builder, name: string, aType: Ty, value: string) returns (r: Result<string>)
    requires b.Valid() && name !in Reserved
    modifies b
    ensures b.Valid() && b.buildFlags == old(b.buildFlags) && b.warnings == old(b.warnings)
    ensures r.Ok? ==>
      var bound := AnnBinding(Saved(old(b.Top()), name), aType, old(b.Flag(SkipKey)), b.legacy);
      bound.Ok? && b.stateHistory == old(Outer(b.stateHistory)) + [old(b.Top())[name := TyVal(bound.value)]]
    ensures r.Ok? ==> r.value == (if name in old(b.Top()) then SetText(name, value)
                                  else DefineText(name, value, old(b.Flag(SkipKey))))
    ensures r.Ok? ==> SameShape(old(b.stateHistory), b.stateHistory) && KeptReserved(old(b.Top()), b.Top())
    ensures r.Ok? ==> (LegacyIsDefine(r.value) <==> name !in old(b.Top()))
  {
    var skip := b.Flag(SkipKey);
    var local := Saved(b.Top(), name);
    var t :- AnnBinding(local, aType, skip, b.legacy);
    ghost var h := b.stateHistory;
    b.SetStateKey(name, TyVal(t));
    assert Outer(b.stateHistory) == Outer(h);
    KeptBySet(Last(h), name, TyVal(t));
    TextKinds(name, value, skip);
    if local.Some? {
      r := Ok(SetText(name, value));
    } else {
      r := Ok(DefineText(name, value, skip));
    }
  }

  /** A definition never reads as an assignment to an existing name, and
      an assignment always does. */
  lemma TextKinds(id: string, value: string, skip: bool)
    ensures LegacyIsDefine(DefineText(id, value, skip))
    ensures !LegacyIsDefine(SetText(id, value))
  {
    var d := DefineText(id, value, skip);
    assert d[1] == 'd';
    assert d[..5][1] == 'd';
    assert |d| >= 18 ==> d[..18][1] == 'd';
    assert SetText(id, value)[..5] == "(set!";
  }

  // ------------------------------------------------------------ hoisting

  /** An annotated assignment as a statement of an `if` or `for` body: its
      text, and whether it defines a name. */
  method AnnAssignment(b: Builder, s: Stmt) returns (r: Result<(string, bool)>)
    requires b.Valid() && s.AnnAssign?
    modifies b
    ensures b.Valid()
    ensures FlagsKept(old(b.buildFlags), b.buildFlags) && old(b.warnings) <= b.warnings
    ensures r.Ok? ==> SameShape(old(b.stateHistory), b.stateHistory) && KeptReserved(old(b.Top()), b.Top())
    ensures r.Ok? && b.legacy ==> r.value.1 == LegacyIsDefine(r.value.0)
    ensures r.Ok? ==> s.target.Name? && s.target.id in b.Top()
    ensures r.Ok? && (!b.legacy || old(b.Flag(SkipKey))) ==> r.value.1
    ensures b.legacy && s.target.Name? && s.target.id in old(b.Top()) ==> r.Err?
    ensures r.Ok? && !b.legacy && s.target.id !in old(b.Top()) && old(b.Flag(SkipKey)) ==>
      r.value.0 == "(define " + s.target.id + " void)" && b.Top()[s.target.id] == TyVal(TPending)
    ensures r.Ok? && !b.legacy && s.target.id in old(b.Top()) ==>
      LiteralAnnotation(old(b.stateHistory), s.annotation, false).Ok? &&
      b.Top()[s.target.id] == TyVal(LiteralAnnotation(old(b.stateHistory), s.annotation, false).value)
  {
    var text :- LowerAnnAssign(b, s);
    if s.target.id !in old(b.Top()) && old(b.Flag(SkipKey)) {
      var aType := LiteralAnnotation(old(b.stateHistory), s.annotation, b.legacy).value;
      AnnTextVoid(text, s.target.id, aType);
    }
    r := Ok((text, if b.legacy then LegacyIsDefine(text) else true));
  }

  /** A new name defined while a body hoists its definitions is defined
      as `void`. */
  lemma AnnTextVoid(text: string, id: string, aType: Ty)
    requires AnnText(text, id, aType, false, true)
    ensures text == "(define " + id + " void)"
  {
  }

  /** An `Assign` or `AnnAssign` as a statement of an `if` or `for` body:
      its text, and whether the text defines a name. The older snapshot
      tells by the text's prefix; the newer asks the assignment rule, and
      counts every annotated assignment as a definition (its rule returns
      no flag, and the placeholder type in its place is truthy). */
  method LowerAssignment(b: Builder, s: Stmt) returns (r: Result<(string, bool)>)
    requires b.Valid() && (s.Assign? || s.AnnAssign?)
    modifies b
    ensures b.Valid()
    ensures FlagsKept(old(b.buildFlags), b.buildFlags) && old(b.warnings) <= b.warnings
    ensures r.Ok? ==> SameShape(old(b.stateHistory), b.stateHistory) && KeptReserved(old(b.Top()), b.Top())
    ensures r.Ok? && b.legacy ==> r.value.1 == LegacyIsDefine(r.value.0)
    ensures r.Ok? && s.AnnAssign? ==> s.target.Name? && s.target.id in b.Top()
    ensures r.Ok? && s.AnnAssign? && (!b.legacy || old(b.Flag(SkipKey))) ==> r.value.1
    ensures s.AnnAssign? && b.legacy && s.target.Name? && s.target.id in old(b.Top()) ==> r.Err?
    ensures r.Ok? && s.AnnAssign? && !b.legacy && s.target.id !in old(b.Top()) && old(b.Flag(SkipKey)) ==>
      r.value.0 == "(define " + s.target.id + " void)" && b.Top()[s.target.id] == TyVal(TPending)
    ensures r.Ok? && s.AnnAssign? && !b.legacy && s.target.id in old(b.Top()) ==>
      LiteralAnnotation(old(b.stateHistory), s.annotation, false).Ok? &&
      b.Top()[s.target.id] == TyVal(LiteralAnnotation(old(b.stateHistory), s.annotation, false).value)
  {
    if s.Assign? {
      var res :- LowerAssign(b, s);
      r := Ok((res.0, if b.legacy then LegacyIsDefine(res.0) else res.1));
    } else {
      r := AnnAssignment(b, s);
    }
  }

  /** The first pass over such an assignment, under `__assignSkipValue__`:
      a definition comes out without its value. */
  method SkipPass(b: Builder, s: Stmt) returns (r: Result<(string, bool)>)
    requires b.Valid() && (s.Assign? || s.AnnAssign?)
    modifies b
    ensures b.Valid()
    ensures FlagsKept(old(b.buildFlags), b.buildFlags) && old(b.warnings) <= b.warnings
    ensures r.Ok? ==> SameShape(old(b.stateHistory), b.stateHistory) && KeptReserved(old(b.Top()), b.Top())
    ensures r.Ok? && b.legacy ==> r.value.1 == LegacyIsDefine(r.value.0)
    ensures r.Ok? && s.AnnAssign? ==> r.value.1 && s.target.Name? && s.target.id in b.Top()
    ensures r.Ok? && s.AnnAssign? && !b.legacy && s.target.id !in old(b.Top()) ==>
      r.value.0 == "(define " + s.target.id + " void)" && b.Top()[s.target.id] == TyVal(TPending)
  {
    ghost var h0 := b.stateHistory;
    var saved := b.TempEnter(SkipKey, FlagVal(true));
    r := LowerAssignment(b, s);
    if r.Err? {
      return;
    }
    ghost var h2 := b.stateHistory;
    b.TempExit(SkipKey, saved);
    AcrossTemp(h0, h2, SkipKey, FlagVal(true), false);
    if s.AnnAssign? {
      assert s.target.id != SkipKey;
    }
  }

  /** A statement `s` of an `if` or `for` body that assigns: a definition
      found by the first pass is recorded in `__definitions__` (for the
      root control statement to write before itself) and the statement is
      lowered again, now as an assignment; anything else keeps the first
      pass's text. The older snapshot cannot hoist an annotated assignment:
      its first pass binds the name, so the second refuses to redefine it. */
  method HandleAssign(b: Builder, s: Stmt) returns (r: Result<string>)
    requires b.Valid() && (s.Assign? || s.AnnAssign?)
    modifies b
    ensures b.Valid()
    ensures FlagsKept(old(b.buildFlags), b.buildFlags) && old(b.warnings) <= b.warnings
    ensures r.Ok? ==> Effect(old(b.stateHistory), b.stateHistory, false)
    ensures r.Ok? ==> (b.Definitions() == old(b.Definitions()) ||
                       exists d :: b.Definitions() == old(b.Definitions()) + [d] && (b.legacy ==> LegacyIsDefine(d)))
    ensures r.Ok? && b.legacy && b.Definitions() == old(b.Definitions()) ==> !LegacyIsDefine(r.value)
    ensures b.legacy && s.AnnAssign? ==> r.Err?
    ensures r.Ok? && !b.legacy && s.AnnAssign? ==> s.target.Name? && s.target.id in b.Top()
    ensures r.Ok? && !b.legacy && s.AnnAssign? && s.target.id !in old(b.Top()) ==>
      b.Definitions() == old(b.Definitions()) + ["(define " + s.target.id + " void)"]
    ensures r.Ok? && !b.legacy && s.AnnAssign? && SimpleAnnotation(s.annotation) ==>
      LiteralAnnotation([], s.annotation, true).Ok? &&
      b.Top()[s.target.id] == TyVal(LiteralAnnotation([], s.annotation, true).value)
  {
    ghost var h0 := b.stateHistory;
    var first :- SkipPass(b, s);
    KeptEffect(h0, b.stateHistory);
    if !first.1 {
      return Ok(first.0);
    }
    ghost var h1 := b.stateHistory;
    r := Hoist(b, s, first.0);
    if r.Ok? {
      EffectTrans(h0, h1, b.stateHistory, false, false);
    }
  }

  /** The second pass of `HandleAssign`: record the first pass's definition
      and lower the statement again, now as an assignment. */
  method Hoist(b: Builder, s: Stmt, definition: string) returns (r: Result<string>)
    requires b.Valid() && (s.Assign? || s.AnnAssign?)
    requires s.AnnAssign? ==> s.target.Name? && s.target.id in b.Top()
    modifies b
    ensures b.Valid()
    ensures FlagsKept(old(b.buildFlags), b.buildFlags) && old(b.warnings) <= b.warnings
    ensures r.Ok? ==> Effect(old(b.stateHistory), b.stateHistory, false)
    ensures r.Ok? ==> b.Definitions() == old(b.Definitions()) + [definition]
    ensures b.legacy && s.AnnAssign? ==> r.Err?
    ensures r.Ok? && !b.legacy && s.AnnAssign? ==> s.target.id in b.Top()
    ensures r.Ok? && !b.legacy && s.AnnAssign? && SimpleAnnotation(s.annotation) ==>
      LiteralAnnotation([], s.annotation, true).Ok? &&
      b.Top()[s.target.id] == TyVal(LiteralAnnotation([], s.annotation, true).value)
  {
    ghost var h1 := b.stateHistory;
    assert FrameOk(b.stateHistory[|b.stateHistory| - 1], b.legacy);
    var defs := b.Definitions() + [definition];
    b.SetStateKey(DefsKey, DefsVal(defs));
    assert Outer(b.stateHistory) == Outer(h1);
    ghost var h2 := b.stateHistory;
    var second :- LowerAssignment(b, s);
    assert Outer(b.stateHistory) == Outer(h1);
    assert b.Definitions() == defs;
    if s.AnnAssign? && !b.legacy && SimpleAnnotation(s.annotation) {
      SimpleAnnotationIsPlain(h2, s.annotation, false);
    }
    r := Ok(second.0);
  }

  // ------------------------------------------------------------ root claim

  /** The claim of the outermost `if` or `for` of a body: a statement that
      finds no claim held in its scope takes it, and becomes the root that
      writes the hoisted definitions before itself. */
  method AcquireClaim(b: Builder) returns (root: bool)
    requires b.Valid()
    modifies b
    ensures b.Valid() && b.buildFlags == old(b.buildFlags) && b.warnings == old(b.warnings)
    ensures root == !old(b.Flag(ClaimKey))
    ensures root ==> b.stateHistory == old(Outer(b.stateHistory)) + [old(b.Top())[ClaimKey := FlagVal(true)]]
    ensures !root ==> b.stateHistory == old(b.stateHistory)
    ensures b.Flag(ClaimKey) && b.Definitions() == old(b.Definitions())
    ensures Effect(old(b.stateHistory), b.stateHistory, false)
  {
    assert FrameOk(b.stateHistory[|b.stateHistory| - 1], b.legacy);
    root := !b.Flag(ClaimKey);
    if root {
      ghost var h := b.stateHistory;
      b.SetStateKey(ClaimKey, FlagVal(true));
      assert Outer(b.stateHistory) == Outer(h);
    }
  }

  /** The root gives the claim back and takes the hoisted definitions. */
  method ReleaseClaim(b: Builder) returns (defs: seq<string>)
    requires b.Valid()
    modifies b
    ensures b.Valid() && b.buildFlags == old(b.buildFlags) && b.warnings == old(b.warnings)
    ensures defs == old(b.Definitions())
    ensures b.stateHistory == old(Outer(b.stateHistory)) +
      [old(b.Top())[DefsKey := DefsVal([])][ClaimKey := FlagVal(false)]]
    ensures b.Definitions() == [] && !b.Flag(ClaimKey)
    ensures Moves(old(b.stateHistory), b.stateHistory, false)
    ensures SameEntry(old(b.Top()), b.Top(), PathsKey)
  {
    defs := b.Definitions();
    ghost var h := b.stateHistory;
    b.SetStateKey(DefsKey, DefsVal([]));
    b.SetStateKey(ClaimKey, FlagVal(false));
    assert Outer(b.stateHistory) == Outer(h);
  }
}
