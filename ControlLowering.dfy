// The control statements of `_Builder` (pyschemetranspiler/builder.py and,
// where `b.legacy` is set, the older PySchemeTranspiler/builder.py): `if`,
// `for` and `def`, the bodies they lower, and `buildFromNode`, which sends a
// statement to its rule. These rules call one another, so they live in one
// module; each keeps the frame `Effect` describes.
//
// A body of an `if` or `for` does not define names where they are first
// assigned: the outermost such statement of a scope (the root, which takes
// the `__definitionsClaim__`) collects the definitions its bodies produce
// in `__definitions__` and writes them before itself.

module ControlLowering {
  import opened Wrappers
  import opened Types
  import opened Ast
  import opened ExtraCodes
  import opened Scope
  import opened Rules
  import opened ExprLowering
  import opened StmtLowering

  /** `IGNORED_IMPORTS`: the modules whose `from ... import` is dropped. */
  const IgnoredImports: seq<string> := ["typing"]

  // ------------------------------------------------------------ dispatch

  /** `buildFromNode` on a statement: its rule's text. */
  method LowerStmt(b: Builder, s: Stmt) returns (r: Result<string>)
    requires b.Valid()
    modifies b
    decreases StmtSize(s), 6
    ensures b.Valid()
    ensures FlagsKept(old(b.buildFlags), b.buildFlags) && old(b.warnings) <= b.warnings
    ensures r.Ok? ==> Effect(old(b.stateHistory), b.stateHistory, SetsReturn(s, b.legacy))
    ensures s.ImportFrom? ==>
      r == (if s.moduleName.Some? && s.moduleName.value in IgnoredImports then Ok("") else Err(ValueError))
    ensures s.OtherStmt? ==> r == Err(ValueError)
    ensures b.legacy && (s.AugAssign? || s.Assert?) ==> r == Err(ValueError)
    ensures s.ExprStmt? && r.Ok? ==> b.stateHistory == old(b.stateHistory)
  {
    ghost var h := b.stateHistory;
    match s
    case FunctionDef(_, _, _, _) =>
      r := LowerFunctionDef(b, s);
    case Return(_) =>
      r := LowerReturn(b, s);
    case If(_, _, _) =>
      var res :- LowerIf(b, s);
      r := Ok(res.0);
    case For(_, _, _, _) =>
      r := LowerFor(b, s);
    case ImportFrom(m) =>
      EffectRefl(h);
      r := if m.Some? && m.value in IgnoredImports then Ok("") else Err(ValueError);
    case OtherStmt =>
      r := Err(ValueError);
    case _ =>
      r := SimpleStmt(b, s);
  }

  /** The statements that hold only expressions: assignments of all three
      kinds, expression statements and assertions. */
  method SimpleStmt(b: Builder, s: Stmt) returns (r: Result<string>)
    requires b.Valid() && (s.Assign? || s.AugAssign? || s.AnnAssign? || s.ExprStmt? || s.Assert?)
    modifies b
    ensures b.Valid()
    ensures FlagsKept(old(b.buildFlags), b.buildFlags) && old(b.warnings) <= b.warnings
    ensures r.Ok? ==> Effect(old(b.stateHistory), b.stateHistory, SetsReturn(s, b.legacy))
    ensures b.legacy && (s.AugAssign? || s.Assert?) ==> r == Err(ValueError)
    ensures s.ExprStmt? && r.Ok? ==> b.stateHistory == old(b.stateHistory)
  {
    ghost var h := b.stateHistory;
    match s
    case Assign(_, _) =>
      var res :- LowerAssign(b, s);
      r := Ok(res.0);
    case AugAssign(t, op, v) =>
      if b.legacy {
        return Err(ValueError);
      }
      // `x op= v` is lowered as `x = x op v`
      var res :- LowerAssign(b, Assign([t], BinOp(t, op, v)));
      r := Ok(res.0);
    case AnnAssign(_, _, _) =>
      r := LowerAnnAssign(b, s);
      if r.Ok? {
        KeptEffect(h, b.stateHistory);
      }
    case ExprStmt(e) =>
      var v :- LowerExpr(b, e);
      EffectRefl(h);
      r := Ok(v.0);
    case Assert(test, msg) =>
      if b.legacy {
        return Err(ValueError);
      }
      r := LowerAssert(b, test, msg);
      EffectRefl(h);
  }

  /** `Assert` (newer snapshot): the test and the message are lowered and
      the statement becomes a `raise` of an assertion error unless the test
      holds. */
  method LowerAssert(b: Builder, test: Expr, msg: Option<Expr>) returns (r: Result<string>)
    requires b.Valid()
    modifies b
    ensures b.Valid()
    ensures FlagsKept(old(b.buildFlags), b.buildFlags) && old(b.warnings) <= b.warnings
    ensures r.Ok? ==> b.stateHistory == old(b.stateHistory)
    ensures r.Ok? ==> exists t: string, m: Option<(string, Ty)> :: r.value == AssertText(t, m) && (m.Some? <==> msg.Some?)
  {
    var t :- LowerExpr(b, test);
    var m: Option<(string, Ty)> := None;
    if msg.Some? {
      var mv :- LowerExpr(b, msg.value);
      m := Some(mv);
    }
    r := Ok(AssertText(t.0, m));
  }

  // ------------------------------------------------------------ bodies

  /** One statement of a branch or loop body. Assignments go through
      `HandleAssign`, which hoists their definitions. With `tracked` (the
      branches of the newer snapshot's `if`) it also reports whether the
      statement returns. */
  method BodyStmt(b: Builder, s: Stmt, tracked: bool) returns (r: Result<(string, bool)>)
    requires b.Valid() && (tracked ==> !b.legacy)
    modifies b
    decreases StmtSize(s), 7
    ensures b.Valid()
    ensures FlagsKept(old(b.buildFlags), b.buildFlags) && old(b.warnings) <= b.warnings
    ensures r.Ok? ==> Effect(old(b.stateHistory), b.stateHistory, SetsReturn(s, b.legacy))
    ensures r.Ok? && tracked ==> r.value.1 == Returns(s)
  {
    if s.Assign? || s.AnnAssign? {
      var text :- HandleAssign(b, s);
      r := Ok((text, false));
    } else if s.If? {
      r := LowerIf(b, s);
    } else {
      var text :- LowerStmt(b, s);
      r := Ok((text, s.Return?));
    }
  }

  /** The statements of a branch or loop body, their texts concatenated.
      With `tracked` the body reports whether it ends in a `return`, and
      refuses any statement after one. */
  method LowerBody(b: Builder, ss: seq<Stmt>, tracked: bool) returns (r: Result<(string, bool)>)
    requires b.Valid() && (tracked ==> !b.legacy)
    modifies b
    decreases StmtsSize(ss), 8
    ensures b.Valid()
    ensures FlagsKept(old(b.buildFlags), b.buildFlags) && old(b.warnings) <= b.warnings
    ensures ss == [] ==> r == Ok(("", false)) && b.stateHistory == old(b.stateHistory)
    ensures r.Ok? ==> Effect(old(b.stateHistory), b.stateHistory, AnyReturn(ss, b.legacy))
    ensures r.Ok? && tracked ==> NothingAfterReturn(ss) && r.value.1 == EndsInReturn(ss)
  {
    ghost var h0 := b.stateHistory;
    EffectRefl(h0);
    if ss == [] {
      assert !ReturnsAmong(ss, 0, b.legacy);
      return Ok(("", false));
    }
    AllInSize(ss);
    var text := "";
    var did := false;
    var i := 0;
    while i < |ss|
      invariant 0 <= i <= |ss|
      invariant b.Valid()
      invariant FlagsKept(old(b.buildFlags), b.buildFlags) && old(b.warnings) <= b.warnings
      invariant Effect(h0, b.stateHistory, ReturnsAmong(ss, i, b.legacy))
      invariant tracked ==> (forall j :: 0 <= j < i - 1 ==> !Returns(ss[j])) && did == (i > 0 && Returns(ss[i - 1]))
    {
      if tracked && did {
        return Err(ValueError);
      }
      ghost var h1 := b.stateHistory;
      var res :- BodyStmt(b, ss[i], tracked);
      EffectTrans(h0, h1, b.stateHistory, ReturnsAmong(ss, i, b.legacy), SetsReturn(ss[i], b.legacy));
      ReturnsAmongStep(ss, i, b.legacy);
      text := text + res.0;
      did := res.1;
      i := i + 1;
    }
    r := Ok((text, did));
  }

  /** A branch lowered under `__innerBody__` set as given, which is given
      back afterwards. */
  method BranchBody(b: Builder, ss: seq<Stmt>, innerBody: bool) returns (r: Result<(string, bool)>)
    requires b.Valid()
    modifies b
    decreases StmtsSize(ss), 9
    ensures b.Valid()
    ensures FlagsKept(old(b.buildFlags), b.buildFlags) && old(b.warnings) <= b.warnings
    ensures ss == [] ==> r == Ok(("", false))
    ensures r.Ok? ==> Effect(old(b.stateHistory), b.stateHistory, AnyReturn(ss, b.legacy))
    ensures r.Ok? ==> SameEntry(old(b.Top()), b.Top(), InnerBodyKey)
    ensures r.Ok? && !b.legacy ==> NothingAfterReturn(ss) && r.value.1 == EndsInReturn(ss)
  {
    ghost var h0 := b.stateHistory;
    var saved := b.TempEnter(InnerBodyKey, FlagVal(innerBody));
    var res :- LowerBody(b, ss, !b.legacy);
    ghost var h2 := b.stateHistory;
    b.TempExit(InnerBodyKey, saved);
    LeaveTemp(h0, h2, InnerBodyKey, FlagVal(innerBody), AnyReturn(ss, b.legacy));
    r := Ok(res);
  }

  /** The newer snapshot adds a branch's return behaviour to the paths of
      its `if`, and refuses a second, different one. */
  method RecordPath(b: Builder, ret: bool) returns (r: Result<()>)
    requires b.Valid() && !b.legacy
    modifies b
    ensures b.Valid() && b.buildFlags == old(b.buildFlags) && b.warnings == old(b.warnings)
    ensures r.Ok? <==> AddPath(PathsIn(old(b.Top())), ret).Ok?
    ensures r.Ok? ==> AddPath(PathsIn(old(b.Top())), ret) == Ok(PathsIn(b.Top()))
    ensures r.Ok? ==> Moves(old(b.stateHistory), b.stateHistory, false)
    ensures r.Ok? ==> Hoisting(old(b.Top()), b.Top()) && SameEntry(old(b.Top()), b.Top(), InnerBodyKey)
  {
    assert FrameOk(b.stateHistory[|b.stateHistory| - 1], b.legacy);
    var paths :- AddPath(b.Top()[PathsKey].paths, ret);
    ghost var h := b.stateHistory;
    b.SetStateKey(PathsKey, PathsVal(paths));
    assert Outer(b.stateHistory) == Outer(h);
    r := Ok(());
  }

  /** `buildBody`: a branch of an `if`, lowered with `__innerBody__` set as
      given; the newer snapshot records its return behaviour. */
  method LowerBranch(b: Builder, ss: seq<Stmt>, innerBody: bool) returns (r: Result<(string, bool)>)
    requires b.Valid()
    modifies b
    decreases StmtsSize(ss), 10
    ensures b.Valid()
    ensures FlagsKept(old(b.buildFlags), b.buildFlags) && old(b.warnings) <= b.warnings
    ensures ss == [] && (b.legacy || PathsIn(old(b.Top())) == {}) ==> r.Ok? && r.value.0 == ""
    ensures r.Ok? ==> Moves(old(b.stateHistory), b.stateHistory, AnyReturn(ss, b.legacy))
    ensures r.Ok? ==> Hoisting(old(b.Top()), b.Top()) && SameEntry(old(b.Top()), b.Top(), InnerBodyKey)
    ensures r.Ok? && b.legacy ==> SameEntry(old(b.Top()), b.Top(), PathsKey)
    ensures r.Ok? && !b.legacy ==>
      NothingAfterReturn(ss) && r.value.1 == EndsInReturn(ss) &&
      AddPath(PathsIn(old(b.Top())), EndsInReturn(ss)) == Ok(PathsIn(b.Top()))
  {
    ghost var h0 := b.stateHistory;
    var res :- BranchBody(b, ss, innerBody);
    if !b.legacy {
      ghost var h1 := b.stateHistory;
      if PathsIn(b.Top()) == {} {
        AddPathToNone(res.1);
      }
      var _ :- RecordPath(b, res.1);
      MovesTrans(h0, h1, b.stateHistory, AnyReturn(ss, false), false);
    }
    r := Ok(res);
  }

  // ------------------------------------------------------------ if

  /** `text` is the text of an `if` with one or two paths, whose root flag
      and `__innerBody__` are as given; a root writes hoisted definitions
      that extend `prior`. */
  ghost predicate IsIfText(text: string, root: bool, innerBody: bool, prior: seq<string>)
  {
    exists defs: seq<string>, paths: seq<string> ::
      1 <= |paths| <= 2 && text == IfText(root, innerBody, defs, paths) && (root ==> prior <= defs)
  }

  /** `If`: the newer snapshot collects the paths' return behaviours in a
      fresh `__pathDidReturn__` and reports the one they share. */
  method LowerIf(b: Builder, s: Stmt) returns (r: Result<(string, bool)>)
    requires b.Valid() && s.If?
    modifies b
    decreases StmtSize(s), 5
    ensures b.Valid()
    ensures FlagsKept(old(b.buildFlags), b.buildFlags) && old(b.warnings) <= b.warnings
    ensures s.body == [] ==> r == Err(IndentationError)
    ensures r.Ok? ==> Effect(old(b.stateHistory), b.stateHistory, SetsReturn(s, b.legacy))
    ensures r.Ok? && !b.legacy ==> r.value.1 == EndsInReturn(s.body) && NothingAfterReturn(s.body)
    ensures r.Ok? && !b.legacy && s.orelse != [] ==>
      EndsInReturn(s.orelse) == EndsInReturn(s.body) && NothingAfterReturn(s.orelse)
    ensures r.Ok? && !old(b.Flag(ClaimKey)) ==> b.Definitions() == [] && !b.Flag(ClaimKey)
    ensures r.Ok? ==> IsIfText(r.value.0, !old(b.Flag(ClaimKey)), old(b.Flag(InnerBodyKey)), old(b.Definitions()))
  {
    if b.legacy {
      r := IfCore(b, s);
    } else {
      r := IfScoped(b, s);
    }
  }

  /** The newer snapshot's `if`, under a fresh `__pathDidReturn__`. */
  method IfScoped(b: Builder, s: Stmt) returns (r: Result<(string, bool)>)
    requires b.Valid() && s.If? && !b.legacy
    modifies b
    decreases StmtSize(s), 4
    ensures b.Valid()
    ensures FlagsKept(old(b.buildFlags), b.buildFlags) && old(b.warnings) <= b.warnings
    ensures s.body == [] ==> r == Err(IndentationError)
    ensures r.Ok? ==> Effect(old(b.stateHistory), b.stateHistory, SetsReturn(s, false))
    ensures r.Ok? ==> r.value.1 == EndsInReturn(s.body) && NothingAfterReturn(s.body)
    ensures r.Ok? && s.orelse != [] ==> EndsInReturn(s.orelse) == EndsInReturn(s.body) && NothingAfterReturn(s.orelse)
    ensures r.Ok? && !old(b.Flag(ClaimKey)) ==> b.Definitions() == [] && !b.Flag(ClaimKey)
    ensures r.Ok? ==> IsIfText(r.value.0, !old(b.Flag(ClaimKey)), old(b.Flag(InnerBodyKey)), old(b.Definitions()))
  {
    ghost var h0 := b.stateHistory;
    var saved := b.TempEnter(PathsKey, PathsVal({}));
    assert b.Flag(ClaimKey) == old(b.Flag(ClaimKey)) && b.Flag(InnerBodyKey) == old(b.Flag(InnerBodyKey));
    assert b.Definitions() == old(b.Definitions());
    r := IfCore(b, s);
    if r.Err? {
      return;
    }
    ghost var h2 := b.stateHistory;
    b.TempExit(PathsKey, saved);
    PathsScope(h0, h2, SetsReturn(s, false));
    assert FrameOk(h2[|h2| - 1], b.legacy);
  }

  /** Leaving a `TempState` on a key the effect does not watch keeps the
      effect of what ran inside, and gives the key back. */
  lemma LeaveTemp(h0: seq<Frame>, h2: seq<Frame>, key: string, v: Val, ret: bool)
    requires |h0| >= 1 && key !in Watched
    requires Effect(Outer(h0) + [Last(h0)[key := v]], h2, ret)
    ensures var h3 := Outer(h2) + [Restore(Last(h2), key, Saved(Last(h0), key))];
      Effect(h0, h3, ret) && SameEntry(Last(h0), Last(h3), key)
  {
    AcrossTemp(h0, h2, key, v, ret);
  }

  /** Leaving the fresh `__pathDidReturn__` of an `if` keeps the effect of
      what ran inside, and the claim and definitions it left. */
  lemma PathsScope(h0: seq<Frame>, h2: seq<Frame>, ret: bool)
    requires |h0| >= 1
    requires Moves(Outer(h0) + [Last(h0)[PathsKey := PathsVal({})]], h2, ret)
    requires Hoisting(Last(h0)[PathsKey := PathsVal({})], Last(h2))
    ensures var h3 := Outer(h2) + [Restore(Last(h2), PathsKey, Saved(Last(h0), PathsKey))];
      Effect(h0, h3, ret) && SameEntry(Last(h2), Last(h3), ClaimKey) && SameEntry(Last(h2), Last(h3), DefsKey)
  {
    AcrossTemp(h0, h2, PathsKey, PathsVal({}), ret);
  }

  /** The `if` proper: take the claim if no one holds it, lower the paths;
      a root writes the hoisted definitions first and gives the claim back. */
  method IfCore(b: Builder, s: Stmt) returns (r: Result<(string, bool)>)
    requires b.Valid() && s.If?
    requires !b.legacy ==> PathsIn(b.Top()) == {}
    modifies b
    decreases StmtSize(s), 3
    ensures b.Valid()
    ensures FlagsKept(old(b.buildFlags), b.buildFlags) && old(b.warnings) <= b.warnings
    ensures s.body == [] ==> r == Err(IndentationError)
    ensures r.Ok? ==> Moves(old(b.stateHistory), b.stateHistory, SetsReturn(s, b.legacy))
    ensures r.Ok? ==> Hoisting(old(b.Top()), b.Top())
    ensures r.Ok? && b.legacy ==> SameEntry(old(b.Top()), b.Top(), PathsKey)
    ensures r.Ok? && !b.legacy ==> PathsIn(b.Top()) == {r.value.1}
    ensures r.Ok? && !b.legacy ==> r.value.1 == EndsInReturn(s.body) && NothingAfterReturn(s.body)
    ensures r.Ok? && !b.legacy && s.orelse != [] ==>
      EndsInReturn(s.orelse) == EndsInReturn(s.body) && NothingAfterReturn(s.orelse)
    ensures r.Ok? && !old(b.Flag(ClaimKey)) ==> b.Definitions() == [] && !b.Flag(ClaimKey)
    ensures r.Ok? ==> IsIfText(r.value.0, !old(b.Flag(ClaimKey)), old(b.Flag(InnerBodyKey)), old(b.Definitions()))
  {
    ghost var h0 := b.stateHistory;
    var root := AcquireClaim(b);
    ghost var h1 := b.stateHistory;
    assert SameEntry(Last(h0), Last(h1), InnerBodyKey) && SameEntry(Last(h0), Last(h1), PathsKey);
    r := ClaimedIf(b, s, root);
    if r.Ok? {
      MovesTrans(h0, h1, b.stateHistory, false, SetsReturn(s, b.legacy));
    }
  }

  /** An `if` lowered while the hoisting claim is held; a root gives it back. */
  method ClaimedIf(b: Builder, s: Stmt, root: bool) returns (r: Result<(string, bool)>)
    requires b.Valid() && s.If? && b.Flag(ClaimKey)
    requires !b.legacy ==> PathsIn(b.Top()) == {}
    modifies b
    decreases StmtSize(s), 2
    ensures b.Valid()
    ensures FlagsKept(old(b.buildFlags), b.buildFlags) && old(b.warnings) <= b.warnings
    ensures s.body == [] ==> r == Err(IndentationError)
    ensures r.Ok? ==> Moves(old(b.stateHistory), b.stateHistory, SetsReturn(s, b.legacy))
    ensures r.Ok? && !root ==> Hoisting(old(b.Top()), b.Top())
    ensures r.Ok? && b.legacy ==> SameEntry(old(b.Top()), b.Top(), PathsKey)
    ensures r.Ok? && !b.legacy ==> PathsIn(b.Top()) == {r.value.1}
    ensures r.Ok? && !b.legacy ==> r.value.1 == EndsInReturn(s.body) && NothingAfterReturn(s.body)
    ensures r.Ok? && !b.legacy && s.orelse != [] ==>
      EndsInReturn(s.orelse) == EndsInReturn(s.body) && NothingAfterReturn(s.orelse)
    ensures r.Ok? && root ==> b.Definitions() == [] && !b.Flag(ClaimKey)
    ensures r.Ok? ==> IsIfText(r.value.0, root, old(b.Flag(InnerBodyKey)), old(b.Definitions()))
  {
    ghost var h1 := b.stateHistory;
    ghost var inner := b.Flag(InnerBodyKey);
    var ps :- IfPaths(b, s);
    ghost var h3 := b.stateHistory;
    assert FrameOk(b.stateHistory[|b.stateHistory| - 1], b.legacy);
    assert b.Flag(InnerBodyKey) == inner;
    assert DefsIn(Last(h1)) == old(b.Definitions()) && DefsIn(Last(h3)) == b.Definitions();
    ghost var defs := b.Definitions();
    var text := IfFinish(b, root, ps.0);
    MovesTrans(h1, h3, b.stateHistory, SetsReturn(s, b.legacy), false);
    r := Ok((text, ps.1));
    assert 1 <= |ps.0| <= 2 && text == IfText(root, inner, defs, ps.0);
  }

  /** The paths of an `if`: lower the body (an empty one is refused), the
      test as a condition, then the `else`. */
  method IfPaths(b: Builder, s: Stmt) returns (r: Result<(seq<string>, bool)>)
    requires b.Valid() && s.If?
    requires !b.legacy ==> PathsIn(b.Top()) == {}
    modifies b
    decreases StmtSize(s), 1
    ensures b.Valid()
    ensures FlagsKept(old(b.buildFlags), b.buildFlags) && old(b.warnings) <= b.warnings
    ensures s.body == [] ==> r == Err(IndentationError)
    ensures r.Ok? ==> 1 <= |r.value.0| <= 2
    ensures r.Ok? ==> Moves(old(b.stateHistory), b.stateHistory, SetsReturn(s, b.legacy))
    ensures r.Ok? ==> Hoisting(old(b.Top()), b.Top()) && SameEntry(old(b.Top()), b.Top(), InnerBodyKey)
    ensures r.Ok? && b.legacy ==> SameEntry(old(b.Top()), b.Top(), PathsKey)
    ensures r.Ok? && !b.legacy ==> PathsIn(b.Top()) == {r.value.1}
    ensures r.Ok? && !b.legacy ==> r.value.1 == EndsInReturn(s.body) && NothingAfterReturn(s.body)
    ensures r.Ok? && !b.legacy && s.orelse != [] ==>
      EndsInReturn(s.orelse) == EndsInReturn(s.body) && NothingAfterReturn(s.orelse)
  {
    ghost var h0 := b.stateHistory;
    var first :- FirstPath(b, s);
    ghost var h2 := b.stateHistory;
    var paths := [first.0];
    var rest :- IfElse(b, s);
    if rest.Some? {
      paths := paths + [rest.value];
    }
    if !b.legacy && s.orelse != [] {
      AddPathToOne(first.1, EndsInReturn(s.orelse));
    }
    MovesTrans(h0, h2, b.stateHistory, AnyReturn(s.body, b.legacy), ElseReturns(s, b.legacy));
    IfReturns(s, b.legacy);
    r := Ok((paths, first.1));
  }

  /** The first path of an `if`: its body (an empty one is refused) behind
      its test, lowered as a condition. */
  method FirstPath(b: Builder, s: Stmt) returns (r: Result<(string, bool)>)
    requires b.Valid() && s.If?
    requires !b.legacy ==> PathsIn(b.Top()) == {}
    modifies b
    decreases StmtSize(s), 0
    ensures b.Valid()
    ensures FlagsKept(old(b.buildFlags), b.buildFlags) && old(b.warnings) <= b.warnings
    ensures s.body == [] ==> r == Err(IndentationError)
    ensures r.Ok? ==> Moves(old(b.stateHistory), b.stateHistory, AnyReturn(s.body, b.legacy))
    ensures r.Ok? ==> Hoisting(old(b.Top()), b.Top()) && SameEntry(old(b.Top()), b.Top(), InnerBodyKey)
    ensures r.Ok? && b.legacy ==> SameEntry(old(b.Top()), b.Top(), PathsKey)
    ensures r.Ok? && !b.legacy ==> PathsIn(b.Top()) == {r.value.1}
    ensures r.Ok? && !b.legacy ==> r.value.1 == EndsInReturn(s.body) && NothingAfterReturn(s.body)
  {
    var first :- LowerBranch(b, s.body, true);
    if first.0 == "" {
      return Err(IndentationError);
    }
    if !b.legacy {
      AddPathToNone(EndsInReturn(s.body));
    }
    var test :- LowerWith(b, ResolveKey, FlagVal(true), s.test);
    r := Ok(("(" + test.0 + " " + first.0 + ")", first.1));
  }

  /** The `else` of an `if`: nothing; a lone `if` (an `elif`), lowered as
      an inner branch whose bare paths join this `cond`; or an `(else ...)`
      path. The older snapshot takes the first statement as an `elif`
      whenever it is an `if`, and drops the statements after it. */
  method IfElse(b: Builder, s: Stmt) returns (r: Result<Option<string>>)
    requires b.Valid() && s.If?
    modifies b
    decreases StmtSize(s), 0
    ensures b.Valid()
    ensures FlagsKept(old(b.buildFlags), b.buildFlags) && old(b.warnings) <= b.warnings
    ensures s.orelse == [] ==> r == Ok(None) && b.stateHistory == old(b.stateHistory)
    ensures r.Ok? ==> (r.value.Some? <==> s.orelse != [])
    ensures r.Ok? ==> Moves(old(b.stateHistory), b.stateHistory, ElseReturns(s, b.legacy))
    ensures r.Ok? ==> Hoisting(old(b.Top()), b.Top()) && SameEntry(old(b.Top()), b.Top(), InnerBodyKey)
    ensures r.Ok? && b.legacy ==> SameEntry(old(b.Top()), b.Top(), PathsKey)
    ensures r.Ok? && !b.legacy && s.orelse != [] ==>
      NothingAfterReturn(s.orelse) && AddPath(PathsIn(old(b.Top())), EndsInReturn(s.orelse)) == Ok(PathsIn(b.Top()))
  {
    if s.orelse == [] {
      assert !ReturnsAmong(s.orelse, 0, b.legacy);
      return Ok(None);
    }
    StmtInSize(s.orelse, 0);
    if s.orelse[0].If? && (b.legacy || |s.orelse| == 1) {
      var inner := [s.orelse[0]];
      assert inner[1..] == [];
      assert StmtsSize(inner) == StmtSize(s.orelse[0]);
      var e :- LowerBranch(b, inner, false);
      AnyReturnSingle(s.orelse[0], b.legacy);
      if !b.legacy {
        assert inner == s.orelse;
      }
      r := Ok(Some(e.0));
    } else {
      var e :- LowerBranch(b, s.orelse, true);
      r := Ok(Some("(else " + e.0 + ")"));
    }
  }

  /** Whether lowering the `else` of `s` sets `__didReturn__`. */
  predicate ElseReturns(s: Stmt, legacy: bool)
    requires s.If?
  {
    if legacy && |s.orelse| > 0 && s.orelse[0].If? then SetsReturn(s.orelse[0], true)
    else AnyReturn(s.orelse, legacy)
  }

  /** The statements of an `else` that are lowered: the older snapshot
      takes an `else` starting with an `if` for an `elif` and lowers only
      that `if`; the newer one does so only when the `if` is alone. */
  function ElseStmts(orelse: seq<Stmt>, legacy: bool): seq<Stmt>
  {
    if |orelse| > 0 && orelse[0].If? && (legacy || |orelse| == 1) then [orelse[0]] else orelse
  }

  /** In the newer snapshot every statement of the `else` is lowered. */
  lemma ElseKeepsAll(s: Stmt)
    requires s.If?
    ensures ElseStmts(s.orelse, false) == s.orelse
    ensures ElseReturns(s, false) <==> AnyReturn(s.orelse, false)
  {
    if |s.orelse| == 1 {
      assert [s.orelse[0]] == s.orelse;
    }
  }

  /** The return behaviour of an `else` is that of the statements lowered. */
  lemma ElseReturnsLowered(s: Stmt, legacy: bool)
    requires s.If?
    ensures ElseReturns(s, legacy) <==> AnyReturn(ElseStmts(s.orelse, legacy), legacy)
  {
    if |s.orelse| > 0 && s.orelse[0].If? && (legacy || |s.orelse| == 1) {
      AnyReturnSingle(s.orelse[0], legacy);
      if !legacy {
        assert [s.orelse[0]] == s.orelse;
      }
    }
  }

  /** In the older snapshot the statements after an `if` that opens an
      `else` are dropped: here a `return` after it is never lowered, so the
      `else` that returns counts as one that does not. */
  lemma ElifDropsAsWritten(c: Expr)
    ensures var s := If(c, [ExprStmt(c)], [If(c, [ExprStmt(c)], []), Return(None)]);
      ElseStmts(s.orelse, true) == [s.orelse[0]] && |s.orelse| == 2 &&
      AnyReturn(s.orelse, true) && !ElseReturns(s, true)
  {
    var inner := If(c, [ExprStmt(c)], []);
    var s := If(c, [ExprStmt(c)], [inner, Return(None)]);
    assert SetsReturn(s.orelse[1], true);
    AnyReturnSingle(ExprStmt(c), true);
    assert !AnyReturn([], true);
    assert !SetsReturn(inner, true);
  }

  lemma IfReturns(s: Stmt, legacy: bool)
    requires s.If?
    ensures SetsReturn(s, legacy) <==> AnyReturn(s.body, legacy) || ElseReturns(s, legacy)
  {
  }

  /** The text of an `if` from its paths; a root (the older snapshot also
      clears its `__if__` flag) gives the claim back and writes the
      definitions hoisted while it held it. */
  method IfFinish(b: Builder, root: bool, paths: seq<string>) returns (text: string)
    requires b.Valid()
    modifies b
    ensures b.Valid() && b.buildFlags == old(b.buildFlags) && b.warnings == old(b.warnings)
    ensures text == IfText(root, old(b.Flag(InnerBodyKey)), old(b.Definitions()), paths)
    ensures !root ==> b.stateHistory == old(b.stateHistory)
    ensures root ==> b.Definitions() == [] && !b.Flag(ClaimKey)
    ensures Moves(old(b.stateHistory), b.stateHistory, false) && SameEntry(old(b.Top()), b.Top(), PathsKey)
  {
    assert FrameOk(b.stateHistory[|b.stateHistory| - 1], b.legacy);
    if !root {
      return IfText(false, b.Flag(InnerBodyKey), [], paths);
    }
    ghost var h0 := b.stateHistory;
    if b.legacy {
      b.SetStateKey(IfKey, FlagVal(false));
      EffectOfSet(h0, IfKey, FlagVal(false));
    }
    ghost var h1 := b.stateHistory;
    assert b.Definitions() == old(b.Definitions());
    var defs := ReleaseClaim(b);
    MovesTrans(h0, h1, b.stateHistory, false, false);
    text := IfText(true, false, defs, paths);
  }

  // ------------------------------------------------------------ for

  /** A new `for` target: bound to the element type, its definition
      hoisted into `__definitions__`. */
  method DefineTarget(b: Builder, id: string, t: Ty)
    requires b.Valid() && id !in Reserved
    modifies b
    ensures b.Valid() && b.buildFlags == old(b.buildFlags) && b.warnings == old(b.warnings)
    ensures b.stateHistory == old(Outer(b.stateHistory)) +
      [old(b.Top())[id := TyVal(t)][DefsKey := DefsVal(old(b.Definitions()) + ["(define " + id + " void)"])]]
    ensures Effect(old(b.stateHistory), b.stateHistory, false)
    ensures id in b.Top() && old(b.Top()).Keys <= b.Top().Keys && SameEntry(old(b.Top()), b.Top(), ClaimKey)
  {
    ghost var h := b.stateHistory;
    b.SetStateKey(id, TyVal(t));
    var defs := b.Definitions() + ["(define " + id + " void)"];
    b.SetStateKey(DefsKey, DefsVal(defs));
    assert Outer(b.stateHistory) == Outer(h);
  }

  /** `handleTarget`: a `for` target already in scope keeps its type and
      must accept the elements (it must be bound in the current scope);
      a new one is bound to the element type and its definition hoisted.
      The compatibility test is the one written, `ForTargetAcceptedAsWritten`:
      the variable's type in the place of the element's. */
  method ForTarget(b: Builder, id: string, t: Ty) returns (r: Result<()>)
    requires b.Valid()
    modifies b
    ensures b.Valid()
    ensures b.buildFlags == old(b.buildFlags) && old(b.warnings) <= b.warnings
    ensures id in Reserved ==> r == Err(Unmodelled)
    ensures id !in Reserved && LookupIn(old(b.stateHistory), id).Some? && id !in old(b.Top()) ==> r == Err(KeyError)
    ensures id !in Reserved && id in old(b.Top()) ==>
      old(b.Top())[id].TyVal? &&
      (r.Ok? <==> ForTargetAcceptedAsWritten(old(b.Top())[id].t, t)) &&
      (r.Err? ==> r.error == (if b.legacy then NameError else TypeError))
    ensures r.Ok? && id in old(b.Top()) ==> b.stateHistory == old(b.stateHistory)
    ensures r.Ok? && id !in old(b.Top()) ==>
      LookupIn(old(b.stateHistory), id).None? &&
      b.stateHistory == old(Outer(b.stateHistory)) +
        [old(b.Top())[id := TyVal(t)][DefsKey := DefsVal(old(b.Definitions()) + ["(define " + id + " void)"])]]
    ensures r.Ok? ==> Effect(old(b.stateHistory), b.stateHistory, false)
    ensures r.Ok? ==> id in b.Top() && old(b.Top()).Keys <= b.Top().Keys && SameEntry(old(b.Top()), b.Top(), ClaimKey)
  {
    if id in Reserved {
      return Err(Unmodelled);
    }
    assert FrameOk(b.stateHistory[|b.stateHistory| - 1], b.legacy);
    var found := b.InState(id);
    if found {
      var sv :- b.GetStateKeyLocal(id);
      var ok := Fits(b, sv.t, t);
      if !ok {
        // the older snapshot's message names an undefined variable
        return Err(if b.legacy then NameError else TypeError);
      }
      EffectRefl(b.stateHistory);
      return Ok(());
    }
    DefineTarget(b, id, t);
    r := Ok(());
  }

  /** One element of a tuple target: a name, handled as a target. */
  method TupleTarget(b: Builder, e: Expr, t: Ty) returns (r: Result<string>)
    requires b.Valid()
    modifies b
    ensures b.Valid()
    ensures b.buildFlags == old(b.buildFlags) && old(b.warnings) <= b.warnings
    ensures !e.Name? ==> r == Err(TypeError)
    ensures r.Ok? ==> e.Name? && r.value == e.id && e.id in b.Top() && old(b.Top()).Keys <= b.Top().Keys
    ensures r.Ok? ==> Effect(old(b.stateHistory), b.stateHistory, false) && SameEntry(old(b.Top()), b.Top(), ClaimKey)
  {
    if !e.Name? {
      return Err(TypeError);
    }
    var _ :- ForTarget(b, e.id, t);
    r := Ok(e.id);
  }

  /** The names of a tuple target, each handled as a target of the given
      element type; an element that is not a name is refused. */
  method ForTargets(b: Builder, elts: seq<Expr>, t: Ty) returns (r: Result<seq<string>>)
    requires b.Valid()
    modifies b
    ensures b.Valid()
    ensures b.buildFlags == old(b.buildFlags) && old(b.warnings) <= b.warnings
    ensures (exists i :: 0 <= i < |elts| && !elts[i].Name?) ==> r.Err?
    ensures r.Ok? ==> (|r.value| == |elts| &&
                       forall i :: 0 <= i < |elts| ==> elts[i].Name? && r.value[i] == elts[i].id && r.value[i] in b.Top())
    ensures r.Ok? ==> Effect(old(b.stateHistory), b.stateHistory, false)
    ensures r.Ok? ==> SameEntry(old(b.Top()), b.Top(), ClaimKey)
  {
    ghost var h0 := b.stateHistory;
    EffectRefl(h0);
    var names: seq<string> := [];
    var i := 0;
    while i < |elts|
      invariant 0 <= i <= |elts| && |names| == i
      invariant b.Valid() && b.buildFlags == old(b.buildFlags) && old(b.warnings) <= b.warnings
      invariant Effect(h0, b.stateHistory, false) && SameEntry(Last(h0), b.Top(), ClaimKey)
      invariant forall j :: 0 <= j < i ==> elts[j].Name? && names[j] == elts[j].id && names[j] in b.Top()
    {
      ghost var h1 := b.stateHistory;
      var name :- TupleTarget(b, elts[i], t);
      EffectTrans(h0, h1, b.stateHistory, false, false);
      names := names + [name];
      i := i + 1;
    }
    r := Ok(names);
  }

  /** The start of the loop's `lambda`, which sets the target to the
      element `__i__`. */
  function SetHead(id: string): string
  {
    "(set! " + id + " __i__)"
  }

  /** The text of a loop: hoisted definitions, then a `for-each` of a
      `lambda` over the element `__i__` across the iterable. */
  function ForText(pre: string, head: string, body: string, iter: string): string
  {
    pre + "(for-each (lambda (__i__) " + head + body + ") " + iter + ")"
  }

  /** The target of a `for`: a name, or (newer snapshot) a tuple of names
      unpacked from each element, which needs `toList`; the text that
      binds it at the start of each iteration. */
  method ForHead(b: Builder, target: Expr, iterT: Ty) returns (r: Result<string>)
    requires b.Valid()
    modifies b
    ensures b.Valid()
    ensures FlagsKept(old(b.buildFlags), b.buildFlags) && old(b.warnings) <= b.warnings
    ensures r.Ok? ==> Effect(old(b.stateHistory), b.stateHistory, false)
    ensures r.Ok? ==> SameEntry(old(b.Top()), b.Top(), ClaimKey)
    ensures r.Ok? ==> target.Name? || (!b.legacy && target.Tuple?)
    ensures r.Ok? && target.Name? ==> r.value == SetHead(target.id) && target.id in b.Top()
    ensures r.Ok? && target.Tuple? ==> TO_LIST in b.buildFlags && b.buildFlags[TO_LIST]
    ensures r.Ok? && target.Tuple? ==> MultiTargetFor in b.warnings[|old(b.warnings)|..]
  {
    if target.Name? {
      var _ :- ForTarget(b, target.id, iterT);
      r := Ok(SetHead(target.id));
    } else if target.Tuple? && !b.legacy {
      r := TupleHead(b, target.elts, iterT);
    } else {
      r := Err(NotImplementedError);
    }
  }

  /** A tuple target (newer snapshot): its names take the element type of
      the iterable, with a warning, and each element is unpacked through
      `toList`. */
  method TupleHead(b: Builder, elts: seq<Expr>, iterT: Ty) returns (r: Result<string>)
    requires b.Valid()
    modifies b
    ensures b.Valid()
    ensures FlagsKept(old(b.buildFlags), b.buildFlags) && old(b.warnings) <= b.warnings
    ensures IterType(iterT).None? ==> r == Err(TypeError)
    ensures r.Ok? ==> Effect(old(b.stateHistory), b.stateHistory, false)
    ensures r.Ok? ==> SameEntry(old(b.Top()), b.Top(), ClaimKey)
    ensures r.Ok? ==> TO_LIST in b.buildFlags && b.buildFlags[TO_LIST]
    ensures r.Ok? ==> MultiTargetFor in b.warnings[|old(b.warnings)|..]
  {
    var elemT := IterType(iterT);
    if elemT.None? {
      return Err(TypeError);
    }
    ghost var w0 := b.warnings;
    b.Warn(MultiTargetFor);
    ghost var w1 := b.warnings;
    assert MultiTargetFor in w1[|w0|..];
    var names :- ForTargets(b, elts, elemT.value);
    InSuffix(w1, b.warnings, |w0|, |w0|, MultiTargetFor);
    b.SetFlag(TO_LIST);
    r := Ok("(set!-values (" + Join(names, " ") + ") (apply values (toList __i__)))");
  }

  /** A loop body: lowered with `__innerBody__` set and (newer snapshot)
      `__for__`, which makes `return` in it an error. */
  method ForBody(b: Builder, ss: seq<Stmt>) returns (r: Result<string>)
    requires b.Valid()
    modifies b
    decreases StmtsSize(ss), 9
    ensures b.Valid()
    ensures FlagsKept(old(b.buildFlags), b.buildFlags) && old(b.warnings) <= b.warnings
    ensures r.Ok? ==> Effect(old(b.stateHistory), b.stateHistory, AnyReturn(ss, b.legacy))
  {
    ghost var h0 := b.stateHistory;
    ghost var h1 := h0;
    var savedFor: Option<Val> := None;
    if !b.legacy {
      savedFor := b.TempEnter(ForKey, FlagVal(true));
      h1 := b.stateHistory;
    }
    var saved := b.TempEnter(InnerBodyKey, FlagVal(true));
    var body :- LowerBody(b, ss, false);
    ghost var h2 := b.stateHistory;
    b.TempExit(InnerBodyKey, saved);
    LeaveTemp(h1, h2, InnerBodyKey, FlagVal(true), AnyReturn(ss, b.legacy));
    if !b.legacy {
      ghost var h3 := b.stateHistory;
      b.TempExit(ForKey, savedFor);
      LeaveTemp(h0, h3, ForKey, FlagVal(true), AnyReturn(ss, false));
    }
    r := Ok(body.0);
  }

  /** The loop proper: take the claim if no one holds it, lower the body,
      refuse an `else`; a root gives the claim back and returns the
      hoisted definitions' text to write before the loop. */
  method ForLoop(b: Builder, ss: seq<Stmt>, orelse: seq<Stmt>) returns (r: Result<(string, string)>)
    requires b.Valid()
    modifies b
    decreases StmtsSize(ss), 10
    ensures b.Valid()
    ensures FlagsKept(old(b.buildFlags), b.buildFlags) && old(b.warnings) <= b.warnings
    ensures orelse != [] ==> r.Err?
    ensures r.Ok? ==> Effect(old(b.stateHistory), b.stateHistory, AnyReturn(ss, b.legacy))
    ensures r.Ok? && old(b.Flag(ClaimKey)) ==> r.value.0 == ""
    ensures r.Ok? && !old(b.Flag(ClaimKey)) ==>
      b.Definitions() == [] && !b.Flag(ClaimKey) &&
      exists defs :: old(b.Definitions()) <= defs && r.value.0 == DefsPrefix(defs)
  {
    ghost var h0 := b.stateHistory;
    var root := AcquireClaim(b);
    ghost var h1 := b.stateHistory;
    var body :- ForBody(b, ss);
    EffectTrans(h0, h1, b.stateHistory, false, AnyReturn(ss, b.legacy));
    // the check for an empty body never fires: the text starts with the target's `set!`
    if orelse != [] {
      return Err(NotImplementedError);
    }
    var pre := "";
    if root {
      ghost var h2 := b.stateHistory;
      assert FrameOk(b.stateHistory[|b.stateHistory| - 1], b.legacy);
      assert DefsIn(Last(h1)) == old(b.Definitions()) && DefsIn(Last(h2)) == b.Definitions();
      var defs := ReleaseClaim(b);
      pre := DefsPrefix(defs);
    }
    r := Ok((pre, body));
  }

  /** The iterable of a `for`, lowered and checked by `ForIter`. */
  method ForIterable(b: Builder, e: Expr) returns (r: Result<(string, Ty)>)
    requires b.Valid()
    modifies b
    ensures b.Valid()
    ensures FlagsKept(old(b.buildFlags), b.buildFlags) && old(b.warnings) <= b.warnings
    ensures r.Ok? ==> b.stateHistory == old(b.stateHistory)
    ensures r.Ok? ==> exists v: (string, Ty) :: ForIter(v.0, v.1, b.legacy) == r
  {
    var it :- LowerExpr(b, e);
    r := ForIter(it.0, it.1, b.legacy);
  }

  /** `For`: the iterable must be a list (newer snapshot: or a tuple), the
      target as `ForHead` says; the body is lowered inside a `for-each`
      over the iterable, and an `else` is refused. */
  method LowerFor(b: Builder, s: Stmt) returns (r: Result<string>)
    requires b.Valid() && s.For?
    modifies b
    decreases StmtSize(s), 5
    ensures b.Valid()
    ensures FlagsKept(old(b.buildFlags), b.buildFlags) && old(b.warnings) <= b.warnings
    ensures r.Ok? ==> Effect(old(b.stateHistory), b.stateHistory, SetsReturn(s, b.legacy))
    ensures s.orelse != [] ==> r.Err?
    ensures r.Ok? ==> s.target.Name? || (!b.legacy && s.target.Tuple?)
    ensures r.Ok? && !old(b.Flag(ClaimKey)) ==> b.Definitions() == [] && !b.Flag(ClaimKey)
    ensures r.Ok? && s.target.Name? ==> exists pre: string, body: string, iter: string ::
      r.value == ForText(pre, SetHead(s.target.id), body, iter) && (old(b.Flag(ClaimKey)) ==> pre == "")
  {
    ghost var h0 := b.stateHistory;
    var iter :- ForIterable(b, s.iter);
    var head :- ForHead(b, s.target, iter.1);
    ghost var h1 := b.stateHistory;
    assert FrameOk(b.stateHistory[|b.stateHistory| - 1], b.legacy);
    assert b.Flag(ClaimKey) == old(b.Flag(ClaimKey));
    var loop :- ForLoop(b, s.body, s.orelse);
    EffectTrans(h0, h1, b.stateHistory, false, AnyReturn(s.body, b.legacy));
    assert SetsReturn(s, b.legacy) == AnyReturn(s.body, b.legacy);
    r := Ok(ForText(loop.0, head, loop.1, iter.0));
    if s.target.Name? {
      assert r.value == ForText(loop.0, SetHead(s.target.id), loop.1, iter.0);
    }
  }

  // ------------------------------------------------------------ def

  /** A function's parameters: the text of each (`ParamText`), the texts
      and types of the defaults, the types of the positional and keyword
      parameters, and the bindings to make in the function's scope. */
  datatype Params = Params(pieces: seq<string>, defaultTexts: seq<string>, defaultTypes: seq<Ty>,
                           positional: seq<Ty>, keyword: seq<(string, Ty)>, queue: seq<(string, Ty)>)

  /** The index of the first parameter with a default. */
  function FirstDefault(argsLen: nat, defaultsLen: nat): (k: nat)
    ensures k <= argsLen
    ensures forall i :: 0 <= i < argsLen ==> (DefaultIndex(i, argsLen, defaultsLen) >= 0 <==> i >= k)
  {
    if defaultsLen <= argsLen then argsLen - defaultsLen else 0
  }

  /** What the parameter loop builds, parameter by parameter. */
  predicate ParamsShape(p: Params, args: seq<Arg>, defaults: seq<Expr>)
  {
    var k := FirstDefault(|args|, |defaults|);
    |p.pieces| == |args| && |p.queue| == |args| && |p.positional| == k &&
    |p.keyword| == |args| - k && |p.defaultTexts| == |args| - k && |p.defaultTypes| == |args| - k &&
    (forall i :: 0 <= i < |args| ==> p.queue[i].0 == args[i].arg) &&
    (forall i :: 0 <= i < k ==> p.pieces[i] == args[i].arg && p.positional[i] == p.queue[i].1) &&
    (forall i :: k <= i < |args| ==>
       p.pieces[i] == ParamText(args[i].arg, Some(p.defaultTexts[i - k])) && p.keyword[i - k] == p.queue[i] &&
       DefaultAcceptedAsWritten(p.queue[i].1, p.defaultTypes[i - k]))
  }

  /** One parameter of `FunctionDef`: it must be annotated, and a default
      (lowered first) is checked against the annotation as written, the
      annotation in the place of the value (`DefaultAcceptedAsWritten`). */
  method LowerParam(b: Builder, a: Arg, default: Option<Expr>) returns (r: Result<(string, Ty, Option<(string, Ty)>)>)
    requires b.Valid()
    modifies b
    ensures b.Valid()
    ensures FlagsKept(old(b.buildFlags), b.buildFlags) && old(b.warnings) <= b.warnings
    ensures a.annotation.None? ==> r.Err?
    ensures r.Ok? ==> b.stateHistory == old(b.stateHistory)
    ensures r.Ok? ==> a.annotation.Some? && LiteralAnnotation(old(b.stateHistory), a.annotation.value, b.legacy) == Ok(r.value.1)
    ensures r.Ok? ==> (r.value.2.Some? <==> default.Some?)
    ensures r.Ok? && default.None? ==> r.value.0 == a.arg
    ensures r.Ok? && default.Some? ==>
      r.value.0 == ParamText(a.arg, Some(r.value.2.value.0)) && DefaultAcceptedAsWritten(r.value.1, r.value.2.value.1)
  {
    if default.None? {
      if a.annotation.None? {
        return Err(TypeError);
      }
      var aType :- LiteralAnnotation(b.stateHistory, a.annotation.value, b.legacy);
      return Ok((a.arg, aType, None));
    }
    var dv :- LowerExpr(b, default.value);
    if a.annotation.None? {
      return Err(TypeError);
    }
    var aType :- LiteralAnnotation(b.stateHistory, a.annotation.value, b.legacy);
    var ok := Fits(b, aType, dv.1);
    if !ok {
      return Err(TypeError);
    }
    r := Ok((ParamText(a.arg, Some(dv.0)), aType, Some(dv)));
  }

  /** What the parameter loop has built from the first `i` parameters,
      the first `k` of which have no default. */
  predicate ParamsUpTo(p: Params, args: seq<Arg>, k: nat, i: nat, frames: seq<Frame>, legacy: bool)
    requires i <= |args|
  {
    |p.pieces| == i && |p.queue| == i &&
    (i <= k ==> |p.positional| == i && |p.keyword| == 0 && |p.defaultTexts| == 0 && |p.defaultTypes| == 0) &&
    (i > k ==> |p.positional| == k && |p.keyword| == i - k && |p.defaultTexts| == i - k && |p.defaultTypes| == i - k) &&
    (forall j :: 0 <= j < i ==>
       p.queue[j].0 == args[j].arg && args[j].annotation.Some? &&
       LiteralAnnotation(frames, args[j].annotation.value, legacy) == Ok(p.queue[j].1)) &&
    (forall j :: 0 <= j < i && j < k ==> p.pieces[j] == args[j].arg && p.positional[j] == p.queue[j].1) &&
    (forall j :: k <= j < i ==>
       p.pieces[j] == ParamText(args[j].arg, Some(p.defaultTexts[j - k])) && p.keyword[j - k] == p.queue[j] &&
       DefaultAcceptedAsWritten(p.queue[j].1, p.defaultTypes[j - k]))
  }

  /** The parameters with one more, as `LowerParam` lowered it. */
  function AddParam(p: Params, name: string, pr: (string, Ty, Option<(string, Ty)>)): Params
  {
    match pr.2
    case Some(dv) =>
      p.(pieces := p.pieces + [pr.0], defaultTexts := p.defaultTexts + [dv.0], defaultTypes := p.defaultTypes + [dv.1],
         keyword := p.keyword + [(name, pr.1)], queue := p.queue + [(name, pr.1)])
    case None =>
      p.(pieces := p.pieces + [pr.0], positional := p.positional + [pr.1], queue := p.queue + [(name, pr.1)])
  }

  lemma ParamStep(p: Params, args: seq<Arg>, k: nat, i: nat, frames: seq<Frame>, legacy: bool,
                  pr: (string, Ty, Option<(string, Ty)>))
    requires i < |args| && ParamsUpTo(p, args, k, i, frames, legacy)
    requires args[i].annotation.Some? && LiteralAnnotation(frames, args[i].annotation.value, legacy) == Ok(pr.1)
    requires pr.2.Some? <==> i >= k
    requires pr.2.None? ==> pr.0 == args[i].arg
    requires pr.2.Some? ==> pr.0 == ParamText(args[i].arg, Some(pr.2.value.0)) && DefaultAcceptedAsWritten(pr.1, pr.2.value.1)
    ensures ParamsUpTo(AddParam(p, args[i].arg, pr), args, k, i + 1, frames, legacy)
  {
    if pr.2.Some? {
      KeywordStep(p, args, k, i, frames, legacy, pr.0, pr.1, pr.2.value);
    } else {
      PositionalStep(p, args, k, i, frames, legacy, pr.0, pr.1);
    }
  }

  lemma PositionalStep(p: Params, args: seq<Arg>, k: nat, i: nat, frames: seq<Frame>, legacy: bool, piece: string, t: Ty)
    requires i < |args| && i < k && ParamsUpTo(p, args, k, i, frames, legacy)
    requires args[i].annotation.Some? && LiteralAnnotation(frames, args[i].annotation.value, legacy) == Ok(t)
    requires piece == args[i].arg
    ensures ParamsUpTo(AddParam(p, args[i].arg, (piece, t, None)), args, k, i + 1, frames, legacy)
  {
    var q := AddParam(p, args[i].arg, (piece, t, None));
    assert q.queue[i] == (args[i].arg, t) && q.pieces[i] == piece && q.positional[i] == t;
  }

  lemma KeywordStep(p: Params, args: seq<Arg>, k: nat, i: nat, frames: seq<Frame>, legacy: bool,
                    piece: string, t: Ty, dv: (string, Ty))
    requires i < |args| && i >= k && ParamsUpTo(p, args, k, i, frames, legacy)
    requires args[i].annotation.Some? && LiteralAnnotation(frames, args[i].annotation.value, legacy) == Ok(t)
    requires piece == ParamText(args[i].arg, Some(dv.0)) && DefaultAcceptedAsWritten(t, dv.1)
    ensures ParamsUpTo(AddParam(p, args[i].arg, (piece, t, Some(dv))), args, k, i + 1, frames, legacy)
  {
    var q := AddParam(p, args[i].arg, (piece, t, Some(dv)));
    assert q.queue[i] == (args[i].arg, t) && q.pieces[i] == piece;
    assert q.keyword[i - k] == q.queue[i] && q.defaultTexts[i - k] == dv.0 && q.defaultTypes[i - k] == dv.1;
  }

  /** The parameter loop of `FunctionDef`: a parameter with a default (the
      last ones) becomes a keyword parameter. */
  method LowerParams(b: Builder, args: seq<Arg>, defaults: seq<Expr>) returns (r: Result<Params>)
    requires b.Valid()
    modifies b
    ensures b.Valid()
    ensures FlagsKept(old(b.buildFlags), b.buildFlags) && old(b.warnings) <= b.warnings
    ensures r.Ok? ==> b.stateHistory == old(b.stateHistory)
    ensures r.Ok? ==> ParamsShape(r.value, args, defaults)
    ensures r.Ok? ==> forall i :: 0 <= i < |args| ==>
                        (args[i].annotation.Some? &&
                         LiteralAnnotation(old(b.stateHistory), args[i].annotation.value, b.legacy) == Ok(r.value.queue[i].1))
  {
    var k := FirstDefault(|args|, |defaults|);
    ghost var frames := b.stateHistory;
    var p := Params([], [], [], [], [], []);
    var i := 0;
    while i < |args|
      invariant 0 <= i <= |args|
      invariant b.Valid() && b.stateHistory == frames
      invariant FlagsKept(old(b.buildFlags), b.buildFlags) && old(b.warnings) <= b.warnings
      invariant ParamsUpTo(p, args, k, i, frames, b.legacy)
    {
      var d := DefaultIndex(i, |args|, |defaults|);
      var pr :- LowerParam(b, args[i], if d >= 0 then Some(defaults[d]) else None);
      ParamStep(p, args, k, i, frames, b.legacy, pr);
      p := AddParam(p, args[i].arg, pr);
      i := i + 1;
    }
    r := Ok(p);
  }

  /** After binding the first `i` parameters of `queue` in scope `f`, each
      of them is bound, to its own type unless a later one of the same name
      overrode it. */
  predicate BoundUpTo(f: Frame, queue: seq<(string, Ty)>, i: nat)
    requires i <= |queue|
  {
    forall j :: 0 <= j < i ==>
      queue[j].0 in f &&
      ((forall l :: j < l < i ==> queue[l].0 != queue[j].0) ==> f[queue[j].0] == TyVal(queue[j].1))
  }

  lemma BindStep(f: Frame, queue: seq<(string, Ty)>, i: nat)
    requires i < |queue| && BoundUpTo(f, queue, i)
    ensures BoundUpTo(f[queue[i].0 := TyVal(queue[i].1)], queue, i + 1)
  {
  }

  /** The parameters bound in the function's scope, in order. */
  method BindAll(b: Builder, queue: seq<(string, Ty)>) returns (r: Result<()>)
    requires b.Valid()
    modifies b
    ensures b.Valid() && b.buildFlags == old(b.buildFlags) && b.warnings == old(b.warnings)
    ensures (exists i :: 0 <= i < |queue| && queue[i].0 in Reserved) ==> r.Err?
    ensures r.Ok? ==> SameShape(old(b.stateHistory), b.stateHistory) && KeptReserved(old(b.Top()), b.Top())
    ensures r.Ok? ==> BoundUpTo(b.Top(), queue, |queue|)
  {
    ghost var h0 := b.stateHistory;
    var i := 0;
    while i < |queue|
      invariant 0 <= i <= |queue|
      invariant b.Valid() && b.buildFlags == old(b.buildFlags) && b.warnings == old(b.warnings)
      invariant forall j :: 0 <= j < i ==> queue[j].0 !in Reserved
      invariant SameShape(h0, b.stateHistory) && KeptReserved(Last(h0), b.Top())
      invariant BoundUpTo(b.Top(), queue, i)
    {
      if queue[i].0 in Reserved {
        return Err(Unmodelled);
      }
      ghost var h := b.stateHistory;
      BindStep(b.Top(), queue, i);
      b.SetStateKey(queue[i].0, TyVal(queue[i].1));
      assert Outer(b.stateHistory) == Outer(h);
      KeptBySet(Last(h), queue[i].0, TyVal(queue[i].1));
      KeptTrans(Last(h0), Last(h), b.Top());
      i := i + 1;
    }
    r := Ok(());
  }

  /** An element of the warnings appended after `n` stays appended after
      `n` when more warnings follow. */
  lemma InSuffix(w: seq<Warning>, w': seq<Warning>, m: nat, n: nat, x: Warning)
    requires m <= n <= |w| && w <= w' && x in w[n..]
    ensures x in w'[m..]
  {
    var k' :| 0 <= k' < |w[n..]| && w[n..][k'] == x;
    var k := n + k';
    assert w'[m..][k - m] == x;
  }

  /** The statements of a function body. The newer snapshot refuses any
      statement after a `return`, and adds `return None` to a body that
      has none (warning unless the declared result is None); the older
      requires a `return`. */
  method FunctionBody(b: Builder, ss: seq<Stmt>, rt: Ty) returns (r: Result<string>)
    requires b.Valid() && !Returned(b.Top())
    modifies b
    decreases StmtsSize(ss), 8
    ensures b.Valid()
    ensures FlagsKept(old(b.buildFlags), b.buildFlags) && old(b.warnings) <= b.warnings
    ensures r.Ok? ==> SameShape(old(b.stateHistory), b.stateHistory)
    ensures r.Ok? && b.legacy ==> AnyReturn(ss, true)
    ensures r.Ok? && !b.legacy ==> forall i :: 0 <= i < |ss| - 1 ==> !SetsReturn(ss[i], false)
    ensures r.Ok? && !b.legacy && !AnyReturn(ss, false) && ImplicitReturnWarns(rt) ==>
      ImplicitReturn in b.warnings[|old(b.warnings)|..]
  {
    ghost var h0 := b.stateHistory;
    AllInSize(ss);
    var text := "";
    var i := 0;
    while i < |ss|
      invariant 0 <= i <= |ss|
      invariant b.Valid()
      invariant FlagsKept(old(b.buildFlags), b.buildFlags) && old(b.warnings) <= b.warnings
      invariant Moves(h0, b.stateHistory, ReturnsAmong(ss, i, b.legacy))
      invariant !b.legacy && i > 0 ==> !ReturnsAmong(ss, i - 1, false)
    {
      assert FrameOk(b.stateHistory[|b.stateHistory| - 1], b.legacy);
      if !b.legacy && b.Flag(DidReturnKey) {
        return Err(ValueError);
      }
      ghost var h1 := b.stateHistory;
      var piece :- LowerStmt(b, ss[i]);
      MovesTrans(h0, h1, b.stateHistory, ReturnsAmong(ss, i, b.legacy), SetsReturn(ss[i], b.legacy));
      ReturnsAmongStep(ss, i, b.legacy);
      text := text + piece;
      i := i + 1;
    }
    assert FrameOk(b.stateHistory[|b.stateHistory| - 1], b.legacy);
    if !b.Flag(DidReturnKey) {
      if b.legacy {
        return Err(ValueError);
      }
      var ret :- ImplicitReturnStmt(b, rt);
      text := text + ret;
    }
    r := Ok(text);
  }

  /** The `return None` the newer snapshot adds to a function body without
      a `return`, with a warning unless the declared result is None. */
  method ImplicitReturnStmt(b: Builder, rt: Ty) returns (r: Result<string>)
    requires b.Valid() && !b.legacy
    modifies b
    ensures b.Valid()
    ensures FlagsKept(old(b.buildFlags), b.buildFlags) && old(b.warnings) <= b.warnings
    ensures r.Ok? ==> SameShape(old(b.stateHistory), b.stateHistory)
    ensures r.Ok? && ImplicitReturnWarns(rt) ==> ImplicitReturn in b.warnings[|old(b.warnings)|..]
  {
    ghost var w0 := b.warnings;
    if ImplicitReturnWarns(rt) {
      b.Warn(ImplicitReturn);
      assert ImplicitReturn in b.warnings[|w0|..];
    }
    ghost var w1 := b.warnings;
    ghost var h1 := b.stateHistory;
    r := LowerReturn(b, Return(Some(Constant(CNone))));
    if r.Err? {
      return;
    }
    assert Outer(b.stateHistory) == Outer(h1);
    if ImplicitReturnWarns(rt) {
      InSuffix(w1, b.warnings, |w0|, |w0|, ImplicitReturn);
    }
  }

  /** The header of a `def`, in the function's new scope: the text of the
      parameter list, the function's type and the parameters to bind. */
  method DefSignature(b: Builder, s: Stmt) returns (r: Result<(string, Ty, seq<(string, Ty)>)>)
    requires b.Valid() && s.FunctionDef?
    modifies b
    ensures b.Valid()
    ensures FlagsKept(old(b.buildFlags), b.buildFlags) && old(b.warnings) <= b.warnings
    ensures r.Ok? ==> b.stateHistory == old(b.stateHistory)
    ensures r.Ok? ==>
      var ft := r.value.1;
      ft.TFunction? && ft.vararg == s.params.vararg.Some? && |ft.args| + |ft.kwArgs| == |s.params.args| &&
      |r.value.2| == |s.params.args| && forall i :: 0 <= i < |s.params.args| ==> r.value.2[i].0 == s.params.args[i].arg
  {
    var ps :- LowerParams(b, s.params.args, s.params.defaults);
    var args := AppendArgs("", ps.pieces);
    if s.params.vararg.Some? {
      args := args + " . " + s.params.vararg.value.arg;
    }
    var rt :- DeduceType(b, s.retAnn);
    var ft := TFunction(ps.positional, ps.keyword, s.params.vararg.Some?, rt);
    r := Ok((args, ft, ps.queue));
  }

  /** The scope part of `FunctionDef`: the function's type is bound both in
      its own scope (for recursion) and in the enclosing one, the
      parameters are bound, the body lowered, and the scope closed. */
  method DefScope(b: Builder, name: string, ft: Ty, queue: seq<(string, Ty)>, ss: seq<Stmt>) returns (r: Result<string>)
    requires b.Valid() && |b.stateHistory| >= 2 && name !in Reserved && ft.TFunction?
    modifies b
    decreases StmtsSize(ss), 10
    ensures b.Valid()
    ensures FlagsKept(old(b.buildFlags), b.buildFlags) && old(b.warnings) <= b.warnings
    ensures r.Ok? ==>
      var n := |old(b.stateHistory)|;
      b.stateHistory == old(b.stateHistory[..n - 2]) + [old(b.stateHistory[n - 2])[name := TyVal(ft)]]
    ensures r.Ok? && b.legacy ==> AnyReturn(ss, true)
    ensures r.Ok? && !b.legacy ==> forall i :: 0 <= i < |ss| - 1 ==> !SetsReturn(ss[i], false)
    ensures r.Ok? && !b.legacy && !AnyReturn(ss, false) && ImplicitReturnWarns(ft.ret) ==>
      ImplicitReturn in b.warnings[|old(b.warnings)|..]
  {
    var _ := b.SetStateKeyPropagate(name, TyVal(ft));
    ghost var outer := Outer(b.stateHistory);
    var _ :- BindAll(b, queue);
    ghost var wb := b.warnings;
    var body :- DefBody(b, ss, ft.ret);
    var _ := b.PopState();
    assert b.stateHistory == outer;
    if !b.legacy && !AnyReturn(ss, false) && ImplicitReturnWarns(ft.ret) {
      InSuffix(b.warnings, b.warnings, |old(b.warnings)|, |wb|, ImplicitReturn);
    }
    r := Ok(body);
  }

  /** `FunctionDef`: in a new scope, the header is lowered and the body
      lowered against the declared result type. The enclosing scope gains
      exactly the function's name. */
  method LowerFunctionDef(b: Builder, s: Stmt) returns (r: Result<string>)
    requires b.Valid() && s.FunctionDef?
    modifies b
    decreases StmtSize(s), 5
    ensures b.Valid()
    ensures FlagsKept(old(b.buildFlags), b.buildFlags) && old(b.warnings) <= b.warnings
    ensures r.Ok? ==> s.name !in Reserved && exists ft: Ty ::
      ft.TFunction? && ft.vararg == s.params.vararg.Some? && |ft.args| + |ft.kwArgs| == |s.params.args| &&
      b.stateHistory == old(Outer(b.stateHistory)) + [old(b.Top())[s.name := TyVal(ft)]] &&
      (!b.legacy && !AnyReturn(s.body, false) && ImplicitReturnWarns(ft.ret) ==>
         ImplicitReturn in b.warnings[|old(b.warnings)|..])
    ensures r.Ok? ==> Effect(old(b.stateHistory), b.stateHistory, false)
    ensures r.Ok? && b.legacy ==> AnyReturn(s.body, true)
    ensures r.Ok? && !b.legacy ==> forall i :: 0 <= i < |s.body| - 1 ==> !SetsReturn(s.body[i], false)
    ensures r.Ok? ==> exists args: string, body: string :: r.value == "(define (" + s.name + " " + args + ") " + body + ")"
  {
    ghost var h0 := b.stateHistory;
    var sig :- OpenDef(b, s);
    if s.name in Reserved {
      return Err(Unmodelled);
    }
    WidenedSlices(h0, DefaultWidened(b.legacy));
    ghost var wb := b.warnings;
    var body :- DefScope(b, s.name, sig.1, sig.2, s.body);
    BindingEffect(h0, s.name, TyVal(sig.1));
    if !b.legacy && !AnyReturn(s.body, false) && ImplicitReturnWarns(sig.1.ret) {
      InSuffix(b.warnings, b.warnings, |old(b.warnings)|, |wb|, ImplicitReturn);
    }
    r := Ok("(define (" + s.name + " " + sig.0 + ") " + body + ")");
  }

  /** Open the function's scope and lower its signature there. */
  method OpenDef(b: Builder, s: Stmt) returns (r: Result<(string, Ty, seq<(string, Ty)>)>)
    requires b.Valid() && s.FunctionDef?
    modifies b
    ensures b.Valid()
    ensures FlagsKept(old(b.buildFlags), b.buildFlags) && old(b.warnings) <= b.warnings
    ensures r.Ok? ==> b.stateHistory == old(b.stateHistory) + [DefaultWidened(b.legacy)]
    ensures r.Ok? ==>
      var ft := r.value.1;
      ft.TFunction? && ft.vararg == s.params.vararg.Some? && |ft.args| + |ft.kwArgs| == |s.params.args| &&
      |r.value.2| == |s.params.args| && forall i :: 0 <= i < |s.params.args| ==> r.value.2[i].0 == s.params.args[i].arg
  {
    b.WidenState();
    r := DefSignature(b, s);
  }

  lemma WidenedSlices(h: seq<Frame>, f: Frame)
    requires |h| >= 1
    ensures var hw := h + [f]; hw[..|hw| - 2] == Outer(h) && hw[|hw| - 2] == Last(h)
  {
    var hw := h + [f];
    assert hw[..|hw| - 2] == Outer(h);
  }

  /** Binding a name that is not bookkeeping in the current scope has no
      effect on the bookkeeping. */
  lemma BindingEffect(h: seq<Frame>, k: string, v: Val)
    requires |h| >= 1 && k !in Reserved
    ensures Effect(h, Outer(h) + [Last(h)[k := v]], false)
  {
    var h' := Outer(h) + [Last(h)[k := v]];
    KeptBySet(Last(h), k, v);
    assert Outer(h') == Outer(h);
    KeptEffect(h, h');
  }

  /** The body of a function under `__returnType__` and a cleared
      `__didReturn__`, both given back afterwards. */
  method DefBody(b: Builder, ss: seq<Stmt>, rt: Ty) returns (r: Result<string>)
    requires b.Valid()
    modifies b
    decreases StmtsSize(ss), 9
    ensures b.Valid()
    ensures FlagsKept(old(b.buildFlags), b.buildFlags) && old(b.warnings) <= b.warnings
    ensures r.Ok? ==> SameShape(old(b.stateHistory), b.stateHistory)
    ensures r.Ok? && b.legacy ==> AnyReturn(ss, true)
    ensures r.Ok? && !b.legacy ==> forall i :: 0 <= i < |ss| - 1 ==> !SetsReturn(ss[i], false)
    ensures r.Ok? && !b.legacy && !AnyReturn(ss, false) && ImplicitReturnWarns(rt) ==>
      ImplicitReturn in b.warnings[|old(b.warnings)|..]
  {
    ghost var h0 := b.stateHistory;
    var savedType := b.TempEnter(ReturnTypeKey, TyVal(rt));
    var savedDid := b.TempEnter(DidReturnKey, FlagVal(false));
    r := FunctionBody(b, ss, rt);
    if r.Err? {
      return;
    }
    ghost var h1 := b.stateHistory;
    b.TempExit(DidReturnKey, savedDid);
    b.TempExit(ReturnTypeKey, savedType);
    assert Outer(b.stateHistory) == Outer(h1);
  }
}
