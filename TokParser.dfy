// `tokParser.py`: an experimental matcher that walks a token list against
// a list of constraints, each asking for a token type a fixed number of
// times, any number of times, or optionally, and collects the values of
// the tokens it stores under their constraint's storage key.

module TokParser {
  import opened Wrappers

  /** A lexer token: its type and its text. */
  datatype Token = Token(tokType: string, value: string)

  /** `parseToDict`'s result: storage key to the stored token values. */
  type Store = map<string, seq<string>>

  /** The uses mode of a constraint; `Unset` when the constructor was given
      none of the three. */
  datatype Mode = Required | Infinite | Optional | Unset

  /** A grammar entry `(pattern, uses, storage)`: the pattern is a token
      type or a tuple of entries. */
  datatype Rule = Rule(pattern: Pattern, uses: int, storage: Option<string>)
  datatype Pattern = Tok(tokType: string) | Group(rules: seq<Rule>)

  /** What the `Constraint` constructor fixes: its type, storage, declared
      uses, mode and children (`multi`; none when empty, as an empty tuple
      is false in the constructor's test). */
  datatype Shape = Shape(cType: string, storage: Option<string>, uses: int, mode: Mode, multi: seq<Shape>)

  /** The per-token state of a constraint: the uses left (required mode) and
      the optional counter. */
  datatype CState = CState(uses: int, optCounter: int)

  /** A `checkToken` answer: the token matched this constraint; a mismatch
      may move on to the next constraint; the storage. */
  datatype Outcome = Outcome(valid: bool, failAllowed: bool, ret: Store)

  // ------------------------------------------------------------ constraints

  /** The `Constraint` constructor's checks: at most one uses mode. */
  function MakeShape(cType: string, storage: Option<string>, uses: int, requiredUses: bool,
                     infiniteUses: bool, optionalUses: bool, multi: seq<Shape>): (r: Result<Shape>)
    ensures r.Ok? <==> !(requiredUses && infiniteUses) && !(requiredUses && optionalUses) && !(infiniteUses && optionalUses)
    ensures r.Ok? ==> r.value.cType == cType && r.value.uses == uses && r.value.storage == storage
    ensures r.Ok? ==>
      (r.value.mode == Required <==> requiredUses) && (r.value.mode == Infinite <==> infiniteUses) &&
      (r.value.mode == Optional <==> optionalUses)
    ensures r.Err? ==> r.error == ValueError
  {
    if (requiredUses && infiniteUses) || (requiredUses && optionalUses) || (infiniteUses && optionalUses) then
      Err(ValueError)
    else
      var mode := if requiredUses then Required else if infiniteUses then Infinite
                  else if optionalUses then Optional else Unset;
      Ok(Shape(cType, storage, uses, mode, multi))
  }

  /** How `interpretConstraint` reads a uses count: 0 is any number, a
      positive count is required, a negative one optional up to its size. */
  predicate ModeOfUses(uses: int, s: Shape)
  {
    (uses == 0 ==> s.mode == Infinite && s.uses == 0) &&
    (uses > 0 ==> s.mode == Required && s.uses == uses) &&
    (uses < 0 ==> s.mode == Optional && s.uses == -uses)
  }

  /** `interpretConstraint`: never refused by the constructor. */
  function Interpret(r: Rule): (s: Result<Shape>)
    decreases r, 1
    ensures s.Ok? && ModeOfUses(r.uses, s.value) && s.value.storage == r.storage
    ensures r.pattern.Tok? ==> s.value.cType == r.pattern.tokType && s.value.multi == []
    ensures r.pattern.Group? ==> s.value.cType == "MULTI" && |s.value.multi| == |r.pattern.rules|
  {
    var required, infinite, optional := r.uses > 0, r.uses == 0, r.uses < 0;
    var uses := if r.uses < 0 then -r.uses else r.uses;
    match r.pattern
    case Tok(t) => MakeShape(t, r.storage, uses, required, infinite, optional, [])
    case Group(rules) =>
      var parts := InterpretAll(rules).value;
      MakeShape("MULTI", r.storage, uses, required, infinite, optional, parts)
  }

  function InterpretAll(rules: seq<Rule>): (s: Result<seq<Shape>>)
    decreases rules, 0
    ensures s.Ok? && |s.value| == |rules|
    ensures forall i :: 0 <= i < |rules| ==> Interpret(rules[i]) == Ok(s.value[i])
  {
    if rules == [] then Ok([])
    else
      var head := Interpret(rules[0]).value;
      var tail := InterpretAll(rules[1..]).value;
      assert forall i :: 1 <= i < |rules| ==> rules[i] == rules[1..][i - 1];
      Ok([head] + tail)
  }

  /** The state a constraint starts in (and `reset` gives back). */
  function Initial(s: Shape): CState
  {
    CState(s.uses, 0)
  }

  /** `Constraint.satisfied`; without a mode it answers `None`, which is
      false. */
  predicate SatisfiedIn(s: Shape, st: CState)
  {
    match s.mode
    case Required => st.uses == 0
    case Infinite => true
    case Optional => st.optCounter == st.uses || st.optCounter == 0
    case Unset => false
  }

  /** `addToStorage`: append the token's value under the storage key, if
      the constraint has one. */
  function AddToStorage(storage: Option<string>, ret: Store, value: string): (r: Store)
    ensures storage.None? ==> r == ret
    ensures storage.Some? ==>
      r.Keys == ret.Keys + {storage.value} &&
      r[storage.value] == (if storage.value in ret then ret[storage.value] else []) + [value] &&
      forall k :: k in ret && k != storage.value ==> r[k] == ret[k]
  {
    if storage.None? then ret
    else
      var key := storage.value;
      ret[key := (if key in ret then ret[key] else []) + [value]]
  }

  /** `checkToken` for a constraint without children. The `MULTI` branch is
      not modelled. Without a mode the method falls through and answers
      `None`, which the caller cannot unpack. */
  function Step(s: Shape, st: CState, tok: Token, ret: Store): Result<(Outcome, CState)>
  {
    if s.multi != [] then Err(Unmodelled)
    else
      var own := tok.tokType == s.cType;
      var stored := if own then AddToStorage(s.storage, ret, tok.value) else ret;
      match s.mode
      case Required =>
        if st.uses == 0 then Ok((Outcome(false, true, ret), st))
        else Ok((Outcome(own, false, stored), st.(uses := if own then st.uses - 1 else st.uses)))
      case Infinite =>
        Ok((Outcome(own, true, stored), st))
      case Optional =>
        if st.optCounter == st.uses then Ok((Outcome(false, true, ret), st))
        else
          var counter := if own then st.optCounter + 1 else st.optCounter;
          Ok((Outcome(own, counter == 0, stored), st.(optCounter := counter)))
      case Unset => Err(TypeError)
  }

  /** A required constraint takes a token only while uses are left, and
      only of its own type; a stranger is a hard failure until then, after
      which every token is passed on untouched. */
  lemma RequiredStep(s: Shape, st: CState, tok: Token, ret: Store)
    requires s.multi == [] && s.mode == Required && st.uses >= 0
    ensures Step(s, st, tok, ret).Ok?
    ensures var (o, st') := Step(s, st, tok, ret).value;
      (st.uses == 0 ==> !o.valid && o.failAllowed && o.ret == ret && st' == st) &&
      (st.uses > 0 ==> !o.failAllowed && (o.valid <==> tok.tokType == s.cType) &&
                       st'.uses == (if o.valid then st.uses - 1 else st.uses) && st'.uses >= 0)
  {
  }

  /** An optional constraint never counts past its uses, and once partly
      used a stranger is a hard failure; a mismatch may move on exactly
      when the constraint is satisfied. */
  lemma OptionalStep(s: Shape, st: CState, tok: Token, ret: Store)
    requires s.multi == [] && s.mode == Optional && 0 <= st.optCounter <= st.uses
    ensures Step(s, st, tok, ret).Ok?
    ensures var (o, st') := Step(s, st, tok, ret).value;
      0 <= st'.optCounter <= st'.uses == st.uses &&
      (0 < st.optCounter < st.uses && tok.tokType != s.cType ==> !o.valid && !o.failAllowed) &&
      (!o.valid ==> (o.failAllowed <==> SatisfiedIn(s, st)))
  {
  }

  /** A constraint moves on (a mismatch it allows) only when it is
      satisfied. */
  lemma MovesOnSatisfied(s: Shape, st: CState, tok: Token, ret: Store)
    requires s.mode == Required ==> st.uses >= 0
    requires s.mode == Optional ==> 0 <= st.optCounter <= st.uses
    requires Step(s, st, tok, ret).Ok?
    ensures var o := Step(s, st, tok, ret).value.0; !o.valid && o.failAllowed ==> SatisfiedIn(s, st)
  {
  }

  /** The constraint objects of `parseToDict`. */
  class Constraint {
    const shape: Shape
    var uses: int
    var optCounter: int
    /** The state saved at construction (`backup`). */
    const backup: CState

    function State(): CState
      reads this`uses, this`optCounter
    {
      CState(uses, optCounter)
    }

    constructor (s: Shape)
      ensures shape == s && State() == Initial(s) && backup == Initial(s)
    {
      shape := s;
      uses := s.uses;
      optCounter := 0;
      backup := CState(s.uses, 0);
    }

    /** `reset`: back to the state at construction. */
    method Reset()
      modifies this
      ensures State() == backup
    {
      uses := backup.uses;
      optCounter := backup.optCounter;
    }

    /** `satisfied`. */
    predicate Satisfied()
      reads this`uses, this`optCounter
    {
      SatisfiedIn(shape, State())
    }

    /** `checkToken`: the answer and the new state are those of `Step`. */
    method CheckToken(tok: Token, ret: Store) returns (r: Result<Outcome>)
      modifies this
      ensures var step := Step(shape, old(State()), tok, ret);
        (step.Err? ==> r == Err(step.error) && State() == old(State())) &&
        (step.Ok? ==> r == Ok(step.value.0) && State() == step.value.1)
    {
      if shape.multi != [] {
        return Err(Unmodelled);
      }
      var own := tok.tokType == shape.cType;
      match shape.mode
      case Required =>
        if uses == 0 {
          return Ok(Outcome(false, true, ret));
        }
        if own {
          uses := uses - 1;
        }
        var stored := if own then AddToStorage(shape.storage, ret, tok.value) else ret;
        r := Ok(Outcome(own, false, stored));
      case Infinite =>
        var stored := if own then AddToStorage(shape.storage, ret, tok.value) else ret;
        r := Ok(Outcome(own, true, stored));
      case Optional =>
        if optCounter == uses {
          return Ok(Outcome(false, true, ret));
        }
        var stored := ret;
        if own {
          optCounter := optCounter + 1;
          stored := AddToStorage(shape.storage, ret, tok.value);
        }
        r := Ok(Outcome(own, optCounter == 0, stored));
      case Unset =>
        r := Err(TypeError);
    }
  }

  // ------------------------------------------------------------ parseToDict

  /** Every constraint after the current one is satisfied in its fresh
      state; the storage is the result. */
  function CheckRest(rest: seq<Shape>, ret: Store): (r: Result<Store>)
    ensures r.Ok? <==> forall j :: 0 <= j < |rest| ==> SatisfiedIn(rest[j], Initial(rest[j]))
    ensures r.Ok? ==> r.value == ret
    ensures r.Err? ==> r.error == SyntaxError
  {
    if rest == [] then Ok(ret)
    else if !SatisfiedIn(rest[0], Initial(rest[0])) then Err(SyntaxError)
    else
      var r := CheckRest(rest[1..], ret);
      assert forall j :: 1 <= j < |rest| ==> rest[j] == rest[1..][j - 1];
      r
  }

  /** The main loop of `parseToDict` from the constraint `s` in state `st`
      and the token `tok`, with `toks` still on the stack and `rest` the
      constraints not reached yet. When `checkLast` holds, the constraint
      in hand when the tokens run out must be satisfied too. */
  function Run(s: Shape, st: CState, tok: Token, toks: seq<Token>, rest: seq<Shape>, ret: Store,
               checkLast: bool): Result<Store>
    decreases |toks| + |rest|
  {
    var step :- Step(s, st, tok, ret);
    var (o, st') := step;
    if o.valid then
      if toks == [] then
        if checkLast && !SatisfiedIn(s, st') then Err(SyntaxError) else CheckRest(rest, o.ret)
      else Run(s, st', toks[0], toks[1..], rest, o.ret, checkLast)
    else if !o.failAllowed then Err(SyntaxError)
    else if rest == [] then Err(SyntaxError)
    else Run(rest[0], Initial(rest[0]), tok, toks, rest[1..], o.ret, checkLast)
  }

  /** `parseToDict` as written: popping the first constraint or the first
      token of an empty list fails. */
  function Parse(stack: seq<Token>, rules: seq<Rule>): Result<Store>
  {
    var shapes := InterpretAll(rules).value;
    if shapes == [] || stack == [] then Err(IndexError)
    else Run(shapes[0], Initial(shapes[0]), stack[0], stack[1..], shapes[1..], map[], false)
  }

  /** `parseToDict` with the constraint in hand checked as well when the
      tokens run out. */
  function ParseChecked(stack: seq<Token>, rules: seq<Rule>): Result<Store>
  {
    var shapes := InterpretAll(rules).value;
    if shapes == [] || stack == [] then Err(IndexError)
    else Run(shapes[0], Initial(shapes[0]), stack[0], stack[1..], shapes[1..], map[], true)
  }

  /** The fresh constraint objects of a list of shapes. */
  method MakeConstraints(shapes: seq<Shape>) returns (cs: seq<Constraint>)
    ensures |cs| == |shapes|
    ensures forall j :: 0 <= j < |cs| ==> cs[j].shape == shapes[j] && cs[j].State() == Initial(shapes[j])
    ensures forall i, j :: 0 <= i < j < |cs| ==> cs[i] != cs[j]
    ensures forall j :: 0 <= j < |cs| ==> fresh(cs[j])
  {
    cs := [];
    for i := 0 to |shapes|
      invariant |cs| == i
      invariant forall j :: 0 <= j < i ==> cs[j].shape == shapes[j] && cs[j].State() == Initial(shapes[j])
      invariant forall a, j :: 0 <= a < j < i ==> cs[a] != cs[j]
      invariant forall j :: 0 <= j < i ==> fresh(cs[j])
    {
      var c := new Constraint(shapes[i]);
      cs := cs + [c];
    }
  }

  /** `parseToDict`: the constraints are interpreted and built, the first
      one and the first token are popped, and each answer decides whether
      the next token or the next constraint comes; the stack is read, not
      emptied. When the tokens run out, the constraint in hand is checked
      along with those not reached (the source checks only the latter). */
  method ParseToDict(stack: seq<Token>, rules: seq<Rule>) returns (r: Result<Store>)
    ensures r == ParseChecked(stack, rules)
  {
    var shapes := InterpretAll(rules).value;
    var cs := MakeConstraints(shapes);
    if |cs| == 0 || |stack| == 0 {
      return Err(IndexError);
    }
    var k := 0;
    var tok := stack[0];
    var i := 1;
    var ret: Store := map[];
    ghost var goal := ParseChecked(stack, rules);
    ghost var toks := stack[1..];
    ghost var later := shapes[1..];
    while true
      invariant 0 <= k < |cs| && 1 <= i <= |stack| && toks == stack[i..] && later == shapes[k + 1..]
      invariant forall j :: 0 <= j < |cs| ==> cs[j].shape == shapes[j]
      invariant forall j :: k < j < |cs| ==> cs[j].State() == Initial(shapes[j])
      invariant Run(shapes[k], cs[k].State(), tok, toks, later, ret, true) == goal
      decreases |toks| + |later|
    {
      var res := Turn(cs[k], tok, toks, later, ret, goal);
      if res.Err? {
        return Err(res.error);
      }
      var o := res.value;
      ret := o.ret;
      if o.valid {
        if i == |stack| {
          break;
        }
        tok := stack[i];
        i := i + 1;
        toks := toks[1..];
      } else if !o.failAllowed || k + 1 == |cs| {
        return Err(SyntaxError);
      } else {
        k := k + 1;
        later := later[1..];
      }
    }
    if !cs[k].Satisfied() {
      return Err(SyntaxError);
    }
    r := CheckRemaining(cs, k + 1, shapes, ret);
  }

  /** One turn of `parseToDict`'s loop: the current constraint checks the
      token, and what remains of the run is as `Run` says. */
  method Turn(c: Constraint, tok: Token, ghost toks: seq<Token>, ghost rest: seq<Shape>, ret: Store, ghost goal: Result<Store>)
    returns (res: Result<Outcome>)
    requires Run(c.shape, c.State(), tok, toks, rest, ret, true) == goal
    modifies c
    ensures res.Err? ==> goal == Err(res.error)
    ensures res.Ok? && res.value.valid && toks == [] ==>
      (if SatisfiedIn(c.shape, c.State()) then CheckRest(rest, res.value.ret) else Err(SyntaxError)) == goal
    ensures res.Ok? && res.value.valid && toks != [] ==>
      Run(c.shape, c.State(), toks[0], toks[1..], rest, res.value.ret, true) == goal
    ensures res.Ok? && !res.value.valid && !res.value.failAllowed ==> goal == Err(SyntaxError)
    ensures res.Ok? && !res.value.valid && rest == [] ==> goal == Err(SyntaxError)
    ensures res.Ok? && !res.value.valid && res.value.failAllowed && rest != [] ==>
      Run(rest[0], Initial(rest[0]), tok, toks, rest[1..], res.value.ret, true) == goal
  {
    ghost var st := c.State();
    res := c.CheckToken(tok, ret);
    if res.Ok? {
      RunUnfold(c.shape, st, tok, toks, rest, ret, true);
    }
  }

  /** The closing loop of `parseToDict`: every constraint not reached must
      be satisfied. */
  method CheckRemaining(cs: seq<Constraint>, from: nat, shapes: seq<Shape>, ret: Store) returns (r: Result<Store>)
    requires from <= |cs| == |shapes|
    requires forall j :: from <= j < |cs| ==> cs[j].shape == shapes[j] && cs[j].State() == Initial(shapes[j])
    ensures r == CheckRest(shapes[from..], ret)
  {
    for j := from to |cs|
      invariant CheckRest(shapes[j..], ret) == CheckRest(shapes[from..], ret)
    {
      assert shapes[j..][1..] == shapes[j + 1..];
      if !cs[j].Satisfied() {
        return Err(SyntaxError);
      }
    }
    r := Ok(ret);
  }

  /** One turn of `Run`, for the loop of `ParseToDict`. */
  lemma RunUnfold(s: Shape, st: CState, tok: Token, toks: seq<Token>, rest: seq<Shape>, ret: Store, checkLast: bool)
    requires Step(s, st, tok, ret).Ok?
    ensures var (o, st') := Step(s, st, tok, ret).value;
      Run(s, st, tok, toks, rest, ret, checkLast) ==
        if o.valid then
          if toks == [] then
            if checkLast && !SatisfiedIn(s, st') then Err(SyntaxError) else CheckRest(rest, o.ret)
          else Run(s, st', toks[0], toks[1..], rest, o.ret, checkLast)
        else if !o.failAllowed then Err(SyntaxError)
        else if rest == [] then Err(SyntaxError)
        else Run(rest[0], Initial(rest[0]), tok, toks, rest[1..], o.ret, checkLast)
  {
  }
}

module TokParserFacts {
  import opened Wrappers
  import opened TokParser

  predicate AllOfType(toks: seq<Token>, t: string)
  {
    forall i :: 0 <= i < |toks| ==> toks[i].tokType == t
  }

  /** A lone required constraint fed tokens of its type: the loop as
      written accepts any count up to the declared uses, since the
      constraint in hand is never checked when the tokens run out; checked,
      only the exact count passes. */
  lemma {:induction false} RunRequiredCount(s: Shape, m: int, tok: Token, toks: seq<Token>, ret: Store, checkLast: bool)
    requires s.multi == [] && s.mode == Required && m >= 0
    requires tok.tokType == s.cType && AllOfType(toks, s.cType)
    ensures Run(s, CState(m, 0), tok, toks, [], ret, checkLast).Ok? <==>
      (if checkLast then |toks| + 1 == m else |toks| + 1 <= m)
    decreases |toks|
  {
    if m > 0 && toks != [] {
      RunRequiredCount(s, m - 1, toks[0], toks[1..], AddToStorage(s.storage, ret, tok.value), checkLast);
    }
  }

  /** `parseToDict` with one required entry of `n` tokens of type `t`. */
  lemma ParseOneRequired(t: string, n: int, storage: Option<string>, toks: seq<Token>)
    requires n > 0 && toks != [] && AllOfType(toks, t)
    ensures Parse(toks, [Rule(Tok(t), n, storage)]).Ok? <==> |toks| <= n
    ensures ParseChecked(toks, [Rule(Tok(t), n, storage)]).Ok? <==> |toks| == n
  {
    var shapes := InterpretAll([Rule(Tok(t), n, storage)]).value;
    assert shapes[0] == Shape(t, storage, n, Required, []);
    RunRequiredCount(shapes[0], n, toks[0], toks[1..], map[], false);
    RunRequiredCount(shapes[0], n, toks[0], toks[1..], map[], true);
  }

  /** The input that shows it: one `NAME` token against an entry that
      requires two is accepted as written, and refused once checked. */
  lemma UncheckedLastConstraint()
    ensures Parse([Token("NAME", "a")], [Rule(Tok("NAME"), 2, Some("n"))]) == Ok(map["n" := ["a"]])
    ensures ParseChecked([Token("NAME", "a")], [Rule(Tok("NAME"), 2, Some("n"))]) == Err(SyntaxError)
  {
    var shapes := InterpretAll([Rule(Tok("NAME"), 2, Some("n"))]).value;
    var sh := Shape("NAME", Some("n"), 2, Required, []);
    assert shapes[0] == sh && shapes[1..] == [];
    var tok := Token("NAME", "a");
    assert [tok][1..] == [];
    var stored := map["n" := ["a"]];
    assert AddToStorage(Some("n"), map[], "a") == stored by {
      assert [] + ["a"] == ["a"];
    }
    assert Step(sh, CState(2, 0), tok, map[]) == Ok((Outcome(true, false, stored), CState(1, 0)));
    RunUnfold(sh, CState(2, 0), tok, [], [], map[], false);
    RunUnfold(sh, CState(2, 0), tok, [], [], map[], true);
  }

  /** The storage keys of some constraints. */
  function Storages(shapes: seq<Shape>): set<string>
  {
    set i | 0 <= i < |shapes| && shapes[i].storage.Some? :: shapes[i].storage.value
  }

  /** Only the storage keys of the constraints ever appear in the result. */
  lemma {:induction false} RunStoresDeclared(s: Shape, st: CState, tok: Token, toks: seq<Token>, rest: seq<Shape>,
                                             ret: Store, checkLast: bool)
    requires Run(s, st, tok, toks, rest, ret, checkLast).Ok?
    ensures Run(s, st, tok, toks, rest, ret, checkLast).value.Keys <= ret.Keys + Storages([s] + rest)
    decreases |toks| + |rest|
  {
    var (o, st') := Step(s, st, tok, ret).value;
    assert o.ret.Keys <= ret.Keys + Storages([s] + rest) by {
      if s.storage.Some? {
        assert ([s] + rest)[0] == s;
      }
    }
    if o.valid {
      if toks != [] {
        RunStoresDeclared(s, st', toks[0], toks[1..], rest, o.ret, checkLast);
      }
    } else {
      RunStoresDeclared(rest[0], Initial(rest[0]), tok, toks, rest[1..], o.ret, checkLast);
      assert Storages([rest[0]] + rest[1..]) <= Storages([s] + rest) by {
        forall i | 0 <= i < |rest| && rest[i].storage.Some?
          ensures rest[i].storage.value in Storages([s] + rest)
        {
          assert ([s] + rest)[i + 1] == rest[i];
        }
        assert [rest[0]] + rest[1..] == rest;
      }
    }
  }

  /** Entries that each require one token, and tokens of their types in
      the same order. */
  predicate Lockstep(shapes: seq<Shape>, toks: seq<Token>)
  {
    |shapes| == |toks| &&
    forall i :: 0 <= i < |toks| ==>
      shapes[i].multi == [] && shapes[i].mode == Required && shapes[i].uses == 1 &&
      toks[i].tokType == shapes[i].cType
  }

  /** The storage after each token is stored by its entry. */
  function StoreAll(shapes: seq<Shape>, toks: seq<Token>, ret: Store): Store
    requires |shapes| == |toks|
  {
    if toks == [] then ret
    else StoreAll(shapes[1..], toks[1..], AddToStorage(shapes[0].storage, ret, toks[0].value))
  }

  /** In lockstep every token is taken by its entry: each entry takes its
      token, passes the next one on once used up, and the run ends with the
      last token; the result holds every stored value. */
  lemma {:induction false} RunLockstep(shapes: seq<Shape>, toks: seq<Token>, ret: Store, checkLast: bool)
    requires Lockstep(shapes, toks) && toks != []
    ensures Run(shapes[0], Initial(shapes[0]), toks[0], toks[1..], shapes[1..], ret, checkLast)
      == Ok(StoreAll(shapes, toks, ret))
    decreases |toks|
  {
    var s := shapes[0];
    var ret1 := AddToStorage(s.storage, ret, toks[0].value);
    RunUnfold(s, Initial(s), toks[0], toks[1..], shapes[1..], ret, checkLast);
    if |toks| > 1 {
      var rest := toks[1..];
      assert rest[1..] == toks[2..];
      RunUnfold(s, CState(0, 0), rest[0], rest[1..], shapes[1..], ret1, checkLast);
      assert Lockstep(shapes[1..], rest) by {
        forall i | 0 <= i < |rest|
          ensures shapes[1..][i] == shapes[i + 1] && rest[i] == toks[i + 1]
        {
        }
      }
      RunLockstep(shapes[1..], rest, ret1, checkLast);
    }
  }

  /** `parseToDict` on lockstep entries stores every token, checked or not. */
  lemma ParseLockstep(toks: seq<Token>, rules: seq<Rule>)
    requires toks != [] && |rules| == |toks|
    requires forall i :: 0 <= i < |rules| ==>
      rules[i].pattern == Tok(toks[i].tokType) && rules[i].uses == 1
    ensures Parse(toks, rules) == ParseChecked(toks, rules)
      == Ok(StoreAll(InterpretAll(rules).value, toks, map[]))
  {
    var shapes := InterpretAll(rules).value;
    assert Lockstep(shapes, toks) by {
      forall i | 0 <= i < |toks|
        ensures Interpret(rules[i]) == Ok(shapes[i])
      {
      }
    }
    RunLockstep(shapes, toks, map[], false);
    RunLockstep(shapes, toks, map[], true);
  }

  /** The signature part of the example grammar, without its group of
      parameters, reads `def print():` into the name. */
  lemma SignatureExample()
    ensures Parse([Token("DEF", "def"), Token("NAME", "print"), Token("LPAREN", "("), Token("RPAREN", ")"),
                   Token("COLON", ":")],
                  [Rule(Tok("DEF"), 1, None), Rule(Tok("NAME"), 1, Some("name")), Rule(Tok("LPAREN"), 1, None),
                   Rule(Tok("RPAREN"), 1, None), Rule(Tok("COLON"), 1, None)])
      == Ok(map["name" := ["print"]])
  {
    var toks := [Token("DEF", "def"), Token("NAME", "print"), Token("LPAREN", "("), Token("RPAREN", ")"),
                 Token("COLON", ":")];
    var rules := [Rule(Tok("DEF"), 1, None), Rule(Tok("NAME"), 1, Some("name")), Rule(Tok("LPAREN"), 1, None),
                  Rule(Tok("RPAREN"), 1, None), Rule(Tok("COLON"), 1, None)];
    ParseLockstep(toks, rules);
    var shapes := InterpretAll(rules).value;
    var named := map["name" := ["print"]];
    assert AddToStorage(Some("name"), map[], "print") == named by {
      assert [] + ["print"] == ["print"];
    }
    StoreNamesOnly(shapes, toks, map[]);
  }

  /** Only the second entry names a storage, so only its token is kept. */
  lemma StoreNamesOnly(shapes: seq<Shape>, toks: seq<Token>, ret: Store)
    requires |shapes| == |toks| == 5 && ret == map[]
    requires shapes[0].storage == shapes[2].storage == shapes[3].storage == shapes[4].storage == None
    requires shapes[1].storage == Some("name") && toks[1].value == "print"
    ensures StoreAll(shapes, toks, ret) == map["name" := ["print"]]
  {
    var named := map["name" := ["print"]];
    assert AddToStorage(Some("name"), map[], "print") == named by {
      assert [] + ["print"] == ["print"];
    }
    assert StoreAll(shapes[4..], toks[4..], named) == named;
    assert StoreAll(shapes[3..], toks[3..], named) == named;
    assert StoreAll(shapes[2..], toks[2..], named) == named;
    assert StoreAll(shapes[1..], toks[1..], map[]) == named;
  }
}
