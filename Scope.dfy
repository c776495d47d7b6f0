// The builder's mutable state: the stack of scopes (`stateHistory`), the
// build flags that decide which Racket snippets the output needs, and the
// warnings printed on the way. Every rule of the builder reads and writes
// this state through the operations below; `legacy` selects the older
// snapshot (PySchemeTranspiler/builder.py), whose default scope differs.

module Scope {
  import opened Wrappers
  import opened Types
  import opened ExtraCodes

  /** A value stored in a scope: the type of a user name (or of a builtin),
      or one of the builder's own bookkeeping entries. */
  datatype Val =
    | TyVal(t: Ty)
    | FlagVal(on: bool)
    | PathsVal(paths: set<bool>)
    | DefsVal(defs: seq<string>)

  type Frame = map<string, Val>

  /** The warnings the builder prints; their text is not modelled. */
  datatype Warning =
    | ImplicitReturn      // a function without `return` gets `return None`
    | RetypedInControl    // a variable retyped inside an if or a loop
    | UncheckedAny        // a value of unknown tuple-element type is used
    | MultiTargetFor      // a `for a, b in ...` loop
    | UncheckedNone       // `isTypeCompatible` accepted None unchecked

  // The bookkeeping keys of a scope.
  const ForKey: string := "__for__"
  const IfKey: string := "__if__"
  const PathsKey: string := "__pathDidReturn__"
  const InnerBodyKey: string := "__innerBody__"
  const ClaimKey: string := "__definitionsClaim__"
  const DefsKey: string := "__definitions__"
  const SkipKey: string := "__assignSkipValue__"
  const ResolveKey: string := "__resolveAsIf__"
  const DidReturnKey: string := "__didReturn__"
  const ReturnTypeKey: string := "__returnType__"

  const FlagKeys: set<string> := {ForKey, IfKey, InnerBodyKey, ClaimKey, SkipKey, ResolveKey, DidReturnKey}

  /** Names a program may not bind without clashing with the bookkeeping. */
  const Reserved: set<string> := FlagKeys + {PathsKey, DefsKey, ReturnTypeKey}

  /** Each bookkeeping key holds its own kind of value; user names hold types. */
  predicate WellKinded(key: string, v: Val)
  {
    if key in FlagKeys then v.FlagVal?
    else if key == PathsKey then v.PathsVal?
    else if key == DefsKey then v.DefsVal?
    else v.TyVal?
  }

  /** The keys of `defaultWidenedState`. */
  function WidenedKeys(legacy: bool): set<string>
  {
    {InnerBodyKey, ClaimKey, DefsKey, SkipKey, ResolveKey, DidReturnKey}
    + (if legacy then {IfKey} else {ForKey, PathsKey})
  }

  /** `defaultWidenedState`: every flag off, no pending definitions, no path
      seen yet. */
  function DefaultWidened(legacy: bool): (f: Frame)
    ensures f.Keys == WidenedKeys(legacy)
    ensures forall k :: k in f ==> WellKinded(k, f[k])
  {
    var common := map[InnerBodyKey := FlagVal(false), ClaimKey := FlagVal(false), DefsKey := DefsVal([]),
                      SkipKey := FlagVal(false), ResolveKey := FlagVal(false), DidReturnKey := FlagVal(false)];
    if legacy then common[IfKey := FlagVal(false)]
    else common[ForKey := FlagVal(false)][PathsKey := PathsVal({})]
  }

  /** `defaultRootExclusiveState`: the builtin names and their types. */
  function Builtins(legacy: bool): Frame
  {
    var printT := TyVal(TFunction([TypingAny], [], true, NoneLit));
    var lenArg := if legacy then TUnion([Str, ListClass]) else TUnion([Str, ListClass, TupleClass]);
    var common := map[
      "bool" := TyVal(Bool), "int" := TyVal(Int), "float" := TyVal(Float), "str" := TyVal(Str),
      "list" := TyVal(RawList), "print" := printT, "PRINT" := printT,
      "input" := TyVal(TFunction([Str], [], false, Str)),
      "range" := TyVal(TFunction([Int], [], true, TList(Int, true))),
      "len" := TyVal(TFunction([lenArg], [], false, Int))];
    if legacy then common else common["__name__" := TyVal(Str)]
  }

  /** The root scope `initState` installs. */
  function RootFrame(legacy: bool): (f: Frame)
    ensures WidenedKeys(legacy) <= f.Keys
  {
    Builtins(legacy) + DefaultWidened(legacy)
  }

  /** No builtin name is a bookkeeping key. */
  lemma BuiltinsAreTypes(legacy: bool)
    ensures forall k :: k in Builtins(legacy) ==> k !in Reserved && Builtins(legacy)[k].TyVal?
  {
    BuiltinsNotReserved(legacy);
  }

  lemma BuiltinsNotReserved(legacy: bool)
    ensures forall k :: k in Builtins(legacy) ==> k !in Reserved
  {
  }

  lemma RootFrameOk(legacy: bool)
    ensures FrameOk(RootFrame(legacy), legacy)
  {
    var f := RootFrame(legacy);
    BuiltinsAreTypes(legacy);
    forall k | k in f ensures WellKinded(k, f[k]) {
      if k in DefaultWidened(legacy) {
        assert f[k] == DefaultWidened(legacy)[k];
      } else {
        assert f[k] == Builtins(legacy)[k];
      }
    }
  }

  /** The initial `buildFlags`: only the `__name__` declaration is on. The
      older snapshot's table has no entry for the flags it never sets. */
  function InitialFlags(legacy: bool): map<Flag, bool>
  {
    var common := map[PRINT := false, EQUAL := false, NOT_EQUAL := false, INPUT := false,
                      GROWABLE_VECTOR := false, TO_INT := false, TO_FLOAT := false,
                      TO_STR := false, TO_BOOL := false];
    if legacy then common
    else common[NAME_IS_MAIN := true][IN := false][GROWABLE_VECTOR_REQUIRE := false]
           [DEEPCOPY := false][TO_LIST := false]
  }

  predicate FrameOk(f: Frame, legacy: bool)
  {
    WidenedKeys(legacy) <= f.Keys && forall k :: k in f ==> WellKinded(k, f[k])
  }

  /** Binding a well-kinded entry keeps a scope well-formed. */
  lemma FramePut(f: Frame, legacy: bool, key: string, v: Val)
    requires FrameOk(f, legacy) && WellKinded(key, v)
    ensures FrameOk(f[key := v], legacy)
  {
  }

  /** `getStateKey`: the entry of the nearest scope that has the key. */
  function LookupIn(frames: seq<Frame>, key: string): Option<Val>
  {
    if |frames| == 0 then None
    else if key in frames[|frames| - 1] then Some(frames[|frames| - 1][key])
    else LookupIn(frames[..|frames| - 1], key)
  }

  /** The scopes below the current one. */
  function Outer(frames: seq<Frame>): seq<Frame>
    requires |frames| >= 1
  {
    frames[..|frames| - 1]
  }

  /** The value `TempState` keeps to restore a key: absent, or its old value. */
  function Saved(f: Frame, key: string): Option<Val>
  {
    if key in f then Some(f[key]) else None
  }

  /** `TempState.__exit__` on a scope: put the old value back or drop the key. */
  function Restore(f: Frame, key: string, saved: Option<Val>): Frame
  {
    match saved
    case Some(v) => f[key := v]
    case None => f - {key}
  }

  /** Entering and leaving a `TempState` with nothing in between leaves the
      scope as it was. */
  lemma TempStateRoundTrip(f: Frame, key: string, v: Val)
    ensures Restore(f[key := v], key, Saved(f, key)) == f
  {
    if key !in f {
      assert f[key := v] - {key} == f;
    }
  }

  /** The same, on the whole scope stack. */
  lemma TempStackRoundTrip(h: seq<Frame>, key: string, v: Val)
    requires |h| >= 1
    ensures Outer(h) + [Restore(h[|h| - 1][key := v], key, Saved(h[|h| - 1], key))] == h
  {
    TempStateRoundTrip(h[|h| - 1], key, v);
  }

  /** Whatever the body of a `TempState` did to the key, leaving it gives the
      key its value from before, and touches no other key. */
  lemma TempStateRestoresKey(before: Frame, after: Frame, key: string)
    ensures key in Restore(after, key, Saved(before, key)) <==> key in before
    ensures key in before ==> Restore(after, key, Saved(before, key))[key] == before[key]
    ensures forall k :: k != key ==> (k in Restore(after, key, Saved(before, key)) <==> k in after)
    ensures forall k :: k != key && k in after ==> Restore(after, key, Saved(before, key))[k] == after[k]
  {
  }

  /** The lookup finds the nearest scope holding the key, and only then. */
  lemma {:induction false} LookupNearest(frames: seq<Frame>, key: string)
    ensures LookupIn(frames, key).Some? <==> exists i :: 0 <= i < |frames| && key in frames[i]
    ensures LookupIn(frames, key).Some? ==>
      exists i :: 0 <= i < |frames| && key in frames[i] && LookupIn(frames, key).value == frames[i][key]
        && forall j :: i < j < |frames| ==> key !in frames[j]
  {
    if |frames| > 0 {
      var n := |frames| - 1;
      if key !in frames[n] {
        LookupNearest(frames[..n], key);
        if LookupIn(frames, key).Some? {
          var i :| 0 <= i < n && key in frames[..n][i] && LookupIn(frames, key).value == frames[..n][i][key]
            && forall j :: i < j < n ==> key !in frames[..n][j];
          assert frames[i] == frames[..n][i];
          assert forall j :: i < j < |frames| ==> key !in frames[j] by {
            forall j | i < j < |frames| ensures key !in frames[j] {
              if j < n { assert frames[j] == frames[..n][j]; }
            }
          }
        }
        if exists i :: 0 <= i < |frames| && key in frames[i] {
          var i :| 0 <= i < |frames| && key in frames[i];
          assert i < n && frames[..n][i] == frames[i];
        }
      }
    }
  }

  /** In well-formed scopes every key holds its own kind of value. */
  lemma {:induction false} LookupKinded(frames: seq<Frame>, key: string, legacy: bool)
    requires forall i :: 0 <= i < |frames| ==> FrameOk(frames[i], legacy)
    requires LookupIn(frames, key).Some?
    ensures WellKinded(key, LookupIn(frames, key).value)
  {
    var n := |frames| - 1;
    if key !in frames[n] {
      assert forall i :: 0 <= i < n ==> frames[..n][i] == frames[i];
      LookupKinded(frames[..n], key, legacy);
    } else {
      assert FrameOk(frames[n], legacy);
    }
  }

  /** `n` warnings about a None accepted unchecked. */
  function NoneWarnings(n: nat): seq<Warning>
  {
    if n == 0 then [] else [UncheckedNone] + NoneWarnings(n - 1)
  }

  class Builder {
    const legacy: bool
    var stateHistory: seq<Frame>
    var buildFlags: map<Flag, bool>
    var warnings: seq<Warning>

    predicate Valid()
      reads this`stateHistory
    {
      |stateHistory| >= 1 && forall i :: 0 <= i < |stateHistory| ==> FrameOk(stateHistory[i], legacy)
    }

    /** `getState()`: the current scope. */
    function Top(): Frame
      reads this`stateHistory
      requires |stateHistory| >= 1
    {
      stateHistory[|stateHistory| - 1]
    }

    /** A bookkeeping flag of the current scope (`getStateKeyLocal`). */
    function Flag(key: string): bool
      reads this`stateHistory
      requires Valid() && key in FlagKeys && key in WidenedKeys(legacy)
    {
      assert FrameOk(stateHistory[|stateHistory| - 1], legacy);
      Top()[key].on
    }

    /** The pending definitions of the current scope. */
    function Definitions(): seq<string>
      reads this`stateHistory
      requires Valid()
    {
      assert FrameOk(stateHistory[|stateHistory| - 1], legacy);
      Top()[DefsKey].defs
    }

    /** `initState()` on a fresh builder: one scope with the builtins. */
    constructor (legacy: bool)
      ensures Valid() && this.legacy == legacy
      ensures stateHistory == [RootFrame(legacy)]
      ensures buildFlags == InitialFlags(legacy)
      ensures warnings == []
    {
      this.legacy := legacy;
      stateHistory := [RootFrame(legacy)];
      buildFlags := InitialFlags(legacy);
      warnings := [];
      new;
      RootFrameOk(legacy);
    }

    /** `getStateKey`: search the scopes from the nearest outwards. */
    method GetStateKey(key: string) returns (r: Result<Val>)
      requires Valid()
      ensures r == (match LookupIn(stateHistory, key) case Some(v) => Ok(v) case None => Err(KeyError))
    {
      var i := |stateHistory|;
      assert stateHistory[..i] == stateHistory;
      while i > 0
        invariant 0 <= i <= |stateHistory|
        invariant LookupIn(stateHistory, key) == LookupIn(stateHistory[..i], key)
      {
        if key in stateHistory[i - 1] {
          assert stateHistory[..i][i - 1] == stateHistory[i - 1];
          return Ok(stateHistory[i - 1][key]);
        }
        assert stateHistory[..i][..i - 1] == stateHistory[..i - 1];
        i := i - 1;
      }
      return Err(KeyError);
    }

    /** `inState`: is the key in any scope? */
    method InState(key: string) returns (found: bool)
      requires Valid()
      ensures found == LookupIn(stateHistory, key).Some?
    {
      var r := GetStateKey(key);
      found := r.Ok?;
    }

    /** `getStateKeyLocal`: the current scope only. */
    function GetStateKeyLocal(key: string): (r: Result<Val>)
      reads this`stateHistory
      requires |stateHistory| >= 1
      ensures r.Ok? <==> key in Top()
    {
      if key in Top() then Ok(Top()[key]) else Err(KeyError)
    }

    /** `widenState`: open a scope holding the default bookkeeping. */
    method WidenState()
      requires Valid()
      modifies this
      ensures Valid()
      ensures stateHistory == old(stateHistory) + [DefaultWidened(legacy)]
      ensures buildFlags == old(buildFlags) && warnings == old(warnings)
    {
      stateHistory := stateHistory + [DefaultWidened(legacy)];
    }

    /** `popState`: close the current scope; the root scope stays. */
    method PopState() returns (r: Result<Frame>)
      requires Valid()
      modifies this
      ensures Valid()
      ensures |old(stateHistory)| == 1 ==> r == Err(ValueError) && stateHistory == old(stateHistory)
      ensures |old(stateHistory)| > 1 ==> r == Ok(old(Top())) && stateHistory == old(Outer(stateHistory))
      ensures buildFlags == old(buildFlags) && warnings == old(warnings)
    {
      if |stateHistory| == 1 {
        return Err(ValueError);
      }
      r := Ok(Top());
      stateHistory := stateHistory[..|stateHistory| - 1];
    }

    /** `setStateKey`: bind a key in the current scope. */
    method SetStateKey(key: string, v: Val)
      requires Valid() && WellKinded(key, v)
      modifies this
      ensures Valid()
      ensures stateHistory == old(Outer(stateHistory)) + [old(Top())[key := v]]
      ensures buildFlags == old(buildFlags) && warnings == old(warnings)
    {
      stateHistory := Outer(stateHistory) + [Top()[key := v]];
      assert forall i :: 0 <= i < |stateHistory| - 1 ==> stateHistory[i] == old(stateHistory)[i];
    }

    /** `setStateKeyPropagate`: bind a key in the current scope and in the
        one around it; with a single scope the second write fails. */
    method SetStateKeyPropagate(key: string, v: Val) returns (r: Result<()>)
      requires Valid() && WellKinded(key, v)
      modifies this
      ensures Valid()
      ensures |old(stateHistory)| == 1 ==> r == Err(IndexError) && stateHistory == [old(Top())[key := v]]
      ensures |old(stateHistory)| > 1 ==>
        (var n := |old(stateHistory)|;
         r.Ok? && stateHistory == old(stateHistory[..n - 2]) + [old(stateHistory[n - 2])[key := v], old(Top())[key := v]])
      ensures buildFlags == old(buildFlags) && warnings == old(warnings)
    {
      SetStateKey(key, v);
      var n := |stateHistory|;
      if n == 1 {
        return Err(IndexError);
      }
      var h := stateHistory;
      assert h[..n - 2] == old(stateHistory[..n - 2]) && h[n - 2] == old(stateHistory[n - 2]);
      assert FrameOk(h[n - 2], legacy);
      FramePut(h[n - 2], legacy, key, v);
      stateHistory := h[..n - 2] + [h[n - 2][key := v], h[n - 1]];
      forall i | 0 <= i < n
        ensures FrameOk(stateHistory[i], legacy)
      {
        if i < n - 2 {
          assert stateHistory[i] == h[i];
        }
      }
      r := Ok(());
    }

    /** `removeStateKeyLocal`: drop a key of the current scope (only keys the
        rules bind temporarily are ever dropped). */
    method RemoveStateKeyLocal(key: string) returns (r: Result<()>)
      requires Valid() && key !in WidenedKeys(legacy)
      modifies this
      ensures Valid()
      ensures key !in old(Top()) ==> r == Err(KeyError) && stateHistory == old(stateHistory)
      ensures key in old(Top()) ==> r.Ok? && stateHistory == old(Outer(stateHistory)) + [old(Top()) - {key}]
      ensures buildFlags == old(buildFlags) && warnings == old(warnings)
    {
      if key !in Top() {
        return Err(KeyError);
      }
      stateHistory := Outer(stateHistory) + [Top() - {key}];
      assert forall i :: 0 <= i < |stateHistory| - 1 ==> stateHistory[i] == old(stateHistory)[i];
      r := Ok(());
    }

    /** `TempState(key, value)`: remember the key's local value, then bind it. */
    method TempEnter(key: string, v: Val) returns (saved: Option<Val>)
      requires Valid() && WellKinded(key, v)
      modifies this
      ensures Valid()
      ensures saved == Saved(old(Top()), key)
      ensures saved.Some? ==> WellKinded(key, saved.value)
      ensures saved.None? ==> key !in WidenedKeys(legacy)
      ensures stateHistory == old(Outer(stateHistory)) + [old(Top())[key := v]]
      ensures buildFlags == old(buildFlags) && warnings == old(warnings)
    {
      assert FrameOk(stateHistory[|stateHistory| - 1], legacy);
      saved := Saved(Top(), key);
      SetStateKey(key, v);
    }

    /** Leaving a `TempState`. */
    method TempExit(key: string, saved: Option<Val>)
      requires Valid()
      requires saved.Some? ==> WellKinded(key, saved.value)
      requires saved.None? ==> key !in WidenedKeys(legacy)
      modifies this
      ensures Valid()
      ensures stateHistory == old(Outer(stateHistory)) + [Restore(old(Top()), key, saved)]
      ensures buildFlags == old(buildFlags) && warnings == old(warnings)
    {
      match saved
      case Some(v) =>
        SetStateKey(key, v);
      case None =>
        if key in Top() {
          var _ := RemoveStateKeyLocal(key);
        } else {
          assert Top() - {key} == Top();
          assert stateHistory == Outer(stateHistory) + [Top()];
        }
    }

    /** `buildFlags[f] = True`. */
    method SetFlag(f: Flag)
      modifies this
      ensures buildFlags == old(buildFlags)[f := true]
      ensures stateHistory == old(stateHistory) && warnings == old(warnings)
    {
      buildFlags := buildFlags[f := true];
    }

    method Warn(w: Warning)
      modifies this
      ensures warnings == old(warnings) + [w]
      ensures stateHistory == old(stateHistory) && buildFlags == old(buildFlags)
    {
      warnings := warnings + [w];
    }

    /** `Typer.isTypeCompatible`, with the warnings it prints. */
    method Check(t1: Ty, t2: Ty) returns (ok: bool)
      modifies this
      ensures ok == Compatible(t1, t2)
      ensures warnings == old(warnings) + NoneWarnings(CompatWarnings(t1, t2, legacy))
      ensures stateHistory == old(stateHistory) && buildFlags == old(buildFlags)
    {
      ok := Compatible(t1, t2);
      WarnNone(CompatWarnings(t1, t2, legacy));
    }

    /** One "Can not assure type correctness for None" warning per count. */
    method WarnNone(n: nat)
      modifies this
      ensures warnings == old(warnings) + NoneWarnings(n)
      ensures stateHistory == old(stateHistory) && buildFlags == old(buildFlags)
    {
      warnings := warnings + NoneWarnings(n);
    }
  }
}
