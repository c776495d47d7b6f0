// `Converter.transpile`: lower the module's statements one by one on a
// fresh builder, close the flags the builder switched on, and write the
// Racket preamble, then the user code, wrapped in a `main` function or not.

module Transpiler {
  import opened Wrappers
  import opened ExtraCodes
  import opened Converter
  import opened Ast
  import opened Scope
  import opened ExprLowering
  import opened ControlLowering

  // ------------------------------------------------------------ str.strip

  /** The ASCII characters Python's `str.strip()` removes. */
  predicate IsSpace(c: char)
  {
    c == ' ' || c == '\t' || c == '\n' || c == '\r' || c == '\U{0B}' || c == '\U{0C}'
  }

  /** Drop leading whitespace: what is left is a suffix of `s` that starts
      with a non-space, and everything dropped was whitespace. */
  function StripLeft(s: string): (r: string)
    ensures |r| <= |s| && r == s[|s| - |r|..]
    ensures r == [] || !IsSpace(r[0])
    ensures forall i :: 0 <= i < |s| - |r| ==> IsSpace(s[i])
  {
    if s != [] && IsSpace(s[0]) then StripLeft(s[1..]) else s
  }

  /** Drop trailing whitespace: what is left is a prefix of `s` that ends
      with a non-space, and everything dropped was whitespace. */
  function StripRight(s: string): (r: string)
    ensures |r| <= |s| && r == s[..|r|]
    ensures r == [] || !IsSpace(r[|r| - 1])
    ensures forall i :: |r| <= i < |s| ==> IsSpace(s[i])
  {
    if s != [] && IsSpace(s[|s| - 1]) then StripRight(s[..|s| - 1]) else s
  }

  /** `str.strip()`. */
  function Strip(s: string): string
  {
    StripRight(StripLeft(s))
  }

  /** Stripping twice strips nothing more. */
  lemma StripIdempotent(s: string)
    ensures Strip(Strip(s)) == Strip(s)
  {
    var t := Strip(s);
    if t != [] {
      StripNothing(t);
    }
  }

  /** A text that starts and ends with a non-space is its own strip. */
  lemma StripNothing(s: string)
    requires s != [] && !IsSpace(s[0]) && !IsSpace(s[|s| - 1])
    ensures Strip(s) == s
  {
  }

  /** A text that starts with a non-space keeps every prefix that ends with
      a non-space. */
  lemma StripKeepsPrefix(s: string, k: nat)
    requires 0 < k <= |s| && !IsSpace(s[0]) && !IsSpace(s[k - 1])
    ensures k <= |Strip(s)| && Strip(s)[..k] == s[..k]
  {
    assert StripLeft(s) == s;
  }

  // ------------------------------------------------------------ user code

  /** The user code: each non-empty lowered piece and a newline; empty
      pieces are skipped. */
  function UserCode(pieces: seq<string>): string
  {
    if pieces == [] then ""
    else UserCode(pieces[..|pieces| - 1]) + Line(pieces[|pieces| - 1])
  }

  function Line(piece: string): string
  {
    if piece == "" then "" else piece + "\n"
  }

  /** The user code of two runs of pieces is the two codes joined. */
  lemma {:induction false} UserCodeAppend(ps: seq<string>, qs: seq<string>)
    ensures UserCode(ps + qs) == UserCode(ps) + UserCode(qs)
    decreases |qs|
  {
    if qs != [] {
      var qs' := qs[..|qs| - 1];
      assert (ps + qs)[..|ps + qs| - 1] == ps + qs';
      UserCodeAppend(ps, qs');
    } else {
      assert ps + qs == ps;
    }
  }

  /** The user code is empty exactly when every piece is, and otherwise
      ends with a newline. */
  lemma {:induction false} UserCodeEmpty(pieces: seq<string>)
    ensures UserCode(pieces) == "" <==> forall i :: 0 <= i < |pieces| ==> pieces[i] == ""
    ensures UserCode(pieces) != "" ==> UserCode(pieces)[|UserCode(pieces)| - 1] == '\n'
  {
    if pieces != [] {
      var init := pieces[..|pieces| - 1];
      UserCodeEmpty(init);
      if pieces[|pieces| - 1] == "" {
        assert UserCode(pieces) == UserCode(init);
        if UserCode(init) == "" {
          forall i | 0 <= i < |pieces|
            ensures pieces[i] == ""
          {
            if i < |pieces| - 1 {
              assert pieces[i] == init[i];
            }
          }
        } else {
          var i :| 0 <= i < |init| && init[i] != "";
          assert pieces[i] == init[i];
        }
      }
    }
  }

  // ------------------------------------------------------------ assembly

  /** The final text: the preamble, then the user code in `(define (main)
      ...)` and a call to it, or the user code directly; stripped. */
  function Wrap(preamble: string, user: string, useMain: bool): string
  {
    if useMain then Strip(preamble + "\n(define (main)\n\n" + user + "\n(void))\n(main)")
    else Strip(preamble + "\n" + user)
  }

  /** The output always starts with the `#lang racket` line; with `main`
      it ends with the call `(main)` and nothing is stripped. */
  lemma WrapShape(s: set<Flag>, user: string, useMain: bool)
    ensures var w := Wrap(Preamble(s), user, useMain);
      12 <= |w| && w[..12] == "#lang racket"
    ensures useMain ==>
      Wrap(Preamble(s), user, true) == Preamble(s) + "\n(define (main)\n\n" + user + "\n(void))\n(main)"
  {
    var p := Preamble(s);
    assert p[..13] == "#lang racket\n";
    var raw := if useMain then p + "\n(define (main)\n\n" + user + "\n(void))\n(main)" else p + "\n" + user;
    assert raw[..13] == p[..13];
    StripKeepsPrefix(raw, 12);
    assert raw[..12] == "#lang racket";
    if useMain {
      StripNothing(raw);
    }
  }

  /** The preamble as the fourteen `if`s build it: one line per flag of
      `s`, in emit order. */
  lemma {:induction false} EmittedStep(order: seq<Flag>, s: set<Flag>, f: Flag)
    ensures Emitted(order + [f], s) == Emitted(order, s) + (if f in s then [f] else [])
  {
    if order != [] {
      assert (order + [f])[1..] == order[1..] + [f];
      EmittedStep(order[1..], s, f);
    }
  }

  lemma {:induction false} SnippetLinesAppend(fs: seq<Flag>, gs: seq<Flag>, text: Flag -> string)
    ensures SnippetLines(fs + gs, text) == SnippetLines(fs, text) + SnippetLines(gs, text)
  {
    if fs != [] {
      assert (fs + gs)[1..] == fs[1..] + gs;
      SnippetLinesAppend(fs[1..], gs, text);
    } else {
      assert fs + gs == gs;
    }
  }

  /** Write the preamble of the closed flag set `flags`: the `#lang` line,
      then, flag by flag in `order`, the line `text` gives each flag of the
      set (`Assemble` passes `EmitOrder` and the `extraC` snippets). */
  method WritePreamble(flags: set<Flag>, order: seq<Flag>, text: Flag -> string) returns (code: string)
    ensures code == "#lang racket\n" + SnippetLines(Emitted(order, flags), text)
  {
    code := "#lang racket\n";
    for i := 0 to |order|
      invariant code == "#lang racket\n" + SnippetLines(Emitted(order[..i], flags), text)
    {
      var f := order[i];
      ghost var before := Emitted(order[..i], flags);
      assert order[..i + 1] == order[..i] + [f];
      EmittedStep(order[..i], flags, f);
      if f in flags {
        SnippetLinesAppend(before, [f], text);
        assert SnippetLines([f], text) == text(f) + "\n" by {
          assert [f][1..] == [];
        }
        code := code + (text(f) + "\n");
      } else {
        assert before + [] == before;
      }
    }
    assert order[..|order|] == order;
  }

  /** `Converter.transpile` on an already parsed module. The ghost `pieces`
      are the statements' lowered texts, one each, and `flags` the build
      flags the lowering left on (those of a fresh builder and more). */
  method Transpile(stmts: seq<Stmt>, useMain: bool) returns (r: Result<string>, ghost pieces: seq<string>, ghost flags: map<Flag, bool>)
    ensures r.Ok? ==> |pieces| == |stmts| && FlagsKept(InitialFlags(false), flags)
    ensures r.Ok? ==> r.value == Wrap(Preamble(Closure(Active(flags))), UserCode(pieces), useMain)
    ensures r.Ok? ==> NAME_IS_MAIN in Closure(Active(flags)) && ClosedUnderRequirements(Closure(Active(flags)))
    ensures r.Ok? ==> 12 <= |r.value| && r.value[..12] == "#lang racket"
    ensures stmts == [] ==> r == Ok(Wrap(Preamble({NAME_IS_MAIN}), "", useMain))
  {
    var b := new Builder(false);
    InitialNameIsMain();
    var userCode;
    userCode, pieces := LowerModule(b, stmts);
    flags := b.buildFlags;
    if userCode.Err? {
      return Err(userCode.error), pieces, flags;
    }
    var text := Assemble(b.buildFlags, userCode.value, useMain);
    r := Ok(text);
    ClosureIsClosed(Active(b.buildFlags));
    if stmts == [] {
      InitialActive();
    }
  }

  /** A fresh builder of the newer snapshot has `NAME_IS_MAIN` on, and
      nothing else. */
  lemma InitialNameIsMain()
    ensures NAME_IS_MAIN in InitialFlags(false) && InitialFlags(false)[NAME_IS_MAIN]
  {
  }

  lemma InitialActive()
    ensures Closure(Active(InitialFlags(false))) == {NAME_IS_MAIN}
  {
    assert Active(InitialFlags(false)) == {NAME_IS_MAIN};
    LeafClosure(NAME_IS_MAIN);
  }

  /** Lower the statements in order; the first error ends the run. The
      ghost `pieces` are the lowered texts, one per statement. */
  method LowerModule(b: Builder, stmts: seq<Stmt>) returns (r: Result<string>, ghost pieces: seq<string>)
    requires b.Valid() && !b.legacy
    modifies b
    ensures b.Valid()
    ensures r.Ok? ==> |pieces| == |stmts| && r.value == UserCode(pieces)
    ensures FlagsKept(old(b.buildFlags), b.buildFlags)
    ensures stmts == [] ==> r == Ok("") && b.buildFlags == old(b.buildFlags)
  {
    var userCode := "";
    pieces := [];
    for i := 0 to |stmts|
      invariant b.Valid()
      invariant |pieces| == i && userCode == UserCode(pieces)
      invariant FlagsKept(old(b.buildFlags), b.buildFlags)
      invariant stmts == [] ==> b.buildFlags == old(b.buildFlags)
    {
      var code :- LowerStmt(b, stmts[i]);
      UserCodeAppend(pieces, [code]);
      assert UserCode([code]) == Line(code) by {
        assert [code][..0] == [];
      }
      if code != "" {
        userCode := userCode + code + "\n";
      }
      pieces := pieces + [code];
    }
    r := Ok(userCode);
  }

  /** The closing part of `transpile`: close the flags, write the preamble,
      wrap the user code. */
  method Assemble(buildFlags: map<Flag, bool>, userCode: string, useMain: bool) returns (text: string)
    requires NAME_IS_MAIN in buildFlags && buildFlags[NAME_IS_MAIN]
    ensures text == Wrap(Preamble(Closure(Active(buildFlags))), userCode, useMain)
    ensures 12 <= |text| && text[..12] == "#lang racket"
  {
    var flags := CompileBuildFlags(buildFlags);
    var compilerCode := WritePreamble(flags, EmitOrder, Snippet);
    if useMain {
      text := Strip(compilerCode + "\n(define (main)\n\n" + userCode + "\n(void))\n(main)");
    } else {
      text := Strip(compilerCode + "\n" + userCode);
    }
    WrapShape(flags, userCode, useMain);
  }

  /** `NAME_IS_MAIN` requires nothing, so it is its own closure. */
  lemma LeafClosure(f: Flag)
    requires Req(f) == {}
    ensures Closure({f}) == {f}
  {
  }
}
