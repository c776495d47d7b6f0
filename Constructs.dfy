// `PySchTranspiler/parser/constructs.py`: the parse constructs of the
// experimental second parser. A special construct collects content; a
// function construct reads its signature `def name(a, b, ...):` token by
// token with a six-stage state machine.

module Constructs {
  import opened Wrappers

  /** A lexer token: its type and its text. */
  datatype LexToken = LexToken(tokType: string, value: string)

  /** A token list the caller owns; the signature reader empties it. */
  class TokenList {
    var items: seq<LexToken>

    constructor (toks: seq<LexToken>)
      ensures items == toks
    {
      items := toks;
    }
  }

  /** `SpecialParseConstruct`: a construct type and the content added to it. */
  class SpecialParseConstruct<T> {
    const cType: string
    var content: seq<T>

    constructor (t: string)
      ensures cType == t && content == []
    {
      cType := t;
      content := [];
    }

    /** `addContent`: exactly one item more, at the end. */
    method AddContent(c: T)
      modifies this
      ensures content == old(content) + [c]
    {
      content := content + [c];
    }
  }

  /** The signature reader's stage (the source's `flag`):
      0 before `def`, 1 before the name, 2 before `(`, 3 where a parameter
      or `)` may come, 4 after a parameter, 5 after `)`. */
  type Stage = f: nat | f <= 5

  /** What the reader knows after a prefix of the signature. */
  datatype SigState = SigState(stage: Stage, name: Option<string>, arguments: seq<string>)

  const Start := SigState(0, None, [])

  /** One token: the next state, or `None` where the source raises
      `SyntaxError(tok)`. */
  function Step(st: SigState, tok: LexToken): Option<SigState>
  {
    match st.stage
    case 0 => if tok.tokType != "DEF" then None else Some(st.(stage := 1))
    case 1 => if tok.tokType != "NAME" then None else Some(st.(stage := 2, name := Some(tok.value)))
    case 2 => if tok.tokType != "LPAREN" then None else Some(st.(stage := 3))
    case 3 =>
      if tok.tokType == "RPAREN" then Some(st.(stage := 5))
      else if tok.tokType != "NAME" then None
      else Some(st.(stage := 4, arguments := st.arguments + [tok.value]))
    case 4 =>
      if tok.tokType == "RPAREN" then Some(st.(stage := 5))
      else if tok.tokType != "COMMA" then None
      else Some(st.(stage := 3))
    case 5 => if tok.tokType != "COLON" then None else Some(st)
  }

  /** The whole signature read from a state: the final state, or the index
      of the token that raises. */
  datatype Scanned = Accepted(st: SigState) | Rejected(at: nat)

  function Scan(st: SigState, toks: seq<LexToken>): (r: Scanned)
    ensures r.Rejected? ==> r.at < |toks|
    decreases |toks|
  {
    if toks == [] then Accepted(st)
    else match Step(st, toks[0])
      case None => Rejected(0)
      case Some(next) =>
        match Scan(next, toks[1..])
        case Accepted(fin) => Accepted(fin)
        case Rejected(k) => Rejected(k + 1)
  }

  /** `FuncConstruct`: a special construct of type `FUNC` with the name and
      the parameters its signature gave. */
  class FuncConstruct<T> {
    const special: SpecialParseConstruct<T>
    var name: Option<string>
    var arguments: seq<string>

    constructor ()
      ensures fresh(special) && special.cType == "FUNC" && special.content == []
      ensures name == None && arguments == []
    {
      special := new SpecialParseConstruct("FUNC");
      name := None;
      arguments := [];
    }
  }

  /** `FuncConstruct(signature)`: pops the signature token by token. On a
      token the stage does not accept it raises `SyntaxError`, the tokens
      up to and including that one gone from the list; otherwise the list
      ends empty and the construct holds the name and parameters `Scan`
      reads. A signature that stops early raises nothing. */
  method NewFuncConstruct<T>(signature: TokenList) returns (r: Result<FuncConstruct<T>>)
    modifies signature
    ensures Scan(Start, old(signature.items)).Accepted? <==> r.Ok?
    ensures r.Ok? ==>
      var fin := Scan(Start, old(signature.items)).st;
      fresh(r.value) && fresh(r.value.special) &&
      r.value.special.cType == "FUNC" && r.value.special.content == [] &&
      r.value.name == fin.name && r.value.arguments == fin.arguments && signature.items == []
    ensures r.Err? ==>
      r.error == SyntaxError &&
      signature.items == old(signature.items)[Scan(Start, old(signature.items)).at + 1..]
  {
    var fc := new FuncConstruct<T>();
    ghost var all := signature.items;
    ghost var i := 0;
    var stage: Stage := 0;
    while signature.items != []
      invariant 0 <= i <= |all| && signature.items == all[i..]
      invariant Scan(Start, all[..i]) == Accepted(SigState(stage, fc.name, fc.arguments))
      invariant fresh(fc) && fresh(fc.special) && fc.special.cType == "FUNC" && fc.special.content == []
      decreases |signature.items|
    {
      ghost var before := SigState(stage, fc.name, fc.arguments);
      var tok := signature.items[0];
      signature.items := signature.items[1..];
      ScanSnoc(Start, all[..i], tok);
      assert all[..i] + [tok] == all[..i + 1];
      assert signature.items == all[i + 1..];
      if stage == 0 {
        if tok.tokType != "DEF" {
          ScanRejectsAt(Start, all, i);
          return Err(SyntaxError);
        }
        stage := 1;
      } else if stage == 1 {
        if tok.tokType != "NAME" {
          ScanRejectsAt(Start, all, i);
          return Err(SyntaxError);
        }
        fc.name := Some(tok.value);
        stage := 2;
      } else if stage == 2 {
        if tok.tokType != "LPAREN" {
          ScanRejectsAt(Start, all, i);
          return Err(SyntaxError);
        }
        stage := 3;
      } else if stage == 3 {
        if tok.tokType == "RPAREN" {
          stage := 5;
        } else {
          if tok.tokType != "NAME" {
            ScanRejectsAt(Start, all, i);
            return Err(SyntaxError);
          }
          fc.arguments := fc.arguments + [tok.value];
          stage := 4;
        }
      } else if stage == 4 {
        if tok.tokType == "RPAREN" {
          stage := 5;
        } else {
          if tok.tokType != "COMMA" {
            ScanRejectsAt(Start, all, i);
            return Err(SyntaxError);
          }
          stage := 3;
        }
      } else {
        if tok.tokType != "COLON" {
          ScanRejectsAt(Start, all, i);
          return Err(SyntaxError);
        }
      }
      i := i + 1;
    }
    assert all[..i] == all;
    r := Ok(fc);
  }

  /** Reading one more token after an accepted prefix is one `Step`. */
  lemma {:induction false} ScanSnoc(st: SigState, xs: seq<LexToken>, t: LexToken)
    requires Scan(st, xs).Accepted?
    ensures Scan(st, xs + [t]) ==
      match Step(Scan(st, xs).st, t)
      case None => Rejected(|xs|)
      case Some(next) => Accepted(next)
    decreases |xs|
  {
    if xs == [] {
      assert [] + [t] == [t];
      assert [t][1..] == [];
    } else {
      var next := Step(st, xs[0]).value;
      assert (xs + [t])[0] == xs[0];
      assert (xs + [t])[1..] == xs[1..] + [t];
      ScanSnoc(next, xs[1..], t);
    }
  }

  /** A token the state after an accepted prefix refuses is where the
      whole signature is rejected, whatever follows it. */
  lemma {:induction false} ScanRejectsAt(st: SigState, toks: seq<LexToken>, i: nat)
    requires i < |toks| && Scan(st, toks[..i]).Accepted?
    requires Step(Scan(st, toks[..i]).st, toks[i]).None?
    ensures Scan(st, toks) == Rejected(i)
    decreases i
  {
    if i == 0 {
    } else {
      assert toks[..i][0] == toks[0];
      assert toks[..i][1..] == toks[1..][..i - 1];
      var next := Step(st, toks[0]).value;
      ScanRejectsAt(next, toks[1..], i - 1);
    }
  }

  /** A signature that stops early raises nothing: every prefix of an
      accepted signature is accepted. */
  lemma {:induction false} PrefixAccepted(st: SigState, toks: seq<LexToken>, i: nat)
    requires i <= |toks| && Scan(st, toks).Accepted?
    ensures Scan(st, toks[..i]).Accepted?
    decreases i
  {
    if i > 0 {
      assert toks[..i][0] == toks[0];
      assert toks[..i][1..] == toks[1..][..i - 1];
      PrefixAccepted(Step(st, toks[0]).value, toks[1..], i - 1);
    }
  }

  // The signatures that reach `)`, written out as token lists.

  /** A token whose text the reader ignores. */
  function Tok(t: string): LexToken
  {
    LexToken(t, "")
  }

  /** The part of a token the reader looks at: its type, and its text for
      a name. */
  function Key(t: LexToken): LexToken
  {
    if t.tokType == "NAME" then t else Tok(t.tokType)
  }

  function Keys(toks: seq<LexToken>): (r: seq<LexToken>)
    ensures |r| == |toks| && forall i :: 0 <= i < |toks| ==> r[i] == Key(toks[i])
  {
    seq(|toks|, i requires 0 <= i < |toks| => Key(toks[i]))
  }

  /** `def name (` */
  function Header(name: string): seq<LexToken>
  {
    [Tok("DEF"), LexToken("NAME", name), Tok("LPAREN")]
  }

  /** The parameters where a parameter may come: each name followed by a
      comma, except that the comma after the last one is there only when
      `trailing` asks for it. */
  function Params(ps: seq<string>, trailing: bool): seq<LexToken>
    decreases |ps|, 0
  {
    if ps == [] then [] else [LexToken("NAME", ps[0])] + AfterParam(ps[1..], trailing)
  }

  /** What follows a parameter: nothing, or a comma and more parameters. */
  function AfterParam(ps: seq<string>, trailing: bool): seq<LexToken>
    decreases |ps|, 1
  {
    if ps == [] then (if trailing then [Tok("COMMA")] else [])
    else [Tok("COMMA")] + Params(ps, trailing)
  }

  function Colons(k: nat): seq<LexToken>
  {
    seq(k, _ => Tok("COLON"))
  }

  /** After `)` only colons are accepted, any number of them. */
  lemma {:induction false} ClosedOnlyColons(st: SigState, toks: seq<LexToken>)
    requires st.stage == 5
    ensures Scan(st, toks).Accepted? <==> forall i :: 0 <= i < |toks| ==> toks[i].tokType == "COLON"
    ensures Scan(st, toks).Accepted? ==> Scan(st, toks).st == st
    decreases |toks|
  {
    if toks != [] {
      ClosedOnlyColons(st, toks[1..]);
      if toks[0].tokType == "COLON" {
        assert forall i :: 1 <= i < |toks| ==> toks[i] == toks[1..][i - 1];
      }
    }
  }

  /** Parameters, `)` and colons, read where a parameter may come, add
      those parameters in order and end after `)`. */
  lemma {:induction false} ReadParams(st: SigState, ps: seq<string>, trailing: bool, k: nat)
    requires st.stage == 3
    ensures Scan(st, Params(ps, trailing) + [Tok("RPAREN")] + Colons(k))
      == Accepted(st.(stage := 5, arguments := st.arguments + ps))
    decreases |ps|, 0
  {
    var tail := [Tok("RPAREN")] + Colons(k);
    assert tail[0] == Tok("RPAREN");
    assert Params(ps, trailing) + [Tok("RPAREN")] + Colons(k) == Params(ps, trailing) + tail;
    if ps == [] {
      assert Params(ps, trailing) + tail == tail;
      assert tail[1..] == Colons(k);
      ClosedOnlyColons(st.(stage := 5), Colons(k));
      assert st.arguments + [] == st.arguments;
    } else {
      var toks := Params(ps, trailing) + tail;
      assert toks == [LexToken("NAME", ps[0])] + (AfterParam(ps[1..], trailing) + tail);
      var next := st.(stage := 4, arguments := st.arguments + [ps[0]]);
      ReadAfterParam(next, ps[1..], trailing, k);
      assert AfterParam(ps[1..], trailing) + [Tok("RPAREN")] + Colons(k) == AfterParam(ps[1..], trailing) + tail;
      assert toks[1..] == AfterParam(ps[1..], trailing) + tail;
      assert st.arguments + [ps[0]] + ps[1..] == st.arguments + ps;
    }
  }

  /** The same, read after a parameter. */
  lemma {:induction false} ReadAfterParam(st: SigState, ps: seq<string>, trailing: bool, k: nat)
    requires st.stage == 4
    ensures Scan(st, AfterParam(ps, trailing) + [Tok("RPAREN")] + Colons(k))
      == Accepted(st.(stage := 5, arguments := st.arguments + ps))
    decreases |ps|, 1
  {
    var tail := [Tok("RPAREN")] + Colons(k);
    assert tail[0] == Tok("RPAREN");
    assert AfterParam(ps, trailing) + [Tok("RPAREN")] + Colons(k) == AfterParam(ps, trailing) + tail;
    assert st.arguments + [] == st.arguments;
    if ps == [] && !trailing {
      assert AfterParam(ps, trailing) + tail == tail;
      assert tail[1..] == Colons(k);
      ClosedOnlyColons(st.(stage := 5), Colons(k));
    } else if ps == [] {
      var toks := AfterParam(ps, trailing) + tail;
      assert toks == [Tok("COMMA")] + tail;
      assert toks[1..] == tail;
      ReadParams(st.(stage := 3), ps, trailing, k);
      assert Params(ps, trailing) + [Tok("RPAREN")] + Colons(k) == tail;
    } else {
      var toks := AfterParam(ps, trailing) + tail;
      assert toks == [Tok("COMMA")] + (Params(ps, trailing) + tail);
      assert toks[1..] == Params(ps, trailing) + tail;
      ReadParams(st.(stage := 3), ps, trailing, k);
      assert Params(ps, trailing) + [Tok("RPAREN")] + Colons(k) == Params(ps, trailing) + tail;
    }
  }

  /** Every well-formed signature is accepted, with its name and its
      parameters in source order; a trailing comma is allowed. */
  lemma WellFormedAccepted(name: string, ps: seq<string>, trailing: bool, k: nat)
    ensures Scan(Start, Header(name) + Params(ps, trailing) + [Tok("RPAREN")] + Colons(k))
      == Accepted(SigState(5, Some(name), ps))
  {
    var rest := Params(ps, trailing) + [Tok("RPAREN")] + Colons(k);
    var toks := Header(name) + Params(ps, trailing) + [Tok("RPAREN")] + Colons(k);
    assert toks == Header(name) + rest;
    assert toks[0] == Tok("DEF") && toks[1] == LexToken("NAME", name) && toks[2] == Tok("LPAREN");
    var s3 := SigState(3, Some(name), []);
    ReadParams(s3, ps, trailing, k);
    assert [] + ps == ps;
    var fin := Accepted(SigState(5, Some(name), ps));
    assert toks[1..][1..][1..] == rest;
    assert Scan(SigState(2, Some(name), []), toks[1..][1..]) == fin;
    assert Scan(SigState(1, None, []), toks[1..]) == fin;
  }

  /** Conversely, what is accepted from where a parameter may come and
      ends after `)` is parameters, `)` and colons. */
  lemma {:induction false} ParamsOfAccepted(st: SigState, toks: seq<LexToken>)
    returns (ps: seq<string>, trailing: bool, k: nat)
    requires st.stage == 3 && Scan(st, toks).Accepted? && Scan(st, toks).st.stage == 5
    ensures Keys(toks) == Params(ps, trailing) + [Tok("RPAREN")] + Colons(k)
    ensures Scan(st, toks).st.arguments == st.arguments + ps && Scan(st, toks).st.name == st.name
    decreases |toks|, 1
  {
    var next := Step(st, toks[0]).value;
    assert Keys(toks) == [Key(toks[0])] + Keys(toks[1..]);
    if toks[0].tokType == "RPAREN" {
      ps, trailing, k := [], false, |toks| - 1;
      ClosedOnlyColons(next, toks[1..]);
      assert Keys(toks[1..]) == Colons(k);
      assert st.arguments + [] == st.arguments;
    } else {
      var more;
      more, trailing, k := AfterOfAccepted(next, toks[1..]);
      ps := [toks[0].value] + more;
      assert ps[1..] == more;
      assert st.arguments + [toks[0].value] + more == st.arguments + ps;
    }
  }

  /** The same after a parameter. */
  lemma {:induction false} AfterOfAccepted(st: SigState, toks: seq<LexToken>)
    returns (ps: seq<string>, trailing: bool, k: nat)
    requires st.stage == 4 && Scan(st, toks).Accepted? && Scan(st, toks).st.stage == 5
    ensures Keys(toks) == AfterParam(ps, trailing) + [Tok("RPAREN")] + Colons(k)
    ensures Scan(st, toks).st.arguments == st.arguments + ps && Scan(st, toks).st.name == st.name
    decreases |toks|, 0
  {
    var next := Step(st, toks[0]).value;
    assert Keys(toks) == [Key(toks[0])] + Keys(toks[1..]);
    if toks[0].tokType == "RPAREN" {
      ps, trailing, k := [], false, |toks| - 1;
      ClosedOnlyColons(next, toks[1..]);
      assert Keys(toks[1..]) == Colons(k);
      assert st.arguments + [] == st.arguments;
    } else {
      var tr;
      ps, tr, k := ParamsOfAccepted(next, toks[1..]);
      trailing := if ps == [] then true else tr;
    }
  }

  /** A signature is accepted through `)` exactly when it is, up to the
      text of its fixed tokens, `def name(` followed by parameters
      separated by commas (a trailing one allowed), `)` and colons; the
      construct then holds that name and those parameters in order. */
  lemma AcceptedIsWellFormed(toks: seq<LexToken>) returns (name: string, ps: seq<string>, trailing: bool, k: nat)
    requires Scan(Start, toks).Accepted? && Scan(Start, toks).st.stage == 5
    ensures Keys(toks) == Header(name) + Params(ps, trailing) + [Tok("RPAREN")] + Colons(k)
    ensures Scan(Start, toks).st == SigState(5, Some(name), ps)
  {
    assert toks != [];
    var s1 := Step(Start, toks[0]).value;
    assert Scan(s1, toks[1..]) == Scan(Start, toks);
    assert toks[1..] != [];
    name := toks[1].value;
    var s2 := Step(s1, toks[1]).value;
    assert s2 == SigState(2, Some(name), []);
    assert Scan(s2, toks[2..]) == Scan(Start, toks) by {
      assert toks[1..][1..] == toks[2..];
    }
    assert toks[2..] != [];
    var s3 := Step(s2, toks[2]).value;
    assert Scan(s3, toks[3..]) == Scan(Start, toks) by {
      assert toks[2..][1..] == toks[3..];
    }
    var rest := toks[3..];
    ps, trailing, k := ParamsOfAccepted(SigState(3, Some(name), []), rest);
    assert Keys(toks[..3]) == Header(name);
    assert Keys(toks) == Keys(toks[..3]) + Keys(rest);
    assert [] + ps == ps;
  }
}
