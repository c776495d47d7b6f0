// The decisions the builder's rules take once their operands are lowered:
// the Racket text each rule assembles and the type it gives the result, as
// pure functions of the operands' texts and types. The lowering methods
// (ExprLowering, StmtLowering) call these; the lemmas here state what each
// decision accepts and produces.

module Rules {
  import opened Wrappers
  import opened Types
  import opened Ast
  import opened ExtraCodes
  import opened Truthiness
  import opened Scope
  import Flatten

  // ------------------------------------------------------------ constants

  /** `value.replace('"', '\\"')`: the newer snapshot escapes quotes only. */
  function EscapeQuotes(s: string): string
  {
    if s == [] then [] else (if s[0] == '"' then ['\\', '"'] else [s[0]]) + EscapeQuotes(s[1..])
  }

  /** The escaping a Racket string literal needs: backslashes and quotes. */
  function EscapeRacket(s: string): string
  {
    if s == [] then []
    else (if s[0] == '"' || s[0] == '\\' then ['\\', s[0]] else [s[0]]) + EscapeRacket(s[1..])
  }

  /** What Racket's reader makes of the text between the quotes of a string
      literal, for the two escapes the transpiler writes (`\\` and `\"`); a
      bare quote ends the literal early, and any other escape is outside
      what this reader covers. */
  function ReadStringBody(t: string): Option<string>
  {
    if t == [] then Some([])
    else if t[0] == '"' then None
    else if t[0] == '\\' then
      if |t| >= 2 && (t[1] == '\\' || t[1] == '"') then
        match ReadStringBody(t[2..])
        case Some(rest) => Some([t[1]] + rest)
        case None => None
      else None
    else
      match ReadStringBody(t[1..])
      case Some(rest) => Some([t[0]] + rest)
      case None => None
  }

  /** The corrected escaping reads back as the string it came from. */
  lemma {:induction false} EscapeRoundTrip(s: string)
    ensures ReadStringBody(EscapeRacket(s)) == Some(s)
  {
    if s != [] {
      EscapeRoundTrip(s[1..]);
      var head := if s[0] == '"' || s[0] == '\\' then ['\\', s[0]] else [s[0]];
      var t := head + EscapeRacket(s[1..]);
      if s[0] == '"' || s[0] == '\\' {
        assert t[2..] == EscapeRacket(s[1..]);
      } else {
        assert t[1..] == EscapeRacket(s[1..]);
      }
      assert [s[0]] + s[1..] == s;
    }
  }

  /** Without backslashes in the string, both escapings agree. */
  lemma {:induction false} EscapingsAgree(s: string)
    requires forall i :: 0 <= i < |s| ==> s[i] != '\\'
    ensures EscapeQuotes(s) == EscapeRacket(s)
  {
    if s != [] {
      EscapingsAgree(s[1..]);
    }
  }

  /** A lone backslash, escaped as written, leaves a backslash that swallows
      the closing quote: the literal no longer reads back. */
  lemma BackslashBreaksLiteral()
    ensures EscapeQuotes("\\") == "\\"
    ensures ReadStringBody(EscapeQuotes("\\")) == None
    ensures ReadStringBody(EscapeRacket("\\")) == Some("\\")
  {
    EscapeRoundTrip("\\");
  }

  /** `str(i)` for an int. */
  function IntToString(i: int): string
  {
    if i < 0 then "-" + NatToString(-i) else NatToString(i)
  }

  /** The string literal `Constant` writes: the newer snapshot escapes the
      quotes only, the older one escapes nothing. */
  function StringLiteral(s: string, legacy: bool): string
  {
    "\"" + (if legacy then s else EscapeQuotes(s)) + "\""
  }

  /** `Constant`, before the literal-if check: the text and Python type of a
      literal; bytes, complex numbers and the ellipsis are rejected. */
  function ConstantRule(c: Const, legacy: bool): Result<(string, Ty)>
  {
    match c
    case CStr(s) => Ok((StringLiteral(s, legacy), Str))
    case CBool(b) => Ok((if b then "#t" else "#f", Bool))
    case CInt(i) => Ok((IntToString(i), Int))
    case CFloat(text) => Ok((text, Float))
    case CNone => Ok(("'NoneType", NoneLit))
    case COther => Err(ValueError)
  }

  /** A literal gets its own Python type, and its text reads back as its
      value: a string without backslashes as the same string, a
      non-negative int as its digits. */
  lemma ConstantMeaning(c: Const)
    ensures ConstantRule(c, false).Ok? <==> !c.COther?
    ensures c.COther? ==> ConstantRule(c, false) == Err(ValueError)
    ensures c.CStr? ==> var text := ConstantRule(c, false).value.0;
      ConstantRule(c, false).value.1 == Str && |text| >= 2 && text[0] == '"' && text[|text| - 1] == '"'
    ensures c.CStr? && (forall i :: 0 <= i < |c.s| ==> c.s[i] != '\\') ==>
      var text := ConstantRule(c, false).value.0;
      ReadStringBody(text[1..|text| - 1]) == Some(c.s)
    ensures c.CInt? && c.i >= 0 ==>
      ConstantRule(c, false).value.1 == Int && IsNumeric(ConstantRule(c, false).value.0)
      && DigitsValue(ConstantRule(c, false).value.0) == c.i
    ensures c.CInt? && c.i < 0 ==> ConstantRule(c, false).value.0 == "-" + NatToString(-c.i)
    ensures c.CBool? ==> ConstantRule(c, false).value.1 == Bool
    ensures c.CNone? ==> ConstantRule(c, false).value.1 == NoneLit
  {
    match c {
      case CStr(s) =>
        var text := StringLiteral(s, false);
        assert text[1..|text| - 1] == EscapeQuotes(s);
        if forall i :: 0 <= i < |s| ==> s[i] != '\\' {
          EscapingsAgree(s);
          EscapeRoundTrip(s);
        }
      case CInt(i) =>
        if i >= 0 {
          DigitsOfNat(i);
        }
      case _ =>
    }
  }

  // ------------------------------------------------------- binary operators

  /** `Add`, `Sub`, `Mult`, `Div`; any other operator node is unsupported. */
  function BinOpSymbol(op: BinOperator): Result<string>
  {
    match op
    case Add => Ok("+")
    case Sub => Ok("-")
    case Mult => Ok("*")
    case Div => Ok("/")
    case OtherBinOp => Err(ValueError)
  }

  /** What `BinOp` makes of two operand types: arithmetic, or string
      concatenation for `+` on two strings. The operator is looked up (and
      may fail) on every path, the error path's message included. */
  datatype BinKind = Arith(t: Ty) | Concat

  function BinOpKind(op: BinOperator, lt: Ty, rt: Ty): Result<BinKind>
  {
    if IsNumber(lt) && IsNumber(rt) then
      var _ :- BinOpSymbol(op);
      Ok(Arith(if lt == Int && rt == Int then Int else Float))
    else if lt == Str && rt == Str then
      var sym :- BinOpSymbol(op);
      if sym != "+" then Err(TypeError) else Ok(Concat)
    else
      var _ :- BinOpSymbol(op);
      Err(TypeError)
  }

  /** Numbers combine with any of the four operators, strings only with `+`;
      the result is an int exactly when both operands are. */
  lemma BinOpTyping(op: BinOperator, lt: Ty, rt: Ty)
    ensures BinOpKind(op, lt, rt).Ok? <==>
      op != OtherBinOp && ((IsNumber(lt) && IsNumber(rt)) || (lt == Str && rt == Str && op == Add))
    ensures op == OtherBinOp ==> BinOpKind(op, lt, rt) == Err(ValueError)
    ensures BinOpKind(op, lt, rt).Ok? && IsNumber(lt) ==>
      BinOpKind(op, lt, rt) == Ok(Arith(if lt == Int && rt == Int then Int else Float))
    ensures BinOpKind(op, lt, rt).Ok? && lt == Str ==> BinOpKind(op, lt, rt) == Ok(Concat)
  {
  }

  /** The head of the application a binary operation becomes. */
  function BinHead(kind: BinKind, sym: string): string
  {
    if kind.Concat? then "string-append" else sym
  }

  /** The evidently intended text of a binary operation. When the left
      operand is itself an application of the same operator, its operand
      list is extended instead of nesting (`(+ (+ a b) c)` becomes
      `(+ a b c)`), whatever the operands' own text holds. */
  function BinOpText(head: string, spliceLeft: bool, l: string, r: string): string
  {
    if spliceLeft && |l| >= 1 then Flatten.Splice(l, r) else Flatten.Application(head, [l, r])
  }

  /** Left-nested applications of one operator collapse into one
      application over all the operands, in order. */
  lemma BinOpFlattens(head: string, operands: seq<string>, r: string)
    requires |operands| >= 2
    ensures BinOpText(head, true, Flatten.Application(head, operands), r) == Flatten.Application(head, operands + [r])
  {
    Flatten.SpliceExtends(head, operands, r);
  }

  /** The text `BinOp` returns: the application of the operator to both
      operands, passed through `flattenNumberBinOp` for arithmetic or
      `flattenSubString` for concatenation, as written. Each rewrite loop
      runs for at most `fuel` turns; a loop still running then is reported
      as `Unmodelled`. */
  function BinOpTextAsWritten(kind: BinKind, sym: string, l: string, r: string, fuel: nat): (res: Result<string>)
    ensures res.Err? ==> res.error == Unmodelled || (kind.Arith? && res.error == IndexError)
  {
    var text := Flatten.Application(BinHead(kind, sym), [l, r]);
    if kind.Concat? then Flatten.FlattenSubStringAsWritten(text, fuel)
    else Flatten.FlattenNumberAsWritten(text, fuel)
  }

  /** The whole `BinOp` rule on two lowered operands, as written: the kind
      of operation, then the operator's text through the textual flattening,
      each rewrite loop given `|l| + |r| + 1` turns. The result is an int
      exactly when both operands are ints and a string exactly for `+` on two
      strings; every error of the flattening (an IndexError) is passed on. */
  function BinOpRule(op: BinOperator, l: (string, Ty), r: (string, Ty)): (res: Result<(string, Ty)>)
    ensures BinOpKind(op, l.1, r.1).Err? ==> res == Err(BinOpKind(op, l.1, r.1).error)
    ensures BinOpKind(op, l.1, r.1).Ok? ==>
      var text := BinOpTextAsWritten(BinOpKind(op, l.1, r.1).value, BinOpSymbol(op).value, l.0, r.0, |l.0| + |r.0| + 1);
      (text.Err? ==> res == Err(text.error)) && (text.Ok? ==> res.Ok? && res.value.0 == text.value)
    ensures res.Ok? ==> res.value.1 in {Int, Float, Str}
    ensures res.Ok? ==> (res.value.1 == Int <==> l.1 == Int && r.1 == Int)
    ensures res.Ok? ==> (res.value.1 == Str <==> l.1 == Str && r.1 == Str && op == Add)
  {
    var kind :- BinOpKind(op, l.1, r.1);
    var text :- BinOpTextAsWritten(kind, BinOpSymbol(op).value, l.0, r.0, |l.0| + |r.0| + 1);
    Ok((text, if kind.Concat? then Str else kind.t))
  }

  /** On operands that are not themselves applications of an operator, the
      rewrites change nothing and the text is the plain application. */
  lemma BinOpPlainOperands(kind: BinKind, sym: string, l: string, r: string, fuel: nat)
    requires fuel >= 1
    requires kind.Arith? ==> sym in {"+", "-", "*", "/"}
    requires kind.Arith? ==> forall j :: 0 <= j < |l| ==> l[j] !in "+-*/"
    requires kind.Arith? ==> forall j :: 0 <= j < |r| ==> r[j] !in "+-*/"
    requires kind.Concat? ==> |l| >= 1 && !Flatten.OpensSubApplication(l)
    ensures BinOpTextAsWritten(kind, sym, l, r, fuel) == Ok(Flatten.Application(BinHead(kind, sym), [l, r]))
  {
    if kind.Concat? {
      Flatten.SubStringKeepsPlain(l, r, fuel);
    } else {
      var op := if sym == "+" then '+' else if sym == "-" then '-' else if sym == "*" then '*' else '/';
      assert sym == [op];
      Flatten.NumberKeepsPlain(op, l, r, fuel);
    }
  }

  // -------------------------------------------------------- unary operators

  function UnarySymbol(op: UnaryOperator): Result<string>
  {
    match op
    case UAdd => Ok("+")
    case USub => Ok("-")
    case Not => Ok("not")
    case Invert => Err(ValueError)
  }

  /** `UnaryOp` before the literal-if check: `+`/`-` on numbers, `not` on
      booleans; `None` when no case applies (the caller then decides). A
      negated literal is written `-5`, anything else `(- x)`. */
  function UnaryCore(op: UnaryOperator, value: string, vType: Ty, operandIsLiteral: bool): Result<Option<(string, Ty)>>
  {
    if IsNumber(vType) then
      var sym :- UnarySymbol(op);
      if sym == "+" then Ok(Some((value, vType)))
      else if sym == "-" then Ok(Some((if operandIsLiteral then "-" + value else "(- " + value + ")", vType)))
      else Ok(None)
    else if vType == Bool then
      var sym :- UnarySymbol(op);
      if sym == "not" then Ok(Some(("(not " + value + ")", Bool))) else Ok(None)
    else Ok(None)
  }

  /** A unary operation keeps its operand's type; it applies exactly to
      `+`/`-` on numbers and `not` on booleans. */
  lemma UnaryTyping(op: UnaryOperator, value: string, vType: Ty, lit: bool)
    ensures UnaryCore(op, value, vType, lit).Ok? && UnaryCore(op, value, vType, lit).value.Some? ==>
      UnaryCore(op, value, vType, lit).value.value.1 == vType
    ensures (UnaryCore(op, value, vType, lit).Ok? && UnaryCore(op, value, vType, lit).value.Some?) <==>
      ((IsNumber(vType) && (op == UAdd || op == USub)) || (vType == Bool && op == Not))
    ensures UnaryCore(op, value, vType, lit).Err? <==> op == Invert && (IsNumber(vType) || vType == Bool)
  {
  }

  /** `not x` in a test where `x` is not a boolean, as written: the operand
      is `resolve(x)[0]`, which for a tuple (whose resolver returns a bare
      string, not a pair) is the string's first character. */
  function NotTestAsWritten(value: string, vType: Ty, legacy: bool): (r: Result<string>)
    ensures r.Ok? <==> ResolveTruth(value, vType, legacy).Ok?
    ensures r.Ok? ==>
      |r.value| >= 6 && r.value[..5] == "(not " && r.value[|r.value| - 1] == ')' &&
      r.value[5..|r.value| - 1] <= ResolveTruth(value, vType, legacy).value.0
  {
    var resolved :- ResolveTruth(value, vType, legacy);
    var text := resolved.0;
    var operand := if !legacy && (vType.TTuple? || vType == TupleClass) && |text| >= 1 then text[..1] else text;
    Ok("(not " + operand + ")")
  }

  /** The evidently intended `not x` in a test: negate the whole resolved test. */
  function NotTest(value: string, vType: Ty, legacy: bool): (r: Result<string>)
    ensures r.Ok? <==> ResolveTruth(value, vType, legacy).Ok?
    ensures r.Ok? ==> r.value == "(not " + ResolveTruth(value, vType, legacy).value.0 + ")"
  {
    var resolved :- ResolveTruth(value, vType, legacy);
    Ok("(not " + resolved.0 + ")")
  }

  /** `not t` for a tuple `t` becomes the unbalanced `(not ()`. */
  lemma NotOfTupleAsWritten(value: string)
    ensures NotTestAsWritten(value, TTuple([Int, Int]), false) == Ok("(not ()")
    ensures NotTest(value, TTuple([Int, Int]), false) == Ok("(not (!= (vector-length " + value + ") 0))")
  {
    var text := "(!= (vector-length " + value + ") 0)";
    assert ResolveTruth(value, TTuple([Int, Int]), false) == Ok((text, Null));
    assert text[..1] == "(";
    assert NotTestAsWritten(value, TTuple([Int, Int]), false) == Ok("(not " + "(" + ")");
    assert "(not " + "(" + ")" == "(not ()";
    assert "(not " + text + ")" == "(not (!= (vector-length " + value + ") 0))";
  }

  /** Both agree on everything but tuples. */
  lemma NotTestsAgree(value: string, vType: Ty, legacy: bool)
    requires legacy || !(vType.TTuple? || vType == TupleClass)
    ensures NotTestAsWritten(value, vType, legacy) == NotTest(value, vType, legacy)
  {
  }

  // --------------------------------------------------------------- indexing

  /** `(if (< i 0) (- (count name) (- i)) i)`: the run-time correction of a
      negative index. */
  function WrapIndex(count: string, name: string, index: string): string
  {
    "(if (< " + index + " 0) (- (" + count + " " + name + ") (- " + index + ")) " + index + ")"
  }

  /** What the wrapped index evaluates to at run time, for a collection of
      length `len`: Python's meaning of a possibly negative index. */
  function WrappedValue(i: int, len: nat): int
  {
    if i < 0 then len - (-i) else i
  }

  /** The index of a list subscript. An int-typed index is wrapped, except
      that (in the newer snapshot's `a[i]`) a literal index is written as
      its number; anything else is a TypeError. */
  function ListIndex(name: string, index: string, indexT: Ty, literalShortcut: bool): Result<string>
  {
    if indexT == Int && literalShortcut && IsNumeric(index) then Ok(NatToString(DigitsValue(index)))
    else if indexT == Int then Ok(WrapIndex("gvector-count", name, index))
    else Err(TypeError)
  }

  /** Only ints index a list; a literal index keeps its value, and the
      wrapped form leaves every non-negative index as it is. */
  lemma ListIndexMeaning(name: string, index: string, indexT: Ty, shortcut: bool)
    ensures ListIndex(name, index, indexT, shortcut).Ok? <==> indexT == Int
    ensures indexT == Int && shortcut && IsNumeric(index) ==>
      DigitsValue(ListIndex(name, index, indexT, shortcut).value) == DigitsValue(index)
    ensures forall i: int, len: nat :: 0 <= i ==> WrappedValue(i, len) == i
    ensures forall i: int, len: nat :: 0 <= len + i && i < 0 ==> 0 <= WrappedValue(i, len) < len
  {
    if indexT == Int && shortcut && IsNumeric(index) {
      DigitsOfNat(DigitsValue(index));
    }
  }

  /** A tuple subscript: a literal index must be in range and yields that
      element's type; any other int index is wrapped and its type unknown. */
  function TupleIndex(name: string, index: string, indexT: Ty, elems: seq<Ty>): Result<(string, Ty)>
  {
    if indexT == Int && IsNumeric(index) then
      var k := DigitsValue(index);
      if k >= |elems| then Err(ValueError)
      else Ok(("(vector-ref " + name + " " + NatToString(k) + ")", elems[k]))
    else if indexT == Int then Ok(("(vector-ref " + name + " " + WrapIndex("vector-length", name, index) + ")", NoneLit))
    else Err(TypeError)
  }

  lemma TupleIndexTyping(name: string, index: string, indexT: Ty, elems: seq<Ty>)
    ensures indexT != Int ==> TupleIndex(name, index, indexT, elems) == Err(TypeError)
    ensures indexT == Int && IsNumeric(index) ==>
      (TupleIndex(name, index, indexT, elems).Ok? <==> DigitsValue(index) < |elems|)
    ensures indexT == Int && IsNumeric(index) && DigitsValue(index) < |elems| ==>
      TupleIndex(name, index, indexT, elems).value.1 == elems[DigitsValue(index)]
    ensures indexT == Int && !IsNumeric(index) ==> TupleIndex(name, index, indexT, elems).value.1 == NoneLit
  {
  }

  // ------------------------------------------------------------ comparisons

  /** The comparison operator nodes; `in` exists only in the newer snapshot. */
  function CmpSymbol(op: CmpOp, legacy: bool): Result<string>
  {
    match op
    case Eq => Ok("==")
    case NotEq => Ok("!=")
    case Lt => Ok("<")
    case LtE => Ok("<=")
    case Gt => Ok(">")
    case GtE => Ok(">=")
    case In => if legacy then Err(ValueError) else Ok("in?")
    case OtherCmp => Err(ValueError)
  }

  /** The flag lowering the operator node switches on. */
  function CmpFlag(op: CmpOp, legacy: bool): Option<Flag>
  {
    match op
    case Eq => Some(EQUAL)
    case NotEq => Some(NOT_EQUAL)
    case In => if legacy then None else Some(IN)
    case _ => None
  }

  /** `determineOp`: the Racket comparison for two operand types; the flag
      says that a membership test against an unknown tuple element warns. */
  function DetermineOp(sym: string, t1: Ty, t2: Ty, legacy: bool): Result<(string, bool)>
  {
    if sym == "==" || sym == "!=" then Ok((sym, false))
    else if !legacy && sym == "in?" then
      if t2.TAny? then Ok((sym, true))
      else if !(t2.TList? || t2.TTuple?) then Err(TypeError)
      else Ok((sym, false))
    else if IsNumber(t1) && IsNumber(t2) then Ok((sym, false))
    else if t1 == Str && t2 == Str then Ok(("string" + sym + "?", false))
    else Err(TypeError)
  }

  /** Equality compares anything; ordering compares two numbers, or two
      strings with Racket's string comparisons; membership needs a list or
      a tuple on the right. */
  lemma CompareTyping(op: CmpOp, t1: Ty, t2: Ty, legacy: bool)
    requires CmpSymbol(op, legacy).Ok?
    ensures var sym := CmpSymbol(op, legacy).value;
      (op == Eq || op == NotEq ==> DetermineOp(sym, t1, t2, legacy) == Ok((sym, false)))
      && (op in {Lt, LtE, Gt, GtE} ==>
            (DetermineOp(sym, t1, t2, legacy).Ok? <==> (IsNumber(t1) && IsNumber(t2)) || (t1 == Str && t2 == Str))
            && (t1 == Str && t2 == Str ==> DetermineOp(sym, t1, t2, legacy).value.0 == "string" + sym + "?"))
      && (op == In ==> (DetermineOp(sym, t1, t2, legacy).Ok? <==> t2.TList? || t2.TTuple? || t2.TAny?))
  {
  }

  // ------------------------------------------------------------------ calls

  /** `(f)` or `(f args)`. */
  function CallText(f: string, args: string): string
  {
    if args == "" then "(" + f + ")" else "(" + f + " " + args + ")"
  }

  /** One step of the argument-string loop: a space before every piece but
      the first. */
  function AppendArg(args: string, piece: string): string
  {
    (if args != "" then args + " " else args) + piece
  }

  function AppendArgs(args: string, pieces: seq<string>): string
    decreases |pieces|
  {
    if pieces == [] then args else AppendArgs(AppendArg(args, pieces[0]), pieces[1..])
  }

  lemma {:induction false} AppendArgsSnoc(args: string, pieces: seq<string>, piece: string)
    ensures AppendArgs(args, pieces + [piece]) == AppendArg(AppendArgs(args, pieces), piece)
    decreases |pieces|
  {
    if pieces != [] {
      assert (pieces + [piece])[1..] == pieces[1..] + [piece];
      AppendArgsSnoc(AppendArg(args, pieces[0]), pieces[1..], piece);
    }
  }

  /** With non-empty pieces the loop joins them with single spaces. */
  lemma {:induction false} AppendArgsJoins(pieces: seq<string>)
    requires forall i :: 0 <= i < |pieces| ==> pieces[i] != ""
    ensures AppendArgs("", pieces) == Join(pieces, " ")
  {
    if pieces != [] {
      assert AppendArg("", pieces[0]) == pieces[0];
      AppendArgsFrom(pieces[0], pieces[1..]);
    }
  }

  lemma {:induction false} AppendArgsFrom(acc: string, pieces: seq<string>)
    requires acc != ""
    ensures AppendArgs(acc, pieces) == if pieces == [] then acc else acc + " " + Join(pieces, " ")
    decreases |pieces|
  {
    if pieces != [] {
      AppendArgsFrom(acc + " " + pieces[0], pieces[1..]);
      if pieces[1..] != [] {
        JoinCons(pieces[0], pieces[1..]);
        assert [pieces[0]] + pieces[1..] == pieces;
      } else {
        assert pieces == [pieces[0]];
      }
    }
  }

  lemma JoinCons(x: string, xs: seq<string>)
    ensures Join([x] + xs, " ") == if xs == [] then x else x + " " + Join(xs, " ")
  {
    assert ([x] + xs)[1..] == xs;
  }

  /** The arity check of a call against a function type with `nPos`
      positional and `nKwParams` keyword parameters. */
  function ArityCheck(nPos: nat, nKwParams: nat, vararg: bool, nArgs: nat, nKw: nat): Result<()>
  {
    if (vararg && nArgs < nPos) || (!vararg && nArgs != nPos) then Err(TypeError)
    else if nKw > nKwParams then Err(TypeError)
    else Ok(())
  }

  lemma ArityMeaning(nPos: nat, nKwParams: nat, vararg: bool, nArgs: nat, nKw: nat)
    ensures ArityCheck(nPos, nKwParams, vararg, nArgs, nKw).Ok? <==>
      (if vararg then nArgs >= nPos else nArgs == nPos) && nKw <= nKwParams
  {
  }

  /** `#:name value`, the text of a keyword argument. */
  function KeywordText(arg: string, value: string): string
  {
    "#:" + arg + " " + value
  }

  /** The text before the first space (`s.split(" ")[0]`). */
  function FirstWord(s: string): (r: string)
    ensures |r| <= |s| && r == s[..|r|]
  {
    if s == [] || s[0] == ' ' then [] else [s[0]] + FirstWord(s[1..])
  }

  /** `getKeywordName`: `argument.split(" ")[0][2:]`. */
  function KeywordName(text: string): string
  {
    Flatten.PySlice(FirstWord(text), 2, |FirstWord(text)|)
  }

  lemma {:induction false} FirstWordOf(w: string, rest: string)
    requires forall i :: 0 <= i < |w| ==> w[i] != ' '
    ensures FirstWord(w + " " + rest) == w
  {
    if w == [] {
      assert (w + " " + rest)[0] == ' ';
    } else {
      assert (w + " " + rest)[1..] == w[1..] + " " + rest;
      FirstWordOf(w[1..], rest);
      assert [w[0]] + w[1..] == w;
    }
  }

  /** The keyword name is recovered from the keyword's text when the name
      has no space (an identifier never does). */
  lemma KeywordNameRoundTrip(arg: string, value: string)
    requires forall i :: 0 <= i < |arg| ==> arg[i] != ' '
    ensures KeywordName(KeywordText(arg, value)) == arg
  {
    FirstWordOf("#:" + arg, value);
    assert KeywordText(arg, value) == ("#:" + arg) + " " + value;
  }

  /** A keyword parameter's type. */
  function KwLookup(kws: seq<(string, Ty)>, name: string): Option<Ty>
  {
    if kws == [] then None
    else if kws[0].0 == name then Some(kws[0].1)
    else KwLookup(kws[1..], name)
  }

  /** A keyword argument `(name, text, type)` names a keyword parameter
      whose type it fits. */
  predicate KwFits(params: seq<(string, Ty)>, kw: (string, string, Ty))
  {
    KwLookup(params, kw.0).Some? && Compatible(kw.2, KwLookup(params, kw.0).value)
  }

  /** With distinct names, every keyword parameter is found as itself. */
  lemma {:induction false} KwLookupDistinct(kws: seq<(string, Ty)>, i: nat)
    requires i < |kws|
    requires forall j, k :: 0 <= j < k < |kws| ==> kws[j].0 != kws[k].0
    ensures KwLookup(kws, kws[i].0) == Some(kws[i].1)
  {
    if i > 0 {
      assert kws[0].0 != kws[i].0;
      assert kws[1..][i - 1] == kws[i];
      KwLookupDistinct(kws[1..], i - 1);
    }
  }

  /** `len(x)`: strings, lists and (in the newer snapshot) tuples. */
  function LenText(value: string, vType: Ty, legacy: bool): Result<string>
  {
    if vType == Str then Ok("(string-length " + value + ")")
    else if vType.TList? || vType == ListClass then Ok("(gvector-count " + value + ")")
    else if !legacy && (vType.TTuple? || vType == TupleClass) then Ok("(vector-length " + value + ")")
    else Err(TypeError)
  }

  lemma LenAccepts(value: string, vType: Ty, legacy: bool)
    ensures LenText(value, vType, legacy).Ok? <==>
      vType == Str || vType.TList? || vType == ListClass || (!legacy && (vType.TTuple? || vType == TupleClass))
    ensures LenText(value, vType, legacy).Err? ==> LenText(value, vType, legacy).error == TypeError
  {
  }

  /** The type converters `int`, `float`, `str` and `bool`. */
  datatype Converter = ToInt | ToFloat | ToStr | ToBool

  function ConverterNamed(name: string): Option<Converter>
  {
    if name == "int" then Some(ToInt)
    else if name == "float" then Some(ToFloat)
    else if name == "str" then Some(ToStr)
    else if name == "bool" then Some(ToBool)
    else None
  }

  function ConverterName(c: Converter): string
  {
    match c
    case ToInt => "int"
    case ToFloat => "float"
    case ToStr => "str"
    case ToBool => "bool"
  }

  function ConverterFlag(c: Converter): Flag
  {
    match c
    case ToInt => TO_INT
    case ToFloat => TO_FLOAT
    case ToStr => TO_STR
    case ToBool => TO_BOOL
  }

  function ConverterResult(c: Converter): Ty
  {
    match c
    case ToInt => Int
    case ToFloat => Float
    case ToStr => Str
    case ToBool => Bool
  }

  /** The `accepted` list of each converter; the older snapshot's `int`
      leaves out `int` itself. */
  function Accepted(c: Converter, legacy: bool): set<Ty>
  {
    if legacy && c == ToInt then {Float, Str, Bool} else {Int, Float, Str, Bool}
  }

  /** The argument check of a converter; `Ok(true)` means an unknown tuple
      element was let through (with a warning, unless values are skipped). */
  function ConvertCheck(c: Converter, argT: Ty, legacy: bool): Result<bool>
  {
    if argT in Accepted(c, legacy) then Ok(false)
    else if !legacy && argT.TAny? then Ok(true)
    else Err(TypeError)
  }

  lemma ConverterAccepts(c: Converter, argT: Ty, legacy: bool)
    ensures ConverterNamed(ConverterName(c)) == Some(c)
    ensures ConvertCheck(c, argT, legacy).Ok? <==>
      (argT in {Int, Float, Str, Bool} && !(legacy && c == ToInt && argT == Int)) || (!legacy && argT.TAny?)
    ensures legacy ==> ConvertCheck(ToInt, Int, legacy) == Err(TypeError)
  {
  }

  /** The names `Call` hands to a special resolver. */
  predicate IsSpecialCall(name: string)
  {
    name in {"print", "range", "input", "len"} || ConverterNamed(name).Some?
  }

  // ------------------------------------------------------- if statements

  /** One body's return behaviour added to those of the other paths; two
      different behaviours are rejected. */
  function AddPath(paths: set<bool>, didReturn: bool): Result<set<bool>>
  {
    var s := paths + {didReturn};
    if |s| == 2 then Err(ValueError) else Ok(s)
  }

  function PathsOf(behaviours: seq<bool>): Result<set<bool>>
  {
    if behaviours == [] then Ok({})
    else
      var s :- PathsOf(behaviours[..|behaviours| - 1]);
      AddPath(s, behaviours[|behaviours| - 1])
  }

  /** The paths of an `if` are accepted exactly when they all return, or
      all fall through; the recorded set is then that one behaviour. */
  lemma {:induction false} PathsAgree(bs: seq<bool>)
    ensures PathsOf(bs).Ok? <==> forall i :: 0 <= i < |bs| ==> bs[i] == bs[0]
    ensures PathsOf(bs).Ok? && bs != [] ==> PathsOf(bs).value == {bs[0]}
    ensures bs == [] ==> PathsOf(bs) == Ok({})
  {
    if bs != [] {
      var init := bs[..|bs| - 1];
      var last := bs[|bs| - 1];
      PathsAgree(init);
      if init == [] {
        AddPathToNone(last);
      } else {
        assert init[0] == bs[0];
        if PathsOf(init).Ok? {
          AddPathToOne(bs[0], last);
        } else {
          var i :| 0 <= i < |init| && init[i] != init[0];
          assert bs[i] != bs[0];
        }
      }
    }
  }

  lemma AddPathToNone(b: bool)
    ensures AddPath({}, b) == Ok({b})
  {
    assert {} + {b} == {b};
  }

  lemma AddPathToOne(c: bool, b: bool)
    ensures AddPath({c}, b).Ok? <==> c == b
    ensures AddPath({c}, b).Ok? ==> AddPath({c}, b).value == {b}
  {
    if c == b {
      assert {c} + {b} == {b};
    } else {
      assert {c} + {b} == {c, b};
    }
  }

  /** The pending definitions a root `if` or `for` writes before itself. */
  function DefsPrefix(defs: seq<string>): string
  {
    Join(defs, "\n") + (if |defs| > 0 then "\n" else "")
  }

  /** The text of an `if`: its paths joined into a `cond`, or (as the
      `elif` of another `if`) the bare paths for the outer `cond`; a root
      `if` writes the definitions hoisted out of its bodies first. */
  function IfText(root: bool, innerBody: bool, defs: seq<string>, paths: seq<string>): string
  {
    if !root then
      (if !innerBody then Join(paths, "\n") else "(cond " + Join(paths, " ") + ")")
    else DefsPrefix(defs) + "(cond " + Join(paths, " ") + ")"
  }

  /** `true` when a text is not one the older snapshot's bodies recognise as
      an assignment to an existing name (`(set! ...` or `(safe-gvector-set! ...`). */
  predicate LegacyIsDefine(text: string)
  {
    !StartsWith(text, "(set!") && !StartsWith(text, "(safe-gvector-set!")
  }

  // ------------------------------------------------------------ for loops

  /** `for` over an iterable: the text iterated and the loop variable's type.
      Lists not built by `range` and tuples are converted to Racket lists. */
  function ForIter(iterc: string, iterT: Ty, legacy: bool): Result<(string, Ty)>
  {
    if !(iterT.TList? || iterT.TTuple? || iterT.TAny?) then Err(TypeError)
    else if iterT.TList? then
      Ok((if iterT.native then iterc else "(gvector->list " + iterc + ")", iterT.contained))
    else if iterT.TTuple? && !legacy then Ok(("(vector->list " + iterc + ")", TAny))
    else Err(NotImplementedError)
  }

  lemma ForIterTyping(iterc: string, iterT: Ty, legacy: bool)
    ensures ForIter(iterc, iterT, legacy).Ok? <==> iterT.TList? || (!legacy && iterT.TTuple?)
    ensures iterT.TList? ==> ForIter(iterc, iterT, legacy).value.1 == iterT.contained
    ensures iterT.TList? && iterT.native ==> ForIter(iterc, iterT, legacy).value.0 == iterc
    ensures !legacy && iterT.TTuple? ==> ForIter(iterc, iterT, legacy).value.1 == TAny
    ensures !(iterT.TList? || iterT.TTuple? || iterT.TAny?) ==> ForIter(iterc, iterT, legacy) == Err(TypeError)
  {
  }

  /** The element type of an iterable type (`iterType`), if it is one. */
  function IterType(t: Ty): Option<Ty>
  {
    if t.TList? then Some(t.contained) else if t.TTuple? || t.TAny? then Some(TAny) else None
  }

  // ------------------------------------------------------ function headers

  /** Which default belongs to parameter `i` of `argsLen`, when the last
      `defaultsLen` parameters have defaults (`-(argsLen-defaultsLen-i)`). */
  function DefaultIndex(i: int, argsLen: int, defaultsLen: int): int
  {
    -(argsLen - defaultsLen - i)
  }

  lemma DefaultsAlignRight(i: int, argsLen: nat, defaultsLen: nat)
    requires 0 <= i < argsLen && defaultsLen <= argsLen
    ensures DefaultIndex(i, argsLen, defaultsLen) >= 0 <==> i >= argsLen - defaultsLen
    ensures DefaultIndex(i, argsLen, defaultsLen) < defaultsLen
  {
  }

  /** The parameter text: `name`, or `#:name [name default]`. */
  function ParamText(name: string, default: Option<string>): string
  {
    match default
    case None => name
    case Some(v) => "#:" + name + " [" + name + " " + v + "]"
  }

  /** The default-value check as written: `isTypeCompatible(annotation,
      defaultType)`, the annotation in the place of the value. */
  predicate DefaultAcceptedAsWritten(annotation: Ty, defaultT: Ty): (ok: bool)
    ensures ok <==> DefaultAccepted(defaultT, annotation)
    ensures PyEq(annotation, defaultT) ==> ok
  {
    if PyEq(annotation, defaultT) then PyEqImpliesCompatible(annotation, defaultT); true
    else Compatible(annotation, defaultT)
  }

  /** The check every other binding makes: the value's type must fit the
      declared one. */
  predicate DefaultAccepted(annotation: Ty, defaultT: Ty)
  {
    Compatible(defaultT, annotation)
  }

  /** `def f(x: float = 0)` is rejected and `def f(x: int = 0.5)` accepted
      as written; the corrected check does the opposite. */
  lemma DefaultCheckReversed()
    ensures !DefaultAcceptedAsWritten(Float, Int) && DefaultAccepted(Float, Int)
    ensures DefaultAcceptedAsWritten(Int, Float) && !DefaultAccepted(Int, Float)
  {
  }

  /** The corrected check accepts the default of keyword parameter `i`
      exactly when a call passing the same value by that keyword would pass
      the call's keyword check (`KwFits`); the parameter names of a function
      are distinct. A default of the annotation's own type is accepted by
      both checks. */
  lemma DefaultAgreesWithCall(kws: seq<(string, Ty)>, defaultTypes: seq<Ty>, defaultTexts: seq<string>, i: nat)
    requires |defaultTypes| == |kws| == |defaultTexts| && i < |kws|
    requires forall j, k :: 0 <= j < k < |kws| ==> kws[j].0 != kws[k].0
    ensures DefaultAccepted(kws[i].1, defaultTypes[i]) <==> KwFits(kws, (kws[i].0, defaultTexts[i], defaultTypes[i]))
    ensures kws[i].1 == defaultTypes[i] ==>
      DefaultAccepted(kws[i].1, defaultTypes[i]) && DefaultAcceptedAsWritten(kws[i].1, defaultTypes[i])
  {
    KwLookupDistinct(kws, i);
    CompatibleReflexive(kws[i].1);
  }

  /** The check a `for` target already in scope must pass, as written:
      `isTypeCompatible(variableType, elementType)`, the variable in the
      place of the value. */
  predicate ForTargetAcceptedAsWritten(varType: Ty, elemT: Ty): (ok: bool)
    ensures ok <==> ForTargetAccepted(elemT, varType)
    ensures PyEq(varType, elemT) ==> ok
  {
    if PyEq(varType, elemT) then PyEqImpliesCompatible(varType, elemT); true
    else Compatible(varType, elemT)
  }

  /** The check every other assignment makes: each element must fit the
      variable it is assigned to. */
  predicate ForTargetAccepted(varType: Ty, elemT: Ty)
  {
    Compatible(elemT, varType)
  }

  /** `x: float` followed by `for x in [1, 2]` is rejected and `x: int`
      followed by `for x in [0.5]` accepted as written; the corrected check
      does the opposite, as `x = 1` and `x = 0.5` would. */
  lemma ForTargetCheckReversed()
    ensures !ForTargetAcceptedAsWritten(Float, Int) && ForTargetAccepted(Float, Int)
    ensures ForTargetAcceptedAsWritten(Int, Float) && !ForTargetAccepted(Int, Float)
  {
  }

  /** The corrected check treats each element as one assignment to the
      variable: it accepts exactly when a list of the elements could be
      assigned to a list of the variable's type. A variable of the
      elements' own type is accepted by both checks. */
  lemma ForTargetAgreesWithLists(varType: Ty, elemT: Ty, n: bool, m: bool)
    ensures ForTargetAccepted(varType, elemT) <==> Compatible(TList(elemT, n), TList(varType, m))
    ensures PyEq(elemT, varType) ==> ForTargetAccepted(varType, elemT) && ForTargetAcceptedAsWritten(varType, elemT)
  {
    ListCompatibility(elemT, n, varType, m);
    if PyEq(elemT, varType) {
      PyEqImpliesCompatible(elemT, varType);
    }
  }

  /** A missing `return` warns unless the declared result is None. */
  predicate ImplicitReturnWarns(retType: Ty)
  {
    retType != NoneLit && retType != NoneType
  }

  // ------------------------------------------------------------- annotations

  /** `_Typer.literals`: annotation names; any other name yields the
      `_Typer.error` function itself. */
  function LiteralName(id: string): Ty
  {
    if id == "bool" then Bool
    else if id == "int" then Int
    else if id == "float" then Float
    else if id == "str" then Str
    else if id == "list" then RawList
    else AnnotationSentinel
  }

  /** A misspelt annotation accepts no concrete value. */
  lemma UnknownAnnotationRejects(id: string, t: Ty)
    requires id !in {"bool", "int", "float", "str", "list"}
    requires t in {Bool, Int, Float, Str, RawList, ListClass, TupleClass} || t.TList? || t.TTuple? || t.TFunction?
    ensures !Compatible(t, LiteralName(id))
  {
  }

  /** `_Typer._literalAnnotation`: the type an annotation names. A tuple of
      annotations (newer snapshot) gives a list of types, `List[X]` a list of
      X, `Tuple[(X, Y)]` (newer snapshot) a tuple, and any other subscripted
      name must be a list variable in scope, whose element type it names. */
  function LiteralAnnotation(frames: seq<Frame>, e: Expr, legacy: bool): Result<Ty>
    decreases ExprSize(e), 0, 0
  {
    match e
    case Name(id) => Ok(LiteralName(id))
    case Subscript(v, sl) =>
      if !v.Name? then Err(AttributeError)
      else if v.id == "List" then
        (match sl
         case Index(x) =>
           assert SliceSize(sl) == 1 + ExprSize(x);
           var c :- LiteralAnnotation(frames, x, legacy); Ok(TList(c, false))
         case _ => Err(AttributeError))
      else if v.id == "Tuple" && !legacy then
        (match sl
         case Index(x) =>
           assert SliceSize(sl) == 1 + ExprSize(x);
           var c :- LiteralAnnotation(frames, x, legacy);
           if c.TypeList? then Ok(TTuple(c.items)) else Err(Unmodelled)
         case _ => Err(AttributeError))
      else
        (match LookupIn(frames, v.id)
         case Some(TyVal(TList(c, _))) => Ok(c)
         case _ => if legacy then Err(AttributeError) else Err(TypeError))
    case Tuple(es) =>
      if legacy then Err(TypeError)
      else var ts :- LiteralAnnotations(frames, es, legacy); Ok(TypeList(ts))
    case _ => Err(TypeError)
  }

  function LiteralAnnotations(frames: seq<Frame>, es: seq<Expr>, legacy: bool): Result<seq<Ty>>
    decreases ExprsSize(es), 1, |es|
  {
    if es == [] then Ok([])
    else
      var t :- LiteralAnnotation(frames, es[0], legacy);
      var ts :- LiteralAnnotations(frames, es[1..], legacy);
      Ok([t] + ts)
  }

  /** Annotations written with the scalar names and `List[...]` only. */
  predicate SimpleAnnotation(e: Expr)
  {
    match e
    case Name(id) => id in {"bool", "int", "float", "str"}
    case Subscript(Name("List"), Index(x)) => SimpleAnnotation(x)
    case _ => false
  }

  /** Such annotations mean the same in every scope and in both snapshots,
      and name a plain type (one that list literals can merge). */
  lemma {:induction false} SimpleAnnotationIsPlain(frames: seq<Frame>, e: Expr, legacy: bool)
    requires SimpleAnnotation(e)
    ensures LiteralAnnotation(frames, e, legacy).Ok?
    ensures Plain(LiteralAnnotation(frames, e, legacy).value)
    ensures LiteralAnnotation(frames, e, legacy) == LiteralAnnotation([], e, !legacy)
    decreases e
  {
    match e
    case Name(id) =>
    case Subscript(_, sl) =>
      SimpleAnnotationIsPlain(frames, sl.value, legacy);
      SimpleAnnotationIsPlain(frames, sl.value, !legacy);
      SimpleAnnotationIsPlain([], sl.value, !legacy);
  }

  /** Subscripting a list variable names the list's element type. */
  lemma ListVariableAnnotation(frames: seq<Frame>, id: string, x: Expr, legacy: bool)
    requires id != "List" && id != "Tuple"
    ensures LiteralAnnotation(frames, Subscript(Name(id), Index(x)), legacy).Ok? <==>
      (LookupIn(frames, id).Some? && LookupIn(frames, id).value.TyVal? && LookupIn(frames, id).value.t.TList?)
    ensures LiteralAnnotation(frames, Subscript(Name(id), Index(x)), legacy).Ok? ==>
      LiteralAnnotation(frames, Subscript(Name(id), Index(x)), legacy).value == LookupIn(frames, id).value.t.contained
  {
  }

  /** `Assert`'s message: a string message loses its quotes. */
  function AssertMessage(msg: Option<(string, Ty)>): string
  {
    match msg
    case None => "AssertionError"
    case Some((text, t)) => "AssertionError: " + (if t == Str then Flatten.PySlice(text, 1, -1) else text)
  }

  function AssertText(test: string, msg: Option<(string, Ty)>): string
  {
    "(unless " + test + " (raise \"" + AssertMessage(msg) + "\" #t))"
  }

  /** A string literal's message appears in the raised string as escaped,
      the literal's quotes stripped. */
  lemma AssertMessageOfLiteral(s: string)
    ensures AssertMessage(Some((StringLiteral(s, false), Str))) == "AssertionError: " + EscapeQuotes(s)
  {
    var text := StringLiteral(s, false);
    assert Flatten.PySlice(text, 1, -1) == text[1..|text| - 1];
    assert text[1..|text| - 1] == EscapeQuotes(s);
  }
}
