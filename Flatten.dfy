// The two textual rewrites that collapse a left-nested operator application
// `(op (op a b) c)` into `(op a b c)`: `flattenNumberBinOp` for `+ - * /`
// and `flattenSubString` for `string-append` (also shipped on its own in
// flattenStringAppend.py). Both are modelled as written, with Python's
// `str.find` and slicing, and next to them the corrected rewrites: the
// string loop that always terminates and closes at the matching paren,
// and the operand splice that extends an application without re-scanning
// its text. The lowering of `BinOp` uses the rewrites as written.

module Flatten {
  import opened Wrappers

  // ------------------------------------------------------- Python strings

  /** `s.find(sub, start)`: the leftmost occurrence at or after `start`
      (`FindIsLeftmost`). */
  function Find(s: string, sub: string, start: nat): (r: int)
    ensures r == -1 || (start <= r && InfixAt(s, r, sub))
    decreases |s| - start
  {
    if start + |sub| > |s| then -1
    else if s[start..start + |sub|] == sub then start
    else Find(s, sub, start + 1)
  }

  lemma {:induction false} FindIsLeftmost(s: string, sub: string, start: nat)
    ensures Find(s, sub, start) != -1 ==> forall j :: start <= j < Find(s, sub, start) ==> !InfixAt(s, j, sub)
    ensures Find(s, sub, start) == -1 <==> forall j :: start <= j ==> !InfixAt(s, j, sub)
    decreases |s| - start
  {
    if start + |sub| <= |s| && s[start..start + |sub|] != sub {
      FindIsLeftmost(s, sub, start + 1);
    }
  }

  /** `s.find(c, start)` for a one-character string (`FindCharIsLeftmost`). */
  function FindChar(s: string, c: char, start: nat): (r: int)
    ensures r == -1 || (start <= r < |s| && s[r] == c)
    decreases |s| - start
  {
    if start >= |s| then -1
    else if s[start] == c then start
    else FindChar(s, c, start + 1)
  }

  lemma {:induction false} FindCharIsLeftmost(s: string, c: char, start: nat)
    ensures FindChar(s, c, start) != -1 ==> forall j :: start <= j < FindChar(s, c, start) ==> s[j] != c
    ensures FindChar(s, c, start) == -1 <==> forall j :: start <= j < |s| ==> s[j] != c
    decreases |s| - start
  {
    if start < |s| && s[start] != c {
      FindCharIsLeftmost(s, c, start + 1);
    }
  }

  /** The index of a first occurrence, from the characters before it. */
  lemma FirstChar(s: string, c: char, start: nat, k: nat)
    requires start <= k < |s| && s[k] == c
    requires forall j :: start <= j < k ==> s[j] != c
    ensures FindChar(s, c, start) == k
  {
    FindCharIsLeftmost(s, c, start);
  }

  /** A slice bound as Python normalises it: negative counts from the end,
      and both ends are clamped to the string. */
  function Clamp(k: int, n: nat): (r: nat)
    ensures r <= n
    ensures 0 <= k <= n ==> r == k
  {
    if k < 0 then (if k + n < 0 then 0 else k + n) else if k > n then n else k
  }

  /** `s[a:b]`. */
  function PySlice(s: string, a: int, b: int): (r: string)
    ensures 0 <= a <= b <= |s| ==> r == s[a..b]
    ensures 0 <= a && 0 <= b ==> |r| <= if b - a > 0 then b - a else 0
  {
    var x, y := Clamp(a, |s|), Clamp(b, |s|);
    if x < y then s[x..y] else []
  }

  /** How often `c` occurs in `s`. */
  function Count(s: string, c: char): nat
  {
    if s == [] then 0 else (if s[0] == c then 1 else 0) + Count(s[1..], c)
  }

  lemma {:induction false} CountAppend(a: string, b: string, c: char)
    ensures Count(a + b, c) == Count(a, c) + Count(b, c)
  {
    if a == [] {
      assert a + b == b;
    } else {
      assert (a + b)[0] == a[0];
      assert (a + b)[1..] == a[1..] + b;
      CountAppend(a[1..], b, c);
      assert Count(a + b, c) == (if a[0] == c then 1 else 0) + Count(a[1..] + b, c);
    }
  }

  /** Parentheses opened minus parentheses closed. */
  function Balance(s: string): int
  {
    Count(s, '(') - Count(s, ')')
  }

  lemma BalanceAppend(a: string, b: string)
    ensures Balance(a + b) == Balance(a) + Balance(b)
  {
    CountAppend(a, b, '(');
    CountAppend(a, b, ')');
  }

  // -------------------------------------------- flattenSubString, as written

  /** One turn of `flattenSubString`'s loop; `None` is the `break`. The
      index `i` is 0 at every `find`, since it starts at 0 and is reset to
      0 after each rewrite. */
  function SubStep(operation: string, sub: string): Option<string>
  {
    var l := |sub|;
    var i := Find(operation, sub, 0);
    if i != -1 && PySlice(operation, i + 15, i + 2 * l + 2) == sub then
      var closer := FindChar(operation, ')', i);
      Some(PySlice(operation, 0, i - 1) + PySlice(operation, i + l + 1, closer)
        + PySlice(operation, closer + 1, |operation|))
    else None
  }

  /** `flattenSubString` run for at most `fuel` turns: `Some` of the result
      when the loop breaks within them, `None` when it is still running. */
  function SubRun(operation: string, sub: string, fuel: nat): (r: Option<string>)
    ensures r.Some? ==> SubStep(r.value, sub) == None
    decreases fuel
  {
    if fuel == 0 then None
    else match SubStep(operation, sub)
      case None => Some(operation)
      case Some(next) => SubRun(next, sub, fuel - 1)
  }

  /** Without an occurrence of `sub`, or without `sub` again fifteen
      characters after the leftmost one, the string comes back unchanged. */
  lemma SubStepUnchanged(operation: string, sub: string)
    requires forall j :: 0 <= j ==> !InfixAt(operation, j, sub)
    ensures SubRun(operation, sub, 1) == Some(operation)
  {
  }

  /** The nested test compares `sub` with a slice of length `2 * len(sub)
      - 13` at most, which is `len(sub)` only for `string-append`'s 13: a
      shorter non-empty `sub` never gets a rewrite. */
  lemma SubStepNeedsLength13(operation: string, sub: string)
    requires 0 < |sub| < 13
    ensures SubStep(operation, sub) == None
  {
    var l := |sub|;
    var i := Find(operation, sub, 0);
    if i != -1 {
      var s := PySlice(operation, i + 15, i + 2 * l + 2);
      assert |s| < l;
    }
  }

  /** A rewrite of a leftmost occurrence that has a character before it and
      a `)` after it removes that character, `sub` with the character after
      it, and the `)`: `len(sub) + 3` characters. */
  lemma SubStepShrinks(operation: string, sub: string)
    requires SubStep(operation, sub).Some?
    requires Find(operation, sub, 0) >= 1
    requires FindChar(operation, ')', Find(operation, sub, 0)) > Find(operation, sub, 0) + |sub|
    ensures |SubStep(operation, sub).value| == |operation| - |sub| - 3
  {
  }

  /** `s[a:a+len(t)] == t`, from the characters. */
  lemma SliceIs(s: string, a: nat, t: string)
    requires a + |t| <= |s| && forall j :: 0 <= j < |t| ==> s[a + j] == t[j]
    ensures s[a..a + |t|] == t
  {
  }

  /** The text that keeps `flattenSubString` busy forever. */
  const Looping: string := "string-append (string-append a b)"

  lemma LoopingShape()
    ensures |Looping| == 33
    ensures Looping[..13] == "string-append" && Looping[15..28] == "string-append"
    ensures Looping[32] == ')' && forall j :: 0 <= j < 32 ==> Looping[j] != ')'
  {
    var s := "string-append (string-append a b)";
    assert s == Looping;
    var sa := "string-append";
    assert s == sa + " (" + sa + " a b)";
    assert forall j :: 0 <= j < 13 ==> sa[j] != ')';
    assert forall j :: 0 <= j < 13 ==> s[j] == sa[j] && s[j + 15] == sa[j];
  }

  /** A string that starts with `Looping` and is longer starts with it
      again after one turn, and is longer still. */
  lemma LoopingStep(operation: string) returns (next: string)
    requires StartsWith(operation, Looping) && |operation| > |Looping|
    ensures SubStep(operation, "string-append") == Some(next)
    ensures StartsWith(next, Looping) && |next| > |operation|
  {
    var sub := "string-append";
    var n := |operation|;
    LoopingShape();
    assert operation[..13] == Looping[..13];
    assert Find(operation, sub, 0) == 0;
    assert operation[15..28] == Looping[15..28];
    assert PySlice(operation, 15, 28) == sub;
    assert operation[32] == Looping[32];
    forall j | 0 <= j < 32
      ensures operation[j] != ')'
    {
      assert operation[j] == Looping[j];
    }
    FirstChar(operation, ')', 0, 32);
    next := SubStep(operation, sub).value;
    assert PySlice(operation, 0, -1) == operation[..n - 1];
    assert next == operation[..n - 1] + operation[14..32] + operation[33..];
    assert next[..|Looping|] == operation[..|Looping|];
  }

  /** Finding: a string that begins with `string-append` followed by a nested
      `(string-append` never leaves the loop. `i` is 0, so the slice
      `operation[:i-1]` is all but the last character, and the turn gives a
      longer string of the same shape (`LoopingStep`), for ever. */
  lemma SubStringNeverReturns() returns (next: string)
    ensures SubStep("string-append (string-append a b) c", "string-append") == Some(next)
    ensures StartsWith(next, Looping) && |next| > 35
  {
    var s := "string-append (string-append a b) c";
    assert s[..|Looping|] == Looping;
    next := LoopingStep(s);
  }

  /** Finding: the splice closes at the first `)` after the operator, which
      is the nested call's own `)` only when its first argument holds no
      parenthesis. `str(x) + "a" + "b"` loses the call's paren. */
  lemma SubStringFirstParen(operation: string)
    requires operation == "(" + "string-append" + " (" + "string-append" + " (str x" + ")" + " \"a\") \"b\")"
    ensures SubRun(operation, "string-append", 3) == Some("(" + "string-append" + " (str x" + " \"a\") \"b\")")
  {
    var t := "(" + "string-append" + " (str x" + " \"a\") \"b\")";
    FirstParenTurn(operation, t);
    FirstParenStops(t);
    TwoTurns(operation, t, "string-append");
  }

  /** The first turn of `SubStringFirstParen`: the rewrite closes at `(str x)`. */
  lemma FirstParenTurn(s: string, next: string)
    requires s == "(" + "string-append" + " (" + "string-append" + " (str x" + ")" + " \"a\") \"b\")"
    requires next == "(" + "string-append" + " (str x" + " \"a\") \"b\")"
    ensures SubStep(s, "string-append") == Some(next)
  {
    var sub := "string-append";
    FirstParenScan(s);
    assert s[15..36] == "(" + sub + " (str x";
    assert s[37..] == " \"a\") \"b\")";
    assert PySlice(s, 0, 0) + PySlice(s, 15, 36) + PySlice(s, 37, |s|) == next;
  }

  /** Where the first turn finds the operator, the nested one and the `)`. */
  lemma FirstParenScan(s: string)
    requires s == "(" + "string-append" + " (" + "string-append" + " (str x" + ")" + " \"a\") \"b\")"
    ensures Find(s, "string-append", 0) == 1
    ensures PySlice(s, 16, 29) == "string-append"
    ensures FindChar(s, ')', 1) == 36
  {
    var sub := "string-append";
    assert !InfixAt(s, 0, sub) by {
      assert s[0] != sub[0];
    }
    assert Find(s, sub, 0) == 1 by {
      assert s[1..14] == sub;
    }
    assert s[16..29] == sub;
    FirstParenCloser(s);
  }

  lemma FirstParenCloser(s: string)
    requires s == "(" + "string-append" + " (" + "string-append" + " (str x" + ")" + " \"a\") \"b\")"
    ensures FindChar(s, ')', 1) == 36
  {
    forall j | 1 <= j < 36
      ensures s[j] != ')'
    {
    }
    FirstChar(s, ')', 1, 36);
  }

  /** The second turn of `SubStringFirstParen`: the leftmost occurrence is
      no longer followed by a nested one, and the loop breaks. */
  lemma FirstParenStops(next: string)
    requires next == "(" + "string-append" + " (str x" + " \"a\") \"b\")"
    ensures SubStep(next, "string-append") == None
  {
    var sub := "string-append";
    assert !InfixAt(next, 0, sub) by {
      assert next[0] != sub[0];
    }
    assert Find(next, sub, 0) == 1 by {
      assert next[1..14] == sub;
    }
    assert next[16..29] != sub by {
      assert next[19] == ' ' != sub[3];
    }
  }

  /** A run that rewrites once and then breaks ends with the rewritten text. */
  lemma TwoTurns(s: string, t: string, sub: string)
    requires SubStep(s, sub) == Some(t) && SubStep(t, sub) == None
    ensures SubRun(s, sub, 3) == Some(t)
  {
  }

  // ------------------------------------------ flattenSubString, corrected

  /** The index of the `)` closing the `(` at `open`, skipping over string
      literals (with `\"` escapes inside them). */
  function MatchingClose(s: string, open: nat): (r: Option<nat>)
    requires open < |s| && s[open] == '('
    ensures r.Some? ==> open < r.value < |s| && s[r.value] == ')'
  {
    Scan(s, open + 1, 1, false)
  }

  function Scan(s: string, k: nat, depth: nat, inString: bool): (r: Option<nat>)
    requires depth >= 1
    ensures r.Some? ==> k <= r.value < |s| && s[r.value] == ')'
    decreases |s| - k
  {
    if k >= |s| then None
    else if inString then
      if s[k] == '\\' then (if k + 2 <= |s| then Scan(s, k + 2, depth, true) else None)
      else Scan(s, k + 1, depth, s[k] != '"')
    else if s[k] == '"' then Scan(s, k + 1, depth, true)
    else if s[k] == '(' then Scan(s, k + 1, depth + 1, false)
    else if s[k] == ')' then (if depth == 1 then Some(k) else Scan(s, k + 1, depth - 1, false))
    else Scan(s, k + 1, depth, false)
  }

  /** The leftmost occurrence of `sub`, at `i`, opens `(sub (sub …) …)`:
      a call whose first argument is a call of the same function. */
  predicate NestedAt(operation: string, sub: string, i: int)
  {
    1 <= i && i + 2 * |sub| + 2 <= |operation| && operation[i - 1] == '('
    && operation[i..i + |sub|] == sub && operation[i + |sub|] == ' '
    && operation[i + |sub| + 1] == '(' && operation[i + |sub| + 2..i + 2 * |sub| + 2] == sub
  }

  /** Drop `(sub ` in front of the nested call at `i` and the `)` at `c`. */
  function Cut(operation: string, sub: string, i: int, c: int): (r: string)
    requires 1 <= i && i + |sub| + 1 < c < |operation|
    ensures |r| == |operation| - |sub| - 3
  {
    operation[..i - 1] + operation[i + |sub| + 1..c] + operation[c + 1..]
  }

  /** One rewrite of the corrected loop. */
  function NextRewrite(operation: string, sub: string): (r: Option<string>)
    ensures r.Some? ==> |r.value| == |operation| - |sub| - 3
  {
    var i := Find(operation, sub, 0);
    if NestedAt(operation, sub, i) then
      match MatchingClose(operation, i + |sub| + 1)
      case None => None
      case Some(c) => Some(Cut(operation, sub, i, c))
    else None
  }

  /** What the corrected loop computes: rewrite until the leftmost
      occurrence is no longer a nested call. */
  function FlattenSpec(operation: string, sub: string): string
    decreases |operation|
  {
    match NextRewrite(operation, sub)
    case None => operation
    case Some(next) => FlattenSpec(next, sub)
  }

  /** `flattenSubString` with the evidently intended loop: the same
      leftmost-occurrence scan from 0 and the same break, but the rewrite
      needs `(sub (sub` and splices at the matching `)`, so every turn
      shortens the string. */
  method FlattenSubString(operation: string, sub: string) returns (r: string)
    ensures r == FlattenSpec(operation, sub)
  {
    r := operation;
    while true
      invariant FlattenSpec(r, sub) == FlattenSpec(operation, sub)
      decreases |r|
    {
      var next := RewriteOnce(r, sub);
      if next.None? {
        break;
      }
      r := next.value;
    }
  }

  /** One turn of the loop: find the leftmost occurrence and, when it is a
      nested call with a matching `)`, splice it out. */
  method RewriteOnce(operation: string, sub: string) returns (r: Option<string>)
    ensures r == NextRewrite(operation, sub)
  {
    var i := Find(operation, sub, 0);
    if !NestedAt(operation, sub, i) {
      return None;
    }
    var closer := MatchingClose(operation, i + |sub| + 1);
    if closer.None? {
      return None;
    }
    r := Some(Cut(operation, sub, i, closer.value));
  }

  /** The result admits no further rewrite. */
  lemma {:induction false} FlattenSpecIsFinal(operation: string, sub: string)
    ensures NextRewrite(FlattenSpec(operation, sub), sub).None?
    decreases |operation|
  {
    match NextRewrite(operation, sub)
    case None =>
    case Some(next) => FlattenSpecIsFinal(next, sub);
  }

  /** Flattening twice is flattening once. */
  lemma FlattenIdempotent(operation: string, sub: string)
    ensures FlattenSpec(FlattenSpec(operation, sub), sub) == FlattenSpec(operation, sub)
  {
    FlattenSpecIsFinal(operation, sub);
  }

  /** How many rewrites the loop makes. */
  function Rewrites(operation: string, sub: string): nat
    decreases |operation|
  {
    match NextRewrite(operation, sub)
    case None => 0
    case Some(next) => 1 + Rewrites(next, sub)
  }

  /** The string shrinks by `len(sub) + 3` per rewrite. */
  lemma {:induction false} FlattenShrinks(operation: string, sub: string)
    ensures |FlattenSpec(operation, sub)| == |operation| - Rewrites(operation, sub) * (|sub| + 3)
    decreases |operation|
  {
    match NextRewrite(operation, sub)
    case None =>
    case Some(next) =>
      FlattenShrinks(next, sub);
      assert Rewrites(operation, sub) == Rewrites(next, sub) + 1;
      assert FlattenSpec(operation, sub) == FlattenSpec(next, sub);
      ShrinkArithmetic(|operation|, |next|, |FlattenSpec(next, sub)|, Rewrites(next, sub), Rewrites(operation, sub), |sub| + 3);
  }

  lemma ShrinkArithmetic(n: int, m: int, f: int, k: int, r: int, w: int)
    requires m == n - w && f == m - k * w && r == k + 1
    ensures f == n - r * w
  {
  }

  /** Without a nested leftmost occurrence the string comes back unchanged. */
  lemma FlattenUnchanged(operation: string, sub: string)
    requires !NestedAt(operation, sub, Find(operation, sub, 0))
    ensures FlattenSpec(operation, sub) == operation
  {
  }

  lemma BalanceSplit(s: string, k: int)
    requires 0 <= k <= |s|
    ensures Balance(s) == Balance(s[..k]) + Balance(s[k..])
  {
    assert s == s[..k] + s[k..];
    BalanceAppend(s[..k], s[k..]);
  }

  /** Removing a `(` at `i - 1`, a stretch of text with no parentheses, and
      a `)` at `c` keeps the balance. */
  lemma CutBalanced(operation: string, sub: string, i: int, c: int)
    requires 1 <= i && i + |sub| + 1 < c < |operation|
    requires operation[i - 1] == '(' && operation[c] == ')'
    requires Balance(operation[i..i + |sub| + 1]) == 0
    ensures Balance(Cut(operation, sub, i, c)) == Balance(operation)
  {
    var l := |sub|;
    var a, b, f := operation[..i - 1], operation[i + l + 1..c], operation[c + 1..];
    BalanceAppend(a + b, f);
    BalanceAppend(a, b);
    var rest := operation[i - 1..];
    BalanceSplit(operation, i - 1);
    assert operation[..i - 1] == a;
    BalanceSplit(rest, 1);
    assert rest[..1] == ['('];
    var rest2 := rest[1..];
    assert rest2 == operation[i..];
    BalanceSplit(rest2, l + 1);
    assert rest2[..l + 1] == operation[i..i + l + 1];
    var rest3 := rest2[l + 1..];
    assert rest3 == operation[i + l + 1..];
    BalanceSplit(rest3, c - i - l - 1);
    assert rest3[..c - i - l - 1] == b;
    var rest4 := rest3[c - i - l - 1..];
    assert rest4 == operation[c..];
    BalanceSplit(rest4, 1);
    assert rest4[..1] == [')'];
    assert rest4[1..] == f;
  }

  /** A rewrite removes one `(` and one `)` (and `sub`, which is free of
      parentheses), so the balance of the string is kept. */
  lemma NextRewriteBalanced(operation: string, sub: string)
    requires Count(sub, '(') == 0 && Count(sub, ')') == 0
    requires NextRewrite(operation, sub).Some?
    ensures Balance(NextRewrite(operation, sub).value) == Balance(operation)
  {
    var l := |sub|;
    var i := Find(operation, sub, 0);
    var c := MatchingClose(operation, i + l + 1).value;
    assert operation[i..i + l + 1] == sub + [' '];
    BalanceAppend(sub, [' ']);
    CutBalanced(operation, sub, i, c);
  }

  lemma {:induction false} FlattenBalanced(operation: string, sub: string)
    requires Count(sub, '(') == 0 && Count(sub, ')') == 0
    ensures Balance(FlattenSpec(operation, sub)) == Balance(operation)
    decreases |operation|
  {
    match NextRewrite(operation, sub)
    case None =>
    case Some(next) =>
      NextRewriteBalanced(operation, sub);
      FlattenBalanced(next, sub);
  }

  /** Where the source's loop is right, the corrected one does the same:
      for `string-append`, when the first `)` after the occurrence is the
      matching one, the two rewrites agree. */
  lemma RewriteAgreesWithSource(operation: string, sub: string)
    requires |sub| == 13 && NextRewrite(operation, sub).Some?
    requires var i := Find(operation, sub, 0);
      MatchingClose(operation, i + 14) == Some(FindChar(operation, ')', i))
    ensures SubStep(operation, sub) == NextRewrite(operation, sub)
  {
    var i := Find(operation, sub, 0);
    var c := FindChar(operation, ')', i);
    assert NextRewrite(operation, sub) == Some(Cut(operation, sub, i, c));
    SourceTurnIsCut(operation, sub, i, c);
  }

  /** The source's turn at a nested occurrence is the cut at its first `)`. */
  lemma SourceTurnIsCut(operation: string, sub: string, i: int, c: int)
    requires |sub| == 13 && i == Find(operation, sub, 0) && NestedAt(operation, sub, i)
    requires c == FindChar(operation, ')', i) && i + 14 < c
    ensures SubStep(operation, sub) == Some(Cut(operation, sub, i, c))
  {
    assert PySlice(operation, i + 15, i + 28) == sub by {
      assert operation[i + 15..i + 28] == sub;
    }
    assert PySlice(operation, 0, i - 1) == operation[..i - 1];
    assert PySlice(operation, i + 14, c) == operation[i + 14..c];
    assert PySlice(operation, c + 1, |operation|) == operation[c + 1..];
  }

  // ------------------------------------------ flattenNumberBinOp, as written

  /** One turn of `flattenNumberBinOp`'s inner loop for operator `op`:
      `Ok(None)` is the `break`, `Err` the IndexError of `operation[i+3]`. */
  function NumberStep(operation: string, op: char): (r: Result<Option<string>>)
    ensures r.Err? ==> r.error == IndexError
    ensures (forall j :: 0 <= j < |operation| ==> operation[j] != op) ==> r == Ok(None)
    ensures r.Ok? && r.value.Some? ==>
      exists i :: 0 <= i < |operation| - 3 && operation[i] == op && operation[i + 3] == op
  {
    var i := FindChar(operation, op, 0);
    if i == -1 then Ok(None)
    else if i + 3 >= |operation| then Err(IndexError)
    else if operation[i + 3] != op then Ok(None)
    else
      var closer := FindChar(operation, ')', i);
      Ok(Some(PySlice(operation, 0, i - 1) + PySlice(operation, i + 2, closer)
        + PySlice(operation, closer + 1, |operation|)))
  }

  /** The inner loop for one operator, for at most `fuel` turns (running out
      is reported as `Unmodelled`). */
  function NumberLoop(operation: string, op: char, fuel: nat): (r: Result<string>)
    ensures r.Ok? ==> NumberStep(r.value, op) == Ok(None)
    ensures r.Err? ==> r.error in {IndexError, Unmodelled}
    decreases fuel
  {
    if fuel == 0 then Err(Unmodelled)
    else
      var step :- NumberStep(operation, op);
      match step
      case None => Ok(operation)
      case Some(next) => NumberLoop(next, op, fuel - 1)
  }

  /** `flattenNumberBinOp`: the loop for `+`, then `-`, `*` and `/`. */
  function FlattenNumberAsWritten(operation: string, fuel: nat): (r: Result<string>)
    ensures r.Err? ==> r.error in {IndexError, Unmodelled}
    ensures r.Ok? ==> NumberStep(r.value, '/') == Ok(None)
    ensures fuel >= 1 && (forall j :: 0 <= j < |operation| ==> operation[j] !in "+-*/") ==> r == Ok(operation)
  {
    var a :- NumberLoop(operation, '+', fuel);
    var b :- NumberLoop(a, '-', fuel);
    var c :- NumberLoop(b, '*', fuel);
    NumberLoop(c, '/', fuel)
  }

  /** A string without the operator passes the loop unchanged. */
  lemma NoOperator(s: string, op: char)
    requires forall j :: 0 <= j < |s| ==> s[j] != op
    ensures NumberLoop(s, op, 3) == Ok(s)
  {
  }

  /** `flattenSubString(operation, 'string-append')` for at most `fuel`
      turns (running out is reported as `Unmodelled`). */
  function FlattenSubStringAsWritten(operation: string, fuel: nat): (r: Result<string>)
    ensures r.Err? ==> r.error == Unmodelled
    ensures r.Ok? ==> SubStep(r.value, "string-append") == None
  {
    match SubRun(operation, "string-append", fuel)
    case Some(t) => Ok(t)
    case None => Err(Unmodelled)
  }

  /** A text holding the operator at most at index 1 (the application's own
      head) and not at index 4 passes the loop unchanged. */
  lemma NoNestedOperator(s: string, op: char, fuel: nat)
    requires fuel >= 1 && |s| >= 5
    requires forall j :: 0 <= j < |s| && j != 1 ==> s[j] != op
    ensures NumberLoop(s, op, fuel) == Ok(s)
  {
    if s[1] == op {
      FirstChar(s, op, 0, 1);
    } else {
      FindCharIsLeftmost(s, op, 0);
    }
    assert NumberStep(s, op) == Ok(None);
  }

  /** `flattenNumberBinOp` leaves the application `(op l r)` alone when
      neither operand holds an operator character. */
  lemma NumberKeepsPlain(op: char, l: string, r: string, fuel: nat)
    requires fuel >= 1 && op in "+-*/"
    requires forall j :: 0 <= j < |l| ==> l[j] !in "+-*/"
    requires forall j :: 0 <= j < |r| ==> r[j] !in "+-*/"
    ensures FlattenNumberAsWritten(Application([op], [l, r]), fuel) == Ok(Application([op], [l, r]))
  {
    var s := Application([op], [l, r]);
    assert [l, r][1..] == [r];
    assert Join([l, r], " ") == l + " " + r;
    assert s == "(" + [op] + " " + l + " " + r + ")";
    forall c, j | c in "+-*/" && 0 <= j < |s| && j != 1
      ensures s[j] != c
    {
      if 3 <= j < 3 + |l| {
        assert s[j] == l[j - 3];
      } else if 4 + |l| <= j < 4 + |l| + |r| {
        assert s[j] == r[j - 4 - |l|];
      }
    }
    NoNestedOperator(s, '+', fuel);
    NoNestedOperator(s, '-', fuel);
    NoNestedOperator(s, '*', fuel);
    NoNestedOperator(s, '/', fuel);
  }

  /** Whether `flattenSubString`'s test matches at an operand: the text
      after its first character starts with `string-append`. */
  predicate OpensSubApplication(operand: string)
  {
    |operand| >= 14 && operand[1..14] == "string-append"
  }

  /** `flattenSubString` leaves `(string-append l r)` alone when the left
      operand is not itself a `string-append` application. */
  lemma SubStringKeepsPlain(l: string, r: string, fuel: nat)
    requires fuel >= 1 && |l| >= 1
    requires !OpensSubApplication(l)
    ensures FlattenSubStringAsWritten(Application("string-append", [l, r]), fuel)
      == Ok(Application("string-append", [l, r]))
  {
    var sub := "string-append";
    var s := Application(sub, [l, r]);
    assert [l, r][1..] == [r];
    assert Join([l, r], " ") == l + " " + r;
    assert s == "(" + sub + " " + l + " " + r + ")";
    assert s[1..14] == sub;
    assert s[0..13] != sub by { assert s[0] == '(' != sub[0]; }
    assert Find(s, sub, 0) == 1;
    if |s| >= 29 {
      assert PySlice(s, 16, 29) == s[16..29];
      if |l| >= 14 {
        assert s[16..29] == l[1..14];
      } else {
        assert s[15 + |l|] == ' ';
        assert s[16..29][|l| - 1] == ' ' != sub[|l| - 1];
      }
    } else {
      assert |PySlice(s, 16, 29)| < 13;
    }
    assert SubStep(s, sub) == None;
  }

  /** An operand text holding no operator character and no parenthesis, such
      as a name or a non-negative literal. */
  predicate PlainOperand(x: string)
  {
    forall ch :: ch in x ==> ch !in "+-*/()"
  }

  /** `op` is the only operator character `s` holds. */
  predicate OnlyOperator(s: string, op: char)
  {
    forall ch :: ch in s ==> ch == op || ch !in "+-*/"
  }

  /** When the loop for `op` takes `s` to `t` and neither text holds any
      other operator character, the whole rewrite takes `s` to `t`. */
  lemma OnlyLoopFor(s: string, t: string, op: char, fuel: nat)
    requires fuel >= 1 && |s| >= 5 && |t| >= 5 && op in "+-*/"
    requires NumberLoop(s, op, fuel) == Ok(t)
    requires OnlyOperator(s, op) && OnlyOperator(t, op)
    ensures FlattenNumberAsWritten(s, fuel) == Ok(t)
  {
    forall c | c in "+-*/" && c != op
      ensures NumberLoop(s, c, fuel) == Ok(s) && NumberLoop(t, c, fuel) == Ok(t)
    {
      assert forall j :: 0 <= j < |s| ==> s[j] in s;
      assert forall j :: 0 <= j < |t| ==> t[j] in t;
      NoNestedOperator(s, c, fuel);
      NoNestedOperator(t, c, fuel);
    }
  }

  /** A text that opens an application of `op` whose first operand does not
      start with `op` stops the loop for `op` at once. */
  lemma HeadOnly(s: string, op: char)
    requires |s| >= 5 && s[0] == '(' && s[1] == op && s[4] != op && op != '('
    ensures NumberStep(s, op) == Ok(None)
  {
    FirstChar(s, op, 0, 1);
  }

  lemma ApplicationOfTwo(op: string, x: string, y: string)
    ensures Application(op, [x, y]) == "(" + op + " " + x + " " + y + ")"
  {
    assert [x, y][1..] == [y];
    assert Join([x, y], " ") == x + " " + y;
  }

  lemma ApplicationOfThree(op: string, x: string, y: string, z: string)
    ensures Application(op, [x, y, z]) == "(" + op + " " + x + " " + y + " " + z + ")"
  {
    assert [x, y, z][1..] == [y, z] && [y, z][1..] == [z];
    assert Join([y, z], " ") == y + " " + z;
    assert Join([x, y, z], " ") == x + " " + (y + " " + z);
  }

  /** A turn on `(op x)tail` where `x` opens an application of `op` and
      holds no `)`: the splice removes `(op ` and the `)` after `x`. */
  lemma SpliceAtClose(op: char, x: string, tail: string)
    requires op in "+-*/" && |x| >= 2 && x[0] == '(' && x[1] == op && ')' !in x
    ensures NumberStep("(" + [op] + " " + x + ")" + tail, op) == Ok(Some(x + tail))
  {
    var s := "(" + [op] + " " + x + ")" + tail;
    var k := 3 + |x|;
    assert s[..3] == "(" + [op] + " " && s[3..k] == x && s[k] == ')' && s[k + 1..] == tail;
    forall j | 1 <= j < k ensures s[j] != ')' {
      if j >= 3 {
        assert s[j] == x[j - 3];
      } else {
        assert s[j] == s[..3][j];
      }
    }
    FirstChar(s, ')', 1, k);
    FirstChar(s, op, 0, 1);
    assert s[4] == x[1];
    assert PySlice(s, 0, 0) == [];
    assert PySlice(s, 3, k) == x;
    assert PySlice(s, k + 1, |s|) == tail;
    assert FindChar(s, op, 0) == 1 && 4 < |s| && s[4] == op;
    assert [] + x + tail == x + tail;
  }

  /** A text `(op a…` whose first operand `a` holds no `op` and is followed
      by a space stops the loop for `op` at once. */
  lemma PlainHeadStops(op: char, a: string, rest: string)
    requires op in "+-*/" && |a| >= 1 && op !in a && |rest| >= 1 && rest[0] == ' '
    ensures NumberStep("(" + [op] + " " + a + rest, op) == Ok(None)
  {
    var s := "(" + [op] + " " + a + rest;
    assert s[..3] == "(" + [op] + " " && s[3..3 + |a|] == a && s[3 + |a|..] == rest;
    if |a| >= 2 {
      assert s[4] == a[1];
    } else {
      assert s[4] == rest[0];
    }
    assert s[0] == '(' && s[1] == op;
    HeadOnly(s, op);
  }

  /** One turn of the loop on `(op (op a b) c)`: the splice at the inner
      application's `)`. */
  lemma LeftNestedStep(op: char, a: string, b: string, c: string)
    requires op in "+-*/" && PlainOperand(a) && PlainOperand(b)
    ensures NumberStep(Application([op], [Application([op], [a, b]), c]), op)
      == Ok(Some(Application([op], [a, b, c])))
  {
    var inner := Application([op], [a, b]);
    ApplicationOfTwo([op], a, b);
    ApplicationOfTwo([op], inner, c);
    ApplicationOfThree([op], a, b, c);
    var x := "(" + [op] + " " + a + " " + b;
    var tail := " " + c + ")";
    assert inner == x + ")";
    assert Application([op], [inner, c]) == "(" + [op] + " " + x + ")" + tail;
    assert Application([op], [a, b, c]) == x + tail;
    assert ')' !in x by {
      assert ')' !in a && ')' !in b;
    }
    SpliceAtClose(op, x, tail);
  }

  /** `(op a b c)` over plain operands stops the loop for `op` at once. */
  lemma PlainApplicationStops(op: char, a: string, b: string, c: string)
    requires op in "+-*/" && |a| >= 1 && PlainOperand(a)
    ensures NumberStep(Application([op], [a, b, c]), op) == Ok(None)
  {
    ApplicationOfThree([op], a, b, c);
    assert op !in a;
    var rest := " " + b + " " + c + ")";
    assert Application([op], [a, b, c]) == "(" + [op] + " " + a + rest;
    PlainHeadStops(op, a, rest);
  }

  /** Both texts of the left-nested rewrite hold no other operator. */
  lemma LeftNestedOperators(op: char, a: string, b: string, c: string)
    requires op in "+-*/" && PlainOperand(a) && PlainOperand(b) && PlainOperand(c)
    ensures OnlyOperator(Application([op], [Application([op], [a, b]), c]), op)
    ensures OnlyOperator(Application([op], [a, b, c]), op)
    ensures |Application([op], [a, b, c])| >= 5
  {
    var inner := Application([op], [a, b]);
    ApplicationOfTwo([op], a, b);
    ApplicationOfTwo([op], inner, c);
    ApplicationOfThree([op], a, b, c);
    assert OnlyOperator(inner, op);
  }

  /** The rewrite `flattenNumberBinOp` is written for, over all plain
      operands: `(op (op a b) c)` becomes `(op a b c)`. */
  lemma NumberCollapsesLeftNesting(op: char, a: string, b: string, c: string, fuel: nat)
    requires fuel >= 2 && op in "+-*/" && |a| >= 1
    requires PlainOperand(a) && PlainOperand(b) && PlainOperand(c)
    ensures FlattenNumberAsWritten(Application([op], [Application([op], [a, b]), c]), fuel)
      == Ok(Application([op], [a, b, c]))
  {
    var s := Application([op], [Application([op], [a, b]), c]);
    var t := Application([op], [a, b, c]);
    LeftNestedStep(op, a, b, c);
    PlainApplicationStops(op, a, b, c);
    assert NumberLoop(t, op, fuel - 1) == Ok(t);
    assert NumberLoop(s, op, fuel) == Ok(t);
    LeftNestedOperators(op, a, b, c);
    OnlyLoopFor(s, t, op, fuel);
  }

  /** A right-nested `(op a (op b c))` is left alone: the rewrite only looks
      for the operator right after the first operand's `(`. */
  lemma NumberKeepsRightNesting(op: char, a: string, b: string, c: string, fuel: nat)
    requires fuel >= 1 && op in "+-*/" && |a| >= 1
    requires PlainOperand(a) && PlainOperand(b) && PlainOperand(c)
    ensures FlattenNumberAsWritten(Application([op], [a, Application([op], [b, c])]), fuel)
      == Ok(Application([op], [a, Application([op], [b, c])]))
  {
    var inner := Application([op], [b, c]);
    var s := Application([op], [a, inner]);
    ApplicationOfTwo([op], b, c);
    ApplicationOfTwo([op], a, inner);
    assert op !in a;
    var rest := " " + inner + ")";
    assert s == "(" + [op] + " " + a + rest;
    PlainHeadStops(op, a, rest);
    assert OnlyOperator(s, op) by {
      assert OnlyOperator(inner, op);
    }
    OnlyLoopFor(s, s, op, fuel);
  }

  /** Finding: `-x - y` is lowered to `(- (- x) y)`, which the rewrite takes
      for a left-nested subtraction and turns into `(- x y)`, i.e. `x - y`. */
  lemma NumberFlattensNegation()
    ensures FlattenNumberAsWritten("(- (- x) y)", 3) == Ok("(- x y)")
  {
    var neg := "(- x";
    var s := "(- " + neg + ") y)";
    assert s == "(- (- x) y)";
    forall j | 0 <= j < |s| ensures s[j] != '+' { }
    NoOperator(s, '+');
    assert FindChar(s, '-', 0) == 1;
    forall j | 1 <= j < 7 ensures s[j] != ')' { }
    FirstChar(s, ')', 1, 7);
    var t := neg + " y)";
    assert t == "(- x y)";
    assert s[3..7] == neg;
    assert s[8..] == " y)";
    assert PySlice(s, 0, 0) + PySlice(s, 3, 7) + PySlice(s, 8, |s|) == t;
    assert NumberStep(s, '-') == Ok(Some(t));
    assert FindChar(t, '-', 0) == 1;
    assert NumberStep(t, '-') == Ok(None);
    forall j | 0 <= j < |t| ensures t[j] != '*' && t[j] != '/' { }
    NoOperator(t, '*');
    NoOperator(t, '/');
  }

  /** Finding: `f(x) + 1 + 2` is lowered to `(+ (+ (f x) 1) 2)`; the
      splice closes at the call's `)` and passes `1` to `f`. */
  lemma NumberFirstParen()
    ensures FlattenNumberAsWritten("(+ (+ (f x) 1) 2)", 3) == Ok("(+ (f x 1) 2)")
  {
    var call := "(+ (f x";
    var s := "(+ " + call + ") 1) 2)";
    assert s == "(+ (+ (f x) 1) 2)";
    assert FindChar(s, '+', 0) == 1;
    forall j | 1 <= j < 10 ensures s[j] != ')' { }
    FirstChar(s, ')', 1, 10);
    var t := "(+ (f x 1) 2)";
    assert s[3..10] == call;
    assert PySlice(s, 0, 0) + PySlice(s, 3, 10) + PySlice(s, 11, |s|) == t;
    assert NumberStep(s, '+') == Ok(Some(t));
    assert FindChar(t, '+', 0) == 1;
    assert NumberStep(t, '+') == Ok(None);
    forall j | 0 <= j < |t| ensures t[j] != '-' && t[j] != '*' && t[j] != '/' { }
    NoOperator(t, '-');
    NoOperator(t, '*');
    NoOperator(t, '/');
  }

  /** Finding: `x + -1` is lowered to `(+ x -1)`; the `-` pass finds the
      literal's sign at index 5 and reads `operation[8]`, past the end. */
  lemma NumberNegativeLiteral()
    ensures FlattenNumberAsWritten("(+ x -1)", 3) == Err(IndexError)
  {
    var s := "(+ x -1)";
    assert FindChar(s, '+', 0) == 1;
    assert NumberStep(s, '+') == Ok(None);
    forall j | 0 <= j < 5 ensures s[j] != '-' { }
    assert FindChar(s, '-', 0) == 5;
    assert NumberStep(s, '-') == Err(IndexError);
  }

  // ------------------------------------------- the corrected operand splice

  /** `(op a1 … an)`. */
  function Application(op: string, operands: seq<string>): string
  {
    "(" + op + " " + Join(operands, " ") + ")"
  }

  /** The corrected flattening: append the right operand to the
      application the left operand already is, instead of re-scanning the
      text for parentheses. */
  function Splice(application: string, operand: string): string
    requires |application| >= 1
  {
    application[..|application| - 1] + " " + operand + ")"
  }

  lemma {:induction false} JoinSnoc(xs: seq<string>, t: string, sep: string)
    requires |xs| >= 1
    ensures Join(xs + [t], sep) == Join(xs, sep) + sep + t
  {
    if |xs| > 1 {
      assert (xs + [t])[1..] == xs[1..] + [t];
      JoinSnoc(xs[1..], t, sep);
    }
  }

  /** Splicing an operand into `(op a1 … an)` gives `(op a1 … an b)`,
      whatever the operands' own text holds. */
  lemma SpliceExtends(op: string, operands: seq<string>, operand: string)
    requires |operands| >= 1
    ensures Splice(Application(op, operands), operand) == Application(op, operands + [operand])
  {
    JoinSnoc(operands, operand, " ");
    var app := Application(op, operands);
    assert app[..|app| - 1] == "(" + op + " " + Join(operands, " ");
  }
}
