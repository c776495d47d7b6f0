# PySchemeTranspiler core, modelled in Dafny

PySchemeTranspiler compiles a typed subset of Python into Racket. Its engine
walks a Python syntax tree. Each node kind has a lowering rule in `_Builder`,
and each rule gives back the Racket text and the type of the node, or raises.
The rules share four things:

- a compile-time scope stack (`Builder.stateHistory`), with `TempState` as a
  scoped override of one key;
- a type lattice (`Typer`: compatibility, merging, restricted types);
- a truthiness rewrite for tests (`IfLiteralResolver`);
- a dictionary of build flags.

After lowering, `Converter.transpile` closes the flags under a requirement
table, prints one support snippet per flag in a fixed order, and wraps the
user code. The project also models two small token-level parsers from the
same repository: the constraint matcher in `tokParser.py` and the
function-signature recogniser `FuncConstruct`.

The model has these modules:

- `Wrappers`: `Result`/`Option` and string helpers (`str.join`, `str(n)`,
  `int(s)`).
- `Types`: `Typer.T` and its subclasses as one datatype. `PyEq` is Python's
  `==` on them: instances compare their attribute dictionaries, so `Null`,
  `TPending` and `TAny` are all equal. Also `Compatible`, `Merge`,
  `LegacyMerge` and `IsRestricted`.
- `Truthiness`: `IfLiteralResolver.resolve`.
- `Scope`: the class `Builder`, which holds the scope stack, the build flags
  and the warnings printed. `TempState` is modelled as `TempEnter`/`TempExit`
  plus the `Saved`/`Restore` functions.
- `Ast`: the Python 3.8 syntax tree the rules read, and its size measure.
- `Rules`: the pure parts of the rules, such as literal text, operator
  typing, index rewriting, argument checks, comparison operators, annotation
  reading and parameter defaults.
- `ExprLowering`, `StmtLowering`, `ControlLowering`: the rules themselves, as
  methods that change a `Builder`.
- `Flatten`: the string rewrites `flattenNumberBinOp` and `flattenSubString`.
- `ExtraCodes`: the flag table.
- `Converter`: `compileBuildFlags` and the snippet order.
- `Transpiler`: `transpile` on an already parsed module.
- `TokParser` and `TokParserFacts`: the constraint matcher.
- `Constructs`: `SpecialParseConstruct` and `FuncConstruct`.

Both builder snapshots share one engine. `Builder.legacy` selects the rules
of the older snapshot (`PySchemeTranspiler/builder.py`) wherever it differs
from the newer one (`pyschemetranspiler/builder.py`). The differences it
covers:

- the older snapshot needs an explicit `return`;
- its `mergeTypes` is simpler;
- it loops over lists only;
- it hoists definitions by text prefix;
- it has no tuples, `in`, `IfExp`, `AugAssign` or `Assert`;
- it escapes nothing in string literals;
- it handles `elif` differently.

Errors are `Err(kind)` values named after the Python exception the source
raises. A warning is an entry appended to `Builder.warnings`. The model
describes one compile with fresh state, in strict typing mode.

Where the code and its evident intent differ, the engine follows the code as
written, and the intended definition is modelled beside it (see
"## Findings"):

- A string literal escapes its quotes but not its backslashes
  (`Rules.StringLiteral`).
- A binary operation's text goes through the textual rewrites
  `flattenNumberBinOp` and `flattenSubString` (`Rules.BinOpTextAsWritten`).
  These can mangle the text, and `x + -1` raises IndexError. The intended
  operand splice is `Rules.BinOpText`.
- `not x` in a test, for a non-boolean x, takes `[0]` of x's resolved test
  (`Rules.NotTestAsWritten`). The intended negation is `Rules.NotTest`.
- A parameter default is checked with the annotation in the place of the
  value (`Rules.DefaultAcceptedAsWritten`). The intended check is
  `Rules.DefaultAccepted`.
- A `for` variable already in scope is checked with its own type in the
  place of the element's (`Rules.ForTargetAcceptedAsWritten`). The intended
  check is `Rules.ForTargetAccepted`.
- An `if` without an `else` does not record the implicit fall-through path
  in `__pathDidReturn__`. Only the branches written out are compared.
- In the older snapshot, a loop variable that is bound with an incompatible
  type ends the rule with an error that is not a TypeError.

## Model

| member | source | states |
|---|---|---|
| Types.PyEqIsCanonEq | pyschemetranspiler/builder.py:1760-1761 | `==` on types holds exactly when their canonical forms are equal; all field-less instances share one canonical form |
| Types.PyEqReflexive | pyschemetranspiler/builder.py:1760-1761 | every type equals itself under `==` |
| Types.PyEqSymmetric | pyschemetranspiler/builder.py:1760-1761 | `==` on types is symmetric |
| Types.PyEqTransitive | pyschemetranspiler/builder.py:1760-1761 | `==` on types is transitive |
| Types.CompatibleReflexive | pyschemetranspiler/builder.py:1880-1881 | every type is compatible with itself |
| Types.PyEqImpliesCompatible | pyschemetranspiler/builder.py:1880-1881 | types equal under `==` are compatible in both directions, so a pending type fits a pending type |
| Types.NumericWidening | pyschemetranspiler/builder.py:1941-1945 | int fits float, float does not fit int, bool and int do not fit each other |
| Types.NoneIsWildcard | pyschemetranspiler/builder.py:1890-1895 | the None literal is compatible with every type on either side |
| Types.ListCompatibility | pyschemetranspiler/builder.py:1921-1928 | two typed lists are compatible exactly when their element types are |
| Types.ListVersusScalar | pyschemetranspiler/builder.py:1921-1928 | a typed list and a scalar or container class never fit each other |
| Types.UnionRules | pyschemetranspiler/builder.py:1898-1907 | a union source fits only if every member fits; a union target accepts what fits one member |
| Types.PendingCompatibility | pyschemetranspiler/builder.py:1930-1939 | a pending type fits any non-list, non-union, non-optional target and never a typed list |
| Types.LegacyNoneTypeWarning | PySchemeTranspiler/builder.py:1528-1531 | None fits NoneType in both snapshots; only the older snapshot prints the unchecked-None warning for it |
| Types.MergeIdempotent | pyschemetranspiler/builder.py:1972-1973 | merging a type with itself gives it back, in both snapshots and modes |
| Types.MergeNumbers | pyschemetranspiler/builder.py:1975-1977 | int and float merge into float in either order, in both snapshots |
| Types.MergePendingLeft | pyschemetranspiler/builder.py:1979-1980 | a pending type on the left gives way to the right side |
| Types.MergePendingRight | pyschemetranspiler/builder.py:1982-1984 | a pending type on the right is absorbed only in equality mode; otherwise, and in the older snapshot, merging a scalar with it raises TypeError |
| Types.MergeLists | pyschemetranspiler/builder.py:1986-1988 | two different lists merge element-wise into a list with `native` reset |
| Types.MergeIsUpperBound | pyschemetranspiler/builder.py:1961-1995 | for literal and annotation types, both inputs are compatible with the merged type |
| Types.MergeSymmetric | pyschemetranspiler/builder.py:1961-1995 | in equality mode, merging succeeds for both orders or for neither, and the results are equal |
| Types.LegacyMergeAgrees | PySchemeTranspiler/builder.py:1599-1625 | whatever the older merge accepts, the newer merge agrees with it; the older merge rejects two different lists |
| Truthiness.ResolvedTestIsBoolean | pyschemetranspiler/builder.py:1998-2053 | a resolved test is boolean, except the tuple handler's bare string (typed Null); the test mentions the value unless it is None |
| Truthiness.ResolvableTypes | pyschemetranspiler/builder.py:2036-2053 | exactly bool, int, float, str, None and lists, and tuples in the newer snapshot, may stand as a condition; the rest raise TypeError |
| Scope.DefaultWidened | pyschemetranspiler/builder.py:1516-1526 | a new function scope holds exactly the default bookkeeping keys, each of its own kind |
| Scope.RootFrame | pyschemetranspiler/builder.py:1495-1532 | the root scope holds the builtins and the default bookkeeping |
| Scope.BuiltinsAreTypes | pyschemetranspiler/builder.py:1498-1515 | every builtin name is bound to a type and none is a bookkeeping key |
| Scope.RootFrameOk | pyschemetranspiler/builder.py:1495-1532 | the root scope is well formed |
| Scope.FramePut | pyschemetranspiler/builder.py:1624-1632 | binding a key to a value of its kind keeps a scope well formed |
| Scope.TempStateRoundTrip | pyschemetranspiler/builder.py:98-114 | entering and leaving a `TempState` gives back the scope it started from |
| Scope.TempStackRoundTrip | pyschemetranspiler/builder.py:98-114 | the same holds on the whole stack: outer scopes are untouched |
| Scope.TempStateRestoresKey | pyschemetranspiler/builder.py:108-114 | on exit the key has its old value if it had one and is absent otherwise; every other key keeps the value it has at exit |
| Scope.LookupNearest | pyschemetranspiler/builder.py:1543-1559 | a lookup succeeds exactly when some scope has the key, and returns the innermost one's entry |
| Scope.LookupKinded | pyschemetranspiler/builder.py:1543-1559 | in well-formed scopes the entry found has the kind its key requires |
| Scope.Builder.constructor | pyschemetranspiler/builder.py:1495-1532 | `initState`: one root scope, the initial flags (only NAME_IS_MAIN on), no warnings |
| Scope.Builder.GetStateKey | pyschemetranspiler/builder.py:1543-1559 | gives the innermost entry, or KeyError when no scope has the key |
| Scope.Builder.InState | pyschemetranspiler/builder.py:1576-1589 | true exactly when some scope has the key |
| Scope.Builder.GetStateKeyLocal | pyschemetranspiler/builder.py:1561-1574 | succeeds exactly when the current scope has the key |
| Scope.Builder.WidenState | pyschemetranspiler/builder.py:1603-1607 | pushes a scope with the default bookkeeping; nothing else changes |
| Scope.Builder.PopState | pyschemetranspiler/builder.py:1609-1622 | ValueError when only the root is left; otherwise removes and returns the current scope |
| Scope.Builder.SetStateKey | pyschemetranspiler/builder.py:1624-1632 | binds the key in the current scope only |
| Scope.Builder.SetStateKeyPropagate | pyschemetranspiler/builder.py:1634-1643 | binds the key in the current scope and the one below it; IndexError after the binding at the root |
| Scope.Builder.RemoveStateKeyLocal | pyschemetranspiler/builder.py:1654-1661 | deletes the key from the current scope, or KeyError when it is absent |
| Scope.Builder.TempEnter | pyschemetranspiler/builder.py:91-103 | remembers the key's local value, if any, and binds it in the current scope |
| Scope.Builder.TempExit | pyschemetranspiler/builder.py:108-114 | puts the remembered value back, or deletes the key |
| Scope.Builder.SetFlag | pyschemetranspiler/builder.py:594 | switches one build flag on and changes nothing else |
| Scope.Builder.Warn | pyschemetranspiler/builder.py:1891-1895 | appends one warning and changes nothing else |
| Scope.Builder.Check | pyschemetranspiler/builder.py:1869-1947 | the answer is `Compatible`, and one warning is printed per None accepted unchecked |
| Scope.Builder.WarnNone | pyschemetranspiler/builder.py:1891-1895 | appends the given number of unchecked-None warnings |
| ExtraCodes.TableIsTotal | pyschemetranspiler/extraCodes.py:49-65 | every flag is a key of the table and every required flag is a key too, so the lookup never fails |
| ExtraCodes.RequirementsAreLeaves | pyschemetranspiler/extraCodes.py:49-65 | a required flag requires nothing itself |
| Converter.ClosureIsClosed | pyschemetranspiler/converter.py:90-96 | the flag closure contains the requirements of each of its flags |
| Converter.ClosureIsLeast | pyschemetranspiler/converter.py:84-98 | the closure lies inside every closed set that contains the active flags |
| Converter.CompileBuildFlags | pyschemetranspiler/converter.py:83-98 | the result is the closure of the active flags: those flags and their requirements, nothing else |
| Converter.ActiveQueue | pyschemetranspiler/converter.py:85-88 | the initial queue holds exactly the flags whose value is true |
| Converter.PushRequirements | pyschemetranspiler/converter.py:94-96 | queues exactly the requirements not yet in the result |
| Converter.EmitIndex | pyschemetranspiler/converter.py:47-74 | every flag has a position in the fixed snippet order |
| Converter.RequirementsComeFirst | pyschemetranspiler/converter.py:47-74 | each snippet comes after the snippets it requires |
| Converter.EmitOrderIsOrdered | pyschemetranspiler/converter.py:47-74 | the fixed snippet order lists each flag once, in increasing position |
| Converter.EmittedMembers | pyschemetranspiler/converter.py:47-74 | the emitted snippets are exactly the flags of the set |
| Converter.EmittedOrdered | pyschemetranspiler/converter.py:47-74 | filtering by the set keeps the fixed order |
| Converter.PreambleOrder | pyschemetranspiler/converter.py:35-74 | for a closed set, each flag's snippet appears once, in order, after those of its requirements |
| Converter.EmitOrderIsTotal | pyschemetranspiler/converter.py:47-74 | every flag appears in the fixed order |
| Converter.RequiredBefore | pyschemetranspiler/converter.py:47-74 | in an ordered closed list a requirement appears before the flag needing it |
| Transpiler.StripLeft | pyschemetranspiler/converter.py:80 | removes exactly the leading whitespace |
| Transpiler.StripRight | pyschemetranspiler/converter.py:80 | removes exactly the trailing whitespace |
| Transpiler.StripIdempotent | pyschemetranspiler/converter.py:80 | stripping twice is stripping once |
| Transpiler.StripNothing | pyschemetranspiler/converter.py:80 | a text with non-space ends is its own strip |
| Transpiler.StripKeepsPrefix | pyschemetranspiler/converter.py:80 | stripping keeps a prefix that starts and ends with non-space characters |
| Transpiler.UserCodeAppend | pyschemetranspiler/converter.py:39-42 | the user code of two runs of pieces is the two codes joined |
| Transpiler.UserCodeEmpty | pyschemetranspiler/converter.py:39-42 | the user code is empty exactly when every piece is; otherwise it ends in a newline |
| Transpiler.WrapShape | pyschemetranspiler/converter.py:80 | the wrapped output starts with `#lang racket`; with `useMain` the user code sits between `(define (main)` and `(void))` followed by `(main)` |
| Transpiler.EmittedStep | pyschemetranspiler/converter.py:47-74 | one more checked flag appends its snippet exactly when it is in the set |
| Transpiler.SnippetLinesAppend | pyschemetranspiler/converter.py:47-74 | snippet lines of two lists are the two joined |
| Transpiler.WritePreamble | pyschemetranspiler/converter.py:35-74 | the loop writes `#lang racket` and then one line per emitted flag, in order |
| Transpiler.Transpile | pyschemetranspiler/converter.py:26-80 | the output is exactly the wrapped preamble of the closure of the flags the lowering left on (the fresh builder's and more) and the user code of one lowered piece per statement; it starts with `#lang racket`; an empty module gives only the NAME_IS_MAIN snippet |
| Transpiler.InitialNameIsMain | pyschemetranspiler/builder.py:1409-1424 | NAME_IS_MAIN is on from the start |
| Transpiler.InitialActive | pyschemetranspiler/converter.py:83-98 | with the initial flags only NAME_IS_MAIN is compiled |
| Transpiler.LowerModule | pyschemetranspiler/converter.py:39-42 | lowers the statements in order; the user code is that of one piece per statement, and the first error ends the run |
| Transpiler.Assemble | pyschemetranspiler/converter.py:45-80 | the text is the wrapped preamble of the flag closure and the user code |
| Transpiler.LeafClosure | pyschemetranspiler/extraCodes.py:51 | a flag that requires nothing is its own closure |
| Rules.EscapeRoundTrip | pyschemetranspiler/builder.py:200-202 | corrected escaping (Findings): a string with quotes and backslashes escaped reads back as itself |
| Rules.EscapingsAgree | pyschemetranspiler/builder.py:200-202 | without backslashes, quote-only escaping and full escaping agree |
| Rules.BackslashBreaksLiteral | pyschemetranspiler/builder.py:200-202 | quote-only escaping of a lone backslash does not read back; full escaping does |
| Rules.ConstantMeaning | pyschemetranspiler/builder.py:196-224 | strings, booleans, ints and None lower to their text and class, anything else raises ValueError; a string literal is quoted, and it reads back as the string when the string holds no backslash (only quotes are escaped) |
| Rules.BinOpTyping | pyschemetranspiler/builder.py:272-282 | numbers give int only when both are int, else float; two strings only with `+` (string-append); otherwise TypeError |
| Rules.BinOpTextAsWritten | pyschemetranspiler/builder.py:245-280 | the text `BinOp` returns as written; its only errors are running out of fuel and, for arithmetic, the IndexError of `flattenNumberBinOp` |
| Rules.BinOpRule | pyschemetranspiler/builder.py:272-282 | the rule on two lowered operands: the error of `BinOpKind`, else the flattened text or its error; int exactly for two ints, a string exactly for `+` on two strings, otherwise float |
| Rules.BinOpFlattens | pyschemetranspiler/builder.py:244-276 | corrected flattening (Findings): an operation whose left operand is the same operator's application gains one more operand, whatever the operands' text holds |
| Rules.BinOpPlainOperands | pyschemetranspiler/builder.py:245-280 | on operands that hold no operator character (arithmetic), or whose left operand is not a `string-append` application (strings), the text as written is the plain application `(op l r)` |
| Rules.UnaryTyping | pyschemetranspiler/builder.py:482-511 | `+`/`-` apply to numbers and `not` to booleans, keeping the operand's type; `~` on a number or boolean raises ValueError (no handler for `Invert`); any other operator and operand type give no result, which outside a test is a TypeError |
| Rules.NotTest | pyschemetranspiler/builder.py:502-506 | corrected `not` (Findings): succeeds exactly when x can be resolved, and negates the whole resolved test |
| Rules.NotOfTupleAsWritten | pyschemetranspiler/builder.py:505-506 | as written, `not` of a tuple in a test gives the unbalanced text `(not ()` |
| Rules.NotTestAsWritten | pyschemetranspiler/builder.py:502-506 | as written, `not x` in a test succeeds exactly when x resolves and is `(not p)` for a prefix p of the resolved test |
| Rules.NotTestsAgree | pyschemetranspiler/builder.py:502-506 | the written and the corrected `not` agree on every type but tuples |
| Rules.ListIndexMeaning | pyschemetranspiler/builder.py:1104-1121 | only an int index is accepted; a non-negative index is unchanged, a negative one counts from the end |
| Rules.TupleIndexTyping | pyschemetranspiler/builder.py:1128-1150 | a non-int index raises TypeError; a literal index in range types the element; an unknown one gives None |
| Rules.CompareTyping | pyschemetranspiler/builder.py:955-972 | `==`/`!=` take any types, `in?` needs a collection, ordering needs two numbers or two strings (`string<?`) |
| Rules.AppendArgsSnoc | pyschemetranspiler/builder.py:564-566 | appending one more argument extends the text built so far |
| Rules.AppendArgsJoins | pyschemetranspiler/builder.py:564-590 | the argument loop joins non-empty pieces with single spaces |
| Rules.AppendArgsFrom | pyschemetranspiler/builder.py:584-586 | appending to a non-empty text adds a space and the joined pieces |
| Rules.ArityMeaning | pyschemetranspiler/builder.py:540-550 | a call passes the arity check exactly when the positional count matches (at least, for varargs) and the keywords are no more than declared |
| Rules.FirstWord | pyschemetranspiler/builder.py:569-570 | `split(" ")[0]` is a prefix of the text |
| Rules.KeywordNameRoundTrip | pyschemetranspiler/builder.py:569-570 | the keyword name read back from `#:name value` is the name |
| Rules.FirstWordOf | pyschemetranspiler/builder.py:569-570 | the first word of a text with a space after it is that word |
| Rules.LenAccepts | pyschemetranspiler/builder.py:622-655 | `len` accepts strings and lists, and tuples in the newer snapshot; otherwise TypeError |
| Rules.ConverterAccepts | pyschemetranspiler/builder.py:742-811 | each converter accepts exactly its listed argument types, or Any with a warning |
| Rules.PathsAgree | pyschemetranspiler/builder.py:908-910 | recording the return behaviours of branches succeeds exactly when all agree |
| Rules.AddPathToNone | pyschemetranspiler/builder.py:908 | the first recorded behaviour is kept |
| Rules.AddPathToOne | pyschemetranspiler/builder.py:908-910 | a second behaviour is accepted only if it equals the first |
| Rules.ForIterTyping | pyschemetranspiler/builder.py:1199-1213 | a list (or, newer snapshot, tuple) is iterated, converted unless native; its element type is the loop variable's; other types raise TypeError |
| Rules.DefaultsAlignRight | pyschemetranspiler/builder.py:134-139 | defaults belong to the last parameters |
| Rules.DefaultCheckReversed | pyschemetranspiler/builder.py:144-149 | as written, `x: float = 0` is rejected and `x: int = 0.5` accepted |
| Rules.DefaultAcceptedAsWritten | pyschemetranspiler/builder.py:144-145 | the default check as written is the corrected check with the annotation and the default swapped; a default of the annotation's own type passes |
| Rules.KwLookupDistinct | pyschemetranspiler/builder.py:578-584 | with distinct parameter names, looking up a keyword parameter by its name finds its own type |
| Rules.DefaultAgreesWithCall | pyschemetranspiler/builder.py:578-584 | the corrected default check (Findings) accepts a default exactly when passing the same value by that keyword to the function would pass the call's keyword check; a default of the annotation's own type passes both checks |
| Rules.ForTargetCheckReversed | pyschemetranspiler/builder.py:1225-1229 | as written, an int loop over an existing float variable is rejected and a float loop over an int variable accepted |
| Rules.ForTargetAcceptedAsWritten | pyschemetranspiler/builder.py:1228 | the loop-variable check as written is the corrected check with the variable and the element swapped; an element of the variable's own type passes |
| Rules.ForTargetAgreesWithLists | pyschemetranspiler/builder.py:1225-1229 | the corrected loop-variable check (Findings) accepts exactly when a list of the elements could be assigned to a list of the variable's type; a variable of the elements' own type passes both checks |
| Rules.UnknownAnnotationRejects | pyschemetranspiler/builder.py:1673-1680 | a misspelt annotation accepts no concrete value |
| Rules.SimpleAnnotationIsPlain | pyschemetranspiler/builder.py:1694-1734 | scalar and `List[...]` annotations read the same in both snapshots and give plain types |
| Rules.ListVariableAnnotation | pyschemetranspiler/builder.py:1701-1708 | subscripting a list variable in an annotation names its element type |
| Rules.AssertMessageOfLiteral | pyschemetranspiler/builder.py:1319-1325 | a string message appears in the raised text without its quotes, with its quotes escaped as the literal wrote them |
| ExprLowering.Resolved | pyschemetranspiler/builder.py:2036-2053 | in a test a successful result has a test type; outside one the rule's own result is kept |
| ExprLowering.ConstantTypeAgrees | pyschemetranspiler/builder.py:1682-1685 | the class deduced from a literal is the class its lowering gives |
| ExprLowering.UniformListType | pyschemetranspiler/builder.py:1037-1049 | a list of elements of one type has that element type, an empty list a pending one |
| ExprLowering.ElementTypeSnoc | pyschemetranspiler/builder.py:1040-1044 | merging one more element's type into the running element type is the fold over one more element |
| ExprLowering.BranchType | pyschemetranspiler/builder.py:1307-1316 | the branches of a conditional merge in either order; two tests merge into a test |
| ExprLowering.LowerExpr | pyschemetranspiler/builder.py:1456-1494 | dispatches on the node kind; leaves follow their rules; unsupported nodes raise ValueError; flags only grow; in a test the type is a test type |
| ExprLowering.LowerAll | pyschemetranspiler/builder.py:555-557 | lowers the expressions in order, one result each |
| ExprLowering.LowerWith | pyschemetranspiler/builder.py:90-114 | lowers under a temporary binding; on success the scopes are as they were; flags only grow |
| ExprLowering.Fits | pyschemetranspiler/builder.py:1869-1947 | the answer is `Compatible`; only warnings are added |
| ExprLowering.MaybeResolve | pyschemetranspiler/builder.py:2036-2053 | applies the resolver exactly when `__resolveAsIf__` is set |
| ExprLowering.LowerConstant | pyschemetranspiler/builder.py:196-224 | the literal's text and class as `Constant` writes them (quotes escaped, backslashes not), resolved in a test |
| ExprLowering.LowerName | pyschemetranspiler/builder.py:301-308 | the name typed by its innermost binding, resolved in a test |
| ExprLowering.LowerBinOp | pyschemetranspiler/builder.py:244-282 | with both operands lowered (ghost `left`, `right`), the result is exactly `Rules.BinOpRule` of them: int exactly when both are ints, a string exactly for `+` on two strings, the text as written with its IndexError; under `__resolveAsIf__` the operands are booleans, so the rule fails |
| ExprLowering.BinOpRight | pyschemetranspiler/builder.py:272-282 | the same, once the left operand is lowered: the result is `Rules.BinOpRule` of the left and the lowered right operand (ghost `right`) |
| ExprLowering.LowerUnary | pyschemetranspiler/builder.py:482-511 | with the operand lowered outside the test (ghost `operand`): outside a test the result is `UnaryCore`'s and keeps the operand's type (`+`/`-` on numbers, `not` on booleans); in a test a test type, and for `not` of any other value the text `NotTestAsWritten` gives |
| ExprLowering.UnaryFinish | pyschemetranspiler/builder.py:488-511 | the same, once the operand is lowered |
| ExprLowering.LowerCall | pyschemetranspiler/builder.py:530-861 | a call of a bound function has that function's result type |
| ExprLowering.CallInner | pyschemetranspiler/builder.py:813-856 | special names go to their resolvers, other names to the normal call |
| ExprLowering.CallBuiltin | pyschemetranspiler/builder.py:815-828 | the same dispatch on the builtin table |
| ExprLowering.CallNormal | pyschemetranspiler/builder.py:534-590 | a normal call needs a function type and gives its result type |
| ExprLowering.CallArguments | pyschemetranspiler/builder.py:555-590 | lowering and checking the arguments keeps the scopes on success and only adds flags and warnings |
| ExprLowering.CheckArguments | pyschemetranspiler/builder.py:560-562 | succeeds exactly when every argument fits its parameter |
| ExprLowering.KeywordFits | pyschemetranspiler/builder.py:579-583 | a keyword argument must name a keyword parameter it fits |
| ExprLowering.AppendKeywords | pyschemetranspiler/builder.py:579-586 | succeeds exactly when every keyword fits, and appends their texts |
| ExprLowering.LowerKeywords | pyschemetranspiler/builder.py:574-578 | lowers every keyword argument, one result each, whose name reads back |
| ExprLowering.LowerKeyword | pyschemetranspiler/builder.py:864-866 | `#:name value`, whose name reads back |
| ExprLowering.CallPrint | pyschemetranspiler/builder.py:593-596 | switches PRINT on |
| ExprLowering.CallRange | pyschemetranspiler/builder.py:599-605 | accepts one to three int arguments |
| ExprLowering.CallInput | pyschemetranspiler/builder.py:608-619 | switches INPUT on; at most one string argument |
| ExprLowering.DeduceAllCompatible | pyschemetranspiler/builder.py:603-604 | deducing the arguments' types keeps the scopes on success and only adds flags and warnings |
| ExprLowering.CallLen | pyschemetranspiler/builder.py:622-655 | exactly one argument; the result is an int |
| ExprLowering.CallConvert | pyschemetranspiler/builder.py:742-811 | switches the converter's flag on; one argument; the converter's result type |
| ExprLowering.CallAttribute | pyschemetranspiler/builder.py:831-856 | only `append`, `pop`, `insert` on a name bound to a list; `pop` gives the element type, the others Null |
| ExprLowering.ListAppend | pyschemetranspiler/builder.py:664-672 | exactly one argument, else ValueError; typed Null |
| ExprLowering.ListPop | pyschemetranspiler/builder.py:674-692 | exactly one argument, else ValueError; the element type |
| ExprLowering.ListInsert | pyschemetranspiler/builder.py:694-717 | exactly two arguments, else ValueError; typed Null |
| ExprLowering.InsertValue | pyschemetranspiler/builder.py:711-717 | typed Null; the scopes are kept on success |
| ExprLowering.LowerCmpOp | pyschemetranspiler/builder.py:1006-1029 | the operator's symbol, switching on its snippet flag (EQUAL, NOT_EQUAL or IN) |
| ExprLowering.CompareOp | pyschemetranspiler/builder.py:955-972 | `determineOp`: succeeds exactly as `DetermineOp` and gives its symbol |
| ExprLowering.LowerCompare | pyschemetranspiler/builder.py:953-991 | a comparison chain is a bool and every operator is known |
| ExprLowering.CompareChain | pyschemetranspiler/builder.py:974-990 | every operator of the chain is known and each has a comparator |
| ExprLowering.CompareHead | pyschemetranspiler/builder.py:974-979 | the first link, whose operator is known |
| ExprLowering.CompareLink | pyschemetranspiler/builder.py:983-988 | one further link, whose operator is known |
| ExprLowering.CompareRight | pyschemetranspiler/builder.py:985-988 | lowering the link's right operand keeps the scopes on success and only adds flags and warnings |
| ExprLowering.LowerBoolOp | pyschemetranspiler/builder.py:994-1003 | `(and ...)` or `(or ...)`, a bool |
| ExprLowering.LowerList | pyschemetranspiler/builder.py:1032-1055 | switches GROWABLE_VECTOR on; outside a test the type is exactly `TList` of the left-to-right merge (`ElementType`) of the element types, in a test a test type; a clash in that merge makes the rule fail |
| ExprLowering.ListElements | pyschemetranspiler/builder.py:1036-1044 | one text per element; the element type is the left-to-right merge of the elements' types into the pending type; on a clash the lowered types end with the element that clashed, so no later element is lowered; the scopes are as they were on success |
| ExprLowering.LowerTuple | pyschemetranspiler/builder.py:1328-1349 | at least two elements; outside a test a tuple type with one entry per element, in a test a test type |
| ExprLowering.LowerIndex | pyschemetranspiler/builder.py:1172-1176 | only names, literals and arithmetic may index; else TypeError |
| ExprLowering.LowerSubscript | pyschemetranspiler/builder.py:1094-1169 | only an `Index` slice succeeds; in a test the type is a test type |
| ExprLowering.LowerIfExp | pyschemetranspiler/builder.py:1307-1316 | in a test the type is a test type; the scopes are kept on success |
| ExprLowering.DeduceType | pyschemetranspiler/builder.py:1673-1752 | `deduceTypeFromNode`: literals give their class, names their binding, subscripts their annotation; other nodes raise TypeError |
| StmtLowering.ReturnValue | pyschemetranspiler/builder.py:236-240 | records `__didReturn__` once the value fits the declared return type |
| StmtLowering.LowerReturn | pyschemetranspiler/builder.py:227-241 | the older snapshot rejects a bare `return` and the newer one a `return` inside a loop (ValueError); on success `__didReturn__` is set in the current scope and nothing else changes |
| StmtLowering.MergeNone | pyschemetranspiler/builder.py:1990-1991 | None merged with a type gives the type, in both snapshots |
| StmtLowering.Rebind | pyschemetranspiler/builder.py:456-461 | a name bound to None takes the merged type of its first value |
| StmtLowering.NameAssign | pyschemetranspiler/builder.py:446-478 | bookkeeping names are refused; an existing name is set if the value fits, a new one defined unless its type is restricted |
| StmtLowering.AssignExisting | pyschemetranspiler/builder.py:447-461 | succeeds exactly when the value fits the bound type; `(set! id value)` |
| StmtLowering.AssignNew | pyschemetranspiler/builder.py:467-478 | succeeds exactly when the type is not restricted; a define |
| StmtLowering.SubscriptAssign | pyschemetranspiler/builder.py:405-445 | only an `Index` target; a `safe-gvector-set!` |
| StmtLowering.RenameBase | pyschemetranspiler/builder.py:322-341 | renaming a subscript's base keeps its shape |
| StmtLowering.CaptureNotReserved | pyschemetranspiler/builder.py:356-371 | an alias is never a bookkeeping key |
| StmtLowering.SingleAssign | pyschemetranspiler/builder.py:311-319 | on success only the current scope changes, and its bookkeeping entries are kept |
| StmtLowering.AssignLowered | pyschemetranspiler/builder.py:405-478 | the same, once the value is lowered |
| StmtLowering.CaptureOne | pyschemetranspiler/builder.py:358-371 | on success the alias of a variable the multi-assignment overwrites is bound; no binding is lost |
| StmtLowering.CaptureBind | pyschemetranspiler/builder.py:362-371 | binds the alias unless it is bound already |
| StmtLowering.CaptureTargets | pyschemetranspiler/builder.py:356-371 | every target is a name or a subscript, else error |
| StmtLowering.ReleaseCaptures | pyschemetranspiler/builder.py:387-389 | every alias is dropped again |
| StmtLowering.TupleAssign | pyschemetranspiler/builder.py:321-404 | the value must be a tuple or list literal and every target a name or a subscript, else error; bookkeeping kept |
| StmtLowering.TupleTarget | pyschemetranspiler/builder.py:321-404 | a tuple target replaces the text |
| StmtLowering.SubscriptTarget | pyschemetranspiler/builder.py:405-445 | a subscript target ends the text |
| StmtLowering.NameTarget | pyschemetranspiler/builder.py:446-478 | a name target appends to the text |
| StmtLowering.AssignTarget | pyschemetranspiler/builder.py:319-478 | dispatches on the target kind |
| StmtLowering.LowerAssign | pyschemetranspiler/builder.py:311-480 | keeps the bookkeeping and outer scopes; binds every name target |
| StmtLowering.AssignTargets | pyschemetranspiler/builder.py:319-479 | the targets left to right |
| StmtLowering.HoistedAnnAsWritten | PySchemeTranspiler/builder.py:899-906 | the older snapshot binds a hoisted annotated name to its type, so re-emitting it raises TypeError |
| StmtLowering.HoistedAnnBinds | pyschemetranspiler/builder.py:1069-1088 | the newer snapshot binds it to a pending type, which the re-emitted assignment replaces |
| StmtLowering.LowerAnnAssign | pyschemetranspiler/builder.py:1058-1092 | a non-name target raises AttributeError and a missing value ValueError; on success the value fits the annotation and the text sets or defines the name |
| StmtLowering.AnnBind | pyschemetranspiler/builder.py:1059-1068 | the value fits the annotation |
| StmtLowering.AnnStore | pyschemetranspiler/builder.py:1069-1091 | set when the name is bound, define otherwise |
| StmtLowering.TextKinds | PySchemeTranspiler/builder.py:715 | a define is recognised as one, a set is not |
| StmtLowering.AnnAssignment | pyschemetranspiler/builder.py:1058-1092 | the name ends up bound; the older snapshot refuses to annotate a name already bound |
| StmtLowering.AnnTextVoid | pyschemetranspiler/builder.py:1084-1088 | a skipped define is `(define id void)` |
| StmtLowering.LowerAssignment | pyschemetranspiler/builder.py:311-480 | both kinds of assignment |
| StmtLowering.SkipPass | pyschemetranspiler/builder.py:872-874 | the assignment lowered with the value skipped |
| StmtLowering.HandleAssign | pyschemetranspiler/builder.py:872-883 | a define is hoisted and re-emitted as a set; the older snapshot rejects an annotated assignment here |
| StmtLowering.Hoist | pyschemetranspiler/builder.py:875-880 | appends the definition to `__definitions__` |
| StmtLowering.AcquireClaim | pyschemetranspiler/builder.py:919-923 | takes the root claim when it is free |
| StmtLowering.ReleaseClaim | pyschemetranspiler/builder.py:945-948 | gives back the claim and takes the hoisted definitions |
| ControlLowering.LowerStmt | pyschemetranspiler/builder.py:1439-1494 | a statement's rule; its only lasting scope effect is recording a return when the statement returns; unsupported statements raise ValueError |
| ControlLowering.SimpleStmt | pyschemetranspiler/builder.py:1300-1363 | the older snapshot rejects `AugAssign` and `Assert` |
| ControlLowering.LowerAssert | pyschemetranspiler/builder.py:1319-1325 | `(unless test (raise "..." #t))`, with a message exactly when one is given |
| ControlLowering.BodyStmt | pyschemetranspiler/builder.py:889-906 | one branch statement and its return behaviour |
| ControlLowering.LowerBody | pyschemetranspiler/builder.py:884-912 | an empty body is empty text; a tracked body has nothing after its `return` and returns exactly when it ends in one |
| ControlLowering.BranchBody | pyschemetranspiler/builder.py:884-907 | the same for a branch, keeping `__innerBody__` |
| ControlLowering.RecordPath | pyschemetranspiler/builder.py:908-910 | succeeds exactly when the branch agrees with the recorded behaviours |
| ControlLowering.LowerBranch | pyschemetranspiler/builder.py:884-912 | a branch, its text and return behaviour |
| ControlLowering.LowerIf | pyschemetranspiler/builder.py:869-951 | an empty body raises IndentationError; the `if` returns as its branches say, and the branches must agree; a root `if` places the hoisted definitions first and clears them |
| ControlLowering.IfScoped | pyschemetranspiler/builder.py:871 | the newer `if` under a fresh `__pathDidReturn__` |
| ControlLowering.IfCore | pyschemetranspiler/builder.py:917-950 | the `if` once the path set is fresh |
| ControlLowering.ClaimedIf | pyschemetranspiler/builder.py:919-950 | the `if` with the claim held; a root gives it back |
| ControlLowering.IfPaths | pyschemetranspiler/builder.py:924-939 | the body and the `else` paths |
| ControlLowering.FirstPath | pyschemetranspiler/builder.py:924-930 | the first path |
| ControlLowering.IfElse | pyschemetranspiler/builder.py:932-937 | no `else` gives no path; otherwise one |
| ControlLowering.ElseKeepsAll | pyschemetranspiler/builder.py:932-937 | in the newer snapshot every `else` statement is lowered |
| ControlLowering.ElseReturnsLowered | PySchemeTranspiler/builder.py:749-763 | an `else`'s return behaviour is that of the statements lowered |
| ControlLowering.ElifDropsAsWritten | PySchemeTranspiler/builder.py:749-763 | the older snapshot drops the statements after an `elif`, including a `return` |
| ControlLowering.IfReturns | pyschemetranspiler/builder.py:908-942 | an `if` returns when its body or its lowered `else` does |
| ControlLowering.IfFinish | pyschemetranspiler/builder.py:940-950 | the text: paths, `cond`, hoisted definitions first at the root |
| ControlLowering.DefineTarget | pyschemetranspiler/builder.py:1232-1237 | a fresh loop variable is bound and its define hoisted |
| ControlLowering.ForTarget | pyschemetranspiler/builder.py:1215-1237 | an existing local loop variable is checked as written, the variable's type in the place of the element's (`ForTargetAcceptedAsWritten`); a name bound only further out raises KeyError; a fresh one is defined and hoisted |
| ControlLowering.TupleTarget | pyschemetranspiler/builder.py:1250-1255 | each element of a tuple target must be a name |
| ControlLowering.ForTargets | pyschemetranspiler/builder.py:1243-1255 | all names, one each |
| ControlLowering.ForHead | pyschemetranspiler/builder.py:1239-1263 | the loop head; the claim is untouched |
| ControlLowering.TupleHead | pyschemetranspiler/builder.py:1243-1263 | a tuple target needs an iterable element type |
| ControlLowering.ForBody | pyschemetranspiler/builder.py:1272-1283 | the body, and whether it returns |
| ControlLowering.ForLoop | pyschemetranspiler/builder.py:1265-1297 | an `else` raises; inside a claimed statement the loop's text is hoisted and the text left is empty |
| ControlLowering.ForIterable | pyschemetranspiler/builder.py:1199-1213 | the iterable as `ForIter` checks it |
| ControlLowering.LowerFor | pyschemetranspiler/builder.py:1184-1298 | an `else` is rejected; the target is a name, or a tuple in the newer snapshot; a root loop clears the hoisted definitions |
| ControlLowering.FirstDefault | pyschemetranspiler/builder.py:134-139 | parameters from this index on have defaults |
| ControlLowering.LowerParam | pyschemetranspiler/builder.py:136-158 | an annotation is required; a default is checked as written, the annotation in the place of the value (`DefaultAcceptedAsWritten`), and gives the text `#:x [x v]` |
| ControlLowering.LowerParams | pyschemetranspiler/builder.py:134-164 | every parameter as `LowerParam` lowers it; defaults belong to the last parameters |
| ControlLowering.BindAll | pyschemetranspiler/builder.py:170-171 | the parameters bound in order; a bookkeeping name is refused |
| ControlLowering.FunctionBody | pyschemetranspiler/builder.py:174-181 | the older snapshot needs a `return` in the body; the newer one allows no statement after a `return` and warns on an implicit `return None` |
| ControlLowering.ImplicitReturnStmt | pyschemetranspiler/builder.py:182-190 | the implicit `return None` warns exactly when the declared type is not None |
| ControlLowering.DefSignature | pyschemetranspiler/builder.py:134-168 | the function's type from its parameters |
| ControlLowering.DefScope | pyschemetranspiler/builder.py:124-192 | the function's scope |
| ControlLowering.LowerFunctionDef | pyschemetranspiler/builder.py:123-193 | binds the function's type; no statement but the last returns; the text is `(define (name args) body)` |
| ControlLowering.OpenDef | pyschemetranspiler/builder.py:124-168 | opens a default scope and lowers the signature there |
| ControlLowering.DefBody | pyschemetranspiler/builder.py:174-193 | the body and its implicit return |
| Flatten.Find | flattenStringAppend.py:5 | `find`: -1 or an occurrence at or after `start` |
| Flatten.FindIsLeftmost | flattenStringAppend.py:5 | the occurrence found is the leftmost; -1 exactly when there is none |
| Flatten.FindChar | flattenStringAppend.py:7 | `find` of one character |
| Flatten.FindCharIsLeftmost | flattenStringAppend.py:7 | the leftmost occurrence, or -1 when there is none |
| Flatten.PySlice | flattenStringAppend.py:6-8 | Python slicing, clamped |
| Flatten.SubStepUnchanged | flattenStringAppend.py:4-12 | without `sub` the input comes back unchanged |
| Flatten.SubStepNeedsLength13 | flattenStringAppend.py:6 | the nested test fires only when `sub` is 13 characters long |
| Flatten.SubStepShrinks | flattenStringAppend.py:7-8 | one rewrite shortens the text by `len(sub) + 3` |
| Flatten.LoopingStep | flattenStringAppend.py:4-12 | on a text starting with `sub`, one turn gives a longer text of the same shape, so the loop never ends |
| Flatten.SubStringNeverReturns | flattenStringAppend.py:4-12 | the input that shows it |
| Flatten.SubStringFirstParen | pyschemetranspiler/builder.py:259-270 | as written, the nested call is cut at the first `)`, which belongs to an inner call |
| Flatten.MatchingClose | flattenStringAppend.py:7 | the matching `)` of an opening parenthesis |
| Flatten.NextRewrite | flattenStringAppend.py:6-8 | one corrected rewrite shortens the text by `len(sub) + 3` |
| Flatten.FlattenSubString | flattenStringAppend.py:1-12 | the corrected loop computes `FlattenSpec` |
| Flatten.RewriteOnce | flattenStringAppend.py:5-8 | one turn of the corrected loop |
| Flatten.FlattenSpecIsFinal | flattenStringAppend.py:4-12 | the result admits no further rewrite |
| Flatten.FlattenIdempotent | flattenStringAppend.py:4-12 | flattening twice is flattening once |
| Flatten.FlattenShrinks | flattenStringAppend.py:7-8 | the text shrinks by `len(sub) + 3` per rewrite |
| Flatten.FlattenUnchanged | flattenStringAppend.py:6 | without a nested leftmost occurrence the text comes back unchanged |
| Flatten.NextRewriteBalanced | flattenStringAppend.py:7-8 | one rewrite keeps the parenthesis balance |
| Flatten.CutBalanced | flattenStringAppend.py:7-8 | removing `(sub ` and the matching `)` keeps the parenthesis balance |
| Flatten.FlattenBalanced | flattenStringAppend.py:4-12 | flattening keeps the parenthesis balance |
| Flatten.RewriteAgreesWithSource | flattenStringAppend.py:6-8 | where the nested call holds no parenthesis, the corrected rewrite is the written one |
| Flatten.SourceTurnIsCut | flattenStringAppend.py:7-8 | the written turn cuts at the first `)` after the occurrence |
| Flatten.NoOperator | pyschemetranspiler/builder.py:245-258 | a text without the operator passes unchanged |
| Flatten.NumberStep | pyschemetranspiler/builder.py:250-254 | one turn of `flattenNumberBinOp`'s loop: its only error is IndexError; a text without the operator breaks the loop; a rewrite happens only where the operator occurs twice, three characters apart |
| Flatten.NumberLoop | pyschemetranspiler/builder.py:248-256 | the loop for one operator ends on a text no turn rewrites; its errors are IndexError and running out of fuel |
| Flatten.FlattenNumberAsWritten | pyschemetranspiler/builder.py:245-258 | `flattenNumberBinOp` as written: errors are IndexError and running out of fuel; a text without operator characters comes back unchanged; no `/` turn applies to the result |
| Flatten.FlattenSubStringAsWritten | pyschemetranspiler/builder.py:259-270 | `flattenSubString` as written: its only error is running out of fuel, and no turn applies to the result |
| Flatten.SubRun | flattenStringAppend.py:4-12 | the written loop for at most `fuel` turns; a result is a text no turn rewrites |
| Flatten.OnlyLoopFor | pyschemetranspiler/builder.py:245-258 | when only one operator occurs, the whole rewrite is that operator's loop |
| Flatten.LeftNestedStep | pyschemetranspiler/builder.py:250-254 | on `(op (op a b) c)` with plain operands, one turn gives `(op a b c)` |
| Flatten.NumberCollapsesLeftNesting | pyschemetranspiler/builder.py:245-258 | for all plain operands (no operator character, no parenthesis), `(op (op a b) c)` becomes `(op a b c)` |
| Flatten.NumberKeepsRightNesting | pyschemetranspiler/builder.py:245-258 | for all plain operands, a right-nested `(op a (op b c))` is left unchanged |
| Flatten.NumberFlattensNegation | pyschemetranspiler/builder.py:245-258 | as written, `(- (- x) y)` becomes `(- x y)` |
| Flatten.NumberFirstParen | pyschemetranspiler/builder.py:245-258 | as written, `(+ (+ (f x) 1) 2)` becomes `(+ (f x 1) 2)` |
| Flatten.NumberNegativeLiteral | pyschemetranspiler/builder.py:250 | as written, `(+ x -1)` raises IndexError |
| Flatten.NoNestedOperator | pyschemetranspiler/builder.py:246-256 | a text holding the operator only at the application's head passes the loop for that operator unchanged |
| Flatten.NumberKeepsPlain | pyschemetranspiler/builder.py:245-258 | `flattenNumberBinOp` leaves `(op l r)` unchanged when neither operand holds an operator character |
| Flatten.SubStringKeepsPlain | pyschemetranspiler/builder.py:259-270 | `flattenSubString` leaves `(string-append l r)` unchanged when the left operand is not a `string-append` application |
| Flatten.SpliceExtends | pyschemetranspiler/builder.py:245-258 | corrected flattening (Findings): splicing an operand into an application appends it |
| TokParser.MakeShape | tokParser.py:9-41 | the constructor refuses more than one uses mode with ValueError and otherwise keeps its arguments |
| TokParser.Interpret | tokParser.py:207-240 | uses 0 gives infinite, positive gives required, negative gives optional with the absolute count; a group gives MULTI |
| TokParser.InterpretAll | tokParser.py:207-240 | every rule is interpreted |
| TokParser.AddToStorage | tokParser.py:198-204 | appends the value under the storage key, creating the list; no key leaves the dict unchanged |
| TokParser.RequiredStep | tokParser.py:75-83 | a required constraint consumes a matching token while uses remain; a mismatch is a hard failure; at 0 it moves on |
| TokParser.OptionalStep | tokParser.py:91-101 | an optional constraint never counts past its uses; a mismatch after a partial match is a hard failure |
| TokParser.MovesOnSatisfied | tokParser.py:49-101 | a constraint hands over only when it is satisfied |
| TokParser.Constraint.constructor | tokParser.py:9-41 | the state at construction is the initial one, and it is the backup |
| TokParser.Constraint.Reset | tokParser.py:43-47 | restores the state at construction |
| TokParser.Constraint.CheckToken | tokParser.py:62-101 | the answer and the new state are those of `Step` |
| TokParser.CheckRest | tokParser.py:270-281 | succeeds exactly when every remaining constraint is satisfied from the start; SyntaxError otherwise |
| TokParser.MakeConstraints | tokParser.py:243-246 | one fresh constraint per rule |
| TokParser.ParseToDict | tokParser.py:242-282 | the loop computes the corrected parse `ParseChecked` |
| TokParser.Turn | tokParser.py:252-268 | one token against the current constraint |
| TokParser.CheckRemaining | tokParser.py:270-281 | checks the constraints not reached |
| TokParser.RunUnfold | tokParser.py:252-268 | one turn of the parse |
| TokParserFacts.RunRequiredCount | tokParser.py:75-83 | a required entry accepts a run of its tokens exactly up to its count |
| TokParserFacts.ParseOneRequired | tokParser.py:242-282 | as written a short run is accepted; checked, exactly the count is |
| TokParserFacts.UncheckedLastConstraint | tokParser.py:270-282 | as written, one NAME against an entry requiring two is accepted; checked it is refused |
| TokParserFacts.RunStoresDeclared | tokParser.py:198-204 | only the declared storage keys appear in the result |
| TokParserFacts.RunLockstep | tokParser.py:252-268 | entries of one token each store every token |
| TokParserFacts.ParseLockstep | tokParser.py:242-282 | on such entries both parses agree and store every token |
| TokParserFacts.SignatureExample | main.py:16-26 | `def print():` against the example grammar stores the name only |
| Constructs.SpecialParseConstruct.constructor | PySchTranspiler/parser/constructs.py:11-13 | the type is kept and the content is empty |
| Constructs.SpecialParseConstruct.AddContent | PySchTranspiler/parser/constructs.py:15-16 | exactly one item more, at the end |
| Constructs.TokenList.constructor | PySchTranspiler/parser/constructs.py:20 | the token list holds exactly the given tokens |
| Constructs.FuncConstruct.constructor | PySchTranspiler/parser/constructs.py:20-24 | a FUNC construct with no name and no arguments |
| Constructs.Scan | PySchTranspiler/parser/constructs.py:27-56 | a rejection names a token of the input |
| Constructs.NewFuncConstruct | PySchTranspiler/parser/constructs.py:20-56 | succeeds exactly when the scan accepts; then name and arguments are the scan's and the list is empty; otherwise SyntaxError and the tokens after the rejected one remain |
| Constructs.ScanSnoc | PySchTranspiler/parser/constructs.py:28-29 | reading one more token is one step |
| Constructs.ScanRejectsAt | PySchTranspiler/parser/constructs.py:28-56 | the first token without a step is the one rejected |
| Constructs.PrefixAccepted | PySchTranspiler/parser/constructs.py:28-29 | a signature cut short raises no error |
| Constructs.ClosedOnlyColons | PySchTranspiler/parser/constructs.py:55-56 | after `)` only colons are accepted |
| Constructs.ReadParams | PySchTranspiler/parser/constructs.py:40-54 | names separated by commas, a trailing comma allowed, are read in order |
| Constructs.ReadAfterParam | PySchTranspiler/parser/constructs.py:47-54 | the same after a parameter |
| Constructs.WellFormedAccepted | PySchTranspiler/parser/constructs.py:27-56 | every well-formed signature is accepted with its name and parameters |
| Constructs.ParamsOfAccepted | PySchTranspiler/parser/constructs.py:40-56 | an accepted parameter list has the well-formed shape |
| Constructs.AfterOfAccepted | PySchTranspiler/parser/constructs.py:47-56 | the same after a parameter |
| Constructs.AcceptedIsWellFormed | PySchTranspiler/parser/constructs.py:27-56 | every closed accepted signature is well formed, and its state holds its name and parameters |

## Left out

- Reading and parsing the source file (`Converter.transpile`'s file read and
  `ast.parse`): the input is an already parsed module (`Ast`).
- Printing: `warn` appends to `Builder.warnings`, and `throw`, the coloured
  error output and `SystemExit` become `Err` results. The banner, the art and
  the colouring are not modelled.
- `Builder.currentNode`, the `DEBUG` path and unstrict typing mode. One
  compile in strict mode is modelled.
- The class-level `buildFlags` dictionary is shared between compiles and
  never reset. Each `Builder` here starts with fresh flags.
- `widenState` pushes the same default dictionary object every time, so
  function scopes alias each other's bookkeeping. The model pushes a fresh
  copy instead.
- In-place edits of syntax nodes (`print` renamed, `input`'s appended
  argument, multi-assignment renames) become new values. Lowering the new
  value gives the same text.
- The text of float literals (`str(float)`), and bytes, complex and Ellipsis
  literals, are not modelled.
- User names that collide with the builder's reserved dunder keys give
  `Unmodelled`.
- `Tuple[X]` annotations with a non-tuple `X` give `Unmodelled`.
- The MULTI branch of `Constraint.checkToken` (`tokParser.py:103-195`) is not
  modelled. `TokParser.ParseToDict` takes rules without groups; `Interpret`
  still builds MULTI shapes.
- `parseToDict` and `FuncConstruct` empty their input lists in place.
  `ParseToDict` takes the token sequence as a value; `NewFuncConstruct` does
  empty its `TokenList`.
- `FuncConstruct.__repr__`, `PySchTranspiler/parser/parser.py` and the PLY
  tokenizers are not part of this model.
- The older snapshot's converter and snippet table
  (`PySchemeTranspiler/coverter.py`, `PySchemeTranspiler/extraCodes.py`) are
  not modelled. `Transpiler.LowerModule` runs the newer engine only.
- `Transpiler.Transpile` leaves out the `compilerCode == ""` branch. It can
  never run, because the text starts as `#lang racket\n`.
- `Transpiler.Strip` strips ASCII whitespace only.
- Flatten.SubRun, Flatten.NumberLoop and Flatten.FlattenNumberAsWritten run
  the written loops with a fuel bound, because those loops need not end.
  Running out of fuel is not a result of the source.
- ExprLowering.BinOpRight, through Rules.BinOpRule, runs each rewrite loop of `BinOp` for at most one
  turn per character of the two operands, plus one. A loop still running
  after that gives `Unmodelled`, where the source would go on.
- Rules.ConstantMeaning states the read-back of a string literal only for
  strings without backslashes. The literal as written does not read back
  otherwise (see Findings).
- ExprLowering.LowerExpr, ExprLowering.LowerCall,
  ExprLowering.LowerCompare, ExprLowering.LowerSubscript and the other
  lowering methods, except those for `BinOp` and `UnaryOp`, state what they
  check, the result type and the effect on the scopes and flags. They do not
  state the complete output text; the pure functions they use (`Rules`)
  state it piece by piece. ExprLowering.LowerList states the element type
  but not the `(gvector ...)` text.
- StmtLowering.LowerAssign, StmtLowering.TupleAssign and
  StmtLowering.HandleAssign state the effect on the scopes and the hoisting,
  not the complete text.
- ControlLowering.LowerIf, ControlLowering.LowerFor and
  ControlLowering.LowerFunctionDef state the errors, the return behaviour
  and the effect on the scopes, not the complete text.
- TokParserFacts.SignatureExample uses the example grammar without its
  optional parameter group, which is a MULTI constraint.

## Findings

| source | as written | input that shows it | evidently intended | confidence | as-written member | corrected member |
|---|---|---|---|---|---|---|
| pyschemetranspiler/builder.py:245-258 | `flattenNumberBinOp` takes a unary minus for a nested binary operation | `-x - y`, lowered as `(- (- x) y)`, becomes `(- x y)` | `(- (- x) y)` | high, not executed | Flatten.NumberFlattensNegation | Rules.BinOpFlattens |
| pyschemetranspiler/builder.py:245-258 | the nested operation is cut at the first `)`, which may close an inner call | `(f x) + 1 + 2` becomes `(+ (f x 1) 2)` | `(+ (f x) 1 2)` | high, not executed | Flatten.NumberFirstParen | Rules.BinOpFlattens |
| pyschemetranspiler/builder.py:259-270 | `flattenSubString` cuts at the first `)` too | `str(x) + "a" + "b"` loses the `)` of `(str x)` | `(string-append (str x) "a" "b")` | high, not executed | Flatten.SubStringFirstParen | Flatten.FlattenSubString |
| pyschemetranspiler/builder.py:250 | `operation[i+3]` is read past the end | `x + -1` raises IndexError | `(+ x -1)` | high, not executed | Flatten.NumberNegativeLiteral | Rules.BinOpFlattens |
| flattenStringAppend.py:4-12 | with `sub` at the very start, `operation[:i-1]` keeps almost the whole text and the loop grows it forever | `string-append (string-append a b) c` | the text returned after at most one rewrite per nesting | high, not executed | Flatten.SubStringNeverReturns | Flatten.FlattenShrinks |
| pyschemetranspiler/builder.py:502-506 | `not` of a tuple in a test takes `[0]` of the tuple handler's bare string | `if not (a, b):` gives `(not ()` | `(not (!= (vector-length t) 0))` | high, not executed | Rules.NotOfTupleAsWritten | Rules.NotTestsAgree |
| pyschemetranspiler/builder.py:144-149 | the default-argument check passes the annotation where the value's type belongs | `def f(x: float = 0)` is rejected; `def f(x: int = 0.5)` is accepted | the default must fit the annotation, as for call arguments | high, not executed | Rules.DefaultCheckReversed | Rules.DefaultAgreesWithCall |
| pyschemetranspiler/builder.py:1225-1229 | the loop-variable check is reversed in the same way | a float loop over an existing int variable is accepted | the element type must fit the variable's type | medium, not executed | Rules.ForTargetCheckReversed | Rules.ForTargetAgreesWithLists |
| pyschemetranspiler/builder.py:200-202 | only quotes are escaped in string literals | the string `\` gives the literal `"\"`, which does not close | backslashes escaped as well | high, not executed | Rules.BackslashBreaksLiteral | Rules.EscapeRoundTrip |
| PySchemeTranspiler/builder.py:899-906 | a hoisted annotated assignment binds the annotation, so emitting it again raises "Can not redefine variable type" | `if c:` then `x: int = 1` | the second emission sets the hoisted variable | high, not executed | StmtLowering.HoistedAnnAsWritten | StmtLowering.HoistedAnnBinds |
| PySchemeTranspiler/builder.py:749-763 | an `else` that starts with an `if` lowers only that `if` | `else:` holding an `if` and then `return None` drops the `return` | every statement of the `else` lowered | high, not executed | ControlLowering.ElifDropsAsWritten | ControlLowering.ElseKeepsAll |
| tokParser.py:270-282 | when the tokens run out, the constraint in hand is not checked | one NAME against an entry requiring two NAMEs is accepted | SyntaxError | high, not executed | TokParserFacts.UncheckedLastConstraint | TokParser.ParseToDict |
