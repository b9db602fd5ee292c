# A verified model of the phase-1 Python-to-JavaScript translator

The `phase1` package turns a small subset of Python into JavaScript. It has
three parts, and this project models each one as pure Dafny functions over
immutable datatypes:

- **The AST transformer** (`PyToJSTransformer` and `transpile_python_to_js`
  in `phase1/pytojs.py`). A visitor walks a Python syntax tree and returns
  JavaScript text. Modules `PyAst`, `PyToJs` and `PyToJsProperties` hold it:
  - the syntax tree is a datatype;
  - every visitor is a case of `TransExpr` or `TransStmt`;
  - the transformer's state (`function_stack`, `indent_level`) is passed
    along explicitly.

  A node that has no visitor of its own (a `BoolOp`, a `UnaryOp`, `Pass`,
  ...) goes through `generic_visit`. That visits the node's children first,
  so an error in a child is an error of the node, and then returns the node
  object itself. The model represents that object as `Js.NodeObject`. The operations that
  fail in Python when they meet such an object (`join`, `strip`, `endswith`)
  return an error result in the model.
- **The dump-string converter** (`PyToJsConverter` in `phase1/ir_to_js.py`).
  It reads an intermediate representation: records of functions, loops,
  variables, conditionals and expressions. The statements and expressions
  inside those records are `ast.dump` text, and the converter builds
  JavaScript from that text by searching for substrings. Modules `DumpText`,
  `DepthSplit`, `DumpConverter` and `DumpConverterProperties` hold it.
  `DepthSplit` covers the depth-counting splitters, each written as a
  function and as a loop. `DumpConverter` threads the converter's mutable
  fields as a `Conv` value: the lines written, the indent, the scope, the
  declared names and the processed statements. Below, "the state grows"
  means three things. Lines are only appended. The declared and processed
  sets only gain members. The indent and the scope end as they started.
- **The tokenizer** (`LexicalAnalyzer.tokenize` and `analyze_code` in
  `phase1/lexical_analyzer.py`). It scans each line with an ordered list of
  patterns, and the first pattern that matches wins. Modules `Lexer` and
  `LexerProperties` hold it. Each regular expression is a hand-written ASCII
  matcher that returns the match length. The scan loop is a method whose
  invariants tie it to a functional definition.

The model follows Python 3.12. Three behaviours it relies on depend on
the version: `ast.Str` still exists (it is gone in 3.14), `ast.dump` still
writes empty fields such as `orelse=[]` (3.13 leaves them out), and
`ast.parse` reports a null byte as a `SyntaxError` (before 3.12 it raised
`ValueError`).

Some support modules:

- `Results` defines `Option` and `Result`.
- `Strings` models Python's `find`, `split`, `strip` (over every character
  `str.isspace` accepts), `join`, `str()` of an integer and ASCII case
  mapping.
- `Json` models `json.dumps` of a string, with the default `ensure_ascii`, and
  includes a decoder for it.
- `JsRange` models the meaning of the `Array.from` expressions and of the
  counting `for` loops that the two translators emit for `range`.

Behaviours of the code that a reader might not expect, all modelled as written:

- The transformer indents a block's lines only after it has already stepped
  `indent_level` back down. So the lines of a top-level function body are not
  indented at all.
- When an operand of a binary operation is itself a binary operation, the
  transformer wraps the whole result in parentheses, not that operand.
- Every `Assign` emits a declaration keyword. No set of declared names is
  kept.
- camelCase conversion applies only to the name in a `def`. Call sites keep
  the original name.

## Model

| member | source | states |
|---|---|---|
| PyToJs.Capitalize | phase1/pytojs.py:19 | `str.capitalize` on ASCII: same length, first character upper-cased, every other character lower-cased |
| PyToJs.CamelCase | phase1/pytojs.py:15-19 | a name without `_` is returned unchanged |
| PyToJs.CamelCaseKeepsPlainName | phase1/pytojs.py:16-17 | a name with no underscore is its own camelCase |
| PyToJs.CamelCaseUnderscoreFree | phase1/pytojs.py:15-19 | the result never contains `_`, and converting it again changes nothing (idempotence) |
| PyToJs.CamelCaseLetters | phase1/pytojs.py:15-19 | up to letter case, the result is the name with its underscores removed: no letter is lost, added or moved |
| PyToJs.CamelCaseTwoWords | phase1/pytojs.py:18-19 | `a_b` becomes `a` followed by `b` capitalized |
| PyToJs.CamelCaseExample | phase1/pytojs.py:15-19 | `add_numbers` becomes `addNumbers` |
| PyToJs.ConstantTextReadsBack | phase1/pytojs.py:84-91 | a string constant is rendered as a quoted JSON text that decodes back to the string; booleans give `true`/`false`; `None` gives `null`; an integer's text parses back to the integer |
| Json.Quote | phase1/pytojs.py:86 | `json.dumps` of a string is the escaped body between two double quotes |
| Json.EscapeBody | phase1/pytojs.py:86 | the escaped text is printable ASCII only (the `ensure_ascii` default) |
| Json.QuoteRoundTrip | phase1/pytojs.py:86 | decoding the text between the quotes gives back the original string, astral characters included (through surrogate pairs) |
| Json.UnescapeEscape | phase1/pytojs.py:155 | the quote-stripped body used in f-strings decodes back to the literal |
| Strings.IntToString | phase1/pytojs.py:91 | `str()` of an integer: a minus sign exactly for negative numbers, digits elsewhere |
| Strings.IntToStringRoundTrip | phase1/pytojs.py:91 | parsing the text of an integer gives the integer back |
| Strings.Split | phase1/pytojs.py:18 | `str.split`: at least one piece, no piece contains the separator, and joining the pieces with the separator gives the input back |
| Strings.SplitHead | phase1/ir_to_js.py:256-259 | the first piece of a split ends at the first occurrence of the separator, and there are two or more pieces exactly when the separator occurs |
| Strings.Strip | phase1/ir_to_js.py:563-571 | `str.strip()`: the result neither starts nor ends with whitespace, the ASCII and Unicode spaces `str.isspace` accepts |
| Strings.StripEmpty | phase1/ir_to_js.py:563-571 | the stripped text is empty exactly when every character is whitespace, so a text of no-break spaces (U+00A0) is blank |
| Strings.StripCharsRemovesOnly | phase1/ir_to_js.py:299 | `strip("[]")` returns a contiguous slice of its input, and everything it cut off on either side is a bracket |
| PyToJs.VisitBinOperator | phase1/pytojs.py:250-266 | exactly `+ - * / % **` have a visitor; every other operator comes back as its node object; `Pow` is the one operator that gives `**` |
| PyToJs.VisitCmpOperator | phase1/pytojs.py:268-284 | exactly the six ordering and equality comparisons have a visitor; `Eq` gives `===` and `NotEq` gives `!==`, never the loose `==`/`!=`; `Is`, `In` and the rest come back as node objects |
| PyToJs.BinOpText | phase1/pytojs.py:169-171 | a power operation is always written as a `Math.pow` call |
| PyToJsProperties.BinOpOf | phase1/pytojs.py:164-177 | `a ** b` becomes `Math.pow(a, b)`; any other operation is `a op b`, with the whole text in parentheses exactly when an operand is itself a binary operation; an operator without a visitor writes its node's text |
| PyToJsProperties.WholeWrapLosesGrouping | phase1/pytojs.py:173-175 | because the wrapping encloses the whole result, `a * (b + c)` and `(a * b) + c` get the same text |
| PyToJsProperties.NestedOperationsCollide | phase1/pytojs.py:164-177 | the same collision, starting from syntax trees: `x * (y + z)` and `x * y + z` translate to the same JavaScript |
| PyToJs.Comparisons | phase1/pytojs.py:184-186 | n operators give exactly n comparisons |
| PyToJsProperties.ComparisonsClosedForm | phase1/pytojs.py:184-188 | comparison i is `left op[0] comp[0]` when i = 0 and `comp[i-1] op[i] comp[i]` after that |
| PyToJsProperties.CompareOf | phase1/pytojs.py:179-188 | a comparison chain is its pairwise comparisons joined by ` && `; fewer comparators than operators is an error (Python's IndexError) |
| PyToJsProperties.ConversionCalls | phase1/pytojs.py:114-129 | with one argument, `int`, `float`, `str` and `len` become `parseInt(x, 10)`, `parseFloat(x)`, `String(x)` and `x.length` |
| PyToJsProperties.PlainCall | phase1/pytojs.py:107-149 | any other call, including those builtins at any other arity, is a plain call of the original name with its arguments joined by `, `; `print` is renamed `console.log` |
| PyToJsProperties.PrintOne | phase1/pytojs.py:112-113 | `print(x)` becomes `console.log(x)` |
| PyToJsProperties.NodeObjectArgumentFails | phase1/pytojs.py:149 | a plain call with an argument that did not translate fails, as `', '.join` does on a node object |
| PyToJsProperties.CallSiteKeepsName | phase1/pytojs.py:107-111 | a user function keeps its snake_case name at the call site, so it differs from the camelCase name its definition was given |
| PyToJsProperties.RangeCall | phase1/pytojs.py:130-140 | `range(n)` becomes `Array.from({length: n}, (_, i) => i)`, `range(a, b)` becomes `Array.from({length: b - a}, (_, i) => i + a)` and `range(a, b, s)` becomes `Array.from({length: Math.ceil((b - a) / s)}, (_, i) => i * s + a)`; the argument texts are inserted without parentheses |
| JsRange.ArrayFrom | phase1/pytojs.py:134-140 | `Array.from({length: n}, f)` has `max(n, 0)` elements, element i being `f(i)` |
| JsRange.CeilDiv | phase1/pytojs.py:137 | `Math.ceil(a / b)` over integers: the least multiple of a positive `b` at or above `a`, mirrored for a negative `b` |
| JsRange.PyRangeClosedForm | phase1/pytojs.py:135-137 | Python's `range(start, stop, step)` has `ceil((stop - start) / step)` elements (none when that is negative), element i being `start + i * step` |
| JsRange.SteppedAgrees | phase1/pytojs.py:135-137 | over integer arguments, the three-argument `Array.from` text denotes exactly Python's `range(start, stop, step)` for any non-zero step |
| JsRange.RangeAgrees | phase1/pytojs.py:130-140 | for every arity, the emitted array equals Python's `range`, with JavaScript numbers taken as unbounded integers |
| JsRange.StartNotGrouped | phase1/pytojs.py:130-134 | a start argument `a - b` is inserted bare, so the length reads as `stop - a - b`, which JavaScript groups as `(stop - a) - b` |
| PyToJs.LiteralPart | phase1/pytojs.py:154-155 | a literal f-string part is the JSON escape of the text, without its quotes |
| PyToJsProperties.LiteralParts | phase1/pytojs.py:152-156 | the rendered literal parts of an f-string, taken in order, concatenate to the JSON escape of the text the literals spell |
| PyToJsProperties.LiteralTemplate | phase1/pytojs.py:151-159 | an f-string made only of literals is one backtick template holding the escape of their concatenation |
| Json.EscapeBodyAppend | phase1/pytojs.py:86 | `json.dumps` escapes character by character: the escape of a concatenation is the concatenation of the escapes |
| PyToJsProperties.FormattedParts | phase1/pytojs.py:151-159 | the parts of `f"s{x}"` come in segment order: the escaped literal, then `${x}` |
| PyToJsProperties.FormattedString | phase1/pytojs.py:151-162 | `f"s{x}"` becomes one backtick template holding the escaped `s` and then `${x}` |
| PyToJsProperties.FormattedPrint | phase1/pytojs.py:144-147 | `print(f"s{x}")` becomes `console.log` of that template |
| PyToJs.DictEntries | phase1/pytojs.py:97-105 | a dictionary has one entry per key/value pair that `zip` forms, so as many as the shorter of the two lists |
| PyToJsProperties.DictOf | phase1/pytojs.py:97-105 | a dictionary display translates exactly when every zipped pair has a key, a value that translates, and a key that is a string constant or translates; there is one entry per pair, and entry j is then `"k": v` (the key through `json.dumps`) for a string key and `[k]: v` otherwise, and the display is `{` the entries joined by `, ` `}` |
| PyToJsProperties.DictUnpackingFails | phase1/pytojs.py:99-104 | a `**mapping` entry, whose key is `None`, makes the display fail |
| PyToJs.TransExpr | phase1/pytojs.py:78-162 | only a `BoolOp`, a `UnaryOp` or a node kind outside the modelled subset translates to a node object; every other expression gives text |
| PyToJs.WithSemicolon | phase1/pytojs.py:242-247 | an expression statement always ends in `;`, and one is added exactly when the text does not already end in one |
| PyToJsProperties.NodeObjectStatements | phase1/pytojs.py:242-247 | an expression statement whose value is a node object fails (`endswith` on a node), while `return` of it writes the node's text |
| PyToJs.AugAssignForms | phase1/pytojs.py:301-322 | `Pow` gives `t = Math.pow(t, v);`, the five table operators give `t op= v;`, and any other operator gives `t += v;` |
| PyToJsProperties.AugAssignOverride | phase1/pytojs.py:301-322 | the second `visit_AugAssign` is the one in force; the first would agree with it on exactly the six operators that have visitors |
| PyToJsProperties.AugAssignAgree | phase1/pytojs.py:67-76 | on `+ - * / % **` the first definition gives the same text as the second |
| PyToJs.AssignText | phase1/pytojs.py:64-65 | the text starts with `let ` exactly when no function is open and with `const ` exactly when one is, and ends with `target = value;` |
| PyToJsProperties.AssignKeyword | phase1/pytojs.py:56-65 | every translated assignment carries one of the two keywords, chosen by the function stack alone |
| PyToJsProperties.AssignOf | phase1/pytojs.py:56-65 | `x = v` becomes `let x = v;` at module level and `const x = v;` inside a function; a target that is not a name is written as its translation; no target, or a value that fails, is an error |
| PyToJsProperties.RedeclaredAtModuleLevel | phase1/pytojs.py:56-65 | two module-level assignments to one name both emit `let`: no set of declared names is kept |
| PyToJs.TransStmt | phase1/pytojs.py:39-48 | translating a statement hands back the state it was given: the function stack is popped and the indent level is restored |
| PyToJs.TransBlock | phase1/pytojs.py:193-196 | a block is translated one indent level deeper, and the state is restored afterwards |
| PyToJs.TransBody | phase1/pytojs.py:40 | one line per statement, and the state is unchanged |
| PyToJs.FunctionText | phase1/pytojs.py:44-49 | a function text opens with `function name(params) {` and a newline, and closes with a newline and `}` |
| PyToJsProperties.FunctionDefOf | phase1/pytojs.py:33-49 | `def f(p, q)` becomes `function` and the camelCase of `f`, then `(p, q) {`, the body lines at the `def`'s own indentation (a top-level body is not indented), and `}`; an empty body becomes one `// pass` line at that indentation; the body is visited with the name on the function stack |
| PyToJs.ElseText | phase1/pytojs.py:207-213 | no `else` branch gives no text; a branch that is a single `if` collapses into `else if`; any other branch is a braced block |
| PyToJsProperties.ElifChains | phase1/pytojs.py:208-210 | an `elif` is written as `} else if ...` directly after the closing brace |
| PyToJsProperties.IfOf | phase1/pytojs.py:190-215 | an `if` becomes `if (test) {`, its body lines at the `if`'s own indentation, and `}`; then nothing without an else branch, ` else ` and the line itself when the branch is one line starting with `if `, and otherwise a braced `else` block closed at the same indentation |
| PyToJsProperties.ForOf | phase1/pytojs.py:217-228 | every `for` becomes `for (let t of it) {`, its body lines at the loop's own indentation, and `}`; a `range` iterable is an `Array.from` text, not a counting loop |
| PyToJsProperties.WhileOf | phase1/pytojs.py:230-240 | a `while` becomes `while (test) {`, its body lines at the loop's own indentation, and `}` |
| PyToJsProperties.ModuleOf | phase1/pytojs.py:21-31 | a module translates exactly when every top-level statement does, and is then their texts joined by newlines, with no import header |
| PyToJsProperties.BlockOf | phase1/pytojs.py:193-198 | a block translates exactly when its statements do one level deeper; it then keeps one line per statement, none dropped, and hands back the state it was given |
| PyToJsProperties.BodyLinesVisible | phase1/pytojs.py:40-41 | every line of a translated body is visible, so the non-blank filter keeps all of them |
| PyToJsProperties.StmtTextVisible | phase1/pytojs.py:33-247 | every statement that translates gives a text with a non-whitespace character |
| PyToJsProperties.UnsupportedStatementFails | phase1/pytojs.py:40-41 | a body holding `pass` or an unsupported statement fails, because `strip` is applied to a node object |
| PyToJsProperties.ModuleWithPassFails | phase1/pytojs.py:23-24 | a module holding `pass` does not translate |
| PyToJsProperties.UnsupportedNodeChildFails | phase1/pytojs.py:78-162 | a node without a visitor fails when any of its children fails, because `generic_visit` visits them first |
| PyToJsProperties.SubscriptOfBoolOpList | phase1/pytojs.py:93-95 | `x = a[[b or c]]` fails: the list's element is a node object that `join` rejects, and the subscript passes the failure on |
| PyToJs.Transpile | phase1/pytojs.py:324-340 | exactly one of the code and the error is present; a parse failure gives a `Python syntax error: ` message, any other failure a `Transpilation error: ` message, and success gives the module's translation |
| DepthSplit.SplitArgsTrimmed | phase1/ir_to_js.py:551-573 | every argument piece is non-empty and starts and ends with a non-whitespace character |
| DepthSplit.NoTopLevelComma | phase1/ir_to_js.py:551-573 | text with no comma at depth 0 is one argument, or none when it is blank |
| DepthSplit.SplitArgsJoin | phase1/ir_to_js.py:551-573 | splitting arguments joined by `, ` gives them back, when each is trimmed and has no comma at its top level |
| DepthSplit.SplitArgsLoop | phase1/ir_to_js.py:551-573 | the character loop with its depth counter computes `SplitArgs` |
| DepthSplit.SplitStatementsTrimmed | phase1/ir_to_js.py:348-370 | every statement piece is non-empty and trimmed |
| DepthSplit.SplitStatementsClosed | phase1/ir_to_js.py:354-365 | every piece except possibly the last ends with a `)` at which the parenthesis depth came back to zero |
| DepthSplit.SplitStatementsJoin | phase1/ir_to_js.py:348-370 | statements joined by `, ` come back, each piece after the first keeping the `, ` in front of it |
| DepthSplit.SplitStatementsLoop | phase1/ir_to_js.py:348-370 | the character loop computes `SplitStatements` |
| DumpText.FirstPiece | phase1/ir_to_js.py:256-259 | `s.split(sep)[0]`: the prefix before the first separator, or all of `s` |
| DumpText.SecondPiece | phase1/ir_to_js.py:256-259 | `s.split(sep)[1]` exists exactly when `sep` occurs, and is the text between its first two occurrences |
| DumpText.NameOf | phase1/ir_to_js.py:382-383 | the identifier read from a `Name(id='` field is shorter than the text and holds no quote |
| DumpText.ExtractName | phase1/ir_to_js.py:479-483 | text without a `Name(id='` field is returned unchanged |
| DumpText.NameDumpRead | phase1/ir_to_js.py:382-383 | the reader gives back the identifier of a `Name` dump |
| DumpText.FirstNameWins | phase1/ir_to_js.py:382-383 | the first `Name` field anywhere in the text decides the result, whatever node encloses it |
| DumpText.BinOpKeepsLeftName | phase1/ir_to_js.py:382-420 | a binary-operation dump whose left operand is a name reads as that name alone |
| DumpText.ConstantDumpRead | phase1/ir_to_js.py:384-389 | a `Constant` dump reads as its value text |
| DumpText.IntDumpRead | phase1/ir_to_js.py:384-389 | an integer constant's dump reads as the integer's text |
| DumpText.StrDumpRead | phase1/ir_to_js.py:384-389 | a string constant's dump reads as the single-quoted string |
| DumpText.CallBranchUnreachable | phase1/ir_to_js.py:454-473 | any text the call branch tests for already contains `Name(id='`, so the name test answers first |
| DumpText.UnknownNodeCommented | phase1/ir_to_js.py:476 | text that no test matches is returned inside `/* Unprocessed: ... */` |
| DumpText.CompareSymbol | phase1/ir_to_js.py:434-451 | every comparison the reader writes uses one of the six JavaScript operators |
| DumpText.TestSymbol | phase1/ir_to_js.py:271-283 | the same for the `if` handler's table |
| DumpText.NotEqReadsAsStrictEqual | phase1/ir_to_js.py:272-275 | because `NotEq()` contains `Eq()`, a not-equal test is written as `===` by both tables |
| DumpText.TestAgreesWithCompare | phase1/ir_to_js.py:271-283 | the two tables differ only on `IsNot()`, which the `if` handler writes as `===` |
| DumpText.DumpedOperatorIsPlus | phase1/ir_to_js.py:396-414 | the operator text cut from a dump keeps its `()`, so the table lookup always falls back to `+` |
| DumpText.CallArguments | phase1/ir_to_js.py:485-528 | a statement with no `args=[` field has no arguments |
| DumpText.CallArgumentsRead | phase1/ir_to_js.py:485-528 | for `args=[` followed by bracket-free arguments joined by `, ` and a closing `]`, the arguments read back in order, each through the expression reader, whatever follows the `]` |
| DumpText.BinOpSymbol | phase1/ir_to_js.py:106-116 | the operator table: `Add Sub Mult Div Mod Pow` give `+ - * / % **`, `FloorDiv` gives the `Math.floor(/)` marker, and any other name falls back to `+` |
| DumpConverter.AddLine | phase1/ir_to_js.py:39-41 | one line is appended, indented by two spaces per level, and nothing else changes |
| DumpConverter.LiteralText | phase1/ir_to_js.py:126-129 | a string constant is wrapped in single quotes with no escaping; booleans give Python's `True`/`False`, `None` gives `None`, an integer its decimal text |
| DumpConverter.ProcessValue | phase1/ir_to_js.py:95-132 | a name record gives its identifier, a constant its literal text, a dump string the expression reader's text and any other record `None`; a binary operation gives `Math.floor(l / r)` for `FloorDiv`, `l op r` for a table operator and `l + r` for any other |
| DumpConverter.AugOperator | phase1/ir_to_js.py:575-584 | the result is always one of the five compound operators; the five table names map to their own operator, and any other name (`Pow`, `FloorDiv`, ...) maps to `+=` |
| DumpConverter.ReturnValue | phase1/ir_to_js.py:509-516 | a `value=None` return, or one with no value field, has an empty value |
| DumpConverterProperties.ReturnOfField | phase1/ir_to_js.py:509-516 | a `return` whose value text has no `value=` field of its own and does not start with `None` writes what the expression reader makes of that text |
| DumpConverterProperties.ReturnNameRead | phase1/ir_to_js.py:509-516 | `return x` writes `x` |
| DumpConverterProperties.ReturnNodeCut | phase1/ir_to_js.py:509-516 | a `return` of a node `K(value=v)` of a kind the reader does not know writes `/* Unprocessed: K( */`: `split("value=")[1]` stops at the node's own `value=` field |
| DumpConverterProperties.ReturnConstantCut | phase1/ir_to_js.py:509-516 | so `return 5` writes `/* Unprocessed: Constant( */` rather than `5` |
| DumpConverter.AssignLine | phase1/ir_to_js.py:339-343 | exactly one line is added; it is bare exactly when the name was declared already or the scope is a function; only a global assignment records the name |
| DumpConverter.ProcessStatement | phase1/ir_to_js.py:243-346 | a statement seen before changes nothing; otherwise it is recorded and the state grows; only an `If(` or `Assign(` statement whose fields are missing can fail (IndexError) |
| DumpConverter.CallStatement | phase1/ir_to_js.py:309-324 | a call statement grows the state and records nothing |
| DumpConverter.AssignStatement | phase1/ir_to_js.py:332-343 | an assignment statement grows the state and records nothing |
| DumpConverter.IfPieces | phase1/ir_to_js.py:255-263 | the body and else texts cut from an `if` dump are strictly shorter than it, which is what makes the recursion end |
| DumpConverter.IfStatement | phase1/ir_to_js.py:253-304 | an `if` statement grows the state |
| DumpConverter.ElsePart | phase1/ir_to_js.py:296-302 | the else branch grows the state |
| DumpConverter.ProcessFunctions | phase1/ir_to_js.py:43-68 | the phase only appends lines, and indent and scope are restored after each function; unless a function is named `global`, no name is declared, because assignments inside a function are bare |
| DumpConverter.LoopHeader | phase1/ir_to_js.py:136-180 | a loop record writes a header exactly when its type is `for` or `while` |
| DumpConverter.LoopStep | phase1/ir_to_js.py:136-187 | a loop of any other type changes nothing; the others grow the state |
| DumpConverter.ProcessLoops | phase1/ir_to_js.py:134-187 | the loops phase grows the state |
| DumpConverter.RangeHeaderCounts | phase1/ir_to_js.py:144-158 | a `range` loop header is a counting loop: it starts at `0` with one argument and at the first argument otherwise, is bounded by the stop argument, and counts with `++`, or with `+= step` when there are three arguments; any other argument count gives the empty loop `i < 0` |
| DumpConverter.RangeHeaderOfIntegers | phase1/ir_to_js.py:144-158 | the same for integer arguments, written as text |
| DumpConverter.RangeLoopAgrees | phase1/ir_to_js.py:147-155 | with a positive or absent step, the loop visits exactly the values of Python's `range` |
| DumpConverter.NegativeStepSkipped | phase1/ir_to_js.py:153-155 | with a negative step and `start > stop`, the loop runs zero times while Python's `range` is not empty |
| DumpConverter.OtherArityRunsNever | phase1/ir_to_js.py:156-158 | the fallback header for any other argument count runs zero times |
| DumpConverter.VariableStep | phase1/ir_to_js.py:72-93 | a record with a target writes one line; only a plain (not augmented) assignment declares; its line starts with `let` exactly when the name was not yet declared |
| DumpConverter.ProcessVariables | phase1/ir_to_js.py:70-93 | the declared set grows by exactly the names the plain assignments assign |
| DumpConverter.ClauseHeader | phase1/ir_to_js.py:198-207 | a clause writes a header exactly when its type is `if`, `elif` or `else` |
| DumpConverter.ProcessClauses | phase1/ir_to_js.py:197-214 | the clauses of a chain grow the state |
| DumpConverter.ProcessChains | phase1/ir_to_js.py:195-214 | the chains grow the state |
| DumpConverter.ProcessConditionals | phase1/ir_to_js.py:189-214 | nothing is written outside the global scope; otherwise the state grows |
| DumpConverter.FormatArgs | phase1/ir_to_js.py:530-549 | one text per argument, in order: a string constant in single quotes, a boolean as `True`/`False`, `None` as `None`, an integer as its text, a name record as its identifier, and anything else read as dump text |
| DumpConverter.ProcessCalls | phase1/ir_to_js.py:222-238 | the calls grow the state and declare and record nothing |
| DumpConverter.ProcessExpressions | phase1/ir_to_js.py:216-241 | nothing is written outside the global scope; otherwise the state grows, with nothing declared or recorded |
| DumpConverterProperties.ConvertPhases | phase1/ir_to_js.py:20-37 | the phases run in source order, each on the state the previous one left; conversion succeeds exactly when the functions, loops and conditionals phases do, each phase's lines follow all earlier phases' lines, and the output is every line written, joined by newlines |
| DumpConverterProperties.FunctionsFirst | phase1/ir_to_js.py:20-37 | two representations with the same functions produce the same leading lines, whatever their loops, variables, conditionals and expressions |
| DumpConverterProperties.ProcessedStatementsSkipped | phase1/ir_to_js.py:246-251 | a list of statements that were all processed before changes nothing |
| DumpConverterProperties.DuplicateStatementDropped | phase1/ir_to_js.py:246-251 | a statement given twice in a row has the effect of one copy |
| DumpConverterProperties.RepeatedBodyEmitsNothing | phase1/ir_to_js.py:43-68 | a function whose statements all occurred earlier is written with an empty body |
| DumpConverterProperties.LetThenBare | phase1/ir_to_js.py:86-93 | two assignments to one undeclared name write `let` once and then a bare assignment |
| DumpConverterProperties.StatementAndRecordDeclareAlike | phase1/ir_to_js.py:339-343 | in the global scope, an assignment statement declares its name exactly when a variables record would |
| DumpConverterProperties.BuiltinEndsExpressions | phase1/ir_to_js.py:229-234 | a call of `len`, `str`, `int`, `float` or `range` in the expressions list ends the whole list (the `return` in the loop) |
| DumpConverterProperties.StripOrelseBrackets | phase1/ir_to_js.py:299 | stripping brackets from `[])` leaves `)` |
| DumpConverterProperties.SplitLoneParen | phase1/ir_to_js.py:348-370 | a lone `)` is one statement |
| DumpConverterProperties.LoneParenIgnored | phase1/ir_to_js.py:344-346 | a statement that no test matches is recorded and writes nothing |
| DumpConverterProperties.EmptyOrelseStillEmitsElse | phase1/ir_to_js.py:263-302 | an `if` with no else branch still writes `} else {`, because the cut else text is `[])` and not `[]` |
| DumpConverterProperties.ConvertBeginsWithFirstFunction | phase1/ir_to_js.py:20-37 | the output starts with the header of the first function: functions come first and later phases only append |
| DumpConverterProperties.GroupingLost | phase1/ir_to_js.py:100-122 | a structured value is written without parentheses, so `a - (b - c)` and `(a - b) - c` give the same text |
| DumpConverterProperties.ValueFormsAgree | phase1/ir_to_js.py:95-132 | a name, an integer or a plain string gives the same text as a record and as a dump, but a binary operation of two names does not: its dump reads as the left name alone |
| DumpConverterProperties.ArgFormsAgree | phase1/ir_to_js.py:530-549 | a name, an integer or a plain string argument gives the same text as a record and as a dump |
| Lexer.KeywordMatch | phase1/lexical_analyzer.py:19 | a keyword match is never empty and never longer than the text |
| Lexer.IdentifierMatch | phase1/lexical_analyzer.py:20 | an identifier match is never empty |
| Lexer.NumberMatch | phase1/lexical_analyzer.py:21 | a number match is never empty |
| Lexer.StringMatch | phase1/lexical_analyzer.py:22 | a string match is never empty |
| Lexer.CommentMatch | phase1/lexical_analyzer.py:27 | a comment match is never empty |
| LexerProperties.IdentifierMatchFacts | phase1/lexical_analyzer.py:20 | the identifier pattern matches exactly at a letter or `_` (so `123abc` is not an identifier at its start), and then takes the longest run of letters, digits and `_` |
| LexerProperties.NumberMatchFacts | phase1/lexical_analyzer.py:21 | the number pattern matches exactly at a digit, and takes the longest prefix that is digits with at most one inner `.` followed by a digit |
| LexerProperties.QuoteEndFacts | phase1/lexical_analyzer.py:22 | the lazy `.*?` scan stops at the first closing quote, crossing no newline; it finds none exactly when a newline comes before every later quote |
| LexerProperties.StringMatchFacts | phase1/lexical_analyzer.py:22 | a string match opens and closes with the same quote and holds neither that quote nor a newline inside; an opening quote without a match has a newline before every later copy of it |
| LexerProperties.CommentMatchFacts | phase1/lexical_analyzer.py:27 | the comment pattern matches exactly at `#`, and runs to the end of the line or of the text |
| Lexer.Match | phase1/lexical_analyzer.py:18-28 | no pattern matches the empty string, so each step of the scan advances |
| Lexer.FirstMatchFound | phase1/lexical_analyzer.py:42-50 | the pattern found is in the list, and the length found is its match |
| Lexer.Classify | phase1/lexical_analyzer.py:40-55 | each step consumes between one character and the rest of the line |
| Lexer.NextLexeme | phase1/lexical_analyzer.py:42-55 | the pattern loop returns the kind and length that `Classify` gives: the first pattern that matches, or an error |
| Lexer.ScanLine | phase1/lexical_analyzer.py:39-55 | the position loop over a line computes the line's tokens |
| Lexer.Tokenize | phase1/lexical_analyzer.py:33-57 | the line loop computes the tokens of the code; the result depends on the input only |
| Lexer.Entry | phase1/lexical_analyzer.py:66-71 | a token's record has exactly the fields `type`, `value`, `line` and `position` |
| Lexer.KindOfTypeName | phase1/lexical_analyzer.py:19-27 | the type name of a token reads back as its type |
| Lexer.EntryRoundTrip | phase1/lexical_analyzer.py:65-73 | a token's record reads back as the token |
| Lexer.AnalyzeCode | phase1/lexical_analyzer.py:59-75 | one record per token, in order, each reading back as that token |
| LexerProperties.FirstMatchIsFirst | phase1/lexical_analyzer.py:42-50 | no pattern is found exactly when none matches; the pattern found comes after only patterns that do not match |
| LexerProperties.ClassifiedMatches | phase1/lexical_analyzer.py:42-50 | a lexeme that is not an error is a match of its pattern |
| LexerProperties.AnalyzerMatches | phase1/lexical_analyzer.py:42-50 | the same for the tokenizer's own pattern list |
| LexerProperties.ErrorIsOneUnmatchedChar | phase1/lexical_analyzer.py:52-55 | an error lexeme arises exactly when no pattern matches, and it is one character long |
| LexerProperties.FirstPatternMissed | phase1/lexical_analyzer.py:42-50 | a lexeme of a later pattern means the first pattern did not match |
| LexerProperties.AnalyzerOrder | phase1/lexical_analyzer.py:18-20 | keywords are tried first and identifiers second |
| LexerProperties.KeywordMatchFacts | phase1/lexical_analyzer.py:19 | a keyword match covers the whole run of word characters, and that run is a reserved word |
| LexerProperties.KeywordClassified | phase1/lexical_analyzer.py:18-20 | a keyword lexeme is a whole word that is reserved |
| LexerProperties.IdentifierClassified | phase1/lexical_analyzer.py:18-20 | an identifier lexeme is a whole word that is not reserved |
| LexerProperties.KeywordLexeme | phase1/lexical_analyzer.py:19 | the tokenizer's keyword lexemes are whole reserved words |
| LexerProperties.KeywordEndsWord | phase1/lexical_analyzer.py:19 | a keyword is never followed by a word character (the closing `\b`) |
| LexerProperties.IdentifierIsNotKeyword | phase1/lexical_analyzer.py:18-20 | reserved words are never classified as identifiers |
| LexerProperties.NewlineLexeme | phase1/lexical_analyzer.py:25 | a newline lexeme starts with a newline character |
| LexerProperties.TokensAreKeptLexemes | phase1/lexical_analyzer.py:44-48 | the tokens of a line are its lexemes without the whitespace and comment ones |
| LexerProperties.LexemesTile | phase1/lexical_analyzer.py:38-55 | the lexemes of a line, skipped ones included, concatenate in order to the line |
| LexerProperties.LineTokensFit | phase1/lexical_analyzer.py:38-55 | every token of a line stands at its position in the line, and the positions strictly increase |
| LexerProperties.TokenClass | phase1/lexical_analyzer.py:36-55 | no whitespace, comment or newline token is emitted; an error token holds the one character that no pattern matches; keyword and identifier tokens are reserved and unreserved words |
| LexerProperties.LinesTokensFit | phase1/lexical_analyzer.py:38-57 | tokens of later lines follow the tokens of earlier ones |
| LexerProperties.TokensOfText | phase1/lexical_analyzer.py:33-57 | every token of the code carries its 1-based line number and a position inside that line where its text stands, respects its class, and the tokens are in strict (line, position) order |
| JsRange.CountingValues | phase1/ir_to_js.py:155 | a JavaScript counting loop runs zero times exactly when the start is not below the bound |
| JsRange.CountingAgrees | phase1/ir_to_js.py:153-155 | with a positive step, the counting loop visits exactly Python's `range` |

## Left out

- `ast.parse` is a parameter of `Transpile`. The syntax tree datatype is the transformer's input, and a `SyntaxError` is the parser's error result. `phase1/parse.py`, which builds the dump strings, is not part of this model, so the converter's records are its input.
- The `print` and `traceback` logging in `transpile_python_to_js` is output only and is left out.
- Floating-point constants and `str()` of floats are left out: numbers are integers.
- The tokenizer's `\b`, `\d` and word characters are ASCII only. Python's `re` also accepts non-ASCII letters and digits there.
- The converter's `hash()` de-duplication is modelled as equality of statement texts. Hash collisions are not modelled.
- The converter's `processed_calls` and `temp_vars` fields are never read and are left out. So is the transformer's `imports` set, which is never filled.
- `str()` of a dictionary argument in `_format_call_args` is taken as given text, because the dump format of a Python dict is not modelled.
- The call branch of `_process_expression_node` (lines 454-473) is not modelled: `DumpText.CallBranchUnreachable` proves no input reaches it.
- The memory address in the text of a Python node object is not modelled: `Show` writes `<ast.K object>`.
- The error message texts for exceptions other than the two `transpile_python_to_js` formats are placeholders.
- A JavaScript counting loop with a non-positive step that starts below its bound never ends. `DumpConverter.LoopValues` is defined only for loops that end, so it does not model that case.
- The frontend, `phase1/app.py`, the test scripts, the `__main__` demos and `phase2` are outside the modelled core.
- PyToJs.BinOpText: its own contract states only the `Pow` case. Every case of the text, the wrapping rule included, is stated by `PyToJsProperties.BinOpOf`.
- DumpConverterProperties.LetThenBare: states the let-once rule for two records. The general statement is the declared-set contract of `DumpConverter.VariableStep` and `DumpConverter.ProcessVariables`.
- PyToJs.CamelCase: its own contract covers only names without `_`. The other cases are the lemmas `CamelCaseUnderscoreFree`, `CamelCaseLetters` and `CamelCaseTwoWords`.
- Lexer.KeywordMatch: its contract gives only the match bounds. What the match is comes from `LexerProperties.KeywordMatchFacts`.
- PyToJs.Capitalize: upper- and lower-cases ASCII letters only. Python's `str.capitalize` is Unicode-aware (`é` becomes `É`, and `ß` becomes `Ss`, which changes the length); the model leaves other characters unchanged.
- Constant kinds other than strings, booleans, `None` and integers (bytes, `Ellipsis`, complex numbers) are not in the syntax tree datatype.
- A lone surrogate in a Python string cannot be a Dafny `char`, so `json.dumps` of such a string is not modelled for it.
- JsRange.Denote: it gives the meaning of an `Array.from` text whose arguments are single integer terms; there is no JavaScript expression evaluator. `JsRange.StartNotGrouped` shows the text of a compound start argument.
- The children of a node without a visitor (`OtherExpr`) are its expression fields only; statement or keyword children of such a node are not modelled.
- Lexer.IdentifierMatch: its contract gives only that a match is not empty. Where it matches and how far it runs comes from `LexerProperties.IdentifierMatchFacts`.
- DumpConverter.ReturnValue: its own contract gives only the empty cases. What a `return` with a value writes comes from `DumpConverterProperties.ReturnOfField`, `ReturnNameRead`, `ReturnNodeCut` and `ReturnConstantCut`; a `return` of an operation (`return a + b` writes `a`) is not stated on its own.
- JsRange.ArrayFrom, JsRange.SteppedAgrees and JsRange.RangeAgrees: JavaScript numbers are modelled as unbounded integers. The agreement with Python's `range` holds only for lengths below 2^32, where `Array.from` does not throw `RangeError: Invalid array length`, and for values within ±2^53, where doubles are exact; Python's `range` has neither limit.
- Lexer.NumberMatch, Lexer.StringMatch and Lexer.CommentMatch: their contracts give only that a match is not empty. What each match is comes from `LexerProperties.NumberMatchFacts`, `StringMatchFacts` and `CommentMatchFacts`.
