/** The IR-to-JavaScript converter (`PyToJsConverter`).

    The converter walks an IR dictionary of five lists (functions, loops,
    variables, conditionals, expressions) in that fixed order, appending
    indented lines to its output. Statements inside bodies are `ast.dump`
    strings, read by `DumpText`. Its mutable fields become the record
    `Conv`, and each processing step is a function from one `Conv` to the
    next. A Python exception (an `IndexError` from a failed `split(...)[1]`)
    becomes `Err`.

    A dictionary key the IR leaves out reads as the default of its `.get`,
    so each IR record below holds the value the source reads, defaults
    included. */
module DumpConverter {
  import opened Results
  import opened Strings
  import opened DepthSplit
  import opened PyAst
  import opened DumpText
  import JsRange

  // ---------------------------------------------------------------------
  // The IR

  /** `{'name', 'args', 'body'}` of a function definition. */
  datatype FunctionRecord = FunctionRecord(name: string, args: seq<string>, body: seq<string>)

  /** A loop: `kind` is the `'type'` key (`for`, `while` or anything else). */
  datatype LoopRecord = LoopRecord(kind: string, target: string, iter: string, condition: string, body: seq<string>)

  /** The value of an assignment: a structured dictionary, or a dump string. */
  datatype Value =
    | BinaryOperation(left: Value, op: string, right: Value)
    | NameValue(id: string)
    | ConstantValue(constant: Constant)
    | OtherDict
    | DumpValue(text: string)

  /** An assignment: `kind` is `'augassign'` for `x op= v`. */
  datatype VariableRecord = VariableRecord(targets: seq<string>, value: Value, kind: string, op: string)

  /** One `if`/`elif`/`else` clause of a chain. */
  datatype ConditionalRecord = ConditionalRecord(kind: string, test: string, body: seq<string>)

  /** An entry of the conditionals list: a chain, or anything that is not a
      list (skipped). */
  datatype Chain = Chain(clauses: seq<ConditionalRecord>) | NotAList

  /** An argument of a call in the expressions list: a constant or name
      dictionary, or any other value as its `str()` text. */
  datatype CallArg = ConstantArg(constant: Constant) | NameArg(id: string) | OtherArg(text: string)

  datatype ExpressionRecord = ExpressionRecord(kind: string, func: string, args: seq<CallArg>)

  datatype Ir = Ir(
    functions: seq<FunctionRecord>,
    loops: seq<LoopRecord>,
    variables: seq<VariableRecord>,
    conditionals: seq<Chain>,
    expressions: seq<ExpressionRecord>)

  // ---------------------------------------------------------------------
  // Converter state

  const Global := "global"

  /** The converter's fields: output lines, declared variables, indentation
      level, the statements already processed and the current scope.
      (`processed_calls` and `temp_vars` are never read.) */
  datatype Conv = Conv(lines: seq<string>, declared: set<string>, indent: nat, processed: set<string>, scope: string)

  const Initial := Conv([], {}, 0, {}, Global)

  /** What a processing step keeps: output, declarations and processed
      statements only grow; indentation and scope come back as they were;
      and outside the global scope nothing is declared. */
  predicate Grows(c: Conv, d: Conv) {
    && c.lines <= d.lines
    && c.declared <= d.declared
    && c.processed <= d.processed
    && d.indent == c.indent
    && d.scope == c.scope
    && (c.scope != Global ==> d.declared == c.declared)
  }

  lemma GrowsTransitive(c: Conv, d: Conv, e: Conv)
    requires Grows(c, d) && Grows(d, e)
    ensures Grows(c, e)
  {
  }

  /** `_add_line`: the line indented by two spaces per level. */
  function AddLine(c: Conv, line: string): (r: Conv)
    ensures r.lines == c.lines + [Spaces(2 * c.indent) + line]
    ensures r.(lines := c.lines) == c
    ensures Grows(c, r)
  {
    c.(lines := c.lines + [Spaces(2 * c.indent) + line])
  }

  // ---------------------------------------------------------------------
  // Values and operators

  /** Python's `str()` of a constant; a string is wrapped in single quotes
      first, with no escaping. */
  function LiteralText(k: Constant): (r: string)
    ensures k.StrConst? ==> r == "'" + k.s + "'"
    ensures k.BoolConst? ==> r in {"True", "False"} && (r == "True" <==> k.b)
    ensures k.NoneConst? ==> r == "None"
    ensures k.IntConst? ==> r == IntToString(k.i)
  {
    match k
    case StrConst(s) => "'" + s + "'"
    case BoolConst(b) => if b then "True" else "False"
    case NoneConst => "None"
    case IntConst(i) => IntToString(i)
  }

  /** `_process_value`: a structured value is rebuilt from its parts, a
      dump string goes to `ExpressionNode`, and a dictionary of any other
      type falls off the end of the function, giving Python's `None`. An
      operation is its operand texts around the operator, with no
      parentheses; floor division becomes a `Math.floor` call, and an
      operator outside the table is written `+`. */
  function ProcessValue(v: Value): (r: string)
    ensures v.NameValue? ==> r == v.id
    ensures v.ConstantValue? ==> r == LiteralText(v.constant)
    ensures v.OtherDict? ==> r == "None"
    ensures v.DumpValue? ==> r == ExpressionNode(v.text)
    ensures v.BinaryOperation? && v.op == "FloorDiv" ==>
      r == "Math.floor(" + ProcessValue(v.left) + " / " + ProcessValue(v.right) + ")"
    ensures v.BinaryOperation? && v.op in OperatorTable ==>
      r == ProcessValue(v.left) + " " + OperatorTable[v.op] + " " + ProcessValue(v.right)
    ensures v.BinaryOperation? && v.op !in OperatorTable && v.op != "FloorDiv" ==>
      r == ProcessValue(v.left) + " + " + ProcessValue(v.right)
  {
    match v
    case BinaryOperation(left, op, right) =>
      Combine(ProcessValue(left), BinOpSymbol(op), ProcessValue(right))
    case NameValue(id) => id
    case ConstantValue(k) => LiteralText(k)
    case OtherDict => "None"
    case DumpValue(text) => ExpressionNode(text)
  }

  /** `_convert_operator`: the compound assignment operator, `+=` for any
      operator outside its table. */
  function AugOperator(op: string): (r: string)
    ensures r in {"+=", "-=", "*=", "/=", "%="}
    ensures op in {"Add", "Sub", "Mult", "Div", "Mod"} ==> r == BinOpSymbol(op) + "="
  {
    if op == "Add" then "+="
    else if op == "Sub" then "-="
    else if op == "Mult" then "*="
    else if op == "Div" then "/="
    else if op == "Mod" then "%="
    else "+="
  }

  // ---------------------------------------------------------------------
  // Statements

  /** The builtins the statement handler drops (printing is handled before). */
  const SkippedBuiltins: set<string> := {"print", "len", "str", "int", "float"}

  /** `_extract_return_value`. */
  function ReturnValue(stmt: string): (r: string)
    ensures Contains(stmt, "value=None") || !Contains(stmt, "value=") ==> r == ""
  {
    if Contains(stmt, "value=None") then ""
    else if Contains(stmt, "value=") then ExpressionNode(SecondPiece(stmt, "value=").value)
    else ""
  }

  /** The text of a declaring assignment. */
  function LetText(name: string, value: string): string {
    "let " + name + " = " + value + ";"
  }

  /** The text of an assignment to a declared variable. */
  function BareText(name: string, value: string): string {
    name + " = " + value + ";"
  }

  /** The assignment line: `let` the first time a name is assigned in the
      global scope, a bare assignment otherwise. */
  function AssignLine(c: Conv, name: string, value: string): (r: Conv)
    ensures Grows(c, r) && r.processed == c.processed
    ensures r.declared == (if c.scope == Global then c.declared + {name} else c.declared)
    ensures |r.lines| == |c.lines| + 1
    ensures (name in c.declared || c.scope != Global) <==> r.lines[|c.lines|] == Spaces(2 * c.indent) + BareText(name, value)
  {
    if name in c.declared || c.scope != Global then
      AddLine(c, BareText(name, value))
    else
      var d := AddLine(c, LetText(name, value));
      assert |Spaces(2 * c.indent) + BareText(name, value)| < |d.lines[|c.lines|]|;
      d.(declared := d.declared + {name})
  }

  /** `_process_statement`. A statement seen before is skipped (the source
      keys on `hash(stmt)`; the model on the text itself). */
  function ProcessStatement(stmt: string, c: Conv): (r: Result<Conv>)
    ensures r.Ok? ==> Grows(c, r.value) && stmt in r.value.processed
    ensures stmt in c.processed ==> r == Ok(c)
    ensures r.Err? ==> Contains(stmt, "If(") || Contains(stmt, "Assign(")
    decreases |stmt|, 4, 0
  {
    if stmt in c.processed then Ok(c)
    else
      var c := c.(processed := c.processed + {stmt});
      if Contains(stmt, "If(") then
        if Contains(stmt, "test=Compare(") then IfStatement(stmt, c) else Ok(c)
      else if Contains(stmt, "Call(func=Name(id='print'") then
        Ok(AddLine(c, "console.log(" + Join(", ", CallArguments(stmt)) + ");"))
      else if Contains(stmt, "Call(func=Name(id='") then Ok(CallStatement(stmt, c))
      else if Contains(stmt, "Return(") then
        var value := ReturnValue(stmt);
        Ok(AddLine(c, if value != "" then "return " + value + ";" else "return;"))
      else if Contains(stmt, "Assign(") then AssignStatement(stmt, c)
      else Ok(c)
  }

  /** The call branch of `_process_statement`: the builtins of
      `SkippedBuiltins` and, in the global scope, `range` are dropped. */
  function CallStatement(stmt: string, c: Conv): (r: Conv)
    requires Contains(stmt, "Call(func=Name(id='")
    ensures Grows(c, r) && r.processed == c.processed
  {
    var name := FirstPiece(SecondPiece(stmt, "Call(func=Name(id='").value, "'");
    var args := CallArguments(stmt);
    if name in SkippedBuiltins then
      if name == "print" then AddLine(c, "console.log(" + Join(", ", args) + ");") else c
    else if name == "range" && c.scope == Global then c
    else AddLine(c, name + "(" + Join(", ", args) + ");")
  }

  /** The assignment branch of `_process_statement`: only a statement with
      `targets=[Name(id='` in it produces a line; the value is the text
      after the first `value=`. */
  function AssignStatement(stmt: string, c: Conv): (r: Result<Conv>)
    ensures r.Ok? ==> Grows(c, r.value) && r.value.processed == c.processed
  {
    if Contains(stmt, "targets=[Name(id='") then
      var name := FirstPiece(SecondPiece(stmt, "targets=[Name(id='").value, "'");
      var valuePart :- SecondPiece(stmt, "value=");
      Ok(AssignLine(c, name, ExpressionNode(valuePart)))
    else Ok(c)
  }

  /** The pieces of an `if` statement's dump: the header line, the text of
      the body and the text after `orelse=`. */
  datatype IfText = IfText(header: string, body: string, orelse: string)

  /** The splits of the `if` branch of `_process_statement`, any of which
      can raise `IndexError`. */
  function IfPieces(stmt: string): (r: Result<IfText>)
    requires Contains(stmt, "test=Compare(")
    ensures r.Ok? ==> |r.value.body| < |stmt| && |r.value.orelse| < |stmt|
  {
    var testPart := SecondPiece(stmt, "test=Compare(").value;
    var leftAfter :- SecondPiece(testPart, "left=");
    var opsAfter :- SecondPiece(testPart, "ops=[");
    var comparatorsAfter :- SecondPiece(testPart, "comparators=[");
    var bodyAfter :- SecondPiece(stmt, "body=[");
    var orelsePart :- SecondPiece(stmt, "orelse=");
    var left := ExpressionNode(FirstPiece(leftAfter, ", ops="));
    var comparators := SplitArgs(FirstPiece(comparatorsAfter, "]"));
    var right := if |comparators| > 0 then ExpressionNode(comparators[0]) else "";
    Ok(IfText(
      "if (" + left + " " + TestSymbol(FirstPiece(opsAfter, "]")) + " " + right + ") {",
      FirstPiece(bodyAfter, "], orelse="),
      orelsePart))
  }

  /** The `if` branch of `_process_statement`: header, body one level in,
      the `else` part and the closing brace. */
  function IfStatement(stmt: string, c: Conv): (r: Result<Conv>)
    requires Contains(stmt, "test=Compare(")
    ensures r.Ok? ==> Grows(c, r.value)
    decreases |stmt|, 3, 0
  {
    var p :- IfPieces(stmt);
    var header := AddLine(c, p.header);
    var afterBody :- Block(SplitStatements(p.body), header, |stmt|);
    GrowsTransitive(c, header, afterBody);
    var afterElse :- ElsePart(p.orelse, afterBody, |stmt|);
    GrowsTransitive(c, afterBody, afterElse);
    Ok(AddLine(afterElse, "}"))
  }

  /** The `else` part of an `if` statement, unless the text after `orelse=`
      is empty or `[]`: the brackets are stripped from both ends of that
      text and what is left is split into statements. */
  function ElsePart(orelse: string, c: Conv, ghost bound: nat): (r: Result<Conv>)
    requires |orelse| < bound
    ensures r.Ok? ==> Grows(c, r.value)
    decreases bound, 2, 0
  {
    if orelse != "" && orelse != "[]" then
      var header := AddLine(c, "} else {");
      var d :- Block(SplitStatements(StripChars(orelse, {'[', ']'})), header, bound);
      GrowsTransitive(c, header, d);
      Ok(d)
    else Ok(c)
  }

  /** A body: its statements one level further in. */
  function Block(stmts: seq<string>, c: Conv, ghost bound: nat): (r: Result<Conv>)
    requires forall k :: 0 <= k < |stmts| ==> |stmts[k]| < bound
    ensures r.Ok? ==> Grows(c, r.value)
    decreases bound, 1, 0
  {
    var d :- ProcessStatements(stmts, c.(indent := c.indent + 1), bound);
    Ok(d.(indent := d.indent - 1))
  }

  /** The statements of a body, in order. */
  function ProcessStatements(stmts: seq<string>, c: Conv, ghost bound: nat): (r: Result<Conv>)
    requires forall k :: 0 <= k < |stmts| ==> |stmts[k]| < bound
    ensures r.Ok? ==> Grows(c, r.value)
    decreases bound, 0, |stmts|
  {
    if stmts == [] then Ok(c)
    else
      var d :- ProcessStatement(stmts[0], c);
      ProcessStatements(stmts[1..], d, bound)
  }

  /** A bound above the length of every statement of a list. */
  ghost function Longest(stmts: seq<string>): (n: nat)
    ensures forall k :: 0 <= k < |stmts| ==> |stmts[k]| < n
  {
    if stmts == [] then 0
    else
      var m := Longest(stmts[1..]);
      if |stmts[0]| < m then m else |stmts[0]| + 1
  }

  /** A body given by the IR. */
  function Body(stmts: seq<string>, c: Conv): (r: Result<Conv>)
    ensures r.Ok? ==> Grows(c, r.value)
  {
    Block(stmts, c, Longest(stmts))
  }

  // ---------------------------------------------------------------------
  // Functions

  /** No function of the list is called `global`, the name the converter
      uses for the top-level scope. */
  predicate NoGlobalName(fs: seq<FunctionRecord>) {
    forall k :: 0 <= k < |fs| ==> fs[k].name != Global
  }

  /** `Grows` without its last clause: what a phase that switches scope
      keeps. */
  predicate Extends(c: Conv, d: Conv) {
    && c.lines <= d.lines
    && c.declared <= d.declared
    && c.processed <= d.processed
    && d.indent == c.indent
    && d.scope == c.scope
  }

  /** `_process_functions`: each function's header, its body one level in
      and in the function's own scope, the closing brace and an empty line.
      The scope and indentation are restored after each function, and the
      statements of a body never declare a variable. */
  function ProcessFunctions(fs: seq<FunctionRecord>, c: Conv): (r: Result<Conv>)
    ensures r.Ok? ==> Extends(c, r.value)
    ensures r.Ok? && NoGlobalName(fs) ==> r.value.declared == c.declared
    decreases |fs|
  {
    if fs == [] then Ok(c)
    else
      var f := fs[0];
      var header := AddLine(c, "function " + f.name + "(" + Join(", ", f.args) + ") {");
      var inside :- Body(f.body, header.(scope := f.name));
      var closed := AddLine(AddLine(inside.(scope := c.scope), "}"), "");
      assert NoGlobalName(fs) ==> NoGlobalName(fs[1..]) && f.name != Global;
      ProcessFunctions(fs[1..], closed)
  }

  // ---------------------------------------------------------------------
  // Loops

  /** The header of a `for` loop over `range(...)`, by the number of
      arguments; any other number gives a loop that never runs. */
  function RangeHeader(target: string, args: seq<string>): (r: string) {
    if |args| == 1 then
      "for (let " + target + " = 0; " + target + " < " + args[0] + "; " + target + "++) {"
    else if |args| == 2 then
      "for (let " + target + " = " + args[0] + "; " + target + " < " + args[1] + "; " + target + "++) {"
    else if |args| == 3 then
      "for (let " + target + " = " + args[0] + "; " + target + " < " + args[1] + "; " + target + " += " + args[2] + ") {"
    else
      "for (let " + target + " = 0; " + target + " < 0; " + target + "++) {"
  }

  /** The header line of a loop record, or `None` for a record that is
      neither a `for` nor a `while` loop. */
  function LoopHeader(l: LoopRecord): (r: Option<string>)
    ensures r.Some? <==> l.kind in {"for", "while"}
  {
    if l.kind == "for" then
      var target := ExtractName(l.target);
      if Contains(l.iter, "Call(func=Name(id='range'") then Some(RangeHeader(target, CallArguments(l.iter)))
      else Some("for (let " + target + " of " + ExpressionNode(l.iter) + ") {")
    else if l.kind == "while" then
      Some("while (" + ExpressionNode(l.condition) + ") {")
    else None
  }

  /** One loop record: header, body one level in, closing brace. */
  function LoopStep(l: LoopRecord, c: Conv): (r: Result<Conv>)
    ensures r.Ok? ==> Grows(c, r.value)
    ensures LoopHeader(l).None? ==> r == Ok(c)
  {
    var header := LoopHeader(l);
    if header.None? then Ok(c)
    else
      var d :- Body(l.body, AddLine(c, header.value));
      Ok(AddLine(d, "}"))
  }

  /** `_process_loops`: each `for` or `while` loop as header, body one
      level in, closing brace; records of any other type are skipped. */
  function ProcessLoops(ls: seq<LoopRecord>, c: Conv): (r: Result<Conv>)
    ensures r.Ok? ==> Grows(c, r.value)
    decreases |ls|
  {
    if ls == [] then Ok(c)
    else
      var next :- LoopStep(ls[0], c);
      ProcessLoops(ls[1..], next)
  }

  // ---------------------------------------------------------------------
  // What a range loop counts through

  /** The `range` call with these arguments; Python accepts one to three. */
  function RangeCallOf<T>(args: seq<T>): (r: Option<JsRange.RangeCall<T>>)
    ensures r.Some? <==> 1 <= |args| <= 3
  {
    if |args| == 1 then Some(JsRange.Range1(args[0]))
    else if |args| == 2 then Some(JsRange.Range2(args[0], args[1]))
    else if |args| == 3 then Some(JsRange.Range3(args[0], args[1], args[2]))
    else None
  }

  /** The start, bound and step of a counting `for` loop; no step means
      `++`. */
  datatype Counting<T> = Counting(start: T, stop: T, step: Option<T>)

  /** The counting loop written for a `range` call: a missing start is
      `zero`, and a call the converter cannot place counts from `zero` to
      `zero`. */
  function CountingOf<T>(rc: Option<JsRange.RangeCall<T>>, zero: T): Counting<T> {
    match rc
    case None => Counting(zero, zero, None)
    case Some(Range1(stop)) => Counting(zero, stop, None)
    case Some(Range2(start, stop)) => Counting(start, stop, None)
    case Some(Range3(start, stop, step)) => Counting(start, stop, Some(step))
  }

  /** The JavaScript header of a counting loop. */
  function CountingHeader(target: string, b: Counting<string>): string {
    "for (let " + target + " = " + b.start + "; " + target + " < " + b.stop + "; "
      + (if b.step.None? then target + "++" else target + " += " + b.step.value) + ") {"
  }

  /** Each arity of the header is the counting loop of the `range` call. */
  lemma RangeHeaderCounts(target: string, args: seq<string>)
    ensures RangeHeader(target, args) == CountingHeader(target, CountingOf(RangeCallOf(args), "0"))
  {
    if |args| == 1 {
      RangeHeaderOne(target, args);
    } else if |args| == 2 {
      RangeHeaderTwo(target, args);
    } else if |args| == 3 {
      RangeHeaderThree(target, args);
    } else {
      RangeHeaderOther(target, args);
    }
  }

  lemma RangeHeaderOne(target: string, args: seq<string>)
    requires |args| == 1
    ensures RangeHeader(target, args) == CountingHeader(target, CountingOf(RangeCallOf(args), "0"))
  {
    assert CountingOf(RangeCallOf(args), "0") == Counting("0", args[0], None);
    CountingHeaderUp(target, "0", args[0]);
  }

  lemma RangeHeaderTwo(target: string, args: seq<string>)
    requires |args| == 2
    ensures RangeHeader(target, args) == CountingHeader(target, CountingOf(RangeCallOf(args), "0"))
  {
    assert CountingOf(RangeCallOf(args), "0") == Counting(args[0], args[1], None);
    CountingHeaderUp(target, args[0], args[1]);
  }

  lemma RangeHeaderThree(target: string, args: seq<string>)
    requires |args| == 3
    ensures RangeHeader(target, args) == CountingHeader(target, CountingOf(RangeCallOf(args), "0"))
  {
    assert CountingOf(RangeCallOf(args), "0") == Counting(args[0], args[1], Some(args[2]));
    CountingHeaderStep(target, args[0], args[1], args[2]);
  }

  lemma RangeHeaderOther(target: string, args: seq<string>)
    requires !(1 <= |args| <= 3)
    ensures RangeHeader(target, args) == CountingHeader(target, CountingOf(RangeCallOf(args), "0"))
  {
    assert CountingOf(RangeCallOf(args), "0") == Counting("0", "0", None);
    CountingHeaderUp(target, "0", "0");
  }

  lemma CountingHeaderUp(target: string, start: string, stop: string)
    ensures CountingHeader(target, Counting(start, stop, None))
      == "for (let " + target + " = " + start + "; " + target + " < " + stop + "; " + target + "++) {"
  {
    var head := "for (let " + target + " = " + start + "; " + target + " < " + stop + "; ";
    assert head + (target + "++") + ") {" == head + target + "++) {";
  }

  lemma CountingHeaderStep(target: string, start: string, stop: string, step: string)
    ensures CountingHeader(target, Counting(start, stop, Some(step)))
      == "for (let " + target + " = " + start + "; " + target + " < " + stop + "; " + target + " += " + step + ") {"
  {
    var head := "for (let " + target + " = " + start + "; " + target + " < " + stop + "; ";
    assert head + (target + " += " + step) + ") {" == head + target + " += " + step + ") {";
  }

  /** The loop terminates: it counts up, or does not run at all. */
  predicate Ends(b: Counting<int>) {
    b.step.None? || b.step.value > 0 || b.start >= b.stop
  }

  /** The values a terminating counting loop gives its variable. */
  function LoopValues(b: Counting<int>): (r: seq<int>)
    requires Ends(b)
  {
    JsRange.CountingValues(b.start, b.stop, if b.step.None? then 1 else b.step.value)
  }

  /** The loop written for `range(...)` with a positive step (or none)
      visits what Python's `range` does. */
  lemma RangeLoopAgrees(rc: JsRange.RangeCall<int>)
    requires rc.Range3? ==> rc.step > 0
    ensures Ends(CountingOf(Some(rc), 0))
    ensures LoopValues(CountingOf(Some(rc), 0)) == JsRange.PyRangeOf(rc)
  {
    match rc
    case Range1(stop) => JsRange.CountingAgrees(0, stop, 1);
    case Range2(start, stop) => JsRange.CountingAgrees(start, stop, 1);
    case Range3(start, stop, step) => JsRange.CountingAgrees(start, stop, step);
  }

  /** A negative step is lost: the loop tests `t < stop`, so where Python's
      `range` counts down the loop does not run. */
  lemma NegativeStepSkipped(start: int, stop: int, step: int)
    requires step < 0 && start > stop
    ensures Ends(CountingOf(Some(JsRange.Range3(start, stop, step)), 0))
    ensures LoopValues(CountingOf(Some(JsRange.Range3(start, stop, step)), 0)) == []
    ensures JsRange.PyRange(start, stop, step) != []
  {
  }

  /** A `range` call with no arguments or more than three gives a loop that
      does not run. */
  lemma OtherArityRunsNever(args: seq<int>)
    requires RangeCallOf(args).None?
    ensures Ends(CountingOf(RangeCallOf(args), 0)) && LoopValues(CountingOf(RangeCallOf(args), 0)) == []
  {
  }

  /** The counting loop over integer arguments, written out as text. */
  function CountingText(b: Counting<int>): (r: Counting<string>)
    ensures r.step.Some? <==> b.step.Some?
  {
    Counting(IntToString(b.start), IntToString(b.stop),
      if b.step.None? then None else Some(IntToString(b.step.value)))
  }

  /** The decimal texts of integers. */
  function IntTexts(xs: seq<int>): (r: seq<string>)
    ensures |r| == |xs| && forall k :: 0 <= k < |xs| ==> r[k] == IntToString(xs[k])
  {
    seq(|xs|, k requires 0 <= k < |xs| => IntToString(xs[k]))
  }

  /** Integer arguments read back as their decimal text (`IntDumpRead`)
      give the header of the counting loop of the integer call. */
  lemma RangeHeaderOfIntegers(target: string, args: seq<int>)
    ensures RangeHeader(target, IntTexts(args)) == CountingHeader(target, CountingText(CountingOf(RangeCallOf(args), 0)))
  {
    RangeHeaderCounts(target, IntTexts(args));
    assert IntToString(0) == "0" by { assert NatToString(0) == "0"; }
  }

  // ---------------------------------------------------------------------
  // Variables

  /** The record is an assignment with a target, not an augmented one. */
  predicate PlainAssignment(v: VariableRecord) {
    |v.targets| > 0 && v.kind != "augassign"
  }

  /** The names the plain assignments of a list assign. */
  function AssignedNames(vs: seq<VariableRecord>): (r: set<string>)
    decreases |vs|
  {
    if vs == [] then {}
    else (if PlainAssignment(vs[0]) then {ExtractName(vs[0].targets[0])} else {}) + AssignedNames(vs[1..])
  }

  /** One record of `_process_variables`. A plain assignment is a `let`
      exactly when its name is not declared yet, and then declares it; an
      augmented assignment never declares. */
  function VariableStep(v: VariableRecord, c: Conv): (r: Conv)
    ensures Extends(c, r) && r.processed == c.processed
    ensures |r.lines| == |c.lines| + (if |v.targets| > 0 then 1 else 0)
    ensures r.declared == c.declared + (if PlainAssignment(v) then {ExtractName(v.targets[0])} else {})
    ensures PlainAssignment(v) ==>
      (ExtractName(v.targets[0]) !in c.declared <==>
       r.lines[|c.lines|] == Spaces(2 * c.indent) + LetText(ExtractName(v.targets[0]), ProcessValue(v.value)))
  {
    if |v.targets| == 0 then c
    else
      var name := ExtractName(v.targets[0]);
      var value := ProcessValue(v.value);
      if v.kind == "augassign" then AddLine(c, name + " " + AugOperator(v.op) + " " + value + ";")
      else if name in c.declared then
        var d := AddLine(c, BareText(name, value));
        assert |Spaces(2 * c.indent) + BareText(name, value)| < |Spaces(2 * c.indent) + LetText(name, value)|;
        d
      else AddLine(c, LetText(name, value)).(declared := c.declared + {name})
  }

  /** `_process_variables`: the records in order. Every name a plain
      assignment assigns ends up declared, and no other. */
  function ProcessVariables(vs: seq<VariableRecord>, c: Conv): (r: Conv)
    ensures Extends(c, r) && r.processed == c.processed
    ensures r.declared == c.declared + AssignedNames(vs)
    decreases |vs|
  {
    if vs == [] then c else ProcessVariables(vs[1..], VariableStep(vs[0], c))
  }

  // ---------------------------------------------------------------------
  // Conditionals

  /** The header of one clause of a chain; a clause of any other type has
      none, though its body and closing brace are still written. */
  function ClauseHeader(cl: ConditionalRecord): (r: Option<string>)
    ensures r.Some? <==> cl.kind in {"if", "elif", "else"}
  {
    if cl.kind == "if" then Some("if (" + ExpressionNode(cl.test) + ") {")
    else if cl.kind == "elif" then Some("else if (" + ExpressionNode(cl.test) + ") {")
    else if cl.kind == "else" then Some("else {")
    else None
  }

  /** The clauses of one chain: header, body one level in, closing brace. */
  function ProcessClauses(cls: seq<ConditionalRecord>, c: Conv): (r: Result<Conv>)
    ensures r.Ok? ==> Grows(c, r.value)
    decreases |cls|
  {
    if cls == [] then Ok(c)
    else
      var header := ClauseHeader(cls[0]);
      var start := if header.Some? then AddLine(c, header.value) else c;
      var d :- Body(cls[0].body, start);
      ProcessClauses(cls[1..], AddLine(d, "}"))
  }

  function ProcessChains(chains: seq<Chain>, c: Conv): (r: Result<Conv>)
    ensures r.Ok? ==> Grows(c, r.value)
    decreases |chains|
  {
    if chains == [] then Ok(c)
    else
      var next :- if chains[0].Chain? then ProcessClauses(chains[0].clauses, c) else Ok(c);
      ProcessChains(chains[1..], next)
  }

  /** `_process_conditionals`: nothing at all outside the global scope. */
  function ProcessConditionals(chains: seq<Chain>, c: Conv): (r: Result<Conv>)
    ensures r.Ok? ==> Grows(c, r.value)
    ensures c.scope != Global ==> r == Ok(c)
  {
    if c.scope != Global then Ok(c) else ProcessChains(chains, c)
  }

  // ---------------------------------------------------------------------
  // Expressions

  /** The builtins that end `_process_expressions`. */
  const CallBuiltins: set<string> := {"print", "len", "str", "int", "float", "range"}

  /** `_format_call_args` for one argument. */
  function FormatArg(a: CallArg): (r: string)
    ensures a.ConstantArg? ==> r == LiteralText(a.constant)
    ensures a.NameArg? ==> r == a.id
    ensures a.OtherArg? ==> r == ExpressionNode(a.text)
  {
    match a
    case ConstantArg(k) => LiteralText(k)
    case NameArg(id) => id
    case OtherArg(text) => ExpressionNode(text)
  }

  /** `_format_call_args`: one text per argument, in order. A string
      constant is single-quoted, a boolean or `None` is written as Python
      spells it (`True`, `False`, `None`), an integer in decimal, a name
      as its identifier, and anything else is read as a dump. */
  function FormatArgs(args: seq<CallArg>): (r: seq<string>)
    ensures |r| == |args|
    ensures forall k :: 0 <= k < |args| ==> r[k] == FormatArg(args[k])
    ensures forall k :: 0 <= k < |args| && args[k].ConstantArg? && args[k].constant.StrConst? ==>
      r[k] == "'" + args[k].constant.s + "'"
    ensures forall k :: 0 <= k < |args| && args[k].ConstantArg? && args[k].constant.BoolConst? ==>
      r[k] == (if args[k].constant.b then "True" else "False")
    ensures forall k :: 0 <= k < |args| && args[k].ConstantArg? && args[k].constant.NoneConst? ==> r[k] == "None"
    ensures forall k :: 0 <= k < |args| && args[k].ConstantArg? && args[k].constant.IntConst? ==>
      r[k] == IntToString(args[k].constant.i)
    ensures forall k :: 0 <= k < |args| && args[k].NameArg? ==> r[k] == args[k].id
    ensures forall k :: 0 <= k < |args| && args[k].OtherArg? ==> r[k] == ExpressionNode(args[k].text)
  {
    seq(|args|, k requires 0 <= k < |args| => FormatArg(args[k]))
  }

  /** The loop of `_process_expressions`. A call of a user function is
      written out; the first call of a builtin (printed, for `print`) ends
      the whole loop; other records are skipped. */
  function ProcessCalls(es: seq<ExpressionRecord>, c: Conv): (r: Conv)
    ensures Grows(c, r) && r.declared == c.declared && r.processed == c.processed
    decreases |es|
  {
    if es == [] then c
    else
      var e := es[0];
      if e.kind != "call" then ProcessCalls(es[1..], c)
      else if e.func in CallBuiltins then
        if e.func == "print" then AddLine(c, "console.log(" + Join(", ", FormatArgs(e.args)) + ");") else c
      else ProcessCalls(es[1..], AddLine(c, e.func + "(" + Join(", ", FormatArgs(e.args)) + ");"))
  }

  /** `_process_expressions`: nothing at all outside the global scope. */
  function ProcessExpressions(es: seq<ExpressionRecord>, c: Conv): (r: Conv)
    ensures Grows(c, r) && r.declared == c.declared && r.processed == c.processed
    ensures c.scope != Global ==> r == c
  {
    if c.scope != Global then c else ProcessCalls(es, c)
  }

  // ---------------------------------------------------------------------
  // The whole conversion

  /** The state after functions, loops and variables: back in the global
      scope at indentation 0. */
  function FirstPhases(ir: Ir): (r: Result<Conv>)
    ensures r.Ok? ==> r.value.scope == Global && r.value.indent == 0
  {
    var afterFunctions :- ProcessFunctions(ir.functions, Initial);
    var afterLoops :- ProcessLoops(ir.loops, afterFunctions);
    Ok(ProcessVariables(ir.variables, afterLoops))
  }

  /** `convert`: the five phases in order, then the lines joined by
      newlines. */
  function ConvertState(ir: Ir): (r: Result<Conv>)
    ensures r.Ok? ==> r.value.scope == Global && r.value.indent == 0
  {
    var c :- FirstPhases(ir);
    var d :- ProcessConditionals(ir.conditionals, c);
    Ok(ProcessExpressions(ir.expressions, d))
  }

  function Convert(ir: Ir): (r: Result<string>)
    ensures r.Ok? <==> ConvertState(ir).Ok?
    ensures r.Ok? ==> r.value == Join("\n", ConvertState(ir).value.lines)
  {
    var c :- ConvertState(ir);
    Ok(Join("\n", c.lines))
  }
}
