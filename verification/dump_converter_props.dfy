/** Properties of the IR converter that relate several of its steps:
    duplicate statements, repeated function bodies, `let` placement, the
    early end of the expressions list, the `else` branch an `if` without
    one still receives, the layout of the output, and the grouping that
    structured values lose. */
module DumpConverterProperties {
  import opened Results
  import opened Strings
  import opened DepthSplit
  import opened PyAst
  import opened DumpText
  import opened DumpConverter

  /** Every statement of the list has been processed before. */
  predicate AllProcessed(stmts: seq<string>, c: Conv) {
    forall k :: 0 <= k < |stmts| ==> stmts[k] in c.processed
  }

  /** Statements seen before produce nothing and change nothing. */
  lemma {:induction false} ProcessedStatementsSkipped(stmts: seq<string>, c: Conv, bound: nat)
    requires forall k :: 0 <= k < |stmts| ==> |stmts[k]| < bound
    requires AllProcessed(stmts, c)
    ensures ProcessStatements(stmts, c, bound) == Ok(c)
    decreases |stmts|
  {
    if stmts != [] {
      assert stmts[0] in c.processed;
      assert AllProcessed(stmts[1..], c) by {
        forall k | 0 <= k < |stmts[1..]| ensures stmts[1..][k] in c.processed {
          assert stmts[1..][k] == stmts[k + 1];
        }
      }
      ProcessedStatementsSkipped(stmts[1..], c, bound);
    }
  }

  /** A statement repeated in a body is converted once: the second copy is
      dropped. */
  lemma DuplicateStatementDropped(s: string, c: Conv, bound: nat)
    requires |s| < bound
    ensures ProcessStatements([s, s], c, bound) == ProcessStatement(s, c)
  {
    assert [s, s][1..] == [s] && [s][1..] == [];
    var r := ProcessStatement(s, c);
    if r.Ok? {
      var d := r.value;
      assert ProcessStatement(s, d) == Ok(d);
      assert ProcessStatements([s], d, bound) == Ok(d);
    } else {
      assert r == Err(r.error);
    }
  }

  /** A function whose statements all occurred earlier (in any earlier
      function or block) is written with an empty body. */
  lemma RepeatedBodyEmitsNothing(f: FunctionRecord, c: Conv)
    requires AllProcessed(f.body, c)
    ensures ProcessFunctions([f], c) == Ok(AddLine(AddLine(AddLine(c, "function " + f.name + "(" + Join(", ", f.args) + ") {"), "}"), ""))
  {
    var header := AddLine(c, "function " + f.name + "(" + Join(", ", f.args) + ") {");
    var inner := header.(scope := f.name).(indent := header.indent + 1);
    assert AllProcessed(f.body, inner);
    ProcessedStatementsSkipped(f.body, inner, Longest(f.body));
    assert Body(f.body, header.(scope := f.name)) == Ok(header.(scope := f.name));
    assert [f][1..] == [];
  }

  /** Two plain assignments to one undeclared name: a `let` and then a bare
      assignment. */
  lemma LetThenBare(v1: VariableRecord, v2: VariableRecord, c: Conv)
    requires PlainAssignment(v1) && PlainAssignment(v2) && v1.targets[0] == v2.targets[0]
    requires ExtractName(v1.targets[0]) !in c.declared
    ensures var name := ExtractName(v1.targets[0]);
      ProcessVariables([v1, v2], c).lines == c.lines + [
        Spaces(2 * c.indent) + LetText(name, ProcessValue(v1.value)),
        Spaces(2 * c.indent) + BareText(name, ProcessValue(v2.value))]
  {
    var name := ExtractName(v1.targets[0]);
    var c1 := VariableStep(v1, c);
    var c2 := VariableStep(v2, c1);
    assert [v1, v2][1..] == [v2] && [v2][1..] == [];
    assert ProcessVariables([v2], c1) == ProcessVariables([], c2) == c2;
    assert ProcessVariables([v1, v2], c) == c2;
    assert name in c1.declared;
    assert c2.lines[|c1.lines|] != Spaces(2 * c1.indent) + LetText(name, ProcessValue(v2.value));
    assert c2.lines[|c1.lines|] == Spaces(2 * c.indent) + BareText(name, ProcessValue(v2.value));
  }

  /** A call of a builtin other than `print` in the expressions list ends
      that list: nothing after it is written. */
  lemma BuiltinEndsExpressions(e: ExpressionRecord, rest: seq<ExpressionRecord>, c: Conv)
    requires e.kind == "call" && e.func in CallBuiltins && e.func != "print"
    requires c.scope == Global
    ensures ProcessExpressions([e] + rest, c) == c
  {
    assert ([e] + rest)[0] == e;
  }

  /** Stripping brackets from `[])` leaves the parenthesis. */
  lemma StripOrelseBrackets()
    ensures StripChars("[])", {'[', ']'}) == ")"
  {
    assert StripLeft("[])", {'[', ']'}) == StripLeft("])", {'[', ']'}) == StripLeft(")", {'[', ']'}) == ")";
  }

  /** A lone `)` is one statement. */
  lemma SplitLoneParen()
    ensures SplitStatements(")") == [")"]
  {
    assert ")"[1..] == [];
    assert StmtRun(Scan(0, "", []), ")") == StmtRun(StmtStep(Scan(0, "", []), ')'), "") == Scan(-1, ")", []);
    StripUnchanged(")");
  }

  /** ... which the statement handler records and otherwise ignores. */
  lemma LoneParenIgnored(c: Conv)
    requires ")" !in c.processed
    ensures ProcessStatement(")", c) == Ok(c.(processed := c.processed + {")"}))
  {
    MissingChar(")", "If(", 'I');
    MissingChar(")", "Call(func=Name(id='print'", 'C');
    MissingChar(")", "Call(func=Name(id='", 'C');
    MissingChar(")", "Return(", 'R');
    MissingChar(")", "Assign(", 'A');
  }

  /** The `orelse=[])` that ends the dump of an `if` without an `else`
      leaves `[])` after the split, which is neither empty nor `[]`: an
      `} else {` line is written, and the lone `)` is processed as a
      statement that produces nothing. */
  lemma EmptyOrelseStillEmitsElse(c: Conv, bound: nat)
    requires bound > 3 && ")" !in c.processed
    ensures ElsePart("[])", c, bound) ==
      Ok(AddLine(c, "} else {").(processed := c.processed + {")"}))
  {
    StripOrelseBrackets();
    SplitLoneParen();
    LoneParenBlock(AddLine(c, "} else {"), bound);
  }

  /** A block holding only the lone `)` records it and writes nothing. */
  lemma LoneParenBlock(c: Conv, bound: nat)
    requires bound > 1 && ")" !in c.processed
    ensures Block([")"], c, bound) == Ok(c.(processed := c.processed + {")"}))
  {
    var inner := c.(indent := c.indent + 1);
    LoneParenIgnored(inner);
    var after := inner.(processed := inner.processed + {")"});
    assert [")"][1..] == [];
    assert ProcessStatements([")"], inner, bound) == ProcessStatements([], after, bound) == Ok(after);
  }

  /** Joined lines begin with the first line. */
  lemma JoinStartsWithFirst(sep: string, parts: seq<string>)
    requires |parts| > 0
    ensures StartsWith(Join(sep, parts), parts[0])
  {
  }

  /** The output of a conversion that has functions begins with the header
      of the first function: the phases only ever append. */
  lemma ConvertBeginsWithFirstFunction(ir: Ir)
    requires |ir.functions| > 0 && Convert(ir).Ok?
    ensures var f := ir.functions[0];
      StartsWith(Convert(ir).value, "function " + f.name + "(" + Join(", ", f.args) + ") {")
  {
    var f := ir.functions[0];
    var line := "function " + f.name + "(" + Join(", ", f.args) + ") {";
    var header := AddLine(Initial, line);
    FirstLine(line);
    var inside := Body(f.body, header.(scope := f.name)).value;
    var closed := AddLine(AddLine(inside.(scope := Global), "}"), "");
    var afterFunctions := ProcessFunctions(ir.functions, Initial).value;
    assert afterFunctions == ProcessFunctions(ir.functions[1..], closed).value;
    var afterLoops := ProcessLoops(ir.loops, afterFunctions).value;
    var c := FirstPhases(ir).value;
    assert c == ProcessVariables(ir.variables, afterLoops);
    var d := ProcessConditionals(ir.conditionals, c).value;
    var e := ConvertState(ir).value;
    assert e == ProcessExpressions(ir.expressions, d);
    assert inside.lines[0] == line;
    assert closed.lines[0] == line;
    assert afterFunctions.lines[0] == line;
    assert afterLoops.lines[0] == line;
    assert c.lines[0] == line;
    assert d.lines[0] == line;
    assert e.lines[0] == line;
    JoinStartsWithFirst("\n", e.lines);
  }

  /** The first line of a fresh conversion is not indented. */
  lemma FirstLine(line: string)
    ensures AddLine(Initial, line).lines == [line]
  {
    assert Initial.lines == [] && Initial.indent == 0;
    var pad := Spaces(2 * Initial.indent);
    assert pad == [];
    assert pad + line == line;
    assert Initial.lines + [pad + line] == [line];
  }

  /** A structured value is written without parentheses, so a right operand
      that is itself an operation loses its grouping: `a - (b - c)` and
      `(a - b) - c` give the same text, which JavaScript reads as the
      second. */
  lemma GroupingLost(a: string, b: string, c: string)
    ensures ProcessValue(BinaryOperation(NameValue(a), "Sub", BinaryOperation(NameValue(b), "Sub", NameValue(c))))
         == ProcessValue(BinaryOperation(BinaryOperation(NameValue(a), "Sub", NameValue(b)), "Sub", NameValue(c)))
  {
    assert BinOpSymbol("Sub") == "-";
  }

  /** The statement handler and `_process_variables` agree on `let`: in the
      global scope an assignment statement declares its name exactly when
      a variables record would. */
  lemma StatementAndRecordDeclareAlike(c: Conv, name: string, value: string)
    requires c.scope == Global
    ensures AssignLine(c, name, value).declared == c.declared + {name}
    ensures (name !in c.declared) <==>
      AssignLine(c, name, value).lines[|c.lines|] == Spaces(2 * c.indent) + LetText(name, value)
  {
    var r := AssignLine(c, name, value);
    if name !in c.declared {
      assert r.lines[|c.lines|] == Spaces(2 * c.indent) + LetText(name, value);
    } else {
      assert |Spaces(2 * c.indent) + BareText(name, value)| < |Spaces(2 * c.indent) + LetText(name, value)|;
    }
  }

  /** The structured value and the dump string of the same expression
      agree on variables, integers and plain strings; on an operation they
      part: the dump reader keeps only the left operand, the structured
      form keeps the operator and the right operand as well. */
  lemma ValueFormsAgree(x: string, y: string, i: int, s: string, op: string)
    requires IsName(x) && IsName(y) && PlainText(s)
    ensures ProcessValue(NameValue(x)) == ProcessValue(DumpValue(NameDump(x)))
    ensures ProcessValue(ConstantValue(IntConst(i))) == ProcessValue(DumpValue(IntDump(i)))
    ensures ProcessValue(ConstantValue(StrConst(s))) == ProcessValue(DumpValue(StrDump(s)))
    ensures ProcessValue(DumpValue(BinOpDump(NameDump(x), op, NameDump(y)))) == x
    ensures ProcessValue(BinaryOperation(NameValue(x), op, NameValue(y)))
         != ProcessValue(DumpValue(BinOpDump(NameDump(x), op, NameDump(y))))
  {
    NameDumpRead(x);
    IntDumpRead(i);
    StrDumpRead(s);
    BinOpKeepsLeftName(x, op, NameDump(y));
    assert |ProcessValue(BinaryOperation(NameValue(x), op, NameValue(y)))| > |x|;
  }

  /** The same holds for call arguments: a name or constant dictionary and
      the dump of the same expression give one text. */
  lemma ArgFormsAgree(x: string, i: int, s: string)
    requires IsName(x) && PlainText(s)
    ensures FormatArg(NameArg(x)) == FormatArg(OtherArg(NameDump(x)))
    ensures FormatArg(ConstantArg(IntConst(i))) == FormatArg(OtherArg(IntDump(i)))
    ensures FormatArg(ConstantArg(StrConst(s))) == FormatArg(OtherArg(StrDump(s)))
  {
    NameDumpRead(x);
    IntDumpRead(i);
    StrDumpRead(s);
  }

  /** `ast.dump` of a `return` statement with value dump `v`. */
  function ReturnDump(v: string): string {
    "Return(value=" + v + ")"
  }

  /** A `return` whose value text has no `value=` field of its own, and is
      not `None`, writes what the expression reader makes of that text. */
  lemma ReturnOfField(t: string)
    requires !StartsWith(t, "None") && !Contains(t, "value=")
    ensures ReturnValue("Return(value=" + t) == ExpressionNode(t)
  {
    ReturnFieldCut(t);
  }

  /** For such a text the statement has a `value=` field, is not a
      `value=None` return, and its second `value=` piece is the text. */
  lemma ReturnFieldCut(t: string)
    requires !StartsWith(t, "None") && !Contains(t, "value=")
    ensures Contains("Return(value=" + t, "value=")
    ensures !Contains("Return(value=" + t, "value=None")
    ensures SecondPiece("Return(value=" + t, "value=") == Ok(t)
  {
    var s := "Return(value=" + t;
    assert s == "Return(" + "value=" + t;
    FindAfterPrefix("Return(", "value=", t);
    SecondPieceAfterPrefix("Return(", "value=", t);
    forall f: nat ensures !OccursAt(s, "value=None", f) {
      NoneFieldNotAt(t, f);
    }
    ContainsIff(s, "value=None");
  }

  lemma NoneFieldNotAt(t: string, f: nat)
    requires !StartsWith(t, "None") && !Contains(t, "value=")
    ensures !OccursAt("Return(value=" + t, "value=None", f)
  {
    var s := "Return(value=" + t;
    if f + 10 > |s| {
    } else if f < 13 && f != 7 {
      assert s[f] == "Return(value="[f] != 'v';
      assert s[f..f + 10][0] == s[f];
    } else if f == 7 {
      assert s[f..f + 10][6..] == s[13..17] == t[..4] != "None";
    } else {
      assert Find(t, "value=").None? && !OccursAt(t, "value=", f - 13);
      assert s[f..f + 6] == t[f - 13..f - 7] != "value=";
      assert s[f..f + 10][..6] == s[f..f + 6];
    }
  }

  /** `return x` writes `x`: the value text is the name's dump. */
  lemma ReturnNameRead(x: string)
    requires IsName(x)
    ensures ReturnValue(ReturnDump(NameDump(x))) == x
  {
    var t := NameDump(x) + ")";
    assert ReturnDump(NameDump(x)) == "Return(value=" + t;
    NameDumpHasNoValueField(x);
    assert t == "" + NamePrefix + x + "'" + ", ctx=Load()))";
    FirstNameWins("", x, ", ctx=Load()))");
    ReturnOfField(t);
  }

  /** The dump of a name has no `value=` field: each of its two `=` signs
      follows a `d` or an `x`, never the `e` of `value`. */
  lemma NameDumpHasNoValueField(x: string)
    requires IsName(x)
    ensures !StartsWith(NameDump(x) + ")", "None")
    ensures !Contains(NameDump(x) + ")", "value=")
  {
    var t := NameDump(x) + ")";
    assert t[1] == 'a';
    forall f: nat ensures !OccursAt(t, "value=", f) {
      ValueFieldNotAt(x, f);
    }
    ContainsIff(t, "value=");
  }

  lemma ValueFieldNotAt(x: string, f: nat)
    requires IsName(x)
    ensures !OccursAt(NameDump(x) + ")", "value=", f)
  {
    var t := NameDump(x) + ")";
    var tail := "', ctx=Load()))";
    assert t == NamePrefix + x + tail;
    if f + 6 <= |t| {
      var p := f + 5;
      if p < 9 {
        assert t[p] == NamePrefix[p] && t[p - 1] == NamePrefix[p - 1];
        assert t[p] != '=' || t[p - 1] != 'e';
      } else if p < 9 + |x| {
        assert t[p] == x[p - 9] && IsNameChar(x[p - 9]);
        assert t[p] != '=';
      } else if p == 15 + |x| {
        assert t[p - 1] == tail[5] == 'x';
      } else {
        assert t[p] == tail[p - 9 - |x|] != '=';
      }
      assert t[f..f + 6][5] == t[p] && t[f..f + 6][4] == t[p - 1];
    }
  }

  /** `return 5` writes a comment: `split("value=")[1]` stops at the
      constant's own `value=` field, so the reader gets `Constant(`. */
  lemma ReturnConstantCut(i: int)
    ensures ReturnValue(ReturnDump(IntDump(i))) == "/* Unprocessed: Constant( */"
  {
    var digits := IntToString(i);
    forall k | 0 <= k < |digits| ensures digits[k] != 'N' {
      assert k == 0 ==> i >= 0 || digits[0] == '-';
    }
    assert 'N' !in "Constant" && '=' !in "Constant" && 'B' !in "Constant" && 'm' !in "Constant";
    ReturnNodeCut("Constant", digits);
    ConstantSpelling(digits);
  }

  /** The dump of an integer constant as a node of kind `Constant`, and
      the comment for its cut text. */
  lemma ConstantSpelling(digits: string)
    ensures "Constant(value=" + digits + ")" == "Constant" + "(value=" + digits + ")"
    ensures "/* Unprocessed: " + ("Constant" + "(") + " */" == "/* Unprocessed: Constant( */"
  {
  }

  /** A `return` of a node `kind(value=v)` whose kind the reader does not
      know writes `kind(` in a comment: the statement's second `value=`
      piece ends where the node's own `value=` field begins. */
  lemma ReturnNodeCut(kind: string, v: string)
    requires kind != [] && kind[0] != '\''
    requires 'N' !in kind && '=' !in kind && 'B' !in kind && 'm' !in kind && 'N' !in v
    ensures ReturnValue(ReturnDump(kind + "(value=" + v + ")")) == "/* Unprocessed: " + (kind + "(") + " */"
  {
    NodeReturnPieces(kind, v);
    var cut := kind + "(";
    assert cut[0] == kind[0];
    CutTextCommented(cut);
  }

  /** The statement of such a `return` has a `value=` field, is not a
      `value=None` return, and its second `value=` piece is `kind(`. */
  lemma NodeReturnPieces(kind: string, v: string)
    requires '=' !in kind && 'N' !in kind && 'N' !in v
    ensures Contains(ReturnDump(kind + "(value=" + v + ")"), "value=")
    ensures !Contains(ReturnDump(kind + "(value=" + v + ")"), "value=None")
    ensures SecondPiece(ReturnDump(kind + "(value=" + v + ")"), "value=") == Ok(kind + "(")
  {
    var rest := v + "))";
    var t := kind + "(" + "value=" + rest;
    NodeReturnShape(kind, v);
    FindAfterPrefix("Return(", "value=", t);
    SecondPieceAfterPrefix("Return(", "value=", t);
    FindAfterPrefix(kind + "(", "value=", rest);
    assert t[..|kind| + 1] == kind + "(";
    MissingChar(ReturnDump(kind + "(value=" + v + ")"), "value=None", 'N');
  }

  /** The statement of a node's `return`, cut at its two `value=` fields;
      it has a capital `N` only where the kind or the value text has. */
  lemma NodeReturnShape(kind: string, v: string)
    ensures ReturnDump(kind + "(value=" + v + ")") == "Return(" + "value=" + (kind + "(" + "value=" + (v + "))"))
    ensures 'N' in ReturnDump(kind + "(value=" + v + ")") <==> 'N' in kind || 'N' in v
  {
    var s := "Return(" + "value=" + (kind + "(" + "value=" + (v + "))"));
    assert 'N' !in "Return(" && 'N' !in "value=" && 'N' !in "(" && 'N' !in "))";
    assert 'N' in s <==> 'N' in kind || 'N' in v;
  }

  /** A text with no `N`, `=`, `B` or `m` in it, and not opening with a
      quote, has none of the node names the reader looks for, so it is
      kept inside a comment. */
  lemma CutTextCommented(e: string)
    requires e != [] && e[0] != '\''
    requires 'N' !in e && '=' !in e && 'B' !in e && 'm' !in e
    ensures ExpressionNode(e) == "/* Unprocessed: " + e + " */"
  {
    MissingChar(e, NamePrefix, 'N');
    MissingChar(e, "Constant(value=", '=');
    MissingChar(e, "BinOp(", 'B');
    MissingChar(e, "Compare(", 'm');
  }

  /** `convert` runs its phases in order, each on the state the previous
      one left: it succeeds exactly when the functions, the loops (after
      the functions) and the conditionals (after the variables) do; the
      lines of each phase then follow all lines of the phases before it,
      and the output is the last state's lines joined by newlines. */
  lemma ConvertPhases(ir: Ir)
    ensures Convert(ir).Ok? <==>
      && ProcessFunctions(ir.functions, Initial).Ok?
      && ProcessLoops(ir.loops, ProcessFunctions(ir.functions, Initial).value).Ok?
      && ProcessConditionals(ir.conditionals,
           ProcessVariables(ir.variables, ProcessLoops(ir.loops, ProcessFunctions(ir.functions, Initial).value).value)).Ok?
    ensures Convert(ir).Ok? ==>
      var f := ProcessFunctions(ir.functions, Initial).value;
      var l := ProcessLoops(ir.loops, f).value;
      var v := ProcessVariables(ir.variables, l);
      var d := ProcessConditionals(ir.conditionals, v).value;
      var e := ProcessExpressions(ir.expressions, d);
      && f.lines <= l.lines <= v.lines <= d.lines <= e.lines
      && Convert(ir) == Ok(Join("\n", e.lines))
  {
  }

  /** Hence what the functions list produces does not depend on the other
      lists: two conversions with the same functions begin with the same
      lines. */
  lemma FunctionsFirst(ir1: Ir, ir2: Ir)
    requires ir1.functions == ir2.functions && ConvertState(ir1).Ok? && ConvertState(ir2).Ok?
    ensures var f := ProcessFunctions(ir1.functions, Initial).value.lines;
      f <= ConvertState(ir1).value.lines && f <= ConvertState(ir2).value.lines
  {
    ConvertPhases(ir1);
    ConvertPhases(ir2);
  }
}
