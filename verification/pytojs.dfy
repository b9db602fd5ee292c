/** `PyToJSTransformer` and `transpile_python_to_js` (phase1/pytojs.py): the
    visitor that walks a Python syntax tree and returns JavaScript text.

    The transformer's mutable fields are `function_stack` and
    `indent_level`; here they are a `State` value threaded through the
    statement visitors, which hand back the state they leave behind (the
    contract of `TransStmt` says it is the state they were given).

    A node the transformer has no visitor for falls back to
    `NodeTransformer.generic_visit`, which hands the node itself back
    instead of text. Where the source formats that object into the output
    the model does too (`Js.NodeObject`, shown as `<ast.K object>`); where
    the source then crashes (calling `.strip()` or `.join` on it) the model
    gives `Err`. */
module PyToJs {
  import opened Results
  import opened Strings
  import opened PyAst
  import Json
  import JsRange

  // ---------------------------------------------------------------------
  // Names

  /** Python's `str.capitalize` on ASCII text. */
  function Capitalize(p: string): (r: string)
    ensures |r| == |p|
    ensures |p| > 0 ==> r[0] == UpperChar(p[0])
    ensures forall k :: 1 <= k < |p| ==> r[k] == LowerChar(p[k])
  {
    if p == [] then [] else [UpperChar(p[0])] + Lower(p[1..])
  }

  /** `"".join(p.capitalize() for p in parts)`. */
  function CapitalizeAll(parts: seq<string>): string {
    if parts == [] then [] else Capitalize(parts[0]) + CapitalizeAll(parts[1..])
  }

  /** `_camel_case`: snake_case to camelCase. */
  function CamelCase(name: string): (r: string)
    ensures !Contains(name, "_") ==> r == name
  {
    if !Contains(name, "_") then name
    else
      var parts := Split(name, "_");
      parts[0] + CapitalizeAll(parts[1..])
  }

  /** The name with its underscores removed. */
  function WithoutUnderscores(s: string): (r: string)
    ensures '_' !in r
    ensures |r| <= |s|
  {
    if s == [] then []
    else (if s[0] == '_' then [] else [s[0]]) + WithoutUnderscores(s[1..])
  }

  lemma {:induction false} WithoutUnderscoresAppend(a: string, b: string)
    ensures WithoutUnderscores(a + b) == WithoutUnderscores(a) + WithoutUnderscores(b)
  {
    if a != [] {
      assert (a + b)[0] == a[0];
      assert (a + b)[1..] == a[1..] + b;
      WithoutUnderscoresAppend(a[1..], b);
      var h := if a[0] == '_' then [] else [a[0]];
      assert WithoutUnderscores(a + b) == h + WithoutUnderscores(a[1..] + b);
      assert WithoutUnderscores(a) == h + WithoutUnderscores(a[1..]);
      assert h + (WithoutUnderscores(a[1..]) + WithoutUnderscores(b))
        == (h + WithoutUnderscores(a[1..])) + WithoutUnderscores(b);
    } else {
      assert a + b == b;
    }
  }

  lemma {:induction false} WithoutUnderscoresNone(s: string)
    requires '_' !in s
    ensures WithoutUnderscores(s) == s
  {
    if s != [] {
      WithoutUnderscoresNone(s[1..]);
    }
  }

  /** Erasing the separators of a `"_"`-join leaves the pieces run together. */
  lemma {:induction false} WithoutUnderscoresJoin(parts: seq<string>)
    requires forall k :: 0 <= k < |parts| ==> '_' !in parts[k]
    ensures WithoutUnderscores(Join("_", parts)) == Concat(parts)
  {
    if |parts| == 1 {
      WithoutUnderscoresNone(parts[0]);
    } else if |parts| > 1 {
      WithoutUnderscoresJoin(parts[1..]);
      WithoutUnderscoresNone(parts[0]);
      WithoutUnderscoresAppend(parts[0], "_" + Join("_", parts[1..]));
      WithoutUnderscoresAppend("_", Join("_", parts[1..]));
      assert parts[0] + "_" + Join("_", parts[1..]) == parts[0] + ("_" + Join("_", parts[1..]));
    }
  }

  lemma LowerAppend(a: string, b: string)
    ensures Lower(a + b) == Lower(a) + Lower(b)
  {
    assert forall k :: 0 <= k < |a + b| ==> Lower(a + b)[k] == (Lower(a) + Lower(b))[k];
  }

  lemma LowerCapitalize(p: string)
    ensures Lower(Capitalize(p)) == Lower(p)
  {
    forall k | 0 <= k < |p| ensures Lower(Capitalize(p))[k] == Lower(p)[k] {
      LowerOfCase(p[k]);
    }
  }

  lemma {:induction false} LowerCapitalizeAll(parts: seq<string>)
    ensures Lower(CapitalizeAll(parts)) == Lower(Concat(parts))
  {
    if parts != [] {
      LowerCapitalizeAll(parts[1..]);
      LowerAppend(Capitalize(parts[0]), CapitalizeAll(parts[1..]));
      LowerAppend(parts[0], Concat(parts[1..]));
      LowerCapitalize(parts[0]);
    }
  }

  lemma CapitalizeKeepsUnderscoreFree(p: string)
    requires '_' !in p
    ensures '_' !in Capitalize(p)
  {
    forall k | 0 <= k < |p| ensures Capitalize(p)[k] != '_' {
      assert p[k] != '_';
    }
  }

  lemma {:induction false} CapitalizeAllUnderscoreFree(parts: seq<string>)
    requires forall k :: 0 <= k < |parts| ==> '_' !in parts[k]
    ensures '_' !in CapitalizeAll(parts)
  {
    if parts != [] {
      CapitalizeKeepsUnderscoreFree(parts[0]);
      CapitalizeAllUnderscoreFree(parts[1..]);
    }
  }

  lemma SplitUnderscoreFree(name: string)
    ensures forall k :: 0 <= k < |Split(name, "_")| ==> '_' !in Split(name, "_")[k]
  {
    var parts := Split(name, "_");
    forall k | 0 <= k < |parts| ensures '_' !in parts[k] {
      ContainsChar(parts[k], '_');
    }
  }

  /** A camel-cased name holds no underscore, so converting twice changes
      nothing more. */
  lemma CamelCaseUnderscoreFree(name: string)
    ensures '_' !in CamelCase(name)
    ensures CamelCase(CamelCase(name)) == CamelCase(name)
  {
    ContainsChar(name, '_');
    if Contains(name, "_") {
      var parts := Split(name, "_");
      SplitUnderscoreFree(name);
      CapitalizeAllUnderscoreFree(parts[1..]);
    }
    ContainsChar(CamelCase(name), '_');
  }

  /** Camel-casing only drops the underscores and changes letter case: up to
      case, the result is the name with its underscores removed. */
  lemma CamelCaseLetters(name: string)
    ensures Lower(CamelCase(name)) == Lower(WithoutUnderscores(name))
  {
    ContainsChar(name, '_');
    if !Contains(name, "_") {
      WithoutUnderscoresNone(name);
    } else {
      var parts := Split(name, "_");
      SplitUnderscoreFree(name);
      WithoutUnderscoresJoin(parts);
      LowerCapitalizeAll(parts[1..]);
      LowerAppend(parts[0], CapitalizeAll(parts[1..]));
      LowerAppend(parts[0], Concat(parts[1..]));
    }
  }

  /** Splitting two underscore-free words joined by `_` gives the words back. */
  lemma SplitTwoWords(a: string, b: string)
    requires '_' !in a && '_' !in b
    ensures Split(a + "_" + b, "_") == [a, b]
  {
    var s := a + "_" + b;
    OccursSingle(s, '_', |a|);
    forall k | 0 <= k < |a| ensures !OccursAt(s, "_", k) {
      OccursSingle(s, '_', k);
      assert s[k] == a[k];
    }
    assert Find(s, "_") == Some(|a|);
    assert s[..|a|] == a;
    assert s[|a| + 1..] == b;
    ContainsChar(b, '_');
  }

  lemma CapitalizeExample()
    ensures Capitalize("numbers") == "Numbers"
  {
    var r := Capitalize("numbers");
    assert |r| == 7;
    assert r[0] == 'N';
    forall k | 1 <= k < 7 ensures r[k] == "Numbers"[k] {
      assert r[k] == LowerChar("numbers"[k]);
    }
  }

  /** Two words joined by `_`: the first keeps its case and the second is
      capitalized. */
  lemma CamelCaseTwoWords(a: string, b: string)
    requires '_' !in a && '_' !in b
    ensures CamelCase(a + "_" + b) == a + Capitalize(b)
  {
    var s := a + "_" + b;
    assert Contains(s, "_") by {
      ContainsChar(s, '_');
      assert s[|a|] == '_';
    }
    SplitTwoWords(a, b);
    assert [a, b][1..] == [b];
    assert CapitalizeAll([b]) == Capitalize(b) + CapitalizeAll([]);
  }

  lemma AddNumbersWords()
    ensures "add_numbers" == "add" + "_" + "numbers"
    ensures "addNumbers" == "add" + "Numbers"
    ensures '_' !in "add" && '_' !in "numbers"
  {
  }

  lemma CamelCaseExample(name: string)
    requires name == "add_numbers"
    ensures CamelCase(name) == "addNumbers"
  {
    AddNumbersWords();
    CamelCaseTwoWords("add", "numbers");
    CapitalizeExample();
  }

  /** A name without underscores is left as it is. */
  lemma CamelCaseKeepsPlainName(name: string)
    requires '_' !in name
    ensures CamelCase(name) == name
  {
    ContainsChar(name, '_');
  }

  // ---------------------------------------------------------------------
  // Expressions

  /** What a visitor hands back: text, or, from the `generic_visit`
      fallback, the node object itself. */
  datatype Js = Text(text: string) | NodeObject(kind: string)

  /** How an f-string formats a visitor's result: a node object shows as its
      repr (without the memory address the real repr carries). */
  function Show(v: Js): (r: string)
    ensures v.Text? ==> r == v.text
    ensures v.NodeObject? ==> StartsWith(r, "<ast.") && EndsWith(r, " object>")
  {
    match v
    case Text(t) => t
    case NodeObject(k) => "<ast." + k + " object>"
  }

  function ShowAll(vs: seq<Js>): (r: seq<string>)
    ensures |r| == |vs|
  {
    seq(|vs|, i requires 0 <= i < |vs| => Show(vs[i]))
  }

  /** `", ".join(values)` accepts only strings: a node object among the
      values raises `TypeError`. */
  function Texts(vs: seq<Js>): (r: Result<seq<string>>)
    ensures r.Ok? ==> r.value == ShowAll(vs)
  {
    if forall i :: 0 <= i < |vs| ==> vs[i].Text? then Ok(ShowAll(vs))
    else Err("sequence item: expected str instance")
  }

  /** `visit_Constant`. */
  function ConstantText(c: Constant): string {
    match c
    case StrConst(s) => Json.Quote(s)
    case BoolConst(b) => if b then "true" else "false"
    case NoneConst => "null"
    case IntConst(i) => IntToString(i)
  }

  /** A string constant becomes a double-quoted literal that reads back to
      the string, an integer a numeral that reads back to the integer. */
  lemma ConstantTextReadsBack(c: Constant)
    ensures var r := ConstantText(c);
      && (c.StrConst? ==>
            |r| >= 2 && r[0] == '"' && r[|r| - 1] == '"' && Json.Unescape(r[1..|r| - 1]) == Some(c.s))
      && (c.BoolConst? ==> r == (if c.b then "true" else "false"))
      && (c.NoneConst? ==> r == "null")
      && (c.IntConst? ==> ParseInt(r) == Some(c.i))
  {
    match c
    case StrConst(s) => Json.QuoteRoundTrip(s);
    case IntConst(i) => IntToStringRoundTrip(i);
    case _ =>
  }

  /** The operator visitors `visit_Add` .. `visit_Pow`; an operator without
      a visitor comes back as its node. */
  function VisitBinOperator(op: BinOperator): (r: Js)
    ensures r.Text? <==> op in {Add, Sub, Mult, Div, Mod, Pow}
    ensures r.NodeObject? ==> r.kind == BinOperatorName(op)
    ensures op == Pow <==> r == Text("**")
  {
    match op
    case Add => Text("+")
    case Sub => Text("-")
    case Mult => Text("*")
    case Div => Text("/")
    case Mod => Text("%")
    case Pow => Text("**")
    case _ => NodeObject(BinOperatorName(op))
  }

  /** The comparison visitors `visit_Eq` .. `visit_GtE`; `is`, `is not`, `in`
      and `not in` have none and come back as their nodes. Equality is
      always JavaScript's strict equality. */
  function VisitCmpOperator(op: CmpOperator): (r: Js)
    ensures r.Text? <==> op in {Eq, NotEq, Lt, LtE, Gt, GtE}
    ensures r.NodeObject? ==> r.kind == CmpOperatorName(op)
    ensures op == Eq <==> r == Text("===")
    ensures op == NotEq <==> r == Text("!==")
    ensures r != Text("==") && r != Text("!=")
  {
    match op
    case Eq => Text("===")
    case NotEq => Text("!==")
    case Lt => Text("<")
    case LtE => Text("<=")
    case Gt => Text(">")
    case GtE => Text(">=")
    case _ => NodeObject(CmpOperatorName(op))
  }

  function ShowCmpOperators(ops: seq<CmpOperator>): (r: seq<string>)
    ensures |r| == |ops|
  {
    seq(|ops|, i requires 0 <= i < |ops| => Show(VisitCmpOperator(ops[i])))
  }

  /** `visit_BinOp` once both operands are rendered; `operandIsBinOp` says
      whether either operand node is itself a `BinOp`. */
  function BinOpText(left: string, op: BinOperator, right: string, operandIsBinOp: bool): (r: string)
    ensures op == Pow ==> r == "Math.pow(" + left + ", " + right + ")"
  {
    if op == Pow then "Math.pow(" + left + ", " + right + ")"
    else
      var o := Show(VisitBinOperator(op));
      if operandIsBinOp then "(" + left + " " + o + " " + right + ")"
      else left + " " + o + " " + right
  }

  /** The pairwise comparisons of a chain `left ops[0] comps[0] ops[1] comps[1] ...`. */
  function Comparisons(left: string, ops: seq<string>, comps: seq<string>): (r: seq<string>)
    requires |ops| <= |comps|
    ensures |r| == |ops|
    decreases |ops|
  {
    if ops == [] then []
    else
      var rest := Comparisons(comps[0], ops[1..], comps[1..]);
      [left + " " + ops[0] + " " + comps[0]] + rest
  }

  /** The argument texts of a `range` call the transformer rewrites. */
  function RangeOf(args: seq<string>): JsRange.RangeCall<string>
    requires 1 <= |args| <= 3
  {
    if |args| == 1 then JsRange.Range1(args[0])
    else if |args| == 2 then JsRange.Range2(args[0], args[1])
    else JsRange.Range3(args[0], args[1], args[2])
  }

  /** The built-in functions `visit_Call` rewrites when called with one
      argument. */
  const Conversions: set<string> := {"int", "float", "str", "len"}

  /** `visit_Call` once the callee and the arguments are rendered. */
  function CallText(calleeIsName: bool, callee: Js, args: seq<Js>): Result<string>
  {
    if calleeIsName && callee == Text("int") && |args| == 1 then Ok("parseInt(" + Show(args[0]) + ", 10)")
    else if calleeIsName && callee == Text("float") && |args| == 1 then Ok("parseFloat(" + Show(args[0]) + ")")
    else if calleeIsName && callee == Text("str") && |args| == 1 then Ok("String(" + Show(args[0]) + ")")
    else if calleeIsName && callee == Text("len") && |args| == 1 then Ok(Show(args[0]) + ".length")
    else if calleeIsName && callee == Text("range") && 1 <= |args| <= 3 then Ok(JsRange.Render(RangeOf(ShowAll(args))))
    else
      // the f-string special case for console.log renders the same text as this
      var texts :- Texts(args);
      Ok(CalleeText(calleeIsName, callee) + "(" + Join(", ", texts) + ")")
  }

  /** The callee of a general call: `print` becomes `console.log`. */
  function CalleeText(calleeIsName: bool, callee: Js): string {
    if calleeIsName && callee == Text("print") then "console.log" else Show(callee)
  }

  predicate IsStringConstant(e: Expr) {
    e.Const? && e.constant.StrConst?
  }

  /** A literal part of an f-string: its JSON text with the quotes cut off. */
  function LiteralPart(s: string): (r: string)
    ensures r == Json.EscapeBody(s)
  {
    var q := Json.Quote(s);
    q[1..|q| - 1]
  }

  function TransExpr(e: Expr): (r: Result<Js>)
    ensures r.Ok? && r.value.NodeObject? ==> e.BoolOp? || e.UnaryOp? || e.OtherExpr?
    decreases e
  {
    match e
    case Name(id) => Ok(Text(id))
    case Const(c) => Ok(Text(ConstantText(c)))
    case BinOp(l, op, r) =>
      var lt :- TransExpr(l);
      var rt :- TransExpr(r);
      Ok(Text(BinOpText(Show(lt), op, Show(rt), l.BinOp? || r.BinOp?)))
    case Compare(l, ops, comps) =>
      var lt :- TransExpr(l);
      var ct :- TransExprs(comps);
      if |ct| < |ops| then Err("IndexError: list index out of range")
      else Ok(Text(Join(" && ", Comparisons(Show(lt), ShowCmpOperators(ops), ShowAll(ct)))))
    case Call(f, args) =>
      var ft :- TransExpr(f);
      var at :- TransExprs(args);
      var t :- CallText(f.Name?, ft, at);
      Ok(Text(t))
    case List(elts) =>
      var vs :- TransExprs(elts);
      var ts :- Texts(vs);
      Ok(Text("[" + Join(", ", ts) + "]"))
    case Dict(keys, values) =>
      var entries :- DictEntries(e, 0);
      Ok(Text("{" + Join(", ", entries) + "}"))
    case JoinedStr(parts) =>
      var ps :- JoinedParts(e, 0);
      Ok(Text("`" + Concat(ps) + "`"))
    case FormattedValue(v) =>
      var t :- TransExpr(v);
      Ok(Text("${" + Show(t) + "}"))
    case BoolOp(_, operands) =>
      // generic_visit visits the children, then hands the node back
      var _ :- TransExprs(operands);
      Ok(NodeObject("BoolOp"))
    case UnaryOp(_, operand) =>
      var _ :- TransExpr(operand);
      Ok(NodeObject("UnaryOp"))
    case OtherExpr(kind, children) =>
      var _ :- TransExprs(children);
      Ok(NodeObject(kind))
  }

  function TransExprs(es: seq<Expr>): (r: Result<seq<Js>>)
    ensures r.Ok? ==> |r.value| == |es|
    decreases es
  {
    if es == [] then Ok([])
    else
      var first :- TransExpr(es[0]);
      var rest :- TransExprs(es[1..]);
      Ok([first] + rest)
  }

  /** The `key: value` entries of a dict display from index `i` on, over
      `zip(keys, values)`. A string key is written as its JSON text; any
      other key as a computed key `[k]`; a `**mapping` entry (no key) makes
      the visitor fail on `None`. */
  function DictEntries(d: Expr, i: nat): (r: Result<seq<string>>)
    requires d.Dict?
    ensures r.Ok? ==> |r.value| == (if i < |d.keys| && i < |d.values| then
                                      (if |d.keys| < |d.values| then |d.keys| else |d.values|) - i
                                    else 0)
    decreases d, |d.keys| - i, 1
  {
    if i >= |d.keys| || i >= |d.values| then Ok([])
    else
      var entry :- DictEntry(d, i);
      var rest :- DictEntries(d, i + 1);
      Ok([entry] + rest)
  }

  /** The entry for pair `i` of a dict display: one turn of the loop. */
  function DictEntry(d: Expr, i: nat): Result<string>
    requires d.Dict? && i < |d.keys| && i < |d.values|
    decreases d, |d.keys| - i, 0
  {
    match d.keys[i]
    case None => Err("'NoneType' object has no attribute '_fields'")
    case Some(k) =>
      if IsStringConstant(k) then
        var v :- TransExpr(d.values[i]);
        Ok(Json.Quote(k.constant.s) + ": " + Show(v))
      else
        var kt :- TransExpr(k);
        var v :- TransExpr(d.values[i]);
        Ok("[" + Show(kt) + "]: " + Show(v))
  }

  /** The rendered parts of an f-string from index `i` on: literals escaped,
      embedded expressions as `${...}`, anything else dropped. */
  function JoinedParts(j: Expr, i: nat): Result<seq<string>>
    requires j.JoinedStr?
    decreases j, |j.parts| - i
  {
    if i >= |j.parts| then Ok([])
    else
      var part := j.parts[i];
      var first :- (
        if IsStringConstant(part) then Ok([LiteralPart(part.constant.s)])
        else if part.FormattedValue? then
          var t :- TransExpr(part.formatted);
          Ok(["${" + Show(t) + "}"])
        else Ok([]));
      var rest :- JoinedParts(j, i + 1);
      Ok(first + rest)
  }

  function Concat(parts: seq<string>): string {
    if parts == [] then "" else parts[0] + Concat(parts[1..])
  }

  // ---------------------------------------------------------------------
  // Statements

  /** The transformer's fields `function_stack` and `indent_level`. */
  datatype State = State(functionStack: seq<string>, indentLevel: nat)

  const Fresh: State := State([], 0)

  /** `_indent`: four spaces per indentation level. */
  function IndentLine(st: State, code: string): string {
    Spaces(4 * st.indentLevel) + code
  }

  /** `[b for b in body if b is not None and b.strip()]`. */
  function NonBlank(lines: seq<string>): seq<string> {
    if lines == [] then []
    else (if !Blank(lines[0]) then [lines[0]] else []) + NonBlank(lines[1..])
  }

  /** `[self._indent(line) for line in body if line]`. */
  function IndentAll(st: State, lines: seq<string>): seq<string> {
    if lines == [] then []
    else (if lines[0] != "" then [IndentLine(st, lines[0])] else []) + IndentAll(st, lines[1..])
  }

  /** The text of a block body: its lines indented and joined by newlines. */
  function Block(st: State, lines: seq<string>): string {
    Join("\n", IndentAll(st, lines))
  }

  /** `visit_Expr`: a `;` is appended unless the text already ends with one. */
  function WithSemicolon(v: string): (r: string)
    ensures EndsWith(r, ";")
    ensures r == v || r == v + ";"
    ensures EndsWith(v, ";") <==> r == v
  {
    if EndsWith(v, ";") then v else v + ";"
  }

  /** The `op_map` of the effective `visit_AugAssign`. */
  const AugOpMap: map<string, string> :=
    map["+" := "+=", "-" := "-=", "*" := "*=", "/" := "/=", "%" := "%=", "**" := "**="]

  /** The effective (second) `visit_AugAssign`, once target and value are
      rendered. An operator without a visitor comes back as its node, which
      is no key of `op_map`, so it falls back to `+=`. */
  function AugAssignText(target: string, op: BinOperator, value: string): string {
    var o := VisitBinOperator(op);
    var jsOp := if o.Text? && o.text in AugOpMap then AugOpMap[o.text] else "+=";
    if o == Text("**") then target + " = Math.pow(" + target + ", " + value + ");"
    else target + " " + jsOp + " " + value + ";"
  }

  /** What `visit_AugAssign` writes for each operator: `**=` becomes a
      `Math.pow` call, the other operators of `op_map` their compound
      assignment (`-=`, `*=`, ...), and every other operator `+=`. */
  lemma AugAssignForms(target: string, op: BinOperator, value: string)
    ensures op == Pow ==> AugAssignText(target, op, value) == target + " = Math.pow(" + target + ", " + value + ");"
    ensures op in {Add, Sub, Mult, Div, Mod} ==>
      AugAssignText(target, op, value) == target + " " + VisitBinOperator(op).text + "= " + value + ";"
    ensures op !in {Add, Sub, Mult, Div, Mod, Pow} ==> AugAssignText(target, op, value) == target + " += " + value + ";"
  {
    if op in {Add, Sub, Mult, Div, Mod} {
      var sym := VisitBinOperator(op).text;
      assert sym in AugOpMap && AugOpMap[sym] == sym + "=";
      assert target + " " + (sym + "=") + " " + value + ";" == target + " " + sym + "= " + value + ";";
    } else if op != Pow {
      assert VisitBinOperator(op).NodeObject?;
    }
  }

  /** The first `visit_AugAssign`, which the second definition of the same
      name replaces in the class body: it formats the visited operator
      followed by `=`. */
  function AugAssignTextFirst(target: string, op: BinOperator, value: string): string {
    if op == Pow then target + " = Math.pow(" + target + ", " + value + ");"
    else target + " " + Show(VisitBinOperator(op)) + "= " + value + ";"
  }

  function TransStmt(s: Stmt, st: State): (r: Result<(string, State)>)
    ensures r.Ok? ==> r.value.1 == st
    decreases s, 0
  {
    match s
    case FunctionDef(name, params, body) =>
      var pushed := st.(functionStack := st.functionStack + [name]);
      var block :- TransBlock(body, pushed);
      var back := block.1;
      var popped := back.(functionStack := back.functionStack[..|back.functionStack| - 1]);
      assert popped == st;
      Ok((FunctionText(CamelCase(name), params, back, block.0), popped))
    case Return(v) =>
      if v.None? then Ok(("return;", st))
      else
        var t :- TransExpr(v.value);
        Ok(("return " + Show(t) + ";", st))
    case Assign(targets, value) =>
      if targets == [] then Err("IndexError: list index out of range")
      else
        var targetName :- if targets[0].Name? then Ok(targets[0].id) else
          var t :- TransExpr(targets[0]);
          Ok(Show(t));
        var v :- TransExpr(value);
        Ok((AssignText(st, targetName, Show(v)), st))
    case AugAssign(target, op, value) =>
      var t :- TransExpr(target);
      var v :- TransExpr(value);
      Ok((AugAssignText(Show(t), op, Show(v)), st))
    case If(test, body, orelse) =>
      var t :- TransExpr(test);
      var block :- TransBlock(body, st);
      var elseBlock :- TransBlock(orelse, block.1);
      Ok((IfText(Show(t), elseBlock.1, block.0, elseBlock.0), elseBlock.1))
    case For(target, iter, body) =>
      var t :- TransExpr(target);
      var it :- TransExpr(iter);
      var block :- TransBlock(body, st);
      Ok((LoopText("for (let " + Show(t) + " of " + Show(it) + ")", block.1, block.0), block.1))
    case While(test, body) =>
      var t :- TransExpr(test);
      var block :- TransBlock(body, st);
      Ok((LoopText("while (" + Show(t) + ")", block.1, block.0), block.1))
    case ExprStmt(value) =>
      var v :- TransExpr(value);
      if v.NodeObject? then Err("'" + v.kind + "' object has no attribute 'endswith'")
      else Ok((WithSemicolon(v.text), st))
    case Pass =>
      // the fallback hands the node back, and the caller's `strip()` fails on it
      Err("'Pass' object has no attribute 'strip'")
    case OtherStmt(kind) => Err("'" + kind + "' object has no attribute 'strip'")
  }

  /** A nested body: `indent_level` raised, the statements visited, their
      non-blank texts kept, `indent_level` lowered again. The state handed
      back is the one the body was entered with. */
  function TransBlock(body: seq<Stmt>, st: State): (r: Result<(seq<string>, State)>)
    ensures r.Ok? ==> r.value.1 == st
    decreases body, 1
  {
    var visited :- TransBody(body, st.(indentLevel := st.indentLevel + 1));
    Ok((NonBlank(visited.0), visited.1.(indentLevel := visited.1.indentLevel - 1)))
  }

  /** The text of `visit_FunctionDef`, its body lines indented at the level
      in force after the body was visited; an empty body becomes a
      `// pass` comment. */
  function FunctionText(funcName: string, params: seq<string>, st: State, lines: seq<string>): (r: string)
    ensures StartsWith(r, "function " + funcName + "(" + Join(", ", params) + ") {\n")
    ensures EndsWith(r, "\n}")
  {
    var jsBody0 := Block(st, lines);
    var jsBody := if jsBody0 == "" then IndentLine(st, "// pass") else jsBody0;
    var r := "function " + funcName + "(" + Join(", ", params) + ") {\n" + jsBody + "\n}";
    assert r == ("function " + funcName + "(" + Join(", ", params) + ") {\n") + (jsBody + "\n}");
    r
  }

  /** `visit_Assign`: `let` while no function is being visited, `const`
      inside one. */
  function AssignText(st: State, target: string, value: string): (r: string)
    ensures StartsWith(r, "let ") <==> st.functionStack == []
    ensures StartsWith(r, "const ") <==> st.functionStack != []
    ensures EndsWith(r, target + " = " + value + ";")
  {
    var declaration := if st.functionStack == [] then "let " else "const ";
    var r := declaration + target + " = " + value + ";";
    var tail := target + " = " + value + ";";
    assert r == declaration + tail;
    assert r[..|declaration|] == declaration;
    assert r[|r| - |tail|..] == tail;
    assert r[0] == declaration[0];
    r
  }

  /** `visit_If` once the test, the body lines and the else lines are
      rendered. */
  function IfText(test: string, st: State, lines: seq<string>, elseLines: seq<string>): string {
    "if (" + test + ") {\n" + Block(st, lines) + "\n}" + ElseText(st, elseLines)
  }

  /** `visit_For` and `visit_While` once the header and the body lines are
      rendered. */
  function LoopText(header: string, st: State, lines: seq<string>): string {
    header + " {\n" + Block(st, lines) + "\n}"
  }

  /** The `else` part of `visit_If`, from the non-blank lines of the else
      branch: a lone `if` statement is chained as `else if`, anything else
      becomes a braced block closed at the current indentation. */
  function ElseText(st: State, elseLines: seq<string>): (r: string)
    ensures elseLines == [] <==> r == ""
    ensures |elseLines| == 1 && StartsWith(elseLines[0], "if ") ==> r == " else " + elseLines[0]
    ensures r != "" && !(|elseLines| == 1 && StartsWith(elseLines[0], "if ")) ==>
      StartsWith(r, " else {\n") && EndsWith(r, "}")
  {
    if elseLines == [] then ""
    else if |elseLines| == 1 && StartsWith(elseLines[0], "if ") then " else " + elseLines[0]
    else " else {\n" + Block(st, elseLines) + "\n" + IndentLine(st, "") + "}"
  }

  /** `[self.visit(n) for n in body]`, each statement seeing the state the
      previous one left. */
  function TransBody(body: seq<Stmt>, st: State): (r: Result<(seq<string>, State)>)
    ensures r.Ok? ==> r.value.1 == st && |r.value.0| == |body|
    decreases body, 0
  {
    if body == [] then Ok(([], st))
    else
      var first :- TransStmt(body[0], st);
      var rest :- TransBody(body[1..], first.1);
      Ok(([first.0] + rest.0, rest.1))
  }

  /** `visit_Module`: the non-blank statement texts joined by newlines (the
      `imports` set is never filled, so no import lines precede them). */
  function TransModule(m: Module): Result<string> {
    var visited :- TransBody(m.body, Fresh);
    Ok(Join("\n", NonBlank(visited.0)))
  }

  /** The pair `transpile_python_to_js` returns: exactly one side is set. */
  datatype Transpiled = Transpiled(js: Option<string>, error: Option<string>)

  /** `transpile_python_to_js`, with the parser `ast.parse` as a parameter. */
  function Transpile(code: string, parse: string -> Result<Module>): (r: Transpiled)
    ensures r.js.Some? != r.error.Some?
    ensures parse(code).Err? ==> r.error == Some("Python syntax error: " + parse(code).error)
    ensures parse(code).Ok? && TransModule(parse(code).value).Ok? ==>
      r.js == Some(TransModule(parse(code).value).value)
    ensures parse(code).Ok? && TransModule(parse(code).value).Err? ==>
      r.error == Some("Transpilation error: " + TransModule(parse(code).value).error)
  {
    match parse(code)
    case Err(msg) => Transpiled(None, Some("Python syntax error: " + msg))
    case Ok(tree) =>
      match TransModule(tree)
      case Ok(js) => Transpiled(Some(js), None)
      case Err(msg) => Transpiled(None, Some("Transpilation error: " + msg))
  }
}
