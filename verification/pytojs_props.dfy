/** Properties of the transformer in `PyToJs` that relate several visits or
    pin down what a whole construct turns into. */
module PyToJsProperties {
  import opened Results
  import opened Strings
  import opened PyAst
  import opened PyToJs
  import JsRange

  /** Only the five arithmetic operators with a visitor have a compound
      assignment of their own; for them the overridden first definition of
      `visit_AugAssign` and the effective one agree, for every other
      operator they differ: the first would print the operator node, the
      effective one falls back to `+=`. */
  lemma AugAssignOverride(target: string, op: BinOperator, value: string)
    ensures op in {Add, Sub, Mult, Div, Mod, Pow} <==>
      AugAssignTextFirst(target, op, value) == AugAssignText(target, op, value)
  {
    if op in {Add, Sub, Mult, Div, Mod, Pow} {
      AugAssignAgree(target, op, value);
    } else {
      AugAssignForms(target, op, value);
      var first := AugAssignTextFirst(target, op, value);
      var eff := AugAssignText(target, op, value);
      var k := |target| + 1;
      assert first[k] == '<';
      assert eff[k] == '+';
    }
  }

  /** The compound operators `op_map` knows: the visited operator followed
      by `=`. */
  lemma AugOpOf(op: BinOperator)
    requires op in {Add, Sub, Mult, Div, Mod}
    ensures VisitBinOperator(op).Text? && VisitBinOperator(op).text in AugOpMap
    ensures AugOpMap[VisitBinOperator(op).text] == VisitBinOperator(op).text + "="
  {
  }

  /** For the operators with a visitor the two definitions agree. */
  lemma AugAssignAgree(target: string, op: BinOperator, value: string)
    requires op in {Add, Sub, Mult, Div, Mod, Pow}
    ensures AugAssignTextFirst(target, op, value) == AugAssignText(target, op, value)
  {
    if op != Pow {
      AugOpOf(op);
      var sym := VisitBinOperator(op).text;
      var a := target + " ";
      assert a + sym + "= " == a + (sym + "=") + " ";
    }
  }

  /** `let` at module level, `const` inside a function, and nothing
      remembers an earlier declaration. */
  lemma AssignKeyword(targets: seq<Expr>, value: Expr, st: State)
    requires TransStmt(Assign(targets, value), st).Ok?
    ensures var text := TransStmt(Assign(targets, value), st).value.0;
      && (StartsWith(text, "let ") <==> st.functionStack == [])
      && (StartsWith(text, "const ") <==> st.functionStack != [])
  {
    var text := TransStmt(Assign(targets, value), st).value.0;
    if st.functionStack == [] {
      assert text[..4] == "let ";
      assert text[0] != "const "[0];
    } else {
      assert text[..6] == "const ";
      assert text[0] != "let "[0];
    }
  }

  // ---------------------------------------------------------------------
  // Visiting a construct visits its parts: one step of each visitor

  lemma ExprsCons(e: Expr, es: seq<Expr>, v: Js, vs: seq<Js>)
    requires TransExpr(e).Ok? && TransExpr(e).value == v
    requires TransExprs(es).Ok? && TransExprs(es).value == vs
    ensures TransExprs([e] + es) == Ok([v] + vs)
  {
    assert ([e] + es)[0] == e && ([e] + es)[1..] == es;
  }

  lemma TwoNames(a: string, b: string)
    ensures TransExprs([Name(a), Name(b)]) == Ok([Text(a), Text(b)])
    ensures ShowAll([Text(a), Text(b)]) == [a, b]
  {
    ExprsCons(Name(b), [], Text(b), []);
    assert [Name(b)] == [Name(b)] + [];
    assert [Text(b)] == [Text(b)] + [];
    ExprsCons(Name(a), [Name(b)], Text(a), [Text(b)]);
    assert [Name(a)] + [Name(b)] == [Name(a), Name(b)];
    assert [Text(a)] + [Text(b)] == [Text(a), Text(b)];
  }

  lemma BodyCons(s: Stmt, ss: seq<Stmt>, st: State, t: string, ts: seq<string>)
    requires TransStmt(s, st).Ok? && TransStmt(s, st).value.0 == t
    requires TransBody(ss, st).Ok? && TransBody(ss, st).value.0 == ts
    ensures TransBody([s] + ss, st) == Ok(([t] + ts, st))
  {
    assert ([s] + ss)[0] == s && ([s] + ss)[1..] == ss;
  }

  lemma BodyOfOne(s: Stmt, st: State, t: string)
    requires TransStmt(s, st).Ok? && TransStmt(s, st).value.0 == t
    ensures TransBody([s], st) == Ok(([t], st))
  {
    assert [s][0] == s && [s][1..] == [];
    assert [t] + [] == [t];
  }

  lemma BodyOfTwo(s1: Stmt, s2: Stmt, st: State, t1: string, t2: string)
    requires TransStmt(s1, st).Ok? && TransStmt(s1, st).value.0 == t1
    requires TransStmt(s2, st).Ok? && TransStmt(s2, st).value.0 == t2
    ensures TransBody([s1, s2], st) == Ok(([t1, t2], st))
  {
    BodyOfOne(s2, st, t2);
    BodyCons(s1, [s2], st, t1, [t2]);
    assert [s1] + [s2] == [s1, s2];
    assert [t1] + [t2] == [t1, t2];
  }

  /** A visible text survives the blank filter. */
  lemma NonBlankCons(t: string, ts: seq<string>)
    requires !Blank(t)
    ensures NonBlank([t] + ts) == [t] + NonBlank(ts)
  {
    assert ([t] + ts)[0] == t && ([t] + ts)[1..] == ts;
  }

  lemma NotBlankAt(t: string, k: nat)
    requires k < |t| && t[k] !in Whitespace
    ensures !Blank(t)
  {
    BlankAllWhitespace(t);
  }

  /** Every statement that translates gives a text with a visible
      character in it: the keyword it starts with, or the `;` it ends
      with. */
  lemma StmtTextVisible(s: Stmt, st: State)
    requires TransStmt(s, st).Ok?
    ensures !Blank(TransStmt(s, st).value.0)
  {
    match s
    case FunctionDef(name, params, body) => FunctionDefVisible(name, params, body, st);
    case Return(v) => ReturnVisible(v, st);
    case Assign(targets, value) => AssignVisible(targets, value, st);
    case AugAssign(target, op, value) => AugAssignVisible(target, op, value, st);
    case If(test, body, orelse) => IfVisible(test, body, orelse, st);
    case For(target, iter, body) => ForVisible(target, iter, body, st);
    case While(test, body) => WhileVisible(test, body, st);
    case ExprStmt(value) => ExprStmtVisible(value, st);
  }

  /** A text that starts with a visible character is not blank. */
  lemma StartsVisible(t: string, head: string)
    requires StartsWith(t, head) && |head| > 0 && head[0] !in Whitespace
    ensures !Blank(t)
  {
    assert t[0] == head[0];
    NotBlankAt(t, 0);
  }

  lemma FunctionDefVisible(name: string, params: seq<string>, body: seq<Stmt>, st: State)
    requires TransStmt(FunctionDef(name, params, body), st).Ok?
    ensures !Blank(TransStmt(FunctionDef(name, params, body), st).value.0)
  {
    var t := TransStmt(FunctionDef(name, params, body), st).value.0;
    var head := "function " + CamelCase(name) + "(" + Join(", ", params) + ") {\n";
    assert StartsWith(t, head);
    StartsVisible(t, head);
  }

  lemma ReturnVisible(v: Option<Expr>, st: State)
    requires TransStmt(Return(v), st).Ok?
    ensures !Blank(TransStmt(Return(v), st).value.0)
  {
    var t := TransStmt(Return(v), st).value.0;
    assert t[0] == 'r';
    NotBlankAt(t, 0);
  }

  lemma AssignVisible(targets: seq<Expr>, value: Expr, st: State)
    requires TransStmt(Assign(targets, value), st).Ok?
    ensures !Blank(TransStmt(Assign(targets, value), st).value.0)
  {
    var t := TransStmt(Assign(targets, value), st).value.0;
    AssignKeyword(targets, value, st);
    if st.functionStack == [] {
      StartsVisible(t, "let ");
    } else {
      StartsVisible(t, "const ");
    }
  }

  lemma AugAssignVisible(target: Expr, op: BinOperator, value: Expr, st: State)
    requires TransStmt(AugAssign(target, op, value), st).Ok?
    ensures !Blank(TransStmt(AugAssign(target, op, value), st).value.0)
  {
    AugAssignStmtText(target, op, value, st);
    AugAssignTextVisible(Show(TransExpr(target).value), op, Show(TransExpr(value).value));
  }

  lemma AugAssignTextVisible(target: string, op: BinOperator, value: string)
    ensures !Blank(AugAssignText(target, op, value))
  {
    var t := AugAssignText(target, op, value);
    AugAssignEndsInSemicolon(target, op, value);
    NotBlankAt(t, |t| - 1);
  }

  /** An augmented assignment that translates is `AugAssignText` of its
      translated parts. */
  lemma AugAssignStmtText(target: Expr, op: BinOperator, value: Expr, st: State)
    requires TransStmt(AugAssign(target, op, value), st).Ok?
    ensures TransExpr(target).Ok? && TransExpr(value).Ok?
    ensures TransStmt(AugAssign(target, op, value), st).value.0
      == AugAssignText(Show(TransExpr(target).value), op, Show(TransExpr(value).value))
  {
  }


  lemma IfVisible(test: Expr, body: seq<Stmt>, orelse: seq<Stmt>, st: State)
    requires TransStmt(If(test, body, orelse), st).Ok?
    ensures !Blank(TransStmt(If(test, body, orelse), st).value.0)
  {
    var t := TransStmt(If(test, body, orelse), st).value.0;
    assert t[0] == 'i';
    NotBlankAt(t, 0);
  }

  lemma ForVisible(target: Expr, iter: Expr, body: seq<Stmt>, st: State)
    requires TransStmt(For(target, iter, body), st).Ok?
    ensures !Blank(TransStmt(For(target, iter, body), st).value.0)
  {
    var t := TransStmt(For(target, iter, body), st).value.0;
    assert t[0] == 'f';
    NotBlankAt(t, 0);
  }

  lemma WhileVisible(test: Expr, body: seq<Stmt>, st: State)
    requires TransStmt(While(test, body), st).Ok?
    ensures !Blank(TransStmt(While(test, body), st).value.0)
  {
    var t := TransStmt(While(test, body), st).value.0;
    assert t[0] == 'w';
    NotBlankAt(t, 0);
  }

  lemma ExprStmtVisible(value: Expr, st: State)
    requires TransStmt(ExprStmt(value), st).Ok?
    ensures !Blank(TransStmt(ExprStmt(value), st).value.0)
  {
    var t := TransStmt(ExprStmt(value), st).value.0;
    assert EndsWith(t, ";");
    assert t[|t| - 1] == ';';
    NotBlankAt(t, |t| - 1);
  }

  lemma AugAssignEndsInSemicolon(target: string, op: BinOperator, value: string)
    ensures var t := AugAssignText(target, op, value); |t| > 0 && t[|t| - 1] == ';'
  {
    AugAssignForms(target, op, value);
  }

  /** The statement texts of a body are all visible, so the blank filter
      keeps every one of them. */
  lemma {:induction false} BodyLinesVisible(body: seq<Stmt>, st: State)
    requires TransBody(body, st).Ok?
    ensures forall k :: 0 <= k < |TransBody(body, st).value.0| ==> !Blank(TransBody(body, st).value.0[k])
    ensures NonBlank(TransBody(body, st).value.0) == TransBody(body, st).value.0
    decreases |body|
  {
    if body != [] {
      var first := TransStmt(body[0], st).value;
      var rest := TransBody(body[1..], st).value;
      var ls := TransBody(body, st).value.0;
      assert ls == [first.0] + rest.0;
      StmtTextVisible(body[0], st);
      BodyLinesVisible(body[1..], st);
      NonBlankCons(first.0, rest.0);
      forall k | 0 <= k < |ls| ensures !Blank(ls[k]) {
        if k > 0 {
          assert ls[k] == rest.0[k - 1];
        }
      }
    }
  }

  /** Every line with the same prefix in front of it. */
  function Prefixed(pad: string, lines: seq<string>): (r: seq<string>)
    ensures |r| == |lines|
  {
    seq(|lines|, k requires 0 <= k < |lines| => pad + lines[k])
  }

  /** Lines that are not empty are all indented, none dropped. */
  lemma {:induction false} IndentAllPrefixed(st: State, lines: seq<string>)
    requires forall k :: 0 <= k < |lines| ==> !Blank(lines[k])
    ensures IndentAll(st, lines) == Prefixed(Spaces(4 * st.indentLevel), lines)
    decreases |lines|
  {
    var pad := Spaces(4 * st.indentLevel);
    if lines != [] {
      assert lines[0] != "";
      assert forall k :: 0 <= k < |lines[1..]| ==> !Blank(lines[1..][k]) by {
        forall k | 0 <= k < |lines[1..]| ensures !Blank(lines[1..][k]) {
          assert lines[1..][k] == lines[k + 1];
        }
      }
      IndentAllPrefixed(st, lines[1..]);
      assert Prefixed(pad, lines) == [pad + lines[0]] + Prefixed(pad, lines[1..]);
    }
  }

  /** The body text of a block whose lines are visible. */
  lemma BlockPrefixed(st: State, lines: seq<string>)
    requires forall k :: 0 <= k < |lines| ==> !Blank(lines[k])
    ensures Block(st, lines) == Join("\n", Prefixed(Spaces(4 * st.indentLevel), lines))
  {
    IndentAllPrefixed(st, lines);
  }

  lemma CallOf(f: Expr, args: seq<Expr>, ft: Js, at: seq<Js>)
    requires TransExpr(f).Ok? && TransExpr(f).value == ft
    requires TransExprs(args).Ok? && TransExprs(args).value == at
    ensures TransExpr(Call(f, args)) == (var t :- CallText(f.Name?, ft, at); Ok(Text(t)))
  {
  }

  /** How an operator other than `**` is written between its operands:
      the five arithmetic operators with a visitor as themselves, any
      other operator as the repr of its node. */
  function OperatorText(op: BinOperator): string {
    match op
    case Add => "+"
    case Sub => "-"
    case Mult => "*"
    case Div => "/"
    case Mod => "%"
    case Pow => "**"
    case _ => "<ast." + BinOperatorName(op) + " object>"
  }

  /** The text of a binary operation: `Math.pow(a, b)` for a power;
      otherwise the operand texts around the operator, the whole of it in
      parentheses exactly when an operand is itself a binary operation. An
      operator without a visitor (`//`, `<<`, `&`, ...) does not fail: the
      repr of its node lands between the operands. */
  lemma BinOpOf(l: Expr, op: BinOperator, r: Expr, lt: Js, rt: Js)
    requires TransExpr(l).Ok? && TransExpr(l).value == lt
    requires TransExpr(r).Ok? && TransExpr(r).value == rt
    ensures op == Pow ==>
      TransExpr(BinOp(l, op, r)) == Ok(Text("Math.pow(" + Show(lt) + ", " + Show(rt) + ")"))
    ensures op != Pow && !(l.BinOp? || r.BinOp?) ==>
      TransExpr(BinOp(l, op, r)) == Ok(Text(Show(lt) + " " + OperatorText(op) + " " + Show(rt)))
    ensures op != Pow && (l.BinOp? || r.BinOp?) ==>
      TransExpr(BinOp(l, op, r)) == Ok(Text("(" + Show(lt) + " " + OperatorText(op) + " " + Show(rt) + ")"))
  {
    assert op != Pow ==> Show(VisitBinOperator(op)) == OperatorText(op);
  }

  /** Rendering a comparison renders the left operand and the comparators,
      then joins the links with `&&`. */
  lemma CompareOf(l: Expr, ops: seq<CmpOperator>, comps: seq<Expr>, lt: Js, ct: seq<Js>)
    requires TransExpr(l).Ok? && TransExpr(l).value == lt
    requires TransExprs(comps).Ok? && TransExprs(comps).value == ct
    ensures |comps| < |ops| ==> TransExpr(Compare(l, ops, comps)).Err?
    ensures |ops| <= |comps| ==>
      TransExpr(Compare(l, ops, comps))
        == Ok(Text(Join(" && ", Comparisons(Show(lt), ShowCmpOperators(ops), ShowAll(ct)))))
  {
  }

  /** A module translates exactly when its statements do, and is then
      their texts, every one of them, joined by newlines. */
  lemma ModuleOf(m: Module)
    ensures TransModule(m).Ok? <==> TransBody(m.body, Fresh).Ok?
    ensures TransBody(m.body, Fresh).Ok? ==>
      TransModule(m) == Ok(Join("\n", TransBody(m.body, Fresh).value.0))
  {
    if TransBody(m.body, Fresh).Ok? {
      BodyLinesVisible(m.body, Fresh);
    }
  }

  /** The state a block's statements are visited in. */
  function Deeper(st: State): State {
    st.(indentLevel := st.indentLevel + 1)
  }

  /** A block translates exactly when its statements do, one level deeper;
      it then has one line per statement, none dropped, and hands back the
      state it was given. */
  lemma BlockOf(body: seq<Stmt>, st: State)
    ensures TransBlock(body, st).Ok? <==> TransBody(body, Deeper(st)).Ok?
    ensures TransBody(body, Deeper(st)).Ok? ==>
      TransBlock(body, st) == Ok((TransBody(body, Deeper(st)).value.0, st))
      && |TransBody(body, Deeper(st)).value.0| == |body|
  {
    if TransBody(body, Deeper(st)).Ok? {
      BodyLinesVisible(body, Deeper(st));
      assert Deeper(st).(indentLevel := Deeper(st).indentLevel - 1) == st;
    }
  }

  /** The lines of a translated body are visible, so `Block` lays them out
      one per line behind the indentation of `st`. */
  lemma BodyBlock(body: seq<Stmt>, st: State, at: State)
    requires TransBody(body, st).Ok?
    ensures Block(at, TransBody(body, st).value.0)
         == Join("\n", Prefixed(Spaces(4 * at.indentLevel), TransBody(body, st).value.0))
  {
    BodyLinesVisible(body, st);
    BlockPrefixed(at, TransBody(body, st).value.0);
  }

  /** An `if` is `if (test) {`, its body lines indented to the `if`'s own
      level (not one deeper: the level is lowered before the lines are
      indented), and `}`. It is followed by nothing when there is no else
      branch, by ` else ` and the line of a lone nested `if` (an `elif`),
      and otherwise by a braced `else` block closed at the same level. */
  lemma IfOf(test: Expr, body: seq<Stmt>, orelse: seq<Stmt>, st: State)
    requires TransExpr(test).Ok?
    requires TransBody(body, Deeper(st)).Ok? && TransBody(orelse, Deeper(st)).Ok?
    ensures var t := Show(TransExpr(test).value);
      var ls := TransBody(body, Deeper(st)).value.0;
      var els := TransBody(orelse, Deeper(st)).value.0;
      var pad := Spaces(4 * st.indentLevel);
      TransStmt(If(test, body, orelse), st) == Ok((
        "if (" + t + ") {\n" + Join("\n", Prefixed(pad, ls)) + "\n}"
        + (if orelse == [] then ""
           else if |orelse| == 1 && StartsWith(els[0], "if ") then " else " + els[0]
           else " else {\n" + Join("\n", Prefixed(pad, els)) + "\n" + pad + "}"),
        st))
  {
    var ls := TransBody(body, Deeper(st)).value.0;
    var els := TransBody(orelse, Deeper(st)).value.0;
    IfStmtText(test, body, orelse, st);
    BodyBlock(body, Deeper(st), st);
    BodyLinesVisible(orelse, Deeper(st));
    ElseOf(st, els);
  }

  /** The `if` statement is `IfText` of its visited parts. */
  lemma IfStmtText(test: Expr, body: seq<Stmt>, orelse: seq<Stmt>, st: State)
    requires TransExpr(test).Ok?
    requires TransBody(body, Deeper(st)).Ok? && TransBody(orelse, Deeper(st)).Ok?
    ensures TransStmt(If(test, body, orelse), st)
         == Ok((IfText(Show(TransExpr(test).value), st, TransBody(body, Deeper(st)).value.0,
                       TransBody(orelse, Deeper(st)).value.0), st))
  {
    BlockOf(body, st);
    BlockOf(orelse, st);
  }

  /** The else part laid out from visible lines. */
  lemma ElseOf(st: State, els: seq<string>)
    requires forall k :: 0 <= k < |els| ==> !Blank(els[k])
    ensures var pad := Spaces(4 * st.indentLevel);
      ElseText(st, els)
        == (if els == [] then ""
            else if |els| == 1 && StartsWith(els[0], "if ") then " else " + els[0]
            else " else {\n" + Join("\n", Prefixed(pad, els)) + "\n" + pad + "}")
  {
    BlockPrefixed(st, els);
    assert IndentLine(st, "") == Spaces(4 * st.indentLevel);
  }

  /** A loop is its header, its body block and the closing brace. */
  lemma LoopOf(header: string, body: seq<Stmt>, st: State)
    requires TransBody(body, Deeper(st)).Ok?
    ensures LoopText(header, st, TransBody(body, Deeper(st)).value.0)
         == header + " {\n" + Join("\n", Prefixed(Spaces(4 * st.indentLevel), TransBody(body, Deeper(st)).value.0)) + "\n}"
  {
    BodyBlock(body, Deeper(st), st);
  }

  /** Every `for` is `for (let target of iterable) {`, its body lines at
      the loop's own indentation, and `}`; a `range` iterable is the
      `Array.from` text of `RangeCall`. */
  lemma ForOf(target: Expr, iter: Expr, body: seq<Stmt>, st: State)
    requires TransExpr(target).Ok? && TransExpr(iter).Ok? && TransBody(body, Deeper(st)).Ok?
    ensures TransStmt(For(target, iter, body), st)
         == Ok(("for (let " + Show(TransExpr(target).value) + " of " + Show(TransExpr(iter).value) + ") {\n"
                + Join("\n", Prefixed(Spaces(4 * st.indentLevel), TransBody(body, Deeper(st)).value.0)) + "\n}", st))
  {
    var pre := "for (let " + Show(TransExpr(target).value) + " of ";
    var e := Show(TransExpr(iter).value);
    BlockOf(body, st);
    ForStmtText(target, iter, body, st);
    LoopOf(pre + e + ")", body, st);
    HeaderRegroup(pre, e, Join("\n", Prefixed(Spaces(4 * st.indentLevel), TransBody(body, Deeper(st)).value.0)));
  }

  /** A `while` is `while (test) {`, its body lines at the loop's own
      indentation, and `}`. */
  lemma WhileOf(test: Expr, body: seq<Stmt>, st: State)
    requires TransExpr(test).Ok? && TransBody(body, Deeper(st)).Ok?
    ensures TransStmt(While(test, body), st)
         == Ok(("while (" + Show(TransExpr(test).value) + ") {\n"
                + Join("\n", Prefixed(Spaces(4 * st.indentLevel), TransBody(body, Deeper(st)).value.0)) + "\n}", st))
  {
    var e := Show(TransExpr(test).value);
    BlockOf(body, st);
    WhileStmtText(test, body, st);
    LoopOf("while (" + e + ")", body, st);
    HeaderRegroup("while (", e, Join("\n", Prefixed(Spaces(4 * st.indentLevel), TransBody(body, Deeper(st)).value.0)));
  }

  /** A `for` whose parts translate is `LoopText` of its header and its
      block. */
  lemma ForStmtText(target: Expr, iter: Expr, body: seq<Stmt>, st: State)
    requires TransExpr(target).Ok? && TransExpr(iter).Ok? && TransBlock(body, st).Ok?
    ensures TransStmt(For(target, iter, body), st)
         == Ok((LoopText("for (let " + Show(TransExpr(target).value) + " of " + Show(TransExpr(iter).value) + ")",
                         st, TransBlock(body, st).value.0), st))
  {
  }

  /** A `while` whose parts translate is `LoopText` of its header and its
      block. */
  lemma WhileStmtText(test: Expr, body: seq<Stmt>, st: State)
    requires TransExpr(test).Ok? && TransBlock(body, st).Ok?
    ensures TransStmt(While(test, body), st)
         == Ok((LoopText("while (" + Show(TransExpr(test).value) + ")", st, TransBlock(body, st).value.0), st))
  {
  }

  lemma HeaderRegroup(pre: string, e: string, lines: string)
    ensures pre + e + ")" + " {\n" + lines + "\n}" == pre + e + ") {\n" + lines + "\n}"
  {
  }

  /** An assignment declares its first target with `let` at module level
      and `const` inside a function; a name target is written as its
      identifier, any other target as its translation. There must be a
      target (Python's `targets[0]`). */
  lemma AssignOf(targets: seq<Expr>, value: Expr, st: State)
    ensures targets == [] ==> TransStmt(Assign(targets, value), st).Err?
    ensures TransExpr(value).Err? ==> TransStmt(Assign(targets, value), st).Err?
    ensures targets != [] && targets[0].Name? && TransExpr(value).Ok? ==>
      TransStmt(Assign(targets, value), st)
        == Ok(((if st.functionStack == [] then "let " else "const ")
               + targets[0].id + " = " + Show(TransExpr(value).value) + ";", st))
    ensures targets != [] && !targets[0].Name? && TransExpr(targets[0]).Ok? && TransExpr(value).Ok? ==>
      TransStmt(Assign(targets, value), st)
        == Ok(((if st.functionStack == [] then "let " else "const ")
               + Show(TransExpr(targets[0]).value) + " = " + Show(TransExpr(value).value) + ";", st))
  {
  }

  /** The state a function's body is visited in: its name pushed on the
      function stack, one level deeper. */
  function InFunction(name: string, st: State): State {
    State(st.functionStack + [name], st.indentLevel + 1)
  }

  /** A `def` becomes `function camelName(params) {`, its body lines at
      the `def`'s own indentation (so a top-level function's body is not
      indented), and `}`; an empty body becomes an indented `// pass`.
      The body is visited with the function's name on the stack, so its
      assignments declare `const`. */
  lemma FunctionDefOf(name: string, params: seq<string>, body: seq<Stmt>, st: State)
    requires TransBody(body, InFunction(name, st)).Ok?
    ensures var pad := Spaces(4 * st.indentLevel);
      var ls := TransBody(body, InFunction(name, st)).value.0;
      TransStmt(FunctionDef(name, params, body), st)
        == Ok(("function " + CamelCase(name) + "(" + Join(", ", params) + ") {\n"
               + (if body == [] then pad + "// pass" else Join("\n", Prefixed(pad, ls))) + "\n}", st))
  {
    var pushed := st.(functionStack := st.functionStack + [name]);
    assert Deeper(pushed) == InFunction(name, st);
    BlockOf(body, pushed);
    var ls := TransBody(body, InFunction(name, st)).value.0;
    BodyBlock(body, InFunction(name, st), pushed);
    var pad := Spaces(4 * st.indentLevel);
    if body != [] {
      JoinNotEmpty("\n", Prefixed(pad, ls));
    }
  }

  lemma JoinNotEmpty(sep: string, parts: seq<string>)
    requires |parts| > 0 && parts[0] != ""
    ensures Join(sep, parts) != ""
  {
  }

  /** A key/value pair of a dict display translates when there is a key
      (no `**mapping`), the value translates, and a key that is not a
      string constant translates. */
  predicate EntryTranslates(key: Option<Expr>, value: Expr) {
    key.Some? && TransExpr(value).Ok? && (IsStringConstant(key.value) || TransExpr(key.value).Ok?)
  }

  /** The entry written for such a pair: a string key as its JSON text, any
      other key as a computed key `[k]`, then `: ` and the value. */
  function EntryShown(key: Expr, value: Expr): string
    requires TransExpr(value).Ok? && (IsStringConstant(key) || TransExpr(key).Ok?)
  {
    var v := Show(TransExpr(value).value);
    if IsStringConstant(key) then Json.Quote(key.constant.s) + ": " + v
    else "[" + Show(TransExpr(key).value) + "]: " + v
  }

  /** The entries of a dict display from pair `i` on exist exactly when
      every pair `zip` forms from there translates. */
  lemma {:induction false} DictEntriesOk(d: Expr, i: nat)
    requires d.Dict?
    ensures DictEntries(d, i).Ok? <==>
      forall j :: i <= j < |d.keys| && j < |d.values| ==> EntryTranslates(d.keys[j], d.values[j])
    decreases |d.keys| - i
  {
    if i < |d.keys| && i < |d.values| {
      DictEntriesOk(d, i + 1);
      AllPairsStep(d, i);
      if EntryTranslates(d.keys[i], d.values[i]) {
        DictEntryOk(d, i);
      } else {
        DictEntryErr(d, i);
      }
    }
  }

  /** Every pair from `i` on translates exactly when pair `i` does and
      every pair from `i + 1` on does. */
  lemma AllPairsStep(d: Expr, i: nat)
    requires d.Dict? && i < |d.keys| && i < |d.values|
    ensures (forall j :: i <= j < |d.keys| && j < |d.values| ==> EntryTranslates(d.keys[j], d.values[j]))
        <==> EntryTranslates(d.keys[i], d.values[i])
             && (forall j :: i + 1 <= j < |d.keys| && j < |d.values| ==> EntryTranslates(d.keys[j], d.values[j]))
  {
  }

  /** Entry `k` from `i` on, with `k` the offset `j - i`, is the shown
      pair `j`. */
  lemma DictEntryAt(d: Expr, i: nat, j: nat, k: nat)
    requires d.Dict? && DictEntries(d, i).Ok? && i <= j < |d.keys| && j < |d.values| && k == j - i
    ensures EntryTranslates(d.keys[j], d.values[j])
    ensures k < |DictEntries(d, i).value| && DictEntries(d, i).value[k] == EntryShown(d.keys[j].value, d.values[j])
  {
    DictEntryIs(d, i, j, k);
    DictEntryText(d, j);
  }

  /** Entry `j - i` from `i` on is what the loop writes for pair `j`. */
  lemma {:induction false} DictEntryIs(d: Expr, i: nat, j: nat, k: nat)
    requires d.Dict? && DictEntries(d, i).Ok? && i <= j < |d.keys| && j < |d.values| && k == j - i
    ensures DictEntry(d, j).Ok? && k < |DictEntries(d, i).value| && DictEntries(d, i).value[k] == DictEntry(d, j).value
    decreases k
  {
    if k == 0 {
      DictEntryHead(d, i);
    } else {
      var next, kn := i + 1, k - 1;
      DictEntryShift(d, i, next, k, kn);
      DictEntryIs(d, next, j, kn);
    }
  }

  /** The first entry from `i` is the loop's text for pair `i`. */
  lemma DictEntryHead(d: Expr, i: nat)
    requires d.Dict? && DictEntries(d, i).Ok? && i < |d.keys| && i < |d.values|
    ensures DictEntry(d, i).Ok? && DictEntries(d, i).value[0] == DictEntry(d, i).value
  {
  }

  /** Past the first pair, entry `k` from `i` is entry `kn` from `next`,
      one index and one offset further on. */
  lemma DictEntryShift(d: Expr, i: nat, next: nat, k: nat, kn: nat)
    requires d.Dict? && DictEntries(d, i).Ok? && next == i + 1 && kn == k - 1 && 0 < k < |DictEntries(d, i).value|
    ensures DictEntries(d, next).Ok?
    ensures kn < |DictEntries(d, next).value|
    ensures DictEntries(d, i).value[k] == DictEntries(d, next).value[kn]
  {
    var rest := DictEntries(d, next).value;
    assert DictEntries(d, i).value == [DictEntry(d, i).value] + rest;
    ConsIndex(DictEntry(d, i).value, rest, k);
  }

  lemma ConsIndex(e: string, rest: seq<string>, k: nat)
    requires 0 < k <= |rest|
    ensures ([e] + rest)[k] == rest[k - 1]
  {
  }

  /** One turn of the entry loop writes `EntryShown`, and fails exactly
      when the pair does not translate. */
  lemma DictEntryText(d: Expr, i: nat)
    requires d.Dict? && i < |d.keys| && i < |d.values|
    ensures DictEntry(d, i).Ok? <==> EntryTranslates(d.keys[i], d.values[i])
    ensures DictEntry(d, i).Ok? ==>
      EntryTranslates(d.keys[i], d.values[i]) && DictEntry(d, i).value == EntryShown(d.keys[i].value, d.values[i])
  {
  }

  /** One step of `DictEntries` over a pair that translates. */
  lemma DictEntryOk(d: Expr, i: nat)
    requires d.Dict? && i < |d.keys| && i < |d.values| && EntryTranslates(d.keys[i], d.values[i])
    ensures DictEntries(d, i).Ok? <==> DictEntries(d, i + 1).Ok?
    ensures DictEntries(d, i).Ok? ==>
      DictEntries(d, i).value == [EntryShown(d.keys[i].value, d.values[i])] + DictEntries(d, i + 1).value
  {
    DictEntryText(d, i);
  }

  /** One step of `DictEntries` over a pair that does not. */
  lemma DictEntryErr(d: Expr, i: nat)
    requires d.Dict? && i < |d.keys| && i < |d.values| && !EntryTranslates(d.keys[i], d.values[i])
    ensures DictEntries(d, i).Err?
  {
    DictEntryText(d, i);
  }

  /** A dict display translates exactly when each of its pairs does, and
      is then the shown pairs between braces. */
  lemma DictOf(keys: seq<Option<Expr>>, values: seq<Expr>)
    ensures TransExpr(Dict(keys, values)).Ok? <==>
      forall j :: 0 <= j < |keys| && j < |values| ==> EntryTranslates(keys[j], values[j])
    ensures TransExpr(Dict(keys, values)).Ok? ==>
      TransExpr(Dict(keys, values)) == Ok(Text("{" + Join(", ", DictEntries(Dict(keys, values), 0).value) + "}"))
      && forall j :: 0 <= j < |keys| && j < |values| ==>
           EntryTranslates(keys[j], values[j])
           && DictEntries(Dict(keys, values), 0).value[j] == EntryShown(keys[j].value, values[j])
    ensures TransExpr(Dict(keys, values)).Ok? ==>
      |DictEntries(Dict(keys, values), 0).value| == (if |keys| < |values| then |keys| else |values|)
  {
    var d := Dict(keys, values);
    DictEntriesOk(d, 0);
    assert TransExpr(d) == (var entries :- DictEntries(d, 0); Ok(Text("{" + Join(", ", entries) + "}")));
    if DictEntries(d, 0).Ok? {
      forall j | 0 <= j < |keys| && j < |values|
        ensures EntryTranslates(keys[j], values[j])
          && DictEntries(d, 0).value[j] == EntryShown(keys[j].value, values[j])
      {
        DictEntryAt(d, 0, j, j);
      }
    }
  }

  /** A `**mapping` entry (a pair without a key) makes the display fail. */
  lemma DictUnpackingFails(keys: seq<Option<Expr>>, values: seq<Expr>, k: nat)
    requires k < |keys| && k < |values| && keys[k].None?
    ensures TransExpr(Dict(keys, values)).Err?
  {
    DictOf(keys, values);
    assert !EntryTranslates(keys[k], values[k]);
  }

  // ---------------------------------------------------------------------
  // Whole constructs

  /** Assigning the same name twice at module level declares it twice:
      nothing records the names already declared. */
  lemma RedeclaredAtModuleLevel(x: string, i: int, j: int)
    ensures TransModule(Module([
      Assign([Name(x)], Const(IntConst(i))),
      Assign([Name(x)], Const(IntConst(j)))]))
      == Ok(AssignText(Fresh, x, IntToString(i)) + "\n" + AssignText(Fresh, x, IntToString(j)))
    ensures StartsWith(AssignText(Fresh, x, IntToString(j)), "let ")
  {
    var a := Assign([Name(x)], Const(IntConst(i)));
    var b := Assign([Name(x)], Const(IntConst(j)));
    var ta := AssignText(Fresh, x, IntToString(i));
    var tb := AssignText(Fresh, x, IntToString(j));
    AssignOf([Name(x)], Const(IntConst(i)), Fresh);
    AssignOf([Name(x)], Const(IntConst(j)), Fresh);
    BodyOfTwo(a, b, Fresh, ta, tb);
    ModuleOf(Module([a, b]));
    JoinCons("\n", ta, [tb]);
  }

  /** An `elif` is chained as `else if` after the closing brace, not nested
      in an `else` block. */
  lemma ElifChains(test: string, st: State, lines: seq<string>, elseLine: string)
    requires StartsWith(elseLine, "if ")
    ensures EndsWith(IfText(test, st, lines, [elseLine]), "\n} else " + elseLine)
  {
    var head := "if (" + test + ") {\n" + Block(st, lines);
    var text := IfText(test, st, lines, [elseLine]);
    assert text == head + "\n}" + " else " + elseLine;
    assert text == head + ("\n} else " + elseLine);
  }

  /** `range` with one to three rendered arguments becomes the `Array.from`
      expression whose values `JsRange.RangeAgrees` shows to be Python's. */
  lemma RangeCallText(args: seq<Js>)
    requires 1 <= |args| <= 3
    ensures CallText(true, Text("range"), args) == Ok(JsRange.Render(RangeOf(ShowAll(args))))
  {
    assert Text("range") != Text("int") && Text("range") != Text("float");
    assert Text("range") != Text("str") && Text("range") != Text("len");
  }

  /** `range` with one, two or three arguments becomes an `Array.from`
      over a length and an index map: `range(n)` the indices `0 .. n-1`,
      `range(a, b)` the length `b - a` shifted by `a`, `range(a, b, s)` the
      length `Math.ceil((b - a) / s)` with `i * s + a`. The argument texts
      are put in without parentheses. */
  lemma RangeCall(args: seq<Expr>)
    requires 1 <= |args| <= 3 && TransExprs(args).Ok?
    ensures var a := ShowAll(TransExprs(args).value);
      |args| == 1 ==>
        TransExpr(Call(Name("range"), args)) == Ok(Text("Array.from({length: " + a[0] + "}, (_, i) => i)"))
    ensures var a := ShowAll(TransExprs(args).value);
      |args| == 2 ==>
        TransExpr(Call(Name("range"), args))
          == Ok(Text("Array.from({length: " + a[1] + " - " + a[0] + "}, (_, i) => i + " + a[0] + ")"))
    ensures var a := ShowAll(TransExprs(args).value);
      |args| == 3 ==>
        TransExpr(Call(Name("range"), args))
          == Ok(Text("Array.from({length: Math.ceil((" + a[1] + " - " + a[0] + ") / " + a[2]
                     + ")}, (_, i) => i * " + a[2] + " + " + a[0] + ")"))
  {
    var at := TransExprs(args).value;
    CallOf(Name("range"), args, Text("range"), at);
    RangeCallText(at);
    assert TransExpr(Call(Name("range"), args)) == Ok(Text(JsRange.Render(RangeOf(ShowAll(at)))));
    RenderRangeOf(ShowAll(at));
  }

  /** The `Array.from` text of each arity. */
  lemma RenderRangeOf(a: seq<string>)
    requires 1 <= |a| <= 3
    ensures |a| == 1 ==> JsRange.Render(RangeOf(a)) == "Array.from({length: " + a[0] + "}, (_, i) => i)"
    ensures |a| == 2 ==>
      JsRange.Render(RangeOf(a)) == "Array.from({length: " + a[1] + " - " + a[0] + "}, (_, i) => i + " + a[0] + ")"
    ensures |a| == 3 ==>
      JsRange.Render(RangeOf(a))
        == "Array.from({length: Math.ceil((" + a[1] + " - " + a[0] + ") / " + a[2]
           + ")}, (_, i) => i * " + a[2] + " + " + a[0] + ")"
  {
  }

  /** The one-argument rewrites of `int`, `float`, `str` and `len`. */
  lemma ConversionCalls(a: Js)
    ensures CallText(true, Text("int"), [a]) == Ok("parseInt(" + Show(a) + ", 10)")
    ensures CallText(true, Text("float"), [a]) == Ok("parseFloat(" + Show(a) + ")")
    ensures CallText(true, Text("str"), [a]) == Ok("String(" + Show(a) + ")")
    ensures CallText(true, Text("len"), [a]) == Ok(Show(a) + ".length")
  {
  }

  /** Every argument rendered to text. */
  predicate AllText(vs: seq<Js>) {
    forall i :: 0 <= i < |vs| ==> vs[i].Text?
  }

  /** A call the builtin rewrites do not take (any other name, a conversion
      with other than one argument, `range` with none or more than three)
      keeps its name and its arguments; only `print` is renamed, to
      `console.log`. */
  lemma PlainCall(f: string, args: seq<Js>)
    requires AllText(args)
    requires !(f in Conversions && |args| == 1) && !(f == "range" && 1 <= |args| <= 3)
    ensures CallText(true, Text(f), args) ==
      Ok((if f == "print" then "console.log" else f) + "(" + Join(", ", ShowAll(args)) + ")")
  {
    assert f != "int" || |args| != 1;
  }

  /** A call whose rendered arguments include a node object fails, as
      `", ".join` does, unless a builtin rewrite takes it first. */
  lemma NodeObjectArgumentFails(f: string, args: seq<Js>, k: nat)
    requires k < |args| && args[k].NodeObject?
    requires !(f in Conversions && |args| == 1) && !(f == "range" && 1 <= |args| <= 3)
    ensures CallText(true, Text(f), args).Err?
  {
    assert f != "int" || |args| != 1;
  }

  lemma FormattedParts(s: string, x: string)
    ensures JoinedParts(JoinedStr([Const(StrConst(s)), FormattedValue(Name(x))]), 0)
      == Ok([Json.EscapeBody(s), "${" + x + "}"])
  {
    var f := JoinedStr([Const(StrConst(s)), FormattedValue(Name(x))]);
    var placeholder := "${" + x + "}";
    assert f.parts[0] == Const(StrConst(s)) && IsStringConstant(f.parts[0]);
    assert f.parts[1] == FormattedValue(Name(x)) && !IsStringConstant(f.parts[1]);
    assert TransExpr(Name(x)) == Ok(Text(x));
    assert JoinedParts(f, 2) == Ok([]);
    assert JoinedParts(f, 1) == Ok([placeholder] + []);
    assert [placeholder] + [] == [placeholder];
    assert JoinedParts(f, 0) == Ok([LiteralPart(s)] + [placeholder]);
    assert [LiteralPart(s)] + [placeholder] == [Json.EscapeBody(s), placeholder];
  }

  /** Every part of an f-string is a string literal. */
  predicate AllLiterals(parts: seq<Expr>) {
    forall k :: 0 <= k < |parts| ==> IsStringConstant(parts[k])
  }

  /** The text the literal parts of an f-string spell, in order. */
  function Literals(parts: seq<Expr>): string {
    if parts == [] then ""
    else (if IsStringConstant(parts[0]) then parts[0].constant.s else "") + Literals(parts[1..])
  }

  /** From index `i` on, the rendered parts of an f-string of literals
      concatenate to the escape of the text they spell. */
  lemma {:induction false} LiteralParts(j: Expr, i: nat)
    requires j.JoinedStr? && i <= |j.parts| && AllLiterals(j.parts)
    ensures JoinedParts(j, i).Ok?
    ensures Concat(JoinedParts(j, i).value) == Json.EscapeBody(Literals(j.parts[i..]))
    decreases |j.parts| - i
  {
    if i == |j.parts| {
      assert j.parts[i..] == [];
    } else {
      var s := j.parts[i].constant.s;
      assert IsStringConstant(j.parts[i]);
      LiteralParts(j, i + 1);
      var rest := JoinedParts(j, i + 1).value;
      var ps := [Json.EscapeBody(s)] + rest;
      assert JoinedParts(j, i) == Ok(ps);
      assert ps[0] == Json.EscapeBody(s) && ps[1..] == rest;
      assert j.parts[i..][0] == j.parts[i] && j.parts[i..][1..] == j.parts[i + 1..];
      assert Literals(j.parts[i..]) == s + Literals(j.parts[i + 1..]);
      Json.EscapeBodyAppend(s, Literals(j.parts[i + 1..]));
    }
  }

  /** An f-string of literal pieces only is one template literal holding
      the JSON escape of the text the pieces spell, in order. */
  lemma LiteralTemplate(parts: seq<Expr>)
    requires AllLiterals(parts)
    ensures TransExpr(JoinedStr(parts)) == Ok(Text("`" + Json.EscapeBody(Literals(parts)) + "`"))
  {
    var j := JoinedStr(parts);
    LiteralParts(j, 0);
    assert parts[0..] == parts;
    JoinedStrOf(j, JoinedParts(j, 0).value);
  }

  /** The template literal of an f-string of a literal and a variable. */
  function Template(s: string, x: string): string {
    "`" + Json.EscapeBody(s) + "${" + x + "}`"
  }

  lemma ConcatTwo(a: string, b: string)
    ensures Concat([a, b]) == a + b
  {
    assert [a, b][1..] == [b] && [b][1..] == [];
    assert Concat([b]) == b + Concat([]) == b + "" == b;
  }

  /** An f-string of a literal and a variable: the literal is escaped as in
      JSON and the variable becomes a `${...}` placeholder. */
  lemma FormattedString(s: string, x: string)
    ensures TransExpr(JoinedStr([Const(StrConst(s)), FormattedValue(Name(x))])) == Ok(Text(Template(s, x)))
  {
    var f := JoinedStr([Const(StrConst(s)), FormattedValue(Name(x))]);
    FormattedParts(s, x);
    JoinedStrOf(f, [Json.EscapeBody(s), "${" + x + "}"]);
    TemplateOfParts(s, x);
  }

  /** Rendering an f-string renders its parts and joins them between
      backquotes. */
  lemma JoinedStrOf(j: Expr, ps: seq<string>)
    requires j.JoinedStr? && JoinedParts(j, 0) == Ok(ps)
    ensures TransExpr(j) == Ok(Text("`" + Concat(ps) + "`"))
  {
  }

  lemma TemplateOfParts(s: string, x: string)
    ensures "`" + Concat([Json.EscapeBody(s), "${" + x + "}"]) + "`" == Template(s, x)
  {
    var e := Json.EscapeBody(s);
    var placeholder := "${" + x + "}";
    ConcatTwo(e, placeholder);
    assert "`" + (e + placeholder) + "`" == Template(s, x);
  }

  lemma ExprsOne(e: Expr, v: Js)
    requires TransExpr(e) == Ok(v)
    ensures TransExprs([e]) == Ok([v])
  {
    ExprsCons(e, [], v, []);
    assert [e] + [] == [e] && [v] + [] == [v];
  }

  lemma PrintOne(shown: string)
    ensures CallText(true, Text("print"), [Text(shown)]) == Ok("console.log(" + shown + ")")
  {
    PlainCall("print", [Text(shown)]);
    assert ShowAll([Text(shown)]) == [shown];
    assert Join(", ", [shown]) == shown;
    assert "console.log" + "(" + shown + ")" == "console.log(" + shown + ")";
  }

  /** `print` of that f-string writes the template literal as the argument
      of `console.log`. */
  lemma FormattedPrint(s: string, x: string)
    ensures TransExpr(Call(Name("print"), [JoinedStr([Const(StrConst(s)), FormattedValue(Name(x))])]))
      == Ok(Text("console.log(" + Template(s, x) + ")"))
  {
    var f := JoinedStr([Const(StrConst(s)), FormattedValue(Name(x))]);
    var shown := Template(s, x);
    FormattedString(s, x);
    ExprsOne(f, Text(shown));
    CallOf(Name("print"), [f], Text("print"), [Text(shown)]);
    PrintOne(shown);
  }

  /** Definitions are camel-cased but call sites are not: a call of a
      snake_case function names a function the output never defines. */
  lemma CallSiteKeepsName(f: string, a: string, b: string)
    requires f !in Conversions && f != "range" && f != "print"
    ensures TransExpr(Call(Name(f), [Name(a), Name(b)])) == Ok(Text(f + "(" + Join(", ", [a, b]) + ")"))
    ensures '_' in f ==> CamelCase(f) != f
  {
    TwoNames(a, b);
    CallOf(Name(f), [Name(a), Name(b)], Text(f), [Text(a), Text(b)]);
    CamelCaseUnderscoreFree(f);
  }

  /** Parenthesising the whole expression instead of the nested operand
      loses the grouping: `a * (b + c)` and `(a * b) + c` come out alike. */
  lemma WholeWrapLosesGrouping(a: string, b: string, c: string)
    ensures BinOpText(a, Mult, BinOpText(b, Add, c, false), true)
         == BinOpText(BinOpText(a, Mult, b, false), Add, c, true)
  {
    var plus := Show(VisitBinOperator(Add));
    var times := Show(VisitBinOperator(Mult));
    assert plus == "+" && times == "*";
    var inner := b + " " + plus + " " + c;
    assert BinOpText(a, Mult, inner, true) == "(" + a + " " + times + " " + inner + ")";
    var left := a + " " + times + " " + b;
    assert BinOpText(left, Add, c, true) == "(" + left + " " + plus + " " + c + ")";
  }

  /** The same on the trees: `x * (y + z)` and `x * y + z` (operands that
      are no operations themselves) render to the same text. */
  lemma NestedOperationsCollide(x: Expr, y: Expr, z: Expr, a: string, b: string, c: string)
    requires !x.BinOp? && !y.BinOp? && !z.BinOp?
    requires TransExpr(x).Ok? && TransExpr(x).value == Text(a)
    requires TransExpr(y).Ok? && TransExpr(y).value == Text(b)
    requires TransExpr(z).Ok? && TransExpr(z).value == Text(c)
    ensures TransExpr(BinOp(x, Mult, BinOp(y, Add, z))).Ok?
    ensures TransExpr(BinOp(x, Mult, BinOp(y, Add, z))) == TransExpr(BinOp(BinOp(x, Mult, y), Add, z))
  {
    var sum := BinOpText(b, Add, c, false);
    var product := BinOpText(a, Mult, b, false);
    BinOpOf(y, Add, z, Text(b), Text(c));
    BinOpOf(x, Mult, BinOp(y, Add, z), Text(a), Text(sum));
    BinOpOf(x, Mult, y, Text(a), Text(b));
    BinOpOf(BinOp(x, Mult, y), Add, z, Text(product), Text(c));
    WholeWrapLosesGrouping(a, b, c);
  }

  /** The i-th link of a chained comparison compares the i-th and (i+1)-th
      operands with the i-th operator. */
  lemma {:induction false} ComparisonsClosedForm(left: string, ops: seq<string>, comps: seq<string>)
    requires |ops| <= |comps|
    ensures forall i :: 0 <= i < |ops| ==>
      Comparisons(left, ops, comps)[i]
        == (if i == 0 then left else comps[i - 1]) + " " + ops[i] + " " + comps[i]
    decreases |ops|
  {
    if ops != [] {
      ComparisonsClosedForm(comps[0], ops[1..], comps[1..]);
      var r := Comparisons(left, ops, comps);
      var rest := Comparisons(comps[0], ops[1..], comps[1..]);
      assert r == [left + " " + ops[0] + " " + comps[0]] + rest;
      forall i | 0 <= i < |ops|
        ensures r[i] == (if i == 0 then left else comps[i - 1]) + " " + ops[i] + " " + comps[i]
      {
        if i > 0 {
          assert r[i] == rest[i - 1];
          assert ops[1..][i - 1] == ops[i] && comps[1..][i - 1] == comps[i];
          if i > 1 {
            assert comps[1..][i - 2] == comps[i - 1];
          }
        }
      }
    }
  }

  /** A statement the transformer has no visitor for (`pass` among them)
      makes the whole body fail, wherever it stands. */
  lemma {:induction false} UnsupportedStatementFails(body: seq<Stmt>, st: State, k: nat)
    requires k < |body| && (body[k].Pass? || body[k].OtherStmt?)
    ensures TransBody(body, st).Err?
    decreases |body|
  {
    if k > 0 && TransStmt(body[0], st).Ok? {
      UnsupportedStatementFails(body[1..], st, k - 1);
    }
  }

  lemma ModuleWithPassFails(body: seq<Stmt>)
    requires Pass in body
    ensures TransModule(Module(body)).Err?
  {
    var k :| 0 <= k < |body| && body[k] == Pass;
    UnsupportedStatementFails(body, Fresh, k);
  }

  /** A failure anywhere in a list of expressions fails the list. */
  lemma {:induction false} ExprsFail(es: seq<Expr>, k: nat)
    requires k < |es| && TransExpr(es[k]).Err?
    ensures TransExprs(es).Err?
    decreases |es|
  {
    if k > 0 && TransExpr(es[0]).Ok? {
      assert es[1..][k - 1] == es[k];
      ExprsFail(es[1..], k - 1);
    }
  }

  /** `generic_visit` visits the children of a node it has no visitor for,
      so a child that fails makes the node fail, though the node itself
      would only have been handed back. */
  lemma UnsupportedNodeChildFails(kind: string, children: seq<Expr>, k: nat)
    requires k < |children| && TransExpr(children[k]).Err?
    ensures TransExpr(OtherExpr(kind, children)).Err?
  {
    ExprsFail(children, k);
  }

  /** A list display holding a node object fails in `", ".join`. */
  lemma ListOfNodeObjectFails(elts: seq<Expr>, k: nat)
    requires TransExprs(elts).Ok? && k < |elts| && TransExprs(elts).value[k].NodeObject?
    ensures TransExpr(List(elts)).Err?
  {
    var vs := TransExprs(elts).value;
    TextsFail(vs, k);
    ListFails(elts, vs);
  }

  /** The list visitor fails when its items do not all show as text. */
  lemma ListFails(elts: seq<Expr>, vs: seq<Js>)
    requires TransExprs(elts) == Ok(vs) && Texts(vs).Err?
    ensures TransExpr(List(elts)).Err?
  {
  }

  /** `", ".join` fails on a node object anywhere among the values. */
  lemma TextsFail(vs: seq<Js>, k: nat)
    requires k < |vs| && vs[k].NodeObject?
    ensures Texts(vs).Err?
  {
  }

  /** So `x = a[[b or c]]` does not translate: the subscript's slice is a
      list, and its element, a `BoolOp`, is handed back as a node. */
  lemma SubscriptOfBoolOpList(x: string, a: string, b: string, c: string, st: State)
    ensures TransStmt(Assign([Name(x)], OtherExpr("Subscript", [Name(a), List([BoolOp(Or, [Name(b), Name(c)])])])), st).Err?
  {
    var inner := BoolOp(Or, [Name(b), Name(c)]);
    TwoNames(b, c);
    assert TransExpr(inner) == Ok(NodeObject("BoolOp"));
    ExprsOne(inner, NodeObject("BoolOp"));
    ListOfNodeObjectFails([inner], 0);
    var children := [Name(a), List([inner])];
    UnsupportedNodeChildFails("Subscript", children, 1);
    AssignOf([Name(x)], OtherExpr("Subscript", children), st);
  }

  /** An expression that comes back as a node object fails as a statement
      but is shown as the node's repr when formatted into a `return`. */
  lemma NodeObjectStatements(e: Expr, st: State, kind: string)
    requires TransExpr(e).Ok? && TransExpr(e).value == NodeObject(kind)
    ensures TransStmt(ExprStmt(e), st).Err?
    ensures TransStmt(Return(Some(e)), st) == Ok(("return " + Show(NodeObject(kind)) + ";", st))
    ensures e.BoolOp? || e.UnaryOp? || e.OtherExpr?
  {
  }
}
