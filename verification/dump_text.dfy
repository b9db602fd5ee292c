/** How the IR converter reads the `ast.dump` text it is given.

    The IR records statements and expressions as the strings `ast.dump`
    prints, such as `Name(id='x', ctx=Load())`, and the converter picks
    them apart with `str.split` and `in` tests rather than parsing them.
    `ExpressionNode` is that reader (`_process_expression_node`); the
    lemmas at the end say what it makes of the dumps of names and
    constants, and where it goes wrong: the first name in a compound
    expression wins, `!=` reads as `===`, and the call branch is never
    reached. */
module DumpText {
  import opened Results
  import opened Strings
  import opened DepthSplit

  // ---------------------------------------------------------------------
  // `s.split(sep)[0]` and `s.split(sep)[1]`

  /** `s.split(sep)[0]`: the text before the first `sep`, or all of `s`. */
  function FirstPiece(s: string, sep: string): (r: string)
    requires |sep| > 0
    ensures r <= s && !Contains(r, sep)
    ensures Find(s, sep).Some? ==> r == s[..Find(s, sep).value]
    ensures Find(s, sep).None? ==> r == s
  {
    SplitHead(s, sep);
    Split(s, sep)[0]
  }

  /** `s.split(sep)[1]`: the text between the first `sep` and the next one
      (or the end). Python raises `IndexError` when `sep` does not occur. */
  function SecondPiece(s: string, sep: string): (r: Result<string>)
    requires |sep| > 0
    ensures r.Ok? <==> Contains(s, sep)
    ensures r.Ok? ==> |r.value| + |sep| <= |s|
    ensures r.Ok? ==> r.value == FirstPiece(s[Find(s, sep).value + |sep|..], sep)
  {
    SplitHead(s, sep);
    var parts := Split(s, sep);
    if |parts| >= 2 then
      SplitPieceLength(s, sep, 1);
      Ok(parts[1])
    else
      Err("IndexError: list index out of range")
  }

  // ---------------------------------------------------------------------
  // Locating the first occurrence

  /** An occurrence with none before it is the one `Find` reports. */
  lemma FindAt(s: string, sub: string, i: nat)
    requires OccursAt(s, sub, i)
    requires forall k :: 0 <= k < i ==> !OccursAt(s, sub, k)
    ensures Find(s, sub) == Some(i)
  {
  }

  /** A separator whose last character `q` appears nowhere else in it is
      first found right after a prefix free of `q`. */
  lemma FindAfterPrefix(pre: string, sep: string, t: string)
    requires |sep| > 0
    requires sep[|sep| - 1] !in sep[..|sep| - 1] && sep[|sep| - 1] !in pre
    ensures Find(pre + sep + t, sep) == Some(|pre|)
  {
    var s := pre + sep + t;
    var q := sep[|sep| - 1];
    assert s[|pre|..|pre| + |sep|] == sep;
    forall k | 0 <= k < |pre| ensures !OccursAt(s, sep, k) {
      var p := k + |sep| - 1;
      assert s[p] != q by {
        if p < |pre| {
          assert s[p] == pre[p];
        } else {
          assert s[p] == sep[..|sep| - 1][p - |pre|];
        }
      }
    }
    FindAt(s, sep, |pre|);
  }

  /** The second piece after a leading `pre + sep` is the first piece of
      what follows. */
  lemma SecondPieceAfterPrefix(pre: string, sep: string, t: string)
    requires |sep| > 0
    requires sep[|sep| - 1] !in sep[..|sep| - 1] && sep[|sep| - 1] !in pre
    ensures SecondPiece(pre + sep + t, sep) == Ok(FirstPiece(t, sep))
  {
    FindAfterPrefix(pre, sep, t);
    assert (pre + sep + t)[|pre| + |sep|..] == t;
  }

  /** A text lacking one of the separator's characters does not contain it. */
  lemma MissingChar(s: string, sub: string, c: char)
    requires c in sub && c !in s
    ensures !Contains(s, sub)
  {
    var j :| 0 <= j < |sub| && sub[j] == c;
    forall i: nat | i + |sub| <= |s| ensures !OccursAt(s, sub, i) {
      assert s[i..i + |sub|][j] == s[i + j] != c;
    }
  }

  /** The text before the first `c`, when `c` follows `x` and `x` has none. */
  lemma FirstPieceAtChar(x: string, c: char, rest: string)
    requires c !in x
    ensures FirstPiece(x + [c] + rest, [c]) == x
  {
    FindAfterPrefix(x, [c], rest);
    assert (x + [c] + rest)[..|x|] == x;
  }

  // ---------------------------------------------------------------------
  // Names

  const NamePrefix := "Name(id='"

  /** The characters of a Python identifier (ASCII). */
  predicate IsNameChar(c: char) {
    ('a' <= c <= 'z') || ('A' <= c <= 'Z') || ('0' <= c <= '9') || c == '_'
  }

  predicate IsName(x: string) {
    forall k :: 0 <= k < |x| ==> IsNameChar(x[k])
  }

  /** `s.split("Name(id='")[1].split("'")[0]`: the identifier of the first
      `Name` node in a dump. */
  function NameOf(s: string): (r: string)
    requires Contains(s, NamePrefix)
    ensures |r| < |s|
    ensures '\'' !in r
  {
    var r := FirstPiece(SecondPiece(s, NamePrefix).value, "'");
    ContainsChar(r, '\'');
    r
  }

  /** `_extract_name`: the identifier of the first `Name` node, or the text
      itself when there is none. */
  function ExtractName(s: string): (r: string)
    ensures |r| <= |s|
    ensures !Contains(s, NamePrefix) ==> r == s
  {
    if Contains(s, NamePrefix) then NameOf(s) else s
  }

  /** Where the first identifier of `t = x + "'" + rest` ends, when `x` is an
      identifier: no `Name(id='` can start inside `x`, because its quote and
      its parenthesis would have to fall there. */
  lemma FirstPieceOfNameTail(x: string, rest: string)
    requires IsName(x)
    ensures FirstPiece(FirstPiece(x + "'" + rest, NamePrefix), "'") == x
  {
    var t := x + "'" + rest;
    assert '\'' !in x by {
      forall k | 0 <= k < |x| ensures x[k] != '\'' {
        assert IsNameChar(x[k]);
      }
    }
    var u := FirstPiece(t, NamePrefix);
    match Find(t, NamePrefix)
    case None =>
      FirstPieceAtChar(x, '\'', rest);
    case Some(f) =>
      assert t[f..f + 9] == NamePrefix;
      assert t[f + 8] == t[f..f + 9][8] == '\'';
      assert t[f + 4] == t[f..f + 9][4] == '(';
      // the quote of an occurrence lies at or after the one ending `x`, and
      // its parenthesis does too, which leaves no room before it
      forall j | 0 <= j < |x| ensures t[j] != '\'' && t[j] != '(' {
        assert t[j] == x[j] && IsNameChar(x[j]);
      }
      forall j | f <= j < f + 8 ensures t[j] != '\'' {
        assert t[j] == t[f..f + 9][j - f] == NamePrefix[j - f];
      }
      assert t[|x|] == '\'';
      assert f > |x|;
      assert u == x + "'" + t[|x| + 1..f];
      FirstPieceAtChar(x, '\'', t[|x| + 1..f]);
  }

  /** The first `Name(id='x'` after a prefix without quotes names `x`. */
  lemma NameOfLeading(pre: string, x: string, rest: string)
    requires '\'' !in pre && IsName(x)
    ensures Contains(pre + NamePrefix + x + "'" + rest, NamePrefix)
    ensures NameOf(pre + NamePrefix + x + "'" + rest) == x
  {
    var t := x + "'" + rest;
    assert pre + NamePrefix + x + "'" + rest == pre + NamePrefix + t;
    SecondPieceAfterPrefix(pre, NamePrefix, t);
    FirstPieceOfNameTail(x, rest);
  }

  // ---------------------------------------------------------------------
  // Operators

  /** The operators of `op_map` other than floor division. */
  const OperatorTable: map<string, string> :=
    map["Add" := "+", "Sub" := "-", "Mult" := "*", "Div" := "/", "Mod" := "%", "Pow" := "**"]

  /** The operator table of `_process_value` and `_process_expression_node`,
      including its default. */

  function BinOpSymbol(op: string): (r: string)
    ensures op in OperatorTable ==> r == OperatorTable[op]
    ensures op == "FloorDiv" ==> r == "Math.floor(/)"
    ensures op !in OperatorTable && op != "FloorDiv" ==> r == "+"
  {
    if op == "Add" then "+"
    else if op == "Sub" then "-"
    else if op == "Mult" then "*"
    else if op == "Div" then "/"
    else if op == "Mod" then "%"
    else if op == "FloorDiv" then "Math.floor(/)"
    else if op == "Pow" then "**"
    else "+"
  }

  /** Joins two operand texts with an operator from `BinOpSymbol`; floor
      division becomes a call to `Math.floor`. */
  function Combine(left: string, symbol: string, right: string): (r: string) {
    if symbol == "Math.floor(/)" then "Math.floor(" + left + " / " + right + ")"
    else left + " " + symbol + " " + right
  }

  /** The comparison table of `_process_expression_node`: the first
      operator name the ops text contains decides. */
  function CompareSymbol(ops: string): (r: string)
    ensures r in {"===", "!==", "<", "<=", ">", ">="}
  {
    if Contains(ops, "Eq()") then "==="
    else if Contains(ops, "NotEq()") then "!=="
    else if Contains(ops, "Lt()") then "<"
    else if Contains(ops, "LtE()") then "<="
    else if Contains(ops, "Gt()") then ">"
    else if Contains(ops, "GtE()") then ">="
    else if Contains(ops, "Is()") then "==="
    else if Contains(ops, "IsNot()") then "!=="
    else "==="
  }

  /** The shorter comparison table of the `if` statement handler. */
  function TestSymbol(ops: string): (r: string)
    ensures r in {"===", "!==", "<", "<=", ">", ">="}
  {
    if Contains(ops, "Eq()") then "==="
    else if Contains(ops, "NotEq()") then "!=="
    else if Contains(ops, "Lt()") then "<"
    else if Contains(ops, "LtE()") then "<="
    else if Contains(ops, "Gt()") then ">"
    else if Contains(ops, "GtE()") then ">="
    else "==="
  }

  // ---------------------------------------------------------------------
  // The expression reader

  /** `_process_expression_node`: the first test that matches decides.
      Quoted text is kept; the first `Name` node gives its identifier;
      the first `Constant` node gives its text up to the next `)`; a
      `BinOp` or `Compare` with all its fields is rebuilt from the texts
      between its field names; anything else is kept inside a comment.
      The call branch of the source is left out: `CallBranchUnreachable`
      shows that the `Name` test always catches its input first. */
  function ExpressionNode(e: string): (r: string)
    decreases |e|
  {
    if e == "" then ""
    else if StartsWith(e, "'") && EndsWith(e, "'") then e
    else if Contains(e, NamePrefix) then NameOf(e)
    else if Contains(e, "Constant(value=") then
      FirstPiece(SecondPiece(e, "Constant(value=").value, ")")
    else if Contains(e, "BinOp(") && Contains(e, "left=") && Contains(e, "op=") && Contains(e, "right=") then
      var leftPart := FirstPiece(SecondPiece(e, "left=").value, ", op=");
      var opPart := FirstPiece(SecondPiece(e, "op=").value, ", right=");
      var rightPart := FirstPiece(SecondPiece(e, "right=").value, ")");
      Combine(ExpressionNode(leftPart), BinOpSymbol(opPart), ExpressionNode(rightPart))
    else if Contains(e, "Compare(") && Contains(e, "left=") && Contains(e, "ops=[") && Contains(e, "comparators=[") then
      var leftPart := FirstPiece(SecondPiece(e, "left=").value, ", ops=");
      var opsPart := FirstPiece(SecondPiece(e, "ops=[").value, "]");
      var comparators := SplitArgs(FirstPiece(SecondPiece(e, "comparators=[").value, "]"));
      var right := if |comparators| > 0 then ExpressionNode(comparators[0]) else "";
      ExpressionNode(leftPart) + " " + CompareSymbol(opsPart) + " " + right
    else
      "/* Unprocessed: " + e + " */"
  }

  /** `ExpressionNode` over each piece. */
  function ExpressionNodes(parts: seq<string>): (r: seq<string>)
    ensures |r| == |parts|
    ensures forall k :: 0 <= k < |parts| ==> r[k] == ExpressionNode(parts[k])
  {
    seq(|parts|, k requires 0 <= k < |parts| => ExpressionNode(parts[k]))
  }

  /** `_extract_print_args`, `_extract_call_args` and `_extract_range_args`
      (the three are the same code): the top-level arguments between
      `args=[` and the next `]`, each read by `ExpressionNode`. */
  function CallArguments(s: string): (r: seq<string>)
    ensures !Contains(s, "args=[") ==> r == []
  {
    if Contains(s, "args=[") then
      ExpressionNodes(SplitArgs(FirstPiece(SecondPiece(s, "args=[").value, "]")))
    else []
  }

  /** A character in neither the separator nor any part is not in the
      joined text. */
  lemma {:induction false} JoinAvoids(sep: string, parts: seq<string>, c: char)
    requires c !in sep && forall k :: 0 <= k < |parts| ==> c !in parts[k]
    ensures c !in Join(sep, parts)
    decreases |parts|
  {
    if |parts| > 1 {
      assert forall k :: 0 <= k < |parts[1..]| ==> c !in parts[1..][k] by {
        forall k | 0 <= k < |parts[1..]| ensures c !in parts[1..][k] {
          assert parts[1..][k] == parts[k + 1];
        }
      }
      JoinAvoids(sep, parts[1..], c);
      assert c !in parts[0];
    }
  }

  /** After a text without `[` and the `]` that closes it, no `args=[`
      can start before that `]`. */
  lemma ArgsMarkerAfterBracket(j: string, rest: string)
    requires '[' !in j
    ensures forall f: nat :: f <= |j| ==> !OccursAt(j + "]" + rest, "args=[", f)
  {
    var t := j + "]" + rest;
    forall f: nat | f <= |j| ensures !OccursAt(t, "args=[", f) {
      if f + 6 <= |t| {
        var w := t[f..f + 6];
        if f + 5 < |j| {
          assert w[5] == j[f + 5];
          assert w[5] != "args=["[5];
        } else {
          var at := |j| - f;
          assert w[at] == t[|j|] == ']';
          assert w[at] != "args=["[at];
        }
        assert w != "args=[";
      }
    }
  }

  /** The arguments of a call dump are read back one by one: when the
      text before the first `args=[` has no `[`, and the arguments are
      whole (see `Argument`) and bracket-free, `CallArguments` gives
      `ExpressionNode` of each argument, in order, whatever follows the
      closing `]`. */
  lemma CallArgumentsRead(pre: string, parts: seq<string>, rest: string)
    requires '[' !in pre
    requires forall k :: 0 <= k < |parts| ==> Argument(parts[k]) && '[' !in parts[k] && ']' !in parts[k]
    ensures CallArguments(pre + "args=[" + Join(", ", parts) + "]" + rest) == ExpressionNodes(parts)
  {
    var j := Join(", ", parts);
    BracketFreeJoin(parts);
    ArgsListText(pre, j, rest);
    CallArgumentsOf(pre + "args=[" + j + "]" + rest, j);
    SplitArgsJoin(parts);
  }

  lemma BracketFreeJoin(parts: seq<string>)
    requires forall k :: 0 <= k < |parts| ==> '[' !in parts[k] && ']' !in parts[k]
    ensures '[' !in Join(", ", parts) && ']' !in Join(", ", parts)
  {
    JoinAvoids(", ", parts, '[');
    JoinAvoids(", ", parts, ']');
  }

  lemma CallArgumentsOf(s: string, x: string)
    requires Contains(s, "args=[") && FirstPiece(SecondPiece(s, "args=[").value, "]") == x
    ensures CallArguments(s) == ExpressionNodes(SplitArgs(x))
  {
  }

  /** The text `CallArguments` splits is the one between the first
      `args=[` and the `]` after it. */
  lemma ArgsListText(pre: string, j: string, rest: string)
    requires '[' !in pre && '[' !in j && ']' !in j
    ensures Contains(pre + "args=[" + j + "]" + rest, "args=[")
    ensures FirstPiece(SecondPiece(pre + "args=[" + j + "]" + rest, "args=[").value, "]") == j
  {
    var t := j + "]" + rest;
    assert pre + "args=[" + j + "]" + rest == pre + "args=[" + t;
    assert "args=["[5] !in "args=["[..5];
    SecondPieceAfterPrefix(pre, "args=[", t);
    BracketBeforeMarker(j, rest);
  }

  lemma BracketBeforeMarker(j: string, rest: string)
    requires '[' !in j && ']' !in j
    ensures FirstPiece(FirstPiece(j + "]" + rest, "args=["), "]") == j
  {
    var t := j + "]" + rest;
    ArgsMarkerAfterBracket(j, rest);
    var u := FirstPiece(t, "args=[");
    assert |u| > |j| by {
      if Find(t, "args=[").Some? {
        assert Find(t, "args=[").value > |j|;
      }
    }
    assert u == j + [']'] + u[|j| + 1..] by {
      assert u[..|j|] == t[..|j|] == j;
      assert u[|j|] == t[|j|] == ']';
    }
    FirstPieceAtChar(j, ']', u[|j| + 1..]);
  }

  // ---------------------------------------------------------------------
  // What the reader makes of dumps

  /** `ast.dump` of a variable read. */
  function NameDump(x: string): string {
    NamePrefix + x + "', ctx=Load())"
  }

  /** `ast.dump` of an integer constant. */
  function IntDump(i: int): string {
    "Constant(value=" + IntToString(i) + ")"
  }

  /** Text `repr` leaves as it is between single quotes, with no
      parenthesis in it. */
  predicate PlainText(s: string) {
    forall k :: 0 <= k < |s| ==> ' ' <= s[k] <= '~' && s[k] !in "'\\()"
  }

  /** `ast.dump` of a string constant whose text is plain. */
  function StrDump(s: string): string {
    "Constant(value='" + s + "')"
  }

  /** `ast.dump` of a binary operation with operator name `op`. */
  function BinOpDump(left: string, op: string, right: string): string {
    "BinOp(left=" + left + ", op=" + op + "(), right=" + right + ")"
  }

  /** A variable reads back as its identifier. */
  lemma NameDumpRead(x: string)
    requires IsName(x)
    ensures ExpressionNode(NameDump(x)) == x
  {
    assert NameDump(x) == "" + NamePrefix + x + "'" + ", ctx=Load())";
    FirstNameWins("", x, ", ctx=Load())");
  }

  /** The reader's answer for any text whose first quote opens a `Name`
      node: that node's identifier, whatever follows. */
  lemma FirstNameWins(pre: string, x: string, rest: string)
    requires '\'' !in pre && IsName(x)
    ensures ExpressionNode(pre + NamePrefix + x + "'" + rest) == x
  {
    var e := pre + NamePrefix + x + "'" + rest;
    NameOfLeading(pre, x, rest);
    if pre != [] {
      assert e[0] == pre[0];
    } else {
      assert e[0] == 'N';
    }
  }

  /** Hence a binary operation whose left operand is a variable reads as
      that variable alone: the operator and the right operand are lost. */
  lemma BinOpKeepsLeftName(x: string, op: string, right: string)
    requires IsName(x)
    ensures ExpressionNode(BinOpDump(NameDump(x), op, right)) == x
  {
    var rest := ", ctx=Load())" + ", op=" + op + "(), right=" + right + ")";
    assert BinOpDump(NameDump(x), op, right) == "BinOp(left=" + NamePrefix + x + "'" + rest;
    FirstNameWins("BinOp(left=", x, rest);
  }

  /** The only `(` of a `Constant` node whose value text has none comes
      too early to open a `Name(id='`. */
  lemma ConstantHasNoName(v: string)
    requires '(' !in v
    ensures !Contains("Constant(value=" + v + ")", NamePrefix)
  {
    var e := "Constant(value=" + v + ")";
    forall f: nat | f + 9 <= |e| ensures !OccursAt(e, NamePrefix, f) {
      assert e[f..f + 9][0] == e[f] && e[f..f + 9][4] == e[f + 4];
      if f == 4 {
        assert e[f] == 't';
      } else {
        assert e[f + 4] != '(' by {
          if f + 4 < 15 {
            assert e[f + 4] == "Constant(value="[f + 4];
          } else {
            assert e[f + 4] == v[f + 4 - 15];
          }
        }
      }
    }
  }

  /** A `Constant` node whose value text has no parentheses reads back as
      that text. */
  lemma ConstantDumpRead(v: string)
    requires '(' !in v && ')' !in v
    ensures ExpressionNode("Constant(value=" + v + ")") == v
  {
    var e := "Constant(value=" + v + ")";
    ConstantHasNoName(v);
    assert e[0] == 'C';
    assert e == "" + "Constant(value=" + (v + ")");
    SecondPieceAfterPrefix("", "Constant(value=", v + ")");
    assert '(' !in v + ")";
    MissingChar(v + ")", "Constant(value=", '(');
    FirstPieceAtChar(v, ')', "");
    assert v + [')'] + "" == v + ")";
  }

  /** An integer constant reads back as its decimal text. */
  lemma IntDumpRead(i: int)
    ensures ExpressionNode(IntDump(i)) == IntToString(i)
  {
    var digits := IntToString(i);
    forall k | 0 <= k < |digits| ensures digits[k] != '(' && digits[k] != ')' {
      assert k == 0 ==> i >= 0 || digits[0] == '-';
    }
    ConstantDumpRead(digits);
  }

  /** A plain string constant reads back as a single-quoted literal, which
      JavaScript reads as the same string. */
  lemma StrDumpRead(s: string)
    requires PlainText(s)
    ensures ExpressionNode(StrDump(s)) == "'" + s + "'"
  {
    var lit := "'" + s + "'";
    forall k | 0 <= k < |lit| ensures lit[k] != '(' && lit[k] != ')' {
      if 1 <= k <= |s| {
        assert lit[k] == s[k - 1];
      }
    }
    assert StrDump(s) == "Constant(value=" + lit + ")";
    ConstantDumpRead(lit);
  }

  /** The call branch of `_process_expression_node` is dead: a text with
      `func=Name(id='` in it contains `Name(id='`, which an earlier branch
      takes. */
  lemma CallBranchUnreachable(e: string)
    requires Contains(e, "func=Name(id='")
    requires !(StartsWith(e, "'") && EndsWith(e, "'"))
    ensures Contains(e, NamePrefix)
    ensures ExpressionNode(e) == NameOf(e)
  {
    var i := Find(e, "func=Name(id='").value;
    assert e[i..i + 14] == "func=Name(id='";
    assert e[i + 5..i + 14] == e[i..i + 14][5..] == NamePrefix;
    assert OccursAt(e, NamePrefix, i + 5);
  }

  /** The dump of a node kind the reader does not know (one that has none
      of the capitals `N`, `C`, `B` of the node names it looks for, such
      as `List(elts=[], ctx=Load())`) is kept inside a comment. */
  lemma UnknownNodeCommented(e: string)
    requires e != [] && e[0] != '\''
    requires 'N' !in e && 'C' !in e && 'B' !in e
    ensures ExpressionNode(e) == "/* Unprocessed: " + e + " */"
  {
    MissingChar(e, NamePrefix, 'N');
    MissingChar(e, "Constant(value=", 'C');
    MissingChar(e, "BinOp(", 'B');
    MissingChar(e, "Compare(", 'C');
  }

  /** `"Eq()"` occurs inside `"NotEq()"`, and `Eq()` is tested first. */
  lemma NotEqContainsEq(ops: string)
    requires Contains(ops, "NotEq()")
    ensures Contains(ops, "Eq()")
  {
    var i := Find(ops, "NotEq()").value;
    assert ops[i..i + 7] == "NotEq()";
    assert ops[i + 3..i + 7] == ops[i..i + 7][3..] == "Eq()";
    assert OccursAt(ops, "Eq()", i + 3);
  }

  /** So `!=` is rendered as `===`, in expressions and in `if` tests alike. */
  lemma NotEqReadsAsStrictEqual(ops: string)
    requires Contains(ops, "NotEq()")
    ensures CompareSymbol(ops) == "===" && TestSymbol(ops) == "==="
  {
    NotEqContainsEq(ops);
  }

  /** The two comparison tables agree except on `is` and `is not`, which
      the `if` handler does not list: there `is not` becomes `===`. */
  lemma TestAgreesWithCompare(ops: string)
    ensures TestSymbol(ops) != CompareSymbol(ops) ==>
      Contains(ops, "IsNot()") && TestSymbol(ops) == "===" && CompareSymbol(ops) == "!=="
  {
  }

  /** The operator text a dump carries has its parentheses (`Add()`), so
      the table lookup in `_process_expression_node` always falls back to
      `+`. */
  lemma DumpedOperatorIsPlus(op: string)
    ensures BinOpSymbol(op + "()") == "+"
  {
    var s := op + "()";
    assert s[|s| - 1] == ')';
  }
}
