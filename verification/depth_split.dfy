/** The two bracket-depth splitters of the dump-string converter
    (phase1/ir_to_js.py): `_split_args` cuts a comma-separated argument
    list at the commas outside every parenthesis, and `_split_statements`
    cuts a statement list after each `)` that closes back to depth 0.

    Both scan the text once, left to right, keeping a depth counter, the
    text gathered since the last cut and the pieces cut so far; a gathered
    piece is kept, stripped, only when it is not blank. Here one scan step
    is a function on a `Scan` value, a run is the fold of that step over
    the text, and the loops of the source are methods whose invariant ties
    their local variables to the fold. */
module DepthSplit {
  import opened Strings

  /** The scanner's variables: `depth`, `current` and the list of pieces. */
  datatype Scan = Scan(depth: int, current: string, pieces: seq<string>)

  /** The change one character makes to the depth. */
  function Shift(c: char): (d: int)
    ensures -1 <= d <= 1
  {
    if c == '(' then 1 else if c == ')' then -1 else 0
  }

  /** Count of `(` minus count of `)`. */
  function Net(s: string): int {
    if s == [] then 0 else Shift(s[0]) + Net(s[1..])
  }

  lemma {:induction false} NetAppend(a: string, b: string)
    ensures Net(a + b) == Net(a) + Net(b)
    decreases |a|
  {
    if a != [] {
      assert (a + b)[0] == a[0] && (a + b)[1..] == a[1..] + b;
      NetAppend(a[1..], b);
    } else {
      assert a + b == b;
    }
  }

  /** A piece worth keeping: not empty, and neither end is whitespace, so
      stripping leaves it as it is (`StripUnchanged`). */
  predicate Trimmed(p: string) {
    p != [] && p[0] !in Whitespace && p[|p| - 1] !in Whitespace
  }

  /** `if current.strip(): result.append(current.strip())`. */
  function Emit(pieces: seq<string>, current: string): (r: seq<string>)
    ensures Strip(current) == [] ==> r == pieces
    ensures Strip(current) != [] ==> r == pieces + [Strip(current)]
  {
    if Strip(current) == [] then pieces else pieces + [Strip(current)]
  }

  /** The pieces a finished scan hands back: the last gathered text is
      emitted like the others. */
  function Finish(st: Scan): seq<string> {
    Emit(st.pieces, st.current)
  }

  // ---------------------------------------------------------------------
  // `_split_args`

  /** One character of `_split_args`: the depth is updated first; a comma
      that leaves the depth at 0 cuts and is dropped, anything else is
      gathered. */
  function ArgStep(st: Scan, c: char): Scan {
    var d := st.depth + Shift(c);
    if c == ',' && d == 0 then Scan(d, "", Emit(st.pieces, st.current))
    else Scan(d, st.current + [c], st.pieces)
  }

  function ArgRun(st: Scan, s: string): Scan
    decreases |s|
  {
    if s == [] then st else ArgRun(ArgStep(st, s[0]), s[1..])
  }

  /** A comma that would cut somewhere in `s`, scanning it from depth `d`. */
  predicate ArgCuts(d: int, s: string)
    decreases |s|
  {
    s != [] && ((s[0] == ',' && d + Shift(s[0]) == 0) || ArgCuts(d + Shift(s[0]), s[1..]))
  }

  /** `_split_args`. */
  function SplitArgs(s: string): (r: seq<string>)
    ensures forall k :: 0 <= k < |r| ==> |r[k]| <= |s|
  {
    ArgRunKeepsPieces(Scan(0, "", []), s, 0);
    EmitKeepsPieces(ArgRun(Scan(0, "", []), s).pieces, ArgRun(Scan(0, "", []), s).current, |s|);
    Finish(ArgRun(Scan(0, "", []), s))
  }

  // ---------------------------------------------------------------------
  // `_split_statements`

  /** One character of `_split_statements`: the depth is updated and the
      character gathered; a `)` that brings the depth back to 0 cuts after
      itself. */
  function StmtStep(st: Scan, c: char): Scan {
    var d := st.depth + Shift(c);
    var current := st.current + [c];
    if d == 0 && c == ')' then Scan(d, "", Emit(st.pieces, current))
    else Scan(d, current, st.pieces)
  }

  function StmtRun(st: Scan, s: string): Scan
    decreases |s|
  {
    if s == [] then st else StmtRun(StmtStep(st, s[0]), s[1..])
  }

  /** A `)` that would cut somewhere in `s`, scanning it from depth `d`. */
  predicate StmtCuts(d: int, s: string)
    decreases |s|
  {
    s != [] && ((s[0] == ')' && d + Shift(s[0]) == 0) || StmtCuts(d + Shift(s[0]), s[1..]))
  }

  /** `_split_statements`. */
  function SplitStatements(s: string): (r: seq<string>)
    ensures forall k :: 0 <= k < |r| ==> |r[k]| <= |s|
  {
    StmtRunKeepsPieces(Scan(0, "", []), s, 0);
    EmitKeepsPieces(StmtRun(Scan(0, "", []), s).pieces, StmtRun(Scan(0, "", []), s).current, |s|);
    Finish(StmtRun(Scan(0, "", []), s))
  }

  // ---------------------------------------------------------------------
  // Pieces are trimmed and no longer than the input

  /** All pieces trimmed and at most `n` long, and so is the gathered text. */
  predicate Bounded(st: Scan, n: nat) {
    |st.current| <= n && forall k :: 0 <= k < |st.pieces| ==> Trimmed(st.pieces[k]) && |st.pieces[k]| <= n
  }

  lemma {:induction false} EmitKeepsPieces(pieces: seq<string>, current: string, n: nat)
    requires |current| <= n
    requires forall k :: 0 <= k < |pieces| ==> Trimmed(pieces[k]) && |pieces[k]| <= n
    ensures forall k :: 0 <= k < |Emit(pieces, current)| ==> Trimmed(Emit(pieces, current)[k]) && |Emit(pieces, current)[k]| <= n
  {
  }

  lemma {:induction false} ArgRunKeepsPieces(st: Scan, s: string, n: nat)
    requires Bounded(st, n)
    ensures Bounded(ArgRun(st, s), n + |s|)
    decreases |s|
  {
    if s != [] {
      var c := s[0];
      if c == ',' && st.depth + Shift(c) == 0 {
        EmitKeepsPieces(st.pieces, st.current, n + 1);
      }
      ArgRunKeepsPieces(ArgStep(st, c), s[1..], n + 1);
    }
  }

  lemma {:induction false} StmtRunKeepsPieces(st: Scan, s: string, n: nat)
    requires Bounded(st, n)
    ensures Bounded(StmtRun(st, s), n + |s|)
    decreases |s|
  {
    if s != [] {
      var c := s[0];
      if st.depth + Shift(c) == 0 && c == ')' {
        EmitKeepsPieces(st.pieces, st.current + [c], n + 1);
      }
      StmtRunKeepsPieces(StmtStep(st, c), s[1..], n + 1);
    }
  }

  /** Every argument `_split_args` hands back is trimmed. */
  lemma {:induction false} SplitArgsTrimmed(s: string)
    ensures forall k :: 0 <= k < |SplitArgs(s)| ==> Trimmed(SplitArgs(s)[k])
  {
    ArgRunKeepsPieces(Scan(0, "", []), s, 0);
    EmitKeepsPieces(ArgRun(Scan(0, "", []), s).pieces, ArgRun(Scan(0, "", []), s).current, |s|);
  }

  /** Every statement `_split_statements` hands back is trimmed. */
  lemma {:induction false} SplitStatementsTrimmed(s: string)
    ensures forall k :: 0 <= k < |SplitStatements(s)| ==> Trimmed(SplitStatements(s)[k])
  {
    StmtRunKeepsPieces(Scan(0, "", []), s, 0);
    EmitKeepsPieces(StmtRun(Scan(0, "", []), s).pieces, StmtRun(Scan(0, "", []), s).current, |s|);
  }

  // ---------------------------------------------------------------------
  // Statements end at the parenthesis that closes them

  /** A piece cut after a `)`: it ends with that `)`, and its parentheses
      balance. */
  predicate Closed(p: string) {
    EndsWith(p, ")") && Net(p) == 0
  }

  predicate AllClosed(pieces: seq<string>) {
    forall k :: 0 <= k < |pieces| ==> Closed(pieces[k])
  }

  /** Whitespace does not move the depth. */
  lemma {:induction false} NetOfWhitespace(s: string)
    requires forall k :: 0 <= k < |s| ==> s[k] in Whitespace
    ensures Net(s) == 0
    decreases |s|
  {
    if s != [] {
      assert s[0] in Whitespace;
      assert forall k :: 0 <= k < |s[1..]| ==> s[1..][k] == s[k + 1];
      NetOfWhitespace(s[1..]);
    }
  }

  /** Text ending with a non-space character loses only leading
      whitespace to `Strip`. */
  lemma StripKeepsTail(s: string) returns (lead: string)
    requires s != [] && s[|s| - 1] !in Whitespace
    ensures s == lead + Strip(s)
    ensures Strip(s) != [] && Strip(s)[|Strip(s)| - 1] == s[|s| - 1]
    ensures forall k :: 0 <= k < |lead| ==> lead[k] in Whitespace
  {
    StripCharsRemovesOnly(s, Whitespace);
    var i := |s| - |StripLeft(s, Whitespace)|;
    var r := Strip(s);
    assert i + |r| == |s|;
    assert r == s[i..];
    lead := s[..i];
  }

  /** What is left of a balanced text ending in `)` once leading
      whitespace is cut off is `Closed`. */
  lemma ClosedAfterWhitespace(lead: string, r: string)
    requires forall k :: 0 <= k < |lead| ==> lead[k] in Whitespace
    requires r != [] && r[|r| - 1] == ')' && Net(lead + r) == 0
    ensures Closed(r)
  {
    NetOfWhitespace(lead);
    NetAppend(lead, r);
    assert r[|r| - 1..] == ")";
  }

  /** Along a run the depth is the balance of the gathered text, and every
      piece cut so far is `Closed`. */
  lemma {:induction false} StmtRunClosed(st: Scan, s: string)
    requires st.depth == Net(st.current) && AllClosed(st.pieces)
    ensures AllClosed(StmtRun(st, s).pieces)
    decreases |s|
  {
    if s != [] {
      var c := s[0];
      var current := st.current + [c];
      NetAppend(st.current, [c]);
      assert [c][1..] == [];
      assert Net(current) == st.depth + Shift(c);
      if st.depth + Shift(c) == 0 && c == ')' {
        var lead := StripKeepsTail(current);
        ClosedAfterWhitespace(lead, Strip(current));
      }
      StmtRunClosed(StmtStep(st, c), s[1..]);
    }
  }

  /** Every statement `_split_statements` hands back, except perhaps the
      last, ends with the `)` at which the depth came back to 0, and its
      parentheses balance. */
  lemma SplitStatementsClosed(s: string)
    ensures forall k :: 0 <= k < |SplitStatements(s)| - 1 ==> Closed(SplitStatements(s)[k])
  {
    StmtRunClosed(Scan(0, "", []), s);
  }

  // ---------------------------------------------------------------------
  // The depth counter

  /** After any run the depth is the starting depth plus the net count of
      parentheses read. */
  lemma {:induction false} ArgRunDepth(st: Scan, s: string)
    ensures ArgRun(st, s).depth == st.depth + Net(s)
    decreases |s|
  {
    if s != [] {
      ArgRunDepth(ArgStep(st, s[0]), s[1..]);
    }
  }

  lemma {:induction false} StmtRunDepth(st: Scan, s: string)
    ensures StmtRun(st, s).depth == st.depth + Net(s)
    decreases |s|
  {
    if s != [] {
      StmtRunDepth(StmtStep(st, s[0]), s[1..]);
    }
  }

  lemma {:induction false} ArgRunAppend(st: Scan, a: string, b: string)
    ensures ArgRun(st, a + b) == ArgRun(ArgRun(st, a), b)
    decreases |a|
  {
    if a != [] {
      assert (a + b)[0] == a[0] && (a + b)[1..] == a[1..] + b;
      ArgRunAppend(ArgStep(st, a[0]), a[1..], b);
    } else {
      assert a + b == b;
    }
  }

  lemma {:induction false} StmtRunAppend(st: Scan, a: string, b: string)
    ensures StmtRun(st, a + b) == StmtRun(StmtRun(st, a), b)
    decreases |a|
  {
    if a != [] {
      assert (a + b)[0] == a[0] && (a + b)[1..] == a[1..] + b;
      StmtRunAppend(StmtStep(st, a[0]), a[1..], b);
    } else {
      assert a + b == b;
    }
  }

  // ---------------------------------------------------------------------
  // Text without a cut is gathered whole

  /** Where no comma cuts, a run only gathers the text. */
  lemma {:induction false} ArgRunNoCut(d: int, current: string, pieces: seq<string>, s: string)
    requires !ArgCuts(d, s)
    ensures ArgRun(Scan(d, current, pieces), s) == Scan(d + Net(s), current + s, pieces)
    decreases |s|
  {
    if s != [] {
      assert current + s == (current + [s[0]]) + s[1..];
      ArgRunNoCut(d + Shift(s[0]), current + [s[0]], pieces, s[1..]);
    } else {
      assert current + s == current;
    }
  }

  /** Where no `)` cuts, a run only gathers the text. */
  lemma {:induction false} StmtRunNoCut(d: int, current: string, pieces: seq<string>, s: string)
    requires !StmtCuts(d, s)
    ensures StmtRun(Scan(d, current, pieces), s) == Scan(d + Net(s), current + s, pieces)
    decreases |s|
  {
    if s != [] {
      assert current + s == (current + [s[0]]) + s[1..];
      StmtRunNoCut(d + Shift(s[0]), current + [s[0]], pieces, s[1..]);
    } else {
      assert current + s == current;
    }
  }

  /** Text without a top-level comma comes back as one stripped piece, or
      as none when it is blank. */
  lemma {:induction false} NoTopLevelComma(s: string)
    requires !ArgCuts(0, s)
    ensures Strip(s) == [] ==> SplitArgs(s) == []
    ensures Strip(s) != [] ==> SplitArgs(s) == [Strip(s)]
  {
    ArgRunNoCut(0, "", [], s);
    assert "" + s == s;
  }

  /** A comma inside parentheses never cuts: a piece with no comma at all
      is one argument. */
  lemma {:induction false} NoCommaNoCut(d: int, s: string)
    requires ',' !in s
    ensures !ArgCuts(d, s)
    decreases |s|
  {
    if s != [] {
      assert ',' !in s[1..];
      NoCommaNoCut(d + Shift(s[0]), s[1..]);
    }
  }

  // ---------------------------------------------------------------------
  // Round trips with `", ".join`

  /** Stripping text that already starts and ends with a non-blank
      character changes nothing. */
  lemma {:induction false} StripUnchanged(s: string)
    requires s != [] && s[0] !in Whitespace && s[|s| - 1] !in Whitespace
    ensures Strip(s) == s
  {
  }

  /** A blank before a stripped piece is stripped away again. */
  lemma {:induction false} StripAfterSpace(p: string)
    requires Trimmed(p)
    ensures Strip(" " + p) == p
  {
    var s := " " + p;
    assert s[0] == ' ' && s[1..] == p;
    assert StripLeft(s, Whitespace) == StripLeft(p, Whitespace) == p;
  }

  /** An argument text that `_split_args` keeps whole: trimmed, no comma
      that cuts, and its parentheses balance. */
  predicate Argument(p: string) {
    Trimmed(p) && !ArgCuts(0, p) && Net(p) == 0
  }

  /** The `", "` between two arguments: the comma cuts off the gathered
      argument, the blank starts the next one. */
  lemma {:induction false} ArgRunSeparator(current: string, pieces: seq<string>)
    requires Strip(current) != []
    ensures ArgRun(Scan(0, current, pieces), ", ") == Scan(0, " ", pieces + [Strip(current)])
  {
    assert ", "[1..] == " ";
    assert " "[1..] == "";
    assert "" + [' '] == " ";
  }

  /** An argument with the blank that may precede it strips to itself. */
  lemma {:induction false} StripLead(lead: string, p: string)
    requires lead == "" || lead == " "
    requires Trimmed(p)
    ensures Strip(lead + p) == p
  {
    if lead == "" {
      assert lead + p == p;
      StripUnchanged(p);
    } else {
      StripAfterSpace(p);
    }
  }

  /** The first argument, read after an optional blank. */
  lemma {:induction false} ArgRunFirst(lead: string, pieces: seq<string>, p: string)
    requires lead == "" || lead == " "
    requires Argument(p)
    ensures ArgRun(Scan(0, lead, pieces), p) == Scan(0, lead + p, pieces)
    ensures Strip(lead + p) == p
  {
    ArgRunNoCut(0, lead, pieces, p);
    StripLead(lead, p);
  }

  /** An argument and the separator after it. */
  lemma {:induction false} ArgRunArgument(lead: string, pieces: seq<string>, p: string, rest: string)
    requires lead == "" || lead == " "
    requires Argument(p)
    ensures ArgRun(Scan(0, lead, pieces), p + ", " + rest) == ArgRun(Scan(0, " ", pieces + [p]), rest)
  {
    var st := Scan(0, lead, pieces);
    ArgRunAppend(st, p + ", ", rest);
    ArgRunAppend(st, p, ", ");
    ArgRunFirst(lead, pieces, p);
    ArgRunSeparator(lead + p, pieces);
  }

  /** Every one of `parts` is an `Argument`, stated part by part. */
  predicate AllArguments(parts: seq<string>) {
    parts == [] || (Argument(parts[0]) && AllArguments(parts[1..]))
  }

  lemma {:induction false} AllArgumentsEach(parts: seq<string>)
    requires forall k :: 0 <= k < |parts| ==> Argument(parts[k])
    ensures AllArguments(parts)
  {
    if parts != [] {
      AllArgumentsEach(parts[1..]);
    }
  }

  /** Reading `", ".join(parts)` cuts off every argument but the last,
      which is still being gathered at the end. */
  lemma {:induction false} ArgRunJoin(lead: string, pieces: seq<string>, parts: seq<string>)
    requires lead == "" || lead == " "
    requires |parts| > 0 && AllArguments(parts)
    ensures ArgRun(Scan(0, lead, pieces), Join(", ", parts))
         == Scan(0, (if |parts| == 1 then lead else " ") + parts[|parts| - 1], pieces + parts[..|parts| - 1])
    decreases |parts|
  {
    var p := parts[0];
    if |parts| == 1 {
      assert Join(", ", parts) == p;
      ArgRunFirst(lead, pieces, p);
      assert pieces + parts[..0] == pieces;
    } else {
      var rest := Join(", ", parts[1..]);
      assert Join(", ", parts) == p + ", " + rest;
      ArgRunArgument(lead, pieces, p, rest);
      ArgRunJoin(" ", pieces + [p], parts[1..]);
      assert parts[1..][|parts| - 2] == parts[|parts| - 1];
      assert pieces + [p] + parts[1..][..|parts| - 2] == pieces + parts[..|parts| - 1];
    }
  }

  /** The last argument, once the text is read to the end. */
  lemma {:induction false} FinishLast(lead: string, pieces: seq<string>, p: string)
    requires lead == "" || lead == " "
    requires Trimmed(p)
    ensures Finish(Scan(0, lead + p, pieces)) == pieces + [p]
  {
    StripLead(lead, p);
  }

  /** `_split_args` undoes `", ".join` of arguments it keeps whole. */
  lemma {:induction false} SplitArgsJoin(parts: seq<string>)
    requires forall k :: 0 <= k < |parts| ==> Argument(parts[k])
    ensures SplitArgs(Join(", ", parts)) == parts
  {
    if |parts| > 0 {
      var n := |parts| - 1;
      AllArgumentsEach(parts);
      ArgRunJoin("", [], parts);
      FinishLast(if n == 0 then "" else " ", parts[..n], parts[n]);
      assert parts[..n] + [parts[n]] == parts;
    }
  }

  /** A statement text that `_split_statements` cuts exactly at its end:
      it starts with a non-blank character, ends with the `)` that closes
      it, and no earlier `)` returns to depth 0. */
  predicate Statement(p: string) {
    |p| > 0 && p[0] !in Whitespace && p[|p| - 1] == ')' && Net(p) == 0
    && !StmtCuts(0, p[..|p| - 1])
  }

  /** The closing `)` that brings the depth back to 0. */
  lemma {:induction false} StmtRunClose(current: string, pieces: seq<string>)
    ensures StmtRun(Scan(1, current, pieces), ")") == Scan(0, "", Emit(pieces, current + ")"))
  {
    assert ")"[1..] == "";
  }

  /** A statement's text up to its closing `)`: gathered whole, one level
      deep at the end. */
  lemma {:induction false} StmtRunBody(current: string, pieces: seq<string>, body: string)
    requires !StmtCuts(0, body) && Net(body) == 1
    ensures StmtRun(Scan(0, current, pieces), body + ")") == Scan(0, "", Emit(pieces, current + body + ")"))
  {
    StmtRunNoCut(0, current, pieces, body);
    StmtRunAppend(Scan(0, current, pieces), body, ")");
    StmtRunClose(current + body, pieces);
  }

  /** Reading one statement gathers it and cuts after its closing `)`. */
  lemma {:induction false} StmtRunStatement(current: string, pieces: seq<string>, p: string)
    requires current == "" || current == ", "
    requires Statement(p)
    ensures StmtRun(Scan(0, current, pieces), p) == Scan(0, "", pieces + [current + p])
  {
    var body := p[..|p| - 1];
    assert p == body + ")";
    NetAppend(body, ")");
    assert Net(")") == -1;
    StmtRunBody(current, pieces, body);
    assert current + body + ")" == current + p;
    var whole := current + p;
    assert whole[|whole| - 1] == ')';
    assert whole[0] == (if current == "" then p[0] else ',');
    StripUnchanged(whole);
  }

  /** A statement and the `", "` after it, which starts the next piece. */
  lemma {:induction false} StmtRunStatementSep(current: string, pieces: seq<string>, p: string, rest: string)
    requires current == "" || current == ", "
    requires Statement(p)
    ensures StmtRun(Scan(0, current, pieces), p + ", " + rest) == StmtRun(Scan(0, ", ", pieces + [current + p]), rest)
  {
    var st := Scan(0, current, pieces);
    StmtRunAppend(st, p + ", ", rest);
    StmtRunAppend(st, p, ", ");
    StmtRunStatement(current, pieces, p);
    assert ", "[1..] == " " && " "[1..] == "";
    assert "" + [','] + [' '] == ", ";
  }

  /** Every one of `stmts` is a `Statement`, stated one by one. */
  predicate AllStatements(stmts: seq<string>) {
    stmts == [] || (Statement(stmts[0]) && AllStatements(stmts[1..]))
  }

  lemma {:induction false} AllStatementsEach(stmts: seq<string>)
    requires forall k :: 0 <= k < |stmts| ==> Statement(stmts[k])
    ensures AllStatements(stmts)
  {
    if stmts != [] {
      AllStatementsEach(stmts[1..]);
    }
  }

  /** Each statement with the `", "` that separated it from the one before. */
  function Separated(stmts: seq<string>): (r: seq<string>)
    ensures |r| == |stmts|
    ensures forall k :: 0 <= k < |stmts| ==> r[k] == ", " + stmts[k]
  {
    if stmts == [] then [] else [", " + stmts[0]] + Separated(stmts[1..])
  }

  lemma {:induction false} StmtRunJoin(current: string, pieces: seq<string>, stmts: seq<string>)
    requires current == "" || current == ", "
    requires |stmts| > 0 && AllStatements(stmts)
    ensures StmtRun(Scan(0, current, pieces), Join(", ", stmts))
         == Scan(0, "", pieces + [current + stmts[0]] + Separated(stmts[1..]))
    decreases |stmts|
  {
    var p := stmts[0];
    if |stmts| == 1 {
      assert Join(", ", stmts) == p;
      StmtRunStatement(current, pieces, p);
      assert pieces + [current + p] + Separated(stmts[1..]) == pieces + [current + p];
    } else {
      var rest := Join(", ", stmts[1..]);
      assert Join(", ", stmts) == p + ", " + rest;
      StmtRunStatementSep(current, pieces, p, rest);
      StmtRunJoin(", ", pieces + [current + p], stmts[1..]);
      assert stmts[1..][1..] == stmts[2..];
      assert Separated(stmts[1..]) == [", " + stmts[1]] + Separated(stmts[2..]);
      assert pieces + [current + p] + [", " + stmts[1]] + Separated(stmts[2..])
          == pieces + [current + p] + Separated(stmts[1..]);
    }
  }

  /** `_split_statements` on `", ".join` of statements: the first comes back
      as it was, every later one with the `", "` before it still attached
      (stripping removes blanks only, not the comma). */
  lemma {:induction false} SplitStatementsJoin(stmts: seq<string>)
    requires forall k :: 0 <= k < |stmts| ==> Statement(stmts[k])
    ensures SplitStatements(Join(", ", stmts)) == if stmts == [] then [] else [stmts[0]] + Separated(stmts[1..])
  {
    if |stmts| > 0 {
      var first := stmts[0];
      assert "" + first == first;
      assert [] + [first] == [first];
      AllStatementsEach(stmts);
      StmtRunJoin("", [], stmts);
      assert Strip("") == [];
    }
  }

  // ---------------------------------------------------------------------
  // The loops as the source writes them

  /** The `for char in args_str` loop of `_split_args`. */
  method SplitArgsLoop(s: string) returns (args: seq<string>)
    ensures args == SplitArgs(s)
  {
    var depth := 0;
    var current := "";
    args := [];
    var i := 0;
    while i < |s|
      invariant 0 <= i <= |s|
      invariant ArgRun(Scan(depth, current, args), s[i..]) == ArgRun(Scan(0, "", []), s)
    {
      var c := s[i];
      assert s[i..][0] == c && s[i..][1..] == s[i + 1..];
      if c == '(' {
        depth := depth + 1;
      } else if c == ')' {
        depth := depth - 1;
      }
      if c == ',' && depth == 0 {
        if Strip(current) != [] {
          args := args + [Strip(current)];
        }
        current := "";
      } else {
        current := current + [c];
      }
      i := i + 1;
    }
    if Strip(current) != [] {
      args := args + [Strip(current)];
    }
  }

  /** The `for char in stmts_str` loop of `_split_statements`. */
  method SplitStatementsLoop(s: string) returns (result: seq<string>)
    ensures result == SplitStatements(s)
  {
    var depth := 0;
    var current := "";
    result := [];
    var i := 0;
    while i < |s|
      invariant 0 <= i <= |s|
      invariant StmtRun(Scan(depth, current, result), s[i..]) == StmtRun(Scan(0, "", []), s)
    {
      var c := s[i];
      assert s[i..][0] == c && s[i..][1..] == s[i + 1..];
      if c == '(' {
        depth := depth + 1;
      } else if c == ')' {
        depth := depth - 1;
      }
      current := current + [c];
      if depth == 0 && c == ')' {
        if Strip(current) != [] {
          result := result + [Strip(current)];
        }
        current := "";
      }
      i := i + 1;
    }
    if Strip(current) != [] {
      result := result + [Strip(current)];
    }
  }
}
