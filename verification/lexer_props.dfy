/** Properties of the tokenizer: the lexemes of a line tile it, patterns
    are tried in order and the first match wins, reserved words are never
    identifiers, unmatched characters become one-character errors, nothing
    skipped or at a line break is emitted, and tokens come out sorted by
    line and position, each at its place in its line. */
module LexerProperties {
  import opened Results
  import opened Strings
  import opened Lexer

  // ---------------------------------------------------------------------
  // Runs and the order of the patterns

  /** A run is the longest prefix of its class. */
  lemma {:induction false} RunFacts(s: string, cl: CharClass)
    ensures forall k :: 0 <= k < Run(s, cl) ==> InClass(cl, s[k])
    ensures Run(s, cl) < |s| ==> !InClass(cl, s[Run(s, cl)])
    decreases |s|
  {
    if |s| > 0 && InClass(cl, s[0]) {
      RunFacts(s[1..], cl);
      forall k | 1 <= k < Run(s, cl) ensures InClass(cl, s[k]) {
        assert s[k] == s[1..][k - 1];
      }
    }
  }

  /** The first match wins: no pattern before the chosen one matches, and
      without a choice none matches at all. */
  lemma {:induction false} FirstMatchIsFirst(m: Matcher, pats: seq<TokenType>, s: string)
    ensures FirstMatch(m, pats, s).None? <==> forall k :: 0 <= k < |pats| ==> m(pats[k], s).None?
    ensures FirstMatch(m, pats, s).Some? ==>
      exists i :: (0 <= i < |pats| && pats[i] == FirstMatch(m, pats, s).value.0
        && forall k :: 0 <= k < i ==> m(pats[k], s).None?)
    decreases |pats|
  {
    if pats != [] && m(pats[0], s).None? {
      FirstMatchIsFirst(m, pats[1..], s);
      if FirstMatch(m, pats, s).Some? {
        var i :| (0 <= i < |pats[1..]| && pats[1..][i] == FirstMatch(m, pats, s).value.0
          && forall k :: 0 <= k < i ==> m(pats[1..][k], s).None?);
        assert forall k :: 1 <= k < i + 1 ==> pats[k] == pats[1..][k - 1];
        assert pats[i + 1] == FirstMatch(m, pats, s).value.0;
      }
      assert forall k :: 1 <= k < |pats| ==> pats[k] == pats[1..][k - 1];
    } else if pats != [] {
      assert pats[0] == FirstMatch(m, pats, s).value.0;
    }
  }

  /** A lexeme other than an error is what its class's pattern matches. */
  lemma ClassifiedMatches(sc: Scanner, s: string)
    requires |s| > 0 && Classify(sc, s).0 != Error
    ensures sc.matcher(Classify(sc, s).0, s) == Some(Classify(sc, s).1)
  {
    FirstMatchFound(sc.matcher, sc.patterns, s);
  }

  // ---------------------------------------------------------------------
  // The analyzer's classes

  /** `ClassifiedMatches` for the analyzer's own patterns. */
  lemma AnalyzerMatches(s: string)
    requires |s| > 0 && Classify(Analyzer, s).0 != Error
    ensures Match(Classify(Analyzer, s).0, s) == Some(Classify(Analyzer, s).1)
  {
    ClassifiedMatches(Analyzer, s);
  }

  /** A character no pattern matches is a one-character `ERROR` lexeme,
      and an `ERROR` lexeme is only ever that. */
  lemma ErrorIsOneUnmatchedChar(s: string)
    requires |s| > 0
    ensures Classify(Analyzer, s).0 == Error <==>
      forall k :: 0 <= k < |Patterns| ==> Match(Patterns[k], s).None?
    ensures Classify(Analyzer, s).0 == Error ==> Classify(Analyzer, s).1 == 1
  {
    FirstMatchIsFirst(Match, Patterns, s);
    FirstMatchFound(Match, Patterns, s);
  }

  /** A lexeme of another class than the first pattern's is one the first
      pattern does not match. */
  lemma FirstPatternMissed(sc: Scanner, s: string)
    requires |s| > 0 && |sc.patterns| > 0
    requires Classify(sc, s).0 != Error && Classify(sc, s).0 != sc.patterns[0]
    ensures sc.matcher(sc.patterns[0], s).None?
  {
  }

  /** The analyzer tries the keyword pattern first, then the identifier
      pattern. */
  lemma AnalyzerOrder(s: string)
    ensures |Analyzer.patterns| > 1
    ensures Analyzer.patterns[0] == Keyword && Analyzer.patterns[1] == Identifier
    ensures Analyzer.matcher(Keyword, s) == KeywordMatch(s)
    ensures Analyzer.matcher(Identifier, s) == IdentifierMatch(s)
  {
    assert Analyzer.matcher == Match;
  }

  /** What the keyword pattern matches: the leading word run, when it is a
      reserved word. */
  lemma KeywordMatchFacts(s: string, n: nat)
    requires KeywordMatch(s) == Some(n)
    ensures n == Run(s, Word) && IsKeyword(s[..n])
  {
  }

  /** With any scanner, a lexeme of the keyword pattern is the leading word
      run, and a reserved word. */
  lemma KeywordClassified(sc: Scanner, s: string)
    requires |s| > 0 && Classify(sc, s).0 == Keyword
    requires sc.matcher(Keyword, s) == KeywordMatch(s)
    ensures Classify(sc, s).1 == Run(s, Word)
    ensures IsKeyword(s[..Classify(sc, s).1])
  {
    ClassifiedMatches(sc, s);
    KeywordMatchFacts(s, Classify(sc, s).1);
  }

  /** With any scanner that tries the keyword pattern first, a lexeme of
      the identifier pattern is the leading word run, and not a reserved
      word. */
  lemma IdentifierClassified(sc: Scanner, s: string)
    requires |s| > 0 && Classify(sc, s).0 == Identifier
    requires |sc.patterns| > 0 && sc.patterns[0] == Keyword
    requires sc.matcher(Keyword, s) == KeywordMatch(s)
    requires sc.matcher(Identifier, s) == IdentifierMatch(s)
    ensures Classify(sc, s).1 == Run(s, Word)
    ensures !IsKeyword(s[..Classify(sc, s).1])
  {
    ClassifiedMatches(sc, s);
    FirstPatternMissed(sc, s);
  }

  /** A word run ends before a character that is not a word character. */
  lemma WordRunStops(s: string, n: nat)
    requires n == Run(s, Word) && n < |s|
    ensures !IsWordChar(s[n])
  {
    RunFacts(s, Word);
  }

  /** A keyword lexeme is the leading word run, and a reserved word. */
  lemma KeywordLexeme(s: string)
    requires |s| > 0 && Classify(Analyzer, s).0 == Keyword
    ensures Classify(Analyzer, s).1 == Run(s, Word)
    ensures IsKeyword(s[..Classify(Analyzer, s).1])
  {
    AnalyzerOrder(s);
    KeywordClassified(Analyzer, s);
  }

  /** A keyword lexeme is not followed by a word character: `\b` holds
      after it. */
  lemma KeywordEndsWord(s: string)
    requires |s| > 0 && Classify(Analyzer, s).0 == Keyword && Classify(Analyzer, s).1 < |s|
    ensures !IsWordChar(s[Classify(Analyzer, s).1])
  {
    KeywordLexeme(s);
    WordRunStops(s, Classify(Analyzer, s).1);
  }

  /** An identifier lexeme is never a reserved word: the keyword pattern
      is tried first and would have taken the same text. */
  lemma IdentifierIsNotKeyword(s: string)
    requires |s| > 0 && Classify(Analyzer, s).0 == Identifier
    ensures Classify(Analyzer, s).1 == Run(s, Word)
    ensures !IsKeyword(s[..Classify(Analyzer, s).1])
  {
    AnalyzerOrder(s);
    IdentifierClassified(Analyzer, s);
  }

  /** A newline lexeme starts with `\n`. */
  lemma NewlineLexeme(s: string)
    requires |s| > 0 && Classify(Analyzer, s).0 == Newline
    ensures s[0] == '\n'
  {
    ClassifiedMatches(Analyzer, s);
    assert CharMatch(s, "\n").Some?;
  }

  // ---------------------------------------------------------------------
  // What the number, string and comment patterns match

  /** The texts `\d+(\.\d+)?` describes: digits, at most one `.`, and a
      digit at both ends. */
  predicate NumberText(t: string) {
    && |t| > 0 && IsDigit(t[0]) && IsDigit(t[|t| - 1])
    && (forall k :: 0 <= k < |t| ==> IsDigit(t[k]) || t[k] == '.')
    && (forall i, j :: 0 <= i < j < |t| && t[i] == '.' ==> t[j] != '.')
  }

  /** The identifier pattern matches exactly at a letter or `_`, so a
      word that starts with a digit is not an identifier there; the match
      is then the longest prefix of word characters. */
  lemma IdentifierMatchFacts(s: string)
    ensures IdentifierMatch(s).Some? <==> |s| > 0 && (IsLetter(s[0]) || s[0] == '_')
    ensures IdentifierMatch(s).Some? ==>
      var n := IdentifierMatch(s).value;
      (forall k :: 0 <= k < n ==> IsWordChar(s[k])) && (n < |s| ==> !IsWordChar(s[n]))
  {
    RunFacts(s, Word);
  }

  /** `s[..n]` is a number and no longer prefix of `s` is one. */
  predicate LongestNumber(s: string, n: nat)
    requires n <= |s|
  {
    NumberText(s[..n]) && forall m :: n < m <= |s| ==> !NumberText(s[..m])
  }

  /** The number pattern matches exactly at a digit, and then takes the
      longest prefix that is a number: a `.` is taken only with a digit
      after it, and a second `.` never. */
  lemma NumberMatchFacts(s: string)
    ensures NumberMatch(s).Some? <==> |s| > 0 && IsDigit(s[0])
    ensures NumberMatch(s).Some? ==> LongestNumber(s, NumberMatch(s).value)
  {
    var d := Run(s, Digits);
    RunFacts(s, Digits);
    if d > 0 {
      if d + 1 < |s| && s[d] == '.' && IsDigit(s[d + 1]) {
        NumberWithFraction(s, d);
      } else {
        NumberWithoutFraction(s, d);
      }
    }
  }

  lemma NumberWithoutFraction(s: string, d: nat)
    requires 0 < d == Run(s, Digits)
    requires !(d + 1 < |s| && s[d] == '.' && IsDigit(s[d + 1]))
    ensures NumberMatch(s) == Some(d)
    ensures LongestNumber(s, d)
  {
    RunFacts(s, Digits);
    forall m | d < m <= |s| ensures !NumberText(s[..m]) {
      var t := s[..m];
      assert t[d] == s[d] && !IsDigit(t[d]);
      if t[d] == '.' {
        if m == d + 1 {
          assert !IsDigit(t[|t| - 1]);
        } else {
          assert t[d + 1] == s[d + 1] && !IsDigit(t[d + 1]);
          if t[d + 1] == '.' {
            assert t[d] == '.' && t[d + 1] == '.';
          }
        }
      }
    }
  }

  lemma NumberWithFraction(s: string, d: nat)
    requires 0 < d == Run(s, Digits)
    requires d + 1 < |s| && s[d] == '.' && IsDigit(s[d + 1])
    ensures NumberMatch(s) == Some(d + 1 + Run(s[d + 1..], Digits))
    ensures LongestNumber(s, d + 1 + Run(s[d + 1..], Digits))
  {
    var tail := s[d + 1..];
    var e := Run(tail, Digits);
    assert tail[0] == s[d + 1];
    assert NumberMatch(s) == Some(d + 1 + e);
    FractionText(s, d, e);
    FractionLongest(s, d, e);
  }

  lemma FractionText(s: string, d: nat, e: nat)
    requires 0 < d == Run(s, Digits)
    requires d + 1 < |s| && s[d] == '.'
    requires 0 < e == Run(s[d + 1..], Digits)
    ensures NumberText(s[..d + 1 + e])
  {
    RunFacts(s, Digits);
    var tail := s[d + 1..];
    RunFacts(tail, Digits);
    var n := d + 1 + e;
    var t := s[..n];
    forall k | 0 <= k < |t| ensures (IsDigit(t[k]) || t[k] == '.') && (k != d ==> t[k] != '.') {
      if k > d {
        assert t[k] == tail[k - d - 1];
      }
    }
    assert t[n - 1] == tail[e - 1];
  }

  lemma FractionLongest(s: string, d: nat, e: nat)
    requires d + 1 < |s| && s[d] == '.'
    requires e == Run(s[d + 1..], Digits)
    ensures forall m :: d + 1 + e < m <= |s| ==> !NumberText(s[..m])
  {
    var tail := s[d + 1..];
    RunFacts(tail, Digits);
    var n := d + 1 + e;
    forall m | n < m <= |s| ensures !NumberText(s[..m]) {
      var u := s[..m];
      assert u[n] == tail[e] && !IsDigit(u[n]);
      if u[n] == '.' {
        assert u[d] == '.' && u[n] == '.';
      }
    }
  }

  /** Where the lazy `.*?` stops: every character before the closing quote
      is neither the quote nor a newline; and when there is no closing
      quote, every later quote has a newline before it. */
  lemma {:induction false} QuoteEndFacts(s: string, q: char, k: nat)
    requires q != '\n'
    ensures QuoteEnd(s, q, k).Some? ==>
      forall j :: k <= j < QuoteEnd(s, q, k).value ==> s[j] != q && s[j] != '\n'
    ensures QuoteEnd(s, q, k).None? ==>
      forall j :: k <= j < |s| && s[j] == q ==> '\n' in s[k..j]
    decreases |s| - k
  {
    if k < |s| && s[k] != '\n' && s[k] != q {
      QuoteEndFacts(s, q, k + 1);
      if QuoteEnd(s, q, k).None? {
        forall j | k <= j < |s| && s[j] == q ensures '\n' in s[k..j] {
          assert j > k;
          var i :| 0 <= i < |s[k + 1..j]| && s[k + 1..j][i] == '\n';
          assert s[k..j][i + 1] == '\n';
        }
      }
    } else if k < |s| && s[k] == '\n' {
      forall j | k < j < |s| && s[j] == q ensures '\n' in s[k..j] {
        assert s[k..j][0] == '\n';
      }
    }
  }

  /** The string pattern matches a quote, the shortest run after it free
      of line breaks, and the same quote again; with no such closing quote
      on the line, it does not match. */
  lemma StringMatchFacts(s: string)
    ensures StringMatch(s).Some? ==>
      var n := StringMatch(s).value;
      && n >= 2 && (s[0] == '"' || s[0] == '\'') && s[n - 1] == s[0]
      && forall j :: 1 <= j < n - 1 ==> s[j] != s[0] && s[j] != '\n'
    ensures |s| > 0 && (s[0] == '"' || s[0] == '\'') && StringMatch(s).None? ==>
      forall j :: 1 <= j < |s| && s[j] == s[0] ==> '\n' in s[1..j]
  {
    if |s| > 0 && (s[0] == '"' || s[0] == '\'') {
      QuoteEndFacts(s, s[0], 1);
    }
  }

  /** The comment pattern matches exactly at `#`, and takes the rest of
      the line: no line break inside, and the end of the text or a line
      break right after. */
  lemma CommentMatchFacts(s: string)
    ensures CommentMatch(s).Some? <==> |s| > 0 && s[0] == '#'
    ensures CommentMatch(s).Some? ==>
      var n := CommentMatch(s).value;
      && '\n' !in s[..n]
      && (n == |s| || s[n] == '\n')
  {
    if |s| > 0 && s[0] == '#' {
      var rest := s[1..];
      RunFacts(rest, NotNewline);
      var n := 1 + Run(rest, NotNewline);
      forall k | 0 <= k < n ensures s[..n][k] != '\n' {
        if k > 0 {
          assert s[..n][k] == rest[k - 1];
        }
      }
      if n < |s| {
        assert s[n] == rest[n - 1];
      }
    }
  }

  // ---------------------------------------------------------------------
  // Lexemes: what each step of a scan consumes

  /** A consumed piece of a line, emitted or not. */
  datatype Lexeme = Lexeme(kind: TokenType, text: string, position: nat)

  /** The lexemes of `line` from position `p` on. */
  function LexemesFrom(sc: Scanner, line: string, p: nat): seq<Lexeme>
    requires p <= |line|
    decreases |line| - p
  {
    if p == |line| then []
    else
      var m := Classify(sc, line[p..]);
      [Lexeme(m.0, line[p..p + m.1], p)] + LexemesFrom(sc, line, p + m.1)
  }

  /** The lexemes that are emitted, as tokens of line `num`. */
  function Keep(ls: seq<Lexeme>, num: nat): seq<Token> {
    if ls == [] then []
    else if Skipped(ls[0].kind) then Keep(ls[1..], num)
    else [Token(ls[0].kind, ls[0].text, num, ls[0].position)] + Keep(ls[1..], num)
  }

  /** The texts of lexemes, concatenated. */
  function Texts(ls: seq<Lexeme>): string {
    if ls == [] then "" else ls[0].text + Texts(ls[1..])
  }

  /** The tokens of a line are exactly its lexemes other than whitespace
      and comments, in order. */
  lemma {:induction false} TokensAreKeptLexemes(sc: Scanner, line: string, num: nat, p: nat)
    requires p <= |line|
    ensures TokensFrom(sc, line, num, p) == Keep(LexemesFrom(sc, line, p), num)
    decreases |line| - p
  {
    if p < |line| {
      var m := Classify(sc, line[p..]);
      var later := LexemesFrom(sc, line, p + m.1);
      var ls := [Lexeme(m.0, line[p..p + m.1], p)] + later;
      assert LexemesFrom(sc, line, p) == ls;
      assert ls[1..] == later;
      TokensAreKeptLexemes(sc, line, num, p + m.1);
    }
  }

  /** The lexemes of a line tile it: emitted tokens, whitespace and
      comments together give back the text from `p` on, in order. */
  lemma {:induction false} LexemesTile(sc: Scanner, line: string, p: nat)
    requires p <= |line|
    ensures Texts(LexemesFrom(sc, line, p)) == line[p..]
    decreases |line| - p
  {
    if p < |line| {
      var m := Classify(sc, line[p..]);
      var later := LexemesFrom(sc, line, p + m.1);
      var ls := [Lexeme(m.0, line[p..p + m.1], p)] + later;
      assert LexemesFrom(sc, line, p) == ls;
      assert ls[1..] == later;
      LexemesTile(sc, line, p + m.1);
      assert line[p..] == line[p..p + m.1] + line[p + m.1..];
    }
  }

  // ---------------------------------------------------------------------
  // Tokens of a line

  /** Token `t` of line `num` stands at its position in `line`: its text is
      the line's text there, and it is the lexeme the scan finds there. */
  predicate TokenFits(sc: Scanner, line: string, num: nat, t: Token) {
    && t.line == num
    && t.position < |line|
    && t.position + |t.value| <= |line|
    && t.value == line[t.position..t.position + |t.value|]
    && Classify(sc, line[t.position..]).0 == t.kind
    && Classify(sc, line[t.position..]).1 == |t.value|
    && !Skipped(t.kind)
  }

  /** Every token of `ts` fits `line` at a position from `p` on. */
  predicate FitFrom(sc: Scanner, line: string, num: nat, ts: seq<Token>, p: nat) {
    forall k :: 0 <= k < |ts| ==> TokenFits(sc, line, num, ts[k]) && p <= ts[k].position
  }

  /** Positions strictly increase along `ts`. */
  predicate Ascending(ts: seq<Token>) {
    forall i, j :: 0 <= i < j < |ts| ==> ts[i].position < ts[j].position
  }

  /** Every token of a line from `p` on fits the line at a position from
      `p` on, and positions strictly increase. */
  lemma {:induction false} LineTokensFit(sc: Scanner, line: string, num: nat, p: nat)
    requires p <= |line|
    ensures FitFrom(sc, line, num, TokensFrom(sc, line, num, p), p)
    ensures Ascending(TokensFrom(sc, line, num, p))
    decreases |line| - p
  {
    if p < |line| {
      var m := Classify(sc, line[p..]);
      var rest := TokensFrom(sc, line, num, p + m.1);
      LineTokensFit(sc, line, num, p + m.1);
      if Skipped(m.0) {
        assert TokensFrom(sc, line, num, p) == rest;
      } else {
        var t := Token(m.0, line[p..p + m.1], num, p);
        assert TokensFrom(sc, line, num, p) == [t] + rest;
        assert TokenFits(sc, line, num, t);
        FitCons(sc, line, num, p, t, rest, p + m.1);
      }
    }
  }

  /** A fitting token at `p` before fitting tokens after `p`. */
  lemma FitCons(sc: Scanner, line: string, num: nat, p: nat, t: Token, rest: seq<Token>, q: nat)
    requires TokenFits(sc, line, num, t) && t.position == p < q
    requires FitFrom(sc, line, num, rest, q) && Ascending(rest)
    ensures FitFrom(sc, line, num, [t] + rest, p) && Ascending([t] + rest)
  {
    var ts := [t] + rest;
    forall k | 0 <= k < |ts| ensures TokenFits(sc, line, num, ts[k]) && p <= ts[k].position {
      if k > 0 {
        assert ts[k] == rest[k - 1];
      }
    }
    forall i, j | 0 <= i < j < |ts| ensures ts[i].position < ts[j].position {
      assert ts[j] == rest[j - 1];
      if i > 0 {
        assert ts[i] == rest[i - 1];
      }
    }
  }

  /** What the class of a token of the analyzer says about its text, on a
      line without `\n`: nothing skipped and no line break is emitted, an
      error is one unmatched character, a keyword is a reserved word and
      an identifier is not. */
  lemma TokenClass(line: string, num: nat, t: Token)
    requires '\n' !in line && TokenFits(Analyzer, line, num, t)
    ensures t.kind != Whitespace && t.kind != Comment && t.kind != Newline
    ensures t.kind == Error ==> (t.value == [line[t.position]]
      && forall k :: 0 <= k < |Patterns| ==> Match(Patterns[k], line[t.position..]).None?)
    ensures t.kind == Keyword ==> IsKeyword(t.value)
    ensures t.kind == Identifier ==> !IsKeyword(t.value)
  {
    var s := line[t.position..];
    assert s[..|t.value|] == t.value;
    if t.kind == Newline {
      NewlineLexeme(s);
    }
    if t.kind == Error {
      ErrorIsOneUnmatchedChar(s);
    }
    if t.kind == Keyword {
      KeywordLexeme(s);
    }
    if t.kind == Identifier {
      IdentifierIsNotKeyword(s);
    }
  }

  // ---------------------------------------------------------------------
  // Tokens of a text

  /** Token `a` comes before token `b`: on an earlier line, or further left
      on the same line. */
  predicate Before(a: Token, b: Token) {
    a.line < b.line || (a.line == b.line && a.position < b.position)
  }

  /** Every token of `ts` is on one of `lines`, numbered from `num`, and
      fits it. */
  predicate FitLines(sc: Scanner, lines: seq<string>, num: nat, ts: seq<Token>) {
    forall k :: 0 <= k < |ts| ==>
      num <= ts[k].line < num + |lines| && TokenFits(sc, lines[ts[k].line - num], ts[k].line, ts[k])
  }

  /** The tokens of `ts` are in reading order. */
  predicate InReadingOrder(ts: seq<Token>) {
    forall i, j :: 0 <= i < j < |ts| ==> Before(ts[i], ts[j])
  }

  /** Every token of lines numbered from `num` is on one of them and fits
      it, and the tokens are in reading order. */
  lemma {:induction false} LinesTokensFit(sc: Scanner, lines: seq<string>, num: nat)
    ensures FitLines(sc, lines, num, TokensOfLines(sc, lines, num))
    ensures InReadingOrder(TokensOfLines(sc, lines, num))
    decreases |lines|
  {
    if lines != [] {
      var first := LineTokens(sc, lines[0], num);
      var rest := TokensOfLines(sc, lines[1..], num + 1);
      var ts := first + rest;
      assert TokensOfLines(sc, lines, num) == ts;
      LineTokensFit(sc, lines[0], num, 0);
      LinesTokensFit(sc, lines[1..], num + 1);
      FitLinesCons(sc, lines, num, first, rest);
      ReadingOrderCons(num, first, rest);
    }
  }

  /** The tokens of a first line, then those of the lines after it. */
  lemma FitLinesCons(sc: Scanner, lines: seq<string>, num: nat, first: seq<Token>, rest: seq<Token>)
    requires lines != [] && FitFrom(sc, lines[0], num, first, 0) && FitLines(sc, lines[1..], num + 1, rest)
    ensures FitLines(sc, lines, num, first + rest)
  {
    var ts := first + rest;
    forall k | 0 <= k < |ts|
      ensures num <= ts[k].line < num + |lines| && TokenFits(sc, lines[ts[k].line - num], ts[k].line, ts[k])
    {
      if k < |first| {
        assert ts[k] == first[k];
        assert TokenFits(sc, lines[0], num, first[k]);
      } else {
        var t := rest[k - |first|];
        assert ts[k] == t;
        assert TokenFits(sc, lines[1..][t.line - (num + 1)], t.line, t);
        assert lines[1..][t.line - (num + 1)] == lines[t.line - num];
      }
    }
  }

  /** Tokens of line `num` in ascending position, then tokens of later
      lines in reading order, are in reading order. */
  lemma ReadingOrderCons(num: nat, first: seq<Token>, rest: seq<Token>)
    requires forall k :: 0 <= k < |first| ==> first[k].line == num
    requires forall k :: 0 <= k < |rest| ==> num < rest[k].line
    requires Ascending(first) && InReadingOrder(rest)
    ensures InReadingOrder(first + rest)
  {
    var ts := first + rest;
    forall i, j | 0 <= i < j < |ts| ensures Before(ts[i], ts[j]) {
      if j < |first| {
        assert ts[i] == first[i] && ts[j] == first[j];
      } else if i < |first| {
        assert ts[i] == first[i] && ts[j] == rest[j - |first|];
      } else {
        assert ts[i] == rest[i - |first|] && ts[j] == rest[j - |first|];
      }
    }
  }

  /** Token `t` stands on line `t.line` (1-based) of `lines`, at a
      position within it where its text is. */
  predicate StandsIn(lines: seq<string>, t: Token) {
    && 1 <= t.line <= |lines|
    && t.position < |lines[t.line - 1]|
    && t.position + |t.value| <= |lines[t.line - 1]|
    && t.value == lines[t.line - 1][t.position..t.position + |t.value|]
  }

  /** What the class of an emitted token of the analyzer guarantees. */
  predicate ClassRespected(t: Token) {
    && t.kind != Whitespace && t.kind != Comment && t.kind != Newline
    && (t.kind == Error ==> |t.value| == 1)
    && (t.kind == Keyword ==> IsKeyword(t.value))
    && (t.kind == Identifier ==> !IsKeyword(t.value))
  }

  /** The tokens of a text: each stands on a line of the text at its
      position, its class says what `TokenClass` says, and the tokens are
      in reading order. */
  lemma TokensOfText(code: string)
    ensures forall k :: 0 <= k < |Tokens(code)| ==>
      StandsIn(Split(code, "\n"), Tokens(code)[k]) && ClassRespected(Tokens(code)[k])
    ensures InReadingOrder(Tokens(code))
  {
    var lines := Split(code, "\n");
    var ts := Tokens(code);
    assert ts == TokensOfLines(Analyzer, lines, 1);
    LinesTokensFit(Analyzer, lines, 1);
    forall k | 0 <= k < |ts| ensures StandsIn(lines, ts[k]) && ClassRespected(ts[k]) {
      var line := lines[ts[k].line - 1];
      assert TokenFits(Analyzer, line, ts[k].line, ts[k]);
      assert !Contains(line, "\n");
      ContainsChar(line, '\n');
      TokenClass(line, ts[k].line, ts[k]);
    }
  }
}
