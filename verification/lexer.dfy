/** The line-oriented tokenizer of the lexical analyzer. The code is split
    into lines at `\n`; each line is scanned left to right, and at every
    position the patterns are tried in their declared order, the first one
    that matches a non-empty prefix of the rest of the line wins. A
    character no pattern matches becomes an `ERROR` token of its own.
    Whitespace and comments are consumed but not emitted. */
module Lexer {
  import opened Results
  import opened Strings

  /** The token classes, in the order the scanner tries their patterns,
      followed by `Error`, which has no pattern. */
  datatype TokenType =
    | Keyword | Identifier | Number | StringLit | Operator | Delimiter
    | Newline | Whitespace | Comment | Error

  /** The name under which the analyzer reports each class. */
  function TypeName(t: TokenType): (r: string)
    ensures |r| > 0
  {
    match t
    case Keyword => "KEYWORD"
    case Identifier => "IDENTIFIER"
    case Number => "NUMBER"
    case StringLit => "STRING"
    case Operator => "OPERATOR"
    case Delimiter => "DELIMITER"
    case Newline => "NEWLINE"
    case Whitespace => "WHITESPACE"
    case Comment => "COMMENT"
    case Error => "ERROR"
  }

  /** A token: its class, its text, the 1-based line it is on and the
      0-based position of its first character within that line. */
  datatype Token = Token(kind: TokenType, value: string, line: nat, position: nat)

  /** The classes in the order the analyzer tries their patterns. */
  const Patterns: seq<TokenType> :=
    [Keyword, Identifier, Number, StringLit, Operator, Delimiter, Newline, Whitespace, Comment]

  /** The reserved words of the `KEYWORD` pattern. */
  const Keywords: set<string> := {
    "def", "if", "else", "elif", "for", "while", "return", "import", "from",
    "as", "class", "try", "except", "finally", "with", "in", "is", "not",
    "and", "or", "True", "False", "None"}

  predicate IsKeyword(w: string) {
    w in Keywords
  }

  /** Classes not emitted as tokens. */
  predicate Skipped(k: TokenType) {
    k == Whitespace || k == Comment
  }

  // ---------------------------------------------------------------------
  // Character classes and runs

  /** The character classes the patterns repeat. */
  datatype CharClass = Word | Digits | OpChars | Blanks | NotNewline

  predicate IsLetter(c: char) {
    'a' <= c <= 'z' || 'A' <= c <= 'Z'
  }

  /** `[a-zA-Z0-9_]`, which is also what `\b` separates. */
  predicate IsWordChar(c: char) {
    IsLetter(c) || IsDigit(c) || c == '_'
  }

  predicate InClass(cl: CharClass, c: char) {
    match cl
    case Word => IsWordChar(c)
    case Digits => IsDigit(c)
    case OpChars => c in "+-*/=<>!%&|^~"
    case Blanks => c == ' ' || c == '\t'
    case NotNewline => c != '\n'
  }

  /** The length of the longest prefix of `s` drawn from class `cl`: what a
      greedy `[...]*` consumes. */
  function Run(s: string, cl: CharClass): (n: nat)
    ensures n <= |s|
  {
    if |s| == 0 || !InClass(cl, s[0]) then 0 else 1 + Run(s[1..], cl)
  }

  /** The index of the first `q` at or after `k` when no `\n` comes
      before it: where the lazy `.*?` of a string literal stops. */
  function QuoteEnd(s: string, q: char, k: nat): (r: Option<nat>)
    ensures r.Some? ==> k <= r.value < |s| && s[r.value] == q
    decreases |s| - k
  {
    if k >= |s| || s[k] == '\n' then None
    else if s[k] == q then Some(k)
    else QuoteEnd(s, q, k + 1)
  }

  // ---------------------------------------------------------------------
  // Patterns

  /** `\b(def|if|...)\b`: the alternatives are distinct words, so the
      pattern matches exactly when the leading run of word characters is
      one of them. */
  function KeywordMatch(s: string): (r: Option<nat>)
    ensures r.Some? ==> 0 < r.value <= |s|
  {
    var n := Run(s, Word);
    if IsKeyword(s[..n]) then Some(n) else None
  }

  /** `[a-zA-Z_][a-zA-Z0-9_]*` */
  function IdentifierMatch(s: string): (r: Option<nat>)
    ensures r.Some? ==> 0 < r.value <= |s|
  {
    if |s| > 0 && (IsLetter(s[0]) || s[0] == '_') then Some(Run(s, Word)) else None
  }

  /** `\d+(\.\d+)?` */
  function NumberMatch(s: string): (r: Option<nat>)
    ensures r.Some? ==> 0 < r.value <= |s|
  {
    var d := Run(s, Digits);
    if d == 0 then None
    else if d + 1 < |s| && s[d] == '.' && IsDigit(s[d + 1]) then
      Some(d + 1 + Run(s[d + 1..], Digits))
    else Some(d)
  }

  /** `\".*?\"|\'.*?\'` */
  function StringMatch(s: string): (r: Option<nat>)
    ensures r.Some? ==> 0 < r.value <= |s|
  {
    if |s| > 0 && (s[0] == '"' || s[0] == '\'') then
      match QuoteEnd(s, s[0], 1)
      case Some(i) => Some(i + 1)
      case None => None
    else None
  }

  /** A non-empty run of one class, as `[...]+` matches it. */
  function RunMatch(s: string, cl: CharClass): (r: Option<nat>)
    ensures r.Some? ==> 0 < r.value <= |s|
  {
    var n := Run(s, cl);
    if n > 0 then Some(n) else None
  }

  /** A single character drawn from `cs`. */
  function CharMatch(s: string, cs: string): (r: Option<nat>)
    ensures r.Some? ==> r.value == 1 <= |s|
  {
    if |s| > 0 && s[0] in cs then Some(1) else None
  }

  /** `#.*` */
  function CommentMatch(s: string): (r: Option<nat>)
    ensures r.Some? ==> 0 < r.value <= |s|
  {
    if |s| > 0 && s[0] == '#' then Some(1 + Run(s[1..], NotNewline)) else None
  }

  /** The length of the text pattern `kind` matches at the start of `s`,
      or `None` when it does not match. */
  function Match(kind: TokenType, s: string): (r: Option<nat>)
    ensures r.Some? ==> 0 < r.value <= |s|
  {
    match kind
    case Keyword => KeywordMatch(s)
    case Identifier => IdentifierMatch(s)
    case Number => NumberMatch(s)
    case StringLit => StringMatch(s)
    case Operator => RunMatch(s, OpChars)
    case Delimiter => CharMatch(s, "()[]{},;:.")
    case Newline => CharMatch(s, "\n")
    case Whitespace => RunMatch(s, Blanks)
    case Comment => CommentMatch(s)
    case Error => None
  }

  /** A pattern matcher: the length of the text the pattern of a class
      matches at the start of a string, if it matches. No pattern matches
      the empty string, so every step of a scan advances. */
  type Matcher = m: (TokenType, string) -> Option<nat>
    | forall k, s :: m(k, s).Some? ==> 0 < m(k, s).value <= |s|
    witness (k: TokenType, s: string) => None

  /** What the scan runs with: the classes in the order their patterns are
      tried, and how each pattern matches. */
  datatype Scanner = Scanner(patterns: seq<TokenType>, matcher: Matcher)

  /** The analyzer's own scanner. */
  const Analyzer: Scanner := Scanner(Patterns, Match)

  /** The first of `pats` whose pattern matches at the start of `s`, with
      the length of its match. */
  function FirstMatch(m: Matcher, pats: seq<TokenType>, s: string): Option<(TokenType, nat)> {
    if pats == [] then None
    else match m(pats[0], s)
      case Some(n) => Some((pats[0], n))
      case None => FirstMatch(m, pats[1..], s)
  }

  /** The chosen class is one of `pats`, and its pattern matches. */
  lemma {:induction false} FirstMatchFound(m: Matcher, pats: seq<TokenType>, s: string)
    ensures var r := FirstMatch(m, pats, s);
      r.Some? ==> r.value.0 in pats && m(r.value.0, s) == Some(r.value.1)
  {
    if pats != [] && m(pats[0], s).None? {
      FirstMatchFound(m, pats[1..], s);
    }
  }

  /** The class and length of the lexeme at the start of a non-empty `s`:
      the first pattern that matches, or a one-character `Error`. */
  function Classify(sc: Scanner, s: string): (r: (TokenType, nat))
    requires |s| > 0
    ensures 0 < r.1 <= |s|
  {
    FirstMatchFound(sc.matcher, sc.patterns, s);
    match FirstMatch(sc.matcher, sc.patterns, s)
    case Some(m) => m
    case None => (Error, 1)
  }

  // ---------------------------------------------------------------------
  // Scanning

  /** The tokens of `line`, numbered `num`, from position `p` on: at each
      position the lexeme `Classify` finds is consumed, and emitted unless
      it is whitespace or a comment. */
  function TokensFrom(sc: Scanner, line: string, num: nat, p: nat): seq<Token>
    requires p <= |line|
    decreases |line| - p
  {
    if p == |line| then []
    else
      var m := Classify(sc, line[p..]);
      var rest := TokensFrom(sc, line, num, p + m.1);
      if Skipped(m.0) then rest else [Token(m.0, line[p..p + m.1], num, p)] + rest
  }

  function LineTokens(sc: Scanner, line: string, num: nat): seq<Token> {
    TokensFrom(sc, line, num, 0)
  }

  /** The tokens of successive lines, the first of them numbered `num`. */
  function TokensOfLines(sc: Scanner, lines: seq<string>, num: nat): seq<Token>
    decreases |lines|
  {
    if lines == [] then []
    else LineTokens(sc, lines[0], num) + TokensOfLines(sc, lines[1..], num + 1)
  }

  /** The tokens of a whole text, lines numbered from 1. */
  function Tokens(code: string): seq<Token> {
    TokensOfLines(Analyzer, Split(code, "\n"), 1)
  }

  /** `LexicalAnalyzer.tokenize`, as the nested loops the analyzer runs:
      over lines here, over positions in `ScanLine`, over the patterns in
      `NextLexeme`. The token list starts empty on every call, so the
      result depends on the text alone. */
  method Tokenize(code: string) returns (tokens: seq<Token>)
    ensures tokens == Tokens(code)
  {
    var lines := Split(code, "\n");
    tokens := [];
    var i := 0;
    while i < |lines|
      invariant 0 <= i <= |lines|
      invariant tokens + TokensOfLines(Analyzer, lines[i..], i + 1) == TokensOfLines(Analyzer, lines, 1)
    {
      var lineTokens := ScanLine(Analyzer, lines[i], i + 1);
      assert lines[i..][1..] == lines[i + 1..];
      tokens := tokens + lineTokens;
      i := i + 1;
    }
  }

  /** The scan of one line, numbered `num`. */
  method ScanLine(sc: Scanner, line: string, num: nat) returns (tokens: seq<Token>)
    ensures tokens == LineTokens(sc, line, num)
  {
    tokens := [];
    var position := 0;
    while position < |line|
      invariant position <= |line|
      invariant tokens + TokensFrom(sc, line, num, position) == LineTokens(sc, line, num)
      decreases |line| - position
    {
      var kind, len := NextLexeme(sc, line[position..]);
      ScanStep(sc, line, num, position, kind, len, tokens);
      if !Skipped(kind) {
        tokens := tokens + [Token(kind, line[position..position + len], num, position)];
      }
      position := position + len;
    }
  }

  /** One lexeme more: what is emitted at `p`, if anything, followed by the
      tokens after it, extends the tokens emitted before `p`. */
  lemma ScanStep(sc: Scanner, line: string, num: nat, p: nat, kind: TokenType, len: nat,
                 done: seq<Token>)
    requires p < |line| && Classify(sc, line[p..]).0 == kind && Classify(sc, line[p..]).1 == len
    ensures p + len <= |line|
    ensures (if Skipped(kind) then done else done + [Token(kind, line[p..p + len], num, p)])
      + TokensFrom(sc, line, num, p + len) == done + TokensFrom(sc, line, num, p)
  {
    var rest := TokensFrom(sc, line, num, p + len);
    if !Skipped(kind) {
      var t := Token(kind, line[p..p + len], num, p);
      assert TokensFrom(sc, line, num, p) == [t] + rest;
      assert done + ([t] + rest) == (done + [t]) + rest;
    }
  }

  /** The loop over the patterns at one position: the class of the first
      that matches and the length of its match, or a one-character
      `Error`. */
  method NextLexeme(sc: Scanner, rest: string) returns (kind: TokenType, len: nat)
    requires |rest| > 0
    ensures kind == Classify(sc, rest).0 && len == Classify(sc, rest).1
    ensures 0 < len <= |rest|
  {
    var pats := sc.patterns;
    var j := 0;
    var found: Option<(TokenType, nat)> := None;
    while j < |pats| && found.None?
      invariant 0 <= j <= |pats|
      invariant found.None? ==> FirstMatch(sc.matcher, pats[j..], rest) == FirstMatch(sc.matcher, pats, rest)
      invariant found.Some? ==> found == FirstMatch(sc.matcher, pats, rest)
    {
      assert pats[j..][1..] == pats[j + 1..];
      var m := sc.matcher(pats[j], rest);
      if m.Some? {
        found := Some((pats[j], m.value));
      }
      j := j + 1;
    }
    if found.Some? {
      kind, len := found.value.0, found.value.1;
    } else {
      kind, len := Error, 1;
    }
  }

  // ---------------------------------------------------------------------
  // analyze_code

  /** A value of the serializable token dictionaries. */
  datatype Field = Text(text: string) | Count(count: nat)

  /** The dictionary `analyze_code` builds for one token. */
  function Entry(t: Token): (r: map<string, Field>)
    ensures r.Keys == {"type", "value", "line", "position"}
  {
    map["type" := Text(TypeName(t.kind)), "value" := Text(t.value),
        "line" := Count(t.line), "position" := Count(t.position)]
  }

  /** The class a reported name stands for. */
  function KindOf(name: string): (r: Option<TokenType>)
    ensures r.Some? ==> TypeName(r.value) == name
  {
    if name == "KEYWORD" then Some(Keyword)
    else if name == "IDENTIFIER" then Some(Identifier)
    else if name == "NUMBER" then Some(Number)
    else if name == "STRING" then Some(StringLit)
    else if name == "OPERATOR" then Some(Operator)
    else if name == "DELIMITER" then Some(Delimiter)
    else if name == "NEWLINE" then Some(Newline)
    else if name == "WHITESPACE" then Some(Whitespace)
    else if name == "COMMENT" then Some(Comment)
    else if name == "ERROR" then Some(Error)
    else None
  }

  /** Reading a token back from its dictionary. */
  function ReadEntry(e: map<string, Field>): Option<Token> {
    if "type" in e && "value" in e && "line" in e && "position" in e
       && e["type"].Text? && e["value"].Text? && e["line"].Count? && e["position"].Count?
    then
      match KindOf(e["type"].text)
      case Some(k) => Some(Token(k, e["value"].text, e["line"].count, e["position"].count))
      case None => None
    else None
  }

  /** Each reported name is read back as its class. */
  lemma KindOfTypeName(t: TokenType)
    ensures KindOf(TypeName(t)) == Some(t)
  {
    match t
    case Keyword =>
    case Identifier => assert "IDENTIFIER"[0] != "KEYWORD"[0];
    case Number => assert "NUMBER"[0] != "KEYWORD"[0];
    case StringLit => assert "STRING"[0] != "KEYWORD"[0];
    case Operator => assert "OPERATOR"[0] != "KEYWORD"[0];
    case Delimiter => assert "DELIMITER"[0] != "KEYWORD"[0];
    case Newline => assert "NEWLINE"[0] != "KEYWORD"[0];
    case Whitespace => assert "WHITESPACE"[0] != "KEYWORD"[0];
    case Comment => assert "COMMENT"[0] != "KEYWORD"[0];
    case Error => assert "ERROR"[0] != "KEYWORD"[0];
  }

  /** A dictionary reads back as the token it was built from. */
  lemma EntryRoundTrip(t: Token)
    ensures ReadEntry(Entry(t)) == Some(t)
  {
    KindOfTypeName(t.kind);
  }

  /** `analyze_code`: the tokens of the text as dictionaries, in order;
      each reads back as the token at its place. */
  function AnalyzeCode(code: string): (r: seq<map<string, Field>>)
    ensures |r| == |Tokens(code)|
    ensures forall k :: 0 <= k < |r| ==> ReadEntry(r[k]) == Some(Tokens(code)[k])
  {
    var ts := Tokens(code);
    forall t | t in ts ensures ReadEntry(Entry(t)) == Some(t) {
      EntryRoundTrip(t);
    }
    seq(|ts|, k requires 0 <= k < |ts| => Entry(ts[k]))
  }
}
