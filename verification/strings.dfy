/** The handful of Python `str` operations the translators lean on, written
    out over `seq<char>`: substring search, `str.split(sep)`, `str.join`,
    `str.strip`, `str(int)`, `startswith`/`endswith` and ASCII case mapping.
    Each carries the contract that makes it the Python operation rather
    than merely some string function. */
module Strings {
  import opened Results

  // ---------------------------------------------------------------------
  // Substring search

  /** `sub` occurs in `s` starting at index `i`. */
  predicate OccursAt(s: string, sub: string, i: nat) {
    i + |sub| <= |s| && s[i..i + |sub|] == sub
  }

  /** First index at or after `from` where `sub` occurs (Python `str.find`). */
  function FindFrom(s: string, sub: string, from: nat): (r: Option<nat>)
    requires from <= |s|
    ensures r.Some? ==> from <= r.value && OccursAt(s, sub, r.value)
    ensures r.Some? ==> forall k :: from <= k < r.value ==> !OccursAt(s, sub, k)
    ensures r.None? ==> forall k :: from <= k ==> !OccursAt(s, sub, k)
    decreases |s| - from
  {
    if OccursAt(s, sub, from) then Some(from)
    else if from == |s| then None
    else FindFrom(s, sub, from + 1)
  }

  function Find(s: string, sub: string): (r: Option<nat>)
    ensures r.Some? ==> OccursAt(s, sub, r.value)
    ensures r.Some? ==> forall k :: 0 <= k < r.value ==> !OccursAt(s, sub, k)
    ensures r.None? ==> forall k :: 0 <= k ==> !OccursAt(s, sub, k)
  {
    FindFrom(s, sub, 0)
  }

  /** Python's `sub in s`. */
  predicate Contains(s: string, sub: string) {
    Find(s, sub).Some?
  }

  lemma ContainsIff(s: string, sub: string)
    ensures Contains(s, sub) <==> exists i: nat :: OccursAt(s, sub, i)
  {
    if !Contains(s, sub) {
      forall i: nat ensures !OccursAt(s, sub, i) {
      }
    }
  }

  lemma SliceOfSlice<T>(s: seq<T>, lo: nat, hi: nat, a: nat, b: nat)
    requires lo <= hi <= |s| && a <= b <= hi - lo
    ensures s[lo..hi][a..b] == s[lo + a..lo + b]
  {
    var t := s[lo..hi][a..b];
    var u := s[lo + a..lo + b];
    assert |t| == |u|;
    forall j | 0 <= j < |t| ensures t[j] == u[j] {
      assert t[j] == s[lo..hi][a + j] == s[lo + a + j];
    }
  }

  /** An occurrence inside `s[lo..hi]` is an occurrence inside `s`. */
  lemma OccursInSlice(s: string, sub: string, lo: nat, hi: nat, k: nat)
    requires lo <= hi <= |s|
    ensures OccursAt(s[lo..hi], sub, k) ==> OccursAt(s, sub, lo + k)
  {
    if OccursAt(s[lo..hi], sub, k) {
      SliceOfSlice(s, lo, hi, k, k + |sub|);
    }
  }

  /** An occurrence that lies inside `s[lo..hi]` is seen by the slice. */
  lemma OccursFromSlice(s: string, sub: string, lo: nat, hi: nat, k: nat)
    requires lo <= k && k + |sub| <= hi <= |s|
    requires OccursAt(s, sub, k)
    ensures OccursAt(s[lo..hi], sub, k - lo)
  {
    SliceOfSlice(s, lo, hi, k - lo, k - lo + |sub|);
  }

  lemma ContainsSlice(s: string, sub: string, lo: nat, hi: nat)
    requires lo <= hi <= |s|
    requires Contains(s[lo..hi], sub)
    ensures Contains(s, sub)
  {
    var k := Find(s[lo..hi], sub).value;
    OccursInSlice(s, sub, lo, hi, k);
    ContainsIff(s, sub);
  }

  lemma OccursSingle(s: string, c: char, i: nat)
    ensures OccursAt(s, [c], i) <==> i < |s| && s[i] == c
  {
    if i < |s| {
      assert s[i..i + 1] == [s[i]];
    }
  }

  /** Searching for a one-character string is membership of that character. */
  lemma ContainsChar(s: string, c: char)
    ensures Contains(s, [c]) <==> c in s
  {
    ContainsIff(s, [c]);
    forall i: nat {
      OccursSingle(s, c, i);
    }
    if c in s {
      var i :| 0 <= i < |s| && s[i] == c;
      assert OccursAt(s, [c], i);
    }
  }

  predicate StartsWith(s: string, prefix: string) {
    prefix <= s
  }

  predicate EndsWith(s: string, suffix: string) {
    |suffix| <= |s| && s[|s| - |suffix|..] == suffix
  }

  // ---------------------------------------------------------------------
  // join / split

  /** Python's `sep.join(parts)`. */
  function Join(sep: string, parts: seq<string>): (r: string)
    ensures |parts| == 0 ==> r == ""
    ensures |parts| == 1 ==> r == parts[0]
  {
    if |parts| == 0 then ""
    else if |parts| == 1 then parts[0]
    else parts[0] + sep + Join(sep, parts[1..])
  }

  /** Joining one more part at the front. */
  lemma JoinCons(sep: string, p: string, parts: seq<string>)
    requires |parts| > 0
    ensures Join(sep, [p] + parts) == p + sep + Join(sep, parts)
  {
    assert ([p] + parts)[1..] == parts;
  }

  /** Joining one more part at the back. */
  lemma {:induction false} JoinSnoc(sep: string, parts: seq<string>, p: string)
    requires |parts| > 0
    ensures Join(sep, parts + [p]) == Join(sep, parts) + sep + p
    decreases |parts|
  {
    if |parts| == 1 {
      assert parts + [p] == [parts[0]] + [p];
      JoinCons(sep, parts[0], [p]);
    } else {
      assert parts + [p] == [parts[0]] + (parts[1..] + [p]);
      JoinCons(sep, parts[0], parts[1..] + [p]);
      JoinSnoc(sep, parts[1..], p);
      JoinCons(sep, parts[0], parts[1..]);
      assert [parts[0]] + parts[1..] == parts;
    }
  }

  /** Python's `s.split(sep)` for a non-empty separator: the pieces between
      successive non-overlapping occurrences of `sep`, scanning left to right. */
  function Split(s: string, sep: string): (parts: seq<string>)
    requires |sep| > 0
    ensures |parts| >= 1
    ensures Join(sep, parts) == s
    ensures forall k :: 0 <= k < |parts| ==> !Contains(parts[k], sep)
    decreases |s|
  {
    match Find(s, sep)
    case None =>
      assert !Contains(s, sep);
      [s]
    case Some(i) =>
      var rest := Split(s[i + |sep|..], sep);
      assert !Contains(s[..i], sep) by {
        assert s[0..i] == s[..i];
        forall k: nat ensures !OccursAt(s[..i], sep, k) {
          OccursInSlice(s, sep, 0, i, k);
        }
      }
      JoinCons(sep, s[..i], rest);
      assert s == s[..i] + sep + s[i + |sep|..];
      assert ([s[..i]] + rest)[1..] == rest;
      [s[..i]] + rest
  }

  /** The first piece of a split is the text before the first separator. */
  lemma SplitHead(s: string, sep: string)
    requires |sep| > 0
    ensures Find(s, sep).None? ==> Split(s, sep) == [s]
    ensures Find(s, sep).Some? ==> Split(s, sep)[0] == s[..Find(s, sep).value]
    ensures |Split(s, sep)| >= 2 <==> Contains(s, sep)
  {
  }

  /** Every piece of a split is a piece of the input; every piece after the
      first is at least a separator shorter than it. */
  lemma {:induction false} SplitPieceLength(s: string, sep: string, k: nat)
    requires |sep| > 0
    requires k < |Split(s, sep)|
    ensures |Split(s, sep)[k]| <= |s|
    ensures k >= 1 ==> |Split(s, sep)[k]| + |sep| <= |s|
    decreases |s|
  {
    match Find(s, sep)
    case None =>
    case Some(i) =>
      if k >= 1 {
        SplitPieceLength(s[i + |sep|..], sep, k - 1);
      }
  }

  // ---------------------------------------------------------------------
  // strip

  /** The characters for which Python's `str.isspace()` holds, which are
      the ones `str.strip()` removes: the ASCII tab, line feed, vertical
      tab, form feed, carriage return, the four information separators and
      space, then the Unicode spaces and the line and paragraph
      separators. */
  predicate IsSpace(c: char) {
    c == ' ' || '\t' <= c <= '\r' || '\U{1C}' <= c <= '\U{1F}'
    || (c >= '\U{85}'
        && (c == '\U{85}' || c == '\U{A0}' || c == '\U{1680}' || '\U{2000}' <= c <= '\U{200A}'
            || c == '\U{2028}' || c == '\U{2029}' || c == '\U{202F}' || c == '\U{205F}'
            || c == '\U{3000}'))
  }

  /** `IsSpace` as a set, for `StripChars`; every such character is at most
      U+3000. */
  const Whitespace: set<char> := set c: char | c <= '\U{3000}' && IsSpace(c)

  /** `s` with its leading characters in `cs` removed (`str.lstrip`). */
  function StripLeft(s: string, cs: set<char>): (r: string)
    ensures |r| <= |s|
    ensures r != [] ==> r[0] !in cs
  {
    if s != [] && s[0] in cs then StripLeft(s[1..], cs) else s
  }

  /** `s` with its trailing characters in `cs` removed (`str.rstrip`). */
  function StripRight(s: string, cs: set<char>): (r: string)
    ensures r <= s
    ensures r != [] ==> r[|r| - 1] !in cs
  {
    if s != [] && s[|s| - 1] in cs then StripRight(s[..|s| - 1], cs) else s
  }

  /** What `StripLeft` removes is a run of characters in `cs` at the front. */
  lemma {:induction false} StripLeftRemovesOnly(s: string, cs: set<char>)
    ensures StripLeft(s, cs) == s[|s| - |StripLeft(s, cs)|..]
    ensures forall k :: 0 <= k < |s| - |StripLeft(s, cs)| ==> s[k] in cs
  {
    if s != [] && s[0] in cs {
      StripLeftRemovesOnly(s[1..], cs);
      assert forall k :: 1 <= k < |s| ==> s[k] == s[1..][k - 1];
      assert s[1..][|s| - 1 - |StripLeft(s, cs)|..] == s[|s| - |StripLeft(s, cs)|..];
    }
  }

  /** What `StripRight` removes is a run of characters in `cs` at the back. */
  lemma {:induction false} StripRightRemovesOnly(s: string, cs: set<char>)
    ensures forall k :: |StripRight(s, cs)| <= k < |s| ==> s[k] in cs
  {
    if s != [] && s[|s| - 1] in cs {
      StripRightRemovesOnly(s[..|s| - 1], cs);
    }
  }

  /** Python's `s.strip(chars)`: the longest middle piece of `s` that neither
      starts nor ends with a character of `cs` (`StripCharsRemovesOnly`
      says that what it cuts away is all in `cs`). */
  function StripChars(s: string, cs: set<char>): (r: string)
    ensures |r| <= |s|
    ensures r != [] ==> r[0] !in cs && r[|r| - 1] !in cs
  {
    StripRight(StripLeft(s, cs), cs)
  }

  /** `s` is what `StripChars` keeps with characters of `cs` on either
      side. */
  lemma StripCharsRemovesOnly(s: string, cs: set<char>)
    ensures var r := StripChars(s, cs); var i := |s| - |StripLeft(s, cs)|;
      && i + |r| <= |s| && r == s[i..i + |r|]
      && (forall k :: 0 <= k < i ==> s[k] in cs)
      && (forall k :: i + |r| <= k < |s| ==> s[k] in cs)
  {
    var t := StripLeft(s, cs);
    var i := |s| - |t|;
    StripLeftRemovesOnly(s, cs);
    StripRightRemovesOnly(t, cs);
    var r := StripRight(t, cs);
    assert t == s[i..];
    assert r == t[..|r|];
    assert s[i..][..|r|] == s[i..i + |r|];
    forall k | i + |r| <= k < |s|
      ensures s[k] in cs
    {
      assert s[k] == t[k - i];
    }
  }

  /** Stripping twice strips nothing more. */
  lemma StripIdempotent(s: string, cs: set<char>)
    ensures StripChars(StripChars(s, cs), cs) == StripChars(s, cs)
  {
  }

  /** Python's `s.strip()`. */
  function Strip(s: string): (r: string)
    ensures |r| <= |s|
    ensures |r| > 0 ==> r[0] !in Whitespace && r[|r| - 1] !in Whitespace
  {
    StripChars(s, Whitespace)
  }

  /** `s.strip()` is empty exactly when `s` is all whitespace. */
  lemma StripEmpty(s: string)
    ensures Strip(s) == [] <==> forall k :: 0 <= k < |s| ==> s[k] in Whitespace
  {
    StripCharsRemovesOnly(s, Whitespace);
    var r := Strip(s);
    if r != [] {
      assert s[|s| - |StripLeft(s, Whitespace)|] == r[0];
    }
  }

  /** Empty or nothing but whitespace: `not s.strip()` in Python. */
  predicate Blank(s: string)
    decreases |s|
  {
    s == [] || (s[0] in Whitespace && Blank(s[1..]))
  }

  lemma {:induction false} BlankAllWhitespace(s: string)
    ensures Blank(s) <==> forall k :: 0 <= k < |s| ==> s[k] in Whitespace
    decreases |s|
  {
    if s != [] {
      BlankAllWhitespace(s[1..]);
      assert forall k :: 1 <= k < |s| ==> s[k] == s[1..][k - 1];
    }
  }

  /** `Blank` is exactly "strips to nothing". */
  lemma BlankIffStripEmpty(s: string)
    ensures Blank(s) <==> Strip(s) == []
  {
    BlankAllWhitespace(s);
    StripEmpty(s);
  }

  // ---------------------------------------------------------------------
  // Fixed-width runs of spaces (Python's `"    " * n` and `"  " * n`)

  function Spaces(n: nat): (r: string)
    ensures |r| == n
    ensures forall k :: 0 <= k < n ==> r[k] == ' '
  {
    seq(n, _ => ' ')
  }

  // ---------------------------------------------------------------------
  // Decimal text of integers (Python's `str(int)`)

  predicate IsDigit(c: char) {
    '0' <= c <= '9'
  }

  function DigitChar(d: nat): (c: char)
    requires d < 10
    ensures IsDigit(c) && c as int - '0' as int == d
  {
    ('0' as int + d) as char
  }

  function DigitValue(c: char): (d: nat)
    requires IsDigit(c)
    ensures d < 10
  {
    c as int - '0' as int
  }

  predicate AllDigits(s: string) {
    forall k :: 0 <= k < |s| ==> IsDigit(s[k])
  }

  /** Decimal digits of `n`, most significant first, without leading zeros. */
  function NatToString(n: nat): (r: string)
    ensures |r| >= 1
    ensures AllDigits(r)
    ensures r[0] == '0' ==> n == 0 && r == "0"
    decreases n
  {
    if n < 10 then [DigitChar(n)] else NatToString(n / 10) + [DigitChar(n % 10)]
  }

  /** Python's `str(i)` for an integer. */
  function IntToString(i: int): (r: string)
    ensures |r| >= 1
    ensures i < 0 <==> r[0] == '-'
    ensures forall k :: (if i < 0 then 1 else 0) <= k < |r| ==> IsDigit(r[k])
  {
    if i < 0 then "-" + NatToString(-i) else NatToString(i)
  }

  /** Value of a string of decimal digits. */
  function ParseNat(s: string): nat
    requires AllDigits(s)
  {
    if s == [] then 0 else ParseNat(s[..|s| - 1]) * 10 + DigitValue(s[|s| - 1])
  }

  /** Value of the text `str(i)` produces. */
  function ParseInt(s: string): Option<int> {
    if |s| > 1 && s[0] == '-' && AllDigits(s[1..]) then
      Some(-(ParseNat(s[1..]) as int))
    else if |s| > 0 && AllDigits(s) then
      Some(ParseNat(s))
    else None
  }

  lemma {:induction false} ParseNatToString(n: nat)
    ensures ParseNat(NatToString(n)) == n
    decreases n
  {
    if n >= 10 {
      var r := NatToString(n);
      assert r[..|r| - 1] == NatToString(n / 10);
      ParseNatToString(n / 10);
    }
  }

  /** `str(i)` can be read back: decimal rendering loses nothing. */
  lemma IntToStringRoundTrip(i: int)
    ensures ParseInt(IntToString(i)) == Some(i)
  {
    if i < 0 {
      NegativeRoundTrip(i);
    } else {
      ParseNatToString(i);
      assert IntToString(i)[0] != '-';
    }
  }

  lemma NegativeRoundTrip(i: int)
    requires i < 0
    ensures ParseInt(IntToString(i)) == Some(i)
  {
    assert IntToString(i)[1..] == NatToString(-i);
    ParseNatToString(-i);
  }

  // ---------------------------------------------------------------------
  // ASCII case mapping (Python's `str.upper`/`str.lower` restricted to ASCII)

  function UpperChar(c: char): (u: char)
    ensures 'a' <= c <= 'z' ==> 'A' <= u <= 'Z' && u as int == c as int - 32
    ensures !('a' <= c <= 'z') ==> u == c
  {
    if 'a' <= c <= 'z' then (c as int - 32) as char else c
  }

  function LowerChar(c: char): (l: char)
    ensures 'A' <= c <= 'Z' ==> 'a' <= l <= 'z' && l as int == c as int + 32
    ensures !('A' <= c <= 'Z') ==> l == c
  {
    if 'A' <= c <= 'Z' then (c as int + 32) as char else c
  }

  function Lower(s: string): (r: string)
    ensures |r| == |s|
    ensures forall k :: 0 <= k < |s| ==> r[k] == LowerChar(s[k])
  {
    seq(|s|, k requires 0 <= k < |s| => LowerChar(s[k]))
  }

  /** Case mapping touches only letters: both maps agree after lowering. */
  lemma LowerOfCase(c: char)
    ensures LowerChar(UpperChar(c)) == LowerChar(c)
    ensures LowerChar(LowerChar(c)) == LowerChar(c)
  {
  }
}
