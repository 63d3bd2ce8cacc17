/** The tokenizer's loop over a source, and what it finds: whole words, on their lines, under their comments. */
module WebIdlTokens {
  import opened Basics
  import opened WebIdl
  import opened WebIdlComments

  const PUNCTUATION := "{}()[]<>;,=?:"

  predicate IsDigit(c: char) {
    '0' <= c <= '9'
  }

  predicate IsWordStart(c: char) {
    'A' <= c <= 'Z' || 'a' <= c <= 'z' || c == '_'
  }

  predicate IsWordChar(c: char) {
    IsWordStart(c) || IsDigit(c)
  }

  predicate IsInside(c: char) {
    c != '"' && c != '\n'
  }

  predicate InLine(c: char) {
    c != '\n'
  }

  predicate All(s: string, p: char -> bool) {
    forall i :: 0 <= i < |s| ==> p(s[i])
  }

  /** How many characters at the front of `s` satisfy `p`. */
  function Run(s: string, p: char -> bool): (n: nat)
    ensures n <= |s| && All(s[..n], p) && (n == |s| || !p(s[n]))
  {
    if s == "" || !p(s[0]) then 0 else Run(s[1..], p) + 1
  }

  /** The length of the digits at the front of `s`, with a point and digits after them; 0 for no digit first. */
  function Fraction(s: string): (n: nat)
    ensures n <= |s|
  {
    var whole := Run(s, IsDigit);
    if 0 < whole < |s| && s[whole] == '.' then
      var part := Run(s[whole + 1..], IsDigit);
      if part == 0 then whole else whole + 1 + part
    else whole
  }

  /** The length of the token, comment or space at the front of `s`; 0 for none. */
  function Lexeme(s: string): (n: nat)
    requires s != ""
    ensures n <= |s|
  {
    if IsSpace(s[0]) then Run(s, IsSpace)
    else if "//" <= s then Run(s, InLine)
    else if s[0] == '"' then
      var inside := Run(s[1..], IsInside);
      if 1 + inside < |s| && s[1 + inside] == '"' then inside + 2 else 0
    else if s[0] == '-' then
      var digits := Fraction(s[1..]);
      if digits == 0 then 0 else digits + 1
    else if IsDigit(s[0]) then Fraction(s)
    else if IsWordStart(s[0]) then Run(s, IsWordChar)
    else if s[0] in PUNCTUATION then 1
    else 0
  }

  function Lines(s: string): nat {
    if s == "" then 0 else (if s[0] == '\n' then 1 else 0) + Lines(s[1..])
  }

  /** A comment without its slashes and the space after them. */
  function Stripped(comment: string): string {
    var text := if "//" <= comment then comment[2..] else comment;
    if " " <= text then text[1..] else text
  }

  /** `source` names the line of the first character that starts nothing, when it fails. */
  function Tokenized(source: string, line: int, comments: seq<Comment>): Result<Tokens, int> {
    if source == "" then Success(End)
    else
      var length := Lexeme(source);
      if length == 0 then Failure(line)
      else
        var text, rest := source[..length], source[length..];
        var next := line + Lines(text);
        if "//" <= text then Tokenized(rest, next, comments + [Comment(line, Stripped(text))])
        else if IsSpace(text[0]) then Tokenized(rest, next, comments)
        else
          var others :- Tokenized(rest, next, []);
          Success(More(Token(comments, line, text), others))
  }

  // What a token can be.

  /** A whole word. */
  predicate IsWord(text: string) {
    text != "" && IsWordStart(text[0]) && All(text, IsWordChar)
  }

  predicate IsQuotable(value: string) {
    All(value, IsInside)
  }

  function Quoted(value: string): string {
    "\"" + value + "\""
  }

  predicate IsQuoted(text: string) {
    |text| >= 2 && IsQuotable(Unquoted(text)) && text == Quoted(Unquoted(text))
  }

  predicate IsNumber(text: string) {
    if "-" <= text then |text| > 1 && Fraction(text[1..]) == |text| - 1
    else text != "" && IsDigit(text[0]) && Fraction(text) == |text|
  }

  predicate IsPunctuation(text: string) {
    |text| == 1 && text[0] in PUNCTUATION
  }

  predicate IsTokenText(text: string) {
    IsWord(text) || IsQuoted(text) || IsNumber(text) || IsPunctuation(text)
  }

  predicate AreLines(comments: seq<Comment>) {
    forall i :: 0 <= i < |comments| ==> IsLine(comments[i].text)
  }

  predicate AreTokens(ts: Tokens) {
    ts.More? ==> IsTokenText(ts.head.text) && AreLines(ts.head.comments) && AreTokens(ts.tail)
  }

  lemma {:induction false} RunIs(s: string, p: char -> bool, n: nat)
    requires n <= |s| && All(s[..n], p) && (n == |s| || !p(s[n]))
    ensures Run(s, p) == n
  {
    if n > 0 {
      assert s[..n][0] == s[0];
      assert s[1..][..n - 1] == s[..n][1..];
      RunIs(s[1..], p, n - 1);
    }
  }

  predicate IsDigits(s: string) {
    s != "" && All(s, IsDigit)
  }

  /** Digits, and perhaps a point with digits after it. */
  predicate IsDecimal(s: string) {
    exists k | 0 <= k <= |s| :: IsDigits(s[..k]) && (k == |s| || (s[k] == '.' && IsDigits(s[k + 1..])))
  }

  lemma DecimalIsRead(s: string)
    ensures s != "" && Fraction(s) == |s| <==> IsDecimal(s)
  {
    if s != "" && Fraction(s) == |s| {
      var whole := Run(s, IsDigit);
      assert whole < |s| ==> s[whole + 1..][..|s| - whole - 1] == s[whole + 1..];
      assert IsDigits(s[..whole]);
    }
    if IsDecimal(s) {
      var k :| 0 <= k <= |s| && IsDigits(s[..k]) && (k == |s| || (s[k] == '.' && IsDigits(s[k + 1..])));
      RunIs(s, IsDigit, k);
      if k < |s| {
        RunIs(s[k + 1..], IsDigit, |s| - k - 1);
      }
    }
  }

  /** A token is a number if and only if it is a decimal, with or without a minus sign. */
  lemma NumbersAreDecimals(text: string)
    ensures IsNumber(text) <==> IsDecimal(if "-" <= text then text[1..] else text)
  {
    DecimalIsRead(if "-" <= text then text[1..] else text);
  }

  /** A number is read whole, whatever space is after it. */
  lemma FractionAhead(text: string, rest: string)
    requires Fraction(text) == |text| && " " <= rest
    ensures Fraction(text + rest) == |text|
  {
    hide Run;
    var whole := Run(text, IsDigit);
    RunIs(text + rest, IsDigit, whole);
    if whole < |text| {
      assert (text + rest)[whole + 1..] == text[whole + 1..] + rest;
      RunIs(text[whole + 1..] + rest, IsDigit, |text| - whole - 1);
    }
  }

  lemma FractionPrefix(s: string)
    ensures var n := Fraction(s); Fraction(s[..n]) == n
  {
    var n, whole := Fraction(s), Run(s, IsDigit);
    var text := s[..n];
    RunIs(text, IsDigit, whole);
    if whole < n {
      assert text[whole + 1..] == s[whole + 1..][..n - whole - 1];
      RunIs(text[whole + 1..], IsDigit, n - whole - 1);
    }
  }

  lemma CommentKept(s: string)
    requires s != "" && Lexeme(s) > 0
    ensures "//" <= s ==> "//" <= s[..Lexeme(s)]
  {
  }

  /** What is read as a token is one. */
  lemma LexemeIsToken(s: string)
    requires s != "" && Lexeme(s) > 0 && !IsSpace(s[0]) && !("//" <= s[..Lexeme(s)])
    ensures IsTokenText(s[..Lexeme(s)])
  {
    CommentKept(s);
    var n := Lexeme(s);
    var text := s[..n];
    if s[0] == '"' {
      assert Unquoted(text) == s[1..][..n - 2];
    } else if s[0] == '-' {
      FractionPrefix(s[1..]);
      assert text[1..] == s[1..][..n - 1];
    } else if IsDigit(s[0]) {
      FractionPrefix(s);
    }
  }

  lemma QuotedIsLexeme(text: string, rest: string)
    requires IsQuoted(text)
    ensures Lexeme(text + rest) == |text|
  {
    hide Run;
    var s := text + rest;
    assert s[1..] == Unquoted(text) + ("\"" + rest);
    RunIs(s[1..], IsInside, |text| - 2);
  }

  lemma WordIsLexeme(text: string, rest: string)
    requires IsWord(text) && " " <= rest
    ensures Lexeme(text + rest) == |text|
  {
    hide Run, Fraction;
    assert (text + rest)[..|text|] == text;
    RunIs(text + rest, IsWordChar, |text|);
  }

  lemma NumberIsLexeme(text: string, rest: string)
    requires IsNumber(text) && " " <= rest
    ensures Lexeme(text + rest) == |text|
  {
    hide Run, Fraction;
    if "-" <= text {
      assert (text + rest)[1..] == text[1..] + rest;
      FractionAhead(text[1..], rest);
    } else {
      FractionAhead(text, rest);
    }
  }

  /** A token before a space is read as it is. */
  lemma TokenIsLexeme(text: string, rest: string)
    requires IsTokenText(text) && " " <= rest
    ensures text != "" && !IsSpace(text[0]) && !("//" <= text)
    ensures Lexeme(text + rest) == |text|
  {
    hide Run, Fraction;
    if IsQuoted(text) {
      QuotedIsLexeme(text, rest);
    } else if IsWord(text) {
      WordIsLexeme(text, rest);
    } else if IsNumber(text) {
      NumberIsLexeme(text, rest);
    }
  }

  lemma {:induction false} NoLines(s: string)
    requires IsLine(s)
    ensures Lines(s) == 0
  {
    if s != "" {
      NoLines(s[1..]);
    }
  }

  lemma CommentIsLine(s: string)
    requires s != "" && "//" <= s[..Lexeme(s)]
    ensures IsLine(Stripped(s[..Lexeme(s)]))
  {
    assert s[0] == s[..Lexeme(s)][0] == '/' && s[1] == s[..Lexeme(s)][1];
  }

  /** Tokenizing gives tokens. */
  lemma {:induction false} TokenizedAreTokens(source: string, line: int, comments: seq<Comment>)
    requires AreLines(comments)
    ensures var r := Tokenized(source, line, comments); r.Success? ==> AreTokens(r.value)
    decreases |source|
  {
    hide Lexeme, Lines, IsTokenText;
    if source != "" && Lexeme(source) > 0 {
      var n := Lexeme(source);
      var text, rest := source[..n], source[n..];
      var next := line + Lines(text);
      if "//" <= text {
        CommentIsLine(source);
        TokenizedAreTokens(rest, next, comments + [Comment(line, Stripped(text))]);
      } else if IsSpace(text[0]) {
        TokenizedAreTokens(rest, next, comments);
      } else {
        LexemeIsToken(source);
        TokenizedAreTokens(rest, next, []);
      }
    }
  }

  // The loop.

  /** `tokens`, then `tail`. */
  function Listed(tokens: seq<Token>, tail: Tokens): Tokens {
    if tokens == [] then tail else Listed(tokens[..|tokens| - 1], More(tokens[|tokens| - 1], tail))
  }

  ghost function After(tokens: seq<Token>, r: Result<Tokens, int>): Result<Tokens, int> {
    if r.Success? then Success(Listed(tokens, r.value)) else r
  }

  lemma NoToken(r: Result<Tokens, int>)
    ensures After([], r) == r
  {
  }

  lemma OneMoreToken(tokens: seq<Token>, token: Token, r: Result<Tokens, int>)
    requires r.Success?
    ensures After(tokens, Success(More(token, r.value))) == After(tokens + [token], r)
  {
    assert (tokens + [token])[..|tokens|] == tokens;
  }

  method Tokenize(source: string) returns (r: Result<seq<Token>, int>)
    ensures match Tokenized(source, 1, [])
            case Success(ts) => r.Success? && Listed(r.value, End) == ts
            case Failure(line) => r == Failure(line)
  {
    hide Lexeme, Lines, Stripped, IsSpace, Listed;
    var tokens, comments, line, index := [], [], 1, 0;
    assert source[0..] == source;
    NoToken(Tokenized(source, 1, []));
    while index < |source|
      invariant index <= |source|
      invariant Tokenized(source, 1, []) == After(tokens, Tokenized(source[index..], line, comments))
    {
      ghost var left, above, from := source[index..], comments, line;
      var length := Lexeme(source[index..]);
      if length == 0 {
        return Failure(line);
      }
      var text := source[index..index + length];
      index := index + length;
      assert text == left[..length] && source[index..] == left[length..];
      if "//" <= text {
        comments := comments + [Comment(line, Stripped(text))];
      } else if !IsSpace(text[0]) {
        tokens := tokens + [Token(comments, line, text)];
        comments := [];
      }
      line := line + Lines(text);
      ghost var others := Tokenized(source[index..], line, comments);
      if others.Success? && !("//" <= text) && !IsSpace(text[0]) {
        OneMoreToken(tokens[..|tokens| - 1], Token(above, from, text), others);
      }
    }
    r := Success(tokens);
  }
}
