/**
 * Tokens as a source, each on its line under its comments, and back.
 *
 * A token is written with a space after it, so that it is read whole. Line
 * breaks before it and before its comments bring each to its own line. Reading
 * a source written so gives the tokens again, with their lines and comments.
 */
module WebIdlText {
  import opened Basics
  import opened WebIdl
  import opened WebIdlComments
  import opened WebIdlTokens

  function Breaks(count: int): (r: string)
    ensures All(r, IsSpace)
  {
    if count <= 0 then "" else "\n" + Breaks(count - 1)
  }

  /** A token on its line, from `line`, and `rest` after a space. */
  function TokenText(token: Token, line: int, rest: string): string {
    Breaks(token.line - line) + (token.text + (" " + rest))
  }

  /** `comments`, each on its line, and then the token they are above. */
  function Commented(comments: seq<Comment>, token: Token, line: int, rest: string): string {
    if comments == [] then TokenText(token, line, rest)
    else
      Breaks(comments[0].line - line)
      + ("// " + comments[0].text + Commented(comments[1..], token, comments[0].line, rest))
  }

  function Text(ts: Tokens, line: int): string {
    if ts.End? then ""
    else Commented(ts.head.comments, ts.head, line, Text(ts.tail, ts.head.line))
  }

  /** Whether each comment is on its own line, between `from` and the line before `to`. */
  predicate InOrder(comments: seq<Comment>, from: int, to: int) {
    if comments == [] then from <= to
    else from <= comments[0].line && InOrder(comments[1..], comments[0].line + 1, to)
  }

  /** Whether no token or comment is on a line before the one it follows. */
  predicate LaidOut(ts: Tokens, line: int) {
    ts.More? ==> InOrder(ts.head.comments, line, ts.head.line) && LaidOut(ts.tail, ts.head.line)
  }

  lemma {:induction false} LinesAppend(a: string, b: string)
    ensures Lines(a + b) == Lines(a) + Lines(b)
  {
    if a == "" {
      assert a + b == b;
    } else {
      assert (a + b)[1..] == a[1..] + b;
      LinesAppend(a[1..], b);
    }
  }

  lemma {:induction false} BreaksLines(count: int)
    ensures Lines(Breaks(count)) == if count <= 0 then 0 else count
  {
    if count > 0 {
      BreaksLines(count - 1);
      assert Breaks(count)[1..] == Breaks(count - 1);
    }
  }

  lemma SpaceSkipped(space: string, s: string, line: int, comments: seq<Comment>)
    requires All(space, IsSpace) && s != "" && !IsSpace(s[0])
    ensures Tokenized(space + s, line, comments) == Tokenized(s, line + Lines(space), comments)
  {
    hide Run;
    if space == "" {
      assert space + s == s;
    } else {
      hide Lines;
      SpaceIsSpace();
      assert (space + s)[..|space|] == space && (space + s)[|space|..] == s;
      RunIs(space + s, IsSpace, |space|);
    }
  }

  lemma SpaceIsSpace()
    ensures IsSpace(' ') && !IsSpace('/')
  {
  }

  /** Line breaks before `s` only move it down. */
  lemma Down(space: string, count: int, s: string, line: int, comments: seq<Comment>)
    requires space == "" || space == " "
    requires count >= 0 && s != "" && !IsSpace(s[0])
    ensures Tokenized(space + (Breaks(count) + s), line, comments) == Tokenized(s, line + count, comments)
  {
    hide Tokenized, IsSpace;
    assert IsSpace(' ') by {
      SpaceIsSpace();
    }
    var all := space + Breaks(count);
    assert space + (Breaks(count) + s) == all + s;
    LinesAppend(space, Breaks(count));
    BreaksLines(count);
    SpaceSkipped(all, s, line, comments);
  }

  /** A comment is read up to the end of its line. */
  lemma CommentIsLexeme(text: string, rest: string)
    requires IsLine(text) && "\n" <= rest
    ensures Lexeme("// " + text + rest) == |"// " + text|
    ensures Stripped("// " + text) == text
  {
    hide Run, Fraction, IsSpace;
    SpaceIsSpace();
    var comment := "// " + text;
    assert (comment + rest)[..|comment|] == comment;
    RunIs(comment + rest, InLine, |comment|);
    assert comment[2..][1..] == text;
  }

  lemma CommentRead(text: string, rest: string, line: int, comments: seq<Comment>)
    requires IsLine(text) && "\n" <= rest
    ensures Tokenized("// " + text + rest, line, comments) == Tokenized(rest, line, comments + [Comment(line, text)])
  {
    hide Lexeme, Stripped, Lines, IsSpace;
    var comment := "// " + text;
    var s := comment + rest;
    assert s[..|comment|] == comment && s[|comment|..] == rest;
    CommentIsLexeme(text, rest);
    NoLines(comment);
  }

  lemma NumberIsLine(text: string)
    requires Fraction(text) == |text|
    ensures IsLine(text)
  {
    var whole := Run(text, IsDigit);
    if whole < |text| {
      assert text == text[..whole] + "." + text[whole + 1..];
    }
  }

  lemma TokenIsLine(text: string)
    requires IsTokenText(text)
    ensures Lines(text) == 0
  {
    hide Lines, Fraction;
    if IsNumber(text) && "-" <= text {
      NumberIsLine(text[1..]);
    } else if IsNumber(text) {
      NumberIsLine(text);
    }
    NoLines(text);
  }

  /** What tokenizing gives after a token. */
  ghost function Then(token: Token, r: Result<Tokens, int>): Result<Tokens, int> {
    if r.Success? then Success(More(token, r.value)) else r
  }

  lemma TokenRead(text: string, rest: string, line: int, comments: seq<Comment>)
    requires IsTokenText(text)
    ensures Tokenized(text + (" " + rest), line, comments)
         == Then(Token(comments, line, text), Tokenized(" " + rest, line, []))
  {
    hide IsTokenText, Lexeme;
    TokenIsLexeme(text, " " + rest);
    TokenIsLine(text);
    var s := text + (" " + rest);
    assert s[..|text|] == text && s[|text|..] == " " + rest;
  }

  /** What is on a later line starts with a line break. */
  lemma StartsBelow(comments: seq<Comment>, token: Token, line: int, rest: string)
    requires InOrder(comments, line + 1, token.line)
    ensures "\n" <= Commented(comments, token, line, rest)
  {
  }

  lemma {:induction false} CommentsRead(
    comments: seq<Comment>, token: Token, from: int, line: int, rest: string, space: string, above: seq<Comment>)
    requires AreLines(comments) && IsTokenText(token.text) && InOrder(comments, from, token.line)
    requires (space == "" || space == " ") && (from == line || from == line + 1)
    ensures Tokenized(space + Commented(comments, token, line, rest), line, above)
         == Then(token.(comments := above + comments), Tokenized(" " + rest, token.line, []))
  {
    hide Tokenized, IsTokenText, IsSpace, Lexeme, Breaks;
    if comments == [] {
      var s := token.text + (" " + rest);
      TokenIsLexeme(token.text, " ");
      Down(space, token.line - line, s, line, above);
      TokenRead(token.text, rest, token.line, above);
      assert above + comments == above;
    } else {
      var first, others := comments[0], comments[1..];
      var after := Commented(others, token, first.line, rest);
      var more := above + [Comment(first.line, first.text)];
      CommentsRead(others, token, first.line + 1, first.line, rest, "", more);
      assert "" + after == after;
      StartsBelow(others, token, first.line, rest);
      CommentRead(first.text, after, first.line, above);
      SpaceIsSpace();
      Down(space, first.line - line, "// " + first.text + after, line, above);
      assert more + others == above + comments;
    }
  }

  /** Tokenizing undoes writing. */
  lemma {:induction false} TextRead(ts: Tokens, line: int, space: string)
    requires AreTokens(ts) && LaidOut(ts, line) && (space == "" || space == " ")
    ensures Tokenized(space + Text(ts, line), line, []) == Success(ts)
  {
    hide IsTokenText, IsSpace;
    if ts.More? {
      var rest := Text(ts.tail, ts.head.line);
      TextRead(ts.tail, ts.head.line, " ");
      CommentsRead(ts.head.comments, ts.head, line, line, rest, space, []);
      assert [] + ts.head.comments == ts.head.comments;
    } else {
      SpaceIsSpace();
      assert space + "" == space;
    }
  }
}
