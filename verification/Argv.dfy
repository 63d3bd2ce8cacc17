/**
 * Joining an argv into a line and splitting a line into an argv: the quoting
 * rules, the loop over characters, and that each undoes the other.
 */
module Argv {
  import opened Basics

  const UNCLOSED := "A quote is not closed"

  const NO_PROGRAM := "A command needs a program"

  /** Whether an argument with `c` in it is written between quotes. */
  predicate IsSpecial(c: char) {
    IsSpace(c) || c == '"' || c == '\'' || c == '\\'
  }

  /** `arg` with a backslash before each `"` and backslash. */
  function Escaped(arg: string): string {
    if arg == "" then ""
    else (if arg[0] == '"' || arg[0] == '\\' then ['\\', arg[0]] else [arg[0]]) + Escaped(arg[1..])
  }

  predicate NeedsQuotes(arg: string) {
    arg == "" || exists i :: 0 <= i < |arg| && IsSpecial(arg[i])
  }

  function Word(arg: string): string {
    if NeedsQuotes(arg) then "\"" + Escaped(arg) + "\"" else arg
  }

  /** Each `Word` of `argv`, with a space between neighbours. */
  function JoinArgv(argv: seq<string>): string {
    if argv == [] then ""
    else if |argv| == 1 then Word(argv[0])
    else Word(argv[0]) + " " + JoinArgv(argv[1..])
  }

  // Reading a line.

  /** What has been read: the words before, the word so far, and the open quote. */
  datatype State = State(argv: seq<string>, word: Option<string>, quote: Option<char>, escaped: bool)

  const START := State([], None, None, false)

  function SoFar(word: Option<string>): string {
    if word.Some? then word.value else ""
  }

  function Step(s: State, c: char): State {
    if s.escaped then s.(word := Some(SoFar(s.word) + [c]), escaped := false)
    else if c == '\\' && s.quote != Some('\'') then s.(escaped := true)
    else if s.quote == Some(c) then s.(word := Some(SoFar(s.word)), quote := None)
    else if s.quote.Some? then s.(word := Some(SoFar(s.word) + [c]))
    else if c == '"' || c == '\'' then s.(quote := Some(c), word := Some(SoFar(s.word)))
    else if IsSpace(c) then Spaced(s)
    else s.(word := Some(SoFar(s.word) + [c]))
  }

  /** The word so far, finished. */
  function Spaced(s: State): State {
    if s.word.Some? then s.(argv := s.argv + [s.word.value], word := None) else s
  }

  function Scanned(s: State, line: string): State
    decreases |line|
  {
    if line == "" then s else Scanned(Step(s, line[0]), line[1..])
  }

  function Finished(s: State): Result<seq<string>, string> {
    if s.quote.Some? || s.escaped then Failure(UNCLOSED)
    else if Spaced(s).argv == [] then Failure(NO_PROGRAM)
    else Success(Spaced(s).argv)
  }

  function Split(line: string): Result<seq<string>, string> {
    Finished(Scanned(START, line))
  }

  /** The words `line` spells, split on spaces, with a shell's quoting. */
  method SplitArgv(line: string) returns (r: Result<seq<string>, string>)
    ensures r == Split(line)
  {
    var argv: seq<string>, word, quote, escaped := [], None, None, false;
    assert line[0..] == line;
    for i := 0 to |line|
      invariant Scanned(State(argv, word, quote, escaped), line[i..]) == Scanned(START, line)
    {
      ghost var before := State(argv, word, quote, escaped);
      var c := line[i];
      if escaped {
        word := Some(SoFar(word) + [c]);
        escaped := false;
      } else if c == '\\' && quote != Some('\'') {
        escaped := true;
      } else if quote.Some? {
        word := if quote == Some(c) then Some(SoFar(word)) else Some(SoFar(word) + [c]);
        quote := if quote == Some(c) then None else quote;
      } else if c == '"' || c == '\'' {
        quote := Some(c);
        word := Some(SoFar(word));
      } else if IsSpace(c) {
        if word.Some? {
          argv := argv + [word.value];
          word := None;
        }
      } else {
        word := Some(SoFar(word) + [c]);
      }
      assert State(argv, word, quote, escaped) == Step(before, c);
      assert line[i..][1..] == line[i + 1..];
    }
    if word.Some? {
      argv := argv + [word.value];
    }
    if quote.Some? || escaped {
      r := Failure(UNCLOSED);
    } else if argv == [] {
      r := Failure(NO_PROGRAM);
    } else {
      r := Success(argv);
    }
  }

  lemma {:induction false} ScannedAppend(s: State, a: string, b: string)
    ensures Scanned(s, a + b) == Scanned(Scanned(s, a), b)
    decreases |a|
  {
    if a == "" {
      assert a + b == b;
    } else {
      assert (a + b)[1..] == a[1..] + b;
      ScannedAppend(Step(s, a[0]), a[1..], b);
    }
  }

  lemma FirstScanned(s: State, c: char)
    ensures Scanned(s, [c]) == Step(s, c)
  {
    assert [c][1..] == "";
  }

  lemma FirstTwoScanned(s: State, c: char, d: char)
    ensures Scanned(s, [c, d]) == Step(Step(s, c), d)
  {
    assert [c, d] == [c] + [d];
    ScannedAppend(s, [c], [d]);
    FirstScanned(s, c);
    FirstScanned(Step(s, c), d);
  }

  lemma {:induction false} PlainScanned(argv: seq<string>, word: Option<string>, rest: string)
    requires forall i :: 0 <= i < |rest| ==> !IsSpecial(rest[i])
    requires rest == "" ==> word.Some?
    ensures Scanned(State(argv, word, None, false), rest) == State(argv, Some(SoFar(word) + rest), None, false)
    decreases |rest|
  {
    if rest == "" {
      assert SoFar(word) + rest == SoFar(word);
    } else {
      var next := SoFar(word) + [rest[0]];
      PlainScanned(argv, Some(next), rest[1..]);
      assert next + rest[1..] == SoFar(word) + rest;
    }
  }

  lemma {:induction false} EscapedScanned(argv: seq<string>, word: string, rest: string)
    ensures Scanned(State(argv, Some(word), Some('"'), false), Escaped(rest))
         == State(argv, Some(word + rest), Some('"'), false)
    decreases |rest|
  {
    var s := State(argv, Some(word), Some('"'), false);
    if rest == "" {
      assert word + rest == word;
    } else {
      var first := if rest[0] == '"' || rest[0] == '\\' then ['\\', rest[0]] else [rest[0]];
      EscapedScanned(argv, word + [rest[0]], rest[1..]);
      ScannedAppend(s, first, Escaped(rest[1..]));
      FirstTwoScanned(s, '\\', rest[0]);
      FirstScanned(s, rest[0]);
      assert Scanned(s, first) == s.(word := Some(word + [rest[0]]));
      assert word + [rest[0]] + rest[1..] == word + rest;
    }
  }

  /** A written argument is read as one word. */
  lemma WordScanned(argv: seq<string>, arg: string)
    ensures Scanned(State(argv, None, None, false), Word(arg)) == State(argv, Some(arg), None, false)
  {
    if NeedsQuotes(arg) {
      var s := State(argv, Some(""), Some('"'), false);
      assert Word(arg) == "\"" + (Escaped(arg) + "\"");
      assert ("\"" + (Escaped(arg) + "\""))[1..] == Escaped(arg) + "\"";
      ScannedAppend(s, Escaped(arg), "\"");
      EscapedScanned(argv, "", arg);
      assert "" + arg == arg;
      FirstScanned(State(argv, Some(arg), Some('"'), false), '"');
    } else {
      PlainScanned(argv, None, arg);
      assert "" + arg == arg;
    }
  }

  lemma {:induction false} JoinedScanned(before: seq<string>, argv: seq<string>)
    requires argv != []
    ensures Scanned(State(before, None, None, false), JoinArgv(argv))
         == State(before + argv[..|argv| - 1], Some(argv[|argv| - 1]), None, false)
    decreases |argv|
  {
    hide Word, Scanned;
    WordScanned(before, argv[0]);
    if |argv| > 1 {
      var word, rest := Word(argv[0]), JoinArgv(argv[1..]);
      var s := State(before, None, None, false);
      FirstScanned(State(before, Some(argv[0]), None, false), ' ');
      ScannedAppend(s, word + " ", rest);
      ScannedAppend(s, word, " ");
      JoinedScanned(before + [argv[0]], argv[1..]);
      assert before + [argv[0]] + argv[1..][..|argv| - 2] == before + argv[..|argv| - 1];
    } else {
      assert before + argv[..0] == before;
    }
  }

  lemma ProgramReadBack(argv: seq<string>)
    requires argv != []
    ensures Split(JoinArgv(argv)) == Success(argv)
  {
    hide Scanned, JoinArgv;
    var before, last := argv[..|argv| - 1], argv[|argv| - 1];
    JoinedScanned([], argv);
    assert [] + before == before;
    assert before + [last] == argv;
  }

  /** A written argv is read back, as long as it names a program. */
  lemma ArgvReadBack(argv: seq<string>)
    ensures Split(JoinArgv(argv)) == Success(argv) <==> argv != []
  {
    if argv != [] {
      ProgramReadBack(argv);
    }
  }

  /** A line read and written again is read as before. */
  lemma RewrittenReadsTheSame(line: string)
    requires Split(line).Success?
    ensures Split(JoinArgv(Split(line).value)) == Split(line)
  {
    ArgvReadBack(Split(line).value);
  }

  // Lines after lines.

  function Before(argv: seq<string>, s: State): State {
    s.(argv := argv + s.argv)
  }

  /** Words already read do not change how the rest is read. */
  lemma {:induction false} ScannedBefore(argv: seq<string>, s: State, line: string)
    ensures Scanned(Before(argv, s), line) == Before(argv, Scanned(s, line))
    decreases |line|
  {
    if line != "" {
      assert Spaced(Before(argv, s)).argv == Before(argv, Spaced(s)).argv;
      assert Step(Before(argv, s), line[0]) == Before(argv, Step(s, line[0]));
      ScannedBefore(argv, Step(s, line[0]), line[1..]);
    }
  }

  /** Two lines joined by a space are read as the words of both. */
  lemma LinesReadApart(a: string, b: string)
    requires Split(a).Success? && Split(b).Success?
    ensures Split(a + " " + b) == Success(Split(a).value + Split(b).value)
  {
    var first, words := Scanned(START, a), Split(a).value;
    ScannedAppend(START, a + " ", b);
    ScannedAppend(START, a, " ");
    FirstScanned(first, ' ');
    assert Spaced(first) == Before(words, START);
    ScannedBefore(words, START, b);
    var second := Scanned(START, b);
    assert Spaced(Before(words, second)).argv == words + Spaced(second).argv;
  }

  // Lines that are refused.

  /** Whether anything but space was read. */
  predicate IsStarted(s: State) {
    s.argv != [] || s.word.Some? || s.quote.Some? || s.escaped
  }

  lemma {:induction false} StartedScanned(s: State, line: string)
    ensures IsStarted(Scanned(s, line)) <==> IsStarted(s) || exists i :: 0 <= i < |line| && !IsSpace(line[i])
    decreases |line|
  {
    if line != "" {
      StartedScanned(Step(s, line[0]), line[1..]);
      assert forall i :: 0 < i < |line| ==> line[i] == line[1..][i - 1];
      assert forall i :: 0 <= i < |line[1..]| ==> line[1..][i] == line[i + 1];
    }
  }

  /** A line names no program exactly when it is all space. */
  lemma NoProgramInSpace(line: string)
    ensures Split(line) == Failure(NO_PROGRAM) <==> forall i :: 0 <= i < |line| ==> IsSpace(line[i])
  {
    StartedScanned(START, line);
  }

  /** After any good line, a quote that is never closed or a final backslash makes the split fail. */
  lemma UnclosedIsRefused(line: string, last: char)
    requires Split(line).Success? && last in ['"', '\'', '\\']
    ensures Split(line + [last]) == Failure(UNCLOSED)
  {
    ScannedAppend(START, line, [last]);
    FirstScanned(Scanned(START, line), last);
  }
}
