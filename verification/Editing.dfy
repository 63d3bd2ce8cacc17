/** Indenting and outdenting the lines of a selection, and that outdenting undoes indenting. */
module Editing {
  import opened Basics

  /** A text and two positions in it. With `start == end` nothing is selected. */
  datatype Edit = Edit(end: int, start: int, text: string)

  predicate IsEdit(e: Edit) {
    0 <= e.start <= e.end <= |e.text|
  }

  /** The characters `Indent` puts in. */
  const INDENT := "  "

  /** `text.slice(0, end)`, for a position from its front. */
  function Take(text: string, end: nat): string {
    text[..Min(end, |text|)]
  }

  /** `text.slice(start)`, for a position from its front. */
  function Drop(text: string, start: nat): string {
    text[Min(start, |text|)..]
  }

  /** The last line break in `text` at or before `from`, or -1. */
  function LastBreak(text: string, from: int): (r: int)
    requires from < |text|
    ensures -1 <= r && (r >= 0 ==> r <= from && text[r] == '\n')
    ensures forall i :: r < i <= from && 0 <= i ==> text[i] != '\n'
    decreases from + 1
  {
    if from < 0 then -1 else if text[from] == '\n' then from else LastBreak(text, from - 1)
  }

  /** Where the line holding `start` begins. The search for the line break before it starts at 0 at the least. */
  function LineStart(text: string, start: nat): (r: nat)
    requires start <= |text|
    ensures r <= |text|
  {
    if text == "" then 0 else LastBreak(text, Max(0, start - 1)) + 1
  }

  /** Where the lines in `part` after its first begin, for `part` at `offset`. */
  function Breaks(part: string, offset: nat): seq<nat> {
    if part == "" then []
    else if part[0] == '\n' then [offset + 1] + Breaks(part[1..], offset + 1)
    else Breaks(part[1..], offset + 1)
  }

  /** `LineStart(text, start)`, and the position after each line break from there to `end`. */
  function LineStarts(text: string, start: nat, end: nat): (r: seq<nat>)
    requires start <= end <= |text|
    ensures r != [] && r[0] == LineStart(text, start)
  {
    var first := LineStart(text, start);
    [first] + Breaks(text[first..Max(first, end)], first)
  }

  /** `text` with an indentation at each of `starts`, the last first. */
  function Inserted(text: string, starts: seq<nat>): string {
    if starts == [] then text
    else
      var edited := Inserted(text, starts[1..]);
      Take(edited, starts[0]) + (INDENT + Drop(edited, starts[0]))
  }

  /** The edit after Tab: `INDENT` put in once when nothing is selected, and at each of `LineStarts` otherwise. */
  function Indent(e: Edit): Edit
    requires IsEdit(e)
  {
    if e.start == e.end then
      Edit(e.start + |INDENT|, e.start + |INDENT|, Take(e.text, e.start) + INDENT + Drop(e.text, e.end))
    else
      var starts := LineStarts(e.text, e.start, e.end);
      Edit(e.end + |INDENT| * |starts|, e.start + |INDENT|, Inserted(e.text, starts))
  }

  /** How many spaces, of an indentation at most, are at `at`. */
  function Spaces(text: string, at: nat): (r: nat)
    ensures r <= |INDENT| && (r > 0 ==> at + r <= |text| && forall i :: at <= i < at + r ==> text[i] == ' ')
  {
    if at < |text| && text[at] == ' ' then
      if at + 1 < |text| && text[at + 1] == ' ' then 2 else 1
    else 0
  }

  function Counts(text: string, starts: seq<nat>): (r: seq<nat>)
    ensures |r| == |starts|
  {
    if starts == [] then [] else [Spaces(text, starts[0])] + Counts(text, starts[1..])
  }

  function Sum(counts: seq<nat>): nat {
    if counts == [] then 0 else counts[0] + Sum(counts[1..])
  }

  /** `text` without so many characters at each of `starts`, the last first. */
  function Removed(text: string, starts: seq<nat>, counts: seq<nat>): string
    requires |starts| == |counts|
  {
    if starts == [] then text
    else
      var edited := Removed(text, starts[1..], counts[1..]);
      Take(edited, starts[0]) + Drop(edited, starts[0] + counts[0])
  }

  /** The edit after Shift+Tab: at each of `LineStarts`, as many characters as `Spaces` finds there are taken out. */
  function Outdent(e: Edit): Edit
    requires IsEdit(e)
  {
    var starts := LineStarts(e.text, e.start, e.end);
    var removed := Counts(e.text, starts);
    var first, last := starts[0], starts[|starts| - 1];
    var before := Sum(removed[..|removed| - 1]);
    Edit(e.end - before - Min(removed[|removed| - 1], e.end - last),
         Max(first, e.start - removed[0]),
         Removed(e.text, starts, removed))
  }

  // Where lines begin.

  /** Whether an edit starts before a line break its text begins with. */
  predicate AtFirstBreak(e: Edit) {
    e.start == 0 && "\n" <= e.text
  }

  lemma FirstLine(e: Edit)
    requires IsEdit(e)
    ensures var first := LineStart(e.text, e.start);
            if AtFirstBreak(e) then first == 1
            else first <= e.start && (forall i :: first <= i < e.start ==> e.text[i] != '\n')
                 && (first > 0 ==> e.text[first - 1] == '\n')
  {
  }

  // Tab on a selection.

  /** `part`, with an indentation after each line break. */
  function Marked(part: string): string {
    if part == "" then ""
    else if part[0] == '\n' then "\n" + INDENT + Marked(part[1..])
    else [part[0]] + Marked(part[1..])
  }

  lemma Regroup(a: string, b: string, c: string, d: string)
    ensures a + (b + c + d) == a + b + (c + d)
  {
  }

  lemma LastOf(first: nat, others: seq<nat>)
    ensures var all := [first] + others; all[|all| - 1] == if others == [] then first else others[|others| - 1]
  {
  }

  lemma Parted(before: string, after: string)
    ensures Take(before + after, |before|) == before && Drop(before + after, |before|) == after
  {
  }

  lemma InsertedFirst(before: string, after: string, text: string, starts: seq<nat>)
    requires Inserted(text, starts) == before + after
    ensures Inserted(text, [|before|] + starts) == before + (INDENT + after)
  {
    assert ([|before|] + starts)[1..] == starts;
    Parted(before, after);
  }

  lemma {:induction false} InsertedAfterBreaks(before: string, part: string, after: string)
    ensures Inserted(before + (part + after), Breaks(part, |before|)) == before + (Marked(part) + after)
    ensures |Marked(part)| == |part| + |INDENT| * |Breaks(part, |before|)|
    decreases |part|
  {
    hide Inserted, Take, Drop;
    var text := before + (part + after);
    if part == "" {
      NoneInserted(text);
    } else {
      var c, rest := [part[0]], part[1..];
      var longer := before + c;
      assert part == c + rest;
      Regroup(before, c, rest, after);
      InsertedAfterBreaks(longer, rest, after);
      if part[0] == '\n' {
        InsertedFirst(longer, Marked(rest) + after, text, Breaks(rest, |longer|));
        assert before + c + (INDENT + (Marked(rest) + after)) == before + (c + INDENT + Marked(rest) + after);
      } else {
        Regroup(before, c, Marked(rest), after);
      }
    }
  }

  lemma NoneInserted(text: string)
    ensures Inserted(text, []) == text
  {
  }

  /** Tab puts an indentation before each line a selection touches, and nothing else. */
  lemma IndentMarks(e: Edit)
    requires IsEdit(e) && e.start < e.end
    ensures var first := LineStart(e.text, e.start);
            && first <= e.end
            && Indent(e).text == e.text[..first] + (INDENT + (Marked(e.text[first..e.end]) + e.text[e.end..]))
            && Indent(e).start == e.start + |INDENT|
            && Indent(e).end == first + |INDENT| + |Marked(e.text[first..e.end])|
  {
    hide Inserted, Marked, LineStart, Breaks;
    FirstLine(e);
    var first := LineStart(e.text, e.start);
    var before, part, after := e.text[..first], e.text[first..e.end], e.text[e.end..];
    assert e.text == before + (part + after);
    InsertedAfterBreaks(before, part, after);
    InsertedFirst(before, Marked(part) + after, e.text, Breaks(part, first));
  }

  // Shift+Tab after Tab.

  lemma RemovedFirst(before: string, after: string, text: string, starts: seq<nat>)
    requires Spaces(text, |before|) == |INDENT|
    requires Removed(text, starts, Counts(text, starts)) == before + (INDENT + after)
    ensures var all := [|before|] + starts; Removed(text, all, Counts(text, all)) == before + after
  {
    var all := [|before|] + starts;
    assert all[1..] == starts;
    assert Counts(text, all)[1..] == Counts(text, starts);
    Parted(before, INDENT + after);
    Parted(before + INDENT, after);
    assert before + (INDENT + after) == before + INDENT + after;
  }

  lemma SpacesAt(before: string, after: string)
    ensures Spaces(before + (INDENT + after), |before|) == |INDENT|
  {
  }

  lemma {:induction false} BreaksAfterIndent(part: string, offset: nat)
    ensures Breaks(INDENT + part, offset) == Breaks(part, offset + |INDENT|)
  {
    assert (INDENT + part)[1..] == " " + part && (" " + part)[1..] == part;
  }

  lemma MarkedStep(part: string, offset: nat)
    requires part != ""
    ensures var c, marked := [part[0]], Marked(part[1..]);
            if part[0] == '\n'
            then Marked(part) == c + INDENT + marked
                 && Breaks(Marked(part), offset) == [offset + 1] + Breaks(marked, offset + 1 + |INDENT|)
            else Marked(part) == c + marked && Breaks(Marked(part), offset) == Breaks(marked, offset + 1)
  {
    var marked := Marked(part[1..]);
    if part[0] == '\n' {
      assert Marked(part)[1..] == INDENT + marked;
      BreaksAfterIndent(marked, offset + 1);
    } else {
      assert Marked(part)[1..] == marked;
    }
  }

  /** Taking the spaces after its breaks away from what was marked gives it back. */
  lemma {:induction false} RemovedAfterBreaks(before: string, part: string, after: string)
    ensures var text, starts := before + (Marked(part) + after), Breaks(Marked(part), |before|);
            Removed(text, starts, Counts(text, starts)) == before + (part + after)
    decreases |part|
  {
    hide Removed, Take, Drop, Spaces, Counts;
    var text := before + (Marked(part) + after);
    if part == "" {
      NoneRemoved(text);
    } else {
      hide Marked, Breaks;
      var c, rest, marked := [part[0]], part[1..], Marked(part[1..]);
      assert part == c + rest;
      MarkedStep(part, |before|);
      Regroup(before, c, rest, after);
      if part[0] == '\n' {
        var longer := before + (c + INDENT);
        Regroup(before, c + INDENT, marked, after);
        RemovedAfterBreaks(longer, rest, after);
        Regrouped(before, c, marked + after);
        Regrouped(before, c, rest + after);
        SpacesAt(before + c, marked + after);
        RemovedFirst(before + c, rest + after, text, Breaks(marked, |longer|));
      } else {
        Regroup(before, c, marked, after);
        RemovedAfterBreaks(before + c, rest, after);
      }
    }
  }

  lemma Regrouped(before: string, c: string, after: string)
    ensures before + (c + INDENT) + after == before + c + (INDENT + after)
  {
  }

  lemma NoneRemoved(text: string)
    ensures Removed(text, [], Counts(text, [])) == text
    ensures Marked("") == "" && forall offset :: Breaks("", offset) == []
  {
  }

  function Twos(count: nat): (r: seq<nat>)
    ensures |r| == count && Sum(r) == |INDENT| * count
    ensures count > 0 ==> r[count - 1] == |INDENT| && r[..count - 1] == Twos(count - 1)
  {
    if count == 0 then [] else [|INDENT|] + Twos(count - 1)
  }

  lemma {:induction false} MarkedCounts(before: string, part: string, after: string)
    ensures var text, starts := before + (Marked(part) + after), Breaks(Marked(part), |before|);
            && Counts(text, starts) == Twos(|starts|)
            && |starts| == |Breaks(part, |before|)|
            && (starts != [] ==> starts[|starts| - 1] + |INDENT| <= |before| + |Marked(part)|)
    decreases |part|
  {
    hide Spaces;
    if part == "" {
      NoneRemoved("");
    } else {
      hide Marked, Breaks;
      var text := before + (Marked(part) + after);
      var c, rest, marked := [part[0]], part[1..], Marked(part[1..]);
      MarkedStep(part, |before|);
      BreaksStep(part, |before|);
      if part[0] == '\n' {
        var longer := before + (c + INDENT);
        Regroup(before, c + INDENT, marked, after);
        MarkedCounts(longer, rest, after);
        Regrouped(before, c, marked + after);
        SpacesAt(before + c, marked + after);
        BreaksLonger(rest, |before| + 1, |longer|);
        assert Breaks(Marked(part), |before|)[1..] == Breaks(marked, |longer|);
      } else {
        Regroup(before, c, marked, after);
        MarkedCounts(before + c, rest, after);
      }
    }
  }

  lemma BreaksStep(part: string, offset: nat)
    requires part != ""
    ensures Breaks(part, offset)
         == if part[0] == '\n' then [offset + 1] + Breaks(part[1..], offset + 1) else Breaks(part[1..], offset + 1)
  {
  }

  lemma {:induction false} BreaksLonger(part: string, offset: nat, other: nat)
    ensures |Breaks(part, offset)| == |Breaks(part, other)|
  {
    if part != "" {
      BreaksLonger(part[1..], offset + 1, other + 1);
    }
  }

  lemma {:induction false} MarkedBeforeBreak(part: string, count: nat)
    requires count <= |part| && forall i :: 0 <= i < count ==> part[i] != '\n'
    ensures count <= |Marked(part)| && Marked(part)[..count] == part[..count]
  {
    if count > 0 {
      MarkedBeforeBreak(part[1..], count - 1);
      assert Marked(part)[..count] == [part[0]] + Marked(part[1..])[..count - 1];
    }
  }

  lemma LineStartIs(text: string, start: nat, first: nat)
    requires first < start <= |text| && (first > 0 ==> text[first - 1] == '\n')
    requires forall i :: first <= i < start ==> text[i] != '\n'
    ensures LineStart(text, start) == first
  {
  }

  /** No line begins between the indentation put before `part` and the first line break in it. */
  lemma IndentedLine(before: string, part: string, after: string, count: nat)
    requires count <= |part| && (before != "" ==> before[|before| - 1] == '\n')
    requires forall i :: 0 <= i < count ==> part[i] != '\n'
    ensures count <= |Marked(part)|
    ensures LineStart(before + (INDENT + (Marked(part) + after)), |before| + |INDENT| + count) == |before|
  {
    hide LineStart, Marked;
    MarkedBeforeBreak(part, count);
    var front, rest := part[..count], Marked(part)[count..];
    assert Marked(part) == front + rest;
    Associates(front, rest, after);
    Associates(INDENT, front, rest + after);
    LineStartAt(before, INDENT + front, rest + after);
  }

  lemma LineStartAt(before: string, front: string, rest: string)
    requires front != "" && (before != "" ==> before[|before| - 1] == '\n')
    requires forall i :: 0 <= i < |front| ==> front[i] != '\n'
    ensures LineStart(before + (front + rest), |before| + |front|) == |before|
  {
    hide LineStart;
    var text := before + (front + rest);
    assert forall i :: |before| <= i < |before| + |front| ==> text[i] == front[i - |before|];
    LineStartIs(text, |before| + |front|, |before|);
  }

  /** What Tab leaves is a selection of its text, starting on the line it did. */
  lemma IndentedStart(e: Edit)
    requires IsEdit(e) && e.start < e.end
    ensures IsEdit(Indent(e))
    ensures !AtFirstBreak(e) ==> LineStart(Indent(e).text, Indent(e).start) == LineStart(e.text, e.start)
    ensures AtFirstBreak(e) ==> LineStart(Indent(e).text, Indent(e).start) > 0
  {
    hide LineStart, Marked, Indent;
    IndentMarks(e);
    FirstLine(e);
    var first := LineStart(e.text, e.start);
    var part := e.text[first..e.end];
    MarkedLonger(part);
    if AtFirstBreak(e) {
      FirstLine(Indent(e));
      assert Indent(e).text[0] == e.text[..first][0] == '\n';
    } else {
      IndentedLine(e.text[..first], part, e.text[e.end..], e.start - first);
    }
  }

  lemma {:induction false} MarkedLonger(part: string)
    ensures |Marked(part)| >= |part|
  {
    if part != "" {
      MarkedLonger(part[1..]);
    }
  }

  lemma IndentedStarts(e: Edit)
    requires IsEdit(e) && e.start < e.end && !AtFirstBreak(e)
    ensures var first := LineStart(e.text, e.start);
            && first <= e.start && IsEdit(Indent(e))
            && LineStarts(Indent(e).text, Indent(e).start, Indent(e).end)
            == [first] + Breaks(Marked(e.text[first..e.end]), first + |INDENT|)
  {
    hide LineStart, Marked, Indent, Breaks;
    IndentMarks(e);
    FirstLine(e);
    IndentedStart(e);
    var first := LineStart(e.text, e.start);
    var marked := Marked(e.text[first..e.end]);
    assert Indent(e).text[first..Indent(e).end] == INDENT + marked;
    BreaksAfterIndent(marked, first);
  }

  /** Taking the indentations away where lines begin, and how far each is from the end. */
  lemma MarksTaken(before: string, part: string, after: string)
    ensures var text := before + (INDENT + (Marked(part) + after));
            var starts := [|before|] + Breaks(Marked(part), |before| + |INDENT|);
            && Removed(text, starts, Counts(text, starts)) == before + (part + after)
            && Counts(text, starts) == Twos(|starts|)
            && |Marked(part)| == |part| + |INDENT| * (|starts| - 1)
            && starts[|starts| - 1] <= |before| + |Marked(part)|
  {
    hide Marked, Breaks, Removed, Counts, Sum, Spaces;
    var longer, marked := before + INDENT, Marked(part);
    var text, starts := longer + (marked + after), Breaks(marked, |before| + |INDENT|);
    RemovedAfterBreaks(longer, part, after);
    MarkedCounts(longer, part, after);
    InsertedAfterBreaks(longer, part, after);
    SpacesAt(before, marked + after);
    Associates(before, INDENT, marked + after);
    Associates(before, INDENT, part + after);
    RemovedFirst(before, part + after, text, starts);
    FirstCounted(text, |before|, starts);
    LastOf(|before|, starts);
  }

  lemma OutdentUndoes(e: Edit)
    requires IsEdit(e) && e.start < e.end && !AtFirstBreak(e)
    ensures IsEdit(Indent(e)) && Outdent(Indent(e)) == e
  {
    hide LineStart, LineStarts, Marked, Indent, Breaks, Removed, Counts, Sum;
    IndentMarks(e);
    IndentedStarts(e);
    var first := LineStart(e.text, e.start);
    var before, part, after := e.text[..first], e.text[first..e.end], e.text[e.end..];
    MarksTaken(before, part, after);
    assert e.text == before + (part + after);
  }

  lemma FirstCounted(text: string, at: nat, starts: seq<nat>)
    requires Spaces(text, at) == |INDENT| && Counts(text, starts) == Twos(|starts|)
    ensures Counts(text, [at] + starts) == Twos(|starts| + 1)
  {
    assert ([at] + starts)[1..] == starts;
  }

  /** Shift+Tab after Tab on a selection gives it back, unless it starts before a line break the text begins with. */
  lemma OutdentUndoesIndent(e: Edit)
    requires IsEdit(e) && e.start < e.end
    ensures IsEdit(Indent(e)) && (Outdent(Indent(e)) == e <==> !AtFirstBreak(e))
  {
    hide LineStart, Indent, Breaks, Removed, Counts, Sum;
    IndentedStart(e);
    FirstLine(e);
    if !AtFirstBreak(e) {
      OutdentUndoes(e);
    }
  }

  // Shift+Tab on any selection.

  /** Line starts in ascending order, each after a line break between `from` and `to`. */
  predicate AreStarts(text: string, from: nat, to: int, starts: seq<nat>) {
    && (forall i :: 0 <= i < |starts| ==> from < starts[i] <= to && starts[i] <= |text| && text[starts[i] - 1] == '\n')
    && (forall i, j :: 0 <= i < j < |starts| ==> starts[i] < starts[j])
  }

  lemma StartsEarlier(text: string, from: nat, to: int, starts: seq<nat>)
    requires from < to <= |text| && AreStarts(text, from + 1, to, starts)
    ensures AreStarts(text, from, to, starts)
    ensures text[from] == '\n' ==> AreStarts(text, from, to, [from + 1] + starts)
  {
  }

  lemma {:induction false} BreaksAreStarts(text: string, from: int, to: int)
    requires 0 <= from <= to <= |text|
    ensures AreStarts(text, from, to, Breaks(text[from..to], from))
    decreases |text[from..to]|
  {
    var part := text[from..to];
    if part != "" {
      hide AreStarts, Breaks;
      assert part[1..] == text[from + 1..to];
      BreaksStep(part, from);
      BreaksAreStarts(text, from + 1, to);
      StartsEarlier(text, from, to, Breaks(text[from + 1..to], from + 1));
    }
  }

  lemma LinesStart(text: string, start: nat, end: nat)
    requires start <= end <= |text|
    ensures var r, first := LineStarts(text, start, end), LineStart(text, start);
            && AreStarts(text, first, Max(first, end), r[1..])
            && (forall i, j :: 0 <= i < j < |r| ==> r[i] < r[j])
  {
    hide LineStart, Breaks;
    var first := LineStart(text, start);
    BreaksAreStarts(text, first, Max(first, end));
    var r := LineStarts(text, start, end);
    assert r[1..] == Breaks(text[first..Max(first, end)], first);
    assert forall i :: 0 < i < |r| ==> r[i] == r[1..][i - 1];
  }

  lemma {:induction false} CountsAt(text: string, starts: seq<nat>, i: nat)
    requires i < |starts|
    ensures Counts(text, starts)[i] == Spaces(text, starts[i])
  {
    if i > 0 {
      CountsAt(text, starts[1..], i - 1);
    }
  }

  /** Whether what is taken at each start is spaces before the next. */
  predicate Fit(text: string, starts: seq<nat>, counts: seq<nat>) {
    && |starts| == |counts|
    && (forall i :: 0 <= i < |starts| ==>
          starts[i] + counts[i] <= |text| && forall k :: starts[i] <= k < starts[i] + counts[i] ==> text[k] == ' ')
    && (forall i, j :: 0 <= i < j < |starts| ==> starts[i] + counts[i] <= starts[j])
  }

  /** The spaces that begin a line are before the next. */
  lemma OutdentFits(text: string, start: nat, end: nat)
    requires start <= end <= |text|
    ensures var starts := LineStarts(text, start, end); Fit(text, starts, Counts(text, starts))
  {
    hide LineStarts, Counts;
    var starts := LineStarts(text, start, end);
    LinesStart(text, start, end);
    forall i | 0 <= i < |starts|
      ensures Counts(text, starts)[i] == Spaces(text, starts[i]) && starts[i] <= |text|
    {
      CountsAt(text, starts, i);
    }
    forall i, j | 0 <= i < j < |starts| ensures starts[i] + Counts(text, starts)[i] <= starts[j] {
      assert starts[j] == starts[1..][j - 1];
      assert text[starts[j] - 1] == '\n';
    }
  }

  function NoSpace(): char -> bool {
    c => c != ' '
  }

  lemma SpacesDropped(before: string, spaces: string, after: string)
    requires forall i :: 0 <= i < |spaces| ==> spaces[i] == ' '
    ensures Filter(before + after, NoSpace()) == Filter(before + spaces + after, NoSpace())
  {
    hide Filter;
    FilterAppend(before, after, NoSpace());
    FilterAppend(before + spaces, after, NoSpace());
    FilterAppend(before, spaces, NoSpace());
    assert Filter(spaces, NoSpace()) == "" by {
      assert forall c :: c in Filter(spaces, NoSpace()) ==> c in spaces && c != ' ';
      HeadIn(Filter(spaces, NoSpace()));
    }
  }

  /** Up to where anything is taken. */
  function Untouched(text: string, starts: seq<nat>): int {
    if starts == [] then |text| else starts[0]
  }

  lemma FitRest(text: string, starts: seq<nat>, counts: seq<nat>)
    requires Fit(text, starts, counts) && starts != []
    ensures Fit(text, starts[1..], counts[1..])
    ensures starts[0] + counts[0] <= Untouched(text, starts[1..]) <= |text|
  {
    assert forall i :: 0 <= i < |starts[1..]| ==> starts[1..][i] == starts[i + 1] && counts[1..][i] == counts[i + 1];
  }

  /** What is taken are spaces, and as many as counted. */
  lemma {:induction false} RemovedSpaces(text: string, starts: seq<nat>, counts: seq<nat>)
    requires Fit(text, starts, counts)
    ensures var r, k := Removed(text, starts, counts), Untouched(text, starts);
            && |r| + Sum(counts) == |text|
            && k <= |r| && k <= |text| && r[..k] == text[..k]
            && Filter(r, NoSpace()) == Filter(text, NoSpace())
  {
    if starts != [] {
      var edited := Removed(text, starts[1..], counts[1..]);
      FitRest(text, starts, counts);
      RemovedSpaces(text, starts[1..], counts[1..]);
      TakenSpaces(text, edited, Untouched(text, starts[1..]), starts[0], counts[0]);
    }
  }

  /** Spaces taken from where `edited` is still `text`. */
  lemma TakenSpaces(text: string, edited: string, k: nat, at: nat, count: nat)
    requires at + count <= k <= |edited| && k <= |text| && edited[..k] == text[..k]
    requires forall i :: at <= i < at + count ==> text[i] == ' '
    ensures var r := Take(edited, at) + Drop(edited, at + count);
            && |r| + count == |edited| && at <= |r| && r[..at] == text[..at]
            && Filter(r, NoSpace()) == Filter(edited, NoSpace())
  {
    var before, spaces, after := edited[..at], edited[at..at + count], edited[at + count..];
    assert forall i :: 0 <= i < at + count ==> edited[i] == edited[..k][i] == text[i];
    SpacesDropped(before, spaces, after);
    assert edited == before + spaces + after;
  }

  /** Shift+Tab takes nothing but spaces. */
  lemma OutdentTakesSpaces(e: Edit)
    requires IsEdit(e)
    ensures Filter(Outdent(e).text, NoSpace()) == Filter(e.text, NoSpace())
  {
    hide LineStarts, Counts, Removed, Sum, Fit;
    var starts := LineStarts(e.text, e.start, e.end);
    OutdentFits(e.text, e.start, e.end);
    RemovedSpaces(e.text, starts, Counts(e.text, starts));
  }

  lemma {:induction false} SumUpTo(counts: seq<nat>, last: nat)
    ensures Sum(counts + [last]) == Sum(counts) + last
  {
    if counts == [] {
      assert counts + [last] == [last];
    } else {
      assert (counts + [last])[1..] == counts[1..] + [last];
      SumUpTo(counts[1..], last);
    }
  }

  lemma {:induction false} TakenBefore(text: string, starts: seq<nat>, counts: seq<nat>, i: nat, k: nat)
    requires Fit(text, starts, counts) && i <= k < |starts|
    ensures Sum(counts[i..k]) <= starts[k] - starts[i]
    decreases k - i
  {
    if i < k {
      assert counts[i..k][1..] == counts[i + 1..k];
      TakenBefore(text, starts, counts, i + 1, k);
    }
  }

  /** What is taken before the last line, and what of it after the first. */
  lemma TakenInAll(text: string, starts: seq<nat>, counts: seq<nat>)
    requires Fit(text, starts, counts) && starts != []
    ensures var n := |starts|;
            var before := Sum(counts[..n - 1]);
            && Sum(counts) == before + counts[n - 1]
            && before <= starts[n - 1] - starts[0]
            && (n > 1 ==> before - counts[0] <= starts[n - 1] - starts[1])
            && (n == 1 ==> before == 0)
            && starts[n - 1] + counts[n - 1] <= |text| && starts[0] + counts[0] <= |text|
  {
    var n := |starts|;
    assert counts == counts[..n - 1] + [counts[n - 1]];
    SumUpTo(counts[..n - 1], counts[n - 1]);
    TakenBefore(text, starts, counts, 0, n - 1);
    assert counts[0..n - 1] == counts[..n - 1];
    if n > 1 {
      TakenBefore(text, starts, counts, 1, n - 1);
      assert counts[..n - 1][1..] == counts[1..n - 1];
    }
  }

  lemma StartsOnFirstLine(e: Edit)
    requires IsEdit(e)
    ensures var starts := LineStarts(e.text, e.start, e.end);
            |starts| > 1 ==> e.start < starts[1] && starts[|starts| - 1] <= e.end
  {
    hide LineStart, LineStarts;
    FirstLine(e);
    LinesStart(e.text, e.start, e.end);
    var starts := LineStarts(e.text, e.start, e.end);
    if |starts| > 1 {
      assert starts[1] == starts[1..][0] && starts[|starts| - 1] == starts[1..][|starts| - 2];
      assert e.text[starts[1] - 1] == '\n';
    }
  }

  /** What Shift+Tab leaves is a selection of the text it leaves. */
  lemma OutdentStaysInside(e: Edit)
    requires IsEdit(e)
    ensures IsEdit(Outdent(e))
  {
    hide Sum, LineStarts, LineStart, Counts, Removed, Fit;
    var starts := LineStarts(e.text, e.start, e.end);
    var counts := Counts(e.text, starts);
    OutdentFits(e.text, e.start, e.end);
    RemovedSpaces(e.text, starts, counts);
    FirstLine(e);
    StartsOnFirstLine(e);
    TakenInAll(e.text, starts, counts);
  }
}
