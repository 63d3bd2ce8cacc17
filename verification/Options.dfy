/**
 * Reading a config against declared options. Whatever the config says, each
 * option gets a value its own check accepts, and each part of the config that
 * is dropped is reported once.
 */
module Options {
  import opened Basics
  import opened ConfigDocument

  /** A declaration: one option with its default, or more declarations under a name. */
  datatype Entry =
    | Toggle(isOn: bool)
    | Choice(choices: seq<string>, chosen: string)
    | NumberOf(least: Option<real>, greatest: Option<real>, number: real)
    | TextOf(text: string)
    | ListOf(lines: seq<string>)
    | Group(options: seq<Field>)

  datatype Field = Field(key: string, entry: Entry)

  /** What is wrong with a value. */
  datatype Problem =
    | NotTrueOrFalse
    | NotOneOf(choices: seq<string>)
    | NotANumber
    | IsBelow(least: real)
    | IsAbove(greatest: real)
    | NotText
    | NotAListOfText

  datatype Reason = NoSuchOption | NotAGroup(given: Json) | Refused(given: Json, problem: Problem)

  /** A line that reports something dropped, and where it is. */
  datatype Line = Line(path: seq<string>, why: Reason)

  datatype Read = Read(values: map<string, Json>, dropped: multiset<Line>)

  function NumberProblem(least: Option<real>, greatest: Option<real>, value: real): (r: Option<Problem>)
    ensures r.None? <==> (least.Some? ==> least.value <= value) && (greatest.Some? ==> value <= greatest.value)
  {
    if least.Some? && value < least.value then Some(IsBelow(least.value))
    else if greatest.Some? && value > greatest.value then Some(IsAbove(greatest.value))
    else None
  }

  predicate IsListOfText(value: Json) {
    value.Array? && forall i :: 0 <= i < |value.items| ==> value.items[i].Text?
  }

  /** Why `option` refuses `value`; `None` when it accepts it. */
  function OptionProblem(option: Entry, value: Json): Option<Problem>
    requires !option.Group?
  {
    match option
    case Toggle(_) => if value.Bool? then None else Some(NotTrueOrFalse)
    case Choice(choices, _) => if value.Text? && value.text in choices then None else Some(NotOneOf(choices))
    case NumberOf(least, greatest, _) =>
      if value.Number? then NumberProblem(least, greatest, value.number) else Some(NotANumber)
    case TextOf(_) => if value.Text? then None else Some(NotText)
    case ListOf(_) => if IsListOfText(value) then None else Some(NotAListOfText)
  }

  function Default(option: Entry): Json
    requires !option.Group?
  {
    match option
    case Toggle(isOn) => Bool(isOn)
    case Choice(_, chosen) => Text(chosen)
    case NumberOf(_, _, number) => Number(number)
    case TextOf(text) => Text(text)
    case ListOf(lines) => Array(seq(|lines|, i requires 0 <= i < |lines| => Text(lines[i])))
  }

  /** `given` where `option` accepts it, and the default in all other cases. */
  function ReadOption(option: Entry, given: Option<Json>): Json
    requires !option.Group?
  {
    if given.Some? && OptionProblem(option, given.value).None? then given.value else Default(option)
  }

  predicate HasKey(fields: seq<Field>, key: string) {
    exists i :: 0 <= i < |fields| && fields[i].key == key
  }

  function Given(given: map<string, Json>, key: string): Option<Json> {
    if key in given then Some(given[key]) else None
  }

  function ReadEntry(entry: Entry, given: Option<Json>, at: seq<string>): (Json, multiset<Line>)
    decreases entry
  {
    if entry.Group? then
      if given.None? || given.value.Object? then
        var read := ReadGroup(entry.options, if given.None? then map[] else given.value.entries, at);
        (Object(read.values), read.dropped)
      else (Object(ReadGroup(entry.options, map[], []).values), multiset{Line(at, NotAGroup(given.value))})
    else if given.None? then (Default(entry), multiset{})
    else
      var problem := OptionProblem(entry, given.value);
      if problem.None? then (given.value, multiset{})
      else (Default(entry), multiset{Line(at, Refused(given.value, problem.value))})
  }

  function ReadFields(fields: seq<Field>, given: map<string, Json>, at: seq<string>): Read
    decreases fields, 0
  {
    if fields == [] then Read(map[], multiset{})
    else
      var key := fields[0].key;
      var (value, lines) := ReadEntry(fields[0].entry, Given(given, key), at + [key]);
      var others := ReadFields(fields[1..], given, at);
      Read(others.values[key := value], lines + others.dropped)
  }

  /** One line for each key `given` has and `fields` does not. */
  function Unknown(fields: seq<Field>, given: map<string, Json>, at: seq<string>): set<Line> {
    set key | key in given && !HasKey(fields, key) :: Line(at + [key], NoSuchOption)
  }

  function ReadGroup(fields: seq<Field>, given: map<string, Json>, at: seq<string>): Read
    decreases fields, 1
  {
    var read := ReadFields(fields, given, at);
    read.(dropped := read.dropped + multiset(Unknown(fields, given, at)))
  }

  function ReadOptions(declared: seq<Field>, given: Option<map<string, Json>>): Read {
    ReadGroup(declared, if given.None? then map[] else given.value, [])
  }

  // What is declared well, and what is accepted.

  /** Options with keys of their own and defaults they accept. */
  predicate IsDeclared(fields: seq<Field>)
    decreases fields, 0
  {
    fields == []
    || (EntryIsDeclared(fields[0].entry) && !HasKey(fields[1..], fields[0].key) && IsDeclared(fields[1..]))
  }

  predicate EntryIsDeclared(entry: Entry)
    decreases entry
  {
    if entry.Group? then IsDeclared(entry.options) else OptionProblem(entry, Default(entry)).None?
  }

  /** A value for each option of a group, and nothing more. */
  predicate Accepts(entry: Entry, value: Json)
    decreases entry
  {
    if entry.Group? then
      value.Object?
      && AllAccept(entry.options, value.entries)
      && forall key :: key in value.entries ==> HasKey(entry.options, key)
    else OptionProblem(entry, value).None?
  }

  predicate AllAccept(fields: seq<Field>, values: map<string, Json>)
    decreases fields
  {
    fields == []
    || (fields[0].key in values && Accepts(fields[0].entry, values[fields[0].key]) && AllAccept(fields[1..], values))
  }

  // Every value is accepted.

  lemma {:induction false} AcceptedWithout(fields: seq<Field>, values: map<string, Json>, key: string, value: Json)
    requires !HasKey(fields, key) && AllAccept(fields, values)
    ensures AllAccept(fields, values[key := value])
  {
    if fields != [] {
      assert fields[0].key != key;
      assert forall i :: 0 <= i < |fields[1..]| ==> fields[1..][i] == fields[i + 1];
      AcceptedWithout(fields[1..], values, key, value);
    }
  }

  lemma HasFirst(fields: seq<Field>, key: string)
    requires fields != []
    ensures HasKey(fields, key) <==> fields[0].key == key || HasKey(fields[1..], key)
  {
    assert forall i :: 0 <= i < |fields[1..]| ==> fields[1..][i] == fields[i + 1];
    assert forall i :: 0 < i < |fields| ==> fields[i] == fields[1..][i - 1];
  }

  lemma {:induction false} EntryAccepted(entry: Entry, given: Option<Json>, at: seq<string>)
    requires EntryIsDeclared(entry)
    ensures Accepts(entry, ReadEntry(entry, given, at).0)
    decreases entry
  {
    if entry.Group? {
      FieldsAccepted(entry.options, map[], []);
      if given.None? || given.value.Object? {
        FieldsAccepted(entry.options, if given.None? then map[] else given.value.entries, at);
      }
    }
  }

  lemma {:induction false} FieldsAccepted(fields: seq<Field>, given: map<string, Json>, at: seq<string>)
    requires IsDeclared(fields)
    ensures var values := ReadFields(fields, given, at).values;
            AllAccept(fields, values) && forall key :: key in values ==> HasKey(fields, key)
    decreases fields
  {
    if fields != [] {
      var key := fields[0].key;
      var value := ReadEntry(fields[0].entry, Given(given, key), at + [key]).0;
      EntryAccepted(fields[0].entry, Given(given, key), at + [key]);
      FieldsAccepted(fields[1..], given, at);
      AcceptedWithout(fields[1..], ReadFields(fields[1..], given, at).values, key, value);
      forall k ensures HasKey(fields, k) <==> key == k || HasKey(fields[1..], k) {
        HasFirst(fields, k);
      }
    }
  }

  /** Each option has a value its check accepts, whatever is given. */
  lemma EveryValueIsAccepted(declared: seq<Field>, given: Option<map<string, Json>>)
    requires IsDeclared(declared)
    ensures Accepts(Group(declared), Object(ReadOptions(declared, given).values))
  {
    FieldsAccepted(declared, if given.None? then map[] else given.value, []);
  }

  // Accepted values are kept.

  lemma {:induction false} AcceptedEntryKept(entry: Entry, value: Json, at: seq<string>)
    requires EntryIsDeclared(entry) && Accepts(entry, value)
    ensures ReadEntry(entry, Some(value), at) == (value, multiset{})
    decreases entry
  {
    if entry.Group? {
      AcceptedFieldsKept(entry.options, value.entries, at);
      assert Unknown(entry.options, value.entries, at) == {};
      assert ReadFields(entry.options, value.entries, at).values == value.entries;
      assert ReadGroup(entry.options, value.entries, at).dropped == multiset{};
    }
  }

  lemma {:induction false} AcceptedFieldsKept(fields: seq<Field>, values: map<string, Json>, at: seq<string>)
    requires IsDeclared(fields) && AllAccept(fields, values)
    ensures var read := ReadFields(fields, values, at);
            && read.dropped == multiset{}
            && forall key :: key in read.values <==> HasKey(fields, key)
    ensures forall key :: HasKey(fields, key) ==>
              key in values && ReadFields(fields, values, at).values[key] == values[key]
    decreases fields
  {
    if fields != [] {
      var key := fields[0].key;
      AcceptedEntryKept(fields[0].entry, values[key], at + [key]);
      AcceptedFieldsKept(fields[1..], values, at);
      forall k ensures HasKey(fields, k) <==> key == k || HasKey(fields[1..], k) {
        HasFirst(fields, k);
      }
    }
  }

  /** Reading what was read gives the same values, and drops nothing. */
  lemma ReadingAgainChangesNothing(declared: seq<Field>, given: Option<map<string, Json>>)
    requires IsDeclared(declared)
    ensures var values := ReadOptions(declared, given).values;
            ReadOptions(declared, Some(values)) == Read(values, multiset{})
  {
    var values := ReadOptions(declared, given).values;
    EveryValueIsAccepted(declared, given);
    AcceptedEntryKept(Group(declared), Object(values), []);
  }

  // The value of each option.

  function EntryAt(entry: Entry, path: seq<string>): Option<Entry>
    decreases entry
  {
    if path == [] then Some(entry)
    else if entry.Group? then OptionAt(entry.options, path)
    else None
  }

  /** The option at `path`, if one is declared there. */
  function OptionAt(fields: seq<Field>, path: seq<string>): Option<Entry>
    decreases fields
  {
    if fields == [] || path == [] then None
    else if fields[0].key == path[0] then EntryAt(fields[0].entry, path[1..])
    else OptionAt(fields[1..], path)
  }

  function Names(path: seq<string>): (r: Path)
    ensures |r| == |path|
  {
    if path == [] then [] else [Name(path[0])] + Names(path[1..])
  }

  lemma BelowName(json: Option<Json>, path: seq<string>)
    requires path != []
    ensures Below(json, Names(path)) == Below(Child(json, Name(path[0])), Names(path[1..]))
  {
    assert Names(path)[1..] == Names(path[1..]);
  }

  lemma {:induction false} EntryValue(entry: Entry, given: Option<Json>, at: seq<string>, path: seq<string>)
    requires EntryIsDeclared(entry) && EntryAt(entry, path).Some? && !EntryAt(entry, path).value.Group?
    ensures Below(Some(ReadEntry(entry, given, at).0), Names(path))
         == Some(ReadOption(EntryAt(entry, path).value, Below(given, Names(path))))
    decreases entry
  {
    if path != [] {
      BelowName(given, path);
      if given.None? || !given.value.Object? {
        NothingBelow(Names(path[1..]));
        FieldValue(entry.options, map[], if given.None? then at else [], path);
        BelowName(Some(Object(map[])), path);
      } else {
        FieldValue(entry.options, given.value.entries, at, path);
      }
    }
  }

  lemma {:induction false} FieldValue(fields: seq<Field>, given: map<string, Json>, at: seq<string>, path: seq<string>)
    requires IsDeclared(fields) && OptionAt(fields, path).Some? && !OptionAt(fields, path).value.Group?
    ensures Below(Some(Object(ReadFields(fields, given, at).values)), Names(path))
         == Some(ReadOption(OptionAt(fields, path).value, Below(Some(Object(given)), Names(path))))
    decreases fields
  {
    var key := fields[0].key;
    var values := ReadFields(fields, given, at).values;
    BelowName(Some(Object(values)), path);
    BelowName(Some(Object(given)), path);
    if key == path[0] {
      EntryValue(fields[0].entry, Given(given, key), at + [key], path[1..]);
    } else {
      FieldValue(fields[1..], given, at, path);
      BelowName(Some(Object(ReadFields(fields[1..], given, at).values)), path);
    }
  }

  /** Each option has the value given where it is, if its check accepts it, and its default otherwise. */
  lemma ValueOfEachOption(declared: seq<Field>, given: Option<map<string, Json>>, path: seq<string>)
    requires IsDeclared(declared) && OptionAt(declared, path).Some? && !OptionAt(declared, path).value.Group?
    ensures ValueAt(ReadOptions(declared, given).values, Names(path))
         == Some(ReadOption(OptionAt(declared, path).value,
                            ValueAt(if given.None? then map[] else given.value, Names(path))))
  {
    FieldValue(declared, if given.None? then map[] else given.value, [], path);
  }

  // What is reported.

  /** What is wrong at `path` in what is given for `entry`, if anything is. */
  function EntryFault(entry: Entry, given: Option<Json>, path: seq<string>): Option<Reason>
    decreases entry
  {
    if entry.Group? then
      if given.None? then GroupFault(entry.options, map[], path)
      else if given.value.Object? then GroupFault(entry.options, given.value.entries, path)
      else if path == [] then Some(NotAGroup(given.value))
      else None
    else if path != [] || given.None? || OptionProblem(entry, given.value).None? then None
    else Some(Refused(given.value, OptionProblem(entry, given.value).value))
  }

  function FieldsFault(fields: seq<Field>, given: map<string, Json>, path: seq<string>): Option<Reason>
    decreases fields, 0
  {
    if fields == [] || path == [] then None
    else if fields[0].key == path[0] then EntryFault(fields[0].entry, Given(given, path[0]), path[1..])
    else FieldsFault(fields[1..], given, path)
  }

  /** What is wrong at `path` in what is given for the options of a group. */
  function GroupFault(fields: seq<Field>, given: map<string, Json>, path: seq<string>): Option<Reason>
    decreases fields, 1
  {
    if path != [] && !HasKey(fields, path[0]) then
      if |path| == 1 && path[0] in given then Some(NoSuchOption) else None
    else FieldsFault(fields, given, path)
  }

  lemma {:induction false} EntryReported(entry: Entry, given: Option<Json>, at: seq<string>, line: Line)
    requires EntryIsDeclared(entry)
    ensures ReadEntry(entry, given, at).1[line]
         == if at <= line.path && EntryFault(entry, given, line.path[|at|..]) == Some(line.why) then 1 else 0
    decreases entry, 0
  {
    if entry.Group? && (given.None? || given.value.Object?) {
      GroupReported(entry.options, if given.None? then map[] else given.value.entries, at, line);
    } else {
      assert at <= line.path && line.path[|at|..] == [] <==> line.path == at;
    }
  }

  lemma {:induction false} NoFault(fields: seq<Field>, given: map<string, Json>, path: seq<string>)
    requires path != [] && !HasKey(fields, path[0])
    ensures FieldsFault(fields, given, path) == None
  {
    if fields != [] {
      HasFirst(fields, path[0]);
      NoFault(fields[1..], given, path);
    }
  }

  lemma {:induction false} FieldsReported(fields: seq<Field>, given: map<string, Json>, at: seq<string>, line: Line)
    requires IsDeclared(fields)
    ensures ReadFields(fields, given, at).dropped[line]
         == if at <= line.path && FieldsFault(fields, given, line.path[|at|..]) == Some(line.why) then 1 else 0
    decreases fields, 0
  {
    if fields != [] {
      var key := fields[0].key;
      EntryReported(fields[0].entry, Given(given, key), at + [key], line);
      FieldsReported(fields[1..], given, at, line);
      if at <= line.path && line.path != at {
        var path := line.path[|at|..];
        assert at + [key] <= line.path <==> path[0] == key;
        assert path[1..] == line.path[|at| + 1..];
        if path[0] == key {
          NoFault(fields[1..], given, path);
        }
      } else {
        assert !(at + [key] <= line.path);
      }
    }
  }

  lemma {:induction false} GroupReported(fields: seq<Field>, given: map<string, Json>, at: seq<string>, line: Line)
    requires IsDeclared(fields)
    ensures ReadGroup(fields, given, at).dropped[line]
         == if at <= line.path && GroupFault(fields, given, line.path[|at|..]) == Some(line.why) then 1 else 0
    decreases fields, 1
  {
    FieldsReported(fields, given, at, line);
    var lines := Unknown(fields, given, at);
    if at <= line.path && line.path != at {
      var path := line.path[|at|..];
      if !HasKey(fields, path[0]) {
        NoFault(fields, given, path);
      }
      assert line in lines ==> path == [path[0]] && path[0] in given && !HasKey(fields, path[0]);
      if |path| == 1 && path[0] in given && !HasKey(fields, path[0]) && line.why == NoSuchOption {
        assert line == Line(at + [path[0]], NoSuchOption);
      }
    } else {
      assert line !in lines;
    }
  }

  /** One line for each thing given that is not an option, or that its option refuses, and no other lines. */
  lemma DroppedAreReported(declared: seq<Field>, given: map<string, Json>, line: Line)
    requires IsDeclared(declared)
    ensures ReadOptions(declared, Some(given)).dropped[line]
         == if GroupFault(declared, given, line.path) == Some(line.why) then 1 else 0
  {
    GroupReported(declared, given, [], line);
    assert line.path[0..] == line.path;
  }
}
