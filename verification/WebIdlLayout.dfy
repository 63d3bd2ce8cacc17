/**
 * What is printed can be written as text: every token is a whole token, every
 * comment is one line, and no line comes before one it follows.
 *
 * A member takes the lines of its documentation and one more; a definition
 * takes the lines of its paragraphs, one for its heading, those of its
 * members and one for its closing brace. Each lemma puts tokens that can be
 * written from a line on before tokens that can be written from the next.
 */
module WebIdlLayout {
  import opened Basics
  import opened WebIdl
  import opened WebIdlComments
  import opened WebIdlTokens
  import opened WebIdlText
  import opened WebIdlPrinter

  /** Tokens that can be written from `line` on. */
  predicate CanBeWritten(ts: Tokens, line: int) {
    AreTokens(ts) && LaidOut(ts, line)
  }

  lemma Earlier(ts: Tokens, line: int, later: int)
    requires CanBeWritten(ts, later) && line <= later
    ensures CanBeWritten(ts, line)
  {
  }

  lemma PunctuationIsToken()
    ensures forall text :: text in ["{", "}", "(", ")", "<", ">", ";", ",", "=", "?", ":"] ==> IsTokenText(text)
  {
  }

  lemma AtWritten(text: string, line: int, rest: Tokens)
    requires IsTokenText(text) && CanBeWritten(rest, line)
    ensures CanBeWritten(At(line, text, rest), line)
  {
  }

  lemma {:induction false} WordsWritten(words: seq<string>, line: int, rest: Tokens)
    requires (forall word :: word in words ==> IsWord(word)) && CanBeWritten(rest, line)
    ensures CanBeWritten(PrintWords(words, line, rest), line)
  {
    if words != [] {
      WordsWritten(words[1..], line, rest);
    }
  }

  lemma NamesAreWords(name: string)
    requires IsTypeName(name)
    ensures forall word :: word in WordsOf(name) ==> IsWord(word)
  {
  }

  lemma {:induction false} TypeWritten(t: IdlType, line: int, rest: Tokens)
    requires IsType(t) && CanBeWritten(rest, line)
    ensures CanBeWritten(PrintType(t, line, rest), line)
  {
    hide IsTypeName, WordsOf, CanBeWritten, IsTokenText, IsWord, PrintWords;
    PunctuationIsToken();
    NamesAreWords(t.name);
    var after := PrintNullable(t.nullable, line, rest);
    if t.nullable {
      AtWritten("?", line, rest);
    }
    if t.arguments == [] {
      WordsWritten(WordsOf(t.name), line, after);
    } else {
      AtWritten(">", line, after);
      TypeWritten(t.arguments[0], line, At(line, ">", after));
      AtWritten("<", line, PrintType(t.arguments[0], line, At(line, ">", after)));
      WordsWritten(WordsOf(t.name), line, At(line, "<", PrintType(t.arguments[0], line, At(line, ">", after))));
    }
  }

  lemma TypedWritten(t: IdlType, name: string, line: int, rest: Tokens)
    requires IsType(t) && IsWord(name) && CanBeWritten(rest, line)
    ensures CanBeWritten(PrintType(t, line, At(line, name, rest)), line)
  {
    hide IsType, PrintType;
    TypeWritten(t, line, At(line, name, rest));
  }

  lemma {:induction false} ArgumentsWritten(arguments: seq<IdlArgument>, line: int, rest: Tokens)
    requires (forall a :: a in arguments ==> IsArgument(a)) && CanBeWritten(rest, line)
    ensures CanBeWritten(PrintArguments(arguments, line, rest), line)
  {
    hide IsType, PrintType, CanBeWritten, IsTokenText;
    PunctuationIsToken();
    if arguments == [] {
      AtWritten(")", line, rest);
    } else {
      var a, others := arguments[0], PrintArguments(arguments[1..], line, rest);
      assert IsArgument(a);
      ArgumentsWritten(arguments[1..], line, rest);
      AtWritten(",", line, others);
      var after := if |arguments| == 1 then others else At(line, ",", others);
      TypedWritten(a.type_, a.name, line, after);
      WordIsToken("optional");
      AtWritten("optional", line, PrintType(a.type_, line, At(line, a.name, after)));
    }
  }

  lemma WordIsToken(word: string)
    requires IsWord(word)
    ensures IsTokenText(word)
  {
  }

  // Documentation.

  lemma {:induction false} BlockInOrder(texts: seq<string>, line: int)
    ensures InOrder(Block(texts, line), line, line + |texts|)
  {
    if texts != [] {
      BlockInOrder(texts[1..], line + 1);
      assert Block(texts, line)[1..] == Block(texts[1..], line + 1);
    }
  }

  lemma {:induction false} InOrderLonger(comments: seq<Comment>, from: int, to: int, later: int)
    requires InOrder(comments, from, to) && to <= later
    ensures InOrder(comments, from, later)
  {
    if comments != [] {
      InOrderLonger(comments[1..], comments[0].line + 1, to, later);
    }
  }

  lemma {:induction false} InOrderAppend(a: seq<Comment>, b: seq<Comment>, from: int, middle: int, to: int)
    requires InOrder(a, from, middle) && InOrder(b, middle, to)
    ensures InOrder(a + b, from, to)
  {
    if a == [] {
      assert a + b == b;
    } else {
      assert (a + b)[1..] == a[1..] + b;
      InOrderAppend(a[1..], b, a[0].line + 1, middle, to);
    }
  }

  lemma {:induction false} BlocksInOrder(paragraphs: seq<seq<string>>, line: int)
    ensures InOrder(Blocks(paragraphs, line), line, line + Height(paragraphs))
  {
    hide InOrder, Guarded;
    if paragraphs == [] {
      BlockInOrder([], line);
      assert Block([], line) == [];
    } else {
      var before, last := paragraphs[..|paragraphs| - 1], Guarded(paragraphs[|paragraphs| - 1]);
      var from := line + Height(before);
      BlocksInOrder(before, line);
      BlockInOrder(last, from);
      InOrderLonger(Block(last, from), from, from + |last|, from + |last| + 1);
      InOrderAppend(Blocks(before, line), Block(last, from), line, from, from + |last| + 1);
    }
  }

  lemma {:induction false} SplitHasLines(doc: seq<string>)
    ensures forall i, j :: 0 <= i < |Split(doc)| && 0 <= j < |Split(doc)[i]| ==> Split(doc)[i][j] in doc
  {
    if doc != [] {
      SplitHasLines(doc[..|doc| - 1]);
    }
  }

  lemma {:induction false} BlocksAreLines(paragraphs: seq<seq<string>>, line: int)
    requires forall i, j :: 0 <= i < |paragraphs| && 0 <= j < |paragraphs[i]| ==> IsLine(paragraphs[i][j])
    ensures AreLines(Blocks(paragraphs, line))
  {
    if paragraphs != [] {
      var before, last := paragraphs[..|paragraphs| - 1], paragraphs[|paragraphs| - 1];
      BlocksAreLines(before, line);
      assert forall j :: 0 <= j < |Guarded(last)| ==> IsLine(Guarded(last)[j]);
    }
  }

  lemma DocWritten(doc: seq<string>, line: int)
    requires forall text :: text in doc ==> IsLine(text)
    ensures AreLines(DocComments(doc, line)) && InOrder(DocComments(doc, line), line, line + DocHeight(doc))
  {
    hide Split, Blocks, Height, InOrder;
    BlockInOrder([], line);
    SplitHasLines(doc);
    BlocksAreLines(Split(doc), line);
    BlocksInOrder(Split(doc), line);
  }

  lemma AboveWritten(comments: seq<Comment>, ts: Tokens, from: int, line: int)
    requires CanBeWritten(ts, line) && ts.More? && ts.head.line == line
    requires AreLines(comments) && InOrder(comments, from, line)
    ensures CanBeWritten(Above(comments, ts), from)
  {
  }

  lemma MemberWritten(doc: seq<string>, ts: Tokens, line: int)
    requires IsTrimmed(doc) && ts.More? && ts.head.line == line + |doc| && CanBeWritten(ts, line + |doc|)
    ensures CanBeWritten(Above(Block(doc, line), ts), line)
  {
    BlockInOrder(doc, line);
    AboveWritten(Block(doc, line), ts, line, line + |doc|);
  }

  // Members.

  lemma WordsAreTokens()
    ensures forall word :: word in ["readonly", "attribute", "EventHandler", "required", "null"] ==> IsTokenText(word)
    ensures forall word :: word in ["interface", "dictionary", "enum"] ==> IsTokenText(word)
  {
    hide IsQuoted, IsNumber, IsPunctuation;
  }

  lemma AttributeWritten(a: IdlAttribute, line: int, rest: Tokens)
    requires IsAttribute(a) && CanBeWritten(rest, line + |a.doc| + 1)
    ensures CanBeWritten(PrintAttribute(a, line, rest), line)
  {
    hide IsType, PrintType, CanBeWritten, IsTokenText, IsTrimmed, IsWord;
    var last := line + |a.doc|;
    PunctuationIsToken();
    WordsAreTokens();
    Earlier(rest, last, last + 1);
    AtWritten(";", last, rest);
    TypedWritten(a.type_, a.name, last, At(last, ";", rest));
    var typed := PrintType(a.type_, last, At(last, a.name, At(last, ";", rest)));
    AtWritten("attribute", last, typed);
    AtWritten("readonly", last, At(last, "attribute", typed));
    MemberWritten(a.doc, At(last, "readonly", At(last, "attribute", typed)), line);
  }

  lemma OperationWritten(o: IdlOperation, line: int, rest: Tokens)
    requires IsOperation(o) && CanBeWritten(rest, line + |o.doc| + 1)
    ensures CanBeWritten(PrintOperation(o, line, rest), line)
  {
    hide IsType, PrintType, CanBeWritten, IsTokenText, IsTrimmed, IsWord, PrintArguments, IsArgument;
    var last := line + |o.doc|;
    PunctuationIsToken();
    Earlier(rest, last, last + 1);
    AtWritten(";", last, rest);
    ArgumentsWritten(o.arguments, last, At(last, ";", rest));
    var listed := PrintArguments(o.arguments, last, At(last, ";", rest));
    AtWritten("(", last, listed);
    TypedWritten(o.returnType, o.name, last, At(last, "(", listed));
    MemberWritten(o.doc, PrintType(o.returnType, last, At(last, o.name, At(last, "(", listed))), line);
  }

  lemma EventWritten(e: IdlEvent, line: int, rest: Tokens)
    requires IsEvent(e) && CanBeWritten(rest, line + |e.doc| + 1)
    ensures CanBeWritten(PrintEvent(e, line, rest), line)
  {
    hide CanBeWritten, IsTokenText, IsTrimmed, IsWord;
    var last := line + |e.doc|;
    var end := At(last, ";", rest);
    var handler := At(last, "EventHandler", At(last, "on" + e.name, end));
    PunctuationIsToken();
    WordsAreTokens();
    WordIsToken("on" + e.name);
    Earlier(rest, last, last + 1);
    AtWritten(";", last, rest);
    AtWritten("on" + e.name, last, end);
    AtWritten("EventHandler", last, At(last, "on" + e.name, end));
    AtWritten("attribute", last, handler);
    MemberWritten(e.doc, At(last, "attribute", handler), line);
  }

  lemma {:induction false} EventsWritten(events: seq<IdlEvent>, line: int, rest: Tokens)
    requires (forall e :: e in events ==> IsEvent(e)) && CanBeWritten(rest, EventsEnd(events, line))
    ensures CanBeWritten(PrintEvents(events, line, rest), line)
  {
    hide IsEvent, CanBeWritten, PrintEvent;
    if events != [] {
      var next := line + |events[0].doc| + 1;
      EventsWritten(events[1..], next, rest);
      EventWritten(events[0], line, PrintEvents(events[1..], next, rest));
    }
  }

  lemma {:induction false} OperationsWritten(operations: seq<IdlOperation>, line: int, rest: Tokens)
    requires (forall o :: o in operations ==> IsOperation(o)) && CanBeWritten(rest, OperationsEnd(operations, line))
    ensures CanBeWritten(PrintOperations(operations, line, rest), line)
  {
    hide IsOperation, CanBeWritten, PrintOperation;
    if operations != [] {
      var next := line + |operations[0].doc| + 1;
      OperationsWritten(operations[1..], next, rest);
      OperationWritten(operations[0], line, PrintOperations(operations[1..], next, rest));
    }
  }

  lemma {:induction false} AttributesWritten(attributes: seq<IdlAttribute>, line: int, rest: Tokens)
    requires (forall a :: a in attributes ==> IsAttribute(a)) && CanBeWritten(rest, AttributesEnd(attributes, line))
    ensures CanBeWritten(PrintAttributes(attributes, line, rest), line)
  {
    hide IsAttribute, CanBeWritten, PrintAttribute;
    if attributes != [] {
      var next := line + |attributes[0].doc| + 1;
      AttributesWritten(attributes[1..], next, rest);
      AttributeWritten(attributes[0], line, PrintAttributes(attributes[1..], next, rest));
    }
  }

  lemma MembersWritten(m: Members, line: int, rest: Tokens)
    requires AreMembers(m) && CanBeWritten(rest, MembersEnd(m, line))
    ensures CanBeWritten(PrintMembers(m, line, rest), line)
  {
    hide IsAttribute, IsOperation, IsEvent, CanBeWritten, PrintAttributes, PrintOperations, PrintEvents;
    var operations := AttributesEnd(m.attributes, line);
    var events := OperationsEnd(m.operations, operations);
    EventsWritten(m.events, events, rest);
    OperationsWritten(m.operations, operations, PrintEvents(m.events, events, rest));
    AttributesWritten(m.attributes, line,
                      PrintOperations(m.operations, operations, PrintEvents(m.events, events, rest)));
  }

  // Definitions.

  lemma ClosingWritten(line: int, rest: Tokens)
    requires CanBeWritten(rest, line)
    ensures CanBeWritten(PrintClosing(line, rest), line)
  {
    hide CanBeWritten, IsTokenText;
    PunctuationIsToken();
    AtWritten(";", line, rest);
    AtWritten("}", line, At(line, ";", rest));
  }

  lemma HeadingWritten(doc: seq<string>, keyword: string, name: string, inherits: Option<string>, line: int,
                       rest: Tokens)
    requires IsHeading(doc, name, inherits) && IsTokenText(keyword) && CanBeWritten(rest, line + DocHeight(doc))
    ensures CanBeWritten(PrintHeading(doc, keyword, name, inherits, line, rest), line)
  {
    hide CanBeWritten, IsTokenText, IsWord, IsLine, DocComments, AreLines, InOrder;
    var last := line + DocHeight(doc);
    var body := At(last, "{", rest);
    PunctuationIsToken();
    AtWritten("{", last, rest);
    if inherits.Some? {
      WordIsToken(inherits.value);
      AtWritten(inherits.value, last, body);
      AtWritten(":", last, At(last, inherits.value, body));
    }
    var tail := if inherits.Some? then At(last, ":", At(last, inherits.value, body)) else body;
    WordIsToken(name);
    AtWritten(name, last, tail);
    AtWritten(keyword, last, At(last, name, tail));
    DocWritten(doc, line);
    AboveWritten(DocComments(doc, line), At(last, keyword, At(last, name, tail)), line, last);
  }

  lemma InterfaceWritten(i: IdlInterface, line: int, rest: Tokens)
    requires IsInterface(i) && CanBeWritten(rest, InterfaceEnd(i, line))
    ensures CanBeWritten(PrintInterface(i, line, rest), line)
  {
    hide IsHeading, AreMembers, CanBeWritten, IsTokenText, PrintMembers, MembersEnd, DocHeight, PrintHeading;
    var first := line + DocHeight(i.doc) + 1;
    var close := MembersEnd(i.members, first);
    WordsAreTokens();
    Earlier(rest, close, close + 1);
    ClosingWritten(close, rest);
    MembersWritten(i.members, first, PrintClosing(close, rest));
    var body := PrintMembers(i.members, first, PrintClosing(close, rest));
    Earlier(body, first - 1, first);
    HeadingWritten(i.doc, "interface", i.name, i.inherits, line, body);
  }

  lemma DictionaryMemberWritten(m: IdlDictionaryMember, line: int, rest: Tokens)
    requires IsDictionaryMember(m) && CanBeWritten(rest, line + |m.doc| + 1)
    ensures CanBeWritten(PrintDictionaryMember(m, line, rest), line)
  {
    hide IsType, PrintType, CanBeWritten, IsTokenText, IsTrimmed, IsWord;
    var last := line + |m.doc|;
    PunctuationIsToken();
    WordsAreTokens();
    Earlier(rest, last, last + 1);
    AtWritten(";", last, rest);
    var end := At(last, ";", rest);
    AtWritten("null", last, end);
    AtWritten("=", last, At(last, "null", end));
    var after := if m.defaulted then At(last, "=", At(last, "null", end)) else end;
    TypedWritten(m.type_, m.name, last, after);
    var typed := PrintType(m.type_, last, At(last, m.name, after));
    AtWritten("required", last, typed);
    MemberWritten(m.doc, if m.required then At(last, "required", typed) else typed, line);
  }

  lemma {:induction false} DictionaryMembersWritten(members: seq<IdlDictionaryMember>, line: int, rest: Tokens)
    requires forall m :: m in members ==> IsDictionaryMember(m)
    requires CanBeWritten(rest, DictionaryMembersEnd(members, line))
    ensures CanBeWritten(PrintDictionaryMembers(members, line, rest), line)
  {
    hide IsDictionaryMember, CanBeWritten, PrintDictionaryMember;
    if members != [] {
      var next := line + |members[0].doc| + 1;
      DictionaryMembersWritten(members[1..], next, rest);
      DictionaryMemberWritten(members[0], line, PrintDictionaryMembers(members[1..], next, rest));
    }
  }

  lemma DictionaryWritten(d: IdlDictionary, line: int, rest: Tokens)
    requires IsDictionary(d) && CanBeWritten(rest, DictionaryEnd(d, line))
    ensures CanBeWritten(PrintDictionary(d, line, rest), line)
  {
    hide IsHeading, IsDictionaryMember, CanBeWritten, IsTokenText, PrintDictionaryMembers,
      DictionaryMembersEnd, DocHeight, PrintHeading;
    var first := line + DocHeight(d.doc) + 1;
    var close := DictionaryMembersEnd(d.members, first);
    WordsAreTokens();
    Earlier(rest, close, close + 1);
    ClosingWritten(close, rest);
    DictionaryMembersWritten(d.members, first, PrintClosing(close, rest));
    var body := PrintDictionaryMembers(d.members, first, PrintClosing(close, rest));
    Earlier(body, first - 1, first);
    HeadingWritten(d.doc, "dictionary", d.name, d.inherits, line, body);
  }

  lemma QuotedIsToken(value: string)
    requires IsQuotable(value)
    ensures IsTokenText(Quoted(value))
  {
    assert Unquoted(Quoted(value)) == value;
  }

  lemma {:induction false} ValuesWritten(values: seq<string>, line: int, rest: Tokens)
    requires (forall value :: value in values ==> IsQuotable(value)) && CanBeWritten(rest, line)
    ensures CanBeWritten(PrintValues(values, line, rest), line)
  {
    hide IsQuotable, Quoted, CanBeWritten, IsTokenText;
    if values != [] {
      var others := PrintValues(values[1..], line, rest);
      PunctuationIsToken();
      ValuesWritten(values[1..], line, rest);
      AtWritten(",", line, others);
      QuotedIsToken(values[0]);
      AtWritten(Quoted(values[0]), line, if |values| == 1 then others else At(line, ",", others));
    }
  }

  lemma EnumWritten(e: IdlEnum, line: int, rest: Tokens)
    requires IsEnum(e) && CanBeWritten(rest, EnumEnd(e, line))
    ensures CanBeWritten(PrintEnum(e, line, rest), line)
  {
    hide IsHeading, IsQuotable, CanBeWritten, IsTokenText, PrintValues, DocHeight, PrintHeading;
    var last := line + DocHeight(e.doc);
    WordsAreTokens();
    Earlier(rest, last, last + 1);
    ClosingWritten(last, rest);
    ValuesWritten(e.values, last, PrintClosing(last, rest));
    HeadingWritten(e.doc, "enum", e.name, None, line, PrintValues(e.values, last, PrintClosing(last, rest)));
  }

  lemma {:induction false} InterfacesWritten(interfaces: seq<IdlInterface>, line: int)
    requires forall i :: i in interfaces ==> IsInterface(i)
    ensures CanBeWritten(PrintInterfaces(interfaces, line), line)
  {
    hide IsInterface, PrintInterface, InterfaceEnd;
    if interfaces != [] {
      var next := InterfaceEnd(interfaces[0], line);
      InterfacesWritten(interfaces[1..], next);
      InterfaceWritten(interfaces[0], line, PrintInterfaces(interfaces[1..], next));
    }
  }

  lemma {:induction false} EnumsWritten(enums: seq<IdlEnum>, line: int, rest: Tokens)
    requires (forall e :: e in enums ==> IsEnum(e)) && CanBeWritten(rest, EnumsEnd(enums, line))
    ensures CanBeWritten(PrintEnums(enums, line, rest), line)
  {
    hide IsEnum, PrintEnum, EnumEnd, CanBeWritten;
    if enums != [] {
      var next := EnumEnd(enums[0], line);
      EnumsWritten(enums[1..], next, rest);
      EnumWritten(enums[0], line, PrintEnums(enums[1..], next, rest));
    }
  }

  lemma {:induction false} DictionariesWritten(dictionaries: seq<IdlDictionary>, line: int, rest: Tokens)
    requires forall d :: d in dictionaries ==> IsDictionary(d)
    requires CanBeWritten(rest, DictionariesEnd(dictionaries, line))
    ensures CanBeWritten(PrintDictionaries(dictionaries, line, rest), line)
  {
    hide IsDictionary, PrintDictionary, DictionaryEnd, CanBeWritten;
    if dictionaries != [] {
      var next := DictionaryEnd(dictionaries[0], line);
      DictionariesWritten(dictionaries[1..], next, rest);
      DictionaryWritten(dictionaries[0], line, PrintDictionaries(dictionaries[1..], next, rest));
    }
  }

  lemma PrintWritten(idl: Idl)
    requires IsIdl(idl)
    ensures CanBeWritten(Print(idl), 1)
  {
    hide IsInterface, IsEnum, IsDictionary, PrintInterfaces, PrintEnums, PrintDictionaries, CanBeWritten;
    var enums := DictionariesEnd(idl.dictionaries, 1);
    var interfaces := EnumsEnd(idl.enums, enums);
    InterfacesWritten(idl.interfaces, interfaces);
    EnumsWritten(idl.enums, enums, PrintInterfaces(idl.interfaces, interfaces));
    DictionariesWritten(idl.dictionaries, 1, PrintEnums(idl.enums, enums, PrintInterfaces(idl.interfaces, interfaces)));
  }
}
