/**
 * Parsing the tokens of definitions gives those definitions.
 *
 * For each thing that is printed, from types to whole definitions, a lemma says
 * that parsing what is printed for it, with anything after it, gives it back
 * and leaves what was after it. Lists go by induction over what is printed
 * first.
 */
module WebIdlRoundTrip {
  import opened Basics
  import opened WebIdl
  import opened WebIdlComments
  import opened WebIdlPrinter
  import opened WebIdlTokens

  /** Whether a token after the type `t` is not read as part of it. */
  predicate Ends(t: IdlType, ts: Tokens) {
    && ts.More?
    && ts.head.text != "<" && ts.head.text != "?"
    && !(ts.head.text == "long" && t.name in ["long", "unsigned long"] && t.arguments == [] && !t.nullable)
  }

  /** The words of a type named by more than one, and what they are joined to. */
  lemma WordsJoined(name: string)
    requires name in MULTI_WORD_NAMES
    ensures var words := MULTI_WORD_NAMES[name];
            && 2 <= |words| <= 3
            && (words[0] == "long" <==> name == "long long")
            && (words[0] != "long" ==> words[0] in MULTI_WORD_TYPES && words[1] in MULTI_WORD_TYPES[words[0]])
            && (words[0] == "long" ==> words == ["long", "long"])
            && (|words| == 3 ==> words[1..] == ["long", "long"])
            && name == words[0] + " " + words[1] + (if |words| == 3 then " long" else "")
            && (words[1] == "long" && |words| == 2 ==> name in ["unsigned long", "long long"])
  {
    MultiWordNames();
  }

  lemma PrintedWords(words: seq<string>, line: int, rest: Tokens)
    requires 2 <= |words| <= 3
    ensures PrintWords(words, line, rest)
         == At(line, words[0], At(line, words[1], if |words| == 3 then At(line, words[2], rest) else rest))
  {
    var last := words[1..][1..];
    assert last == words[2..];
    assert PrintWords(last, line, rest) == if |words| == 3 then At(line, words[2], rest) else rest;
  }

  lemma WordsParsed(name: string, line: int, rest: Tokens)
    requires IsTypeName(name) && rest.More?
    requires !(rest.head.text == "long" && name in ["long", "unsigned long"])
    ensures TypeName(PrintWords(WordsOf(name), line, rest)) == Parsed(name, rest)
  {
    if name in MULTI_WORD_NAMES {
      var words := MULTI_WORD_NAMES[name];
      WordsJoined(name);
      MultiWordNames();
      PrintedWords(words, line, rest);
    }
  }

  lemma {:induction false} TypeParsed(t: IdlType, line: int, rest: Tokens)
    requires IsType(t) && Ends(t, rest)
    ensures Type(PrintType(t, line, rest)) == Parsed(t, rest)
  {
    var after := PrintNullable(t.nullable, line, rest);
    if t.arguments == [] {
      WordsParsed(t.name, line, after);
    } else {
      var closed := At(line, ">", after);
      TypeParsed(t.arguments[0], line, closed);
      assert t.arguments == [t.arguments[0]];
      WordsParsed(t.name, line, At(line, "<", PrintType(t.arguments[0], line, closed)));
    }
  }

  lemma TypeAbove(ts: Tokens, comments: seq<Comment>)
    requires Type(ts).Parsed?
    ensures Type(Above(comments, ts)) == Type(ts)
  {
  }

  lemma FirstWord(name: string)
    requires IsTypeName(name)
    ensures IsIdentifier(WordsOf(name)[0])
  {
  }

  // Operations.

  lemma ArgumentParsed(a: IdlArgument, line: int, comma: bool, rest: Tokens)
    requires IsArgument(a) && rest.More? && (!comma ==> rest.head.text == ")")
    ensures var named := At(line, a.name, if comma then At(line, ",", rest) else rest);
            var typed := PrintType(a.type_, line, named);
            Argument(if a.optional then At(line, "optional", typed) else typed) == Parsed(a, rest)
  {
    TypeParsed(a.type_, line, At(line, a.name, if comma then At(line, ",", rest) else rest));
  }

  lemma {:induction false} ArgumentListParsed(arguments: seq<IdlArgument>, line: int, rest: Tokens)
    requires forall a :: a in arguments ==> IsArgument(a)
    ensures PrintArguments(arguments, line, rest).More?
    ensures ArgumentList(PrintArguments(arguments, line, rest)) == Parsed(arguments, At(line, ")", rest))
  {
    if arguments != [] {
      var a, others := arguments[0], PrintArguments(arguments[1..], line, rest);
      ArgumentListParsed(arguments[1..], line, rest);
      ArgumentParsed(a, line, |arguments| > 1, others);
      FirstWord(a.type_.name);
      assert arguments == [a] + arguments[1..];
    }
  }

  /** An operation, from how its parts are read. */
  lemma OperationRead(ts: Tokens, o: IdlOperation, named: Tokens, line: int, listed: Tokens, rest: Tokens)
    requires ts.More? && ts.head.text !in ["[", "constructor", "readonly", "attribute"]
    requires Type(ts) == Parsed(o.returnType, At(line, o.name, At(line, "(", listed))) && IsIdentifier(o.name)
    requires ArgumentList(listed) == Parsed(o.arguments, At(line, ")", rest))
    requires MemberDoc(ts.head) == o.doc
    ensures Member(ts) == Parsed(NONE.(operations := [o]), rest)
  {
  }

  lemma OperationParsed(o: IdlOperation, line: int, rest: Tokens)
    requires IsOperation(o)
    ensures PrintOperation(o, line, rest).More? && PrintOperation(o, line, rest).head.text != "}"
    ensures Member(PrintOperation(o, line, rest)) == Parsed(NONE.(operations := [o]), At(line + |o.doc|, ";", rest))
  {
    hide Member, ArgumentList, Type, MemberDoc, PrintType, PrintArguments, IsArgument;
    var last := line + |o.doc|;
    var end := At(last, ";", rest);
    var listed := PrintArguments(o.arguments, last, end);
    var named := At(last, o.name, At(last, "(", listed));
    var typed := PrintType(o.returnType, last, named);
    ArgumentListParsed(o.arguments, last, end);
    TypeParsed(o.returnType, last, named);
    TypeAbove(typed, Block(o.doc, line));
    FirstWord(o.returnType.name);
    MemberDocRead(o.doc, line, typed.head.text);
    OperationRead(PrintOperation(o, line, rest), o, named, last, listed, end);
  }

  /** An attribute, from how its parts are read. */
  lemma AttributeRead(ts: Tokens, a: IdlAttribute, line: int, typed: Tokens, rest: Tokens)
    requires ts.More? && ts.head.text == "readonly" && ts.tail == At(line, "attribute", typed)
    requires Type(typed) == Parsed(a.type_, At(line, a.name, rest)) && IsIdentifier(a.name)
    requires MemberDoc(ts.head) == a.doc
    ensures Member(ts) == Parsed(NONE.(attributes := [a]), rest)
  {
  }

  lemma AttributeParsed(a: IdlAttribute, line: int, rest: Tokens)
    requires IsAttribute(a)
    ensures PrintAttribute(a, line, rest).More? && PrintAttribute(a, line, rest).head.text != "}"
    ensures Member(PrintAttribute(a, line, rest)) == Parsed(NONE.(attributes := [a]), At(line + |a.doc|, ";", rest))
  {
    hide Member, Type, PrintType, MemberDoc;
    var last := line + |a.doc|;
    var end := At(last, ";", rest);
    var typed := PrintType(a.type_, last, At(last, a.name, end));
    TypeParsed(a.type_, last, At(last, a.name, end));
    MemberDocRead(a.doc, line, "readonly");
    AttributeRead(PrintAttribute(a, line, rest), a, last, typed, end);
  }

  lemma EventParsed(e: IdlEvent, line: int, rest: Tokens)
    requires IsEvent(e)
    ensures PrintEvent(e, line, rest).More? && PrintEvent(e, line, rest).head.text != "}"
    ensures Member(PrintEvent(e, line, rest)) == Parsed(NONE.(events := [e]), At(line + |e.doc|, ";", rest))
  {
    MemberDocRead(e.doc, line, "attribute");
    assert ("on" + e.name)[2..] == e.name;
  }

  // Lists of members, and what is parsed after them.

  lemma MemberAdded(member: Members, ts: Tokens, line: int, rest: Tokens)
    requires ts.More? && ts.head.text != "}" && Member(ts) == Parsed(member, At(line, ";", rest))
    ensures MemberList(ts) == AfterMembers(member, MemberList(rest))
  {
  }

  lemma {:induction false} EventsParsed(events: seq<IdlEvent>, line: int, rest: Tokens)
    requires forall e :: e in events ==> IsEvent(e)
    ensures MemberList(PrintEvents(events, line, rest)) == AfterMembers(NONE.(events := events), MemberList(rest))
  {
    hide Member, MemberList, IsEvent, PrintEvent;
    if events == [] {
      AfterNoMembers(MemberList(rest));
    } else {
      var e, next := events[0], line + |events[0].doc| + 1;
      var others := PrintEvents(events[1..], next, rest);
      EventsParsed(events[1..], next, rest);
      EventParsed(e, line, others);
      MemberAdded(NONE.(events := [e]), PrintEvent(e, line, others), line + |e.doc|, others);
      assert Both(NONE.(events := [e]), NONE.(events := events[1..])) == NONE.(events := events);
      AfterMember(NONE.(events := [e]), NONE.(events := events[1..]), MemberList(rest));
    }
  }

  lemma {:induction false} OperationsParsed(operations: seq<IdlOperation>, line: int, rest: Tokens)
    requires forall o :: o in operations ==> IsOperation(o)
    ensures MemberList(PrintOperations(operations, line, rest))
         == AfterMembers(NONE.(operations := operations), MemberList(rest))
  {
    hide Member, MemberList, IsOperation, PrintOperation;
    if operations == [] {
      AfterNoMembers(MemberList(rest));
    } else {
      var o, next := operations[0], line + |operations[0].doc| + 1;
      var others := PrintOperations(operations[1..], next, rest);
      OperationsParsed(operations[1..], next, rest);
      OperationParsed(o, line, others);
      MemberAdded(NONE.(operations := [o]), PrintOperation(o, line, others), line + |o.doc|, others);
      assert Both(NONE.(operations := [o]), NONE.(operations := operations[1..])) == NONE.(operations := operations);
      AfterMember(NONE.(operations := [o]), NONE.(operations := operations[1..]), MemberList(rest));
    }
  }

  lemma {:induction false} AttributesParsed(attributes: seq<IdlAttribute>, line: int, rest: Tokens)
    requires forall a :: a in attributes ==> IsAttribute(a)
    ensures MemberList(PrintAttributes(attributes, line, rest))
         == AfterMembers(NONE.(attributes := attributes), MemberList(rest))
  {
    hide Member, MemberList, IsAttribute, PrintAttribute;
    if attributes == [] {
      AfterNoMembers(MemberList(rest));
    } else {
      var a, next := attributes[0], line + |attributes[0].doc| + 1;
      var others := PrintAttributes(attributes[1..], next, rest);
      AttributesParsed(attributes[1..], next, rest);
      AttributeParsed(a, line, others);
      MemberAdded(NONE.(attributes := [a]), PrintAttribute(a, line, others), line + |a.doc|, others);
      assert Both(NONE.(attributes := [a]), NONE.(attributes := attributes[1..])) == NONE.(attributes := attributes);
      AfterMember(NONE.(attributes := [a]), NONE.(attributes := attributes[1..]), MemberList(rest));
    }
  }

  lemma NoMembersLeft(close: int, rest: Tokens)
    ensures MemberList(PrintClosing(close, rest)) == Parsed(NONE, PrintClosing(close, rest))
  {
  }

  lemma MembersParsed(m: Members, line: int, close: int, rest: Tokens)
    requires AreMembers(m)
    ensures MemberList(PrintMembers(m, line, PrintClosing(close, rest))) == Parsed(m, PrintClosing(close, rest))
  {
    hide Member, MemberList, PrintEvents, PrintOperations, PrintAttributes;
    NoMembersLeft(close, rest);
    var end := PrintClosing(close, rest);
    var operations := AttributesEnd(m.attributes, line);
    var events := OperationsEnd(m.operations, operations);
    EventsParsed(m.events, events, end);
    OperationsParsed(m.operations, operations, PrintEvents(m.events, events, end));
    AttributesParsed(m.attributes, line, PrintOperations(m.operations, operations, PrintEvents(m.events, events, end)));
    var methods := Both(NONE.(operations := m.operations), NONE.(events := m.events));
    var parts := Both(NONE.(attributes := m.attributes), methods);
    assert Both(NONE.(events := m.events), NONE) == NONE.(events := m.events);
    assert parts == m;
  }

  // Definitions.

  lemma HeadingParsed(doc: seq<string>, keyword: string, name: string, inherits: Option<string>, line: int,
                      rest: Tokens)
    requires IsHeading(doc, name, inherits)
    ensures var ts := PrintHeading(doc, keyword, name, inherits, line, rest);
            && ts.More? && ts.head.text == keyword && DefinitionDoc(ts.head.comments) == doc
            && var named := Identifier(ts.tail);
               && named.Parsed? && named.value == name
               && Inheritance(named.rest) == Parsed(inherits, At(line + DocHeight(doc), "{", rest))
  {
    DefinitionDocRead(doc, line);
  }

  /** An interface, from how its parts are read. */
  lemma InterfaceRead(ts: Tokens, i: IdlInterface, line: int, body: Tokens, close: int, rest: Tokens)
    requires ts.More? && ts.head.text == "interface" && DefinitionDoc(ts.head.comments) == i.doc
    requires var named := Identifier(ts.tail);
             && named.Parsed? && named.value == i.name
             && Inheritance(named.rest) == Parsed(i.inherits, At(line, "{", body))
    requires MemberList(body) == Parsed(i.members, PrintClosing(close, rest))
    ensures Definition(ts) == Parsed(EMPTY.(interfaces := [i]), rest)
  {
    assert Closing(PrintClosing(close, rest)) == Parsed((), rest);
    assert Interface(ts.tail, i.doc) == Parsed(i, rest);
  }

  lemma InterfaceParsed(i: IdlInterface, line: int, rest: Tokens)
    requires IsInterface(i)
    ensures Definition(PrintInterface(i, line, rest)) == Parsed(EMPTY.(interfaces := [i]), rest)
  {
    hide Definition, MemberList, DefinitionDoc, PrintMembers, AreMembers, DocComments;
    var first := line + DocHeight(i.doc) + 1;
    var close := MembersEnd(i.members, first);
    var body := PrintMembers(i.members, first, PrintClosing(close, rest));
    MembersParsed(i.members, first, close, rest);
    HeadingParsed(i.doc, "interface", i.name, i.inherits, line, body);
    InterfaceRead(PrintInterface(i, line, rest), i, first - 1, body, close, rest);
  }

  lemma DictionaryMemberParsed(m: IdlDictionaryMember, line: int, rest: Tokens)
    requires IsDictionaryMember(m)
    ensures var ts := PrintDictionaryMember(m, line, rest);
            ts.More? && ts.head.text != "}" && DictionaryMember(ts) == Parsed(m, rest)
  {
    hide Type, PrintType, MemberDoc;
    var last := line + |m.doc|;
    var end := At(last, ";", rest);
    var named := At(last, m.name, if m.defaulted then At(last, "=", At(last, "null", end)) else end);
    var typed := PrintType(m.type_, last, named);
    TypeParsed(m.type_, last, named);
    TypeAbove(typed, Block(m.doc, line));
    FirstWord(m.type_.name);
    MemberDocRead(m.doc, line, if m.required then "required" else typed.head.text);
  }

  lemma {:induction false} DictionaryMembersParsed(members: seq<IdlDictionaryMember>, line: int, close: int,
                                                   rest: Tokens)
    requires forall m :: m in members ==> IsDictionaryMember(m)
    ensures DictionaryMemberList(PrintDictionaryMembers(members, line, PrintClosing(close, rest)))
         == Parsed(members, PrintClosing(close, rest))
  {
    hide DictionaryMember, PrintDictionaryMember, IsDictionaryMember;
    if members != [] {
      var next := line + |members[0].doc| + 1;
      DictionaryMembersParsed(members[1..], next, close, rest);
      DictionaryMemberParsed(members[0], line, PrintDictionaryMembers(members[1..], next, PrintClosing(close, rest)));
      assert members == [members[0]] + members[1..];
    }
  }

  /** A dictionary, from how its parts are read. */
  lemma DictionaryRead(ts: Tokens, d: IdlDictionary, line: int, body: Tokens, close: int, rest: Tokens)
    requires ts.More? && ts.head.text == "dictionary" && DefinitionDoc(ts.head.comments) == d.doc
    requires var named := Identifier(ts.tail);
             && named.Parsed? && named.value == d.name
             && Inheritance(named.rest) == Parsed(d.inherits, At(line, "{", body))
    requires DictionaryMemberList(body) == Parsed(d.members, PrintClosing(close, rest))
    ensures Definition(ts) == Parsed(EMPTY.(dictionaries := [d]), rest)
  {
    assert Closing(PrintClosing(close, rest)) == Parsed((), rest);
    assert Dictionary(ts.tail, d.doc) == Parsed(d, rest);
  }

  lemma DictionaryParsed(d: IdlDictionary, line: int, rest: Tokens)
    requires IsDictionary(d)
    ensures Definition(PrintDictionary(d, line, rest)) == Parsed(EMPTY.(dictionaries := [d]), rest)
  {
    hide Definition, DictionaryMemberList, DefinitionDoc, PrintDictionaryMembers, IsDictionaryMember, DocComments;
    var first := line + DocHeight(d.doc) + 1;
    var close := DictionaryMembersEnd(d.members, first);
    var body := PrintDictionaryMembers(d.members, first, PrintClosing(close, rest));
    DictionaryMembersParsed(d.members, first, close, rest);
    HeadingParsed(d.doc, "dictionary", d.name, d.inherits, line, body);
    DictionaryRead(PrintDictionary(d, line, rest), d, first - 1, body, close, rest);
  }

  lemma {:induction false} ValuesParsed(values: seq<string>, line: int, rest: Tokens)
    ensures PrintValues(values, line, PrintClosing(line, rest)).More?
    ensures ValueList(PrintValues(values, line, PrintClosing(line, rest))) == Parsed(values, PrintClosing(line, rest))
  {
    if values != [] {
      ValuesParsed(values[1..], line, rest);
      assert Unquoted(Quoted(values[0])) == values[0];
      assert values == [values[0]] + values[1..];
    }
  }

  /** An enum, from how its parts are read. */
  lemma EnumRead(ts: Tokens, e: IdlEnum, line: int, body: Tokens, rest: Tokens)
    requires ts.More? && ts.head.text == "enum" && DefinitionDoc(ts.head.comments) == e.doc
    requires Identifier(ts.tail) == Parsed(e.name, At(line, "{", body))
    requires ValueList(body) == Parsed(e.values, PrintClosing(line, rest))
    ensures Definition(ts) == Parsed(EMPTY.(enums := [e]), rest)
  {
    assert Closing(PrintClosing(line, rest)) == Parsed((), rest);
    assert Enum(ts.tail, e.doc) == Parsed(e, rest);
  }

  lemma EnumParsed(e: IdlEnum, line: int, rest: Tokens)
    requires IsEnum(e)
    ensures Definition(PrintEnum(e, line, rest)) == Parsed(EMPTY.(enums := [e]), rest)
  {
    hide Definition, ValueList, DefinitionDoc, PrintValues, DocComments;
    var last := line + DocHeight(e.doc);
    var body := PrintValues(e.values, last, PrintClosing(last, rest));
    ValuesParsed(e.values, last, rest);
    HeadingParsed(e.doc, "enum", e.name, None, line, body);
    EnumRead(PrintEnum(e, line, rest), e, last, body, rest);
  }

  lemma DefinitionAdded(definition: Idl, ts: Tokens, rest: Tokens)
    requires Definition(ts) == Parsed(definition, rest)
    ensures Definitions(ts) == AfterDefinitions(definition, Definitions(rest))
  {
  }

  lemma {:induction false} InterfacesParsed(interfaces: seq<IdlInterface>, line: int)
    requires forall i :: i in interfaces ==> IsInterface(i)
    ensures Definitions(PrintInterfaces(interfaces, line)) == Parsed(EMPTY.(interfaces := interfaces), End)
  {
    hide Definition, PrintInterface, IsInterface;
    if interfaces != [] {
      var i, next := interfaces[0], InterfaceEnd(interfaces[0], line);
      var others := PrintInterfaces(interfaces[1..], next);
      InterfacesParsed(interfaces[1..], next);
      InterfaceParsed(i, line, others);
      DefinitionAdded(EMPTY.(interfaces := [i]), PrintInterface(i, line, others), others);
      assert Together(EMPTY.(interfaces := [i]), EMPTY.(interfaces := interfaces[1..]))
          == EMPTY.(interfaces := interfaces);
    }
  }

  lemma {:induction false} EnumsParsed(enums: seq<IdlEnum>, line: int, rest: Tokens)
    requires forall e :: e in enums ==> IsEnum(e)
    ensures Definitions(PrintEnums(enums, line, rest)) == AfterDefinitions(EMPTY.(enums := enums), Definitions(rest))
  {
    hide Definition, Definitions, PrintEnum, IsEnum;
    if enums == [] {
      AfterNoDefinitions(Definitions(rest));
    } else {
      var e, next := enums[0], EnumEnd(enums[0], line);
      var others := PrintEnums(enums[1..], next, rest);
      EnumsParsed(enums[1..], next, rest);
      EnumParsed(e, line, others);
      DefinitionAdded(EMPTY.(enums := [e]), PrintEnum(e, line, others), others);
      assert Together(EMPTY.(enums := [e]), EMPTY.(enums := enums[1..])) == EMPTY.(enums := enums);
      AfterDefinition(EMPTY.(enums := [e]), EMPTY.(enums := enums[1..]), Definitions(rest));
    }
  }

  lemma {:induction false} DictionariesParsed(dictionaries: seq<IdlDictionary>, line: int, rest: Tokens)
    requires forall d :: d in dictionaries ==> IsDictionary(d)
    ensures Definitions(PrintDictionaries(dictionaries, line, rest))
         == AfterDefinitions(EMPTY.(dictionaries := dictionaries), Definitions(rest))
  {
    hide Definition, Definitions, PrintDictionary, IsDictionary;
    if dictionaries == [] {
      AfterNoDefinitions(Definitions(rest));
    } else {
      var d, next := dictionaries[0], DictionaryEnd(dictionaries[0], line);
      var others := PrintDictionaries(dictionaries[1..], next, rest);
      DictionariesParsed(dictionaries[1..], next, rest);
      DictionaryParsed(d, line, others);
      DefinitionAdded(EMPTY.(dictionaries := [d]), PrintDictionary(d, line, others), others);
      assert Together(EMPTY.(dictionaries := [d]), EMPTY.(dictionaries := dictionaries[1..]))
          == EMPTY.(dictionaries := dictionaries);
      AfterDefinition(EMPTY.(dictionaries := [d]), EMPTY.(dictionaries := dictionaries[1..]), Definitions(rest));
    }
  }

  /** Parsing undoes printing. */
  lemma PrintedIsParsed(idl: Idl)
    requires IsIdl(idl)
    ensures Definitions(Print(idl)) == Parsed(idl, End)
  {
    hide Definition, Definitions, PrintDictionaries, PrintEnums, PrintInterfaces, IsDictionary, IsEnum, IsInterface;
    var first := DictionariesEnd(idl.dictionaries, 1);
    var second := EnumsEnd(idl.enums, first);
    InterfacesParsed(idl.interfaces, second);
    EnumsParsed(idl.enums, first, PrintInterfaces(idl.interfaces, second));
    DictionariesParsed(idl.dictionaries, 1, PrintEnums(idl.enums, first, PrintInterfaces(idl.interfaces, second)));
    assert Together(EMPTY.(enums := idl.enums), EMPTY.(interfaces := idl.interfaces)) == idl.(dictionaries := []);
    assert Together(EMPTY.(dictionaries := idl.dictionaries), idl.(dictionaries := [])) == idl;
  }

  // What is dropped.

  /** Extended attributes are passed over, whatever is in them. */
  lemma {:induction false} AttributesAreSkipped(inside: seq<string>, line: int, rest: Tokens)
    requires "]" !in inside
    ensures ThroughBracket(PrintWords(inside, line, At(line, "]", rest))) == Parsed((), rest)
    ensures SkipExtendedAttributes(At(line, "[", PrintWords(inside, line, At(line, "]", rest)))) == Parsed((), rest)
    decreases |inside|
  {
    if inside != [] {
      AttributesAreSkipped(inside[1..], line, rest);
    }
  }

  /** A constructor adds nothing. */
  lemma ConstructorIsDropped(arguments: seq<IdlArgument>, line: int, rest: Tokens)
    requires forall a :: a in arguments ==> IsArgument(a)
    ensures var end := At(line, ";", rest);
            MemberList(At(line, "constructor", At(line, "(", PrintArguments(arguments, line, end)))) == MemberList(rest)
  {
    hide ArgumentList, PrintArguments, Member, MemberList, IsArgument;
    var end := At(line, ";", rest);
    var ts := At(line, "constructor", At(line, "(", PrintArguments(arguments, line, end)));
    ArgumentListParsed(arguments, line, end);
    ConstructorRead(ts, arguments, line, PrintArguments(arguments, line, end), end);
    MemberAdded(NONE, ts, line, rest);
    AfterNoMembers(MemberList(rest));
  }

  lemma ConstructorRead(ts: Tokens, arguments: seq<IdlArgument>, line: int, listed: Tokens, rest: Tokens)
    requires ts == At(line, "constructor", At(line, "(", listed))
    requires ArgumentList(listed) == Parsed(arguments, At(line, ")", rest))
    ensures Member(ts) == Parsed(NONE, rest)
  {
  }
}
