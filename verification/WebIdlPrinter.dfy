/**
 * Definitions that have a source, and the tokens of one: laid out one member a
 * line, its documentation on the lines above it.
 */
module WebIdlPrinter {
  import opened Basics
  import opened WebIdl
  import opened WebIdlComments
  import opened WebIdlTokens

  // What can be printed.

  /** The types named by more than one word. */
  const MULTI_WORD_NAMES := map[
    "unrestricted double" := ["unrestricted", "double"],
    "unrestricted float" := ["unrestricted", "float"],
    "unsigned long" := ["unsigned", "long"],
    "unsigned short" := ["unsigned", "short"],
    "long long" := ["long", "long"],
    "unsigned long long" := ["unsigned", "long", "long"]]

  lemma MultiWordNames()
    ensures "unrestricted" + " " + "double" == "unrestricted double"
    ensures "unrestricted" + " " + "float" == "unrestricted float"
    ensures "unsigned" + " " + "long" == "unsigned long"
    ensures "unsigned" + " " + "short" == "unsigned short"
    ensures "long" + " " + "long" == "long long"
    ensures "unsigned long" + " " + "long" == "unsigned long long"
  {
  }

  lemma NamesHaveSpaces()
    ensures forall name :: name in MULTI_WORD_NAMES ==> ' ' in name
  {
    forall name | name in MULTI_WORD_NAMES ensures ' ' in name {
      assert name[if name == "long long" then 4 else if name[2] == 'r' then 12 else 8] == ' ';
    }
  }

  lemma WordIsOneWord(text: string)
    requires IsWord(text)
    ensures WordsOf(text) == [text]
  {
    assert ' ' !in text;
    NamesHaveSpaces();
  }

  function WordsOf(name: string): (r: seq<string>)
    ensures r != []
  {
    if name in MULTI_WORD_NAMES then MULTI_WORD_NAMES[name] else [name]
  }

  predicate IsTypeName(name: string) {
    name in MULTI_WORD_NAMES || (IsWord(name) && name !in MULTI_WORD_TYPES && name !in INHERITED)
  }

  predicate IsType(t: IdlType) {
    && IsTypeName(t.name)
    && |t.arguments| <= 1
    && forall argument :: argument in t.arguments ==> IsType(argument)
  }

  /** A name after a type, and no `long` that would be read as the type's. */
  predicate Names(t: IdlType, name: string) {
    && IsWord(name)
    && !(name == "long" && t.name in ["long", "unsigned long"] && t.arguments == [] && !t.nullable)
  }

  predicate IsArgument(a: IdlArgument) {
    IsType(a.type_) && Names(a.type_, a.name) && (!a.optional ==> WordsOf(a.type_.name)[0] != "optional")
  }

  predicate IsAttribute(a: IdlAttribute) {
    IsType(a.type_) && Names(a.type_, a.name) && IsTrimmed(a.doc)
  }

  predicate IsOperation(o: IdlOperation) {
    && IsType(o.returnType) && Names(o.returnType, o.name) && IsTrimmed(o.doc)
    && WordsOf(o.returnType.name)[0] !in ["constructor", "readonly", "attribute"]
    && forall a :: a in o.arguments ==> IsArgument(a)
  }

  predicate IsEvent(e: IdlEvent) {
    IsWord("on" + e.name) && IsTrimmed(e.doc)
  }

  predicate AreMembers(m: Members) {
    && (forall a :: a in m.attributes ==> IsAttribute(a))
    && (forall o :: o in m.operations ==> IsOperation(o))
    && (forall e :: e in m.events ==> IsEvent(e))
  }

  predicate IsHeading(doc: seq<string>, name: string, inherits: Option<string>) {
    && (forall line :: line in doc ==> IsLine(line))
    && IsWord(name)
    && (inherits.Some? ==> IsWord(inherits.value))
  }

  predicate IsInterface(i: IdlInterface) {
    IsHeading(i.doc, i.name, i.inherits) && AreMembers(i.members)
  }

  predicate IsDictionaryMember(m: IdlDictionaryMember) {
    && IsType(m.type_) && Names(m.type_, m.name) && IsTrimmed(m.doc)
    && (!m.required ==> WordsOf(m.type_.name)[0] != "required")
  }

  predicate IsDictionary(d: IdlDictionary) {
    IsHeading(d.doc, d.name, d.inherits) && forall m :: m in d.members ==> IsDictionaryMember(m)
  }

  predicate IsEnum(e: IdlEnum) {
    IsHeading(e.doc, e.name, None) && forall value :: value in e.values ==> IsQuotable(value)
  }

  predicate IsIdl(idl: Idl) {
    && (forall d :: d in idl.dictionaries ==> IsDictionary(d))
    && (forall e :: e in idl.enums ==> IsEnum(e))
    && (forall i :: i in idl.interfaces ==> IsInterface(i))
  }

  // Printing. Each function puts its tokens before `rest`.

  function At(line: int, text: string, rest: Tokens): Tokens {
    More(Token([], line, text), rest)
  }

  function PrintWords(words: seq<string>, line: int, rest: Tokens): (r: Tokens)
    ensures words != [] ==> r.More? && r.head.text == words[0] && r.head.line == line
  {
    if words == [] then rest else At(line, words[0], PrintWords(words[1..], line, rest))
  }

  function PrintNullable(nullable: bool, line: int, rest: Tokens): Tokens {
    if nullable then At(line, "?", rest) else rest
  }

  function PrintType(t: IdlType, line: int, rest: Tokens): (r: Tokens)
    ensures r.More? && r.head.text == WordsOf(t.name)[0] && r.head.line == line
  {
    var after := PrintNullable(t.nullable, line, rest);
    PrintWords(WordsOf(t.name), line,
               if t.arguments == [] then after
               else At(line, "<", PrintType(t.arguments[0], line, At(line, ">", after))))
  }

  function PrintArguments(arguments: seq<IdlArgument>, line: int, rest: Tokens): Tokens {
    if arguments == [] then At(line, ")", rest)
    else
      var others := PrintArguments(arguments[1..], line, rest);
      var typed := PrintType(arguments[0].type_, line,
                             At(line, arguments[0].name, if |arguments| == 1 then others else At(line, ",", others)));
      if arguments[0].optional then At(line, "optional", typed) else typed
  }

  /** `ts`, with comments above its first token. */
  function Above(comments: seq<Comment>, ts: Tokens): Tokens {
    if ts.End? then ts else More(ts.head.(comments := comments), ts.tail)
  }

  function PrintAttribute(a: IdlAttribute, line: int, rest: Tokens): Tokens {
    var last := line + |a.doc|;
    Above(Block(a.doc, line),
          At(last, "readonly",
             At(last, "attribute", PrintType(a.type_, last, At(last, a.name, At(last, ";", rest))))))
  }

  function PrintOperation(o: IdlOperation, line: int, rest: Tokens): Tokens {
    var last := line + |o.doc|;
    Above(Block(o.doc, line),
          PrintType(o.returnType, last,
                    At(last, o.name, At(last, "(", PrintArguments(o.arguments, last, At(last, ";", rest))))))
  }

  function PrintEvent(e: IdlEvent, line: int, rest: Tokens): Tokens {
    var last := line + |e.doc|;
    Above(Block(e.doc, line),
          At(last, "attribute", At(last, "EventHandler", At(last, "on" + e.name, At(last, ";", rest)))))
  }

  /** `};` on a line of its own, and what `after` puts from the next line on. */
  function PrintClosing(line: int, rest: Tokens): Tokens {
    At(line, "}", At(line, ";", rest))
  }

  function EventsEnd(events: seq<IdlEvent>, line: int): int {
    if events == [] then line else EventsEnd(events[1..], line + |events[0].doc| + 1)
  }

  function OperationsEnd(operations: seq<IdlOperation>, line: int): int {
    if operations == [] then line else OperationsEnd(operations[1..], line + |operations[0].doc| + 1)
  }

  function AttributesEnd(attributes: seq<IdlAttribute>, line: int): int {
    if attributes == [] then line else AttributesEnd(attributes[1..], line + |attributes[0].doc| + 1)
  }

  function PrintEvents(events: seq<IdlEvent>, line: int, rest: Tokens): Tokens {
    if events == [] then rest
    else PrintEvent(events[0], line, PrintEvents(events[1..], line + |events[0].doc| + 1, rest))
  }

  function PrintOperations(operations: seq<IdlOperation>, line: int, rest: Tokens): Tokens {
    if operations == [] then rest
    else PrintOperation(operations[0], line, PrintOperations(operations[1..], line + |operations[0].doc| + 1, rest))
  }

  function PrintAttributes(attributes: seq<IdlAttribute>, line: int, rest: Tokens): Tokens {
    if attributes == [] then rest
    else PrintAttribute(attributes[0], line, PrintAttributes(attributes[1..], line + |attributes[0].doc| + 1, rest))
  }

  function MembersEnd(m: Members, line: int): int {
    EventsEnd(m.events, OperationsEnd(m.operations, AttributesEnd(m.attributes, line)))
  }

  function PrintMembers(m: Members, line: int, rest: Tokens): Tokens {
    var operations := AttributesEnd(m.attributes, line);
    PrintAttributes(m.attributes, line,
                    PrintOperations(m.operations, operations,
                                    PrintEvents(m.events, OperationsEnd(m.operations, operations), rest)))
  }

  function PrintHeading(doc: seq<string>, keyword: string, name: string, inherits: Option<string>, line: int,
                        rest: Tokens)
    : Tokens
  {
    var last := line + DocHeight(doc);
    var body := At(last, "{", rest);
    Above(DocComments(doc, line),
          At(last, keyword,
             At(last, name, if inherits.Some? then At(last, ":", At(last, inherits.value, body)) else body)))
  }

  function InterfaceEnd(i: IdlInterface, line: int): int {
    MembersEnd(i.members, line + DocHeight(i.doc) + 1) + 1
  }

  function PrintInterface(i: IdlInterface, line: int, rest: Tokens): Tokens {
    var first := line + DocHeight(i.doc) + 1;
    PrintHeading(i.doc, "interface", i.name, i.inherits, line,
                 PrintMembers(i.members, first, PrintClosing(MembersEnd(i.members, first), rest)))
  }

  function PrintDictionaryMember(m: IdlDictionaryMember, line: int, rest: Tokens): Tokens {
    var last := line + |m.doc|;
    var end := At(last, ";", rest);
    var typed := PrintType(m.type_, last,
                           At(last, m.name, if m.defaulted then At(last, "=", At(last, "null", end)) else end));
    Above(Block(m.doc, line), if m.required then At(last, "required", typed) else typed)
  }

  function DictionaryMembersEnd(members: seq<IdlDictionaryMember>, line: int): int {
    if members == [] then line else DictionaryMembersEnd(members[1..], line + |members[0].doc| + 1)
  }

  function PrintDictionaryMembers(members: seq<IdlDictionaryMember>, line: int, rest: Tokens): Tokens {
    if members == [] then rest
    else
      PrintDictionaryMember(
        members[0], line, PrintDictionaryMembers(members[1..], line + |members[0].doc| + 1, rest))
  }

  function DictionaryEnd(d: IdlDictionary, line: int): int {
    DictionaryMembersEnd(d.members, line + DocHeight(d.doc) + 1) + 1
  }

  function PrintDictionary(d: IdlDictionary, line: int, rest: Tokens): Tokens {
    var first := line + DocHeight(d.doc) + 1;
    PrintHeading(d.doc, "dictionary", d.name, d.inherits, line,
                 PrintDictionaryMembers(d.members, first,
                                        PrintClosing(DictionaryMembersEnd(d.members, first), rest)))
  }

  function PrintValues(values: seq<string>, line: int, rest: Tokens): Tokens {
    if values == [] then rest
    else
      var others := PrintValues(values[1..], line, rest);
      At(line, Quoted(values[0]), if |values| == 1 then others else At(line, ",", others))
  }

  function EnumEnd(e: IdlEnum, line: int): int {
    line + DocHeight(e.doc) + 1
  }

  function PrintEnum(e: IdlEnum, line: int, rest: Tokens): Tokens {
    var last := line + DocHeight(e.doc);
    PrintHeading(e.doc, "enum", e.name, None, line, PrintValues(e.values, last, PrintClosing(last, rest)))
  }

  function PrintEnums(enums: seq<IdlEnum>, line: int, rest: Tokens): Tokens {
    if enums == [] then rest
    else PrintEnum(enums[0], line, PrintEnums(enums[1..], EnumEnd(enums[0], line), rest))
  }

  function EnumsEnd(enums: seq<IdlEnum>, line: int): int {
    if enums == [] then line else EnumsEnd(enums[1..], EnumEnd(enums[0], line))
  }

  function PrintDictionaries(dictionaries: seq<IdlDictionary>, line: int, rest: Tokens): Tokens {
    if dictionaries == [] then rest
    else
      PrintDictionary(
        dictionaries[0], line, PrintDictionaries(dictionaries[1..], DictionaryEnd(dictionaries[0], line), rest))
  }

  function DictionariesEnd(dictionaries: seq<IdlDictionary>, line: int): int {
    if dictionaries == [] then line
    else DictionariesEnd(dictionaries[1..], DictionaryEnd(dictionaries[0], line))
  }

  function PrintInterfaces(interfaces: seq<IdlInterface>, line: int): Tokens {
    if interfaces == [] then End
    else PrintInterface(interfaces[0], line, PrintInterfaces(interfaces[1..], InterfaceEnd(interfaces[0], line)))
  }

  function Print(idl: Idl): Tokens {
    var enums := DictionariesEnd(idl.dictionaries, 1);
    PrintDictionaries(idl.dictionaries, 1,
                      PrintEnums(idl.enums, enums,
                                 PrintInterfaces(idl.interfaces, EnumsEnd(idl.enums, enums))))
  }
}
