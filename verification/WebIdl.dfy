/**
 * The subset of WebIDL the generator reads: its tokens, its definitions, and
 * what parsing a list of tokens gives. A parse takes tokens from the front and
 * leaves the rest, or refuses.
 */
module WebIdl {
  import opened Basics

  /** By first word of a type, the words that may be its second. */
  const MULTI_WORD_TYPES := map["unrestricted" := ["double", "float"], "unsigned" := ["long", "short"]]

  // Names every JavaScript object answers to. Looking one up among the words
  // above finds something that is no list of words, and the parse fails.
  const INHERITED := {
    "constructor", "hasOwnProperty", "isPrototypeOf", "propertyIsEnumerable", "toLocaleString", "toString",
    "valueOf", "__defineGetter__", "__defineSetter__", "__lookupGetter__", "__lookupSetter__", "__proto__"
  }

  datatype IdlType = IdlType(name: string, arguments: seq<IdlType>, nullable: bool)

  datatype IdlArgument = IdlArgument(name: string, optional: bool, type_: IdlType)

  datatype IdlAttribute = IdlAttribute(doc: seq<string>, name: string, type_: IdlType)

  datatype IdlOperation = IdlOperation(
    arguments: seq<IdlArgument>, doc: seq<string>, name: string, returnType: IdlType)

  /** An event an interface fires, by the name of its handler without `on`. */
  datatype IdlEvent = IdlEvent(doc: seq<string>, name: string)

  datatype Members = Members(
    attributes: seq<IdlAttribute>, operations: seq<IdlOperation>, events: seq<IdlEvent>)

  datatype IdlInterface = IdlInterface(
    doc: seq<string>, name: string, inherits: Option<string>, members: Members)

  datatype IdlDictionaryMember = IdlDictionaryMember(
    defaulted: bool, doc: seq<string>, name: string, required: bool, type_: IdlType)

  datatype IdlDictionary = IdlDictionary(
    doc: seq<string>, inherits: Option<string>, members: seq<IdlDictionaryMember>, name: string)

  datatype IdlEnum = IdlEnum(doc: seq<string>, name: string, values: seq<string>)

  datatype Idl = Idl(dictionaries: seq<IdlDictionary>, enums: seq<IdlEnum>, interfaces: seq<IdlInterface>)

  datatype Comment = Comment(line: int, text: string)

  /** A token, and the comment lines between the token before and it. */
  datatype Token = Token(comments: seq<Comment>, line: int, text: string)

  /** The tokens still to be parsed. */
  datatype Tokens = End | More(head: Token, tail: Tokens)

  function Length(ts: Tokens): nat {
    if ts.End? then 0 else 1 + Length(ts.tail)
  }

  datatype Refusal =
    | EndOfIdl
    | Expected(text: string, got: Token)
    | Unexpected(token: Token)
    | NoWordList(word: string)

  datatype Parsed<+T> = Parsed(value: T, rest: Tokens) | Refused(why: Refusal) {
    predicate IsFailure() { Refused? }
    function PropagateFailure<U>(): Parsed<U>
      requires Refused?
    {
      Refused(why)
    }
    function Extract(): (T, Tokens)
      requires Parsed?
    {
      (value, rest)
    }
  }

  // Comments.

  /** Comments on consecutive lines, together. */
  function CommentBlocks(comments: seq<Comment>): (blocks: seq<seq<Comment>>)
    ensures forall i :: 0 <= i < |blocks| ==> blocks[i] != []
  {
    if comments == [] then []
    else
      var blocks := CommentBlocks(comments[..|comments| - 1]);
      var comment := comments[|comments| - 1];
      if blocks != [] && (var block := blocks[|blocks| - 1]; block[|block| - 1].line == comment.line - 1) then
        blocks[..|blocks| - 1] + [blocks[|blocks| - 1] + [comment]]
      else blocks + [[comment]]
  }

  function Texts(block: seq<Comment>): seq<string> {
    seq(|block|, i requires 0 <= i < |block| => block[i].text)
  }

  function TrimStart(lines: seq<string>): seq<string> {
    if lines != [] && lines[0] == "" then TrimStart(lines[1..]) else lines
  }

  function TrimEnd(lines: seq<string>): seq<string> {
    if lines != [] && lines[|lines| - 1] == "" then TrimEnd(lines[..|lines| - 1]) else lines
  }

  /** The texts of `block` from the first that is not empty to the last. */
  function BlockText(block: seq<Comment>): seq<string> {
    TrimEnd(TrimStart(Texts(block)))
  }

  function IsLicense(block: seq<Comment>): bool {
    block != [] && "Copyright" <= block[0].text
  }

  /** The blocks' lines, with an empty line between blocks. */
  function Paragraphs(blocks: seq<seq<Comment>>): seq<string> {
    if blocks == [] then []
    else if |blocks| == 1 then BlockText(blocks[0])
    else Paragraphs(blocks[..|blocks| - 1]) + [""] + BlockText(blocks[|blocks| - 1])
  }

  function WithoutLicenses(blocks: seq<seq<Comment>>): seq<seq<Comment>> {
    if blocks == [] then []
    else (if IsLicense(blocks[0]) then [] else [blocks[0]]) + WithoutLicenses(blocks[1..])
  }

  /** The texts of all blocks of `comments` that are no license, with an empty line from one block to the next. */
  function DefinitionDoc(comments: seq<Comment>): seq<string> {
    Paragraphs(WithoutLicenses(CommentBlocks(comments)))
  }

  /** The text of the last block above `token` if it ends on the line before, and nothing otherwise. */
  function MemberDoc(token: Token): seq<string> {
    var blocks := CommentBlocks(token.comments);
    if blocks == [] then []
    else
      var last := blocks[|blocks| - 1];
      if last[|last| - 1].line == token.line - 1 then BlockText(last) else []
  }

  // What each parse takes.

  predicate IsIdentifier(text: string) {
    text != "" && ('A' <= text[0] <= 'Z' || 'a' <= text[0] <= 'z' || text[0] == '_')
  }

  function Next(ts: Tokens): (r: Parsed<Token>)
    ensures r.Parsed? ==> Length(r.rest) < Length(ts)
  {
    if ts.End? then Refused(EndOfIdl) else Parsed(ts.head, ts.tail)
  }

  /** The next token, which is left where it is. */
  function Peek(ts: Tokens): Parsed<Token> {
    if ts.End? then Refused(EndOfIdl) else Parsed(ts.head, ts)
  }

  function Expect(ts: Tokens, text: string): (r: Parsed<()>)
    ensures r.Parsed? ==> Length(r.rest) < Length(ts)
  {
    var (token, rest) :- Next(ts);
    if token.text == text then Parsed((), rest) else Refused(Expected(text, token))
  }

  function OneOf(ts: Tokens, texts: seq<string>): (r: Parsed<string>)
    ensures r.Parsed? ==> Length(r.rest) < Length(ts)
  {
    var (token, rest) :- Next(ts);
    if token.text in texts then Parsed(token.text, rest) else Refused(Unexpected(token))
  }

  function Identifier(ts: Tokens): (r: Parsed<string>)
    ensures r.Parsed? ==> Length(r.rest) < Length(ts)
  {
    var (token, rest) :- Next(ts);
    if IsIdentifier(token.text) then Parsed(token.text, rest) else Refused(Unexpected(token))
  }

  function Unquoted(text: string): string {
    if |text| < 2 then "" else text[1..|text| - 1]
  }

  function String(ts: Tokens): (r: Parsed<string>)
    ensures r.Parsed? ==> Length(r.rest) < Length(ts)
  {
    var (token, rest) :- Next(ts);
    if "\"" <= token.text then Parsed(Unquoted(token.text), rest) else Refused(Unexpected(token))
  }

  /** Everything through the next `]`. */
  function ThroughBracket(ts: Tokens): (r: Parsed<()>)
    ensures r.Parsed? ==> Length(r.rest) < Length(ts)
  {
    var (token, rest) :- Next(ts);
    if token.text == "]" then Parsed((), rest) else ThroughBracket(rest)
  }

  /** What is left after a bracketed list, if `ts` starts with one. */
  function SkipExtendedAttributes(ts: Tokens): (r: Parsed<()>)
    ensures r.Parsed? ==> Length(r.rest) <= Length(ts)
  {
    var (token, _) :- Peek(ts);
    if token.text == "[" then ThroughBracket(ts) else Parsed((), ts)
  }

  function TypeName(ts: Tokens): (r: Parsed<string>)
    ensures r.Parsed? ==> Length(r.rest) < Length(ts)
  {
    var (first, rest) :- Identifier(ts);
    if first in INHERITED then
      var (_, _) :- Next(rest);
      Refused(NoWordList(first))
    else if first in MULTI_WORD_TYPES then
      var (second, rest') :- OneOf(rest, MULTI_WORD_TYPES[first]);
      MaybeLong(first + " " + second, second, rest')
    else MaybeLong(first, first, rest)
  }

  /** `name`, with a second `long` when its last word is one and another follows. */
  function MaybeLong(name: string, last: string, ts: Tokens): (r: Parsed<string>)
    ensures r.Parsed? ==> Length(r.rest) <= Length(ts)
  {
    if last == "long" then
      var (token, _) :- Peek(ts);
      if token.text == "long" then
        var (word, rest) :- Identifier(ts);
        Parsed(name + " " + word, rest)
      else Parsed(name, ts)
    else Parsed(name, ts)
  }

  function Type(ts: Tokens): (r: Parsed<IdlType>)
    ensures r.Parsed? ==> Length(r.rest) < Length(ts)
    decreases Length(ts), 1
  {
    var (name, rest) :- TypeName(ts);
    var (arguments, rest') :- TypeArguments(rest);
    var (token, _) :- Peek(rest');
    Parsed(IdlType(name, arguments, token.text == "?"), if token.text == "?" then rest'.tail else rest')
  }

  function TypeArguments(ts: Tokens): (r: Parsed<seq<IdlType>>)
    ensures r.Parsed? ==> Length(r.rest) <= Length(ts)
    decreases Length(ts), 0
  {
    var (token, _) :- Peek(ts);
    if token.text == "<" then
      var (argument, rest) :- Type(ts.tail);
      var (_, rest') :- Expect(rest, ">");
      Parsed([argument], rest')
    else Parsed([], ts)
  }

  /** What is left after one token, or after an empty list or object. */
  function Default(ts: Tokens): (r: Parsed<()>)
    ensures r.Parsed? ==> Length(r.rest) < Length(ts)
  {
    var (first, rest) :- Next(ts);
    if first.text == "[" then Expect(rest, "]")
    else if first.text == "{" then Expect(rest, "}")
    else Parsed((), rest)
  }

  /** `= default`, or nothing. Whether there was one. */
  function MaybeDefault(ts: Tokens): (r: Parsed<bool>)
    ensures r.Parsed? ==> Length(r.rest) <= Length(ts)
  {
    var (token, _) :- Peek(ts);
    if token.text == "=" then
      var (_, rest) :- Default(ts.tail);
      Parsed(true, rest)
    else Parsed(false, ts)
  }

  function MaybeToken(ts: Tokens, text: string): (r: Parsed<bool>)
    ensures r.Parsed? ==> Length(r.rest) <= Length(ts)
  {
    var (token, _) :- Peek(ts);
    if token.text == text then Parsed(true, ts.tail) else Parsed(false, ts)
  }

  function Argument(ts: Tokens): (r: Parsed<IdlArgument>)
    ensures r.Parsed? ==> Length(r.rest) < Length(ts)
  {
    var (optional, rest) :- MaybeToken(ts, "optional");
    var (type_, rest1) :- Type(rest);
    var (name, rest2) :- Identifier(rest1);
    var (_, rest3) :- MaybeDefault(rest2);
    var (_, rest4) :- MaybeToken(rest3, ",");
    Parsed(IdlArgument(name, optional, type_), rest4)
  }

  /** Arguments up to the `)`, which is left. */
  function ArgumentList(ts: Tokens): (r: Parsed<seq<IdlArgument>>)
    ensures r.Parsed? ==> Length(r.rest) <= Length(ts)
    decreases Length(ts)
  {
    var (token, _) :- Peek(ts);
    if token.text == ")" then Parsed([], ts)
    else
      var (argument, rest) :- Argument(ts);
      var (others, rest') :- ArgumentList(rest);
      Parsed([argument] + others, rest')
  }

  /** The arguments in parentheses that `ts` starts with. */
  function Arguments(ts: Tokens): (r: Parsed<seq<IdlArgument>>)
    ensures r.Parsed? ==> Length(r.rest) < Length(ts)
  {
    var (_, rest) :- Expect(ts, "(");
    var (arguments, rest') :- ArgumentList(rest);
    var (_, rest'') :- Expect(rest', ")");
    Parsed(arguments, rest'')
  }

  function Inheritance(ts: Tokens): (r: Parsed<Option<string>>)
    ensures r.Parsed? ==> Length(r.rest) <= Length(ts)
  {
    var (token, _) :- Peek(ts);
    if token.text == ":" then
      var (name, rest) :- Identifier(ts.tail);
      Parsed(Some(name), rest)
    else Parsed(None, ts)
  }

  /** The identifier `ts` starts with, without its `on`; refused if it has none. */
  function HandlerName(ts: Tokens): (r: Parsed<string>)
    ensures r.Parsed? ==> Length(r.rest) < Length(ts)
  {
    var (handler, rest) :- Identifier(ts);
    if "on" <= handler then Parsed(handler[2..], rest) else Refused(Unexpected(ts.head))
  }

  const NONE := Members([], [], [])

  /** One member of an interface, up to its `;`. A constructor is dropped. */
  function Member(ts: Tokens): (r: Parsed<Members>)
    ensures r.Parsed? ==> Length(r.rest) < Length(ts)
  {
    var (token, _) :- Peek(ts);
    var doc := MemberDoc(token);
    var (_, rest) :- SkipExtendedAttributes(ts);
    var (first, _) :- Peek(rest);
    if first.text == "constructor" then
      var (_, rest') :- Arguments(rest.tail);
      Parsed(NONE, rest')
    else if first.text == "readonly" then
      var (_, rest1) :- Expect(rest.tail, "attribute");
      var (type_, rest2) :- Type(rest1);
      var (name, rest3) :- Identifier(rest2);
      Parsed(NONE.(attributes := [IdlAttribute(doc, name, type_)]), rest3)
    else if first.text == "attribute" then
      var (_, rest1) :- Expect(rest.tail, "EventHandler");
      var (name, rest2) :- HandlerName(rest1);
      Parsed(NONE.(events := [IdlEvent(doc, name)]), rest2)
    else
      var (returnType, rest1) :- Type(rest);
      var (name, rest2) :- Identifier(rest1);
      var (arguments, rest3) :- Arguments(rest2);
      Parsed(NONE.(operations := [IdlOperation(arguments, doc, name, returnType)]), rest3)
  }

  function Both(a: Members, b: Members): Members {
    Members(a.attributes + b.attributes, a.operations + b.operations, a.events + b.events)
  }

  /** Members up to the `}`, which is left. */
  function MemberList(ts: Tokens): (r: Parsed<Members>)
    ensures r.Parsed? ==> Length(r.rest) <= Length(ts)
    decreases Length(ts)
  {
    var (token, _) :- Peek(ts);
    if token.text == "}" then Parsed(NONE, ts)
    else
      var (member, rest) :- Member(ts);
      var (_, rest') :- Expect(rest, ";");
      var (others, rest'') :- MemberList(rest');
      Parsed(Both(member, others), rest'')
  }

  /** `};`. */
  function Closing(ts: Tokens): (r: Parsed<()>)
    ensures r.Parsed? ==> Length(r.rest) < Length(ts)
  {
    var (_, rest) :- Expect(ts, "}");
    Expect(rest, ";")
  }

  function Interface(ts: Tokens, doc: seq<string>): (r: Parsed<IdlInterface>)
    ensures r.Parsed? ==> Length(r.rest) < Length(ts)
  {
    var (name, rest1) :- Identifier(ts);
    var (inherits, rest2) :- Inheritance(rest1);
    var (_, rest3) :- Expect(rest2, "{");
    var (members, rest4) :- MemberList(rest3);
    var (_, rest5) :- Closing(rest4);
    Parsed(IdlInterface(doc, name, inherits, members), rest5)
  }

  function DictionaryMember(ts: Tokens): (r: Parsed<IdlDictionaryMember>)
    ensures r.Parsed? ==> Length(r.rest) < Length(ts)
  {
    var (token, _) :- Peek(ts);
    var (required, rest1) :- MaybeToken(ts, "required");
    var (type_, rest2) :- Type(rest1);
    var (name, rest3) :- Identifier(rest2);
    var (defaulted, rest4) :- MaybeDefault(rest3);
    var (_, rest5) :- Expect(rest4, ";");
    Parsed(IdlDictionaryMember(defaulted, MemberDoc(token), name, required, type_), rest5)
  }

  function DictionaryMemberList(ts: Tokens): (r: Parsed<seq<IdlDictionaryMember>>)
    ensures r.Parsed? ==> Length(r.rest) <= Length(ts)
    decreases Length(ts)
  {
    var (token, _) :- Peek(ts);
    if token.text == "}" then Parsed([], ts)
    else
      var (member, rest) :- DictionaryMember(ts);
      var (others, rest') :- DictionaryMemberList(rest);
      Parsed([member] + others, rest')
  }

  function Dictionary(ts: Tokens, doc: seq<string>): (r: Parsed<IdlDictionary>)
    ensures r.Parsed? ==> Length(r.rest) < Length(ts)
  {
    var (name, rest1) :- Identifier(ts);
    var (inherits, rest2) :- Inheritance(rest1);
    var (_, rest3) :- Expect(rest2, "{");
    var (members, rest4) :- DictionaryMemberList(rest3);
    var (_, rest5) :- Closing(rest4);
    Parsed(IdlDictionary(doc, inherits, members, name), rest5)
  }

  function ValueList(ts: Tokens): (r: Parsed<seq<string>>)
    ensures r.Parsed? ==> Length(r.rest) <= Length(ts)
    decreases Length(ts)
  {
    var (token, _) :- Peek(ts);
    if token.text == "}" then Parsed([], ts)
    else
      var (value, rest1) :- String(ts);
      var (_, rest2) :- MaybeToken(rest1, ",");
      var (others, rest3) :- ValueList(rest2);
      Parsed([value] + others, rest3)
  }

  function Enum(ts: Tokens, doc: seq<string>): (r: Parsed<IdlEnum>)
    ensures r.Parsed? ==> Length(r.rest) < Length(ts)
  {
    var (name, rest1) :- Identifier(ts);
    var (_, rest2) :- Expect(rest1, "{");
    var (values, rest3) :- ValueList(rest2);
    var (_, rest4) :- Closing(rest3);
    Parsed(IdlEnum(doc, name, values), rest4)
  }

  const EMPTY := Idl([], [], [])

  function Definition(ts: Tokens): (r: Parsed<Idl>)
    ensures r.Parsed? ==> Length(r.rest) < Length(ts)
  {
    var (token, _) :- Peek(ts);
    var doc := DefinitionDoc(token.comments);
    var (_, rest) :- SkipExtendedAttributes(ts);
    var (keyword, rest1) :- Next(rest);
    if keyword.text == "interface" then
      var (definition, rest2) :- Interface(rest1, doc);
      Parsed(EMPTY.(interfaces := [definition]), rest2)
    else if keyword.text == "dictionary" then
      var (definition, rest2) :- Dictionary(rest1, doc);
      Parsed(EMPTY.(dictionaries := [definition]), rest2)
    else if keyword.text == "enum" then
      var (definition, rest2) :- Enum(rest1, doc);
      Parsed(EMPTY.(enums := [definition]), rest2)
    else Refused(Unexpected(keyword))
  }

  function Together(a: Idl, b: Idl): Idl {
    Idl(a.dictionaries + b.dictionaries, a.enums + b.enums, a.interfaces + b.interfaces)
  }

  /** Every definition, to the last token. */
  function Definitions(ts: Tokens): (r: Parsed<Idl>)
    ensures r.Parsed? ==> r.rest.End?
    decreases Length(ts)
  {
    if ts.End? then Parsed(EMPTY, ts)
    else
      var (definition, rest) :- Definition(ts);
      var (others, rest') :- Definitions(rest);
      Parsed(Together(definition, others), rest')
  }

  // What parsing gives when something was collected before it.

  /** What a list parse gives when `done` was collected before it. */
  ghost function After<T>(done: seq<T>, parsed: Parsed<seq<T>>): Parsed<seq<T>> {
    if parsed.Parsed? then Parsed(done + parsed.value, parsed.rest) else parsed
  }

  lemma AfterNone<T>(parsed: Parsed<seq<T>>)
    ensures After([], parsed) == parsed
  {
    if parsed.Parsed? {
      assert [] + parsed.value == parsed.value;
    }
  }

  lemma AfterAll<T>(done: seq<T>, rest: Tokens)
    ensures After(done, Parsed([], rest)) == Parsed(done, rest)
  {
    assert done + [] == done;
  }

  lemma AfterOne<T>(done: seq<T>, one: T, parsed: Parsed<seq<T>>)
    ensures After(done, After([one], parsed)) == After(done + [one], parsed)
  {
    if parsed.Parsed? {
      assert done + ([one] + parsed.value) == done + [one] + parsed.value;
    }
  }

  ghost function AfterMembers(done: Members, parsed: Parsed<Members>): Parsed<Members> {
    if parsed.Parsed? then Parsed(Both(done, parsed.value), parsed.rest) else parsed
  }

  lemma AfterNoMembers(parsed: Parsed<Members>)
    ensures AfterMembers(NONE, parsed) == parsed
  {
    if parsed.Parsed? {
      assert Both(NONE, parsed.value) == parsed.value;
    }
  }

  lemma AfterAllMembers(done: Members, rest: Tokens)
    ensures AfterMembers(done, Parsed(NONE, rest)) == Parsed(done, rest)
  {
    assert Both(done, NONE) == done;
  }

  lemma AfterMember(done: Members, member: Members, parsed: Parsed<Members>)
    ensures AfterMembers(done, AfterMembers(member, parsed)) == AfterMembers(Both(done, member), parsed)
  {
    if parsed.Parsed? {
      assert Both(done, Both(member, parsed.value)) == Both(Both(done, member), parsed.value);
    }
  }

  ghost function AfterDefinitions(done: Idl, parsed: Parsed<Idl>): Parsed<Idl> {
    if parsed.Parsed? then Parsed(Together(done, parsed.value), parsed.rest) else parsed
  }

  lemma AfterNoDefinitions(parsed: Parsed<Idl>)
    ensures AfterDefinitions(EMPTY, parsed) == parsed
  {
    if parsed.Parsed? {
      assert Together(EMPTY, parsed.value) == parsed.value;
    }
  }

  lemma AfterAllDefinitions(done: Idl, rest: Tokens)
    ensures AfterDefinitions(done, Parsed(EMPTY, rest)) == Parsed(done, rest)
  {
    assert Together(done, EMPTY) == done;
  }

  lemma AfterDefinition(done: Idl, definition: Idl, parsed: Parsed<Idl>)
    ensures AfterDefinitions(done, AfterDefinitions(definition, parsed))
         == AfterDefinitions(Together(done, definition), parsed)
  {
    if parsed.Parsed? {
      assert Together(done, Together(definition, parsed.value)) == Together(Together(done, definition), parsed.value);
    }
  }
}
