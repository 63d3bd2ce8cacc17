/**
 * The parser as it runs: a position that moves over a sequence of tokens, and
 * loops that collect members, arguments and definitions. Each method gives
 * what parsing the tokens left gives, and leaves what that leaves. A method
 * that fails leaves the position anywhere.
 */
module WebIdlParser {
  import opened Basics
  import opened WebIdl

  type Outcome<+T> = Result<T, Refusal>

  /** The tokens from `index` on. */
  function TokensFrom(tokens: seq<Token>, index: nat): (r: Tokens)
    requires index <= |tokens|
    ensures Length(r) == |tokens| - index
    decreases |tokens| - index
  {
    if index == |tokens| then End else More(tokens[index], TokensFrom(tokens, index + 1))
  }

  class Parser {
    const tokens: seq<Token>
    var index: nat

    ghost predicate Valid()
      reads this
    {
      index <= |tokens|
    }

    ghost function Rest(): (r: Tokens)
      requires Valid()
      reads this
      ensures Length(r) == |tokens| - index
    {
      TokensFrom(tokens, index)
    }

    /** Whether `r` and the tokens left are what `parsed` says. */
    ghost predicate Took<T>(parsed: Parsed<T>, r: Outcome<T>)
      reads this
    {
      && Valid()
      && match parsed
         case Parsed(value, rest) => r == Success(value) && Rest() == rest
         case Refused(why) => r == Failure(why)
    }

    constructor (tokens: seq<Token>)
      ensures Valid() && Rest() == TokensFrom(tokens, 0)
    {
      this.tokens := tokens;
      index := 0;
    }

    predicate Done()
      requires Valid()
      reads this
      ensures Done() <==> Rest().End?
    {
      index == |tokens|
    }

    method Peek() returns (r: Outcome<Token>)
      requires Valid()
      ensures Took(WebIdl.Peek(Rest()), r)
    {
      r := if index == |tokens| then Failure(EndOfIdl) else Success(tokens[index]);
    }

    method Next() returns (r: Outcome<Token>)
      requires Valid()
      modifies this
      ensures Took(WebIdl.Next(old(Rest())), r)
    {
      var token :- Peek();
      index := index + 1;
      r := Success(token);
    }

    method Expect(text: string) returns (r: Outcome<()>)
      requires Valid()
      modifies this
      ensures Took(WebIdl.Expect(old(Rest()), text), r)
    {
      var token :- Next();
      r := if token.text != text then Failure(Expected(text, token)) else Success(());
    }

    method OneOf(texts: seq<string>) returns (r: Outcome<string>)
      requires Valid()
      modifies this
      ensures Took(WebIdl.OneOf(old(Rest()), texts), r)
    {
      var token :- Next();
      r := if token.text in texts then Success(token.text) else Failure(Unexpected(token));
    }

    method Identifier() returns (r: Outcome<string>)
      requires Valid()
      modifies this
      ensures Took(WebIdl.Identifier(old(Rest())), r)
    {
      var token :- Next();
      r := if IsIdentifier(token.text) then Success(token.text) else Failure(Unexpected(token));
    }

    method String() returns (r: Outcome<string>)
      requires Valid()
      modifies this
      ensures Took(WebIdl.String(old(Rest())), r)
    {
      var token :- Next();
      r := if "\"" <= token.text then Success(Unquoted(token.text)) else Failure(Unexpected(token));
    }

    method SkipExtendedAttributes() returns (r: Outcome<()>)
      requires Valid()
      modifies this
      ensures Took(WebIdl.SkipExtendedAttributes(old(Rest())), r)
    {
      var first :- Peek();
      if first.text == "[" {
        var token :- Next();
        while token.text != "]"
          invariant Valid()
          invariant ThroughBracket(old(Rest()))
                 == if token.text == "]" then Parsed((), Rest()) else ThroughBracket(Rest())
          decreases Length(Rest())
        {
          token :- Next();
        }
      }
      r := Success(());
    }

    /** Takes the next token if it is `text`. Whether it was. */
    method MaybeToken(text: string) returns (r: Outcome<bool>)
      requires Valid()
      modifies this
      ensures Took(WebIdl.MaybeToken(old(Rest()), text), r)
    {
      var token :- Peek();
      var here := token.text == text;
      if here {
        var _ := Next();
      }
      r := Success(here);
    }
  }

  method ParseTypeName(parser: Parser) returns (r: Outcome<string>)
    requires parser.Valid()
    modifies parser
    ensures parser.Took(TypeName(old(parser.Rest())), r)
  {
    var first :- parser.Identifier();
    var name, last := first, first;
    if first in INHERITED {
      var _ :- parser.Next();
      return Failure(NoWordList(first));
    } else if first in MULTI_WORD_TYPES {
      last :- parser.OneOf(MULTI_WORD_TYPES[first]);
      name := first + " " + last;
    }
    if last == "long" {
      var token :- parser.Peek();
      if token.text == "long" {
        last :- parser.Identifier();
        name := name + " " + last;
      }
    }
    r := Success(name);
  }

  method ParseType(parser: Parser) returns (r: Outcome<IdlType>)
    requires parser.Valid()
    modifies parser
    ensures parser.Took(Type(old(parser.Rest())), r)
    decreases Length(parser.Rest()), 1
  {
    var name :- ParseTypeName(parser);
    var arguments :- ParseTypeArguments(parser);
    var nullable :- parser.MaybeToken("?");
    r := Success(IdlType(name, arguments, nullable));
  }

  method ParseTypeArguments(parser: Parser) returns (r: Outcome<seq<IdlType>>)
    requires parser.Valid()
    modifies parser
    ensures parser.Took(TypeArguments(old(parser.Rest())), r)
    decreases Length(parser.Rest()), 0
  {
    var generic :- parser.MaybeToken("<");
    if generic {
      var argument :- ParseType(parser);
      var _ :- parser.Expect(">");
      r := Success([argument]);
    } else {
      r := Success([]);
    }
  }

  method ParseDefault(parser: Parser) returns (r: Outcome<()>)
    requires parser.Valid()
    modifies parser
    ensures parser.Took(Default(old(parser.Rest())), r)
  {
    var first :- parser.Next();
    if first.text == "[" {
      var _ :- parser.Expect("]");
    } else if first.text == "{" {
      var _ :- parser.Expect("}");
    }
    r := Success(());
  }

  method ParseMaybeDefault(parser: Parser) returns (r: Outcome<bool>)
    requires parser.Valid()
    modifies parser
    ensures parser.Took(MaybeDefault(old(parser.Rest())), r)
  {
    var defaulted :- parser.MaybeToken("=");
    if defaulted {
      var _ :- ParseDefault(parser);
    }
    r := Success(defaulted);
  }

  method ParseArgument(parser: Parser) returns (r: Outcome<IdlArgument>)
    requires parser.Valid()
    modifies parser
    ensures parser.Took(Argument(old(parser.Rest())), r)
  {
    var optional :- parser.MaybeToken("optional");
    var type_ :- ParseType(parser);
    var name :- parser.Identifier();
    var _ :- ParseMaybeDefault(parser);
    var _ :- parser.MaybeToken(",");
    r := Success(IdlArgument(name, optional, type_));
  }

  method ParseArguments(parser: Parser) returns (r: Outcome<seq<IdlArgument>>)
    requires parser.Valid()
    modifies parser
    ensures parser.Took(Arguments(old(parser.Rest())), r)
  {
    var result := [];
    var _ :- parser.Expect("(");
    ghost var all := ArgumentList(parser.Rest());
    AfterNone(all);
    var token :- parser.Peek();
    while token.text != ")"
      invariant parser.Valid() && WebIdl.Peek(parser.Rest()) == Parsed(token, parser.Rest())
      invariant all == After(result, ArgumentList(parser.Rest()))
      decreases Length(parser.Rest())
    {
      var argument :- ParseArgument(parser);
      AfterOne(result, argument, ArgumentList(parser.Rest()));
      result := result + [argument];
      token :- parser.Peek();
    }
    AfterAll(result, parser.Rest());
    var _ :- parser.Expect(")");
    r := Success(result);
  }

  method ParseInheritance(parser: Parser) returns (r: Outcome<Option<string>>)
    requires parser.Valid()
    modifies parser
    ensures parser.Took(Inheritance(old(parser.Rest())), r)
  {
    var inherits :- parser.MaybeToken(":");
    if inherits {
      var name :- parser.Identifier();
      r := Success(Some(name));
    } else {
      r := Success(None);
    }
  }

  method ParseHandlerName(parser: Parser) returns (r: Outcome<string>)
    requires parser.Valid()
    modifies parser
    ensures parser.Took(HandlerName(old(parser.Rest())), r)
  {
    var token :- parser.Peek();
    var handler :- parser.Identifier();
    r := if "on" <= handler then Success(handler[2..]) else Failure(Unexpected(token));
  }

  method ParseClosing(parser: Parser) returns (r: Outcome<()>)
    requires parser.Valid()
    modifies parser
    ensures parser.Took(Closing(old(parser.Rest())), r)
  {
    var _ :- parser.Expect("}");
    r := parser.Expect(";");
  }

  method ParseMember(parser: Parser) returns (r: Outcome<Members>)
    requires parser.Valid()
    modifies parser
    ensures parser.Took(Member(old(parser.Rest())), r)
  {
    var token :- parser.Peek();
    var doc := MemberDoc(token);
    var _ :- parser.SkipExtendedAttributes();
    var first :- parser.Peek();
    if first.text == "constructor" {
      var _ := parser.Next();
      var _ :- ParseArguments(parser);
      r := Success(NONE);
    } else if first.text == "readonly" {
      var _ := parser.Next();
      var _ :- parser.Expect("attribute");
      var type_ :- ParseType(parser);
      var name :- parser.Identifier();
      r := Success(NONE.(attributes := [IdlAttribute(doc, name, type_)]));
    } else if first.text == "attribute" {
      var _ := parser.Next();
      var _ :- parser.Expect("EventHandler");
      var name :- ParseHandlerName(parser);
      r := Success(NONE.(events := [IdlEvent(doc, name)]));
    } else {
      var returnType :- ParseType(parser);
      var name :- parser.Identifier();
      var arguments :- ParseArguments(parser);
      r := Success(NONE.(operations := [IdlOperation(arguments, doc, name, returnType)]));
    }
  }

  /** The members of an interface, up to the `}`. */
  method ParseMembers(parser: Parser) returns (r: Outcome<Members>)
    requires parser.Valid()
    modifies parser
    ensures parser.Took(MemberList(old(parser.Rest())), r)
  {
    var members := NONE;
    ghost var all := MemberList(parser.Rest());
    AfterNoMembers(all);
    var token :- parser.Peek();
    while token.text != "}"
      invariant parser.Valid() && WebIdl.Peek(parser.Rest()) == Parsed(token, parser.Rest())
      invariant all == AfterMembers(members, MemberList(parser.Rest()))
      decreases Length(parser.Rest())
    {
      var member :- ParseMember(parser);
      var _ :- parser.Expect(";");
      AfterMember(members, member, MemberList(parser.Rest()));
      members := Both(members, member);
      token :- parser.Peek();
    }
    AfterAllMembers(members, parser.Rest());
    r := Success(members);
  }

  method ParseInterface(parser: Parser, doc: seq<string>) returns (r: Outcome<IdlInterface>)
    requires parser.Valid()
    modifies parser
    ensures parser.Took(Interface(old(parser.Rest()), doc), r)
  {
    var name :- parser.Identifier();
    var inherits :- ParseInheritance(parser);
    var _ :- parser.Expect("{");
    var members :- ParseMembers(parser);
    var _ :- ParseClosing(parser);
    r := Success(IdlInterface(doc, name, inherits, members));
  }

  method ParseDictionaryMember(parser: Parser) returns (r: Outcome<IdlDictionaryMember>)
    requires parser.Valid()
    modifies parser
    ensures parser.Took(DictionaryMember(old(parser.Rest())), r)
  {
    var token :- parser.Peek();
    var required :- parser.MaybeToken("required");
    var type_ :- ParseType(parser);
    var name :- parser.Identifier();
    var defaulted :- ParseMaybeDefault(parser);
    var _ :- parser.Expect(";");
    r := Success(IdlDictionaryMember(defaulted, MemberDoc(token), name, required, type_));
  }

  /** The members of a dictionary, up to the `}`. */
  method ParseDictionaryMembers(parser: Parser) returns (r: Outcome<seq<IdlDictionaryMember>>)
    requires parser.Valid()
    modifies parser
    ensures parser.Took(DictionaryMemberList(old(parser.Rest())), r)
  {
    var members := [];
    ghost var all := DictionaryMemberList(parser.Rest());
    AfterNone(all);
    var token :- parser.Peek();
    while token.text != "}"
      invariant parser.Valid() && WebIdl.Peek(parser.Rest()) == Parsed(token, parser.Rest())
      invariant all == After(members, DictionaryMemberList(parser.Rest()))
      decreases Length(parser.Rest())
    {
      var member :- ParseDictionaryMember(parser);
      AfterOne(members, member, DictionaryMemberList(parser.Rest()));
      members := members + [member];
      token :- parser.Peek();
    }
    AfterAll(members, parser.Rest());
    r := Success(members);
  }

  method ParseDictionary(parser: Parser, doc: seq<string>) returns (r: Outcome<IdlDictionary>)
    requires parser.Valid()
    modifies parser
    ensures parser.Took(Dictionary(old(parser.Rest()), doc), r)
  {
    var name :- parser.Identifier();
    var inherits :- ParseInheritance(parser);
    var _ :- parser.Expect("{");
    var members :- ParseDictionaryMembers(parser);
    var _ :- ParseClosing(parser);
    r := Success(IdlDictionary(doc, inherits, members, name));
  }

  method ParseEnum(parser: Parser, doc: seq<string>) returns (r: Outcome<IdlEnum>)
    requires parser.Valid()
    modifies parser
    ensures parser.Took(Enum(old(parser.Rest()), doc), r)
  {
    var name :- parser.Identifier();
    var values := [];
    var _ :- parser.Expect("{");
    ghost var all := ValueList(parser.Rest());
    AfterNone(all);
    var token :- parser.Peek();
    while token.text != "}"
      invariant parser.Valid() && WebIdl.Peek(parser.Rest()) == Parsed(token, parser.Rest())
      invariant all == After(values, ValueList(parser.Rest()))
      decreases Length(parser.Rest())
    {
      var value :- parser.String();
      var _ :- parser.MaybeToken(",");
      AfterOne(values, value, ValueList(parser.Rest()));
      values := values + [value];
      token :- parser.Peek();
    }
    AfterAll(values, parser.Rest());
    var _ :- ParseClosing(parser);
    r := Success(IdlEnum(doc, name, values));
  }

  method ParseDefinition(parser: Parser) returns (r: Outcome<Idl>)
    requires parser.Valid()
    modifies parser
    ensures parser.Took(Definition(old(parser.Rest())), r)
  {
    var token :- parser.Peek();
    var doc := DefinitionDoc(token.comments);
    var _ :- parser.SkipExtendedAttributes();
    var keyword :- parser.Next();
    if keyword.text == "interface" {
      var definition :- ParseInterface(parser, doc);
      r := Success(EMPTY.(interfaces := [definition]));
    } else if keyword.text == "dictionary" {
      var definition :- ParseDictionary(parser, doc);
      r := Success(EMPTY.(dictionaries := [definition]));
    } else if keyword.text == "enum" {
      var definition :- ParseEnum(parser, doc);
      r := Success(EMPTY.(enums := [definition]));
    } else {
      r := Failure(Unexpected(keyword));
    }
  }

  /** All the tokens, as definitions; or why they are not. */
  method ParseWebIdl(tokens: seq<Token>) returns (r: Outcome<Idl>)
    ensures match Definitions(TokensFrom(tokens, 0))
            case Parsed(idl, rest) => r == Success(idl) && rest == End
            case Refused(why) => r == Failure(why)
  {
    var parser := new Parser(tokens);
    var idl := EMPTY;
    ghost var all := Definitions(parser.Rest());
    AfterNoDefinitions(all);
    while !parser.Done()
      invariant parser.Valid() && fresh(parser)
      invariant all == AfterDefinitions(idl, Definitions(parser.Rest()))
      decreases Length(parser.Rest())
    {
      var definition :- ParseDefinition(parser);
      AfterDefinition(idl, definition, Definitions(parser.Rest()));
      idl := Together(idl, definition);
    }
    AfterAllDefinitions(idl, parser.Rest());
    r := Success(idl);
  }
}
