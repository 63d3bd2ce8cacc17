/**
 * What parsing gives can be printed, since it came from tokens.
 *
 * A name that was read is a whole word, a value that was read can be quoted,
 * and a member's documentation was trimmed. A type's first word is not one
 * that its place would read otherwise: an operation's is not `readonly`, an
 * argument's is not `optional` unless it is optional. And a name after a bare
 * `long` is not `long`, since the type would have taken it.
 */
module WebIdlImage {
  import opened Basics
  import opened WebIdl
  import opened WebIdlComments
  import opened WebIdlTokens
  import opened WebIdlPrinter

  /** What the parser needs of tokens: whole words, whole strings and comments of one line. */
  predicate AreLexed(ts: Tokens) {
    ts.More? ==>
      && (IsIdentifier(ts.head.text) ==> IsWord(ts.head.text))
      && ("\"" <= ts.head.text ==> IsQuotable(Unquoted(ts.head.text)))
      && AreLines(ts.head.comments)
      && AreLexed(ts.tail)
  }

  lemma {:induction false} TokensAreLexed(ts: Tokens)
    requires AreTokens(ts)
    ensures AreLexed(ts)
  {
    if ts.More? {
      TokensAreLexed(ts.tail);
    }
  }

  lemma {:induction false} TrimmedStart(lines: seq<string>)
    ensures var r := TrimStart(lines);
            && (r != [] ==> r[0] != "")
            && forall line :: line in r ==> line in lines
  {
    if lines != [] && lines[0] == "" {
      TrimmedStart(lines[1..]);
    }
  }

  lemma {:induction false} TrimmedEnd(lines: seq<string>)
    ensures var r := TrimEnd(lines);
            && r <= lines && (r != [] ==> r[|r| - 1] != "")
            && forall line :: line in r ==> line in lines
  {
    if lines != [] && lines[|lines| - 1] == "" {
      TrimmedEnd(lines[..|lines| - 1]);
    }
  }

  lemma BlockTextTrimmed(block: seq<Comment>)
    requires AreLines(block)
    ensures IsTrimmed(BlockText(block))
  {
    hide TrimStart, TrimEnd;
    TrimmedStart(Texts(block));
    TrimmedEnd(TrimStart(Texts(block)));
  }

  lemma {:induction false} BlocksAreLines(comments: seq<Comment>)
    requires AreLines(comments)
    ensures forall i :: 0 <= i < |CommentBlocks(comments)| ==> AreLines(CommentBlocks(comments)[i])
  {
    if comments != [] {
      BlocksAreLines(comments[..|comments| - 1]);
    }
  }

  lemma MemberDocTrimmed(token: Token)
    requires AreLines(token.comments)
    ensures IsTrimmed(MemberDoc(token))
  {
    var blocks := CommentBlocks(token.comments);
    BlocksAreLines(token.comments);
    if blocks != [] {
      BlockTextTrimmed(blocks[|blocks| - 1]);
    }
  }

  lemma {:induction false} ParagraphsAreLines(blocks: seq<seq<Comment>>)
    requires forall i :: 0 <= i < |blocks| ==> AreLines(blocks[i])
    ensures forall line :: line in Paragraphs(blocks) ==> IsLine(line)
  {
    if blocks != [] {
      BlockTextTrimmed(blocks[|blocks| - 1]);
      if |blocks| > 1 {
        ParagraphsAreLines(blocks[..|blocks| - 1]);
      }
    }
  }

  lemma {:induction false} WithoutLicensesAreBlocks(blocks: seq<seq<Comment>>)
    ensures forall block :: block in WithoutLicenses(blocks) ==> block in blocks
  {
    if blocks != [] {
      WithoutLicensesAreBlocks(blocks[1..]);
    }
  }

  lemma DefinitionDocIsLines(comments: seq<Comment>)
    requires AreLines(comments)
    ensures forall line :: line in DefinitionDoc(comments) ==> IsLine(line)
  {
    BlocksAreLines(comments);
    WithoutLicensesAreBlocks(CommentBlocks(comments));
    var blocks := WithoutLicenses(CommentBlocks(comments));
    assert forall i :: 0 <= i < |blocks| ==> blocks[i] in CommentBlocks(comments);
    ParagraphsAreLines(blocks);
  }

  lemma IdentifierIsWord(ts: Tokens)
    requires AreLexed(ts) && Identifier(ts).Parsed?
    ensures IsWord(Identifier(ts).value) && AreLexed(Identifier(ts).rest)
    ensures ts.More? && Identifier(ts) == Parsed(ts.head.text, ts.tail)
  {
  }

  lemma MaybeLongRead(name: string, last: string, ts: Tokens)
    requires AreLexed(ts) && MaybeLong(name, last, ts).Parsed?
    ensures var r := MaybeLong(name, last, ts);
            && AreLexed(r.rest)
            && (last == "long" && r.value != name ==> r.value == name + " " + "long")
            && (last == "long" && r.value == name ==> r.rest.More? && r.rest.head.text != "long")
            && (last != "long" ==> r.value == name)
  {
  }

  /** A parsed type name, and that a `long` it could take has been taken. */
  lemma TypeNameRead(ts: Tokens)
    requires AreLexed(ts) && TypeName(ts).Parsed?
    ensures var r := TypeName(ts);
            && ts.More? && IsTypeName(r.value) && AreLexed(r.rest) && WordsOf(r.value)[0] == ts.head.text
            && (r.value in ["long", "unsigned long"] ==> r.rest.More? && r.rest.head.text != "long")
  {
    hide MaybeLong, IsWord;
    IdentifierIsWord(ts);
    WordIsOneWord(ts.head.text);
    MultiWordNames();
    var first, rest := ts.head.text, ts.tail;
    if first in MULTI_WORD_TYPES {
      var second := rest.head.text;
      MaybeLongRead(first + " " + second, second, rest.tail);
    } else {
      MaybeLongRead(first, first, rest);
    }
  }

  /** A parsed type; the token after it is not one it would take. */
  lemma {:induction false} TypeRead(ts: Tokens)
    requires AreLexed(ts) && Type(ts).Parsed?
    ensures var r := Type(ts);
            && ts.More? && IsType(r.value) && AreLexed(r.rest) && WordsOf(r.value.name)[0] == ts.head.text
            && (r.rest.More? && IsWord(r.rest.head.text) ==> Names(r.value, r.rest.head.text))
    decreases Length(ts), 1
  {
    hide TypeName, IsTypeName, IsWord;
    TypeNameRead(ts);
    var named := TypeName(ts);
    TypeArgumentsRead(named.rest);
  }

  lemma {:induction false} TypeArgumentsRead(ts: Tokens)
    requires AreLexed(ts) && TypeArguments(ts).Parsed?
    ensures var r := TypeArguments(ts);
            && AreLexed(r.rest) && |r.value| <= 1 && (forall t :: t in r.value ==> IsType(t))
            && (r.value == [] ==> r.rest == ts)
    decreases Length(ts), 0
  {
    if ts.head.text == "<" {
      TypeRead(ts.tail);
    }
  }

  lemma NamedRead(ts: Tokens)
    requires AreLexed(ts) && Type(ts).Parsed? && Identifier(Type(ts).rest).Parsed?
    ensures var name := Identifier(Type(ts).rest);
            && Names(Type(ts).value, name.value) && AreLexed(name.rest)
  {
    hide Type;
    TypeRead(ts);
    IdentifierIsWord(Type(ts).rest);
  }

  lemma MaybeDefaultRead(ts: Tokens)
    requires AreLexed(ts) && MaybeDefault(ts).Parsed?
    ensures AreLexed(MaybeDefault(ts).rest)
  {
    if ts.head.text == "=" {
      assert AreLexed(ts.tail);
      assert AreLexed(ts.tail.tail);
    }
  }

  lemma ArgumentRead(ts: Tokens)
    requires AreLexed(ts) && Argument(ts).Parsed?
    ensures IsArgument(Argument(ts).value) && AreLexed(Argument(ts).rest)
  {
    hide Type, IsType, Identifier, MaybeDefault, Names;
    var typed := MaybeToken(ts, "optional").rest;
    TypeRead(typed);
    NamedRead(typed);
    MaybeDefaultRead(Identifier(Type(typed).rest).rest);
  }

  lemma {:induction false} ArgumentListRead(ts: Tokens)
    requires AreLexed(ts) && ArgumentList(ts).Parsed?
    ensures var r := ArgumentList(ts); AreLexed(r.rest) && forall a :: a in r.value ==> IsArgument(a)
    decreases Length(ts)
  {
    hide Argument, IsArgument;
    if ts.head.text != ")" {
      ArgumentRead(ts);
      ArgumentListRead(Argument(ts).rest);
    }
  }

  lemma ArgumentsRead(ts: Tokens)
    requires AreLexed(ts) && Arguments(ts).Parsed?
    ensures var r := Arguments(ts); AreLexed(r.rest) && forall a :: a in r.value ==> IsArgument(a)
  {
    hide ArgumentList, IsArgument;
    ArgumentListRead(ts.tail);
  }

  lemma {:induction false} ThroughBracketRead(ts: Tokens)
    requires AreLexed(ts) && ThroughBracket(ts).Parsed?
    ensures AreLexed(ThroughBracket(ts).rest)
  {
    if ts.head.text != "]" {
      ThroughBracketRead(ts.tail);
    }
  }

  lemma SkipRead(ts: Tokens)
    requires AreLexed(ts) && SkipExtendedAttributes(ts).Parsed?
    ensures AreLexed(SkipExtendedAttributes(ts).rest)
  {
    if ts.head.text == "[" {
      ThroughBracketRead(ts);
    }
  }

  lemma MemberRead(ts: Tokens)
    requires AreLexed(ts) && Member(ts).Parsed?
    ensures AreMembers(Member(ts).value) && AreLexed(Member(ts).rest)
  {
    hide SkipExtendedAttributes, Type, IsType, Identifier, Arguments, MemberDoc, Names, IsArgument, IsTrimmed;
    MemberDocTrimmed(ts.head);
    SkipRead(ts);
    var rest := SkipExtendedAttributes(ts).rest;
    var first := rest.head.text;
    if first == "constructor" {
      ArgumentsRead(rest.tail);
    } else if first == "readonly" {
      TypeRead(rest.tail.tail);
      NamedRead(rest.tail.tail);
    } else if first == "attribute" {
      HandlerRead(rest.tail.tail);
    } else {
      TypeRead(rest);
      NamedRead(rest);
      ArgumentsRead(Identifier(Type(rest).rest).rest);
    }
  }

  lemma HandlerRead(ts: Tokens)
    requires AreLexed(ts) && HandlerName(ts).Parsed?
    ensures IsWord("on" + HandlerName(ts).value) && AreLexed(HandlerName(ts).rest)
  {
    IdentifierIsWord(ts);
    assert "on" + ts.head.text[2..] == ts.head.text;
  }

  lemma {:induction false} MemberListRead(ts: Tokens)
    requires AreLexed(ts) && MemberList(ts).Parsed?
    ensures AreMembers(MemberList(ts).value) && AreLexed(MemberList(ts).rest)
    decreases Length(ts)
  {
    hide Member, IsAttribute, IsOperation, IsEvent;
    if ts.head.text != "}" {
      MemberRead(ts);
      MemberListRead(Member(ts).rest.tail);
    }
  }

  lemma InheritanceRead(ts: Tokens)
    requires AreLexed(ts) && Inheritance(ts).Parsed?
    ensures var r := Inheritance(ts); AreLexed(r.rest) && (r.value.Some? ==> IsWord(r.value.value))
  {
    hide IsWord;
    if ts.head.text == ":" {
      IdentifierIsWord(ts.tail);
    }
  }

  lemma InterfaceRead(ts: Tokens, doc: seq<string>)
    requires AreLexed(ts) && Interface(ts, doc).Parsed? && forall line :: line in doc ==> IsLine(line)
    ensures IsInterface(Interface(ts, doc).value) && AreLexed(Interface(ts, doc).rest)
  {
    hide Inheritance, MemberList, AreMembers, IsWord, IsLine;
    IdentifierIsWord(ts);
    InheritanceRead(ts.tail);
    var body := Inheritance(ts.tail).rest.tail;
    MemberListRead(body);
    assert AreLexed(MemberList(body).rest.tail);
  }

  lemma DictionaryMemberRead(ts: Tokens)
    requires AreLexed(ts) && DictionaryMember(ts).Parsed?
    ensures IsDictionaryMember(DictionaryMember(ts).value) && AreLexed(DictionaryMember(ts).rest)
  {
    hide Type, IsType, Identifier, MaybeDefault, MemberDoc, Names, IsTrimmed;
    MemberDocTrimmed(ts.head);
    var typed := MaybeToken(ts, "required").rest;
    TypeRead(typed);
    NamedRead(typed);
    MaybeDefaultRead(Identifier(Type(typed).rest).rest);
  }

  lemma {:induction false} DictionaryMemberListRead(ts: Tokens)
    requires AreLexed(ts) && DictionaryMemberList(ts).Parsed?
    ensures var r := DictionaryMemberList(ts); AreLexed(r.rest) && forall m :: m in r.value ==> IsDictionaryMember(m)
    decreases Length(ts)
  {
    hide DictionaryMember, IsDictionaryMember;
    if ts.head.text != "}" {
      DictionaryMemberRead(ts);
      DictionaryMemberListRead(DictionaryMember(ts).rest);
    }
  }

  lemma DictionaryRead(ts: Tokens, doc: seq<string>)
    requires AreLexed(ts) && Dictionary(ts, doc).Parsed? && forall line :: line in doc ==> IsLine(line)
    ensures IsDictionary(Dictionary(ts, doc).value) && AreLexed(Dictionary(ts, doc).rest)
  {
    hide Inheritance, DictionaryMemberList, IsDictionaryMember, IsWord, IsLine;
    IdentifierIsWord(ts);
    InheritanceRead(ts.tail);
    var body := Inheritance(ts.tail).rest.tail;
    DictionaryMemberListRead(body);
    assert AreLexed(DictionaryMemberList(body).rest.tail);
  }

  lemma StringRead(ts: Tokens)
    requires AreLexed(ts) && String(ts).Parsed?
    ensures IsQuotable(String(ts).value) && AreLexed(String(ts).rest)
  {
  }

  lemma {:induction false} ValueListRead(ts: Tokens)
    requires AreLexed(ts) && ValueList(ts).Parsed?
    ensures var r := ValueList(ts); AreLexed(r.rest) && forall value :: value in r.value ==> IsQuotable(value)
    decreases Length(ts)
  {
    hide IsQuotable;
    if ts.head.text != "}" {
      StringRead(ts);
      ValueListRead(MaybeToken(ts.tail, ",").rest);
    }
  }

  lemma EnumRead(ts: Tokens, doc: seq<string>)
    requires AreLexed(ts) && Enum(ts, doc).Parsed? && forall line :: line in doc ==> IsLine(line)
    ensures IsEnum(Enum(ts, doc).value) && AreLexed(Enum(ts, doc).rest)
  {
    hide ValueList, IsQuotable, IsWord, IsLine;
    IdentifierIsWord(ts);
    var body := ts.tail.tail;
    ValueListRead(body);
    assert AreLexed(ValueList(body).rest.tail);
  }

  lemma DefinitionRead(ts: Tokens)
    requires AreLexed(ts) && Definition(ts).Parsed?
    ensures IsIdl(Definition(ts).value) && AreLexed(Definition(ts).rest)
  {
    hide SkipExtendedAttributes, DefinitionDoc, Interface, Dictionary, Enum, IsLine, IsInterface, IsDictionary,
         IsEnum;
    DefinitionDocIsLines(ts.head.comments);
    var doc := DefinitionDoc(ts.head.comments);
    SkipRead(ts);
    var rest := SkipExtendedAttributes(ts).rest;
    if rest.head.text == "interface" {
      InterfaceRead(rest.tail, doc);
    } else if rest.head.text == "dictionary" {
      DictionaryRead(rest.tail, doc);
    } else {
      EnumRead(rest.tail, doc);
    }
  }

  lemma {:induction false} DefinitionsRead(ts: Tokens)
    requires AreLexed(ts) && Definitions(ts).Parsed?
    ensures IsIdl(Definitions(ts).value)
    decreases Length(ts)
  {
    hide Definition, IsInterface, IsDictionary, IsEnum;
    if ts.More? {
      DefinitionRead(ts);
      DefinitionsRead(Definition(ts).rest);
    }
  }

  /** Whatever is parsed can be printed. */
  lemma ParsedCanBePrinted(ts: Tokens)
    requires AreTokens(ts) && Definitions(ts).Parsed?
    ensures IsIdl(Definitions(ts).value)
  {
    hide Definitions, IsIdl;
    TokensAreLexed(ts);
    DefinitionsRead(ts);
  }
}
