/**
 * From a source to its definitions, and the other way: the definitions that
 * some source has are exactly those that can be printed.
 */
module WebIdlSource {
  import opened Basics
  import opened WebIdl
  import opened WebIdlTokens
  import opened WebIdlText
  import opened WebIdlPrinter
  import opened WebIdlParser
  import WebIdlImage
  import WebIdlLayout
  import WebIdlRoundTrip

  datatype SourceError = NoToken(line: int) | NoDefinition(why: Refusal)

  function ParsedSource(source: string): Result<Idl, SourceError> {
    match Tokenized(source, 1, [])
    case Failure(line) => Failure(NoToken(line))
    case Success(ts) =>
      match Definitions(ts)
      case Refused(why) => Failure(NoDefinition(why))
      case Parsed(idl, _) => Success(idl)
  }

  method ParseSource(source: string) returns (r: Result<Idl, SourceError>)
    ensures r == ParsedSource(source)
  {
    var tokens := Tokenize(source);
    if tokens.Failure? {
      return Failure(NoToken(tokens.error));
    }
    ListedFrom(tokens.value, |tokens.value|);
    assert tokens.value[..|tokens.value|] == tokens.value;
    var idl := ParseWebIdl(tokens.value);
    r := if idl.Success? then Success(idl.value) else Failure(NoDefinition(idl.error));
  }

  lemma {:induction false} ListedFrom(tokens: seq<Token>, i: nat)
    requires i <= |tokens|
    ensures Listed(tokens[..i], TokensFrom(tokens, i)) == TokensFrom(tokens, 0)
  {
    if i > 0 {
      assert tokens[..i][..i - 1] == tokens[..i - 1];
      ListedFrom(tokens, i - 1);
    }
  }

  /** Parsing the source written for `idl` gives `idl`. */
  lemma WrittenIsParsed(idl: Idl)
    requires IsIdl(idl)
    ensures ParsedSource(Text(Print(idl), 1)) == Success(idl)
  {
    hide IsIdl, Print, Text, Definitions, Tokenized;
    WebIdlLayout.PrintWritten(idl);
    TextRead(Print(idl), 1, "");
    assert "" + Text(Print(idl), 1) == Text(Print(idl), 1);
    WebIdlRoundTrip.PrintedIsParsed(idl);
  }

  /** The definitions some source has are those that can be printed. */
  lemma SourcesHaveWhatCanBePrinted(idl: Idl)
    ensures IsIdl(idl) <==> exists source :: ParsedSource(source) == Success(idl)
  {
    hide IsIdl, Print, Text, Definitions, Tokenized;
    if IsIdl(idl) {
      WrittenIsParsed(idl);
    }
    forall source | ParsedSource(source) == Success(idl) ensures IsIdl(idl) {
      TokenizedAreTokens(source, 1, []);
      WebIdlImage.ParsedCanBePrinted(Tokenized(source, 1, []).value);
    }
  }
}
