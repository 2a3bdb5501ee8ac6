/** The number-literal token of the C# code model: an immutable leaf that
    carries its owning document, its exact text and the Number type tag. */
module Tokens {
  import opened Wrappers

  /** The token-type tags that matter to this model. */
  datatype TokenType =
    | Number
    | Identifier
    | Keyword
    | OperatorSymbol
    | StringLiteral
    | OpenParenthesis
    | CloseParenthesis
    | Comma
    | WhiteSpace
    | EndOfLine

  /** Identity of the C# document that owns a token or a node. */
  datatype CsDocument = CsDocument(id: nat)

  /** Where a token lies in its document. */
  datatype CodeLocation = CodeLocation(line: nat, column: nat, offset: nat, length: nat)

  /** The location-less constructor leaves location and the generated flag to
      the base token class; the located one supplies both. */
  datatype Placement =
    | Unplaced
    | Placed(location: CodeLocation, generated: bool)

  datatype NumberToken = NumberToken(
    document: CsDocument,
    text: string,
    tokenType: TokenType,
    placement: Placement)

  /** A string argument that is neither null nor empty. */
  predicate ValidString(text: Option<string>) {
    text.Some? && |text.value| > 0
  }

  /** What every number token satisfies, whichever constructor built it. */
  predicate ValidNumberToken(t: NumberToken) {
    t.tokenType == Number && |t.text| > 0
  }

  /** NumberToken(document, text): the location-less constructor. */
  function NewNumberToken(document: Option<CsDocument>, text: Option<string>): (t: NumberToken)
    requires document.Some?
    requires ValidString(text)
    ensures ValidNumberToken(t)
    ensures t.tokenType == Number
    ensures t.document == document.value
    ensures t.text == text.value
    ensures t.placement.Unplaced?
  {
    NumberToken(document.value, text.value, Number, Unplaced)
  }

  /** NumberToken(document, text, location, generated): the located constructor. */
  function NewLocatedNumberToken(
    document: Option<CsDocument>, text: Option<string>,
    location: Option<CodeLocation>, generated: bool): (t: NumberToken)
    requires document.Some?
    requires ValidString(text)
    requires location.Some?
    ensures ValidNumberToken(t)
    ensures t.tokenType == Number
    ensures t.document == document.value
    ensures t.text == text.value
    ensures t.placement == Placed(location.value, generated)
  {
    NumberToken(document.value, text.value, Number, Placed(location.value, generated))
  }

  /** The located constructor is injective: the token keeps every argument
      exactly as given, so two tokens built from different arguments differ. */
  lemma LocatedNumberTokenInjective(
    d1: Option<CsDocument>, s1: Option<string>, l1: Option<CodeLocation>, g1: bool,
    d2: Option<CsDocument>, s2: Option<string>, l2: Option<CodeLocation>, g2: bool)
    requires d1.Some? && ValidString(s1) && l1.Some?
    requires d2.Some? && ValidString(s2) && l2.Some?
    ensures NewLocatedNumberToken(d1, s1, l1, g1) == NewLocatedNumberToken(d2, s2, l2, g2)
            <==> d1 == d2 && s1 == s2 && l1 == l2 && g1 == g2
  {
  }

  /** Every valid number token is the result of one of the two constructors
      applied to its own fields, so the two constructors together build exactly
      the valid tokens. */
  lemma ValidNumberTokenIsConstructed(t: NumberToken)
    requires ValidNumberToken(t)
    ensures match t.placement
      case Unplaced => t == NewNumberToken(Some(t.document), Some(t.text))
      case Placed(loc, gen) => t == NewLocatedNumberToken(Some(t.document), Some(t.text), Some(loc), gen)
  {
  }
}
