/** Bracketed source code as trees, and how it is written: the reference that the repository's
    hand-written scanners are measured against. It knows nothing of scanner states. */
module SourceCode {

  datatype Bracket = Round | Square | Curly | Angle

  function Opening(bracket: Bracket): char {
    match bracket
    case Round => '('
    case Square => '['
    case Curly => '{'
    case Angle => '<'
  }

  function Closing(bracket: Bracket): char {
    match bracket
    case Round => ')'
    case Square => ']'
    case Curly => '}'
    case Angle => '>'
  }

  /** A character of quoted text: itself, or escaped by a backslash. */
  datatype QuotedChar = Literal(c: char) | Escaped(c: char)

  datatype Piece =
    | Plain(c: char)
    | Quotation(quote: char, body: seq<QuotedChar>)
    | Group(bracket: Bracket, inner: seq<Piece>)

  type Code = seq<Piece>

  function PrintBody(body: seq<QuotedChar>): string {
    if body == [] then ""
    else (if body[0].Literal? then [body[0].c] else ['\\', body[0].c]) + PrintBody(body[1..])
  }

  function PrintPiece(piece: Piece): (text: string)
    ensures text != ""
    decreases piece, 0
  {
    match piece
    case Plain(c) => [c]
    case Quotation(quote, body) => [quote] + PrintBody(body) + [quote]
    case Group(bracket, inner) => [Opening(bracket)] + Print(inner) + [Closing(bracket)]
  }

  function Print(code: Code): string
    decreases code, 0
  {
    if code == [] then "" else PrintPiece(code[0]) + Print(code[1..])
  }

  /** What a language quotes with and nests with. */
  datatype Language = Language(quotes: set<char>, brackets: set<Bracket>)

  predicate IsBracketChar(language: Language, c: char) {
    exists bracket <- language.brackets :: c == Opening(bracket) || c == Closing(bracket)
  }

  predicate WellQuoted(quote: char, body: seq<QuotedChar>) {
    forall q <- body :: q.Literal? ==> q.c != quote && q.c != '\\'
  }

  /** Code of the language: plain characters are neither quotes nor brackets of it. */
  predicate IsPiece(language: Language, piece: Piece)
    decreases piece, 0
  {
    match piece
    case Plain(c) => c !in language.quotes && !IsBracketChar(language, c)
    case Quotation(quote, body) => quote in language.quotes && WellQuoted(quote, body)
    case Group(bracket, inner) => bracket in language.brackets && IsCode(language, inner)
  }

  predicate IsCode(language: Language, code: Code)
    decreases code, 0
  {
    code == [] || (IsPiece(language, code[0]) && IsCode(language, code[1..]))
  }

  /** No plain character of the code, outside its groups, is one of these. */
  predicate Avoids(code: Code, chars: set<char>) {
    forall piece <- code :: piece.Plain? ==> piece.c !in chars
  }
}
