/** Printed Kotlin argument and parameter lists, with nested brackets, quoted text, type
    arguments and default values, are found and cut apart again. */
module SegmentGrammar {
  import opened Text
  import opened SourceCode
  import opened KotlinSegments

  /** Expressions: one quote, three brackets; angle brackets are plain characters. */
  const EXPRESSIONS := Language({'"'}, {Round, Square, Curly})

  /** Types: angle brackets nest as well. */
  const TYPES := Language({'"'}, {Round, Square, Curly, Angle})

  // ----- cutting at commas

  lemma {:induction false} RunsConcat(track: bool, a: string, b: string, x: Scan)
    requires Runs(track, a, x).Some?
    ensures Runs(track, a + b, x) == Runs(track, b, Runs(track, a, x).value)
    decreases |a|
  {
    if a == "" {
      assert a + b == b;
    } else {
      assert (a + b)[1..] == a[1..] + b;
      RunsConcat(track, a[1..], b, NextScan(track, x, a[0]));
    }
  }

  /** The text takes the scanner from `x` to `y` without ending a segment. */
  ghost predicate Takes(track: bool, text: string, x: Scan, y: Scan) { Runs(track, text, x) == Some(y) }

  lemma TakesBoth(track: bool, a: string, b: string, x: Scan, y: Scan, z: Scan)
    requires Takes(track, a, x, y) && Takes(track, b, y, z)
    ensures Takes(track, a + b, x, z)
  {
    RunsConcat(track, a, b, x);
  }

  lemma TakesOne(track: bool, c: char, x: Scan)
    requires !(c == ',' && AtTop(x))
    ensures Takes(track, [c], x, NextScan(track, x, c))
  {
    assert [c][1..] == "";
  }

  function InQuotes(x: Scan): Scan { x.(quoted := true) }

  lemma {:induction false} TakesBody(track: bool, body: seq<QuotedChar>, x: Scan)
    requires WellQuoted('"', body) && !x.escaped && x.quoted
    ensures Takes(track, PrintBody(body), x, x)
    decreases |body|
  {
    if body != [] {
      var c := body[0].c;
      assert body[0] in body;
      TakesBody(track, body[1..], x);
      if body[0].Literal? {
        TakesOne(track, c, x);
        TakesBoth(track, [c], PrintBody(body[1..]), x, x, x);
      } else {
        var escaped := x.(escaped := true);
        TakesOne(track, '\\', x);
        TakesOne(track, c, escaped);
        TakesBoth(track, ['\\'], [c], x, escaped, x);
        assert ['\\'] + [c] == ['\\', c];
        TakesBoth(track, ['\\', c], PrintBody(body[1..]), x, x, x);
      }
    }
  }

  lemma TakesQuotation(track: bool, body: seq<QuotedChar>, x: Scan)
    requires WellQuoted('"', body) && !x.escaped && !x.quoted
    ensures Takes(track, ['"'] + PrintBody(body) + ['"'], x, x)
  {
    var inside := InQuotes(x);
    TakesOne(track, '"', x);
    TakesBody(track, body, inside);
    TakesOne(track, '"', inside);
    TakesBoth(track, ['"'], PrintBody(body), x, inside, inside);
    TakesBoth(track, ['"'] + PrintBody(body), ['"'], x, inside, x);
  }

  /** The scanner reads types: it tracks type arguments and has not met a default value. */
  predicate ReadsTypes(track: bool, x: Scan) { track && !x.inDefault }

  function LanguageAt(track: bool, x: Scan): Language { if ReadsTypes(track, x) then TYPES else EXPRESSIONS }

  /** Outside quotes, with nothing closed that was not opened. */
  predicate Balanced(x: Scan) {
    !x.quoted && !x.escaped && x.typeDepth >= 0 && x.round >= 0 && x.square >= 0 && x.curly >= 0 &&
    (x.inDefault ==> x.typeDepth == 0)
  }

  /** The characters that end something at top level. */
  function Ends(track: bool, x: Scan): set<char> {
    if !AtTop(x) then {} else if ReadsTypes(track, x) then {',', '='} else {','}
  }

  function Into(x: Scan, bracket: Bracket): Scan {
    match bracket
    case Round => x.(round := x.round + 1)
    case Square => x.(square := x.square + 1)
    case Curly => x.(curly := x.curly + 1)
    case Angle => x.(typeDepth := x.typeDepth + 1)
  }

  lemma TakesBracket(track: bool, bracket: Bracket, x: Scan)
    requires Balanced(x) && bracket in LanguageAt(track, x).brackets
    ensures Takes(track, [Opening(bracket)], x, Into(x, bracket))
    ensures Takes(track, [Closing(bracket)], Into(x, bracket), x)
  {
    TakesOne(track, Opening(bracket), x);
    TakesOne(track, Closing(bracket), Into(x, bracket));
  }

  lemma PlainIsNoBracket(language: Language, c: char, bracket: Bracket)
    requires IsPiece(language, Plain(c)) && bracket in language.brackets
    ensures c != Opening(bracket) && c != Closing(bracket)
  {
  }

  lemma TakesPlain(track: bool, c: char, x: Scan)
    requires Balanced(x) && IsPiece(LanguageAt(track, x), Plain(c)) && c !in Ends(track, x)
    ensures Takes(track, [c], x, x)
  {
    var language := LanguageAt(track, x);
    PlainIsNoBracket(language, c, Round);
    PlainIsNoBracket(language, c, Square);
    PlainIsNoBracket(language, c, Curly);
    if ReadsTypes(track, x) { PlainIsNoBracket(language, c, Angle); }
    TakesOne(track, c, x);
  }

  lemma {:induction false} TakesPiece(track: bool, piece: Piece, x: Scan)
    requires Balanced(x) && IsPiece(LanguageAt(track, x), piece) && (piece.Plain? ==> piece.c !in Ends(track, x))
    requires !track ==> x.typeDepth == 0
    ensures Takes(track, PrintPiece(piece), x, x)
    decreases piece, 0
  {
    match piece
    case Plain(c) => TakesPlain(track, c, x);
    case Quotation(quote, body) => TakesQuotation(track, body, x);
    case Group(bracket, inner) =>
      var deeper := Into(x, bracket);
      TakesBracket(track, bracket, x);
      assert Ends(track, deeper) == {};
      TakesCode(track, inner, deeper);
      TakesBoth(track, [Opening(bracket)], Print(inner), x, deeper, deeper);
      TakesBoth(track, [Opening(bracket)] + Print(inner), [Closing(bracket)], x, deeper, x);
  }

  lemma {:induction false} TakesCode(track: bool, code: Code, x: Scan)
    requires Balanced(x) && IsCode(LanguageAt(track, x), code) && Avoids(code, Ends(track, x))
    requires !track ==> x.typeDepth == 0
    ensures Takes(track, Print(code), x, x)
    decreases code, 0
  {
    if code != [] {
      assert code[0] in code;
      TakesPiece(track, code[0], x);
      TakesCode(track, code[1..], x);
      TakesBoth(track, PrintPiece(code[0]), Print(code[1..]), x, x, x);
    }
  }

  // ----- argument lists

  /** An argument: code without a comma outside its brackets and quotes. */
  predicate IsArgument(code: Code) { IsCode(EXPRESSIONS, code) && Avoids(code, {','}) }

  function PrintAll(args: seq<Code>): (texts: seq<string>)
    ensures |texts| == |args|
  {
    seq(|args|, i requires 0 <= i < |args| => Print(args[i]))
  }

  lemma CuttingOf(track: bool, texts: seq<string>)
    requires texts != [] && forall text <- texts :: Closed(track, text)
    ensures IsCutting(track, texts)
  {
    assert texts[|texts| - 1] in texts;
  }

  lemma ArgumentsAreClosed(args: seq<Code>)
    requires forall a <- args :: IsArgument(a)
    ensures forall text <- PrintAll(args) :: Closed(false, text)
  {
    forall text <- PrintAll(args) ensures Closed(false, text) {
      var i :| 0 <= i < |args| && PrintAll(args)[i] == text;
      assert args[i] in args;
      TakesCode(false, args[i], FRESH);
    }
  }

  /** Splitting a printed argument list gives the printed arguments. */
  lemma PrintedArgumentsSplit(args: seq<Code>)
    requires args != [] && forall a <- args :: IsArgument(a)
    ensures Pieces(false, Join(PrintAll(args), ','), "", FRESH) == PrintAll(args)
  {
    ArgumentsAreClosed(args);
    CuttingOf(false, PrintAll(args));
    PiecesOfCutting(false, PrintAll(args));
  }

  // ----- parameter lists

  /** A parameter: a name and type, in which angle brackets nest, and perhaps a default
      value, in which they do not. */
  datatype Parameter = Parameter(declared: Code, default: Option<Code>)

  predicate IsParameter(p: Parameter) {
    IsCode(TYPES, p.declared) && Avoids(p.declared, {',', '='}) &&
    (p.default.Some? ==> IsCode(EXPRESSIONS, p.default.value) && Avoids(p.default.value, {','}))
  }

  function PrintParameter(p: Parameter): string {
    Print(p.declared) + if p.default.Some? then ['='] + Print(p.default.value) else ""
  }

  lemma ParameterIsClosed(p: Parameter)
    requires IsParameter(p)
    ensures Closed(true, PrintParameter(p))
  {
    TakesCode(true, p.declared, FRESH);
    if p.default.Some? {
      var inDefault := FRESH.(inDefault := true);
      TakesOne(true, '=', FRESH);
      TakesCode(true, p.default.value, inDefault);
      TakesBoth(true, ['='], Print(p.default.value), FRESH, inDefault, inDefault);
      TakesBoth(true, Print(p.declared), ['='] + Print(p.default.value), FRESH, FRESH, inDefault);
    } else {
      assert Print(p.declared) + "" == Print(p.declared);
    }
  }

  function PrintParameters(parameters: seq<Parameter>): (texts: seq<string>)
    ensures |texts| == |parameters|
  {
    seq(|parameters|, i requires 0 <= i < |parameters| => PrintParameter(parameters[i]))
  }

  /** Splitting a printed parameter list gives the printed parameters. */
  lemma PrintedParametersSplit(parameters: seq<Parameter>)
    requires parameters != [] && forall p <- parameters :: IsParameter(p)
    ensures Pieces(true, Join(PrintParameters(parameters), ','), "", FRESH) == PrintParameters(parameters)
  {
    var texts := PrintParameters(parameters);
    forall text <- texts ensures Closed(true, text) {
      var i :| 0 <= i < |texts| && texts[i] == text;
      assert parameters[i] in parameters;
      ParameterIsClosed(parameters[i]);
    }
    CuttingOf(true, texts);
    PiecesOfCutting(true, texts);
  }

  // ----- the closing delimiter

  function PairOf(bracket: Bracket): Pair { Pair(Opening(bracket), Closing(bracket)) }

  ghost predicate StaysFrom(p: Pair, text: string, x: Lex, y: Lex) { Stays(p, text, x) == Some(y) }

  lemma StaysBoth(p: Pair, a: string, b: string, x: Lex, y: Lex, z: Lex)
    requires StaysFrom(p, a, x, y) && StaysFrom(p, b, y, z)
    ensures StaysFrom(p, a + b, x, z)
  {
    StaysConcat(p, a, b, x);
  }

  lemma StaysOne(p: Pair, c: char, x: Lex)
    requires !Closes(p, x, c)
    ensures StaysFrom(p, [c], x, NextLex(p, x, c))
  {
    assert [c][1..] == "";
  }

  function Open(depth: int): Lex { Lex(depth, false, false) }

  lemma {:induction false} StaysBody(p: Pair, body: seq<QuotedChar>, x: Lex)
    requires WellQuoted('"', body) && !x.escaped && x.quoted
    ensures StaysFrom(p, PrintBody(body), x, x)
    decreases |body|
  {
    if body != [] {
      var c := body[0].c;
      assert body[0] in body;
      StaysBody(p, body[1..], x);
      if body[0].Literal? {
        StaysOne(p, c, x);
        StaysBoth(p, [c], PrintBody(body[1..]), x, x, x);
      } else {
        var escaped := x.(escaped := true);
        StaysOne(p, '\\', x);
        StaysOne(p, c, escaped);
        StaysBoth(p, ['\\'], [c], x, escaped, x);
        assert ['\\'] + [c] == ['\\', c];
        StaysBoth(p, ['\\', c], PrintBody(body[1..]), x, x, x);
      }
    }
  }

  lemma StaysQuotation(bracket: Bracket, body: seq<QuotedChar>, depth: nat)
    requires WellQuoted('"', body) && depth > 0
    ensures StaysFrom(PairOf(bracket), ['"'] + PrintBody(body) + ['"'], Open(depth), Open(depth))
  {
    var p, x, inside := PairOf(bracket), Open(depth), Lex(depth, true, false);
    StaysOne(p, '"', x);
    StaysBody(p, body, inside);
    StaysOne(p, '"', inside);
    StaysBoth(p, ['"'], PrintBody(body), x, inside, inside);
    StaysBoth(p, ['"'] + PrintBody(body), ['"'], x, inside, x);
  }

  predicate QuotesOnce(language: Language, bracket: Bracket) { language.quotes == {'"'} && bracket in language.brackets }

  lemma {:induction false} StaysPiece(language: Language, bracket: Bracket, piece: Piece, depth: nat)
    requires QuotesOnce(language, bracket) && IsPiece(language, piece) && depth > 0
    ensures StaysFrom(PairOf(bracket), PrintPiece(piece), Open(depth), Open(depth))
    decreases piece, 0
  {
    var p, x := PairOf(bracket), Open(depth);
    match piece
    case Plain(c) =>
      PlainIsNoBracket(language, c, bracket);
      StaysOne(p, c, x);
    case Quotation(quote, body) => StaysQuotation(bracket, body, depth);
    case Group(other, inner) =>
      var deeper := Open(if other == bracket then depth + 1 else depth);
      StaysOne(p, Opening(other), x);
      StaysCode(language, bracket, inner, deeper.depth);
      StaysOne(p, Closing(other), deeper);
      StaysBoth(p, [Opening(other)], Print(inner), x, deeper, deeper);
      StaysBoth(p, [Opening(other)] + Print(inner), [Closing(other)], x, deeper, x);
  }

  lemma {:induction false} StaysCode(language: Language, bracket: Bracket, code: Code, depth: nat)
    requires QuotesOnce(language, bracket) && IsCode(language, code) && depth > 0
    ensures StaysFrom(PairOf(bracket), Print(code), Open(depth), Open(depth))
    decreases code, 0
  {
    if code != [] {
      StaysPiece(language, bracket, code[0], depth);
      StaysCode(language, bracket, code[1..], depth);
      StaysBoth(PairOf(bracket), PrintPiece(code[0]), Print(code[1..]), Open(depth), Open(depth), Open(depth));
    }
  }

  lemma GroupLayout(before: string, bracket: Bracket, text: string, after: string)
    ensures var source, i := before + ([Opening(bracket)] + text + [Closing(bracket)]) + after, |before| + 1;
      i + |text| < |source| && source[|before|] == Opening(bracket) && source[i..i + |text|] == text &&
      source[i + |text|] == Closing(bracket)
  {
    var source, i := before + ([Opening(bracket)] + text + [Closing(bracket)]) + after, |before| + 1;
    assert source == before + ([Opening(bracket)] + (text + ([Closing(bracket)] + after)));
    assert source[i..] == text + ([Closing(bracket)] + after);
    assert source[i..][..|text|] == text;
  }

  lemma OpensAt(p: Pair, source: string, start: nat)
    requires start < |source| && source[start] == p.opening && p.opening != '"'
    ensures LexAfter(p, source[start..start + 1]) == INSIDE && !ClosesAt(p, source, start, start)
  {
    LexOneMore(p, source, start, start);
    assert source[start..start] == "";
  }

  /** For any kind of bracket and any code between two of them, in any context, the opening
      one is closed by the one printed behind the code. */
  lemma PrintedGroupCloses(language: Language, before: string, bracket: Bracket, inner: Code, after: string)
    requires QuotesOnce(language, bracket) && IsCode(language, inner)
    ensures Finds(PairOf(bracket), before + PrintPiece(Group(bracket, inner)) + after, |before|, |before| + 1 + |Print(inner)|)
  {
    var p, text := PairOf(bracket), Print(inner);
    var source, i := before + PrintPiece(Group(bracket, inner)) + after, |before| + 1;
    GroupLayout(before, bracket, text, after);
    OpensAt(p, source, |before|);
    StaysCode(language, bracket, inner, 1);
    StaysOpen(p, source, |before|, i, text, INSIDE);
  }
}
