/** Printed call arguments with nested brackets and quoted text are what the call scanner
    takes for self-contained arguments, so printing a call and scanning it gives them back. */
module CallGrammar {
  import opened Text
  import opened SourceCode
  import opened CallScanner

  /** Three quotes; parentheses, square and curly brackets nest. */
  const CALLS := Language({'\'', '"', '`'}, {Round, Square, Curly})

  /** The text takes the scanner from `x` to `y`, cutting nowhere and closing nothing that
      it did not open. */
  predicate Runs(s: string, x: Lex, y: Lex) {
    if s == "" then x == y
    else !Cuts(x, s[0]) && !(IsBare(x.quoting, s[0]) && Underflows(x.depths, s[0])) && Runs(s[1..], NextLex(x, s[0]), y)
  }

  lemma {:induction false} RunsConcat(a: string, b: string, x: Lex, y: Lex, z: Lex)
    requires Runs(a, x, y) && Runs(b, y, z)
    ensures Runs(a + b, x, z)
    decreases |a|
  {
    if a == "" {
      assert a + b == b;
    } else {
      assert (a + b)[1..] == a[1..] + b;
      RunsConcat(a[1..], b, NextLex(x, a[0]), y, z);
    }
  }

  lemma RunsOne(c: char, x: Lex)
    requires !Cuts(x, c) && !(IsBare(x.quoting, c) && Underflows(x.depths, c))
    ensures Runs([c], x, NextLex(x, c))
  {
    assert [c][1..] == "";
  }

  lemma {:induction false} RunsToSelfContained(s: string, x: Lex)
    requires Runs(s, x, OUTSIDE)
    ensures SelfContained(s, x)
  {
    if s != "" { RunsToSelfContained(s[1..], NextLex(x, s[0])); }
  }

  function Bare(d: Depths): Lex { Lex(d, PLAIN) }

  function Quoted(d: Depths, quote: char): Lex { Lex(d, Quoting(Some(quote), false)) }

  lemma {:induction false} RunsBody(quote: char, body: seq<QuotedChar>, d: Depths)
    requires WellQuoted(quote, body)
    ensures Runs(PrintBody(body), Quoted(d, quote), Quoted(d, quote))
    decreases |body|
  {
    if body != [] {
      var x, c := Quoted(d, quote), body[0].c;
      assert body[0] in body;
      RunsBody(quote, body[1..], d);
      if body[0].Literal? {
        RunsOne(c, x);
        RunsConcat([c], PrintBody(body[1..]), x, x, x);
      } else {
        var escaped := Lex(d, Quoting(Some(quote), true));
        RunsOne('\\', x);
        RunsOne(c, escaped);
        RunsConcat(['\\'], [c], x, escaped, x);
        assert ['\\'] + [c] == ['\\', c];
        RunsConcat(['\\', c], PrintBody(body[1..]), x, x, x);
      }
    }
  }

  lemma RunsQuotation(quote: char, body: seq<QuotedChar>, d: Depths)
    requires quote in CALLS.quotes && WellQuoted(quote, body)
    ensures Runs([quote] + PrintBody(body) + [quote], Bare(d), Bare(d))
  {
    RunsOne(quote, Bare(d));
    RunsBody(quote, body, d);
    RunsOne(quote, Quoted(d, quote));
    RunsConcat([quote], PrintBody(body), Bare(d), Quoted(d, quote), Quoted(d, quote));
    RunsConcat([quote] + PrintBody(body), [quote], Bare(d), Quoted(d, quote), Bare(d));
  }

  /** The depths one bracket further in. */
  function Into(d: Depths, bracket: Bracket): Depths
    requires bracket in CALLS.brackets
  {
    match bracket
    case Round => d.(paren := d.paren + 1)
    case Square => d.(bracket := d.bracket + 1)
    case Curly => d.(brace := d.brace + 1)
  }

  lemma RunsOpening(bracket: Bracket, d: Depths)
    requires bracket in CALLS.brackets
    ensures Runs([Opening(bracket)], Bare(d), Bare(Into(d, bracket)))
    ensures Runs([Closing(bracket)], Bare(Into(d, bracket)), Bare(d))
  {
    RunsOne(Opening(bracket), Bare(d));
    RunsOne(Closing(bracket), Bare(Into(d, bracket)));
  }

  lemma RunsPlain(c: char, d: Depths)
    requires IsPiece(CALLS, Plain(c)) && (d == FLAT ==> c != ',')
    ensures Runs([c], Bare(d), Bare(d))
  {
    assert Round in CALLS.brackets && Square in CALLS.brackets && Curly in CALLS.brackets;
    assert c != Opening(Round) && c != Closing(Round) && c != Opening(Square) && c != Closing(Square);
    assert c != Opening(Curly) && c != Closing(Curly);
    RunsOne(c, Bare(d));
  }

  lemma {:induction false} RunsPiece(piece: Piece, d: Depths)
    requires IsPiece(CALLS, piece) && (d == FLAT && piece.Plain? ==> piece.c != ',')
    ensures Runs(PrintPiece(piece), Bare(d), Bare(d))
    decreases piece, 0
  {
    match piece
    case Plain(c) => RunsPlain(c, d);
    case Quotation(quote, body) => RunsQuotation(quote, body, d);
    case Group(bracket, inner) =>
      var deeper := Bare(Into(d, bracket));
      RunsOpening(bracket, d);
      RunsCode(inner, Into(d, bracket));
      RunsConcat([Opening(bracket)], Print(inner), Bare(d), deeper, deeper);
      RunsConcat([Opening(bracket)] + Print(inner), [Closing(bracket)], Bare(d), deeper, Bare(d));
  }

  lemma {:induction false} RunsCode(code: Code, d: Depths)
    requires IsCode(CALLS, code) && (d == FLAT ==> Avoids(code, {','}))
    ensures Runs(Print(code), Bare(d), Bare(d))
    decreases code, 0
  {
    if code != [] {
      assert code[0] in code;
      RunsPiece(code[0], d);
      RunsCode(code[1..], d);
      RunsConcat(PrintPiece(code[0]), Print(code[1..]), Bare(d), Bare(d), Bare(d));
    }
  }

  /** An argument: code without a comma outside its brackets and quotes, printed without
      blanks around it. */
  predicate IsArgumentCode(code: Code) {
    code != [] && IsCode(CALLS, code) && Avoids(code, {','}) && Trim(Print(code)) == Print(code)
  }

  function PrintAll(args: seq<Code>): (texts: seq<string>)
    ensures |texts| == |args|
  {
    seq(|args|, i requires 0 <= i < |args| => Print(args[i]))
  }

  /** Scanning a printed call, in any context, returns the printed arguments. */
  lemma PrintedArgumentsScan(before: string, args: seq<Code>, suffix: string)
    requires forall a <- args :: IsArgumentCode(a)
    ensures var texts := PrintAll(args);
      var source, close := before + "(" + Join(texts, ',') + ")" + suffix, |before| + 1 + |Join(texts, ',')|;
      MatchFrom(source, |before| + 1, 1, PLAIN) == Some(close) && close < |source| &&
      Pieces(source[|before| + 1..close], "", OUTSIDE) != [] &&
      Arguments(Pieces(source[|before| + 1..close], "", OUTSIDE)) == texts
  {
    forall text <- PrintAll(args) ensures IsArgument(text) {
      var i :| 0 <= i < |args| && PrintAll(args)[i] == text;
      assert args[i] in args;
      RunsCode(args[i], FLAT);
      RunsToSelfContained(text, OUTSIDE);
    }
    PrintedCallParsesBack(before, PrintAll(args), suffix);
  }
}
