/** Printed Kotlin interpolations are read back to their end: braces nest, and quoted text,
    with its braces and escaped quotes, is passed over. */
module InterpolationGrammar {
  import opened Text
  import opened SourceCode
  import opened KotlinInterpolations

  /** Inside `${...}` Kotlin code quotes with either quote and nests with braces. */
  const KOTLIN := Language({'"', '\''}, {Curly})

  ghost predicate At(s: string, i: nat, text: string) { i + |text| <= |s| && s[i..i + |text|] == text }

  lemma AtParts(s: string, i: nat, a: string, b: string)
    requires At(s, i, a + b)
    ensures At(s, i, a) && At(s, i + |a|, b)
  {
    assert s[i..i + |a + b|][..|a|] == a && s[i..i + |a + b|][|a|..] == b;
  }

  function Within(depth: nat): BraceState { BraceState(depth, None, false) }

  function Quoting(depth: nat, quote: char): BraceState { BraceState(depth, Some(quote), false) }

  lemma {:induction false} PassBody(s: string, i: nat, quote: char, body: seq<QuotedChar>, depth: nat)
    requires depth > 0 && WellQuoted(quote, body) && At(s, i, PrintBody(body))
    ensures BraceEnd(s, i, Quoting(depth, quote)) == BraceEnd(s, i + |PrintBody(body)|, Quoting(depth, quote))
    decreases |body|
  {
    if body != [] {
      var head := if body[0].Literal? then [body[0].c] else ['\\', body[0].c];
      AtParts(s, i, head, PrintBody(body[1..]));
      assert s[i..i + |head|][0] == s[i] == head[0];
      assert body[0] in body;
      if body[0].Escaped? {
        assert s[i..i + |head|][1] == s[i + 1];
      }
      PassBody(s, i + |head|, quote, body[1..], depth);
    }
  }

  lemma PassQuotation(s: string, i: nat, quote: char, body: seq<QuotedChar>, depth: nat)
    requires depth > 0 && quote in KOTLIN.quotes && WellQuoted(quote, body)
    requires At(s, i, [quote] + PrintBody(body) + [quote])
    ensures BraceEnd(s, i, Within(depth)) == BraceEnd(s, i + |PrintBody(body)| + 2, Within(depth))
  {
    AtParts(s, i, [quote] + PrintBody(body), [quote]);
    AtParts(s, i, [quote], PrintBody(body));
    var close := i + 1 + |PrintBody(body)|;
    assert s[i..i + 1][0] == quote && s[close..close + 1][0] == quote;
    PassBody(s, i + 1, quote, body, depth);
  }

  lemma PassPlain(s: string, i: nat, c: char, depth: nat)
    requires depth > 0 && IsPiece(KOTLIN, Plain(c)) && At(s, i, [c])
    ensures BraceEnd(s, i, Within(depth)) == BraceEnd(s, i + 1, Within(depth))
  {
    assert s[i..i + 1][0] == c;
    assert Opening(Curly) == '{' && Closing(Curly) == '}' && Curly in KOTLIN.brackets;
  }

  lemma {:induction false} PassPiece(s: string, i: nat, piece: Piece, depth: nat)
    requires depth > 0 && IsPiece(KOTLIN, piece) && At(s, i, PrintPiece(piece))
    ensures BraceEnd(s, i, Within(depth)) == BraceEnd(s, i + |PrintPiece(piece)|, Within(depth))
    decreases piece, 0
  {
    match piece
    case Plain(c) => PassPlain(s, i, c, depth);
    case Quotation(quote, body) => PassQuotation(s, i, quote, body, depth);
    case Group(bracket, inner) =>
      GroupAt(s, i, Print(inner));
      PassCode(s, i + 1, inner, depth + 1);
      Deeper(s, i, depth);
      Shallower(s, i + 1 + |Print(inner)|, depth);
  }

  lemma Deeper(s: string, i: nat, depth: nat)
    requires i < |s| && s[i] == '{' && depth > 0
    ensures BraceEnd(s, i, Within(depth)) == BraceEnd(s, i + 1, Within(depth + 1))
  {
  }

  lemma Shallower(s: string, i: nat, depth: nat)
    requires i < |s| && s[i] == '}' && depth > 0
    ensures BraceEnd(s, i, Within(depth + 1)) == BraceEnd(s, i + 1, Within(depth))
  {
  }

  lemma GroupAt(s: string, i: nat, inner: string)
    requires At(s, i, ['{'] + inner + ['}'])
    ensures s[i] == '{' && At(s, i + 1, inner) && i + 1 + |inner| < |s| && s[i + 1 + |inner|] == '}'
  {
    AtParts(s, i, ['{'] + inner, ['}']);
    AtParts(s, i, ['{'], inner);
    assert s[i..i + 1][0] == '{' && s[i + 1 + |inner|..i + 2 + |inner|][0] == '}';
  }

  lemma CodeSplits(s: string, i: nat, code: Code)
    requires code != [] && IsCode(KOTLIN, code) && At(s, i, Print(code))
    ensures var m := i + |PrintPiece(code[0])|;
      IsPiece(KOTLIN, code[0]) && At(s, i, PrintPiece(code[0])) && IsCode(KOTLIN, code[1..]) && At(s, m, Print(code[1..])) &&
      i + |Print(code)| == m + |Print(code[1..])|
  {
    AtParts(s, i, PrintPiece(code[0]), Print(code[1..]));
  }

  /** Reading past code leaves the depth as it was. */
  lemma {:induction false} PassCode(s: string, i: nat, code: Code, depth: nat)
    requires depth > 0 && IsCode(KOTLIN, code) && At(s, i, Print(code))
    ensures BraceEnd(s, i, Within(depth)) == BraceEnd(s, i + |Print(code)|, Within(depth))
    decreases code, 0
  {
    if code != [] {
      CodeSplits(s, i, code);
      PassPiece(s, i, code[0], depth);
      PassCode(s, i + |PrintPiece(code[0])|, code[1..], depth);
    }
  }

  // ----- interpolations

  /** A name after a dollar sign, or code in braces. */
  datatype Token = Named(name: string) | Braced(code: Code)

  function PrintToken(token: Token): string {
    match token
    case Named(name) => ['$'] + name
    case Braced(code) => ['$'] + (['{'] + Print(code) + ['}'])
  }

  predicate IsLetter(c: char) { 'a' <= c <= 'z' || 'A' <= c <= 'Z' || c == '_' }

  predicate IsDigitChar(c: char) { '0' <= c <= '9' }

  /** A Kotlin name: letters and digits, a letter first. */
  predicate IsName(name: string) {
    name != "" && IsLetter(name[0]) && forall c <- name :: IsLetter(c) || IsDigitChar(c)
  }

  predicate IsToken(token: Token) {
    match token
    case Named(name) => IsName(name)
    case Braced(code) => IsCode(KOTLIN, code)
  }

  /** The token can be followed by this text without running into it. */
  predicate Stops(token: Token, next: string) {
    token.Named? && next != "" ==> !IsLetter(next[0]) && !IsDigitChar(next[0])
  }

  lemma BracedAt(s: string, i: nat, code: Code)
    requires At(s, i, PrintToken(Braced(code)))
    ensures var close := i + 2 + |Print(code)|;
      close < |s| && s[i] == '$' && s[i + 1] == '{' && At(s, i + 2, Print(code)) && s[close] == '}' &&
      close + 1 == i + |PrintToken(Braced(code))|
  {
    AtParts(s, i, ['$'], ['{'] + Print(code) + ['}']);
    assert s[i..i + 1][0] == '$';
    GroupAt(s, i + 1, Print(code));
  }

  lemma BracedEnds(s: string, i: nat, code: Code)
    requires IsCode(KOTLIN, code) && At(s, i, PrintToken(Braced(code)))
    ensures StartsAt(s, i) && InterpolationEnd(s, i) == Some(i + |PrintToken(Braced(code))|)
  {
    BracedAt(s, i, code);
    OpensHere(s, i);
    PassCode(s, i + 2, code, 1);
    ClosesHere(s, i + 2 + |Print(code)|);
  }

  lemma OpensHere(s: string, i: nat)
    requires i + 1 < |s| && s[i] == '$' && s[i + 1] == '{'
    ensures StartsAt(s, i) && InterpolationEnd(s, i) == BraceEnd(s, i + 2, Within(1))
  {
  }

  lemma ClosesHere(s: string, i: nat)
    requires i < |s| && s[i] == '}'
    ensures BraceEnd(s, i, Within(1)) == Some(i + 1)
  {
  }

  lemma {:induction false} NameEnds(s: string, i: nat, name: string, rest: string)
    requires i <= |s| && s[i..] == name + rest && (forall c <- name :: IsNameChar(c)) && (rest != "" ==> !IsNameChar(rest[0]))
    ensures NameEnd(s, i) == i + |name|
    decreases |name|
  {
    if name == "" {
      if rest != "" { assert s[i..][0] == s[i]; }
    } else {
      assert s[i..][0] == s[i] == name[0] && name[0] in name;
      assert s[i + 1..] == s[i..][1..] == name[1..] + rest;
      NameEnds(s, i + 1, name[1..], rest);
    }
  }

  lemma NamedEnds(s: string, i: nat, name: string, rest: string)
    requires IsToken(Named(name)) && Stops(Named(name), rest) && i <= |s| && s[i..] == ['$'] + name + rest
    ensures StartsAt(s, i) && InterpolationEnd(s, i) == Some(i + 1 + |name|)
  {
    assert s[i] == s[i..][0] == '$' && s[i + 1] == s[i..][1] == name[0];
    assert s[i + 2..] == s[i..][2..] == name[1..] + rest;
    assert IsNameStart(name[0]) && name[0] != '{';
    assert forall c <- name[1..] :: c in name;
    NameEnds(s, i + 2, name[1..], rest);
  }

  /** A printed interpolation ends where it was printed to end, whatever comes before it,
      and whatever follows that a name does not run into. */
  lemma TokenEnds(s: string, i: nat, token: Token, rest: string)
    requires IsToken(token) && Stops(token, rest) && i <= |s| && s[i..] == PrintToken(token) + rest
    ensures StartsAt(s, i) && InterpolationEnd(s, i) == Some(i + |PrintToken(token)|)
    ensures At(s, i, PrintToken(token)) && s[i + |PrintToken(token)|..] == rest
  {
    var text := PrintToken(token);
    assert s[i..][..|text|] == text == s[i..i + |text|];
    assert s[i..][|text|..] == rest == s[i + |text|..];
    match token
    case Named(name) => NamedEnds(s, i, name, rest);
    case Braced(code) => BracedEnds(s, i, code);
  }

  /** For any code, printed inside `${` and `}` in any context, the interpolation ends at
      that closing brace. */
  lemma PrintedInterpolationEnds(before: string, code: Code, after: string)
    requires IsCode(KOTLIN, code)
    ensures var s := before + "${" + Print(code) + "}" + after;
      StartsAt(s, |before|) && InterpolationEnd(s, |before|) == Some(|before| + 3 + |Print(code)|)
  {
    var s := before + "${" + Print(code) + "}" + after;
    assert "${" + Print(code) + "}" == PrintToken(Braced(code));
    assert s == before + (PrintToken(Braced(code)) + after);
    assert s[|before|..] == PrintToken(Braced(code)) + after;
    TokenEnds(s, |before|, Braced(code), after);
  }

  // ----- whole templates

  /** Literal text between interpolations: no dollar sign. */
  predicate IsLiteral(text: string) { '$' !in text }

  /** Interpolations, each with the literal text after it. */
  type Tail = seq<(Token, string)>

  function PrintTail(tail: Tail): string {
    if tail == [] then "" else PrintToken(tail[0].0) + (tail[0].1 + PrintTail(tail[1..]))
  }

  predicate IsTail(tail: Tail) {
    forall part <- tail :: IsToken(part.0) && IsLiteral(part.1) && Stops(part.0, part.1)
  }

  function Tokens(tail: Tail): (tokens: seq<string>) {
    if tail == [] then [] else [PrintToken(tail[0].0)] + Tokens(tail[1..])
  }

  lemma {:induction false} SkipLiteral(s: string, i: nat, text: string)
    requires At(s, i, text) && IsLiteral(text)
    ensures Scan(s, i) == Scan(s, i + |text|)
    decreases |text|
  {
    if text != "" {
      assert text == text[..1] + text[1..];
      AtParts(s, i, text[..1], text[1..]);
      assert s[i..i + 1][0] == text[0] && text[0] in text;
      SkipLiteral(s, i + 1, text[1..]);
    }
  }

  lemma TailStops(tail: Tail)
    requires tail != [] && IsTail(tail)
    ensures Stops(tail[0].0, tail[0].1 + PrintTail(tail[1..]))
  {
    var text, rest := tail[0].1, PrintTail(tail[1..]);
    assert tail[0] in tail;
    if text == "" && rest != "" {
      assert rest[0] == PrintToken(tail[1..][0].0)[0] == '$';
      assert (text + rest)[0] == '$';
    }
  }

  lemma ScanToken(s: string, i: nat, token: Token, text: string, rest: string)
    requires IsToken(token) && IsLiteral(text) && Stops(token, text + rest)
    requires i <= |s| && s[i..] == PrintToken(token) + (text + rest)
    ensures var end := i + |PrintToken(token)|;
      end + |text| <= |s| && s[end + |text|..] == rest && s[i..end] == PrintToken(token) &&
      Scan(s, i) == Prepend(Interpolation(i, end, s[i..end]), Scan(s, end + |text|))
  {
    var end := i + |PrintToken(token)|;
    TokenEnds(s, i, token, text + rest);
    assert s[end..][..|text|] == text == s[end..end + |text|];
    assert s[end..][|text|..] == rest == s[end + |text|..];
    SkipLiteral(s, end, text);
  }

  /** The scan succeeds with spans of these values. */
  ghost predicate Scans(spans: Option<seq<Interpolation>>, values: seq<string>) {
    spans.Some? && Values(spans.value) == values
  }

  lemma ScansPrepend(t: Interpolation, spans: Option<seq<Interpolation>>, values: seq<string>)
    requires Scans(spans, values)
    ensures Scans(Prepend(t, spans), [t.value] + values)
  {
    assert Values([t] + spans.value) == [t.value] + Values(spans.value);
  }

  lemma ScanNothing(s: string)
    ensures Scans(Scan(s, |s|), [])
  {
    assert Values([]) == [];
  }

  lemma ScanOne(s: string, i: nat, token: Token, text: string, rest: string, values: seq<string>)
    requires IsToken(token) && IsLiteral(text) && Stops(token, text + rest)
    requires i <= |s| && s[i..] == PrintToken(token) + (text + rest)
    requires i + |PrintToken(token)| + |text| <= |s| && Scans(Scan(s, i + |PrintToken(token)| + |text|), values)
    ensures Scans(Scan(s, i), [PrintToken(token)] + values)
  {
    var end := i + |PrintToken(token)|;
    ScanToken(s, i, token, text, rest);
    ScansPrepend(Interpolation(i, end, s[i..end]), Scan(s, end + |text|), values);
  }

  lemma TailSplits(s: string, i: nat, tail: Tail)
    requires IsTail(tail) && tail != [] && i <= |s| && s[i..] == PrintTail(tail)
    ensures var token, text, rest := tail[0].0, tail[0].1, PrintTail(tail[1..]);
      var n := i + |PrintToken(token)| + |text|;
      IsToken(token) && IsLiteral(text) && Stops(token, text + rest) && s[i..] == PrintToken(token) + (text + rest) &&
      n <= |s| && s[n..] == rest && IsTail(tail[1..])
  {
    var token, text, rest := tail[0].0, tail[0].1, PrintTail(tail[1..]);
    assert tail[0] in tail;
    TailStops(tail);
    var n := |PrintToken(token)| + |text|;
    assert s[i..] == (PrintToken(token) + text) + rest;
    assert s[i..][n..] == rest == s[i + n..];
  }

  /** Where the tail after the first interpolation and its literal text begins. */
  function SecondAt(i: nat, tail: Tail): nat
    requires tail != []
  {
    i + |PrintToken(tail[0].0)| + |tail[0].1|
  }

  lemma ScanFirst(s: string, i: nat, tail: Tail)
    requires IsTail(tail) && tail != [] && i <= |s| && s[i..] == PrintTail(tail)
    requires SecondAt(i, tail) <= |s| && Scans(Scan(s, SecondAt(i, tail)), Tokens(tail[1..]))
    ensures Scans(Scan(s, i), Tokens(tail))
  {
    TailSplits(s, i, tail);
    ScanOne(s, i, tail[0].0, tail[0].1, PrintTail(tail[1..]), Tokens(tail[1..]));
  }

  lemma {:induction false} ScanTail(s: string, i: nat, tail: Tail)
    requires IsTail(tail) && i <= |s| && s[i..] == PrintTail(tail)
    ensures Scans(Scan(s, i), Tokens(tail))
    decreases |tail|
  {
    if tail == [] {
      assert |s[i..]| == 0;
      ScanNothing(s);
    } else {
      TailSplits(s, i, tail);
      ScanTail(s, SecondAt(i, tail), tail[1..]);
      ScanFirst(s, i, tail);
    }
  }

  /** The scanner finds in a printed template exactly its interpolations, in order. */
  lemma PrintedTemplateScans(head: string, tail: Tail)
    requires IsLiteral(head) && IsTail(tail)
    ensures Scans(Scan(head + PrintTail(tail), 0), Tokens(tail))
  {
    var s := head + PrintTail(tail);
    assert s[0..|head|] == head && s[|head|..] == PrintTail(tail);
    SkipLiteral(s, 0, head);
    ScanTail(s, |head|, tail);
  }
}
