/** The scanner that cuts a call's argument list out of source text
    (scripts/check-temp-path-guardrails.ts): quotes, escapes and three kinds of brackets. */
module CallScanner {
  import opened Text

  predicate IsQuote(c: char) { c == '\'' || c == '"' || c == '`' }

  /** Lexical state: the open quote, and whether the last character escapes the next. */
  datatype Quoting = Quoting(quote: Option<char>, escaped: bool)

  const PLAIN := Quoting(None, false)

  /** A character inside or outside quotes; outside, a quote character opens one. */
  function NextQuoting(q: Quoting, c: char): Quoting {
    if q.quote.None? then if IsQuote(c) then Quoting(Some(c), q.escaped) else q
    else if q.escaped then Quoting(q.quote, false)
    else if c == '\\' then Quoting(q.quote, true)
    else if q.quote == Some(c) then Quoting(None, q.escaped)
    else q
  }

  /** A character that is neither inside quotes nor a quote itself. */
  predicate IsBare(q: Quoting, c: char) { q.quote.None? && !IsQuote(c) }

  /** The scanner's mutable quote state. */
  class QuoteScanState {
    var quote: Option<char>
    var escaped: bool

    constructor ()
      ensures View() == PLAIN
    {
      quote, escaped := None, false;
    }

    function View(): Quoting
      reads this
    {
      Quoting(quote, escaped)
    }

    method BeginQuotedSection(ch: char) returns (begun: bool)
      modifies this
      ensures begun == IsQuote(ch)
      ensures View() == if begun then Quoting(Some(ch), old(escaped)) else old(View())
    {
      if ch != '\'' && ch != '"' && ch != '`' {
        return false;
      }
      quote := Some(ch);
      return true;
    }

    method ConsumeQuotedChar(ch: char) returns (consumed: bool)
      modifies this
      ensures consumed == old(quote).Some?
      ensures View() == if consumed then NextQuoting(old(View()), ch) else old(View())
    {
      if quote.None? {
        return false;
      }
      if escaped {
        escaped := false;
        return true;
      }
      if ch == '\\' {
        escaped := true;
        return true;
      }
      if quote == Some(ch) {
        quote := None;
      }
      return true;
    }
  }

  // ----- the closing parenthesis

  /** Where the parenthesis opened `depth` levels up is closed, reading from `i`. */
  function MatchFrom(source: string, i: nat, depth: nat, q: Quoting): Option<nat>
    requires i <= |source|
    decreases |source| - i
  {
    if i == |source| then None
    else
      var ch := source[i];
      if IsBare(q, ch) && ch == '(' then MatchFrom(source, i + 1, depth + 1, q)
      else if IsBare(q, ch) && ch == ')' then
        if depth <= 1 then Some(i) else MatchFrom(source, i + 1, depth - 1, q)
      else MatchFrom(source, i + 1, depth, NextQuoting(q, ch))
  }

  method FindMatchingParen(source: string, openIndex: nat) returns (index: int)
    requires openIndex < |source|
    ensures match MatchFrom(source, openIndex + 1, 1, PLAIN)
      case Some(i) => index == i
      case None => index == -1
  {
    var depth: nat := 1;
    var quoteState := new QuoteScanState();
    var i := openIndex + 1;
    while i < |source|
      invariant openIndex + 1 <= i <= |source| && depth >= 1
      invariant fresh(quoteState)
      invariant MatchFrom(source, openIndex + 1, 1, PLAIN) == MatchFrom(source, i, depth, quoteState.View())
    {
      var ch := source[i];
      i := i + 1;
      var consumed := quoteState.ConsumeQuotedChar(ch);
      if consumed {
        continue;
      }
      var begun := quoteState.BeginQuotedSection(ch);
      if begun {
        continue;
      }
      if ch == '(' {
        depth := depth + 1;
        continue;
      }
      if ch == ')' {
        depth := depth - 1;
        if depth == 0 {
          return i - 1;
        }
      }
    }
    return -1;
  }

  // ----- top-level arguments

  datatype Depths = Depths(paren: nat, bracket: nat, brace: nat)

  const FLAT := Depths(0, 0, 0)

  function Down(n: nat): nat { if n > 0 then n - 1 else n }

  /** Depths after a bare character; a closer below depth zero is ignored. */
  function NextDepths(d: Depths, c: char): Depths {
    match c
    case '(' => d.(paren := d.paren + 1)
    case ')' => d.(paren := Down(d.paren))
    case '[' => d.(bracket := d.bracket + 1)
    case ']' => d.(bracket := Down(d.bracket))
    case '{' => d.(brace := d.brace + 1)
    case '}' => d.(brace := Down(d.brace))
    case _ => d
  }

  datatype Lex = Lex(depths: Depths, quoting: Quoting)

  const OUTSIDE := Lex(FLAT, PLAIN)

  function NextLex(x: Lex, c: char): Lex {
    if IsBare(x.quoting, c) then x.(depths := NextDepths(x.depths, c)) else x.(quoting := NextQuoting(x.quoting, c))
  }

  predicate Cuts(x: Lex, c: char) { c == ',' && x.depths == FLAT && x.quoting.quote.None? }

  /** The pieces between top-level commas, untrimmed: `current` is the piece being read. */
  function Pieces(source: string, current: string, x: Lex): seq<string> {
    if source == "" then [current]
    else if Cuts(x, source[0]) then [current] + Pieces(source[1..], "", x)
    else Pieces(source[1..], current + [source[0]], NextLex(x, source[0]))
  }

  function TrimAll(pieces: seq<string>): (trimmed: seq<string>)
    ensures |trimmed| == |pieces|
  {
    seq(|pieces|, i requires 0 <= i < |pieces| => Trim(pieces[i]))
  }

  /** The arguments: every piece trimmed, without a last piece that is blank. */
  function Arguments(pieces: seq<string>): seq<string>
    requires pieces != []
  {
    var n := |pieces| - 1;
    TrimAll(pieces[..n]) + (if Trim(pieces[n]) != "" then [Trim(pieces[n])] else [])
  }

  method SplitTopLevelArguments(source: string) returns (out: seq<string>)
    ensures Pieces(source, "", OUTSIDE) != []
    ensures out == Arguments(Pieces(source, "", OUTSIDE))
  {
    out := [];
    var current := "";
    var parenDepth: nat, bracketDepth: nat, braceDepth: nat := 0, 0, 0;
    var quoteState := new QuoteScanState();
    ghost var done: seq<string> := [];
    PiecesNonEmpty(source, "", OUTSIDE);
    assert source[0..] == source && [] + Pieces(source, "", OUTSIDE) == Pieces(source, "", OUTSIDE);
    for i := 0 to |source|
      invariant fresh(quoteState)
      invariant out == TrimAll(done)
      invariant Pieces(source, "", OUTSIDE)
             == done + Pieces(source[i..], current, Lex(Depths(parenDepth, bracketDepth, braceDepth), quoteState.View()))
    {
      var ch := source[i];
      ghost var x := Lex(Depths(parenDepth, bracketDepth, braceDepth), quoteState.View());
      assert source[i..][0] == ch && source[i..][1..] == source[i + 1..];
      if quoteState.quote.Some? {
        current := current + [ch];
        var _ := quoteState.ConsumeQuotedChar(ch);
        continue;
      }
      var begun := quoteState.BeginQuotedSection(ch);
      if begun {
        current := current + [ch];
        continue;
      }
      if ch == '(' {
        parenDepth := parenDepth + 1;
      } else if ch == ')' {
        if parenDepth > 0 {
          parenDepth := parenDepth - 1;
        }
      } else if ch == '[' {
        bracketDepth := bracketDepth + 1;
      } else if ch == ']' {
        if bracketDepth > 0 {
          bracketDepth := bracketDepth - 1;
        }
      } else if ch == '{' {
        braceDepth := braceDepth + 1;
      } else if ch == '}' {
        if braceDepth > 0 {
          braceDepth := braceDepth - 1;
        }
      } else if ch == ',' && parenDepth == 0 && bracketDepth == 0 && braceDepth == 0 {
        CutOne(done, current, Pieces(source[i + 1..], "", x));
        out := out + [Trim(current)];
        done := done + [current];
        current := "";
        continue;
      }
      current := current + [ch];
    }
    assert source[|source|..] == "";
    ghost var pieces := done + [current];
    assert pieces[..|pieces| - 1] == done;
    if Trim(current) != "" {
      out := out + [Trim(current)];
    }
  }

  lemma PiecesNonEmpty(source: string, current: string, x: Lex)
    ensures Pieces(source, current, x) != []
  {
  }

  lemma CutOne(done: seq<string>, current: string, rest: seq<string>)
    ensures done + ([current] + rest) == done + [current] + rest
    ensures TrimAll(done + [current]) == TrimAll(done) + [Trim(current)]
  {
  }

  // ----- what the closing parenthesis is

  /** Parentheses opened less those closed outside quotes, and the state of the quotes. */
  function Net(body: string): (int, Quoting) {
    if body == "" then (0, PLAIN)
    else
      var before, c := Net(body[..|body| - 1]), body[|body| - 1];
      if IsBare(before.1, c) then (before.0 + (if c == '(' then 1 else if c == ')' then -1 else 0), before.1)
      else (before.0, NextQuoting(before.1, c))
  }

  /** The parenthesis at `open` is closed at `close`: the first parenthesis outside quotes
      that closes more than was opened after `open`. */
  ghost predicate ClosesAt(source: string, open: nat, close: nat) {
    open < close < |source| && source[close] == ')' && IsBare(Net(source[open + 1..close]).1, ')') &&
    Net(source[open + 1..close]).0 == 0 &&
    forall k :: open < k <= close ==> NotBelow(source, open, k)
  }

  ghost predicate NotBelow(source: string, open: nat, k: int)
    requires open < k <= |source|
  {
    Net(source[open + 1..k]).0 >= 0
  }

  lemma {:induction false} MatchExact(source: string, open: nat, i: nat, close: nat)
    requires open < i <= |source| && forall k :: open < k <= i ==> NotBelow(source, open, k)
    ensures var net := Net(source[open + 1..i]);
      net.0 >= 0 && (MatchFrom(source, i, net.0 + 1, net.1) == Some(close) <==> i <= close && ClosesAt(source, open, close))
    decreases |source| - i
  {
    var net := Net(source[open + 1..i]);
    assert NotBelow(source, open, i);
    if i < |source| {
      var body := source[open + 1..i + 1];
      assert body[..|body| - 1] == source[open + 1..i];
      if IsBare(net.1, source[i]) && source[i] == ')' && net.0 == 0 {
        assert !NotBelow(source, open, i + 1);
        assert ClosesAt(source, open, i);
      } else {
        assert NotBelow(source, open, i + 1);
        MatchExact(source, open, i + 1, close);
      }
    }
  }

  /** The parenthesis found is the one and only closing parenthesis. */
  lemma MatchingParenExact(source: string, open: nat, close: nat)
    requires open < |source|
    ensures MatchFrom(source, open + 1, 1, PLAIN) == Some(close) <==> ClosesAt(source, open, close)
  {
    assert source[open + 1..open + 1] == "";
    MatchExact(source, open, open + 1, close);
  }

  // ----- printing a call and reading it back

  /** A closer with nothing of its kind open. */
  predicate Underflows(d: Depths, c: char) {
    (c == ')' && d.paren == 0) || (c == ']' && d.bracket == 0) || (c == '}' && d.brace == 0)
  }

  /** From state `x` the text closes all its quotes and brackets, closes none it did not
      open, and has no comma at top level. */
  predicate SelfContained(s: string, x: Lex) {
    if s == "" then x == OUTSIDE
    else
      !Cuts(x, s[0]) && !(IsBare(x.quoting, s[0]) && Underflows(x.depths, s[0])) &&
      SelfContained(s[1..], NextLex(x, s[0]))
  }

  predicate IsArgument(s: string) { s != "" && Trim(s) == s && SelfContained(s, OUTSIDE) }

  lemma {:induction false} PiecesOfArgument(s: string, current: string, x: Lex, rest: string)
    requires SelfContained(s, x)
    ensures Pieces(s + "," + rest, current, x) == [current + s] + Pieces(rest, "", OUTSIDE)
    ensures Pieces(s, current, x) == [current + s]
  {
    var text := s + "," + rest;
    if s == "" {
      assert text == "," + rest && text[1..] == rest && current + s == current;
    } else {
      assert text[0] == s[0] && text[1..] == s[1..] + "," + rest;
      PiecesOfArgument(s[1..], current + [s[0]], NextLex(x, s[0]), rest);
      assert current + [s[0]] + s[1..] == current + s;
    }
  }

  lemma {:induction false} PiecesOfJoin(args: seq<string>)
    requires args != [] && forall a <- args :: SelfContained(a, OUTSIDE)
    ensures Pieces(Join(args, ','), "", OUTSIDE) == args
  {
    assert args[0] in args;
    if |args| == 1 {
      PiecesOfArgument(args[0], "", OUTSIDE, "");
      assert "" + args[0] == args[0] && args == [args[0]];
    } else {
      PiecesOfArgument(args[0], "", OUTSIDE, Join(args[1..], ','));
      PiecesOfJoin(args[1..]);
      assert "" + args[0] == args[0] && args == [args[0]] + args[1..];
    }
  }

  lemma {:induction false} MatchPastArgument(source: string, i: nat, s: string, x: Lex)
    requires i + |s| <= |source| && source[i..i + |s|] == s && SelfContained(s, x)
    ensures MatchFrom(source, i, x.depths.paren + 1, x.quoting) == MatchFrom(source, i + |s|, 1, PLAIN)
    decreases |s|
  {
    if s != "" {
      assert source[i] == source[i..i + |s|][0] == s[0];
      assert source[i + 1..i + |s|] == s[1..];
      MatchPastArgument(source, i + 1, s[1..], NextLex(x, s[0]));
    }
  }

  lemma {:induction false} MatchPastJoin(source: string, i: nat, args: seq<string>)
    requires forall a <- args :: SelfContained(a, OUTSIDE)
    requires i + |Join(args, ',')| <= |source| && source[i..i + |Join(args, ',')|] == Join(args, ',')
    ensures MatchFrom(source, i, 1, PLAIN) == MatchFrom(source, i + |Join(args, ',')|, 1, PLAIN)
    decreases |args|
  {
    if args != [] {
      var a, text := args[0], Join(args, ',');
      assert a in args;
      assert source[i..i + |text|][..|a|] == a == source[i..i + |a|];
      MatchPastArgument(source, i, a, OUTSIDE);
      if |args| > 1 {
        var n, rest := |a| + 1, Join(args[1..], ',');
        assert source[i..i + |text|][|a|] == ',' == source[i + |a|];
        assert source[i..i + |text|][n..] == rest == source[i + n..i + n + |rest|];
        MatchPastJoin(source, i + n, args[1..]);
      }
    }
  }

  lemma TrimAllArguments(args: seq<string>)
    requires args != [] && forall a <- args :: IsArgument(a)
    ensures Arguments(args) == args
  {
    var n := |args| - 1;
    forall a <- args ensures Trim(a) == a && a != "" {}
    assert TrimAll(args[..n]) == args[..n];
    assert args[n] in args;
    assert args == args[..n] + [args[n]];
  }

  lemma PrintedParenMatches(before: string, args: seq<string>, suffix: string)
    requires forall a <- args :: SelfContained(a, OUTSIDE)
    ensures MatchFrom(before + "(" + Join(args, ',') + ")" + suffix, |before| + 1, 1, PLAIN) == Some(|before| + 1 + |Join(args, ',')|)
  {
    PrintedLayout(before, Join(args, ','), suffix);
    MatchPastJoin(before + "(" + Join(args, ',') + ")" + suffix, |before| + 1, args);
  }

  /** Printing a call and scanning it returns the same call: after any text, the
      parenthesis opened by the call is matched by the one that ends it, whatever follows,
      and cutting what lies between returns the arguments. */
  lemma PrintedCallParsesBack(before: string, args: seq<string>, suffix: string)
    requires forall a <- args :: IsArgument(a)
    ensures var source, close := before + "(" + Join(args, ',') + ")" + suffix, |before| + 1 + |Join(args, ',')|;
      MatchFrom(source, |before| + 1, 1, PLAIN) == Some(close) && close < |source| &&
      Pieces(source[|before| + 1..close], "", OUTSIDE) != [] &&
      Arguments(Pieces(source[|before| + 1..close], "", OUTSIDE)) == args
  {
    PrintedLayout(before, Join(args, ','), suffix);
    PrintedParenMatches(before, args, suffix);
    if args == [] {
      assert TrimAll([]) == [];
      assert Pieces("", "", OUTSIDE) == [""];
    } else {
      PiecesOfJoin(args);
      TrimAllArguments(args);
    }
  }

  /** Only a blank last piece is no argument; blank pieces before it are kept. */
  lemma ArgumentsKept(pieces: seq<string>)
    requires pieces != []
    ensures var n, arguments := |pieces| - 1, Arguments(pieces);
      |arguments| == (if IsBlank(pieces[n]) then n else n + 1) && forall k :: 0 <= k < |arguments| ==> arguments[k] == Trim(pieces[k])
  {
    TrimIsEmpty(pieces[|pieces| - 1]);
  }

  /** Cutting loses nothing: the untrimmed pieces, joined by commas, are the source. */
  lemma {:induction false} PiecesRebuild(source: string, current: string, x: Lex)
    ensures Pieces(source, current, x) != [] && Join(Pieces(source, current, x), ',') == current + source
    decreases |source|
  {
    if source == "" {
      assert current + source == current;
    } else if Cuts(x, source[0]) {
      PiecesRebuild(source[1..], "", x);
      var rest := Pieces(source[1..], "", x);
      var all := [current] + rest;
      assert all[1..] == rest;
      assert "" + source[1..] == source[1..];
      assert current + "," + source[1..] == current + source;
    } else {
      PiecesRebuild(source[1..], current + [source[0]], NextLex(x, source[0]));
      assert current + [source[0]] + source[1..] == current + source;
    }
  }
}
