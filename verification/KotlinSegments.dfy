/** Splitting Kotlin parameter and argument lists (scripts/android-app-i18n.ts): finding the
    bracket that closes a list, and cutting the list at its top-level commas. */
module KotlinSegments {
  import opened Text

  // ----- the closing delimiter

  /** The scanner's state before a character. */
  datatype Lex = Lex(depth: int, quoted: bool, escaped: bool)

  /** The two delimiters looked for. */
  datatype Pair = Pair(opening: char, closing: char)

  predicate Closes(p: Pair, x: Lex, c: char) {
    !x.escaped && !x.quoted && c != '"' && c != p.opening && c == p.closing && x.depth == 1
  }

  function NextLex(p: Pair, x: Lex, c: char): Lex {
    if x.escaped then x.(escaped := false)
    else if x.quoted && c == '\\' then x.(escaped := true)
    else if c == '"' then x.(quoted := !x.quoted)
    else if x.quoted then x
    else if c == p.opening then x.(depth := x.depth + 1)
    else if c == p.closing then x.(depth := x.depth - 1)
    else x
  }

  const OUTSIDE: Lex := Lex(0, false, false)

  /** The state after a text, closing or not. */
  function LexAfter(p: Pair, text: string): Lex {
    if text == "" then OUTSIDE
    else NextLex(p, LexAfter(p, text[..|text| - 1]), text[|text| - 1])
  }

  /** Position `i` holds the delimiter that brings the depth, counted from `start`, back to zero. */
  predicate ClosesAt(p: Pair, source: string, start: nat, i: nat)
    requires start <= i < |source|
  {
    Closes(p, LexAfter(p, source[start..i]), source[i])
  }

  /** The first such position. */
  ghost predicate Finds(p: Pair, source: string, start: nat, i: nat) {
    start <= i < |source| && ClosesAt(p, source, start, i) && forall j :: start <= j < i ==> !ClosesAt(p, source, start, j)
  }

  lemma LexOneMore(p: Pair, source: string, start: nat, i: nat)
    requires start <= i < |source|
    ensures LexAfter(p, source[start..i + 1]) == NextLex(p, LexAfter(p, source[start..i]), source[i])
  {
    assert source[start..i + 1][..i - start] == source[start..i];
  }

  method FindClosingDelimiter(source: string, openingOffset: nat, p: Pair) returns (found: Option<nat>)
    requires openingOffset <= |source|
    ensures found.Some? ==> Finds(p, source, openingOffset, found.value)
    ensures found.None? ==> forall j :: openingOffset <= j < |source| ==> !ClosesAt(p, source, openingOffset, j)
  {
    var depth, quoted, escaped := 0, false, false;
    for index := openingOffset to |source|
      invariant Lex(depth, quoted, escaped) == LexAfter(p, source[openingOffset..index])
      invariant forall j :: openingOffset <= j < index ==> !ClosesAt(p, source, openingOffset, j)
    {
      var character := source[index];
      LexOneMore(p, source, openingOffset, index);
      if escaped {
        escaped := false;
      } else if quoted && character == '\\' {
        escaped := true;
      } else if character == '"' {
        quoted := !quoted;
      } else if quoted {
      } else if character == p.opening {
        depth := depth + 1;
      } else if character == p.closing {
        depth := depth - 1;
        if depth == 0 {
          return Some(index);
        }
      }
    }
    found := None;
  }

  // ----- top-level segments

  datatype Scan = Scan(quoted: bool, escaped: bool, typeDepth: int, inDefault: bool, round: int, square: int, curly: int)

  const FRESH: Scan := Scan(false, false, 0, false, 0, 0, 0)

  predicate NoDepth(x: Scan) { x.round == 0 && x.square == 0 && x.curly == 0 }

  /** A comma met in this state ends a segment. */
  predicate AtTop(x: Scan) { !x.escaped && !x.quoted && x.typeDepth == 0 && NoDepth(x) }

  function NextScan(track: bool, x: Scan, c: char): Scan {
    if x.escaped then x.(escaped := false)
    else if x.quoted && c == '\\' then x.(escaped := true)
    else if c == '"' then x.(quoted := !x.quoted)
    else if x.quoted then x
    else if track && !x.inDefault && c == '<' then x.(typeDepth := x.typeDepth + 1)
    else if track && c == '>' && x.typeDepth > 0 then x.(typeDepth := x.typeDepth - 1)
    else if c == '(' then x.(round := x.round + 1)
    else if c == '[' then x.(square := x.square + 1)
    else if c == '{' then x.(curly := x.curly + 1)
    else if c == ')' then x.(round := x.round - 1)
    else if c == ']' then x.(square := x.square - 1)
    else if c == '}' then x.(curly := x.curly - 1)
    else if track && c == '=' && x.typeDepth == 0 && NoDepth(x) then x.(inDefault := true)
    else x
  }

  /** The pieces of the text, when `current` of the first was read before it. */
  function Pieces(track: bool, text: string, current: string, x: Scan): seq<string>
    decreases |text|
  {
    if text == "" then [current]
    else if text[0] == ',' && AtTop(x) then [current] + Pieces(track, text[1..], "", FRESH)
    else Pieces(track, text[1..], current + [text[0]], NextScan(track, x, text[0]))
  }

  datatype Segment = Segment(end: nat, start: nat, value: string)

  function Values(segments: seq<Segment>): seq<string> {
    if segments == [] then [] else Values(segments[..|segments| - 1]) + [segments[|segments| - 1].value]
  }

  /** Segment `k` starts where the one before it ended, past the comma, and holds its slice. */
  ghost predicate Placed(segments: seq<Segment>, source: string, start: nat, end: nat, k: nat)
    requires k < |segments| && end <= |source|
  {
    var segment := segments[k];
    && start <= segment.start <= segment.end <= end
    && segment.value == source[segment.start..segment.end]
    && if k == 0 then segment.start == start
       else segment.start == segments[k - 1].end + 1 && source[segment.start - 1] == ','
  }

  /** Segments laid end to end from `start`, one comma apart, up to a next one at `next`. */
  ghost predicate Laid(segments: seq<Segment>, source: string, start: nat, next: nat, end: nat)
    requires end <= |source|
  {
    && (forall k :: 0 <= k < |segments| ==> Placed(segments, source, start, end, k))
    && next == (if segments == [] then start else segments[|segments| - 1].end + 1)
  }

  /** One step of the loop on a state that is not at a top-level comma. */
  method Advance(track: bool, x: Scan, character: char) returns (y: Scan)
    ensures y == NextScan(track, x, character)
  {
    y := x;
    if x.escaped {
      y := x.(escaped := false);
    } else if x.quoted && character == '\\' {
      y := x.(escaped := true);
    } else if character == '"' {
      y := x.(quoted := !x.quoted);
    } else if x.quoted {
    } else if track && !x.inDefault && character == '<' {
      y := x.(typeDepth := x.typeDepth + 1);
    } else if track && character == '>' && x.typeDepth > 0 {
      y := x.(typeDepth := x.typeDepth - 1);
    } else if character == '(' {
      y := x.(round := x.round + 1);
    } else if character == '[' {
      y := x.(square := x.square + 1);
    } else if character == '{' {
      y := x.(curly := x.curly + 1);
    } else if character == ')' {
      y := x.(round := x.round - 1);
    } else if character == ']' {
      y := x.(square := x.square - 1);
    } else if character == '}' {
      y := x.(curly := x.curly - 1);
    } else if track && character == '=' && x.typeDepth == 0 && NoDepth(x) {
      y := x.(inDefault := true);
    }
  }

  /** The cutting still to be done from `index` on completes the answer. */
  ghost predicate Completes(track: bool, source: string, start: nat, end: nat, done: seq<string>, segmentStart: nat,
                            index: nat, x: Scan)
    requires start <= segmentStart <= index <= end <= |source|
  {
    done + Pieces(track, source[index..end], source[segmentStart..index], x) == Pieces(track, source[start..end], "", FRESH)
  }

  lemma CompletesStep(track: bool, source: string, start: nat, end: nat, done: seq<string>, segmentStart: nat, index: nat, x: Scan)
    requires start <= segmentStart <= index < end <= |source|
    requires Completes(track, source, start, end, done, segmentStart, index, x)
    ensures if source[index] == ',' && AtTop(x)
            then Completes(track, source, start, end, done + [source[segmentStart..index]], index + 1, index + 1, FRESH)
            else Completes(track, source, start, end, done, segmentStart, index + 1, NextScan(track, x, source[index]))
  {
    assert source[index..end][0] == source[index] && source[index..end][1..] == source[index + 1..end];
    assert source[index + 1..index + 1] == "";
    assert source[segmentStart..index + 1] == source[segmentStart..index] + [source[index]];
    if source[index] == ',' && AtTop(x) {
      var rest := Pieces(track, source[index + 1..end], "", FRESH);
      assert done + [source[segmentStart..index]] + rest == done + ([source[segmentStart..index]] + rest);
    }
  }

  lemma CompletesEnds(track: bool, source: string, start: nat, end: nat, done: seq<string>, segmentStart: nat, x: Scan)
    requires start <= segmentStart <= end <= |source|
    ensures Completes(track, source, start, end, [], start, start, FRESH)
    ensures Completes(track, source, start, end, done, segmentStart, end, x) ==>
              done + [source[segmentStart..end]] == Pieces(track, source[start..end], "", FRESH)
  {
    assert source[start..start] == "" && source[end..end] == "";
    assert [] + Pieces(track, source[start..end], "", FRESH) == Pieces(track, source[start..end], "", FRESH);
  }

  lemma ValuesOneMore(segments: seq<Segment>, segment: Segment)
    ensures Values(segments + [segment]) == Values(segments) + [segment.value]
  {
    assert (segments + [segment])[..|segments|] == segments;
  }

  lemma LaidOneMore(segments: seq<Segment>, source: string, start: nat, next: nat, end: nat, index: nat)
    requires start <= next <= index <= end <= |source| && Laid(segments, source, start, next, end)
    requires segments != [] ==> EndsAtComma(segments, source, end)
    ensures Laid(segments + [Segment(index, next, source[next..index])], source, start, index + 1, end)
  {
    var all := segments + [Segment(index, next, source[next..index])];
    forall k: nat | k < |all| ensures Placed(all, source, start, end, k) {
      if k < |segments| { assert Placed(segments, source, start, end, k); }
    }
  }

  ghost predicate EndsAtComma(segments: seq<Segment>, source: string, end: nat)
    requires segments != [] && end <= |source|
  {
    segments[|segments| - 1].end < end && source[segments[|segments| - 1].end] == ','
  }

  /** The loop's state before `index`. */
  ghost predicate InSplit(track: bool, source: string, start: nat, end: nat, segments: seq<Segment>, segmentStart: nat,
                          index: nat, x: Scan)
  {
    && start <= segmentStart <= index <= end <= |source|
    && Laid(segments, source, start, segmentStart, end)
    && (segments != [] ==> EndsAtComma(segments, source, end))
    && Completes(track, source, start, end, Values(segments), segmentStart, index, x)
  }

  lemma InSplitStart(track: bool, source: string, start: nat, end: nat)
    requires start <= end <= |source|
    ensures InSplit(track, source, start, end, [], start, start, FRESH)
  {
    CompletesEnds(track, source, start, end, [], start, FRESH);
  }

  lemma InSplitComma(track: bool, source: string, start: nat, end: nat, segments: seq<Segment>, segmentStart: nat,
                     index: nat, x: Scan)
    requires InSplit(track, source, start, end, segments, segmentStart, index, x) && index < end
    requires source[index] == ',' && AtTop(x)
    ensures var segment := Segment(index, segmentStart, source[segmentStart..index]);
      InSplit(track, source, start, end, segments + [segment], index + 1, index + 1, FRESH)
  {
    CompletesStep(track, source, start, end, Values(segments), segmentStart, index, x);
    LaidOneMore(segments, source, start, segmentStart, end, index);
    ValuesOneMore(segments, Segment(index, segmentStart, source[segmentStart..index]));
  }

  lemma InSplitPlain(track: bool, source: string, start: nat, end: nat, segments: seq<Segment>, segmentStart: nat,
                     index: nat, x: Scan)
    requires InSplit(track, source, start, end, segments, segmentStart, index, x) && index < end
    requires !(source[index] == ',' && AtTop(x))
    ensures InSplit(track, source, start, end, segments, segmentStart, index + 1, NextScan(track, x, source[index]))
  {
    CompletesStep(track, source, start, end, Values(segments), segmentStart, index, x);
  }

  lemma InSplitEnd(track: bool, source: string, start: nat, end: nat, segments: seq<Segment>, segmentStart: nat, x: Scan)
    requires InSplit(track, source, start, end, segments, segmentStart, end, x)
    ensures var all := segments + [Segment(end, segmentStart, source[segmentStart..end])];
      Values(all) == Pieces(track, source[start..end], "", FRESH) && Laid(all, source, start, end + 1, end)
  {
    CompletesEnds(track, source, start, end, Values(segments), segmentStart, x);
    LaidOneMore(segments, source, start, segmentStart, end, end);
    ValuesOneMore(segments, Segment(end, segmentStart, source[segmentStart..end]));
  }

  /** One turn of the loop. */
  method SplitAt(track: bool, source: string, ghost start: nat, ghost end: nat, segments: seq<Segment>, segmentStart: nat,
                 index: nat, x: Scan)
      returns (more: seq<Segment>, nextStart: nat, y: Scan)
    requires InSplit(track, source, start, end, segments, segmentStart, index, x) && index < end
    ensures InSplit(track, source, start, end, more, nextStart, index + 1, y)
  {
    if source[index] == ',' && AtTop(x) {
      InSplitComma(track, source, start, end, segments, segmentStart, index, x);
      more := segments + [Segment(index, segmentStart, source[segmentStart..index])];
      nextStart := index + 1;
      y := FRESH;
    } else {
      InSplitPlain(track, source, start, end, segments, segmentStart, index, x);
      more, nextStart := segments, segmentStart;
      y := Advance(track, x, source[index]);
    }
  }

  method SplitTopLevelSegments(source: string, start: nat, end: nat, track: bool) returns (segments: seq<Segment>)
    requires start <= end <= |source|
    ensures Values(segments) == Pieces(track, source[start..end], "", FRESH)
    ensures segments != [] && Laid(segments, source, start, end + 1, end)
  {
    segments := [];
    var segmentStart: nat := start;
    var x := FRESH;
    InSplitStart(track, source, start, end);
    for index := start to end
      invariant InSplit(track, source, start, end, segments, segmentStart, index, x)
    {
      segments, segmentStart, x := SplitAt(track, source, start, end, segments, segmentStart, index, x);
    }
    InSplitEnd(track, source, start, end, segments, segmentStart, x);
    segments := segments + [Segment(end, segmentStart, source[segmentStart..end])];
  }

  // ----- the only cutting

  /** The state after a text read without ending a segment; None if one ends. */
  function Runs(track: bool, text: string, x: Scan): Option<Scan>
    decreases |text|
  {
    if text == "" then Some(x)
    else if text[0] == ',' && AtTop(x) then None
    else Runs(track, text[1..], NextScan(track, x, text[0]))
  }

  predicate Uncut(track: bool, piece: string) { Runs(track, piece, FRESH).Some? }

  /** A piece after which a comma separates. */
  predicate Closed(track: bool, piece: string) { Uncut(track, piece) && AtTop(Runs(track, piece, FRESH).value) }

  /** No piece holds a top-level comma, and every comma between pieces is top-level. */
  ghost predicate IsCutting(track: bool, pieces: seq<string>) {
    pieces != [] && Uncut(track, pieces[|pieces| - 1]) && forall k :: 0 <= k < |pieces| - 1 ==> Closed(track, pieces[k])
  }

  lemma {:induction false} RunsOneMore(track: bool, text: string, x: Scan, c: char)
    requires Runs(track, text, x).Some? && !(c == ',' && AtTop(Runs(track, text, x).value))
    ensures Runs(track, text + [c], x) == Some(NextScan(track, Runs(track, text, x).value, c))
    decreases |text|
  {
    if text == "" {
      assert (text + [c])[1..] == "";
    } else {
      RunsOneMore(track, text[1..], NextScan(track, x, text[0]), c);
      assert (text + [c])[1..] == text[1..] + [c];
    }
  }

  lemma CuttingGrows(track: bool, piece: string, pieces: seq<string>)
    requires Closed(track, piece) && IsCutting(track, pieces)
    ensures IsCutting(track, [piece] + pieces)
  {
    var all := [piece] + pieces;
    forall k | 0 <= k < |all| - 1 ensures Closed(track, all[k]) {
      if k > 0 { assert all[k] == pieces[k - 1]; }
    }
  }

  /** What the scanner returns is a cutting. */
  lemma {:induction false} PiecesCut(track: bool, text: string, current: string, x: Scan)
    requires Runs(track, current, FRESH) == Some(x)
    ensures IsCutting(track, Pieces(track, text, current, x))
    decreases |text|
  {
    if text != "" {
      if text[0] == ',' && AtTop(x) {
        PiecesCut(track, text[1..], "", FRESH);
        CuttingGrows(track, current, Pieces(track, text[1..], "", FRESH));
      } else {
        RunsOneMore(track, current, FRESH, text[0]);
        PiecesCut(track, text[1..], current + [text[0]], NextScan(track, x, text[0]));
      }
    }
  }

  /** Comma-joining what the scanner returns rebuilds the text. */
  lemma {:induction false} PiecesRebuild(track: bool, text: string, current: string, x: Scan)
    ensures Pieces(track, text, current, x) != [] && Join(Pieces(track, text, current, x), ',') == current + text
    decreases |text|
  {
    if text == "" {
      assert current + text == current;
    } else if text[0] == ',' && AtTop(x) {
      PiecesRebuild(track, text[1..], "", FRESH);
      var rest := Pieces(track, text[1..], "", FRESH);
      var all := [current] + rest;
      assert all[1..] == rest;
      assert "" + text[1..] == text[1..];
      assert current + [','] + text[1..] == current + text;
    } else {
      PiecesRebuild(track, text[1..], current + [text[0]], NextScan(track, x, text[0]));
      assert current + [text[0]] + text[1..] == current + text;
    }
  }

  lemma {:induction false} PiecesPast(track: bool, a: string, rest: string, current: string, x: Scan)
    requires Runs(track, a, x).Some?
    ensures Pieces(track, a + rest, current, x) == Pieces(track, rest, current + a, Runs(track, a, x).value)
    decreases |a|
  {
    if a == "" {
      assert a + rest == rest && current + a == current;
    } else {
      assert (a + rest)[1..] == a[1..] + rest;
      PiecesPast(track, a[1..], rest, current + [a[0]], NextScan(track, x, a[0]));
      assert current + [a[0]] + a[1..] == current + a;
    }
  }

  /** The scanner recovers every cutting from its comma-join. */
  lemma {:induction false} PiecesOfCutting(track: bool, pieces: seq<string>)
    requires IsCutting(track, pieces)
    ensures Pieces(track, Join(pieces, ','), "", FRESH) == pieces
    decreases |pieces|
  {
    var a := pieces[0];
    assert "" + a == a;
    if |pieces| == 1 {
      PiecesPast(track, a, "", "", FRESH);
      assert a + "" == a;
    } else {
      var rest := Join(pieces[1..], ',');
      assert a + [','] + rest == a + ([','] + rest);
      PiecesPast(track, a, [','] + rest, "", FRESH);
      assert ([','] + rest)[1..] == rest;
      PiecesOfCutting(track, pieces[1..]);
      assert pieces == [a] + pieces[1..];
    }
  }

  /** The scanner's answer is the one cutting of the text: comma-joining it rebuilds the
      text, and any list that does so and is cut at top-level commas only is that answer. */
  lemma OnlyCutting(track: bool, text: string, pieces: seq<string>)
    ensures pieces == Pieces(track, text, "", FRESH) <==> IsCutting(track, pieces) && Join(pieces, ',') == text
  {
    PiecesCut(track, text, "", FRESH);
    PiecesRebuild(track, text, "", FRESH);
    assert "" + text == text;
    if IsCutting(track, pieces) { PiecesOfCutting(track, pieces); }
  }

  // ----- printed calls parse back

  const PARENS: Pair := Pair('(', ')')

  /** The state after a text in which the depth does not come back to zero. */
  function Stays(p: Pair, text: string, x: Lex): Option<Lex>
    decreases |text|
  {
    if text == "" then Some(x) else if Closes(p, x, text[0]) then None else Stays(p, text[1..], NextLex(p, x, text[0]))
  }

  const INSIDE: Lex := Lex(1, false, false)

  /** An argument that closes its quotes and its own parentheses. */
  predicate SelfContained(a: string) { Stays(PARENS, a, INSIDE) == Some(INSIDE) }

  lemma {:induction false} StaysConcat(p: Pair, a: string, b: string, x: Lex)
    requires Stays(p, a, x).Some?
    ensures Stays(p, a + b, x) == Stays(p, b, Stays(p, a, x).value)
    decreases |a|
  {
    if a == "" {
      assert a + b == b;
    } else {
      assert (a + b)[1..] == a[1..] + b;
      StaysConcat(p, a[1..], b, NextLex(p, x, a[0]));
    }
  }

  lemma {:induction false} JoinStays(args: seq<string>)
    requires forall a <- args :: SelfContained(a)
    ensures SelfContained(Join(args, ','))
    decreases |args|
  {
    if |args| > 1 {
      JoinStays(args[1..]);
      var rest := Join(args[1..], ',');
      assert SelfContained(args[0]);
      assert args[0] + [','] + rest == args[0] + ([','] + rest);
      StaysConcat(PARENS, args[0], [','] + rest, INSIDE);
      assert ([','] + rest)[1..] == rest;
    } else if |args| == 1 {
      assert args[0] in args;
    }
  }

  /** Nothing closes inside a text that stays open, and its state carries on. */
  lemma {:induction false} StaysOpen(p: Pair, source: string, start: nat, i: nat, text: string, x: Lex)
    requires start <= i && i + |text| <= |source| && source[i..i + |text|] == text
    requires LexAfter(p, source[start..i]) == x && Stays(p, text, x).Some?
    ensures LexAfter(p, source[start..i + |text|]) == Stays(p, text, x).value
    ensures forall j :: i <= j < i + |text| ==> !ClosesAt(p, source, start, j)
    decreases |text|
  {
    if text != "" {
      assert text[0] == source[i];
      LexOneMore(p, source, start, i);
      assert source[i + 1..i + 1 + |text[1..]|] == text[1..];
      StaysOpen(p, source, start, i + 1, text[1..], NextLex(p, x, text[0]));
    }
  }

  /** Printing a call and reading it back: the parenthesis that opens the printed list is
      closed by the one that ends it, whatever follows, and the segments between them are
      the arguments. */
  lemma PrintedCallParsesBack(track: bool, before: string, args: seq<string>, suffix: string)
    requires IsCutting(track, args) && forall a <- args :: SelfContained(a)
    ensures var source, close := before + "(" + Join(args, ',') + ")" + suffix, |before| + 1 + |Join(args, ',')|;
      Finds(PARENS, source, |before|, close) && Pieces(track, source[|before| + 1..close], "", FRESH) == args
  {
    var text := Join(args, ',');
    var source, i := before + "(" + text + ")" + suffix, |before| + 1;
    PrintedLayout(before, text, suffix);
    assert source[|before|..|before|] == "";
    assert source[|before|..i] == "(" && "("[..0] == "";
    assert LexAfter(PARENS, "(") == INSIDE;
    JoinStays(args);
    StaysOpen(PARENS, source, |before|, i, text, INSIDE);
    PiecesOfCutting(track, args);
  }
}
