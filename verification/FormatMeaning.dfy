/** What a rendered Android resource means: formatting it with the source's arguments
    gives the translation with every interpolation replaced by its value. */
module FormatMeaning {
  import opened Text
  import opened Decimals
  import opened KotlinInterpolations
  import opened EscapeChains
  import opened AndroidRenderer

  // ----- an interpreter for positional format strings

  function DigitRun(t: string): (n: nat)
    ensures n <= |t| && forall k :: 0 <= k < n ==> IsDigit(t[k])
  {
    if t != "" && IsDigit(t[0]) then 1 + DigitRun(t[1..]) else 0
  }

  function After(head: string, rest: Option<string>): Option<string> {
    if rest.Some? then Some(head + rest.value) else None
  }

  /** `%%` is a percent sign, `%k$s` is argument k (from 1); any other use of a percent
      sign is malformed. */
  function Format(t: string, args: seq<string>): Option<string>
    decreases |t|
  {
    if t == "" then Some("")
    else if t[0] != '%' then After(t[..1], Format(t[1..], args))
    else if "%%" <= t then After("%", Format(t[2..], args))
    else
      var n := DigitRun(t[1..]);
      var tail := t[1 + n..];
      if n == 0 || !("$s" <= tail) then None
      else
        var k := ValueOf(t[1..][..n]);
        if 1 <= k <= |args| then After(args[k - 1], Format(tail[2..], args)) else None
  }

  lemma AfterAfter(a: string, b: string, rest: Option<string>)
    ensures After(a, After(b, rest)) == After(a + b, rest)
    ensures After("", rest) == rest
  {
    if rest.Some? {
      assert a + (b + rest.value) == a + b + rest.value;
      assert "" + rest.value == rest.value;
    }
  }

  /** Formatting past one character of literal text. */
  lemma FormatCharacter(c: char, rest: string, args: seq<string>)
    ensures Format((if c == '%' then "%%" else [c]) + rest, args) == After([c], Format(rest, args))
  {
    var head := if c == '%' then "%%" else [c];
    var t := head + rest;
    assert t[|head|..] == rest && t[0] == head[0];
    if c == '%' { assert "%%" <= t; } else { assert t[..1] == [c]; }
  }

  lemma {:induction false} FormatLiteral(gap: string, rest: string, args: seq<string>)
    ensures Format(Doubled(gap) + rest, args) == After(gap, Format(rest, args))
  {
    if gap == "" {
      assert Doubled(gap) + rest == rest;
      AfterAfter("", "", Format(rest, args));
    } else {
      var c, tail := gap[0], gap[1..];
      var head := if c == '%' then "%%" else [c];
      assert gap == [c] + tail;
      DoubledConcat([c], tail);
      ReplaceOnePercent(c);
      assert Doubled(gap) + rest == head + (Doubled(tail) + rest);
      FormatCharacter(c, Doubled(tail) + rest, args);
      FormatLiteral(tail, rest, args);
      AfterAfter([c], tail, Format(rest, args));
    }
  }

  lemma DoubledConcat(u: string, v: string)
    ensures Doubled(u + v) == Doubled(u) + Doubled(v)
  {
    ReplaceCharConcat(u, v, '%', "%%");
  }

  lemma ReplaceOnePercent(c: char)
    ensures Doubled([c]) == if c == '%' then "%%" else [c]
  {
    if c == '%' { ReplaceWhole("%", "%%"); } else { ReplaceAbsent([c], "%", "%%"); }
  }

  lemma {:induction false} DigitRunExact(digits: string, rest: string)
    requires forall c <- digits :: IsDigit(c)
    requires rest != "" && !IsDigit(rest[0])
    ensures DigitRun(digits + rest) == |digits|
  {
    if digits == "" {
      assert digits + rest == rest;
    } else {
      assert (digits + rest)[1..] == digits[1..] + rest;
      DigitRunExact(digits[1..], rest);
      assert digits[0] in digits;
    }
  }

  /** How a positional reference is read. */
  lemma ReadReference(k: nat, rest: string)
    ensures var t := "%" + Decimal(k) + "$s" + rest;
      var n := |Decimal(k)|;
      n > 0 && t[0] == '%' && !("%%" <= t) && DigitRun(t[1..]) == n &&
      t[1..][..n] == Decimal(k) && t[1 + n..] == "$s" + rest
  {
    DecimalRoundTrip(k);
    var d, tail := Decimal(k), "$s" + rest;
    var t := "%" + d + "$s" + rest;
    assert t == "%" + (d + tail);
    assert t[1..] == d + tail;
    assert d[0] in d && t[1] == d[0];
    DigitRunExact(d, tail);
  }

  lemma FormatReference(k: nat, rest: string, args: seq<string>)
    requires 1 <= k <= |args|
    ensures Format("%" + Decimal(k) + "$s" + rest, args) == After(args[k - 1], Format(rest, args))
  {
    ReadReference(k, rest);
    DecimalRoundTrip(k);
    var tail := "$s" + rest;
    assert "$s" <= tail && tail[2..] == rest;
  }

  // ----- interleavings

  function ReferenceTexts(positions: seq<nat>): (refs: seq<string>)
    ensures |refs| == |positions|
  {
    seq(|positions|, i requires 0 <= i < |positions| => "%" + Decimal(positions[i]) + "$s")
  }

  function Pick(args: seq<string>, positions: seq<nat>): (picked: seq<string>)
    requires forall p <- positions :: 1 <= p <= |args|
    ensures |picked| == |positions|
  {
    seq(|positions|, i requires 0 <= i < |positions| => assert positions[i] in positions; args[positions[i] - 1])
  }

  lemma {:induction false} FormatInterleaving(gaps: seq<string>, positions: seq<nat>, args: seq<string>)
    requires |gaps| == |positions| + 1 && forall p <- positions :: 1 <= p <= |args|
    ensures Format(Interleave(EscapePercents(gaps), ReferenceTexts(positions)), args)
         == Some(Interleave(gaps, Pick(args, positions)))
  {
    if positions == [] {
      FormatLiteral(gaps[0], "", args);
      assert Doubled(gaps[0]) + "" == Doubled(gaps[0]) && gaps[0] + "" == gaps[0];
    } else {
      var k := positions[0];
      assert k in positions && forall p <- positions[1..] :: p in positions;
      var rest := Interleave(EscapePercents(gaps[1..]), ReferenceTexts(positions[1..]));
      InterleaveReferences(gaps, positions);
      FormatInterleaving(gaps[1..], positions[1..], args);
      FormatReference(k, rest, args);
      FormatLiteral(gaps[0], "%" + Decimal(k) + "$s" + rest, args);
      assert Pick(args, positions)[1..] == Pick(args, positions[1..]);
      AfterAfter(gaps[0], args[k - 1], Some(Interleave(gaps[1..], Pick(args, positions[1..]))));
    }
  }

  lemma InterleaveReferences(gaps: seq<string>, positions: seq<nat>)
    requires |gaps| == |positions| + 1 && positions != []
    ensures Interleave(EscapePercents(gaps), ReferenceTexts(positions))
         == Doubled(gaps[0])
            + ("%" + Decimal(positions[0]) + "$s" + Interleave(EscapePercents(gaps[1..]), ReferenceTexts(positions[1..])))
  {
    assert EscapePercents(gaps)[1..] == EscapePercents(gaps[1..]);
    assert ReferenceTexts(positions)[1..] == ReferenceTexts(positions[1..]);
  }

  // ----- the positions form a permutation that respects occurrences

  lemma {:induction false} PositionsAt(tokens: seq<string>, token: string, k: nat)
    requires k < |Positions(tokens, token)|
    ensures var p := Positions(tokens, token)[k];
      1 <= p <= |tokens| && tokens[p - 1] == token && multiset(tokens[..p - 1])[token] == k
  {
    var n := |tokens|;
    var before := Positions(tokens[..n - 1], token);
    assert tokens == tokens[..n - 1] + [tokens[n - 1]];
    if k < |before| {
      PositionsAt(tokens[..n - 1], token, k);
      assert tokens[..n - 1][..before[k] - 1] == tokens[..before[k] - 1];
    }
  }

  /** `positions` sends the k-th occurrence of each token of the translation to the
      k-th occurrence of the same token in the source. */
  ghost predicate MatchesOccurrences(source: seq<string>, translated: seq<string>, positions: seq<nat>) {
    |positions| == |translated| &&
    forall i :: 0 <= i < |positions| ==> MatchedAt(source, translated, positions, i)
  }

  ghost predicate MatchedAt(source: seq<string>, translated: seq<string>, positions: seq<nat>, i: int)
    requires 0 <= i < |positions| == |translated|
  {
    1 <= positions[i] <= |source| && source[positions[i] - 1] == translated[i] &&
    multiset(source[..positions[i] - 1])[translated[i]] == multiset(translated[..i])[translated[i]]
  }

  ghost predicate IsPermutation(positions: seq<nat>, n: nat) {
    |positions| == n &&
    (forall i, j :: 0 <= i < j < n ==> positions[i] != positions[j]) &&
    forall p :: 1 <= p <= n ==> p in positions
  }

  lemma CountPrefix(tokens: seq<string>, i: nat, j: nat)
    requires i < j <= |tokens|
    ensures multiset(tokens[..j])[tokens[i]] > multiset(tokens[..i])[tokens[i]]
  {
    assert tokens[..j] == tokens[..i] + [tokens[i]] + tokens[i + 1..j];
  }

  lemma {:induction false} OccurrenceExists(tokens: seq<string>, token: string, k: nat) returns (i: nat)
    requires k < multiset(tokens)[token]
    ensures i < |tokens| && tokens[i] == token && multiset(tokens[..i])[token] == k
  {
    PositionsAt(tokens, token, k);
    i := Positions(tokens, token)[k] - 1;
  }

  lemma MatchedIsInjective(source: seq<string>, translated: seq<string>, positions: seq<nat>, i: nat, j: nat)
    requires MatchesOccurrences(source, translated, positions) && i < j < |positions|
    ensures positions[i] != positions[j]
  {
    assert MatchedAt(source, translated, positions, i) && MatchedAt(source, translated, positions, j);
    CountPrefix(translated, i, j);
  }

  /** Two positions of one token with equally many earlier occurrences are the same. */
  lemma SameOccurrence(tokens: seq<string>, p: nat, q: nat)
    requires p < |tokens| && q < |tokens| && tokens[p] == tokens[q]
    requires multiset(tokens[..p])[tokens[p]] == multiset(tokens[..q])[tokens[q]]
    ensures p == q
  {
    if p < q { CountPrefix(tokens, p, q); }
    if q < p { CountPrefix(tokens, q, p); }
  }

  lemma MatchedIsSurjective(source: seq<string>, translated: seq<string>, positions: seq<nat>, p: nat)
    requires multiset(source) == multiset(translated)
    requires MatchesOccurrences(source, translated, positions) && 1 <= p <= |source|
    ensures p in positions
  {
    CountPrefix(source, p - 1, |source|);
    assert source[..|source|] == source;
    var i := OccurrenceExists(translated, source[p - 1], multiset(source[..p - 1])[source[p - 1]]);
    assert MatchedAt(source, translated, positions, i);
    SameOccurrence(source, positions[i] - 1, p - 1);
  }

  lemma MatchedIsPermutation(source: seq<string>, translated: seq<string>, positions: seq<nat>)
    requires multiset(source) == multiset(translated)
    requires MatchesOccurrences(source, translated, positions)
    ensures IsPermutation(positions, |source|)
  {
    assert |source| == |multiset(source)| == |multiset(translated)| == |translated|;
    forall i, j | 0 <= i < j < |positions| ensures positions[i] != positions[j] {
      MatchedIsInjective(source, translated, positions, i, j);
    }
    forall p | 1 <= p <= |source| ensures p in positions {
      MatchedIsSurjective(source, translated, positions, p);
    }
  }

  /** With equal token multisets every token of the translation finds its source
      position, so the references are all positional. */
  lemma ReferencesArePositional(source: seq<string>, translated: seq<string>) returns (positions: seq<nat>)
    requires multiset(source) == multiset(translated)
    ensures MatchesOccurrences(source, translated, positions)
    ensures References(source, translated) == ReferenceTexts(positions)
  {
    forall i | 0 <= i < |translated|
      ensures multiset(translated[..i])[translated[i]] < |Positions(source, translated[i])|
    {
      CountPrefix(translated, i, |translated|);
      assert translated[..|translated|] == translated;
    }
    positions := seq(|translated|, i requires 0 <= i < |translated| =>
      Positions(source, translated[i])[multiset(translated[..i])[translated[i]]]);
    forall i | 0 <= i < |translated|
      ensures MatchedAt(source, translated, positions, i)
      ensures Reference(source, translated, i) == ReferenceTexts(positions)[i]
    {
      PositionsAt(source, translated[i], multiset(translated[..i])[translated[i]]);
    }
    assert References(source, translated) == ReferenceTexts(positions);
  }

  // ----- meaning preservation

  ghost predicate Compatible(source: string, translated: string) {
    Scan(source, 0).Some? && Scan(translated, 0).Some? &&
    multiset(Values(Scan(source, 0).value)) == multiset(Values(Scan(translated, 0).value))
  }

  function Tokens(s: string): seq<string>
    requires Scan(s, 0).Some?
  {
    Values(Scan(s, 0).value)
  }

  function Literals(s: string): seq<string>
    requires Scan(s, 0).Some?
  {
    Gaps(s, Scan(s, 0).value, 0)
  }

  /** Formatting the template with one argument per source token gives the translation's
      literal text with each token replaced by the argument of the same occurrence of
      that token in the source; every argument is used exactly once. */
  lemma TemplateMeaning(source: string, translated: string, args: seq<string>) returns (positions: seq<nat>)
    requires Compatible(source, translated) && |args| == |Tokens(source)|
    ensures MatchesOccurrences(Tokens(source), Tokens(translated), positions)
    ensures IsPermutation(positions, |args|)
    ensures forall p <- positions :: 1 <= p <= |args|
    ensures Template(Scan(source, 0).value, translated, Scan(translated, 0).value)
         == Interleave(EscapePercents(Literals(translated)), ReferenceTexts(positions))
    ensures Format(Template(Scan(source, 0).value, translated, Scan(translated, 0).value), args)
         == Some(Interleave(Literals(translated), Pick(args, positions)))
  {
    positions := ReferencesArePositional(Tokens(source), Tokens(translated));
    MatchedIsPermutation(Tokens(source), Tokens(translated), positions);
    forall p <- positions ensures 1 <= p <= |args| {
      var i :| 0 <= i < |positions| && positions[i] == p;
      assert MatchedAt(Tokens(source), Tokens(translated), positions, i);
    }
    FormatInterleaving(Literals(translated), positions, args);
  }

  function Evaluate(tokens: seq<string>, value: string -> string): (values: seq<string>)
    ensures |values| == |tokens|
  {
    seq(|tokens|, i requires 0 <= i < |tokens| => value(tokens[i]))
  }

  /** The same for an evaluation that depends on the token alone: the formatted text is
      the translation with every interpolation replaced by its value. */
  lemma TemplateEvaluates(source: string, translated: string, value: string -> string)
    requires Compatible(source, translated)
    ensures Format(Template(Scan(source, 0).value, translated, Scan(translated, 0).value), Evaluate(Tokens(source), value))
         == Some(Interleave(Literals(translated), Evaluate(Tokens(translated), value)))
  {
    var args := Evaluate(Tokens(source), value);
    var positions := TemplateMeaning(source, translated, args);
    forall i | 0 <= i < |positions| ensures Pick(args, positions)[i] == Evaluate(Tokens(translated), value)[i] {
      assert MatchedAt(Tokens(source), Tokens(translated), positions, i);
      assert positions[i] in positions;
    }
    assert Pick(args, positions) == Evaluate(Tokens(translated), value);
  }

  // ----- through the resource escapes and back

  function CorruptAll(gaps: seq<string>): (corrupted: seq<string>)
    ensures |corrupted| == |gaps|
  {
    seq(|gaps|, i requires 0 <= i < |gaps| => Corrupt(gaps[i]))
  }

  lemma DoubledHead(s: string)
    ensures s != "" ==> Doubled(s) != "" && Doubled(s)[0] == s[0]
  {
    if s != "" {
      assert s == s[..1] + s[1..] && s[..1] == [s[0]];
      DoubledConcat(s[..1], s[1..]);
      ReplaceOnePercent(s[0]);
    }
  }

  lemma CorruptConcat(u: string, v: string)
    requires u == "" || u[|u| - 1] != '\\' || v == "" || v[0] != 'n'
    ensures Corrupt(u + v) == Corrupt(u) + Corrupt(v)
  {
    BackslashSeam(u, v, 'n');
    ReplaceConcat(u, v, "\\n", "\\\n");
  }

  lemma {:induction false} CorruptDoubled(gap: string)
    ensures Corrupt(Doubled(gap)) == Doubled(Corrupt(gap))
    decreases |gap|
  {
    if "\\n" <= gap {
      assert gap == "\\n" + gap[2..];
      DoubledConcat("\\n", gap[2..]);
      ReplaceAbsent("\\n", "%", "%%");
      ReplaceWhole("\\n", "\\\n");
      CorruptConcat("\\n", Doubled(gap[2..]));
      CorruptDoubled(gap[2..]);
      DoubledConcat("\\\n", Corrupt(gap[2..]));
      ReplaceAbsent("\\\n", "%", "%%");
    } else if gap != "" {
      var c, rest := gap[..1], gap[1..];
      assert gap == c + rest && c == [gap[0]];
      DoubledConcat(c, rest);
      ReplaceOnePercent(gap[0]);
      DoubledHead(rest);
      assert rest != "" ==> gap[..2] == [gap[0], rest[0]];
      CorruptConcat(Doubled(c), Doubled(rest));
      CorruptShort(Doubled(c));
      CorruptDoubled(rest);
      DoubledConcat(c, Corrupt(rest));
      assert Corrupt(gap) == c + Corrupt(rest);
    }
  }

  lemma CorruptShort(s: string)
    requires |s| <= 1 || s == "%%"
    ensures Corrupt(s) == s
  {
    if |s| == 2 { ReplaceAbsent(s, "\\n", "\\\n"); }
  }

  lemma CorruptReference(k: nat)
    ensures Corrupt("%" + Decimal(k) + "$s") == "%" + Decimal(k) + "$s"
  {
    DecimalRoundTrip(k);
    var ref := "%" + Decimal(k) + "$s";
    assert !IsDigit('\\') && '\\' !in Decimal(k);
    ReplaceAbsent(ref, "\\n", "\\\n");
  }

  lemma {:induction false} CorruptTemplate(gaps: seq<string>, positions: seq<nat>)
    requires |gaps| == |positions| + 1
    ensures Corrupt(Interleave(EscapePercents(gaps), ReferenceTexts(positions)))
         == Interleave(EscapePercents(CorruptAll(gaps)), ReferenceTexts(positions))
  {
    CorruptDoubled(gaps[0]);
    if positions != [] {
      var ref := "%" + Decimal(positions[0]) + "$s";
      var rest := Interleave(EscapePercents(gaps[1..]), ReferenceTexts(positions[1..]));
      InterleaveReferences(gaps, positions);
      InterleaveReferences(CorruptAll(gaps), positions);
      assert CorruptAll(gaps)[1..] == CorruptAll(gaps[1..]);
      CorruptTemplate(gaps[1..], positions[1..]);
      CorruptReference(positions[0]);
      CorruptConcat(ref, rest);
      CorruptConcat(Doubled(gaps[0]), ref + rest);
    }
  }

  lemma {:induction false} InterleaveInjective(a: seq<string>, b: seq<string>, values: seq<string>)
    requires |a| == |b| == |values| + 1 && forall i :: 0 <= i < |a| ==> |a[i]| == |b[i]|
    ensures Interleave(a, values) == Interleave(b, values) <==> a == b
  {
    var x, y := Interleave(a, values), Interleave(b, values);
    if values == [] {
      assert a == [a[0]] && b == [b[0]];
    } else {
      InterleaveInjective(a[1..], b[1..], values[1..]);
      assert a == [a[0]] + a[1..] && b == [b[0]] + b[1..];
      assert x[..|a[0]|] == a[0] && y[..|a[0]|] == b[0];
      var n := |a[0]| + |values[0]|;
      assert x[n..] == Interleave(a[1..], values[1..]) && y[n..] == Interleave(b[1..], values[1..]);
    }
  }

  /** From source and translation back to text: a rendered resource, decoded by the
      generator's own decoder and formatted with one argument per source token, is the
      translation with each token replaced by its argument, except that a backslash-n pair
      in the literal text has become a backslash and a line feed. It is exact if and only if
      no literal gap of the translation holds such a pair. */
  lemma ResourceMeaning(source: string, translated: string, args: seq<string>) returns (positions: seq<nat>)
    requires Render(source, translated).Rendered? && |args| == |Tokens(source)| > 0
    ensures MatchesOccurrences(Tokens(source), Tokens(translated), positions)
    ensures IsPermutation(positions, |args|) && forall p <- positions :: 1 <= p <= |args|
    ensures var shown := Format(DecodeXml(Render(source, translated).value), args);
      shown == Some(Interleave(CorruptAll(Literals(translated)), Pick(args, positions))) &&
      (shown == Some(Interleave(Literals(translated), Pick(args, positions)))
       <==> forall gap <- Literals(translated) :: !Contains(gap, "\\n"))
  {
    positions := TemplateMeaning(source, translated, args);
    var gaps, values := Literals(translated), Pick(args, positions);
    DecodeXmlUndoesEscape(Template(Scan(source, 0).value, translated, Scan(translated, 0).value));
    CorruptTemplate(gaps, positions);
    FormatInterleaving(CorruptAll(gaps), positions, args);
    forall i | 0 <= i < |gaps|
      ensures |CorruptAll(gaps)[i]| == |gaps[i]|
      ensures CorruptAll(gaps)[i] == gaps[i] <==> !Contains(gaps[i], "\\n")
    {
      CorruptIdentity(gaps[i]);
    }
    InterleaveInjective(CorruptAll(gaps), gaps, values);
  }

  /** A text without interpolations is not a format string: its resource decodes to the
      translation itself, up to the same corruption. */
  lemma PlainResourceMeaning(source: string, translated: string)
    requires Render(source, translated).Rendered? && Tokens(source) == []
    ensures DecodeXml(Render(source, translated).value) == Corrupt(translated)
    ensures DecodeXml(Render(source, translated).value) == translated <==> !Contains(translated, "\\n")
  {
    assert Scan(source, 0).value == [];
    DecodeXmlUndoesEscape(translated);
  }

  /** The compiler refuses a pair exactly when a scan fails or the two texts do not use
      each interpolation equally often. */
  lemma RenderRefuses(source: string, translated: string)
    ensures Render(source, translated).UnbalancedPlaceholders? <==>
            ReachesUnclosed(source, 0) || ReachesUnclosed(translated, 0)
    ensures Render(source, translated).ChangedPlaceholders? <==>
            !ReachesUnclosed(source, 0) && !ReachesUnclosed(translated, 0) && !Compatible(source, translated)
  {
    ScanFails(source, 0);
    ScanFails(translated, 0);
  }
}
