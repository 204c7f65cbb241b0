/** The compiler from a translated Kotlin template to an Android positional format
    string (scripts/android-app-i18n.ts, renderAndroidResourceValue), and the meaning
    of the format strings it produces. */
module AndroidRenderer {
  import opened Text
  import opened Decimals
  import opened KotlinInterpolations
  import opened EscapeChains

  datatype RenderResult =
    | Rendered(value: string)
    | UnbalancedPlaceholders
    | ChangedPlaceholders

  // ----- the compiler as a function

  /** The 1-based positions of `token` among the source tokens, in order. */
  function Positions(tokens: seq<string>, token: string): (positions: seq<nat>)
    ensures |positions| == multiset(tokens)[token]
  {
    if tokens == [] then []
    else
      var n := |tokens|;
      assert tokens == tokens[..n - 1] + [tokens[n - 1]];
      Positions(tokens[..n - 1], token) + (if tokens[n - 1] == token then [n] else [])
  }

  /** The text that stands for the i-th token of the translation: the source position
      of the same occurrence of that token, or the token itself if there is none. */
  function Reference(source: seq<string>, translated: seq<string>, i: nat): string
    requires i < |translated|
  {
    var occurrence := multiset(translated[..i])[translated[i]];
    var positions := Positions(source, translated[i]);
    if occurrence < |positions| then "%" + Decimal(positions[occurrence]) + "$s" else translated[i]
  }

  function References(source: seq<string>, translated: seq<string>): (refs: seq<string>)
    ensures |refs| == |translated|
  {
    seq(|translated|, i requires 0 <= i < |translated| => Reference(source, translated, i))
  }

  /** Literal text as a format string: every percent sign doubled. */
  function Doubled(s: string): string { ReplaceAll(s, "%", "%%") }

  function EscapePercents(gaps: seq<string>): (escaped: seq<string>)
    ensures |escaped| == |gaps|
  {
    seq(|gaps|, i requires 0 <= i < |gaps| => Doubled(gaps[i]))
  }

  /** The format string before the resource escapes. */
  function Template(sourceSpans: seq<Interpolation>, translated: string, spans: seq<Interpolation>): string
    requires Chain(translated, spans, 0)
  {
    TemplateRest(translated, spans, 0, References(Values(sourceSpans), Values(spans)))
  }

  /** The template's text from `cursor` on. */
  function TemplateRest(translated: string, spans: seq<Interpolation>, cursor: nat, refs: seq<string>): string
    requires Chain(translated, spans, cursor) && |refs| == |spans|
  {
    Interleave(EscapePercents(Gaps(translated, spans, cursor)), refs)
  }

  lemma TemplateRestStep(rendered: string, translated: string, spans: seq<Interpolation>, cursor: nat, refs: seq<string>)
    requires Chain(translated, spans, cursor) && |refs| == |spans| > 0
    ensures rendered + TemplateRest(translated, spans, cursor, refs)
         == rendered + Doubled(translated[cursor..spans[0].start]) + refs[0]
            + TemplateRest(translated, spans[1..], spans[0].end, refs[1..])
  {
    var gaps := Gaps(translated, spans, cursor);
    assert EscapePercents(gaps)[1..] == EscapePercents(gaps[1..]);
  }

  function Render(source: string, translated: string): RenderResult {
    var sourceSpans := Scan(source, 0);
    var spans := Scan(translated, 0);
    if sourceSpans.None? || spans.None? then UnbalancedPlaceholders
    else if multiset(Values(sourceSpans.value)) != multiset(Values(spans.value)) then ChangedPlaceholders
    else if sourceSpans.value == [] then Rendered(EscapeResource(translated))
    else Rendered(EscapeResource(Template(sourceSpans.value, translated, spans.value)))
  }

  // ----- the compiler itself

  function Lookup<T>(m: map<string, T>, key: string, default: T): T {
    if key in m then m[key] else default
  }

  method TokenCounts(tokens: seq<string>) returns (counts: map<string, nat>)
    ensures forall t :: t in counts <==> t in tokens
    ensures forall t <- counts :: counts[t] == multiset(tokens)[t]
  {
    counts := map[];
    for i := 0 to |tokens|
      invariant forall t :: t in counts <==> t in tokens[..i]
      invariant forall t <- counts :: counts[t] == multiset(tokens[..i])[t]
    {
      var token := tokens[i];
      assert tokens[..i + 1] == tokens[..i] + [token];
      counts := counts[token := Lookup(counts, token, 0) + 1];
    }
    assert tokens[..|tokens|] == tokens;
  }

  lemma CountsDecideMultisets(a: seq<string>, b: seq<string>, countsA: map<string, nat>, countsB: map<string, nat>)
    requires forall t :: t in countsA <==> t in a
    requires forall t <- countsA :: countsA[t] == multiset(a)[t]
    requires forall t :: t in countsB <==> t in b
    requires forall t <- countsB :: countsB[t] == multiset(b)[t]
    ensures countsA == countsB <==> multiset(a) == multiset(b)
  {
    forall t ensures t in a <==> multiset(a)[t] > 0 {}
    forall t ensures t in b <==> multiset(b)[t] > 0 {}
    if countsA == countsB {
      forall t ensures multiset(a)[t] == multiset(b)[t] {
        if t in a { assert t in countsA && t in countsB; } else { assert t !in countsA && t !in b; }
      }
    }
    if multiset(a) == multiset(b) {
      forall t ensures t in countsA <==> t in countsB {
        assert t in a <==> t in b;
      }
    }
  }

  ghost predicate Counts(counts: map<string, nat>, tokens: seq<string>) {
    forall t :: Lookup(counts, t, 0) == multiset(tokens)[t]
  }

  ghost predicate Indexes(indices: map<string, seq<nat>>, tokens: seq<string>) {
    forall t :: Lookup(indices, t, []) == Positions(tokens, t)
  }

  lemma IndexStep(indices: map<string, seq<nat>>, tokens: seq<string>, n: nat)
    requires n < |tokens| && Indexes(indices, tokens[..n])
    ensures Indexes(indices[tokens[n] := Lookup(indices, tokens[n], []) + [n + 1]], tokens[..n + 1])
  {
    var prefix := tokens[..n + 1];
    assert prefix[..n] == tokens[..n] && prefix[n] == tokens[n];
    var more := indices[tokens[n] := Lookup(indices, tokens[n], []) + [n + 1]];
    forall t ensures Lookup(more, t, []) == Positions(prefix, t) {
      PositionsGrow(prefix, t);
    }
  }

  lemma PositionsGrow(tokens: seq<string>, t: string)
    requires tokens != []
    ensures var n := |tokens| - 1;
      Positions(tokens, t) == if tokens[n] == t then Positions(tokens[..n], t) + [n + 1] else Positions(tokens[..n], t)
  {
  }

  method SourceIndices(tokens: seq<string>) returns (indices: map<string, seq<nat>>)
    ensures Indexes(indices, tokens)
  {
    indices := map[];
    for index := 0 to |tokens|
      invariant Indexes(indices, tokens[..index])
    {
      var token := tokens[index];
      IndexStep(indices, tokens, index);
      indices := indices[token := Lookup(indices, token, []) + [index + 1]];
    }
    assert tokens[..|tokens|] == tokens;
  }

  lemma CountStep(tokens: seq<string>, k: nat, counts: map<string, nat>)
    requires k < |tokens|
    requires forall t :: Lookup(counts, t, 0) == multiset(tokens[..k])[t]
    ensures var more := counts[tokens[k] := Lookup(counts, tokens[k], 0) + 1];
      forall t :: Lookup(more, t, 0) == multiset(tokens[..k + 1])[t]
  {
    assert tokens[..k + 1] == tokens[..k] + [tokens[k]];
  }

  /** Use up one more occurrence of the k-th token of the translation. */
  method NextReference(sourceIndices: map<string, seq<nat>>, occurrences: map<string, nat>, token: string,
                       ghost sourceTokens: seq<string>, ghost tokens: seq<string>, ghost k: nat)
      returns (reference: string, translatedOccurrences: map<string, nat>)
    requires k < |tokens| && token == tokens[k]
    requires Indexes(sourceIndices, sourceTokens) && Counts(occurrences, tokens[..k])
    ensures reference == Reference(sourceTokens, tokens, k)
    ensures Counts(translatedOccurrences, tokens[..k + 1])
  {
    var occurrence := Lookup(occurrences, token, 0);
    translatedOccurrences := occurrences[token := occurrence + 1];
    var known := Lookup(sourceIndices, token, []);
    reference := if occurrence < |known| then "%" + Decimal(known[occurrence]) + "$s" else token;
    CountStep(tokens, k, occurrences);
  }

  /** The loop over the translation's interpolations. */
  method RenderTemplate(sourceTokens: seq<string>, translated: string, spans: seq<Interpolation>) returns (rendered: string)
    requires Chain(translated, spans, 0)
    ensures rendered == TemplateRest(translated, spans, 0, References(sourceTokens, Values(spans)))
  {
    var sourceIndices := SourceIndices(sourceTokens);
    var translatedOccurrences: map<string, nat> := map[];
    var cursor: nat := 0;
    rendered := "";
    ghost var tokens, refs := Values(spans), References(sourceTokens, Values(spans));
    ghost var whole := TemplateRest(translated, spans, 0, refs);
    for k := 0 to |spans|
      invariant Chain(translated, spans[k..], cursor)
      invariant Counts(translatedOccurrences, tokens[..k])
      invariant rendered + TemplateRest(translated, spans[k..], cursor, refs[k..]) == whole
    {
      var interpolation := spans[k];
      TemplateRestStep(rendered, translated, spans[k..], cursor, refs[k..]);
      assert spans[k..][1..] == spans[k + 1..] && refs[k..][1..] == refs[k + 1..];
      rendered := rendered + Doubled(translated[cursor..interpolation.start]);
      var reference;
      reference, translatedOccurrences :=
        NextReference(sourceIndices, translatedOccurrences, interpolation.value, sourceTokens, tokens, k);
      rendered := rendered + reference;
      cursor := interpolation.end;
    }
    rendered := rendered + Doubled(translated[cursor..]);
  }

  method RenderAndroidResourceValue(source: string, translated: string) returns (r: RenderResult)
    ensures r == Render(source, translated)
  {
    var rendered := translated;
    var sourceInterpolations := ReadKotlinInterpolations(source);
    var translatedInterpolations := ReadKotlinInterpolations(translated);
    if sourceInterpolations.None? || translatedInterpolations.None? {
      return UnbalancedPlaceholders;
    }
    var sourceTokens := Values(sourceInterpolations.value);
    var translatedTokens := Values(translatedInterpolations.value);
    var sourceCounts := TokenCounts(sourceTokens);
    var translatedCounts := TokenCounts(translatedTokens);
    CountsDecideMultisets(sourceTokens, translatedTokens, sourceCounts, translatedCounts);
    if sourceCounts != translatedCounts {
      return ChangedPlaceholders;
    }
    if |sourceTokens| > 0 {
      rendered := RenderTemplate(sourceTokens, translated, translatedInterpolations.value);
    }
    return Rendered(EscapeResource(rendered));
  }
}
