/** The escape chains character by character, and what the resource decoder makes of the
    `&quot;` entity, which no escape chain writes (scripts/android-app-i18n.ts). */
module EscapeTables {
  import opened Text
  import opened EscapeChains

  /** A character of text in a string resource: Android's backslash escapes and the entities
      that XML requires. */
  function InResource(c: char): string {
    match c
    case '\\' => "\\\\"
    case '\n' => "\\n"
    case '\'' => "\\'"
    case '"' => "\\\""
    case '&' => "&amp;"
    case '<' => "&lt;"
    case '>' => "&gt;"
    case _ => [c]
  }

  /** A character of text in a Kotlin string literal. */
  function InLiteral(c: char): string {
    match c
    case '\\' => "\\\\"
    case '"' => "\\\""
    case '$' => "\\$"
    case '\n' => "\\n"
    case _ => [c]
  }

  function Each(f: char -> string, s: string): string {
    if s == "" then "" else f(s[0]) + Each(f, s[1..])
  }

  lemma EachPair(f: char -> string, s: string)
    requires |s| >= 2
    ensures Each(f, s) == f(s[0]) + f(s[1]) + Each(f, s[2..])
  {
    assert s[1..][1..] == s[2..];
    assert f(s[0]) + (f(s[1]) + Each(f, s[2..])) == f(s[0]) + f(s[1]) + Each(f, s[2..]);
  }

  lemma UnitImages(u: string)
    requires IsUnit(u)
    ensures u == "\\n" ==> DecodedPiece(0)(u) == InResource(u[0]) + InResource(u[1]) && KotlinDecodedPiece(0)(u) == InLiteral(u[0]) + InLiteral(u[1])
    ensures u != "\\n" ==> DecodedPiece(0)(u) == InResource(u[0]) && KotlinDecodedPiece(0)(u) == InLiteral(u[0])
  {
    if u != "\\n" { assert u == [u[0]]; }
  }

  lemma {:induction false} UnitsToCharacters(s: string)
    ensures Flat(DecodedPiece(0), Units(s)) == Each(InResource, s)
    ensures Flat(KotlinDecodedPiece(0), Units(s)) == Each(InLiteral, s)
    decreases |s|
  {
    if s != "" {
      if "\\n" <= s {
        UnitsToCharacters(s[2..]);
        EachPair(InResource, s);
        EachPair(InLiteral, s);
        UnitImages("\\n");
        assert s[0] == '\\' && s[1] == 'n';
        assert Units(s)[1..] == Units(s[2..]);
      } else {
        UnitsToCharacters(s[1..]);
        UnitImages(s[..1]);
        assert Units(s)[1..] == Units(s[1..]);
      }
    }
  }

  /** The escape chain of resources escapes every character on its own, by this table. */
  lemma EscapeResourceEach(s: string)
    ensures EscapeResource(s) == Each(InResource, s)
  {
    EscapeResourcePieces(s);
    UnitsToCharacters(s);
  }

  /** So does the escape chain of Kotlin literals. */
  lemma EscapeKotlinEach(s: string)
    ensures EscapeKotlin(s) == Each(InLiteral, s)
  {
    EscapeKotlinPieces(s);
    UnitsToCharacters(s);
  }

  // ----- the quote entity

  lemma SeamByFirst(u: string, v: string, pat: string)
    requires |pat| >= 2 && v != "" && v[0] !in pat[1..]
    ensures CleanSeam(u, v, pat)
  {
    forall i | 0 <= i < |u| < i + |pat| ensures !(pat <= (u + v)[i..]) {
      var j := |u| - i;
      assert pat[j] == pat[1..][j - 1];
      if |(u + v)[i..]| >= |pat| {
        assert (u + v)[i..][j] == v[0];
      }
    }
  }

  /** No match of the pattern begins in this text, whatever follows. */
  predicate Misses(m: string, pat: string)
    requires |pat| >= 2
  {
    forall i :: 0 <= i < |m| && m[i] == pat[0] ==> i + 1 < |m| && m[i + 1] != pat[1]
  }

  lemma MissedStays(m: string, z: string, pat: string, rep: string)
    requires |pat| >= 2 && Misses(m, pat)
    ensures ReplaceAll(m + z, pat, rep) == m + ReplaceAll(z, pat, rep)
  {
    forall i | 0 <= i < |m| < i + |pat| ensures !(pat <= (m + z)[i..]) {
      assert (m + z)[i] == m[i];
      if m[i] == pat[0] && |(m + z)[i..]| >= 2 { assert (m + z)[i..][1] == m[i + 1]; }
    }
    ReplaceConcat(m, z, pat, rep);
    ReplaceMissing(m, pat, rep);
  }

  lemma MatchedGoes(z: string, pat: string, rep: string)
    requires pat != ""
    ensures ReplaceAll(pat + z, pat, rep) == rep + ReplaceAll(z, pat, rep)
  {
    assert (pat + z)[|pat|..] == z;
  }

  predicate EndsInBackslash(s: string) { s != "" && s[|s| - 1] == '\\' }

  lemma {:induction false} ReplacedEnd(s: string, pat: string, rep: string)
    requires pat != "" && rep != "" && !EndsInBackslash(rep) && !EndsInBackslash(s)
    ensures !EndsInBackslash(ReplaceAll(s, pat, rep))
    decreases |s|
  {
    if |s| >= |pat| {
      var n := if pat <= s then |pat| else 1;
      ReplacedEnd(s[n..], pat, rep);
    }
  }

  /** The entity after the first `k` decoding passes, with or without a backslash before it. */
  function Middle(k: nat, slash: bool): string {
    if k <= 2 then (if slash then "\\&quot;" else "&quot;")
    else if k <= 6 then (if slash then "\\\"" else "\"")
    else "\""
  }

  lemma MiddlePass(k: nat, slash: bool, z: string)
    requires k < 8 && (k == 6 ==> slash)
    ensures var Pass(pat, rep) := RESOURCE_DECODERS[k];
      ReplaceAll(Middle(k, slash) + z, pat, rep) == Middle(k + 1, slash) + ReplaceAll(z, pat, rep)
  {
    var Pass(pat, rep) := RESOURCE_DECODERS[k];
    var m := Middle(k, slash);
    if k == 2 {
      MatchedGoes(z, pat, rep);
      if slash {
        assert m + z == "\\" + (pat + z);
        assert (m + z)[1..] == pat + z && !(pat <= m + z);
      }
    } else if k == 6 {
      MatchedGoes(z, pat, rep);
    } else {
      assert Misses(m, pat);
      MissedStays(m, z, pat, rep);
    }
  }

  /** At the pass over backslash-quote pairs a bare quote is left alone. */
  lemma BareQuotePass(z: string)
    ensures var Pass(pat, rep) := RESOURCE_DECODERS[6];
      ReplaceAll("\"" + z, pat, rep) == "\"" + ReplaceAll(z, pat, rep)
  {
    var Pass(pat, rep) := RESOURCE_DECODERS[6];
    assert Misses("\"", pat);
    MissedStays("\"", z, pat, rep);
  }

  lemma LeftSeam(k: nat, slash: bool, x: string, z: string)
    requires k < 8 && (!slash && k <= 6 ==> !EndsInBackslash(x))
    ensures CleanSeam(x, Middle(k, slash) + z, RESOURCE_DECODERS[k].pat)
  {
    var v, pat := Middle(k, slash) + z, RESOURCE_DECODERS[k].pat;
    if k == 6 && !slash {
      BackslashSeam(x, v, '"');
      assert pat == ['\\', '"'];
    } else {
      assert v[0] == Middle(k, slash)[0];
      FirstOfMiddle(k, slash);
      SeamByFirst(x, v, pat);
    }
  }

  lemma FirstOfMiddle(k: nat, slash: bool)
    requires k < 8 && (k == 6 ==> slash)
    ensures |RESOURCE_DECODERS[k].pat| >= 2 && Middle(k, slash)[0] !in RESOURCE_DECODERS[k].pat[1..]
  {
  }

  lemma PassAround(k: nat, slash: bool, x: string, z: string)
    requires k < 8 && (!slash && k <= 6 ==> !EndsInBackslash(x))
    ensures var Pass(pat, rep) := RESOURCE_DECODERS[k];
      ReplaceAll(x + (Middle(k, slash) + z), pat, rep) == ReplaceAll(x, pat, rep) + (Middle(k + 1, slash) + ReplaceAll(z, pat, rep))
  {
    var Pass(pat, rep) := RESOURCE_DECODERS[k];
    LeftSeam(k, slash, x, z);
    ReplaceConcat(x, Middle(k, slash) + z, pat, rep);
    if k == 6 && !slash { BareQuotePass(z); } else { MiddlePass(k, slash, z); }
  }

  lemma KeepsEnd(k: nat, x: string)
    requires k < 6 && !EndsInBackslash(x)
    ensures !EndsInBackslash(ReplaceAll(x, RESOURCE_DECODERS[k].pat, RESOURCE_DECODERS[k].rep))
  {
    ReplacedEnd(x, RESOURCE_DECODERS[k].pat, RESOURCE_DECODERS[k].rep);
  }

  function Rest(k: nat): (passes: seq<Pass>)
    requires k <= 8
    ensures IsChain(passes)
  {
    RESOURCE_DECODERS[k..]
  }

  lemma RunNext(k: nat, s: string)
    requires k < 8
    ensures Run(Rest(k), s) == Run(Rest(k + 1), ReplaceAll(s, RESOURCE_DECODERS[k].pat, RESOURCE_DECODERS[k].rep))
  {
    assert Rest(k)[0] == RESOURCE_DECODERS[k] && Rest(k)[1..] == Rest(k + 1);
  }

  lemma {:induction false} RunAround(k: nat, slash: bool, x: string, z: string)
    requires k <= 8 && (!slash && k <= 6 ==> !EndsInBackslash(x))
    ensures Run(Rest(k), x + (Middle(k, slash) + z)) == Run(Rest(k), x) + ("\"" + Run(Rest(k), z))
    decreases 8 - k
  {
    if k < 8 {
      var Pass(pat, rep) := RESOURCE_DECODERS[k];
      PassAround(k, slash, x, z);
      RunNext(k, x + (Middle(k, slash) + z));
      RunNext(k, x);
      RunNext(k, z);
      if !slash && k < 6 { KeepsEnd(k, x); }
      RunAround(k + 1, slash, ReplaceAll(x, pat, rep), ReplaceAll(z, pat, rep));
    } else {
      RunNothing(x + (Middle(k, slash) + z));
      RunNothing(x);
      RunNothing(z);
    }
  }

  lemma RunNothing(s: string)
    ensures Run(Rest(8), s) == s
  {
  }

  /** In every text the decoder turns `&quot;` into a quote and decodes what stands before and
      after it on its own; a backslash directly before the entity is dropped. */
  lemma QuoteEntityDecodes(before: string, after: string)
    ensures var kept := if EndsInBackslash(before) then before[..|before| - 1] else before;
      DecodeXml(before + "&quot;" + after) == DecodeXml(kept) + "\"" + DecodeXml(after)
  {
    var slash := EndsInBackslash(before);
    var kept := if slash then before[..|before| - 1] else before;
    if slash {
      assert before == kept + "\\";
      assert before + "&quot;" + after == kept + ("\\&quot;" + after);
    } else {
      assert before + "&quot;" + after == kept + ("&quot;" + after);
    }
    RunAround(0, slash, kept, after);
    assert Rest(0) == RESOURCE_DECODERS;
  }
}
