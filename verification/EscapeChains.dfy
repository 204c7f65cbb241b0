/** The chained encoders and decoders of the Android catalog generator
    (scripts/android-app-i18n.ts).  Each is a sequence of `replaceAll` passes over the
    whole text; decoding undoes encoding except where the text itself holds a
    backslash directly followed by the letter n. */
module EscapeChains {
  import opened Text

  /** One `replaceAll` call: pattern and replacement. */
  datatype Pass = Pass(pat: string, rep: string)

  predicate IsChain(passes: seq<Pass>) {
    forall p <- passes :: p.pat != ""
  }

  /** A call chain of `replaceAll` passes, first pass first. */
  function Run(passes: seq<Pass>, value: string): string
    requires IsChain(passes)
  {
    if passes == [] then value
    else Run(passes[1..], ReplaceAll(value, passes[0].pat, passes[0].rep))
  }

  const RESOURCE_ENCODERS :=
    [Pass("\\", "\\\\"), Pass("\n", "\\n"), Pass("'", "\\'"), Pass("\"", "\\\""),
     Pass("&", "&amp;"), Pass("<", "&lt;"), Pass(">", "&gt;")]

  const RESOURCE_DECODERS :=
    [Pass("&lt;", "<"), Pass("&gt;", ">"), Pass("&quot;", "\""), Pass("&amp;", "&"),
     Pass("\\n", "\n"), Pass("\\'", "'"), Pass("\\\"", "\""), Pass("\\\\", "\\")]

  const KOTLIN_ENCODERS :=
    [Pass("\\", "\\\\"), Pass("\"", "\\\""), Pass("$", "\\$"), Pass("\n", "\\n")]

  const KOTLIN_DECODERS :=
    [Pass("\\n", "\n"), Pass("\\\"", "\""), Pass("\\$", "$"), Pass("\\\\", "\\")]

  /** The escape chain that ends `renderAndroidResourceValue`. */
  function EscapeResource(value: string): string { Run(RESOURCE_ENCODERS, value) }

  function DecodeXml(value: string): string { Run(RESOURCE_DECODERS, value) }

  function EscapeKotlin(value: string): string { Run(KOTLIN_ENCODERS, value) }

  function DecodeKotlinLiteral(value: string): string { Run(KOTLIN_DECODERS, value) }

  /** What decoding makes of a text: every backslash-n pair has become a
      backslash and a line feed. */
  function Corrupt(s: string): string {
    ReplaceAll(s, "\\n", "\\\n")
  }

  // ----- cutting a text into backslash-n pairs and single characters

  function Units(s: string): seq<string> {
    if s == "" then []
    else if "\\n" <= s then ["\\n"] + Units(s[2..])
    else [s[..1]] + Units(s[1..])
  }

  predicate IsUnit(u: string) {
    u == "\\n" || |u| == 1
  }

  function Self(u: string): string { u }

  function CorruptUnit(u: string): string {
    if u == "\\n" then "\\\n" else u
  }

  lemma {:induction false} UnitsTile(s: string)
    ensures Flat(Self, Units(s)) == s
    ensures Flat(CorruptUnit, Units(s)) == Corrupt(s)
    decreases |s|
  {
    if s != "" {
      var n := if "\\n" <= s then 2 else 1;
      UnitsTile(s[n..]);
      assert s == s[..n] + s[n..];
      assert "\\n" <= s ==> s[..2] == "\\n";
      assert Units(s) == [s[..n]] + Units(s[n..]);
      assert Corrupt(s) == CorruptUnit(s[..n]) + Corrupt(s[n..]);
    }
  }

  lemma {:induction false} UnitsSeparated(s: string)
    ensures forall u <- Units(s) :: IsUnit(u)
    ensures s != "" ==> Units(s) != [] && Units(s)[0] != "" && Units(s)[0][0] == s[0]
    ensures Separated(Units(s))
    decreases |s|
  {
    if s != "" {
      var n := if "\\n" <= s then 2 else 1;
      var head, tail := s[..n], Units(s[n..]);
      UnitsSeparated(s[n..]);
      assert "\\n" <= s ==> s[..2] == "\\n";
      assert Units(s) == [head] + tail;
      forall i | 0 <= i < |tail| && ([head] + tail)[i] == "\\"
        ensures tail[i] != "n"
      {
        if i > 0 { assert tail[i - 1] == "\\"; }
      }
    }
  }

  /** No unit that is a lone backslash is followed by the unit n. */
  ghost predicate Separated(units: seq<string>) {
    forall i :: 0 <= i && i + 1 < |units| && units[i] == "\\" ==> units[i + 1] != "n"
  }

  // ----- seams between encoded pieces

  lemma BackslashSeam(u: string, v: string, x: char)
    requires u != "" ==> u[|u| - 1] != '\\' || v == "" || v[0] != x
    ensures CleanSeam(u, v, ['\\', x])
  {
    forall i | 0 <= i < |u| < i + 2
      ensures !(['\\', x] <= (u + v)[i..])
    {
      assert i == |u| - 1;
      assert (u + v)[i] == u[i];
      if v != "" { assert (u + v)[i..][1] == v[0]; }
    }
  }

  /** An entity `&...;` cannot begin in one piece and end in the next when a piece
      holding an ampersand ends with a semicolon. */
  lemma EntitySeam(u: string, v: string, pat: string)
    requires |pat| > 0 && pat[0] == '&' && ';' !in pat[..|pat| - 1]
    requires '&' in u ==> u[|u| - 1] == ';'
    ensures CleanSeam(u, v, pat)
  {
    forall i | 0 <= i < |u| < i + |pat|
      ensures !(pat <= (u + v)[i..])
    {
      var j := |u| - 1 - i;
      assert pat[j] in pat[..|pat| - 1];
      assert (u + v)[i..][j] == u[|u| - 1];
      assert (u + v)[i..][0] == u[i];
    }
  }

  // ----- chains over pieces

  /** A pass turns every piece of the current stage into the piece of the next. */
  ghost predicate Advances(p: Pass, f: string -> string, g: string -> string, pieces: seq<string>)
    requires p.pat != ""
  {
    forall i :: 0 <= i < |pieces| ==>
      Then(f, p.pat, p.rep)(pieces[i]) == g(pieces[i]) && SeamOk(f, pieces, i, p.pat)
  }

  lemma {:induction false} RunOverPieces(passes: seq<Pass>, stage: nat, piece: nat -> string -> string, pieces: seq<string>)
    requires IsChain(passes) && stage <= |passes|
    requires forall k :: stage <= k < |passes| ==> Advances(passes[k], piece(k), piece(k + 1), pieces)
    ensures Run(passes[stage..], Flat(piece(stage), pieces)) == Flat(piece(|passes|), pieces)
    decreases |passes| - stage
  {
    if stage < |passes| {
      var p := passes[stage];
      assert Advances(p, piece(stage), piece(stage + 1), pieces);
      PassOverPieces(piece(stage), pieces, p.pat, p.rep);
      FlatCong(Then(piece(stage), p.pat, p.rep), piece(stage + 1), pieces);
      assert passes[stage..][1..] == passes[stage + 1..];
      RunOverPieces(passes, stage + 1, piece, pieces);
    }
  }

  // ----- the resource chain

  /** The piece that stands for one unit after `stage` encoding passes. */
  function EncodedPiece(stage: nat): string -> string {
    (u: string) =>
      if u == "\\n" && stage > 0 then "\\\\n"
      else if u == "\\" && stage > 0 then "\\\\"
      else if u == "\n" && stage > 1 then "\\n"
      else if u == "'" && stage > 2 then "\\'"
      else if u == "\"" && stage > 3 then "\\\""
      else if u == "&" && stage > 4 then "&amp;"
      else if u == "<" && stage > 5 then "&lt;"
      else if u == ">" && stage > 6 then "&gt;"
      else u
  }

  lemma EncodeStage(stage: nat, u: string)
    requires stage < 7 && IsUnit(u)
    ensures Then(EncodedPiece(stage), RESOURCE_ENCODERS[stage].pat, RESOURCE_ENCODERS[stage].rep)(u)
         == EncodedPiece(stage + 1)(u)
  {
    var Pass(pat, rep) := RESOURCE_ENCODERS[stage];
    if stage == 0 && u == "\\n" {
      LoneBackslash();
    } else {
      PassOverPiece(EncodedPiece(stage), EncodedPiece(stage + 1), pat, rep, u);
    }
  }

  lemma LoneBackslash()
    ensures ReplaceAll("\\n", "\\", "\\\\") == "\\\\n"
  {
    ReplaceCharConcat("\\", "n", '\\', "\\\\");
    assert "\\n" == "\\" + "n";
    ReplaceWhole("\\", "\\\\");
    ReplaceAbsent("n", "\\", "\\\\");
  }

  /** The piece that stands for one unit after `stage` decoding passes. */
  function DecodedPiece(stage: nat): string -> string {
    (u: string) =>
      if u == "\\n" then if stage <= 4 then "\\\\n" else "\\\n"
      else if u == "\\" then if stage <= 7 then "\\\\" else "\\"
      else if u == "\n" then if stage <= 4 then "\\n" else "\n"
      else if u == "'" then if stage <= 5 then "\\'" else "'"
      else if u == "\"" then if stage <= 6 then "\\\"" else "\""
      else if u == "&" then if stage <= 3 then "&amp;" else "&"
      else if u == "<" then if stage <= 0 then "&lt;" else "<"
      else if u == ">" then if stage <= 1 then "&gt;" else ">"
      else u
  }

  lemma EntityStage(stage: nat, u: string)
    requires stage < 4 && IsUnit(u)
    ensures Then(DecodedPiece(stage), RESOURCE_DECODERS[stage].pat, RESOURCE_DECODERS[stage].rep)(u)
         == DecodedPiece(stage + 1)(u)
  {
    var Pass(pat, rep) := RESOURCE_DECODERS[stage];
    PassOverPiece(DecodedPiece(stage), DecodedPiece(stage + 1), pat, rep, u);
  }

  lemma BackslashStage(stage: nat, u: string)
    requires 4 <= stage < 8 && IsUnit(u) && (stage == 4 ==> u != "\\n")
    ensures Then(DecodedPiece(stage), RESOURCE_DECODERS[stage].pat, RESOURCE_DECODERS[stage].rep)(u)
         == DecodedPiece(stage + 1)(u)
  {
    var Pass(pat, rep) := RESOURCE_DECODERS[stage];
    PassOverPiece(DecodedPiece(stage), DecodedPiece(stage + 1), pat, rep, u);
  }

  lemma PairAfterBackslash()
    ensures ReplaceAll("\\\\n", "\\n", "\n") == "\\\n"
  {
    assert "\\\\n"[1..] == "\\n";
    ReplaceWhole("\\n", "\n");
  }

  lemma EncodeAdvances(stage: nat, pieces: seq<string>)
    requires stage < 7 && forall u <- pieces :: IsUnit(u)
    ensures Advances(RESOURCE_ENCODERS[stage], EncodedPiece(stage), EncodedPiece(stage + 1), pieces)
  {
    forall u <- pieces ensures Then(EncodedPiece(stage), RESOURCE_ENCODERS[stage].pat, RESOURCE_ENCODERS[stage].rep)(u)
         == EncodedPiece(stage + 1)(u) {
      EncodeStage(stage, u);
    }
  }

  lemma EntitySeamOk(stage: nat, pieces: seq<string>, i: nat)
    requires stage < 4 && i < |pieces| && IsUnit(pieces[i])
    ensures SeamOk(DecodedPiece(stage), pieces, i, RESOURCE_DECODERS[stage].pat)
  {
    EntitySeam(DecodedPiece(stage)(pieces[i]), Flat(DecodedPiece(stage), pieces[i + 1..]), RESOURCE_DECODERS[stage].pat);
  }

  lemma BackslashSeamOk(stage: nat, pieces: seq<string>, i: nat)
    requires 4 <= stage < 8 && i < |pieces| && Separated(pieces) && forall u <- pieces :: IsUnit(u)
    ensures SeamOk(DecodedPiece(stage), pieces, i, RESOURCE_DECODERS[stage].pat)
  {
    var f, pat := DecodedPiece(stage), RESOURCE_DECODERS[stage].pat;
    var rest := Flat(f, pieces[i + 1..]);
    if i + 1 < |pieces| {
      assert rest == f(pieces[i + 1]) + Flat(f, pieces[i + 2..]);
      PieceEnds(stage, pieces[i], pieces[i + 1]);
    }
    if f(pieces[i]) != pat {
      BackslashSeam(f(pieces[i]), rest, pat[1]);
    }
  }

  lemma PieceEnds(stage: nat, u: string, v: string)
    requires 4 <= stage < 8 && IsUnit(u) && IsUnit(v) && (u == "\\" ==> v != "n")
    ensures var f, pat := DecodedPiece(stage), RESOURCE_DECODERS[stage].pat;
      f(u) != "" && f(v) != "" &&
      (f(u) == pat || f(u)[|f(u)| - 1] != '\\' || f(v)[0] != pat[1])
  {
  }

  lemma DecodeAdvances(stage: nat, pieces: seq<string>)
    requires stage < 8 && Separated(pieces) && forall u <- pieces :: IsUnit(u)
    ensures Advances(RESOURCE_DECODERS[stage], DecodedPiece(stage), DecodedPiece(stage + 1), pieces)
  {
    var f, p := DecodedPiece(stage), RESOURCE_DECODERS[stage];
    forall i | 0 <= i < |pieces|
      ensures Then(f, p.pat, p.rep)(pieces[i]) == DecodedPiece(stage + 1)(pieces[i]) && SeamOk(f, pieces, i, p.pat)
    {
      if stage < 4 {
        EntityStage(stage, pieces[i]);
        EntitySeamOk(stage, pieces, i);
      } else {
        if stage == 4 && pieces[i] == "\\n" { PairAfterBackslash(); } else { BackslashStage(stage, pieces[i]); }
        BackslashSeamOk(stage, pieces, i);
      }
    }
  }

  // ----- the Kotlin chain

  function KotlinEncodedPiece(stage: nat): string -> string {
    (u: string) =>
      if u == "\\n" && stage > 0 then "\\\\n"
      else if u == "\\" && stage > 0 then "\\\\"
      else if u == "\"" && stage > 1 then "\\\""
      else if u == "$" && stage > 2 then "\\$"
      else if u == "\n" && stage > 3 then "\\n"
      else u
  }

  function KotlinDecodedPiece(stage: nat): string -> string {
    (u: string) =>
      if u == "\\n" then if stage <= 0 then "\\\\n" else "\\\n"
      else if u == "\\" then if stage <= 3 then "\\\\" else "\\"
      else if u == "\n" then if stage <= 0 then "\\n" else "\n"
      else if u == "\"" then if stage <= 1 then "\\\"" else "\""
      else if u == "$" then if stage <= 2 then "\\$" else "$"
      else u
  }

  lemma KotlinEncodeAdvances(stage: nat, pieces: seq<string>)
    requires stage < 4 && forall u <- pieces :: IsUnit(u)
    ensures Advances(KOTLIN_ENCODERS[stage], KotlinEncodedPiece(stage), KotlinEncodedPiece(stage + 1), pieces)
  {
    var f, g, p := KotlinEncodedPiece(stage), KotlinEncodedPiece(stage + 1), KOTLIN_ENCODERS[stage];
    forall u <- pieces ensures Then(f, p.pat, p.rep)(u) == g(u) {
      if stage == 0 && u == "\\n" { LoneBackslash(); } else { PassOverPiece(f, g, p.pat, p.rep, u); }
    }
  }

  lemma KotlinDecodeStage(stage: nat, u: string)
    requires stage < 4 && IsUnit(u) && (stage == 0 ==> u != "\\n")
    ensures Then(KotlinDecodedPiece(stage), KOTLIN_DECODERS[stage].pat, KOTLIN_DECODERS[stage].rep)(u)
         == KotlinDecodedPiece(stage + 1)(u)
  {
    var Pass(pat, rep) := KOTLIN_DECODERS[stage];
    PassOverPiece(KotlinDecodedPiece(stage), KotlinDecodedPiece(stage + 1), pat, rep, u);
  }

  lemma KotlinPieceEnds(stage: nat, u: string, v: string)
    requires stage < 4 && IsUnit(u) && IsUnit(v) && (u == "\\" ==> v != "n")
    ensures var f, pat := KotlinDecodedPiece(stage), KOTLIN_DECODERS[stage].pat;
      f(u) != "" && f(v) != "" &&
      (f(u) == pat || f(u)[|f(u)| - 1] != '\\' || f(v)[0] != pat[1])
  {
  }

  lemma KotlinSeamOk(stage: nat, pieces: seq<string>, i: nat)
    requires stage < 4 && i < |pieces| && Separated(pieces) && forall u <- pieces :: IsUnit(u)
    ensures SeamOk(KotlinDecodedPiece(stage), pieces, i, KOTLIN_DECODERS[stage].pat)
  {
    var f, pat := KotlinDecodedPiece(stage), KOTLIN_DECODERS[stage].pat;
    var rest := Flat(f, pieces[i + 1..]);
    if i + 1 < |pieces| {
      assert rest == f(pieces[i + 1]) + Flat(f, pieces[i + 2..]);
      KotlinPieceEnds(stage, pieces[i], pieces[i + 1]);
    }
    if f(pieces[i]) != pat {
      BackslashSeam(f(pieces[i]), rest, pat[1]);
    }
  }

  lemma KotlinDecodeAdvances(stage: nat, pieces: seq<string>)
    requires stage < 4 && Separated(pieces) && forall u <- pieces :: IsUnit(u)
    ensures Advances(KOTLIN_DECODERS[stage], KotlinDecodedPiece(stage), KotlinDecodedPiece(stage + 1), pieces)
  {
    var f, p := KotlinDecodedPiece(stage), KOTLIN_DECODERS[stage];
    forall i | 0 <= i < |pieces|
      ensures Then(f, p.pat, p.rep)(pieces[i]) == KotlinDecodedPiece(stage + 1)(pieces[i]) && SeamOk(f, pieces, i, p.pat)
    {
      if stage == 0 && pieces[i] == "\\n" { PairAfterBackslash(); } else { KotlinDecodeStage(stage, pieces[i]); }
      KotlinSeamOk(stage, pieces, i);
    }
  }

  // ----- the round trips

  /** A whole chain over the units of a text, from its first pieces to its last. */
  lemma RunUnits(passes: seq<Pass>, piece: nat -> string -> string, first: string -> string,
                 last: string -> string, units: seq<string>)
    requires IsChain(passes)
    requires forall k: nat :: k < |passes| ==> Advances(passes[k], piece(k), piece(k + 1), units)
    requires forall u <- units :: first(u) == piece(0)(u) && piece(|passes|)(u) == last(u)
    ensures Run(passes, Flat(first, units)) == Flat(last, units)
  {
    FlatCong(first, piece(0), units);
    assert passes[0..] == passes;
    RunOverPieces(passes, 0, piece, units);
    FlatCong(piece(|passes|), last, units);
  }

  lemma PieceBounds(u: string)
    requires IsUnit(u)
    ensures EncodedPiece(0)(u) == u && EncodedPiece(7)(u) == DecodedPiece(0)(u) && DecodedPiece(8)(u) == CorruptUnit(u)
    ensures KotlinEncodedPiece(0)(u) == u && KotlinEncodedPiece(4)(u) == KotlinDecodedPiece(0)(u)
    ensures KotlinDecodedPiece(4)(u) == CorruptUnit(u)
  {
  }

  /** Escaping acts unit by unit. */
  lemma EscapeResourcePieces(s: string)
    ensures EscapeResource(s) == Flat(DecodedPiece(0), Units(s))
  {
    UnitsTile(s);
    UnitsSeparated(s);
    forall k: nat | k < 7 { EncodeAdvances(k, Units(s)); }
    forall u <- Units(s) { PieceBounds(u); }
    RunUnits(RESOURCE_ENCODERS, EncodedPiece, Self, DecodedPiece(0), Units(s));
  }

  lemma EscapeKotlinPieces(s: string)
    ensures EscapeKotlin(s) == Flat(KotlinDecodedPiece(0), Units(s))
  {
    UnitsTile(s);
    UnitsSeparated(s);
    forall k: nat | k < 4 { KotlinEncodeAdvances(k, Units(s)); }
    forall u <- Units(s) { PieceBounds(u); }
    RunUnits(KOTLIN_ENCODERS, KotlinEncodedPiece, Self, KotlinDecodedPiece(0), Units(s));
  }

  lemma DecodeResourcePieces(units: seq<string>)
    requires Separated(units) && forall u <- units :: IsUnit(u)
    ensures DecodeXml(Flat(DecodedPiece(0), units)) == Flat(CorruptUnit, units)
  {
    forall k: nat | k < 8 { DecodeAdvances(k, units); }
    forall u <- units { PieceBounds(u); }
    RunUnits(RESOURCE_DECODERS, DecodedPiece, DecodedPiece(0), CorruptUnit, units);
  }

  lemma DecodeKotlinPieces(units: seq<string>)
    requires Separated(units) && forall u <- units :: IsUnit(u)
    ensures DecodeKotlinLiteral(Flat(KotlinDecodedPiece(0), units)) == Flat(CorruptUnit, units)
  {
    forall k: nat | k < 4 { KotlinDecodeAdvances(k, units); }
    forall u <- units { PieceBounds(u); }
    RunUnits(KOTLIN_DECODERS, KotlinDecodedPiece, KotlinDecodedPiece(0), CorruptUnit, units);
  }

  lemma CorruptIdentity(s: string)
    ensures |Corrupt(s)| == |s| && (Corrupt(s) == s <==> !Contains(s, "\\n"))
  {
    ReplaceIdentity(s, "\\n", "\\\n");
  }

  /** The exact effect of decoding an escaped resource text, on every text. */
  lemma DecodeXmlUndoesEscape(s: string)
    ensures DecodeXml(EscapeResource(s)) == Corrupt(s)
    ensures DecodeXml(EscapeResource(s)) == s <==> !Contains(s, "\\n")
  {
    UnitsTile(s);
    UnitsSeparated(s);
    EscapeResourcePieces(s);
    DecodeResourcePieces(Units(s));
    CorruptIdentity(s);
  }

  /** The exact effect of decoding an escaped Kotlin literal, on every text. */
  lemma DecodeKotlinUndoesEscape(s: string)
    ensures DecodeKotlinLiteral(EscapeKotlin(s)) == Corrupt(s)
    ensures DecodeKotlinLiteral(EscapeKotlin(s)) == s <==> !Contains(s, "\\n")
  {
    UnitsTile(s);
    UnitsSeparated(s);
    EscapeKotlinPieces(s);
    DecodeKotlinPieces(Units(s));
    CorruptIdentity(s);
  }
}
