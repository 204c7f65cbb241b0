/** The scanner for `$name` and `${...}` interpolations in Kotlin string literals
    (scripts/android-app-i18n.ts, readKotlinInterpolations). */
module KotlinInterpolations {
  import opened Text

  datatype Interpolation = Interpolation(start: nat, end: nat, value: string)

  predicate IsNameStart(c: char) {
    'A' <= c <= 'Z' || 'a' <= c <= 'z' || c == '_'
  }

  predicate IsNameChar(c: char) {
    IsNameStart(c) || '0' <= c <= '9'
  }

  /** An interpolation starts at `i`: a dollar sign followed by a brace or a name. */
  predicate StartsAt(s: string, i: int) {
    0 <= i && i + 1 < |s| && s[i] == '$' && (s[i + 1] == '{' || IsNameStart(s[i + 1]))
  }

  // ----- what an interpolation is

  /** The lexical state inside `${...}`. */
  datatype BraceState = BraceState(depth: nat, quote: Option<char>, escaped: bool)

  const OPENED := BraceState(1, None, false)

  function BraceStep(st: BraceState, c: char): BraceState {
    if st.escaped then st.(escaped := false)
    else if st.quote.Some? && c == '\\' then st.(escaped := true)
    else if st.quote == Some(c) then st.(quote := None)
    else if st.quote.None? && (c == '"' || c == '\'') then st.(quote := Some(c))
    else if st.quote.None? && c == '{' then st.(depth := st.depth + 1)
    else if st.quote.None? && c == '}' && st.depth > 0 then st.(depth := st.depth - 1)
    else st
  }

  /** The state after the characters of `body`, read from just inside the opening brace. */
  function BraceRun(body: string): BraceState {
    if body == "" then OPENED else BraceStep(BraceRun(body[..|body| - 1]), body[|body| - 1])
  }

  /** The brace opened by the interpolation at `start` is closed by the character
      before `end`, and by none before it. */
  ghost predicate ClosesAt(s: string, start: nat, end: nat) {
    start + 2 < end <= |s| &&
    BraceRun(s[start + 2..end]).depth == 0 &&
    forall k :: start + 2 <= k < end ==> OpenAt(s, start, k)
  }

  ghost predicate OpenAt(s: string, start: nat, k: int)
    requires start + 2 <= k <= |s|
  {
    BraceRun(s[start + 2..k]).depth > 0
  }

  ghost predicate IsName(s: string, start: nat, end: nat) {
    start + 2 <= end <= |s| && IsNameStart(s[start + 1]) &&
    (forall k :: start + 2 <= k < end ==> IsNameChar(s[k])) &&
    (end < |s| ==> !IsNameChar(s[end]))
  }

  /** `s[start..end]` is one complete interpolation. */
  ghost predicate IsInterpolation(s: string, start: nat, end: nat) {
    StartsAt(s, start) && if s[start + 1] == '{' then ClosesAt(s, start, end) else IsName(s, start, end)
  }

  ghost predicate Unclosed(s: string, start: nat) {
    StartsAt(s, start) && s[start + 1] == '{' && forall end: nat :: !ClosesAt(s, start, end)
  }

  ghost predicate NoStart(s: string, from: int, to: int) {
    forall i :: from <= i < to ==> !StartsAt(s, i)
  }

  /** The spans, in order, cover every interpolation of `s[from..to]` and nothing else. */
  ghost predicate Tiles(s: string, spans: seq<Interpolation>, from: nat, to: nat) {
    if spans == [] then from <= to <= |s| && NoStart(s, from, to)
    else
      var t := spans[0];
      from <= t.start && NoStart(s, from, t.start) && IsInterpolation(s, t.start, t.end) &&
      t.value == s[t.start..t.end] && Tiles(s, spans[1..], t.end, to)
  }

  // ----- the scan as a function

  function NameEnd(s: string, i: nat): (end: nat)
    requires i <= |s|
    ensures i <= end <= |s|
    decreases |s| - i
  {
    if i < |s| && IsNameChar(s[i]) then NameEnd(s, i + 1) else i
  }

  function BraceEnd(s: string, i: nat, st: BraceState): (end: Option<nat>)
    requires i <= |s|
    ensures end.Some? ==> i < end.value <= |s|
    decreases |s| - i
  {
    if i == |s| then None
    else
      var next := BraceStep(st, s[i]);
      if next.depth == 0 then Some(i + 1) else BraceEnd(s, i + 1, next)
  }

  function InterpolationEnd(s: string, start: nat): (end: Option<nat>)
    requires StartsAt(s, start)
    ensures end.Some? ==> start + 1 < end.value <= |s|
  {
    if s[start + 1] == '{' then BraceEnd(s, start + 2, OPENED) else Some(NameEnd(s, start + 2))
  }

  function Prepend(t: Interpolation, rest: Option<seq<Interpolation>>): Option<seq<Interpolation>> {
    if rest.Some? then Some([t] + rest.value) else None
  }

  function Scan(s: string, i: nat): (spans: Option<seq<Interpolation>>)
    requires i <= |s|
    ensures spans.Some? ==> Chain(s, spans.value, i)
    decreases |s| - i
  {
    if i == |s| then Some([])
    else if !StartsAt(s, i) then Scan(s, i + 1)
    else
      var end := InterpolationEnd(s, i);
      if end.None? then None
      else Prepend(Interpolation(i, end.value, s[i..end.value]), Scan(s, end.value))
  }

  /** The scanner itself: one index moving over the text, a depth, a quote and an
      escape flag inside braces. */
  method ReadKotlinInterpolations(source: string) returns (r: Option<seq<Interpolation>>)
    ensures r == Scan(source, 0)
  {
    var interpolations: seq<Interpolation> := [];
    var index := 0;
    AppendNone(Scan(source, 0), interpolations);
    while index < |source|
      invariant index <= |source|
      invariant Scan(source, 0) == Append(interpolations, Scan(source, index))
    {
      if !StartsAt(source, index) {
        index := index + 1;
        continue;
      }
      var start := index;
      if source[index + 1] != '{' {
        index := index + 2;
        while index < |source| && IsNameChar(source[index])
          invariant start + 2 <= index <= |source|
          invariant NameEnd(source, start + 2) == NameEnd(source, index)
        {
          index := index + 1;
        }
        ghost var rest := Scan(source, index);
        AppendOne(interpolations, Interpolation(start, index, source[start..index]), rest);
        interpolations := interpolations + [Interpolation(start, index, source[start..index])];
        continue;
      }
      var depth := 1;
      var quote: Option<char> := None;
      var escaped := false;
      index := index + 2;
      while index < |source| && depth != 0
        invariant start + 2 <= index <= |source| && depth >= 0
        invariant depth != 0 ==>
          BraceEnd(source, start + 2, OPENED) == BraceEnd(source, index, BraceState(depth, quote, escaped))
        invariant depth == 0 ==> BraceEnd(source, start + 2, OPENED) == Some(index)
        decreases |source| - index
      {
        var character := source[index];
        if escaped {
          escaped := false;
        } else if quote.Some? && character == '\\' {
          escaped := true;
        } else if quote == Some(character) {
          quote := None;
        } else if quote.None? && (character == '"' || character == '\'') {
          quote := Some(character);
        } else if quote.None? && character == '{' {
          depth := depth + 1;
        } else if quote.None? && character == '}' {
          depth := depth - 1;
        }
        index := index + 1;
      }
      if depth != 0 {
        return None;
      }
      ghost var rest := Scan(source, index);
      AppendOne(interpolations, Interpolation(start, index, source[start..index]), rest);
      interpolations := interpolations + [Interpolation(start, index, source[start..index])];
    }
    AppendNone(Scan(source, index), interpolations);
    return Some(interpolations);
  }

  ghost function Append(found: seq<Interpolation>, rest: Option<seq<Interpolation>>): Option<seq<Interpolation>> {
    if rest.Some? then Some(found + rest.value) else None
  }

  lemma AppendOne(found: seq<Interpolation>, t: Interpolation, rest: Option<seq<Interpolation>>)
    ensures Append(found, Prepend(t, rest)) == Append(found + [t], rest)
  {
    if rest.Some? {
      assert found + ([t] + rest.value) == found + [t] + rest.value;
    }
  }

  lemma AppendNone(rest: Option<seq<Interpolation>>, found: seq<Interpolation>)
    ensures Append([], rest) == rest && Append(found, Some([])) == Some(found)
  {
    if rest.Some? {
      assert [] + rest.value == rest.value;
    }
    assert found + [] == found;
  }

  // ----- soundness and completeness of the scan

  lemma {:induction false} NameEndExact(s: string, start: nat, i: nat, end: nat)
    requires StartsAt(s, start) && s[start + 1] != '{' && start + 2 <= i <= |s|
    requires forall k :: start + 2 <= k < i ==> IsNameChar(s[k])
    ensures IsName(s, start, end) <==> end == NameEnd(s, i)
    decreases |s| - i
  {
    if i < |s| && IsNameChar(s[i]) {
      NameEndExact(s, start, i + 1, end);
    }
  }

  lemma {:induction false} BraceEndExact(s: string, start: nat, i: nat, end: nat)
    requires start + 2 <= i <= |s|
    requires forall k :: start + 2 <= k <= i ==> OpenAt(s, start, k)
    ensures ClosesAt(s, start, end) <==> BraceEnd(s, i, BraceRun(s[start + 2..i])) == Some(end)
    decreases |s| - i
  {
    assert start + 2 <= end <= i ==> OpenAt(s, start, end);
    if i < |s| {
      var body := s[start + 2..i + 1];
      assert body[..|body| - 1] == s[start + 2..i];
      if BraceRun(body).depth > 0 {
        BraceEndExact(s, start, i + 1, end);
      } else {
        assert ClosesAt(s, start, i + 1);
        assert !OpenAt(s, start, i + 1);
      }
    }
  }

  /** The end the scan computes is the one and only end of the interpolation. */
  lemma InterpolationEndExact(s: string, start: nat, end: nat)
    requires StartsAt(s, start)
    ensures IsInterpolation(s, start, end) <==> InterpolationEnd(s, start) == Some(end)
  {
    if s[start + 1] == '{' {
      assert s[start + 2..start + 2] == "";
      BraceEndExact(s, start, start + 2, end);
    } else {
      NameEndExact(s, start, start + 2, end);
    }
  }

  /** The scan returns some spans exactly when they tile the rest of the text. */
  lemma {:induction false} ScanTiles(s: string, i: nat, spans: seq<Interpolation>)
    requires i <= |s|
    ensures Scan(s, i) == Some(spans) <==> Tiles(s, spans, i, |s|)
    decreases |s| - i
  {
    if i == |s| {
    } else if !StartsAt(s, i) {
      ScanTiles(s, i + 1, spans);
      TilesSkip(s, spans, i);
    } else if spans != [] {
      var t := spans[0];
      InterpolationEndExact(s, i, t.end);
      var end := InterpolationEnd(s, i);
      if end.Some? {
        ScanTiles(s, end.value, spans[1..]);
      }
      assert Tiles(s, spans, i, |s|) ==> t.start == i;
      assert spans == [t] + spans[1..];
      if end.Some? && Scan(s, end.value).Some? {
        var found := [Interpolation(i, end.value, s[i..end.value])] + Scan(s, end.value).value;
        assert found[1..] == Scan(s, end.value).value;
        assert found == spans <==> found[0] == t && found[1..] == spans[1..];
      }
    }
  }

  lemma TilesSkip(s: string, spans: seq<Interpolation>, i: nat)
    requires i < |s| && !StartsAt(s, i)
    ensures Tiles(s, spans, i, |s|) <==> Tiles(s, spans, i + 1, |s|)
  {
  }

  /** The scan gives up exactly when, after some tiled prefix, it reaches a `${`
      that no later character closes outside quotes. */
  ghost predicate ReachesUnclosed(s: string, i: nat) {
    exists spans, p: nat :: p < |s| && Tiles(s, spans, i, p) && Unclosed(s, p)
  }

  lemma {:induction false} ScanFails(s: string, i: nat)
    requires i <= |s|
    ensures Scan(s, i).None? <==> ReachesUnclosed(s, i)
    decreases |s| - i
  {
    if Scan(s, i).None? {
      ScanStuck(s, i);
    } else if spans, p: nat :| p < |s| && Tiles(s, spans, i, p) && Unclosed(s, p) {
      StuckScan(s, i, spans, p);
    }
  }

  lemma {:induction false} ScanStuck(s: string, i: nat)
    requires i <= |s| && Scan(s, i).None?
    ensures ReachesUnclosed(s, i)
    decreases |s| - i
  {
    if !StartsAt(s, i) {
      ScanStuck(s, i + 1);
      var spans, p: nat :| p < |s| && Tiles(s, spans, i + 1, p) && Unclosed(s, p);
      assert Tiles(s, spans, i, p);
    } else {
      var end := InterpolationEnd(s, i);
      if end.None? {
        forall e: nat ensures !ClosesAt(s, i, e) { InterpolationEndExact(s, i, e); }
        assert Tiles(s, [], i, i);
      } else {
        InterpolationEndExact(s, i, end.value);
        ScanStuck(s, end.value);
        var spans, p: nat :| p < |s| && Tiles(s, spans, end.value, p) && Unclosed(s, p);
        var more := [Interpolation(i, end.value, s[i..end.value])] + spans;
        assert more[1..] == spans;
        assert Tiles(s, more, i, p);
      }
    }
  }

  lemma {:induction false} StuckScan(s: string, i: nat, spans: seq<Interpolation>, p: nat)
    requires i <= |s| && p < |s| && Tiles(s, spans, i, p) && Unclosed(s, p)
    ensures Scan(s, i).None?
    decreases |s| - i
  {
    TilesBounds(s, spans, i, p);
    if !StartsAt(s, i) {
      StuckScan(s, i + 1, spans, p);
    } else if spans == [] {
      var end := InterpolationEnd(s, p);
      if end.Some? { InterpolationEndExact(s, p, end.value); }
    } else {
      InterpolationEndExact(s, i, spans[0].end);
      StuckScan(s, spans[0].end, spans[1..], p);
    }
  }

  lemma {:induction false} TilesBounds(s: string, spans: seq<Interpolation>, from: nat, to: nat)
    requires Tiles(s, spans, from, to)
    ensures from <= to <= |s|
    ensures spans != [] ==> from <= spans[0].start < spans[0].end <= to
    decreases |spans|
  {
    if spans != [] {
      TilesBounds(s, spans[1..], spans[0].end, to);
    }
  }

  // ----- gaps and values

  function Values(spans: seq<Interpolation>): seq<string> {
    seq(|spans|, i requires 0 <= i < |spans| => spans[i].value)
  }

  /** The literal text between the spans, from `cursor` on. */
  function Gaps(s: string, spans: seq<Interpolation>, cursor: nat): (gaps: seq<string>)
    requires Chain(s, spans, cursor)
    ensures |gaps| == |spans| + 1
    decreases |spans|
  {
    if spans == [] then [s[cursor..]]
    else [s[cursor..spans[0].start]] + Gaps(s, spans[1..], spans[0].end)
  }

  /** The spans are ordered, disjoint and inside the text. */
  predicate Chain(s: string, spans: seq<Interpolation>, cursor: nat)
    decreases |spans|
  {
    if spans == [] then cursor <= |s|
    else cursor <= spans[0].start <= spans[0].end <= |s| && Chain(s, spans[1..], spans[0].end)
  }

  /** `gaps[0] values[0] gaps[1] ... gaps[n]`. */
  function Interleave(gaps: seq<string>, values: seq<string>): string
    requires |gaps| == |values| + 1
  {
    if values == [] then gaps[0]
    else gaps[0] + values[0] + Interleave(gaps[1..], values[1..])
  }

  /** Gaps and values together are the text. */
  lemma {:induction false} GapsAndValuesRebuild(s: string, spans: seq<Interpolation>, from: nat)
    requires Chain(s, spans, from)
    requires forall t <- spans :: t.start <= t.end <= |s| && t.value == s[t.start..t.end]
    ensures Interleave(Gaps(s, spans, from), Values(spans)) == s[from..]
    decreases |spans|
  {
    if spans != [] {
      var t := spans[0];
      GapsAndValuesRebuild(s, spans[1..], t.end);
      assert Values(spans)[1..] == Values(spans[1..]);
      assert s[from..] == s[from..t.start] + s[t.start..t.end] + s[t.end..];
    }
  }

  lemma {:induction false} TilesValues(s: string, spans: seq<Interpolation>, from: nat, to: nat)
    requires Tiles(s, spans, from, to)
    ensures forall t <- spans :: t.start <= t.end <= |s| && t.value == s[t.start..t.end]
    ensures to == |s| ==> Chain(s, spans, from)
    decreases |spans|
  {
    TilesBounds(s, spans, from, to);
    if spans != [] {
      TilesBounds(s, spans[1..], spans[0].end, to);
      TilesValues(s, spans[1..], spans[0].end, to);
      assert spans == [spans[0]] + spans[1..];
    }
  }

  /** What the scan promises of a text it accepts: its spans tile the text, and the
      text is rebuilt from its literal gaps and its interpolations. */
  lemma ScanRebuilds(s: string)
    requires Scan(s, 0).Some?
    ensures Tiles(s, Scan(s, 0).value, 0, |s|)
    ensures Interleave(Gaps(s, Scan(s, 0).value, 0), Values(Scan(s, 0).value)) == s
  {
    var spans := Scan(s, 0).value;
    ScanTiles(s, 0, spans);
    TilesValues(s, spans, 0, |s|);
    GapsAndValuesRebuild(s, spans, 0);
    assert s[0..] == s;
  }
}
