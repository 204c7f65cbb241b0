/** Dotted path patterns with `*` and `**` (scripts/check-policy-config-coverage.ts,
    pathMatchesPattern and matchesParts), and patterns matched against patterns. */
module PathPatterns {
  import opened Text

  // ----- the matcher

  function MatchesParts(pattern: seq<string>, value: seq<string>): bool
    decreases |pattern|
  {
    if pattern == [] then value == []
    else
      var head, tail := pattern[0], pattern[1..];
      if head == "**" then
        tail == [] || exists index :: 0 <= index <= |value| && MatchesParts(tail, value[index..])
      else if value == [] then false
      else if head != "*" && head != value[0] then false
      else MatchesParts(tail, value[1..])
  }

  function PathMatchesPattern(pattern: string, value: string): bool {
    MatchesParts(Split(pattern, '.'), Split(value, '.'))
  }

  // ----- the language of a pattern

  /** What one pattern segment may stand for. */
  predicate SegmentFits(segment: string, part: seq<string>) {
    if segment == "**" then true
    else if segment == "*" then |part| == 1
    else part == [segment]
  }

  /** The value cut into consecutive parts of the given widths, one per segment. */
  predicate Fits(pattern: seq<string>, value: seq<string>, widths: seq<nat>) {
    |widths| == |pattern| &&
    if pattern == [] then value == []
    else
      widths[0] <= |value| && SegmentFits(pattern[0], value[..widths[0]]) &&
      Fits(pattern[1..], value[widths[0]..], widths[1..])
  }

  ghost predicate InLanguage(pattern: seq<string>, value: seq<string>) {
    exists widths :: Fits(pattern, value, widths)
  }

  /** The matcher accepts exactly the values that can be cut into fitting parts. */
  lemma MatchesExactly(pattern: seq<string>, value: seq<string>)
    ensures MatchesParts(pattern, value) <==> InLanguage(pattern, value)
  {
    if MatchesParts(pattern, value) {
      var widths := Complete(pattern, value);
    }
    if InLanguage(pattern, value) {
      var widths :| Fits(pattern, value, widths);
      Sound(pattern, value, widths);
    }
  }

  lemma {:induction false} Complete(pattern: seq<string>, value: seq<string>) returns (widths: seq<nat>)
    requires MatchesParts(pattern, value)
    ensures Fits(pattern, value, widths)
    decreases |pattern|
  {
    if pattern == [] {
      widths := [];
    } else {
      var head, tail := pattern[0], pattern[1..];
      var width: nat;
      if head == "**" && tail == [] {
        width := |value|;
      } else if head == "**" {
        var index :| 0 <= index <= |value| && MatchesParts(tail, value[index..]);
        width := index;
      } else {
        width := 1;
      }
      var rest := Complete(tail, value[width..]);
      widths := [width] + rest;
      assert widths[1..] == rest;
    }
  }

  lemma {:induction false} Sound(pattern: seq<string>, value: seq<string>, widths: seq<nat>)
    requires Fits(pattern, value, widths)
    ensures MatchesParts(pattern, value)
    decreases |pattern|
  {
    if pattern != [] {
      Sound(pattern[1..], value[widths[0]..], widths[1..]);
    }
  }

  // ----- one pattern matching another

  /** Without `**` a pattern matches segment by segment. */
  lemma {:induction false} SingleSegments(pattern: seq<string>, value: seq<string>)
    requires "**" !in pattern
    ensures MatchesParts(pattern, value) <==>
      |value| == |pattern| && forall i :: 0 <= i < |pattern| ==> pattern[i] == "*" || pattern[i] == value[i]
  {
    if pattern != [] && value != [] {
      SingleSegments(pattern[1..], value[1..]);
      assert pattern == [pattern[0]] + pattern[1..] && value == [value[0]] + value[1..];
    }
  }

  /** If P matches Q as text and Q has no `**`, P matches everything Q matches. */
  lemma {:induction false} Subsumes(p: seq<string>, q: seq<string>, value: seq<string>)
    requires "**" !in q && MatchesParts(p, q) && MatchesParts(q, value)
    ensures MatchesParts(p, value)
    decreases |p|
  {
    SingleSegments(q, value);
    if p != [] {
      var tail := p[1..];
      if p[0] == "**" {
        if tail != [] {
          var index :| 0 <= index <= |q| && MatchesParts(tail, q[index..]);
          SingleSegments(q[index..], value[index..]);
          Subsumes(tail, q[index..], value[index..]);
        }
      } else {
        SingleSegments(q[1..], value[1..]);
        Subsumes(tail, q[1..], value[1..]);
      }
    }
  }

  /** The pattern with every `**` weakened to `*`. */
  function OneEach(q: seq<string>): seq<string> {
    seq(|q|, i requires 0 <= i < |q| => if q[i] == "**" then "*" else q[i])
  }

  lemma {:induction false} MatchesItself(q: seq<string>)
    ensures MatchesParts(q, q)
  {
    if q != [] {
      MatchesItself(q[1..]);
      assert q[0] == "**" && q[1..] != [] ==> MatchesParts(q[1..], q[1..]);
    }
  }

  /** A path of the configuration: no segment of it is a wildcard. */
  predicate IsOrdinary(value: seq<string>) { forall part <- value :: part != "*" && part != "**" }

  /** An ordinary path that a pattern matches: its wildcards stand for the segment `x` each. */
  function Instance(q: seq<string>): seq<string> {
    seq(|q|, i requires 0 <= i < |q| => if q[i] == "*" || q[i] == "**" then "x" else q[i])
  }

  lemma {:induction false} InstanceMatches(q: seq<string>)
    ensures MatchesParts(q, Instance(q)) && IsOrdinary(Instance(q))
  {
    if q != [] {
      InstanceMatches(q[1..]);
      assert Instance(q)[1..] == Instance(q[1..]);
      assert q[0] == "**" && q[1..] != [] ==> MatchesParts(q[1..], Instance(q)[1..]);
    }
  }

  /** `**` may stand for two ordinary segments. */
  lemma {:induction false} Stretches(q: seq<string>, i: nat)
    requires i < |q| && q[i] == "**"
    ensures MatchesParts(q, Instance(q[..i]) + ["x"] + Instance(q[i..]))
  {
    var value := Instance(q[..i]) + ["x"] + Instance(q[i..]);
    if i == 0 {
      InstanceMatches(q[1..]);
      assert value[2..] == Instance(q[1..]);
      assert q[1..] != [] ==> 0 <= 2 <= |value| && MatchesParts(q[1..], value[2..]);
    } else {
      Stretches(q[1..], i - 1);
      assert q[..i][1..] == q[1..][..i - 1] && q[i..] == q[1..][i - 1..];
      assert Instance(q[..i])[1..] == Instance(q[1..][..i - 1]);
      assert value[1..] == Instance(q[1..][..i - 1]) + ["x"] + Instance(q[1..][i - 1..]);
      assert q[0] == "**" && q[1..] != [] ==> 0 <= 1 <= |value| && MatchesParts(q[1..], value[1..]);
    }
  }

  lemma WeakenedMatchesText(q: seq<string>)
    ensures MatchesParts(OneEach(q), q) && "**" !in OneEach(q)
  {
    SingleSegments(OneEach(q), q);
  }

  /** Matching Q as text is a sound test of "matches every path that Q matches". */
  ghost predicate TextTestIsSound(q: string) {
    forall p, value :: PathMatchesPattern(p, q) && PathMatchesPattern(q, value) && IsOrdinary(Split(value, '.'))
      ==> PathMatchesPattern(p, value)
  }

  predicate IsDotFree(parts: seq<string>) { forall part <- parts :: '.' !in part }

  /** The path in which the `**` at `i` stands for two segments. */
  function Stretched(q: seq<string>, i: nat): seq<string>
    requires i < |q|
  {
    Instance(q[..i]) + ["x"] + Instance(q[i..])
  }

  lemma StretchedIsOrdinary(q: seq<string>, i: nat)
    requires i < |q| && IsDotFree(q)
    ensures IsOrdinary(Stretched(q, i)) && IsDotFree(Stretched(q, i)) && IsDotFree(OneEach(q))
  {
    InstanceMatches(q[..i]);
    InstanceMatches(q[i..]);
  }

  lemma StretchedIsMissed(q: seq<string>, i: nat)
    requires i < |q| && q[i] == "**"
    ensures MatchesParts(q, Stretched(q, i)) && !MatchesParts(OneEach(q), Stretched(q, i))
  {
    Stretches(q, i);
    WeakenedMatchesText(q);
    SingleSegments(OneEach(q), Stretched(q, i));
  }

  /** For a pattern with `**`: another that matches it as text, and an ordinary path that it
      matches and the other does not. */
  lemma DoubleStarMisleads(q: string) returns (p: string, value: string)
    requires "**" in Split(q, '.')
    ensures PathMatchesPattern(p, q)
    ensures PathMatchesPattern(q, value) && IsOrdinary(Split(value, '.')) && !PathMatchesPattern(p, value)
  {
    var parts := Split(q, '.');
    var i :| 0 <= i < |parts| && parts[i] == "**";
    JoinSplit(q, '.');
    StretchedIsMissed(parts, i);
    StretchedIsOrdinary(parts, i);
    WeakenedMatchesText(parts);
    p, value := Join(OneEach(parts), '.'), Join(Stretched(parts, i), '.');
    SplitJoin(OneEach(parts), '.');
    SplitJoin(Stretched(parts, i), '.');
  }

  lemma TextMatchSubsumes(p: string, q: string, value: string)
    requires "**" !in Split(q, '.') && PathMatchesPattern(p, q) && PathMatchesPattern(q, value)
    ensures PathMatchesPattern(p, value)
  {
    Subsumes(Split(p, '.'), Split(q, '.'), Split(value, '.'));
  }

  /** The exemption test, which matches patterns against patterns as text, is sound for a
      monitored pattern exactly when that pattern has no `**` segment. */
  lemma TextTestSoundExactly(q: string)
    ensures TextTestIsSound(q) <==> "**" !in Split(q, '.')
  {
    if "**" in Split(q, '.') {
      var p, value := DoubleStarMisleads(q);
    } else {
      forall p, value | PathMatchesPattern(p, q) && PathMatchesPattern(q, value) ensures PathMatchesPattern(p, value) {
        TextMatchSubsumes(p, q, value);
      }
    }
  }

  // ----- the report's use of it

  datatype Classification = Classification(pattern: string, allowNoSchemaPath: bool)

  predicate Exempt(pattern: string, classifications: seq<Classification>) {
    exists item <- classifications :: item.allowNoSchemaPath && PathMatchesPattern(item.pattern, pattern)
  }

  /** The monitored patterns reported as matching nothing. */
  function UnmatchedMonitored(monitored: seq<string>, leaves: seq<string>, classifications: seq<Classification>): seq<string> {
    if monitored == [] then []
    else
      var rest := UnmatchedMonitored(monitored[1..], leaves, classifications);
      if !(exists leaf <- leaves :: PathMatchesPattern(monitored[0], leaf)) && !Exempt(monitored[0], classifications)
      then [monitored[0]] + rest
      else rest
  }

  /** A pattern is in the report exactly when it is monitored, matches no leaf, and is matched
      by no classification that needs no schema path. */
  lemma {:induction false} ReportedExactly(monitored: seq<string>, leaves: seq<string>, classifications: seq<Classification>)
    ensures forall q :: q in UnmatchedMonitored(monitored, leaves, classifications) <==>
      q in monitored && (forall leaf <- leaves :: !PathMatchesPattern(q, leaf)) &&
      forall item <- classifications :: !(item.allowNoSchemaPath && PathMatchesPattern(item.pattern, q))
  {
    if monitored != [] {
      ReportedExactly(monitored[1..], leaves, classifications);
      assert monitored == [monitored[0]] + monitored[1..];
    }
  }

  /** The report goes through the monitored patterns in order, each on its own. */
  lemma {:induction false} ReportConcat(a: seq<string>, b: seq<string>, leaves: seq<string>, classifications: seq<Classification>)
    ensures UnmatchedMonitored(a + b, leaves, classifications)
         == UnmatchedMonitored(a, leaves, classifications) + UnmatchedMonitored(b, leaves, classifications)
    ensures |UnmatchedMonitored(a, leaves, classifications)| <= |a|
    decreases |a|
  {
    if a == [] {
      assert a + b == b;
    } else {
      assert (a + b)[1..] == a[1..] + b;
      ReportConcat(a[1..], b, leaves, classifications);
    }
  }

  /** A monitored pattern is left out of the report only if a leaf matches it or, when it
      has no `**`, some classification that needs no schema path covers every path it
      could ever match. */
  lemma {:induction false} UnreportedIsCovered(monitored: seq<string>, leaves: seq<string>, classifications: seq<Classification>, q: string)
    requires q in monitored && "**" !in Split(q, '.') && q !in UnmatchedMonitored(monitored, leaves, classifications)
    ensures (exists leaf <- leaves :: PathMatchesPattern(q, leaf)) ||
            exists item <- classifications :: item.allowNoSchemaPath &&
              forall value :: PathMatchesPattern(q, value) ==> PathMatchesPattern(item.pattern, value)
  {
    if q == monitored[0] {
      if !(exists leaf <- leaves :: PathMatchesPattern(q, leaf)) {
        var item :| item in classifications && item.allowNoSchemaPath && PathMatchesPattern(item.pattern, q);
        forall value | PathMatchesPattern(q, value) ensures PathMatchesPattern(item.pattern, value) {
          TextMatchSubsumes(item.pattern, q, value);
        }
      }
    } else {
      UnreportedIsCovered(monitored[1..], leaves, classifications, q);
    }
  }
}
