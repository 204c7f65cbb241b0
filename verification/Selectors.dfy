/** The two selectors that settle on one translation for a source text: a sort with a
    penalty (scripts/apple-app-i18n.ts, chooseTranslation) and a filter followed by a sort
    (scripts/android-app-i18n.ts, selectDeterministicTranslation). The first entry of a
    sort by a strict total order is its least entry. */
module Selectors {

  // ----- code-unit order of texts

  predicate Less(a: string, b: string) {
    b != "" && (a == "" || a[0] < b[0] || (a[0] == b[0] && Less(a[1..], b[1..])))
  }

  lemma {:induction false} LessTotal(a: string, b: string)
    ensures a == b || Less(a, b) || Less(b, a)
    ensures !(Less(a, b) && Less(b, a)) && !Less(a, a)
    decreases |a|
  {
    if a != "" && b != "" {
      LessTotal(a[1..], b[1..]);
      assert a == [a[0]] + a[1..] && b == [b[0]] + b[1..];
    }
    if a != "" { LessTotal(a[1..], a[1..]); }
  }

  lemma {:induction false} LessTransitive(a: string, b: string, c: string)
    requires Less(a, b) && Less(b, c)
    ensures Less(a, c)
  {
    if a != "" && a[0] == b[0] && b[0] == c[0] {
      LessTransitive(a[1..], b[1..], c[1..]);
    }
  }

  /** The texts first differ at `k`, where `a` has the smaller character. */
  ghost predicate SmallerAt(a: string, b: string, k: nat) {
    k < |a| && k < |b| && a[..k] == b[..k] && a[k] < b[k]
  }

  lemma SmallerFurtherOn(a: string, b: string, k: nat)
    requires a != "" && b != "" && a[0] == b[0]
    ensures SmallerAt(a[1..], b[1..], k) <==> SmallerAt(a, b, k + 1)
  {
    if k < |a| - 1 && k < |b| - 1 {
      assert a[..k + 1] == [a[0]] + a[1..][..k] && b[..k + 1] == [b[0]] + b[1..][..k];
      assert a[1..][..k] == a[..k + 1][1..] && b[1..][..k] == b[..k + 1][1..];
    }
  }

  lemma SameBefore(a: string, b: string, k: nat)
    requires SmallerAt(a, b, k) && k > 0
    ensures a[0] == b[0]
  {
    assert a[..k][0] == b[..k][0];
  }

  lemma SmallerAtFirst(a: string, b: string)
    requires a != "" && b != "" && a[0] != b[0]
    ensures (exists k: nat :: SmallerAt(a, b, k)) <==> a[0] < b[0]
  {
    if k: nat :| SmallerAt(a, b, k) {
      if k > 0 { SameBefore(a, b, k); }
    }
    if a[0] < b[0] {
      assert a[..0] == b[..0];
      assert SmallerAt(a, b, 0);
    }
  }

  /** The order is that of code units: a proper prefix comes first, and otherwise the smaller
      character at the first difference decides. */
  lemma {:induction false} LessExactly(a: string, b: string)
    ensures Less(a, b) <==> a < b || exists k: nat :: SmallerAt(a, b, k)
    decreases |a|
  {
    if a != "" && b != "" {
      if a[0] != b[0] {
        SmallerAtFirst(a, b);
      } else {
        LessExactly(a[1..], b[1..]);
        assert a == [a[0]] + a[1..] && b == [b[0]] + b[1..];
        assert a < b <==> a[1..] < b[1..];
        if k: nat :| SmallerAt(a, b, k) { SmallerFurtherOn(a, b, k - 1); }
        if k: nat :| SmallerAt(a[1..], b[1..], k) { SmallerFurtherOn(a, b, k); }
      }
    }
  }

  // ----- the orders of the two sorts

  function Count(values: seq<string>, v: string): nat { multiset(values)[v] }

  /** More frequent first, then code-unit order. */
  predicate MoreFrequent(values: seq<string>, a: string, b: string) {
    Count(values, a) > Count(values, b) || (Count(values, a) == Count(values, b) && Less(a, b))
  }

  /** The same, with the source text itself last. */
  predicate Preferred(source: string, values: seq<string>, a: string, b: string) {
    (a != source && b == source) || ((a == source) == (b == source) && MoreFrequent(values, a, b))
  }

  lemma PreferredTotal(source: string, values: seq<string>, a: string, b: string)
    ensures a == b || Preferred(source, values, a, b) || Preferred(source, values, b, a)
    ensures !(Preferred(source, values, a, b) && Preferred(source, values, b, a)) && !Preferred(source, values, a, a)
  {
    LessTotal(a, b);
    LessTotal(a, a);
  }

  lemma PreferredTransitive(source: string, values: seq<string>, a: string, b: string, c: string)
    requires Preferred(source, values, a, b) && Preferred(source, values, b, c)
    ensures Preferred(source, values, a, c)
  {
    if Less(a, b) && Less(b, c) { LessTransitive(a, b, c); }
  }

  /** `best` comes before every other candidate in the penalty sort. */
  ghost predicate IsChosen(source: string, values: seq<string>, best: string) {
    best in values && forall v <- values :: v != best ==> Preferred(source, values, best, v)
  }

  function Candidates(source: string, values: seq<string>): seq<string> {
    var translated := Translated(source, values);
    if |translated| > 0 then translated else values
  }

  function Translated(source: string, values: seq<string>): seq<string> {
    if values == [] then []
    else
      var n := |values| - 1;
      Translated(source, values[..n]) + (if values[n] != source then [values[n]] else [])
  }

  /** `best` comes before every other candidate in the filtered sort. */
  ghost predicate IsSelected(source: string, values: seq<string>, best: string) {
    var candidates := Candidates(source, values);
    best in candidates && forall v <- candidates :: v != best ==> MoreFrequent(candidates, best, v)
  }

  lemma ChosenIsUnique(source: string, values: seq<string>, a: string, b: string)
    requires IsChosen(source, values, a) && IsChosen(source, values, b)
    ensures a == b
  {
    PreferredTotal(source, values, a, b);
  }

  // ----- the selectors as functions

  /** The least of the candidates `some`, by their frequency in `all`. */
  function LeastOf(source: string, all: seq<string>, some: seq<string>): string
    requires some != []
  {
    var n := |some| - 1;
    if n == 0 then some[0]
    else
      var best := LeastOf(source, all, some[..n]);
      if Preferred(source, all, some[n], best) then some[n] else best
  }

  function Choose(source: string, values: seq<string>): string {
    if values == [] then source else LeastOf(source, values, values)
  }

  lemma {:induction false} LeastOfIsLeast(source: string, all: seq<string>, some: seq<string>)
    requires some != []
    ensures LeastOf(source, all, some) in some
    ensures forall v <- some :: v != LeastOf(source, all, some) ==> Preferred(source, all, LeastOf(source, all, some), v)
  {
    var n := |some| - 1;
    if n > 0 {
      var best := LeastOf(source, all, some[..n]);
      LeastOfIsLeast(source, all, some[..n]);
      PreferredTotal(source, all, some[n], best);
      forall v | v in some && v != LeastOf(source, all, some)
        ensures Preferred(source, all, LeastOf(source, all, some), v)
      {
        if v in some[..n] && v != best && Preferred(source, all, some[n], best) {
          PreferredTransitive(source, all, some[n], best, v);
        }
        assert v in some[..n] || v == some[n];
      }
    }
  }

  lemma ChooseIsChosen(source: string, values: seq<string>)
    requires values != []
    ensures IsChosen(source, values, Choose(source, values))
  {
    LeastOfIsLeast(source, values, values);
  }

  // ----- the selectors themselves

  method CountValues(values: seq<string>) returns (counts: map<string, nat>)
    ensures counts.Keys == set v <- values
    ensures forall v <- counts :: counts[v] == Count(values, v)
    ensures values != [] ==> values[0] in counts
  {
    counts := map[];
    for i := 0 to |values|
      invariant counts.Keys == set v <- values[..i]
      invariant forall v <- counts :: counts[v] == Count(values[..i], v)
    {
      var v := values[i];
      assert values[..i + 1] == values[..i] + [v];
      counts := counts[v := (if v in counts then counts[v] else 0) + 1];
    }
    assert values[..|values|] == values;
  }

  method ChooseTranslation(source: string, translations: seq<string>) returns (best: string)
    ensures best == Choose(source, translations)
  {
    var counts := CountValues(translations);
    var rest := counts.Keys;
    if rest == {} {
      return source;
    }
    best :| best in rest;
    rest := rest - {best};
    while rest != {}
      invariant best in counts && rest <= counts.Keys
      invariant forall v <- counts :: v !in rest && v != best ==> Preferred(source, translations, best, v)
      decreases rest
    {
      var v :| v in rest;
      var sourcePenalty := (if v == source then 1 else 0) - (if best == source then 1 else 0);
      PreferredTotal(source, translations, v, best);
      if sourcePenalty < 0 || (sourcePenalty == 0 && (counts[v] > counts[best] || (counts[v] == counts[best] && Less(v, best)))) {
        forall u | u in counts && u !in rest && u != best && u != v ensures Preferred(source, translations, v, u) {
          PreferredTransitive(source, translations, v, best, u);
        }
        best := v;
      }
      rest := rest - {v};
    }
    assert IsChosen(source, translations, best);
    ChooseIsChosen(source, translations);
    ChosenIsUnique(source, translations, best, Choose(source, translations));
  }

  method FilterTranslated(source: string, values: seq<string>) returns (translated: seq<string>)
    ensures translated == Translated(source, values)
  {
    translated := [];
    for i := 0 to |values|
      invariant translated == Translated(source, values[..i])
    {
      assert values[..i + 1][..i] == values[..i];
      if values[i] != source {
        translated := translated + [values[i]];
      }
    }
    assert values[..|values|] == values;
  }

  /** The first entry of the sort by frequency and text. */
  method MostFrequent(candidates: seq<string>) returns (best: string)
    requires candidates != []
    ensures best in candidates && forall v <- candidates :: v != best ==> MoreFrequent(candidates, best, v)
  {
    var counts := CountValues(candidates);
    var rest := counts.Keys;
    best :| best in rest;
    rest := rest - {best};
    while rest != {}
      invariant best in counts && rest <= counts.Keys
      invariant forall v <- counts :: v !in rest && v != best ==> MoreFrequent(candidates, best, v)
      decreases rest
    {
      var v :| v in rest;
      LessTotal(v, best);
      if counts[v] > counts[best] || (counts[v] == counts[best] && Less(v, best)) {
        forall u | u in counts && u !in rest && u != best && u != v ensures MoreFrequent(candidates, v, u) {
          if Less(v, best) && Less(best, u) { LessTransitive(v, best, u); }
        }
        best := v;
      }
      rest := rest - {v};
    }
  }

  method SelectDeterministicTranslation(source: string, values: seq<string>) returns (best: string)
    ensures values == [] ==> best == ""
    ensures values != [] ==> IsSelected(source, values, best)
  {
    var translated := FilterTranslated(source, values);
    var candidates := if |translated| > 0 then translated else values;
    if candidates == [] {
      return "";
    }
    best := MostFrequent(candidates);
  }

  // ----- agreement

  lemma {:induction false} TranslatedCounts(source: string, values: seq<string>)
    ensures forall v :: Count(Translated(source, values), v) == if v == source then 0 else Count(values, v)
    ensures forall v :: v in Translated(source, values) <==> v in values && v != source
  {
    if values != [] {
      var n := |values| - 1;
      assert values == values[..n] + [values[n]];
      TranslatedCounts(source, values[..n]);
      var before, last := Translated(source, values[..n]), values[n];
      forall v ensures Count(Translated(source, values), v) == if v == source then 0 else Count(values, v) {
        assert Count(values, v) == Count(values[..n], v) + if v == last then 1 else 0;
        assert Count(before + [last], v) == Count(before, v) + if v == last then 1 else 0;
      }
    }
  }

  /** On every non-empty candidate list the two selectors pick the same text. */
  lemma SelectorsAgree(source: string, values: seq<string>, best: string)
    requires values != []
    ensures IsSelected(source, values, best) <==> best == Choose(source, values)
  {
    TranslatedCounts(source, values);
    ChooseIsChosen(source, values);
    var candidates := Candidates(source, values);
    if Translated(source, values) == [] {
      assert values[0] in values;
      assert forall v <- values :: v == source;
    } else {
      assert candidates[0] in candidates;
    }
    assert IsSelected(source, values, best) <==> IsChosen(source, values, best) by {
      if Translated(source, values) != [] {
        var t := Translated(source, values)[0];
        assert t in values && t != source;
        assert IsChosen(source, values, source) ==> Preferred(source, values, source, t);
      }
    }
    if IsChosen(source, values, best) { ChosenIsUnique(source, values, best, Choose(source, values)); }
  }

  /** Among the candidates that differ from the source, or all if none does, the choice is one
      of the most frequent, and of those the first in code-unit order. */
  lemma ChoiceIsMostFrequent(source: string, values: seq<string>, v: string)
    requires v in values && (Choose(source, values) == source || v != source)
    ensures var best := Choose(source, values);
      best in values && multiset(values)[best] >= multiset(values)[v] &&
      (multiset(values)[best] == multiset(values)[v] && v != best ==> Less(best, v))
  {
    ChooseIsChosen(source, values);
    SourceChosenExactly(source, values);
  }

  /** The choice depends only on which candidates there are and how often. */
  lemma ChoiceIgnoresOrder(source: string, values: seq<string>, others: seq<string>)
    requires multiset(values) == multiset(others)
    ensures Choose(source, values) == Choose(source, others)
  {
    assert |values| == |multiset(values)| == |multiset(others)| == |others|;
    if values != [] {
      ChooseIsChosen(source, values);
      ChooseIsChosen(source, others);
      forall v ensures v in values <==> v in others { assert v in multiset(values) <==> v in multiset(others); }
      assert IsChosen(source, others, Choose(source, values));
      ChosenIsUnique(source, others, Choose(source, values), Choose(source, others));
    }
  }

  /** The penalty selector chooses the source text only when there is no other candidate. */
  lemma SourceChosenExactly(source: string, values: seq<string>)
    ensures Choose(source, values) == source <==> forall v <- values :: v == source
  {
    if values != [] {
      ChooseIsChosen(source, values);
      if v :| v in values && v != source {
        assert !Preferred(source, values, source, v);
      }
    }
  }

  /** So does the filtering selector, on which the Android builder's guard depends: the guard
      throws if the source was selected although some candidate differs, which never happens. */
  lemma SourceOnlyWithoutAlternative(source: string, values: seq<string>, selected: string)
    requires if values == [] then selected == "" else IsSelected(source, values, selected)
    ensures values != [] ==> (selected == source <==> forall v <- values :: v == source)
    ensures !(selected == source && exists v <- values :: v != source)
  {
    if values != [] {
      SelectorsAgree(source, values, selected);
      SourceChosenExactly(source, values);
    }
  }
}
