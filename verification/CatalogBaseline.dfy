/** Scoped updates of the recorded fallback baseline (scripts/control-ui-i18n-verify.ts):
    refreshing one locale may only drop pairs of that locale. Pairs are compared as
    `key`, NUL, `locale` strings. */
module CatalogBaseline {
  import opened CatalogAnalysis

  const NUL: char := '\0'

  datatype Baseline = Baseline(fallbacks: map<string, seq<string>>, sourceHash: string, version: int)

  function Encode(key: string, locale: string): string { key + [NUL] + locale }

  function FallbackPairs(baseline: Baseline): set<string> {
    set key, locale | key in baseline.fallbacks && locale in baseline.fallbacks[key] :: Encode(key, locale)
  }

  predicate EndsWith(text: string, suffix: string) {
    |suffix| <= |text| && text[|text| - |suffix|..] == suffix
  }

  /** The update is let through. */
  predicate Accepts(current: Baseline, next: Baseline, resolved: string) {
    var currentPairs := FallbackPairs(current);
    var nextPairs := FallbackPairs(next);
    var added := set pair <- nextPairs | pair !in currentPairs;
    var unrelatedRemovals := set pair <- currentPairs | pair !in nextPairs && !EndsWith(pair, [NUL] + resolved);
    && current.version == next.version && current.sourceHash == next.sourceHash
    && |added| == 0 && |unrelatedRemovals| == 0
  }

  ghost predicate HasPair(baseline: Baseline, key: string, locale: string) {
    key in baseline.fallbacks && locale in baseline.fallbacks[key]
  }

  /** Locale names hold no NUL; keys may. */
  ghost predicate PlainLocales(baseline: Baseline) {
    forall key, locale :: HasPair(baseline, key, locale) ==> NUL !in locale
  }

  lemma SeparatorInside(key: string, locale: string, otherKey: string, otherLocale: string)
    requires |key| < |otherKey| && Encode(key, locale) == Encode(otherKey, otherLocale)
    ensures NUL in locale
  {
    assert locale[|otherKey| - |key| - 1] == Encode(otherKey, otherLocale)[|otherKey|];
  }

  /** Encoding is unambiguous, and its suffix test reads the locale. */
  lemma EncodeIsInjective(key: string, locale: string, otherKey: string, otherLocale: string)
    requires NUL !in locale && NUL !in otherLocale && Encode(key, locale) == Encode(otherKey, otherLocale)
    ensures key == otherKey && locale == otherLocale
  {
    if |key| < |otherKey| {
      SeparatorInside(key, locale, otherKey, otherLocale);
    } else if |otherKey| < |key| {
      SeparatorInside(otherKey, otherLocale, key, locale);
    } else {
      var text := Encode(key, locale);
      assert key == text[..|key|] && otherKey == Encode(otherKey, otherLocale)[..|key|];
      assert locale == text[|key| + 1..] && otherLocale == Encode(otherKey, otherLocale)[|key| + 1..];
    }
  }

  /** Another pair than one of the resolved locale that the suffix test takes for one: the
      locale, or key and locale together, end in NUL and the resolved name. */
  predicate MistakenFor(key: string, locale: string, resolved: string) {
    EndsWith(locale, [NUL] + resolved) ||
    (EndsWith(resolved, [NUL] + locale) && EndsWith(key, [NUL] + resolved[..|resolved| - |locale| - 1]))
  }

  lemma SuffixOfTail(head: string, tail: string, suffix: string)
    requires |suffix| <= |tail|
    ensures EndsWith(head + tail, suffix) <==> EndsWith(tail, suffix)
  {
    assert (head + tail)[|head| + |tail| - |suffix|..] == tail[|tail| - |suffix|..];
  }

  lemma SuffixOverHead(head: string, tail: string, suffix: string)
    requires |suffix| > |tail|
    ensures var n := |suffix| - |tail|;
      EndsWith(head + tail, suffix) <==> suffix[n..] == tail && EndsWith(head, suffix[..n])
  {
    var n := |suffix| - |tail|;
    var all := head + tail;
    if |suffix| <= |all| {
      var from := |all| - |suffix|;
      assert all[from..] == head[from..] + tail;
      assert suffix == suffix[..n] + suffix[n..];
      assert all[from..][..n] == head[from..] && all[from..][n..] == tail;
    }
  }

  /** What the suffix test reads, for any key, any locale and any resolved name. */
  lemma SuffixReads(key: string, locale: string, resolved: string)
    ensures EndsWith(Encode(key, locale), [NUL] + resolved) <==> locale == resolved || MistakenFor(key, locale, resolved)
  {
    var suffix := [NUL] + resolved;
    assert Encode(key, locale) == key + ([NUL] + locale);
    assert Encode(key, locale) == (key + [NUL]) + locale;
    if |resolved| < |locale| {
      SuffixOfTail(key + [NUL], locale, suffix);
    } else if |resolved| == |locale| {
      SuffixOverHead(key + [NUL], locale, suffix);
      assert suffix[1..] == resolved && suffix[..1] == [NUL];
      assert EndsWith(key + [NUL], [NUL]);
    } else {
      var n := |resolved| - |locale| - 1;
      SuffixOverHead(key, [NUL] + locale, suffix);
      assert suffix[n + 1..] == resolved[n..];
      assert suffix[..n + 1] == [NUL] + resolved[..n];
    }
  }

  lemma SuffixHasNul(text: string, name: string)
    requires EndsWith(text, [NUL] + name)
    ensures NUL in text
  {
    assert text[|text| - |name| - 1..][0] == ([NUL] + name)[0];
  }

  /** No plain name is mistaken for another plain name. */
  lemma PlainNamesAreNotMistaken(key: string, locale: string, resolved: string)
    requires NUL !in locale && NUL !in resolved
    ensures !MistakenFor(key, locale, resolved)
  {
    if EndsWith(locale, [NUL] + resolved) { SuffixHasNul(locale, resolved); }
    if EndsWith(resolved, [NUL] + locale) { SuffixHasNul(resolved, locale); }
  }

  lemma SuffixReadsLocale(key: string, locale: string, resolved: string)
    requires NUL !in locale && NUL !in resolved
    ensures EndsWith(Encode(key, locale), [NUL] + resolved) <==> locale == resolved
  {
    SuffixReads(key, locale, resolved);
    PlainNamesAreNotMistaken(key, locale, resolved);
  }

  lemma PairIsEncoded(baseline: Baseline, key: string, locale: string)
    requires PlainLocales(baseline) && NUL !in locale
    ensures Encode(key, locale) in FallbackPairs(baseline) <==> HasPair(baseline, key, locale)
  {
    if Encode(key, locale) in FallbackPairs(baseline) {
      var otherKey, otherLocale :| HasPair(baseline, otherKey, otherLocale) && Encode(otherKey, otherLocale) == Encode(key, locale);
      EncodeIsInjective(key, locale, otherKey, otherLocale);
    }
  }

  /** From one baseline to the next only pairs of the resolved locale go, and none comes. */
  ghost predicate OnlyDrops(current: Baseline, next: Baseline, resolved: string) {
    && (forall key, locale :: HasPair(next, key, locale) ==> HasPair(current, key, locale))
    && (forall key, locale :: HasPair(current, key, locale) && !HasPair(next, key, locale) ==> locale == resolved)
  }

  lemma EmptySet(s: set<string>)
    ensures |s| == 0 <==> forall pair :: pair !in s
  {
    if |s| == 0 { assert s == {}; }
    if forall pair :: pair !in s { assert s == {}; }
  }

  ghost predicate Refines(current: Baseline, next: Baseline, resolved: string) {
    var currentPairs := FallbackPairs(current);
    var nextPairs := FallbackPairs(next);
    && nextPairs <= currentPairs
    && forall pair <- currentPairs :: pair in nextPairs || EndsWith(pair, [NUL] + resolved)
  }

  lemma AcceptsEncoded(current: Baseline, next: Baseline, resolved: string)
    ensures Accepts(current, next, resolved) <==>
            current.version == next.version && current.sourceHash == next.sourceHash && Refines(current, next, resolved)
  {
    var currentPairs := FallbackPairs(current);
    var nextPairs := FallbackPairs(next);
    var added := set pair <- nextPairs | pair !in currentPairs;
    var unrelatedRemovals := set pair <- currentPairs | pair !in nextPairs && !EndsWith(pair, [NUL] + resolved);
    EmptySet(added);
    EmptySet(unrelatedRemovals);
    if |added| == 0 {
      forall pair | pair in nextPairs ensures pair in currentPairs { assert pair !in added; }
    }
    if |unrelatedRemovals| == 0 {
      forall pair | pair in currentPairs ensures pair in nextPairs || EndsWith(pair, [NUL] + resolved) {
        assert pair !in unrelatedRemovals;
      }
    }
  }

  lemma RefinesIffOnlyDrops(current: Baseline, next: Baseline, resolved: string)
    requires PlainLocales(current) && PlainLocales(next) && NUL !in resolved
    ensures Refines(current, next, resolved) <==> OnlyDrops(current, next, resolved)
  {
    if Refines(current, next, resolved) {
      forall key, locale | HasPair(next, key, locale) ensures HasPair(current, key, locale) {
        PairIsEncoded(next, key, locale);
        PairIsEncoded(current, key, locale);
      }
      forall key, locale | HasPair(current, key, locale) && !HasPair(next, key, locale) ensures locale == resolved {
        PairIsEncoded(next, key, locale);
        PairIsEncoded(current, key, locale);
        SuffixReadsLocale(key, locale, resolved);
      }
    }
    if OnlyDrops(current, next, resolved) {
      forall pair <- FallbackPairs(current) ensures pair in FallbackPairs(next) || EndsWith(pair, [NUL] + resolved) {
        var key, locale :| HasPair(current, key, locale) && Encode(key, locale) == pair;
        PairIsEncoded(next, key, locale);
        SuffixReadsLocale(key, locale, resolved);
      }
      forall pair <- FallbackPairs(next) ensures pair in FallbackPairs(current) {
        var key, locale :| HasPair(next, key, locale) && Encode(key, locale) == pair;
        PairIsEncoded(current, key, locale);
      }
    }
  }

  /** An update passes exactly when the source is the same, no pair is new, and every pair
      that goes belongs to the resolved locale. */
  lemma AcceptsExactly(current: Baseline, next: Baseline, resolved: string)
    requires PlainLocales(current) && PlainLocales(next) && NUL !in resolved
    ensures Accepts(current, next, resolved) <==>
            current.version == next.version && current.sourceHash == next.sourceHash && OnlyDrops(current, next, resolved)
  {
    AcceptsEncoded(current, next, resolved);
    RefinesIffOnlyDrops(current, next, resolved);
  }

  /** What an accepted update may drop, without any assumption about names: pairs of the
      resolved locale and pairs mistaken for one. */
  ghost predicate DropsAllowed(current: Baseline, next: Baseline, resolved: string) {
    forall key, locale :: HasPair(current, key, locale) && Encode(key, locale) !in FallbackPairs(next) ==>
      locale == resolved || MistakenFor(key, locale, resolved)
  }

  lemma AcceptsAnyNames(current: Baseline, next: Baseline, resolved: string)
    ensures Accepts(current, next, resolved) <==>
            current.version == next.version && current.sourceHash == next.sourceHash &&
            FallbackPairs(next) <= FallbackPairs(current) && DropsAllowed(current, next, resolved)
  {
    AcceptsEncoded(current, next, resolved);
    if Refines(current, next, resolved) {
      forall key, locale | HasPair(current, key, locale) && Encode(key, locale) !in FallbackPairs(next)
        ensures locale == resolved || MistakenFor(key, locale, resolved)
      {
        SuffixReads(key, locale, resolved);
      }
    }
    if FallbackPairs(next) <= FallbackPairs(current) && DropsAllowed(current, next, resolved) {
      forall pair <- FallbackPairs(current) ensures pair in FallbackPairs(next) || EndsWith(pair, [NUL] + resolved) {
        var key, locale :| HasPair(current, key, locale) && Encode(key, locale) == pair;
        SuffixReads(key, locale, resolved);
      }
    }
  }

  /** An update that only drops one pair of another locale passes exactly when the pair is
      mistaken for one of the resolved locale. */
  lemma WrongDropPassesExactly(current: Baseline, next: Baseline, resolved: string, key: string, locale: string)
    requires current.version == next.version && current.sourceHash == next.sourceHash
    requires HasPair(current, key, locale) && FallbackPairs(next) == FallbackPairs(current) - {Encode(key, locale)}
    requires locale != resolved
    ensures Accepts(current, next, resolved) <==> MistakenFor(key, locale, resolved)
  {
    AcceptsEncoded(current, next, resolved);
    SuffixReads(key, locale, resolved);
    assert Encode(key, locale) in FallbackPairs(current) && Encode(key, locale) !in FallbackPairs(next);
  }

  /** A concrete mistake: a pair of the locale `x`, NUL, `y` is dropped by an update for `y`. */
  lemma NulLocaleIsMistaken()
    ensures Accepts(Baseline(map["k" := [['x', NUL, 'y']]], "", 1), Baseline(map[], "", 1), "y")
  {
    var odd := ['x', NUL, 'y'];
    var current := Baseline(map["k" := [odd]], "", 1);
    var next := Baseline(map[], "", 1);
    assert HasPair(current, "k", odd);
    forall other <- FallbackPairs(current) ensures other == Encode("k", odd) {}
    assert FallbackPairs(current) == {Encode("k", odd)};
    assert FallbackPairs(next) == {};
    assert odd[1..] == [NUL] + "y";
    WrongDropPassesExactly(current, next, "y", "k", odd);
  }

  // ----- any run of accepted updates

  ghost predicate IsRun(baselines: seq<Baseline>, resolved: seq<string>) {
    && |baselines| == |resolved| + 1
    && (forall baseline <- baselines :: PlainLocales(baseline))
    && (forall locale <- resolved :: NUL !in locale)
    && forall k :: 0 <= k < |resolved| ==> Accepts(baselines[k], baselines[k + 1], resolved[k])
  }

  lemma {:induction false} RunOnlyDropsResolved(baselines: seq<Baseline>, resolved: seq<string>, n: nat)
    requires IsRun(baselines, resolved) && n <= |resolved|
    ensures baselines[n].version == baselines[0].version && baselines[n].sourceHash == baselines[0].sourceHash
    ensures forall key, locale :: HasPair(baselines[n], key, locale) ==> HasPair(baselines[0], key, locale)
    ensures forall key, locale :: HasPair(baselines[0], key, locale) && !HasPair(baselines[n], key, locale) ==> locale in resolved[..n]
  {
    if n > 0 {
      RunOnlyDropsResolved(baselines, resolved, n - 1);
      AcceptsExactly(baselines[n - 1], baselines[n], resolved[n - 1]);
      assert resolved[..n] == resolved[..n - 1] + [resolved[n - 1]];
    }
  }

  /** Together with the analysis: if an update between two analyses of catalogs over the same
      English keys passes, every other locale lacks exactly the keys it lacked before. */
  lemma OtherLocalesUntouched(source: Flat, before: Locales, after: Locales, current: Baseline, next: Baseline,
                              resolved: string, locale: string, key: string)
    requires AreLocales(before) && AreLocales(after)
    requires ListsMissing(current.fallbacks, source, before) && ListsMissing(next.fallbacks, source, after)
    requires PlainLocales(current) && PlainLocales(next) && NUL !in resolved && Accepts(current, next, resolved)
    requires locale in before.names && locale in after.names && locale != resolved && key in source.keys
    ensures key in before.flats[locale].at <==> key in after.flats[locale].at
  {
    AcceptsExactly(current, next, resolved);
    assert HasPair(current, key, locale) <==> key !in before.flats[locale].at;
    assert HasPair(next, key, locale) <==> key !in after.flats[locale].at;
  }
}
