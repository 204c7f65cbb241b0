/** Building the iOS string catalog (scripts/apple-app-i18n.ts, buildIosCatalog): shipped
    translations are kept, the others are chosen among the candidates of each locale.
    `normalize` stands for appleCatalogValue, an arbitrary function of a text; the native
    entries are those that pass isIosCatalogEntry. */
module AppleCatalog {
  import opened Text
  import opened Selectors
  import opened SortedTexts

  datatype Unit = Unit(state: string, value: string)

  /** source -> locale -> string unit */
  type Strings = map<string, map<string, Unit>>

  datatype NativeEntry = NativeEntry(id: string, source: string)

  datatype ArtifactEntry = ArtifactEntry(id: string, source: string, translated: string)

  datatype Artifact = Artifact(locale: string, entries: seq<ArtifactEntry>)

  datatype Contradiction = Contradiction(locale: string, source: string, translations: seq<string>)

  datatype Inputs = Inputs(native: seq<NativeEntry>, artifacts: seq<Artifact>, locales: seq<string>, normalize: string -> string)

  /** The catalog, the order in which its sources were written, and the report. */
  datatype Build = Build(strings: Strings, sources: seq<string>, contradictions: seq<Contradiction>)

  // ----- the builder as functions

  function Sources(inputs: Inputs): set<string> {
    set entry <- inputs.native :: inputs.normalize(entry.source)
  }

  predicate Mentions(inputs: Inputs, id: string, source: string) {
    exists entry <- inputs.native :: entry.id == id && inputs.normalize(entry.source) == source
  }

  /** The candidates of one source among an artifact's entries, in order. */
  function CandidatesIn(inputs: Inputs, entries: seq<ArtifactEntry>, source: string): seq<string> {
    if entries == [] then []
    else
      var n := |entries| - 1;
      CandidatesIn(inputs, entries[..n], source) +
      (if inputs.normalize(entries[n].source) == source && Mentions(inputs, entries[n].id, source)
       then [inputs.normalize(entries[n].translated)] else [])
  }

  /** The entries of the last artifact for a locale. */
  function EntriesFor(artifacts: seq<Artifact>, locale: string): seq<ArtifactEntry> {
    if artifacts == [] then []
    else
      var n := |artifacts| - 1;
      if artifacts[n].locale == locale then artifacts[n].entries else EntriesFor(artifacts[..n], locale)
  }

  function CandidatesOf(inputs: Inputs, locale: string, source: string): seq<string> {
    CandidatesIn(inputs, EntriesFor(inputs.artifacts, locale), source)
  }

  function ExistingUnit(existing: Strings, source: string, locale: string): Option<Unit> {
    if source in existing && locale in existing[source] then Some(existing[source][locale]) else None
  }

  predicate Shipped(unit: Option<Unit>) {
    unit.Some? && unit.value.value != "" && unit.value.state == "translated"
  }

  function UnitFor(existing: Strings, source: string, locale: string, candidates: seq<string>): Unit {
    var unit := ExistingUnit(existing, source, locale);
    if Shipped(unit) then unit.value
    else if locale == "en" then Unit("translated", source)
    else
      var value := Choose(source, candidates);
      Unit(if value == source then "new" else "translated", value)
  }

  function LocalizationsAt(existing: Strings, inputs: Inputs, source: string, locales: seq<string>): map<string, Unit> {
    map locale <- locales :: UnitFor(existing, source, locale, CandidatesOf(inputs, locale, source))
  }

  function Localizations(existing: Strings, inputs: Inputs, source: string): map<string, Unit> {
    LocalizationsAt(existing, inputs, source, inputs.locales)
  }

  function CatalogOf(existing: Strings, inputs: Inputs, sources: set<string>): Strings {
    map source <- sources :: Localizations(existing, inputs, source)
  }

  function Catalog(existing: Strings, inputs: Inputs): Strings { CatalogOf(existing, inputs, Sources(inputs)) }

  predicate Contradicts(inputs: Inputs, locale: string, source: string) {
    |SortedDistinct(CandidatesOf(inputs, locale, source))| > 1
  }

  function ContradictionAt(inputs: Inputs, locale: string, source: string): Contradiction {
    Contradiction(locale, source, SortedDistinct(CandidatesOf(inputs, locale, source)))
  }

  /** The contradictions of one source, in the order of the locales. */
  function ContradictionsAt(inputs: Inputs, source: string, locales: seq<string>): seq<Contradiction> {
    if locales == [] then []
    else
      var n := |locales| - 1;
      ContradictionsAt(inputs, source, locales[..n]) +
      (if Contradicts(inputs, locales[n], source) then [ContradictionAt(inputs, locales[n], source)] else [])
  }

  function ContradictionsOf(inputs: Inputs, sources: seq<string>): seq<Contradiction> {
    if sources == [] then []
    else
      var n := |sources| - 1;
      ContradictionsOf(inputs, sources[..n]) + ContradictionsAt(inputs, sources[n], inputs.locales)
  }

  function Normalized(inputs: Inputs, native: seq<NativeEntry>): seq<string> {
    if native == [] then []
    else Normalized(inputs, native[..|native| - 1]) + [inputs.normalize(native[|native| - 1].source)]
  }

  /** The sources in order, once each. */
  function SourceList(inputs: Inputs): seq<string> { SortedDistinct(Normalized(inputs, inputs.native)) }

  /** The order of the report: by source, then by locale. */
  predicate Before(a: Contradiction, b: Contradiction) {
    Less(a.source, b.source) || (a.source == b.source && Less(a.locale, b.locale))
  }

  /** Put `c` behind all that do not come after it. */
  function InsertReport(list: seq<Contradiction>, c: Contradiction): seq<Contradiction> {
    if list != [] && Before(c, list[|list| - 1]) then InsertReport(list[..|list| - 1], c) + [list[|list| - 1]]
    else list + [c]
  }

  function SortReport(list: seq<Contradiction>): seq<Contradiction> {
    if list == [] then [] else InsertReport(SortReport(list[..|list| - 1]), list[|list| - 1])
  }

  function Contradictions(inputs: Inputs): seq<Contradiction> { SortReport(ContradictionsOf(inputs, SourceList(inputs))) }

  // ----- the builder itself

  method CollectIds(inputs: Inputs) returns (idsBySource: map<string, set<string>>)
    ensures idsBySource.Keys == Sources(inputs)
    ensures forall source <- idsBySource, id :: id in idsBySource[source] <==> Mentions(inputs, id, source)
  {
    idsBySource := map[];
    var native := inputs.native;
    for i := 0 to |native|
      invariant idsBySource.Keys == set entry <- native[..i] :: inputs.normalize(entry.source)
      invariant forall source <- idsBySource, id :: id in idsBySource[source] <==>
        exists entry <- native[..i] :: entry.id == id && inputs.normalize(entry.source) == source
    {
      var entry := native[i];
      assert native[..i + 1] == native[..i] + [entry];
      var source := inputs.normalize(entry.source);
      var ids := if source in idsBySource then idsBySource[source] else {};
      idsBySource := idsBySource[source := ids + {entry.id}];
    }
    assert native[..|native|] == native;
  }

  ghost predicate Groups(inputs: Inputs, bySource: map<string, seq<string>>, entries: seq<ArtifactEntry>) {
    forall source <- Sources(inputs) ::
      (if source in bySource then bySource[source] else []) == CandidatesIn(inputs, entries, source)
  }

  method GroupEntries(inputs: Inputs, idsBySource: map<string, set<string>>, entries: seq<ArtifactEntry>)
      returns (bySource: map<string, seq<string>>)
    requires idsBySource.Keys == Sources(inputs)
    requires forall source <- idsBySource, id :: id in idsBySource[source] <==> Mentions(inputs, id, source)
    ensures Groups(inputs, bySource, entries)
  {
    bySource := map[];
    for i := 0 to |entries|
      invariant Groups(inputs, bySource, entries[..i])
    {
      var entry := entries[i];
      assert entries[..i + 1][..i] == entries[..i];
      var source := inputs.normalize(entry.source);
      if source !in idsBySource {
        continue;
      }
      if entry.id !in idsBySource[source] {
        continue;
      }
      var values := if source in bySource then bySource[source] else [];
      bySource := bySource[source := values + [inputs.normalize(entry.translated)]];
    }
    assert entries[..|entries|] == entries;
  }

  method GroupArtifacts(inputs: Inputs, idsBySource: map<string, set<string>>)
      returns (byLocale: map<string, map<string, seq<string>>>)
    requires idsBySource.Keys == Sources(inputs)
    requires forall source <- idsBySource, id :: id in idsBySource[source] <==> Mentions(inputs, id, source)
    ensures forall locale :: Groups(inputs, if locale in byLocale then byLocale[locale] else map[], EntriesFor(inputs.artifacts, locale))
  {
    byLocale := map[];
    var artifacts := inputs.artifacts;
    for i := 0 to |artifacts|
      invariant forall locale :: Groups(inputs, if locale in byLocale then byLocale[locale] else map[], EntriesFor(artifacts[..i], locale))
    {
      assert artifacts[..i + 1][..i] == artifacts[..i];
      var bySource := GroupEntries(inputs, idsBySource, artifacts[i].entries);
      byLocale := byLocale[artifacts[i].locale := bySource];
    }
    assert artifacts[..|artifacts|] == artifacts;
  }

  /** What the loop does for one locale. */
  method LocalizeOne(existing: Strings, source: string, locale: string, candidates: seq<string>) returns (unit: Unit)
    ensures unit == UnitFor(existing, source, locale, candidates)
  {
    var existingUnit := ExistingUnit(existing, source, locale);
    if Shipped(existingUnit) {
      return existingUnit.value;
    }
    if locale == "en" {
      return Unit("translated", source);
    }
    var value := ChooseTranslation(source, candidates);
    return Unit(if value == source then "new" else "translated", value);
  }

  lemma LocaleStep(existing: Strings, inputs: Inputs, source: string, i: nat)
    requires i < |inputs.locales|
    ensures var locales, locale := inputs.locales, inputs.locales[i];
      LocalizationsAt(existing, inputs, source, locales[..i + 1])
        == LocalizationsAt(existing, inputs, source, locales[..i])[locale := UnitFor(existing, source, locale, CandidatesOf(inputs, locale, source))]
  {
    assert inputs.locales[..i + 1] == inputs.locales[..i] + [inputs.locales[i]];
  }

  lemma ContradictionStep(inputs: Inputs, source: string, i: nat)
    requires i < |inputs.locales|
    ensures var locales, locale := inputs.locales, inputs.locales[i];
      ContradictionsAt(inputs, source, locales[..i + 1])
        == ContradictionsAt(inputs, source, locales[..i]) + if Contradicts(inputs, locale, source) then [ContradictionAt(inputs, locale, source)] else []
  {
    assert inputs.locales[..i + 1][..i] == inputs.locales[..i];
  }

  /** The inner loop over the locales of one source. */
  method LocalizeSource(existing: Strings, inputs: Inputs, source: string, byLocale: map<string, map<string, seq<string>>>)
      returns (localizations: map<string, Unit>, contradictions: seq<Contradiction>)
    requires source in Sources(inputs)
    requires forall locale :: Groups(inputs, if locale in byLocale then byLocale[locale] else map[], EntriesFor(inputs.artifacts, locale))
    ensures localizations == Localizations(existing, inputs, source)
    ensures contradictions == ContradictionsAt(inputs, source, inputs.locales)
  {
    localizations := map[];
    contradictions := [];
    for i := 0 to |inputs.locales|
      invariant localizations == LocalizationsAt(existing, inputs, source, inputs.locales[..i])
      invariant contradictions == ContradictionsAt(inputs, source, inputs.locales[..i])
    {
      var locale := inputs.locales[i];
      var bySource := if locale in byLocale then byLocale[locale] else map[];
      var candidates := if source in bySource then bySource[source] else [];
      assert candidates == CandidatesOf(inputs, locale, source);
      LocaleStep(existing, inputs, source, i);
      ContradictionStep(inputs, source, i);
      var distinct := SortedDistinct(candidates);
      if |distinct| > 1 {
        contradictions := contradictions + [Contradiction(locale, source, distinct)];
      }
      var unit := LocalizeOne(existing, source, locale, candidates);
      localizations := localizations[locale := unit];
    }
    assert inputs.locales[..|inputs.locales|] == inputs.locales;
  }

  method ListSources(inputs: Inputs) returns (sources: seq<string>)
    ensures sources == SourceList(inputs)
    ensures StrictlySorted(sources) && forall source :: source in sources <==> source in Sources(inputs)
  {
    sources := [];
    for i := 0 to |inputs.native|
      invariant sources == SortedDistinct(Normalized(inputs, inputs.native[..i]))
    {
      NormalizedOneMore(inputs, i);
      sources := Insert(inputs.normalize(inputs.native[i].source), sources);
    }
    assert inputs.native[..|inputs.native|] == inputs.native;
    SourcesListed(inputs);
  }

  lemma NormalizedOneMore(inputs: Inputs, i: nat)
    requires i < |inputs.native|
    ensures var before, source := Normalized(inputs, inputs.native[..i]), inputs.normalize(inputs.native[i].source);
      Normalized(inputs, inputs.native[..i + 1]) == before + [source] &&
      SortedDistinct(before + [source]) == Insert(source, SortedDistinct(before))
  {
    var before, source := Normalized(inputs, inputs.native[..i]), inputs.normalize(inputs.native[i].source);
    assert inputs.native[..i + 1][..i] == inputs.native[..i];
    assert (before + [source])[..|before|] == before;
  }

  lemma {:induction false} NormalizedMembers(inputs: Inputs, native: seq<NativeEntry>)
    ensures forall source :: source in Normalized(inputs, native) <==> exists entry <- native :: inputs.normalize(entry.source) == source
  {
    if native != [] {
      var n := |native| - 1;
      NormalizedMembers(inputs, native[..n]);
      assert native == native[..n] + [native[n]];
    }
  }

  lemma SourcesListed(inputs: Inputs)
    ensures StrictlySorted(SourceList(inputs))
    ensures forall source :: source in SourceList(inputs) <==> source in Sources(inputs)
  {
    SortedDistinctMeans(Normalized(inputs, inputs.native));
    NormalizedMembers(inputs, inputs.native);
  }

  method SortContradictions(found: seq<Contradiction>) returns (list: seq<Contradiction>)
    ensures list == SortReport(found)
  {
    list := [];
    for i := 0 to |found|
      invariant list == SortReport(found[..i])
    {
      assert found[..i + 1][..i] == found[..i];
      list := InsertReport(list, found[i]);
    }
    assert found[..|found|] == found;
  }

  method BuildIosCatalog(existing: Strings, inputs: Inputs) returns (build: Build)
    ensures build.strings == Catalog(existing, inputs)
    ensures build.sources == SourceList(inputs)
    ensures build.contradictions == Contradictions(inputs)
  {
    var sources := ListSources(inputs);
    var idsBySource := CollectIds(inputs);
    var byLocale := GroupArtifacts(inputs, idsBySource);
    var strings: Strings := map[];
    var contradictions: seq<Contradiction> := [];
    for i := 0 to |sources|
      invariant strings == CatalogOf(existing, inputs, KeySet(sources[..i]))
      invariant contradictions == ContradictionsOf(inputs, sources[..i])
    {
      var source := sources[i];
      assert source in sources;
      var localizations, found := LocalizeSource(existing, inputs, source, byLocale);
      SourceStep(existing, inputs, sources, i);
      contradictions := contradictions + found;
      strings := strings[source := localizations];
    }
    assert sources[..|sources|] == sources;
    assert KeySet(sources) == Sources(inputs);
    var report := SortContradictions(contradictions);
    return Build(strings, sources, report);
  }

  function KeySet(sources: seq<string>): set<string> { set source <- sources }

  lemma SourceStep(existing: Strings, inputs: Inputs, sources: seq<string>, i: nat)
    requires i < |sources|
    ensures CatalogOf(existing, inputs, KeySet(sources[..i + 1]))
         == CatalogOf(existing, inputs, KeySet(sources[..i]))[sources[i] := Localizations(existing, inputs, sources[i])]
    ensures ContradictionsOf(inputs, sources[..i + 1])
         == ContradictionsOf(inputs, sources[..i]) + ContradictionsAt(inputs, sources[i], inputs.locales)
  {
    assert sources[..i + 1][..i] == sources[..i];
    assert KeySet(sources[..i + 1]) == KeySet(sources[..i]) + {sources[i]};
  }

  // ----- the report

  /** No contradiction comes before an earlier one of the list. */
  predicate InOrder(list: seq<Contradiction>) {
    forall i, j :: 0 <= i < j < |list| ==> !Before(list[j], list[i])
  }

  lemma BeforeTransitive(a: Contradiction, b: Contradiction, c: Contradiction)
    requires Before(a, b) && !Before(c, b)
    ensures Before(a, c)
  {
    LessTotal(b.source, c.source);
    LessTotal(b.locale, c.locale);
    if Less(a.source, b.source) && Less(b.source, c.source) { LessTransitive(a.source, b.source, c.source); }
    if Less(a.locale, b.locale) && Less(b.locale, c.locale) { LessTransitive(a.locale, b.locale, c.locale); }
  }

  lemma BeforeAsymmetric(a: Contradiction, b: Contradiction)
    ensures !(Before(a, b) && Before(b, a))
  {
    LessTotal(a.source, b.source);
    LessTotal(a.locale, b.locale);
    LessTotal(a.source, a.source);
  }

  lemma {:induction false} InsertReportKeeps(list: seq<Contradiction>, c: Contradiction)
    requires InOrder(list)
    ensures InOrder(InsertReport(list, c)) && multiset(InsertReport(list, c)) == multiset(list) + multiset{c}
  {
    if list != [] {
      var n := |list| - 1;
      var last := list[n];
      MultisetOneMore(list);
      if Before(c, last) {
        InsertReportKeeps(list[..n], c);
        BeforeAsymmetric(c, last);
        NoneAfter(InsertReport(list[..n], c), list[..n], c, last);
      } else {
        forall i | 0 <= i < |list| ensures !Before(c, list[i]) {
          if Before(c, list[i]) && i < n { BeforeTransitive(c, list[i], last); }
        }
      }
    }
  }

  lemma NoneAfter(inserted: seq<Contradiction>, list: seq<Contradiction>, c: Contradiction, last: Contradiction)
    requires multiset(inserted) == multiset(list) + multiset{c}
    requires !Before(last, c) && forall x <- list :: !Before(last, x)
    ensures forall i :: 0 <= i < |inserted| ==> !Before(last, inserted[i])
  {
    forall i | 0 <= i < |inserted| ensures !Before(last, inserted[i]) {
      assert inserted[i] in multiset(inserted);
    }
  }

  lemma {:induction false} SortReportOrdered(list: seq<Contradiction>)
    ensures InOrder(SortReport(list))
  {
    if list != [] {
      SortReportOrdered(list[..|list| - 1]);
      InsertReportKeeps(SortReport(list[..|list| - 1]), list[|list| - 1]);
    }
  }

  lemma MultisetOneMore(list: seq<Contradiction>)
    requires list != []
    ensures multiset(list) == multiset(list[..|list| - 1]) + multiset{list[|list| - 1]}
  {
    assert list == list[..|list| - 1] + [list[|list| - 1]];
  }

  lemma {:induction false} SortReportKeeps(list: seq<Contradiction>)
    ensures multiset(SortReport(list)) == multiset(list)
  {
    if list != [] {
      SortReportKeeps(list[..|list| - 1]);
      SortReportOrdered(list[..|list| - 1]);
      InsertReportKeeps(SortReport(list[..|list| - 1]), list[|list| - 1]);
      MultisetOneMore(list);
    }
  }

  lemma {:induction false} ContradictionsAtMembers(inputs: Inputs, source: string, locales: seq<string>)
    ensures forall c :: c in ContradictionsAt(inputs, source, locales) <==>
      c.source == source && c.locale in locales && Contradicts(inputs, c.locale, source) && c == ContradictionAt(inputs, c.locale, source)
  {
    if locales != [] {
      var n := |locales| - 1;
      ContradictionsAtMembers(inputs, source, locales[..n]);
      assert locales == locales[..n] + [locales[n]];
    }
  }

  predicate IsContradiction(inputs: Inputs, c: Contradiction) {
    c.locale in inputs.locales && Contradicts(inputs, c.locale, c.source) && c == ContradictionAt(inputs, c.locale, c.source)
  }

  lemma {:induction false} ContradictionsOfMembers(inputs: Inputs, sources: seq<string>)
    ensures forall c :: c in ContradictionsOf(inputs, sources) <==> c.source in sources && IsContradiction(inputs, c)
  {
    if sources != [] {
      var n := |sources| - 1;
      ContradictionsOfMembers(inputs, sources[..n]);
      ContradictionsAtMembers(inputs, sources[n], inputs.locales);
      assert sources == sources[..n] + [sources[n]];
    }
  }

  /** The entry's translations are the candidates, in order and once each. */
  ghost predicate ListsCandidates(inputs: Inputs, c: Contradiction) {
    StrictlySorted(c.translations) && forall t :: t in c.translations <==> t in CandidatesOf(inputs, c.locale, c.source)
  }

  /** The report, in order of source and locale, is about exactly the sources and locales
      with more than one distinct candidate, and lists these candidates. */
  lemma ReportMeans(inputs: Inputs)
    ensures InOrder(Contradictions(inputs))
    ensures forall c :: c in Contradictions(inputs) <==> c.source in Sources(inputs) && IsContradiction(inputs, c)
    ensures forall c <- Contradictions(inputs) :: |c.translations| > 1 && ListsCandidates(inputs, c)
  {
    var found := ContradictionsOf(inputs, SourceList(inputs));
    SortReportOrdered(found);
    SortReportKeeps(found);
    ContradictionsOfMembers(inputs, SourceList(inputs));
    SourcesListed(inputs);
    forall c ensures c in Contradictions(inputs) <==> c in found {
      assert c in multiset(Contradictions(inputs)) <==> c in multiset(found);
    }
    forall c <- Contradictions(inputs) ensures ListsCandidates(inputs, c) {
      SortedDistinctMeans(CandidatesOf(inputs, c.locale, c.source));
    }
  }

  // ----- building again

  lemma UnitIsStable(existing: Strings, inputs: Inputs, source: string, locale: string)
    requires source in Sources(inputs) && locale in inputs.locales
    ensures var candidates := CandidatesOf(inputs, locale, source);
      UnitFor(Catalog(existing, inputs), source, locale, candidates) == UnitFor(existing, source, locale, candidates)
  {
    assert ExistingUnit(Catalog(existing, inputs), source, locale)
        == Some(UnitFor(existing, source, locale, CandidatesOf(inputs, locale, source)));
  }

  lemma LocalizationsAreStable(existing: Strings, inputs: Inputs, source: string)
    requires source in Sources(inputs)
    ensures Localizations(Catalog(existing, inputs), inputs, source) == Localizations(existing, inputs, source)
  {
    forall locale | locale in inputs.locales { UnitIsStable(existing, inputs, source, locale); }
  }

  /** Feeding the catalog back with the same inputs returns the same catalog. */
  lemma BuildIsIdempotent(existing: Strings, inputs: Inputs)
    ensures Catalog(Catalog(existing, inputs), inputs) == Catalog(existing, inputs)
  {
    forall source | source in Sources(inputs) { LocalizationsAreStable(existing, inputs, source); }
  }

  /** A shipped translation of a source that is still in use is never altered, whatever the
      translation artifacts say. */
  lemma ShippedIsKept(existing: Strings, inputs: Inputs, source: string, locale: string)
    requires source in Sources(inputs) && locale in inputs.locales && Shipped(ExistingUnit(existing, source, locale))
    ensures ExistingUnit(Catalog(existing, inputs), source, locale) == ExistingUnit(existing, source, locale)
  {
  }

  /** Over a series of builds, on inputs that may change every time but keep the source and
      the locale in use, what was once shipped stays as it is. */
  lemma {:induction false} ShippedIsKeptForever(catalogs: seq<Strings>, inputs: seq<Inputs>, source: string, locale: string, k: nat)
    requires |catalogs| == |inputs| + 1 && k <= |inputs|
    requires forall i :: 0 <= i < |inputs| ==> catalogs[i + 1] == Catalog(catalogs[i], inputs[i])
    requires forall i :: 0 <= i < |inputs| ==> source in Sources(inputs[i]) && locale in inputs[i].locales
    requires Shipped(ExistingUnit(catalogs[0], source, locale))
    ensures ExistingUnit(catalogs[k], source, locale) == ExistingUnit(catalogs[0], source, locale)
  {
    if k > 0 {
      ShippedIsKeptForever(catalogs, inputs, source, locale, k - 1);
      assert catalogs[k - 1 + 1] == Catalog(catalogs[k - 1], inputs[k - 1]);
      ShippedIsKept(catalogs[k - 1], inputs[k - 1], source, locale);
    }
  }

  // ----- order independence

  lemma {:induction false} CandidatesConcat(inputs: Inputs, a: seq<ArtifactEntry>, b: seq<ArtifactEntry>, source: string)
    ensures CandidatesIn(inputs, a + b, source) == CandidatesIn(inputs, a, source) + CandidatesIn(inputs, b, source)
  {
    if b == [] {
      assert a + b == a;
    } else {
      var n := |b| - 1;
      assert (a + b)[..|a| + n] == a + b[..n];
      CandidatesConcat(inputs, a, b[..n], source);
    }
  }

  /** Taking out one entry takes out its own candidates. */
  lemma CandidatesFromEntry(inputs: Inputs, p: seq<ArtifactEntry>, e: ArtifactEntry, q: seq<ArtifactEntry>, source: string)
    ensures multiset(CandidatesIn(inputs, p + [e] + q, source))
         == multiset(CandidatesIn(inputs, p + q, source)) + multiset(CandidatesIn(inputs, [e], source))
  {
    CandidatesConcat(inputs, p, q, source);
    CandidatesConcat(inputs, p + [e], q, source);
    CandidatesConcat(inputs, p, [e], source);
  }

  /** The candidates of a source, as a multiset, do not depend on the order of entries. */
  lemma {:induction false} CandidatesIgnoreOrder(inputs: Inputs, a: seq<ArtifactEntry>, b: seq<ArtifactEntry>, source: string)
    requires multiset(a) == multiset(b)
    ensures multiset(CandidatesIn(inputs, a, source)) == multiset(CandidatesIn(inputs, b, source))
    decreases |a|
  {
    if a == [] {
      assert |multiset(b)| == 0;
    } else {
      var x, tail := a[0], a[1..];
      assert a == [x] + tail;
      assert x in multiset(b);
      var i :| 0 <= i < |b| && b[i] == x;
      var p, q := b[..i], b[i + 1..];
      assert b == p + [x] + q;
      RemoveOne(tail, p, x, q);
      CandidatesIgnoreOrder(inputs, tail, p + q, source);
      CandidatesFromEntry(inputs, p, x, q, source);
      CandidatesConcat(inputs, [x], tail, source);
    }
  }

  lemma RemoveOne<T>(tail: seq<T>, p: seq<T>, x: T, q: seq<T>)
    requires multiset([x] + tail) == multiset(p + [x] + q)
    ensures multiset(tail) == multiset(p + q)
  {
    assert multiset(tail) == multiset([x] + tail) - multiset{x};
    assert multiset(p + q) == multiset(p + [x] + q) - multiset{x};
  }

  /** The same artifacts with their entries in other orders. */
  ghost predicate Reordered(a: seq<Artifact>, b: seq<Artifact>) {
    |a| == |b| && forall i :: 0 <= i < |a| ==> SameEntries(a[i], b[i])
  }

  ghost predicate SameEntries(a: Artifact, b: Artifact) {
    a.locale == b.locale && multiset(a.entries) == multiset(b.entries)
  }

  lemma {:induction false} EntriesReordered(a: seq<Artifact>, b: seq<Artifact>, locale: string)
    requires Reordered(a, b)
    ensures multiset(EntriesFor(a, locale)) == multiset(EntriesFor(b, locale))
  {
    if a != [] {
      var n := |a| - 1;
      assert SameEntries(a[n], b[n]);
      EntriesReordered(a[..n], b[..n], locale);
    }
  }

  lemma CandidatesReordered(inputs: Inputs, artifacts: seq<Artifact>, locale: string, source: string)
    requires Reordered(inputs.artifacts, artifacts)
    ensures multiset(CandidatesOf(inputs, locale, source)) == multiset(CandidatesOf(inputs.(artifacts := artifacts), locale, source))
  {
    var other := inputs.(artifacts := artifacts);
    EntriesReordered(inputs.artifacts, artifacts, locale);
    CandidatesIgnoreOrder(inputs, EntriesFor(inputs.artifacts, locale), EntriesFor(artifacts, locale), source);
    SameCandidates(inputs, other, EntriesFor(artifacts, locale), source);
  }

  lemma {:induction false} SameCandidates(a: Inputs, b: Inputs, entries: seq<ArtifactEntry>, source: string)
    requires a.native == b.native && a.normalize == b.normalize
    ensures CandidatesIn(a, entries, source) == CandidatesIn(b, entries, source)
  {
    if entries != [] { SameCandidates(a, b, entries[..|entries| - 1], source); }
  }

  lemma UnitReordered(existing: Strings, inputs: Inputs, artifacts: seq<Artifact>, locale: string, source: string)
    requires Reordered(inputs.artifacts, artifacts)
    ensures var other := inputs.(artifacts := artifacts);
      UnitFor(existing, source, locale, CandidatesOf(other, locale, source))
        == UnitFor(existing, source, locale, CandidatesOf(inputs, locale, source)) &&
      Contradicts(other, locale, source) == Contradicts(inputs, locale, source) &&
      ContradictionAt(other, locale, source) == ContradictionAt(inputs, locale, source)
  {
    var a, b := CandidatesOf(inputs, locale, source), CandidatesOf(inputs.(artifacts := artifacts), locale, source);
    CandidatesReordered(inputs, artifacts, locale, source);
    ChoiceIgnoresOrder(source, a, b);
    SortedDistinctIgnoresOrder(a, b);
  }

  lemma {:induction false} ContradictionsAtReordered(inputs: Inputs, artifacts: seq<Artifact>, source: string, locales: seq<string>)
    requires Reordered(inputs.artifacts, artifacts)
    ensures ContradictionsAt(inputs.(artifacts := artifacts), source, locales) == ContradictionsAt(inputs, source, locales)
  {
    if locales != [] {
      var n := |locales| - 1;
      ContradictionsAtReordered(inputs, artifacts, source, locales[..n]);
      UnitReordered(map[], inputs, artifacts, locales[n], source);
    }
  }

  lemma {:induction false} ContradictionsOfReordered(inputs: Inputs, artifacts: seq<Artifact>, sources: seq<string>)
    requires Reordered(inputs.artifacts, artifacts)
    ensures ContradictionsOf(inputs.(artifacts := artifacts), sources) == ContradictionsOf(inputs, sources)
  {
    if sources != [] {
      var n := |sources| - 1;
      ContradictionsOfReordered(inputs, artifacts, sources[..n]);
      ContradictionsAtReordered(inputs, artifacts, sources[n], inputs.locales);
    }
  }

  lemma SourceReordered(existing: Strings, inputs: Inputs, artifacts: seq<Artifact>, source: string)
    requires Reordered(inputs.artifacts, artifacts)
    ensures Localizations(existing, inputs.(artifacts := artifacts), source) == Localizations(existing, inputs, source)
  {
    forall locale { UnitReordered(existing, inputs, artifacts, locale, source); }
  }

  lemma {:induction false} NormalizedSame(a: Inputs, b: Inputs, native: seq<NativeEntry>)
    requires a.normalize == b.normalize
    ensures Normalized(a, native) == Normalized(b, native)
  {
    if native != [] { NormalizedSame(a, b, native[..|native| - 1]); }
  }

  /** Permuting the entries of the translation artifacts changes neither the catalog nor
      the report. */
  lemma BuildIgnoresEntryOrder(existing: Strings, inputs: Inputs, artifacts: seq<Artifact>)
    requires Reordered(inputs.artifacts, artifacts)
    ensures Catalog(existing, inputs.(artifacts := artifacts)) == Catalog(existing, inputs)
    ensures Contradictions(inputs.(artifacts := artifacts)) == Contradictions(inputs)
  {
    var other := inputs.(artifacts := artifacts);
    forall source { SourceReordered(existing, inputs, artifacts, source); }
    assert Sources(other) == Sources(inputs);
    NormalizedSame(other, inputs, inputs.native);
    ContradictionsOfReordered(inputs, artifacts, SourceList(inputs));
  }
}
