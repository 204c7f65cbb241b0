/** What the iOS catalog holds for each source and locale, in terms of the inputs
    (scripts/apple-app-i18n.ts, buildIosCatalog). */
module AppleUnits {
  import opened Text
  import opened Selectors
  import opened AppleCatalog

  /** An entry of an artifact that offers a candidate for the source: its text is the source
      and a native entry has the same id and source. */
  predicate Offers(inputs: Inputs, entry: ArtifactEntry, source: string) {
    inputs.normalize(entry.source) == source &&
    exists native <- inputs.native :: native.id == entry.id && inputs.normalize(native.source) == source
  }

  predicate OffersText(inputs: Inputs, entry: ArtifactEntry, source: string, v: string) {
    Offers(inputs, entry, source) && inputs.normalize(entry.translated) == v
  }

  /** The places of the entries of a kind. */
  function Places(entries: seq<ArtifactEntry>, kind: ArtifactEntry -> bool): set<nat> {
    set i: nat | i < |entries| && kind(entries[i])
  }

  /** The places of the entries that offer a candidate equal to `v`. */
  function Offering(inputs: Inputs, entries: seq<ArtifactEntry>, source: string, v: string): set<nat> {
    Places(entries, entry => OffersText(inputs, entry, source, v))
  }

  lemma PlacesOneMore(entries: seq<ArtifactEntry>, kind: ArtifactEntry -> bool)
    requires entries != []
    ensures var n := |entries| - 1;
      |Places(entries, kind)| == |Places(entries[..n], kind)| + (if kind(entries[n]) then 1 else 0)
  {
    var n := |entries| - 1;
    if kind(entries[n]) {
      assert Places(entries, kind) == Places(entries[..n], kind) + {n};
    } else {
      assert Places(entries, kind) == Places(entries[..n], kind);
    }
  }

  lemma CountOneMore(values: seq<string>, last: string, v: string)
    ensures Count(values + [last], v) == Count(values, v) + (if last == v then 1 else 0)
  {
  }

  /** A candidate occurs once for every entry that offers it. */
  lemma {:induction false} CandidatesCount(inputs: Inputs, entries: seq<ArtifactEntry>, source: string, v: string)
    ensures Count(CandidatesIn(inputs, entries, source), v) == |Offering(inputs, entries, source, v)|
  {
    if entries == [] {
      assert Offering(inputs, entries, source, v) == {};
    } else {
      var n := |entries| - 1;
      CandidatesCount(inputs, entries[..n], source, v);
      PlacesOneMore(entries, entry => OffersText(inputs, entry, source, v));
      var before := CandidatesIn(inputs, entries[..n], source);
      CountOneMore(before, inputs.normalize(entries[n].translated), v);
      assert before + [] == before;
    }
  }

  /** Artifact `k` is the last one for the locale. */
  ghost predicate IsLastFor(artifacts: seq<Artifact>, locale: string, k: nat) {
    k < |artifacts| && artifacts[k].locale == locale && forall j :: k < j < |artifacts| ==> artifacts[j].locale != locale
  }

  /** The entries used for a locale are those of its last artifact, if it has one. */
  lemma {:induction false} LastArtifactCounts(artifacts: seq<Artifact>, locale: string, k: nat)
    requires IsLastFor(artifacts, locale, k)
    ensures EntriesFor(artifacts, locale) == artifacts[k].entries
  {
    if k < |artifacts| - 1 {
      assert IsLastFor(artifacts[..|artifacts| - 1], locale, k);
      LastArtifactCounts(artifacts[..|artifacts| - 1], locale, k);
    }
  }

  lemma {:induction false} NoArtifactNoEntries(artifacts: seq<Artifact>, locale: string)
    requires forall a <- artifacts :: a.locale != locale
    ensures EntriesFor(artifacts, locale) == []
  {
    if artifacts != [] {
      assert artifacts[|artifacts| - 1] in artifacts;
      NoArtifactNoEntries(artifacts[..|artifacts| - 1], locale);
    }
  }

  /** The unit counts as a translation and has a text. */
  predicate HasTranslation(unit: Option<Unit>) {
    unit.Some? && unit.value.state == "translated" && |unit.value.value| > 0
  }

  /** A unit that counts as a translation and has a text is kept as it is. */
  lemma TranslatedUnit(existing: Strings, inputs: Inputs, source: string, locale: string)
    requires source in Sources(inputs) && locale in inputs.locales && HasTranslation(ExistingUnit(existing, source, locale))
    ensures ExistingUnit(Catalog(existing, inputs), source, locale) == ExistingUnit(existing, source, locale)
  {
    ShippedIsKept(existing, inputs, source, locale);
  }

  /** What a source in use gets for a locale without such a unit: the source itself for
      English; without candidates the source, to be translated; else the preferred candidate,
      which counts as a translation exactly if some candidate differs from the source. */
  lemma UnshippedUnit(existing: Strings, inputs: Inputs, source: string, locale: string)
    requires source in Sources(inputs) && locale in inputs.locales && !HasTranslation(ExistingUnit(existing, source, locale))
    ensures var unit, candidates := ExistingUnit(Catalog(existing, inputs), source, locale), CandidatesOf(inputs, locale, source);
      && unit.Some?
      && (locale == "en" ==> unit.value == Unit("translated", source))
      && (locale != "en" && candidates == [] ==> unit.value == Unit("new", source))
      && (locale != "en" && candidates != [] ==>
            IsChosen(source, candidates, unit.value.value) &&
            unit.value.state == if exists v <- candidates :: v != source then "translated" else "new")
  {
    var candidates := CandidatesOf(inputs, locale, source);
    SourceChosenExactly(source, candidates);
    if candidates != [] { ChooseIsChosen(source, candidates); }
  }

  /** The catalog holds exactly the sources in use, each with exactly the required locales. */
  lemma CatalogShape(existing: Strings, inputs: Inputs)
    ensures Catalog(existing, inputs).Keys == Sources(inputs)
    ensures forall source <- Catalog(existing, inputs), locale ::
      locale in Catalog(existing, inputs)[source] <==> locale in inputs.locales
  {
  }
}
