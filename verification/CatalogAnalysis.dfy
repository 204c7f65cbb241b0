/** Comparing locale catalogs with the English one (scripts/control-ui-i18n-verify.ts):
    which problems are reported, and which (key, locale) pairs fall back to English. */
module CatalogAnalysis {

  // ----- catalogs

  /** A flat catalog: its keys in insertion order, and its texts. */
  datatype Flat = Flat(keys: seq<string>, at: map<string, string>)

  predicate Distinct(keys: seq<string>) { forall i, j :: 0 <= i < j < |keys| ==> keys[i] != keys[j] }

  ghost predicate IsFlat(flat: Flat) { Distinct(flat.keys) && forall key :: key in flat.keys <==> key in flat.at }

  /** The locale catalogs by name. */
  datatype Locales = Locales(names: seq<string>, flats: map<string, Flat>)

  ghost predicate AreLocales(locales: Locales) {
    Distinct(locales.names) && forall name <- locales.names :: name in locales.flats && IsFlat(locales.flats[name])
  }

  function Filter(keys: seq<string>, keep: set<string>): seq<string> {
    if keys == [] then []
    else Filter(keys[..|keys| - 1], keep) + (if keys[|keys| - 1] in keep then [keys[|keys| - 1]] else [])
  }

  /** Strictly increasing places of `b` at which `a` can be read off. */
  ghost predicate Embeds(a: seq<string>, b: seq<string>, places: seq<nat>) {
    && |places| == |a|
    && (forall i, j :: 0 <= i < j < |places| ==> places[i] < places[j])
    && (forall i :: 0 <= i < |places| ==> places[i] < |b| && b[places[i]] == a[i])
  }

  ghost predicate IsSubsequence(a: seq<string>, b: seq<string>) { exists places: seq<nat> :: Embeds(a, b, places) }

  function KeySet(keys: seq<string>): set<string> { set key <- keys }

  // ----- what is reported

  datatype Problem =
    | OrphanKeys(locale: string, keys: seq<string>)
    | OutOfOrder(locale: string)
    | PlaceholderMismatch(locale: string, key: string)

  function ShapeProblems(source: Flat, locale: string, flat: Flat): seq<Problem> {
    var orphans := Filter(flat.keys, KeySet(flat.keys) - KeySet(source.keys));
    (if |orphans| > 0 then [OrphanKeys(locale, orphans)] else []) +
    (if Filter(flat.keys, KeySet(source.keys)) != Filter(source.keys, flat.at.Keys) then [OutOfOrder(locale)] else [])
  }

  predicate Mismatched(source: Flat, flat: Flat, extract: string -> seq<string>, key: string)
    requires key in source.at
  {
    key in flat.at && extract(source.at[key]) != extract(flat.at[key])
  }

  function KeyProblems(source: Flat, keys: seq<string>, locale: string, flat: Flat, extract: string -> seq<string>): seq<Problem>
    requires forall key <- keys :: key in source.at
  {
    if keys == [] then []
    else
      var key := keys[|keys| - 1];
      KeyProblems(source, keys[..|keys| - 1], locale, flat, extract) +
      (if Mismatched(source, flat, extract, key) then [PlaceholderMismatch(locale, key)] else [])
  }

  function LocaleProblems(source: Flat, locale: string, flat: Flat, extract: string -> seq<string>): seq<Problem>
    requires forall key <- source.keys :: key in source.at
  {
    ShapeProblems(source, locale, flat) + KeyProblems(source, source.keys, locale, flat, extract)
  }

  /** A locale catalog that keeps the English keys, their order and their placeholders. */
  ghost predicate Clean(source: Flat, flat: Flat, extract: string -> seq<string>) {
    IsSubsequence(flat.keys, source.keys) &&
    forall key <- flat.keys :: key in source.at && key in flat.at && extract(source.at[key]) == extract(flat.at[key])
  }

  // ----- filters and subsequences

  lemma {:induction false} FilterMembers(keys: seq<string>, keep: set<string>)
    ensures forall key :: key in Filter(keys, keep) <==> key in keys && key in keep
  {
    if keys != [] {
      var n := |keys| - 1;
      FilterMembers(keys[..n], keep);
      assert keys == keys[..n] + [keys[n]];
    }
  }

  lemma {:induction false} FilterAll(keys: seq<string>, keep: set<string>)
    requires forall key <- keys :: key in keep
    ensures Filter(keys, keep) == keys
  {
    if keys != [] {
      var n := |keys| - 1;
      FilterAll(keys[..n], keep);
      assert keys == keys[..n] + [keys[n]];
    }
  }

  lemma {:induction false} FilterNone(keys: seq<string>, keep: set<string>)
    requires forall key <- keys :: key !in keep
    ensures Filter(keys, keep) == []
  {
    if keys != [] { FilterNone(keys[..|keys| - 1], keep); }
  }

  lemma EmbedsAppend(a: seq<string>, b: seq<string>, places: seq<nat>, key: string)
    requires Embeds(a, b, places)
    ensures Embeds(a, b + [key], places) && Embeds(a + [key], b + [key], places + [|b|])
  {
  }

  lemma {:induction false} FilterEmbeds(keys: seq<string>, keep: set<string>) returns (places: seq<nat>)
    ensures Embeds(Filter(keys, keep), keys, places)
  {
    if keys == [] {
      places := [];
    } else {
      var n := |keys| - 1;
      var earlier := FilterEmbeds(keys[..n], keep);
      EmbedsAppend(Filter(keys[..n], keep), keys[..n], earlier, keys[n]);
      assert keys == keys[..n] + [keys[n]];
      assert Filter(keys[..n], keep) + [] == Filter(keys[..n], keep);
      places := if keys[n] in keep then earlier + [n] else earlier;
    }
  }

  lemma LastIsSkipped(a: seq<string>, b: seq<string>, places: seq<nat>)
    requires b != [] && Distinct(b) && Embeds(a, b, places) && (a == [] || places[|a| - 1] != |b| - 1)
    ensures b[|b| - 1] !in a && Embeds(a, b[..|b| - 1], places)
  {
    forall i | 0 <= i < |a| ensures places[i] < |b| - 1 {
      assert i < |a| - 1 ==> places[i] < places[|a| - 1];
    }
  }

  lemma {:induction false} EmbeddedIsFiltered(a: seq<string>, b: seq<string>, places: seq<nat>, keep: set<string>)
    requires Distinct(b) && Embeds(a, b, places) && forall key <- b :: key in keep <==> key in a
    ensures Filter(b, keep) == a
    decreases |b|
  {
    if b != [] {
      var n := |b| - 1;
      var m := |a| - 1;
      if a != [] && places[m] == n {
        assert a == a[..m] + [a[m]];
        assert forall key <- b[..n] :: key in b && key != b[n];
        EmbeddedIsFiltered(a[..m], b[..n], places[..m], keep);
      } else {
        LastIsSkipped(a, b, places);
        EmbeddedIsFiltered(a, b[..n], places, keep);
      }
    }
  }

  /** No orphan and the expected order together say: a subsequence of the English keys. */
  lemma ShapeIsSubsequence(source: Flat, locale: string, flat: Flat)
    requires IsFlat(source) && IsFlat(flat)
    ensures ShapeProblems(source, locale, flat) == [] <==> IsSubsequence(flat.keys, source.keys)
  {
    var strange := KeySet(flat.keys) - KeySet(source.keys);
    FilterMembers(flat.keys, strange);
    if ShapeProblems(source, locale, flat) == [] {
      assert forall key <- flat.keys :: key in KeySet(source.keys) by {
        assert Filter(flat.keys, strange) == [];
        assert forall key <- flat.keys :: key !in strange;
      }
      FilterAll(flat.keys, KeySet(source.keys));
      var places := FilterEmbeds(source.keys, flat.at.Keys);
      assert Embeds(flat.keys, source.keys, places);
    }
    if IsSubsequence(flat.keys, source.keys) {
      var places: seq<nat> :| Embeds(flat.keys, source.keys, places);
      assert forall key <- flat.keys :: key in source.keys;
      FilterNone(flat.keys, strange);
      FilterAll(flat.keys, KeySet(source.keys));
      EmbeddedIsFiltered(flat.keys, source.keys, places, flat.at.Keys);
    }
  }

  lemma {:induction false} KeysAgree(source: Flat, keys: seq<string>, locale: string, flat: Flat, extract: string -> seq<string>)
    requires forall key <- keys :: key in source.at
    ensures KeyProblems(source, keys, locale, flat, extract) == [] <==>
            forall key <- keys :: !Mismatched(source, flat, extract, key)
  {
    if keys != [] {
      var n := |keys| - 1;
      KeysAgree(source, keys[..n], locale, flat, extract);
      assert keys == keys[..n] + [keys[n]];
    }
  }

  /** Nothing is reported for a locale exactly when its catalog is clean. */
  lemma NoProblemsIffClean(source: Flat, locale: string, flat: Flat, extract: string -> seq<string>)
    requires IsFlat(source) && IsFlat(flat)
    ensures LocaleProblems(source, locale, flat, extract) == [] <==> Clean(source, flat, extract)
  {
    ShapeIsSubsequence(source, locale, flat);
    KeysAgree(source, source.keys, locale, flat, extract);
    if IsSubsequence(flat.keys, source.keys) {
      var places: seq<nat> :| Embeds(flat.keys, source.keys, places);
      assert forall key <- flat.keys :: key in source.keys;
    }
  }

  // ----- the analysis

  /** The locales of `names`, in that order, that lack the key. */
  function Lacking(locales: Locales, names: seq<string>, key: string): seq<string>
    requires forall name <- names :: name in locales.flats
  {
    if names == [] then []
    else
      var name := names[|names| - 1];
      Lacking(locales, names[..|names| - 1], key) + (if key in locales.flats[name].at then [] else [name])
  }

  /** The table's entry for a key after the locales `names`. */
  ghost predicate Row(table: map<string, seq<string>>, locales: Locales, names: seq<string>, key: string)
    requires forall name <- names :: name in locales.flats
  {
    var lacking := Lacking(locales, names, key);
    (key in table <==> lacking != []) && (key in table ==> table[key] == lacking)
  }

  ghost predicate Tabled(table: map<string, seq<string>>, keys: seq<string>, locales: Locales, names: seq<string>)
    requires forall name <- names :: name in locales.flats
  {
    forall key <- keys :: Row(table, locales, names, key)
  }

  /** In the middle of one more locale: the first `i` keys have been looked at. */
  ghost predicate HalfTabled(table: map<string, seq<string>>, keys: seq<string>, locales: Locales, done: seq<string>,
                             locale: string, i: nat)
    requires (forall name <- done :: name in locales.flats) && locale in locales.flats && i <= |keys|
  {
    forall j :: 0 <= j < |keys| ==> Row(table, locales, if j < i then done + [locale] else done, keys[j])
  }

  lemma {:induction false} LackingMembers(locales: Locales, names: seq<string>, key: string)
    requires forall name <- names :: name in locales.flats
    ensures forall name :: name in Lacking(locales, names, key) <==> name in names && key !in locales.flats[name].at
  {
    if names != [] {
      var n := |names| - 1;
      LackingMembers(locales, names[..n], key);
      assert names == names[..n] + [names[n]];
    }
  }

  lemma {:induction false} LackingDistinct(locales: Locales, names: seq<string>, key: string)
    requires (forall name <- names :: name in locales.flats) && Distinct(names)
    ensures Distinct(Lacking(locales, names, key))
  {
    if names != [] {
      var n := |names| - 1;
      LackingDistinct(locales, names[..n], key);
      LackingMembers(locales, names[..n], key);
      assert names[n] !in names[..n];
    }
  }

  lemma LackingOneMore(locales: Locales, names: seq<string>, name: string, key: string)
    requires (forall known <- names :: known in locales.flats) && name in locales.flats
    ensures Lacking(locales, names + [name], key) ==
            Lacking(locales, names, key) + (if key in locales.flats[name].at then [] else [name])
  {
    assert (names + [name])[..|names|] == names;
  }

  lemma RowKept(table: map<string, seq<string>>, next: map<string, seq<string>>, locales: Locales, names: seq<string>, key: string)
    requires (forall name <- names :: name in locales.flats) && Row(table, locales, names, key)
    requires (key in next <==> key in table) && (key in table ==> next[key] == table[key])
    ensures Row(next, locales, names, key)
  {
  }

  lemma HalfStep(table: map<string, seq<string>>, next: map<string, seq<string>>, keys: seq<string>, locales: Locales,
                 done: seq<string>, locale: string, i: nat)
    requires (forall name <- done :: name in locales.flats) && locale in locales.flats && i < |keys| && Distinct(keys)
    requires HalfTabled(table, keys, locales, done, locale, i)
    requires next == if keys[i] in locales.flats[locale].at then table
                     else table[keys[i] := (if keys[i] in table then table[keys[i]] else []) + [locale]]
    ensures HalfTabled(next, keys, locales, done, locale, i + 1)
  {
    forall j | 0 <= j < |keys|
      ensures Row(next, locales, if j < i + 1 then done + [locale] else done, keys[j])
    {
      assert Row(table, locales, if j < i then done + [locale] else done, keys[j]);
      if j == i {
        LackingOneMore(locales, done, locale, keys[i]);
      } else {
        RowKept(table, next, locales, if j < i then done + [locale] else done, keys[j]);
      }
    }
  }

  lemma HalfIsWhole(table: map<string, seq<string>>, keys: seq<string>, locales: Locales, done: seq<string>, locale: string)
    requires (forall name <- done :: name in locales.flats) && locale in locales.flats
    requires HalfTabled(table, keys, locales, done, locale, |keys|)
    ensures Tabled(table, keys, locales, done + [locale])
  {
    var names := done + [locale];
    assert forall j :: 0 <= j < |keys| ==> Row(table, locales, names, keys[j]);
  }

  lemma KeyProblemsOneMore(source: Flat, i: nat, locale: string, flat: Flat, extract: string -> seq<string>)
    requires IsFlat(source) && i < |source.keys|
    ensures KeyProblems(source, source.keys[..i + 1], locale, flat, extract) ==
            KeyProblems(source, source.keys[..i], locale, flat, extract) +
            (if Mismatched(source, flat, extract, source.keys[i]) then [PlaceholderMismatch(locale, source.keys[i])] else [])
  {
    assert source.keys[..i + 1][..i] == source.keys[..i];
  }

  /** One English key for one locale. */
  method AnalyzeKey(source: Flat, locale: string, flat: Flat, extract: string -> seq<string>, key: string,
                    table: map<string, seq<string>>)
      returns (errors: seq<Problem>, next: map<string, seq<string>>)
    requires key in source.at
    ensures errors == if Mismatched(source, flat, extract, key) then [PlaceholderMismatch(locale, key)] else []
    ensures next == if key in flat.at then table else table[key := (if key in table then table[key] else []) + [locale]]
  {
    errors, next := [], table;
    if key !in flat.at {
      var names := if key in table then table[key] else [];
      next := table[key := names + [locale]];
    } else if extract(source.at[key]) != extract(flat.at[key]) {
      errors := [PlaceholderMismatch(locale, key)];
    }
  }

  /** The loop over the English keys, after `i` of them. */
  ghost predicate InKeys(source: Flat, locales: Locales, locale: string, extract: string -> seq<string>, done: seq<string>,
                         errors: seq<Problem>, table: map<string, seq<string>>, i: nat)
  {
    && IsFlat(source)
    && (forall name <- done :: name in locales.flats) && locale in locales.flats
    && i <= |source.keys|
    && errors == KeyProblems(source, source.keys[..i], locale, locales.flats[locale], extract)
    && table.Keys <= source.at.Keys && HalfTabled(table, source.keys, locales, done, locale, i)
  }

  lemma InKeysStart(source: Flat, locales: Locales, locale: string, extract: string -> seq<string>, done: seq<string>,
                    table: map<string, seq<string>>)
    requires IsFlat(source) && locale in locales.flats && (forall name <- done :: name in locales.flats)
    requires table.Keys <= source.at.Keys && Tabled(table, source.keys, locales, done)
    ensures InKeys(source, locales, locale, extract, done, [], table, 0)
  {
  }

  lemma InKeysStep(source: Flat, locales: Locales, locale: string, extract: string -> seq<string>, done: seq<string>,
                   errors: seq<Problem>, table: map<string, seq<string>>, i: nat, next: map<string, seq<string>>)
    requires InKeys(source, locales, locale, extract, done, errors, table, i) && i < |source.keys|
    requires var key := source.keys[i];
      next == if key in locales.flats[locale].at then table
              else table[key := (if key in table then table[key] else []) + [locale]]
    ensures var key := source.keys[i];
      var more := if Mismatched(source, locales.flats[locale], extract, key) then [PlaceholderMismatch(locale, key)] else [];
      InKeys(source, locales, locale, extract, done, errors + more, next, i + 1)
  {
    KeyProblemsOneMore(source, i, locale, locales.flats[locale], extract);
    HalfStep(table, next, source.keys, locales, done, locale, i);
  }

  lemma InKeysEnd(source: Flat, locales: Locales, locale: string, extract: string -> seq<string>, done: seq<string>,
                  errors: seq<Problem>, table: map<string, seq<string>>)
    requires InKeys(source, locales, locale, extract, done, errors, table, |source.keys|)
    ensures errors == KeyProblems(source, source.keys, locale, locales.flats[locale], extract)
    ensures table.Keys <= source.at.Keys && Tabled(table, source.keys, locales, done + [locale])
  {
    assert source.keys[..|source.keys|] == source.keys;
    HalfIsWhole(table, source.keys, locales, done, locale);
  }

  /** The loop over the English keys for one locale. */
  method AnalyzeKeys(source: Flat, locales: Locales, locale: string, extract: string -> seq<string>,
                     tableSoFar: map<string, seq<string>>, ghost done: seq<string>)
      returns (errors: seq<Problem>, table: map<string, seq<string>>)
    requires IsFlat(source) && locale in locales.flats && (forall name <- done :: name in locales.flats)
    requires tableSoFar.Keys <= source.at.Keys && Tabled(tableSoFar, source.keys, locales, done)
    ensures errors == KeyProblems(source, source.keys, locale, locales.flats[locale], extract)
    ensures table.Keys <= source.at.Keys && Tabled(table, source.keys, locales, done + [locale])
  {
    errors, table := [], tableSoFar;
    InKeysStart(source, locales, locale, extract, done, table);
    for i := 0 to |source.keys|
      invariant InKeys(source, locales, locale, extract, done, errors, table, i)
    {
      ghost var before := table;
      var more;
      more, table := AnalyzeKey(source, locale, locales.flats[locale], extract, source.keys[i], table);
      InKeysStep(source, locales, locale, extract, done, errors, before, i, table);
      errors := errors + more;
    }
    InKeysEnd(source, locales, locale, extract, done, errors, table);
  }

  /** Nothing is reported for a subsequence of the English keys; orphans are reported if
      there are any, and all of them are named. */
  method AnalyzeShape(source: Flat, locale: string, flat: Flat) returns (errors: seq<Problem>)
    requires IsFlat(source) && IsFlat(flat)
    ensures errors == [] <==> IsSubsequence(flat.keys, source.keys)
    ensures forall key <- flat.keys :: key !in source.keys ==>
      errors != [] && errors[0].OrphanKeys? && errors[0].locale == locale && key in errors[0].keys
    ensures forall e <- errors :: e.OrphanKeys? ==> e.keys != [] && forall key <- e.keys :: key in flat.keys && key !in source.keys
    ensures errors == ShapeProblems(source, locale, flat)
  {
    ShapeIsSubsequence(source, locale, flat);
    FilterMembers(flat.keys, KeySet(flat.keys) - KeySet(source.keys));
    errors := [];
    var sourceKeySet := set key <- source.keys;
    var orphanKeys := Filter(flat.keys, (set key <- flat.keys) - sourceKeySet);
    if |orphanKeys| > 0 {
      errors := errors + [OrphanKeys(locale, orphanKeys)];
    }
    var expectedPresentOrder := Filter(source.keys, flat.at.Keys);
    var actualPresentOrder := Filter(flat.keys, sourceKeySet);
    if actualPresentOrder != expectedPresentOrder {
      errors := errors + [OutOfOrder(locale)];
    }
  }

  ghost predicate IsSort(sort: seq<string> -> seq<string>) { forall s: seq<string> :: multiset(sort(s)) == multiset(s) }

  ghost predicate AllClean(source: Flat, locales: Locales, names: seq<string>, extract: string -> seq<string>)
    requires forall name <- names :: name in locales.flats
  {
    forall name <- names :: Clean(source, locales.flats[name], extract)
  }

  lemma {:induction false} SortedNames(s: seq<string>, t: seq<string>)
    requires multiset(s) == multiset(t)
    ensures (forall name :: name in s <==> name in t) && (Distinct(s) ==> Distinct(t))
  {
    forall name ensures name in s <==> name in t {
      assert name in s <==> name in multiset(s);
      assert name in t <==> name in multiset(t);
    }
    if Distinct(s) {
      forall i, j | 0 <= i < j < |t| ensures t[i] != t[j] {
        if t[i] == t[j] {
          TwiceCounts(t, i, j);
          OnceCounts(s, t[i]);
        }
      }
    }
  }

  lemma TwiceCounts(t: seq<string>, i: nat, j: nat)
    requires i < j < |t| && t[i] == t[j]
    ensures multiset(t)[t[i]] >= 2
  {
    assert t == t[..j] + [t[j]] + t[j + 1..];
    assert t[i] in t[..j];
    assert multiset(t) == multiset(t[..j]) + multiset{t[j]} + multiset(t[j + 1..]);
  }

  lemma {:induction false} OnceCounts(s: seq<string>, name: string)
    requires Distinct(s)
    ensures multiset(s)[name] <= 1
  {
    if s != [] {
      var n := |s| - 1;
      OnceCounts(s[..n], name);
      assert s == s[..n] + [s[n]];
      if name == s[n] { assert name !in multiset(s[..n]); }
    }
  }

  /** The pairs for which English text stands in. */
  ghost predicate ListsMissing(fallbacks: map<string, seq<string>>, source: Flat, locales: Locales)
    requires AreLocales(locales)
  {
    forall key, name ::
      (key in fallbacks && name in fallbacks[key]) <==>
      (key in source.keys && name in locales.names && key !in locales.flats[name].at)
  }

  lemma TableListsMissing(table: map<string, seq<string>>, fallbacks: map<string, seq<string>>, source: Flat,
                          locales: Locales, names: seq<string>, sort: seq<string> -> seq<string>)
    requires IsFlat(source) && AreLocales(locales) && IsSort(sort) && multiset(names) == multiset(locales.names)
    requires (forall name <- names :: name in locales.flats) && table.Keys <= source.at.Keys
    requires Tabled(table, source.keys, locales, names)
    requires fallbacks.Keys == table.Keys && forall key <- table :: fallbacks[key] == sort(table[key])
    ensures ListsMissing(fallbacks, source, locales)
    ensures forall key <- fallbacks :: fallbacks[key] != [] && Distinct(fallbacks[key])
  {
    SortedNames(locales.names, names);
    forall key <- source.keys
      ensures forall name :: (key in fallbacks && name in fallbacks[key]) <==> name in names && key !in locales.flats[name].at
      ensures key in fallbacks ==> fallbacks[key] != [] && Distinct(fallbacks[key])
    {
      LackingMembers(locales, names, key);
      LackingDistinct(locales, names, key);
      if key in table {
        SortedNames(table[key], fallbacks[key]);
        assert table[key][0] in fallbacks[key];
      }
    }
  }

  /** The problems of the locales, locale by locale. */
  function AllProblems(source: Flat, locales: Locales, names: seq<string>, extract: string -> seq<string>): seq<Problem>
    requires forall key <- source.keys :: key in source.at
    requires forall name <- names :: name in locales.flats
  {
    if names == [] then []
    else
      var name := names[|names| - 1];
      AllProblems(source, locales, names[..|names| - 1], extract) + LocaleProblems(source, name, locales.flats[name], extract)
  }

  lemma AllProblemsOneMore(source: Flat, locales: Locales, names: seq<string>, i: nat, extract: string -> seq<string>)
    requires IsFlat(source) && i < |names| && forall name <- names :: name in locales.flats && IsFlat(locales.flats[name])
    ensures AllProblems(source, locales, names[..i + 1], extract) ==
            AllProblems(source, locales, names[..i], extract) + LocaleProblems(source, names[i], locales.flats[names[i]], extract)
  {
    assert names[..i + 1][..i] == names[..i];
  }

  lemma {:induction false} NoProblemsIffAllClean(source: Flat, locales: Locales, names: seq<string>, extract: string -> seq<string>)
    requires IsFlat(source) && forall name <- names :: name in locales.flats && IsFlat(locales.flats[name])
    ensures AllProblems(source, locales, names, extract) == [] <==> AllClean(source, locales, names, extract)
  {
    if names != [] {
      var n := |names| - 1;
      NoProblemsIffAllClean(source, locales, names[..n], extract);
      NoProblemsIffClean(source, names[n], locales.flats[names[n]], extract);
      assert names == names[..n] + [names[n]];
    }
  }

  /** The order in which the locales are analyzed. */
  function Order(locales: Locales, sort: seq<string> -> seq<string>): seq<string> { sort(locales.names) }

  lemma OrderedNames(locales: Locales, sort: seq<string> -> seq<string>)
    requires AreLocales(locales) && IsSort(sort)
    ensures Distinct(Order(locales, sort)) && multiset(Order(locales, sort)) == multiset(locales.names)
    ensures forall name <- Order(locales, sort) :: name in locales.flats && IsFlat(locales.flats[name])
    ensures forall name :: name in Order(locales, sort) <==> name in locales.names
  {
    SortedNames(locales.names, sort(locales.names));
  }

  method AnalyzeCatalogs(source: Flat, locales: Locales, extract: string -> seq<string>, sort: seq<string> -> seq<string>)
      returns (errors: seq<Problem>, fallbacks: map<string, seq<string>>)
    requires IsFlat(source) && AreLocales(locales) && IsSort(sort)
    ensures (forall name <- Order(locales, sort) :: name in locales.flats) &&
      errors == AllProblems(source, locales, Order(locales, sort), extract) &&
      forall key <- fallbacks :: fallbacks[key] == sort(Lacking(locales, Order(locales, sort), key))
    ensures errors == [] <==> AllClean(source, locales, locales.names, extract)
    ensures ListsMissing(fallbacks, source, locales)
    ensures forall key <- fallbacks :: fallbacks[key] != [] && Distinct(fallbacks[key])
  {
    errors := [];
    var table: map<string, seq<string>> := map[];
    var names := sort(locales.names);
    OrderedNames(locales, sort);
    for i := 0 to |names|
      invariant errors == AllProblems(source, locales, names[..i], extract)
      invariant table.Keys <= source.at.Keys && Tabled(table, source.keys, locales, names[..i])
    {
      var locale := names[i];
      assert names[..i + 1] == names[..i] + [locale];
      AllProblemsOneMore(source, locales, names, i, extract);
      var shape := AnalyzeShape(source, locale, locales.flats[locale]);
      var mismatches;
      mismatches, table := AnalyzeKeys(source, locales, locale, extract, table, names[..i]);
      errors := errors + (shape + mismatches);
    }
    assert names[..|names|] == names;
    NoProblemsIffAllClean(source, locales, names, extract);
    fallbacks := map key | key in table :: sort(table[key]);
    TableListsMissing(table, fallbacks, source, locales, names, sort);
  }

  // ----- how many pairs fall back

  function PairsOf(fallbacks: map<string, seq<string>>): set<(string, string)> {
    set key, name | key in fallbacks && name in fallbacks[key] :: (key, name)
  }

  function TotalKeys(locales: Locales, names: seq<string>): nat
    requires forall name <- names :: name in locales.flats
  {
    if names == [] then 0
    else TotalKeys(locales, names[..|names| - 1]) + |locales.flats[names[|names| - 1]].keys|
  }

  ghost function MissingPairs(source: Flat, locales: Locales, names: seq<string>): set<(string, string)>
    requires forall name <- names :: name in locales.flats
  {
    set key, name | key in source.keys && name in names && key !in locales.flats[name].at :: (key, name)
  }

  lemma {:induction false} DistinctSize(keys: seq<string>)
    requires Distinct(keys)
    ensures |KeySet(keys)| == |keys|
  {
    if keys == [] {
      assert KeySet(keys) == {};
    } else {
      var n := |keys| - 1;
      DistinctSize(keys[..n]);
      assert keys == keys[..n] + [keys[n]];
      assert KeySet(keys) == KeySet(keys[..n]) + {keys[n]};
    }
  }

  lemma {:induction false} PairedSize(keys: set<string>, name: string)
    ensures |set key <- keys :: (key, name)| == |keys|
  {
    var pairs := set key <- keys :: (key, name);
    if keys == {} {
      assert pairs == {};
    } else {
      var key :| key in keys;
      PairedSize(keys - {key}, name);
      assert pairs == (set other <- keys - {key} :: (other, name)) + {(key, name)};
    }
  }

  ghost function LackedBy(source: Flat, flat: Flat): set<string> { KeySet(source.keys) - KeySet(flat.keys) }

  lemma LackedCount(source: Flat, flat: Flat, extract: string -> seq<string>)
    requires IsFlat(source) && IsFlat(flat) && Clean(source, flat, extract)
    ensures |LackedBy(source, flat)| == |source.keys| - |flat.keys|
  {
    DistinctSize(source.keys);
    DistinctSize(flat.keys);
    assert KeySet(flat.keys) <= KeySet(source.keys);
  }

  lemma MissingOneMore(source: Flat, locales: Locales, names: seq<string>, name: string)
    requires (forall known <- names :: known in locales.flats) && name in locales.flats && name !in names
    requires IsFlat(locales.flats[name])
    ensures |MissingPairs(source, locales, names + [name])| ==
            |MissingPairs(source, locales, names)| + |LackedBy(source, locales.flats[name])|
  {
    var lacked := LackedBy(source, locales.flats[name]);
    var pairs := set key <- lacked :: (key, name);
    assert MissingPairs(source, locales, names + [name]) == MissingPairs(source, locales, names) + pairs;
    assert MissingPairs(source, locales, names) !! pairs;
    PairedSize(lacked, name);
  }

  lemma OneMoreTimes(n: int, size: int)
    ensures (n + 1) * size == n * size + size
  {
  }

  lemma {:induction false} MissingCount(source: Flat, locales: Locales, names: seq<string>, extract: string -> seq<string>)
    requires IsFlat(source) && Distinct(names)
    requires forall name <- names :: name in locales.flats && IsFlat(locales.flats[name])
    requires AllClean(source, locales, names, extract)
    ensures |MissingPairs(source, locales, names)| == |names| * |source.keys| - TotalKeys(locales, names)
  {
    if names == [] {
      assert MissingPairs(source, locales, names) == {};
    } else {
      var n := |names| - 1;
      assert names == names[..n] + [names[n]];
      MissingCount(source, locales, names[..n], extract);
      LackedCount(source, locales.flats[names[n]], extract);
      MissingOneMore(source, locales, names[..n], names[n]);
      OneMoreTimes(n, |source.keys|);
    }
  }

  lemma PairsAreMissing(source: Flat, locales: Locales, fallbacks: map<string, seq<string>>)
    requires AreLocales(locales) && ListsMissing(fallbacks, source, locales)
    ensures PairsOf(fallbacks) == MissingPairs(source, locales, locales.names)
  {
    forall key, name
      ensures (key, name) in PairsOf(fallbacks) <==> (key, name) in MissingPairs(source, locales, locales.names)
    {
      assert (key in fallbacks && name in fallbacks[key]) <==>
             (key in source.keys && name in locales.names && key !in locales.flats[name].at);
    }
  }

  /** Error-free catalogs: the pairs number locales times English keys less all locale keys. */
  lemma FallbackCount(source: Flat, locales: Locales, fallbacks: map<string, seq<string>>, extract: string -> seq<string>)
    requires IsFlat(source) && AreLocales(locales) && ListsMissing(fallbacks, source, locales)
    requires AllClean(source, locales, locales.names, extract)
    ensures |PairsOf(fallbacks)| == |locales.names| * |source.keys| - TotalKeys(locales, locales.names)
  {
    MissingCount(source, locales, locales.names, extract);
    PairsAreMissing(source, locales, fallbacks);
  }
}
