/** When a locale's keys are reported as out of order, and which keys are reported for their
    placeholders (scripts/control-ui-i18n-verify.ts). */
module CatalogOrder {
  import opened CatalogAnalysis

  /** Key `a` stands somewhere before key `b`. */
  ghost predicate Before(keys: seq<string>, a: string, b: string) {
    exists i, j :: 0 <= i < j < |keys| && keys[i] == a && keys[j] == b
  }

  lemma BeforeLast(keys: seq<string>, last: string, a: string, b: string)
    ensures Before(keys + [last], a, b) <==> Before(keys, a, b) || (a in keys && b == last)
  {
    var all := keys + [last];
    if Before(all, a, b) {
      var i, j :| 0 <= i < j < |all| && all[i] == a && all[j] == b;
      if j < |keys| { assert keys[i] == a && keys[j] == b; } else { assert keys[i] == a; }
    }
    if Before(keys, a, b) {
      var i, j :| 0 <= i < j < |keys| && keys[i] == a && keys[j] == b;
      assert all[i] == a && all[j] == b;
    }
    if a in keys && b == last {
      var i :| 0 <= i < |keys| && keys[i] == a;
      assert all[i] == a && all[|keys|] == b;
    }
  }

  /** Filtering keeps the order of what it keeps. */
  lemma {:induction false} FilterKeepsOrder(keys: seq<string>, keep: set<string>, a: string, b: string)
    ensures Before(Filter(keys, keep), a, b) <==> Before(keys, a, b) && a in keep && b in keep
  {
    if keys != [] {
      var n := |keys| - 1;
      FilterKeepsOrder(keys[..n], keep, a, b);
      FilterMembers(keys[..n], keep);
      assert keys == keys[..n] + [keys[n]];
      BeforeLast(keys[..n], keys[n], a, b);
      BeforeLast(Filter(keys[..n], keep), keys[n], a, b);
      assert Filter(keys[..n], keep) + [] == Filter(keys[..n], keep);
    }
  }

  lemma {:induction false} FilterDistinct(keys: seq<string>, keep: set<string>)
    requires Distinct(keys)
    ensures Distinct(Filter(keys, keep))
  {
    if keys != [] {
      var n := |keys| - 1;
      FilterDistinct(keys[..n], keep);
      FilterMembers(keys[..n], keep);
      assert keys[n] !in keys[..n];
    }
  }

  /** Two lists of the same distinct keys disagree about some pair. */
  ghost predicate Inverted(x: seq<string>, y: seq<string>) { exists a, b :: InvertedAt(x, y, a, b) }

  ghost predicate InvertedAt(x: seq<string>, y: seq<string>, a: string, b: string) { Before(x, a, b) && Before(y, b, a) }

  lemma BeforeTail(x: seq<string>, a: string, b: string)
    requires x != [] && Before(x[1..], a, b)
    ensures Before(x, a, b)
  {
    var i, j :| 0 <= i < j < |x[1..]| && x[1..][i] == a && x[1..][j] == b;
    assert x[i + 1] == a && x[j + 1] == b;
  }

  lemma FirstBefore(x: seq<string>, b: string)
    requires x != [] && b in x && b != x[0]
    ensures Before(x, x[0], b)
  {
    var j :| 0 <= j < |x| && x[j] == b;
    assert 0 < j && x[0] == x[0];
  }

  lemma {:induction false} DifferentAreInverted(x: seq<string>, y: seq<string>)
    requires Distinct(x) && Distinct(y) && (forall key :: key in x <==> key in y) && x != y
    ensures Inverted(x, y)
    decreases |x|
  {
    assert x != [] ==> x[0] in y;
    assert y != [] ==> y[0] in x;
    if x[0] != y[0] {
      FirstBefore(x, y[0]);
      FirstBefore(y, x[0]);
      assert InvertedAt(x, y, x[0], y[0]);
    } else {
      assert x == [x[0]] + x[1..] && y == [y[0]] + y[1..];
      assert x[0] !in x[1..] && y[0] !in y[1..];
      forall key ensures key in x[1..] <==> key in y[1..] {
        assert key in x[1..] <==> key in x && key != x[0];
        assert key in y[1..] <==> key in y && key != y[0];
      }
      DifferentAreInverted(x[1..], y[1..]);
      var a, b :| InvertedAt(x[1..], y[1..], a, b);
      BeforeTail(x, a, b);
      BeforeTail(y, b, a);
      assert InvertedAt(x, y, a, b);
    }
  }

  lemma DistinctIsAsymmetric(x: seq<string>, a: string, b: string)
    requires Distinct(x) && Before(x, a, b)
    ensures !Before(x, b, a)
  {
  }

  /** Two keys of both catalogs stand in one order in the locale and in the other in English. */
  ghost predicate Swapped(source: Flat, flat: Flat) { Inverted(flat.keys, source.keys) }

  lemma SharedOrder(source: Flat, flat: Flat)
    requires IsFlat(source) && IsFlat(flat)
    ensures Filter(flat.keys, KeySet(source.keys)) != Filter(source.keys, flat.at.Keys) <==> Swapped(source, flat)
  {
    var x, y := Filter(flat.keys, KeySet(source.keys)), Filter(source.keys, flat.at.Keys);
    FilterMembers(flat.keys, KeySet(source.keys));
    FilterMembers(source.keys, flat.at.Keys);
    FilterDistinct(flat.keys, KeySet(source.keys));
    FilterDistinct(source.keys, flat.at.Keys);
    if x != y {
      DifferentAreInverted(x, y);
      var a, b :| InvertedAt(x, y, a, b);
      FilterKeepsOrder(flat.keys, KeySet(source.keys), a, b);
      FilterKeepsOrder(source.keys, flat.at.Keys, b, a);
      assert InvertedAt(flat.keys, source.keys, a, b);
    }
    if Swapped(source, flat) {
      var a, b :| InvertedAt(flat.keys, source.keys, a, b);
      InvertedAreShared(source, flat, a, b);
      FilterKeepsOrder(flat.keys, KeySet(source.keys), a, b);
      FilterKeepsOrder(source.keys, flat.at.Keys, b, a);
      DistinctIsAsymmetric(x, a, b);
    }
  }

  lemma InvertedAreShared(source: Flat, flat: Flat, a: string, b: string)
    requires IsFlat(source) && IsFlat(flat) && InvertedAt(flat.keys, source.keys, a, b)
    ensures a in source.keys && b in source.keys && a in flat.at && b in flat.at
  {
  }

  /** A locale is reported as out of order, by its name and once, exactly when two keys it
      shares with the English catalog are swapped, orphan keys or not. */
  lemma OutOfOrderExactly(source: Flat, locale: string, flat: Flat)
    requires IsFlat(source) && IsFlat(flat)
    ensures var errors := ShapeProblems(source, locale, flat);
      (OutOfOrder(locale) in errors <==> Swapped(source, flat)) && |errors| <= 2 &&
      forall e <- errors :: e.OutOfOrder? ==> e.locale == locale
  {
    SharedOrder(source, flat);
  }

  /** Placeholders are reported for exactly the keys of both catalogs whose texts differ in
      them. */
  lemma {:induction false} MismatchesExactly(source: Flat, keys: seq<string>, locale: string, flat: Flat, extract: string -> seq<string>)
    requires forall key <- keys :: key in source.at
    ensures forall e :: e in KeyProblems(source, keys, locale, flat, extract) <==>
      e.PlaceholderMismatch? && e.locale == locale && e.key in keys && e.key in flat.at &&
      extract(source.at[e.key]) != extract(flat.at[e.key])
  {
    if keys != [] {
      var n := |keys| - 1;
      MismatchesExactly(source, keys[..n], locale, flat, extract);
      assert keys == keys[..n] + [keys[n]];
    }
  }
}
