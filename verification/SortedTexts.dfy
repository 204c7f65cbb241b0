/** Texts sorted by code units, without repetitions: `[...new Set(values)].toSorted(...)`. */
module SortedTexts {
  import opened Selectors

  predicate StrictlySorted(list: seq<string>) { forall i, j :: 0 <= i < j < |list| ==> Less(list[i], list[j]) }

  function Insert(v: string, list: seq<string>): seq<string> {
    if list == [] then [v]
    else if v == list[0] then list
    else if Less(v, list[0]) then [v] + list
    else [list[0]] + Insert(v, list[1..])
  }

  function SortedDistinct(values: seq<string>): seq<string> {
    if values == [] then [] else Insert(values[|values| - 1], SortedDistinct(values[..|values| - 1]))
  }

  lemma {:induction false} InsertMembers(v: string, list: seq<string>)
    ensures forall t :: t in Insert(v, list) <==> t == v || t in list
  {
    if list != [] {
      assert list == [list[0]] + list[1..];
      InsertMembers(v, list[1..]);
    }
  }

  lemma {:induction false} InsertSorted(v: string, list: seq<string>)
    requires StrictlySorted(list)
    ensures StrictlySorted(Insert(v, list))
  {
    if list != [] {
      LessTotal(v, list[0]);
      if Less(v, list[0]) {
        forall j | 1 <= j < |list| ensures Less(v, list[j]) { LessTransitive(v, list[0], list[j]); }
      } else if v != list[0] {
        InsertSorted(v, list[1..]);
        InsertMembers(v, list[1..]);
        var rest := Insert(v, list[1..]);
        forall j | 0 <= j < |rest| ensures Less(list[0], rest[j]) {
          assert rest[j] in rest;
          if rest[j] != v { var k :| 0 <= k < |list[1..]| && list[1..][k] == rest[j]; }
        }
      }
    }
  }

  /** The same texts, in order, once each. */
  lemma {:induction false} SortedDistinctMeans(values: seq<string>)
    ensures StrictlySorted(SortedDistinct(values)) && forall t :: t in SortedDistinct(values) <==> t in values
  {
    if values != [] {
      var n := |values| - 1;
      SortedDistinctMeans(values[..n]);
      InsertSorted(values[n], SortedDistinct(values[..n]));
      InsertMembers(values[n], SortedDistinct(values[..n]));
      assert values == values[..n] + [values[n]];
    }
  }

  lemma FirstIsLeast(a: seq<string>, b: seq<string>)
    requires StrictlySorted(a) && StrictlySorted(b) && a != [] && b != []
    requires forall t :: t in a <==> t in b
    ensures a[0] == b[0]
  {
    assert a[0] in b && b[0] in a;
    var i :| 0 <= i < |b| && b[i] == a[0];
    var j :| 0 <= j < |a| && a[j] == b[0];
    LessTotal(a[0], b[0]);
  }

  /** Only one list holds given texts in order, once each. */
  lemma {:induction false} SortedIsUnique(a: seq<string>, b: seq<string>)
    requires StrictlySorted(a) && StrictlySorted(b) && forall t :: t in a <==> t in b
    ensures a == b
  {
    assert b != [] ==> b[0] in b;
    if a != [] {
      assert a[0] in b;
      FirstIsLeast(a, b);
      assert a == [a[0]] + a[1..] && b == [b[0]] + b[1..];
      LessTotal(a[0], a[0]);
      assert a[0] !in a[1..] && b[0] !in b[1..];
      forall t ensures t in a[1..] <==> t in b[1..] {
        assert t in a[1..] <==> t in a && t != a[0];
        assert t in b[1..] <==> t in b && t != b[0];
      }
      SortedIsUnique(a[1..], b[1..]);
    }
  }

  lemma SortedDistinctIgnoresOrder(a: seq<string>, b: seq<string>)
    requires multiset(a) == multiset(b)
    ensures SortedDistinct(a) == SortedDistinct(b)
  {
    SortedDistinctMeans(a);
    SortedDistinctMeans(b);
    forall t ensures t in a <==> t in b { assert t in multiset(a) <==> t in multiset(b); }
    SortedIsUnique(SortedDistinct(a), SortedDistinct(b));
  }
}
