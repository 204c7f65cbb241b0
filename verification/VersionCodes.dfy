/** Mobile release versions, Android version codes and ref names
    (scripts/mobile-release-ref.ts, validateVersion to mobileReleaseRefFor). */
module VersionCodes {
  import opened Text
  import opened Decimals

  /** A numeral without a leading zero. */
  predicate IsPositiveInteger(s: string) { IsNumeral(s) && s[0] != '0' }

  predicate IsYear(s: string) { |s| == 4 && IsNumeral(s) && s[..2] == "20" }

  /** `YYYY.M.D`: a year from 20, a month of one or two digits, a patch of any length. */
  predicate IsVersionParts(parts: seq<string>) {
    |parts| == 3 && IsYear(parts[0]) && IsPositiveInteger(parts[1]) && |parts[1]| <= 2 && IsPositiveInteger(parts[2])
  }

  predicate IsVersion(version: string) { IsVersionParts(Split(version, '.')) }

  function ValidateVersion(version: string): Option<string> {
    if IsVersion(Trim(version)) then Some(Trim(version)) else None
  }

  function ValidatePositiveInteger(value: Option<string>): Option<string> {
    var trimmed := if value.Some? then Trim(value.value) else "";
    if IsPositiveInteger(trimmed) then Some(trimmed) else None
  }

  function Pad2(s: string): string
    requires s != ""
  {
    if |s| == 1 then "0" + s else s
  }

  function Prefix(version: string): string
    requires IsVersion(version)
  {
    var parts := Split(version, '.');
    parts[0] + Pad2(parts[1]) + Pad2(parts[2])
  }

  function ValidateAndroidVersionCode(version: string, versionCode: Option<string>): Option<string>
    requires IsVersion(version)
  {
    var code := ValidatePositiveInteger(versionCode);
    if code.None? then None
    else
      var prefix := Prefix(version);
      if !(prefix <= code.value) || |code.value| != |prefix| + 2 then None
      else
        var suffix := ValueOf(code.value[|prefix|..]);
        if suffix < 1 || suffix > 99 then None else code
  }

  /** The trimmed code is accepted for the version. */
  predicate Accepts(version: string, code: string)
    requires IsVersion(version)
  {
    ValidateAndroidVersionCode(version, Some(code)) == Some(code)
  }

  const REF_PREFIX := "refs/openclaw/mobile-releases"

  datatype Platform = Ios | Android

  function MobileReleaseRefFor(platform: Platform, version: string, build: Option<string>, versionCode: Option<string>): Option<string> {
    var v := ValidateVersion(version);
    if v.None? then None
    else
      match platform
      case Ios =>
        var b := ValidatePositiveInteger(build);
        if b.None? then None else Some(REF_PREFIX + "/ios/" + v.value + "-" + b.value)
      case Android =>
        var c := ValidateAndroidVersionCode(v.value, versionCode);
        if c.None? then None else Some(REF_PREFIX + "/android/" + v.value + "-" + c.value)
  }

  // ----- the codes of one version

  function TwoDigits(k: nat): string
    requires k < 100
  {
    [Digit(k / 10), Digit(k % 10)]
  }

  lemma TwoDigitsValue(k: nat)
    requires k < 100
    ensures IsNumeral(TwoDigits(k)) && ValueOf(TwoDigits(k)) == k
  {
    var a, b := Digit(k / 10), Digit(k % 10);
    assert TwoDigits(k) == [a] + [b] && Pow10(1) == 10;
    ValueOfConcat([a], [b]);
    ValueOfOne(a);
    ValueOfOne(b);
  }

  lemma TwoDigitsComplete(s: string)
    requires |s| == 2 && IsNumeral(s)
    ensures ValueOf(s) < 100 && s == TwoDigits(ValueOf(s))
  {
    assert s[0] in s && s[1] in s;
    assert s == [s[0]] + [s[1]] && Pow10(1) == 10;
    ValueOfConcat([s[0]], [s[1]]);
    ValueOfOne(s[0]);
    ValueOfOne(s[1]);
    var k := 10 * DigitValue(s[0]) + DigitValue(s[1]);
    assert k / 10 == DigitValue(s[0]) && k % 10 == DigitValue(s[1]);
  }

  lemma PrefixShape(version: string)
    requires IsVersion(version)
    ensures var parts := Split(version, '.');
      Pad2(parts[1]) != "" && |Pad2(parts[1])| == 2 && |Pad2(parts[2])| >= 2 && |Prefix(version)| >= 8 &&
      Prefix(version)[..4] == parts[0] && Prefix(version)[4..6] == Pad2(parts[1]) && Prefix(version)[6..] == Pad2(parts[2])
  {
  }

  lemma PrefixIsNumeral(version: string)
    requires IsVersion(version)
    ensures IsNumeral(Prefix(version)) && Prefix(version)[0] == '2'
  {
    var parts := Split(version, '.');
    assert parts[0][0] == parts[0][..2][0];
    forall c <- Prefix(version) ensures IsDigit(c) {
      assert c in parts[0] || c == '0' || c in parts[1] || c in parts[2];
    }
  }

  /** Exactly the codes prefix01 to prefix99 are accepted. */
  lemma AcceptsExactly(version: string, code: string)
    requires IsVersion(version) && Trim(code) == code
    ensures Accepts(version, code) <==> exists k :: 1 <= k <= 99 && code == Prefix(version) + TwoDigits(k)
  {
    var prefix := Prefix(version);
    PrefixIsNumeral(version);
    if Accepts(version, code) {
      var tail := code[|prefix|..];
      assert forall c <- tail :: c in code;
      TwoDigitsComplete(tail);
      assert code == prefix + TwoDigits(ValueOf(tail));
    }
    if k :| 1 <= k <= 99 && code == prefix + TwoDigits(k) {
      TwoDigitsValue(k);
      assert code[|prefix|..] == TwoDigits(k) && code[0] == prefix[0];
      assert IsNumeral(code);
    }
  }

  function Codes(version: string, n: nat): set<string>
    requires IsVersion(version) && n <= 99
  {
    set k | 1 <= k <= n :: Prefix(version) + TwoDigits(k)
  }

  /** They are 99 different codes. */
  lemma {:induction false} CodesCount(version: string, n: nat)
    requires IsVersion(version) && n <= 99
    ensures |Codes(version, n)| == n
  {
    if n > 0 {
      var code := Prefix(version) + TwoDigits(n);
      CodesCount(version, n - 1);
      forall k | 1 <= k < n ensures Prefix(version) + TwoDigits(k) != code {
        TwoDigitsValue(k);
        TwoDigitsValue(n);
        assert code[|Prefix(version)|..] == TwoDigits(n);
        assert (Prefix(version) + TwoDigits(k))[|Prefix(version)|..] == TwoDigits(k);
      }
      assert Codes(version, n) == Codes(version, n - 1) + {code};
    }
  }

  lemma Pad2Injective(a: string, b: string)
    requires IsPositiveInteger(a) && IsPositiveInteger(b) && Pad2(a) == Pad2(b)
    ensures a == b
  {
    if |a| == 1 { assert Pad2(a)[1..] == a; }
    if |b| == 1 { assert Pad2(b)[1..] == b; }
  }

  /** A code belongs to at most one version, however long the patch is. */
  lemma CodeDeterminesVersion(v: string, w: string, code: string)
    requires IsVersion(v) && IsVersion(w) && Accepts(v, code) && Accepts(w, code)
    ensures v == w
  {
    var p, q := Split(v, '.'), Split(w, '.');
    var n := |code| - 2;
    assert Prefix(v) == code[..n] == Prefix(w);
    PrefixShape(v);
    PrefixShape(w);
    Pad2Injective(p[1], q[1]);
    Pad2Injective(p[2], q[2]);
    assert p == [p[0], p[1], p[2]] && q == [q[0], q[1], q[2]];
    JoinSplit(v, '.');
    JoinSplit(w, '.');
  }

  // ----- the order of codes

  /** Year, month, patch and suffix of a code of a version. */
  datatype Release = Release(year: nat, month: nat, patch: nat, suffix: nat)

  function ReleaseOf(version: string, k: nat): Release
    requires IsVersion(version)
  {
    var parts := Split(version, '.');
    Release(ValueOf(parts[0]), ValueOf(parts[1]), ValueOf(parts[2]), k)
  }

  function Code(version: string, k: nat): (code: string)
    requires IsVersion(version) && k < 100
    ensures IsNumeral(code)
  {
    PrefixIsNumeral(version);
    TwoDigitsValue(k);
    Prefix(version) + TwoDigits(k)
  }

  predicate EarlierMonth(a: Release, b: Release) {
    a.year < b.year || (a.year == b.year && a.month < b.month)
  }

  /** Lexicographic order of (year, month, patch, suffix). */
  predicate Earlier(a: Release, b: Release) {
    EarlierMonth(a, b) ||
    (a.year == b.year && a.month == b.month && (a.patch < b.patch || (a.patch == b.patch && a.suffix < b.suffix)))
  }

  /** Digits the patch takes up in a code. */
  function PatchWidth(version: string): nat
    requires IsVersion(version)
  {
    |Pad2(Split(version, '.')[2])|
  }

  lemma PadValue(s: string)
    requires IsNumeral(s)
    ensures IsNumeral(Pad2(s)) && ValueOf(Pad2(s)) == ValueOf(s)
  {
    if |s| == 1 {
      ValueOfConcat("0", s);
      ValueOfOne('0');
    }
  }

  lemma CodeValue(version: string, k: nat)
    requires IsVersion(version) && k < 100
    ensures var r := ReleaseOf(version, k);
      ValueOf(Code(version, k)) == (((r.year * 100 + r.month) * Pow10(PatchWidth(version)) + r.patch) * 100 + k) &&
      r.month < 100 && r.patch < Pow10(PatchWidth(version)) && PatchWidth(version) >= 2
  {
    var parts := Split(version, '.');
    var m, p := Pad2(parts[1]), Pad2(parts[2]);
    PadValue(parts[1]);
    PadValue(parts[2]);
    ValueBelow(m);
    ValueBelow(p);
    assert Pow10(1) == 10 && Pow10(2) == 100;
    PrefixIsNumeral(version);
    assert Prefix(version) == parts[0] + m + p;
    ValueOfConcat(Prefix(version), TwoDigits(k)) by { var c := Code(version, k); }
    ValueOfConcat(parts[0] + m, p);
    ValueOfConcat(parts[0], m) by { assert forall c <- parts[0] + m :: c in Prefix(version); }
    TwoDigitsValue(k);
  }

  /** Codes whose patches take up equally many digits, in particular all codes of versions
      with patches below 100, are ordered as numbers exactly as their releases are. */
  lemma SameWidthOrder(v: string, i: nat, w: string, j: nat)
    requires IsVersion(v) && IsVersion(w) && i < 100 && j < 100 && PatchWidth(v) == PatchWidth(w)
    ensures ValueOf(Code(v, i)) < ValueOf(Code(w, j)) <==> Earlier(ReleaseOf(v, i), ReleaseOf(w, j))
  {
    CodeValue(v, i);
    CodeValue(w, j);
    var a, b, n := ReleaseOf(v, i), ReleaseOf(w, j), Pow10(PatchWidth(v));
    Positional(a.year * 100 + a.month, a.patch, b.year * 100 + b.month, b.patch, n);
  }

  lemma HighPartDecides(h1: nat, l1: nat, h2: nat, l2: nat, n: nat)
    requires l1 < n && l2 < n && h1 < h2
    ensures h1 * n + l1 < h2 * n + l2
  {
    TimesGrows(h1 + 1, h2, n);
    assert (h1 + 1) * n == h1 * n + n;
  }

  lemma {:induction false} TimesGrows(a: nat, b: nat, n: nat)
    requires a <= b
    ensures a * n <= b * n
    decreases b
  {
    if a < b {
      TimesGrows(a, b - 1, n);
      assert b * n == (b - 1) * n + n;
    }
  }

  /** Comparing `high * n + low` with `low < n` compares high parts first. */
  lemma Positional(h1: nat, l1: nat, h2: nat, l2: nat, n: nat)
    requires l1 < n && l2 < n
    ensures h1 * n + l1 < h2 * n + l2 <==> h1 < h2 || (h1 == h2 && l1 < l2)
    ensures h1 * n + l1 == h2 * n + l2 <==> h1 == h2 && l1 == l2
  {
    if h1 < h2 {
      HighPartDecides(h1, l1, h2, l2, n);
    } else if h2 < h1 {
      HighPartDecides(h2, l2, h1, l1, n);
    }
  }

  /** The longer code is the larger number. */
  lemma WiderIsLarger(v: string, i: nat, w: string, j: nat)
    requires IsVersion(v) && IsVersion(w) && i < 100 && j < 100 && PatchWidth(v) < PatchWidth(w)
    ensures ValueOf(Code(v, i)) < ValueOf(Code(w, j))
  {
    PrefixShape(v);
    PrefixShape(w);
    ValueBelow(Code(v, i));
    PrefixIsNumeral(w);
    LeadingDigit(Code(w, j));
    Pow10Grows(|Code(v, i)|, |Code(w, j)| - 1);
  }

  lemma {:induction false} Pow10Grows(a: nat, b: nat)
    requires a <= b
    ensures Pow10(a) <= Pow10(b)
    decreases b
  {
    if a < b { Pow10Grows(a, b - 1); }
  }

  lemma LeadingDigit(s: string)
    requires IsPositiveInteger(s)
    ensures ValueOf(s) >= Pow10(|s| - 1)
  {
    assert s == s[..1] + s[1..] && s[..1] == [s[0]] && s[0] in s;
    ValueOfConcat(s[..1], s[1..]);
    ValueOfOne(s[0]);
    AtLeastOnce(DigitValue(s[0]), Pow10(|s| - 1));
  }

  lemma AtLeastOnce(d: nat, p: nat)
    requires d >= 1
    ensures d * p >= p
  {
  }

  /** For patches of different widths numeric order agrees with release order exactly when
      the version with the wider patch is not from an earlier month. */
  lemma MixedWidthOrder(v: string, i: nat, w: string, j: nat)
    requires IsVersion(v) && IsVersion(w) && i < 100 && j < 100 && PatchWidth(v) < PatchWidth(w)
    ensures (ValueOf(Code(v, i)) < ValueOf(Code(w, j)) <==> Earlier(ReleaseOf(v, i), ReleaseOf(w, j)))
       <==> !EarlierMonth(ReleaseOf(w, j), ReleaseOf(v, i))
  {
    WiderIsLarger(v, i, w, j);
    CodeValue(v, i);
    var q := Split(w, '.')[2];
    assert Pad2(q) == q;
    LeadingDigit(q);
    Pow10Grows(PatchWidth(v), |q| - 1);
  }

  lemma SampleVersion(year: string, month: string, patch: string)
    requires IsVersionParts([year, month, patch])
    ensures Split(year + "." + month + "." + patch, '.') == [year, month, patch]
  {
    var parts := [year, month, patch];
    assert parts[1..][1..] == [patch] && parts[1..] == [month, patch];
    assert Join(parts[1..], '.') == month + ['.'] + patch;
    assert year + "." + month + "." + patch == year + ['.'] + (month + ['.'] + patch);
    forall part <- parts ensures '.' !in part { assert !IsDigit('.'); }
    SplitJoin(parts, '.');
  }

  /** January's patch 100 has a larger code than the first release of February. */
  lemma WidePatchOvertakesNextMonth()
    ensures var january, february := "2026" + "." + "1" + "." + "100", "2026" + "." + "2" + "." + "1";
      IsVersion(january) && IsVersion(february) &&
      Earlier(ReleaseOf(january, 1), ReleaseOf(february, 1)) &&
      ValueOf(Code(february, 1)) < ValueOf(Code(january, 1))
  {
    var january, february := "2026" + "." + "1" + "." + "100", "2026" + "." + "2" + "." + "1";
    SampleVersion("2026", "1", "100");
    SampleVersion("2026", "2", "1");
    ValueOfOne('1');
    ValueOfOne('2');
    WiderIsLarger(february, 1, january, 1);
  }

  // ----- ref names

  /** What identifies a release: platform, trimmed version, trimmed build or code. */
  function Identity(platform: Platform, version: string, build: Option<string>, versionCode: Option<string>): (Platform, string, Option<string>) {
    (platform, Trim(version), ValidatePositiveInteger(if platform == Ios then build else versionCode))
  }

  function IndexOfDash(s: string): nat {
    if s == "" || s[0] == '-' then 0 else 1 + IndexOfDash(s[1..])
  }

  lemma {:induction false} FirstDash(a: string, b: string)
    requires '-' !in a
    ensures IndexOfDash(a + "-" + b) == |a|
  {
    var s := a + "-" + b;
    if a == "" {
      assert s[0] == '-';
    } else {
      assert s[0] == a[0] && s[1..] == a[1..] + "-" + b;
      FirstDash(a[1..], b);
    }
  }

  lemma DashSplit(a: string, b: string, c: string, d: string)
    requires '-' !in a && '-' !in c && a + "-" + b == c + "-" + d
    ensures a == c && b == d
  {
    FirstDash(a, b);
    FirstDash(c, d);
    var s := a + "-" + b;
    assert a == s[..|a|] == c && b == s[|a| + 1..] == d;
  }

  lemma VersionHasNoDash(version: string)
    requires IsVersion(version)
    ensures '-' !in version
  {
    var parts := Split(version, '.');
    JoinSplit(version, '.');
    assert parts[1..][1..] == [parts[2]];
    assert Join(parts[1..], '.') == parts[1] + ['.'] + parts[2];
    assert version == parts[0] + ['.'] + (parts[1] + ['.'] + parts[2]);
    assert !IsDigit('-') && '-' !in parts[0] && '-' !in parts[1] && '-' !in parts[2];
  }

  /** The part of a ref name that depends on the version and the number. */
  lemma RefNameShape(p: Platform, v: string, b: Option<string>, c: Option<string>)
    requires MobileReleaseRefFor(p, v, b, c).Some?
    ensures var id := Identity(p, v, b, c);
      id.2.Some? && '-' !in Trim(v) &&
      MobileReleaseRefFor(p, v, b, c).value
        == (REF_PREFIX + (if p == Ios then "/ios/" else "/android/")) + (Trim(v) + "-" + id.2.value)
  {
    VersionHasNoDash(Trim(v));
  }

  lemma NumeralIsTrimmed(s: string)
    requires IsNumeral(s)
    ensures Trim(s) == s
  {
    assert s[0] in s && s[|s| - 1] in s;
  }

  /** A code, however padded with blanks, is valid exactly if without them it is the version's
      prefix followed by 01 to 99. */
  lemma CodeValidExactly(version: string, versionCode: Option<string>)
    requires IsVersion(version)
    ensures ValidateAndroidVersionCode(version, versionCode).Some? <==>
      versionCode.Some? && exists k :: 1 <= k <= 99 && Trim(versionCode.value) == Prefix(version) + TwoDigits(k)
  {
    if versionCode.Some? {
      var code := Trim(versionCode.value);
      if k :| 1 <= k <= 99 && code == Prefix(version) + TwoDigits(k) {
        PrefixIsNumeral(version);
        TwoDigitsValue(k);
        assert IsPositiveInteger(code);
      }
      if IsPositiveInteger(code) {
        NumeralIsTrimmed(code);
        AcceptsExactly(version, code);
        assert ValidateAndroidVersionCode(version, versionCode) == ValidateAndroidVersionCode(version, Some(code));
      }
    }
  }

  ghost predicate IsNumbered(p: Platform, version: string, b: Option<string>, c: Option<string>)
    requires IsVersion(version)
  {
    if p == Ios then b.Some? && IsPositiveInteger(Trim(b.value))
    else c.Some? && exists k :: 1 <= k <= 99 && Trim(c.value) == Prefix(version) + TwoDigits(k)
  }

  /** A ref has a name exactly if the version is valid and so is the build or the code. */
  lemma RefNameGivenWhen(p: Platform, v: string, b: Option<string>, c: Option<string>)
    ensures MobileReleaseRefFor(p, v, b, c).Some? <==> IsVersion(Trim(v)) && IsNumbered(p, Trim(v), b, c)
  {
    assert !IsPositiveInteger("");
    if IsVersion(Trim(v)) { CodeValidExactly(Trim(v), c); }
  }

  /** Valid inputs with the same ref name are the same release. */
  lemma RefNamesAreInjective(p: Platform, v: string, b: Option<string>, c: Option<string>,
                             p': Platform, v': string, b': Option<string>, c': Option<string>)
    requires MobileReleaseRefFor(p, v, b, c).Some?
    requires MobileReleaseRefFor(p, v, b, c) == MobileReleaseRefFor(p', v', b', c')
    ensures Identity(p, v, b, c) == Identity(p', v', b', c')
  {
    RefNameShape(p, v, b, c);
    RefNameShape(p', v', b', c');
    var tail := Trim(v) + "-" + Identity(p, v, b, c).2.value;
    var tail' := Trim(v') + "-" + Identity(p', v', b', c').2.value;
    SamePlatform(p, tail, p', tail');
    DashSplit(Trim(v), Identity(p, v, b, c).2.value, Trim(v'), Identity(p', v', b', c').2.value);
  }

  lemma SamePlatform(p: Platform, tail: string, p': Platform, tail': string)
    requires (REF_PREFIX + (if p == Ios then "/ios/" else "/android/")) + tail
          == (REF_PREFIX + (if p' == Ios then "/ios/" else "/android/")) + tail'
    ensures p == p' && tail == tail'
  {
    var head := REF_PREFIX + (if p == Ios then "/ios/" else "/android/");
    var head' := REF_PREFIX + (if p' == Ios then "/ios/" else "/android/");
    assert (head + tail)[|REF_PREFIX| + 1] == (if p == Ios then 'i' else 'a');
    assert (head' + tail')[|REF_PREFIX| + 1] == (if p' == Ios then 'i' else 'a');
    assert (head + tail)[|head|..] == tail && (head' + tail')[|head'|..] == tail';
  }
}
