/** Text primitives shared by every component: replacement, concatenation of
    pieces, and the optional value. Text is `seq<char>`. */
module Text {

  datatype Option<+T> = None | Some(value: T)

  /** JavaScript's `replaceAll` with a string pattern: one leftmost scan over
      non-overlapping matches. */
  function ReplaceAll(s: string, pat: string, rep: string): string
    requires pat != ""
    decreases |s|
  {
    if |s| < |pat| then s
    else if pat <= s then rep + ReplaceAll(s[|pat|..], pat, rep)
    else [s[0]] + ReplaceAll(s[1..], pat, rep)
  }

  ghost predicate Contains(s: string, pat: string) {
    exists i :: OccursAt(s, pat, i)
  }

  ghost predicate OccursAt(s: string, pat: string, i: int) {
    0 <= i <= |s| && pat <= s[i..]
  }

  /** No match of `pat` begins inside `u` and reaches past its end in `u + v`. */
  ghost predicate CleanSeam(u: string, v: string, pat: string) {
    forall i :: 0 <= i < |u| < i + |pat| ==> !(pat <= (u + v)[i..])
  }

  lemma {:induction false} ReplaceConcat(u: string, v: string, pat: string, rep: string)
    requires pat != "" && CleanSeam(u, v, pat)
    ensures ReplaceAll(u + v, pat, rep) == ReplaceAll(u, pat, rep) + ReplaceAll(v, pat, rep)
    decreases |u|
  {
    if u == "" {
      assert u + v == v;
    } else {
      var n := if pat <= u then |pat| else 1;
      assert (u + v)[n..] == u[n..] + v;
      CleanTail(u, v, pat, n);
      ReplaceConcat(u[n..], v, pat, rep);
      if pat <= u {
        assert pat <= u + v;
      } else {
        assert (u + v)[0..] == u + v;
        assert |u| >= |pat| ==> (u + v)[..|pat|] == u[..|pat|];
        assert !(pat <= u + v);
        assert (u + v)[0] == u[0];
      }
    }
  }

  lemma CleanTail(u: string, v: string, pat: string, n: nat)
    requires CleanSeam(u, v, pat) && n <= |u|
    ensures CleanSeam(u[n..], v, pat)
  {
    forall i | 0 <= i < |u[n..]| < i + |pat|
      ensures !(pat <= (u[n..] + v)[i..])
    {
      assert (u[n..] + v)[i..] == (u + v)[i + n..];
    }
  }

  /** A one-character pattern is replaced character by character, so it distributes
      over every concatenation. */
  lemma ReplaceCharConcat(u: string, v: string, c: char, rep: string)
    ensures ReplaceAll(u + v, [c], rep) == ReplaceAll(u, [c], rep) + ReplaceAll(v, [c], rep)
  {
    ReplaceConcat(u, v, [c], rep);
  }

  lemma {:induction false} ReplaceAbsent(s: string, pat: string, rep: string)
    requires pat != "" && pat[0] !in s
    ensures ReplaceAll(s, pat, rep) == s
  {
    if s != "" {
      ReplaceAbsent(s[1..], pat, rep);
    }
  }

  lemma ReplaceWhole(pat: string, rep: string)
    requires pat != ""
    ensures ReplaceAll(pat, pat, rep) == rep
  {
    assert pat[|pat|..] == "";
  }

  lemma {:induction false} ReplaceMissing(s: string, pat: string, rep: string)
    requires |pat| >= 2
    requires forall i :: 0 <= i < |s| - 1 && s[i] == pat[0] ==> s[i + 1] != pat[1]
    ensures ReplaceAll(s, pat, rep) == s
  {
    if s != "" {
      assert |pat| <= |s| ==> s[..|pat|][0] == s[0] && s[..|pat|][1] == s[1];
      ReplaceMissing(s[1..], pat, rep);
    }
  }

  /** Replacing by a different text of the same length is the identity exactly on
      the texts that do not contain the pattern. */
  lemma {:induction false} ReplaceIdentity(s: string, pat: string, rep: string)
    requires pat != "" && |pat| == |rep| && pat != rep
    ensures |ReplaceAll(s, pat, rep)| == |s|
    ensures ReplaceAll(s, pat, rep) == s <==> !Contains(s, pat)
    decreases |s|
  {
    if |s| < |pat| {
    } else if pat <= s {
      ReplaceIdentity(s[|pat|..], pat, rep);
      assert OccursAt(s, pat, 0);
      assert ReplaceAll(s, pat, rep)[..|pat|] == rep;
      assert s[..|pat|] == pat;
    } else {
      ReplaceIdentity(s[1..], pat, rep);
      var r := ReplaceAll(s[1..], pat, rep);
      assert s == [s[0]] + s[1..];
      assert r == ([s[0]] + r)[1..];
      forall i ensures OccursAt(s[1..], pat, i) <==> i >= 0 && OccursAt(s, pat, i + 1) {
        if 0 <= i < |s| { assert s[1..][i..] == s[i + 1..]; }
      }
      if i :| OccursAt(s, pat, i) {
        assert s[0..] == s;
        assert OccursAt(s[1..], pat, i - 1);
      }
    }
  }

  /** The concatenation of `f` over the pieces. */
  function Flat(f: string -> string, pieces: seq<string>): string {
    if pieces == [] then "" else f(pieces[0]) + Flat(f, pieces[1..])
  }

  lemma {:induction false} FlatCong(f: string -> string, g: string -> string, pieces: seq<string>)
    requires forall u <- pieces :: f(u) == g(u)
    ensures Flat(f, pieces) == Flat(g, pieces)
  {
    if pieces != [] {
      FlatCong(f, g, pieces[1..]);
    }
  }

  /** The pieces' renderer after one more replacement pass. */
  function Then(f: string -> string, pat: string, rep: string): string -> string
    requires pat != ""
  {
    u => ReplaceAll(f(u), pat, rep)
  }

  /** A pass over one short piece: the piece is the pattern, or cannot match. */
  lemma PassOverPiece(f: string -> string, g: string -> string, pat: string, rep: string, u: string)
    requires pat != ""
    requires if f(u) == pat then g(u) == rep else g(u) == f(u) && CannotMatch(f(u), pat)
    ensures Then(f, pat, rep)(u) == g(u)
  {
    if f(u) == pat {
      ReplaceWhole(pat, rep);
    } else if pat[0] !in f(u) {
      ReplaceAbsent(f(u), pat, rep);
    } else {
      ReplaceMissing(f(u), pat, rep);
    }
  }

  predicate CannotMatch(s: string, pat: string)
    requires pat != ""
  {
    pat[0] !in s || (|pat| >= 2 && forall i :: 0 <= i < |s| - 1 && s[i] == pat[0] ==> s[i + 1] != pat[1])
  }

  /** One replacement pass over a text that is a concatenation of pieces acts piece
      by piece when each piece is the pattern itself or has a clean seam with what follows. */
  lemma {:induction false} PassOverPieces(f: string -> string, pieces: seq<string>, pat: string, rep: string)
    requires pat != ""
    requires forall i :: 0 <= i < |pieces| ==> SeamOk(f, pieces, i, pat)
    ensures ReplaceAll(Flat(f, pieces), pat, rep) == Flat(Then(f, pat, rep), pieces)
  {
    if pieces != [] {
      var u, rest := f(pieces[0]), Flat(f, pieces[1..]);
      assert SeamOk(f, pieces, 0, pat);
      forall i | 0 <= i < |pieces[1..]|
        ensures SeamOk(f, pieces[1..], i, pat)
      {
        assert SeamOk(f, pieces, i + 1, pat);
        assert pieces[i + 1 + 1..] == pieces[1..][i + 1..];
      }
      PassOverPieces(f, pieces[1..], pat, rep);
      if u == pat {
        assert (u + rest)[|pat|..] == rest;
        assert u[|pat|..] == "";
        assert pat <= u + rest;
        assert ReplaceAll(u, pat, rep) == rep + "" == rep;
      } else {
        ReplaceConcat(u, rest, pat, rep);
      }
    }
  }

  ghost predicate SeamOk(f: string -> string, pieces: seq<string>, i: int, pat: string)
    requires 0 <= i < |pieces|
  {
    f(pieces[i]) == pat || CleanSeam(f(pieces[i]), Flat(f, pieces[i + 1..]), pat)
  }

  /** The characters that JavaScript's `trim` removes: white space and line terminators. */
  predicate IsSpace(c: char) {
    c == '\t' || c == '\n' || c == '\U{0B}' || c == '\U{0C}' || c == '\r' || c == ' ' || c == '\U{A0}' ||
    c == '\U{1680}' || '\U{2000}' <= c <= '\U{200A}' || c == '\U{2028}' || c == '\U{2029}' || c == '\U{202F}' ||
    c == '\U{205F}' || c == '\U{3000}' || c == '\U{FEFF}'
  }

  predicate IsBlank(s: string) { forall c <- s :: IsSpace(c) }

  lemma SliceOfSlice<T>(s: seq<T>, a: nat, d: nat, x: nat, y: nat)
    requires x <= y && a + y <= d <= |s|
    ensures s[a..d][x..y] == s[a + x..a + y]
  {
    var u := s[a..d];
    forall k | 0 <= k < y - x ensures u[x..y][k] == s[a + x..a + y][k] {
      assert u[x..y][k] == u[x + k] == s[a + x + k];
    }
  }

  function TrimStart(s: string): string {
    if s != "" && IsSpace(s[0]) then TrimStart(s[1..]) else s
  }

  function TrimEnd(s: string): string {
    if s != "" && IsSpace(s[|s| - 1]) then TrimEnd(s[..|s| - 1]) else s
  }

  function Trim(s: string): string { TrimEnd(TrimStart(s)) }

  /** Trimming leaves nothing exactly of blank text. */
  lemma {:induction false} TrimIsEmpty(s: string)
    ensures Trim(s) == "" <==> IsBlank(s)
  {
    TrimStartIsEmpty(s);
    if TrimStart(s) != "" { TrimEndKeeps(TrimStart(s)); }
  }

  lemma {:induction false} TrimStartIsEmpty(s: string)
    ensures TrimStart(s) == "" <==> IsBlank(s)
    ensures TrimStart(s) != "" ==> !IsSpace(TrimStart(s)[0])
  {
    if s != "" {
      assert s == [s[0]] + s[1..];
      TrimStartIsEmpty(s[1..]);
    }
  }

  lemma {:induction false} TrimEndKeeps(s: string)
    requires s != "" && !IsSpace(s[0])
    ensures TrimEnd(s) != ""
  {
    if IsSpace(s[|s| - 1]) { TrimEndKeeps(s[..|s| - 1]); }
  }

  // ----- separators

  /** JavaScript's `split` on a one-character separator. */
  function Split(s: string, sep: char): (parts: seq<string>)
    ensures parts != []
  {
    if s == "" then [""]
    else
      var rest := Split(s[1..], sep);
      if s[0] == sep then [""] + rest else [[s[0]] + rest[0]] + rest[1..]
  }

  function Join(parts: seq<string>, sep: char): string {
    if parts == [] then ""
    else if |parts| == 1 then parts[0]
    else parts[0] + [sep] + Join(parts[1..], sep)
  }

  lemma {:induction false} JoinSplit(s: string, sep: char)
    ensures Join(Split(s, sep), sep) == s
    ensures forall part <- Split(s, sep) :: sep !in part
  {
    if s != "" {
      JoinSplit(s[1..], sep);
      var rest, parts := Split(s[1..], sep), Split(s, sep);
      if s[0] == sep {
        assert parts[1..] == rest;
      } else {
        assert parts[1..] == rest[1..];
        assert rest == [rest[0]] + rest[1..];
      }
    }
  }

  lemma {:induction false} SplitJoin(parts: seq<string>, sep: char)
    requires parts != [] && forall part <- parts :: sep !in part
    ensures Split(Join(parts, sep), sep) == parts
    decreases |parts|, |parts[0]|
  {
    var s := Join(parts, sep);
    assert parts == [parts[0]] + parts[1..];
    if parts[0] == "" {
      if |parts| > 1 {
        assert s[1..] == Join(parts[1..], sep);
        SplitJoin(parts[1..], sep);
      }
    } else {
      var shorter := [parts[0][1..]] + parts[1..];
      assert shorter[1..] == parts[1..];
      assert parts[0] in parts && parts[0][0] in parts[0];
      assert s[1..] == Join(shorter, sep);
      forall part <- shorter ensures sep !in part {
        if part in parts[1..] { assert part in parts; }
      }
      SplitJoin(shorter, sep);
      assert [parts[0][0]] + parts[0][1..] == parts[0];
    }
  }

  /** The chunks of a stream put together, oldest first. */
  function Concat(chunks: seq<string>): string {
    if chunks == [] then "" else Concat(chunks[..|chunks| - 1]) + chunks[|chunks| - 1]
  }

  /** All parts put together, in order. */
  function Flatten<T>(parts: seq<seq<T>>): seq<T> {
    if parts == [] then [] else Flatten(parts[..|parts| - 1]) + parts[|parts| - 1]
  }

  lemma FlattenAppend<T>(parts: seq<seq<T>>, part: seq<T>)
    ensures Flatten(parts + [part]) == Flatten(parts) + part
  {
    assert (parts + [part])[..|parts|] == parts;
  }

  lemma {:induction false} FlattenPrepend<T>(part: seq<T>, parts: seq<seq<T>>)
    ensures Flatten([part] + parts) == part + Flatten(parts)
  {
    var all := [part] + parts;
    if parts != [] {
      var n := |parts| - 1;
      assert all[..|all| - 1] == [part] + parts[..n];
      FlattenPrepend(part, parts[..n]);
    } else {
      assert all[..0] == [] && Flatten<T>([]) == [];
    }
  }

  /** Where a printed argument list stands between its parentheses. */
  lemma PrintedLayout(before: string, text: string, suffix: string)
    ensures var source, i := before + "(" + text + ")" + suffix, |before| + 1;
      i + |text| < |source| && source[i - 1] == '(' && source[i..i + |text|] == text && source[i + |text|] == ')'
  {
    var source, i := before + "(" + text + ")" + suffix, |before| + 1;
    assert source == (before + "(") + (text + (")" + suffix));
    assert source[i..] == text + (")" + suffix);
    assert source[i..][..|text|] == text;
  }
}
