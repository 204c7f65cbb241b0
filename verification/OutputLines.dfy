/** Splitting a stream into lines chunk by chunk (scripts/bench-gateway-restart.ts,
    collectOutputLines, onChunk and flushOutputLineBuffers). */
module OutputLines {
  import opened Text

  /** JavaScript's `split(/\r?\n/)`. */
  function SplitLines(s: string): (parts: seq<string>)
    ensures parts != []
  {
    if s == "" then [""]
    else if "\r\n" <= s then [""] + SplitLines(s[2..])
    else if s[0] == '\n' then [""] + SplitLines(s[1..])
    else Glue(s[0], SplitLines(s[1..]))
  }

  /** Put a character in front of the first part. */
  function Glue(c: char, parts: seq<string>): (glued: seq<string>)
    requires parts != []
    ensures |glued| == |parts|
  {
    [[c] + parts[0]] + parts[1..]
  }

  datatype Collected = Collected(carry: string, lines: seq<string>)

  function CollectOutputLines(carry: string, chunk: string): Collected {
    var parts := SplitLines(carry + chunk);
    Collected(parts[|parts| - 1], parts[..|parts| - 1])
  }

  // ----- the lines of a text

  function DropReturn(line: string): string {
    if line != "" && line[|line| - 1] == '\r' then line[..|line| - 1] else line
  }

  function DropReturns(parts: seq<string>): (lines: seq<string>)
    requires parts != []
    ensures |lines| == |parts|
  {
    var n := |parts| - 1;
    seq(n, i requires 0 <= i < n => DropReturn(parts[i])) + [parts[n]]
  }

  /** The lines are found by cutting at line feeds and dropping one carriage return before
      each. */
  lemma {:induction false} LinesByFeed(s: string)
    ensures SplitLines(s) == DropReturns(Split(s, '\n'))
    decreases |s|
  {
    if s == "" {
    } else if "\r\n" <= s {
      LinesByFeed(s[2..]);
      SplitCrLf(s);
      DropReturnsCons("\r", Split(s[2..], '\n'));
    } else if s[0] == '\n' {
      LinesByFeed(s[1..]);
      DropReturnsCons("", Split(s[1..], '\n'));
    } else {
      LinesByFeed(s[1..]);
      DropReturnsGlue(s);
    }
  }

  lemma SplitCrLf(s: string)
    requires "\r\n" <= s
    ensures Split(s, '\n') == ["\r"] + Split(s[2..], '\n')
  {
    assert s[..2] == "\r\n" && s[0] == '\r' && s[1] == '\n';
    assert s[1..][0] == '\n' && s[1..][1..] == s[2..];
    assert Split(s[1..], '\n') == [""] + Split(s[2..], '\n');
    assert ([""] + Split(s[2..], '\n'))[1..] == Split(s[2..], '\n');
    assert [s[0]] + "" == "\r";
  }

  lemma DropReturnsCons(head: string, parts: seq<string>)
    requires parts != []
    ensures DropReturns([head] + parts) == [DropReturn(head)] + DropReturns(parts)
  {
  }

  lemma SplitGlue(s: string)
    requires s != "" && s[0] != '\n'
    ensures Split(s, '\n') == Glue(s[0], Split(s[1..], '\n'))
    ensures |Split(s[1..], '\n')| > 1 && Split(s[1..], '\n')[0] == "" ==> |s| > 1 && s[1] == '\n'
  {
    if s[1..] != "" { assert s[1..][0] == s[1]; }
  }

  /** Putting a character in front of a line does not change whether it ends in a carriage
      return to drop, unless the character is that carriage return. */
  lemma DropReturnGlued(c: char, line: string)
    requires line == "" ==> c != '\r'
    ensures DropReturn([c] + line) == [c] + DropReturn(line)
  {
    if line == "" {
      assert [c] + line == [c];
    } else {
      assert ([c] + line)[..|line|] == [c] + line[..|line| - 1];
    }
  }

  lemma DropReturnsGlue(s: string)
    requires s != "" && s[0] != '\n' && !("\r\n" <= s)
    ensures DropReturns(Split(s, '\n')) == Glue(s[0], DropReturns(Split(s[1..], '\n')))
  {
    var rest := Split(s[1..], '\n');
    SplitGlue(s);
    assert |s| > 1 ==> s[..2] == [s[0], s[1]];
    if |rest| > 1 {
      DropReturnGlued(s[0], rest[0]);
    }
    DropReturnsOfGlue(s[0], rest);
  }

  lemma DropReturnsOfGlue(c: char, parts: seq<string>)
    requires parts != [] && (|parts| > 1 ==> DropReturn([c] + parts[0]) == [c] + DropReturn(parts[0]))
    ensures DropReturns(Glue(c, parts)) == Glue(c, DropReturns(parts))
  {
  }

  // ----- chunks

  /** The part after the last line break is all that has to be carried over. */
  lemma {:induction false} CarryIsEnough(a: string, b: string)
    ensures SplitLines(a + b) == SplitLines(a)[..|SplitLines(a)| - 1] + SplitLines(SplitLines(a)[|SplitLines(a)| - 1] + b)
    decreases |a|
  {
    if |SplitLines(a)| == 1 {
      OnePart(a);
    } else if "\r\n" <= a {
      assert (a + b)[2..] == a[2..] + b && "\r\n" <= a + b;
      CarryIsEnough(a[2..], b);
      ConsParts("", SplitLines(a[2..]), b);
    } else if a[0] == '\n' {
      assert (a + b)[1..] == a[1..] + b;
      CarryIsEnough(a[1..], b);
      ConsParts("", SplitLines(a[1..]), b);
    } else {
      assert a[1..] != "";
      assert (a + b)[1..] == a[1..] + b && (a + b)[..2] == a[..2];
      CarryIsEnough(a[1..], b);
      GlueParts(a[0], SplitLines(a[1..]), SplitLines(SplitLines(a[1..])[|SplitLines(a[1..])| - 1] + b));
    }
  }

  lemma ConsParts(head: string, parts: seq<string>, b: string)
    requires parts != []
    ensures var all, n := [head] + parts, |parts|;
      all[..n] + SplitLines(all[n] + b) == [head] + (parts[..n - 1] + SplitLines(parts[n - 1] + b))
  {
  }

  lemma GlueParts(c: char, parts: seq<string>, tail: seq<string>)
    requires |parts| > 1 && tail != []
    ensures var n := |parts| - 1;
      Glue(c, parts)[n] == parts[n] && Glue(c, parts[..n] + tail) == Glue(c, parts)[..n] + tail
  {
  }

  lemma {:induction false} OnePart(a: string)
    requires |SplitLines(a)| == 1
    ensures SplitLines(a) == [a]
    decreases |a|
  {
    if a != "" && !("\r\n" <= a) && a[0] != '\n' {
      OnePart(a[1..]);
      assert [a[0]] + a[1..] == a;
    }
  }

  /** Folding the collector over the chunks of one stream. */
  function Fold(chunks: seq<string>): Collected {
    if chunks == [] then Collected("", [])
    else
      var before := Fold(chunks[..|chunks| - 1]);
      var now := CollectOutputLines(before.carry, chunks[|chunks| - 1]);
      Collected(now.carry, before.lines + now.lines)
  }

  /** However a text is cut into chunks, even between a carriage return and its line feed,
      the collected lines followed by the carry are the lines of the whole text. */
  lemma {:induction false} FoldIsWhole(chunks: seq<string>)
    ensures Fold(chunks).lines + [Fold(chunks).carry] == SplitLines(Concat(chunks))
  {
    if chunks != [] {
      var n := |chunks| - 1;
      FoldIsWhole(chunks[..n]);
      CollectStep(Concat(chunks[..n]), Fold(chunks[..n]), chunks[n]);
    }
  }

  /** The collector has read exactly `seen`. */
  predicate HasRead(c: Collected, seen: string) { c.lines + [c.carry] == SplitLines(seen) }

  lemma CollectStep(seen: string, c: Collected, chunk: string)
    requires HasRead(c, seen)
    ensures var now := CollectOutputLines(c.carry, chunk);
      HasRead(Collected(now.carry, c.lines + now.lines), seen + chunk)
  {
    CarryIsEnough(seen, chunk);
    Apart(c.lines, c.carry);
    Together(c.lines, SplitLines(c.carry + chunk));
  }

  lemma Apart(lines: seq<string>, carry: string)
    ensures (lines + [carry])[..|lines|] == lines
  {
  }

  lemma Together(lines: seq<string>, parts: seq<string>)
    requires parts != []
    ensures lines + parts[..|parts| - 1] + [parts[|parts| - 1]] == lines + parts
  {
  }

  // ----- two streams interleaved

  datatype Stream = Stdout | Stderr

  /** The benchmark's output buffers, and the lines handed on per stream. */
  class OutputBuffers {
    var stdoutBuffer: string
    var stderrBuffer: string
    var stdoutLines: seq<string>
    var stderrLines: seq<string>
    ghost var stdoutSeen: string
    ghost var stderrSeen: string

    ghost predicate Valid()
      reads this
    {
      HasRead(Collected(stdoutBuffer, stdoutLines), stdoutSeen) && HasRead(Collected(stderrBuffer, stderrLines), stderrSeen)
    }

    constructor ()
      ensures Valid() && stdoutSeen == "" && stderrSeen == ""
    {
      stdoutBuffer, stderrBuffer, stdoutLines, stderrLines := "", "", [], [];
      stdoutSeen, stderrSeen := "", "";
    }

    method OnChunk(stream: Stream, chunk: string)
      requires Valid()
      modifies this
      ensures Valid()
      ensures stdoutSeen == old(stdoutSeen) + (if stream == Stdout then chunk else "")
      ensures stderrSeen == old(stderrSeen) + (if stream == Stderr then chunk else "")
      ensures old(stdoutLines) <= stdoutLines && old(stderrLines) <= stderrLines
    {
      if stream == Stdout {
        CollectStep(stdoutSeen, Collected(stdoutBuffer, stdoutLines), chunk);
        var parsed := CollectOutputLines(stdoutBuffer, chunk);
        stdoutBuffer := parsed.carry;
        stdoutLines := stdoutLines + parsed.lines;
        stdoutSeen := stdoutSeen + chunk;
      } else {
        CollectStep(stderrSeen, Collected(stderrBuffer, stderrLines), chunk);
        var parsed := CollectOutputLines(stderrBuffer, chunk);
        stderrBuffer := parsed.carry;
        stderrLines := stderrLines + parsed.lines;
        stderrSeen := stderrSeen + chunk;
      }
    }

    /** Hand on what is left when the streams end; an empty rest is no line. */
    method FlushPartial()
      requires Valid()
      modifies this
      ensures stdoutLines == FinalLines(old(stdoutSeen)) && stderrLines == FinalLines(old(stderrSeen))
      ensures stdoutBuffer == "" && stderrBuffer == ""
    {
      FinalStep(stdoutSeen, stdoutLines, stdoutBuffer);
      FinalStep(stderrSeen, stderrLines, stderrBuffer);
      if stdoutBuffer != "" {
        stdoutLines := stdoutLines + [stdoutBuffer];
        stdoutBuffer := "";
      }
      if stderrBuffer != "" {
        stderrLines := stderrLines + [stderrBuffer];
        stderrBuffer := "";
      }
    }
  }

  /** The lines of a finished stream: those of its text, less an empty last one. */
  function FinalLines(seen: string): seq<string> {
    var parts := SplitLines(seen);
    if parts[|parts| - 1] == "" then parts[..|parts| - 1] else parts
  }

  lemma FinalStep(seen: string, lines: seq<string>, buffer: string)
    requires HasRead(Collected(buffer, lines), seen)
    ensures FinalLines(seen) == if buffer == "" then lines else lines + [buffer]
  {
    assert (lines + [buffer])[..|lines|] == lines;
  }
}
