/** Bounded capture of a child's output (scripts/control-ui-i18n.ts,
    appendBoundedProcessOutput): only the tail is kept, and what was dropped is counted. */
module ProcessOutput {
  import opened Text

  datatype Capture = Capture(text: string, truncatedChars: nat)

  const EMPTY := Capture("", 0)
  const RUN_PROCESS_OUTPUT_MAX_CHARS: nat := 1024 * 1024

  /** The configured limit; `None` stands for an absent, non-numeric or non-finite value. */
  function ResolveOutputLimit(maxOutputChars: Option<real>): (limit: nat)
    ensures limit >= 1
    ensures maxOutputChars.Some? && maxOutputChars.value >= 1.0 ==>
      limit as real <= maxOutputChars.value < (limit + 1) as real
    ensures maxOutputChars.Some? && 0.0 < maxOutputChars.value < 1.0 ==> limit == 1
    ensures maxOutputChars.None? || maxOutputChars.value <= 0.0 ==> limit == 1_048_576
  {
    if maxOutputChars.None? || maxOutputChars.value <= 0.0 then RUN_PROCESS_OUTPUT_MAX_CHARS
    else if maxOutputChars.value.Floor < 1 then 1
    else maxOutputChars.value.Floor
  }

  function AppendBounded(capture: Capture, chunk: string, maxChars: nat): Capture {
    var nextText := capture.text + chunk;
    if |nextText| <= maxChars then Capture(nextText, capture.truncatedChars)
    else Capture(Tail(nextText, maxChars), capture.truncatedChars + |nextText| - maxChars)
  }

  /** The last `n` characters, or all of a shorter text. */
  function Tail(s: string, n: nat): string {
    if |s| <= n then s else s[|s| - n..]
  }

  /** The capture that a whole output leaves behind. */
  function CaptureOf(output: string, maxChars: nat): Capture {
    Capture(Tail(output, maxChars), |output| - |Tail(output, maxChars)|)
  }

  /** Appending a chunk to the capture of an output gives the capture of the longer output. */
  lemma CaptureGrows(output: string, chunk: string, maxChars: nat)
    ensures AppendBounded(CaptureOf(output, maxChars), chunk, maxChars) == CaptureOf(output + chunk, maxChars)
  {
    var kept := Tail(output, maxChars);
    assert output + chunk == output[..|output| - |kept|] + (kept + chunk);
    if |kept + chunk| > maxChars {
      assert Tail(kept + chunk, maxChars) == Tail(output + chunk, maxChars);
    }
  }

  /** The capture after a sequence of chunks, oldest first. */
  function CaptureChunks(chunks: seq<string>, maxChars: nat): Capture {
    if chunks == [] then EMPTY
    else AppendBounded(CaptureChunks(chunks[..|chunks| - 1], maxChars), chunks[|chunks| - 1], maxChars)
  }

  /** However the output was cut into chunks, the capture is its tail and an exact count
      of what is missing; nothing is missing only if the text is complete. */
  lemma {:induction false} CaptureIsTail(chunks: seq<string>, maxChars: nat)
    ensures CaptureChunks(chunks, maxChars) == CaptureOf(Concat(chunks), maxChars)
    ensures CaptureChunks(chunks, maxChars).truncatedChars == 0 <==> CaptureChunks(chunks, maxChars).text == Concat(chunks)
  {
    if chunks != [] {
      CaptureIsTail(chunks[..|chunks| - 1], maxChars);
      CaptureGrows(Concat(chunks[..|chunks| - 1]), chunks[|chunks| - 1], maxChars);
    }
  }
}
