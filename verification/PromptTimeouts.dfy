/** Which failed replies halve a batch (scripts/control-ui-i18n.ts): a timeout is recognised
    by the words of the error, whoever wrote them. */
module PromptTimeouts {
  import opened Text
  import opened TranslationBatches
  import opened BatchTranslator

  /** The batch is cut in two instead of asked again. */
  predicate Halves(rules: Rules, reply: Reply, items: seq<Item>) {
    var result := Validate(rules, reply, items);
    |items| > 1 && result.Failed? && IsPromptTimeout(result.message)
  }

  /** Where a failed reply may say "timed out": in the error of a prompt or of the parser, in
      the key of the first item without a usable translation or, when every item has one, in
      the message about differing placeholders. */
  predicate SaysTimedOut(rules: Rules, reply: Reply, items: seq<Item>) {
    if !reply.Parsed? then IsPromptTimeout(reply.message)
    else if FirstMissing(reply.fields, items).Some? then IsPromptTimeout(FirstMissing(reply.fields, items).value)
    else
      var translated := Values(reply.fields, items);
      !SamePlaceholders(rules, SourceMap(items), translated) && IsPromptTimeout(rules.mismatch(translated))
  }

  lemma PrefixHasNoTimeout(key: string, i: nat)
    requires i < |MissingMessage("")|
    ensures !StartsWithLower(MissingMessage(key)[i..], "timed out")
  {
    var prefix := MissingMessage("");
    var message := MissingMessage(key);
    assert prefix == "missing translation for ";
    assert message[..|prefix|] == prefix;
    var k := if i == 8 then 1 else if i == 15 then 2 else 0;
    assert message[i..][k] == message[i + k] == prefix[i + k];
    assert LowerCase(prefix[i + k]) != "timed out"[k];
  }

  /** The message about a missing translation reads like a timeout exactly when the key does. */
  lemma MissingReadsLikeItsKey(key: string)
    ensures IsPromptTimeout(MissingMessage(key)) <==> IsPromptTimeout(key)
  {
    var message, n := MissingMessage(key), |MissingMessage("")|;
    assert forall i :: 0 <= i <= |key| ==> message[n + i..] == key[i..];
    if IsPromptTimeout(message) {
      var i :| 0 <= i <= |message| && StartsWithLower(message[i..], "timed out");
      if i < n { PrefixHasNoTimeout(key, i); }
      assert StartsWithLower(key[i - n..], "timed out");
    }
    if IsPromptTimeout(key) {
      var i :| 0 <= i <= |key| && StartsWithLower(key[i..], "timed out");
      assert StartsWithLower(message[n + i..], "timed out");
    }
  }

  /** A reply halves a batch of several items exactly when it says "timed out", even if the
      prompt itself was answered in time. */
  lemma HalvesExactly(rules: Rules, reply: Reply, items: seq<Item>)
    requires |items| > 1
    ensures Halves(rules, reply, items) <==> SaysTimedOut(rules, reply, items)
  {
    if reply.Parsed? && FirstMissing(reply.fields, items).Some? {
      MissingReadsLikeItsKey(FirstMissing(reply.fields, items).value);
    }
  }

  /** A reply that did arrive, on time, and halves the batch: its first item is called
      "timed out" and it holds no translation. */
  lemma OnTimeReplyHalves(rules: Rules)
    ensures Halves(rules, Parsed(map[]), [Item("timed out", "a"), Item("b", "c")])
  {
    var items := [Item("timed out", "a"), Item("b", "c")];
    assert "timed out"[0..] == "timed out";
    assert StartsWithLower("timed out"[0..], "timed out");
    assert FirstMissing(map[], items) == Some("timed out");
    HalvesExactly(rules, Parsed(map[]), items);
  }

  /** The words count in capitals too, and only the words do. */
  lemma TimeoutWords()
    ensures IsPromptTimeout("Prompt Timed Out") && IsPromptTimeout("TIMED OUT") && !IsPromptTimeout("timeout")
  {
    assert "Prompt Timed Out"[7..] == "Timed Out";
    assert StartsWithLower("Prompt Timed Out"[7..], "timed out");
    assert "TIMED OUT"[0..] == "TIMED OUT";
    assert StartsWithLower("TIMED OUT"[0..], "timed out");
  }

  /** Halving asks about the two halves next; otherwise the same batch is asked about again
      or given up. */
  lemma HalvesAreAskedNext(rules: Rules, provider: Provider, items: seq<Item>, used: nat)
    requires Halves(rules, provider(used, items), items)
    ensures Translate(rules, provider, items, 0, used) == TranslateHalves(rules, provider, items, used + 1)
  {
  }
}
