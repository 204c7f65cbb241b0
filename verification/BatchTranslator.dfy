/** Translating a batch with one retry, and halving it when a prompt times out
    (scripts/control-ui-i18n.ts, parseTranslationBatchReply, translateBatch and
    translateNativeEntries). The model's replies are arbitrary inputs. */
module BatchTranslator {
  import opened Text
  import opened TranslationBatches

  const TRANSLATE_MAX_ATTEMPTS: nat := 2

  datatype JsonValue = JsonText(value: string) | NotText

  /** What comes back from one prompt: no reply, a reply that is not JSON, or an object. */
  datatype Reply =
    | PromptFailed(message: string)
    | Unparsable(message: string)
    | Parsed(fields: map<string, JsonValue>)

  /** The n-th prompt of a session, asked for these items. */
  type Provider = (nat, seq<Item>) -> Reply

  /** The placeholder extractor and the wording of a placeholder mismatch. */
  datatype Rules = Rules(placeholders: string -> seq<string>, mismatch: map<string, string> -> string)

  datatype Outcome = Translated(translations: map<string, string>) | Failed(message: string)

  // ----- validation of one reply

  function MissingMessage(key: string): string { "missing translation for " + key }

  predicate Usable(fields: map<string, JsonValue>, key: string) {
    key in fields && fields[key].JsonText? && !IsBlank(fields[key].value)
  }

  function SourceMap(items: seq<Item>): map<string, string> {
    if items == [] then map[]
    else SourceMap(items[..|items| - 1])[items[|items| - 1].key := items[|items| - 1].text]
  }

  predicate SamePlaceholders(rules: Rules, source: map<string, string>, translated: map<string, string>) {
    forall key <- source ::
      rules.placeholders(source[key]) == rules.placeholders(if key in translated then translated[key] else "")
  }

  /** The first item whose value is unusable, if any. */
  function FirstMissing(fields: map<string, JsonValue>, items: seq<Item>): Option<string> {
    if items == [] then None
    else if !Usable(fields, items[0].key) then Some(items[0].key)
    else FirstMissing(fields, items[1..])
  }

  function Values(fields: map<string, JsonValue>, items: seq<Item>): map<string, string>
    requires FirstMissing(fields, items).None?
  {
    AllUsable(fields, items);
    map item <- items :: item.key := fields[item.key].value
  }

  lemma {:induction false} AllUsable(fields: map<string, JsonValue>, items: seq<Item>)
    ensures FirstMissing(fields, items).None? <==> forall item <- items :: Usable(fields, item.key)
  {
    if items != [] {
      AllUsable(fields, items[1..]);
      assert items == [items[0]] + items[1..];
    }
  }

  function Validate(rules: Rules, reply: Reply, items: seq<Item>): Outcome {
    match reply
    case PromptFailed(message) => Failed(message)
    case Unparsable(message) => Failed(message)
    case Parsed(fields) =>
      var missing := FirstMissing(fields, items);
      if missing.Some? then Failed(MissingMessage(missing.value))
      else
        var translated := Values(fields, items);
        if SamePlaceholders(rules, SourceMap(items), translated) then Translated(translated)
        else Failed(rules.mismatch(translated))
  }

  /** The test on a text value. */
  function BlankText(value: string): (blank: bool)
    ensures blank <==> IsBlank(value)
  {
    TrimIsEmpty(value);
    Trim(value) == ""
  }

  /** The loop over the items: stop at the first unusable value. */
  method CollectTranslations(fields: map<string, JsonValue>, items: seq<Item>) returns (r: Outcome)
    ensures match FirstMissing(fields, items)
      case Some(key) => r == Failed(MissingMessage(key))
      case None => r == Translated(Values(fields, items))
  {
    var translated: map<string, string> := map[];
    for i := 0 to |items|
      invariant FirstMissing(fields, items) == FirstMissing(fields, items[i..])
      invariant Collected(fields, items[..i], translated)
    {
      var item := items[i];
      assert items[i..][0] == item && items[i..][1..] == items[i + 1..];
      if item.key !in fields || fields[item.key].NotText? || BlankText(fields[item.key].value) {
        return Failed(MissingMessage(item.key));
      }
      CollectOne(fields, items, i, translated);
      translated := translated[item.key := fields[item.key].value];
    }
    assert items[..|items|] == items;
    return Translated(translated);
  }

  ghost predicate Collected(fields: map<string, JsonValue>, items: seq<Item>, translated: map<string, string>) {
    FirstMissing(fields, items).None? && translated == Values(fields, items)
  }

  lemma CollectOne(fields: map<string, JsonValue>, items: seq<Item>, i: nat, translated: map<string, string>)
    requires i < |items| && Collected(fields, items[..i], translated) && Usable(fields, items[i].key)
    ensures Collected(fields, items[..i + 1], translated[items[i].key := fields[items[i].key].value])
  {
    assert items[..i + 1] == items[..i] + [items[i]];
    AllUsable(fields, items[..i]);
    AllUsable(fields, items[..i + 1]);
  }

  method ParseTranslationBatchReply(rules: Rules, fields: map<string, JsonValue>, items: seq<Item>) returns (r: Outcome)
    ensures r == Validate(rules, Parsed(fields), items)
  {
    r := CollectTranslations(fields, items);
    if r.Translated? {
      var source := BuildSourceMap(items);
      if !SamePlaceholders(rules, source, r.translations) {
        r := Failed(rules.mismatch(r.translations));
      }
    }
  }

  method BuildSourceMap(items: seq<Item>) returns (source: map<string, string>)
    ensures source == SourceMap(items)
  {
    source := map[];
    for i := 0 to |items|
      invariant source == SourceMap(items[..i])
    {
      assert items[..i + 1][..i] == items[..i];
      source := source[items[i].key := items[i].text];
    }
    assert items[..|items|] == items;
  }

  // ----- timeouts are recognised by their message

  function LowerCase(c: char): char {
    if 'A' <= c <= 'Z' then c - 'A' + 'a' else c
  }

  predicate StartsWithLower(s: string, word: string) {
    |word| <= |s| && forall k :: 0 <= k < |word| ==> LowerCase(s[k]) == word[k]
  }

  predicate IsPromptTimeout(message: string) {
    exists i :: 0 <= i <= |message| && StartsWithLower(message[i..], "timed out")
  }

  // ----- one batch, as a function

  datatype Session = Session(outcome: Outcome, prompts: nat)

  function Midpoint(items: seq<Item>): nat { (|items| + 1) / 2 }

  /** Attempt number `attempt` (from 0) on a batch, after `used` prompts. */
  function Translate(rules: Rules, provider: Provider, items: seq<Item>, attempt: nat, used: nat): Session
    requires attempt < TRANSLATE_MAX_ATTEMPTS
    decreases |items|, TRANSLATE_MAX_ATTEMPTS - attempt
  {
    var result := Validate(rules, provider(used, items), items);
    if result.Translated? then Session(result, used + 1)
    else if IsPromptTimeout(result.message) then
      if |items| > 1 then TranslateHalves(rules, provider, items, used + 1) else Session(result, used + 1)
    else if attempt + 1 < TRANSLATE_MAX_ATTEMPTS then Translate(rules, provider, items, attempt + 1, used + 1)
    else Session(result, used + 1)
  }

  function TranslateHalves(rules: Rules, provider: Provider, items: seq<Item>, used: nat): Session
    requires |items| > 1
    decreases |items|, 0
  {
    var left := Translate(rules, provider, items[..Midpoint(items)], 0, used);
    if left.outcome.Failed? then left
    else
      var right := Translate(rules, provider, items[Midpoint(items)..], 0, left.prompts);
      if right.outcome.Failed? then right
      else Session(Translated(left.outcome.translations + right.outcome.translations), right.prompts)
  }

  method TranslateBatch(rules: Rules, provider: Provider, items: seq<Item>, used: nat) returns (r: Session)
    ensures r == Translate(rules, provider, items, 0, used)
    decreases |items|
  {
    var lastError := "translation failed";
    var prompts := used;
    var attempt := 0;
    while attempt < TRANSLATE_MAX_ATTEMPTS
      invariant attempt <= TRANSLATE_MAX_ATTEMPTS
      invariant attempt < TRANSLATE_MAX_ATTEMPTS ==>
        Translate(rules, provider, items, 0, used) == Translate(rules, provider, items, attempt, prompts)
      invariant attempt == TRANSLATE_MAX_ATTEMPTS ==>
        Translate(rules, provider, items, 0, used) == Session(Failed(lastError), prompts)
    {
      var reply := provider(prompts, items);
      prompts := prompts + 1;
      var result;
      if reply.Parsed? {
        result := ParseTranslationBatchReply(rules, reply.fields, items);
      } else {
        result := Failed(reply.message);
      }
      if result.Translated? {
        return Session(result, prompts);
      }
      lastError := result.message;
      if IsPromptTimeout(lastError) && |items| > 1 {
        var midpoint := Midpoint(items);
        var left := TranslateBatch(rules, provider, items[..midpoint], prompts);
        if left.outcome.Failed? {
          return left;
        }
        var right := TranslateBatch(rules, provider, items[midpoint..], left.prompts);
        if right.outcome.Failed? {
          return right;
        }
        return Session(Translated(left.outcome.translations + right.outcome.translations), right.prompts);
      }
      if IsPromptTimeout(lastError) {
        break;
      }
      attempt := attempt + 1;
    }
    return Session(Failed(lastError), prompts);
  }

  // ----- what a normal return means

  ghost predicate DistinctKeys(items: seq<Item>) {
    forall i, j :: 0 <= i < j < |items| ==> items[i].key != items[j].key
  }

  /** Exactly the keys of the items, each with non-blank text whose placeholders are
      those of the item's own text. */
  ghost predicate Faithful(rules: Rules, items: seq<Item>, translations: map<string, string>) {
    (forall key :: key in translations <==> exists item <- items :: item.key == key) &&
    forall item <- items :: item.key in translations && !IsBlank(translations[item.key]) &&
      rules.placeholders(translations[item.key]) == rules.placeholders(item.text)
  }

  lemma {:induction false} SourceMapDistinct(items: seq<Item>)
    requires DistinctKeys(items)
    ensures forall item <- items :: item.key in SourceMap(items) && SourceMap(items)[item.key] == item.text
    ensures forall key <- SourceMap(items) :: exists item <- items :: item.key == key
  {
    if items != [] {
      var n := |items| - 1;
      SourceMapDistinct(items[..n]);
      assert items == items[..n] + [items[n]];
    }
  }

  lemma ValidReplyIsFaithful(rules: Rules, reply: Reply, items: seq<Item>)
    requires DistinctKeys(items) && Validate(rules, reply, items).Translated?
    ensures Faithful(rules, items, Validate(rules, reply, items).translations)
  {
    SourceMapDistinct(items);
    AllUsable(reply.fields, items);
  }

  lemma JoinFaithful(rules: Rules, a: seq<Item>, b: seq<Item>, ta: map<string, string>, tb: map<string, string>)
    requires DistinctKeys(a + b) && Faithful(rules, a, ta) && Faithful(rules, b, tb)
    ensures Faithful(rules, a + b, ta + tb)
  {
    var both := a + b;
    forall x, y | x in a && y in b ensures x.key != y.key {
      var i :| 0 <= i < |a| && a[i] == x;
      var j :| 0 <= j < |b| && b[j] == y;
      assert both[i].key != both[|a| + j].key;
    }
    forall key ensures key in ta + tb <==> exists item <- both :: item.key == key {
      if item :| item in both && item.key == key { assert item in a || item in b; }
      if item :| item in a && item.key == key { assert item in both; }
      if item :| item in b && item.key == key { assert item in both; }
    }
  }

  lemma HalvesDistinct(items: seq<Item>, m: nat)
    requires DistinctKeys(items) && m <= |items|
    ensures DistinctKeys(items[..m]) && DistinctKeys(items[m..]) && items[..m] + items[m..] == items
  {
  }

  lemma {:induction false} TranslatedIsFaithful(rules: Rules, provider: Provider, items: seq<Item>, attempt: nat, used: nat)
    requires attempt < TRANSLATE_MAX_ATTEMPTS && DistinctKeys(items)
    requires Translate(rules, provider, items, attempt, used).outcome.Translated?
    ensures Faithful(rules, items, Translate(rules, provider, items, attempt, used).outcome.translations)
    decreases |items|, TRANSLATE_MAX_ATTEMPTS - attempt
  {
    var result := Validate(rules, provider(used, items), items);
    if result.Translated? {
      ValidReplyIsFaithful(rules, provider(used, items), items);
    } else if IsPromptTimeout(result.message) {
      var m := Midpoint(items);
      HalvesDistinct(items, m);
      TranslatedIsFaithful(rules, provider, items[..m], 0, used + 1);
      var left := Translate(rules, provider, items[..m], 0, used + 1);
      TranslatedIsFaithful(rules, provider, items[m..], 0, left.prompts);
      var right := Translate(rules, provider, items[m..], 0, left.prompts);
      JoinFaithful(rules, items[..m], items[m..], left.outcome.translations, right.outcome.translations);
    } else {
      TranslatedIsFaithful(rules, provider, items, attempt + 1, used + 1);
    }
  }

  // ----- how many prompts it takes

  /** A batch of n items takes at least one prompt and at most 4n - 2; from the second
      attempt on, one fewer. */
  lemma {:induction false} PromptBound(rules: Rules, provider: Provider, items: seq<Item>, attempt: nat, used: nat)
    requires attempt < TRANSLATE_MAX_ATTEMPTS && items != []
    ensures used < Translate(rules, provider, items, attempt, used).prompts <= used + 4 * |items| - 2 - attempt
    decreases |items|, TRANSLATE_MAX_ATTEMPTS - attempt
  {
    var result := Validate(rules, provider(used, items), items);
    if result.Failed? {
      if IsPromptTimeout(result.message) {
        if |items| > 1 {
          var m := Midpoint(items);
          PromptBound(rules, provider, items[..m], 0, used + 1);
          PromptBound(rules, provider, items[m..], 0, Translate(rules, provider, items[..m], 0, used + 1).prompts);
        }
      } else if attempt + 1 < TRANSLATE_MAX_ATTEMPTS {
        PromptBound(rules, provider, items, attempt + 1, used + 1);
      }
    }
  }

  /** The prompt numbered `n` was about these items and its reply failed without a timeout. */
  predicate FailedWithoutTimeout(rules: Rules, provider: Provider, items: seq<Item>, n: nat) {
    var result := Validate(rules, provider(n, items), items);
    result.Failed? && !IsPromptTimeout(result.message)
  }

  /** A failed batch ends at its first fatal prompt, about a non-empty part of the batch: the
      error thrown is the one its reply caused. Either it is a timeout about a part that
      cannot be halved, or the prompt before was about the same part and failed as well. */
  ghost predicate EndsAtFatalPrompt(rules: Rules, provider: Provider, items: seq<Item>, s: Session) {
    s.prompts > 0 && exists from: nat, to: nat :: FatalPart(rules, provider, items, from, to, s)
  }

  ghost predicate FatalPart(rules: Rules, provider: Provider, items: seq<Item>, from: nat, to: nat, s: Session) {
    from <= to <= |items| && s.prompts > 0 && (items != [] ==> from < to) &&
    Validate(rules, provider(s.prompts - 1, items[from..to]), items[from..to]) == s.outcome &&
    s.outcome.Failed? &&
    if IsPromptTimeout(s.outcome.message) then to - from <= 1
    else s.prompts > 1 && FailedWithoutTimeout(rules, provider, items[from..to], s.prompts - 2)
  }

  lemma FatalPartShift(rules: Rules, provider: Provider, items: seq<Item>, a: nat, d: nat, s: Session)
    requires a < d <= |items| && EndsAtFatalPrompt(rules, provider, items[a..d], s)
    ensures EndsAtFatalPrompt(rules, provider, items, s)
  {
    var from: nat, to: nat :| FatalPart(rules, provider, items[a..d], from, to, s);
    SliceOfSlice(items, a, d, from, to);
    assert FatalPart(rules, provider, items, a + from, a + to, s);
  }

  lemma {:induction false} FailureEndsAtFatalPrompt(rules: Rules, provider: Provider, items: seq<Item>, attempt: nat, used: nat)
    requires attempt < TRANSLATE_MAX_ATTEMPTS
    requires attempt > 0 ==> used > 0 && FailedWithoutTimeout(rules, provider, items, used - 1)
    requires Translate(rules, provider, items, attempt, used).outcome.Failed?
    ensures EndsAtFatalPrompt(rules, provider, items, Translate(rules, provider, items, attempt, used))
    decreases |items|, TRANSLATE_MAX_ATTEMPTS - attempt
  {
    var result := Validate(rules, provider(used, items), items);
    if IsPromptTimeout(result.message) && |items| > 1 {
      var m := Midpoint(items);
      assert items[0..m] == items[..m] && items[m..|items|] == items[m..];
      var left := Translate(rules, provider, items[..m], 0, used + 1);
      if left.outcome.Failed? {
        FailureEndsAtFatalPrompt(rules, provider, items[..m], 0, used + 1);
        FatalPartShift(rules, provider, items, 0, m, left);
      } else {
        FailureEndsAtFatalPrompt(rules, provider, items[m..], 0, left.prompts);
        FatalPartShift(rules, provider, items, m, |items|, Translate(rules, provider, items[m..], 0, left.prompts));
      }
    } else if !IsPromptTimeout(result.message) && attempt + 1 < TRANSLATE_MAX_ATTEMPTS {
      FailureEndsAtFatalPrompt(rules, provider, items, attempt + 1, used + 1);
    } else {
      assert items[0..|items|] == items;
      assert FatalPart(rules, provider, items, 0, |items|, Translate(rules, provider, items, attempt, used));
    }
  }

  // ----- best and worst sessions

  lemma HalvesTakeMore(rules: Rules, provider: Provider, items: seq<Item>, used: nat)
    requires |items| > 1
    ensures TranslateHalves(rules, provider, items, used).prompts > used
  {
    var m := Midpoint(items);
    PromptBound(rules, provider, items[..m], 0, used);
    PromptBound(rules, provider, items[m..], 0, Translate(rules, provider, items[..m], 0, used).prompts);
  }

  /** A batch takes a single prompt exactly when its reply is valid, or times out on one item. */
  lemma OnePromptExactly(rules: Rules, provider: Provider, items: seq<Item>, used: nat)
    requires items != []
    ensures var first := Validate(rules, provider(used, items), items);
      Translate(rules, provider, items, 0, used).prompts == used + 1 <==>
        first.Translated? || (|items| == 1 && IsPromptTimeout(first.message))
  {
    var first := Validate(rules, provider(used, items), items);
    if first.Failed? {
      if !IsPromptTimeout(first.message) {
        PromptBound(rules, provider, items, 1, used + 1);
      } else if |items| > 1 {
        HalvesTakeMore(rules, provider, items, used + 1);
      }
    }
  }

  /** A provider for which every first attempt is unusable, every second attempt on more
      than one item times out, and every second attempt on one item echoes its text. */
  function Stubborn(): Provider {
    (n: nat, items: seq<Item>) =>
      if n % 2 == 0 then Unparsable("not json")
      else if |items| != 1 then PromptFailed("prompt timed out")
      else Parsed(map[items[0].key := JsonText(items[0].text)])
  }

  lemma TimeoutMessages()
    ensures IsPromptTimeout("prompt timed out") && !IsPromptTimeout("not json")
  {
    assert "prompt timed out"[7..] == "timed out";
    assert StartsWithLower("prompt timed out"[7..], "timed out");
  }

  lemma EchoIsValid(rules: Rules, item: Item)
    requires !IsBlank(item.text)
    ensures Validate(rules, Parsed(map[item.key := JsonText(item.text)]), [item]) == Translated(map[item.key := item.text])
  {
    var fields := map[item.key := JsonText(item.text)];
    assert [item][1..] == [] && [item][..0] == [];
    assert FirstMissing(fields, [item]).None?;
    assert SourceMap([item]) == map[item.key := item.text];
    assert Values(fields, [item]) == map[item.key := item.text];
  }

  /** A batch is translated with exactly this many prompts. */
  ghost predicate Takes(rules: Rules, provider: Provider, items: seq<Item>, used: nat, prompts: nat) {
    var s := Translate(rules, provider, items, 0, used);
    s.outcome.Translated? && s.prompts == used + prompts
  }

  lemma HalvesTake(rules: Rules, provider: Provider, items: seq<Item>, used: nat, left: nat, right: nat)
    requires |items| > 1
    requires Takes(rules, provider, items[..Midpoint(items)], used, left)
    requires Takes(rules, provider, items[Midpoint(items)..], used + left, right)
    ensures var s := TranslateHalves(rules, provider, items, used);
      s.outcome.Translated? && s.prompts == used + left + right
  {
  }

  lemma RetriedHalvesTake(rules: Rules, provider: Provider, items: seq<Item>, used: nat, left: nat, right: nat)
    requires |items| > 1
    requires Translate(rules, provider, items, 0, used) == TranslateHalves(rules, provider, items, used + 2)
    requires Takes(rules, provider, items[..Midpoint(items)], used + 2, left)
    requires Takes(rules, provider, items[Midpoint(items)..], used + 2 + left, right)
    ensures Takes(rules, provider, items, used, 2 + left + right)
  {
    HalvesTake(rules, provider, items, used + 2, left, right);
  }

  lemma StubbornSplits(rules: Rules, items: seq<Item>, used: nat)
    requires |items| > 1 && used % 2 == 0
    ensures Translate(rules, Stubborn(), items, 0, used) == TranslateHalves(rules, Stubborn(), items, used + 2)
  {
    StubbornRetries(rules, items, used);
  }

  lemma StubbornOnMany(rules: Rules, items: seq<Item>, used: nat, left: nat, right: nat)
    requires |items| > 1 && used % 2 == 0
    requires Takes(rules, Stubborn(), items[..Midpoint(items)], used + 2, left)
    requires Takes(rules, Stubborn(), items[Midpoint(items)..], used + 2 + left, right)
    ensures Takes(rules, Stubborn(), items, used, 2 + left + right)
  {
    StubbornSplits(rules, items, used);
    RetriedHalvesTake(rules, Stubborn(), items, used, left, right);
  }

  predicate AllHaveText(items: seq<Item>) { forall item <- items :: !IsBlank(item.text) }

  lemma HalvesHaveText(items: seq<Item>, m: nat)
    requires AllHaveText(items) && m <= |items|
    ensures AllHaveText(items[..m]) && AllHaveText(items[m..])
  {
    forall item | item in items[..m] || item in items[m..] ensures !IsBlank(item.text) { assert item in items; }
  }

  lemma StubbornOnFirst(rules: Rules, items: seq<Item>, used: nat)
    requires |items| == 1 && used % 2 == 0 && AllHaveText(items)
    ensures Takes(rules, Stubborn(), items, used, 2)
  {
    assert items == [items[0]] && items[0] in items;
    StubbornOnOne(rules, items[0], used);
  }

  /** If one item with text takes 2 prompts, and several take 2 more than their halves, then
      n items take 4n - 2. */
  lemma {:induction false} HalvingTakes(takes: (seq<Item>, nat, nat) -> bool, items: seq<Item>, used: nat)
    requires forall xs, u :: OneTakes(takes, xs, u)
    requires forall xs, u, left, right :: ManyTake(takes, xs, u, left, right)
    requires items != [] && used % 2 == 0 && AllHaveText(items)
    ensures takes(items, used, 4 * |items| - 2)
  {
    if |items| == 1 {
      assert OneTakes(takes, items, used);
    } else {
      var m := Midpoint(items);
      HalvesHaveText(items, m);
      HalvingTakes(takes, items[..m], used + 2);
      HalvingTakes(takes, items[m..], used + 2 + (4 * m - 2));
      assert ManyTake(takes, items, used, 4 * m - 2, 4 * (|items| - m) - 2);
    }
  }

  ghost predicate OneTakes(takes: (seq<Item>, nat, nat) -> bool, items: seq<Item>, used: nat) {
    |items| == 1 && used % 2 == 0 && AllHaveText(items) ==> takes(items, used, 2)
  }

  ghost predicate ManyTake(takes: (seq<Item>, nat, nat) -> bool, items: seq<Item>, used: nat, left: nat, right: nat) {
    |items| > 1 && used % 2 == 0 && takes(items[..Midpoint(items)], used + 2, left) &&
      takes(items[Midpoint(items)..], used + 2 + left, right)
    ==> takes(items, used, 2 + left + right)
  }

  /** The bound is exact: against that provider n non-blank items are all translated, with
      4n - 2 prompts. */
  lemma BoundIsReached(rules: Rules, items: seq<Item>, used: nat)
    requires items != [] && used % 2 == 0 && AllHaveText(items)
    ensures Takes(rules, Stubborn(), items, used, 4 * |items| - 2)
  {
    var takes := (xs: seq<Item>, u: nat, prompts: nat) => Takes(rules, Stubborn(), xs, u, prompts);
    forall xs: seq<Item>, u: nat ensures OneTakes(takes, xs, u) {
      if |xs| == 1 && u % 2 == 0 && AllHaveText(xs) { StubbornOnFirst(rules, xs, u); }
    }
    forall xs: seq<Item>, u: nat, left: nat, right: nat ensures ManyTake(takes, xs, u, left, right) {
      if |xs| > 1 && u % 2 == 0 && takes(xs[..Midpoint(xs)], u + 2, left) && takes(xs[Midpoint(xs)..], u + 2 + left, right) {
        StubbornOnMany(rules, xs, u, left, right);
      }
    }
    HalvingTakes(takes, items, used);
  }

  lemma StubbornOnOne(rules: Rules, item: Item, used: nat)
    requires used % 2 == 0 && !IsBlank(item.text)
    ensures Translate(rules, Stubborn(), [item], 0, used) == Session(Translated(map[item.key := item.text]), used + 2)
  {
    StubbornRetries(rules, [item], used);
    EchoIsValid(rules, item);
  }

  lemma StubbornRetries(rules: Rules, items: seq<Item>, used: nat)
    requires items != [] && used % 2 == 0
    ensures Translate(rules, Stubborn(), items, 0, used) == Translate(rules, Stubborn(), items, 1, used + 1)
    ensures |items| > 1 ==> Translate(rules, Stubborn(), items, 1, used + 1) == TranslateHalves(rules, Stubborn(), items, used + 2)
    ensures |items| == 1 ==> Stubborn()(used + 1, items) == Parsed(map[items[0].key := JsonText(items[0].text)])
  {
    TimeoutMessages();
    assert Stubborn()(used, items) == Unparsable("not json");
    assert (used + 1) % 2 == 1;
    if |items| > 1 {
      assert Stubborn()(used + 1, items) == PromptFailed("prompt timed out");
    }
  }

  // ----- all batches

  function TranslateAll(rules: Rules, provider: Provider, batches: seq<seq<Item>>, used: nat): Session {
    if batches == [] then Session(Translated(map[]), used)
    else
      var n := |batches| - 1;
      var before := TranslateAll(rules, provider, batches[..n], used);
      if before.outcome.Failed? then before
      else
        var last := Translate(rules, provider, batches[n], 0, before.prompts);
        if last.outcome.Failed? then last
        else Session(Translated(before.outcome.translations + last.outcome.translations), last.prompts)
  }

  lemma {:induction false} FailedStaysFailed(rules: Rules, provider: Provider, batches: seq<seq<Item>>, i: nat, used: nat)
    requires i <= |batches| && TranslateAll(rules, provider, batches[..i], used).outcome.Failed?
    ensures TranslateAll(rules, provider, batches, used) == TranslateAll(rules, provider, batches[..i], used)
    decreases |batches|
  {
    if i == |batches| {
      assert batches[..i] == batches;
    } else {
      assert batches[..|batches| - 1][..i] == batches[..i];
      FailedStaysFailed(rules, provider, batches[..|batches| - 1], i, used);
    }
  }

  ghost predicate IsSessionOver(rules: Rules, provider: Provider, entries: seq<Item>, budget: real, r: Session, batches: seq<seq<Item>>) {
    Flatten(batches) == entries && Greedy(batches, budget) && r == TranslateAll(rules, provider, batches, 0)
  }

  /** The session over some greedy batches of the entries. */
  ghost predicate IsSession(rules: Rules, provider: Provider, entries: seq<Item>, budget: real, r: Session) {
    exists batches :: IsSessionOver(rules, provider, entries, budget, r, batches)
  }

  method TranslateNativeEntries(rules: Rules, provider: Provider, entries: seq<Item>, budget: real) returns (r: Session)
    ensures IsSession(rules, provider, entries, budget, r)
  {
    var cut := BuildTranslationBatches(entries, budget);
    var translated: map<string, string> := map[];
    var prompts := 0;
    for i := 0 to |cut|
      invariant TranslateAll(rules, provider, cut[..i], 0) == Session(Translated(translated), prompts)
    {
      assert cut[..i + 1][..i] == cut[..i];
      var result := TranslateBatch(rules, provider, cut[i], prompts);
      if result.outcome.Failed? {
        FailedStaysFailed(rules, provider, cut, i + 1, 0);
        assert IsSessionOver(rules, provider, entries, budget, result, cut);
        return result;
      }
      translated := translated + result.outcome.translations;
      prompts := result.prompts;
    }
    assert cut[..|cut|] == cut;
    r := Session(Translated(translated), prompts);
    assert IsSessionOver(rules, provider, entries, budget, r, cut);
  }

  /** For distinct ids, a normal return maps exactly all ids to non-blank text with the
      source's placeholders, with at least one prompt per batch and at most 4N - 2k prompts
      for N entries in k batches. */
  lemma {:induction false} AllTranslated(rules: Rules, provider: Provider, batches: seq<seq<Item>>, used: nat)
    requires forall b <- batches :: b != []
    ensures var s := TranslateAll(rules, provider, batches, used);
      s.prompts <= used + 4 * |Flatten(batches)| - 2 * |batches| &&
      (s.outcome.Translated? ==> used + |batches| <= s.prompts) &&
      (s.outcome.Translated? && DistinctKeys(Flatten(batches)) ==> Faithful(rules, Flatten(batches), s.outcome.translations))
  {
    if batches != [] {
      var n := |batches| - 1;
      assert forall b <- batches[..n] :: b in batches;
      AllTranslated(rules, provider, batches[..n], used);
      var before := TranslateAll(rules, provider, batches[..n], used);
      assert batches[n] in batches;
      if before.outcome.Translated? {
        PromptBound(rules, provider, batches[n], 0, before.prompts);
        var last := Translate(rules, provider, batches[n], 0, before.prompts);
        if last.outcome.Translated? && DistinctKeys(Flatten(batches)) {
          DistinctParts(Flatten(batches[..n]), batches[n]);
          TranslatedIsFaithful(rules, provider, batches[n], 0, before.prompts);
          JoinFaithful(rules, Flatten(batches[..n]), batches[n], before.outcome.translations, last.outcome.translations);
        }
      }
    }
  }

  lemma DistinctParts(a: seq<Item>, b: seq<Item>)
    requires DistinctKeys(a + b)
    ensures DistinctKeys(a) && DistinctKeys(b)
  {
    assert (a + b)[..|a|] == a && (a + b)[|a|..] == b;
  }

  /** A whole session: all ids, faithfully, within 4N - 2k prompts, where k is the number of
      batches it went through, the fewest there can be. */
  lemma SessionIsFaithful(rules: Rules, provider: Provider, entries: seq<Item>, budget: real, r: Session) returns (k: nat)
    requires IsSession(rules, provider, entries, budget, r)
    ensures exists batches :: |batches| == k && IsSessionOver(rules, provider, entries, budget, r, batches)
    ensures forall batches :: Flatten(batches) == entries && GoodBatches(batches, budget) ==> k <= |batches|
    ensures forall batches :: Flatten(batches) == entries && Greedy(batches, budget) ==> |batches| == k
    ensures r.prompts <= 4 * |entries| - 2 * k && (entries != [] ==> k > 0)
    ensures r.outcome.Translated? ==> k <= r.prompts
    ensures r.outcome.Translated? && DistinctKeys(entries) ==> Faithful(rules, entries, r.outcome.translations)
  {
    var batches :| IsSessionOver(rules, provider, entries, budget, r, batches);
    AllTranslated(rules, provider, batches, 0);
    k := |batches|;
    forall other | Flatten(other) == entries && GoodBatches(other, budget) ensures k <= |other| {
      GreedyIsFewest(batches, other, budget);
    }
    forall other | Flatten(other) == entries && Greedy(other, budget) ensures |other| == k {
      GreedyIsFewest(batches, other, budget);
      GreedyIsFewest(other, batches, budget);
    }
  }
}
