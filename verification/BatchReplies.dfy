/** Which replies are accepted, what is taken from them, and that every translation a session
    returns was in an accepted reply (scripts/control-ui-i18n.ts). */
module BatchReplies {
  import opened Text
  import opened TranslationBatches
  import opened BatchTranslator

  /** The reply translates the item: a text that is not blank and has the placeholders of the
      item's own text. */
  predicate TranslatesItem(rules: Rules, fields: map<string, JsonValue>, item: Item) {
    && item.key in fields
    && fields[item.key].JsonText?
    && !IsBlank(fields[item.key].value)
    && rules.placeholders(fields[item.key].value) == rules.placeholders(item.text)
  }

  lemma SameAsItems(rules: Rules, fields: map<string, JsonValue>, items: seq<Item>)
    requires DistinctKeys(items) && FirstMissing(fields, items).None?
    ensures SamePlaceholders(rules, SourceMap(items), Values(fields, items)) <==>
            forall item <- items :: TranslatesItem(rules, fields, item)
  {
    var source, translated := SourceMap(items), Values(fields, items);
    SourceMapDistinct(items);
    AllUsable(fields, items);
    forall item <- items
      ensures item.key in source && source[item.key] == item.text && item.key in translated && translated[item.key] == fields[item.key].value
      ensures item.key in fields && fields[item.key].JsonText? && !IsBlank(fields[item.key].value)
    {
      assert Usable(fields, item.key);
    }
    if SamePlaceholders(rules, source, translated) {
      forall item <- items ensures TranslatesItem(rules, fields, item) {
        assert item.key in source;
      }
    }
    if forall item <- items :: TranslatesItem(rules, fields, item) {
      forall key <- source
        ensures rules.placeholders(source[key]) == rules.placeholders(if key in translated then translated[key] else "")
      {
        var item :| item in items && item.key == key;
        assert TranslatesItem(rules, fields, item);
      }
    }
  }

  /** For distinct keys a reply is accepted exactly when it translates every item, and what is
      taken from it is, for each item, its text as it is. */
  lemma ReplyAcceptedExactly(rules: Rules, fields: map<string, JsonValue>, items: seq<Item>)
    requires DistinctKeys(items)
    ensures var result := Validate(rules, Parsed(fields), items);
      (result.Translated? <==> forall item <- items :: TranslatesItem(rules, fields, item)) &&
      (result.Translated? ==> TakenFrom(fields, items, result.translations))
  {
    AllUsable(fields, items);
    assert (forall item <- items :: TranslatesItem(rules, fields, item)) ==> forall item <- items :: Usable(fields, item.key);
    if FirstMissing(fields, items).None? {
      SameAsItems(rules, fields, items);
      TakenValues(fields, items);
    }
  }

  /** Each key of the items, and no other, has the reply's text for it. */
  ghost predicate TakenFrom(fields: map<string, JsonValue>, items: seq<Item>, translations: map<string, string>) {
    && (forall key :: key in translations <==> exists item <- items :: item.key == key)
    && (forall key <- translations :: key in fields && fields[key] == JsonText(translations[key]))
  }

  lemma TakenValues(fields: map<string, JsonValue>, items: seq<Item>)
    requires FirstMissing(fields, items).None?
    ensures TakenFrom(fields, items, Values(fields, items))
  {
    AllUsable(fields, items);
    forall key <- Values(fields, items) ensures key in fields && fields[key] == JsonText(Values(fields, items)[key]) {
      var item :| item in items && item.key == key;
      assert Usable(fields, item.key);
    }
  }

  // ----- where translations come from

  /** Prompt `n` was about these items, and this translation of the key was in its reply. */
  ghost predicate Given(rules: Rules, provider: Provider, n: nat, items: seq<Item>, key: string, value: string) {
    var result := Validate(rules, provider(n, items), items);
    result.Translated? && key in result.translations && result.translations[key] == value
  }

  /** A prompt from `lo` up to `hi`, about a part of the items that holds this key. */
  ghost predicate GivenWithin(rules: Rules, provider: Provider, items: seq<Item>, key: string, value: string, lo: nat, hi: nat) {
    exists n: nat, from: nat, to: nat :: GivenAt(rules, provider, items, key, value, lo, hi, n, from, to)
  }

  ghost predicate GivenAt(rules: Rules, provider: Provider, items: seq<Item>, key: string, value: string, lo: nat, hi: nat,
                          n: nat, from: nat, to: nat)
  {
    lo <= n < hi && from <= to <= |items| && Given(rules, provider, n, items[from..to], key, value)
  }

  lemma GivenInPart(rules: Rules, provider: Provider, items: seq<Item>, a: nat, d: nat, key: string, value: string,
                    lo: nat, hi: nat, low: nat, high: nat)
    requires a <= d <= |items| && GivenWithin(rules, provider, items[a..d], key, value, lo, hi) && low <= lo && hi <= high
    ensures GivenWithin(rules, provider, items, key, value, low, high)
  {
    var n: nat, from: nat, to: nat :| GivenAt(rules, provider, items[a..d], key, value, lo, hi, n, from, to);
    SliceOfSlice(items, a, d, from, to);
    assert GivenAt(rules, provider, items, key, value, low, high, n, a + from, a + to);
  }

  /** Every translation of a map was given by a prompt from `lo` up to `hi`. */
  ghost predicate AllGiven(rules: Rules, provider: Provider, items: seq<Item>, translations: map<string, string>, lo: nat, hi: nat) {
    forall key <- translations :: GivenWithin(rules, provider, items, key, translations[key], lo, hi)
  }

  lemma GivenAtOnce(rules: Rules, provider: Provider, items: seq<Item>, used: nat)
    requires Validate(rules, provider(used, items), items).Translated?
    ensures AllGiven(rules, provider, items, Validate(rules, provider(used, items), items).translations, used, used + 1)
  {
    var translations := Validate(rules, provider(used, items), items).translations;
    assert items[0..|items|] == items;
    forall key <- translations ensures GivenWithin(rules, provider, items, key, translations[key], used, used + 1) {
      assert GivenAt(rules, provider, items, key, translations[key], used, used + 1, used, 0, |items|);
    }
  }

  lemma GivenByHalves(rules: Rules, provider: Provider, items: seq<Item>, m: nat, left: map<string, string>, right: map<string, string>,
                      lo: nat, mid: nat, hi: nat)
    requires m <= |items| && lo <= mid <= hi
    requires AllGiven(rules, provider, items[..m], left, lo, mid) && AllGiven(rules, provider, items[m..], right, mid, hi)
    ensures AllGiven(rules, provider, items, left + right, lo, hi)
  {
    assert items[0..m] == items[..m] && items[m..|items|] == items[m..];
    forall key <- left + right ensures GivenWithin(rules, provider, items, key, (left + right)[key], lo, hi) {
      if key in right { GivenInPart(rules, provider, items, m, |items|, key, right[key], mid, hi, lo, hi); }
      else { GivenInPart(rules, provider, items, 0, m, key, left[key], lo, mid, lo, hi); }
    }
  }

  lemma GivenLonger(rules: Rules, provider: Provider, items: seq<Item>, translations: map<string, string>, lo: nat, low: nat, hi: nat)
    requires AllGiven(rules, provider, items, translations, lo, hi) && low <= lo
    ensures AllGiven(rules, provider, items, translations, low, hi)
  {
    assert items[0..|items|] == items;
    forall key <- translations ensures GivenWithin(rules, provider, items, key, translations[key], low, hi) {
      GivenInPart(rules, provider, items, 0, |items|, key, translations[key], lo, hi, low, hi);
    }
  }

  /** What a batch returns was given by its own prompts, about parts of the batch. */
  lemma {:induction false} BatchReturnsReplies(rules: Rules, provider: Provider, items: seq<Item>, attempt: nat, used: nat)
    requires attempt < TRANSLATE_MAX_ATTEMPTS && Translate(rules, provider, items, attempt, used).outcome.Translated?
    ensures var s := Translate(rules, provider, items, attempt, used);
      used < s.prompts && AllGiven(rules, provider, items, s.outcome.translations, used, s.prompts)
    decreases |items|, TRANSLATE_MAX_ATTEMPTS - attempt
  {
    var result := Validate(rules, provider(used, items), items);
    if result.Translated? {
      GivenAtOnce(rules, provider, items, used);
    } else if IsPromptTimeout(result.message) {
      var m := Midpoint(items);
      var left := Translate(rules, provider, items[..m], 0, used + 1);
      BatchReturnsReplies(rules, provider, items[..m], 0, used + 1);
      var right := Translate(rules, provider, items[m..], 0, left.prompts);
      BatchReturnsReplies(rules, provider, items[m..], 0, left.prompts);
      GivenByHalves(rules, provider, items, m, left.outcome.translations, right.outcome.translations, used + 1, left.prompts, right.prompts);
      GivenLonger(rules, provider, items, left.outcome.translations + right.outcome.translations, used + 1, used, right.prompts);
    } else {
      BatchReturnsReplies(rules, provider, items, attempt + 1, used + 1);
      var s := Translate(rules, provider, items, attempt + 1, used + 1);
      GivenLonger(rules, provider, items, s.outcome.translations, used + 1, used, s.prompts);
    }
  }

  /** A prompt from `lo` up to `hi`, about a part of one of the batches. */
  ghost predicate GivenInSome(rules: Rules, provider: Provider, batches: seq<seq<Item>>, key: string, value: string, lo: nat, hi: nat) {
    exists batch <- batches :: GivenWithin(rules, provider, batch, key, value, lo, hi)
  }

  lemma GivenInMore(rules: Rules, provider: Provider, batches: seq<seq<Item>>, more: seq<seq<Item>>, key: string, value: string,
                    lo: nat, hi: nat, high: nat)
    requires GivenInSome(rules, provider, batches, key, value, lo, hi) && hi <= high && forall batch <- batches :: batch in more
    ensures GivenInSome(rules, provider, more, key, value, lo, high)
  {
    var batch :| batch in batches && GivenWithin(rules, provider, batch, key, value, lo, hi);
    assert batch[0..|batch|] == batch;
    GivenInPart(rules, provider, batch, 0, |batch|, key, value, lo, hi, lo, high);
  }

  /** Every translation a session returns was in the accepted reply to one of its prompts. */
  lemma {:induction false} SessionReturnsReplies(rules: Rules, provider: Provider, batches: seq<seq<Item>>, used: nat)
    requires TranslateAll(rules, provider, batches, used).outcome.Translated?
    ensures var s := TranslateAll(rules, provider, batches, used);
      used <= s.prompts && forall key <- s.outcome.translations ::
        GivenInSome(rules, provider, batches, key, s.outcome.translations[key], used, s.prompts)
  {
    if batches != [] {
      var n := |batches| - 1;
      var before := TranslateAll(rules, provider, batches[..n], used);
      var last := Translate(rules, provider, batches[n], 0, before.prompts);
      SessionReturnsReplies(rules, provider, batches[..n], used);
      BatchReturnsReplies(rules, provider, batches[n], 0, before.prompts);
      GivenLonger(rules, provider, batches[n], last.outcome.translations, before.prompts, used, last.prompts);
      var all := before.outcome.translations + last.outcome.translations;
      forall key <- all ensures GivenInSome(rules, provider, batches, key, all[key], used, last.prompts) {
        if key in last.outcome.translations { assert batches[n] in batches; }
        else { GivenInMore(rules, provider, batches[..n], batches, key, all[key], used, before.prompts, last.prompts); }
      }
    }
  }

  /** Halving gives two parts whose sizes differ by at most one, the larger one first. */
  lemma HalvesAreEven(items: seq<Item>)
    ensures 0 <= 2 * Midpoint(items) - |items| <= 1
  {
  }
}
