# Models of the repository's script tooling

Several of the scripts contain small compilers, protocols and search algorithms whose
correctness cannot be read off any single function. This project models nine of those
scripts in Dafny and proves what they promise, over all inputs and all runs.

- **Android resource compiler** (`Text`, `Decimals`, `EscapeChains`, `EscapeTables`,
  `KotlinInterpolations`, `InterpolationGrammar`, `AndroidRenderer`, `FormatMeaning`,
  `KotlinSegments`, `SegmentGrammar`). A scanner finds the interpolations of a Kotlin
  string, a renderer turns a translation into a positional format string, and chained
  replacements escape it. `FormatMeaning` interprets format strings and proves that
  compiling preserves meaning, through escaping and decoding.
- **Child-process supervisor** (`ProcessOutput`, `ProcessMachine`, `ProcessSafety`,
  `ProcessReraise`, `ProcessProgress`, `ProcessOutcomes`, `RunProcess`).
  `ProcessMachine` is the event machine for any number of concurrent runs and the set they
  share; `RunProcess` holds the closure of a run as a
  class, with one method per callback, each proved to make the machine's step. A log in each
  run records what was sent and observed.
- **Batch translator** (`TranslationBatches`, `BatchTranslator`, `BatchReplies`,
  `PromptTimeouts`): the greedy batcher and the retry-and-halve loop, against arbitrary
  replies.
- **Call scanner** (`CallScanner`, `CallGrammar`), **path patterns** (`PathPatterns`),
  **release refs** (`ReleaseRefs`, `ReleaseRemote`, `VersionCodes`), **restart benchmark**
  (`OutputLines`, `RestartProbe`, `ProbeReport`), **Apple catalog and selectors**
  (`Selectors`, `SortedTexts`, `AppleCatalog`, `AppleUnits`), **labeller** (`LabelBatches`,
  `Labeller`, `LabelCoverage`) and **control UI catalogs** (`CatalogAnalysis`,
  `CatalogOrder`, `CatalogBaseline`).

The three scanners are measured against `SourceCode`: trees of bracketed and quoted code and
their printer, which know nothing of scanner states.

Loops and mutable objects are methods and classes; each is proved equal to a function or a
relation, and the promises are lemmas about that function or relation.

## What the code does not promise

Some properties one might expect fail. The model follows the code; the theorems named here
give a failing case and the exact condition under which the property holds.

- A backslash directly followed by the letter n does not survive either escape chain: the
  decoders turn `\\n` into a line feed before they turn `\\` into a backslash
  (`EscapeChains.DecodeXmlUndoesEscape`, `EscapeChains.DecodeKotlinUndoesEscape`).
- The parent's re-raise can be lost: a run that starts after the signal and then settles
  leaves the shared set without checking it again (`ProcessReraise.LateStartMissesReraise`).
  It is lost exactly when an event settles the last active run that was not signalled
  (`ProcessReraise.MissedExactlyOnLeaving`, `ProcessReraise.ReraiseLostExactly`).
- A child's `error` event that comes between the timeout and the end of the grace period
  cancels the forced kill (`ProcessProgress.ErrorAfterTimeoutDropsKill`); no other event of
  the run drops it while the group may be alive (`ProcessProgress.KillDroppedExactly`).
- Exempting a pattern because a classification matches it as text is unsound exactly for
  patterns that contain `**` (`PathPatterns.DoubleStarMisleads`,
  `PathPatterns.TextTestSoundExactly`).
- Android version codes of patches with different widths are not always ordered like their
  releases (`VersionCodes.WidePatchOvertakesNextMonth`, `VersionCodes.MixedWidthOrder`).
- The batcher charges two characters more per item than the estimate it is named after
  (`TranslationBatches.ChargeCoversEstimate`), so batches can only be smaller than needed.
- A reply that arrives on time can be treated like a prompt timeout and halve the batch
  (`PromptTimeouts.OnTimeReplyHalves`). It does so exactly when the error about it says
  "timed out", for instance through the key of an item without a translation
  (`PromptTimeouts.HalvesExactly`). The bound on prompts covers this.
- A scoped catalog update can drop a pair of another locale
  (`CatalogBaseline.NulLocaleIsMistaken`), exactly when that locale's name, or its key and
  name together, end in NUL and the resolved name
  (`CatalogBaseline.WrongDropPassesExactly`). Names without NUL exclude this
  (`CatalogBaseline.AcceptsExactly`).

## Model

| member | source | states |
|---|---|---|
| EscapeChains.DecodeXmlUndoesEscape | scripts/android-app-i18n.ts:99-109 | Decoding a rendered resource gives the text back exactly when the text has no backslash followed by n; otherwise each such backslash-n pair becomes backslash, line feed and nothing else changes (the escape chain is lines 213-221) |
| EscapeChains.DecodeKotlinUndoesEscape | scripts/android-app-i18n.ts:223-229 | The same exact round trip for Kotlin literals, with the decoder of lines 333-339 |
| EscapeChains.EscapeResourcePieces | scripts/android-app-i18n.ts:213-221 | The seven chained replacements act as one pass that rewrites each unit of the text on its own |
| EscapeChains.EscapeKotlinPieces | scripts/android-app-i18n.ts:223-229 | The Kotlin escape chain likewise is one pass over the units |
| EscapeChains.CorruptIdentity | scripts/android-app-i18n.ts:99-109 | The damage keeps the length, and is no damage exactly for texts without a backslash-n pair |
| EscapeTables.EscapeResourceEach | scripts/android-app-i18n.ts:213-221 | Escaping a resource escapes every character on its own, by the table of Android and XML escapes |
| EscapeTables.EscapeKotlinEach | scripts/android-app-i18n.ts:223-229 | Escaping a Kotlin literal escapes every character on its own, by its table |
| EscapeTables.QuoteEntityDecodes | scripts/android-app-i18n.ts:103 | In every text decoding turns the quote entity into a quote and decodes what stands before and after it on its own, except that a backslash directly before it is dropped |
| KotlinInterpolations.ReadKotlinInterpolations | scripts/android-app-i18n.ts:117-167 | The one-index scanner with its depth, quote and escape variables returns what the recursive scan returns |
| KotlinInterpolations.ScanTiles | scripts/android-app-i18n.ts:117-167 | The scan returns a list of spans if and only if those spans are ordered and disjoint, each is one complete interpolation with its text, and no interpolation starts between them |
| KotlinInterpolations.ScanFails | scripts/android-app-i18n.ts:147-149 | The scan returns null if and only if, after properly tiled spans, it reaches a `${` whose brace is never closed outside quotes |
| KotlinInterpolations.InterpolationEndExact | scripts/android-app-i18n.ts:123-146 | The end found for an interpolation is its only end: the longest name, or the brace that closes the first one, with quotes and escapes respected |
| KotlinInterpolations.ScanRebuilds | scripts/android-app-i18n.ts:117-167 | Literal gaps and interpolation values, interleaved, are the source text |
| InterpolationGrammar.PrintedInterpolationEnds | scripts/android-app-i18n.ts:139-160 | For any code with nested braces, quoted text in either quote and escapes, printed inside an interpolation in any context, the interpolation ends at its own closing brace |
| InterpolationGrammar.PrintedTemplateScans | scripts/android-app-i18n.ts:117-167 | Of any printed template, with names and code, the scanner finds exactly the interpolations, in order |
| AndroidRenderer.RenderAndroidResourceValue | scripts/android-app-i18n.ts:169-221 | The renderer with its two scans, count maps and occurrence maps equals the declarative rendering, including both refusals and the plain-text case |
| AndroidRenderer.RenderTemplate | scripts/android-app-i18n.ts:199-211 | The cursor loop produces doubled-percent gaps and references in order |
| AndroidRenderer.SourceIndices | scripts/android-app-i18n.ts:193-198 | For each token the index map holds exactly its 1-based source positions, in order |
| AndroidRenderer.TokenCounts | scripts/android-app-i18n.ts:180-186 | The count map holds exactly the tokens that occur, each with its multiplicity |
| AndroidRenderer.CountsDecideMultisets | scripts/android-app-i18n.ts:187-191 | Comparing the two count maps decides equality of the interpolation multisets |
| AndroidRenderer.NextReference | scripts/android-app-i18n.ts:203-208 | One occurrence is used up and the reference is the source position of that occurrence |
| FormatMeaning.ReferencesArePositional | scripts/android-app-i18n.ts:199-208 | With equal multisets every translated token finds its source occurrence, so the fallback to the raw token is never taken |
| FormatMeaning.MatchedIsPermutation | scripts/android-app-i18n.ts:193-208 | The positions used are a permutation of 1..n |
| FormatMeaning.TemplateMeaning | scripts/android-app-i18n.ts:169-212 | Formatting the template with one argument per source token yields the translation with every token replaced by the argument of its matching source occurrence |
| FormatMeaning.TemplateEvaluates | scripts/android-app-i18n.ts:169-212 | With arguments that depend on the token alone, formatting yields the translation with each interpolation replaced by its value |
| FormatMeaning.FormatInterleaving | scripts/android-app-i18n.ts:199-211 | Doubled percents and positional references are read back as the literal gaps and the picked arguments, whatever the gaps contain |
| FormatMeaning.ResourceMeaning | scripts/android-app-i18n.ts:169-221 | End to end: the escaped resource, decoded and formatted, is the intended text if and only if no literal gap holds a backslash-n pair |
| FormatMeaning.PlainResourceMeaning | scripts/android-app-i18n.ts:169-221 | Without interpolations the resource decodes to the translation under the same exact condition |
| FormatMeaning.RenderRefuses | scripts/android-app-i18n.ts:169-191 | The renderer throws exactly when a scan fails, or when the two texts use different interpolation multisets |
| KotlinSegments.FindClosingDelimiter | scripts/android-app-i18n.ts:516-551 | Returns the first position whose delimiter brings the unquoted depth back to zero, and null only when there is none |
| KotlinSegments.SplitTopLevelSegments | scripts/android-app-i18n.ts:611-679 | Segments tile the range one comma apart, each with its slice, and their values are the cutting of the range |
| KotlinSegments.OnlyCutting | scripts/android-app-i18n.ts:611-679 | A list of pieces is the answer if and only if comma-joining it rebuilds the text and it is cut at top-level commas only, with or without type arguments |
| KotlinSegments.PiecesOfCutting | scripts/android-app-i18n.ts:611-679 | Splitting undoes comma-joining for every list of closed pieces |
| KotlinSegments.PrintedCallParsesBack | scripts/android-app-i18n.ts:516-551 | A printed argument list is found and split back into its arguments, whatever precedes and follows it (the pair is used at lines 868-872) |
| SegmentGrammar.PrintedGroupCloses | scripts/android-app-i18n.ts:516-551 | For every kind of bracket and any code, with nested brackets and quoted text, the printed closing bracket is the one found |
| SegmentGrammar.PrintedArgumentsSplit | scripts/android-app-i18n.ts:611-679 | Splitting a printed argument list, with nested brackets and quoted text, gives the printed arguments |
| SegmentGrammar.PrintedParametersSplit | scripts/android-app-i18n.ts:620-676 | Splitting a printed parameter list, with nested type arguments and default values, gives the printed parameters |
| ProcessOutput.CaptureIsTail | scripts/control-ui-i18n.ts:543-554 | However output is cut into chunks, the capture is its last limit characters and the exact count of those dropped; nothing is dropped iff the capture is everything |
| ProcessOutput.ResolveOutputLimit | scripts/control-ui-i18n.ts:535-541 | The limit is always at least 1, and is the floor of a given finite value that is at least 1 |
| ProcessSafety.PromisesAreSafe | scripts/control-ui-i18n.ts:572-784 | In every interleaving of any number of runs: a promise settles at most once and keeps its outcome, never resolves once timed out, is rejected as timed out only when its group was seen dead or sent SIGKILL, and success with code 0 carries all of stdout |
| ProcessSafety.ReraiseFindsAllAccounted | scripts/control-ui-i18n.ts:563-570 | When the parent re-raises its signal, every run ever started has closed, errored, been seen dead or been sent SIGKILL |
| ProcessSafety.RelayStaysScheduled | scripts/control-ui-i18n.ts:640-667 | Until a signalled run is done, its forced kill stays scheduled |
| ProcessOutcomes.OutcomesAreRight | scripts/control-ui-i18n.ts:699-782 | In every history a settled promise was rejected by the error event, or has the outcome that the exit of its close event calls for: timed out; failed, if failures reject and the code is not 0; too much output, on code 0; else resolved with the code, or 1 without one, and the tail of stdout |
| ProcessOutcomes.SettlesRightly | scripts/control-ui-i18n.ts:699-757 | Whatever event settles a run settles it with the outcome it calls for, a kill timer with that of the remembered exit |
| ProcessOutcomes.SignalsAreRight | scripts/control-ui-i18n.ts:617-663 | In every history a run is sent SIGTERM when it times out, the relayed signal when one is relayed, SIGKILL, and nothing else |
| ProcessOutcomes.SignalsSent | scripts/control-ui-i18n.ts:617-746 | Each event sends exactly the signal it should, to the group if the group takes it |
| ProcessOutcomes.SignalPassedOn | scripts/control-ui-i18n.ts:641-664 | A parent signal is passed on as it is; the run is done at once exactly when its group is dead, and otherwise its forced kill is scheduled |
| ProcessOutcomes.RelayedRunDone | scripts/control-ui-i18n.ts:763-776 | A relayed run becomes done by its kill timer, or by a close exactly when its group is dead by then |
| ProcessOutcomes.ReraisedWereReceived | scripts/control-ui-i18n.ts:563-570 | The parent raises again only signals it received |
| ProcessOutcomes.StderrGrows | scripts/control-ui-i18n.ts:617-631 | The captured stderr grows by exactly the chunks and the refusals of signals |
| ProcessSafety.StepKeeps | scripts/control-ui-i18n.ts:572-784 | Every event of every run keeps the invariant and moves no run backward |
| ProcessReraise.MissedExactlyOnLeaving | scripts/control-ui-i18n.ts:684-698 | A step that makes the parent ready fails to re-raise exactly when, before it, one run of the active set was neither settled nor signalled, all others were signalled and done, and its event settles that run: an error, a close that is not awaited, or the kill timer after a close |
| ProcessReraise.ReraiseLostExactly | scripts/control-ui-i18n.ts:563-570 | A history comes to a ready parent that has never re-raised exactly when, before any re-raise, such an event occurs |
| ProcessProgress.NoPromiseIsStuck | scripts/control-ui-i18n.ts:728-782 | In every history an unsettled, unsignalled run either awaits its close under an armed or fired timeout, with the forced kill scheduled until sent, or has closed and is settled by its pending kill timer whatever the kill answers |
| ProcessProgress.KillDroppedExactly | scripts/control-ui-i18n.ts:753-757 | The forced kill that a timeout scheduled is dropped, with the group neither seen dead nor sent SIGKILL, exactly when an error event settles the run meanwhile and no signal is pending |
| ProcessProgress.ErrorAfterTimeoutDropsKill | scripts/control-ui-i18n.ts:753-757 | A concrete history in which that happens |
| ProcessReraise.LateStartMissesReraise | scripts/control-ui-i18n.ts:563-570 | A concrete history in which a run starts after the signal and the re-raise is lost |
| ProcessReraise.LostStaysLost | scripts/control-ui-i18n.ts:563-570 | From there no event of the existing runs, and no further signal, ever re-raises |
| ProcessReraise.GuardedHistoryReraises | scripts/control-ui-i18n.ts:563-570 | If no run starts while an active run has a signal pending, a parent that has everything done has re-raised |
| RunProcess.ParentProcess.MaybeReraise | scripts/control-ui-i18n.ts:563-570 | Re-raises exactly when every active run is done |
| RunProcess.ParentProcess.StartRun | scripts/control-ui-i18n.ts:572-605 | A new run is appended, active, with its timeout armed and handlers installed |
| RunProcess.ParentProcess.Emit | scripts/control-ui-i18n.ts:640-671 | A parent signal takes the world to the next world of the event machine, one listener after the other |
| RunProcess.ChildRun.SignalChild | scripts/control-ui-i18n.ts:617-639 | The signal goes to the group, or to the child when that fails, with the refusal appended to stderr |
| RunProcess.ChildRun.Settle | scripts/control-ui-i18n.ts:684-698 | Only the first settlement counts; a run with a relayed signal stays active |
| RunProcess.ChildRun.FinishClose | scripts/control-ui-i18n.ts:699-727 | The outcome follows the order timed out, failed, too much output, resolved |
| RunProcess.ChildRun.OnTimeout | scripts/control-ui-i18n.ts:742-746 | The timeout event takes the world to the machine's next world |
| RunProcess.ChildRun.OnTimeoutKill | scripts/control-ui-i18n.ts:728-741 | The kill timer of a timeout does too, settling a run that has closed already |
| RunProcess.ChildRun.OnRelayKill | scripts/control-ui-i18n.ts:657-663 | The kill timer of a relayed signal marks the run done and may re-raise |
| RunProcess.ChildRun.OnParentSignal | scripts/control-ui-i18n.ts:641-664 | A relayed signal is done at once on a dead group and otherwise schedules the kill |
| RunProcess.ChildRun.OnStdout | scripts/control-ui-i18n.ts:747-749 | A stdout chunk extends the bounded capture |
| RunProcess.ChildRun.OnStderr | scripts/control-ui-i18n.ts:750-752 | A stderr chunk extends the bounded capture |
| RunProcess.ChildRun.OnError | scripts/control-ui-i18n.ts:753-757 | An error rejects the promise unless it has settled |
| RunProcess.ChildRun.OnClose | scripts/control-ui-i18n.ts:763-782 | Closing waits for a live group while a kill or a relayed signal is pending |
| TranslationBatches.BuildTranslationBatches | scripts/control-ui-i18n.ts:867-891 | The batches concatenate to the items; each has 1 to 20 items and is alone or within the budget; and no batch but the last could have taken the next item |
| TranslationBatches.GoodBatchFitsBudget | scripts/control-ui-i18n.ts:517-519 | A batch of several items fits the budget by the estimate itself |
| TranslationBatches.ChargeCoversEstimate | scripts/control-ui-i18n.ts:867-891 | The batcher charges 2 characters per item more than the estimate |
| TranslationBatches.GreedyIsFewest | scripts/control-ui-i18n.ts:867-891 | No cut of the items into admissible batches has fewer batches |
| TranslationBatches.GreedyReachesFurthest | scripts/control-ui-i18n.ts:867-891 | The first k batches cover at least as many items as any k admissible batches |
| BatchTranslator.ParseTranslationBatchReply | scripts/control-ui-i18n.ts:999-1015 | A reply is accepted or refused as validation says: first unusable value, then placeholders |
| BatchReplies.ReplyAcceptedExactly | scripts/control-ui-i18n.ts:1004-1014 | For distinct keys a reply is accepted exactly when every item has a text in it that is not blank and has the placeholders of the item's own text; what is taken is that text for each item |
| BatchReplies.BatchReturnsReplies | scripts/control-ui-i18n.ts:1026-1064 | Every translation a batch returns was in the accepted reply to one of its prompts, about a part of the batch |
| BatchReplies.SessionReturnsReplies | scripts/control-ui-i18n.ts:1103-1115 | So was every translation of a session |
| BatchTranslator.CollectTranslations | scripts/control-ui-i18n.ts:1003-1011 | The loop stops at the first unusable value and otherwise keeps exactly the non-blank texts of the items |
| BatchTranslator.TranslateBatch | scripts/control-ui-i18n.ts:1017-1077 | The retry-and-halve loop equals the recursive translation and terminates |
| BatchTranslator.TranslatedIsFaithful | scripts/control-ui-i18n.ts:1017-1077 | For distinct ids a normal return maps exactly the ids of the batch to non-blank text with the source's placeholders |
| BatchTranslator.PromptBound | scripts/control-ui-i18n.ts:1017-1077 | A batch of n items takes at least one and at most 4n-2 prompts |
| BatchTranslator.BoundIsReached | scripts/control-ui-i18n.ts:1017-1077 | Some provider makes a batch of n items take exactly 4n-2 prompts and still translates all of it |
| BatchTranslator.FailureEndsAtFatalPrompt | scripts/control-ui-i18n.ts:1040-1076 | A failed batch ends at its last prompt, about a contiguous part of it: a timeout on one item, or a second answer about the same part that is as unusable as the first |
| BatchTranslator.OnePromptExactly | scripts/control-ui-i18n.ts:1026-1075 | A nonempty batch takes a single prompt exactly when its reply is valid or times out on one item; every retry and every halving takes more |
| PromptTimeouts.HalvesExactly | scripts/control-ui-i18n.ts:476-478 | A reply halves a batch of several items exactly when it says "timed out": in the error of a prompt or of the parser, in the key of the first item without a usable translation, or in the placeholder message when every item has one |
| PromptTimeouts.MissingReadsLikeItsKey | scripts/control-ui-i18n.ts:1009 | The message about a missing translation reads like a timeout exactly when the key does |
| PromptTimeouts.TimeoutWords | scripts/control-ui-i18n.ts:476-478 | The words "timed out" count in any case |
| PromptTimeouts.OnTimeReplyHalves | scripts/control-ui-i18n.ts:1040-1049 | A concrete reply that arrives and halves its batch |
| BatchTranslator.TranslateNativeEntries | scripts/control-ui-i18n.ts:1085-1119 | The loop over the greedy batches equals translating them in turn |
| BatchTranslator.SessionIsFaithful | scripts/control-ui-i18n.ts:1085-1119 | A whole session over N entries goes through k batches, the fewest admissible ones, and takes at most 4N-2k prompts; a normal return maps exactly all distinct ids to non-blank text with the source's placeholders |
| BatchTranslator.AllTranslated | scripts/control-ui-i18n.ts:1103-1115 | For any nonempty batches and distinct ids a normal return maps exactly all ids faithfully; N entries in k batches take at most 4N-2k prompts |
| CallScanner.QuoteScanState.BeginQuotedSection | scripts/check-temp-path-guardrails.ts:48-54 | Opens a quoted section exactly on a quote character |
| CallScanner.QuoteScanState.ConsumeQuotedChar | scripts/check-temp-path-guardrails.ts:56-72 | Consumes exactly the characters inside quotes, with escapes and the closing quote |
| CallScanner.FindMatchingParen | scripts/check-temp-path-guardrails.ts:74-97 | The scanner returns the matching position, or -1 |
| CallScanner.MatchingParenExact | scripts/check-temp-path-guardrails.ts:74-97 | A position is returned iff it is the first unquoted parenthesis that brings the count of open parentheses to zero |
| CallScanner.SplitTopLevelArguments | scripts/check-temp-path-guardrails.ts:99-163 | The character loop returns the pieces between top-level commas, trimmed, less a blank last one |
| CallScanner.PrintedParenMatches | scripts/check-temp-path-guardrails.ts:74-97 | The parenthesis that ends a printed call is the one found |
| CallScanner.PrintedCallParsesBack | scripts/check-temp-path-guardrails.ts:181-195 | Printing a call and scanning it gives the same arguments back, after any text and before any suffix |
| CallScanner.PiecesRebuild | scripts/check-temp-path-guardrails.ts:99-163 | Untrimmed pieces comma-joined are the source |
| CallGrammar.PrintedArgumentsScan | scripts/check-temp-path-guardrails.ts:181-195 | For any arguments with nested brackets, three kinds of quotes and escapes, printing the call and scanning it gives them back |
| CallScanner.ArgumentsKept | scripts/check-temp-path-guardrails.ts:142-162 | Only a blank last piece is dropped; every other piece is kept, trimmed |
| PathPatterns.MatchesExactly | scripts/check-policy-config-coverage.ts:209-232 | The matcher accepts a path iff the path can be cut into parts: one segment for `*`, any number for `**`, itself for a literal |
| PathPatterns.SingleSegments | scripts/check-policy-config-coverage.ts:209-232 | Without `**` matching is segment by segment at equal length |
| PathPatterns.Subsumes | scripts/check-policy-config-coverage.ts:203-232 | If P matches Q as text and Q has no `**`, P matches every path Q matches |
| PathPatterns.TextTestSoundExactly | scripts/check-policy-config-coverage.ts:75-84 | Matching a pattern as text is a sound subsumption test on ordinary paths exactly when the pattern has no `**` |
| PathPatterns.DoubleStarMisleads | scripts/check-policy-config-coverage.ts:75-84 | For every pattern with `**`: another that matches it as text, and a path without wildcards that it matches and the other does not |
| PathPatterns.UnreportedIsCovered | scripts/check-policy-config-coverage.ts:75-84 | A monitored pattern without `**` that is not reported is matched by a leaf, or all its paths are covered by an exempt classification |
| PathPatterns.ReportedExactly | scripts/check-policy-config-coverage.ts:75-84 | A pattern is reported exactly when it is monitored, matches no leaf, and no classification that needs no schema path matches it |
| PathPatterns.ReportConcat | scripts/check-policy-config-coverage.ts:75-84 | The report goes through the monitored patterns in order, each on its own |
| ReleaseRefs.StepKeeps | scripts/mobile-release-ref.ts:278-313 | Every step of every recorder keeps set refs and every success recorded |
| ReleaseRefs.SuccessIsPermanent | scripts/mobile-release-ref.ts:278-326 | After a success the ref holds the recorder's sha for ever and every answered resolve returns it |
| ReleaseRefs.SuccessesAgree | scripts/mobile-release-ref.ts:278-313 | Any two successes for one ref, at any times, carry the same sha |
| ReleaseRefs.RefsComeFromRecorders | scripts/mobile-release-ref.ts:278-313 | A set ref was set at the start or holds the sha of a recorder of that ref |
| ReleaseRefs.RerunChangesNothing | scripts/mobile-release-ref.ts:257-276 | Repeating a successful record later changes nothing and reports it as already recorded |
| ReleaseRefs.RecordIsAnUndisturbedRun | scripts/mobile-release-ref.ts:278-313 | The whole call equals its steps run without interference |
| ReleaseRemote.RemoteRepository.RecordMobileReleaseRef | scripts/mobile-release-ref.ts:278-313 | The read, conditional push and re-read leave the refs and the answer of the specified call |
| ReleaseRemote.RemoteRepository.PreflightMobileReleaseRef | scripts/mobile-release-ref.ts:257-276 | A push is tried exactly on an answered lookup of an absent ref; already recorded means exactly that the ref holds the sha; everything else throws |
| ReleaseRefs.RecordAlone | scripts/mobile-release-ref.ts:278-313 | One undisturbed call never changes a set ref; success means the ref holds the sha; it reports created exactly on an absent ref with every answer given, and throws on a ref that holds another sha |
| VersionCodes.AcceptsExactly | scripts/mobile-release-ref.ts:176-197 | Exactly the prefix followed by 01 to 99 is accepted |
| VersionCodes.CodesCount | scripts/mobile-release-ref.ts:176-197 | They are 99 different codes |
| VersionCodes.CodeDeterminesVersion | scripts/mobile-release-ref.ts:176-197 | A code belongs to at most one version, for patches of any length |
| VersionCodes.SameWidthOrder | scripts/mobile-release-ref.ts:176-197 | For patches of one padded width, all patches below 100 in particular, numeric order of codes is the order of (year, month, patch, suffix) |
| VersionCodes.MixedWidthOrder | scripts/mobile-release-ref.ts:176-197 | For patches of different padded widths the two orders agree exactly when the wider one is not from an earlier month |
| VersionCodes.WidePatchOvertakesNextMonth | scripts/mobile-release-ref.ts:176-197 | A concrete pair: 2026.1.100 is the earlier release and has the larger code than 2026.2.1 |
| VersionCodes.RefNamesAreInjective | scripts/mobile-release-ref.ts:199-213 | Valid inputs with the same ref name are the same platform, version and number |
| VersionCodes.CodeValidExactly | scripts/mobile-release-ref.ts:181-197 | A code is valid exactly if, without blanks around it, it is the prefix followed by 01 to 99 |
| VersionCodes.RefNameGivenWhen | scripts/mobile-release-ref.ts:199-213 | A ref has a name exactly if the version is valid and so is the build or the code |
| VersionCodes.RefNameShape | scripts/mobile-release-ref.ts:206-212 | The name is the prefix, the platform, the version and the number |
| OutputLines.LinesByFeed | scripts/bench-gateway-restart.ts:973-979 | Splitting on an optional carriage return and line feed is cutting at line feeds and dropping one carriage return before each |
| OutputLines.CarryIsEnough | scripts/bench-gateway-restart.ts:973-979 | The part after the last line break is all that must be carried to the next chunk |
| OutputLines.FoldIsWhole | scripts/bench-gateway-restart.ts:973-979 | However a stream is cut into chunks, even inside a carriage return and line feed pair, the folded lines and final carry are the split of the whole text |
| OutputLines.OutputBuffers.OnChunk | scripts/bench-gateway-restart.ts:1256-1271 | Each stream's handed-on lines and buffer stay the split of what that stream wrote, under any interleaving |
| OutputLines.OutputBuffers.FlushPartial | scripts/bench-gateway-restart.ts:981-998 | Flushing hands on the rest unless it is empty |
| RestartProbe.WaitForRestartProbe | scripts/bench-gateway-restart.ts:680-765 | The polling loop's result is a summary of the attempts it made |
| RestartProbe.ObservedStopsAtRecovery | scripts/bench-gateway-restart.ts:680-765 | Only the last attempt can be a 200 after a failure |
| RestartProbe.ProbeResultGivenWhen | scripts/bench-gateway-restart.ts:680-765 | `ms` is given iff the final status is 200; downtime is given iff a failed attempt was followed by a 200 |
| RestartProbe.DowntimeSpansTheOutage | scripts/bench-gateway-restart.ts:728-750 | Downtime runs from the first failed attempt to the recovery with only failed attempts between, and is nonnegative on an ordered clock |
| RestartProbe.CollapseMeans | scripts/bench-gateway-restart.ts:707-725 | Transitions are the attempts without repetitions: neighbours differ and each attempt is the one shown at its time |
| ProbeReport.AttemptsAreMade | scripts/bench-gateway-restart.ts:694-750 | One attempt is made per tick until the loop stops, which is exactly at the deadline, the end of the process, a recovery, or the caller being done when all attempts, at least one, were successful |
| ProbeReport.LastAttemptFields | scripts/bench-gateway-restart.ts:705-764 | The status is that of the last attempt and `ms` its time if it was successful |
| ProbeReport.NoFailureFields | scripts/bench-gateway-restart.ts:726-764 | Without a failed attempt there is no error, outage, recovery or downtime |
| ProbeReport.FirstFailureFields | scripts/bench-gateway-restart.ts:726-764 | The error and the start of the outage are those of the first failed attempt; recovery and downtime follow from it and a successful last attempt |
| ProbeReport.TransitionsExactly | scripts/bench-gateway-restart.ts:706-725 | The transitions, with their times, are exactly the attempts that differ from the one before |
| Selectors.ChooseTranslation | scripts/apple-app-i18n.ts:566-579 | The counting loop and penalty sort return the preferred candidate, or the source when there is none |
| Selectors.SelectDeterministicTranslation | scripts/android-app-i18n.ts:973-988 | The filter, count and sort return the first of the filtered candidates, or the empty text when there is none |
| Selectors.SelectorsAgree | scripts/android-app-i18n.ts:973-988 | On every nonempty candidate list the two selectors pick the same text |
| Selectors.ChoiceIgnoresOrder | scripts/apple-app-i18n.ts:566-579 | Permuting the candidates does not change the choice |
| Selectors.SourceChosenExactly | scripts/apple-app-i18n.ts:566-579 | The penalty selector chooses the source exactly when no candidate differs from it |
| Selectors.SourceOnlyWithoutAlternative | scripts/android-app-i18n.ts:1120-1126 | The filtering selector selects the source exactly when every candidate equals it, so the guard that throws is unreachable |
| Selectors.ChooseIsChosen | scripts/apple-app-i18n.ts:571-577 | The chosen candidate comes before every other one in the sort |
| Selectors.LessExactly | scripts/apple-app-i18n.ts:442-444 | The order of texts is that of code units: a proper prefix first, else the smaller character at the first difference |
| Selectors.ChoiceIsMostFrequent | scripts/apple-app-i18n.ts:571-577 | Among the candidates that differ from the source, or all if none does, the choice is one of the most frequent, and of those the first in code-unit order |
| AppleCatalog.BuildIosCatalog | scripts/apple-app-i18n.ts:581-667 | The nested loops produce the specified catalog, write its sources in code-unit order, and report the contradictions in the specified order |
| AppleCatalog.ReportMeans | scripts/apple-app-i18n.ts:627-630 | The report is ordered by source and locale, is about exactly those with more than one distinct candidate, and lists these in order and once each (sorted at lines 661-664) |
| AppleUnits.UnshippedUnit | scripts/apple-app-i18n.ts:640-651 | Without a shipped unit, English gets the source; a locale without candidates gets the source as new; any other gets the preferred candidate, as translated exactly if some candidate differs from the source |
| AppleUnits.TranslatedUnit | scripts/apple-app-i18n.ts:635-639 | A unit in the state "translated" with a nonempty text is kept as it is |
| AppleUnits.CatalogShape | scripts/apple-app-i18n.ts:622-654 | The catalog holds exactly the sources in use, each with exactly the required locales |
| AppleUnits.CandidatesCount | scripts/apple-app-i18n.ts:602-618 | A candidate occurs once for every entry of the artifact whose text is the source and whose id a native entry with that source has |
| AppleUnits.LastArtifactCounts | scripts/apple-app-i18n.ts:600-621 | The entries used for a locale are those of its last artifact |
| SortedTexts.SortedDistinctMeans | scripts/apple-app-i18n.ts:627 | Sorting the set of candidates gives the same texts in strict code-unit order |
| SortedTexts.SortedIsUnique | scripts/apple-app-i18n.ts:627 | Only one list does, so it does not depend on the order of the candidates |
| AppleCatalog.GroupArtifacts | scripts/apple-app-i18n.ts:602-621 | Candidates are grouped by locale and source, keeping only entries whose id belongs to the source; the last artifact of a locale wins |
| AppleCatalog.BuildIsIdempotent | scripts/apple-app-i18n.ts:581-667 | Feeding the catalog back with the same inputs returns the same catalog |
| AppleCatalog.ShippedIsKept | scripts/apple-app-i18n.ts:635-639 | A shipped nonempty translated unit of a retained source is never altered |
| AppleCatalog.ShippedIsKeptForever | scripts/apple-app-i18n.ts:581-667 | The same over any series of builds on changing inputs |
| AppleCatalog.BuildIgnoresEntryOrder | scripts/apple-app-i18n.ts:581-667 | Permuting artifact entries changes neither catalog nor contradictions |
| LabelBatches.FetchBatches | scripts/label-open-issues.ts:551-611 | On success the yielded batches concatenate to the first min(limit, total) nodes and all but the last hold 500; if a page fails, full batches of a prefix were yielded |
| LabelBatches.TakeNodes | scripts/label-open-issues.ts:580-597 | The loop over a page takes its nodes up to the limit, closing a batch at 500 |
| LabelBatches.ListedExactly | scripts/label-open-issues.ts:566-603 | What is listed are the nodes of the pages up to the first without a successor |
| Labeller.LabelAudit.ProcessItems | scripts/label-open-issues.ts:883-922 | The item loop equals working the items in turn until the run dies |
| Labeller.LabelAudit.ProcessBatches | scripts/label-open-issues.ts:869-930 | The checkpoint loop equals working the batches in turn, saving after each that had pending items |
| Labeller.LabelAudit.Run | scripts/label-open-issues.ts:842-1006 | A run leaves in the state file what the specified run leaves |
| Labeller.RunIsSafe | scripts/label-open-issues.ts:842-1006 | One run: the file only grows, by numbers it finished; no number the file held is classified; a dry run leaves the file alone; a death at any item, page or save costs at most 500 finished numbers and a surviving real run none |
| Labeller.SaveDeathLosesBatch | scripts/label-open-issues.ts:919-930 | The bound is exact: dying on the save after a full batch of new issues loses all 500 |
| Labeller.YieldedInBatches | scripts/label-open-issues.ts:551-611 | Whatever the generator yields, cut short or not, is in batches of at most 500 |
| Labeller.SurvivingRunRecordsAll | scripts/label-open-issues.ts:842-1006 | A real run that does not die leaves every listed number in the file |
| Labeller.FileOnlyGrows | scripts/label-open-issues.ts:455-460 | Over any series of runs the file only grows |
| Labeller.NeverClassifiedAgain | scripts/label-open-issues.ts:874-876 | What the file holds after a run, no later run asks the model about |
| Labeller.PersistedWereFinished | scripts/label-open-issues.ts:919-930 | A number in the file was there at first or was finished by an earlier real run |
| LabelCoverage.FinishedWereClassified | scripts/label-open-issues.ts:883-978 | In every run, dying or not: a finished issue was classified; a finished pull request was classified exactly if it lacks the skill label; a labelled one never is |
| LabelCoverage.SurvivingRunClassifies | scripts/label-open-issues.ts:869-1006 | A surviving run finishes exactly the listed items the file did not hold, and classifies exactly those issues and those pull requests without the label |
| LabelCoverage.FinishedWereListed | scripts/label-open-issues.ts:869-1006 | What a run finishes was listed |
| LabelCoverage.RecordedWereClassified | scripts/label-open-issues.ts:842-1006 | Over any series of runs a recorded number was there at first, or a real run that listed it finished it and classified it if it needed to be |
| CatalogAnalysis.AnalyzeCatalogs | scripts/control-ui-i18n-verify.ts:105-154 | The errors are those of the locales in sorted order, and there are none iff every catalog is clean; the fallbacks list exactly the missing (key, locale) pairs, each list sorted, without repetitions or empty lists |
| CatalogAnalysis.AnalyzeKeys | scripts/control-ui-i18n-verify.ts:127-144 | The key loop of one locale reports the placeholder mismatches and appends the locale to the lists of the keys it lacks |
| CatalogAnalysis.AnalyzeShape | scripts/control-ui-i18n-verify.ts:116-125 | Nothing is reported iff the locale's keys are a subsequence of the English keys; orphan keys are reported first, all of them and nothing else |
| CatalogAnalysis.ShapeIsSubsequence | scripts/control-ui-i18n-verify.ts:116-125 | Neither is reported iff the locale's keys are a subsequence of the English keys |
| CatalogAnalysis.NoProblemsIffClean | scripts/control-ui-i18n-verify.ts:112-145 | A locale has no error iff its keys are a subsequence of the English keys with equal placeholders |
| CatalogOrder.OutOfOrderExactly | scripts/control-ui-i18n-verify.ts:121-125 | A locale is reported as out of order, by name, exactly when two keys it shares with English are swapped, orphan keys or not |
| CatalogOrder.MismatchesExactly | scripts/control-ui-i18n-verify.ts:127-144 | Placeholders are reported for exactly the keys of both catalogs whose texts differ in them |
| CatalogAnalysis.FallbackCount | scripts/control-ui-i18n-verify.ts:105-154 | Without errors the pairs number locales times English keys less all locale keys |
| CatalogBaseline.EncodeIsInjective | scripts/control-ui-i18n-verify.ts:16-22 | For locale names without NUL the encoded pair determines key and locale |
| CatalogBaseline.AcceptsExactly | scripts/control-ui-i18n-verify.ts:24-43 | A scoped update passes iff version and hash agree, no pair is new, and every pair that goes belongs to the resolved locale |
| CatalogBaseline.SuffixReads | scripts/control-ui-i18n-verify.ts:35-37 | For any names, the suffix test holds of a pair iff it is of the resolved locale or its locale, or its key and locale together, end in NUL and the resolved name |
| CatalogBaseline.AcceptsAnyNames | scripts/control-ui-i18n-verify.ts:24-43 | Without any assumption about names, an update passes iff version and hash agree, no pair is new, and every dropped pair is of the resolved locale or mistaken for one in that way |
| CatalogBaseline.WrongDropPassesExactly | scripts/control-ui-i18n-verify.ts:35-37 | An update that only drops a pair of another locale passes exactly when the pair is so mistaken |
| CatalogBaseline.NulLocaleIsMistaken | scripts/control-ui-i18n-verify.ts:35-37 | A concrete such update |
| CatalogBaseline.RunOnlyDropsResolved | scripts/control-ui-i18n-verify.ts:24-43 | Any run of accepted updates only removes pairs, and only of locales it resolved |
| CatalogBaseline.OtherLocalesUntouched | scripts/control-ui-i18n-verify.ts:24-43 | If an update between two analyses passes, every other locale lacks exactly the keys it lacked before |

## Left out

- An `error` emitted synchronously while the supervisor is inside `child.kill`: every event
  of the machine runs to its end.
- Spawning, real signals, clocks, the file system, git, HTTP and the language model: their
  answers are arbitrary inputs, and what the code sends is logged.
- The Windows branch of the supervisor, where liveness is always reported false: only the
  POSIX branch is modelled.
- Captured stderr text in rejection messages, error wording, progress logs and prompt
  wording: outcomes carry a reason instead. A failed validation keeps its message only
  because the timeout test reads it.
- The record that mirrors a run's pending signal next to the shared set is one field with it
  in the model, since the two are always assigned together.
- `git push --force-with-lease=<ref>:` is taken to be atomic, to take effect only on an
  absent ref, and to report success only if it took effect or the ref was equal already.
  "At most one created" is not claimed, because git may report an equal ref as up to date.
- Parsing of `git ls-remote` output and resolving a commit name: a read is the recorded sha,
  absence, or a failure.
- Regular expressions that look for untranslated UI literals or check source-text contracts:
  heuristics without a specification. `expressionEnd` belongs to them.
- CatalogAnalysis.AnalyzeCatalogs: the order of the keys in the written fallback record is
  not modelled; the record is a map. Locale-sensitive collation is an arbitrary sort.
- The report of unmatched policy patterns is in the order of the monitored patterns; its
  final sort by collation is not modelled.
- Sorting to take the first entry is modelled as taking the least.
- Placeholder extraction, the inflected-count rewriting of Apple catalog values, and which
  native entries belong to iOS are parameters.
- Cache keys and source hashes (SHA-256): not needed by the properties.
- Texts are sequences of characters; surrogate pairs, and the decoding of chunks that split
  a multi-byte character, are not modelled. Case folding in the timeout test is ASCII only.
- `flattenControlUiCatalog`: the analysis starts from flat catalogs with distinct keys.
- Saving the labeller's state is taken to be atomic and the file to stay readable; the
  script itself starts afresh on an unreadable file. Sorted arrays in the file are sets.
- Which labels are applied to an item: finishing an item stands for it.
- The last 30 output chunks kept by the restart benchmark, its trace parsing, its summary
  statistics and `resolveIterationFailure`: plumbing around the two modelled parts.
- Command-line parsing, configuration loading and generated-file formatting.
