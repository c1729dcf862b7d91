# Verified models of the tooling scripts

This project models the self-contained machines, codecs, parsers and schedulers in the tooling of
the repository, and proves properties of them with Dafny 4.11. `dafny verify dfyconfig.toml`
checks everything. The scripts themselves are not executed; each model follows the cited lines,
branch by branch.

| File | Models |
|---|---|
| `Supervisor.dfy`, `RunProcess.dfy` | the child-process supervisor of `scripts/control-ui-i18n.ts`: one run as a set of event handlers, any number of runs with the shared set as a transition system, and the same handlers over mutable objects, which any number of runs around one shared set are proved to represent |
| `Utf8.dfy`, `OutputTail.dfy` | its bounded output capture, with the decoding of each chunk (RFC 3629) and the surrogate-safe slice it calls |
| `RunLives.dfy`, `RunOutcomes.dfy` | each run as a life of its own, and what becomes of it, read off the events that reach it |
| `Batches.dfy` | its greedy batcher |
| `Translate.dfy` | its translator: placeholders, reply validation, retries and splits |
| `ShiftRegisters.dfy`, `Crc32.dfy` | the checksum of `scripts/control-ui-mock-attachments.ts` (section 8 of RFC 1952) |
| `Zip.dfy` | its ZIP writer (PKWARE APPNOTE.TXT, sections 4.3.7, 4.3.12 and 4.3.16), with a reader |
| `Partition.dfy`, `DeclarationNames.dfy` | the load balancer and the declaration partitions of `tsdown.config.ts`, also in terms of the entries' names alone |
| `AndroidEscapes.dfy`, `KotlinTemplates.dfy`, `AndroidRender.dfy` | the resource escaper and decoder, the Kotlin template tokenizer and the placeholder renumbering of `scripts/android-app-i18n.ts` |
| `Scanning.dfy`, `JsonScan.dfy` | the first-JSON-object scanner of `scripts/code-mode-model-matrix.ts` (RFC 8259) |
| `CallArguments.dfy` | the call scanner and argument splitter of `scripts/check-temp-path-guardrails.ts` |
| `AppleStrings.dfy` | the `.strings` printer and parser of `scripts/apple-app-i18n.ts` |
| `Selection.dfy`, `AppleCatalog.dfy` | its selection rule, the Android one, and its catalog builder |
| `PromptProbe.dfy` | the parent-signal controller of `scripts/anthropic-prompt-probe.ts` |
| `Slope.dfy` | the least-squares slope of `scripts/bench-task-registry-sqlite-worker.ts`, over the reals |
| `Prelude.dfy`, `JsStrings.dfy` | options, sequences, and strings as JavaScript trims and searches them |

## How the models are laid out

- Where the source loops or updates state, a method with the same loop, or a class with the same
  fields, is proved to do what a specification function says; the lemmas are about that function.
- What a specification function says is also stated in terms of the inputs, without that function:
  a grammar with a printer, the events of a run, the names of entries, the bytes of a record.
- An event handler, a timer callback or a prompt is one step. What the operating system, a
  provider or a library answers is a parameter of the step: whether a process group is alive, what
  a prompt comes to, what `JSON.parse` makes of a text.
- What a run does to its child's process group is kept as one list, in order: signals sent, the
  parent's signal passed on, a probe that found the group gone.
- A chunk of output is a byte sequence; `String(chunk)` puts one U+FFFD for each maximal part of an
  ill-formed sequence. No chunk comes after a run's close event.
- The handlers of one parent signal run back to back in the order the runs started, as listeners
  of one emitted event do; every other event reaches one run at a time, in any order.
- The prompt probe's `stop` is started from the microtask queue, so no signal is delivered between
  the call that schedules it and its start; attachments can still come in between.
- A thrown exception is a value of the result type; no precondition excludes an input the source
  handles. `ZipAsset` returns `None` exactly where a field write would be out of range.

Three promises do not hold of the code as it is, and are proved with their exact condition.

- The captured output is not always the text the child wrote: every chunk is decoded on its own, so
  a UTF-8 sequence that a chunk boundary cuts comes out as replacement characters
  (`OutputTail.TwoChunksShow`). The capture is the tail of the decoded output exactly if every cut
  sequence lies before the kept tail and only its fourth byte is cut off; if nothing is truncated,
  exactly if no boundary cuts a sequence.
- `decodeAndroidResourceValue` undoes `escapeAndroidResourceValue` exactly for the values in which
  no backslash is followed by an `n`: the decoder turns a backslash and an n into a newline before
  it turns two backslashes into one. `AndroidEscapes.BackslashNIsLost` is a value that is lost.
- The two selection rules agree exactly if there is a candidate, or if the source is the empty text.
  `Selection.RulesDifferOnNothing` is a case in which they differ.

The shared set also gives no promise of a re-raise once another run starts after the signal:
`Supervision.LaterStartLosesReraise` is a run in which it never comes, and
`Supervision.ReraiseLostOnlyByLeaving` says exactly when the step that leaves every run done
re-raises, by a test of the event and of the state before it.

## Model

| member | source | states |
|---|---|---|
| `RunHandlers.HandleKeeps` | scripts/control-ui-i18n.ts:577-770 | every handler in every state keeps the run's invariant, never undoes done, timed out, settled or signalled, and leaves the shared set exactly when the run settles unsignalled |
| `RunProcess.Registry.MaybeReraise` | scripts/control-ui-i18n.ts:551-558 | the loop over the shared set re-raises exactly when every record in it is signalled and done |
| `RunProcess.ProcessRun.constructor` | scripts/control-ui-i18n.ts:577-660 | a new run starts unsettled, listening and in the shared set |
| `RunProcess.ProcessRun.MarkDone` | scripts/control-ui-i18n.ts:635-650 | marking a record done and asking for the re-raise |
| `RunProcess.ProcessRun.Settle` | scripts/control-ui-i18n.ts:672-686 | settles once; an unsignalled run drops its kill timer and its record |
| `RunProcess.ProcessRun.FinishClose` | scripts/control-ui-i18n.ts:687-715 | the order of the four outcomes of a close |
| `RunProcess.ProcessRun.HandleParentSignal` | scripts/control-ui-i18n.ts:628-653 | relays the signal, stops listening, and is done or arms the relay timer by whether the group is alive |
| `RunProcess.ProcessRun.HandleKillTimer` | scripts/control-ui-i18n.ts:645-651 | whichever kill timer is armed sends SIGKILL and finishes what it guards |
| `RunProcess.ProcessRun.ScheduleKill` | scripts/control-ui-i18n.ts:716-729 | arms the grace timer unless one is waiting |
| `RunProcess.ProcessRun.HandleTimeout` | scripts/control-ui-i18n.ts:730-734 | marks the run timed out, sends SIGTERM and schedules the kill |
| `RunProcess.ProcessRun.HandleData` | scripts/control-ui-i18n.ts:735-737 | decodes the chunk on its own and appends it to the capture |
| `RunProcess.ProcessRun.HandleError` | scripts/control-ui-i18n.ts:741-745 | settles with the spawn error unless already settled |
| `RunProcess.ProcessRun.HandleClose` | scripts/control-ui-i18n.ts:751-770 | waits for a live group, marks a signalled run done, or finishes the close |
| `EventLoops.StepApplies` | scripts/control-ui-i18n.ts:551-770 | what a handler does to its objects and to the shared set of records is what its step does to the world |
| `EventLoops.EventLoop.Start` | scripts/control-ui-i18n.ts:577-660 | a new run around the shared set: the objects represent the next world |
| `EventLoops.EventLoop.Dispatch` | scripts/control-ui-i18n.ts:645-770 | an event at one run: the objects represent the next world, and after a re-raise every record in the shared set is accounted for |
| `EventLoops.EventLoop.HandleSignal` | scripts/control-ui-i18n.ts:628-660 | the handlers of one signal run over the objects as Deliver says |
| `EventLoops.EventLoop.Emit` | scripts/control-ui-i18n.ts:628-660 | a parent signal: the objects represent the next world, and after a re-raise every record in the shared set is accounted for |
| `Supervision.DeliverKeeps` | scripts/control-ui-i18n.ts:628-660 | one signal to any number of runs keeps the system's invariant and reaches every listener |
| `Supervision.NextKeeps` | scripts/control-ui-i18n.ts:551-770 | every event keeps the system's invariant, and re-raises only into a world where every active run is done |
| `Supervision.ReraiseIsSafe` | scripts/control-ui-i18n.ts:551-770 | in every interleaving a re-raise implies that every run in the set passed a signal on to its group, and after that the group was found gone or sent SIGKILL |
| `Supervision.ReachableRuns` | scripts/control-ui-i18n.ts:577-770 | in every reachable world a run is in the set exactly while unsettled or signalled, and a signalled run that is not done has its relay timer armed |
| `Supervision.TimedOutNeverResolves` | scripts/control-ui-i18n.ts:691-694 | a run whose timeout fired is never resolved, however events go on |
| `Supervision.DeliverReraises` | scripts/control-ui-i18n.ts:628-660 | one signal's handlers raise that signal again, once, exactly if they leave every active run done |
| `Supervision.LastDoneReraises` | scripts/control-ui-i18n.ts:551-770 | if no run starts after a signal, then once every active run is done the parent has been signalled again |
| `Supervision.ReraiseLostOnlyByLeaving` | scripts/control-ui-i18n.ts:672-684 | the step that leaves every active run done re-raises if and only if it is a parent signal or belongs to a run that has one pending; otherwise that run has settled and left the set |
| `Supervision.LaterStartLosesReraise` | scripts/control-ui-i18n.ts:586-586 | a run started after the signal can take the re-raise with it: a trace |
| `Supervision.TimersFinish` | scripts/control-ui-i18n.ts:645-651 | from every signalled world the armed timers alone lead to a re-raise, one event per waiting run |
| `RunLives.RunsAreIndependent` | scripts/control-ui-i18n.ts:577-770 | runs do not interfere: in every interleaving each run is what the events that reach it make of a new run |
| `RunOutcomes.CloseDecides` | scripts/control-ui-i18n.ts:687-715 | a run settled otherwise than by an error has closed; it is timed out, failed, truncated or resolved, with its exit code or 1, exactly as its timeout, its exit, its output and its options say |
| `RunOutcomes.ErrorDecides` | scripts/control-ui-i18n.ts:741-745 | a run settles with the spawn error exactly if an error event finds it unsettled, and any error event leaves it settled |
| `RunOutcomes.ClosedRunsSettle` | scripts/control-ui-i18n.ts:716-770 | a closed run that heard no signal is settled, or waits for the grace timer of its timeout and settles as timed out when that fires |
| `RunOutcomes.TimedOutIsEnforced` | scripts/control-ui-i18n.ts:716-734 | a timed-out run was sent SIGTERM, and is reported as timed out only after its group was sent SIGKILL or found gone |
| `RunOutcomes.ActsHaveCauses` | scripts/control-ui-i18n.ts:603-770 | SIGKILL was sent exactly if a kill timer fired, SIGTERM exactly if the timeout did, a signal passed on exactly if it is the pending one, and a group found gone only if a probe said so |
| `RunOutcomes.DoneByEvents` | scripts/control-ui-i18n.ts:551-770 | all runs in the set are done exactly if each got a signal and its group was gone then, or has been found gone or killed since |
| `RunOutcomes.ReraiseHasCauses` | scripts/control-ui-i18n.ts:551-770 | the same of every re-raise, read off the events |
| `RunOutcomes.ReraisedSignal` | scripts/control-ui-i18n.ts:551-650 | which signal is raised again: the one just delivered, or the one pending at the run whose group has just ended; once, and only if that leaves every run done |
| `RunOutcomes.ResolvedOutput` | scripts/control-ui-i18n.ts:687-737 | in every interleaving a run resolves with the tail of its decoded chunks; with exit code zero that is all of them, and it is the decoded output if and only if no boundary cuts a sequence |
| `OutputTail.Tail` | packages/normalization-core/src/utf16-slice.ts:30-55 | a surrogate-safe cut keeps at most the limit, wastes at most one unit, and splits no pair |
| `OutputTail.TailOfTail` | scripts/control-ui-i18n.ts:530-542 | cutting a kept tail with more output behind it is cutting the whole |
| `OutputTail.CaptureIsOneCut` | scripts/control-ui-i18n.ts:530-542 | the capture is one cut of what the chunks decode to one by one; every unit is kept or counted |
| `OutputTail.ChunkingIsInvisible` | scripts/control-ui-i18n.ts:530-542 | the capture is the tail of the decoded whole output if and only if every sequence that a chunk boundary cuts is cut before its fourth byte and truncated |
| `OutputTail.WholeChunksDoNotShow` | scripts/control-ui-i18n.ts:530-542 | if no boundary cuts a sequence the chunking does not show; if nothing is truncated, only then |
| `OutputTail.TwoChunksShow` | scripts/control-ui-i18n.ts:735-737 | two bytes that are one character in one chunk and two replacement characters in two |
| `OutputTail.TextIsCaptured` | scripts/control-ui-i18n.ts:530-542 | text that is chunked between characters is captured as the tail of the text |
| `Utf8.UncutIsInvisible` | scripts/control-ui-i18n.ts:535-535 | decoding distributes over a boundary that cuts no sequence |
| `Utf8.ApartIsLonger` | scripts/control-ui-i18n.ts:535-535 | decoding apart never gives fewer units, and gives more if it cuts a sequence before its fourth byte |
| `Utf8.DecodeUndoesEncode` | scripts/control-ui-i18n.ts:535-535 | encoded text decodes to its UTF-16 units and leaves nothing begun |
| `Utf8.OnlyEncodedTextDecodes` | scripts/control-ui-i18n.ts:535-535 | bytes that decode without a replacement are the encoding of a text: no overlong form, surrogate or larger code point passes |
| `Batches.BuildTranslationBatches` | scripts/control-ui-i18n.ts:818-842 | batches concatenate to the items, each is acceptable, and none had room for the next item |
| `Batches.AcceptableInNumbers` | scripts/control-ui-i18n.ts:504-506 | what a batch may be, in numbers: one item, or up to twenty within the budget at ten characters an item and two for the list |
| `Batches.AcceptableIsHereditary` | scripts/control-ui-i18n.ts:504-506 | what the running estimate accepts, it accepts every non-empty slice of |
| `Batches.GreedyIsOptimal` | scripts/control-ui-i18n.ts:818-842 | no order-preserving split into acceptable batches has fewer of them, and none other is maximal |
| `BatchSplits.MaximalIsFewest` | scripts/control-ui-i18n.ts:818-842 | for any validity that passes to slices, a split no batch of which can grow has the fewest batches |
| `Placeholders.ExtractIsExact` | scripts/control-ui-i18n.ts:312-316 | the placeholder scanner finds exactly the names that stand in braces |
| `Retries.BoundedPrompts` | scripts/control-ui-i18n.ts:970-1030 | against any provider, n items take at most 4n - 2 prompts |
| `Retries.ResultIsGood` | scripts/control-ui-i18n.ts:970-1030 | what every accepted reply establishes and merging keeps holds of every result |
| `Retries.ResultIsMerged` | scripts/control-ui-i18n.ts:970-1030 | the items of the accepted prompts are exactly the batch, in order; the returned map is what their replies came to; an error is the last reply's |
| `Retries.PromptsFollowReplies` | scripts/control-ui-i18n.ts:970-1030 | every prompt is called for by the reply before it: a second attempt quotes what was wrong with the reply to the first, and a timed-out batch is asked for by its first half, rounded up |
| `Retries.PromptsGoInOrder` | scripts/control-ui-i18n.ts:970-1030 | every prompt asks for the items right behind those that are covered |
| `Translation.ResultTranslates` | scripts/control-ui-i18n.ts:952-1030 | a returned map has exactly the batch's keys, no blank value, and each source's placeholders |
| `Translation.ValuesAreReplied` | scripts/control-ui-i18n.ts:952-1030 | every value that is returned is, word for word, what a reply the provider really gave has for the key, in answer to a prompt that asked for it |
| `Translation.AcceptedExactly` | scripts/control-ui-i18n.ts:952-968 | a reply is accepted if and only if every item has a text that is not blank and every key one with its source's placeholders |
| `Translation.DistinctItemsTranslated` | scripts/control-ui-i18n.ts:952-1030 | the same item by item, for distinct keys |
| `Translation.BoundIsReached` | scripts/control-ui-i18n.ts:970-1030 | for every non-empty batch, blank texts included, some provider uses all 4n - 2 prompts and then succeeds |
| `Translation.ReadReply` | scripts/control-ui-i18n.ts:952-968 | the validation loop: the first missing key, or the parity error, or the map |
| `Translation.TranslateBatch` | scripts/control-ui-i18n.ts:970-1030 | the loop with its recursion asks and returns exactly what the specification says |
| `Crc32.ComputeChecksum` | scripts/control-ui-mock-attachments.ts:22-31 | the nested loops compute the register's fold over the message |
| `Crc32.RegisterLawful` | scripts/control-ui-mock-attachments.ts:27-27 | the 32-bit register satisfies the shift-register laws: mixing, halving, the polynomial, the width |
| `ShiftRegisters.BurstNoticed` | scripts/control-ui-mock-attachments.ts:22-31 | any lawful register separates messages that differ in one burst no wider than it |
| `ShiftRegisters.WordsAreBits` | scripts/control-ui-mock-attachments.ts:24-29 | taking a message byte by byte is taking its bits one by one |
| `Crc32.BurstDetected` | scripts/control-ui-mock-attachments.ts:22-31 | messages that differ only inside 32 consecutive bits have different checksums |
| `Crc32.WindowDetected` | scripts/control-ui-mock-attachments.ts:22-31 | messages that differ only inside four consecutive bytes have different checksums |
| `Crc32.ResidueIsConstant` | scripts/control-ui-mock-attachments.ts:22-31 | a message followed by its checksum, least significant byte first, has the checksum 0x2144df1c |
| `Crc32.NothingHasNoChecksum` | scripts/control-ui-mock-attachments.ts:22-31 | the empty message has the checksum zero |
| `Zip.LocalHeader` | scripts/control-ui-mock-attachments.ts:42-50 | the buffer writes make the local record |
| `Zip.CentralHeader` | scripts/control-ui-mock-attachments.ts:53-63 | the buffer writes make the central record |
| `Zip.EndHeader` | scripts/control-ui-mock-attachments.ts:68-73 | the buffer writes make the end record |
| `Zip.LocalBytes` | scripts/control-ui-mock-attachments.ts:42-50 | the local record byte by byte: the signature 50 4b 03 04, version 20, method 8, checksum, sizes and name length, zeros elsewhere |
| `Zip.CentralBytes` | scripts/control-ui-mock-attachments.ts:53-63 | the central record byte by byte, with the entry's offset last |
| `Zip.EndBytes` | scripts/control-ui-mock-attachments.ts:68-73 | the end record byte by byte |
| `Zip.CollectParts` | scripts/control-ui-mock-attachments.ts:34-66 | the loop with its running offset collects all parts if every part's fields and every offset fit, and fails otherwise |
| `Zip.ZipAsset` | scripts/control-ui-mock-attachments.ts:33-75 | the archive, if and only if every field fits |
| `Zip.ReadWritten` | scripts/control-ui-mock-attachments.ts:43-49 | a field written among others that lie apart reads back |
| `Zip.HeadersRecover` | scripts/control-ui-mock-attachments.ts:53-65 | a central header leads back to its entry wherever the entry starts |
| `Directories.ReadIndex` | scripts/control-ui-mock-attachments.ts:37-66 | following recorded offsets through an index recovers the parts in order |
| `Zip.UnzipArchive` | scripts/control-ui-mock-attachments.ts:33-75 | reading an archive back gives exactly the entries, in order, with their sizes and checksums checked |
| `Zip.ZipRoundTrip` | scripts/control-ui-mock-attachments.ts:22-75 | the same for what ZipAsset returns, with the CRC-32 as checksum |
| `Balancing.PartitionGroups` | tsdown.config.ts:628-649 | the scan for the first smallest partition and the pushes; the error exactly for groups without partitions |
| `DeclarationNames.GreedyTakesTheFirstLeast` | tsdown.config.ts:628-649 | every group goes to the first of the partitions that are smallest when its turn comes |
| `Balancing.SpreadConserves` | tsdown.config.ts:628-649 | partitions hold the groups' items, each as often |
| `Balancing.SpreadMembers` | tsdown.config.ts:628-649 | a partition's items come from the groups assigned to it |
| `Balancing.GrahamBound` | tsdown.config.ts:628-649 | m times the largest load is at most the total plus m - 1 times the largest group |
| `Balancing.GreedyIsCompetitive` | tsdown.config.ts:628-649 | m times the largest load is at most 2m - 1 times that of any assignment of whole groups |
| `DeclarationPartitions.ExtensionEntriesById` | tsdown.config.ts:666-679 | the loop gives every non-empty extension id its entries, in order, and the ids in the order they were first met |
| `DeclarationPartitions.PartsPartition` | tsdown.config.ts:656-706 | a part holds exactly the entries whose kind has its home there; one home for all entries of an extension |
| `DeclarationNames.ExtensionByName` | tsdown.config.ts:666-679 | an entry is of an extension if and only if the extension's id is the whole second part of its name |
| `DeclarationNames.SdkByName` | tsdown.config.ts:662-687 | public and private plugin SDK and base entries by their names |
| `DeclarationNames.BaseAndSdkByName` | tsdown.config.ts:656-706 | the first three partitions, by name, hold exactly the base, public and private plugin SDK sources in sorted order |
| `DeclarationNames.ReturnedExtensionStaysTogether` | tsdown.config.ts:656-706 | in the returned partitions all entries of one extension stand side by side, in sorted order, in one of the five partitions for extensions |
| `DeclarationPartitions.PartsConserve` | tsdown.config.ts:656-706 | the parts hold every entry as often as it occurs if and only if none has an empty extension id |
| `DeclarationPartitions.SourcesConserve` | tsdown.config.ts:656-706 | the named partitions hold every entry's normalised source as often as it occurs among the entries if and only if none has an empty extension id |
| `DeclarationPartitions.PartsAreBalanced` | tsdown.config.ts:688-693 | the largest of the five extension parts is at most 9/5 of the best possible |
| `DeclarationPartitions.BuildUnifiedDeclarationPartitions` | tsdown.config.ts:656-706 | the eight named partitions of the sorted entries with the ids in sorted order, for any collation; their sources are those of the entries, each as often, if and only if no entry has an empty extension id |
| `AndroidEscapes.EscapeIsOnePass` | scripts/android-app-i18n.ts:246-255 | seven replacements in sequence are one pass with a code per character |
| `AndroidEscapes.EscapeIsUndone` | scripts/android-app-i18n.ts:246-255 | Android reads the value back from the escaped text |
| `AndroidEscapes.EscapeIsInjective` | scripts/android-app-i18n.ts:246-255 | different values have different escaped texts |
| `AndroidEscapes.EscapedIsSafe` | scripts/android-app-i18n.ts:246-255 | escaped text holds no markup, no line end, no bare quote and no bare ampersand |
| `AndroidEscapes.DecodeUndoesEscape` | scripts/android-app-i18n.ts:122-139 | decoding the quoted escaped value gives it back if and only if no backslash is followed by an n |
| `AndroidEscapes.QuoteIsDecoded` | scripts/android-app-i18n.ts:122-132 | the entity for a quote, which the escaper never writes, is decoded |
| `AndroidEscapes.PlainIsTrimmedAndUnquoted` | scripts/android-app-i18n.ts:134-139 | a plain value is trimmed, and loses a pair of quotes around it |
| `AndroidEscapes.BackslashNIsLost` | scripts/android-app-i18n.ts:122-132 | a value for which decoding fails |
| `KotlinTemplates.ReadInterpolations` | scripts/android-app-i18n.ts:147-197 | the nested loops read exactly the interpolations of the specification, or none if one never closes |
| `KotlinTemplates.ReadTokens` | scripts/android-app-i18n.ts:147-197 | interpolations come in order, apart, inside the source, each with its own text |
| `KotlinTemplates.ReadCode` | scripts/android-app-i18n.ts:166-190 | an expression with strings, escapes and nested braces leaves the scan where it was |
| `KotlinTemplates.TemplateIsRead` | scripts/android-app-i18n.ts:147-197 | reading a printed template returns exactly its interpolations, at their places |
| `KotlinTemplates.CutTemplateIsUnbalanced` | scripts/android-app-i18n.ts:191-194 | a template that is cut inside an expression is not read |
| `PositionalFormats.FormatDoubled` | scripts/android-app-i18n.ts:232-241 | text with doubled percent signs formats to itself |
| `Occurrences.PickIsOneToOne` | scripts/android-app-i18n.ts:222-238 | the occurrence numbering is a bijection: every source position is used exactly once |
| `Occurrences.PickKeepsOrder` | scripts/android-app-i18n.ts:222-238 | the k-th occurrence of a token in the translation stands for the k-th in the source |
| `AndroidRender.IndexIsPick` | scripts/android-app-i18n.ts:234-238 | the index that is looked up is always there, so the raw token is never emitted |
| `AndroidRender.RenderInterpolations` | scripts/android-app-i18n.ts:222-241 | the loop with its two maps and cursor renders what the specification says |
| `AndroidRender.RenderAndroidResourceValue` | scripts/android-app-i18n.ts:199-244 | both errors and the rendered value, for every pair of texts |
| `AndroidRender.RenderKeepsMeaning` | scripts/android-app-i18n.ts:199-244 | unescaped and formatted with the source's interpolations, the rendered text is the translation |
| `AndroidRender.TemplatesAreRendered` | scripts/android-app-i18n.ts:199-244 | a translated template is rendered if and only if it has the source's interpolations, each as often; otherwise they changed |
| `AndroidRender.CutTemplatesAreRejected` | scripts/android-app-i18n.ts:199-207 | a source or translation that is cut inside an expression is rejected as unbalanced |
| `JsonScan.ParseAgentExecOutput` | scripts/code-mode-model-matrix.ts:781-820 | the loop: four kinds of failure, or the envelope and the trimmed rest |
| `JsonScan.FirstCharacterDecides` | scripts/code-mode-model-matrix.ts:781-795 | nothing but white space is a missing envelope, and anything but a brace first a misplaced one |
| `JsonScan.StringThrough` | scripts/code-mode-model-matrix.ts:796-805 | a JSON string leaves the scan where it was, whatever it contains |
| `JsonScan.ValueThrough` | scripts/code-mode-model-matrix.ts:796-818 | so does every JSON value inside an object |
| `JsonScan.ObjectIsCutExactly` | scripts/code-mode-model-matrix.ts:781-820 | for every object text, leading space and trailing text, the cut is exactly at the closing brace |
| `JsonScan.CutShortIsIncomplete` | scripts/code-mode-model-matrix.ts:819-819 | an object cut short anywhere is reported as incomplete |
| `CallArguments.QuoteScanState.BeginQuotedSection` | scripts/check-temp-path-guardrails.ts:48-54 | opens a quoted section exactly at a quote |
| `CallArguments.QuoteScanState.ConsumeQuotedChar` | scripts/check-temp-path-guardrails.ts:56-72 | takes a character exactly inside a quoted section, with its escapes |
| `CallArguments.FindMatchingParen` | scripts/check-temp-path-guardrails.ts:74-97 | the loop finds the position the specification finds, or none |
| `CallArguments.SplitTopLevelArguments` | scripts/check-temp-path-guardrails.ts:99-163 | the loop splits as the specification does |
| `CallArguments.SearchCode` | scripts/check-temp-path-guardrails.ts:74-97 | code with closed quotes and balanced brackets leaves the search where it was |
| `CallArguments.SplitCode` | scripts/check-temp-path-guardrails.ts:99-163 | such code is collected as it is |
| `CallArguments.PrintedCallIsReadBack` | scripts/check-temp-path-guardrails.ts:74-163 | printing arguments and then finding the parenthesis and splitting returns exactly the arguments, without the last if it is empty |
| `CallArguments.CutCallHasNoMatch` | scripts/check-temp-path-guardrails.ts:74-97 | a call that is cut short has no matching parenthesis |
| `JsonLiterals.QuoteIsRead` | scripts/apple-app-i18n.ts:419-421 | a printed literal parses back to the string |
| `AppleStrings.LiteralIsMatched` | scripts/apple-app-i18n.ts:479-481 | the literal pattern matches a printed literal whole |
| `Assignments.SpacedAssignmentIsMatched` | scripts/apple-app-i18n.ts:479-481 | an assignment of printed literals is matched with any white space before and within it |
| `AppleStrings.OpenClawIsLawful` | scripts/apple-app-i18n.ts:477-488 | the parts of the expression do what reading back needs |
| `LineFiles.ParseStringsFile` | scripts/apple-app-i18n.ts:477-488 | the loop over all matches fills the map, or stops at a literal that does not parse |
| `LineFiles.FileIsParsed` | scripts/apple-app-i18n.ts:477-543 | a printed file, its lines with or without a source comment, parses to the map its lines stand for, later lines winning |
| `LineFiles.RoundTrip` | scripts/apple-app-i18n.ts:477-543 | for distinct keys exactly the printed keys come back, with their sources and values |
| `AppleStrings.RenderAgainIsSame` | scripts/apple-app-i18n.ts:490-543 | rendering with the parsed file as existing translations reproduces the file |
| `AppleStrings.SelectsByPrecedence` | scripts/apple-app-i18n.ts:490-503 | the value is the best candidate that counts, else an existing value that was made for the same source and is not blank, else the source |
| `AppleStrings.RenderedValues` | scripts/apple-app-i18n.ts:490-543 | the rendered file, read back, has for every key its source and the value that the artifact, the existing file or the source gives, in that order |
| `Selection.Choose` | scripts/apple-app-i18n.ts:613-626 | the choice is the candidate ahead of all others, or the source |
| `Selection.ChoosesMostFrequent` | scripts/apple-app-i18n.ts:613-626 | the choice in plain words: not the source if there is another, the most frequent of the others, and of these the first by character codes |
| `Selection.ChooseIgnoresOrder` | scripts/apple-app-i18n.ts:613-626 | the choice does not depend on the order of the candidates |
| `Selection.ChooseTranslation` | scripts/apple-app-i18n.ts:613-626 | counting and sorting find that choice |
| `Selection.SelectDeterministicTranslation` | scripts/android-app-i18n.ts:1048-1063 | filtering, counting and sorting find the Android selection |
| `Selection.SelectsMostFrequent` | scripts/android-app-i18n.ts:1048-1063 | the same for the Android selection |
| `Selection.AndroidAgreesExactly` | scripts/android-app-i18n.ts:1048-1063 | both rules select the same if and only if there is a candidate or the source is empty |
| `Selection.RulesDifferOnNothing` | scripts/android-app-i18n.ts:1048-1063 | a case in which they differ |
| `AppleCatalog.FileTranslations` | scripts/apple-app-i18n.ts:643-658 | the loop files every live source's candidates in order |
| `AppleCatalog.FiledExactly` | scripts/apple-app-i18n.ts:637-652 | an id is filed under a source exactly if the last entry with the id has that source and some entry with the id is included |
| `AppleCatalog.CandidatesExactly` | scripts/apple-app-i18n.ts:643-658 | the candidates of a source are the translations filed under it |
| `AppleCatalog.BuildAppleCatalog` | scripts/apple-app-i18n.ts:628-707 | exactly the live sources in exactly the required locales, each unit by its rule, and exactly the contradictions |
| `AppleCatalog.BuiltUnits` | scripts/apple-app-i18n.ts:662-694 | every unit of a built catalog: the shipped one, the source for English, new with the source if nothing else is there, else translated with the choice |
| `AppleCatalog.RebuildChangesNothing` | scripts/apple-app-i18n.ts:662-694 | rebuilding from a built catalog gives it again |
| `AppleCatalog.ShippedIsNeverOverwritten` | scripts/apple-app-i18n.ts:671-675 | a shipped translated value of a live source survives any new translations |
| `AppleCatalog.ShippedSurvivesRebuilds` | scripts/apple-app-i18n.ts:662-694 | over any number of rebuilds, each with its own inventory and translations, it stays as long as the source is live |
| `AppleCatalog.OrderDoesNotMatter` | scripts/apple-app-i18n.ts:643-694 | shuffling an artifact changes no unit |
| `PromptProbe.EffectsAreDetermined` | scripts/anthropic-prompt-probe.ts:696-753 | over every run the kills, the stop and the exit are exactly those the events call for |
| `PromptProbe.StopOnceExitWithFirst` | scripts/anthropic-prompt-probe.ts:713-730 | at most one stop, on the first attachment, behind one kill exactly if two signals came early; exit code of the first signal, last |
| `PromptProbe.SignalsEscalate` | scripts/anthropic-prompt-probe.ts:732-745 | how many kills there are: one for two or more early signals, and one for every later signal but the one that starts the shutdown |
| `PromptProbe.EarlySignalIsNotLost` | scripts/anthropic-prompt-probe.ts:748-751 | once there were a signal and an attachment, the first attachment has been stopped |
| `PromptProbe.Controller.BeginShutdown` | scripts/anthropic-prompt-probe.ts:713-730 | starts the shutdown once, with the pending kill ahead of it |
| `PromptProbe.Controller.HandleSignal` | scripts/anthropic-prompt-probe.ts:732-745 | the first signal is kept; later ones kill, now or on attachment |
| `PromptProbe.Controller.Attach` | scripts/anthropic-prompt-probe.ts:748-751 | the first attachment is kept |
| `PromptProbe.Controller.Finish` | scripts/anthropic-prompt-probe.ts:726-729 | the end of the shutdown removes the handlers and exits |
| `Slope.DenominatorIsCubic` | scripts/bench-task-registry-sqlite-worker.ts:113-121 | the denominator is n(n^2 - 1)/12 and positive, so the guard is dead |
| `Slope.SlopeIsLeastSquares` | scripts/bench-task-registry-sqlite-worker.ts:109-123 | no line leaves a smaller sum of squared residuals, and only this one leaves as little |
| `Slope.Slope` | scripts/bench-task-registry-sqlite-worker.ts:109-123 | the loop's quotient is that slope; zero for fewer than two values |

## Left out

- Real processes, timers, sockets, the file system, git and HTTP: they are events or parameters.
- The Windows process-tree commands and the text of signal errors in `runProcess`: they do not change the machine beyond "signal sent".
- The standard error capture and the wording of results and errors in `runProcess`.
- A capture limit of zero, which scripts/control-ui-i18n.ts:522-528 rules out.
- deflate and inflate: any pair of functions of which the second undoes the first.
- UTF-8 encoding of names and bodies in the ZIP writer: entries are byte sequences.
- Inserting the entries of a JavaScript object in integer-key order: entries come as a sequence.
- `JSON.parse` beyond string literals: any function, where the scanner and the translator use it.
- Unfencing a Markdown reply before it is parsed: part of how a reply reads.
- The text of the placeholder mismatch error: any function of the sources and the translations, since only "timed out" in it matters.
- BuildUnifiedDeclarationPartitions: `localeCompare` is any permutation of the entries and of the extension ids, and path normalisation any function.
- Sorting in the selection rules: the first of the sorted candidates, found by a scan for the least.
- Comparison by UTF-16 code units: characters compare by code point, and lone surrogates are not characters, except in `Utf8` and `OutputTail`, which are over code units.
- ParseStringsFile: reading a surrogate escape in a literal counts as an error.
- The inflected-count rewriting of catalog values and the entry filters: any functions.
- Extra fields of catalog units, the serializer, and properties inherited by JavaScript objects.
- BuildAppleCatalog: the contradictions are a set, not a sorted list.
- `serveAsset`, the WAV fixture, percentile and report formatting, and option parsing: nothing hard is said of them.
- Slope: floating-point rounding; the model is over the reals.
- The regular-expression finders of user-interface literals: no crisp promise to state.
