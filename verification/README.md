# BARE: a verified model of the deterministic pipeline

BARE unpacks a software artifact, scans the bytes for secrets, correlates what the rules match, and
decides with a policy whether a build may ship. This project models the deterministic spine of that
pipeline in Dafny, in the form the Python has (loops and mutable objects where the code loops and
mutates, expressions where it computes), and proves what the code and its documentation promise of it.

`dafny verify dfyconfig.toml` checks everything. There is one module per component:

| module | models |
|---|---|
| `Options`, `Numbers`, `Vocab`, `Text`, `Order`, `Decimal` | optional values; minimum and maximum; severities; `str.find`, `str.replace` and `str.strip`; stable sorting and string order; decimal text |
| `Redaction` | masking of detected values in logs |
| `StringExtraction` | ASCII and UTF-16LE string extraction |
| `StageLog`, `LogFollower` | rendering and throttled publishing of a running stage's log; the client that follows it |
| `JsonScan` | finding a JSON object in a model's answer |
| `Extraction`, `ExtractedTree` | recursive unpacking under one budget, and the tree built from it; what a run opens, charges and lists |
| `Correlator`, `CorrelatedFindings`, `CorrelationOrder` | evidence to findings: group, deduplicate, suppress, cluster; what each finding says; when the order of arrival shows |
| `RunLifecycle` | a run's states under lost and duplicated deliveries, workers and orphan sweeps |
| `Policy`, `PolicyMeaning` | the release gate; its verdict in terms of findings, waivers and budgets alone |
| `Triage` | model verdicts on findings, and what they can do to the gate |
| `GateRun`, `Enrichment`, `EnrichmentMeaning` | the gate over a stored run; Ghidra enrichment and stale-stage cleanup, which it cannot see; what they write, case by case |
| `Purl`, `SbomDiff`, `SbomDocuments` | Package URLs and the comparison of two SBOMs; how any document is read |
| `PdfText`, `Pdf`, `PdfReader`, `PdfDetails` | the PDF writer, and reading its files back |
| `Watchdog` | deadlines on a container |

Conventions. Code that updates an object is a class; a loop is a method proved equal to a specification
function, and the theorems are lemmas about that function. Regular expressions, `json.loads`, hashes, glob
matching, zlib, text redaction inside enrichment and the model behind triage are function-valued parameters,
so every theorem holds whatever they return, under the assumption it states (an injective hash for
conservation of evidence, for example). A database transaction is one step; a table is the list of its
rows. Strings are sequences of Unicode scalar values; bytes are characters below 256.

Several properties one would expect turn out to need a proviso. In each case the code is kept as it is,
lemmas give the inputs on which the property fails, and the exact condition is proved where there is one:

- Replacing a value by its mask does not hide it from every text: a long value whose last 1 to 4
  characters repeat its first ones can rebuild itself out of a mask (`HiddenFromEveryText`, `OverlapLeaks`).
- The wide replacement hides a value from every text exactly when the value is short or does not end in the
  character it begins with (`WideHiddenFromEveryText`). In text with NULs, masking a wide value can spell another
  one (`WideMaskSpells`); where no mask joins, no form of a value is left (`NoFormSurvives`).
- "A finished line redacts now exactly as it will in the retained log" (core/pipeline/logs.py:97-99) fails
  when a later line adds a value that an earlier line also shows (`LaterValueRemasksALine`); it holds as
  long as the values that occur in the line are the same (`OnlyPresentValuesMatter`).
- The split of a log into its streams is exact only when stdout does not print the stderr headline
  (`PartitionIsExact`); any stdout that does makes the follower lose the next line it grows by
  (`SpoofedHeadlineLosesALine`).
- Correlation is independent of the order of its evidence exactly when evidence with equal sort keys agrees
  on what the report takes from the first of them (`CorrelationIgnoresOrder`, `WhenTheOrderShows`). Two files
  unknown to the tree are both attributed to the root (core/pipeline/scan.py:545-549), so ties can differ.
- A container within depth is passed over in silence exactly when the budget is exhausted as it is
  reached (`VisitSkipsIffExhausted`); the result may then not be marked truncated, when the totals meet a cap
  exactly (`UnreportedSkipsFitExactly`, `ExactFitHidesAContainer`).
- The row a node is linked to is one level up exactly when no earlier row of the node's own depth has its
  parent's path (`WhenTheLinkIsOneLevelUp`).
- A terminal run is final only when no worker still holds it (`TerminalIsFinalIffUnheld`).
- Tightening a policy never unblocks a release exactly when no rule, category or severity floor picks out
  some findings and only validly waived ones (`WhenTighteningIsSafe`): such findings can be moved from a
  spent budget to their waivers (`TighteningAWaivedFindingCanUnblock`).
- Taking a waiver away never unblocks a release exactly when it does not reveal an earlier waiver of the same
  finding that expires later (`WhenRemovingAWaiverIsSafe`, `RevealingAWaiverUnblocks`). The waiver
  loader refuses two for one finding (core/policy/loader.py:183-185), so only another caller meets this.
- "A model cannot open the gate" holds of critical and high findings, and of one pass; below the
  floor a dismissal followed by an error opens it (`WhenTriageHidesAFinding`, `TwoPassesOpenTheGate`).
- A failed or skipped enrichment is never retried: the status check would allow it, the unique key of
  the stage table does not (`EnrichedAtMostOnce`).
- A component's SBOM key is the package's own only if its version has no slash and its Go path does
  not lose its only slash (`IdentityOfExport`); beyond Latin-1 two names can print alike
  (`WhenACharacterIsAmbiguous`).
- A PDF string with a carriage return reads back with a line feed (`EscapedTextReadsBack`).

## Model

| member | source | states |
|---|---|---|
| Redaction.RedactLogText | core/pipeline/logs.py:157-163 | the replace loop computes `Redact`, and in NUL-free text no detected value that does not overlap itself is left |
| Redaction.MaskingCreatesNothing | core/rules/scanner.py:72-81 | replacing a value by its mask creates no glyph-free substring that the text did not have |
| Redaction.NoDetectedValueSurvives | core/pipeline/logs.py:157-163 | after the loop no such value occurs anywhere, whatever the other values and the order of the loop |
| Redaction.OverlapLeaks | core/pipeline/logs.py:157-163 | for every self-overlapping value, a text out of which one replacement rebuilds it |
| Redaction.HiddenFromEveryText | core/rules/scanner.py:157-163 | the values that one replacement hides from every text are exactly those that do not overlap themselves |
| Redaction.MaskShows | core/rules/scanner.py:72-81 | a mask shows nothing but the length of a value of up to 12 characters, and of a longer one its first and last four around 1 to 12 glyphs |
| Redaction.NoFormSurvives | core/pipeline/logs.py:157-163 | after the loop, in any text, a detected value is left neither as it is nor NUL-interleaved, unless its own mask or a later one can join in spelling that form |
| Redaction.WhatJoinsWide | core/pipeline/logs.py:161-162 | a mask joins a wide value exactly when it shows its end, and that is the character the value begins with |
| Redaction.WideMaskSpells | core/pipeline/logs.py:161-162 | for every long value and every value ending with two to four of its first characters, a text that does not show the latter until the former's wide form is masked |
| Redaction.WideHiddenFromEveryText | core/pipeline/logs.py:157-163 | the values whose wide form one replacement hides from every text are exactly the short ones and those that do not end in their first character |
| Redaction.RedactSplits | core/pipeline/logs.py:82-92 | redacting two texts joined by a newline is joining their redactions |
| Redaction.RedactLacksNewline | core/pipeline/logs.py:157-163 | redaction adds no newline to a line |
| Redaction.OnlyPresentValuesMatter | core/pipeline/logs.py:94-102 | a line is redacted the same now and later as long as the values that occur in it are the same |
| Redaction.LaterValueRemasksALine | core/pipeline/logs.py:94-102 | a value found only later, and taken last, changes an earlier line exactly when the line as redacted so far shows it |
| StringExtraction.ExtractAscii | core/rules/scanner.py:84-98 | the ASCII loop yields exactly the maximal printable runs cut every `MAX_STRING_LENGTH`, short pieces dropped, each equal to the bytes at its offset, one after the other |
| StringExtraction.ExtractWideAt | core/rules/scanner.py:101-127 | the same of one alignment of the wide loop, over byte pairs, and at a minimum length of 0 the blank string that the loop adds when it meets an unprintable pair, or the end, with nothing collected |
| StringExtraction.ExtractStrings | core/rules/scanner.py:130-146 | both encodings and both wide alignments, each (offset, encoding, value) once, sorted, whatever the minimum length |
| StringExtraction.StringsAreCut | core/rules/scanner.py:84-98 | a string ends where its run does or after 8192 characters, and begins where its run does or 8192 characters on |
| StringExtraction.AsciiOfPrefix | core/rules/scanner.py:84-98 | ASCII strings of the data up to a newline are those of all the data that start before it |
| StringExtraction.WideOfPrefix | core/rules/scanner.py:101-127 | the same of either wide alignment |
| StringExtraction.StringsOfFinishedLines | core/pipeline/logs.py:89-100 | cutting the data after a newline keeps exactly the strings that start before it, in every encoding and alignment |
| StringExtraction.DetectedAreCandidates | core/rules/scanner.py:190-243 | whatever a rule reports is printable, so free of mask glyphs, NULs and newlines |
| StringExtraction.SnapshotDetects | core/pipeline/logs.py:89-109 | a live snapshot detects exactly the values that the whole output has on its finished lines |
| StageLog.RenderedLogHidesValues | core/pipeline/logs.py:72-120 | in a rendered log, live or retained, the part of a NUL-free stream shows no value any rule reports in its visible text, self-overlapping ones excepted; a live log is the retained log of the finished lines |
| StageLog.VisibleGrows | core/pipeline/logs.py:98-100 | along an append-only stream the visible text only grows after a finished line, up to and including the retained log |
| StageLog.LiveStageLog.Offer | core/pipeline/logs.py:242-270 | when a call publishes, and the throttle state it leaves whether or not the write succeeds |
| StageLog.WhenASnapshotIsTaken | core/pipeline/logs.py:242-270 | over any history of calls, exactly when the next one takes a snapshot: the pause left by the last one is over and the size is not that of the last success |
| StageLog.WhenASnapshotSucceeds | core/pipeline/logs.py:242-270 | exactly which snapshots succeed, by where they raise, what is published and whether a bucket was found before |
| StageLog.PublishedIsLatest | core/pipeline/logs.py:242-270 | what is published is the document of the last snapshot that succeeded |
| StageLog.SnapshotsKeepApart | core/pipeline/logs.py:242-270 | a successful snapshot and any later one start at least five times the first one's cost apart |
| StageLog.SnapshotsCostAFifth | core/pipeline/logs.py:242-270 | all successful snapshots but the last cost together at most a fifth of the time from the first start to the last |
| LogFollower.LinesOfIsLines | cli/log_follow.py:81-82 | `_lines` gives the lines of a text, final newline or not |
| LogFollower.LinesOfRedacted | cli/log_follow.py:68-78 | the lines of a redacted text are its redacted lines: same number, same order |
| LogFollower.PartitionIsExact | cli/log_follow.py:65-78 | splitting a document recovers both streams exactly when stdout with its newline does not contain the stderr headline |
| LogFollower.SanitizedIsSafe | cli/log_follow.py:55-62 | no control, separator or bidi character reaches the terminal, and safe text is unchanged |
| LogFollower.EscapeMeaning | cli/log_follow.py:40-62 | exactly which characters are escaped, and that each escape gives the character's code in hexadecimal |
| LogFollower.LogPoller.Print | cli/log_follow.py:140-152 | what one stream's printing adds and remembers |
| LogFollower.LogPoller.Poll | cli/log_follow.py:105-138 | a poll is the fold of its stages: settled, denied, failed and empty ones included |
| LogFollower.PrintMeaning | cli/log_follow.py:140-152 | printing a stream echoes exactly the lines after those printed before, or one notice if it shrank |
| LogFollower.StepMeaning | cli/log_follow.py:105-138 | a stage's turn in a poll, answer by answer: the status line, what is echoed, warned, settled and disabled |
| LogFollower.EchoesEveryLineOnce | cli/log_follow.py:65-152 | over any polls of an append-only log, no rewrite is reported and each line index of each stream is echoed once, in order |
| LogFollower.FollowsStageToTheEnd | cli/log_follow.py:105-152 | followed live and then to its retained log, every line of both raw streams has been echoed once, masked |
| LogFollower.SpoofedHeadlineLosesALine | cli/log_follow.py:65-78 | the headline condition is needed: whenever a stdout that prints it grows by a line, whatever the line, the poll echoes the last line after stdout again instead, without a rewrite |
| JsonScan.FindBrace | core/llm/provider.py:93-134 | the earliest brace from an index on |
| JsonScan.ClosingBrace | core/llm/provider.py:93-134 | the inner loop returns where the scan from a brace first comes back to depth zero |
| JsonScan.FirstJsonObject | core/llm/provider.py:93-134 | the nested loops return the first object the specification finds |
| JsonScan.FirstObjectIsEarliest | core/llm/provider.py:93-134 | a returned object is the parse at the earliest brace whose balanced slice parses to one; nothing is returned exactly when there is none |
| JsonScan.StopsAtOwnBrace | core/llm/provider.py:93-134 | over any JSON object text (RFC 8259, sections 4 and 7) and any suffix the scan stops at that object's own closing brace |
| JsonScan.FindsTheObject | core/llm/provider.py:93-134 | prose without a brace, then any object text, then anything: the object's parse is returned |
| JsonScan.ProseAroundObject | core/llm/provider.py:69-90 | an answer with prose before and after its object is read as that object |
| JsonScan.FencedObject | core/llm/provider.py:69-90 | a fenced block with a language tag is read as the object in it |
| JsonScan.FencedOnOneLine | core/llm/provider.py:69-90 | so is an object fenced on one line |
| JsonScan.WholeAnswerFirst | core/llm/provider.py:69-90 | an answer that parses as a whole is taken as it is, and refused if it is no object |
| Text.StripMeaning | core/llm/provider.py:83 | stripping takes white space away, and leaves none at either end |
| Extraction.ForInputScales | core/unpack/budget.py:59-81 | both caps grow with the input and stay within their floor and ceiling |
| Extraction.ForInputMeaning | core/unpack/budget.py:59-81 | 20 bytes for one and 600 files for a megabyte, between the floors and the ceilings |
| Extraction.ExtractionBudget.ReserveFile | core/unpack/budget.py:100-115 | a file is charged or refused, and a refusal charges nothing |
| Extraction.Extractor.WalkFile | core/unpack/extractor.py:141-189 | the mutating recursion computes the specification walk on nodes, errors and totals |
| Extraction.Extractor.ExtractOne | core/unpack/extractor.py:192-210 | one container's members, charged one by one until a limit or a failure |
| Extraction.Extractor.ExtractTree | core/unpack/extractor.py:132-138 | a whole run, from the budget it is given |
| Extraction.CapsHold | core/unpack/budget.py:100-115 | nodes never exceed files written, files and bytes never exceed their caps, self-containing archives included |
| Extraction.NodesFormATree | core/unpack/extractor.py:141-189 | each node's parent is the root or an earlier node one level up |
| Extraction.NoSilentSkips | core/unpack/extractor.py:141-189 | every listed container is opened or has an error entry, unless the budget ended up exhausted |
| Extraction.UnreportedSkipsFitExactly | core/unpack/extractor.py:152-170 | a run not marked truncated missed a container only when its totals meet a cap exactly |
| Extraction.VisitSkipsIffExhausted | core/unpack/extractor.py:141-170 | a visit leaves a container neither opened nor blamed exactly when it is within depth and the budget is exhausted as it is reached; the visit then changes nothing |
| Extraction.ExactFitHidesAContainer | core/unpack/extractor.py:152-170 | such a run exists |
| ExtractedTree.OpeningListsEveryFile | core/unpack/extractor.py:212-306 | an opened container lists exactly the files it wrote, in order and once each |
| ExtractedTree.OpeningAccounts | core/unpack/budget.py:100-115 | an opening charges every entry it declares, or names an entry that raised, or one that breaks the cap it reports |
| ExtractedTree.VisitOpensWhenItCan | core/unpack/extractor.py:141-170 | a visit opens its container exactly within depth and budget, unless an entry does not fit or raises, which its error entry says |
| ExtractedTree.VisitListsEveryFile | core/unpack/extractor.py:172-189 | a visit adds, one level below its container, a node for each file written, in order, with path, parent, size and kind; a visit that opens nothing adds nothing |
| ExtractedTree.RunListsEveryFile | core/unpack/extractor.py:132-189 | in a whole run every node is a file that its parent wrote, and every file of every opened container has a node |
| Extraction.MaterialiseTree | core/pipeline/scan.py:456-489 | the rows built from the manifest, parent links and fallback included |
| Extraction.ParentComesFirst | core/pipeline/scan.py:458-466 | in depth order a node's parent comes before it |
| Extraction.NeverFallsBackToRoot | core/pipeline/scan.py:463-466 | on the manifest of any run, every parent is the root or already has a row |
| Extraction.WhenTheLinkIsOneLevelUp | core/pipeline/scan.py:456-484 | the row a node is linked to is one level up exactly when no row before it of its own depth has its parent's path |
| Extraction.RowsHangTogether | core/pipeline/scan.py:456-484 | in a run's tree each row hangs off the root or off the last earlier row with its node's parent's path |
| Correlator.GroupEvidence | core/pipeline/correlator.py:67-71 | the dictionary of groups and its insertion order |
| Correlator.LocateGroup | core/pipeline/correlator.py:115-133 | a group's locations: the first piece of evidence at each place |
| Correlator.CollectGroups | core/pipeline/correlator.py:73-133 | one finding per known, unsuppressed group, with its locations and counts |
| Correlator.Cluster | core/pipeline/correlator.py:175-239 | the finding that replaces a repetitive rule's findings, and its relocated locations |
| Correlator.ClusterRepetitiveRules | core/pipeline/correlator.py:148-239 | rules over the threshold are replaced by their cluster, others kept |
| Correlator.Correlate | core/pipeline/correlator.py:50-137 | the whole pass computes the specification result |
| CorrelatedFindings.WhenAGroupIsReported | core/pipeline/correlator.py:73-91 | a value is reported exactly when its rule is known, there is evidence, and no suppression covers it at the path of its leading evidence |
| CorrelatedFindings.ScoreMeaning | core/pipeline/correlator.py:255-283 | the confidence in terms of the evidence: some entropy at 4.5 or more, all at 2.5 or less under a rule without an entropy gate, more than one piece, some wide piece, then the clamp |
| CorrelatedFindings.FindingsSayWhatTheEvidenceDoes | core/pipeline/correlator.py:89-239 | every finding of the result carries its rule's severity, category, CWE and remediation, and the value, confidence, face and id of its evidence; a cluster those of its members, its confidence reached by one and exceeded by none |
| CorrelatedFindings.LocationsShowTheirEvidence | core/pipeline/correlator.py:115-133 | every location shows the path, offset, section and encoding of a piece of its finding's evidence |
| CorrelatedFindings.SuppressedInPlainTerms | core/pipeline/correlator.py:85-87 | the number of suppressed values is that of the values of known rules that are not reported |
| CorrelatedFindings.ResultIsInOrder | core/pipeline/correlator.py:136 | findings come from the most severe down, by rule and id within a severity |
| CorrelationOrder.CorrelationIgnoresOrder | core/pipeline/correlator.py:64-137 | where tied evidence of every reported group agrees on offset, section and encoding, and at the head of its group on masked value, entropy and context, any order of evidence and suppressions gives the identical lists, ids and cluster hashes included |
| CorrelationOrder.DisagreeingTieShows | core/pipeline/correlator.py:242-243 | any tie of a rule within the threshold that disagrees gives two orders of the same evidence with different results |
| CorrelationOrder.WhenTheOrderShows | core/pipeline/correlator.py:69-133 | where no rule clusters, another order gives another result exactly when some tie disagrees |
| Correlator.EvidenceIsConserved | core/pipeline/correlator.py:69-137 | a finding of a rule sits at a place exactly when some known, unsuppressed evidence of its group, or of its clustered rule, is there |
| Correlator.OwnersAgree | core/pipeline/correlator.py:159-239 | two pieces of evidence of a rule share a finding exactly when they share a value or the rule clusters |
| Correlator.LocationsAreDistinct | core/pipeline/correlator.py:115-133 | no finding lists a place twice |
| Correlator.LocationsPointAtFindings | core/pipeline/correlator.py:212-239 | every location belongs to a finding that is kept |
| Correlator.NoRuleFloodsTheReport | core/pipeline/correlator.py:159-175 | no rule keeps more than `CLUSTER_THRESHOLD` findings |
| RunLifecycle.Tables.ClaimRun | core/pipeline/scan.py:82-107 | the conditional claim succeeds exactly on a queued run, and only then changes it |
| RunLifecycle.Tables.FinishRun | core/pipeline/scan.py:144-154 | a worker's last write is unconditional |
| RunLifecycle.Tables.SweepOne | core/pipeline/recovery.py:117-168 | one candidate is left, requeued with an audit entry, or failed, by its age, state and past attempts |
| RunLifecycle.Tables.SweepOrphanedRuns | core/pipeline/recovery.py:94-170 | the sweep requeues or fails each stale candidate as specified |
| RunLifecycle.SweepIsPerRun | core/pipeline/recovery.py:117-170 | a sweep treats a run as if it were alone and leaves every other run be |
| RunLifecycle.AtMostOneClaim | core/pipeline/scan.py:82-107 | in every interleaving at most one claim per run succeeds and requeue records stay within the limit |
| RunLifecycle.StepOnRun | core/orchestrator/scan_tasks.py:21-57 | what one step of any kind can do to a run |
| RunLifecycle.NeverQueuedAgain | core/orchestrator/tasks.py:111-145 | no step puts a run back to queued |
| RunLifecycle.TerminalWithoutWorkerIsFinal | core/pipeline/recovery.py:117-170 | a terminal run that no worker holds never changes again |
| RunLifecycle.TerminalIsFinalIffUnheld | core/pipeline/scan.py:144-154 | a terminal status is final exactly when no worker holds the run |
| RunLifecycle.QueuedMeansRequeued | core/pipeline/recovery.py:125-158 | a run still queued has a requeue record for every late sweep so far |
| RunLifecycle.UnclaimedRunFails | core/pipeline/recovery.py:117-170 | a run nobody claims is failed within max + 1 sweeps past its grace period |
| RunLifecycle.AbandonedRunFails | core/pipeline/recovery.py:117-170 | the first sweep past the running timeout fails a run whose worker died |
| RunLifecycle.LiveRunIsSpared | core/pipeline/recovery.py:117-170 | a sweep within the timeouts changes nothing |
| RunLifecycle.SweepOfAQueuedRun | core/pipeline/recovery.py:117-168 | a queued run within its grace period keeps its row, records and messages; past it, it gets one record and one message while it has requeues left, and is failed afterwards |
| RunLifecycle.SweepOfAStartedRun | core/pipeline/recovery.py:117-168 | a started run is left alone within the running timeout and failed from then on, never requeued |
| RunLifecycle.RowTellsThePast | core/pipeline/recovery.py:117-170 | in every interleaving a run has an end time iff terminal, a start time iff claimed, and a run never claimed is failed only with all its requeue records |
| RunLifecycle.ClaimedRunHasItsTime | core/pipeline/scan.py:82-107 | a queued run taken from the broker stays as claimed through anything else until its worker concludes or the timeout is up |
| RunLifecycle.WorkerHasTheLastWord | core/pipeline/scan.py:110-154 | and ends with the outcome its worker reports within that time |
| Policy.CheckBudgets | core/policy/engine.py:199-218 | exactly the severities over their budget, in order of rank |
| Policy.DisposeAll | core/policy/engine.py:83-136 | the loop sorts every finding into violations, waived, inherited or considered, with its warnings |
| Policy.Evaluate | core/policy/engine.py:40-154 | the evaluation loop by loop equals the specification verdict |
| Policy.ListsPartitionFindings | core/policy/engine.py:83-136 | occurrence by occurrence, every finding is on exactly one of the five lists, the one of its own disposition, and each waived or violating entry shows its finding |
| Policy.DecisionMeaning | core/policy/engine.py:225-239 | BLOCKED exactly when some finding violates or some budget is overspent; PASS exactly when neither and the scan is complete or its posture passes |
| PolicyMeaning.DecisionInPlainTerms | core/policy/engine.py:225-239 | the decision from findings, waivers, budgets and stages alone: what blocks, what is overdrawn, what is incomplete |
| PolicyMeaning.ViolationsInPlainTerms | core/policy/engine.py:83-141 | the violations are exactly those that a blocking finding, an expired waiver, an overdrawn budget or a degraded scan justifies |
| PolicyMeaning.WaivedInPlainTerms | core/policy/engine.py:99-136 | the waived entries are exactly the findings that their last, unexpired waiver keeps from blocking |
| PolicyMeaning.WarningsInPlainTerms | core/policy/engine.py:52-136 | warned of are exactly an incomplete scan under that posture and the waivers in use that run too long |
| PolicyMeaning.CountsInPlainTerms | core/policy/engine.py:54-59 | the counts by severity are numbers of findings, all and new |
| PolicyMeaning.InheritedInPlainTerms | core/policy/engine.py:83-98 | the inherited findings are exactly those in view that the baseline had, most severe first |
| Policy.VerdictIgnoresOrder | core/policy/engine.py:40-154 | the whole verdict is independent of the order of findings, waivers and stages |
| Policy.DegradedNeverPasses | core/policy/engine.py:225-239 | a degraded scan passes only under posture PASS |
| Policy.AddingAFindingKeepsBlocked | core/policy/engine.py:83-141 | one more finding never leaves BLOCKED |
| Policy.RemovingAWaiverKeepsBlocked | core/policy/engine.py:99-136 | taking away a waiver that reveals no earlier, longer-lived one of its finding never leaves BLOCKED |
| Policy.RevealingAWaiverUnblocks | core/policy/engine.py:52 | on the day after any other waiver expires, taking it away turns BLOCKED into PASS for an open critical finding it names |
| Policy.WhenRemovingAWaiverIsSafe | core/policy/engine.py:52-136 | exactly the waivers whose removal keeps every BLOCKED decision, over all findings, policies and days |
| Policy.TighteningKeepsBlocked | core/policy/policy.py:50-84 | where nothing can slip, a stricter floor, rules, categories, budgets, baseline mode or trust never leaves BLOCKED |
| Policy.TighteningAWaivedFindingCanUnblock | core/policy/engine.py:94-139 | for any findings that slip, a policy that blocks and a tighter one that does not |
| Policy.WhenTighteningIsSafe | core/policy/policy.py:50-84 | no tightening of any policy leaves BLOCKED exactly when nothing can slip: no rule, category or floor picks out some findings in view and only validly waived ones |
| Triage.FindingRow.Apply | core/llm/triage.py:182-216 | what a verdict writes on a row, by severity and verdict |
| Triage.TriageRun | core/llm/triage.py:219-271 | the loop with its cache and counters equals the specification pass over the sorted rows |
| Triage.OneAnswerPerValue | core/llm/triage.py:235-258 | every row gets the one answer kept for its rule and value, and one call is made per distinct value |
| Triage.AnswersInOrder | core/llm/triage.py:235-258 | every row of a value is written with the answer whose number is that of the values before its first row |
| Triage.CallsFollowFirstRows | core/llm/triage.py:235-258 | so different values are judged by different calls, in the order of their first rows |
| Triage.SevereRowsFirst | core/llm/triage.py:235-240 | a pass goes from the most severe finding down, by id within a severity |
| Triage.CountersAddUp | core/llm/triage.py:259-268 | each row is counted once, under the verdict it shows |
| Triage.PassesJudgeEachRow | core/llm/triage.py:219-271 | any passes act on each row by the verdicts that row got |
| Triage.WhenTriageHidesAFinding | core/llm/triage.py:182-216 | exactly when verdicts take an open finding away from the gate, for any verdicts, policy and severity |
| Triage.AlikeDecides | core/policy/engine.py:157-179 | the decision depends only on id, rule, category, severity, newness and actionability of each finding |
| Triage.TriageKeepsDecision | core/pipeline/gate.py:110-125 | passes that hide no finding leave the decision as it was |
| Triage.SevereFindingsStay | core/llm/triage.py:61-66 | no answers in any passes move the decision on open critical and high findings, under any policy |
| Triage.OnePassKeepsDecision | core/policy/engine.py:157-169 | without trust in dismissals, one pass over open findings of any severity leaves the decision |
| Triage.TwoPassesOpenTheGate | core/llm/triage.py:188-211 | a dismissal and then an error turn BLOCKED into PASS for an open medium finding |
| GateRun.CollectGateFindings | core/pipeline/gate.py:100-126 | the projection of a run's rows, with paths and baseline |
| GateRun.ArtifactPathsByQuery | core/pipeline/gate.py:129-152 | the path of each finding, from the ordered query |
| GateRun.RunGate | core/pipeline/gate.py:166-217 | refusals, failed runs and the rest, as specified |
| GateRun.ShownPathIsLeast | core/pipeline/gate.py:129-152 | the path shown is the least among the finding's locations in the run |
| GateRun.GateJudgesItsOwnFindings | core/pipeline/gate.py:100-126 | the gate's findings are, one for one and in order, the run's own finding rows, each as the gate shows it |
| GateRun.BaselineMeaning | core/pipeline/gate.py:64-97 | supplied ids first; else exactly the finding ids of the chosen, completed run, the explicit one before the previous one; else nothing |
| GateRun.RunIsBlockedExactly | core/pipeline/gate.py:166-217 | from the tables to the decision: blocked and passed exactly by what the run's own findings and stages say |
| GateRun.OpenCriticalBlocks | core/pipeline/gate.py:166-217 | an open critical finding outside the baseline blocks under any policy with a floor and no waiver |
| GateRun.GateRefusesUnfinishedRuns | core/pipeline/gate.py:166-192 | the gate refuses exactly unknown, queued and running runs |
| GateRun.DegradedStageMembers | core/pipeline/stages.py:28-48 | the gate is told of exactly the run's degraded stages that are not enrichment |
| GateRun.DescriptionTells | core/pipeline/gate.py:155-163 | the description of a stage tells its analyzer and its status |
| GateRun.FailedRunIsInconclusive | core/pipeline/gate.py:182-192 | a failed run's verdict is INCONCLUSIVE unless the posture lets degraded scans pass |
| GateRun.SmallerBaselineKeepsBlocked | core/pipeline/gate.py:64-97 | losing part or all of the baseline never unblocks |
| Enrichment.ReadXrefs | core/analyzers/ghidra_result.py:224-238 | the map from path and offset to function name |
| Enrichment.Session.BeginEnrichment | core/pipeline/ghidra.py:171-209 | the refusals, the skipped stage and the committed running stage |
| Enrichment.Session.ApplyXrefs | core/pipeline/ghidra.py:254-293 | only function names of matching locations are written, and how many |
| Enrichment.Session.FinishEnrichment | core/pipeline/ghidra.py:212-251 | every ending: exception, no result, result with summary and manifest |
| Enrichment.Session.CloseStaleStages | core/pipeline/recovery.py:194-224 | exactly the stale enrichment stages are failed and returned in order |
| Enrichment.OnlyReportedNames | core/pipeline/ghidra.py:263-293 | a location changes only in its function name, to one the analyzer reported for that artifact and offset |
| EnrichmentMeaning.WhenEnrichmentStarts | core/pipeline/ghidra.py:171-209 | exactly when enrichment refuses, skips or starts, and the stage it then adds |
| EnrichmentMeaning.XrefsMeaning | core/analyzers/ghidra_result.py:224-238 | the map holds the last name that the result gives for each site |
| EnrichmentMeaning.EveryNameIsStored | core/pipeline/ghidra.py:254-293 | exactly the run's locations that the result names get the name and are counted; every other one stays |
| EnrichmentMeaning.HowAStageEnds | core/pipeline/ghidra.py:212-251 | the status, end time, count and error of the stage for every ending |
| EnrichmentMeaning.ProblemsMeaning | core/pipeline/ghidra.py:348-374 | the error has one line, in order, for each binary that was not analysed: its label, status and reason |
| EnrichmentMeaning.WhatTheErrorSays | core/pipeline/ghidra.py:348-374 | the stage's error is those lines and the notes, joined, redacted and cut |
| EnrichmentMeaning.WhatAnEndingWrites | core/pipeline/ghidra.py:212-251 | an ending writes its own stage, function names and the run's manifest, and nothing else |
| EnrichmentMeaning.WhatTheCleanupCloses | core/pipeline/recovery.py:194-224 | the cleanup fails exactly the Ghidra stages still open past their time, and changes nothing else |
| Enrichment.GateCannotTell | core/pipeline/gate.py:166-217 | the gate's answer depends only on runs, findings, paths per finding and scan stages, in any row order |
| Enrichment.EnrichmentNeverMovesTheGate | core/pipeline/ghidra.py:171-293 | after any steps of enrichment and cleanup, in any order, the gate answers every request as before |
| Enrichment.EnrichedAtMostOnce | core/models/tables.py:168-173 | once a run with a root has a Ghidra stage, no later delivery starts another |
| Purl.QuoteAlphabet | core/composition/model.py:62-71 | only safe characters and escapes are printed, and a slash only for a slash |
| Purl.QuoteLeavesPathsAlone | core/composition/model.py:62-71 | encoding leaves exactly the texts of path characters (RFC 3986, section 3.3, without `@`) and slashes alone, and lengthens any other |
| Purl.UnquoteQuote | core/composition/model.py:70-71 | on Latin-1 text percent-decoding undoes the encoding |
| Purl.WhenACharacterIsAmbiguous | core/composition/model.py:70-71 | exactly the characters whose encoding is also that of another text |
| Purl.PathIsQuotedName | core/composition/model.py:96-118 | however the name is split, the printed path is the whole name encoded, a Go path's only leading slash excepted |
| SbomDiff.ReadGroups | reporting/sbom_diff.py:213-230 | the groups of a document, or the first error, a `licenses` value that cannot be iterated included |
| SbomDocuments.DocumentIsSummarised | reporting/sbom_diff.py:213-230 | a readable document has a group for exactly the keys of its components, with their versions and licences, under the first one's name |
| SbomDocuments.FirstErrorWins | reporting/sbom_diff.py:213-230 | a document is refused for its first unreadable component and no other |
| SbomDocuments.PurlIsCut | reporting/sbom_diff.py:126-149 | only the last segment of a Package URL carries the version; qualifiers and subpath are dropped |
| SbomDocuments.IdentityOfPurl | reporting/sbom_diff.py:126-149 | a component's own version comes before the one in its Package URL |
| SbomDocuments.IdentityOfName | reporting/sbom_diff.py:126-149 | without one the key is the group and name, and a blank name is the only error |
| SbomDocuments.LicenceMeaning | reporting/sbom_diff.py:233-245 | a licence entry counts as its expression, and as its id or, without one, its name |
| SbomDiff.DiffSboms | reporting/sbom_diff.py:70-123 | the loop over the sorted keys equals the specification comparison |
| SbomDiff.EveryKeyOnce | reporting/sbom_diff.py:87-108 | every key is counted once: added, removed, altered or unchanged |
| SbomDiff.ListsNameKeysOnce | reporting/sbom_diff.py:87-108 | none of the four lists names a key twice |
| SbomDiff.AddedExactly | reporting/sbom_diff.py:90-92 | the added entries are exactly the keys only the second side has, with their versions |
| SbomDiff.RemovedExactly | reporting/sbom_diff.py:93-95 | the removed entries are exactly the keys only the first side has, with their versions |
| SbomDiff.VersionChangedExactly | reporting/sbom_diff.py:98-102 | the version changes are exactly the common keys whose version sets differ, with both sets |
| SbomDiff.LicenceChangedExactly | reporting/sbom_diff.py:103-107 | the licence changes are exactly the common keys whose licence sets differ, with both sets |
| SbomDiff.NoChangesMeansEqual | reporting/sbom_diff.py:58-60 | no change is reported exactly when both sides have the same packages, versions and licences |
| SbomDiff.SwappingMirrors | reporting/sbom_diff.py:70-123 | swapping the sides mirrors every list, in the same order |
| SbomDiff.IdentityOfExport | reporting/sbom_diff.py:126-149 | an exported component's key is its package's own, and its version recovered, exactly under two conditions on the component |
| SbomDiff.KeysTellPackagesApart | reporting/sbom_diff.py:126-149 | keys are injective in ecosystem and Latin-1 name |
| SbomDiff.DiffOfExports | reporting/cyclonedx.py:60-102 | comparing two exports reports each package by its versions and licences in the two inventories; an upgrade is only a version change |
| PdfText.EscapesEachCharacter | reporting/pdf.py:58-60 | the three replacements together escape each character once |
| PdfText.EscapedTextReadsBack | reporting/pdf.py:58-60 | a literal string read by PDF Reference 1.4, section 3.2.3, ends at its own parenthesis and gives the text back exactly when it has no carriage return |
| PdfText.Wrap | reporting/pdf.py:183-203 | every word once and in order, in lines that fit or hold one word, none with room for the next word |
| Pdf.PdfWriter.Need | reporting/pdf.py:140-143 | a page break when the next block would not fit, and nothing else |
| Pdf.PdfWriter.DrawWrapped | reporting/pdf.py:183-203 | a paragraph's lines drawn one below the other on the open page, other pages untouched |
| Pdf.PdfWriter.AddObjects | reporting/pdf.py:207-246 | every object stands under the number its references use, the page tree's forward reference included |
| Pdf.PdfWriter.Build | reporting/pdf.py:207-272 | the finished bytes are a document over the pages' packed streams |
| Pdf.Serialise | reporting/pdf.py:248-272 | body, table, trailer and end mark from the recorded offsets |
| Pdf.EntryIsTwentyBytes | reporting/pdf.py:263-266 | a table entry is 20 bytes and reads back its offset exactly below ten to the tenth |
| Pdf.ObjectStandsAtOffset | reporting/pdf.py:248-252 | each object's header stands at its offset |
| Pdf.EveryObjectIsFound | reporting/pdf.py:254-272 | a reader going from the end mark to the table to an entry (PDF Reference 1.4, section 3.4.3) arrives at the object's header |
| Pdf.RootIsRead | reporting/pdf.py:268-272 | a reader going from the end mark over the table to the trailer takes the catalogue's number from `/Root` |
| Pdf.FileIsNavigable | reporting/pdf.py:207-272 | in every finished file below ten to the tenth bytes: from `/Root` as read to the catalogue, the page tree, every page, its parent and its contents |
| PdfReader.FileReadsBack | reporting/pdf.py:207-272 | reading the bytes back through the trailer: as many pages as were drawn, in order, each with that tree as parent, its fonts, and the very stream packed for it |
| PdfReader.StreamIsRead | reporting/pdf.py:207-246 | a reader takes exactly the packed bytes out of a stream object, whatever they are |
| PdfDetails.DetailsReadBack | reporting/pdf.py:207-272 | and the title, up to its line ends, each font's name, and the table's size |
| PdfDetails.LinesAreDrawn | reporting/pdf.py:183-203 | a paragraph's lines are drawn in order behind what was there, each one line's height below the one before |
| PdfDetails.StreamCons | reporting/pdf.py:207-246 | a page's operators stand in its stream in the order they were drawn |
| Watchdog.Container.Wait | core/sandbox/docker_driver.py:64-79 | the sliced wait ends, gives up only after the full timeout, overruns by at most one callback, and returns the daemon's own last answer |
| Watchdog.EnforceDeadline | core/sandbox/watchdog.py:67-102 | SIGTERM never before the deadline, SIGKILL only after SIGTERM and the grace period, a lower and an upper bound on every ending, the exit code the daemon answered with, both argument errors |
| Watchdog.ConfirmWaitMeaning | core/sandbox/watchdog.py:97-101 | the kill is given as long as the grace period, up to five seconds, and five if there was none |
| Watchdog.EnoughSlices | core/sandbox/docker_driver.py:64-79 | finitely many slices of any positive length cover a wait, which is why the sliced wait ends |

## Left out

- The retention cap and the driver's truncation marker in stage logs: log theorems are about uncapped text.
- UTF-8 decoding of stage output: streams are already text.
- StringExtraction.DetectedAreCandidates: a rule's matches come from an oracle that returns non-empty parts of the extracted string; regular expressions, entropy and allow-lists are not modelled.
- Extraction.ForInputMeaning: covers the default sizing, as Extraction.ForInputScales does, not explicit overrides.
- Archive formats, path joining and on-disk directory names: a container is a finite list of members or a failure.
- Correlator.EvidenceIsConserved: assumes that the hashes behind ids are injective, as do the other results about which finding owns what.
- CorrelationOrder.CorrelationIgnoresOrder: is about one run, since artifact ids are random per run; the rounding of the confidence to three digits is not modelled.
- CorrelationOrder.WhenTheOrderShows: past the cluster threshold agreeing ties are sufficient but not necessary, since a cluster keeps less of its findings.
- Glob matching in suppressions is an oracle.
- Crashes inside one database transaction, and the fields of a run that no transition reads.
- Triage.TriageRun: the time of a verdict and the call records are not modelled; the cache key is the pair of rule and value hash, which the separator in the hashed text keeps apart.
- Prompts, answer parsing and providers: a model's answers are arbitrary.
- GateRun.ShownPathIsLeast: the database's collation is taken to be code-point order.
- Selecting the binaries to analyse: Enrichment takes the selection as given, and an unreadable result leaves the committed running stage as it is.
- SbomDiff.DiffSboms: labels, incompleteness warnings and rendering.
- Purl.WhenACharacterIsAmbiguous: excludes characters whose shortened code is a surrogate, which Dafny strings cannot hold.
- Glyph widths, coordinates inside operators, colours and the Latin-1 substitutions of the PDF: width, rendering and packing are parameters.
- Watchdog: time spent outside waits and callbacks counts as part of their slack; an answer without an exit code ends an unsliced wait early, which the contracts say.
- Web routes, command line, dashboard, migrations, settings, verdict serialisation, tokens, sandbox specification checks and the reaper: plumbing or one-branch facts.
