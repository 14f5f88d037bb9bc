# Verified model of sbagent

`sbagent` runs optimization sessions unattended: it dates them, gates them, archives them into a shared
operator repository, remembers rejected families, and exchanges artifacts whose rules are written both as
JSON Schema and as typed checks. This project models the parts of it that decide something and proves what
they are relied on for. `dafny verify dfyconfig.toml` checks everything.

- **Time** (`Calendar`, `FixedWidth`, `Timestamps`, `SessionIds`): four of the six copies of
  `civil_from_days`, the inverse, the printers, the parser and the session-id re-reader, with machine arithmetic
  written out; the order of ids an operator chose.
- **Gates** (`SessionOrder`, `Autonomy`, `GateMeaning`): the circuit breaker, the pause file and the other
  gates, over every run of archived sessions, checks and removals.
- **Rejections ledger** (`Fingerprint`, `RejectionLedger`, `RejectionRuns`): family identity, and the shared
  file as a state machine of single system calls by any number of processes.
- **Schemas** (`Json`, `SchemaExport`, `JsonSchema`, `SchemaTransform`, `Models`, `SchemaAgreement`): key
  canonicalization and drift; an evaluator for the keywords used (JSON Schema Core and Validation, Draft
  2020-12), and the injected rules compared with the typed checks.
- **Archive** (`LedgerLine`, `ArchiveProtocol`, `ArchiveRuns`, `PushRetry`, `GitConfigEnv`, `TreeWalk`):
  reading the session ledger, the archive flow between clones and one fast-forward-only remote, the bounded
  push, the environment stacking, the two directory walks.
- **Fan-out and lint** (`FanOut`, `FenceScanner`): the permit-bounded analyzers and the example scanner.

## Assumptions

- Clocks, file contents, remote answers and schema validators are parameters. Arithmetic
  that overflows returns `None`, `Overflow` or `Panicked`: this is a build with overflow checks. No profile of
  the workspace turns them on for release builds, which wrap instead; `FixedWidth` proves the saturating copy
  for both. In the gates the difference shows only on recorded dates out of the bounds of
  `Timestamps.InBounds`: there a build without checks reads a wrapped time where the model answers `Panicked`.
- The rejections lock excludes writers from everybody and is released when its holder dies; `rename`
  replaces a file at once. Ledger lines are parsed records, malformed lines or blank lines.
- Archive: one `archive` call at a time per clone; a clone's `session/<id>` branches come only from its own
  archives; the first commit on such a branch is new; a rebase replays or fails and leaves main as it was;
  archive commits never reach main. The operator may edit, pull and push main between archives.
- Blank means the same to the schema pattern `\S` and to `trim`. Names within a directory are unique.

## Where the code and its description differ

- `session_record.rs` and `archive.rs` call the session branch write-once. The code re-pushes it when an
  archive is repeated before its ledger line was committed, and never after
  (`ArchiveProtocol.BranchMovesIff`).
- `copy_dir_recursive` is documented to follow symbolic links; the code refuses them, and so does the model.
- With overflow checks the saturating `civil_from_days` stops on days in the first 48 years of the `i32` range
  (`FixedWidth.CivilSaturatingExact`). Its only caller never passes a negative day
  (`FixedWidth.SaturatingSinceEpoch`), and without checks the wraps cancel
  (`FixedWidth.CivilSaturatingUncheckedExact`).
- The breaker takes string order of `started_at` for time order. Session ids are accepted in any shape, and
  a digit-shaped one that names no valid date and time is out of order with the id of the moment it counts to
  (`SessionIds.NamingIsNeeded`); only ids that count past year 9999 or to before year 0 can be in place without
  naming a moment (`SessionIds.IdSortsRightIff`). `SessionIds.NoSuchDaySortsWrong` gives inputs.
- The injected schemas refuse consensus-only keys written as `null`, which the typed checks cannot see.

## Model

| member | source | states |
|---|---|---|
| `Calendar.CivilOfDays` | crates/stacks-bench-agent/src/session/autonomy.rs:345-367 | Counting the days to any valid Gregorian date, year unbounded, and converting back gives the date. |
| `Calendar.DaysOfCivil` | crates/stacks-bench-agent/src/session/autonomy.rs:345-367 | Every integer day, negative ones included, converts to a valid date that counts back to the same day. |
| `Calendar.NextDayIsNext` | crates/stacks-bench-agent/src/session/autonomy.rs:345-353 | The day count rises by exactly one from each date to the next under the 4/100/400 leap rule. |
| `Calendar.CivilIsDayByDay` | crates/stacks-bench-agent/src/session/autonomy.rs:355-367 | The closed form names, for every integer, the date reached by walking that many single days from 1970-01-01 in either direction. |
| `Calendar.DaysPreserveOrder` | crates/stacks-bench-agent/src/session/autonomy.rs:345-353 | Day counts order valid dates exactly as year, month, day do. |
| `FixedWidth.CivilI64Exact` | crates/stacks-bench-agent/src/session/autonomy.rs:355-367 | With every step checked against `i64`, the gate copy equals the unbounded reference exactly while the first addition fits. |
| `FixedWidth.CivilTruncatingExact` | crates/stacks-bench-agent/src/types.rs:67-79 | The `u64`/`i32` copy, shared by session ids and the archive, equals the reference exactly on the days whose year fits `i32`. |
| `FixedWidth.CivilSaturatingExact` | crates/stacks-bench-agent/src/analyzed_rejections.rs:505-521 | In a build with overflow checks the saturating `u32` copy equals the reference exactly between -2147483600-03-01 and 2147483647-12-31. |
| `FixedWidth.SaturatingSinceEpoch` | crates/stacks-bench-agent/src/analyzed_rejections.rs:489-521 | On the days its only caller passes, never negative, it equals the reference exactly while the year fits `i32`: no saturation, underflow or cast bites. |
| `FixedWidth.CivilSaturatingUncheckedExact` | crates/stacks-bench-agent/src/analyzed_rejections.rs:505-521 | Without overflow checks its wraps cancel, and it equals the reference on every `i64` day exactly when the year fits `i32`. |
| `FixedWidth.SaturatingOverflowsInsideI32` | crates/stacks-bench-agent/src/analyzed_rejections.rs:505-521 | A date whose year fits `i32` on which the checked build overflows, so agreement on all `i32` years is false there. |
| `Timestamps.PrintersAgree` | crates/stacks-bench-agent/src/session/archive.rs:729-738 | Before year 10000 the three ISO printers and the id printer print the same date and time and overflow nowhere. |
| `Timestamps.StartedAtOfMintedId` | crates/stacks-bench-agent/src/session/archive.rs:692-714 | Re-reading a minted id, followed by any suffix, yields the ISO text of the second it was minted at. |
| `Timestamps.MintedIdIsReadIff` | crates/stacks-bench-agent/src/session/archive.rs:692-714 | For every `u64` second: the re-reader recognises the minted id exactly when the year it shows, cut to `i32`, has four digits; otherwise it falls back to the current time. |
| `Timestamps.CheckedDaysExact` | crates/stacks-bench-agent/src/session/autonomy.rs:345-353 | On all years, months and days the checked day count equals the reference exactly on the dates in stated bounds, months and days out of range included, and overflows on all others. |
| `Timestamps.ThirtyTwoBitsAreInBounds` | crates/stacks-bench-agent/src/session/autonomy.rs:345-353 | Every 32-bit year, month and day is in bounds. |
| `Timestamps.OverflowIff` | crates/stacks-bench-agent/src/session/autonomy.rs:289-329 | The parser overflows exactly on texts of the right shape whose date is out of bounds. |
| `Timestamps.ParseOfFields` | crates/stacks-bench-agent/src/session/autonomy.rs:289-329 | Printed fields parse to their day count and seconds, also when no calendar has the date and no clock the time; dates before 1970 are refused. |
| `Timestamps.ParseOfIsoText` | crates/stacks-bench-agent/src/session/autonomy.rs:289-329 | So does a printed date and time of day. |
| `Timestamps.ParseOfStamp` | crates/stacks-bench-agent/src/session/autonomy.rs:289-329 | Parsing the ISO text of any second before year 10000 returns that second. |
| `Timestamps.SessionIdRoundTrip` | crates/stacks-bench-agent/src/types.rs:54-65 | Mint an id, derive `started_at` from it with any suffix, parse it: the original second, for every second before year 10000. |
| `Timestamps.RoundTripIff` | crates/stacks-bench-agent/src/types.rs:54-65 | Over every `u64` second, the round trip returns the second whatever the fallback exactly before year 10000. |
| `Timestamps.StampOrderIsTimeOrder` | crates/stacks-bench-agent/src/session/autonomy.rs:331-343 | Comparing two timestamps as strings is comparing the seconds they print, both ways. |
| `Timestamps.StampIsInjective` | crates/stacks-bench-agent/src/session/autonomy.rs:331-343 | Two seconds before year 10000 never print alike. |
| `Timestamps.StampShape` | crates/stacks-bench-agent/src/session/autonomy.rs:331-343 | Digit by digit, a stamp is `YYYY-MM-DDThh:mm:ssZ` with the calendar date and time of day of its second. |
| `Timestamps.PrintersBeyond` | crates/stacks-bench-agent/src/session/archive.rs:729-738 | On every `u64` second, past year 10000 too: the pause file's printer reads the count as `i64`, the archive's cuts the year to `i32`, the ledger's prints the date while its year fits. |
| `Timestamps.NegativeYearText` | crates/stacks-bench-agent/src/session/autonomy.rs:331-343 | A negative year prints its sign and digits, at least four characters. |
| `Timestamps.ParseIsTolerant` | crates/stacks-bench-agent/src/session/autonomy.rs:289-329 | The text without its `Z`, or with any fraction of a second, parses to the same. |
| `Timestamps.NumbersAreSigned` | crates/stacks-bench-agent/src/session/autonomy.rs:297-316 | Fields are decimal with an optional sign and must fit `i64`; empty fields and stray characters are refused. |
| `SessionIds.ParseOfId` | crates/stacks-bench-agent/src/session/archive.rs:692-714 | For every digit-shaped id, the derived `started_at` parses to the second its digits count to, unless its date lies before 1970. |
| `SessionIds.IdOrderIsTimeOrder` | crates/stacks-bench-agent/src/session/archive.rs:692-714 | Among all digit-shaped ids that name a valid date and time, minted or chosen by an operator, string order of the derived `started_at` is time order. |
| `SessionIds.IdSortsRightIff` | crates/stacks-bench-agent/src/session/archive.rs:692-714 | For every digit-shaped id: it sorts by time against all ids that name moments iff it names one itself, or counts past the last moment of year 9999 and sorts after its text, or counts to before year 0 and sorts before the first text. |
| `SessionIds.NamingIsNeeded` | crates/stacks-bench-agent/src/session/archive.rs:692-714 | For ids whose digits count to a moment of a four-digit year, the condition is exactly that they name a valid date and time. |
| `SessionIds.NoSuchDaySortsWrong` | crates/stacks-bench-agent/src/session/archive.rs:692-714 | A failing family as the breaker meets it: in every year an id naming 31 February sorts before one naming 1 March and parses to a later second. |
| `SessionOrder.SortKeepsCounts` | crates/stacks-bench-agent/src/session/autonomy.rs:173-176 | The breaker's sort is a permutation, newest `started_at` first. |
| `SessionOrder.SortIsByRank` | crates/stacks-bench-agent/src/session/autonomy.rs:173-176 | It is stable: every session lands at the number of newer ones plus the equal ones the ledger lists before it. |
| `SessionOrder.TripsByRank` | crates/stacks-bench-agent/src/session/autonomy.rs:165-186 | The breaker trips exactly when it is on, there are enough completed sessions, and at least `n` stand ahead of every accepting one; ties included, no sorting mentioned. |
| `SessionOrder.WindowIsLatest` | crates/stacks-bench-agent/src/session/autonomy.rs:169-180 | With printed timestamps the string sort selects the chronologically latest `n` completed sessions. |
| `SessionOrder.MintedIsPrinted` | crates/stacks-bench-agent/src/session/archive.rs:692-714 | Sessions archived under a minted id meet that condition. |
| `SessionOrder.NamedIsPrinted` | crates/stacks-bench-agent/src/types.rs:81-96 | So do sessions under any accepted id whose digits name a moment from 1970 on. |
| `SessionOrder.LedgerOrderIsIrrelevant` | crates/stacks-bench-agent/src/session/autonomy.rs:169-186 | With distinct start times the window and the verdict do not depend on ledger order. |
| `SessionOrder.TripNeedsNewerFailures` | crates/stacks-bench-agent/src/session/autonomy.rs:165-186 | A trip after an accepting session that was the newest needs `n` later-archived, newer, completed sessions with nothing accepted. |
| `Autonomy.OpenUrlsAre` | crates/stacks-bench-agent/src/session/autonomy.rs:248-269 | A pull request counts as open iff some session published it and its latest observation is neither merged nor closed. |
| `Autonomy.OpenPrUrls` | crates/stacks-bench-agent/src/session/autonomy.rs:248-269 | The nested collection loop and the filter compute that set. |
| `Autonomy.LatestSessionIs` | crates/stacks-bench-agent/src/session/autonomy.rs:271-280 | The latest session is the last one with the greatest readable time, and there is none iff no session has one. |
| `Autonomy.Operator.Latest` | crates/stacks-bench-agent/src/session/autonomy.rs:271-280 | One pass finds it; it stops exactly if a session's time overflows. |
| `Autonomy.SessionOverflowsIff` | crates/stacks-bench-agent/src/session/autonomy.rs:271-280 | A session's time overflows exactly when the text it is read from has the right shape and a date out of bounds. |
| `GateMeaning.AnswerKind` | crates/stacks-bench-agent/src/session/autonomy.rs:60-83 | A check fails exactly when it cannot read the ledgers, and stops exactly when the interval gate is on and some session's date is out of bounds. |
| `GateMeaning.BlocksAre` | crates/stacks-bench-agent/src/session/autonomy.rs:85-245 | Spelled out on the ledgers, exactly which blocks a check reports and with which numbers: the pause file; as many distinct pull requests as the limit, published and not last seen merged or closed; the last session to end, within 3600 seconds per hour, saturated; the losing streak. |
| `GateMeaning.BlocksAreInOrder` | crates/stacks-bench-agent/src/session/autonomy.rs:66-82 | The blocks come in the order of the gates, no gate twice. |
| `Autonomy.Operator.CheckGates` | crates/stacks-bench-agent/src/session/autonomy.rs:60-83 | All gates in order, the error path, and the complete new state of ledger and pause file. |
| `Autonomy.Operator.CheckBreaker` | crates/stacks-bench-agent/src/session/autonomy.rs:157-245 | What the breaker reports and when it writes the pause file, with which sessions named. |
| `Autonomy.ReportNamesTheSameGates` | crates/stacks-bench-agent/src/session/autonomy.rs:34-58 | A report-only check names the gates an enforcing one would, in order, fails when it would, and changes nothing. |
| `GateMeaning.PauseAppearsIff` | crates/stacks-bench-agent/src/session/autonomy.rs:157-245 | Exactly which step creates a pause file: an enforcing check, readable and not stopped, with enough completed sessions ahead of every session that has an accepted target. |
| `GateMeaning.WrittenIs` | crates/stacks-bench-agent/src/session/autonomy.rs:213-236 | The pause file gives the moment, the length of the streak and the ids of its sessions, newest first. |
| `Autonomy.PauseHasACause` | crates/stacks-bench-agent/src/session/autonomy.rs:157-245 | Over every run: a pause file was written by an enforcing check that found none and a losing window, names that window, and has stood untouched since. |
| `Autonomy.PauseHolds` | crates/stacks-bench-agent/src/session/autonomy.rs:85-98 | Over every run without a removal: the pause file never changes and every check that reads its ledgers blocks with the pause-file gate first. |
| `Autonomy.QuietAfterAccepted` | crates/stacks-bench-agent/src/session/autonomy.rs:157-186 | Over every run: after the newest session is accepting, no trip until `n` newer zero-accepted sessions are archived. |
| `Fingerprint.CanonicalIs` | crates/stacks-bench-agent/src/analyzed_rejections.rs:130-142 | The canonical span list is strictly sorted and holds exactly the trimmed non-blank spans. |
| `Fingerprint.CanonicalIgnoresNoise` | crates/stacks-bench-agent/src/analyzed_rejections.rs:130-142 | Two span lists have the same canonical form iff they contribute the same trimmed non-blank spans. |
| `Fingerprint.PaddingKeepsCanonical` | crates/stacks-bench-agent/src/analyzed_rejections.rs:130-142 | White space around a span is invisible. |
| `Fingerprint.CanonicalSpans` | crates/stacks-bench-agent/src/analyzed_rejections.rs:130-142 | Trim, filter, sort and dedup in sequence compute the canonical form. |
| `Fingerprint.GateIsCanonical` | crates/stacks-bench-agent/src/analyzed_rejections.rs:415-421 | The specificity gate holds iff the canonical form has a span or a contract. |
| `Fingerprint.SameFamilySameFingerprint` | crates/stacks-bench-agent/src/analyzed_rejections.rs:156-165 | Inputs that differ only by noise share gate and fingerprint. |
| `Fingerprint.FingerprintIsInjective` | crates/stacks-bench-agent/src/analyzed_rejections.rs:156-165 | Without separators in lens, kind and spans, and no contract `*`, equal fingerprints mean equal lens, kind, spans and contract; the contract may contain any separator. |
| `Fingerprint.InseparableInputsCollide` | crates/stacks-bench-agent/src/analyzed_rejections.rs:156-165 | Each condition is needed: a bar in the lens, the kind or a span, a comma in a span, and the contract `*` each make a different family share the fingerprint of one that meets them all. |
| `RejectionLedger.StepKeepsInv` | crates/stacks-bench-agent/src/analyzed_rejections.rs:225-400 | Every system call of every process keeps lock exclusion, whole lines for readers, and contents equal to the replayed log. |
| `RejectionLedger.LedgerIsAtomic` | crates/stacks-bench-agent/src/analyzed_rejections.rs:225-400 | Any interleaving leaves the ledger as its operations leave it one at a time in lock order, each answered as if alone: no append lost, no half-written load. |
| `RejectionLedger.CompletionsAreLogged` | crates/stacks-bench-agent/src/analyzed_rejections.rs:306-400 | An operation enters that order exactly when it completes, with the answer its caller gets. |
| `RejectionLedger.RewriteIsOldOrNew` | crates/stacks-bench-agent/src/analyzed_rejections.rs:355-400 | Throughout a rewrite, whatever others do, the visible contents are the old ones until the rename and the new ones after. |
| `RejectionLedger.CrashLeavesOldOrNew` | crates/stacks-bench-agent/src/analyzed_rejections.rs:355-386 | A crash at any step of a rewrite leaves exactly the old or the new contents. |
| `RejectionRuns.OperationCanComplete` | crates/stacks-bench-agent/src/analyzed_rejections.rs:225-400 | From every reachable state with the lock free, any process can carry out any operation that passes the gate, and it is then performed and answered as the atomic ledger would. |
| `RejectionRuns.OperationsAre` | crates/stacks-bench-agent/src/analyzed_rejections.rs:259-400 | An append adds its record last and touches no line; a load returns the records in order without broken or blank lines; a rewrite leaves exactly its records; a filter leaves what it returns and counts what it dropped, at least zero, or fails and changes nothing. |
| `RejectionRuns.AcquireIff` | crates/stacks-bench-agent/src/analyzed_rejections.rs:225-257 | Loads share the lock; everything else needs it alone. |
| `RejectionRuns.WritersAreAlone` | crates/stacks-bench-agent/src/analyzed_rejections.rs:225-257 | In every run, while a process appends or rewrites no other is inside. |
| `RejectionRuns.HalfAppendShows` | crates/stacks-bench-agent/src/analyzed_rejections.rs:328-348 | Between the two writes of an append the file already shows its record, so only the lock keeps readers from it. |
| `RejectionRuns.CrashFreesLock` | crates/stacks-bench-agent/src/analyzed_rejections.rs:204-257 | A crash gives the lock back and changes no file. |
| `RejectionRuns.OnlyIdentifiedAreAppended` | crates/stacks-bench-agent/src/analyzed_rejections.rs:306-324 | In every run only records with a non-blank span or contract are appended. |
| `RejectionRuns.UnidentifiedAppendIsIgnored` | crates/stacks-bench-agent/src/analyzed_rejections.rs:306-324 | Any other append is ignored. |
| `RejectionRuns.ProbeIs` | crates/stacks-bench-agent/src/analyzed_rejections.rs:437-447 | A probe returns exactly the loaded records with its fingerprint if it has a non-blank span or contract, and nothing otherwise. |
| `RejectionRuns.ProbeKeepsOrder` | crates/stacks-bench-agent/src/analyzed_rejections.rs:437-447 | In ledger order, with repetitions. |
| `RejectionRuns.HookRecordIs` | crates/stacks-bench-agent/src/session/analyzers.rs:449-541 | The hook records exactly the rejected and not-actionable families that have an identity, under their own lens, kind, spans, contract and fingerprint, with the analyzer's reason. |
| `RejectionRuns.HookRecordIsOnlyForItsFamily` | crates/stacks-bench-agent/src/session/analyzers.rs:485-541 | On inputs without separators a hook record answers only queries for its own family. |
| `RejectionLedger.EntrySurvives` | crates/stacks-bench-agent/src/analyzed_rejections.rs:306-348 | An appended record stays until a rewrite drops it. |
| `RejectionLedger.RecordedRejectionIsFound` | crates/stacks-bench-agent/src/session/analyzers.rs:485-541 | A rejection the analyzer hook appended is in every later probe for the same family up to noise, under any interleaving, until a rewrite drops it. |
| `Json.SortIsIdempotent` | crates/stacks-bench-agent/src/schema_export.rs:160-181 | Sorting keys twice is sorting them once. |
| `Json.SortKeepsPaths` | crates/stacks-bench-agent/src/schema_export.rs:160-181 | At every path the sorted document holds the sorted form of what was there, and nothing where there was nothing; arrays keep their order. |
| `Json.SortedFormsDecide` | crates/stacks-bench-agent/src/schema_export.rs:151-181 | Two documents have equal sorted forms iff they are equal up to key order at every depth. |
| `SchemaExport.SchemaDir.WriteAll` | crates/stacks-bench-agent/src/schema_export.rs:81-93 | The files after an export. |
| `SchemaExport.SchemaDir.Drift` | crates/stacks-bench-agent/src/schema_export.rs:95-121 | The drift loop returns the findings of the specification, or fails on the first unreadable file. |
| `SchemaExport.NoDriftMeansUpToDate` | crates/stacks-bench-agent/src/schema_export.rs:95-121 | No drift iff every generated schema is committed up to key order. |
| `SchemaExport.DriftOfOne` | crates/stacks-bench-agent/src/schema_export.rs:95-121 | One entry is reported missing, different beyond key order, or not at all; a file that is not JSON is an error. |
| `SchemaExport.DriftConcat` | crates/stacks-bench-agent/src/schema_export.rs:95-121 | Several entries are reported in order, and one error fails them all. |
| `SchemaExport.WrittenElsewhere` | crates/stacks-bench-agent/src/schema_export.rs:81-93 | An export touches no other file. |
| `SchemaExport.ExportLeavesNoDrift` | crates/stacks-bench-agent/src/schema_export.rs:81-121 | Right after an export there is no drift, whatever was there before. |
| `SchemaExport.ReorderingLeavesNoDrift` | crates/stacks-bench-agent/src/schema_export.rs:95-121 | Reordering keys in committed files at any depth causes no drift. |
| `JsonSchema.WithAllOfIsConjunction` | crates/stacks-bench-agent/src/schema_export/transform.rs:57-68 | Appending to `allOf` of a schema object accepts exactly what both accept; a boolean schema stays as it is. |
| `JsonSchema.WithEachIsConjunction` | crates/stacks-bench-agent/src/schema_export/transform.rs:57-68 | So does any number of appends. |
| `SchemaTransform.SchemaDef.AppendAllOf` | crates/stacks-bench-agent/src/schema_export/transform.rs:57-68 | The in-place append. |
| `SchemaTransform.SchemaDef.InjectConsensusRouting` | crates/stacks-bench-agent/src/schema_export/transform.rs:272-351 | Appends the five routing rules. |
| `SchemaTransform.SchemaDef.InjectAnalyzerTarget` | crates/stacks-bench-agent/src/schema_export/transform.rs:110-128 | Appends routing and evidence rules. |
| `SchemaTransform.SchemaDef.InjectMergedTarget` | crates/stacks-bench-agent/src/schema_export/transform.rs:178-258 | Appends routing, delivery-mode, eligibility and evidence rules. |
| `SchemaTransform.SchemaDef.InjectExperiment` | crates/stacks-bench-agent/src/schema_export/transform.rs:372-389 | Appends one rule per delivery mode. |
| `SchemaTransform.SchemaDef.InjectImplementedReport` | crates/stacks-bench-agent/src/schema_export/transform.rs:405-519 | Appends the implemented-report rules. |
| `SchemaTransform.SchemaDef.InjectAbortedReport` | crates/stacks-bench-agent/src/schema_export/transform.rs:526-557 | Appends the aborted-report rules. |
| `SchemaAgreement.RoutingAgrees` | crates/stacks-bench-agent/src/schema_export/transform.rs:272-351 | On every decodable document the routing fragments hold iff the typed routing check passes and no consensus-only key is an explicit null. |
| `SchemaAgreement.AnalyzerTargetAgrees` | crates/stacks-bench-agent/src/models/analyze.rs:240-324 | A definition with the analyzer fragments accepts a decodable document iff the rest of it does, the shared clauses of the typed check hold, and no consensus-only key is null. |
| `SchemaAgreement.AnalyzerCheckExtendsClauses` | crates/stacks-bench-agent/src/models/analyze.rs:240-324 | The typed check is those clauses plus: the replay is well formed, and every evidence query is well formed, supports at least one invocation and only invocations the replay lists; so without a replay there is no evidence. |
| `SchemaAgreement.ValidAnalyzerTargetIsAccepted` | crates/stacks-bench-agent/src/models/analyze.rs:186-324 | Every target the typed check passes satisfies the fragments once serialized with empty fields skipped. |
| `SchemaAgreement.MergedTargetAgrees` | crates/stacks-bench-agent/src/models/targets.rs:186-307 | The same equivalence for merged targets, with the derived delivery mode and bench eligibility. |
| `SchemaAgreement.MergedCheckExtendsClauses` | crates/stacks-bench-agent/src/models/targets.rs:186-307 | The same for merged targets, plus the contributor counts. |
| `SchemaAgreement.ValidMergedTargetIsAccepted` | crates/stacks-bench-agent/src/models/targets.rs:109-307 | Every merged target the typed check passes satisfies the fragments once serialized. |
| `SchemaAgreement.ExperimentAgrees` | crates/stacks-bench-agent/src/models/summary.rs:101-127 | The mode/status rule is the same in schema and typed check, both ways. |
| `SchemaAgreement.ImplementedAgrees` | crates/stacks-bench-agent/src/models/optimizer_report.rs:161-276 | The schema accepts exactly the typed-valid reports whose evidence and test entries are all non-blank when consensus is at stake: acceptance implies validity, and the gap is exact. |
| `SchemaAgreement.AbortedAgrees` | crates/stacks-bench-agent/src/models/optimizer_report.rs:323-349 | The same for aborted reports and their failing tests. |
| `Models.SerializedDecodes` | crates/stacks-bench-agent/src/models/analyze.rs:186-238 | A serialized analyzer target decodes to itself, invocation ids and supported invocations included, and spells nothing out as null. |
| `Models.MergedSerializedDecodes` | crates/stacks-bench-agent/src/models/targets.rs:84-183 | The same for merged targets, with contributors, convergence count and derived fields. |
| `LedgerLine.PromotedGet` | crates/stacks-bench-agent/src/models/session_record.rs:192-224 | Promoting an old line changes the version, drops the retired key and keeps every other key's value. |
| `LedgerLine.ReadByVersion` | crates/stacks-bench-agent/src/models/session_record.rs:192-224 | By the value under `schema_version`: 3 is read as it stands; 1, 2, none, or anything but a whole number after promotion; every other number is refused. |
| `LedgerLine.OldLinesReadAlike` | crates/stacks-bench-agent/src/models/session_record.rs:192-224 | A line of version 1 or 2 reads exactly as the version 3 line with the same values. |
| `LedgerLine.LedgerContainsId` | crates/stacks-bench-agent/src/session/archive.rs:502-524 | The search returns true exactly when some line reads, in any supported version, as a record of the id. |
| `LedgerLine.JunkIsSkipped` | crates/stacks-bench-agent/src/session/archive.rs:502-524 | Blank lines, broken lines and lines of unknown versions neither hide a record nor count as one. |
| `ArchiveProtocol.SearchFindsListed` | crates/stacks-bench-agent/src/session/archive.rs:502-543 | The search over the ledger file of a main branch, old versions and foreign lines between included, finds an id iff a commit lists it, for every reader that reads back what archives write. |
| `ArchiveProtocol.LedgerContainsIs` | crates/stacks-bench-agent/src/session/archive.rs:84-107 | The protocol's check of a clone's ledger finds exactly the ids listed. |
| `ArchiveProtocol.RebaseIs` | crates/stacks-bench-agent/src/git.rs:378-399 | A rebase that replays keeps every line of both sides and extends the upstream. |
| `ArchiveProtocol.FastForwardMeansUnlisted` | crates/stacks-bench-agent/src/session/archive.rs:366-391 | A clone whose ledger lacks an id can fast-forward its branch only while nobody has committed its line and nobody else has claimed it. |
| `ArchiveProtocol.StepKeepsInv` | crates/stacks-bench-agent/src/session/archive.rs:84-238 | Every step of every clone, failures, lost replies and crashes included, keeps the protocol invariant. |
| `ArchiveProtocol.RemoteIsConsistent` | crates/stacks-bench-agent/src/session/archive.rs:84-238 | After every run of any number of clones the remote ledger has one line per id and every line's branch exists with its tip equal to the recorded sha. |
| `ArchiveProtocol.RunOnlyExtends` | crates/stacks-bench-agent/src/session/archive.rs:84-238 | Over every run remote main is only extended, and every committed line keeps naming its branch tip. |
| `ArchiveProtocol.ListedBranchIsFrozen` | crates/stacks-bench-agent/src/session/archive.rs:291-401 | From the moment any clone has committed a session's line its remote branch never moves. |
| `ArchiveProtocol.SuccessIsPermanent` | crates/stacks-bench-agent/src/session/archive.rs:205-237 | An archive that reports success has its line on the remote for good. |
| `ArchiveRuns.StepEnabledIff` | crates/stacks-bench-agent/src/session/archive.rs:84-238 | When each step of an archive is possible. |
| `ArchiveRuns.StepOutside` | crates/stacks-bench-agent/src/session/archive.rs:84-238 | What each step changes on the remote; other clones never change. |
| `ArchiveRuns.StepInside` | crates/stacks-bench-agent/src/session/archive.rs:84-238 | What each step changes on the clone's main and session branches. |
| `ArchiveRuns.StepProgress` | crates/stacks-bench-agent/src/session/archive.rs:84-238 | Where each step leaves the archive: any refusal or lost reply ends it, except that the main push is tried again up to three times. |
| `ArchiveRuns.ListedIsNotArchivedAgain` | crates/stacks-bench-agent/src/session/archive.rs:96-107 | Archiving a listed session again changes nothing. |
| `ArchiveRuns.PendingConcat` | crates/stacks-bench-agent/src/git.rs:378-393 | A rebase replays the commits the upstream lacks in their order. |
| `ArchiveRuns.MainPushIsBounded` | crates/stacks-bench-agent/src/session/archive.rs:205-228 | Over every run, from the commit of its line until it is next idle, an archive that does not crash only pushes and rebases main, in turn, and stops exactly when a push landed, a rebase failed or the fourth push was refused. |
| `ArchiveRuns.RetryLands` | crates/stacks-bench-agent/src/git.rs:417-450 | A refused push, a clean rebase and an accepted push put the line on the remote. |
| `ArchiveRuns.UndisturbedArchiveSucceeds` | crates/stacks-bench-agent/src/session/archive.rs:84-238 | An archive nothing disturbs ends with its branch at the new commit and its line last on the remote. |
| `ArchiveProtocol.UnlistedBranchMoves` | crates/stacks-bench-agent/src/session/archive.rs:330-391 | Before the line is committed, archiving again with new results moves the branch. |
| `ArchiveProtocol.BranchMovesIff` | crates/stacks-bench-agent/src/session/archive.rs:291-401 | Write-once, exactly: a branch whose tip is a clone's own commit, whatever that clone is doing, can be moved by some run iff its ledger does not list the session. |
| `ArchiveProtocol.PushedThenCrashed` | crates/stacks-bench-agent/src/session/archive.rs:84-238 | That situation is reachable. |
| `PushRetry.PushOrRetry` | crates/stacks-bench-agent/src/git.rs:407-450 | At most `max_retries` + 1 pushes, each retry right after a refused push and a successful rebase; success iff some allowed push lands after only such rounds; failure only on a failed rebase or after the last push. |
| `GitConfigEnv.MergeGitConfigEntry` | crates/stacks-bench-agent/src/git.rs:236-259 | The in-place update yields the merged environment, or overflows exactly at the largest count. |
| `GitConfigEnv.MergedLookup` | crates/stacks-bench-agent/src/git.rs:236-259 | A merge changes the count and the new slot and no other variable. |
| `GitConfigEnv.MergeAppendsIff` | crates/stacks-bench-agent/src/git.rs:236-259 | On every environment git can read, a merge adds exactly its pair to the overrides iff the count is assigned at most once. |
| `GitConfigEnv.PreviousByCases` | crates/stacks-bench-agent/src/git.rs:241-246 | The merge counts from the first count entry; a missing or unreadable one is zero. |
| `GitConfigEnv.CountsAreDecimal` | crates/stacks-bench-agent/src/git.rs:241-246 | Counts are decimal numbers that fit, with an optional plus sign. |
| `GitConfigEnv.StackedDecodes` | crates/stacks-bench-agent/src/git.rs:236-259 | Any number of merges adds all their pairs in order. |
| `GitConfigEnv.StackedFromEmpty` | crates/stacks-bench-agent/src/git.rs:236-259 | From an empty environment they decode to exactly those pairs. |
| `TreeWalk.CopyDirRecursive` | crates/stacks-bench-agent/src/session/archive.rs:448-476 | The worklist copy terminates, succeeds iff the source is a directory without links whose kinds agree with the destination, then yields exactly the overlay; a failure has written only parts of it. |
| `TreeWalk.LatestMtime` | crates/stacks-bench-agent/src/session/archive.rs:758-781 | The walk returns the greatest time over all files and links below, none iff there are none. |
| `TreeWalk.EntryCovers` | crates/stacks-bench-agent/src/session/archive.rs:452-473 | The worklist never forgets a path and its work shrinks. |
| `FanOut.Cap` | crates/stacks-bench-agent/src/session/analyzers.rs:78-88 | The number of permits lies between one and the number of families. |
| `FanOut.CapIsClosest` | crates/stacks-bench-agent/src/session/analyzers.rs:78-88 | Of all numbers between one and the families, the cap is the closest to the override or, without one, to the setting. |
| `FanOut.EnabledIff` | crates/stacks-bench-agent/src/session/analyzers.rs:174-181 | A waiting family starts whenever a permit is free. |
| `FanOut.PermitsAreConserved` | crates/stacks-bench-agent/src/session/analyzers.rs:88-124 | In every schedule held plus free permits is the cap, no family starts twice, and the schedule is at most three steps per family. |
| `FanOut.NeverStuck` | crates/stacks-bench-agent/src/session/analyzers.rs:78-126 | With that cap some step is possible until every task is joined, and none after. |
| `FanOut.OkMeansAll` | crates/stacks-bench-agent/src/session/analyzers.rs:117-148 | When the join loop ends every family ran exactly once; the answer is an error iff some task failed, that of the first failed task to be joined; it is `Ok` iff all succeeded and the analyses can be read, with the number of families and the accepted and rejected analyses. |
| `FanOut.Tally` | crates/stacks-bench-agent/src/session/analyzers.rs:137-148 | The tally loop counts accepted and rejected analyses, which together are all of them. |
| `FenceScanner.MarkerRoundTrip` | crates/stacks-bench-agent/src/prompts.rs:416-437 | Any marker, with either quote, any white space around its parts and anything after its closing quote, gives its schema name back. |
| `FenceScanner.MarkerHasForm` | crates/stacks-bench-agent/src/prompts.rs:416-437 | Every line read as a marker has that form. |
| `FenceScanner.CheckExampleFences` | crates/stacks-bench-agent/src/prompts.rs:304-411 | The index loops compute the findings of the recursive scan. |
| `FenceScanner.CheckExample` | crates/stacks-bench-agent/src/prompts.rs:313-406 | One marked example: its finding and the line to continue from. |
| `FenceScanner.ScanIsScan` | crates/stacks-bench-agent/src/prompts.rs:304-411 | The scan's examples follow one another without overlap, each described by its lines, and every marker is classified or lies in an earlier fence. |
| `FenceScanner.ScanIsUnique` | crates/stacks-bench-agent/src/prompts.rs:304-411 | No other list of examples does. |
| `FenceScanner.FindingIff` | crates/stacks-bench-agent/src/prompts.rs:313-406 | A classified marker is reported iff its example is not a closed fence the validation found clean, with its own opener and outcome. |
| `FenceScanner.FindingHasMarker` | crates/stacks-bench-agent/src/prompts.rs:304-411 | Nothing else is reported. |
| `FenceScanner.FindingsFollowExamples` | crates/stacks-bench-agent/src/prompts.rs:304-411 | They come in the order of their markers, so no marker has two. |
| `FenceScanner.NoMarkersNoFindings` | crates/stacks-bench-agent/src/prompts.rs:304-411 | A text without markers is never faulted. |

## Left out

- Git, GitHub, Codex and benchmark subprocesses: push, fetch and rebase are abstract steps that succeed, fail or lose their reply.
- The text of `git status --porcelain`, worktree set-up and tear-down, the clean-worktree check, credentials, URLs and archives without a remote: foreign output or one-branch facts.
- Dry-run archives: their local lines may be pushed later without a branch, so the remote ledger property does not cover them.
- A crash between writing and committing an archive ledger line: append and commit are one step of the model. In the code the next archive of the same id finds the uncommitted line and reports the session as already archived; an archive of another id refuses the dirty worktree.
- A crash between the two writes of one rejections-ledger append: it can leave a partial line.
- `build_session_record` and the target and status derivations: field assembly would only add easy members. The strict reader of the current record version is a parameter of `LedgerLine`; a version written as a fraction such as `2.0` is not told apart from `2`.
- The history projection: taken as the session list and a map from URL to latest event kind.
- Failure to write the pause file, and pause files created by hand: the run events are archiving, observing, checking and removing.
- Reading metadata of a directory entry that vanishes during `latest_mtime`, file permissions and times during the copy.
- JSON text, number precision, non-finite durations and regular expressions: documents are values, numbers are real.
- `VerificationReplay`, `EvidenceQuery` and benchmark-invocation checks: one flag each; `Candidate`, `AcceptedAnalysis` and lens-disposition injections: same shape as the ones modelled.
- FenceScanner.CheckExampleFences: schema lookup, parsing and validation of a fence body are one parameter function; message texts are constructors.
- Autonomy.Operator.CheckGates: block messages and remediation texts are constructors with the numbers they print.
- The copies of `civil_from_days` in `session/maintain.rs` and `cli/history/mod.rs`: they date maintenance events and history listings.
- Settings, layout, prompts, merge, finalize, publish, optimizer and maintain phases: process and file plumbing.
