# Arq backup aggregate status report — a Dafny model of its core

The service reads Arq backup notification emails and keeps one record per
backup plan in a status file (`arq-backup-status.json`). On each run it:

- merges every notification it read into those records;
- classifies each plan as ignored, in error, in warning or successful;
- counts the classes, derives the overall level of the report;
- writes the status file back.

This project models that core, all of it in `index.js`, and proves
properties of the model:

- `wrappers.dfy` — module `Wrappers`: the `Option` type.
- `mail_text.dfy` — module `MailText`:
  - how a message's text is chosen (`getEmailMessageBodyPlaintext`);
  - how one labelled field is read out of it (`getArqBackupSectionValueFromBody`);
  - the JavaScript string primitives that code relies on, with their
    JavaScript meaning: `trim` with the ECMAScript whitespace set, `search`,
    `substring` with its clamping and swapping of bounds, `split('\n')[0]`, and
    the `replace(/(<([^>]+)>)/g, "\n")` markup stripping.
- `plan_ledger.dfy` — module `PlanLedger`: the per-plan record and the merge
  of one notification into the plan map, and of a run's notifications in
  order.
- `health.dfy` — module `HealthEvaluator`: the class of a plan at a given
  time, the run counters (`backupStatus`) and the overall level.
- `status_store.dfy` — module `StatusStore`:
  - the status object as a class `ArqBackupStatus` whose methods update it in
    place;
  - the insertion order of the plan map, which the report and the file follow;
  - the file's shape: the map saved as a list of `[name, record]` pairs and
    rebuilt with `new Map(pairs)`.

Times are integer milliseconds since the epoch; `now` is a parameter.

## Model

| member | source | states |
|---|---|---|
| MailText.Trim | index.js:405 | `trim` returns the infix of the text after its leading whitespace; only whitespace surrounds it, and it neither starts nor ends with whitespace |
| MailText.FirstLine | index.js:405 | `split('\n')[0]` is the longest prefix without a newline; it ends at a newline or at the end of the text |
| MailText.Search | index.js:405 | `search` returns -1 exactly when the tag occurs nowhere; otherwise it returns the first position where the tag occurs |
| MailText.Substring | index.js:405 | `substring(start, end)` with bounds in order is the slice between them; with `end` the text's length it is the slice from `start` clamped into the text |
| MailText.ValueAfter | index.js:405 | what is kept after the tag is one line, with no whitespace at either end |
| MailText.SectionValue | index.js:403-406 | a field value, as written, is a single line with no leading or trailing whitespace, whatever the body |
| MailText.SectionValueLocated | index.js:403-406 | a found field's value sits in the body after the tag and whitespace only; only whitespace follows it up to the next newline or the end of the body; it is empty exactly when nothing but whitespace follows the tag, so a blank rest of the tag's line makes the reader take the next non-blank line |
| MailText.ValueAfterEmpty | index.js:405 | the text kept after a tag is empty exactly when only whitespace follows the tag |
| MailText.TrimEmpty | index.js:405 | `trim` yields the empty string exactly when the text is whitespace only |
| MailText.MissingTagReadsFromTagLength | index.js:405 | when the tag is absent, `search` yields -1 and the value is read from offset `length - 1` of the tag instead of being reported missing |
| MailText.MissingErrorsFieldYieldsGarbage | index.js:405 | a body `Backup Plan: Laptop` with no `Errors:` line yields the errors value `Plan: Laptop` |
| MailText.FindSectionValue | index.js:405 | a field is absent exactly when its tag does not occur; when present it is the value read after the tag |
| MailText.ExtractFields | index.js:237-240 | as intended, not as written (the source has no missing-field path): the three fields of a notification (plan, end time, errors) are extracted exactly when all three tags occur, each equal to the value the source reads after its tag |
| MailText.StripTags | index.js:398 | the global `/(<([^>]+)>)/g` replacement as its left-to-right scan: a `<` whose first following `>` is two or more positions later starts a match that becomes one newline, and the scan resumes after that `>`; every other character is kept; the output is no longer than the input and holds only input characters and newlines |
| MailText.StripTagsLeavesNoSpan | index.js:398 | after the global replacement no `<`, one or more non-`>` characters, `>` span remains |
| MailText.StripTagsIdentity | index.js:398 | text without such a span is left unchanged by the replacement |
| MailText.StripTagsIdempotent | index.js:398 | replacing twice gives the same text as replacing once |
| MailText.StripTagsKeepsNoClose | index.js:398 | the replacement adds no `>` to text that has none |
| MailText.BodyPlaintext | index.js:387-401 | as written: with a part list, text comes from part 0 only, and a TypeError is thrown exactly when part 0 exists and is not text/plain; without parts, the inline body with markup replaced by newlines, or undefined |
| MailText.ConstCounterThrowsPastFirstPart | index.js:390 | a message whose parts are text/html then text/plain makes the loop throw |
| MailText.PlaintextOf | index.js:387-401 | the loop as intended: never throws; yields text exactly when some part is text/plain, and then the first such part; agrees with the code as written whenever that does not throw |
| PlanLedger.Ingest | index.js:241-260 | a new plan gets a record with one backup, the configured thresholds and the observed date and errors; an existing plan accumulates errors and one backup, and takes date and error count only from a strictly later end time; other plans are unchanged |
| PlanLedger.IngestAll | index.js:236-261 | after merging a run, the plan names are the previous ones plus those observed; plans not observed are unchanged |
| PlanLedger.IngestAllAccumulates | index.js:248-257 | after a run, a plan's backups and errors are its previous totals plus the count and the error sum of its observations; its thresholds are those of its first record |
| PlanLedger.IngestAllTracksLatest | index.js:243-247 | after a run, a plan's date is the maximum of its previous date and all observed end times; its recent error count came with the first observation reaching that maximum, or is the previous one when none exceeded the previous date |
| PlanLedger.IngestCommutes | index.js:241-260 | merging two notifications in either order gives the same map, unless they are for one plan with the same end time |
| PlanLedger.TiedEndTimesKeepFirst | index.js:244-246 | of two notifications for one plan with equal end times, the one merged first supplies the recent error count |
| PlanLedger.ReingestCountsTwice | index.js:248-249 | merging the same notification twice counts its backup and errors twice and leaves date and recent errors as after once |
| HealthEvaluator.Classify | index.js:315-328 | a plan is ignored exactly when listed; in error exactly when not ignored and its age reaches the error threshold or it has recent errors; in warning exactly when otherwise its age reaches the warning threshold; successful otherwise |
| HealthEvaluator.ClassifyWorsensWithAge | index.js:318-324 | with no new backup, a plan's class never improves as time passes |
| HealthEvaluator.ErrorThresholdBoundary | index.js:318-319 | an age of exactly `daysToError` days is an error; one millisecond less, with no recent errors, is not |
| HealthEvaluator.LaptopScenario | index.js:241-328 | backups of one plan on 2024-01-01 (no errors) and 2024-01-03 (two errors) give a record with two backups, two errors and the later date; with thresholds of two and seven days the plan is in error on 2024-01-10 |
| HealthEvaluator.CountsPartition | index.js:313-328 | every plan is counted in exactly one of the four class counters, so they add up to the total |
| HealthEvaluator.TallyOfSnoc | index.js:313-328 | one more plan adds one to the total and one to the counter of its class, and changes no other counter |
| HealthEvaluator.CountPositive | index.js:313-328 | a class counter is positive exactly when some plan has that class |
| HealthEvaluator.Overall | index.js:344-352 | the overall level is never ignored; it is error exactly when errors were counted, warning exactly when none were but warnings were, and success otherwise |
| HealthEvaluator.OverallIgnoresIgnored | index.js:353-355 | the ignored counter has no effect on the overall level |
| HealthEvaluator.OverallOfPlans | index.js:344-352 | the overall level is error exactly when some plan is in error; it is warning exactly when no plan is in error and some plan is in warning |
| StatusStore.InsertionOrder | index.js:259 | the Map's insertion order after a run extends the previous order, lists exactly the previous plans and the observed ones, and stays free of duplicates |
| StatusStore.Saved | index.js:372-376 | the written file carries the last-run date and the ignore list, one pair per listed plan, and its pairs load back to the listed part of the map in the same order |
| StatusStore.Pairs | index.js:374 | `[...map]` lists one `[name, record]` pair per key, in insertion order |
| StatusStore.MapOfPairs | index.js:70 | `new Map(pairs)` yields a map together with its insertion order, which lists every key of the map exactly once |
| StatusStore.LoadAfterSave | index.js:70 | loading the saved pairs gives back the same map in the same insertion order |
| StatusStore.SaveAfterLoad | index.js:374 | saving a loaded pair list whose names are distinct gives back the same list |
| StatusStore.ArqBackupStatus.constructor | index.js:49-53 | a first run starts with no last-run date, an empty plan map and an empty ignore list |
| StatusStore.ArqBackupStatus.Snapshot | index.js:372-376 | the saved file carries the last-run date and the ignore list; its pairs load back to the same map in the same order |
| StatusStore.ArqBackupStatus.Load | index.js:66-77 | an unreadable file leaves the object as it was; otherwise the map and its order are rebuilt from the pairs, and a missing ignore list becomes empty |
| StatusStore.ArqBackupStatus.Ingest | index.js:241-260 | the map becomes the merge of the notification; a new plan is appended to the insertion order; nothing else changes |
| StatusStore.ArqBackupStatus.IngestAll | index.js:236-261 | the map becomes the merge of the run's notifications in order; new plans are appended in order of first appearance |
| StatusStore.ArqBackupStatus.Tally | index.js:277-328 | the counting loop over the map yields the counters of the plans' classes; they add up to the total, which is the number of plans |
| StatusStore.ArqBackupStatus.ProcessObservations | index.js:233-376 | one run merges the notifications, tallies the plans at `now`, derives the overall level, records `now` as the last run, and produces the file content |

## Left out

- Gmail access (OAuth credentials, token storage, listing and fetching messages, the progress bar) is not modelled. The messages of a run are a parameter.
- The cron schedule and the first explicit run are not modelled, and neither is any concurrency between runs.
- Reading and writing the status and configuration files is not modelled, and neither is JSON parsing. `Load` takes the parsed content, or `None` when reading or parsing fails; `Snapshot` is the content written.
- Base64 decoding of message parts is not modelled: parts carry already decoded text.
- Date parsing and formatting (`new Date(...)`, `toISOString`) are not modelled: end times are integer milliseconds, and an unparseable date (`NaN`) is not represented.
- `parseInt` of the errors field is not modelled: error counts are integers, and a `NaN` count is not represented.
- Configuration values are integers: fractional `daysToWarn`/`daysToError` are not represented.
- The HTML report is left out: the per-plan text, the elapsed-time wording, the red highlight after two weeks, emojis and layout. So is sending the report email.
- MailText.Search: `search` compiles its argument as a regular expression; it is modelled as a literal search, which agrees for the three tags used, none of which contains a regular-expression metacharacter.
- A TypeError thrown while reading a message (an undefined body, or the loop counter below) aborts the whole run in the source; the model does not represent that abort, and exposes the thrown error as a `BodyText` value instead.
- Records are values in the model. The source mutates the record object held by the map; no other reference to it exists, so aliasing is not observable.
- When the status file cannot be read, the source keeps the object it already has in memory: the initial empty object on the first run, the previous run's object afterwards. The model follows this code rather than a reset to an empty state.
- A missing field has no path of its own in the source (index.js:237-240): it ingests whatever the field reader yields, which the first finding below describes. The reading as intended is `MailText.ExtractFields`, built on `MailText.FindSectionValue`. The merge takes observations that are already parsed, so the model has no step that turns `ExtractFields` output into observations.
- Strings are sequences of Unicode characters. JavaScript's `search`, `length` and `substring` count UTF-16 code units instead. The two agree whenever the tag is found, because the offset and the tag length are then measured in the same unit and the tags are ASCII. They differ for the missing-tag offset `length - 1` of the tag (`MailText.MissingTagReadsFromTagLength`, `MailText.MissingErrorsFieldYieldsGarbage`) when a character outside the Basic Multilingual Plane comes before that offset. Each such character counts as two code units in JavaScript and as one character in the model, so the two start reading at different places.
- Deduplication of notifications and an atomic (write-then-rename) save are not in the source and are not modelled. `PlanLedger.ReingestCountsTwice` records the double counting.

## Findings

| source | as written | input that shows it | evidently intended | confidence | as-written member | corrected member |
|---|---|---|---|---|---|---|
| index.js:405 | `bodyString.search(tag) + tag.length` is used as the start offset even when `search` returns -1 | body `Backup Plan: Laptop` with no `Errors:` line: the errors field reads `Plan: Laptop` | a missing field is reported as missing | not executed | MailText.MissingErrorsFieldYieldsGarbage | MailText.FindSectionValue |
| index.js:390 | the loop counter is declared `const`, so `i++` throws after part 0 unless part 0 is text/plain | parts `[text/html, text/plain]`: a TypeError instead of the text/plain part | the first text/plain part among all parts is returned | not executed | MailText.ConstCounterThrowsPastFirstPart | MailText.PlaintextOf |
