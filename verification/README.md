# Models of IronClaw's settings, agentic loop, `.env` editor, source scanners and tenancy

IronClaw is a personal AI agent written in Rust. This project models the parts of it whose correctness rests on
logic over trees, texts and event histories, and proves what those parts promise. Each module follows one source
file or one concern of it:

| module | concern |
|---|---|
| `Json`, `Schema` | JSON values, the text conversions `set` goes through, and what serde's derive accepts and writes |
| `SettingsText` | what setting a text comes to, told in the characters of the text and by what the path holds |
| `SettingsPath`, `SettingsDb`, `SettingsRoundTrip`, `SettingsFlatten`, `SettingsMerge`, `Settings` | dotted paths, rows of the settings table, rebuild, flatten, layering; the settings object itself |
| `CodecWitness` | a codec that meets the laws assumed of the text conversions, so no result about them is empty |
| `AgenticLoop`, `LoopHistory`, `LoopBatches` | the loop with its three counters, and what its counters mean over the history of a run, in fingerprints and in the batches themselves |
| `LoopProtocol` | every event of a run, and its ending, as the history before it calls for |
| `CanonicalJson` | key order, canonical forms and the fingerprint of a batch of tool calls |
| `Lexer`, `LexerVsRust`, `TestContexts` | the no-panics scanner: masking line by line, where it parts from Rust, and which lines are test code |
| `LexerTexts`, `TestBlocks` | what its masks and test contexts are, by the comments, literals, attributes, items and braces of the file |
| `Stripper`, `Braces`, `LineBreaks`, `Gateway` | the gateway scanner: masking a whole file, matching braces, blanking test modules, and the line numbers that result |
| `StripperTexts`, `Tokens` | what it leaves of each comment and literal; where comments and raw strings open and close, for both scanners |
| `EnvFile`, `EnvEdit`, `EnvLaws`, `EnvBatch`, `EnvManyLines`, `EnvReader` | the `.env` printer, its editors, the laws between them for values of any number of lines, and what a reader sees after an edit |
| `Attachments`, `AttachmentText` | the attachment block, its escapes, a reader that undoes both, and finding the block in any text |
| `Utf8` | truncation at character boundaries (section 4 of RFC 3629) |
| `Migration` | moving the session token between stores over restarts and failing calls |
| `Texts` | what several of these need of strings |
| `Tenant`, `TenantService` | ownership checks followed by database calls, interleaved: what no tenant is given, and what every tenant is |

A loop that updates variables is a method proved against a function; the laws are lemmas about that function. A
database, a store, the settings, the lexer state, the event buffer and the loop's context are classes. Where a
promise is false, the exact condition under which it holds is the theorem, and a concrete input shows the failure. The
functions that methods are proved against are in turn pinned by laws in other terms: characters of a text, entries of a
history, braces of a file, steps of a run.

## Findings

- Settings do not always survive the database. `SettingsFlatten.StoredRoundTrip` says exactly when they do. They do not
  when an optional record is set over a null default (`transcription`) or a map gains an entry the default lacks
  (`llm_builtin_overrides`), because no row can create the object above a leaf; when a key of a map has a dot in it;
  when an optional value with a non-null default is cleared (`cli_mode`), because null rows are skipped; when a string
  over a null default is itself JSON text; and for `owner_id`, which is never stored. Inputs:
  `SettingsFlatten.ObjectOverNullIsLost`, `SettingsFlatten.DottedIsLost`.
- The loop's own comment says that the truncation count accumulates across all iterations; the code resets it at
  every executed batch. The model follows the code: `LoopHistory.ForcedExactlyThen` says exactly when text is forced,
  and `LoopHistory.TruncationsDoNotAccumulate` is a run of three truncated batches in which it is not.
- The order of the rows of a table matters when the key of one is a dotted prefix of another's
  (`SettingsDb.PrefixedRowsDependOnOrder`): from the defaults, a row for a map and a row for an entry of it give different
  settings in the two orders (`SettingsDb.OrderMatters`). Flattened settings have no such rows.
- The no-panics lexer departs from Rust in its line ends, string escapes and raw strings. It lexes the lines of
  `str.splitlines`, so a form feed ends a line comment and what follows is searched
  (`LexerVsRust.FormFeedEndsComment`). It carries a pending escape over the end of a line inside a string, so a quote
  that opens the next line does not close the string (`LexerVsRust.EscapeCrossesLines`). Its raw strings close only at
  exactly as many hashes as they opened with (`LexerVsRust.ExtraHashKeepsRawOpen`), while the gateway scanner and Rust
  take at least as many. With Rust's rules in these three places the lexer is in the same mode everywhere if and only if
  none of them is reached (`LexerVsRust.AgreesExactlyWhenHarmless`). The numbers of added lines come from git, which
  counts newlines; they are those of `splitlines` up to the first line break that is not a newline
  (`LineBreaks.NewlinesNumberLines`).
- The gateway scanner promises stable line numbers, and numbers lines by `str.splitlines`. A backslash before a newline
  in a char literal loses the newline (`Stripper.EscapedNewlineIsLost`), and a form feed in a comment is lost as a line
  break (`Stripper.FormFeedIsLost`). `Stripper.LineNumbersStable` says exactly when nothing is lost by stripping, and
  `Gateway.ReportedLinesAreRight` when every place is reported on its own line. A grouped import is numbered by newlines
  and quoted from the lines of `splitlines`; `Gateway.QuotedLineIsRight` says when that is its line.
- Blanking a test module that is never closed can change the brace balance (`Braces.UnclosedModuleLosesBalance`);
  with every module closed it cannot.
- Upserting a key twice is upserting it once on lines, but not on every file: `str::lines` takes one carriage return
  off each line on every pass, and the second line of a value is taken for a line of the file, so it is left over when
  the key is written again or removed (`EnvLaws.FileUpsertOverrides`, `EnvLaws.UpsertTwiceDiffers`,
  `EnvLaws.SecondLineStays`). Removing an absent key leaves the file as it is, while an upsert rewrites every line
  (`EnvLaws.FileRemoveAfterUpsert`, `EnvLaws.RemoveAfterUpsertDiffers`). A reader of the edited file sees the list that
  was meant exactly under the condition of `EnvReader.UpsertReads`; it does not when a line of another value looks like
  a line of the key (`EnvReader.LineOfAnotherIsTaken`).
- The batch upsert trims the keys it finds, the single one does not (`EnvBatch.BatchIsEach`,
  `EnvBatch.SpacedKeyDiffers`); on files the single ones also take off a carriage return each, and may take a line of an
  earlier value for that of a later key (`EnvManyLines.FileBatchIsEach`).
- The migration overwrites a secret that differs from the plaintext setting, even a newer one
  (`Migration.SecretSurvivesWhen`, `Migration.NewerSecretIsLost`), and stores a bare string without its quotes, so it
  does not parse back (`Migration.StoredParsesBack`).
- `ensure_conversation` takes the id from the caller. Naming an id that another user's conversation has tells that it is
  in use, and nothing else of other users ever shows (`Tenant.NonInterference`, `Tenant.EnsureShowsOthers`). Naming
  the id of a deleted conversation takes it over; an operation of the former owner whose check has passed then goes
  through on the new row (`Tenant.ReuseBreaksIsolation`, `Tenant.HandoverGoesThrough`), and without such a handover
  isolation holds (`Tenant.RunsAreIsolated`).

## Model

| member | source | states |
|---|---|---|
| `CodecWitness.LawfulCodecExists` | src/settings.rs:1100-1106 | The laws assumed of printing and parsing JSON values can be met together, for values of every kind. |
| `Json.ParseIntegerInverts` | src/settings.rs:1286-1296 | The decimal text of an integer is read by the `u64` and `i64` parsers exactly when it is in their range, and then as itself. |
| `Schema.TypedDecodes` | src/settings.rs:1325-1326 | Reading back what settings serialise to gives the same tree, for every schema. |
| `Schema.ScalarsRead` | src/settings.rs:1325-1326 | Each scalar type reads exactly the values of its kind and range, as they are; a float also reads an integer. |
| `Schema.OptionalsRead` | src/settings.rs:1325-1326 | An optional value is read as nothing from a null, and from anything else as the type below. |
| `Schema.ContainersRead` | src/settings.rs:1325-1326 | A list or map is read if and only if each of its values is, value by value. |
| `Schema.RecordsRead` | src/settings.rs:1325-1326 | A record is read if and only if every member there is read and every other has a default; unknown members are dropped, missing ones are their defaults. |
| `Schema.DecodeIsTyped` | src/settings.rs:1325-1326 | Whatever reading accepts is again a tree that settings serialise to. |
| `SettingsPath.SplitInvertsJoin` | src/settings.rs:1262-1264 | Splitting at dots undoes joining, for parts free of dots. |
| `SettingsPath.SplitIsDotless` | src/settings.rs:1262-1264 | The parts are free of dots and join to the path again. |
| `SettingsPath.DecodeReplaced` | src/settings.rs:1322-1326 | Re-reading a whole tree in which one member was replaced re-reads that member and leaves every other as it was. |
| `SettingsPath.SetIsPut` | src/settings.rs:1258-1329 | `set` serialises, navigates, infers, re-reads the whole tree and keeps the old one on an error; all that together changes at most the one place the path names. |
| `SettingsText.DigitsAreWorth` | src/settings.rs:1286-1296 | Exactly the non-empty texts of digits are read as integers, as the sum of the digits times powers of ten. |
| `SettingsText.SetMeans` | src/settings.rs:1258-1329 | For every tree, path and text: without a parent, or with one that is no object, an error; else what the text stands for by its characters is read at the place's type, is there afterwards, and nothing beside the path changes. |
| `SettingsText.OverBoolean` | src/settings.rs:1280-1285 | Over a boolean exactly `true` and `false` are taken, and the place then holds that boolean. |
| `SettingsText.OverInteger` | src/settings.rs:1286-1296 | Over an integer exactly an optional sign and digits in the range of parser and field are taken, a minus only over a negative one, and the place then holds their value. |
| `SettingsText.OverFloat` | src/settings.rs:1297-1304 | Over a float exactly the finite ones are taken; the others fail at the re-read. |
| `SettingsText.OverText` | src/settings.rs:1315 | Over a string every text is taken as it is, over a choice exactly the names. |
| `SettingsText.OverWhole` | src/settings.rs:1311-1314 | Over an array or object exactly the JSON texts that the field's type reads are taken. |
| `SettingsText.OverNothing` | src/settings.rs:1306-1319 | Over a null, or under a new key that the type knows, a text is JSON, and a string when it is no JSON. |
| `SettingsText.NeedsParent` | src/settings.rs:1266-1275 | Setting fails for want of a parent if and only if there is none, and for a parent that is no object if and only if it is none. |
| `SettingsPath.SetKeepsType` | src/settings.rs:1258-1329 | Whether `set` succeeds or fails, the settings stay well typed. |
| `SettingsPath.PutFrame` | src/settings.rs:1258-1329 | Everything at a path that is neither above nor below the one set reads as before. |
| `SettingsPath.PutCommutes` | src/settings.rs:1108-1121 | Setting two such paths gives the same tree in either order, including rejected and unknown ones. |
| `SettingsDb.ApplyIsPut` | src/settings.rs:1094-1121 | One row, skipped, rejected or applied, changes at most the place its key names. |
| `SettingsDb.ApplyCommutes` | src/settings.rs:1094-1121 | Two rows of a table in which no applied key is a dotted prefix of another can be applied in either order. |
| `SettingsDb.RebuildAnyOrder` | src/settings.rs:1092-1124 | Over such a table every iteration order of the map rebuilds the same settings. |
| `SettingsDb.PrefixedRowsDependOnOrder` | src/settings.rs:1092-1124 | When the key of one row is a dotted prefix of another's, the two orders give the same tree if and only if the path does not lead to the place, the upper row is refused there, or what it puts there already agrees with the lower one. |
| `SettingsDb.OrderMatters` | src/settings.rs:1092-1124 | A table that depends on the order: from any defaults with an empty map of whole numbers, a row for the map and a row for a number in it rebuild different settings in the two orders. |
| `SettingsRoundTrip.LeavesDoNotNest` | src/settings.rs:1356-1376 | No leaf of a tree lies above another leaf. |
| `SettingsRoundTrip.FlattenedIsPrefixFree` | src/settings.rs:1356-1376 | Flattening a tree with dot-free keys yields a table in which no key is a dotted prefix of another. |
| `SettingsRoundTrip.LeafComesBack` | src/settings.rs:1278-1320 | A leaf set from its text over the default comes back if and only if it is not null over another default, not JSON text over a null or missing default, and not an integer of the other sign kind. |
| `SettingsRoundTrip.MixStep` | src/settings.rs:1094-1122 | Loop invariant of rebuilding: with a set of leaves done the tree is the default overlaid with exactly those, and one more row adds exactly one more leaf. |
| `SettingsRoundTrip.RebuildIsMix` | src/settings.rs:1086-1125 | After all rows, in any order, the tree is the default overlaid with every stored leaf. |
| `SettingsRoundTrip.OptionalRecordIsTyped` | src/settings.rs:1325-1326 | An optional record may hold an object though its default is null. |
| `SettingsFlatten.StoredIsFlattened` | src/settings.rs:1356-1376 | With dot-free keys no two leaves share a row, and every row's key reads back as the path of its leaf. |
| `SettingsFlatten.RowsMissIt` | src/settings.rs:1262-1271 | No row of any leaf leads to the nearest key with a dot in it, nor to a place above it. |
| `SettingsFlatten.DottedIsLost` | src/settings.rs:1086-1140 | Settings with a dot inside a key never come back, in any order. |
| `SettingsFlatten.ObjectOverNullIsLost` | src/settings.rs:1268-1275 | An object where the default has none never comes back, in any order. |
| `SettingsFlatten.StoredRoundTrip` | src/settings.rs:1086-1140 | Rebuilding any settings from their table, in any order, gives them back if and only if no key has a dot in it and they have the default's keys, objects only where the default has one, leaves that come back, and the default owner. |
| `SettingsMerge.MergeNonDefault` | src/settings.rs:1417-1443 | The recursive loop over the members of `other` computes the three-way merge, for trees of any shape and any iteration order. |
| `SettingsMerge.DefaultsOnTop` | src/settings.rs:1417-1443 | Merging the default into any tree changes nothing. |
| `SettingsMerge.DefaultsBelow` | src/settings.rs:1417-1443 | Merging a tree into the default gives that tree if and only if it fills the default: every default key, an object wherever the default has one, no null under a new key. |
| `SettingsMerge.MergeIsIdempotent` | src/settings.rs:1417-1443 | Merging a tree into itself changes nothing. |
| `SettingsMerge.MergeIsAssociative` | src/settings.rs:1417-1443 | Layering is associative for any lowest tree, a middle one with objects wherever the default has them and an upper one that fills the default. |
| `SettingsMerge.CompleteIsShapedAndFills` | src/settings.rs:1417-1443 | The trees of the monoid are exactly those with the default's shape that fill it. |
| `SettingsMerge.MergedIsComplete` | src/settings.rs:1417-1443 | Merging stays within those trees. |
| `SettingsMerge.WizardRecovery` | src/settings.rs:1955-1960 | Merging the database into step 1 and step 1 on top again is merging step 1 straight onto the database. |
| `SettingsMerge.MergedAt` | src/settings.rs:1417-1443 | At every place where the default has no object below, the merge holds the upper value unless that is the default's, and else the lower one. |
| `SettingsMerge.WizardOutcomeAt` | src/settings.rs:1955-1983 | After the wizard's two merges a non-default step 1 value wins at every such place, and otherwise the database value survives. |
| `SettingsMerge.MergedIsTyped` | src/settings.rs:1229-1233 | Merging two well-typed trees gives a well-typed tree, so reading it back cannot fail. |
| `SettingsMerge.TypedIsComplete` | src/settings.rs:1216-1227 | Settings are trees of the monoid: every typed tree is complete over the defaults, when no default member is ever left out and maps are empty by default and hold no nulls. |
| `Settings.Settings.Default` | src/settings.rs:1092 | The default settings are valid. |
| `Settings.Settings.Set` | src/settings.rs:1258-1329 | The outcome is the one that the characters of the text and what the path holds call for (`SettingsText.SetMeans`); the new tree is the old one changed at the path's place only, and on an error it is the old one. |
| `Settings.Settings.Get` | src/settings.rs:1237-1253 | The shown value of exactly the place the path names, `None` when it is not there. |
| `Settings.ShownIsJson` | src/settings.rs:1246-1253 | What `get` shows is the JSON text of the value, but for strings, which are shown without quotes. |
| `Settings.Settings.MergeFrom` | src/settings.rs:1215-1234 | The tree becomes the three-way merge; the re-read never discards it. |
| `Settings.Settings.SetRow` | src/settings.rs:1095-1121 | One row of the rebuild loop. |
| `Settings.Settings.FromDbMap` | src/settings.rs:1086-1125 | The result is that of applying the rows in some order, and on a prefix-free table that of every order. |
| `Settings.Settings.ToDbMap` | src/settings.rs:1130-1140 | The table holds a row for every leaf but the owner, each row is a leaf under its key, and with dot-free keys these are exactly the dotted paths. |
| `Settings.Collect` | src/settings.rs:1356-1376 | The recursion adds every leaf and nothing else, and keeps what was there. |
| `Settings.SetShownIsNoChange` | src/settings.rs:1237-1329 | Writing what `get` shows of any path back to it with `set` changes nothing. |
| `Settings.StoreAndLoad` | src/settings.rs:1086-1140 | `from_db_map(to_db_map(s))` equals `s` if and only if the condition of the round trip holds, for all settings. |
| `Settings.RecoverWizard` | src/settings.rs:1955-1960 | On settings objects, the wizard's two merges give step 1 merged onto the database: at every place a non-default choice of step 1 wins, and else the database's value survives. |
| `AgenticLoop.DuplicateToolCallTracker.RecordWithFingerprint` | src/agent/agentic_loop.rs:186-200 | The count after a batch: one more, one, or none. |
| `AgenticLoop.ReasoningContext.Push` | src/agent/agentic_loop.rs:283-286 | The conversation is what was given plus what the log says was pushed. |
| `AgenticLoop.OnText` | src/agent/agentic_loop.rs:268-306 | A text is nudged under the five conditions, else resets the tracker and goes to the delegate. |
| `AgenticLoop.OnTruncated` | src/agent/agentic_loop.rs:314-336 | A truncated batch is counted and discarded with a notice; the third forces text. |
| `AgenticLoop.OnCalls` | src/agent/agentic_loop.rs:338-378 | A whole batch resets two counters, is executed, and is weighed by the tracker. |
| `AgenticLoop.Escalate` | src/agent/agentic_loop.rs:359-382 | Warning at 3, forced text with a warning at 5. |
| `AgenticLoop.Iterate` | src/agent/agentic_loop.rs:225-383 | One turn of the loop is one step of the state machine, for every answer of the delegate. |
| `AgenticLoop.RunAgenticLoop` | src/agent/agentic_loop.rs:213-386 | The loop refines the state machine: same ending, same history, same `force_text`, for every delegate; it reports that the iterations ran out if and only if they did. |
| `AgenticLoop.RunStays` | src/agent/agentic_loop.rs:213-386 | A run that ended takes no further step. |
| `LoopHistory.EndRunIsLongest` | src/agent/agentic_loop.rs:153-163 | The recursive count is the length of the longest ending run of failing batches with one fingerprint. |
| `LoopHistory.CountsAreHistory` | src/agent/agentic_loop.rs:186-206 | Counting event by event agrees with what the whole history says, for all three counters. |
| `LoopHistory.RunKeeps` | src/agent/agentic_loop.rs:225-383 | Induction principle: a property kept by every single event holds at the end of every run. |
| `LoopHistory.RunIsFaithful` | src/agent/agentic_loop.rs:213-386 | In every run each event is the one due after those before it, and counters and `force_text` are counted from the events. |
| `LoopHistory.CountersAreHistory` | src/agent/agentic_loop.rs:219-339 | At every point of every run the tracker's count is the longest ending run of duplicates since the last handled text, the truncation count is that since the last executed batch, and no more nudges than allowed lie between two resets. |
| `LoopHistory.DuplicatesEscalate` | src/agent/agentic_loop.rs:354-378 | After every executed batch: a warning if and only if the run it ends is 3 or more, forced text before it if and only if 5 or more. |
| `LoopHistory.WarningsOnlyAfterBatches` | src/agent/agentic_loop.rs:354-378 | A duplicate warning is pushed nowhere else. |
| `LoopHistory.ForcedExactlyThen` | src/agent/agentic_loop.rs:328-378 | The loop forces text if and only if such a run reaches 5 or the third truncated batch since the last executed one was discarded, however many texts lie between. |
| `LoopHistory.TruncationsDoNotAccumulate` | src/agent/agentic_loop.rs:220-222 | Two truncated batches, one executed and one truncated do not force text, contrary to the comment. |
| `LoopProtocol.RunIsDetermined` | src/agent/agentic_loop.rs:213-386 | Every event of every run is the one that the history before it and the delegate's answer call for, text is forced exactly when the history says so, and a run ends only where its history calls for nothing, in the way the history tells. |
| `LoopProtocol.OneHistory` | src/agent/agentic_loop.rs:213-386 | There is one such history of each length. |
| `LoopProtocol.TextIsNudgedExactlyWhen` | src/agent/agentic_loop.rs:268-306 | In every run, a text is nudged next if and only if nudging is on, there are tools, the text has intent, text is not forced by then, and fewer nudges than the limit lie since the last reset; else it is handed to the delegate. |
| `LoopProtocol.BatchIsDiscardedExactlyWhen` | src/agent/agentic_loop.rs:311-352 | A batch is discarded next if and only if its reply was cut off, else executed. |
| `LoopProtocol.EndsExactlyWhen` | src/agent/agentic_loop.rs:225-386 | Each of the six endings comes of exactly one kind of answer, and of every other answer the run goes on. |
| `AgenticLoop.MessagesArePushed` | src/agent/agentic_loop.rs:283-372 | The messages are those pushed, in order. |
| `LoopHistory.CallsInOrder` | src/agent/agentic_loop.rs:225-385 | At most one LLM call an iteration, `after_iteration` sees 1, 2, ... with none left out, and at most three messages are pushed an iteration. |
| `LoopBatches.CountIsOfEqualBatches` | src/agent/agentic_loop.rs:153-200 | When different hashed streams of a run have different hashes, the tracker's count is the length of the longest ending run of failing batches that are the same calls up to the order of argument keys. |
| `LoopBatches.EqualBatchesEscalate` | src/agent/agentic_loop.rs:341-378 | And every executed batch escalates by that length. |
| `LoopHistory.TruncatedNeverExecuted` | src/agent/agentic_loop.rs:311-352 | A batch whose finish reason is `Length` is never executed, and only such a one is discarded. |
| `LoopHistory.ForcedTextSticks` | src/agent/agentic_loop.rs:273-367 | The loop itself never clears `force_text`; once forced, nothing is nudged. |
| `LoopHistory.RunIsWithin` | src/agent/agentic_loop.rs:219-225 | No counter exceeds the number of iterations, so none overflows in a run of fewer than 2^32. |
| `CanonicalJson.CanonicalCharacterisesSame` | src/util.rs:87-108 | Two trees have equal canonical forms if and only if they differ by the order of object keys only, at any depth. |
| `CanonicalJson.CanonicalIsSame` | src/util.rs:90-108 | The canonical form differs from the tree by the order of keys only, and no key is lost or doubled. |
| `CanonicalJson.CanonicalIsIdempotent` | src/util.rs:90-108 | Canonicalising twice is canonicalising once. |
| `CanonicalJson.CanonicalMembersSort` | src/util.rs:95-104 | The members come out sorted, the same keys with canonical values. |
| `CanonicalJson.SortedIsUnique` | src/util.rs:95-97 | There is one sorted arrangement of given members. |
| `CanonicalJson.Fingerprint` | src/agent/agentic_loop.rs:174-182 | The loop feeds the hasher name and canonical arguments of every call in order. |
| `CanonicalJson.FedCharacterisesBatch` | src/agent/agentic_loop.rs:174-182 | Two batches feed the hasher the same if and only if they are the same calls up to the order of argument keys. |
| `Lexer.NextIsLocal` | scripts/check_no_panics.py:57-149 | What the lexer does at a character never depends on a later line. |
| `Lexer.MaskByLine` | scripts/check_no_panics.py:151-154 | Over a line's end the one-pass automaton splits: what it does after depends only on the mode the line leaves, with line comments and char literals closed. |
| `Lexer.LexerState.ScanCode` | scripts/check_no_panics.py:107-149 | The branch in code is one action of the automaton. |
| `Lexer.LexerState.ScanInside` | scripts/check_no_panics.py:61-105 | The branches inside comments and literals are one action of the automaton and keep nothing. |
| `Lexer.LexerState.Turn` | scripts/check_no_panics.py:57-149 | Each turn of the loop moves the index strictly forward, and the output so far is the mask of what was read. |
| `Lexer.LexerState.SanitizeLine` | scripts/check_no_panics.py:52-156 | The in-place scan with the carried state yields the automaton's mask of the line and leaves its mode. |
| `Lexer.SanitizeLines` | scripts/check_no_panics.py:169-177 | Over all lines, with the state carried. |
| `Lexer.LinesAreOnePass` | scripts/check_no_panics.py:52-156 | Line by line with carried state is the same mask as one pass over the lines joined by newlines. |
| `Lexer.FileIsOnePass` | scripts/check_no_panics.py:266-268 | For every file, whatever characters end its lines, the lines sanitized one by one are the lines of one pass over the file. |
| `Lexer.SanitizeFile` | scripts/check_no_panics.py:266-268 | Splitting a file into lines and sanitizing them yields that. |
| `LexerTexts.CodeStays` | scripts/check_no_panics.py:107-149 | Where no comment and no literal opens, code is its own mask, and the rest is masked from code. |
| `LexerTexts.PlainIsKept` | scripts/check_no_panics.py:107-149 | A text without quotes, apostrophes and slashes is its own mask. |
| `LexerTexts.LineCommentIsBlank` | scripts/check_no_panics.py:107-108 | A line comment is blank to the end of its line and no further. |
| `LexerTexts.BlockCommentIsBlank` | scripts/check_no_panics.py:61-71 | A block comment is blank to the end that closes it, nested ones counted, and the rest is masked from code; one that nothing closes is blank to the end. |
| `LexerTexts.StringIsBlank` | scripts/check_no_panics.py:87-95 | A string is blank to the first quote that an even number of backslashes precedes, and the rest is masked from code. |
| `LexerTexts.OpenStringIsBlank` | scripts/check_no_panics.py:87-95 | Without such a quote it is blank to the end of the text. |
| `LexerTexts.RawStringIsBlank` | scripts/check_no_panics.py:73-85 | A raw string is blank to the first quote followed by exactly the hashes it opened with, and the rest is masked from code. |
| `LexerTexts.CharIsBlank` | scripts/check_no_panics.py:97-105 | A char literal is blank to its closing apostrophe, and the rest is masked from code. |
| `LexerTexts.CharEndsWithLine` | scripts/check_no_panics.py:151-154 | One that is not closed is blank to the end of its line only. |
| `LexerTexts.LifetimeGoesOn` | scripts/check_no_panics.py:131-142 | After a lifetime's apostrophe the text goes on in code. |
| `LineBreaks.SeparatorsByCode` | scripts/check_no_panics.py:266 | Lines end at exactly the ten characters of `splitlines`. |
| `LineBreaks.UniversalKeepsLines` | scripts/check_no_panics.py:266 | Reading with universal newlines changes no line. |
| `LineBreaks.NewlinesNumberLines` | scripts/check_no_panics.py:266-271 | A place's number by newlines is its number by `splitlines` if and only if every line break before it is a newline. |
| `Lexer.MaskKeepsCodeOnly` | scripts/check_no_panics.py:52-156 | Each character of the mask is the input's or a space, and one that stays is reached in code mode. |
| `LexerVsRust.AgreesExactlyWhenHarmless` | scripts/check_no_panics.py:52-154 | With Rust's rules for line ends, for an escape at a line's end and for a raw string's closing hashes, the lexer reaches every character in the same mode if and only if no line's end is reached with an escape pending in a string, none but Rust's in a line comment or char literal, and no quote in a raw string is followed by more hashes than opened it. |
| `LexerVsRust.HarmlessMasksAgree` | scripts/check_no_panics.py:52-154 | And then the mask is the same. |
| `LexerVsRust.FormFeedEndsComment` | scripts/check_no_panics.py:266 | A line comment with a form feed in it: the scanner reads code after it, Rust a comment, and the masks differ. |
| `LexerVsRust.EscapeCrossesLines` | scripts/check_no_panics.py:87-95 | A file with a string, a backslash at its line's end and a quote opening the next: the string stays open, in Rust it closes. |
| `LexerVsRust.ExtraHashKeepsRawOpen` | scripts/check_no_panics.py:73-85 | A file with a raw string opened with one hash and a quote with two: it stays open, in Rust it closes. |
| `TestContexts.LineTestContexts` | scripts/check_no_panics.py:169-206 | The loop with its stack and pending flags gives each line the context of the state after the lines before it. |
| `TestBlocks.ContextIsTold` | scripts/check_no_panics.py:159-208 | A line is in test context if and only if it starts inside a test block, or an item that is test code waits for its brace; an item is test code if and only if it is a `tests` module, a test attribute stands before it with only attributes and blank lines between, or its line starts inside a test block; a block is one if and only if the item waiting for its brace is test code, or none waits and it lies in one. |
| `TestBlocks.BracesAreOpen` | scripts/check_no_panics.py:193-201 | The blocks that are open at a place are the braces since which the depth has stayed above theirs. |
| `TestContexts.StackIsShaped` | scripts/check_no_panics.py:193-201 | The block stack is always a run of non-test blocks followed by a run of test blocks. |
| `TestContexts.StackIsDepth` | scripts/check_no_panics.py:193-201 | Its height is the running brace depth, clipped at zero. |
| `TestContexts.TestContextIsInherited` | scripts/check_no_panics.py:179-201 | Every line that starts before an open test block closes is in test context, whatever lies between. |
| `TestContexts.OpenedInsideIsTest` | scripts/check_no_panics.py:193-199 | A block opened while the innermost block is test code is test code. |
| `Texts.ReplaceConcat` | src/bootstrap.rs:202 | Replacing a character works piece by piece. |
| `EnvFile.EscapeIsCharwise` | src/bootstrap.rs:202 | The two chained replacements are one substitution, character by character. |
| `EnvFile.EscapeIsInjective` | src/bootstrap.rs:202 | Different values have different escapes. |
| `EnvFile.SaveBootstrapEnv` | src/bootstrap.rs:194-208 | The loop writes one quoted assignment for each variable, in order. |
| `EnvFile.PrintedReadsBack` | src/bootstrap.rs:190-208 | A text reads as a list of variables, by a reader that undoes the two escapes inside quotes, if and only if it is the text written for them and no key holds an equals sign, whatever the values hold. |
| `EnvEdit.UpsertVar` | src/bootstrap.rs:317-342 | The loop with its flag replaces the first line of the key, drops the others, appends if there was none. |
| `EnvEdit.RemoveVar` | src/bootstrap.rs:276-292 | The file without the key's lines, or the very same file if there was none. |
| `EnvEdit.LinesOfText` | src/bootstrap.rs:325 | Each newline ends a line and takes one carriage return before it along; what comes after the last one is a line as it is, unless it is empty. |
| `EnvEdit.LinesOfWritten` | src/bootstrap.rs:325-337 | Reading back what was written gives the lines that the written lines hold, less one carriage return each. |
| `EnvEdit.AroundUpsert` | src/bootstrap.rs:325-342 | What an upsert keeps before and after the new line does not depend on the value, and is the file without the key. |
| `EnvEdit.UpsertedHolds` | src/bootstrap.rs:308-347 | After an upsert the key has exactly one line, the new one, and every other line is kept in order. |
| `EnvEdit.UpsertedInPlace` | src/bootstrap.rs:325-342 | The new line stands where the key's first line stood, or at the end. |
| `EnvEdit.LaterUpsertOverrides` | src/bootstrap.rs:308-347 | On lines, a later upsert of a key overrides an earlier one; twice the same is once. |
| `EnvLaws.FileUpsertOverrides` | src/bootstrap.rs:308-347 | On files, for all keys and values, it does if and only if the key is one line, every line of the earlier assignment assigns it, and no other line ends in a further carriage return. |
| `EnvLaws.OneLineIsAllOfKey` | src/bootstrap.rs:317-319 | With a key and a value of one line the assignment meets that condition. |
| `EnvLaws.TidyIsRewritten` | src/bootstrap.rs:325-337 | Rewriting a file line by line gives the same file if and only if it ends in a newline and no line ends in a carriage return. |
| `EnvLaws.FileRemoveAfterUpsert` | src/bootstrap.rs:269-347 | For all keys and values, removing a key after upserting it is removing it from the original if and only if the key is one line, every line of the assignment assigns it, and, when the key had a line, no other line ends in a further carriage return, and, when it had none, the file ends in a newline and no line of it in a carriage return. |
| `EnvLaws.UpsertTwiceDiffers` | src/bootstrap.rs:325-337 | A file with a line that ends in two carriage returns, on which upserting twice differs from once. |
| `EnvLaws.RemoveAfterUpsertDiffers` | src/bootstrap.rs:288-290 | A file without a final newline, on which removing after an upsert differs from removing. |
| `EnvLaws.SecondLineStays` | src/bootstrap.rs:317-342 | A value of two lines, for which upserting twice differs from once and removing after an upsert from removing, on every file. |
| `EnvBatch.UpsertVars` | src/bootstrap.rs:228-255 | The batch loops keep every line of another key and append the new ones. |
| `EnvBatch.BatchKeepsTheRest` | src/bootstrap.rs:237-249 | The batch keeps every line that assigns nothing, comments and empty ones included, in order. |
| `EnvBatch.EachHolds` | src/bootstrap.rs:308-347 | After single upserts of distinct keys each key has its own new line and every other key its old lines. |
| `EnvBatch.BatchIsEach` | src/bootstrap.rs:220-260 | On lines, the batch gives every key the same lines as single upserts one after the other if and only if trimming a key found there does not change whether it is one being written. |
| `EnvBatch.SpacedKeyDiffers` | src/bootstrap.rs:239-243 | A line with a space before the equals sign, on which they differ. |
| `EnvManyLines.FileBatchIsEach` | src/bootstrap.rs:220-347 | On files and for all values, they give every key the same lines, counted, if and only if, further, each line of a key not written and each line of a value that looks like one loses as many carriage returns read once as read in every file it is in, and no line of a value looks like one of a variable written later. |
| `EnvReader.UpsertReads` | src/bootstrap.rs:308-347 | After an upsert of a file written as a list of variables, the reader sees the list with the variable replaced or added if and only if no key holds an equals sign, every line of the old values of the key assigns it, and no line of the others assigns it or ends in a carriage return. |
| `EnvReader.RemoveReads` | src/bootstrap.rs:269-295 | After a removal, it sees the list without the key under the same condition when some line assigns the key; when none does, if and only if there was no such variable. |
| `EnvReader.LineOfAnotherIsTaken` | src/bootstrap.rs:325-337 | A value with a second line that looks like a line of the key: the reader does not see the two variables. |
| `Stripper.Scan.Turn` | scripts/check_gateway_boundaries.py:147-280 | One turn of the loop over its seven mode variables is one action of an automaton, in every branch. |
| `Stripper.StripCommentsAndStrings` | scripts/check_gateway_boundaries.py:130-282 | The index loop is one pass of that automaton, and the length is kept. |
| `Stripper.NewlinesStay` | scripts/check_gateway_boundaries.py:130-282 | A newline stays if and only if it is not the escaped character of a char literal, and nothing else becomes one. |
| `Stripper.CodeStays` | scripts/check_gateway_boundaries.py:130-282 | Each character is the input's or a space; beyond newlines and tabs only code stays. |
| `StripperTexts.CodeIsKept` | scripts/check_gateway_boundaries.py:228-279 | Where no comment and no literal opens, code is left as it is, and the rest is stripped from code. |
| `StripperTexts.PlainIsKept` | scripts/check_gateway_boundaries.py:228-279 | A file without quotes, apostrophes and slashes is left as it is. |
| `StripperTexts.LineCommentIsBlank` | scripts/check_gateway_boundaries.py:151-158 | A line comment is blank, but for tabs, up to its newline. |
| `StripperTexts.BlockCommentIsBlank` | scripts/check_gateway_boundaries.py:160-173 | A block comment is blank, but for newlines and tabs, to the end that closes it, nested ones counted. |
| `StripperTexts.StringIsBlank` | scripts/check_gateway_boundaries.py:188-206 | A string is blank to the first quote that an even number of backslashes precedes. |
| `StripperTexts.RawStringIsBlank` | scripts/check_gateway_boundaries.py:175-186 | A raw string is blank to the first quote followed by at least the hashes it opened with, and what comes after that many is stripped from code. |
| `StripperTexts.CharIsBlank` | scripts/check_gateway_boundaries.py:208-277 | A char literal, of which an apostrophe comes within five characters, is blank to the first one not escaped; of an escaped character nothing is left, not even a newline. |
| `Stripper.LineNumbersStable` | scripts/check_gateway_boundaries.py:131-135 | By the line breaks of `str.splitlines`, none is gained, and as many are left if and only if each is in code, or a newline that is not the escaped character of a char literal. |
| `Stripper.EscapedNewlineIsLost` | scripts/check_gateway_boundaries.py:208-213 | A file that loses a newline so. |
| `Stripper.FormFeedIsLost` | scripts/check_gateway_boundaries.py:151-158 | A file that loses a form feed in a comment. |
| `LineBreaks.SameLineNumbers` | scripts/check_gateway_boundaries.py:337-349 | Between texts of one length, one with no line break that the other has not, every position is on the same line if and only if no line break is lost. |
| `Braces.WalkToClose` | scripts/check_gateway_boundaries.py:374-383 | The depth loop stops where the specification of the walk does. |
| `Braces.GroupBody` | scripts/check_gateway_boundaries.py:374-385 | The body is the slice between the header's brace and the end found. |
| `Braces.BodyIsUpToTheClose` | scripts/check_gateway_boundaries.py:374-385 | The body ends at the first place that balances the opening brace, or at the end of the text; so a position lies in it if and only if the group is still open there, at any nesting depth. |
| `Braces.ModuleIsUpToTheClose` | scripts/check_gateway_boundaries.py:317-330 | A closed module is blanked up to its closing brace and the scan goes on behind it; one never closed is blanked up to the last character of the text. |
| `Braces.BlankTestModules` | scripts/check_gateway_boundaries.py:301-331 | The in-place blanking loop over the headers computes the recursive blanking. |
| `Braces.BlankingKeeps` | scripts/check_gateway_boundaries.py:301-331 | A character changes only inside a module that is not itself inside an earlier one; newlines and tabs never do; no brace is left inside. |
| `Braces.EveryModuleIsBlanked` | scripts/check_gateway_boundaries.py:305-331 | For headers in the order of a file, what is blanked is exactly what lies inside any module: those passed over lie inside one that is not. |
| `Braces.BlankingKeepsLines` | scripts/check_gateway_boundaries.py:327-329 | Blanking loses no line break if and only if those inside the modules are newlines. |
| `Gateway.Sanitize` | scripts/check_gateway_boundaries.py:336 | The two passes, one after the other. |
| `Gateway.ReportedLinesAreRight` | scripts/check_gateway_boundaries.py:334-363 | Every place is reported on the line it is on if and only if every line break of the file is in code outside the test modules, or a newline that is not the escaped character of a char literal. |
| `Gateway.QuotedLineIsRight` | scripts/check_gateway_boundaries.py:386-391 | A grouped import is quoted with its own line if and only if every line break before it is a newline that is not the escaped character of a char literal. |
| `Braces.BlankingIsIdempotent` | scripts/check_gateway_boundaries.py:301-331 | Blanking again at the same headers changes nothing. |
| `Braces.BlankingKeepsBalance` | scripts/check_gateway_boundaries.py:301-331 | Blanking keeps the brace balance if and only if every body blanked is balanced. |
| `Braces.ClosedModulesAreBalanced` | scripts/check_gateway_boundaries.py:317-330 | That is so whenever every module is closed. |
| `Braces.UnclosedModuleLosesBalance` | scripts/check_gateway_boundaries.py:324-327 | It fails for a module never closed. |
| `Utf8.BoundaryByByte` | src/util.rs:16-18 | In well-formed text a position is a boundary if and only if the byte there is not a continuation byte. |
| `Utf8.FloorIsNear` | src/util.rs:6-20 | The greatest boundary at or before a position is at most three bytes back. |
| `Utf8.FloorIsUnique` | src/tracing_fmt.rs:107-111 | There is one greatest boundary at or before a position, so the two floor functions give the same. |
| `Utf8.Utf8Floor` | src/tracing_fmt.rs:107-120 | On well-formed input the bit test finds the greatest boundary at or before the position. |
| `Utf8.FloorCharBoundary` | src/util.rs:6-20 | The same boundary, for every position. |
| `Utf8.EventBuffer.Write` | src/tracing_fmt.rs:97-100 | Writes accumulate. |
| `Utf8.EventBuffer.Drop` | src/tracing_fmt.rs:122-165 | A short event is emitted whole, a long one as a prefix of at most `max_bytes` cut at a boundary with a suffix that tells the size; well-formed input gives well-formed output. |
| `Utf8.CutIsWellFormed` | src/tracing_fmt.rs:131-143 | Cutting at a boundary, dropping a final newline and adding the suffix keep the text well formed. |
| `Utf8.TruncateForPreview` | src/agent/agentic_loop.rs:388-399 | The preview is well formed and loses at most three bytes beyond the budget. |
| `Attachments.EscapesAreCharwise` | src/agent/attachments.rs:56-69 | Each chain of replacements is one substitution, character by character. |
| `Attachments.EscapesAreUndone` | src/agent/attachments.rs:56-69 | Each escape is undone by a reader of the four entities, and leaves no character that ends an attribute or a body. |
| `Attachments.AugmentWithAttachments` | src/agent/attachments.rs:22-54 | The loop appends the numbered attachments in order and collects the image parts; `None` if and only if there are none. |
| `Attachments.AttachmentReadsBack` | src/agent/attachments.rs:71-180 | A reader recovers index, kind, filename or "unknown", mime, path, duration, size and body from one attachment, whatever its fields hold. |
| `Attachments.BlockReadsBack` | src/agent/attachments.rs:30-54 | And the number and order of all attachments from the whole block. |
| `AttachmentText.RestIsMarked` | src/agent/attachments.rs:71-180 | No text in the block opens another: its brackets are those of the templates' own tags. |
| `AttachmentText.AugmentedReadsBack` | src/agent/attachments.rs:16-54 | From the whole text a reader recovers the content and all attachments, whatever the content holds, a block of its own included. |
| `Attachments.EachIsTold` | src/agent/attachments.rs:71-190 | Of every attachment the reader learns its number, kind, filename, mime, path, duration and size, an extracted text whole, and else the sentence that fits what is there. |
| `Attachments.PartsAreOfImages` | src/agent/attachments.rs:35-52 | The image parts are those of the images whose bytes are there, in order and one each. |
| `Attachments.WordingIsPlain` | src/agent/attachments.rs:120-147 | The fixed sentences of the code hold nothing that needs escaping. |
| `Migration.Stores.MigrateSessionCredential` | src/app.rs:1414-1494 | With its early returns, one startup is one step of the two stores, for every fate of each of its six calls. |
| `Migration.TokenIsKept` | src/app.rs:1405-1494 | Over any number of startups, with any call failing and the process stopping anywhere, the token is in the setting or stored under the secret's name. |
| `Migration.MigratedIsStable` | src/app.rs:1410-1413 | Once the setting is gone no startup changes anything. |
| `Migration.FaultlessStartupFinishes` | src/app.rs:1405-1494 | A startup in which every call works removes the setting if and only if the secret is readable or absent, and later startups change nothing. |
| `Migration.StoredParsesBack` | src/app.rs:1476-1480 | The stored text parses back to the token if and only if the token is not a bare string. |
| `Migration.TokenIsReadable` | src/app.rs:1405-1494 | A token that is not a bare string can be read as JSON from one of the two places after any startups. |
| `Migration.SecretSurvivesWhen` | src/app.rs:1422-1488 | For every fate of the calls, exactly when a secret that is there beforehand is not overwritten. |
| `Migration.SettingGoesWhen` | src/app.rs:1422-1488 | For every fate of the calls, the setting goes exactly when the secret is it already and cleaning up takes effect, or it was stored, the store reported success and deleting takes effect. |
| `Migration.SecretSurvivesRuns` | src/app.rs:1422-1488 | Over any startups, a secret is lost only at one that overwrites it. |
| `Migration.NewerSecretIsLost` | src/app.rs:1433-1438 | A newer token in the secrets store gives way to the older one left in the settings. |
| `Tenant.Database.Get` | src/tenant.rs:118-123 | Fetching by id: the row if the user owns it, the same answer for another's row as for a missing one. |
| `Tenant.Database.ListOwned` | src/tenant.rs:105-109 | Listing shows the user's own rows. |
| `Tenant.Database.Add` | src/tenant.rs:503-512 | Creating a row under an id that the database draws. |
| `Tenant.Database.EnsureConversation` | src/history/store.rs:1764-1790 | The row is made, or refreshed for the same owner and channel, and the answer tells whether either was done. |
| `Tenant.Database.VerifyOwnership` | src/tenant.rs:125-151 | The first half of an operation: go on, `None` or `NotFound`. |
| `Tenant.Database.Perform` | src/tenant.rs:149-151 | The second half, on the database as it is by then. |
| `TenantService.RunHolds` | src/tenant.rs:105-543 | After every run the rows and open operations are those of the history: a row made under a free id, written since, gone when deleted; an operation whose check passed and that was not called since. |
| `TenantService.EveryStepIsAnswered` | src/tenant.rs:105-543 | Every step of every run is answered by that history, found or refused, and nobody else is told anything. |
| `TenantService.RowLives` | src/tenant.rs:370-385 | A row is there from its making until it is deleted, with its owner, its channel and what was last written. |
| `TenantService.OwnerIsServed` | src/tenant.rs:105-151 | As long, every fetch by its owner shows it, every listing of its table has it, and every check passes; every other user is refused in the words for a row that is not there. |
| `TenantService.OwnCallTakesEffect` | src/tenant.rs:136-152 | And what its owner calls on it after the check takes effect on the row as it is by then. |
| `Tenant.StepIsSound` | src/tenant.rs:118-152 | Every step, of any user or the system, keeps every passed check valid if and only if it does not make a row under an id for which another user has an operation open. |
| `Tenant.RunsAreIsolated` | src/tenant.rs:118-250 | In every interleaving without such a handover, every row a user is shown is that user's. |
| `Tenant.OthersRowsUnchanged` | src/tenant.rs:136-234 | And a user's step leaves every other user's rows as they are. |
| `Tenant.HandoverGoesThrough` | src/tenant.rs:454-459 | After a handover the open operation shows, overwrites or deletes the new owner's row. |
| `Tenant.OthersStepIsInvisible` | src/tenant.rs:431-543 | Another user's step leaves a user's rows, open operations and answers as they are. |
| `Tenant.OwnStepIsTheSame` | src/tenant.rs:370-543 | A user's own step gives the same outcome in any two states that agree on that user, one of them with nobody else in it, unless it claims an id that another user's row has. |
| `Tenant.CollisionShows` | src/tenant.rs:370-385 | And if it does, the answers differ. |
| `Tenant.NonInterference` | src/tenant.rs:118-543 | In every interleaving without a handover, what a user holds and is told is what it would be had no other user taken a step, if and only if the user never claims an id that another user's row has at the time. |
| `Tenant.EnsureShowsOthers` | src/tenant.rs:370-385 | A run in which it is not: a user names the id of another's conversation. |
| `Tenant.ReuseBreaksIsolation` | src/history/store.rs:1773-1787 | A run with a handover: a check passes, the rows of the owner are deleted, another user names the id, and the call shows the new row. |

## Left out

- AgenticLoop.RunAgenticLoop: the counters are unbounded integers; the source's are `u32`, the same in runs of fewer
  than 2^32 iterations (`LoopHistory.RunIsWithin`). The delegate is an arbitrary script of answers and leaves the
  loop's own variables and messages alone; the answers of the LLM, logging and the async runtime are part of it.
  What a delegate writes to `force_text` in an iteration that it ends before the LLM is called is not modelled.
- CanonicalJson.FedCharacterisesBatch: the hasher is any function of what it is fed, so equal hashes of different
  batches are possible, as in the source; printing a canonical tree is taken to be injective. In this build the maps
  of serde_json keep their keys sorted; objects are modelled here as lists of members, for which sorting matters.
- Settings.Settings.Set: serde's other input forms (structs from arrays, enums from objects, the aliases
  `setup_completed` and `personal_onboarding_completed`) are not accepted by the model; navigating with a mutable
  cursor is a recursion on the path. The message of an error is not modelled, only its kind.
- Settings.Settings.ToDbMap: when two leaves share a row because of a dot in a key, which of them it holds is not stated.
  The settings are a struct without a nameless field and with dot-free keys in the defaults.
- Floating settings are rational numbers; rounding, also to `f32`, is not modelled.
- Lexer.LexerState.SanitizeLine: Python's `isalpha` and `isalnum` are parameters of which only is assumed that no
  character that ends a line, and no apostrophe, is either.
- TestContexts.LineTestContexts: the regular expressions for items and test attributes are flags of each line.
- Braces.BlankTestModules: the positions of module headers are inputs, any list of them; the regular expression that
  finds them is not part of this model.
- EnvFile.PrintedReadsBack: dotenvy's parser is not part of this model; the reader is a minimal one of double-quoted
  values that knows the two escapes the printer writes, without variable substitution.
- EnvManyLines.FileBatchIsEach: the lines of a key are compared as a multiset, since single upserts leave them at other
  places than the batch does; for values of one line their order is the same too (`EnvBatch.OneLineFileBatchIsEach`).
- Attachments.BlockReadsBack: base64 and the megabyte rounding are parameters.
- Migration.Stores.MigrateSessionCredential: a store call works, fails, fails late or ends the process; concurrent
  startups are not modelled.
- LexerVsRust.AgreesExactlyWhenHarmless: Rust's lexer is modelled as this one with Rust's three rules, not from the
  reference; other differences, such as byte strings or where a lifetime ends, are not part of this model.
- Tenant.NonInterference: conversations, jobs, sandbox jobs and routines are rows with one text; how a database call
  changes the text is its argument, and paging and ordering of lists are not modelled.
- `Settings::reset`, `secrets_master_key_hex` and the TOML and file layers of the settings.
- `record_llm_call` and `create_routine` of the tenant scope, its settings operations, its get-or-create
  conversations, the time stamps that `ensure_conversation` refreshes, and the whole of the system scope beyond
  arbitrary writes and deletes.
- Reading and writing files, their permissions, and standard error.
- The allowlist and the per-line patterns of the gateway scanner, and the choice of files of both scanners.
