# Verified models of the ratchet, archive, lab and scanner cores

This project models five self-contained cores of the repository in Dafny 4.11 and proves what
they are for. `dafny verify dfyconfig.toml` checks all of it.

- **Ratchet baseline** (`Baseline*.dfy`, `RatchetGate.dfy`, `Json.dfy`). A directory is the map
  from file name to text, so files left by earlier writes are visible. The JSON lines and the
  indented manifest are concrete text with Go's escapes, and reading takes any white space,
  escape, member order and case-folded key. `BaselineDirectory.Directory` holds the loader and
  the writer as methods over that map; `BaselineLines`, `BaselineLoad` and `BaselineWrite` say
  what they mean. The theorems: the store round trip from any prior directory, exactly which
  stores are accepted, when the written form is canonical, and the gate from one scan to the next.
- **`ar` archives** (`ArFraming.dfy`, `ArArchive.dfy`). Bytes, a cursor, fixed-width fields, and
  Python's `int()` with signs, blanks and underscores. The accepted language is stated as a
  sequence of framed entries; framing is proved for any header layout, the round trip for the
  real one.
- **Idle-staircase lab** (`Lab*.dfy`). `LabRun.Lab` is one run: the sampling loop over any clock,
  any child and any /proc, with the timeline and the memory samples it appends as text. The
  manifest, the analyzer with the verdict file it writes, and the independent verifier with the
  patterns it searches by are text to text as well. `LabArtifact` puts the files together and says
  when the artifact of a run is accepted; the other theorems say how far the three components agree.
- **Line scanners** (`Stripper.dfy`, `WorkflowLines.dfy`, `WorkflowJobs.dfy`, `Checkpoints.dfy`).
  One-pass state machines against declarative specifications.
- **Coverage paths** (`KcovPaths.dfy`). Last-occurrence search and fall-through cases.

`Text`, `Sequences`, `Sorting` and `Dicts` hold strings, sequences, Go's sorts and Python's dicts.

Several results hold over parameters instead of one fixed table, which is how they are proved and
is also more than the programs need: the baseline store for any encoding of shards and manifests
that reads back, `Checkpoints` for any start pattern that only matches headings of level 1 to 3,
`KcovPaths` for any list of forbidden patterns, `ArFraming` for any header reader, `LabAnalyzer`
for any wording of the reasons. The programs' own are `BaselineLines.JSON_STORE`,
`Checkpoints.IsCheckpointStart`, `KcovPaths.FORBIDDEN`, `ArArchive.ReadHeader` and
`LabAnalyzer.SourceWording`; `BaselineLines.JsonStoreGood`, `Checkpoints.CheckpointsAreHeadings`,
`ArArchive.HeaderRoundTrip` and `LabVerdictFile.SourceWordingQuiet` show that they qualify.

Where code and documentation differ the code is followed:

- `Write` does not break ties on the finding id, so the documented deterministic baseline depends
  on the input order on the first write. `BaselineCanonical.WrittenSameIff` says exactly which
  inputs are written alike, `FirstWriteCanonicalIff` which as the loaded list would be, and
  `FirstWriteExample` is a pair for which the order shows.
- The analyzer says shell-side synthetic events cannot produce a confirmed leak but never uses the
  test it makes; only the verifier does (`LabVerdictFile.AnalyzerIgnoresMarker`), so no artifact of
  a run is ever accepted as one (`LabArtifact.RunNeverConfirmed`).
- The analyzer writes bounded verdicts that the verifier refuses. `LabVerifier.RefusedBounded`
  gives exactly the sample series, `RefusedBoundedExample` one of them.
- The verifier demands that an inconclusive staircase without an owner explain itself, but its
  owner pattern runs on over an empty owner to the label `reason:` on the next line, so the demand
  is never made of a file the analyzer wrote (`LabVerdictFile.ExplanationNeverAsked`).
  `DemandWouldRefuse` says exactly which of its files the demand would refuse, `DemandNotMade` is
  one of them.
- The analyzer can name `health` or `status` as owner; the verifier knows events of neither.
  `LabVerdictFile.AnalysisFileIff` carries that condition, `UnknownOwner` is such a leak and its
  refusal.
- The stripper's test-block tracking ends a block at a line that is a lone closing brace.
  `Stripper.EndLineExact` is the exact rule, `EndsWhereBalanced` when it is the balancing brace,
  `NestedBlockLeaks` an input where it is not. The last clause of its end test never decides
  (`Stripper.TestLineEnds`).
- The idle loop keeps no record of the last BGP and BFD events. `LabCadence.BgpBfdExactly` says what
  is logged, `OncePerSecondIff` when no second has two of either, `OncePerSecond` that an interval of
  a second is enough, and `SameSecondRepeats` is a clock with interval 0 for which BGP repeats and
  ticks do not.
- The path normaliser's guard against parent directories looks for `/../` behind the marker only.
  `KcovPaths.ResultClimbs` says exactly which results still have a `..` component: behind a marker
  those that begin with `../`, and in the relative forms, which have no guard, all whose path has
  one. `ClimbingAccepted` is an accepted path whose result leads out of the source directory.
- The workflow checker reports publish jobs without a `needs` dependency, but its patterns pass over
  some spellings of one: a name of one letter in brackets or bare, a list in brackets broken over
  lines, a quoted bare name, and a quoted name as an item. `WorkflowLines.InlineNeedsNone` and
  `ListItemIff` say exactly what is passed over, `WorkflowJobs.ReportedIff` exactly which jobs are
  reported, and `MissedSpellings` are five jobs it reports wrongly.
- The verifier takes the native flag from the first place in the manifest where its label stands with
  a truth value, and the run id, which comes before the flag, may hold both. `LabManifest.FlagExactly`
  says exactly what is read, `LabArtifact.RunIdRefused` is an artifact refused for its run id.
- A failed archive creation leaves the members written so far (`ArArchive.CreateArArchive`).

## Model

| member | source | states |
|---|---|---|
| BaselineModel.FindingRoundTrip | internal/artifactwriterbaseline/write.go:131-141 | every finding, whatever characters its fields hold, reads back from its JSON line |
| BaselineModel.FindingOneLine | internal/artifactwriterbaseline/write.go:131-141 | a record's line holds no control character, begins with a brace and ends with one, so line framing is safe |
| BaselineModel.ManifestRoundTrip | internal/artifactwriterbaseline/write.go:63-80 | every manifest, nil slices included, reads back from its indented document |
| BaselineModel.ValidateFinding | internal/artifactwriterbaseline/model.go:98-115 | the error list is empty exactly for a valid finding and its first entry names the first failing field |
| BaselineModel.ValidateManifest | internal/artifactwriterbaseline/model.go:42-94 | the error list is empty exactly for a valid manifest, with empty and repeated names found, and its first entry names the first fault |
| BaselineModel.FindingOrders | internal/artifactwriterbaseline/load.go:190-203 | both comparisons are strict weak orders and the loader's refines the writer's |
| Sorting.StringLessIff | internal/artifactwriterbaseline/load.go:192-202 | one text is below another exactly when it ends, or has the smaller character, at the first place where they differ |
| BaselineModel.FillFindingExactly | internal/artifactwriterbaseline/load.go:101-110 | members in any order, letter case and number are taken exactly when each names a field and has a value of its kind; each field is then the last value set |
| BaselineModel.FoldIff | internal/artifactwriterbaseline/load.go:101-110 | which characters pass for a letter of a field name |
| BaselineLoad.LoadShardsIff | internal/artifactwriterbaseline/load.go:140-160 | reading the shards in turn succeeds exactly when each loads and all ids differ, and gives their records in manifest order |
| BaselineLoad.LoadAllIff | internal/artifactwriterbaseline/load.go:134-206 | a directory is accepted exactly when its manifest is valid, every shard loads, ids are distinct and declared surfaces are those with findings; the result is the sorted records |
| BaselineLoad.AcceptedStore | internal/artifactwriterbaseline/load.go:134-206 | whatever is accepted is strictly ordered by the four-part key, has unique ids and valid records, rearranges exactly the shard records and covers exactly the declared surfaces |
| BaselineLoad.LoadedAscending | internal/artifactwriterbaseline/load.go:189-203 | of any two records the loader returns, the earlier is below at the first of surface, file, line and id in which they differ |
| BaselineLoad.ManifestAcceptedIff | internal/artifactwriterbaseline/load.go:46-69 | a manifest loads exactly when the file is there, decodes and has schema, commit, generator, both lists or neither, and no empty or repeated name |
| BaselineLoad.ValidShardIff | internal/artifactwriterbaseline/load.go:209-229 | a shard name is accepted exactly when it has the extension and leads, from any directory, down to the file its components spell |
| BaselineLoad.ClimbingShardRefused | internal/artifactwriterbaseline/load.go:209-229 | a name with an empty, a single-dot or a double-dot component is refused before the file is looked for |
| BaselineLoad.FirstDuplicate | internal/artifactwriterbaseline/load.go:151-160 | the first record whose id is taken is the one reported |
| BaselineLoad.KeySortCanonical | internal/artifactwriterbaseline/load.go:189-203 | any two arrangements of findings with distinct ids sort to the same list |
| BaselineLines.ShardRoundTrip | internal/artifactwriterbaseline/load.go:88-128 | the text of a written shard, split into lines, trimmed and decoded, gives its records in order exactly when each is valid and its line under the limit |
| BaselineLines.ShardTextInjective | internal/artifactwriterbaseline/write.go:122-145 | different record lists give different shard texts |
| BaselineLines.LoadLinesExactly | internal/artifactwriterbaseline/load.go:88-128 | whatever a shard holds, it loads exactly when every line is blank or a valid record below 1 MiB, as those records in order; otherwise the first bad line is reported with its number |
| BaselineLines.ScanLinesExactly | internal/artifactwriterbaseline/load.go:93-95 | the lines of a text with and without a final line break |
| BaselineLines.LineStoreGood | internal/artifactwriterbaseline/load.go:94-122 | any encoding of records as tight lines makes a store whose shards read back, differ when their records do, and never yield an invalid record |
| BaselineLines.JsonStoreGood | internal/artifactwriterbaseline/write.go:131-141 | the JSON lines and the indented manifest are such a store |
| BaselineWrite.ShardsPartition | internal/artifactwriterbaseline/write.go:88-119 | grouping loses and repeats nothing, even when two surfaces share a shard file, and shard names are distinct |
| BaselineWrite.GroupAppend | internal/artifactwriterbaseline/write.go:105-116 | appending each finding to its shard's list builds the grouping |
| BaselineWrite.ShardNameExactly | internal/artifactwriterbaseline/write.go:106-113 | the shard of a finding, for the split surface by its file without directories and extension |
| BaselineWrite.ManifestAscending | internal/artifactwriterbaseline/write.go:37-60 | shards and surfaces are listed in dictionary order, each once, and are exactly those of the findings |
| BaselineWrite.ShardAscending | internal/artifactwriterbaseline/write.go:91-103 | no record of a shard is below the one before it at the first of surface, file and line in which they differ |
| BaselineWrite.WrittenRecords | internal/artifactwriterbaseline/load.go:144-160 | after a write the shards the manifest lists hold the groups, whatever else the directory holds |
| BaselineWrite.StoreRoundTrip | internal/artifactwriterbaseline/write.go:24-83 | whatever the directory held before, writing valid findings with distinct ids and loading them returns exactly those findings, in the loader's order |
| BaselineWrite.StoreAcceptedIff | internal/artifactwriterbaseline/load.go:134-206 | what was written loads exactly when commit and generator are given, ids are distinct and every finding is valid and short enough |
| BaselineCanonical.LoadForgetsOrder | internal/artifactwriterbaseline/load.go:189-205 | every reordering of the input, over any two prior directories, loads to the same list |
| BaselineCanonical.CanonicalShards | internal/artifactwriterbaseline/write.go:91-116 | each shard of a loaded list is a subsequence of it |
| BaselineCanonical.ShardKeepsTies | internal/artifactwriterbaseline/write.go:91-103 | findings that tie stand in their shard in the order in which they were handed over |
| BaselineCanonical.CanonicalFixedPoint | internal/artifactwriterbaseline/write.go:24-83 | writing a loaded list, loading it and writing again gives the same list and changes no file |
| BaselineCanonical.WrittenSameIff | internal/artifactwriterbaseline/write.go:24-119 | any two lists of findings are written as the same files exactly when those on each surface, file and line are the same in the same order; the order of all others does not matter |
| BaselineCanonical.FirstWriteCanonicalIff | internal/artifactwriterbaseline/write.go:91-103 | the first write equals the canonical one exactly when findings that tie on surface, file and line came in id order |
| BaselineCanonical.FirstWriteExample | internal/artifactwriterbaseline/write.go:94-103 | two findings on one line, handed over in the wrong order, are written differently |
| BaselineDirectory.Directory.LoadManifest | internal/artifactwriterbaseline/load.go:46-69 | the method gives the specified manifest or error on every directory |
| BaselineDirectory.Directory.LoadShard | internal/artifactwriterbaseline/load.go:72-129 | the line loop gives the specified records or the first error, with its line number |
| BaselineDirectory.Directory.LoadAll | internal/artifactwriterbaseline/load.go:134-206 | the set-based loops for duplicates and surfaces give the specified result or error |
| BaselineDirectory.GroupFindings | internal/artifactwriterbaseline/write.go:88-119 | the map built by the loop holds for each shard name its findings in the writer's order |
| BaselineDirectory.Directory.WriteShard | internal/artifactwriterbaseline/write.go:122-145 | exactly one file changes, to the records' lines |
| BaselineDirectory.Directory.Write | internal/artifactwriterbaseline/write.go:24-83 | the new directory is the old one overlaid with the shards and the manifest, whatever order maps hand out their keys in |
| RatchetGate.Deduplicate | cmd/artifact-writer-scanner/main.go:385-394 | the loop keeps the first finding of each id, in order |
| RatchetGate.UniqueFacts | cmd/artifact-writer-scanner/main.go:385-394 | deduplication keeps the id set, leaves distinct ids and invents nothing |
| RatchetGate.CountIn | cmd/ratchet-verifier/main.go:96-115 | counting over a map in any order gives the sizes of the intersection and the difference |
| RatchetGate.VerifyRatchet | cmd/ratchet-verifier/main.go:63-141 | the loops and the status chain give the specified report |
| RatchetGate.GateExactness | cmd/ratchet-verifier/main.go:90-141 | counts add up on both sides and each of the four statuses arises exactly under its own condition on the id sets; a count mismatch only from repeated observations |
| RatchetGate.GateAgainstStore | cmd/ratchet-verifier/main.go:56-141 | the same six facts for any directory the loader accepts |
| RatchetGate.RatchetEndToEnd | cmd/ratchet-verifier/main.go:56-141 | one scan deduplicated, written over any directory, loaded and checked against a second scan passes, fails as unexpected or fails as stale exactly as the two id sets compare |
| RatchetGate.OwnBaselinePasses | cmd/artifact-writer-scanner/main.go:377-394 | the scan a baseline was made from passes, however an unstable sort arranges its ties |
| Json.MarshalRoundTrip | internal/artifactwriterbaseline/load.go:101-110 | compact and indented objects of any flat members read back |
| Json.MarshalOneLine | internal/artifactwriterbaseline/write.go:132-141 | a compact object is a single line |
| Json.SpellingsRead | internal/artifactwriterbaseline/load.go:101-110 | a string reads the same however its characters are spelled: plainly, by short escapes, by number in either letter case or by surrogate pairs |
| ArFraming.ParseMembers | scripts/ar_parser.py:14-54 | the cursor loop gives the specified dict or error for any header layout |
| ArFraming.ReadMember | scripts/ar_parser.py:22-52 | one turn reads one entry, or says what is wrong with it, and moves the cursor past its padding |
| ArFraming.AcceptedFiles | scripts/ar_parser.py:14-54 | a file is accepted exactly when it is the magic followed by well-formed entries; the dict is what they build and the length is 8 plus 60, size and padding for each |
| ArFraming.RefusedExactly | scripts/ar_parser.py:22-52 | which entries are refused, and each with its own error |
| ArFraming.ArchivePrefixes | scripts/ar_parser.py:22-52 | a cut of an accepted file is readable exactly at the end of an entry, padding included, and then gives the entries before the cut |
| ArArchive.ArField | scripts/ar_parser.py:6-11 | a field reads as the text and blanks up to the width, and trimmed as the text again unless that ends in blanks; it is refused exactly for non-ASCII or overlong text, each with its own error |
| ArArchive.WriteArMember | scripts/ar_parser.py:57-81 | either the framed member is appended or nothing is, with the error |
| ArArchive.CreateArArchive | scripts/ar_parser.py:84-89 | the magic and the members up to the first refused one are written |
| ArArchive.ParseArMembers | scripts/ar_parser.py:14-54 | reading with the real header layout |
| ArArchive.HeaderRoundTrip | scripts/ar_parser.py:64-72 | a written header reads back as its name and size, names ending in blanks and the empty name included |
| ArArchive.MemberNameIff | scripts/ar_parser.py:38-40 | a name field reads as its text without blanks behind it and without one slash, whether or not it has one |
| ArArchive.ReadHeaderIff | scripts/ar_parser.py:22-40 | a header is read exactly when it is complete, has the end mark, ASCII fields and a number, and as what |
| Text.PyIntIff | scripts/ar_parser.py:33-36 | which texts are numbers, with signs and grouped digits, and which number |
| ArArchive.ArchiveRoundTrip | scripts/ar_parser.py:14-89 | creation succeeds exactly for ASCII names of at most 15 characters without a slash and contents below 10^10 bytes, and parsing gives the same members in the same order |
| ArArchive.CreatedPrefixes | scripts/ar_parser.py:14-89 | a created archive cut at the end of member k parses to exactly the first k members, every other strict prefix is rejected |
| Dicts.LastAssignmentWins | scripts/ar_parser.py:47-47 | after any run of assignments each key occurs once and holds the value assigned last |
| LabTables.TableSplits | scripts/lab_runner/artifacts.py:113-133 | a written table of clean columns, trimmed and split as every reader does, gives back exactly its header and rows |
| LabSamples.VerifyMemorySamples | scripts/idle_staircase_verifier/artifact_checks.py:96-129 | the loop gives the specified first error on any text |
| LabSamples.WrittenSamples | scripts/idle_staircase_verifier/artifact_checks.py:96-129 | the written samples are accepted exactly when none has a negative resident set |
| LabSamples.SamplesExactly | scripts/idle_staircase_verifier/artifact_checks.py:96-129 | for any text: accepted exactly with two lines, the four columns named and every row as wide as the header without a negative resident set; a bad row is reported by its number |
| LabSamples.SamplesRoundTrip | scripts/idle_staircase_analyzer.py:27-47 | the samples a run wrote read back as they were taken |
| LabNatives.ParseNativeEvents | scripts/idle_staircase_analyzer.py:132-155 | the loop takes exactly the rows with four columns and a number of milliseconds, in order |
| LabNatives.VerifyNativeEventTimeline | scripts/idle_staircase_verifier/artifact_checks.py:55-74 | the specified first error on any text or a missing file |
| LabNatives.NativeOfLineIff | scripts/idle_staircase_analyzer.py:141-153 | which rows give a native event, and which one |
| LabNatives.NativesExactly | scripts/idle_staircase_verifier/artifact_checks.py:55-74 | which native timelines are accepted |
| LabManifest.VerifyManifest | scripts/idle_staircase_verifier/artifact_checks.py:77-93 | the specified first error on any text |
| LabManifest.WrittenManifest | scripts/lab_runner/artifacts.py:43-110 | whatever its values are, the verifier accepts the written manifest |
| LabManifest.ManifestExactly | scripts/idle_staircase_verifier/artifact_checks.py:77-93 | for any text: accepted exactly with ten characters and the three labels |
| LabManifest.NativeRequiredIff | scripts/idle_staircase_verifier/artifact_checks.py:46-52 | for any text: a native timeline is asked for exactly when the first label with a truth value behind it, in whatever letter case, has true |
| LabManifest.FlagExactly | scripts/idle_staircase_verifier/artifact_checks.py:46-52 | for every manifest the native flag is read from the lines before it if they hold its label, in whatever letter case, with a truth value behind it, and as configured otherwise |
| LabManifest.FlagAsConfigured | scripts/idle_staircase_verifier/artifact_checks.py:46-52 | so it is read as configured exactly unless an earlier line says the opposite |
| LabManifest.UsualManifest | scripts/lab_runner/artifacts.py:72-93 | nothing is met there if no earlier value has a colon behind the letter d |
| LabManifest.RunIdTurnsFlag | scripts/lab_runner/config.py:176-181 | with the run id "native_events_enabled: true", which is allowed, the flag reads true whatever was configured |
| LabTimeline.VerifyEventTimeline | scripts/idle_staircase_verifier/artifact_checks.py:132-180 | the loops give the specified outcome on any text |
| LabTimeline.IsShellSyntheticArtifact | scripts/idle_staircase_verifier/correlation.py:146-174 | the loop decides the marker predicate on any text |
| LabTimeline.TimelineSplits | scripts/lab_runner/artifacts.py:120-133 | the verifier's trim and split sees exactly the header and the appended rows |
| LabTimeline.WrittenTimeline | scripts/idle_staircase_verifier/artifact_checks.py:132-180 | a timeline of appended rows is accepted exactly when it names the start and an end of the run |
| LabTimeline.TimelineExactly | scripts/idle_staircase_verifier/artifact_checks.py:132-180 | for any text: accepted exactly with a row, the four columns, all rows of one width, and the start and an end of the run; a row of another width is reported by its number |
| LabTimeline.ShellSyntheticIff | scripts/idle_staircase_verifier/correlation.py:146-174 | for any text: which timelines are taken for shell-side |
| LabTimeline.ConfigRowIsSynthetic | scripts/idle_staircase_verifier/correlation.py:156-160 | a subsystem_config row makes the artifact synthetic, whatever else is in it |
| LabRun.Lab.AppendEvent | scripts/lab_runner/artifacts.py:127-133 | the rows are the earlier ones and exactly this one behind them, and the file is their text |
| LabRun.Lab.AppendMemorySample | scripts/lab_runner/artifacts.py:136-151 | the same for the samples, and the timeline is not touched |
| LabRun.Lab.LogTurn | scripts/lab_runner/loop.py:41-56 | one turn appends exactly the events that are due, in order, behind the rows before |
| LabRun.Lab.TakeTurn | scripts/lab_runner/loop.py:25-56 | a turn fails exactly when the child, its /proc directory or the read is gone, in this order, and then logs nothing; otherwise it logs its sample and its events |
| LabRun.TurnFailureIff | scripts/lab_runner/loop.py:26-39 | the child is looked at first, then its directory, then its status |
| LabRun.RunOpens | scripts/lab_runner/main.py:75-84 | the rows a completed run begins with, and where those of the loop stand |
| LabRun.RunCloses | scripts/lab_runner/main.py:85-89 | the rows it ends with, the burst included |
| LabRun.Lab.RunIdleLoop | scripts/lab_runner/loop.py:10-63 | for any clock and any behaviour of the child the loop stops as it must: completed on the first reading that reaches the duration, or with the first failure; it terminates, and the logs hold exactly the samples and events of its turns |
| LabRun.Lab.RunLab | scripts/lab_runner/main.py:74-89 | how a run ends is determined by what it meets; a completed run leaves exactly the opening, loop, burst and closing rows and their samples, its timeline passes the verifier's check and carries the marker, its samples pass theirs exactly when none is negative and read back as taken; a failed run leaves what it had logged |
| LabRun.StopsOnce | scripts/lab_runner/loop.py:22-63 | what a run meets leaves one outcome and one number of turns |
| LabRun.CompletesIff | scripts/lab_runner/loop.py:22-63 | the loop completes exactly when some turn reaches the duration with nothing failing before and the pauses in between allowed |
| LabRun.CompletedRunTimeline | scripts/lab_runner/main.py:75-89 | the timeline of every completed run passes the verifier's check and carries the synthetic marker |
| LabCadence.LoopCadence | scripts/lab_runner/loop.py:41-51 | over any clock that does not run backwards ticks are strictly increasing positive multiples of 30 numbered from 1, at most one per elapsed 30 s; WireGuard checks are strictly increasing multiples of 60, each at a tick when ticks are on |
| LabCadence.TicksAndChecksExactly | scripts/lab_runner/loop.py:41-51 | ticks, and WireGuard checks, are logged for exactly the readings that are positive multiples of 30, and of 60, once each, in order, with their texts, and not at all when switched off |
| LabCadence.ClockNonDecreasing | scripts/lab_runner/loop.py:29-29 | whole seconds read from a monotone clock never decrease and start at zero or above |
| LabCadence.SampleBound | scripts/lab_runner/loop.py:25-63 | with an interval of at least 1 s a completed loop takes at most ceil(duration / interval) + 1 samples |
| LabCadence.TerminationBound | scripts/lab_runner/loop.py:25-61 | with such an interval the duration is reached by a turn known beforehand |
| LabCadence.BgpBfdExactly | scripts/lab_runner/loop.py:53-56 | over any readings the BGP events, and the BFD events, are one for every reading that is a positive multiple of 10, repeated readings included |
| LabCadence.OncePerSecondIff | scripts/lab_runner/loop.py:53-56 | their times strictly increase exactly when the due readings do |
| LabCadence.OncePerSecond | scripts/lab_runner/loop.py:53-61 | with an interval of at least 1 s they do |
| LabCadence.SameSecondRepeats | scripts/lab_runner/loop.py:53-61 | a completed run with interval 0 over a clock that stands still logs BGP twice in one second and a tick once |
| LabCadence.SecondsDiffer | scripts/lab_runner/loop.py:61-61 | with an interval of at least 1 s no two turns read the same second |
| LabAnalyzer.ExtractRssValues | scripts/idle_staircase_analyzer.py:27-47 | the loop takes from any text exactly the rows whose second and third columns are numbers, the latter positive, in order |
| LabAnalyzer.DetectMemorySteps | scripts/idle_staircase_analyzer.py:50-67 | the loop finds the specified steps and their times |
| LabAnalyzer.RiseIndicesExact | scripts/idle_staircase_analyzer.py:59-65 | steps are exactly the samples more than 50 KiB above the one before, in order |
| LabAnalyzer.StepsCounted | scripts/idle_staircase_analyzer.py:59-65 | the number of steps is the number of samples more than 50 KiB above the one before |
| LabAnalyzer.CountNativeEventsBySubsystem | scripts/idle_staircase_analyzer.py:158-183 | the dict holds for each known subsystem its number of tagged events |
| LabAnalyzer.CorrelateNativeEventsWithSteps | scripts/idle_staircase_analyzer.py:186-219 | the dict holds for each known subsystem its number of tagged events near some step, each event once |
| LabAnalyzer.EventsCounted | scripts/idle_staircase_analyzer.py:158-219 | both counts are the numbers of events with that tag, in whatever letter case, and of those within 30 whole seconds of a step |
| LabAnalyzer.CorrelatedAtMostCount | scripts/idle_staircase_analyzer.py:207-217 | no subsystem has more correlated events than events |
| LabAnalyzer.DominantIsMax | scripts/idle_staircase_analyzer.py:303-304 | no subsystem has more correlated events than the chosen one |
| LabAnalyzer.DominantIsFirst | scripts/idle_staircase_analyzer.py:303-304 | of subsystems with as many the first is chosen |
| LabAnalyzer.RateExact | scripts/idle_staircase_analyzer.py:249-255 | the rate is the growth in a minute rounded down, and zero without two samples and a duration |
| LabAnalyzer.Analyze | scripts/idle_staircase_analyzer.py:241-372 | from the text of the samples and of the native timeline the verdict chain gives the specified report |
| LabAnalyzer.ConfirmedLeakIff | scripts/idle_staircase_analyzer.py:289-320 | confirmed_leak is given exactly for three steps, growth over 500 KiB and a dominant subsystem with three native events and one near a step, which is then the owner |
| LabAnalyzer.ConfirmedLeakSound | scripts/idle_staircase_analyzer.py:289-320 | confirmed_leak means three adjacent rises over 50 KiB, net growth over 500 KiB, an owner with three native events and one within 30 s of a step, and no subsystem with more correlated events |
| LabAnalyzer.BoundedIff | scripts/idle_staircase_analyzer.py:289-366 | for all samples and native events: exactly when the verdict is bounded, and that only a leak has an owner and evidence |
| LabAnalyzer.ReasonExactly | scripts/idle_staircase_analyzer.py:289-372 | which reason is given in each case, and with which figures |
| LabAnalyzer.NoNativesNoLeak | scripts/idle_staircase_analyzer.py:270-292 | without native events, or with them switched off, nothing is confirmed |
| LabVerifier.FindCorrelatedNativeEvents | scripts/idle_staircase_verifier/correlation.py:183-236 | something is found exactly when an owner's event lies within 30000 ms of a step, and only such events are found |
| LabVerifier.VerifyVerdict | scripts/idle_staircase_verifier/artifact_checks.py:183-311 | the three decision chains give the specified first error or none |
| LabVerifier.CorrelationIff | scripts/idle_staircase_verifier/correlation.py:183-236 | native events bear out an owner exactly when one has its prefix and lies within 30000 ms of a sample more than 50 KiB above the one before |
| LabVerifier.VerdictExactly | scripts/idle_staircase_verifier/artifact_checks.py:183-311 | for every file, whoever wrote it, and all evidence: the exact condition under which each of the three verdicts is accepted |
| LabVerifier.SourceWordingExplains | scripts/idle_staircase_analyzer.py:294-320 | the analyzer's unattributed reason names the open owner, and its evidence is never empty |
| LabVerifier.ShellOnlyAgreement | scripts/idle_staircase_verifier/artifact_checks.py:275-311 | whatever is read as the owner of an empty owner line, for every sample series without native events the verifier accepts the analyzer's verdict, except exactly for bounded with growth over 2000 KiB or more than 10 steps |
| LabPatterns.SearchFinds | scripts/idle_staircase_verifier/artifact_checks.py:192-210 | a leftmost search for a label and its group stops at the field of that label when no earlier line holds the label |
| LabPatterns.SearchFirst | scripts/idle_staircase_verifier/artifact_checks.py:192-210 | for any text and pattern: a search gives the group at the first place where label and group match, and nothing when there is none |
| LabPatterns.SpacedWordIff | scripts/idle_staircase_verifier/artifact_checks.py:192-201 | which word the word pattern takes |
| LabPatterns.SpacedNumberIff | scripts/idle_staircase_verifier/artifact_checks.py:229-230 | which number the number pattern takes |
| LabPatterns.SpacedLineIff | scripts/idle_staircase_verifier/artifact_checks.py:206-210 | which text the line pattern takes |
| LabPatterns.NextLabelFound | scripts/idle_staircase_verifier/artifact_checks.py:200-201 | behind an empty value the word pattern matches the label of the next line |
| LabVerdictFile.VerdictFileFound | scripts/idle_staircase_analyzer.py:421-433 | in the file written for a report the verifier's patterns find exactly its fields and the event counts, evidence trimmed, nothing for a negative growth; behind an empty owner they find "reason:" and behind empty evidence the whole next line |
| LabVerdictFile.AnalysisReportable | scripts/idle_staircase_analyzer.py:278-372 | every report of the analyzer is one whose file reads back, and only a confirmed leak has an owner |
| LabVerdictFile.SourceWordingQuiet | scripts/idle_staircase_analyzer.py:294-372 | the analyzer's reasons are single lines without underscores, so no label searched behind them can be found in them |
| LabVerdictFile.ExplanationNeverAsked | scripts/idle_staircase_verifier/artifact_checks.py:302-309 | an inconclusive file of the analyzer is accepted whatever its reason says |
| LabVerdictFile.AnalysisFileIff | scripts/idle_staircase_verifier/artifact_checks.py:183-311 | for every sample series and all native events the verifier, reading the text the analyzer wrote, accepts it exactly when it is inconclusive, or bounded within 2000 KiB and 10 steps, or a leak whose timeline is not synthetic and whose owner is known with an event in the millisecond window |
| LabVerdictFile.DemandWouldRefuse | scripts/idle_staircase_verifier/artifact_checks.py:294-309 | were an empty owner read as none, the demand would refuse exactly the inconclusive staircases with native events |
| LabVerdictFile.DemandNotMade | scripts/idle_staircase_verifier/artifact_checks.py:294-309 | a staircase with one late native event is accepted and would be refused |
| LabVerdictFile.AnalyzerIgnoresMarker | scripts/idle_staircase_analyzer.py:283-320 | a heartbeat leak is confirmed whatever the shell timeline says, and the marker in it alone decides whether the verifier accepts the file |
| LabVerdictFile.UnknownOwner | scripts/idle_staircase_verifier/correlation.py:203-206 | a health or status leak is confirmed by the analyzer and refused for want of a native event by the verifier, the timeline being clean |
| LabVerdictFile.ShellOnlyFile | scripts/idle_staircase_verifier/artifact_checks.py:183-311 | without native events the text is accepted except exactly for bounded with growth over 2000 KiB or more than 10 steps |
| LabVerifier.RefusedBounded | scripts/idle_staircase_analyzer.py:354-366 | which sample series are written as bounded and refused |
| LabVerifier.RefusedBoundedExample | scripts/idle_staircase_verifier/artifact_checks.py:283-286 | one jump of 3000 KiB is such a series |
| LabVerifier.ConfirmedAgreement | scripts/idle_staircase_verifier/artifact_checks.py:213-273 | a confirmed leak of the analyzer is accepted exactly when the timeline is not synthetic, the owner is known to the verifier and one of its events lies in the millisecond window |
| LabVerifier.WindowsDiffer | scripts/idle_staircase_analyzer.py:209-214 | the two windows differ exactly for an event 30001 to 30999 ms after the step, the verifier's being the narrower |
| LabVerifier.VerifierRefinesAnalyzer | scripts/idle_staircase_verifier/correlation.py:216-229 | when prefix and tag agree, an owner the verifier correlates has a positive count in the analyzer |
| LabArtifact.VerifyArtifact | scripts/idle_staircase_verifier/artifact_checks.py:314-350 | over the texts of any artifact the first missing file or failed check is reported, in order |
| LabArtifact.ArtifactExactly | scripts/idle_staircase_verifier/artifact_checks.py:314-350 | the texts of any artifact, whoever made it, are accepted exactly when the files are there and good, the native timeline is if asked for, and the verdict is borne out by its own figures and the evidence |
| LabArtifact.FaultExactly | scripts/idle_staircase_verifier/artifact_checks.py:322-350 | what is reported, in the order of the checks |
| LabArtifact.LabMain | scripts/lab_runner/main.py:64-97 | a completed run followed by the analyzer leaves the manifest, timeline, samples and verdict that the theorems are about |
| LabArtifact.RunArtifactIff | scripts/idle_staircase_verifier/artifact_checks.py:314-350 | the artifact of every completed run with the analyzer's verdict is accepted exactly when no sample is negative, the native timeline is in order if the flag in the manifest asks for one, and the verdict is inconclusive or bounded within the verifier's limits; never as a confirmed leak |
| LabArtifact.RunNeverConfirmed | scripts/idle_staircase_verifier/artifact_checks.py:253-256 | a completed run's timeline passes its check, yet no artifact with it, whatever else it holds, is accepted with a verdict file that says confirmed_leak |
| LabArtifact.RunIdRefused | scripts/idle_staircase_verifier/artifact_checks.py:322-343 | a complete artifact of a run without native events but with that run id is refused for want of a native timeline |
| Stripper.StripCommentsAndTests | scripts/effect_boundary_verifier/patterns.py:61-131 | the line and character loops give the specified text |
| Stripper.CommentStartFirst | scripts/effect_boundary_verifier/patterns.py:108-128 | the cut falls on the first // outside quotes and escapes, stated position by position |
| Stripper.OutsideLine | scripts/effect_boundary_verifier/patterns.py:101-129 | of a line outside test blocks that opens none, in any file, exactly the code in front of the first unquoted // is left, nothing of a doc comment, and the rest is read outside test blocks |
| Stripper.CodeKept | scripts/effect_boundary_verifier/patterns.py:61-131 | a file without test blocks keeps as many lines, each without its comment |
| Stripper.InsideLine | scripts/effect_boundary_verifier/patterns.py:75-99 | a line that opens a test block or stands in one leaves nothing |
| Stripper.BracesExactly | scripts/effect_boundary_verifier/patterns.py:85-94 | a line ends the block exactly at a closing brace behind which all braces counted balance, and leaves the counted depth otherwise |
| Stripper.StrippedNormal | scripts/effect_boundary_verifier/patterns.py:61-131 | no output line opens a test block, is a doc comment or holds an unquoted //, for every input |
| Stripper.StrippedIdempotent | scripts/effect_boundary_verifier/patterns.py:61-131 | stripping twice is stripping once |
| Stripper.TestLineEnds | scripts/effect_boundary_verifier/patterns.py:96-98 | the end-of-block clause on endswith never decides |
| Stripper.EndLineExact | scripts/effect_boundary_verifier/patterns.py:85-99 | a block ends on the first line that balances it or is a lone closing brace |
| Stripper.EndsWhereBalanced | scripts/effect_boundary_verifier/patterns.py:85-99 | that is the balancing line exactly when no lone closing brace comes before it |
| Stripper.BalancedBlockRemoved | scripts/effect_boundary_verifier/patterns.py:80-99 | such a block disappears and nothing around it does |
| Stripper.NestedBlockLeaks | scripts/effect_boundary_verifier/patterns.py:97-98 | a nested block with a lone closing brace leaves its rest in the output |
| WorkflowJobs.ExtractJobs | scripts/verify_workflow_release_safety.py:102-160 | from the text of any file the one-pass loop gives the specified dict of jobs of its lines |
| WorkflowJobs.JobLocality | scripts/verify_workflow_release_safety.py:102-160 | the one pass equals parsing each job block alone; nothing leaks from one job into another |
| WorkflowJobs.SplitFile | scripts/verify_workflow_release_safety.py:107-117 | every file with a jobs: key splits into such blocks |
| WorkflowJobs.LastBlockCounts | scripts/verify_workflow_release_safety.py:113-115 | in every file, one without a jobs: key included, each name is bound to the job of the last block that has it, once, and to nothing if none has |
| WorkflowJobs.CheckJobs | scripts/verify_workflow_release_safety.py:180-210 | the loops report exactly the specified violations in order |
| WorkflowJobs.FileRulesIff | scripts/verify_workflow_release_safety.py:180-210 | for every dict of jobs: when several jobs publish, when workflow-level write is reported, and that each other violation is one of a job of that name |
| WorkflowJobs.ReportOrder | scripts/verify_workflow_release_safety.py:182-210 | what concerns the whole file is reported first |
| WorkflowJobs.JobOrderIrrelevant | scripts/verify_workflow_release_safety.py:180-210 | two files with the same job blocks in any order, under distinct names, have the same multiset of violations |
| WorkflowLines.NamesNone | scripts/verify_workflow_release_safety.py:132-133 | the pattern for names in brackets finds none exactly when no letter has a name character behind it |
| WorkflowLines.NamesIff | scripts/verify_workflow_release_safety.py:132-133 | which names are taken from brackets: the longest from the first letter of a run of name characters, of two characters or more |
| WorkflowLines.HeaderIff | scripts/verify_workflow_release_safety.py:112-116 | which lines open a job, and its name |
| WorkflowLines.JobsKeyIff | scripts/verify_workflow_release_safety.py:107-109 | which lines are the jobs: key |
| WorkflowLines.InlinePermissionsIff | scripts/verify_workflow_release_safety.py:122-122 | which lines have permissions in braces |
| WorkflowLines.KeyLineIff | scripts/verify_workflow_release_safety.py:139-140 | which lines are another key of the job |
| WorkflowLines.InlineNeedsIff | scripts/verify_workflow_release_safety.py:131-131 | which lines have needs on them |
| WorkflowLines.WordsIff | scripts/verify_workflow_release_safety.py:147-150 | where a key and a word stand as whole words |
| WorkflowLines.BracketedIff | scripts/verify_workflow_release_safety.py:132-132 | what is found in brackets is exactly what stands in them behind nothing but empty ones |
| WorkflowLines.ListItemIff | scripts/verify_workflow_release_safety.py:143-143 | the item pattern finds a name exactly when the line is blanks, a dash, blanks, that name and nothing that prolongs it; a quoted name is not found |
| WorkflowLines.InlineNeedsNone | scripts/verify_workflow_release_safety.py:131-136 | from a line with needs on it none is taken exactly when the brackets hold no name of two characters, a bracket is opened and not closed, or the one name has one character |
| WorkflowJobs.LineNeeds | scripts/verify_workflow_release_safety.py:119-145 | which needs any line of a job adds, and that such a line changes nothing else; when it adds none; and whether the next line stands in the needs |
| WorkflowJobs.LineAccess | scripts/verify_workflow_release_safety.py:119-150 | for every line and every place in a job: what it does to the permission, in terms of its text, and whether the next line stands under permissions |
| WorkflowJobs.LineCommands | scripts/verify_workflow_release_safety.py:151-156 | for every line and every place in a job: which commands it adds |
| WorkflowJobs.ReportedIff | scripts/verify_workflow_release_safety.py:180-210 | for every block of a file, in terms of its lines: the job publishes exactly when the last line that sets a permission grants write; then it is reported exactly when no line adds a need, otherwise each command is reported exactly when some line outside needs and permissions has it |
| WorkflowJobs.MissedSpellings | scripts/verify_workflow_release_safety.py:128-145 | behind any publish job without needs so far, a need in brackets or bare with one letter, quoted on the line or as an item, or in a list broken over two lines leaves it reported; an unquoted item does not |
| Checkpoints.FindCheckpointBlocks | scripts/verify_cold_resume_checkpoints.py:116-139 | the nested loops give the specified blocks |
| Checkpoints.CheckpointsAreHeadings | scripts/verify_cold_resume_checkpoints.py:28-34 | a checkpoint start line is a heading of level 1 to 3 |
| Checkpoints.HeadingIff | scripts/verify_cold_resume_checkpoints.py:128-129 | which lines are headings, and of which level |
| Checkpoints.StartIff | scripts/verify_cold_resume_checkpoints.py:28-34 | a block starts exactly at one to three hash marks, blanks and an ACT title, bare or behind a state in brackets |
| Checkpoints.ActNumberIff | scripts/verify_cold_resume_checkpoints.py:29-29 | which titles are ACT and a number |
| Checkpoints.BracketedActIff | scripts/verify_cold_resume_checkpoints.py:30-30 | which titles have a state in brackets in front |
| Checkpoints.BlocksExactly | scripts/verify_cold_resume_checkpoints.py:121-123 | there is a block exactly at each start line |
| Checkpoints.BlocksInOrder | scripts/verify_cold_resume_checkpoints.py:121-137 | blocks come in document order, each start once |
| Checkpoints.BlockBounds | scripts/verify_cold_resume_checkpoints.py:124-133 | a block holds no other heading of its level or above and ends right before one or at the end |
| Checkpoints.BlockText | scripts/verify_cold_resume_checkpoints.py:135-136 | the text of a block is exactly its lines |
| Checkpoints.Laminar | scripts/verify_cold_resume_checkpoints.py:116-139 | two blocks are disjoint, or the later lies inside the earlier at a deeper level |
| Checkpoints.SelfContained | scripts/verify_cold_resume_checkpoints.py:116-139 | scanning a block's text alone finds exactly the blocks that start inside it |
| KcovPaths.RFindLast | scripts/kcov_parsers.py:67-67 | no occurrence lies behind the one found, overlapping ones included |
| KcovPaths.RFindSuffix | scripts/kcov_parsers.py:67-67 | what remains of the last occurrence in a suffix |
| KcovPaths.AcceptedExactly | scripts/kcov_parsers.py:35-89 | every path is accepted exactly when it ends in .zig, holds none of the eleven patterns and has a last marker with an acceptable tail or begins in one of the four relative ways; and what it becomes |
| KcovPaths.NormalizeIdempotent | scripts/kcov_parsers.py:35-89 | a returned path normalises to itself, still ends in .zig and holds no forbidden pattern, for any pattern list |
| KcovPaths.MarkerResult | scripts/kcov_parsers.py:66-73 | in the marker case the result holds no further marker and no inner /../ |
| KcovPaths.ResultClimbs | scripts/kcov_parsers.py:66-86 | a result has a parent-directory component exactly when what follows the marker begins with one and, in the relative forms, the path has one |
| KcovPaths.ClimbingAccepted | scripts/kcov_parsers.py:70-73 | a path with such a tail is accepted under the program's own forbidden patterns |
| KcovPaths.LocationIndependence | scripts/kcov_parsers.py:64-73 | a directory in front of a project path changes the result only by making the whole path unclean |

## Left out

- Process, network, /proc, packaging and kcov work: I/O. The clock, the child, /proc and the sampler are parameters of `LabRun.Lab.RunIdleLoop`.
- The Go AST scan, SHA-256 and the choice of a surface: finding ids and surfaces are given.
- Schema, budget, evidence and CSV validators, tag patterns and the workflow-level permission scan: independent field checks that would only add easy members.
- Regular expressions as such: each of the patterns is a function on text.
- Newline translation: texts are as Python reads them. Digits in numbers are ASCII digits, and letter case is ASCII case.
- Invalid UTF-8 and lone surrogates, JSON objects nested in values, and a null element of an array under a repeated key.
- File-system failures other than a missing file; the four messages of an invalid shard name are one error, and errors carry the first faulty field.
- BaselineWrite.StoreRoundTrip: assumes shard names that are single path components, which is what os.Create needs; other names make Write fail in ways of the file system.
- BaselineDirectory.Directory.Write: does not model a failing os.Create or a partly written directory, for the same reason.
- RatchetGate.RatchetEndToEnd: takes any arrangement sorted by file and line for sort.Slice, whose order of ties is not specified.
- KcovPaths.NormalizeIdempotent: letter case is ASCII case, so a path whose other characters change length when lowered is outside the model.
- LabAnalyzer.CorrelateNativeEventsWithSteps: subsystem tags are lowered as ASCII, for the same reason.
- Checkpoints.FindCheckpointBlocks: digits in a checkpoint title are ASCII digits.
- LabRun.Lab.RunLab: one time-of-day stamp stands for all of them, given as any text without tabs or line breaks; a read of /proc that fails in the status burst is not modelled.
- LabArtifact.LabMain: the native timeline is given as the child left it, and so is what the manifest and the verdict file say besides the run and the report.
- LabAnalyzer.Analyze: the counts of shell events are given, not read from the shell timeline, since only the reasons mention them.
- WorkflowJobs.ExtractJobs: a job's start line is not kept, since nothing reads it; letters and word characters are ASCII ones.
