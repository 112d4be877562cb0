# Pigeon CLI: a verified model of its hard core

Five parts of the command-line program are modelled here, each with what it is
relied on for.

- **The LZO1X decompressor.** `LzoFormat` defines what a stream means: its
  instructions, their operands in each state, and the bytes they stand for, with
  an encoder as its inverse. `LzoDecoder` is the byte-level program; it refines
  that meaning for every input and every output cap. `LzoFacts` says the same on
  the bytes: how the literals before a byte decide what it means, and what every
  byte of the output is.
- **The deduplicate run.** `DedupPool` is the worker pool as a transition system
  over every interleaving of its lock sections, and `DedupResults` what its
  results add up to; `Checkpoint` is the filter that
  decides which roots are done. `Placement` is the sequential pass after it and
  `PlacementResults` what it leaves behind; `ContentIndexFile` is the index, and
  `ContentIndexRuns` and `ContentIndexRestarts` are the index over many commits
  and runs. `DedupRun` joins pool, pass and filter. `Archive` is the extraction budget.
- **The email import.** `Planning` builds the queue, `ImportQueue` runs the
  workers over it, `ImportAttempts` says how often each batch is tried and what
  is counted for it, `Delivery` delivers one message. `LedgerFile`, `LedgerSeed`
  and `LedgerSync` are the ledger's text, its first contents and its flushes, and
  `ImportRuns` follows one identity through crashes and restarts;
  `ImportLosses` and `ImportOrigins` say exactly what its ledger can lose, and
  `ImportDelivery` ties one message's delivery to those runs.
- **The rclone log tailer.** `RcloneLog` says what a log means, read once,
  `RcloneTotals` what that comes to line by line; `RcloneTailer` reads it piece by piece and agrees.
- **Schedulers and parsers.** `Pacer`, `RecoveryGate`, `Bisect` and `Icns`.

`Text`, `Counting`, `Chunking`, `Keys` and `Wrappers` hold what they share. `Text` follows
Rust's `str::lines`, `split` and `u32::from_str`, the optional plus sign included.

Code that changes state step by step is modelled as methods and classes proved
against a specification function. Code run by several workers is a transition
system whose steps are the program's own atomic sections, and properties hold
for every schedule.

## Where the code does less than it promises

- **Late uploads.** The ledger is documented to only grow. `flusher.abort()`
  stops the task that waits for a periodic upload, not the upload, and neither
  does the end of the process. An older upload that lands after a newer one costs
  the durable ledger exactly the rows recorded between them
  (`ImportLosses.LateUploadLosesRowsLeft`), and one left by an earlier process
  can cost as much (`ImportOrigins.LandingLosesExactly`). Such messages are
  delivered again. `ImportOrigins.DurableNeverShrinksIff` says exactly when
  nothing is lost.
- **A failed append.** A torn final row is safe, as documented. A row appended
  after a torn one within the same run is lost. If the torn one stopped in its
  mailbox name, the pair reads as a message that was never delivered. If it
  stopped in its time, its own key is lost too, even when it was durable already.
  `ImportLosses.RecordIsHonestIff` says exactly when an append does harm. A
  restart rewrites the file from its parsed rows, so a torn piece cannot harm a
  later run.
- **A failed index commit.** The index loader accepts older, shorter rows, so a
  row torn past its hash loads as a live record at a path cut short, and the next
  commit is glued to it and lost. `ContentIndexRestarts.MapIsFileIffKept` says
  exactly when a restart reads what the run held.
- **A file moved without a commit.** The next file of the same content gets a
  second path (`PlacementResults.OneCopyIffNotMovedAgain`).
- **Placement of members.** A file that fails placement is documented to be
  retried at the next run. A zip member is not: its root is checkpointed all the
  same (`DedupRun.UnplacedFileHoldsRootBackIff`).
- **The pacer's clamp.** A rate that is a positive multiple of 2^32 still
  divides by zero, and a larger rate counts modulo 2^32. So does the size of a
  batch: its messages are paced if and only if their number fits 32 bits
  (`Pacer.WindowFitsIff`).
- **Keys in the content index.** A tab or newline in an object key makes its
  index row read back as something else.

## Assumptions

- One import at a time writes an identity's ledger. Mailbox names are the
  server's, in modified UTF-7 (section 5.1.3 of RFC 3501): printable ASCII, so
  they hold no tab, newline or carriage return, and a row cut at any byte is cut
  at a character. They do not start with `#`. Times hold no control characters.
- Content hashes have one length, which is not zero, and no spaces.
- Uploads replace the object whole: it holds the old text or the new one. Each
  carries the text its snapshot had. In the program all flushes copy to one
  snapshot path, so a later flush can overwrite the file that an orphaned upload
  still reads; that such an upload then carries other text is not modelled.
- A seeded row only stands for a listed `.eml`, since the `.eml` is pushed first.
- Where a lemma needs top-level keys to be distinct, or to differ from member
  keys, it says so.

## Model

| member | source | states |
|---|---|---|
| `LzoDecoder.Decompress` | src/commands/job/transform/lzo1x.rs:95-164 | Succeeds exactly when the stream parses to the end marker with valid back-references and its bytes fit `max_len`; the result is then the one byte string its instructions render: the literals in place, each copied byte equal to the one its distance before, and nothing more. A stream that decodes to more is refused for its length and nothing else. Every read is in range and the loop ends on every input. |
| `LzoDecoder.Decoder.ReadByte` | src/commands/job/transform/lzo1x.rs:27-34 | The byte at the cursor, or an error at the end of the input, with the cursor unmoved. |
| `LzoDecoder.Decoder.ReadLe16` | src/commands/job/transform/lzo1x.rs:36-38 | Two bytes, low byte first. |
| `LzoDecoder.Decoder.ReadZeroRun` | src/commands/job/transform/lzo1x.rs:42-53 | The length extension that the format defines, read with its terminating byte: 255 for each zero byte; fails when the input ends first or the total does not fit a `usize`. |
| `LzoDecoder.Decoder.CopyLiterals` | src/commands/job/transform/lzo1x.rs:65-75 | Copies exactly the next `n` input bytes; fails exactly when fewer remain or the output would pass the cap. |
| `LzoDecoder.Decoder.CopyBack` | src/commands/job/transform/lzo1x.rs:79-91 | The output becomes its periodic extension, also when the match overlaps what it writes; fails exactly on a distance before the start or an output over the cap. |
| `LzoDecoder.Decoder.ReadInstruction` | src/commands/job/transform/lzo1x.rs:115-159 | Decodes one instruction of the five opcode families in the current state exactly as the instruction format does. |
| `LzoDecoder.Decoder.Execute` | src/commands/job/transform/lzo1x.rs:120-162 | Running an instruction keeps the bytes still to be produced equal to the stream's meaning; an error means there are none or too many. |
| `LzoFormat.Overlap` | src/commands/job/transform/lzo1x.rs:79-91 | Every byte copied by a match of distance `d` equals the byte `d` before it. |
| `LzoFormat.TrailingBytesIgnored` | src/commands/job/transform/lzo1x.rs:151-155 | Bytes after the end marker never change what a stream decodes to. |
| `LzoFormat.TruncationFails` | src/commands/job/transform/lzo1x.rs:27-34 | A stream cut anywhere before its end marker decodes to nothing. |
| `LzoFormat.EncodeParses` | src/commands/job/transform/lzo1x.rs:94-164 | Writing any legal instruction stream and reading it back gives the same stream, for every family, length extension and state. |
| `LzoFormat.EveryStringHasALiteralEncoding` | src/commands/job/transform/lzo1x.rs:42-53 | Every byte string has a literal-only encoding that decodes to it, including runs that need the length extension. |
| `LzoFormat.ParsedBodyIsLegal` | src/commands/job/transform/lzo1x.rs:114-163 | Whatever parses is a legal instruction stream: distances at least one, lengths and states as the families allow. |
| `LzoFormat.AcceptedHasCanonicalEncoding` | src/commands/job/transform/lzo1x.rs:95-164 | Whatever the decoder accepts has the same bytes as the canonical encoding of a legal stream: it accepts nothing else. |
| `LzoFacts.FirstMatchAfterHead` | src/commands/job/transform/lzo1x.rs:106-131 | After an initial run of one to three literals a byte `t` below 16 is a match of length 2 at distance 1 + t/4 + 4h, after four or more one of length 3 at distance 2049 + t/4 + 4h, where h is the byte after it; t mod 4 literals follow. |
| `LzoFacts.FirstMatchAfterRun` | src/commands/job/transform/lzo1x.rs:120-131 | The same for a stream that starts with a run instruction: its literals, then a match of length 3 at distance 2049 + t/4 + 4h. |
| `LzoFacts.LiteralsDecide` | src/commands/job/transform/lzo1x.rs:104-133 | Anywhere in a stream that parses, a literal run follows no literals, a two-byte match one to three, and a match of the third kind four or more. |
| `LzoFacts.DecodedIffRendered` | src/commands/job/transform/lzo1x.rs:79-91 | A stream decodes to `r` if and only if it parses and `r` is as long as its tokens add up to, starts with the initial literals, and holds for each token its literals or bytes that each equal the one `distance` before. |
| `LzoFacts.ExpandFailsIff` | src/commands/job/transform/lzo1x.rs:79-91 | A stream that parses has no meaning if and only if some match reaches back before the output its earlier tokens add up to. |
| `LzoFacts.InitialRunDecodes` | src/commands/job/transform/lzo1x.rs:172-178 | Five literals and the end marker, for any five bytes. |
| `LzoFacts.NearMatchDecodes` | src/commands/job/transform/lzo1x.rs:106-128 | Two literals and a two-byte match at distance one repeat the last literal twice. |
| `LzoFacts.OverlappingMatchDecodes` | src/commands/job/transform/lzo1x.rs:180-188 | Four literals and an overlapping match of eight at distance four repeat them twice. |
| `LzoFacts.LongZeroRunDecodes` | src/commands/job/transform/lzo1x.rs:190-199 | A match whose length needs the extension: 299 zeros. |
| `RcloneTailer.Tailer.Poll` | src/core/rclone/log.rs:158-210 | A poll reports exactly what the newly completed lines say, keeps the totals of everything read (those of the last stats line, and the number of duplicate notices), and warns once per run of equal errors; a failed read reports nothing. |
| `RcloneTailer.Tailer.ProcessLines` | src/core/rclone/log.rs:187-193 | A batch's copied objects and displaced streaks are those of its lines in order; the totals afterwards are those of the last stats line so far. |
| `RcloneTailer.Tailer.ProcessLine` | src/core/rclone/log.rs:237-272 | A stats line replaces the four totals by its own and any other line leaves them; a duplicate notice adds one; the copied objects and the run-length encoding of the error lines are extended by what the line says. |
| `RcloneTailer.Tailer.RecordError` | src/core/rclone/log.rs:279-315 | Extending or displacing the streak in progress keeps the run-length encoding of all error lines so far. |
| `RcloneTailer.Tailer.FlushErrorStreak` | src/core/rclone/log.rs:321-331 | No streak survives; what is reported is the repeats beyond the first line. |
| `RcloneTailer.Tailer.GetSummary` | src/core/rclone/log.rs:333-340 | Each of the four totals is that of the last complete line with stats, or zero without one; the fifth is the number of complete lines that are duplicate notices. |
| `RcloneTailer.Watch` | src/core/rclone/mod.rs:248-306 | All the polls of one command, the last after it has exited, report exactly what each newly read piece says; in the summary transferred, errors, bytes and deletes are those of the last stats line of the log as last seen, and duplicate notices are counted, failed reads included. |
| `RcloneLog.RunsEncode` | src/core/rclone/log.rs:279-315 | The streaks are the maximal runs of error lines with one cause: together they cover every error line in order. |
| `RcloneLog.NoErrorLineIsLost` | src/core/rclone/log.rs:187-197 | Error lines = live warnings + the sum of the reported repeats. |
| `RcloneLog.NoErrorLineIsLostByPolls` | src/core/rclone/log.rs:158-210 | Over a whole run, the error lines of the log = the live warnings of all polls + the sum of all their reported repeats. |
| `RcloneLog.SeenIsLatest` | src/core/rclone/log.rs:158-194 | After any polls of an append-only log, failed reads included, the text read is the log as last seen, each character once. |
| `RcloneLog.ChunkIndependence` | src/core/rclone/log.rs:174-185 | However a log is cut into polls, also inside lines, the copied objects of all polls are those of one pass over its complete lines. |
| `RcloneLog.DeltasSumToTotal` | src/core/rclone/log.rs:199-206 | The saturated deltas add up to the final total if and only if the counter never fell between polls; otherwise to more. |
| `RcloneLog.DeltasAddUp` | src/core/rclone/log.rs:187-206 | A caller that adds up a counter over all polls has the log's final total if and only if the counter never fell between polls. |
| `RcloneTotals.TallyIsTotals` | src/core/rclone/log.rs:246-270 | Over any lines: each total equals that field of the last line that decodes to stats, or zero when none does; `duplicate_notices` is the number of lines that are notices naming a duplicate object. |
| `RcloneTotals.DeltasExceedByFalls` | src/core/rclone/log.rs:199-206 | The saturated deltas of all polls exceed the final total by exactly what the counter fell between polls. |
| `RcloneTotals.LevelsIgnoreCase` | src/core/rclone/log.rs:253-271 | A level is recognised in any mixture of cases, and nothing else is. |
| `RcloneTotals.ContainsIffWithin` | src/core/rclone/log.rs:263-265 | A message contains a text if and only if it is something, that text, and something. |
| `RcloneTotals.OneLineRead` | src/core/rclone/log.rs:253-272 | What one line copies or reports: an object of an info line that starts with `Copied `, an error line's key and cause, and nothing for a line that does not decode. |
| `RcloneTotals.LinesAreRead` | src/core/rclone/log.rs:187-193 | Copied objects and error lines of a log are those of its lines, one after another. |
| `RcloneTotals.RunsAreWarned` | src/core/rclone/log.rs:279-315 | Every run of errors has one live warning, with the key and cause of its first line. |
| `RcloneTotals.RunsAreReported` | src/core/rclone/log.rs:321-331 | A run of more than one line is reported once, by its cause, its first key and its repeats beyond the first line; a single line is not. |
| `DedupPool.RunInv` | src/commands/job/deduplicate/worker.rs:473-598 | In every interleaving: each enqueued item is queued, held or has an outcome; each effect an outcome calls for is applied or still owed; the in-flight counter counts the running workers; a non-empty queue has a worker that will look at it. |
| `DedupPool.StepKeepsPopper` | src/commands/job/deduplicate/worker.rs:474-482 | Only a worker that saw the queue empty stops looking at it, and only workers that will look again add to it. |
| `DedupPool.DrainedWhenAllExited` | src/commands/job/deduplicate/worker.rs:604-641 | When all workers have exited the queue is empty, each item ever enqueued has exactly one outcome, and every result list holds exactly what the outcomes call for. |
| `DedupPool.EarlyExitIsReachable` | src/commands/job/deduplicate/worker.rs:474-482 | The gap between pop and increment is real: a worker can exit while another holds the only item. |
| `DedupPool.BoundedWork` | src/commands/job/deduplicate/worker.rs:237-247 | No run processes more items than the nesting cap allows, for any bound on an archive's members. |
| `DedupPool.IdlePoolExits` | src/commands/job/deduplicate/worker.rs:475-481 | Once the work is gone every step brings a worker closer to its exit. |
| `DedupPool.RunIsBounded` | src/commands/job/deduplicate/worker.rs:473-598 | No schedule, however long, gets more out of a run than nine steps for each item the nesting cap allows and one for each worker's exit; every other step looks at an empty queue or waits. |
| `DedupPool.Lineage` | src/commands/job/deduplicate/worker.rs:271-282 | Every processed item is a top-level task or a member of a processed zip. |
| `DedupPool.OwnerIsAncestor` | src/commands/job/deduplicate/worker.rs:44-65 | The root key carried by an item names exactly the task it descends from. |
| `DedupResults.ResultsAddUp` | src/commands/job/deduplicate/worker.rs:499-594 | In every interleaving, once the pool has exited: a category's failures are the outcomes that failed in it plus, for archives, those that would not open and every dropped member; dropped members add up; each hashed file and each unopened archive is listed as often as an item came to it. |
| `DedupResults.LeavesWhenNothingRuns` | src/commands/job/deduplicate/worker.rs:474-482 | A worker leaves only while no other runs an item or publishes its outcome. |
| `DedupResults.NestingIsBounded` | src/commands/job/deduplicate/worker.rs:237-247 | No item lies deeper than ten archives, and no archive at the tenth level is expanded. |
| `DedupResults.ExpandsAboveTen` | src/commands/job/deduplicate/worker.rs:237-247 | An archive may be expanded if and only if it lies less than ten deep; otherwise it is a failure of its category. |
| `DedupResults.FirstInFirstOut` | src/commands/job/deduplicate/worker.rs:473-508 | In every interleaving the items taken and those still queued are the tasks in order and then the members of the archives in the order these were published. |
| `Checkpoint.CheckpointRows` | src/commands/job/deduplicate/worker.rs:673-689 | The rows written are the finished roots that pass the filter, in order, then the skipped AppleDouble roots, in order. |
| `Checkpoint.CheckpointIsSoundAndComplete` | src/commands/job/deduplicate/worker.rs:673-689 | In every interleaving a root is checkpointed if and only if it was a skipped AppleDouble object, or it finished, nothing descended from it failed, failed to open or dropped members, and it is a zip or was itself placed. |
| `Checkpoint.OneOutcomePerTask` | src/commands/job/deduplicate/worker.rs:488-594 | Distinct top-level tasks have exactly one outcome each. |
| `Checkpoint.PlacedFileIsOwn` | src/commands/job/deduplicate/worker.rs:675-678 | When member keys stay apart from top-level keys, the placed file that lets a root through is the root's own. |
| `Checkpoint.FinishedBeforeItsMembersRun` | src/commands/job/deduplicate/worker.rs:502-508 | Filtering before the drain would be unsound: a zip root is finished and untainted while its member still waits. |
| `DedupRun.MarkedIffDone` | src/commands/job/deduplicate/worker.rs:604-691 | From tasks to checkpoint, in every interleaving and for every way placement can go: a root is checkpointed if and only if it was a skipped AppleDouble object, or it finished, nothing reached from it by expanding zips was lost, and it is a zip or its own file came through placement. |
| `DedupRun.UnplacedFileHoldsRootBackIff` | src/commands/job/deduplicate/dedup.rs:80-85 | A hashed file that did not come through placement leaves its root unmarked, to be retried as documented, if and only if it is the root's own file or the root lost something anyway. |
| `DedupRun.UnplacedMemberIsForgotten` | src/commands/job/deduplicate/worker.rs:675-681 | The failing run: a zip with one member that cannot be placed is checkpointed all the same. |
| `Placement.UniquePath` | src/core/data.rs:150-173 | Ends, and returns the desired path when free, else the first free numbered one. |
| `Placement.InOrderSorts` | src/commands/job/deduplicate/dedup.rs:92-96 | A permutation of the files in the order of their keys; files with equal keys keep their order. |
| `Placement.DatedFirst` | src/commands/job/deduplicate/dedup.rs:92-96 | In that order every file with a known date comes before every file whose name starts with `0000-00-00-`, and within either kind the keys ascend in byte order. |
| `Placement.CandidateLooksLike` | src/core/data.rs:158-171 | A numbered name is the stem, a dash, the number and the extension, in the same directory. |
| `Keys.MemberName` | src/commands/job/deduplicate/manifest.rs:29-31 | A member's name is what follows the last separator of its key and the last slash after it. |
| `Keys.ZipByExtension` | src/commands/job/deduplicate/manifest.rs:39-45 | A key is a zip if and only if the last extension of its name is `zip` in any case. |
| `Placement.Placer.PlaceOne` | src/commands/job/deduplicate/dedup.rs:150-185 | A moved file lands on the first free path for its name, with its content, and nothing else changes in the tree; the index file and map change by that file's commit. |
| `Placement.Placer.PlaceAndReport` | src/commands/job/deduplicate/dedup.rs:86-148 | The loop computes the pass that the lemmas below are about: tree, map, index file, counts, records and finished files. |
| `PlacementResults.PassKeeps` | src/commands/job/deduplicate/dedup.rs:72-148 | Placed + duplicates + failed = files; nothing is overwritten or forgotten; the index names paths that hold the content it says; every merge record points at the live entry of its hash; a new hash keeps the least finished key under (undated, key). |
| `PlacementResults.LaterDuplicate` | src/commands/job/deduplicate/dedup.rs:105-121 | A file that comes later in order cannot displace the kept one. |
| `PlacementResults.EntriesAreIndexed` | src/commands/job/deduplicate/dedup.rs:105-142 | The index holds a hash after a pass if and only if it did before or a file of that content was committed. |
| `PlacementResults.MovesAre` | src/commands/job/deduplicate/dedup.rs:122-142 | A pass moves exactly the files whose hash the index does not hold at their turn and whose move works, in order. |
| `PlacementResults.TreeGainsMoves` | src/commands/job/deduplicate/dedup.rs:164-172 | The tree gains one new path for each move, with the moved content, and changes in no other way. |
| `PlacementResults.OneCopyIffNotMovedAgain` | src/commands/job/deduplicate/dedup.rs:150-185 | A pass leaves one copy per content if and only if it found one and moves no file whose content the tree holds already, unindexed: left by an earlier run, or moved before without a commit that worked. |
| `PlacementResults.FailedCommitLeavesTwoCopies` | src/commands/job/deduplicate/dedup.rs:166-185 | The failing pass: after a failed commit the next file of that content gets a second path. |
| `PlacementResults.IndexSurvivesPassIffKept` | src/core/data.rs:132-146 | After a pass, from any index file, the map is what a restart would load if and only if its commits kept the two together in that sense. |
| `PlacementResults.PlacementPhase` | src/commands/job/deduplicate/worker.rs:664-671 | Loading the index and placing every file, with all of the above for its result. |
| `ContentIndexFile.AppendIsInsert` | src/core/data.rs:119-146 | Appending a clean record's row and loading again is inserting the record. |
| `ContentIndexFile.SurvivesRestartIffClean` | src/core/data.rs:132-136 | A record reads back from its row if and only if no tab, newline or trailing carriage return is in the wrong field. |
| `ContentIndexFile.TornRowDecodes` | src/core/data.rs:56-84 | What a row cut at any character loads as: nothing within the hash, a live record with its remaining fields cut or blank after it. |
| `ContentIndexFile.CommitReloads` | src/core/data.rs:119-146 | What a restart would load after a commit that worked, failed or stopped part way. |
| `ContentIndexFile.TornCommitIsHarmlessIff` | src/core/data.rs:132-146 | After a failed write the map is what a restart would load if and only if the piece did not get past the hash. |
| `ContentIndexFile.GluedCommit` | src/core/data.rs:127-136 | After a row torn in its path the next commit is glued to it: its record is lost, and the torn one gets two names run together as its path. |
| `ContentIndexFile.NewRecordIsKeptIffTerminated` | src/core/data.rs:127-146 | A record of a new hash reads back if and only if its row starts on a line of its own. |
| `ContentIndexRestarts.MapIsFileIffKept` | src/core/data.rs:46-146 | From any loaded file, and after any sequence of commits of new hashes, the map is what a restart would load if and only if: when the file ended inside a row torn past its hash, no commit wrote anything; otherwise no failed write got past its hash, and none that left anything, in this run or at the end of the file, was followed by a commit that worked. |
| `ContentIndexRestarts.DisagreementIsForGood` | src/core/data.rs:119-146 | Once the map and the file disagree, no later commit brings them together. |
| `ContentIndexRestarts.RecordGrows` | src/core/data.rs:127-136 | Whatever is appended to an unfinished line that is a record makes that record larger, or one of a hash that is too long. |
| `ContentIndexFile.LegacyRowsDecode` | src/core/data.rs:56-84 | Two- and three-field rows and the space-separated form decode with the missing fields blank. |
| `ContentIndexFile.ContentIndex.Commit` | src/core/data.rs:119-146 | The map and the file after each way a commit can go, what a restart would load then, and that the index stays valid if and only if the write left nothing behind or a whole row. |
| `LedgerFile.ParseIsEarliest` | src/commands/job/email_import/ledger.rs:62-83 | Parsing yields exactly the keys with a row, each with its earliest time. |
| `LedgerFile.ParseLineIff` | src/commands/job/email_import/ledger.rs:68-81 | A line is a row if and only if it is no comment and has four tab-separated fields, of which the second and third are 32-bit numbers; the entry is those fields. |
| `Text.StrLeIsLexicographic` | src/commands/job/email_import/ledger.rs:96-102 | Times compare as strings: a prefix comes first, otherwise the first different character decides. |
| `Text.LineEndings` | src/commands/job/email_import/ledger.rs:63-67 | A line ends in a newline, or a carriage return and a newline, and only one carriage return is dropped. |
| `Text.SpellingsOfU32` | src/commands/job/email_import/ledger.rs:75-79 | A leading plus changes nothing; a number of 2^32 or more, an empty field and any other character make it no number. |
| `LedgerFile.OrderAndRepetitionDoNotMatter` | src/commands/job/email_import/ledger.rs:94-104 | Two texts with the same set of lines parse to the same ledger. |
| `LedgerFile.RowParses` | src/commands/job/email_import/ledger.rs:68-81 | A well-formed row parses to its own entry. |
| `LedgerFile.ReadsBackIffWritable` | src/commands/job/email_import/ledger.rs:410-414 | A row alone reads back as its entry if and only if its fields hold no separator, the mailbox does not start with `#`, the numbers fit 32 bits and the time does not end in a carriage return. |
| `LedgerFile.AppendIsInsert` | src/commands/job/email_import/ledger.rs:400-416 | Appending a row to a text that ends on a line boundary, then parsing, is inserting the entry. |
| `LedgerFile.SerializeParses` | src/commands/job/email_import/ledger.rs:85-92 | A serialized ledger parses to itself, whatever the order of its rows. |
| `LedgerFile.TornRow` | src/commands/job/email_import/ledger.rs:56-61 | A row cut at any character is no row, or still carries its own key. |
| `LedgerFile.TornAppend` | src/commands/job/email_import/ledger.rs:56-61 | A final row torn at any character vanishes or yields its own key with a shortened time, and changes no other key. |
| `LedgerFile.AppendedParses` | src/commands/job/email_import/ledger.rs:400-416 | Parsing after an append that worked, failed or stopped part way. |
| `LedgerFile.NewRowIsRecordedIffTerminated` | src/commands/job/email_import/ledger.rs:400-416 | A row whose key is new is recorded if and only if the text it is appended to ends on a line boundary. |
| `LedgerFile.GluedRow` | src/commands/job/email_import/ledger.rs:68-74 | A row glued to an unterminated piece is lost when the piece holds a tab, and otherwise reads as a key that was never delivered. |
| `LedgerFile.RowAfterTornRowForgesKey` | src/commands/job/email_import/ledger.rs:400-416 | The counterexample in full: after a torn mailbox name, the appended message is recorded under a key that was never delivered. |
| `LedgerFile.AppendIsHonestIff` | src/commands/job/email_import/ledger.rs:400-416 | An append to any text loses no key and adds none but its own if and only if it starts on a line boundary, or leaves the unfinished line standing for the same key or none, or makes that line a row the ledger has anyway. |
| `LedgerFile.GluedRowIsHarmlessIff` | src/commands/job/email_import/ledger.rs:400-416 | A whole row written after an unfinished line is harmless if and only if that line is no row and has a tab already. |
| `LedgerSeed.SeedFromListing` | src/commands/job/email_import/ledger.rs:143-186 | The loops compute the seeded ledger, and the relpaths with more than one mailbox. |
| `LedgerSeed.SeededIffListed` | src/commands/job/email_import/ledger.rs:164-184 | A key is seeded if and only if a listed path names it and exactly one mailbox owns the path's directory. |
| `LedgerSeed.SeedKeyIff` | src/commands/job/email_import/ledger.rs:164-184 | A listed path seeds a key if and only if exactly one mailbox goes to its directory: the key has that mailbox's name, its current UIDVALIDITY and the path's number. |
| `LedgerSeed.SharedDirectorySeedsNothing` | src/commands/job/email_import/ledger.rs:138-142 | A directory that two mailboxes go to seeds nothing for either. |
| `LedgerSeed.ListedIff` | src/commands/job/email_import/ledger.rs:165-171 | A path names a message if and only if it is a directory, a slash, a 32-bit number and `.eml`, where the directory and slash may be missing. |
| `LedgerSeed.EmlPathIsListed` | src/commands/job/email_import/ledger.rs:165-171 | The path a message's `.eml` is pushed to reads back as its mailbox path and UID. |
| `LedgerSeed.PushedIsSeeded` | src/commands/job/email_import/ledger.rs:131-142 | Every message already pushed for a mailbox alone on its path is seeded. |
| `LedgerSync.LedgerSync.Append` | src/commands/job/email_import/ledger.rs:400-416 | The working copy changes by one row or a piece of it and covers the durable copy whatever becomes of the write; the durable copy is untouched. |
| `LedgerSync.LedgerSync.Flush` | src/commands/job/email_import/ledger.rs:419-444 | A flush that works makes the working copy durable; one that fails changes nothing. |
| `LedgerSync.LedgerSync.constructor` | src/commands/job/email_import/mod.rs:237-245 | A working copy just written from the loaded ledger holds exactly its entries and covers the durable copy. |
| `Delivery.Courier.PushWithGate` | src/commands/job/email_import/worker.rs:693-713 | Pushes until a reply that is final; only an unreachable destination that the gate says to retry is asked again. |
| `Delivery.VerdictIsFirstFinalReply` | src/commands/job/email_import/worker.rs:694-712 | The verdict on an object is the first reply that is not a retry, and gives up as gated only when the gate did. |
| `Delivery.Courier.DeliverOne` | src/commands/job/email_import/worker.rs:559-683 | A message counts as delivered exactly when what arrived is its `.eml` followed by all its attachments, in order (nothing after the `.eml` if extraction failed); otherwise a proper prefix of that arrived. It is recorded exactly when it counts as delivered and the append works; exactly one of delivered and failed is counted, under its cause; a message without a file fails without a push. |
| `Delivery.CourseFollows` | src/commands/job/email_import/worker.rs:631-645 | In the destination's own replies: one object arrived for each reply that says so; the first refusal, or unreachable reply at which the gate gave up, ends the message; and it is cut short only where the replies end. |
| `Delivery.TotalsAreSums` | src/commands/job/email_import/worker.rs:533-543 | Every counter of a batch, the five causes included, is the sum of that counter over its messages. |
| `ImportDelivery.DeliverInRun` | src/commands/job/email_import/worker.rs:620-676 | Delivering a message is a run of the import's events, each allowed where it comes: a push for each object that arrived, then the record if all did and the giving up if one did not. It ends in the state the durability results are about, and the program counts a delivery exactly when the run records one. |
| `ImportDelivery.CarriedObjects` | src/commands/job/email_import/worker.rs:605-619 | A message whose keys are made from its mailbox's path, its UID and its attachments' names has exactly the objects the durability results are about, in order; a failed extraction has no attachments. |
| `ImportDelivery.AttachmentsLieBesideTheEml` | src/commands/job/email_import/worker.rs:606-618 | An attachment's key is its message's key without `.eml`, then `/attachments/` and its name. |
| `ImportDelivery.MissingFileGivesUp` | src/commands/job/email_import/worker.rs:573-586 | A message whose file is missing after the fetch is given up without a push. |
| `Delivery.TotalsBalance` | src/commands/job/email_import/worker.rs:533-543 | Summed outcomes still balance: delivered + failed = messages, failed = the five causes, gate give-ups within failed. |
| `ImportQueue.RunInv` | src/commands/job/email_import/worker.rs:217-383 | In every interleaving each planned batch is queued, held or closed, as often as it was planned; attempts used and left stay within four per batch; every worker's counters balance. |
| `ImportQueue.FewAttempts` | src/commands/job/email_import/worker.rs:171-182 | An upper bound by batch: at most BATCH_RETRIES + 1 attempts for each time it was planned. How many are made exactly is `ImportAttempts.RetriedUntilFinished`. |
| `ImportQueue.DrainedAndAccounted` | src/commands/job/email_import/worker.rs:392-432 | Once all workers have exited the queue is empty, each planned batch was closed exactly once, and in the summary delivered + failed = planned messages, failed = the sum of its five causes, and gate give-ups are at most failed. |
| `ImportQueue.RunIsBounded` | src/commands/job/email_import/worker.rs:221-225 | No schedule gets more than twelve steps per batch and one per worker out of a run. |
| `ImportQueue.StepsAreBounded` | src/commands/job/email_import/worker.rs:168-182 | Every step of a worker that has not exited uses up the measure of attempts left. |
| `ImportAttempts.RetriedUntilFinished` | src/commands/job/email_import/worker.rs:168-182 | Over every run and for every planned batch: all attempts but the last failed without a gate give-up, and it leaves the run at its first success, at the first give-up of the gate, or at attempt BATCH_RETRIES + 1, and at no other time. |
| `ImportAttempts.EveryBatchIsFinished` | src/commands/job/email_import/worker.rs:255-277 | Once all workers have exited, every planned batch was tried until it worked, the gate gave up or its four attempts were used. |
| `ImportAttempts.SummaryIsCredits` | src/commands/job/email_import/worker.rs:326-340 | However the workers interleave, the summary is the sum of what each attempt counts. |
| `ImportAttempts.CreditIs` | src/commands/job/email_import/worker.rs:392-432 | What an attempt counts: nothing when its batch is tried again; every message of the batch as failed, under the step that failed, and once more when the gate gave up; its messages' own outcomes when it worked. |
| `ImportAttempts.FirstInFirstOut` | src/commands/job/email_import/worker.rs:221-225 | In every interleaving the batches taken and those still queued are the planned ones in order, then the requeued ones in order. |
| `ImportAttempts.FirstTakesArePlanned` | src/commands/job/email_import/worker.rs:405-411 | Batches are first taken in the planned order, each before any batch is taken again. |
| `ImportRuns.RowsAreBacked` | src/commands/job/email_import/worker.rs:647-669 | In every run with crashes, restarts, harmless appends and failed or late uploads, each row of the durable ledger, its working copy and every upload stands for a message all of whose objects were pushed, or one seeded from a listed `.eml`. |
| `ImportRuns.DeliveredOrPending` | src/commands/job/email_import/mod.rs:223-281 | At every start, a message on the server that the run does not set out to fetch has reached the destination: all its objects were pushed, or its `.eml` was listed. |
| `ImportRuns.DurableGrows` | src/commands/job/email_import/ledger.rs:376-382 | With harmless appends and uploads that land in the order of their snapshots, the durable ledger never loses a key, over any number of restarts, and never knows one its working copy does not. |
| `ImportLosses.LocalGainsRowsLeft` | src/commands/job/email_import/ledger.rs:400-416 | Within a process the working copy gains exactly the keys of the rows left, none of which it had. |
| `ImportLosses.LateUploadLosesRowsLeft` | src/commands/job/email_import/ledger.rs:419-444 | A snapshot that lands after a later one of the same process costs the durable ledger exactly the rows left between the two, so it loses nothing if and only if there were none. |
| `ImportLosses.NewerUploadLosesNothing` | src/commands/job/email_import/ledger.rs:419-444 | A snapshot that lands after an earlier one of the same process loses nothing. |
| `ImportLosses.RecordIsHonestIff` | src/commands/job/email_import/ledger.rs:400-416 | After any harmless history, an append loses no key and leaves every row standing for a delivered or seeded message if and only if it is harmless, or forges the key of a message delivered or seeded anyway. |
| `ImportLosses.LateUploadLosesKey` | src/commands/job/email_import/worker.rs:940-948 | A failing run: an upload of the aborted periodic flush lands after the final one, and a delivered message's key is gone. |
| `ImportLosses.LeftoverUploadIsFlushedAway` | src/commands/job/email_import/mod.rs:237-245 | A failing run: an upload left behind by a dead process lands after the next one has started, which flushes its key away. |
| `ImportLosses.TornTimeLosesKey` | src/commands/job/email_import/ledger.rs:400-444 | A failing run with every upload in order: a row torn inside its time is durable after one flush and gone after the next. |
| `ImportLosses.TornNameForgesKey` | src/commands/job/email_import/ledger.rs:400-416 | A failing run: a row torn inside its mailbox name makes the next one a row for a message never delivered nor seeded. |
| `ImportLosses.OwnObjectsIffWroteLast` | src/commands/job/email_import/worker.rs:605-645 | In every reachable state, whatever else was written to the destination, a delivered message has its own objects if and only if each of their paths was last written by a push of that message. |
| `ImportOrigins.LocalIsKnown` | src/commands/job/email_import/ledger.rs:376-416 | At every moment of a process its working copy has exactly the keys it loaded and those of the rows it left. |
| `ImportOrigins.LandingLosesExactly` | src/commands/job/email_import/ledger.rs:419-444 | An upload made at any moment of any process, landing over a ledger made at any other, loses exactly what that one knew and this one did not. |
| `ImportOrigins.FlushOverLeftover` | src/commands/job/email_import/mod.rs:237-245 | A flush that lands after an upload left by an earlier process loses exactly the leftover keys that its process neither loaded nor recorded. |
| `ImportOrigins.LeftoverOverFlush` | src/commands/job/email_import/worker.rs:940-948 | A leftover that lands after the new process's flush loses exactly what that process loaded or recorded and the leftover lacks. |
| `ImportOrigins.TextsHaveOrigins` | src/commands/job/email_import/ledger.rs:301-444 | In every harmless history the durable ledger and every upload under way are the working copy of some earlier moment of it. |
| `ImportOrigins.DurableNeverShrinksIff` | src/commands/job/email_import/ledger.rs:376-444 | Over a whole harmless history of any number of processes, with uploads landing in any order, the durable ledger never loses a key if and only if every upload that lands was made at a moment that knew all that the durable one's did. |
| `ImportRuns.StartIsBacked` | src/commands/job/email_import/ledger.rs:301-364 | A start loads the durable ledger or seeds one, and its working copy parses to exactly that. |
| `ImportRuns.StartFetchesTheRest` | src/commands/job/email_import/ledger.rs:301-364 | A start sets out to fetch exactly the server's messages without a row in the durable ledger or, when there is none, without a listed path that names them; a first ledger is durable at once, and an existing one is left as it is. |
| `Chunking.ChunksCover` | src/commands/job/email_import/manifest.rs:48-55 | Batches cut a UID list up without losing, repeating or reordering any. |
| `Planning.BatchesAreFull` | src/commands/job/email_import/manifest.rs:48-55 | Every batch of a mailbox but the last has the batch size, and a size of zero counts as one. |
| `Planning.AscendingLists` | src/commands/job/email_import/sink.rs:110-114 | Each missing UID is listed once and no other is. |
| `Planning.AscendingSorts` | src/commands/job/email_import/sink.rs:110-114 | Missing UIDs are in increasing order. |
| `Planning.MailboxPlanIsExact` | src/commands/job/email_import/mod.rs:268-281 | A mailbox's batches carry a message once if the server has it and the ledger does not under the current UIDVALIDITY, and not at all otherwise. |
| `Planning.IdentityPlanIsExact` | src/commands/job/email_import/mod.rs:308-322 | The same for all the mailboxes of an identity. |
| `Planning.Interleave` | src/commands/job/email_import/worker.rs:797-813 | The popping loops build the round-robin order. |
| `Planning.InterleavingPermutes` | src/commands/job/email_import/worker.rs:797-813 | Interleaving loses and repeats no batch. |
| `Planning.InterleavingKeepsOrder` | src/commands/job/email_import/worker.rs:797-813 | An identity's batches keep their order. |
| `Planning.InterleavingIsFair` | src/commands/job/email_import/worker.rs:794-813 | Exactly how many batches of each other identity precede an identity's n-th batch. |
| `Planning.AtMostOneBetween` | src/commands/job/email_import/worker.rs:794-813 | Between two consecutive batches of one identity there is at most one of any other. |
| `Planning.PlanIsExact` | src/commands/job/email_import/mod.rs:268-322 | The initial queue carries each message of each identity that is not yet delivered exactly once, and nothing else. |
| `Planning.EveryPendingMessageIsSettledOnce` | src/commands/job/email_import/worker.rs:920-938 | From plan to summary: in every interleaving each pending message is settled in exactly one batch and no other message is. |
| `Planning.PendingIsServerMinusLedger` | src/commands/job/email_import/mod.rs:286-305 | What is planned is the server's messages without the ledger's keys. |
| `Planning.WorkerCount` | src/commands/job/email_import/worker.rs:824-826 | At least one worker, and no more than batches unless there are none. |
| `Planning.WorkersAreEnough` | src/commands/job/email_import/worker.rs:824-826 | With something to do there are as many workers as connections times identities, or as batches if those are fewer. |
| `Pacer.IntervalMeetsRate` | src/commands/job/email_import/pace.rs:39-45 | rate * interval <= one minute < rate * (interval + 1 ns), for every rate from 1 below 2^32. |
| `Pacer.PanicsIffMultipleOfU32` | src/commands/job/email_import/pace.rs:39-45 | The division panics if and only if the rate is a positive multiple of 2^32, although the clamp is documented to rule it out; a zero rate is one message a minute. |
| `Pacer.IntervalIsPositive` | src/commands/job/email_import/pace.rs:39-45 | No rate that works is unlimited. |
| `Pacer.LargeRatesWrap` | src/commands/job/email_import/pace.rs:39-45 | A rate above 2^32 counts modulo 2^32. |
| `Pacer.Pacer.Acquire` | src/commands/job/email_import/pace.rs:68-81 | The caller waits until the later of now and the end of all earlier windows, and the next may go one interval later for each of its messages, an empty batch counting as one and 2^32 or more modulo 2^32; the windows so far are the schedule of the requests so far. |
| `Pacer.ScheduleIsAdmissible` | src/commands/job/email_import/pace.rs:25-37 | Windows are disjoint and ordered, as wide as their requests pay for, and open no earlier than their request. |
| `Pacer.WindowFitsIff` | src/commands/job/email_import/pace.rs:68-81 | A batch's window holds an interval for each of its messages if and only if their number fits 32 bits. |
| `Pacer.BatchesAreSpaced` | src/commands/job/email_import/pace.rs:14-37 | Between the openings of any two batches there is an interval for every message of the one and of all between them. |
| `Pacer.ScheduleIsEarliest` | src/commands/job/email_import/pace.rs:25-37 | No admissible schedule opens any window earlier. |
| `Pacer.RateIsBounded` | src/commands/job/email_import/pace.rs:14-24 | In any span the slots of the windows opening in it, without the last of them, take less than the span. |
| `Pacer.MessagesPerSpan` | src/commands/job/email_import/pace.rs:14-24 | The messages of the batches that open in a span of time, without the last batch, are at most its length over the interval; idle time is never paid back. |
| `Pacer.SpanIsConsecutive` | src/commands/job/email_import/pace.rs:14-24 | The batches that open within a span are consecutive requests. |
| `Pacer.HugeBatchIsNotPaced` | src/commands/job/email_import/pace.rs:68-81 | The counterexample beyond 32 bits: a batch of 2^32 messages gets a window without width. |
| `RecoveryGate.RunInv` | src/commands/job/email_import/gate.rs:110-164 | In every interleaving the prober holds the lock, sleeps the current round, and the total pause is that of the finished rounds. |
| `RecoveryGate.AtMostOneProber` | src/commands/job/email_import/gate.rs:111-112 | At most one task probes at a time. |
| `RecoveryGate.PauseBudget` | src/commands/job/email_import/gate.rs:121-138 | All tasks together pause at most backoff * max * (max + 1) / 2. |
| `RecoveryGate.GivesUpOnlyWhenSpent` | src/commands/job/email_import/gate.rs:121-125 | A decision is to give up if and only if the rounds are used up, and by then the whole budget has been slept. |
| `RecoveryGate.RoundsNeverDecrease` | src/commands/job/email_import/gate.rs:83-85 | The round counter never goes back. |
| `RecoveryGate.LatchIsFinal` | src/commands/job/email_import/gate.rs:157-161 | Once the rounds are used up every later decision is to give up. |
| `Archive.Extraction.CopyCapped` | src/commands/job/archive.rs:187-213 | An entry is copied if and only if it reads to its end and is empty or fits what is left; the total passes the budget by at most one chunk. |
| `Archive.ExpandToDir` | src/commands/job/archive.rs:116-177 | Members are exactly the survivors in order; members + dropped = entries that are neither directories nor skipped; bytes written stay within the budget plus one chunk per dropped member. |
| `Archive.SurvivingBytesFit` | src/commands/job/archive.rs:102-115 | The surviving bytes fit the budget. |
| `Archive.ChunkingDoesNotMatter` | src/commands/job/archive.rs:193-212 | Which members survive depends on their sizes only, not on how reads are cut up. |
| `Archive.BudgetIs` | src/commands/job/archive.rs:125-129 | The budget is a hundred times the archive's size, or the largest 64-bit number. |
| `Archive.SkippedAre` | src/commands/job/archive.rs:89-100 | Everything below a `.git`, `node_modules` or `__MACOSX` directory and every sidecar file is skipped, in any directory. |
| `Archive.OthersAreNot` | src/commands/job/archive.rs:89-100 | A file whose path has none of these names is not. |
| `Bisect.CountNewAttachments` | src/commands/job/email_scan/bodystructure.rs:120-150 | Ends for any behaviour of the server with at most 2n requests, and with one for each fifty messages when none fails; settles every UID once, in order; gives up on single messages only; against a server that fails exactly the batches with an unparseable message, both counts are exact. |
| `Bisect.BisectStep` | src/commands/job/email_scan/bodystructure.rs:107-116 | A retried batch is split in two non-empty parts that make it up and differ in size by at most one. |
| `Icns.LargestEntry` | src/commands/job/transform/icns.rs:72-113 | The result has at least the nominal size of every image of a well-formed container, and at least the payload of those of its size, and is the first such; otherwise the error of the first thing wrong. |
| `Icns.NominalSizesAre` | src/commands/job/transform/icns.rs:47-58 | The size of each of the eleven type codes, by their four characters, and of no other. |
| `Icns.EncodingsAre` | src/commands/job/transform/icns.rs:60-68 | A payload is a PNG or a JPEG 2000 by its first bytes, and nothing else is an image. |
| `Icns.WrittenReads` | src/commands/job/transform/icns.rs:79-110 | Every container reads back as the entries it was written from. |

## Left out

- Subprocesses and the network (rclone, IMAP sessions, zip decoding, hashing, JSON): each is an oracle or a fallible step.
- Wizards, command-line definitions, progress bars, tracing, metrics and report texts: user interface. The tailer's warnings are kept as a list; its `step` label is not modelled.
- Worker panics and lock poisoning: the run then returns an error, and the results are about runs without one.
- The gate's parking: a task that loses the election may go on at any time. Tasks cancelled while they sleep, and a round number over 2^32, are left out too.
- The import's `--legacy` mode and its `.pushed` checkpoint: its rows with two or three fields have no protection against torn rows.
- Two imports of one identity from two hosts: the last flush wins.
- Error texts: errors are an enumeration of their causes.
- LzoDecoder.Decompress: additions that the source leaves unchecked are on unbounded integers, since only inputs of about 2^56 bytes could overflow them; the capacity reserved for the output is not modelled.
- RcloneTailer.Tailer.Poll: the offset counts characters of the text read, not bytes.
- DedupPool.RunInv: each lock section is one step, and the pause between two looks at an empty queue is not timed.
- Placement.UniquePath: the cap on a file name's length is a parameter; names are the ones the cap returns.
- Keys with a trailing slash: `Path::file_name` drops it, the model does not.
- LedgerSync.LedgerSync.Flush: the upload is one step here; late uploads are in `ImportRuns` and `ImportLosses`.
- ImportRuns.DurableGrows: its two conditions can be read off a history and are enough; the exact condition is `ImportOrigins.DurableNeverShrinksIff`.
- Delivery.Courier.DeliverOne: the removal of local copies is not modelled, and a push that reports failure is taken not to have arrived.
- Archive.ExpandToDir: the numbered file names, and bytes of a write that fails part way, are not modelled.
- Bisect.CountNewAttachments: counting the attachment parts of one message's structure is an oracle, and so is the cap on how many messages are looked at.
- The other transforms, quality tables, slugs, address rules and `strip_defs`: finite tables, easy members or heuristics.
