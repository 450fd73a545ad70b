# RedlineDB verification

A Dafny model of the parts of RedlineDB where a small mistake would corrupt data or lose it
quietly, with proofs of what those parts promise. `dafny verify dfyconfig.toml` checks everything.

| files | what they model |
|---|---|
| `Mvcc`, `SnapshotReads`, `SnapshotTheorems`, `SnapshotAnomalies` | the storage kernel's snapshot reads: commit numbers, version chains, writes and vacuum, as steps of any number of transactions, against a journal that is never pruned |
| `Registry` | the process-wide open registry: a double-checked open over weak entries and weak locks, keyed by one of the spellings of a directory |
| `Pool` | the connection pool: a lock, a condition variable, an idle list and a counter |
| `AtomicFile`, `Backup` | the write-sync-rename-sync protocol and the order of a backup's steps, on a file system that loses what was not synced |
| `Retention`, `RetentionAlone`, `RetentionRuns` | replication slots and the persisted WAL horizon, call by call, under overlapping operations, failures and crashes |
| `SqlText`, `SqlParser`, `PrintedTokens`, `SqlRoundTrip`, `SqlPrecedence`, `SqlBytes`, `SqlEval`, `SqlMeaning` | the expression printer of the query builder; the tokenizer, parser and evaluator of the lite shell; printing and reading back, with all parentheses and with only those precedence needs |
| `Shell`, `ShellStatements` | statement splitting and dispatch of the lite shell; its SELECT without FROM, from text to printed row |
| `Calendar`, `DateTimeText` | civil dates, Unix seconds and Julian days; printing and reading date-times |
| `Utf8`, `Collation` | UTF-8 and texts indexed by byte; the built-in text collations |
| `Csv` | delimited output, against a reader of section 2 of RFC 4180 |
| `Checksum` | the bytes dataset digests are taken over, and the key fold |
| `Text` | machine integers, character classes, decimal notation, quoting and joining used by the others |

Concurrent code is modelled as a state machine: an action is one critical section, one system call
or one atomic access; `Enabled` says when a thread may take it; theorems quantify over every
sequence of actions from the initial state. Code that updates objects or loops over buffers is
modelled by classes and methods proved against the functions the theorems are about. Integer
widths are explicit where the source's results depend on them. `char` is a Unicode scalar value,
as in Rust; UTF-8 is spelled out where the source works on bytes.

## Where the source and its promises differ

Each of these has a concrete input or run, and the exact condition under which the promise holds.

- A write over a row whose newest version was aborted walks past versions committed after the
  writer's snapshot, so a committed update can be lost (`UpdateIsLost`). It is lost exactly when such
  a version exists (`WriteIsFaithfulExactly`).
- An insert replaces the chain of its row and has no undo to walk, so using the id of a deleted row
  again hides it from an older snapshot (`ReinsertHidesRow`). It does so exactly when some payload
  in the chain is not superseded for every reader (`InsertIsFaithfulExactly`). It can also lose a
  committed delete it has not seen (`InsertLosesUpdate`); no continuation loses one exactly when the
  inserter has seen every earlier write (`InsertKeepsUpdatesExactly`).
- A transaction takes its snapshot before it registers it. A vacuum horizon computed in between can
  prune what the snapshot needs (`UnregisteredReaderLosesRow`). A horizon covers every reader exactly
  when every running snapshot is at or above a registered one (`HorizonCoversExactly`), and vacuum
  keeps every read of a row exactly when it spares its readers (`VacuumIsFaithfulExactly`).
- An open with `create` off keeps the given spelling of a missing directory as its key. If another
  thread creates the directory meanwhile and one of the two does without the owner lock, both end
  with an instance of their own (`TwoInstances`).
  The first open of a directory is safe in every continuation exactly when it creates the directory,
  names it canonically, or finds something there (`OpenIsSafeExactly`). Instances that take the
  owner lock are never two (`OneOwnerPerDirectory`).
- A backup can crash into a state with a marker and no manifest if the destination already holds a
  completion marker (`OldMarkerOutlivesManifest`), or if the database has one that is copied along
  (`BackupOfABackup`). It is safe at every crash exactly when neither is so
  (`MarkerImpliesManifestExactly`).
- A slot creation that overlaps a checkpoint can leave the WAL horizon past the new slot
  (`OverlapPassesTheSlot`). A crash can bring back a removed slot (`CrashBringsSlotBack`), or the old
  position of one created again whose directory sync failed (`RecreationComesUndone`), below the
  horizon. A run is safe throughout exactly when no slot, no horizon and no undone change of a slot
  comes too late (`OverlapIsSafeExactly`).
- After a failed directory sync a crash takes the persisted horizon back (`HorizonComesUndone`). With
  one operation at a time it never moves back exactly when no crash undoes its writing, or brings
  back a lower file that a later recomputation finds (`MovesBackExactly`). Temporary files left by a
  failed creation count as slots, and hold the horizon back exactly when they name a lower position
  (`CompletedRecomputeIsTight`).
- The key fold misses a missing or repeated key exactly when the key is zero
  (`MissingKeyShowsExactly`, `ZeroKeyGoesUnnoticed`); its documentation says any such key flips a bit.
  It also calls the merging of payload hashes associative, which it need not be
  (`PayloadMergeIsNotAssociative`): but for collisions it is so exactly where both inner merges give
  back an operand (`PayloadMergeAssociatesExactly`).
- The lite shell reads a printed expression back exactly when every function name is an identifier
  other than `null`, no integer is `i64::MIN`, and every text is ASCII: string tokens are read byte
  by byte, and a minus sign is an operator (`ShellReadsBackExactly`, `SmallestIntegerIsNotRead`).
- `((-9223372036854775807 - 1) % -1)` has the value 0 but stops the shell
  (`SmallestModMinusOnePanics`). A printed expression does so exactly when dividing the smallest
  integer by minus one is its first subexpression without a value
  (`PrintedArithmeticPanicsExactly`).
- `from_unix` wraps the year outside 32 bits, and the leap day of 2147483796 comes out in a year that
  has none (`WrappedLeapDay`). The round trip holds exactly when the year fits
  (`ToUnixUndoesFromUnix`), and the result is a date exactly when it is not a leap day moved to a
  common year (`FromUnixIsValid`).
- The Julian day number inside `julian_day` gives -4800-02-29 and the day after it one number
  (`TwoDaysOneNumber`); it is one too large exactly in non-leap March-based years before -4800
  (`JulianDayNumberIsDayCount`). `is_formattable` admits half a day below the documented minimum
  Julian day 0 (`FormattableIsJulianRange`).
- UINT collation cannot tell apart digit runs of equal length exactly when they reach `usize::MAX`
  (`UintIdentifiesExactly`).
- CSV output prints some tables alike with the separator `::` or none (`LongSeparatorsCollide`,
  `EmptySeparatorCollides`). Of the separators without a quote or CR exactly those fail that are
  empty, or need no quoting and begin as they end (`SeparatorsThatWork`); of the single characters
  exactly the quote and CR (`OneCharacterSeparators`). A row without cells reads back as one empty
  cell (`TableReadsBack`).
- Tab output quotes a cell for its quotes and line breaks but not for the separator, so a cell that
  holds it can print like two cells (`TabsCollide`); it reads back when such a cell is quoted for
  another reason (`TabsReadBack`).

## Model

| member | source | states |
|---|---|---|
| Mvcc.Get | crates/kernel/src/engine/page_heap/mutation/read.rs:10-83 | the walk over head and undo records returns the payload of the first version the snapshot does not find invisible |
| Mvcc.FirstVisible | crates/kernel/src/engine/page_heap/mutation/read.rs:109-155 | the chosen base is visible and every newer version is invisible to the writer; none is chosen exactly when every visible version lies under a deleted one |
| Mvcc.AdvanceStopsAtFirstGap | crates/kernel/src/engine/tx/status.rs:277-289 | the published number moves over exactly the unbroken run of resolved numbers and forgets exactly those |
| Mvcc.CsnFrontier.CompleteCsn | crates/kernel/src/engine/tx/status.rs:263-268 | completing a number adds it and advances the frontier |
| Mvcc.CsnFrontier.SkipCsn | crates/kernel/src/engine/tx/status.rs:270-275 | cancelling a number adds it to the skipped ones and advances the frontier |
| Mvcc.CsnFrontier.AdvancePublished | crates/kernel/src/engine/tx/status.rs:277-289 | the loop computes the specified frontier |
| SnapshotReads.ReadIsReplay | crates/kernel/src/engine/page_heap/mutation/read.rs:10-83 | under the invariant, reading through versions and undo gives what replaying the journal at the snapshot gives |
| SnapshotReads.StepKeepsInv | crates/kernel/src/engine/runtime/commit.rs:35-160 | every guarded step (begin, snapshot, lock, insert, write, commit stages, abort, vacuum) keeps the invariant |
| SnapshotTheorems.TransactionsReadTheirSnapshot | crates/kernel/src/engine/page_heap/mutation/read.rs:10-83 | in every guarded run, every running transaction and every fresh reader reads the journal at its snapshot, plus its own writes |
| SnapshotTheorems.VisibilityIsStable | crates/kernel/src/engine/tx/status.rs:140-162 | no step changes which transactions a published snapshot sees |
| SnapshotTheorems.ReadsAreRepeatable | crates/kernel/src/engine/page_heap/mutation/read.rs:10-83 | along any guarded continuation, a transaction that keeps its snapshot and does not write the row reads the same value |
| SnapshotTheorems.VacuumSparesReaders | crates/kernel/src/engine/page_heap/directory/vacuum.rs:13-107 | in every run whose horizons are computed with every reader registered, vacuum spares every reader, so the run is guarded, and no snapshot is below the horizon or above the published number |
| SnapshotTheorems.HorizonIsDetermined | crates/kernel/src/engine/tx/status.rs:164-175 | whatever snapshots are registered, exactly one number is the horizon |
| SnapshotTheorems.HorizonCoversExactly | crates/kernel/src/engine/tx/status.rs:164-175 | a computed horizon is at or below every running snapshot if and only if each is at or above a registered one, or none is registered and each is the published one |
| SnapshotTheorems.NoLostUpdates | crates/kernel/src/engine/page_heap/mutation/read.rs:109-155 | in every guarded run, of two committed writers of a row, the later one's snapshot contains the earlier, and commit numbers follow write order |
| SnapshotTheorems.ReplayIsNewestCommit | crates/kernel/src/engine/tx/status.rs:154-162 | the entry a snapshot reads is the visible one with the highest commit number |
| SnapshotTheorems.PublishedIsBelowOldestUnresolved | crates/kernel/src/engine/tx/status.rs:88-107 | the published number is exactly the one below the oldest reserved and unresolved commit |
| SnapshotAnomalies.WriteIsFaithfulExactly | crates/kernel/src/engine/page_heap/mutation/read.rs:109-155 | a write keeps every snapshot's reads if and only if the writer's snapshot covers the committed versions of a row with an aborted head |
| SnapshotAnomalies.UpdateIsLost | crates/kernel/src/engine/page_heap/mutation/write/append.rs:12-60 | a run in which a published snapshot reads an older value after a write than before it |
| SnapshotAnomalies.UnregisteredReaderLosesRow | crates/kernel/src/engine/tx/status.rs:72-82 | a run in which vacuum removes a version an unregistered reader's snapshot needs |
| SnapshotAnomalies.VacuumIsFaithfulExactly | crates/kernel/src/engine/page_heap/directory/vacuum.rs:28-107 | vacuuming a row keeps every reader's reads if and only if it leaves the row alone or every running snapshot that reads something there is at or above its head |
| SnapshotAnomalies.VacuumReclaimsExactly | crates/kernel/src/engine/page_heap/directory/vacuum.rs:28-107 | vacuum removes a row if and only if its head is a delete committed below the horizon, cuts it to its head if and only if the head is a payload and all but the oldest version were written below the horizon, and touches nothing else |
| SnapshotAnomalies.InsertIsFaithfulExactly | crates/kernel/src/engine/page_heap/mutation/write/recovery.rs:45-71 | an insert keeps every reader's reads if and only if every payload others left in the chain is superseded for every reader |
| SnapshotAnomalies.InsertKeepsUpdatesExactly | crates/kernel/src/engine/page_heap/mutation/write/recovery.rs:45-71 | after an insert on a vacated row no guarded continuation loses a committed update, if and only if the inserter's snapshot contains every earlier write of the row that is not rolled back |
| SnapshotAnomalies.InsertLosesUpdate | crates/sql/src/exec/tail.rs:81-98 | a run in which an insert on a vacated row commits over a delete its snapshot does not contain |
| SnapshotAnomalies.ReinsertHidesRow | crates/sql/src/exec/tail.rs:81-98 | a run in which a registered snapshot no longer reads a row after its id is used again |
| Registry.Validate | crates/redlinedb/src/registry.rs:203-220 | an entry is accepted if and only if it equals the request up to being writable; Busy exactly for a read-only entry and a writable request |
| Registry.Maps.LookUp | crates/redlinedb/src/registry.rs:341-356 | the first critical section: a live entry is returned exactly when it equals the request up to being writable, and refused as busy exactly when it is read-only and otherwise equals a writable request; without a live entry the live lock of the key is reused or a new one registered |
| Registry.Maps.Insert | crates/redlinedb/src/registry.rs:405-408 | the new entry replaces what its key mapped to |
| Registry.StepKeepsInv | crates/redlinedb/src/registry.rs:237-408 | every step of every open, clone and drop keeps the registry invariant |
| Registry.LocksFollowKeys | crates/redlinedb/src/registry.rs:157-167 | in every run, two threads hold the same open lock if and only if they open under the same key |
| Registry.OpensAreExclusive | crates/redlinedb/src/registry.rs:358-408 | in every run, at most one thread per key is between taking the open lock and releasing it |
| Registry.OneLiveEntryPerKey | crates/redlinedb/src/registry.rs:341-408 | in every run, all live handles under a key hold the same entry |
| Registry.LiveEntryIsShared | crates/redlinedb/src/registry.rs:341-363 | in every run, an open that looks up or rechecks a key with a live handle is granted exactly that handle's entry when the entry was opened with the options requested, or with them but writable, and is granted nothing otherwise |
| Registry.DeadEntryIsReopened | crates/redlinedb/src/registry.rs:341-363 | in every run, an open that finds no live handle under its key is granted nothing and goes on to wait for the open lock, or holding it to open |
| Registry.GrantsServeTheRequest | crates/redlinedb/src/registry.rs:203-220 | every entry any open ever returned is for its key, has compatible options and is not read-only for a writable request |
| Registry.OneOpenPerDirectory | crates/redlinedb/src/registry.rs:365-408 | in every run in which no open that kept its own spelling finds the directory in place, at most one open of a directory is between its directory step and its entry |
| Registry.OneLiveEntryPerDirectory | crates/redlinedb/src/registry.rs:341-408 | in every such run, all live handles on a directory hold the same entry, however it was named |
| Registry.CreateRunsOnEmptyDirectory | crates/redlinedb/src/registry.rs:376-387 | in every such run, a database is created only while its directory is empty, at the moment the engine runs |
| Registry.OneOwnerPerDirectory | crates/redlinedb/src/registry.rs:388-392 | in every run without sessions in the directory, all live handles whose entry holds the owner lock hold the same entry, under all spellings |
| Registry.StraySplitsDirectory | crates/redlinedb/src/registry.rs:311-339 | from every state in which the directory is missing and idle, an open with `create` off under another spelling has a continuation to two live entries |
| Registry.TwoInstances | crates/redlinedb/src/registry.rs:311-339 | that run from a fresh process |
| Registry.OpenIsSafeExactly | crates/redlinedb/src/registry.rs:311-339 | the first open of an idle directory leaves at most one live entry in every continuation if and only if it creates the directory, names it canonically or finds something there |
| Registry.ImagesAreRecovered | crates/redlinedb/src/registry.rs:366-387 | once a directory no session uses holds anything, every later state keeps it so and every later choice is recovery, under all spellings |
| Registry.ChangedFiles | crates/redlinedb/src/registry.rs:311-387 | without an open lock an open only turns a missing or plain-file path into an empty directory |
| Registry.SessionsStartAfresh | crates/redlinedb/src/registry.rs:276-290 | a named session starts in an empty directory, a private one keeps a directory it finds, a plain file fails either; both always create, and a failed engine leaves nothing |
| Registry.StartsExactly | crates/redlinedb/src/registry.rs:311-339 | an open goes on if and only if its path is no plain file, or an empty one it may replace; it leaves an empty directory exactly where it creates one, and takes the canonical key unless the directory stays missing |
| Registry.OpensCreateExactly | crates/redlinedb/src/registry.rs:366-387 | an open passes its directory step if and only if the path is a directory, or missing and to be created, or a plain file and not to be created; it creates if and only if it may and the directory is empty |
| Registry.EngineFillsDirectory | crates/redlinedb/src/registry.rs:376-387 | a database that is created fills its directory, one that is recovered or fails leaves it empty only if it was and nothing was written |
| Pool.PoolInner.constructor | crates/redlinedb/src/pool.rs:49-52 | the limit is at least one and the pool starts empty |
| Pool.PoolInner.TryAcquire | crates/redlinedb/src/pool.rs:144-179 | one turn of the acquire loop: the last idle connection, a free slot, or a wait |
| Pool.PoolInner.ConnectFailed | crates/redlinedb/src/pool.rs:165-171 | a failed connect gives its slot back |
| Pool.PoolInner.Release | crates/redlinedb/src/pool.rs:239-243 | a returned connection becomes idle and its slot is given back |
| Pool.StepKeepsInv | crates/redlinedb/src/pool.rs:138-246 | every step of callers, waiters, connects and drops keeps the pool invariant |
| Pool.SlotsAreAccounted | crates/redlinedb/src/pool.rs:112-115 | in every run the counter equals guards, returns and connects under way, in use plus idle is at most the limit, the subtractions never reach zero, and every connection ever opened is in exactly one place |
| Pool.GuardsAreExclusive | crates/redlinedb/src/pool.rs:144-180 | in every run a checked-out connection is nowhere else, and an idle one is outside a transaction unless its rollback failed |
| Pool.TransactionsAreRolledBack | crates/redlinedb/src/pool.rs:233-238 | in every run a connection is inside a transaction, if and only if its last use left it there and no return since then rolled it back |
| Pool.WakeupsCoverFreeSlots | crates/redlinedb/src/pool.rs:138-246 | in every run with a sleeper, notified threads on their way number at least the free slots |
| Pool.SleepersWaitForGuards | crates/redlinedb/src/pool.rs:138-246 | in every run, when every thread left is asleep all slots are held by callers' guards |
| AtomicFile.StepKeepsInv | crates/redlinedb/src/phase8.rs:634-675 | every call of an atomic write, failure, deletion, copy and crash keeps every possible crash outcome whole, but for the names last filled by a copy |
| AtomicFile.NothingIsTorn | crates/redlinedb/src/phase8.rs:634-675 | after any run and any crash, a target name not last filled by a copy holds bytes that were written to it whole, or nothing |
| AtomicFile.OldOrNew | crates/redlinedb/src/phase8.rs:634-654 | a crash between any two calls of a write finds the target as it might have been before, or complete and new |
| AtomicFile.WriteSettles | crates/redlinedb/src/phase8.rs:651-653 | after the directory sync every crash leaves the new contents |
| AtomicFile.WriteStaysRead | crates/redlinedb/src/phase8.rs:656-675 | and keeps leaving them through any later writes to other names, failures and crashes |
| AtomicFile.StepKeepsMustRead | crates/redlinedb/src/phase8.rs:634-675 | only a publication, deletion or copy of a target changes what crashes leave there, and a crash only what was not synced |
| AtomicFile.Folder.WriteAtomic | crates/redlinedb/src/phase8.rs:634-675 | the five calls leave the target readable as written after any crash and every other target as it was |
| Backup.MarkerComesLast | crates/redlinedb/src/phase8.rs:191-226 | when no marker is there and none is copied, every crash that leaves a marker leaves the whole new manifest |
| Backup.MarkerImpliesManifestExactly | crates/redlinedb/src/phase8.rs:191-226 | every crash of the backup that leaves a marker leaves a synced manifest, if and only if the destination had no marker and the database has none to copy |
| Backup.OldMarkerOutlivesManifest | crates/redlinedb/src/phase8.rs:191-194 | removing an old backup can be cut short with its marker left and its manifest gone |
| Backup.CopiedMarkerComesFirst | crates/redlinedb/src/phase8.rs:196-200 | copying a marker can be cut short with the marker kept and no manifest |
| Backup.BackupOfABackup | crates/redlinedb/src/phase8.rs:465-510 | that crash for a finished backup opened as a database and backed up into an empty place |
| Retention.RetentionFromState | crates/redlinedb/src/phase8.rs:433-446 | the loop returns the minimum of the durable position and every slot's restart position |
| Retention.ComputeRetentionHorizon | crates/redlinedb/src/phase8.rs:448-456 | the horizon of a creation is the minimum with the new slot included |
| Retention.OverlapIsSafeExactly | crates/redlinedb/src/phase8.rs:309-375 | under any overlap, failures and crashes between any two calls, no state of a run has a slot below a horizon ever persisted, if and only if no horizon above a creation's position is renamed into place between its read and its slot, no recomputation whose scan began before a slot was renamed persists more than it, and no crash undoes an unsynced removal or replacement of a slot after which more was persisted |
| Retention.RenamedSlotIsListedAsBefore | crates/redlinedb/src/phase8.rs:360-375 | in every trace, renaming a slot into place leaves a scan under way obliged to list it exactly if it was, so a scan may miss a new slot but no replaced one |
| Retention.CreationBoundsHorizon | crates/redlinedb/src/phase8.rs:448-456 | in every trace, the horizon a creation computes is at or below the durable position it read for its slot, whatever becomes of the slot meanwhile |
| RetentionAlone.HorizonIsSafe | crates/redlinedb/src/phase8.rs:423-446 | one operation at a time, whatever call fails, the horizon never passes a live slot if and only if no crash undoes the change of a slot too late |
| RetentionAlone.MovesBackExactly | crates/redlinedb/src/phase8.rs:624-654 | one operation at a time, the persisted horizon never moves back if and only if no crash undoes an unsynced writing of it, or brings back a file below it that a later recomputation scans |
| RetentionAlone.CompletedRecomputeIsTight | crates/redlinedb/src/phase8.rs:360-375 | a scan left to itself yields the minimum over the slots if and only if no leftover temporary file names a lower position, and never more |
| RetentionRuns.OverlapPassesTheSlot | crates/redlinedb/src/handle.rs:127-129 | a run of a creation overlapping a checkpoint that leaves the horizon past the slot |
| RetentionRuns.CrashBringsSlotBack | crates/redlinedb/src/phase8.rs:351-358 | a run, one operation at a time, in which a crash undoes an unsynced removal and leaves the slot below the horizon |
| RetentionRuns.RecreationComesUndone | crates/redlinedb/src/phase8.rs:613-654 | a run, one operation at a time, in which the directory sync of a slot created again fails, and a crash brings back its old position below the horizon |
| RetentionRuns.HorizonComesUndone | crates/redlinedb/src/phase8.rs:624-654 | a run, one operation at a time, in which the directory sync of the horizon fails and a crash takes the horizon back |
| Printer.Render | crates/redlinedb/src/machine.rs:365-437 | the recursive renderer with its argument loop prints the specified text |
| Lexer.Tokenize | crates/redlinedb-lite/src/shellzero.rs:328-446 | the byte loop computes the specified tokens, or rejects |
| Lexer.ScanString | crates/redlinedb-lite/src/shellzero.rs:379-400 | the quoted-text loop reads up to the closing quote, with doubled quotes read as one |
| Lexer.ScanNumber | crates/redlinedb-lite/src/shellzero.rs:401-420 | the number loop takes the longest digits with at most one dot and reports dot and digits |
| SqlParser.Parser.Expression | crates/redlinedb-lite/src/shellzero.rs:495-507 | the parser object agrees with the grammar functions and stops where they stop |
| SqlParser.Parser.ParseLevelAt | crates/redlinedb-lite/src/shellzero.rs:499-538 | the loop of a precedence level computes the specified parse, which SqlPrecedence.TwoOperators and SqlPrecedence.SparseReadsBack say is left-associated and by precedence |
| SqlParser.Parser.Unary | crates/redlinedb-lite/src/shellzero.rs:540-551 | prefix signs |
| SqlParser.Parser.Atom | crates/redlinedb-lite/src/shellzero.rs:553-593 | literals, parentheses and calls |
| PrintedTokens.PrintedLexes | crates/redlinedb/src/machine.rs:365-454 | a printed expression lexes to its tokens before any text that may follow it, or not at all if a number or a name cannot be read |
| SqlRoundTrip.PrintedParses | crates/redlinedb-lite/src/shellzero.rs:495-593 | the tokens of a printed expression parse as one operand to its tree, whatever follows |
| SqlRoundTrip.BadNamesStick | crates/redlinedb/src/machine.rs:439-450 | an expression with a name that is not an identifier never parses to an operand that anything can follow |
| SqlRoundTrip.PrintReadsBack | crates/redlinedb-lite/src/shellzero.rs:328-593 | printing then reading gives the tree with nesting and unary plus erased and signs as operators, when every name is an identifier other than `null` and no integer is `i64::MIN`, and nothing otherwise |
| SqlBytes.ShellReadsBackExactly | crates/redlinedb-lite/src/shellzero.rs:379-400 | through UTF-8 bytes the round trip returns the tree if and only if names are identifiers, no integer is `i64::MIN` and every text is ASCII; other texts return as their bytes |
| SqlRoundTrip.SmallestIntegerIsNotRead | crates/redlinedb-lite/src/shellzero.rs:425-428 | the printed `i64::MIN` is rejected, because its digits alone do not fit |
| SqlPrecedence.SparseParses | crates/redlinedb-lite/src/shellzero.rs:499-538 | a tree written with no parentheses but those that precedence and left association need is parsed, at each level, up to the loop that looks for further operators |
| SqlPrecedence.TwoOperators | crates/redlinedb-lite/src/shellzero.rs:499-538 | of any two operators between any three operands the second takes the middle one exactly when the first is concatenation and it is not, or the first is + or - and it is *, / or %; otherwise the first does |
| SqlPrecedence.SparseReadsBack | crates/redlinedb-lite/src/shellzero.rs:328-593 | every tree whose numbers and names can be written is read back from the text that has only the parentheses precedence and left association need |
| SqlPrecedence.ReadTreesExactly | crates/redlinedb-lite/src/shellzero.rs:328-593 | some text is read as a tree if and only if its integers fit, its reals are digits with one dot and its names are identifiers other than `null` |
| TextBytes.BytewiseIsEncoded | crates/redlinedb-lite/src/shellzero.rs:394-397 | the characters the tokenizer works on are the UTF-8 bytes of the text |
| SqlRoundTrip.ReadExpression | crates/redlinedb-lite/src/shellzero.rs:284-289 | tokenizer and parser together compute the reading the theorems are about |
| SqlEval.DivisionLaw | crates/redlinedb-lite/src/shellzero.rs:664-695 | quotient and remainder satisfy the division law with the remainder signed like the dividend |
| SqlEval.BinIsExact | crates/redlinedb-lite/src/shellzero.rs:622-698 | on operands that fit, an operator returns the exact value, declines, or panics, each exactly when |
| SqlEval.EvalIsExact | crates/redlinedb-lite/src/shellzero.rs:597-711 | an arithmetic expression evaluates, and to its exact value, if and only if every subexpression's exact value fits and no remainder traps |
| SqlEval.PanicsExactlyThere | crates/redlinedb-lite/src/shellzero.rs:664-695 | evaluation panics if and only if the first subexpression without a value, in evaluation order, divides the smallest integer by minus one |
| SqlEval.ArithmeticRefinesIntegers | crates/redlinedb-lite/src/shellzero.rs:597-711 | the result is the exact value when everything fits, a panic exactly at that division, and a decline otherwise |
| SqlEval.ConcatRendersBoth | crates/redlinedb-lite/src/shellzero.rs:622-641 | a concatenation renders as its operands do, in order, and is NULL if one is |
| SqlMeaning.PrintedArithmeticIsExact | crates/redlinedb/src/machine.rs:365-437 | the shell answers a printed arithmetic expression with the exact value the builder meant, if and only if no literal is `i64::MIN` and every intermediate value fits |
| SqlMeaning.PrintedArithmeticPanicsExactly | crates/redlinedb-lite/src/shellzero.rs:664-695 | a printed arithmetic expression stops the shell, if and only if it can be read and its first subexpression without a value divides the smallest integer by minus one |
| SqlMeaning.SmallestModMinusOnePanics | crates/redlinedb-lite/src/shellzero.rs:680-687 | a text the shell reads, whose exact value is zero, that stops it |
| SqlMeaning.TextFunctionsAnswer | crates/redlinedb-lite/src/shellzero.rs:708-722 | a printed call on a text is answered exactly by `length`, `lower` and `upper` in any case, with the number of bytes of the text and the case maps of those bytes read as characters |
| SqlMeaning.OtherFunctionsAnswer | crates/redlinedb-lite/src/shellzero.rs:700-722 | on NULL exactly the four known functions answer, with NULL; on an integer exactly `abs` does, with its magnitude |
| Shell.SplitStatements | crates/redlinedb-lite/src/shellzero.rs:170-203 | the look-ahead loop breaks exactly at semicolons after an even number of quotes and drops a blank tail |
| Shell.StatementsLoseNothing | crates/redlinedb-lite/src/shellzero.rs:170-203 | joining the pieces restores the input, and the statements are the pieces but for a blank last one |
| Shell.PiecesAreStatements | crates/redlinedb-lite/src/shellzero.rs:170-203 | no piece has an unquoted semicolon and only the last can end inside quotes |
| Shell.PiecesAreUnique | crates/redlinedb-lite/src/shellzero.rs:170-203 | the input can be broken that way in one way only |
| Joining.JoinSplits | crates/redlinedb-lite/src/shellzero.rs:35-46 | inputs joined with line breaks, and rows with separators, come apart again into what was joined when no part has the separator |
| Shell.DispatchAll | crates/redlinedb-lite/src/shellzero.rs:35-84 | dispatch is all or nothing: handled exactly when every live statement up to the first exit prints, with their outputs in order; otherwise the first other statement decides |
| ShellStatements.EvalList | crates/redlinedb-lite/src/shellzero.rs:285-306 | the loop over the column list parses and evaluates column after column, skips aliases, and stops at the first that declines or panics |
| ShellStatements.AliasesChangeNothing | crates/redlinedb-lite/src/shellzero.rs:288-304 | printed arithmetic columns give the same row with any of them followed by AS, in any case, and a name |
| ShellStatements.AliasNeedsName | crates/redlinedb-lite/src/shellzero.rs:291-296 | AS without a name after it is refused |
| ShellStatements.RenderRow | crates/redlinedb-lite/src/shellzero.rs:237-247 | the loop with its first-column flag writes the columns with separators between them and the row separator |
| ShellStatements.RowComesApart | crates/redlinedb-lite/src/shellzero.rs:237-247 | a row is its columns and the row separator, and splitting at a separator no column has gives the columns back |
| ShellStatements.KeywordsAreRefused | crates/redlinedb-lite/src/shellzero.rs:249-283 | a SELECT with a keyword of the list between blanks, in any case, is refused |
| ShellStatements.EndsAndDots | crates/redlinedb-lite/src/shellzero.rs:49-84 | semicolons at the end of a statement change nothing, and a statement that begins with a dot is the dot command after it |
| ShellStatements.SelectIsMeant | crates/redlinedb-lite/src/shellzero.rs:249-306 | a SELECT of printed arithmetic columns prints the exact row, declines or panics, each exactly as meant |
| ShellStatements.PrintsExactly | crates/redlinedb-lite/src/shellzero.rs:249-306 | such a statement is meant to print, if and only if every literal can be read and every exact value fits |
| ShellStatements.ScriptIsAnswered | crates/redlinedb-lite/src/shellzero.rs:35-84 | a script of such statements is handled, with exactly the meant rows in order, if and only if every one prints |
| Calendar.EpochIsDayZero | crates/redlinedb/src/value_conv.rs:301-309 | 1970-01-01 is day 0 |
| Calendar.NextDayAddsOne | crates/redlinedb/src/value_conv.rs:283-309 | stepping one day by month lengths and the leap rule adds exactly one to the closed-form day count |
| Calendar.DaysAreChronological | crates/redlinedb/src/value_conv.rs:301-309 | the day count orders valid dates as the calendar does |
| Calendar.CivilFromDaysIsInverse | crates/sql/src/datetime.rs:58-90 | every day number becomes a valid date with that day number |
| Calendar.DaysFromCivilIsInverse | crates/sql/src/datetime.rs:58-90 | every valid date comes back from its day number |
| Calendar.CivilFollowsTheCalendar | crates/sql/src/datetime.rs:58-90 | consecutive day numbers are consecutive dates |
| Calendar.ToUnixCountsDays | crates/sql/src/datetime.rs:112-125 | `to_unix` is the day count times 86400 plus the time of day |
| Calendar.FromUnixIsValid | crates/sql/src/datetime.rs:58-90 | `from_unix` yields a valid month and time, and a valid day if and only if it does not move a leap day to a common year |
| Calendar.WrappedLeapDay | crates/sql/src/datetime.rs:58-90 | a leap day that comes out in a year without one and does not come back |
| Calendar.ToUnixUndoesFromUnix | crates/sql/src/datetime.rs:58-125 | the round trip from seconds holds if and only if the civil year fits 32 bits |
| Calendar.FromUnixUndoesToUnix | crates/sql/src/datetime.rs:58-125 | the round trip from valid date-times holds |
| Calendar.JulianDayNumberIsDayCount | crates/sql/src/datetime.rs:129-142 | the truncating Julian day number is the day count plus 2440588, except one more exactly in non-leap March-based years before -4800 |
| Calendar.TwoDaysOneNumber | crates/sql/src/datetime.rs:129-142 | two consecutive days with one Julian day number |
| Calendar.JulianDayIsInstant | crates/sql/src/datetime.rs:129-142 | the Julian day of a date-time is 2440587.5 plus its Unix seconds and microseconds in days, and one day more exactly in non-leap March-based years before -4800 |
| Calendar.JulianOrderIsTimeOrder | crates/sql/src/datetime.rs:129-142 | from -4800-03-01 on Julian days order date-times as their instants |
| Calendar.FormattableIsJulianRange | crates/sql/src/datetime.rs:98-109 | `is_formattable` holds exactly when the exact Julian day is at least -0.5 and below the maximum |
| DateTimeText.YearText | crates/sql/src/datetime.rs:165-171 | a year prints as its magnitude in at least four digits, more only from 10000 on, after a minus sign below zero |
| DateTimeText.ReadFraction | crates/redlinedb/src/value_conv.rs:219-236 | the fraction loop reads microseconds scaled by the number of digits |
| DateTimeText.StampTextReads | crates/redlinedb/src/value_conv.rs:195-243 | every text of the accepted form is read as the instant it denotes |
| DateTimeText.ReadsOnlyStamps | crates/redlinedb/src/value_conv.rs:195-281 | every accepted text has the accepted form |
| DateTimeText.ReaderIsExact | crates/redlinedb/src/value_conv.rs:195-281 | a text reads as a value if and only if it denotes it |
| DateTimeText.BytesReadAlike | crates/redlinedb/src/value_conv.rs:195-243 | indexing bytes, as the reader does, accepts the same texts with the same values as indexing characters |
| DateTimeText.AcceptedFitsI64 | crates/redlinedb/src/value_conv.rs:189-193 | the outer conversion to 64 bits never rejects an accepted text |
| DateTimeText.FormatThenParse | crates/sql/src/datetime.rs:144-171 | printing then reading gives `to_unix` in microseconds exactly for years 0000 to 9999, and is rejected otherwise |
| DateTimeText.OffsetShifts | crates/redlinedb/src/value_conv.rs:261-281 | an appended zone shifts the instant by exactly minus its offset |
| DateTimeText.TextOrderIsTimeOrder | crates/sql/src/datetime.rs:144-171 | for years 0000 to 9999 the order of printed texts is the order of instants |
| Utf8.ByteOrderIsCharOrder | crates/sql/src/collation.rs:56-56 | comparing the UTF-8 bytes of two strings compares their code points |
| Utf8.EncodeIsInjective | crates/sql/src/collation.rs:56-56 | different strings have different bytes |
| Collation.CompareNoCase | crates/sql/src/collation.rs:57-75 | the byte loop compares the lower-cased bytes lexicographically |
| Collation.TakeUint | crates/sql/src/collation.rs:123-137 | the loop returns the length of the longest digit run and its value clamped to `usize::MAX` |
| Collation.CompareUintText | crates/sql/src/collation.rs:95-121 | the loop compares the sequences of characters and digit runs lexicographically |
| Collation.ByteCollationsOrderFoldedText | crates/sql/src/collation.rs:54-76 | BINARY, NOCASE and RTRIM order the text, its ASCII lower case and its trimmed form by code point |
| Collation.CompareIsAntisymmetric | crates/sql/src/collation.rs:54-85 | swapping the arguments flips the result, and Equal means the same class, for every built-in collation |
| Collation.CompareIsTransitive | crates/sql/src/collation.rs:54-85 | every built-in collation is transitive, with Equal only within a class |
| Collation.UintIdentifiesExactly | crates/sql/src/collation.rs:95-137 | UINT equality identifies a string if and only if none of its digit runs reaches `usize::MAX` |
| Collation.FoldedTextDecides | crates/sql/src/collation.rs:54-76 | after a common beginning the first characters that differ once folded decide BINARY, NOCASE and RTRIM by code point |
| Collation.UintOrdersNumbers | crates/sql/src/collation.rs:95-137 | after a common beginning that cuts no digit run, two digit runs order by their numbers up to `usize::MAX`, and equal ones by length |
| Collation.UintOrdersCharacters | crates/sql/src/collation.rs:95-121 | where at least one of two different characters is no digit, UINT orders by code point |
| Collation.UintOrdersPrefixes | crates/sql/src/collation.rs:95-121 | a text comes before every text that continues it without lengthening a digit run |
| DelimitedOutput.Writer.WriteDelimitedRow | crates/cli/src/render.rs:888-919 | the loop with its first-cell flag writes the cells with separators between them |
| DelimitedOutput.Writer.RenderDelimited | crates/cli/src/render.rs:300-345 | the loop with its flag writes the header, when shown and not empty, and every row, each line ended by the terminator |
| CsvRoundTrip.CellReads | crates/cli/src/render.rs:921-947 | a written cell reads back whatever it contains |
| CsvRoundTrip.BareExactly | crates/cli/src/render.rs:921-947 | a CSV cell is written as it is if and only if it is empty, or holds no separator, comma, quote, apostrophe or white space |
| CsvRoundTrip.TableReadsBack | crates/cli/src/render.rs:300-345 | a reader of section 2 of RFC 4180 reads from every printed table one record per row, after one equal to the columns exactly when the header is shown and there are columns; a field is the text of its cell, or the null text where the cell is NULL; a row without cells reads as one empty field |
| CsvRoundTrip.SeparatorsThatWork | crates/cli/src/render.rs:932-947 | a separator without quote or CR prints all tables without empty rows apart, and lets them be read back, if and only if it is not empty and not both free of characters that force quoting and beginning as it ends |
| CsvRoundTrip.BorderedCollides | crates/cli/src/render.rs:900-912 | for every other separator that is not empty, two tables it prints alike |
| CsvRoundTrip.OneCharacterSeparators | crates/cli/src/render.rs:932-947 | with a one-character separator every table without empty rows reads back, if and only if the separator is neither the quote nor CR |
| CsvRoundTrip.LongSeparatorsCollide | crates/cli/src/render.rs:900-912 | two tables that the separator `::` prints alike |
| CsvRoundTrip.EmptySeparatorCollides | crates/cli/src/render.rs:900-912 | two tables that an empty separator prints alike |
| CsvRoundTrip.TabsReadBack | crates/cli/src/render.rs:907-961 | tab output without empty rows reads back when every cell that holds the separator also holds a quote or line break, which has it quoted |
| CsvRoundTrip.TabsCollide | crates/cli/src/render.rs:907-961 | any other cell that holds the separator prints like the two cells on either side of it |
| CsvRoundTrip.ListComesApart | crates/cli/src/render.rs:310-345 | list output without empty rows splits at its line ends and separators into the cells, when no cell holds one |
| Checksum.PayloadInput | crates/bench/src/checksum.rs:43-53 | the loop hashes the tagged, counted rows in order |
| Checksum.RowBuffer | crates/bench/src/checksum.rs:111-124 | the buffer is the concatenation of the cell encodings |
| Checksum.DigestInput | crates/bench/src/checksum.rs:105-135 | the content digest is taken over the framed rows, and the payloads are the row encodings |
| Checksum.CellsArePrefixFree | crates/bench/src/checksum.rs:152-174 | no cell's encoding begins another's, whatever follows |
| Checksum.LittleEndianSpells | crates/bench/src/checksum.rs:152-174 | the bytes of a number are below 256 and spell it, least significant first |
| Checksum.DigestsFrameApart | crates/bench/src/checksum.rs:105-174 | different tables never hash the same bytes |
| Checksum.RowAndPayloadInputsDiffer | crates/bench/src/checksum.rs:29-53 | a row hash and a payload hash are never taken over the same bytes |
| Checksum.KeyXor | crates/bench/src/checksum.rs:65-74 | the loop folds the keys by exclusive or |
| Checksum.XorSplits | crates/bench/src/checksum.rs:65-74 | the fold splits over concatenation |
| Checksum.XorIgnoresOrder | crates/bench/src/checksum.rs:60-74 | the fold depends only on the multiset of keys |
| Checksum.MissingKeyShowsExactly | crates/bench/src/checksum.rs:60-74 | a missing or repeated key changes the fold if and only if it is not zero |
| Checksum.ZeroKeyGoesUnnoticed | crates/bench/src/checksum.rs:130-134 | dropping key zero leaves the fold unchanged |
| Checksum.MergeIsAssociativeAndCommutative | crates/bench/src/checksum.rs:87-102 | merging is associative and commutative on row counts, saturation included, and on keys |
| Checksum.PayloadMergeAssociatesExactly | crates/bench/src/checksum.rs:87-102 | for any hash the two nestings of a merge hash the same bytes, if and only if both inner merges give back an operand, and agree exactly then or by a collision |
| Checksum.PayloadMergeIsOrdered | crates/bench/src/checksum.rs:87-102 | merging in the other order hashes the same bytes if and only if the two hashes are equal |
| Checksum.PayloadMergeIsNotAssociative | crates/bench/src/checksum.rs:87-102 | a hash for which the two nestings differ |
| Checksum.CountsAddUp | crates/bench/src/checksum.rs:93-102 | any number of merged shards have the sum of their row counts, or `u64::MAX` where it does not fit |
| Checksum.ShardsMergeToWhole | crates/bench/src/checksum.rs:87-102 | merging the shards of a scan, in any order, gives the counts and keys of the scan |

## Left out

- The write-ahead log, B-trees, the planner and executor, the SQL parser, FFI, server and async adapters.
- Engine create, open, connect and rollback: abstract steps that may fail.
- Mutex poisoning, panics other than integer division, and the teardown of a database entry after its last handle is gone, including the removal of a session's directory.
- Recovery of commit states, and page layout in the snapshot model. A read-committed transaction takes and registers a new snapshot as it did the first.
- SnapshotReads.StepKeepsInv: steps meet the guards, as in the theorems over guarded runs, because without them the promises are false; each guard is the exact condition proved in SnapshotAnomalies.
- Registry.OneLiveEntryPerDirectory: runs in which no open under a spelling of its own finds the directory in place, because otherwise it is false; Registry.OpenIsSafeExactly says when that can happen.
- Registry: path normalisation is one step, a directory keeps its identity, and the owner lock is the one of Unix. Other processes and the thread pool fall under the engine step.
- Directories above the one holding an atomically written file: their entries are taken as durable. Of the files a backup copies, those in the directory of the marker are modelled.
- Retention: slot effects on the vacuum number are not modelled. Writing and syncing a temporary file is one step, which a second writer of the same file can only follow, not interleave with.
- Reals: rounding, formatting and real literals. `lower` and `upper` use case maps that are parameters.
- Other expression forms of the builder: booleans, blobs, parameters, columns, comparisons, NOT and bit complement.
- ShellStatements: dot commands and columns with a real literal are parameters.
- `strftime`, date modifiers and the time-string parser of the SQL layer. Julian days are exact, not floating point.
- Custom collations. `usize` is 64 bits.
- CsvRoundTrip.SeparatorsThatWork: of the separators with a quote or CR in them only the single characters are decided; for the others, which mix with line ends and doubled quotes, no closed condition is given. Layout modes (boxes, columns, JSON, HTML) are left out.
- SHA-256: only what is hashed is modelled. Version sums and byte counts are left out.
