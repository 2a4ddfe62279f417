# Verified models of the Localitas Go client

Dafny models of the parts of the client whose behaviour is easiest to get wrong, with proofs of
what they promise. Run `dafny verify dfyconfig.toml` in this directory.

**Splitting SQL** (`Text`, `Trimming`, `Splitter`, `SplitterKeywords`, `SplitterTheorems`, `SplitterConcat`,
`SplitterNormalForm`).
`splitSQL`, in its two identical copies, scans bytes with a string state and a count of BEGIN and END.
`Splitter.SplitSQL` is that loop, proved against a tokeniser and a rule for which semicolons cut. The
count is the one the code keeps: END is recognised without looking at the byte before it, END at
zero does nothing, a `CASE ... END` inside a BEGIN block lowers the count, and block comments are
ordinary bytes. The keyword test upper-cases Unicode; `SplitterKeywords.KeywordsExactly` says byte by byte what it
finds all the same, the dotless i included.

**The SQL shell** (`Shell`, `ShellChunks`, `ShellCuts`). Piped input is split chunk by chunk. That equals splitting the
whole input exactly when no flush interrupts a statement, and some inputs are interrupted.

**The migrator on the buffering driver** (`Database`, `Driver`, `DriverRuns`, `Migrator`, `RunErrors`,
`Direct`, `Protocol`, `ProtocolRuns`, `Convergence`, `Loading`, `Sample`). A
database is a set of recorded versions and a user part; an engine is any deterministic function for a
statement of a migration, with atomic transactions. `Driver.Conn`, `Driver.Tx` and `Migrator.Migrator` are classes
with the fields and methods of the Go types; `Direct` runs `apply` on a connection that executes at once, for
comparison. `Protocol` interleaves any number of nodes with stale snapshots, crashes, restarts, lost replies and
requests, of repairs too, that arrive after their node has gone. `Convergence` shows that migrations which only
add schema end the same way with repairs among the runs; `Sample` is a small setup that meets the assumptions of
both, with inputs that repair and inputs that lose a migration. `Loading` is the step before: which files are
migrations and in which order they run.

**The pub/sub WebSocket client** (`PubSub`, `PubSubProtocol`, `PubSubTheorems`, `PubSubLastWord`, `PubSubRuns`,
`Backoff`, `PubSubDelays`).
`PubSub.PubSubWS` has one method for each critical section. `PubSubProtocol` interleaves them with dials,
reads, timers, and the writes that users and the reconnect cycle make outside their sections. Connections
are numbered as they are dialled.

**Two printers** (`CachePath`; `Flatten`, `Order`, `Table`, `TableReader`, `TableRoundTrip`) are proved against readers that take
their output apart again, and **migration file names** (`Filenames`) against their patterns. `Strings`,
`Arithmetic` and `Options` are shared.

Strings are sequences of bytes, one `char` each.

## Where the code does not do what one would expect

For each, a lemma gives the exact condition and another a concrete input.

- A line of piped SQL that ends in `;` inside a string is flushed there, and the string is cut in two
  (`ShellCuts.StreamingEqualsBatchExactly`, `ShellCuts.InterruptedString`).
- A migration whose own failure contains the text `UNIQUE constraint failed: schema_migrations.version` is
  reported as applied by another node and silently skipped (`Migrator.WalkRecordsExactly`,
  `Sample.MisreadMigration`).
- Of migration files with one version only the first in the list is ever applied, with no error
  (`Loading.AllRunExactlyWhenDistinct`, `Sample.SkippedMigration`).
- A node repairs in some run exactly when some migration answers with an already-in-place error on the
  database its predecessors leave (`Protocol.Setup.NoRepairExactlyWhenClean`, `Sample.InPlaceRepairs`).
- Close while the reconnect cycle is opening a connection does not close it: the connection is stored and read
  (`PubSubTheorems.CloseIsFinalExactly`, `PubSubRuns.CloseBeforeRedial`).
- Subscribe and Unsubscribe on one channel can overtake each other, or be overtaken by the replay in `connect`,
  and then the server keeps the wrong subscription (`PubSubLastWord.LastWordExactly`,
  `PubSubRuns.OvertakenSubscribe`).
- The keys "." and ".." share their paths with other resources for a reader that removes dot segments
  (`CachePath.TidyReadsBackExactly`, `CachePath.DotKeys`).
- Names with dots can make leaves with different texts share a key, and the later one wins
  (`Flatten.LeavesShownExactly`, `Flatten.DottedNamesCollide`).
- The keys of a rendered table are not escaped. A pipe in a key makes more cells than columns or, behind a
  backslash, is read back without the backslash; a newline in a key makes more lines than values
  (`TableRoundTrip.TableReadsBackExactly`, `TableRoundTrip.PairsReadBackExactly`; `TableReader.HeaderPipeSplits`,
  `TableRoundTrip.EscapedKeyChanges`, `TableRoundTrip.NewlineKeySplits`).
- A value with a pipe behind an odd number of backslashes is split by a reader that pairs backslashes
  (`TableReader.CellIsOneExactly`, `TableReader.BackslashPipeSplits`); blanks and newlines at its ends are lost on a
  reader that trims them (`TableReader.ValueReadsExactly`).
- Once number 999 of a second is taken, the next new file is no migration file
  (`Filenames.NewFileReadsBackExactly`, `Filenames.NumberThousand`).
- Plain numeric versions of different widths need not sort as numbers (`Filenames.PlainVersionsSortExactly`,
  `Filenames.PlainVersionsDisorder`).

## Model

| member | source | states |
|---|---|---|
| Splitter.SplitSQL | migrator.go:214-276 | The scanning loop returns the trimmed, non-empty texts between the semicolons that cut, for every byte string |
| Splitter.KeywordTestFindsWords | migrator.go:252-258 | The upper-cased prefix test, with the identifier byte after it, finds BEGIN and END exactly where the ASCII words stand, whatever multi-byte letters upper-case to |
| SplitterKeywords.KeywordsExactly | migrator.go:251-280 | A byte counts as BEGIN or END exactly when the five or three letters stand there, in either case each, and the text ends behind them or goes on with none of the 63 bytes A-Z, a-z, 0-9 and underscore; what stands before them does not matter |
| SplitterKeywords.UnderscoreBehind | migrator.go:253-254 | A concrete text with begin_at and two statements |
| SplitterKeywords.DigitBehind | migrator.go:253-254 | A concrete text with Begin2 and two statements |
| SplitterKeywords.LowerCaseBlock | migrator.go:252-258 | A concrete text whose lower-case begin and end keep a semicolon inside one statement |
| Trimming.BlankExactly | migrator.go:261-273 | White space is any number of the 25 white-space characters of Unicode, each spelled in UTF-8 |
| Trimming.TrimExactly | migrator.go:261-273 | Trimming leaves the one text that has white space around it and no white-space character at its edges |
| SplitterTheorems.LexIsLossless | migrator.go:221-270 | The tokens of any input, end to end, are the input |
| SplitterTheorems.SegmentsAre | migrator.go:260-267 | The only way to cut at exactly the semicolons outside strings and comments where the count is zero is the one the splitter takes |
| SplitterTheorems.StatementsAreSegments | migrator.go:260-275 | The statements are the trimmed, non-empty segments of that cut |
| SplitterTheorems.StatementsKeepBytes | migrator.go:214-276 | Every byte of every token that ends no statement, comments as newlines, is in the statements, in order; before, between and behind them there is white space and nothing else |
| SplitterTheorems.KeptIsUncut | migrator.go:260-267 | The tokens between the cuts are all tokens but the semicolons where the count is zero |
| SplitterTheorems.OpenLiteralIsKept | migrator.go:224-235 | A string left open at the end of the input ends the last statement and loses at most white space at its end |
| SplitterTheorems.TokenKeptWhole | migrator.go:224-242 | A token that starts and ends with bytes no trimming removes is found byte for byte in the statement of its segment |
| SplitterTheorems.ClosedLiteralIsSolid | migrator.go:224-242 | A closed string is such a token |
| SplitterConcat.LexConcat | migrator.go:221-270 | The tokens of a text and of what follows it are those of the two together when no token crosses the cut |
| SplitterConcat.SplitAtClosedCut | migrator.go:214-276 | Behind a closed text (count zero, outside strings and comments, nothing pending) splitting is a homomorphism: split(a+b) is split(a) and split(b) |
| SplitterNormalForm.StatementSplitsIntoItself | migrator.go:214-276 | Every statement of any input splits into itself alone |
| SplitterNormalForm.SplitOfJoin | migrator.go:214-276 | Joining the statements of any input with ";\n" and splitting gives the same list, also when the last one is left open |
| Shell.RunStatements | cmd/localitas/sql.go:90-97 | Runs the statements of a text in order and stops at the first failure |
| Shell.RunSQLShell | cmd/localitas/sql.go:50-87 | The shell over any lines, interactive or piped, does what its line-by-line function says |
| ShellChunks.FlushesExactly | cmd/localitas/sql.go:68 | The text is flushed exactly when it is some text, a semicolon and white space |
| ShellChunks.ChunksExactly | cmd/localitas/sql.go:65-70 | The chunks are those of any cut of the lines in which each group ends in a semicolon and white space, and no shorter run of its lines and no run of the lines left does |
| ShellChunks.ChunkingExists | cmd/localitas/sql.go:65-70 | Any lines can be cut so; by the line above, in one way only |
| Shell.PipedShellRunsChunks | cmd/localitas/sql.go:65-86 | Piped, the shell runs the statements of the flushed chunks and then of what is left |
| Shell.PromptedShellGoesOn | cmd/localitas/sql.go:65-86 | At a prompt, a failed statement ends its own chunk and no other |
| Shell.ChunksAreTheInput | cmd/localitas/sql.go:65-86 | The chunks and the rest, end to end, are all the lines read |
| ShellCuts.CleanFlushExactly | cmd/localitas/sql.go:65-70 | One flush keeps the statements exactly when it interrupts none; otherwise a statement of the piped run differs from the batch's at the same place |
| ShellCuts.StreamingEqualsBatchExactly | cmd/localitas/sql.go:65-86 | The statements of the piped run are those of the whole input exactly when no flush interrupts a statement |
| ShellCuts.StreamingRunsTheBatch | cmd/localitas/sql.go:50-97 | Then the piped shell leaves any database in the batch's state and fails at the batch's statement |
| ShellCuts.InterruptedString | cmd/localitas/sql.go:68-70 | A concrete two-line input that is flushed inside a string, and whose piped statements are not those of the whole input |
| Database.Engine.TakenIsTaken | migrator.go:163-165 | The error of a version insert that finds its version recorded is recognised as "version taken", whatever text stands before it and behind it |
| Driver.Server.SQLTransaction | client.go:384-394 | The server applies a batch whole or not at all and notes it as received |
| Driver.Tx.Buffer | driver.go:94-96 | A buffered statement goes to the end of the transaction's list and nowhere else |
| Driver.Tx.Commit | driver.go:98-106 | Commit sends the buffered statements as one batch, or nothing when there are none, and closes the transaction |
| Driver.Tx.Rollback | driver.go:108-112 | Rollback sends nothing and closes the transaction |
| Driver.Conn.Begin | driver.go:83-87 | Begin opens an empty transaction and sends nothing |
| Driver.Conn.ExecContext | driver.go:131-142 | Inside a transaction a statement is only buffered and reported done; outside it is sent at once |
| Driver.Conn.QueryContext | driver.go:144-151 | A query is answered from the server's database even inside a transaction |
| Driver.OpenIsLastBegun | driver.go:83-112 | Over any operations on pooled connections, a connection's open transaction is the one its history shows, with exactly the statements executed since its begin |
| Driver.ReceivedExactly | driver.go:83-142 | Over any operations the server receives, in order, each committed transaction's statements once and as one batch, nothing of rolled-back, open or empty ones, and each other statement at once |
| DriverRuns.Perform | driver.go:83-142 | One operation on one of several connections moves all of them, and what the server has received, as the step of the replay says |
| DriverRuns.PerformAll | driver.go:83-142 | Any list of operations on connections that share a server sends it exactly the batches of their replay, which Driver.ReceivedExactly is about, in order |
| Direct.Apply | migrator.go:125-143 | apply with its rollback at the first error, on a connection that executes each statement at once on a working copy, does the transaction whole or leaves the database alone with the failing statement's error |
| Direct.ApplyBoth | driver.go:94-142 | From one database, apply through the buffering driver and apply on that connection leave the same database, answer and verdict, for every migration |
| Migrator.BodyExactly | migrator.go:136-141 | A migration's statements are those its text splits into, each once and in order |
| Migrator.Migrator.Apply | migrator.go:125-143 | One batch goes out, the version insert first and then each statement of the text in order; database and answer are those of a real transaction over the same statements |
| Migrator.Migrator.Repair | migrator.go:147-159 | Statement by statement outside a transaction, skipping what is in place, then the version |
| Migrator.Migrator.Run | migrator.go:61-121 | An error of creating the table or of reading the versions ends Run with nothing changed; else the loop with the versions read at the start does what its step function says, error cases included |
| RunErrors.ClassifyExactly | migrator.go:81-96 | Of any error text: the version is taken exactly when the text holds the words of that error; else the schema is in place exactly when it holds "duplicate column name", or "already exists" together with "table" or "index"; else Run ends with it |
| RunErrors.OtherErrorsEndRun | migrator.go:94-95 | A migration that fails with any other text, wherever in the list, ends Run with that text, on the database its predecessors left, and its version is not recorded |
| RunErrors.RepairBodyExactly | migrator.go:147-152 | A repair stops at the first statement whose error is not an in-place text, with that text; if there is none it gets through, and the database is what the statements that succeed make of it |
| RunErrors.RepairedExactly | migrator.go:147-159 | Repair records a version exactly when every statement succeeds or answers with such a text |
| Migrator.WalkRecordsExactly | migrator.go:77-99 | Over any list of distinct versions and from any snapshot, stale or not, a run without error has recorded every version exactly when no batch on its way failed with the version-taken text while its own version was unrecorded; a migration's statements may do anything but succeed in changing the recorded versions, on databases that hold those recorded at the start |
| Sample.MisreadMigration | migrator.go:82-86 | A concrete migration, one that inserts a recorded row into schema_migrations, is skipped with no error and its version not recorded, and it meets the assumptions of the theorem above |
| Protocol.Setup.ReapplyChangesNothing | migrator.go:130-135 | Re-applying a recorded migration fails on the insert, changes nothing, and is classified as taken, never as repair |
| Protocol.Setup.FireKeeps | migrator.go:81-96 | In every reachable state a batch up to the level is refused as taken, adds the next migration, or changes nothing; only the next one can be sent to repair or fail for good |
| Protocol.Setup.QuietRunsAreSequential | migrator.go:61-100 | In every run without repairs, the recorded versions are a prefix of the list and the database is the start with the new ones run once each, in order |
| Protocol.Setup.CleanRunsAreQuiet | migrator.go:87-93 | When no migration answers "in place" on its predecessors' state, no interleaving ever repairs |
| Protocol.Setup.NoRepairExactlyWhenClean | migrator.go:87-93 | No run repairs if and only if that holds |
| Protocol.Setup.CanFinish | migrator.go:77-99 | From every reachable state a walking node can finish by its own steps, at most three for each migration, when each migration succeeds on its predecessors' state |
| Protocol.Setup.WalkAlone | migrator.go:77-99 | The single sequential run applies migrations up to the first that fails |
| Protocol.Setup.RefinesSequentialRun | migrator.go:56-100 | Every state of every interleaving is one the sequential run passes through; once a node finishes, the database is the sequential run's and the successful applies over all nodes are the pending migrations, each once, in order |
| Convergence.Ddl.InPlaceErrorIsIdempotent | migrator.go:282-287 | What each additive statement answers when its thing is in place is what repair skips |
| Convergence.Plan.RunOnPartial | migrator.go:147-152 | With everything before it in place, an additive statement adds what it adds on a clean database or answers that it is in place |
| Convergence.Additive.BatchConverges | migrator.go:125-143 | With the earlier versions recorded, a batch is refused as taken, completes its migration, or is sent to repair and changes nothing |
| Convergence.Additive.StartConverges | migrator.go:87-93 | From any database with part of the additions in place and matching versions, whoever runs and however, a node that finishes leaves every version recorded and the schema of a clean run |
| Convergence.Additive.RepairServed | migrator.go:147-159 | A repair request, on time or after its node has gone, only adds: its part is in place or its version recorded, and its answer is one repair goes on from |
| Convergence.Additive.EveryRunConverges | migrator.go:61-159 | In every run on from any state that keeps the invariant, with crashes, lost replies and late requests of applies and of repairs, a node that finishes leaves every version recorded and the schema of a clean run, on any engine that runs the list's own statements as the additive statements they are |
| Convergence.Additive.OnlyLostRepliesStop | migrator.go:88-96 | In such runs only a lost reply makes Run return an error |
| Convergence.Additive.RepairEnds | migrator.go:147-159 | A repairing node ends its repair by its own steps, whatever the others have done |
| Convergence.Additive.EveryNodeCanFinish | migrator.go:61-159 | So does a walking node its run |
| Protocol.Setup.RepairsLikeOne | migrator.go:147-159 | A repairing node that no one interrupts does to the database what the sequential repair does, and goes on or stops as it says |
| ProtocolRuns.RunsLikeWalk | migrator.go:77-99 | A walking node that no one interrupts, in any state of the others, does to the database what Run's loop does from there on, repairs and errors included, and ends as it says |
| ProtocolRuns.RunsLikeRun | migrator.go:61-100 | So a node that starts and is not interrupted does what Run does |
| ProtocolRuns.OrphansArrive | migrator.go:125-159 | When a node dies or loses its connection with a batch or a repair request on its way, the request can still be executed afterwards, as if the node had waited |
| Sample.ExampleIsValid | migrator.go:61-100 | The assumptions of the blocks above hold of a concrete list that creates a table and adds a column |
| Sample.InPlaceRepairs | migrator.go:87-93 | A concrete setup that is not clean and has a run that is not quiet |
| Loading.LoadMigrations | migrator.go:167-201 | A directory that cannot be read, or a file whose name ends in .sql and that cannot be read or is not named version, separator, title, stops the load; otherwise the migrations are in version order, and each version, title and text is there as often as the directory has a file of that name and text |
| Loading.OneOrder | migrator.go:196-198 | With distinct versions that order is fixed, so every node walks the same list however its directory is listed |
| Loading.RunsTheFirsts | migrator.go:77-99 | A run over any list on which nothing is misread runs exactly the first migration of each version not yet recorded, in order |
| Loading.RepeatsDoNothing | migrator.go:77-99 | Leaving the later ones out of the list changes neither the database nor the answer, whether Run succeeds or fails |
| Loading.AllRunExactlyWhenDistinct | migrator.go:77-99 | With nothing recorded, a run without error has run every migration exactly when the versions are distinct |
| Sample.SkippedMigration | migrator.go:77-95 | A concrete second file of one version that never runs |
| PubSub.PubSubWS.Subscribe | pubsub_ws.go:129-132 | The section sets the channel's consumer and captures the connection |
| PubSub.PubSubWS.Unsubscribe | pubsub_ws.go:146-149 | The section removes the channel and captures the connection |
| PubSub.PubSubWS.Close | pubsub_ws.go:195-199 | The section sets the flag, forgets the connection and hands it over for closing |
| PubSub.PubSubWS.Install | pubsub_ws.go:237-245 | The section stores the connection, restarts the count and copies the subscriptions, whatever the flag says |
| PubSub.PubSubWS.Drop | pubsub_ws.go:266-271 | The section forgets the reader's own connection only, and reads the flag |
| PubSub.PubSubWS.ScheduleReconnect | pubsub_ws.go:309-323 | The section gives no delay when closed; else the next delay, with the count started over at the cap |
| PubSubProtocol.Client.StepKeeps | pubsub_ws.go:128-338 | Every step keeps the invariant behind the theorems below |
| PubSubTheorems.Lifecycle | pubsub_ws.go:209-338 | In every interleaving one stage of the cycle runs, or none and the client is closed; at most one connection is open, and the stored and the open one belong to that stage |
| PubSubTheorems.NoSubscriptionLost | pubsub_ws.go:128-142 | Each subscription has been written to the stored connection with its present consumer, or the running connect or an in-flight Subscribe owes it |
| PubSubTheorems.DialsAfterClose | pubsub_ws.go:194-199 | After Close at most one more dial starts, and none unless it had already been let through |
| PubSubTheorems.CycleEnds | pubsub_ws.go:258-337 | A closed client with no dial under way takes at most two more steps of the cycle: the reader's exit, or one look at the flag by a timer or a failed dial |
| PubSubTheorems.CloseIsFinalExactly | pubsub_ws.go:194-258 | After Close no connection is stored again and every open one is about to be closed, exactly when the cycle was not opening a connection |
| PubSubLastWord.StepSettles | pubsub_ws.go:128-156 | A step keeps a channel settled exactly when it is not a user call that starts while a different message about the channel is unwritten |
| PubSubLastWord.SettledMeans | pubsub_ws.go:341-349 | Settled is agreement of the server's last word with the client's map after every order of the pending writes |
| PubSubLastWord.LastWordExactly | pubsub_ws.go:128-259 | After a run without such races, one more step leaves that agreement exactly when it does not race |
| PubSubRuns.OvertakenSubscribe | pubsub_ws.go:134-155 | A concrete run in which the server keeps a cancelled subscription |
| PubSubRuns.CloseBeforeRedial | pubsub_ws.go:330-337 | A concrete run in which a closed client ends up with an open, stored connection that nothing is going to close |
| Backoff.RawGrows | pubsub_ws.go:318 | Each attempt waits at least as long as the one before |
| Backoff.CycleExists | pubsub_ws.go:318-322 | For a positive base some attempt k has base·3^(k-1) >= cap·2^(k-1), and there is a least one |
| Backoff.DelaysCycle | pubsub_ws.go:309-322 | Over any number of failures the delays have that period k: never above the cap nor below the smaller of base and cap, never falling within a cycle, at the cap only at its end |
| PubSubDelays.DelaysSinceInstall | pubsub_ws.go:237-323 | In any run that stores no other connection after one, the client's next delay is that of as many failed dials as it has waited since; the first one is the base interval, or the cap |
| CachePath.Path | cache.go:60-69 | The builder loop writes the prefix, the name and the segments, each escaped, with slashes between |
| CachePath.PubSubPath | cache.go:458-460 | A channel's path is the cache's with "pubsub" and the channel in front |
| CachePath.HashPath | cache.go:782-784 | A hash's path is the cache's with "hashes" and the name in front |
| CachePath.PathReadsBack | cache.go:60-69 | Cut at the query or fragment, split at slashes and percent-decoded, any path gives the name and segments back byte for byte |
| CachePath.EscapesExactly | cache.go:60-69 | A byte stands for itself exactly when RFC 3986 allows it in a path and it is none of a slash and seven other delimiters; else it becomes a percent sign and two upper-case hexadecimal digits |
| CachePath.PathIsUri | cache.go:60-69 | Every path consists of bytes that RFC 3986 allows there and of percent signs with two hexadecimal digits |
| CachePath.TidyReadsBackExactly | cache.go:60-69 | Through a reader that removes dot segments first (section 5.2.4 of RFC 3986), the same holds exactly when neither the name nor a segment is "." or ".." |
| CachePath.DotKeys | cache.go:112-141 | The paths of the keys ".." and "." name the cache and the empty key there |
| CachePath.PathIsInjective | cache.go:60-69 | Calls share a path only with the same name and segments |
| CachePath.KeyHasItsOwnPath | cache.go:112-157 | No key shares its path with another key, with an operation such as keys/incr, with a channel or with a hash |
| Flatten.FlattenValue | httputil/negotiate.go:190-271 | The recursive loop over members computes the flat map, one pointer or interface deep, later members overwriting |
| Flatten.TextsExactly | httputil/negotiate.go:190-271 | The entry of each kind of value but records: one pointer or interface shows what it points to, behind it a second one its printed form and a nil "<nil>"; a nil is "" and an empty list "[]" where it has a name, and nothing else |
| Flatten.EntriesAreLeaves | httputil/negotiate.go:190-271 | For distinct, non-empty sibling names each leaf's dotted path is a key and each entry is the text of a leaf under its dotted path |
| Flatten.LeavesShownExactly | httputil/negotiate.go:190-271 | For such names, dots or none, every leaf's text stands under its dotted path exactly when no two leaves with different texts share one |
| Flatten.FlattenIsLeaves | httputil/negotiate.go:190-271 | Without dots the map holds each leaf's text under its dotted path, nothing else, and no two leaves share a key |
| Flatten.DottedNamesCollide | httputil/negotiate.go:224-233 | Two leaves with one key |
| Order.BelowExactly | httputil/negotiate.go:126 | One key is below another when it is its front or the first byte that differs is the smaller one |
| Order.SortedKeys | httputil/negotiate.go:122-126 | The keys of a set, each once, in byte order |
| Order.SortedIsUnique | httputil/negotiate.go:122-126 | There is only one such list, so a table is a function of its rows |
| Table.RenderListAsTable | httputil/negotiate.go:105-159 | The text for a list: a header of exactly the keys that some value has, sorted, a line of dashes, a row for each value |
| Table.RenderObjectAsKV | httputil/negotiate.go:161-188 | The text for one value: a row of key and text for each leaf, by key |
| TableReader.RowExactly | httputil/negotiate.go:128-156 | A row is split into its cells exactly when every pipe in them is escaped, else into more, for a reader that looks one byte back and for one that pairs backslashes |
| TableReader.RowReadsExactly | httputil/negotiate.go:128-156 | A row is read as given texts exactly when each cell is one piece and, trimmed and unescaped, its text |
| TableReader.KeyReadsExactly | httputil/negotiate.go:128-136 | A key, which is written as it is, is read back exactly when it holds no pipe, escaped or not, and no blanks at edges that the reader trims |
| TableReader.ValueReadsExactly | httputil/negotiate.go:146-156 | A value is read back, newlines as spaces, exactly when it is safe for the reader and has no blanks at edges that the reader trims |
| TableReader.HeaderPipeSplits | httputil/negotiate.go:128-136 | The header of a table with one key that holds a bare pipe is read as two cells |
| TableReader.CellIsOneExactly | httputil/negotiate.go:150-152 | A rendered value is always one cell for a reader that looks one byte back, and for one that pairs backslashes exactly when no pipe stands behind an odd number of them |
| TableReader.BackslashPipeSplits | httputil/negotiate.go:150-152 | The value of a backslash and a pipe is one cell for the first reader and two for the second |
| TableReader.UnescapeCell | httputil/negotiate.go:150-151 | Unescaping a rendered value gives the value with newlines as spaces |
| TableReader.DashesRead | httputil/negotiate.go:138-142 | The line under the header has one cell for each column, as section 4.10 demands |
| TableRoundTrip.TableLinesExactly | httputil/negotiate.go:128-158 | A table's text falls into the header, the line of dashes, a line for each value and an empty one; the header is one line exactly when no key holds a newline |
| TableRoundTrip.HeaderReadsExactly | httputil/negotiate.go:128-136 | A header is read as the keys exactly when there are any and each is read back |
| TableRoundTrip.CellsReadExactly | httputil/negotiate.go:145-157 | A value's line is read as one text for each column exactly when each of them is read back |
| TableRoundTrip.TableReadsBackExactly | httputil/negotiate.go:105-159 | For any reader a list's table reads back whole, lines, header, dashes and values, exactly when it has a column, no key holds a pipe or a newline, every value is safe, and none has blanks at edges that the reader trims |
| TableRoundTrip.PairReadsExactly | httputil/negotiate.go:178-187 | A leaf's line in a key-value table is read as its key and text exactly when both are read back, and leaves its line exactly when the key holds a newline |
| TableRoundTrip.PairsReadBackExactly | httputil/negotiate.go:161-188 | For any reader a key-value table reads back exactly when every key and text does and no key holds a newline |
| TableRoundTrip.LeafReadsBack | httputil/negotiate.go:105-271 | From value tree to table and back, for any reader and any keys: a leaf's text stands in its value's line, counted from the end, in the column of its dotted path, when the line's texts are read back and no two different texts of the value share a path |
| TableRoundTrip.EscapedKeyChanges | httputil/negotiate.go:128-136 | A key with an escaped pipe is one cell for the first reader but loses its backslash |
| TableRoundTrip.NewlineKeySplits | httputil/negotiate.go:128-136 | A table whose one key holds a newline has a line too many and does not read back |
| Filenames.ParseExactly | migrator.go:203-212 | A file name is read as a version and a title exactly when it is their print |
| Filenames.VersionsExactly | migrator.go:203-212 | Versions and titles position by position: eight, six and three digits with hyphens between, or any digits; any text without a newline |
| Filenames.DigitOrder | migrator.go:196-198 | Digit strings of any one width sort as their numbers |
| Filenames.VersionOrder | migrator.go:196-198 | Stamped versions sort as strings exactly as their date, time and sequence sort as numbers |
| Filenames.PlainOrder | migrator.go:196-198 | Of two plain versions of different widths the string order compares the narrower one with the front of the wider one, ties going to the narrower |
| Filenames.PlainVersionsSortExactly | migrator.go:196-198 | They sort as their numbers exactly when that comparison agrees with the numbers: without leading zeros, when the narrower one is at most the front of the wider one |
| Filenames.ZeroDropped | migrator.go:208-209 | A leading zero does not count in the number |
| Filenames.PlainVersionsDisorder | migrator.go:196-209 | "9" and "10" do not sort as numbers |
| Filenames.MigrateNew | cmd/localitas/main.go:111-131 | The loop finds one past the largest sequence number of the second, zero when there is none, and prints the name |
| Filenames.NewFileReadsBackExactly | cmd/localitas/main.go:111-131 | The new file reads back as its version and title while the sequence is below 1000 and the title has no newline; otherwise it is no migration file |
| Filenames.NumberThousand | cmd/localitas/main.go:120-130 | A concrete directory whose next file is number 1000 and no migration file |
| Filenames.NewFileSortsLast | cmd/localitas/main.go:114-129 | The new version differs from and sorts after every other one of its second |

## Left out

- Protocol.Setup.QuietRunsAreSequential: says nothing about runs with repairs, which execute statements outside transactions; for migrations that only add schema `Convergence` covers them.
- Protocol.Setup.RefinesSequentialRun: assumes distinct versions, which loading does not check (`Loading.AllRunExactlyWhenDistinct`), and that a migration's own statements neither touch schema_migrations nor fail with the version-taken text (`Migrator.WalkRecordsExactly`); the texts of lost connections are taken to be none that Run looks for.
- Convergence.Additive.EveryRunConverges: additive means CREATE TABLE, ADD COLUMN and CREATE INDEX on separate name spaces for tables and indexes, each statement's additions in place as a whole or not at all.
- Migrator.Migrator.Apply: a context cancelled midway, and so the rollback branches, cannot be reached through a driver that only buffers; errors of Begin itself are not modelled.
- Migrator.Migrator.Run: the answers to creating schema_migrations and to reading it are arguments, the table being taken as there; the name and applied_at columns and the log output are not modelled.
- Migrator.WalkRecordsExactly: says nothing about migrations whose own statements succeed in changing the recorded versions.
- Driver.ReceivedExactly: Commit and Rollback come once per transaction, as database/sql guarantees; a connection's closed flag, the shared client map and row decoding are not modelled.
- Shell.RunSQLShell: lines are given as read; the scanner's limit of 16 MB, its removal of carriage returns, prompts and printed rows are not modelled.
- PubSubProtocol.Client.StepKeeps: writes to a closed connection count as written; marshalling errors, Publish, Ack, listeners and incoming messages are not modelled, and user calls may start before the constructor returns.
- Backoff.DelaysCycle: exact arithmetic cut to whole units, where the code multiplies floating-point numbers, so a delay may differ in its last digits and, at a tie, by one attempt.
- Backoff.RawGrows: the same.
- PubSub.PubSubWS.ScheduleReconnect: the same for the delay it returns.
- Flatten.FlattenValue: struct tags, unexported fields, what fmt and JSON print, and the random order of map entries are inputs of the model.
- TableRoundTrip.TableReadsBackExactly: only newlines end a line and only spaces are trimmed; the code leaves carriage returns and tabs in keys and values, and readers that act on them differ.
- Filenames.MigrateNew: the clock and the directory listing are arguments; lower-casing and replacing spaces and hyphens in the title come before it.
- Loading.LoadMigrations: reading is an argument, file by file; the library's sort is modelled by an insertion sort.
- Transport, JSON, authentication, locking of the Go runtime, and every endpoint that only forwards a call.
