# LDPlayer IMEI harvester — a Dafny model

The program drives a fleet of LDPlayer Android emulator instances. It runs
one driver per listed instance, with at most `MaxConcurrency` drivers
active at a time. Each driver loops forever:

1. It asks `ldconsole` to give the instance a new random IMEI.
2. It launches the instance and waits for it to boot.
3. It optionally starts an app.
4. It reads the IMEI with `getprop`.
5. It filters the IMEI and stores it in an SQLite table that keeps every IMEI once.
6. It quits the instance.

A driver stops only when a collaborator fails. It then gives back its
semaphore token. When every driver has stopped, `main` quits all instances.

The model has five modules:

- `Wrappers` holds `Option`, `Result` and the failures the collaborators report.
- `Text` holds the Go string functions the program relies on:
  - `strings.TrimSpace`, over Go's white-space class;
  - `strings.Split`, which always yields at least one piece;
  - `strings.Contains`;
  - `len` as the UTF-8 byte length.
- `LeiDian` (`lei_dian_utils/lei_dian.go`) holds:
  - the parser of the `ldconsole list2` listing and the lookups in it;
  - the post-processing of `getprop` output and the IMEI filter `IsValidIMEI`, including its `adb` restart;
  - the boot and shutdown polls, and `waitForDevice`.
  - The polling and scanning loops are methods with loop invariants. Each is proved against a function that states the result.
- `Sqlite` (`sqlite/sqlite.go`) holds the `imei_store` table:
  - The table is its rows in insertion order plus the next AUTOINCREMENT id. The order and the ids are kept so that the UNIQUE constraint and the id order of new rows can be stated. An ignored insert leaves the next id as it was (see "## Left out").
  - `INSERT OR IGNORE` and `COUNT(*) > 0` are functions on that value.
  - The class `ImeiStore` is the database handle whose methods change it.
- `Driver` (`main.go`) holds `HandleAutoImei` and `main`.
  - Every collaborator answers through an `Oracle`, one per loop iteration. The oracle says whether `modify`, `launch` and `runapp` succeed, what the boot wait reports, what `getprop` printed, and whether the database calls fail.
  - Everything the program does that can be seen from outside is appended to an event log: console commands, pauses, token takes and returns, database calls.
  - The functions `Front`, `Back`, `RunCycle`, `Loop`, `Drive`, `Spawn` and `Main` state one iteration, the loop, one driver and the fleet as values.
  - The class `Fleet` holds the shared store, the semaphore as a `capacity`/`held` counter, and the event log. Its methods, `HandleAutoImei`, `LaunchAll` and the pieces they are built from, are proved against those functions.
  - The endless loop runs over a finite trace of oracles. When the trace runs out the driver is `Running` and still holds its token.
  - Drivers run one after the other, in listing order. This is one schedule the goroutines allow. A driver that finds every token held by running drivers waits forever; the model reports it as `Blocked`.
  - A channel of capacity 0 has no room at all. Every driver then blocks on its first send and `main` blocks in `wg.Wait`, so the Go runtime aborts on the deadlock. `Main` reports this as `Deadlock`. A negative capacity makes `make` panic, reported as `ChannelPanic`.

Where the code and its description disagree, the model follows the code:

- The comment on `MaxWaitTime` (`lei_dian_utils/lei_dian.go:15`) promises a maximum wait of 120 seconds, while the constant is 60. Neither applies: `WaitForBootComplete` (`lei_dian_utils/lei_dian.go:312-324`) has no deadline and never reads `MaxWaitTime`. So the boot poll here waits until the status is `"1"` (`Starting`), with no timeout.
- `main.go:96` binds `isStart` to the result of `WaitForBootComplete`, which returns nothing. The code does not compile as written. The driver therefore treats what the boot wait reports as an opaque boolean, `Oracle.booted`.
- The comment in `WaitForShutdown` (`lei_dian_utils/lei_dian.go:331`) says the listing holds all running simulators. The lookup it calls returns the zero record and no error for an id missing from a good listing (lines 284-291), and the zero record's empty status never ends the loop at line 333. So the shutdown poll here goes on for a missing id (`LeiDian.ShutdownDoneMeaning`).
- The boot poll accepts status `"1"` (`Starting`), not `"2"` (`Running`). The model keeps that.
- The comment in `IsValidIMEI` (`lei_dian_utils/lei_dian.go:166`) says the IMEI must be 15 digits. The code checks only that the text is 15 bytes and does not contain `"adb.exe"`. It checks no digits and no check digit, and neither does the model (`LeiDian.AsciiImeiAccepted`).

## Model

| member | source | states |
|---|---|---|
| Text.Split | lei_dian_utils/lei_dian.go:52 | `strings.Split` yields at least one piece, so an empty listing is one empty line |
| Text.SplitPieces | lei_dian_utils/lei_dian.go:52-56 | no piece of a split contains the separator |
| Text.JoinSplit | lei_dian_utils/lei_dian.go:52-56 | joining the pieces of a split with the separator gives the text back |
| Text.SplitJoin | lei_dian_utils/lei_dian.go:52-56 | splitting pieces that hold no separator after joining them gives the pieces back |
| Text.TrimSpaceShape | lei_dian_utils/lei_dian.go:157 | `TrimSpace` cuts only white space, from both ends; the result has no white space at either end; it is empty exactly when the text is all white space |
| Text.TrimSpaceOfTrimmed | lei_dian_utils/lei_dian.go:52 | trimming text that has no white space at either end changes nothing |
| Text.ContainsIff | lei_dian_utils/lei_dian.go:173 | `strings.Contains` holds exactly when the pattern occurs at some position |
| Text.Utf8LenBounds | lei_dian_utils/lei_dian.go:167 | Go's byte length lies between the character count and four times it, and equals the character count exactly for ASCII text |
| LeiDian.ParseFromShape | lei_dian_utils/lei_dian.go:55-72 | the records of a run of lines are exactly the lines with at least ten fields, field `k` to column `k`, in line order; there are no more records than lines |
| LeiDian.ParseShape | lei_dian_utils/lei_dian.go:52-72 | the same for a listing after trimming and splitting on line breaks: every record comes from a line with at least ten fields, mapped in order, no such line is dropped, line order is kept, and there are no more records than lines |
| LeiDian.ParseRender | lei_dian_utils/lei_dian.go:52-72 | parsing the printed form of records whose fields hold no comma or line break, and whose printed listing has no white space at either end, gives the records back |
| LeiDian.ParseUntrimmed | lei_dian_utils/lei_dian.go:52 | a listing with no white space at either end is parsed line by line as it stands |
| LeiDian.ParseEmpty | lei_dian_utils/lei_dian.go:52-57 | an empty listing gives no records: its one empty line has one field |
| LeiDian.GetSimulators | lei_dian_utils/lei_dian.go:39-75 | a failed command or decoding is returned as the error; otherwise the result is the parsed listing |
| LeiDian.ParseLines | lei_dian_utils/lei_dian.go:55-72 | the append loop returns exactly the records of the lines with at least ten fields, in order |
| LeiDian.ContainsSimulators | lei_dian_utils/lei_dian.go:108-115 | true exactly when the item equals an element of the slice |
| LeiDian.FindByIdFirst | lei_dian_utils/lei_dian.go:284-288 | when some record has the id, the search yields the first such record |
| LeiDian.FindByIdAbsent | lei_dian_utils/lei_dian.go:284-291 | when no record has the id, the search yields the zero record |
| LeiDian.FirstIndex | lei_dian_utils/lei_dian.go:284-288 | given any record with the id, there is a first one, at or before it |
| LeiDian.GetByIdSimulators | lei_dian_utils/lei_dian.go:281-292 | the scan returns the listing's error, or the first record with the id, or the zero record with no error |
| LeiDian.LookupMeaning | lei_dian_utils/lei_dian.go:281-292 | after a successful listing, the lookup yields the first record with the id, and yields the zero record with no error when no record has it |
| LeiDian.BootReadyMeaning | lei_dian_utils/lei_dian.go:316-317 | a poll ends the boot wait exactly when the listing succeeded and the first record with the id has status "1" |
| LeiDian.ShutdownDoneMeaning | lei_dian_utils/lei_dian.go:327-336 | a poll ends the shutdown wait exactly when the listing failed or the first record with the id has status "0"; an id missing from a good listing gives status "" and the wait goes on |
| LeiDian.WaitForBootComplete | lei_dian_utils/lei_dian.go:312-324 | returns at the first snapshot that ends the boot wait, having slept 2 s after each earlier one; no earlier snapshot ends it; with no such snapshot it is still polling, with no deadline |
| LeiDian.WaitForShutdown | lei_dian_utils/lei_dian.go:327-341 | returns at the first snapshot that ends the shutdown wait, having slept 2 s after each earlier one; no earlier snapshot ends it; otherwise it is still polling |
| LeiDian.WaitForDevice | lei_dian_utils/lei_dian.go:344-365 | at most 10 attempts; true exactly when some attempt printed a line containing both "emulator-" + index and "device"; it stops at the first such attempt, and it uses all 10 attempts when it returns false; it sleeps 3 s after every attempt that found nothing, the last one included |
| LeiDian.GetPropImeiMeaning | lei_dian_utils/lei_dian.go:135-163 | about the function `GetPropImei`: a failed command is an error; otherwise the IMEI is the output with white space cut from both ends, and it is an error exactly when the output was all white space; output with any non-white-space character gives `Ok` of the trimmed text |
| LeiDian.IsValidImeiMeaning | lei_dian_utils/lei_dian.go:165-182 | about the function `IsValidIMEI`: accepted exactly when the text is 15 bytes long and "adb.exe" occurs nowhere in it; the bridge is restarted (kill, 10 s pause, start, once each, in that order) exactly when the length is 15 and the marker occurs |
| LeiDian.ValidImeiLength | lei_dian_utils/lei_dian.go:167 | an accepted IMEI has at most 15 characters, and exactly 15 when it is ASCII |
| LeiDian.AsciiImeiAccepted | lei_dian_utils/lei_dian.go:165-182 | any 15-character ASCII text without the marker is accepted, digits or not |
| Sqlite.CountImeiPositive | sqlite/sqlite.go:77-81 | `COUNT(*) > 0` exactly when some row holds the imei |
| Sqlite.CountImeiAtMostOne | sqlite/sqlite.go:44 | with imeis unique, the count of any imei is at most one |
| Sqlite.CountImeiAppend | sqlite/sqlite.go:63-81 | appending a row adds one to the count of its imei and nothing to the others |
| Sqlite.InsertWellFormed | sqlite/sqlite.go:42-63 | `INSERT OR IGNORE` keeps imeis unique and ids increasing and below the next id |
| Sqlite.InsertNew | sqlite/sqlite.go:63 | inserting an absent imei appends exactly one row (next id, imei, instance index), keeps every other row, and leaves the count of every other imei unchanged |
| Sqlite.InsertPresent | sqlite/sqlite.go:44-63 | inserting a present imei leaves the table unchanged |
| Sqlite.InsertIdempotent | sqlite/sqlite.go:63 | inserting the same imei twice is inserting it once |
| Sqlite.HasAfterInsert | sqlite/sqlite.go:63 | after an insert, exactly the imeis present before and the inserted one are present |
| Sqlite.InsertAllStores | sqlite/sqlite.go:44-63 | after any sequence of inserts the table is well formed, an imei is present exactly when it was present before or was inserted, and it is held by one row at most |
| Sqlite.ImeiStore.constructor | sqlite/sqlite.go:40-53 | `createTable` on a fresh database file: the new table is empty and well formed (an existing file keeps its rows, which the fleet takes as any well-formed table) |
| Sqlite.ImeiStore.InsertStoreIMEI | sqlite/sqlite.go:56-72 | a failing statement is rolled back, leaves the table as it was and returns an error; otherwise the table becomes `INSERT OR IGNORE` of the old one and nil is returned; the table stays well formed |
| Sqlite.ImeiStore.CheckIMEIExists | sqlite/sqlite.go:75-82 | a failing query gives (false, error); otherwise no error and true exactly when some row holds the imei |
| Driver.AdbEventsShape | lei_dian_utils/lei_dian.go:173-177 | the filter's bridge restart is logged one event per action, each of them `adb kill-server`, the 10 s pause or `adb start-server`; no action logs nothing, and kill, pause, start log exactly those three events in that order |
| Driver.BackRestart | lei_dian_utils/lei_dian.go:173-177 | what follows the IMEI read opens with `adb kill-server`, the 10 s pause and `adb start-server` exactly when the filter restarts the bridge |
| Driver.FrontShape | main.go:72-112 | about the function `Front`: an iteration opens with its one `modify`, takes or gives back no token, issues no insert and no quit before the IMEI read, reaches the read exactly when modify and launch succeed and, after a true boot report, runapp succeeds, and otherwise ends with the call that failed |
| Driver.FrontCounts | main.go:76-109 | up to the IMEI read, an iteration issues exactly one `modify`, no token operation and no `quitall` |
| Driver.StartedCounts | main.go:76-88 | `modify`, the optional pause and the launch hold exactly one `modify` and no token operation |
| Driver.BackShape | main.go:120-140 | about the function `Back`: after the read: only bridge restart, database calls and quit; an insert only for the read IMEI, when it was accepted and the query ran and did not find it; the table changes only by that insert; a failed database call is the last event and leaves the table as it was; otherwise the iteration ends with the quit |
| Driver.CycleCounts | main.go:72-141 | about the function `RunCycle`: a whole iteration opens with `modify`, issues it once, and takes or gives back no token |
| Driver.FailureIsLastCall | main.go:76-134 | a failing collaborator is the last call of its iteration, so nothing more is issued for that instance, and the table is left as it was |
| Driver.SettlePause | main.go:73-88 | the settle pause, 2 s long, comes right after a successful `modify` and right before the launch, and only from the second iteration on |
| Driver.AppAfterBoot | main.go:96-109 | after a true boot report, the app is started 2 s after the boot wait; the IMEI is read after the 20 s wait when it started, and the iteration ends at `runapp` when it did not |
| Driver.CycleStartsWithFront | main.go:72-141 | an iteration's events start with those up to the IMEI read |
| Driver.NoAppWithoutBoot | main.go:96-112 | after a false boot report, the IMEI read follows the boot wait directly and no app is started in that iteration |
| Driver.InsertOnlyNewValid | main.go:121-135 | an insert is issued only for the IMEI read, when it was accepted and the existence query succeeded and did not find it; the table changes only by inserting that IMEI |
| Driver.SkipStillQuits | main.go:121-142 | a rejected IMEI, or one already stored, is not inserted, and the iteration still quits the instance and does not end the driver |
| Driver.FreshImeiStored | main.go:121-140 | with every collaborator answering well and a new accepted IMEI, the iteration ends with query, insert for this instance, and quit, and the IMEI is then stored |
| Driver.LoopCounts | main.go:67-142 | about the function `Loop`: `count` rises by one per iteration, and a stop falls within the trace; it issues one `modify` per iteration, gives the token back once when it stops and never while it goes on, and issues no `quitall` |
| Driver.LoopAbortsAt | main.go:72-134 | a driver stops after iteration `k` at a given stage exactly when `k` lies within the trace, every earlier iteration ran through, and iteration `k`, run on the table the earlier ones left, fails at that stage, so the loop stops at the first failing iteration |
| Driver.LoopRunsOn | main.go:72-142 | a driver is still running at the end of the trace exactly when no iteration in it fails, so without a failure it goes on through the whole trace |
| Driver.LoopEnding | main.go:76-134 | a driver that stops ends with the call that failed, followed by giving its token back |
| Driver.TokenDiscipline | main.go:69-134 | about the function `Drive`: a driver takes its token once, as its first event, before any iteration; it gives it back exactly once, as its last event, on every return path, and holds it while running; a driver that gets no token issues nothing |
| Driver.LoopTable | main.go:120-136 | the table stays well formed, and every IMEI stored at the end was stored before or was inserted by this driver |
| Driver.SpawnShape | main.go:51-57 | the range loop launches one driver per record whose id is not "0", in listing order; the tokens held are those of the drivers still running and never exceed the channel's capacity |
| Driver.SpawnTokens | main.go:51-69 | across the launched drivers, the tokens taken less those given back are the tokens held, and no driver issues `quitall` |
| Driver.JoinedBalanced | main.go:52-57 | adding a driver whose own tokens balance keeps the fleet's tokens balanced |
| Driver.EligibleIdsNoZero | main.go:52-53 | id "0" never gets a driver, and the number launched is the number of records less those with id "0" |
| Driver.HoldingNone | main.go:59 | when every driver has returned, no token is held |
| Driver.FinishShape | main.go:59-61 | `quitall` is issued once, as the last event, exactly when every driver has returned, and then no token is held |
| Driver.MainShape | main.go:44-61 | about the function `Main`: a failed listing ends `main` before any driver or `quitall`; `make` panics exactly when the listing succeeds and the capacity is negative, and then nothing is issued; with a non-negative capacity exactly one driver per record whose id is not "0" is launched; `quitall` is issued once, last, exactly when every driver returned; with no deadlock and no panic, the outcome is `AllReturned` exactly when every driver stopped, and then no token is held; tokens taken less those given back are the tokens held, never more than the capacity |
| Driver.MainDeadlock | main.go:51-69 | `main` deadlocks exactly when the listing succeeds, the capacity is 0 and some record's id is not "0"; then every driver is blocked on its first send, nothing is issued and no token is held |
| Driver.SpawnNoRoom | main.go:51-69 | with a capacity of 0 every launched driver is blocked before issuing anything, and no token is ever held |
| Driver.Fleet.constructor | main.go:38-42 | the fleet starts with the opened store, no token held and no event |
| Driver.Fleet.Prepare | main.go:73-112 | appends the events of an iteration up to the IMEI read and returns the failure that ended it, as `Front` states |
| Driver.Fleet.Record | main.go:120-140 | appends the filter, database and quit events, leaves the store as `Back` states, keeps it well formed, and returns the failure, if any |
| Driver.Fleet.Iterate | main.go:72-141 | one iteration: the events, the table and the failure are those of `RunCycle` |
| Driver.Fleet.Repeat | main.go:72-142 | the endless loop over the trace: events, table and exit are those of `Loop`; the token is given back exactly when the driver stops |
| Driver.Fleet.HandleAutoImei | main.go:64-144 | takes a token when one is free, then loops; events, table, exit and tokens held are those of `Drive` |
| Driver.Fleet.SpawnAll | main.go:50-57 | the range loop: the ids launched, the exits, the events, the table and the tokens held are those of `Spawn` |
| Driver.Fleet.LaunchAll | main.go:44-61 | `main` after the database is open: outcome (listing failure, panic, deadlock, all returned, still waiting), ids launched, events and table are those of `Main`; after a listing failure or a panic the semaphore is untouched, otherwise its capacity is `MaxConcurrency` and the tokens held are those `Main` leaves |

## Left out

- External commands: `ModifyAutoImei`, `StartSimulators`, `RunApp`, `Quit`, `QuitAll`, `adbKillServer`, `adbStartServer` and the `getprop` command run external processes. The model records each as an event. Their success or failure, and what `getprop` and `ldconsole list2` printed, are inputs.
- `CreateSimulators` and `RebootSimulator` are external commands that nothing on the modelled path calls. They are not modelled.
- `CopySimulator`, `RemoveSimulator` and `adbDevices` are empty stubs, and `SetPropImei` is commented out. They are not modelled.
- GBK decoding (`tools/gbk_to_utf-8.go`): the listing is taken as already decoded text. A decoding failure is reported like a failed command.
- Go strings are taken as sequences of characters. `len` is computed as their UTF-8 byte length, and invalid UTF-8 is not represented.
- `mysql/mysql.go` is not part of this model. `main` uses only the SQLite store.
- Concurrency: goroutines, `sync.WaitGroup`, the `Locer` mutex around `getprop`, and real interleavings on the semaphore channel are not modelled. Drivers run one after the other in listing order.
- Driver.Fleet.HandleAutoImei: a driver that finds no free token is reported as `Blocked`. In the program it waits until another driver gives its token back, which cannot happen within the sequential schedule.
- Driver.Fleet.HandleAutoImei: the endless loop is cut at the end of a finite oracle trace. `Running(n)` means the driver would go on.
- LeiDian.WaitForBootComplete, LeiDian.WaitForShutdown: the endless polls are cut at the end of a finite snapshot sequence. `None` means they would go on polling.
- In the driver, the boot wait is the opaque `Oracle.booted`, not a call to `LeiDian.WaitForBootComplete`, because `main.go:96` uses the result of a function that returns nothing.
- `time.Sleep`: pauses are recorded as events in the driver, and as the total seconds slept in the two polls and in `waitForDevice`. No clock is modelled.
- LeiDian.WaitForDevice: takes exactly 10 outputs of `adb devices`, one per attempt. The ignored error of `cmd.Output` only shows in what those outputs hold.
- Configuration: loading `config.ini` (`main.go:19-34`) is not modelled. `PackageName` and `MaxConcurrency` are parameters.
- Database setup: `ConnectDB` and the deferred `db.Close` are not modelled. `createTable` is modelled only on a fresh database file, by the `ImeiStore` constructor. The fleet starts from any well-formed store, which covers an existing file whose rows `CREATE TABLE IF NOT EXISTS` keeps.
- `db.Begin()` (`sqlite/sqlite.go:58`): its failure ends the process through `log.Fatalf` and is not modelled. The ignored error of `tx.Commit` is taken as success.
- Sqlite.InsertPresent, Sqlite.InsertIdempotent: an ignored `INSERT OR IGNORE` keeps the next id here, whereas SQLite may consume an AUTOINCREMENT id on it; only the rows are pinned down exactly. The program never reads the ids, and the driver inserts only after the existence query found nothing.
- The `created_at` column holds a clock reading and is not modelled.
- Logging: all `fmt`/`log` output is left out. This includes the log lines at `main.go:103,124,131`, which print the outer `err` instead of the error just returned.
