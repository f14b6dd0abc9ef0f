# What tsmyadmin promises, proved

A Dafny model of the parts of tsmyadmin whose promises are hardest to see in the code, and proofs of those promises.
Each module stands for one component of the system:

- `Console`, `ConsoleScripts`, `ConsoleRunner`: running and cancelling SQL scripts. `Console` is the protocol as a state
  machine, one action for each stretch of code between two awaits; `ConsoleScripts` says what becomes of the statements,
  the connection and the cancel requests; `ConsoleRunner` is the object itself, whose methods take those
  steps on its fields, so that any sequence of calls is an interleaving.
- `SavedItems`, `SqliteItems`, `RedisItems`, `RedisAnswers`: stored items. One transaction on a list of rows is the specification; the
  SQLite store is a class proved to do it, the Redis store a protocol of single commands, expiring locks and fencing
  tokens proved to refine it; `RedisAnswers` says what its calls answer.
- `Sessions`, `SessionRules`: sessions in Redis shared by several replicas; which ones are returned and which are ended.
- `SecondFactor`, `Acceptance`, `LookLimit`, `SqliteFactors`: the second factor, compare-and-set writes and a proof that
  is counted before it is looked at; which proofs are accepted; how many are looked at in a window; and its SQLite store.
- `Texts`, `Wrappers`: bytes, white space, and result types shared by the others.
- `Crc`, `Zip`, `ZipFormat`, `ZipForeign`: the ZIP writer that streams, the format other programs read of it, its reader,
  of their archives too, and CRC-32.
- `Cells`, `Csv`, `CsvDialects`, `XmlReader`, `XmlExport`, `XmlDocuments`: CSV and XML, written and read back, and read
  in any dialect and from any document.
- `Totp`: base32, and the step a one-time code is right for.
- `Resume`: what is left to run of a script that was stopped.
- `Ordering`, `OrderingRules`: the order a dump writes its objects and tables in.
- `Snapshots`: the memory budget of schema snapshots.

Protocols are runs of atomic steps (`Trace`, `IsTrace`): a theorem about a run holds for every order of steps. Loops and
objects that the source updates in place are methods and classes, proved against functions; the theorems are about
those functions.

Where the system does less than it might seem to promise, the model follows the code and says exactly when it holds:
`LookLimit.LimitedExactly` (the limit on proofs looked at fails where requests were counted, but not looked at, before
the stretch began; `ElevenLooks` and `TwentyAtOnce` are such runs), `Resume.RestRightExactly` (nested BEGIN), `Csv.DelimitersThatWork` and `Csv.ComesBackUnlessMarked` (delimiters and a leading byte order mark),
`SavedItems.SavedKeepsCap` (a kind already over its cap stays so when an existing name is saved).

Verify everything with `dafny verify dfyconfig.toml`.

## Model

| member | source | states |
|---|---|---|
| `Console.SignalHitsOnlyItsRun` | packages/adapter/src/sql-console.ts:224-264 | over every interleaving of runs, cancels (during cleanup too) and reused ids, a signal that was sent to a connection, whether it has landed yet or not, is of a cancelled run, and that connection is closed, or still held by that run, which will close it: never in the pool, never another borrower's |
| `Console.CancelledStops` | packages/adapter/src/sql-console.ts:283-291 | once a run's flag is set no user statement of it goes on the wire again, neither the next one nor the unwrapped re-run, in any later state |
| `Console.FlagsAndRegistry` | packages/adapter/src/sql-console.ts:137-141 | in every reachable state interrupted or signalled implies cancelled, the registry maps an id only to a run of that id that has not ended, and a closed connection had a cancelled user |
| `Console.StepKeepsInv` | packages/adapter/src/sql-console.ts:115-265 | each stretch of code between two awaits, of a run, a cancel or the sender, keeps the invariant behind these |
| `Console.SenderKeepsInv` | packages/adapter/src/sql-console.ts:373-422 | a signal leaves only while the registry shows the run, whose last look at the flag is then still to come; sending it keeps the invariant |
| `Console.LetGoKeepsInv` | packages/adapter/src/sql-console.ts:240-252 | letting a connection go, closed where the run was cancelled in time and else back in the pool, keeps connections exclusive and signals harmless |
| `Console.DeregisterLeaves` | packages/adapter/src/sql-console.ts:256-263 | leaving the registry takes only the run's own registration, never that of a later run of the same id |
| `Console.CancelledSendsNothing` | packages/adapter/src/sql-console.ts:274-300 | one action of anybody: a cancelled run stays cancelled and puts nothing more on the wire |
| `ConsoleScripts.EveryStatementIsTaken` | packages/adapter/src/sql-console.ts:137-222 | over every interleaving a run takes its statements 0, 1, 2, … with no gap, turns down only those it does not support, and repeats only one sent wrapped, once; once ended it has taken all of them, unless a cancel stopped it, it had no connection or set-up, its caller's callback threw, or it reported an error and stops on one, and then it takes no more |
| `ConsoleScripts.TakenMeansEach` | packages/adapter/src/sql-console.ts:137 | which is to say that each statement below the number reached was sent or turned down, and none above |
| `ConsoleScripts.SentAgainExactly` | packages/adapter/src/sql-console.ts:283-299 | a failed statement is sent again, unwrapped, if and only if it was wrapped, only the wrapper broke it and nobody cancelled |
| `ConsoleScripts.InterruptedExactly` | packages/adapter/src/sql-console.ts:137-222 | a run counts as interrupted if and only if a cancel had come and a statement was left that is not taken, or one was told to have failed |
| `ConsoleScripts.ConnectionLeftClean` | packages/adapter/src/sql-console.ts:224-252 | over every interleaving the connection a script ran on is closed, or was rolled back and reset after all of it and right before it was let go |
| `ConsoleScripts.ClosedAtOnce` | packages/adapter/src/sql-console.ts:240-242 | a run cancelled by the time it cleans up goes straight to being closed, and no other does |
| `ConsoleScripts.CancelTellsTheTruth` | packages/adapter/src/sql-console.ts:350-422 | over every interleaving the answer of a cancel was true of the run when it was decided: stopped by the flag, or hit by a signal that was out during one of its statements, or still stopping |
| `ConsoleScripts.SignalsAreOut` | packages/adapter/src/sql-console.ts:373-422 | over every interleaving whoever waits for what a signal does, or was told it hit, has one that was sent to the run's own connection |
| `ConsoleScripts.SentExactly` | packages/adapter/src/sql-console.ts:373-407 | a signal is sent if and only if the run is registered and the canceller was just connected, or a pause is over with a statement in flight and fewer than forty repeats |
| `ConsoleScripts.EveryRunCanBeReached` | packages/adapter/src/sql-console.ts:135-136 | over every interleaving a run with an id has its backend published from its first statement on, so that a cancel can find it |
| `ConsoleScripts.TraceIsOutcome` | packages/adapter/src/sql-console.ts:115-422 | every run of the protocol is such a list of actions, each possible where it stands |
| `ConsoleRunner.ScriptRunner.Execute` | packages/adapter/src/sql-console.ts:115-265 | calling the methods in any order and any number of times takes the object where that interleaving of the protocol goes, to a state of one of its traces, where no signal sent is out for a connection of the pool |
| `ConsoleRunner.TraceIsAList` | packages/adapter/src/sql-console.ts:115-265 | and every interleaving is one of those orders |
| `ConsoleRunner.ScriptRunner.Perform` | packages/adapter/src/sql-console.ts:115-422 | every action of the protocol that can happen is done by a method of the object, on its fields |
| `ConsoleRunner.ScriptRunner.Publish` | packages/adapter/src/sql-console.ts:131-136 | the backend id is there for a cancel only after the set-up has succeeded |
| `ConsoleRunner.ScriptRunner.Begin` | packages/adapter/src/sql-console.ts:115-126 | registers the entry at once, over an earlier one of its id, exactly as the protocol's step, and keeps the invariant |
| `ConsoleRunner.ScriptRunner.NextStatement` | packages/adapter/src/sql-console.ts:137-168 | the loop's head, on the object's fields, is the protocol's step: it stops at the flag, and a cancelled run's count of sent statements does not grow |
| `ConsoleRunner.ScriptRunner.StatementFailed` | packages/adapter/src/sql-console.ts:283-299 | a failed statement is sent again only where the wrapper alone broke it and nobody cancelled |
| `ConsoleRunner.ScriptRunner.CleanUp` | packages/adapter/src/sql-console.ts:234-243 | a run cancelled by then has its connection closed with no round trip on it; any other is rolled back first |
| `ConsoleRunner.ScriptRunner.AfterReset` | packages/adapter/src/sql-console.ts:242-250 | the flag is looked at once more after the reset: a cancel that came meanwhile discards the connection |
| `ConsoleRunner.ScriptRunner.LetGo` | packages/adapter/src/sql-console.ts:240-252 | a discarded connection does not enter the pool |
| `ConsoleRunner.ScriptRunner.Finish` | packages/adapter/src/sql-console.ts:256-263 | every registration of another run stays as it was |
| `ConsoleRunner.ScriptRunner.Cancel` | packages/adapter/src/sql-console.ts:350-371 | a cancel whose backend id arrived leaves the run cancelled and starts at most one sender for it |
| `ConsoleRunner.ScriptRunner.CancellerOpened` | packages/adapter/src/sql-console.ts:373-392 | a signal is sent only if the registry still shows the run once the canceller is connected |
| `ConsoleRunner.ScriptRunner.SignalOut` | packages/adapter/src/sql-console.ts:383-392 | a signal counts as one that hit only if a statement was in flight on both sides of it; a failed one fails the cancel only while the run is registered |
| `ConsoleRunner.ScriptRunner.SendAgain` | packages/adapter/src/sql-console.ts:393-407 | a signal is sent again only to a registered run with a statement in flight |
| `SavedItems.SavedMeets` | apps/api/src/session/saved-queries.ts:131-169 | one transaction leaves other kinds' rows as they were and names unique, the named row holds the new body, and no row of the kind changes otherwise |
| `SavedItems.SavedDrops` | apps/api/src/session/saved-queries.ts:149-161 | a superseded row of the same kind is gone, never the row written; other rows go only for a new name, and none of them is newer than a row that stays |
| `SavedItems.SavedKeepsCap` | apps/api/src/session/saved-queries.ts:22-24 | with a cap of at least one, the kind ends at or under it if and only if the name is new or the kind was not over it already |
| `SavedItems.SavedSize` | apps/api/src/session/saved-queries.ts:131-169 | the exact number of the kind's rows after a transaction |
| `SavedItems.EvictedOldest` | apps/api/src/session/saved-queries.ts:22-24 | whatever lies beyond the cap is no newer than what does not |
| `SavedItems.SavedRows` | apps/api/src/session/saved-queries.ts:131-169 | a transaction writes one row and drops exactly the superseded and evicted ones |
| `SqliteItems.StoredIsSaved` | apps/api/src/session/saved-queries.ts:149-161 | the table's statements, in their order, change the owner's readable rows as one transaction of the specification does and no other owner's |
| `SqliteItems.SqliteSavedQueries.Read` | apps/api/src/session/saved-queries.ts:83-104 | lists every readable row of the owner's kind once, newest first, and drops only the owner's rows that do not open |
| `SqliteItems.SqliteSavedQueries.Transaction` | apps/api/src/session/saved-queries.ts:131-169 | a save or update on the table is the specified transaction on the owner's rows, decided from the rows it changes; declined, it changes no readable row |
| `SqliteItems.SqliteSavedQueries.Remove` | apps/api/src/session/saved-queries.ts:175-191 | removes exactly the row of that id, owner and kind, and only where the condition agrees with it |
| `SqliteItems.InsertKeepsOrder` | apps/api/src/session/saved-queries.ts:103 | sorting by insertion keeps newest first and ids distinct |
| `RedisItems.LandedWritesAreSerial` | apps/api/src/session/redis-store.ts:385-492 | with locks expiring at any moment and any number of processes, what is stored is at every moment the serial replay, on the plain list, of the writes that landed, each decided from exactly what the ones before it left |
| `RedisItems.AppliedExactlyOnce` | apps/api/src/session/redis-store.ts:471-492 | a call that returned applied its change exactly once (a declined one never), one that failed as busy never, none twice; when a call declines is `RedisAnswers.DeclinesExactly` |
| `RedisItems.KindsStayTidy` | apps/api/src/session/redis-store.ts:385-428 | through any landed writes names stay unique within a kind and the kind at or under its cap, so that no trim of it ever lands |
| `RedisItems.Landing` | apps/api/src/session/redis-store.ts:536-549 | a fenced write that lands does to the rows what one transaction, one removal or one trim does, and was decided from the rows it lands on |
| `RedisItems.StepKeepsInv` | apps/api/src/session/redis-store.ts:352-509 | every command of every process, and every expiry of a lock, keeps the invariant behind these |
| `RedisItems.ReadStepSound` | apps/api/src/session/redis-store.ts:352-370 | while a kind's lock is held, what a list has read so far stays what is stored, whatever command comes next |
| `RedisItems.ReadIsListing` | apps/api/src/session/redis-store.ts:352-370 | a finished list, sorted, is every row of the kind once, newest first |
| `RedisItems.PruneKeepsRows` | apps/api/src/session/redis-store.ts:554-560 | pruning an unreadable value, unless it was replaced since it was read, changes no kind's readable rows |
| `RedisItems.FencedKeepsOthers` | apps/api/src/session/redis-store.ts:536-549 | a fenced write of one kind changes no other kind's rows |
| `RedisItems.FencedOpened` | apps/api/src/session/redis-store.ts:536-549 | the readable rows after a fenced write, row by row |
| `RedisItems.UnlockedSound` | apps/api/src/session/redis-store.ts:483-492 | giving the lock up, and beginning the next round under a new token or ending as busy, takes no other call's lock |
| `RedisAnswers.DeclinesExactly` | apps/api/src/session/redis-store.ts:446-466 | over every interleaving a call that returned declined if and only if the list it judged, read to its end under its own token and with the lock held exactly what is stored, gives it nothing to do: no body from its change, or the row missing or not one to remove |
| `RedisAnswers.SavesNeverDecline` | apps/api/src/session/redis-store.ts:372-412 | so a save never declines: once it returns, it has landed, exactly once |
| `RedisAnswers.AnswersWithWhatItRead` | apps/api/src/session/redis-store.ts:412-428 | a call that returned gives back the list it read last under its token, cut to the cap for a write; an update with nothing to do the one it judged |
| `RedisAnswers.RefusedExactlyWhereLost` | apps/api/src/session/redis-store.ts:437-449 | a write is refused if and only if the call has lost its lock, and a refused one changes nothing |
| `RedisAnswers.UpdatesReadAgain` | apps/api/src/session/redis-store.ts:385-461 | an update writes only from a list it read again to its end after judging one; any other write is made from the list judged |
| `RedisAnswers.BusyOnlyWhereBeaten` | apps/api/src/session/redis-store.ts:471-492 | a call fails as busy only after three refused writes, or where the lock was somebody else's at the last of its tries |
| `RedisAnswers.TrimTakesTheOldest` | apps/api/src/session/redis-store.ts:413-428 | a trim leaves exactly the cap of the kind, none older than a row it takes, and every other kind |
| `RedisAnswers.ReleasesItsOwn` | apps/api/src/session/redis-store.ts:483-492 | after giving its lock up a call has it no more, and every other lock stays |
| `Sessions.GoneForGood` | apps/api/src/session/redis-store.ts:204-266 | in any run of any replicas a session once gone never comes back, and no call returns it again |
| `Sessions.NoNewHollowHash` | apps/api/src/session/redis-store.ts:77-84 | no get, slide, delete or sweep ever leaves a hash without a payload: one that is there was there from the start |
| `Sessions.StaleIsGoneForGood` | apps/api/src/session/redis-store.ts:60-71 | an index member dropped as stale, whatever replies failed, belongs to a session that is gone for good |
| `Sessions.IndexGainsOnlySessions` | apps/api/src/session/redis-store.ts:77-84 | an index never gains a member whose session is not there at that moment |
| `Sessions.StepGentle` | apps/api/src/session/redis-store.ts:163-306 | no step brings a session back, leaves a new hash without a payload, adds an index member without a session, or returns a session that is not there |
| `Sessions.StepKeepsInv` | apps/api/src/session/redis-store.ts:163-306 | each step keeps the invariant: replies of absence, and what is listed as stale, are of sessions that are gone |
| `Sessions.PartitionByExistence` | apps/api/src/session/redis-store.ts:60-71 | a member is stale if and only if the reply for it says there is no payload; failed and missing replies leave it held |
| `Sessions.StaleGone` | apps/api/src/session/redis-store.ts:204-213 | members listed as stale are those whose absence was read |
| `SessionRules.EveryEventIsJustified` | apps/api/src/session/redis-store.ts:175-306 | over every run a session is returned only by a call that found it used within the time to live; a delete begins only where no payload was read, the time of last use read was longer ago than that, the payload does not open and no pool was held, it was asked for, or it was a victim of the account limit; and the limit's victims are as many as are over the cap, never the one to keep, those used longest ago |
| `SessionRules.SessionsEndOnlySo` | apps/api/src/session/redis-store.ts:238-252 | over every run a hash goes only by its key's expiry or at the hands of a call that had begun to delete it for such a reason |
| `SessionRules.EveryVictimIsEnded` | apps/api/src/session/redis-store.ts:188-194 | over every run a call that enforced the limit has, when it is done, begun to end every victim |
| `SessionRules.VictimsAreRight` | apps/api/src/session/redis-store.ts:188-194 | the victims of any index and any replies: the first of the members still held, without the one to keep, as many as are over the cap |
| `SessionRules.GetReturnsExactlyTheLive` | apps/api/src/session/redis-store.ts:215-252 | a get that nothing comes between returns the session if and only if it has a payload, was used within the time to live, and opens or is held; its last use is then now; else what was left of it is ended and nothing returned |
| `SessionRules.GoneMeanwhile` | apps/api/src/session/redis-store.ts:246-250 | a get whose session went while it was looked at gives nothing back, keeps no pool of it and brings nothing back |
| `SessionRules.DeleteAlone` | apps/api/src/session/redis-store.ts:254-266 | a delete that nothing comes between ends the session and takes it out of the index of its account, as its hash, the pool held here or its payload tells, and of no other |
| `SessionRules.NewSessionIsLive` | apps/api/src/session/redis-store.ts:163-186 | a session just created is live for every process until its time to live is over, and is in its account's index |
| `SessionRules.CreateEnforcesTheLimit` | apps/api/src/session/redis-store.ts:182-186 | the limit is enforced on creation unless the others are to be kept for now |
| `SessionRules.TrimTakesExactlyTheOld` | apps/api/src/session/redis-store.ts:188-192 | the index loses exactly the members used longer ago than the time to live |
| `SessionRules.DropTakesExactlyTheStale` | apps/api/src/session/redis-store.ts:204-213 | and exactly those answered for with no |
| `SessionRules.SweepTakesExactly` | apps/api/src/session/redis-store.ts:297-306 | a sweep closes the pool of a session that is gone, ends one that is too old, and leaves the others |
| `SecondFactor.MissesInWindow` | apps/api/src/routes/second-factor.ts:156-170 | however many requests race, in any stretch of a run without an accepted proof or a removal at most MAX_MISSES misses are stamped in any half-open window of length LOCK_MS |
| `LookLimit.LimitedExactly` | apps/api/src/routes/second-factor.ts:156-170 | from any reachable state within a window of length LOCK_MS: every way to go on without an accepted proof or a removal has at most MAX_MISSES looks in the window if and only if the requests that stand between being counted and being looked at, the room the stored count leaves, and a late request, are at most MAX_MISSES together; for windows of the stamps proofs are counted with and for windows of the moments they are looked at |
| `LookLimit.NeverMoreThanMay` | apps/api/src/routes/second-factor.ts:156-170 | no continuation without an acceptance or a removal looks at more proofs in the window than those three together |
| `LookLimit.AsManyAsMay` | apps/api/src/routes/second-factor.ts:156-170 | from every such state some continuation looks at that many, so the bound is the exact maximum |
| `LookLimit.StepBalance` | apps/api/src/routes/second-factor.ts:156-170 | one action of anybody: what it looks at in the window is taken from what might still be looked at there |
| `LookLimit.CountingBalance` | apps/api/src/session/second-factor-lock.ts:13-29 | a miss that lands in the window uses up one of its places, whatever had been counted and however long ago |
| `LookLimit.ElevenLooks` | apps/api/src/routes/second-factor.ts:156-170 | a run in which more than MAX_MISSES proofs are looked at in one window after an acceptance: one had been counted before it |
| `LookLimit.TwentyAtOnce` | apps/api/src/routes/second-factor.ts:163-169 | a run in which ten requests are counted, the lock runs out, ten more are counted, and all twenty are looked at at one moment, with no acceptance or removal since the enrolment |
| `SecondFactor.CountedThenLookedAt` | apps/api/src/routes/second-factor.ts:156-170 | over every run a proof is counted before it is looked at, looked at at most once, and accepted only after it was looked at |
| `SecondFactor.GapAmongEleven` | apps/api/src/session/second-factor-lock.ts:13-29 | any eleven misses in a row contain a gap of at least LOCK_MS |
| `SecondFactor.ElevenSpanTheLock` | apps/api/src/session/second-factor-lock.ts:13-29 | so any eleven landed misses in a row span at least LOCK_MS |
| `SecondFactor.MissKeepsCount` | apps/api/src/session/second-factor-lock.ts:13-29 | a miss written where fewer than the limit still count keeps the stored count equal to the run of recent misses in the history |
| `SecondFactor.LockedExactlyAtLimit` | apps/api/src/session/second-factor-lock.ts:20-24 | the account answers if and only if fewer than the limit of misses still count |
| `SecondFactor.LockEndsExactly` | apps/api/src/session/second-factor-lock.ts:20-24 | with nothing written meanwhile, the account answers again exactly when the time that is given as left is over |
| `SecondFactor.StepsIncrease` | apps/api/src/routes/second-factor.ts:194-202 | from the write that installs a TOTP secret until it is replaced or removed, the steps accepted by logins and change proofs strictly increase over every interleaving, above the one the confirmation used |
| `SecondFactor.OtherChangesKeepTheStep` | apps/api/src/routes/second-factor.ts:330-352 | a change that neither installs nor removes the secret keeps it and the last step |
| `SecondFactor.RecoveryOnce` | apps/api/src/routes/second-factor.ts:199-201 | until the factor is removed a recovery hash is accepted at most once |
| `SecondFactor.ChangesLandOnWhatWasRead` | apps/api/src/routes/second-factor.ts:330-352 | a change of a factor that was read lands on exactly that stored version and makes of it what was asked, so no method added meanwhile is lost |
| `SecondFactor.OneFirstEnrolment` | apps/api/src/routes/second-factor.ts:346-349 | between two first enrolments that land lies a removal |
| `SecondFactor.AFirstEnrolmentLands` | apps/api/src/routes/second-factor.ts:330-378 | a first enrolment begun while nothing was stored ends, however it ends, only after some factor has been created since |
| `SecondFactor.StoredHasMethod` | apps/api/src/routes/second-factor.ts:381-383 | in every reachable state a stored factor has a secret or a passkey |
| `SecondFactor.LogIsSound` | apps/api/src/routes/second-factor.ts:156-203 | every event of every run is justified by the ones before it: who is counted was not before, who is looked at was counted, an accepted step is above the last one and an accepted hash unused, a change of a factor that was read finds it unchanged |
| `Acceptance.AcceptedIsRight` | apps/api/src/routes/second-factor.ts:181-239 | over every interleaving, whatever is accepted is the proof its request came with and is right for the factor then standing at the moment it was looked at: a verified key that is enrolled, a six-digit code of an unused step at most one away, or at login a recovery code stored where no step is right; and it leaves all else as it was |
| `Acceptance.RefusedExactlyWhereWrong` | apps/api/src/routes/second-factor.ts:110-125 | a proof is refused when looked at if and only if it is right for nothing |
| `Acceptance.PassesExactlyWhereStored` | apps/api/src/routes/second-factor.ts:110-125 | a right proof is then accepted if and only if the factor it was looked at against is still what is stored |
| `Acceptance.LookIsRight` | apps/api/src/routes/second-factor.ts:194-202 | what looking at a proof gives, for every factor, proof and moment: both directions, with what it uses up and leaves |
| `Acceptance.ChangesMakeWhatWasAsked` | apps/api/src/routes/second-factor.ts:330-383 | over every interleaving a change that lands makes of the factor it read what it says, method by method, and an enrolment finds a factor if and only if it was handed no recovery codes |
| `Acceptance.ApplyMakes` | apps/api/src/routes/second-factor.ts:381-440 | what each change leaves of secret, step, passkeys and recovery codes, and when no method remains and all of it goes |
| `Acceptance.NothingElseChangesIt` | apps/api/src/routes/second-factor.ts:156-383 | in every reachable state the stored factor is what the last accepted proof or change left, but for the misses counted |
| `Acceptance.GivesUpAfterThree` | apps/api/src/routes/second-factor.ts:335-352 | over every interleaving a change gives up only after three refused writes |
| `Acceptance.BeatenExactlyWhereMoved` | apps/api/src/routes/second-factor.ts:335-352 | and one is refused if and only if something else is stored than it had read |
| `SecondFactor.StepKeepsInv` | apps/api/src/routes/second-factor.ts:156-383 | each step of each request keeps the invariant behind these |
| `SqliteFactors.SqliteSecondFactors.Get` | apps/api/src/session/second-factor.ts:49-62 | the account's factor with its version; only a row nothing can open is dropped |
| `SqliteFactors.SqliteSecondFactors.Set` | apps/api/src/session/second-factor.ts:64-78 | with a version, lands if and only if that is the stored one; it becomes a new version, other accounts are untouched |
| `SqliteFactors.SqliteSecondFactors.Create` | apps/api/src/session/second-factor.ts:80-85 | lands if and only if the account has no row |
| `SqliteFactors.SqliteSecondFactors.Clear` | apps/api/src/session/second-factor.ts:87-96 | with a version, removes the row if and only if that is the stored one |
| `SqliteFactors.SqliteSecondFactors.Attempt` | apps/api/src/routes/second-factor.ts:156-170 | run alone: a locked or outdated attempt changes nothing; otherwise it is accepted if and only if the proof is right for the factor at that moment, and leaves what such a proof leaves; refused, it has been counted |
| `SqliteFactors.SqliteSecondFactors.ChangeOnce` | apps/api/src/routes/second-factor.ts:335-350 | run alone: the factor becomes what the change makes of it, method by method, or goes where no method is left; an enrolment that finds the account in the other state changes nothing |
| `Crc.ChecksumIsRemainder` | apps/api/src/lib/zip.ts:12-27 | for every byte sequence and starting value, the table-driven checksum is the complement of the remainder, by long division by the generator, of the message and 32 zeros with the complemented start added to its front |
| `Crc.TableStepsAreBits` | apps/api/src/lib/zip.ts:12-27 | the lookups do what feeding the message's bits one by one does |
| `Crc.ChunkingDoesNotMatter` | apps/api/src/lib/zip.ts:148-155 | checksumming chunk by chunk is checksumming the concatenation, for any chunking and starting value |
| `Crc.DivisionDivides` | apps/api/src/lib/zip.ts:12-20 | the long division used as the reference divides: a message is its quotient times the generator plus a remainder of degree below 32 |
| `Crc.PolyIsGenerator` | apps/api/src/lib/zip.ts:16 | the source's constant is x^32 + x^26 + … + 1 with its coefficients reversed |
| `Crc.LookupIsShifts` | apps/api/src/lib/zip.ts:25 | one lookup is eight shifts of the register with the byte put in |
| `Crc.BuildTable` | apps/api/src/lib/zip.ts:12-20 | the table holds at each index the index shifted eight times |
| `Crc.Compute` | apps/api/src/lib/zip.ts:23-27 | the loop over the bytes computes the checksum |
| `Zip.ReadsBack` | apps/api/src/lib/zip.ts:97-267 | a finished archive, of known and streamed entries alike, reads back as its entries in order (folders left out) with their bytes, every directory offset leads to its own local header, and no field wraps |
| `Zip.ZipStream` | apps/api/src/lib/zip.ts:97-200 | the writer gives exactly that archive, or refuses, and refuses if and only if an entry or the archive reaches 4 GiB or there are more than 65535 entries |
| `Zip.TablePoints` | apps/api/src/lib/zip.ts:171 | the record of each entry holds its values unwrapped and the offset of its own local header |
| `Zip.EntryReads` | apps/api/src/lib/zip.ts:242-265 | wherever an archive holds an entry's local part, reading it gives its bytes, or refuses them where they pass the caller's limit |
| `Zip.DirectoryReads` | apps/api/src/lib/zip.ts:229-241 | a directory is read as the records written, folders left out |
| `Zip.EndReads` | apps/api/src/lib/zip.ts:217-227 | the end record just written is the last one found, and names the directory |
| `Zip.ReadZip` | apps/api/src/lib/zip.ts:215-267 | no end record within reach is refused; otherwise the result is that of the directory the last one names, for any bytes |
| `ZipForeign.ForeignArchiveReads` | apps/api/src/lib/zip.ts:229-262 | a directory whose records have extra fields, comments and attributes of any kind is read as what they list, folders left out |
| `ZipForeign.GivenExactlyTheRecorded` | apps/api/src/lib/zip.ts:240-261 | for any archive an entry's bytes are given if and only if what lies behind its own header, name and extra field unpacks to them, with the size and the checksum recorded, within the caller's limit; else the refusal says which |
| `ZipFormat.WrittenInFormat` | apps/api/src/lib/zip.ts:97-203 | every field of a finished archive stands where the format puts it: from front to back, without the directory, each local header leads to its data, its descriptor and the next entry, each record says the same of it, and the end record counts them |
| `Zip.FindEnd` | apps/api/src/lib/zip.ts:217-224 | finds the last end record within the last 64 KiB and 22 bytes, or says there is none |
| `Zip.WriteEntries` | apps/api/src/lib/zip.ts:105-172 | the entries' parts, their records and the running offset; refused exactly at the limit |
| `Zip.WriteStreamed` | apps/api/src/lib/zip.ts:117-171 | a streamed entry: sizes and checksum counted on the way, chunk by chunk, and written after the data |
| `Zip.WriteKnown` | apps/api/src/lib/zip.ts:112-145 | an entry known up front: its header carries the sizes and the checksum |
| `Zip.MakeLocalHeader` | apps/api/src/lib/zip.ts:129-140 | the header's fields stand where section 4.3.7 puts them |
| `Zip.MakeRecord` | apps/api/src/lib/zip.ts:175-188 | the directory record's fields stand where section 4.3.12 puts them |
| `Zip.MakeEnd` | apps/api/src/lib/zip.ts:192-197 | the end record's fields stand where section 4.3.16 puts them |
| `Zip.Fields32` | apps/api/src/lib/zip.ts:132-139 | a 32-bit field reads back as written but for what does not fit in it |
| `Csv.RowsComeBack` | packages/shared/src/csv.ts:10-45 | rows joined with any delimiter but the quote, CR, backslash and N, with or without quoteAll, come back as they were, unquoted-and-equal-to-the-marker exactly for NULL; with the byte order mark in front always, without it unless the first field begins with one |
| `Csv.ToCsvComesBack` | packages/shared/src/csv.ts:42-46 | parsing toCsv's output gives exactly the header and the rows, NULL told from the text of its marker |
| `Csv.DelimitersThatWork` | packages/shared/src/csv.ts:10-27 | all rows come back under a delimiter if and only if it is none of the quote, CR, backslash and N |
| `Csv.ComesBackUnlessMarked` | packages/shared/src/csv.ts:107 | without a mark of its own a file comes back if and only if its first field does not begin with one |
| `Csv.ParseCsvRecords` | packages/shared/src/csv.ts:103-212 | the loop, for any text, quote, escape, delimiter and record end, hands out exactly the records of the recursive reading, drops only a blank last one, and fails where a quote stays open |
| `CsvDialects.EveryDialectReads` | packages/shared/src/csv.ts:103-212 | in every dialect, with any delimiter, quote, escape character and line end, a file is read as the rows it was written for, fields with their text and whether they were quoted, the last line ended or not, with or without a byte order mark |
| `CsvDialects.UnclosedIsRefused` | packages/shared/src/csv.ts:143-205 | in every dialect a file that ends inside quotes is refused, with the rows before that line given, whatever they are |
| `Csv.FileReads` | packages/shared/src/csv.ts:103-212 | every row of a file of bare and quoted fields is a record, but for a last one that is only a blank line |
| `Csv.QuotedReads` | packages/shared/src/csv.ts:141-164 | a quoted field with its quotes doubled is read back to its closing quote, whatever it holds |
| `Csv.BareReads` | packages/shared/src/csv.ts:165-204 | a field without quote, delimiter and line break is read as it stands |
| `Resume.RestEndsTheSame` | packages/shared/src/remaining-after-stop.ts:17-36 | for any database and effects, wherever a script without nested BEGIN was stopped: if a rest is given, running it on what the rollback left ends as the whole script uninterrupted does |
| `Resume.RestRightExactly` | packages/shared/src/remaining-after-stop.ts:30-35 | with nested BEGINs the rest is right if and only if nothing was done between the BEGIN that opened the undone transaction and the last BEGIN before the stop |
| `Resume.KnownUnlessCut` | packages/shared/src/remaining-after-stop.ts:17-29 | with truthful results no rest is given if and only if a COMMIT or a concurrent build was cut short; otherwise running resumes at the statement cut short or after the last that ended |
| `Resume.RestIsExactly` | packages/shared/src/remaining-after-stop.ts:17-36 | for any results at all: no rest if and only if one up to the first error is not of its statement or a COMMIT or concurrent build was cut short; else the rest begins at the transaction open at the statement cut short or after the last that ended, or there |
| `Resume.RemainingAfterStop` | packages/shared/src/remaining-after-stop.ts:17-36 | the two loops compute the rest, or nothing, for any results |
| `Resume.RestLoses` | packages/shared/src/remaining-after-stop.ts:30-35 | what a nested BEGIN makes the rest lose |
| `Resume.CommittedAtBegin` | packages/shared/src/remaining-after-stop.ts:9-16 | while a transaction is open nothing is committed: what a stop leaves is what was there at its BEGIN |
| `Ordering.EachExactlyOnce` | apps/api/src/lib/export.ts:254-295 | for any graph, cyclic or not, every object is written exactly once |
| `Ordering.DependenciesFirst` | apps/api/src/lib/export.ts:254-295 | every object that leads into no cycle comes after everything it depends on, whatever cycles there are elsewhere |
| `Ordering.Orderer.VisitOne` | apps/api/src/lib/export.ts:281-291 | the recursive visit ends, restores its stack, and does to the order what the specification function does |
| `Ordering.Orderer.Run` | apps/api/src/lib/export.ts:292-294 | the visits and the loop over what is left give the specified order |
| `Ordering.OrderObjects` | apps/api/src/lib/export.ts:254-295 | the order of the graph the catalog, or the mentions of views, make of the objects |
| `OrderingRules.DependsExactly` | apps/api/src/lib/export.ts:255-272 | one object depends on another if and only if the catalog's entry for it names that one, or without a catalog that one is a view its definition mentions; and that one is dumped and is not the object |
| `OrderingRules.OrderIsKept` | apps/api/src/lib/export.ts:254-295 | an object that leads into no cycle comes before every later one that nothing up to it needs |
| `OrderingRules.UnrelatedTablesKeepTheirOrder` | apps/api/src/lib/export.ts:512-521 | tables that inherit from none of the others stay in the order asked for |
| `OrderingRules.ListedIsLast` | apps/api/src/lib/export.ts:505-506 | of several tables listed under one name the last is meant |
| `Ordering.ObjectsMakeAGraph` | apps/api/src/lib/export.ts:265-271 | dependencies are among the dumped objects and never the object itself |
| `Ordering.VisitSound` | apps/api/src/lib/export.ts:281-291 | a visit only adds, each object once and none still on the stack, and answers whether the object is done |
| `Ordering.ParentsComeFirst` | apps/api/src/lib/export.ts:512-521 | every table that inherits from no cycle is created after all its dumped parents |
| `Ordering.TablesPlacedOnce` | apps/api/src/lib/export.ts:512-521 | every requested table is placed, each at most once, and nothing that is not dumped |
| `Ordering.Placer.PlaceOne` | apps/api/src/lib/export.ts:514-520 | the recursive placing ends and does what the specification function does |
| `Ordering.ResolveObjects` | apps/api/src/lib/export.ts:501-522 | fails, naming exactly the missing tables, if and only if one is missing; else covers the requested objects and the sequences owned by a requested table |
| `Ordering.CycleFreeOnesRanked` | apps/api/src/lib/export.ts:254-295 | in any graph what leads into no cycle is ranked by how much it needs |
| `XmlExport.RowsComeBack` | apps/api/src/lib/export-formats.ts:136-162 | the rows of an export read back are the same tables, columns and cells; writing the structure and the objects' definitions as well makes no difference |
| `XmlExport.KeptApart` | apps/api/src/lib/export-formats.ts:41-51 | NULL, text (the empty one too), bytes and text sent as base64 are read apart, each from others of its kind |
| `XmlExport.CutIsRefused` | apps/api/src/lib/export-formats.ts:14-17 | a transfer with rows is aborted if and only if a value was cut |
| `XmlExport.DecodeEscape` | apps/api/src/lib/import-rows.ts:37-45 | text comes back through the entities as it was |
| `XmlExport.EscapeOnwards` | apps/api/src/lib/export-formats.ts:31-32 | the four replacements, one after another, escape each character once |
| `XmlExport.OpenRead` | apps/api/src/lib/import-rows.ts:53-97 | an opening tag as written is one piece of the file, whatever follows it |
| `XmlExport.CellReads` | apps/api/src/lib/export-formats.ts:41-51 | one written value is read back into its row |
| `XmlExport.StructurePassed` | apps/api/src/lib/export-formats.ts:69-85 | a table's structure, columns and all, leaves the reader as it was |
| `XmlExport.ObjectPassed` | apps/api/src/lib/export-formats.ts:87-134 | a view, routine or trigger with its definition leaves the reader as it was |
| `XmlExport.EmitBody` | apps/api/src/lib/export-formats.ts:136-162 | the emitting loops write the file, or nothing where a value was cut |
| `XmlExport.EmitStructure` | apps/api/src/lib/export-formats.ts:69-85 | the loop over a structure's columns writes it |
| `XmlReader.XmlEvents` | apps/api/src/lib/import-rows.ts:61-98 | the scan by index yields, for any text, the events of the grammar |
| `XmlReader.ReadXmlTables` | apps/api/src/lib/import-rows.ts:260-317 | the loop over the events yields, for any text, the tables the fold makes; what those are is `XmlDocuments.DocumentsAreRead` |
| `XmlDocuments.DocumentsAreRead` | apps/api/src/lib/import-rows.ts:260-317 | any document of named tables, rows and columns is read as what it says: tables in the order of their first row, rows of one name together, columns in the order first given, each cell the last value its row gives, NULL where it gives none; columns standing directly in a table are its last row |
| `XmlDocuments.CodedReads` | apps/api/src/lib/import-rows.ts:37-45 | a reference by code, decimal or hexadecimal, is read as the character of that code |
| `XmlDocuments.MarkupReads` | apps/api/src/lib/import-rows.ts:71-79 | inside a column CDATA adds its text as it stands and a comment adds nothing |
| `XmlDocuments.TrimTakesSpace` | apps/api/src/lib/import-rows.ts:300 | what is trimmed off base64 is the white space at its ends, all of it and nothing else |
| `XmlReader.TakeAt` | apps/api/src/lib/import-rows.ts:67-96 | one turn of the scan takes exactly one piece off the front and always moves on |
| `XmlReader.MarkupAt` | apps/api/src/lib/import-rows.ts:73-79 | comments, instructions, CDATA and declarations are taken up to their end, or to the end of the text |
| `Totp.Base32RoundTrip` | apps/api/src/lib/totp.ts:16-48 | what decoding gives for an encoded text, cleaning included, is the bytes it was made from, for every byte sequence: it cannot fail |
| `Totp.EncodeAndDecode` | apps/api/src/lib/totp.ts:16-48 | the encoder's loop followed by the decoder's gives every byte sequence back |
| `Totp.TypedRoundTrip` | apps/api/src/lib/totp.ts:33 | the bytes come back however the text is typed: any case, any white space in it, padded or not |
| `Totp.ReadExactlyWhereTyped` | apps/api/src/lib/totp.ts:33-42 | a text is read if and only if it is one of the alphabet, so typed: white space anywhere, padding only at the end |
| `Totp.Base32Encode` | apps/api/src/lib/totp.ts:16-30 | with an accumulator of 32 bits that is never masked, the text's bits are the bytes' bits and up to four zeros, its length ceil(8n/5) |
| `Totp.Base32Decode` | apps/api/src/lib/totp.ts:32-48 | fails if and only if a character left after cleaning is not of the alphabet; otherwise gives as many whole bytes as there are bits |
| `Totp.BitsIn` | apps/api/src/lib/totp.ts:21-22 | bits pushed in and the ones still waiting are the accumulator's lowest, whatever stands above them or fell off it |
| `Totp.BitsOut` | apps/api/src/lib/totp.ts:23-26 | a digit or byte taken off the top leaves the other waiting bits |
| `Totp.Base32Unique` | apps/api/src/lib/totp.ts:16-30 | each byte sequence has one text |
| `Totp.VerifyCode` | apps/api/src/lib/totp.ts:79-89 | gives the first step of the window, above the last one accepted, whose code is right; none if and only if there is none |
| `Snapshots.SnapshotStore.Reserve` | apps/api/src/lib/snapshots.ts:143-157 | sets aside the least of what is asked and what is left, refused if and only if nothing is left; held and set aside never pass the total |
| `Snapshots.SnapshotStore.Release` | apps/api/src/lib/snapshots.ts:149-156 | gives a lease's room back once; twice does nothing |
| `Snapshots.SnapshotStore.Add` | apps/api/src/lib/snapshots.ts:159-175 | refused exactly where the scope holds ten or the total would be passed; otherwise adds one snapshot with a new id and nothing else |
| `Snapshots.SnapshotStore.Remove` | apps/api/src/lib/snapshots.ts:177-185 | removes exactly that snapshot, and says whether it was there |
| `Snapshots.SnapshotStore.Expire` | apps/api/src/lib/snapshots.ts:102-113 | what is past the time to live goes, and nothing else |
| `Snapshots.SnapshotStore.List` | apps/api/src/lib/snapshots.ts:120-123 | the scope's snapshots, none past the time to live |
| `Snapshots.SnapshotStore.Get` | apps/api/src/lib/snapshots.ts:125-128 | a snapshot of that id that has not expired, if there is one |
| `Snapshots.SnapshotStore.Keep` | apps/api/src/lib/snapshots.ts:253-256 | giving the room back and adding, with nothing awaited between: the exact condition for each refusal and the snapshot held otherwise; what fits its own room is never refused for the total, whatever others did meanwhile |
| `Snapshots.SnapshotStore.Take` | apps/api/src/lib/snapshots.ts:218-260 | run alone: which refusal is given, exactly, and the snapshot held otherwise; however it ends, the room set aside has been given back once |
| `Snapshots.SnapshotStore.TotalBytes` | apps/api/src/lib/snapshots.ts:130-134 | what is held and what is set aside |
| `Snapshots.ReadDump` | apps/api/src/lib/snapshots.ts:192-211 | a dump is refused if and only if it is larger than the limit |
| `Snapshots.RoomGivenBack` | apps/api/src/lib/snapshots.ts:146-156 | giving one lease back lowers the sum of the rooms by that lease's |
| `Snapshots.TotalChanged` | apps/api/src/lib/snapshots.ts:130-134 | only what changes in one scope changes the total held |
| `Snapshots.UnexpiredTotal` | apps/api/src/lib/snapshots.ts:102-113 | expiry never raises the total |

## Left out

- HTTP routes, cookies, logging, configuration and the web front end: plumbing without deep invariants.
- Cryptography, deflate, UTF-8, base64, SQLite, MySQL, PostgreSQL and Redis themselves: parameters with stated laws (inflate undoes deflate; base64 text holds no markup; fresh tokens, ids and versions never repeat), or atomic steps.
- Real time: a clock is a number; time limits of waits are free choices, and decide only answers, not safety.
- Characters are Unicode characters, not UTF-16 units; a numeric reference to a lone surrogate, and a named reference to a member of `Object.prototype` (`&constructor;`), stay as written in `XmlReader.DecodeEntities`. The writer emits neither.
- Redis stores and sessions in the form of objects: `RedisItems` and `Sessions` are state machines on values, since every command of every process is a step of its own; the owner of the items is fixed, as every key holds it.
- `RedisItems`: that no two kinds and names get the same derived id (`Collisionless`, an HMAC without collisions) is assumed by the theorems about whole runs.
- `RedisItems`: an `update` that declines may have judged rows read after its lock was lost, as in the code; equal times are listed in any order in both stores.
- `Sessions`: the pools behind live sessions are not modelled beyond which process holds one; the await between storing a new session and remembering it locally is one step.
- `SecondFactor`: two confirmations of one pending enrolment are two installations of the secret; a change with nothing stored and nothing to keep clears without comparing, as in the code.
- SqliteFactors.SqliteSecondFactors.Attempt: one request alone; racing requests are in `SecondFactor`.
- SqliteFactors.SqliteSecondFactors.ChangeOnce: one pass alone, where no retry is needed; racing passes and their retries are in `SecondFactor`.
- `Console`: `conn.reset()` does not throw, as its contract says; results, profiles and row caps are not modelled.
- `Zip`: a stored entry with streamed data (never written that way), names that decoding alters, and whether a damaged entry is found damaged before it is found too large.
- `Csv`: line numbers of records and errors; exports that neutralise formulas or flatten line breaks, which change values.
- `XmlDocuments`: a table without a name is numbered by the reader; the documents judged name theirs.
- `XmlExport`: the order of batches is that of the rows; line numbers are not kept; spreadsheets are not read.
- Totp.Base32Decode: upper-casing outside ASCII is a parameter; `codeFor` is a parameter of `VerifyCode`.
- `Resume`: statements are texts of a kind; a statement cut short that is neither a COMMIT nor a concurrent build took no effect.
- `Ordering`: the search for a view's name in a definition is a parameter; the listing order of the covered objects is not kept.
- `Snapshots`: the weight of what is kept beside a dump is a number; the timer and the callback that hears of expiry are not modelled.
- Snapshots.SnapshotStore.Take: runs alone; what others may do between its steps is covered by `Reserve`, `Release` and `Keep`, which start from any valid state.
- Documents for people (LaTeX, Texy, MediaWiki, HTML, office files) and YAML: one-way.
