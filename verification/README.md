# Verified models of the Cloudberry operator

This project models the parts of the Cloudberry Kubernetes operator whose correctness
depends on whole runs, on arbitrary texts or on several functions together, and proves
what the code and its documentation promise about them. `dafny verify dfyconfig.toml`
checks everything.

| file | component | main results |
|---|---|---|
| `SqlScanner.dfy`, `SqlStatements.dfy` | EXPLAIN allowlist of the query exporter | the index-skipping scanners refine a one-character-at-a-time SQL lexer; a text is accepted if and only if that lexer splits it into exactly one statement starting with SELECT or WITH |
| `SqlDialect.dfy` | the same texts as PostgreSQL reads them | when the verdict is right for a lexer with dollar quotes, escape strings, their continuation and carriage returns, and exactly when an appended statement is missed |
| `History.dfy`, `Decimal.dfy` | query history collector | an insert is attempted exactly for the queries that complete between two successive successful snapshots, and never twice for one query id |
| `CollectLoop.dfy` | connection owner of the exporter | at most one connection at any time, none closed twice, and all are closed at the end if and only if no cycle that held one found no data source name |
| `RateLimiter.dfy` | token buckets of the REST API | sliding-window bound, unobservable cleanup and neighbours, sufficient Retry-After |
| `Shell.dfy` | shell printer | POSIX tokenization returns the tool and its arguments |
| `CommandLine.dfy`, `BackupArgs.dfy`, `BackupJobs.dfy`, `RestoreArgs.dfy` | gpbackup and gprestore invocations | argument lists read back as the effective options; exclusions; label agrees with arguments; tolerated exit codes; end to end through the shell |
| `Retention.dfy` | generated retention script | which backups survive, no orphans, counting, termination |
| `CertRotation.dfy`, `CertReplicas.dfy` | webhook certificate rotation | webhooks carry the last bundle or it is pending, over every run of failures, and exactly when that survives changes of leader and starting replicas |
| `AdminPassword.dfy` | admin password Secret | agreement of all replicas under stale reads |
| `LazyOidc.dfy` | lazy OIDC discovery | one discovery at a time, one provider for ever, and exactly which attempts the cooldown spaces |
| `NamedList.dfy`, `DataLoading.dfy`, `SpecCommits.dfy` | PXF server and job edits under optimistic concurrency | list edits refine a keyed store; every interleaving is serializable; no server leaves while in use; exactly when references stay intact |
| `PromInject.dfy` | PromQL selector rewriting | acts on selectors only; idempotent for every text |
| `Dashboard.dfy` | dashboard layout | unique ids; sections packed without overlaps or gaps, each filling its band |

Protocols are state machines whose runs are sequences of actions and states; theorems
quantify over all runs. Code that changes state in place is modelled by classes and
methods proved against specification functions.

## What turned out different from the documentation

- `internal/builder/backup_builder.go:1106-1110` treats a missing argument list as unreachable.
  `BackupJobs.BuildBackupJob` shows that the builder returns no Job exactly when the first of the
  given databases is the empty string; the API keeps such requests out by checking identifiers
  first (`internal/api/backup.go:143-154`).
- `cmd/operator/main.go:677-679` announces that a new password is generated for a Secret
  without one. `AdminPassword.EmptySecretBlocksEveryone` shows that no replica ever
  succeeds then, because the create always conflicts.
- `cmd/cloudberry-query-exporter/history.go:368-372` says that leaving out dollar quotes and escape
  strings can only reject too much. `SqlDialect.TwoStatementsCanBeAccepted` shows accepted
  texts that are two statements to the server. `SqlDialect.MissedExactly` says when: if and only if
  the scanner is not at top level where the server is. `SqlDialect.PlainTextsAgree` shows that texts
  without dollar signs, backslashes and carriage returns are judged exactly.
- The incremental retention pass can keep fewer incrementals than its count says,
  because deleting the oldest cascades up the chain (`Retention.IncrementalPassCanKeepNothing`).
  `Retention.FinishedPassKeepsNewest` gives the exact condition for keeping the newest ones.
- A cycle of the exporter that finds no data source name drops its open connection
  without closing it (`CollectLoop.NameGoneLeaks`; `CollectLoop.Exporter.Run` says exactly when).
- `internal/auth/oidc.go:384` calls the cooldown the minimum interval between lazy discovery attempts.
  `LazyOidc.SpacedExactly` shows that it is one exactly when the later attempt is led by a
  lazy caller that made its check after the earlier attempt had started.
- `cmd/operator/main.go:1073-1074` says that an outage cannot strand a rotated CA for good. A
  change of leader can, because the new leader begins with nothing pending
  (`CertRotation.ChangeStrands`; `CertRotation.Operator.RunLeaders` says exactly when). So can a
  replica that starts slowly and writes the old bundle over the new one
  (`CertReplicas.SlowStartLoses`; `CertReplicas.SafeExactly` says exactly when).
- A job can be created after its server was deleted although its handler had checked the
  server (`SpecCommits.CheckedJobCanDangle`); `SpecCommits.IntactExactly` gives the exact condition.
- Restore requests without options let cluster defaults through that gprestore refuses
  (`RestoreArgs.UncheckedDefaults`, exact condition in `RestoreArgs.DataAndMetadataOnly`).
- A nil CA bundle whose injection fails would be forgotten (`CertRotation.NilBundleIsForgotten`).

## Assumptions about what is called

- A cluster update goes through only if the object has not changed since the fetch.
- The certificate manager stores nothing when it fails.
- `gpbackman backup-delete --cascade` removes, when it succeeds, the backup and everything
  that depends on it, and nothing otherwise; `backup-clean` leaves no backup without its base.
- `sync.Mutex` and `singleflight.Group` behave as documented.
- Clocks do not run backwards; tokens and seconds are reals.

## Model

| member | source | states |
|---|---|---|
| `SqlScanner.IsExplainSafe` | cmd/cloudberry-query-exporter/history.go:353-359 | accepted if and only if the reference lexer finds exactly one statement with content, its first word is SELECT or WITH, and only comments and blanks stand before it |
| `SqlScanner.HasTopLevelStatementSeparator` | cmd/cloudberry-query-exporter/history.go:373-407 | true if and only if the reference lexer sees content somewhere after a top-level semicolon; terminates with indices in range |
| `SqlScanner.StripLeadingSQLComments` | cmd/cloudberry-query-exporter/history.go:292-324 | the result is a suffix, everything dropped is comment or blank to the reference lexer, and what remains starts with neither |
| `SqlScanner.ScanBlockComment` | cmd/cloudberry-query-exporter/history.go:303-318 | ends at the first return to top level of the nested-comment lexer, or at the end of the text with a positive depth |
| `SqlScanner.SkipSQLBlockComment` | cmd/cloudberry-query-exporter/history.go:427-442 | everything skipped is comment, and the lexer is at top level for the first time where the skip ends |
| `SqlScanner.SkipSQLLineComment` | cmd/cloudberry-query-exporter/history.go:417-423 | the same for a line comment, with a flag for the end of the text |
| `SqlScanner.SkipSQLQuoted` | cmd/cloudberry-query-exporter/history.go:448-462 | the same for a quoted region with doubled-quote escapes |
| `SqlScanner.KeywordPrefixIsFirstWord` | cmd/cloudberry-query-exporter/history.go:329-339 | the prefix test on the upper-cased text holds if and only if the first word, in any case, is the keyword |
| `SqlScanner.SuffixModes` | cmd/cloudberry-query-exporter/history.go:292-324 | restarting the lexer at a top-level position changes nothing after it, which is what lets the head scanner cut its text |
| `SqlStatements.SplitOpen` | cmd/cloudberry-query-exporter/history.go:361-372 | with a statement under way, the split has one part if and only if no content follows a separator |
| `SqlDialect.InStepIsSafe` | cmd/cloudberry-query-exporter/history.go:368-372 | when the scanner is at top level wherever the server's lexer is, every accepted text is one query to the server |
| `SqlDialect.PlainTextsAgree` | cmd/cloudberry-query-exporter/history.go:368-372 | without dollar signs, backslashes and carriage returns both lexers agree on every character, so the verdict is exact |
| `SqlDialect.MissedExactly` | cmd/cloudberry-query-exporter/history.go:368-372 | a statement appended to an accepted text that is one query to the server is missed if and only if the scanner is not at top level at the end of that text; the server always sees it |
| `SqlDialect.FourWaysOutOfStep` | cmd/cloudberry-query-exporter/history.go:368-372 | a dollar quote, an escaped quote, an escaped quote in a continued string and a carriage return each leave the scanner out of step |
| `SqlDialect.TwoStatementsCanBeAccepted` | cmd/cloudberry-query-exporter/history.go:368-372 | accepted texts that are two statements to the server |
| `SqlDialect.TrailingSemicolonsAreFine` | cmd/cloudberry-query-exporter/history.go:361-366 | an accepted text stays accepted with a semicolon, white space and more semicolons behind it |
| `SqlDialect.LeadingBlanksAreFine` | cmd/cloudberry-query-exporter/history.go:292-324 | blanks in front of a query word change nothing |
| `SqlDialect.AnyCaseCounts` | cmd/cloudberry-query-exporter/history.go:353-359 | query words count in any case |
| `Decimal.ItoaRoundTrip` | internal/builder/backup_builder.go:483-485 | a printed decimal number reads back as the number |
| `Decimal.DashedPairInjective` | cmd/cloudberry-query-exporter/history.go:224-224 | two dash-separated numbers of any sign determine both numbers |
| `History.QueryIdInjective` | cmd/cloudberry-query-exporter/history.go:224-224 | a query id determines the PID and the start time |
| `History.QueryIdReads` | cmd/cloudberry-query-exporter/history.go:224-224 | the PID comes first and the start second |
| `History.SnapshotExactly` | cmd/cloudberry-query-exporter/history.go:185-197 | a PID is in the snapshot if and only if a readable row has it, and the last such row counts |
| `History.Collector.SnapshotSessions` | cmd/cloudberry-query-exporter/history.go:173-206 | unreadable rows are skipped, a later row with a PID wins, and a failed query or iteration yields nothing |
| `History.RecordCompleted` | cmd/cloudberry-query-exporter/history.go:151-161 | inserts are attempted once each for exactly the PIDs that are gone and were active with text; the count is of the successful ones |
| `History.Collector.CollectHistory` | cmd/cloudberry-query-exporter/history.go:141-169 | a failed snapshot changes nothing; a successful one becomes the remembered one after the attempts for completed PIDs |
| `History.Collector.CollectRun` | cmd/cloudberry-query-exporter/history.go:141-169 | cycle after cycle, the collector remembers the last successful snapshot and tries exactly the ids that `AttemptedExactly` characterises, each once |
| `History.AttemptedExactly` | cmd/cloudberry-query-exporter/history.go:141-241 | over every run, a query id is attempted in a cycle if and only if its session was active with text in the last successful snapshot and its PID is absent from this one |
| `History.NoIdTwice` | cmd/cloudberry-query-exporter/history.go:141-241 | when (pid, start) pairs never return after leaving, no query id is attempted twice |
| `CollectLoop.Exporter.EnsureConnection` | cmd/cloudberry-query-exporter/main.go:724-765 | when a live connection comes back, that a good one is kept, and that the old one is closed before another is opened: forgotten ones aside, the most connections ever open together stays at one; without a data source name the connection is forgotten |
| `CollectLoop.Exporter.CollectOnce` | cmd/cloudberry-query-exporter/main.go:683-720 | ownership is kept if and only if the cycle does not drop a connection for want of a data source name; up if and only if a live connection is returned |
| `CollectLoop.Exporter.CloseConn` | cmd/cloudberry-query-exporter/main.go:856-863 | closes the owned connection once |
| `CollectLoop.Exporter.Run` | cmd/cloudberry-query-exporter/main.go:597-637 | forgotten ones aside, at most one connection is open at any time, inside cycles too; none is ever closed twice; at the end every connection ever opened has been closed exactly once if and only if no cycle that held one found no data source name, and otherwise one stays open for each such cycle |
| `CollectLoop.SetNameDropsNothing` | cmd/cloudberry-query-exporter/main.go:724-765 | there is no such cycle when the name stays set once a cycle has seen it |
| `CollectLoop.NameGoneLeaks` | cmd/cloudberry-query-exporter/main.go:724-765 | a run with such a cycle |
| `RateLimiter.Limiter.constructor` | internal/api/ratelimit.go:50-77 | defaults replace a limit or interval that is not positive |
| `RateLimiter.Limiter.Allow` | internal/api/ratelimit.go:117-148 | the in-place refill, cap and take is the bucket step of the specification |
| `RateLimiter.Limiter.CleanUp` | internal/api/ratelimit.go:189-200 | removes exactly the buckets whose last refill is more than two intervals ago |
| `RateLimiter.StepConserves` | internal/api/ratelimit.go:117-148 | every event keeps the level of every client, less one token for an allowed request; a request is allowed if and only if the level is at least one |
| `RateLimiter.RunBounded` | internal/api/ratelimit.go:117-148 | tokens stay within 0 and the limit on every run |
| `RateLimiter.WindowBound` | internal/api/ratelimit.go:117-148 | at most limit + limit * T / interval requests of a client are allowed in every window of length T, whatever others and cleanups do |
| `RateLimiter.CleanupAndOthersUnobservable` | internal/api/ratelimit.go:189-200 | any group of clients gets the answers it would get without any cleanup and without other clients |
| `RateLimiter.RetryAfterSuffices` | internal/api/ratelimit.go:160-170 | a request RetryAfterSeconds after another, with none allowed in between, is allowed |
| `RateLimiter.RetryAfterIsTight` | internal/api/ratelimit.go:160-170 | it is the first whole number of seconds in which more than a token comes in |
| `RateLimiter.EmptyBucketWaits` | internal/api/ratelimit.go:117-148 | an emptied bucket allows the next request if and only if the time waited, times the limit, is at least the interval |
| `RateLimiter.BurstExactly` | internal/api/ratelimit.go:117-148 | a new client may make exactly as many requests at once as the limit says |
| `Shell.Builder.WriteToolInvocation` | internal/builder/backup_builder.go:770-776 | appends the tool and each quoted argument |
| `Shell.InvocationRoundTrip` | internal/builder/backup_builder.go:977-979 | splitting the printed command by the quoting rules of sections 2.2 and 2.3 of the POSIX shell language returns exactly the tool and the arguments, for all argument lists |
| `CommandLine.AppendRepeatedFlag` | internal/builder/backup_builder.go:653-661 | appends one pair for each nonempty value |
| `CommandLine.LayValues` | internal/builder/backup_builder.go:653-661 | read back, a flag has exactly the values laid out under it, in order, and no other flag has any |
| `CommandLine.ReadArgs` | internal/builder/backup_builder.go:403-450 | an argument list, read by a reader with its own spelling of every flag, gives back the flags and values it was built from, whatever the values look like |
| `CommandLine.FlagOfText` | internal/builder/backup_builder.go:403-661 | what is printed for a flag spells that flag to the reader |
| `CommandLine.FlagTextInjective` | internal/builder/backup_builder.go:403-450 | no two flags have the same text |
| `BackupArgs.AppendCompressionArgs` | internal/builder/backup_builder.go:478-489 | prints exactly the compression flags that `BackupValues` reads back |
| `BackupArgs.AppendDataFileArgs` | internal/builder/backup_builder.go:493-505 | prints exactly the data file or parallelism flags that `BackupValues` reads back |
| `BackupArgs.AppendIncrementalArgs` | internal/builder/backup_builder.go:522-541 | prints exactly the incremental flags that `BackupValues` reads back |
| `BackupArgs.AppendLeafPartitionDataArgs` | internal/builder/backup_builder.go:556-565 | prints leaf partition data only where the incremental part has not |
| `BackupArgs.AppendTail` | internal/builder/backup_builder.go:434-448 | prints statistics by default, globals unless switched off, and the nonempty filters |
| `BackupArgs.BuildGpbackupArgs` | internal/builder/backup_builder.go:408-450 | no list if and only if there is no database; otherwise the list printed from the items of the effective options |
| `BackupArgs.BackupValues` | internal/builder/backup_builder.go:403-565 | for every flag, what gpbackup reads for it is what the effective options say |
| `BackupJobs.GpbackupArgsReadBack` | internal/builder/backup_builder.go:403-565 | the argument list parses back, flag by flag, to the normalized effective options |
| `BackupJobs.DataFileExclusion` | internal/builder/backup_builder.go:491-505 | jobs never with a single data file; copy queue size only with it |
| `BackupJobs.CompressionExclusion` | internal/builder/backup_builder.go:476-489 | no level or type with no compression |
| `BackupJobs.IncrementalRules` | internal/builder/backup_builder.go:507-565 | leaf partition data at most once, always for an incremental backup; a base timestamp only for one |
| `BackupJobs.OneDestination` | internal/builder/backup_builder.go:392-397 | exactly one destination and exactly one database |
| `BackupJobs.JobsSurvive` | internal/builder/backup_builder.go:493-505 | gpbackup reads the number of jobs that was asked for |
| `BackupJobs.LabelAgrees` | internal/builder/backup_builder.go:337-351 | the backup is effectively incremental if and only if --incremental is in the arguments |
| `BackupJobs.BuildBackupJob` | internal/builder/backup_builder.go:1094-1124 | no Job if and only if the first database is empty; otherwise label and arguments agree |
| `BackupJobs.EmptyFirstDatabaseStays` | internal/builder/backup_builder.go:464-474 | the default database stands in for no databases and not for an empty first one |
| `BackupJobs.BuildBackupCronJob` | internal/builder/backup_builder.go:1040-1087 | the same for the scheduled Job, whose label is computed without request options |
| `BackupJobs.RequestDecidesIncremental` | internal/api/backup.go:184-228 | through the request merge, which requests run incrementally |
| `BackupJobs.RequestReadBack` | internal/api/backup.go:184-228 | from any request to the tool: for every flag gpbackup reads the request's own value, or the cluster's default exactly where the merge falls back on it |
| `BackupJobs.BareBackup` | internal/builder/backup_builder.go:403-450 | without any options gpbackup is told the destination, the database and to take statistics, and nothing else |
| `RestoreArgs.BuildGprestoreArgs` | internal/builder/backup_builder.go:570-611 | the list printed from the sections of the effective options |
| `RestoreArgs.AppendGprestoreBoolFlags` | internal/builder/backup_builder.go:622-650 | appends exactly the switches that are on, in order |
| `RestoreArgs.AppendTail` | internal/builder/backup_builder.go:589-607 | redirections, then tables or schemas, then excluded tables |
| `RestoreArgs.BuildRestoreJob` | internal/builder/backup_builder.go:1127-1142 | request options decide, otherwise the defaults of the cluster |
| `RestoreArgs.GprestoreArgsReadBack` | internal/builder/backup_builder.go:570-661 | the argument list parses back, flag by flag, to the effective options |
| `RestoreArgs.RequestReadBack` | internal/api/backup.go:231-276 | from any restore request to the tool: for every flag gprestore reads the request's own value, with the cluster's default for an omitted number of jobs or choice of statistics, and for everything when there are no options |
| `RestoreArgs.BareRestore` | internal/builder/backup_builder.go:570-611 | without any options gprestore is told the destination and the timestamp, and nothing else |
| `RestoreArgs.ConflictIsReal` | internal/api/backup.go:281-289 | a request that is turned away would have given both data-only and metadata-only |
| `RestoreArgs.RestoreExclusions` | internal/builder/backup_builder.go:595-607 | never schemas with tables, never analyze with statistics |
| `RestoreArgs.DataAndMetadataOnly` | internal/api/backup.go:231-289 | an accepted request yields both data-only and metadata-only if and only if it has no options and the cluster defaults have both |
| `RestoreArgs.UncheckedDefaults` | internal/api/backup.go:281-289 | a cluster for which that happens |
| `RestoreArgs.StatsPartialTolerated` | internal/builder/backup_builder.go:783-793 | true if and only if the tool is gprestore and the statistics switch is an argument |
| `RestoreArgs.ToleratedExactly` | internal/builder/backup_builder.go:778-793 | the switch is among the arguments if and only if statistics are effective or a given text reads like the switch |
| `RestoreArgs.RestoreOnCoordinator` | internal/builder/backup_builder.go:965-974 | dropping the leading pair removes the plugin configuration and leaves every other flag of a restore as it was |
| `RestoreArgs.BackupOnCoordinator` | internal/builder/backup_builder.go:965-974 | the same for a backup |
| `RestoreArgs.ScriptReadBack` | internal/builder/backup_builder.go:769-776 | the printed command, split by the shell and read by the tool, gives back all flags and values |
| `Retention.Script.Delete` | internal/builder/backup_builder.go:1565-1577 | a successful delete cascades and counts one; a failed one changes nothing |
| `Retention.Script.CountBlock` | internal/builder/backup_builder.go:1585-1600 | survivors keep their bases; an incremental pass removes no full; a finished pass lists at most the count; it finishes once as many deletes have succeeded as there were backups, failures in between or not, and gets nowhere while all fail; the counter never exceeds the backups removed |
| `Retention.Script.MaxAgeBlock` | internal/builder/backup_builder.go:1607-1620 | the counter moves by exactly the listed backups that are gone, never more than the backups removed |
| `Retention.Script.Run` | internal/builder/backup_builder.go:1499-1544 | whichever deletes succeed, nobody depends on a removed backup, fulls that failed stay, and the counter never exceeds the backups removed; once both passes have finished the remaining fulls are exactly the newest ones that the time-based step has left, or all it has left when no count is set, and at most the count of incrementals remain; they finish with enough successes, and without counts only the time-based step acts |
| `Retention.FinishedPassKeepsNewest` | internal/builder/backup_builder.go:1585-1600 | a finished pass leaves exactly the newest ones if and only if none of them depended on an older listed one |
| `Retention.FullsAreKeepable` | internal/builder/backup_builder.go:1585-1600 | that condition always holds for fulls |
| `Retention.ChainGoesTogether` | internal/builder/backup_builder.go:1585-1600 | when all listed backups depend on the oldest one, deleting it leaves none listed, and the condition fails |
| `Retention.IncrementalPassCanKeepNothing` | internal/builder/backup_builder.go:1585-1600 | a catalogue of one chain where it fails |
| `Retention.DeleteKeepsPruned` | internal/builder/backup_builder.go:1585-1600 | every delete of the oldest listed backup keeps what the pass promises |
| `Retention.CascadeIsSub` | internal/builder/backup_builder.go:1565-1577 | a cascade leaves no survivor without its base and makes the catalogue smaller |
| `Retention.NewestIsATopSlice` | internal/builder/backup_builder.go:1585-1600 | the newest n of a set are min(n, size) elements above all others |
| `CertRotation.Patched` | cmd/operator/main.go:941-947 | every entry gets the bundle; an update is needed if and only if there are entries |
| `CertRotation.InjectInto` | cmd/operator/main.go:922-980 | success if and only if the list call and every update needed succeed; exactly the configurations whose update was tried and not refused get the bundle, all others stay as they were |
| `CertRotation.Operator.InjectCABundle` | cmd/operator/main.go:922-980 | the same for validating and then mutating configurations, exactly |
| `CertRotation.Operator.InjectWithRetry` | cmd/operator/main.go:850-883 | the same over all attempts, exactly; an attempt that meets no failure makes it succeed |
| `CertRotation.Operator.RotateOnce` | cmd/operator/main.go:1053-1118 | exactly what a tick leaves; it keeps: nothing pending and every entry carries the bundle issued last, or that bundle is pending; a tick whose last injection can succeed clears it |
| `CertRotation.Operator.RunCertRotation` | cmd/operator/main.go:1012-1043 | after every run of ticks with arbitrary failures that invariant holds if and only if the webhooks carried the last bundle at the beginning or the leader has renewed it since |
| `CertRotation.Operator.RunLeaders` | cmd/operator/main.go:1012-1043 | event by event what every run with changes of leader does; the invariant holds at each moment if and only if the current leader did not take over webhooks without the last bundle, or has renewed it since |
| `CertRotation.TickIsSound` | cmd/operator/main.go:1053-1118 | a tick keeps the invariant, and a renewal establishes it |
| `CertRotation.RenewsExactly` | cmd/operator/main.go:1086-1105 | a tick renews when rotation is needed and the manager answers, and never otherwise |
| `CertRotation.SixAttempts` | cmd/operator/main.go:850-883 | there are six attempts and no more |
| `CertRotation.MutatingWait` | cmd/operator/main.go:933-980 | mutating configurations are not touched before all validating ones are done |
| `CertRotation.ChangeStrands` | cmd/operator/main.go:1024-1029 | from every moment with all webhooks up to date: a renewal whose injection is refused and then a change of leader strand the new bundle |
| `CertRotation.ChangeIsHarmlessExactly` | cmd/operator/main.go:1024-1029 | a change of leader keeps the invariant, whatever the webhooks hold, if and only if nothing was pending |
| `CertRotation.NilBundleIsForgotten` | cmd/operator/main.go:1104-1118 | a failed injection is remembered if and only if its bundle is not nil |
| `CertReplicas.StepExactly` | cmd/operator/main.go:805-838 | with starting replicas beside the leader: from a safe moment a step leads to a safe one if and only if it is not harmful, and from an unsafe one if and only if it renews |
| `CertReplicas.StarterGets` | internal/certmanager/certmanager.go:169-215 | a starting replica gets the bundle issued last, which is the new one when it renews |
| `CertReplicas.SafeExactly` | cmd/operator/main.go:805-838 | over every run, the last bundle is carried by all webhooks or held by someone who will inject it, if and only if no harmful event has lost it since it was last brought |
| `CertReplicas.SlowStartLoses` | cmd/operator/main.go:805-821 | a replica that fetched the old bundle writes it over the new one, and nobody holds the new one |
| `AdminPassword.StepKeepsInv` | cmd/operator/main.go:651-725 | every step keeps: the Secret is written at most once and every returned password is the stored one |
| `AdminPassword.NeverOverwritten` | cmd/operator/main.go:651-725 | once the Secret exists no step changes it |
| `AdminPassword.Agreement` | cmd/operator/main.go:651-725 | all replicas that succeed, in any interleaving with stale reads, return the same password, and it is the stored one from then on |
| `AdminPassword.EmptySecretBlocksEveryone` | cmd/operator/main.go:663-725 | with a Secret that has no password nobody ever succeeds |
| `AdminPassword.OtherwiseOneCanSucceed` | cmd/operator/main.go:651-725 | from every other Secret a replica can succeed |
| `AdminPassword.ReadPasswordIsReturned` | cmd/operator/main.go:670-676 | whoever reads a stored password returns it |
| `AdminPassword.ConflictEndsInSuccess` | cmd/operator/main.go:690-725 | a replica whose create conflicts re-reads and succeeds with the Secret that was in the way |
| `AdminPassword.ErrorsReturnNothing` | cmd/operator/main.go:651-725 | every error ends without a password |
| `LazyOidc.StepKeepsInv` | internal/auth/oidc.go:467-525 | every step of every caller keeps the flight, provider and outcome invariant |
| `LazyOidc.AtMostOneDiscovery` | internal/auth/oidc.go:467-525 | at most one discovery is in flight, and none once the provider is published |
| `LazyOidc.ProviderNeverChanges` | internal/auth/oidc.go:498-525 | a published provider stays |
| `LazyOidc.PublishedOnce` | internal/auth/oidc.go:498-525 | it is published at most once and no discovery starts afterwards |
| `LazyOidc.SuccessesAgree` | internal/auth/oidc.go:467-491 | every success returns the same provider, the published one |
| `LazyOidc.PublishedIsReturned` | internal/auth/oidc.go:469-473 | once a provider is published every caller gets it at its check |
| `LazyOidc.FoundIsNotLost` | internal/auth/oidc.go:508-524 | a provider that was found is published and returned by its finder |
| `LazyOidc.LeadersSucceed` | internal/auth/oidc.go:498-525 | the leader that publishes, and a leader that finds a provider there, succeed with it |
| `LazyOidc.OutcomeIsKept` | internal/auth/oidc.go:480-491 | a leader returns what its function ended with |
| `LazyOidc.FailureIsReported` | internal/auth/oidc.go:508-517 | a failed discovery is reported as one |
| `LazyOidc.CheckExactly` | internal/auth/oidc.go:467-479 | without a provider a lazy caller is turned away if and only if an attempt was started within the cooldown before its check; the startup initializer never is |
| `LazyOidc.JoinersShareTheOutcome` | internal/auth/oidc.go:480-491 | whoever joined a flight returns what its leader returned |
| `LazyOidc.DeliveredForGood` | internal/auth/oidc.go:480-491 | the outcome of a flight never changes |
| `LazyOidc.CooldownTurnsLazyCallersAway` | internal/auth/oidc.go:474-477 | a lazy check within the cooldown of any earlier attempt neither starts nor joins a discovery |
| `LazyOidc.LazyAttemptsAreSpaced` | internal/auth/oidc.go:467-525 | an attempt led by a lazy caller that checked after an earlier attempt had started comes at least a cooldown after it |
| `LazyOidc.SpacedExactly` | internal/auth/oidc.go:467-525 | that is the only kind of attempt that is always spaced: an earlier check and the startup initializer each have a run with closer attempts |
| `LazyOidc.EveryAttemptHasACheck` | internal/auth/oidc.go:467-525 | every attempt is of one of these kinds |
| `NamedList.FindIndex` | internal/api/dataloading.go:1281-1288 | the first index of a name or -1 |
| `DataLoading.MergeStringMap` | internal/api/dataloading.go:1369-1380 | keys of the overlay win and all others are kept |
| `DataLoading.MergePxfServerUpdate` | internal/api/dataloading.go:1352-1363 | only what the request supplies changes |
| `DataLoading.MergedFields` | internal/api/dataloading.go:1352-1380 | in all four maps the keys of the request have the new values and all others the old; type and secrets change when the request has some; Kerberos never |
| `DataLoading.NewServerFields` | internal/api/dataloading.go:1327-1337 | a new server has the fields of the request |
| `DataLoading.MergeIdempotent` | internal/api/dataloading.go:1352-1380 | applying an update twice is applying it once, so a retried closure does no harm |
| `DataLoading.MergeNothing` | internal/api/dataloading.go:1352-1380 | an update that supplies nothing changes nothing |
| `DataLoading.PxfServersDataEqual` | internal/api/dataloading.go:1501-1511 | true if and only if the maps are equal |
| `DataLoading.JobsReferencingServer` | internal/api/dataloading.go:1315-1324 | the names of the referring jobs in order |
| `DataLoading.ReferencingExactly` | internal/api/dataloading.go:1315-1324 | a name is listed if and only if a job with that name refers to the server |
| `DataLoading.RejectsExactly` | internal/api/dataloading.go:352-357 | before their closures run, a deletion is rejected if and only if a job refers to the server, and a new PXF job if and only if it names a server that is not defined |
| `DataLoading.Latest.CreateServer` | internal/api/dataloading.go:261-271 | the closure edits the fetched object as specified, or reports the error and leaves it alone |
| `DataLoading.Latest.UpdateServer` | internal/api/dataloading.go:312-326 | the same |
| `DataLoading.Latest.DeleteServer` | internal/api/dataloading.go:362-378 | the same |
| `DataLoading.Latest.CreateJob` | internal/api/dataloading.go:520-529 | the same; a missing section is created |
| `DataLoading.Latest.UpdateJob` | internal/api/dataloading.go:590-600 | the same |
| `DataLoading.Latest.DeleteJob` | internal/api/dataloading.go:623-634 | the same |
| `DataLoading.EditsRefine` | internal/api/dataloading.go:260-634 | on unique names the list edits keep names unique and do to the keyed store what the request means; a refusal has the same reason in both |
| `DataLoading.RemovedServersAreUnused` | internal/api/dataloading.go:362-378 | a server leaves only by its own deletion and never while a job refers to it |
| `DataLoading.IntegrityKeptExactly` | internal/api/dataloading.go:520-600 | one request keeps references intact if and only if it does not write a job that names an undefined server |
| `SpecCommits.StepKeepsInv` | internal/api/server.go:5070-5090 | every step keeps: each version comes from the one before it by its author's request, nobody commits twice, versions are never rewritten |
| `SpecCommits.Serializable` | internal/api/server.go:5070-5090 | in every interleaving with stale fetches, conflicts and lost replies: names stay unique, the object is the result of the committed requests one at a time in commit order, each at most once, with every reported success among them and no refusal |
| `SpecCommits.StaleAttemptsAreRepeated` | internal/api/server.go:5076-5089 | a write on a stale version costs another attempt and nothing else |
| `SpecCommits.AloneItSettles` | internal/api/server.go:5076-5089 | a handler left alone commits on the current version, or is refused for the reason that version gives |
| `SpecCommits.RejectedAtTheCheck` | internal/api/dataloading.go:544-567 | a rejected request ends at its check |
| `SpecCommits.NoServerLeavesWhileInUse` | internal/api/dataloading.go:346-378 | a server that one version has and the next has not was deleted by name while no job of the replaced version referred to it |
| `SpecCommits.IntactExactly` | internal/api/dataloading.go:500-600 | in every run all versions keep their references intact if and only if no committed job write named a server missing from the version it replaced |
| `SpecCommits.CheckedJobCanDangle` | internal/api/dataloading.go:544-567 | a run in which the handler's check passes, the server is deleted and the job is committed |
| `PromInject.ParseRoundTrip` | hack/add-instance-var.py:57-57 | reading a text into selectors and other characters loses nothing |
| `PromInject.InjectActsOnTokens` | hack/add-instance-var.py:51-73 | reading the rewritten text gives the rewritten selectors one by one; everything outside targeted selectors is unchanged |
| `PromInject.EveryTokenFollowsTheLaw` | hack/add-instance-var.py:59-71 | for every selector: unless its name has a prefix and its labels lack the matcher in both spellings it stays as it is; otherwise the matcher is put before its labels, which all stay |
| `PromInject.NewBlockLaw` | hack/add-instance-var.py:59-71 | the same for one block |
| `PromInject.TokensAreMaximal` | hack/add-instance-var.py:57-57 | selectors are as long as the pattern allows |
| `PromInject.NameAlphabet` | hack/add-instance-var.py:57-57 | names are made of letters, digits and underscores |
| `PromInject.StripExactly` | hack/add-instance-var.py:66-66 | stripping takes away white space at both ends and nothing else |
| `PromInject.SpaceCodePoints` | hack/add-instance-var.py:66-66 | what counts as white space, by code point |
| `PromInject.ContainsExactly` | hack/add-instance-var.py:67-67 | the test for the matcher finds it anywhere in the labels |
| `PromInject.NewBlockSettles` | hack/add-instance-var.py:59-71 | a rewritten block is a brace block that already has the matcher |
| `PromInject.TargetsAreScoped` | hack/add-instance-var.py:51-73 | afterwards every targeted selector has the matcher |
| `PromInject.UnchangedExactlyWhenScoped` | hack/add-instance-var.py:67-68 | a text is unchanged if and only if all its targeted selectors had the matcher |
| `PromInject.InjectIdempotent` | hack/add-instance-var.py:51-73 | running twice equals running once, for every text and prefix list |
| `Dashboard.DedupeIds` | hack/normalize-dashboard.py:28-46 | ids become unique; the first row with an id keeps it, or the first panel when no row has it; the changed ids are the next ones above all ids, nested ones included; nothing else changes |
| `Dashboard.Board.Reflow` | hack/normalize-dashboard.py:125-159 | with clean widths, the first member opens the first row, every other stands beside its predecessor if there is room and else opens the next row, and the returned y is the edge of the last row |
| `Dashboard.PackedFlows` | hack/normalize-dashboard.py:125-159 | such a packing stays inside 24 columns and between the start and the returned y, and no panel touches another |
| `Dashboard.Board.ShiftBlock` | hack/normalize-dashboard.py:169-172 | moves exactly the members by dy |
| `Dashboard.Board.LowestEdge` | hack/normalize-dashboard.py:188-188 | the largest lower edge, and it is attained |
| `Dashboard.Board.MoveSection` | hack/normalize-dashboard.py:178-192 | a reference section moves as a block, and the next begins at its lowest edge, or one below the header when it has no members |
| `Dashboard.Board.PlaceSection` | hack/normalize-dashboard.py:176-196 | every section is moved or packed, exactly |
| `Dashboard.Board.Stack` | hack/normalize-dashboard.py:175-196 | every section begins where the one before it ends, from y 0 on, and earlier sections stay where they are |
| `Dashboard.LaidOutFillsBand` | hack/normalize-dashboard.py:175-196 | a section fills its band from its header to its lowest edge, with no gap above or below |
| `Dashboard.Board.Dedupe` | hack/normalize-dashboard.py:28-46 | the same as DedupeIds on the board |
| `Dashboard.Board.Normalize` | hack/normalize-dashboard.py:28-196 | the whole script, for all panels; it fails if and only if a header that others are merged into is missing |
| `Dashboard.SectionsAreValid` | hack/normalize-dashboard.py:50-121 | the sections found by bands and merges share no panel and hold no row as a member |
| `Dashboard.SectionExactly` | hack/normalize-dashboard.py:54-121 | a panel is in a section if and only if the last row that does not begin below it is open and is merged under the section's header |
| `Dashboard.GroupExactly` | hack/normalize-dashboard.py:92-97 | rows 27, 64, 68, 58 and rows 200, 230, 290 are merged, and no others |
| `Dashboard.GatherConcat` | hack/normalize-dashboard.py:101-107 | merged members come row by row in the order of the merge |
| `Dashboard.GatherOne` | hack/normalize-dashboard.py:101-107 | a row that is alone keeps its own members in their order |
| `Dashboard.KeptInOrder` | hack/normalize-dashboard.py:113-121 | the sections keep the order of their headers |
| `Dashboard.CleanWidths` | hack/normalize-dashboard.py:133-143 | the width every kind and width of panel gets |
| `Dashboard.EveryBandMemberHasASection` | hack/normalize-dashboard.py:99-121 | no panel of an open band is lost in the merges |
| `Dashboard.SectionsNeverOverlap` | hack/normalize-dashboard.py:175-196 | panels of different sections never overlap |
| `Dashboard.ReflowedNeverOverlaps` | hack/normalize-dashboard.py:125-159 | panels of a re-flowed section never overlap each other or their header |
| `Dashboard.ReferenceLayoutPreserved` | hack/normalize-dashboard.py:162-192 | panels of a reference section overlap if and only if they did before |

## Left out

- SQL lexers: case folding outside ASCII, and escapes by `standard_conforming_strings = off`.
- EXPLAIN sandbox, plan collection, history retention and the SQL texts of the exporter: database I/O.
- Rate limiter: floating-point rounding, wall-clock steps, client address extraction and trusted proxies.
- `connectWithBackoff` of the exporter: one loop of delays with no state beyond the returned connection.
- Backup scripts: coordinator-exec plumbing, S3 and SSH preambles, environment and other Kubernetes object parts.
- Retention: `parseMaxAgeDays` and the order in which gpbackman prints backups; gpbackman itself is assumed, see above.
- CertRotation: jitter and delays between attempts; the election is an event, and a whole tick is one step beside the attempts of starting replicas.
- LazyOidc: panics inside a flight and the context of the leader, which only decide how a discovery fails.
- PromInject: the walk over the dashboard and the template variable; only the text rewrite is modelled.
- Dashboard: titles, JSON reading and writing, the final removal of the absorbed headers, and a missing width (read as 8); panels outside every open band are not moved and not covered.
- Dashboard.LaidOutFillsBand: for reference sections, whose heights the script takes as they are, it needs a header of height 1 and panels of positive height.
- DataLoading: the parts of jobs and servers that no edit looks into are opaque texts, a missing map and an empty one are the same, and admission webhooks and edits from outside the API are not modelled.
- BackupArgs: integers are unbounded; the source has 32-bit ones and only compares and prints them.
- Command line tool, reconcilers, collectors, cron, vault, tracing and metrics: no deep state.
