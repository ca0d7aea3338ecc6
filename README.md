# Verified model of the one-shot rsync backup script

`sync_rsync.py` pulls remote directory trees over rsync/ssh into a local backup tree and
then prunes old backups. This project models its decision logic in Dafny:

- **Directory naming** (`get_backup_directory`): the backup goes to
  `<sync_target>/<backup_name or host>`, followed by a second-resolution timestamp
  (`date_time`, and any unrecognised format), a day-resolution timestamp (`date`), or
  nothing (`static`). The function returns the configured format string itself, not the
  format it fell back to.
- **Key permissions** (`check_and_fix_ssh_key_permissions`): `st_mode & 0o777` must be
  `0o600`, otherwise the file is `chmod`ed to `0o600`. A failure is re-raised unless debug
  mode is on.
- **Transfer** (`run_rsync_with_retries`): the key check runs first. An empty path list is
  skipped. Each remote path gets the command `rsync -avz --timeout=30 -e <ssh> user@host:path <dir>`,
  with `--delete` inserted at index 1 for `static`. Each command runs at most
  `rsync_max_retries` times, stops at the first success, and sleeps 5 s between a failed
  attempt and the next one.
- **Retention sweep** (`clean_old_backups`): each server directory takes the format of the
  first server configured under its name, or `date_time` when none is. `static` directories
  are skipped. A backup subdirectory is removed when its name parses under
  `%Y-%m-%d_%H-%M-%S`, or else `%Y-%m-%d`, to a time strictly before `now - max_days`
  days.

Modules, leaf first:

- `Options`: the optional value.
- `CivilTime`: Python's naive `datetime` (validity, ordinal days, a microsecond count proved
  to order datetimes as Python compares them).
- `TimeFormat`: `strftime` and `strptime` for the two formats, and the format-trial loop.
- `Config`: settings, server entries, `dict.get` defaults and `os.path.join`.
- `DirectoryNamer`, `CredentialGuard`, `TransferRunner` and `RetentionSweeper`: one module
  per function of the script.
- `FormatPolicy`: lemmas that follow one server's format string through naming, the
  rsync command and the sweep.

Modelling choices:

- External effects are inputs. The clock is an `Instant` parameter. rsync's exit status is
  an oracle `outcome(pathIndex, attempt)`. The key files are a `KeyStore` object whose
  `modes` map the method updates. The backup tree is a `BackupStore` object whose `tree`
  map `shutil.rmtree` updates.
- A run of the transfer is recorded as a trace of `Rsync(command, attempt)` and `Sleep(5)`
  events.
- For names written in ASCII, `strptime` accepts the same texts as Python's regular
  expression followed by its "unconverted data remains" check (Python's `\d` also matches
  other Unicode decimal digits, which the model refuses; see "Left out"):
  - one-digit fields and a space-padded day are accepted;
  - seconds 60 and 61 match the pattern, and the `datetime` constructor then refuses them;
  - year 0 and days past the end of the month are refused.
- Comparing against the cutoff uses the microsecond count. `OrderAgreesWithMicros` shows
  that this count orders datetimes as Python's field-by-field comparison does.
  `InstantAt` shows that every count in the datetime range belongs to a datetime, so the
  cutoff is the datetime `cutoff_date` itself.
- The script has no scheduler and no `preserve_paths` option. It runs the sweep once,
  after all servers.

## Model

| member | source | states |
|---|---|---|
| `Config.BackupName` | sync_rsync.py:36 | the directory name is `backup_name`, and the host when that key is absent |
| `Config.NameFormat` | sync_rsync.py:37 | the format is `backup_name_format`, and `date_time` when that key is absent |
| `Config.Join` | sync_rsync.py:38 | `os.path.join` ends with its second argument; for relative parts it inserts exactly one `/` |
| `CivilTime.Truncate` | sync_rsync.py:41 | the second-resolution time has no microseconds and lies within the second before the run's time |
| `CivilTime.Midnight` | sync_rsync.py:44 | the result is a midnight (hour, minute, second and microsecond 0) within the day before the run's time |
| `CivilTime.OrderAgreesWithMicros` | sync_rsync.py:146 | `dir_date < cutoff_date` (field-by-field comparison) holds exactly when the microsecond counts compare that way; equal counts mean equal datetimes |
| `CivilTime.YearLength` | sync_rsync.py:118 | each year adds 366 days when it is a Gregorian leap year and 365 otherwise (day counting behind `timedelta` arithmetic) |
| `CivilTime.YearsAreOrdered` | sync_rsync.py:118 | the days of an earlier year all come before a later year's first day (day counting behind `timedelta` arithmetic) |
| `CivilTime.BeforeIsStrictOrder` | sync_rsync.py:146 | Python's datetime `<` is irreflexive, transitive and total on valid datetimes |
| `CivilTime.NextMicro` | sync_rsync.py:118 | one microsecond later, with carries through every field, adds exactly one to the microsecond count |
| `CivilTime.InstantAt` | sync_rsync.py:118 | every microsecond count between the first and the last datetime is the count of a datetime, so `now - timedelta(days=max_days)` in range is a datetime |
| `CivilTime.OrdinalOrder` | sync_rsync.py:146 | dates ordered by (year, month, day) have ordered day numbers |
| `TimeFormat.SplitFirst` | sync_rsync.py:141 | a field followed by a separator takes exactly the text before the separator's first occurrence; no split exactly when the separator is absent |
| `TimeFormat.NumberToken` | sync_rsync.py:141 | a numeric directive accepts exactly the one-digit texts not below its lower bound and the two-digit texts within its range; the value is the digits' decimal value |
| `TimeFormat.YearToken` | sync_rsync.py:141 | `%Y` accepts exactly the four-digit texts; the value is their decimal value, 0 to 9999 |
| `TimeFormat.MonthToken` | sync_rsync.py:141 | `%m` accepts exactly the one- or two-digit texts with value 1 to 12, and yields that value |
| `TimeFormat.DayToken` | sync_rsync.py:141 | `%d` accepts exactly the one- or two-digit texts with value 1 to 31 and a space followed by a digit 1 to 9, and yields that day |
| `TimeFormat.HourToken` | sync_rsync.py:141 | `%H` accepts exactly the one- or two-digit texts with value 0 to 23, and yields that value |
| `TimeFormat.MinuteToken` | sync_rsync.py:141 | `%M` accepts exactly the one- or two-digit texts with value 0 to 59, and yields that value |
| `TimeFormat.SecondToken` | sync_rsync.py:141 | `%S` accepts exactly the one- or two-digit texts with value 0 to 61 (60 and 61 are refused later by `MakeInstant`), and yields that value |
| `TimeFormat.SecondsStamp` | sync_rsync.py:41 | `strftime('%Y-%m-%d_%H-%M-%S')` is 19 characters with its separators at fixed places; `SecondsRoundTrip` gives what it parses back to |
| `TimeFormat.DayStamp` | sync_rsync.py:44 | `strftime('%Y-%m-%d')` is 10 characters with no `_`; `DayRoundTrip` gives what it parses back to |
| `TimeFormat.ParseSeconds` | sync_rsync.py:141 | `strptime(name, '%Y-%m-%d_%H-%M-%S')` only succeeds on names with an `_`, and gives a whole second; `ParseSecondsPieces` gives which names parse and to what |
| `TimeFormat.ParseSecondsPieces` | sync_rsync.py:141 | `strptime(name, '%Y-%m-%d_%H-%M-%S')` on a name with its five separators succeeds exactly when all six pieces match their directives and form a valid datetime, which is the result (unpadded fields and a space-padded day included) |
| `TimeFormat.ParseDay` | sync_rsync.py:141 | `strptime(name, '%Y-%m-%d')` gives a midnight |
| `TimeFormat.MakeInstant` | sync_rsync.py:141 | parsed fields give a datetime exactly when they form a valid calendar date and time (no Feb 30, no year 0, no second 60) |
| `TimeFormat.FirstParse` | sync_rsync.py:139-144 | a name has no date exactly when every format in the list fails to parse it |
| `TimeFormat.ParseDirDate` | sync_rsync.py:137-144 | the format-trial loop with `break` yields the first successful parse, or `None` |
| `TimeFormat.SecondsRoundTrip` | sync_rsync.py:41 | a `date_time` name parses back under the first format to the run's time truncated to seconds |
| `TimeFormat.DayRoundTrip` | sync_rsync.py:44 | a `date` name fails the first format and parses under the second to midnight of that day |
| `TimeFormat.SecondsStampCollision` | sync_rsync.py:41 | two `date_time` names collide exactly when the runs fall in the same second |
| `TimeFormat.DayStampCollision` | sync_rsync.py:44 | two `date` names collide exactly when the runs fall on the same day |
| `TimeFormat.ParseDayPieces` | sync_rsync.py:141 | `%Y-%m-%d` reads the pieces between the first two dashes and the rest, and builds the date from them |
| `TimeFormat.NoUnderscoreNoSeconds` | sync_rsync.py:141 | a name with no `_` after its second dash fails `%Y-%m-%d_%H-%M-%S` |
| `TimeFormat.SampleSecondsName` | sync_rsync.py:139-144 | `2023-01-01_10-00-00` parses to 2023-01-01 10:00:00 |
| `TimeFormat.SampleDayName` | sync_rsync.py:139-144 | `2023-01-01` fails the first format and parses to midnight of 2023-01-01 |
| `TimeFormat.DayNameParses` | sync_rsync.py:139-144 | a name `<y>-<m>-<d>` with valid pieces and no `_` after the dashes parses to midnight of that day |
| `TimeFormat.SampleUndatedName` | sync_rsync.py:145-150 | `not-a-date` parses under neither format |
| `TimeFormat.SampleUnpaddedName` | sync_rsync.py:141 | `2023-1-5` parses (no zero padding needed), as in Python |
| `TimeFormat.SampleUnpaddedSecondsName` | sync_rsync.py:141 | `2023-1-5_1-2-3` dates to 01:02:03 on 2023-01-05: the time fields need not be zero-padded |
| `TimeFormat.SampleLeapSecond` | sync_rsync.py:141 | `2023-01-01_10-00-60` matches the pattern but is refused as a datetime |
| `TimeFormat.SampleImpossibleDay` | sync_rsync.py:141 | `2023-02-30` parses under neither format |
| `DirectoryNamer.RetentionKey` | sync_rsync.py:40-51 | the appended segment always parses back, to midnight for `date` and to the truncated second otherwise |
| `DirectoryNamer.GetBackupDirectory` | sync_rsync.py:35-56 | the returned format is the configured string; `static` gives the server directory; every other format gives the server directory joined with its retention key |
| `DirectoryNamer.StaticDirectoryIsFixed` | sync_rsync.py:46-47 | a `static` server writes to `<target>/<backup_name or host>` on every run, whatever the time |
| `DirectoryNamer.TimestampedPathShape` | sync_rsync.py:38-45 | with relative, non-empty names, a timestamped path is `<target>/<name>/<timestamp>` |
| `DirectoryNamer.UnknownFormatFallsBack` | sync_rsync.py:48-51 | an unrecognised format gets the `date_time` path, but the unrecognised string is returned |
| `CredentialGuard.Chmod` | sync_rsync.py:65 | `chmod` sets the low twelve mode bits and keeps the file-type bits |
| `CredentialGuard.FixedMode` | sync_rsync.py:61-65 | afterwards `mode & 0o777 == 0o600`; a mode already `0o600` is unchanged; the file type is kept |
| `CredentialGuard.FixIsIdempotent` | sync_rsync.py:63-65 | fixing a fixed mode changes nothing |
| `CredentialGuard.KeyStore.CheckAndFixPermissions` | sync_rsync.py:59-69 | on success only this key's mode changes, to the fixed mode; on a failed stat or chmod nothing changes, and the error is raised exactly when debug mode is off |
| `TransferRunner.RsyncCommand` | sync_rsync.py:87-96 | the command has 7 arguments, or 8 for `static`; it starts with `rsync`; `--delete` is at index 1 exactly for `static`; it ends `-avz --timeout=30 -e <ssh> user@host:path <dir>` |
| `TransferRunner.CommandTargetsBackupDirectory` | sync_rsync.py:87-96 | any path's command ends with the backup directory and carries `--delete` exactly for `static` |
| `TransferRunner.AttemptsFrom` | sync_rsync.py:98-114 | from a given attempt on, the count stops at the first success or at the ceiling |
| `TransferRunner.AttemptsUsed` | sync_rsync.py:98-114 | at most `rsync_max_retries` attempts, none when it is below 1; every earlier attempt failed; stopping before the ceiling means success |
| `TransferRunner.RetryTrace` | sync_rsync.py:98-114 | `n` attempts give runs numbered 1 to `n` with one 5-second sleep between consecutive runs |
| `TransferRunner.CountsOfConcat` | sync_rsync.py:86 | run and sleep counts add up across consecutive paths |
| `TransferRunner.RetryTraceCounts` | sync_rsync.py:98-114 | `n` attempts are `n` rsync runs and `n - 1` sleeps |
| `TransferRunner.SuccessOnAttempt` | sync_rsync.py:102-104 | first success on attempt `k` within the ceiling: exactly `k` runs and `k - 1` sleeps |
| `TransferRunner.AllAttemptsFail` | sync_rsync.py:105-110 | when every attempt fails: exactly `rsync_max_retries` runs and one sleep fewer |
| `TransferRunner.RunWithRetries` | sync_rsync.py:98-114 | the loop's trace is that of the attempts used, whether or not debug mode is on; it reports success exactly when some attempt within the ceiling succeeds |
| `TransferRunner.PathsTrace` | sync_rsync.py:86-114 | the path loop runs no rsync at all exactly when there are no paths or `rsync_max_retries` is below 1 |
| `TransferRunner.PathsTraceRuns` | sync_rsync.py:86-114 | a server's sync runs rsync at most `paths × rsync_max_retries` times |
| `TransferRunner.EveryPathAttempted` | sync_rsync.py:107-110 | exhausting one path's retries does not stop later paths: with a ceiling of at least 1, every path's command gets its first attempt |
| `TransferRunner.EveryRunTargetsBackupDirectory` | sync_rsync.py:86-96 | every rsync of the sync writes into the backup directory and carries `--delete` exactly for `static` |
| `TransferRunner.SyncPaths` | sync_rsync.py:86-114 | the path loop, with the in-place insert, yields the paths' retry traces in list order |
| `TransferRunner.RunRsyncWithRetries` | sync_rsync.py:72-114 | the key check runs first, even for an empty path list; a raised key error means no rsync; an empty list is skipped; otherwise every path is synced |
| `RetentionSweeper.FirstServerNamed` | sync_rsync.py:124 | the lookup finds the first configured server whose directory has this name, or none when no server has it |
| `RetentionSweeper.CutoffMicros` | sync_rsync.py:118 | the cutoff is now minus `max_days` days, in microseconds; it is `None` (Python's `OverflowError`) exactly when `max_days` is beyond 999999999 days either way or the result leaves the datetime range; it is at most now for `max_days >= 0` and before now for `max_days > 0` |
| `RetentionSweeper.ExpiredMeansBefore` | sync_rsync.py:145-146 | the cutoff is the datetime `max_days` days before now, and a name is expired exactly when it parses to a datetime before that one by Python's `<` |
| `RetentionSweeper.DirectoryFormat` | sync_rsync.py:124-128 | a server directory's format is that of the first server configured under its name, and `date_time` when there is none |
| `RetentionSweeper.SweptEntries` | sync_rsync.py:134-150 | a subdirectory is removed exactly when it is a directory whose name parses to a time before the cutoff; nothing else is removed or altered |
| `RetentionSweeper.SweptTree` | sync_rsync.py:120-152 | files and `static` server directories are untouched; every other server directory is swept; no top-level entry appears or disappears |
| `RetentionSweeper.BackupStore.RemoveTree` | sync_rsync.py:148 | `rmtree` removes exactly that one subdirectory |
| `RetentionSweeper.BackupStore.SweepEntry` | sync_rsync.py:136-148 | an entry is removed exactly when it is a directory whose name parses to a time before the cutoff; nothing else changes |
| `RetentionSweeper.BackupStore.SweepServerDirectory` | sync_rsync.py:134-150 | the loop over one listing, in any order, leaves that directory swept and the rest of the tree as it was |
| `RetentionSweeper.BackupStore.CleanOldBackups` | sync_rsync.py:117-152 | whatever the listing order, the tree becomes the swept tree; when the cutoff overflows nothing is removed |
| `FormatPolicy.SweepReadsServerFormat` | sync_rsync.py:124-126 | the sweep uses the format of the first server configured under a directory name |
| `FormatPolicy.UnconfiguredDirectoryIsSwept` | sync_rsync.py:127-128 | a directory no server is configured under is swept as `date_time` |
| `FormatPolicy.StaticPolicy` | sync_rsync.py:131-132 | `static`: a fixed path (lines 46-47), `--delete` on rsync (lines 95-96), and a server directory the sweep leaves exactly as it was |
| `FormatPolicy.UnknownFormatPolicy` | sync_rsync.py:48-51 | an unrecognised format gets the `date_time` path, but rsync gets no `--delete` and the sweep does not exempt the directory |
| `FormatPolicy.RetentionKeyExpiry` | sync_rsync.py:145-148 | a run's directory expires exactly when its time, at the format's resolution, is before the cutoff |
| `FormatPolicy.FreshBackupSurvives` | sync_rsync.py:118 | with `max_days >= 1`, a run's new backup survives a sweep made no more than `max_days - 1` days later |

## Left out

- Loading the JSON configuration and applying defaults (lines 17-32): the settings arrive as a value.
- The server loop (lines 155-164), the top-level cleanup call (lines 166-172) and the debug-mode sleep loop (lines 175-178) are not modelled. They only sequence calls, catch and log exceptions, and keep the process alive.
- `subprocess.run` and rsync itself: an outcome oracle stands in for them. Captured output and exceptions other than `CalledProcessError` are not modelled.
- Logging is not modelled. `time.sleep(5)` appears only as a `Sleep(5)` event in the trace.
- `os.makedirs` (line 54) is not modelled. Path strings are not linked to the modelled tree.
- The content of the ssh option string is built but nothing is proved about it.
- `TimeFormat.YearToken`, `TimeFormat.NumberToken`, `TimeFormat.DayToken`, `TimeFormat.HourToken`, `TimeFormat.MinuteToken`, `TimeFormat.SecondToken`: Python's `\d` also matches non-ASCII decimal digits (`2023-01-1٥` is day 15 in Python). The model accepts only ASCII digits, so it refuses such names and the sweep keeps them.
- `TimeFormat.SecondsRoundTrip`: `strftime('%Y')` is modelled as zero-padded to four digits. Some C libraries do not pad years below 1000.
- `TimeFormat.SecondsStamp`: rests on the same four-digit `%Y` padding as `TimeFormat.SecondsRoundTrip`.
- `TimeFormat.DayStamp`: rests on the same four-digit `%Y` padding as `TimeFormat.SecondsRoundTrip`.
- `TimeFormat.DayRoundTrip`: rests on the same four-digit `%Y` padding as `TimeFormat.SecondsRoundTrip`.
- `RetentionSweeper.BackupStore.CleanOldBackups`: it does not model failures of `os.listdir` or `shutil.rmtree`. In Python these abort the sweep part-way, and the caller logs them.
- `RetentionSweeper.BackupStore.CleanOldBackups`: `os.path.isdir` following symbolic links is not modelled, nor is `rmtree` refusing them.
- `RetentionSweeper.CutoffMicros`: `max_days` is an integer. A fractional value from JSON is not modelled.
- `CredentialGuard.KeyStore.CheckAndFixPermissions`: stat and chmod failures are modelled as "path missing" and "path locked". The cause of the error is not.
