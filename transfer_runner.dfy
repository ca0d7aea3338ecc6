/**
  `run_rsync_with_retries`: one rsync command per remote path, each run at most
  `rsync_max_retries` times with a 5-second pause after every failed attempt but the
  last. rsync itself is an oracle: `outcome(i, k)` says whether attempt `k` for the
  `i`-th path exits with status 0. What the run does is recorded as a trace of rsync
  invocations and sleeps.
*/
module TransferRunner {
  import opened Config
  import opened CredentialGuard
  import TimeFormat

  datatype Event = Rsync(command: seq<string>, attempt: nat) | Sleep(seconds: nat)

  const RETRY_DELAY: nat := 5

  function DecimalDigits(n: nat): string
    decreases n
  {
    if n < 10 then [TimeFormat.DigitChar(n)]
    else DecimalDigits(n / 10) + [TimeFormat.DigitChar(n % 10)]
  }

  /** Python's `str` of an integer. */
  function IntToString(n: int): string {
    if n < 0 then "-" + DecimalDigits(-n) else DecimalDigits(n)
  }

  /** The `-e` argument: the ssh command rsync tunnels through. */
  function SshOptions(settings: Settings, key: string): string {
    "ssh -p " + IntToString(settings.sshPort) + " -i " + key
      + " -o StrictHostKeyChecking=no -o UserKnownHostsFile=/dev/null -o ConnectTimeout="
      + IntToString(settings.sshConnectionTimeout)
  }

  function RemoteSource(server: ServerSpec, remotePath: string): string {
    server.user + "@" + server.host + ":" + remotePath
  }

  /**
    The argument list for one remote path: `rsync -avz --timeout=30 -e <ssh> user@host:path
    <backup directory>`, with `--delete` inserted at index 1 exactly when the format
    string is `static`.
  */
  function RsyncCommand(settings: Settings, server: ServerSpec, remotePath: string,
                        backupDirectory: string, format: string): (cmd: seq<string>)
    ensures |cmd| == if format == "static" then 8 else 7
    ensures cmd[0] == "rsync"
    ensures cmd[1] == "--delete" <==> format == "static"
    ensures cmd[|cmd| - 6..] == ["-avz", "--timeout=30", "-e",
                                 SshOptions(settings, server.sshPrivateKey),
                                 RemoteSource(server, remotePath), backupDirectory]
  {
    var base := ["rsync", "-avz", "--timeout=30", "-e", SshOptions(settings, server.sshPrivateKey),
                 RemoteSource(server, remotePath), backupDirectory];
    if format == "static" then base[..1] + ["--delete"] + base[1..] else base
  }

  function Max0(n: int): nat {
    if n < 0 then 0 else n
  }

  /**
    The number of attempts from `attempt` on: the first one up to `maxRetries` that
    succeeds, or `maxRetries` when none does.
  */
  function AttemptsFrom(outcome: (nat, nat) -> bool, path: nat, attempt: nat, maxRetries: int)
    : (n: nat)
    requires 1 <= attempt <= maxRetries
    ensures attempt <= n <= maxRetries
    ensures forall k :: attempt <= k < n ==> !outcome(path, k)
    ensures n < maxRetries ==> outcome(path, n)
    decreases maxRetries - attempt
  {
    if outcome(path, attempt) || attempt == maxRetries then attempt
    else AttemptsFrom(outcome, path, attempt + 1, maxRetries)
  }

  /**
    How many times rsync runs for one path: the first successful attempt, or
    `rsync_max_retries` when all fail, or none when that setting is below 1.
  */
  function AttemptsUsed(outcome: (nat, nat) -> bool, path: nat, maxRetries: int): (n: nat)
    ensures n <= Max0(maxRetries)
    ensures maxRetries >= 1 ==> n >= 1
    ensures forall k :: 1 <= k < n ==> !outcome(path, k)
    ensures 1 <= n < maxRetries ==> outcome(path, n)
  {
    if maxRetries < 1 then 0 else AttemptsFrom(outcome, path, 1, maxRetries)
  }

  /** `n` rsync runs of `cmd`, numbered 1 to `n`, with a 5-second sleep between consecutive ones. */
  function RetryTrace(cmd: seq<string>, n: nat): (trace: seq<Event>)
    ensures |trace| == if n == 0 then 0 else 2 * n - 1
    ensures forall i :: 0 <= i < |trace| ==>
              trace[i] == if i % 2 == 0 then Rsync(cmd, i / 2 + 1) else Sleep(RETRY_DELAY)
  {
    if n == 0 then []
    else if n == 1 then [Rsync(cmd, 1)]
    else RetryTrace(cmd, n - 1) + [Sleep(RETRY_DELAY), Rsync(cmd, n)]
  }

  function CountRuns(trace: seq<Event>): nat {
    if trace == [] then 0 else (if trace[0].Rsync? then 1 else 0) + CountRuns(trace[1..])
  }

  function CountSleeps(trace: seq<Event>): nat {
    if trace == [] then 0 else (if trace[0].Sleep? then 1 else 0) + CountSleeps(trace[1..])
  }

  lemma {:induction false} CountsOfConcat(a: seq<Event>, b: seq<Event>)
    ensures CountRuns(a + b) == CountRuns(a) + CountRuns(b)
    ensures CountSleeps(a + b) == CountSleeps(a) + CountSleeps(b)
  {
    if a != [] {
      assert (a + b)[1..] == a[1..] + b;
      CountsOfConcat(a[1..], b);
    } else {
      assert a + b == b;
    }
  }

  /** `n` attempts mean `n` rsync runs and `n - 1` sleeps. */
  lemma {:induction false} RetryTraceCounts(cmd: seq<string>, n: nat)
    ensures CountRuns(RetryTrace(cmd, n)) == n
    ensures CountSleeps(RetryTrace(cmd, n)) == Max0(n - 1)
  {
    if n == 1 {
      assert RetryTrace(cmd, 1)[1..] == [];
    } else if n > 1 {
      var tail := [Sleep(RETRY_DELAY), Rsync(cmd, n)];
      RetryTraceCounts(cmd, n - 1);
      CountsOfConcat(RetryTrace(cmd, n - 1), tail);
      assert tail[1..] == [Rsync(cmd, n)] && tail[1..][1..] == [];
      assert CountRuns(tail[1..]) == 1 && CountSleeps(tail[1..]) == 0;
      assert CountRuns(tail) == 1 && CountSleeps(tail) == 1;
    }
  }

  /**
    Success on attempt `k` after `k - 1` failures: `k` runs and `k - 1` sleeps; `k` must be
    within the retry ceiling.
  */
  lemma SuccessOnAttempt(cmd: seq<string>, outcome: (nat, nat) -> bool, path: nat,
                         maxRetries: int, k: nat)
    requires 1 <= k <= maxRetries
    requires outcome(path, k) && forall j :: 1 <= j < k ==> !outcome(path, j)
    ensures AttemptsUsed(outcome, path, maxRetries) == k
    ensures CountRuns(RetryTrace(cmd, k)) == k && CountSleeps(RetryTrace(cmd, k)) == k - 1
  {
    RetryTraceCounts(cmd, k);
  }

  /**
    When every attempt fails, rsync runs exactly `rsync_max_retries` times with one sleep
    fewer.
  */
  lemma AllAttemptsFail(cmd: seq<string>, outcome: (nat, nat) -> bool, path: nat,
                        maxRetries: int)
    requires forall j :: 1 <= j <= maxRetries ==> !outcome(path, j)
    ensures AttemptsUsed(outcome, path, maxRetries) == Max0(maxRetries)
    ensures CountRuns(RetryTrace(cmd, Max0(maxRetries))) == Max0(maxRetries)
    ensures CountSleeps(RetryTrace(cmd, Max0(maxRetries))) == Max0(maxRetries - 1)
  {
    RetryTraceCounts(cmd, Max0(maxRetries));
  }

  /**
    The retry loop of one path. Debug mode skips the `break` after the last failure, but
    the attempt counter then passes the ceiling, so the trace is the same.
  */
  method RunWithRetries(cmd: seq<string>, maxRetries: int, debugMode: bool,
                        outcome: (nat, nat) -> bool, path: nat)
    returns (trace: seq<Event>, succeeded: bool)
    ensures trace == RetryTrace(cmd, AttemptsUsed(outcome, path, maxRetries))
    ensures succeeded <==> exists k :: 1 <= k <= maxRetries && outcome(path, k)
  {
    trace, succeeded := [], false;
    var attempt: nat := 1;
    while attempt <= maxRetries
      invariant 1 <= attempt <= Max0(maxRetries) + 1
      invariant forall k :: 1 <= k < attempt ==> !outcome(path, k)
      invariant trace == RetryTrace(cmd, attempt - 1)
                         + (if 1 < attempt <= maxRetries then [Sleep(RETRY_DELAY)] else [])
      decreases maxRetries - attempt
    {
      trace := trace + [Rsync(cmd, attempt)];
      if outcome(path, attempt) {
        succeeded := true;
        break;
      } else if attempt == maxRetries {
        if !debugMode {
          break;
        }
      } else {
        trace := trace + [Sleep(RETRY_DELAY)];
      }
      attempt := attempt + 1;
    }
  }

  /** The runs of the first `n` paths, in list order. */
  function PathsTrace(settings: Settings, server: ServerSpec, backupDirectory: string,
                      format: string, outcome: (nat, nat) -> bool, n: nat): (trace: seq<Event>)
    requires n <= |server.paths|
    ensures trace == [] <==> n == 0 || settings.rsyncMaxRetries < 1
  {
    if n == 0 then []
    else
      PathsTrace(settings, server, backupDirectory, format, outcome, n - 1)
        + RetryTrace(RsyncCommand(settings, server, server.paths[n - 1], backupDirectory, format),
                     AttemptsUsed(outcome, n - 1, settings.rsyncMaxRetries))
  }

  /** At most `rsync_max_retries` runs per path, and none when that setting is below 1. */
  lemma {:induction false} PathsTraceRuns(settings: Settings, server: ServerSpec,
                                          backupDirectory: string, format: string,
                                          outcome: (nat, nat) -> bool, n: nat)
    requires n <= |server.paths|
    ensures CountRuns(PathsTrace(settings, server, backupDirectory, format, outcome, n))
            <= n * Max0(settings.rsyncMaxRetries)
  {
    if n > 0 {
      var cmd := RsyncCommand(settings, server, server.paths[n - 1], backupDirectory, format);
      var used := AttemptsUsed(outcome, n - 1, settings.rsyncMaxRetries);
      PathsTraceRuns(settings, server, backupDirectory, format, outcome, n - 1);
      CountsOfConcat(PathsTrace(settings, server, backupDirectory, format, outcome, n - 1),
                     RetryTrace(cmd, used));
      RetryTraceCounts(cmd, used);
      var m := Max0(settings.rsyncMaxRetries);
      assert n * m == (n - 1) * m + m;
    }
  }

  /**
    Exhausting the retries of one path does not stop the later ones: with a ceiling of at
    least 1, every path's command gets its first attempt.
  */
  lemma {:induction false} EveryPathAttempted(settings: Settings, server: ServerSpec,
                                              backupDirectory: string, format: string,
                                              outcome: (nat, nat) -> bool, n: nat, i: nat)
    requires i < n <= |server.paths| && settings.rsyncMaxRetries >= 1
    ensures Rsync(RsyncCommand(settings, server, server.paths[i], backupDirectory, format), 1)
            in PathsTrace(settings, server, backupDirectory, format, outcome, n)
  {
    var prefix := PathsTrace(settings, server, backupDirectory, format, outcome, n - 1);
    var cmd := RsyncCommand(settings, server, server.paths[n - 1], backupDirectory, format);
    var last := RetryTrace(cmd, AttemptsUsed(outcome, n - 1, settings.rsyncMaxRetries));
    if i < n - 1 {
      EveryPathAttempted(settings, server, backupDirectory, format, outcome, n - 1, i);
      assert (prefix + last)[..|prefix|] == prefix;
    } else {
      assert last[0] == Rsync(cmd, 1);
      assert (prefix + last)[|prefix|] == last[0];
    }
  }

  /** A command writes into `backupDirectory` and carries `--delete` exactly for `static`. */
  predicate TargetsBackupDirectory(cmd: seq<string>, backupDirectory: string, format: string) {
    && |cmd| >= 7
    && cmd[|cmd| - 1] == backupDirectory
    && (cmd[1] == "--delete" <==> format == "static")
  }

  /** The command built for any path targets the backup directory. */
  lemma CommandTargetsBackupDirectory(settings: Settings, server: ServerSpec, remotePath: string,
                                      backupDirectory: string, format: string)
    ensures TargetsBackupDirectory(RsyncCommand(settings, server, remotePath, backupDirectory,
                                                format), backupDirectory, format)
  {
    var cmd := RsyncCommand(settings, server, remotePath, backupDirectory, format);
    assert cmd[|cmd| - 6..][5] == cmd[|cmd| - 1];
  }

  /** Every rsync run recorded in `trace` targets the backup directory. */
  predicate AllRunsTarget(trace: seq<Event>, backupDirectory: string, format: string) {
    forall i :: 0 <= i < |trace| && trace[i].Rsync? ==>
      TargetsBackupDirectory(trace[i].command, backupDirectory, format)
  }

  /** Runs that all target the backup directory still do after concatenation. */
  lemma AllTargetBackupDirectory(prefix: seq<Event>, last: seq<Event>,
                                 backupDirectory: string, format: string)
    requires AllRunsTarget(prefix, backupDirectory, format)
    requires AllRunsTarget(last, backupDirectory, format)
    ensures AllRunsTarget(prefix + last, backupDirectory, format)
  {
    var trace := prefix + last;
    forall i | 0 <= i < |trace| && trace[i].Rsync?
      ensures TargetsBackupDirectory(trace[i].command, backupDirectory, format)
    {
      if i < |prefix| {
        assert trace[i] == prefix[i];
      } else {
        assert trace[i] == last[i - |prefix|];
      }
    }
  }

  /**
    Every rsync run of a server's sync writes into the backup directory, and carries
    `--delete` exactly when the format string is `static`.
  */
  lemma {:induction false} EveryRunTargetsBackupDirectory(
    settings: Settings, server: ServerSpec, backupDirectory: string, format: string,
    outcome: (nat, nat) -> bool, n: nat)
    requires n <= |server.paths|
    ensures AllRunsTarget(PathsTrace(settings, server, backupDirectory, format, outcome, n),
                          backupDirectory, format)
  {
    if n > 0 {
      var prefix := PathsTrace(settings, server, backupDirectory, format, outcome, n - 1);
      var cmd := RsyncCommand(settings, server, server.paths[n - 1], backupDirectory, format);
      var last := RetryTrace(cmd, AttemptsUsed(outcome, n - 1, settings.rsyncMaxRetries));
      EveryRunTargetsBackupDirectory(settings, server, backupDirectory, format, outcome, n - 1);
      CommandTargetsBackupDirectory(settings, server, server.paths[n - 1], backupDirectory, format);
      assert AllRunsTarget(last, backupDirectory, format);
      AllTargetBackupDirectory(prefix, last, backupDirectory, format);
    }
  }

  /** The `for remote_path in paths` loop: build each command, `--delete` inserted in place, and retry it. */
  method SyncPaths(settings: Settings, server: ServerSpec, backupDirectory: string,
                   format: string, outcome: (nat, nat) -> bool)
    returns (trace: seq<Event>)
    ensures trace == PathsTrace(settings, server, backupDirectory, format, outcome,
                                |server.paths|)
  {
    trace := [];
    for i := 0 to |server.paths|
      invariant trace == PathsTrace(settings, server, backupDirectory, format, outcome, i)
    {
      var command := ["rsync", "-avz", "--timeout=30", "-e",
                      SshOptions(settings, server.sshPrivateKey),
                      RemoteSource(server, server.paths[i]), backupDirectory];
      if format == "static" {
        command := command[..1] + ["--delete"] + command[1..];
      }
      assert command == RsyncCommand(settings, server, server.paths[i], backupDirectory, format);
      var attempts, _ := RunWithRetries(command, settings.rsyncMaxRetries, settings.debugMode,
                                        outcome, i);
      trace := trace + attempts;
    }
  }

  datatype RunStatus = KeyPermissionError | NoPaths | Completed

  /**
    `run_rsync_with_retries`: the key check comes first (an empty path list does not skip
    it); a raised key error ends the call before any rsync; an empty path list is
    reported and skipped; otherwise every path is synced in order.
  */
  method RunRsyncWithRetries(settings: Settings, server: ServerSpec, backupDirectory: string,
                             format: string, keys: KeyStore, outcome: (nat, nat) -> bool)
    returns (status: RunStatus, trace: seq<Event>)
    modifies keys
    ensures status == KeyPermissionError <==>
              old(keys.CheckFails(server.sshPrivateKey)) && !settings.debugMode
    ensures status == NoPaths <==> status != KeyPermissionError && server.paths == []
    ensures status != Completed ==> trace == []
    ensures status == Completed ==>
              trace == PathsTrace(settings, server, backupDirectory, format, outcome,
                                  |server.paths|)
    ensures old(keys.CheckFails(server.sshPrivateKey)) ==> keys.modes == old(keys.modes)
    ensures !old(keys.CheckFails(server.sshPrivateKey)) ==>
              keys.modes == old(keys.modes)[server.sshPrivateKey :=
                                             FixedMode(old(keys.modes)[server.sshPrivateKey])]
  {
    var raised := keys.CheckAndFixPermissions(server.sshPrivateKey, settings.debugMode);
    if raised {
      return KeyPermissionError, [];
    }
    if server.paths == [] {
      return NoPaths, [];
    }
    trace := SyncPaths(settings, server, backupDirectory, format, outcome);
    status := Completed;
  }
}
