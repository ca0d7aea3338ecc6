/**
  The naming format string is decided once per run and read by three parts: the directory
  namer, the rsync command (`--delete`) and the sweep (exemption). These lemmas follow one
  server's format through all three.
*/
module FormatPolicy {
  import opened Options
  import opened CivilTime
  import opened TimeFormat
  import opened Config
  import opened DirectoryNamer
  import opened TransferRunner
  import opened RetentionSweeper

  /** Server `i` is the first whose directory has its name, so the sweep looks up its entry. */
  predicate FirstWithItsName(servers: seq<ServerSpec>, i: nat) {
    i < |servers| && forall j :: 0 <= j < i ==> BackupName(servers[j]) != BackupName(servers[i])
  }

  /** The sweep reads the format of the first server configured under a directory name. */
  lemma SweepReadsServerFormat(servers: seq<ServerSpec>, i: nat)
    requires FirstWithItsName(servers, i)
    ensures DirectoryFormat(servers, BackupName(servers[i])) == NameFormat(servers[i])
  {
    var r := FirstServerNamed(servers, BackupName(servers[i]));
    assert r == Some(i);
  }

  /** A directory no server is configured under is swept as `date_time`. */
  lemma UnconfiguredDirectoryIsSwept(tree: map<string, Node>, servers: seq<ServerSpec>,
                                     cutoff: int, d: string)
    requires d in tree && tree[d].Dir?
    requires forall j :: 0 <= j < |servers| ==> BackupName(servers[j]) != d
    ensures SweptTree(tree, servers, cutoff)[d] == Dir(SweptEntries(tree[d].entries, cutoff))
  {
    assert FirstServerNamed(servers, d).None?;
  }

  /**
    `static`: the backup goes to `<target>/<name>` every run, every rsync carries
    `--delete`, and the sweep leaves the server's directory exactly as it is.
  */
  lemma StaticPolicy(settings: Settings, servers: seq<ServerSpec>, i: nat, now: Instant,
                     remotePath: string, tree: map<string, Node>, cutoff: int)
    requires FirstWithItsName(servers, i) && NameFormat(servers[i]) == "static"
    ensures var dest := GetBackupDirectory(settings.syncTarget, servers[i], now);
            && dest.path == Join(settings.syncTarget, BackupName(servers[i]))
            && RsyncCommand(settings, servers[i], remotePath, dest.path, dest.format)[1]
               == "--delete"
    ensures BackupName(servers[i]) in tree ==>
              SweptTree(tree, servers, cutoff)[BackupName(servers[i])]
              == tree[BackupName(servers[i])]
  {
    SweepReadsServerFormat(servers, i);
  }

  /**
    An unrecognised format writes where `date_time` would, but because the string itself
    is passed on, rsync gets no `--delete` and the sweep does not exempt the directory.
  */
  lemma UnknownFormatPolicy(settings: Settings, servers: seq<ServerSpec>, i: nat, now: Instant,
                            remotePath: string, tree: map<string, Node>, cutoff: int)
    requires FirstWithItsName(servers, i)
    requires NameFormat(servers[i]) !in {"date_time", "date", "static"}
    ensures var dest := GetBackupDirectory(settings.syncTarget, servers[i], now);
            && dest.format == NameFormat(servers[i])
            && dest.path
               == GetBackupDirectory(settings.syncTarget,
                                     servers[i].(backupNameFormat := Some("date_time")), now).path
            && RsyncCommand(settings, servers[i], remotePath, dest.path, dest.format)[1]
               != "--delete"
    ensures var d := BackupName(servers[i]);
            d in tree && tree[d].Dir? ==>
              SweptTree(tree, servers, cutoff)[d] == Dir(SweptEntries(tree[d].entries, cutoff))
  {
    SweepReadsServerFormat(servers, i);
  }

  /** The directory a run creates expires exactly when its time, at the format's resolution, is before the cutoff. */
  lemma RetentionKeyExpiry(format: string, now: Instant, cutoff: int)
    requires format != "static"
    ensures Expired(RetentionKey(format, now), cutoff)
            <==> Micros(if format == "date" then Midnight(now) else Truncate(now)) < cutoff
  {
  }

  /**
    With `max_days >= 1`, the backup a run just wrote survives any sweep made at most
    `max_days - 1` days after it, at either resolution.
  */
  lemma FreshBackupSurvives(format: string, now: Instant, sweepTime: Instant, maxDays: int)
    requires format != "static" && maxDays >= 1
    requires CutoffMicros(sweepTime, maxDays).Some?
    requires Micros(sweepTime) <= Micros(now) + (maxDays - 1) * DAY_MICROS
    ensures !Expired(RetentionKey(format, now), CutoffMicros(sweepTime, maxDays).value)
  {
    var key := RetentionKey(format, now);
    var t := if format == "date" then Midnight(now) else Truncate(now);
    assert ParseBackupName(key) == Some(t);
    assert Micros(now) < Micros(t) + DAY_MICROS;
  }
}
