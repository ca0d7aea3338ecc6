/**
  `get_backup_directory`: where one run of a server writes its backup, and the naming
  format the rest of the run (the `--delete` decision, the sweep) is told about.
*/
module DirectoryNamer {
  import opened Options
  import opened CivilTime
  import opened TimeFormat
  import opened Config

  datatype Destination = Destination(path: string, format: string)

  /** `os.path.join(sync_target_base, backup_name)`. */
  function ServerDirectory(base: string, server: ServerSpec): string {
    Join(base, BackupName(server))
  }

  /**
    The timestamp segment a non-static format appends: day resolution for `date`, second
    resolution for `date_time` and for every unrecognised format. It is always a name the
    sweep can date, and it dates to the run's time at the format's resolution.
  */
  function RetentionKey(format: string, now: Instant): (key: string)
    requires format != "static"
    ensures ParseBackupName(key) == Some(if format == "date" then Midnight(now) else Truncate(now))
  {
    if format == "date" then
      DayRoundTrip(now);
      DayStamp(now)
    else
      SecondsRoundTrip(now);
      SecondsStamp(now)
  }

  /**
    `get_backup_directory(server)` with `datetime.now()` read as `now`. It returns the
    configured format string itself, not the format it fell back to.
  */
  function GetBackupDirectory(base: string, server: ServerSpec, now: Instant): (r: Destination)
    ensures r.format == NameFormat(server)
    ensures r.format == "static" ==> r.path == ServerDirectory(base, server)
    ensures r.format != "static" ==>
              r.path == Join(ServerDirectory(base, server), RetentionKey(r.format, now))
  {
    var serverDirectory := Join(base, BackupName(server));
    var format := NameFormat(server);
    var path :=
      if format == "date_time" then Join(serverDirectory, SecondsStamp(now))
      else if format == "date" then Join(serverDirectory, DayStamp(now))
      else if format == "static" then serverDirectory
      else Join(serverDirectory, SecondsStamp(now));
    Destination(path, format)
  }

  /** A static server always writes to `<target>/<backup_name or host>`, whatever the time. */
  lemma StaticDirectoryIsFixed(base: string, server: ServerSpec, t1: Instant, t2: Instant)
    requires NameFormat(server) == "static"
    ensures GetBackupDirectory(base, server, t1).path == Join(base, BackupName(server))
    ensures GetBackupDirectory(base, server, t1) == GetBackupDirectory(base, server, t2)
  {
  }

  /**
    A timestamped path is the server directory, a slash and a segment without slashes
    (when the target and the name are relative, non-empty and without a trailing slash).
  */
  lemma TimestampedPathShape(base: string, server: ServerSpec, now: Instant)
    requires NameFormat(server) != "static"
    requires |base| > 0 && base[|base| - 1] != '/'
    requires |BackupName(server)| > 0 && BackupName(server)[0] != '/'
    requires BackupName(server)[|BackupName(server)| - 1] != '/'
    ensures GetBackupDirectory(base, server, now).path
            == base + "/" + BackupName(server) + "/" + RetentionKey(NameFormat(server), now)
  {
    var name := BackupName(server);
    var dir := base + "/" + name;
    assert dir[|dir| - 1] == name[|name| - 1];
    var key := RetentionKey(NameFormat(server), now);
    assert key[0] != '/' by {
      if NameFormat(server) == "date" {
        assert key == Pad4(now.year) + "-" + Pad2(now.month) + "-" + Pad2(now.day);
      } else {
        assert key[0] == Pad4(now.year)[0];
      }
    }
  }

  /** An unrecognised format yields the `date_time` path, but the unrecognised string is returned. */
  lemma UnknownFormatFallsBack(base: string, server: ServerSpec, now: Instant)
    requires NameFormat(server) !in {"date_time", "date", "static"}
    ensures GetBackupDirectory(base, server, now).path
            == GetBackupDirectory(base, server.(backupNameFormat := Some("date_time")), now).path
    ensures GetBackupDirectory(base, server, now).format == NameFormat(server)
  {
  }
}
