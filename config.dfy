/**
  The settings the script reads once from its JSON configuration, and one entry of
  `remote_servers`. Loading and defaulting the JSON happen before the core runs; here the
  result is an immutable value passed in.
*/
module Config {
  import opened Options

  /** `config['settings']`, with the defaults already applied. */
  datatype Settings = Settings(
    syncTarget: string,
    sshPort: int,
    maxDays: int,
    debugMode: bool,
    sshConnectionTimeout: int,
    rsyncMaxRetries: int)

  /** One server entry; an absent `paths` key is the empty list. */
  datatype ServerSpec = ServerSpec(
    host: string,
    user: string,
    sshPrivateKey: string,
    paths: seq<string>,
    backupName: Option<string>,
    backupNameFormat: Option<string>)

  /** `server.get('backup_name', server['host'])`: the server's directory under the target. */
  function BackupName(server: ServerSpec): (name: string)
    ensures server.backupName.None? ==> name == server.host
    ensures server.backupName.Some? ==> name == server.backupName.value
  {
    server.backupName.GetOr(server.host)
  }

  /** `server.get('backup_name_format', 'date_time')`. */
  function NameFormat(server: ServerSpec): (format: string)
    ensures server.backupNameFormat.None? ==> format == "date_time"
    ensures server.backupNameFormat.Some? ==> format == server.backupNameFormat.value
  {
    server.backupNameFormat.GetOr("date_time")
  }

  /** `os.path.join(a, b)` on POSIX: an absolute `b` replaces `a`; otherwise one `/` between. */
  function Join(a: string, b: string): (r: string)
    ensures |b| <= |r| && r[|r| - |b|..] == b
    ensures |b| > 0 && b[0] != '/' && |a| > 0 && a[|a| - 1] != '/' ==> r == a + "/" + b
  {
    if |b| > 0 && b[0] == '/' then b
    else if a == [] || a[|a| - 1] == '/' then a + b
    else a + "/" + b
  }
}
