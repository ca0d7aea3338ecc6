/**
  `clean_old_backups`: under the sync target, every server directory whose server is not
  `static` loses each backup subdirectory whose name parses as a date earlier than
  `now - max_days` days. The target directory is a map from entry name to node; a server
  directory's entries map each name to whether it is a directory.
*/
module RetentionSweeper {
  import opened Options
  import opened CivilTime
  import opened TimeFormat
  import opened Config

  datatype Node = File | Dir(entries: map<string, bool>)

  /** `next(s for s in remote_servers if backup_name(s) == name)`, as an index. */
  function FirstServerNamed(servers: seq<ServerSpec>, name: string): (r: Option<nat>)
    ensures r.Some? ==> r.value < |servers| && BackupName(servers[r.value]) == name
    ensures r.Some? ==> forall j :: 0 <= j < r.value ==> BackupName(servers[j]) != name
    ensures r.None? ==> forall j :: 0 <= j < |servers| ==> BackupName(servers[j]) != name
  {
    if servers == [] then None
    else if BackupName(servers[0]) == name then Some(0)
    else match FirstServerNamed(servers[1..], name)
      case None => None
      case Some(i) => Some(i + 1)
  }

  /** The naming format the sweep uses for a server directory: its first server's, else `date_time`. */
  function DirectoryFormat(servers: seq<ServerSpec>, name: string): (format: string)
    ensures FirstServerNamed(servers, name).None? ==> format == "date_time"
    ensures FirstServerNamed(servers, name).Some? ==>
              format == NameFormat(servers[FirstServerNamed(servers, name).value])
  {
    match FirstServerNamed(servers, name)
    case Some(i) => NameFormat(servers[i])
    case None => "date_time"
  }

  const MAX_TIMEDELTA_DAYS: int := 999999999

  /**
    `datetime.now() - timedelta(days=max_days)` as a microsecond count, or `None` where
    Python raises `OverflowError`: more than 999999999 days, or a result outside the
    datetime range.
  */
  function CutoffMicros(now: Instant, maxDays: int): (r: Option<int>)
    ensures r.None? <==> || maxDays < -MAX_TIMEDELTA_DAYS || maxDays > MAX_TIMEDELTA_DAYS
                         || Micros(now) - maxDays * DAY_MICROS < Micros(MIN_DATETIME)
                         || Micros(now) - maxDays * DAY_MICROS > Micros(MAX_DATETIME)
    ensures r.Some? ==> r.value == Micros(now) - maxDays * DAY_MICROS
    ensures r.Some? ==> Micros(MIN_DATETIME) <= r.value <= Micros(MAX_DATETIME)
    ensures r.Some? && maxDays >= 0 ==> r.value <= Micros(now)
    ensures r.Some? && maxDays > 0 ==> r.value < Micros(now)
  {
    if maxDays < -MAX_TIMEDELTA_DAYS || maxDays > MAX_TIMEDELTA_DAYS then None
    else
      var cutoff := Micros(now) - maxDays * DAY_MICROS;
      if Micros(MIN_DATETIME) <= cutoff <= Micros(MAX_DATETIME) then Some(cutoff) else None
  }

  /** A backup name whose date parses and lies strictly before the cutoff. */
  predicate Expired(name: string, cutoff: int) {
    match ParseBackupName(name)
    case Some(t) => Micros(t) < cutoff
    case None => false
  }

  /**
    The cutoff is a datetime, `cutoff_date`, exactly `max_days` days before now, and a name
    is expired exactly when its parsed date is before `cutoff_date` by Python's comparison.
  */
  lemma ExpiredMeansBefore(name: string, now: Instant, maxDays: int)
    requires CutoffMicros(now, maxDays).Some?
    ensures var cutoffDate := InstantAt(CutoffMicros(now, maxDays).value);
            && Micros(cutoffDate) == Micros(now) - maxDays * DAY_MICROS
            && (Expired(name, Micros(cutoffDate)) <==>
                  ParseBackupName(name).Some? && Before(ParseBackupName(name).value, cutoffDate))
  {
    var cutoffDate := InstantAt(CutoffMicros(now, maxDays).value);
    if ParseBackupName(name).Some? {
      OrderAgreesWithMicros(ParseBackupName(name).value, cutoffDate);
    }
  }

  /** One server directory after the sweep: expired subdirectories gone, everything else kept. */
  function SweptEntries(entries: map<string, bool>, cutoff: int): (r: map<string, bool>)
    ensures r.Keys <= entries.Keys
    ensures forall b :: b in r ==> r[b] == entries[b]
    ensures forall b :: b in entries ==> (b !in r <==> entries[b] && Expired(b, cutoff))
  {
    map b | b in entries && !(entries[b] && Expired(b, cutoff)) :: entries[b]
  }

  /** The sweep of one server directory applies unless it is a file or its format is `static`. */
  predicate Swept(tree: map<string, Node>, servers: seq<ServerSpec>, d: string)
    requires d in tree
  {
    tree[d].Dir? && DirectoryFormat(servers, d) != "static"
  }

  /** The whole target directory after the sweep. */
  function SweptTree(tree: map<string, Node>, servers: seq<ServerSpec>, cutoff: int)
    : (r: map<string, Node>)
    ensures r.Keys == tree.Keys
    ensures forall d :: d in tree && !Swept(tree, servers, d) ==> r[d] == tree[d]
    ensures forall d :: d in tree && Swept(tree, servers, d) ==>
              r[d] == Dir(SweptEntries(tree[d].entries, cutoff))
  {
    map d | d in tree ::
      if Swept(tree, servers, d) then Dir(SweptEntries(tree[d].entries, cutoff)) else tree[d]
  }

  datatype CleanupStatus = Cleaned | CutoffOverflow

  /** The directory `sync_target_base`, changed in place by `shutil.rmtree`. */
  class BackupStore {
    var tree: map<string, Node>

    constructor (tree: map<string, Node>)
      ensures this.tree == tree
    {
      this.tree := tree;
    }

    /** `shutil.rmtree(<target>/<serverDir>/<backup>)`. */
    method RemoveTree(serverDir: string, backup: string)
      requires serverDir in tree && tree[serverDir].Dir?
      modifies this
      ensures tree == old(tree)[serverDir := Dir(old(tree)[serverDir].entries - {backup})]
    {
      tree := tree[serverDir := Dir(tree[serverDir].entries - {backup})];
    }

    /** One entry of a server directory: `rmtree` it when it is a directory whose name dates before the cutoff. */
    method SweepEntry(serverDir: string, backup: string, isDir: bool, cutoff: int)
      requires serverDir in tree && tree[serverDir].Dir?
      modifies this
      ensures var entries := old(tree)[serverDir].entries;
              tree == old(tree)[serverDir := Dir(if isDir && Expired(backup, cutoff)
                                                 then entries - {backup} else entries)]
    {
      if isDir {
        var dirDate := ParseDirDate(backup);
        if dirDate.Some? && Micros(dirDate.value) < cutoff {
          RemoveTree(serverDir, backup);
        }
      }
    }

    /** The inner loop over one server directory's listing. */
    method SweepServerDirectory(serverDir: string, cutoff: int)
      requires serverDir in tree && tree[serverDir].Dir?
      modifies this
      ensures tree == old(tree)[serverDir := Dir(SweptEntries(old(tree)[serverDir].entries, cutoff))]
    {
      var entries := tree[serverDir].entries;
      ghost var kept := entries;
      var pending := entries.Keys;
      while pending != {}
        invariant pending <= entries.Keys
        invariant tree == old(tree)[serverDir := Dir(kept)]
        invariant kept.Keys <= entries.Keys
        invariant forall b :: b in kept ==> kept[b] == entries[b]
        invariant forall b :: b in entries ==>
                    (b !in kept <==> b !in pending && entries[b] && Expired(b, cutoff))
        decreases pending
      {
        var backup :| backup in pending;
        pending := pending - {backup};
        SweepEntry(serverDir, backup, entries[backup], cutoff);
        if entries[backup] && Expired(backup, cutoff) {
          kept := kept - {backup};
        }
      }
      assert kept == SweptEntries(entries, cutoff);
    }

    /**
      `clean_old_backups()` with `datetime.now()` read as `now`. Whatever order the
      listings come in, the result is `SweptTree` of the old tree; when the cutoff
      overflows nothing is removed.
    */
    method CleanOldBackups(servers: seq<ServerSpec>, maxDays: int, now: Instant)
      returns (status: CleanupStatus)
      modifies this
      ensures status == CutoffOverflow <==> CutoffMicros(now, maxDays).None?
      ensures status == CutoffOverflow ==> tree == old(tree)
      ensures status == Cleaned ==>
                tree == SweptTree(old(tree), servers, CutoffMicros(now, maxDays).value)
    {
      var cutoffDate := CutoffMicros(now, maxDays);
      if cutoffDate.None? {
        return CutoffOverflow;
      }
      var cutoff := cutoffDate.value;
      var pending := tree.Keys;
      while pending != {}
        invariant pending <= old(tree).Keys
        invariant tree.Keys == old(tree).Keys
        invariant forall d :: d in pending ==> tree[d] == old(tree)[d]
        invariant forall d :: d in old(tree) && d !in pending ==>
                    tree[d] == SweptTree(old(tree), servers, cutoff)[d]
        decreases pending
      {
        var serverDir :| serverDir in pending;
        pending := pending - {serverDir};
        if tree[serverDir].Dir? {
          var format := DirectoryFormat(servers, serverDir);
          if format != "static" {
            SweepServerDirectory(serverDir, cutoff);
          }
        }
      }
      assert tree == SweptTree(old(tree), servers, cutoff);
      status := Cleaned;
    }
  }
}
