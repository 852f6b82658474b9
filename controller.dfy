/**
  * The decision logic of frontend/controller.py: which error an operation on
  * a filesystem or a program raises, which command it builds for the slave,
  * and which `command_uuid` fields it stores. Sending the command over the
  * websocket group, logging and `notify` are left out; the fresh uuids the
  * `Command` constructor draws are parameters.
  */
module Controller {
  import opened Wrappers
  import opened Text
  import opened Paths
  import opened Models
  import Shlex

  /** `FILE_BACKUP_ENDING` of frontend/models.py. */
  const FileBackupEnding: string := "_BACK"

  datatype ControllerError =
    | SlaveOfflineError(name: string, kind: string, action: string)
    | FilesystemMovedError(name: string)
    | FilesystemNotMovedError(name: string)
    | FilesystemDeleteError(name: string)
    | ProgramRunningError(name: string)
    | ProgramNotRunningError(name: string)
      // `fs_move` reads `lookup_file` unbound when the destination type is neither 'file' nor 'dir'
    | LookupUnbound
      // `query.get()` finds more than one conflicting filesystem
    | MultipleObjectsReturned
      // `prog.programstatus` without a status row
    | StatusDoesNotExist
      // `split(prog.arguments)` raises ValueError
    | ArgumentsError(error: Shlex.ShlexError)

  /** The commands sent to a slave, by their `method`. */
  datatype Command =
    | FilesystemMove(uuid: string, sourcePath: string, sourceType: string,
                     destinationPath: string, destinationType: string, backupEnding: string)
    | FilesystemRestore(uuid: string, sourcePath: string, sourceType: string,
                        destinationPath: string, destinationType: string, backupEnding: string,
                        hashValue: string)
    | ChainExecution(uuid: string, commands: seq<Command>)
      // `execute` of a program: `pid`, the shared uuid and the argument string split into its tokens
    | Execute(uuid: string, pid: int, ownUuid: string, path: string, arguments: seq<string>)
      // the stop request: an `execute` command that carries only the running program's uuid
    | ExecuteAgain(uuid: string)
    | LogCommand(action: LogAction, targetUuid: string)

  datatype LogAction = GetLog | EnableLogging | DisableLogging

  /** The `filesystem_move` command for a filesystem. */
  function MoveOf(uuid: string, fs: Filesystem): Command
    reads fs
  {
    FilesystemMove(uuid, fs.sourcePath, fs.sourceType, fs.destinationPath, fs.destinationType, FileBackupEnding)
  }

  /** The `filesystem_restore` command for a filesystem: its paths, types and stored hash. */
  function RestoreOf(uuid: string, fs: Filesystem): Command
    reads fs
  {
    FilesystemRestore(uuid, fs.sourcePath, fs.sourceType, fs.destinationPath, fs.destinationType,
                      FileBackupEnding, fs.hashValue)
  }

  /* ---------------- fs_move: lookup and conflict ---------------- */

  /** Where a move would put its file (`file`) and into which directory (`dir`), and the moved file's name. */
  datatype Lookup = Lookup(file: string, dir: string, fileName: string)

  /** `lookup_file`, `lookup_dir`, `lookup_file_name`; None when the type is neither 'file' nor 'dir'. */
  function LookupTargets(destinationType: string, sourcePath: string, destinationPath: string): (l: Option<Lookup>)
    ensures l.Some? <==> destinationType == "file" || destinationType == "dir"
  {
    if destinationType == "file" then
      Some(Lookup(destinationPath, SplitHead(destinationPath), Basename(sourcePath)))
    else if destinationType == "dir" then
      var name := Basename(sourcePath);
      Some(Lookup(PathJoin(destinationPath, name), destinationPath, name))
    else None
  }

  /** The file a filesystem occupies once moved: the destination itself, or the source's name inside it. */
  function TargetFile(destinationType: string, sourcePath: string, destinationPath: string): string {
    if destinationType == "dir" then PathJoin(destinationPath, Basename(sourcePath)) else destinationPath
  }

  /** Both lookup targets name the file the move creates: the directory joined with the name is the file. */
  lemma LookupTargetsMeaning(destinationType: string, sourcePath: string, destinationPath: string)
    requires destinationType == "file" || destinationType == "dir"
    requires var i := LastSlash(destinationPath);
      destinationType == "file" && i >= 1 ==> destinationPath[i - 1] != '/'
    ensures var l := LookupTargets(destinationType, sourcePath, destinationPath).value;
      && l.file == TargetFile(destinationType, sourcePath, destinationPath)
      && l.fileName == Basename(sourcePath)
      && (destinationType == "dir" ==> PathJoin(l.dir, l.fileName) == l.file)
      && (destinationType == "file" ==> PathJoin(l.dir, Basename(destinationPath)) == l.file)
  {
    if destinationType == "file" {
      SplitHeadJoin(destinationPath);
    }
  }

  /** The `query` filter: another moved filesystem that already placed a file at the lookup target. */
  predicate IsConflict(fsId: int, l: Lookup, f: Filesystem)
    reads f
  {
    && f.hashValue != ""
    && f.id != fsId
    && ((f.destinationPath == l.file && f.destinationType == "file")
        || (f.destinationPath == l.dir && f.destinationType == "dir"
            && (EndsWith(f.sourcePath, "/" + l.fileName) || EndsWith(f.sourcePath, "\\" + l.fileName))))
  }

  /** The rows of the filesystem table the query returns, in table order. */
  function Conflicts(fsId: int, l: Lookup, table: seq<Filesystem>): (q: seq<Filesystem>)
    reads table
    ensures forall f | f in q :: f in table && IsConflict(fsId, l, f)
    ensures forall k | 0 <= k < |table| :: IsConflict(fsId, l, table[k]) ==> table[k] in q
  {
    if table == [] then []
    else (if IsConflict(fsId, l, table[0]) then [table[0]] else []) + Conflicts(fsId, l, table[1..])
  }

  /** A source path ending in `/` + name has that name as its basename. */
  lemma BasenameOfSuffix(p: string, name: string)
    requires forall k | 0 <= k < |name| :: name[k] != '/'
    requires EndsWith(p, "/" + name)
    ensures Basename(p) == name
  {
    var i := |p| - |name| - 1;
    assert p[i] == '/';
    assert LastSlash(p) == i;
  }

  /**
    * A conflict occupies the very file the move would create: both
    * filesystems have the same target file. For a 'dir' conflict this holds
    * when the move is itself into a directory and the match is through `/`.
    */
  lemma ConflictSharesTarget(fsId: int, destinationType: string, sourcePath: string, destinationPath: string, f: Filesystem)
    requires destinationType == "file" || destinationType == "dir"
    requires IsConflict(fsId, LookupTargets(destinationType, sourcePath, destinationPath).value, f)
    requires f.destinationType == "dir" ==> destinationType == "dir" && EndsWith(f.sourcePath, "/" + Basename(sourcePath))
    ensures TargetFile(f.destinationType, f.sourcePath, f.destinationPath)
         == TargetFile(destinationType, sourcePath, destinationPath)
  {
    var l := LookupTargets(destinationType, sourcePath, destinationPath).value;
    if f.destinationType == "dir" {
      BasenameOfSuffix(f.sourcePath, l.fileName);
      assert TargetFile(f.destinationType, f.sourcePath, f.destinationPath) == PathJoin(l.dir, l.fileName);
    } else {
      assert f.destinationPath == l.file;
    }
  }

  /**
    * For a 'file' move the 'dir' rows are matched by the name of the moved
    * source, not by the name of the destination: a directory filesystem that
    * placed a file at exactly the destination is not a conflict.
    */
  lemma FileMoveMatchesSourceName(f: Filesystem)
    requires f.id != 0 && f.hashValue != ""
    requires f.destinationType == "dir" && f.destinationPath == "/d" && f.sourcePath == "/b/y"
    ensures TargetFile(f.destinationType, f.sourcePath, f.destinationPath) == TargetFile("file", "/a/x", "/d/y")
    ensures !IsConflict(0, LookupTargets("file", "/a/x", "/d/y").value, f)
  {
    assert LastSlash("/b/y") == 2 by { assert "/b/y"[..3] == "/b/"; }
    assert LastSlash("/a/x") == 2 by { assert "/a/x"[..3] == "/a/"; }
    assert Basename("/b/y") == "y";
    assert Basename("/a/x") == "x";
    assert !EndsWith("/b/y", "/x");
    assert !EndsWith("/b/y", "\\x");
  }

  /**
    * `fs_move`: refused when the slave is offline or the filesystem is
    * moved; otherwise a lone `filesystem_move` (its uuid stored on `fs`),
    * or, when another moved filesystem occupies the target, a
    * `chain_execution` that first restores that one and then moves `fs`,
    * storing the uuid of each part on its filesystem. `table` is the
    * filesystem table the query runs on.
    */
  method FsMove(fs: Filesystem, online: bool, table: seq<Filesystem>,
                restoreUuid: string, moveUuid: string, cmdUuid: string)
    returns (r: Result<Command, ControllerError>)
    modifies fs`commandUuid, table`commandUuid
    ensures !online ==> r == Err(SlaveOfflineError(fs.name, "filesystem", "move"))
    ensures online && old(fs.IsMoved()) ==> r == Err(FilesystemMovedError(fs.name))
    ensures online && old(!fs.IsMoved() && LookupTargets(fs.destinationType, fs.sourcePath, fs.destinationPath).None?) ==>
      r == Err(LookupUnbound)
    ensures online && old(!fs.IsMoved() && LookupTargets(fs.destinationType, fs.sourcePath, fs.destinationPath).Some?) ==>
      var n := old(|Conflicts(fs.id, LookupTargets(fs.destinationType, fs.sourcePath, fs.destinationPath).value, table)|);
      (n > 1 ==> r == Err(MultipleObjectsReturned)) && (n <= 1 ==> r.Ok?)
    ensures r.Err? ==> unchanged(fs) && forall f | f in table :: unchanged(f)
    ensures r.Ok? ==>
      && online && !fs.IsMoved()
      && var l := LookupTargets(fs.destinationType, fs.sourcePath, fs.destinationPath);
      && l.Some?
      && var q := old(Conflicts(fs.id, l.value, table));
      && |q| <= 1
      && (|q| == 0 ==> r.value == MoveOf(cmdUuid, fs) && fs.commandUuid == Some(cmdUuid))
      && (|q| == 1 ==> r.value == ChainExecution(cmdUuid, [RestoreOf(restoreUuid, q[0]), MoveOf(moveUuid, fs)])
                       && q[0].commandUuid == Some(restoreUuid) && fs.commandUuid == Some(moveUuid))
      && forall f | f in table && f != fs && f !in q :: f.commandUuid == old(f.commandUuid)
  {
    if !online {
      return Err(SlaveOfflineError(fs.name, "filesystem", "move"));
    }
    if fs.IsMoved() {
      return Err(FilesystemMovedError(fs.name));
    }
    r := MoveUnmoved(fs, table, restoreUuid, moveUuid, cmdUuid);
  }

  /** The part of `fs_move` after the checks: the lookup targets, then the conflict query and the command. */
  method MoveUnmoved(fs: Filesystem, table: seq<Filesystem>, restoreUuid: string, moveUuid: string, cmdUuid: string)
    returns (r: Result<Command, ControllerError>)
    requires !fs.IsMoved()
    modifies fs`commandUuid, table`commandUuid
    ensures old(LookupTargets(fs.destinationType, fs.sourcePath, fs.destinationPath).None?) ==> r == Err(LookupUnbound)
    ensures old(LookupTargets(fs.destinationType, fs.sourcePath, fs.destinationPath).Some?) ==>
      var n := old(|Conflicts(fs.id, LookupTargets(fs.destinationType, fs.sourcePath, fs.destinationPath).value, table)|);
      (n > 1 ==> r == Err(MultipleObjectsReturned)) && (n <= 1 ==> r.Ok?)
    ensures r.Err? ==> unchanged(fs) && forall f | f in table :: unchanged(f)
    ensures r.Ok? ==>
      && !fs.IsMoved()
      && var l := LookupTargets(fs.destinationType, fs.sourcePath, fs.destinationPath);
      && l.Some?
      && var q := old(Conflicts(fs.id, l.value, table));
      && |q| <= 1
      && (|q| == 0 ==> r.value == MoveOf(cmdUuid, fs) && fs.commandUuid == Some(cmdUuid))
      && (|q| == 1 ==> r.value == ChainExecution(cmdUuid, [RestoreOf(restoreUuid, q[0]), MoveOf(moveUuid, fs)])
                       && q[0].commandUuid == Some(restoreUuid) && fs.commandUuid == Some(moveUuid))
      && forall f | f in table && f != fs && f !in q :: f.commandUuid == old(f.commandUuid)
  {
    var l := LookupTargets(fs.destinationType, fs.sourcePath, fs.destinationPath);
    if l.None? {
      return Err(LookupUnbound);
    }
    r := MoveToTarget(fs, l.value, table, restoreUuid, moveUuid, cmdUuid);
  }

  /** The conflict query on the lookup targets `l` of `fs`, and the command. */
  method MoveToTarget(fs: Filesystem, l: Lookup, table: seq<Filesystem>, restoreUuid: string, moveUuid: string, cmdUuid: string)
    returns (r: Result<Command, ControllerError>)
    requires !fs.IsMoved()
    modifies fs`commandUuid, table`commandUuid
    ensures |old(Conflicts(fs.id, l, table))| > 1 ==> r == Err(MultipleObjectsReturned)
    ensures |old(Conflicts(fs.id, l, table))| <= 1 ==> r.Ok?
    ensures r.Err? ==> unchanged(fs) && forall f | f in table :: unchanged(f)
    ensures r.Ok? ==>
      var q := old(Conflicts(fs.id, l, table));
      && (|q| == 0 ==> r.value == MoveOf(cmdUuid, fs) && fs.commandUuid == Some(cmdUuid))
      && (|q| == 1 ==> r.value == ChainExecution(cmdUuid, [RestoreOf(restoreUuid, q[0]), MoveOf(moveUuid, fs)])
                       && q[0].commandUuid == Some(restoreUuid) && fs.commandUuid == Some(moveUuid))
      && forall f | f in table && f != fs && f !in q :: f.commandUuid == old(f.commandUuid)
  {
    var q := Conflicts(fs.id, l, table);
    if |q| > 1 {
      return Err(MultipleObjectsReturned);
    }
    if |q| == 1 {
      assert q[0] in q;
      assert IsConflict(fs.id, l, q[0]);
    }
    var cmd := SendMove(fs, q, restoreUuid, moveUuid, cmdUuid);
    r := Ok(cmd);
  }

  /** The command of a move with at most one conflict, and the uuids stored on the filesystems involved. */
  method SendMove(fs: Filesystem, q: seq<Filesystem>, restoreUuid: string, moveUuid: string, cmdUuid: string)
    returns (cmd: Command)
    requires |q| <= 1 && fs !in q
    modifies fs`commandUuid, q`commandUuid
    ensures |q| == 0 ==> cmd == MoveOf(cmdUuid, fs) && fs.commandUuid == Some(cmdUuid)
    ensures |q| == 1 ==> cmd == ChainExecution(cmdUuid, [RestoreOf(restoreUuid, q[0]), MoveOf(moveUuid, fs)])
                         && q[0].commandUuid == Some(restoreUuid) && fs.commandUuid == Some(moveUuid)
  {
    if |q| == 1 {
      var replace := q[0];
      var first := RestoreOf(restoreUuid, replace);
      var second := MoveOf(moveUuid, fs);
      cmd := ChainExecution(cmdUuid, [first, second]);
      replace.commandUuid := Some(restoreUuid);
      fs.commandUuid := Some(moveUuid);
    } else {
      cmd := MoveOf(cmdUuid, fs);
      fs.commandUuid := Some(cmdUuid);
    }
  }

  /* ---------------- fs_restore, fs_delete ---------------- */

  /** `fs_restore`: offline or not moved is refused; otherwise a restore carrying the hash, its uuid stored. */
  method FsRestore(fs: Filesystem, online: bool, cmdUuid: string) returns (r: Result<Command, ControllerError>)
    modifies fs`commandUuid
    ensures !online ==> r == Err(SlaveOfflineError(fs.name, "filesystem", "restore"))
    ensures online && !fs.IsMoved() ==> r == Err(FilesystemNotMovedError(fs.name))
    ensures online && old(fs.IsMoved()) ==> r.Ok?
    ensures r.Err? ==> unchanged(fs)
    ensures r.Ok? ==> online && fs.IsMoved() && r.value == RestoreOf(cmdUuid, fs)
                      && r.value.hashValue == fs.hashValue && fs.commandUuid == Some(cmdUuid)
    ensures fs.name == old(fs.name) && fs.sourcePath == old(fs.sourcePath) && fs.sourceType == old(fs.sourceType)
      && fs.destinationPath == old(fs.destinationPath) && fs.destinationType == old(fs.destinationType)
      && fs.hashValue == old(fs.hashValue) && fs.errorCode == old(fs.errorCode) && fs.slave == old(fs.slave)
  {
    if !online {
      return Err(SlaveOfflineError(fs.name, "filesystem", "restore"));
    }
    if !fs.IsMoved() {
      return Err(FilesystemNotMovedError(fs.name));
    }
    r := Ok(RestoreOf(cmdUuid, fs));
    fs.commandUuid := Some(cmdUuid);
  }

  /** `fs_delete`: the row may be deleted (`Ok`) exactly when the filesystem is not moved. */
  function FsDelete(fs: Filesystem): (r: Result<(), ControllerError>)
    reads fs
    ensures r.Ok? <==> !fs.IsMoved()
    ensures r.Err? ==> r.error == FilesystemDeleteError(fs.name)
  {
    if !fs.IsMoved() then Ok(()) else Err(FilesystemDeleteError(fs.name))
  }

  /* ---------------- programs ---------------- */

  /** What `prog_start` does on success: the command sent, the status row created, the timeout scheduled (seconds). */
  datatype Started = Started(command: Command, status: ProgramStatus, timeout: Option<int>)

  /**
    * `prog_start`; `uuid` is the fresh `uuid4().hex`. Starting refuses an
    * offline slave first, a running program second and an argument string
    * `shlex.split` refuses third: the split happens after both checks and
    * before anything is sent, so its `ValueError` leaves nothing sent and
    * no status row created. A started program is running under the
    * command's uuid, the command carries the tokens of the argument
    * string, and a timeout is scheduled exactly when its start time is not
    * negative.
    */
  function ProgStart(prog: Program, online: bool, uuid: string): (r: Result<Started, ControllerError>)
    ensures !online ==> r == Err(SlaveOfflineError(prog.name, "program", "start"))
    ensures online && IsRunning(prog) ==> r == Err(ProgramRunningError(prog.name))
    ensures online && !IsRunning(prog) && Shlex.Split(prog.arguments).Err? ==>
      r == Err(ArgumentsError(Shlex.Split(prog.arguments).error))
    ensures r.Ok? <==> online && !IsRunning(prog) && Shlex.Split(prog.arguments).Ok?
    ensures r.Ok? ==>
      var started := prog.(status := Some(r.value.status));
      && IsRunning(started) && !IsTimeouted(started) && ProgramDataState(started) == "running"
      && r.value.command == Execute(uuid, prog.id, uuid, prog.path, Shlex.Split(prog.arguments).value)
      && r.value.status.commandUuid == r.value.command.uuid
      && (r.value.timeout.Some? <==> prog.startTime >= 0)
      && (r.value.timeout.Some? ==> r.value.timeout.value == prog.startTime)
  {
    if !online then Err(SlaveOfflineError(prog.name, "program", "start"))
    else if IsRunning(prog) then Err(ProgramRunningError(prog.name))
    else
      match Shlex.Split(prog.arguments)
      case Err(e) => Err(ArgumentsError(e))
      case Ok(args) =>
        Ok(Started(
          Execute(uuid, prog.id, uuid, prog.path, args),
          ProgramStatus("", uuid, true, false),
          if prog.startTime >= 0 then Some(prog.startTime) else None))
  }

  /**
    * A program whose argument string passed `validate_argument_list` starts
    * whenever its slave is online and it is not running; when the string is
    * quoted words joined by spaces, the slave receives exactly those words.
    */
  lemma ValidatedProgramStarts(prog: Program, online: bool, uuid: string, words: seq<string>)
    ensures ValidateArgumentList(prog.arguments).None? ==>
      (ProgStart(prog, online, uuid).Ok? <==> online && !IsRunning(prog))
    ensures prog.arguments == Join(Shlex.QuoteAll(words), ' ') && online && !IsRunning(prog) ==>
      ProgStart(prog, online, uuid).Ok? && ProgStart(prog, online, uuid).value.command.arguments == words
  {
    Shlex.SplitQuotedWords(words);
  }

  /** `prog_stop`: offline or not running is refused; otherwise the status row's uuid is sent back. */
  function ProgStop(prog: Program, online: bool): (r: Result<Command, ControllerError>)
    ensures !online ==> r == Err(SlaveOfflineError(prog.name, "program", "stop"))
    ensures online && !IsRunning(prog) ==> r == Err(ProgramNotRunningError(prog.name))
    ensures r.Ok? <==> online && IsRunning(prog)
    ensures r.Ok? ==> r.value == ExecuteAgain(prog.status.value.commandUuid)
  {
    if !online then Err(SlaveOfflineError(prog.name, "program", "stop"))
    else if !IsRunning(prog) then Err(ProgramNotRunningError(prog.name))
    else Ok(ExecuteAgain(prog.status.value.commandUuid))
  }

  /**
    * `log_get`, `log_enable`, `log_disable`: `Ok(Some(command))` where the
    * source returns True after sending, `Ok(None)` where it returns False.
    * They report success exactly when the slave is online and fail only on
    * a missing status row.
    */
  function LogRequest(prog: Program, online: bool, action: LogAction): (r: Result<Option<Command>, ControllerError>)
    ensures r.Err? <==> online && prog.status.None?
    ensures r.Ok? ==> (r.value.Some? <==> online)
    ensures online && prog.status.Some? ==> r == Ok(Some(LogCommand(action, prog.status.value.commandUuid)))
  {
    if !online then Ok(None)
    else if prog.status.None? then Err(StatusDoesNotExist)
    else Ok(Some(LogCommand(action, prog.status.value.commandUuid)))
  }
}
