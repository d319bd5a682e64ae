/**
 * The generic helpers of `solr/mc_solr/utils.py`: directory creation, lock
 * files, choosing the arguments of the archive tools, and waiting for a
 * TCP port.  Time, sleeping, the socket probe and the archive tools
 * themselves are parameters: a schedule of clock readings and of what other
 * processes do meanwhile, a probe function, and the list of files an
 * archive unpacks to.
 */
module Utils {
  import opened Wrappers
  import opened Strings
  import opened Posix
  import opened FileSystem

  // -----------------------------------------------------------------------
  // mkdir_p
  // -----------------------------------------------------------------------

  /** `mkdir_p(p)`: `os.makedirs(p)`, where EEXIST on an existing directory is not an error. */
  function MkdirPResult(s: FsState, p: Path): (r: Result<FsState, OsError>)
    ensures r.Ok? <==> s.IsDir(p) || (!s.Occupied(p) && !AncestorBlocked(s, p))
    ensures s.Occupied(p) && !s.IsDir(p) ==> r.Err?
    ensures r.Ok? ==> r.value.files == s.files && r.value.links == s.links && s.dirs <= r.value.dirs
    ensures r.Ok? ==> r.value.dirs <= s.dirs + Prefixes(p)  // only `p` and its missing ancestors are created
    ensures s.Valid() && r.Ok? ==> r.value.Valid() && r.value.IsDir(p)
  {
    match MakeDirs(s, p)
    case Ok(t) => Ok(t)
    case Err(e) => if e == AlreadyExists && s.IsDir(p) then Ok(s) else Err(e)
  }

  /** Once `mkdir_p` has succeeded, calling it again succeeds and changes nothing. */
  lemma MkdirPIdempotent(s: FsState, p: Path)
    requires s.Valid() && MkdirPResult(s, p).Ok?
    ensures MkdirPResult(MkdirPResult(s, p).value, p) == MkdirPResult(s, p)
  {
  }

  /** On an existing directory `mkdir_p` is a no-op. */
  lemma MkdirPOnDirectory(s: FsState, p: Path)
    requires s.Valid() && s.IsDir(p)
    ensures MkdirPResult(s, p) == Ok(s)
  {
  }

  method MkdirP(fs: FileSystem, p: Path) returns (r: Result<(), OsError>)
    modifies fs
    ensures r.Ok? <==> MkdirPResult(old(fs.state), p).Ok?
    ensures r.Ok? ==> fs.state == MkdirPResult(old(fs.state), p).value
    ensures r.Err? ==> fs.state == old(fs.state) && r.error == MkdirPResult(old(fs.state), p).error
  {
    r := fs.MakeDirs(p);
    if r.Err? && r.error == AlreadyExists && fs.state.IsDir(p) {
      r := Ok(());
    }
  }

  // -----------------------------------------------------------------------
  // lock_file / unlock_file
  // -----------------------------------------------------------------------

  /**
   * One pass of `lock_file`'s retry loop after the exclusive create has
   * failed with EEXIST: the seconds elapsed since the call began, as
   * `time.time() - start_time` reads them, and what other processes do
   * during the one-second sleep that follows when the timeout has not
   * been reached.
   */
  datatype Wait = Wait(elapsed: real, others: Interference)

  datatype LockOutcome =
    | Locked                        // the lock file was created by this call
    | TimedOut                      // "Unable to create lock file ... in %d seconds."
    | CreateFailed(error: OsError)  // an error other than EEXIST, re-raised at once
    | StillWaiting                  // the schedule ran out while the path was still taken

  /**
   * `lock_file(p, timeout)` against a schedule of waits: the state it leaves
   * and how it ends.
   */
  function LockRun(s: FsState, p: Path, timeout: Option<real>, schedule: seq<Wait>): (r: (FsState, LockOutcome))
    ensures s.Valid() ==> r.0.Valid()
    ensures r.1 == Locked ==> p in r.0.files && r.0.files[p] == ""
    decreases |schedule|
  {
    match CreateExclusive(s, p)
    case Ok(t) => (t, Locked)
    case Err(e) =>
      if e != AlreadyExists then (s, CreateFailed(e))
      else if schedule == [] then (s, StillWaiting)
      else if timeout.Some? && schedule[0].elapsed >= timeout.value then (s, TimedOut)
      else LockRun(Interfere(s, schedule[0].others), p, timeout, schedule[1..])
  }

  /** With `timeout=None` a lock held by someone else never raises: the call only keeps retrying. */
  lemma {:induction false} LockWithoutTimeoutNeverTimesOut(s: FsState, p: Path, schedule: seq<Wait>)
    ensures LockRun(s, p, None, schedule).1 != TimedOut
    decreases |schedule|
  {
    match CreateExclusive(s, p)
    case Ok(_) =>
    case Err(e) =>
      if e == AlreadyExists && schedule != [] {
        LockWithoutTimeoutNeverTimesOut(Interfere(s, schedule[0].others), p, schedule[1..]);
      }
  }

  /** A call raises the timeout only after a clock reading at or past the timeout. */
  lemma {:induction false} LockTimesOutOnlyAtDeadline(s: FsState, p: Path, timeout: Option<real>, schedule: seq<Wait>)
    requires LockRun(s, p, timeout, schedule).1 == TimedOut
    ensures timeout.Some? && exists i | 0 <= i < |schedule| :: schedule[i].elapsed >= timeout.value
    decreases |schedule|
  {
    match CreateExclusive(s, p)
    case Ok(_) =>
    case Err(e) =>
      if !(timeout.Some? && schedule[0].elapsed >= timeout.value) {
        LockTimesOutOnlyAtDeadline(Interfere(s, schedule[0].others), p, timeout, schedule[1..]);
        var i :| 0 <= i < |schedule[1..]| && schedule[1..][i].elapsed >= timeout.value;
        assert schedule[i + 1].elapsed >= timeout.value;
      }
  }

  /**
   * A lock that nobody releases makes `lock_file` with a timeout raise as
   * soon as the clock reaches the timeout.
   */
  lemma {:induction false} LockTimesOutWhenNeverReleased(s: FsState, p: Path, t: real, schedule: seq<Wait>)
    requires s.Occupied(p)
    requires forall i | 0 <= i < |schedule| :: p !in schedule[i].others.removed
    requires exists i | 0 <= i < |schedule| :: schedule[i].elapsed >= t
    ensures LockRun(s, p, Some(t), schedule).1 == TimedOut
    decreases |schedule|
  {
    if schedule[0].elapsed < t {
      var i :| 0 <= i < |schedule| && schedule[i].elapsed >= t;
      assert schedule[1..][i - 1].elapsed >= t;
      LockTimesOutWhenNeverReleased(Interfere(s, schedule[0].others), p, t, schedule[1..]);
    }
  }

  /**
   * `lock_file` creates the lock only when the path is free at that moment:
   * free on entry, or released by another process while this one waited.
   */
  lemma {:induction false} LockedOnlyWhenFree(s: FsState, p: Path, timeout: Option<real>, schedule: seq<Wait>)
    requires LockRun(s, p, timeout, schedule).1 == Locked
    ensures !s.Occupied(p) || exists i | 0 <= i < |schedule| :: p in schedule[i].others.removed
    decreases |schedule|
  {
    if s.Occupied(p) {
      var s' := Interfere(s, schedule[0].others);
      if p !in schedule[0].others.removed {
        assert s'.Occupied(p);
        LockedOnlyWhenFree(s', p, timeout, schedule[1..]);
        var i :| 0 <= i < |schedule[1..]| && p in schedule[1..][i].others.removed;
        assert p in schedule[i + 1].others.removed;
      }
    }
  }

  /**
   * Errors other than EEXIST end the call on the first attempt: they are
   * raised exactly when the path is free but its directory is missing.
   */
  lemma {:induction false} LockCreateFailsOnlyAtFirstAttempt(s: FsState, p: Path, timeout: Option<real>, schedule: seq<Wait>)
    requires s.Valid()
    ensures LockRun(s, p, timeout, schedule).1.CreateFailed? <==> !s.Occupied(p) && !s.ParentIsDir(p)
    ensures LockRun(s, p, timeout, schedule).1.CreateFailed? ==> LockRun(s, p, timeout, schedule).0 == s
    decreases |schedule|
  {
    if s.Occupied(p) && schedule != [] && !(timeout.Some? && schedule[0].elapsed >= timeout.value) {
      var s' := Interfere(s, schedule[0].others);
      assert s'.Occupied(p) || s'.ParentIsDir(p);
      LockCreateFailsOnlyAtFirstAttempt(s', p, timeout, schedule[1..]);
    }
  }

  method LockFile(fs: FileSystem, p: Path, timeout: Option<real>, schedule: seq<Wait>) returns (outcome: LockOutcome)
    modifies fs
    ensures (fs.state, outcome) == LockRun(old(fs.state), p, timeout, schedule)
  {
    var i := 0;
    while true
      invariant 0 <= i <= |schedule|
      invariant LockRun(fs.state, p, timeout, schedule[i..]) == LockRun(old(fs.state), p, timeout, schedule)
      decreases |schedule| - i
    {
      var created := fs.CreateExclusive(p);
      if created.Ok? {
        return Locked;
      }
      if created.error != AlreadyExists {
        return CreateFailed(created.error);
      }
      if i == |schedule| {
        return StillWaiting;
      }
      if timeout.Some? && schedule[i].elapsed >= timeout.value {
        return TimedOut;
      }
      // time.sleep(1): other processes act meanwhile
      assert schedule[i..][1..] == schedule[i + 1..];
      fs.Interfere(schedule[i].others);
      i := i + 1;
    }
  }

  /** `unlock_file(p)`: `None` when it raises because `p` is not a file; otherwise the state after `os.unlink`. */
  function UnlockResult(s: FsState, p: Path): (r: Option<FsState>)
    ensures r.Some? <==> s.IsFile(p)
    ensures r.Some? ==> r.value.dirs == s.dirs
    ensures r.Some? ==> forall q | q != p :: (q in r.value.files <==> q in s.files) && (q in r.value.links <==> q in s.links)
    ensures s.Valid() && r.Some? ==> r.value.Valid() && !r.value.Occupied(p)
    ensures s.Valid() && r.Some? ==> r.value == FsState(s.files - {p}, s.dirs, s.links - {p})  // nothing else changes
  {
    if !s.IsFile(p) then None else Some(Unlink(s, p).value)
  }

  /** Taking a free lock and then releasing it restores the filesystem exactly. */
  lemma LockThenUnlockRestores(s: FsState, p: Path, timeout: Option<real>, schedule: seq<Wait>)
    requires s.Valid() && !s.Occupied(p) && s.ParentIsDir(p)
    ensures LockRun(s, p, timeout, schedule).1 == Locked
    ensures UnlockResult(LockRun(s, p, timeout, schedule).0, p) == Some(s)
  {
    assert s.files[p := ""] - {p} == s.files;
  }

  method UnlockFile(fs: FileSystem, p: Path) returns (ok: bool)
    modifies fs
    ensures ok <==> UnlockResult(old(fs.state), p).Some?
    ensures ok ==> fs.state == UnlockResult(old(fs.state), p).value
    ensures !ok ==> fs.state == old(fs.state)
  {
    if !fs.state.IsFile(p) {
      return false;
    }
    var r := fs.Unlink(p);
    ok := true;
  }

  // -----------------------------------------------------------------------
  // Archive extraction: the file extension and the tool's arguments
  // -----------------------------------------------------------------------

  function BaseName(p: Path): string {
    if p == [] then "" else p[|p| - 1]
  }

  /** How a path is written on a command line. */
  function Render(p: Path): string {
    if p == [] then "" else Render(Parent(p)) + "/" + p[|p| - 1]
  }

  /** Python's `s.rfind(c)`: the last index of `c` in `s`, or -1. */
  function RFind(s: string, c: char): (r: int)
    ensures -1 <= r < |s|
    ensures r >= 0 ==> s[r] == c && forall j | r < j < |s| :: s[j] != c
    ensures r == -1 ==> forall j | 0 <= j < |s| :: s[j] != c
    decreases |s|
  {
    if s == [] then -1 else if s[|s| - 1] == c then |s| - 1 else RFind(s[..|s| - 1], c)
  }

  /**
   * `os.path.splitext(name)[1]`: from the last dot to the end, provided some
   * character other than a dot comes before that dot; otherwise empty.
   */
  function SplitExt(name: string): (e: string)
    ensures |e| <= |name|
    ensures e != [] ==> e[0] == '.' && (forall j | 1 <= j < |e| :: e[j] != '.') && e == name[|name| - |e|..]
  {
    var dot := RFind(name, '.');
    if dot >= 0 && exists j | 0 <= j < dot :: name[j] != '.' then name[dot..] else ""
  }

  /** A name has an extension exactly when some dot in it comes after a character other than a dot. */
  lemma SplitExtNonEmpty(name: string)
    ensures SplitExt(name) != [] <==> exists i, k | 0 <= i < k < |name| :: name[i] != '.' && name[k] == '.'
  {
    var dot := RFind(name, '.');
    if SplitExt(name) != [] {
      var j :| 0 <= j < dot && name[j] != '.';
      assert name[j] != '.' && name[dot] == '.';
    }
  }

  /** `__file_extension(filename)`: the lower-cased last suffix of the base name, e.g. ".tgz". */
  function FileExtension(archive: Path): (ext: string)
    ensures ext == [] || (ext[0] == '.' && forall j | 1 <= j < |ext| :: ext[j] != '.')
    ensures |ext| <= |BaseName(archive)|
    ensures ext == Lower(BaseName(archive))[|BaseName(archive)| - |ext|..]
    ensures ext != [] <==> exists i, k | 0 <= i < k < |BaseName(archive)| ::
                             BaseName(archive)[i] != '.' && BaseName(archive)[k] == '.'
    ensures ext != ".tar.gz"  // only the last suffix is taken
  {
    var name := BaseName(archive);
    var e := SplitExt(name);
    LowerKeepsDots(e);
    SplitExtNonEmpty(name);
    assert Lower(e) == Lower(name)[|name| - |e|..];
    assert |Lower(e)| > 4 ==> Lower(e)[4] != '.';
    Lower(e)
  }

  function StripArgs(stripRoot: bool): seq<string> {
    if stripRoot then ["--strip", "1"] else []
  }

  /**
   * The argument list `extract_tarball_to_directory` passes to `tar`, AS
   * WRITTEN, or the rejected extension.  Its `.tar.gz` alternative never
   * applies, so a `.tar.gz` archive is rejected.
   */
  function TarArgs(archive: Path, dest: Path, stripRoot: bool): (r: Result<seq<string>, string>)
    ensures r.Ok? <==> FileExtension(archive) == ".tgz" || FileExtension(archive) == ".tar"
    ensures r.Err? ==> r.error == FileExtension(archive)
    ensures r.Ok? ==> r.value == ["tar", if FileExtension(archive) == ".tgz" then "-zxf" else "-xf",
                                  Render(archive), "-C", Render(dest)] + StripArgs(stripRoot)
  {
    var ext := FileExtension(archive);
    if ext in [".tar.gz", ".tgz"] then Ok(["tar", "-zxf", Render(archive), "-C", Render(dest)] + StripArgs(stripRoot))
    else if ext in [".tar"] then Ok(["tar", "-xf", Render(archive), "-C", Render(dest)] + StripArgs(stripRoot))
    else Err(ext)
  }

  /** A `.tar.gz` archive, which the docstring promises to extract, is rejected. */
  lemma TarGzArchiveRejected()
    ensures TarArgs(["tmp", "solr-4.6.0.tar.gz"], ["dist"], true) == Err(".gz")
  {
    var name := "solr-4.6.0.tar.gz";
    assert name[..16][..15] == name[..15] && name[..15][14] == '.';
    assert RFind(name[..16], '.') == 14;
    assert RFind(name, '.') == 14;
    assert name[0] != '.';
    assert SplitExt(name) == name[14..] == ".gz";
    assert FileExtension(["tmp", name]) == ".gz";
  }

  predicate EndsWith(s: string, suffix: string) {
    |suffix| <= |s| && s[|s| - |suffix|..] == suffix
  }

  /**
   * The argument list `extract_tarball_to_directory` evidently means to
   * pass: a name ending in ".tar.gz" is a gzip-compressed tarball like ".tgz".
   */
  function TarArgsIntended(archive: Path, dest: Path, stripRoot: bool): (r: Result<seq<string>, string>)
    ensures r.Ok? ==> |r.value| >= 5 && r.value[..1] == ["tar"] && r.value[2..5] == [Render(archive), "-C", Render(dest)]
    ensures r.Err? ==> r.error == FileExtension(archive)
  {
    var gzipped := EndsWith(Lower(BaseName(archive)), ".tar.gz") || FileExtension(archive) == ".tgz";
    if gzipped then Ok(["tar", "-zxf", Render(archive), "-C", Render(dest)] + StripArgs(stripRoot))
    else if FileExtension(archive) == ".tar" then Ok(["tar", "-xf", Render(archive), "-C", Render(dest)] + StripArgs(stripRoot))
    else Err(FileExtension(archive))
  }

  /** The corrected choice accepts exactly ".tgz", ".tar" and ".tar.gz" archives, with `-zxf` for the compressed ones. */
  lemma TarArgsIntendedAccepts(archive: Path, dest: Path, stripRoot: bool)
    ensures var name := Lower(BaseName(archive));
            var ext := FileExtension(archive);
            && (TarArgsIntended(archive, dest, stripRoot).Ok? <==> EndsWith(name, ".tar.gz") || ext == ".tgz" || ext == ".tar")
            && (EndsWith(name, ".tar.gz") || ext == ".tgz" ==> TarArgsIntended(archive, dest, stripRoot).value[1] == "-zxf")
  {
  }

  /** Apart from ".tar.gz" names, the corrected choice is the one the code makes. */
  lemma TarArgsIntendedAgrees(archive: Path, dest: Path, stripRoot: bool)
    requires !EndsWith(Lower(BaseName(archive)), ".tar.gz")
    ensures TarArgsIntended(archive, dest, stripRoot) == TarArgs(archive, dest, stripRoot)
  {
  }

  /** The argument list `extract_zip_to_directory` passes to `unzip`, or the rejected extension. */
  function ZipArgs(archive: Path, dest: Path): (r: Result<seq<string>, string>)
    ensures r.Ok? <==> FileExtension(archive) in {".zip", ".war"}
    ensures r.Ok? ==> r.value == ["unzip", "-q", Render(archive), "-d", Render(dest)]
    ensures r.Err? ==> r.error == FileExtension(archive)
  {
    var ext := FileExtension(archive);
    if ext !in [".zip", ".war"] then Err(ext) else Ok(["unzip", "-q", Render(archive), "-d", Render(dest)])
  }

  /**
   * What a successful `tar` or `unzip` run does to the destination: each
   * member (a path relative to the destination, already stripped of its
   * root when asked) gets its directories and becomes a regular file.  A
   * member the tree cannot take makes the tool fail.  File contents are not
   * tracked.
   */
  function Unpack(s: FsState, dest: Path, members: seq<Path>): (r: Result<FsState, OsError>)
    ensures r.Ok? ==> r.value.links == s.links && s.dirs <= r.value.dirs && s.files.Keys <= r.value.files.Keys
    ensures s.Valid() && r.Ok? ==> r.value.Valid()
    ensures s.Valid() && r.Ok? ==> forall m | m in members :: r.value.IsFile(dest + m)
    decreases |members|
  {
    if members == [] then Ok(s)
    else
      var m := members[0];
      if m == [] then Err(IsADirectory)
      else match MkdirPResult(s, dest + Parent(m))
        case Err(e) => Err(e)
        case Ok(s1) =>
          assert dest + m != [] && Parent(dest + m) == dest + Parent(m);
          match WriteFile(s1, dest + m, "")
          case Err(e) => Err(e)
          case Ok(s2) => Unpack(s2, dest, members[1..])
  }

  datatype ExtractError =
    | UnsupportedArchive(extension: string)  // raised before the tool runs
    | CommandFailed                          // the tool exited non-zero

  /**
   * Running the tool with `args`, when it was not rejected: `members` is
   * `None` when the tool fails on its own (a corrupt archive, say).
   */
  function ExtractResult(s: FsState, args: Result<seq<string>, string>, dest: Path, members: Option<seq<Path>>)
    : (r: Result<FsState, ExtractError>)
    ensures args.Err? ==> r == Err(UnsupportedArchive(args.error))
    ensures r.Ok? ==> args.Ok? && members.Some? && Unpack(s, dest, members.value) == Ok(r.value)
  {
    if args.Err? then Err(UnsupportedArchive(args.error))
    else if members.None? then Err(CommandFailed)
    else match Unpack(s, dest, members.value)
      case Err(_) => Err(CommandFailed)
      case Ok(t) => Ok(t)
  }

  /**
   * `extract_tarball_to_directory(archive, dest, strip_root)`, with the
   * ".tar.gz" names accepted as the docstring says.  Returns the command run.
   */
  method ExtractTarball(fs: FileSystem, archive: Path, dest: Path, stripRoot: bool, members: Option<seq<Path>>)
    returns (r: Result<seq<string>, ExtractError>)
    modifies fs
    ensures var e := ExtractResult(old(fs.state), TarArgsIntended(archive, dest, stripRoot), dest, members);
            && (r.Ok? <==> e.Ok?)
            && (r.Ok? ==> fs.state == e.value && r.value == TarArgsIntended(archive, dest, stripRoot).value)
            && (r.Err? ==> fs.state == old(fs.state) && r.error == e.error)
  {
    var args := TarArgsIntended(archive, dest, stripRoot);
    var e := ExtractResult(fs.state, args, dest, members);
    if e.Err? {
      return Err(e.error);
    }
    fs.state := e.value;
    r := Ok(args.value);
  }

  /** `extract_zip_to_directory(archive, dest)`.  Returns the command run. */
  method ExtractZip(fs: FileSystem, archive: Path, dest: Path, members: Option<seq<Path>>)
    returns (r: Result<seq<string>, ExtractError>)
    modifies fs
    ensures var e := ExtractResult(old(fs.state), ZipArgs(archive, dest), dest, members);
            && (r.Ok? <==> e.Ok?)
            && (r.Ok? ==> fs.state == e.value && r.value == ZipArgs(archive, dest).value)
            && (r.Err? ==> fs.state == old(fs.state) && r.error == e.error)
  {
    var args := ZipArgs(archive, dest);
    var e := ExtractResult(fs.state, args, dest, members);
    if e.Err? {
      return Err(e.error);
    }
    fs.state := e.value;
    r := Ok(args.value);
  }

  // -----------------------------------------------------------------------
  // wait_for_tcp_port_to_open
  // -----------------------------------------------------------------------

  /**
   * `wait_for_tcp_port_to_open(port, hostname, retries, delay)`:
   * `portOpenAt(i)` is what `tcp_port_is_open` answers on attempt `i`.
   * `attempts` counts the probes made.
   */
  method WaitForTcpPortToOpen(retries: int, portOpenAt: nat -> bool) returns (open: bool, ghost attempts: nat)
    ensures open <==> exists i | 0 <= i < retries :: portOpenAt(i)
    ensures open ==> 1 <= attempts <= retries && portOpenAt(attempts - 1)
    ensures !open ==> attempts == (if retries < 0 then 0 else retries)
    ensures forall i | 0 <= i < attempts - 1 :: !portOpenAt(i)
  {
    open := false;
    attempts := 0;
    var retry := 0;
    while retry < retries
      invariant 0 <= retry <= (if retries < 0 then 0 else retries)
      invariant attempts == retry && !open
      invariant forall i | 0 <= i < retry :: !portOpenAt(i)
    {
      attempts := attempts + 1;
      if portOpenAt(retry) {
        open := true;
        break;
      }
      // time.sleep(delay)
      retry := retry + 1;
    }
  }
}
