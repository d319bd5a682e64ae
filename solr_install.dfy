/**
 * The Solr distribution in `solr-external/mc_solr/solr.py`: where it lives,
 * how `solr_is_installed` decides that it is there, and the marker-file
 * protocol `install_solr` follows to put it there.
 *
 * Three entries of the distribution directory `<dist>/solr-<version>` carry
 * the protocol: the "installing" lock file, the "installed" marker and the
 * distribution's own `README.txt`.
 */
module SolrInstall {
  import opened Wrappers
  import opened Strings
  import opened Posix
  import opened FileSystem
  import opened Utils

  /**
   * The settings solr.py reads from `mc_solr.constants`: the marker file
   * names, the install timeout, the default Solr version, the JVM options
   * and the Lucene match version.
   */
  datatype Config = Config(
    installingName: string,
    installedName: string,
    installTimeout: real,
    version: string,
    jvmOpts: seq<string>,
    luceneMatchVersion: string)
  {
    /** The lock, the marker and README.txt are three different entries. */
    predicate Valid() {
      installingName != installedName && installingName != "README.txt" && installedName != "README.txt"
    }
  }

  // -----------------------------------------------------------------------
  // Paths
  // -----------------------------------------------------------------------

  /** `__solr_path`: `dist` is what `distribution_path(dist_directory)` returns. */
  function SolrPath(dist: Path, version: string): (p: Path)
    ensures |p| == |dist| + 1 && p[..|dist|] == dist && p[|dist|] == "solr-" + version
  {
    dist + ["solr-" + version]
  }

  /** Every version gets a directory of its own. */
  lemma SolrPathInjective(dist: Path, v1: string, v2: string)
    requires SolrPath(dist, v1) == SolrPath(dist, v2)
    ensures v1 == v2
  {
    var n1 := SolrPath(dist, v1)[|dist|];
    assert n1 == "solr-" + v1 && n1 == "solr-" + v2;
    assert v1 == n1[5..] == v2;
  }

  function InstallingFilePath(c: Config, dist: Path, version: string): (p: Path)
    ensures |p| == |dist| + 2 && p[..|dist| + 1] == SolrPath(dist, version) && p[|dist| + 1] == c.installingName
  {
    SolrPath(dist, version) + [c.installingName]
  }

  function InstalledFilePath(c: Config, dist: Path, version: string): (p: Path)
    ensures |p| == |dist| + 2 && p[..|dist| + 1] == SolrPath(dist, version) && p[|dist| + 1] == c.installedName
  {
    SolrPath(dist, version) + [c.installedName]
  }

  function ReadmePath(dist: Path, version: string): Path {
    SolrPath(dist, version) + ["README.txt"]
  }

  /** The lock, the marker and README.txt sit side by side in the distribution directory. */
  lemma MarkerPaths(c: Config, dist: Path, version: string)
    requires c.Valid()
    ensures var lock, marker, readme := InstallingFilePath(c, dist, version), InstalledFilePath(c, dist, version), ReadmePath(dist, version);
            && lock != marker && lock != readme && marker != readme
            && Parent(lock) == Parent(marker) == Parent(readme) == SolrPath(dist, version)
  {
    var lock, marker, readme := InstallingFilePath(c, dist, version), InstalledFilePath(c, dist, version), ReadmePath(dist, version);
    assert lock[|dist| + 1] == c.installingName && marker[|dist| + 1] == c.installedName && readme[|dist| + 1] == "README.txt";
  }

  const DistUrlPrefix := "https://archive.apache.org/dist/lucene/solr/"

  /** `__solr_dist_url`: the Apache archive's .tgz of the version. */
  function SolrDistUrl(version: string): (url: string)
    ensures StartsWith(url, DistUrlPrefix) && EndsWith(url, ".tgz")
    ensures |url| == |DistUrlPrefix| + 2 * |version| + 10
  {
    DistUrlPrefix + version + "/solr-" + version + ".tgz"
  }

  /** Different versions are downloaded from different URLs. */
  lemma SolrDistUrlInjective(v1: string, v2: string)
    requires SolrDistUrl(v1) == SolrDistUrl(v2)
    ensures v1 == v2
  {
    var n := |DistUrlPrefix|;
    assert |v1| == |v2|;
    assert SolrDistUrl(v1)[n..n + |v1|] == v1;
    assert SolrDistUrl(v2)[n..n + |v2|] == v2;
  }

  // -----------------------------------------------------------------------
  // solr_is_installed
  // -----------------------------------------------------------------------

  /** Both the "installed" marker and README.txt are files. */
  predicate InstalledIn(s: FsState, c: Config, dist: Path, version: string) {
    s.IsFile(InstalledFilePath(c, dist, version)) && s.IsFile(ReadmePath(dist, version))
  }

  /**
   * `solr_is_installed`: the answer, and the state it leaves, since a marker
   * without README.txt is stale and gets unlinked.
   */
  function IsInstalledRun(s: FsState, c: Config, dist: Path, version: string): (r: (FsState, bool))
    ensures r.1 <==> InstalledIn(s, c, dist, version)
    ensures !s.IsFile(InstalledFilePath(c, dist, version)) || r.1 ==> r.0 == s
    ensures s.IsFile(InstalledFilePath(c, dist, version)) && !r.1 ==> Unlink(s, InstalledFilePath(c, dist, version)) == Ok(r.0)
    ensures s.Valid() ==> r.0.Valid()
    ensures s.Valid() && !r.1 ==> !r.0.IsFile(InstalledFilePath(c, dist, version))
  {
    var marker := InstalledFilePath(c, dist, version);
    if s.IsFile(marker) then
      if s.IsFile(ReadmePath(dist, version)) then (s, true)
      else (Unlink(s, marker).value, false)
    else (s, false)
  }

  /** Asking twice gives the same answer, and the second call changes nothing. */
  lemma IsInstalledSettles(s: FsState, c: Config, dist: Path, version: string)
    requires s.Valid()
    ensures var (t, installed) := IsInstalledRun(s, c, dist, version);
            IsInstalledRun(t, c, dist, version) == (t, installed)
  {
  }

  method SolrIsInstalled(fs: FileSystem, c: Config, dist: Path, version: string) returns (installed: bool)
    modifies fs
    ensures (fs.state, installed) == IsInstalledRun(old(fs.state), c, dist, version)
  {
    var marker := InstalledFilePath(c, dist, version);
    if fs.state.IsFile(marker) {
      if fs.state.IsFile(ReadmePath(dist, version)) {
        return true;
      }
      var unlinked := fs.Unlink(marker);
    }
    installed := false;
  }

  // -----------------------------------------------------------------------
  // install_solr
  // -----------------------------------------------------------------------

  datatype InstallOutcome =
    | InstalledNow        // this call unpacked the distribution
    | InstalledMeanwhile  // another process finished while this one waited for the lock

  datatype InstallError =
    | AlreadyInstalled                   // "Solr %s is already installed ..."
    | Os(error: OsError)                 // raised by mkdir_p
    | LockNotTaken(outcome: LockOutcome) // lock_file raised, or is still waiting
    | DownloadFailed                     // curl exited non-zero
    | Extract(failure: ExtractError)     // tar or unzip rejected the archive or failed
    | LockMissing                        // unlock_file: "Lock file ... does not exist."
    | NotInstalledAtEnd                  // "I've done everything but Solr is still not installed."

  /**
   * What the outside world does during one `install_solr` call: the waits
   * while taking the installing lock, whether curl downloads a URL, where
   * `tempfile.mkdtemp` puts the download, what tar unpacks from it, what
   * unzip unpacks from solr.war, and the waits while creating the marker.
   */
  datatype InstallEnv = InstallEnv(
    lockSchedule: seq<Wait>,
    curl: string -> bool,
    tempDir: Path,
    tarball: Option<seq<Path>>,
    war: Option<seq<Path>>,
    markerSchedule: seq<Wait>)

  function ArchivePath(env: InstallEnv): Path {
    env.tempDir + ["archive.tgz"]
  }

  function WarPath(dist: Path, version: string): Path {
    SolrPath(dist, version) + ["example", "webapps", "solr.war"]
  }

  function WarDestPath(dist: Path, version: string): Path {
    SolrPath(dist, version) + ["example", "solr-webapp", "webapp"]
  }

  /**
   * The solr.war step of `install_solr` AS WRITTEN: the web archive is handed
   * to the tarball extractor.
   */
  function WarFixupAsWritten(s: FsState, dist: Path, version: string, members: Option<seq<Path>>): (r: (FsState, Result<(), InstallError>))
    ensures !s.IsFile(WarPath(dist, version)) ==> r == (s, Ok(()))
    ensures r.0.files.Keys >= s.files.Keys
  {
    if !s.IsFile(WarPath(dist, version)) then (s, Ok(()))
    else match MkdirPResult(s, WarDestPath(dist, version))
      case Err(e) => (s, Err(Os(e)))
      case Ok(s1) =>
        match ExtractResult(s1, TarArgs(WarPath(dist, version), WarDestPath(dist, version), false), WarDestPath(dist, version), members)
        case Err(e) => (s1, Err(Extract(e)))
        case Ok(s2) => (s2, Ok(()))
  }

  /** A distribution that ships solr.war (every Solr 4) can never get past that step. */
  lemma WarFixupAsWrittenAlwaysFails(s: FsState, dist: Path, version: string, members: Option<seq<Path>>)
    requires s.IsFile(WarPath(dist, version)) && MkdirPResult(s, WarDestPath(dist, version)).Ok?
    ensures WarFixupAsWritten(s, dist, version, members).1 == Err(Extract(UnsupportedArchive(".war")))
  {
    var name := "solr.war";
    assert BaseName(WarPath(dist, version)) == name;
    assert name[..7][..6][..5] == name[..5] && name[..5][4] == '.';
    assert RFind(name[..6], '.') == 4;
    assert RFind(name[..7], '.') == 4;
    assert RFind(name, '.') == 4;
    assert name[0] != '.';
    assert SplitExt(name) == name[4..] == ".war";
    assert FileExtension(WarPath(dist, version)) == ".war";
  }

  /** The solr.war step as intended: the web archive is unzipped into `example/solr-webapp/webapp`. */
  function WarFixup(s: FsState, dist: Path, version: string, members: Option<seq<Path>>): (r: (FsState, Result<(), InstallError>))
    ensures !s.IsFile(WarPath(dist, version)) ==> r == (s, Ok(()))
    ensures r.1.Err? ==> r.1.error.Os? || r.1.error.Extract?
    ensures r.0.files.Keys >= s.files.Keys && r.0.links == s.links
    ensures s.Valid() ==> r.0.Valid()
    ensures s.Valid() && s.IsFile(WarPath(dist, version)) && r.1.Ok? ==>
              members.Some? && forall m | m in members.value :: r.0.IsFile(WarDestPath(dist, version) + m)
  {
    if !s.IsFile(WarPath(dist, version)) then (s, Ok(()))
    else match MkdirPResult(s, WarDestPath(dist, version))
      case Err(e) => (s, Err(Os(e)))
      case Ok(s1) =>
        match ExtractResult(s1, ZipArgs(WarPath(dist, version), WarDestPath(dist, version)), WarDestPath(dist, version), members)
        case Err(e) => (s1, Err(Extract(e)))
        case Ok(s2) => (s2, Ok(()))
  }

  /**
   * `install_solr(dist_directory, solr_version)`, given what the world does
   * meanwhile: the state it leaves and how it ends.
   */
  function InstallRun(s: FsState, c: Config, dist: Path, version: string, env: InstallEnv)
    : (r: (FsState, Result<InstallOutcome, InstallError>))
    ensures s.Valid() ==> r.0.Valid()
  {
    var (s1, installed) := IsInstalledRun(s, c, dist, version);
    if installed then (s1, Err(AlreadyInstalled))
    else match MkdirPResult(s1, SolrPath(dist, version))
      case Err(e) => (s1, Err(Os(e)))
      case Ok(s2) =>
        var (s3, lock) := LockRun(s2, InstallingFilePath(c, dist, version), Some(c.installTimeout), env.lockSchedule);
        if lock != Locked then (s3, Err(LockNotTaken(lock)))
        else
          var (s4, meanwhile) := IsInstalledRun(s3, c, dist, version);
          if meanwhile then (s4, Ok(InstalledMeanwhile))
          else InstallLocked(s4, c, dist, version, env)
  }

  /** The rest of `install_solr` once it holds the lock and nothing is installed. */
  function InstallLocked(s: FsState, c: Config, dist: Path, version: string, env: InstallEnv)
    : (r: (FsState, Result<InstallOutcome, InstallError>))
    ensures s.Valid() ==> r.0.Valid()
    ensures r.1.Ok? ==> r.1 == Ok(InstalledNow)
    ensures r.1.Err? ==> r.1.error in {DownloadFailed, LockMissing, NotInstalledAtEnd} || r.1.error.Os? || r.1.error.Extract? || r.1.error.LockNotTaken?
  {
    if !env.curl(SolrDistUrl(version)) then (s, Err(DownloadFailed))
    else match ExtractResult(s, TarArgsIntended(ArchivePath(env), SolrPath(dist, version), true), SolrPath(dist, version), env.tarball)
      case Err(e) => (s, Err(Extract(e)))
      case Ok(s1) =>
        var (s2, war) := WarFixup(s1, dist, version, env.war);
        if war.Err? then (s2, Err(war.error))
        else FinishInstall(s2, c, dist, version, env)
  }

  /** The end of `install_solr`: the "installed" marker, the lock released, the final check. */
  function FinishInstall(s: FsState, c: Config, dist: Path, version: string, env: InstallEnv)
    : (r: (FsState, Result<InstallOutcome, InstallError>))
    ensures r.1.Ok? ==> r.1 == Ok(InstalledNow)
    ensures r.1.Err? ==> r.1.error.LockNotTaken? || r.1.error == LockMissing || r.1.error == NotInstalledAtEnd
    ensures s.Valid() ==> r.0.Valid()
    ensures s.Valid() && r.1.Ok? ==>
              InstalledIn(r.0, c, dist, version) && !r.0.Occupied(InstallingFilePath(c, dist, version))
  {
    var (s1, marker) := LockRun(s, InstalledFilePath(c, dist, version), None, env.markerSchedule);
    if marker != Locked then (s1, Err(LockNotTaken(marker)))
    else match UnlockResult(s1, InstallingFilePath(c, dist, version))
      case None => (s1, Err(LockMissing))
      case Some(s2) =>
        var (s3, ok) := IsInstalledRun(s2, c, dist, version);
        if ok then (s3, Ok(InstalledNow)) else (s3, Err(NotInstalledAtEnd))
  }

  /**
   * `install_solr` AS WRITTEN: as `InstallRun`, but once the lock is held
   * the steps are `InstallLockedAsWritten`.
   */
  function InstallRunAsWritten(s: FsState, c: Config, dist: Path, version: string, env: InstallEnv)
    : (r: (FsState, Result<InstallOutcome, InstallError>))
    ensures r.1.Ok? ==> r.1 == Ok(InstalledNow) || r.1 == Ok(InstalledMeanwhile)
  {
    var (s1, installed) := IsInstalledRun(s, c, dist, version);
    if installed then (s1, Err(AlreadyInstalled))
    else match MkdirPResult(s1, SolrPath(dist, version))
      case Err(e) => (s1, Err(Os(e)))
      case Ok(s2) =>
        var (s3, lock) := LockRun(s2, InstallingFilePath(c, dist, version), Some(c.installTimeout), env.lockSchedule);
        if lock != Locked then (s3, Err(LockNotTaken(lock)))
        else
          var (s4, meanwhile) := IsInstalledRun(s3, c, dist, version);
          if meanwhile then (s4, Ok(InstalledMeanwhile))
          else InstallLockedAsWritten(s4, c, dist, version, env)
  }

  /**
   * The steps after the lock AS WRITTEN: the download goes through the
   * code's own `tar` argument choice, and solr.war through the tarball
   * extractor.
   */
  function InstallLockedAsWritten(s: FsState, c: Config, dist: Path, version: string, env: InstallEnv)
    : (r: (FsState, Result<InstallOutcome, InstallError>))
    ensures r.1.Ok? ==> r.1 == Ok(InstalledNow)
    ensures !env.curl(SolrDistUrl(version)) ==> r == (s, Err(DownloadFailed))
  {
    if !env.curl(SolrDistUrl(version)) then (s, Err(DownloadFailed))
    else match ExtractResult(s, TarArgs(ArchivePath(env), SolrPath(dist, version), true), SolrPath(dist, version), env.tarball)
      case Err(e) => (s, Err(Extract(e)))
      case Ok(s1) =>
        var (s2, war) := WarFixupAsWritten(s1, dist, version, env.war);
        if war.Err? then (s2, Err(war.error))
        else FinishInstall(s2, c, dist, version, env)
  }

  /** The download is saved as "archive.tgz", for which the code's `tar` arguments are the intended ones. */
  lemma ArchiveArgsAgree(env: InstallEnv, dest: Path)
    ensures TarArgs(ArchivePath(env), dest, true) == TarArgsIntended(ArchivePath(env), dest, true)
  {
    var name := "archive.tgz";
    assert BaseName(ArchivePath(env)) == name;
    assert Lower(name) == name;
    assert !EndsWith(name, ".tar.gz");
    TarArgsIntendedAgrees(ArchivePath(env), dest, true);
  }

  /**
   * The code as written differs from the intended installation only by
   * failing at the solr.war step: either both give the same state and
   * outcome, or the code raises "Unsupported archive extension .war".
   */
  lemma InstallRunAsWrittenAgrees(s: FsState, c: Config, dist: Path, version: string, env: InstallEnv)
    ensures var written := InstallRunAsWritten(s, c, dist, version, env);
            written == InstallRun(s, c, dist, version, env) || written.1 == Err(Extract(UnsupportedArchive(".war")))
  {
    var (s1, installed) := IsInstalledRun(s, c, dist, version);
    if !installed && MkdirPResult(s1, SolrPath(dist, version)).Ok? {
      var s2 := MkdirPResult(s1, SolrPath(dist, version)).value;
      var (s3, lock) := LockRun(s2, InstallingFilePath(c, dist, version), Some(c.installTimeout), env.lockSchedule);
      var (s4, meanwhile) := IsInstalledRun(s3, c, dist, version);
      if lock == Locked && !meanwhile {
        InstallLockedAsWrittenAgrees(s4, c, dist, version, env);
      }
    }
  }

  lemma InstallLockedAsWrittenAgrees(s: FsState, c: Config, dist: Path, version: string, env: InstallEnv)
    ensures var written := InstallLockedAsWritten(s, c, dist, version, env);
            written == InstallLocked(s, c, dist, version, env) || written.1 == Err(Extract(UnsupportedArchive(".war")))
  {
    ArchiveArgsAgree(env, SolrPath(dist, version));
    if env.curl(SolrDistUrl(version)) {
      var e := ExtractResult(s, TarArgs(ArchivePath(env), SolrPath(dist, version), true), SolrPath(dist, version), env.tarball);
      if e.Ok? && e.value.IsFile(WarPath(dist, version)) && MkdirPResult(e.value, WarDestPath(dist, version)).Ok? {
        WarFixupAsWrittenAlwaysFails(e.value, dist, version, env.war);
      }
    }
  }

  /**
   * A Solr tarball that ships `example/webapps/solr.war` (every Solr 4)
   * can never be installed by the code as written: once the lock is held
   * it raises, and the installing lock stays behind.
   */
  lemma InstallLockedAsWrittenFailsWithWar(s: FsState, c: Config, dist: Path, version: string, env: InstallEnv)
    requires s.Valid() && env.tarball.Some? && ["example", "webapps", "solr.war"] in env.tarball.value
    ensures var r := InstallLockedAsWritten(s, c, dist, version, env);
            && r.1.Err?
            && (InstallingFilePath(c, dist, version) in s.files ==> InstallingFilePath(c, dist, version) in r.0.files)
  {
    ArchiveArgsAgree(env, SolrPath(dist, version));
    var dest := SolrPath(dist, version);
    if env.curl(SolrDistUrl(version)) {
      var e := ExtractResult(s, TarArgs(ArchivePath(env), dest, true), dest, env.tarball);
      if e.Ok? {
        assert Unpack(s, dest, env.tarball.value) == Ok(e.value);
        assert dest + ["example", "webapps", "solr.war"] == WarPath(dist, version);
        assert e.value.IsFile(WarPath(dist, version));
        var w := WarFixupAsWritten(e.value, dist, version, env.war);
        assert w.1.Err? by {
          if MkdirPResult(e.value, WarDestPath(dist, version)).Ok? {
            WarFixupAsWrittenAlwaysFails(e.value, dist, version, env.war);
          }
        }
        assert InstallLockedAsWritten(s, c, dist, version, env) == (w.0, Err(w.1.error));
      }
    }
  }

  /**
   * So as written, `install_solr` never installs such a distribution
   * itself: it succeeds only when another process did the work.
   */
  lemma InstallRunAsWrittenNeverInstallsWar(s: FsState, c: Config, dist: Path, version: string, env: InstallEnv)
    requires s.Valid() && env.tarball.Some? && ["example", "webapps", "solr.war"] in env.tarball.value
    ensures InstallRunAsWritten(s, c, dist, version, env).1 != Ok(InstalledNow)
  {
    var (s1, installed) := IsInstalledRun(s, c, dist, version);
    if !installed && MkdirPResult(s1, SolrPath(dist, version)).Ok? {
      var s2 := MkdirPResult(s1, SolrPath(dist, version)).value;
      var (s3, lock) := LockRun(s2, InstallingFilePath(c, dist, version), Some(c.installTimeout), env.lockSchedule);
      var (s4, meanwhile) := IsInstalledRun(s3, c, dist, version);
      if lock == Locked && !meanwhile {
        InstallLockedAsWrittenFailsWithWar(s4, c, dist, version, env);
      }
    }
  }

  /** `install_solr` raises, touching nothing, exactly when Solr is already installed. */
  lemma InstallRejectsInstalled(s: FsState, c: Config, dist: Path, version: string, env: InstallEnv)
    ensures InstallRun(s, c, dist, version, env).1 == Err(AlreadyInstalled) <==> InstalledIn(s, c, dist, version)
    ensures InstalledIn(s, c, dist, version) ==> InstallRun(s, c, dist, version, env).0 == s
  {
  }

  /**
   * When another process finished the installation while this one waited,
   * the call returns with Solr installed and the lock it just took still
   * in place.
   */
  lemma InstalledMeanwhileKeepsLock(s: FsState, c: Config, dist: Path, version: string, env: InstallEnv)
    requires s.Valid()
    requires InstallRun(s, c, dist, version, env).1 == Ok(InstalledMeanwhile)
    ensures var t := InstallRun(s, c, dist, version, env).0;
            InstalledIn(t, c, dist, version) && InstallingFilePath(c, dist, version) in t.files
  {
  }

  /** A completed installation leaves Solr installed, the marker in place and the lock gone. */
  lemma InstalledNowReleasesLock(s: FsState, c: Config, dist: Path, version: string, env: InstallEnv)
    requires s.Valid() && c.Valid()
    requires InstallRun(s, c, dist, version, env).1 == Ok(InstalledNow)
    ensures var t := InstallRun(s, c, dist, version, env).0;
            InstalledIn(t, c, dist, version) && !t.Occupied(InstallingFilePath(c, dist, version))
  {
    var lock := InstallingFilePath(c, dist, version);
    var (s1, installed) := IsInstalledRun(s, c, dist, version);
    var s2 := MkdirPResult(s1, SolrPath(dist, version)).value;
    var (s3, _) := LockRun(s2, lock, Some(c.installTimeout), env.lockSchedule);
    var (s4, _) := IsInstalledRun(s3, c, dist, version);
    InstallLockedReleasesLock(s4, c, dist, version, env);
  }

  /** Whichever way `install_solr` returns normally, Solr is installed afterwards. */
  lemma InstallSucceedsInstalls(s: FsState, c: Config, dist: Path, version: string, env: InstallEnv)
    requires s.Valid() && c.Valid() && InstallRun(s, c, dist, version, env).1.Ok?
    ensures InstalledIn(InstallRun(s, c, dist, version, env).0, c, dist, version)
  {
    var r := InstallRun(s, c, dist, version, env);
    match r.1.value
    case InstalledNow =>
      InstalledNowReleasesLock(s, c, dist, version, env);
    case InstalledMeanwhile =>
      InstalledMeanwhileKeepsLock(s, c, dist, version, env);
  }

  lemma InstallLockedReleasesLock(s: FsState, c: Config, dist: Path, version: string, env: InstallEnv)
    requires s.Valid() && c.Valid()
    requires InstallLocked(s, c, dist, version, env).1 == Ok(InstalledNow)
    ensures var t := InstallLocked(s, c, dist, version, env).0;
            InstalledIn(t, c, dist, version) && !t.Occupied(InstallingFilePath(c, dist, version))
  {
    MarkerPaths(c, dist, version);
  }

  /**
   * A failed final check leaves neither lock nor marker behind: the
   * marker was created, but without README.txt it is stale and removed.
   */
  lemma NotInstalledAtEndCleansUp(s: FsState, c: Config, dist: Path, version: string, env: InstallEnv)
    requires s.Valid() && c.Valid()
    requires InstallLocked(s, c, dist, version, env).1 == Err(NotInstalledAtEnd)
    ensures var t := InstallLocked(s, c, dist, version, env).0;
            && !t.Occupied(InstallingFilePath(c, dist, version))
            && !t.Occupied(InstalledFilePath(c, dist, version))
            && !t.IsFile(ReadmePath(dist, version))
  {
    MarkerPaths(c, dist, version);
  }

  /**
   * Once the lock is held, a failure before it is released leaves the lock
   * in place, provided no other process removes it.
   */
  lemma FailureAfterLockKeepsLock(s: FsState, c: Config, dist: Path, version: string, env: InstallEnv)
    requires s.Valid() && c.Valid()
    requires InstallingFilePath(c, dist, version) in s.files
    requires forall i | 0 <= i < |env.markerSchedule| :: InstallingFilePath(c, dist, version) !in env.markerSchedule[i].others.removed
    ensures var r := InstallLocked(s, c, dist, version, env);
            && r.1 != Err(LockMissing)
            && (r.1.Err? && r.1 != Err(NotInstalledAtEnd) ==> InstallingFilePath(c, dist, version) in r.0.files)
  {
    var lock := InstallingFilePath(c, dist, version);
    if env.curl(SolrDistUrl(version)) {
      var e := ExtractResult(s, TarArgsIntended(ArchivePath(env), SolrPath(dist, version), true), SolrPath(dist, version), env.tarball);
      if e.Ok? {
        var (s2, war) := WarFixup(e.value, dist, version, env.war);
        assert lock in s2.files;
        if war.Ok? {
          FinishKeepsLock(s2, c, dist, version, env);
        }
      }
    }
  }

  lemma FinishKeepsLock(s: FsState, c: Config, dist: Path, version: string, env: InstallEnv)
    requires s.Valid() && c.Valid()
    requires InstallingFilePath(c, dist, version) in s.files
    requires forall i | 0 <= i < |env.markerSchedule| :: InstallingFilePath(c, dist, version) !in env.markerSchedule[i].others.removed
    ensures var r := FinishInstall(s, c, dist, version, env);
            && r.1 != Err(LockMissing)
            && (r.1.Err? && r.1 != Err(NotInstalledAtEnd) ==> InstallingFilePath(c, dist, version) in r.0.files)
  {
    MarkerPaths(c, dist, version);
    LockRunKeepsFile(s, InstalledFilePath(c, dist, version), InstallingFilePath(c, dist, version), env.markerSchedule);
  }

  /** Waiting for one path keeps a file at another path that no other process removes. */
  lemma {:induction false} LockRunKeepsFile(s: FsState, p: Path, q: Path, schedule: seq<Wait>)
    requires s.Valid() && q in s.files && p != q
    requires forall i | 0 <= i < |schedule| :: q !in schedule[i].others.removed
    ensures q in LockRun(s, p, None, schedule).0.files
    decreases |schedule|
  {
    if CreateExclusive(s, p).Err? && CreateExclusive(s, p).error == AlreadyExists && schedule != [] {
      var s' := Interfere(s, schedule[0].others);
      assert q in s'.files;
      LockRunKeepsFile(s', p, q, schedule[1..]);
    }
  }

  method InstallSolr(fs: FileSystem, c: Config, dist: Path, version: string, env: InstallEnv)
    returns (r: Result<InstallOutcome, InstallError>)
    modifies fs
    ensures (fs.state, r) == InstallRun(old(fs.state), c, dist, version, env)
  {
    var installed := SolrIsInstalled(fs, c, dist, version);
    if installed {
      return Err(AlreadyInstalled);
    }
    var made := MkdirP(fs, SolrPath(dist, version));
    if made.Err? {
      return Err(Os(made.error));
    }
    var lock := LockFile(fs, InstallingFilePath(c, dist, version), Some(c.installTimeout), env.lockSchedule);
    if lock != Locked {
      return Err(LockNotTaken(lock));
    }
    installed := SolrIsInstalled(fs, c, dist, version);
    if installed {
      return Ok(InstalledMeanwhile);
    }
    ghost var locked := fs.state;
    if !env.curl(SolrDistUrl(version)) {
      return Err(DownloadFailed);
    }
    var extracted := ExtractTarball(fs, ArchivePath(env), SolrPath(dist, version), true, env.tarball);
    if extracted.Err? {
      return Err(Extract(extracted.error));
    }
    if fs.state.IsFile(WarPath(dist, version)) {
      made := MkdirP(fs, WarDestPath(dist, version));
      if made.Err? {
        return Err(Os(made.error));
      }
      var unzipped := ExtractZip(fs, WarPath(dist, version), WarDestPath(dist, version), env.war);
      if unzipped.Err? {
        return Err(Extract(unzipped.error));
      }
    }
    var marker := LockFile(fs, InstalledFilePath(c, dist, version), None, env.markerSchedule);
    if marker != Locked {
      return Err(LockNotTaken(marker));
    }
    var unlocked := UnlockFile(fs, InstallingFilePath(c, dist, version));
    if !unlocked {
      return Err(LockMissing);
    }
    installed := SolrIsInstalled(fs, c, dist, version);
    if !installed {
      return Err(NotInstalledAtEnd);
    }
    r := Ok(InstalledNow);
  }
}
