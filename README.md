# Solr shard tooling and the immigration query report, in Dafny

This project models three parts of a Media Cloud Solr deployment kit:

- **The generic helpers.** These cover `mkdir -p`, lock files taken by exclusive create and released by unlink, choosing the `tar`/`unzip` arguments from an archive's extension, and a bounded wait for a TCP port.
- **The Solr installer and the shard launcher.** `solr_is_installed` and `install_solr` follow a marker-file protocol: an "installing" lock file, an "installed" marker and the distribution's `README.txt`. The shard helpers compute a shard's name, port and data directory. `solr_collections` lists the collections of the Solr home. `run_solr_shard` does three things before starting the JVM:
  - it fills the shard's data directory with collection directories, `conf` links and `core.properties` files;
  - it recreates the shard's configuration and library links;
  - it checks the Jetty home, `log4j.properties`, `start.jar`, the shard port and the webapp directory.

  The model also builds the `java` command line and proves what the JVM reads from it.
- **The query report.** This part covers:
  - pairing Solr's flat facet lists into dictionaries;
  - the filter-query lists, including the join rewriting;
  - local filtering of downloaded documents (`doc_is_story_in_range`, `doc_matches_solr_query`, and the filter loop);
  - counting by month;
  - the per-word records of `counts_to_db_style`;
  - the duplication of `title:` queries as `sentence:` queries in `get_stories_ids`;
  - the month-key rewriting and the CSV header of `main`.

The host filesystem is a value `Posix.FsState`. It has regular files (with contents), directories and symbolic links (with targets). A path is the list of its components, so `os.path.join` is concatenation. Each `os` call is a function from the old state to a new state or an error. The class `FileSystem.FileSystem` holds the state. Its methods perform one call each, and the step-by-step operations of the scripts are methods on it. Each such method is proved equal to a function that the lemmas are about.

What the outside world does is passed in as parameters:

- the clock readings and other processes' changes while `lock_file` sleeps (`Utils.Wait`);
- whether `curl` succeeds;
- where `tempfile.mkdtemp` puts the download;
- the members `tar` and `unzip` unpack;
- whether a TCP port is open;
- the word-boundary regular-expression search;
- Solr's answers;
- dictionary iteration order.

The settings of `mc_solr.constants` (marker names, install timeout, default version, JVM options, Lucene match version) are the record `SolrInstall.Config`. `distribution_path(...)` is a path parameter.

Three behaviours of the code worth noting, all modelled as written:

- When another installer finished while this one waited for the lock, `install_solr` returns without removing the lock it just took (solr-external/mc_solr/solr.py:73-75).
- `run_solr_shard` rejects only negative shard numbers and counts (solr-external/mc_solr/solr.py:205-208):
  - a shard count of 0 is accepted (`ShardLaunch.ShardCountOnlyChecked`);
  - shard number 0 is rejected later, by `__shard_name` (line 224).
- The final "still not installed" check comes after the lock has been removed, so that failure leaves no lock behind (solr-external/mc_solr/solr.py:97-103).

Three steps of the code cannot do what they are evidently meant to do (see "## Findings"). Each is modelled twice: as written, and as intended. The operations built from those steps (`install_solr`, the link loops, `run_solr_shard`) use the intended steps. Lemmas state exactly where the code as written differs from them:
- `SolrInstall.InstallRunAsWrittenAgrees`: `install_solr` as written differs only by raising at the solr.war step.
- `SolrShard.RelinkAllAgreesWithCode` and `ShardLaunch.LinkShardAgreesWithCode`: the link loops as written differ only where a dangling link sits at an item's place, and there they raise.

## Model

| member | source | states |
|---|---|---|
| Utils.MkdirPResult | solr/mc_solr/utils.py:31-41 | `mkdir_p` succeeds exactly when the path is already a directory, or when it is free and no ancestor is a file or link. It raises when the path holds something else. It never touches files or links. It creates no directory other than the path and its missing ancestors. Afterwards the path is a directory. |
| Utils.MkdirPIdempotent | solr/mc_solr/utils.py:31-41 | After a successful `mkdir_p`, a second call succeeds and changes nothing. |
| Utils.MkdirPOnDirectory | solr/mc_solr/utils.py:34-38 | On an existing directory, the EEXIST from `os.makedirs` is swallowed and nothing changes. |
| Utils.MkdirP | solr/mc_solr/utils.py:31-41 | The step-by-step `mkdir_p` on the filesystem object leaves the state and result that `MkdirPResult` describes. A failure changes nothing. |
| Utils.LockRun | solr/mc_solr/utils.py:44-63 | `lock_file` returns normally only after it has created the lock path, as an empty file. It keeps the tree well formed. |
| Utils.LockWithoutTimeoutNeverTimesOut | solr/mc_solr/utils.py:52-59 | With `timeout=None`, a held lock never makes `lock_file` raise; it only retries. |
| Utils.LockTimesOutOnlyAtDeadline | solr/mc_solr/utils.py:54-56 | The timeout exception is raised only with a timeout given, and only after a clock reading at or past it. |
| Utils.LockTimesOutWhenNeverReleased | solr/mc_solr/utils.py:52-59 | A lock nobody releases makes `lock_file` with a timeout raise once the clock reaches the timeout. |
| Utils.LockedOnlyWhenFree | solr/mc_solr/utils.py:48-51 | The lock is taken only when the path was free: on entry, or after another process removed it during a wait. |
| Utils.LockCreateFailsOnlyAtFirstAttempt | solr/mc_solr/utils.py:60-62 | An error other than EEXIST happens exactly when the path is free but its directory is missing. It is raised at once, with nothing changed and no retry. |
| Utils.LockFile | solr/mc_solr/utils.py:44-63 | The `while True` retry loop ends in exactly the state and outcome `LockRun` gives. |
| Utils.UnlockResult | solr/mc_solr/utils.py:66-72 | `unlock_file` raises exactly when the path is not a file. Otherwise it removes that path and nothing else: every other file keeps its contents, every other link its target, and the directories are unchanged. |
| Utils.LockThenUnlockRestores | solr/mc_solr/utils.py:44-72 | Taking a free lock and releasing it restores the filesystem exactly. |
| Utils.UnlockFile | solr/mc_solr/utils.py:66-72 | The step-by-step `unlock_file` matches `UnlockResult`. On failure nothing changes. |
| Utils.RFind | solr/mc_solr/utils.py:94 | The last index of a character, or -1 when it does not occur, as `os.path.splitext` looks for the last dot. |
| Utils.SplitExt | solr/mc_solr/utils.py:94 | `os.path.splitext(name)[1]` is empty or a suffix of the name that starts with its only dot. `SplitExtNonEmpty` states when it is empty. |
| Utils.FileExtension | solr/mc_solr/utils.py:92-94 | `__file_extension` is the lower-cased last suffix of the base name: one dot followed by no other dot. It is empty exactly when no dot in the base name comes after a character other than a dot. So `archive.tgz` gives `.tgz`, and the result is never `.tar.gz`. |
| Utils.TarArgs | solr/mc_solr/utils.py:101-113 | As written, `tar` gets `-zxf` for `.tgz` and `-xf` for `.tar`, then the archive, `-C` and the destination, plus `--strip 1` when asked. Any other extension is rejected. |
| Utils.TarGzArchiveRejected | solr/mc_solr/utils.py:101-107 | A `solr-4.6.0.tar.gz` archive is rejected with extension `.gz`. |
| Utils.TarArgsIntendedAccepts | solr/mc_solr/utils.py:97-113 | The corrected choice accepts exactly `.tgz`, `.tar` and `.tar.gz` names. It uses `-zxf` for the compressed ones. |
| Utils.TarArgsIntendedAgrees | solr/mc_solr/utils.py:101-113 | Except for names ending in `.tar.gz`, the corrected choice is the one the code makes. |
| Utils.TarArgsIntended | solr/mc_solr/utils.py:97-113 | The corrected argument list is `tar`, a flag, the archive, `-C` and the destination. A rejected archive reports its own extension. Which names it accepts is stated by `TarArgsIntendedAccepts`. |
| Utils.ZipArgs | solr/mc_solr/utils.py:118-127 | `unzip -q <archive> -d <dest>` for `.zip` and `.war` only. Any other extension is rejected. |
| Utils.Unpack | solr/mc_solr/utils.py:109-115 | A successful extraction keeps every file, directory and link, and leaves each archive member a regular file under the destination. |
| Utils.ExtractResult | solr/mc_solr/utils.py:106-115 | A rejected extension raises before the tool runs. A success means the arguments were accepted and the members unpacked. |
| Utils.ExtractTarball | solr/mc_solr/utils.py:97-115 | `extract_tarball_to_directory` (with `.tar.gz` accepted) runs the chosen command and leaves the unpacked state. On failure nothing changes. |
| Utils.ExtractZip | solr/mc_solr/utils.py:118-129 | `extract_zip_to_directory` runs `unzip` and leaves the unpacked state. On failure nothing changes. |
| Utils.WaitForTcpPortToOpen | solr/mc_solr/utils.py:209-223 | The result is true exactly when some probe among the first `retries` succeeds. Probing stops at the first success. The result is false with no probe when `retries` ≤ 0. |
| SolrInstall.SolrPathInjective | solr-external/mc_solr/solr.py:11-16 | Each Solr version gets its own `solr-<version>` directory. |
| SolrInstall.MarkerPaths | solr-external/mc_solr/solr.py:19-28 | The installing lock, the installed marker and `README.txt` are three distinct entries of the Solr directory. |
| SolrInstall.SolrDistUrl | solr-external/mc_solr/solr.py:31-36 | The download URL is under the Apache archive's Lucene/Solr tree and ends in `.tgz`. |
| SolrInstall.SolrDistUrlInjective | solr-external/mc_solr/solr.py:31-36 | Different versions are downloaded from different URLs. |
| SolrInstall.SolrPath | solr-external/mc_solr/solr.py:11-16 | `__solr_path` is the entry `solr-<version>` directly inside the distribution directory. `SolrPathInjective` states that versions never share it. |
| SolrInstall.InstallingFilePath | solr-external/mc_solr/solr.py:19-23 | The installing lock is the configured name directly inside the Solr directory. `MarkerPaths` states that it differs from the marker and `README.txt`. |
| SolrInstall.InstalledFilePath | solr-external/mc_solr/solr.py:25-28 | The installed marker is the configured name directly inside the Solr directory. `MarkerPaths` states that it differs from the lock and `README.txt`. |
| SolrInstall.IsInstalledRun | solr-external/mc_solr/solr.py:39-52 | `solr_is_installed` is true exactly when both the marker and `README.txt` are files. A marker without `README.txt` is unlinked and the answer is false. Otherwise nothing changes. |
| SolrInstall.IsInstalledSettles | solr-external/mc_solr/solr.py:39-52 | Asking twice gives the same answer, and the second call changes nothing. |
| SolrInstall.SolrIsInstalled | solr-external/mc_solr/solr.py:39-52 | The step-by-step check leaves the state and answer `IsInstalledRun` gives. |
| SolrInstall.WarFixupAsWrittenAlwaysFails | solr-external/mc_solr/solr.py:87-93 | As written, a distribution shipping `solr.war` always fails at that step: the tarball extractor rejects `.war`. |
| SolrInstall.WarFixup | solr-external/mc_solr/solr.py:87-93 | The corrected step does nothing without `solr.war`. Otherwise it unzips every member into `example/solr-webapp/webapp` or fails with a filesystem or extraction error, keeping the files and links already there. |
| SolrInstall.WarFixupAsWritten | solr-external/mc_solr/solr.py:87-93 | As written, the step does nothing without `solr.war`, and never loses a file. `WarFixupAsWrittenAlwaysFails` states that it fails whenever `solr.war` is there. |
| SolrInstall.InstallRun | solr-external/mc_solr/solr.py:55-103 | `install_solr` keeps the tree well formed, whatever happens. |
| SolrInstall.InstallLocked | solr-external/mc_solr/solr.py:77-103 | After the lock is held, success can only be "installed now". The errors are only those of the download, the extractions, `mkdir_p`, the marker, the unlock and the final check. |
| SolrInstall.FinishInstall | solr-external/mc_solr/solr.py:95-103 | The marker, unlock and final check succeed only with "installed now", leaving Solr installed and the lock gone. Otherwise they raise only their own errors: the marker not taken, the lock missing, or Solr still not installed. |
| SolrInstall.ArchiveArgsAgree | solr/mc_solr/utils.py:84-89 | `download_file_to_temp_path` saves the download as `archive.tgz`, so the code's own `tar` arguments are the intended ones for it. |
| SolrInstall.InstallLockedAsWrittenAgrees | solr-external/mc_solr/solr.py:77-103 | After the lock, the steps as written leave the same state and outcome as the intended ones, unless they raise "Unsupported archive extension .war". |
| SolrInstall.InstallRunAsWrittenAgrees | solr-external/mc_solr/solr.py:55-103 | `install_solr` as written leaves the same state and outcome as the intended installation, unless it raises "Unsupported archive extension .war". |
| SolrInstall.InstallRunAsWritten | solr-external/mc_solr/solr.py:55-103 | As written, `install_solr` succeeds only with "installed now" or "installed meanwhile". `InstallRunAsWrittenAgrees` relates it to the intended installation. |
| SolrInstall.InstallLockedAsWritten | solr-external/mc_solr/solr.py:77-103 | As written, the steps after the lock succeed only with "installed now", and a failed download raises at once with nothing changed. `InstallLockedAsWrittenAgrees` relates them to the intended steps. |
| SolrInstall.InstallLockedAsWrittenFailsWithWar | solr-external/mc_solr/solr.py:87-100 | With `example/webapps/solr.war` in the tarball, the steps after the lock as written always raise, and the installing lock stays behind. |
| SolrInstall.InstallRunAsWrittenNeverInstallsWar | solr-external/mc_solr/solr.py:55-103 | With `example/webapps/solr.war` in the tarball, `install_solr` as written never reports "installed now". |
| SolrInstall.InstallRejectsInstalled | solr-external/mc_solr/solr.py:57-60 | `install_solr` raises "already installed" exactly when Solr is installed on entry, and then changes nothing. |
| SolrInstall.InstalledMeanwhileKeepsLock | solr-external/mc_solr/solr.py:69-75 | When another process installed Solr while this one waited, the call returns with Solr installed and its own lock still in place. |
| SolrInstall.InstalledNowReleasesLock | solr-external/mc_solr/solr.py:95-103 | A completed installation leaves Solr installed and the lock gone. |
| SolrInstall.InstallLockedReleasesLock | solr-external/mc_solr/solr.py:95-103 | The same, for the part of the call after the lock is held. |
| SolrInstall.InstallSucceedsInstalls | solr-external/mc_solr/solr.py:55-103 | Whenever `install_solr` returns normally, Solr is installed afterwards. |
| SolrInstall.NotInstalledAtEndCleansUp | solr-external/mc_solr/solr.py:97-103 | A failed final check leaves neither lock nor marker, and no `README.txt`. |
| SolrInstall.FailureAfterLockKeepsLock | solr-external/mc_solr/solr.py:77-100 | Any failure after the lock is held and before it is released leaves the lock file in place, provided no other process removes it. The unlock never finds the lock missing. |
| SolrInstall.FinishKeepsLock | solr-external/mc_solr/solr.py:95-100 | The same, for creating the marker and unlocking. |
| SolrInstall.LockRunKeepsFile | solr-external/mc_solr/solr.py:97 | Waiting to create the marker keeps the lock file, unless another process removes it. |
| SolrInstall.InstallSolr | solr-external/mc_solr/solr.py:55-103 | The step-by-step `install_solr` leaves the state and outcome `InstallRun` gives. |
| Strings.IntToStringRoundTrip | solr-external/mc_solr/solr.py:151 | `%d` loses nothing: the number can be parsed back from its rendering. |
| SolrShard.ShardName | solr-external/mc_solr/solr.py:147-151 | The name exists exactly for shard numbers ≥ 1. It is `mediacloud-shard-` followed by a decimal that parses back to the number. |
| SolrShard.ShardNameInjective | solr-external/mc_solr/solr.py:147-151 | Different shards have different names. |
| SolrShard.ShardPort | solr-external/mc_solr/solr.py:154-158 | A port exists exactly for shard numbers ≥ 1. Otherwise the call raises. |
| SolrShard.ShardPortsConsecutive | solr-external/mc_solr/solr.py:154-158 | Shards 1..n use the n ports from the starting port, one each and never shared. |
| SolrShard.ShardDataDir | solr-external/mc_solr/solr.py:161-168 | The data directory exists for shard numbers ≥ 1 when the data dir is a directory. It is the shard name inside the data dir. |
| SolrShard.ShardDataDirsDistinct | solr-external/mc_solr/solr.py:161-168 | Different shards never share a data directory. |
| SolrShard.Collections | solr-external/mc_solr/solr.py:106-144 | Succeeds exactly when the home and `collections` directories exist and every collection has `conf`. Otherwise it raises the missing home, missing collections directory or missing conf. The keys are exactly the directories not starting with `_` or `.`, each mapped to its path. |
| SolrShard.SolrCollections | solr-external/mc_solr/solr.py:127-144 | The loop over `os.listdir`, in any order, returns the `Collections` result. |
| SolrShard.LinkConf | solr-external/mc_solr/solr.py:246-252 | An existing `conf` link is kept. An existing non-link raises. A free place gets the link when its directory exists. Nothing already there is lost. |
| SolrShard.LinkConfOnDanglingLink | solr-external/mc_solr/solr.py:247-252 | A dangling `conf` link is not seen by `os.path.exists`, so recreating it fails with EEXIST. |
| SolrShard.LinkConfIdempotent | solr-external/mc_solr/solr.py:246-252 | Linking `conf` again changes nothing. |
| SolrShard.CorePropertiesRoundTrip | solr-external/mc_solr/solr.py:254-267 | Solr reads back from `core.properties` the collection name and instance directory that were written. |
| SolrShard.PropertiesTextRoundTrip | solr-external/mc_solr/solr.py:256-267 | Whatever the comment header, the `name` and `instanceDir` lines read back as written. |
| SolrShard.CoreProperties | solr-external/mc_solr/solr.py:256-267 | The text written starts with the autogenerated-file comment and ends with a newline. `CorePropertiesRoundTrip` states that Solr reads back the name and instance directory. |
| SolrShard.UpdateCollection | solr-external/mc_solr/solr.py:236-267 | A collection without `conf` raises. Otherwise the shard gets the collection's directory, a `conf` link and a `core.properties` with the collection's name and directory. A `conf` link created by the call points to the collection's `conf`. Nothing already there is lost. |
| SolrShard.UpdateAll | solr-external/mc_solr/solr.py:234-267 | After updating collections in order, every one of them has its directory, `conf` link and `core.properties`. |
| SolrShard.UpdateAllStops | solr-external/mc_solr/solr.py:234-267 | The first failing collection ends the loop with its error. |
| SolrShard.UpdateOne | solr-external/mc_solr/solr.py:236-267 | One turn of the loop on the filesystem object matches `UpdateCollection`. |
| SolrShard.UpdateCollections | solr-external/mc_solr/solr.py:233-267 | The loop over `sorted(collections.items())` matches `UpdateAll` on the sorted names. |
| SolrShard.UpdateInOrder | solr-external/mc_solr/solr.py:234-267 | The loop over a given name order matches `UpdateAll`. |
| SolrShard.RelinkAsWrittenFailsOnDanglingLink | solr-external/mc_solr/solr.py:283-289 | As written, a dangling link at an item's destination makes `os.symlink` fail with EEXIST. |
| SolrShard.RelinkAsWritten | solr-external/mc_solr/solr.py:277-289 | As written, a missing source raises, and so does an existing destination that is not a link. On success the destination links to the source and nothing else changes. |
| SolrShard.Relink | solr-external/mc_solr/solr.py:276-289 | Succeeds exactly when the source exists and the destination is a link, or is free in an existing directory. A missing source or a non-link destination raises. On success the destination links to the source, and nothing else changes. |
| SolrShard.RelinkAgreesWithCode | solr-external/mc_solr/solr.py:283-289 | Except for a dangling link at the destination, the corrected relink does what the code does. |
| SolrShard.RelinkAllAgreesWithCode | solr-external/mc_solr/solr.py:276-311 | For distinct items and no dangling link at any item's place, the link loop as written gives exactly the intended loop's state and outcome. |
| SolrShard.RelinkAllAsWrittenFailsOnDanglingLink | solr-external/mc_solr/solr.py:276-311 | A dangling link at any item's place makes the link loop as written raise. |
| SolrShard.RelinkAllAsWritten | solr-external/mc_solr/solr.py:276-311 | As written, a successful link loop keeps every file and directory and leaves a link at each item's place. `RelinkAllAgreesWithCode` relates it to the intended loop. |
| SolrShard.ItemLinks | solr-external/mc_solr/solr.py:270-297 | Each item's place in the shard directory links to the item of the same name in the source directory. No other path is linked. |
| SolrShard.RelinkAll | solr-external/mc_solr/solr.py:276-311 | A successful link loop adds exactly the items' links and keeps everything else. |
| SolrShard.RelinkAllSucceeds | solr-external/mc_solr/solr.py:276-311 | The link loop succeeds exactly when every item's source exists and its place holds a link or is free in a directory. |
| SolrShard.RelinkAllIdempotent | solr-external/mc_solr/solr.py:281-289 | Recreating the links a second time succeeds and changes nothing. |
| SolrShard.RelinkAllStops | solr-external/mc_solr/solr.py:276-311 | The first failing item ends the loop with its error. |
| SolrShard.RelinkItem | solr-external/mc_solr/solr.py:277-289 | One item on the filesystem object matches `Relink`. |
| SolrShard.LinkItems | solr-external/mc_solr/solr.py:276-311 | The link loop on the filesystem object matches `RelinkAll`. |
| ShardLaunch.Definitions | solr-external/mc_solr/solr.py:353-366 | One `-Dname=value` option per property, in order. |
| ShardLaunch.PropertyValues | solr-external/mc_solr/solr.py:353-366 | One value per system property of the command line. |
| ShardLaunch.PropertyNamesWellFormed | solr-external/mc_solr/solr.py:353-366 | No property name holds `=`, and none is given twice. |
| ShardLaunch.DefinitionsBeforeJar | solr-external/mc_solr/solr.py:349-368 | Definitions with distinct names after options without `-jar` give each name its value, and the JVM runs the jar given. |
| ShardLaunch.JvmOptions | solr-external/mc_solr/solr.py:350-367 | The options are `-server` and `-Xmx<heap>`, then one `-Dname=value` per property in order, then `-jar` and the jar. |
| ShardLaunch.LaunchArgs | solr-external/mc_solr/solr.py:349-367 | The command is `java`, then MC_SOLR_JVM_OPTS unchanged, then the shard's options, and it ends with `-jar` and the distribution's `start.jar`. |
| ShardLaunch.JvmOptionsMeaning | solr-external/mc_solr/solr.py:349-368 | Whatever JVM options come first (short of `-jar`), each shard property has its value and the given jar runs. |
| ShardLaunch.LaunchArgsMeaning | solr-external/mc_solr/solr.py:349-368 | The command starts with `java`. Every property has the value `run_solr_shard` means for it. The jar run is the distribution's `example/start.jar`. |
| ShardLaunch.JvmSeesProperty | solr-external/mc_solr/solr.py:349-368 | The same, for one property. |
| ShardLaunch.JvmSeesShardSettings | solr-external/mc_solr/solr.py:354-366 | `jetty.port` is the shard port. `jetty.home`, `solr.solr.home` and `solr.data.dir` are the shard data directory. `host` is the shard name. `zkHost` and `numShards` are as given. |
| ShardLaunch.EnsureInstalled | solr-external/mc_solr/solr.py:210-212 | When Solr is already installed, nothing changes. |
| ShardLaunch.EnsureInstalledInstalls | solr-external/mc_solr/solr.py:210-212 | When it does not raise, Solr is installed afterwards. |
| ShardLaunch.UpdateShardCollections | solr-external/mc_solr/solr.py:232-267 | On success, every collection of the Solr home has its directory, `conf` link and `core.properties` in the shard. |
| ShardLaunch.ItemsDisjoint | solr-external/mc_solr/solr.py:270-297 | No configuration item is also a library item. |
| ShardLaunch.LinkShard | solr-external/mc_solr/solr.py:269-311 | Each configuration item links to the Solr home's and each library item to the distribution's `example` entry. Files, directories and links elsewhere are unchanged. |
| ShardLaunch.LinkShardAgreesWithCode | solr-external/mc_solr/solr.py:269-311 | Without a dangling link at any configuration or library item's place, both link loops as written give exactly the intended state and outcome. With one, they raise. |
| ShardLaunch.LinkShardAsWritten | solr-external/mc_solr/solr.py:269-311 | As written, both link loops on success keep every file and directory and leave a link at each library item's place. |
| ShardLaunch.LinkShardKeepsCollections | solr-external/mc_solr/solr.py:269-311 | The item links leave each collection's `conf` link and `core.properties` in place. |
| ShardLaunch.PopulateShard | solr-external/mc_solr/solr.py:232-311 | On success, the collections and both kinds of link are all in place together. |
| ShardLaunch.LaunchChecks | solr-external/mc_solr/solr.py:313-345 | The checks pass exactly when the Jetty home, `log4j.properties`, `start.jar` and webapp directory exist and the shard port is closed. |
| ShardLaunch.PrepareShard | solr-external/mc_solr/solr.py:205-230 | A negative shard number or count raises. Success needs shard number ≥ 1, and leaves the home and the shard data directory as directories. |
| ShardLaunch.Prepare | solr-external/mc_solr/solr.py:205-230 | The step-by-step start of `run_solr_shard` matches `PrepareShard`. The argument checks change nothing. |
| ShardLaunch.ShardRun | solr-external/mc_solr/solr.py:194-345 | A negative shard number or count raises, and so does shard number 0. Reaching the JVM start needs a closed shard port. The tree stays well formed. |
| ShardLaunch.ShardCountOnlyChecked | solr-external/mc_solr/solr.py:205-208 | Any shard count that is not negative, 0 included, prepares and runs the shard exactly as a count of 0 does: the count is only checked for being negative. |
| ShardLaunch.ShardRunSetsUpShard | solr-external/mc_solr/solr.py:232-311 | When Solr is about to start, the shard's configuration and library links point where they should. Every collection of the Solr home has its `conf` link and `core.properties`. |
| ShardLaunch.Populate | solr-external/mc_solr/solr.py:232-311 | The collections loop and the two link loops on the filesystem object match `PopulateShard`. |
| ShardLaunch.RunSolrShard | solr-external/mc_solr/solr.py:194-368 | The step-by-step `run_solr_shard` matches `ShardRun`. When it gets that far, `java` is started with `LaunchArgs`. |
| QueryReport.Pairs | python_scripts/solr_query_immigrant.py:78 | `zip(flat[0::2], flat[1::2])`: half as many pairs as elements, each an even-position label with the element after it. |
| QueryReport.DictOf | python_scripts/solr_query_immigrant.py:36 | `dict(pairs)` has exactly the labels of the pairs as keys. |
| QueryReport.DictOfKeepsLast | python_scripts/solr_query_immigrant.py:36 | A repeated label keeps the value of its last pair. |
| QueryReport.FacetCounts | python_scripts/solr_query_immigrant.py:128 | Every key is a label at an even position of Solr's flat list. `FacetCountsMeaning` gives the full key set and the values. |
| QueryReport.FacetCountsMeaning | python_scripts/solr_query_immigrant.py:128 | The keys are exactly the even-position labels with a value after them, so a trailing label is dropped. Each label maps to the count after its last occurrence. |
| QueryReport.TitleFilters | python_scripts/solr_query_immigrant.py:81-83 | The list starts with exactly `field_type:st` and `publish_date:[2012-01-01T00:00:00Z TO NOW]`, then holds the query's own filters unchanged. |
| QueryReport.JoinParam | python_scripts/solr_query_immigrant.py:110 | The join form of a filter starts with the join prefix `{!join from=stories_id to=stories_id}`, or with `-` and then the prefix. It is negated exactly when the filter is. |
| QueryReport.JoinParamRoundTrip | python_scripts/solr_query_immigrant.py:110 | A filter can be recovered from its join form. |
| QueryReport.JoinParams | python_scripts/solr_query_immigrant.py:110-111 | The rewriting keeps the length and order, and rewrites each filter by itself. |
| QueryReport.JoinParamsRoundTrip | python_scripts/solr_query_immigrant.py:110-111 | The whole filter list can be recovered from its join form. |
| QueryReport.BodyFilters | python_scripts/solr_query_immigrant.py:107-113 | The list starts with exactly `field_type:ss`, `publish_date:[2012-01-01T00:00:00Z TO NOW]` and `sentence:"illegal immigrant" OR sentence:"illegal immigrants"`, then holds the join forms of the query's filters, in order. |
| QueryReport.Split | python_scripts/solr_query_immigrant.py:141 | `split(":")` gives at least one piece, and no piece holds the separator. |
| QueryReport.SplitJoin | python_scripts/solr_query_immigrant.py:141 | Joining the pieces gives the string back. |
| QueryReport.SplitSingle | python_scripts/solr_query_immigrant.py:141-143 | A string splits into one piece (so `str_tmp[1]` raises) exactly when it holds no separator. |
| QueryReport.StoryInRangeMeaning | python_scripts/solr_query_immigrant.py:131-132 | A document is an in-range story exactly when its type is `st` and its date is not before `2012-01-01T00:00:00Z` in string order. |
| QueryReport.StoryInRangeUpwardClosed | python_scripts/solr_query_immigrant.py:131-132 | A later date of an in-range story is still in range. |
| QueryReport.IsStoryInRange | python_scripts/solr_query_immigrant.py:131-132 | It raises `KeyError` exactly when `field_type` is missing, or the type is `st` and `publish_date` is missing. A true answer means the type is `st`. |
| QueryReport.DocMatchesNegation | python_scripts/solr_query_immigrant.py:134-157 | A leading `-` inverts the match and keeps the errors. |
| QueryReport.DocMatchesFieldWord | python_scripts/solr_query_immigrant.py:141-152 | A `field:word` query on a document with that field answers the word search on the field. When the word is not a valid pattern, it raises `re.error` instead. |
| QueryReport.DocMatches | python_scripts/solr_query_immigrant.py:134-157 | An empty query raises `IndexError`. A `KeyError` names a field the document lacks. |
| QueryReport.Keep | python_scripts/solr_query_immigrant.py:166 | `filter` succeeds exactly when the predicate raises on no document. It keeps exactly the accepted documents, and otherwise raises the first exception. |
| QueryReport.Select | python_scripts/solr_query_immigrant.py:165-175 | The reference selection holds exactly the documents that are in-range stories matching every query. |
| QueryReport.KeepStoriesIsSelect | python_scripts/solr_query_immigrant.py:166 | The story filter gives the selection for no queries. |
| QueryReport.KeepNarrowsSelect | python_scripts/solr_query_immigrant.py:170-171 | One more pass narrows the selection by its query. |
| QueryReport.FilteredIsSelect | python_scripts/solr_query_immigrant.py:165-171 | When nothing raises, the loop keeps, in order, exactly the selected documents. |
| QueryReport.FilteredMeaning | python_scripts/solr_query_immigrant.py:165-171 | The result holds exactly the input's in-range stories that match every query. |
| QueryReport.Filtered | python_scripts/solr_query_immigrant.py:165-171 | Every document kept is an in-range story of the input. The loop never raises `TypeError`. `FilteredMeaning` states the full selection. |
| QueryReport.FilterOrderIrrelevant | python_scripts/solr_query_immigrant.py:170-171 | Applying the same queries in another order, or repeated, gives the same documents in the same order. |
| QueryReport.FilteredStops | python_scripts/solr_query_immigrant.py:170-171 | Once a pass raises, the loop ends with that exception. |
| QueryReport.Month | python_scripts/solr_query_immigrant.py:161 | `date[:7]` is the prefix of the date that is seven characters long, or the whole date when it is shorter. |
| QueryReport.Months | python_scripts/solr_query_immigrant.py:160-161 | Every document's month, in order. It raises `KeyError('publish_date')` exactly when some document lacks a date. |
| QueryReport.Counter | python_scripts/solr_query_immigrant.py:162 | `Counter(xs)` has exactly the elements of `xs` as keys, each with its number of occurrences. |
| QueryReport.CounterTotal | python_scripts/solr_query_immigrant.py:162 | The counts add up to the number of elements. |
| QueryReport.CountByMonthMeaning | python_scripts/solr_query_immigrant.py:159-162 | The buckets are exactly the months that occur. Each holds the number of documents of that month, and the counts add up to the number of documents. |
| QueryReport.CountByMonth | python_scripts/solr_query_immigrant.py:159-162 | It can only raise `KeyError('publish_date')`. Every month counted has at least one document and at most seven characters. |
| QueryReport.CountsByFiltersMeaning | python_scripts/solr_query_immigrant.py:165-175 | Once the filters pass, counting never raises, and the counts add up to the number of documents kept. |
| QueryReport.CountsByFilters | python_scripts/solr_query_immigrant.py:165-175 | Every exception comes from the filters: once they pass, counting by month never raises. |
| QueryReport.CountByFilters | python_scripts/solr_query_immigrant.py:165-175 | The loop that reassigns `query_docs` returns the filtered documents counted by month, or the first exception. |
| QueryReport.CountsToDbStyle | python_scripts/solr_query_immigrant.py:40-55 | It raises `ZeroDivisionError` exactly when the counts are not empty but sum to 0. Otherwise there is one record per word, and no word twice. Each record has the word's own count as `raw_stem_count`, the sum of all counts as `total_words`, and factor 1. |
| QueryReport.SumCounts | python_scripts/solr_query_immigrant.py:42 | `sum(counts.values())` taken in any order is the total of the counts. |
| QueryReport.SentenceCopy | python_scripts/solr_query_immigrant.py:184 | Each filter is copied with `title:` replaced by `sentence:`. |
| QueryReport.SentenceCopyWithoutTitle | python_scripts/solr_query_immigrant.py:184 | A query that names no title field is its own copy. |
| Strings.Replace | python_scripts/solr_query_immigrant.py:184 | `str.replace` with a replacement as long as the pattern keeps the length, and with a shorter one never lengthens the string. `ReplaceWithoutOccurrence`, `SentenceCopyWithoutTitle` and `TruncatedFacetKey` state what it does to the strings the script rewrites. |
| QueryReport.FetchQueries | python_scripts/solr_query_immigrant.py:182-184 | The list doubles: the original queries first, then a sentence copy of each in the same order. |
| QueryReport.GetStoriesIds | python_scripts/solr_query_immigrant.py:179-192 | The ids are exactly the union of Solr's answers to every fetch query. |
| QueryReport.RekeyKeepsPending | python_scripts/solr_query_immigrant.py:268-270 | Walking the key list never pops a missing key. Every key still to come is present. |
| QueryReport.RekeyNeverRaises | python_scripts/solr_query_immigrant.py:268-270 | The key rewriting over `counts.keys()` never raises. |
| QueryReport.RekeyKeepsMonthKeys | python_scripts/solr_query_immigrant.py:268-270 | Keys too short to hold the day suffix are left as they are. |
| QueryReport.RekeyAfterCountByFilters | python_scripts/solr_query_immigrant.py:266-270 | On counts from `count_by_month`, the rewriting in `main` changes nothing. |
| QueryReport.RekeyAll | python_scripts/solr_query_immigrant.py:268-270 | It can only raise a `KeyError` for a key of the list walked. A key never walked stays. `RekeyNeverRaises` and `RekeyAfterCountByFilters` state that in `main` it never raises and changes nothing. |
| QueryReport.TruncatedFacetKey | python_scripts/solr_query_immigrant.py:269 | A facet key `YYYY-MM-01T00:00:00Z` becomes its month `YYYY-MM`. |
| QueryReport.Truncated | python_scripts/solr_query_immigrant.py:269 | A string too short to hold `-01T00:00:00Z` is kept as it is. `TruncatedFacetKey` states what it does to a facet key. |
| QueryReport.RekeyCounts | python_scripts/solr_query_immigrant.py:268-270 | The pop-and-reinsert loop gives the rewritten map. |
| Strings.SortedSet | python_scripts/solr_query_immigrant.py:275-277 | `sorted(set)` gives every element once, in strictly increasing string order. |
| QueryReport.Header | python_scripts/solr_query_immigrant.py:275-279 | The header is `query` followed by the sorted union of every row's keys. With no rows, `reduce` raises `TypeError`. |
| QueryReport.HeaderCoversRows | python_scripts/solr_query_immigrant.py:275-289 | Every key of every row, and `query`, is a header column. No column repeats while no count is keyed `query`. |

## Left out

- ExtractTarball: accepts `.tar.gz` names as intended, where the code rejects them. `TarArgsIntendedAgrees` states that nothing else differs.
- InstallRun: uses the intended solr.war step (unzip), where the code raises for every distribution shipping solr.war. `InstallRunAsWritten` is the code as written, and `InstallRunAsWrittenAgrees` states the only difference.
- InstallLocked: as InstallRun, for the steps after the lock. `InstallLockedAsWritten` is the code as written.
- InstallSolr: matches the intended `InstallRun`, not `InstallRunAsWritten`.
- RelinkAll: removes a dangling link at an item's place before relinking, where the code raises EEXIST. `RelinkAllAsWritten` is the code as written, and `RelinkAllAgreesWithCode` states the only difference.
- RelinkAllSucceeds: is about the intended `RelinkAll`. For the code as written, it also needs no dangling link at any item's place (`RelinkAllAsWrittenFailsOnDanglingLink`).
- RelinkItem: is the intended step (`os.path.lexists`), not the code's `os.path.exists`.
- LinkItems: matches the intended `RelinkAll`.
- EnsureInstalled: installs through the intended `InstallRun`.
- LinkShard: uses the intended link loops. `LinkShardAsWritten` is the code as written, and `LinkShardAgreesWithCode` states the only difference.
- PopulateShard: uses the intended `LinkShard`.
- PrepareShard: installs through the intended `InstallRun`.
- Prepare: matches `PrepareShard`, so it also installs through the intended `InstallRun`.
- Populate: matches `PopulateShard`, so it also uses the intended link loops.
- ShardRun: uses the intended installation and link loops. With solr.war in the tarball or a dangling item link, `run_solr_shard` as written raises where `ShardRun` goes on. No as-written `ShardRun` is stated: the two agreement lemmas above cover its parts.
- RunSolrShard: matches `ShardRun`.
- Subprocesses and the network (`curl`, `tar`, `unzip`, `java`, `run_solr_zkcli`) are outcomes given as parameters. The bytes downloaded and the contents of the unpacked files are not tracked. `tempfile.mkdtemp` is a given directory.
- The two unbounded waits of `run_solr_shard`, for the ZooKeeper port and for the "config updated" marker (solr-external/mc_solr/solr.py:327-338), are left out. The model goes straight on to the port check. `mc_solr.zookeeper` is not part of this model.
- `run_solr_shard` installs with the default distribution directory and version whatever arguments it was given (solr-external/mc_solr/solr.py:210-212). The model mirrors this with a separate `defaultDist` and `Config.version`.
- Cross-process concurrency is not modelled. Other processes act only while `lock_file` sleeps, by removing or creating regular files.
- Utils.LockRun: the wait is bounded by the length of the given schedule. A schedule that runs out ends in `StillWaiting` rather than waiting for ever.
- Time is the list of clock readings `lock_file` sees. `time.sleep` itself is not modelled.
- After a failure in the middle of `run_solr_shard` or `install_solr`, the filesystem methods leave whatever earlier steps did, as the code does. The functions state the final state only for successful runs and the failures named in the lemmas.
- Symbolic links are followed one level by `isfile`, `isdir` and `exists`. Paths are not resolved through intermediate symlinked directories. `os.path.abspath`, `relpath` and the `__file__`-based lookup of the Solr home are not modelled: the Solr home and the data directory are given as absolute paths.
- SolrShard.Collections: the `ConfMissing` error does not carry the collection's name.
- SolrShard.LinkConf keeps an existing `conf` link whatever it points to, as the code does. It does not check the link's target.
- SolrInstall.Config.Valid requires the lock and marker names to differ from each other and from `README.txt`. `mc_solr.constants` is not part of this model.
- `create_logger`, `download_file`, `fqdn`, `process_with_pid_is_running`, `gracefully_kill_child_process`, `relative_symlink`, `resolve_absolute_path` and `tcp_port_is_open` involve logging, signals, sockets or host paths. They are left out, and the port probe is a parameter.
- In the query report, the pysolr searches (with their facet parameters), `fetch_from_stories_ids`, `download_and_pickle`, `unpickle_and_upload`, pickling, the CSV file and the `print` statements are left out. The `assert result.hits` checks (python_scripts/solr_query_immigrant.py:100 and 206) belong to those searches.
- The case-insensitive `\bclause\b` regular-expression search is a parameter `wordMatch`. It answers `None` for a clause that is not a valid pattern, which raises `re.error`; which clauses those are is not modelled. So is Solr's answer to a filter list (`storiesIdsFor`).
- `main`'s loop over the four queries, the `str(list)` row labels and `writerows` are left out. The per-query counts, the key rewriting and the header are modelled.
- Dictionary iteration order (`counts.keys()`, `iteritems()`) is a parameter or any order.
- The float `stem_count` of `counts_to_db_style` is left out. The `ZeroDivisionError` its division raises on a total of 0 is modelled.
- QueryReport.FilterOrderIrrelevant: stated only when both orders run without raising. Which exception comes first can depend on the order.

## Findings

| source | as written | input that shows it | evidently intended | confidence | as-written member | corrected member |
|---|---|---|---|---|---|---|
| solr/mc_solr/utils.py:101-103 | The extension is only the last suffix, so the `.tar.gz` alternative never matches. | The archive `solr-4.6.0.tar.gz` has extension `.gz` and is rejected. | `.tar.gz` archives are extracted with `-zxf`, as the docstring says. | not executed | Utils.TarGzArchiveRejected | Utils.TarArgsIntendedAccepts |
| solr-external/mc_solr/solr.py:88-93 | `solr.war` is handed to `extract_tarball_to_directory`. | Any distribution with `example/webapps/solr.war` (every Solr 4) is rejected with extension `.war`. | The web archive is unzipped, with `extract_zip_to_directory`, which accepts `.war`. | not executed | SolrInstall.WarFixupAsWrittenAlwaysFails | SolrInstall.WarFixup |
| solr-external/mc_solr/solr.py:283-289 | An existing destination is detected with `os.path.exists`, which is false for a dangling symlink. | A library link left dangling after its target was removed: the link is not unlinked and `os.symlink` raises EEXIST. | Whatever link is at the destination, dangling or not, is recreated. | not executed | SolrShard.RelinkAsWrittenFailsOnDanglingLink | SolrShard.Relink |
