/**
 * `run_solr_shard` in `solr-external/mc_solr/solr.py`: the checks and
 * filesystem changes it makes before starting Solr, and the command line
 * it starts the JVM with, together with what the JVM makes of that command
 * line.
 */
module ShardLaunch {
  import opened Wrappers
  import opened Strings
  import opened Posix
  import opened FileSystem
  import opened Utils
  import opened SolrInstall
  import opened SolrShard

  /**
   * The arguments of one `run_solr_shard` call; `dataDir` is the absolute
   * data directory and `dist` the result of `distribution_path(dist_directory)`.
   */
  datatype ShardConfig = ShardConfig(
    shardNum: int,
    shardCount: int,
    startingPort: int,
    dataDir: Path,
    heapSize: string,
    dist: Path,
    version: string,
    zkHost: string,
    zkPort: int)

  // -----------------------------------------------------------------------
  // The command line
  // -----------------------------------------------------------------------

  /** A `-Dname=value` option. */
  function Define(name: string, value: string): string {
    "-D" + name + "=" + value
  }

  /** One `-Dname=value` option per name, in order. */
  function Definitions(names: seq<string>, values: seq<string>): (d: seq<string>)
    requires |names| == |values|
    ensures |d| == |names|
    ensures forall i | 0 <= i < |d| :: d[i] == Define(names[i], values[i])
    decreases |names|
  {
    if names == [] then [] else [Define(names[0], values[0])] + Definitions(names[1..], values[1..])
  }

  /** The system properties the shard is started with, in the order they are given. */
  function PropertyNames(): seq<string> {
    [
    "java.util.logging.config.file",
    "jetty.home",
    "jetty.port",
    "host",
    "solr.solr.home",
    "solr.data.dir",
    "mediacloud.solr_dist_dir",
    "mediacloud.solr_webapp_dir",
    "mediacloud.luceneMatchVersion",
    "zkHost",
    "numShards"]
  }

  function ShardDataDirPath(sc: ShardConfig): Path
    requires sc.shardNum >= 1
  {
    sc.dataDir + [ShardName(sc.shardNum).value]
  }

  function StartJarPath(sc: ShardConfig): Path {
    SolrPath(sc.dist, sc.version) + ["example", "start.jar"]
  }

  function WebappPath(sc: ShardConfig): Path {
    SolrPath(sc.dist, sc.version) + ["example", "solr-webapp"]
  }

  function Log4jPath(home: Path): Path {
    home + ["resources", "log4j.properties"]
  }

  /** The value of each of the `PropertyNames()`. */
  function PropertyValues(c: Config, sc: ShardConfig, home: Path): (v: seq<string>)
    requires sc.shardNum >= 1
    ensures |v| == |PropertyNames()|
  {
    var dataDir := Render(ShardDataDirPath(sc));
    [ "file://" + Render(Log4jPath(home)),
      dataDir,
      IntToString(ShardPort(sc.shardNum, sc.startingPort).value),
      ShardName(sc.shardNum).value,
      dataDir,
      dataDir,
      Render(SolrPath(sc.dist, sc.version)),
      Render(WebappPath(sc)),
      c.luceneMatchVersion,
      sc.zkHost + ":" + IntToString(sc.zkPort),
      IntToString(sc.shardCount) ]
  }

  /** The options after MC_SOLR_JVM_OPTS: the server VM, the heap limit, the properties and the jar. */
  function JvmOptions(heapSize: string, names: seq<string>, values: seq<string>, jar: string): (o: seq<string>)
    requires |names| == |values|
    ensures |o| == |names| + 4
    ensures o[..2] == ["-server", "-Xmx" + heapSize] && o[|o| - 2..] == ["-jar", jar]
    ensures forall i | 0 <= i < |names| :: o[i + 2] == Define(names[i], values[i])
  {
    ["-server", "-Xmx" + heapSize] + Definitions(names, values) + ["-jar", jar]
  }

  function ShardOptions(c: Config, sc: ShardConfig, home: Path): seq<string>
    requires sc.shardNum >= 1
  {
    JvmOptions(sc.heapSize, PropertyNames(), PropertyValues(c, sc, home), Render(StartJarPath(sc)))
  }

  /** The command line `java` is started with. */
  function LaunchArgs(c: Config, sc: ShardConfig, home: Path): (a: seq<string>)
    requires sc.shardNum >= 1
    ensures |a| == |c.jvmOpts| + |PropertyNames()| + 5
    ensures a[0] == "java" && a[1..|c.jvmOpts| + 1] == c.jvmOpts
    ensures a[|a| - 2..] == ["-jar", Render(StartJarPath(sc))]
  {
    ["java"] + c.jvmOpts + ShardOptions(c, sc, home)
  }

  // -----------------------------------------------------------------------
  // What the JVM makes of the command line
  // -----------------------------------------------------------------------

  /**
   * The value the JVM gives the system property `name` from its options
   * `args` (the program name excluded): the last `-Dname=value` before `-jar`.
   */
  function JavaProperty(args: seq<string>, name: string): Option<string>
    decreases |args|
  {
    if args == [] || args[0] == "-jar" then None
    else
      var later := JavaProperty(args[1..], name);
      if later.Some? then later
      else if StartsWith(args[0], "-D" + name + "=") then Some(args[0][|name| + 3..])
      else None
  }

  /** The jar the JVM runs: the argument after the first `-jar`. */
  function JarOf(args: seq<string>): Option<string>
    decreases |args|
  {
    if |args| < 2 then None
    else if args[0] == "-jar" then Some(args[1])
    else JarOf(args[1..])
  }

  lemma DefineIsNotJar(name: string, value: string)
    ensures Define(name, value) != "-jar"
  {
    assert Define(name, value)[1] == 'D';
  }

  /** A `-Dname=` prefix matches the definition of that name and of no other one, as names hold no '='. */
  lemma DefineMatches(name: string, other: string, value: string)
    requires '=' !in name && '=' !in other
    ensures StartsWith(Define(other, value), "-D" + name + "=") <==> name == other
    ensures Define(name, value)[|name| + 3..] == value
  {
    var d, p := Define(other, value), "-D" + name + "=";
    assert |p| == |name| + 3;
    assert d[2..2 + |other|] == other && d[2 + |other|] == '=';
    assert p[2..2 + |name|] == name && p[2 + |name|] == '=';
    if name == other {
      assert d[..|p|] == p;
    }
  }

  /** Definitions of other names, up to `-jar`, leave a name undefined. */
  lemma {:induction false} NoDefinitionOf(names: seq<string>, values: seq<string>, tail: seq<string>, name: string)
    requires |names| == |values| && tail != [] && tail[0] == "-jar"
    requires '=' !in name && forall j | 0 <= j < |names| :: '=' !in names[j]
    requires name !in names
    ensures JavaProperty(Definitions(names, values) + tail, name) == None
    decreases |names|
  {
    var args := Definitions(names, values) + tail;
    if names == [] {
      assert args == tail;
    } else {
      assert args[0] == Define(names[0], values[0]);
      assert args[1..] == Definitions(names[1..], values[1..]) + tail;
      DefineIsNotJar(names[0], values[0]);
      assert names[0] in names;
      DefineMatches(name, names[0], values[0]);
      NoDefinitionOf(names[1..], values[1..], tail, name);
    }
  }

  /** In definitions followed by `-jar`, a name gets the value of its last definition. */
  lemma {:induction false} PropertyOfDefinitions(names: seq<string>, values: seq<string>, tail: seq<string>, i: nat)
    requires |names| == |values| && tail != [] && tail[0] == "-jar"
    requires forall j | 0 <= j < |names| :: '=' !in names[j]
    requires i < |names| && names[i] !in names[i + 1..]
    ensures JavaProperty(Definitions(names, values) + tail, names[i]) == Some(values[i])
    decreases |names|
  {
    var args := Definitions(names, values) + tail;
    assert args[0] == Define(names[0], values[0]);
    assert args[1..] == Definitions(names[1..], values[1..]) + tail;
    DefineIsNotJar(names[0], values[0]);
    if i == 0 {
      NoDefinitionOf(names[1..], values[1..], tail, names[0]);
      DefineMatches(names[0], names[0], values[0]);
    } else {
      assert names[1..][i - 1] == names[i] && names[1..][i..] == names[i + 1..];
      PropertyOfDefinitions(names[1..], values[1..], tail, i - 1);
    }
  }

  /** Options before the shard's own cannot change what the shard's own set. */
  lemma {:induction false} JavaPropertyAfterOptions(opts: seq<string>, rest: seq<string>, name: string)
    requires "-jar" !in opts && JavaProperty(rest, name).Some?
    ensures JavaProperty(opts + rest, name) == JavaProperty(rest, name)
    decreases |opts|
  {
    if opts == [] {
      assert opts + rest == rest;
    } else {
      assert opts[0] in opts;
      assert (opts + rest)[0] == opts[0] && (opts + rest)[1..] == opts[1..] + rest;
      assert "-jar" !in opts[1..] by {
        forall x | x in opts[1..] ensures x in opts { }
      }
      JavaPropertyAfterOptions(opts[1..], rest, name);
    }
  }

  lemma {:induction false} JarOfAfterOptions(opts: seq<string>, rest: seq<string>)
    requires "-jar" !in opts && JarOf(rest).Some?
    ensures JarOf(opts + rest) == JarOf(rest)
    decreases |opts|
  {
    if opts == [] {
      assert opts + rest == rest;
    } else {
      assert opts[0] in opts;
      assert |rest| >= 2;
      assert (opts + rest)[0] == opts[0] && (opts + rest)[1..] == opts[1..] + rest;
      assert "-jar" !in opts[1..] by {
        forall x | x in opts[1..] ensures x in opts { }
      }
      JarOfAfterOptions(opts[1..], rest);
    }
  }

  /** No property name holds an '='. */
  lemma NamesHoldNoEquals()
    ensures forall i | 0 <= i < |PropertyNames()| :: '=' !in PropertyNames()[i]
  {
    FirstNamesHoldNoEquals();
    MiddleNamesHoldNoEquals();
    LastNamesHoldNoEquals();
  }

  // `NamesHoldNoEquals` in three parts, so that each checks only a few of the eleven literal names.
  lemma FirstNamesHoldNoEquals()
    ensures forall i | 0 <= i < 4 :: '=' !in PropertyNames()[i]
  {
  }

  lemma MiddleNamesHoldNoEquals()
    ensures forall i | 4 <= i < 8 :: '=' !in PropertyNames()[i]
  {
  }

  lemma LastNamesHoldNoEquals()
    ensures forall i | 8 <= i < 11 :: '=' !in PropertyNames()[i]
  {
  }

  /** No property name is given twice. */
  lemma NamesDistinct()
    ensures forall i | 0 <= i < |PropertyNames()| :: PropertyNames()[i] !in PropertyNames()[i + 1..]
  {
    forall i | 0 <= i < |PropertyNames()|
      ensures PropertyNames()[i] !in PropertyNames()[i + 1..]
    {
      forall j | i < j < |PropertyNames()| ensures PropertyNames()[j] != PropertyNames()[i] { }
    }
  }

  /** The property names hold no '=' and none is given twice. */
  lemma PropertyNamesWellFormed()
    ensures forall i | 0 <= i < |PropertyNames()| :: '=' !in PropertyNames()[i]
    ensures forall i | 0 <= i < |PropertyNames()| :: PropertyNames()[i] !in PropertyNames()[i + 1..]
  {
    NamesHoldNoEquals();
    NamesDistinct();
  }

  /**
   * Options without `-jar`, then definitions with distinct names, then
   * `-jar` and a jar: each name has its defined value and the jar is run.
   */
  lemma DefinitionsBeforeJar(pre: seq<string>, names: seq<string>, values: seq<string>, jar: string)
    requires "-jar" !in pre && |names| == |values|
    requires forall i | 0 <= i < |names| :: '=' !in names[i] && names[i] !in names[i + 1..]
    ensures forall i | 0 <= i < |names| :: JavaProperty(pre + (Definitions(names, values) + ["-jar", jar]), names[i]) == Some(values[i])
    ensures JarOf(pre + (Definitions(names, values) + ["-jar", jar])) == Some(jar)
  {
    var defs := Definitions(names, values);
    var tail := ["-jar", jar];
    forall i | 0 <= i < |names|
      ensures JavaProperty(pre + (defs + tail), names[i]) == Some(values[i])
    {
      PropertyOfDefinitions(names, values, tail, i);
      JavaPropertyAfterOptions(pre, defs + tail, names[i]);
    }
    assert "-jar" !in defs by {
      forall x | x in defs ensures x != "-jar" {
        var i :| 0 <= i < |defs| && defs[i] == x;
        DefineIsNotJar(names[i], values[i]);
      }
    }
    assert JarOf(tail) == Some(jar);
    JarOfAfterOptions(defs, tail);
    JarOfAfterOptions(pre, defs + tail);
  }

  /**
   * Whatever options come first (short of a `-jar`), each property of the
   * shard's options has its value and the jar is run.
   */
  lemma JvmOptionsMeaning(jvmOpts: seq<string>, heapSize: string, names: seq<string>, values: seq<string>, jar: string)
    requires "-jar" !in jvmOpts && |names| == |values|
    requires forall i | 0 <= i < |names| :: '=' !in names[i] && names[i] !in names[i + 1..]
    ensures forall i | 0 <= i < |names| :: JavaProperty(jvmOpts + JvmOptions(heapSize, names, values, jar), names[i]) == Some(values[i])
    ensures JarOf(jvmOpts + JvmOptions(heapSize, names, values, jar)) == Some(jar)
  {
    var pre := jvmOpts + ["-server", "-Xmx" + heapSize];
    var defs := Definitions(names, values);
    assert jvmOpts + JvmOptions(heapSize, names, values, jar) == pre + (defs + ["-jar", jar]);
    assert ("-Xmx" + heapSize)[1] == 'X';
    assert "-jar" !in pre;
    DefinitionsBeforeJar(pre, names, values, jar);
  }

  /** Dropping the program name `java` leaves MC_SOLR_JVM_OPTS followed by the shard options; used by `LaunchArgsMeaning`. */
  lemma DropProgram<T>(x: T, a: seq<T>, b: seq<T>)
    ensures ([x] + a + b)[0] == x && ([x] + a + b)[1..] == a + b
  {
  }

  /**
   * What the JVM sees: every system property the shard is given has the
   * value `run_solr_shard` meant for it, whatever MC_SOLR_JVM_OPTS holds
   * (short of a `-jar`), and the jar run is the distribution's `start.jar`.
   */
  lemma LaunchArgsMeaning(c: Config, sc: ShardConfig, home: Path)
    requires sc.shardNum >= 1 && "-jar" !in c.jvmOpts
    ensures LaunchArgs(c, sc, home)[0] == "java"
    ensures forall i | 0 <= i < |PropertyNames()| ::
              JavaProperty(LaunchArgs(c, sc, home)[1..], PropertyNames()[i]) == Some(PropertyValues(c, sc, home)[i])
    ensures JarOf(LaunchArgs(c, sc, home)[1..]) == Some(Render(StartJarPath(sc)))
  {
    DropProgram("java", c.jvmOpts, ShardOptions(c, sc, home));
    PropertyNamesWellFormed();
    JvmOptionsMeaning(c.jvmOpts, sc.heapSize, PropertyNames(), PropertyValues(c, sc, home), Render(StartJarPath(sc)));
  }

  /** The property at position `i` of `PropertyNames()`, as the JVM sees it. */
  lemma JvmSeesProperty(c: Config, sc: ShardConfig, home: Path, i: nat)
    requires sc.shardNum >= 1 && "-jar" !in c.jvmOpts && i < |PropertyNames()|
    ensures JavaProperty(LaunchArgs(c, sc, home)[1..], PropertyNames()[i]) == Some(PropertyValues(c, sc, home)[i])
  {
    LaunchArgsMeaning(c, sc, home);
  }

  /**
   * The shard's own settings as the JVM sees them: Jetty listens on the
   * shard's port, Jetty's home and Solr's home and data directory are the
   * shard's data directory, `host` is the shard's name, and ZooKeeper and
   * the shard count are as given.
   */
  lemma JvmSeesShardSettings(c: Config, sc: ShardConfig, home: Path)
    requires sc.shardNum >= 1 && "-jar" !in c.jvmOpts
    ensures var opts := LaunchArgs(c, sc, home)[1..];
            var dataDir := Render(sc.dataDir + [ShardName(sc.shardNum).value]);
            && JavaProperty(opts, "jetty.port") == Some(IntToString(ShardPort(sc.shardNum, sc.startingPort).value))
            && JavaProperty(opts, "jetty.home") == Some(dataDir)
            && JavaProperty(opts, "solr.solr.home") == Some(dataDir)
            && JavaProperty(opts, "solr.data.dir") == Some(dataDir)
            && JavaProperty(opts, "host") == Some(ShardName(sc.shardNum).value)
            && JavaProperty(opts, "zkHost") == Some(sc.zkHost + ":" + IntToString(sc.zkPort))
            && JavaProperty(opts, "numShards") == Some(IntToString(sc.shardCount))
  {
    JvmSeesProperty(c, sc, home, 1);
    JvmSeesProperty(c, sc, home, 2);
    JvmSeesProperty(c, sc, home, 3);
    JvmSeesProperty(c, sc, home, 4);
    JvmSeesProperty(c, sc, home, 5);
    JvmSeesProperty(c, sc, home, 9);
    JvmSeesProperty(c, sc, home, 10);
  }

  // -----------------------------------------------------------------------
  // run_solr_shard
  // -----------------------------------------------------------------------

  /** What the outside world does during one `run_solr_shard` call: the installation's world, and which ports are open. */
  datatype ShardEnv = ShardEnv(install: InstallEnv, portOpen: int -> bool)

  /**
   * `if not solr_is_installed(): install_solr()`, both with the default
   * distribution directory and version: the state it leaves when Solr ends
   * up installed, or the error `install_solr` raises.
   */
  function EnsureInstalled(s: FsState, c: Config, dist: Path, env: InstallEnv): (r: Result<FsState, InstallError>)
    ensures InstalledIn(s, c, dist, c.version) ==> r == Ok(s)
    ensures s.Valid() && r.Ok? ==> r.value.Valid()
  {
    var (s1, installed) := IsInstalledRun(s, c, dist, c.version);
    if installed then Ok(s1)
    else
      var run := InstallRun(s1, c, dist, c.version, env);
      if run.1.Err? then Err(run.1.error) else Ok(run.0)
  }

  /** Whichever way `install_solr` succeeds, Solr is installed afterwards. */
  lemma EnsureInstalledInstalls(s: FsState, c: Config, dist: Path, env: InstallEnv)
    requires s.Valid() && c.Valid() && EnsureInstalled(s, c, dist, env).Ok?
    ensures InstalledIn(EnsureInstalled(s, c, dist, env).value, c, dist, c.version)
  {
    var s1 := IsInstalledRun(s, c, dist, c.version).0;
    if !IsInstalledRun(s, c, dist, c.version).1 {
      InstallSucceedsInstalls(s1, c, dist, c.version, env);
    }
  }

  /** Every collection of the Solr home gets its directory, `conf` link and `core.properties` in the shard's data directory. */
  function UpdateShardCollections(s: FsState, home: Path, shardDataDir: Path): (r: Result<FsState, ShardError>)
    ensures r.Ok? ==> Collections(s, home).Ok? && Grows(s, r.value)
    ensures s.Valid() && r.Ok? ==> r.value.Valid()
    ensures s.Valid() && r.Ok? ==> forall name | name in Collections(s, home).value ::
              && r.value.IsDir(CollectionDir(shardDataDir, name))
              && r.value.IsLink(ConfLinkPath(shardDataDir, name))
              && r.value.IsFile(CorePropertiesPath(shardDataDir, name))
  {
    match Collections(s, home)
    case Err(e) => Err(e)
    case Ok(collections) =>
      var names := SortedSet(collections.Keys);
      assert forall name | name in collections :: name in names;
      UpdateAll(s, collections, names, shardDataDir)
  }

  /**
   * The configuration items of the Solr home, then the library items of the
   * distribution's `example` directory, linked into the shard's data
   * directory; nothing outside the data directory's own entries changes.
   */
  function LinkShard(s: FsState, home: Path, shardDataDir: Path, solrPath: Path): (r: Result<FsState, ShardError>)
    ensures r.Ok? ==> r.value.files == s.files && r.value.dirs == s.dirs
    ensures r.Ok? ==> forall q | q in s.links && |q| != |shardDataDir| + 1 :: q in r.value.links && r.value.links[q] == s.links[q]
    ensures s.Valid() && r.Ok? ==> r.value.Valid()
    ensures r.Ok? ==> forall k | k in ConfigItems ::
              shardDataDir + [k] in r.value.links && r.value.links[shardDataDir + [k]] == home + [k]
    ensures r.Ok? ==> forall k | k in LibraryItems ::
              shardDataDir + [k] in r.value.links && r.value.links[shardDataDir + [k]] == solrPath + ["example"] + [k]
  {
    match RelinkAll(s, home, shardDataDir, ConfigItems)
    case Err(e) => Err(e)
    case Ok(s1) =>
      match RelinkAll(s1, solrPath + ["example"], shardDataDir, LibraryItems)
      case Err(e) => Err(e)
      case Ok(s2) =>
        ItemsDisjoint();
        LinksOfItems(s1, s2, home, solrPath + ["example"], shardDataDir, ConfigItems, LibraryItems);
        Ok(s2)
  }

  /** `LinkShard` AS WRITTEN: both loops through `RelinkAllAsWritten`. */
  function LinkShardAsWritten(s: FsState, home: Path, shardDataDir: Path, solrPath: Path): (r: Result<FsState, ShardError>)
    ensures r.Ok? ==> r.value.files == s.files && r.value.dirs == s.dirs
    ensures r.Ok? ==> forall k | k in LibraryItems :: shardDataDir + [k] in r.value.links
  {
    match RelinkAllAsWritten(s, home, shardDataDir, ConfigItems)
    case Err(e) => Err(e)
    case Ok(s1) => RelinkAllAsWritten(s1, solrPath + ["example"], shardDataDir, LibraryItems)
  }

  /**
   * Without a dangling link at any item's place, the code's two link loops
   * do exactly what the intended ones do; with one, they raise.
   */
  lemma LinkShardAgreesWithCode(s: FsState, home: Path, shardDataDir: Path, solrPath: Path)
    requires s.Valid() && home != shardDataDir && solrPath + ["example"] != shardDataDir
    ensures (forall k | k in ConfigItems + LibraryItems :: !Dangling(s, shardDataDir + [k])) ==>
              LinkShardAsWritten(s, home, shardDataDir, solrPath) == LinkShard(s, home, shardDataDir, solrPath)
    ensures (exists k | k in ConfigItems + LibraryItems :: Dangling(s, shardDataDir + [k])) ==>
              LinkShardAsWritten(s, home, shardDataDir, solrPath).Err?
  {
    if forall k | k in ConfigItems + LibraryItems :: !Dangling(s, shardDataDir + [k]) {
      LinkShardAgreesWithoutDangling(s, home, shardDataDir, solrPath);
    } else {
      var k :| k in ConfigItems + LibraryItems && Dangling(s, shardDataDir + [k]);
      LinkShardFailsOnDangling(s, home, shardDataDir, solrPath, k);
    }
  }

  lemma LinkShardAgreesWithoutDangling(s: FsState, home: Path, shardDataDir: Path, solrPath: Path)
    requires s.Valid() && home != shardDataDir && solrPath + ["example"] != shardDataDir
    requires forall k | k in ConfigItems + LibraryItems :: !Dangling(s, shardDataDir + [k])
    ensures LinkShardAsWritten(s, home, shardDataDir, solrPath) == LinkShard(s, home, shardDataDir, solrPath)
  {
    ItemsDisjoint();
    assert Distinct(ConfigItems) && Distinct(LibraryItems);
    RelinkAllAgreesWithCode(s, home, shardDataDir, ConfigItems);
    var r1 := RelinkAll(s, home, shardDataDir, ConfigItems);
    if r1.Ok? {
      forall k | k in LibraryItems ensures !Dangling(r1.value, shardDataDir + [k]) {
        NotDanglingElsewhere(s, home, shardDataDir, ConfigItems, k);
      }
      RelinkAllAgreesWithCode(r1.value, solrPath + ["example"], shardDataDir, LibraryItems);
    }
  }

  lemma LinkShardFailsOnDangling(s: FsState, home: Path, shardDataDir: Path, solrPath: Path, k: string)
    requires s.Valid() && home != shardDataDir && solrPath + ["example"] != shardDataDir
    requires k in ConfigItems + LibraryItems && Dangling(s, shardDataDir + [k])
    ensures LinkShardAsWritten(s, home, shardDataDir, solrPath).Err?
  {
    assert Distinct(ConfigItems) && Distinct(LibraryItems);
    if k in ConfigItems {
      RelinkAllAsWrittenFailsOnDanglingLink(s, home, shardDataDir, ConfigItems, k);
    } else {
      ItemsDisjoint();
      RelinkAllAsWrittenKeepsElsewhere(s, home, shardDataDir, ConfigItems, k);
      var r1 := RelinkAllAsWritten(s, home, shardDataDir, ConfigItems);
      if r1.Ok? {
        RelinkAllAsWrittenFailsOnDanglingLink(r1.value, solrPath + ["example"], shardDataDir, LibraryItems, k);
      }
    }
  }

  /** The shard's data directory gets its collections, then its configuration links, then its library links. */
  function PopulateShard(s: FsState, home: Path, shardDataDir: Path, solrPath: Path): (r: Result<FsState, ShardError>)
    ensures r.Ok? ==> Collections(s, home).Ok?
    ensures s.Valid() && r.Ok? ==> r.value.Valid()
    ensures s.Valid() && r.Ok? ==> forall name | name in Collections(s, home).value ::
              r.value.IsLink(ConfLinkPath(shardDataDir, name)) && r.value.IsFile(CorePropertiesPath(shardDataDir, name))
    ensures r.Ok? ==> forall k | k in ConfigItems ::
              shardDataDir + [k] in r.value.links && r.value.links[shardDataDir + [k]] == home + [k]
    ensures r.Ok? ==> forall k | k in LibraryItems ::
              shardDataDir + [k] in r.value.links && r.value.links[shardDataDir + [k]] == solrPath + ["example"] + [k]
  {
    match UpdateShardCollections(s, home, shardDataDir)
    case Err(e) => Err(e)
    case Ok(s1) =>
      var r := LinkShard(s1, home, shardDataDir, solrPath);
      if r.Ok? then
        LinkShardKeepsCollections(s1, r.value, home, shardDataDir, solrPath);
        r
      else r
  }

  /** The links of the shard's own entries leave each collection's `conf` link and core.properties in place. */
  lemma LinkShardKeepsCollections(s1: FsState, s2: FsState, home: Path, shardDataDir: Path, solrPath: Path)
    requires LinkShard(s1, home, shardDataDir, solrPath) == Ok(s2)
    ensures forall name | s1.IsLink(ConfLinkPath(shardDataDir, name)) :: s2.IsLink(ConfLinkPath(shardDataDir, name))
    ensures forall name | s1.IsFile(CorePropertiesPath(shardDataDir, name)) :: s2.IsFile(CorePropertiesPath(shardDataDir, name))
  {
  }

  /** Links made for `items2` leave those made for the disjoint `items1` alone, and are what they should be. */
  lemma LinksOfItems(s2: FsState, s3: FsState, src1: Path, src2: Path, dst: Path, items1: seq<string>, items2: seq<string>)
    requires forall k | k in items1 :: k !in items2
    requires forall k | k in items1 :: dst + [k] in s2.links && s2.links[dst + [k]] == src1 + [k]
    requires s3 == s2.(links := s2.links + ItemLinks(src2, dst, items2))
    ensures forall k | k in items1 :: dst + [k] in s3.links && s3.links[dst + [k]] == src1 + [k]
    ensures forall k | k in items2 :: dst + [k] in s3.links && s3.links[dst + [k]] == src2 + [k]
  {
    var m := ItemLinks(src2, dst, items2);
    forall k | k in items1 ensures dst + [k] !in m { }
  }

  /** No configuration item is also a library item. */
  lemma ItemsDisjoint()
    ensures forall k | k in ConfigItems :: k !in LibraryItems
  {
  }

  /** The checks made after the links, from the Jetty home to the webapp directory. */
  function LaunchChecks(s: FsState, c: Config, home: Path, sc: ShardConfig, portOpen: int -> bool): (r: Result<(), ShardError>)
    requires sc.shardNum >= 1
    ensures r.Ok? <==> && s.IsDir(SolrPath(sc.dist, sc.version) + ["example"])
                       && s.IsFile(Log4jPath(home)) && s.IsFile(StartJarPath(sc))
                       && !portOpen(ShardPort(sc.shardNum, sc.startingPort).value)
                       && s.IsDir(WebappPath(sc))
  {
    if !s.IsDir(SolrPath(sc.dist, sc.version) + ["example"]) then Err(JettyHomeMissing)
    else if !s.IsFile(Log4jPath(home)) then Err(Log4jMissing)
    else if !s.IsFile(StartJarPath(sc)) then Err(StartJarMissing)
    else if portOpen(ShardPort(sc.shardNum, sc.startingPort).value) then Err(PortInUse)
    else if !s.IsDir(WebappPath(sc)) then Err(WebappMissing)
    else Ok(())
  }

  /**
   * The start of `run_solr_shard`, up to its data directory: the argument
   * checks, the installation, the Solr home and data directory checks, and
   * the shard's data directory, created when missing.
   */
  function PrepareShard(s: FsState, c: Config, defaultDist: Path, home: Path, sc: ShardConfig, env: InstallEnv)
    : (r: Result<FsState, ShardError>)
    ensures sc.shardNum < 0 ==> r == Err(BadShardNumber)
    ensures sc.shardNum >= 0 && sc.shardCount < 0 ==> r == Err(BadShardCount)
    ensures r.Ok? ==> sc.shardNum >= 1 && sc.shardCount >= 0
    ensures s.Valid() && r.Ok? ==> r.value.Valid() && r.value.IsDir(ShardDataDirPath(sc)) && r.value.IsDir(home)
  {
    if sc.shardNum < 0 then Err(BadShardNumber)
    else if sc.shardCount < 0 then Err(BadShardCount)
    else match EnsureInstalled(s, c, defaultDist, env)
      case Err(e) => Err(Install(e))
      case Ok(s1) =>
        if !s1.IsDir(home) then Err(HomeMissing)
        else if !s1.IsDir(sc.dataDir) then Err(DataDirMissing)
        else match ShardDataDir(s1, sc.shardNum, sc.dataDir)
          case Err(e) => Err(e)
          case Ok(shardDataDir) =>
            if s1.IsDir(shardDataDir) then Ok(s1)
            else match MkdirPResult(s1, shardDataDir)
              case Err(e) => Err(OsFailure(e))
              case Ok(s2) =>
                assert s1.Valid() ==> s2.IsDir(home) by {
                  if s1.Valid() { assert home in s2.dirs || home in s2.links; }
                }
                Ok(s2)
  }

  /**
   * `run_solr_shard` up to starting Solr: on success, the state the
   * shard's preparation leaves, after which `java` is started with
   * `LaunchArgs`; otherwise the exception it raises.  `defaultDist` is `distribution_path(MC_DIST_DIR)`, where
   * the installation check and install run whatever `dist_directory` is.
   */
  function ShardRun(s: FsState, c: Config, defaultDist: Path, home: Path, sc: ShardConfig, env: ShardEnv)
    : (r: Result<FsState, ShardError>)
    ensures sc.shardNum < 0 ==> r == Err(BadShardNumber)
    ensures sc.shardNum >= 0 && sc.shardCount < 0 ==> r == Err(BadShardCount)
    ensures sc.shardNum == 0 ==> r.Err?
    ensures r.Ok? ==> sc.shardNum >= 1 && sc.shardCount >= 0
    ensures r.Ok? ==> !env.portOpen(ShardPort(sc.shardNum, sc.startingPort).value)
    ensures s.Valid() && r.Ok? ==> r.value.Valid()
  {
    match PrepareShard(s, c, defaultDist, home, sc, env.install)
    case Err(e) => Err(e)
    case Ok(s1) =>
      match PopulateShard(s1, home, ShardDataDirPath(sc), SolrPath(sc.dist, sc.version))
      case Err(e) => Err(e)
      case Ok(s2) =>
        match LaunchChecks(s2, c, home, sc, env.portOpen)
        case Err(e) => Err(e)
        case Ok(_) => Ok(s2)
  }

  /**
   * The shard count is only checked for being negative: any other count,
   * 0 included, prepares and runs the shard exactly as a count of 0 does.
   */
  lemma ShardCountOnlyChecked(s: FsState, c: Config, defaultDist: Path, home: Path, sc: ShardConfig, env: ShardEnv)
    requires sc.shardCount >= 0
    ensures PrepareShard(s, c, defaultDist, home, sc, env.install) == PrepareShard(s, c, defaultDist, home, sc.(shardCount := 0), env.install)
    ensures ShardRun(s, c, defaultDist, home, sc, env) == ShardRun(s, c, defaultDist, home, sc.(shardCount := 0), env)
  {
    var sc0 := sc.(shardCount := 0);
    PrepareIgnoresCount(s, c, defaultDist, home, sc, env.install);
    if sc.shardNum >= 1 {
      assert ShardDataDirPath(sc0) == ShardDataDirPath(sc);
      assert forall t :: LaunchChecks(t, c, home, sc0, env.portOpen) == LaunchChecks(t, c, home, sc, env.portOpen);
    }
  }

  lemma PrepareIgnoresCount(s: FsState, c: Config, defaultDist: Path, home: Path, sc: ShardConfig, env: InstallEnv)
    requires sc.shardCount >= 0
    ensures PrepareShard(s, c, defaultDist, home, sc, env) == PrepareShard(s, c, defaultDist, home, sc.(shardCount := 0), env)
  {
    var sc0 := sc.(shardCount := 0);
    assert sc0.shardNum == sc.shardNum && sc0.dataDir == sc.dataDir;
  }

  /**
   * What a run that starts Solr leaves in the shard's data directory: every
   * configuration item links to the Solr home's, every library item to the
   * distribution's, and every collection found in the Solr home keeps its
   * `conf` link and `core.properties`.
   */
  lemma ShardRunSetsUpShard(s: FsState, c: Config, defaultDist: Path, home: Path, sc: ShardConfig, env: ShardEnv)
    requires ShardRun(s, c, defaultDist, home, sc, env).Ok?
    ensures sc.shardNum >= 1
    ensures var t, dir := ShardRun(s, c, defaultDist, home, sc, env).value, ShardDataDirPath(sc);
            && (forall k | k in ConfigItems :: dir + [k] in t.links && t.links[dir + [k]] == home + [k])
            && (forall k | k in LibraryItems ::
                  dir + [k] in t.links && t.links[dir + [k]] == SolrPath(sc.dist, sc.version) + ["example"] + [k])
    ensures var prepared := PrepareShard(s, c, defaultDist, home, sc, env.install);
            var t, dir := ShardRun(s, c, defaultDist, home, sc, env).value, ShardDataDirPath(sc);
            s.Valid() ==>
              && prepared.Ok? && Collections(prepared.value, home).Ok?
              && forall name | name in Collections(prepared.value, home).value ::
                   t.IsLink(ConfLinkPath(dir, name)) && t.IsFile(CorePropertiesPath(dir, name))
  {
    var s1 := PrepareShard(s, c, defaultDist, home, sc, env.install).value;
    var s2 := PopulateShard(s1, home, ShardDataDirPath(sc), SolrPath(sc.dist, sc.version)).value;
    assert ShardRun(s, c, defaultDist, home, sc, env).value == s2;
  }

  // -----------------------------------------------------------------------
  // run_solr_shard, step by step on the filesystem
  // -----------------------------------------------------------------------

  /** The start of `run_solr_shard`, up to its data directory. */
  method Prepare(fs: FileSystem, c: Config, defaultDist: Path, home: Path, sc: ShardConfig, env: InstallEnv)
    returns (r: Result<(), ShardError>)
    modifies fs
    ensures var e := PrepareShard(old(fs.state), c, defaultDist, home, sc, env);
            && (r.Ok? <==> e.Ok?)
            && (r.Ok? ==> fs.state == e.value)
            && (r.Err? ==> e == Err(r.error))
    ensures sc.shardNum < 0 || sc.shardCount < 0 ==> fs.state == old(fs.state)
  {
    if sc.shardNum < 0 {
      return Err(BadShardNumber);
    }
    if sc.shardCount < 0 {
      return Err(BadShardCount);
    }
    var installed := SolrIsInstalled(fs, c, defaultDist, c.version);
    if !installed {
      var outcome := InstallSolr(fs, c, defaultDist, c.version, env);
      if outcome.Err? {
        return Err(Install(outcome.error));
      }
    }
    assert EnsureInstalled(old(fs.state), c, defaultDist, env) == Ok(fs.state);
    if !fs.state.IsDir(home) {
      return Err(HomeMissing);
    }
    if !fs.state.IsDir(sc.dataDir) {
      return Err(DataDirMissing);
    }
    if sc.shardNum < 1 {
      return Err(BadShardNumber);
    }
    var shardDataDir := sc.dataDir + [ShardName(sc.shardNum).value];
    if !fs.state.IsDir(shardDataDir) {
      var made := MkdirP(fs, shardDataDir);
      if made.Err? {
        return Err(OsFailure(made.error));
      }
    }
    r := Ok(());
  }

  /** The collections loop and the two link loops of `run_solr_shard`. */
  method Populate(fs: FileSystem, home: Path, shardDataDir: Path, solrPath: Path) returns (r: Result<(), ShardError>)
    modifies fs
    ensures var e := PopulateShard(old(fs.state), home, shardDataDir, solrPath);
            && (r.Ok? <==> e.Ok?)
            && (r.Ok? ==> fs.state == e.value)
            && (r.Err? ==> e == Err(r.error))
  {
    var collections := SolrCollections(fs, home);
    if collections.Err? {
      return Err(collections.error);
    }
    r := UpdateCollections(fs, collections.value, shardDataDir);
    if r.Err? {
      return;
    }
    assert UpdateShardCollections(old(fs.state), home, shardDataDir) == Ok(fs.state);
    ghost var updated := fs.state;
    r := LinkItems(fs, home, shardDataDir, ConfigItems);
    if r.Err? {
      return;
    }
    r := LinkItems(fs, solrPath + ["example"], shardDataDir, LibraryItems);
    if r.Err? {
      return;
    }
    assert LinkShard(updated, home, shardDataDir, solrPath) == Ok(fs.state);
  }

  /**
   * `run_solr_shard`: prepares the shard and, when every check passes,
   * returns the command line `java` is then started with.
   */
  method RunSolrShard(fs: FileSystem, c: Config, defaultDist: Path, home: Path, sc: ShardConfig, env: ShardEnv)
    returns (r: Result<seq<string>, ShardError>)
    modifies fs
    ensures var e := ShardRun(old(fs.state), c, defaultDist, home, sc, env);
            && (r.Ok? <==> e.Ok?)
            && (r.Ok? ==> fs.state == e.value && sc.shardNum >= 1 && r.value == LaunchArgs(c, sc, home))
            && (r.Err? ==> e == Err(r.error))
  {
    var prepared := Prepare(fs, c, defaultDist, home, sc, env.install);
    if prepared.Err? {
      return Err(prepared.error);
    }
    var populated := Populate(fs, home, ShardDataDirPath(sc), SolrPath(sc.dist, sc.version));
    if populated.Err? {
      return Err(populated.error);
    }
    var checked := LaunchChecks(fs.state, c, home, sc, env.portOpen);
    if checked.Err? {
      return Err(checked.error);
    }
    r := Ok(LaunchArgs(c, sc, home));
  }
}
