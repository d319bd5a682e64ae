/**
 * Running one Solr shard, from `solr-external/mc_solr/solr.py`: the shard's
 * name, port and data directory, the collections found in the Solr home,
 * the links and `core.properties` files the shard's data directory gets,
 * and the command line the JVM is started with.
 */
module SolrShard {
  import opened Wrappers
  import opened Strings
  import opened Posix
  import opened FileSystem
  import opened Utils
  import opened SolrInstall

  datatype ShardError =
    | BadShardNumber             // "Shard number must be 1 or greater."
    | BadShardCount              // "Shard count must be 1 or greater."
    | Install(failure: InstallError)
    | HomeMissing                // "Solr home directory ... does not exist."
    | DataDirMissing             // "Solr data directory ... does not exist."
    | CollectionsMissing         // "Collections directory does not exist at path ..."
    | ConfMissing                // a collection directory without `conf`
    | NotALink(path: Path)       // "... exists but is not a symlink."
    | SourceMissing(path: Path)  // "Expected configuration/library item ... does not exist"
    | OsFailure(error: OsError)  // raised by mkdir_p, os.symlink, open
    | JettyHomeMissing
    | Log4jMissing
    | StartJarMissing
    | PortInUse                  // "Port %d is already open on this machine."
    | WebappMissing

  // -----------------------------------------------------------------------
  // Shard name, port and data directory
  // -----------------------------------------------------------------------

  const ShardNamePrefix := "mediacloud-shard-"

  /** `__shard_name(n)`. */
  function ShardName(n: int): (r: Result<string, ShardError>)
    ensures r.Ok? <==> n >= 1
    ensures r.Err? ==> r.error == BadShardNumber
    ensures r.Ok? ==> StartsWith(r.value, ShardNamePrefix) && ParseInt(r.value[|ShardNamePrefix|..]) == Some(n)
  {
    if n < 1 then Err(BadShardNumber)
    else
      var name := ShardNamePrefix + IntToString(n);
      IntToStringRoundTrip(n);
      assert name[|ShardNamePrefix|..] == IntToString(n);
      Ok(name)
  }

  /** Different shards have different names. */
  lemma ShardNameInjective(n1: int, n2: int)
    requires ShardName(n1).Ok? && ShardName(n1) == ShardName(n2)
    ensures n1 == n2
  {
  }

  /** `__shard_port(n, starting_port)`. */
  function ShardPort(n: int, start: int): (r: Result<int, ShardError>)
    ensures r.Ok? <==> n >= 1
    ensures r.Err? ==> r.error == BadShardNumber
  {
    if n < 1 then Err(BadShardNumber) else Ok(start + n - 1)
  }

  /** Shards 1..count listen on the `count` consecutive ports from `start`, one port each. */
  lemma ShardPortsConsecutive(start: int, count: nat)
    ensures forall n | 1 <= n <= count :: start <= ShardPort(n, start).value < start + count
    ensures forall n1, n2 | 1 <= n1 && 1 <= n2 && ShardPort(n1, start) == ShardPort(n2, start) :: n1 == n2
  {
  }

  /** `__shard_data_dir(n, data_dir)`. */
  function ShardDataDir(s: FsState, n: int, dataDir: Path): (r: Result<Path, ShardError>)
    ensures r.Ok? <==> n >= 1 && s.IsDir(dataDir)
    ensures r.Ok? ==> r.value != [] && Parent(r.value) == dataDir && r.value[|dataDir|] == ShardName(n).value
  {
    if n < 1 then Err(BadShardNumber)
    else if !s.IsDir(dataDir) then Err(DataDirMissing)
    else Ok(dataDir + [ShardName(n).value])
  }

  /** Different shards never share a data directory. */
  lemma ShardDataDirsDistinct(s: FsState, n1: int, n2: int, dataDir: Path)
    requires ShardDataDir(s, n1, dataDir).Ok? && ShardDataDir(s, n1, dataDir) == ShardDataDir(s, n2, dataDir)
    ensures n1 == n2
  {
    var d := ShardDataDir(s, n1, dataDir).value;
    ShardNameInjective(n1, n2);
  }


  // -----------------------------------------------------------------------
  // solr_collections
  // -----------------------------------------------------------------------

  /** `os.listdir(dir)`: the names of the entries right inside `dir`. */
  function Children(s: FsState, dir: Path): set<string> {
    set q | q in s.files.Keys + s.dirs + s.links.Keys && |q| == |dir| + 1 && q[..|dir|] == dir :: q[|dir|]
  }

  function CollectionsPath(home: Path): Path {
    home + ["collections"]
  }

  /** A directory entry that names a collection: a directory whose name starts with neither '_' nor '.'. */
  predicate IsCollection(s: FsState, home: Path, name: string) {
    && name in Children(s, CollectionsPath(home))
    && !StartsWith(name, "_") && !StartsWith(name, ".")
    && s.IsDir(CollectionsPath(home) + [name])
  }

  /** `solr_collections(solr_home)`: each collection's name mapped to its directory. */
  function Collections(s: FsState, home: Path): (r: Result<map<string, Path>, ShardError>)
    ensures r.Ok? <==> && s.IsDir(home) && s.IsDir(CollectionsPath(home))
                       && forall name | IsCollection(s, home, name) :: s.IsDir(CollectionsPath(home) + [name] + ["conf"])
    ensures !s.IsDir(home) ==> r == Err(HomeMissing)
    ensures s.IsDir(home) && !s.IsDir(CollectionsPath(home)) ==> r == Err(CollectionsMissing)
    ensures r.Ok? ==> forall name :: name in r.value <==> IsCollection(s, home, name)
    ensures r.Ok? ==> forall name | name in r.value :: r.value[name] == CollectionsPath(home) + [name]
                                                    && s.IsDir(r.value[name] + ["conf"])
  {
    var dir := CollectionsPath(home);
    if !s.IsDir(home) then Err(HomeMissing)
    else if !s.IsDir(dir) then Err(CollectionsMissing)
    else if exists name | name in Children(s, dir) :: IsCollection(s, home, name) && !s.IsDir(dir + [name] + ["conf"]) then Err(ConfMissing)
    else Ok(map name | name in Children(s, dir) && IsCollection(s, home, name) :: dir + [name])
  }

  /** `solr_collections`: the directory listing is walked in whatever order `os.listdir` gives. */
  method SolrCollections(fs: FileSystem, home: Path) returns (r: Result<map<string, Path>, ShardError>)
    ensures r == Collections(fs.state, home)
  {
    if !fs.state.IsDir(home) {
      return Err(HomeMissing);
    }
    var dir := CollectionsPath(home);
    if !fs.state.IsDir(dir) {
      return Err(CollectionsMissing);
    }
    var names := Children(fs.state, dir);
    ghost var seen: set<string> := {};
    var collections: map<string, Path> := map[];
    while names != {}
      invariant names + seen == Children(fs.state, dir) && names !! seen
      invariant collections == map name | name in seen && IsCollection(fs.state, home, name) :: dir + [name]
      invariant forall name | name in seen && IsCollection(fs.state, home, name) :: fs.state.IsDir(dir + [name] + ["conf"])
      decreases names
    {
      var name :| name in names;
      names := names - {name};
      seen := seen + {name};
      if !(StartsWith(name, "_") || StartsWith(name, ".")) {
        var full := dir + [name];
        if fs.state.IsDir(full) {
          if !fs.state.IsDir(full + ["conf"]) {
            return Err(ConfMissing);
          }
          collections := collections[name := full];
        }
      }
    }
    r := Ok(collections);
  }

  // -----------------------------------------------------------------------
  // A collection's `conf` link and `core.properties`
  // -----------------------------------------------------------------------

  /** `t` has every file, directory and link `s` has, each link with the same target. */
  predicate Grows(s: FsState, t: FsState) {
    && s.files.Keys <= t.files.Keys
    && s.dirs <= t.dirs
    && forall q | q in s.links :: q in t.links && t.links[q] == s.links[q]
  }

  /** What is a file, a directory or a link stays one as the filesystem grows. */
  lemma GrowsKeeps(s: FsState, t: FsState, p: Path)
    requires Grows(s, t)
    ensures s.IsFile(p) ==> t.IsFile(p)
    ensures s.IsDir(p) ==> t.IsDir(p)
    ensures s.IsLink(p) ==> t.IsLink(p)
  {
  }

  /**
   * The `conf` link of a collection in the shard's data directory: a link
   * already there is kept whatever it points to, anything else there is an
   * error, and otherwise the link is created.
   */
  function LinkConf(s: FsState, src: Path, dst: Path): (r: Result<FsState, ShardError>)
    ensures s.Exists(dst) && s.IsLink(dst) ==> r == Ok(s)
    ensures s.Exists(dst) && !s.IsLink(dst) ==> r == Err(NotALink(dst))
    ensures !s.Occupied(dst) ==> (r.Ok? <==> s.ParentIsDir(dst))
    ensures !s.Occupied(dst) && r.Ok? ==> r.value == s.(links := s.links[dst := src])
    ensures r.Ok? ==> r.value.IsLink(dst) && Grows(s, r.value)
    ensures s.Valid() && r.Ok? ==> r.value.Valid()
  {
    if s.Exists(dst) then
      if !s.IsLink(dst) then Err(NotALink(dst)) else Ok(s)
    else match Symlink(s, src, dst)
      case Err(e) => Err(OsFailure(e))
      case Ok(t) => Ok(t)
  }

  /** A dangling `conf` link is not recognised as a link and stops the update with EEXIST. */
  lemma LinkConfOnDanglingLink(s: FsState, src: Path, dst: Path)
    requires s.IsLink(dst) && !s.Exists(dst)
    ensures LinkConf(s, src, dst) == Err(OsFailure(AlreadyExists))
  {
  }

  /** Linking the `conf` directory a second time changes nothing. */
  lemma LinkConfIdempotent(s: FsState, src: Path, dst: Path)
    requires LinkConf(s, src, dst).Ok? && src in s.dirs
    ensures LinkConf(LinkConf(s, src, dst).value, src, dst) == LinkConf(s, src, dst)
  {
  }

  const CorePropertiesHeader := "\n#\n# This file is autogenerated. Don't bother editing it!\n#\n"

  /** The `core.properties` text written for a collection. */
  function CoreProperties(name: string, instanceDir: string): (t: string)
    ensures |t| > |CorePropertiesHeader| && t[..|CorePropertiesHeader|] == CorePropertiesHeader && t[|t| - 1] == '\n'
  {
    PropertiesText(CorePropertiesHeader, name, instanceDir)
  }

  /** A comment header followed by the `name` and `instanceDir` lines. */
  function PropertiesText(header: string, name: string, instanceDir: string): string {
    header + "\n" + "name=" + name + "\n" + "instanceDir=" + instanceDir + "\n"
  }

  /** The lines of a text: "a\nb" has lines "a" and "b", and "a\n" has lines "a" and "". */
  function Lines(s: string): (r: seq<string>)
    ensures r != []
    decreases |s|
  {
    if s == [] then [[]]
    else if s[0] == '\n' then [[]] + Lines(s[1..])
    else var rest := Lines(s[1..]); [[s[0]] + rest[0]] + rest[1..]
  }

  /** A line break splits the lines of a text in two. */
  lemma {:induction false} LinesAppend(a: string, b: string)
    ensures Lines(a + "\n" + b) == Lines(a) + Lines(b)
    decreases |a|
  {
    var t := a + "\n" + b;
    if a == [] {
      assert t[0] == '\n' && t[1..] == b;
    } else {
      assert t[0] == a[0] && t[1..] == a[1..] + "\n" + b;
      LinesAppend(a[1..], b);
    }
  }

  lemma {:induction false} LinesOfLine(a: string)
    requires '\n' !in a
    ensures Lines(a) == [a]
    decreases |a|
  {
    if a != [] {
      LinesOfLine(a[1..]);
      assert [a[0]] + a[1..] == a;
    }
  }

  /** What `java.util.Properties` reads for `key`: the value of the last line `key=value`. */
  function PropertyValue(lines: seq<string>, key: string): Option<string>
    decreases |lines|
  {
    if lines == [] then None
    else
      var later := PropertyValue(lines[1..], key);
      if later.Some? then later
      else if StartsWith(lines[0], key + "=") then Some(lines[0][|key| + 1..])
      else None
  }

  /** A later definition of a key wins over an earlier one. */
  lemma {:induction false} PropertyValueAppend(l1: seq<string>, l2: seq<string>, key: string)
    ensures PropertyValue(l1 + l2, key) == if PropertyValue(l2, key).Some? then PropertyValue(l2, key) else PropertyValue(l1, key)
    decreases |l1|
  {
    if l1 == [] {
      assert l1 + l2 == l2;
    } else {
      assert (l1 + l2)[0] == l1[0] && (l1 + l2)[1..] == l1[1..] + l2;
      PropertyValueAppend(l1[1..], l2, key);
    }
  }

  /** The text's lines: the header's, then the two property lines, then an empty one. */
  lemma PropertiesTextLines(h: string, name: string, instanceDir: string)
    requires '\n' !in name && '\n' !in instanceDir
    ensures Lines(PropertiesText(h, name, instanceDir)) == ((Lines(h) + ["name=" + name]) + ["instanceDir=" + instanceDir]) + [""]
  {
    var a, b := "name=" + name, "instanceDir=" + instanceDir;
    assert PropertiesText(h, name, instanceDir) == ((h + "\n" + a) + "\n" + b) + "\n" + "";
    LinesAppend((h + "\n" + a) + "\n" + b, "");
    LinesAppend(h + "\n" + a, b);
    LinesAppend(h, a);
    assert '\n' !in a && '\n' !in b;
    LinesOfLine(a);
    LinesOfLine(b);
  }

  /** Whatever the header, the `name` and `instanceDir` lines read back as written. */
  lemma PropertiesTextRoundTrip(h: string, name: string, instanceDir: string)
    requires '\n' !in name && '\n' !in instanceDir
    ensures PropertyValue(Lines(PropertiesText(h, name, instanceDir)), "name") == Some(name)
    ensures PropertyValue(Lines(PropertiesText(h, name, instanceDir)), "instanceDir") == Some(instanceDir)
  {
    var a, b := "name=" + name, "instanceDir=" + instanceDir;
    PropertiesTextLines(h, name, instanceDir);
    var lh := Lines(h);
    assert a[..5] == "name=" && a[5..] == name;
    assert b[..12] == "instanceDir=" && b[12..] == instanceDir;
    assert !StartsWith(b, "name=") by {
      assert b[0] == 'i';
    }
    PropertyValueAppend((lh + [a]) + [b], [""], "name");
    PropertyValueAppend((lh + [a]) + [b], [""], "instanceDir");
    PropertyValueAppend(lh + [a], [b], "name");
    PropertyValueAppend(lh + [a], [b], "instanceDir");
    PropertyValueAppend(lh, [a], "name");
  }

  /** Solr reads back the collection name and instance directory that were written. */
  lemma CorePropertiesRoundTrip(name: string, instanceDir: string)
    requires '\n' !in name && '\n' !in instanceDir
    ensures PropertyValue(Lines(CoreProperties(name, instanceDir)), "name") == Some(name)
    ensures PropertyValue(Lines(CoreProperties(name, instanceDir)), "instanceDir") == Some(instanceDir)
  {
    PropertiesTextRoundTrip(CorePropertiesHeader, name, instanceDir);
  }

  // -----------------------------------------------------------------------
  // Updating the collections of a shard
  // -----------------------------------------------------------------------

  function CollectionDir(shardDataDir: Path, name: string): Path {
    shardDataDir + [name]
  }

  function ConfLinkPath(shardDataDir: Path, name: string): Path {
    CollectionDir(shardDataDir, name) + ["conf"]
  }

  function CorePropertiesPath(shardDataDir: Path, name: string): Path {
    CollectionDir(shardDataDir, name) + ["core.properties"]
  }

  /**
   * One turn of `run_solr_shard`'s loop over the collections: the collection's
   * own `conf` must be a directory; its directory in the shard's data
   * directory is created, gets the `conf` link and a fresh `core.properties`.
   */
  function UpdateCollection(s: FsState, name: string, collectionPath: Path, shardDataDir: Path): (r: Result<FsState, ShardError>)
    ensures !s.IsDir(collectionPath + ["conf"]) ==> r == Err(ConfMissing)
    ensures r.Ok? ==> Grows(s, r.value)
    ensures s.Valid() && r.Ok? ==>
              && r.value.Valid()
              && r.value.IsDir(CollectionDir(shardDataDir, name))
              && r.value.IsLink(ConfLinkPath(shardDataDir, name))
              && r.value.IsFile(CorePropertiesPath(shardDataDir, name))
    ensures r.Ok? && CorePropertiesPath(shardDataDir, name) !in s.links ==>
              && CorePropertiesPath(shardDataDir, name) in r.value.files
              && r.value.files[CorePropertiesPath(shardDataDir, name)] == CoreProperties(name, Render(CollectionDir(shardDataDir, name)))
    ensures r.Ok? && !s.Occupied(ConfLinkPath(shardDataDir, name)) ==>
              && ConfLinkPath(shardDataDir, name) in r.value.links
              && r.value.links[ConfLinkPath(shardDataDir, name)] == collectionPath + ["conf"]
  {
    var src := collectionPath + ["conf"];
    if !s.IsDir(src) then Err(ConfMissing)
    else
      var dst := CollectionDir(shardDataDir, name);
      match MkdirPResult(s, dst)
      case Err(e) => Err(OsFailure(e))
      case Ok(s1) =>
        match LinkConf(s1, src, ConfLinkPath(shardDataDir, name))
        case Err(e) => Err(e)
        case Ok(s2) =>
          assert ConfLinkPath(shardDataDir, name)[|dst|] == "conf";
          assert ConfLinkPath(shardDataDir, name) !in Prefixes(dst);
          assert CorePropertiesPath(shardDataDir, name) !in s.links ==> CorePropertiesPath(shardDataDir, name) !in s2.links;
          match WriteFile(s2, CorePropertiesPath(shardDataDir, name), CoreProperties(name, Render(dst)))
          case Err(e) => Err(OsFailure(e))
          case Ok(s3) => Ok(s3)
  }

  /** The collections `names` updated in turn, stopping at the first error. */
  function UpdateAll(s: FsState, collections: map<string, Path>, names: seq<string>, shardDataDir: Path): (r: Result<FsState, ShardError>)
    requires forall name | name in names :: name in collections
    ensures r.Ok? ==> Grows(s, r.value)
    ensures s.Valid() && r.Ok? ==> r.value.Valid()
    ensures s.Valid() && r.Ok? ==> forall name | name in names ::
              && r.value.IsDir(CollectionDir(shardDataDir, name))
              && r.value.IsLink(ConfLinkPath(shardDataDir, name))
              && r.value.IsFile(CorePropertiesPath(shardDataDir, name))
    decreases |names|
  {
    if names == [] then Ok(s)
    else
      var last := names[|names| - 1];
      var prefix := names[..|names| - 1];
      assert forall name | name in names :: name in prefix || name == last;
      match UpdateAll(s, collections, prefix, shardDataDir)
      case Err(e) => Err(e)
      case Ok(t) =>
        var r := UpdateCollection(t, last, collections[last], shardDataDir);
        if r.Ok? then
          forall name | name in prefix
            ensures s.Valid() ==>
              && r.value.IsDir(CollectionDir(shardDataDir, name))
              && r.value.IsLink(ConfLinkPath(shardDataDir, name))
              && r.value.IsFile(CorePropertiesPath(shardDataDir, name))
          {
            GrowsKeeps(t, r.value, CollectionDir(shardDataDir, name));
            GrowsKeeps(t, r.value, ConfLinkPath(shardDataDir, name));
            GrowsKeeps(t, r.value, CorePropertiesPath(shardDataDir, name));
          }
          r
        else r
  }

  /** Once a prefix of the collections fails, the whole update fails with the same error. */
  lemma {:induction false} UpdateAllStops(s: FsState, collections: map<string, Path>, names: seq<string>, shardDataDir: Path, i: nat)
    requires forall name | name in names :: name in collections
    requires i <= |names| && UpdateAll(s, collections, names[..i], shardDataDir).Err?
    ensures UpdateAll(s, collections, names, shardDataDir) == UpdateAll(s, collections, names[..i], shardDataDir)
    decreases |names|
  {
    if i < |names| {
      var prefix := names[..|names| - 1];
      assert prefix[..i] == names[..i];
      UpdateAllStops(s, collections, prefix, shardDataDir, i);
    } else {
      assert names[..i] == names;
    }
  }

  /** The body of `run_solr_shard`'s loop over the collections, for one collection. */
  method UpdateOne(fs: FileSystem, name: string, collectionPath: Path, shardDataDir: Path) returns (r: Result<(), ShardError>)
    modifies fs
    ensures var e := UpdateCollection(old(fs.state), name, collectionPath, shardDataDir);
            && (r.Ok? <==> e.Ok?)
            && (r.Ok? ==> fs.state == e.value)
            && (r.Err? ==> e == Err(r.error))
  {
    var src := collectionPath + ["conf"];
    if !fs.state.IsDir(src) {
      return Err(ConfMissing);
    }
    var dst := CollectionDir(shardDataDir, name);
    var made := MkdirP(fs, dst);
    if made.Err? {
      return Err(OsFailure(made.error));
    }
    var conf := ConfLinkPath(shardDataDir, name);
    if fs.state.Exists(conf) {
      if !fs.state.IsLink(conf) {
        return Err(NotALink(conf));
      }
    } else {
      var linked := fs.Symlink(src, conf);
      if linked.Err? {
        return Err(OsFailure(linked.error));
      }
    }
    var written := fs.WriteFile(CorePropertiesPath(shardDataDir, name), CoreProperties(name, Render(dst)));
    if written.Err? {
      return Err(OsFailure(written.error));
    }
    r := Ok(());
  }

  /** The loop of `run_solr_shard` over `sorted(collections.items())`. */
  method UpdateCollections(fs: FileSystem, collections: map<string, Path>, shardDataDir: Path) returns (r: Result<(), ShardError>)
    modifies fs
    ensures var e := UpdateAll(old(fs.state), collections, SortedSet(collections.Keys), shardDataDir);
            && (r.Ok? <==> e.Ok?)
            && (r.Ok? ==> fs.state == e.value)
            && (r.Err? ==> e == Err(r.error))
  {
    var names := SortedSet(collections.Keys);
    r := UpdateInOrder(fs, collections, names, shardDataDir);
  }

  /** One more collection is updated from where the previous ones left the filesystem. */
  lemma UpdateAllStep(s: FsState, collections: map<string, Path>, names: seq<string>, shardDataDir: Path, i: nat, t: FsState)
    requires forall name | name in names :: name in collections
    requires i < |names| && UpdateAll(s, collections, names[..i], shardDataDir) == Ok(t)
    ensures UpdateAll(s, collections, names[..i + 1], shardDataDir) == UpdateCollection(t, names[i], collections[names[i]], shardDataDir)
  {
    assert names[..i + 1][..i] == names[..i] && names[..i + 1][i] == names[i];
  }

  /** The collections `names` updated one after the other. */
  method UpdateInOrder(fs: FileSystem, collections: map<string, Path>, names: seq<string>, shardDataDir: Path) returns (r: Result<(), ShardError>)
    requires forall name | name in names :: name in collections
    modifies fs
    ensures var e := UpdateAll(old(fs.state), collections, names, shardDataDir);
            && (r.Ok? <==> e.Ok?)
            && (r.Ok? ==> fs.state == e.value)
            && (r.Err? ==> e == Err(r.error))
  {
    var i := 0;
    while i < |names|
      invariant 0 <= i <= |names|
      invariant UpdateAll(old(fs.state), collections, names[..i], shardDataDir) == Ok(fs.state)
    {
      var name := names[i];
      UpdateAllStep(old(fs.state), collections, names, shardDataDir, i, fs.state);
      var updated := UpdateOne(fs, name, collections[name], shardDataDir);
      if updated.Err? {
        UpdateAllStops(old(fs.state), collections, names, shardDataDir, i + 1);
        return updated;
      }
      i := i + 1;
    }
    assert names[..i] == names;
    r := Ok(());
  }

  // -----------------------------------------------------------------------
  // Configuration and library links
  // -----------------------------------------------------------------------

  const ConfigItems: seq<string> := ["contexts", "etc", "resources", "solr.xml"]
  const LibraryItems: seq<string> := ["lib", "solr-webapp", "start.jar", "webapps"]

  /**
   * Recreating the link `dst` -> `src` AS WRITTEN: an existing destination
   * is recognised with `os.path.exists`, which is false for a dangling link.
   */
  function RelinkAsWritten(s: FsState, src: Path, dst: Path): (r: Result<FsState, ShardError>)
    ensures !s.Exists(src) ==> r == Err(SourceMissing(src))
    ensures s.Exists(src) && s.Exists(dst) && !s.IsLink(dst) ==> r == Err(NotALink(dst))
    ensures r.Ok? ==> r.value == s.(links := s.links[dst := src])
  {
    if !s.Exists(src) then Err(SourceMissing(src))
    else
      var cleared :=
        if !s.Exists(dst) then Ok(s)
        else if !s.IsLink(dst) then Err(NotALink(dst))
        else match Unlink(s, dst)
          case Err(e) => Err(OsFailure(e))
          case Ok(t) => Ok(t);
      match cleared
      case Err(e) => Err(e)
      case Ok(t) =>
        match Symlink(t, src, dst)
        case Err(e) => Err(OsFailure(e))
        case Ok(u) => Ok(u)
  }

  /** A dangling link left at the destination (its target removed, say) makes the code fail with EEXIST. */
  lemma RelinkAsWrittenFailsOnDanglingLink(s: FsState, src: Path, dst: Path)
    requires s.Exists(src) && s.IsLink(dst) && !s.Exists(dst)
    ensures RelinkAsWritten(s, src, dst) == Err(OsFailure(AlreadyExists))
  {
  }

  /**
   * Recreating the link `dst` -> `src` as intended: whatever link is at the
   * destination, dangling or not, is replaced.
   */
  function Relink(s: FsState, src: Path, dst: Path): (r: Result<FsState, ShardError>)
    ensures s.Valid() ==> (r.Ok? <==> s.Exists(src) && (s.IsLink(dst) || (!s.Occupied(dst) && s.ParentIsDir(dst))))
    ensures !s.Exists(src) ==> r == Err(SourceMissing(src))
    ensures s.Exists(src) && s.Occupied(dst) && !s.IsLink(dst) ==> r == Err(NotALink(dst))
    ensures r.Ok? ==> r.value == s.(links := s.links[dst := src])
    ensures s.Valid() && r.Ok? ==> r.value.Valid()
  {
    if !s.Exists(src) then Err(SourceMissing(src))
    else
      var cleared :=
        if !s.Occupied(dst) then Ok(s)
        else if !s.IsLink(dst) then Err(NotALink(dst))
        else match Unlink(s, dst)
          case Err(e) => Err(OsFailure(e))
          case Ok(t) => Ok(t);
      match cleared
      case Err(e) => Err(e)
      case Ok(t) =>
        match Symlink(t, src, dst)
        case Err(e) => Err(OsFailure(e))
        case Ok(u) =>
          assert u.links == s.links[dst := src];
          Ok(u)
  }

  /** Apart from a dangling link at the destination, the intended version does what the code does. */
  lemma RelinkAgreesWithCode(s: FsState, src: Path, dst: Path)
    requires s.Valid() && !(s.IsLink(dst) && !s.Exists(dst))
    ensures RelinkAsWritten(s, src, dst) == Relink(s, src, dst)
  {
  }

  /** Two entries of directories are the same path only when directory and name agree. */
  lemma ChildInjective(a: Path, x: string, b: Path, y: string)
    requires a + [x] == b + [y]
    ensures a == b && x == y
  {
    assert a == (a + [x])[..|a|];
    assert b == (b + [y])[..|b|];
  }

  /** The links the items get: `dstDir/<item>` -> `srcDir/<item>`, and nothing else. */
  function ItemLinks(srcDir: Path, dstDir: Path, items: seq<string>): (m: map<Path, Path>)
    ensures forall k | k in items :: dstDir + [k] in m && m[dstDir + [k]] == srcDir + [k]
    ensures forall q | q in m :: |q| == |dstDir| + 1 && q[..|dstDir|] == dstDir && q[|dstDir|] in items
    decreases |items|
  {
    if items == [] then map[]
    else
      var last := items[|items| - 1];
      var m := ItemLinks(srcDir, dstDir, items[..|items| - 1]);
      assert forall k | k in items :: k in items[..|items| - 1] || k == last;
      forall k | k in items[..|items| - 1] && k != last
        ensures dstDir + [k] != dstDir + [last]
      {
        if dstDir + [k] == dstDir + [last] {
          ChildInjective(dstDir, k, dstDir, last);
        }
      }
      m[dstDir + [last] := srcDir + [last]]
  }

  /** Each item of `items` linked, in order, from `dstDir` to the item of the same name in `srcDir`. */
  function RelinkAll(s: FsState, srcDir: Path, dstDir: Path, items: seq<string>): (r: Result<FsState, ShardError>)
    ensures r.Ok? ==> r.value == s.(links := s.links + ItemLinks(srcDir, dstDir, items))
    ensures s.Valid() && r.Ok? ==> r.value.Valid()
    decreases |items|
  {
    if items == [] then
      assert s.links + map[] == s.links;
      Ok(s)
    else
      var last := items[|items| - 1];
      match RelinkAll(s, srcDir, dstDir, items[..|items| - 1])
      case Err(e) => Err(e)
      case Ok(t) =>
        var r := Relink(t, srcDir + [last], dstDir + [last]);
        MergeThenUpdate(s.links, ItemLinks(srcDir, dstDir, items[..|items| - 1]), dstDir + [last], srcDir + [last]);
        r
  }

  lemma MergeThenUpdate(a: map<Path, Path>, b: map<Path, Path>, k: Path, v: Path)
    ensures (a + b)[k := v] == a + b[k := v]
  {
  }

  /** Links made inside `dstDir` do not change what exists elsewhere. */
  lemma ExistsOutside(s: FsState, srcDir: Path, dstDir: Path, items: seq<string>, k: string)
    requires srcDir != dstDir
    ensures s.(links := s.links + ItemLinks(srcDir, dstDir, items)).Exists(srcDir + [k]) == s.Exists(srcDir + [k])
  {
  }

  /** Item `k` can be relinked: its source exists and its place holds a link or is free inside a directory. */
  predicate Relinkable(s: FsState, srcDir: Path, dstDir: Path, k: string) {
    && s.Exists(srcDir + [k])
    && (s.IsLink(dstDir + [k]) || (!s.Occupied(dstDir + [k]) && s.ParentIsDir(dstDir + [k])))
  }

  /** The links are recreated exactly when every item can be relinked. */
  lemma {:induction false} RelinkAllSucceeds(s: FsState, srcDir: Path, dstDir: Path, items: seq<string>)
    requires s.Valid() && srcDir != dstDir
    ensures RelinkAll(s, srcDir, dstDir, items).Ok? <==> forall k | k in items :: Relinkable(s, srcDir, dstDir, k)
    decreases |items|
  {
    if items != [] {
      var last := items[|items| - 1];
      var prefix := items[..|items| - 1];
      RelinkAllSucceeds(s, srcDir, dstDir, prefix);
      if RelinkAll(s, srcDir, dstDir, prefix).Ok? {
        RelinkLastSucceeds(s, srcDir, dstDir, items);
        if Relinkable(s, srcDir, dstDir, last) {
          forall k | k in items ensures Relinkable(s, srcDir, dstDir, k) {
            var i :| 0 <= i < |items| && items[i] == k;
            if i < |items| - 1 {
              assert prefix[i] == k;
            }
          }
        }
      } else {
        var k :| k in prefix && !Relinkable(s, srcDir, dstDir, k);
        var i :| 0 <= i < |prefix| && prefix[i] == k;
        assert items[i] == k;
      }
    }
  }

  /** After the first items are relinked, the last one succeeds exactly when it can be relinked in the original state. */
  lemma RelinkLastSucceeds(s: FsState, srcDir: Path, dstDir: Path, items: seq<string>)
    requires s.Valid() && srcDir != dstDir && items != []
    requires RelinkAll(s, srcDir, dstDir, items[..|items| - 1]).Ok?
    requires forall k | k in items[..|items| - 1] :: Relinkable(s, srcDir, dstDir, k)
    ensures RelinkAll(s, srcDir, dstDir, items).Ok? <==> Relinkable(s, srcDir, dstDir, items[|items| - 1])
  {
    var last := items[|items| - 1];
    var prefix := items[..|items| - 1];
    var t := RelinkAll(s, srcDir, dstDir, prefix).value;
    assert RelinkAll(s, srcDir, dstDir, items) == Relink(t, srcDir + [last], dstDir + [last]);
    if last !in prefix {
      ItemLinksElsewhere(s, srcDir, dstDir, prefix, last);
    } else {
      ExistsOutside(s, srcDir, dstDir, prefix, last);
      assert t.IsLink(dstDir + [last]);
    }
  }

  /** The links of some items leave what is at another item's place, and at its source, as it was. */
  lemma ItemLinksElsewhere(s: FsState, srcDir: Path, dstDir: Path, items: seq<string>, k: string)
    requires srcDir != dstDir && k !in items
    ensures var t := s.(links := s.links + ItemLinks(srcDir, dstDir, items));
            && t.Exists(srcDir + [k]) == s.Exists(srcDir + [k])
            && t.IsLink(dstDir + [k]) == s.IsLink(dstDir + [k])
            && t.Occupied(dstDir + [k]) == s.Occupied(dstDir + [k])
            && t.ParentIsDir(dstDir + [k]) == s.ParentIsDir(dstDir + [k])
  {
    ExistsOutside(s, srcDir, dstDir, items, k);
    assert (dstDir + [k])[|dstDir|] == k;
  }

  /** The link reconciliation is idempotent: running it again on its own result changes nothing. */
  lemma RelinkAllIdempotent(s: FsState, srcDir: Path, dstDir: Path, items: seq<string>)
    requires s.Valid() && srcDir != dstDir && RelinkAll(s, srcDir, dstDir, items).Ok?
    ensures var t := RelinkAll(s, srcDir, dstDir, items).value;
            RelinkAll(t, srcDir, dstDir, items) == Ok(t)
  {
    var t := RelinkAll(s, srcDir, dstDir, items).value;
    var m := ItemLinks(srcDir, dstDir, items);
    RelinkAllSucceeds(s, srcDir, dstDir, items);
    forall k | k in items ensures Relinkable(t, srcDir, dstDir, k) {
      ExistsOutside(s, srcDir, dstDir, items, k);
    }
    RelinkAllSucceeds(t, srcDir, dstDir, items);
    MergeTwice(s.links, m);
  }

  lemma MergeTwice(a: map<Path, Path>, b: map<Path, Path>)
    ensures (a + b) + b == a + b
  {
  }

  /** Once a prefix of the items fails, the whole reconciliation fails with the same error. */
  lemma {:induction false} RelinkAllStops(s: FsState, srcDir: Path, dstDir: Path, items: seq<string>, i: nat)
    requires i <= |items| && RelinkAll(s, srcDir, dstDir, items[..i]).Err?
    ensures RelinkAll(s, srcDir, dstDir, items) == RelinkAll(s, srcDir, dstDir, items[..i])
    decreases |items|
  {
    if i < |items| {
      var prefix := items[..|items| - 1];
      assert prefix[..i] == items[..i];
      RelinkAllStops(s, srcDir, dstDir, prefix, i);
    } else {
      assert items[..i] == items;
    }
  }

  /** One of the link loops AS WRITTEN: each item through `RelinkAsWritten`. */
  function RelinkAllAsWritten(s: FsState, srcDir: Path, dstDir: Path, items: seq<string>): (r: Result<FsState, ShardError>)
    ensures r.Ok? ==> r.value.files == s.files && r.value.dirs == s.dirs
    ensures r.Ok? ==> forall k | k in items :: dstDir + [k] in r.value.links
    decreases |items|
  {
    if items == [] then Ok(s)
    else
      var last := items[|items| - 1];
      match RelinkAllAsWritten(s, srcDir, dstDir, items[..|items| - 1])
      case Err(e) => Err(e)
      case Ok(t) => RelinkAsWritten(t, srcDir + [last], dstDir + [last])
  }

  /** A symbolic link whose target is neither a file nor a directory. */
  predicate Dangling(s: FsState, p: Path) {
    s.IsLink(p) && !s.Exists(p)
  }

  predicate Distinct(items: seq<string>) {
    forall i, j | 0 <= i < j < |items| :: items[i] != items[j]
  }

  /** Without a dangling link at any item's place, the code's link loop does exactly what the intended one does. */
  lemma {:induction false} RelinkAllAgreesWithCode(s: FsState, srcDir: Path, dstDir: Path, items: seq<string>)
    requires s.Valid() && srcDir != dstDir && Distinct(items)
    requires forall k | k in items :: !Dangling(s, dstDir + [k])
    ensures RelinkAllAsWritten(s, srcDir, dstDir, items) == RelinkAll(s, srcDir, dstDir, items)
    decreases |items|
  {
    if items != [] {
      var last := items[|items| - 1];
      var prefix := items[..|items| - 1];
      RelinkAllAgreesWithCode(s, srcDir, dstDir, prefix);
      if RelinkAll(s, srcDir, dstDir, prefix).Ok? {
        var t := RelinkAll(s, srcDir, dstDir, prefix).value;
        assert last !in prefix;
        NotDanglingElsewhere(s, srcDir, dstDir, prefix, last);
        RelinkAgreesWithCode(t, srcDir + [last], dstDir + [last]);
      }
    }
  }

  /** The links of some items leave another item's place dangling or not, as it was. */
  lemma NotDanglingElsewhere(s: FsState, srcDir: Path, dstDir: Path, items: seq<string>, k: string)
    requires k !in items
    ensures Dangling(s.(links := s.links + ItemLinks(srcDir, dstDir, items)), dstDir + [k]) == Dangling(s, dstDir + [k])
  {
    var q := dstDir + [k];
    assert q[|dstDir|] == k;
  }

  /** A dangling link at any item's place makes the code's link loop raise. */
  lemma {:induction false} RelinkAllAsWrittenFailsOnDanglingLink(s: FsState, srcDir: Path, dstDir: Path, items: seq<string>, k: string)
    requires Distinct(items) && k in items && Dangling(s, dstDir + [k])
    ensures RelinkAllAsWritten(s, srcDir, dstDir, items).Err?
    decreases |items|
  {
    var last := items[|items| - 1];
    var prefix := items[..|items| - 1];
    if k in prefix {
      assert Distinct(prefix);
      RelinkAllAsWrittenFailsOnDanglingLink(s, srcDir, dstDir, prefix, k);
    } else {
      assert k == last;
      RelinkAllAsWrittenKeepsElsewhere(s, srcDir, dstDir, prefix, k);
    }
  }

  /** The code's link loop, where it succeeds, leaves another item's place dangling or not, as it was. */
  lemma {:induction false} RelinkAllAsWrittenKeepsElsewhere(s: FsState, srcDir: Path, dstDir: Path, items: seq<string>, k: string)
    requires k !in items
    ensures RelinkAllAsWritten(s, srcDir, dstDir, items).Ok? ==>
              Dangling(RelinkAllAsWritten(s, srcDir, dstDir, items).value, dstDir + [k]) == Dangling(s, dstDir + [k])
    decreases |items|
  {
    if items != [] {
      var last := items[|items| - 1];
      var prefix := items[..|items| - 1];
      assert last != k;
      RelinkAllAsWrittenKeepsElsewhere(s, srcDir, dstDir, prefix, k);
      assert dstDir + [last] != dstDir + [k] by {
        if dstDir + [last] == dstDir + [k] { ChildInjective(dstDir, last, dstDir, k); }
      }
    }
  }

  /** One more item relinks from where the previous ones left the filesystem. */
  lemma RelinkAllStep(s: FsState, srcDir: Path, dstDir: Path, items: seq<string>, i: nat, t: FsState)
    requires i < |items| && RelinkAll(s, srcDir, dstDir, items[..i]) == Ok(t)
    ensures RelinkAll(s, srcDir, dstDir, items[..i + 1]) == Relink(t, srcDir + [items[i]], dstDir + [items[i]])
  {
    assert items[..i + 1][..i] == items[..i] && items[..i + 1][i] == items[i];
  }

  /**
   * One item of a link loop, as intended: whatever is at the destination
   * is tested with `os.path.lexists`, so a dangling link is removed too,
   * before `os.symlink`.
   */
  method RelinkItem(fs: FileSystem, src: Path, dst: Path) returns (r: Result<(), ShardError>)
    modifies fs
    ensures r.Ok? <==> Relink(old(fs.state), src, dst).Ok?
    ensures r.Ok? ==> fs.state == Relink(old(fs.state), src, dst).value
    ensures r.Err? ==> r.error == Relink(old(fs.state), src, dst).error
  {
    if !fs.state.Exists(src) {
      return Err(SourceMissing(src));
    }
    if fs.state.Occupied(dst) {
      if !fs.state.IsLink(dst) {
        return Err(NotALink(dst));
      }
      var unlinked := fs.Unlink(dst);
      assert unlinked.Ok?;  // a link can always be unlinked
    }
    var linked := fs.Symlink(src, dst);
    if linked.Err? {
      return Err(OsFailure(linked.error));
    }
    r := Ok(());
  }

  /** One of `run_solr_shard`'s link loops: for every item, the source must exist and the destination becomes a link to it. */
  method LinkItems(fs: FileSystem, srcDir: Path, dstDir: Path, items: seq<string>) returns (r: Result<(), ShardError>)
    modifies fs
    ensures var e := RelinkAll(old(fs.state), srcDir, dstDir, items);
            && (r.Ok? <==> e.Ok?)
            && (r.Ok? ==> fs.state == e.value)
            && (r.Err? ==> e == Err(r.error))
  {
    var i := 0;
    while i < |items|
      invariant 0 <= i <= |items|
      invariant RelinkAll(old(fs.state), srcDir, dstDir, items[..i]) == Ok(fs.state)
    {
      RelinkAllStep(old(fs.state), srcDir, dstDir, items, i, fs.state);
      var linked := RelinkItem(fs, srcDir + [items[i]], dstDir + [items[i]]);
      if linked.Err? {
        RelinkAllStops(old(fs.state), srcDir, dstDir, items, i + 1);
        return linked;
      }
      i := i + 1;
    }
    assert items[..i] == items;
    r := Ok(());
  }
}
