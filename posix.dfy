/**
 * The host filesystem as the scripts see it through Python's `os` module,
 * reduced to three collections: regular files (with their contents),
 * directories and symbolic links (with their targets).
 *
 * A path is the list of its components; the root directory is `[]` and
 * `os.path.join(p, name)` is `p + [name]`.  The queries `isfile`, `isdir`
 * and `exists` follow one symbolic link, as the scripts' links always
 * point at a file or a directory.
 */
module Posix {
  import opened Wrappers

  type Path = seq<string>

  function Parent(p: Path): Path
    requires p != []
  {
    p[..|p| - 1]
  }

  /** The error number an `os` call raises. */
  datatype OsError =
    | AlreadyExists   // EEXIST
    | NotFound        // ENOENT
    | NotADirectory   // ENOTDIR
    | IsADirectory    // EISDIR

  datatype FsState = FsState(files: map<Path, string>, dirs: set<Path>, links: map<Path, Path>)
  {
    /** A well-formed tree: a root, one kind of entry per path, and every entry inside a directory. */
    predicate Valid() {
      && [] in dirs
      && files.Keys !! dirs && files.Keys !! links.Keys && dirs !! links.Keys
      && (forall p | p in files :: p != [] && Parent(p) in dirs)
      && (forall p | p in dirs && p != [] :: Parent(p) in dirs)
      && (forall p | p in links :: p != [] && Parent(p) in dirs)
    }

    /** `os.path.lexists`: some entry, a symbolic link included, is at `p`. */
    predicate Occupied(p: Path) {
      p in files || p in dirs || p in links
    }

    /** `os.path.isfile`. */
    predicate IsFile(p: Path) {
      p in files || (p in links && links[p] in files)
    }

    /** `os.path.isdir`. */
    predicate IsDir(p: Path) {
      p in dirs || (p in links && links[p] in dirs)
    }

    /** `os.path.islink`. */
    predicate IsLink(p: Path) {
      p in links
    }

    /** `os.path.exists`: false for a dangling symbolic link. */
    predicate Exists(p: Path) {
      IsFile(p) || IsDir(p)
    }

    predicate ParentIsDir(p: Path) {
      p != [] && Parent(p) in dirs
    }
  }

  // -----------------------------------------------------------------------
  // The os calls the scripts make, as functions from the old state
  // -----------------------------------------------------------------------

  /** `os.open(p, os.O_CREAT | os.O_EXCL | os.O_RDWR)`: creates an empty file or raises. */
  function CreateExclusive(s: FsState, p: Path): (r: Result<FsState, OsError>)
    ensures r.Ok? <==> !s.Occupied(p) && s.ParentIsDir(p)
    ensures r.Err? && s.Occupied(p) ==> r.error == AlreadyExists
    ensures s.Valid() && r.Ok? ==> r.value.Valid()
  {
    if s.Occupied(p) then Err(AlreadyExists)
    else if !s.ParentIsDir(p) then Err(NotFound)
    else Ok(s.(files := s.files[p := ""]))
  }

  /** Some proper ancestor of `p` is a file or a symbolic link. */
  predicate AncestorBlocked(s: FsState, p: Path) {
    exists k | 1 <= k < |p| :: p[..k] in s.files || p[..k] in s.links
  }

  function Prefixes(p: Path): set<Path> {
    set k | 1 <= k <= |p| :: p[..k]
  }

  /**
   * `os.makedirs(p)`: creates `p` and every missing ancestor; raises EEXIST
   * when `p` is already there and ENOTDIR when an ancestor is not a directory.
   */
  function MakeDirs(s: FsState, p: Path): (r: Result<FsState, OsError>)
    ensures r.Ok? <==> !s.Occupied(p) && !AncestorBlocked(s, p)
    ensures r.Err? && s.Occupied(p) ==> r.error == AlreadyExists
    ensures r.Ok? ==> r.value.files == s.files && r.value.links == s.links && s.dirs <= r.value.dirs
    ensures r.Ok? ==> r.value.dirs <= s.dirs + Prefixes(p)
    ensures s.Valid() && r.Ok? ==> r.value.Valid() && p in r.value.dirs
  {
    if s.Occupied(p) then Err(AlreadyExists)
    else if AncestorBlocked(s, p) then Err(NotADirectory)
    else
      var t := s.(dirs := s.dirs + Prefixes(p));
      assert p[..|p|] == p;
      assert s.Valid() ==> t.Valid() by {
        if s.Valid() {
          forall q | q in t.dirs && q != [] ensures Parent(q) in t.dirs {
            if q !in s.dirs {
              var k :| 1 <= k <= |p| && q == p[..k];
              assert Parent(q) == p[..k - 1];
            }
          }
          forall q | q in Prefixes(p) ensures q !in s.files && q !in s.links {
            var k :| 1 <= k <= |p| && q == p[..k];
          }
        }
      }
      Ok(t)
  }

  /** `os.unlink(p)`: removes a file or a symbolic link. */
  function Unlink(s: FsState, p: Path): (r: Result<FsState, OsError>)
    ensures r.Ok? <==> p in s.files || p in s.links
    ensures r.Ok? ==> r.value.dirs == s.dirs
    ensures s.Valid() && r.Ok? ==> !r.value.Occupied(p)
    ensures r.Ok? ==> forall q | q != p :: (q in r.value.files <==> q in s.files) && (q in r.value.links <==> q in s.links)
    ensures r.Ok? ==> forall q | q in r.value.files :: q in s.files && r.value.files[q] == s.files[q]
    ensures r.Ok? ==> forall q | q in r.value.links :: q in s.links && r.value.links[q] == s.links[q]
    ensures s.Valid() && r.Ok? ==> r.value.Valid()
  {
    if p in s.files then Ok(s.(files := s.files - {p}))
    else if p in s.links then Ok(s.(links := s.links - {p}))
    else if p in s.dirs then Err(IsADirectory)
    else Err(NotFound)
  }

  /** `os.symlink(target, p)`: the target need not exist. */
  function Symlink(s: FsState, target: Path, p: Path): (r: Result<FsState, OsError>)
    ensures r.Ok? <==> !s.Occupied(p) && s.ParentIsDir(p)
    ensures r.Err? && s.Occupied(p) ==> r.error == AlreadyExists
    ensures r.Ok? ==> r.value == s.(links := s.links[p := target])
    ensures s.Valid() && r.Ok? ==> r.value.Valid()
  {
    if s.Occupied(p) then Err(AlreadyExists)
    else if !s.ParentIsDir(p) then Err(NotFound)
    else Ok(s.(links := s.links[p := target]))
  }

  /**
   * `open(p, 'w').write(content)`: truncates or creates a regular file,
   * writing through a symbolic link to an existing file.
   */
  function WriteFile(s: FsState, p: Path, content: string): (r: Result<FsState, OsError>)
    ensures r.Ok? ==> r.value.dirs == s.dirs && r.value.links == s.links && s.files.Keys <= r.value.files.Keys
    ensures r.Ok? ==> r.value.IsFile(p)
    ensures r.Ok? ==> forall q | q in r.value.files && !(q == p || (p in s.links && q == s.links[p])) ::
                        q in s.files && r.value.files[q] == s.files[q]
    ensures r.Ok? && p !in s.links ==> r.value.files == s.files[p := content]
    ensures s.Valid() && r.Ok? ==> r.value.Valid()
  {
    if p in s.dirs then Err(IsADirectory)
    else if p in s.files then Ok(s.(files := s.files[p := content]))
    else if p in s.links then
      var t := s.links[p];
      if t in s.files then Ok(s.(files := s.files[t := content]))
      else if t in s.dirs then Err(IsADirectory)
      else Err(NotFound)
    else if s.ParentIsDir(p) then Ok(s.(files := s.files[p := content]))
    else Err(NotFound)
  }

  /**
   * What other processes do to the shared filesystem while this one
   * sleeps: regular files they remove and regular files they create.
   */
  datatype Interference = Interference(removed: set<Path>, created: map<Path, string>)

  const NoInterference := Interference({}, map[])

  function Interfere(s: FsState, i: Interference): (r: FsState)
    ensures r.dirs == s.dirs && r.links == s.links
    ensures forall p | p !in i.removed && p !in i.created :: (p in r.files <==> p in s.files)
    ensures forall p | p in s.files && p !in i.removed && p !in i.created :: r.files[p] == s.files[p]
    ensures s.Valid() ==> r.Valid()
  {
    var created := map p | p in i.created && p !in s.dirs && p !in s.links && s.ParentIsDir(p) :: i.created[p];
    s.(files := (s.files - i.removed) + created)
  }

  lemma NoInterferenceChangesNothing(s: FsState)
    ensures Interfere(s, NoInterference) == s
  {
    assert (s.files - {}) + map[] == s.files;
  }
}
