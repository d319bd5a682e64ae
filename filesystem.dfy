/**
 * The filesystem the scripts work on, as an object whose state the `os`
 * calls change.
 */
module FileSystem {
  import opened Wrappers
  import opened Posix

  /**
   * Each method performs one `os` call: on success the state becomes the
   * call's result, on failure it is left unchanged and the error is returned.
   */
  class FileSystem {
    var state: FsState

    constructor (s: FsState)
      ensures state == s
    {
      state := s;
    }

    method CreateExclusive(p: Path) returns (r: Result<(), OsError>)
      modifies this
      ensures r.Ok? <==> Posix.CreateExclusive(old(state), p).Ok?
      ensures r.Ok? ==> state == Posix.CreateExclusive(old(state), p).value
      ensures r.Err? ==> state == old(state) && r.error == Posix.CreateExclusive(old(state), p).error
    {
      var c := Posix.CreateExclusive(state, p);
      if c.Ok? {
        state := c.value;
        r := Ok(());
      } else {
        r := Err(c.error);
      }
    }

    method MakeDirs(p: Path) returns (r: Result<(), OsError>)
      modifies this
      ensures r.Ok? <==> Posix.MakeDirs(old(state), p).Ok?
      ensures r.Ok? ==> state == Posix.MakeDirs(old(state), p).value
      ensures r.Err? ==> state == old(state) && r.error == Posix.MakeDirs(old(state), p).error
    {
      var c := Posix.MakeDirs(state, p);
      if c.Ok? {
        state := c.value;
        r := Ok(());
      } else {
        r := Err(c.error);
      }
    }

    method Unlink(p: Path) returns (r: Result<(), OsError>)
      modifies this
      ensures r.Ok? <==> Posix.Unlink(old(state), p).Ok?
      ensures r.Ok? ==> state == Posix.Unlink(old(state), p).value
      ensures r.Err? ==> state == old(state) && r.error == Posix.Unlink(old(state), p).error
    {
      var c := Posix.Unlink(state, p);
      if c.Ok? {
        state := c.value;
        r := Ok(());
      } else {
        r := Err(c.error);
      }
    }

    method Symlink(target: Path, p: Path) returns (r: Result<(), OsError>)
      modifies this
      ensures r.Ok? <==> Posix.Symlink(old(state), target, p).Ok?
      ensures r.Ok? ==> state == Posix.Symlink(old(state), target, p).value
      ensures r.Err? ==> state == old(state) && r.error == Posix.Symlink(old(state), target, p).error
    {
      var c := Posix.Symlink(state, target, p);
      if c.Ok? {
        state := c.value;
        r := Ok(());
      } else {
        r := Err(c.error);
      }
    }

    method WriteFile(p: Path, content: string) returns (r: Result<(), OsError>)
      modifies this
      ensures r.Ok? <==> Posix.WriteFile(old(state), p, content).Ok?
      ensures r.Ok? ==> state == Posix.WriteFile(old(state), p, content).value
      ensures r.Err? ==> state == old(state) && r.error == Posix.WriteFile(old(state), p, content).error
    {
      var c := Posix.WriteFile(state, p, content);
      if c.Ok? {
        state := c.value;
        r := Ok(());
      } else {
        r := Err(c.error);
      }
    }

    /** Other processes act on the shared filesystem (while this one sleeps). */
    method Interfere(i: Interference)
      modifies this
      ensures state == Posix.Interfere(old(state), i)
    {
      state := Posix.Interfere(state, i);
    }
  }
}
