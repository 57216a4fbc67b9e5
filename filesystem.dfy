/** The part of the file system the converter sees: which paths are
    directories and which are files, and the three calls that change it,
    `fs::create_dir_all`, `fs::create_dir` and the PNG save. */
module FileSystems {
  import opened Wrappers
  import opened Paths

  /** The converter's failures, by kind. The message text and the context
      `anyhow` attaches are not modelled. */
  datatype Error =
    | NoFileName(input: Path)     // the input path has no file name
    | CreateDirFailed(path: Path) // a directory could not be created
    | FileExists(path: Path)      // the output target is an existing file
    | InputFailed(path: Path)     // reading, parsing or sizing the SVG failed
    | AnswerFailed                // the overwrite answer could not be read
    | SaveFailed(path: Path)      // the PNG could not be written
    | EntryFailed                 // a directory entry could not be read

  /** A snapshot of the file system. */
  datatype Fs = Fs(dirs: set<Path>, files: set<Path>) {

    /** `Path::exists`. */
    predicate Exists(p: Path)
    {
      p in dirs || p in files
    }

    /** `Path::is_dir`. */
    predicate IsDir(p: Path)
    {
      p in dirs
    }

    /** A directory tree: the current directory is a directory, no path is
        both a file and a directory, and every ancestor of an existing path
        is a directory. */
    ghost predicate Valid()
    {
      && [] in dirs
      && dirs !! files
      && (forall p, k :: p in dirs && 0 <= k < |p| ==> p[..k] in dirs)
      && (forall p, k :: p in files && 0 <= k < |p| ==> p[..k] in dirs)
    }

    /** `fs::create_dir_all(p)`: it fails, and changes nothing, when `p` or
        one of its ancestors is a file; otherwise `p` and all its ancestors
        are directories afterwards and nothing else has changed. */
    function CreateDirAll(p: Path): (r: Result<Fs, Error>)
      ensures r.Ok? <==> forall k :: 0 <= k <= |p| ==> p[..k] !in files
      ensures r.Err? ==> r.error == CreateDirFailed(p)
      ensures r.Ok? ==> r.value.IsDir(p) && (Valid() ==> r.value.Valid())
      ensures r.Ok? ==> r.value.files == files && r.value.dirs == dirs + Prefixes(p)
    {
      if exists k :: 0 <= k <= |p| && p[..k] in files then Err(CreateDirFailed(p))
      else
        var next := Fs(dirs + Prefixes(p), files);
        assert Valid() ==> forall q, k :: q in next.dirs && 0 <= k < |q| ==> q[..k] in next.dirs by {
          if Valid() {
            forall q, k | q in next.dirs && 0 <= k < |q| ensures q[..k] in next.dirs {
              if q !in dirs {
                assert q == p[..|q|] && q[..k] == p[..k];
              }
            }
          }
        }
        assert p == p[..|p|];
        Ok(next)
    }

    /** `fs::create_dir(p)`: it succeeds exactly when `p` does not exist
        and its parent is a directory, and then adds `p` alone. */
    function CreateDir(p: Path): (r: Result<Fs, Error>)
      ensures r.Ok? <==> p != [] && !Exists(p) && IsDir(p[..|p| - 1])
      ensures r.Err? ==> r.error == CreateDirFailed(p)
      ensures r.Ok? ==> r.value == Fs(dirs + {p}, files) && (Valid() ==> r.value.Valid())
    {
      if p != [] && !Exists(p) && IsDir(p[..|p| - 1]) then
        var next := Fs(dirs + {p}, files);
        assert Valid() ==> forall q, k :: q in next.dirs && 0 <= k < |q| ==> q[..k] in next.dirs by {
          if Valid() {
            forall q, k | q in next.dirs && 0 <= k < |q| ensures q[..k] in next.dirs {
              if q == p && k < |p| - 1 {
                assert p[..k] == p[..|p| - 1][..k];
              }
            }
          }
        }
        Ok(next)
      else Err(CreateDirFailed(p))
    }

    /** Writing a file at `p` (`Pixmap::save_png`): it succeeds exactly
        when `p` is not a directory and its parent is one; the file is
        created or replaced and nothing else changes. */
    function SaveFile(p: Path): (r: Result<Fs, Error>)
      ensures r.Ok? <==> p != [] && !IsDir(p) && IsDir(p[..|p| - 1])
      ensures r.Err? ==> r.error == SaveFailed(p)
      ensures r.Ok? ==> r.value == Fs(dirs, files + {p}) && (Valid() ==> r.value.Valid())
    {
      if p != [] && !IsDir(p) && IsDir(p[..|p| - 1]) then
        var next := Fs(dirs, files + {p});
        assert Valid() ==> forall q, k :: q in next.files && 0 <= k < |q| ==> q[..k] in next.dirs by {
          if Valid() {
            forall q, k | q in next.files && 0 <= k < |q| ensures q[..k] in next.dirs {
              if q == p && k < |p| - 1 {
                assert p[..k] == p[..|p| - 1][..k];
              }
            }
          }
        }
        Ok(next)
      else Err(SaveFailed(p))
    }
  }

  /** The file system as the converter changes it in place. */
  class FileSystem {
    var dirs: set<Path>
    var files: set<Path>

    /** The current snapshot. */
    function State(): Fs
      reads this
    {
      Fs(dirs, files)
    }

    ghost predicate Valid()
      reads this
    {
      State().Valid()
    }

    constructor (init: Fs)
      requires init.Valid()
      ensures Valid() && State() == init
    {
      dirs, files := init.dirs, init.files;
    }

    /** `fs::create_dir_all`. */
    method CreateDirAll(p: Path) returns (r: Result<(), Error>)
      requires Valid()
      modifies this
      ensures Valid()
      ensures match old(State()).CreateDirAll(p)
              case Ok(next) => r == Ok(()) && State() == next
              case Err(e) => r == Err(e) && State() == old(State())
    {
      var next := State().CreateDirAll(p);
      if next.Ok? {
        dirs := next.value.dirs;
        r := Ok(());
      } else {
        r := Err(next.error);
      }
    }

    /** `fs::create_dir`. */
    method CreateDir(p: Path) returns (r: Result<(), Error>)
      requires Valid()
      modifies this
      ensures Valid()
      ensures match old(State()).CreateDir(p)
              case Ok(next) => r == Ok(()) && State() == next
              case Err(e) => r == Err(e) && State() == old(State())
    {
      var next := State().CreateDir(p);
      if next.Ok? {
        dirs := next.value.dirs;
        r := Ok(());
      } else {
        r := Err(next.error);
      }
    }

    /** `Pixmap::save_png`. */
    method SaveFile(p: Path) returns (r: Result<(), Error>)
      requires Valid()
      modifies this
      ensures Valid()
      ensures match old(State()).SaveFile(p)
              case Ok(next) => r == Ok(()) && State() == next
              case Err(e) => r == Err(e) && State() == old(State())
    {
      var next := State().SaveFile(p);
      if next.Ok? {
        files := next.value.files;
        r := Ok(());
      } else {
        r := Err(next.error);
      }
    }
  }
}
