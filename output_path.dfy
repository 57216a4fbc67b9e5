/** `determine_output_path`: where the PNG for one input file goes, and
    which directories are created on the way. */
module OutputPaths {
  import opened Wrappers
  import opened Paths
  import opened FileSystems

  /** The outcome of resolving an output path, and the file system after it. */
  datatype Resolution = Resolution(result: Result<Path, Error>, fs: Fs)

  /** The resolution as a function of the file system before it. A target
      that does not exist gets its missing parent directories; it is then
      taken as the output file when its extension is `png`, and otherwise
      created as a directory that receives the input's file name. An
      existing directory receives the input's file name; an existing file
      is refused. The chosen path's extension is then set to `png`. Only
      directories are ever added. */
  function Resolve(fs: Fs, input: Path, target: Path): (r: Resolution)
    ensures r.fs.files == fs.files && fs.dirs <= r.fs.dirs
    ensures fs.Valid() ==> r.fs.Valid()
  {
    match FileName(input)
    case None => Resolution(Err(NoFileName(input)), fs)
    case Some(name) =>
      if !fs.Exists(target) then
        var made :=
          match Parent(target)
          case Some(parent) => if !fs.Exists(parent) then fs.CreateDirAll(parent) else Ok(fs)
          case None => Ok(fs);
        match made
        case Err(e) => Resolution(Err(e), fs)
        case Ok(fs1) =>
          if Extension(target) == Some("png") then
            Resolution(Ok(WithExtension(target, "png")), fs1)
          else
            match fs1.CreateDir(target)
            case Err(e) => Resolution(Err(e), fs1)
            case Ok(fs2) => Resolution(Ok(WithExtension(Join(target, name), "png")), fs2)
      else if fs.IsDir(target) then
        Resolution(Ok(WithExtension(Join(target, name), "png")), fs)
      else
        Resolution(Err(FileExists(target)), fs)
  }

  /** `determine_output_path(input_file, output_path)`, changing `fs`. */
  method DetermineOutputPath(fs: FileSystem, input: Path, target: Path) returns (r: Result<Path, Error>)
    requires fs.Valid()
    modifies fs
    ensures fs.Valid()
    ensures Resolution(r, fs.State()) == Resolve(old(fs.State()), input, target)
  {
    var fileName := FileName(input);
    if fileName.None? {
      return Err(NoFileName(input));
    }
    var name := fileName.value;
    var out: Path;
    if !fs.State().Exists(target) {
      var parent := Parent(target);
      if parent.Some? && !fs.State().Exists(parent.value) {
        var made := fs.CreateDirAll(parent.value);
        if made.Err? {
          return Err(made.error);
        }
      }
      if Extension(target) == Some("png") {
        out := target;
      } else {
        var made := fs.CreateDir(target);
        if made.Err? {
          return Err(made.error);
        }
        out := Join(target, name);
      }
    } else if fs.State().IsDir(target) {
      out := Join(target, name);
    } else {
      return Err(FileExists(target));
    }
    r := Ok(WithExtension(out, "png"));
  }

  /** In a directory tree, a directory's ancestors are all directories. */
  lemma AncestorsOfDirAreDirs(fs: Fs, p: Path)
    requires fs.Valid() && (p in fs.dirs || p in fs.files)
    ensures Prefixes(p) - {p} <= fs.dirs
  {
    assert p == p[..|p|];
    forall q | q in Prefixes(p) - {p} ensures q in fs.dirs {
      assert q == p[..|q|] && |q| < |p|;
    }
  }

  /** A non-empty path's prefixes are its parent's prefixes and itself. */
  lemma PrefixesOfChild(p: Path)
    requires p != []
    ensures Prefixes(p) == Prefixes(p[..|p| - 1]) + {p}
  {
    var parent := p[..|p| - 1];
    forall q | q in Prefixes(p) && q != p ensures q in Prefixes(parent) {
      assert |q| < |p|;
      assert q == parent[..|q|];
    }
    forall q | q in Prefixes(parent) ensures q in Prefixes(p) {
      assert q == parent[..|q|] == p[..|q|];
    }
    assert p == p[..|p|];
  }

  /** Every successful resolution names a file whose extension is `png`,
      whatever the input's extension was. */
  lemma ResolvedPathIsPng(fs: Fs, input: Path, target: Path)
    ensures Resolve(fs, input, target).result.Ok? ==>
              var out := Resolve(fs, input, target).result.value;
              out != [] && Extension(out) == Some("png")
  {
    if input != [] {
      var name := input[|input| - 1];
      if !fs.Exists(target) && Extension(target) == Some("png") {
        PngOutput(target);
      } else {
        PngOutput(Join(target, name));
      }
    }
  }

  /** Setting the extension `png` on a path with a file name gives a path
      with a file name and extension `png`. */
  lemma PngOutput(p: Path)
    requires p != []
    ensures WithExtension(p, "png") != [] && Extension(WithExtension(p, "png")) == Some("png")
  {
    WithExtensionRoundTrip(p, "png");
  }

  /** An input without a file name is refused before the file system is
      looked at. */
  lemma ResolveWithoutFileName(fs: Fs, input: Path, target: Path)
    requires FileName(input).None?
    ensures Resolve(fs, input, target) == Resolution(Err(NoFileName(input)), fs)
  {
  }

  /** A target that is an existing file is refused with `FileExists`, and
      no directory is created. */
  lemma ResolveOntoExistingFile(fs: Fs, input: Path, target: Path)
    requires fs.Valid() && input != [] && target in fs.files
    ensures Resolve(fs, input, target) == Resolution(Err(FileExists(target)), fs)
  {
  }

  /** A target that is an existing directory receives a file named after
      the input's stem with extension `png`, and nothing is created. */
  lemma ResolveIntoExistingDir(fs: Fs, input: Path, target: Path)
    requires fs.Valid() && input != [] && fs.IsDir(target)
    ensures var r := Resolve(fs, input, target);
            && r.fs == fs
            && r.result.Ok?
            && Parent(r.result.value) == Some(target)
            && Stem(r.result.value) == Stem(input)
            && Extension(r.result.value) == Some("png")
  {
    WithExtensionRoundTrip(Join(target, input[|input| - 1]), "png");
  }

  /** A target that does not exist and has extension `png` is itself the
      output file. Resolution fails exactly when an ancestor above its
      parent is a file; on success the missing ancestors of the target are
      created, and the target is not made a directory. */
  lemma ResolveNewPngTarget(fs: Fs, input: Path, target: Path)
    requires fs.Valid() && input != []
    requires !fs.Exists(target) && Extension(target) == Some("png")
    ensures target != []
    ensures var r := Resolve(fs, input, target);
            && (r.result.Ok? <==> forall k :: 0 <= k < |target| - 1 ==> target[..k] !in fs.files)
            && (r.result.Ok? ==> r.result.value == target && target !in r.fs.dirs)
            && (r.result.Ok? && target[..|target| - 1] !in fs.files ==>
                  r.fs.dirs == fs.dirs + Prefixes(target[..|target| - 1]))
            && (r.result.Err? || target[..|target| - 1] in fs.files ==> r.fs == fs)
  {
    var parent := target[..|target| - 1];
    WithOwnExtension(target, "png");
    forall k | 0 <= k < |target| - 1 ensures target[..k] == parent[..k] { }
    if parent in fs.dirs {
      AncestorsOfDirAreDirs(fs, parent);
      assert parent == parent[..|parent|];
    } else if parent in fs.files {
      assert forall k :: 0 <= k < |parent| ==> parent[..k] in fs.dirs;
    }
  }

  /** A target that does not exist and whose extension is not `png` is
      made a directory, together with its missing ancestors, and receives a
      file named after the input's stem with extension `png`. Resolution
      fails, changing nothing, exactly when an ancestor of the target is a
      file. */
  lemma ResolveNewDirTarget(fs: Fs, input: Path, target: Path)
    requires fs.Valid() && input != []
    requires !fs.Exists(target) && Extension(target) != Some("png")
    ensures target != []
    ensures var r := Resolve(fs, input, target);
            && (r.result.Ok? <==> forall k :: 0 <= k < |target| ==> target[..k] !in fs.files)
            && (r.result.Ok? ==>
                  && r.fs.dirs == fs.dirs + Prefixes(target)
                  && Parent(r.result.value) == Some(target)
                  && Stem(r.result.value) == Stem(input)
                  && Extension(r.result.value) == Some("png"))
            && (r.result.Err? ==> r.fs == fs)
  {
    var parent := target[..|target| - 1];
    if parent in fs.dirs {
      NewDirUnderDir(fs, input, target);
    } else if parent in fs.files {
      NewDirUnderFile(fs, input, target);
    } else {
      NewDirUnderMissing(fs, input, target);
    }
  }

  /** What `ResolveNewDirTarget` promises of the resolution `r`. */
  ghost predicate NewDirOutcome(fs: Fs, input: Path, target: Path, r: Resolution)
  {
    && (r.result.Ok? <==> forall k :: 0 <= k < |target| ==> target[..k] !in fs.files)
    && (r.result.Ok? ==>
          && r.fs.dirs == fs.dirs + Prefixes(target)
          && Parent(r.result.value) == Some(target)
          && Stem(r.result.value) == Stem(input)
          && Extension(r.result.value) == Some("png"))
    && (r.result.Err? ==> r.fs == fs)
  }

  /** The output file inside a new directory target. */
  lemma NewDirFile(input: Path, target: Path)
    requires input != [] && target != []
    ensures var out := WithExtension(Join(target, input[|input| - 1]), "png");
            Parent(out) == Some(target) && Stem(out) == Stem(input) && Extension(out) == Some("png")
  {
    WithExtensionRoundTrip(Join(target, input[|input| - 1]), "png");
  }

  /** A new directory target whose parent is a directory is created alone. */
  lemma NewDirUnderDir(fs: Fs, input: Path, target: Path)
    requires fs.Valid() && input != [] && target != []
    requires !fs.Exists(target) && Extension(target) != Some("png")
    requires target[..|target| - 1] in fs.dirs
    ensures Resolve(fs, input, target)
            == Resolution(Ok(WithExtension(Join(target, input[|input| - 1]), "png")),
                          Fs(fs.dirs + {target}, fs.files))
    ensures NewDirOutcome(fs, input, target, Resolve(fs, input, target))
  {
    var parent := target[..|target| - 1];
    NewDirFile(input, target);
    PrefixesOfChild(target);
    AncestorsOfDirAreDirs(fs, parent);
    assert parent == parent[..|parent|];
    forall k | 0 <= k < |target| ensures target[..k] !in fs.files {
      assert target[..k] == parent[..k];
    }
  }

  /** A new directory target whose parent is a file is refused. */
  lemma NewDirUnderFile(fs: Fs, input: Path, target: Path)
    requires fs.Valid() && input != [] && target != []
    requires !fs.Exists(target) && Extension(target) != Some("png")
    requires target[..|target| - 1] in fs.files
    ensures Resolve(fs, input, target) == Resolution(Err(CreateDirFailed(target)), fs)
    ensures NewDirOutcome(fs, input, target, Resolve(fs, input, target))
  {
    assert target[..|target| - 1] in fs.files;
  }

  /** A new directory target whose parent is missing gets its ancestors
      first; if that fails, nothing changes. */
  lemma NewDirUnderMissing(fs: Fs, input: Path, target: Path)
    requires fs.Valid() && input != [] && target != []
    requires !fs.Exists(target) && Extension(target) != Some("png")
    requires !fs.Exists(target[..|target| - 1])
    ensures var made := fs.CreateDirAll(target[..|target| - 1]);
            Resolve(fs, input, target)
            == if made.Ok? then
                 Resolution(Ok(WithExtension(Join(target, input[|input| - 1]), "png")),
                            Fs(made.value.dirs + {target}, fs.files))
               else Resolution(Err(CreateDirFailed(target[..|target| - 1])), fs)
    ensures NewDirOutcome(fs, input, target, Resolve(fs, input, target))
  {
    var parent := target[..|target| - 1];
    var made := fs.CreateDirAll(parent);
    NewDirFile(input, target);
    PrefixesOfChild(target);
    if made.Ok? {
      assert made.value.CreateDir(target).Ok?;
    }
    forall k | 0 <= k < |target| ensures target[..k] == parent[..k] { }
    assert parent == parent[..|parent|];
  }
}
