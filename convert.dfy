/** `process_file`, `process_directory` and `main`: converting one file,
    converting the `.svg` entries of a directory one after another, and
    choosing between the two. */
module Convert {
  import opened Wrappers
  import opened Paths
  import opened FileSystems
  import opened Answers
  import opened OutputPaths

  /** How a file that did not fail ended: saved, or skipped because the
      user declined to overwrite. */
  datatype Status = Saved(path: Path) | Skipped(path: Path)

  /** The outcome of converting one file, the file system after it and the
      lines of standard input not yet read. */
  datatype Step = Step(result: Result<Status, Error>, fs: Fs, stdin: seq<Option<string>>)

  /** The outcome of a directory batch, the file system and the unread
      input after it, and the input files handed to `process_file`, in
      order. */
  datatype Run = Run(result: Result<(), Error>, fs: Fs, stdin: seq<Option<string>>, attempted: seq<Path>)

  /** Reading the input, parsing it as SVG and allocating a pixmap of its
      size are left to the rendering library; together they succeed for an
      existing file whose content is in `renderable`. */
  predicate Renders(fs: Fs, renderable: set<Path>, input: Path)
  {
    input in fs.files && input in renderable
  }

  /** `process_file` as a function of the file system and the unread input
      before it. */
  function ConvertFile(fs: Fs, renderable: set<Path>, input: Path, target: Path,
                       overwrite: bool, stdin: seq<Option<string>>): (s: Step)
    ensures fs.dirs <= s.fs.dirs && fs.files <= s.fs.files
    ensures fs.Valid() ==> s.fs.Valid()
    ensures s.result.Ok? ==> s.fs.files <= fs.files + {s.result.value.path}
    ensures s.result.Err? ==> s.fs.files == fs.files
  {
    if !Renders(fs, renderable, input) then Step(Err(InputFailed(input)), fs, stdin)
    else
      var res := Resolve(fs, input, target);
      match res.result
      case Err(e) => Step(Err(e), res.fs, stdin)
      case Ok(out) =>
        var present := res.fs.Exists(out);
        var (line, rest) := if Prompts(present, overwrite) then NextLine(stdin) else (Some(""), stdin);
        match Decide(present, overwrite, line)
        case Fail => Step(Err(AnswerFailed), res.fs, rest)
        case Skip => Step(Ok(Skipped(out)), res.fs, rest)
        case Write =>
          match res.fs.SaveFile(out)
          case Err(e) => Step(Err(e), res.fs, rest)
          case Ok(saved) => Step(Ok(Saved(out)), saved, rest)
  }

  /** The filter of `process_directory`: the extension is exactly `svg`,
      with no case folding. */
  predicate IsSvg(p: Path)
  {
    Extension(p) == Some("svg")
  }

  /** The entries of a listing that `process_directory` converts, in
      listing order. */
  function SvgEntries(entries: seq<Option<Path>>): (r: seq<Path>)
    ensures forall i :: 0 <= i < |r| ==> IsSvg(r[i])
    ensures forall i :: 0 <= i < |entries| && entries[i].Some? && IsSvg(entries[i].value) ==>
              entries[i].value in r
    ensures forall i :: 0 <= i < |r| ==> Some(r[i]) in entries
    ensures |r| <= |entries|
  {
    if entries == [] then []
    else
      var first := match entries[0]
        case Some(p) => if IsSvg(p) then [p] else []
        case None => [];
      first + SvgEntries(entries[1..])
  }

  /** The selected entries of a listing, by its first entry. */
  lemma SvgEntriesCons(entry: Option<Path>, entries: seq<Option<Path>>)
    ensures SvgEntries([entry] + entries)
            == (if entry.Some? && IsSvg(entry.value) then [entry.value] else []) + SvgEntries(entries)
  {
    assert ([entry] + entries)[1..] == entries;
  }

  /** One file's conversion as the batch sees it: from the file system,
      an input path and the unread input to the outcome. */
  type Converter = (Fs, Path, seq<Option<string>>) -> Step

  /** The conversion `process_directory` applies to each `.svg` entry:
      `process_file` with the batch's output target and switch. */
  function ConvertInto(renderable: set<Path>, target: Path, overwrite: bool): Converter
  {
    (fs, input, stdin) => ConvertFile(fs, renderable, input, target, overwrite, stdin)
  }

  /** `run` with `done` put in front of the files it attempted. */
  function After(done: seq<Path>, run: Run): Run
  {
    run.(attempted := done + run.attempted)
  }

  /** `process_directory` over a listing as a function of the file system
      and the unread input before it: each `.svg` entry in turn is
      converted, from the state the previous one left; an entry that cannot
      be read, or a file that fails, ends the batch with that error. */
  function Batch(fs: Fs, convert: Converter, entries: seq<Option<Path>>,
                 stdin: seq<Option<string>>): (r: Run)
    ensures |r.attempted| <= |entries|
    decreases |entries|
  {
    if entries == [] then Run(Ok(()), fs, stdin, [])
    else match entries[0]
      case None => Run(Err(EntryFailed), fs, stdin, [])
      case Some(p) =>
        if !IsSvg(p) then Batch(fs, convert, entries[1..], stdin)
        else
          var s := convert(fs, p, stdin);
          if s.result.Err? then Run(Err(s.result.error), s.fs, s.stdin, [p])
          else After([p], Batch(s.fs, convert, entries[1..], s.stdin))
  }

  /** Putting two runs of attempted files in front is putting their
      concatenation in front. */
  lemma AfterAfter(first: seq<Path>, second: seq<Path>, run: Run)
    ensures After(first, After(second, run)) == After(first + second, run)
  {
    assert first + (second + run.attempted) == (first + second) + run.attempted;
  }

  /** A batch from an entry that cannot be read ends there. */
  lemma BatchUnreadable(fs: Fs, convert: Converter, entries: seq<Option<Path>>, i: nat,
                        stdin: seq<Option<string>>)
    requires i < |entries| && entries[i].None?
    ensures Batch(fs, convert, entries[i..], stdin) == Run(Err(EntryFailed), fs, stdin, [])
  {
    assert entries[i..][0] == entries[i];
  }

  /** A batch from an entry that is not `.svg` is the batch from the next
      entry. */
  lemma BatchPassesOver(fs: Fs, convert: Converter, entries: seq<Option<Path>>, i: nat,
                        stdin: seq<Option<string>>)
    requires i < |entries| && entries[i].Some? && !IsSvg(entries[i].value)
    ensures Batch(fs, convert, entries[i..], stdin) == Batch(fs, convert, entries[i + 1..], stdin)
  {
    assert entries[i..][0] == entries[i];
    assert entries[i..][1..] == entries[i + 1..];
  }

  /** A batch from a `.svg` entry converts it, then stops on an error or
      goes on from the next entry. */
  lemma BatchConverts(fs: Fs, convert: Converter, entries: seq<Option<Path>>, i: nat,
                      stdin: seq<Option<string>>)
    requires i < |entries| && entries[i].Some? && IsSvg(entries[i].value)
    ensures var p := entries[i].value;
            var s := convert(fs, p, stdin);
            Batch(fs, convert, entries[i..], stdin)
            == if s.result.Err? then Run(Err(s.result.error), s.fs, s.stdin, [p])
               else After([p], Batch(s.fs, convert, entries[i + 1..], s.stdin))
  {
    assert entries[i..][0] == entries[i];
    assert entries[i..][1..] == entries[i + 1..];
  }

  /** `process_file(input, output, overwrite)`, changing `fs` and reading
      from `stdin`. */
  method ProcessFile(fs: FileSystem, renderable: set<Path>, input: Path, target: Path,
                     overwrite: bool, stdin: seq<Option<string>>)
    returns (r: Result<Status, Error>, rest: seq<Option<string>>)
    requires fs.Valid()
    modifies fs
    ensures fs.Valid()
    ensures Step(r, fs.State(), rest) == ConvertFile(old(fs.State()), renderable, input, target, overwrite, stdin)
  {
    rest := stdin;
    if !Renders(fs.State(), renderable, input) {
      return Err(InputFailed(input)), rest;
    }
    var resolved := DetermineOutputPath(fs, input, target);
    if resolved.Err? {
      return Err(resolved.error), rest;
    }
    var out := resolved.value;
    var present := fs.State().Exists(out);
    var line := Some("");
    if Prompts(present, overwrite) {
      var next := NextLine(stdin);
      line, rest := next.0, next.1;
    }
    var decision := Decide(present, overwrite, line);
    if decision == Fail {
      return Err(AnswerFailed), rest;
    } else if decision == Skip {
      return Ok(Skipped(out)), rest;
    }
    var saved := fs.SaveFile(out);
    if saved.Err? {
      return Err(saved.error), rest;
    }
    r := Ok(Saved(out));
  }

  /** `convert` is `process_file` with the batch's output target and
      switch, at every file system, input and unread input. */
  ghost predicate Agrees(convert: Converter, renderable: set<Path>, target: Path, overwrite: bool)
  {
    forall fs, input, stdin {:trigger ConvertFile(fs, renderable, input, target, overwrite, stdin)} ::
      convert(fs, input, stdin) == ConvertFile(fs, renderable, input, target, overwrite, stdin)
  }

  /** `process_directory(input_dir, output, overwrite)` over the directory's
      listing `entries` (`None` for an entry that could not be read). */
  method ProcessDirectory(fs: FileSystem, renderable: set<Path>, entries: seq<Option<Path>>,
                          target: Path, overwrite: bool, stdin: seq<Option<string>>)
    returns (r: Result<(), Error>, rest: seq<Option<string>>, ghost attempted: seq<Path>)
    requires fs.Valid()
    modifies fs
    ensures fs.Valid()
    ensures Run(r, fs.State(), rest, attempted)
            == Batch(old(fs.State()), ConvertInto(renderable, target, overwrite), entries, stdin)
  {
    r, rest, attempted := ProcessEntries(fs, renderable, entries, target, overwrite,
                                         ConvertInto(renderable, target, overwrite), stdin);
  }

  /** The loop of `process_directory`: each entry in turn, stopping at the
      first error. `convert` is the conversion the batch is specified with. */
  method ProcessEntries(fs: FileSystem, renderable: set<Path>, entries: seq<Option<Path>>,
                        target: Path, overwrite: bool, ghost convert: Converter,
                        stdin: seq<Option<string>>)
    returns (r: Result<(), Error>, rest: seq<Option<string>>, ghost attempted: seq<Path>)
    requires fs.Valid() && Agrees(convert, renderable, target, overwrite)
    modifies fs
    ensures fs.Valid()
    ensures Run(r, fs.State(), rest, attempted) == Batch(old(fs.State()), convert, entries, stdin)
  {
    rest, attempted := stdin, [];
    var i := 0;
    while i < |entries|
      invariant 0 <= i <= |entries|
      invariant fs.Valid()
      invariant Batch(old(fs.State()), convert, entries, stdin)
                == After(attempted, Batch(fs.State(), convert, entries[i..], rest))
    {
      ghost var here, unread := fs.State(), rest;
      if entries[i].None? {
        BatchUnreadable(here, convert, entries, i, unread);
        return Err(EntryFailed), rest, attempted;
      }
      var p := entries[i].value;
      if IsSvg(p) {
        BatchConverts(here, convert, entries, i, unread);
        var s;
        s, rest := ProcessFile(fs, renderable, p, target, overwrite, rest);
        assert convert(here, p, unread) == Step(s, fs.State(), rest);
        if s.Err? {
          attempted := attempted + [p];
          return Err(s.error), rest, attempted;
        }
        AfterAfter(attempted, [p], Batch(fs.State(), convert, entries[i + 1..], rest));
        attempted := attempted + [p];
      } else {
        BatchPassesOver(here, convert, entries, i, unread);
      }
      i := i + 1;
    }
    assert entries[i..] == [];
    r := Ok(());
  }

  /** `main`: a directory input converts its listing, any other input is
      converted as a single file. */
  method RunCommand(fs: FileSystem, renderable: set<Path>, listing: seq<Option<Path>>,
                    input: Path, target: Path, overwrite: bool, stdin: seq<Option<string>>)
    returns (r: Result<(), Error>, rest: seq<Option<string>>)
    requires fs.Valid()
    modifies fs
    ensures fs.Valid()
    ensures old(fs.State()).IsDir(input) ==>
              var run := Batch(old(fs.State()), ConvertInto(renderable, target, overwrite), listing, stdin);
              r == run.result && fs.State() == run.fs && rest == run.stdin
    ensures !old(fs.State()).IsDir(input) ==>
              var s := ConvertFile(old(fs.State()), renderable, input, target, overwrite, stdin);
              (r.Ok? <==> s.result.Ok?) && fs.State() == s.fs && rest == s.stdin
  {
    if fs.State().IsDir(input) {
      ghost var attempted;
      r, rest, attempted := ProcessDirectory(fs, renderable, listing, target, overwrite, stdin);
    } else {
      var s;
      s, rest := ProcessFile(fs, renderable, input, target, overwrite, stdin);
      r := if s.Ok? then Ok(()) else Err(s.error);
    }
  }

  /** A file reported as saved has a `png` extension and is now a file;
      nothing else was added to the files. */
  lemma SavedFileIsPng(fs: Fs, renderable: set<Path>, input: Path, target: Path,
                       overwrite: bool, stdin: seq<Option<string>>)
    requires fs.Valid()
    ensures var s := ConvertFile(fs, renderable, input, target, overwrite, stdin);
            s.result.Ok? && s.result.value.Saved? ==>
              var out := s.result.value.path;
              Extension(out) == Some("png") && s.fs.files == fs.files + {out}
  {
    ResolvedPathIsPng(fs, input, target);
  }

  /** The overwrite rule. Once the output path is resolved, the user is
      asked only when that path exists and `--overwrite` is off; otherwise
      no input is read and the PNG is written. When asked, one line is
      read: a line holding `y` or `Y` between whitespace lets the write
      go ahead; any other line, end of input included, skips the file
      without an error and without touching the file system; a failed
      read is an error. */
  lemma OverwriteRule(fs: Fs, renderable: set<Path>, input: Path, target: Path,
                      overwrite: bool, stdin: seq<Option<string>>)
    requires fs.Valid() && Renders(fs, renderable, input)
    requires Resolve(fs, input, target).result.Ok?
    ensures var res := Resolve(fs, input, target);
            var out := res.result.value;
            var s := ConvertFile(fs, renderable, input, target, overwrite, stdin);
            var written := match res.fs.SaveFile(out)
                           case Ok(saved) => Step(Ok(Saved(out)), saved, s.stdin)
                           case Err(e) => Step(Err(e), res.fs, s.stdin);
            && (!res.fs.Exists(out) || overwrite ==> s.stdin == stdin && s == written)
            && (res.fs.Exists(out) && !overwrite ==>
                  && s.stdin == (if stdin == [] then [] else stdin[1..])
                  && (stdin == [] ==> s == Step(Ok(Skipped(out)), res.fs, []))
                  && (stdin != [] && stdin[0].None? ==> s == Step(Err(AnswerFailed), res.fs, s.stdin))
                  && (stdin != [] && stdin[0].Some? && !Affirmative(stdin[0].value) ==>
                        s == Step(Ok(Skipped(out)), res.fs, s.stdin))
                  && (stdin != [] && stdin[0].Some? && Affirmative(stdin[0].value) ==> s == written))
  {
    if stdin == [] {
      assert !Affirmative("");
    }
  }

  /** An output target that is an existing file is refused before the
      overwrite question is reached: the conversion fails with
      `FileExists` whatever `--overwrite` says, and reads no input. */
  lemma ExistingFileTargetIsRefused(fs: Fs, renderable: set<Path>, input: Path, target: Path,
                                    overwrite: bool, stdin: seq<Option<string>>)
    requires fs.Valid() && Renders(fs, renderable, input) && input != [] && target in fs.files
    ensures ConvertFile(fs, renderable, input, target, overwrite, stdin)
            == Step(Err(FileExists(target)), fs, stdin)
  {
    ResolveOntoExistingFile(fs, input, target);
  }

  /** A batch whose output target is a new `.png` file name in an existing
      directory writes the first `.svg` entry to that file and then fails
      on the second, which finds the target an existing file. */
  lemma PngTargetTakesOneFile(fs: Fs, renderable: set<Path>, x: Path, y: Path, target: Path,
                              overwrite: bool, stdin: seq<Option<string>>)
    requires fs.Valid() && IsSvg(x) && IsSvg(y)
    requires Renders(fs, renderable, x) && Renders(fs, renderable, y)
    requires !fs.Exists(target) && Extension(target) == Some("png")
    requires target != [] && fs.IsDir(target[..|target| - 1])
    ensures var r := Batch(fs, ConvertInto(renderable, target, overwrite), [Some(x), Some(y)], stdin);
            && r.result == Err(FileExists(target))
            && r.attempted == [x, y]
            && r.fs == Fs(fs.dirs, fs.files + {target})
  {
    ResolveNewPngTarget(fs, x, target);
    var saved := Fs(fs.dirs, fs.files + {target});
    assert ConvertFile(fs, renderable, x, target, overwrite, stdin) == Step(Ok(Saved(target)), saved, stdin);
    ResolveOntoExistingFile(saved, y, target);
    assert ConvertFile(saved, renderable, y, target, overwrite, stdin) == Step(Err(FileExists(target)), saved, stdin);
    var entries: seq<Option<Path>> := [Some(x), Some(y)];
    assert entries[1..] == [Some(y)];
  }

  /** The listing with every entry that is readable and not `.svg` removed. */
  function OnlySvg(entries: seq<Option<Path>>): (r: seq<Option<Path>>)
    ensures |r| <= |entries|
    ensures forall i :: 0 <= i < |r| && r[i].Some? ==> IsSvg(r[i].value)
  {
    if entries == [] then []
    else if entries[0].Some? && !IsSvg(entries[0].value) then OnlySvg(entries[1..])
    else [entries[0]] + OnlySvg(entries[1..])
  }

  /** The files a batch attempts are the listing's `.svg` entries, in
      listing order: a leading part of them when it fails, all of them
      when it succeeds. */
  lemma {:induction false} BatchAttemptsSvgEntries(fs: Fs, convert: Converter,
                                                   entries: seq<Option<Path>>, stdin: seq<Option<string>>)
    ensures var r := Batch(fs, convert, entries, stdin);
            && r.attempted <= SvgEntries(entries)
            && (r.result.Ok? ==> r.attempted == SvgEntries(entries))
    decreases |entries|
  {
    if entries != [] && entries[0].Some? {
      var p := entries[0].value;
      if !IsSvg(p) {
        BatchAttemptsSvgEntries(fs, convert, entries[1..], stdin);
      } else {
        var s := convert(fs, p, stdin);
        if s.result.Ok? {
          BatchAttemptsSvgEntries(s.fs, convert, entries[1..], s.stdin);
        }
      }
    }
  }

  /** Entries that are not `.svg` (`.SVG`, `.txt`, no extension, hidden
      `.svg` files) have no effect on a batch. */
  lemma {:induction false} BatchIgnoresOtherEntries(fs: Fs, convert: Converter,
                                                    entries: seq<Option<Path>>, stdin: seq<Option<string>>)
    ensures Batch(fs, convert, entries, stdin) == Batch(fs, convert, OnlySvg(entries), stdin)
    decreases |entries|
  {
    if entries != [] {
      var kept := OnlySvg(entries);
      if entries[0].Some? && !IsSvg(entries[0].value) {
        BatchIgnoresOtherEntries(fs, convert, entries[1..], stdin);
      } else {
        assert kept[0] == entries[0] && kept[1..] == OnlySvg(entries[1..]);
        if entries[0].Some? {
          var s := convert(fs, entries[0].value, stdin);
          if s.result.Ok? {
            BatchIgnoresOtherEntries(s.fs, convert, entries[1..], s.stdin);
          }
        }
      }
    }
  }

  /** A batch over two listings one after the other: the second listing is
      processed, from the state the first left, only if the first
      succeeded; an error in the first ends the batch there. */
  lemma {:induction false} BatchStopsAtFirstError(fs: Fs, convert: Converter,
                                                  first: seq<Option<Path>>, second: seq<Option<Path>>,
                                                  stdin: seq<Option<string>>)
    ensures var r1 := Batch(fs, convert, first, stdin);
            Batch(fs, convert, first + second, stdin)
            == if r1.result.Err? then r1
               else After(r1.attempted, Batch(r1.fs, convert, second, r1.stdin))
    decreases |first|
  {
    var full := first + second;
    if first == [] {
      assert full == second;
    } else {
      assert full[0] == first[0] && full[1..] == first[1..] + second;
      match first[0]
      case None =>
      case Some(p) =>
        if !IsSvg(p) {
          BatchStopsAtFirstError(fs, convert, first[1..], second, stdin);
        } else {
          var s := convert(fs, p, stdin);
          if s.result.Ok? {
            BatchStopsAtFirstError(s.fs, convert, first[1..], second, s.stdin);
            var rest1 := Batch(s.fs, convert, first[1..], s.stdin);
            if rest1.result.Ok? {
              var rest2 := Batch(rest1.fs, convert, second, rest1.stdin);
              assert [p] + (rest1.attempted + rest2.attempted) == ([p] + rest1.attempted) + rest2.attempted;
            }
          }
        }
    }
  }
}
