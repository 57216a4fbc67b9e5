# svg2png: output paths, the overwrite prompt and directory batches

`svg2png` converts an SVG file, or every `.svg` file in a directory, to PNG.
The rendering library parses and rasterises the SVG and encodes the PNG.
The program itself decides three things, and this project models and proves them:

- where each PNG goes (`determine_output_path`), including the directories it creates on the way;
- whether an existing output is overwritten: the `--overwrite` switch, the `[y/N]` question and how the answer line is read;
- which directory entries are converted, in which order, and when a batch stops.

The model is organised as follows:

- `paths.dfy` (`Paths`) holds relative paths as sequences of component names. It also models the parts of `std::path::Path` that the program uses: `file_name`, `parent`, `join`, `extension`, `file_stem` and `with_extension`. The split of a file name at its last dot follows Rust's rule: a name whose only dot is its first character, such as `.svg`, has no extension.
- `filesystem.dfy` (`FileSystems`) holds the file system as a set of directories and a set of files. `Fs` is a snapshot value and `FileSystem` is the class whose fields the program changes. It models `fs::create_dir_all`, `fs::create_dir` and the PNG save, each against a directory tree in which every ancestor of an existing path is a directory.
- `answers.dfy` (`Answers`) models `trim`, `eq_ignore_ascii_case` and the Write / Skip / Fail decision.
- `output_path.dfy` (`OutputPaths`) holds `determine_output_path` in two forms. `Resolve` is a function of the file system before the call. `DetermineOutputPath` is a method that changes a `FileSystem`. The method is proved equal to the function, and the lemmas state the rules the function follows.
- `convert.dfy` (`Convert`) holds `process_file`, `process_directory` and `main`. Each is a method proved against a specification function (`ConvertFile`, `Batch`). The directory loop is a `while` loop with its invariant.
- `scenarios.dfy` (`Scenarios`) holds worked cases on concrete paths.

The program's inputs from outside become parameters:

- The directory listing is an arbitrary sequence of entries. An entry that could not be read is `None`.
- Standard input is a sequence of lines. A failed read is `None`, and at end of input the line is empty.
- The rendering library's success for an input is the set `renderable`. Reading, parsing and sizing the SVG succeed for an existing file in that set.

Three behaviours of the code are easy to misread:

- The parent of a missing target is created only when the parent does not exist (`parent.exists()`, src/main.rs:98). A parent that is an existing file is left alone. A `.png` target under such a parent is then returned as the output path, and it is the later save that fails.
- The answer is trimmed before it is compared with `y`, so ` y ` and `Y\n` also confirm (src/main.rs:75).
- A target that is an existing file is refused with "File already exists" before the overwrite question is reached, even with `--overwrite` (src/main.rs:110-113). So converting twice to the same `-o out.png` fails the second time. A directory batch to a new `out.png` writes the first `.svg` entry and then fails on the second (`ExistingFileTargetIsRefused`, `PngTargetTakesOneFile`).

## Model

| member | source | states |
|---|---|---|
| `Paths.FileName` | src/main.rs:89-94 | a path has a file name exactly when it is not the current directory, and the file name is its last component |
| `Paths.ParentJoinFileName` | src/main.rs:97 | a path other than the current directory is rebuilt by joining its file name to its parent |
| `Paths.Join` | src/main.rs:108 | joining a name to a directory gives a path whose file name is that name and whose parent is that directory |
| `Paths.LastDot` | src/main.rs:103 | the index found holds a dot and no dot follows it; if none is found, the name holds no dot |
| `Paths.NameSplitsAtLastDot` | src/main.rs:46 | a file name is its stem, then (when it has an extension) a dot and that extension; the extension holds no dot |
| `Paths.ExtensionIsSuffix` | src/main.rs:103 | a name has extension `e` exactly when it ends in `.` + `e` with at least one character before that dot |
| `Paths.WithExtensionRoundTrip` | src/main.rs:116 | after `with_extension(e)` the path's extension is `e`, its stem and its parent are unchanged |
| `Paths.WithOwnExtension` | src/main.rs:104 | setting the extension a path already has leaves the path unchanged |
| `Answers.TrimStart` | src/main.rs:75 | the result is the suffix left after the longest whitespace prefix, so it starts with a non-whitespace character or is empty |
| `Answers.TrimEnd` | src/main.rs:75 | the result is the prefix left before the longest whitespace suffix, so it ends with a non-whitespace character or is empty |
| `Answers.SingleY` | src/main.rs:75 | a one-character answer equals `y` ignoring ASCII case exactly when it is `y` or `Y` |
| `Answers.TrimStartAt` | src/main.rs:75 | when the first character that is not whitespace is at `k`, trimming the start leaves the text from `k` on |
| `Answers.TrimEndAt` | src/main.rs:75 | when the last character that is not whitespace is at `k - 1`, trimming the end leaves the first `k` characters |
| `Answers.TrimToOne` | src/main.rs:75 | a line with a single character that is not whitespace trims to that character |
| `Answers.YesIsAffirmative` | src/main.rs:75 | a line the answer test accepts holds one `y` or `Y` and whitespace only |
| `Answers.AffirmativeIsYes` | src/main.rs:75 | a `y` or `Y` with only whitespace around it passes the answer test |
| `Answers.IsYesMeansAffirmative` | src/main.rs:75 | the trimmed, case-insensitive test accepts exactly the lines holding one non-whitespace character, `y` or `Y` |
| `Answers.Decide` | src/main.rs:63-79 | without the question (output absent or `--overwrite`) the file is written; when asked, it is written exactly when the answer is affirmative, and it fails exactly when the answer could not be read |
| `Answers.NextLine` | src/main.rs:71-74 | the question consumes one line of input; at end of input the line read is empty |
| `FileSystems.Fs.CreateDirAll` | src/main.rs:97-101 | fails, and changes nothing, exactly when the path or an ancestor is a file; otherwise it adds the path and all its ancestors as directories and keeps the tree valid |
| `FileSystems.Fs.CreateDir` | src/main.rs:106-107 | succeeds exactly when the path is absent and its parent is a directory, and then adds that one directory |
| `FileSystems.Fs.SaveFile` | src/main.rs:81-83 | succeeds exactly when the path is not a directory and its parent is one, and then adds only that file |
| `FileSystems.FileSystem.CreateDirAll` | src/main.rs:99-100 | the in-place `create_dir_all` changes the fields exactly as `Fs.CreateDirAll` says, or not at all on error |
| `FileSystems.FileSystem.CreateDir` | src/main.rs:106-107 | the in-place `create_dir` changes the fields exactly as `Fs.CreateDir` says, or not at all on error |
| `FileSystems.FileSystem.SaveFile` | src/main.rs:81-83 | the in-place save changes the fields exactly as `Fs.SaveFile` says, or not at all on error |
| `OutputPaths.Resolve` | src/main.rs:88-117 | resolution never touches files, only adds directories, and keeps the directory tree valid |
| `OutputPaths.DetermineOutputPath` | src/main.rs:88-117 | the method's result and new file system are those of `Resolve` on the old file system |
| `OutputPaths.ResolvedPathIsPng` | src/main.rs:116 | every successful resolution names a file whose extension is `png`, whatever the input's extension |
| `OutputPaths.ResolveWithoutFileName` | src/main.rs:89-94 | an input without a file name fails with `NoFileName` and the file system is unchanged |
| `OutputPaths.ResolveOntoExistingFile` | src/main.rs:110-113 | a target that is an existing file fails with `FileExists` and no directory is created |
| `OutputPaths.ResolveIntoExistingDir` | src/main.rs:110-116 | an existing directory target gives a file directly inside it, with the input's stem and extension `png`, and nothing is created |
| `OutputPaths.ResolveNewPngTarget` | src/main.rs:96-104 | an absent `.png` target is the result itself; it fails exactly when an ancestor above its parent is a file; on success only its missing ancestors are created and the target is not made a directory |
| `OutputPaths.NewDirUnderDir` | src/main.rs:96-108 | an absent target without extension `png` whose parent is a directory: that one directory is created and the output is the input's stem with `png` inside it |
| `OutputPaths.NewDirUnderFile` | src/main.rs:96-107 | an absent target without extension `png` whose parent is a file: directory creation fails and nothing changes |
| `OutputPaths.NewDirUnderMissing` | src/main.rs:96-108 | an absent target without extension `png` whose parent is missing: the parent is created with its ancestors, then the target; if the ancestors cannot be created the call fails and nothing changes |
| `OutputPaths.ResolveNewDirTarget` | src/main.rs:96-108 | an absent target without extension `png` becomes a directory with all its ancestors, and receives a file with the input's stem and extension `png`; it fails, changing nothing, exactly when an ancestor is a file |
| `Convert.ConvertFile` | src/main.rs:53-86 | converting a file only adds directories and at most the output file; a failed conversion writes no file |
| `Convert.ProcessFile` | src/main.rs:53-86 | the method's result, new file system and unread input are those of `ConvertFile` |
| `Convert.SvgEntries` | src/main.rs:46 | the selected entries are exactly the listing's readable `.svg` entries: each selected path is a readable entry of the listing with extension `svg`, and every readable `.svg` entry is selected |
| `Convert.Batch` | src/main.rs:39-51 | a batch attempts no more files than the listing has entries |
| `Convert.ProcessDirectory` | src/main.rs:39-51 | the loop's result, new file system, unread input and attempted files are those of `Batch` with `process_file` as the step |
| `Convert.ProcessEntries` | src/main.rs:40-49 | the `for` loop over the entries, with any step that agrees with `process_file`, ends with the result, file system, unread input and attempted files of `Batch` |
| `Convert.RunCommand` | src/main.rs:29-37 | a directory input runs the batch over its listing; any other input is converted as one file |
| `Convert.SavedFileIsPng` | src/main.rs:81-84 | a file reported saved has extension `png` and is the only file added |
| `Convert.OverwriteRule` | src/main.rs:63-79 | no question and no input read when the output is absent or `--overwrite` is on; otherwise one line is read, an affirmative line writes, any other line (end of input included) skips without error and without change, and a failed read is an error |
| `Convert.ExistingFileTargetIsRefused` | src/main.rs:110-113 | a target that is an existing file fails with `FileExists` whatever `--overwrite` and the input say |
| `Convert.PngTargetTakesOneFile` | src/main.rs:39-51 | a batch to a new `.png` target writes the first `.svg` entry there and fails with `FileExists` on the second |
| `Convert.OnlySvg` | src/main.rs:46 | the filtered listing keeps only unreadable entries and `.svg` entries |
| `Convert.BatchAttemptsSvgEntries` | src/main.rs:40-49 | a batch attempts the listing's `.svg` entries in listing order: a leading part of them on failure, all of them on success |
| `Convert.BatchIgnoresOtherEntries` | src/main.rs:46-48 | entries without extension exactly `svg` (`.SVG`, `.txt`, none) have no effect on a batch |
| `Convert.BatchStopsAtFirstError` | src/main.rs:47 | once part of a listing fails, nothing after it is processed; otherwise the rest runs from the state the first part left |
| `Scenarios.IntoExistingDirectory` | src/main.rs:110-116 | `a/b.svg` into the existing directory `out` gives `out/b.png` and creates nothing |
| `Scenarios.ToNewPngFile` | src/main.rs:96-104 | `a/b.svg` to the absent `out.png` gives `out.png` and creates no directory |
| `Scenarios.ToNewDirectory` | src/main.rs:105-108 | `a/b.svg` to the absent `newdir` gives `newdir/b.png` and creates `newdir` only |
| `Scenarios.LowerSvgIsSvg` | src/main.rs:46 | `x.svg` has extension `svg` |
| `Scenarios.UpperSvgIsNotSvg` | src/main.rs:46 | `y.SVG` does not have extension `svg`: the comparison is case-sensitive |
| `Scenarios.TxtIsNotSvg` | src/main.rs:46 | `z.txt` does not have extension `svg` |
| `Scenarios.OnlyLowerCaseSvgIsConverted` | src/main.rs:46 | of `x.svg`, `y.SVG` and `z.txt` only `x.svg` is selected |
| `Scenarios.HiddenSvgIsNotConverted` | src/main.rs:46 | a file named `.svg` has no extension and is not selected |
| `Scenarios.DeclinedOverwriteSkips` | src/main.rs:63-78 | an existing `out/b.png` with the answer `n` is skipped without error and the file system is unchanged |

## Left out

- The SVG parser, the renderer and the PNG encoder (src/main.rs:54-60, 81-83) are outside the program. Reading, parsing and sizing an input are one success or failure, given by the `renderable` set. Encoding failures during the save are not modelled.
- The pixmap size, a cast of floating-point width and height to `u32` (src/main.rs:58), is not modelled. The zero-size failure is part of `renderable`.
- The file system the process starts with is the environment, not part of the program. `FileSystem`'s constructor only takes a valid directory tree as the starting state.
- Argument parsing with `argh` (src/main.rs:13-27) is not modelled. The input, the output target (default `.`, the empty path here) and `--overwrite` are parameters.
- The printed messages are not modelled. `Status` only records whether a file was saved or skipped.
- A failure to flush standard output (src/main.rs:68-70) is folded into the failed read of the answer (`None`).
- Operating-system path details are not modelled: roots, prefixes, `..`, non-UTF-8 names and the `to_str().unwrap()` panic. Paths are relative sequences of names. `.` is the empty path and always exists as a directory.
- The order of `fs::read_dir` is not modelled: the listing is an arbitrary sequence. A failure to open the input directory itself (src/main.rs:40-41) is not modelled; only failed entries are.
- Directory creation and saving fail only because of the shape of the tree (an ancestor that is a file, a parent that is missing, a path that is a directory). Permission, disk-space and race failures are not modelled, and neither are symbolic links.
- `Paths.WithExtension` is defined only for a non-empty extension without `/`. The program only ever passes `png`.
- `Answers.EqIgnoreAsciiCase` compares characters rather than UTF-8 bytes. Against the one-byte `y` the two give the same answer.
- Byte-identical output when a conversion is repeated depends on the renderer being deterministic, which is outside the program.
