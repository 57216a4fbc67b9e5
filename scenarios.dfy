/** Worked cases of the converter's path and batch rules, on concrete
    paths: input `a/b.svg` with an existing directory `out`, a new file
    name `out.png` and a new directory `newdir` as the output target; a
    directory listing `x.svg`, `y.SVG`, `z.txt`; and an existing output
    that the user declines to overwrite. */
module Scenarios {
  import opened Wrappers
  import opened Paths
  import opened FileSystems
  import opened Answers
  import opened OutputPaths
  import opened Convert

  /** A tree holding `a/b.svg` and the directory `out`. */
  function Tree(): (fs: Fs)
    ensures fs.Valid()
  {
    var fs := Fs({[], ["a"], ["out"]}, {["a", "b.svg"]});
    assert forall p, k :: p in fs.dirs + fs.files && 0 <= k < |p| ==> p[..k] in fs.dirs by {
      forall p, k | p in fs.dirs + fs.files && 0 <= k < |p| ensures p[..k] in fs.dirs {
        if k == 0 { assert p[..k] == []; }
        else { assert p[..k] == ["a"]; }
      }
    }
    fs
  }

  /** The PNG name for `b.svg` inside `dir` is `dir/b.png`. */
  lemma PngNameOfB(dir: Path)
    ensures WithExtension(Join(dir, "b.svg"), "png") == dir + ["b.png"]
  {
    var name: Name := "b.svg";
    LastDotAt(name, 1);
    assert NameStem(name) + "." + "png" == "b.png";
    assert Join(dir, name)[..|dir|] == dir;
  }

  /** `a/b.svg` into an existing directory `out` gives `out/b.png`. */
  lemma IntoOut(fs: Fs)
    requires ["out"] in fs.dirs
    ensures Resolve(fs, ["a", "b.svg"], ["out"]) == Resolution(Ok(["out", "b.png"]), fs)
  {
    PngNameOfB(["out"]);
    assert ["out"] + ["b.png"] == ["out", "b.png"];
  }

  /** `a/b.svg` into the existing directory `out` gives `out/b.png`. */
  lemma IntoExistingDirectory()
    ensures Resolve(Tree(), ["a", "b.svg"], ["out"]) == Resolution(Ok(["out", "b.png"]), Tree())
  {
    IntoOut(Tree());
  }

  /** `a/b.svg` to the new file name `out.png` gives `out.png`, and no
      directory named `out.png` is created. */
  lemma ToNewPngFile()
    ensures Resolve(Tree(), ["a", "b.svg"], ["out.png"]) == Resolution(Ok(["out.png"]), Tree())
  {
    var target: Path := ["out.png"];
    LastDotAt("out.png", 3);
    assert "out.png"[4..] == "png";
    WithOwnExtension(target, "png");
  }

  /** `a/b.svg` to the new directory `newdir` gives `newdir/b.png`, and
      `newdir` is created. */
  lemma ToNewDirectory()
    ensures var r := Resolve(Tree(), ["a", "b.svg"], ["newdir"]);
            r == Resolution(Ok(["newdir", "b.png"]), Fs(Tree().dirs + {["newdir"]}, Tree().files))
  {
    assert LastDot("newdir") == None;
    PngNameOfB(["newdir"]);
    assert ["newdir"] + ["b.png"] == ["newdir", "b.png"];
    NewDirUnderDir(Tree(), ["a", "b.svg"], ["newdir"]);
  }

  /** `x.svg` has extension `svg`. */
  lemma LowerSvgIsSvg()
    ensures IsSvg(["d", "x.svg"])
  {
    LastDotAt("x.svg", 1);
    assert "x.svg"[2..] == "svg";
  }

  /** `y.SVG` has extension `SVG`, which is not `svg`. */
  lemma UpperSvgIsNotSvg()
    ensures !IsSvg(["d", "y.SVG"])
  {
    LastDotAt("y.SVG", 1);
    assert "y.SVG"[2..] == "SVG";
  }

  /** `z.txt` has extension `txt`. */
  lemma TxtIsNotSvg()
    ensures !IsSvg(["d", "z.txt"])
  {
    LastDotAt("z.txt", 1);
    assert "z.txt"[2..] == "txt";
  }

  /** Of `x.svg`, `y.SVG` and `z.txt` only `x.svg` is converted: the filter
      is case-sensitive. */
  lemma OnlyLowerCaseSvgIsConverted()
    ensures SvgEntries([Some(["d", "x.svg"]), Some(["d", "y.SVG"]), Some(["d", "z.txt"])])
            == [["d", "x.svg"]]
  {
    var x: Path, y: Path, z: Path := ["d", "x.svg"], ["d", "y.SVG"], ["d", "z.txt"];
    LowerSvgIsSvg();
    UpperSvgIsNotSvg();
    TxtIsNotSvg();
    SvgEntriesCons(Some(z), []);
    SvgEntriesCons(Some(y), [Some(z)]);
    SvgEntriesCons(Some(x), [Some(y), Some(z)]);
  }

  /** A hidden file named `.svg` has no extension and is not converted. */
  lemma HiddenSvgIsNotConverted()
    ensures !IsSvg(["d", ".svg"])
  {
    LastDotAt(".svg", 0);
  }

  /** When `out/b.png` already exists and the user answers `n`, the file is
      skipped without error and the file system is left as it was. */
  lemma DeclinedOverwriteSkips()
    ensures var fs := Fs(Tree().dirs, Tree().files + {["out", "b.png"]});
            ConvertFile(fs, {["a", "b.svg"]}, ["a", "b.svg"], ["out"], false, [Some("n\n")])
            == Step(Ok(Skipped(["out", "b.png"])), fs, [])
  {
    var out: Path := ["out", "b.png"];
    assert out[..1] == ["out"];
    var fs := Tree().SaveFile(out).value;
    IntoOut(fs);
    assert !Affirmative("n\n") by {
      assert "n\n"[0] == 'n' && "n\n"[1] == '\n';
    }
    OverwriteRule(fs, {["a", "b.svg"]}, ["a", "b.svg"], ["out"], false, [Some("n\n")]);
  }
}
