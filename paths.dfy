/** Relative paths as sequences of component names, with the parts of
    `std::path::Path` the converter uses: `file_name`, `parent`, `join`,
    `extension`, `file_stem` and `with_extension`. */
module Paths {
  import opened Wrappers

  /** One component of a relative path: non-empty, free of separators and
      not one of the special names `.` and `..`. */
  type Name = s: string | s != [] && s != "." && s != ".." && '/' !in s witness "a"

  /** A relative path, component by component. The empty sequence is the
      current directory `.`, which has no file name. */
  type Path = seq<Name>

  /** `Path::file_name`: the last component, if there is one. */
  function FileName(p: Path): (r: Option<Name>)
    ensures r.None? <==> p == []
    ensures r.Some? ==> p == p[..|p| - 1] + [r.value]
  {
    if p == [] then None else Some(p[|p| - 1])
  }

  /** `Path::parent`: the path without its last component. */
  function Parent(p: Path): Option<Path>
  {
    if p == [] then None else Some(p[..|p| - 1])
  }

  /** `Path::join` with a single file name. */
  function Join(p: Path, n: Name): (r: Path)
    ensures FileName(r) == Some(n) && Parent(r) == Some(p)
  {
    p + [n]
  }

  /** A path other than the current directory is its parent joined with
      its file name. */
  lemma ParentJoinFileName(p: Path)
    requires p != []
    ensures Join(Parent(p).value, FileName(p).value) == p
  {
  }

  /** The index of the last `.` in `s`, if any. */
  function LastDot(s: string): (r: Option<nat>)
    ensures r.Some? ==> r.value < |s| && s[r.value] == '.'
    ensures r.Some? ==> forall j :: r.value < j < |s| ==> s[j] != '.'
    ensures r.None? ==> forall j :: 0 <= j < |s| ==> s[j] != '.'
  {
    if s == [] then None
    else if s[|s| - 1] == '.' then Some(|s| - 1)
    else LastDot(s[..|s| - 1])
  }

  /** The extension of a file name: the text after its last dot, unless
      that dot is the name's first character (a hidden file such as
      `.svg` has no extension). */
  function NameExtension(n: Name): Option<string>
  {
    match LastDot(n)
    case Some(i) => if i == 0 then None else Some(n[i + 1..])
    case None => None
  }

  /** The stem of a file name: the name without its extension and the dot
      before it. */
  function NameStem(n: Name): string
  {
    match LastDot(n)
    case Some(i) => if i == 0 then n else n[..i]
    case None => n
  }

  /** `Path::extension`. */
  function Extension(p: Path): Option<string>
  {
    match FileName(p)
    case Some(n) => NameExtension(n)
    case None => None
  }

  /** `Path::file_stem`. */
  function Stem(p: Path): Option<string>
  {
    match FileName(p)
    case Some(n) => Some(NameStem(n))
    case None => None
  }

  /** `Path::with_extension` for a non-empty extension: the last
      component's stem followed by a dot and `ext`; a path without a file
      name is returned as it is. */
  function WithExtension(p: Path, ext: string): (r: Path)
    requires ext != [] && '/' !in ext
  {
    match FileName(p)
    case None => p
    case Some(n) =>
      StemIsPartOfName(n);
      var named: string := NameStem(n) + "." + ext;
      assert forall j :: 0 <= j < |named| ==> named[j] != '/' by {
        forall j | 0 <= j < |named| ensures named[j] != '/' {
          if j < |NameStem(n)| { assert named[j] == n[j]; }
          else if j > |NameStem(n)| { assert named[j] == ext[j - |NameStem(n)| - 1]; }
        }
      }
      p[..|p| - 1] + [named]
  }

  /** The path and all its ancestors: its first k components, for k = 0..|p|. */
  function Prefixes(p: Path): (r: set<Path>)
    ensures forall k :: 0 <= k <= |p| ==> p[..k] in r
    ensures forall q :: q in r ==> |q| <= |p| && q == p[..|q|]
  {
    set k | 0 <= k <= |p| :: p[..k]
  }

  /** The stem is a non-empty leading part of the name. */
  lemma StemIsPartOfName(n: Name)
    ensures 0 < |NameStem(n)| <= |n| && NameStem(n) == n[..|NameStem(n)|]
  {
  }

  /** A name is its stem, followed, when it has an extension, by a dot and
      that extension; the extension holds no dot. */
  lemma NameSplitsAtLastDot(n: Name)
    ensures NameExtension(n).None? ==> NameStem(n) == n
    ensures NameExtension(n).Some? ==>
              n == NameStem(n) + "." + NameExtension(n).value
              && '.' !in NameExtension(n).value
  {
    match LastDot(n)
    case Some(i) =>
      if i != 0 {
        assert n == n[..i] + "." + n[i + 1..];
      }
    case None =>
  }

  /** A dot with no dot after it is the last dot. */
  lemma LastDotAt(s: string, i: nat)
    requires i < |s| && s[i] == '.'
    requires forall j :: i < j < |s| ==> s[j] != '.'
    ensures LastDot(s) == Some(i)
  {
  }

  /** A name has extension `e` (which holds no dot) exactly when it ends in
      `.` followed by `e` and has at least one character before that dot. */
  lemma ExtensionIsSuffix(n: Name, e: string)
    requires '.' !in e
    ensures NameExtension(n) == Some(e) <==>
              |n| > |e| + 1 && n[|n| - |e| - 1] == '.' && n[|n| - |e|..] == e
  {
    if |n| > |e| + 1 && n[|n| - |e| - 1] == '.' && n[|n| - |e|..] == e {
      var i := |n| - |e| - 1;
      forall j | i < j < |n| ensures n[j] != '.' {
        assert n[j] == n[|n| - |e|..][j - |n| + |e|];
      }
      LastDotAt(n, i);
    }
  }

  /** `with_extension` followed by `extension` gives back the extension
      that was set, keeps the stem and keeps the parent. */
  lemma WithExtensionRoundTrip(p: Path, ext: string)
    requires p != [] && ext != [] && '/' !in ext && '.' !in ext
    ensures Extension(WithExtension(p, ext)) == Some(ext)
    ensures Stem(WithExtension(p, ext)) == Stem(p)
    ensures Parent(WithExtension(p, ext)) == Parent(p)
  {
    var n := p[|p| - 1];
    var r := WithExtension(p, ext);
    var m := r[|r| - 1];
    StemIsPartOfName(n);
    assert m == NameStem(n) + "." + ext;
    var i := |NameStem(n)|;
    forall j | i < j < |m| ensures m[j] != '.' {
      assert m[j] == ext[j - i - 1];
    }
    LastDotAt(m, i);
    assert m[..i] == NameStem(n);
    assert m[i + 1..] == ext;
  }

  /** Setting the extension a path already has changes nothing. */
  lemma WithOwnExtension(p: Path, ext: string)
    requires ext != [] && '/' !in ext
    requires Extension(p) == Some(ext)
    ensures WithExtension(p, ext) == p
  {
    NameSplitsAtLastDot(p[|p| - 1]);
  }
}
