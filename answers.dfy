/** The overwrite prompt of `process_file`: whether the user is asked, and
    how the line read from standard input is understood. */
module Answers {
  import opened Wrappers

  /** The characters Rust's `char::is_whitespace` accepts (the Unicode
      `White_Space` property), which `str::trim` strips from both ends. */
  predicate IsWhitespace(c: char)
  {
    c in Whitespace
  }

  /** The `White_Space` characters, by code point. */
  const Whitespace: set<char> :=
    {'\U{9}', '\U{A}', '\U{B}', '\U{C}', '\U{D}', ' ', '\U{85}', '\U{A0}', '\U{1680}',
     '\U{2000}', '\U{2001}', '\U{2002}', '\U{2003}', '\U{2004}', '\U{2005}', '\U{2006}',
     '\U{2007}', '\U{2008}', '\U{2009}', '\U{200A}', '\U{2028}', '\U{2029}', '\U{202F}',
     '\U{205F}', '\U{3000}'}

  /** `str::trim_start`: what is left after the longest whitespace prefix. */
  function TrimStart(s: string): (r: string)
    ensures |r| <= |s| && r == s[|s| - |r|..]
    ensures forall j :: 0 <= j < |s| - |r| ==> IsWhitespace(s[j])
    ensures r != [] ==> !IsWhitespace(r[0])
  {
    if s != [] && IsWhitespace(s[0]) then
      var r := TrimStart(s[1..]);
      assert r == s[|s| - |r|..];
      assert forall j :: 1 <= j < |s| - |r| ==> s[j] == s[1..][j - 1];
      r
    else s
  }

  /** `str::trim_end`: what is left before the longest whitespace suffix. */
  function TrimEnd(s: string): (r: string)
    ensures |r| <= |s| && r == s[..|r|]
    ensures forall j :: |r| <= j < |s| ==> IsWhitespace(s[j])
    ensures r != [] ==> !IsWhitespace(r[|r| - 1])
  {
    if s != [] && IsWhitespace(s[|s| - 1]) then TrimEnd(s[..|s| - 1]) else s
  }

  /** `str::trim`. */
  function Trim(s: string): string
  {
    TrimEnd(TrimStart(s))
  }

  /** ASCII lower-casing of one character; every other character is kept. */
  function AsciiLower(c: char): char
  {
    if 'A' <= c <= 'Z' then (c as int + 32) as char else c
  }

  /** `str::eq_ignore_ascii_case`: equal lengths and equal characters up to
      ASCII case. */
  predicate EqIgnoreAsciiCase(a: string, b: string)
  {
    |a| == |b| && forall i :: 0 <= i < |a| ==> AsciiLower(a[i]) == AsciiLower(b[i])
  }

  /** The test on the answer line: `input.trim().eq_ignore_ascii_case("y")`. */
  predicate IsYes(line: string)
  {
    EqIgnoreAsciiCase(Trim(line), "y")
  }

  /** The same condition said independently: the line holds exactly one
      character that is not whitespace, and it is `y` or `Y`. */
  ghost predicate Affirmative(line: string)
  {
    exists i :: 0 <= i < |line| && (line[i] == 'y' || line[i] == 'Y')
                && forall j :: 0 <= j < |line| && j != i ==> IsWhitespace(line[j])
  }

  /** A single character equals `y` up to ASCII case exactly when it is
      `y` or `Y`. */
  lemma SingleY(c: char)
    ensures EqIgnoreAsciiCase([c], "y") <==> c == 'y' || c == 'Y'
  {
    assert [c][0] == c && "y"[0] == 'y';
  }

  /** `TrimStart` drops exactly the whitespace before the first character
      that is not whitespace. */
  lemma TrimStartAt(s: string, k: nat)
    requires k < |s| && !IsWhitespace(s[k])
    requires forall j :: 0 <= j < k ==> IsWhitespace(s[j])
    ensures TrimStart(s) == s[k..]
  {
    var r := TrimStart(s);
    var m := |s| - |r|;
    assert m <= k;
    assert r[0] == s[m];
    assert m == k;
  }

  /** `TrimEnd` drops exactly the whitespace after the last character that
      is not whitespace. */
  lemma TrimEndAt(s: string, k: nat)
    requires 0 < k <= |s| && !IsWhitespace(s[k - 1])
    requires forall j :: k <= j < |s| ==> IsWhitespace(s[j])
    ensures TrimEnd(s) == s[..k]
  {
    var r := TrimEnd(s);
    assert |r| >= k;
    assert r[|r| - 1] == s[|r| - 1];
    assert |r| == k;
  }

  /** A line the answer test accepts is affirmative: the one character
      left by trimming is `y` or `Y`, and all the others are whitespace. */
  lemma YesIsAffirmative(line: string)
    requires IsYes(line)
    ensures Affirmative(line)
  {
    var s := TrimStart(line);
    var t := TrimEnd(s);
    var a := |line| - |s|;
    assert t == Trim(line) && |t| == 1;
    assert t == [t[0]];
    SingleY(t[0]);
    assert s == line[a..] && line[a] == s[0] == t[0];
    forall j | 0 <= j < |line| && j != a ensures IsWhitespace(line[j]) {
      if j > a {
        assert line[j] == s[j - a];
      }
    }
  }

  /** A line whose only character that is not whitespace is at `i`
      trims to that character alone. */
  lemma TrimToOne(line: string, i: nat)
    requires i < |line| && !IsWhitespace(line[i])
    requires forall j :: 0 <= j < |line| && j != i ==> IsWhitespace(line[j])
    ensures Trim(line) == [line[i]]
  {
    TrimStartAt(line, i);
    var s := line[i..];
    forall j | 1 <= j < |s| ensures IsWhitespace(s[j]) {
      assert s[j] == line[i + j];
    }
    TrimEndAt(s, 1);
    assert s[..1] == [line[i]];
  }

  /** An affirmative line passes the answer test: trimming leaves its `y`
      or `Y` alone. */
  lemma AffirmativeIsYes(line: string)
    requires Affirmative(line)
    ensures IsYes(line)
  {
    var i :| 0 <= i < |line| && (line[i] == 'y' || line[i] == 'Y')
             && forall j :: 0 <= j < |line| && j != i ==> IsWhitespace(line[j]);
    YesAlone(line, i);
  }

  /** A `y` or `Y` with only whitespace around it passes the answer test. */
  lemma YesAlone(line: string, i: nat)
    requires i < |line| && (line[i] == 'y' || line[i] == 'Y')
    requires forall j :: 0 <= j < |line| && j != i ==> IsWhitespace(line[j])
    ensures IsYes(line)
  {
    TrimToOne(line, i);
    SingleY(line[i]);
  }

  /** The answer test accepts exactly the affirmative lines. */
  lemma IsYesMeansAffirmative(line: string)
    ensures IsYes(line) <==> Affirmative(line)
  {
    if IsYes(line) {
      YesIsAffirmative(line);
    }
    if Affirmative(line) {
      AffirmativeIsYes(line);
    }
  }

  /** What happens to a file whose output path has been resolved. */
  datatype Decision =
    | Write  // go on to save the PNG
    | Skip   // leave the existing file alone and report success
    | Fail   // reading the answer failed; the error aborts the run

  /** The user is asked only when the output is already present and
      `--overwrite` is off. */
  predicate Prompts(present: bool, overwrite: bool)
  {
    present && !overwrite
  }

  /** The decision, given whether the resolved path exists, the
      `--overwrite` switch and the line read if the user was asked (`None`
      when reading standard input failed). */
  function Decide(present: bool, overwrite: bool, line: Option<string>): (d: Decision)
    ensures !Prompts(present, overwrite) ==> d == Write
    ensures Prompts(present, overwrite) ==>
              (d == Write <==> line.Some? && Affirmative(line.value))
              && (d == Fail <==> line.None?)
  {
    if !Prompts(present, overwrite) then Write
    else match line
      case None => Fail
      case Some(s) =>
        IsYesMeansAffirmative(s);
        if IsYes(s) then Write else Skip
  }

  /** The next line of standard input: at end of input `read_line` leaves
      the buffer empty, which is not an affirmative answer. */
  function NextLine(stdin: seq<Option<string>>): (r: (Option<string>, seq<Option<string>>))
    ensures stdin == [] ==> r == (Some(""), [])
    ensures stdin != [] ==> [r.0] + r.1 == stdin
  {
    if stdin == [] then (Some(""), []) else (stdin[0], stdin[1..])
  }
}
