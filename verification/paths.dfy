/**
 * The two path-name operations the scanner applies to a directory entry:
 * Node's `path.extname` and the end-anchored regular-expression replace
 * that rewrites a destination's extension.
 */
module Paths {

  import opened Wrappers
  import Text

  /** `s.lastIndexOf(c)`, with `None` for -1. */
  function LastIndexOf(s: string, c: char): (r: Option<nat>)
    ensures r.Some? ==> r.value < |s| && s[r.value] == c
  {
    if s == [] then None
    else if s[|s| - 1] == c then Some(|s| - 1)
    else LastIndexOf(s[..|s| - 1], c)
  }

  /** The index found is the last occurrence, and `None` means there is none. */
  lemma {:induction false} LastIndexOfSpec(s: string, c: char)
    ensures var r := LastIndexOf(s, c);
      (r.Some? ==> c !in s[r.value + 1..]) && (r.None? ==> c !in s)
    decreases |s|
  {
    if s != [] && s[|s| - 1] != c {
      var r := LastIndexOf(s[..|s| - 1], c);
      LastIndexOfSpec(s[..|s| - 1], c);
      assert r.Some? ==> s[r.value + 1..] == s[..|s| - 1][r.value + 1..] + [s[|s| - 1]];
      assert r.None? ==> s == s[..|s| - 1] + [s[|s| - 1]];
    }
  }

  /**
   * `path.extname(name)` for a single path component (an entry name from a
   * directory listing): the text from the last `.` on, or "" when there is
   * no dot, when the only dot starts the name, or when the name is `..`.
   * Entry names hold no `/`; for a name with one, Node would first take the
   * part after the last `/`, which this function does not do.
   */
  function ExtName(name: string): (ext: string)
    ensures Text.EndsWith(name, ext)
    ensures ext != "" ==> ext[0] == '.' && |ext| < |name|
  {
    match LastIndexOf(name, '.')
    case None => ""
    case Some(d) => if d == 0 || name == ".." then "" else name[d..]
  }

  /**
   * The extension holds no dot after its leading one, and it is empty
   * exactly for names with no dot past their first character, and for `..`.
   */
  lemma ExtNameSpec(name: string)
    ensures ExtName(name) != "" ==> '.' !in ExtName(name)[1..]
    ensures ExtName(name) == "" <==> name == [] || name == ".." || '.' !in name[1..]
  {
    LastIndexOfSpec(name, '.');
    match LastIndexOf(name, '.')
    case None =>
    case Some(d) =>
      if d > 0 && name != ".." {
        assert name[d..][1..] == name[d + 1..];
        assert name[d] == name[1..][d - 1];
      }
  }

  /**
   * `s.replace(/pattern$/, replacement)` for a pattern of plain characters:
   * the one occurrence that ends the string is replaced, and a string that
   * does not end with the pattern is returned unchanged.
   */
  function ReplaceSuffix(s: string, pattern: string, replacement: string): (r: string)
    ensures Text.EndsWith(s, pattern) ==> |r| == |s| - |pattern| + |replacement|
    ensures Text.EndsWith(s, pattern) ==> r[..|s| - |pattern|] == s[..|s| - |pattern|] && Text.EndsWith(r, replacement)
    ensures !Text.EndsWith(s, pattern) ==> r == s
  {
    if Text.EndsWith(s, pattern) then s[..|s| - |pattern|] + replacement else s
  }

  /** A name made of a non-empty stem and a dot-led, dot-free tail has that tail as its extension. */
  lemma ExtNameOf(stem: string, ext: string)
    requires stem != [] && stem + ext != ".."
    requires ext != [] && ext[0] == '.' && '.' !in ext[1..]
    ensures ExtName(stem + ext) == ext
  {
    var name := stem + ext;
    var d := LastIndexOf(name, '.');
    LastIndexOfSpec(name, '.');
    ExtNameSpec(name);
    assert name[|stem|] == '.';
    assert name[|stem| + 1..] == ext[1..];
  }
}
