/**
 * The hook-string syntax `<command>[#watch:<file>[,<file>...]]`: the last
 * `#watch:` that is not escaped by a backslash right before it separates
 * the shell command from the comma-separated files that trigger it.
 */
module Hooks {
  import opened Wrappers
  import opened Text

  /** The delimiter between the command and its trigger files. */
  const Delim := "#watch:"

  /** A backslash right before the delimiter makes it literal text. */
  const Escape: char := '\\'

  const Comma: char := ','

  /** A parsed hook; `watchFiles` is `None` (JavaScript's `undefined`) when the string has no delimiter. */
  datatype Hook = Hook(command: string, watchFiles: Option<seq<string>>)

  /** An unescaped delimiter starts at index `i` of `s`. */
  predicate DelimAt(s: string, i: int) {
    0 <= i && i + |Delim| <= |s| && s[i..i + |Delim|] == Delim && (i == 0 || s[i - 1] != Escape)
  }

  /** The last index below `n` where an unescaped delimiter starts. */
  function LastDelim(s: string, n: nat): (r: Option<nat>)
    ensures r.Some? ==> r.value < n && DelimAt(s, r.value)
    ensures r.Some? ==> forall j :: r.value < j < n ==> !DelimAt(s, j)
    ensures r.None? ==> forall j :: 0 <= j < n ==> !DelimAt(s, j)
  {
    if n == 0 then None
    else if DelimAt(s, n - 1) then Some(n - 1)
    else LastDelim(s, n - 1)
  }

  /** `parseHook(s)`. */
  function ParseHook(s: string): (h: Hook)
    ensures h.watchFiles.None? <==> forall j :: 0 <= j < |s| ==> !DelimAt(s, j)
    ensures h.watchFiles.None? ==> h.command == s
  {
    match LastDelim(s, |s|)
    case None => Hook(s, None)
    case Some(i) => Hook(s[..i], Some(Split(s[i + |Delim|..], Comma)))
  }

  /** The hook string a hook is written as. */
  function Unparse(h: Hook): string {
    match h.watchFiles
    case None => h.command
    case Some(fs) => h.command + Delim + Join(fs, Comma)
  }

  /**
   * With a delimiter, the command is everything before the last unescaped
   * one, and the files are the comma-separated pieces after it, none of
   * which contains a comma.
   */
  lemma ParseHookSplit(s: string)
    ensures var h := ParseHook(s);
      h.watchFiles.Some? ==>
        DelimAt(s, |h.command|)
        && (forall j :: |h.command| < j < |s| ==> !DelimAt(s, j))
        && s == h.command + Delim + Join(h.watchFiles.value, Comma)
        && |h.watchFiles.value| >= 1
        && forall k :: 0 <= k < |h.watchFiles.value| ==> Comma !in h.watchFiles.value[k]
  {
    var h := ParseHook(s);
    if h.watchFiles.Some? {
      var i := LastDelim(s, |s|).value;
      var rest := s[i + |Delim|..];
      SplitSpec(rest, Comma);
      assert s == s[..i] + s[i..i + |Delim|] + rest;
    }
  }

  /** Parsing loses nothing: writing the hook back gives the string. */
  lemma UnparseParse(s: string)
    ensures Unparse(ParseHook(s)) == s
  {
    ParseHookSplit(s);
  }

  /**
   * A hook that can be written unambiguously: without files, its command
   * has no unescaped delimiter; with files, there is at least one, none
   * contains a comma or a `#`, and the command does not end in a backslash
   * (which would escape the delimiter written after it).
   */
  predicate WellFormed(h: Hook) {
    match h.watchFiles
    case None => forall j :: 0 <= j < |h.command| ==> !DelimAt(h.command, j)
    case Some(fs) =>
      |fs| >= 1
      && (forall k :: 0 <= k < |fs| ==> Comma !in fs[k] && '#' !in fs[k])
      && (h.command == [] || h.command[|h.command| - 1] != Escape)
  }

  /** Every delimiter starts with `#`. */
  lemma DelimStartsWithHash(s: string, j: int)
    ensures DelimAt(s, j) ==> s[j] == '#'
  {
    if DelimAt(s, j) {
      assert s[j] == s[j..j + |Delim|][0];
    }
  }

  lemma {:induction false} JoinNoHash(fs: seq<string>, sep: char)
    requires sep != '#'
    requires forall k :: 0 <= k < |fs| ==> '#' !in fs[k]
    ensures '#' !in Join(fs, sep)
    decreases |fs|
  {
    if |fs| > 1 {
      JoinNoHash(fs[1..], sep);
    }
  }

  /** After a delimiter followed by text without `#`, no further delimiter starts. */
  lemma NoDelimAfter(c: string, tail: string)
    requires '#' !in tail
    ensures var s := c + Delim + tail;
      forall j :: |c| < j < |s| ==> !DelimAt(s, j)
  {
    var s := c + Delim + tail;
    var i := |c|;
    forall j | i < j < |s|
      ensures !DelimAt(s, j)
    {
      if j < i + |Delim| {
        assert s[j] == Delim[j - i];
      } else {
        assert s[j] == tail[j - i - |Delim|];
      }
      DelimStartsWithHash(s, j);
    }
  }

  /** Writing a well-formed hook and parsing it gives the hook back. */
  lemma ParseUnparse(h: Hook)
    requires WellFormed(h)
    ensures ParseHook(Unparse(h)) == h
  {
    var s := Unparse(h);
    match h.watchFiles
    case None =>
    case Some(fs) =>
      var c := h.command;
      var tail := Join(fs, Comma);
      var i := |c|;
      assert s == c + Delim + tail;
      assert s[..i] == c;
      assert s[i..i + |Delim|] == Delim;
      assert s[i + |Delim|..] == tail;
      assert DelimAt(s, i);
      JoinNoHash(fs, Comma);
      NoDelimAfter(c, tail);
      assert LastDelim(s, |s|) == Some(i);
      SplitJoin(fs, Comma);
  }

  /** Text without an unescaped `#` holds no delimiter. */
  lemma NoDelimWithoutHash(s: string)
    requires forall j :: 0 <= j < |s| && s[j] == '#' ==> j > 0 && s[j - 1] == Escape
    ensures forall j :: 0 <= j < |s| ==> !DelimAt(s, j)
  {
    forall j | 0 <= j < |s|
      ensures !DelimAt(s, j)
    {
      DelimStartsWithHash(s, j);
    }
  }
}
