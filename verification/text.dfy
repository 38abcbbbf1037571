/**
 * The JavaScript string primitives the rest of the model relies on:
 * `String.prototype.trim`, `split` and `join` with a one-character
 * separator, and upper-casing the first character of a word.
 */
module Text {

  import opened Wrappers

  /** The characters `trim` removes: ECMAScript WhiteSpace and LineTerminator. */
  predicate IsJsSpace(c: char) {
    var n := c as int;
    || n == 0x09 || n == 0x0A || n == 0x0B || n == 0x0C || n == 0x0D
    || n == 0x20 || n == 0xA0 || n == 0x1680
    || (0x2000 <= n <= 0x200A)
    || n == 0x2028 || n == 0x2029 || n == 0x202F || n == 0x205F
    || n == 0x3000 || n == 0xFEFF
  }

  predicate AllSpace(s: string) {
    forall i :: 0 <= i < |s| ==> IsJsSpace(s[i])
  }

  /** Neither end of `s` is whitespace. */
  predicate IsTrimmed(s: string) {
    s == [] || (!IsJsSpace(s[0]) && !IsJsSpace(s[|s| - 1]))
  }

  /** Drops leading whitespace. */
  function TrimStart(s: string): (r: string)
    ensures |r| <= |s|
    ensures r == [] || !IsJsSpace(r[0])
  {
    if s != [] && IsJsSpace(s[0]) then TrimStart(s[1..]) else s
  }

  /** Drops trailing whitespace. */
  function TrimEnd(s: string): (r: string)
    ensures |r| <= |s|
    ensures r == [] || !IsJsSpace(r[|r| - 1])
    ensures r != [] ==> r[0] == s[0]
  {
    if s != [] && IsJsSpace(s[|s| - 1]) then TrimEnd(s[..|s| - 1]) else s
  }

  /** `TrimStart` removes a whitespace prefix. */
  lemma {:induction false} TrimStartSlice(s: string)
    ensures var r := TrimStart(s); r == s[|s| - |r|..] && AllSpace(s[..|s| - |r|])
    decreases |s|
  {
    if s != [] && IsJsSpace(s[0]) {
      TrimStartSlice(s[1..]);
    }
  }

  /** `TrimEnd` removes a whitespace suffix. */
  lemma {:induction false} TrimEndSlice(s: string)
    ensures var r := TrimEnd(s); r == s[..|r|] && AllSpace(s[|r|..])
    decreases |s|
  {
    if s != [] && IsJsSpace(s[|s| - 1]) {
      TrimEndSlice(s[..|s| - 1]);
    }
  }

  /** `s.trim()`: `s` without the whitespace at either end. */
  function Trim(s: string): (r: string)
    ensures IsTrimmed(r)
    ensures |r| <= |s|
  {
    TrimEnd(TrimStart(s))
  }

  /** What `trim` removes is whitespace only: the result is a slice of `s` padded by whitespace. */
  lemma TrimIsSlice(s: string)
    ensures exists i :: TrimmedAt(s, Trim(s), i)
  {
    var a := TrimStart(s);
    var r := TrimEnd(a);
    TrimStartSlice(s);
    TrimEndSlice(a);
    var i := |s| - |a|;
    assert r == Trim(s);
    assert s[i..i + |r|] == a[..|r|];
    assert s[i + |r|..] == a[|r|..];
    assert TrimmedAt(s, r, i);
  }

  /** `r` sits at offset `i` of `s` with only whitespace on either side. */
  predicate TrimmedAt(s: string, r: string, i: int) {
    0 <= i <= |s| - |r| && s[i..i + |r|] == r && AllSpace(s[..i]) && AllSpace(s[i + |r|..])
  }

  lemma {:induction false} TrimStartPadded(pre: string, x: string)
    requires AllSpace(pre)
    requires x == [] || !IsJsSpace(x[0])
    ensures TrimStart(pre + x) == x
    decreases |pre|
  {
    if pre != [] {
      assert (pre + x)[1..] == pre[1..] + x;
      TrimStartPadded(pre[1..], x);
    } else {
      assert pre + x == x;
    }
  }

  lemma {:induction false} TrimEndPadded(x: string, post: string)
    requires AllSpace(post)
    requires x == [] || !IsJsSpace(x[|x| - 1])
    ensures TrimEnd(x + post) == x
    decreases |post|
  {
    if post != [] {
      assert (x + post)[..|x + post| - 1] == x + post[..|post| - 1];
      TrimEndPadded(x, post[..|post| - 1]);
    } else {
      assert x + post == x;
    }
  }

  /**
   * Trimming is determined by the content between the padding: whatever
   * whitespace surrounds a trimmed string, `trim` gives that string back.
   */
  lemma TrimPadded(pre: string, x: string, post: string)
    requires AllSpace(pre) && AllSpace(post)
    requires IsTrimmed(x)
    ensures Trim(pre + x + post) == x
  {
    if x == [] {
      assert pre + x + post == pre + post;
      TrimStartPadded(pre + post, []);
      assert pre + post + [] == pre + post;
      assert TrimStart(pre + post) == [];
    } else {
      assert pre + x + post == pre + (x + post);
      TrimStartPadded(pre, x + post);
      TrimEndPadded(x, post);
    }
  }

  /** Trimming twice is trimming once. */
  lemma TrimIdempotent(s: string)
    ensures Trim(Trim(s)) == Trim(s)
  {
    var t := Trim(s);
    assert [] + t + [] == t;
    TrimPadded([], t, []);
  }

  /** `parts.join(sep)`. */
  function Join(parts: seq<string>, sep: char): string {
    if |parts| == 0 then ""
    else if |parts| == 1 then parts[0]
    else parts[0] + [sep] + Join(parts[1..], sep)
  }

  /**
   * `s.split(sep)` for a one-character separator: the pieces between the
   * separators. There is always at least one, `[""]` for the empty string.
   */
  function Split(s: string, sep: char): (parts: seq<string>)
    ensures |parts| >= 1
    decreases |s|
  {
    if s == [] then [""]
    else if s[0] == sep then [""] + Split(s[1..], sep)
    else
      var rest := Split(s[1..], sep);
      [[s[0]] + rest[0]] + rest[1..]
  }

  /** No piece contains the separator, and joining the pieces gives `s` back. */
  lemma {:induction false} SplitSpec(s: string, sep: char)
    ensures var parts := Split(s, sep);
      (forall i :: 0 <= i < |parts| ==> sep !in parts[i]) && Join(parts, sep) == s
    decreases |s|
  {
    if s != [] {
      SplitSpec(s[1..], sep);
      var rest := Split(s[1..], sep);
      var parts := Split(s, sep);
      if s[0] == sep {
        assert parts[1..] == rest;
        assert [sep] + Join(rest, sep) == s;
      } else {
        assert parts[1..] == rest[1..];
        assert sep !in parts[0];
        assert forall i :: 1 <= i < |parts| ==> parts[i] == rest[i];
      }
    }
  }

  /** There is one more piece than there are separators. */
  lemma {:induction false} SplitCount(s: string, sep: char)
    ensures |Split(s, sep)| == multiset(s)[sep] + 1
    decreases |s|
  {
    if s != [] {
      SplitCount(s[1..], sep);
      assert s == [s[0]] + s[1..];
    }
  }

  /** Splitting the join of separator-free pieces gives the pieces back. */
  lemma {:induction false} SplitJoin(parts: seq<string>, sep: char)
    requires |parts| >= 1
    requires forall i :: 0 <= i < |parts| ==> sep !in parts[i]
    ensures Split(Join(parts, sep), sep) == parts
    decreases |parts|, |parts[0]|
  {
    if |parts| == 1 {
      NoSepSplit(parts[0], sep);
    } else if parts[0] == [] {
      assert Join(parts, sep) == [sep] + Join(parts[1..], sep);
      assert Join(parts, sep)[1..] == Join(parts[1..], sep);
      SplitJoin(parts[1..], sep);
      assert [""] + parts[1..] == parts;
    } else {
      var s := Join(parts, sep);
      var shorter := [parts[0][1..]] + parts[1..];
      assert shorter[1..] == parts[1..];
      assert forall i :: 0 <= i < |shorter| ==> sep !in shorter[i] by {
        forall i | 0 <= i < |shorter| ensures sep !in shorter[i] {
          if i == 0 {
            assert forall c :: c in parts[0][1..] ==> c in parts[0];
          }
        }
      }
      assert s == [parts[0][0]] + Join(shorter, sep);
      assert s[1..] == Join(shorter, sep);
      SplitJoin(shorter, sep);
      assert s[0] == parts[0][0] && s[0] != sep;
      assert [parts[0][0]] + parts[0][1..] == parts[0];
      assert [[s[0]] + shorter[0]] + shorter[1..] == parts;
    }
  }

  lemma {:induction false} NoSepSplit(s: string, sep: char)
    requires sep !in s
    ensures Split(s, sep) == [s]
    decreases |s|
  {
    if s != [] {
      NoSepSplit(s[1..], sep);
      assert [s[0]] + s[1..] == s;
    }
  }

  /** ASCII upper-casing of one character. */
  function UpperChar(c: char): (u: char)
    ensures 'a' <= c <= 'z' ==> 'A' <= u <= 'Z' && u as int - c as int == 'A' as int - 'a' as int
    ensures !('a' <= c <= 'z') ==> u == c
  {
    if 'a' <= c <= 'z' then (c as int - 32) as char else c
  }

  /**
   * `word[0].toUpperCase() + word.slice(1)`; `None` when the word is empty,
   * where `word[0]` is `undefined` and the call throws.
   */
  function Capitalize(word: string): (r: Option<string>)
    ensures r.Some? <==> word != []
    ensures r.Some? ==> |r.value| == |word| && r.value[0] == UpperChar(word[0]) && r.value[1..] == word[1..]
  {
    if word == [] then None else Some([UpperChar(word[0])] + word[1..])
  }

  /** `s.endsWith(suffix)`. */
  predicate EndsWith(s: string, suffix: string) {
    |suffix| <= |s| && s[|s| - |suffix|..] == suffix
  }

  /** `s.startsWith(prefix)`. */
  predicate StartsWith(s: string, prefix: string) {
    |prefix| <= |s| && s[..|prefix|] == prefix
  }
}
