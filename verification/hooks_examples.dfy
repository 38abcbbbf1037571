/**
 * The cases of `src/test/parse-hook.ts`, each proved through the general
 * rules of `Hooks` rather than by evaluating the parser on the literal.
 */
module HooksExamples {
  import opened Wrappers
  import opened Text
  import opened Hooks

  /** Text with no `#` at all is all command, and has no watch files. */
  lemma NoHashIsCommand(s: string)
    requires '#' !in s
    ensures ParseHook(s) == Hook(s, None)
  {
    NoDelimWithoutHash(s);
  }

  /** A command followed by a delimiter and files parses back to them. */
  lemma WatchParses(c: string, fs: seq<string>)
    requires WellFormed(Hook(c, Some(fs)))
    ensures ParseHook(c + Delim + Join(fs, Comma)) == Hook(c, Some(fs))
  {
    ParseUnparse(Hook(c, Some(fs)));
  }

  /** Two watch files, written with the comma between them. */
  lemma WatchTwoParses(c: string, x: string, y: string)
    requires c == [] || c[|c| - 1] != Escape
    requires Comma !in x && '#' !in x && Comma !in y && '#' !in y
    ensures ParseHook(c + Delim + (x + [Comma] + y)) == Hook(c, Some([x, y]))
  {
    var fs := [x, y];
    assert fs[1..] == [y];
    assert Join(fs, Comma) == x + [Comma] + y;
    ParseUnparse(Hook(c, Some(fs)));
  }

  /** A delimiter escaped by a backslash, in text with no other `#`, is literal. */
  lemma EscapedIsCommand(a: string, b: string)
    requires '#' !in a && '#' !in b
    ensures ParseHook(a + [Escape] + Delim + b) == Hook(a + [Escape] + Delim + b, None)
  {
    var s := a + [Escape] + Delim + b;
    forall j | 0 <= j < |s|
      ensures s[j] == '#' ==> j > 0 && s[j - 1] == Escape
    {
      if j < |a| {
        assert s[j] == a[j];
      } else if j == |a| {
        assert s[j] == Escape;
      } else if j < |a| + 1 + |Delim| {
        assert s[j] == Delim[j - |a| - 1];
      } else {
        assert s[j] == b[j - |a| - 1 - |Delim|];
      }
    }
    NoDelimWithoutHash(s);
  }

  /** parse hook command with spaces */
  lemma CommandWithSpaces()
    ensures ParseHook("command with spaces") == Hook("command with spaces", None)
  {
    NoHashIsCommand("command with spaces");
  }

  /** parse single watch file */
  lemma SingleWatchFile()
    ensures ParseHook("command with spaces#watch:./src") == Hook("command with spaces", Some(["./src"]))
  {
    var fs := ["./src"];
    assert Join(fs, Comma) == "./src";
    assert WellFormed(Hook("command with spaces", Some(fs)));
    assert "command with spaces" + Delim + "./src" == "command with spaces#watch:./src";
    WatchParses("command with spaces", fs);
  }

  /** parse escaped command */
  lemma EscapedCommand()
    ensures ParseHook("command with spaces\\#watch:./src") == Hook("command with spaces\\#watch:./src", None)
  {
    assert "command with spaces" + [Escape] + Delim + "./src" == "command with spaces\\#watch:./src";
    EscapedIsCommand("command with spaces", "./src");
  }

  /** The two file names of the cases hold neither a comma nor a `#`. */
  lemma TwoFiles()
    ensures Comma !in "./file1.js" && '#' !in "./file1.js"
    ensures Comma !in "./file2.ts" && '#' !in "./file2.ts"
  {
  }

  lemma TwoFilesText(c: string)
    ensures c + Delim + ("./file1.js" + [Comma] + "./file2.ts") == c + "#watch:./file1.js,./file2.ts"
  {
  }

  /** parse multiple watch files */
  lemma MultipleWatchFiles()
    ensures ParseHook("command with spaces#watch:./file1.js,./file2.ts")
      == Hook("command with spaces", Some(["./file1.js", "./file2.ts"]))
  {
    TwoFiles();
    assert "command with spaces" + Delim + ("./file1.js" + [Comma] + "./file2.ts")
      == "command with spaces#watch:./file1.js,./file2.ts" by {
      TwoFilesText("command with spaces");
    }
    WatchTwoParses("command with spaces", "./file1.js", "./file2.ts");
  }

  /** parse escaped hook command with multiple watch files */
  lemma EscapedThenWatchFiles()
    ensures ParseHook("command with spaces\\#watch:./src#watch:./file1.js,./file2.ts")
      == Hook("command with spaces\\#watch:./src", Some(["./file1.js", "./file2.ts"]))
  {
    TwoFiles();
    assert "command with spaces\\#watch:./src" + Delim + ("./file1.js" + [Comma] + "./file2.ts")
      == "command with spaces\\#watch:./src#watch:./file1.js,./file2.ts" by {
      TwoFilesText("command with spaces\\#watch:./src");
    }
    WatchTwoParses("command with spaces\\#watch:./src", "./file1.js", "./file2.ts");
  }
}
