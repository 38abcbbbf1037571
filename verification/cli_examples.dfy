/**
 * Command lines worked through `Cli.Parse`: the invocation the help text
 * shows, and the edge cases of the loop and the validation.
 */
module CliExamples {
  import opened Wrappers
  import opened Json
  import opened Cli

  /** One watch flag. */
  lemma StepWatch(argv: seq<string>, i: nat, st: State)
    requires i < |argv| && IsWatch(argv[i])
    ensures Loop(argv, i, st) == Loop(argv, i + 1, st.(watch := true))
  {
    assert ValueFlag(argv[i]).None?;
  }

  /** The names of the flags. */
  lemma FlagNames()
    ensures ValueFlag("--src") == Some(Src) && ValueFlag("-s") == Some(Src)
    ensures ValueFlag("--dest") == Some(Dest) && ValueFlag("-d") == Some(Dest)
    ensures ValueFlag("--project") == Some(Project) && ValueFlag("-p") == Some(Project)
    ensures ValueFlag("--exclude") == Some(Exclude) && ValueFlag("-e") == Some(Exclude)
    ensures IsWatch("--watch") && IsWatch("-w")
  {
  }

  /** The loop over the help text's invocation, up to the destination. */
  lemma HelpTextFront(argv: seq<string>, project: string, src: string)
    requires |argv| == 11 && IsWatch(argv[2]) && ValueFlag(argv[3]) == Some(Project) && argv[4] == project
    requires ValueFlag(argv[5]) == Some(Src) && argv[6] == src
    ensures Loop(argv, 2, Initial) == Loop(argv, 7, State(Some(src), Some(""), Some(project), true, []))
  {
    var st := State(Some(""), Some(""), Some(project), true, []);
    HelpTextWatchProject(argv, project);
    LoopSet(argv, 5, st, Src);
  }

  lemma HelpTextWatchProject(argv: seq<string>, project: string)
    requires |argv| == 11 && IsWatch(argv[2]) && ValueFlag(argv[3]) == Some(Project) && argv[4] == project
    ensures Loop(argv, 2, Initial) == Loop(argv, 5, State(Some(""), Some(""), Some(project), true, []))
  {
    StepWatch(argv, 2, Initial);
    LoopSet(argv, 3, Initial.(watch := true), Project);
  }

  /** The rest of the loop over the help text's invocation. */
  lemma HelpTextBack(argv: seq<string>, st: State)
    requires |argv| == 11 && argv[7] == "--dest" && argv[8] == "../ts-liveview/dist"
    requires argv[9] == "--exclude" && argv[10] == "../ts-liveview/scripts"
    ensures Loop(argv, 7, st) == Going(st.(dest := Some("../ts-liveview/dist"), excludes := st.excludes + [Some("../ts-liveview/scripts")]))
  {
    var st1 := st.(dest := Some("../ts-liveview/dist"));
    LoopSet(argv, 7, st, Dest);
    LoopSet(argv, 9, st1, Exclude);
  }

  /** The example invocation of the help text. */
  lemma HelpTextExample()
    ensures Parse(["node", "live-tsc", "--watch", "--project", "../ts-liveview/tsconfig.json",
      "--src", "../ts-liveview", "--dest", "../ts-liveview/dist", "--exclude", "../ts-liveview/scripts"])
      == Start(Options("../ts-liveview", "../ts-liveview/dist", "../ts-liveview/tsconfig.json", true,
        [Some("../ts-liveview/scripts")]))
  {
    var argv := ["node", "live-tsc", "--watch", "--project", "../ts-liveview/tsconfig.json",
      "--src", "../ts-liveview", "--dest", "../ts-liveview/dist", "--exclude", "../ts-liveview/scripts"];
    var st := State(Some("../ts-liveview"), Some(""), Some("../ts-liveview/tsconfig.json"), true, []);
    FlagNames();
    HelpTextFront(argv, "../ts-liveview/tsconfig.json", "../ts-liveview");
    HelpTextBack(argv, st);
    assert [] + [Some("../ts-liveview/scripts")] == [Some("../ts-liveview/scripts")];
  }

  /** No user arguments: the help text, exit status 0. */
  lemma NoArguments()
    ensures Parse(["node", "live-tsc"]) == Help && ExitCode(Help) == Some(0)
  {
  }

  /** The last `--src` wins, short and long names alike, and the project defaults to `tsconfig.json`. */
  lemma LastSourceWins()
    ensures Parse(["node", "live-tsc", "--src", "a", "-s", "b", "-d", "out"])
      == Start(Options("b", "out", "tsconfig.json", false, []))
  {
  }

  /** Each `--exclude` appends, in order. */
  lemma ExcludesShape(argv: seq<string>, x: string, a: string, y: string, b: string)
    requires |argv| == 10 && argv[2] == "-e" && argv[3] == x && argv[4] == "-s" && argv[5] == a
    requires argv[6] == "--exclude" && argv[7] == y && argv[8] == "-d" && argv[9] == b
    requires a != [] && b != []
    ensures Parse(argv) == Start(Options(a, b, "tsconfig.json", false, [Some(x), Some(y)]))
  {
    FlagNames();
    var st0 := Initial.(excludes := [Some(x)]);
    var st1 := st0.(src := Some(a));
    var st2 := st1.(excludes := [Some(x), Some(y)]);
    var st3 := st2.(dest := Some(b));
    LoopSet(argv, 2, Initial, Exclude);
    assert SetFlag(Initial, Exclude, Some(x)) == st0;
    LoopSet(argv, 4, st0, Src);
    LoopSet(argv, 6, st1, Exclude);
    assert SetFlag(st1, Exclude, Some(y)) == st2;
    LoopSet(argv, 8, st2, Dest);
    assert Loop(argv, 10, st3) == Going(st3);
    assert Loop(argv, 2, Initial) == Going(st3);
    assert Validate(st3) == Start(Options(a, b, "tsconfig.json", false, [Some(x), Some(y)]));
  }

  lemma ExcludesInOrder()
    ensures Parse(["node", "live-tsc", "-e", "x", "-s", "a", "--exclude", "y", "-d", "b"])
      == Start(Options("a", "b", "tsconfig.json", false, [Some("x"), Some("y")]))
  {
    ExcludesShape(["node", "live-tsc", "-e", "x", "-s", "a", "--exclude", "y", "-d", "b"], "x", "a", "y", "b");
  }

  /** A flag at the end has no value: the source is missing. */
  lemma DanglingSource()
    ensures Parse(["node", "live-tsc", "--src"]) == Fail("No --src specified")
  {
  }

  /** A value flag takes the next argument even when it looks like a flag. */
  lemma FlagAsValue()
    ensures Parse(["node", "live-tsc", "-s", "--dest"]) == Fail("No --dest specified")
  {
  }

  /** An empty project path is reported after source and destination are checked. */
  lemma EmptyProject()
    ensures Parse(["node", "live-tsc", "-s", "a", "-d", "b", "-p", ""]) == Fail("No --project specified")
  {
  }

  /** An unknown argument stops the scan before a later `--help`. */
  lemma UnknownBeforeHelp()
    ensures Parse(["node", "live-tsc", "-x", "--help"]) == Fail("Unknown argument: \"-x\"")
  {
    assert Quote("-x") == "\"-x\"";
  }

  /** `--help` in the middle wins over a later unknown argument and missing options. */
  lemma HelpMidwayShape(argv: seq<string>)
    requires |argv| == 5 && argv[2] == "-w" && argv[3] == "--help"
    ensures Parse(argv) == Help
  {
    FlagNames();
    StepWatch(argv, 2, Initial);
    assert ValueFlag("--help").None? && IsHelp("--help");
  }

  lemma HelpMidway()
    ensures Parse(["node", "live-tsc", "-w", "--help", "--bogus"]) == Help
  {
    HelpMidwayShape(["node", "live-tsc", "-w", "--help", "--bogus"]);
  }
}
