/**
 * The command line of `src/cli.ts`: a left-to-right scan over `argv` that
 * sets the options, stops early for `--help` or an unknown argument, then
 * checks that the source, destination and project are given.
 */
module Cli {
  import opened Wrappers
  import opened Json

  /** The option a value-taking flag sets. */
  datatype Flag = Src | Dest | Project | Exclude

  /** The value-taking flags and their one-letter aliases. */
  function ValueFlag(arg: string): Option<Flag> {
    if arg == "--src" || arg == "-s" then Some(Src)
    else if arg == "--dest" || arg == "-d" then Some(Dest)
    else if arg == "--exclude" || arg == "-e" then Some(Exclude)
    else if arg == "--project" || arg == "-p" then Some(Project)
    else None
  }

  predicate IsWatch(arg: string) {
    arg == "--watch" || arg == "-w"
  }

  predicate IsHelp(arg: string) {
    arg == "--help" || arg == "-h"
  }

  /**
   * The variables the loop updates. A value read past the end of `argv`
   * is JavaScript's `undefined`, here `None`; `--exclude` pushes it as is.
   */
  datatype State = State(
    src: Option<string>,
    dest: Option<string>,
    project: Option<string>,
    watch: bool,
    excludes: seq<Option<string>>)

  /** The values before the loop. */
  const Initial := State(Some(""), Some(""), Some("tsconfig.json"), false, [])

  /** The options once validated: the three paths are non-empty strings. */
  datatype Options = Options(
    src: string,
    dest: string,
    project: string,
    watch: bool,
    excludes: seq<Option<string>>)

  /** What the command line leads to. */
  datatype Outcome =
    | Help
    | Fail(message: string)
    | Start(options: Options)

  /** The exit status the outcome ends the process with; `None` when it goes on to scan. */
  function ExitCode(o: Outcome): (code: Option<int>)
    ensures code.Some? <==> !o.Start?
    ensures code == Some(0) <==> o.Help?
    ensures code == Some(1) <==> o.Fail?
  {
    match o
    case Help => Some(0)
    case Fail(_) => Some(1)
    case Start(_) => None
  }

  /** `args[i]`, which is `undefined` past the end. */
  function Arg(argv: seq<string>, i: int): (r: Option<string>)
    ensures r.Some? <==> 0 <= i < |argv|
  {
    if 0 <= i < |argv| then Some(argv[i]) else None
  }

  /**
   * The effect of one value-taking flag: `--exclude` appends its value and
   * is the only flag that changes the exclusions; no value flag touches
   * `watch`. `SetFlagPaths` states the path options.
   */
  function SetFlag(st: State, f: Flag, v: Option<string>): (r: State)
    ensures r.watch == st.watch
    ensures f == Exclude ==> r.excludes == st.excludes + [v]
    ensures f != Exclude ==> r.excludes == st.excludes
  {
    match f
    case Src => st.(src := v)
    case Dest => st.(dest := v)
    case Project => st.(project := v)
    case Exclude => st.(excludes := st.excludes + [v])
  }

  /**
   * A path flag overwrites its own option, so a later occurrence wins, and
   * leaves the other two as they were.
   */
  lemma SetFlagPaths(st: State, f: Flag, v: Option<string>)
    ensures SetFlag(st, f, v).src == if f == Src then v else st.src
    ensures SetFlag(st, f, v).dest == if f == Dest then v else st.dest
    ensures SetFlag(st, f, v).project == if f == Project then v else st.project
  {
  }

  /** Where the loop ends: still going at the end of `argv`, or stopped with an outcome. */
  datatype Progress = Going(st: State) | Stopped(outcome: Outcome)

  /** The message for an unrecognised argument. */
  function UnknownMessage(arg: string): string {
    "Unknown argument: " + Quote(arg)
  }

  /** The `for` loop from index `i` on. */
  function Loop(argv: seq<string>, i: nat, st: State): (r: Progress)
    ensures r.Stopped? ==> r.outcome.Help? || r.outcome.Fail?
    decreases |argv| - i
  {
    if i >= |argv| then Going(st)
    else
      var arg := argv[i];
      match ValueFlag(arg)
      case Some(f) => Loop(argv, i + 2, SetFlag(st, f, Arg(argv, i + 1)))
      case None =>
        if IsWatch(arg) then Loop(argv, i + 1, st.(watch := true))
        else if IsHelp(arg) then Stopped(Help)
        else Stopped(Fail(UnknownMessage(arg)))
  }

  /** JavaScript truthiness of a path: given and not empty. */
  predicate Given(v: Option<string>) {
    v.Some? && v.value != []
  }

  /** The three checks after the loop, in the source's order. */
  function Validate(st: State): (o: Outcome)
    ensures o.Start? <==> Given(st.src) && Given(st.dest) && Given(st.project)
    ensures o.Start? ==> o.options == Options(st.src.value, st.dest.value, st.project.value, st.watch, st.excludes)
    ensures o == Fail("No --src specified") <==> !Given(st.src)
    ensures o == Fail("No --dest specified") <==> Given(st.src) && !Given(st.dest)
    ensures o == Fail("No --project specified") <==> Given(st.src) && Given(st.dest) && !Given(st.project)
  {
    if !Given(st.src) then Fail("No --src specified")
    else if !Given(st.dest) then Fail("No --dest specified")
    else if !Given(st.project) then Fail("No --project specified")
    else Start(Options(st.src.value, st.dest.value, st.project.value, st.watch, st.excludes))
  }

  /** The whole command line; `argv[0]` and `argv[1]` are the runtime and the script. */
  function Parse(argv: seq<string>): (o: Outcome)
    ensures |argv| <= 2 ==> o == Help
    ensures o.Start? ==> o.options.src != [] && o.options.dest != [] && o.options.project != []
  {
    if |argv| <= 2 then Help
    else
      match Loop(argv, 2, Initial)
      case Stopped(o) => o
      case Going(st) => Validate(st)
  }

  /** One value-taking flag: the loop goes on two places later. */
  lemma LoopSet(argv: seq<string>, i: nat, st: State, f: Flag)
    requires i < |argv| && ValueFlag(argv[i]) == Some(f)
    ensures Loop(argv, i, st) == Loop(argv, i + 2, SetFlag(st, f, Arg(argv, i + 1)))
  {
  }

  /**
   * The loop as the source writes it: the index moves once more inside a
   * value-taking case, and the five option variables are kept together.
   */
  method ParseArgs(argv: seq<string>) returns (o: Outcome)
    ensures o == Parse(argv)
  {
    if |argv| <= 2 {
      return Help;
    }
    var st := Initial;
    var i := 2;
    while i < |argv|
      invariant 2 <= i <= |argv| + 1
      invariant Loop(argv, i, st) == Loop(argv, 2, Initial)
      decreases |argv| - i
    {
      var arg := argv[i];
      match ValueFlag(arg) {
        case Some(f) =>
          LoopSet(argv, i, st, f);
          i := i + 1;
          st := SetFlag(st, f, Arg(argv, i));
        case None =>
          if IsWatch(arg) {
            st := st.(watch := true);
          } else if IsHelp(arg) {
            return Help;
          } else {
            return Fail(UnknownMessage(arg));
          }
      }
      i := i + 1;
    }
    return Validate(st);
  }

  /** Once the loop stops, what follows is never looked at. */
  lemma {:induction false} LoopStopped(argv: seq<string>, more: seq<string>, i: nat, st: State)
    requires Loop(argv, i, st).Stopped?
    ensures Loop(argv + more, i, st) == Loop(argv, i, st)
    decreases |argv| - i
  {
    var all := argv + more;
    assert all[i] == argv[i];
    match ValueFlag(argv[i])
    case Some(f) =>
      assert Arg(all, i + 1) == Arg(argv, i + 1);
      LoopStopped(argv, more, i + 2, SetFlag(st, f, Arg(argv, i + 1)));
    case None =>
      if IsWatch(argv[i]) {
        LoopStopped(argv, more, i + 1, st.(watch := true));
      }
  }

  /** `--help` or an unknown argument decides the outcome whatever comes after it. */
  lemma StopIgnoresLater(argv: seq<string>, more: seq<string>)
    requires |argv| > 2 && Loop(argv, 2, Initial).Stopped?
    ensures Parse(argv + more) == Parse(argv)
  {
    LoopStopped(argv, more, 2, Initial);
  }

  // ---------------------------------------------------------------------
  // A declarative reading of the command line, independent of the loop.
  // ---------------------------------------------------------------------

  /** One step of the scan, with the text it covers. */
  datatype Token =
    | SetTok(flag: Flag, name: string, value: Option<string>)
    | WatchTok(name: string)
    | HelpTok(name: string)
    | UnknownTok(arg: string)

  /** Cuts the arguments into tokens: a value-taking flag takes the argument after it, whatever it is. */
  function Tokenize(args: seq<string>): (ts: seq<Token>)
    ensures |ts| <= |args|
    ensures forall k :: 0 <= k < |ts| - 1 ==> !(ts[k].SetTok? && ts[k].value.None?)
  {
    if args == [] then []
    else
      match ValueFlag(args[0])
      case Some(f) =>
        if |args| >= 2 then [SetTok(f, args[0], Some(args[1]))] + Tokenize(args[2..])
        else [SetTok(f, args[0], None)]
      case None =>
        var t := if IsWatch(args[0]) then WatchTok(args[0])
          else if IsHelp(args[0]) then HelpTok(args[0])
          else UnknownTok(args[0]);
        [t] + Tokenize(args[1..])
  }

  /** The arguments a token was cut from. */
  function TokenText(t: Token): seq<string> {
    match t
    case SetTok(_, name, value) => if value.Some? then [name, value.value] else [name]
    case WatchTok(name) => [name]
    case HelpTok(name) => [name]
    case UnknownTok(arg) => [arg]
  }

  function Untokenize(ts: seq<Token>): seq<string> {
    if ts == [] then [] else TokenText(ts[0]) + Untokenize(ts[1..])
  }

  /** Cutting into tokens loses nothing. */
  lemma {:induction false} UntokenizeTokenize(args: seq<string>)
    ensures Untokenize(Tokenize(args)) == args
    decreases |args|
  {
    if args != [] {
      var ts := Tokenize(args);
      match ValueFlag(args[0])
      case Some(f) =>
        if |args| >= 2 {
          UntokenizeTokenize(args[2..]);
          assert args == [args[0], args[1]] + args[2..];
        } else {
          assert ts[1..] == [];
        }
      case None =>
        UntokenizeTokenize(args[1..]);
        assert args == [args[0]] + args[1..];
    }
  }

  /** A token that ends the scan. */
  predicate Stops(t: Token) {
    t.HelpTok? || t.UnknownTok?
  }

  /** The index of the first token that ends the scan. */
  function FirstStop(ts: seq<Token>): (r: Option<nat>)
    ensures r.Some? ==> r.value < |ts| && Stops(ts[r.value]) && forall k :: 0 <= k < r.value ==> !Stops(ts[k])
    ensures r.None? ==> forall k :: 0 <= k < |ts| ==> !Stops(ts[k])
  {
    if ts == [] then None
    else if Stops(ts[0]) then Some(0)
    else match FirstStop(ts[1..])
      case None => None
      case Some(k) => Some(k + 1)
  }

  /** The outcome a stopping token gives. */
  function StopOutcome(t: Token): Outcome
    requires Stops(t)
  {
    if t.HelpTok? then Help else Fail(UnknownMessage(t.arg))
  }

  /** The value of the last token setting `f`, or `d` if there is none. */
  function LastValue(ts: seq<Token>, f: Flag, d: Option<string>): Option<string> {
    if ts == [] then d
    else
      var t := ts[|ts| - 1];
      if t.SetTok? && t.flag == f then t.value else LastValue(ts[..|ts| - 1], f, d)
  }

  /** The values of the tokens setting `f`, in order. */
  function Values(ts: seq<Token>, f: Flag): (vs: seq<Option<string>>)
    ensures |vs| <= |ts|
  {
    if ts == [] then []
    else if ts[0].SetTok? && ts[0].flag == f then [ts[0].value] + Values(ts[1..], f)
    else Values(ts[1..], f)
  }

  predicate HasWatch(ts: seq<Token>) {
    exists k :: 0 <= k < |ts| && ts[k].WatchTok?
  }

  /**
   * The state after all of `ts`, from `st`: the last value of each path
   * flag, the exclusions appended in order, and `watch` once any watch
   * flag occurs.
   */
  function After(ts: seq<Token>, st: State): State {
    State(
      LastValue(ts, Src, st.src),
      LastValue(ts, Dest, st.dest),
      LastValue(ts, Project, st.project),
      st.watch || HasWatch(ts),
      st.excludes + Values(ts, Exclude))
  }

  /** The declarative outcome: the first stopping token decides, or else the validated final state. */
  function Declared(ts: seq<Token>): Outcome {
    match FirstStop(ts)
    case Some(k) => StopOutcome(ts[k])
    case None => Validate(After(ts, Initial))
  }

  /** A token in front changes the default the later ones override. */
  lemma {:induction false} LastValueCons(t: Token, ts: seq<Token>, f: Flag, d: Option<string>)
    ensures LastValue([t] + ts, f, d) == LastValue(ts, f, if t.SetTok? && t.flag == f then t.value else d)
    decreases |ts|
  {
    if ts == [] {
      assert ([t] + ts)[..0] == [];
    } else {
      assert ([t] + ts)[..|ts|] == [t] + ts[..|ts| - 1];
      LastValueCons(t, ts[..|ts| - 1], f, d);
    }
  }

  /** The state after a token in front is the state after the rest, from the token's effect. */
  lemma AfterCons(t: Token, ts: seq<Token>, st: State)
    requires !Stops(t)
    ensures After([t] + ts, st) ==
      After(ts, match t
        case SetTok(f, _, v) => SetFlag(st, f, v)
        case _ => st.(watch := true))
  {
    var all := [t] + ts;
    assert all[1..] == ts;
    LastValueCons(t, ts, Src, st.src);
    LastValueCons(t, ts, Dest, st.dest);
    LastValueCons(t, ts, Project, st.project);
    if HasWatch(ts) {
      var k :| 0 <= k < |ts| && ts[k].WatchTok?;
      assert all[k + 1] == ts[k];
    }
    if t.WatchTok? {
      assert all[0].WatchTok?;
    } else if HasWatch(all) {
      var k :| 0 <= k < |all| && all[k].WatchTok?;
      assert ts[k - 1] == all[k];
    }
  }

  /** The arguments from index `i` on; none once `i` is past the end. */
  function Rest(argv: seq<string>, i: nat): (r: seq<string>)
    ensures |r| == if i <= |argv| then |argv| - i else 0
  {
    if i <= |argv| then argv[i..] else []
  }

  /** The loop from index `i` does what the tokens of the rest of `argv` declare. */
  lemma {:induction false} LoopTokens(argv: seq<string>, i: nat, st: State)
    ensures Loop(argv, i, st) ==
      var ts := Tokenize(Rest(argv, i));
      match FirstStop(ts)
      case Some(k) => Stopped(StopOutcome(ts[k]))
      case None => Going(After(ts, st))
    decreases |argv| - i
  {
    if i >= |argv| {
      assert Rest(argv, i) == [];
      assert After([], st) == st;
    } else {
      var rest := argv[i..];
      var ts := Tokenize(rest);
      assert rest[0] == argv[i];
      match ValueFlag(argv[i])
      case Some(f) =>
        if i + 1 < |argv| {
          assert rest[2..] == Rest(argv, i + 2);
          assert ts == [ts[0]] + Tokenize(Rest(argv, i + 2));
          LoopTokens(argv, i + 2, SetFlag(st, f, Arg(argv, i + 1)));
          AfterCons(ts[0], Tokenize(Rest(argv, i + 2)), st);
        } else {
          assert Rest(argv, i + 2) == [];
          assert ts == [ts[0]] + [];
          AfterCons(ts[0], [], st);
          assert After([], SetFlag(st, f, None)) == SetFlag(st, f, None);
        }
      case None =>
        assert rest[1..] == Rest(argv, i + 1);
        assert ts == [ts[0]] + Tokenize(Rest(argv, i + 1));
        if IsWatch(argv[i]) {
          LoopTokens(argv, i + 1, st.(watch := true));
          AfterCons(ts[0], Tokenize(Rest(argv, i + 1)), st);
        }
    }
  }

  /** The loop and the declarative reading agree on every command line. */
  lemma ParseDeclared(argv: seq<string>)
    requires |argv| > 2
    ensures Parse(argv) == Declared(Tokenize(argv[2..]))
  {
    LoopTokens(argv, 2, Initial);
    assert Rest(argv, 2) == argv[2..];
  }

  // ---------------------------------------------------------------------
  // The options handed to the scan (lines 77-87).
  // ---------------------------------------------------------------------

  /** The transpiler settings; `None` is an `undefined` property. */
  datatype Config = Config(jsx: Option<string>, jsxFactory: Option<Value>, jsxFragment: Option<Value>)

  datatype ScanOptions = ScanOptions(
    srcPath: string,
    destPath: string,
    watch: bool,
    excludePaths: seq<Option<string>>,
    config: Config)

  /** The settings read from the tsconfig's `compilerOptions` (or `{}` when it has none). */
  function ConfigOf(compilerOptions: Value): (c: Config)
    ensures c.jsx.Some? <==> Truthy(Get(compilerOptions, "jsx"))
    ensures c.jsx.Some? ==> c.jsx.value == "transform"
  {
    Config(
      if Truthy(Get(compilerOptions, "jsx")) then Some("transform") else None,
      Get(compilerOptions, "jsxFactory"),
      Get(compilerOptions, "jsxFragmentFactory"))
  }

  /** The options `scanPath` receives; `StartedScanOptions` states what they hold. */
  function ScanOptionsOf(o: Options, compilerOptions: Value): ScanOptions {
    ScanOptions(o.src, o.dest, o.watch, o.excludes, ConfigOf(compilerOptions))
  }

  /**
   * The options a started scan receives, read off the command line: no
   * `--help` or unknown argument occurs; the source, destination and
   * project are the last values their flags set (the project defaulting to
   * `tsconfig.json`); the exclusions are every `--exclude` value in order;
   * `watch` is on exactly when a watch flag occurs; and the transpiler
   * settings come from `compilerOptions`.
   */
  lemma StartedScanOptions(argv: seq<string>, compilerOptions: Value)
    requires |argv| > 2 && Parse(argv).Start?
    ensures var ts := Tokenize(argv[2..]);
      var r := ScanOptionsOf(Parse(argv).options, compilerOptions);
      && FirstStop(ts).None?
      && Some(r.srcPath) == LastValue(ts, Src, Some(""))
      && Some(r.destPath) == LastValue(ts, Dest, Some(""))
      && Some(Parse(argv).options.project) == LastValue(ts, Project, Some("tsconfig.json"))
      && r.excludePaths == Values(ts, Exclude)
      && (r.watch <==> HasWatch(ts))
      && r.config == ConfigOf(compilerOptions)
  {
    var ts := Tokenize(argv[2..]);
    ParseDeclared(argv);
    assert [] + Values(ts, Exclude) == Values(ts, Exclude);
  }

  /**
   * The last `jsx` member of the text decides: any truthy setting (`"react"`,
   * `"preserve"`, `true`, a non-zero number) turns the transform on, and
   * `false`, `""`, `0` or `null` leave it off.
   */
  lemma JsxByLastMember(ms: seq<(string, Value)>, v: Value)
    ensures ConfigOf(Object(ms + [("jsx", v)])).jsx == if Truthy(Some(v)) then Some("transform") else None
  {
    assert (ms + [("jsx", v)])[|ms|] == ("jsx", v);
  }

  /** Without a `jsx` member (as in the `{}` default) there is no transform, and the factories come from their members. */
  lemma ConfigWithoutJsx(ms: seq<(string, Value)>)
    requires forall k :: 0 <= k < |ms| ==> ms[k].0 != "jsx"
    ensures ConfigOf(Object(ms)).jsx.None?
    ensures ConfigOf(Object(ms)).jsxFactory == Lookup(ms, "jsxFactory")
    ensures ConfigOf(Object(ms)).jsxFragment == Lookup(ms, "jsxFragmentFactory")
  {
    LookupSpec(ms, "jsx");
  }

  /** The fragment factory is read from `jsxFragmentFactory`; a member named `jsxFragment` is ignored. */
  lemma FragmentFromFactory(ms: seq<(string, Value)>, v: Value)
    ensures ConfigOf(Object(ms + [("jsxFragmentFactory", v)])).jsxFragment == Some(v)
    ensures ConfigOf(Object(ms + [("jsxFragment", v)])).jsxFragment == Lookup(ms, "jsxFragmentFactory")
  {
    var a := ms + [("jsxFragment", v)];
    assert a[..|a| - 1] == ms;
  }
}
