# live-tsc, modelled in Dafny

live-tsc is a command-line tool that mirrors a TypeScript source tree into a
destination tree. It transpiles `.ts` and `.tsx` files to `.js`, copies every
other file, and rewrites a transpiled file only when its trimmed text changes.
This project models five pieces of it as pure functions over immutable values
and proves what they promise:

- **The scanner of `src/core.ts`** (`mirror.dfy`, `paths.dfy`, `text.dfy`).
  - `scanDirectory` classifies each entry of a directory listing: a directory
    is mirrored and recursed into, an entry that is neither directory nor file
    is skipped, a `.ts` or `.tsx` file is transpiled to `<stem>.js`, and any
    other file is copied.
  - `transpileFile` writes only when the destination is missing or its trimmed
    content differs from the trimmed output.
  - The source is a `Tree` whose directories keep their `readdir` order. The
    destination is a map from names to `Node`s.
  - `path.extname`, the end-anchored `replace(/ts$/, 'js')` and
    `String.prototype.trim` are written out.
  - `transpile` is a parameter: any function from source text to output text.
  - Proved: the classification, the write decision, a mapping theorem, an
    idempotence theorem, and exactly when a scan fails. The idempotence
    theorem says a second scan leaves the destination unchanged and
    transpiles nothing again; copies are still redone with the same content.
    The mapping, idempotence and failure theorems hold when no two siblings,
    at any depth, share a destination name. A counterexample shows that
    idempotence fails without that. Writing onto a special destination entry
    is modelled as a failure for every kind of entry.
- **The enum generator `genEnums`** (`enums.dfy`) and **the script
  `enums.macro.ts`** that inlines it (`enums_macro.dfy`).
  - A template of lines such as `404 page not found` becomes
    `export let PageNotFound = 404` declarations and an object listing the keys.
  - A line with an empty word throws, because `word[0]` is `undefined`.
  - Proved:
    - a line-level characterisation of value, key and failure;
    - a line-by-line description of the whole output;
    - that the script's loops compute exactly `genEnums("codes", template)`;
    - that both checked-in generated files are what their templates produce.
- **The hook syntax `<command>#watch:<file>,<file>`** (`hooks.dfy`).
  - The last `#watch:` not preceded by a backslash splits a hook string into
    a command and a comma-separated list of watch files.
  - Proved: both round trips with the writer, and the five cases of
    `src/test/parse-hook.ts` (`hooks_examples.dfy`).
- **The command line of `src/cli.ts`** (`cli.dfy`, `json.dfy`).
  - The loop over `argv` with value-taking flags, a repeatable `--exclude`,
    `--watch`, early exits for `--help` and for unknown arguments, then the
    three checks.
  - A value read past the end of `argv` is `undefined`, modelled as `None`.
  - `JSON.stringify` of a string (used in the unknown-argument message) is
    modelled together with its decoder.
  - The transpiler configuration is built from the tsconfig's
    `compilerOptions`, read with JavaScript truthiness.
  - Proved:
    - the loop agrees with an independent declarative reading: the first
      stopping argument decides; otherwise the last value of each path flag
      holds, the exclusions are kept in order, and the three checks run;
    - a stop ignores everything after it;
    - concrete command lines from the help text (`cli_examples.dfy`).

`wrappers.dfy` holds `Option` and `Result`.

## Model

| member | source | states |
|---|---|---|
| Paths.ExtName | src/core.ts:18 | the extension is a suffix of the name; when not empty it starts with `.` and is shorter than the name |
| Paths.ExtNameSpec | src/core.ts:18 | the extension holds no dot after its leading one; it is empty exactly for the empty name, `..`, and names with no dot after their first character |
| Paths.ExtNameOf | src/core.ts:18 | a non-empty stem followed by a dot-led, dot-free tail has that tail as its extension |
| Paths.LastIndexOfSpec | src/core.ts:18 | the index found is the last occurrence of the character, and none is found only when the character is absent |
| Paths.ReplaceSuffix | src/core.ts:41 | an end-anchored replace changes only the matching suffix; a string that does not end with the pattern is unchanged |
| Text.TrimIsSlice | src/core.ts:59 | `trim` returns a slice of its input with only whitespace on either side of it |
| Text.TrimPadded | src/core.ts:59 | a trimmed string padded with any whitespace trims back to itself |
| Text.TrimIdempotent | src/core.ts:59 | trimming twice is trimming once |
| Text.Trim | examples/src/enums/genEnums.ts:32 | `trim` gives a string with no whitespace at either end, never longer than its input; `Text.TrimIsSlice` shows it is the input with its whitespace ends removed |
| Text.Split | examples/src/enums/genEnums.ts:8-10 | `split` always gives at least one piece, even for the empty string; `Text.SplitSpec` states the pieces |
| Text.SplitCount | examples/src/enums/genEnums.ts:8-10 | there is one more piece than there are separators |
| Text.SplitSpec | examples/src/enums/genEnums.ts:8 | no piece of `split` contains the separator, and joining the pieces gives the string back |
| Text.SplitJoin | examples/src/enums/genEnums.ts:8 | splitting the join of separator-free pieces gives the pieces back |
| Mirror.PlanFor | src/core.ts:25-47 | directories map to a same-named directory; other entries are skipped; files are transpiled exactly when their extension is `.ts` or `.tsx`, and otherwise copied under their own name |
| Mirror.PlanTs | src/core.ts:40-41 | a `.ts` file is transpiled to the same stem with extension `.js` |
| Mirror.PlanTsx | src/core.ts:42-43 | a `.tsx` file is transpiled to the same stem with extension `.js` |
| Mirror.PlanJs | src/core.ts:44-46 | a `.js` file is copied under its own name, not transpiled |
| Mirror.PlanCopy | src/core.ts:44-46 | every file whose extension is neither `.ts` nor `.tsx` is copied under its own name |
| Mirror.TranspileFile | src/core.ts:53-67 | fails exactly when the target is a directory or, as modelled, any special entry; writes at most once, and exactly when the target is missing or its trimmed text differs from the trimmed output; afterwards the trimmed target equals the trimmed output; without a write the target is left as it was |
| Mirror.CopyFile | src/core.ts:44-46 | fails exactly when the target is a directory or, as modelled, any special entry; otherwise the target holds the source's content, and no transpile write is counted |
| Mirror.StepCopy | src/core.ts:44-46 | copying onto a missing entry or a file puts the source's content under the same name and changes nothing else |
| Mirror.StepTranspileWrites | src/core.ts:57-66 | transpiling onto a missing file, or onto a file whose trimmed text differs, writes the output and counts one write |
| Mirror.Process | src/core.ts:17-50 | a processed directory entry leaves a directory at its target, and a processed file entry leaves a file |
| Mirror.ScanList | src/core.ts:15 | processing a listing never removes a destination entry; every name present before is present after |
| Mirror.ScanDirectory | src/core.ts:10-15 | a scan succeeds only on a directory root, and never removes a destination entry |
| Mirror.ScanFrame | src/core.ts:17-50 | a scan leaves every destination name that no entry targets as it was |
| Mirror.ProcessMirrors | src/core.ts:17-50 | when no two siblings below the entry share a destination name, one processed entry ends up mirrored at its target: a directory as a directory whose listing is mirrored recursively, a transpiled file with the trimmed output, a copied file with its content |
| Mirror.ScanMirrors | src/core.ts:10-51 | mapping theorem: when no two siblings share a destination name, a successful scan mirrors every non-skipped entry at its target and leaves every other name alone |
| Mirror.ProcessIdempotent | src/core.ts:53-67 | when no two siblings below the entry share a destination name, processing it again over its own result gives the same node and makes no transpile write (a copy is redone with the same content) |
| Mirror.ScanIdempotent | src/core.ts:53-67 | idempotence: when no two siblings share a destination name, a second scan of an unchanged source over the first scan's result writes no transpiled file and changes nothing; copies are redone with the same content |
| Mirror.ProcessSucceeds | src/core.ts:17-50 | when no two siblings below the entry share a destination name, processing an entry succeeds exactly when its target, and recursively the targets below it, can take what is written there (a special entry never can, as modelled) |
| Mirror.ScanSucceeds | src/core.ts:10-51 | when no two siblings share a destination name, a scan fails exactly when some target holds the wrong kind of entry: a non-directory where a directory is mirrored, or a directory or (as modelled) any special entry where a file is written |
| Mirror.ScanDirectoryTheorems | src/core.ts:10-67 | `scanDirectory` succeeds only on a directory root, as `readdir` fails otherwise, and it fails with `NotADirectory` on any other root; when no two siblings share a destination name, it succeeds exactly when every target can take what is written there (a special entry never can, as modelled); after success the destination mirrors the source; a second scan over that result writes no transpiled file and changes nothing |
| Mirror.CollisionBreaksIdempotence | src/core.ts:40-49 | `<stem>.ts` and `<stem>.js` in one directory both target `<stem>.js`; the copy overwrites the transpiled output, so every later scan transpiles again and idempotence fails |
| Enums.CamelCase | examples/src/enums/genEnums.ts:12-15 | capitalising and concatenating the words fails exactly when some word is empty |
| Enums.ParseLine | examples/src/enums/genEnums.ts:10-15 | a failing line reports itself as having an empty word |
| Enums.FirstWord | examples/src/enums/genEnums.ts:10-11 | the value is the space-free prefix of the line up to its first space or its end |
| Enums.SplitHead | examples/src/enums/genEnums.ts:10-11 | the first piece of a line split at spaces is its first word; the line has one piece exactly when it has no space; otherwise it is the first word, a space, and the other pieces joined by spaces |
| Enums.CamelRefJoin | examples/src/enums/genEnums.ts:12-15 | camel-casing the words equals the character-by-character reading of the text after the first word (drop each space, upper-case the character after it) |
| Enums.ParseLineSpec | examples/src/enums/genEnums.ts:10-15 | a line's value is its first word, unchanged, and its key is the text after it with each space dropped and the following character upper-cased |
| Enums.CamelRefFails | examples/src/enums/genEnums.ts:14 | the character-by-character reading fails exactly on a space followed by a space or by the end |
| Enums.DanglingRest | examples/src/enums/genEnums.ts:14 | a space can only be followed by a space or the end after the first word |
| Enums.ParseLineFails | examples/src/enums/genEnums.ts:14 | a line throws exactly when it has an empty word: two consecutive spaces, or a trailing space |
| Enums.Members | examples/src/enums/genEnums.ts:8-20 | there is at most one member per line |
| Enums.MembersSkipBlank | examples/src/enums/genEnums.ts:9 | an empty line anywhere in the template contributes nothing |
| Enums.MembersSpec | examples/src/enums/genEnums.ts:8-16 | the generator fails exactly when some non-empty line fails to parse; otherwise it gives one member per non-empty line, in template order |
| Enums.Render | examples/src/enums/genEnums.ts:17-30 | the code built before trimming starts with a newline followed by `export` and ends with the closing brace |
| Enums.GenEnums | examples/src/enums/genEnums.ts:3-33 | for any name, `genEnums` fails exactly when reading the template's lines fails, and otherwise returns the layout's lines joined by newlines |
| Enums.RenderTrim | examples/src/enums/genEnums.ts:32 | `trim` removes only the leading newline of the code |
| Enums.RenderLayout | examples/src/enums/genEnums.ts:17-32 | the trimmed code plus a newline is the layout's lines joined by newlines: each declaration and a blank line, the header, one `  key,` per member in order, the closing brace |
| EnumsLayout.MembersNoEol | examples/src/enums/genEnums.ts:8-16 | the keys and values read from the lines of a split template contain no line break |
| EnumsLayout.GenEnumsLines | examples/src/enums/genEnums.ts:3-33 | for a name without a line break, the generator succeeds exactly when every non-empty line parses; its output, split at newlines, is the layout of the members; `Enums.RenderLayout` covers any name |
| EnumsLayout.GenEnumsEnding | examples/src/enums/genEnums.ts:32 | the output ends with the closing brace and exactly one newline |
| EnumsMacro.MembersAppend | examples/src/enums.macro.ts:13-25 | reading two runs of lines one after the other gives the first run's members followed by the second's, or the second run's error |
| EnumsMacro.MembersStop | examples/src/enums.macro.ts:13-25 | a line that throws ends the run with its error, whatever follows it |
| EnumsMacro.CamelWords | examples/src/enums.macro.ts:17-20 | the script's word loop computes the generator's key, failing exactly where it does |
| EnumsMacro.ReadLine | examples/src/enums.macro.ts:15-20 | the script's reading of one line gives the generator's member or error |
| EnumsMacro.Keys | examples/src/enums.macro.ts:21 | the collected names are the members' keys, one per member, in order |
| EnumsMacro.DeclareAll | examples/src/enums.macro.ts:13-25 | the script's line loop succeeds exactly when the generator's does; it then yields the generator's declarations and keys, and otherwise the same error |
| EnumsMacro.RunMacro | examples/src/enums.macro.ts:3-37 | the whole script, on any template, evaluates to `genEnums("codes", template)`, throwing exactly where the generator throws |
| EnumsExamples.ParseWords | examples/src/enums/genEnums.ts:10-15 | a space-free value followed by non-empty space-free words parses to the camel-cased words and the value |
| EnumsExamples.BlankEnds | examples/src/enums.macro.ts:5-9 | the template's leading and trailing empty lines produce no exports |
| EnumsExamples.StatusMembersParsed | examples/src/enums/status.macro.ts:3-9 | the status template gives `Ok`, `Continue`, `BadRequest`, `PageNotFound`, `ServerFailure` with their codes, in that order |
| EnumsExamples.StatusLayout | examples/src/enums/status.ts:1-17 | the layout of those members is the checked-in `status.ts`, line for line |
| EnumsExamples.StatusMacro | examples/src/enums/status.macro.ts:3-11 | `genEnums('statusCodes', template)` equals the checked-in `examples/src/enums/status.ts` |
| EnumsExamples.MacroMembersParsed | examples/src/enums.macro.ts:5-24 | the script's three non-empty lines export `BadRequest`, `PageNotFound`, `ServerFailure`, in that order |
| EnumsExamples.MacroLayout | examples/src/enums.ts:1-11 | the layout of those members under the name `codes` is the checked-in `enums.ts`, line for line |
| EnumsExamples.MacroOutput | examples/src/enums.macro.ts:5-37 | the script's template run through the generator with the name `codes` gives the checked-in `enums.ts` |
| Hooks.LastDelim | src/test/parse-hook.ts:48-53 | finds the last unescaped `#watch:` before a bound, or reports that there is none |
| Hooks.ParseHook | src/test/parse-hook.ts:9-14 | the watch files are absent, not empty, exactly when there is no unescaped `#watch:`, and then the command is the whole string |
| Hooks.ParseHookSplit | src/test/parse-hook.ts:41-53 | with a delimiter, the command is the text before the last unescaped `#watch:`; the files are the comma-separated pieces after it, at least one, none holding a comma |
| Hooks.UnparseParse | src/test/parse-hook.ts:9-14 | writing a parsed hook back gives the original string |
| Hooks.ParseUnparse | src/test/parse-hook.ts:41-46 | a hook whose files hold no comma or `#`, and whose command does not end in a backslash, parses back from its written form |
| Hooks.NoDelimWithoutHash | src/test/parse-hook.ts:35-39 | text where every `#` follows a backslash holds no delimiter |
| HooksExamples.NoHashIsCommand | src/test/parse-hook.ts:22-26 | text without `#` is all command, spaces included, with no watch files |
| HooksExamples.WatchParses | src/test/parse-hook.ts:28-33 | a command, the delimiter and comma-joined files parse back to that command and those files |
| HooksExamples.WatchTwoParses | src/test/parse-hook.ts:41-46 | two files after the delimiter are kept in order |
| HooksExamples.EscapedIsCommand | src/test/parse-hook.ts:35-39 | a backslash-escaped delimiter, in text with no other `#`, stays in the command and gives no watch files |
| HooksExamples.CommandWithSpaces | src/test/parse-hook.ts:22-26 | `command with spaces` is all command, without watch files |
| HooksExamples.SingleWatchFile | src/test/parse-hook.ts:28-33 | `command with spaces#watch:./src` gives that command and `["./src"]` |
| HooksExamples.EscapedCommand | src/test/parse-hook.ts:35-39 | the escaped delimiter leaves the whole string as the command and no watch files |
| HooksExamples.MultipleWatchFiles | src/test/parse-hook.ts:41-46 | two comma-separated files are returned in order |
| HooksExamples.EscapedThenWatchFiles | src/test/parse-hook.ts:48-53 | an escaped delimiter stays in the command; the last unescaped one splits off the two files |
| Json.Truthy | src/cli.ts:83 | `undefined` and `null` are falsy; arrays and objects are truthy even when empty; `false`, `0` and `""` are the falsy primitives |
| Json.Get | src/cli.ts:83-85 | a property found on a value is a member of an object |
| Json.LookupSpec | src/cli.ts:83-85 | a property read finds nothing exactly when no member has the name; otherwise it finds the last member with it, as `JSON.parse` keeps the last duplicate |
| Json.Quote | src/cli.ts:54 | `JSON.stringify` of a string is quoted at both ends and at least two characters longer |
| Json.UnquoteQuote | src/cli.ts:54 | `JSON.parse` of `JSON.stringify(s)` is `s` again |
| Json.SolidusEscape | src/cli.ts:54 | the escape `\/`, valid JSON though never written by `JSON.stringify`, is read as `/` |
| Json.SurrogatePair | src/cli.ts:54 | the surrogate-pair escape `\ud83d\ude00` is read as the one character U+1F600 it encodes |
| Json.QuoteInjective | src/cli.ts:54 | two arguments give the same message text exactly when they are the same |
| Cli.ExitCode | src/cli.ts:16-72 | help exits with status 0 and an error with status 1; only a started scan has no exit status |
| Cli.Arg | src/cli.ts:26-42 | an index has a value exactly when it lies inside `argv` |
| Cli.SetFlag | src/cli.ts:23-42 | `--exclude` appends its value and is the only flag that changes the exclusions; no value flag touches `watch` |
| Cli.SetFlagPaths | src/cli.ts:23-42 | `--src`, `--dest` and `--project` overwrite their own option, so a later occurrence wins, and leave the other two as they were |
| Cli.Loop | src/cli.ts:21-57 | the loop stops only with help or an error |
| Cli.Validate | src/cli.ts:59-72 | the scan starts exactly when source, destination and project are all non-empty; a missing source is reported first, then the destination, then the project |
| Cli.Parse | src/cli.ts:16-72 | no user arguments gives help; a started scan has non-empty source, destination and project |
| Cli.ParseArgs | src/cli.ts:10-72 | the imperative loop, with its mutable option variables, computes exactly the outcome of the command line |
| Cli.LoopStopped | src/cli.ts:48-55 | once the loop has stopped, appending arguments changes nothing |
| Cli.StopIgnoresLater | src/cli.ts:48-55 | `--help` or an unknown argument decides the outcome whatever follows it |
| Cli.Tokenize | src/cli.ts:24-43 | a flag without a value can only be the last token |
| Cli.UntokenizeTokenize | src/cli.ts:21-57 | cutting the arguments into flags with their values loses nothing: the tokens spell the arguments again |
| Cli.FirstStop | src/cli.ts:48-55 | finds the first `--help` or unknown argument, or reports that there is none |
| Cli.LoopTokens | src/cli.ts:21-57 | from any index, the loop stops at the first `--help` or unknown argument; otherwise it ends in the state the tokens declare |
| Cli.ParseDeclared | src/cli.ts:10-72 | the outcome is the declarative one: the first stopping argument decides; otherwise the last value of each path flag (defaults `''`, `''`, `tsconfig.json`), every exclusion in order, `watch` if any watch flag occurs, then the three checks |
| Cli.ConfigOf | src/cli.ts:82-86 | `jsx` is `transform` exactly when the `jsx` option is truthy, and absent otherwise |
| Cli.StartedScanOptions | src/cli.ts:10-87 | for a command line that starts a scan: no `--help` or unknown argument occurs; the source and destination the scan gets are the last values their flags set, and so is the project (default `tsconfig.json`); the exclusions are every `--exclude` value in order; `watch` is on exactly when a watch flag occurs; the transpiler settings are those read from `compilerOptions` |
| Cli.JsxByLastMember | src/cli.ts:83 | the last `jsx` member decides: a truthy value turns the transform on, and `false`, `""`, `0` or `null` leave it off |
| Cli.ConfigWithoutJsx | src/cli.ts:74-85 | without a `jsx` option, as for the `{}` default, there is no transform, and both factories come from their own members |
| Cli.FragmentFromFactory | src/cli.ts:85 | the fragment factory is read from `jsxFragmentFactory`; a member named `jsxFragment` is ignored |
| CliExamples.NoArguments | src/cli.ts:16-19 | with no user arguments the outcome is help, with exit status 0 |
| CliExamples.HelpTextExample | src/cli.ts:113-118 | the help text's example command line starts a watching scan of `../ts-liveview` into `../ts-liveview/dist` with that project and one exclusion |
| CliExamples.LastSourceWins | src/cli.ts:24-33 | the last `--src`/`-s` wins, and the project defaults to `tsconfig.json` |
| CliExamples.ExcludesShape | src/cli.ts:34-38 | each `--exclude`/`-e` appends its value, in order, between other flags |
| CliExamples.ExcludesInOrder | src/cli.ts:34-38 | `-e x … --exclude y` gives the exclusions `x`, `y` |
| CliExamples.DanglingSource | src/cli.ts:24-28 | `--src` as the last argument leaves the source `undefined`, reported as missing |
| CliExamples.FlagAsValue | src/cli.ts:24-33 | a value flag takes the next argument even when it looks like a flag |
| CliExamples.EmptyProject | src/cli.ts:69-72 | an empty project path is reported once source and destination are given |
| CliExamples.UnknownBeforeHelp | src/cli.ts:53-55 | an unknown argument fails with its JSON-quoted text, before a later `--help` is read |
| CliExamples.HelpMidwayShape | src/cli.ts:48-51 | `--help` after `-w` gives help whatever the fifth argument is |
| CliExamples.HelpMidway | src/cli.ts:48-51 | `--help` in the middle wins over a later unknown argument and over missing options |

## Left out

- The `transpile` function of `src/core.ts` (lines 69-123), a regular-expression type stripper. It is a parameter of the model: any deterministic function from text to text.
- File-system I/O, `fs.stat` and `readFile` failures other than the ones listed in `IoError`, and logging. The file system is an immutable value.
- `Promise.all` over a directory's entries is modelled as one pass in listing order. With distinct sibling targets the order does not matter for a successful scan. On failure it does: `Promise.all` rejects with whichever sibling fails first in time, while the other siblings go on writing. The model instead stops at the first failure in listing order, and its `IoError` names that target. With a collision (`a.ts` next to `a.js`) the real result depends on timing; `Mirror.CollisionBreaksIdempotence` shows only the listing-order outcome.
- Mirror.ScanMirrors, Mirror.ScanIdempotent, Mirror.ScanSucceeds, Mirror.ScanDirectoryTheorems, Mirror.ProcessMirrors, Mirror.ProcessIdempotent, Mirror.ProcessSucceeds: these assume that no two siblings target the same destination name, at any depth. The source does not ensure this; `a.ts` beside `a.js` breaks it.
- Mirror.TranspileFile, Mirror.CopyFile, Mirror.ProcessSucceeds, Mirror.ScanSucceeds, Mirror.ScanDirectoryTheorems: every special destination entry (`NOther`) is modelled as a write failure, `WriteOverSpecial`. In the source only some of them fail. A FIFO at the target makes `fs.readFile` (`src/core.ts:58`) and `fs.copyFile` (`src/core.ts:45`) block, so the scan never finishes. A character device such as `/dev/null` at a transpile target reads as empty text, and `fs.writeFile` (`src/core.ts:66`) then succeeds. A socket does fail. The model does not distinguish these kinds of entry.
- Mirror.ScanIdempotent, Mirror.ProcessIdempotent: `writes` counts transpile writes only. The source's `fs.copyFile` runs again for every copied file on every scan. The model shows that it rewrites the same content, but does not count it as a write.
- The model assumes the destination root already exists: its contents are the `dest` map. In the source, the recursive `mkdir` of a subdirectory also creates a missing root. Without a subdirectory, the first `copyFile` or `writeFile` into a missing root fails.
- The source tree and the destination are separate values, so a scan never sees its own output. The source does not ensure this: the help text's own example puts `--dest ../ts-liveview/dist` inside `--src ../ts-liveview`.
- Reading the tsconfig file and `JSON.parse` of it (`src/cli.ts:74-75`): the parsed `compilerOptions` value is an input to `Cli.ConfigOf`. The `|| {}` fallback is covered by passing `Object([])`.
- The help text itself (`src/cli.ts:104-149`), timing, and the call to `scanPath` (`src/cli.ts:89-102`).
- `scanPath`, exclusion, file watching, serving and running hooks: the source references them but does not show them. The `parseHook` implementation is not shown either. `Hooks.ParseHook` is defined from the behaviour `src/test/parse-hook.ts` requires plus the "last unescaped `#watch:`" rule.
- Hooks.ParseHook: with no unescaped delimiter, `watchFiles` is `None` (`undefined`), not an empty list. The test's comparison at `src/test/parse-hook.ts:12-13` accepts only an absent list, whereas a prose description of the syntax could be read as giving `[]`.
- Text.UpperChar: `toUpperCase` is modelled for ASCII letters only. Characters whose upper case is longer or different outside ASCII are left unchanged.
- Enums.EOL: `os.EOL` is fixed to `"\n"`, as on a POSIX host.
- Json.Value: numbers are reals; a number is falsy exactly when it is zero, since JSON text has no NaN.
- Json.Unescape: a `\u` escape of a lone surrogate half, one not in a high-then-low pair, is rejected, because a Dafny `char` is a Unicode scalar value. `JSON.parse` accepts it. `JSON.stringify` writes such an escape only for a string holding a lone surrogate, which a Dafny string cannot hold.
- `examples/src/status.macro.ts` imports `genEnums` from a module that does not export it. It cannot run as written and is not part of this model.
- The driver scripts under `src/test/` and `test/`, other than `parse-hook.ts`, only perform I/O on hard-coded paths.
