/**
 * The enum generator of the examples: a template of lines such as
 * `404 page not found` becomes one `export let PageNotFound = 404`
 * declaration per line and a closing object that lists every key.
 */
module Enums {
  import opened Wrappers
  import opened Text

  /** The line separator of the template (`os.EOL` on a POSIX host). */
  const EOL: char := '\n'

  /** One generated constant: `export let key = value`. */
  datatype Member = Member(key: string, value: string)

  /** `word[0].toUpperCase()` throws when a word between two spaces, or after a trailing space, is empty. */
  datatype GenError = EmptyWord(line: string)

  /** `words.map(w => w[0].toUpperCase() + w.slice(1)).join('')`; `None` when a word is empty. */
  function CamelCase(words: seq<string>): (r: Option<string>)
    ensures r.Some? <==> forall i :: 0 <= i < |words| ==> words[i] != []
  {
    if words == [] then Some("")
    else
      match Capitalize(words[0])
      case None => None
      case Some(w) =>
        match CamelCase(words[1..])
        case None => None
        case Some(rest) => Some(w + rest)
  }

  /** The value is the first space-separated part of a line, the key the camel-cased remaining parts. */
  function ParseLine(line: string): (r: Result<Member, GenError>)
    ensures r.Err? ==> r.error == EmptyWord(line)
  {
    var parts := Split(line, ' ');
    match CamelCase(parts[1..])
    case None => Err(EmptyWord(line))
    case Some(key) => Ok(Member(key, parts[0]))
  }

  /** The text of `line` before its first space (all of it when there is none). */
  function FirstWord(line: string): (w: string)
    ensures StartsWith(line, w) && ' ' !in w
    ensures |w| == |line| || line[|w|] == ' '
  {
    if line == [] || line[0] == ' ' then "" else [line[0]] + FirstWord(line[1..])
  }

  /**
   * Reference definition of the key, reading the text after the first word
   * one character at a time: spaces are dropped and the character after a
   * space is upper-cased; a space right after a space, or a space at the
   * end, is an empty word and fails.
   */
  function CamelRef(s: string, afterSpace: bool): Option<string> {
    if s == [] then (if afterSpace then None else Some(""))
    else if s[0] == ' ' then (if afterSpace then None else CamelRef(s[1..], true))
    else
      match CamelRef(s[1..], false)
      case None => None
      case Some(rest) => Some([if afterSpace then UpperChar(s[0]) else s[0]] + rest)
  }

  /** `line` has a space followed by another space or by the end of the line. */
  predicate DanglingSpace(line: string) {
    exists i :: 0 <= i < |line| && line[i] == ' ' && (i + 1 == |line| || line[i + 1] == ' ')
  }

  lemma {:induction false} SplitHead(line: string)
    ensures Split(line, ' ')[0] == FirstWord(line)
    ensures |Split(line, ' ')| == 1 <==> ' ' !in line
    ensures |Split(line, ' ')| > 1 ==>
      line == FirstWord(line) + [' '] + Join(Split(line, ' ')[1..], ' ')
    decreases |line|
  {
    var parts := Split(line, ' ');
    if line != [] && line[0] != ' ' {
      SplitHead(line[1..]);
      SplitSpec(line[1..], ' ');
      var rest := Split(line[1..], ' ');
      assert parts[1..] == rest[1..];
      if |rest| > 1 {
        assert line == [line[0]] + line[1..];
      }
    } else if line != [] {
      SplitSpec(line[1..], ' ');
      assert line == [' '] + line[1..];
      assert parts[1..] == Split(line[1..], ' ');
    }
  }

  /** Camel-casing the words read one by one agrees with the word-by-word definition. */
  lemma {:induction false} CamelRefWord(w: string, s: string, afterSpace: bool)
    requires ' ' !in w
    ensures CamelRef(w + s, afterSpace) ==
      if w == [] then CamelRef(s, afterSpace)
      else match CamelRef(s, false)
        case None => None
        case Some(rest) => Some([if afterSpace then UpperChar(w[0]) else w[0]] + w[1..] + rest)
    decreases |w|
  {
    if w != [] {
      assert (w + s)[1..] == w[1..] + s;
      CamelRefWord(w[1..], s, false);
      var c := if afterSpace then UpperChar(w[0]) else w[0];
      if CamelRef(s, false).Some? {
        var rest := CamelRef(s, false).value;
        if w[1..] != [] {
          assert [w[1..][0]] + w[1..][1..] == w[1..];
          assert [c] + ([w[1..][0]] + w[1..][1..] + rest) == [c] + w[1..] + rest;
        } else {
          assert [c] + rest == [c] + w[1..] + rest;
        }
      }
    } else {
      assert w + s == s;
    }
  }

  lemma {:induction false} CamelRefJoin(words: seq<string>)
    requires |words| >= 1
    requires forall i :: 0 <= i < |words| ==> ' ' !in words[i]
    ensures CamelRef([' '] + Join(words, ' '), false) == CamelCase(words)
    decreases |words|
  {
    var s := [' '] + Join(words, ' ');
    assert s[1..] == Join(words, ' ');
    if |words| == 1 {
      assert Join(words, ' ') + [] == words[0];
      CamelRefWord(words[0], [], true);
      assert CamelCase(words[1..]) == Some("");
    } else {
      var tail := [' '] + Join(words[1..], ' ');
      assert Join(words, ' ') == words[0] + tail;
      CamelRefWord(words[0], tail, true);
      CamelRefJoin(words[1..]);
      if words[0] == [] {
        assert tail[0] == ' ';
      } else if CamelCase(words[1..]).Some? {
        var c := CamelCase(words[1..]).value;
        assert [UpperChar(words[0][0])] + words[0][1..] + c == ([UpperChar(words[0][0])] + words[0][1..]) + c;
      }
    }
  }

  /** The reference fails exactly on a dangling space. */
  lemma {:induction false} CamelRefFails(s: string, afterSpace: bool)
    ensures CamelRef(s, afterSpace).None? <==>
      DanglingSpace(s) || (afterSpace && (s == [] || s[0] == ' '))
    decreases |s|
  {
    if s != [] {
      CamelRefFails(s[1..], s[0] == ' ');
      if DanglingSpace(s[1..]) {
        var i :| 0 <= i < |s[1..]| && s[1..][i] == ' ' && (i + 1 == |s[1..]| || s[1..][i + 1] == ' ');
        assert s[i + 1] == ' ' && (i + 2 == |s| || s[i + 2] == ' ');
      }
      if DanglingSpace(s) {
        var i :| 0 <= i < |s| && s[i] == ' ' && (i + 1 == |s| || s[i + 1] == ' ');
        if i > 0 {
          assert s[1..][i - 1] == ' ' && (i == |s[1..]| || s[1..][i] == ' ');
        }
      }
    } else {
      assert !DanglingSpace(s);
    }
  }

  /**
   * A line parses into its first word as the value and the reference
   * camel-casing of the rest as the key.
   */
  lemma ParseLineSpec(line: string)
    ensures var v := FirstWord(line);
      ParseLine(line) ==
        match CamelRef(line[|v|..], false)
        case None => Err(EmptyWord(line))
        case Some(k) => Ok(Member(k, v))
  {
    var v := FirstWord(line);
    var parts := Split(line, ' ');
    SplitHead(line);
    if |parts| > 1 {
      var j := Join(parts[1..], ' ');
      assert line == v + ([' '] + j);
      assert line[|v|..] == [' '] + j;
      SplitSpec(line, ' ');
      CamelRefJoin(parts[1..]);
    } else {
      assert line[|v|..] == [];
    }
  }

  /** A space can only dangle after the first word. */
  lemma DanglingRest(line: string)
    ensures DanglingSpace(line) <==> DanglingSpace(line[|FirstWord(line)|..])
  {
    DanglingShift(line, |FirstWord(line)|);
  }

  /** Dropping a space-free prefix keeps every dangling space. */
  lemma DanglingShift(line: string, n: nat)
    requires n <= |line| && forall k :: 0 <= k < n ==> line[k] != ' '
    ensures DanglingSpace(line) <==> DanglingSpace(line[n..])
  {
    var rest := line[n..];
    if DanglingSpace(line) {
      var i :| 0 <= i < |line| && line[i] == ' ' && (i + 1 == |line| || line[i + 1] == ' ');
      assert rest[i - n] == ' ' && (i - n + 1 == |rest| || rest[i - n + 1] == ' ');
    }
    if DanglingSpace(rest) {
      var i :| 0 <= i < |rest| && rest[i] == ' ' && (i + 1 == |rest| || rest[i + 1] == ' ');
      assert line[i + n] == ' ' && (i + n + 1 == |line| || line[i + n + 1] == ' ');
    }
  }

  /** A line fails exactly when it has an empty word: a space followed by a space or by the end. */
  lemma ParseLineFails(line: string)
    ensures ParseLine(line).Err? <==> DanglingSpace(line)
  {
    ParseLineSpec(line);
    CamelRefFails(line[|FirstWord(line)|..], false);
    DanglingRest(line);
  }

  /** `template.split(EOL).forEach(...)`: empty lines are skipped and the first failing line stops the run. */
  function Members(lines: seq<string>): (r: Result<seq<Member>, GenError>)
    ensures r.Ok? ==> |r.value| <= |lines|
  {
    if lines == [] then Ok([])
    else if lines[0] == [] then Members(lines[1..])
    else
      var m :- ParseLine(lines[0]);
      var rest :- Members(lines[1..]);
      Ok([m] + rest)
  }

  /** Blank lines contribute nothing. */
  lemma {:induction false} MembersSkipBlank(a: seq<string>, b: seq<string>)
    ensures Members(a + [""] + b) == Members(a + b)
    decreases |a|
  {
    if a == [] {
      assert (a + [""] + b)[1..] == b;
      assert a + b == b;
    } else {
      assert (a + [""] + b)[1..] == a[1..] + [""] + b;
      assert (a + b)[1..] == a[1..] + b;
      MembersSkipBlank(a[1..], b);
    }
  }

  /** The generator fails exactly when some non-empty line fails to parse; otherwise each non-empty line gives one member, in order. */
  lemma {:induction false} MembersSpec(lines: seq<string>)
    ensures Members(lines).Err? <==>
      exists i :: 0 <= i < |lines| && lines[i] != [] && ParseLine(lines[i]).Err?
    ensures Members(lines).Ok? ==> Members(lines).value == NonBlankMembers(lines)
    decreases |lines|
  {
    if lines != [] {
      MembersSpec(lines[1..]);
      if exists i :: 0 <= i < |lines[1..]| && lines[1..][i] != [] && ParseLine(lines[1..][i]).Err? {
        var i :| 0 <= i < |lines[1..]| && lines[1..][i] != [] && ParseLine(lines[1..][i]).Err?;
        assert lines[i + 1] == lines[1..][i];
      }
      if exists i :: 0 <= i < |lines| && lines[i] != [] && ParseLine(lines[i]).Err? {
        var i :| 0 <= i < |lines| && lines[i] != [] && ParseLine(lines[i]).Err?;
        if i > 0 {
          assert lines[1..][i - 1] == lines[i];
        }
      }
    }
  }

  /** Reference: the members of the non-empty lines, in order, assuming none fails. */
  function NonBlankMembers(lines: seq<string>): seq<Member> {
    if lines == [] then []
    else if lines[0] == [] || ParseLine(lines[0]).Err? then NonBlankMembers(lines[1..])
    else [ParseLine(lines[0]).value] + NonBlankMembers(lines[1..])
  }

  /** `export let key = value`. */
  function Decl(m: Member): string {
    "export let " + m.key + " = " + m.value
  }

  /** The declarations, each surrounded by newlines. */
  function Decls(ms: seq<Member>): string {
    if ms == [] then "" else "\n" + Decl(ms[0]) + "\n" + Decls(ms[1..])
  }

  /** `  key,`. */
  function Item(m: Member): string {
    "  " + m.key + ","
  }

  /** The object's entries, each after a newline. */
  function Items(ms: seq<Member>): string {
    if ms == [] then "" else "\n" + Item(ms[0]) + Items(ms[1..])
  }

  /**
   * The `code` string built before trimming: it starts with a newline and
   * `export`, and ends with the object's closing brace.
   */
  function Render(name: string, ms: seq<Member>): (code: string)
    ensures |code| >= 2 && code[0] == '\n' && code[1] == 'e' && code[|code| - 1] == '}'
  {
    var lead := Decls(ms) + "\n" + Header(name);
    assert lead[0] == '\n' && lead[1] == 'e' by {
      if ms != [] { assert lead[..2] == Decls(ms)[..2]; }
    }
    lead + Items(ms) + "\n}"
  }

  /**
   * `genEnums(name, template)`: it fails exactly when reading the template's
   * lines fails, and otherwise gives the layout's lines joined by newlines.
   */
  function GenEnums(name: string, template: string): (r: Result<string, GenError>)
    ensures r.Err? <==> Members(Split(template, EOL)).Err?
    ensures r.Ok? ==> r.value == Join(Layout(name, Members(Split(template, EOL)).value), EOL)
  {
    var ms :- Members(Split(template, EOL));
    RenderLayout(name, ms);
    Ok(Trim(Render(name, ms)) + [EOL])
  }

  /** `code.trim()` only removes the leading newline: the code always starts `\nexport` and ends `}`. */
  lemma RenderTrim(name: string, ms: seq<Member>)
    ensures var code := Render(name, ms); |code| >= 1 && Trim(code) == code[1..]
  {
    var code := Render(name, ms);
    var lead := if ms == [] then "\n" + Header(name) else Decls(ms);
    assert lead[0] == '\n' && lead[1] == 'e';
    assert code[..2] == lead[..2];
    assert code[|code| - 1] == '}';
    assert [code[0]] + code[1..] + [] == code;
    TrimPadded([code[0]], code[1..], []);
  }

  /** The lines of the generated file, one per `EOL`. */
  function DeclLines(ms: seq<Member>): seq<string> {
    if ms == [] then [] else [Decl(ms[0]), ""] + DeclLines(ms[1..])
  }

  function ItemLines(ms: seq<Member>): seq<string> {
    if ms == [] then [] else [Item(ms[0])] + ItemLines(ms[1..])
  }

  function Header(name: string): string {
    "export let " + name + " = {"
  }

  function Layout(name: string, ms: seq<Member>): seq<string> {
    DeclLines(ms) + [Header(name)] + ItemLines(ms) + ["}", ""]
  }

  lemma JoinCons(x: string, t: seq<string>, sep: char)
    requires |t| >= 1
    ensures Join([x] + t, sep) == x + [sep] + Join(t, sep)
  {
    assert ([x] + t)[1..] == t;
  }

  lemma {:induction false} DeclsJoin(ms: seq<Member>, rest: seq<string>)
    requires |rest| >= 1
    ensures [EOL] + Join(DeclLines(ms) + rest, EOL) == Decls(ms) + [EOL] + Join(rest, EOL)
    decreases |ms|
  {
    if ms == [] {
      assert DeclLines(ms) + rest == rest;
    } else {
      var d := Decl(ms[0]);
      var tail := DeclLines(ms[1..]) + rest;
      var j := Join(tail, EOL);
      var r := Join(rest, EOL);
      assert DeclLines(ms) + rest == [d, ""] + tail;
      JoinPair(d, tail);
      DeclsJoin(ms[1..], rest);
      DeclsRegroup(d, j, Decls(ms[1..]), r);
    }
  }

  /** Joining a line and a blank line in front of more lines. */
  lemma JoinPair(d: string, tail: seq<string>)
    requires |tail| >= 1
    ensures Join([d, ""] + tail, EOL) == d + [EOL] + ([EOL] + Join(tail, EOL))
  {
    assert [d, ""] + tail == [d] + ([""] + tail);
    JoinCons(d, [""] + tail, EOL);
    JoinCons("", tail, EOL);
  }

  /** Moves the newlines around one declaration into the surrounding text. */
  lemma DeclsRegroup(d: string, j: string, rest: string, r: string)
    requires [EOL] + j == rest + [EOL] + r
    ensures [EOL] + (d + [EOL] + ([EOL] + j)) == [EOL] + d + [EOL] + rest + [EOL] + r
  {
  }

  lemma {:induction false} ItemsJoin(x: string, ms: seq<Member>, rest: seq<string>)
    requires |rest| >= 1
    ensures Join([x] + ItemLines(ms) + rest, EOL) == x + Items(ms) + [EOL] + Join(rest, EOL)
    decreases |ms|
  {
    if ms == [] {
      assert [x] + ItemLines(ms) + rest == [x] + rest;
      JoinCons(x, rest, EOL);
    } else {
      var i := Item(ms[0]);
      var t := [i] + ItemLines(ms[1..]) + rest;
      assert [x] + ItemLines(ms) + rest == [x] + t;
      JoinCons(x, t, EOL);
      ItemsJoin(i, ms[1..], rest);
      assert Items(ms) == [EOL] + i + Items(ms[1..]);
    }
  }

  /** The generated text is the layout's lines joined by `EOL`. */
  lemma RenderLayout(name: string, ms: seq<Member>)
    ensures Trim(Render(name, ms)) + [EOL] == Join(Layout(name, ms), EOL)
  {
    var h := Header(name);
    var tail := ["}", ""];
    var t := [h] + ItemLines(ms) + tail;
    var l := Layout(name, ms);
    var code := Render(name, ms);
    RenderTrim(name, ms);
    assert code[0] == EOL;
    assert Join(t, EOL) == h + Items(ms) + [EOL] + "}\n" by {
      ItemsJoin(h, ms, tail);
      assert Join(tail, EOL) == "}\n";
    }
    assert [EOL] + Join(l, EOL) == Decls(ms) + [EOL] + Join(t, EOL) by {
      assert l == DeclLines(ms) + t;
      DeclsJoin(ms, t);
    }
    Assemble(code, Decls(ms), h, Items(ms), Join(t, EOL), Join(l, EOL));
  }

  /** The string bookkeeping of `RenderLayout`, over opaque pieces. */
  lemma Assemble(code: string, d: string, h: string, i: string, j: string, l: string)
    requires code == d + "\n" + h + i + "\n}"
    requires j == h + i + [EOL] + "}\n"
    requires [EOL] + l == d + [EOL] + j
    requires code[0] == EOL
    ensures code[1..] + [EOL] == l
  {
    assert [EOL] + l == code + [EOL];
    assert ([EOL] + l)[1..] == l;
  }
}

module EnumsLayout {
  import opened Wrappers
  import opened Text
  import opened Enums

  /** Reading a line never invents a line break. */
  lemma {:induction false} CamelRefNoEol(s: string, afterSpace: bool)
    requires EOL !in s
    ensures CamelRef(s, afterSpace).Some? ==> EOL !in CamelRef(s, afterSpace).value
    decreases |s|
  {
    if s != [] {
      CamelRefNoEol(s[1..], s[0] == ' ');
      CamelRefNoEol(s[1..], false);
    }
  }

  /** The keys and values of the members come from the lines, so contain no line break. */
  predicate SingleLine(m: Member) {
    EOL !in m.key && EOL !in m.value
  }

  lemma ParseLineNoEol(line: string)
    requires EOL !in line
    ensures ParseLine(line).Ok? ==> SingleLine(ParseLine(line).value)
  {
    var v := FirstWord(line);
    ParseLineSpec(line);
    CamelRefNoEol(line[|v|..], false);
    assert line == v + line[|v|..];
  }

  lemma {:induction false} MembersNoEol(lines: seq<string>)
    requires forall i :: 0 <= i < |lines| ==> EOL !in lines[i]
    ensures Members(lines).Ok? ==> forall j :: 0 <= j < |Members(lines).value| ==> SingleLine(Members(lines).value[j])
    decreases |lines|
  {
    if lines != [] {
      MembersNoEol(lines[1..]);
      ParseLineNoEol(lines[0]);
    }
  }

  lemma {:induction false} LayoutNoEol(name: string, ms: seq<Member>)
    requires EOL !in name
    requires forall j :: 0 <= j < |ms| ==> SingleLine(ms[j])
    ensures forall i :: 0 <= i < |Layout(name, ms)| ==> EOL !in Layout(name, ms)[i]
  {
    DeclLinesNoEol(ms);
    ItemLinesNoEol(ms);
    var l := Layout(name, ms);
    var a := DeclLines(ms);
    var b := ItemLines(ms);
    assert EOL !in Header(name);
    forall i | 0 <= i < |l| ensures EOL !in l[i] {
      if i < |a| {
        assert l[i] == a[i];
      } else if i == |a| {
        assert l[i] == Header(name);
      } else if i <= |a| + |b| {
        assert l[i] == b[i - |a| - 1];
      }
    }
  }

  lemma {:induction false} DeclLinesNoEol(ms: seq<Member>)
    requires forall j :: 0 <= j < |ms| ==> SingleLine(ms[j])
    ensures forall i :: 0 <= i < |DeclLines(ms)| ==> EOL !in DeclLines(ms)[i]
    decreases |ms|
  {
    if ms != [] {
      DeclLinesNoEol(ms[1..]);
      assert EOL !in Decl(ms[0]);
      var l := DeclLines(ms);
      forall i | 0 <= i < |l| ensures EOL !in l[i] {
        if i >= 2 {
          assert l[i] == DeclLines(ms[1..])[i - 2];
        }
      }
    }
  }

  lemma {:induction false} ItemLinesNoEol(ms: seq<Member>)
    requires forall j :: 0 <= j < |ms| ==> SingleLine(ms[j])
    ensures forall i :: 0 <= i < |ItemLines(ms)| ==> EOL !in ItemLines(ms)[i]
    decreases |ms|
  {
    if ms != [] {
      ItemLinesNoEol(ms[1..]);
      assert EOL !in Item(ms[0]);
      var l := ItemLines(ms);
      forall i | 0 <= i < |l| ensures EOL !in l[i] {
        if i >= 1 {
          assert l[i] == ItemLines(ms[1..])[i - 1];
        }
      }
    }
  }

  /**
   * The generated file, read line by line: for each member its declaration
   * and a blank line, then the object header, one `  key,` line per member,
   * the closing brace, and the empty text after the final newline.
   */
  lemma GenEnumsLines(name: string, template: string)
    requires EOL !in name
    ensures var r := GenEnums(name, template); var m := Members(Split(template, EOL));
      (r.Ok? <==> m.Ok?) && (r.Ok? ==> Split(r.value, EOL) == Layout(name, m.value))
  {
    var m := Members(Split(template, EOL));
    if m.Ok? {
      SplitSpec(template, EOL);
      MembersNoEol(Split(template, EOL));
      LayoutNoEol(name, m.value);
      RenderLayout(name, m.value);
      SplitJoin(Layout(name, m.value), EOL);
    }
  }

  /** The generated file always ends with the closing brace and one newline. */
  lemma GenEnumsEnding(name: string, template: string)
    ensures GenEnums(name, template).Ok? ==> EndsWith(GenEnums(name, template).value, "}\n")
  {
    var m := Members(Split(template, EOL));
    if m.Ok? {
      var code := Render(name, m.value);
      RenderTrim(name, m.value);
      assert code[|code| - 2..] == "\n}";
      var out := code[1..] + [EOL];
      assert out[|out| - 2..] == "}\n";
    }
  }
}
