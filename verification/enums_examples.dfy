/** The template of `status.macro.ts` and the generated `status.ts`, as concrete checks of the generator. */
module EnumsExamples {
  import opened Wrappers
  import opened Text
  import opened Enums
  import opened EnumsMacro

  /** Splitting a string that is literally a join of separator-free pieces. */
  lemma SplitLiteral(s: string, sep: char, parts: seq<string>)
    requires |parts| >= 1
    requires forall i :: 0 <= i < |parts| ==> sep !in parts[i]
    requires s == Join(parts, sep)
    ensures Split(s, sep) == parts
  {
    SplitJoin(parts, sep);
  }

  /** A line made of a value and non-empty words parses into the value and the camel-cased words. */
  lemma ParseWords(value: string, words: seq<string>)
    requires ' ' !in value && |words| >= 1
    requires forall i :: 0 <= i < |words| ==> ' ' !in words[i] && words[i] != []
    ensures ParseLine(value + [' '] + Join(words, ' ')) == Ok(Member(CamelCase(words).value, value))
  {
    var parts := [value] + words;
    assert parts[1..] == words;
    JoinCons(value, words, ' ');
    SplitLiteral(value + [' '] + Join(words, ' '), ' ', parts);
  }

  function Cap(w: string): string
    requires w != []
  {
    [UpperChar(w[0])] + w[1..]
  }

  predicate Word(w: string) {
    w != [] && ' ' !in w
  }

  lemma Parse1(line: string, v: string, a: string)
    requires ' ' !in v && Word(a)
    requires line == v + " " + a
    ensures ParseLine(line) == Ok(Member(Cap(a), v))
  {
    assert Join([a], ' ') == a;
    assert CamelCase([a]) == Some(Cap(a) + "");
    assert Cap(a) + "" == Cap(a);
    ParseWords(v, [a]);
  }

  lemma Parse2(line: string, v: string, a: string, b: string)
    requires ' ' !in v && Word(a) && Word(b)
    requires line == v + " " + a + " " + b
    ensures ParseLine(line) == Ok(Member(Cap(a) + Cap(b), v))
  {
    var w := [a, b];
    assert w[1..] == [b];
    assert Join(w, ' ') == a + " " + b;
    assert v + [' '] + Join(w, ' ') == line;
    assert CamelCase(w[1..]) == Some(Cap(b) + "");
    assert Cap(b) + "" == Cap(b);
    ParseWords(v, w);
  }

  lemma Parse3(line: string, v: string, a: string, b: string, c: string)
    requires ' ' !in v && Word(a) && Word(b) && Word(c)
    requires line == v + " " + a + " " + b + " " + c
    ensures ParseLine(line) == Ok(Member(Cap(a) + Cap(b) + Cap(c), v))
  {
    var w := [a, b, c];
    assert w[1..] == [b, c];
    assert w[1..][1..] == [c];
    assert Join(w[1..], ' ') == b + " " + c by {
      assert w[1..][1..] == [c];
    }
    assert Join(w, ' ') == a + " " + b + " " + c;
    assert v + [' '] + Join(w, ' ') == line;
    assert CamelCase(w[1..][1..]) == Some(Cap(c) + "");
    assert Cap(c) + "" == Cap(c);
    assert CamelCase(w[1..]) == Some(Cap(b) + Cap(c));
    assert Cap(a) + (Cap(b) + Cap(c)) == Cap(a) + Cap(b) + Cap(c);
    ParseWords(v, w);
  }

  lemma ParseOk()
    ensures ParseLine("200 ok") == Ok(Member("Ok", "200"))
  {
    assert Cap("ok") == "Ok";
    assert "200 ok" == "200" + " " + "ok";
    assert ' ' !in "200";
    assert Word("ok");
    Parse1("200 ok", "200", "ok");
  }

  lemma ParseContinue()
    ensures ParseLine("302 continue") == Ok(Member("Continue", "302"))
  {
    assert Cap("continue") == "Continue";
    assert "302 continue" == "302" + " " + "continue";
    assert ' ' !in "302";
    assert Word("continue");
    Parse1("302 continue", "302", "continue");
  }

  lemma ParseBadRequest()
    ensures ParseLine("400 bad request") == Ok(Member("BadRequest", "400"))
  {
    assert Cap("bad") == "Bad";
    assert Cap("request") == "Request";
    assert "Bad" + "Request" == "BadRequest";
    assert "400 bad request" == "400" + " " + "bad" + " " + "request";
    assert ' ' !in "400";
    assert Word("bad");
    assert Word("request");
    Parse2("400 bad request", "400", "bad", "request");
  }

  lemma ParsePageNotFound()
    ensures ParseLine("404 page not found") == Ok(Member("PageNotFound", "404"))
  {
    assert Cap("page") == "Page";
    assert Cap("not") == "Not";
    assert Cap("found") == "Found";
    assert "Page" + "Not" + "Found" == "PageNotFound";
    assert "404 page not found" == "404" + " " + "page" + " " + "not" + " " + "found";
    assert ' ' !in "404";
    assert Word("page");
    assert Word("not");
    assert Word("found");
    Parse3("404 page not found", "404", "page", "not", "found");
  }

  lemma ParseServerFailure()
    ensures ParseLine("500 server failure") == Ok(Member("ServerFailure", "500"))
  {
    assert Cap("server") == "Server";
    assert Cap("failure") == "Failure";
    assert "Server" + "Failure" == "ServerFailure";
    assert "500 server failure" == "500" + " " + "server" + " " + "failure";
    assert ' ' !in "500";
    assert Word("server");
    assert Word("failure");
    Parse2("500 server failure", "500", "server", "failure");
  }

  /** The lines of the template in `examples/src/enums/status.macro.ts` (the literal starts and ends with a newline). */
  const StatusTemplateLines: seq<string> :=
    ["", "200 ok", "302 continue", "400 bad request", "404 page not found", "500 server failure", ""]

  /** The lines of the checked-in `examples/src/enums/status.ts`, which ends with a newline. */
  const StatusTsLines: seq<string> := [
    "export let Ok = 200", "",
    "export let Continue = 302", "",
    "export let BadRequest = 400", "",
    "export let PageNotFound = 404", "",
    "export let ServerFailure = 500", "",
    "export let statusCodes = {",
    "  Ok,", "  Continue,", "  BadRequest,", "  PageNotFound,", "  ServerFailure,",
    "}", ""]

  const StatusMembers: seq<Member> := [
    Member("Ok", "200"), Member("Continue", "302"), Member("BadRequest", "400"),
    Member("PageNotFound", "404"), Member("ServerFailure", "500")]

  /** Lines that all parse give one member each, in order. */
  lemma {:induction false} MembersAllParse(lines: seq<string>, ms: seq<Member>)
    requires |lines| == |ms|
    requires forall i :: 0 <= i < |lines| ==> lines[i] != [] && ParseLine(lines[i]) == Ok(ms[i])
    ensures Members(lines) == Ok(ms)
    decreases |lines|
  {
    if lines != [] {
      MembersAllParse(lines[1..], ms[1..]);
      assert [ms[0]] + ms[1..] == ms;
    }
  }

  /** A template of five parsing lines between an opening and a closing newline. */
  lemma FiveLines(l1: string, l2: string, l3: string, l4: string, l5: string,
                  m1: Member, m2: Member, m3: Member, m4: Member, m5: Member)
    requires l1 != [] && l2 != [] && l3 != [] && l4 != [] && l5 != []
    requires ParseLine(l1) == Ok(m1) && ParseLine(l2) == Ok(m2) && ParseLine(l3) == Ok(m3)
    requires ParseLine(l4) == Ok(m4) && ParseLine(l5) == Ok(m5)
    ensures Members(["", l1, l2, l3, l4, l5, ""]) == Ok([m1, m2, m3, m4, m5])
  {
    var body := [l1, l2, l3, l4, l5];
    MembersAllParse(body, [m1, m2, m3, m4, m5]);
    FrameFive(l1, l2, l3, l4, l5);
    BlankEnds(body);
  }

  lemma FrameFive(l1: string, l2: string, l3: string, l4: string, l5: string)
    ensures ["", l1, l2, l3, l4, l5, ""] == [""] + [l1, l2, l3, l4, l5] + [""]
  {
  }

  /** A blank first and last line add nothing. */
  lemma BlankEnds(body: seq<string>)
    ensures Members([""] + body + [""]) == Members(body)
  {
    assert ([""] + body + [""])[1..] == body + [""];
    MembersSkipBlank(body, []);
    assert body + [""] + [] == body + [""];
    assert body + [] == body;
  }

  lemma StatusMembersParsed()
    ensures Members(StatusTemplateLines) == Ok(StatusMembers)
  {
    ParseOk();
    ParseContinue();
    ParseBadRequest();
    ParsePageNotFound();
    ParseServerFailure();
    FiveLines("200 ok", "302 continue", "400 bad request", "404 page not found", "500 server failure",
      Member("Ok", "200"), Member("Continue", "302"), Member("BadRequest", "400"),
      Member("PageNotFound", "404"), Member("ServerFailure", "500"));
  }

  lemma FiveSingleLines(l1: string, l2: string, l3: string, l4: string, l5: string)
    requires EOL !in l1 && EOL !in l2 && EOL !in l3 && EOL !in l4 && EOL !in l5
    ensures var l := ["", l1, l2, l3, l4, l5, ""]; forall i :: 0 <= i < |l| ==> EOL !in l[i]
  {
  }

  /** The generator applied to a template given by its lines. */
  lemma GenEnumsOfLines(name: string, lines: seq<string>, ms: seq<Member>)
    requires |lines| >= 1
    requires forall i :: 0 <= i < |lines| ==> EOL !in lines[i]
    requires Members(lines) == Ok(ms)
    ensures GenEnums(name, Join(lines, EOL)) == Ok(Join(Layout(name, ms), EOL))
  {
    SplitJoin(lines, EOL);
    RenderLayout(name, ms);
  }

  lemma LinesCons(m: Member, rest: seq<Member>)
    ensures DeclLines([m] + rest) == [Decl(m), ""] + DeclLines(rest)
    ensures ItemLines([m] + rest) == [Item(m)] + ItemLines(rest)
  {
    assert ([m] + rest)[1..] == rest;
  }

  /** The layout of five members. */
  lemma FiveLayout(name: string, m1: Member, m2: Member, m3: Member, m4: Member, m5: Member)
    ensures Layout(name, [m1, m2, m3, m4, m5]) == [
      Decl(m1), "", Decl(m2), "", Decl(m3), "", Decl(m4), "", Decl(m5), "",
      Header(name), Item(m1), Item(m2), Item(m3), Item(m4), Item(m5), "}", ""]
  {
    FiveLines5(m1, m2, m3, m4, m5);
  }

  lemma FiveLines5(m1: Member, m2: Member, m3: Member, m4: Member, m5: Member)
    ensures DeclLines([m1, m2, m3, m4, m5]) == [Decl(m1), "", Decl(m2), "", Decl(m3), "", Decl(m4), "", Decl(m5), ""]
    ensures ItemLines([m1, m2, m3, m4, m5]) == [Item(m1), Item(m2), Item(m3), Item(m4), Item(m5)]
  {
    LinesCons(m5, []);
    LinesCons(m4, [m5]);
    LinesCons(m3, [m4, m5]);
    LinesCons(m2, [m3, m4, m5]);
    LinesCons(m1, [m2, m3, m4, m5]);
    assert [m5] + [] == [m5];
    assert [m4] + [m5] == [m4, m5];
    assert [m3] + [m4, m5] == [m3, m4, m5];
    assert [m2] + [m3, m4, m5] == [m2, m3, m4, m5];
    assert [m1] + [m2, m3, m4, m5] == [m1, m2, m3, m4, m5];
  }

  lemma DeclOk()
    ensures Decl(Member("Ok", "200")) == "export let Ok = 200"
    ensures Item(Member("Ok", "200")) == "  Ok,"
  {
    ItemOk();
  }

  lemma ItemOk()
    ensures Item(Member("Ok", "200")) == "  Ok,"
  {
  }

  lemma DeclContinue()
    ensures Decl(Member("Continue", "302")) == "export let Continue = 302"
    ensures Item(Member("Continue", "302")) == "  Continue,"
  {
    ItemContinue();
  }

  lemma ItemContinue()
    ensures Item(Member("Continue", "302")) == "  Continue,"
  {
  }

  lemma DeclBadRequest()
    ensures Decl(Member("BadRequest", "400")) == "export let BadRequest = 400"
    ensures Item(Member("BadRequest", "400")) == "  BadRequest,"
  {
    ItemBadRequest();
  }

  lemma ItemBadRequest()
    ensures Item(Member("BadRequest", "400")) == "  BadRequest,"
  {
  }

  lemma DeclPageNotFound()
    ensures Decl(Member("PageNotFound", "404")) == "export let PageNotFound = 404"
    ensures Item(Member("PageNotFound", "404")) == "  PageNotFound,"
  {
    ItemPageNotFound();
  }

  lemma ItemPageNotFound()
    ensures Item(Member("PageNotFound", "404")) == "  PageNotFound,"
  {
  }

  lemma DeclServerFailure()
    ensures Decl(Member("ServerFailure", "500")) == "export let ServerFailure = 500"
    ensures Item(Member("ServerFailure", "500")) == "  ServerFailure,"
  {
    ItemServerFailure();
  }

  lemma ItemServerFailure()
    ensures Item(Member("ServerFailure", "500")) == "  ServerFailure,"
  {
  }

  lemma HeaderStatusCodes()
    ensures Header("statusCodes") == "export let statusCodes = {"
  {
  }

  /**
   * `genEnums('statusCodes', template)` of `status.macro.ts` produces the
   * checked-in `status.ts`, line for line.
   */
  lemma StatusLayout()
    ensures Layout("statusCodes", StatusMembers) == StatusTsLines
  {
    DeclOk();
    DeclContinue();
    DeclBadRequest();
    DeclPageNotFound();
    DeclServerFailure();
    HeaderStatusCodes();
    FiveLayout("statusCodes", Member("Ok", "200"), Member("Continue", "302"), Member("BadRequest", "400"),
      Member("PageNotFound", "404"), Member("ServerFailure", "500"));
  }

  lemma StatusTemplateSingleLines()
    ensures forall i :: 0 <= i < |StatusTemplateLines| ==> EOL !in StatusTemplateLines[i]
  {
    assert EOL !in "200 ok" && EOL !in "302 continue" && EOL !in "400 bad request";
    assert EOL !in "404 page not found" && EOL !in "500 server failure";
    FiveSingleLines("200 ok", "302 continue", "400 bad request", "404 page not found", "500 server failure");
  }

  lemma StatusMacro()
    ensures GenEnums("statusCodes", Join(StatusTemplateLines, EOL)) == Ok(Join(StatusTsLines, EOL))
  {
    StatusLayout();
    StatusMembersParsed();
    StatusTemplateSingleLines();
    GenEnumsOfLines("statusCodes", StatusTemplateLines, StatusMembers);
  }

  /** The lines of the template in `examples/src/enums.macro.ts`. */
  const MacroTemplateLines: seq<string> := ["", "400 bad request", "404 page not found", "500 server failure", ""]

  /** The lines of the checked-in `examples/src/enums.ts`. */
  const EnumsTsLines: seq<string> := [
    "export let BadRequest = 400", "",
    "export let PageNotFound = 404", "",
    "export let ServerFailure = 500", "",
    "export let codes = {",
    "  BadRequest,", "  PageNotFound,", "  ServerFailure,",
    "}", ""]

  const MacroMembers: seq<Member> := [Member("BadRequest", "400"), Member("PageNotFound", "404"), Member("ServerFailure", "500")]

  lemma ThreeLines(l1: string, l2: string, l3: string, m1: Member, m2: Member, m3: Member)
    requires l1 != [] && l2 != [] && l3 != []
    requires ParseLine(l1) == Ok(m1) && ParseLine(l2) == Ok(m2) && ParseLine(l3) == Ok(m3)
    ensures Members(["", l1, l2, l3, ""]) == Ok([m1, m2, m3])
  {
    var body := [l1, l2, l3];
    MembersAllParse(body, [m1, m2, m3]);
    assert ["", l1, l2, l3, ""] == [] + [""] + (body + [""] + []);
    MembersSkipBlank([], body + [""] + []);
    assert [] + (body + [""] + []) == body + [""] + [];
    MembersSkipBlank(body, []);
    assert body + [] == body;
  }

  lemma ThreeLayout(name: string, m1: Member, m2: Member, m3: Member)
    ensures Layout(name, [m1, m2, m3]) == [
      Decl(m1), "", Decl(m2), "", Decl(m3), "",
      Header(name), Item(m1), Item(m2), Item(m3), "}", ""]
  {
    LinesCons(m3, []);
    LinesCons(m2, [m3]);
    LinesCons(m1, [m2, m3]);
    assert [m3] + [] == [m3];
    assert [m2] + [m3] == [m2, m3];
    assert [m1] + [m2, m3] == [m1, m2, m3];
  }

  lemma HeaderCodes()
    ensures Header("codes") == "export let codes = {"
  {
  }

  lemma MacroLayout()
    ensures Layout("codes", MacroMembers) == EnumsTsLines
  {
    DeclBadRequest();
    DeclPageNotFound();
    DeclServerFailure();
    HeaderCodes();
    ThreeLayout("codes", Member("BadRequest", "400"), Member("PageNotFound", "404"), Member("ServerFailure", "500"));
  }

  lemma MacroMembersParsed()
    ensures Members(MacroTemplateLines) == Ok(MacroMembers)
  {
    ParseBadRequest();
    ParsePageNotFound();
    ParseServerFailure();
    ThreeLines("400 bad request", "404 page not found", "500 server failure",
      Member("BadRequest", "400"), Member("PageNotFound", "404"), Member("ServerFailure", "500"));
  }

  lemma MacroTemplateSingleLines()
    ensures forall i :: 0 <= i < |MacroTemplateLines| ==> EOL !in MacroTemplateLines[i]
  {
    assert EOL !in "400 bad request" && EOL !in "404 page not found" && EOL !in "500 server failure";
    var l := MacroTemplateLines;
    assert l == ["", "400 bad request", "404 page not found", "500 server failure", ""];
  }

  /** The script `enums.macro.ts` evaluates to the checked-in `enums.ts`, line for line. */
  lemma MacroOutput()
    ensures GenEnums(ObjectName, Join(MacroTemplateLines, EOL)) == Ok(Join(EnumsTsLines, EOL))
  {
    MacroLayout();
    MacroMembersParsed();
    MacroTemplateSingleLines();
    GenEnumsOfLines(ObjectName, MacroTemplateLines, MacroMembers);
  }
}
