/**
 * `examples/src/enums.macro.ts`: the generator written out as a script,
 * which builds the code string line by line and evaluates to it. The
 * script is the generator's body specialised to the name `codes`.
 */
module EnumsMacro {
  import opened Wrappers
  import opened Text
  import opened Enums

  /** Running the members of two runs of lines one after the other. */
  lemma {:induction false} MembersAppend(a: seq<string>, b: seq<string>)
    requires Members(a).Ok?
    ensures Members(a + b) ==
      match Members(b)
      case Ok(ms) => Ok(Members(a).value + ms)
      case Err(e) => Err(e)
    decreases |a|
  {
    if a == [] {
      assert a + b == b;
      if Members(b).Ok? {
        assert [] + Members(b).value == Members(b).value;
      }
    } else {
      var t := a + b;
      assert t[0] == a[0];
      assert t[1..] == a[1..] + b;
      MembersAppend(a[1..], b);
      if a[0] != [] && Members(b).Ok? {
        var m := ParseLine(a[0]).value;
        assert Members(a).value == [m] + Members(a[1..]).value;
        assert Members(t).value == [m] + (Members(a[1..]).value + Members(b).value);
        Associate([m], Members(a[1..]).value, Members(b).value);
      }
    }
  }

  lemma MembersOne(line: string)
    ensures Members([line]) ==
      if line == [] then Ok([])
      else match ParseLine(line)
        case Ok(m) => Ok([m])
        case Err(e) => Err(e)
  {
    assert [line][1..] == [];
    if line != [] && ParseLine(line).Ok? {
      assert [ParseLine(line).value] + [] == [ParseLine(line).value];
    }
  }

  /** A failing line stops the run, whatever follows it. */
  lemma MembersStop(a: seq<string>, line: string, rest: seq<string>)
    requires Members(a).Ok? && line != [] && ParseLine(line).Err?
    ensures Members(a + [line] + rest) == Err(ParseLine(line).error)
  {
    assert a + [line] + rest == a + ([line] + rest);
    assert ([line] + rest)[1..] == rest;
    MembersAppend(a, [line] + rest);
  }

  /** Camel-casing one more word. */
  lemma {:induction false} CamelCaseSnoc(ws: seq<string>, w: string)
    ensures CamelCase(ws + [w]) ==
      match CamelCase(ws)
      case None => None
      case Some(k) => if w == [] then None else Some(k + ([UpperChar(w[0])] + w[1..]))
    decreases |ws|
  {
    if ws == [] {
      assert ws + [w] == [w];
      assert [w][1..] == [];
      if w != [] {
        assert ([UpperChar(w[0])] + w[1..]) + "" == "" + ([UpperChar(w[0])] + w[1..]);
      }
    } else {
      assert (ws + [w])[1..] == ws[1..] + [w];
      CamelCaseSnoc(ws[1..], w);
      if CamelCase(ws).Some? && w != [] {
        var c := [UpperChar(w[0])] + w[1..];
        var h := Capitalize(ws[0]).value;
        assert h + (CamelCase(ws[1..]).value + c) == h + CamelCase(ws[1..]).value + c;
      }
    }
  }

  lemma {:induction false} DeclsSnoc(ms: seq<Member>, m: Member)
    ensures Decls(ms + [m]) == Decls(ms) + "\n" + Decl(m) + "\n"
    decreases |ms|
  {
    if ms == [] {
      assert ms + [m] == [m];
      assert [m][1..] == [];
    } else {
      assert (ms + [m])[1..] == ms[1..] + [m];
      assert (ms + [m])[0] == ms[0];
      DeclsSnoc(ms[1..], m);
      Associate("\n" + Decl(ms[0]) + "\n", Decls(ms[1..]), "\n" + Decl(m) + "\n");
    }
  }

  /** Sequence concatenation is associative. */
  lemma Associate<T>(a: seq<T>, b: seq<T>, c: seq<T>)
    ensures a + (b + c) == a + b + c
  {
  }

  lemma {:induction false} ItemsSnoc(ms: seq<Member>, m: Member)
    ensures Items(ms + [m]) == Items(ms) + "\n" + Item(m)
    decreases |ms|
  {
    if ms == [] {
      assert ms + [m] == [m];
      assert [m][1..] == [];
    } else {
      assert (ms + [m])[1..] == ms[1..] + [m];
      ItemsSnoc(ms[1..], m);
    }
  }

  /** The name of the object the script exports. */
  const ObjectName := "codes"

  /** `parts.slice(1).map(word => word[0].toUpperCase() + word.slice(1)).join('')`, throwing on an empty word. */
  method CamelWords(words: seq<string>) returns (r: Option<string>)
    ensures r == CamelCase(words)
  {
    var text := "";
    var j := 0;
    while j < |words|
      invariant 0 <= j <= |words|
      invariant CamelCase(words[..j]) == Some(text)
    {
      var word := words[j];
      assert words[..j + 1] == words[..j] + [word];
      CamelCaseSnoc(words[..j], word);
      if word == [] {
        assert words == words[..j + 1] + words[j + 1..];
        NoneSticks(words[..j + 1], words[j + 1..]);
        return None;
      }
      text := text + ([UpperChar(word[0])] + word[1..]);
      j := j + 1;
    }
    assert words[..j] == words;
    return Some(text);
  }

  /** Once a word fails, more words do not help. */
  lemma {:induction false} NoneSticks(a: seq<string>, b: seq<string>)
    requires CamelCase(a).None?
    ensures CamelCase(a + b).None?
    decreases |a|
  {
    assert a != [];
    assert (a + b)[0] == a[0];
    assert (a + b)[1..] == a[1..] + b;
    if Capitalize(a[0]).Some? {
      NoneSticks(a[1..], b);
    }
  }

  /** The body of the script's `forEach` for one non-empty line. */
  method ReadLine(line: string) returns (r: Result<Member, GenError>)
    ensures r == ParseLine(line)
  {
    var parts := Split(line, ' ');
    var statusCode := parts[0];
    var statusText := CamelWords(parts[1..]);
    if statusText.None? {
      return Err(EmptyWord(line));
    }
    return Ok(Member(statusText.value, statusCode));
  }

  lemma AppendDecl(code: string, ms: seq<Member>, key: string, value: string)
    requires code == Decls(ms)
    ensures code + "\nexport let " + key + " = " + value + "\n" == Decls(ms + [Member(key, value)])
  {
    DeclsSnoc(ms, Member(key, value));
    DeclText(code, key, value);
  }

  /** The script's one-line append is the declaration between two newlines. */
  lemma DeclText(c: string, k: string, v: string)
    ensures c + "\nexport let " + k + " = " + v + "\n" == c + "\n" + Decl(Member(k, v)) + "\n"
  {
    assert "\nexport let " == "\n" + "export let ";
  }

  lemma AppendItem(code: string, prefix: string, ms: seq<Member>, k: nat)
    requires k < |ms|
    requires code == prefix + Items(ms[..k])
    ensures code + "\n  " + ms[k].key + "," == prefix + Items(ms[..k + 1])
  {
    assert ms[..k + 1] == ms[..k] + [ms[k]];
    ItemsSnoc(ms[..k], ms[k]);
  }

  /** The keys of the members, in order: the script's `names`. */
  function Keys(ms: seq<Member>): (ks: seq<string>)
    ensures |ks| == |ms| && forall k :: 0 <= k < |ms| ==> ks[k] == ms[k].key
  {
    if ms == [] then [] else [ms[0].key] + Keys(ms[1..])
  }

  lemma {:induction false} KeysSnoc(ms: seq<Member>, m: Member)
    ensures Keys(ms + [m]) == Keys(ms) + [m.key]
  {
    var a := Keys(ms + [m]);
    var b := Keys(ms) + [m.key];
    assert forall k :: 0 <= k < |a| ==> a[k] == b[k] by {
      forall k | 0 <= k < |a| ensures a[k] == b[k] {
        if k < |ms| {
          assert (ms + [m])[k] == ms[k];
        }
      }
    }
  }

  /**
   * The script's `template.split(EOL).forEach(...)`: the declarations and
   * the keys of the lines, or the error of the first line that throws.
   */
  method DeclareAll(lines: seq<string>) returns (r: Result<(string, seq<string>), GenError>)
    ensures r.Ok? <==> Members(lines).Ok?
    ensures r.Ok? ==> r.value == (Decls(Members(lines).value), Keys(Members(lines).value))
    ensures r.Err? ==> r.error == Members(lines).error
  {
    var code := "";
    var names: seq<string> := [];
    ghost var ms: seq<Member> := [];
    var i := 0;
    while i < |lines|
      invariant 0 <= i <= |lines|
      invariant Members(lines[..i]) == Ok(ms)
      invariant code == Decls(ms) && names == Keys(ms)
    {
      var line := lines[i];
      assert lines[..i + 1] == lines[..i] + [line];
      MembersAppend(lines[..i], [line]);
      MembersOne(line);
      if line != [] {
        var parsed := ReadLine(line);
        if parsed.Err? {
          assert lines == lines[..i] + [line] + lines[i + 1..];
          MembersStop(lines[..i], line, lines[i + 1..]);
          return Err(parsed.error);
        }
        var m := parsed.value;
        KeysSnoc(ms, m);
        names := names + [m.key];
        AppendDecl(code, ms, m.key, m.value);
        code := code + "\nexport let " + m.key + " = " + m.value + "\n";
        ms := ms + [m];
      } else {
        assert ms + [] == ms;
      }
      i := i + 1;
    }
    assert lines[..i] == lines;
    return Ok((code, names));
  }

  /**
   * The whole script, with the template as its input. It throws where the
   * generator does, and otherwise evaluates to the generator's output for
   * the name `codes`.
   */
  method RunMacro(template: string) returns (r: Result<string, GenError>)
    ensures r == GenEnums(ObjectName, template)
  {
    var declared := DeclareAll(Split(template, EOL));
    if declared.Err? {
      return Err(declared.error);
    }
    ghost var ms := Members(Split(template, EOL)).value;
    var (code, names) := declared.value;
    HeaderText(code, ObjectName);
    assert ms[..0] == [];
    code := code + "\nexport let " + ObjectName + " = {";
    var k := 0;
    while k < |names|
      invariant 0 <= k <= |names|
      invariant code == Decls(ms) + "\n" + Header(ObjectName) + Items(ms[..k])
    {
      AppendItem(code, Decls(ms) + "\n" + Header(ObjectName), ms, k);
      code := code + "\n  " + names[k] + ",";
      k := k + 1;
    }
    assert ms[..k] == ms;
    code := code + "\n}";
    GenEnumsOk(template, ms);
    return Ok(Trim(code) + "\n");
  }

  /** The script's header append is the object header after a newline, before any entry. */
  lemma HeaderText(c: string, name: string)
    ensures c + "\nexport let " + name + " = {" == c + "\n" + Header(name) + Items([])
  {
    assert "\nexport let " == "\n" + "export let ";
  }

  /** The generator's output once the lines have been read. */
  lemma GenEnumsOk(template: string, ms: seq<Member>)
    requires Members(Split(template, EOL)) == Ok(ms)
    ensures GenEnums(ObjectName, template) == Ok(Trim(Render(ObjectName, ms)) + "\n")
  {
  }
}
