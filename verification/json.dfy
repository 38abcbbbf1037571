/**
 * The slice of JSON the command line touches: parsed values with
 * JavaScript truthiness and property lookup, and `JSON.stringify` of a
 * string, together with the decoding `JSON.parse` applies to the result.
 */
module Json {
  import opened Wrappers

  /**
   * A value `JSON.parse` returns. Numbers are kept as reals: JSON text has
   * no NaN, so a number is falsy exactly when it is zero. Object members
   * keep their textual order, duplicates included.
   */
  datatype Value =
    | Null
    | Bool(b: bool)
    | Number(n: real)
    | String(s: string)
    | Array(items: seq<Value>)
    | Object(members: seq<(string, Value)>)

  /**
   * JavaScript truthiness of a property read, `None` standing for
   * `undefined`: `undefined` and `null` are falsy, arrays and objects are
   * truthy even when empty, and a primitive is falsy exactly when it is
   * `false`, `0` or `""`.
   */
  predicate Truthy(v: Option<Value>)
    ensures Truthy(v) ==> v.Some? && !v.value.Null?
    ensures v.Some? && (v.value.Array? || v.value.Object?) ==> Truthy(v)
    ensures v.Some? && v.value.Bool? ==> (Truthy(v) <==> v.value.b)
    ensures v.Some? && v.value.Number? ==> (Truthy(v) <==> v.value.n != 0.0)
    ensures v.Some? && v.value.String? ==> (Truthy(v) <==> |v.value.s| > 0)
  {
    match v
    case None => false
    case Some(Null) => false
    case Some(Bool(b)) => b
    case Some(Number(n)) => n != 0.0
    case Some(String(s)) => s != []
    case Some(Array(_)) => true
    case Some(Object(_)) => true
  }

  /**
   * `v[key]` for a value that is not `null`: an object's member (the last
   * one, when the text repeats the key, as `JSON.parse` keeps the last);
   * any other value has no such own property.
   */
  function Get(v: Value, key: string): (r: Option<Value>)
    ensures r.Some? ==> v.Object? && exists k :: 0 <= k < |v.members| && v.members[k] == (key, r.value)
  {
    match v
    case Object(ms) => Lookup(ms, key)
    case _ => None
  }

  /** The value of the last member named `key`. */
  function Lookup(ms: seq<(string, Value)>, key: string): (r: Option<Value>)
    ensures r.Some? ==> exists k :: 0 <= k < |ms| && ms[k] == (key, r.value)
  {
    if ms == [] then None
    else if ms[|ms| - 1].0 == key then Some(ms[|ms| - 1].1)
    else Lookup(ms[..|ms| - 1], key)
  }

  /** `Lookup` finds the last member with the key, and nothing when there is none. */
  lemma {:induction false} LookupSpec(ms: seq<(string, Value)>, key: string)
    ensures Lookup(ms, key).None? <==> forall k :: 0 <= k < |ms| ==> ms[k].0 != key
    ensures Lookup(ms, key).Some? ==>
      exists k :: 0 <= k < |ms| && ms[k] == (key, Lookup(ms, key).value)
        && forall j :: k < j < |ms| ==> ms[j].0 != key
    decreases |ms|
  {
    if ms != [] && ms[|ms| - 1].0 != key {
      var init := ms[..|ms| - 1];
      LookupSpec(init, key);
      if Lookup(init, key).Some? {
        var k :| 0 <= k < |init| && init[k] == (key, Lookup(init, key).value)
          && forall j :: k < j < |init| ==> init[j].0 != key;
        assert ms[k] == init[k];
      }
    }
  }

  /** A lowercase hexadecimal digit. */
  function HexDigit(n: nat): (c: char)
    requires n < 16
    ensures HexValue(c) == Some(n)
  {
    if n < 10 then (48 + n) as char else (87 + n) as char
  }

  /** The value of a hexadecimal digit of either case. */
  function HexValue(c: char): (r: Option<nat>)
    ensures r.Some? ==> r.value < 16
  {
    if '0' <= c <= '9' then Some(c as int - 48)
    else if 'a' <= c <= 'f' then Some(c as int - 87)
    else if 'A' <= c <= 'F' then Some(c as int - 55)
    else None
  }

  /** A character `JSON.stringify` writes as a six-character `\u` escape. */
  predicate IsControl(c: char) {
    c as int < 0x20
  }

  /** The characters with a two-character escape, and the letter after the backslash. */
  function ShortEscape(c: char): (r: Option<char>)
    ensures r.Some? ==> r.value in "\"\\bfnrt"
  {
    if c == '"' then Some('"')
    else if c == '\\' then Some('\\')
    else if c as int == 0x08 then Some('b')
    else if c as int == 0x0C then Some('f')
    else if c == '\n' then Some('n')
    else if c == '\r' then Some('r')
    else if c == '\t' then Some('t')
    else None
  }

  /** The character a two-character escape stands for. */
  function ShortUnescape(e: char): (r: Option<char>)
    ensures r.Some? ==> ShortEscape(r.value) == Some(e)
  {
    if e == '"' then Some('"')
    else if e == '\\' then Some('\\')
    else if e == 'b' then Some(0x08 as char)
    else if e == 'f' then Some(0x0C as char)
    else if e == 'n' then Some('\n')
    else if e == 'r' then Some('\r')
    else if e == 't' then Some('\t')
    else None
  }

  /** How `JSON.stringify` writes one character inside the quotes. */
  function EscapeChar(c: char): (r: string)
    ensures |r| >= 1
  {
    match ShortEscape(c)
    case Some(e) => ['\\', e]
    case None =>
      if IsControl(c) then
        var n := c as int;
        ['\\', 'u', '0', '0', HexDigit(n / 16), HexDigit(n % 16)]
      else [c]
  }

  /** The characters of a string, each escaped. */
  function Escape(s: string): (r: string)
    ensures |r| >= |s|
  {
    if s == [] then [] else EscapeChar(s[0]) + Escape(s[1..])
  }

  /** `JSON.stringify(s)` for a string `s`. */
  function Quote(s: string): (r: string)
    ensures |r| >= |s| + 2 && r[0] == '"' && r[|r| - 1] == '"'
  {
    "\"" + Escape(s) + "\""
  }

  /** The code point of four hexadecimal digits, if they are four. */
  function Hex4(d: string): (r: Option<nat>)
    requires |d| == 4
    ensures r.Some? ==> r.value < 0x10000
  {
    match (HexValue(d[0]), HexValue(d[1]), HexValue(d[2]), HexValue(d[3]))
    case (Some(a), Some(b), Some(c), Some(e)) => Some(((a * 16 + b) * 16 + c) * 16 + e)
    case _ => None
  }

  /** A high (leading) surrogate half. */
  predicate IsHighSurrogate(n: nat) {
    0xD800 <= n < 0xDC00
  }

  /** A low (trailing) surrogate half. */
  predicate IsLowSurrogate(n: nat) {
    0xDC00 <= n < 0xE000
  }

  /** The code point a surrogate pair encodes. */
  function Combine(hi: nat, lo: nat): (c: char)
    requires IsHighSurrogate(hi) && IsLowSurrogate(lo)
    ensures 0x10000 <= c as int < 0x110000
  {
    (0x10000 + (hi - 0xD800) * 0x400 + (lo - 0xDC00)) as char
  }

  /**
   * The characters a JSON string body stands for, or `None` if the body is
   * not valid JSON: a raw `"` or control character, or an unknown escape.
   * Besides the escapes `JSON.stringify` writes, `\/` stands for `/`, and a
   * `\u` escape of a high surrogate followed by one of a low surrogate
   * stands for the one character the pair encodes. A `\u` escape of a lone
   * surrogate half is rejected, as a Dafny `char` is a Unicode scalar value.
   */
  function Unescape(t: string): (r: Option<string>)
    decreases |t|
  {
    if t == [] then Some([])
    else if t[0] == '\\' then
      if |t| >= 2 && ShortUnescape(t[1]).Some? then
        match Unescape(t[2..])
        case None => None
        case Some(rest) => Some([ShortUnescape(t[1]).value] + rest)
      else if |t| >= 2 && t[1] == '/' then
        match Unescape(t[2..])
        case None => None
        case Some(rest) => Some(['/'] + rest)
      else if |t| >= 12 && t[1] == 'u' && Hex4(t[2..6]).Some? && IsHighSurrogate(Hex4(t[2..6]).value)
        && t[6] == '\\' && t[7] == 'u' && Hex4(t[8..12]).Some? && IsLowSurrogate(Hex4(t[8..12]).value) then
        match Unescape(t[12..])
        case None => None
        case Some(rest) => Some([Combine(Hex4(t[2..6]).value, Hex4(t[8..12]).value)] + rest)
      else if |t| >= 6 && t[1] == 'u' && Hex4(t[2..6]).Some?
        && (Hex4(t[2..6]).value < 0xD800 || 0xE000 <= Hex4(t[2..6]).value) then
        match Unescape(t[6..])
        case None => None
        case Some(rest) => Some([Hex4(t[2..6]).value as char] + rest)
      else None
    else if t[0] == '"' || IsControl(t[0]) then None
    else
      match Unescape(t[1..])
      case None => None
      case Some(rest) => Some([t[0]] + rest)
  }

  /** `JSON.parse` of a string literal. */
  function Unquote(r: string): (s: Option<string>)
    ensures s.Some? ==> |r| >= 2 && r[0] == '"' && r[|r| - 1] == '"'
  {
    if |r| >= 2 && r[0] == '"' && r[|r| - 1] == '"' then Unescape(r[1..|r| - 1]) else None
  }

  /** The escaped solidus `\/` is read as `/`. */
  lemma SolidusEscape(rest: string)
    ensures Unescape("\\/" + rest) ==
      match Unescape(rest)
      case None => None
      case Some(x) => Some("/" + x)
  {
    var t := "\\/" + rest;
    assert t[0] == '\\' && t[1] == '/' && t[2..] == rest;
  }

  /** A surrogate pair, such as the one `\ud83d\ude00` writes for U+1F600, is read as one character. */
  lemma SurrogatePair()
    ensures Unquote("\"\\ud83d\\ude00\"") == Some("\U{1F600}")
  {
    var r := "\"\\ud83d\\ude00\"";
    var t := "\\ud83d\\ude00";
    assert r[1..|r| - 1] == t;
    assert t[0] == '\\' && t[1] == 'u' && t[6] == '\\' && t[7] == 'u';
    assert ShortUnescape(t[1]).None?;
    assert Hex4(t[2..6]) == Some(0xD83D);
    assert Hex4(t[8..12]) == Some(0xDE00);
    assert Combine(0xD83D, 0xDE00) == '\U{1F600}';
    assert t[12..] == [];
    assert Unescape(t[12..]) == Some([]);
    assert Unescape(t) == Some(['\U{1F600}'] + []);
    assert Unquote(r) == Unescape(t);
    assert ['\U{1F600}'] + [] == "\U{1F600}";
  }

  /** The six-character escape of a control character decodes to it. */
  lemma ControlEscape(c: char, rest: string)
    requires IsControl(c) && ShortEscape(c).None?
    ensures Unescape(EscapeChar(c) + rest) ==
      match Unescape(rest)
      case None => None
      case Some(x) => Some([c] + x)
  {
    var n := c as int;
    var t := EscapeChar(c) + rest;
    var d := [HexDigit(n / 16), HexDigit(n % 16)];
    assert t[2..6] == ['0', '0'] + d;
    assert Hex4(t[2..6]) == Some(n);
    assert ShortUnescape(t[1]).None?;
    assert t[6..] == rest;
  }

  /** Decoding the escape of one character gives the character back. */
  lemma UnescapeChar(c: char, rest: string)
    ensures Unescape(EscapeChar(c) + rest) ==
      match Unescape(rest)
      case None => None
      case Some(x) => Some([c] + x)
  {
    var t := EscapeChar(c) + rest;
    match ShortEscape(c)
    case Some(e) =>
      assert t[2..] == rest;
      assert ShortUnescape(e) == Some(c);
    case None =>
      if IsControl(c) {
        ControlEscape(c, rest);
      } else {
        assert t[1..] == rest;
      }
  }

  /** Decoding undoes escaping. */
  lemma {:induction false} UnescapeEscape(s: string)
    ensures Unescape(Escape(s)) == Some(s)
    decreases |s|
  {
    if s != [] {
      UnescapeEscape(s[1..]);
      UnescapeChar(s[0], Escape(s[1..]));
      assert [s[0]] + s[1..] == s;
    }
  }

  /** `JSON.parse(JSON.stringify(s)) === s`. */
  lemma UnquoteQuote(s: string)
    ensures Unquote(Quote(s)) == Some(s)
  {
    var r := Quote(s);
    assert r[1..|r| - 1] == Escape(s);
    UnescapeEscape(s);
  }

  /** Different strings are written differently. */
  lemma QuoteInjective(a: string, b: string)
    ensures Quote(a) == Quote(b) <==> a == b
  {
    if Quote(a) == Quote(b) {
      UnquoteQuote(a);
      UnquoteQuote(b);
    }
  }
}
