/** The part of `JSON.stringify` and `JSON.parse` the session store uses: a
    flat object whose members all have string values. */
module Json {
  import opened Common
  import opened JsText

  /** A lower-case hexadecimal digit, as `JSON.stringify` writes them. */
  function HexDigitChar(d: nat): (c: char)
    requires d < 16
    ensures IsHexDigit(c) && RadixDigitValue(c) == d
  {
    if d < 10 then DigitChar(d) else ('a' as nat + d - 10) as char
  }

  /** How `JSON.stringify` writes one character inside a string literal:
      the quote, the backslash and the control characters are escaped,
      everything else is written as it is. */
  function EscapeChar(c: char): (e: string)
    ensures |e| > 0
    ensures forall i :: 0 <= i < |e| ==> e[i] >= ' '
    ensures e[0] != '"'
    ensures e == [c] <==> c >= ' ' && c != '"' && c != '\\'
    ensures e != [c] ==> e[0] == '\\'
  {
    if c == '\U{8}' then "\\b"
    else if c == '\t' then "\\t"
    else if c == '\n' then "\\n"
    else if c == '\U{C}' then "\\f"
    else if c == '\r' then "\\r"
    else if c == '"' then "\\\""
    else if c == '\\' then "\\\\"
    else if c < ' ' then "\\u00" + [HexDigitChar(c as nat / 16), HexDigitChar(c as nat % 16)]
    else [c]
  }

  /** The body of the string literal `JSON.stringify(s)`, without its quotes. */
  function EscapeString(s: string): string {
    if s == [] then "" else EscapeChar(s[0]) + EscapeString(s[1..])
  }

  /** The value of the four hexadecimal digits `s[i..i+4]`. */
  function Hex4Value(s: string, i: nat): (v: nat)
    requires i + 4 <= |s|
    requires IsHexDigit(s[i]) && IsHexDigit(s[i + 1]) && IsHexDigit(s[i + 2]) && IsHexDigit(s[i + 3])
    ensures v < 0x10000
  {
    4096 * RadixDigitValue(s[i]) + 256 * RadixDigitValue(s[i + 1])
    + 16 * RadixDigitValue(s[i + 2]) + RadixDigitValue(s[i + 3])
  }

  /** Reads the escape sequence at the start of `s` (which begins with a
      backslash): the character it stands for and its length. A `\u`
      escape of a lone UTF-16 surrogate has no character of its own and is
      refused. */
  function ReadEscape(s: string): (r: Option<(char, nat)>)
    requires |s| > 0 && s[0] == '\\'
    ensures r.Some? ==> 2 <= r.value.1 <= |s|
  {
    if |s| < 2 then None
    else if s[1] == '"' then Some(('"', 2))
    else if s[1] == '\\' then Some(('\\', 2))
    else if s[1] == '/' then Some(('/', 2))
    else if s[1] == 'b' then Some(('\U{8}', 2))
    else if s[1] == 'f' then Some(('\U{C}', 2))
    else if s[1] == 'n' then Some(('\n', 2))
    else if s[1] == 'r' then Some(('\r', 2))
    else if s[1] == 't' then Some(('\t', 2))
    else if s[1] == 'u' && |s| >= 6
      && IsHexDigit(s[2]) && IsHexDigit(s[3]) && IsHexDigit(s[4]) && IsHexDigit(s[5]) then
      var v := Hex4Value(s, 2);
      if 0xD800 <= v < 0xE000 then None else Some((v as char, 6))
    else None
  }

  /** `r` with `c` put in front of the characters it read. */
  function Prepend(c: char, r: Option<(string, string)>): (p: Option<(string, string)>)
    ensures p.Some? <==> r.Some?
    ensures r.Some? ==> p.value == ([c] + r.value.0, r.value.1)
  {
    match r
    case None => None
    case Some((t, rest)) => Some(([c] + t, rest))
  }

  /** Reads the rest of a JSON string literal whose opening quote has been
      consumed, as `JSON.parse` does: the decoded characters and the input
      after the closing quote. A raw control character or a bad escape
      makes the text unparseable. */
  function ReadString(s: string): (r: Option<(string, string)>)
    ensures r.Some? ==> |r.value.1| < |s|
    decreases |s|
  {
    if s == [] then None
    else if s[0] == '"' then Some(("", s[1..]))
    else if s[0] < ' ' then None
    else if s[0] != '\\' then Prepend(s[0], ReadString(s[1..]))
    else
      match ReadEscape(s)
      case None => None
      case Some((c, n)) => Prepend(c, ReadString(s[n..]))
  }

  lemma ReadPlain(s: string)
    requires s != [] && s[0] != '"' && s[0] >= ' ' && s[0] != '\\'
    ensures ReadString(s) == Prepend(s[0], ReadString(s[1..]))
  {
  }

  lemma ReadEscaped(s: string, c: char, n: nat)
    requires s != [] && s[0] == '\\' && ReadEscape(s) == Some((c, n))
    ensures ReadString(s) == Prepend(c, ReadString(s[n..]))
  {
  }

  lemma ReadShortEscape(x: char, c: char, tail: string)
    requires ReadEscape(['\\', x] + tail) == Some((c, 2))
    ensures ReadString(['\\', x] + tail) == Prepend(c, ReadString(tail))
  {
    var s := ['\\', x] + tail;
    assert s[2..] == tail;
    ReadEscaped(s, c, 2);
  }

  lemma ReadUnicodeEscape(c: char, tail: string)
    requires c < ' '
    ensures ReadString("\\u00" + [HexDigitChar(c as nat / 16), HexDigitChar(c as nat % 16)] + tail)
      == Prepend(c, ReadString(tail))
  {
    var hi, lo := HexDigitChar(c as nat / 16), HexDigitChar(c as nat % 16);
    var s := ['\\', 'u', '0', '0', hi, lo] + tail;
    assert "\\u00" + [hi, lo] + tail == s;
    assert Hex4Value(s, 2) == c as nat;
    assert ReadEscape(s) == Some((c, 6));
    assert s[6..] == tail;
    ReadEscaped(s, c, 6);
  }

  /** Reading what `JSON.stringify` wrote for one character gives that
      character back, followed by whatever the rest of the input reads as. */
  lemma ReadEscapeChar(c: char, tail: string)
    ensures ReadString(EscapeChar(c) + tail) == Prepend(c, ReadString(tail))
  {
    if c == '\U{8}' {
      assert EscapeChar(c) == ['\\', 'b'];
      ReadShortEscape('b', c, tail);
    } else if c == '\t' {
      assert EscapeChar(c) == ['\\', 't'];
      ReadShortEscape('t', c, tail);
    } else if c == '\n' {
      assert EscapeChar(c) == ['\\', 'n'];
      ReadShortEscape('n', c, tail);
    } else if c == '\U{C}' {
      assert EscapeChar(c) == ['\\', 'f'];
      ReadShortEscape('f', c, tail);
    } else if c == '\r' {
      assert EscapeChar(c) == ['\\', 'r'];
      ReadShortEscape('r', c, tail);
    } else if c == '"' {
      assert EscapeChar(c) == ['\\', '"'];
      ReadShortEscape('"', c, tail);
    } else if c == '\\' {
      assert EscapeChar(c) == ['\\', '\\'];
      ReadShortEscape('\\', c, tail);
    } else if c < ' ' {
      ReadUnicodeEscape(c, tail);
    } else {
      assert EscapeChar(c) + tail == [c] + tail;
      assert ([c] + tail)[1..] == tail;
      ReadPlain([c] + tail);
    }
  }

  /** `JSON.parse` inverts `JSON.stringify` on strings: the escaped body of
      `s`, closed by a quote, reads back as `s`, and the input after the
      quote is left untouched. */
  lemma {:induction false} ReadEscapedString(s: string, rest: string)
    ensures ReadString(EscapeString(s) + "\"" + rest) == Some((s, rest))
  {
    if s == [] {
      assert EscapeString(s) + "\"" + rest == "\"" + rest;
    } else {
      var tail := EscapeString(s[1..]) + "\"" + rest;
      assert EscapeString(s) + "\"" + rest == EscapeChar(s[0]) + tail;
      ReadEscapedString(s[1..], rest);
      ReadEscapeChar(s[0], tail);
      assert [s[0]] + s[1..] == s;
    }
  }

  /** One member `"key":"value"` as `JSON.stringify` writes it. */
  function EncodeMember(m: (string, string)): string {
    "\"" + EscapeString(m.0) + "\":\"" + EscapeString(m.1) + "\""
  }

  function EncodeMembers(ms: seq<(string, string)>): (r: string)
    ensures |r| == 0 <==> |ms| == 0
  {
    if ms == [] then ""
    else if |ms| == 1 then EncodeMember(ms[0])
    else EncodeMember(ms[0]) + "," + EncodeMembers(ms[1..])
  }

  /** `JSON.stringify` of an object whose members, in insertion order, are
      `ms`, all with string values. */
  function EncodeObject(ms: seq<(string, string)>): (r: string)
    ensures |r| >= 2 && r[0] == '{' && r[|r| - 1] == '}'
    ensures |r| == 2 <==> |ms| == 0
  {
    "{" + EncodeMembers(ms) + "}"
  }

  /** Reads one member `"key":"value"` at the start of `s`: the member
      and the input after it. */
  function ParseMember(s: string): (r: Option<((string, string), string)>)
    ensures r.Some? ==> |r.value.1| < |s|
  {
    if s == [] || s[0] != '"' then None
    else
      match ReadString(s[1..])
      case None => None
      case Some((key, r1)) =>
        if |r1| < 2 || r1[0] != ':' || r1[1] != '"' then None
        else
          match ReadString(r1[2..])
          case None => None
          case Some((value, rest)) => Some(((key, value), rest))
  }

  /** Reads a non-empty member list up to the closing brace, which must end
      the input. */
  function ParseMembers(s: string): Option<seq<(string, string)>>
    decreases |s|
  {
    match ParseMember(s)
    case None => None
    case Some((m, rest)) =>
      if rest == "}" then Some([m])
      else if rest != [] && rest[0] == ',' then
        match ParseMembers(rest[1..])
        case None => None
        case Some(more) => Some([m] + more)
      else None
  }

  /** `JSON.parse` of a flat object with string members and no white
      space between tokens; any other text reads as unparseable. */
  function ParseObject(s: string): (r: Option<seq<(string, string)>>)
    ensures r.Some? ==> |s| >= 2 && s[0] == '{' && s[|s| - 1] == '}'
    ensures r == Some([]) <==> s == "{}"
  {
    if |s| < 2 || s[0] != '{' then None
    else if s[1..] == "}" then Some([])
    else ParseMembersShape(s[1..]); ParseMembers(s[1..])
  }

  /** A string literal that reads ends at a closing quote, and what is
      left is the input after that quote. */
  lemma {:induction false} ReadStringSuffix(s: string)
    ensures var r := ReadString(s);
      r.Some? ==> r.value.1 == s[|s| - |r.value.1|..] && s[|s| - |r.value.1| - 1] == '"'
    decreases |s|
  {
    if s != [] && s[0] != '"' && s[0] >= ' ' {
      if s[0] != '\\' {
        ReadStringSuffix(s[1..]);
      } else if ReadEscape(s).Some? {
        ReadStringSuffix(s[ReadEscape(s).value.1..]);
      }
    }
  }

  /** One member read leaves a suffix of the input. */
  lemma ParseMemberSuffix(s: string)
    ensures ParseMember(s).Some? ==> ParseMember(s).value.1 == s[|s| - |ParseMember(s).value.1|..]
  {
    if s != [] && s[0] == '"' && ReadString(s[1..]).Some? {
      ReadStringSuffix(s[1..]);
      var r1 := ReadString(s[1..]).value.1;
      if |r1| >= 2 && r1[0] == ':' && r1[1] == '"' && ReadString(r1[2..]).Some? {
        ReadStringSuffix(r1[2..]);
        var rest := ReadString(r1[2..]).value.1;
        assert r1 == s[1..][|s| - 1 - |r1|..];
        assert rest == r1[2..][|r1| - 2 - |rest|..];
      }
    }
  }

  /** A member list that reads is non-empty and ends at a closing brace. */
  lemma {:induction false} ParseMembersShape(s: string)
    ensures ParseMembers(s).Some? ==> |ParseMembers(s).value| > 0 && s != [] && s[|s| - 1] == '}'
    decreases |s|
  {
    var m := ParseMember(s);
    if m.Some? {
      var rest := m.value.1;
      ParseMemberSuffix(s);
      assert rest != [] ==> s[|s| - 1] == rest[|rest| - 1];
      if rest != "}" && rest != [] && rest[0] == ',' {
        var tail := rest[1..];
        ParseMembersShape(tail);
        assert tail != [] ==> tail[|tail| - 1] == rest[|rest| - 1];
      }
    }
  }

  lemma ParseMemberOf(keyText: string, key: string, valueText: string, value: string, rest: string)
    requires ReadString(keyText) == Some((key, ":\"" + valueText))
    requires ReadString(valueText) == Some((value, rest))
    ensures ParseMember("\"" + keyText) == Some(((key, value), rest))
  {
    assert ("\"" + keyText)[1..] == keyText;
    assert (":\"" + valueText)[2..] == valueText;
  }

  lemma EncodedMemberText(m: (string, string), after: string)
    ensures EncodeMember(m) + after ==
      "\"" + (EscapeString(m.0) + "\"" + (":\"" + (EscapeString(m.1) + "\"" + after)))
  {
  }

  /** Reading one encoded member consumes exactly that member. */
  lemma ParseEncodedMember(m: (string, string), after: string)
    ensures ParseMember(EncodeMember(m) + after) == Some((m, after))
  {
    var valueText := EscapeString(m.1) + "\"" + after;
    ReadEscapedString(m.1, after);
    var keyText := EscapeString(m.0) + "\"" + (":\"" + valueText);
    ReadEscapedString(m.0, ":\"" + valueText);
    ParseMemberOf(keyText, m.0, valueText, m.1, after);
    EncodedMemberText(m, after);
  }

  lemma ParseMembersOf(s: string, m: (string, string), tailText: string, more: seq<(string, string)>)
    requires ParseMember(s) == Some((m, "," + tailText))
    requires ParseMembers(tailText) == Some(more)
    ensures ParseMembers(s) == Some([m] + more)
  {
    assert ("," + tailText)[1..] == tailText;
  }

  lemma EncodedMembersText(ms: seq<(string, string)>)
    requires |ms| > 1
    ensures EncodeMembers(ms) + "}" == EncodeMember(ms[0]) + ("," + (EncodeMembers(ms[1..]) + "}"))
  {
    var first, others := EncodeMember(ms[0]), EncodeMembers(ms[1..]);
    assert EncodeMembers(ms) == first + "," + others;
    Regroup(first, ",", others, "}");
  }

  lemma {:induction false} ParseEncodedSingle(ms: seq<(string, string)>)
    requires |ms| == 1
    ensures ParseMembers(EncodeMembers(ms) + "}") == Some(ms)
  {
    assert EncodeMembers(ms) == EncodeMember(ms[0]);
    ParseEncodedMember(ms[0], "}");
    assert [ms[0]] == ms;
  }

  lemma {:induction false} ParseEncodedCons(ms: seq<(string, string)>)
    requires |ms| > 1
    requires ParseMembers(EncodeMembers(ms[1..]) + "}") == Some(ms[1..])
    ensures ParseMembers(EncodeMembers(ms) + "}") == Some(ms)
  {
    var tailText := EncodeMembers(ms[1..]) + "}";
    EncodedMembersText(ms);
    ParseEncodedMember(ms[0], "," + tailText);
    ParseMembersOf(EncodeMembers(ms) + "}", ms[0], tailText, ms[1..]);
    assert [ms[0]] + ms[1..] == ms;
  }

  lemma {:induction false} ParseEncodedMembers(ms: seq<(string, string)>)
    requires ms != []
    ensures ParseMembers(EncodeMembers(ms) + "}") == Some(ms)
  {
    if |ms| == 1 {
      ParseEncodedSingle(ms);
    } else {
      ParseEncodedMembers(ms[1..]);
      ParseEncodedCons(ms);
    }
  }

  /** `JSON.parse(JSON.stringify(o))` gives back the members of `o`. */
  lemma ParseEncodedObject(ms: seq<(string, string)>)
    ensures ParseObject(EncodeObject(ms)) == Some(ms)
  {
    var s := EncodeObject(ms);
    if ms != [] {
      assert s[1..] == EncodeMembers(ms) + "}";
      ParseEncodedMembers(ms);
    }
  }

  /** The value of `key` in a parsed object: the last member with that key
      wins, as in `JSON.parse`. */

  function Lookup(ms: seq<(string, string)>, key: string): (r: Option<string>)
    ensures r.None? <==> forall i :: 0 <= i < |ms| ==> ms[i].0 != key
    ensures r.Some? ==> (key, r.value) in ms
  {
    if ms == [] then None
    else if ms[|ms| - 1].0 == key then Some(ms[|ms| - 1].1)
    else Lookup(ms[..|ms| - 1], key)
  }

  /** A member appended at the end decides its key and hides nothing else. */
  lemma LookupAppend(ms: seq<(string, string)>, m: (string, string), key: string)
    ensures Lookup(ms + [m], key) == if m.0 == key then Some(m.1) else Lookup(ms, key)
  {
    assert (ms + [m])[..|ms|] == ms;
  }
}
