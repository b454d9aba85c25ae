/** The text encodings of src/postgres_table.cpp and what the database makes of them: the text
    format of COPY (PostgreSQL manual, COPY, "Text Format"). */
module CopyText {
  import opened Sequences
  import opened Wrappers

  /** A string with every character replaced by a text. */
  function MapChars(s: string, f: char -> string): string {
    if s == "" then "" else f(s[0]) + MapChars(s[1..], f)
  }

  lemma {:induction false} MapCharsAppend(a: string, b: string, f: char -> string)
    ensures MapChars(a + b, f) == MapChars(a, f) + MapChars(b, f)
  {
    if a == "" {
      assert a + b == b;
    } else {
      assert (a + b)[1..] == a[1..] + b;
      MapCharsAppend(a[1..], b, f);
      Assoc(f(a[0]), MapChars(a[1..], f), MapChars(b, f));
    }
  }

  // ----- what the three escapers write for one character

  /** Backspace, form feed and vertical tab. */
  const BS := 8 as char
  const FF := 12 as char
  const VT := 11 as char

  function PlainChar(c: char): string {
    if c == '\\' || c == BS || c == FF || c == '\n' || c == '\r' || c == '\t' || c == VT then ['\\', c] else [c]
  }

  function HstoreChar(c: char): string {
    if c == '\\' then "\\\\\\\\"
    else if c == '"' then "\\\\\""
    else if c == '\t' || c == '\r' || c == '\n' then ['\\', c]
    else [c]
  }

  function ArrayChar(c: char): string {
    if c == '\\' then "\\\\\\\\"
    else if c == '"' then "\\\\\""
    else if c == '\n' then "\\\\n"
    else if c == '\r' then "\\\\r"
    else if c == '\t' then "\\\\t"
    else [c]
  }

  function Escaped(s: string): string { MapChars(s, PlainChar) }

  /** A key or value in an hstore field, as sent. */
  function HstoreEscaped(s: string): string { "\"" + MapChars(s, HstoreChar) + "\"" }

  function ArrayEscaped(s: string): string { MapChars(s, ArrayChar) }

  // ----- the escapers

  /** `PostgresTable::escape`; a null pointer becomes the NULL of COPY. */
  method Escape(source: Option<string>, destination: string) returns (d: string)
    ensures d == destination + if source.None? then "\\N" else Escaped(source.value)
  {
    d := destination;
    if source.None? {
      return d + "\\N";
    }
    var s := source.value;
    for i := 0 to |s|
      invariant d == destination + Escaped(s[..i])
    {
      ghost var before := d;
      match s[i] {
        case '\\' => d := d + "\\\\";
        case '\n' => d := d + "\\\n";
        case '\r' => d := d + "\\\r";
        case '\t' => d := d + "\\\t";
        case _ =>
          if s[i] == BS || s[i] == FF || s[i] == VT {
            d := d + ['\\', s[i]];
          } else {
            d := d + [s[i]];
          }
      }
      EscapeStep(before, destination, s, i, PlainChar);
    }
    assert s[..|s|] == s;
  }

  method Escape4Hstore(source: string, destination: string) returns (d: string)
    ensures d == destination + HstoreEscaped(source)
  {
    d := destination + "\"";
    for i := 0 to |source|
      invariant d == destination + "\"" + MapChars(source[..i], HstoreChar)
    {
      ghost var before := d;
      match source[i] {
        case '\\' => d := d + "\\\\\\\\";
        case '"' => d := d + "\\\\\"";
        case '\t' => d := d + "\\\t";
        case '\r' => d := d + "\\\r";
        case '\n' => d := d + "\\\n";
        case _ => d := d + [source[i]];
      }
      EscapeStep(before, destination + "\"", source, i, HstoreChar);
    }
    d := d + "\"";
    assert source[..|source|] == source;
    Assoc(destination, "\"", MapChars(source, HstoreChar));
    Assoc(destination, "\"" + MapChars(source, HstoreChar), "\"");
  }

  method Escape4Array(source: string, destination: string) returns (d: string)
    ensures d == destination + ArrayEscaped(source)
  {
    d := destination;
    for i := 0 to |source|
      invariant d == destination + MapChars(source[..i], ArrayChar)
    {
      ghost var before := d;
      match source[i] {
        case '\\' => d := d + "\\\\\\\\";
        case '"' => d := d + "\\\\\"";
        case '\n' => d := d + "\\\\n";
        case '\r' => d := d + "\\\\r";
        case '\t' => d := d + "\\\\t";
        case _ => d := d + [source[i]];
      }
      EscapeStep(before, destination, source, i, ArrayChar);
    }
    assert source[..|source|] == source;
  }

  lemma EscapeStep(d: string, destination: string, s: string, i: nat, f: char -> string)
    requires i < |s| && d == destination + MapChars(s[..i], f)
    ensures d + f(s[i]) == destination + MapChars(s[..i + 1], f)
  {
    assert s[..i + 1] == s[..i] + [s[i]];
    MapCharsAppend(s[..i], [s[i]], f);
    Assoc(destination, MapChars(s[..i], f), f(s[i]));
  }

  // ----- COPY text

  /** What a backslash and a character stand for; octal and hexadecimal codes are not used here. */
  function CopyEscape(c: char): Option<char> {
    match c
    case 'b' => Some(BS)
    case 'f' => Some(FF)
    case 'n' => Some('\n')
    case 'r' => Some('\r')
    case 't' => Some('\t')
    case 'v' => Some(VT)
    case _ => if '0' <= c <= '9' || c == 'x' || c == 'N' then None else Some(c)
  }

  function Prepend(c: string, s: Option<string>): Option<string> {
    if s.None? then None else Some(c + s.value)
  }

  /** The content of one field. */
  function CopyDecode(s: string): Option<string> {
    if s == "" then Some("")
    else if s[0] != '\\' then Prepend([s[0]], CopyDecode(s[1..]))
    else if |s| < 2 || CopyEscape(s[1]).None? then None
    else Prepend([CopyEscape(s[1]).value], CopyDecode(s[2..]))
  }

  /** A field that is exactly \N is NULL. */
  datatype Field = Null | Text(text: string) | Broken

  function FieldOf(s: string): Field {
    if s == "\\N" then Null
    else match CopyDecode(s)
      case None => Broken
      case Some(t) => Text(t)
  }

  /** Split at raw tabs; a backslash protects the character behind it. */
  function Fields(s: string): (fs: seq<string>)
    ensures |fs| >= 1
  {
    if s == "" then [""]
    else if s[0] == '\t' then [""] + Fields(s[1..])
    else
      var n := if s[0] == '\\' && |s| > 1 then 2 else 1;
      var rest := Fields(s[n..]);
      [s[..n] + rest[0]] + rest[1..]
  }

  /** A text in which backslashes come in pairs with the next character and no raw tab or line end occurs. */
  predicate Solid(s: string) {
    s == "" ||
    (if s[0] == '\\' then |s| > 1 && Solid(s[2..]) else s[0] != '\t' && s[0] != '\n' && s[0] != '\r' && Solid(s[1..]))
  }

  lemma {:induction false} SolidAppend(a: string, b: string)
    requires Solid(a) && Solid(b)
    ensures Solid(a + b)
  {
    if a == "" {
      assert a + b == b;
    } else {
      var n := if a[0] == '\\' then 2 else 1;
      assert (a + b)[n..] == a[n..] + b;
      SolidAppend(a[n..], b);
    }
  }

  lemma {:induction false} SolidMapChars(s: string, f: char -> string)
    requires forall c :: Solid(f(c))
    ensures Solid(MapChars(s, f))
  {
    if s != "" {
      SolidMapChars(s[1..], f);
      SolidAppend(f(s[0]), MapChars(s[1..], f));
    }
  }

  lemma EscapersSolid(c: char)
    ensures Solid(PlainChar(c)) && Solid(HstoreChar(c)) && Solid(ArrayChar(c))
  {
    PairSolid(c);
    if c == '\\' { assert Solid("\\\\"); assert "\\\\\\\\"[2..] == "\\\\"; }
    if c == '"' { assert "\\\\\""[2..] == "\""; }
    assert "\\\\n"[2..] == "n" && "\\\\r"[2..] == "r" && "\\\\t"[2..] == "t";
    assert "n"[1..] == "" && "r"[1..] == "" && "t"[1..] == "" && "\""[1..] == "";
  }

  lemma PairSolid(c: char)
    ensures Solid(['\\', c])
    ensures c != '\\' && c != '\t' && c != '\n' && c != '\r' ==> Solid([c])
  {
    assert ['\\', c][2..] == "";
    assert [c][1..] == "";
  }

  lemma EscapedSolid(s: string)
    ensures Solid(Escaped(s)) && Solid(HstoreEscaped(s)) && Solid(ArrayEscaped(s))
  {
    forall c ensures Solid(PlainChar(c)) && Solid(HstoreChar(c)) && Solid(ArrayChar(c)) {
      EscapersSolid(c);
    }
    SolidMapChars(s, PlainChar);
    SolidMapChars(s, HstoreChar);
    SolidMapChars(s, ArrayChar);
    PairSolid('"');
    SolidAppend("\"", MapChars(s, HstoreChar));
    SolidAppend("\"" + MapChars(s, HstoreChar), "\"");
  }

  /** A solid text up to a raw tab is exactly one field. */
  lemma {:induction false} SolidIsOneField(a: string, rest: string)
    requires Solid(a)
    ensures Fields(a + "\t" + rest) == [a] + Fields(rest)
    ensures Fields(a) == [a]
  {
    if a == "" {
      assert a + "\t" + rest == "\t" + rest;
      assert ("\t" + rest)[1..] == rest;
    } else {
      var n := if a[0] == '\\' then 2 else 1;
      SolidIsOneField(a[n..], rest);
      var s := a + "\t" + rest;
      assert s[n..] == a[n..] + "\t" + rest;
      assert s[..n] == a[..n];
      assert a[..n] + a[n..] == a;
    }
  }

  // ----- what decoding gives back

  /** Decoding goes character by character, so it distributes over texts that decode on their own. */
  lemma {:induction false} CopyDecodeMap(s: string, f: char -> string, g: char -> string, rest: string)
    requires forall c, more :: CopyDecode(f(c) + more) == Prepend(g(c), CopyDecode(more))
    ensures CopyDecode(MapChars(s, f) + rest) == Prepend(MapChars(s, g), CopyDecode(rest))
  {
    if s == "" {
      assert MapChars(s, f) + rest == rest;
      if CopyDecode(rest).Some? { assert "" + CopyDecode(rest).value == CopyDecode(rest).value; }
    } else {
      CopyDecodeMap(s[1..], f, g, rest);
      Assoc(f(s[0]), MapChars(s[1..], f), rest);
      assert CopyDecode(f(s[0]) + (MapChars(s[1..], f) + rest))
             == Prepend(g(s[0]), CopyDecode(MapChars(s[1..], f) + rest));
      if CopyDecode(rest).Some? { Assoc(g(s[0]), MapChars(s[1..], g), CopyDecode(rest).value); }
    }
  }

  lemma DecodePair(c: char, more: string)
    requires CopyEscape(c) == Some(c)
    ensures CopyDecode(['\\', c] + more) == Prepend([c], CopyDecode(more))
  {
    assert (['\\', c] + more)[2..] == more;
  }

  lemma DecodeSingle(c: char, more: string)
    requires c != '\\'
    ensures CopyDecode([c] + more) == Prepend([c], CopyDecode(more))
  {
    assert ([c] + more)[1..] == more;
  }

  /** The identity on characters, as one-character texts. */
  function Self(c: char): string { [c] }

  lemma {:induction false} MapSelf(s: string)
    ensures MapChars(s, Self) == s
  {
    if s != "" { MapSelf(s[1..]); }
  }

  /** `escape` and COPY: every string comes back, and none is mistaken for NULL. */
  lemma EscapeRoundTrip(s: string)
    ensures FieldOf(Escaped(s)) == Text(s)
  {
    forall c, more ensures CopyDecode(PlainChar(c) + more) == Prepend(Self(c), CopyDecode(more)) {
    }
    CopyDecodeMap(s, PlainChar, Self, "");
    MapSelf(s);
    assert Escaped(s) + "" == Escaped(s) && s + "" == s;
    assert CopyDecode("\\N") == None;
  }

  /** Behind COPY an hstore character keeps one level of escaping. */
  function HstoreQuoted(c: char): string {
    if c == '\\' then "\\\\" else if c == '"' then "\\\"" else [c]
  }

  function ArrayQuoted(c: char): string {
    if c == '\\' then "\\\\" else if c == '"' then "\\\""
    else if c == '\n' then "\\n" else if c == '\r' then "\\r" else if c == '\t' then "\\t"
    else [c]
  }

  lemma TwoEscapes(d: char, more: string)
    requires d != '\\'
    ensures CopyDecode(['\\', '\\', d] + more) == Prepend(['\\', d], CopyDecode(more))
  {
    assert ['\\', '\\', d] + more == ['\\', '\\'] + ([d] + more);
    DecodePair('\\', [d] + more);
    DecodeSingle(d, more);
    assert ['\\'] + [d] == ['\\', d];
    if CopyDecode(more).Some? { Assoc(['\\'], [d], CopyDecode(more).value); }
  }

  lemma FourBackslashes(more: string)
    ensures CopyDecode("\\\\\\\\" + more) == Prepend("\\\\", CopyDecode(more))
  {
    assert "\\\\\\\\" + more == ['\\', '\\'] + (['\\', '\\'] + more);
    DecodePair('\\', ['\\', '\\'] + more);
    DecodePair('\\', more);
    assert ['\\'] + ['\\'] == "\\\\";
    if CopyDecode(more).Some? { Assoc(['\\'], ['\\'], CopyDecode(more).value); }
  }

  lemma HstoreCharDecodes(c: char, more: string)
    ensures CopyDecode(HstoreChar(c) + more) == Prepend(HstoreQuoted(c), CopyDecode(more))
  {
    if c == '\\' { FourBackslashes(more); }
    else if c == '"' { TwoEscapes('"', more); }
    else if HstoreChar(c) == [c] { DecodeSingle(c, more); }
    else { DecodePair(c, more); }
  }

  lemma ArrayCharDecodes(c: char, more: string)
    ensures CopyDecode(ArrayChar(c) + more) == Prepend(ArrayQuoted(c), CopyDecode(more))
  {
    if c == '\\' { FourBackslashes(more); }
    else if c == '"' { TwoEscapes('"', more); }
    else if c == '\n' { TwoEscapes('n', more); }
    else if c == '\r' { TwoEscapes('r', more); }
    else if c == '\t' { TwoEscapes('t', more); }
    else { DecodeSingle(c, more); }
  }

  /** A key or value as the hstore type reads it. */
  function HstoreQuote(s: string): string { "\"" + MapChars(s, HstoreQuoted) + "\"" }

  function ArrayQuote(s: string): string { "\"" + MapChars(s, ArrayQuoted) + "\"" }

  lemma HstoreEscapedDecodes(s: string, more: string)
    ensures CopyDecode(HstoreEscaped(s) + more) == Prepend(HstoreQuote(s), CopyDecode(more))
  {
    forall c, m ensures CopyDecode(HstoreChar(c) + m) == Prepend(HstoreQuoted(c), CopyDecode(m)) {
      HstoreCharDecodes(c, m);
    }
    QuotedDecodes(s, HstoreChar, HstoreQuoted, more);
  }

  lemma ArrayEscapedDecodes(s: string, more: string)
    ensures CopyDecode("\"" + ArrayEscaped(s) + "\"" + more) == Prepend(ArrayQuote(s), CopyDecode(more))
  {
    forall c, m ensures CopyDecode(ArrayChar(c) + m) == Prepend(ArrayQuoted(c), CopyDecode(m)) {
      ArrayCharDecodes(c, m);
    }
    QuotedDecodes(s, ArrayChar, ArrayQuoted, more);
  }

  lemma QuotedDecodes(s: string, f: char -> string, g: char -> string, more: string)
    requires forall c, m :: CopyDecode(f(c) + m) == Prepend(g(c), CopyDecode(m))
    ensures CopyDecode("\"" + MapChars(s, f) + "\"" + more) == Prepend("\"" + MapChars(s, g) + "\"", CopyDecode(more))
  {
    var inner := MapChars(s, f);
    Assoc("\"" + inner, "\"", more);
    Assoc("\"", inner, "\"" + more);
    DecodeSingle('"', inner + ("\"" + more));
    CopyDecodeMap(s, f, g, "\"" + more);
    DecodeSingle('"', more);
    if CopyDecode(more).Some? {
      var m := CopyDecode(more).value;
      Assoc("\"" + MapChars(s, g), "\"", m);
      Assoc("\"", MapChars(s, g), "\"" + m);
    }
  }
}
