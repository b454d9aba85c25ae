/** The array parser (contrib/pg-array-hstore-parser/include/array_parser.hpp) and the arrays that
    src/postgres_handler.cpp writes: ids of nodes and members, and roles. */
module PgArray {
  import opened Sequences
  import opened Wrappers
  import opened Decimal

  // ----- the scanner of get_next

  datatype Part = NONE | ELEMENT | END

  datatype Scan = Scan(part: Part, quoted: bool, backslash: bool, start: nat, end: nat)

  const START := Scan(NONE, false, false, 0, 0)

  /** One turn of the loop in `get_next` at a position behind the opening brace. */
  function Step(st: Scan, pos: nat, c: char): Result<Scan>
    requires pos >= 1 && st.part != END
  {
    if st.part == NONE then
      if c == '"' then Ok(st.(quoted := true, start := pos + 1, part := ELEMENT))
      else if c != ',' && c != ' ' then Ok(st.(part := ELEMENT, start := pos))
      else Ok(st)
    else if st.quoted then
      if st.backslash then
        if c == '"' || c == '\\' then Ok(st.(backslash := false))
        else Err("is no valid escape sequence in a hstore key or value.")
      else if c == '\\' then Ok(st.(backslash := true))
      else if c == '"' then Ok(st.(end := pos - 1, part := END))
      else Ok(st)
    else if c == ' ' then Ok(st.(end := pos - 1))
    else if c == ',' || c == '}' then Ok(st.(end := if st.end == 0 then pos - 1 else st.end, part := END))
    else Ok(st)
  }

  datatype Stop = Stop(scan: Scan, pos: nat)

  function Run(text: string, pos: nat, st: Scan): Result<Stop>
    requires 1 <= pos
    decreases |text| - pos
  {
    if pos >= |text| || st.part == END then Ok(Stop(st, pos))
    else match Step(st, pos, text[pos])
      case Err(m) => Err(m)
      case Ok(next) => Run(text, pos + 1, next)
  }

  // ----- remove_escape_sequences

  function Cons(c: char, r: Result<string>): Result<string> {
    match r case Err(m) => Err(m) case Ok(s) => Ok([c] + s)
  }

  /** Remove backslashes; `pending` says that a backslash stands in front of the text. */
  function Unescape(s: string, pending: bool): Result<string> {
    if s == "" then Ok("")
    else if pending then
      if s[0] == '"' || s[0] == '\\' then Cons(s[0], Unescape(s[1..], false))
      else Err("is no valid escape sequence in a hstore key or value.")
    else if s[0] == '\\' then Unescape(s[1..], true)
    else Cons(s[0], Unescape(s[1..], false))
  }

  /** What `get_next` passes on: whether the element was quoted, and its text. */
  datatype Raw = Raw(quoted: bool, text: string)

  function Element(text: string, st: Scan): Result<Raw> {
    if st.start > st.end then Ok(Raw(st.quoted, ""))
    else if st.end >= |text| then Err("out of range")
    else match Unescape(text[st.start..st.end + 1], false)
      case Err(m) => Err(m)
      case Ok(s) => Ok(Raw(st.quoted, s))
  }

  /** `has_next`: the last character is the closing brace. An empty text has no last character. */
  predicate HasNextAt(text: string, pos: nat) {
    |text| >= 1 && pos < |text| - 1 && text[pos] != '}'
  }

  datatype Got = Got(raw: Raw, pos: nat)

  function NextAt(text: string, pos: nat): Result<Got>
    requires 1 <= pos
  {
    match Run(text, pos, START)
    case Err(m) => Err(m)
    case Ok(stop) =>
      match Element(text, stop.scan)
      case Err(m) => Err(m)
      case Ok(raw) => Ok(Got(raw, stop.pos))
  }

  lemma {:induction false} RunAdvances(text: string, pos: nat, st: Scan)
    requires 1 <= pos <= |text|
    ensures Run(text, pos, st).Ok? ==> pos <= Run(text, pos, st).value.pos <= |text|
    ensures Run(text, pos, st).Ok? && pos < |text| && st.part != END ==> pos < Run(text, pos, st).value.pos
    decreases |text| - pos
  {
    if pos < |text| && st.part != END && Step(st, pos, text[pos]).Ok? {
      RunAdvances(text, pos + 1, Step(st, pos, text[pos]).value);
    }
  }

  function ParseFrom(text: string, pos: nat): Result<seq<Raw>>
    requires 1 <= pos <= |text| || pos == 1
    decreases |text| - pos
  {
    if !HasNextAt(text, pos) then Ok([])
    else
      RunAdvances(text, pos, START);
      match NextAt(text, pos)
      case Err(m) => Err(m)
      case Ok(got) =>
        match ParseFrom(text, got.pos)
        case Err(m) => Err(m)
        case Ok(rs) => Ok([got.raw] + rs)
  }

  /** The conversions of type_conversion.hpp; an unquoted NULL is the null value of the type. */
  function ToString(r: Raw): string { if !r.quoted && r.text == "NULL" then "" else r.text }

  function ToInt64(r: Raw): int { if !r.quoted && r.text == "NULL" then 0 else StrToLL(r.text) }

  class ArrayParser {
    const text: string
    var pos: nat

    ghost predicate Valid()
      reads this
    {
      pos == 1 || 1 <= pos <= |text|
    }

    constructor (text: string)
      ensures Valid() && this.text == text && pos == 1
    {
      this.text, pos := text, 1;
    }

    /** `has_next`; on an empty text the unsigned `m_max_length - 1` is huge and `at` throws. */
    method HasNext() returns (r: Result<bool>)
      requires Valid()
      ensures r.Err? <==> text == ""
      ensures r.Ok? ==> r.value == HasNextAt(text, pos)
    {
      if |text| == 0 {
        return Err("out of range");
      }
      if pos >= |text| - 1 {
        return Ok(false);
      }
      if text[pos] == '}' {
        return Ok(false);
      }
      return Ok(true);
    }

    /** `remove_escape_sequences` with its buffer of the maximal length. */
    method RemoveEscapeSequences(start: nat, end: nat) returns (r: Result<string>)
      ensures start > end ==> r == Ok("")
      ensures start <= end < |text| ==>
                match Unescape(text[start..end + 1], false) case Err(_) => r.Err? case Ok(s) => r == Ok(s)
      ensures start <= end && end >= |text| ==> r.Err?
    {
      if start > end {
        return Ok("");
      }
      if end >= |text| {
        return Err("out of range");
      }
      var result := seq(end - start + 1, _ => '\0');
      var n := 0;
      var src := start;
      var backslash := false;
      assert Joined(result[..0], Unescape(text[start..end + 1], false)) == Unescape(text[start..end + 1], false) by {
        JoinedNothing(Unescape(text[start..end + 1], false));
      }
      while n <= end - start && src <= end
        invariant n <= src - start && src <= end + 1 && |result| == end - start + 1
        invariant Joined(result[..n], Unescape(text[src..end + 1], backslash)) == Unescape(text[start..end + 1], false)
      {
        var c := text[src];
        ghost var s := text[src..end + 1];
        assert s[0] == c && s[1..] == text[src + 1..end + 1];
        JoinedCons(result[..n], c, Unescape(s[1..], false));
        if backslash {
          if c != '"' && c != '\\' {
            return Err("is no valid escape sequence in a hstore key or value.");
          }
          result := result[n := c];
          backslash := false;
          n := n + 1;
          assert result[..n] == result[..n - 1] + [c];
        } else if c == '\\' {
          backslash := true;
        } else {
          result := result[n := c];
          n := n + 1;
          assert result[..n] == result[..n - 1] + [c];
        }
        src := src + 1;
      }
      assert text[src..end + 1] == "";
      assert result[..n] + "" == result[..n];
      return Ok(result[..n]);
    }

    /** `get_next` without the conversion of the element. */
    method GetNext() returns (r: Result<Raw>)
      requires Valid()
      modifies this`pos
      ensures Valid()
      ensures match NextAt(text, old(pos)) case Err(_) => r.Err? case Ok(got) => r == Ok(got.raw) && pos == got.pos
    {
      var part := NONE;
      var backslash, quoted := false, false;
      var start: nat, end: nat := 0, 0;
      while part != END && pos < |text|
        invariant Valid()
        invariant Run(text, pos, Scan(part, quoted, backslash, start, end)) == Run(text, old(pos), START)
        decreases |text| - pos
      {
        var c := text[pos];
        ghost var st := Scan(part, quoted, backslash, start, end);
        if part == NONE {
          if c == '"' {
            quoted := true;
            start := pos + 1;
            part := ELEMENT;
          } else if c != ',' && c != ' ' {
            part := ELEMENT;
            start := pos;
          }
        } else if quoted {
          if backslash {
            if c != '"' && c != '\\' {
              return Err("is no valid escape sequence in a hstore key or value.");
            }
            backslash := false;
          } else if c == '\\' {
            backslash := true;
          } else if c == '"' {
            end := pos - 1;
            part := END;
          }
        } else {
          if c == ' ' {
            end := pos - 1;
          } else if c == ',' || c == '}' {
            if end == 0 {
              end := pos - 1;
            }
            part := END;
          }
        }
        assert Step(st, pos, c) == Ok(Scan(part, quoted, backslash, start, end));
        pos := pos + 1;
      }
      var s := RemoveEscapeSequences(start, end);
      if s.Err? {
        return Err(s.message);
      }
      return Ok(Raw(quoted, s.value));
    }
  }

  /** The documented loop over the elements. */
  method ParseAll(text: string) returns (r: Result<seq<Raw>>)
    ensures text == "" ==> r.Err?
    ensures text != "" ==> match ParseFrom(text, 1) case Err(_) => r.Err? case Ok(raws) => r == Ok(raws)
  {
    hide Run, HasNextAt;
    var parser := new ArrayParser(text);
    var raws: seq<Raw> := [];
    CombinedNothing(ParseFrom(text, 1));
    var more := parser.HasNext();
    while more == Ok(true)
      invariant fresh(parser) && parser.Valid() && parser.text == text
      invariant if text == "" then more.Err? else more == Ok(HasNextAt(text, parser.pos))
      invariant Combined(raws, ParseFrom(text, parser.pos)) == ParseFrom(text, 1)
      decreases |text| - parser.pos
    {
      MoreIsInside(text, parser.pos);
      RunAdvances(text, parser.pos, START);
      var raw := parser.GetNext();
      if raw.Err? {
        return Err(raw.message);
      }
      CombinedStep(raws, raw.value, ParseFrom(text, parser.pos));
      raws := raws + [raw.value];
      more := parser.HasNext();
    }
    if more.Err? {
      return Err(more.message);
    }
    assert raws + [] == raws;
    return Ok(raws);
  }

  lemma MoreIsInside(text: string, pos: nat)
    ensures HasNextAt(text, pos) ==> pos < |text|
  {
  }

  function Joined(s: string, r: Result<string>): Result<string> {
    match r case Err(m) => Err(m) case Ok(t) => Ok(s + t)
  }

  lemma JoinedCons(s: string, c: char, r: Result<string>)
    ensures Joined(s + [c], r) == Joined(s, Cons(c, r))
  {
    if r.Ok? { Assoc(s, [c], r.value); }
  }

  lemma JoinedNothing(r: Result<string>)
    ensures Joined("", r) == r
  {
    if r.Ok? { assert "" + r.value == r.value; }
  }

  // ----- quoted elements never raise in remove_escape_sequences

  lemma {:induction false} ScannedQuoted(text: string, pos: nat, st: Scan)
    requires 1 <= pos <= |text| && st.part == ELEMENT && st.quoted && st.end == 0
    ensures Run(text, pos, st).Ok? ==>
              var e := Run(text, pos, st).value.scan;
              && e.start == st.start && e.quoted
              && (e.part != END ==> e.end == 0)
              && (e.part == END ==> pos <= e.end + 1 <= |text| && Unescape(text[pos..e.end + 1], st.backslash).Ok?)
    decreases |text| - pos
  {
    if pos < |text| && Step(st, pos, text[pos]).Ok? {
      var next := Step(st, pos, text[pos]).value;
      if next.part == END {
        assert text[pos..next.end + 1] == "";
      } else {
        ScannedQuoted(text, pos + 1, next);
        if Run(text, pos + 1, next).Ok? {
          var e := Run(text, pos + 1, next).value.scan;
          if e.part == END {
            var s := text[pos..e.end + 1];
            assert s[1..] == text[pos + 1..e.end + 1];
          }
        }
      }
    }
  }

  /** Whatever the text: if `get_next` delimits a quoted element, removing its escape sequences succeeds. */
  lemma {:induction false} QuotedElementsUnescape(text: string, pos: nat)
    requires 1 <= pos <= |text|
    ensures Run(text, pos, START).Ok? && Run(text, pos, START).value.scan.quoted ==>
              Element(text, Run(text, pos, START).value.scan).Ok?
    decreases |text| - pos
  {
    if pos < |text| {
      var st := Step(START, pos, text[pos]).value;
      if st.part == NONE {
        QuotedElementsUnescape(text, pos + 1);
      } else if st.quoted {
        ScannedQuoted(text, pos + 1, st);
      } else {
        UnquotedStays(text, pos + 1, st);
      }
    }
  }

  lemma {:induction false} UnquotedStays(text: string, pos: nat, st: Scan)
    requires 1 <= pos && st.part != NONE && !st.quoted
    ensures Run(text, pos, st).Ok? ==> !Run(text, pos, st).value.scan.quoted
    decreases |text| - pos
  {
    if pos < |text| && st.part != END { UnquotedStays(text, pos + 1, Step(st, pos, text[pos]).value); }
  }

  // ----- unquoted elements: when remove_escape_sequences raises

  /** How many backslashes stand directly in front of position i. */
  function BackslashesBefore(s: string, i: nat): nat
    requires i <= |s|
  {
    if i == 0 || s[i - 1] != '\\' then 0 else 1 + BackslashesBefore(s, i - 1)
  }

  predicate Escapable(c: char) { c == '"' || c == '\\' }

  /** A character that cannot be escaped stands behind an odd number of backslashes. */
  ghost predicate BadEscapeAt(s: string, i: nat)
    requires i < |s|
  {
    !Escapable(s[i]) && BackslashesBefore(s, i) % 2 == 1
  }

  ghost predicate BadEscape(s: string) { exists i: nat :: i < |s| && BadEscapeAt(s, i) }

  lemma {:induction false} UnescapeFails(s: string, k: nat)
    requires k <= |s|
    ensures Unescape(s[k..], BackslashesBefore(s, k) % 2 == 1).Err? <==>
            exists i: nat :: k <= i < |s| && BadEscapeAt(s, i)
    decreases |s| - k
  {
    if k < |s| {
      hide BadEscapeAt;
      BackslashStep(s, k);
      UnescapeFails(s, k + 1);
      if i: nat :| k <= i < |s| && BadEscapeAt(s, i) {
        assert i == k || k + 1 <= i;
      }
    }
  }

  lemma BackslashStep(s: string, k: nat)
    requires k < |s|
    ensures var pending, next := BackslashesBefore(s, k) % 2 == 1, BackslashesBefore(s, k + 1) % 2 == 1;
            Unescape(s[k..], pending).Err? <==> BadEscapeAt(s, k) || Unescape(s[k + 1..], next).Err?
  {
    assert s[k..][0] == s[k] && s[k..][1..] == s[k + 1..];
  }

  lemma UnescapeFailsIff(s: string)
    ensures Unescape(s, false).Err? <==> BadEscape(s)
  {
    UnescapeFails(s, 0);
    assert s[0..] == s;
  }

  /** The range that `get_next` delimits lies inside the text. */
  lemma {:induction false} RangeInside(text: string, pos: nat, st: Scan)
    requires 1 <= pos <= |text| && st.end < pos
    ensures Run(text, pos, st).Ok? ==> Run(text, pos, st).value.scan.end < |text|
    decreases |text| - pos
  {
    if pos < |text| && st.part != END && Step(st, pos, text[pos]).Ok? {
      RangeInside(text, pos + 1, Step(st, pos, text[pos]).value);
    }
  }

  /** For every text and position: removing the escape sequences of a delimited element raises exactly for an
      unquoted element in which an odd number of backslashes stands before a character that cannot be escaped. */
  lemma ElementRaisesIff(text: string, pos: nat)
    requires 1 <= pos <= |text|
    ensures Run(text, pos, START).Ok? ==>
              var e := Run(text, pos, START).value.scan;
              && e.end < |text|
              && (Element(text, e).Err? <==> !e.quoted && e.start <= e.end && BadEscape(text[e.start..e.end + 1]))
  {
    hide Run, Unescape, BadEscape;
    RangeInside(text, pos, START);
    QuotedElementsUnescape(text, pos);
    if Run(text, pos, START).Ok? {
      var e := Run(text, pos, START).value.scan;
      if e.start <= e.end { UnescapeFailsIff(text[e.start..e.end + 1]); }
    }
  }

  // ----- unquoted elements: where they end

  /** No separator in this range. */
  predicate NoEnd(text: string, i: nat, q: nat)
    requires q <= |text|
  {
    forall j :: i <= j < q ==> text[j] != ',' && text[j] != '}'
  }

  /** The last space of a range. */
  ghost predicate LastSpace(text: string, i: nat, q: nat, at: nat)
    requires q <= |text|
  {
    i <= at < q && text[at] == ' ' && forall j :: at < j < q ==> text[j] != ' '
  }

  /** The end is in front of the last space of a range; without a space it is `otherwise`. */
  ghost predicate EndsAt(text: string, i: nat, q: nat, end: int, otherwise: int)
    requires q <= |text|
  {
    && (forall at: nat :: LastSpace(text, i, q, at) ==> end == at - 1)
    && ((forall j: nat :: i <= j < q ==> text[j] != ' ') ==> end == otherwise)
  }

  lemma {:induction false} ScannedUnquoted(text: string, pos: nat, q: nat, st: Scan)
    requires 2 <= pos <= q < |text| && NoEnd(text, pos, q) && (text[q] == ',' || text[q] == '}')
    requires st.part == ELEMENT && !st.quoted
    ensures Run(text, pos, st).Ok?
    ensures var stop := Run(text, pos, st).value;
            && stop.scan == st.(part := END, end := stop.scan.end) && stop.pos == q + 1
            && EndsAt(text, pos, q, stop.scan.end, if st.end == 0 then q - 1 else st.end)
    decreases q - pos
  {
    if pos < q {
      var next := Step(st, pos, text[pos]).value;
      ScannedUnquoted(text, pos + 1, q, next);
      forall at: nat | LastSpace(text, pos, q, at) ensures Run(text, pos, st).value.scan.end == at - 1 {
        if at > pos { assert LastSpace(text, pos + 1, q, at); }
      }
    }
  }

  /** An unquoted element goes up to the separator, or, if there is a space, up to the last one. */
  lemma UnquotedElement(text: string, pos: nat, q: nat)
    requires 1 <= pos < q < |text| && NoEnd(text, pos + 1, q) && (text[q] == ',' || text[q] == '}')
    requires text[pos] != '"' && text[pos] != ',' && text[pos] != ' '
    ensures Run(text, pos, START).Ok?
    ensures var stop := Run(text, pos, START).value;
            && stop.scan == Scan(END, false, false, pos, stop.scan.end) && stop.pos == q + 1
            && EndsAt(text, pos + 1, q, stop.scan.end, q - 1)
  {
    ScannedUnquoted(text, pos + 1, q, START.(part := ELEMENT, start := pos));
  }

  /** Both cases occur: an unquoted a\b raises. */
  lemma OneBackslashRaises()
    ensures NextAt("{a\\b}", 1).Err?
  {
    var t := "{a\\b}";
    var s1 := START.(part := ELEMENT, start := 1);
    assert Run(t, 1, START) == Run(t, 2, s1) == Run(t, 3, s1) == Run(t, 4, s1);
    assert Run(t, 4, s1) == Ok(Stop(s1.(end := 3, part := END), 5));
    hide Run;
    assert t[1..4] == "a\\b" && "a\\b"[1..] == "\\b" && "\\b"[1..] == "b";
    assert Unescape("b", true).Err? && Unescape("\\b", false).Err? && Unescape("a\\b", false).Err?;
  }

  /** And with two backslashes it does not. */
  lemma TwoBackslashesAreRead()
    ensures NextAt("{a\\\\b}", 1) == Ok(Got(Raw(false, "a\\b"), 6))
  {
    var u := "{a\\\\b}";
    var s1 := START.(part := ELEMENT, start := 1);
    assert Run(u, 1, START) == Run(u, 2, s1) == Run(u, 3, s1) == Run(u, 4, s1) == Run(u, 5, s1);
    assert Run(u, 5, s1) == Ok(Stop(s1.(end := 4, part := END), 6));
    hide Run;
    assert u[1..5] == "a\\\\b";
    EscapedPair();
  }

  lemma EscapedPair()
    ensures Unescape("a\\\\b", false) == Ok("a\\b")
  {
    assert "a\\\\b"[1..] == "\\\\b" && "\\\\b"[1..] == "\\b" && "\\b"[1..] == "b" && "b"[1..] == "";
    assert ['b'] + "" == "b" && ['\\'] + "b" == "\\b" && ['a'] + "\\b" == "a\\b";
    assert Unescape("", false) == Ok("") && Unescape("b", false) == Ok("b");
    assert Unescape("\\b", true) == Cons('\\', Unescape("b", false)) == Ok("\\b");
    assert Unescape("\\\\b", false) == Unescape("\\b", true);
  }
}
