/** The arrays that src/postgres_handler.cpp writes (lines 68 to 105) and what `ArrayParser` reads
    from them once COPY has decoded the field. */
module ArrayText {
  import opened Sequences
  import opened Wrappers
  import opened CopyText
  import opened Decimal
  import opened Members
  import opened PgArray

  /** Printed elements, each behind the separator, and the closing brace. */
  function Tail(elements: seq<string>): string {
    if elements == [] then "}" else ", " + elements[0] + Tail(elements[1..])
  }

  function Braced(elements: seq<string>): string {
    if elements == [] then "{}" else "{" + elements[0] + Tail(elements[1..])
  }

  function Strings<T>(xs: seq<T>, f: T -> string): (r: seq<string>)
    ensures |r| == |xs| && forall i :: 0 <= i < |xs| ==> r[i] == f(xs[i])
  {
    if xs == [] then [] else [f(xs[0])] + Strings(xs[1..], f)
  }

  function SentRole(role: string): string { "\"" + ArrayEscaped(role) + "\"" }

  function MemberRef(m: Member): string { Print(m.ref) }

  function MemberRole(m: Member): string { SentRole(m.role) }

  // ----- the loops

  /** The text before the closing brace. */
  function Opened(elements: seq<string>): string {
    if elements == [] then "{"
    else if |elements| == 1 then "{" + elements[0]
    else Opened(elements[..|elements| - 1]) + ", " + elements[|elements| - 1]
  }

  lemma {:induction false} OpenedThenTail(front: seq<string>, back: seq<string>)
    requires front != []
    ensures Opened(front) + Tail(back) == Braced(front + back)
  {
    var last := |front| - 1;
    if last == 0 {
      assert front + back == [front[0]] + back;
      assert (front + back)[1..] == back;
      assert Opened(front) == "{" + front[0];
    } else {
      OpenedThenTail(front[..last], [front[last]] + back);
      assert front[..last] + ([front[last]] + back) == front + back;
      assert ([front[last]] + back)[1..] == back;
      Assoc(Opened(front[..last]), ", ", front[last]);
      Assoc(Opened(front[..last]), ", " + front[last], Tail(back));
    }
  }

  lemma Closed(elements: seq<string>)
    ensures Opened(elements) + "}" == Braced(elements)
  {
    if elements != [] {
      OpenedThenTail(elements, []);
      assert elements + [] == elements;
    }
  }

  lemma OpenedStep<T>(q: string, query: string, xs: seq<T>, f: T -> string, i: nat)
    requires i < |xs|
    requires q == query + Opened(Strings(xs[..i], f))
    ensures (if i > 0 then q + ", " else q) + f(xs[i]) == query + Opened(Strings(xs[..i + 1], f))
  {
    var front := Strings(xs[..i], f);
    var whole := Strings(xs[..i + 1], f);
    assert whole[..i] == front && whole[i] == f(xs[i]);
    if i == 0 {
      Assoc(query, "{", f(xs[i]));
    } else {
      Assoc(query, Opened(front), ", ");
      Assoc(query, Opened(front) + ", ", f(xs[i]));
    }
  }

  lemma NothingOpened<T>(xs: seq<T>, f: T -> string)
    ensures Opened(Strings(xs[..0], f)) == "{"
  {
  }

  predicate AllFit(ids: seq<int>) { forall i :: 0 <= i < |ids| ==> Fits(ids[i]) }

  /** `add_way_nodes`; `fits` is whether no id is printed over the end of the buffer. */
  method AddWayNodes(nodes: seq<int>, query: string) returns (q: string, fits: bool)
    ensures fits <==> AllFit(nodes)
    ensures fits ==> q == query + Braced(Strings(nodes, Print))
  {
    hide Fits, Digits, Strings, Opened, Braced;
    q, fits := query + "{", true;
    NothingOpened(nodes, Print);
    for i := 0 to |nodes|
      invariant q == query + Opened(Strings(nodes[..i], Print))
      invariant forall j :: 0 <= j < i ==> Fits(nodes[j])
    {
      OpenedStep(q, query, nodes, Print, i);
      if i > 0 {
        q := q + ", ";
      }
      if !Fits(nodes[i]) {
        return q, false;
      }
      q := q + Print(nodes[i]);
    }
    Assoc(query, Opened(Strings(nodes[..|nodes|], Print)), "}");
    assert nodes[..|nodes|] == nodes;
    Closed(Strings(nodes, Print));
    q := q + "}";
  }

  /** `add_member_ids`, with the same buffer */
  method AddMemberIds(members: seq<Member>, query: string) returns (q: string, fits: bool)
    ensures fits <==> forall i :: 0 <= i < |members| ==> Fits(members[i].ref)
    ensures fits ==> q == query + Braced(Strings(members, MemberRef))
  {
    hide Fits, Digits, Strings, Opened, Braced;
    q, fits := query + "{", true;
    NothingOpened(members, MemberRef);
    for i := 0 to |members|
      invariant q == query + Opened(Strings(members[..i], MemberRef))
      invariant forall j :: 0 <= j < i ==> Fits(members[j].ref)
    {
      OpenedStep(q, query, members, MemberRef, i);
      if i > 0 {
        q := q + ", ";
      }
      if !Fits(members[i].ref) {
        return q, false;
      }
      q := q + Print(members[i].ref);
    }
    Assoc(query, Opened(Strings(members[..|members|], MemberRef)), "}");
    assert members[..|members|] == members;
    Closed(Strings(members, MemberRef));
    q := q + "}";
  }

  /** `add_member_roles` */
  method AddMemberRoles(members: seq<Member>, query: string) returns (q: string)
    ensures q == query + Braced(Strings(members, MemberRole))
  {
    q := query + "{";
    for i := 0 to |members|
      invariant q == query + Opened(Strings(members[..i], MemberRole))
    {
      OpenedStep(q, query, members, MemberRole, i);
      if i > 0 {
        q := q + ", ";
      }
      ghost var before := q;
      q := q + "\"";
      q := Escape4Array(members[i].role, q);
      q := q + "\"";
      Assoc(before, "\"", ArrayEscaped(members[i].role));
      Assoc(before, "\"" + ArrayEscaped(members[i].role), "\"");
    }
    Assoc(query, Opened(Strings(members[..|members|], MemberRole)), "}");
    assert members[..|members|] == members;
    Closed(Strings(members, MemberRole));
    q := q + "}";
  }

  // ----- COPY

  /** Printing an element with `f` and decoding it gives `g` of the element. */
  ghost predicate DecodesTo<T(!new)>(f: T -> string, g: T -> string) {
    forall x, more :: CopyDecode(f(x) + more) == Prepend(g(x), CopyDecode(more))
  }

  lemma {:induction false} TailDecodes<T(!new)>(xs: seq<T>, f: T -> string, g: T -> string)
    requires DecodesTo(f, g)
    ensures CopyDecode(Tail(Strings(xs, f))) == Some(Tail(Strings(xs, g)))
  {
    if xs == [] {
      PlainDecodes("}", "");
      assert "}" + "" == "}";
    } else {
      TailDecodes(xs[1..], f, g);
      var more := Tail(Strings(xs[1..], f));
      Assoc(", ", f(xs[0]), more);
      PlainDecodes(", ", f(xs[0]) + more);
      assert CopyDecode(f(xs[0]) + more) == Prepend(g(xs[0]), CopyDecode(more));
      assert Strings(xs, f)[1..] == Strings(xs[1..], f) && Strings(xs, g)[1..] == Strings(xs[1..], g);
      Assoc(", ", g(xs[0]), Tail(Strings(xs[1..], g)));
    }
  }

  lemma BracedDecodes<T(!new)>(xs: seq<T>, f: T -> string, g: T -> string)
    requires DecodesTo(f, g)
    ensures CopyDecode(Braced(Strings(xs, f))) == Some(Braced(Strings(xs, g)))
  {
    if xs == [] {
      PlainDecodes("{}", "");
      assert "{}" + "" == "{}";
    } else {
      TailDecodes(xs[1..], f, g);
      var more := Tail(Strings(xs[1..], f));
      Assoc("{", f(xs[0]), more);
      PlainDecodes("{", f(xs[0]) + more);
      assert CopyDecode(f(xs[0]) + more) == Prepend(g(xs[0]), CopyDecode(more));
      assert Strings(xs, f)[1..] == Strings(xs[1..], f) && Strings(xs, g)[1..] == Strings(xs[1..], g);
      Assoc("{", g(xs[0]), Tail(Strings(xs[1..], g)));
    }
  }

  lemma {:induction false} PlainDecodes(s: string, more: string)
    requires '\\' !in s
    ensures CopyDecode(s + more) == Prepend(s, CopyDecode(more))
  {
    if s == "" {
      assert s + more == more;
      if CopyDecode(more).Some? { assert "" + CopyDecode(more).value == CopyDecode(more).value; }
    } else {
      PlainDecodes(s[1..], more);
      assert (s + more)[1..] == s[1..] + more;
      if CopyDecode(more).Some? { Assoc([s[0]], s[1..], CopyDecode(more).value); HeadTail(s); }
    }
  }

  lemma NumbersDecode()
    ensures DecodesTo(Print, Print)
  {
    forall n, more ensures CopyDecode(Print(n) + more) == Prepend(Print(n), CopyDecode(more)) {
      forall i | 0 <= i < |Print(n)| ensures Print(n)[i] != '\\' {
        PrintCharacters(n, i);
      }
      PlainDecodes(Print(n), more);
    }
  }

  lemma RolesDecode()
    ensures DecodesTo(SentRole, ArrayQuote)
  {
    forall role: string, more ensures CopyDecode(SentRole(role) + more) == Prepend(ArrayQuote(role), CopyDecode(more)) {
      ArrayEscapedDecodes(role, more);
    }
  }

  // ----- parsing ids

  /** Unquoted elements run to the next comma or brace. */
  lemma {:induction false} ScanNumber(text: string, pos: nat, st: Scan, body: string, more: string)
    requires 1 <= pos <= |text| && text[pos..] == body + more
    requires forall i :: 0 <= i < |body| ==> IsDigit(body[i]) || body[i] == '-'
    requires more != "" && (more[0] == ',' || more[0] == '}')
    requires st.part == ELEMENT && !st.quoted && !st.backslash && st.end == 0
    ensures Run(text, pos, st) == Ok(Stop(st.(end := pos + |body| - 1, part := END), pos + |body| + 1))
    decreases |body|
  {
    assert text[pos] == (body + more)[0];
    if body == "" {
      assert pos + 1 <= |text|;
      var next := Step(st, pos, text[pos]).value;
      assert next == st.(end := pos - 1, part := END);
    } else {
      assert Step(st, pos, text[pos]) == Ok(st);
      assert text[pos + 1..] == body[1..] + more by {
        assert text[pos..][1..] == text[pos + 1..];
        assert (body + more)[1..] == body[1..] + more;
      }
      ScanNumber(text, pos + 1, st, body[1..], more);
    }
  }

  lemma {:induction false} UnescapePlain(s: string)
    requires '\\' !in s
    ensures Unescape(s, false) == Ok(s)
  {
    if s != "" {
      UnescapePlain(s[1..]);
      HeadTail(s);
    }
  }

  predicate Numeric(body: string) {
    body != "" && forall i :: 0 <= i < |body| ==> IsDigit(body[i]) || body[i] == '-'
  }

  lemma RunNumber(text: string, from: nat, body: string, more: string)
    requires 1 <= from <= |text| && text[from..] == body + more
    requires Numeric(body) && more != "" && (more[0] == ',' || more[0] == '}')
    ensures from + |body| + 1 <= |text| && text[from..from + |body|] == body
    ensures var st := START.(part := ELEMENT, start := from);
            Run(text, from, START) == Ok(Stop(st.(end := from + |body| - 1, part := END), from + |body| + 1))
  {
    assert text[from..from + |body|] == body by {
      assert text[from..][..|body|] == (body + more)[..|body|];
    }
    var st := START.(part := ELEMENT, start := from);
    assert text[from] == body[0] && text[from + 1..] == body[1..] + more by {
      assert text[from..][1..] == text[from + 1..];
      assert (body + more)[1..] == body[1..] + more;
    }
    assert Step(START, from, text[from]) == Ok(st);
    ScanNumber(text, from + 1, st, body[1..], more);
  }

  /** Commas and spaces in front of an element are skipped. */
  lemma SkipLead(text: string, pos: nat, lead: string, rest: string)
    requires 1 <= pos <= |text| && text[pos..] == lead + rest
    requires lead == "" || lead == " " || lead == ", "
    ensures pos + |lead| <= |text| && text[pos + |lead|..] == rest
    ensures Run(text, pos, START) == Run(text, pos + |lead|, START)
  {
    assert text[pos..][|lead|..] == text[pos + |lead|..];
    Split(lead, rest);
    if |lead| >= 1 {
      assert text[pos] == text[pos..][0] == lead[0];
      assert Step(START, pos, text[pos]) == Ok(START);
      assert Run(text, pos, START) == Run(text, pos + 1, START);
    }
    if |lead| == 2 {
      assert text[pos + 1] == text[pos..][1] == ' ';
      assert Step(START, pos + 1, ' ') == Ok(START);
    }
  }

  /** One number, behind at most one space, up to and including the character behind it. */
  lemma NextNumber(text: string, pos: nat, lead: string, body: string, more: string)
    requires 1 <= pos <= |text| && text[pos..] == lead + body + more
    requires lead == "" || lead == " "
    requires body != "" && '\\' !in body && Numeric(body) && more != "" && (more[0] == ',' || more[0] == '}')
    ensures NextAt(text, pos) == Ok(Got(Raw(false, body), pos + |lead| + |body| + 1))
  {
    hide Run, Unescape, Step, Numeric;
    var from := pos + |lead|;
    Assoc(lead, body, more);
    SkipLead(text, pos, lead, body + more);
    RunNumber(text, from, body, more);
    UnescapePlain(body);
  }

  /** Parsed elements that were all quoted or all not. */
  function Raws(quoted: bool, elements: seq<string>): seq<Raw> {
    if elements == [] then [] else [Raw(quoted, elements[0])] + Raws(quoted, elements[1..])
  }

  lemma {:induction false} ParseNumbers(text: string, pos: nat, ids: seq<int>)
    requires 1 <= pos <= |text| && text[pos..] == Tail(Strings(ids, Print))[1..]
    ensures ParseFrom(text, pos) == Ok(Raws(false, Strings(ids, Print)))
    decreases |ids|
  {
    hide NextAt, Print;
    if ids == [] {
      assert Tail(Strings(ids, Print))[1..] == "";
      assert pos == |text|;
    } else {
      var more := Tail(Strings(ids[1..], Print));
      assert Strings(ids, Print)[1..] == Strings(ids[1..], Print);
      assert Tail(Strings(ids, Print))[1..] == " " + Print(ids[0]) + more;
      ParseNumber(text, pos, " ", ids);
    }
  }

  /** A first number and the list behind it. */
  lemma {:induction false} ParseNumber(text: string, pos: nat, lead: string, ids: seq<int>)
    requires ids != [] && (lead == "" || lead == " ")
    requires 1 <= pos <= |text| && text[pos..] == lead + Print(ids[0]) + Tail(Strings(ids[1..], Print))
    ensures ParseFrom(text, pos) == Ok(Raws(false, Strings(ids, Print)))
    decreases |ids|, 0
  {
    hide NextAt, Print;
    var more := Tail(Strings(ids[1..], Print));
    var body := Print(ids[0]);
    PrintNonempty(ids[0]);
    forall i | 0 <= i < |body| ensures IsDigit(body[i]) || body[i] == '-' { PrintCharacters(ids[0], i); }
    assert Numeric(body);
    NextNumber(text, pos, lead, body, more);
    var behind := pos + |lead| + |body| + 1;
    assert text[pos] == text[pos..][0] == (lead + body + more)[0];
    assert HasNextAt(text, pos);
    assert text[behind..] == more[1..] by {
      assert text[pos..][|lead| + |body| + 1..] == text[behind..];
      assert (lead + body + more)[|lead| + |body| + 1..] == more[1..];
    }
    ParseNumbers(text, behind, ids[1..]);
    RunAdvances(text, pos, START);
    assert Strings(ids, Print)[1..] == Strings(ids[1..], Print);
  }

  lemma PrintNonempty(n: int)
    ensures Print(n) != ""
  {
  }

  /** What the parser returns for ids. */
  function Ids(raws: seq<Raw>): seq<int> {
    if raws == [] then [] else [ToInt64(raws[0])] + Ids(raws[1..])
  }

  predicate AllInt64(ids: seq<int>) { forall i :: 0 <= i < |ids| ==> INT64_MIN <= ids[i] <= INT64_MAX }

  lemma {:induction false} IdsOfPrinted(ids: seq<int>)
    requires AllInt64(ids)
    ensures Ids(Raws(false, Strings(ids, Print))) == ids
  {
    hide Print, StrToLL;
    if ids != [] {
      IdsOfPrinted(ids[1..]);
      assert Strings(ids, Print)[1..] == Strings(ids[1..], Print);
      PrintRoundTrip(ids[0]);
      PrintNonempty(ids[0]);
      PrintCharacters(ids[0], 0);
      assert Print(ids[0]) != "NULL";
    }
  }

  lemma ParseIds(ids: seq<int>)
    requires AllInt64(ids)
    ensures var parsed := ParseFrom(Braced(Strings(ids, Print)), 1); parsed.Ok? && Ids(parsed.value) == ids
  {
    hide Print, NextAt, ToInt64;
    var text := Braced(Strings(ids, Print));
    IdsOfPrinted(ids);
    if ids != [] {
      assert Strings(ids, Print)[1..] == Strings(ids[1..], Print);
      var behind := Print(ids[0]) + Tail(Strings(ids[1..], Print));
      assert text == "{" + behind by { Assoc("{", Print(ids[0]), Tail(Strings(ids[1..], Print))); }
      assert text[1..] == behind;
      assert "" + Print(ids[0]) == Print(ids[0]);
      ParseNumber(text, 1, "", ids);
    }
  }

  /** Main result for ids: every list of 64 bit ids, sent as one field, comes back. */
  lemma IdsRoundTrip(ids: seq<int>)
    requires AllInt64(ids)
    ensures FieldOf(Braced(Strings(ids, Print))).Text?
    ensures var parsed := ParseFrom(FieldOf(Braced(Strings(ids, Print))).text, 1);
            parsed.Ok? && Ids(parsed.value) == ids
  {
    hide Print, Strings, ParseFrom, CopyDecode;
    NumbersDecode();
    BracedDecodes(ids, Print, Print);
    assert Braced(Strings(ids, Print))[0] == '{';
    ParseIds(ids);
  }

  // ----- parsing roles

  /** The characters that make a role unreadable. */
  predicate Control(c: char) { c == '\t' || c == '\r' || c == '\n' }

  predicate Clean(s: string) { forall i :: 0 <= i < |s| ==> !Control(s[i]) }

  lemma UnescapeStep(c: char, rest: string)
    requires !Control(c)
    ensures Unescape(ArrayQuoted(c) + rest, false) == Cons(c, Unescape(rest, false))
  {
    var q := ArrayQuoted(c);
    assert (q + rest)[|q|..] == rest;
    if |q| == 2 {
      assert (q + rest)[1..] == [c] + rest;
      assert ([c] + rest)[1..] == rest;
    }
  }

  lemma {:induction false} UnescapeQuoted(s: string)
    requires Clean(s)
    ensures Unescape(MapChars(s, ArrayQuoted), false) == Ok(s)
  {
    hide Unescape;
    if s == "" {
      UnescapePlain("");
    } else {
      UnescapeQuoted(s[1..]);
      UnescapeStep(s[0], MapChars(s[1..], ArrayQuoted));
      HeadTail(s);
    }
  }

  /** The characters written for one character of a role, inside a quoted element. */
  lemma QuotedStep(text: string, pos: nat, st: Scan, c: char, rest: string)
    requires 1 <= pos <= |text| && text[pos..] == ArrayQuoted(c) + rest
    requires st.part == ELEMENT && st.quoted && !st.backslash
    ensures pos + |ArrayQuoted(c)| <= |text| && text[pos + |ArrayQuoted(c)|..] == rest
    ensures if Control(c) then Run(text, pos, st).Err? else Run(text, pos, st) == Run(text, pos + |ArrayQuoted(c)|, st)
  {
    var q := ArrayQuoted(c);
    assert text[pos..][|q|..] == text[pos + |q|..];
    Split(q, rest);
    assert text[pos] == text[pos..][0] == q[0];
    if |q| == 2 {
      assert text[pos + 1] == text[pos..][1] == q[1];
      assert Step(st, pos, text[pos]) == Ok(st.(backslash := true));
    }
  }

  lemma ClosingQuote(text: string, pos: nat, st: Scan, more: string)
    requires 1 <= pos <= |text| && text[pos..] == "\"" + more
    requires st.part == ELEMENT && st.quoted && !st.backslash
    ensures Run(text, pos, st) == Ok(Stop(st.(end := pos - 1, part := END), pos + 1))
  {
    assert text[pos] == text[pos..][0] == '"';
  }

  lemma CleanCons(s: string)
    requires s != ""
    ensures Clean(s) <==> !Control(s[0]) && Clean(s[1..])
  {
    assert forall i :: 0 < i < |s| ==> s[i] == s[1..][i - 1];
  }

  /** A quoted element runs to its closing quote, or raises at the first escaped control character. */
  lemma {:induction false} ScanQuoted(text: string, pos: nat, st: Scan, s: string, more: string)
    requires 1 <= pos <= |text| && text[pos..] == MapChars(s, ArrayQuoted) + ("\"" + more)
    requires st.part == ELEMENT && st.quoted && !st.backslash && st.end == 0
    ensures var n := |MapChars(s, ArrayQuoted)|;
            Clean(s) ==> Run(text, pos, st) == Ok(Stop(st.(end := pos + n - 1, part := END), pos + n + 1))
    ensures !Clean(s) ==> Run(text, pos, st).Err?
    decreases |s|
  {
    hide Run, ArrayQuoted, Control, Clean;
    if s == "" {
      assert MapChars(s, ArrayQuoted) + ("\"" + more) == "\"" + more;
      CleanNothing();
      ClosingQuote(text, pos, st, more);
    } else {
      CleanCons(s);
      var rest := MapChars(s[1..], ArrayQuoted) + ("\"" + more);
      Assoc(ArrayQuoted(s[0]), MapChars(s[1..], ArrayQuoted), "\"" + more);
      QuotedStep(text, pos, st, s[0], rest);
      if !Control(s[0]) {
        ScanQuoted(text, pos + |ArrayQuoted(s[0])|, st, s[1..], more);
      }
    }
  }

  lemma CleanNothing()
    ensures Clean("")
  {
  }

  lemma RunQuoted(text: string, from: nat, s: string, more: string)
    requires 1 <= from <= |text| && text[from..] == "\"" + (MapChars(s, ArrayQuoted) + ("\"" + more))
    ensures var n := |MapChars(s, ArrayQuoted)|;
            && from + n + 1 <= |text| && text[from + 1..from + 1 + n] == MapChars(s, ArrayQuoted)
            && (Clean(s) ==>
                  Run(text, from, START) == Ok(Stop(Scan(END, true, false, from + 1, from + n), from + n + 2)))
            && (!Clean(s) ==> Run(text, from, START).Err?)
  {
    hide ArrayQuoted, Control, Clean, MapChars;
    var body := MapChars(s, ArrayQuoted);
    var st := START.(part := ELEMENT, quoted := true, start := from + 1);
    assert text[from] == text[from..][0] == '"';
    assert Step(START, from, text[from]) == Ok(st);
    assert text[from + 1..] == body + ("\"" + more) by {
      assert text[from..][1..] == text[from + 1..];
    }
    assert text[from + 1..from + 1 + |body|] == body by {
      assert text[from + 1..][..|body|] == (body + ("\"" + more))[..|body|];
    }
    ScanQuoted(text, from + 1, st, s, more);
  }

  /** One quoted element, behind nothing or the separator. */
  lemma NextQuoted(text: string, pos: nat, lead: string, s: string, more: string)
    requires 1 <= pos <= |text| && text[pos..] == lead + ArrayQuote(s) + more
    requires lead == "" || lead == ", "
    ensures Clean(s) ==> NextAt(text, pos) == Ok(Got(Raw(true, s), pos + |lead| + |ArrayQuote(s)|))
    ensures !Clean(s) ==> NextAt(text, pos).Err?
  {
    hide MapChars, Unescape, Run, Clean, Step;
    var body := MapChars(s, ArrayQuoted);
    var from := pos + |lead|;
    assert ArrayQuote(s) + more == "\"" + (body + ("\"" + more)) by {
      Assoc("\"" + body, "\"", more);
      Assoc("\"", body, "\"" + more);
    }
    Assoc(lead, ArrayQuote(s), more);
    SkipLead(text, pos, lead, ArrayQuote(s) + more);
    RunQuoted(text, from, s, more);
    if Clean(s) {
      UnescapeQuoted(s);
      EmptyBody(s);
    }
  }

  lemma EmptyBody(s: string)
    ensures MapChars(s, ArrayQuoted) == "" <==> s == ""
  {
  }

  predicate AllClean(roles: seq<string>) { forall i :: 0 <= i < |roles| ==> Clean(roles[i]) }

  lemma {:induction false} ParseQuoted(text: string, pos: nat, roles: seq<string>)
    requires 1 <= pos <= |text| && text[pos..] == Tail(Strings(roles, ArrayQuote))
    ensures AllClean(roles) ==> ParseFrom(text, pos) == Ok(Raws(true, roles))
    ensures !AllClean(roles) ==> ParseFrom(text, pos).Err?
    decreases |roles|, 1
  {
    hide NextAt, ArrayQuote;
    if roles == [] {
      assert text[pos] == text[pos..][0] == '}';
    } else {
      assert Strings(roles, ArrayQuote)[1..] == Strings(roles[1..], ArrayQuote);
      ParseOneQuoted(text, pos, ", ", roles);
    }
  }

  lemma {:induction false} ParseOneQuoted(text: string, pos: nat, lead: string, roles: seq<string>)
    requires roles != [] && (lead == "" || lead == ", ")
    requires 1 <= pos <= |text| && text[pos..] == lead + ArrayQuote(roles[0]) + Tail(Strings(roles[1..], ArrayQuote))
    ensures AllClean(roles) ==> ParseFrom(text, pos) == Ok(Raws(true, roles))
    ensures !AllClean(roles) ==> ParseFrom(text, pos).Err?
    decreases |roles|, 0
  {
    hide NextAt, Clean, Strings, Tail;
    var body := ArrayQuote(roles[0]);
    var more := Tail(Strings(roles[1..], ArrayQuote));
    NextQuoted(text, pos, lead, roles[0], more);
    assert |body| >= 2 && body[0] == '"';
    assert text[pos] == text[pos..][0] == (lead + body + more)[0];
    assert HasNextAt(text, pos);
    RunAdvances(text, pos, START);
    var behind := pos + |lead| + |body|;
    assert text[behind..] == more by {
      assert text[pos..][|lead| + |body|..] == text[behind..];
      assert (lead + body + more)[|lead| + |body|..] == more;
    }
    ParseQuoted(text, behind, roles[1..]);
    var rest := roles[1..];
    assert AllClean(roles) <==> Clean(roles[0]) && AllClean(rest) by {
      assert forall i :: 0 < i < |roles| ==> roles[i] == rest[i - 1];
    }
  }

  function Texts(raws: seq<Raw>): seq<string> {
    if raws == [] then [] else [ToString(raws[0])] + Texts(raws[1..])
  }

  lemma {:induction false} TextsOfQuoted(roles: seq<string>)
    ensures Texts(Raws(true, roles)) == roles
  {
    if roles != [] { TextsOfQuoted(roles[1..]); }
  }

  lemma ParseRoles(roles: seq<string>)
    ensures var parsed := ParseFrom(Braced(Strings(roles, ArrayQuote)), 1);
            if AllClean(roles) then parsed.Ok? && Texts(parsed.value) == roles else parsed.Err?
  {
    hide ArrayQuote, NextAt;
    var text := Braced(Strings(roles, ArrayQuote));
    TextsOfQuoted(roles);
    if roles != [] {
      assert Strings(roles, ArrayQuote)[1..] == Strings(roles[1..], ArrayQuote);
      var behind := ArrayQuote(roles[0]) + Tail(Strings(roles[1..], ArrayQuote));
      assert text == "{" + behind by { Assoc("{", ArrayQuote(roles[0]), Tail(Strings(roles[1..], ArrayQuote))); }
      assert text[1..] == behind;
      assert "" + ArrayQuote(roles[0]) == ArrayQuote(roles[0]);
      ParseOneQuoted(text, 1, "", roles);
    }
  }

  /** Main result for roles: the list comes back exactly if no role contains a tab or a line end; otherwise
      the parser throws, because the escaper writes an escape sequence that the parser refuses. */
  lemma RolesRoundTrip(roles: seq<string>)
    ensures FieldOf(Braced(Strings(roles, SentRole))).Text?
    ensures var parsed := ParseFrom(FieldOf(Braced(Strings(roles, SentRole))).text, 1);
            if AllClean(roles) then parsed.Ok? && Texts(parsed.value) == roles else parsed.Err?
  {
    hide Strings, ParseFrom, CopyDecode, ArrayQuote, SentRole, Texts;
    RolesDecode();
    BracedDecodes(roles, SentRole, ArrayQuote);
    assert Braced(Strings(roles, SentRole))[0] == '{';
    ParseRoles(roles);
  }
}
