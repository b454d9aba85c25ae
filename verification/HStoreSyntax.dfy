/** What the hstore parser makes of text that the database does not print: words without quotation marks, spaces, and
    text that is refused (contrib/pg-array-hstore-parser/include/hstore_parser.hpp). */
module HStoreSyntax {
  import opened Sequences
  import opened CopyText
  import opened HStore
  import opened Wrappers

  /** A character that needs quotation marks around its key or value. */
  predicate Special(c: char) { c == '\\' || c == '"' || c == '=' || c == '>' || c == ' ' || c == ',' }

  /** A text that may stand without quotation marks. */
  predicate Word(s: string) { s != "" && forall i :: 0 <= i < |s| ==> !Special(s[i]) }

  /** A text behind some spaces. */
  function Padded(n: nat, s: string): string { if n == 0 then s else [' '] + Padded(n - 1, s) }

  function Arrow(s: string): string { "=>" + s }

  /** A key or a value, with or without quotation marks. */
  function Part(s: string, quoted: bool): string { if quoted then HstoreQuote(s) else s }

  // ----- one pair

  lemma RunStep(c: char, rest: string, st: State)
    requires st.progress != END && Step(st, c).Ok?
    ensures Run([c] + rest, st) == Run(rest, Step(st, c).value)
  {
    assert ([c] + rest)[0] == c && ([c] + rest)[1..] == rest;
  }

  lemma {:induction false} RunPadded(n: nat, rest: string, st: State)
    requires (st.progress == NONE || st.progress == SEPARATOR) && !st.backslash
    ensures Run(Padded(n, rest), st) == Run(rest, st)
  {
    hide Run;
    if n > 0 {
      RunStep(' ', Padded(n - 1, rest), st);
      RunPadded(n - 1, rest, st);
    }
  }

  /** Inside an unquoted key or value. */
  lemma {:induction false} RunMore(s: string, rest: string, st: State)
    requires InText(st) && !st.quoted && !st.backslash && forall i :: 0 <= i < |s| ==> !Special(s[i])
    ensures Run(s + rest, st) ==
            Run(rest, if st.progress == KEY then st.(key := st.key + s) else st.(value := st.value + s))
  {
    if s == "" {
      assert s + rest == rest && st.key + "" == st.key && st.value + "" == st.value;
    } else {
      var next := Add(st, s[0]).value;
      assert (s + rest)[0] == s[0] && (s + rest)[1..] == s[1..] + rest;
      assert Step(st, s[0]) == Ok(next);
      RunMore(s[1..], rest, next);
      HeadTail(s);
      Assoc(st.key, [s[0]], s[1..]);
      Assoc(st.value, [s[0]], s[1..]);
    }
  }

  lemma RunWord(s: string, rest: string, st: State)
    requires Word(s) && !st.backslash && !st.quoted
    requires (st.progress == NONE && st.key == "") || (st.progress == SEPARATOR && st.value == "")
    ensures Run(s + rest, st) ==
            Run(rest, if st.progress == NONE then st.(progress := KEY, key := s)
                      else st.(progress := VALUE, value := s))
  {
    var start := st.(progress := Next(st.progress));
    var next := Add(start, s[0]).value;
    assert (s + rest)[0] == s[0] && (s + rest)[1..] == s[1..] + rest;
    assert Step(st, s[0]) == Ok(next);
    RunMore(s[1..], rest, next);
    assert ("" + [s[0]]) + s[1..] == s;
  }

  lemma RunArrow(rest: string, st: State)
    requires (st.progress == KEY || st.progress == SEPARATOR) && !st.quoted && !st.backslash
    ensures Run(Arrow(rest), st) == Run(rest, st.(progress := SEPARATOR))
  {
    ArrowParts(rest);
    ArrowSteps(st);
    hide Run, Arrow, Step;
    RunStep('=', ['>'] + rest, st);
    RunStep('>', rest, st.(progress := SEPARATOR));
  }

  lemma ArrowSteps(st: State)
    requires (st.progress == KEY || st.progress == SEPARATOR) && !st.quoted && !st.backslash
    ensures Step(st, '=') == Ok(st.(progress := SEPARATOR))
    ensures Step(st.(progress := SEPARATOR), '>') == Ok(st.(progress := SEPARATOR))
  {
  }

  lemma ArrowParts(rest: string)
    ensures Arrow(rest) == ['='] + (['>'] + rest)
  {
  }

  /** The separator behind a key. */
  lemma RunSeparator(n: nat, m: nat, rest: string, st: State)
    requires (st.progress == KEY || st.progress == SEPARATOR) && !st.quoted && !st.backslash
    ensures Run(Padded(n, Arrow(Padded(m, rest))), st) == Run(rest, st.(progress := SEPARATOR))
  {
    hide Run, Arrow;
    var sep, arrow := st.(progress := SEPARATOR), Arrow(Padded(m, rest));
    if n > 0 {
      RunStep(' ', Padded(n - 1, arrow), st);
      RunPadded(n - 1, arrow, sep);
    }
    RunArrow(Padded(m, rest), st);
    RunArrow(Padded(m, rest), sep);
    RunPadded(m, rest, sep);
  }

  /** A value ends at its quotation mark, or at a space, a comma or the end of the text. */
  lemma RunValue(s: string, quoted: bool, rest: string, st: State)
    requires st.progress == SEPARATOR && st.value == "" && !st.quoted && !st.backslash
    requires !quoted ==> Word(s) && (rest == "" || rest[0] == ' ' || rest[0] == ',')
    ensures Run(Part(s, quoted) + rest, st) ==
            Ok(Stop(st.(progress := if quoted || rest != "" then END else VALUE, value := s),
                    if quoted || rest == "" then rest else rest[1..]))
  {
    if quoted {
      RunQuote(s, rest, st);
    } else {
      RunWord(s, rest, st);
    }
  }

  /** With or without quotation marks, and with any spaces around the separator, a pair is read. */
  lemma RunMixed(p: Pair, keyQuoted: bool, valueQuoted: bool, n: nat, m: nat, rest: string)
    requires !keyQuoted ==> Word(p.key)
    requires !valueQuoted ==> Word(p.value) && (rest == "" || rest[0] == ' ' || rest[0] == ',')
    ensures var text := Part(p.key, keyQuoted)
                        + Padded(n, Arrow(Padded(m, Part(p.value, valueQuoted) + rest)));
            && Run(text, START).Ok?
            && var stop := Run(text, START).value;
               && Pair(stop.state.key, stop.state.value) == p
               && stop.rest == if valueQuoted || rest == "" then rest else rest[1..]
  {
    hide Run, Padded, Arrow, HstoreQuote;
    var value := Part(p.value, valueQuoted) + rest;
    var more := Padded(n, Arrow(Padded(m, value)));
    var st := START.(progress := if keyQuoted then SEPARATOR else KEY, key := p.key);
    if keyQuoted { RunQuote(p.key, more, START); } else { RunWord(p.key, more, START); }
    RunSeparator(n, m, value, st);
    RunValue(p.value, valueQuoted, rest, st.(progress := SEPARATOR));
  }

  // ----- text that is refused

  /** No separator before a key, and only the right one behind it. */
  lemma KeyRefused(k: string, rest: string)
    requires Word(k)
    ensures Run("=" + rest, START).Err? && Run(">" + rest, START).Err? && Run(k + (">" + rest), START).Err?
  {
    assert ("=" + rest)[0] == '=' && (">" + rest)[0] == '>';
    RunWord(k, ">" + rest, START);
  }

  /** No part of a separator behind an unquoted value. */
  lemma ValueRefused(k: string, v: string, c: char, rest: string)
    requires Word(k) && Word(v) && (c == '=' || c == '>')
    ensures Run(k + Arrow(v + ([c] + rest)), START).Err?
  {
    hide Arrow;
    var tail := v + ([c] + rest);
    var st := START.(progress := KEY, key := k);
    RunWord(k, Arrow(tail), START);
    RunArrow(tail, st);
    RunWord(v, [c] + rest, st.(progress := SEPARATOR));
    assert ([c] + rest)[0] == c;
  }

  /** Inside quotation marks only a quotation mark and a backslash can be escaped. */
  lemma EscapeRefused(s: string, c: char, rest: string)
    requires c != '"' && c != '\\'
    ensures Run("\"" + (MapChars(s, HstoreQuoted) + (['\\', c] + rest)), START).Err?
  {
    var inner := MapChars(s, HstoreQuoted) + (['\\', c] + rest);
    var inside := START.(progress := KEY, quoted := true);
    assert ("\"" + inner)[0] == '"' && ("\"" + inner)[1..] == inner;
    assert Step(START, '"') == Ok(inside);
    RunQuoted(s, ['\\', c] + rest, inside);
    var bad := ['\\', c] + rest;
    assert bad[0] == '\\' && bad[1..][0] == c;
  }

  // ----- lists without quotation marks

  function WordPair(p: Pair): string { p.key + "=>" + p.value }

  function WordsText(ps: seq<Pair>): string {
    if ps == [] then "" else if |ps| == 1 then WordPair(ps[0]) else WordPair(ps[0]) + "," + WordsText(ps[1..])
  }

  predicate AllWords(ps: seq<Pair>) { forall i :: 0 <= i < |ps| ==> Word(ps[i].key) && Word(ps[i].value) }

  lemma RunWords(ps: seq<Pair>)
    requires ps != [] && AllWords(ps)
    ensures Run(WordsText(ps), START).Ok?
    ensures var stop := Run(WordsText(ps), START).value;
            Pair(stop.state.key, stop.state.value) == ps[0] && stop.rest == WordsText(ps[1..])
  {
    hide Run;
    var p := ps[0];
    var rest := if |ps| == 1 then "" else "," + WordsText(ps[1..]);
    RunMixed(p, false, false, 0, 0, rest);
    Assoc(p.key, "=>", p.value + rest);
    Assoc(p.key + "=>", p.value, rest);
    if |ps| == 1 {
      assert WordPair(p) + rest == WordPair(p);
    } else {
      Assoc(WordPair(p), ",", WordsText(ps[1..]));
      assert rest[1..] == WordsText(ps[1..]);
    }
  }

  /** The last pair of a text. */
  lemma ParseLast(text: string, pos: nat, ps: seq<Pair>)
    requires pos <= |text| && |text| >= 7 && |ps| == 1 && AllWords(ps) && text[pos..] == WordsText(ps)
    ensures ParseFrom(text, pos) == Ok(if |WordPair(ps[0])| < 7 then [] else ps)
  {
    hide Run, AllWords;
    assert |text| - pos == |WordPair(ps[0])|;
    if |WordPair(ps[0])| >= 7 {
      RunWords(ps);
      RunShrinks(text[pos..], START);
      assert ParseFrom(text, |text|) == Ok([]);
      assert ps == [ps[0]] + [];
    }
  }

  /** The minimal length of a pair is that of one with quotation marks: a shorter one at the end is lost. */
  lemma {:induction false} ParseWords(text: string, pos: nat, ps: seq<Pair>)
    requires pos <= |text| && |text| >= 7 && ps != [] && AllWords(ps) && text[pos..] == WordsText(ps)
    ensures ParseFrom(text, pos) ==
            Ok(if |WordPair(ps[|ps| - 1])| < 7 then ps[..|ps| - 1] else ps)
    decreases |ps|
  {
    hide Run, ParseFrom, WordPair, AllWords;
    if |ps| == 1 {
      ParseLast(text, pos, ps);
      assert ps[..0] == [];
    } else {
      FrontWords(ps);
      WordsAreLong(ps);
      RunWords(ps);
      hide WordsText;
      var rest := WordsText(ps[1..]);
      RestBehind(text, pos, rest);
      ParseWords(text, |text| - |rest|, ps[1..]);
      var last := |ps| - 1;
      var read := if |WordPair(ps[last])| < 7 then ps[1..][..last - 1] else ps[1..];
      ParseStep(text, pos, ps[0], rest, read);
      HeadTail(ps);
      assert ps[..last] == [ps[0]] + ps[1..][..last - 1];
    }
  }

  lemma FrontWords(ps: seq<Pair>)
    requires ps != [] && AllWords(ps)
    ensures AllWords(ps[1..])
  {
  }

  lemma RestBehind(text: string, pos: nat, rest: string)
    requires pos <= |text| && Run(text[pos..], START).Ok? && Run(text[pos..], START).value.rest == rest
    ensures |rest| <= |text| - pos && text[|text| - |rest|..] == rest
  {
    hide Run;
    RunShrinks(text[pos..], START);
    DropDrop(text, pos, |text| - pos - |rest|);
  }

  lemma ParseStep(text: string, pos: nat, p: Pair, rest: string, qs: seq<Pair>)
    requires pos <= |text| && HasNextAt(|text|, pos) && |rest| <= |text|
    requires Run(text[pos..], START).Ok?
    requires var stop := Run(text[pos..], START).value;
             stop.rest == rest && Pair(stop.state.key, stop.state.value) == p
    requires ParseFrom(text, |text| - |rest|) == Ok(qs)
    ensures ParseFrom(text, pos) == Ok([p] + qs)
  {
    hide Run;
    RunShrinks(text[pos..], START);
  }

  lemma WordsAreLong(ps: seq<Pair>)
    requires AllWords(ps)
    ensures |ps| > 1 ==> |WordsText(ps)| >= 9
  {
    if |ps| > 1 {
      assert |WordPair(ps[0])| >= 4;
      assert |WordsText(ps[1..])| >= |WordPair(ps[1])| >= 4;
    }
  }

  /** Main result: a list of words, separated by commas, is read back exactly if it has one pair, or none, or if its
      last pair has at least seven characters; otherwise the last pair is lost. */
  lemma WordsReadBackIff(ps: seq<Pair>)
    requires AllWords(ps)
    ensures ParseFrom(WordsText(ps), 0) ==
            Ok(if |ps| > 1 && |ps[|ps| - 1].key| + |ps[|ps| - 1].value| < 5 then ps[..|ps| - 1] else ps)
  {
    var text := WordsText(ps);
    assert text[0..] == text;
    if ps != [] {
      if |text| >= 7 {
        WordsAreLong(ps);
        ParseWords(text, 0, ps);
      } else {
        WordsAreLong(ps);
        RunWords(ps);
        RunShrinks(text, START);
        assert ps == [ps[0]] + [];
      }
    }
  }
}
