/** The hstore parser (contrib/pg-array-hstore-parser/include/hstore_parser.hpp), a state machine
    over characters, and the text that src/postgres_handler.cpp writes into hstore columns. */
module HStore {
  import opened Sequences
  import opened Wrappers
  import opened CopyText

  datatype Pair = Pair(key: string, value: string)

  // ----- the printed text

  function PairText(p: Pair): string { HstoreQuote(p.key) + "=>" + HstoreQuote(p.value) }

  /** The text of a list of pairs as the database reads it. */
  function HstoreText(ps: seq<Pair>): string {
    if ps == [] then "" else if |ps| == 1 then PairText(ps[0]) else PairText(ps[0]) + "," + HstoreText(ps[1..])
  }

  // ----- the state machine

  datatype Parts = NONE | KEY | SEPARATOR | VALUE | END

  datatype State = State(progress: Parts, quoted: bool, backslash: bool, key: string, value: string)

  const START := State(NONE, false, false, "", "")

  function Next(p: Parts): Parts
    requires p != END
  {
    match p case NONE => KEY case KEY => SEPARATOR case SEPARATOR => VALUE case VALUE => END
  }

  /** `add_to_key_or_value`: outside a key or a value its assert fails. */
  function Add(st: State, c: char): Result<State> {
    match st.progress
    case KEY => Ok(st.(key := st.key + [c]))
    case VALUE => Ok(st.(value := st.value + [c]))
    case _ => Err("character outside of a key or value")
  }

  predicate InText(st: State) { st.progress == KEY || st.progress == VALUE }

  /** One turn of the loop in `get_next`. */
  function Step(st: State, c: char): Result<State>
    requires st.progress != END
  {
    if st.backslash then
      if c == '"' || c == '\\' then Add(st.(backslash := false), c)
      else Err("is no valid escape sequence in a hstore key or value.")
    else if c == '\\' then Ok(st.(backslash := true))
    else if c == '=' then
      if !st.quoted && st.progress == KEY then Ok(st.(progress := SEPARATOR))
      else if !st.quoted && st.progress == VALUE then Err("'=' is not allowed at the end of a value.")
      else if InText(st) then Add(st, c)
      else if st.progress == NONE then Err("'=' is not allowed there.")
      else Ok(st)
    else if c == '>' then
      if InText(st) && !st.quoted then
        Err("'>' is not allowed inside a key/value or at its end without a preceding '='.")
      else if InText(st) then Add(st, c)
      else if st.progress != SEPARATOR then Err("'>' is not allowed there.")
      else Ok(st)
    else if c == '"' then
      Ok(st.(progress := Next(st.progress), quoted := !InText(st)))
    else if c == ' ' || c == ',' then
      if !InText(st) then Ok(st)
      else if st.quoted then Add(st, c)
      else Ok(st.(progress := Next(st.progress)))
    else if InText(st) then Add(st, c)
    else Add(st.(progress := Next(st.progress)), c)
  }

  datatype Stop = Stop(state: State, rest: string)

  /** The loop: from a state over a remaining text until END or the end of the text. */
  function Run(s: string, st: State): Result<Stop> {
    if s == "" || st.progress == END then Ok(Stop(st, s))
    else match Step(st, s[0])
      case Err(m) => Err(m)
      case Ok(next) => Run(s[1..], next)
  }

  lemma {:induction false} RunShrinks(s: string, st: State)
    ensures Run(s, st).Ok? ==> |Run(s, st).value.rest| <= |s|
    ensures Run(s, st).Ok? && s != "" && st.progress != END ==> |Run(s, st).value.rest| < |s|
    ensures Run(s, st).Ok? ==> Run(s, st).value.rest == s[|s| - |Run(s, st).value.rest|..]
    decreases |s|
  {
    if s != "" && st.progress != END && Step(st, s[0]).Ok? {
      RunShrinks(s[1..], Step(st, s[0]).value);
    }
  }

  /** `size - MIN_KV_PAIR_LENGTH` in the unsigned type size_t. */
  function SizeMinus7(size: nat): nat {
    if size < 7 then size + 0x1_0000_0000_0000_0000 - 7 else size - 7
  }

  predicate HasNextAt(size: nat, pos: nat) { !(pos > SizeMinus7(size) || pos >= size) }

  /** The documented loop `while (has_next()) get_next()`. */
  function ParseFrom(text: string, pos: nat): Result<seq<Pair>>
    requires pos <= |text|
    decreases |text| - pos
  {
    if !HasNextAt(|text|, pos) then Ok([])
    else
      RunShrinks(text[pos..], START);
      match Run(text[pos..], START)
      case Err(m) => Err(m)
      case Ok(stop) =>
        match ParseFrom(text, |text| - |stop.rest|)
        case Err(m) => Err(m)
        case Ok(ps) => Ok([Pair(stop.state.key, stop.state.value)] + ps)
  }

  class HStoreParser {
    const text: string
    var pos: nat
    var progress: Parts
    var keyBuffer: string
    var valueBuffer: string

    ghost predicate Valid()
      reads this
    {
      pos <= |text|
    }

    constructor (text: string)
      ensures Valid() && this.text == text && pos == 0
    {
      this.text := text;
      pos, progress, keyBuffer, valueBuffer := 0, NONE, "", "";
    }

    method HasNext() returns (b: bool)
      requires Valid()
      ensures b == HasNextAt(|text|, pos)
    {
      if pos > SizeMinus7(|text|) || pos >= |text| {
        return false;
      }
      return true;
    }

    /** `add_to_key_or_value` */
    method AddToKeyOrValue(c: char) returns (ok: bool)
      modifies this`keyBuffer, this`valueBuffer
      ensures ok <==> progress == KEY || progress == VALUE
      ensures keyBuffer == old(keyBuffer) + if progress == KEY then [c] else []
      ensures valueBuffer == old(valueBuffer) + if progress == VALUE then [c] else []
    {
      ok := true;
      if progress == KEY {
        keyBuffer := keyBuffer + [c];
      } else if progress == VALUE {
        valueBuffer := valueBuffer + [c];
      } else {
        ok := false;
      }
    }

    /** `get_next`: the loop over characters is the state machine. */
    method GetNext() returns (r: Result<Pair>)
      requires Valid()
      modifies this
      ensures Valid()
      ensures match Run(old(text[pos..]), START)
              case Err(_) => r.Err?
              case Ok(stop) => r == Ok(Pair(stop.state.key, stop.state.value)) && text[pos..] == stop.rest
    {
      keyBuffer, valueBuffer := "", "";
      progress := NONE;
      var backslashes, quoted := 0, false;
      while pos < |text| && progress != END
        invariant Valid() && 0 <= backslashes <= 1
        invariant Run(text[pos..], State(progress, quoted, backslashes == 1, keyBuffer, valueBuffer))
                  == Run(old(text[pos..]), START)
        decreases |text| - pos
      {
        var c := text[pos];
        assert text[pos..][0] == c && text[pos..][1..] == text[pos + 1..];
        ghost var st := State(progress, quoted, backslashes == 1, keyBuffer, valueBuffer);
        var ok;
        ok, backslashes, quoted := HandleCharacter(c, backslashes, quoted);
        if !ok {
          return Err("invalid hstore syntax");
        }
        pos := pos + 1;
      }
      return Ok(Pair(keyBuffer, valueBuffer));
    }

    /** The body of the loop in `get_next`; `ok` is false where it throws or an assert fails. */
    method HandleCharacter(c: char, backslashes0: int, quoted0: bool) returns (ok: bool, backslashes: int, quoted: bool)
      requires 0 <= backslashes0 <= 1 && progress != END
      modifies this`progress, this`keyBuffer, this`valueBuffer
      ensures 0 <= backslashes <= 1
      ensures match Step(old(State(progress, quoted0, backslashes0 == 1, keyBuffer, valueBuffer)), c)
              case Err(_) => !ok
              case Ok(next) => ok && next == State(progress, quoted, backslashes == 1, keyBuffer, valueBuffer)
    {
      ok, backslashes, quoted := true, backslashes0, quoted0;
      if backslashes == 1 {
        if c != '"' && c != '\\' {
          return false, backslashes, quoted;
        }
        ok := AddToKeyOrValue(c);
        backslashes := 0;
      } else if c == '\\' {
        backslashes := backslashes + 1;
      } else if c == '=' {
        if !quoted && progress == KEY {
          progress := SEPARATOR;
        } else if !quoted && progress == VALUE {
          ok := false;
        } else if quoted && (progress == KEY || progress == VALUE) {
          ok := AddToKeyOrValue(c);
        } else if progress == NONE {
          ok := false;
        }
      } else if c == '>' {
        if !quoted && (progress == KEY || progress == VALUE) {
          ok := false;
        } else if quoted && (progress == KEY || progress == VALUE) {
          ok := AddToKeyOrValue(c);
        } else if progress != SEPARATOR {
          ok := false;
        }
      } else if c == '"' {
        quoted := progress == NONE || progress == SEPARATOR;
        progress := Next(progress);
      } else if c == ' ' || c == ',' {
        if progress == KEY || progress == VALUE {
          if quoted {
            ok := AddToKeyOrValue(c);
          } else {
            progress := Next(progress);
          }
        }
      } else {
        if progress == NONE || progress == SEPARATOR {
          progress := Next(progress);
        }
        ok := AddToKeyOrValue(c);
      }
    }
  }

  /** All pairs of a text. */
  method ParseAll(text: string) returns (r: Result<seq<Pair>>)
    ensures match ParseFrom(text, 0) case Err(_) => r.Err? case Ok(ps) => r == Ok(ps)
  {
    hide Run;
    var parser := new HStoreParser(text);
    var ps := [];
    CombinedNothing(ParseFrom(text, 0));
    var more := parser.HasNext();
    while more
      invariant fresh(parser) && parser.Valid() && parser.text == text
      invariant more == HasNextAt(|text|, parser.pos)
      invariant Combined(ps, ParseFrom(text, parser.pos)) == ParseFrom(text, 0)
      decreases |text| - parser.pos
    {
      ghost var pos := parser.pos;
      RunShrinks(text[pos..], START);
      var p := parser.GetNext();
      if p.Err? {
        return Err(p.message);
      }
      assert |text[parser.pos..]| == |text| - parser.pos;
      CombinedStep(ps, p.value, ParseFrom(text, parser.pos));
      ps := ps + [p.value];
      more := parser.HasNext();
    }
    assert ps + [] == ps;
    return Ok(ps);
  }

  // ----- the round trip

  /** Inside quotes the machine reads any string back. */
  lemma {:induction false} RunQuoted(s: string, rest: string, st: State)
    requires InText(st) && st.quoted && !st.backslash
    ensures Run(MapChars(s, HstoreQuoted) + rest, st) ==
            Run(rest, if st.progress == KEY then st.(key := st.key + s) else st.(value := st.value + s))
  {
    if s == "" {
      assert MapChars(s, HstoreQuoted) + rest == rest;
      assert st.key + "" == st.key && st.value + "" == st.value;
    } else {
      var next := Add(st, s[0]).value;
      var more := MapChars(s[1..], HstoreQuoted) + rest;
      Assoc(HstoreQuoted(s[0]), MapChars(s[1..], HstoreQuoted), rest);
      RunQuoted(s[1..], rest, next);
      HeadTail(s);
      Assoc(st.key, [s[0]], s[1..]);
      Assoc(st.value, [s[0]], s[1..]);
    }
  }

  /** A quoted text between its quotation marks: the key and the value of a pair. */
  lemma RunQuote(s: string, rest: string, st: State)
    requires (st.progress == NONE && st.key == "") || (st.progress == SEPARATOR && st.value == "")
    requires !st.backslash && !st.quoted
    ensures Run(HstoreQuote(s) + rest, st) ==
            Run(rest, if st.progress == NONE then st.(progress := SEPARATOR, key := s)
                      else st.(progress := END, value := s))
  {
    var inner := MapChars(s, HstoreQuoted);
    Assoc("\"" + inner, "\"", rest);
    Assoc("\"", inner, "\"" + rest);
    var text := HstoreQuote(s) + rest;
    assert text[0] == '"' && text[1..] == inner + ("\"" + rest);
    var inside := st.(progress := Next(st.progress), quoted := true);
    assert Step(st, '"') == Ok(inside);
    RunQuoted(s, "\"" + rest, inside);
    assert "" + s == s;
    var read := if inside.progress == KEY then inside.(key := s) else inside.(value := s);
    assert ("\"" + rest)[0] == '"' && ("\"" + rest)[1..] == rest;
    assert Step(read, '"') == Ok(read.(progress := Next(read.progress), quoted := false));
  }

  lemma RunPair(p: Pair, rest: string)
    ensures Run(PairText(p) + rest, START) == Ok(Stop(State(END, false, false, p.key, p.value), rest))
  {
    var k, v := HstoreQuote(p.key), HstoreQuote(p.value);
    Assoc(k + "=>", v, rest);
    Assoc(k, "=>", v + rest);
    RunQuote(p.key, "=>" + (v + rest), START);
    var st := START.(progress := SEPARATOR, key := p.key);
    var s := "=>" + (v + rest);
    assert s[0] == '=' && s[1..][0] == '>' && s[1..][1..] == v + rest;
    assert Step(st, '=') == Ok(st) && Step(st, '>') == Ok(st);
    RunQuote(p.value, rest, st);
  }

  /** The text behind the pairs already read: nothing, or a comma and the other pairs. */
  function Remainder(ps: seq<Pair>): string { if ps == [] then "" else "," + HstoreText(ps) }

  lemma HstoreTextHead(ps: seq<Pair>)
    requires ps != []
    ensures HstoreText(ps) == PairText(ps[0]) + Remainder(ps[1..])
  {
    if |ps| == 1 {
      assert PairText(ps[0]) + "" == PairText(ps[0]);
    } else {
      Assoc(PairText(ps[0]), ",", HstoreText(ps[1..]));
    }
  }

  lemma {:induction false} ParseRemainder(text: string, pos: nat, ps: seq<Pair>)
    requires pos <= |text| && text[pos..] == Remainder(ps)
    ensures ParseFrom(text, pos) == Ok(ps)
    decreases |ps|
  {
    if ps != [] {
      HstoreTextHead(ps);
      assert |text| - pos >= 7;
      ParseOne(text, pos, ps);
    }
  }

  lemma ParseOne(text: string, pos: nat, ps: seq<Pair>)
    requires pos <= |text| && ps != [] && HasNextAt(|text|, pos)
    requires Run(text[pos..], START) == Run(HstoreText(ps), START)
    requires text[pos..] == HstoreText(ps) || text[pos..] == "," + HstoreText(ps)
    ensures ParseFrom(text, pos) == Ok(ps)
    decreases |ps|, 0
  {
    hide Run, PairText, HstoreText, Remainder;
    var rest := Remainder(ps[1..]);
    HstoreTextHead(ps);
    RunPair(ps[0], rest);
    RunShrinks(text[pos..], START);
    DropDrop(text, pos, |text| - pos - |rest|);
    ParseRemainder(text, |text| - |rest|, ps[1..]);
    HeadTail(ps);
  }

  /** Every list of keys and values, empty ones included, is read back from its printed text, and
      the loop stops exactly behind the last pair although `has_next` counts unsigned. */
  lemma HstoreRoundTrip(ps: seq<Pair>)
    ensures ParseFrom(HstoreText(ps), 0) == Ok(ps)
  {
    var text := HstoreText(ps);
    if ps != [] {
      HstoreTextHead(ps);
      assert text[0..] == text;
      ParseOne(text, 0, ps);
    }
  }

  // ----- through COPY

  function SentPair(p: Pair): string { HstoreEscaped(p.key) + "=>" + HstoreEscaped(p.value) }

  /** The hstore column as it is sent. */
  function SentHstore(ps: seq<Pair>): string {
    if ps == [] then "" else if |ps| == 1 then SentPair(ps[0]) else SentPair(ps[0]) + "," + SentHstore(ps[1..])
  }

  lemma SentPairDecodes(p: Pair, more: string)
    ensures CopyDecode(SentPair(p) + more) == Prepend(PairText(p), CopyDecode(more))
  {
    var k, v := HstoreEscaped(p.key), HstoreEscaped(p.value);
    Assoc(k + "=>", v, more);
    Assoc(k, "=>", v + more);
    HstoreEscapedDecodes(p.key, "=>" + (v + more));
    assert "=>" + (v + more) == ['='] + (['>'] + (v + more));
    DecodeSingle('=', ['>'] + (v + more));
    DecodeSingle('>', v + more);
    HstoreEscapedDecodes(p.value, more);
    if CopyDecode(more).Some? {
      var m, q, w := CopyDecode(more).value, HstoreQuote(p.key), HstoreQuote(p.value);
      assert ['='] + (['>'] + (w + m)) == "=>" + (w + m);
      Assoc(q + "=>", w, m);
      Assoc(q, "=>", w + m);
    }
  }

  lemma {:induction false} SentHstoreDecodes(ps: seq<Pair>)
    ensures CopyDecode(SentHstore(ps)) == Some(HstoreText(ps))
  {
    if |ps| == 1 {
      SentPairDecodes(ps[0], "");
      assert SentPair(ps[0]) + "" == SentPair(ps[0]) && PairText(ps[0]) + "" == PairText(ps[0]);
    } else if |ps| > 1 {
      var more := SentHstore(ps[1..]);
      SentHstoreDecodes(ps[1..]);
      Assoc(SentPair(ps[0]), ",", more);
      SentPairDecodes(ps[0], "," + more);
      DecodeSingle(',', more);
      Assoc(PairText(ps[0]), ",", HstoreText(ps[1..]));
    }
  }

  /** From tags to the database and back. */
  lemma SentHstoreRoundTrip(ps: seq<Pair>)
    ensures CopyDecode(SentHstore(ps)).Some? && ParseFrom(CopyDecode(SentHstore(ps)).value, 0) == Ok(ps)
  {
    SentHstoreDecodes(ps);
    HstoreRoundTrip(ps);
  }

  lemma {:induction false} SentHstoreSolid(ps: seq<Pair>)
    ensures Solid(SentHstore(ps))
  {
    if ps != [] {
      EscapedSolid(ps[0].key);
      EscapedSolid(ps[0].value);
      assert Solid("=>") by { assert "=>"[1..] == ">" && ">"[1..] == ""; }
      SolidAppend(HstoreEscaped(ps[0].key), "=>");
      SolidAppend(HstoreEscaped(ps[0].key) + "=>", HstoreEscaped(ps[0].value));
      if |ps| > 1 {
        SentHstoreSolid(ps[1..]);
        PairSolid(',');
        SolidAppend(SentPair(ps[0]), ",");
        SolidAppend(SentPair(ps[0]) + ",", SentHstore(ps[1..]));
      }
    }
  }
}
