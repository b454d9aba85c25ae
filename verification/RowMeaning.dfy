/** What the database finds in the lines of module Rows: one field per column, and every tag either in
    its own column or in the hstore column. */
module RowMeaning {
  import opened Sequences
  import opened Wrappers
  import opened CopyText
  import opened Decimal
  import opened HStore
  import opened ArrayText
  import PgArray
  import opened Rows

  // ----- every field is solid

  /** Text that COPY leaves alone: geometries in hexadecimal form and timestamps are such texts. */
  predicate Plain(s: string) {
    forall i :: 0 <= i < |s| ==> s[i] != '\\' && s[i] != '\t' && s[i] != '\n' && s[i] != '\r'
  }

  lemma {:induction false} PlainIsSolid(s: string)
    requires Plain(s)
    ensures Solid(s)
  {
    if s != "" { PlainIsSolid(s[1..]); }
  }

  lemma PrintIsPlain(n: int)
    ensures Plain(Print(n))
  {
    forall i | 0 <= i < |Print(n)| ensures IsDigit(Print(n)[i]) || Print(n)[i] == '-' { PrintCharacters(n, i); }
  }

  lemma {:induction false} TailIsPlain(ns: seq<int>)
    ensures Plain(Tail(Strings(ns, Print)))
  {
    if ns != [] {
      TailIsPlain(ns[1..]);
      PrintIsPlain(ns[0]);
      assert Strings(ns, Print)[1..] == Strings(ns[1..], Print);
    }
  }

  lemma NumbersArePlain(ns: seq<int>)
    ensures Plain(Braced(Strings(ns, Print)))
  {
    if ns != [] {
      TailIsPlain(ns[1..]);
      PrintIsPlain(ns[0]);
      assert Strings(ns, Print)[1..] == Strings(ns[1..], Print);
    }
  }

  predicate PlainObject(o: Object) { Plain(o.wkb) && Plain(o.timestamp) }

  predicate PlainShapes(shapes: Shapes) { shapes.Shapes? ==> Plain(shapes.points) && Plain(shapes.lines) }

  lemma FieldSolid(o: Object, all: seq<Tag>, table: Table, c: Column, written: seq<string>)
    requires PlainObject(o)
    ensures Solid(OrNothing(FieldText(o, all, table, c, written)))
  {
    hide SentHstore, Escaped, Print, Braced, Plain, Strings;
    PrintIsPlain(-o.id);
    PrintIsPlain(o.id);
    PrintIsPlain(o.version);
    PrintIsPlain(o.x);
    PrintIsPlain(o.y);
    NumbersArePlain(o.nodes);
    forall s: string | Plain(s) ensures Solid(s) { PlainIsSolid(s); }
    if c.kind == TAGS_OTHER {
      SentHstoreSolid(Others(all, written, table.drop));
    } else if c.kind == TAG {
      if FirstValue(all, c.name).Some? { EscapedSolid(FirstValue(all, c.name).value); }
    } else if c.kind == USERNAME {
      EscapedSolid(o.user);
    } else if c.kind == GEOMETRY {
      SridPlain(o.wkb);
    }
  }

  lemma SridPlain(s: string)
    requires Plain(s)
    ensures Plain("SRID=4326;" + s)
  {
  }

  // ----- one field per column

  /** The text that belongs to a column. */
  function Cell(o: Object, all: seq<Tag>, table: Table, shapes: Shapes, c: Column, written: seq<string>): string {
    OrNothing(FieldText(o, all, table, c, written)) + OrNothing(ShapeText(shapes, c))
  }

  predicate Handled(o: Object, table: Table, c: Column) { FieldText(o, [], table, c, []).Some? }

  /** The column is followed by a separator if there is another one. */
  predicate Bounded(o: Object, table: Table, shapes: Shapes, c: Column) {
    Handled(o, table, c) || ShapeText(shapes, c).Some?
  }

  function Cells(o: Object, all: seq<Tag>, table: Table, shapes: Shapes, cols: seq<Column>, written: seq<string>):
    seq<string>
  {
    if cols == [] then []
    else [Cell(o, all, table, shapes, cols[0], written)]
         + Cells(o, all, table, shapes, cols[1..], written + WrittenBy(all, cols[0]))
  }

  lemma CellSolid(o: Object, all: seq<Tag>, table: Table, shapes: Shapes, c: Column, written: seq<string>)
    requires PlainObject(o) && PlainShapes(shapes)
    ensures Solid(Cell(o, all, table, shapes, c, written))
  {
    hide FieldText, Plain;
    FieldSolid(o, all, table, c, written);
    if ShapeText(shapes, c).Some? {
      SridPlain(if c.kind == GEOMETRY_MULTIPOINT then shapes.points else shapes.lines);
      PlainIsSolid(ShapeText(shapes, c).value);
    }
    SolidAppend(OrNothing(FieldText(o, all, table, c, written)), OrNothing(ShapeText(shapes, c)));
  }

  lemma HandledAnyhow(o: Object, all: seq<Tag>, table: Table, shapes: Shapes, c: Column, written: seq<string>)
    ensures FieldText(o, all, table, c, written).Some? <==> Handled(o, table, c)
    ensures ShapeText(shapes, c).Some? ==> !Handled(o, table, c)
  {
  }

  /** The first cell and what stands behind it. */
  lemma RowHead(o: Object, all: seq<Tag>, table: Table, shapes: Shapes, cols: seq<Column>, written: seq<string>)
    requires cols != []
    ensures var cell := Cell(o, all, table, shapes, cols[0], written);
            var rest := Row(o, all, table, shapes, cols[1..], written + WrittenBy(all, cols[0]), false);
            Row(o, all, table, shapes, cols, written, false) ==
              if |cols| == 1 then (if ShapeText(shapes, cols[0]).Some? then cell + "\t" + "" else cell)
              else if Bounded(o, table, shapes, cols[0]) then cell + "\t" + rest
              else rest
  {
    hide FieldText, WrittenBy, ShapeText, Handled;
    HandledAnyhow(o, all, table, shapes, cols[0], written);
    var text := OrNothing(FieldText(o, all, table, cols[0], written));
    var more := OrNothing(ShapeText(shapes, cols[0]));
    var w := written + WrittenBy(all, cols[0]);
    var tail := Row(o, all, table, shapes, cols[1..], w, Handled(o, table, cols[0]));
    assert Tab(false) + text == text;
    assert Row(o, all, table, shapes, cols, written, false) == text + After(shapes, cols[0]) + tail;
    if Handled(o, table, cols[0]) {
      assert text + "" == text;
      if |cols| > 1 {
        RowAdded(o, all, table, shapes, cols[1..], w);
        Assoc(text, "\t", Row(o, all, table, shapes, cols[1..], w, false));
      }
      assert text + "" == text;
    } else {
      assert text == "";
      if ShapeText(shapes, cols[0]).Some? {
        Assoc(text, more, "\t");
      } else {
        assert "" + "" + tail == tail && "" + "" == "";
      }
    }
  }

  lemma RowAdded(o: Object, all: seq<Tag>, table: Table, shapes: Shapes, cols: seq<Column>, written: seq<string>)
    requires cols != []
    ensures Row(o, all, table, shapes, cols, written, true) == "\t" + Row(o, all, table, shapes, cols, written, false)
  {
    hide FieldText, WrittenBy, After;
    var text := OrNothing(FieldText(o, all, table, cols[0], written));
    var after := After(shapes, cols[0]);
    var rest := Row(o, all, table, shapes, cols[1..], written + WrittenBy(all, cols[0]),
                    FieldText(o, all, table, cols[0], written).Some?);
    assert "" + text == text;
    Assoc("\t", text, after);
    Assoc("\t", text + after, rest);
  }

  /** How many fields a line has. */
  function Count(o: Object, table: Table, shapes: Shapes, cols: seq<Column>): nat {
    if cols == [] then 1
    else if |cols| == 1 then (if ShapeText(shapes, cols[0]).Some? then 2 else 1)
    else (if Bounded(o, table, shapes, cols[0]) then 1 else 0) + Count(o, table, shapes, cols[1..])
  }

  lemma {:induction false} RowCount(o: Object, all: seq<Tag>, table: Table, shapes: Shapes, cols: seq<Column>,
                                    written: seq<string>)
    requires PlainObject(o) && PlainShapes(shapes)
    ensures |Fields(Row(o, all, table, shapes, cols, written, false))| == Count(o, table, shapes, cols)
  {
    hide Cell, Bounded, WrittenBy, Row, PlainObject, PlainShapes, Fields, Solid;
    if cols == [] {
      NoRow(o, all, table, shapes, written);
      NoFields();
    } else {
      var cell := Cell(o, all, table, shapes, cols[0], written);
      var rest := Row(o, all, table, shapes, cols[1..], written + WrittenBy(all, cols[0]), false);
      RowHead(o, all, table, shapes, cols, written);
      CellSolid(o, all, table, shapes, cols[0], written);
      NoFields();
      SolidIsOneField(cell, "");
      SolidIsOneField(cell, rest);
      RowCount(o, all, table, shapes, cols[1..], written + WrittenBy(all, cols[0]));
    }
  }

  lemma NoFields()
    ensures Fields("") == [""]
  {
  }

  lemma NoRow(o: Object, all: seq<Tag>, table: Table, shapes: Shapes, written: seq<string>)
    ensures Row(o, all, table, shapes, [], written, false) == ""
  {
  }

  predicate FrontBounded(o: Object, table: Table, shapes: Shapes, cols: seq<Column>) {
    forall i :: 0 <= i < |cols| - 1 ==> Bounded(o, table, shapes, cols[i])
  }

  lemma {:induction false} CountBound(o: Object, table: Table, cols: seq<Column>)
    requires cols != []
    ensures Count(o, table, NoShapes, cols) <= |cols|
    ensures Count(o, table, NoShapes, cols) == |cols| <==> FrontBounded(o, table, NoShapes, cols)
  {
    hide Bounded;
    if |cols| > 1 {
      CountBound(o, table, cols[1..]);
      assert forall i :: 1 <= i < |cols| ==> cols[i] == cols[1..][i - 1];
      if FrontBounded(o, table, NoShapes, cols[1..]) && Bounded(o, table, NoShapes, cols[0]) {
        assert FrontBounded(o, table, NoShapes, cols);
      }
      if FrontBounded(o, table, NoShapes, cols) {
        forall i | 0 <= i < |cols[1..]| - 1 ensures Bounded(o, table, NoShapes, cols[1..][i]) {
          assert cols[1..][i] == cols[i + 1];
        }
      }
    }
  }

  /** A line of `prepare_query` has one field per column exactly if `fill_field` handles every column but
      perhaps the last: an unhandled column swallows the separator of the next one. */
  lemma OneFieldPerColumn(o: Object, all: seq<Tag>, table: Table)
    requires PlainObject(o) && table.columns != []
    ensures |Fields(Row(o, all, table, NoShapes, table.columns, [], false))| == |table.columns| <==>
            forall i :: 0 <= i < |table.columns| - 1 ==> Handled(o, table, table.columns[i])
  {
    hide Handled, PlainObject, Row, Fields;
    RowCount(o, all, table, NoShapes, table.columns, []);
    CountBound(o, table, table.columns);
  }

  predicate Separated(o: Object, table: Table, shapes: Shapes, cols: seq<Column>) {
    && FrontBounded(o, table, shapes, cols)
    && (cols != [] ==> ShapeText(shapes, cols[|cols| - 1]).None?)
  }

  /** Then the fields are the texts of the columns. */
  lemma {:induction false} RowCells(o: Object, all: seq<Tag>, table: Table, shapes: Shapes, cols: seq<Column>,
                                    written: seq<string>)
    requires PlainObject(o) && PlainShapes(shapes)
    requires cols != [] && Separated(o, table, shapes, cols)
    ensures Fields(Row(o, all, table, shapes, cols, written, false)) == Cells(o, all, table, shapes, cols, written)
  {
    hide Cell, Bounded, WrittenBy, Row, PlainObject, PlainShapes, Fields, Solid, ShapeText;
    var cell := Cell(o, all, table, shapes, cols[0], written);
    var rest := Row(o, all, table, shapes, cols[1..], written + WrittenBy(all, cols[0]), false);
    RowHead(o, all, table, shapes, cols, written);
    CellSolid(o, all, table, shapes, cols[0], written);
    SolidIsOneField(cell, rest);
    if |cols| > 1 {
      forall i | 0 <= i < |cols[1..]| - 1 ensures Bounded(o, table, shapes, cols[1..][i]) {
        assert cols[1..][i] == cols[i + 1];
      }
      RowCells(o, all, table, shapes, cols[1..], written + WrittenBy(all, cols[0]));
    } else {
      assert [cell] + [] == [cell];
      assert Cells(o, all, table, shapes, cols[1..], written + WrittenBy(all, cols[0])) == [];
    }
  }

  // ----- which tags go where

  function Written(all: seq<Tag>, cols: seq<Column>): seq<string> {
    if cols == [] then [] else WrittenBy(all, cols[0]) + Written(all, cols[1..])
  }

  lemma {:induction false} CellAt(o: Object, all: seq<Tag>, table: Table, shapes: Shapes, cols: seq<Column>,
                                  written: seq<string>, i: nat)
    requires i < |cols|
    ensures |Cells(o, all, table, shapes, cols, written)| == |cols|
    ensures Cells(o, all, table, shapes, cols, written)[i] ==
            Cell(o, all, table, shapes, cols[i], written + Written(all, cols[..i]))
    decreases |cols|
  {
    hide Cell, WrittenBy;
    var w := written + WrittenBy(all, cols[0]);
    if i > 0 {
      CellAt(o, all, table, shapes, cols[1..], w, i - 1);
      assert cols[..i][0] == cols[0] && cols[..i][1..] == cols[1..][..i - 1];
      Assoc(written, WrittenBy(all, cols[0]), Written(all, cols[1..][..i - 1]));
    } else {
      assert written + [] == written && cols[..0] == [];
      if |cols| > 1 { CellAt(o, all, table, shapes, cols[1..], w, 0); }
    }
  }

  /** The keys that have a column. */
  function TagNames(cols: seq<Column>): seq<string> {
    if cols == [] then [] else (if cols[0].kind == TAG then [cols[0].name] else []) + TagNames(cols[1..])
  }

  /** A key of a tag has been written exactly if it has a column. */
  lemma {:induction false} WrittenNames(all: seq<Tag>, cols: seq<Column>, key: string)
    requires FirstValue(all, key).Some?
    ensures key in Written(all, cols) <==> key in TagNames(cols)
  {
    if cols != [] { WrittenNames(all, cols[1..], key); }
  }

  lemma {:induction false} ValueOfMember(tags: seq<Tag>, i: nat)
    requires i < |tags|
    ensures FirstValue(tags, tags[i].key).Some?
  {
    if i > 0 { ValueOfMember(tags[1..], i - 1); }
  }

  lemma {:induction false} OthersSame(tags: seq<Tag>, w: seq<string>, names: seq<string>, drop: Tag -> bool)
    requires forall i :: 0 <= i < |tags| ==> (tags[i].key in w <==> tags[i].key in names)
    ensures Others(tags, w, drop) == Others(tags, names, drop)
  {
    if tags != [] { OthersSame(tags[1..], w, names, drop); }
  }

  /** The tags that have no column of their own and are not dropped, in order. */
  function Leftover(all: seq<Tag>, table: Table): seq<Tag> { Others(all, TagNames(table.columns), table.drop) }

  lemma OthersAreLeftover(all: seq<Tag>, table: Table)
    requires table.columns != [] && table.columns[|table.columns| - 1].kind != TAG
    ensures Others(all, Written(all, table.columns[..|table.columns| - 1]), table.drop) == Leftover(all, table)
  {
    var cols := table.columns;
    var front := cols[..|cols| - 1];
    TagNamesFront(cols);
    forall i | 0 <= i < |all| ensures all[i].key in Written(all, front) <==> all[i].key in TagNames(cols) {
      ValueOfMember(all, i);
      WrittenNames(all, front, all[i].key);
    }
    OthersSame(all, Written(all, front), TagNames(cols), table.drop);
  }

  lemma {:induction false} TagNamesFront(cols: seq<Column>)
    requires cols != [] && cols[|cols| - 1].kind != TAG
    ensures TagNames(cols[..|cols| - 1]) == TagNames(cols)
  {
    if |cols| > 1 {
      TagNamesFront(cols[1..]);
      assert cols[..|cols| - 1][1..] == cols[1..][..|cols| - 2];
    } else {
      assert cols[1..] == [];
    }
  }

  // ----- reading a row

  /** The first value of a key, or NULL. */
  function TagValue(all: seq<Tag>, key: string): Field {
    match FirstValue(all, key) case None => Null case Some(v) => Text(v)
  }

  /** The field of a tag column. */
  lemma TagField(o: Object, all: seq<Tag>, table: Table, shapes: Shapes, c: Column, written: seq<string>)
    requires c.kind == TAG
    ensures FieldOf(Cell(o, all, table, shapes, c, written)) == TagValue(all, c.name)
  {
    hide Escaped, CopyDecode;
    var text := FieldText(o, all, table, c, written).value;
    assert text + "" == text;
    if FirstValue(all, c.name).Some? { EscapeRoundTrip(FirstValue(all, c.name).value); }
  }

  lemma HstoreField(o: Object, all: seq<Tag>, table: Table, shapes: Shapes, c: Column, written: seq<string>)
    requires c.kind == TAGS_OTHER
    ensures var f := FieldOf(Cell(o, all, table, shapes, c, written));
            f.Text? && ParseFrom(f.text, 0) == Ok(Others(all, written, table.drop))
  {
    hide CopyDecode, Others, ParseFrom, HstoreEscaped;
    var ps := Others(all, written, table.drop);
    var text := SentHstore(ps);
    assert text + "" == text;
    SentHstoreRoundTrip(ps);
    if ps != [] {
      QuoteFirst(ps[0].key);
      assert text[0] == '"';
    }
  }

  lemma QuoteFirst(s: string)
    ensures HstoreEscaped(s) != "" && HstoreEscaped(s)[0] == '"'
  {
  }

  lemma PlainField(s: string)
    requires Plain(s)
    ensures FieldOf(s) == Text(s)
  {
    PlainDecodes(s, "");
    assert s + "" == s;
    assert CopyDecode("") == Some("");
  }

  predicate HoldsNumber(field: string, n: int) {
    FieldOf(field) == Text(Print(n)) && (INT64_MIN <= n <= INT64_MAX ==> StrToLL(Print(n)) == n)
  }

  predicate HoldsIds(field: string, ids: seq<int>) {
    var f := FieldOf(field);
    f.Text? && var parsed := PgArray.ParseFrom(f.text, 1); parsed.Ok? && Ids(parsed.value) == ids
  }

  /** What a reader finds in a column other than the hstore column: the value of the object, or of its tag. */
  predicate ColumnRight(o: Object, all: seq<Tag>, table: Table, shapes: Shapes, c: Column, field: string) {
    match c.kind
    case TAG => FieldOf(field) == TagValue(all, c.name)
    case OSM_ID => HoldsNumber(field, StoredId(o))
    case VERSION => HoldsNumber(field, o.version)
    case UID => HoldsNumber(field, o.version)
    case CHANGESET => HoldsNumber(field, o.version)
    case USERNAME => FieldOf(field) == Text(o.user)
    case TIMESTAMP => FieldOf(field) == Text(o.timestamp)
    case GEOMETRY => FieldOf(field) == Text("SRID=4326;" + o.wkb)
    case WAY_NODES => o.kind == Way && table.updateable && AllInt64(o.nodes) ==> HoldsIds(field, o.nodes)
    case LATITUDE => o.kind == Node ==> HoldsNumber(field, o.y)
    case LONGITUDE => o.kind == Node ==> HoldsNumber(field, o.x)
    case GEOMETRY_MULTIPOINT => shapes.Shapes? ==> FieldOf(field) == Text("SRID=4326;" + shapes.points)
    case GEOMETRY_MULTILINESTRING => shapes.Shapes? ==> FieldOf(field) == Text("SRID=4326;" + shapes.lines)
    case _ => true
  }

  lemma NumberField(n: int)
    ensures HoldsNumber(Print(n), n)
  {
    PrintIsPlain(n);
    PlainField(Print(n));
    if INT64_MIN <= n <= INT64_MAX { PrintRoundTrip(n); }
  }

  lemma ColumnField(o: Object, all: seq<Tag>, table: Table, shapes: Shapes, c: Column, written: seq<string>)
    requires PlainObject(o) && PlainShapes(shapes)
    ensures ColumnRight(o, all, table, shapes, c, Cell(o, all, table, shapes, c, written))
  {
    hide HoldsNumber, HoldsIds, FieldOf, Print, Escaped, Braced, Strings, SentHstore, Others, FirstValue, Plain,
         AllInt64;
    var cell := Cell(o, all, table, shapes, c, written);
    var text := OrNothing(FieldText(o, all, table, c, written));
    if ShapeText(shapes, c).None? { assert text + "" == text; }
    match c.kind
    case TAG => TagField(o, all, table, shapes, c, written);
    case OSM_ID => NumberField(StoredId(o));
    case VERSION => NumberField(o.version);
    case UID => NumberField(o.version);
    case CHANGESET => NumberField(o.version);
    case USERNAME => EscapeRoundTrip(o.user);
    case TIMESTAMP => PlainField(o.timestamp);
    case GEOMETRY => SridPlain(o.wkb); PlainField("SRID=4326;" + o.wkb);
    case WAY_NODES => if AllInt64(o.nodes) { NodesField(o.nodes); }
    case LATITUDE => NumberField(o.y);
    case LONGITUDE => NumberField(o.x);
    case GEOMETRY_MULTIPOINT => if shapes.Shapes? { ShapeField(shapes.points); }
    case GEOMETRY_MULTILINESTRING => if shapes.Shapes? { ShapeField(shapes.lines); }
    case _ =>
  }

  lemma ShapeField(wkb: string)
    requires Plain(wkb)
    ensures FieldOf("" + ("SRID=4326;" + wkb)) == Text("SRID=4326;" + wkb)
  {
    var text := "SRID=4326;" + wkb;
    assert "" + text == text;
    SridPlain(wkb);
    PlainField(text);
  }

  lemma NodesField(ids: seq<int>)
    requires AllInt64(ids)
    ensures HoldsIds(Braced(Strings(ids, Print)), ids)
  {
    IdsRoundTrip(ids);
  }

  predicate HstoreLast(cols: seq<Column>) { cols != [] && cols[|cols| - 1].kind == TAGS_OTHER }

  /** Main result: a line splits at raw tabs into one field per column. A tag column holds the first value of its key,
      the object's before the relation's, or NULL; the other columns hold the id, the metadata, the geometry and the
      node list of the object, which can be read back; the hstore column holds exactly the other tags that are not
      dropped, in their order. Because the hstore column is the last one, no tag is stored twice. */
  lemma RowRoundTrip(o: Object, relationTags: Option<seq<Tag>>, table: Table, shapes: Shapes)
    requires PlainObject(o) && PlainShapes(shapes)
    requires table.columns != [] && Separated(o, table, shapes, table.columns)
    ensures var all := AllTags(o, relationTags);
            var fields := Fields(Row(o, all, table, shapes, table.columns, [], false));
            && |fields| == |table.columns|
            && (forall i :: 0 <= i < |fields| ==> ColumnRight(o, all, table, shapes, table.columns[i], fields[i]))
            && (HstoreLast(table.columns) ==>
                  var f := FieldOf(fields[|fields| - 1]);
                  f.Text? && ParseFrom(f.text, 0) == Ok(Leftover(all, table)))
  {
    hide Row, Fields, Separated, PlainObject, PlainShapes, Cell, AllTags, FieldOf, ParseFrom, Cells, Leftover,
         ColumnRight;
    var all, cols := AllTags(o, relationTags), table.columns;
    RowCells(o, all, table, shapes, cols, []);
    var fields := Fields(Row(o, all, table, shapes, cols, [], false));
    CellAt(o, all, table, shapes, cols, [], |cols| - 1);
    forall i | 0 <= i < |fields| ensures ColumnRight(o, all, table, shapes, cols[i], fields[i]) {
      CellAt(o, all, table, shapes, cols, [], i);
      ColumnField(o, all, table, shapes, cols[i], [] + Written(all, cols[..i]));
    }
    if HstoreLast(cols) {
      var w := Written(all, cols[..|cols| - 1]);
      assert [] + w == w;
      HstoreField(o, all, table, shapes, cols[|cols| - 1], w);
      OthersAreLeftover(all, table);
    }
  }

  // ----- reading a row by key

  function ColumnOf(cols: seq<Column>, key: string): (i: nat)
    requires key in TagNames(cols)
    ensures i < |cols| && cols[i].kind == TAG && cols[i].name == key
  {
    if cols[0].kind == TAG && cols[0].name == key then 0 else 1 + ColumnOf(cols[1..], key)
  }

  function TextOf(f: Field): Option<string> { match f case Text(t) => Some(t) case _ => None }

  /** What a query finds under a key: the column of that name if there is one, otherwise the hstore, where
      the first of equal keys counts. */
  function Stored(cols: seq<Column>, fields: seq<string>, key: string): Option<string>
    requires |fields| == |cols| >= 1
  {
    if key in TagNames(cols) then TextOf(FieldOf(fields[ColumnOf(cols, key)]))
    else
      match TextOf(FieldOf(fields[|fields| - 1]))
      case None => None
      case Some(t) => match ParseFrom(t, 0) case Err(_) => None case Ok(ps) => FirstValue(ps, key)
  }

  /** The first value of a key among the tags that are not dropped. */
  function FirstKept(tags: seq<Tag>, key: string, drop: Tag -> bool): Option<string> {
    if tags == [] then None
    else if tags[0].key == key && !drop(tags[0]) then Some(tags[0].value)
    else FirstKept(tags[1..], key, drop)
  }

  /** The tags of the object count before those of its relation; what is dropped is seen only in a column of its own. */
  function Merged(o: Object, relationTags: Option<seq<Tag>>, table: Table, key: string): Option<string> {
    var column := key in TagNames(table.columns);
    var own := if column then FirstValue(o.tags, key) else FirstKept(o.tags, key, table.drop);
    if own.Some? || relationTags.None? then own
    else if column then FirstValue(relationTags.value, key)
    else FirstKept(relationTags.value, key, table.drop)
  }

  lemma {:induction false} FirstOther(tags: seq<Tag>, names: seq<string>, drop: Tag -> bool, key: string)
    requires key !in names
    ensures FirstValue(Others(tags, names, drop), key) == FirstKept(tags, key, drop)
  {
    if tags != [] {
      FirstOther(tags[1..], names, drop, key);
      FirstValueAppend(if tags[0].key !in names && !drop(tags[0]) then [tags[0]] else [],
                       Others(tags[1..], names, drop), key);
      assert [tags[0]][1..] == [];
    }
  }

  lemma MergedFirst(o: Object, relationTags: Option<seq<Tag>>, table: Table, key: string)
    ensures var all, names := AllTags(o, relationTags), TagNames(table.columns);
            Merged(o, relationTags, table, key) ==
            if key in names then FirstValue(all, key) else FirstValue(Others(all, names, table.drop), key)
  {
    hide FirstValue, FirstKept, Others, TagNames;
    var names, drop := TagNames(table.columns), table.drop;
    var more := if relationTags.Some? then relationTags.value else [];
    FirstValueAppend(o.tags, more, key);
    OthersAppend(o.tags, more, names, drop);
    FirstValueAppend(Others(o.tags, names, drop), Others(more, names, drop), key);
    if key !in names {
      FirstOther(o.tags, names, drop, key);
      FirstOther(more, names, drop, key);
    }
    NoTags(names, drop, key);
  }

  lemma NoTags(names: seq<string>, drop: Tag -> bool, key: string)
    ensures FirstValue([], key) == None && Others([], names, drop) == []
  {
  }

  /** Tag conservation: under every key the database finds what the merge of the tags says. */
  lemma TagConservation(o: Object, relationTags: Option<seq<Tag>>, table: Table, shapes: Shapes, key: string)
    requires PlainObject(o) && PlainShapes(shapes)
    requires HstoreLast(table.columns) && Separated(o, table, shapes, table.columns)
    ensures var fields := Fields(Row(o, AllTags(o, relationTags), table, shapes, table.columns, [], false));
            && |fields| == |table.columns|
            && Stored(table.columns, fields, key) == Merged(o, relationTags, table, key)
  {
    hide Row, Fields, Separated, PlainObject, PlainShapes, AllTags, FieldOf, ParseFrom, FirstValue, Others, Merged,
         HoldsNumber, HoldsIds;
    RowRoundTrip(o, relationTags, table, shapes);
    MergedFirst(o, relationTags, table, key);
  }

  // ----- the tables of the program

  /** Which lines `prepare_query` is asked for. */
  predicate Feeds(o: Object, t: TableType) {
    match t
    case POINT => o.kind == Node
    case UNTAGGED_POINT => o.kind == Node
    case WAYS_LINEAR => o.kind == Way
    case AREA => o.kind == AreaOfWay || o.kind == AreaOfRelation
    case _ => false
  }

  predicate TagColumns(cols: seq<Column>) { forall i :: 0 <= i < |cols| ==> cols[i].kind == TAG }

  lemma MetadataHandled(config: Config, t: TableType, o: Object, table: Table, c: Column)
    requires c in Metadata(config, t)
    ensures Handled(o, table, c) && c.kind != TAGS_OTHER && c.kind != GEOMETRY
    ensures c.kind != GEOMETRY_MULTIPOINT && c.kind != GEOMETRY_MULTILINESTRING
  {
    hide Metadata;
    MetadataKinds(config, t, c);
  }

  lemma MetadataKinds(config: Config, t: TableType, c: Column)
    requires c in Metadata(config, t)
    ensures c.kind in {OSM_ID, USERNAME, UID, VERSION, TIMESTAMP, CHANGESET}
  {
    assert c == Column("osm_id", OSM_ID)
           || c in If(config.user, Column("osm_user", USERNAME)) || c in If(config.uid, Column("osm_uid", UID))
           || c in If(config.version, Column("osm_version", VERSION))
           || c in If(config.timestamp, Column("osm_lastmodified", TIMESTAMP))
           || c in If(config.changeset, Column("osm_changeset", CHANGESET));
  }

  /** The columns of every table are such that `prepare_query` writes one field for each of them, and the
      hstore column is the last one and the only one of its kind. */
  lemma TablesAreSeparated(config: Config, additional: seq<Column>, t: TableType, o: Object, table: Table)
    requires TagColumns(additional) && Feeds(o, t) && table.columns == AllColumns(config, additional, t)
    ensures table.columns != [] && Separated(o, table, NoShapes, table.columns)
    ensures HstoreLast(table.columns) <==> t != UNTAGGED_POINT && config.hstore
    ensures forall i :: 0 <= i < |table.columns| - 1 ==> table.columns[i].kind != TAGS_OTHER
  {
    hide Metadata;
    var cols := table.columns;
    var m, w := Metadata(config, t), OwnColumns(t);
    forall c | c in m + w + additional ensures Handled(o, table, c) && c.kind != TAGS_OTHER {
      if c in m { MetadataHandled(config, t, o, table, c); }
    }
    forall i | 0 <= i < |cols|
      ensures Handled(o, table, cols[i]) && (i < |m + w + additional| ==> cols[i].kind != TAGS_OTHER)
    {
      if i < |m + w + additional| { assert cols[i] == (m + w + additional)[i]; }
    }
    assert |w| >= 1;
  }

  /** A line for a relation has one field per column exactly if there is an hstore column: the second geometry
      collection always writes a separator behind itself. */
  lemma RelationLines(config: Config, o: Object, relationTags: Option<seq<Tag>>, table: Table, shapes: Shapes)
    requires PlainObject(o) && PlainShapes(shapes) && shapes.Shapes? && o.kind == Relation
    requires table.columns == AllColumns(config, [], RELATION_OTHER)
    ensures Separated(o, table, shapes, table.columns) <==> config.hstore
    ensures var n := |Fields(Row(o, AllTags(o, relationTags), table, shapes, table.columns, [], false))|;
            n == |table.columns| + if config.hstore then 0 else 1
  {
    var cols := table.columns;
    var m, w := Metadata(config, RELATION_OTHER), OwnColumns(RELATION_OTHER);
    assert |w| == 2 && m + w + [] == m + w;
    RelationColumnsBounded(config, o, table, shapes);
    assert cols[|cols| - 1] == if config.hstore then HSTORE_COLUMN else w[1];
    hide Row, Fields, PlainObject, PlainShapes, AllTags, Bounded, ShapeText, Metadata;
    BoundedCount(o, table, shapes, cols);
    RowCount(o, AllTags(o, relationTags), table, shapes, cols, []);
  }

  lemma RelationColumnsBounded(config: Config, o: Object, table: Table, shapes: Shapes)
    requires shapes.Shapes? && o.kind == Relation && table.columns == AllColumns(config, [], RELATION_OTHER)
    ensures forall i :: 0 <= i < |table.columns| ==> Bounded(o, table, shapes, table.columns[i])
    ensures ShapeText(shapes, HSTORE_COLUMN).None? && ShapeText(shapes, OwnColumns(RELATION_OTHER)[1]).Some?
  {
    hide Metadata;
    var cols := table.columns;
    forall i | 0 <= i < |cols| ensures Bounded(o, table, shapes, cols[i]) {
      if cols[i] in Metadata(config, RELATION_OTHER) {
        MetadataHandled(config, RELATION_OTHER, o, table, cols[i]);
      } else {
        assert cols[i] in OwnColumns(RELATION_OTHER) + If(config.hstore, HSTORE_COLUMN);
      }
    }
  }

  lemma {:induction false} BoundedCount(o: Object, table: Table, shapes: Shapes, cols: seq<Column>)
    requires cols != [] && forall i :: 0 <= i < |cols| ==> Bounded(o, table, shapes, cols[i])
    ensures Count(o, table, shapes, cols) == |cols| + if ShapeText(shapes, cols[|cols| - 1]).Some? then 1 else 0
  {
    if |cols| > 1 { BoundedCount(o, table, shapes, cols[1..]); }
  }

  // ----- reading a row by the name of a column

  /** What a query on the table finds under a name, written out. */
  predicate NamedRight(o: Object, shapes: Shapes, name: string, field: string) {
    && (name == "osm_id" ==> HoldsNumber(field, if o.kind == AreaOfRelation then -o.id else o.id))
    && (name == "osm_user" ==> FieldOf(field) == Text(o.user))
    && (name == "osm_uid" || name == "osm_version" || name == "osm_changeset" ==> HoldsNumber(field, o.version))
    && (name == "osm_lastmodified" ==> FieldOf(field) == Text(o.timestamp))
    && (name == "x" && o.kind == Node ==> HoldsNumber(field, o.x))
    && (name == "y" && o.kind == Node ==> HoldsNumber(field, o.y))
    && (name == "geom" ==> FieldOf(field) == Text("SRID=4326;" + o.wkb))
    && (name == "geom_points" && shapes.Shapes? ==> FieldOf(field) == Text("SRID=4326;" + shapes.points))
    && (name == "geom_lines" && shapes.Shapes? ==> FieldOf(field) == Text("SRID=4326;" + shapes.lines))
  }

  /** The columns of the program, by name. */
  lemma RowByName(config: Config, additional: seq<Column>, t: TableType, o: Object, relationTags: Option<seq<Tag>>,
                  table: Table, shapes: Shapes, i: nat)
    requires PlainObject(o) && PlainShapes(shapes) && IsObjectTable(t)
    requires table.columns == AllColumns(config, additional, t) && Separated(o, table, shapes, table.columns)
    requires i < |Metadata(config, t)| + |OwnColumns(t)|
    ensures var fields := Fields(Row(o, AllTags(o, relationTags), table, shapes, table.columns, [], false));
            |fields| == |table.columns| && NamedRight(o, shapes, table.columns[i].name, fields[i])
  {
    hide Row, Fields, Separated, PlainObject, PlainShapes, AllTags, FieldOf, ParseFrom, Leftover, HoldsNumber, HoldsIds,
         AllInt64, Metadata, OwnColumns;
    RowRoundTrip(o, relationTags, table, shapes);
    var m, w, c := Metadata(config, t), OwnColumns(t), table.columns[i];
    assert c == if i < |m| then m[i] else w[i - |m|];
    KindOfName(config, t, c);
  }

  lemma KindOfName(config: Config, t: TableType, c: Column)
    requires IsObjectTable(t) && (c in Metadata(config, t) || c in OwnColumns(t))
    ensures (c.name, c.kind) in {("osm_id", OSM_ID), ("osm_user", USERNAME), ("osm_uid", UID), ("osm_version", VERSION),
                                 ("osm_changeset", CHANGESET), ("osm_lastmodified", TIMESTAMP), ("x", LONGITUDE),
                                 ("y", LATITUDE), ("geom", GEOMETRY), ("geom_points", GEOMETRY_MULTIPOINT),
                                 ("geom_lines", GEOMETRY_MULTILINESTRING)}
  {
  }

  ghost predicate HasColumn(cols: seq<Column>, name: string) { exists c :: c in cols && c.name == name }

  lemma ColumnIn(a: seq<Column>, wanted: bool, c: Column, name: string)
    ensures HasColumn(a + If(wanted, c), name) <==> HasColumn(a, name) || (wanted && c.name == name)
  {
    if HasColumn(a, name) {
      var d :| d in a && d.name == name;
      assert d in a + If(wanted, c);
    }
    if wanted { assert c in a + If(wanted, c); }
  }

  /** Which metadata a table of objects has: the id always, the rest as configured. */
  lemma MetadataByName(config: Config, t: TableType, name: string)
    requires IsObjectTable(t)
    ensures HasColumn(Metadata(config, t), name) <==>
            (match name
             case "osm_id" => true
             case "osm_user" => config.user
             case "osm_uid" => config.uid
             case "osm_version" => config.version
             case "osm_lastmodified" => config.timestamp
             case "osm_changeset" => config.changeset
             case _ => false)
  {
    hide If, HasColumn;
    var a0 := [Column("osm_id", OSM_ID)];
    OneColumn(a0[0], name);
    var a1 := a0 + If(config.user, Column("osm_user", USERNAME));
    ColumnIn(a0, config.user, Column("osm_user", USERNAME), name);
    var a2 := a1 + If(config.uid, Column("osm_uid", UID));
    ColumnIn(a1, config.uid, Column("osm_uid", UID), name);
    var a3 := a2 + If(config.version, Column("osm_version", VERSION));
    ColumnIn(a2, config.version, Column("osm_version", VERSION), name);
    var a4 := a3 + If(config.timestamp, Column("osm_lastmodified", TIMESTAMP));
    ColumnIn(a3, config.timestamp, Column("osm_lastmodified", TIMESTAMP), name);
    ColumnIn(a4, config.changeset, Column("osm_changeset", CHANGESET), name);
  }

  lemma OneColumn(c: Column, name: string)
    ensures HasColumn([c], name) <==> c.name == name
  {
    assert c in [c];
  }

  /** Which columns a table has for its geometry. */
  lemma GeometryByName(t: TableType, name: string)
    requires IsObjectTable(t)
    ensures HasColumn(OwnColumns(t), name) <==>
            (match name
             case "x" => t == UNTAGGED_POINT
             case "y" => t == UNTAGGED_POINT
             case "geom_points" => t == RELATION_OTHER
             case "geom_lines" => t == RELATION_OTHER
             case "geom" => t !in {OTHER_TABLE, UNTAGGED_POINT, RELATION_OTHER}
             case _ => false)
  {
    var cols := OwnColumns(t);
    assert forall c :: c in cols <==> exists i :: 0 <= i < |cols| && cols[i] == c;
    if cols != [] { assert cols[0] in cols; }
    if |cols| > 1 { assert cols[1] in cols; }
  }

  /** The line that `prepare_relation_query` writes for the table of relations with an hstore column: the collection of
      points is under `geom_points`, that of lines under `geom_lines`. */
  lemma RelationLine(config: Config, o: Object, table: Table, points: string, lines: string, line: string)
    requires PlainObject(o) && Plain(points) && Plain(lines) && o.kind == Relation && config.hstore
    requires table.columns == AllColumns(config, [], RELATION_OTHER)
    requires line == Row(o, AllTags(o, None), table, Shapes(points, lines), table.columns, [], false) + "\n"
    ensures var n, fields := |Metadata(config, RELATION_OTHER)|, Fields(line[..|line| - 1]);
            && |fields| == |table.columns| == n + 3
            && table.columns[n].name == "geom_points" && FieldOf(fields[n]) == Text("SRID=4326;" + points)
            && table.columns[n + 1].name == "geom_lines" && FieldOf(fields[n + 1]) == Text("SRID=4326;" + lines)
  {
    var shapes := Shapes(points, lines);
    var row := Row(o, AllTags(o, None), table, shapes, table.columns, [], false);
    assert (row + "\n")[..|row|] == row;
    var n := |Metadata(config, RELATION_OTHER)|;
    assert |OwnColumns(RELATION_OTHER)| == 2 && |table.columns| == n + 3;
    assert table.columns[n].name == "geom_points" && table.columns[n + 1].name == "geom_lines";
    hide Row, Fields, Separated, PlainObject, Plain, AllTags, FieldOf, HoldsNumber, Metadata;
    RelationLines(config, o, None, table, shapes);
    RowByName(config, [], RELATION_OTHER, o, None, table, shapes, n);
    RowByName(config, [], RELATION_OTHER, o, None, table, shapes, n + 1);
  }

  /** No line end of its own: the line is one line for COPY. */
  predicate OneLine(s: string) {
    s == "" ||
    (if s[0] == '\\' then |s| > 1 && OneLine(s[2..]) else s[0] != '\n' && s[0] != '\r' && OneLine(s[1..]))
  }

  lemma {:induction false} SolidThenLine(a: string, b: string)
    requires Solid(a) && OneLine(b)
    ensures OneLine(a + b)
  {
    if a == "" {
      assert a + b == b;
    } else {
      var n := if a[0] == '\\' then 2 else 1;
      assert (a + b)[n..] == a[n..] + b;
      SolidThenLine(a[n..], b);
    }
  }

  lemma {:induction false} RowIsOneLine(o: Object, all: seq<Tag>, table: Table, shapes: Shapes, cols: seq<Column>,
                                        written: seq<string>)
    requires PlainObject(o) && PlainShapes(shapes)
    ensures OneLine(Row(o, all, table, shapes, cols, written, false))
  {
    hide Cell, Bounded, WrittenBy, Row, PlainObject, PlainShapes, Solid;
    if cols == [] {
      NoRow(o, all, table, shapes, written);
    } else {
      var cell := Cell(o, all, table, shapes, cols[0], written);
      var rest := Row(o, all, table, shapes, cols[1..], written + WrittenBy(all, cols[0]), false);
      RowHead(o, all, table, shapes, cols, written);
      CellSolid(o, all, table, shapes, cols[0], written);
      RowIsOneLine(o, all, table, shapes, cols[1..], written + WrittenBy(all, cols[0]));
      forall s: string | OneLine(s) ensures OneLine(cell + "\t" + s) {
        assert ("\t" + s)[1..] == s;
        SolidThenLine(cell, "\t" + s);
        Assoc(cell, "\t", s);
      }
      assert OneLine("");
      SolidThenLine(cell, "");
      assert cell + "" == cell;
    }
  }
}
