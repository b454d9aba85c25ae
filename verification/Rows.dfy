/** Rows of the tables for OSM objects: the column order fixed by `postgres_drivers::Columns` and the
    lines built by `fill_field`, `prepare_query` and `prepare_relation_query`
    (src/postgres_handler.cpp). */
module Rows {
  import opened Sequences
  import opened Wrappers
  import opened CopyText
  import opened Decimal
  import opened HStore
  import opened ArrayText

  type Tag = Pair

  datatype ColumnClass =
    | TAGS_OTHER | TAG | OSM_ID | VERSION | UID | USERNAME | CHANGESET | TIMESTAMP | GEOMETRY | WAY_NODES
    | GEOMETRY_MULTIPOINT | GEOMETRY_MULTILINESTRING | OTHER | NODE_ID | WAY_ID | RELATION_ID
    | LONGITUDE | LATITUDE | ROLE

  datatype Column = Column(name: string, kind: ColumnClass)

  datatype TableType =
    | OTHER_TABLE | POINT | UNTAGGED_POINT | WAYS_LINEAR | WAYS_POLYGON | RELATION_POLYGON | RELATION_OTHER | AREA
    | NODE_WAYS | RELATION_MEMBER_NODES | RELATION_MEMBER_WAYS | RELATION_MEMBER_RELATIONS

  datatype Config = Config(hstore: bool, user: bool, uid: bool, version: bool, timestamp: bool, changeset: bool)

  // ----- columns

  predicate IsObjectTable(t: TableType) {
    !(t.NODE_WAYS? || t.RELATION_MEMBER_NODES? || t.RELATION_MEMBER_WAYS? || t.RELATION_MEMBER_RELATIONS?)
  }

  function MemberColumns(member: ColumnClass): seq<Column> {
    [Column("member_id", member), Column("relation_id", OSM_ID), Column("position", OTHER), Column("role", ROLE)]
  }

  /** The columns that only depend on the table. */
  function OwnColumns(t: TableType): seq<Column> {
    match t
    case OTHER_TABLE => []
    case UNTAGGED_POINT => [Column("x", LONGITUDE), Column("y", LATITUDE)]
    case RELATION_OTHER => [Column("geom_points", GEOMETRY_MULTIPOINT), Column("geom_lines", GEOMETRY_MULTILINESTRING)]
    case NODE_WAYS => [Column("way_id", OSM_ID), Column("node_id", NODE_ID), Column("position", OTHER)]
    case RELATION_MEMBER_NODES => MemberColumns(NODE_ID)
    case RELATION_MEMBER_WAYS => MemberColumns(WAY_ID)
    case RELATION_MEMBER_RELATIONS => MemberColumns(RELATION_ID)
    case _ => [Column("geom", GEOMETRY)]
  }

  function MetadataColumns(config: Config): seq<Column> {
    [Column("osm_id", OSM_ID)]
    + If(config.user, Column("osm_user", USERNAME))
    + If(config.uid, Column("osm_uid", UID))
    + If(config.version, Column("osm_version", VERSION))
    + If(config.timestamp, Column("osm_lastmodified", TIMESTAMP))
    + If(config.changeset, Column("osm_changeset", CHANGESET))
  }

  function Metadata(config: Config, t: TableType): seq<Column> {
    if IsObjectTable(t) then MetadataColumns(config) else []
  }

  predicate HasHstore(config: Config, t: TableType) { IsObjectTable(t) && t != UNTAGGED_POINT && config.hstore }

  const HSTORE_COLUMN := Column("tags", TAGS_OTHER)

  function AllColumns(config: Config, additional: seq<Column>, t: TableType): seq<Column> {
    Metadata(config, t) + OwnColumns(t) + additional + If(HasHstore(config, t), HSTORE_COLUMN)
  }

  class Columns {
    var columns: seq<Column>

    constructor (config: Config, additional: seq<Column>, t: TableType)
      ensures columns == AllColumns(config, additional, t)
    {
      columns := [];
      new;
      Init(config, t);
      for i := 0 to |additional|
        invariant columns == Metadata(config, t) + OwnColumns(t) + additional[..i]
      {
        columns := columns + [additional[i]];
      }
      assert additional[..|additional|] == additional;
      if IsObjectTable(t) && t != UNTAGGED_POINT {
        AddHstoreColumn(config);
      }
    }

    method AddHstoreColumn(config: Config)
      modifies this
      ensures columns == old(columns) + If(config.hstore, HSTORE_COLUMN)
    {
      if config.hstore {
        columns := columns + [HSTORE_COLUMN];
      }
    }

    method AddIf(wanted: bool, c: Column)
      modifies this
      ensures columns == old(columns) + If(wanted, c)
    {
      if wanted {
        columns := columns + [c];
      }
    }

    method AddMetadata(config: Config)
      modifies this
      ensures columns == old(columns) + MetadataColumns(config)
    {
      hide If;
      columns := columns + [Column("osm_id", OSM_ID)];
      AddIf(config.user, Column("osm_user", USERNAME));
      AddIf(config.uid, Column("osm_uid", UID));
      AddIf(config.version, Column("osm_version", VERSION));
      AddIf(config.timestamp, Column("osm_lastmodified", TIMESTAMP));
      AddIf(config.changeset, Column("osm_changeset", CHANGESET));
      Appended(old(columns), [Column("osm_id", OSM_ID)], If(config.user, Column("osm_user", USERNAME)),
               If(config.uid, Column("osm_uid", UID)), If(config.version, Column("osm_version", VERSION)),
               If(config.timestamp, Column("osm_lastmodified", TIMESTAMP)),
               If(config.changeset, Column("osm_changeset", CHANGESET)));
    }

    method AddOwnColumns(t: TableType)
      modifies this
      ensures columns == old(columns) + OwnColumns(t)
    {
      match t {
        case UNTAGGED_POINT => columns := columns + [Column("x", LONGITUDE), Column("y", LATITUDE)];
        case RELATION_OTHER =>
          columns := columns
            + [Column("geom_points", GEOMETRY_MULTIPOINT), Column("geom_lines", GEOMETRY_MULTILINESTRING)];
        case NODE_WAYS =>
          columns := columns + [Column("way_id", OSM_ID), Column("node_id", NODE_ID), Column("position", OTHER)];
        case RELATION_MEMBER_NODES => columns := columns + MemberColumns(NODE_ID);
        case RELATION_MEMBER_WAYS => columns := columns + MemberColumns(WAY_ID);
        case RELATION_MEMBER_RELATIONS => columns := columns + MemberColumns(RELATION_ID);
        case OTHER_TABLE =>
        case _ => columns := columns + [Column("geom", GEOMETRY)];
      }
    }

    method Init(config: Config, t: TableType)
      modifies this
      ensures columns == old(columns) + (Metadata(config, t) + OwnColumns(t))
    {
      if IsObjectTable(t) {
        AddMetadata(config);
      }
      AddOwnColumns(t);
    }
  }

  lemma Appended<T>(s: seq<T>, a: seq<T>, b: seq<T>, c: seq<T>, d: seq<T>, e: seq<T>, f: seq<T>)
    ensures s + a + b + c + d + e + f == s + (a + b + c + d + e + f)
  {
    Assoc(s, a, b);
    Assoc(s, a + b, c);
    Assoc(s, a + b + c, d);
    Assoc(s, a + b + c + d, e);
    Assoc(s, a + b + c + d + e, f);
  }

  // ----- objects and fields

  datatype ObjectKind = Node | Way | Relation | AreaOfWay | AreaOfRelation

  /** `wkb` is what the geometry factory made of the object, `timestamp` its time in ISO format. For an
      area `id` is the id of the way or relation. */
  datatype Object = Object(kind: ObjectKind, id: int, version: nat, user: string, timestamp: string,
                           tags: seq<Tag>, wkb: string, x: int, y: int, nodes: seq<int>)

  datatype Table = Table(columns: seq<Column>, drop: Tag -> bool, updateable: bool)

  /** First value of a key, as `get_value_by_key` looks it up. */
  function FirstValue(tags: seq<Tag>, key: string): Option<string> {
    if tags == [] then None else if tags[0].key == key then Some(tags[0].value) else FirstValue(tags[1..], key)
  }

  /** The tags of the object, then those of its relation. */
  function AllTags(o: Object, relationTags: Option<seq<Tag>>): seq<Tag> {
    o.tags + if relationTags.Some? then relationTags.value else []
  }

  /** The tags that `fill_field` writes to the hstore column. */
  function Others(tags: seq<Tag>, written: seq<string>, drop: Tag -> bool): seq<Tag> {
    if tags == [] then []
    else (if tags[0].key !in written && !drop(tags[0]) then [tags[0]] else []) + Others(tags[1..], written, drop)
  }

  /** The area of a relation has the negated id of the relation. */
  function StoredId(o: Object): int { if o.kind == AreaOfRelation then -o.id else o.id }

  /** The text of a field; None for a column that `fill_field` does not handle. */
  function FieldText(o: Object, all: seq<Tag>, table: Table, c: Column, written: seq<string>): Option<string> {
    match c.kind
    case TAGS_OTHER => Some(SentHstore(Others(all, written, table.drop)))
    case TAG => Some(match FirstValue(all, c.name) case None => "\\N" case Some(v) => Escaped(v))
    case OSM_ID => Some(Print(StoredId(o)))
    case VERSION => Some(Print(o.version))
    case UID => Some(Print(o.version))
    case CHANGESET => Some(Print(o.version))
    case USERNAME => Some(Escaped(o.user))
    case TIMESTAMP => Some(o.timestamp)
    case WAY_NODES => if o.kind == Way && table.updateable then Some(Braced(Strings(o.nodes, Print))) else None
    case GEOMETRY => Some("SRID=4326;" + o.wkb)
    case LATITUDE => if o.kind == Node then Some(Print(o.y)) else None
    case LONGITUDE => if o.kind == Node then Some(Print(o.x)) else None
    case _ => None
  }

  function WrittenBy(all: seq<Tag>, c: Column): seq<string> {
    if c.kind == TAG && FirstValue(all, c.name).Some? then [c.name] else []
  }

  function OrNothing(s: Option<string>): string { if s.Some? then s.value else "" }

  function Tab(b: bool): string { if b then "\t" else "" }

  // ----- writing the hstore column

  lemma {:induction false} SentHstoreAppend(ps: seq<Tag>, p: Tag)
    ensures SentHstore(ps + [p]) == if ps == [] then SentPair(p) else SentHstore(ps) + "," + SentPair(p)
  {
    if ps == [] {
      assert ps + [p] == [p];
    } else {
      assert (ps + [p])[1..] == ps[1..] + [p];
      SentHstoreAppend(ps[1..], p);
      if |ps| > 1 {
        Assoc(SentPair(ps[0]) + ",", SentHstore(ps[1..]), ",");
        Assoc(SentPair(ps[0]) + ",", SentHstore(ps[1..]) + ",", SentPair(p));
      }
    }
  }

  lemma {:induction false} OthersAppend(a: seq<Tag>, b: seq<Tag>, written: seq<string>, drop: Tag -> bool)
    ensures Others(a + b, written, drop) == Others(a, written, drop) + Others(b, written, drop)
  {
    if a == [] {
      assert a + b == b;
    } else {
      assert (a + b)[1..] == a[1..] + b;
      OthersAppend(a[1..], b, written, drop);
    }
  }

  /** One loop over tags; `earlier` are the tags already in the column. */
  method AddTags(tags: seq<Tag>, written: seq<string>, drop: Tag -> bool, query: string, firstTag: bool,
                 ghost earlier: seq<Tag>, ghost start: string)
    returns (q: string, first: bool)
    requires query == start + SentHstore(earlier) && firstTag == (earlier == [])
    ensures var ps := earlier + Others(tags, written, drop); q == start + SentHstore(ps) && first == (ps == [])
  {
    hide SentHstore, SentPair, HstoreEscaped;
    q, first := query, firstTag;
    ghost var ps := earlier;
    for i := 0 to |tags|
      invariant ps == earlier + Others(tags[..i], written, drop)
      invariant q == start + SentHstore(ps) && first == (ps == [])
    {
      var tag := tags[i];
      assert tags[..i + 1] == tags[..i] + [tag];
      OthersAppend(tags[..i], [tag], written, drop);
      assert [tag][1..] == [];
      if tag.key !in written && !drop(tag) {
        ghost var before := q;
        if !first {
          q := q + ",";
        }
        q := Escape4Hstore(tag.key, q);
        q := q + "=>";
        q := Escape4Hstore(tag.value, q);
        first := false;
        PairWritten(before, start, ps, tag, q);
        ps := ps + [tag];
      }
    }
    assert tags[..|tags|] == tags;
  }

  lemma PairWritten(before: string, start: string, ps: seq<Tag>, p: Tag, q: string)
    requires before == start + SentHstore(ps)
    requires q == (if ps == [] then before else before + ",") + HstoreEscaped(p.key) + "=>" + HstoreEscaped(p.value)
    ensures q == start + SentHstore(ps + [p])
  {
    hide HstoreEscaped;
    SentHstoreAppend(ps, p);
    var b := if ps == [] then before else before + ",";
    var k, v := HstoreEscaped(p.key), HstoreEscaped(p.value);
    Assoc(b, k, "=>");
    Assoc(b, k + "=>", v);
    if ps == [] {
      assert before == start;
    } else {
      Assoc(start, SentHstore(ps), ",");
      Assoc(start, SentHstore(ps) + ",", SentPair(p));
    }
  }

  /** The branch for the hstore column. */
  method AddOtherTags(o: Object, query: string, written: seq<string>, drop: Tag -> bool, relationTags: Option<seq<Tag>>)
    returns (q: string)
    ensures q == query + SentHstore(Others(AllTags(o, relationTags), written, drop))
  {
    assert query + "" == query;
    var first;
    q, first := AddTags(o.tags, written, drop, query, true, [], query);
    ghost var own := Others(o.tags, written, drop);
    assert [] + own == own && o.tags + [] == o.tags;
    if relationTags.Some? {
      q, first := AddTags(relationTags.value, written, drop, q, first, own, query);
      OthersAppend(o.tags, relationTags.value, written, drop);
    }
  }

  /** The branch for a column of one tag. */
  method AddTagColumn(o: Object, name: string, query: string, written: seq<string>, relationTags: Option<seq<Tag>>)
    returns (q: string, keys: seq<string>)
    ensures var all := AllTags(o, relationTags);
            && q == query + (match FirstValue(all, name) case None => "\\N" case Some(v) => Escaped(v))
            && keys == written + WrittenBy(all, Column(name, TAG))
  {
    keys := written;
    FirstValueAppend(o.tags, if relationTags.Some? then relationTags.value else [], name);
    var t := FirstValue(o.tags, name);
    if t.None? && relationTags.Some? && FirstValue(relationTags.value, name).Some? {
      q := Escape(FirstValue(relationTags.value, name), query);
      keys := keys + [name];
    } else if t.Some? {
      q := Escape(t, query);
      keys := keys + [name];
    } else {
      q := query + "\\N";
    }
  }

  /** The id columns are printed into a buffer of 20 bytes. */
  predicate ColumnFits(o: Object, c: Column, table: Table) {
    match c.kind
    case OSM_ID => Fits(StoredId(o))
    case WAY_NODES => o.kind == Way && table.updateable ==> AllFit(o.nodes)
    case _ => true
  }

  /** `add_osm_id` */
  method AddId(id: int, query: string) returns (q: string, fits: bool)
    ensures fits == Fits(id) && (fits ==> q == query + Print(id))
  {
    if !Fits(id) {
      return query, false;
    }
    return query + Print(id), true;
  }

  /** `fill_field`: appends the separator if the last call wrote a field, then the field; `fits` is false where an id
      is printed over the end of the buffer. A relation has no geometry column of its own. */
  method FillField(o: Object, c: Column, query: string, columnAdded: bool, written: seq<string>, table: Table,
                   relationTags: Option<seq<Tag>>)
    returns (q: string, added: bool, keys: seq<string>, fits: bool)
    requires !(o.kind == Relation && c.kind == GEOMETRY)
    ensures fits <==> ColumnFits(o, c, table)
    ensures fits ==>
              var text := FieldText(o, AllTags(o, relationTags), table, c, written);
              && q == query + Tab(columnAdded) + OrNothing(text) && added == text.Some?
              && keys == written + WrittenBy(AllTags(o, relationTags), c)
  {
    hide Fits, AllFit, SentHstore, Others, Print, Escaped, Braced, Strings, FirstValue, AllTags;
    q, keys, added, fits := query, written, true, true;
    if columnAdded {
      q := q + "\t";
    }
    assert q == query + Tab(columnAdded);
    hide Tab;
    match c.kind {
      case TAGS_OTHER => q := AddOtherTags(o, q, written, table.drop, relationTags);
      case TAG => q, keys := AddTagColumn(o, c.name, q, written, relationTags);
      case OSM_ID =>
        q, fits := AddId(if o.kind == AreaOfRelation then -o.id else o.id, q);
      case VERSION => q := q + Print(o.version);
      case UID => q := q + Print(o.version);
      case USERNAME => q := Escape(Some(o.user), q);
      case CHANGESET => q := q + Print(o.version);
      case TIMESTAMP => q := q + o.timestamp;
      case WAY_NODES =>
        if o.kind == Way && table.updateable {
          q, fits := AddWayNodes(o.nodes, q);
        } else {
          added := false;
        }
      case GEOMETRY =>
        Assoc(q, "SRID=4326;", o.wkb);
        q := q + "SRID=4326;" + o.wkb;
      case LATITUDE => if o.kind == Node { q := q + Print(o.y); } else { added := false; }
      case LONGITUDE => if o.kind == Node { q := q + Print(o.x); } else { added := false; }
      case _ => added := false;
    }
  }

  lemma {:induction false} FirstValueAppend(a: seq<Tag>, b: seq<Tag>, key: string)
    ensures FirstValue(a + b, key) == if FirstValue(a, key).Some? then FirstValue(a, key) else FirstValue(b, key)
  {
    if a == [] {
      assert a + b == b;
    } else {
      assert (a + b)[1..] == a[1..] + b;
      FirstValueAppend(a[1..], b, key);
    }
  }

  // ----- whole lines

  /** The two geometry collections of a relation, which `prepare_relation_query` adds itself. */
  datatype Shapes = NoShapes | Shapes(points: string, lines: string)

  function ShapeText(shapes: Shapes, c: Column): Option<string> {
    if shapes.Shapes? && c.kind == GEOMETRY_MULTIPOINT then Some("SRID=4326;" + shapes.points)
    else if shapes.Shapes? && c.kind == GEOMETRY_MULTILINESTRING then Some("SRID=4326;" + shapes.lines)
    else None
  }

  /** A geometry collection is followed by its own separator. */
  function After(shapes: Shapes, c: Column): string {
    var s := ShapeText(shapes, c);
    if s.Some? then s.value + "\t" else ""
  }

  /** The line without its end: what the loop over the columns appends from a column on. */
  function Row(o: Object, all: seq<Tag>, table: Table, shapes: Shapes, cols: seq<Column>, written: seq<string>,
               added: bool): string
  {
    if cols == [] then ""
    else
      var text := FieldText(o, all, table, cols[0], written);
      Tab(added) + OrNothing(text) + After(shapes, cols[0])
      + Row(o, all, table, shapes, cols[1..], written + WrittenBy(all, cols[0]), text.Some?)
  }

  predicate NoGeometryColumn(cols: seq<Column>) { forall i :: 0 <= i < |cols| ==> cols[i].kind != GEOMETRY }

  predicate LineFits(o: Object, table: Table) {
    forall i :: 0 <= i < |table.columns| ==> ColumnFits(o, table.columns[i], table)
  }

  /** `prepare_query` */
  method PrepareQuery(o: Object, table: Table, relationTags: Option<seq<Tag>>) returns (query: string, fits: bool)
    requires o.kind == Relation ==> NoGeometryColumn(table.columns)
    ensures fits <==> LineFits(o, table)
    ensures fits ==>
              query == Row(o, AllTags(o, relationTags), table, NoShapes, table.columns, [], false) + "\n"
  {
    query, fits := "", true;
    var written: seq<string> := [];
    var added := false;
    var cols := table.columns;
    ghost var all := AllTags(o, relationTags);
    ghost var whole := Row(o, all, table, NoShapes, cols, [], false);
    assert cols[0..] == cols && query + whole == whole;
    for i := 0 to |cols|
      invariant fits && forall j :: 0 <= j < i ==> ColumnFits(o, cols[j], table)
      invariant query + Row(o, all, table, NoShapes, cols[i..], written, added) == whole
    {
      hide FieldText, AllTags, WrittenBy, ColumnFits;
      ghost var q0, w0, a0 := query, written, added;
      query, added, written, fits := FillField(o, cols[i], query, added, written, table, relationTags);
      if !fits {
        return;
      }
      RowStep(o, all, table, NoShapes, cols, i, q0, w0, a0);
      assert query + "" == query;
    }
    assert query + "" == query;
    query := query + "\n";
  }

  lemma RowStep(o: Object, all: seq<Tag>, table: Table, shapes: Shapes, cols: seq<Column>, i: nat, query: string,
                written: seq<string>, added: bool)
    requires i < |cols|
    ensures var text := FieldText(o, all, table, cols[i], written);
            query + Tab(added) + OrNothing(text) + After(shapes, cols[i])
              + Row(o, all, table, shapes, cols[i + 1..], written + WrittenBy(all, cols[i]), text.Some?)
            == query + Row(o, all, table, shapes, cols[i..], written, added)
  {
    hide FieldText, WrittenBy, After;
    var text := FieldText(o, all, table, cols[i], written);
    var rest := Row(o, all, table, shapes, cols[i + 1..], written + WrittenBy(all, cols[i]), text.Some?);
    assert cols[i..][1..] == cols[i + 1..] && cols[i..][0] == cols[i];
    var t, f, g := Tab(added), OrNothing(text), After(shapes, cols[i]);
    Assoc(query, t, f);
    Assoc(query, t + f, g);
    Assoc(query, t + f + g, rest);
  }

  /** `prepare_relation_query` */
  method PrepareRelationQuery(o: Object, query: string, points: string, lines: string, table: Table)
    returns (q: string, fits: bool)
    requires NoGeometryColumn(table.columns)
    ensures fits <==> LineFits(o, table)
    ensures fits ==>
              q == query + Row(o, AllTags(o, None), table, Shapes(points, lines), table.columns, [], false) + "\n"
  {
    q, fits := query, true;
    var written: seq<string> := [];
    var added := false;
    var cols := table.columns;
    ghost var all, shapes := AllTags(o, None), Shapes(points, lines);
    ghost var whole := query + Row(o, all, table, shapes, cols, [], false);
    assert cols[0..] == cols;
    for i := 0 to |cols|
      invariant fits && forall j :: 0 <= j < i ==> ColumnFits(o, cols[j], table)
      invariant q + Row(o, all, table, shapes, cols[i..], written, added) == whole
    {
      hide FieldText, AllTags, WrittenBy, Row, ColumnFits;
      ghost var q0, w0, a0 := q, written, added;
      q, added, written, fits := FillField(o, cols[i], q, added, written, table, None);
      if !fits {
        return;
      }
      ghost var q1 := q;
      if !added {
        if cols[i].kind == GEOMETRY_MULTIPOINT {
          q := q + "SRID=4326;" + points + "\t";
          ShapeAppended(q1, points);
        } else if cols[i].kind == GEOMETRY_MULTILINESTRING {
          q := q + "SRID=4326;" + lines + "\t";
          ShapeAppended(q1, lines);
        }
      }
      assert q1 + "" == q1;
      assert q == q1 + After(shapes, cols[i]);
      RowStep(o, all, table, shapes, cols, i, q0, w0, a0);
    }
    assert q + "" == q;
    q := q + "\n";
  }

  lemma ShapeAppended(q: string, wkb: string)
    ensures q + "SRID=4326;" + wkb + "\t" == q + ("SRID=4326;" + wkb + "\t")
  {
    Assoc(q, "SRID=4326;", wkb);
    Assoc(q, "SRID=4326;" + wkb, "\t");
  }
}
