/** The lines of the tables for node lists and member lists, as src/postgres_handler.cpp writes them, and what a reader
    finds in them under the names of the columns. */
module ListLines {
  import opened Sequences
  import opened CopyText
  import opened Decimal
  import opened NodeLists
  import opened Positions
  import opened RowMeaning
  import opened Rows
  import MemberLists

  // ----- writing the nodes of a way

  function NodeText(r: NodeRow): string { Print(r.way) + "\t" + Print(r.node) + "\t" + Print(r.pos) + "\n" }

  function NodeTexts(rows: seq<NodeRow>): string {
    if rows == [] then "" else NodeTexts(rows[..|rows| - 1]) + NodeText(rows[|rows| - 1])
  }

  lemma NodeAppended(q: string, rows: seq<NodeRow>, r: NodeRow)
    ensures NodeTexts(rows + [r]) == NodeTexts(rows) + NodeText(r)
    ensures q + Print(r.way) + "\t" + Print(r.node) + "\t" + Print(r.pos) + "\n" == q + NodeText(r)
  {
    hide Print;
    var a, b, c := Print(r.way), Print(r.node), Print(r.pos);
    assert (rows + [r])[..|rows|] == rows;
    Assoc(q, a, "\t");
    Assoc(q, a + "\t", b);
    Assoc(q, a + "\t" + b, "\t");
    Assoc(q, a + "\t" + b + "\t", c);
    Assoc(q, a + "\t" + b + "\t" + c, "\n");
  }

  /** `prepare_node_way_query`: its assert wants fewer than 65536 nodes, and every id has to fit into its buffer. */
  method NodeWayQuery(way: int, nodes: seq<int>) returns (query: string, ok: bool)
    ensures ok <==> |nodes| <= CUT && (nodes != [] ==> Fits(way)) && forall i :: 0 <= i < |nodes| ==> Fits(nodes[i])
    ensures ok ==> query == NodeTexts(WayRows(way, nodes))
  {
    hide Print, Fits, NodeText, Int16, WayRows;
    query, ok := "", true;
    ghost var rows := WayRows(way, nodes);
    assert NodeTexts(rows[..0]) == "";
    for i := 0 to |nodes|
      invariant ok && query == NodeTexts(rows[..i]) && (i > 0 ==> i <= CUT)
      invariant (i > 0 ==> Fits(way)) && forall j :: 0 <= j < i ==> Fits(nodes[j])
    {
      if i >= CUT || !Fits(way) || !Fits(nodes[i]) {
        return query, false;
      }
      assert rows[..i + 1] == rows[..i] + [NodeRow(way, nodes[i], Int16(i))];
      NodeAppended(query, rows[..i], NodeRow(way, nodes[i], Int16(i)));
      query := query + Print(way) + "\t" + Print(nodes[i]) + "\t" + Print(Int16(i)) + "\n";
    }
    assert rows[..|nodes|] == rows;
  }

  // ----- reading a line

  /** The field of a line under the name of its column. */
  predicate Under(cols: seq<Column>, fields: seq<string>, name: string, field: string) {
    && |fields| == |cols|
    && exists i :: 0 <= i < |cols| && cols[i].name == name && fields[i] == field
                   && forall j :: 0 <= j < |cols| && cols[j].name == name ==> j == i
  }

  lemma IsUnder(cols: seq<Column>, fields: seq<string>, i: nat)
    requires i < |cols| == |fields| && forall j :: 0 <= j < |cols| && j != i ==> cols[j].name != cols[i].name
    ensures Under(cols, fields, cols[i].name, fields[i])
  {
  }

  lemma PrintSolid(n: int)
    ensures Solid(Print(n))
  {
    PrintIsPlain(n);
    PlainIsSolid(Print(n));
  }

  lemma ThreeFields(a: string, b: string, c: string)
    requires Solid(a) && Solid(b) && Solid(c)
    ensures Fields(a + "\t" + b + "\t" + c) == [a, b, c]
  {
    hide Solid, Fields;
    Assoc(a + "\t", b, "\t");
    Assoc(a + "\t", b + "\t", c);
    SolidIsOneField(a, b + "\t" + c);
    SolidIsOneField(b, c);
    SolidIsOneField(c, "");
  }

  lemma FourFields(a: string, b: string, c: string, d: string)
    requires Solid(a) && Solid(b) && Solid(c) && Solid(d)
    ensures Fields(a + "\t" + b + "\t" + c + "\t" + d) == [a, b, c, d]
  {
    hide Solid, Fields;
    var tail := b + "\t" + c + "\t" + d;
    Assoc(a + "\t", b, "\t");
    Assoc(a + "\t", b + "\t", c);
    Assoc(a + "\t", b + "\t" + c, "\t");
    Assoc(a + "\t", b + "\t" + c + "\t", d);
    SolidIsOneField(a, tail);
    ThreeFields(b, c, d);
  }

  /** A line of the table of nodes of ways. */
  lemma NodeLine(config: Config, r: NodeRow)
    ensures var cols, text := AllColumns(config, [], NODE_WAYS), NodeText(r);
            var fields := Fields(text[..|text| - 1]);
            && text[|text| - 1] == '\n' && Under(cols, fields, "way_id", Print(r.way))
            && Under(cols, fields, "node_id", Print(r.node)) && Under(cols, fields, "position", Print(r.pos))
  {
    var a, b, c := Print(r.way), Print(r.node), Print(r.pos);
    PrintSolid(r.way);
    PrintSolid(r.node);
    PrintSolid(r.pos);
    ThreeFields(a, b, c);
    hide Print, Solid, Fields;
    var text := NodeText(r);
    assert text[..|text| - 1] == a + "\t" + b + "\t" + c;
    var cols := AllColumns(config, [], NODE_WAYS);
    assert cols[0].name == "way_id" && cols[1].name == "node_id" && cols[2].name == "position";
  }

  predicate IsMemberTable(t: TableType) {
    t == RELATION_MEMBER_NODES || t == RELATION_MEMBER_WAYS || t == RELATION_MEMBER_RELATIONS
  }

  lemma MemberNames(config: Config, t: TableType)
    requires IsMemberTable(t)
    ensures var cols := AllColumns(config, [], t);
            && |cols| == 4 && cols[0].name == "member_id" && cols[1].name == "relation_id"
            && cols[2].name == "position" && cols[3].name == "role"
  {
  }

  lemma MemberFields(r: MemberLists.MemberRow)
    ensures var text := MemberLists.RowText(r);
            && text[|text| - 1] == '\n'
            && Fields(text[..|text| - 1]) == [Print(r.member), Print(r.relation), Print(r.pos), Escaped(r.role)]
  {
    var a, b, c, d := Print(r.member), Print(r.relation), Print(r.pos), Escaped(r.role);
    PrintSolid(r.member);
    PrintSolid(r.relation);
    PrintSolid(r.pos);
    EscapedSolid(r.role);
    FourFields(a, b, c, d);
    hide Print, Solid, Escaped, Fields;
    var text := MemberLists.RowText(r);
    assert text[..|text| - 1] == a + "\t" + b + "\t" + c + "\t" + d;
  }

  /** A line of one of the three tables of members; the role is read as it was. */
  lemma MemberLine(config: Config, t: TableType, r: MemberLists.MemberRow)
    requires IsMemberTable(t)
    ensures var cols, text := AllColumns(config, [], t), MemberLists.RowText(r);
            var fields := Fields(text[..|text| - 1]);
            && text[|text| - 1] == '\n' && Under(cols, fields, "member_id", Print(r.member))
            && Under(cols, fields, "relation_id", Print(r.relation)) && Under(cols, fields, "position", Print(r.pos))
            && Under(cols, fields, "role", Escaped(r.role)) && FieldOf(Escaped(r.role)) == Text(r.role)
  {
    MemberFields(r);
    MemberNames(config, t);
    EscapeRoundTrip(r.role);
    hide Print, Escaped, FieldOf, Fields, AllColumns, Under, MemberLists.RowText;
    var cols, fields := AllColumns(config, [], t), [Print(r.member), Print(r.relation), Print(r.pos), Escaped(r.role)];
    IsUnder(cols, fields, 0);
    IsUnder(cols, fields, 1);
    IsUnder(cols, fields, 2);
    IsUnder(cols, fields, 3);
  }
}
