/** The members of a relation, split over one table for each type and merged again by position:
    `prepare_relation_member_list_query` and `get_members_by_id_and_type`. */
module MemberLists {
  import opened Sequences
  import opened CopyText
  import opened Decimal
  import opened Members
  import opened Positions
  import opened Sorting

  datatype MemberRow = MemberRow(member: int, relation: int, pos: int, role: string)

  /** `MemberIdTypePos` */
  datatype Placed = Placed(id: int, kind: ItemType, pos: int)

  function PlacedPos(p: Placed): int { p.pos }

  // ----- writing the members of one type

  function RowText(r: MemberRow): string {
    Print(r.member) + "\t" + Print(r.relation) + "\t" + Print(r.pos) + "\t" + Escaped(r.role) + "\n"
  }

  function Lines(rows: seq<MemberRow>): string {
    if rows == [] then "" else Lines(rows[..|rows| - 1]) + RowText(rows[|rows| - 1])
  }

  /** The rows for the members of one type among the first `n`. */
  function MemberRows(relation: int, members: seq<Member>, kind: ItemType, n: nat): seq<MemberRow>
    requires n <= |members|
  {
    if n == 0 then []
    else
      var m := members[n - 1];
      var rows := MemberRows(relation, members, kind, n - 1);
      if m.kind == kind then rows + [MemberRow(m.ref, relation, Int16(n - 1), m.role)] else rows
  }

  function Limit(members: seq<Member>): nat { if |members| < CUT then |members| else CUT }

  /** The rows that a relation has in the table of one member type. */
  function ListRows(relation: int, members: seq<Member>, kind: ItemType): seq<MemberRow> {
    MemberRows(relation, members, kind, Limit(members))
  }

  /** The ids of all these rows can be printed. */
  predicate AllFit(rows: seq<MemberRow>) {
    forall i :: 0 <= i < |rows| ==> Fits(rows[i].member) && Fits(rows[i].relation)
  }

  lemma {:induction false} RowsGrow(relation: int, members: seq<Member>, kind: ItemType, m: nat, n: nat)
    requires m <= n <= |members|
    ensures MemberRows(relation, members, kind, m) <= MemberRows(relation, members, kind, n)
    decreases n
  {
    if m < n { RowsGrow(relation, members, kind, m, n - 1); }
  }

  /** `prepare_relation_member_list_query`; `fits` is whether no id is printed over the end of the buffer. */
  method MemberListQuery(relation: int, members: seq<Member>, kind: ItemType) returns (query: string, fits: bool)
    ensures fits <==> AllFit(ListRows(relation, members, kind))
    ensures fits ==> query == Lines(ListRows(relation, members, kind))
  {
    hide Print, Fits, Escaped, RowText, Lines, Int16;
    query, fits := "", true;
    NoLines();
    var i := 0;
    while i < |members|
      invariant i <= Limit(members)
      invariant fits && query == Lines(MemberRows(relation, members, kind, i))
      invariant AllFit(MemberRows(relation, members, kind, i))
    {
      if i >= CUT {
        return;
      }
      if members[i].kind == kind {
        ghost var row := MemberRow(members[i].ref, relation, Int16(i), members[i].role);
        ghost var before := query;
        if !Fits(members[i].ref) || !Fits(relation) {
          RowsGrow(relation, members, kind, i + 1, Limit(members));
          assert MemberRows(relation, members, kind, i + 1)[|MemberRows(relation, members, kind, i)|] == row;
          return query, false;
        }
        query := query + Print(members[i].ref) + "\t" + Print(relation) + "\t" + Print(Int16(i)) + "\t";
        query := Escape(Wrappers.Some(members[i].role), query);
        query := query + "\n";
        RowAppended(before, row);
        LinesAppend(MemberRows(relation, members, kind, i), row);
      }
      i := i + 1;
    }
  }

  lemma NoLines()
    ensures Lines([]) == ""
  {
  }

  lemma LinesAppend(rows: seq<MemberRow>, row: MemberRow)
    ensures Lines(rows + [row]) == Lines(rows) + RowText(row)
  {
  }

  lemma RowAppended(q: string, r: MemberRow)
    ensures q + Print(r.member) + "\t" + Print(r.relation) + "\t" + Print(r.pos) + "\t" + Escaped(r.role) + "\n"
            == q + RowText(r)
  {
    hide Print, Escaped;
    var a, b, c, d := Print(r.member), Print(r.relation), Print(r.pos), Escaped(r.role);
    Assoc(q, a, "\t");
    Assoc(q, a + "\t", b);
    Assoc(q, a + "\t" + b, "\t");
    Assoc(q, a + "\t" + b + "\t", c);
    Assoc(q, a + "\t" + b + "\t" + c, "\t");
    Assoc(q, a + "\t" + b + "\t" + c + "\t", d);
    Assoc(q, a + "\t" + b + "\t" + c + "\t" + d, "\n");
  }

  // ----- reading the three tables

  function Place(m: Member, i: int): Placed { Placed(m.ref, m.kind, Int16(i)) }

  function Places(rows: seq<MemberRow>, kind: ItemType): (r: seq<Placed>)
    ensures |r| == |rows| && forall i :: 0 <= i < |r| ==> r[i] == Placed(rows[i].member, kind, rows[i].pos)
  {
    if rows == [] then []
    else
      var last := rows[|rows| - 1];
      Places(rows[..|rows| - 1], kind) + [Placed(last.member, kind, last.pos)]
  }

  /** Every written member with its position, in the order of the relation. */
  function AllPlaces(members: seq<Member>, n: nat): (r: seq<Placed>)
    requires n <= |members|
    ensures |r| == n && forall i :: 0 <= i < n ==> r[i] == Place(members[i], i)
  {
    if n == 0 then [] else AllPlaces(members, n - 1) + [Place(members[n - 1], n - 1)]
  }

  function InTable(relation: int, members: seq<Member>, kind: ItemType, n: nat): multiset<Placed>
    requires n <= |members|
  {
    multiset(Places(MemberRows(relation, members, kind, n), kind))
  }

  /** The three tables together hold every member once. */
  lemma {:induction false} TablesHoldAll(relation: int, members: seq<Member>, n: nat)
    requires n <= |members|
    ensures InTable(relation, members, NODE, n) + InTable(relation, members, WAY, n)
            + InTable(relation, members, RELATION, n)
            == multiset(AllPlaces(members, n))
  {
    hide InTable, AllPlaces, Place;
    if n == 0 {
      NothingHeld(relation, members);
    } else {
      TablesHoldAll(relation, members, n - 1);
      var m := members[n - 1];
      TableGrows(relation, members, NODE, n);
      TableGrows(relation, members, WAY, n);
      TableGrows(relation, members, RELATION, n);
      PlacesGrow(members, n);
    }
  }

  lemma NothingHeld(relation: int, members: seq<Member>)
    ensures InTable(relation, members, NODE, 0) == multiset{}
    ensures InTable(relation, members, WAY, 0) == multiset{} && InTable(relation, members, RELATION, 0) == multiset{}
    ensures multiset(AllPlaces(members, 0)) == multiset{}
  {
  }

  lemma PlacesGrow(members: seq<Member>, n: nat)
    requires 0 < n <= |members|
    ensures multiset(AllPlaces(members, n))
            == multiset(AllPlaces(members, n - 1)) + multiset{Place(members[n - 1], n - 1)}
  {
    assert AllPlaces(members, n) == AllPlaces(members, n - 1) + [Place(members[n - 1], n - 1)];
  }

  lemma TableGrows(relation: int, members: seq<Member>, kind: ItemType, n: nat)
    requires 0 < n <= |members|
    ensures var m := members[n - 1];
            InTable(relation, members, kind, n) ==
            InTable(relation, members, kind, n - 1) + if m.kind == kind then multiset{Place(m, n - 1)} else multiset{}
  {
    var m := members[n - 1];
    assert Places(MemberRows(relation, members, kind, n), kind) ==
           Places(MemberRows(relation, members, kind, n - 1), kind) + if m.kind == kind then [Place(m, n - 1)] else [];
  }

  /** The order in which sorting by the stored position brings the members: behind 32768 members the
      position is negative, and behind 65535 nothing is stored. */
  function Restored(members: seq<Member>): (r: seq<Member>)
    ensures |r| == Limit(members)
  {
    if |members| <= HALF then members else members[HALF..Limit(members)] + members[..HALF]
  }

  predicate SameMembers(found: seq<Placed>, members: seq<Member>) {
    && |found| == |members|
    && forall i :: 0 <= i < |found| ==> found[i].id == members[i].ref && found[i].kind == members[i].kind
  }

  /** The rows of a relation have been read from the three tables in any order, appended and sorted by position. */
  ghost predicate ReadBack(relation: int, members: seq<Member>, nodes: seq<Placed>, ways: seq<Placed>,
                           relations: seq<Placed>, found: seq<Placed>)
  {
    && multiset(nodes) == multiset(Places(ListRows(relation, members, NODE), NODE))
    && multiset(ways) == multiset(Places(ListRows(relation, members, WAY), WAY))
    && multiset(relations) == multiset(Places(ListRows(relation, members, RELATION), RELATION))
    && IsSortOf(found, nodes + ways + relations, PlacedPos)
  }

  /** Whatever the order in which the rows are read from the three tables, appending and sorting them gives
      exactly the members in the order `Restored`. */
  lemma MergeResult(relation: int, members: seq<Member>, nodes: seq<Placed>, ways: seq<Placed>, relations: seq<Placed>,
                    found: seq<Placed>)
    requires ReadBack(relation, members, nodes, ways, relations, found)
    ensures SameMembers(found, Restored(members)) && |found| == if |members| < 65535 then |members| else 65535
  {
    hide MemberRows, AllPlaces, Places, MembersInOrder, Restored, SortedBy, StrictlyBy;
    TablesHoldAll(relation, members, Limit(members));
    assert multiset(nodes + ways + relations) == multiset(nodes) + multiset(ways) + multiset(relations);
    PositionsRise(members);
    PlacesRotated(members);
    PlacesAreMembers(members);
    OneSortedArrangement(found, MembersInOrder(members), PlacedPos);
  }

  /** The stored members in the order of their positions. */
  function MembersInOrder(members: seq<Member>): seq<Placed> {
    var all := AllPlaces(members, Limit(members));
    if |members| <= HALF then all else all[HALF..] + all[..HALF]
  }

  lemma PlacesAreMembers(members: seq<Member>)
    ensures SameMembers(MembersInOrder(members), Restored(members))
  {
    hide AllPlaces, Int16;
  }

  lemma PlacesRotated(members: seq<Member>)
    ensures multiset(MembersInOrder(members)) == multiset(AllPlaces(members, Limit(members)))
  {
    hide AllPlaces;
    if |members| > HALF { Rotated(AllPlaces(members, Limit(members)), HALF); }
  }

  lemma PositionsRise(members: seq<Member>)
    ensures StrictlyBy(MembersInOrder(members), PlacedPos)
  {
    hide Int16, AllPlaces;
    forall i: nat | i < CUT ensures Int16(i) == if i < HALF then i else i - 65536 { Int16Value(i); }
  }

  /** Member i and the member that takes its place behind 32768 members. */
  function Shifted(i: int, n: int): int { if i + HALF < n then i + HALF else i + HALF - n }

  predicate SameRef(a: Member, b: Member) { a.ref == b.ref && a.kind == b.kind }

  /** A list that is its own rearrangement, as far as the tables tell. */
  predicate Periodic(members: seq<Member>)
    requires HALF <= |members| <= CUT
  {
    forall i :: 0 <= i < |members| ==> SameRef(members[i], members[Shifted(i, |members|)])
  }

  /** When a list survives: decided from the list before it is written. */
  predicate Survives(members: seq<Member>) {
    |members| <= HALF || (|members| <= CUT && Periodic(members))
  }

  lemma RestoredSame(members: seq<Member>, found: seq<Placed>)
    requires SameMembers(found, Restored(members))
    ensures SameMembers(found, members) <==> Survives(members)
  {
    var n := |members|;
    if HALF < n <= CUT {
      assert |Restored(members)| == n;
      forall i | 0 <= i < n ensures Restored(members)[i] == members[Shifted(i, n)] {
      }
      if SameMembers(found, members) {
        forall i | 0 <= i < n ensures SameRef(members[i], members[Shifted(i, n)]) {
          assert found[i].id == members[i].ref && found[i].kind == members[i].kind;
        }
      }
    }
  }

  /** Main result: whatever the order of reading, the list that comes back is the list that was written, in ids
      and types, exactly if it has at most 32768 members, or at most 65535 members and repeats itself. */
  lemma MembersComeBackIff(relation: int, members: seq<Member>, nodes: seq<Placed>, ways: seq<Placed>,
                           relations: seq<Placed>, found: seq<Placed>)
    requires ReadBack(relation, members, nodes, ways, relations, found)
    ensures SameMembers(found, members) <==> Survives(members)
  {
    hide ReadBack, Survives, SameMembers, Restored;
    MergeResult(relation, members, nodes, ways, relations, found);
    RestoredSame(members, found);
  }

  /** Every list of a length comes back, for every order of reading. */
  ghost predicate AllComeBack(n: nat) {
    forall relation, members, nodes, ways, relations, found |
      ReadBack(relation, members, nodes, ways, relations, found) && |members| == n :: SameMembers(found, members)
  }

  /** 32768 is exactly the length up to which every list comes back. */
  lemma ExactlyUpTo32768(n: nat)
    ensures AllComeBack(n) <==> n <= 32768
  {
    hide ReadBack, Survives, SameMembers;
    if n <= HALF {
      forall relation, members, nodes, ways, relations, found |
        ReadBack(relation, members, nodes, ways, relations, found) && |members| == n
        ensures SameMembers(found, members)
      {
        MembersComeBackIff(relation, members, nodes, ways, relations, found);
        ShortSurvives(members);
      }
    } else {
      var members := Numbered(n);
      var nodes, ways, relations, found := ReadOnce(0, members);
      MembersComeBackIff(0, members, nodes, ways, relations, found);
      NumberedIsLost(n);
    }
  }

  lemma ShortSurvives(members: seq<Member>)
    ensures |members| <= HALF ==> Survives(members)
  {
  }

  /** Different nodes. */
  function Numbered(n: nat): (members: seq<Member>)
    ensures |members| == n && forall i :: 0 <= i < n ==> members[i] == Member(NODE, i, "")
  {
    if n == 0 then [] else Numbered(n - 1) + [Member(NODE, n - 1, "")]
  }

  lemma NumberedIsLost(n: nat)
    requires n > HALF
    ensures !Survives(Numbered(n))
  {
    var members := Numbered(n);
    if n <= CUT { assert !SameRef(members[0], members[Shifted(0, n)]); }
  }

  /** The tables can be read in some order. */
  lemma ReadOnce(relation: int, members: seq<Member>)
    returns (nodes: seq<Placed>, ways: seq<Placed>, relations: seq<Placed>, found: seq<Placed>)
    ensures ReadBack(relation, members, nodes, ways, relations, found)
  {
    hide ListRows, Places, Sort;
    nodes := Places(ListRows(relation, members, NODE), NODE);
    ways := Places(ListRows(relation, members, WAY), WAY);
    relations := Places(ListRows(relation, members, RELATION), RELATION);
    found := Sort(nodes + ways + relations, PlacedPos);
    SortSorts(nodes + ways + relations, PlacedPos);
  }
}
