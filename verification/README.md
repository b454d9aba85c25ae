# Cerepso: a Dafny model of its import and update logic

Cerepso imports OpenStreetMap data into PostgreSQL and applies diffs to it. This project models the parts of it
that hold branching, state and arithmetic, and proves what each of them is for. `dafny verify dfyconfig.toml`
checks everything.

| files | part of the program |
|---|---|
| `Ints`, `QuadtreeCode`, `TileRaster`, `Antimeridian`, `ExpiryOutput`, `ExpireTiles` | the tile expiry: quadtree codes in a 32-bit int, rasterising segments, the 180th meridian, the printed list |
| `MemberElements`, `MembersDatabase` | the index of relation members with its counters, its stash of shared objects and its callback |
| `Wkb`, `WkbOutput`, `WkbWriter` | the WKB/EWKB writer with sizes patched in afterwards, against a decoder for section 3.3 of OGC 99-049 |
| `CopyText`, `Decimal`, `HStore`, `HStoreSyntax`, `PgArray`, `ArrayText`, `Members` | the escapers, the array printers and the two character-level parsers, with the text format of COPY (PostgreSQL manual, COPY, "Text Format") in between |
| `Rows`, `RowMeaning`, `ListLines` | the column order and the lines of a table, and what a reader of the table finds |
| `Sorting`, `Positions`, `MemberLists`, `NodeLists` | lists that are split over tables by position and merged again |
| `PgTables`, `PendingWork`, `DiffGeometry`, `DiffTables`, `DiffHandler1`, `DiffHandler2` | the operations of the two passes of a diff on the tables and the pending ids |
| `DiffRun`, `WayRun`, `RelationRun`, `ObjectRun`, `WholeUpdate` | whole updates: COPY typestate, the geometries of the ways, the member lists of the relations, the rows of all objects, and who is left behind |
| `Interpolation` | address interpolation: the walk along a way and the numbers between two house numbers |
| `Sequences`, `Wrappers` | shared lemmas and result types |

Where the program keeps state in fields, the model is a class with these fields, and the methods are proved against
functions whose properties are then proved as lemmas. Where the program throws, a method returns `Err` or `false`.
Tile coordinates, segment lengths and projected points are real numbers; geometries made by GEOS and libosmium are
arbitrary functions of node locations.

## Where the code and its documentation differ

The model follows the code. Each point is a proved statement.

- Segments that descend (`y2 < y1`) in the general branch of `expire_line_segment` miss tiles: the second loop only
  runs upwards. `MarksExactlyIffFaithful` gives the exact condition, and `MarkedExactly` the tiles that are left.
- At zoom level 0 `map_width/2` is 0 and the assert on the width of a segment fails (`AssertsHoldFromZoom1`).
- The list of expired tiles is keyed by code alone, so equal codes of different zoom levels print one line only
  (`CompleteIffNoCollision`, `CornerTileLosesAncestor`).
- `remove` for a pair that is not in the index frees the object if one entry is left (`FreedExactlyWithLastEntry`).
- A ring of 2^32 points or more gets a wrong size, because `m_points` wraps (`RoundTripIffRingsFit`).
- A role with a tab or a line end is sent as an escape sequence that `ArrayParser` refuses (`RolesRoundTrip`).
- A column that `fill_field` does not handle swallows the separator of the next one (`OneFieldPerColumn`), and a
  line for a relation has a field too many without an hstore column (`RelationLines`).
- The position of a member is a 16-bit number: relations with more than 32768 members come back rearranged, and
  beyond 65535 members cut off (`MembersComeBackIff`, `ExactlyUpTo32768`). The position of a node of a way is one, too
  (`NewWayInOrderIff`).
- An id with a sign and nineteen digits does not fit into the buffer that it is printed into (`FitsExactly`).
- An unquoted array element with an escape sequence other than `\\` and `\"` makes `ArrayParser` throw
  (`ElementRaisesIff`); a pair of backslashes does not.
- The hstore parser takes the minimal length of a pair in quotation marks for that of any pair: in a list without
  quotation marks a last pair of fewer than seven characters is lost (`WordsReadBackIff`).
- An unquoted array element with spaces inside ends at the last space (`UnquotedElement`).
- `get_object` reads a freed item for an object that came and whose entries were all removed (`GetObject`).
- `clean_up_container_and_work_on` steps over the smallest positive id, although its header promises a call for each
  non-zero element (`HeaderPromise`, `UniqueLosesSmallest`). So a diff leaves one way with its old geometry, and one
  relation without an update (`ApplyDiff`); `OneWayIsLeftBehind` is the smallest such diff.
- Pass 1 deletes the area of a relation under the id of the relation, but it is stored under the negated id
  (`RelationAreaSurvives`, `AreasRight`).
- Pass 1 asks the table of tagged nodes only if the one of untagged nodes has no row: a node that is in both tables
  keeps its tagged row (`NodesRight`, `NodeInBothTablesStays`).
- Without a relation in the diff tables stay in COPY mode: those of the nodes, or the node lists and the ways. In the
  second case `after_relations` throws exactly if a relation that became pending has a stored member way and is not
  stepped over (`PassAndAfterRelations`). And no way of the database gets a new geometry (`BothPasses`).
- House numbers of a descending range are counted upwards from the first end (`BetweenIffAscending`).

## Model

| member | source | states |
|---|---|---|
| `QuadtreeCode.CodeModuloMapWidth` | src/expire_tiles_quadtree.cpp:179-187 | x and y enter a code only modulo the map width |
| `QuadtreeCode.CodeBijection` | src/expire_tiles_quadtree.cpp:169-187 | the conversions are inverse to each other between the tiles of a zoom level and the codes below 4^z |
| `QuadtreeCode.CodeBits` | src/expire_tiles_quadtree.cpp:179-187 | bit pair k of a code is bit k of y and bit k of x, for all tiles and zoom levels |
| `QuadtreeCode.RoundTripExactlyUpTo15` | src/expire_tiles_quadtree.cpp:169-187 | in 32-bit arithmetic every tile survives the round trip if and only if the zoom level is at most 15 |
| `QuadtreeCode.ShiftIsAncestor` | src/expire_tiles_quadtree.cpp:207-211 | shifting a code right by 2k gives the code of the tile k levels up |
| `QuadtreeCode.UpscaleEnumeratesDescendants` | src/expire_tiles_quadtree.cpp:189-195 | the upscaled codes of a tile over all valid offsets are exactly the codes of its descendants |
| `ExpireTiles.ExpireTilesQuadtree.XyToQuadtree` | src/expire_tiles_quadtree.cpp:179-187 | the loop with wrapping additions and shifts computes the interleaved code, wrapped |
| `ExpireTiles.ExpireTilesQuadtree.QuadtreeToXy` | src/expire_tiles_quadtree.cpp:169-177 | the loop computes the even and odd bits of the code, with the sign bit of the top level as the code has it |
| `TileRaster.MarksExactlyIffFaithful` | src/expire_tiles_quadtree.cpp:97-150 | the marked tiles are exactly the tiles that contain a point of the segment if and only if the segment is not a point and is either within one column of tiles, or wider than the shortcut and not descending over a row border |
| `TileRaster.MarkedExactly` | src/expire_tiles_quadtree.cpp:97-150 | the marked tiles of every segment, from its points alone: none for a point, the column between the heights of the ends for a segment taken as vertical, and otherwise the tile of the first end, the tiles entered at a whole x and, going up only, those entered at a whole y; going down exactly the first two kinds |
| `TileRaster.SlopeSound` | src/expire_tiles_quadtree.cpp:125-139 | the general branch only marks tiles that the segment reaches, also for descending segments |
| `TileRaster.SlopeCompleteUpwards` | src/expire_tiles_quadtree.cpp:125-139 | for ascending segments the general branch marks every tile that is reached |
| `TileRaster.SlopeMissesDownwards` | src/expire_tiles_quadtree.cpp:135-139 | every descending segment that crosses a row border has a reached tile that is not marked |
| `TileRaster.VerticalSound` | src/expire_tiles_quadtree.cpp:105-123 | a segment treated as vertical inside one column only marks reached tiles |
| `TileRaster.VerticalComplete` | src/expire_tiles_quadtree.cpp:142-150 | and marks all of them |
| `ExpireTiles.ExpireTilesQuadtree.ExpireTile` | src/expire_tiles_quadtree.cpp:163-167 | adds exactly the code of the tile, keeping the other entries |
| `ExpireTiles.ExpireTilesQuadtree.ExpireVerticalLine` | src/expire_tiles_quadtree.cpp:142-150 | adds exactly the codes of the tiles of the column between the ends |
| `ExpireTiles.ExpireTilesQuadtree.ExpireLineSegment` | src/expire_tiles_quadtree.cpp:97-140 | adds exactly the codes of the tiles about which the raster lemmas speak, which `MarkedExactly` determines for all segments |
| `Antimeridian.AssertsHoldFromZoom1` | src/expire_tiles_quadtree.cpp:35-57 | for all end points on the map both asserts of the rasteriser hold for every call if and only if the zoom level is at least 1 |
| `Antimeridian.PiecesMeetAsserts` | src/expire_tiles_quadtree.cpp:39-57 | each segment handed over is ordered, at most half the map wide and inside the map, and nothing is divided by zero |
| `Antimeridian.PiecesFormTheSegment` | src/expire_tiles_quadtree.cpp:48-54 | the two pieces, the eastern one moved by the map width, are exactly the one straight segment between the ends |
| `Antimeridian.AddedCodesAreTouchedCodes` | src/expire_tiles_quadtree.cpp:31-58 | if the pieces are rasterised faithfully, the codes added are exactly the codes of the tiles touched by the segment across the meridian |
| `Antimeridian.MarkedCodesAreTouchedCodes` | src/expire_tiles_quadtree.cpp:31-58 | the codes marked by the pieces are the codes touched by the unrolled segment |
| `ExpireTiles.ExpireTilesQuadtree.ExpireLineSegment180Secure` | src/expire_tiles_quadtree.cpp:31-58 | adds exactly the codes of the pieces, all of which are valid input of the rasteriser |
| `ExpiryOutput.OutputSound` | src/expire_tiles_quadtree.cpp:203-214 | each printed line is a dirty tile or an ancestor of one, with its zoom level in the range |
| `ExpiryOutput.OutputHasNoRepeats` | src/expire_tiles_quadtree.cpp:209-213 | no line is printed twice |
| `ExpiryOutput.CompleteIffNoCollision` | src/expire_tiles_quadtree.cpp:207-213 | every requested ancestor is printed if and only if no two requested tiles of different zoom levels have the same code |
| `ExpiryOutput.PrintedZoom` | src/expire_tiles_quadtree.cpp:203-213 | of all tiles that share a code number exactly one line is printed, at the zoom level to which the loops come first: smaller dirty codes before greater ones, finer zoom levels before coarser ones |
| `ExpiryOutput.SingleZoomIsComplete` | src/expire_tiles_quadtree.cpp:207-213 | with equal minimum and maximum zoom the printed list is complete |
| `ExpiryOutput.CornerTileLosesAncestor` | src/expire_tiles_quadtree.cpp:207-213 | for every set of dirty tiles with the tile in the corner of the map, and every range of more than one zoom level, a line is missing |
| `ExpireTiles.ExpireTilesQuadtree.OutputAndDestroy` | src/expire_tiles_quadtree.cpp:197-219 | the loops print exactly the list about which the output lemmas speak, in its order |
| `MembersDatabase.CollectRelations` | contrib/libosmium_patched/include/osmium_patched/relations/members_database.hpp:249-389 | in every run of track, prepare and add with each object once, the callback fires for a relation exactly at the object that is its last missing member, once for repeated members; behind the run `get_object` finds an object exactly if it was never tracked or a relation still keeps it, which is decided by the calls and by what the callbacks remove |
| `MembersDatabase.Run` | contrib/libosmium_patched/include/osmium_patched/relations/members_database.hpp:249-389 | behind a whole run the kept entries of an object for a completed relation are those tracked minus those that its callback removed, and for the other relations all that were tracked |
| `MembersDatabase.FiredIffComplete` | contrib/libosmium_patched/include/osmium_patched/relations/members_database.hpp:361-389 | a relation has fired if and only if it has members and all of them have been added |
| `MembersDatabase.MembersDatabase.Add` | contrib/libosmium_patched/include/osmium_patched/relations/members_database.hpp:361-389 | one add with a callback keeps the invariant: counters equal the entries still missing, the stash holds exactly the objects still needed; the callback of each relation completed by this add removes exactly the entries that it names, and nothing is removed for other relations |
| `MembersDatabase.MembersDatabase.Tell` | contrib/libosmium_patched/include/osmium_patched/relations/members_database.hpp:375-386 | the asserts of the loop hold at every entry even after the callback has removed members during the loop; if the relation of the entry is completed, its kept entries are those before without exactly what the callback removes, and otherwise all stay |
| `MembersDatabase.MembersDatabase.Track` | contrib/libosmium_patched/include/osmium_patched/relations/members_database.hpp:249-254 | appends one entry and raises the counter of its relation |
| `MembersDatabase.MembersDatabase.PrepareForLookup` | contrib/libosmium_patched/include/osmium_patched/relations/members_database.hpp:262-268 | sorts the entries, loses none, and starts the lookup phase |
| `MembersDatabase.MembersDatabase.Remove` | contrib/libosmium_patched/include/osmium_patched/relations/members_database.hpp:274-293 | marks exactly the first kept entry of the pair and frees the object exactly if one kept entry was left |
| `MembersDatabase.MembersDatabase.CompleteRelation` | contrib/libosmium_patched/include/osmium_patched/relations/members_database.hpp:274-293 | removing members of a completed relation keeps the index valid and takes away exactly these entries |
| `MemberElements.FreedExactlyWithLastEntry` | contrib/libosmium_patched/include/osmium_patched/relations/members_database.hpp:281-292 | for a pair in the index the object is freed exactly with its last kept entry; for an absent pair it may be freed while an entry is kept |
| `MembersDatabase.Find` | contrib/libosmium_patched/include/osmium_patched/relations/members_database.hpp:156-162 | the binary search returns the range that holds exactly the entries of the id, as a linear scan would, whatever the removal marks |
| `MembersDatabase.MembersDatabase.GetObject` | contrib/libosmium_patched/include/osmium_patched/relations/members_database.hpp:303-314 | finds the object if and only if it has been added; it fails, where the program reads a freed item, exactly if the object came and none of its entries is kept |
| `MembersDatabase.MembersDatabase.Count` | contrib/libosmium_patched/include/osmium_patched/relations/members_database.hpp:224-238 | the three counts are the waiting, the found and the removed entries and add up |
| `MembersDatabase.MembersDatabase.GetRelationTags` | src/associated_street_relation_manager.cpp:29-38 | on the sorted index the relation chosen for a member is the minimal one by position in the relation, then by relation |
| `Wkb.RoundTripIffRingsFit` | contrib/wkbhpp/include/wkbhpp/wkbwriter.hpp:145-329 | for every geometry within the limits of the size fields that are checked, decoding the written bytes gives it back if and only if no ring has 2^32 points or more |
| `Wkb.RoundTrip` | contrib/wkbhpp/include/wkbhpp/wkbwriter.hpp:145-162 | the layout of every geometry type decodes to the geometry and its SRID, in WKB and in EWKB |
| `Wkb.Layout` | contrib/wkbhpp/include/wkbhpp/wkbwriter.hpp:145-162 | the bytes at the start of every geometry, written out: 1, the code of the type with the flag for an SRID, the SRID, and the number of points, rings or polygons, all least significant byte first; a point is x before y |
| `WkbOutput.HexRoundTrip` | contrib/wkbhpp/include/wkbhpp/wkbwriter.hpp:90-101 | the hexadecimal form can be read back for all bytes |
| `WkbOutput.HexDigits` | contrib/wkbhpp/include/wkbhpp/wkbwriter.hpp:90-101 | two upper-case digits for each byte, the high half first |
| `WkbOutput.OutputReadsBack` | contrib/wkbhpp/include/wkbhpp/wkbwriter.hpp:90-162 | the text of every geometry of 8-bit bytes, binary or hexadecimal, reads back to the geometry and its SRID if and only if no ring has 2^32 points or more |
| `WkbWriter.WKBWriter.WriteMultiPolygon` | contrib/wkbhpp/include/wkbhpp/wkbwriter.hpp:273-329 | driving the call protocol for any nested list yields exactly the encoding of that list, in the output form of the writer, which reads back to the list if and only if no ring has 2^32 points or more |
| `WkbWriter.WKBWriter.MultipolygonFinish` | contrib/wkbhpp/include/wkbhpp/wkbwriter.hpp:317-329 | the result depends only on what was added since the start; too many polygons throw and leave the buffer |
| `WkbWriter.WKBWriter.MultipolygonPolygonFinish` | contrib/wkbhpp/include/wkbhpp/wkbwriter.hpp:285-287 | the number of rings lands on the placeholder of this polygon and nothing else changes |
| `WkbWriter.WKBWriter.RingFinish` | contrib/wkbhpp/include/wkbhpp/wkbwriter.hpp:296-309 | the number of points, as counted in 32 bits, lands on the placeholder of this ring |
| `WkbWriter.WKBWriter.SetSize` | contrib/wkbhpp/include/wkbhpp/wkbwriter.hpp:164-170 | replaces exactly the four bytes at the offset, or throws and changes nothing |
| `WkbWriter.PatchPlaceholder` | contrib/wkbhpp/include/wkbhpp/wkbwriter.hpp:164-170 | a size behind a prefix changes neither the prefix nor what follows |
| `WkbWriter.LineStringIffCounted` | contrib/wkbhpp/include/wkbhpp/wkbwriter.hpp:202-224 | a line string decodes to its points if and only if the caller passed their number |
| `CopyText.Escape` | src/postgres_table.cpp:79-115 | the loop writes the escaped text, and the NULL of COPY for a null pointer |
| `CopyText.EscapeRoundTrip` | src/postgres_table.cpp:79-115 | COPY decodes every escaped string to itself, and none is taken for NULL |
| `CopyText.Escape4Hstore` | src/postgres_table.cpp:21-49 | the loop writes the text about which the hstore lemmas speak |
| `CopyText.HstoreEscapedDecodes` | src/postgres_table.cpp:21-49 | behind COPY exactly the level of quoting is left that the hstore type reads |
| `CopyText.Escape4Array` | src/postgres_table.cpp:51-77 | the loop writes the text about which the array lemmas speak |
| `CopyText.EscapedSolid` | src/postgres_table.cpp:21-115 | no escaped text contains a raw tab or line end |
| `CopyText.SolidIsOneField` | src/postgres_table.cpp:109-112 | such a text followed by a tab is exactly one field of a COPY line |
| `HStore.HstoreRoundTrip` | contrib/pg-array-hstore-parser/include/hstore_parser.hpp:136-243 | the loop over `has_next` and `get_next` returns exactly the printed list of pairs and stops, empty keys and values included |
| `HStore.SentHstoreRoundTrip` | src/postgres_handler.cpp:152-187 | the hstore column as it is sent, decoded by COPY and parsed, gives the list of pairs back |
| `HStore.HStoreParser.HasNext` | contrib/pg-array-hstore-parser/include/hstore_parser.hpp:136-143 | the test with the unsigned `size - 7`, for every position and length |
| `HStore.HStoreParser.GetNext` | contrib/pg-array-hstore-parser/include/hstore_parser.hpp:150-243 | one pair and the text behind it as the state machine defines them, or an exception exactly where it has one |
| `HStore.HStoreParser.HandleCharacter` | contrib/pg-array-hstore-parser/include/hstore_parser.hpp:161-239 | one turn of the loop is one step of the state machine |
| `HStore.ParseAll` | contrib/pg-array-hstore-parser/include/hstore_parser.hpp:136-243 | the loop collects all pairs of any text, or throws |
| `HStoreSyntax.RunMixed` | contrib/pg-array-hstore-parser/include/hstore_parser.hpp:150-243 | a pair is read for all keys and values in quotation marks or as plain words, in any mixture, with any spaces around the separator |
| `HStoreSyntax.KeyRefused` | contrib/pg-array-hstore-parser/include/hstore_parser.hpp:178-200 | a separator before a key, and a `>` directly behind one, throw |
| `HStoreSyntax.ValueRefused` | contrib/pg-array-hstore-parser/include/hstore_parser.hpp:178-200 | `=` and `>` directly behind an unquoted value throw |
| `HStoreSyntax.EscapeRefused` | contrib/pg-array-hstore-parser/include/hstore_parser.hpp:161-174 | in quotation marks every escape sequence but two throws |
| `HStoreSyntax.WordsReadBackIff` | contrib/pg-array-hstore-parser/include/hstore_parser.hpp:136-243 | a list of unquoted words comes back if and only if it has at most one pair or a last pair of at least seven characters; otherwise exactly the last pair is lost |
| `PgArray.ArrayParser.GetNext` | contrib/pg-array-hstore-parser/include/array_parser.hpp:183-243 | one element and the next position as the scanner defines them, or an exception |
| `PgArray.ArrayParser.RemoveEscapeSequences` | contrib/pg-array-hstore-parser/include/array_parser.hpp:114-153 | the copy into the prepared buffer is the text without backslashes, and it throws exactly for a bad escape sequence or a range outside the text |
| `PgArray.QuotedElementsUnescape` | contrib/pg-array-hstore-parser/include/array_parser.hpp:183-240 | on any range of a quoted element that `get_next` delimits, in any text, removing escape sequences never throws |
| `PgArray.ElementRaisesIff` | contrib/pg-array-hstore-parser/include/array_parser.hpp:183-240 | on any text and position, an element that `get_next` delimits makes it throw if and only if the element is unquoted and has, behind an odd number of backslashes, a character other than a quote or a backslash |
| `PgArray.UnescapeFailsIff` | contrib/pg-array-hstore-parser/include/array_parser.hpp:123-150 | removing escape sequences fails exactly at such a character |
| `PgArray.UnquotedElement` | contrib/pg-array-hstore-parser/include/array_parser.hpp:216-235 | where every unquoted element starts and ends, and where the parser goes on: up to the separator, or in front of the last space |
| `PgArray.ParseAll` | contrib/pg-array-hstore-parser/include/array_parser.hpp:164-243 | the loop over the elements of any text |
| `Decimal.PrintRoundTrip` | contrib/pg-array-hstore-parser/include/type_conversion.hpp:77-79 | strtoll reads back every printed 64-bit id |
| `Decimal.FitsExactly` | src/postgres_handler.cpp:12-16 | the printed id and its end fit into the buffer exactly for ids above -10^18 and below 10^19; of the 64-bit ids the upper bound excludes none |
| `ArrayText.AddWayNodes` | src/postgres_handler.cpp:68-79 | the loop writes the braced list of ids, if and only if each one fits into the buffer of 20 bytes |
| `ArrayText.AddMemberIds` | src/postgres_handler.cpp:81-92 | the same for members |
| `ArrayText.AddMemberRoles` | src/postgres_handler.cpp:94-105 | the loop writes the braced list of quoted roles |
| `ArrayText.IdsRoundTrip` | src/postgres_handler.cpp:68-92 | the text of every list of 64-bit ids comes back through COPY and the array parser; `AddWayNodes` and `AddMemberIds` write it for the ids that fit into the buffer |
| `ArrayText.RolesRoundTrip` | src/postgres_handler.cpp:94-105 | a list of roles comes back if no role has a tab, CR or LF; otherwise the parser throws |
| `Rows.Columns.Init` | contrib/cerepso-postgres-backend/include/postgres_drivers/columns.hpp:316-387 | appends the columns of the table type |
| `Rows.Columns.constructor` | contrib/cerepso-postgres-backend/include/postgres_drivers/columns.hpp:389-410 | fixes the order of the columns |
| `Rows.FillField` | src/postgres_handler.cpp:145-233 | appends the separator and the field of the column, says whether there was one, and extends the written keys exactly by a key that had a value, if and only if the ids of the column fit into the buffer |
| `Rows.PrepareQuery` | src/postgres_handler.cpp:235-245 | the loop writes the line about which the row lemmas speak, if and only if all ids in it fit into the buffer |
| `Rows.PrepareRelationQuery` | src/postgres_handler.cpp:296-316 | the same with the two geometry collections of a relation, about which `RelationLine` speaks |
| `RowMeaning.RowRoundTrip` | src/postgres_handler.cpp:145-245 | a line splits at raw tabs into one field per column; a tag column holds the first value of its key, the object's before the relation's, or NULL; the columns for the id, the metadata, the geometry and the nodes of a way read back to those of the object; the hstore column parses to exactly the other tags that are not dropped, in order |
| `RowMeaning.RowByName` | contrib/cerepso-postgres-backend/include/postgres_drivers/columns.hpp:284-410 | the same by the names of the columns: under `osm_id` the id, negated for the area of a relation, under `x` and `y` the coordinates, under `geom`, `geom_points` and `geom_lines` the geometries, and the metadata under their names |
| `RowMeaning.RelationLine` | src/postgres_handler.cpp:296-316 | the line for a relation in a table with an hstore column has the collection of points under `geom_points` and that of lines under `geom_lines` |
| `RowMeaning.MetadataByName` | contrib/cerepso-postgres-backend/include/postgres_drivers/columns.hpp:314-332 | which columns of metadata a table has, by name: the id always, the others as configured |
| `RowMeaning.GeometryByName` | contrib/cerepso-postgres-backend/include/postgres_drivers/columns.hpp:333-387 | which columns for the geometry a table has, by name |
| `RowMeaning.TagConservation` | src/postgres_handler.cpp:152-198 | under every key a reader finds the first value among the tags of the object, or, if there is none, among those of the relation; dropped tags count only for a column of their own |
| `RowMeaning.OneFieldPerColumn` | src/postgres_handler.cpp:145-245 | for any columns: one field per column if and only if every column but the last is handled |
| `RowMeaning.TablesAreSeparated` | contrib/cerepso-postgres-backend/include/postgres_drivers/columns.hpp:284-410 | for the tables of the program and the objects sent to them every column is handled, and the hstore column is the last and only one of its kind |
| `RowMeaning.RelationLines` | src/postgres_handler.cpp:296-316 | a line for a relation has one field per column if and only if there is an hstore column |
| `RowMeaning.RowIsOneLine` | src/postgres_handler.cpp:235-245 | no line end occurs inside a line |
| `MemberLists.MemberListQuery` | src/postgres_handler.cpp:261-282 | the loop writes the rows of one member type, up to the cut-off, with the position among all members, if and only if all ids in them fit into the buffer |
| `ListLines.MemberLine` | src/postgres_handler.cpp:261-282 | a line of a member table has the member, the relation, the position and the role under the columns of these names, and the role is read as it was |
| `ListLines.NodeWayQuery` | src/postgres_handler.cpp:247-259 | the loop writes the rows of a node list, if and only if its assert holds and all ids fit into the buffer |
| `ListLines.NodeLine` | src/postgres_handler.cpp:247-259 | a line of this table has the way, the node and the position under the columns of these names |
| `MemberLists.TablesHoldAll` | src/postgres_handler.cpp:261-294 | the three tables together hold every member exactly once |
| `MemberLists.MergeResult` | src/diff_handler2.cpp:131-137 | whatever the order of the rows read and of equal keys in the sort, the merged list is the members in the order of their wrapped positions, and at most 65535 of them |
| `MemberLists.MembersComeBackIff` | src/postgres_table.cpp:485-509 | that is the list that was written, in ids and types, if and only if it has at most 32768 members, or at most 65535 and each one equals the one that takes its place |
| `MemberLists.ExactlyUpTo32768` | contrib/cerepso-postgres-backend/include/postgres_drivers/table.hpp:22-43 | every list of a length comes back, for every order of reading, if and only if the length is at most 32768 |
| `NodeLists.NodeListRestored` | src/postgres_table.cpp:458-483 | the nodes of a way come back in the order of their wrapped positions |
| `PendingWork.CrossOff` | src/diff_handler2.cpp:355-368 | the search from the saved index: zero and new index at the first equal id, nothing at the first greater one |
| `PendingWork.CrossOffAll` | src/diff_handler2.cpp:355-368 | for ids in ascending order, over the whole run, exactly the pending ids among them become zero |
| `PendingWork.CursorStep` | src/diff_handler2.cpp:462-475 | one search keeps the invariant that nothing before the saved index is still to come |
| `PendingWork.CleanUp` | src/diff_handler2.cpp:616-638 | the calls are strictly ascending and are exactly the positive ids, without the smallest one if it occurs once |
| `PendingWork.HeaderPromise` | src/diff_handler2.hpp:139-145 | a call for each non-zero element happens if and only if there is no negative id and the smallest positive id occurs more than once |
| `PendingWork.UniqueLosesSmallest` | src/diff_handler2.cpp:554-557 | after sorting and removing duplicates the smallest positive id is always stepped over |
| `PendingWork.SortUnique` | src/diff_handler2.cpp:552-558 | the sorted list without duplicates has the same ids |
| `PgTables.Table.SendLine` | contrib/cerepso-postgres-backend/include/postgres_drivers/table.hpp:240-251 | succeeds exactly in COPY mode with a complete line, and appends the rows |
| `PgTables.Table.StartCopy` | contrib/cerepso-postgres-backend/include/postgres_drivers/table.hpp:267-282 | enters COPY mode, and fails inside it |
| `PgTables.Table.EndCopy` | contrib/cerepso-postgres-backend/include/postgres_drivers/table.hpp:291-307 | leaves COPY mode, harmless outside it |
| `DiffGeometry.NodeStep` | src/diff_handler2.cpp:109-125 | a node with a new location keeps the invariant, because the ways that use it become pending |
| `DiffGeometry.WayStep` | src/diff_handler2.cpp:332-354 | a new way keeps the invariant: its row has the locations of its node list as it is read back |
| `DiffGeometry.NewWayInOrderIff` | src/diff_handler2.cpp:332-354 | for every list that is written whole, the new row is in order if and only if its geometry fits the list as it is read back |
| `DiffGeometry.DeleteStep` | src/diff_handler1.cpp:67-75 | deleting a way and its node list keeps the other geometries consistent |
| `DiffPass1.DiffHandler1.Node` | src/diff_handler1.cpp:17-52 | which rows of the two node tables are deleted, and when the location is lost |
| `DiffPass1.DiffHandler1.Way` | src/diff_handler1.cpp:55-77 | a first version leaves everything; otherwise exactly the row, the area and the node list of the way go |
| `DiffPass1.DiffHandler1.Relation` | src/diff_handler1.cpp:80-92 | the same for a relation and its three member lists |
| `DiffPass1.RelationAreaSurvives` | src/diff_handler1.cpp:84-87 | the area of a relation stays and an area of the way with the same number is lost |
| `DiffPass2.DiffHandler2.Node` | src/diff_handler2.cpp:109-125 | fails exactly for a node behind the node phase; the rows sent to the two node tables; appends the ways and relations that use the node |
| `DiffPass2.DiffHandler2.Way` | src/diff_handler2.cpp:332-369 | fails exactly behind the way phase, without nodes, or with more than 65535; the rows sent and the pending id crossed off |
| `DiffPass2.DiffHandler2.UpdateWay` | src/diff_handler2.cpp:371-421 | replaces the geometry of this way by one of the present locations of its present node list and makes its relations pending |
| `DiffPass2.DiffHandler2.WorkOnPendingWays` | src/diff_handler2.cpp:608-613 | the geometries are updated for exactly the worklist, and exactly the relations of the ways whose geometry could be built become pending |
| `DiffPass2.DiffHandler2.WriteNewNodes` | src/diff_handler2.cpp:543-559 | from the node phase to the way phase |
| `DiffPass2.DiffHandler2.WriteNewWays` | src/diff_handler2.cpp:561-590 | from the way phase to the relation phase, with the pending ways updated in between while no table is in COPY mode; the pending relations stay the same set |
| `DiffPass2.DiffHandler2.Relation` | src/diff_handler2.cpp:436-476 | never fails; passes the phases it needs and appends the rows of the relation |
| `DiffPass2.DiffHandler2.SendRelation` | src/diff_handler2.cpp:447-475 | the rows of the relation and of its three member lists, and the pending relation crossed off |
| `DiffPass2.DiffHandler2.MembersOf` | src/diff_handler2.cpp:131-137 | the sorted merge of the three member tables |
| `DiffPass2.DiffHandler2.AfterRelations` | src/diff_handler2.cpp:592-606 | which tables are in COPY mode behind every phase; the pending relations are worked on, and this fails if and only if the way phase was reached and a called relation has a stored member way; otherwise exactly the areas of called relations are updated |
| `DiffPass2.DiffHandler2.UpdateRelation` | src/diff_handler2.cpp:131-193 | fails if and only if the node lists are in COPY mode and the relation has a stored member way; updates its area exactly if there is one and the assembler finds it |
| `DiffPass2.DiffHandler2.WorkOnIncomplete` | src/pgimporter.cpp:413-425 | the step for incomplete relations does not fail, adds exactly the areas that the assembler finds, and leaves all tables out of COPY mode |
| `DiffRun.AcceptedIffInOrder` | src/diff_handler2.cpp:436-443 | the typestate of the tables accepts a stream if and only if live nodes come before everything else and live ways, with nodes, before relations |
| `DiffRun.Pass2` | src/diff_handler2.cpp:109-606 | no operation on a table fails if and only if the stream is in order |
| `DiffRun.RunPass2` | src/pgimporter.cpp:396-425 | with a relation in the stream this holds up to the end of the update, and all tables are out of COPY mode |
| `DiffRun.PassAndAfterRelations` | src/diff_handler2.cpp:592-606 | for every stream in order: all tables are out of COPY mode behind `after_relations` if and only if the stream has a relation; it throws if and only if the stream has something besides nodes but no relation, and among the relations that the stream makes pending there is one with a stored member way that is not stepped over, which is decided by the stream and the member tables before |
| `WayRun.StepKeeps` | src/diff_handler2.cpp:109-476 | each accepted object keeps the invariant on geometries, pending ids and nodes still to come |
| `WayRun.PreservedKeeps` | src/diff_handler2.cpp:109-476 | each accepted object keeps this: the ways of the diff so far have exactly the rows and node lists of the diff, the others exactly those behind pass 1, with new geometries for the ways that are refreshed |
| `WayRun.AllUpdates` | src/diff_handler2.cpp:371-404 | after the calls of `update_way` every stored way is in order or pending and not called |
| `WayRun.WaysAreRight` | src/diff_handler2.cpp:332-421 | behind pass 2, by id: a live way of the diff has exactly one row, with the geometry of its nodes at the new locations, or none without interesting tags, and its node list reads back; a deleted way has neither; every other way has exactly its old rows and node list, and a new geometry of its old list at the new locations if and only if it is renewed; all rows are in order if and only if the old rows of the ways stepped over fit the new locations |
| `RelationRun.GatheredKeeps` | src/diff_handler2.cpp:109-476 | each accepted object keeps the invariant on the pending relations: exactly those with a member node that has come, a member way that has been sent, or a member way that has been updated |
| `RelationRun.CallsAreRight` | src/diff_handler2.cpp:561-638 | the calls for the relations are exactly those that the diff concerns, in ascending order, without the one with the smallest positive id |
| `RelationRun.ListsAreRight` | src/diff_handler2.cpp:447-460 | relations of the diff have exactly the member lists of the diff in the three tables, all others those they had |
| `RelationRun.MembersOfDiffComeBack` | src/diff_handler2.cpp:131-137 | what `update_relation` reads for a relation of the diff is the member list of the diff, in ids and types, if and only if that list survives the tables |
| `ObjectRun.NodesAreRight` | src/diff_handler1.cpp:17-52 | by id, behind both passes: a node with one entry in the diff has exactly the rows that its location, tags and deletion and the settings call for if and only if a first version was not stored and another one not in both tables; all other nodes keep exactly their rows |
| `ObjectRun.NodeInBothTablesStays` | src/diff_handler1.cpp:45-52 | a deleted node that was in both tables is still in the table of tagged nodes |
| `ObjectRun.RelationRowsAreRight` | src/diff_handler2.cpp:436-447 | a relation of the diff has exactly its row, or none if it is deleted, if and only if a first version was not stored; all others keep their rows |
| `ObjectRun.AreasAreRight` | src/diff_handler1.cpp:71-87 | under every id: the areas before, unless a way or relation with this id is changed or deleted, and those of the stream, ways under their ids and relations under the negated ones |
| `ObjectRun.UpdatesAreaIff` | src/diff_handler2.cpp:187-192 | a called relation gets a new area if and only if the assembler finds one and the stream has an area of this relation or the database had one that was not lost |
| `WholeUpdate.Pass1` | src/diff_handler1.cpp:17-92 | exactly the rows of the changed and deleted ways and the lists of the changed and deleted relations go, and the other ways stay consistent up to nodes that pass 2 brings; by id, the rows of nodes, relations and areas that are left, and the locations |
| `WholeUpdate.SecondPass` | src/diff_handler2.cpp:109-590 | from the first to the last object the invariants on ways, relations and locations hold, and exactly the rows of the nodes, relations and areas of the stream are appended, as the fields of the objects call for |
| `WholeUpdate.BothPasses` | src/pgimporter.cpp:384-411 | for every stream in order, with or without a relation, in terms of the database before: the locations and rows of the nodes, the rows of relations and areas, which areas are built anew, the rows and node lists of all ways, the member lists of all relations, the COPY modes, and when `after_relations` throws; without a relation no way outside the diff gets a new geometry |
| `WholeUpdate.ApplyDiff` | src/pgimporter.cpp:361-425 | the whole update with a relation: nothing fails and all tables leave COPY mode; the locations of the nodes (the last or the first of the diff, by the kind of index), the rows of all nodes, relations and areas, the rows and node lists of all ways, the member lists of all relations, and the relations that are called, in terms of the database before. If every stored way had a geometry of the locations of its nodes, it has so afterwards for the new lists and locations, except the way with the smallest positive id among the surviving ways that use a moved node (and such ways without a positive id), which keeps its old row |
| `WholeUpdate.OneWayIsLeftBehind` | src/diff_handler2.cpp:616-638 | a database of one way and a diff that moves its only node: the way ends with the geometry of the old location, for all builders that tell the two locations apart |
| `Interpolation.GetRemotePoint` | src/addr_interpolation_handler.cpp:190-210 | the search stops inside the line, in a segment that is not empty, with a remaining length in it that adds up; on a line of length zero it stops at the first vertex with nothing remaining |
| `Interpolation.OnePosition` | src/addr_interpolation_handler.cpp:197-210 | on a line longer than a point there is only one such position, so these facts determine the result of the search |
| `Interpolation.NeverBackwards` | src/addr_interpolation_handler.cpp:197-210 | for larger fractions the chosen segment never goes back |
| `Interpolation.PointIsOnSegment` | src/addr_interpolation_handler.cpp:216-219 | the point lies on the chosen segment at its fraction |
| `Interpolation.AddPoints` | src/addr_interpolation_handler.cpp:118-142 | throws exactly for an odd difference of odd or even numbers and for letters beyond the range; otherwise one point per increment below the difference, at its fraction, and point k has the number of the first end plus k + 1 increments with the same suffix, or for letters the same number with the letter k + 1 further |
| `Interpolation.AddPointsToStr` | src/addr_interpolation_handler.cpp:118-142 | the same from the texts of the two house numbers |
| `Interpolation.PointsAreRight` | src/addr_interpolation_handler.cpp:274-286 | the numbers, suffixes and places of a complete list, written out |
| `Interpolation.NumbersBetween` | src/addr_interpolation_handler.cpp:131-142 | for an ascending range exactly the numbers strictly between the ends at the right step |
| `Interpolation.BetweenIffAscending` | src/addr_interpolation_handler.cpp:127-142 | all numbers are between the ends if and only if the range ascends or nothing is written |
| `Interpolation.PointsInOrder` | src/addr_interpolation_handler.cpp:135-136 | the points follow each other along the way |
| `Interpolation.OverflowsExactly` | src/addr_interpolation_handler.cpp:280-286 | when an alphabetic interpolation throws |
| `Interpolation.LettersBetween` | src/addr_interpolation_handler.cpp:137-142 | for ascending letters exactly the letters between the ends, in the case of the first |
| `Interpolation.ParsePrinted` | src/addr_interpolation_handler.cpp:247-274 | every house number that is written can be parsed again |
| `Interpolation.ParseExactly` | src/addr_interpolation_handler.cpp:247-274 | for every text of spaces, a sign and digits: which house number comes out, and that a text is refused exactly if the number is not positive behind the cast or something else than one letter follows |
| `Interpolation.RangeThrows` | src/addr_interpolation_handler.cpp:247-274 | so the text of a range, as 15-19, is refused |
| `Interpolation.NoNumber` | src/addr_interpolation_handler.cpp:247-274 | without digits the invalid house number comes out |

## Left out

- libpq, SQL, indexes, connections, transactions and error messages of the database: a table is its rows and its COPY
  flag, and a deletion is visible at once.
- The projection of coordinates to tiles, the lengths of segments on the sphere, and rounding of floating point:
  tile coordinates and lengths are given real numbers.
- Zoom levels above 16 in `quadtree_to_xy` and above 31 in `xy_to_quadtree`, where the program shifts by more than
  the width of an int.
- `expire_from_point`, `expire_bbox`, `expire_from_coord_sequence` and `normalise_tile_x_coord`.
- The big-endian branch of the WKB writer, and polygons written without calls for their rings.
- The values of the columns for uid and changeset are the version, as in the code; whether that is meant is not
  modelled.
- The order in which PostgreSQL keeps one of two equal hstore keys: `TagConservation` reads the first one.
- The columns of the table of interpolated addresses, column types and their SQL names.
- DiffPass2.DiffHandler2.Way: does not model the buffer of 20 bytes for printed ids in the lines that the second pass
  sends; `FitsExactly` says which ids fit, and the methods that write the lines say when they do.
- DiffPass2.DiffHandler2.UpdateWay: the geometry written to the table of areas is made by GEOS and libosmium and is not
  modelled, only that the row stays.
- DiffPass2.DiffHandler2.UpdateRelation: nor are the geometries of relations, only which tables are read and written.
- DiffPass2.DiffHandler2.Relation: exceptions for invalid locations in `insert_relation` are not modelled, so that it
  never fails is said of the tables and their COPY mode.
- DiffPass2.DiffHandler2.InsertRelation: the same.
- WholeUpdate.ApplyDiff: assumes an updatable database, one entry for each way and each relation, way lists that come
  back from the database as they were sent (`NewWayInOrderIff`), first versions that are not in the database yet, and no
  surviving way that names a deleted node. The law for the nodes is said of every node with one entry in the diff.
- Interpolation.AddPoints: what the division of zero by zero gives on a line of length zero is not modelled.
- Tables that are switched off (null pointers) in `DiffHandler2`, and the expiry of tiles during a diff.
- The search for the next node with a house number in `interpolate`, and `RequiredNodesTracking`.
- `AssociatedStreetRelationManager::relation`, which only tracks every member with its position; `pgimporter.cpp`
  does not call `prepare_for_lookup` on this manager, so `GetRelationTags` requires a sorted index.
- `main`, option parsing, style files, factories and the first import.
