/** The class Table of contrib/cerepso-postgres-backend/include/postgres_drivers/table.hpp: the rows of a
    table and the COPY mode of its connection. */
module PgTables {
  import opened Sequences

  function Filter<T>(s: seq<T>, p: T -> bool): seq<T> {
    if s == [] then [] else (if p(s[0]) then [s[0]] else []) + Filter(s[1..], p)
  }

  lemma {:induction false} FilterAppend<T>(a: seq<T>, b: seq<T>, p: T -> bool)
    ensures Filter(a + b, p) == Filter(a, p) + Filter(b, p)
  {
    if a == [] {
      assert a + b == b;
    } else {
      assert (a + b)[1..] == a[1..] + b;
      FilterAppend(a[1..], b, p);
      Assoc(if p(a[0]) then [a[0]] else [], Filter(a[1..], p), Filter(b, p));
    }
  }

  lemma {:induction false} FilterMember<T>(s: seq<T>, p: T -> bool, x: T)
    ensures x in Filter(s, p) <==> x in s && p(x)
  {
    if s != [] {
      FilterMember(s[1..], p, x);
      assert x in s <==> x == s[0] || x in s[1..];
    }
  }

  lemma {:induction false} FilterAll<T>(s: seq<T>, p: T -> bool)
    ensures (forall i :: 0 <= i < |s| ==> p(s[i])) ==> Filter(s, p) == s
    ensures (forall i :: 0 <= i < |s| ==> !p(s[i])) ==> Filter(s, p) == []
  {
    if s != [] {
      FilterAll(s[1..], p);
      assert forall i :: 0 <= i < |s[1..]| ==> s[1..][i] == s[i + 1];
    }
  }

  /** What a DELETE leaves. */
  function Rest<T>(s: seq<T>, p: T -> bool): seq<T> {
    if s == [] then [] else (if p(s[0]) then [] else [s[0]]) + Rest(s[1..], p)
  }

  lemma {:induction false} RestMember<T>(s: seq<T>, p: T -> bool, x: T)
    ensures x in Rest(s, p) <==> x in s && !p(x)
  {
    if s != [] {
      RestMember(s[1..], p, x);
      assert x in s <==> x == s[0] || x in s[1..];
    }
  }

  /** Deleting other rows does not change a selection. */
  lemma {:induction false} FilterRest<T>(s: seq<T>, p: T -> bool, gone: T -> bool)
    requires forall x :: p(x) ==> !gone(x)
    ensures Filter(Rest(s, gone), p) == Filter(s, p)
  {
    if s != [] {
      FilterRest(s[1..], p, gone);
      var head := if gone(s[0]) then [] else [s[0]];
      FilterAppend(head, Rest(s[1..], gone), p);
      assert [s[0]][1..] == [];
    }
  }

  function Updated<T>(s: seq<T>, p: T -> bool, f: T -> T): (r: seq<T>)
    ensures |r| == |s| && forall i :: 0 <= i < |s| ==> r[i] == if p(s[i]) then f(s[i]) else s[i]
  {
    seq(|s|, i requires 0 <= i < |s| => if p(s[i]) then f(s[i]) else s[i])
  }

  /** Operations return false where the program throws. */
  class Table<Row> {
    var copyMode: bool
    var rows: seq<Row>

    constructor (rows: seq<Row>)
      ensures !copyMode && this.rows == rows
    {
      this.copyMode, this.rows := false, rows;
    }

    /** `start_copy`: the database refuses a COPY command inside COPY. */
    method StartCopy() returns (ok: bool)
      modifies this`copyMode
      ensures ok == !old(copyMode) && copyMode
    {
      ok := !copyMode;
      copyMode := true;
    }

    /** `end_copy`: nothing happens outside COPY mode. */
    method EndCopy()
      modifies this`copyMode
      ensures !copyMode
    {
      if !copyMode {
        return;
      }
      copyMode := false;
    }

    /** `send_line` for the rows of a text; an empty text does not end with a line end. */
    method SendLine(lines: seq<Row>) returns (ok: bool)
      modifies this`rows
      ensures ok == (copyMode && lines != [])
      ensures rows == if ok then old(rows) + lines else old(rows)
    {
      if !copyMode {
        return false;
      }
      if lines == [] {
        return false;
      }
      rows := rows + lines;
      return true;
    }

    /** A prepared SELECT. */
    method Select(p: Row -> bool) returns (ok: bool, found: seq<Row>)
      ensures ok == !copyMode && found == if ok then Filter(rows, p) else []
    {
      if copyMode {
        return false, [];
      }
      return true, Filter(rows, p);
    }

    /** A prepared DELETE; `any` is whether rows were affected. */
    method Delete(p: Row -> bool) returns (ok: bool, any: bool)
      modifies this`rows
      ensures ok == !copyMode && rows == if ok then Rest(old(rows), p) else old(rows)
      ensures any == (ok && Filter(old(rows), p) != [])
    {
      if copyMode {
        return false, false;
      }
      any := Filter(rows, p) != [];
      rows := Rest(rows, p);
      ok := true;
    }

    /** A prepared UPDATE. */
    method Update(p: Row -> bool, f: Row -> Row) returns (ok: bool)
      modifies this`rows
      ensures ok == !copyMode && rows == if ok then Updated(old(rows), p, f) else old(rows)
    {
      if copyMode {
        return false;
      }
      rows := Updated(rows, p, f);
      ok := true;
    }
  }
}
