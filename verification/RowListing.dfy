/**
  The row listing (the GET of handleRows in internal/httpx/db_handlers.go): one page of
  masked rows and the cursor of the next page.
 */
module RowListing {
  import opened Strings
  import opened Paging
  import Rbac

  const LIST_PAGE := 50

  /** A page of rows as served, and the cursor of the next page. */
  datatype Response = Response(rows: seq<Rbac.Row>, next: string)

  function Listing(role: Rbac.Role, schema: seq<Rbac.ColumnDef>, table: Table, cursor: string): Response {
    var p := QueryRows(true, table.Keys, LIST_PAGE, cursor);
    PageInTable(table.Keys, LIST_PAGE, cursor);
    Response(ServedRows(role, schema, table, p.keys), p.next)
  }

  /** The first 50 rows of the scan, each as the role sees it, and the key of the last when there are more. */
  lemma ListingIs(role: Rbac.Role, schema: seq<Rbac.ColumnDef>, table: Table, cursor: string)
    ensures var all, r := Scan(true, table.Keys, cursor), Listing(role, schema, table, cursor);
            && |r.rows| == (if |all| > 50 then 50 else |all|)
            && r.next == (if |all| > 50 then all[49] else "")
            && forall i :: 0 <= i < |r.rows| ==>
                 all[i] in table && r.rows[i] == Rbac.Served(role, schema, table[all[i]])
  {
    hide Scan, QueryRows, Rbac.Served;
    PageIsPrefix(true, table.Keys, LIST_PAGE, cursor);
    InScanInTable(table.Keys, cursor);
  }

  /** The GET of handleRows: the rows of one page are masked, the cursor is handed out as it is. */
  method ListRows(role: Rbac.Role, schema: seq<Rbac.ColumnDef>, table: Table, cursor: string) returns (r: Response)
    ensures r == Listing(role, schema, table, cursor)
  {
    hide QueryRows;
    var p := QueryRows(true, table.Keys, LIST_PAGE, cursor);
    PageInTable(table.Keys, LIST_PAGE, cursor);
    var masked: seq<Rbac.Row> := [];
    for i := 0 to |p.keys|
      invariant masked == ServedRows(role, schema, table, p.keys[..i])
    {
      var row := Rbac.MaskRow(role, schema, table[p.keys[i]]);
      assert ServedRows(role, schema, table, p.keys[..i + 1]) == ServedRows(role, schema, table, p.keys[..i]) + [row];
      masked := masked + [row];
    }
    assert p.keys[..|p.keys|] == p.keys;
    r := Response(masked, p.next);
  }

  /** The primary key is the "id" column. */
  ghost predicate KeyedById(table: Table) {
    forall k :: k in table ==> "id" in table[k] && table[k]["id"] == Rbac.Str(k)
  }

  /** Row by row in key order beyond the cursor, the tables differ only in masked columns. */
  ghost predicate Alike(schema: seq<Rbac.ColumnDef>, t: Table, t': Table, cursor: string) {
    var s, s' := Scan(true, t.Keys, cursor), Scan(true, t'.Keys, cursor);
    |s| == |s'| && forall i :: 0 <= i < |s| ==> AlikeAt(schema, t, t', s[i], s'[i])
  }

  ghost predicate AlikeAt(schema: seq<Rbac.ColumnDef>, t: Table, t': Table, k: string, k': string) {
    k in t && k' in t' && SameUnmasked(schema, t[k], t'[k'])
  }

  /** What a listing tells a reader of two such tables: the same rows, and cursors at the same position. */
  lemma AlikeListings(role: Rbac.Role, schema: seq<Rbac.ColumnDef>, t: Table, t': Table, cursor: string)
    requires Reader(role)
    requires Alike(schema, t, t', cursor)
    ensures var s, s' := Scan(true, t.Keys, cursor), Scan(true, t'.Keys, cursor);
            var a, b := Listing(role, schema, t, cursor), Listing(role, schema, t', cursor);
            && |s| == |s'| && a.rows == b.rows
            && (if |s| > LIST_PAGE then a.next == s[LIST_PAGE - 1] && b.next == s'[LIST_PAGE - 1]
                else a.next == b.next == "")
  {
    hide Precedes, Ordered, QueryRows, SameUnmasked;
    var s, s' := Scan(true, t.Keys, cursor), Scan(true, t'.Keys, cursor);
    PageIsPrefix(true, t.Keys, LIST_PAGE, cursor);
    PageIsPrefix(true, t'.Keys, LIST_PAGE, cursor);
    var a, b := Listing(role, schema, t, cursor), Listing(role, schema, t', cursor);
    forall i | 0 <= i < |a.rows| ensures a.rows[i] == b.rows[i] {
      assert AlikeAt(schema, t, t', s[i], s'[i]);
      UnmaskedServed(role, schema, t[s[i]], t'[s'[i]]);
    }
  }

  /** With an unmasked "id" such tables have the same keys. */
  lemma AlikeKeys(schema: seq<Rbac.ColumnDef>, t: Table, t': Table, cursor: string)
    requires KeyedById(t) && KeyedById(t') && Alike(schema, t, t', cursor) && !Rbac.Masked(schema, "id")
    ensures Scan(true, t.Keys, cursor) == Scan(true, t'.Keys, cursor)
  {
    hide Scan;
    var s, s' := Scan(true, t.Keys, cursor), Scan(true, t'.Keys, cursor);
    forall i | 0 <= i < |s| ensures s[i] == s'[i] { assert AlikeAt(schema, t, t', s[i], s'[i]); }
  }

  // a table with other ids, in the same order

  function Rename(cursor: string, k: string): string {
    cursor + "x" + k
  }

  lemma {:induction false} LessAfterPrefix(p: string, a: string, b: string)
    ensures Less(p + a, p + b) <==> Less(a, b)
  {
    if p == "" {
      assert "" + a == a && "" + b == b;
    } else {
      assert (p + a)[1..] == p[1..] + a && (p + b)[1..] == p[1..] + b;
      LessAfterPrefix(p[1..], a, b);
    }
  }

  lemma RenameKeepsOrder(cursor: string, a: string, b: string)
    ensures Less(Rename(cursor, a), Rename(cursor, b)) <==> Less(a, b)
    ensures Less(cursor, Rename(cursor, a))
    ensures Rename(cursor, a)[|cursor| + 1..] == a
  {
    LessAfterPrefix(cursor + "x", a, b);
    LessAfterPrefix(cursor, "", "x" + a);
    assert cursor + "" == cursor && cursor + ("x" + a) == Rename(cursor, a);
  }

  ghost function Renamed(t: Table, cursor: string): Table {
    map k | k in (set x | x in t && x in Beyond(true, t.Keys, cursor) :: Rename(cursor, x))
      && k[|cursor| + 1..] in t :: t[k[|cursor| + 1..]]["id" := Rbac.Str(k)]
  }

  lemma RenamedMembers(t: Table, cursor: string, x: string)
    requires x in Beyond(true, t.Keys, cursor)
    ensures var k := Rename(cursor, x); k in Renamed(t, cursor) && Renamed(t, cursor)[k] == t[x]["id" := Rbac.Str(k)]
  {
    hide Less, Rename;
    RenameKeepsOrder(cursor, x, x);
    assert Rename(cursor, x) in (set y | y in t && y in Beyond(true, t.Keys, cursor) :: Rename(cursor, y));
  }

  lemma RenamedKeys(t: Table, cursor: string, k: string)
    ensures k in Renamed(t, cursor) ==> exists x :: x in Beyond(true, t.Keys, cursor) && Rename(cursor, x) == k
  {}

  function RenameAll(cursor: string, s: seq<string>): (r: seq<string>)
    ensures |r| == |s| && forall i :: 0 <= i < |s| ==> r[i] == Rename(cursor, s[i])
  {
    seq(|s|, i requires 0 <= i < |s| => Rename(cursor, s[i]))
  }

  lemma RenamedBeyond(t: Table, cursor: string, k: string)
    ensures k in Beyond(true, Renamed(t, cursor).Keys, cursor) <==> k in Renamed(t, cursor)
  {
    hide Less, Renamed;
    if k in Renamed(t, cursor) {
      RenamedKeys(t, cursor, k);
      var x :| x in Beyond(true, t.Keys, cursor) && Rename(cursor, x) == k;
      RenameKeepsOrder(cursor, x, x);
    }
  }

  lemma RenamedScan(t: Table, cursor: string)
    ensures Scan(true, Renamed(t, cursor).Keys, cursor) == RenameAll(cursor, Scan(true, t.Keys, cursor))
  {
    hide Less, Ordered, Beyond, Renamed, Rename;
    var s, t' := Scan(true, t.Keys, cursor), Renamed(t, cursor);
    var s', r := Scan(true, t'.Keys, cursor), RenameAll(cursor, s);
    forall i, j | 0 <= i < j < |r| ensures Precedes(true, r[i], r[j]) {
      assert Precedes(true, s[i], s[j]);
      RenameKeepsOrder(cursor, s[i], s[j]);
    }
    forall k ensures k in r <==> k in s' {
      RenamedBeyond(t, cursor, k);
      if k in r {
        var i :| 0 <= i < |r| && r[i] == k;
        assert s[i] in s;
        RenamedMembers(t, cursor, s[i]);
      }
      if k in s' {
        RenamedKeys(t, cursor, k);
        var x :| x in Beyond(true, t.Keys, cursor) && Rename(cursor, x) == k;
        assert x in s;
        var i :| 0 <= i < |s| && s[i] == x;
        assert r[i] == k;
      }
    }
    SortedUnique(true, r, s');
  }

  lemma OtherIdSameRow(schema: seq<Rbac.ColumnDef>, row: Rbac.Row, id: string)
    requires "id" in row && Rbac.Masked(schema, "id")
    ensures SameUnmasked(schema, row, row["id" := Rbac.Str(id)])
  {
    hide Rbac.Masked;
  }

  lemma RenamedIsAlike(schema: seq<Rbac.ColumnDef>, t: Table, cursor: string)
    requires KeyedById(t) && Rbac.Masked(schema, "id")
    ensures KeyedById(Renamed(t, cursor)) && Alike(schema, t, Renamed(t, cursor), cursor)
  {
    hide Less, Ordered, Beyond, Renamed, Rename;
    var s, t' := Scan(true, t.Keys, cursor), Renamed(t, cursor);
    RenamedScan(t, cursor);
    InScanInTable(t.Keys, cursor);
    forall i | 0 <= i < |s| ensures AlikeAt(schema, t, t', s[i], Rename(cursor, s[i])) {
      assert s[i] in s;
      RenamedMembers(t, cursor, s[i]);
      OtherIdSameRow(schema, t[s[i]], Rename(cursor, s[i]));
    }
    forall k | k in t' ensures "id" in t'[k] && t'[k]["id"] == Rbac.Str(k) {
      RenamedKeys(t, cursor, k);
      var x :| x in Beyond(true, t.Keys, cursor) && Rename(cursor, x) == k;
      RenamedMembers(t, cursor, x);
    }
  }

  lemma ListingBlindWithSchema(role: Rbac.Role, schema: seq<Rbac.ColumnDef>, t: Table, cursor: string)
    requires Reader(role) && KeyedById(t)
    ensures (forall t': Table :: KeyedById(t') && Alike(schema, t, t', cursor)
               ==> Listing(role, schema, t', cursor) == Listing(role, schema, t, cursor))
            <==> !Rbac.Masked(schema, "id") || |Scan(true, t.Keys, cursor)| <= LIST_PAGE
  {
    hide Less, Scan, QueryRows, Alike, Renamed, Rbac.Masked, Listing, KeyedById;
    if !Rbac.Masked(schema, "id") || |Scan(true, t.Keys, cursor)| <= LIST_PAGE {
      forall t': Table | KeyedById(t') && Alike(schema, t, t', cursor)
        ensures Listing(role, schema, t', cursor) == Listing(role, schema, t, cursor)
      {
        AlikeListings(role, schema, t, t', cursor);
        if !Rbac.Masked(schema, "id") { AlikeKeys(schema, t, t', cursor); }
      }
    } else {
      var t' := Renamed(t, cursor);
      RenamedIsAlike(schema, t, cursor);
      AlikeListings(role, schema, t, t', cursor);
      RenamedScan(t, cursor);
      assert Listing(role, schema, t', cursor) != Listing(role, schema, t, cursor);
    }
  }

  // a listing made without the schema

  /** No row on the page has a column that the declared schema masks. */
  ghost predicate NoneMasked(declared: seq<Rbac.ColumnDef>, t: Table, cursor: string) {
    var p := QueryRows(true, t.Keys, LIST_PAGE, cursor).keys;
    forall i :: 0 <= i < |p| && p[i] in t ==> !HasMasked(declared, t[p[i]])
  }

  lemma NothingMaskedIsEqual(declared: seq<Rbac.ColumnDef>, row: Rbac.Row, row': Rbac.Row)
    requires SameUnmasked(declared, row, row') && !HasMasked(declared, row)
    ensures row == row'
  {
    hide Rbac.Masked;
  }

  lemma UnmaskedAt(declared: seq<Rbac.ColumnDef>, t: Table, t': Table, k: string, k': string)
    requires KeyedById(t) && KeyedById(t') && AlikeAt(declared, t, t', k, k') && !HasMasked(declared, t[k])
    ensures k == k' && t[k] == t'[k']
  {
    hide SameUnmasked, HasMasked;
    NothingMaskedIsEqual(declared, t[k], t'[k']);
  }

  lemma UnmaskedPage(role: Rbac.Role, declared: seq<Rbac.ColumnDef>, t: Table, t': Table, cursor: string)
    requires KeyedById(t) && KeyedById(t') && Alike(declared, t, t', cursor) && NoneMasked(declared, t, cursor)
    ensures Listing(role, [], t', cursor) == Listing(role, [], t, cursor)
  {
    hide Scan, Rbac.Served, QueryRows, KeyedById, AlikeAt, HasMasked;
    var s, s' := Scan(true, t.Keys, cursor), Scan(true, t'.Keys, cursor);
    PageIsPrefix(true, t.Keys, LIST_PAGE, cursor);
    PageIsPrefix(true, t'.Keys, LIST_PAGE, cursor);
    PageInTable(t.Keys, LIST_PAGE, cursor);
    PageInTable(t'.Keys, LIST_PAGE, cursor);
    var p, p' := QueryRows(true, t.Keys, LIST_PAGE, cursor).keys, QueryRows(true, t'.Keys, LIST_PAGE, cursor).keys;
    assert |p| == |p'|;
    forall i | 0 <= i < |p| ensures p[i] == p'[i] && t[p[i]] == t'[p'[i]] {
      assert AlikeAt(declared, t, t', s[i], s'[i]);
      UnmaskedAt(declared, t, t', p[i], p'[i]);
    }
    assert p == p';
    assert Listing(role, [], t', cursor).rows == Listing(role, [], t, cursor).rows;
  }

  lemma AlteredTable(declared: seq<Rbac.ColumnDef>, t: Table, cursor: string, k: string, c: string)
    requires KeyedById(t) && k in t && c in t[k] && c != "id" && Rbac.Masked(declared, c)
    ensures var t' := t[k := Altered(t[k], c)];
            t'.Keys == t.Keys && KeyedById(t') && Alike(declared, t, t', cursor)
  {
    hide Less, Ordered, Rbac.Masked;
    var t' := t[k := Altered(t[k], c)];
    assert t'.Keys == t.Keys;
    InScanInTable(t.Keys, cursor);
    var s := Scan(true, t.Keys, cursor);
    forall i | 0 <= i < |s| ensures AlikeAt(declared, t, t', s[i], s[i]) {}
  }

  /** A listing made without the schema shows a masked column of a row on the page. */
  lemma UnmaskedListingShows(role: Rbac.Role, declared: seq<Rbac.ColumnDef>, t: Table, cursor: string)
    returns (t': Table)
    requires Reader(role) && KeyedById(t) && !NoneMasked(declared, t, cursor)
    ensures KeyedById(t') && Alike(declared, t, t', cursor)
    ensures Listing(role, [], t', cursor) != Listing(role, [], t, cursor)
  {
    hide Less, Ordered, Rbac.Masked, Rbac.Served, QueryRows, Alike, Renamed, KeyedById, Scan;
    var p := QueryRows(true, t.Keys, LIST_PAGE, cursor).keys;
    var i :| 0 <= i < |p| && p[i] in t && HasMasked(declared, t[p[i]]);
    var k := p[i];
    if Rbac.Masked(declared, "id") {
      t' := Renamed(t, cursor);
      RenamedIsAlike(declared, t, cursor);
      RenamedListingShows(role, t, cursor, i);
    } else {
      var c :| c in t[k] && Rbac.Masked(declared, c);
      t' := t[k := Altered(t[k], c)];
      AlteredTable(declared, t, cursor, k, c);
      UnmaskedShows(role, t[k], c);
      assert Listing(role, [], t', cursor).rows[i] != Listing(role, [], t, cursor).rows[i];
    }
  }

  lemma RenamedListingShows(role: Rbac.Role, t: Table, cursor: string, i: nat)
    requires Reader(role) && KeyedById(t) && i < |QueryRows(true, t.Keys, LIST_PAGE, cursor).keys|
    ensures Listing(role, [], Renamed(t, cursor), cursor) != Listing(role, [], t, cursor)
  {
    hide Less, Ordered, Rbac.Masked, Rbac.Served, QueryRows, Alike, Renamed, Beyond;
    var t', s := Renamed(t, cursor), Scan(true, t.Keys, cursor);
    PageIsPrefix(true, t.Keys, LIST_PAGE, cursor);
    PageIsPrefix(true, t'.Keys, LIST_PAGE, cursor);
    InScanInTable(t.Keys, cursor);
    RenamedScan(t, cursor);
    var k, k' := s[i], Rename(cursor, s[i]);
    assert s[i] in s;
    RenamedMembers(t, cursor, k);
    Rbac.MaskingHidesMaskedColumns(role, [], t[k], t'[k']);
    assert t[k]["id"] != t'[k']["id"] by { assert |k'| > |k|; }
    assert !Rbac.Masked([], "id") by { MaskedByNothing("id"); }
    assert Listing(role, [], t', cursor).rows[i] != Listing(role, [], t, cursor).rows[i];
  }

  lemma MaskedByNothing(c: string)
    ensures !Rbac.Masked([], c)
  {}

  /**
    Exactly when a listing is blind to the columns its table declares masked: every table
    that differs from this one only in them is listed alike if and only if the schema was
    fetched and "id" is not one of them or the page is the last, or it was not and no
    row on the page has such a column.  With the schema the rows served never differ;
    the cursor is the last row's raw id.
   */
  lemma ListingBlindExactly(role: Rbac.Role, declared: seq<Rbac.ColumnDef>, fetched: bool, t: Table, cursor: string)
    requires Reader(role) && KeyedById(t)
    ensures var schema := Fetched(declared, fetched);
            (forall t': Table :: KeyedById(t') && Alike(declared, t, t', cursor)
               ==> Listing(role, schema, t', cursor) == Listing(role, schema, t, cursor))
            <==> if fetched then !Rbac.Masked(declared, "id") || |Scan(true, t.Keys, cursor)| <= LIST_PAGE
                 else NoneMasked(declared, t, cursor)
  {
    hide Less, Scan, QueryRows, Alike, Rbac.Masked, Listing, KeyedById, NoneMasked, Reader;
    if fetched {
      ListingBlindWithSchema(role, declared, t, cursor);
    } else if NoneMasked(declared, t, cursor) {
      forall t': Table | KeyedById(t') && Alike(declared, t, t', cursor)
        ensures Listing(role, [], t', cursor) == Listing(role, [], t, cursor)
      {
        UnmaskedPage(role, declared, t, t', cursor);
      }
    } else {
      var t' := UnmaskedListingShows(role, declared, t, cursor);
    }
  }
}
