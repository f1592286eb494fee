/**
  What an export tells a reader below maintainer (the export of
  internal/httpx/db_handlers.go): non-interference of the whole loop, over sources
  that change between pages, and the exact condition for it against the declared
  schema, since an error of GetTables leaves rows unmasked.

  Sources are compared up to a renaming of keys that keeps their order, so that "id"
  itself may be one of the masked columns.
 */
module ExportMasking {
  import opened Options
  import opened Strings
  import opened Paging
  import Rbac

  // ------------------------------------------------------------- renaming keys

  ghost predicate KeepsOrder(f: string -> string, keys: set<string>) {
    forall a, b :: a in keys && b in keys ==> (Less(f(a), f(b)) <==> Less(a, b))
  }

  ghost function RenameSet(f: string -> string, keys: set<string>): set<string> {
    set k | k in keys :: f(k)
  }

  ghost function RenameKeys(f: string -> string, s: seq<string>): (r: seq<string>)
    ensures |r| == |s| && forall i :: 0 <= i < |s| ==> r[i] == f(s[i])
  {
    seq(|s|, i requires 0 <= i < |s| => f(s[i]))
  }

  ghost function RenameItems(f: string -> string, items: seq<Item>): (r: seq<Item>)
    ensures |r| == |items| && forall i :: 0 <= i < |items| ==> r[i] == Item(items[i].page, f(items[i].key))
  {
    seq(|items|, i requires 0 <= i < |items| => Item(items[i].page, f(items[i].key)))
  }

  /** A cursor and its renamed form; the empty one stands before every key. */
  ghost predicate SameCursor(f: string -> string, cursor: string, cursor': string) {
    if cursor == "" then cursor' == "" else cursor' == f(cursor) && cursor' != ""
  }

  function WithCursor(keys: set<string>, cursor: string): set<string> {
    if cursor == "" then keys else keys + {cursor}
  }

  lemma RenamedBeyond(f: string -> string, keys: set<string>, cursor: string, cursor': string)
    requires KeepsOrder(f, WithCursor(keys, cursor)) && SameCursor(f, cursor, cursor')
    ensures Beyond(true, RenameSet(f, keys), cursor') == RenameSet(f, Beyond(true, keys, cursor))
  {
    hide Less;
  }

  lemma RenamedScan(f: string -> string, keys: set<string>, cursor: string, cursor': string)
    requires KeepsOrder(f, WithCursor(keys, cursor)) && SameCursor(f, cursor, cursor')
    ensures Scan(true, RenameSet(f, keys), cursor') == RenameKeys(f, Scan(true, keys, cursor))
  {
    hide Less, Ordered, Beyond;
    var s := Scan(true, keys, cursor);
    var s', r := Scan(true, RenameSet(f, keys), cursor'), RenameKeys(f, s);
    RenamedBeyond(f, keys, cursor, cursor');
    InScanInTable(keys, cursor);
    forall i, j | 0 <= i < j < |r| ensures Precedes(true, r[i], r[j]) { assert Precedes(true, s[i], s[j]); }
    forall k ensures k in r <==> k in s' {
      if k in r {
        var i :| 0 <= i < |r| && r[i] == k;
        assert s[i] in s;
      }
      if k in s' {
        var x :| x in Beyond(true, keys, cursor) && f(x) == k;
        assert x in s;
        var i :| 0 <= i < |s| && s[i] == x;
        assert r[i] == k;
      }
    }
    SortedUnique(true, r, s');
  }

  /** A page of the renamed table is the renamed page, its cursor the renamed cursor. */
  lemma RenamedPage(f: string -> string, keys: set<string>, cursor: string, cursor': string)
    requires KeepsOrder(f, WithCursor(keys, cursor)) && SameCursor(f, cursor, cursor')
    ensures var p, p' := PageAt(keys, cursor), PageAt(RenameSet(f, keys), cursor');
            && p'.keys == RenameKeys(f, p.keys) && (p.next == "" <==> p'.next == "") && SameCursor(f, p.next, p'.next)
            && (p.next != "" ==> p.next in keys && p.next != cursor && p'.next != cursor')
  {
    hide Less, Ordered, QueryRows, KeepsOrder, RenameSet, Beyond;
    var keys' := RenameSet(f, keys);
    RenamedScan(f, keys, cursor, cursor');
    PageIsPrefix(true, keys, EXPORT_PAGE, cursor);
    PageIsPrefix(true, keys', EXPORT_PAGE, cursor');
    NextMovesOn(true, keys, EXPORT_PAGE, cursor);
    NextMovesOn(true, keys', EXPORT_PAGE, cursor');
    InScanInTable(keys, cursor);
    if |Scan(true, keys, cursor)| > EXPORT_PAGE {
      PageEndNotEmpty(true, keys, EXPORT_PAGE, cursor);
      PageEndNotEmpty(true, keys', EXPORT_PAGE, cursor');
    }
  }

  // -------------------------------------------------- sources alike to a reader

  /** The renaming keeps the order of all keys the source ever holds. */
  ghost predicate KeepsSource(src: Source, f: string -> string) {
    forall p: nat, q: nat, a, b :: src.Has(p, a) && src.Has(q, b) ==> (Less(f(a), f(b)) <==> Less(a, b))
  }

  ghost predicate SameKeys(src: Source, src': Source, f: string -> string, p: nat) {
    && (src.snaps(p).Some? <==> src'.snaps(p).Some?)
    && (src.snaps(p).Some? ==> src'.snaps(p).value.Keys == RenameSet(f, src.snaps(p).value.Keys))
  }

  ghost predicate SameRows(src: Source, src': Source, f: string -> string, p: nat, schema: seq<Rbac.ColumnDef>) {
    forall k :: src.Has(p, k) ==>
                  src'.Has(p, f(k)) && SameUnmasked(schema, src.snaps(p).value[k], src'.snaps(p).value[f(k)])
  }

  /** The same keys up to renaming, and rows that differ only in columns masked by the schema each page fetches. */
  ghost predicate SameToReader(src: Source, src': Source, f: string -> string) {
    KeepsSource(src, f) && forall p: nat ::
      src.schemas(p) == src'.schemas(p) && SameKeys(src, src', f, p) && SameRows(src, src', f, p, src.schemas(p))
  }

  /** The same with the schema declared for the table. */
  ghost predicate SameButMasked(src: Source, src': Source, f: string -> string) {
    KeepsSource(src, f) && forall p: nat ::
      && src.declared(p) == src'.declared(p) && src.fetched(p) == src'.fetched(p)
      && SameKeys(src, src', f, p) && SameRows(src, src', f, p, src.declared(p))
  }

  ghost function RenamePlan(f: string -> string, plan: Option<seq<Item>>): Option<seq<Item>> {
    if plan.None? then None else Some(RenameItems(f, plan.value))
  }

  lemma KeepsHere(src: Source, f: string -> string, page: nat, cursor: string, at: nat)
    requires KeepsSource(src, f) && src.snaps(page).Some? && (cursor != "" ==> src.Has(at, cursor))
    ensures KeepsOrder(f, WithCursor(src.snaps(page).value.Keys, cursor))
  {
    hide Less;
    var keys := WithCursor(src.snaps(page).value.Keys, cursor);
    forall a, b | a in keys && b in keys ensures Less(f(a), f(b)) <==> Less(a, b) {
      assert src.Has(if a == cursor && cursor != "" then at else page, a);
      assert src.Has(if b == cursor && cursor != "" then at else page, b);
    }
  }

  /** Which rows are exported does not depend on more than the order of the keys. */
  lemma {:induction false} SamePlan(src: Source, src': Source, f: string -> string, limit: nat, page: nat,
                                    cursor: string, cursor': string, done: nat, at: nat)
    requires KeepsSource(src, f) && forall p: nat :: SameKeys(src, src', f, p)
    requires SameCursor(f, cursor, cursor') && (cursor != "" ==> src.Has(at, cursor))
    ensures PlanFrom(src', limit, page, cursor', done) == RenamePlan(f, PlanFrom(src, limit, page, cursor, done))
    decreases limit - done
  {
    hide PageAt, KeepsSource, KeepsOrder, RenameSet;
    assert SameKeys(src, src', f, page);
    if done < limit && src.snaps(page).Some? {
      var keys := src.snaps(page).value.Keys;
      var p, p' := PageAt(keys, cursor), PageAt(RenameSet(f, keys), cursor');
      KeepsHere(src, f, page, cursor, at);
      RenamedPage(f, keys, cursor, cursor');
      var n := if |p.keys| <= limit - done then |p.keys| else limit - done;
      assert ItemsOf(page, p'.keys[..n]) == RenameItems(f, ItemsOf(page, p.keys[..n]));
      if p.next != "" {
        SamePlan(src, src', f, limit, page + 1, p.next, p'.next, done + n, page);
        var here, rest := ItemsOf(page, p.keys[..n]), PlanFrom(src, limit, page + 1, p.next, done + n);
        if rest.Some? {
          assert RenameItems(f, here + rest.value) == RenameItems(f, here) + RenameItems(f, rest.value);
        }
      }
    }
  }

  /**
    Non-interference of the whole export: whatever the tables do between pages, a
    reader below maintainer gets the same rows from two sources that differ only in
    columns masked by the fetched schemas.
   */
  lemma ExportHidesMaskedColumns(src: Source, src': Source, f: string -> string, role: Rbac.Role, limit: nat,
                                 items: seq<Item>, items': seq<Item>, rows: seq<Rbac.Row>, rows': seq<Rbac.Row>)
    requires Reader(role) && SameToReader(src, src', f)
    requires Plan(src, limit) == Some(items) && Renders(src, role, items, rows)
    requires Plan(src', limit) == Some(items') && Renders(src', role, items', rows')
    ensures items' == RenameItems(f, items) && rows == rows'
  {
    hide PlanFrom, SameUnmasked, KeepsSource, SameKeys, Reader;
    SamePlan(src, src', f, limit, 0, "", "", 0, 0);
    forall i | 0 <= i < |items| ensures rows[i] == rows'[i] {
      var p, k := items[i].page, items[i].key;
      assert RowOf(src, role, items[i], rows[i]) && RowOf(src', role, items'[i], rows'[i]);
      assert SameRows(src, src', f, p, src.schemas(p));
      UnmaskedServed(role, src.schemas(p), src.snaps(p).value[k], src'.snaps(p).value[f(k)]);
    }
  }

  /** Two exports of such sources cannot be told apart: the same rows or the same failure. */
  method ExportTwice(src: Source, src': Source, ghost f: string -> string, role: Rbac.Role, limit: nat)
    returns (a: Option<seq<Rbac.Row>>, b: Option<seq<Rbac.Row>>)
    requires Reader(role) && SameToReader(src, src', f)
    ensures a == b
  {
    hide PlanFrom, Increasing, GapFree, NothingAfter, RowOf, KeepsSource, SameKeys, SameRows, Reader;
    var n, m;
    ghost var items, items';
    a, n, items := Export(src, role, limit);
    b, m, items' := Export(src', role, limit);
    SamePlan(src, src', f, limit, 0, "", "", 0, 0);
    if a.Some? && b.Some? {
      ExportHidesMaskedColumns(src, src', f, role, limit, items, items', a.value, b.value);
    }
  }

  // ------------------------------------------- against the schema of the table

  /** The row exported for an item; by Export's contract it is there. */
  ghost function RowAt(src: Source, role: Rbac.Role, item: Item): Rbac.Row {
    if src.Has(item.page, item.key)
    then Rbac.Served(role, src.schemas(item.page), src.snaps(item.page).value[item.key])
    else map[]
  }

  ghost function Exported(src: Source, role: Rbac.Role, items: seq<Item>): (rows: seq<Rbac.Row>)
    ensures |rows| == |items| && forall i :: 0 <= i < |items| ==> rows[i] == RowAt(src, role, items[i])
  {
    seq(|items|, i requires 0 <= i < |items| => RowAt(src, role, items[i]))
  }

  ghost function ExportOf(src: Source, role: Rbac.Role, limit: nat): Option<seq<Rbac.Row>> {
    var plan := Plan(src, limit);
    if plan.None? then None else Some(Exported(src, role, plan.value))
  }

  /**
    What every role gets: each exported row is the stored one, except that viewers and
    editors find "***" in the columns that the schema of the row's page masks.
   */
  lemma ExportByRole(src: Source, role: Rbac.Role, limit: nat, i: nat)
    requires Plan(src, limit).Some? && i < |Plan(src, limit).value|
    ensures var item := Plan(src, limit).value[i];
            && src.Has(item.page, item.key) && ExportOf(src, role, limit).Some?
            && |ExportOf(src, role, limit).value| == |Plan(src, limit).value|
            && var row, out := src.snaps(item.page).value[item.key], ExportOf(src, role, limit).value[i];
            if role != "viewer" && role != "editor" then out == row
            else out.Keys == row.Keys && forall k :: k in row ==>
                   if exists c :: c in src.schemas(item.page) && c.name == k && c.mask
                   then out[k] == Rbac.Str("***") else out[k] == row[k]
  {
    hide PlanFrom, Rbac.Served;
    PlanIsThere(src, limit, 0, "", 0);
    var item := Plan(src, limit).value[i];
    Rbac.ServedByRole(role, src.schemas(item.page), src.snaps(item.page).value[item.key]);
  }

  lemma {:induction false} PlanIsThere(src: Source, limit: nat, page: nat, cursor: string, done: nat)
    ensures var plan := PlanFrom(src, limit, page, cursor, done);
            plan.Some? ==> forall i :: 0 <= i < |plan.value| ==> src.Has(plan.value[i].page, plan.value[i].key)
    decreases limit - done
  {
    hide QueryRows, Less;
    if done < limit && src.snaps(page).Some? {
      var keys := src.snaps(page).value.Keys;
      var p := PageAt(keys, cursor);
      PageInTable(keys, EXPORT_PAGE, cursor);
      var n := if |p.keys| <= limit - done then |p.keys| else limit - done;
      if p.next != "" && cursor != p.next { PlanIsThere(src, limit, page + 1, p.next, done + n); }
    }
  }

  /** The export method returns just this. */
  method ExportIs(src: Source, role: Rbac.Role, limit: nat) returns (rows: Option<seq<Rbac.Row>>)
    ensures rows == ExportOf(src, role, limit)
  {
    hide PlanFrom, Increasing, GapFree, NothingAfter;
    var n;
    ghost var items;
    rows, n, items := Export(src, role, limit);
    if rows.Some? {
      forall i | 0 <= i < |items| ensures rows.value[i] == RowAt(src, role, items[i]) {
        assert RowOf(src, role, items[i], rows.value[i]);
      }
      assert rows.value == Exported(src, role, items);
    }
  }

  /** The item's row has no column the declared schema masks, or the schema was fetched with its page. */
  ghost predicate Covered(src: Source, item: Item) {
    src.fetched(item.page) ||
    (src.Has(item.page, item.key) ==> !HasMasked(src.declared(item.page), src.snaps(item.page).value[item.key]))
  }

  ghost predicate AllCovered(src: Source, plan: Option<seq<Item>>) {
    plan.Some? ==> forall i :: 0 <= i < |plan.value| ==> Covered(src, plan.value[i])
  }

  lemma CoveredServed(src: Source, src': Source, f: string -> string, role: Rbac.Role, item: Item)
    requires Reader(role) && SameButMasked(src, src', f) && Covered(src, item) && src.Has(item.page, item.key)
    ensures RowAt(src', role, Item(item.page, f(item.key))) == RowAt(src, role, item)
  {
    hide KeepsSource, SameKeys, Reader, Rbac.Masked;
    var p, k := item.page, item.key;
    assert SameRows(src, src', f, p, src.declared(p));
    var row, row' := src.snaps(p).value[k], src'.snaps(p).value[f(k)];
    if src.fetched(p) {
      UnmaskedServed(role, src.declared(p), row, row');
    } else {
      assert row == row';
    }
  }

  // a source that differs from this one in one masked field

  ghost function AlteredSource(src: Source, p: nat, k: string, c: string): Source
    requires src.Has(p, k) && c in src.snaps(p).value[k]
  {
    var t := src.snaps(p).value;
    src.(snaps := (q: nat) => if q == p then Some(t[k := Altered(t[k], c)]) else src.snaps(q))
  }

  lemma AlteredIsSame(src: Source, p: nat, k: string, c: string)
    requires src.Has(p, k) && c in src.snaps(p).value[k] && Rbac.Masked(src.declared(p), c)
    ensures SameButMasked(src, AlteredSource(src, p, k, c), x => x)
  {
    hide Rbac.Masked;
    var f: string -> string, src' := x => x, AlteredSource(src, p, k, c);
    forall q: nat ensures SameKeys(src, src', f, q) && SameRows(src, src', f, q, src.declared(q)) {
      if src.snaps(q).Some? {
        assert RenameSet(f, src.snaps(q).value.Keys) == src.snaps(q).value.Keys;
        assert src'.snaps(q).value.Keys == src.snaps(q).value.Keys;
      }
    }
  }

  lemma CoveredExport(src: Source, src': Source, f: string -> string, role: Rbac.Role, limit: nat)
    requires Reader(role) && SameButMasked(src, src', f) && AllCovered(src, Plan(src, limit))
    ensures ExportOf(src', role, limit) == ExportOf(src, role, limit)
  {
    hide PlanFrom, KeepsSource, SameKeys, SameRows, Reader, Covered, RowAt;
    SamePlan(src, src', f, limit, 0, "", "", 0, 0);
    PlanIsThere(src, limit, 0, "", 0);
    if Plan(src, limit).Some? {
      var items, items' := Plan(src, limit).value, Plan(src', limit).value;
      forall i | 0 <= i < |items| ensures RowAt(src', role, items'[i]) == RowAt(src, role, items[i]) {
        CoveredServed(src, src', f, role, items[i]);
      }
      assert Exported(src', role, items') == Exported(src, role, items);
    }
  }

  /** An exported row with a masked column and no schema: another value in that column shows. */
  lemma UncoveredShows(src: Source, role: Rbac.Role, limit: nat) returns (src': Source)
    requires Reader(role) && !AllCovered(src, Plan(src, limit))
    ensures SameButMasked(src, src', x => x) && ExportOf(src', role, limit) != ExportOf(src, role, limit)
  {
    hide PlanFrom, KeepsSource, SameKeys, SameRows, Reader, Rbac.Masked, Rbac.Served;
    var items := Plan(src, limit).value;
    var i :| 0 <= i < |items| && !Covered(src, items[i]);
    var p, k := items[i].page, items[i].key;
    var row := src.snaps(p).value[k];
    var c :| c in row && Rbac.Masked(src.declared(p), c);
    src' := AlteredSource(src, p, k, c);
    var f: string -> string := x => x;
    AlteredIsSame(src, p, k, c);
    SamePlan(src, src', f, limit, 0, "", "", 0, 0);
    assert RenameItems(f, items) == items;
    UnmaskedShows(role, row, c);
    assert RowAt(src', role, items[i]) != RowAt(src, role, items[i]);
    assert Exported(src', role, items)[i] != Exported(src, role, items)[i];
  }

  /**
    Exactly when an export is blind to the columns its table declares masked: every
    source that differs from this one only in them is exported alike if and only if
    each page with such a column in an exported row got hold of the schema.
   */
  lemma ExportBlindExactly(src: Source, role: Rbac.Role, limit: nat)
    requires Reader(role)
    ensures (forall src': Source, f: string -> string ::
               SameButMasked(src, src', f) ==> ExportOf(src', role, limit) == ExportOf(src, role, limit))
            <==> AllCovered(src, Plan(src, limit))
  {
    hide *;
    if AllCovered(src, Plan(src, limit)) {
      forall src': Source, f: string -> string | SameButMasked(src, src', f)
        ensures ExportOf(src', role, limit) == ExportOf(src, role, limit)
      {
        CoveredExport(src, src', f, role, limit);
      }
    } else {
      var src' := UncoveredShows(src, role, limit);
      var f: string -> string := x => x;
      assert SameButMasked(src, src', f);
    }
  }
}
