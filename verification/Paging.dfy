/**
  Cursor paging and export (Manager.QueryRows in internal/db/db.go and the export
  loop of internal/httpx/db_handlers.go).

  A table is a map from its string primary key to the row.  Export is proved over
  a table that may be a different one at every page it reads.
 */
module Paging {
  import opened Options
  import opened Strings
  import Rbac

  type Table = map<string, Rbac.Row>

  // --------------------------------------------------------- the primary index

  /** Key order in the direction of the scan. */
  predicate Precedes(asc: bool, a: string, b: string) {
    if asc then Less(a, b) else Less(b, a)
  }

  lemma PrecedesTransitive(asc: bool, a: string, b: string, c: string)
    requires Precedes(asc, a, b) && Precedes(asc, b, c)
    ensures Precedes(asc, a, c)
  {
    if asc { LessTransitive(a, b, c); } else { LessTransitive(c, b, a); }
  }

  lemma PrecedesStrict(asc: bool, a: string, b: string)
    ensures !Precedes(asc, a, a)
    ensures Precedes(asc, a, b) ==> a != b && !Precedes(asc, b, a)
    ensures Precedes(asc, a, b) || a == b || Precedes(asc, b, a)
  {
    LessIrreflexive(a);
    LessTotal(a, b);
    if Less(a, b) && Less(b, a) { LessTransitive(a, b, a); }
  }

  /** The empty key is the least one. */
  lemma EmptyIsLeast(k: string)
    ensures !Precedes(true, k, "")
  {}

  ghost predicate Sorted(asc: bool, s: seq<string>) {
    forall i, j :: 0 <= i < j < |s| ==> Precedes(asc, s[i], s[j])
  }

  predicate IsFirst(asc: bool, m: string, keys: set<string>) {
    m in keys && forall k :: k in keys ==> k == m || Precedes(asc, m, k)
  }

  lemma {:induction false} FirstExists(asc: bool, keys: set<string>)
    requires keys != {}
    ensures exists m :: IsFirst(asc, m, keys)
    decreases |keys|
  {
    hide Precedes;
    var x :| x in keys;
    if keys == {x} {
      assert IsFirst(asc, x, keys);
    } else {
      var rest := keys - {x};
      FirstExists(asc, rest);
      var m :| IsFirst(asc, m, rest);
      PrecedesStrict(asc, x, m);
      if Precedes(asc, x, m) {
        forall k | k in rest && k != m ensures Precedes(asc, x, k) { PrecedesTransitive(asc, x, m, k); }
        assert IsFirst(asc, x, keys);
      } else {
        assert IsFirst(asc, m, keys);
      }
    }
  }

  lemma FirstUnique(asc: bool, keys: set<string>)
    ensures forall m, n :: IsFirst(asc, m, keys) && IsFirst(asc, n, keys) ==> m == n
  {
    hide Precedes;
    forall m, n | IsFirst(asc, m, keys) && IsFirst(asc, n, keys) ensures m == n {
      PrecedesStrict(asc, m, n);
    }
  }

  function First(asc: bool, keys: set<string>): (m: string)
    requires keys != {}
    ensures IsFirst(asc, m, keys)
  {
    FirstExists(asc, keys);
    FirstUnique(asc, keys);
    var m :| IsFirst(asc, m, keys);
    m
  }

  /** The keys in index order. */
  function Ordered(asc: bool, keys: set<string>): (s: seq<string>)
    ensures Sorted(asc, s)
    ensures forall k :: k in s <==> k in keys
    ensures |s| == |keys|
    decreases |keys|
  {
    if keys == {} then []
    else
      var m := First(asc, keys);
      var rest := Ordered(asc, keys - {m});
      assert |keys - {m}| == |keys| - 1;
      PrependFirst(asc, m, rest);
      [m] + rest
  }

  lemma PrependFirst(asc: bool, m: string, rest: seq<string>)
    requires Sorted(asc, rest) && forall k :: k in rest ==> Precedes(asc, m, k)
    ensures Sorted(asc, [m] + rest)
  {
    hide Precedes;
  }

  lemma SortedIndex(asc: bool, s: seq<string>, i: nat, j: nat)
    requires Sorted(asc, s) && i < |s| && j < |s|
    ensures Precedes(asc, s[i], s[j]) <==> i < j
    ensures s[i] == s[j] <==> i == j
  {
    hide Precedes;
    PrecedesStrict(asc, s[i], s[j]);
  }

  /** The keys after position i are those that follow the key there. */
  lemma SortedTail(asc: bool, s: seq<string>, i: nat, k: string)
    requires Sorted(asc, s) && i < |s|
    ensures k in s[i + 1..] <==> k in s && Precedes(asc, s[i], k)
  {
    hide Precedes;
    if k in s[i + 1..] {
      var j :| 0 <= j < |s| - i - 1 && s[i + 1..][j] == k;
      assert s[i + 1 + j] == k;
    }
    if k in s && Precedes(asc, s[i], k) {
      var j :| 0 <= j < |s| && s[j] == k;
      SortedIndex(asc, s, i, j);
      assert s[i + 1..][j - i - 1] == k;
    }
  }

  /** Two sorted sequences over the same keys are equal. */
  lemma {:induction false} SortedUnique(asc: bool, a: seq<string>, b: seq<string>)
    requires Sorted(asc, a) && Sorted(asc, b)
    requires forall k :: k in a <==> k in b
    ensures a == b
  {
    hide Precedes;
    assert (a != [] ==> a[0] in b) && (b != [] ==> b[0] in a);
    if a != [] {
      var i :| 0 <= i < |b| && b[i] == a[0];
      var j :| 0 <= j < |a| && a[j] == b[0];
      PrecedesStrict(asc, a[0], b[0]);
      forall k ensures k in a[1..] <==> k in b[1..] {
        SortedTail(asc, a, 0, k);
        SortedTail(asc, b, 0, k);
      }
      SortedUnique(asc, a[1..], b[1..]);
    }
  }

  function Reverse(s: seq<string>): (r: seq<string>)
    ensures |r| == |s|
    ensures forall i :: 0 <= i < |s| ==> r[i] == s[|s| - 1 - i]
  {
    seq(|s|, i requires 0 <= i < |s| => s[|s| - 1 - i])
  }

  lemma ReverseFacts(s: seq<string>)
    requires Sorted(true, s)
    ensures Sorted(false, Reverse(s))
    ensures forall k :: k in Reverse(s) <==> k in s
  {
    hide Less;
    var d := Reverse(s);
    forall i, j | 0 <= i < j < |d| ensures Precedes(false, d[i], d[j]) {
      assert Precedes(true, s[|s| - 1 - j], s[|s| - 1 - i]);
    }
    forall k | k in s ensures k in d {
      var i :| 0 <= i < |s| && s[i] == k;
      assert d[|s| - 1 - i] == k;
    }
  }

  /** The descending order is the ascending one backwards. */
  lemma DescendingIsReverse(keys: set<string>)
    ensures Ordered(false, keys) == Reverse(Ordered(true, keys))
  {
    hide Precedes, Ordered;
    ReverseFacts(Ordered(true, keys));
    SortedUnique(false, Ordered(false, keys), Reverse(Ordered(true, keys)));
  }

  // ------------------------------------------------------------------ one page

  /** The keys strictly beyond a cursor; the empty cursor is before every key. */
  function Beyond(asc: bool, keys: set<string>, cursor: string): set<string> {
    if cursor == "" then keys else set k | k in keys && Precedes(asc, cursor, k)
  }

  /** Between (open at the cursor) followed by OrderBy. */
  function Scan(asc: bool, keys: set<string>, cursor: string): seq<string> {
    Ordered(asc, Beyond(asc, keys, cursor))
  }

  datatype Page = Page(keys: seq<string>, next: string)

  function PageLimit(limit: int): (n: nat)
    ensures n >= 1
  {
    if limit <= 0 then 50 else limit
  }

  /** QueryRows: read limit + 1 keys; the extra one only tells that there are more. */
  function QueryRows(asc: bool, keys: set<string>, limit: int, cursor: string): Page {
    var n := PageLimit(limit);
    var all := Scan(asc, keys, cursor);
    var list := if |all| <= n + 1 then all else all[..n + 1];
    if |list| > n then Page(list[..n], list[n - 1]) else Page(list, "")
  }

  /** What a scan returns: the keys beyond the cursor in dictionary order, or in its reverse. */
  lemma ScanExactly(asc: bool, keys: set<string>, cursor: string)
    ensures forall k :: k in Scan(asc, keys, cursor) <==>
              k in keys && (cursor == "" || (if asc then Below(cursor, k) else Below(k, cursor)))
    ensures forall i, j :: 0 <= i < j < |Scan(asc, keys, cursor)| ==>
              var a, b := Scan(asc, keys, cursor)[i], Scan(asc, keys, cursor)[j];
              if asc then Below(a, b) else Below(b, a)
  {
    hide Below, Less, Ordered;
    var s := Scan(asc, keys, cursor);
    forall k ensures k in s <==> k in keys && (cursor == "" || (if asc then Below(cursor, k) else Below(k, cursor))) {
      LessExactly(cursor, k);
      LessExactly(k, cursor);
    }
    forall i, j | 0 <= i < j < |s| ensures if asc then Below(s[i], s[j]) else Below(s[j], s[i]) {
      assert Precedes(asc, s[i], s[j]);
      LessExactly(s[i], s[j]);
      LessExactly(s[j], s[i]);
    }
  }

  /** A page is the first n keys of the scan, and next is its last key when keys remain. */
  lemma PageIsPrefix(asc: bool, keys: set<string>, limit: int, cursor: string)
    ensures PageLimit(limit) == if limit <= 0 then 50 else limit
    ensures var n, all := PageLimit(limit), Scan(asc, keys, cursor);
            QueryRows(asc, keys, limit, cursor) == if |all| > n then Page(all[..n], all[n - 1]) else Page(all, "")
  {
    hide Precedes, Ordered;
    var n, all := PageLimit(limit), Scan(asc, keys, cursor);
    if |all| > n + 1 {
      assert all[..n + 1][..n] == all[..n];
    }
  }

  lemma InScanInTable(keys: set<string>, cursor: string)
    ensures forall i :: 0 <= i < |Scan(true, keys, cursor)| ==> Scan(true, keys, cursor)[i] in keys
  {
    hide Less, Ordered;
    var s := Scan(true, keys, cursor);
    assert forall i :: 0 <= i < |s| ==> s[i] in s;
  }

  lemma PageInTable(keys: set<string>, limit: int, cursor: string)
    ensures var p := QueryRows(true, keys, limit, cursor).keys; forall i :: 0 <= i < |p| ==> p[i] in keys
  {
    hide Precedes, Ordered, QueryRows;
    var all := Scan(true, keys, cursor);
    PageIsPrefix(true, keys, limit, cursor);
    assert forall i :: 0 <= i < |all| ==> all[i] in all;
  }

  /** The cursor handed out always moves on, so the loop's `cursor == next` guard never fires. */
  lemma NextMovesOn(asc: bool, keys: set<string>, limit: int, cursor: string)
    ensures var next := QueryRows(asc, keys, limit, cursor).next;
            next != "" ==>
              && next != cursor
              && next in Beyond(asc, keys, cursor)
              && Beyond(asc, keys, next) < Beyond(asc, keys, cursor)
  {
    hide Precedes, Ordered, QueryRows;
    PageIsPrefix(asc, keys, limit, cursor);
    var next := QueryRows(asc, keys, limit, cursor).next;
    if next != "" {
      assert next in Scan(asc, keys, cursor);
      PrecedesStrict(asc, next, next);
      if cursor != "" {
        forall k | k in Beyond(asc, keys, next) ensures k in Beyond(asc, keys, cursor) {
          PrecedesTransitive(asc, cursor, next, k);
        }
      }
    }
  }

  // --------------------------------------------- traversing an unchanging table

  lemma {:induction false} SubsetCard(a: set<string>, b: set<string>)
    requires a <= b
    ensures |a| <= |b|
    ensures a != b ==> |a| < |b|
  {
    if a != {} {
      var x :| x in a;
      SubsetCard(a - {x}, b - {x});
    }
  }

  /** The keys a client sees by following next cursors. */
  function Traverse(asc: bool, keys: set<string>, limit: int, cursor: string): seq<string>
    decreases |Beyond(asc, keys, cursor)|
  {
    var p := QueryRows(asc, keys, limit, cursor);
    if p.next == "" then p.keys
    else
      NextMovesOn(asc, keys, limit, cursor);
      SubsetCard(Beyond(asc, keys, p.next), Beyond(asc, keys, cursor));
      p.keys + Traverse(asc, keys, limit, p.next)
  }

  /** Scanning on from a key of the scan drops the keys up to it. */
  lemma ScanFrom(asc: bool, keys: set<string>, cursor: string, i: nat)
    requires i < |Scan(asc, keys, cursor)|
    requires Scan(asc, keys, cursor)[i] != ""
    ensures Scan(asc, keys, Scan(asc, keys, cursor)[i]) == Scan(asc, keys, cursor)[i + 1..]
  {
    hide Precedes, Ordered;
    var from := Scan(asc, keys, cursor);
    var at := from[i];
    var rest := Scan(asc, keys, at);
    assert at in from;
    forall k ensures k in from[i + 1..] <==> k in rest {
      SortedTail(asc, from, i, k);
      if cursor != "" && Precedes(asc, at, k) {
        PrecedesTransitive(asc, cursor, at, k);
      }
    }
    SortedUnique(asc, from[i + 1..], rest);
  }

  /** A page that ends on the empty key looks like the last page. */
  predicate StopsEarly(asc: bool, keys: set<string>, limit: int) {
    asc && PageLimit(limit) == 1 && "" in keys && |keys| > 1
  }

  /** Only a one-row first ascending page can end on the empty key with rows left. */
  lemma PageEndNotEmpty(asc: bool, keys: set<string>, limit: int, cursor: string)
    requires cursor != "" || !StopsEarly(asc, keys, limit)
    requires |Scan(asc, keys, cursor)| > PageLimit(limit)
    ensures Scan(asc, keys, cursor)[PageLimit(limit) - 1] != ""
  {
    hide Precedes, Ordered;
    var n, all := PageLimit(limit), Scan(asc, keys, cursor);
    var end := all[n - 1];
    assert end in all;
    EndFacts(asc, all, n);
    if cursor != "" { EmptyIsLeast(cursor); }
  }

  lemma EndFacts(asc: bool, all: seq<string>, n: nat)
    requires Sorted(asc, all) && 1 <= n < |all|
    ensures all[n - 1] == "" ==> asc && n == 1
  {
    assert Precedes(asc, all[n - 1], all[n]);
    if n > 1 { assert Precedes(asc, all[n - 2], all[n - 1]); }
  }

  lemma {:induction false} TraverseFollowsScan(asc: bool, keys: set<string>, limit: int, cursor: string)
    requires cursor != "" || !StopsEarly(asc, keys, limit)
    ensures Traverse(asc, keys, limit, cursor) == Scan(asc, keys, cursor)
    decreases |Beyond(asc, keys, cursor)|
  {
    hide Precedes, Ordered, QueryRows;
    PageIsPrefix(asc, keys, limit, cursor);
    var n, all := PageLimit(limit), Scan(asc, keys, cursor);
    if |all| > n {
      var next := all[n - 1];
      PageEndNotEmpty(asc, keys, limit, cursor);
      NextMovesOn(asc, keys, limit, cursor);
      SubsetCard(Beyond(asc, keys, next), Beyond(asc, keys, cursor));
      ScanFrom(asc, keys, cursor, n - 1);
      TraverseFollowsScan(asc, keys, limit, next);
      assert all == all[..n] + all[n..];
    }
  }

  /**
    Following next cursors from the start yields every key once, in key order
    (reversed when descending), for every page size, exactly when the traversal
    is not an ascending one-row paging of a table that also holds the empty key.
   */
  lemma TraversalComplete(keys: set<string>, limit: int)
    ensures Traverse(true, keys, limit, "") == Ordered(true, keys) <==> !StopsEarly(true, keys, limit)
    ensures Traverse(false, keys, limit, "") == Reverse(Ordered(true, keys))
  {
    hide Precedes, Ordered, QueryRows;
    TraverseFollowsScan(false, keys, limit, "");
    DescendingIsReverse(keys);
    if StopsEarly(true, keys, limit) {
      var s := Ordered(true, keys);
      assert "" in s;
      var i :| 0 <= i < |s| && s[i] == "";
      EmptyIsLeast(s[0]);
      PageIsPrefix(true, keys, limit, "");
      assert |Traverse(true, keys, limit, "")| == 1;
    } else {
      TraverseFollowsScan(true, keys, limit, "");
    }
  }

  // ---------------------------------------------------- export, changing table

  const EXPORT_PAGE := 200

  /** Where an exported row was read: the page number and its primary key. */
  datatype Item = Item(page: nat, key: string)

  /** The schema a handler masks with: an error of GetTables is ignored and leaves it empty. */
  function Fetched(declared: seq<Rbac.ColumnDef>, fetched: bool): seq<Rbac.ColumnDef> {
    if fetched then declared else []
  }

  /**
    One snapshot of the table per page read, None for a failed query; the schema
    declared for the table at that time, and whether GetTables finds it.
   */
  datatype Source = Source(snaps: nat -> Option<Table>, declared: nat -> seq<Rbac.ColumnDef>, fetched: nat -> bool) {
    function schemas(page: nat): seq<Rbac.ColumnDef> {
      Fetched(declared(page), fetched(page))
    }

    predicate Has(page: nat, key: string) {
      snaps(page).Some? && key in snaps(page).value
    }
  }

  /** The last exported key is before k. */
  ghost predicate After(items: seq<Item>, k: string) {
    items == [] || Less(items[|items| - 1].key, k)
  }

  ghost predicate Increasing(items: seq<Item>) {
    forall i, j :: 0 <= i < j < |items| ==> Less(items[i].key, items[j].key) && items[i].page <= items[j].page
  }

  /** Nothing between two consecutive exported keys was in the snapshot the later one came from. */
  ghost predicate GapFree(src: Source, items: seq<Item>) {
    forall i, k :: 0 <= i < |items| && After(items[..i], k) && Less(k, items[i].key) ==> !src.Has(items[i].page, k)
  }

  /** Nothing beyond the last exported key was in the given page's snapshot. */
  ghost predicate NothingAfter(src: Source, items: seq<Item>, page: nat) {
    forall k :: After(items, k) ==> !src.Has(page, k)
  }

  /** Every row is the row stored under its key in its page's snapshot, masked with that page's schema. */
  ghost predicate Renders(src: Source, role: Rbac.Role, items: seq<Item>, rows: seq<Rbac.Row>) {
    && |rows| == |items|
    && forall i :: 0 <= i < |items| ==> RowOf(src, role, items[i], rows[i])
  }

  ghost predicate RowOf(src: Source, role: Rbac.Role, item: Item, row: Rbac.Row) {
    && src.Has(item.page, item.key)
    && row == Rbac.Served(role, src.schemas(item.page), src.snaps(item.page).value[item.key])
  }

  /** What holds of everything exported from the first `pages` pages. */
  ghost predicate Sound(src: Source, role: Rbac.Role, pages: nat, items: seq<Item>, rows: seq<Rbac.Row>) {
    && (forall p :: 0 <= p < pages ==> src.snaps(p).Some?)
    && (forall i :: 0 <= i < |items| ==> items[i].page < pages)
    && Increasing(items)
    && GapFree(src, items)
    && Renders(src, role, items, rows)
  }

  /** The keys not yet copied from the current page are exactly what its snapshot holds after the copied ones. */
  ghost predicate Remaining(src: Source, items: seq<Item>, page: nat, rest: seq<string>, more: bool) {
    && (forall i, j :: 0 <= i < j < |rest| ==> Less(rest[i], rest[j]))
    && (forall i :: 0 <= i < |rest| ==> src.Has(page, rest[i]) && After(items, rest[i]))
    && (forall k :: src.Has(page, k) && After(items, k) ==>
          k in rest || (more && (rest == [] || Less(rest[|rest| - 1], k))))
  }

  /** A freshly read page, when the cursor stands on the last exported key. */
  lemma PageRead(src: Source, items: seq<Item>, page: nat, cursor: string)
    requires src.snaps(page).Some?
    requires cursor == if items == [] then "" else items[|items| - 1].key
    requires items != [] ==> cursor != ""
    ensures var p := QueryRows(true, src.snaps(page).value.Keys, EXPORT_PAGE, cursor);
            && Remaining(src, items, page, p.keys, p.next != "")
            && (forall i :: 0 <= i < |p.keys| ==> p.keys[i] in src.snaps(page).value)
            && (p.next != "" ==>
                  p.keys != [] && |p.keys| == EXPORT_PAGE && p.next == p.keys[|p.keys| - 1] && p.next != cursor)
  {
    hide Less, Ordered, QueryRows;
    var keys := src.snaps(page).value.Keys;
    var all := Scan(true, keys, cursor);
    PageIsPrefix(true, keys, EXPORT_PAGE, cursor);
    NextMovesOn(true, keys, EXPORT_PAGE, cursor);
    ScanMembers(src, items, page, cursor, all);
    if |all| > EXPORT_PAGE {
      PageEndNotEmpty(true, keys, EXPORT_PAGE, cursor);
      ScanPrefix(src, items, page, all, EXPORT_PAGE);
    }
  }

  lemma ScanMembers(src: Source, items: seq<Item>, page: nat, cursor: string, all: seq<string>)
    requires src.snaps(page).Some? && all == Scan(true, src.snaps(page).value.Keys, cursor)
    requires cursor == if items == [] then "" else items[|items| - 1].key
    requires items != [] ==> cursor != ""
    ensures Remaining(src, items, page, all, false)
  {
    hide Less, Ordered;
    assert forall i :: 0 <= i < |all| ==> all[i] in all;
    forall i, j | 0 <= i < j < |all| ensures Less(all[i], all[j]) {
      assert Precedes(true, all[i], all[j]);
    }
  }

  lemma ScanPrefix(src: Source, items: seq<Item>, page: nat, all: seq<string>, n: nat)
    requires Remaining(src, items, page, all, false) && 0 < n < |all|
    ensures Remaining(src, items, page, all[..n], true)
  {
    hide Less, After;
    forall k | src.Has(page, k) && After(items, k)
      ensures k in all[..n] || Less(all[n - 1], k)
    {
      var j :| 0 <= j < |all| && all[j] == k;
      if j < n { assert all[..n][j] == k; }
    }
  }

  /** The head of the remainder is the next key of the snapshot: nothing lies between. */
  lemma HeadIsNext(src: Source, items: seq<Item>, page: nat, rest: seq<string>, more: bool, k: string)
    requires rest != [] && Remaining(src, items, page, rest, more)
    requires src.Has(page, k) && After(items, k)
    ensures !Less(k, rest[0])
  {
    hide Less, After;
    LessAsymmetric(rest[0], k);
    if k in rest {
      var j :| 0 <= j < |rest| && rest[j] == k;
      if j > 0 { assert Less(rest[0], rest[j]); }
    } else if |rest| > 1 {
      LessTransitive(rest[0], rest[|rest| - 1], k);
    }
  }

  lemma LessAsymmetric(a: string, b: string)
    ensures !(Less(a, b) && Less(b, a)) && !Less(a, a)
  {
    if Less(a, b) && Less(b, a) { LessTransitive(a, b, a); }
    LessIrreflexive(a);
  }

  /** Copying the head of the remainder keeps the order and leaves no gap. */
  lemma CopyOneOrder(src: Source, items: seq<Item>, page: nat, rest: seq<string>, more: bool)
    requires rest != [] && Remaining(src, items, page, rest, more)
    requires Increasing(items) && GapFree(src, items)
    requires forall i :: 0 <= i < |items| ==> items[i].page <= page
    ensures Increasing(items + [Item(page, rest[0])]) && GapFree(src, items + [Item(page, rest[0])])
  {
    hide Less;
    var items' := items + [Item(page, rest[0])];
    var n := |items|;
    assert After(items, rest[0]);
    forall a | 0 <= a < n ensures Less(items[a].key, rest[0]) {
      if a < n - 1 { LessTransitive(items[a].key, items[n - 1].key, rest[0]); }
    }
    forall i, k | 0 <= i <= n && After(items'[..i], k) && Less(k, items'[i].key)
      ensures !src.Has(items'[i].page, k)
    {
      if i < n {
        assert items'[..i] == items[..i] && items'[i] == items[i];
      } else {
        assert items'[..n] == items;
        if src.Has(page, k) { HeadIsNext(src, items, page, rest, more, k); }
      }
    }
  }

  /** Copying the head of the remainder leaves the tail as the remainder. */
  lemma CopyOneRest(src: Source, items: seq<Item>, page: nat, rest: seq<string>, more: bool)
    requires rest != [] && Remaining(src, items, page, rest, more)
    ensures Remaining(src, items + [Item(page, rest[0])], page, rest[1..], more)
  {
    hide Less;
    var items' := items + [Item(page, rest[0])];
    forall k | src.Has(page, k) && After(items', k)
      ensures k in rest[1..] || (more && (rest[1..] == [] || Less(rest[|rest| - 1], k)))
    {
      assert Less(rest[0], k) && After(items, rest[0]);
      if items != [] { LessTransitive(items[|items| - 1].key, rest[0], k); }
      assert After(items, k);
      LessIrreflexive(k);
      assert rest == [rest[0]] + rest[1..];
    }
  }

  /** One turn of the inner loop. */
  lemma CopyOne(src: Source, role: Rbac.Role, page: nat,
                items: seq<Item>, rows: seq<Rbac.Row>, rest: seq<string>, more: bool)
    requires rest != [] && Remaining(src, items, page, rest, more) && src.Has(page, rest[0])
    requires Sound(src, role, page + 1, items, rows)
    ensures var row := Rbac.Served(role, src.schemas(page), src.snaps(page).value[rest[0]]);
            var items' := items + [Item(page, rest[0])];
            Sound(src, role, page + 1, items', rows + [row]) && Remaining(src, items', page, rest[1..], more)
  {
    hide Less, Increasing, GapFree, After, Remaining;
    CopyOneOrder(src, items, page, rest, more);
    CopyOneRest(src, items, page, rest, more);
  }

  lemma NothingExported(src: Source, role: Rbac.Role)
    ensures Sound(src, role, 0, [], []) && AtCursor([], "")
  {}

  lemma StartPage(src: Source, role: Rbac.Role, page: nat, items: seq<Item>, rows: seq<Rbac.Row>)
    requires Sound(src, role, page, items, rows) && src.snaps(page).Some?
    ensures |items| == |rows| && Sound(src, role, page + 1, items, rows)
  {
    hide Increasing, GapFree, RowOf;
  }

  lemma NothingRemains(src: Source, items: seq<Item>, page: nat, complete: bool)
    requires complete ==> Remaining(src, items, page, [], false)
    ensures complete ==> NothingAfter(src, items, page)
  {
    hide Less, After;
  }

  lemma RemainingHead(src: Source, items: seq<Item>, page: nat, rest: seq<string>, more: bool)
    requires rest != [] && Remaining(src, items, page, rest, more)
    ensures src.Has(page, rest[0]) && src.snaps(page).Some? && rest[0] in src.snaps(page).value
  {
    hide Less, After;
  }

  // ----------------------------------- which rows, as a function of the keys only

  function KeysAt(src: Source, page: nat): Option<set<string>> {
    if src.snaps(page).Some? then Some(src.snaps(page).value.Keys) else None
  }

  function ItemsOf(page: nat, keys: seq<string>): (r: seq<Item>)
    ensures |r| == |keys|
    ensures forall i :: 0 <= i < |keys| ==> r[i] == Item(page, keys[i])
  {
    seq(|keys|, i requires 0 <= i < |keys| => Item(page, keys[i]))
  }

  function PageAt(keys: set<string>, cursor: string): (p: Page)
    ensures p.next != "" ==> |p.keys| == EXPORT_PAGE
  {
    PageIsPrefix(true, keys, EXPORT_PAGE, cursor);
    QueryRows(true, keys, EXPORT_PAGE, cursor)
  }

  /** An export reads pages of 200 rows. */
  lemma ExportPageSize(keys: set<string>, cursor: string)
    ensures var p, all := PageAt(keys, cursor), Scan(true, keys, cursor);
            p.keys == if |all| > 200 then all[..200] else all
  {
    hide Less, Ordered;
    PageIsPrefix(true, keys, EXPORT_PAGE, cursor);
  }

  /** What is still to be exported from the given page and cursor on; None if a query fails first. */
  function PlanFrom(src: Source, limit: nat, page: nat, cursor: string, done: nat): Option<seq<Item>>
    decreases limit - done
  {
    if done >= limit then Some([])
    else if KeysAt(src, page).None? then None
    else
      var p := PageAt(KeysAt(src, page).value, cursor);
      var n := if |p.keys| <= limit - done then |p.keys| else limit - done;
      var here := ItemsOf(page, p.keys[..n]);
      if p.next == "" || cursor == p.next then Some(here)
      else
        var rest := PlanFrom(src, limit, page + 1, p.next, done + n);
        if rest.None? then None else Some(here + rest.value)
  }

  function Plan(src: Source, limit: nat): Option<seq<Item>> {
    PlanFrom(src, limit, 0, "", 0)
  }

  /** The plan is what has been exported, followed by what the plan from here on says. */
  ghost predicate OnPlan(src: Source, limit: nat, page: nat, cursor: string, items: seq<Item>) {
    var rest := PlanFrom(src, limit, page, cursor, |items|);
    Plan(src, limit) == if rest.None? then None else Some(items + rest.value)
  }

  lemma PlanStarts(src: Source, limit: nat)
    ensures OnPlan(src, limit, 0, "", [])
  {
    hide PlanFrom;
    var rest := PlanFrom(src, limit, 0, "", 0);
    if rest.Some? { assert [] + rest.value == rest.value; }
  }

  lemma PlanEnds(src: Source, limit: nat, page: nat, cursor: string, items: seq<Item>)
    requires OnPlan(src, limit, page, cursor, items)
    ensures |items| >= limit ==> Plan(src, limit) == Some(items)
    ensures |items| < limit && src.snaps(page).None? ==> Plan(src, limit).None?
  {
    if |items| >= limit { assert items + [] == items; }
  }

  /** One page further on the plan. */
  lemma PlanStep(src: Source, limit: nat, page: nat, cursor: string, items: seq<Item>, items': seq<Item>)
    requires OnPlan(src, limit, page, cursor, items) && |items| < limit && src.snaps(page).Some?
    requires var p := QueryRows(true, src.snaps(page).value.Keys, EXPORT_PAGE, cursor);
             var n := if |items| + |p.keys| <= limit then |p.keys| else limit - |items|;
             items' == items + ItemsOf(page, p.keys[..n])
    ensures var p := QueryRows(true, src.snaps(page).value.Keys, EXPORT_PAGE, cursor);
            if p.next == "" || cursor == p.next then Plan(src, limit) == Some(items')
            else OnPlan(src, limit, page + 1, p.next, items')
  {
    hide QueryRows, Plan;
    var p := QueryRows(true, src.snaps(page).value.Keys, EXPORT_PAGE, cursor);
    var n := if |items| + |p.keys| <= limit then |p.keys| else limit - |items|;
    var here := ItemsOf(page, p.keys[..n]);
    if p.next != "" && cursor != p.next {
      var rest := PlanFrom(src, limit, page + 1, p.next, |items| + n);
      if rest.Some? { assert items + (here + rest.value) == items' + rest.value; }
    }
  }

  /** The rows under the given keys as the role sees them. */
  function ServedRows(role: Rbac.Role, schema: seq<Rbac.ColumnDef>, table: Table, keys: seq<string>): (r: seq<Rbac.Row>)
    requires forall i :: 0 <= i < |keys| ==> keys[i] in table
    ensures |r| == |keys|
    ensures forall i :: 0 <= i < |keys| ==> r[i] == Rbac.Served(role, schema, table[keys[i]])
  {
    seq(|keys|, i requires 0 <= i < |keys| => Rbac.Served(role, schema, table[keys[i]]))
  }

  lemma OneMoreKey(role: Rbac.Role, schema: seq<Rbac.ColumnDef>, table: Table, page: nat, keys: seq<string>, i: nat)
    requires i < |keys| && forall j :: 0 <= j < |keys| ==> keys[j] in table
    ensures ItemsOf(page, keys[..i + 1]) == ItemsOf(page, keys[..i]) + [Item(page, keys[i])]
    ensures keys[i..][0] == keys[i] && keys[i..][1..] == keys[i + 1..]
    ensures ServedRows(role, schema, table, keys[..i + 1])
            == ServedRows(role, schema, table, keys[..i]) + [Rbac.Served(role, schema, table[keys[i]])]
  {
    hide Rbac.Served;
  }

  /** The inner loop: append the masked rows of a page until the limit is reached. */
  method CopyPage(src: Source, role: Rbac.Role, page: nat, schema: seq<Rbac.ColumnDef>, snap: Table,
                  keys: seq<string>, more: bool, accum: seq<Rbac.Row>, limit: nat, ghost items: seq<Item>)
    returns (accum': seq<Rbac.Row>, ghost items': seq<Item>)
    requires src.snaps(page) == Some(snap) && src.schemas(page) == schema
    requires |accum| < limit && Sound(src, role, page, items, accum)
    requires Remaining(src, items, page, keys, more)
    requires forall i :: 0 <= i < |keys| ==> keys[i] in snap
    ensures |accum'| == if |accum| + |keys| <= limit then |accum| + |keys| else limit
    ensures accum' == accum + ServedRows(role, schema, snap, keys[..|accum'| - |accum|])
    ensures |items'| == |accum'|
    ensures Sound(src, role, page + 1, items', accum')
    ensures |accum'| == |accum| + |keys| ==> Remaining(src, items', page, [], more)
    ensures |accum'| == |accum| + |keys| && keys != [] ==> items'[|items'| - 1].key == keys[|keys| - 1]
    ensures keys == [] ==> items' == items
    ensures items' == items + ItemsOf(page, keys[..|items'| - |items|])
  {
    hide *;
    accum', items' := accum, items;
    assert ItemsOf(page, keys[..0]) == [] && ServedRows(role, schema, snap, keys[..0]) == [];
    var i := 0;
    assert keys[0..] == keys;
    StartPage(src, role, page, items, accum);
    while i < |keys| && |accum'| < limit
      invariant 0 <= i <= |keys| && |accum'| == |items'| == |accum| + i <= limit
      invariant if i == 0 then items' == items else items'[|items'| - 1].key == keys[i - 1]
      invariant Sound(src, role, page + 1, items', accum')
      invariant Remaining(src, items', page, keys[i..], more)
      invariant accum' == accum + ServedRows(role, schema, snap, keys[..i])
      invariant |items| == |accum| && items' == items + ItemsOf(page, keys[..i])
    {
      OneMoreKey(role, schema, snap, page, keys, i);
      RemainingHead(src, items', page, keys[i..], more);
      CopyOne(src, role, page, items', accum', keys[i..], more);
      var row := Rbac.MaskRow(role, schema, snap[keys[i]]);
      accum' := accum' + [row];
      items' := items' + [Item(page, keys[i])];
      i := i + 1;
    }
    assert keys[|keys|..] == [];
  }

  /** The cursor stands on the last exported key. */
  ghost predicate AtCursor(items: seq<Item>, cursor: string) {
    cursor == (if items == [] then "" else items[|items| - 1].key) && (items != [] ==> cursor != "")
  }

  lemma CursorMoves(items: seq<Item>, next: string)
    requires items != [] && next != "" && items[|items| - 1].key == next
    ensures AtCursor(items, next)
  {}

  /** PageRead for a cursor in place. */
  lemma PageReadAt(src: Source, items: seq<Item>, page: nat, cursor: string)
    requires src.snaps(page).Some? && AtCursor(items, cursor)
    ensures var p := QueryRows(true, src.snaps(page).value.Keys, EXPORT_PAGE, cursor);
            && Remaining(src, items, page, p.keys, p.next != "")
            && (forall i :: 0 <= i < |p.keys| ==> p.keys[i] in src.snaps(page).value)
            && (p.next != "" ==>
                  p.keys != [] && |p.keys| == EXPORT_PAGE && p.next == p.keys[|p.keys| - 1] && p.next != cursor)
  {
    hide Remaining, QueryRows;
    PageRead(src, items, page, cursor);
  }

  /** One turn of the export loop: read a page at the cursor and copy it. */
  method ExportPage(src: Source, role: Rbac.Role, limit: nat, page: nat, cursor: string,
                    accum: seq<Rbac.Row>, ghost items: seq<Item>)
    returns (accum': seq<Rbac.Row>, next: string, ghost items': seq<Item>)
    requires src.snaps(page).Some? && |accum| == |items| < limit && Sound(src, role, page, items, accum)
    requires AtCursor(items, cursor) && OnPlan(src, limit, page, cursor, items)
    ensures |accum'| == |items'| <= limit && Sound(src, role, page + 1, items', accum')
    ensures next == QueryRows(true, src.snaps(page).value.Keys, EXPORT_PAGE, cursor).next
    ensures next == "" || cursor == next ==>
              Plan(src, limit) == Some(items') && (|accum'| < limit ==> NothingAfter(src, items', page))
    ensures next != "" && cursor != next ==>
              |accum| < |accum'| && OnPlan(src, limit, page + 1, next, items')
              && (|accum'| < limit ==> AtCursor(items', next))
  {
    hide *;
    var snap := src.snaps(page).value;
    var p := QueryRows(true, snap.Keys, EXPORT_PAGE, cursor);
    PageReadAt(src, items, page, cursor);
    accum', items' := CopyPage(src, role, page, src.schemas(page), snap, p.keys, p.next != "", accum, limit, items);
    PlanStep(src, limit, page, cursor, items, items');
    next := p.next;
    if next == "" {
      NothingRemains(src, items', page, |accum'| < limit);
    } else if |accum'| < limit {
      CursorMoves(items', next);
    }
  }

  /**
    The export loop.  Whatever the table does between pages: keys are strictly
    increasing (no row twice), no key present in a page's snapshot is skipped by
    that page, the row count stops at the limit, and the loop stops short of the
    limit only when the last snapshot holds nothing more.  Which rows are exported,
    and whether a query fails, depends on the key sets alone (Plan).
   */
  method Export(src: Source, role: Rbac.Role, limit: nat)
    returns (result: Option<seq<Rbac.Row>>, pages: nat, ghost items: seq<Item>)
    ensures result.None? ==> src.snaps(pages).None?
    ensures result.Some? ==> Sound(src, role, pages, items, result.value)
    ensures result.Some? ==> |result.value| <= limit
    ensures result.Some? && |result.value| < limit ==> pages > 0 && NothingAfter(src, items, pages - 1)
    ensures Plan(src, limit) == if result.Some? then Some(items) else None
  {
    hide *;
    var cursor, next := "", "";
    var accum: seq<Rbac.Row> := [];
    items, pages := [], 0;
    NothingExported(src, role);
    PlanStarts(src, limit);
    while |accum| < limit
      invariant |accum| == |items| <= limit
      invariant Sound(src, role, pages, items, accum)
      invariant |accum| < limit ==> AtCursor(items, cursor)
      invariant OnPlan(src, limit, pages, cursor, items)
      decreases limit - |accum|
    {
      PlanEnds(src, limit, pages, cursor, items);
      if src.snaps(pages).None? {
        return None, pages, items;
      }
      accum, next, items := ExportPage(src, role, limit, pages, cursor, accum, items);
      pages := pages + 1;
      if next == "" || cursor == next {
        return Some(accum), pages, items;
      }
      cursor := next;
    }
    PlanEnds(src, limit, pages, cursor, items);
    return Some(accum), pages, items;
  }

  // ------------------------------------------------- what the export guarantees

  lemma NotInGap(src: Source, items: seq<Item>, i: nat, k: string)
    requires GapFree(src, items) && i < |items| && src.Has(items[i].page, k) && After(items[..i], k)
    ensures !Less(k, items[i].key)
  {}

  lemma NotAfter(src: Source, items: seq<Item>, page: nat, k: string)
    requires NothingAfter(src, items, page) && src.Has(page, k)
    ensures !After(items, k)
  {}

  /** A key that every snapshot held is exported, whenever the export ran to the end. */
  lemma StableKeysAreExported(src: Source, items: seq<Item>, pages: nat, key: string)
    requires pages > 0
    requires forall i :: 0 <= i < |items| ==> items[i].page < pages
    requires GapFree(src, items) && NothingAfter(src, items, pages - 1)
    requires forall p :: 0 <= p < pages ==> src.Has(p, key)
    ensures exists i :: 0 <= i < |items| && items[i].key == key
  {
    hide Less;
    assert src.Has(pages - 1, key);
    NotAfter(src, items, pages - 1, key);
    assert items[..|items|] == items;
    var i := 0;
    while i < |items| && Less(items[i].key, key)
      invariant 0 <= i <= |items|
      invariant After(items[..i], key)
    {
      i := i + 1;
    }
    if i < |items| {
      assert src.Has(items[i].page, key);
      NotInGap(src, items, i, key);
      LessTotal(items[i].key, key);
    }
  }

  function Keys(items: seq<Item>): (r: seq<string>)
    ensures |r| == |items|
    ensures forall i :: 0 <= i < |items| ==> r[i] == items[i].key
  {
    seq(|items|, i requires 0 <= i < |items| => items[i].key)
  }

  /** One step of the comparison with the sorted table: the next exported key is the next sorted key. */
  lemma NextKeyIsNextSorted(src: Source, table: Table, items: seq<Item>, n: nat)
    requires n < |items| && src.snaps(items[n].page) == Some(table) && items[n].key in table
    requires Increasing(items) && GapFree(src, items)
    requires var s := Ordered(true, table.Keys); n <= |s| && forall i :: 0 <= i < n ==> items[i].key == s[i]
    ensures var s := Ordered(true, table.Keys); n < |s| && items[n].key == s[n]
  {
    hide Less, Ordered;
    var s, k := Ordered(true, table.Keys), items[n].key;
    assert k in s;
    var m :| 0 <= m < |s| && s[m] == k;
    if n > 0 {
      assert Less(items[n - 1].key, k);
      SortedIndex(true, s, n - 1, m);
    }
    assert n <= m < |s| && s[n] in s && src.Has(items[n].page, s[n]);
    if n > 0 { SortedIndex(true, s, n - 1, n); }
    NotInGap(src, items, n, s[n]);
    SortedIndex(true, s, n, m);
  }

  /** On an unchanging table the exported keys are exactly the first `limit` ones in key order. */
  lemma FixedTableKeys(src: Source, table: Table, items: seq<Item>, pages: nat, limit: nat)
    requires forall p :: 0 <= p < pages ==> src.snaps(p) == Some(table)
    requires forall i :: 0 <= i < |items| ==> items[i].page < pages && src.Has(items[i].page, items[i].key)
    requires Increasing(items) && GapFree(src, items) && |items| <= limit
    requires |items| < limit ==> pages > 0 && NothingAfter(src, items, pages - 1)
    ensures var s := Ordered(true, table.Keys);
            Keys(items) == if limit <= |s| then s[..limit] else s
  {
    hide Less, Ordered, After, GapFree, Increasing;
    var s := Ordered(true, table.Keys);
    for n := 0 to |items|
      invariant n <= |s|
      invariant forall i :: 0 <= i < n ==> items[i].key == s[i]
    {
      NextKeyIsNextSorted(src, table, items, n);
    }
    if |items| < limit && s != [] {
      var last := |s| - 1;
      assert s[last] in s;
      assert forall p :: 0 <= p < pages ==> src.Has(p, s[last]);
      StableKeysAreExported(src, items, pages, s[last]);
      var i :| 0 <= i < |items| && items[i].key == s[last];
      SortedIndex(true, s, i, last);
    }
  }

  function FirstKeys(table: Table, limit: nat): (r: seq<string>)
    ensures forall i :: 0 <= i < |r| ==> r[i] in table
  {
    var s := Ordered(true, table.Keys);
    assert forall i :: 0 <= i < |s| ==> s[i] in s;
    if limit <= |s| then s[..limit] else s
  }

  /** The first keys: as many as asked for or as there are, in dictionary order and before every other key. */
  lemma FirstKeysAre(table: Table, limit: nat)
    ensures var r := FirstKeys(table, limit);
            && |r| == (if limit <= |table| then limit else |table|)
            && (forall i, j :: 0 <= i < j < |r| ==> Below(r[i], r[j]))
            && (forall i, k :: 0 <= i < |r| && k in table && k !in r ==> Below(r[i], k))
  {
    hide Less, Below, Ordered;
    var s, r := Ordered(true, table.Keys), FirstKeys(table, limit);
    assert |table| == |table.Keys|;
    assert forall m :: 0 <= m < |r| ==> s[m] in r;
    forall i, j | 0 <= i < j < |s| ensures Below(s[i], s[j]) {
      assert Precedes(true, s[i], s[j]);
      LessExactly(s[i], s[j]);
    }
    forall i, k | 0 <= i < |r| && k in table && k !in r ensures Below(r[i], k) {
      assert k in s;
      var m :| 0 <= m < |s| && s[m] == k;
    }
  }

  /** On an unchanging table and schema the export is exactly the first `limit` rows in key order, masked. */
  lemma FixedTableExport(src: Source, role: Rbac.Role, schema: seq<Rbac.ColumnDef>, table: Table,
                         items: seq<Item>, rows: seq<Rbac.Row>, pages: nat, limit: nat)
    requires forall p :: 0 <= p < pages ==> src.snaps(p) == Some(table) && src.schemas(p) == schema
    requires Sound(src, role, pages, items, rows) && |rows| <= limit
    requires |rows| < limit ==> pages > 0 && NothingAfter(src, items, pages - 1)
    ensures rows == ServedRows(role, schema, table, FirstKeys(table, limit))
  {
    hide Less, Ordered, After, GapFree, Increasing;
    forall i | 0 <= i < |items|
      ensures src.Has(items[i].page, items[i].key)
    {
      assert RowOf(src, role, items[i], rows[i]);
    }
    FixedTableKeys(src, table, items, pages, limit);
    assert Keys(items) == FirstKeys(table, limit);
    forall i | 0 <= i < |rows| ensures rows[i] == Rbac.Served(role, schema, table[Keys(items)[i]]) {
      assert RowOf(src, role, items[i], rows[i]);
    }
  }

  /** Two rows with the same columns that differ in masked columns only. */
  ghost predicate SameUnmasked(schema: seq<Rbac.ColumnDef>, row: Rbac.Row, row': Rbac.Row) {
    row.Keys == row'.Keys && forall c :: c in row && !Rbac.Masked(schema, c) ==> row[c] == row'[c]
  }

  /** A role that may read rows and sees masked columns redacted. */
  predicate Reader(role: Rbac.Role) {
    Rbac.Allow(role, "row.read") && role != Rbac.ADMIN && role != Rbac.MAINTAINER
  }

  lemma UnmaskedServed(role: Rbac.Role, schema: seq<Rbac.ColumnDef>, row: Rbac.Row, row': Rbac.Row)
    requires Reader(role)
    requires SameUnmasked(schema, row, row')
    ensures Rbac.Served(role, schema, row) == Rbac.Served(role, schema, row')
  {
    Rbac.MaskingHidesMaskedColumns(role, schema, row, row');
  }

  ghost predicate HasMasked(schema: seq<Rbac.ColumnDef>, row: Rbac.Row) {
    exists c :: c in row && Rbac.Masked(schema, c)
  }

  // a row with another value in one column

  function Other(v: Rbac.Value): Rbac.Value {
    if v.Json? then Rbac.Json(v.code + 1) else Rbac.Json(0)
  }

  function Altered(row: Rbac.Row, c: string): Rbac.Row
    requires c in row
  {
    row[c := Other(row[c])]
  }

  lemma UnmaskedShows(role: Rbac.Role, row: Rbac.Row, c: string)
    requires Reader(role) && c in row
    ensures Rbac.Served(role, [], Altered(row, c)) != Rbac.Served(role, [], row)
  {
    Rbac.MaskingHidesMaskedColumns(role, [], row, Altered(row, c));
  }
}
