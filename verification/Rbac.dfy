/**
  Role bindings, role resolution and row masking (internal/httpx/rbac.go and the
  role lookup of internal/httpx/db_handlers.go).

  The store keeps, per scope, a list of bindings.  It is proved to behave, over
  every history of grants and revokes, like a map from (scope, principal) to
  binding, and masking is proved to hide masked columns completely.
 */
module Rbac {
  import opened Options
  import Strings

  // A model.Role is a string; the empty string means "no role".
  type Role = string

  const ADMIN: Role := "admin"
  const MAINTAINER: Role := "maintainer"
  const EDITOR: Role := "editor"
  const VIEWER: Role := "viewer"

  datatype Binding = Binding(principal: string, scope: string, role: Role)

  // ---------------------------------------------------------------- the lists

  /** The list after the loop of Grant: replace the principal's first entry or append. */
  function Upsert(l: seq<Binding>, b: Binding): (r: seq<Binding>)
    ensures r != []
  {
    if l == [] then [b]
    else if l[0].principal == b.principal then [b] + l[1..]
    else [l[0]] + Upsert(l[1..], b)
  }

  /** The entries of the other principals, in their order. */
  function Without(l: seq<Binding>, principal: string): (r: seq<Binding>)
    ensures |r| <= |l|
  {
    if l == [] then []
    else if l[0].principal == principal then Without(l[1..], principal)
    else [l[0]] + Without(l[1..], principal)
  }

  /** What a scan for the principal returns: its first entry. */
  function Find(l: seq<Binding>, principal: string): (r: Option<Binding>)
    ensures r.Some? ==> r.value in l && r.value.principal == principal
    ensures r.None? <==> forall i :: 0 <= i < |l| ==> l[i].principal != principal
  {
    if l == [] then None
    else if l[0].principal == principal then Some(l[0])
    else Find(l[1..], principal)
  }

  ghost predicate OnePerPrincipal(l: seq<Binding>) {
    forall i, j :: 0 <= i < j < |l| ==> l[i].principal != l[j].principal
  }

  lemma {:induction false} UpsertFacts(l: seq<Binding>, b: Binding)
    requires OnePerPrincipal(l)
    ensures OnePerPrincipal(Upsert(l, b))
    ensures forall x :: x in Upsert(l, b) ==> x == b || x in l
    ensures forall p :: Find(Upsert(l, b), p) == if p == b.principal then Some(b) else Find(l, p)
  {
    if l == [] {
      assert forall p :: Find([b], p) == if p == b.principal then Some(b) else None;
    } else if l[0].principal == b.principal {
      var r := [b] + l[1..];
      assert r[1..] == l[1..];
      assert forall i :: 0 < i < |r| ==> r[i] == l[i];
    } else {
      UpsertFacts(l[1..], b);
      var t := Upsert(l[1..], b);
      var r := [l[0]] + t;
      assert r[1..] == t;
      forall j | 0 <= j < |t|
        ensures t[j].principal != l[0].principal
      {
        assert t[j] in t;
      }
    }
  }

  lemma {:induction false} WithoutFacts(l: seq<Binding>, principal: string)
    requires OnePerPrincipal(l)
    ensures OnePerPrincipal(Without(l, principal))
    ensures forall x :: x in Without(l, principal) <==> x in l && x.principal != principal
    ensures forall p :: Find(Without(l, principal), p) == if p == principal then None else Find(l, p)
  {
    if l != [] {
      WithoutFacts(l[1..], principal);
      var t := Without(l[1..], principal);
      assert l == [l[0]] + l[1..];
      if l[0].principal != principal {
        var r := [l[0]] + t;
        assert r[1..] == t;
        assert forall x :: x in t ==> x in l[1..];
      }
    }
  }

  /** Without keeps the other principals' entries, each in its place; the prefix form matches a left-to-right scan. */
  lemma {:induction false} WithoutSnoc(l: seq<Binding>, b: Binding, principal: string)
    ensures Without([], principal) == []
    ensures Without(l + [b], principal)
         == Without(l, principal) + if b.principal == principal then [] else [b]
  {
    if l == [] {
      assert [] + [b] == [b];
      assert [b][1..] == [];
    } else {
      assert (l + [b])[1..] == l[1..] + [b];
      assert (l + [b])[0] == l[0];
      WithoutSnoc(l[1..], b, principal);
    }
  }

  // ---------------------------------------------------------------- the store

  type Bindings = map<string, seq<Binding>>

  ghost predicate Valid(m: Bindings) {
    forall s :: s in m ==>
      && m[s] != []
      && OnePerPrincipal(m[s])
      && (forall b :: b in m[s] ==> b.scope == s)
  }

  function ListAt(m: Bindings, scope: string): seq<Binding> {
    if scope in m then m[scope] else []
  }

  function Lookup(m: Bindings, scope: string, principal: string): Option<Binding> {
    Find(ListAt(m, scope), principal)
  }

  function Granted(m: Bindings, b: Binding): Bindings {
    m[b.scope := Upsert(ListAt(m, b.scope), b)]
  }

  function Revoked(m: Bindings, scope: string, principal: string): Bindings {
    var out := Without(ListAt(m, scope), principal);
    if out == [] then m - {scope} else m[scope := out]
  }

  /** RBACStore.RoleFor: a table binding wins over a database binding, whatever its role. */
  function RoleAt(m: Bindings, principal: string, tableID: string, dbID: string): Role {
    var t := if tableID != "" then Lookup(m, "table:" + tableID, principal) else None;
    if t.Some? then t.value.role
    else
      var d := if dbID != "" then Lookup(m, "db:" + dbID, principal) else None;
      if d.Some? then d.value.role else ""
  }

  class RBACStore {
    var bindings: Bindings

    constructor ()
      ensures bindings == map[]
    {
      bindings := map[];
    }

    method Grant(b: Binding)
      requires Valid(bindings)
      modifies this
      ensures Valid(bindings)
      ensures bindings == Granted(old(bindings), b)
    {
      var arr := ReplaceOrAppend(ListAt(bindings, b.scope), b);
      bindings := bindings[b.scope := arr];
      GrantKeepsValid(old(bindings), b);
    }

    method Revoke(scope: string, principal: string)
      requires Valid(bindings)
      modifies this
      ensures Valid(bindings)
      ensures bindings == Revoked(old(bindings), scope, principal)
    {
      var l := ListAt(bindings, scope);
      var backing := new Binding[|l|](i requires 0 <= i < |l| => l[i]);
      assert backing[..] == l;
      var n := CompactInPlace(backing, principal);
      if n == 0 {
        bindings := bindings - {scope};
      } else {
        bindings := bindings[scope := backing[..n]];
      }
      RevokeKeepsValid(old(bindings), scope, principal);
    }

    method RoleFor(principal: string, tableID: string, dbID: string) returns (role: Role)
      ensures role == RoleAt(bindings, principal, tableID, dbID)
    {
      if tableID != "" {
        var found, r := Scan(ListAt(bindings, "table:" + tableID), principal);
        if found {
          return r;
        }
      }
      if dbID != "" {
        var found, r := Scan(ListAt(bindings, "db:" + dbID), principal);
        if found {
          return r;
        }
      }
      return "";
    }
  }

  /** The loop of Grant. */
  method ReplaceOrAppend(l: seq<Binding>, b: Binding) returns (arr: seq<Binding>)
    ensures arr == Upsert(l, b)
    ensures (forall j :: 0 <= j < |l| ==> l[j].principal != b.principal) ==> arr == l + [b]
    ensures forall i ::
              && 0 <= i < |l| && l[i].principal == b.principal
              && (forall j :: 0 <= j < i ==> l[j].principal != b.principal)
              ==> arr == l[i := b]
  {
    hide Upsert;
    for i := 0 to |l|
      invariant forall j :: 0 <= j < i ==> l[j].principal != b.principal
    {
      if l[i].principal == b.principal {
        UpsertAt(l, b, i);
        return l[i := b];
      }
    }
    UpsertAt(l, b, |l|);
    return l + [b];
  }

  lemma {:induction false} UpsertAt(l: seq<Binding>, b: Binding, i: nat)
    requires i <= |l| && (forall j :: 0 <= j < i ==> l[j].principal != b.principal)
    requires i < |l| ==> l[i].principal == b.principal
    ensures Upsert(l, b) == if i < |l| then l[i := b] else l + [b]
  {
    if 0 < i {
      UpsertAt(l[1..], b, i - 1);
      if i < |l| { assert l[i := b] == [l[0]] + l[1..][i - 1 := b]; }
    } else if l != [] {
      assert l[0 := b] == [b] + l[1..];
    }
  }

  /**
    The compaction of Revoke: the kept entries are written over the front of the
    backing array that is still being read, at an index that never passes the
    reader, so every kept entry keeps its value and its order.
   */
  method CompactInPlace(arr: array<Binding>, principal: string) returns (n: nat)
    modifies arr
    ensures n <= arr.Length
    ensures arr[..n] == Without(old(arr[..]), principal)
  {
    n := 0;
    ghost var was := arr[..];
    assert was[..0] == [];
    for i := 0 to arr.Length
      invariant n <= i
      invariant arr[i..] == was[i..]
      invariant arr[..n] == Without(was[..i], principal)
    {
      var b := arr[i];
      assert b == arr[i..][0] == was[i];
      assert was[..i + 1] == was[..i] + [b];
      WithoutSnoc(was[..i], b, principal);
      if b.principal != principal {
        ghost var front := arr[..n];
        arr[n] := b;
        n := n + 1;
        assert arr[..n] == front + [b];
      }
      assert arr[i + 1..] == was[i..][1..];
    }
    assert was[..arr.Length] == was;
  }

  method Scan(l: seq<Binding>, principal: string) returns (found: bool, role: Role)
    ensures found <==> Find(l, principal).Some?
    ensures found ==> role == Find(l, principal).value.role
  {
    for i := 0 to |l|
      invariant Find(l, principal) == Find(l[i..], principal)
    {
      assert l[i..][1..] == l[i + 1..];
      if l[i].principal == principal {
        return true, l[i].role;
      }
    }
    return false, "";
  }

  // ------------------------------------------------- refinement over histories

  lemma GrantKeepsValid(m: Bindings, b: Binding)
    requires Valid(m)
    ensures Valid(Granted(m, b))
    ensures forall s, p :: Lookup(Granted(m, b), s, p)
              == if s == b.scope && p == b.principal then Some(b) else Lookup(m, s, p)
  {
    UpsertFacts(ListAt(m, b.scope), b);
  }

  lemma RevokeKeepsValid(m: Bindings, scope: string, principal: string)
    requires Valid(m)
    ensures Valid(Revoked(m, scope, principal))
    ensures forall s, p :: Lookup(Revoked(m, scope, principal), s, p)
              == if s == scope && p == principal then None else Lookup(m, s, p)
  {
    WithoutFacts(ListAt(m, scope), principal);
  }

  datatype Op = GrantOp(b: Binding) | RevokeOp(scope: string, principal: string)

  function Replay(ops: seq<Op>): Bindings {
    if ops == [] then map[]
    else
      var m := Replay(ops[..|ops| - 1]);
      match ops[|ops| - 1]
      case GrantOp(b) => Granted(m, b)
      case RevokeOp(s, p) => Revoked(m, s, p)
  }

  /** The reference: a plain map from (scope, principal) to the binding in force. */
  function Reference(ops: seq<Op>): map<(string, string), Binding> {
    if ops == [] then map[]
    else
      var m := Reference(ops[..|ops| - 1]);
      match ops[|ops| - 1]
      case GrantOp(b) => m[(b.scope, b.principal) := b]
      case RevokeOp(s, p) => m - {(s, p)}
  }

  function InReference(r: map<(string, string), Binding>, scope: string, principal: string): Option<Binding> {
    if (scope, principal) in r then Some(r[(scope, principal)]) else None
  }

  /** Over any history the store answers every lookup as the map does, and stays well formed. */
  lemma {:induction false} StoreRefinesMap(ops: seq<Op>)
    ensures Valid(Replay(ops))
    ensures forall s, p :: Lookup(Replay(ops), s, p) == InReference(Reference(ops), s, p)
  {
    if ops != [] {
      var init := ops[..|ops| - 1];
      StoreRefinesMap(init);
      match ops[|ops| - 1]
      case GrantOp(b) => GrantKeepsValid(Replay(init), b);
      case RevokeOp(s, p) => RevokeKeepsValid(Replay(init), s, p);
    }
  }

  // -------------------------------------------------------- role resolution

  /** DBAPI.roleFor: an absent principal is an admin; an empty role falls back to the organisation. */
  function ResolveRole(m: Bindings, org: string, principal: string, tableID: string, dbID: string): Role {
    if Strings.TrimSpace(principal) == "" then ADMIN
    else
      var r := RoleAt(m, principal, tableID, dbID);
      if r == "" then RoleAt(m, principal, "", org) else r
  }

  /** The binding the reference map holds for a scope; an empty name has no scope. */
  function At(r: map<(string, string), Binding>, kind: string, name: string, principal: string): Option<Binding> {
    if name == "" then None else InReference(r, kind + name, principal)
  }

  function RoleOf(b: Option<Binding>): Role {
    if b.Some? then b.value.role else ""
  }

  /**
    The lookup order in terms of the reference map: the first of table, database
    and organisation scope that holds a role, except that a table binding whose
    role is empty hides the database binding (it is returned before the database
    scope is read) and so leads straight to the organisation.
   */
  lemma ResolveIsTableThenDbThenOrg(ops: seq<Op>, org: string, principal: string, tableID: string, dbID: string)
    ensures var ref := Reference(ops);
            var t, d := At(ref, "table:", tableID, principal), At(ref, "db:", dbID, principal);
            var o := At(ref, "db:", org, principal);
            ResolveRole(Replay(ops), org, principal, tableID, dbID)
            == if Strings.TrimSpace(principal) == "" then "admin"
               else if RoleOf(t) != "" then RoleOf(t)
               else if t.Some? then RoleOf(o)
               else if RoleOf(d) != "" then RoleOf(d)
               else RoleOf(o)
  {
    hide Replay, Reference, Lookup, InReference, Strings.TrimSpace;
    StoreRefinesMap(ops);
    var m, ref := Replay(ops), Reference(ops);
    assert Lookup(m, "table:" + tableID, principal) == InReference(ref, "table:" + tableID, principal);
    assert Lookup(m, "db:" + dbID, principal) == InReference(ref, "db:" + dbID, principal);
    assert Lookup(m, "db:" + org, principal) == InReference(ref, "db:" + org, principal);
  }

  // ------------------------------------------------------------- permissions

  predicate Allow(role: Role, action: string) {
    if role == ADMIN then true
    else if action in {"db.create", "db.delete", "table.create", "table.schema", "table.delete"} then role == MAINTAINER
    else if action == "row.read" then role in {VIEWER, EDITOR, MAINTAINER}
    else if action == "row.write" then role in {EDITOR, MAINTAINER}
    else false
  }

  /** What each role may do: viewers read rows, editors also write them, maintainers also manage; nobody else. */
  lemma AllowByRole(role: Role, action: string)
    ensures Allow("admin", action)
    ensures Allow("viewer", action) <==> action == "row.read"
    ensures Allow("editor", action) <==> action == "row.write" || Allow("viewer", action)
    ensures Allow("maintainer", action) <==>
              || Allow("editor", action)
              || action in {"db.create", "db.delete", "table.create", "table.schema", "table.delete"}
    ensures role !in {"admin", "maintainer", "editor", "viewer"} ==> !Allow(role, action)
  {}

  // ----------------------------------------------------------------- masking

  // A JSON value; only strings need to be told apart from the rest.
  datatype Value = Str(s: string) | Json(code: int)

  type Row = map<string, Value>

  datatype ColumnDef = ColumnDef(name: string, mask: bool)

  const REDACTED := Str("***")

  predicate Masked(schema: seq<ColumnDef>, col: string) {
    exists i :: 0 <= i < |schema| && schema[i].name == col && schema[i].mask
  }

  /** What a role sees of a row. */
  function Served(role: Role, schema: seq<ColumnDef>, row: Row): Row {
    if role in {VIEWER, EDITOR}
    then map k | k in row :: if Masked(schema, k) then REDACTED else row[k]
    else row
  }

  /** Viewers and editors find "***" in masked columns and the stored value elsewhere; all others the stored row. */
  lemma ServedByRole(role: Role, schema: seq<ColumnDef>, row: Row)
    ensures Served(role, schema, row).Keys == row.Keys
    ensures role != "viewer" && role != "editor" ==> Served(role, schema, row) == row
    ensures role == "viewer" || role == "editor" ==>
              forall k :: k in row ==>
                if exists c :: c in schema && c.name == k && c.mask
                then Served(role, schema, row)[k] == Str("***")
                else Served(role, schema, row)[k] == row[k]
  {
    forall k ensures Masked(schema, k) <==> exists c :: c in schema && c.name == k && c.mask {
      if c :| c in schema && c.name == k && c.mask {
        var i :| 0 <= i < |schema| && schema[i] == c;
      }
    }
  }

  method MaskRow(role: Role, schema: seq<ColumnDef>, row: Row) returns (out: Row)
    ensures out == Served(role, schema, row)
    ensures role != "viewer" && role != "editor" ==> out == row
    ensures role == "viewer" || role == "editor" ==>
              && out.Keys == row.Keys
              && forall k :: k in row ==>
                   if exists c :: c in schema && c.name == k && c.mask then out[k] == Str("***") else out[k] == row[k]
  {
    ServedByRole(role, schema, row);
    if role == ADMIN || role == MAINTAINER {
      return row;
    }
    out := row;
    for i := 0 to |schema|
      invariant out.Keys == row.Keys
      invariant role in {VIEWER, EDITOR} ==>
                  forall k :: k in row ==> out[k] == if Masked(schema[..i], k) then REDACTED else row[k]
      invariant role !in {VIEWER, EDITOR} ==> out == row
    {
      var c := schema[i];
      assert schema[..i + 1] == schema[..i] + [c];
      assert forall k :: Masked(schema[..i + 1], k) <==> Masked(schema[..i], k) || (c.name == k && c.mask) by {
        forall k
          ensures Masked(schema[..i + 1], k) <==> Masked(schema[..i], k) || (c.name == k && c.mask)
        {
          assert forall j :: 0 <= j < i ==> schema[..i + 1][j] == schema[..i][j];
          if c.name == k && c.mask {
            assert schema[..i + 1][i] == c;
          }
        }
      }
      if c.mask && (role == VIEWER || role == EDITOR) {
        if c.name in out {
          out := out[c.name := REDACTED];
        }
      }
    }
    assert schema[..|schema|] == schema;
    if role in {VIEWER, EDITOR} {
      assert out == Served(role, schema, row);
    }
  }

  /**
    Non-interference: a reader below maintainer cannot tell apart two rows with
    the same columns that differ only in masked columns; every other column is
    served as stored.
   */
  lemma MaskingHidesMaskedColumns(role: Role, schema: seq<ColumnDef>, row: Row, other: Row)
    requires Allow(role, "row.read") && role != ADMIN && role != MAINTAINER
    requires row.Keys == other.Keys
    ensures Served(role, schema, row) == Served(role, schema, other)
            <==> (forall k :: k in row && !Masked(schema, k) ==> row[k] == other[k])
    ensures Served(role, schema, row).Keys == row.Keys
    ensures forall k :: k in row && !Masked(schema, k) ==> Served(role, schema, row)[k] == row[k]
  {
    var a, b := Served(role, schema, row), Served(role, schema, other);
    if a == b {
      forall k | k in row && !Masked(schema, k)
        ensures row[k] == other[k]
      {
        assert a[k] == b[k];
      }
    } else {
      var k :| k in row && a[k] != b[k];
    }
  }
}
