/**
  The cluster registry (Registry.Get, Registry.Close and sanitizeID in
  internal/cluster/registry.go): instances keyed by the normal form of a cluster
  id, created on demand under double-checked locking, each with its local database
  handle.
 */
module Registry {
  import opened Options

  // ------------------------------------------------------------- normal form

  /** One rune of sanitizeID: kept, lower-cased, turned into '-', or dropped. */
  function NormChar(c: char): (r: string)
    ensures |r| <= 1
  {
    if 'a' <= c <= 'z' || '0' <= c <= '9' then [c]
    else if 'A' <= c <= 'Z' then [(c as int + 32) as char]
    else if c == '-' || c == '_' || c == '.' then "-"
    else ""
  }

  function NormChars(s: string): string {
    if s == "" then "" else NormChars(s[..|s| - 1]) + NormChar(s[|s| - 1])
  }

  function Norm(s: string): string {
    if NormChars(s) == "" then "default" else NormChars(s)
  }

  method SanitizeID(s: string) returns (res: string)
    ensures res == Norm(s)
  {
    var b := "";
    for i := 0 to |s|
      invariant b == NormChars(s[..i])
    {
      var r := s[i];
      assert s[..i + 1][..i] == s[..i];
      if 'a' <= r <= 'z' {
        b := b + [r];
      } else if 'A' <= r <= 'Z' {
        b := b + [(r as int + ('a' as int - 'A' as int)) as char];
      } else if '0' <= r <= '9' {
        b := b + [r];
      } else if r == '-' || r == '_' || r == '.' {
        b := b + ['-'];
      }
    }
    assert s[..|s|] == s;
    res := b;
    if res == "" {
      res := "default";
    }
  }

  /** What becomes of each character: the place in the alphabet stays, separators become dashes, the rest goes. */
  lemma NormCharIs(c: char)
    ensures 'a' <= c <= 'z' || '0' <= c <= '9' ==> NormChar(c) == [c]
    ensures 'A' <= c <= 'Z' ==>
              |NormChar(c)| == 1 && NormChar(c)[0] as int - 'a' as int == c as int - 'A' as int
    ensures c in "-_." ==> NormChar(c) == "-"
    ensures NormChar(c) == "" <==>
              !('a' <= c <= 'z') && !('0' <= c <= '9') && !('A' <= c <= 'Z') && c !in "-_."
  {}

  lemma NormSnoc(s: string, c: char)
    ensures NormChars([]) == [] && NormChars([c]) == NormChar(c)
    ensures NormChars(s + [c]) == NormChars(s) + NormChar(c)
  {
    hide NormChar;
    assert (s + [c])[..|s|] == s && [c][..0] == [];
  }

  lemma {:induction false} NormJoin(s: string, t: string)
    ensures NormChars(s + t) == NormChars(s) + NormChars(t)
  {
    hide NormChars;
    NormSnoc(s, 'a');
    if t == "" {
      assert s + t == s;
    } else {
      var u, c := t[..|t| - 1], t[|t| - 1];
      NormJoin(s, u);
      NormSnoc(s + u, c);
      NormSnoc(u, c);
      assert t == u + [c] && s + t == (s + u) + [c];
    }
  }

  lemma {:induction false} NormEmpty(s: string)
    ensures NormChars(s) == "" <==> forall i :: 0 <= i < |s| ==> NormChar(s[i]) == ""
  {
    hide NormChar;
    if s != "" {
      NormEmpty(s[..|s| - 1]);
      assert forall i :: 0 <= i < |s| - 1 ==> s[..|s| - 1][i] == s[i];
    }
  }

  /** The normal form is built character by character, and "default" stands in when nothing is left. */
  lemma NormIsCharacterwise(s: string, t: string, c: char)
    ensures NormChars(s + t) == NormChars(s) + NormChars(t) && NormChars([c]) == NormChar(c)
    ensures if forall i :: 0 <= i < |s| ==> NormChar(s[i]) == "" then Norm(s) == "default" else Norm(s) == NormChars(s)
  {
    hide NormChars, NormChar;
    NormJoin(s, t);
    NormSnoc(s, c);
    NormEmpty(s);
  }

  predicate Plain(c: char) {
    'a' <= c <= 'z' || '0' <= c <= '9' || c == '-'
  }

  ghost predicate AllPlain(s: string) {
    forall i :: 0 <= i < |s| ==> Plain(s[i])
  }

  lemma {:induction false} NormCharsPlain(s: string)
    ensures AllPlain(NormChars(s))
  {
    if s != "" { NormCharsPlain(s[..|s| - 1]); }
  }

  lemma {:induction false} PlainFixed(s: string)
    requires AllPlain(s)
    ensures NormChars(s) == s
  {
    if s != "" {
      PlainFixed(s[..|s| - 1]);
      assert Plain(s[|s| - 1]);
      assert s == s[..|s| - 1] + [s[|s| - 1]];
    }
  }

  /** The normal form is never empty, only lower-case letters, digits and dashes, and its own normal form. */
  lemma NormIsFixedPoint(s: string)
    ensures Norm(s) != "" && AllPlain(Norm(s)) && Norm(Norm(s)) == Norm(s)
    ensures Norm(s) == s <==> s != "" && AllPlain(s)
  {
    hide NormChars;
    NormCharsPlain(s);
    PlainFixed(Norm(s));
    if AllPlain(s) { PlainFixed(s); }
  }

  // ---------------------------------------------------------------- the registry

  /** An instance: its id and its local database handle. */
  datatype Instance = Instance(id: string, handle: nat)

  datatype State = State(
    items: map<string, Instance>,
    created: map<string, nat>,      // creation times
    open: set<nat>,                 // local database handles not closed
    next: nat)                      // the handle localdb.Open returns next

  /** What the outside world answers while an instance is created. */
  datatype World = World(resolver: bool, kubeconfig: Option<string>, dbOpens: bool, clientBuilt: bool, now: nat)

  datatype Op = GetOp(raw: string, w: World) | CloseOp(raw: string)

  const INIT := State(map[], map[], {}, 0)

  /** The write-locked part of Get: re-check, then build the instance or fail on the way. */
  function GetOrCreate(s: State, id: string, w: World): (State, Option<Instance>) {
    if id in s.items then (s, Some(s.items[id]))
    else if !w.resolver then (s, None)
    else if w.kubeconfig.None? || w.kubeconfig.value == "" then (s, None)
    else if !w.dbOpens then (s, None)
    else if !w.clientBuilt then (s.(next := s.next + 1), None)     // the handle just opened is closed again
    else
      var inst := Instance(id, s.next);
      (State(s.items[id := inst], s.created[id := w.now], s.open + {s.next}, s.next + 1), Some(inst))
  }

  function Closed(s: State, id: string): State {
    if id in s.items
    then State(s.items - {id}, s.created - {id}, s.open - {s.items[id].handle}, s.next)
    else s
  }

  function Apply(s: State, op: Op): State {
    match op
    case GetOp(raw, w) => GetOrCreate(s, Norm(raw), w).0
    case CloseOp(raw) => Closed(s, Norm(raw))
  }

  function Run(s: State, ops: seq<Op>): State {
    if ops == [] then s else Apply(Run(s, ops[..|ops| - 1]), ops[|ops| - 1])
  }

  // ------------------------------------------------------------------- invariant

  ghost predicate EntryOk(s: State, id: string)
    requires id in s.items
  {
    Norm(id) == id && s.items[id].id == id && s.items[id].handle in s.open && s.items[id].handle < s.next
  }

  ghost predicate HandleOk(s: State, h: nat) {
    h < s.next && exists id :: id in s.items && s.items[id].handle == h
  }

  /**
    The key sets agree, each key is its own normal form and its instance's id, and
    open database handles correspond one to one with the instances.
   */
  ghost predicate Valid(s: State) {
    && s.items.Keys == s.created.Keys
    && (forall id :: id in s.items ==> EntryOk(s, id))
    && (forall h :: h in s.open ==> HandleOk(s, h))
    && (forall id, id' :: id in s.items && id' in s.items && s.items[id].handle == s.items[id'].handle ==> id == id')
  }

  lemma GetKeepsValid(s: State, raw: string, w: World)
    requires Valid(s)
    ensures Valid(GetOrCreate(s, Norm(raw), w).0)
  {
    var id := Norm(raw);
    NormIsFixedPoint(raw);
    hide Norm;
    var t := GetOrCreate(s, id, w).0;
    forall x | x in t.items ensures EntryOk(t, x) { if x in s.items { assert EntryOk(s, x); } }
    forall h | h in t.open ensures HandleOk(t, h) {
      if h in s.open {
        assert HandleOk(s, h);
        var x :| x in s.items && s.items[x].handle == h;
        assert x in t.items && t.items[x].handle == h;
      } else {
        assert t.items[id].handle == h;
      }
    }
  }

  lemma CloseKeepsValid(s: State, raw: string)
    requires Valid(s)
    ensures Valid(Closed(s, Norm(raw)))
  {
    var id := Norm(raw);
    hide Norm;
    var t := Closed(s, id);
    forall x | x in t.items ensures EntryOk(t, x) { assert EntryOk(s, x); }
    forall h | h in t.open ensures HandleOk(t, h) {
      assert HandleOk(s, h);
      var x :| x in s.items && s.items[x].handle == h;
      assert x in t.items && t.items[x].handle == h;
    }
  }

  lemma {:induction false} RunKeepsValid(s: State, ops: seq<Op>)
    requires Valid(s)
    ensures Valid(Run(s, ops))
  {
    hide Valid, Norm, GetOrCreate, Closed;
    if ops != [] {
      var t := Run(s, ops[..|ops| - 1]);
      RunKeepsValid(s, ops[..|ops| - 1]);
      match ops[|ops| - 1]
      case GetOp(raw, w) => GetKeepsValid(t, raw, w);
      case CloseOp(raw) => CloseKeepsValid(t, raw);
    }
  }

  /** Over any sequence of Get and Close, with any failures on the way, the registry stays coherent. */
  lemma RegistryCoherent(ops: seq<Op>)
    ensures Valid(Run(INIT, ops))
  {
    hide Norm, GetOrCreate, Closed;
    RunKeepsValid(INIT, ops);
  }

  predicate Closes(op: Op, id: string) {
    op.CloseOp? && Norm(op.raw) == id
  }

  lemma {:induction false} InstanceStays(s: State, ops: seq<Op>, id: string)
    requires id in s.items && forall i :: 0 <= i < |ops| ==> !Closes(ops[i], id)
    ensures id in Run(s, ops).items && Run(s, ops).items[id] == s.items[id]
    ensures s.next <= Run(s, ops).next
  {
    hide Norm;
    if ops != [] {
      InstanceStays(s, ops[..|ops| - 1], id);
      assert !Closes(ops[|ops| - 1], id);
    }
  }

  /**
    Once a raw id has an instance, every later Get of any raw id with the same
    normal form returns that very instance, until that normal form is closed;
    after Close the next successful Get opens the next handle, neither the old one nor
    any open one.
   */
  lemma SharedUntilClose(s: State, raw: string, w: World, ops: seq<Op>, raw': string, w': World)
    requires Valid(s) && GetOrCreate(s, Norm(raw), w).1.Some? && Norm(raw') == Norm(raw)
    requires forall i :: 0 <= i < |ops| ==> !Closes(ops[i], Norm(raw))
    ensures var (t, inst) := GetOrCreate(s, Norm(raw), w);
            && GetOrCreate(Run(t, ops), Norm(raw'), w').1 == inst
            && (var after := Closed(Run(t, ops), Norm(raw));
                GetOrCreate(after, Norm(raw'), w').1.Some? ==>
                  var again := GetOrCreate(after, Norm(raw'), w').1.value;
                  again.handle == Run(t, ops).next && again.handle != inst.value.handle
                  && again.handle !in Run(t, ops).open)
  {
    hide Norm, Valid;
    var (t, inst) := GetOrCreate(s, Norm(raw), w);
    GetKeepsValid(s, raw, w);
    HandlesAreUsed(t, Norm(raw));
    InstanceStays(t, ops, Norm(raw));
    RunKeepsValid(t, ops);
    NextIsFresh(Run(t, ops));
  }

  lemma HandlesAreUsed(s: State, id: string)
    requires Valid(s) && id in s.items
    ensures s.items[id].handle < s.next
  {
    hide Norm;
    assert EntryOk(s, id);
  }

  lemma KeysAgree(s: State)
    requires Valid(s)
    ensures s.items.Keys == s.created.Keys
  {}

  lemma NextIsFresh(s: State)
    requires Valid(s)
    ensures s.next !in s.open
  {
    assert forall h :: h in s.open ==> HandleOk(s, h);
  }

  // ------------------------------------------------------------------- the class

  class ClusterRegistry {
    var items: map<string, Instance>
    var created: map<string, nat>
    var open: set<nat>
    var next: nat

    function View(): State
      reads this
    {
      State(items, created, open, next)
    }

    constructor ()
      ensures View() == INIT
    {
      items, created, open, next := map[], map[], {}, 0;
    }

    /** The read-locked fast path of Get. */
    method Lookup(clusterID: string) returns (r: Option<Instance>)
      ensures r == if Norm(clusterID) in items then Some(items[Norm(clusterID)]) else None
    {
      var id := SanitizeID(clusterID);
      if id in items {
        return Some(items[id]);
      }
      return None;
    }

    /** The write-locked part of Get; whatever ran since the fast path, it re-checks. */
    method Create(clusterID: string, w: World) returns (r: Option<Instance>)
      requires Valid(View())
      modifies this
      ensures (View(), r) == GetOrCreate(old(View()), Norm(clusterID), w)
      ensures Valid(View())
      ensures r.Some? <==>
                || Norm(clusterID) in old(items)
                || (w.resolver && w.kubeconfig.Some? && w.kubeconfig.value != "" && w.dbOpens && w.clientBuilt)
      ensures Norm(clusterID) in old(items) ==> View() == old(View()) && r == Some(items[Norm(clusterID)])
      ensures Norm(clusterID) !in old(items) && r.Some? ==>
                && items == old(items)[Norm(clusterID) := r.value] && created == old(created)[Norm(clusterID) := w.now]
                && r.value.id == Norm(clusterID) && r.value.handle !in old(open) && open == old(open) + {r.value.handle}
      ensures r.None? ==> items == old(items) && created == old(created) && open == old(open)
    {
      hide Norm, Valid;
      GetKeepsValid(View(), clusterID, w);
      NextIsFresh(View());
      var id := SanitizeID(clusterID);
      if id in items {
        return Some(items[id]);
      }
      if !w.resolver {
        return None;
      }
      if w.kubeconfig.None? || w.kubeconfig.value == "" {
        return None;
      }
      if !w.dbOpens {
        return None;
      }
      var db := next;
      next := next + 1;
      open := open + {db};
      if !w.clientBuilt {
        open := open - {db};
        assert open == old(open);
        return None;
      }
      var inst := Instance(id, db);
      items := items[id := inst];
      created := created[id := w.now];
      return Some(inst);
    }

    method Close(clusterID: string)
      requires Valid(View())
      modifies this
      ensures View() == Closed(old(View()), Norm(clusterID)) && Valid(View())
      ensures items == old(items) - {Norm(clusterID)} && created == old(created) - {Norm(clusterID)}
      ensures open == if Norm(clusterID) !in old(items) then old(open)
                      else old(open) - {old(items)[Norm(clusterID)].handle}
    {
      hide Norm, Valid;
      CloseKeepsValid(View(), clusterID);
      KeysAgree(View());
      var id := SanitizeID(clusterID);
      if id !in items {
        return;
      }
      open := open - {items[id].handle};
      items := items - {id};
      created := created - {id};
    }
  }
}
