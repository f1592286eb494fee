/**
  Published listeners (internal/api/router.go): the in-memory map of listeners
  under its mutex, the persisted mirror of its keys, the accept loops with their
  two-step cleanup, the DELETE handler and the restore at start-up.

  An action is one critical section or one store operation; the theorems hold
  after every interleaving of any number of publishers, accept loops and DELETE
  handlers with the restore.
 */
module Published {
  import opened Options

  // keys ("cluster:service"), listeners and DELETE requests
  type Key(==, !new)
  type Lid(==, !new)
  type Request(==, !new)

  /** An accept loop: accepting, past its failed Accept, past its map delete, past its store delete. */
  datatype LoopPc = Accepting | Closing | Unmapped | Ended

  datatype Loop = Loop(key: Key, pc: LoopPc)

  /** The restore: its remaining list and, past the absence check, the key it is about to listen for. */
  datatype Restore = NotStarted | Working(todo: seq<Key>) | Checked(key: Key, todo: seq<Key>)

  datatype State = State(
    mem: map<Key, Lid>,            // publishedMap
    db: set<Key>,                  // persisted keys
    loops: map<Lid, Loop>,         // one accept loop per listener ever installed
    open: set<Lid>,                // listeners not yet closed
    deleting: map<Request, Key>,   // DELETE requests between the map lookup and the store delete
    restore: Restore,
    // history: initially persisted keys nothing has touched since, keys whose store delete failed
    untouched: set<Key>,
    undeleted: set<Key>)

  datatype Action =
    | Publish(k: Key, l: Lid, listens: bool, saves: bool)
    | AcceptFails(l: Lid)
    | Unmap(l: Lid)
    | Erase(l: Lid, ok: bool)
    | Delete(r: Request, k: Key)
    | DeleteErase(r: Request, ok: bool)
    | RestoreList(list: seq<Key>)
    | RestoreCheck
    | RestoreSkip
    | RestoreInsert(l: Lid)

  function Init(db: set<Key>): State {
    State(map[], db, map[], {}, map[], NotStarted, db, {})
  }

  predicate Enabled(s: State, a: Action) {
    match a
    case Publish(_, l, _, _) => l !in s.loops
    case AcceptFails(l) => l in s.loops && s.loops[l].pc.Accepting?
    case Unmap(l) => l in s.loops && s.loops[l].pc.Closing?
    case Erase(l, _) => l in s.loops && s.loops[l].pc.Unmapped?
    case Delete(r, _) => r !in s.deleting
    case DeleteErase(r, _) => r in s.deleting
    case RestoreList(list) => s.restore.NotStarted? && (set k | k in list) == s.db
    case RestoreCheck => s.restore.Working? && s.restore.todo != []
    case RestoreSkip => (s.restore.Working? && s.restore.todo != []) || s.restore.Checked?
    case RestoreInsert(l) => s.restore.Checked? && l !in s.loops
  }

  /** A listener is put into the map and its accept loop started. */
  function Install(s: State, k: Key, l: Lid): State {
    s.(mem := s.mem[k := l], loops := s.loops[l := Loop(k, Accepting)], open := s.open + {l},
       untouched := s.untouched - {k}, undeleted := s.undeleted - {k})
  }

  function EraseKey(s: State, k: Key): State {
    s.(db := s.db - {k}, untouched := s.untouched - {k}, undeleted := s.undeleted - {k})
  }

  function Apply(s: State, a: Action): State
    requires Enabled(s, a)
  {
    match a
    case Publish(k, l, listens, saves) =>
      if k in s.mem || !listens then s
      else
        var t := Install(s, k, l);
        if saves then t.(db := s.db + {k}) else t
    case AcceptFails(l) => s.(loops := s.loops[l := s.loops[l].(pc := Closing)], open := s.open - {l})
    case Unmap(l) =>
      // deletes by key, whichever listener is there
      s.(mem := s.mem - {s.loops[l].key}, loops := s.loops[l := s.loops[l].(pc := Unmapped)])
    case Erase(l, ok) =>
      var t := s.(loops := s.loops[l := s.loops[l].(pc := Ended)]);
      if ok then EraseKey(t, s.loops[l].key) else t.(undeleted := s.undeleted + {s.loops[l].key})
    case Delete(r, k) =>
      if k in s.mem then s.(open := s.open - {s.mem[k]}) else s.(deleting := s.deleting[r := k])
    case DeleteErase(r, ok) =>
      var t := s.(deleting := s.deleting - {r});
      if ok then EraseKey(t, s.deleting[r]) else t
    case RestoreList(list) => s.(restore := Working(list))
    case RestoreCheck =>
      var k, rest := s.restore.todo[0], s.restore.todo[1..];
      s.(restore := if k in s.mem then Working(rest) else Checked(k, rest))
    case RestoreSkip => s.(restore := Working(if s.restore.Working? then s.restore.todo[1..] else s.restore.todo))
    case RestoreInsert(l) =>
      // the lock was released after the check: this may overwrite
      Install(s, s.restore.key, l).(restore := Working(s.restore.todo))
  }

  predicate IsRun(s: State, acts: seq<Action>)
    decreases |acts|
  {
    acts == [] || (Enabled(s, acts[0]) && IsRun(Apply(s, acts[0]), acts[1..]))
  }

  function RunFrom(s: State, acts: seq<Action>): State
    requires IsRun(s, acts)
    decreases |acts|
  {
    if acts == [] then s else RunFrom(Apply(s, acts[0]), acts[1..])
  }

  /** One more step of a run that ends in the given state. */
  lemma {:induction false} Follow(s: State, acts: seq<Action>, a: Action, end: State)
    returns (acts': seq<Action>, t: State)
    requires IsRun(s, acts) && RunFrom(s, acts) == end && Enabled(end, a)
    ensures acts' == acts + [a] && t == Apply(end, a)
    ensures IsRun(s, acts') && RunFrom(s, acts') == t
    decreases |acts|
  {
    hide Enabled, Apply;
    acts', t := acts + [a], Apply(end, a);
    if acts == [] {
      assert ([] + [a])[1..] == [] && ([] + [a])[0] == a;
      assert IsRun(t, []);
    } else {
      assert (acts + [a])[0] == acts[0] && (acts + [a])[1..] == acts[1..] + [a];
      var _, _ := Follow(Apply(s, acts[0]), acts[1..], a, end);
    }
  }

  // ------------------------------------------------- who answers for a persisted key

  predicate Erasing(s: State, l: Lid, k: Key) {
    l in s.loops && s.loops[l] == Loop(k, Unmapped)
  }

  /**
    A persisted key is in the map, or an accept loop that has unmapped it is about
    to delete it, or it was persisted at start and nothing has touched it yet, or
    its deletion from the store failed.
   */
  ghost predicate Owned(s: State, k: Key) {
    k in s.mem || (exists l :: Erasing(s, l, k)) || k in s.untouched || k in s.undeleted
  }

  /** A listener in the map has a loop for its key that has not unmapped it yet. */
  predicate EntryOk(s: State, k: Key)
    requires k in s.mem
  {
    s.mem[k] in s.loops && s.loops[s.mem[k]].key == k
    && (s.loops[s.mem[k]].pc.Accepting? || s.loops[s.mem[k]].pc.Closing?)
  }

  ghost predicate Inv(s: State) {
    && (forall k :: k in s.db ==> Owned(s, k))
    && (forall k :: k in s.mem ==> EntryOk(s, k))
  }

  lemma OwnedStep(s: State, a: Action, k: Key)
    requires Enabled(s, a) && k in Apply(s, a).db && (k in s.db ==> Owned(s, k))
    ensures Owned(Apply(s, a), k)
  {
    var t := Apply(s, a);
    if a.Unmap? && s.loops[a.l].key == k {
      assert Erasing(t, a.l, k);
    } else if k in s.db && exists l :: Erasing(s, l, k) {
      var l :| Erasing(s, l, k);
      if !(a.Erase? && a.l == l) { assert Erasing(t, l, k); }
    }
  }

  lemma EntryStep(s: State, a: Action, k: Key)
    requires Enabled(s, a) && k in Apply(s, a).mem && (k in s.mem ==> EntryOk(s, k))
    ensures EntryOk(Apply(s, a), k)
  {}

  lemma InvStep(s: State, a: Action)
    requires Inv(s) && Enabled(s, a)
    ensures Inv(Apply(s, a))
  {
    hide Enabled, Apply, Owned, EntryOk;
    var t := Apply(s, a);
    forall k | k in t.db ensures Owned(t, k) { OwnedStep(s, a, k); }
    forall k | k in t.mem ensures EntryOk(t, k) { EntryStep(s, a, k); }
  }

  lemma {:induction false} InvHolds(s: State, acts: seq<Action>)
    requires Inv(s) && IsRun(s, acts)
    ensures Inv(RunFrom(s, acts))
    decreases |acts|
  {
    hide Enabled, Apply, Inv;
    if acts != [] {
      InvStep(s, acts[0]);
      InvHolds(Apply(s, acts[0]), acts[1..]);
    }
  }

  /** After every interleaving every persisted key is answered for, and every map entry has a running loop. */
  lemma PersistedKeysAreOwned(db: set<Key>, acts: seq<Action>, k: Key)
    requires IsRun(Init(db), acts)
    ensures var s := RunFrom(Init(db), acts);
            (k in s.db ==> Owned(s, k)) && (k in s.mem ==> EntryOk(s, k))
  {
    InvHolds(Init(db), acts);
  }

  // ------------------------------------------------------ the converse: the mirror

  /** Every published key is persisted. */
  ghost predicate Mirrored(s: State) {
    forall k :: k in s.mem ==> k in s.db
  }

  /** The steps that leave a published key unpersisted. */
  predicate LosesMirror(s: State, a: Action)
    requires Enabled(s, a)
  {
    match a
    case Publish(k, _, listens, saves) => k !in s.mem && listens && !saves && k !in s.db
    case Erase(l, ok) => ok && s.loops[l].key in s.mem
    case DeleteErase(r, ok) => ok && s.deleting[r] in s.mem
    case RestoreInsert(_) => s.restore.key !in s.db
    case _ => false
  }

  /**
    The persisted mirror is exact as long as no failed save happens, no cleanup or
    DELETE erases a key that has been published again meanwhile, and restore does
    not bring back a key deleted since it was listed; each of these breaks it.
   */
  lemma MirrorBreaksExactly(s: State, a: Action)
    requires Mirrored(s) && Enabled(s, a)
    ensures Mirrored(Apply(s, a)) <==> !LosesMirror(s, a)
  {
    var t := Apply(s, a);
    match a
    case Publish(k, l, listens, saves) => assert k !in s.mem && listens ==> k in t.mem;
    case Erase(l, ok) => assert ok ==> s.loops[l].key !in t.db;
    case DeleteErase(r, ok) => assert ok ==> s.deleting[r] !in t.db;
    case RestoreInsert(l) => assert s.restore.key in t.mem;
    case _ =>
  }

  /** Every published key is persisted, now and after every step of the run. */
  ghost predicate MirroredThroughout(s: State, acts: seq<Action>)
    requires IsRun(s, acts)
    decreases |acts|
  {
    Mirrored(s) && (acts == [] || MirroredThroughout(Apply(s, acts[0]), acts[1..]))
  }

  predicate NoMirrorLoss(s: State, acts: seq<Action>)
    requires IsRun(s, acts)
    decreases |acts|
  {
    acts == [] || (!LosesMirror(s, acts[0]) && NoMirrorLoss(Apply(s, acts[0]), acts[1..]))
  }

  lemma {:induction false} MirrorAlong(s: State, acts: seq<Action>)
    requires Mirrored(s) && IsRun(s, acts)
    ensures MirroredThroughout(s, acts) <==> NoMirrorLoss(s, acts)
    decreases |acts|
  {
    hide Enabled, Apply, Mirrored, LosesMirror;
    if acts != [] {
      MirrorBreaksExactly(s, acts[0]);
      if !LosesMirror(s, acts[0]) { MirrorAlong(Apply(s, acts[0]), acts[1..]); }
    }
  }

  /** From start-up on, every published key is persisted throughout a run if and only if no losing step occurs in it. */
  lemma MirrorHoldsExactly(db: set<Key>, acts: seq<Action>)
    requires IsRun(Init(db), acts)
    ensures MirroredThroughout(Init(db), acts) <==> NoMirrorLoss(Init(db), acts)
  {
    MirrorAlong(Init(db), acts);
  }

  /** A cleanup that is overtaken by a new publish of its key: published but no longer persisted. */
  lemma OvertakenCleanup(k: Key, l: Lid, l': Lid)
    requires l != l'
    ensures var acts := [Publish(k, l, true, true), AcceptFails(l),
                         Unmap(l), Publish(k, l', true, true), Erase(l, true)];
            && IsRun(Init({}), acts)
            && var s := RunFrom(Init({}), acts); k in s.mem && s.mem[k] == l' && l' in s.open && k !in s.db
  {
    var s0 := Init({});
    assert IsRun(s0, []) && RunFrom(s0, []) == s0;
    hide IsRun, RunFrom;
    var r1, s1 := Follow(s0, [], Publish(k, l, true, true), s0);
    var r2, s2 := Follow(s0, r1, AcceptFails(l), s1);
    var r3, s3 := Follow(s0, r2, Unmap(l), s2);
    var r4, s4 := Follow(s0, r3, Publish(k, l', true, true), s3);
    var r5, s5 := Follow(s0, r4, Erase(l, true), s4);
    assert r5 == [Publish(k, l, true, true), AcceptFails(l), Unmap(l), Publish(k, l', true, true), Erase(l, true)];
  }

  // --------------------------------------------------------- no listener is lost

  /** Every listener whose loop still serves it is the map's entry for its key, so DELETE can reach it. */
  ghost predicate AllListed(s: State) {
    forall l :: l in s.loops && (s.loops[l].pc.Accepting? || s.loops[l].pc.Closing?)
      ==> s.loops[l].key in s.mem && s.mem[s.loops[l].key] == l
  }

  /** Restore inserting a key that was published after its absence check. */
  predicate Overwrites(s: State, a: Action)
    requires Enabled(s, a)
  {
    a.RestoreInsert? && s.restore.key in s.mem
  }

  /** The gap between restore's check and its insert is the only way to lose track of a listener. */
  lemma ListenersLostExactlyByRestore(s: State, a: Action)
    requires Inv(s) && AllListed(s) && Enabled(s, a)
    ensures AllListed(Apply(s, a)) <==> !Overwrites(s, a)
  {
    var t := Apply(s, a);
    if Overwrites(s, a) {
      var was := s.mem[s.restore.key];
      assert EntryOk(s, s.restore.key);
      assert was in t.loops && t.loops[was] == s.loops[was];
    } else {
      forall l | l in t.loops && (t.loops[l].pc.Accepting? || t.loops[l].pc.Closing?)
        ensures t.loops[l].key in t.mem && t.mem[t.loops[l].key] == l
      {
        if l in s.loops { assert s.loops[l].key == t.loops[l].key; }
      }
    }
  }

  predicate NoOverwrite(s: State, acts: seq<Action>)
    requires IsRun(s, acts)
    decreases |acts|
  {
    acts == [] || (!Overwrites(s, acts[0]) && NoOverwrite(Apply(s, acts[0]), acts[1..]))
  }

  ghost predicate ListedThroughout(s: State, acts: seq<Action>)
    requires IsRun(s, acts)
    decreases |acts|
  {
    AllListed(s) && (acts == [] || ListedThroughout(Apply(s, acts[0]), acts[1..]))
  }

  lemma {:induction false} ListedAlong(s: State, acts: seq<Action>)
    requires Inv(s) && AllListed(s) && IsRun(s, acts)
    ensures ListedThroughout(s, acts) <==> NoOverwrite(s, acts)
    ensures NoOverwrite(s, acts) ==> AllListed(RunFrom(s, acts))
    decreases |acts|
  {
    hide Enabled, Apply, Inv, AllListed, Overwrites;
    if acts != [] {
      ListenersLostExactlyByRestore(s, acts[0]);
      InvStep(s, acts[0]);
      if !Overwrites(s, acts[0]) { ListedAlong(Apply(s, acts[0]), acts[1..]); }
    }
  }

  /**
    From start-up on, every serving listener is the map's entry for its key throughout a
    run if and only if restore never inserts a key published since its check.
   */
  lemma EveryListenerReachable(db: set<Key>, acts: seq<Action>)
    requires IsRun(Init(db), acts)
    ensures ListedThroughout(Init(db), acts) <==> NoOverwrite(Init(db), acts)
    ensures NoOverwrite(Init(db), acts) ==> AllListed(RunFrom(Init(db), acts))
  {
    ListedAlong(Init(db), acts);
  }

  /** The way to the race: a publish between restore's check and its insert. */
  lemma ToTheRace(k: Key, l: Lid, l': Lid) returns (acts: seq<Action>, s: State)
    requires l != l'
    ensures acts == [RestoreList([k]), RestoreCheck, Publish(k, l, true, true), RestoreInsert(l')]
    ensures IsRun(Init({k}), acts) && RunFrom(Init({k}), acts) == s
    ensures s.mem == map[k := l'] && s.open == {l, l'}
    ensures s.loops == map[l := Loop(k, Accepting), l' := Loop(k, Accepting)]
  {
    var s0 := Init({k});
    assert IsRun(s0, []) && RunFrom(s0, []) == s0;
    hide IsRun, RunFrom;
    assert (set x | x in [k]) == {k};
    var r1, s1 := Follow(s0, [], RestoreList([k]), s0);
    var r2, s2 := Follow(s0, r1, RestoreCheck, s1);
    var r3, s3 := Follow(s0, r2, Publish(k, l, true, true), s2);
    acts, s := Follow(s0, r3, RestoreInsert(l'), s3);
  }

  /** A run in which restore overwrites a listener that is serving: open, and out of reach of DELETE. */
  lemma RestoreLosesListener(k: Key, l: Lid, l': Lid)
    requires l != l'
    ensures var acts := [RestoreList([k]), RestoreCheck, Publish(k, l, true, true), RestoreInsert(l')];
            && IsRun(Init({k}), acts)
            && var s := RunFrom(Init({k}), acts);
               !AllListed(s) && l in s.open && l in s.loops
               && s.loops[l] == Loop(k, Accepting) && k in s.mem && s.mem[k] == l'
  {
    hide IsRun, RunFrom;
    var acts, s := ToTheRace(k, l, l');
    assert l in s.loops && s.loops[l].pc.Accepting?;
  }

  // ------------------------------------- what restore's check is good for

  /** The last step of a run. */
  lemma {:induction false} SplitLast(s: State, acts: seq<Action>)
    requires IsRun(s, acts) && acts != []
    ensures var init, a := acts[..|acts| - 1], acts[|acts| - 1];
            IsRun(s, init) && Enabled(RunFrom(s, init), a) && RunFrom(s, acts) == Apply(RunFrom(s, init), a)
    decreases |acts|
  {
    hide Enabled, Apply;
    if |acts| > 1 {
      SplitLast(Apply(s, acts[0]), acts[1..]);
      assert acts[1..][..|acts| - 2] == acts[..|acts| - 1][1..];
    } else {
      assert acts[..0] == [] && acts[1..] == [];
      assert IsRun(s, []) && IsRun(Apply(s, acts[0]), []);
    }
  }

  /** Step i is restore's last check, and found the key absent. */
  ghost predicate ChecksLast(db: set<Key>, acts: seq<Action>, i: nat, k: Key) {
    && i < |acts| && acts[i] == RestoreCheck && (forall n :: i < n < |acts| ==> acts[n] != RestoreCheck)
    && IsRun(Init(db), acts[..i])
    && var s := RunFrom(Init(db), acts[..i]);
       s.restore.Working? && s.restore.todo != [] && s.restore.todo[0] == k && k !in s.mem
  }

  /** Step j is a publish that installs a listener for the key. */
  ghost predicate InstallsAt(db: set<Key>, acts: seq<Action>, j: nat, k: Key) {
    && j < |acts| && acts[j].Publish? && acts[j].k == k && acts[j].listens
    && IsRun(Init(db), acts[..j]) && k !in RunFrom(Init(db), acts[..j]).mem
  }

  ghost predicate InstalledSince(db: set<Key>, acts: seq<Action>, i: nat, k: Key) {
    exists j: nat :: i < j && InstallsAt(db, acts, j, k)
  }

  /** Past a check: the check found the key absent, and if it is in the map now it was published since. */
  ghost predicate CheckHolds(db: set<Key>, acts: seq<Action>)
    requires IsRun(Init(db), acts)
  {
    var s := RunFrom(Init(db), acts);
    s.restore.Checked? ==>
      exists i: nat :: ChecksLast(db, acts, i, s.restore.key)
                       && (s.restore.key in s.mem ==> InstalledSince(db, acts, i, s.restore.key))
  }

  /** A step after the check either is the publish or leaves the key as absent as it was. */
  lemma CheckedStep(s: State, a: Action)
    requires Enabled(s, a) && Apply(s, a).restore.Checked?
    ensures var t := Apply(s, a); var k := t.restore.key;
            if a.RestoreCheck?
            then s.restore.Working? && s.restore.todo != [] && k == s.restore.todo[0] && k !in s.mem && k !in t.mem
            else && t.restore == s.restore
                 && (k in t.mem ==> k in s.mem || (a.Publish? && a.k == k && a.listens && k !in s.mem))
  {}

  lemma StaysInPrefix(db: set<Key>, acts: seq<Action>, a: Action, i: nat, k: Key)
    requires i < |acts|
    ensures (acts + [a])[..i] == acts[..i]
    ensures ChecksLast(db, acts, i, k) && !a.RestoreCheck? ==> ChecksLast(db, acts + [a], i, k)
    ensures InstallsAt(db, acts, i, k) ==> InstallsAt(db, acts + [a], i, k)
  {
    assert (acts + [a])[..i] == acts[..i];
  }

  lemma {:induction false} CheckHoldsAlong(db: set<Key>, acts: seq<Action>)
    requires IsRun(Init(db), acts)
    ensures CheckHolds(db, acts)
    decreases |acts|
  {
    hide Enabled, Apply, IsRun, RunFrom, ChecksLast, InstallsAt;
    if acts == [] {
      NothingChecked(db);
    } else {
      var init, a := acts[..|acts| - 1], acts[|acts| - 1];
      assert acts == init + [a];
      SplitLast(Init(db), acts);
      CheckHoldsAlong(db, init);
      var s, t := RunFrom(Init(db), init), RunFrom(Init(db), acts);
      if t.restore.Checked? {
        CheckedStep(s, a);
        if a.RestoreCheck? {
          CheckedNow(db, init, a);
        } else {
          CheckedBefore(db, init, a);
        }
      }
    }
  }

  lemma NothingChecked(db: set<Key>)
    ensures IsRun(Init(db), []) && RunFrom(Init(db), []) == Init(db) && !Init(db).restore.Checked?
  {}

  lemma CheckedNow(db: set<Key>, init: seq<Action>, a: Action)
    requires IsRun(Init(db), init) && a.RestoreCheck?
    requires var s := RunFrom(Init(db), init);
             s.restore.Working? && s.restore.todo != [] && s.restore.todo[0] !in s.mem
    ensures ChecksLast(db, init + [a], |init|, RunFrom(Init(db), init).restore.todo[0])
  {
    assert (init + [a])[..|init|] == init;
  }

  lemma CheckedBefore(db: set<Key>, init: seq<Action>, a: Action)
    requires IsRun(Init(db), init) && IsRun(Init(db), init + [a]) && CheckHolds(db, init) && !a.RestoreCheck?
    requires var s, t := RunFrom(Init(db), init), RunFrom(Init(db), init + [a]);
             && s.restore.Checked? && t.restore == s.restore
             && var k := s.restore.key;
                k in t.mem ==> k in s.mem || (a.Publish? && a.k == k && a.listens && k !in s.mem)
    ensures CheckHolds(db, init + [a])
  {
    hide IsRun, RunFrom, ChecksLast;
    var s, t := RunFrom(Init(db), init), RunFrom(Init(db), init + [a]);
    var k := s.restore.key;
    var i: nat :| ChecksLast(db, init, i, k) && (k in s.mem ==> InstalledSince(db, init, i, k));
    assert i < |init| by { LastIsWithin(db, init, i, k); }
    StaysInPrefix(db, init, a, i, k);
    if k in s.mem {
      var j: nat :| i < j && InstallsAt(db, init, j, k);
      StaysInPrefix(db, init, a, j, k);
      assert InstalledSince(db, init + [a], i, k);
    } else if k in t.mem {
      assert (init + [a])[..|init|] == init;
      assert InstallsAt(db, init + [a], |init|, k);
      assert InstalledSince(db, init + [a], i, k);
    }
    assert ChecksLast(db, init + [a], i, k);
  }

  lemma LastIsWithin(db: set<Key>, acts: seq<Action>, i: nat, k: Key)
    requires ChecksLast(db, acts, i, k)
    ensures i < |acts|
  {}

  /**
    Over runs from start-up: restore overwrites a listener only if its key was absent at
    the last check and a publish has installed one between that check and the insert.
   */
  lemma OverwriteIsTheRace(db: set<Key>, acts: seq<Action>, l: Lid)
    requires IsRun(Init(db), acts) && Enabled(RunFrom(Init(db), acts), RestoreInsert(l))
    requires Overwrites(RunFrom(Init(db), acts), RestoreInsert(l))
    ensures var k := RunFrom(Init(db), acts).restore.key;
            exists i: nat, j: nat :: i < j && ChecksLast(db, acts, i, k) && InstallsAt(db, acts, j, k)
  {
    hide ChecksLast, InstallsAt;
    CheckHoldsAlong(db, acts);
    var s := RunFrom(Init(db), acts);
    var k := s.restore.key;
    var i: nat :| ChecksLast(db, acts, i, k) && InstalledSince(db, acts, i, k);
    var j: nat :| i < j && InstallsAt(db, acts, j, k);
  }

  /** A key that is in the map at the check is never restored. */
  lemma CheckSkipsPublished(s: State)
    requires Enabled(s, RestoreCheck)
    ensures var t := Apply(s, RestoreCheck); var k := s.restore.todo[0];
            && (t.restore.Checked? <==> k !in s.mem)
            && (k in s.mem ==> t.restore == Working(s.restore.todo[1..]))
            && t.mem == s.mem && t.open == s.open
  {}

  // ------------------------------------------------ restore goes through its list

  /** The keys restore has still to deal with. */
  function Todo(r: Restore): seq<Key> {
    match r
    case NotStarted => []
    case Working(todo) => todo
    case Checked(k, todo) => [k] + todo
  }

  /** The step ends restore's work on a key: it found the key published, gave up on it, or installed a listener. */
  predicate Finishes(s: State, a: Action)
    requires Enabled(s, a)
  {
    a.RestoreSkip? || a.RestoreInsert? || (a.RestoreCheck? && s.restore.todo[0] in s.mem)
  }

  function Finished(s: State, acts: seq<Action>): nat
    requires IsRun(s, acts)
    decreases |acts|
  {
    if acts == [] then 0
    else (if Finishes(s, acts[0]) then 1 else 0) + Finished(Apply(s, acts[0]), acts[1..])
  }

  lemma TodoStep(s: State, a: Action)
    requires Enabled(s, a) && !s.restore.NotStarted?
    ensures var t := Apply(s, a);
            && !t.restore.NotStarted?
            && (if Finishes(s, a) then Todo(s.restore) == [Todo(s.restore)[0]] + Todo(t.restore)
                else Todo(t.restore) == Todo(s.restore))
            && (a.RestoreInsert? ==> t.mem == s.mem[Todo(s.restore)[0] := a.l])
  {}

  /** However the restore is interleaved, it deals with the listed keys one by one, in order and leaving none out. */
  lemma {:induction false} RestoreInOrder(s: State, acts: seq<Action>)
    requires IsRun(s, acts) && !s.restore.NotStarted?
    ensures var t := RunFrom(s, acts);
            Finished(s, acts) <= |Todo(s.restore)| && Todo(t.restore) == Todo(s.restore)[Finished(s, acts)..]
    decreases |acts|
  {
    hide Enabled, Apply, Todo, Finishes;
    if acts != [] {
      TodoStep(s, acts[0]);
      RestoreInOrder(Apply(s, acts[0]), acts[1..]);
    }
  }

  /**
    A run in which the cleanup of an overwritten listener, which deletes by key, takes
    the newer one out of the map: it keeps serving, and nothing can close it.
   */
  lemma CleanupUnmapsAnother(k: Key, l: Lid, l': Lid)
    requires l != l'
    ensures var acts := [RestoreList([k]), RestoreCheck, Publish(k, l, true, true), RestoreInsert(l'),
                         AcceptFails(l), Unmap(l)];
            && IsRun(Init({k}), acts)
            && var s := RunFrom(Init({k}), acts);
               k !in s.mem && l' in s.open && l' in s.loops && s.loops[l'] == Loop(k, Accepting)
  {
    hide IsRun, RunFrom;
    var r4, s4 := ToTheRace(k, l, l');
    var r5, s5 := Follow(Init({k}), r4, AcceptFails(l), s4);
    var r6, s6 := Follow(Init({k}), r5, Unmap(l), s5);
    assert r6 == [RestoreList([k]), RestoreCheck, Publish(k, l, true, true), RestoreInsert(l'),
                  AcceptFails(l), Unmap(l)];
  }

  // ------------------------------------------- which map entries are listening

  /** The step closes the listener: its own failed Accept, or a DELETE that finds it in the map. */
  predicate Closes(s: State, a: Action, l: Lid) {
    (a.AcceptFails? && a.l == l) || (a.Delete? && a.k in s.mem && s.mem[a.k] == l)
  }

  predicate ClosedIn(s: State, acts: seq<Action>, l: Lid)
    requires IsRun(s, acts)
    decreases |acts|
  {
    acts != [] && (Closes(s, acts[0], l) || ClosedIn(Apply(s, acts[0]), acts[1..], l))
  }

  /** Open, or not installed yet. */
  predicate Unclosed(s: State, l: Lid) {
    l in s.loops ==> l in s.open
  }

  lemma UnclosedStep(s: State, a: Action, l: Lid)
    requires Inv(s) && Enabled(s, a)
    ensures Unclosed(Apply(s, a), l) <==> Unclosed(s, l) && !Closes(s, a, l)
  {
    if a.Delete? && a.k in s.mem { assert EntryOk(s, a.k); }
  }

  lemma {:induction false} UnclosedAlong(s: State, acts: seq<Action>, l: Lid)
    requires Inv(s) && IsRun(s, acts)
    ensures Unclosed(RunFrom(s, acts), l) <==> Unclosed(s, l) && !ClosedIn(s, acts, l)
    decreases |acts|
  {
    hide Enabled, Apply, Inv, Unclosed, Closes;
    if acts != [] {
      UnclosedStep(s, acts[0], l);
      InvStep(s, acts[0]);
      UnclosedAlong(Apply(s, acts[0]), acts[1..], l);
    }
  }

  /** The key is published and its listener takes connections. */
  predicate Listening(s: State, k: Key) {
    k in s.mem && s.mem[k] in s.open
  }

  /**
    After every run the listener of a map entry is open if and only if no Accept of its
    loop has failed and no DELETE has met it.  So a publish, which reuses any entry it
    finds, leaves its key listening if and only if that holds of the entry, or there is
    none and the listen goes through.
   */
  lemma ListeningExactly(db: set<Key>, acts: seq<Action>, k: Key, l: Lid, listens: bool, saves: bool)
    requires IsRun(Init(db), acts) && Enabled(RunFrom(Init(db), acts), Publish(k, l, listens, saves))
    ensures var s := RunFrom(Init(db), acts);
            && (k in s.mem ==> (Listening(s, k) <==> !ClosedIn(Init(db), acts, s.mem[k])))
            && (Listening(Apply(s, Publish(k, l, listens, saves)), k)
                <==> if k in s.mem then !ClosedIn(Init(db), acts, s.mem[k]) else listens)
  {
    var s := RunFrom(Init(db), acts);
    InvHolds(Init(db), acts);
    if k in s.mem {
      assert EntryOk(s, k);
      UnclosedAlong(Init(db), acts, s.mem[k]);
    }
  }

  /** A run in which a publish after a DELETE reuses the closed listener: the key is mapped and nothing listens. */
  lemma ReusesClosedListener(k: Key, l: Lid, l': Lid, r: Request)
    requires l != l'
    ensures var acts := [Publish(k, l, true, true), Delete(r, k), Publish(k, l', true, true)];
            && IsRun(Init({}), acts)
            && var s := RunFrom(Init({}), acts); k in s.mem && s.mem[k] == l && s.open == {}
  {
    var s0 := Init({});
    assert IsRun(s0, []) && RunFrom(s0, []) == s0;
    hide IsRun, RunFrom;
    var r1, s1 := Follow(s0, [], Publish(k, l, true, true), s0);
    var r2, s2 := Follow(s0, r1, Delete(r, k), s1);
    var r3, s3 := Follow(s0, r2, Publish(k, l', true, true), s2);
    assert r3 == [Publish(k, l, true, true), Delete(r, k), Publish(k, l', true, true)];
  }

  // ----------------------------------------------- the critical sections as code

  class Server {
    // None stands for a nil pointer stored in the map
    var publishedMap: map<Key, Option<Lid>>
    var locked: bool
    var unlocks: nat
    var db: set<Key>
    var loops: map<Lid, Loop>
    var open: set<Lid>
    var deleting: map<Request, Key>
    var restore: Restore
    var untouched: set<Key>
    var undeleted: set<Key>

    predicate NoNil()
      reads this
    {
      forall k :: k in publishedMap ==> publishedMap[k].Some?
    }

    function View(): State
      requires NoNil()
      reads this
    {
      State(map k | k in publishedMap :: publishedMap[k].value,
            db, loops, open, deleting, restore, untouched, undeleted)
    }

    method Lock()
      requires !locked
      modifies this`locked
      ensures locked
    {
      locked := true;
    }

    /** Unlocking an unlocked mutex is a fatal error. */
    method Unlock()
      requires locked
      modifies this`locked, this`unlocks
      ensures !locked && unlocks == old(unlocks) + 1
    {
      locked := false;
      unlocks := unlocks + 1;
    }

    method InstallListener(k: Key, l: Lid)
      requires NoNil()
      modifies this`publishedMap, this`loops, this`open, this`untouched, this`undeleted
      ensures NoNil() && View() == Install(old(View()), k, l)
      ensures loops == old(loops)[l := Loop(k, Accepting)]
      ensures publishedMap == old(publishedMap)[k := Some(l)]
    {
      publishedMap := publishedMap[k := Some(l)];
      loops := loops[l := Loop(k, Accepting)];
      open := open + {l};
      untouched, undeleted := untouched - {k}, undeleted - {k};
    }

    /** The publish path, branch for branch. */
    method PublishService(k: Key, l: Lid, listens: bool, saves: bool)
      requires NoNil() && !locked && Enabled(View(), Publish(k, l, listens, saves))
      modifies this
      ensures NoNil() && !locked && unlocks == old(unlocks) + 1
      ensures View() == Apply(old(View()), Publish(k, l, listens, saves))
      ensures publishedMap == if k in old(publishedMap) || !listens then old(publishedMap)
                              else old(publishedMap)[k := Some(l)]
      ensures db == old(db) + if k !in old(publishedMap) && listens && saves then {k} else {}
    {
      Lock();
      var exists_ := k in publishedMap;
      if exists_ && publishedMap[k].Some? {
        // already published; reuse
      } else {
        if !listens {
          Unlock();
        } else {
          InstallListener(k, l);
          if saves {
            db := db + {k};
          }
          Unlock();
        }
      }
      if exists_ {
        Unlock();
      }
    }

    /** The deferred cleanup of an accept loop, up to the map delete. */
    method UnmapListener(l: Lid)
      requires NoNil() && !locked && Enabled(View(), Unmap(l))
      modifies this
      ensures NoNil() && !locked && View() == Apply(old(View()), Unmap(l))
      ensures l in old(loops) && publishedMap == old(publishedMap) - {old(loops)[l].key}
    {
      Lock();
      publishedMap := publishedMap - {loops[l].key};
      loops := loops[l := loops[l].(pc := Unmapped)];
      Unlock();
    }

    /** The map lookup of the DELETE handler. */
    method DeleteService(r: Request, k: Key)
      requires NoNil() && !locked && Enabled(View(), Delete(r, k))
      modifies this
      ensures NoNil() && !locked && unlocks == old(unlocks) + 1 && View() == Apply(old(View()), Delete(r, k))
      ensures publishedMap == old(publishedMap) && db == old(db)
      ensures open == if k in publishedMap then old(open) - {publishedMap[k].value} else old(open)
      ensures deleting == if k in publishedMap then old(deleting) else old(deleting)[r := k]
    {
      Lock();
      if k in publishedMap && publishedMap[k].Some? {
        open := open - {publishedMap[k].value};
        Unlock();
        return;
      }
      Unlock();
      deleting := deleting[r := k];
    }

    /** Restore's absence check; the lock is released before listening. */
    method CheckAbsent()
      requires NoNil() && !locked && Enabled(View(), RestoreCheck)
      modifies this`locked, this`unlocks, this`restore
      ensures NoNil() && !locked && unlocks == old(unlocks) + 1 && View() == Apply(old(View()), RestoreCheck)
      ensures var k, rest := old(restore.todo[0]), old(restore.todo[1..]);
              restore == if k in publishedMap then Working(rest) else Checked(k, rest)
      ensures publishedMap == old(publishedMap)
    {
      var k, rest := restore.todo[0], restore.todo[1..];
      Lock();
      if k in publishedMap {
        Unlock();
        restore := Working(rest);
        return;
      }
      Unlock();
      restore := Checked(k, rest);
    }

    /** Restore's insert under a second acquisition of the lock. */
    method InsertRestored(l: Lid)
      requires NoNil() && !locked && Enabled(View(), RestoreInsert(l))
      modifies this`locked, this`unlocks, this`restore, this`publishedMap, this`loops, this`open
      modifies this`untouched, this`undeleted
      ensures NoNil() && !locked && View() == Apply(old(View()), RestoreInsert(l))
      ensures publishedMap == old(publishedMap)[old(restore.key) := Some(l)]
      ensures loops == old(loops)[l := Loop(old(restore.key), Accepting)] && restore == Working(old(restore).todo)
    {
      Lock();
      InstallListener(restore.key, l);
      Unlock();
      restore := Working(restore.todo);
    }

    /** restore moves on to the next key of its list. */
    method SkipKey()
      requires NoNil() && Enabled(View(), RestoreSkip)
      modifies this`restore
      ensures NoNil() && View() == Apply(old(View()), RestoreSkip)
      ensures restore == Working(if old(restore).Working? then old(restore).todo[1..] else old(restore).todo)
    {
      restore := Working(if restore.Working? then restore.todo[1..] else restore.todo);
    }

    /** One turn of restore's loop; `ready` says whether the cluster has an instance with a tailnet connector. */
    method RestoreKey(ready: bool, listens: bool, l: Lid, ghost s0: State, ghost before: seq<Action>)
      returns (ghost acts: seq<Action>)
      requires NoNil() && !locked && IsRun(s0, before) && RunFrom(s0, before) == View()
      requires restore.Working? && restore.todo != [] && l !in loops
      modifies this
      ensures NoNil() && !locked && IsRun(s0, acts) && RunFrom(s0, acts) == View()
      ensures restore == Working(old(restore).todo[1..]) && db == old(db)
      ensures var k := old(restore).todo[0];
              publishedMap == if ready && listens && k !in old(publishedMap) then old(publishedMap)[k := Some(l)]
                              else old(publishedMap)
      ensures loops.Keys <= old(loops).Keys + {l}
    {
      hide Apply, IsRun, RunFrom;
      ghost var s := View();
      CanRestore(s, l);
      if !ready {
        SkipKey();
        acts, s := Follow(s0, before, RestoreSkip, s);
        return;
      }
      ghost var k := restore.todo[0];
      CheckAbsent();
      acts, s := Follow(s0, before, RestoreCheck, s);
      if restore.Working? {
        return;
      }
      CanRestore(s, l);
      if !listens {
        SkipKey();
        acts, s := Follow(s0, acts, RestoreSkip, s);
        return;
      }
      InsertRestored(l);
      acts, s := Follow(s0, acts, RestoreInsert(l), s);
    }

    /**
      The restore at start-up when nobody interferes: a listed key is published
      afterwards if it was before or one of its entries could be listened for, and keys
      that were published keep their listeners.
     */
    method RestoreAll(list: seq<Key>, ready: nat -> bool, listens: nat -> bool, lids: nat -> Lid)
      returns (ghost acts: seq<Action>)
      requires NoNil() && !locked && Enabled(View(), RestoreList(list))
      requires forall i: nat, j: nat :: i != j ==> lids(i) != lids(j)
      requires forall i: nat :: lids(i) !in loops
      modifies this
      ensures NoNil() && !locked && IsRun(old(View()), acts) && RunFrom(old(View()), acts) == View()
      ensures restore == Working([]) && db == old(db)
      ensures forall k :: k in publishedMap <==>
                k in old(publishedMap) || exists i: nat :: i < |list| && list[i] == k && ready(i) && listens(i)
      ensures forall k :: k in old(publishedMap) ==> k in publishedMap && publishedMap[k] == old(publishedMap)[k]
    {
      hide Apply, IsRun, RunFrom;
      ghost var s0 := View();
      EmptyRun(s0);
      StartsRestore(s0, list);
      restore := Working(list);
      ghost var s;
      acts, s := Follow(s0, [], RestoreList(list), s0);
      assert View() == s;
      for i := 0 to |list|
        invariant NoNil() && !locked && IsRun(s0, acts) && RunFrom(s0, acts) == View()
        invariant restore == Working(list[i..]) && db == old(db)
        invariant forall j: nat :: j >= i ==> lids(j) !in loops
        invariant forall k :: k in publishedMap <==>
                    k in old(publishedMap) || exists j: nat :: j < i && list[j] == k && ready(j) && listens(j)
        invariant forall k :: k in old(publishedMap) ==> k in publishedMap && publishedMap[k] == old(publishedMap)[k]
      {
        assert list[i..][0] == list[i] && list[i..][1..] == list[i + 1..];
        acts := RestoreKey(ready(i), listens(i), lids(i), s0, acts);
      }
      assert list[|list|..] == [];
    }
  }

  lemma EmptyRun(s: State)
    ensures IsRun(s, []) && RunFrom(s, []) == s
  {}

  lemma StartsRestore(s: State, list: seq<Key>)
    requires Enabled(s, RestoreList(list))
    ensures Apply(s, RestoreList(list)) == s.(restore := Working(list))
  {}

  lemma CanRestore(s: State, l: Lid)
    ensures s.restore.Working? && s.restore.todo != [] ==> Enabled(s, RestoreCheck) && Enabled(s, RestoreSkip)
    ensures s.restore.Checked? ==> Enabled(s, RestoreSkip) && (l !in s.loops ==> Enabled(s, RestoreInsert(l)))
  {}
}
