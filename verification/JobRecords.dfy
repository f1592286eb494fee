/**
  The life of one job's record (runOne, WithStep, Fail, Cancel, put and persist in
  internal/jobs/runner.go): the record in memory, the write-behind store, and the
  private copy the worker works on.

  By Dispatch.EveryJobInOnePlace at most one Submit call or worker deals with a job
  at any time, so one program counter describes it; Cancel may strike between any
  two of its steps, and holds the lock from its write to the end of its save.  The
  theorems hold after every sequence of enabled actions.
 */
module JobRecords {
  import opened Options

  datatype Status = Queued | Running | Succeeded | Failed | Canceled

  datatype Record = Record(spec: string, status: Status, progress: real, result: string, error: string)

  /** What follows the save in progress. */
  datatype Then = Wait | RunHandler | Finish

  datatype Pc =
    | Recorded                          // Submit has put the record in memory only
    | Waiting                           // persisted; on its way to a worker
    | Loaded(rec: Record)               // the worker has taken its copy
    | Saving(rec: Record, next: Then)   // the copy to be persisted is taken, SaveJob is to come
    | Handling(rec: Record)             // inside the handler
    | Over

  datatype State = State(
    mem: Record,                 // Runner.jobs[id]
    saved: Option<Record>,       // the store's record
    pc: Pc,
    canceled: bool,              // id in Runner.canceled
    versions: seq<Record>,       // every value mem has had
    lost: bool,                  // the most recent SaveJob failed
    edited: bool,                // the handler assigned Status itself
    overtaken: bool)             // the last write to mem was a Cancel between a copy and its SaveJob

  datatype Action =
    | SubmitCopy
    | Load
    | Start
    | Save(ok: bool)
    | Step(progress: real)
    | Fail(error: string)
    | Edit(status: Status, progress: real, result: string, error: string)
    | Return
    | Panic(error: string)
    | Cancel(ok: bool)

  function Init(spec: string): State {
    var rec := Record(spec, Queued, 0.0, "", "");
    State(rec, None, Recorded, false, [rec], false, false, false)
  }

  predicate Enabled(s: State, a: Action) {
    match a
    case SubmitCopy => s.pc.Recorded?
    case Load => s.pc.Waiting?
    case Start => s.pc.Loaded?
    case Save(_) => s.pc.Saving?
    case Cancel(_) => true
    case _ => s.pc.Handling?
  }

  function Replace(s: State, rec: Record): State {
    s.(mem := rec, versions := s.versions + [rec])
  }

  /** persist: a failed SaveJob is ignored. */
  function Persist(s: State, rec: Record, ok: bool): State {
    if ok then s.(saved := Some(rec), lost := false) else s.(lost := true)
  }

  /** put by the worker, which then has to persist the same value. */
  function PutBy(s: State, rec: Record, next: Then): State {
    Replace(s, rec).(pc := Saving(rec, next), overtaken := false)
  }

  function AfterSave(rec: Record, next: Then): Pc {
    match next
    case Wait => Waiting
    case RunHandler => Handling(rec)
    case Finish => Over
  }

  function Apply(s: State, a: Action): State
    requires Enabled(s, a)
  {
    match a
    // Submit persists what its pointer into Runner.jobs shows by now
    case SubmitCopy => s.(pc := Saving(s.mem, Wait), overtaken := false)
    case Load => s.(pc := Loaded(s.mem))
    case Start => PutBy(s, s.pc.rec.(status := Running), RunHandler)
    case Save(ok) => Persist(s, s.pc.rec, ok).(pc := AfterSave(s.pc.rec, s.pc.next))
    case Step(p) => PutBy(s, s.pc.rec.(progress := p), RunHandler)
    case Fail(e) => PutBy(s, s.pc.rec.(status := Failed, error := e), RunHandler)
    case Edit(st, p, r, e) =>
      s.(pc := Handling(s.pc.rec.(status := st, progress := p, result := r, error := e)),
         edited := s.edited || st != s.pc.rec.status)
    case Return =>
      if s.pc.rec.status == Running then PutBy(s, s.pc.rec.(status := Succeeded, progress := 1.0), Finish)
      else s.(pc := Over)
    case Panic(e) => PutBy(s, s.pc.rec.(status := Failed, error := e), Finish)
    case Cancel(ok) =>
      var rec := s.mem.(status := Canceled);
      Persist(Replace(s, rec), rec, ok).(canceled := true, overtaken := s.pc.Saving? && s.pc.rec.status != Canceled)
  }

  predicate IsRun(s: State, acts: seq<Action>)
    decreases |acts|
  {
    acts == [] || (Enabled(s, acts[0]) && IsRun(Apply(s, acts[0]), acts[1..]))
  }

  function RunFrom(s: State, acts: seq<Action>): State
    requires IsRun(s, acts)
    decreases |acts|
  {
    if acts == [] then s else RunFrom(Apply(s, acts[0]), acts[1..])
  }

  // ----------------------------------------------------- memory and the store

  predicate InMemoryIsLast(s: State) {
    s.versions != [] && s.versions[|s.versions| - 1] == s.mem
  }

  /** The worker's copy is the record in memory, as long as nobody canceled. */
  predicate CopyAgrees(s: State) {
    !s.canceled ==> (s.pc.Loaded? || s.pc.Saving? ==> s.pc.rec == s.mem)
  }

  /** The store lags by at most the put that is being saved. */
  predicate StoreAgrees(s: State) {
    !s.canceled && !s.lost ==>
      match s.pc
      case Recorded => s.saved.None? && |s.versions| == 1
      case Saving(_, Wait) => s.saved.None? && |s.versions| == 1
      case Saving(_, _) => |s.versions| >= 2 && s.saved == Some(s.versions[|s.versions| - 2])
      case _ => s.saved == Some(s.mem)
  }

  /** What is stored, and what is being saved, was in memory at some time. */
  predicate StoreIsAVersion(s: State) {
    && (s.saved.Some? ==> s.saved.value in s.versions)
    && (s.pc.Saving? ==> s.pc.rec in s.versions)
  }

  predicate MemoryInv(s: State) {
    InMemoryIsLast(s) && CopyAgrees(s) && StoreAgrees(s) && StoreIsAVersion(s)
  }

  lemma LastStep(s: State, a: Action)
    requires InMemoryIsLast(s) && CopyAgrees(s) && Enabled(s, a)
    ensures InMemoryIsLast(Apply(s, a)) && CopyAgrees(Apply(s, a))
  {}

  lemma StoreStep(s: State, a: Action)
    requires InMemoryIsLast(s) && CopyAgrees(s) && StoreAgrees(s) && Enabled(s, a) && !a.Cancel?
    ensures StoreAgrees(Apply(s, a))
  {}

  lemma CancelIsSeen(s: State, a: Action)
    requires Enabled(s, a) && a.Cancel?
    ensures StoreAgrees(Apply(s, a))
  {}

  lemma VersionStep(s: State, a: Action)
    requires InMemoryIsLast(s) && StoreIsAVersion(s) && Enabled(s, a)
    ensures StoreIsAVersion(Apply(s, a))
  {}

  lemma MemoryStep(s: State, a: Action)
    requires MemoryInv(s) && Enabled(s, a)
    ensures MemoryInv(Apply(s, a))
  {
    hide InMemoryIsLast, CopyAgrees, StoreAgrees, StoreIsAVersion, Apply, Enabled;
    LastStep(s, a);
    VersionStep(s, a);
    if a.Cancel? { CancelIsSeen(s, a); } else { StoreStep(s, a); }
  }

  lemma {:induction false} MemoryInvHolds(s: State, acts: seq<Action>)
    requires MemoryInv(s) && IsRun(s, acts)
    ensures MemoryInv(RunFrom(s, acts))
    decreases |acts|
  {
    hide MemoryInv, Apply, Enabled;
    if acts != [] {
      MemoryStep(s, acts[0]);
      MemoryInvHolds(Apply(s, acts[0]), acts[1..]);
    }
  }

  /** Submit has not saved the record yet. */
  predicate Unsaved(s: State) {
    s.pc.Recorded? || (s.pc.Saving? && s.pc.next.Wait?)
  }

  /**
    What is stored was in memory at some time.  For a job that was never canceled,
    whenever the most recent save went through, the stored record is the one in
    memory or its immediate predecessor, and the two agree when nobody is between a
    put and its persist.  Before Submit's own save nothing is stored.
   */
  lemma WriteBehind(spec: string, acts: seq<Action>)
    requires IsRun(Init(spec), acts)
    ensures var s := RunFrom(Init(spec), acts); s.saved.Some? ==> s.saved.value in s.versions
    ensures var s := RunFrom(Init(spec), acts);
            !s.canceled && !s.lost && Unsaved(s) ==> s.saved.None? && s.versions == [s.mem]
    ensures var s := RunFrom(Init(spec), acts);
            !s.canceled && !s.lost && !Unsaved(s) ==>
              && s.saved.Some?
              && (s.saved.value == s.mem || (|s.versions| >= 2 && s.saved.value == s.versions[|s.versions| - 2]))
              && s.versions != [] && s.versions[|s.versions| - 1] == s.mem
              && (!s.pc.Saving? ==> s.saved.value == s.mem)
  {
    MemoryInvHolds(Init(spec), acts);
  }

  // --------------------------------------------- memory and the store with Cancel

  /** A Cancel during a save shows in memory only; the save that follows puts the older copy in the store. */
  predicate CancelInv(s: State) {
    match s.pc
    case Recorded => !s.overtaken
    case Saving(r, _) =>
      && s.mem == (if s.overtaken then r.(status := Canceled) else r)
      && (s.overtaken ==> r.status != Canceled)
    case _ => !s.lost ==> AgreeUnlessOvertaken(s)
  }

  predicate AgreeUnlessOvertaken(s: State) {
    && s.saved.Some?
    && (if s.overtaken then s.saved.value.status != Canceled && s.mem == s.saved.value.(status := Canceled)
        else s.saved.value == s.mem)
  }

  lemma CancelStep(s: State, a: Action)
    requires CancelInv(s) && Enabled(s, a)
    ensures CancelInv(Apply(s, a))
  {}

  lemma {:induction false} CancelInvHolds(s: State, acts: seq<Action>)
    requires CancelInv(s) && IsRun(s, acts)
    ensures CancelInv(RunFrom(s, acts))
    decreases |acts|
  {
    hide CancelInv, Apply, Enabled;
    if acts != [] {
      CancelStep(s, acts[0]);
      CancelInvHolds(Apply(s, acts[0]), acts[1..]);
    }
  }

  /**
    With cancellations: outside a save, and with the most recent save gone through,
    store and memory agree if and only if the last write to memory was not a Cancel
    that fell between the taking of a copy, by Submit or by a put of the worker, and
    the SaveJob of that copy.  If it was, the store holds the copy and memory the same
    record marked Canceled.
   */
  lemma StoreAgreesUnlessOvertaken(spec: string, acts: seq<Action>)
    requires IsRun(Init(spec), acts)
    ensures var s := RunFrom(Init(spec), acts);
            !s.lost && !s.pc.Recorded? && !s.pc.Saving? ==>
              && s.saved.Some?
              && (s.saved.value == s.mem <==> !s.overtaken)
              && (s.overtaken ==> s.mem == s.saved.value.(status := Canceled))
  {
    CancelInvHolds(Init(spec), acts);
  }

  /** A run, all saves going through, after which memory says Canceled and the store Failed for good. */
  lemma StoreDiverges(spec: string)
    ensures var acts := [SubmitCopy, Save(true), Load, Start, Save(true), Fail("e"), Cancel(true), Save(true), Return];
            && IsRun(Init(spec), acts)
            && var s := RunFrom(Init(spec), acts);
               s.pc.Over? && !s.lost && s.mem.status == Canceled && s.saved.Some? && s.saved.value.status == Failed
  {
    var s0 := Init(spec);
    assert IsRun(s0, []) && RunFrom(s0, []) == s0;
    hide IsRun, RunFrom;
    var r1, s1 := Follow(s0, [], SubmitCopy, s0);
    var r2, s2 := Follow(s0, r1, Save(true), s1);
    var r3, s3 := Follow(s0, r2, Load, s2);
    var r4, s4 := Follow(s0, r3, Start, s3);
    var r5, s5 := Follow(s0, r4, Save(true), s4);
    var r6, s6 := Follow(s0, r5, Fail("e"), s5);
    var r7, s7 := Follow(s0, r6, Cancel(true), s6);
    var r8, s8 := Follow(s0, r7, Save(true), s7);
    var r9, s9 := Follow(s0, r8, Return, s8);
    assert r9 == [SubmitCopy, Save(true), Load, Start, Save(true), Fail("e"), Cancel(true), Save(true), Return];
  }

  /** The same while Submit saves its record: the job waits, Canceled in memory and Queued in the store. */
  lemma SubmitSaveDiverges(spec: string)
    ensures var acts := [SubmitCopy, Cancel(true), Save(true)];
            && IsRun(Init(spec), acts)
            && var s := RunFrom(Init(spec), acts);
               s.pc.Waiting? && !s.lost && s.mem.status == Canceled && s.saved.Some? && s.saved.value.status == Queued
  {
    var s0 := Init(spec);
    assert IsRun(s0, []) && RunFrom(s0, []) == s0;
    hide IsRun, RunFrom;
    var r1, s1 := Follow(s0, [], SubmitCopy, s0);
    var r2, s2 := Follow(s0, r1, Cancel(true), s1);
    var r3, s3 := Follow(s0, r2, Save(true), s2);
    assert r3 == [SubmitCopy, Cancel(true), Save(true)];
  }

  /** One more step of a run that ends in the given state. */
  lemma {:induction false} Follow(s: State, acts: seq<Action>, a: Action, end: State)
    returns (acts': seq<Action>, t: State)
    requires IsRun(s, acts) && RunFrom(s, acts) == end && Enabled(end, a)
    ensures acts' == acts + [a] && t == Apply(end, a)
    ensures IsRun(s, acts') && RunFrom(s, acts') == t
    decreases |acts|
  {
    hide Enabled, Apply;
    acts', t := acts + [a], Apply(end, a);
    if acts == [] {
      assert ([] + [a])[1..] == [] && ([] + [a])[0] == a;
      assert IsRun(t, []);
    } else {
      assert (acts + [a])[0] == acts[0] && (acts + [a])[1..] == acts[1..] + [a];
      var _, _ := Follow(Apply(s, acts[0]), acts[1..], a, end);
    }
  }

  ghost predicate SpecKept(spec: string, s: State) {
    && s.versions != [] && s.versions[0] == Record(spec, Queued, 0.0, "", "")
    && (forall i :: 0 <= i < |s.versions| ==> s.versions[i].spec == spec)
    && s.mem.spec == spec
    && (s.pc.Loaded? || s.pc.Saving? || s.pc.Handling? ==> s.pc.rec.spec == spec)
  }

  lemma SpecStep(spec: string, s: State, a: Action)
    requires SpecKept(spec, s) && Enabled(s, a)
    ensures SpecKept(spec, Apply(s, a))
  {}

  lemma {:induction false} SpecHolds(spec: string, s: State, acts: seq<Action>)
    requires SpecKept(spec, s) && IsRun(s, acts)
    ensures SpecKept(spec, RunFrom(s, acts))
    decreases |acts|
  {
    hide SpecKept, Enabled, Apply;
    if acts != [] {
      SpecStep(spec, s, acts[0]);
      SpecHolds(spec, Apply(s, acts[0]), acts[1..]);
    }
  }

  /** A job starts queued, without progress, result or error, and keeps the spec it was submitted with. */
  lemma SpecIsKept(spec: string, acts: seq<Action>)
    requires IsRun(Init(spec), acts)
    ensures var s := RunFrom(Init(spec), acts);
            && s.versions != [] && s.versions[0] == Record(spec, Queued, 0.0, "", "")
            && forall i :: 0 <= i < |s.versions| ==> s.versions[i].spec == spec
  {
    SpecHolds(spec, Init(spec), acts);
  }

  // ---------------------------------------------------------------- lifecycle

  predicate Allowed(a: Status, b: Status) {
    match a
    case Queued => b.Running?
    case Running => b.Running? || b.Failed? || b.Succeeded?
    case Failed => b.Failed?
    case _ => false
  }

  ghost predicate Lifecycle(v: seq<Record>) {
    && v != [] && v[0].status == Queued
    && (forall i :: 0 < i < |v| ==> Allowed(v[i - 1].status, v[i].status))
    && (forall i :: 0 <= i < |v| && v[i].status == Succeeded ==> v[i].progress == 1.0)
  }

  /** Which statuses the record can have at each point of an undisturbed run. */
  predicate StatusFits(s: State) {
    match s.pc
    case Recorded => s.mem.status == Queued
    case Waiting => s.mem.status == Queued
    case Loaded(r) => s.mem.status == Queued && r == s.mem
    case Saving(r, Wait) => r == s.mem && r.status == Queued
    case Saving(r, RunHandler) => r == s.mem && (r.status == Running || r.status == Failed)
    case Saving(r, Finish) => r == s.mem && (r.status == Succeeded || r.status == Failed)
    case Handling(r) => r.status == s.mem.status && (r.status == Running || r.status == Failed)
    case Over => s.mem.status == Succeeded || s.mem.status == Failed
  }

  ghost predicate LifecycleInv(s: State) {
    InMemoryIsLast(s) && (!s.canceled && !s.edited ==> StatusFits(s) && Lifecycle(s.versions))
  }

  lemma Extend(v: seq<Record>, r: Record)
    requires Lifecycle(v) && Allowed(v[|v| - 1].status, r.status) && (r.status == Succeeded ==> r.progress == 1.0)
    ensures Lifecycle(v + [r])
  {}

  lemma LifecycleStep(s: State, a: Action)
    requires LifecycleInv(s) && Enabled(s, a)
    ensures LifecycleInv(Apply(s, a))
  {
    hide Lifecycle;
    var t := Apply(s, a);
    if !t.canceled && !t.edited && t.versions != s.versions {
      assert t.versions == s.versions + [t.mem];
      Extend(s.versions, t.mem);
    }
  }

  lemma {:induction false} LifecycleInvHolds(s: State, acts: seq<Action>)
    requires LifecycleInv(s) && IsRun(s, acts)
    ensures LifecycleInv(RunFrom(s, acts))
    decreases |acts|
  {
    hide LifecycleInv, Apply, Enabled;
    if acts != [] {
      LifecycleStep(s, acts[0]);
      LifecycleInvHolds(Apply(s, acts[0]), acts[1..]);
    }
  }

  /**
    For a job never canceled whose handler leaves Status alone, the versions of the
    record go Queued, Running, then Succeeded or Failed; Succeeded is last and comes
    with progress 1, and after Failed only Failed follows.
   */
  lemma StatusLifecycle(spec: string, acts: seq<Action>)
    requires IsRun(Init(spec), acts)
    ensures var s := RunFrom(Init(spec), acts);
            !s.canceled && !s.edited ==>
              && Lifecycle(s.versions)
              && s.mem == s.versions[|s.versions| - 1]
              && (forall i :: 0 <= i < |s.versions| && s.versions[i].status == Succeeded ==> i == |s.versions| - 1)
              && (forall i :: 0 <= i < |s.versions| && s.versions[i].status == Failed ==> s.mem.status == Failed)
              && (s.pc.Over? ==> s.mem.status == Succeeded || s.mem.status == Failed)
  {
    var s0 := Init(spec);
    assert LifecycleInv(s0);
    LifecycleInvHolds(s0, acts);
    var s := RunFrom(s0, acts);
    if !s.canceled && !s.edited {
      forall i | 0 <= i < |s.versions| && s.versions[i].status == Succeeded ensures i == |s.versions| - 1 {
        if i + 1 < |s.versions| { SucceededIsLast(s.versions, i); }
      }
      forall i | 0 <= i < |s.versions| && s.versions[i].status == Failed ensures s.mem.status == Failed {
        FailedStays(s.versions, i, |s.versions| - 1);
      }
    }
  }

  lemma SucceededIsLast(v: seq<Record>, i: nat)
    requires Lifecycle(v) && i + 1 < |v|
    ensures v[i].status != Succeeded
  {
    assert Allowed(v[i + 1 - 1].status, v[i + 1].status);
  }

  lemma {:induction false} FailedStays(v: seq<Record>, i: nat, j: nat)
    requires Lifecycle(v) && i <= j < |v| && v[i].status == Failed
    ensures v[j].status == Failed
  {
    if i < j { FailedStays(v, i, j - 1); }
  }

  // ------------------------------------------------------- Cancel is advisory

  predicate IsPut(s: State, a: Action)
    requires Enabled(s, a)
  {
    a.Start? || a.Step? || a.Fail? || a.Panic? || (a.Return? && s.pc.rec.status == Running)
  }

  predicate CopyNotCanceled(s: State) {
    !s.edited && (s.pc.Handling? || (s.pc.Saving? && !s.pc.next.Wait?)) ==> s.pc.rec.status != Canceled
  }

  lemma {:induction false} CopyNotCanceledHolds(s: State, acts: seq<Action>)
    requires CopyNotCanceled(s) && IsRun(s, acts)
    ensures CopyNotCanceled(RunFrom(s, acts))
    decreases |acts|
  {
    if acts != [] { CopyNotCanceledHolds(Apply(s, acts[0]), acts[1..]); }
  }

  /**
    Cancel marks the record, but workers run on their own copies: the mark lasts
    exactly until the worker's next put.  In particular a job canceled before it
    starts runs all the same.
   */
  lemma CancelLastsUntilNextPut(spec: string, acts: seq<Action>, a: Action)
    requires IsRun(Init(spec), acts) && Enabled(RunFrom(Init(spec), acts), a)
    requires !RunFrom(Init(spec), acts).edited
    ensures var s := RunFrom(Init(spec), acts);
            s.mem.status == Canceled ==> (Apply(s, a).mem.status == Canceled <==> !IsPut(s, a))
  {
    CopyNotCanceledHolds(Init(spec), acts);
  }

  /** A run in which a job is canceled while it waits and is run all the same. */
  lemma CanceledJobRuns(spec: string)
    ensures var acts := [SubmitCopy, Save(true), Cancel(true), Load, Start];
            && IsRun(Init(spec), acts)
            && var s := RunFrom(Init(spec), acts); s.canceled && s.mem.status == Running
  {
    var s0 := Init(spec);
    assert IsRun(s0, []) && RunFrom(s0, []) == s0;
    hide IsRun, RunFrom;
    var r1, s1 := Follow(s0, [], SubmitCopy, s0);
    var r2, s2 := Follow(s0, r1, Save(true), s1);
    var r3, s3 := Follow(s0, r2, Cancel(true), s2);
    var r4, s4 := Follow(s0, r3, Load, s3);
    var r5, s5 := Follow(s0, r4, Start, s4);
    assert r5 == [SubmitCopy, Save(true), Cancel(true), Load, Start];
  }

  // ------------------------------------------------------------- the runner

  /** What a handler does between entry and exit; `saved` says whether the SaveJob of a call goes through. */
  datatype HandlerOp =
    | DoStep(progress: real, saved: bool)
    | DoFail(error: string, saved: bool)
    | DoEdit(status: Status, progress: real, result: string, error: string)

  /** How the handler ends, and whether the save after it, if there is one, goes through. */
  datatype End = Returns(saved: bool) | Panics(error: string, saved: bool)

  function AfterOp(s: State, op: HandlerOp): (t: State)
    requires s.pc.Handling?
    ensures t.pc.Handling?
  {
    match op
    case DoStep(p, saved) => Apply(Apply(s, Step(p)), Save(saved))
    case DoFail(e, saved) => Apply(Apply(s, Fail(e)), Save(saved))
    case DoEdit(st, p, r, e) => Apply(s, Edit(st, p, r, e))
  }

  function AfterScript(s: State, script: seq<HandlerOp>): (t: State)
    requires s.pc.Handling?
    ensures t.pc.Handling?
  {
    if script == [] then s else AfterOp(AfterScript(s, script[..|script| - 1]), script[|script| - 1])
  }

  function AfterEnd(s: State, end: End): (t: State)
    requires s.pc.Handling?
    ensures t.pc.Over?
  {
    match end
    case Returns(saved) =>
      var t := Apply(s, Return);
      if t.pc.Over? then t else Apply(t, Save(saved))
    case Panics(e, saved) => Apply(Apply(s, Panic(e)), Save(saved))
  }

  /** A whole runOne, from the loaded copy to the end of the run. */
  function AfterRun(s: State, started: bool, script: seq<HandlerOp>, end: End): (t: State)
    requires s.pc.Loaded?
    ensures t.pc.Over?
  {
    AfterEnd(AfterScript(Apply(Apply(s, Start), Save(started)), script), end)
  }

  /** What runOne does is a run of the machine, so the theorems above hold at its end. */
  lemma {:induction false} ScriptIsRun(s: State, script: seq<HandlerOp>) returns (acts: seq<Action>)
    requires s.pc.Handling?
    ensures IsRun(s, acts) && RunFrom(s, acts) == AfterScript(s, script)
  {
    if script == [] {
      acts := [];
    } else {
      acts := ScriptIsRun(s, script[..|script| - 1]);
      var t := AfterScript(s, script[..|script| - 1]);
      acts := OpIsRun(s, acts, t, script[|script| - 1]);
    }
  }

  lemma OpIsRun(s: State, before: seq<Action>, t: State, op: HandlerOp) returns (acts: seq<Action>)
    requires IsRun(s, before) && RunFrom(s, before) == t && t.pc.Handling?
    ensures IsRun(s, acts) && RunFrom(s, acts) == AfterOp(t, op)
  {
    hide IsRun, RunFrom;
    var u;
    match op
    case DoStep(p, saved) =>
      acts, u := Follow(s, before, Step(p), t);
      acts, u := Follow(s, acts, Save(saved), u);
    case DoFail(e, saved) =>
      acts, u := Follow(s, before, Fail(e), t);
      acts, u := Follow(s, acts, Save(saved), u);
    case DoEdit(st, p, r, e) =>
      acts, u := Follow(s, before, Edit(st, p, r, e), t);
  }

  lemma EndIsRun(s: State, before: seq<Action>, t: State, end: End) returns (acts: seq<Action>)
    requires IsRun(s, before) && RunFrom(s, before) == t && t.pc.Handling?
    ensures IsRun(s, acts) && RunFrom(s, acts) == AfterEnd(t, end)
  {
    hide IsRun, RunFrom;
    var u;
    match end
    case Returns(saved) =>
      acts, u := Follow(s, before, Return, t);
      if !u.pc.Over? { acts, u := Follow(s, acts, Save(saved), u); }
    case Panics(e, saved) =>
      acts, u := Follow(s, before, Panic(e), t);
      acts, u := Follow(s, acts, Save(saved), u);
  }

  lemma RunOneIsRun(s: State, started: bool, script: seq<HandlerOp>, end: End) returns (acts: seq<Action>)
    requires s.pc.Loaded?
    ensures IsRun(s, acts) && RunFrom(s, acts) == AfterRun(s, started, script, end)
  {
    assert IsRun(s, []) && RunFrom(s, []) == s;
    var first, t := Follow(s, [], Start, s);
    first, t := Follow(s, first, Save(started), t);
    var middle := ScriptIsRun(t, script);
    Concatenate(s, first, middle);
    acts := EndIsRun(s, first + middle, AfterScript(t, script), end);
  }

  lemma {:induction false} Concatenate(s: State, a: seq<Action>, b: seq<Action>)
    requires IsRun(s, a) && IsRun(RunFrom(s, a), b)
    ensures IsRun(s, a + b) && RunFrom(s, a + b) == RunFrom(RunFrom(s, a), b)
    decreases |a|
  {
    hide Enabled, Apply;
    if a == [] {
      assert [] + b == b;
    } else {
      assert (a + b)[0] == a[0] && (a + b)[1..] == a[1..] + b;
      Concatenate(Apply(s, a[0]), a[1..], b);
    }
  }

  // ----------------------------------------------------- what a run leaves behind

  /** The handler assigns no field itself. */
  predicate NoEdits(script: seq<HandlerOp>) {
    forall i :: 0 <= i < |script| ==> !script[i].DoEdit?
  }

  /** The error of the last Fail, and the progress of the last WithStep. */
  function LastError(script: seq<HandlerOp>): Option<string> {
    if script == [] then None
    else if script[|script| - 1].DoFail? then Some(script[|script| - 1].error)
    else LastError(script[..|script| - 1])
  }

  function LastProgress(script: seq<HandlerOp>): Option<real> {
    if script == [] then None
    else if script[|script| - 1].DoStep? then Some(script[|script| - 1].progress)
    else LastProgress(script[..|script| - 1])
  }

  predicate RecordAfter(rec: Record, script: seq<HandlerOp>, t: State)
    requires t.pc.Handling?
  {
    && t.mem == t.pc.rec && t.mem.spec == rec.spec && t.mem.result == rec.result
    && t.mem.status == (if LastError(script).Some? then Failed else rec.status)
    && t.mem.error == (if LastError(script).Some? then LastError(script).value else rec.error)
    && t.mem.progress == (if LastProgress(script).Some? then LastProgress(script).value else rec.progress)
  }

  lemma {:induction false} ScriptOutcome(s: State, script: seq<HandlerOp>)
    requires s.pc == Handling(s.mem) && NoEdits(script)
    ensures RecordAfter(s.mem, script, AfterScript(s, script))
  {
    hide AfterOp;
    if script != [] {
      var init, op := script[..|script| - 1], script[|script| - 1];
      ScriptOutcome(s, init);
      OpOutcome(AfterScript(s, init), op);
    }
  }

  /** One call of the handler, seen on the record it shares with memory. */
  lemma OpOutcome(s: State, op: HandlerOp)
    requires s.pc == Handling(s.mem) && !op.DoEdit?
    ensures var t := AfterOp(s, op);
            && t.pc == Handling(t.mem)
            && t.mem == if op.DoStep? then s.mem.(progress := op.progress)
                        else s.mem.(status := Failed, error := op.error)
  {
    match op
    case DoStep(p, _) =>
      var u := Apply(s, Step(p));
      assert u.mem == s.mem.(progress := p) && u.pc == Saving(u.mem, RunHandler);
    case DoFail(e, _) =>
      var u := Apply(s, Fail(e));
      assert u.mem == s.mem.(status := Failed, error := e) && u.pc == Saving(u.mem, RunHandler);
  }

  /**
    What runOne leaves in memory after a handler that assigns no field itself: a panic
    fails the job with its message; else the last Fail does, and without one the job
    has succeeded, with progress 1.  Spec and result are those that were loaded.
   */
  lemma RunOutcome(s: State, started: bool, script: seq<HandlerOp>, end: End)
    requires s.pc.Loaded? && NoEdits(script)
    ensures var copy, rec := s.pc.rec, AfterRun(s, started, script, end).mem;
            var step := if LastProgress(script).Some? then LastProgress(script).value else copy.progress;
            match (end, LastError(script))
            case (Panics(e, _), _) => rec == Record(copy.spec, Failed, step, copy.result, e)
            case (Returns(_), Some(e)) => rec == Record(copy.spec, Failed, step, copy.result, e)
            case (Returns(_), None) => rec == Record(copy.spec, Succeeded, 1.0, copy.result, copy.error)
  {
    ScriptOutcome(Apply(Apply(s, Start), Save(started)), script);
  }

  /** A record that only the store knows, loaded by a worker. */
  function FromStore(rec: Record): State {
    State(rec, Some(rec), Loaded(rec), false, [rec], false, false, false)
  }

  class Runner {
    var jobs: map<string, Record>
    var canceled: set<string>
    var store: map<string, Record>

    function Saved(id: string): Option<Record>
      reads this
    {
      if id in store then Some(store[id]) else None
    }

    /** The heap holds what the machine state says about the job. */
    predicate Shows(id: string, s: State)
      reads this
    {
      id in jobs && jobs[id] == s.mem && Saved(id) == s.saved
    }

    method Put(id: string, rec: Record)
      modifies this`jobs
      ensures jobs == old(jobs)[id := rec]
    {
      jobs := jobs[id := rec];
    }

    /** SaveJob either goes through or fails; a failure is ignored. */
    method Persist(id: string, rec: Record, ok: bool)
      modifies this`store
      ensures store == if ok then old(store)[id := rec] else old(store)
    {
      if ok {
        store := store[id := rec];
      }
    }

    /** The record in memory, else the stored one; a GetJob that fails finds nothing. */
    method Get(id: string, readable: bool) returns (r: Option<Record>)
      ensures r == if id in jobs then Some(jobs[id]) else if readable then Saved(id) else None
    {
      if id in jobs {
        return Some(jobs[id]);
      }
      if readable {
        return Saved(id);
      }
      return None;
    }

    method CancelJob(id: string, ok: bool, ghost s: State)
      requires id in jobs ==> Shows(id, s)
      modifies this
      ensures canceled == old(canceled) + {id}
      ensures id in old(jobs) ==> Shows(id, Apply(s, Cancel(ok)))
      ensures id in old(jobs) ==>
                && id in jobs && jobs[id] == old(jobs)[id].(status := Canceled)
                && Saved(id) == if ok then Some(jobs[id]) else old(Saved(id))
      ensures id !in old(jobs) ==> jobs == old(jobs) && store == old(store)
      ensures jobs - {id} == old(jobs) - {id} && store - {id} == old(store) - {id}
    {
      canceled := canceled + {id};
      if id in jobs {
        var rec := jobs[id].(status := Canceled);
        Put(id, rec);
        Persist(id, rec, ok);
      }
    }

    /** put followed by persist. */
    method Write(id: string, rec: Record, ok: bool)
      modifies this`jobs, this`store
      ensures jobs == old(jobs)[id := rec]
      ensures store == if ok then old(store)[id := rec] else old(store)
    {
      Put(id, rec);
      Persist(id, rec, ok);
    }

    /** One call the handler makes on its record. */
    method HandlerCall(id: string, rec: Record, op: HandlerOp, ghost s: State) returns (rec': Record)
      requires s.pc == Handling(rec) && Shows(id, s)
      modifies this`jobs, this`store
      ensures Shows(id, AfterOp(s, op)) && AfterOp(s, op).pc == Handling(rec')
      ensures match op
              case DoStep(p, _) => rec' == rec.(progress := p)
              case DoFail(e, _) => rec' == rec.(status := Failed, error := e)
              case DoEdit(st, p, r, e) => rec' == Record(rec.spec, st, p, r, e)
      ensures id in jobs && jobs[id] == if op.DoEdit? then old(jobs)[id] else rec'
      ensures Saved(id) == if !op.DoEdit? && op.saved then Some(rec') else old(Saved(id))
      ensures jobs - {id} == old(jobs) - {id} && store - {id} == old(store) - {id}
    {
      match op {
        case DoStep(p, saved) =>
          rec' := rec.(progress := p);
          Write(id, rec', saved);
        case DoFail(e, saved) =>
          rec' := rec.(status := Failed, error := e);
          Write(id, rec', saved);
        case DoEdit(st, p, r, e) =>
          rec' := rec.(status := st, progress := p, result := r, error := e);
      }
    }

    /** The part of runOne after the handler, with the deferred recover. */
    method EndRun(id: string, rec: Record, end: End, ghost s: State)
      requires s.pc == Handling(rec) && Shows(id, s)
      modifies this`jobs, this`store
      ensures Shows(id, AfterEnd(s, end))
      ensures end.Panics? ==> id in jobs && jobs[id] == rec.(status := Failed, error := end.error)
      ensures end.Returns? ==>
                id in jobs && jobs[id] == if rec.status != Running then old(jobs)[id]
                                          else rec.(status := Succeeded, progress := 1.0)
      ensures jobs - {id} == old(jobs) - {id} && store - {id} == old(store) - {id}
    {
      match end {
        case Returns(saved) =>
          if rec.status == Running {
            Write(id, rec.(status := Succeeded, progress := 1.0), saved);
          }
        case Panics(e, saved) =>
          Write(id, rec.(status := Failed, error := e), saved);
      }
    }

    /**
      runOne on the given copy, for a handler that makes the given calls and then
      returns or panics, each save going through or not: a run of the machine, with
      memory and store as it says, and no other job's record touched.
     */
    method RunOne(id: string, copy: Record, started: bool, script: seq<HandlerOp>, end: End, ghost s: State)
      returns (ghost acts: seq<Action>)
      requires s.pc == Loaded(copy) && Saved(id) == s.saved && (id in jobs ==> jobs[id] == s.mem)
      modifies this`jobs, this`store
      ensures IsRun(s, acts) && Shows(id, RunFrom(s, acts)) && RunFrom(s, acts).pc.Over?
      ensures RunFrom(s, acts) == AfterRun(s, started, script, end)
      ensures jobs - {id} == old(jobs) - {id} && store - {id} == old(store) - {id}
    {
      var rec := copy.(status := Running);
      Write(id, rec, started);
      ghost var start := Apply(Apply(s, Start), Save(started));
      assert Shows(id, start) && start.pc == Handling(rec);
      hide Apply, Shows, IsRun, RunFrom;
      assert script[..0] == [];
      for i := 0 to |script|
        invariant Shows(id, AfterScript(start, script[..i]))
        invariant AfterScript(start, script[..i]).pc == Handling(rec)
        invariant jobs - {id} == old(jobs) - {id} && store - {id} == old(store) - {id}
      {
        assert script[..i + 1][..i] == script[..i] && script[..i + 1][i] == script[i];
        rec := HandlerCall(id, rec, script[i], AfterScript(start, script[..i]));
      }
      assert script[..|script|] == script;
      EndRun(id, rec, end, AfterScript(start, script));
      acts := RunOneIsRun(s, started, script, end);
    }

    /**
      One turn of the worker loop on an id: Get, and runOne on the copy.  For a job in
      memory it is a run of the machine from where the job waits, Load first, so what
      is run is the record in memory even where the store differs.  A job that only
      the store knows is run as stored, and an id that Get does not find is skipped.
     */
    method Serve(id: string, readable: bool, started: bool, script: seq<HandlerOp>, end: End, ghost s: State)
      returns (ghost acts: seq<Action>)
      requires id in jobs ==> s.pc.Waiting? && Shows(id, s)
      modifies this`jobs, this`store
      ensures id in old(jobs) ==>
                && IsRun(Apply(s, Load), acts) && Shows(id, RunFrom(Apply(s, Load), acts))
                && RunFrom(Apply(s, Load), acts) == AfterRun(Apply(s, Load), started, script, end)
      ensures id !in old(jobs) && id in old(store) && readable ==>
                && var s0 := FromStore(old(store)[id]);
                && IsRun(s0, acts) && Shows(id, RunFrom(s0, acts))
                && RunFrom(s0, acts) == AfterRun(s0, started, script, end)
      ensures id !in old(jobs) && (id !in old(store) || !readable) ==> jobs == old(jobs) && store == old(store)
      ensures jobs - {id} == old(jobs) - {id} && store - {id} == old(store) - {id}
    {
      hide AfterRun, IsRun, RunFrom;
      var r := Get(id, readable);
      acts := [];
      if r.Some? {
        ghost var s0 := if id in jobs then Apply(s, Load) else FromStore(r.value);
        acts := RunOne(id, r.value, started, script, end, s0);
      }
    }
  }
}
