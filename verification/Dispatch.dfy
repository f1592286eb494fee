/**
  Job dispatch (Submit, ensureQueue and worker in internal/jobs/runner.go): every
  Submit call records a job, spawns one worker goroutine for the job's kind and
  then sends the id to that kind's queue; every worker receives ids for ever.

  An action is one atomic section of one goroutine.  The theorems hold after every
  sequence of enabled actions; a handler that never returns is a worker whose
  Leave never comes, and a panicking handler still leaves (runOne recovers).
 */
module Dispatch {

  // Ids (uuids) and kinds are only compared for equality.
  type Id(==, !new)
  type Kind(==, !new)

  const QUEUE_CAP := 64

  /** How far a Submit call has come: recorded, persisted, worker spawned, id sent. */
  datatype Submit = Recorded | Saved | Spawned | Returned

  datatype Slot = Waiting | Received(job: Id) | Running(job: Id)

  /** A worker is named by the id of the Submit call that spawned it. */
  datatype Worker = Worker(kind: Kind, slot: Slot)

  /** Where a job is; only recorded, no action reads it. */
  datatype Stage = Submitting | Enqueued | Held(w: Id) | Done

  datatype State = State(
    kinds: map<Id, Kind>,          // the keys and kinds of Runner.jobs
    queues: map<Kind, seq<Id>>,    // Runner.queues
    submits: map<Id, Submit>,
    workers: map<Id, Worker>,
    runs: seq<Id>,                 // the runOne calls made so far
    stage: map<Id, Stage>)

  datatype Action =
    | Record(id: Id, kind: Kind)
    | Persist(id: Id)
    | Spawn(id: Id)
    | Enqueue(id: Id)
    | Receive(w: Id)
    | Enter(w: Id)
    | Leave(w: Id)

  const INIT := State(map[], map[], map[], map[], [], map[])

  function QueueOf(s: State, k: Kind): seq<Id> {
    if k in s.queues then s.queues[k] else []
  }

  predicate Enabled(s: State, a: Action) {
    match a
    case Record(id, _) => id !in s.kinds
    case Persist(id) => id in s.submits && s.submits[id].Recorded?
    case Spawn(id) => id in s.submits && id in s.kinds && s.submits[id].Saved?
    case Enqueue(id) =>
      id in s.submits && id in s.kinds && s.submits[id].Spawned? && |QueueOf(s, s.kinds[id])| < QUEUE_CAP
    case Receive(w) => w in s.workers && s.workers[w].slot.Waiting? && QueueOf(s, s.workers[w].kind) != []
    case Enter(w) => w in s.workers && s.workers[w].slot.Received?
    case Leave(w) => w in s.workers && s.workers[w].slot.Running?
  }

  function Goto(s: State, w: Id, slot: Slot): map<Id, Worker>
    requires w in s.workers
  {
    s.workers[w := s.workers[w].(slot := slot)]
  }

  function Apply(s: State, a: Action): State
    requires Enabled(s, a)
  {
    match a
    case Record(id, k) =>
      s.(kinds := s.kinds[id := k], queues := s.queues[k := QueueOf(s, k)],
         submits := s.submits[id := Recorded], stage := s.stage[id := Submitting])
    case Persist(id) => s.(submits := s.submits[id := Saved])
    case Spawn(id) => s.(submits := s.submits[id := Spawned], workers := s.workers[id := Worker(s.kinds[id], Waiting)])
    case Enqueue(id) =>
      var k := s.kinds[id];
      s.(submits := s.submits[id := Returned],
         queues := s.queues[k := QueueOf(s, k) + [id]], stage := s.stage[id := Enqueued])
    case Receive(w) =>
      var k := s.workers[w].kind;
      var id := QueueOf(s, k)[0];
      s.(queues := s.queues[k := QueueOf(s, k)[1..]],
         workers := Goto(s, w, Received(id)), stage := s.stage[id := Held(w)])
    case Enter(w) =>
      // a record that Get does not find is skipped
      var id := s.workers[w].slot.job;
      if id in s.kinds then s.(workers := Goto(s, w, Running(id)), runs := s.runs + [id])
      else s.(workers := Goto(s, w, Waiting))
    case Leave(w) =>
      s.(workers := Goto(s, w, Waiting), stage := s.stage[s.workers[w].slot.job := Done])
  }

  // ----------------------------------------------------------------------- runs

  predicate IsRun(s: State, acts: seq<Action>)
    decreases |acts|
  {
    acts == [] || (Enabled(s, acts[0]) && IsRun(Apply(s, acts[0]), acts[1..]))
  }

  function RunFrom(s: State, acts: seq<Action>): State
    requires IsRun(s, acts)
    decreases |acts|
  {
    if acts == [] then s else RunFrom(Apply(s, acts[0]), acts[1..])
  }

  lemma EmptyRun(s: State)
    ensures IsRun(s, []) && RunFrom(s, []) == s
  {}

  lemma {:induction false} Extend(s: State, acts: seq<Action>, a: Action, t: State)
    requires IsRun(s, acts) && Enabled(RunFrom(s, acts), a) && Apply(RunFrom(s, acts), a) == t
    ensures IsRun(s, acts + [a]) && RunFrom(s, acts + [a]) == t
    decreases |acts|
  {
    hide Enabled, Apply;
    if acts == [] {
      assert ([] + [a])[1..] == [] && ([] + [a])[0] == a;
      assert IsRun(t, []);
    } else {
      assert (acts + [a])[0] == acts[0] && (acts + [a])[1..] == acts[1..] + [a];
      Extend(Apply(s, acts[0]), acts[1..], a, t);
    }
  }

  /** One more step of a run that ends in the given state. */
  lemma Follow(s: State, acts: seq<Action>, a: Action, end: State) returns (acts': seq<Action>, t: State)
    requires IsRun(s, acts) && RunFrom(s, acts) == end && Enabled(end, a)
    ensures acts' == acts + [a] && t == Apply(end, a) && IsRun(s, acts') && RunFrom(s, acts') == t
  {
    acts', t := acts + [a], Apply(end, a);
    Extend(s, acts, a, t);
  }

  // ------------------------------------------------------------------ invariant

  predicate Holds(s: State, w: Id, id: Id) {
    w in s.workers && !s.workers[w].slot.Waiting? && s.workers[w].slot.job == id
  }

  ghost predicate Distinct(q: seq<Id>) {
    forall i, j :: 0 <= i < j < |q| ==> q[i] != q[j]
  }

  ghost predicate Tables(s: State) {
    s.submits.Keys == s.kinds.Keys == s.stage.Keys && s.workers.Keys <= s.kinds.Keys
  }

  /** Everything about one job: its stage agrees with the queue and worker tables. */
  ghost predicate JobOk(s: State, id: Id)
    requires Tables(s) && id in s.kinds
  {
    && s.kinds[id] in s.queues
    && (s.submits[id].Returned? <==> !s.stage[id].Submitting?)
    && (id in s.workers <==> s.submits[id].Spawned? || s.submits[id].Returned?)
    && (id in s.queues[s.kinds[id]] <==> s.stage[id].Enqueued?)
    && (s.stage[id].Held? ==> Holds(s, s.stage[id].w, id))
    && (id in s.runs <==> s.stage[id].Done? || (s.stage[id].Held? && s.workers[s.stage[id].w].slot.Running?))
  }

  ghost predicate WorkerOk(s: State, w: Id)
    requires Tables(s) && w in s.workers
  {
    var wk := s.workers[w];
    && wk.kind == s.kinds[w]
    && (!wk.slot.Waiting? ==>
          wk.slot.job in s.kinds && s.stage[wk.slot.job] == Held(w) && s.kinds[wk.slot.job] == wk.kind)
  }

  ghost predicate QueueOk(s: State, k: Kind)
    requires k in s.queues
  {
    && |s.queues[k]| <= QUEUE_CAP
    && Distinct(s.queues[k])
    && (forall id :: id in s.queues[k] ==> id in s.kinds && s.kinds[id] == k)
  }

  ghost predicate Shape(s: State) {
    && Tables(s)
    && (forall id :: id in s.kinds ==> JobOk(s, id))
    && (forall w :: w in s.workers ==> WorkerOk(s, w))
    && (forall k :: k in s.queues ==> QueueOk(s, k))
    && Distinct(s.runs)
    && (forall id :: id in s.runs ==> id in s.kinds)
  }

  /** What an action relies on: the goroutine, job and queue it touches are in order. */
  ghost predicate Local(s: State, a: Action)
    requires Tables(s) && Enabled(s, a)
  {
    match a
    case Record(id, k) => id !in s.runs && id !in s.workers && (k in s.queues ==> QueueOk(s, k))
    case Persist(id) => JobOk(s, id)
    case Spawn(id) => JobOk(s, id)
    case Enqueue(id) => JobOk(s, id) && QueueOk(s, s.kinds[id])
    case Receive(w) =>
      var k := s.workers[w].kind;
      k in s.queues && QueueOk(s, k) && s.queues[k][0] in s.kinds && JobOk(s, s.queues[k][0]) && WorkerOk(s, w)
    case Enter(w) => WorkerOk(s, w) && JobOk(s, s.workers[w].slot.job)
    case Leave(w) => WorkerOk(s, w) && JobOk(s, s.workers[w].slot.job)
  }

  lemma LocalFromShape(s: State, a: Action)
    requires Shape(s) && Enabled(s, a)
    ensures Local(s, a)
  {
    if a.Receive? {
      var k := s.workers[a.w].kind;
      assert WorkerOk(s, a.w) && JobOk(s, a.w);
      assert s.queues[k][0] in s.queues[k];
    }
  }

  lemma JobStep(s: State, a: Action, id: Id)
    requires Tables(s) && Enabled(s, a) && Local(s, a) && Tables(Apply(s, a))
    requires id in Apply(s, a).kinds && (id in s.kinds ==> JobOk(s, id))
    ensures JobOk(Apply(s, a), id)
  {}

  lemma WorkerStep(s: State, a: Action, w: Id)
    requires Tables(s) && Enabled(s, a) && Local(s, a) && Tables(Apply(s, a))
    requires w in Apply(s, a).workers && (w in s.workers ==> WorkerOk(s, w))
    ensures WorkerOk(Apply(s, a), w)
  {}

  lemma QueueStep(s: State, a: Action, k: Kind)
    requires Tables(s) && Enabled(s, a) && Local(s, a)
    requires k in Apply(s, a).queues && (k in s.queues ==> QueueOk(s, k))
    ensures QueueOk(Apply(s, a), k)
  {}

  lemma TablesStep(s: State, a: Action)
    requires Tables(s) && Enabled(s, a) && Local(s, a)
    ensures Tables(Apply(s, a))
  {}

  lemma RunsStep(s: State, a: Action)
    requires Tables(s) && Enabled(s, a) && Local(s, a)
    requires Distinct(s.runs) && forall id :: id in s.runs ==> id in s.kinds
    ensures Distinct(Apply(s, a).runs) && forall id :: id in Apply(s, a).runs ==> id in Apply(s, a).kinds
  {}

  lemma ShapeStep(s: State, a: Action)
    requires Shape(s) && Enabled(s, a)
    ensures Shape(Apply(s, a))
  {
    hide Enabled, Apply, JobOk, WorkerOk, QueueOk, Local;
    LocalFromShape(s, a);
    TablesStep(s, a);
    RunsStep(s, a);
    var t := Apply(s, a);
    forall id | id in t.kinds ensures JobOk(t, id) { JobStep(s, a, id); }
    forall w | w in t.workers ensures WorkerOk(t, w) { WorkerStep(s, a, w); }
    forall k | k in t.queues ensures QueueOk(t, k) { QueueStep(s, a, k); }
  }

  // ------------------------------------------------ counting workers and jobs

  function Idle(s: State, k: Kind): set<Id> {
    set w | w in s.workers && s.workers[w] == Worker(k, Waiting)
  }

  /** Submit calls of the kind between spawning the worker and sending the id. */
  function Sending(s: State, k: Kind): set<Id> {
    set id | id in s.submits && s.submits[id].Spawned? && id in s.kinds && s.kinds[id] == k
  }

  function Finished(s: State, k: Kind): set<Id> {
    set id | id in s.stage && s.stage[id].Done? && id in s.kinds && s.kinds[id] == k
  }

  ghost predicate Balanced(s: State, k: Kind) {
    |Idle(s, k)| == |Sending(s, k)| + |QueueOf(s, k)| + |Finished(s, k)|
  }

  lemma OneMore(a: set<Id>, x: Id, b: set<Id>)
    requires x !in a && forall y :: y in b <==> y == x || y in a
    ensures |b| == |a| + 1
  {
    assert b == a + {x};
  }

  lemma QuietBalance(s: State, a: Action, k: Kind)
    requires Tables(s) && Enabled(s, a) && Local(s, a) && (a.Record? || a.Persist? || a.Enter?)
    ensures var t := Apply(s, a);
            && Idle(t, k) == Idle(s, k) && Sending(t, k) == Sending(s, k)
            && Finished(t, k) == Finished(s, k) && QueueOf(t, k) == QueueOf(s, k)
  {}

  lemma SpawnBalance(s: State, id: Id, k: Kind)
    requires Tables(s) && Enabled(s, Spawn(id)) && Local(s, Spawn(id)) && Balanced(s, k)
    ensures Balanced(Apply(s, Spawn(id)), k)
  {
    var t := Apply(s, Spawn(id));
    assert Finished(t, k) == Finished(s, k);
    if s.kinds[id] == k {
      OneMore(Idle(s, k), id, Idle(t, k));
      OneMore(Sending(s, k), id, Sending(t, k));
    } else {
      assert Idle(t, k) == Idle(s, k) && Sending(t, k) == Sending(s, k);
    }
  }

  lemma EnqueueBalance(s: State, id: Id, k: Kind)
    requires Tables(s) && Enabled(s, Enqueue(id)) && Local(s, Enqueue(id)) && Balanced(s, k)
    ensures Balanced(Apply(s, Enqueue(id)), k)
  {
    var t := Apply(s, Enqueue(id));
    assert Idle(t, k) == Idle(s, k) && Finished(t, k) == Finished(s, k);
    if s.kinds[id] == k {
      OneMore(Sending(t, k), id, Sending(s, k));
    } else {
      assert Sending(t, k) == Sending(s, k);
    }
  }

  lemma ReceiveBalance(s: State, w: Id, k: Kind)
    requires Tables(s) && Enabled(s, Receive(w)) && Local(s, Receive(w)) && Balanced(s, k)
    ensures Balanced(Apply(s, Receive(w)), k)
  {
    var t := Apply(s, Receive(w));
    assert Sending(t, k) == Sending(s, k) && Finished(t, k) == Finished(s, k);
    if s.workers[w].kind == k {
      OneMore(Idle(t, k), w, Idle(s, k));
    } else {
      assert Idle(t, k) == Idle(s, k);
    }
  }

  lemma LeaveBalance(s: State, w: Id, k: Kind)
    requires Tables(s) && Enabled(s, Leave(w)) && Local(s, Leave(w)) && Balanced(s, k)
    ensures Balanced(Apply(s, Leave(w)), k)
  {
    var t := Apply(s, Leave(w));
    assert Sending(t, k) == Sending(s, k);
    if s.workers[w].kind == k {
      OneMore(Idle(s, k), w, Idle(t, k));
      OneMore(Finished(s, k), s.workers[w].slot.job, Finished(t, k));
    } else {
      assert Idle(t, k) == Idle(s, k) && Finished(t, k) == Finished(s, k);
    }
  }

  lemma BalanceStep(s: State, a: Action, k: Kind)
    requires Tables(s) && Enabled(s, a) && Local(s, a) && Balanced(s, k)
    ensures Balanced(Apply(s, a), k)
  {
    hide Enabled, Apply, Local, Idle, Sending, Finished, QueueOf, Tables;
    match a
    case Spawn(id) => SpawnBalance(s, id, k);
    case Enqueue(id) => EnqueueBalance(s, id, k);
    case Receive(w) => ReceiveBalance(s, w, k);
    case Leave(w) => LeaveBalance(s, w, k);
    case _ => QuietBalance(s, a, k);
  }

  ghost predicate Inv(s: State) {
    Shape(s) && forall k :: Balanced(s, k)
  }

  lemma InvStep(s: State, a: Action)
    requires Inv(s) && Enabled(s, a)
    ensures Inv(Apply(s, a))
  {
    hide Enabled, Apply, Shape, Balanced;
    ShapeStep(s, a);
    LocalFromShape(s, a);
    ShapeTables(s);
    forall k ensures Balanced(Apply(s, a), k) { BalanceStep(s, a, k); }
  }

  lemma {:induction false} InvHolds(s: State, acts: seq<Action>)
    requires Inv(s) && IsRun(s, acts)
    ensures Inv(RunFrom(s, acts))
    decreases |acts|
  {
    hide Enabled, Apply, Inv;
    if acts != [] {
      InvStep(s, acts[0]);
      InvHolds(Apply(s, acts[0]), acts[1..]);
    }
  }

  lemma ShapeTables(s: State)
    requires Shape(s)
    ensures Tables(s)
  {}

  lemma InitInv()
    ensures Inv(INIT)
  {
    forall k ensures Balanced(INIT, k) {
      assert Idle(INIT, k) == {} && Sending(INIT, k) == {} && Finished(INIT, k) == {};
    }
  }

  // ----------------------------------------------------------- first in, first out

  /** The ids sent to the kind's queue, in order. */
  function Sent(s: State, acts: seq<Action>, k: Kind): seq<Id>
    requires IsRun(s, acts)
    decreases |acts|
  {
    if acts == [] then []
    else
      var a := acts[0];
      (if a.Enqueue? && a.id in s.kinds && s.kinds[a.id] == k then [a.id] else [])
      + Sent(Apply(s, a), acts[1..], k)
  }

  /** The ids the kind's workers hold after their receives, in order. */
  function Taken(s: State, acts: seq<Action>, k: Kind): seq<Id>
    requires IsRun(s, acts)
    decreases |acts|
  {
    if acts == [] then []
    else
      var a := acts[0];
      var t := Apply(s, a);
      (if a.Receive? && a.w in t.workers && t.workers[a.w].kind == k && !t.workers[a.w].slot.Waiting?
       then [t.workers[a.w].slot.job] else [])
      + Taken(t, acts[1..], k)
  }

  lemma QueueMoves(s: State, a: Action, k: Kind)
    requires Enabled(s, a)
    ensures var t := Apply(s, a);
            && (a.Enqueue? && a.id in s.kinds && s.kinds[a.id] == k ==> QueueOf(t, k) == QueueOf(s, k) + [a.id])
            && (a.Receive? && a.w in t.workers && t.workers[a.w].kind == k ==>
                  && !t.workers[a.w].slot.Waiting?
                  && QueueOf(s, k) == [t.workers[a.w].slot.job] + QueueOf(t, k))
            && ((a.Enqueue? && a.id in s.kinds && s.kinds[a.id] == k)
                || (a.Receive? && a.w in t.workers && t.workers[a.w].kind == k)
                || QueueOf(t, k) == QueueOf(s, k))
  {}

  lemma {:induction false} FifoFrom(s: State, acts: seq<Action>, k: Kind)
    requires IsRun(s, acts)
    ensures QueueOf(s, k) + Sent(s, acts, k) == Taken(s, acts, k) + QueueOf(RunFrom(s, acts), k)
    decreases |acts|
  {
    hide Enabled, Apply, QueueOf;
    if acts != [] {
      var t := Apply(s, acts[0]);
      QueueMoves(s, acts[0], k);
      FifoFrom(t, acts[1..], k);
      var a, q, u := acts[0], QueueOf(t, k), Sent(t, acts[1..], k);
      var r, end := Taken(t, acts[1..], k), QueueOf(RunFrom(t, acts[1..]), k);
      if a.Enqueue? && a.id in s.kinds && s.kinds[a.id] == k {
        assert QueueOf(s, k) + ([a.id] + u) == q + u;
        assert Taken(s, acts, k) == [] + r == r;
      } else if a.Receive? && a.w in t.workers && t.workers[a.w].kind == k {
        var x := [t.workers[a.w].slot.job];
        assert (x + q) + u == x + (q + u) && (x + r) + end == x + (r + end);
        assert Sent(s, acts, k) == [] + u == u;
      } else {
        assert Sent(s, acts, k) == [] + u == u && Taken(s, acts, k) == [] + r == r;
      }
    }
  }

  /** Ids of a kind are received in the order they were sent, and those not yet received are the queue. */
  lemma FirstInFirstOut(acts: seq<Action>, k: Kind)
    requires IsRun(INIT, acts)
    ensures Sent(INIT, acts, k) == Taken(INIT, acts, k) + QueueOf(RunFrom(INIT, acts), k)
  {
    FifoFrom(INIT, acts, k);
    assert QueueOf(INIT, k) == [];
  }

  // ------------------------------------------------------------------ theorems

  /** The four places a job can be, read off the goroutine and queue tables. */
  ghost predicate Pending(s: State, id: Id) { id in s.submits && !s.submits[id].Returned? }
  ghost predicate InSomeQueue(s: State, id: Id) { exists k :: id in QueueOf(s, k) }
  ghost predicate HeldBySome(s: State, id: Id) { exists w :: Holds(s, w, id) }
  ghost predicate RunOver(s: State, id: Id) { id in s.runs && !HeldBySome(s, id) }

  ghost predicate ExactlyOne(p: bool, q: bool, r: bool, t: bool) {
    (p && !q && !r && !t) || (!p && q && !r && !t) || (!p && !q && r && !t) || (!p && !q && !r && t)
  }

  /**
    After every interleaving each recorded job is in exactly one place: with its
    Submit call, in one queue (its kind's, once), with one worker, or run to the
    end; and runOne has been entered at most once for it.
   */
  lemma EveryJobInOnePlace(acts: seq<Action>, id: Id)
    requires IsRun(INIT, acts) && id in RunFrom(INIT, acts).kinds
    ensures var s := RunFrom(INIT, acts);
            && ExactlyOne(Pending(s, id), InSomeQueue(s, id), HeldBySome(s, id), RunOver(s, id))
            && (forall k :: id in QueueOf(s, k) ==> k == s.kinds[id] && Distinct(s.queues[k]))
            && (forall v, w :: Holds(s, v, id) && Holds(s, w, id) ==> v == w)
            && Distinct(s.runs)
  {
    InitInv();
    InvHolds(INIT, acts);
    var s := RunFrom(INIT, acts);
    assert JobOk(s, id);
    forall k | id in QueueOf(s, k) ensures k == s.kinds[id] && Distinct(s.queues[k]) { assert QueueOk(s, k); }
    forall w | Holds(s, w, id) ensures s.stage[id] == Held(w) { assert WorkerOk(s, w); }
    if s.stage[id].Enqueued? { assert id in QueueOf(s, s.kinds[id]); }
  }

  /** A queue that is not empty always has a worker of its kind ready to receive. */
  lemma QueueIsServed(acts: seq<Action>, k: Kind)
    requires IsRun(INIT, acts)
    ensures var s := RunFrom(INIT, acts);
            && |Idle(s, k)| >= |QueueOf(s, k)|
            && (QueueOf(s, k) != [] ==>
                  exists w ::
                    w in Idle(s, k) && Enabled(s, Receive(w)) && QueueOf(Apply(s, Receive(w)), k) == QueueOf(s, k)[1..])
  {
    InitInv();
    InvHolds(INIT, acts);
    var s := RunFrom(INIT, acts);
    assert Balanced(s, k);
    if QueueOf(s, k) != [] {
      var w :| w in Idle(s, k);
      assert Enabled(s, Receive(w));
    }
  }

  /** A Submit call blocked on a full queue can send as soon as one receive, which is enabled, happens. */
  lemma BlockedSubmitCanProceed(acts: seq<Action>, id: Id)
    requires IsRun(INIT, acts)
    requires var s := RunFrom(INIT, acts); id in s.submits && s.submits[id].Spawned?
    ensures var s := RunFrom(INIT, acts);
            Enabled(s, Enqueue(id)) || exists w :: Enabled(s, Receive(w)) && Enabled(Apply(s, Receive(w)), Enqueue(id))
  {
    InitInv();
    InvHolds(INIT, acts);
    var s := RunFrom(INIT, acts);
    assert JobOk(s, id);
    var k := s.kinds[id];
    assert QueueOk(s, k);
    if |QueueOf(s, k)| == QUEUE_CAP {
      QueueIsServed(acts, k);
      var w :| w in Idle(s, k) && Enabled(s, Receive(w)) && QueueOf(Apply(s, Receive(w)), k) == QueueOf(s, k)[1..];
      assert Enabled(Apply(s, Receive(w)), Enqueue(id));
    }
  }

  /**
    A step that brings the job on: one of its own Submit call, a receive from its
    kind's queue, or one of the worker that holds it.  Only Leave waits for a handler,
    and then for the one that is running this job.
   */
  predicate BringsOn(s: State, a: Action, id: Id)
    requires id in s.kinds
  {
    Enabled(s, a) &&
    match a
    case Record(_, _) => false
    case Persist(x) => x == id
    case Spawn(x) => x == id
    case Enqueue(x) => x == id
    case Receive(w) => w in s.workers && s.workers[w].kind == s.kinds[id]
    case Enter(w) => Holds(s, w, id)
    case Leave(w) => Holds(s, w, id)
  }

  /** How far the job is from its handler: the step it is at, and what is before it in the queue. */
  function Rank(s: State, id: Id): nat
    requires id in s.submits && id in s.stage
  {
    match s.submits[id]
    case Recorded => 5
    case Saved => 4
    case Spawned => 3
    case Returned => if s.stage[id].Enqueued? then 2 else if s.stage[id].Held? then 1 else 0
  }

  function Ahead(q: seq<Id>, id: Id): nat {
    if q == [] || q[0] == id then 0 else 1 + Ahead(q[1..], id)
  }

  function Distance(s: State, id: Id): nat
    requires id in s.submits && id in s.kinds
  {
    var q := QueueOf(s, s.kinds[id]);
    if s.submits[id].Returned? then Ahead(q, id) else |q|
  }

  predicate Nearer(s: State, t: State, id: Id) {
    && id in s.submits && id in s.stage && id in s.kinds && id in t.submits && id in t.stage && id in t.kinds
    && (Rank(t, id) < Rank(s, id) || (Rank(t, id) == Rank(s, id) && Distance(t, id) < Distance(s, id)))
  }

  /** A receive from the job's queue brings the job nearer, or makes room for it. */
  lemma ReceiveBringsNearer(s: State, id: Id) returns (a: Action)
    requires Inv(s) && id in s.kinds && QueueOf(s, s.kinds[id]) != []
    requires id in s.submits && id in s.stage && (s.submits[id].Spawned? || s.stage[id].Enqueued?)
    ensures BringsOn(s, a, id) && a.Receive? && Nearer(s, Apply(s, a), id)
  {
    var k := s.kinds[id];
    assert Balanced(s, k) && JobOk(s, id);
    var w :| w in Idle(s, k);
    a := Receive(w);
    assert QueueOk(s, k);
    var q := QueueOf(s, k);
    assert QueueOf(Apply(s, a), k) == q[1..];
  }

  /** Until the job is with its handler some step brings it nearer, and it is not the end of any run. */
  lemma StepBringsNearer(s: State, id: Id) returns (a: Action)
    requires Inv(s) && id in s.kinds && id !in s.runs
    ensures BringsOn(s, a, id) && !a.Leave?
    ensures id in Apply(s, a).runs || Nearer(s, Apply(s, a), id)
  {
    var k := s.kinds[id];
    assert JobOk(s, id);
    match s.stage[id] {
      case Submitting =>
        assert QueueOk(s, k);
        if s.submits[id].Recorded? {
          a := Persist(id);
        } else if s.submits[id].Saved? {
          a := Spawn(id);
        } else if |QueueOf(s, k)| < QUEUE_CAP {
          a := Enqueue(id);
        } else {
          a := ReceiveBringsNearer(s, id);
        }
      case Enqueued =>
        a := ReceiveBringsNearer(s, id);
      case Held(w) =>
        a := Enter(w);
    }
  }

  /** Every step of the run brings the job on, and none waits for a handler to come back. */
  predicate Brings(s: State, acts: seq<Action>, id: Id)
    requires IsRun(s, acts)
    decreases |acts|
  {
    acts == [] ||
    (id in s.kinds && BringsOn(s, acts[0], id) && !acts[0].Leave? && Brings(Apply(s, acts[0]), acts[1..], id))
  }

  lemma {:induction false} RunToHandler(s: State, id: Id) returns (acts: seq<Action>)
    requires Inv(s) && id in s.kinds && id in s.submits && id in s.stage
    ensures IsRun(s, acts) && Brings(s, acts, id) && id in RunFrom(s, acts).runs
    decreases Rank(s, id), Distance(s, id)
  {
    hide Inv, Rank, Distance, BringsOn;
    acts := [];
    if id !in s.runs {
      var a := StepBringsNearer(s, id);
      BringsOnEnabled(s, a, id);
      InvStep(s, a);
      if id in Apply(s, a).runs {
        EmptyRun(Apply(s, a));
        acts := [a];
      } else {
        var rest := RunToHandler(Apply(s, a), id);
        acts := [a] + rest;
        assert acts[1..] == rest;
      }
    }
  }

  lemma BringsOnEnabled(s: State, a: Action, id: Id)
    requires id in s.kinds && BringsOn(s, a, id)
    ensures Enabled(s, a)
  {}

  /**
    From every reachable state each job can be brought to its handler by enabled steps
    of its own Submit call, of its kind's queue and of its worker alone: no handler
    has to come back for it, and no other call has to be made.
   */
  lemma EveryJobCanStart(acts: seq<Action>, id: Id) returns (more: seq<Action>)
    requires IsRun(INIT, acts) && id in RunFrom(INIT, acts).kinds
    ensures var s := RunFrom(INIT, acts);
            IsRun(s, more) && Brings(s, more, id) && id in RunFrom(s, more).runs
  {
    InitInv();
    InvHolds(INIT, acts);
    more := RunToHandler(RunFrom(INIT, acts), id);
  }

  /** No job is ever stuck: until it has been run to the end some step brings it on, whatever other handlers do. */
  lemma NoJobIsStuck(acts: seq<Action>, id: Id)
    requires IsRun(INIT, acts) && id in RunFrom(INIT, acts).kinds
    ensures var s := RunFrom(INIT, acts); RunOver(s, id) || exists a :: BringsOn(s, a, id)
  {
    InitInv();
    InvHolds(INIT, acts);
    var s := RunFrom(INIT, acts);
    assert JobOk(s, id);
    if id !in s.runs {
      var a := StepBringsNearer(s, id);
      assert BringsOn(s, a, id);
    } else if s.stage[id].Held? {
      assert BringsOn(s, Leave(s.stage[id].w), id);
    } else {
      forall w ensures !Holds(s, w, id) { if w in s.workers { assert WorkerOk(s, w); } }
    }
  }

  /**
    A worker runs every job with the handler of the Submit call it is named by.  So a
    job is run with the handler of some call of its own kind that has come past its go
    statement, and one worker runs one job at a time.
   */
  lemma HandlerIsOfTheKind(acts: seq<Action>, w: Id, id: Id)
    requires IsRun(INIT, acts) && Holds(RunFrom(INIT, acts), w, id)
    ensures var s := RunFrom(INIT, acts);
            && w in s.kinds && id in s.kinds && s.kinds[w] == s.kinds[id]
            && w in s.submits && (s.submits[w].Spawned? || s.submits[w].Returned?)
            && (forall other :: Holds(s, w, other) ==> other == id)
  {
    InitInv();
    InvHolds(INIT, acts);
    var s := RunFrom(INIT, acts);
    assert WorkerOk(s, w) && JobOk(s, w);
  }

  /** It need not be the job's own call: here the handler of call a runs job b, while a has not sent its own job. */
  lemma AnotherCallsHandlerRuns(a: Id, b: Id, k: Kind) returns (acts: seq<Action>)
    requires a != b
    ensures IsRun(INIT, acts)
    ensures var s := RunFrom(INIT, acts);
            Holds(s, a, b) && s.runs == [b] && a in s.submits && s.submits[a].Spawned?
  {
    hide IsRun, RunFrom;
    EmptyRun(INIT);
    var s;
    acts, s := Follow(INIT, [], Record(a, k), INIT);
    acts, s := Follow(INIT, acts, Persist(a), s);
    acts, s := Follow(INIT, acts, Spawn(a), s);
    acts, s := Follow(INIT, acts, Record(b, k), s);
    acts, s := Follow(INIT, acts, Persist(b), s);
    acts, s := Follow(INIT, acts, Spawn(b), s);
    acts, s := Follow(INIT, acts, Enqueue(b), s);
    acts, s := Follow(INIT, acts, Receive(a), s);
    acts, s := Follow(INIT, acts, Enter(a), s);
  }

  lemma SomeOther(a: set<Id>, id: Id)
    ensures (exists w :: w != id && w in a) <==> (id !in a && |a| > 0) || |a| > 1
  {
    var others := a - {id};
    if others == {} {
      assert a == {} || a == {id};
    } else {
      var w :| w in others;
      if id in a { assert |others| == |a| - 1; }
    }
  }

  /**
    When that can happen: the head of a queue can go to a worker with another call's
    handler if and only if its own call's worker is busy, more ids are queued, another
    Submit call of the kind is about to send, or a job of the kind has finished.
   */
  lemma AnotherHandlerPossible(acts: seq<Action>, k: Kind)
    requires IsRun(INIT, acts) && QueueOf(RunFrom(INIT, acts), k) != []
    ensures var s := RunFrom(INIT, acts);
            var id := QueueOf(s, k)[0];
            (exists w :: w != id && w in Idle(s, k) && Enabled(s, Receive(w))) <==>
              id !in Idle(s, k) || |QueueOf(s, k)| > 1 || Sending(s, k) != {} || Finished(s, k) != {}
  {
    InitInv();
    InvHolds(INIT, acts);
    AnotherHandlerExactly(RunFrom(INIT, acts), k);
  }

  lemma AnotherHandlerExactly(s: State, k: Kind)
    requires Inv(s) && QueueOf(s, k) != []
    ensures var id := QueueOf(s, k)[0];
            (exists w :: w != id && w in Idle(s, k) && Enabled(s, Receive(w))) <==>
              id !in Idle(s, k) || |QueueOf(s, k)| > 1 || Sending(s, k) != {} || Finished(s, k) != {}
  {
    assert Balanced(s, k);
    SomeOther(Idle(s, k), QueueOf(s, k)[0]);
    forall w | w in Idle(s, k) ensures Enabled(s, Receive(w)) {}
  }

  lemma FinishedStep(s: State, a: Action, k: Kind)
    requires Tables(s) && Enabled(s, a) && Local(s, a)
    ensures Finished(s, k) <= Finished(Apply(s, a), k)
  {}

  lemma {:induction false} FinishedStays(s: State, acts: seq<Action>, k: Kind)
    requires Inv(s) && IsRun(s, acts)
    ensures Finished(s, k) <= Finished(RunFrom(s, acts), k)
    decreases |acts|
  {
    hide Enabled, Apply, Shape, Balanced, Finished;
    if acts != [] {
      ShapeTables(s);
      LocalFromShape(s, acts[0]);
      FinishedStep(s, acts[0], k);
      InvStep(s, acts[0]);
      FinishedStays(Apply(s, acts[0]), acts[1..], k);
    }
  }

  /** Once a job of a kind has finished, no job of that kind is ever sure of its own call's handler again. */
  lemma NoneSureAfterTheFirst(acts: seq<Action>, more: seq<Action>, k: Kind)
    requires IsRun(INIT, acts) && Finished(RunFrom(INIT, acts), k) != {} && IsRun(RunFrom(INIT, acts), more)
    ensures var s := RunFrom(RunFrom(INIT, acts), more);
            QueueOf(s, k) != [] ==> exists w :: w != QueueOf(s, k)[0] && w in Idle(s, k) && Enabled(s, Receive(w))
  {
    hide Inv, Enabled;
    var s := RunFrom(INIT, acts);
    InitInv();
    InvHolds(INIT, acts);
    InvHolds(s, more);
    FinishedStays(s, more, k);
    if QueueOf(RunFrom(s, more), k) != [] { AnotherHandlerExactly(RunFrom(s, more), k); }
  }
}
