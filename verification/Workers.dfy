/**
  Submit and the worker loop (internal/jobs/runner.go) as code on the runner's
  fields, step for step the actions of Dispatch.
 */
module Workers {
  import opened Dispatch

  class Runner {
    var jobs: map<Id, Kind>
    var queues: map<Kind, seq<Id>>
    var submits: map<Id, Submit>
    var workers: map<Id, Worker>
    var runs: seq<Id>
    var stage: map<Id, Stage>

    function View(): State
      reads this
    {
      State(jobs, queues, submits, workers, runs, stage)
    }

    /** Creates the kind's queue if there is none. */
    method EnsureQueue(k: Kind)
      modifies this`queues
      ensures queues == old(queues)[k := QueueOf(old(View()), k)]
    {
      if k !in queues {
        queues := queues[k := []];
      }
    }

    method RecordJob(id: Id, k: Kind)
      requires Enabled(View(), Record(id, k))
      modifies this
      ensures View() == Apply(old(View()), Record(id, k))
      ensures id in submits && submits[id].Recorded? && id in jobs && jobs[id] == k
      ensures QueueOf(View(), k) == QueueOf(old(View()), k)
    {
      jobs := jobs[id := k];
      EnsureQueue(k);
      submits, stage := submits[id := Recorded], stage[id := Submitting];
    }

    /** The save, and the go statement that starts the worker. */
    method SpawnWorker(id: Id)
      requires Enabled(View(), Persist(id)) && id in jobs
      modifies this`submits, this`workers
      ensures Enabled(Apply(old(View()), Persist(id)), Spawn(id))
      ensures View() == Apply(Apply(old(View()), Persist(id)), Spawn(id))
      ensures id in submits && submits[id].Spawned?
      ensures id in workers && workers[id] == Worker(jobs[id], Waiting)
    {
      submits := submits[id := Saved];
      submits, workers := submits[id := Spawned], workers[id := Worker(jobs[id], Waiting)];
    }

    method Send(id: Id)
      requires Enabled(View(), Enqueue(id))
      modifies this`submits, this`queues, this`stage
      ensures View() == Apply(old(View()), Enqueue(id))
    {
      var k := jobs[id];
      queues := queues[k := QueueOf(View(), k) + [id]];
      submits, stage := submits[id := Returned], stage[id := Enqueued];
    }

    /**
      An uninterrupted Submit: a run of the machine that ends with the id sent, or
      blocked on the send exactly when the kind's queue is full.
     */
    method Submit(id: Id, k: Kind) returns (sent: bool, ghost acts: seq<Action>)
      requires Inv(View()) && id !in jobs
      modifies this
      ensures IsRun(old(View()), acts) && View() == RunFrom(old(View()), acts) && Inv(View())
      ensures sent <==> |QueueOf(old(View()), k)| < 64
      ensures id in submits && (submits[id].Returned? <==> sent)
      ensures QueueOf(View(), k) == QueueOf(old(View()), k) + if sent then [id] else []
      ensures id in jobs && jobs[id] == k && id in workers && workers[id] == Worker(k, Waiting)
    {
      hide Apply, Inv, RunFrom, IsRun;
      ghost var s0 := View();
      EmptyRun(s0);
      RecordJob(id, k);
      Extend(s0, [], Record(id, k), View());
      acts := [] + [Record(id, k)];
      ghost var mid := View();
      SpawnWorker(id);
      Extend(s0, acts, Persist(id), Apply(mid, Persist(id)));
      Extend(s0, acts + [Persist(id)], Spawn(id), View());
      acts := acts + [Persist(id)] + [Spawn(id)];
      SpawnKeeps(mid, id);
      sent := |QueueOf(View(), k)| < QUEUE_CAP;
      if sent {
        ghost var before := View();
        Send(id);
        SendAppends(before, id);
        Extend(s0, acts, Enqueue(id), View());
        acts := acts + [Enqueue(id)];
      }
      InvHolds(s0, acts);
    }

    /** The receive of the worker's range loop. */
    method Take(w: Id) returns (id: Id)
      requires Enabled(View(), Receive(w))
      modifies this`queues, this`workers, this`stage
      ensures View() == Apply(old(View()), Receive(w)) && id == QueueOf(old(View()), old(workers)[w].kind)[0]
      ensures w in workers && workers[w] == Worker(old(workers)[w].kind, Received(id))
    {
      var k := workers[w].kind;
      var q := QueueOf(View(), k);
      id := q[0];
      queues, workers, stage := queues[k := q[1..]], workers[w := Worker(k, Received(id))], stage[id := Held(w)];
    }

    /**
      One uninterrupted turn of a worker whose handler comes back, by return or by
      recovered panic: it runs the head of its kind's queue, which is always on
      record and was never run before, and waits again.
     */
    method WorkerTurn(w: Id) returns (ghost acts: seq<Action>, id: Id)
      requires Inv(View()) && Enabled(View(), Receive(w))
      modifies this
      ensures IsRun(old(View()), acts) && View() == RunFrom(old(View()), acts) && Inv(View())
      ensures var k := old(workers)[w].kind;
              id == QueueOf(old(View()), k)[0] && id in jobs && jobs[id] == k
              && id !in old(runs) && runs == old(runs) + [id]
      ensures w in workers && workers[w] == Worker(old(workers)[w].kind, Waiting)
    {
      hide Apply, Inv, RunFrom, IsRun, Enabled;
      ghost var s0 := View();
      EmptyRun(s0);
      HeadIsFresh(s0, w);
      id := TakeFirst(w, s0);
      acts := [] + [Receive(w)];
      var found := id in jobs;
      if found {
        ghost var mid := View();
        RunJob(w, id);
        Extend(s0, acts, Enter(w), Apply(mid, Enter(w)));
        Extend(s0, acts + [Enter(w)], Leave(w), View());
        acts := acts + [Enter(w)] + [Leave(w)];
      }
      InvHolds(s0, acts);
    }

    method TakeFirst(w: Id, ghost s0: State) returns (id: Id)
      requires s0 == View() && Enabled(s0, Receive(w))
      modifies this`queues, this`workers, this`stage
      ensures id == QueueOf(s0, s0.workers[w].kind)[0]
      ensures w in workers && workers[w] == Worker(s0.workers[w].kind, Received(id))
      ensures IsRun(s0, [] + [Receive(w)]) && View() == RunFrom(s0, [] + [Receive(w)])
    {
      EmptyRun(s0);
      id := Take(w);
      Extend(s0, [], Receive(w), View());
    }

    /** runOne is entered and left. */
    method RunJob(w: Id, id: Id)
      requires w in workers && workers[w].slot == Received(id) && id in jobs
      modifies this`runs, this`workers, this`stage
      ensures Enabled(old(View()), Enter(w)) && Enabled(Apply(old(View()), Enter(w)), Leave(w))
      ensures View() == Apply(Apply(old(View()), Enter(w)), Leave(w))
      ensures runs == old(runs) + [id] && w in workers && workers[w] == Worker(old(workers)[w].kind, Waiting)
    {
      var k := workers[w].kind;
      runs, workers := runs + [id], workers[w := Worker(k, Running(id))];
      workers, stage := workers[w := Worker(k, Waiting)], stage[id := Done];
    }
  }

  lemma SpawnKeeps(s: State, id: Id)
    requires Enabled(s, Persist(id)) && Enabled(Apply(s, Persist(id)), Spawn(id))
    ensures var t := Apply(Apply(s, Persist(id)), Spawn(id)); t.queues == s.queues && t.kinds == s.kinds
  {}

  lemma SendAppends(s: State, id: Id)
    requires Enabled(s, Enqueue(id))
    ensures var t := Apply(s, Enqueue(id));
            QueueOf(t, s.kinds[id]) == QueueOf(s, s.kinds[id]) + [id] && id in t.submits && t.submits[id].Returned?
  {}

  /** The head of a queue is a recorded job of the queue's kind that has not been run. */
  lemma HeadIsFresh(s: State, w: Id)
    requires Inv(s) && Enabled(s, Receive(w))
    ensures w in s.workers && var k := s.workers[w].kind; QueueOf(s, k) != []
    ensures var k := s.workers[w].kind; var id := QueueOf(s, k)[0]; id in s.kinds && s.kinds[id] == k && id !in s.runs
  {
    hide Balanced;
    var k := s.workers[w].kind;
    assert k in s.queues && QueueOk(s, k) && s.queues[k][0] in s.queues[k];
    assert JobOk(s, s.queues[k][0]);
  }
}
