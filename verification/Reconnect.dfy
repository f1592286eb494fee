/**
  The SSE reconnect manager (WSManager in ui/src/lib/ws.ts): open, fail, close and
  cleanup, the timer, the EventSource callbacks and the asynchronous status probe
  of the error callback, which may resume after the connection it belongs to is gone.

  The browser is the set of event sources not closed and the set of timeouts that
  will still fire.  Listeners called by emit are taken not to call back into the
  manager.
 */
module Reconnect {
  import opened Options

  datatype Phase = Connecting | Open | Closed | Reconnecting | Error

  datatype State = State(
    phase: Phase,
    retries: nat,
    maxRetries: nat,
    es: Option<nat>,          // the EventSource the manager refers to
    timer: Option<nat>,       // connectTimer
    didProbe: bool,
    delay: real,              // the last back-off
    // the browser
    live: set<nat>,           // event sources not closed
    pending: set<nat>,        // timeouts neither fired nor cleared
    probes: set<nat>,         // sources whose error callback waits for its probe
    nextId: nat)              // the next source or timer id

  /** What can happen next; `r` is what Math.random returns if a back-off is computed. */
  datatype Event =
    | UserOpen(constructs: bool, r: real)
    | UserClose
    | TimerFires(t: nat, constructs: bool, r: real)
    | Opened(e: nat)               // onopen, or a first message
    | Failed(e: nat, r: real)      // onerror
    | ProbeEnds(e: nat, r: real)   // the error callback of a source resumes after its probe

  function Init(maxRetries: nat): State {
    State(Closed, 0, maxRetries, None, None, false, 0.0, {}, {}, {}, 1)
  }

  // ----------------------------------------------------------------- back-off

  function Pow2(n: nat): (p: nat)
    ensures p >= 1
  {
    if n == 0 then 1 else 2 * Pow2(n - 1)
  }

  /** Math.min(30000, 2 ** retries * 500) */
  function Base(retries: nat): nat {
    if Pow2(retries) * 500 < 30000 then Pow2(retries) * 500 else 30000
  }

  function Backoff(retries: nat, r: real): real {
    Base(retries) as real * (0.8 + r * 0.4)
  }

  lemma {:induction false} Pow2Monotone(m: nat, n: nat)
    requires m <= n
    ensures Pow2(m) <= Pow2(n)
  {
    if m < n { Pow2Monotone(m, n - 1); }
  }

  lemma ScaleBounds(b: real, f: real)
    requires 500.0 <= b <= 30000.0 && 0.8 <= f <= 1.2
    ensures 400.0 <= b * f <= 36000.0
  {
    assert 500.0 * f <= b * f <= 30000.0 * f;
  }

  /** Every delay lies between 400 and 36000 ms, and its base never shrinks with more retries. */
  lemma BackoffBounds(retries: nat, more: nat, r: real)
    requires 0.0 <= r < 1.0 && retries <= more
    ensures 400.0 <= Backoff(retries, r) <= 36000.0
    ensures 500 <= Base(retries) <= Base(more) <= 30000
  {
    Pow2Monotone(retries, more);
    ScaleBounds(Base(retries) as real, 0.8 + r * 0.4);
  }

  /**
    The delays in full: 500 ms doubled at every retry and capped at 30 s, scaled by a
    random factor that grows evenly from 0.8 to 1.2.
   */
  lemma BackoffExactly(retries: nat, r: real)
    ensures Base(retries) == if retries < 6 then [500, 1000, 2000, 4000, 8000, 16000][retries] else 30000
    ensures Backoff(retries, r) == Base(retries) as real * 0.8 + r * Base(retries) as real * 0.4
  {
    assert Pow2(1) == 2 && Pow2(2) == 4 && Pow2(3) == 8 && Pow2(4) == 16 && Pow2(5) == 32 && Pow2(6) == 64;
    if retries > 6 { Pow2Monotone(6, retries); }
    Distributes(Base(retries) as real, r);
  }

  lemma Distributes(b: real, r: real)
    ensures b * (0.8 + r * 0.4) == b * 0.8 + r * b * 0.4
  {}

  // ------------------------------------------------------- the manager's methods

  function Cleaned(s: State): State {
    s.(pending := if s.timer.Some? then s.pending - {s.timer.value} else s.pending, timer := None,
       live := if s.es.Some? then s.live - {s.es.value} else s.live, es := None)
  }

  function AfterFail(s: State, r: real): State {
    var t := Cleaned(s);
    if t.phase.Closed? then t
    else if t.retries >= t.maxRetries then t.(phase := Closed)
    else
      t.(phase := Error, delay := Backoff(t.retries, r), retries := t.retries + 1,
         timer := Some(t.nextId), pending := t.pending + {t.nextId}, nextId := t.nextId + 1)
  }

  function AfterOpen(s: State, constructs: bool, r: real): State {
    var t := Cleaned(s).(didProbe := false, phase := if s.retries > 0 then Reconnecting else Connecting);
    if constructs then t.(es := Some(t.nextId), live := t.live + {t.nextId}, nextId := t.nextId + 1)
    else AfterFail(t, r)
  }

  function AfterClose(s: State): State {
    Cleaned(s).(phase := Closed)
  }

  class WSManager {
    var phase: Phase
    var retries: nat
    var maxRetries: nat
    var es: Option<nat>
    var timer: Option<nat>
    var didProbe: bool
    var delay: real
    var live: set<nat>
    var pending: set<nat>
    var probes: set<nat>
    var nextId: nat

    function View(): State
      reads this
    {
      State(phase, retries, maxRetries, es, timer, didProbe, delay, live, pending, probes, nextId)
    }

    constructor (maxRetries: nat)
      ensures View() == Init(maxRetries)
    {
      phase, retries, this.maxRetries := Closed, 0, maxRetries;
      es, timer, didProbe, delay := None, None, false, 0.0;
      live, pending, probes, nextId := {}, {}, {}, 1;
    }

    method Cleanup()
      modifies this
      ensures View() == Cleaned(old(View()))
      ensures es.None? && timer.None? && phase == old(phase) && retries == old(retries)
    {
      if timer.Some? {
        pending := pending - {timer.value};
      }
      timer := None;
      if es.Some? {
        live := live - {es.value};
      }
      es := None;
    }

    method Fail(r: real)
      modifies this
      ensures View() == AfterFail(old(View()), r)
      ensures es.None? && maxRetries == old(maxRetries)
      ensures old(phase) != Closed && old(retries) < maxRetries ==>
                && phase == Error && retries == old(retries) + 1 && timer.Some?
                && delay == Backoff(old(retries), r)
      ensures old(phase) == Closed || old(retries) >= maxRetries ==>
                phase == Closed && retries == old(retries) && timer.None?
    {
      Cleanup();
      if phase == Closed {
        return;
      }
      phase := Error;
      if retries >= maxRetries {
        phase := Closed;
        return;
      }
      delay := Backoff(retries, r);
      retries := retries + 1;
      timer := Some(nextId);
      pending := pending + {nextId};
      nextId := nextId + 1;
    }

    method OpenStream(constructs: bool, r: real)
      modifies this
      ensures View() == AfterOpen(old(View()), constructs, r)
      ensures constructs ==>
                && es == Some(old(nextId)) && timer.None? && !didProbe && retries == old(retries)
                && phase == if old(retries) > 0 then Reconnecting else Connecting
      ensures !constructs ==> if old(retries) < maxRetries then phase == Error else phase == Closed
    {
      Cleanup();
      didProbe := false;
      phase := if retries > 0 then Reconnecting else Connecting;
      if !constructs {
        Fail(r);
        return;
      }
      es := Some(nextId);
      live := live + {nextId};
      nextId := nextId + 1;
    }

    method Close()
      modifies this
      ensures View() == AfterClose(old(View()))
      ensures phase == Closed && es.None? && timer.None? && retries == old(retries)
    {
      Cleanup();
      phase := Closed;
      // this.es?.close() has nothing left to close: cleanup has cleared it
      assert es.None?;
    }

    method OnTimer(t: nat, constructs: bool, r: real)
      requires Enabled(View(), TimerFires(t, constructs, r))
      modifies this
      ensures View() == Apply(old(View()), TimerFires(t, constructs, r))
    {
      pending := pending - {t};
      OpenStream(constructs, r);
    }

    method OnOpen(e: nat)
      requires Enabled(View(), Opened(e))
      modifies this
      ensures View() == Apply(old(View()), Opened(e))
      ensures phase == Open && es == old(es) && timer == old(timer)
      ensures retries == if old(phase) == Open then old(retries) else 0
    {
      if phase != Open {
        phase := Open;
        retries := 0;
      }
    }

    method OnError(e: nat, r: real)
      requires Enabled(View(), Failed(e, r))
      modifies this
      ensures View() == Apply(old(View()), Failed(e, r))
      ensures didProbe
      ensures !old(didProbe) ==>
                probes == old(probes) + {e} && es == old(es) && phase == old(phase) && retries == old(retries)
      ensures old(didProbe) ==> probes == old(probes) && es.None?
    {
      if !didProbe {
        didProbe := true;
        // suspends here until the probe has been answered
        probes := probes + {e};
        return;
      }
      Fail(r);
    }

    method OnProbeEnd(e: nat, r: real)
      requires Enabled(View(), ProbeEnds(e, r))
      modifies this
      ensures View() == Apply(old(View()), ProbeEnds(e, r))
      ensures probes == old(probes) - {e} && es.None?
    {
      probes := probes - {e};
      Fail(r);
    }
  }

  // ------------------------------------------------------------------------ runs

  predicate Random(r: real) {
    0.0 <= r < 1.0
  }

  /** Callbacks fire only for the source the manager has handlers on; cleanup detaches them. */
  predicate Enabled(s: State, ev: Event) {
    match ev
    case UserOpen(_, r) => Random(r)
    case UserClose => true
    case TimerFires(t, _, r) => t in s.pending && Random(r)
    case Opened(e) => s.es == Some(e) && e in s.live
    case Failed(e, r) => s.es == Some(e) && e in s.live && Random(r)
    case ProbeEnds(e, r) => e in s.probes && Random(r)
  }

  function Apply(s: State, ev: Event): State
    requires Enabled(s, ev)
  {
    match ev
    case UserOpen(ok, r) => AfterOpen(s, ok, r)
    case UserClose => AfterClose(s)
    case TimerFires(t, ok, r) => AfterOpen(s.(pending := s.pending - {t}), ok, r)
    case Opened(_) => if s.phase.Open? then s else s.(phase := Open, retries := 0)
    case Failed(e, r) => if !s.didProbe then s.(didProbe := true, probes := s.probes + {e}) else AfterFail(s, r)
    case ProbeEnds(e, r) => AfterFail(s.(probes := s.probes - {e}), r)
  }

  predicate IsRun(s: State, evs: seq<Event>)
    decreases |evs|
  {
    evs == [] || (Enabled(s, evs[0]) && IsRun(Apply(s, evs[0]), evs[1..]))
  }

  function RunFrom(s: State, evs: seq<Event>): State
    requires IsRun(s, evs)
    decreases |evs|
  {
    if evs == [] then s else RunFrom(Apply(s, evs[0]), evs[1..])
  }

  /**
    The browser holds what the manager refers to and nothing else, and exactly one
    of three things is true: a source is live, a retry is scheduled, or the manager
    is closed.
   */
  predicate Coherent(s: State) {
    && s.live == (if s.es.Some? then {s.es.value} else {})
    && s.pending == (if s.timer.Some? then {s.timer.value} else {})
    && (s.es.Some? <==> s.phase.Connecting? || s.phase.Reconnecting? || s.phase.Open?)
    && (s.timer.Some? <==> s.phase.Error?)
    && s.retries <= s.maxRetries
    && (s.timer.Some? ==> 400.0 <= s.delay <= 36000.0)
  }

  lemma CoherentStep(s: State, ev: Event)
    requires Coherent(s) && Enabled(s, ev)
    ensures Coherent(Apply(s, ev)) && Apply(s, ev).maxRetries == s.maxRetries
  {
    var r := if ev.UserClose? || ev.Opened? then 0.0 else ev.r;
    BackoffBounds(s.retries, s.retries, r);
    hide Backoff;
  }

  lemma {:induction false} CoherentHolds(s: State, evs: seq<Event>)
    requires Coherent(s) && IsRun(s, evs)
    ensures Coherent(RunFrom(s, evs)) && RunFrom(s, evs).maxRetries == s.maxRetries
    decreases |evs|
  {
    hide Coherent, Enabled, Apply;
    if evs != [] {
      CoherentStep(s, evs[0]);
      CoherentHolds(Apply(s, evs[0]), evs[1..]);
    }
  }

  /** In every run at most one of {live source, pending timer} exists, and closed means neither. */
  lemma OneConnectionAtATime(maxRetries: nat, evs: seq<Event>)
    requires IsRun(Init(maxRetries), evs)
    ensures var s := RunFrom(Init(maxRetries), evs);
            && |s.live| + |s.pending| <= 1
            && (s.phase.Closed? <==> s.live == {} && s.pending == {})
            && s.retries <= maxRetries
            && (s.pending != {} ==> 400.0 <= s.delay <= 36000.0)
  {
    CoherentHolds(Init(maxRetries), evs);
  }

  /** Open, with no failure counted. */
  predicate FreshWhenOpen(s: State) {
    s.phase.Open? ==> s.retries == 0
  }

  lemma {:induction false} FreshHolds(s: State, evs: seq<Event>)
    requires FreshWhenOpen(s) && IsRun(s, evs)
    ensures FreshWhenOpen(RunFrom(s, evs))
    decreases |evs|
  {
    if evs != [] { FreshHolds(Apply(s, evs[0]), evs[1..]); }
  }

  /** Whatever failed before, an open manager has no retries on its account. */
  lemma SuccessForgives(maxRetries: nat, evs: seq<Event>)
    requires IsRun(Init(maxRetries), evs)
    ensures var s := RunFrom(Init(maxRetries), evs); s.phase == Open ==> s.retries == 0
  {
    FreshHolds(Init(maxRetries), evs);
  }

  // ------------------------------------------------------------- giving up

  /** The event makes `fail` run on a connection that is not closed. */
  predicate Counts(s: State, ev: Event)
    requires Enabled(s, ev)
  {
    match ev
    case TimerFires(_, ok, _) => !ok
    case Failed(_, _) => s.didProbe && !s.phase.Closed?
    case ProbeEnds(_, _) => !s.phase.Closed?
    case _ => false
  }

  function Failures(s: State, evs: seq<Event>): nat
    requires IsRun(s, evs)
    decreases |evs|
  {
    if evs == [] then 0
    else (if Counts(s, evs[0]) then 1 else 0) + Failures(Apply(s, evs[0]), evs[1..])
  }

  /** No connection succeeds and the user does not open again. */
  predicate Unaided(evs: seq<Event>) {
    forall i :: 0 <= i < |evs| ==> !evs[i].Opened? && !evs[i].UserOpen?
  }

  predicate UserCloses(evs: seq<Event>) {
    exists i :: 0 <= i < |evs| && evs[i].UserClose?
  }

  lemma UserClosesFirst(evs: seq<Event>)
    requires evs != []
    ensures UserCloses(evs) <==> evs[0].UserClose? || UserCloses(evs[1..])
  {
    if UserCloses(evs) && !evs[0].UserClose? {
      var i :| 0 <= i < |evs| && evs[i].UserClose?;
      assert evs[1..][i - 1] == evs[i];
    }
  }

  lemma FailureStep(s: State, ev: Event)
    requires Coherent(s) && Enabled(s, ev) && !ev.Opened? && !ev.UserOpen?
    ensures var t := Apply(s, ev);
            && (s.phase.Closed? || ev.UserClose? ==> t.phase.Closed? && !Counts(s, ev))
            && (Counts(s, ev) ==>
                  if s.retries < s.maxRetries then t.retries == s.retries + 1 && !t.phase.Closed? else t.phase.Closed?)
            && (!Counts(s, ev) ==> t.retries == s.retries && (t.phase.Closed? <==> s.phase.Closed? || ev.UserClose?))
  {
    hide Backoff;
  }

  lemma {:induction false} GivesUpFrom(s: State, evs: seq<Event>)
    requires Coherent(s) && IsRun(s, evs) && Unaided(evs)
    ensures var t := RunFrom(s, evs);
            && Failures(s, evs) <= s.maxRetries - s.retries + 1
            && (s.phase.Closed? ==> t.phase.Closed? && Failures(s, evs) == 0)
            && (!t.phase.Closed? ==> t.retries == s.retries + Failures(s, evs))
            && (t.phase.Closed? <==>
                  s.phase.Closed? || UserCloses(evs) || Failures(s, evs) == s.maxRetries - s.retries + 1)
    decreases |evs|
  {
    hide Coherent, Enabled, Apply, Counts, UserCloses;
    if evs != [] {
      UserClosesFirst(evs);
      var t := Apply(s, evs[0]);
      FailureStep(s, evs[0]);
      CoherentStep(s, evs[0]);
      assert Unaided(evs[1..]);
      RetriesBounded(t);
      RetriesBounded(s);
      GivesUpFrom(t, evs[1..]);
    } else {
      RetriesBounded(s);
      NobodyCloses();
    }
  }

  lemma NobodyCloses()
    ensures !UserCloses([])
  {}

  lemma RetriesBounded(s: State)
    requires Coherent(s)
    ensures s.retries <= s.maxRetries
  {}

  /**
    Without a success (and without the user opening again) a manager opened once
    fails at most maxRetries + 1 times, and after that many failures it is closed
    with nothing live and nothing scheduled.
   */
  lemma ClosesAfterMaxRetries(maxRetries: nat, constructs: bool, r: real, evs: seq<Event>)
    requires Random(r)
    requires var s := AfterOpen(Init(maxRetries), constructs, r); IsRun(s, evs) && Unaided(evs)
    ensures var s := AfterOpen(Init(maxRetries), constructs, r);
            var n := Failures(s, evs) + if constructs then 0 else 1;
            && n <= maxRetries + 1
            && (n == maxRetries + 1 ==> var t := RunFrom(s, evs); t.phase.Closed? && t.live == {} && t.pending == {})
  {
    var s0 := Init(maxRetries);
    CoherentStep(s0, UserOpen(constructs, r));
    var s := AfterOpen(s0, constructs, r);
    assert Apply(s0, UserOpen(constructs, r)) == s;
    GivesUpFrom(s, evs);
    CoherentHolds(s, evs);
  }

  /**
    From an open connection on, with no further success and nobody opening or closing,
    the manager closes by itself exactly at failure maxRetries + 1: earlier outages that
    it recovered from do not count.
   */
  lemma FullBudgetFromOpen(maxRetries: nat, before: seq<Event>, evs: seq<Event>)
    requires IsRun(Init(maxRetries), before) && IsRun(RunFrom(Init(maxRetries), before), evs)
    requires RunFrom(Init(maxRetries), before).phase == Open && Unaided(evs) && !UserCloses(evs)
    ensures var s := RunFrom(Init(maxRetries), before);
            && Failures(s, evs) <= maxRetries + 1
            && (RunFrom(s, evs).phase == Closed <==> Failures(s, evs) == maxRetries + 1)
  {
    hide UserCloses, Unaided;
    SuccessForgives(maxRetries, before);
    CoherentHolds(Init(maxRetries), before);
    GivesUpFrom(RunFrom(Init(maxRetries), before), evs);
  }

  // ---------------------------------------------------------------- late probes

  /**
    Sources and probes are older than the next id, and the current source has a probe
    out exactly if it asked for one.
   */
  predicate ProbesOk(s: State) {
    && (forall e :: e in s.probes ==> e < s.nextId)
    && (s.es.Some? ==> s.es.value < s.nextId && (s.didProbe <==> s.es.value in s.probes))
  }

  lemma ProbesStep(s: State, ev: Event)
    requires ProbesOk(s) && Enabled(s, ev)
    ensures ProbesOk(Apply(s, ev))
  {
    hide Backoff;
  }

  /** The source reported an error in these events; its probe was answered in them. */
  predicate Erred(evs: seq<Event>, e: nat) {
    exists i :: 0 <= i < |evs| && evs[i].Failed? && evs[i].e == e
  }

  predicate Answered(evs: seq<Event>, e: nat) {
    exists i :: 0 <= i < |evs| && evs[i].ProbeEnds? && evs[i].e == e
  }

  lemma FirstEvent(evs: seq<Event>, e: nat)
    requires evs != []
    ensures Erred(evs, e) <==> (evs[0].Failed? && evs[0].e == e) || Erred(evs[1..], e)
    ensures Answered(evs, e) <==> (evs[0].ProbeEnds? && evs[0].e == e) || Answered(evs[1..], e)
  {
    assert forall i :: 0 <= i < |evs| - 1 ==> evs[1..][i] == evs[i + 1];
    if Erred(evs, e) && !(evs[0].Failed? && evs[0].e == e) {
      var i :| 0 <= i < |evs| && evs[i].Failed? && evs[i].e == e;
      assert evs[1..][i - 1] == evs[i];
    }
    if Answered(evs, e) && !(evs[0].ProbeEnds? && evs[0].e == e) {
      var i :| 0 <= i < |evs| && evs[i].ProbeEnds? && evs[i].e == e;
      assert evs[1..][i - 1] == evs[i];
    }
  }

  predicate Past(s: State, e: nat) {
    e < s.nextId && s.es != Some(e)
  }

  lemma PastStep(s: State, ev: Event, e: nat)
    requires ProbesOk(s) && Enabled(s, ev) && Past(s, e)
    ensures Past(Apply(s, ev), e) && !(ev.Failed? && ev.e == e)
  {
    hide Backoff;
  }

  /** A source that has been given up reports no more errors. */
  lemma {:induction false} PastIsSilent(s: State, evs: seq<Event>, e: nat)
    requires ProbesOk(s) && IsRun(s, evs) && Past(s, e)
    ensures !Erred(evs, e)
    decreases |evs|
  {
    hide ProbesOk, Enabled, Apply, Past;
    if evs != [] {
      FirstEvent(evs, e);
      PastStep(s, evs[0], e);
      ProbesStep(s, evs[0]);
      PastIsSilent(Apply(s, evs[0]), evs[1..], e);
    }
  }

  lemma ProbeStep(s: State, ev: Event, e: nat)
    requires ProbesOk(s) && Enabled(s, ev)
    ensures var t := Apply(s, ev);
            && (ev.ProbeEnds? && ev.e == e ==> e !in t.probes && Past(t, e))
            && (ev.Failed? && ev.e == e ==> e in t.probes)
            && (!(ev.ProbeEnds? && ev.e == e) && !(ev.Failed? && ev.e == e) ==> (e in t.probes <==> e in s.probes))
  {
    hide Backoff;
  }

  lemma {:induction false} ProbesAlong(s: State, evs: seq<Event>, e: nat)
    requires ProbesOk(s) && IsRun(s, evs)
    ensures e in RunFrom(s, evs).probes <==> (e in s.probes || Erred(evs, e)) && !Answered(evs, e)
    decreases |evs|
  {
    hide ProbesOk, Enabled, Apply, Past, Erred, Answered;
    if evs == [] {
      NoEvents(e);
    } else {
      FirstEvent(evs, e);
      ProbeStep(s, evs[0], e);
      ProbesStep(s, evs[0]);
      ProbesAlong(Apply(s, evs[0]), evs[1..], e);
      if evs[0].ProbeEnds? && evs[0].e == e { PastIsSilent(Apply(s, evs[0]), evs[1..], e); }
    }
  }

  lemma NoEvents(e: nat)
    ensures !Erred([], e) && !Answered([], e)
  {}

  /**
    After every run: a probe can end a connection other than the one it was started for
    if and only if that connection is live, the source of the probe is another one, it
    reported an error, and its probe has not been answered yet.
   */
  lemma LateProbeExactly(maxRetries: nat, evs: seq<Event>, e: nat, r: real)
    requires IsRun(Init(maxRetries), evs) && Random(r)
    ensures var s := RunFrom(Init(maxRetries), evs);
            (Enabled(s, ProbeEnds(e, r)) && s.live != {} && e !in s.live && Apply(s, ProbeEnds(e, r)).live == {})
            <==> s.live != {} && e !in s.live && Erred(evs, e) && !Answered(evs, e)
  {
    hide Erred, Answered, Backoff;
    ProbesAlong(Init(maxRetries), evs, e);
    CoherentHolds(Init(maxRetries), evs);
  }

  /** One more event of a run that ends in the given state. */
  lemma {:induction false} Follow(s: State, evs: seq<Event>, ev: Event, end: State) returns (evs': seq<Event>, t: State)
    requires IsRun(s, evs) && RunFrom(s, evs) == end && Enabled(end, ev)
    ensures evs' == evs + [ev] && t == Apply(end, ev)
    ensures IsRun(s, evs') && RunFrom(s, evs') == t
    decreases |evs|
  {
    hide Enabled, Apply;
    evs', t := evs + [ev], Apply(end, ev);
    if evs == [] {
      assert ([] + [ev])[1..] == [] && ([] + [ev])[0] == ev;
      assert IsRun(t, []);
    } else {
      assert (evs + [ev])[0] == evs[0] && (evs + [ev])[1..] == evs[1..] + [ev];
      var _, _ := Follow(Apply(s, evs[0]), evs[1..], ev, end);
    }
  }

  /**
    A run in which nobody closes anything: the second error of a connection brings on
    the next one, which opens, and the answer to the first one's probe ends it.
   */
  lemma LateProbeEndsHealthyConnection(maxRetries: nat, r: real)
    requires maxRetries > 0 && Random(r)
    ensures var evs := [UserOpen(true, r), Failed(1, r), Failed(1, r), TimerFires(2, true, r), Opened(3)];
            && IsRun(Init(maxRetries), evs)
            && var s := RunFrom(Init(maxRetries), evs);
            && s.phase == Open && s.live == {3} && Enabled(s, ProbeEnds(1, r))
            && var t := Apply(s, ProbeEnds(1, r)); t.phase == Error && t.live == {} && t.pending != {}
  {
    var s0 := Init(maxRetries);
    assert IsRun(s0, []) && RunFrom(s0, []) == s0;
    hide IsRun, RunFrom, Backoff;
    var r1, s1 := Follow(s0, [], UserOpen(true, r), s0);
    var r2, s2 := Follow(s0, r1, Failed(1, r), s1);
    var r3, s3 := Follow(s0, r2, Failed(1, r), s2);
    var r4, s4 := Follow(s0, r3, TimerFires(2, true, r), s3);
    var r5, s5 := Follow(s0, r4, Opened(3), s4);
    assert r5 == [UserOpen(true, r), Failed(1, r), Failed(1, r), TimerFires(2, true, r), Opened(3)];
    assert s5.live == {3};
  }
}
