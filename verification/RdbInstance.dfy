/**
  EnsureRDB and the monitor's swap (internal/cluster/registry.go) as code on the
  instance's fields, step for step the actions of RdbLifecycle.
 */
module RdbInstance {
  import opened Options
  import opened RdbLifecycle

  /** What a dial returns; a refused one also says whether the context was canceled while waiting. */
  datatype Dial = Connected(m: Mgr) | Refused(canceled: bool)

  datatype Ping = Healthy | Unhealthy(transient: bool)

  /** The first successful dial of `n`, unless a cancellation comes first; None if there is none. */
  function FirstDial(dials: nat -> Dial, i: nat, n: nat): Option<Mgr>
    decreases n - i
  {
    if i >= n then None
    else match dials(i)
         case Connected(m) => Some(m)
         case Refused(canceled) => if canceled then None else FirstDial(dials, i + 1, n)
  }

  /** The monitor's dials: the first of `n` that succeeds. */
  function FirstOf(dials: nat -> Option<Mgr>, i: nat, n: nat): Option<Mgr>
    decreases n - i
  {
    if i >= n then None else if dials(i).Some? then dials(i) else FirstOf(dials, i + 1, n)
  }

  /** Dial i is the one that counts: it succeeds, and no earlier one succeeded or was cut short by a cancellation. */
  predicate FirstSuccess(dials: nat -> Dial, i: nat, m: Mgr) {
    dials(i) == Connected(m) && forall j: nat :: j < i ==> dials(j) == Refused(false)
  }

  lemma {:induction false} FirstDialFrom(dials: nat -> Dial, i: nat, n: nat)
    requires forall j: nat :: j < i ==> dials(j) == Refused(false)
    ensures forall m :: FirstDial(dials, i, n) == Some(m) <==> exists k: nat :: i <= k < n && FirstSuccess(dials, k, m)
    decreases n - i
  {
    if i < n {
      if dials(i).Connected? {
        assert FirstSuccess(dials, i, dials(i).m);
      } else if !dials(i).canceled {
        FirstDialFrom(dials, i + 1, n);
      }
    }
  }

  /** The connection an uninterrupted EnsureRDB dials: that of the first success among its dials. */
  lemma FirstDialExactly(dials: nat -> Dial, n: nat, m: Mgr)
    ensures FirstDial(dials, 0, n) == Some(m) <==> exists k: nat :: k < n && FirstSuccess(dials, k, m)
  {
    FirstDialFrom(dials, 0, n);
  }

  predicate FirstRedial(dials: nat -> Option<Mgr>, i: nat, m: Mgr) {
    dials(i) == Some(m) && forall j: nat :: j < i ==> dials(j) == None
  }

  lemma {:induction false} FirstOfFrom(dials: nat -> Option<Mgr>, i: nat, n: nat)
    requires forall j: nat :: j < i ==> dials(j) == None
    ensures forall m :: FirstOf(dials, i, n) == Some(m) <==> exists k: nat :: i <= k < n && FirstRedial(dials, k, m)
    decreases n - i
  {
    if i < n {
      if dials(i).Some? {
        assert FirstRedial(dials, i, dials(i).value);
      } else {
        FirstOfFrom(dials, i + 1, n);
      }
    }
  }

  /** The connection a monitor swaps in: the first success among its dials. */
  lemma FirstOfExactly(dials: nat -> Option<Mgr>, n: nat, m: Mgr)
    ensures FirstOf(dials, 0, n) == Some(m) <==> exists k: nat :: k < n && FirstRedial(dials, k, m)
  {
    FirstOfFrom(dials, 0, n);
  }

  /** What wakes a monitor's select: the end of its context or a tick. */
  datatype Wake = Done | Ticked(ping: Ping)

  class Instance {
    var rdb: Option<Mgr>
    var wg: int
    var calls: map<Call, CallPc>
    var monitors: map<Mon, MonPc>
    var open: set<Mgr>
    var closing: bool
    var place: map<Mgr, Place>
    var installs: nat

    function View(): State
      reads this
    {
      State(rdb, wg, calls, monitors, open, closing, place, installs)
    }

    method Present(c: Call) returns (present: bool)
      requires Enabled(View(), Check(c))
      modifies this`calls
      ensures View() == Apply(old(View()), Check(c)) && (present <==> rdb.Some?)
      ensures c in calls && calls[c] == if present then Returned(true) else Dialing(0)
    {
      present := rdb.Some?;
      calls := calls[c := if present then Returned(true) else Dialing(0)];
    }

    method TakeDialed(c: Call, m: Mgr)
      requires Enabled(View(), Dialed(c, m))
      modifies this`calls, this`open, this`place
      ensures View() == Apply(old(View()), Dialed(c, m)) && c in calls && calls[c] == Got(m)
    {
      calls, open, place := calls[c := Got(m)], open + {m}, place[m := InCall(c)];
    }

    method NoteRefused(c: Call, canceled: bool) returns (stop: bool)
      requires Enabled(View(), DialFails(c, canceled))
      modifies this`calls
      ensures View() == Apply(old(View()), DialFails(c, canceled)) && place == old(place)
      ensures stop <==> canceled || old(calls)[c].i + 1 >= ATTEMPTS
      ensures c in calls && calls[c] == if stop then Returned(false) else Dialing(old(calls)[c].i + 1)
    {
      stop := canceled || calls[c].i + 1 >= ATTEMPTS;
      calls := calls[c := if stop then Returned(false) else Dialing(calls[c].i + 1)];
    }

    /** The install under the instance's lock: whatever is there is replaced. */
    method SetRDB(c: Call)
      requires Enabled(View(), Install(c))
      modifies this`calls, this`rdb, this`place, this`installs
      ensures View() == Apply(old(View()), Install(c))
              && rdb == Some(old(calls)[c].m) && c in calls && calls[c] == Installed
    {
      var m := calls[c].m;
      if rdb.Some? {
        place := place[rdb.value := Leaked];
      }
      rdb := Some(m);
      place, installs, calls := place[m := Current], installs + 1, calls[c := Installed];
    }

    /** wg.Add(1) and the go statement. */
    method StartMonitor(c: Call, n: Mon)
      requires Enabled(View(), Count(c)) && n !in monitors
      modifies this`calls, this`wg, this`monitors
      ensures Enabled(old(View()), Count(c)) && Enabled(Apply(old(View()), Count(c)), Launch(c, n))
      ensures View() == Apply(Apply(old(View()), Count(c)), Launch(c, n))
    {
      wg := wg + 1;
      calls := calls[c := Counted];
      calls, monitors := calls[c := Returned(true)], monitors[n := Ticking];
    }

    /** A successful dial: take the connection, install it, start its monitor. */
    method Adopt(c: Call, m: Mgr, n: Mon, ghost s0: State, ghost before: seq<Action>) returns (ghost acts: seq<Action>)
      requires IsRun(s0, before) && View() == RunFrom(s0, before)
      requires c in calls && calls[c].Dialing? && m !in place && n !in monitors
      modifies this
      ensures IsRun(s0, acts) && View() == RunFrom(s0, acts) && rdb == Some(m)
    {
      hide Apply, RunFrom, IsRun;
      TakeDialed(c, m);
      Extend(s0, before, Dialed(c, m), View());
      acts := before + [Dialed(c, m)];
      SetRDB(c);
      Extend(s0, acts, Install(c), View());
      acts := acts + [Install(c)];
      ghost var mid := View();
      StartMonitor(c, n);
      Extend(s0, acts, Count(c), Apply(mid, Count(c)));
      Extend(s0, acts + [Count(c)], Launch(c, n), View());
      acts := acts + [Count(c)] + [Launch(c, n)];
    }

    /**
      An EnsureRDB call that is not interrupted: it is a run of the machine, it
      succeeds exactly when a connection was there or one of at most five dials
      succeeds before a cancellation, and it then leaves that connection installed.
     */
    method EnsureRDB(c: Call, dials: nat -> Dial, n: Mon) returns (ok: bool, ghost acts: seq<Action>)
      requires Inv(View()) && c !in calls && n !in monitors
      requires forall i :: dials(i).Connected? ==> dials(i).m !in place
      modifies this
      ensures IsRun(old(View()), acts) && View() == RunFrom(old(View()), acts) && Inv(View())
      ensures ok <==> old(rdb).Some? || FirstDial(dials, 0, 5).Some?
      ensures rdb == if old(rdb).Some? then old(rdb) else FirstDial(dials, 0, 5)
    {
      hide Apply, Inv, RunFrom, IsRun;
      ghost var s0 := View();
      EmptyRun(s0);
      CanCheck(s0, c);
      acts := [Check(c)];
      var present := Present(c);
      Extend(s0, [], Check(c), View());
      assert [] + [Check(c)] == acts;
      if present {
        InvHolds(s0, acts);
        return true, acts;
      }
      var i := 0;
      while i < ATTEMPTS
        invariant i <= ATTEMPTS && IsRun(s0, acts) && View() == RunFrom(s0, acts)
        invariant c in calls && calls[c] == (if i < ATTEMPTS then Dialing(i) else Returned(false))
        invariant rdb.None? && place == old(place) && n !in monitors
        invariant FirstDial(dials, 0, ATTEMPTS) == FirstDial(dials, i, ATTEMPTS)
      {
        match dials(i) {
          case Connected(m) =>
            assert dials(i).Connected?;
            acts := Adopt(c, m, n, s0, acts);
            InvHolds(s0, acts);
            return true, acts;
          case Refused(canceled) =>
            var stop := NoteRefused(c, canceled);
            Extend(s0, acts, DialFails(c, canceled), View());
            acts := acts + [DialFails(c, canceled)];
            if stop {
              InvHolds(s0, acts);
              return false, acts;
            }
        }
        i := i + 1;
      }
      InvHolds(s0, acts);
      return false, acts;
    }

    /** A tick: with a connection set the monitor pings, otherwise it would call EnsureRDB. */
    method OnTick(n: Mon)
      requires Enabled(View(), Tick(n))
      modifies this`monitors
      ensures View() == Apply(old(View()), Tick(n)) && n in monitors
              && monitors[n] == if rdb.Some? then Pinging else NilBranch
    {
      monitors := monitors[n := if rdb.Some? then Pinging else NilBranch];
    }

    method OnPing(n: Mon, ping: Ping)
      requires Enabled(View(), PingOk(n))
      modifies this`monitors
      ensures Enabled(old(View()), PingAction(n, ping)) && View() == Apply(old(View()), PingAction(n, ping))
      ensures n in monitors && monitors[n] == if ping == Unhealthy(true) then Redialing(0) else Ticking
    {
      monitors := monitors[n := if ping == Unhealthy(true) then Redialing(0) else Ticking];
    }

    method OnRedialed(n: Mon, m: Mgr)
      requires Enabled(View(), Redialed(n, m))
      modifies this`monitors, this`open, this`place
      ensures View() == Apply(old(View()), Redialed(n, m))
              && n in monitors && monitors[n] == HasNew(m) && open == old(open) + {m}
    {
      monitors, open, place := monitors[n := HasNew(m)], open + {m}, place[m := InMonitor(n)];
    }

    method OnRedialFailed(n: Mon)
      requires Enabled(View(), RedialFails(n))
      modifies this`monitors
      ensures View() == Apply(old(View()), RedialFails(n)) && n in monitors
      ensures monitors[n] == if old(monitors)[n].i + 1 >= RECONNECTS then Ticking else Redialing(old(monitors)[n].i + 1)
    {
      var i := monitors[n].i + 1;
      monitors := monitors[n := if i >= RECONNECTS then Ticking else Redialing(i)];
    }

    /** The connection swap under the lock: the old connection is closed first. */
    method SwapRDB(n: Mon)
      requires Enabled(View(), Swap(n)) && rdb.Some?
      modifies this`rdb, this`open, this`place, this`monitors
      ensures View() == Apply(old(View()), Swap(n))
      ensures rdb == Some(old(monitors)[n].m) && open == old(open) - {old(rdb).value}
      ensures n in monitors && monitors[n] == Ticking
    {
      var m := monitors[n].m;
      open := open - {rdb.value};
      place := place[rdb.value := Shut][m := Current];
      rdb := Some(m);
      monitors := monitors[n := Ticking];
    }

    /** The monitor returns; its deferred wg.Done runs. */
    method Return(n: Mon)
      requires Enabled(View(), Exit(n))
      modifies this`monitors, this`wg
      ensures View() == Apply(old(View()), Exit(n)) && n in monitors && monitors[n] == Exited && wg == old(wg) - 1
    {
      monitors, wg := monitors[n := Exited], wg - 1;
    }

    /** The reconnect loop of the monitor; a canceled context makes it return before the first dial. */
    method Reconnect(n: Mon, dials: nat -> Option<Mgr>, ghost s0: State, ghost before: seq<Action>)
      returns (ghost acts: seq<Action>)
      requires IsRun(s0, before) && View() == RunFrom(s0, before)
      requires rdb.Some? && rdb.value in place && n in monitors && monitors[n] == Redialing(0)
      requires forall i :: dials(i).Some? ==> dials(i).value !in place
      modifies this
      ensures IsRun(s0, acts) && View() == RunFrom(s0, acts) && closing == old(closing) && n in monitors
      ensures closing ==> monitors[n] == Exited && wg == old(wg) - 1 && rdb == old(rdb) && open == old(open)
      ensures !closing ==> monitors[n] == Ticking && wg == old(wg)
      ensures !closing ==>
                var m := FirstOf(dials, 0, 3);
                if m.Some? then rdb == m && open == old(open) - {old(rdb).value} + {m.value}
                else rdb == old(rdb) && open == old(open)
    {
      hide Apply, RunFrom, IsRun;
      acts := before;
      var i := 0;
      while i < RECONNECTS
        invariant i <= RECONNECTS && IsRun(s0, acts) && View() == RunFrom(s0, acts)
        invariant n in monitors && monitors[n] == (if i < RECONNECTS then Redialing(i) else Ticking)
        invariant rdb == old(rdb) && open == old(open)
                  && place == old(place) && wg == old(wg) && closing == old(closing)
        invariant i > 0 ==> !closing
        invariant FirstOf(dials, 0, RECONNECTS) == FirstOf(dials, i, RECONNECTS)
      {
        if closing {
          Return(n);
          Extend(s0, acts, Exit(n), View());
          acts := acts + [Exit(n)];
          return;
        }
        var d := dials(i);
        if d.Some? {
          var m := d.value;
          assert m != rdb.value;
          OnRedialed(n, m);
          Extend(s0, acts, Redialed(n, m), View());
          acts := acts + [Redialed(n, m)];
          SwapRDB(n);
          Extend(s0, acts, Swap(n), View());
          acts := acts + [Swap(n)];
          return;
        }
        OnRedialFailed(n);
        Extend(s0, acts, RedialFails(n), View());
        acts := acts + [RedialFails(n)];
        i := i + 1;
      }
    }

    /**
      One uninterrupted turn of a monitor, before or after cancellation: a run of the
      machine that never takes the "mgr == nil" branch.  A canceled monitor returns when
      its select sees the end of the context or before it dials, and leaves the
      connection alone; otherwise it swaps the connection exactly when the ping fails
      transiently and one of at most three dials succeeds, and then the new connection
      is open, the old one closed and no other touched.
     */
    method MonitorTurn(n: Mon, wake: Wake, dials: nat -> Option<Mgr>) returns (ghost acts: seq<Action>)
      requires Inv(View()) && Enabled(View(), Tick(n)) && (wake.Done? ==> closing)
      requires forall i :: dials(i).Some? ==> dials(i).value !in place
      modifies this
      ensures IsRun(old(View()), acts) && View() == RunFrom(old(View()), acts) && Inv(View())
      ensures old(rdb).Some? && closing == old(closing) && n in monitors
      ensures monitors[n] == Exited <==> wake.Done? || (closing && wake.ping == Unhealthy(true))
      ensures monitors[n] == Exited || monitors[n] == Ticking
      ensures wg == if monitors[n] == Exited then old(wg) - 1 else old(wg)
      ensures var m := FirstOf(dials, 0, 3);
              if !closing && wake == Ticked(Unhealthy(true)) && m.Some?
              then rdb == m && open == old(open) - {old(rdb).value} + {m.value}
              else rdb == old(rdb) && open == old(open)
    {
      hide Apply, Inv, RunFrom, IsRun, FirstOf;
      ghost var s0 := View();
      EmptyRun(s0);
      MonitorHasConnection(s0, n);
      if wake.Done? {
        Return(n);
        Extend(s0, [], Exit(n), View());
        acts := [] + [Exit(n)];
      } else {
        OnTick(n);
        Extend(s0, [], Tick(n), View());
        acts := [] + [Tick(n)];
        OnPing(n, wake.ping);
        Extend(s0, acts, PingAction(n, wake.ping), View());
        acts := acts + [PingAction(n, wake.ping)];
        if wake.ping == Unhealthy(true) {
          acts := Reconnect(n, dials, s0, acts);
        }
      }
      InvHolds(s0, acts);
    }
  }

  function PingAction(n: Mon, ping: Ping): Action {
    match ping
    case Healthy => PingOk(n)
    case Unhealthy(transient) => PingFails(n, transient)
  }

  /** A monitor exists only where a connection is set, and that one is accounted for. */
  lemma MonitorHasConnection(s: State, n: Mon)
    requires Inv(s) && n in s.monitors
    ensures s.rdb.Some? && s.rdb.value in s.place && s.open <= s.place.Keys
  {
    hide WgOk, InstallsOk;
    assert MonOk(s, n);
  }

  lemma EmptyRun(s: State)
    ensures IsRun(s, []) && RunFrom(s, []) == s
  {}

  lemma CanCheck(s: State, c: Call)
    requires c !in s.calls
    ensures Enabled(s, Check(c))
  {}
}
