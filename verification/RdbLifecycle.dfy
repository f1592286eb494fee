/**
  The per-cluster RethinkDB connection (EnsureRDB, rdbMonitor and the teardown in
  internal/cluster/registry.go): lazy connect with retries, a monitor goroutine
  that swaps the connection after transient ping failures, and a wait group.

  Calls and monitors interleave freely; check and install of EnsureRDB are
  separate steps, so overlapping calls are part of the model.  Close reads the
  connection without the lock; what it then does to the connection is not
  modelled, so claims about connections end where Close begins.
 */
module RdbLifecycle {
  import opened Options

  // managers (connections), EnsureRDB calls, monitor goroutines
  type Mgr(==, !new)
  type Call(==, !new)
  type Mon(==, !new)

  const ATTEMPTS := 5
  const RECONNECTS := 3

  /** An EnsureRDB call: dialling, holding a fresh manager, past the install, past wg.Add, returned. */
  datatype CallPc = Dialing(i: nat) | Got(m: Mgr) | Installed | Counted | Returned(ok: bool)

  /** A monitor; NilBranch is the "mgr == nil" branch, which would call EnsureRDB. */
  datatype MonPc = Ticking | Pinging | NilBranch | Redialing(i: nat) | HasNew(m: Mgr) | Exited

  /** Where a manager is; only recorded, no step reads it. */
  datatype Place = InCall(c: Call) | InMonitor(n: Mon) | Current | Leaked | Shut

  datatype State = State(
    rdb: Option<Mgr>,              // inst.RDB
    wg: int,                       // inst.wg
    calls: map<Call, CallPc>,
    monitors: map<Mon, MonPc>,
    open: set<Mgr>,                // connections not closed
    closing: bool,                 // Registry.Close has begun (context canceled)
    place: map<Mgr, Place>,
    installs: nat)                 // installs made by EnsureRDB

  datatype Action =
    | Check(c: Call)
    | Dialed(c: Call, m: Mgr)
    | DialFails(c: Call, giveUp: bool)
    | Install(c: Call)
    | Count(c: Call)
    | Launch(c: Call, n: Mon)
    | Tick(n: Mon)
    | PingOk(n: Mon)
    | PingFails(n: Mon, transient: bool)
    | Redialed(n: Mon, m: Mgr)
    | RedialFails(n: Mon)
    | Swap(n: Mon)
    | Exit(n: Mon)
    | BeginClose

  const INIT := State(None, 0, map[], map[], {}, false, map[], 0)

  predicate Enabled(s: State, a: Action) {
    match a
    case Check(c) => c !in s.calls
    case Dialed(c, m) => c in s.calls && s.calls[c].Dialing? && m !in s.place
    case DialFails(c, _) => c in s.calls && s.calls[c].Dialing?
    case Install(c) => c in s.calls && s.calls[c].Got?
    case Count(c) => c in s.calls && s.calls[c].Installed?
    case Launch(c, n) => c in s.calls && s.calls[c].Counted? && n !in s.monitors
    case Tick(n) => n in s.monitors && s.monitors[n].Ticking?
    case PingOk(n) => n in s.monitors && s.monitors[n].Pinging?
    case PingFails(n, _) => n in s.monitors && s.monitors[n].Pinging?
    case Redialed(n, m) => n in s.monitors && s.monitors[n].Redialing? && m !in s.place
    case RedialFails(n) => n in s.monitors && s.monitors[n].Redialing?
    case Swap(n) => n in s.monitors && s.monitors[n].HasNew?
    case Exit(n) => n in s.monitors && s.closing && (s.monitors[n].Ticking? || s.monitors[n].Redialing?)
    case BeginClose => !s.closing
  }

  function To(s: State, c: Call, pc: CallPc): State {
    s.(calls := s.calls[c := pc])
  }

  function MonTo(s: State, n: Mon, pc: MonPc): State {
    s.(monitors := s.monitors[n := pc])
  }

  function Apply(s: State, a: Action): State
    requires Enabled(s, a)
  {
    match a
    case Check(c) => To(s, c, if s.rdb.Some? then Returned(true) else Dialing(0))
    case Dialed(c, m) => To(s, c, Got(m)).(open := s.open + {m}, place := s.place[m := InCall(c)])
    case DialFails(c, giveUp) =>
      // a canceled context gives up at once
      To(s, c, if giveUp || s.calls[c].i + 1 >= ATTEMPTS then Returned(false) else Dialing(s.calls[c].i + 1))
    case Install(c) =>
      var m := s.calls[c].m;
      var p := if s.rdb.Some? then s.place[s.rdb.value := Leaked] else s.place;
      To(s, c, Installed).(rdb := Some(m), place := p[m := Current], installs := s.installs + 1)
    case Count(c) => To(s, c, Counted).(wg := s.wg + 1)
    case Launch(c, n) => MonTo(To(s, c, Returned(true)), n, Ticking)
    case Tick(n) => MonTo(s, n, if s.rdb.Some? then Pinging else NilBranch)
    case PingOk(n) => MonTo(s, n, Ticking)
    case PingFails(n, transient) => MonTo(s, n, if transient then Redialing(0) else Ticking)
    case Redialed(n, m) => MonTo(s, n, HasNew(m)).(open := s.open + {m}, place := s.place[m := InMonitor(n)])
    case RedialFails(n) =>
      MonTo(s, n, if s.monitors[n].i + 1 >= RECONNECTS then Ticking else Redialing(s.monitors[n].i + 1))
    case Swap(n) =>
      var m := s.monitors[n].m;
      var t := MonTo(s, n, Ticking).(rdb := Some(m));
      if s.rdb.Some?
      then t.(open := s.open - {s.rdb.value}, place := s.place[s.rdb.value := Shut][m := Current])
      else t.(place := s.place[m := Current])
    case Exit(n) => MonTo(s, n, Exited).(wg := s.wg - 1)
    case BeginClose => s.(closing := true)
  }

  predicate IsRun(s: State, acts: seq<Action>)
    decreases |acts|
  {
    acts == [] || (Enabled(s, acts[0]) && IsRun(Apply(s, acts[0]), acts[1..]))
  }

  function RunFrom(s: State, acts: seq<Action>): State
    requires IsRun(s, acts)
    decreases |acts|
  {
    if acts == [] then s else RunFrom(Apply(s, acts[0]), acts[1..])
  }

  // ------------------------------------------------------------------ invariant

  function Live(s: State): set<Mon> {
    set n | n in s.monitors && !s.monitors[n].Exited?
  }

  function CountedCalls(s: State): set<Call> {
    set c | c in s.calls && s.calls[c].Counted?
  }

  function InstalledCalls(s: State): set<Call> {
    set c | c in s.calls && s.calls[c].Installed?
  }

  function LeakedMgrs(s: State): set<Mgr> {
    set m | m in s.place && s.place[m].Leaked?
  }

  /** Past its install a call relies on the connection being set. */
  predicate CallOk(s: State, c: Call)
    requires c in s.calls
  {
    match s.calls[c]
    case Got(m) => m in s.place && s.place[m] == InCall(c)
    case Installed => s.rdb.Some?
    case Counted => s.rdb.Some?
    case _ => true
  }

  predicate MonOk(s: State, n: Mon)
    requires n in s.monitors
  {
    && s.rdb.Some?
    && !s.monitors[n].NilBranch?
    && (s.monitors[n].HasNew? ==> s.monitors[n].m in s.place && s.place[s.monitors[n].m] == InMonitor(n))
  }

  predicate MgrOk(s: State, m: Mgr)
    requires m in s.place
  {
    && (m in s.open <==> !s.place[m].Shut?)
    && (s.place[m].Current? <==> s.rdb == Some(m))
    && (s.place[m].InCall? ==> s.place[m].c in s.calls && s.calls[s.place[m].c] == Got(m))
    && (s.place[m].InMonitor? ==> s.place[m].n in s.monitors && s.monitors[s.place[m].n] == HasNew(m))
  }

  ghost predicate Shape(s: State) {
    && (forall c :: c in s.calls ==> CallOk(s, c))
    && (forall n :: n in s.monitors ==> MonOk(s, n))
    && (forall m :: m in s.place ==> MgrOk(s, m))
    && s.open <= s.place.Keys
    && (s.rdb.Some? ==> s.rdb.value in s.place)
  }

  /** The wait group counts the live monitors and those about to be launched. */
  ghost predicate WgOk(s: State) {
    s.wg == |Live(s)| + |CountedCalls(s)|
  }

  /** Every install leads to one monitor; all installs but the first leak the connection they replace. */
  ghost predicate InstallsOk(s: State) {
    && |s.monitors.Keys| + |CountedCalls(s)| + |InstalledCalls(s)| == s.installs
    && (if s.rdb.Some? then 1 else 0) + |LeakedMgrs(s)| == s.installs
  }

  /** What a step relies on. */
  predicate Local(s: State, a: Action)
    requires Enabled(s, a)
  {
    && (s.rdb.Some? ==> s.rdb.value in s.place && MgrOk(s, s.rdb.value))
    && match a
       case Install(c) => CallOk(s, c) && MgrOk(s, s.calls[c].m)
       case Launch(c, _) => CallOk(s, c)
       case Tick(n) => MonOk(s, n)
       case Swap(n) => MonOk(s, n) && MgrOk(s, s.monitors[n].m)
       case _ => true
  }

  lemma LocalFromShape(s: State, a: Action)
    requires Shape(s) && Enabled(s, a)
    ensures Local(s, a)
  {
    if a.Install? { assert CallOk(s, a.c); }
    if a.Swap? || a.Tick? { assert MonOk(s, a.n); }
  }

  lemma CallStep(s: State, a: Action, c: Call)
    requires Enabled(s, a) && Local(s, a) && c in Apply(s, a).calls && (c in s.calls ==> CallOk(s, c))
    ensures CallOk(Apply(s, a), c)
  {}

  lemma MonStep(s: State, a: Action, n: Mon)
    requires Enabled(s, a) && Local(s, a) && n in Apply(s, a).monitors && (n in s.monitors ==> MonOk(s, n))
    ensures MonOk(Apply(s, a), n)
  {}

  lemma MgrStep(s: State, a: Action, m: Mgr)
    requires Enabled(s, a) && Local(s, a) && m in Apply(s, a).place && (m in s.place ==> MgrOk(s, m))
    requires m !in s.place ==> m !in s.open
    ensures MgrOk(Apply(s, a), m)
  {}

  lemma ShapeStep(s: State, a: Action)
    requires Shape(s) && Enabled(s, a)
    ensures Shape(Apply(s, a))
  {
    hide Enabled, Apply, CallOk, MonOk, MgrOk, Local;
    LocalFromShape(s, a);
    var t := Apply(s, a);
    forall c | c in t.calls ensures CallOk(t, c) { CallStep(s, a, c); }
    forall n | n in t.monitors ensures MonOk(t, n) { MonStep(s, a, n); }
    forall m | m in t.place ensures MgrOk(t, m) { MgrStep(s, a, m); }
    OpenStep(s, a);
  }

  lemma OpenStep(s: State, a: Action)
    requires Enabled(s, a) && s.open <= s.place.Keys && (s.rdb.Some? ==> s.rdb.value in s.place)
    ensures var t := Apply(s, a); t.open <= t.place.Keys && (t.rdb.Some? ==> t.rdb.value in t.place)
  {}

  // ------------------------------------------------------------------- counting

  lemma OneMore<T>(a: set<T>, x: T, b: set<T>)
    requires x !in a && b == a + {x}
    ensures |b| == |a| + 1
  {}

  lemma OneLess<T>(a: set<T>, x: T, b: set<T>)
    requires x in a && b == a - {x}
    ensures |b| == |a| - 1
  {}

  // how each counted set changes, element by element

  lemma LiveElem(s: State, a: Action, n: Mon)
    requires Enabled(s, a)
    ensures n in Live(Apply(s, a)) <==> (n in Live(s) && !(a.Exit? && a.n == n)) || (a.Launch? && a.n == n)
  {}

  lemma CountedElem(s: State, a: Action, c: Call)
    requires Enabled(s, a)
    ensures c in CountedCalls(Apply(s, a))
            <==> (c in CountedCalls(s) && !(a.Launch? && a.c == c)) || (a.Count? && a.c == c)
  {}

  lemma InstalledElem(s: State, a: Action, c: Call)
    requires Enabled(s, a)
    ensures c in InstalledCalls(Apply(s, a))
            <==> (c in InstalledCalls(s) && !(a.Count? && a.c == c)) || (a.Install? && a.c == c)
  {}

  lemma LeakedElem(s: State, a: Action, m: Mgr)
    requires Enabled(s, a) && Local(s, a)
    ensures m in LeakedMgrs(Apply(s, a)) <==> m in LeakedMgrs(s) || (a.Install? && s.rdb == Some(m))
  {}

  lemma Counters(s: State, a: Action)
    requires Enabled(s, a) && Local(s, a)
    ensures var t := Apply(s, a);
            && t.wg == s.wg + (if a.Count? then 1 else 0) - (if a.Exit? then 1 else 0)
            && t.installs == s.installs + (if a.Install? then 1 else 0)
            && t.monitors.Keys == s.monitors.Keys + (if a.Launch? then {a.n} else {})
            && (t.rdb.Some? <==> s.rdb.Some? || a.Install? || a.Swap?)
            && (a.Swap? ==> s.rdb.Some?)
            && (a.Launch? ==> a.n !in s.monitors && a.n !in Live(s) && a.c in CountedCalls(s))
            && (a.Exit? ==> a.n in Live(s))
            && (a.Count? ==> a.c in InstalledCalls(s) && a.c !in CountedCalls(s))
            && (a.Install? ==> a.c !in InstalledCalls(s))
            && (a.Install? && s.rdb.Some? ==> s.rdb.value !in LeakedMgrs(s))
  {}

  lemma WgStep(s: State, a: Action)
    requires Enabled(s, a) && Local(s, a) && WgOk(s)
    ensures WgOk(Apply(s, a))
  {
    hide Enabled, Apply, Local, Live, CountedCalls, InstalledCalls, LeakedMgrs;
    Counters(s, a);
    CountedChange(s, a);
    LiveChange(s, a);
  }

  lemma LiveChange(s: State, a: Action)
    requires Enabled(s, a) && Local(s, a)
    ensures |Live(Apply(s, a))| == |Live(s)| + (if a.Launch? then 1 else 0) - (if a.Exit? then 1 else 0)
  {
    hide Enabled, Apply, Local, Live, CountedCalls, InstalledCalls, LeakedMgrs;
    var t := Apply(s, a);
    Counters(s, a);
    forall n
      ensures n in Live(t) <==> (n in Live(s) && !(a.Exit? && a.n == n)) || (a.Launch? && a.n == n)
    {
      LiveElem(s, a, n);
    }
    if a.Launch? {
      OneMore(Live(s), a.n, Live(t));
    } else if a.Exit? {
      OneLess(Live(s), a.n, Live(t));
    } else {
      assert Live(t) == Live(s);
    }
  }

  lemma CountedChange(s: State, a: Action)
    requires Enabled(s, a) && Local(s, a)
    ensures |CountedCalls(Apply(s, a))|
            == |CountedCalls(s)| + (if a.Count? then 1 else 0) - (if a.Launch? then 1 else 0)
  {
    hide Enabled, Apply, Local, Live, CountedCalls, InstalledCalls, LeakedMgrs;
    var t := Apply(s, a);
    Counters(s, a);
    forall c
      ensures c in CountedCalls(t) <==> (c in CountedCalls(s) && !(a.Launch? && a.c == c)) || (a.Count? && a.c == c)
    {
      CountedElem(s, a, c);
    }
    if a.Count? {
      OneMore(CountedCalls(s), a.c, CountedCalls(t));
    } else if a.Launch? {
      OneLess(CountedCalls(s), a.c, CountedCalls(t));
    } else {
      assert CountedCalls(t) == CountedCalls(s);
    }
  }

  lemma InstalledChange(s: State, a: Action)
    requires Enabled(s, a) && Local(s, a)
    ensures |InstalledCalls(Apply(s, a))|
            == |InstalledCalls(s)| + (if a.Install? then 1 else 0) - (if a.Count? then 1 else 0)
  {
    hide Enabled, Apply, Local, Live, CountedCalls, InstalledCalls, LeakedMgrs;
    var t := Apply(s, a);
    Counters(s, a);
    forall c
      ensures c in InstalledCalls(t)
              <==> (c in InstalledCalls(s) && !(a.Count? && a.c == c)) || (a.Install? && a.c == c)
    {
      InstalledElem(s, a, c);
    }
    if a.Install? {
      OneMore(InstalledCalls(s), a.c, InstalledCalls(t));
    } else if a.Count? {
      OneLess(InstalledCalls(s), a.c, InstalledCalls(t));
    } else {
      assert InstalledCalls(t) == InstalledCalls(s);
    }
  }

  lemma LeakedChange(s: State, a: Action)
    requires Enabled(s, a) && Local(s, a)
    ensures |LeakedMgrs(Apply(s, a))| == |LeakedMgrs(s)| + (if a.Install? && s.rdb.Some? then 1 else 0)
  {
    hide Enabled, Apply, Local, Live, CountedCalls, InstalledCalls, LeakedMgrs;
    var t := Apply(s, a);
    Counters(s, a);
    forall m
      ensures m in LeakedMgrs(t) <==> m in LeakedMgrs(s) || (a.Install? && s.rdb == Some(m))
    {
      LeakedElem(s, a, m);
    }
    if a.Install? && s.rdb.Some? {
      OneMore(LeakedMgrs(s), s.rdb.value, LeakedMgrs(t));
    } else {
      assert LeakedMgrs(t) == LeakedMgrs(s);
    }
  }

  lemma InstallsStep(s: State, a: Action)
    requires Enabled(s, a) && Local(s, a) && InstallsOk(s)
    ensures InstallsOk(Apply(s, a))
  {
    hide Enabled, Apply, Local, Live, CountedCalls, InstalledCalls, LeakedMgrs;
    Counters(s, a);
    CountedChange(s, a);
    InstalledChange(s, a);
    LeakedChange(s, a);
    if a.Launch? { OneMore(s.monitors.Keys, a.n, Apply(s, a).monitors.Keys); }
  }

  ghost predicate Inv(s: State) {
    Shape(s) && WgOk(s) && InstallsOk(s)
  }

  lemma InvStep(s: State, a: Action)
    requires Inv(s) && Enabled(s, a)
    ensures Inv(Apply(s, a))
  {
    hide Enabled, Apply, Shape, WgOk, InstallsOk, Local;
    LocalFromShape(s, a);
    ShapeStep(s, a);
    WgStep(s, a);
    InstallsStep(s, a);
  }

  lemma {:induction false} InvHolds(s: State, acts: seq<Action>)
    requires Inv(s) && IsRun(s, acts)
    ensures Inv(RunFrom(s, acts))
    decreases |acts|
  {
    hide Enabled, Apply, Inv;
    if acts != [] {
      InvStep(s, acts[0]);
      InvHolds(Apply(s, acts[0]), acts[1..]);
    }
  }

  lemma InitInv()
    ensures Inv(INIT)
  {
    assert Live(INIT) == {} && CountedCalls(INIT) == {} && InstalledCalls(INIT) == {} && LeakedMgrs(INIT) == {};
  }

  // ------------------------------------------------------------------- theorems

  /**
    In every reachable state the wait group equals the live monitors plus those
    being launched, and a monitor only runs when the connection is set: its
    "mgr == nil" branch is unreachable, so monitors never start monitors.
   */
  lemma MonitorsSeeAConnection(acts: seq<Action>)
    requires IsRun(INIT, acts)
    ensures var s := RunFrom(INIT, acts);
            && s.wg == |Live(s)| + |CountedCalls(s)|
            && (forall n :: n in s.monitors ==> s.rdb.Some? && !s.monitors[n].NilBranch?)
            && (s.wg == 0 ==> Live(s) == {})
  {
    InitInv();
    InvHolds(INIT, acts);
    var s := RunFrom(INIT, acts);
    forall n | n in s.monitors ensures s.rdb.Some? && !s.monitors[n].NilBranch? { assert MonOk(s, n); }
  }

  /**
    Conservation of connections: a connection ever dialled is open exactly when it
    is the installed one, is still in the hands of the one call or monitor that
    dialled it, or was leaked; and each EnsureRDB install beyond the first leaks
    one connection and adds one monitor.
   */
  lemma ConnectionsConserved(acts: seq<Action>, m: Mgr)
    requires IsRun(INIT, acts)
    ensures var s := RunFrom(INIT, acts);
            && (m in s.open ==> m in s.place)
            && (!s.closing && m in s.place ==>
                  (m in s.open <==>
                     || s.rdb == Some(m)
                     || (exists c :: c in s.calls && s.calls[c] == Got(m))
                     || (exists n :: n in s.monitors && s.monitors[n] == HasNew(m))
                     || m in LeakedMgrs(s)))
            && (!s.closing && s.rdb.Some? ==> s.rdb.value in s.open)
            && |s.monitors| + |CountedCalls(s)| + |InstalledCalls(s)|
               == (if s.rdb.Some? then 1 else 0) + |LeakedMgrs(s)|
  {
    InitInv();
    InvHolds(INIT, acts);
    var s := RunFrom(INIT, acts);
    if s.rdb.Some? { assert MgrOk(s, s.rdb.value); }
    assert |s.monitors| == |s.monitors.Keys|;
    if m in s.place {
      assert MgrOk(s, m);
      forall c | c in s.calls && s.calls[c] == Got(m) ensures s.place[m] == InCall(c) { assert CallOk(s, c); }
      forall n | n in s.monitors && s.monitors[n] == HasNew(m)
        ensures s.place[m] == InMonitor(n)
      {
        assert MonOk(s, n);
      }
    }
  }

  // ------------------------------------------------------- exactly what leaks

  /** A call installs its connection where there is one already. */
  predicate Overwrites(s: State, a: Action)
    requires Enabled(s, a)
  {
    a.Install? && s.rdb.Some?
  }

  /** How many installs of the run meet a connection. */
  function OverwritesIn(s: State, acts: seq<Action>): nat
    requires IsRun(s, acts)
    decreases |acts|
  {
    if acts == [] then 0
    else (if Overwrites(s, acts[0]) then 1 else 0) + OverwritesIn(Apply(s, acts[0]), acts[1..])
  }

  lemma {:induction false} LeaksCounted(s: State, acts: seq<Action>)
    requires Inv(s) && IsRun(s, acts)
    ensures |LeakedMgrs(RunFrom(s, acts))| == |LeakedMgrs(s)| + OverwritesIn(s, acts)
    decreases |acts|
  {
    hide Enabled, Apply, Shape, WgOk, InstallsOk, Local, LeakedMgrs;
    if acts != [] {
      LocalFromShape(s, acts[0]);
      LeakedChange(s, acts[0]);
      InvStep(s, acts[0]);
      LeaksCounted(Apply(s, acts[0]), acts[1..]);
    }
  }

  /**
    Exactly what leaks, over every run: as many connections as installs that met a
    connection, and each such install adds one monitor to the one there should be.
    So nothing leaks if and only if no install meets a connection.
   */
  lemma LeaksExactly(acts: seq<Action>)
    requires IsRun(INIT, acts)
    ensures var s, n := RunFrom(INIT, acts), OverwritesIn(INIT, acts);
            && |LeakedMgrs(s)| == n
            && (LeakedMgrs(s) == {} <==> n == 0)
            && |s.monitors| + |CountedCalls(s)| + |InstalledCalls(s)| == (if s.rdb.Some? then 1 else 0) + n
  {
    InitInv();
    InvHolds(INIT, acts);
    LeaksCounted(INIT, acts);
    assert LeakedMgrs(INIT) == {};
    var s := RunFrom(INIT, acts);
    assert |s.monitors| == |s.monitors.Keys|;
  }

  // ---------------------------------------------------------- calls in series

  predicate Active(s: State, c: Call) {
    c in s.calls && !s.calls[c].Returned?
  }

  /** No EnsureRDB call starts while another is under way. */
  ghost predicate Serial(s: State, acts: seq<Action>)
    requires IsRun(s, acts)
    decreases |acts|
  {
    acts == [] || ((acts[0].Check? ==> forall c :: !Active(s, c)) && Serial(Apply(s, acts[0]), acts[1..]))
  }

  ghost predicate SerialInv(s: State) {
    && (forall c, d :: Active(s, c) && Active(s, d) ==> c == d)
    && (forall c :: c in s.calls && (s.calls[c].Dialing? || s.calls[c].Got?) ==> s.rdb.None?)
  }

  lemma SerialStep(s: State, a: Action)
    requires Enabled(s, a) && Local(s, a) && SerialInv(s) && (a.Check? ==> forall c :: !Active(s, c))
    requires a.Swap? ==> s.rdb.Some?
    ensures SerialInv(Apply(s, a)) && !Overwrites(s, a)
  {
    var t := Apply(s, a);
    forall c, d | Active(t, c) && Active(t, d) ensures c == d {
      assert (c in s.calls ==> Active(s, c)) && (d in s.calls ==> Active(s, d));
    }
    if a.Install? { assert Active(s, a.c); }
    forall c | c in t.calls && (t.calls[c].Dialing? || t.calls[c].Got?) ensures t.rdb.None? {
      assert c in s.calls ==> Active(s, c);
    }
  }

  /** Calls in series never install over a connection. */
  lemma {:induction false} SerialNeverOverwrites(s: State, acts: seq<Action>)
    requires Inv(s) && IsRun(s, acts) && Serial(s, acts) && SerialInv(s)
    ensures OverwritesIn(s, acts) == 0
    decreases |acts|
  {
    hide Enabled, Apply, Shape, WgOk, InstallsOk, SerialInv, Local, Overwrites;
    if acts != [] {
      LocalFromShape(s, acts[0]);
      SwapSeesConnection(s, acts[0]);
      SerialStep(s, acts[0]);
      InvStep(s, acts[0]);
      SerialNeverOverwrites(Apply(s, acts[0]), acts[1..]);
    }
  }

  lemma SwapSeesConnection(s: State, a: Action)
    requires Shape(s) && Enabled(s, a)
    ensures a.Swap? ==> s.rdb.Some?
  {
    if a.Swap? { assert MonOk(s, a.n); }
  }

  /**
    If EnsureRDB calls do not overlap there is never more than one monitor, and,
    until Close begins, the installed connection is open and every connection no
    longer installed or in hand has been closed.
   */
  lemma SerialCallsLeakNothing(acts: seq<Action>, m: Mgr)
    requires IsRun(INIT, acts) && Serial(INIT, acts)
    ensures OverwritesIn(INIT, acts) == 0
    ensures var s := RunFrom(INIT, acts);
            && |s.monitors| <= 1
            && (!s.closing && s.rdb.Some? ==> s.rdb.value in s.open)
            && (!s.closing && m in s.open ==>
                  || s.rdb == Some(m)
                  || (exists c :: c in s.calls && s.calls[c] == Got(m))
                  || (exists n :: n in s.monitors && s.monitors[n] == HasNew(m)))
  {
    InitInv();
    SerialNeverOverwrites(INIT, acts);
    LeaksExactly(acts);
    ConnectionsConserved(acts, m);
  }

  /** Two overlapping calls: the first connection is leaked open and a second monitor will run. */
  lemma OverlapLeaks(c: Call, d: Call, m: Mgr, m': Mgr) returns (acts: seq<Action>)
    requires c != d && m != m'
    ensures IsRun(INIT, acts) && !Serial(INIT, acts)
    ensures var s := RunFrom(INIT, acts);
            s.rdb == Some(m') && m in s.open && m in LeakedMgrs(s) && InstalledCalls(s) == {c, d}
  {
    var s1 := Apply(INIT, Check(c));
    var s;
    assert IsRun(INIT, []) && RunFrom(INIT, []) == INIT;
    acts, s := Follow(INIT, [], Check(c), INIT);
    acts, s := Follow(INIT, acts, Check(d), s);
    acts, s := Follow(INIT, acts, Dialed(c, m), s);
    acts, s := Follow(INIT, acts, Dialed(d, m'), s);
    acts, s := Follow(INIT, acts, Install(c), s);
    acts, s := Follow(INIT, acts, Install(d), s);
    assert Active(s1, c);
    assert acts[0] == Check(c) && acts[1..][0] == Check(d) && IsRun(s1, acts[1..]);
    assert !Serial(s1, acts[1..]);
    assert InstalledCalls(s) == {c, d};
  }

  /** One more step of a run that ends in the given state. */
  lemma Follow(s: State, acts: seq<Action>, a: Action, end: State) returns (acts': seq<Action>, t: State)
    requires IsRun(s, acts) && RunFrom(s, acts) == end && Enabled(end, a)
    ensures acts' == acts + [a] && t == Apply(end, a) && IsRun(s, acts') && RunFrom(s, acts') == t
  {
    acts', t := acts + [a], Apply(end, a);
    Extend(s, acts, a, t);
  }

  lemma {:induction false} Extend(s: State, acts: seq<Action>, a: Action, t: State)
    requires IsRun(s, acts) && Enabled(RunFrom(s, acts), a) && Apply(RunFrom(s, acts), a) == t
    ensures IsRun(s, acts + [a]) && RunFrom(s, acts + [a]) == t
    decreases |acts|
  {
    hide Enabled, Apply;
    if acts == [] {
      assert ([] + [a])[1..] == [] && ([] + [a])[0] == a;
      assert IsRun(t, []);
    } else {
      assert (acts + [a])[0] == acts[0] && (acts + [a])[1..] == acts[1..] + [a];
      Extend(Apply(s, acts[0]), acts[1..], a, t);
    }
  }
}
