/**
  Changefeed replication: SubscribeTable's classification of raw changes and its
  bounded channel (internal/db/db.go), the SSE handler loop with its paused backlog
  (internal/httpx/db_handlers.go) and the grid's view maintenance
  (ui/src/components/DataGrid.tsx).
 */
module Changefeed {
  import opened Options

  // A column value: null, a string or some other scalar. The grid only looks at its
  // key column, at truthiness and, through `??`, at null.
  datatype Value = Null | Str(s: string) | Json(code: int)

  type Row = map<string, Value>

  const CHANNEL_CAP := 256
  const BACKLOG_CAP := 512

  /** A raw change: the row before and after; nil is None. */
  datatype Change = Change(before: Option<Row>, after: Option<Row>)

  datatype Event =
    | InitEv
    | Insert(row: Row)
    | Update(before: Row, row: Row)
    | Delete(before: Row)
    | Untyped                    // both sides nil: the event keeps an empty type
    | Paused(backlog: nat)

  /** SubscribeTable's if-chain. */
  function Classify(c: Change): Event {
    if c.before.None? && c.after.Some? then Insert(c.after.value)
    else if c.after.Some? && c.before.Some? then Update(c.before.value, c.after.value)
    else if c.after.None? && c.before.Some? then Delete(c.before.value)
    else Untyped
  }

  /** The type of an event says which sides of the change are there. */
  lemma ClassifyExactly(b: Row, a: Row)
    ensures Classify(Change(None, Some(a))) == Insert(a)
    ensures Classify(Change(Some(b), Some(a))) == Update(b, a)
    ensures Classify(Change(Some(b), None)) == Delete(b)
    ensures Classify(Change(None, None)) == Untyped
  {}

  function ClassifyAll(cs: seq<Change>): (r: seq<Event>)
    ensures |r| == |cs|
    ensures forall i :: 0 <= i < |cs| ==> r[i] == Classify(cs[i])
  {
    seq(|cs|, i requires 0 <= i < |cs| => Classify(cs[i]))
  }

  // ----------------------------------------------- producer, channel and handler

  /** The feed's goroutine, its channel, and the SSE handler. */
  datatype State = State(
    read: nat,                   // raw changes taken from the cursor so far
    chan: seq<Event>,            // the bounded channel
    taken: nat,                  // events the handler has received
    paused: bool,
    backlog: seq<Event>,
    written: seq<Event>,         // events written to the client
    closed: bool,                // the goroutine has returned and closed the channel
    ended: bool)                 // the handler has returned

  datatype Action =
    | Produce                    // read a change and send it; blocks while the channel is full
    | FeedEnds                   // the cursor or the context ends
    | Consume(writeOk: bool)     // the handler receives
    | Heartbeat(writeOk: bool)
    | Drained                    // the handler receives from the closed, empty channel
    | Disconnect                 // the request context ends

  function Init(paused: bool): State {
    State(0, [], 0, paused, [], [InitEv], false, false)
  }

  predicate Enabled(history: seq<Change>, s: State, a: Action) {
    match a
    case Produce => !s.closed && s.read < |history| && |s.chan| < CHANNEL_CAP
    case FeedEnds => !s.closed
    case Consume(_) => !s.ended && s.chan != []
    case Heartbeat(_) => !s.ended
    case Drained => !s.ended && s.closed && s.chan == []
    case Disconnect => !s.ended
  }

  function Apply(history: seq<Change>, s: State, a: Action): State
    requires Enabled(history, s, a)
  {
    match a
    case Produce => s.(read := s.read + 1, chan := s.chan + [Classify(history[s.read])])
    case Consume(writeOk) =>
      var ev := s.chan[0];
      var t := s.(chan := s.chan[1..], taken := s.taken + 1);
      if s.paused then (if |s.backlog| < BACKLOG_CAP then t.(backlog := s.backlog + [ev]) else t)
      else if writeOk then t.(written := s.written + [ev])
      else t.(ended := true)
    case Heartbeat(writeOk) =>
      if s.paused && |s.backlog| > 0
      then (if writeOk then s.(written := s.written + [Paused(|s.backlog|)]) else s)
      else if writeOk then s else s.(ended := true)
    case FeedEnds => s.(closed := true)
    case Drained => s.(ended := true)
    case Disconnect => s.(ended := true)
  }

  predicate IsRun(history: seq<Change>, s: State, acts: seq<Action>)
    decreases |acts|
  {
    acts == [] || (Enabled(history, s, acts[0]) && IsRun(history, Apply(history, s, acts[0]), acts[1..]))
  }

  function RunFrom(history: seq<Change>, s: State, acts: seq<Action>): State
    requires IsRun(history, s, acts)
    decreases |acts|
  {
    if acts == [] then s else RunFrom(history, Apply(history, s, acts[0]), acts[1..])
  }

  predicate IsRowEvent(e: Event) {
    e.Insert? || e.Update? || e.Delete?
  }

  function Min(a: nat, b: nat): nat {
    if a < b then a else b
  }

  /** The channel holds what was read and not yet received; the client or the backlog has the rest. */
  ghost predicate FeedInv(history: seq<Change>, s: State) {
    var evs := ClassifyAll(history);
    && s.taken + |s.chan| == s.read <= |history|
    && s.chan == evs[s.taken..s.read]
    && |s.chan| <= CHANNEL_CAP
    && (!s.paused ==>
          s.written == [InitEv] + evs[..s.taken]
          || (s.ended && s.taken > 0 && s.written == [InitEv] + evs[..s.taken - 1]))
    && (s.paused ==> s.backlog == evs[..Min(s.taken, BACKLOG_CAP)])
    && (s.paused ==> forall i :: 0 <= i < |s.written| ==> !IsRowEvent(s.written[i]))
  }

  lemma ProduceStep(history: seq<Change>, s: State)
    requires FeedInv(history, s) && Enabled(history, s, Produce)
    ensures FeedInv(history, Apply(history, s, Produce))
  {
    var evs := ClassifyAll(history);
    hide Classify;
    assert evs[s.taken..s.read + 1] == evs[s.taken..s.read] + [evs[s.read]];
  }

  lemma ConsumeStep(history: seq<Change>, s: State, writeOk: bool)
    requires FeedInv(history, s) && Enabled(history, s, Consume(writeOk))
    ensures FeedInv(history, Apply(history, s, Consume(writeOk)))
  {
    var evs := ClassifyAll(history);
    hide Classify, ClassifyAll;
    assert s.chan[0] == evs[s.taken];
    assert evs[s.taken..s.read][1..] == evs[s.taken + 1..s.read];
    assert evs[..s.taken + 1] == evs[..s.taken] + [evs[s.taken]];
  }

  lemma QuietStep(history: seq<Change>, s: State, a: Action)
    requires FeedInv(history, s) && Enabled(history, s, a) && !a.Produce? && !a.Consume?
    ensures FeedInv(history, Apply(history, s, a))
  {
    hide ClassifyAll;
  }

  lemma FeedStep(history: seq<Change>, s: State, a: Action)
    requires FeedInv(history, s) && Enabled(history, s, a)
    ensures FeedInv(history, Apply(history, s, a))
  {
    hide FeedInv, Enabled, Apply;
    match a
    case Produce => ProduceStep(history, s);
    case Consume(writeOk) => ConsumeStep(history, s, writeOk);
    case _ => QuietStep(history, s, a);
  }

  lemma {:induction false} FeedHolds(history: seq<Change>, s: State, acts: seq<Action>)
    requires FeedInv(history, s) && IsRun(history, s, acts)
    ensures FeedInv(history, RunFrom(history, s, acts))
    decreases |acts|
  {
    hide FeedInv, Enabled, Apply;
    if acts != [] {
      FeedStep(history, s, acts[0]);
      FeedHolds(history, Apply(history, s, acts[0]), acts[1..]);
    }
  }

  /**
    At every moment an unpaused client has received "init" followed by a prefix of
    the classified changes, in order and without loss (all that was taken from the
    channel, except an event whose write failed and ended the stream).  A paused
    client receives no row event and the backlog is the first min(n, 512) events.
   */
  lemma ClientReceivesPrefix(history: seq<Change>, paused: bool, acts: seq<Action>)
    requires IsRun(history, Init(paused), acts)
    ensures var s := RunFrom(history, Init(paused), acts);
            var evs := ClassifyAll(history);
            && s.taken + |s.chan| == s.read <= |history|
            && (!paused ==> |s.written| >= 1 && |s.written| - 1 <= s.taken
                            && s.written == [InitEv] + evs[..|s.written| - 1]
                            && (!s.ended ==> |s.written| - 1 == s.taken))
            && (paused ==> s.backlog == evs[..Min(s.taken, 512)])
            && (paused ==> forall i :: 0 <= i < |s.written| ==> !IsRowEvent(s.written[i]))
            && |s.chan| <= 256
            && (!s.closed && s.read < |history| ==> (Enabled(history, s, Produce) <==> |s.chan| < 256))
  {
    assert ClassifyAll(history)[..0] == [] && ClassifyAll(history)[0..0] == [];
    FeedHolds(history, Init(paused), acts);
    PausedStays(history, Init(paused), acts);
  }

  lemma {:induction false} PausedStays(history: seq<Change>, s: State, acts: seq<Action>)
    requires IsRun(history, s, acts)
    ensures RunFrom(history, s, acts).paused == s.paused
    decreases |acts|
  {
    if acts != [] { PausedStays(history, Apply(history, s, acts[0]), acts[1..]); }
  }

  // ------------------------------------------------------------ the handler loop

  /** What one turn of the handler's select sees, and whether its write succeeds. */
  datatype Input = Next(ev: Event, writeOk: bool) | Tick(writeOk: bool) | FeedClosed | ClientGone

  function EventsOf(script: seq<Input>): seq<Event> {
    if script == [] then []
    else EventsOf(script[..|script| - 1]) + if script[|script| - 1].Next? then [script[|script| - 1].ev] else []
  }

  /** The input on which the handler returns; a failed status event of a paused stream is ignored. */
  predicate Ends(paused: bool, waiting: nat, input: Input) {
    match input
    case ClientGone => true
    case FeedClosed => true
    case Next(_, writeOk) => !paused && !writeOk
    case Tick(writeOk) => !writeOk && !(paused && waiting > 0)
  }

  /**
    Which inputs end the handler: the end of the client or of the feed; a failed write
    of an event, which only an unpaused handler writes; and a failed heartbeat, unless
    it was the status event of a backlog.
   */
  lemma EndsExactly(paused: bool, waiting: nat, ev: Event)
    ensures Ends(paused, waiting, ClientGone) && Ends(paused, waiting, FeedClosed)
    ensures !Ends(paused, waiting, Next(ev, true)) && !Ends(paused, waiting, Tick(true))
    ensures Ends(false, waiting, Next(ev, false)) && Ends(false, waiting, Tick(false))
    ensures !Ends(true, waiting, Next(ev, false))
    ensures Ends(true, waiting, Tick(false)) <==> waiting == 0
  {}

  /** The machine's step for an input of the handler. */
  function StepFor(input: Input): Action {
    match input
    case Next(_, writeOk) => Consume(writeOk)
    case Tick(writeOk) => Heartbeat(writeOk)
    case FeedClosed => Drained
    case ClientGone => Disconnect
  }

  /** The handler's turn, as Turn computes it, is the machine's step. */
  lemma TurnIsStep(history: seq<Change>, s: State, input: Input)
    requires Enabled(history, s, StepFor(input)) && (input.Next? ==> s.chan[0] == input.ev)
    ensures var t := Apply(history, s, StepFor(input));
            && (t.ended <==> Ends(s.paused, |s.backlog|, input))
            && t.backlog == s.backlog + (if s.paused && input.Next? && |s.backlog| < 512 then [input.ev] else [])
            && t.written == s.written + (if !s.paused && input.Next? && input.writeOk then [input.ev]
                                         else if s.paused && input == Tick(true) && s.backlog != []
                                              then [Paused(|s.backlog|)]
                                         else [])
            && t.taken == s.taken + (if input.Next? then 1 else 0)
            && t.chan == (if input.Next? then s.chan[1..] else s.chan)
  {}

  /** The handler gets past the first n inputs. */
  ghost predicate GoesOn(paused: bool, script: seq<Input>, n: nat)
    requires n <= |script|
  {
    forall i :: 0 <= i < n ==> !Ends(paused, |EventsOf(script[..i])|, script[i])
  }

  /** One turn of the handler's select. */
  method Turn(paused: bool, input: Input, written: seq<Event>, backlog: seq<Event>)
    returns (written': seq<Event>, backlog': seq<Event>, ended: bool)
    ensures ended <==> Ends(paused, |backlog|, input)
    ensures backlog' == backlog + if paused && input.Next? && |backlog| < 512 then [input.ev] else []
    ensures written' == written + if !paused && input.Next? && input.writeOk then [input.ev]
                                  else if paused && input == Tick(true) && backlog != [] then [Paused(|backlog|)]
                                  else []
  {
    written', backlog', ended := written, backlog, false;
    match input {
      case ClientGone => ended := true;
      case FeedClosed => ended := true;
      case Next(ev, writeOk) =>
        if paused {
          if |backlog| < BACKLOG_CAP {
            backlog' := backlog + [ev];
          }
        } else if writeOk {
          written' := written + [ev];
        } else {
          ended := true;
        }
      case Tick(writeOk) =>
        if paused && |backlog| > 0 {
          if writeOk {
            written' := written + [Paused(|backlog|)];
          }
        } else if !writeOk {
          ended := true;
        }
    }
  }

  /** "init" followed by counts of a backlog that is not empty. */
  ghost predicate OnlyCounts(written: seq<Event>, backlog: seq<Event>) {
    && written != [] && written[0] == InitEv
    && forall i :: 0 < i < |written| ==> written[i].Paused? && 0 < written[i].backlog <= |backlog|
  }

  /** What a handler that has had these events has written and kept. */
  ghost predicate HandlerOk(paused: bool, evs: seq<Event>, written: seq<Event>, backlog: seq<Event>) {
    if paused then OnlyCounts(written, backlog) && backlog == evs[..Min(|evs|, BACKLOG_CAP)]
    else backlog == [] && written == [InitEv] + evs
  }

  lemma EventsOfSnoc(script: seq<Input>, n: nat)
    requires n < |script|
    ensures EventsOf(script[..n + 1]) == EventsOf(script[..n]) + if script[n].Next? then [script[n].ev] else []
  {
    assert script[..n + 1][..n] == script[..n];
  }

  lemma BacklogStarted(paused: bool, evs: seq<Event>, written: seq<Event>, backlog: seq<Event>)
    requires HandlerOk(paused, evs, written, backlog)
    ensures paused ==> (|backlog| > 0 <==> |evs| > 0)
  {}

  /** A turn keeps the handler in order, except that a failed write loses its event and ends the handler. */
  lemma HandlerStep(paused: bool, evs: seq<Event>, input: Input, written: seq<Event>, backlog: seq<Event>,
                    written': seq<Event>, backlog': seq<Event>)
    requires HandlerOk(paused, evs, written, backlog)
    requires backlog' == backlog + if paused && input.Next? && |backlog| < BACKLOG_CAP then [input.ev] else []
    requires written' == written + if !paused && input.Next? && input.writeOk then [input.ev]
                                   else if paused && input == Tick(true) && backlog != [] then [Paused(|backlog|)]
                                   else []
    ensures if !paused && input.Next? && !input.writeOk
            then HandlerOk(paused, evs, written', backlog') && Ends(paused, |backlog|, input)
            else HandlerOk(paused, evs + (if input.Next? then [input.ev] else []), written', backlog')
  {
    if paused {
      var evs' := evs + if input.Next? then [input.ev] else [];
      assert evs[..|evs|] == evs && evs'[..|evs'|] == evs';
      if |evs| >= BACKLOG_CAP { assert evs'[..BACKLOG_CAP] == evs[..BACKLOG_CAP]; }
    }
  }

  lemma GoesOnSnoc(paused: bool, script: seq<Input>, n: nat, waiting: nat)
    requires n < |script| && GoesOn(paused, script, n)
    requires paused ==> (waiting > 0 <==> |EventsOf(script[..n])| > 0)
    ensures Ends(paused, waiting, script[n]) <==> Ends(paused, |EventsOf(script[..n])|, script[n])
    ensures !Ends(paused, waiting, script[n]) ==> GoesOn(paused, script, n + 1)
  {}

  /**
    handleChangefeed: `used` is how many inputs it consumed; it returns on the first
    input that ends it, or keeps waiting at the end of the script.  The unpaused
    stream is "init" and the events consumed, less the last one when its write
    failed.  The paused backlog is the first events, at most 512, and the stream
    then is "init" followed by counts of a backlog that is not empty.
   */
  method HandleChangefeed(paused: bool, script: seq<Input>)
    returns (written: seq<Event>, backlog: seq<Event>, used: nat)
    ensures used <= |script|
    ensures HandlerOk(paused, EventsOf(script[..used]), written, backlog)
            || (!paused && used > 0 && script[used - 1].Next? && !script[used - 1].writeOk
                && HandlerOk(paused, EventsOf(script[..used - 1]), written, backlog))
    ensures || (used == |script| && GoesOn(paused, script, used))
            || (used > 0 && GoesOn(paused, script, used - 1)
                && Ends(paused, |EventsOf(script[..used - 1])|, script[used - 1]))
  {
    hide EventsOf, GoesOn, Ends, HandlerOk;
    written, backlog, used := [InitEv], [], 0;
    NothingYet(paused, script);
    while used < |script|
      invariant used <= |script|
      invariant HandlerOk(paused, EventsOf(script[..used]), written, backlog)
      invariant GoesOn(paused, script, used)
    {
      EventsOfSnoc(script, used);
      BacklogStarted(paused, EventsOf(script[..used]), written, backlog);
      GoesOnSnoc(paused, script, used, |backlog|);
      var written', backlog', ended := Turn(paused, script[used], written, backlog);
      HandlerStep(paused, EventsOf(script[..used]), script[used], written, backlog, written', backlog');
      written, backlog, used := written', backlog', used + 1;
      if ended {
        return;
      }
    }
  }

  lemma NothingYet(paused: bool, script: seq<Input>)
    ensures HandlerOk(paused, EventsOf(script[..0]), [InitEv], []) && GoesOn(paused, script, 0)
  {}

  // ----------------------------------------------------------- the client's view

  /** JavaScript truthiness of a column value. */
  predicate Truthy(v: Value) {
    v != Null && v != Str("") && v != Json(0)
  }

  /** inferPK: "id" if the first row has it, otherwise some key of the first row. */
  ghost function InferPK(view: seq<Row>): string {
    if view == [] || "id" in view[0] || view[0] == map[] then "id"
    else
      var k :| k in view[0];
      if k == "" then "id" else k
  }

  function Column(r: Option<Row>, col: string): Option<Value> {
    if r.Some? && col in r.value then Some(r.value[col]) else None
  }

  function AfterOf(e: Event): Option<Row> {
    if e.Insert? || e.Update? then Some(e.row) else None
  }

  function BeforeOf(e: Event): Option<Row> {
    if e.Update? || e.Delete? then Some(e.before) else None
  }

  /** findIndex: the first row whose pk column equals the id, or -1. */
  function IndexOf(view: seq<Row>, col: string, id: Value): (r: int)
    ensures -1 <= r < |view|
    ensures r >= 0 ==> Column(Some(view[r]), col) == Some(id)
    ensures r == -1 ==> forall i :: 0 <= i < |view| ==> Column(Some(view[i]), col) != Some(id)
  {
    if view == [] then -1
    else if Column(Some(view[0]), col) == Some(id) then 0
    else
      var r := IndexOf(view[1..], col, id);
      if r == -1 then -1 else r + 1
  }

  function Cut(view: seq<Row>, i: nat): seq<Row>
    requires i < |view|
  {
    view[..i] + view[i + 1..]
  }

  /** applyChange */
  ghost function Applied(view: seq<Row>, e: Event): seq<Row> {
    var pk := InferPK(view);
    var a := Column(AfterOf(e), pk);
    var id := if a.Some? && a.value != Null then a else Column(BeforeOf(e), pk);
    if !IsRowEvent(e) || id.None? || !Truthy(id.value) then view
    else
      var i := IndexOf(view, pk, id.value);
      if e.Delete? then (if i >= 0 then Cut(view, i) else view)
      else if e.Insert? && i == -1 then [e.row] + view
      else if e.Update? && i >= 0 then view[i := e.row]
      else view
  }

  /** The view after these events, starting from what the grid shows already. */
  ghost function ViewFrom(view: seq<Row>, evs: seq<Event>): seq<Row> {
    if evs == [] then view else Applied(ViewFrom(view, evs[..|evs| - 1]), evs[|evs| - 1])
  }

  // ------------------------------------------------------------------- the table

  type Table = map<string, Row>

  /** The rows of a change have a key, and the same one. */
  predicate Keyed(c: Change) {
    match (c.before, c.after)
    case (None, Some(r)) => KeyOf(r).Some?
    case (Some(b), Some(r)) => KeyOf(b).Some? && KeyOf(r) == KeyOf(b)
    case (Some(b), None) => KeyOf(b).Some?
    case (None, None) => false
  }

  function ChangeKey(c: Change): (k: string)
    requires Keyed(c)
    ensures k != ""
  {
    KeyOf(if c.before.Some? then c.before.value else c.after.value).value
  }

  /** A change the table can make: it agrees with the row that is there and keeps the key. */
  predicate Fits(t: Table, c: Change) {
    match (c.before, c.after)
    case (None, Some(r)) => KeyOf(r).Some? && KeyOf(r).value !in t
    case (Some(b), Some(r)) => KeyOf(b).Some? && KeyOf(b).value in t && t[KeyOf(b).value] == b && KeyOf(r) == KeyOf(b)
    case (Some(b), None) => KeyOf(b).Some? && KeyOf(b).value in t && t[KeyOf(b).value] == b
    case (None, None) => false
  }

  /** The non-empty string in the "id" column. */
  function KeyOf(r: Row): Option<string> {
    if "id" in r && r["id"].Str? && r["id"].s != "" then Some(r["id"].s) else None
  }

  function Changed(t: Table, c: Change): Table
    requires Fits(t, c)
  {
    if c.after.Some? then t[KeyOf(c.after.value).value := c.after.value] else t - {KeyOf(c.before.value).value}
  }

  /** The table after a history that starts with the initial rows as inserts; None if a change does not fit. */
  function TableOf(history: seq<Change>): Option<Table> {
    if history == [] then Some(map[])
    else
      var t := TableOf(history[..|history| - 1]);
      var c := history[|history| - 1];
      if t.Some? && Fits(t.value, c) then Some(Changed(t.value, c)) else None
  }

  /** The view shows every row of the table once and nothing else. */
  ghost predicate Mirrors(view: seq<Row>, t: Table) {
    && (forall i :: 0 <= i < |view| ==>
          KeyOf(view[i]).Some? && KeyOf(view[i]).value in t && t[KeyOf(view[i]).value] == view[i])
    && (forall i, j :: 0 <= i < j < |view| ==> KeyOf(view[i]) != KeyOf(view[j]))
    && (forall k :: k in t ==> exists i :: 0 <= i < |view| && KeyOf(view[i]) == Some(k))
  }

  /** In a mirroring view the grid's key is "id" and findIndex finds exactly the table's keys. */
  lemma FindsKey(view: seq<Row>, t: Table, k: string)
    requires Mirrors(view, t) && k != ""
    ensures InferPK(view) == "id"
    ensures var i := IndexOf(view, "id", Str(k));
            && (i == -1 <==> k !in t)
            && (i >= 0 ==> KeyOf(view[i]) == Some(k))
  {
    var i := IndexOf(view, "id", Str(k));
    assert view != [] ==> KeyOf(view[0]).Some?;
    if k in t {
      var j :| 0 <= j < |view| && KeyOf(view[j]) == Some(k);
      assert Column(Some(view[j]), "id") == Some(Str(k));
    }
  }

  lemma InsertMirrors(view: seq<Row>, t: Table, r: Row)
    requires Mirrors(view, t) && KeyOf(r).Some? && KeyOf(r).value !in t
    ensures Mirrors([r] + view, t[KeyOf(r).value := r])
  {
    hide KeyOf;
    var k := KeyOf(r).value;
    var v, u := [r] + view, t[k := r];
    forall x | x in u ensures exists i :: 0 <= i < |v| && KeyOf(v[i]) == Some(x) {
      if x == k {
        assert KeyOf(v[0]) == Some(x);
      } else {
        var i :| 0 <= i < |view| && KeyOf(view[i]) == Some(x);
        assert KeyOf(v[i + 1]) == Some(x);
      }
    }
  }

  lemma UpdateMirrors(view: seq<Row>, t: Table, i: nat, r: Row)
    requires Mirrors(view, t) && i < |view| && KeyOf(r) == KeyOf(view[i]) && KeyOf(r).Some?
    ensures Mirrors(view[i := r], t[KeyOf(r).value := r])
  {
    hide KeyOf;
    var v, u := view[i := r], t[KeyOf(r).value := r];
    forall x | x in u ensures exists j :: 0 <= j < |v| && KeyOf(v[j]) == Some(x) {
      if x == KeyOf(r).value {
        assert KeyOf(v[i]) == Some(x);
      } else {
        var j :| 0 <= j < |view| && KeyOf(view[j]) == Some(x);
        assert KeyOf(v[j]) == Some(x);
      }
    }
  }

  lemma DeleteMirrors(view: seq<Row>, t: Table, i: nat)
    requires Mirrors(view, t) && i < |view| && KeyOf(view[i]).Some?
    ensures Mirrors(Cut(view, i), t - {KeyOf(view[i]).value})
  {
    hide KeyOf;
    var v, u := Cut(view, i), t - {KeyOf(view[i]).value};
    assert forall j :: 0 <= j < |v| ==> v[j] == view[if j < i then j else j + 1];
    forall x | x in u ensures exists j :: 0 <= j < |v| && KeyOf(v[j]) == Some(x) {
      var j :| 0 <= j < |view| && KeyOf(view[j]) == Some(x);
      assert KeyOf(v[if j < i then j else j - 1]) == Some(x);
    }
  }

  /** What applyChange makes of the rows on show, whether or not the change fits them. */
  function Shown(u: Table, c: Change): Table
    requires Keyed(c)
  {
    var k := ChangeKey(c);
    if c.before.None? then (if k in u then u else u[k := c.after.value])
    else if c.after.Some? then (if k in u then u[k := c.after.value] else u)
    else u - {k}
  }

  lemma ShownStep(view: seq<Row>, u: Table, c: Change)
    requires Mirrors(view, u) && Keyed(c)
    ensures Mirrors(Applied(view, Classify(c)), Shown(u, c))
  {
    hide Mirrors, InferPK, IndexOf, Applied, Cut;
    var k := ChangeKey(c);
    FindsKey(view, u, k);
    var i := IndexOf(view, "id", Str(k));
    AppliedAt(view, c, i);
    if k !in u {
      assert u - {k} == u;
      if c.before.None? { InsertMirrors(view, u, c.after.value); }
    } else if c.before.Some? {
      if c.after.Some? { UpdateMirrors(view, u, i, c.after.value); } else { DeleteMirrors(view, u, i); }
    }
  }

  lemma MirrorStep(view: seq<Row>, t: Table, c: Change)
    requires Mirrors(view, t) && Fits(t, c)
    ensures Mirrors(Applied(view, Classify(c)), Changed(t, c))
  {
    hide Mirrors, Applied;
    ShownStep(view, t, c);
    assert Shown(t, c) == Changed(t, c);
  }

  /** Where a change shows: new rows come first, updated ones stay in their place, the others keep their order. */
  lemma GridKeepsOrder(view: seq<Row>, t: Table, c: Change)
    requires Mirrors(view, t) && Fits(t, c)
    ensures var v := Applied(view, Classify(c));
            match (c.before, c.after)
            case (None, Some(r)) => v == [r] + view
            case (Some(b), Some(r)) => exists i :: 0 <= i < |view| && view[i] == b && v == view[i := r]
            case (Some(b), None) => exists i :: 0 <= i < |view| && view[i] == b && v == view[..i] + view[i + 1..]
            case (None, None) => false
  {
    hide Mirrors, InferPK, IndexOf, Applied;
    FitsIsKeyed(t, c);
    var k := ChangeKey(c);
    FindsKey(view, t, k);
    var i := IndexOf(view, "id", Str(k));
    AppliedAt(view, c, i);
    if i >= 0 { RowShown(view, t, i); }
  }

  lemma InsertAt(view: seq<Row>, r: Row, i: int)
    requires KeyOf(r).Some? && InferPK(view) == "id" && i == IndexOf(view, "id", Str(KeyOf(r).value))
    ensures Applied(view, Insert(r)) == if i == -1 then [r] + view else view
  {
    hide InferPK, IndexOf;
    assert Column(AfterOf(Insert(r)), "id") == Some(Str(KeyOf(r).value));
  }

  lemma UpdateAt(view: seq<Row>, b: Row, r: Row, i: int)
    requires KeyOf(r).Some? && InferPK(view) == "id" && i == IndexOf(view, "id", Str(KeyOf(r).value))
    ensures Applied(view, Update(b, r)) == if i >= 0 then view[i := r] else view
  {
    hide InferPK, IndexOf;
    assert Column(AfterOf(Update(b, r)), "id") == Some(Str(KeyOf(r).value));
  }

  lemma DeleteAt(view: seq<Row>, b: Row, i: int)
    requires KeyOf(b).Some? && InferPK(view) == "id" && i == IndexOf(view, "id", Str(KeyOf(b).value))
    ensures Applied(view, Delete(b)) == if i >= 0 then Cut(view, i) else view
  {
    hide InferPK, IndexOf, Cut;
    assert Column(BeforeOf(Delete(b)), "id") == Some(Str(KeyOf(b).value));
  }

  /** applyChange on a keyed change in a view keyed by "id", in terms of where the key is. */
  lemma AppliedAt(view: seq<Row>, c: Change, i: int)
    requires Keyed(c) && InferPK(view) == "id" && i == IndexOf(view, "id", Str(ChangeKey(c)))
    ensures c.before.None? ==> Applied(view, Classify(c)) == if i == -1 then [c.after.value] + view else view
    ensures c.before.Some? && c.after.Some? ==>
              Applied(view, Classify(c)) == if i >= 0 then view[i := c.after.value] else view
    ensures c.after.None? ==> Applied(view, Classify(c)) == if i >= 0 then Cut(view, i) else view
  {
    hide InferPK, IndexOf, Applied, KeyOf, Cut;
    if c.before.None? {
      InsertAt(view, c.after.value, i);
    } else if c.after.Some? {
      UpdateAt(view, c.before.value, c.after.value, i);
    } else {
      DeleteAt(view, c.before.value, i);
    }
  }

  lemma RowShown(view: seq<Row>, t: Table, i: nat)
    requires Mirrors(view, t) && i < |view|
    ensures KeyOf(view[i]).Some? && KeyOf(view[i]).value in t && t[KeyOf(view[i]).value] == view[i]
  {}

  /** Events that change nothing: those that are not about rows, and those whose key is missing, empty, zero or null. */
  lemma IgnoredEvents(view: seq<Row>, e: Event)
    ensures e.InitEv? || e.Untyped? || e.Paused? ==> Applied(view, e) == view
    ensures var pk := InferPK(view);
            && (e.Insert? && (pk !in e.row || e.row[pk] in {Null, Str(""), Json(0)}) ==> Applied(view, e) == view)
            && (e.Update? && pk in e.row && e.row[pk] in {Str(""), Json(0)} ==> Applied(view, e) == view)
            && (e.Delete? && (pk !in e.before || e.before[pk] in {Null, Str(""), Json(0)}) ==> Applied(view, e) == view)
  {
    hide InferPK, IndexOf;
    var pk := InferPK(view);
    var a, b := Column(AfterOf(e), pk), Column(BeforeOf(e), pk);
    assert e.Insert? ==> b == None;
    assert e.Delete? ==> a == None;
    assert !Truthy(Null) && !Truthy(Str("")) && !Truthy(Json(0));
  }

  /** Folding applyChange over the classified history from an empty view yields the table. */
  lemma {:induction false} ViewMirrorsTable(history: seq<Change>)
    requires TableOf(history).Some?
    ensures Mirrors(ViewFrom([], ClassifyAll(history)), TableOf(history).value)
  {
    if history != [] {
      var init, c := history[..|history| - 1], history[|history| - 1];
      ViewMirrorsTable(init);
      assert ClassifyAll(history)[..|history| - 1] == ClassifyAll(init);
      MirrorStep(ViewFrom([], ClassifyAll(init)), TableOf(init).value, c);
    }
  }

  // --------------------------------------------------------------- reconnecting

  /** The change updates or deletes the row with this key. */
  predicate Touches(c: Change, k: string) {
    Keyed(c) && c.before.Some? && ChangeKey(c) == k
  }

  ghost predicate Touched(history: seq<Change>, k: string) {
    exists i :: 0 <= i < |history| && Touches(history[i], k)
  }

  /** The rows on show before that no update or delete of the history is about. */
  ghost function Remaining(u: Table, history: seq<Change>): Table {
    map k | k in u && !Touched(history, k) :: u[k]
  }

  /** The rows on show after a new connection: its table, overlaid with what remains of the old view. */
  ghost function Overlaid(u: Table, history: seq<Change>): Table
    requires TableOf(history).Some?
  {
    TableOf(history).value + Remaining(u, history)
  }

  lemma TouchedSnoc(init: seq<Change>, c: Change, k: string)
    ensures Touched(init + [c], k) <==> Touched(init, k) || Touches(c, k)
  {
    hide Touches;
    var h := init + [c];
    if Touched(init, k) {
      var i :| 0 <= i < |init| && Touches(init[i], k);
      assert h[i] == init[i];
    }
    if Touches(c, k) { assert h[|init|] == c; }
  }

  lemma OverlaidStep(u: Table, init: seq<Change>, c: Change)
    requires TableOf(init).Some? && Fits(TableOf(init).value, c)
             && TableOf(init + [c]) == Some(Changed(TableOf(init).value, c))
    ensures Overlaid(u, init + [c]) == Shown(Overlaid(u, init), c)
  {
    hide TableOf, Touched, Touches, Keyed, Fits, Changed, Shown;
    var h, t := init + [c], TableOf(init).value;
    var was, left := Remaining(u, init), Remaining(u, h);
    forall x ensures x in left <==> x in was && !Touches(c, x) { TouchedSnoc(init, c, x); }
    OverlayStep(t, was, left, c);
  }

  /** One change to a table and to what it is overlaid with. */
  lemma OverlayStep(t: Table, was: Table, left: Table, c: Change)
    requires Fits(t, c)
    requires forall x :: x in left <==> x in was && !Touches(c, x)
    requires forall x :: x in left ==> left[x] == was[x]
    ensures Keyed(c) && Changed(t, c) + left == Shown(t + was, c)
  {
    hide KeyOf;
    var k := ChangeKey(c);
    var a, b := Changed(t, c) + left, Shown(t + was, c);
    assert forall x :: x != k ==> !Touches(c, x);
    assert a.Keys == b.Keys;
  }

  /**
    After a reconnect the feed replays the table as inserts, and an insert whose key is
    on show is ignored: the grid shows the table of the new connection overlaid with
    every row it showed before that has been neither updated nor deleted since.
   */
  lemma {:induction false} ReplayOverlays(view: seq<Row>, u: Table, history: seq<Change>)
    requires Mirrors(view, u) && TableOf(history).Some?
    ensures Mirrors(ViewFrom(view, ClassifyAll(history)), Overlaid(u, history))
  {
    hide Mirrors, Applied, Fits, Changed;
    if history == [] {
      NothingTouched(u);
    } else {
      var init, c := history[..|history| - 1], history[|history| - 1];
      ReplayOverlays(view, u, init);
      assert ClassifyAll(history)[..|history| - 1] == ClassifyAll(init);
      assert init + [c] == history;
      FitsIsKeyed(TableOf(init).value, c);
      ShownStep(ViewFrom(view, ClassifyAll(init)), Overlaid(u, init), c);
      OverlaidStep(u, init, c);
    }
  }

  lemma NothingTouched(u: Table)
    ensures Overlaid(u, []) == u
  {
    assert Remaining(u, []) == u;
  }

  lemma FitsIsKeyed(t: Table, c: Change)
    requires Fits(t, c)
    ensures Keyed(c)
  {}

  /** A view mirrors one table only. */
  lemma MirrorsOne(view: seq<Row>, t: Table, u: Table)
    requires Mirrors(view, t) && Mirrors(view, u)
    ensures t == u
  {
    forall k ensures (k in t <==> k in u) && (k in t && k in u ==> t[k] == u[k]) {
      if k in t { var i :| 0 <= i < |view| && KeyOf(view[i]) == Some(k); }
      if k in u { var i :| 0 <= i < |view| && KeyOf(view[i]) == Some(k); }
    }
  }

  /** Every row on show before is in the table as it was, or has been updated or deleted since the reconnect. */
  ghost predicate CaughtUp(u: Table, history: seq<Change>)
    requires TableOf(history).Some?
  {
    forall k :: k in u && !Touched(history, k) ==> k in TableOf(history).value && TableOf(history).value[k] == u[k]
  }

  lemma OverlaidIsTable(u: Table, history: seq<Change>)
    requires TableOf(history).Some?
    ensures Overlaid(u, history) == TableOf(history).value <==> CaughtUp(u, history)
  {
    hide TableOf, Touched;
    var t, o := TableOf(history).value, Overlaid(u, history);
    if o == t {
      forall k | k in u && !Touched(history, k) ensures k in t && t[k] == u[k] { assert k in o && o[k] == u[k]; }
    }
    if CaughtUp(u, history) { assert o == t; }
  }

  lemma {:induction false} PrefixFits(history: seq<Change>, n: nat)
    requires TableOf(history).Some? && n <= |history|
    ensures TableOf(history[..n]).Some?
    decreases |history|
  {
    if n < |history| {
      PrefixFits(history[..|history| - 1], n);
      assert history[..|history| - 1][..n] == history[..n];
    } else {
      assert history[..n] == history;
    }
  }

  /** "init" changes nothing. */
  lemma {:induction false} InitIsIgnored(view: seq<Row>, evs: seq<Event>)
    ensures ViewFrom(view, [InitEv] + evs) == ViewFrom(view, evs)
  {
    hide InferPK;
    var all := [InitEv] + evs;
    if evs == [] {
      assert all[..0] == [];
    } else {
      InitIsIgnored(view, evs[..|evs| - 1]);
      assert all[..|all| - 1] == [InitEv] + evs[..|evs| - 1];
    }
  }

  /**
    End to end, on any connection: the grid already shows the rows u (none at first, or
    what an earlier connection left).  At every moment of every run it then shows the
    table after some number n of changes, all those taken so far while the stream is
    up, overlaid with the rows of u that none of these changes updated or deleted; and
    it shows exactly that table if and only if all of u has been caught up with.
   */
  lemma GridShowsTable(view: seq<Row>, u: Table, history: seq<Change>, acts: seq<Action>)
    requires Mirrors(view, u) && TableOf(history).Some? && IsRun(history, Init(false), acts)
    ensures var s := RunFrom(history, Init(false), acts);
            var n := |s.written| - 1;
            && 0 <= n <= |history| && (!s.ended ==> n == s.taken)
            && TableOf(history[..n]).Some?
            && Mirrors(ViewFrom(view, s.written), Overlaid(u, history[..n]))
            && (Mirrors(ViewFrom(view, s.written), TableOf(history[..n]).value) <==> CaughtUp(u, history[..n]))
  {
    hide Mirrors, ViewFrom, Applied, Overlaid, CaughtUp;
    ClientReceivesPrefix(history, false, acts);
    var s := RunFrom(history, Init(false), acts);
    var n := |s.written| - 1;
    var h := history[..n];
    PrefixFits(history, n);
    ReplayOverlays(view, u, h);
    assert ClassifyAll(history)[..n] == ClassifyAll(h);
    InitIsIgnored(view, ClassifyAll(h));
    OverlaidIsTable(u, h);
    var after := ViewFrom(view, s.written);
    if Mirrors(after, TableOf(h).value) { MirrorsOne(after, TableOf(h).value, Overlaid(u, h)); }
  }

  /** On the first connection the grid is empty, and shows exactly the table. */
  lemma FreshGridShowsTable(history: seq<Change>, acts: seq<Action>)
    requires TableOf(history).Some? && IsRun(history, Init(false), acts)
    ensures var s := RunFrom(history, Init(false), acts);
            var n := |s.written| - 1;
            && 0 <= n <= |history| && (!s.ended ==> n == s.taken)
            && TableOf(history[..n]).Some? && Mirrors(ViewFrom([], s.written), TableOf(history[..n]).value)
  {
    hide ViewFrom, Overlaid;
    GridShowsTable([], map[], history, acts);
  }

  /** A row deleted between two connections stays on show. */
  lemma MissedDeleteStays(r: Row)
    requires KeyOf(r).Some?
    ensures var k := KeyOf(r).value;
            && Mirrors([r], map[k := r]) && TableOf([]) == Some(map[])
            && Mirrors(ViewFrom([r], [InitEv]), map[k := r]) && !CaughtUp(map[k := r], [])
  {
    assert [InitEv][..0] == [];
    assert KeyOf([r][0]) == Some(KeyOf(r).value);
  }
}
