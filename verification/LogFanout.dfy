/**
  Log fan-out (SubscribeLogs and publish in internal/jobs/runner.go): publish sends
  to every subscriber's 128-slot channel without blocking, a subscriber's cancel
  takes its channel off the list under the lock and closes it afterwards.

  Each cancel function is called once, as its callers do.
 */
module LogFanout {

  type Job(==, !new)
  type Event(==, !new)
  type ChanId(==, !new)

  const CHAN_CAP := 128

  /** A send attempt: the event and how many events were waiting in the buffer. */
  datatype Offer = Offer(event: Event, pending: nat)

  datatype Phase = Listed | Removed | Closed

  datatype Chan = Chan(
    job: Job,
    buf: seq<Event>,
    phase: Phase,
    // what has happened: events received, send attempts, and which part of the
    // job's event stream they cover
    taken: seq<Event>,
    offers: seq<Offer>,
    from: nat)

  datatype State = State(
    subs: map<Job, seq<ChanId>>,      // Runner.logSubs
    chans: map<ChanId, Chan>,
    log: map<Job, seq<Event>>)        // every event published, per job

  datatype Action =
    | Subscribe(job: Job, c: ChanId)
    | Publish(job: Job, event: Event)
    | Take(c: ChanId)
    | Remove(c: ChanId)
    | Close(c: ChanId)

  const INIT := State(map[], map[], map[])

  function SubsOf(s: State, j: Job): seq<ChanId> {
    if j in s.subs then s.subs[j] else []
  }

  function LogOf(s: State, j: Job): seq<Event> {
    if j in s.log then s.log[j] else []
  }

  /** `select { case ch <- e: default: }` */
  function Offered(ch: Chan, e: Event): Chan {
    ch.(buf := if |ch.buf| < CHAN_CAP then ch.buf + [e] else ch.buf, offers := ch.offers + [Offer(e, |ch.buf|)])
  }

  /** The list without its first entry c. */
  function Drop(l: seq<ChanId>, c: ChanId): (r: seq<ChanId>)
    ensures forall x :: x in r ==> x in l
    ensures forall x :: x in l && x != c ==> x in r
  {
    if l == [] then [] else if l[0] == c then l[1..] else [l[0]] + Drop(l[1..], c)
  }

  predicate Enabled(s: State, a: Action) {
    match a
    case Subscribe(_, c) => c !in s.chans
    case Publish(_, _) => true
    case Take(c) => c in s.chans && s.chans[c].buf != []
    case Remove(c) => c in s.chans && s.chans[c].phase.Listed?
    case Close(c) => c in s.chans && s.chans[c].phase.Removed?
  }

  function Apply(s: State, a: Action): State
    requires Enabled(s, a)
  {
    match a
    case Subscribe(j, c) =>
      s.(subs := s.subs[j := SubsOf(s, j) + [c]], chans := s.chans[c := Chan(j, [], Listed, [], [], |LogOf(s, j)|)])
    case Publish(j, e) =>
      s.(chans := map c | c in s.chans :: if c in SubsOf(s, j) then Offered(s.chans[c], e) else s.chans[c],
         log := s.log[j := LogOf(s, j) + [e]])
    case Take(c) =>
      var ch := s.chans[c];
      s.(chans := s.chans[c := ch.(buf := ch.buf[1..], taken := ch.taken + [ch.buf[0]])])
    case Remove(c) =>
      var j := s.chans[c].job;
      s.(subs := s.subs[j := Drop(SubsOf(s, j), c)], chans := s.chans[c := s.chans[c].(phase := Removed)])
    case Close(c) =>
      s.(chans := s.chans[c := s.chans[c].(phase := Closed)])
  }

  predicate IsRun(s: State, acts: seq<Action>)
    decreases |acts|
  {
    acts == [] || (Enabled(s, acts[0]) && IsRun(Apply(s, acts[0]), acts[1..]))
  }

  function RunFrom(s: State, acts: seq<Action>): State
    requires IsRun(s, acts)
    decreases |acts|
  {
    if acts == [] then s else RunFrom(Apply(s, acts[0]), acts[1..])
  }

  // ------------------------------------------------------------------ invariant

  function Accepted(offers: seq<Offer>): seq<Event> {
    if offers == [] then []
    else
      var o := offers[|offers| - 1];
      Accepted(offers[..|offers| - 1]) + if o.pending < CHAN_CAP then [o.event] else []
  }

  function Events(offers: seq<Offer>): (r: seq<Event>)
    ensures |r| == |offers|
    ensures forall i :: 0 <= i < |offers| ==> r[i] == offers[i].event
  {
    seq(|offers|, i requires 0 <= i < |offers| => offers[i].event)
  }

  ghost predicate Distinct(l: seq<ChanId>) {
    forall i, j :: 0 <= i < j < |l| ==> l[i] != l[j]
  }

  ghost predicate SubsOk(s: State, j: Job) {
    && Distinct(SubsOf(s, j))
    && forall c :: c in SubsOf(s, j) ==> c in s.chans && s.chans[c].job == j && s.chans[c].phase.Listed?
  }

  /**
    What a channel got of its job's event stream: it was offered, without a hole,
    the events from where it subscribed (up to now while it is listed), and what
    was received or waits in the buffer is exactly the accepted offers, in order;
    an offer is turned down only when 128 events wait.
   */
  ghost predicate StreamOk(ch: Chan, stream: seq<Event>) {
    && |ch.buf| <= CHAN_CAP
    && ch.taken + ch.buf == Accepted(ch.offers)
    && ch.from + |ch.offers| <= |stream|
    && Events(ch.offers) == stream[ch.from..ch.from + |ch.offers|]
    && (ch.phase.Listed? ==> ch.from + |ch.offers| == |stream|)
    && (forall i :: 0 <= i < |ch.offers| ==> ch.offers[i].pending <= CHAN_CAP)
  }

  ghost predicate ChanOk(s: State, c: ChanId)
    requires c in s.chans
  {
    var ch := s.chans[c];
    (ch.phase.Listed? <==> c in SubsOf(s, ch.job)) && StreamOk(ch, LogOf(s, ch.job))
  }

  ghost predicate Inv(s: State) {
    && (forall j :: SubsOk(s, j))
    && (forall c :: c in s.chans ==> ChanOk(s, c))
  }

  lemma {:induction false} DropFacts(l: seq<ChanId>, c: ChanId)
    requires Distinct(l)
    ensures Distinct(Drop(l, c)) && c !in Drop(l, c)
  {
    if l != [] && l[0] != c {
      DropFacts(l[1..], c);
      var r := Drop(l[1..], c);
      assert forall i :: 0 <= i < |r| ==> r[i] in l[1..];
    }
  }

  lemma SubsStep(s: State, a: Action, j: Job)
    requires Enabled(s, a) && SubsOk(s, j)
    ensures SubsOk(Apply(s, a), j)
  {
    if a.Remove? { DropFacts(SubsOf(s, j), a.c); }
  }

  lemma OfferedStream(ch: Chan, stream: seq<Event>, e: Event)
    requires StreamOk(ch, stream) && ch.phase.Listed?
    ensures StreamOk(Offered(ch, e), stream + [e])
  {
    var ch' := Offered(ch, e);
    assert ch'.offers[..|ch.offers|] == ch.offers;
    assert ch.taken + (ch.buf + [e]) == (ch.taken + ch.buf) + [e];
    assert (stream + [e])[ch.from..ch.from + |ch'.offers|] == stream[ch.from..ch.from + |ch.offers|] + [e];
    assert Events(ch'.offers) == Events(ch.offers) + [e];
  }

  lemma MissedStream(ch: Chan, stream: seq<Event>, e: Event)
    requires StreamOk(ch, stream) && !ch.phase.Listed?
    ensures StreamOk(ch, stream + [e])
  {
    assert (stream + [e])[ch.from..ch.from + |ch.offers|] == stream[ch.from..ch.from + |ch.offers|];
  }

  lemma TakenStream(ch: Chan, stream: seq<Event>)
    requires StreamOk(ch, stream) && ch.buf != []
    ensures StreamOk(ch.(buf := ch.buf[1..], taken := ch.taken + [ch.buf[0]]), stream)
  {
    assert (ch.taken + [ch.buf[0]]) + ch.buf[1..] == ch.taken + ch.buf;
  }

  lemma EndedStream(ch: Chan, stream: seq<Event>, p: Phase)
    requires StreamOk(ch, stream) && !p.Listed?
    ensures StreamOk(ch.(phase := p), stream)
  {}

  lemma ChanStep(s: State, a: Action, c: ChanId)
    requires Enabled(s, a) && c in Apply(s, a).chans && (c in s.chans ==> ChanOk(s, c) && SubsOk(s, s.chans[c].job))
    requires (a.Subscribe? || a.Publish?) ==> SubsOk(s, a.job)
    ensures ChanOk(Apply(s, a), c)
  {
    if c !in s.chans {
      assert LogOf(s, a.job)[|LogOf(s, a.job)|..] == [];
    } else {
      ListingStep(s, a, c);
      StreamStep(s, a, c);
    }
  }

  lemma ListingStep(s: State, a: Action, c: ChanId)
    requires Enabled(s, a) && c in s.chans && ChanOk(s, c) && SubsOk(s, s.chans[c].job)
    ensures var t := Apply(s, a);
            c in t.chans && t.chans[c].job == s.chans[c].job
            && (t.chans[c].phase.Listed? <==> c in SubsOf(t, t.chans[c].job))
  {
    hide StreamOk;
    if a.Remove? { DropFacts(SubsOf(s, s.chans[c].job), a.c); }
  }

  lemma StreamStep(s: State, a: Action, c: ChanId)
    requires Enabled(s, a) && c in s.chans && ChanOk(s, c)
    requires a.Publish? ==> SubsOk(s, a.job)
    ensures var t := Apply(s, a); c in t.chans && StreamOk(t.chans[c], LogOf(t, s.chans[c].job))
  {
    hide Offered, StreamOk;
    var ch := s.chans[c];
    var stream := LogOf(s, ch.job);
    if a.Publish? && a.job == ch.job {
      if ch.phase.Listed? { OfferedStream(ch, stream, a.event); } else { MissedStream(ch, stream, a.event); }
    } else if a.Take? && a.c == c {
      TakenStream(ch, stream);
    } else if a.Remove? || a.Close? {
      EndedStream(ch, stream, if a.Remove? then Removed else Closed);
    }
  }

  lemma {:induction false} InvHolds(s: State, acts: seq<Action>)
    requires Inv(s) && IsRun(s, acts)
    ensures Inv(RunFrom(s, acts))
    decreases |acts|
  {
    hide Enabled, Apply, Inv;
    if acts != [] {
      InvStep(s, acts[0]);
      InvHolds(Apply(s, acts[0]), acts[1..]);
    }
  }

  // ------------------------------------------------------------------- theorems

  /** Every channel on a subscription list is open, so publish never sends on a closed one. */
  lemma ListedChannelsAreOpen(acts: seq<Action>, j: Job)
    requires IsRun(INIT, acts)
    ensures var s := RunFrom(INIT, acts);
            forall c :: c in SubsOf(s, j) ==> c in s.chans && s.chans[c].phase != Closed && s.chans[c].job == j
  {
    InvHolds(INIT, acts);
    assert SubsOk(RunFrom(INIT, acts), j);
  }

  /**
    What a subscriber has received or will receive from its buffer is, in order,
    the events of its own job published while it was subscribed, less exactly those
    that found its buffer full.
   */
  lemma SubscriberSeesItsStream(acts: seq<Action>, c: ChanId)
    requires IsRun(INIT, acts) && c in RunFrom(INIT, acts).chans
    ensures var s := RunFrom(INIT, acts);
            StreamOk(s.chans[c], LogOf(s, s.chans[c].job))
  {
    InvHolds(INIT, acts);
    assert ChanOk(RunFrom(INIT, acts), c);
  }

  /** How an action looks to one channel on its own. */
  function LocalStep(ch: Chan, c: ChanId, a: Action): Chan {
    match a
    case Publish(j, e) => if j == ch.job && ch.phase.Listed? then Offered(ch, e) else ch
    case Take(d) => if d == c && ch.buf != [] then ch.(buf := ch.buf[1..], taken := ch.taken + [ch.buf[0]]) else ch
    case Remove(d) => if d == c then ch.(phase := Removed) else ch
    case Close(d) => if d == c then ch.(phase := Closed) else ch
    case Subscribe(_, _) => ch
  }

  function LocalRun(ch: Chan, c: ChanId, acts: seq<Action>): Chan
    decreases |acts|
  {
    if acts == [] then ch else LocalRun(LocalStep(ch, c, acts[0]), c, acts[1..])
  }

  lemma LocalAgrees(s: State, a: Action, c: ChanId)
    requires Enabled(s, a) && c in s.chans && ChanOk(s, c)
    requires a.Publish? ==> SubsOk(s, a.job)
    ensures c in Apply(s, a).chans && Apply(s, a).chans[c] == LocalStep(s.chans[c], c, a)
  {}

  /**
    A subscriber's channel evolves as if it were alone: only the events of its job
    and its own receives and cancel matter, so subscribing, reading or cancelling
    elsewhere never changes what it gets.
   */
  lemma {:induction false} SubscribersAreIndependent(s: State, acts: seq<Action>, c: ChanId)
    requires Inv(s) && IsRun(s, acts) && c in s.chans
    ensures c in RunFrom(s, acts).chans && RunFrom(s, acts).chans[c] == LocalRun(s.chans[c], c, acts)
    decreases |acts|
  {
    hide Enabled, Apply, SubsOk, ChanOk, LocalStep;
    if acts != [] {
      LocalAgrees(s, acts[0], c);
      InvStep(s, acts[0]);
      SubscribersAreIndependent(Apply(s, acts[0]), acts[1..], c);
    }
  }

  // ------------------------------------------------------------ the code itself

  class LogHub {
    var subs: map<Job, seq<ChanId>>
    var chans: map<ChanId, Chan>
    var log: map<Job, seq<Event>>     // history of published events

    function View(): State
      reads this
    {
      State(subs, chans, log)
    }

    /** A non-blocking send; on a closed channel it would panic. */
    method TrySend(c: ChanId, e: Event)
      requires c in chans && !chans[c].phase.Closed?
      modifies this`chans
      ensures chans == old(chans)[c := Offered(old(chans)[c], e)]
      ensures chans[c].buf == old(chans)[c].buf + if |old(chans)[c].buf| < 128 then [e] else []
      ensures chans[c].offers == old(chans)[c].offers + [Offer(e, |old(chans)[c].buf|)]
    {
      var ch := chans[c];
      var buf := if |ch.buf| < CHAN_CAP then ch.buf + [e] else ch.buf;
      chans := chans[c := ch.(buf := buf, offers := ch.offers + [Offer(e, |ch.buf|)])];
    }

    /** The loop of publish. */
    method SendAll(list: seq<ChanId>, e: Event)
      requires Distinct(list) && forall c :: c in list ==> c in chans && !chans[c].phase.Closed?
      modifies this`chans
      ensures chans.Keys == old(chans).Keys
      ensures forall c :: c in chans ==> chans[c] == if c in list then Offered(old(chans)[c], e) else old(chans)[c]
    {
      hide Offered;
      for i := 0 to |list|
        invariant chans.Keys == old(chans).Keys
        invariant forall c :: c in chans ==>
                    chans[c] == if c in list[..i] then Offered(old(chans)[c], e) else old(chans)[c]
      {
        assert list[..i + 1] == list[..i] + [list[i]];
        assert list[i] in list && list[i] !in list[..i];
        TrySend(list[i], e);
      }
      assert list[..|list|] == list;
    }

    method PublishEvent(j: Job, e: Event)
      requires Inv(View())
      modifies this
      ensures View() == Apply(old(View()), Publish(j, e)) && Inv(View())
    {
      hide ChanOk, Offered;
      var s := View();
      assert SubsOk(s, j);
      SendAll(if j in subs then subs[j] else [], e);
      log := log[j := LogOf(s, j) + [e]];
      assert chans == Apply(s, Publish(j, e)).chans;
      InvStep(s, Publish(j, e));
    }

    method SubscribeLogs(j: Job, c: ChanId)
      requires Inv(View()) && c !in chans
      modifies this
      ensures View() == Apply(old(View()), Subscribe(j, c)) && Inv(View())
      ensures subs == old(subs)[j := SubsOf(old(View()), j) + [c]] && chans[c].job == j && chans[c].buf == []
    {
      var s := View();
      chans := chans[c := Chan(j, [], Listed, [], [], |LogOf(s, j)|)];
      subs := subs[j := (if j in subs then subs[j] else []) + [c]];
      InvStep(s, Subscribe(j, c));
    }

    /** The locked part of cancel. */
    method RemoveFromList(c: ChanId)
      requires Inv(View()) && Enabled(View(), Remove(c))
      modifies this
      ensures View() == Apply(old(View()), Remove(c)) && Inv(View())
    {
      hide ChanOk, SubsOk;
      var s := View();
      var j := chans[c].job;
      var arr := CutFirst(if j in subs then subs[j] else [], c);
      subs := subs[j := arr];
      chans := chans[c := chans[c].(phase := Removed)];
      InvStep(s, Remove(c));
    }
  }

  /** `arr = append(arr[:i], arr[i+1:]...)` at the first match. */
  method CutFirst(arr: seq<ChanId>, c: ChanId) returns (r: seq<ChanId>)
    ensures r == Drop(arr, c)
    ensures c !in arr ==> r == arr
    ensures forall i :: 0 <= i < |arr| && arr[i] == c && c !in arr[..i] ==> r == arr[..i] + arr[i + 1..]
  {
    hide Drop;
    for i := 0 to |arr|
      invariant forall j :: 0 <= j < i ==> arr[j] != c
    {
      if arr[i] == c {
        DropAt(arr, c, i);
        return arr[..i] + arr[i + 1..];
      }
    }
    DropAt(arr, c, |arr|);
    return arr;
  }

  lemma {:induction false} DropAt(l: seq<ChanId>, c: ChanId, i: nat)
    requires i <= |l| && (forall j :: 0 <= j < i ==> l[j] != c) && (i < |l| ==> l[i] == c)
    ensures Drop(l, c) == if i < |l| then l[..i] + l[i + 1..] else l
  {
    if 0 < i {
      var t := l[1..];
      DropAt(t, c, i - 1);
      assert Drop(l, c) == [l[0]] + Drop(t, c) && [l[0]] + t == l;
      if i < |l| {
        assert l[..i] == [l[0]] + t[..i - 1] && l[i + 1..] == t[i..];
      }
    }
  }

  lemma InvStep(s: State, a: Action)
    requires Inv(s) && Enabled(s, a)
    ensures Inv(Apply(s, a))
  {
    hide Enabled, Apply, SubsOk, ChanOk;
    var t := Apply(s, a);
    forall j ensures SubsOk(t, j) { SubsStep(s, a, j); }
    forall c | c in t.chans ensures ChanOk(t, c) { ChanStep(s, a, c); }
  }
}
