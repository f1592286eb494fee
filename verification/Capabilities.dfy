/**
  The capability cache (internal/permission/permission.go): capability objects are
  listed at most every syncEvery, parsed leniently, and consulted by Allow; an
  empty capability list allows everything, a failed listing keeps the old list.

  A listing is one atomic read of the cluster; the clock never goes back.
 */
module Capabilities {
  import opened Options

  /** Unstructured JSON as the dynamic client returns it. */
  datatype Json = JStr(s: string) | JList(xs: seq<Json>) | JMap(m: map<string, Json>) | JOther

  datatype Item = Item(name: string, body: map<string, Json>)

  /** A parsed capability; the empty selector matches everything. */
  datatype Entry = Entry(name: string, actions: set<string>, selector: map<string, string>)

  // -------------------------------------------------------- reading an object

  function Field(m: map<string, Json>, k: string): Option<Json> {
    if k in m then Some(m[k]) else None
  }

  function AsMap(j: Option<Json>): Option<map<string, Json>> {
    if j.Some? && j.value.JMap? then Some(j.value.m) else None
  }

  function SpecOf(item: Item): Option<map<string, Json>> {
    AsMap(Field(item.body, "spec"))
  }

  /** The action is one of the strings in spec.actions. */
  predicate Grants(spec: map<string, Json>, action: string) {
    var f := Field(spec, "actions");
    f.Some? && f.value.JList? && JStr(action) in f.value.xs
  }

  /** spec.selector.matchLabels, when both are maps. */
  function MatchLabels(spec: map<string, Json>): map<string, Json> {
    var sel := AsMap(Field(spec, "selector"));
    if sel.None? then map[]
    else
      var ml := AsMap(Field(sel.value, "matchLabels"));
      if ml.None? then map[] else ml.value
  }

  /** Every label that matchLabels gives a string for has that value. */
  predicate Selects(spec: map<string, Json>, labels: map<string, string>) {
    var ml := MatchLabels(spec);
    forall k :: k in ml && ml[k].JStr? ==> k in labels && labels[k] == ml[k].s
  }

  predicate ItemPermits(item: Item, action: string, labels: map<string, string>) {
    SpecOf(item).Some? && Grants(SpecOf(item).value, action) && Selects(SpecOf(item).value, labels)
  }

  predicate SomePermit(items: seq<Item>, action: string, labels: map<string, string>) {
    exists i :: 0 <= i < |items| && ItemPermits(items[i], action, labels)
  }

  /** The reference: what a listing permits, read straight off the objects. */
  predicate Permits(items: seq<Item>, action: string, labels: map<string, string>) {
    (forall i :: 0 <= i < |items| ==> SpecOf(items[i]).None?) || SomePermit(items, action, labels)
  }

  /** Which fields of an object are read, and that any other shape counts as absent. */
  lemma FieldsRead(item: Item, spec: map<string, Json>, labels: map<string, Json>, action: string)
    ensures SpecOf(item) == Some(spec) <==> "spec" in item.body && item.body["spec"] == JMap(spec)
    ensures Grants(spec, action) <==>
              exists xs :: "actions" in spec && spec["actions"] == JList(xs) && JStr(action) in xs
    ensures (exists sel :: "selector" in spec && spec["selector"] == JMap(sel)
                           && "matchLabels" in sel && sel["matchLabels"] == JMap(labels))
            ==> MatchLabels(spec) == labels
    ensures (forall sel, ml :: !("selector" in spec && spec["selector"] == JMap(sel)
                                 && "matchLabels" in sel && sel["matchLabels"] == JMap(ml)))
            ==> MatchLabels(spec) == map[]
  {
    if Grants(spec, action) { assert spec["actions"] == JList(spec["actions"].xs); }
    if "selector" in spec && spec["selector"].JMap? {
      var sel := spec["selector"].m;
      assert spec["selector"] == JMap(sel);
      if "matchLabels" in sel && sel["matchLabels"].JMap? { assert sel["matchLabels"] == JMap(sel["matchLabels"].m); }
    }
  }

  /**
    A single capability for one action and one label permits just that; without any
    capability everything is permitted, and one that names no action permits nothing.
   */
  lemma OneCapability(name: string, act: string, key: string, value: string, action: string,
                      labels: map<string, string>)
    ensures var spec := map["actions" := JList([JStr(act)]),
                            "selector" := JMap(map["matchLabels" := JMap(map[key := JStr(value)])])];
            Permits([Item(name, map["spec" := JMap(spec)])], action, labels)
            <==> action == act && key in labels && labels[key] == value
    ensures Permits([], action, labels)
    ensures Permits([Item(name, map[])], action, labels)
    ensures !Permits([Item(name, map["spec" := JMap(map[])])], action, labels)
  {
    assert SpecOf(Item(name, map[])) == None;
    assert SpecOf(Item(name, map["spec" := JMap(map[])])) == Some(map[]);
    assert !Grants(map[], action);
    assert [Item(name, map["spec" := JMap(map[])])][0] == Item(name, map["spec" := JMap(map[])]);
    var spec := map["actions" := JList([JStr(act)]),
                    "selector" := JMap(map["matchLabels" := JMap(map[key := JStr(value)])])];
    var item := Item(name, map["spec" := JMap(spec)]);
    assert SpecOf(item) == Some(spec) && MatchLabels(spec) == map[key := JStr(value)];
    assert Grants(spec, action) <==> JStr(action) in [JStr(act)];
    assert [item][0] == item;
  }

  // ------------------------------------------------------------------- parsing

  /** The entry says the same as the spec it was parsed from. */
  ghost predicate Faithful(e: Entry, spec: map<string, Json>) {
    && (forall a :: a in e.actions <==> Grants(spec, a))
    && (forall k :: k in e.selector <==> k in MatchLabels(spec) && MatchLabels(spec)[k].JStr?)
    && (forall k :: k in e.selector ==> e.selector[k] == MatchLabels(spec)[k].s)
  }

  method ParseSpec(name: string, spec: map<string, Json>) returns (e: Entry)
    ensures Faithful(e, spec)
  {
    var acts: set<string> := {};
    var f := Field(spec, "actions");
    if f.Some? && f.value.JList? {
      var xs := f.value.xs;
      for i := 0 to |xs|
        invariant forall a :: a in acts <==> JStr(a) in xs[..i]
      {
        assert xs[..i + 1] == xs[..i] + [xs[i]];
        if xs[i].JStr? {
          acts := acts + {xs[i].s};
        }
      }
      assert xs[..|xs|] == xs;
    }
    var ml := MatchLabels(spec);
    var sel := map k | k in ml && ml[k].JStr? :: ml[k].s;
    e := Entry(name, acts, sel);
  }

  /** The entries are those of the items that have a spec, in order. */
  ghost predicate ParsedFrom(caps: seq<Entry>, items: seq<Item>)
    decreases |items|
  {
    if items == [] then caps == []
    else
      var init, last := items[..|items| - 1], items[|items| - 1];
      if SpecOf(last).None? then ParsedFrom(caps, init)
      else caps != [] && Faithful(caps[|caps| - 1], SpecOf(last).value) && ParsedFrom(caps[..|caps| - 1], init)
  }

  method Parse(items: seq<Item>) returns (caps: seq<Entry>)
    ensures ParsedFrom(caps, items)
  {
    caps := [];
    for i := 0 to |items|
      invariant ParsedFrom(caps, items[..i])
    {
      assert items[..i + 1][..i] == items[..i] && items[..i + 1][i] == items[i];
      var spec := SpecOf(items[i]);
      if spec.None? {
        continue;
      }
      var e := ParseSpec(items[i].name, spec.value);
      assert (caps + [e])[..|caps|] == caps;
      caps := caps + [e];
    }
    assert items[..|items|] == items;
  }

  predicate Matches(e: Entry, action: string, labels: map<string, string>) {
    action in e.actions && forall k :: k in e.selector ==> k in labels && labels[k] == e.selector[k]
  }

  /** What Allow computes from the parsed entries. */
  predicate Decide(caps: seq<Entry>, action: string, labels: map<string, string>) {
    caps == [] || exists i :: 0 <= i < |caps| && Matches(caps[i], action, labels)
  }

  lemma MatchesIsFaithful(e: Entry, spec: map<string, Json>, action: string, labels: map<string, string>)
    requires Faithful(e, spec)
    ensures Matches(e, action, labels) <==> Grants(spec, action) && Selects(spec, labels)
  {}

  predicate SomeMatch(caps: seq<Entry>, action: string, labels: map<string, string>) {
    exists i :: 0 <= i < |caps| && Matches(caps[i], action, labels)
  }

  lemma SnocPermit(init: seq<Item>, last: Item, action: string, labels: map<string, string>)
    ensures SomePermit(init + [last], action, labels)
            <==> SomePermit(init, action, labels) || ItemPermits(last, action, labels)
  {
    hide ItemPermits;
    var items := init + [last];
    if SomePermit(init, action, labels) {
      var i :| 0 <= i < |init| && ItemPermits(init[i], action, labels);
      assert items[i] == init[i];
    }
    if ItemPermits(last, action, labels) { assert items[|init|] == last; }
  }

  lemma SnocMatch(init: seq<Entry>, last: Entry, action: string, labels: map<string, string>)
    ensures SomeMatch(init + [last], action, labels)
            <==> SomeMatch(init, action, labels) || Matches(last, action, labels)
  {
    hide Matches;
    var caps := init + [last];
    if SomeMatch(init, action, labels) {
      var i :| 0 <= i < |init| && Matches(init[i], action, labels);
      assert caps[i] == init[i];
    }
    if Matches(last, action, labels) { assert caps[|init|] == last; }
  }

  lemma {:induction false} MatchIffPermit(caps: seq<Entry>, items: seq<Item>, action: string,
                                          labels: map<string, string>)
    requires ParsedFrom(caps, items)
    ensures SomeMatch(caps, action, labels) <==> SomePermit(items, action, labels)
    ensures caps == [] <==> forall i :: 0 <= i < |items| ==> SpecOf(items[i]).None?
    decreases |items|
  {
    hide Matches, Grants, Selects, SpecOf, Faithful, SomeMatch, SomePermit;
    if items == [] {
      NothingMatches(action, labels);
    } else {
      var init, last := items[..|items| - 1], items[|items| - 1];
      assert items == init + [last];
      SnocPermit(init, last, action, labels);
      if SpecOf(last).None? {
        MatchIffPermit(caps, init, action, labels);
      } else {
        var caps0, e := caps[..|caps| - 1], caps[|caps| - 1];
        MatchIffPermit(caps0, init, action, labels);
        MatchesIsFaithful(e, SpecOf(last).value, action, labels);
        assert caps == caps0 + [e];
        SnocMatch(caps0, e, action, labels);
      }
    }
  }

  lemma NothingMatches(action: string, labels: map<string, string>)
    ensures !SomeMatch([], action, labels) && !SomePermit([], action, labels)
  {}

  /** Deciding on parsed entries agrees with reading the objects directly. */
  lemma DecideIsPermits(caps: seq<Entry>, items: seq<Item>, action: string, labels: map<string, string>)
    requires ParsedFrom(caps, items)
    ensures Decide(caps, action, labels) <==> Permits(items, action, labels)
  {
    hide Matches, ItemPermits, SpecOf, Faithful, ParsedFrom;
    MatchIffPermit(caps, items, action, labels);
  }

  // ------------------------------------------------------------------ the cache

  /** What one Allow call meets: the time, what a listing would return now, and the question. */
  datatype Ask = Ask(now: int, listing: Option<seq<Item>>, action: string, labels: map<string, string>)

  /** The most recent successful listing and its time; None before the first. */
  datatype Memory = Memory(at: Option<int>, items: seq<Item>)

  predicate Stale(m: Memory, now: int, syncEvery: int) {
    m.at.None? || now - m.at.value >= syncEvery
  }

  function Remember(m: Memory, a: Ask, syncEvery: int): Memory {
    if Stale(m, a.now, syncEvery) && a.listing.Some? then Memory(Some(a.now), a.listing.value) else m
  }

  class Cache {
    var caps: seq<Entry>
    var lastSync: Option<int>
    const syncEvery: int
    ghost var mem: Memory

    /** The entries are the parsed form of the most recent successful listing. */
    ghost predicate Valid()
      reads this
    {
      lastSync == mem.at && ParsedFrom(caps, mem.items)
    }

    constructor (refresh: int)
      ensures Valid() && syncEvery == refresh && mem == Memory(None, [])
    {
      caps, lastSync, syncEvery := [], None, refresh;
      mem := Memory(None, []);
    }

    method Sync(a: Ask)
      requires Valid()
      modifies this
      ensures Valid() && mem == Remember(old(mem), a, syncEvery)
      ensures (old(lastSync).Some? && a.now - old(lastSync).value < syncEvery) || a.listing.None? ==>
                lastSync == old(lastSync) && caps == old(caps)
      ensures (old(lastSync).None? || a.now - old(lastSync).value >= syncEvery) && a.listing.Some? ==>
                lastSync == Some(a.now) && mem.items == a.listing.value
    {
      if lastSync.Some? && a.now - lastSync.value < syncEvery {
        return;
      }
      if a.listing.None? {
        return;
      }
      caps := Parse(a.listing.value);
      lastSync := Some(a.now);
      mem := Memory(Some(a.now), a.listing.value);
    }

    /** Allow answers for the most recent successful listing, this call's included. */
    method Allow(a: Ask) returns (ok: bool)
      requires Valid()
      modifies this
      ensures Valid() && mem == Remember(old(mem), a, syncEvery)
      ensures ok == Permits(mem.items, a.action, a.labels)
    {
      hide Permits, Matches, ParsedFrom;
      Sync(a);
      DecideIsPermits(caps, mem.items, a.action, a.labels);
      if |caps| == 0 {
        return true;
      }
      for i := 0 to |caps|
        invariant forall j :: 0 <= j < i ==> !Matches(caps[j], a.action, a.labels)
      {
        if Matches(caps[i], a.action, a.labels) {
          return true;
        }
      }
      return false;
    }
  }

  // ------------------------------------------------------------------ histories

  function MemoryAfter(asks: seq<Ask>, syncEvery: int): Memory {
    if asks == [] then Memory(None, [])
    else Remember(MemoryAfter(asks[..|asks| - 1], syncEvery), asks[|asks| - 1], syncEvery)
  }

  ghost predicate Chronological(asks: seq<Ask>) {
    forall i, j :: 0 <= i < j < |asks| ==> asks[i].now <= asks[j].now
  }

  /** Ask i got the remembered listing, and no later ask both needed and got another. */
  ghost predicate ListedAt(asks: seq<Ask>, m: Memory, syncEvery: int, i: nat) {
    && i < |asks| && m == Memory(Some(asks[i].now), m.items) && asks[i].listing == Some(m.items)
    && forall j :: i < j < |asks| ==> asks[j].listing.None? || !Stale(m, asks[j].now, syncEvery)
  }

  /** The memory is the most recent successful listing; none means that no listing ever succeeded. */
  ghost predicate IsLastListing(asks: seq<Ask>, m: Memory, syncEvery: int) {
    if m.at.None? then forall i :: 0 <= i < |asks| ==> asks[i].listing.None?
    else exists i :: ListedAt(asks, m, syncEvery, i)
  }

  /**
    After any mix of asks, clock advances, cluster edits and failed listings the
    remembered listing is the most recent successful one, and if this ask's listing
    works, the answer rests on a listing younger than syncEvery or taken in this
    very call.
   */
  lemma {:induction false} CacheIsFresh(asks: seq<Ask>, syncEvery: int)
    requires Chronological(asks)
    ensures IsLastListing(asks, MemoryAfter(asks, syncEvery), syncEvery)
    ensures var m := MemoryAfter(asks, syncEvery);
            asks != [] ==>
              var a := asks[|asks| - 1];
              && (m.at.Some? ==> m.at.value <= a.now)
              && (a.listing.Some? ==> m.at.Some? && (m.at.value == a.now || a.now - m.at.value < syncEvery))
              && var before := MemoryAfter(asks[..|asks| - 1], syncEvery);
              && (m.at == Some(a.now) || m == before)
              && (m != before && before.at.Some? ==> a.now - before.at.value >= syncEvery)
  {
    if asks != [] {
      var init, a := asks[..|asks| - 1], asks[|asks| - 1];
      CacheIsFresh(init, syncEvery);
      var m := MemoryAfter(asks, syncEvery);
      if init != [] { assert init[|init| - 1].now <= a.now; }
      var before := MemoryAfter(init, syncEvery);
      if Stale(before, a.now, syncEvery) && a.listing.Some? {
        assert ListedAt(asks, m, syncEvery, |asks| - 1);
      } else if m.at.Some? {
        var i :| ListedAt(init, m, syncEvery, i);
        assert ListedAt(asks, m, syncEvery, i);
      }
    }
  }
}
