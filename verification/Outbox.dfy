/** The bounded re-send outbox (`Outbox` and `Relays::resend` in crates/maxplayer-challenges/src/relay.rs). */
module Outbox {
  import opened Basics
  import opened Latest
  import opened Runs

  const MAX_ENTRIES: nat := 64
  const MAX_ATTEMPTS: nat := 10
  const MAX_AGE_SECS: u64 := 7 * 24 * 3600

  type Relay = nat

  /** A relay that missed an event, and the failed re-sends to it so far. */
  datatype Miss = Miss(relay: Relay, attempts: nat)

  /** The exact signed event and the relays that missed it, in relay order. */
  datatype Entry = Entry(event: Event, missing: seq<Miss>, queuedAt: u64)

  // ---- Prune ----

  function LiveMisses(missing: seq<Miss>): (r: seq<Miss>)
    ensures forall m :: m in r <==> m in missing && m.attempts < MAX_ATTEMPTS
    ensures Remaining(r) <= Remaining(missing)
  {
    if missing == [] then []
    else
      var m, rest := missing[0], LiveMisses(missing[1..]);
      if m.attempts < MAX_ATTEMPTS then assert ([m] + rest)[1..] == rest; [m] + rest else rest
  }

  predicate Keep(e: Entry, at: u64) { e.missing != [] && SatSub(at, e.queuedAt) <= MAX_AGE_SECS }

  /** Attempts dropped, then delivered and expired entries dropped. */
  function Retained(entries: seq<Entry>, at: u64): (r: seq<Entry>)
    ensures forall e :: e in r ==> Keep(e, at) && (forall m :: m in e.missing ==> m.attempts < MAX_ATTEMPTS)
    ensures forall e :: e in r ==> exists f :: f in entries && f.event == e.event && f.queuedAt == e.queuedAt
    ensures |r| <= |entries| && TotalRemaining(r) <= TotalRemaining(entries)
  {
    if entries == [] then []
    else
      var rest := Retained(entries[1..], at);
      var e := entries[0].(missing := LiveMisses(entries[0].missing));
      assert entries == [entries[0]] + entries[1..];
      if Keep(e, at) then assert ([e] + rest)[1..] == rest; [e] + rest else rest
  }

  /** Puts `e` after every entry queued at or before it, as a stable sort does. */
  function InsertByTime(sorted: seq<Entry>, e: Entry): (r: seq<Entry>)
    ensures |r| == |sorted| + 1 && forall x :: x in r <==> x == e || x in sorted
    ensures TotalRemaining(r) == TotalRemaining(sorted) + Remaining(e.missing)
  {
    if sorted == [] then assert [e][1..] == []; [e]
    else if e.queuedAt < sorted[0].queuedAt then assert ([e] + sorted)[1..] == sorted; [e] + sorted
    else
      var rest := InsertByTime(sorted[1..], e);
      assert ([sorted[0]] + rest)[1..] == rest && sorted == [sorted[0]] + sorted[1..];
      [sorted[0]] + rest
  }

  function SortByTime(entries: seq<Entry>): (r: seq<Entry>)
    ensures |r| == |entries| && forall x :: x in r <==> x in entries
    ensures TotalRemaining(r) == TotalRemaining(entries)
  {
    if entries == [] then []
    else
      var n := |entries| - 1;
      assert entries == entries[..n] + [entries[n]];
      TotalOfConcat(entries[..n], [entries[n]]);
      assert [entries[n]][1..] == [];
      InsertByTime(SortByTime(entries[..n]), entries[n])
  }

  /** The last, and so the newest, entries. */
  function Capped(sorted: seq<Entry>): (r: seq<Entry>) {
    if |sorted| > MAX_ENTRIES then sorted[|sorted| - MAX_ENTRIES..] else sorted
  }

  function Pruned(entries: seq<Entry>, at: u64): (r: seq<Entry>) { Capped(SortByTime(Retained(entries, at))) }

  // ---- Queue ----

  function FreshMisses(relays: seq<Relay>): (r: seq<Miss>)
    ensures |r| == |relays| && forall i :: 0 <= i < |r| ==> r[i] == Miss(relays[i], 0)
  {
    seq(|relays|, i requires 0 <= i < |relays| => Miss(relays[i], 0))
  }

  /** An entry that a publish of `event` leaves in place: another coordinate, or a strictly newer version. */
  predicate Outlives(e: Entry, event: Event) {
    RelayKey(e.event) != RelayKey(event) || e.event.createdAt > event.createdAt
  }

  function NotSuperseded(entries: seq<Entry>, event: Event): (r: seq<Entry>)
    ensures forall e :: e in r <==> e in entries && Outlives(e, event)
    ensures |r| <= |entries| && TotalRemaining(r) <= TotalRemaining(entries)
  {
    if entries == [] then []
    else
      var rest := NotSuperseded(entries[1..], event);
      assert entries == [entries[0]] + entries[1..];
      if Outlives(entries[0], event) then assert ([entries[0]] + rest)[1..] == rest; [entries[0]] + rest else rest
  }

  predicate HoldsNewer(entries: seq<Entry>, event: Event) {
    exists e :: e in entries && RelayKey(e.event) == RelayKey(event)
  }

  function Queued(entries: seq<Entry>, event: Event, relays: seq<Relay>, at: u64): (r: seq<Entry>) {
    var kept := NotSuperseded(entries, event);
    if HoldsNewer(kept, event) then kept
    else Pruned(kept + [Entry(event, FreshMisses(relays), at)], at)
  }

  // ---- Re-send ----

  /** What an invocation knows when it re-sends: the relays that answered it, and how each send ends. */
  datatype Sweep = Sweep(at: u64, answered: set<Relay>, delivers: set<(string, Relay)>)

  function ResendMisses(missing: seq<Miss>, id: string, w: Sweep): (r: seq<Miss>) {
    if missing == [] then []
    else
      var m, rest := missing[0], ResendMisses(missing[1..], id, w);
      if m.relay !in w.answered then [m] + rest
      else if (id, m.relay) in w.delivers then rest
      else [m.(attempts := m.attempts + 1)] + rest
  }

  function ResendAll(entries: seq<Entry>, w: Sweep): (r: seq<Entry>)
    ensures |r| == |entries|
    ensures forall i :: 0 <= i < |r| ==> r[i].event == entries[i].event && r[i].queuedAt == entries[i].queuedAt
  {
    seq(|entries|, i requires 0 <= i < |entries| =>
      entries[i].(missing := ResendMisses(entries[i].missing, entries[i].event.id, w)))
  }

  function Resent(entries: seq<Entry>, w: Sweep): (r: seq<Entry>) {
    Pruned(ResendAll(Pruned(entries, w.at), w), w.at)
  }

  /** One send of a queued event: how often it had failed and how old the entry was. */
  datatype SendRecord = SendRecord(event: Event, relay: Relay, attempts: nat, age: u64)

  function MissSends(e: Entry, missing: seq<Miss>, w: Sweep): (r: seq<SendRecord>)
    ensures forall x :: x in r ==> x.event == e.event && x.age == SatSub(w.at, e.queuedAt)
                                   && x.relay in w.answered && Miss(x.relay, x.attempts) in missing
  {
    if missing == [] then []
    else
      var rest := MissSends(e, missing[1..], w);
      if missing[0].relay in w.answered
      then [SendRecord(e.event, missing[0].relay, missing[0].attempts, SatSub(w.at, e.queuedAt))] + rest
      else rest
  }

  function EntrySends(entries: seq<Entry>, w: Sweep): (r: seq<SendRecord>)
    ensures forall x :: x in r ==> exists e :: e in entries && x in MissSends(e, e.missing, w)
  {
    if entries == [] then []
    else MissSends(entries[0], entries[0].missing, w) + EntrySends(entries[1..], w)
  }

  function Sends(entries: seq<Entry>, w: Sweep): (r: seq<SendRecord>) { EntrySends(Pruned(entries, w.at), w) }

  // ---- Remaining attempts ----

  function Remaining(missing: seq<Miss>): (n: nat) {
    if missing == [] then 0
    else (if missing[0].attempts < MAX_ATTEMPTS then MAX_ATTEMPTS - missing[0].attempts else 0)
         + Remaining(missing[1..])
  }

  function TotalRemaining(entries: seq<Entry>): (n: nat) {
    if entries == [] then 0 else Remaining(entries[0].missing) + TotalRemaining(entries[1..])
  }

  lemma {:induction false} TotalOfConcat(a: seq<Entry>, b: seq<Entry>)
    ensures TotalRemaining(a + b) == TotalRemaining(a) + TotalRemaining(b)
  {
    if a == [] {
      assert a + b == b;
    } else {
      assert (a + b)[1..] == a[1..] + b;
      TotalOfConcat(a[1..], b);
    }
  }

  lemma {:induction false} MissSendsCost(e: Entry, missing: seq<Miss>, w: Sweep)
    requires forall m :: m in missing ==> m.attempts < MAX_ATTEMPTS
    ensures Remaining(ResendMisses(missing, e.event.id, w)) + |MissSends(e, missing, w)| <= Remaining(missing)
  {
    if missing != [] {
      MissSendsCost(e, missing[1..], w);
      var m, rest := missing[0], ResendMisses(missing[1..], e.event.id, w);
      assert m in missing;
      assert ([m] + rest)[1..] == rest;
      var failed := m.(attempts := m.attempts + 1);
      assert ([failed] + rest)[1..] == rest;
    }
  }

  lemma {:induction false} EntrySendsCost(entries: seq<Entry>, w: Sweep)
    requires forall e :: e in entries ==> forall m :: m in e.missing ==> m.attempts < MAX_ATTEMPTS
    ensures TotalRemaining(ResendAll(entries, w)) + |EntrySends(entries, w)| <= TotalRemaining(entries)
  {
    if entries != [] {
      assert entries[0] in entries;
      MissSendsCost(entries[0], entries[0].missing, w);
      EntrySendsCost(entries[1..], w);
      assert ResendAll(entries, w)[1..] == ResendAll(entries[1..], w);
    }
  }

  lemma PrunedCost(entries: seq<Entry>, at: u64)
    ensures TotalRemaining(Pruned(entries, at)) <= TotalRemaining(entries)
  {
    var sorted := SortByTime(Retained(entries, at));
    if |sorted| > MAX_ENTRIES {
      var k := |sorted| - MAX_ENTRIES;
      assert sorted == sorted[..k] + sorted[k..];
      TotalOfConcat(sorted[..k], sorted[k..]);
    }
  }

  /** Every re-send uses up at least one of the attempts that were left. */
  lemma ResendDecreases(entries: seq<Entry>, w: Sweep)
    ensures TotalRemaining(Resent(entries, w)) + |Sends(entries, w)| <= TotalRemaining(entries)
  {
    var pruned := Pruned(entries, w.at);
    PrunedMembers(entries, w.at);
    PrunedCost(entries, w.at);
    EntrySendsCost(pruned, w);
    PrunedCost(ResendAll(pruned, w), w.at);
  }

  lemma {:induction false} FreshCost(missing: seq<Miss>)
    requires forall i :: 0 <= i < |missing| ==> missing[i].attempts == 0
    ensures Remaining(missing) == MAX_ATTEMPTS * |missing|
  {
    if missing != [] {
      FreshCost(missing[1..]);
    }
  }

  lemma QueueCost(entries: seq<Entry>, event: Event, relays: seq<Relay>, at: u64)
    ensures TotalRemaining(Queued(entries, event, relays, at)) <= TotalRemaining(entries) + MAX_ATTEMPTS * |relays|
  {
    var kept := NotSuperseded(entries, event);
    var added := [Entry(event, FreshMisses(relays), at)];
    FreshCost(FreshMisses(relays));
    TotalOfConcat(kept, added);
    assert added[1..] == [];
    PrunedCost(kept + added, at);
  }

  // ---- The shape every operation keeps ----

  predicate Ordered(entries: seq<Entry>) {
    forall i, j :: 0 <= i < j < |entries| ==> entries[i].queuedAt <= entries[j].queuedAt
  }

  predicate OnePerCoordinate(entries: seq<Entry>) {
    forall i, j :: 0 <= i < j < |entries| ==> RelayKey(entries[i].event) != RelayKey(entries[j].event)
  }

  predicate EntryOk(e: Entry) { e.missing != [] && forall m :: m in e.missing ==> m.attempts < MAX_ATTEMPTS }

  predicate OutboxOk(entries: seq<Entry>) {
    && |entries| <= MAX_ENTRIES && Ordered(entries) && OnePerCoordinate(entries)
    && forall e :: e in entries ==> EntryOk(e)
  }

  lemma {:induction false} InsertKeepsOrder(sorted: seq<Entry>, e: Entry)
    requires Ordered(sorted)
    ensures Ordered(InsertByTime(sorted, e))
  {
    if sorted != [] && e.queuedAt >= sorted[0].queuedAt {
      InsertKeepsOrder(sorted[1..], e);
      var rest := InsertByTime(sorted[1..], e);
      forall j | 0 <= j < |rest|
        ensures sorted[0].queuedAt <= rest[j].queuedAt
      {
        assert rest[j] in rest;
      }
    }
  }

  lemma {:induction false} SortSorts(entries: seq<Entry>)
    ensures Ordered(SortByTime(entries))
  {
    if entries != [] {
      SortSorts(entries[..|entries| - 1]);
      InsertKeepsOrder(SortByTime(entries[..|entries| - 1]), entries[|entries| - 1]);
    }
  }

  lemma {:induction false} InsertKeepsDistinct(sorted: seq<Entry>, e: Entry)
    requires OnePerCoordinate(sorted) && forall x :: x in sorted ==> RelayKey(x.event) != RelayKey(e.event)
    ensures OnePerCoordinate(InsertByTime(sorted, e))
  {
    if sorted != [] && e.queuedAt >= sorted[0].queuedAt {
      InsertKeepsDistinct(sorted[1..], e);
      var rest := InsertByTime(sorted[1..], e);
      forall j | 0 <= j < |rest|
        ensures RelayKey(sorted[0].event) != RelayKey(rest[j].event)
      {
        assert rest[j] in rest;
      }
    }
  }

  lemma {:induction false} SortKeepsDistinct(entries: seq<Entry>)
    requires OnePerCoordinate(entries)
    ensures OnePerCoordinate(SortByTime(entries))
  {
    if entries != [] {
      var n := |entries| - 1;
      SortKeepsDistinct(entries[..n]);
      InsertKeepsDistinct(SortByTime(entries[..n]), entries[n]);
    }
  }

  lemma {:induction false} RetainKeepsDistinct(entries: seq<Entry>, at: u64)
    requires OnePerCoordinate(entries)
    ensures OnePerCoordinate(Retained(entries, at))
  {
    if entries != [] {
      RetainKeepsDistinct(entries[1..], at);
      var rest := Retained(entries[1..], at);
      forall j | 0 <= j < |rest|
        ensures RelayKey(entries[0].event) != RelayKey(rest[j].event)
      {
        assert rest[j] in rest;
      }
    }
  }

  /** What survives a prune, and why each survivor may still be sent. */
  lemma PrunedMembers(entries: seq<Entry>, at: u64)
    ensures forall e :: e in Pruned(entries, at) ==> EntryOk(e) && SatSub(at, e.queuedAt) <= MAX_AGE_SECS
    ensures forall e :: e in Pruned(entries, at) ==>
              exists f :: f in entries && f.event == e.event && f.queuedAt == e.queuedAt
    ensures |Pruned(entries, at)| <= MAX_ENTRIES && Ordered(Pruned(entries, at))
  {
    SortSorts(Retained(entries, at));
    var sorted := SortByTime(Retained(entries, at));
    assert forall e :: e in Pruned(entries, at) ==> e in sorted;
  }

  lemma PruneKeepsShape(entries: seq<Entry>, at: u64)
    requires OnePerCoordinate(entries)
    ensures OutboxOk(Pruned(entries, at))
  {
    RetainKeepsDistinct(entries, at);
    SortKeepsDistinct(Retained(entries, at));
    PrunedMembers(entries, at);
  }

  /** `e` may stand in front of `rest`. */
  predicate Precedes(e: Entry, rest: seq<Entry>) {
    forall x :: x in rest ==> e.queuedAt <= x.queuedAt && RelayKey(e.event) != RelayKey(x.event)
  }

  lemma PrependKeepsShape(e: Entry, rest: seq<Entry>)
    requires Ordered(rest) && OnePerCoordinate(rest) && Precedes(e, rest)
    ensures Ordered([e] + rest) && OnePerCoordinate([e] + rest)
  {
    assert forall j :: 0 <= j < |rest| ==> rest[j] in rest;
  }

  lemma HeadPrecedes(entries: seq<Entry>)
    requires entries != [] && Ordered(entries) && OnePerCoordinate(entries)
    ensures Precedes(entries[0], entries[1..]) && Ordered(entries[1..]) && OnePerCoordinate(entries[1..])
  {
  }

  lemma {:induction false} SupersedeKeepsShape(entries: seq<Entry>, event: Event)
    requires Ordered(entries) && OnePerCoordinate(entries)
    ensures Ordered(NotSuperseded(entries, event)) && OnePerCoordinate(NotSuperseded(entries, event))
  {
    if entries != [] {
      HeadPrecedes(entries);
      SupersedeKeepsShape(entries[1..], event);
      PrependKeepsShape(entries[0], NotSuperseded(entries[1..], event));
    }
  }

  lemma QueueKeepsShape(entries: seq<Entry>, event: Event, relays: seq<Relay>, at: u64)
    requires OutboxOk(entries)
    ensures OutboxOk(Queued(entries, event, relays, at))
  {
    var kept := NotSuperseded(entries, event);
    SupersedeKeepsShape(entries, event);
    if !HoldsNewer(kept, event) {
      var all := kept + [Entry(event, FreshMisses(relays), at)];
      forall i, j | 0 <= i < j < |all|
        ensures RelayKey(all[i].event) != RelayKey(all[j].event)
      {
        assert all[i] in kept;
      }
      PruneKeepsShape(all, at);
    }
  }

  // ---- Age ----

  predicate WithinAge(entries: seq<Entry>, at: u64) {
    forall e :: e in entries ==> SatSub(at, e.queuedAt) <= MAX_AGE_SECS
  }

  /** Queueing finds a strictly newer version of the coordinate queued, and returns before it prunes. */
  predicate ReturnsEarly(entries: seq<Entry>, event: Event) { HoldsNewer(NotSuperseded(entries, event), event) }

  /** After queueing, no entry kept is past its age if and only if queueing pruned or what it left was within age. */
  lemma QueueKeepsAgeExactly(entries: seq<Entry>, event: Event, relays: seq<Relay>, at: u64)
    ensures WithinAge(Queued(entries, event, relays, at), at)
            <==> !ReturnsEarly(entries, event) || WithinAge(NotSuperseded(entries, event), at)
  {
    if !ReturnsEarly(entries, event) {
      PrunedMembers(NotSuperseded(entries, event) + [Entry(event, FreshMisses(relays), at)], at);
    }
  }

  /** After a sweep no entry kept is past its age. */
  lemma ResendKeepsAge(entries: seq<Entry>, w: Sweep)
    ensures WithinAge(Resent(entries, w), w.at)
  {
    PrunedMembers(ResendAll(Pruned(entries, w.at), w), w.at);
  }

  lemma ResendKeepsShape(entries: seq<Entry>, w: Sweep)
    requires OutboxOk(entries)
    ensures OutboxOk(Resent(entries, w))
  {
    PruneKeepsShape(entries, w.at);
    var all := ResendAll(Pruned(entries, w.at), w);
    assert OnePerCoordinate(all);
    PruneKeepsShape(all, w.at);
  }

  // ---- The file's owner ----

  method Retain(entries: seq<Entry>, at: u64) returns (kept: seq<Entry>)
    ensures kept == Retained(entries, at)
  {
    kept := [];
    var i := |entries|;
    while i > 0
      invariant 0 <= i <= |entries|
      invariant kept == Retained(entries[i..], at)
    {
      i := i - 1;
      assert entries[i..][1..] == entries[i + 1..];
      var e := entries[i].(missing := LiveMisses(entries[i].missing));
      if Keep(e, at) {
        kept := [e] + kept;
      }
    }
    assert entries[0..] == entries;
  }

  method Sort(entries: seq<Entry>) returns (sorted: seq<Entry>)
    ensures sorted == SortByTime(entries)
  {
    sorted := [];
    for i := 0 to |entries|
      invariant sorted == SortByTime(entries[..i])
    {
      assert entries[..i + 1][..i] == entries[..i];
      sorted := InsertByTime(sorted, entries[i]);
    }
    assert entries[..|entries|] == entries;
  }

  /** Sends every queued event to the relays that answered, and books each verdict on its entry. */
  method SendEach(entries: seq<Entry>, w: Sweep) returns (after: seq<Entry>, sent: seq<SendRecord>)
    ensures after == ResendAll(entries, w) && sent == EntrySends(entries, w)
  {
    after, sent := [], [];
    var i := |entries|;
    while i > 0
      invariant 0 <= i <= |entries|
      invariant after == ResendAll(entries, w)[i..]
      invariant sent == EntrySends(entries[i..], w)
    {
      i := i - 1;
      var e := entries[i];
      assert entries[i..][0] == e && entries[i..][1..] == entries[i + 1..];
      sent := MissSends(e, e.missing, w) + sent;
      after := [e.(missing := ResendMisses(e.missing, e.event.id, w))] + after;
    }
    assert entries[0..] == entries;
  }

  /** `Outbox`, loaded, changed and saved whole by each command. */
  class OutboxFile {
    var entries: seq<Entry>

    constructor ()
      ensures entries == []
    {
      entries := [];
    }

    method Prune(at: u64)
      modifies this
      ensures entries == Pruned(old(entries), at)
    {
      var kept := Retain(entries, at);
      var sorted := Sort(kept);
      entries := Capped(sorted);
    }

    method Queue(event: Event, relays: seq<Relay>, at: u64)
      modifies this
      ensures entries == Queued(old(entries), event, relays, at)
      ensures OutboxOk(old(entries)) ==> OutboxOk(entries)
    {
      ghost var before := entries;
      entries := NotSuperseded(entries, event);
      if !HoldsNewer(entries, event) {
        entries := entries + [Entry(event, FreshMisses(relays), at)];
        Prune(at);
      }
      if OutboxOk(before) {
        QueueKeepsShape(before, event, relays, at);
      }
    }

    method Resend(w: Sweep) returns (sent: seq<SendRecord>)
      modifies this
      ensures entries == Resent(old(entries), w) && sent == Sends(old(entries), w)
      ensures OutboxOk(old(entries)) ==> OutboxOk(entries)
    {
      ghost var before := entries;
      Prune(w.at);
      entries, sent := SendEach(entries, w);
      Prune(w.at);
      if OutboxOk(before) {
        ResendKeepsShape(before, w);
      }
    }
  }

  // ---- Every run ----

  /** `saved` is false when the file could not be written and so stayed as it was. */
  datatype Action =
    | QueueEvent(event: Event, relays: seq<Relay>, at: u64, saved: bool)
    | ResendQueued(sweep: Sweep, saved: bool)

  /** A publish met its quorum and its queueing was saved or not; a queued event was sent. */
  datatype LogItem = Met(event: Event, saved: bool) | Sent(record: SendRecord)

  /**
   * The saved entries, the log, what saved steps sent and queued (the sends and the relays queued for), and the time
   * of the last saved step that pruned.
   */
  datatype State = State(entries: seq<Entry>, log: seq<LogItem>, sends: nat, queuedRelays: nat, prunedAt: u64)

  function SentItems(sends: seq<SendRecord>): (r: seq<LogItem>)
    ensures |r| == |sends| && forall i :: 0 <= i < |r| ==> r[i] == Sent(sends[i])
  {
    seq(|sends|, i requires 0 <= i < |sends| => Sent(sends[i]))
  }

  function Step(s: State, a: Action): (t: State) {
    match a
    case QueueEvent(event, relays, at, saved) =>
      var logged := s.(log := s.log + [Met(event, saved)]);
      if !saved then logged
      else logged.(entries := Queued(s.entries, event, relays, at), queuedRelays := s.queuedRelays + |relays|,
                   prunedAt := if ReturnsEarly(s.entries, event) then s.prunedAt else at)
    case ResendQueued(w, saved) =>
      var logged := s.(log := s.log + SentItems(Sends(s.entries, w)));
      if !saved then logged
      else logged.(entries := Resent(s.entries, w), sends := s.sends + |Sends(s.entries, w)|, prunedAt := w.at)
  }

  function Run(actions: seq<Action>): (s: State) {
    if actions == [] then State([], [], 0, 0, 0)
    else Step(Run(actions[..|actions| - 1]), actions[|actions| - 1])
  }

  /** `x` is a strictly newer version of the coordinate of `e`. */
  predicate NewerVersion(x: Event, e: Event) { RelayKey(x) == RelayKey(e) && x.createdAt > e.createdAt }

  predicate SavedMet(item: LogItem) { item.Met? && item.saved }

  /** `e` met its quorum, and was saved, at some point of the log between `i` and `end`. */
  predicate MetBetween(log: seq<LogItem>, i: int, end: int, e: Event) {
    exists k :: i < k < end && 0 <= k < |log| && log[k] == Met(e, true)
  }

  /** What a saved publish superseded is queued again only after it met quorum again. */
  predicate NothingStale(entries: seq<Entry>, log: seq<LogItem>) {
    forall i, e :: 0 <= i < |log| && SavedMet(log[i]) && e in entries && NewerVersion(log[i].event, e.event)
                   ==> MetBetween(log, i, |log|, e.event)
  }

  predicate InBounds(x: SendRecord) { x.attempts < MAX_ATTEMPTS && x.age <= MAX_AGE_SECS }

  predicate SendsInBounds(log: seq<LogItem>) {
    forall j :: 0 <= j < |log| && log[j].Sent? ==> InBounds(log[j].record)
  }

  /** A send of an older version after a newer one met quorum. */
  predicate StaleSend(log: seq<LogItem>, i: int, j: int) {
    0 <= i < j < |log| && log[i].Met? && log[j].Sent? && NewerVersion(log[i].event, log[j].record.event)
  }

  /** Every stale send is after a save that failed, or after the older version met quorum again. */
  ghost predicate StaleOnlyUnsaved(log: seq<LogItem>) {
    forall i, j :: StaleSend(log, i, j) && log[i].saved ==> MetBetween(log, i, j, log[j].record.event)
  }

  ghost predicate Inv(s: State) {
    && OutboxOk(s.entries) && WithinAge(s.entries, s.prunedAt)
    && s.sends + TotalRemaining(s.entries) <= MAX_ATTEMPTS * s.queuedRelays
    && NothingStale(s.entries, s.log) && SendsInBounds(s.log) && StaleOnlyUnsaved(s.log)
  }

  lemma QueueSupersedes(entries: seq<Entry>, event: Event, relays: seq<Relay>, at: u64, e: Entry)
    requires e in Queued(entries, event, relays, at)
    ensures !NewerVersion(event, e.event)
    ensures e.event == event || exists f :: f in entries && f.event == e.event
  {
    var kept := NotSuperseded(entries, event);
    PrunedMembers(kept + [Entry(event, FreshMisses(relays), at)], at);
  }

  lemma SendMembers(entries: seq<Entry>, w: Sweep, x: SendRecord)
    requires x in Sends(entries, w)
    ensures InBounds(x) && exists f :: f in entries && f.event == x.event
  {
    PrunedMembers(entries, w.at);
    var e :| e in Pruned(entries, w.at) && x in MissSends(e, e.missing, w);
    var f :| f in entries && f.event == e.event && f.queuedAt == e.queuedAt;
  }

  lemma PrunedEvent(entries: seq<Entry>, at: u64, e: Entry)
    requires e in Pruned(entries, at)
    ensures exists f :: f in entries && f.event == e.event
  {
    PrunedMembers(entries, at);
    var f :| f in entries && f.event == e.event && f.queuedAt == e.queuedAt;
  }

  lemma ResendAllEvent(entries: seq<Entry>, w: Sweep, e: Event)
    requires exists g :: g in ResendAll(entries, w) && g.event == e
    ensures exists f :: f in entries && f.event == e
  {
    var all := ResendAll(entries, w);
    var g :| g in all && g.event == e;
    var i :| 0 <= i < |all| && all[i] == g;
    assert entries[i] in entries;
  }

  lemma ResentMembers(entries: seq<Entry>, w: Sweep, e: Entry)
    requires e in Resent(entries, w)
    ensures exists f :: f in entries && f.event == e.event
  {
    var pruned := Pruned(entries, w.at);
    PrunedEvent(ResendAll(pruned, w), w.at, e);
    ResendAllEvent(pruned, w, e.event);
    var p :| p in pruned && p.event == e.event;
    PrunedEvent(entries, w.at, p);
  }

  lemma MetBetweenGrows(log: seq<LogItem>, more: seq<LogItem>, i: int, end: int, e: Event)
    requires MetBetween(log, i, end, e)
    ensures forall later :: later >= end ==> MetBetween(log + more, i, later, e)
  {
    var k :| i < k < end && 0 <= k < |log| && log[k] == Met(e, true);
    assert (log + more)[k] == Met(e, true);
  }

  /** A send keeps to its bounds and is of an event that is queued. */
  predicate SendsQueued(entries: seq<Entry>, more: seq<LogItem>) {
    forall j :: 0 <= j < |more| && more[j].Sent? ==>
      InBounds(more[j].record) && exists f :: f in entries && f.event == more[j].record.event
  }

  /** What the log says of a queued event it still says after more items. */
  lemma StillMet(entries: seq<Entry>, log: seq<LogItem>, more: seq<LogItem>, i: nat, e: Event, end: nat)
    requires NothingStale(entries, log) && i < |log| <= end && SavedMet(log[i]) && NewerVersion(log[i].event, e)
    requires exists f :: f in entries && f.event == e
    ensures MetBetween(log + more, i, end, e)
  {
    var f :| f in entries && f.event == e;
    MetBetweenGrows(log, more, i, |log|, f.event);
  }

  lemma LogGrows(entries: seq<Entry>, log: seq<LogItem>, more: seq<LogItem>)
    requires NothingStale(entries, log) && SendsInBounds(log) && StaleOnlyUnsaved(log) && SendsQueued(entries, more)
    requires |more| == 1 || forall j :: 0 <= j < |more| ==> more[j].Sent?
    ensures SendsInBounds(log + more) && StaleOnlyUnsaved(log + more)
  {
    var all := log + more;
    forall i, j | StaleSend(all, i, j) && all[i].saved
      ensures MetBetween(all, i, j, all[j].record.event)
    {
      if j < |log| {
        assert StaleSend(log, i, j);
        MetBetweenGrows(log, more, i, j, log[j].record.event);
      } else {
        assert all[j] == more[j - |log|];
        assert i < |log|;
        StillMet(entries, log, more, i, all[j].record.event, j);
      }
    }
  }

  lemma QuietKeepsNothingStale(entries: seq<Entry>, after: seq<Entry>, log: seq<LogItem>, more: seq<LogItem>)
    requires NothingStale(entries, log) && (forall j :: 0 <= j < |more| ==> !SavedMet(more[j]))
    requires forall e :: e in after ==> exists f :: f in entries && f.event == e.event
    ensures NothingStale(after, log + more)
  {
    var all := log + more;
    forall i, e | 0 <= i < |all| && SavedMet(all[i]) && e in after && NewerVersion(all[i].event, e.event)
      ensures MetBetween(all, i, |all|, e.event)
    {
      assert i < |log|;
      StillMet(entries, log, more, i, e.event, |all|);
    }
  }

  lemma QueueKeepsNothingStale(entries: seq<Entry>, log: seq<LogItem>, event: Event, relays: seq<Relay>, at: u64)
    requires NothingStale(entries, log)
    ensures NothingStale(Queued(entries, event, relays, at), log + [Met(event, true)])
  {
    var all := log + [Met(event, true)];
    forall i, e | 0 <= i < |all| && SavedMet(all[i]) && e in Queued(entries, event, relays, at)
                  && NewerVersion(all[i].event, e.event)
      ensures MetBetween(all, i, |all|, e.event)
    {
      QueueSupersedes(entries, event, relays, at, e);
      if e.event == event {
        assert all[|log|] == Met(event, true);
      } else {
        StillMet(entries, log, [Met(event, true)], i, e.event, |all|);
      }
    }
  }

  lemma QueueStep(s: State, event: Event, relays: seq<Relay>, at: u64)
    requires Inv(s)
    ensures Inv(Step(s, QueueEvent(event, relays, at, true)))
  {
    LogGrows(s.entries, s.log, [Met(event, true)]);
    QueueKeepsShape(s.entries, event, relays, at);
    QueueCost(s.entries, event, relays, at);
    QueueKeepsNothingStale(s.entries, s.log, event, relays, at);
    QueueKeepsAgeExactly(s.entries, event, relays, at);
  }

  lemma UnsavedQueueStep(s: State, event: Event, relays: seq<Relay>, at: u64)
    requires Inv(s)
    ensures Inv(Step(s, QueueEvent(event, relays, at, false)))
  {
    LogGrows(s.entries, s.log, [Met(event, false)]);
    QuietKeepsNothingStale(s.entries, s.entries, s.log, [Met(event, false)]);
  }

  lemma SweepSends(entries: seq<Entry>, w: Sweep)
    ensures SendsQueued(entries, SentItems(Sends(entries, w)))
  {
    var sends := Sends(entries, w);
    forall j | 0 <= j < |sends|
      ensures InBounds(sends[j]) && exists f :: f in entries && f.event == sends[j].event
    {
      assert sends[j] in sends;
      SendMembers(entries, w, sends[j]);
    }
  }

  lemma ResendStep(s: State, w: Sweep)
    requires Inv(s)
    ensures Inv(Step(s, ResendQueued(w, true)))
  {
    SweepSends(s.entries, w);
    LogGrows(s.entries, s.log, SentItems(Sends(s.entries, w)));
    ResendKeepsShape(s.entries, w);
    ResendKeepsAge(s.entries, w);
    ResendDecreases(s.entries, w);
    ResendKeepsNothingStale(s.entries, s.log, w);
  }

  lemma ResendKeepsNothingStale(entries: seq<Entry>, log: seq<LogItem>, w: Sweep)
    requires NothingStale(entries, log)
    ensures NothingStale(Resent(entries, w), log + SentItems(Sends(entries, w)))
  {
    forall e | e in Resent(entries, w)
      ensures exists f :: f in entries && f.event == e.event
    {
      ResentMembers(entries, w, e);
    }
    QuietKeepsNothingStale(entries, Resent(entries, w), log, SentItems(Sends(entries, w)));
  }

  lemma UnsavedResendStep(s: State, w: Sweep)
    requires Inv(s)
    ensures Inv(Step(s, ResendQueued(w, false)))
  {
    SweepSends(s.entries, w);
    LogGrows(s.entries, s.log, SentItems(Sends(s.entries, w)));
    SendsKeepNothingStale(s.entries, s.log, SentItems(Sends(s.entries, w)));
  }

  lemma SendsKeepNothingStale(entries: seq<Entry>, log: seq<LogItem>, more: seq<LogItem>)
    requires NothingStale(entries, log) && forall j :: 0 <= j < |more| ==> more[j].Sent?
    ensures NothingStale(entries, log + more)
  {
    QuietKeepsNothingStale(entries, entries, log, more);
  }

  lemma StepKeepsInv(s: State, a: Action)
    requires Inv(s)
    ensures Inv(Step(s, a))
  {
    match a
    case QueueEvent(event, relays, at, saved) =>
      if saved {
        QueueStep(s, event, relays, at);
      } else {
        UnsavedQueueStep(s, event, relays, at);
      }
    case ResendQueued(w, saved) =>
      if saved {
        ResendStep(s, w);
      } else {
        UnsavedResendStep(s, w);
      }
  }

  /**
   * Every run of publishes and re-sends, whichever saves fail: the saved outbox is bounded, sorted and free of
   * duplicates, and no entry was past its age at the last saved step that pruned; no expired or exhausted entry is
   * sent; saved sweeps spend at most ten sends per relay queued for; and a version is sent after a newer one met quorum
   * only if the save at that publish failed or it met quorum again.
   */
  lemma {:induction false} OutboxRuns(actions: seq<Action>)
    ensures Inv(Run(actions))
  {
    if actions != [] {
      OutboxRuns(actions[..|actions| - 1]);
      StepKeepsInv(Run(actions[..|actions| - 1]), actions[|actions| - 1]);
    }
  }

  // ---- Exactly when the saved entries are within age ----

  function TimeOf(a: Action): (at: u64) { if a.QueueEvent? then a.at else a.sweep.at }

  /** After the step, if it was saved, no entry is past its age at the step's time. */
  predicate AgeBoundedAfter(s: State, a: Action) { a.saved ==> WithinAge(Step(s, a).entries, TimeOf(a)) }

  /** The step is a saved early return that leaves an entry past its age. */
  predicate LeavesExpired(s: State, a: Action) {
    a.QueueEvent? && a.saved && ReturnsEarly(s.entries, a.event) && !WithinAge(NotSuperseded(s.entries, a.event), a.at)
  }

  lemma StepBoundsAgeExactly(s: State, a: Action)
    ensures AgeBoundedAfter(s, a) <==> !LeavesExpired(s, a)
  {
    match a
    case QueueEvent(event, relays, at, _) => QueueKeepsAgeExactly(s.entries, event, relays, at);
    case ResendQueued(w, _) => ResendKeepsAge(s.entries, w);
  }

  /**
   * Every saved step of a run leaves all entries within age if and only if none is an early return over an expired
   * one.
   */
  lemma AgeIsBoundedExactly(actions: seq<Action>)
    ensures (forall n :: 0 <= n < |actions| ==> AgeBoundedAfter(Run(actions[..n]), actions[n]))
            <==> (forall n :: 0 <= n < |actions| ==> !LeavesExpired(Run(actions[..n]), actions[n]))
  {
    forall n | 0 <= n < |actions|
      ensures AgeBoundedAfter(Run(actions[..n]), actions[n]) <==> !LeavesExpired(Run(actions[..n]), actions[n])
    {
      StepBoundsAgeExactly(Run(actions[..n]), actions[n]);
    }
  }

  /** An older version queued a second too late after a newer one: the newer entry stays, past its age. */
  lemma EarlyReturnKeepsExpired(older: Event, newer: Event, relay: Relay)
    requires NewerVersion(newer, older)
    ensures var s, a := Run([QueueEvent(newer, [relay], 0, true)]), QueueEvent(older, [], MAX_AGE_SECS + 1, true);
            LeavesExpired(s, a) && !AgeBoundedAfter(s, a)
  {
    var s := Run([QueueEvent(newer, [relay], 0, true)]);
    FirstQueued(newer, relay, 0);
    ExpiredIsLeft(s, older, Entry(newer, [Miss(relay, 0)], 0));
  }

  lemma FirstQueued(event: Event, relay: Relay, at: u64)
    ensures Run([QueueEvent(event, [relay], at, true)]).entries == [Entry(event, [Miss(relay, 0)], at)]
  {
    assert [QueueEvent(event, [relay], at, true)][..0] == [];
    QueueFirst(event, relay, at);
  }

  lemma ExpiredIsLeft(s: State, older: Event, e: Entry)
    requires s.entries == [e] && NewerVersion(e.event, older) && e.queuedAt == 0
    ensures var a := QueueEvent(older, [], MAX_AGE_SECS + 1, true); LeavesExpired(s, a) && !AgeBoundedAfter(s, a)
  {
    LoneEntryStays(older, e);
    StepBoundsAgeExactly(s, QueueEvent(older, [], MAX_AGE_SECS + 1, true));
  }

  lemma LoneEntryStays(older: Event, e: Entry)
    requires NewerVersion(e.event, older) && e.queuedAt == 0
    ensures ReturnsEarly([e], older) && !WithinAge(NotSuperseded([e], older), MAX_AGE_SECS + 1)
  {
    assert e in [e] && e in NotSuperseded([e], older);
  }

  // ---- Exactly when the next sweep sends a superseded version ----

  /** An entry for `e` survives the sweep's prune with a missing relay that answered. */
  predicate Due(entries: seq<Entry>, w: Sweep, e: Event) {
    exists p, m :: p in Pruned(entries, w.at) && p.event == e && m in p.missing && m.relay in w.answered
  }

  lemma {:induction false} MissIsSent(e: Entry, missing: seq<Miss>, w: Sweep, m: Miss)
    requires m in missing && m.relay in w.answered
    ensures SendRecord(e.event, m.relay, m.attempts, SatSub(w.at, e.queuedAt)) in MissSends(e, missing, w)
  {
    if missing[0] != m {
      assert missing == [missing[0]] + missing[1..];
      MissIsSent(e, missing[1..], w, m);
    }
  }

  lemma {:induction false} EntryIsSent(entries: seq<Entry>, w: Sweep, e: Entry, x: SendRecord)
    requires e in entries && x in MissSends(e, e.missing, w)
    ensures x in EntrySends(entries, w)
  {
    if entries[0] != e {
      assert entries == [entries[0]] + entries[1..];
      EntryIsSent(entries[1..], w, e, x);
    }
  }

  lemma SentExactlyWhenDue(entries: seq<Entry>, w: Sweep, e: Event)
    ensures (exists x :: x in Sends(entries, w) && x.event == e) <==> Due(entries, w, e)
  {
    if x :| x in Sends(entries, w) && x.event == e {
      var p :| p in Pruned(entries, w.at) && x in MissSends(p, p.missing, w);
      assert Miss(x.relay, x.attempts) in p.missing;
    }
    if Due(entries, w, e) {
      var p, m :| p in Pruned(entries, w.at) && p.event == e && m in p.missing && m.relay in w.answered;
      MissIsSent(p, p.missing, w, m);
      var x := SendRecord(p.event, m.relay, m.attempts, SatSub(w.at, p.queuedAt));
      EntryIsSent(Pruned(entries, w.at), w, p, x);
    }
  }

  /**
   * After a newer version met quorum, the next sweep sends the older one if and only if the save failed and the older
   * entry survives the prune with a missing relay that answers.
   */
  lemma StaleSendExactly(s: State, newer: Event, relays: seq<Relay>, at: u64, saved: bool, w: Sweep, older: Event)
    requires NewerVersion(newer, older)
    ensures (exists x :: x in Sends(Step(s, QueueEvent(newer, relays, at, saved)).entries, w) && x.event == older)
            <==> !saved && Due(s.entries, w, older)
  {
    var after := Step(s, QueueEvent(newer, relays, at, saved)).entries;
    if saved {
      forall x | x in Sends(after, w)
        ensures x.event != older
      {
        SendMembers(after, w, x);
        var f :| f in after && f.event == x.event;
        QueueSupersedes(s.entries, newer, relays, at, f);
      }
    } else {
      SentExactlyWhenDue(s.entries, w, older);
    }
  }

  /** The smallest case: one relay missed the older version, and the save of the newer publish failed. */
  lemma UnsavedQueueSendsStale(older: Event, newer: Event, relay: Relay, at: u64)
    requires NewerVersion(newer, older)
    ensures var s := Run([QueueEvent(older, [relay], at, true), QueueEvent(newer, [], at, false)]);
            exists x :: x in Sends(s.entries, Sweep(at, {relay}, {})) && x.event == older
  {
    var a, b := QueueEvent(older, [relay], at, true), QueueEvent(newer, [], at, false);
    assert [a, b][..1] == [a] && [a][..0] == [];
    assert Run([a, b]) == Step(Run([a]), b);
    QueueFirst(older, relay, at);
    var e := Entry(older, [Miss(relay, 0)], at);
    assert Run([a]).entries == [e];
    assert Miss(relay, 0) in e.missing && e in [e];
    assert Due([e], Sweep(at, {relay}, {}), older);
    StaleSendExactly(Run([a]), newer, [], at, false, Sweep(at, {relay}, {}), older);
  }

  lemma QueueFirst(event: Event, relay: Relay, at: u64)
    ensures Queued([], event, [relay], at) == [Entry(event, [Miss(relay, 0)], at)]
    ensures Pruned([Entry(event, [Miss(relay, 0)], at)], at) == [Entry(event, [Miss(relay, 0)], at)]
  {
    var m, e := Miss(relay, 0), Entry(event, [Miss(relay, 0)], at);
    assert FreshMisses([relay]) == [m];
    assert [m][1..] == [] && LiveMisses([m]) == [m];
    assert [e][1..] == [] && Retained([e], at) == [e];
    assert [e][..0] == [] && SortByTime([e]) == [e];
    assert [] + [e] == [e];
  }
}
