/** What a sweep of the re-send outbox leaves missing, what the next sweeps send, and what a prune drops. */
module Sweeps {
  import opened Basics
  import opened Latest
  import opened Runs
  import opened Outbox

  // ---- What a prune drops ----

  lemma {:induction false} RetainedExactly(entries: seq<Entry>, at: u64, e: Entry)
    ensures e in Retained(entries, at) <==>
            Keep(e, at) && exists f :: f in entries && e == f.(missing := LiveMisses(f.missing))
  {
    if entries != [] {
      assert entries == [entries[0]] + entries[1..];
      RetainedExactly(entries[1..], at, e);
    }
  }

  /** The entries queued at one time, in order. */
  function AtTime(entries: seq<Entry>, t: u64): (r: seq<Entry>) {
    if entries == [] then []
    else if entries[0].queuedAt == t then [entries[0]] + AtTime(entries[1..], t)
    else AtTime(entries[1..], t)
  }

  lemma {:induction false} AtTimeConcat(a: seq<Entry>, b: seq<Entry>, t: u64)
    ensures AtTime(a + b, t) == AtTime(a, t) + AtTime(b, t)
  {
    if a == [] {
      assert a + b == b;
    } else {
      assert (a + b)[1..] == a[1..] + b;
      AtTimeConcat(a[1..], b, t);
    }
  }

  lemma {:induction false} NoneAtTime(entries: seq<Entry>, t: u64)
    requires forall e :: e in entries ==> e.queuedAt != t
    ensures AtTime(entries, t) == []
  {
    if entries != [] {
      assert entries[0] in entries;
      NoneAtTime(entries[1..], t);
    }
  }

  lemma {:induction false} InsertIsStable(sorted: seq<Entry>, e: Entry, t: u64)
    requires Ordered(sorted)
    ensures AtTime(InsertByTime(sorted, e), t) == AtTime(sorted, t) + if e.queuedAt == t then [e] else []
  {
    assert [e][1..] == [];
    if sorted != [] && e.queuedAt < sorted[0].queuedAt {
      assert ([e] + sorted)[1..] == sorted;
      if e.queuedAt == t {
        NoneAtTime(sorted, t);
      }
    } else if sorted != [] {
      InsertIsStable(sorted[1..], e, t);
      var rest := InsertByTime(sorted[1..], e);
      assert ([sorted[0]] + rest)[1..] == rest;
    }
  }

  /** The sort is stable: entries queued in one second keep their order. */
  lemma {:induction false} SortIsStable(entries: seq<Entry>, t: u64)
    ensures AtTime(SortByTime(entries), t) == AtTime(entries, t)
  {
    if entries != [] {
      var n := |entries| - 1;
      SortIsStable(entries[..n], t);
      SortSorts(entries[..n]);
      InsertIsStable(SortByTime(entries[..n]), entries[n], t);
      assert entries == entries[..n] + [entries[n]] && [entries[n]][1..] == [];
      AtTimeConcat(entries[..n], [entries[n]], t);
    }
  }

  /** The cap drops only when more than 64 entries are left, leaves 64, and drops none queued after a kept one. */
  lemma CapDropsOldest(entries: seq<Entry>, at: u64)
    ensures |Pruned(entries, at)| == Min(MAX_ENTRIES, |Retained(entries, at)|)
    ensures forall e :: e in Pruned(entries, at) ==> e in Retained(entries, at)
    ensures forall e, k :: e in Retained(entries, at) && e !in Pruned(entries, at) && k in Pruned(entries, at) ==>
              e.queuedAt <= k.queuedAt
    ensures |Retained(entries, at)| <= MAX_ENTRIES ==>
              forall e :: e in Pruned(entries, at) <==> e in Retained(entries, at)
  {
    var sorted := SortByTime(Retained(entries, at));
    SortSorts(Retained(entries, at));
    CappedOf(sorted);
    assert forall e :: e in sorted <==> e in Retained(entries, at);
  }

  lemma CappedOf(sorted: seq<Entry>)
    requires Ordered(sorted)
    ensures forall e, k :: e in sorted && e !in Capped(sorted) && k in Capped(sorted) ==> e.queuedAt <= k.queuedAt
  {
    if |sorted| > MAX_ENTRIES {
      var cut := |sorted| - MAX_ENTRIES;
      assert sorted == sorted[..cut] + sorted[cut..];
      forall e, k | e in sorted[..cut] && k in sorted[cut..]
        ensures e.queuedAt <= k.queuedAt
      {
        CutInOrder(sorted, cut, e, k);
      }
    }
  }

  lemma CutInOrder(sorted: seq<Entry>, cut: nat, e: Entry, k: Entry)
    requires Ordered(sorted) && cut <= |sorted| && e in sorted[..cut] && k in sorted[cut..]
    ensures e.queuedAt <= k.queuedAt
  {
    var i :| 0 <= i < cut && sorted[i] == e;
    var j :| 0 <= j < |sorted| - cut && sorted[cut..][j] == k;
    assert sorted[cut + j] == k;
  }

  /** A short list loses exactly the relays out of attempts and the entries past their age. */
  lemma ShortPrune(entries: seq<Entry>, at: u64, e: Entry)
    requires |entries| <= MAX_ENTRIES
    ensures e in Pruned(entries, at) <==>
            Keep(e, at) && exists f :: f in entries && e == f.(missing := LiveMisses(f.missing))
  {
    CapDropsOldest(entries, at);
    RetainedExactly(entries, at, e);
  }

  // ---- What queueing adds ----

  /** An entry for `event`, queued then, is missing that relay with that many failures. */
  predicate Missing(entries: seq<Entry>, event: Event, queuedAt: u64, m: Miss) {
    exists e :: e in entries && e.event == event && e.queuedAt == queuedAt && m in e.missing
  }

  lemma MissingAfterPrune(entries: seq<Entry>, at: u64, event: Event, queuedAt: u64, m: Miss)
    requires |entries| <= MAX_ENTRIES
    ensures Missing(Pruned(entries, at), event, queuedAt, m) <==>
            && Missing(entries, event, queuedAt, m)
            && m.attempts < MAX_ATTEMPTS && SatSub(at, queuedAt) <= MAX_AGE_SECS
  {
    if Missing(Pruned(entries, at), event, queuedAt, m) {
      var e :| e in Pruned(entries, at) && e.event == event && e.queuedAt == queuedAt && m in e.missing;
      ShortPrune(entries, at, e);
    }
    if Missing(entries, event, queuedAt, m) && m.attempts < MAX_ATTEMPTS && SatSub(at, queuedAt) <= MAX_AGE_SECS {
      var f :| f in entries && f.event == event && f.queuedAt == queuedAt && m in f.missing;
      var e := f.(missing := LiveMisses(f.missing));
      assert m in e.missing;
      ShortPrune(entries, at, e);
    }
  }

  /**
   * Queueing with room, and with no newer version queued: exactly the new event is missing at exactly the relays
   * named, with no failures, and of the rest what is of other coordinates, within its age and not out of attempts.
   */
  lemma QueueAddsExactly(entries: seq<Entry>, event: Event, relays: seq<Relay>, at: u64, x: Event, queuedAt: u64,
      m: Miss)
    requires !ReturnsEarly(entries, event) && |NotSuperseded(entries, event)| < MAX_ENTRIES
    ensures Missing(Queued(entries, event, relays, at), x, queuedAt, m) <==>
            || (x == event && queuedAt == at && m.attempts == 0 && m.relay in relays)
            || (RelayKey(x) != RelayKey(event) && Missing(entries, x, queuedAt, m)
                && m.attempts < MAX_ATTEMPTS && SatSub(at, queuedAt) <= MAX_AGE_SECS)
  {
    var kept, added := NotSuperseded(entries, event), Entry(event, FreshMisses(relays), at);
    MissingAfterPrune(kept + [added], at, x, queuedAt, m);
    MissingOneMore(kept, added, x, queuedAt, m);
    FreshMember(relays, m);
    MissingKept(entries, event, x, queuedAt, m);
  }

  lemma FreshMember(relays: seq<Relay>, m: Miss)
    ensures m in FreshMisses(relays) <==> m.attempts == 0 && m.relay in relays
  {
    if m.attempts == 0 && m.relay in relays {
      var i :| 0 <= i < |relays| && relays[i] == m.relay;
      assert FreshMisses(relays)[i] == m;
    }
  }

  lemma MissingOneMore(entries: seq<Entry>, added: Entry, x: Event, queuedAt: u64, m: Miss)
    ensures Missing(entries + [added], x, queuedAt, m) <==>
            || Missing(entries, x, queuedAt, m)
            || (added.event == x && added.queuedAt == queuedAt && m in added.missing)
  {
    assert added in entries + [added];
    assert forall e :: e in entries ==> e in entries + [added];
  }

  lemma MissingKept(entries: seq<Entry>, event: Event, x: Event, queuedAt: u64, m: Miss)
    requires !ReturnsEarly(entries, event)
    ensures Missing(NotSuperseded(entries, event), x, queuedAt, m) <==>
            RelayKey(x) != RelayKey(event) && Missing(entries, x, queuedAt, m)
  {
    if RelayKey(x) != RelayKey(event) && Missing(entries, x, queuedAt, m) {
      var e :| e in entries && e.event == x && e.queuedAt == queuedAt && m in e.missing;
      assert e in NotSuperseded(entries, event);
    }
  }

  // ---- What a sweep books ----

  /** Relay `m.relay` is missing, with that many failures, after a sweep over `before`. */
  predicate Booked(m: Miss, before: seq<Miss>, id: string, w: Sweep) {
    if m.relay !in w.answered then m in before
    else (id, m.relay) !in w.delivers && m.attempts > 0 && Miss(m.relay, m.attempts - 1) in before
  }

  lemma {:induction false} MissesAreBooked(missing: seq<Miss>, id: string, w: Sweep, m: Miss)
    ensures m in ResendMisses(missing, id, w) <==> Booked(m, missing, id, w)
  {
    if missing != [] {
      assert missing == [missing[0]] + missing[1..];
      MissesAreBooked(missing[1..], id, w, m);
    }
  }

  lemma MissingAfterSends(entries: seq<Entry>, w: Sweep, event: Event, queuedAt: u64, m: Miss)
    ensures Missing(ResendAll(entries, w), event, queuedAt, m) <==>
            exists p :: p in entries && p.event == event && p.queuedAt == queuedAt && Booked(m, p.missing, event.id, w)
  {
    var all := ResendAll(entries, w);
    if Missing(all, event, queuedAt, m) {
      var e :| e in all && e.event == event && e.queuedAt == queuedAt && m in e.missing;
      var i :| 0 <= i < |all| && all[i] == e;
      MissesAreBooked(entries[i].missing, event.id, w, m);
    }
    if p :| p in entries && p.event == event && p.queuedAt == queuedAt && Booked(m, p.missing, event.id, w) {
      var i :| 0 <= i < |entries| && entries[i] == p;
      MissesAreBooked(p.missing, event.id, w, m);
      assert all[i] in all;
    }
  }

  /**
   * After a sweep a relay is missing from a kept entry if and only if it has failures left and, missing after the first
   * prune, it did not answer and its count is unchanged, or it answered without taking the event and its count is one
   * higher.
   */
  lemma SweepBooksExactly(entries: seq<Entry>, w: Sweep, event: Event, queuedAt: u64, m: Miss)
    ensures Missing(Resent(entries, w), event, queuedAt, m) <==>
            && m.attempts < MAX_ATTEMPTS
            && (if m.relay !in w.answered then Missing(Pruned(entries, w.at), event, queuedAt, m)
                else (event.id, m.relay) !in w.delivers && m.attempts > 0
                     && Missing(Pruned(entries, w.at), event, queuedAt, Miss(m.relay, m.attempts - 1)))
  {
    var pruned := Pruned(entries, w.at);
    PrunedMembers(entries, w.at);
    MissingAfterPrune(ResendAll(pruned, w), w.at, event, queuedAt, m);
    MissingAfterSends(pruned, w, event, queuedAt, m);
  }

  // ---- What the sweeps after it send ----

  lemma SendComesFrom(entries: seq<Entry>, w: Sweep, x: SendRecord)
    requires x in Sends(entries, w)
    ensures x.relay in w.answered
    ensures exists p :: p in Pruned(entries, w.at) && p.event == x.event && Miss(x.relay, x.attempts) in p.missing
                        && x.age == SatSub(w.at, p.queuedAt)
  {
    var p :| p in Pruned(entries, w.at) && x in MissSends(p, p.missing, w);
  }

  lemma MissingIsSent(entries: seq<Entry>, w: Sweep, event: Event, queuedAt: u64, m: Miss)
    requires Missing(Pruned(entries, w.at), event, queuedAt, m) && m.relay in w.answered
    ensures SendRecord(event, m.relay, m.attempts, SatSub(w.at, queuedAt)) in Sends(entries, w)
  {
    var p :| p in Pruned(entries, w.at) && p.event == event && p.queuedAt == queuedAt && m in p.missing;
    MissIsSent(p, p.missing, w, m);
    EntryIsSent(Pruned(entries, w.at), w, p, SendRecord(event, m.relay, m.attempts, SatSub(w.at, queuedAt)));
  }

  /**
   * A relay that refused an event keeps its place: with failures left, and the entry within its age, the next sweep it
   * answers sends it again, one failure later.
   */
  lemma RefusedIsSentAgain(entries: seq<Entry>, w: Sweep, v: Sweep, event: Event, queuedAt: u64, m: Miss)
    requires Missing(Pruned(entries, w.at), event, queuedAt, m)
    requires m.relay in w.answered && (event.id, m.relay) !in w.delivers && m.attempts + 1 < MAX_ATTEMPTS
    requires m.relay in v.answered && SatSub(v.at, queuedAt) <= MAX_AGE_SECS
    ensures SendRecord(event, m.relay, m.attempts + 1, SatSub(v.at, queuedAt)) in Sends(Resent(entries, w), v)
  {
    var after, again := Resent(entries, w), Miss(m.relay, m.attempts + 1);
    SweepBooksExactly(entries, w, event, queuedAt, again);
    PrunedMembers(ResendAll(Pruned(entries, w.at), w), w.at);
    MissingAfterPrune(after, v.at, event, queuedAt, again);
    MissingIsSent(after, v, event, queuedAt, again);
  }

  /** No entry for `event` is missing the relay. */
  predicate Settled(entries: seq<Entry>, event: Event, relay: Relay) {
    forall e, m :: e in entries && e.event == event && m in e.missing ==> m.relay != relay
  }

  lemma PruneKeepsSettled(entries: seq<Entry>, at: u64, event: Event, relay: Relay)
    requires Settled(entries, event, relay)
    ensures Settled(Pruned(entries, at), event, relay)
  {
    CapDropsOldest(entries, at);
    forall e, m | e in Pruned(entries, at) && e.event == event && m in e.missing
      ensures m.relay != relay
    {
      RetainedExactly(entries, at, e);
      var f :| f in entries && e == f.(missing := LiveMisses(f.missing));
    }
  }

  /** After a sweep nothing is missing a relay that took the event in it, or that was missing nowhere before it. */
  lemma SweepSettles(entries: seq<Entry>, w: Sweep, event: Event, relay: Relay)
    requires (relay in w.answered && (event.id, relay) in w.delivers) || Settled(entries, event, relay)
    ensures Settled(Resent(entries, w), event, relay)
  {
    if Settled(entries, event, relay) {
      PruneKeepsSettled(entries, w.at, event, relay);
    }
    forall e, m | e in Resent(entries, w) && e.event == event && m in e.missing
      ensures m.relay != relay
    {
      SweepBooksExactly(entries, w, event, e.queuedAt, m);
    }
  }

  lemma QueueKeepsSettled(entries: seq<Entry>, queued: Event, relays: seq<Relay>, at: u64, event: Event, relay: Relay)
    requires Settled(entries, event, relay) && queued != event
    ensures Settled(Queued(entries, queued, relays, at), event, relay)
  {
    var kept := NotSuperseded(entries, queued);
    PruneKeepsSettled(kept + [Entry(queued, FreshMisses(relays), at)], at, event, relay);
  }

  predicate SentTo(item: LogItem, event: Event, relay: Relay) {
    item.Sent? && item.record.event == event && item.record.relay == relay
  }

  /** From position `n` on, the log has no send of `event` to the relay. */
  predicate NotSentFrom(log: seq<LogItem>, n: nat, event: Event, relay: Relay) {
    n <= |log| && forall j :: n <= j < |log| ==> !SentTo(log[j], event, relay)
  }

  lemma SettledEntries(s: State, a: Action, event: Event, relay: Relay)
    requires Settled(s.entries, event, relay) && (a.QueueEvent? ==> a.event != event)
    ensures Settled(Step(s, a).entries, event, relay)
  {
    match a
    case QueueEvent(queued, relays, at, _) => QueueKeepsSettled(s.entries, queued, relays, at, event, relay);
    case ResendQueued(w, _) => SweepSettles(s.entries, w, event, relay);
  }

  lemma SettledIsNotSent(entries: seq<Entry>, w: Sweep, event: Event, relay: Relay)
    requires Settled(entries, event, relay)
    ensures NotSentFrom(SentItems(Sends(entries, w)), 0, event, relay)
  {
    PruneKeepsSettled(entries, w.at, event, relay);
    var sends := Sends(entries, w);
    forall j | 0 <= j < |sends|
      ensures !SentTo(Sent(sends[j]), event, relay)
    {
      SendComesFrom(entries, w, sends[j]);
    }
  }

  lemma NotSentConcat(log: seq<LogItem>, more: seq<LogItem>, n: nat, event: Event, relay: Relay)
    requires NotSentFrom(log, n, event, relay) && NotSentFrom(more, 0, event, relay)
    ensures NotSentFrom(log + more, n, event, relay)
  {
  }

  lemma SettledStep(s: State, a: Action, event: Event, relay: Relay, n: nat)
    requires Settled(s.entries, event, relay) && (a.QueueEvent? ==> a.event != event)
    requires NotSentFrom(s.log, n, event, relay)
    ensures Settled(Step(s, a).entries, event, relay) && NotSentFrom(Step(s, a).log, n, event, relay)
  {
    SettledEntries(s, a, event, relay);
    match a
    case QueueEvent(queued, _, _, saved) => NotSentConcat(s.log, [Met(queued, saved)], n, event, relay);
    case ResendQueued(w, _) =>
      SettledIsNotSent(s.entries, w, event, relay);
      NotSentConcat(s.log, SentItems(Sends(s.entries, w)), n, event, relay);
  }

  /** No step queues the event. */
  predicate NeverQueued(actions: seq<Action>, event: Event) {
    forall i :: 0 <= i < |actions| && actions[i].QueueEvent? ==> actions[i].event != event
  }

  lemma RunOneMore(actions: seq<Action>, a: Action)
    ensures Run(actions + [a]) == Step(Run(actions), a)
  {
    assert (actions + [a])[..|actions|] == actions;
  }

  lemma RunLast(past: seq<Action>, later: seq<Action>)
    requires later != []
    ensures Run(past + later) == Step(Run(past + later[..|later| - 1]), later[|later| - 1])
  {
    ConcatLast(past, later);
    RunOneMore(past + later[..|later| - 1], later[|later| - 1]);
  }

  lemma {:induction false} SettledRun(past: seq<Action>, later: seq<Action>, event: Event, relay: Relay)
    requires Settled(Run(past).entries, event, relay) && NeverQueued(later, event)
    ensures Settled(Run(past + later).entries, event, relay)
    ensures NotSentFrom(Run(past + later).log, |Run(past).log|, event, relay)
    decreases |later|
  {
    if later == [] {
      assert past + later == past;
    } else {
      var n := |later| - 1;
      SettledRun(past, later[..n], event, relay);
      RunLast(past, later);
      SettledStep(Run(past + later[..n]), later[n], event, relay, |Run(past).log|);
    }
  }

  /** In every run: once a relay took an event in a saved sweep, no step sends it there until it is queued again. */
  lemma DeliveredIsNotSentAgain(past: seq<Action>, w: Sweep, later: seq<Action>, event: Event, relay: Relay)
    requires relay in w.answered && (event.id, relay) in w.delivers && NeverQueued(later, event)
    ensures var swept := past + [ResendQueued(w, true)];
            NotSentFrom(Run(swept + later).log, |Run(swept).log|, event, relay)
  {
    RunOneMore(past, ResendQueued(w, true));
    SweepSettles(Run(past).entries, w, event, relay);
    SettledRun(past + [ResendQueued(w, true)], later, event, relay);
  }
}
