/** A relay that missed an acknowledged publish is repaired by the next sweep that reaches it. */
module Repair {
  import opened Basics
  import opened Latest
  import opened Runs
  import opened Publishing
  import Quorum
  import Outbox
  import Sweeps

  lemma {:induction false} SentIsHeld(
    stores: seq<Quorum.Store>, sends: seq<Outbox.SendRecord>, reached: set<(string, nat)>, r: nat, e: Event)
    requires AllFiled(stores) && r < |stores|
    requires Quorum.Holds(stores[r], e)
             || ((e.id, r) in reached && exists x :: x in sends && x.event == e && x.relay == r)
    ensures Quorum.Holds(DeliverAll(stores, sends, reached)[r], e)
    decreases |sends|
  {
    if sends != [] {
      var x := sends[0];
      assert sends == [x] + sends[1..];
      if (x.event.id, x.relay) in reached && x.relay < |stores| {
        Quorum.OfferHolds(stores[x.relay], x.event);
        if x.relay == r && Quorum.Holds(stores[r], e) {
          Quorum.OfferKeeps(stores[r], x.event, e);
        }
        SentIsHeld(stores[x.relay := Quorum.Offer(stores[x.relay], x.event)], sends[1..], reached, r, e);
      } else {
        SentIsHeld(stores, sends[1..], reached, r, e);
      }
    }
  }

  lemma AllSuperseded(entries: seq<Outbox.Entry>, e: Event, k: Key)
    requires RelayKey(e) == k && forall x :: x in entries ==> RelayKey(x.event) == k && x.event.createdAt <= e.createdAt
    ensures Outbox.NotSuperseded(entries, e) == []
  {
  }

  /** A publish leaves nothing else of its run in the outbox: no queued version is newer than the one it signs. */
  lemma NothingOutlives(c: Quorum.Config, k: Key, w: World, q: Request)
    requires c.Strict() && Good(c, k, w) && RunKey(q.run) == k && Decide(c, w, q).Signed?
    ensures Outbox.NotSuperseded(w.outbox, Decide(c, w, q).event) == []
  {
    var e := Decide(c, w, q).event;
    RunEventIsVersion(q.run, e.id, e.createdAt);
    forall x | x in w.outbox
      ensures RelayKey(x.event) == k && x.event.createdAt <= e.createdAt
    {
      SignedNotOlder(c, k, w, q, x.event);
    }
    AllSuperseded(w.outbox, e, k);
  }

  /** After a saved publish that met quorum, a relay is queued for if and only if it did not accept. */
  lemma QueuedForExactly(c: Quorum.Config, k: Key, w: World, q: Request, r: nat)
    requires c.Strict() && Good(c, k, w) && MetQuorum(c, k, w, q)
    ensures var t, e := Next(c, k, w, Publish(q, true)), Decide(c, w, q).event;
            Sweeps.Missing(t.outbox, e, q.now, Outbox.Miss(r, 0)) <==> r < c.n && !q.verdicts[r].Accepted?
  {
    QueueIsNeverEarly(c, k, w, q);
    NothingOutlives(c, k, w, q);
    Sweeps.QueueAddsExactly(w.outbox, Decide(c, w, q).event, FailedAt(q.verdicts, c.n), q.now,
        Decide(c, w, q).event, q.now, Outbox.Miss(r, 0));
  }

  lemma QueuedIsSent(entries: seq<Outbox.Entry>, v: Outbox.Sweep, e: Event, at: u64, r: nat)
    requires |entries| <= Outbox.MAX_ENTRIES && Sweeps.Missing(entries, e, at, Outbox.Miss(r, 0))
    requires r in v.answered && SatSub(v.at, at) <= Outbox.MAX_AGE_SECS
    ensures exists x :: x in Outbox.Sends(entries, v) && x.event == e && x.relay == r
  {
    Sweeps.MissingAfterPrune(entries, v.at, e, at, Outbox.Miss(r, 0));
    Sweeps.MissingIsSent(entries, v, e, at, Outbox.Miss(r, 0));
  }

  lemma QueueIsShort(c: Quorum.Config, k: Key, w: World, q: Request)
    requires c.Strict() && Good(c, k, w) && MetQuorum(c, k, w, q)
    ensures |Next(c, k, w, Publish(q, true)).outbox| <= Outbox.MAX_ENTRIES
  {
    var e := Decide(c, w, q).event;
    QueueIsNeverEarly(c, k, w, q);
    var added := Outbox.Entry(e, Outbox.FreshMisses(FailedAt(q.verdicts, c.n)), q.now);
    Outbox.PrunedMembers(Outbox.NotSuperseded(w.outbox, e) + [added], q.now);
  }

  /**
   * In every run: after a saved publish that met quorum, and a sweep within the entry's age that the relay answers and
   * that reaches it, a relay that had not accepted the event holds it or a version it does not beat.
   */
  lemma MissedIsRepaired(c: Quorum.Config, k: Key, past: seq<Action>, q: Request, v: Outbox.Sweep,
      reached: set<(string, nat)>, saved: bool, r: nat)
    requires c.Strict() && MetQuorum(c, k, Run(c, k, past), q) && r < c.n && !q.verdicts[r].Accepted?
    requires r in v.answered && SatSub(v.at, q.now) <= Outbox.MAX_AGE_SECS
    requires (Decide(c, Run(c, k, past), q).event.id, r) in reached
    ensures var t := Next(c, k, Run(c, k, past), Publish(q, true));
            Quorum.Holds(Next(c, k, t, Resend(v, reached, saved)).stores[r], Decide(c, Run(c, k, past), q).event)
  {
    var w := Run(c, k, past);
    RunsAreGood(c, k, past);
    StepKeepsGood(c, k, w, Publish(q, true));
    QueuedForExactly(c, k, w, q, r);
    QueueIsShort(c, k, w, q);
    SweepRepairs(c, k, Next(c, k, w, Publish(q, true)), Decide(c, w, q).event, q.now, v, reached, saved, r);
  }

  lemma ResendStores(c: Quorum.Config, k: Key, t: World, v: Outbox.Sweep, reached: set<(string, nat)>, saved: bool)
    requires |t.stores| == c.n
    ensures Next(c, k, t, Resend(v, reached, saved)).stores == DeliverAll(t.stores, Outbox.Sends(t.outbox, v), reached)
  {
  }

  lemma SweepRepairs(c: Quorum.Config, k: Key, t: World, e: Event, at: u64, v: Outbox.Sweep,
      reached: set<(string, nat)>, saved: bool, r: nat)
    requires Inv(c, k, t) && r < c.n && |t.outbox| <= Outbox.MAX_ENTRIES
    requires Sweeps.Missing(t.outbox, e, at, Outbox.Miss(r, 0))
    requires r in v.answered && SatSub(v.at, at) <= Outbox.MAX_AGE_SECS && (e.id, r) in reached
    ensures Quorum.Holds(Next(c, k, t, Resend(v, reached, saved)).stores[r], e)
  {
    QueuedIsSent(t.outbox, v, e, at, r);
    ResendStores(c, k, t, v, reached, saved);
    assert AllFiled(t.stores);
    SentIsHeld(t.stores, Outbox.Sends(t.outbox, v), reached, r, e);
  }
}
