/**
 * Late copies of signed versions at a closed run (crates/maxplayer-challenges/src/relay.rs): when a closed run is
 * closed for
 * good, and a run of commands in which it is not.
 */
module LateArrivals {
  import opened Basics
  import opened Drafts
  import opened Latest
  import opened Roster
  import opened Runs
  import opened Publishing
  import Quorum
  import Outbox

  // ---- Closed for good, judged by the present state ----

  /** Some open version was signed that beats every version held. */
  predicate OpenAbove(k: Key, w: World) {
    exists e :: e in w.signed && OpenVersion(e, k) && BeatsAllHeld(w.stores, k, e)
  }

  /** Beating the newest version held is beating them all. */
  lemma BeatsTop(stores: seq<Quorum.Store>, k: Key, top: Event, e: Event)
    requires Newest(Versions(stores, k), top)
    ensures BeatsAllHeld(stores, k, e) <==> Beats(e, top)
  {
    if Beats(e, top) {
      forall x | x in Versions(stores, k)
        ensures Beats(e, x)
      {
        BelowTop(stores, k, top, e, x);
      }
    }
  }

  /** The newest version held after a step is the one before, or one that beats it. */
  ghost predicate TopGoesUp(k: Key, a: seq<Quorum.Store>, b: seq<Quorum.Store>, top: Event) {
    exists t :: Newest(Versions(b, k), t) && (t == top || Beats(t, top))
  }

  lemma OffersRaiseTop(k: Key, a: seq<Quorum.Store>, b: seq<Quorum.Store>, e: Event, top: Event)
    requires MayOffer(a, b, e) && Newest(Versions(a, k), top)
    ensures TopGoesUp(k, a, b, top)
  {
    TopMoves(a, b, e, k, top);
  }

  lemma PublishRaisesTop(c: Quorum.Config, k: Key, w: World, q: Request, saved: bool, top: Event)
    requires c.Strict() && Good(c, k, w) && Newest(Versions(w.stores, k), top)
    ensures TopGoesUp(k, w.stores, Next(c, k, w, Publish(q, saved)).stores, top)
  {
    StoresChangeBySigning(c, k, w, q, saved);
    var b := Next(c, k, w, Publish(q, saved)).stores;
    if b != w.stores {
      SendAllOffers(w.stores, q.verdicts, Decide(c, w, q).event);
      OffersRaiseTop(k, w.stores, b, Decide(c, w, q).event, top);
    }
  }

  lemma DeliverRaisesTop(c: Quorum.Config, k: Key, w: World, r: nat, e: Event, top: Event)
    requires |w.stores| == c.n && Newest(Versions(w.stores, k), top)
    ensures TopGoesUp(k, w.stores, Next(c, k, w, Deliver(r, e)).stores, top)
  {
    DeliverIs(c, k, w, r, e);
    OffersRaiseTop(k, w.stores, Next(c, k, w, Deliver(r, e)).stores, e, top);
  }

  lemma StepRaisesTop(c: Quorum.Config, k: Key, w: World, a: Action, top: Event)
    requires c.Strict() && Good(c, k, w) && Newest(Versions(w.stores, k), top)
    ensures TopGoesUp(k, w.stores, Next(c, k, w, a).stores, top)
  {
    match a
    case Publish(q, saved) => PublishRaisesTop(c, k, w, q, saved, top);
    case Resend(sweep, reached, saved) => ResendKeepsTop(c, k, w, sweep, reached, saved);
    case Deliver(r, e) => DeliverRaisesTop(c, k, w, r, e, top);
  }

  lemma OnlyPublishSigns(c: Quorum.Config, k: Key, w: World, a: Action)
    requires |w.stores| == c.n && !a.Publish?
    ensures Next(c, k, w, a).signed == w.signed
  {
  }

  /** While a run is closed, only closed versions are signed. */
  lemma ClosedSignsClosed(c: Quorum.Config, k: Key, w: World, a: Action, e: Event)
    requires c.Strict() && Good(c, k, w) && ClosedNow(k, w)
    requires e in Next(c, k, w, a).signed && OpenVersion(e, k)
    ensures e in w.signed
  {
    if !a.Publish? {
      OnlyPublishSigns(c, k, w, a);
    } else if e !in w.signed {
      SignedIsNew(c, k, w, a.request, a.saved, e);
      ClosedRefusesOpen(c, k, w, a.request, e);
    }
  }

  lemma ClosedRefusesOpen(c: Quorum.Config, k: Key, w: World, q: Request, e: Event)
    requires c.Strict() && Good(c, k, w) && ClosedNow(k, w) && Decide(c, w, q) == Signed(e) && RunKey(q.run) == k
    ensures !OpenVersion(e, k)
  {
    RunEventIsVersion(q.run, e.id, e.createdAt);
    var top :| ClosedTop(w.stores, k, top);
    if OpenStatus(q.run.status) {
      OpenUpdateRefused(c, k, w, q, top);
    }
  }

  lemma SignedIsNew(c: Quorum.Config, k: Key, w: World, q: Request, saved: bool, e: Event)
    requires |w.stores| == c.n && e in Next(c, k, w, Publish(q, saved)).signed && e !in w.signed
    ensures Decide(c, w, q) == Signed(e) && RunKey(q.run) == k
  {
  }

  lemma StepKeepsNoneAbove(c: Quorum.Config, k: Key, w: World, a: Action)
    requires c.Strict() && Good(c, k, w) && ClosedNow(k, w) && !OpenAbove(k, w)
    ensures !OpenAbove(k, Next(c, k, w, a)) && !ArrivesOpen(k, w, a)
  {
    var t := Next(c, k, w, a);
    var top :| ClosedTop(w.stores, k, top);
    StepRaisesTop(c, k, w, a, top);
    var up :| Newest(Versions(t.stores, k), up) && (up == top || Beats(up, top));
    forall e | e in t.signed && OpenVersion(e, k)
      ensures !BeatsAllHeld(t.stores, k, e)
    {
      ClosedSignsClosed(c, k, w, a, e);
      StillNotAbove(k, w.stores, t.stores, top, up, e);
    }
  }

  lemma StillNotAbove(k: Key, a: seq<Quorum.Store>, b: seq<Quorum.Store>, top: Event, up: Event, e: Event)
    requires Newest(Versions(a, k), top) && Newest(Versions(b, k), up) && (up == top || Beats(up, top))
    requires !BeatsAllHeld(a, k, e)
    ensures !BeatsAllHeld(b, k, e)
  {
    BeatsTop(a, k, top, e);
    BeatsTop(b, k, up, e);
    if Beats(e, up) && up != top {
      BeatsTransitive(e, up, top);
    }
  }

  lemma {:induction false} NoneAboveStaysClosed(c: Quorum.Config, k: Key, w: World, future: seq<Action>)
    requires c.Strict() && Good(c, k, w) && ClosedNow(k, w) && !OpenAbove(k, w)
    ensures StaysClosed(c, k, w, future)
    decreases |future|
  {
    if future != [] {
      StepKeepsNoneAbove(c, k, w, future[0]);
      StepKeepsGood(c, k, w, future[0]);
      StepKeepsClosedExactly(c, k, w, future[0]);
      NoneAboveStaysClosed(c, k, Next(c, k, w, future[0]), future[1..]);
    }
  }

  /**
   * After any run, a closed run with an acknowledged version is closed for good, whatever follows, if and only if no
   * open version was signed that beats every version held.
   */
  lemma ClosedForGoodExactly(c: Quorum.Config, k: Key, past: seq<Action>)
    requires c.Strict() && ClosedNow(k, Run(c, k, past))
    ensures (forall future :: StaysClosed(c, k, Run(c, k, past), future)) <==> !OpenAbove(k, Run(c, k, past))
  {
    RunsAreGood(c, k, past);
    ClosedForGood(c, k, Run(c, k, past));
  }

  lemma ClosedForGood(c: Quorum.Config, k: Key, w: World)
    requires c.Strict() && Good(c, k, w) && ClosedNow(k, w)
    ensures (forall future :: StaysClosed(c, k, w, future)) <==> !OpenAbove(k, w)
  {
    if OpenAbove(k, w) {
      SomeFutureReopens(c, k, w);
    } else {
      EveryFutureStaysClosed(c, k, w);
    }
  }

  lemma SomeFutureReopens(c: Quorum.Config, k: Key, w: World)
    requires c.Strict() && Good(c, k, w) && ClosedNow(k, w) && OpenAbove(k, w)
    ensures exists future :: !StaysClosed(c, k, w, future)
  {
    var e :| e in w.signed && OpenVersion(e, k) && BeatsAllHeld(w.stores, k, e);
    var future := LateCopyReopens(c, k, w, e);
  }

  lemma EveryFutureStaysClosed(c: Quorum.Config, k: Key, w: World)
    requires c.Strict() && Good(c, k, w) && ClosedNow(k, w) && !OpenAbove(k, w)
    ensures forall future :: StaysClosed(c, k, w, future)
  {
    forall future
      ensures StaysClosed(c, k, w, future)
    {
      NoneAboveStaysClosed(c, k, w, future);
    }
  }

  lemma LateCopyReopens(c: Quorum.Config, k: Key, w: World, e: Event) returns (future: seq<Action>)
    requires c.Strict() && Good(c, k, w) && ClosedNow(k, w)
    requires e in w.signed && OpenVersion(e, k) && BeatsAllHeld(w.stores, k, e)
    ensures !StaysClosed(c, k, w, future)
  {
    var a := Deliver(0, e);
    assert VersionOf(e, k) && ArrivesOpen(k, w, a);
    StepKeepsClosedExactly(c, k, w, a);
    future := [a];
    assert future[1..] == [];
  }
}
