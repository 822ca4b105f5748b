/** Exactly when an open `publish` takes a closed run over (crates/maxplayer-challenges/src/cli.rs). */
module Reopening {
  import opened Basics
  import opened Drafts
  import opened Latest
  import opened Roster
  import opened Runs
  import opened Publishing
  import Quorum
  import Outbox

  predicate OpenTop(stores: seq<Quorum.Store>, k: Key, top: Event) {
    Newest(Versions(stores, k), top) && OpenVersion(top, k)
  }

  /** What a publish signs when its read found nothing. */
  function FirstVersion(q: Request): (e: Event) { Event(q.eventId, q.run.buyer, q.now, ChallengeDraft(q.run)) }

  lemma EmptyReadDecides(c: Quorum.Config, w: World, q: Request)
    requires ValidChallenge(q.run) && q.complete <= Quorum.Relays(c.n) && |q.complete| >= c.q
    requires ReadRun(w, q.complete, RunKey(q.run), q.now) == []
    ensures Decide(c, w, q) == if q.ifLatest.None? then Signed(FirstVersion(q)) else Superseded
  {
    assert Previous(c, w, q) == Some([]);
    NothingSelected(q.run.buyer, q.run.id, q.now);
  }

  /** Known before the command: nothing is read, the clock puts the new version on top, and a relay takes it. */
  predicate Overwrites(c: Quorum.Config, k: Key, w: World, q: Request, top: Event) {
    && q.ifLatest.None? && |q.complete| >= c.q && ReadRun(w, q.complete, k, q.now) == []
    && Beats(FirstVersion(q), top) && exists i :: 0 <= i < |q.verdicts| && Reaches(q.verdicts[i])
  }

  predicate ReadsNothing(c: Quorum.Config, w: World, q: Request) {
    && q.ifLatest.None? && q.complete <= Quorum.Relays(c.n) && |q.complete| >= c.q
    && ReadRun(w, q.complete, RunKey(q.run), q.now) == []
  }

  /** A publish that read nothing sends its first version to every relay. */
  lemma FirstVersionIsSent(c: Quorum.Config, w: World, q: Request, saved: bool)
    requires |w.stores| == c.n == |q.verdicts| && ValidChallenge(q.run) && ReadsNothing(c, w, q)
    requires IdsIdentify(w.signed + {FirstVersion(q)})
    ensures Next(c, RunKey(q.run), w, Publish(q, saved)) == AfterSend(c, w, q, FirstVersion(q), saved)
  {
    EmptyReadDecides(c, w, q);
  }

  lemma OverwriteReopens(c: Quorum.Config, k: Key, w: World, q: Request, saved: bool, top: Event)
    requires Inv(c, k, w) && Newest(Versions(w.stores, k), top)
    requires ValidChallenge(q.run) && RunKey(q.run) == k && OpenStatus(q.run.status)
    requires |q.verdicts| == c.n && q.complete <= Quorum.Relays(c.n) && IdsIdentify(w.signed + {FirstVersion(q)})
    requires Overwrites(c, k, w, q, top)
    ensures OpenTop(Next(c, k, w, Publish(q, saved)).stores, k, FirstVersion(q))
  {
    var e := FirstVersion(q);
    FirstVersionIsSent(c, w, q, saved);
    RunEventIsVersion(q.run, e.id, e.createdAt);
    SendOnTop(k, w.stores, q.verdicts, e, top);
  }

  lemma SendOnTop(k: Key, stores: seq<Quorum.Store>, verdicts: seq<Quorum.Verdict>, e: Event, top: Event)
    requires |stores| == |verdicts| && AllFiled(stores) && Newest(Versions(stores, k), top) && RelayKey(e) == k
    requires Beats(e, top) && exists i :: 0 <= i < |verdicts| && Reaches(verdicts[i])
    ensures Newest(Versions(SendAll(stores, verdicts, e), k), e)
  {
    var b := SendAll(stores, verdicts, e);
    var i :| 0 <= i < |verdicts| && Reaches(verdicts[i]);
    if k in stores[i] {
      assert stores[i][k] in Versions(stores, k);
      BelowTop(stores, k, top, e, stores[i][k]);
    }
    assert k in b[i] && b[i][k] == e;
    SendAllOffers(stores, verdicts, e);
    TopMoves(stores, b, e, k, top);
    assert e in Versions(b, k);
  }

  lemma ReopenedWasSigned(c: Quorum.Config, k: Key, w: World, q: Request, saved: bool, top: Event, t: Event)
    requires c.Strict() && Good(c, k, w) && ClosedTop(w.stores, k, top)
    requires ValidChallenge(q.run) && RunKey(q.run) == k && OpenStatus(q.run.status)
    requires |q.verdicts| == c.n && q.complete <= Quorum.Relays(c.n)
    requires OpenTop(Next(c, k, w, Publish(q, saved)).stores, k, t)
    ensures Decide(c, w, q).Signed? && q.ifLatest.None? && |q.complete| >= c.q && ReadRun(w, q.complete, k, q.now) == []
    ensures Next(c, k, w, Publish(q, saved)).stores == SendAll(w.stores, q.verdicts, FirstVersion(q)) != w.stores
  {
    StoresChangeBySigning(c, k, w, q, saved);
    NotBoth(c, k, w, top, t);
    ReopenNeedsEmptyRead(c, k, w, q, top);
    EmptyReadDecides(c, w, q);
  }

  lemma NotBoth(c: Quorum.Config, k: Key, w: World, top: Event, t: Event)
    requires Inv(c, k, w) && ClosedTop(w.stores, k, top)
    ensures !OpenTop(w.stores, k, t)
  {
    BeatsOrder(t, top);
  }

  lemma ReopenedWasOverwritten(c: Quorum.Config, k: Key, w: World, q: Request, saved: bool, top: Event, t: Event)
    requires c.Strict() && Good(c, k, w) && ClosedTop(w.stores, k, top)
    requires ValidChallenge(q.run) && RunKey(q.run) == k && OpenStatus(q.run.status)
    requires |q.verdicts| == c.n && q.complete <= Quorum.Relays(c.n)
    requires OpenTop(Next(c, k, w, Publish(q, saved)).stores, k, t)
    ensures Overwrites(c, k, w, q, top)
  {
    var next, e := Next(c, k, w, Publish(q, saved)), FirstVersion(q);
    ReopenedWasSigned(c, k, w, q, saved, top, t);
    SomeVerdictReaches(w.stores, q.verdicts, e);
    SendAllOffers(w.stores, q.verdicts, e);
    TopMoves(w.stores, next.stores, e, k, top);
    PublishKeepsGood(c, k, w, q, saved);
    if Newest(Versions(next.stores, k), top) {
      OneTop(c, k, next, top, t);
    }
  }

  lemma SomeVerdictReaches(stores: seq<Quorum.Store>, verdicts: seq<Quorum.Verdict>, e: Event)
    requires |stores| == |verdicts| && SendAll(stores, verdicts, e) != stores
    ensures exists i :: 0 <= i < |verdicts| && Reaches(verdicts[i])
  {
    var b := SendAll(stores, verdicts, e);
    var i :| 0 <= i < |stores| && b[i] != stores[i];
  }

  /** There is one newest version, so it is not both open and closed. */
  lemma OneTop(c: Quorum.Config, k: Key, w: World, top: Event, t: Event)
    requires Inv(c, k, w) && Newest(Versions(w.stores, k), top) && Newest(Versions(w.stores, k), t)
    ensures t == top
  {
    BeatsOrder(t, top);
  }

  /** An open update takes a closed run over if and only if `Overwrites`. */
  lemma PublishReopensExactly(c: Quorum.Config, k: Key, w: World, q: Request, saved: bool, top: Event)
    requires c.Strict() && Good(c, k, w) && ClosedTop(w.stores, k, top)
    requires ValidChallenge(q.run) && RunKey(q.run) == k && OpenStatus(q.run.status)
    requires |q.verdicts| == c.n && q.complete <= Quorum.Relays(c.n) && IdsIdentify(w.signed + {FirstVersion(q)})
    ensures (exists t :: OpenTop(Next(c, k, w, Publish(q, saved)).stores, k, t)) <==> Overwrites(c, k, w, q, top)
  {
    if t :| OpenTop(Next(c, k, w, Publish(q, saved)).stores, k, t) {
      ReopenedWasOverwritten(c, k, w, q, saved, top, t);
    }
    if Overwrites(c, k, w, q, top) {
      OverwriteReopens(c, k, w, q, saved, top);
    }
  }

  /** A publish of `run` at `now`, with any option, any completed relays and any verdicts. */
  predicate AsksFor(c: Quorum.Config, q: Request, run: Challenge, now: u64, id: string) {
    && q.run == run && q.now == now && q.eventId == id && q.complete <= Quorum.Relays(c.n)
    && |q.verdicts| == c.n
  }

  /** Some publish of `run` at `now` makes an open version the newest. */
  ghost predicate CanReopen(c: Quorum.Config, k: Key, w: World, run: Challenge, now: u64, id: string)
    requires |w.stores| == c.n
  {
    exists q, saved, t :: AsksFor(c, q, run, now, id) && OpenTop(Next(c, k, w, Publish(q, saved)).stores, k, t)
  }

  lemma EmptyQuorumReopens(c: Quorum.Config, k: Key, w: World, run: Challenge, now: u64, id: string, top: Event)
    requires c.Strict() && Inv(c, k, w) && Newest(Versions(w.stores, k), top)
    requires ValidChallenge(run) && RunKey(run) == k && OpenStatus(run.status)
    requires IdsIdentify(w.signed + {Event(id, run.buyer, now, ChallengeDraft(run))})
    requires EmptyQuorum(c, k, w, now) && Beats(Event(id, run.buyer, now, ChallengeDraft(run)), top)
    ensures CanReopen(c, k, w, run, now, id)
  {
    var complete: set<nat> :| complete <= Quorum.Relays(c.n) && |complete| >= c.q && ReadRun(w, complete, k, now) == [];
    var q := Request(run, None, now, id, complete, false, AllAccept(c.n));
    assert Overwrites(c, k, w, q, top);
    OverwriteReopens(c, k, w, q, true, top);
    assert AsksFor(c, q, run, now, id);
  }

  function AllAccept(n: nat): (verdicts: seq<Quorum.Verdict>)
    ensures |verdicts| == n && (n > 0 ==> Reaches(verdicts[0]))
  {
    seq(n, _ => Quorum.Accepted)
  }

  /**
   * A close can be taken over by an open update, whichever relays answer and store it, if and only if some quorum
   * holds no version of the run, none is queued, and the update's clock puts it above the close.
   */
  lemma ReopenExactly(c: Quorum.Config, k: Key, w: World, run: Challenge, now: u64, id: string, top: Event)
    requires c.Strict() && Good(c, k, w) && ClosedTop(w.stores, k, top)
    requires ValidChallenge(run) && RunKey(run) == k && OpenStatus(run.status)
    requires IdsIdentify(w.signed + {Event(id, run.buyer, now, ChallengeDraft(run))})
    ensures CanReopen(c, k, w, run, now, id)
            <==> EmptyQuorum(c, k, w, now) && Beats(Event(id, run.buyer, now, ChallengeDraft(run)), top)
  {
    if CanReopen(c, k, w, run, now, id) {
      var q, saved, t :| AsksFor(c, q, run, now, id) && OpenTop(Next(c, k, w, Publish(q, saved)).stores, k, t);
      ReopenedWasOverwritten(c, k, w, q, saved, top, t);
    }
    if EmptyQuorum(c, k, w, now) && Beats(Event(id, run.buyer, now, ChallengeDraft(run)), top) {
      EmptyQuorumReopens(c, k, w, run, now, id, top);
    }
  }

  // ---- A close that is lost ----

  /** Only relay 0 takes the close, so it is never acknowledged. */
  function LoneClose(run: Challenge, now: u64, id: string): (q: Request) {
    Request(run, None, now, id, {0, 1, 2}, true, [Quorum.Accepted, Quorum.Refused, Quorum.Refused])
  }

  /** The next update hears from relays 1 and 2 only. */
  function NextUpdate(run: Challenge, now: u64, id: string): (q: Request) {
    Request(run, None, now, id, {1, 2}, false, [Quorum.Accepted, Quorum.Accepted, Quorum.Accepted])
  }

  lemma LoneCloseIsHeld(run: Challenge, now: u64, id: string, saved: bool)
    requires ValidChallenge(run) && ClosedStatus(run.status)
    ensures var q := LoneClose(run, now, id);
            var e := FirstVersion(q);
            Run(Quorum.THREE, RunKey(run), [Publish(q, saved)]) == World([map[RunKey(run) := e], map[], map[]], [],
                {e}, {})
  {
    var q, k := LoneClose(run, now, id), RunKey(run);
    var w := Run(Quorum.THREE, k, []);
    assert [Publish(q, saved)][..0] == [];
    assert w == World([map[], map[], map[]], [], {}, {});
    NothingHeld(w, q.complete, k, now);
    AllOfThree();
    RunEventIsVersion(run, id, now);
    FirstVersionIsSent(Quorum.THREE, w, q, saved);
    AfterLoneClose(w, q, k, FirstVersion(q), saved);
  }

  lemma AllOfThree()
    ensures Quorum.Relays(3) == {0, 1, 2} && |{0, 1, 2}| == 3 && {1, 2} <= Quorum.Relays(3) && |{1, 2}| == 2
  {
  }

  lemma AfterLoneClose(w: World, q: Request, k: Key, e: Event, saved: bool)
    requires w == World([map[], map[], map[]], [], {}, {}) && RelayKey(e) == k
    requires q.verdicts == [Quorum.Accepted, Quorum.Refused, Quorum.Refused]
    ensures AfterSend(Quorum.THREE, w, q, e, saved) == World([map[k := e], map[], map[]], [], {e}, {})
  {
    assert SendAll(w.stores, q.verdicts, e) == [map[k := e], map[], map[]];
    assert AcceptedBy(q.verdicts) == {0};
  }

  lemma NothingHeld(w: World, complete: set<nat>, k: Key, now: u64)
    requires w.outbox == [] && forall i :: 0 <= i < |w.stores| && i in complete ==> k !in w.stores[i]
    ensures ReadRun(w, complete, k, now) == []
  {
    NoAnswers(w.stores, complete, k, |w.stores|);
    assert Outbox.Pruned([], now) == [];
  }

  lemma {:induction false} NoAnswers(stores: seq<Quorum.Store>, complete: set<nat>, k: Key, n: nat)
    requires n <= |stores| && forall i :: 0 <= i < n && i in complete ==> k !in stores[i]
    ensures Answers(stores, complete, k, n) == []
  {
    if n > 0 {
      NoAnswers(stores, complete, k, n - 1);
    }
  }

  /** The run of two commands in which a close that no quorum took is overwritten by an open update. */
  lemma LoneCloseIsLost(closed: Challenge, open: Challenge, t0: u64, t1: u64, id0: string, id1: string)
    requires ValidChallenge(closed) && ClosedStatus(closed.status) && ValidChallenge(open) && OpenStatus(open.status)
    requires RunKey(closed) == RunKey(open) && t0 < t1 && id0 != id1
    ensures var k, a := RunKey(open), Publish(LoneClose(closed, t0, id0), true);
            var b := Publish(NextUpdate(open, t1, id1), true);
            && ClosedTop(Run(Quorum.THREE, k, [a]).stores, k, FirstVersion(a.request))
            && OpenTop(Next(Quorum.THREE, k, Run(Quorum.THREE, k, [a]), b).stores, k, FirstVersion(b.request))
  {
    var k, a, b := RunKey(open), Publish(LoneClose(closed, t0, id0), true), Publish(NextUpdate(open, t1, id1), true);
    var w, e := Run(Quorum.THREE, k, [a]), FirstVersion(a.request);
    LoneCloseOnTop(closed, t0, id0);
    UpdateOverwrites(w, k, open, t1, id1, e);
    OverwriteReopens(Quorum.THREE, k, w, b.request, true, e);
  }

  lemma LoneCloseOnTop(closed: Challenge, now: u64, id: string)
    requires ValidChallenge(closed) && ClosedStatus(closed.status)
    ensures var k, q := RunKey(closed), LoneClose(closed, now, id);
            var w, e := Run(Quorum.THREE, k, [Publish(q, true)]), FirstVersion(q);
            && w == World([map[k := e], map[], map[]], [], {e}, {}) && ClosedTop(w.stores, k, e)
                && Inv(Quorum.THREE, k, w)
  {
    var k, q := RunKey(closed), LoneClose(closed, now, id);
    LoneCloseIsHeld(closed, now, id, true);
    RunEventIsVersion(closed, id, now);
    LoneTop([map[k := FirstVersion(q)], map[], map[]], k, FirstVersion(q));
    RunsAreGood(Quorum.THREE, k, [Publish(q, true)]);
  }

  lemma UpdateOverwrites(w: World, k: Key, open: Challenge, now: u64, id: string, e: Event)
    requires w == World([map[k := e], map[], map[]], [], {e}, {}) && e.createdAt < now && e.id != id
    ensures Overwrites(Quorum.THREE, k, w, NextUpdate(open, now, id), e) && {1, 2} <= Quorum.Relays(3)
    ensures IdsIdentify(w.signed + {FirstVersion(NextUpdate(open, now, id))})
  {
    NothingHeld(w, {1, 2}, k, now);
    AllOfThree();
    assert Reaches(NextUpdate(open, now, id).verdicts[0]);
  }

  lemma LoneTop(stores: seq<Quorum.Store>, k: Key, e: Event)
    requires stores == [map[k := e], map[], map[]]
    ensures Newest(Versions(stores, k), e)
  {
    assert k in stores[0] && stores[0][k] == e;
    assert Versions(stores, k) == {e};
    BeatsOrder(e, e);
  }
}
