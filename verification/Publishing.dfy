/**
 * The `publish` command (crates/maxplayer-challenges/src/cli.rs) run one command at a time against relay
 * stores, with degraded reads, below-quorum publishes, silent deliveries and outbox re-sends.
 */
module Publishing {
  import opened Basics
  import opened Drafts
  import opened Latest
  import opened Roster
  import opened Runs
  import Quorum
  import Outbox

  /** The relay stores, the saved outbox, every version signed and every version that met its quorum. */
  datatype World = World(
    stores: seq<Quorum.Store>, outbox: seq<Outbox.Entry>, signed: set<Event>, acked: set<Event>)

  /**
   * One `publish` of run `run`: the expected latest event, the clock, the new event's id, the relays that
   * complete the quorum read, whether an every-relay read completes, and each relay's send verdict.
   */
  datatype Request = Request(
    run: Challenge, ifLatest: Option<string>, now: u64, eventId: string,
    complete: set<nat>, strictCompletes: bool, verdicts: seq<Quorum.Verdict>)

  datatype Outcome =
    | Invalid
    | ReadIncomplete
    | Closed
    | Superseded
    | BadTimestamp
    | Signed(event: Event)

  function RunKey(run: Challenge): (k: Key) { Key(run.buyer, CHALLENGE_KIND, run.id) }

  // ---- Reads ----

  /** What the completed relays below `n` return for one coordinate. */
  function Answers(stores: seq<Quorum.Store>, complete: set<nat>, k: Key, n: nat): (r: seq<Event>)
    requires n <= |stores|
    ensures forall e :: e in r <==> exists i :: 0 <= i < n && i in complete && k in stores[i] && stores[i][k] == e
  {
    if n == 0 then []
    else
      var rest := Answers(stores, complete, k, n - 1);
      if n - 1 in complete && k in stores[n - 1] then rest + [stores[n - 1][k]] else rest
  }

  /** The queued events that a filter wants. */
  function QueuedEvents(entries: seq<Outbox.Entry>, wants: Event -> bool): (r: seq<Event>)
    ensures forall e :: e in r <==> wants(e) && exists x :: x in entries && x.event == e
  {
    if entries == [] then []
    else
      assert entries == [entries[0]] + entries[1..];
      var rest := QueuedEvents(entries[1..], wants);
      if wants(entries[0].event) then [entries[0].event] + rest else rest
  }

  /** The filter of one coordinate. */
  function AtKey(k: Key): (wants: Event -> bool) { (e: Event) => RelayKey(e) == k }

  function ReadRun(w: World, complete: set<nat>, k: Key, now: u64): (r: seq<Event>) {
    Answers(w.stores, complete, k, |w.stores|) + QueuedEvents(Outbox.Pruned(w.outbox, now), AtKey(k))
  }

  // ---- The command ----

  /** The versions the decision rests on: an open update over a known run under a degraded read needs every relay. */
  function Previous(c: Quorum.Config, w: World, q: Request): (r: Option<seq<Event>>) {
    var k := RunKey(q.run);
    var first := ReadRun(w, q.complete, k, q.now);
    if q.complete != Quorum.Relays(c.n) && first != [] && OpenStatus(q.run.status) then
      if q.strictCompletes then Some(ReadRun(w, Quorum.Relays(c.n), k, q.now)) else None
    else Some(first)
  }

  function Decide(c: Quorum.Config, w: World, q: Request): (r: Outcome)
    ensures r.Signed? ==> ValidChallenge(q.run) && q.complete <= Quorum.Relays(c.n) && |q.complete| >= c.q
    ensures r.Signed? ==> r.event == Event(q.eventId, q.run.buyer, r.event.createdAt, ChallengeDraft(q.run))
  {
    var k := RunKey(q.run);
    var first := ReadRun(w, q.complete, k, q.now);
    var previous := Previous(c, w, q);
    if !ValidChallenge(q.run) then Invalid
    else if !(q.complete <= Quorum.Relays(c.n)) || |q.complete| < c.q then ReadIncomplete
    else if ClosedStatusOf(first, q.run.buyer, q.run.id).Some? then Closed
    else if previous.None? then ReadIncomplete
    else if ClosedStatusOf(previous.value, q.run.buyer, q.run.id).Some? then Closed
    else
      var latest := SelectRunEvent(previous.value, q.run.buyer, Some(q.run.id));
      var created := ReplacementTimestamp(q.now, previous.value, q.run.buyer, CHALLENGE_KIND, q.run.id);
      if q.ifLatest.Some? && (latest.None? || latest.value.id != q.ifLatest.value) then Superseded
      else if created.None? then BadTimestamp
      else Signed(Event(q.eventId, q.run.buyer, created.value, ChallengeDraft(q.run)))
  }

  function Reaches(v: Quorum.Verdict): (b: bool) { v.Accepted? || v == Quorum.NoVerdict(true) }

  function SendAll(stores: seq<Quorum.Store>, verdicts: seq<Quorum.Verdict>, e: Event): (r: seq<Quorum.Store>)
    requires |stores| == |verdicts|
    ensures |r| == |stores|
    ensures forall i :: 0 <= i < |r| ==> r[i] == if Reaches(verdicts[i]) then Quorum.Offer(stores[i], e) else stores[i]
  {
    seq(|stores|, i requires 0 <= i < |stores| =>
      if Reaches(verdicts[i]) then Quorum.Offer(stores[i], e) else stores[i])
  }

  function AcceptedBy(verdicts: seq<Quorum.Verdict>): (r: set<nat>) {
    set i: nat | i < |verdicts| && verdicts[i].Accepted?
  }

  /** The relays that did not accept, in order. */
  function FailedAt(verdicts: seq<Quorum.Verdict>, n: nat): (r: seq<nat>)
    requires n <= |verdicts|
    ensures forall i :: i in r <==> 0 <= i < n && !verdicts[i].Accepted?
    ensures forall i, j :: 0 <= i < j < |r| ==> r[i] < r[j]
  {
    if n == 0 then []
    else if verdicts[n - 1].Accepted? then FailedAt(verdicts, n - 1)
    else
      var rest := FailedAt(verdicts, n - 1);
      assert forall i :: 0 <= i < |rest| ==> rest[i] in rest;
      rest + [n - 1]
  }

  datatype Action =
    | Publish(request: Request, saved: bool)
    | Resend(sweep: Outbox.Sweep, reached: set<(string, nat)>, saved: bool)
    | Deliver(relay: nat, event: Event)

  /** The stores after the sends of a sweep, some of which may reach a relay without its acknowledgement. */
  function DeliverAll(stores: seq<Quorum.Store>, sends: seq<Outbox.SendRecord>, reached: set<(string, nat)>)
    : (r: seq<Quorum.Store>)
    ensures |r| == |stores|
    decreases |sends|
  {
    if sends == [] then stores
    else
      var x := sends[0];
      var hit := (x.event.id, x.relay) in reached && x.relay < |stores|;
      DeliverAll(if hit then stores[x.relay := Quorum.Offer(stores[x.relay], x.event)] else stores, sends[1..], reached)
  }

  /** The relays after the sends of a signed event and, once it met quorum, the outbox after queueing it. */
  function AfterSend(c: Quorum.Config, w: World, q: Request, e: Event, saved: bool): (t: World)
    requires |w.stores| == |q.verdicts|
    ensures |t.stores| == |w.stores|
  {
    var sent := w.(stores := SendAll(w.stores, q.verdicts, e), signed := w.signed + {e});
    if |AcceptedBy(q.verdicts)| < c.q then sent
    else sent.(outbox := if saved
                 then Outbox.Queued(w.outbox, e, FailedAt(q.verdicts, |q.verdicts|), q.now) else w.outbox,
               acked := w.acked + {e})
  }

  /**
   * One command or one delivery by someone else; `saved` is false when the outbox could not be written and so
   * stayed as it was. `Deliver` covers every writer of other coordinates and any late copy of any signed version,
   * acknowledged or not; ids are hashes, so a clash of ids does not happen.
   */
  function Next(c: Quorum.Config, k: Key, w: World, a: Action): (t: World)
    requires |w.stores| == c.n
    ensures |t.stores| == c.n
  {
    match a
    case Publish(q, saved) =>
      var d := Decide(c, w, q);
      if !d.Signed? || |q.verdicts| != c.n || RunKey(q.run) != k || !IdsIdentify(w.signed + {d.event}) then w
      else AfterSend(c, w, q, d.event, saved)
    case Resend(sweep, reached, saved) =>
      w.(stores := DeliverAll(w.stores, Outbox.Sends(w.outbox, sweep), reached),
         outbox := if saved then Outbox.Resent(w.outbox, sweep) else w.outbox)
    case Deliver(r, e) =>
      if r < c.n && (RelayKey(e) != k || e in w.signed)
      then w.(stores := w.stores[r := Quorum.Offer(w.stores[r], e)]) else w
  }

  function Run(c: Quorum.Config, k: Key, actions: seq<Action>): (w: World)
    ensures |w.stores| == c.n
  {
    if actions == [] then World(seq(c.n, _ => map[]), [], {}, {})
    else Next(c, k, Run(c, k, actions[..|actions| - 1]), actions[|actions| - 1])
  }

  // ---- Invariant ----

  /** The versions of the coordinate that some relay holds. */
  function Versions(stores: seq<Quorum.Store>, k: Key): (r: set<Event>) {
    set i | 0 <= i < |stores| && k in stores[i] :: stores[i][k]
  }

  predicate VersionOf(e: Event, k: Key) {
    IsRun(e, k.author) && RunOf(e, k.author).id == k.d && k.kind == CHALLENGE_KIND && RelayKey(e) == k
  }

  predicate Inv(c: Quorum.Config, k: Key, w: World) {
    && |w.stores| == c.n && (forall i :: 0 <= i < c.n ==> Quorum.Filed(w.stores[i]))
    && IdsIdentify(w.signed) && (forall e :: e in w.signed ==> VersionOf(e, k))
    && Versions(w.stores, k) <= w.signed && w.acked <= w.signed
    && (forall x :: x in w.outbox ==> x.event in w.acked)
  }

  ghost predicate Acknowledged(c: Quorum.Config, w: World) {
    forall e :: e in w.acked ==> Quorum.Durable(c, w.stores, e)
  }

  ghost predicate Good(c: Quorum.Config, k: Key, w: World) { Inv(c, k, w) && Acknowledged(c, w) }

  lemma RunEventIsVersion(run: Challenge, id: string, created: u64)
    requires ValidChallenge(run)
    ensures var e := Event(id, run.buyer, created, ChallengeDraft(run));
            VersionOf(e, RunKey(run)) && RunOf(e, run.buyer) == run
  {
    ChallengeRoundTrip(run);
    KeyIsIdentifier(ChallengeDraft(run));
  }

  // ---- Stores only move up ----

  lemma DurableMovesUp(c: Quorum.Config, a: seq<Quorum.Store>, b: seq<Quorum.Store>, e: Event)
    requires Quorum.MovesUp(a, b) && Quorum.Durable(c, a, e)
    ensures Quorum.Durable(c, b, e)
  {
    var quorum: set<nat> :| quorum <= Quorum.Relays(c.n) && |quorum| >= c.q && Quorum.AllHold(a, quorum, e);
    Quorum.AllHoldMovesUp(a, b, quorum, e);
  }

  predicate AllFiled(stores: seq<Quorum.Store>) { forall i :: 0 <= i < |stores| ==> Quorum.Filed(stores[i]) }

  /** Each relay of `b` is as in `a`, or has been offered `e`. */
  predicate MayOffer(a: seq<Quorum.Store>, b: seq<Quorum.Store>, e: Event) {
    |a| == |b| && forall i :: 0 <= i < |a| ==> b[i] == a[i] || b[i] == Quorum.Offer(a[i], e)
  }

  lemma OffersMoveUp(a: seq<Quorum.Store>, b: seq<Quorum.Store>, e: Event)
    requires MayOffer(a, b, e) && AllFiled(a)
    ensures Quorum.MovesUp(a, b) && AllFiled(b)
  {
    forall i | 0 <= i < |a|
      ensures Quorum.Filed(b[i]) && forall x :: Quorum.Holds(a[i], x) ==> Quorum.Holds(b[i], x)
    {
      Quorum.OfferHolds(a[i], e);
      forall x | Quorum.Holds(a[i], x)
        ensures Quorum.Holds(b[i], x)
      {
        Quorum.OfferKeeps(a[i], e, x);
      }
    }
  }

  /** An offer adds at most the offered event to the held versions. */
  lemma OffersAdd(a: seq<Quorum.Store>, b: seq<Quorum.Store>, e: Event, k: Key)
    requires MayOffer(a, b, e)
    ensures Versions(b, k) <= Versions(a, k) + (if RelayKey(e) == k then {e} else {})
  {
    forall x | x in Versions(b, k)
      ensures x in Versions(a, k) + (if RelayKey(e) == k then {e} else {})
    {
      var i :| 0 <= i < |b| && k in b[i] && b[i][k] == x;
      if b[i] != a[i] && RelayKey(e) != k {
        assert k in a[i] && a[i][k] == x;
      }
    }
  }

  /** The newest held version only changes to an offered event that beats it. */
  lemma TopMoves(a: seq<Quorum.Store>, b: seq<Quorum.Store>, e: Event, k: Key, top: Event)
    requires MayOffer(a, b, e) && Newest(Versions(a, k), top)
    ensures Newest(Versions(b, k), top) || (RelayKey(e) == k && Beats(e, top) && Newest(Versions(b, k), e))
  {
    OffersAdd(a, b, e, k);
    var i :| 0 <= i < |a| && k in a[i] && a[i][k] == top;
    BeatsOrder(e, e);
    BeatsOrder(top, top);
    if RelayKey(e) == k && Beats(e, top) && e in Versions(b, k) {
      forall f | f in Versions(b, k)
        ensures !Beats(f, e)
      {
        if f != e && Beats(f, e) {
          BeatsTransitive(f, e, top);
        }
      }
    } else {
      assert k in b[i] && b[i][k] in Versions(b, k);
      assert top in Versions(b, k);
    }
  }

  /** Nothing acknowledged beats the newest held version. */
  lemma AckedBelowTop(c: Quorum.Config, k: Key, w: World, x: Event, top: Event)
    requires c.Strict() && Good(c, k, w) && x in w.acked && Newest(Versions(w.stores, k), top)
    ensures !Beats(x, top)
  {
    var h := HeldAbove(c, k, w, x, Quorum.Relays(c.n));
    BeatsOrder(h, top);
    if Beats(x, top) && h != top {
      BeatsTransitive(x, top, h);
    }
  }

  /** Among any quorum of relays, some relay holds an acknowledged version or one it does not beat. */
  lemma HeldAbove(c: Quorum.Config, k: Key, w: World, x: Event, complete: set<nat>) returns (h: Event)
    requires c.Strict() && Good(c, k, w) && x in w.acked
    requires complete <= Quorum.Relays(c.n) && |complete| >= c.q
    ensures h in Versions(w.stores, k) && !Beats(x, h) && h in Answers(w.stores, complete, k, c.n)
  {
    var quorum: set<nat> :| quorum <= Quorum.Relays(c.n) && |quorum| >= c.q && Quorum.AllHold(w.stores, quorum, x);
    var r := Quorum.QuorumsIntersect(c.n, c.q, quorum, complete);
    assert VersionOf(x, k);
    h := w.stores[r][k];
  }

  // ---- Every step keeps the invariant ----

  lemma SendAllOffers(stores: seq<Quorum.Store>, verdicts: seq<Quorum.Verdict>, e: Event)
    requires |stores| == |verdicts| && AllFiled(stores)
    ensures MayOffer(stores, SendAll(stores, verdicts, e), e)
    ensures Quorum.AllHold(SendAll(stores, verdicts, e), AcceptedBy(verdicts), e)
  {
    forall i: nat | i in AcceptedBy(verdicts)
      ensures Quorum.Holds(SendAll(stores, verdicts, e)[i], e)
    {
      Quorum.OfferHolds(stores[i], e);
    }
  }

  lemma SendKeepsGood(c: Quorum.Config, k: Key, w: World, verdicts: seq<Quorum.Verdict>, e: Event)
    requires Good(c, k, w) && |verdicts| == c.n && VersionOf(e, k) && IdsIdentify(w.signed + {e})
    ensures Good(c, k, w.(stores := SendAll(w.stores, verdicts, e), signed := w.signed + {e}))
    ensures |AcceptedBy(verdicts)| >= c.q ==> Quorum.Durable(c, SendAll(w.stores, verdicts, e), e)
  {
    var stores := SendAll(w.stores, verdicts, e);
    SendAllOffers(w.stores, verdicts, e);
    OffersMoveUp(w.stores, stores, e);
    OffersAdd(w.stores, stores, e, k);
    forall x | x in w.acked
      ensures Quorum.Durable(c, stores, x)
    {
      DurableMovesUp(c, w.stores, stores, x);
    }
    assert AcceptedBy(verdicts) <= Quorum.Relays(c.n);
  }

  lemma QueueKeepsAcked(entries: seq<Outbox.Entry>, acked: set<Event>, e: Event, relays: seq<nat>, now: u64)
    requires forall x :: x in entries ==> x.event in acked
    ensures forall x :: x in Outbox.Queued(entries, e, relays, now) ==> x.event in acked + {e}
  {
    forall x | x in Outbox.Queued(entries, e, relays, now)
      ensures x.event in acked + {e}
    {
      Outbox.QueueSupersedes(entries, e, relays, now, x);
    }
  }

  /** A send that met quorum: the event is acknowledged, and the outbox is queued or left. */
  lemma AckKeepsGood(c: Quorum.Config, k: Key, w: World, e: Event, outbox: seq<Outbox.Entry>)
    requires Good(c, k, w) && e in w.signed && Quorum.Durable(c, w.stores, e)
    requires forall x :: x in outbox ==> x.event in w.acked + {e}
    ensures Good(c, k, World(w.stores, outbox, w.signed, w.acked + {e}))
  {
  }

  lemma PublishKeepsGood(c: Quorum.Config, k: Key, w: World, q: Request, saved: bool)
    requires Good(c, k, w)
    ensures Good(c, k, Next(c, k, w, Publish(q, saved)))
  {
    var t := Next(c, k, w, Publish(q, saved));
    if t != w {
      var e := Decide(c, w, q).event;
      RunEventIsVersion(q.run, e.id, e.createdAt);
      SendKeepsGood(c, k, w, q.verdicts, e);
      if |AcceptedBy(q.verdicts)| >= c.q {
        var sent := w.(stores := SendAll(w.stores, q.verdicts, e), signed := w.signed + {e});
        QueueKeepsAcked(w.outbox, w.acked, e, FailedAt(q.verdicts, |q.verdicts|), q.now);
        AckKeepsGood(c, k, sent, e, t.outbox);
      }
    }
  }

  lemma DeliveryKeepsGood(c: Quorum.Config, k: Key, w: World, r: nat, e: Event)
    requires Good(c, k, w) && r < c.n && (RelayKey(e) != k || e in w.signed)
    ensures Good(c, k, w.(stores := w.stores[r := Quorum.Offer(w.stores[r], e)]))
  {
    var b := w.stores[r := Quorum.Offer(w.stores[r], e)];
    assert MayOffer(w.stores, b, e);
    OffersMoveUp(w.stores, b, e);
    OffersAdd(w.stores, b, e, k);
    forall x | x in w.acked
      ensures Quorum.Durable(c, b, x)
    {
      DurableMovesUp(c, w.stores, b, x);
    }
  }

  lemma DeliveryKeepsTop(c: Quorum.Config, k: Key, w: World, r: nat, e: Event, top: Event)
    requires c.Strict() && Good(c, k, w) && r < c.n && (RelayKey(e) != k || e in w.acked)
    requires Newest(Versions(w.stores, k), top)
    ensures Newest(Versions(w.stores[r := Quorum.Offer(w.stores[r], e)], k), top)
  {
    TopMoves(w.stores, w.stores[r := Quorum.Offer(w.stores[r], e)], e, k, top);
    if e in w.acked {
      AckedBelowTop(c, k, w, e, top);
    }
  }

  lemma OneDelivery(c: Quorum.Config, k: Key, w: World, r: nat, e: Event)
    requires c.Strict() && Good(c, k, w) && r < c.n && (RelayKey(e) != k || e in w.acked)
    ensures Good(c, k, w.(stores := w.stores[r := Quorum.Offer(w.stores[r], e)]))
    ensures forall top :: Newest(Versions(w.stores, k), top)
              ==> Newest(Versions(w.stores[r := Quorum.Offer(w.stores[r], e)], k), top)
  {
    DeliveryKeepsGood(c, k, w, r, e);
    forall top | Newest(Versions(w.stores, k), top)
      ensures Newest(Versions(w.stores[r := Quorum.Offer(w.stores[r], e)], k), top)
    {
      DeliveryKeepsTop(c, k, w, r, e, top);
    }
  }

  lemma {:induction false} Deliveries(
    c: Quorum.Config, k: Key, w: World, sends: seq<Outbox.SendRecord>, reached: set<(string, nat)>)
    requires c.Strict() && Good(c, k, w) && forall x :: x in sends ==> x.event in w.acked
    ensures Good(c, k, w.(stores := DeliverAll(w.stores, sends, reached)))
    ensures forall top :: Newest(Versions(w.stores, k), top)
              ==> Newest(Versions(DeliverAll(w.stores, sends, reached), k), top)
    decreases |sends|
  {
    if sends != [] {
      var x := sends[0];
      assert x in sends;
      if (x.event.id, x.relay) in reached && x.relay < c.n {
        OneDelivery(c, k, w, x.relay, x.event);
        Deliveries(c, k, w.(stores := w.stores[x.relay := Quorum.Offer(w.stores[x.relay], x.event)]), sends[1..],
            reached);
      } else {
        Deliveries(c, k, w, sends[1..], reached);
      }
    } else {
      assert w.(stores := w.stores) == w;
    }
  }

  lemma ResendKeepsTop(c: Quorum.Config, k: Key, w: World, sweep: Outbox.Sweep, reached: set<(string, nat)>,
      saved: bool)
    requires c.Strict() && Good(c, k, w)
    ensures Good(c, k, Next(c, k, w, Resend(sweep, reached, saved)))
    ensures forall top :: Newest(Versions(w.stores, k), top)
              ==> Newest(Versions(Next(c, k, w, Resend(sweep, reached, saved)).stores, k), top)
  {
    forall x | x in Outbox.Sends(w.outbox, sweep)
      ensures x.event in w.acked
    {
      Outbox.SendMembers(w.outbox, sweep, x);
    }
    Deliveries(c, k, w, Outbox.Sends(w.outbox, sweep), reached);
    forall x | x in Outbox.Resent(w.outbox, sweep)
      ensures x.event in w.acked
    {
      Outbox.ResentMembers(w.outbox, sweep, x);
    }
  }

  lemma StepKeepsGood(c: Quorum.Config, k: Key, w: World, a: Action)
    requires c.Strict() && Good(c, k, w)
    ensures Good(c, k, Next(c, k, w, a))
  {
    match a
    case Publish(q, saved) => PublishKeepsGood(c, k, w, q, saved);
    case Resend(sweep, reached, saved) => ResendKeepsTop(c, k, w, sweep, reached, saved);
    case Deliver(r, e) =>
      if r < c.n && (RelayKey(e) != k || e in w.signed) {
        DeliveryKeepsGood(c, k, w, r, e);
      }
  }

  lemma {:induction false} RunsAreGood(c: Quorum.Config, k: Key, actions: seq<Action>)
    requires c.Strict()
    ensures Good(c, k, Run(c, k, actions))
  {
    if actions != [] {
      RunsAreGood(c, k, actions[..|actions| - 1]);
      StepKeepsGood(c, k, Run(c, k, actions[..|actions| - 1]), actions[|actions| - 1]);
    }
  }

  // ---- What a publish has seen ----

  lemma ReadsAreSigned(c: Quorum.Config, k: Key, w: World, complete: set<nat>, now: u64)
    requires Inv(c, k, w)
    ensures forall e :: e in ReadRun(w, complete, k, now) ==> e in w.signed
    ensures IdsIdentify(SeqSet(ReadRun(w, complete, k, now)))
    ensures VersionsOf(SeqSet(ReadRun(w, complete, k, now)), k.author, k.d) == SeqSet(ReadRun(w, complete, k, now))
  {
    var r := ReadRun(w, complete, k, now);
    Outbox.PrunedMembers(w.outbox, now);
    forall e | e in r
      ensures e in w.signed
    {
      if e in Answers(w.stores, complete, k, |w.stores|) {
        assert e in Versions(w.stores, k);
      }
    }
    assert forall e :: e in SeqSet(r) ==> VersionOf(e, k);
  }

  /** A publish that reads every relay sees the newest held version as the newest of all it read. */
  lemma FullReadSeesTop(c: Quorum.Config, k: Key, w: World, now: u64, top: Event)
    requires c.Strict() && Good(c, k, w) && Newest(Versions(w.stores, k), top)
    ensures Newest(SeqSet(ReadRun(w, Quorum.Relays(c.n), k, now)), top)
  {
    var i :| 0 <= i < c.n && k in w.stores[i] && w.stores[i][k] == top;
    assert top in Answers(w.stores, Quorum.Relays(c.n), k, |w.stores|);
    forall f | f in SeqSet(ReadRun(w, Quorum.Relays(c.n), k, now))
      ensures !Beats(f, top)
    {
      FullReadBelowTop(c, k, w, now, top, f);
    }
  }

  lemma FullReadBelowTop(c: Quorum.Config, k: Key, w: World, now: u64, top: Event, f: Event)
    requires c.Strict() && Good(c, k, w) && Newest(Versions(w.stores, k), top)
    requires f in ReadRun(w, Quorum.Relays(c.n), k, now)
    ensures !Beats(f, top)
  {
    if f in Answers(w.stores, Quorum.Relays(c.n), k, |w.stores|) {
      assert f in Versions(w.stores, k);
    } else {
      Outbox.PrunedMembers(w.outbox, now);
      AckedBelowTop(c, k, w, f, top);
    }
  }

  /** Every acknowledged version is in the read, or one it does not beat is. */
  lemma ReadSeesAcked(c: Quorum.Config, k: Key, w: World, complete: set<nat>, now: u64, x: Event) returns (h: Event)
    requires c.Strict() && Good(c, k, w) && x in w.acked
    requires complete <= Quorum.Relays(c.n) && |complete| >= c.q
    ensures h in ReadRun(w, complete, k, now) && !Beats(x, h)
  {
    h := HeldAbove(c, k, w, x, complete);
  }

  lemma SelectedIs(c: Quorum.Config, k: Key, w: World, complete: set<nat>, now: u64, top: Event)
    requires Inv(c, k, w) && Newest(SeqSet(ReadRun(w, complete, k, now)), top)
    ensures SelectRunEvent(ReadRun(w, complete, k, now), k.author, Some(k.d)) == Some(top)
  {
    var r := ReadRun(w, complete, k, now);
    ReadsAreSigned(c, k, w, complete, now);
    SelectByIdIsNewest(r, k.author, k.d);
    var chosen := SelectRunEvent(r, k.author, Some(k.d));
    BeatsOrder(chosen.value, top);
  }

  // ---- A closed run stays closed ----

  predicate ClosedTop(stores: seq<Quorum.Store>, k: Key, top: Event) {
    Newest(Versions(stores, k), top) && IsRun(top, k.author) && ClosedStatus(RunOf(top, k.author).status)
  }

  /** With an acknowledged version and a closed newest version, an open update is never signed. */
  lemma OpenUpdateRefused(c: Quorum.Config, k: Key, w: World, q: Request, top: Event)
    requires c.Strict() && Good(c, k, w) && w.acked != {} && ClosedTop(w.stores, k, top)
    requires RunKey(q.run) == k && OpenStatus(q.run.status)
    ensures !Decide(c, w, q).Signed?
  {
    if Decide(c, w, q).Signed? {
      var x :| x in w.acked;
      var h := ReadSeesAcked(c, k, w, q.complete, q.now, x);
      ReopenNeedsEmptyRead(c, k, w, q, top);
    }
  }

  lemma StoresChangeBySigning(c: Quorum.Config, k: Key, w: World, q: Request, saved: bool)
    requires |w.stores| == c.n
    ensures var t, d := Next(c, k, w, Publish(q, saved)), Decide(c, w, q);
            t.stores != w.stores ==>
              d.Signed? && |q.verdicts| == c.n && RunKey(q.run) == k
                  && t.stores == SendAll(w.stores, q.verdicts, d.event)
  {
  }

  lemma ClosedSendKeepsClosed(k: Key, stores: seq<Quorum.Store>, verdicts: seq<Quorum.Verdict>, e: Event, top: Event)
    requires |stores| == |verdicts| && AllFiled(stores) && ClosedTop(stores, k, top)
    requires IsRun(e, k.author) && ClosedStatus(RunOf(e, k.author).status)
    ensures HasClosedTop(SendAll(stores, verdicts, e), k)
  {
    var b := SendAll(stores, verdicts, e);
    SendAllOffers(stores, verdicts, e);
    TopMoves(stores, b, e, k, top);
    assert ClosedTop(b, k, top) || ClosedTop(b, k, e);
  }

  lemma PublishKeepsClosed(c: Quorum.Config, k: Key, w: World, q: Request, saved: bool, top: Event)
    requires c.Strict() && Good(c, k, w) && w.acked != {} && ClosedTop(w.stores, k, top)
    ensures HasClosedTop(Next(c, k, w, Publish(q, saved)).stores, k)
  {
    StoresChangeBySigning(c, k, w, q, saved);
    if Next(c, k, w, Publish(q, saved)).stores != w.stores {
      var e := Decide(c, w, q).event;
      if OpenStatus(q.run.status) {
        OpenUpdateRefused(c, k, w, q, top);
      }
      RunEventIsVersion(q.run, e.id, e.createdAt);
      ClosedSendKeepsClosed(k, w.stores, q.verdicts, e, top);
    }
  }

  /** Some version was acknowledged, and the newest version that any relay holds is completed or cancelled. */
  ghost predicate ClosedNow(k: Key, w: World) { w.acked != {} && HasClosedTop(w.stores, k) }

  ghost predicate HasClosedTop(stores: seq<Quorum.Store>, k: Key) { exists t :: ClosedTop(stores, k, t) }

  predicate OpenVersion(e: Event, k: Key) { IsRun(e, k.author) && OpenStatus(RunOf(e, k.author).status) }

  predicate BeatsAllHeld(stores: seq<Quorum.Store>, k: Key, e: Event) {
    forall x :: x in Versions(stores, k) ==> Beats(e, x)
  }

  /** A late copy of an open version that beats every version held, arriving at a relay. */
  predicate ArrivesOpen(k: Key, w: World, a: Action) {
    && a.Deliver? && a.relay < |w.stores| && a.event in w.signed && RelayKey(a.event) == k
    && OpenVersion(a.event, k) && BeatsAllHeld(w.stores, k, a.event)
  }

  lemma ResendKeepsClosed(
    c: Quorum.Config, k: Key, w: World, sweep: Outbox.Sweep, reached: set<(string, nat)>, saved: bool, top: Event)
    requires c.Strict() && Good(c, k, w) && ClosedTop(w.stores, k, top)
    ensures HasClosedTop(Next(c, k, w, Resend(sweep, reached, saved)).stores, k)
  {
    ResendKeepsTop(c, k, w, sweep, reached, saved);
    assert ClosedTop(Next(c, k, w, Resend(sweep, reached, saved)).stores, k, top);
  }

  lemma DeliverIs(c: Quorum.Config, k: Key, w: World, r: nat, e: Event)
    requires |w.stores| == c.n
    ensures Next(c, k, w, Deliver(r, e)).acked == w.acked
    ensures Next(c, k, w, Deliver(r, e)).stores
         == if r < c.n && (RelayKey(e) != k || e in w.signed)
            then w.stores[r := Quorum.Offer(w.stores[r], e)] else w.stores
  {
  }

  /** An event that beats every version held is taken by any relay and is then the only newest one. */
  lemma OfferOnTop(stores: seq<Quorum.Store>, k: Key, r: nat, e: Event)
    requires r < |stores| && RelayKey(e) == k && BeatsAllHeld(stores, k, e)
    ensures var b := stores[r := Quorum.Offer(stores[r], e)];
            Newest(Versions(b, k), e) && forall t :: t in Versions(b, k) && t != e ==> Beats(e, t)
  {
    var b := stores[r := Quorum.Offer(stores[r], e)];
    assert MayOffer(stores, b, e);
    OffersAdd(stores, b, e, k);
    assert k in stores[r] ==> stores[r][k] in Versions(stores, k);
    assert k in b[r] && b[r][k] == e;
    BeatsOrder(e, e);
    forall x | x in Versions(b, k)
      ensures !Beats(x, e) && (x != e ==> Beats(e, x))
    {
      BeatsOrder(x, e);
    }
  }

  /** A signed version arriving late keeps the run closed if and only if it is closed or beaten by what is held. */
  lemma ArrivalKeepsClosedExactly(k: Key, stores: seq<Quorum.Store>, r: nat, e: Event, top: Event)
    requires r < |stores| && VersionOf(e, k) && ClosedTop(stores, k, top)
    ensures HasClosedTop(stores[r := Quorum.Offer(stores[r], e)], k)
            <==> !(OpenVersion(e, k) && BeatsAllHeld(stores, k, e))
  {
    var b := stores[r := Quorum.Offer(stores[r], e)];
    if BeatsAllHeld(stores, k, e) {
      OfferOnTop(stores, k, r, e);
      if !OpenVersion(e, k) {
        assert ClosedTop(b, k, e);
      }
    } else {
      if Beats(e, top) {
        var x :| x in Versions(stores, k) && !Beats(e, x);
        BelowTop(stores, k, top, e, x);
      }
      TopMoves(stores, b, e, k, top);
      assert ClosedTop(b, k, top);
    }
  }

  lemma BelowTop(stores: seq<Quorum.Store>, k: Key, top: Event, e: Event, x: Event)
    requires Newest(Versions(stores, k), top) && x in Versions(stores, k) && Beats(e, top)
    ensures Beats(e, x)
  {
    BeatsOrder(top, x);
    if Beats(top, x) {
      BeatsTransitive(e, top, x);
    }
  }

  lemma OtherArrivalKeepsClosed(k: Key, stores: seq<Quorum.Store>, r: nat, e: Event, top: Event)
    requires r < |stores| && RelayKey(e) != k && ClosedTop(stores, k, top)
    ensures HasClosedTop(stores[r := Quorum.Offer(stores[r], e)], k)
  {
    TopMoves(stores, stores[r := Quorum.Offer(stores[r], e)], e, k, top);
    assert ClosedTop(stores[r := Quorum.Offer(stores[r], e)], k, top);
  }

  lemma DeliverKeepsClosedExactly(c: Quorum.Config, k: Key, w: World, r: nat, e: Event, top: Event)
    requires Inv(c, k, w) && ClosedTop(w.stores, k, top)
    ensures HasClosedTop(Next(c, k, w, Deliver(r, e)).stores, k) <==> !ArrivesOpen(k, w, Deliver(r, e))
  {
    DeliverIs(c, k, w, r, e);
    if r < c.n && RelayKey(e) != k {
      OtherArrivalKeepsClosed(k, w.stores, r, e, top);
    } else if r < c.n && e in w.signed {
      ArrivalKeepsClosedExactly(k, w.stores, r, e, top);
    }
  }

  lemma AckedGrows(c: Quorum.Config, k: Key, w: World, a: Action)
    requires |w.stores| == c.n
    ensures w.acked <= Next(c, k, w, a).acked
  {
  }

  lemma TopAfterStepExactly(c: Quorum.Config, k: Key, w: World, a: Action, top: Event)
    requires c.Strict() && Good(c, k, w) && w.acked != {} && ClosedTop(w.stores, k, top)
    ensures HasClosedTop(Next(c, k, w, a).stores, k) <==> !ArrivesOpen(k, w, a)
  {
    match a
    case Publish(q, saved) => PublishKeepsClosed(c, k, w, q, saved, top);
    case Resend(sweep, reached, saved) => ResendKeepsClosed(c, k, w, sweep, reached, saved, top);
    case Deliver(r, e) => DeliverKeepsClosedExactly(c, k, w, r, e, top);
  }

  /** A step keeps a closed run closed unless it is the late arrival of an open version that beats all held. */
  lemma StepKeepsClosedExactly(c: Quorum.Config, k: Key, w: World, a: Action)
    requires c.Strict() && Good(c, k, w) && ClosedNow(k, w)
    ensures ClosedNow(k, Next(c, k, w, a)) <==> !ArrivesOpen(k, w, a)
  {
    var top :| ClosedTop(w.stores, k, top);
    AckedGrows(c, k, w, a);
    TopAfterStepExactly(c, k, w, a, top);
  }

  /** The run is closed now and after each step of `future`. */
  ghost predicate StaysClosed(c: Quorum.Config, k: Key, w: World, future: seq<Action>)
    requires |w.stores| == c.n
    decreases |future|
  {
    ClosedNow(k, w) && (future == [] || StaysClosed(c, k, Next(c, k, w, future[0]), future[1..]))
  }

  /** No open version that beats all held arrives late in `future`. */
  predicate NothingArrivesOpen(c: Quorum.Config, k: Key, w: World, future: seq<Action>)
    requires |w.stores| == c.n
    decreases |future|
  {
    future == []
    || (!ArrivesOpen(k, w, future[0]) && NothingArrivesOpen(c, k, Next(c, k, w, future[0]), future[1..]))
  }

  lemma {:induction false} ClosedFromHere(c: Quorum.Config, k: Key, w: World, future: seq<Action>)
    requires c.Strict() && Good(c, k, w) && ClosedNow(k, w)
    ensures StaysClosed(c, k, w, future) <==> NothingArrivesOpen(c, k, w, future)
    decreases |future|
  {
    if future != [] {
      var t := Next(c, k, w, future[0]);
      StepKeepsGood(c, k, w, future[0]);
      StepKeepsClosedExactly(c, k, w, future[0]);
      if ClosedNow(k, t) {
        ClosedFromHere(c, k, t, future[1..]);
      }
    }
  }

  /**
   * A closed run stays closed. After any run in which some version was acknowledged and the newest version held by
   * any relay is completed or cancelled, it stays so through any further commands, re-sends and deliveries, if and
   * only if no open version that beats all held arrives late: no publish and no re-send ever reopens it.
   */
  lemma ClosedStaysClosed(c: Quorum.Config, k: Key, past: seq<Action>, future: seq<Action>)
    requires c.Strict() && ClosedNow(k, Run(c, k, past))
    ensures StaysClosed(c, k, Run(c, k, past), future) <==> NothingArrivesOpen(c, k, Run(c, k, past), future)
  {
    RunsAreGood(c, k, past);
    ClosedFromHere(c, k, Run(c, k, past), future);
  }

  // ---- Compare-and-set ----

  /** The relays behind the versions that a signed update rests on. */
  lemma SignedRests(c: Quorum.Config, w: World, q: Request) returns (complete: set<nat>)
    requires c.Strict() && |w.stores| == c.n && Decide(c, w, q).Signed?
    ensures complete <= Quorum.Relays(c.n) && |complete| >= c.q
    ensures var r := ReadRun(w, complete, RunKey(q.run), q.now);
            && ReplacementTimestamp(q.now, r, q.run.buyer, CHALLENGE_KIND, q.run.id)
               == Some(Decide(c, w, q).event.createdAt)
            && (q.ifLatest.Some? ==> var latest := SelectRunEvent(r, q.run.buyer, Some(q.run.id));
                                     latest.Some? && latest.value.id == q.ifLatest.value)
  {
    var first := ReadRun(w, q.complete, RunKey(q.run), q.now);
    if q.complete != Quorum.Relays(c.n) && first != [] && OpenStatus(q.run.status) {
      complete := Quorum.Relays(c.n);
    } else {
      complete := q.complete;
    }
  }

  /** `--if-latest x` never signs over an acknowledged version newer than x. */
  lemma IfLatestNeverOverwrites(c: Quorum.Config, k: Key, w: World, q: Request, x: Event)
    requires c.Strict() && Good(c, k, w) && RunKey(q.run) == k && Decide(c, w, q).Signed? && x in w.acked
    requires q.ifLatest.Some?
    ensures exists base :: base in w.signed && base.id == q.ifLatest.value && !Beats(x, base)
  {
    var complete := SignedRests(c, w, q);
    var r := ReadRun(w, complete, k, q.now);
    ReadsAreSigned(c, k, w, complete, q.now);
    SelectByIdIsNewest(r, k.author, k.d);
    var base := SelectRunEvent(r, k.author, Some(k.d)).value;
    var h := ReadSeesAcked(c, k, w, complete, q.now, x);
    BeatsOrder(h, base);
    if Beats(x, base) && h != base {
      BeatsTransitive(x, base, h);
    }
  }

  lemma VersionIsOwn(e: Event, k: Key)
    requires VersionOf(e, k)
    ensures OwnVersion(e, k.author, k.kind, k.d)
  {
    KeyIsIdentifier(e.draft);
  }

  /** Every signed version beats every version acknowledged before it. */
  lemma SignedBeatsAcked(c: Quorum.Config, k: Key, w: World, q: Request, x: Event)
    requires c.Strict() && Good(c, k, w) && RunKey(q.run) == k && Decide(c, w, q).Signed? && x in w.acked
    requires x.createdAt < U64_MAX
    ensures Beats(Decide(c, w, q).event, x)
  {
    var complete := SignedRests(c, w, q);
    ReadsAreSigned(c, k, w, complete, q.now);
    var h := ReadSeesAcked(c, k, w, complete, q.now, x);
    VersionIsOwn(h, k);
    DatedAbove(ReadRun(w, complete, k, q.now), k, q.now, Decide(c, w, q).event.createdAt, h, x);
  }

  lemma DatedAbove(r: seq<Event>, k: Key, now: u64, created: u64, h: Event, x: Event)
    requires ReplacementTimestamp(now, r, k.author, k.kind, k.d) == Some(created)
    requires h in r && OwnVersion(h, k.author, k.kind, k.d) && !Beats(x, h) && x.createdAt < U64_MAX
    ensures x.createdAt < created
  {
  }

  // ---- The outbox a publish leaves ----

  /** No signed version is dated before a version acknowledged before it. */
  lemma SignedNotOlder(c: Quorum.Config, k: Key, w: World, q: Request, x: Event)
    requires c.Strict() && Good(c, k, w) && RunKey(q.run) == k && Decide(c, w, q).Signed? && x in w.acked
    ensures x.createdAt <= Decide(c, w, q).event.createdAt
  {
    var complete := SignedRests(c, w, q);
    ReadsAreSigned(c, k, w, complete, q.now);
    var h := ReadSeesAcked(c, k, w, complete, q.now, x);
    VersionIsOwn(h, k);
    DatedNotBelow(ReadRun(w, complete, k, q.now), k, q.now, Decide(c, w, q).event.createdAt, h, x);
  }

  lemma DatedNotBelow(r: seq<Event>, k: Key, now: u64, created: u64, h: Event, x: Event)
    requires ReplacementTimestamp(now, r, k.author, k.kind, k.d) == Some(created)
    requires h in r && OwnVersion(h, k.author, k.kind, k.d) && !Beats(x, h)
    ensures x.createdAt <= created
  {
  }

  /** The command never queues below a newer version, so it always prunes. */
  lemma QueueIsNeverEarly(c: Quorum.Config, k: Key, w: World, q: Request)
    requires c.Strict() && Good(c, k, w) && RunKey(q.run) == k && Decide(c, w, q).Signed?
    ensures !Outbox.ReturnsEarly(w.outbox, Decide(c, w, q).event)
  {
    forall x | x in w.outbox
      ensures x.event.createdAt <= Decide(c, w, q).event.createdAt
    {
      SignedNotOlder(c, k, w, q, x.event);
    }
  }

  /** What a publish that met quorum saves holds no entry past its age. */
  lemma PublishKeepsAge(c: Quorum.Config, k: Key, w: World, q: Request)
    requires c.Strict() && Good(c, k, w) && RunKey(q.run) == k && Decide(c, w, q).Signed?
    requires |q.verdicts| == c.n && |AcceptedBy(q.verdicts)| >= c.q
    ensures Outbox.WithinAge(AfterSend(c, w, q, Decide(c, w, q).event, true).outbox, q.now)
  {
    QueueIsNeverEarly(c, k, w, q);
    Outbox.QueueKeepsAgeExactly(w.outbox, Decide(c, w, q).event, FailedAt(q.verdicts, c.n), q.now);
  }

  predicate MetQuorum(c: Quorum.Config, k: Key, w: World, q: Request) {
    var d := Decide(c, w, q);
    && d.Signed? && |q.verdicts| == c.n && RunKey(q.run) == k && IdsIdentify(w.signed + {d.event})
    && |AcceptedBy(q.verdicts)| >= c.q
  }

  /** The clock of a step that saved the outbox: a publish that met quorum, or a sweep. */
  function SavedAt(c: Quorum.Config, k: Key, w: World, a: Action): (at: Option<u64>)
    requires |w.stores| == c.n
  {
    if a.Publish? && a.saved && MetQuorum(c, k, w, a.request) then Some(a.request.now)
    else if a.Resend? && a.saved then Some(a.sweep.at)
    else None
  }

  /** In every run of one home's commands, each step that saves the outbox leaves no entry past its age. */
  lemma SavedOutboxIsWithinAge(c: Quorum.Config, k: Key, past: seq<Action>, a: Action)
    requires c.Strict() && SavedAt(c, k, Run(c, k, past), a).Some?
    ensures Outbox.WithinAge(Next(c, k, Run(c, k, past), a).outbox, SavedAt(c, k, Run(c, k, past), a).value)
  {
    RunsAreGood(c, k, past);
    SaveKeepsAge(c, k, Run(c, k, past), a);
  }

  lemma SaveKeepsAge(c: Quorum.Config, k: Key, w: World, a: Action)
    requires c.Strict() && Good(c, k, w) && SavedAt(c, k, w, a).Some?
    ensures Outbox.WithinAge(Next(c, k, w, a).outbox, SavedAt(c, k, w, a).value)
  {
    if a.Publish? {
      PublishKeepsAge(c, k, w, a.request);
    } else {
      Outbox.ResendKeepsAge(w.outbox, a.sweep);
    }
  }

  // ---- Exactly when a close can be lost ----

  /** Some quorum of relays holds no version of the run, and none is queued. */
  ghost predicate EmptyQuorum(c: Quorum.Config, k: Key, w: World, now: u64) {
    exists complete: set<nat> :: complete <= Quorum.Relays(c.n) && |complete| >= c.q
        && ReadRun(w, complete, k, now) == []
  }

  /** An open update over a closed newest version is signed only from an empty quorum read. */
  lemma ReopenNeedsEmptyRead(c: Quorum.Config, k: Key, w: World, q: Request, top: Event)
    requires c.Strict() && Good(c, k, w) && ClosedTop(w.stores, k, top)
    requires RunKey(q.run) == k && OpenStatus(q.run.status) && Decide(c, w, q).Signed?
    ensures ReadRun(w, q.complete, k, q.now) == []
  {
    if ReadRun(w, q.complete, k, q.now) != [] {
      var all := Quorum.Relays(c.n);
      assert Previous(c, w, q) == Some(ReadRun(w, all, k, q.now));
      FullReadSeesTop(c, k, w, q.now, top);
      SelectedIs(c, k, w, all, q.now, top);
    }
  }

  lemma NothingSelected(buyer: string, id: string, now: u64)
    ensures SelectRunEvent([], buyer, Some(id)) == None && ClosedStatusOf([], buyer, id) == None
    ensures ReplacementTimestamp(now, [], buyer, CHALLENGE_KIND, id) == Some(now)
  {
    assert Filter([], (e: Event) => IsRun(e, buyer)) == [];
    assert RunView([], buyer) == [];
  }
}
