/**
 * A run of three commands on three relays that ends closed and that a late copy reopens: an open version, an open
 * update
 * that no relay was heard to take, and a close signed in the same second.
 */
module LateRun {
  import opened Basics
  import opened Drafts
  import opened Latest
  import opened Roster
  import opened Runs
  import opened Publishing
  import opened Reopening
  import Quorum
  import Outbox

  /** A publish of `run` at `now` that every relay answers, with the same verdict from all three. */
  function ToAll(run: Challenge, now: u64, id: string, verdict: Quorum.Verdict): (q: Request) {
    Request(run, None, now, id, {0, 1, 2}, true, [verdict, verdict, verdict])
  }

  /** Every relay holds `e` and nothing else. */
  function HeldByAll(k: Key, e: Event): (stores: seq<Quorum.Store>) { [map[k := e], map[k := e], map[k := e]] }

  lemma ThreeAccept(verdicts: seq<Quorum.Verdict>)
    requires verdicts == [Quorum.Accepted, Quorum.Accepted, Quorum.Accepted]
    ensures AcceptedBy(verdicts) == {0, 1, 2} && FailedAt(verdicts, 3) == []
  {
    assert FailedAt(verdicts, 0) == [] && FailedAt(verdicts, 1) == [] && FailedAt(verdicts, 2) == [];
  }

  /** An event that no relay missed is not queued. */
  lemma NothingQueued(e: Event, now: u64)
    ensures Outbox.Queued([], e, [], now) == []
  {
    var x := Outbox.Entry(e, [], now);
    assert Outbox.FreshMisses([]) == [];
    assert [x][1..] == [] && Outbox.LiveMisses([]) == [];
    assert Outbox.Retained([x], now) == [];
    assert [] + [x] == [x];
  }

  // ---- What one command does ----

  lemma AllStore(k: Key, stores: seq<Quorum.Store>, e: Event)
    requires |stores| == 3 && RelayKey(e) == k
    requires forall i :: 0 <= i < 3 ==> stores[i] == map[] || (stores[i].Keys == {k} && Beats(e, stores[i][k]))
    ensures SendAll(stores, [Quorum.Accepted, Quorum.Accepted, Quorum.Accepted], e) == HeldByAll(k, e)
  {
    forall i | 0 <= i < 3
      ensures Quorum.Offer(stores[i], e) == map[k := e]
    {
    }
  }

  lemma NoneStore(stores: seq<Quorum.Store>, e: Event)
    requires |stores| == 3
    ensures SendAll(stores, [Quorum.NoVerdict(false), Quorum.NoVerdict(false), Quorum.NoVerdict(false)], e) == stores
  {
  }

  /** All relays take the event. */
  lemma AfterAllAccept(k: Key, w: World, q: Request, e: Event, saved: bool)
    requires |w.stores| == 3 && w.outbox == [] && RelayKey(e) == k
    requires q.verdicts == [Quorum.Accepted, Quorum.Accepted, Quorum.Accepted]
    requires forall i :: 0 <= i < 3 ==> w.stores[i] == map[] || (w.stores[i].Keys == {k} && Beats(e, w.stores[i][k]))
    ensures AfterSend(Quorum.THREE, w, q, e, saved) == World(HeldByAll(k, e), [], w.signed + {e}, w.acked + {e})
  {
    ThreeAccept(q.verdicts);
    NothingQueued(e, q.now);
    AllStore(k, w.stores, e);
  }

  /** No relay is heard to take the event, and none has it yet. */
  lemma AfterSilence(w: World, q: Request, e: Event, saved: bool)
    requires |w.stores| == 3 && q.verdicts == [Quorum.NoVerdict(false), Quorum.NoVerdict(false),
            Quorum.NoVerdict(false)]
    ensures AfterSend(Quorum.THREE, w, q, e, saved) == w.(signed := w.signed + {e})
  {
    NoneStore(w.stores, e);
    assert AcceptedBy(q.verdicts) == {};
  }

  // ---- Deciding over one open version that every relay holds ----

  lemma ReadOne(w: World, k: Key, v: Event, now: u64)
    requires w.stores == HeldByAll(k, v) && w.outbox == []
    ensures ReadRun(w, {0, 1, 2}, k, now) == [v, v, v]
  {
    assert Answers(w.stores, {0, 1, 2}, k, 0) == [];
    assert Answers(w.stores, {0, 1, 2}, k, 1) == [v];
    assert Answers(w.stores, {0, 1, 2}, k, 2) == [v, v];
    assert Outbox.Pruned([], now) == [];
  }

  lemma OpenOneDecides(w: World, k: Key, v: Event, q: Request)
    requires Inv(Quorum.THREE, k, w) && w.stores == HeldByAll(k, v) && w.outbox == [] && v in w.signed
    requires OpenVersion(v, k) && ValidChallenge(q.run) && RunKey(q.run) == k
    requires q.ifLatest.None? && q.complete == {0, 1, 2} && v.createdAt < q.now
    ensures Decide(Quorum.THREE, w, q) == Signed(FirstVersion(q))
  {
    var r := ReadRun(w, q.complete, k, q.now);
    ReadOne(w, k, v, q.now);
    AllOfThree();
    BeatsOrder(v, v);
    assert Newest(SeqSet(r), v);
    SelectedIs(Quorum.THREE, k, w, q.complete, q.now, v);
    DateOverOne(v, k, q.now);
    DecideOver(w, k, q, [v, v, v], v);
  }

  lemma DateOverOne(v: Event, k: Key, now: u64)
    requires VersionOf(v, k) && v.createdAt < now
    ensures ReplacementTimestamp(now, [v, v, v], k.author, k.kind, k.d) == Some(now)
  {
    VersionIsOwn(v, k);
    var date := LatestDate([v, v, v], k.author, k.kind, k.d);
    if date.Some? {
      var e :| e in [v, v, v] && OwnVersion(e, k.author, k.kind, k.d) && e.createdAt == date.value;
    }
  }

  lemma DecideOver(w: World, k: Key, q: Request, r: seq<Event>, v: Event)
    requires ReadRun(w, q.complete, k, q.now) == r && q.complete == Quorum.Relays(3) && |q.complete| >= 2
    requires SelectRunEvent(r, k.author, Some(k.d)) == Some(v) && OpenVersion(v, k)
    requires ReplacementTimestamp(q.now, r, k.author, k.kind, k.d) == Some(q.now)
    requires ValidChallenge(q.run) && RunKey(q.run) == k && q.ifLatest.None?
    ensures Decide(Quorum.THREE, w, q) == Signed(FirstVersion(q))
  {
    assert ClosedStatusOf(r, k.author, k.d) == None;
    assert Previous(Quorum.THREE, w, q) == Some(r);
  }

  /** A signed event is sent. */
  lemma SignedIsSent(k: Key, w: World, q: Request, e: Event, saved: bool)
    requires |w.stores| == 3 == |q.verdicts| && Decide(Quorum.THREE, w, q) == Signed(e) && RunKey(q.run) == k
    requires IdsIdentify(w.signed + {e})
    ensures Next(Quorum.THREE, k, w, Publish(q, saved)) == AfterSend(Quorum.THREE, w, q, e, saved)
  {
  }

  /** A publish that every relay answers, over one open version that all hold. */
  ghost predicate OverOne(k: Key, w: World, v: Event, q: Request) {
    && Inv(Quorum.THREE, k, w) && w.stores == HeldByAll(k, v) && w.outbox == [] && v in w.signed
    && OpenVersion(v, k) && ValidChallenge(q.run) && RunKey(q.run) == k
    && q.ifLatest.None? && q.complete == {0, 1, 2} && v.createdAt < q.now
    && IdsIdentify(w.signed + {FirstVersion(q)})
  }

  lemma AcceptedOverOne(k: Key, w: World, v: Event, q: Request)
    requires OverOne(k, w, v, q) && q.verdicts == [Quorum.Accepted, Quorum.Accepted, Quorum.Accepted]
    ensures Next(Quorum.THREE, k, w, Publish(q, true))
         == World(HeldByAll(k, FirstVersion(q)), [], w.signed + {FirstVersion(q)}, w.acked + {FirstVersion(q)})
  {
    OpenOneDecides(w, k, v, q);
    SignedIsSent(k, w, q, FirstVersion(q), true);
    FirstVersionKey(q);
    AcceptOver(k, w, q, FirstVersion(q), v);
  }

  lemma FirstVersionKey(q: Request)
    requires ValidChallenge(q.run)
    ensures RelayKey(FirstVersion(q)) == RunKey(q.run)
  {
    RunEventIsVersion(q.run, q.eventId, q.now);
  }

  lemma AcceptOver(k: Key, w: World, q: Request, e: Event, v: Event)
    requires w.stores == HeldByAll(k, v) && w.outbox == [] && RelayKey(e) == k && Beats(e, v)
    requires q.verdicts == [Quorum.Accepted, Quorum.Accepted, Quorum.Accepted]
    ensures AfterSend(Quorum.THREE, w, q, e, true) == World(HeldByAll(k, e), [], w.signed + {e}, w.acked + {e})
  {
    AfterAllAccept(k, w, q, e, true);
  }

  lemma SilentOverOne(k: Key, w: World, v: Event, q: Request)
    requires OverOne(k, w, v, q)
    requires q.verdicts == [Quorum.NoVerdict(false), Quorum.NoVerdict(false), Quorum.NoVerdict(false)]
    ensures Next(Quorum.THREE, k, w, Publish(q, true)) == w.(signed := w.signed + {FirstVersion(q)})
  {
    OpenOneDecides(w, k, v, q);
    SignedIsSent(k, w, q, FirstVersion(q), true);
    AfterSilence(w, q, FirstVersion(q), true);
  }

  lemma AcceptedOverNothing(k: Key, q: Request)
    requires ValidChallenge(q.run) && RunKey(q.run) == k && q.ifLatest.None? && q.complete == {0, 1, 2}
    requires q.verdicts == [Quorum.Accepted, Quorum.Accepted, Quorum.Accepted]
    ensures Next(Quorum.THREE, k, World([map[], map[], map[]], [], {}, {}), Publish(q, true))
         == World(HeldByAll(k, FirstVersion(q)), [], {FirstVersion(q)}, {FirstVersion(q)})
  {
    var w := World([map[], map[], map[]], [], {}, {});
    NothingIsRead(k, w, q);
    FirstVersionIsSent(Quorum.THREE, w, q, true);
    FirstVersionKey(q);
    AcceptOnEmpty(k, w, q, FirstVersion(q));
  }

  lemma NothingIsRead(k: Key, w: World, q: Request)
    requires w == World([map[], map[], map[]], [], {}, {})
    requires RunKey(q.run) == k && q.ifLatest.None? && q.complete == {0, 1, 2}
    ensures ReadsNothing(Quorum.THREE, w, q) && IdsIdentify(w.signed + {FirstVersion(q)})
  {
    NothingHeld(w, q.complete, k, q.now);
    AllOfThree();
  }

  lemma AcceptOnEmpty(k: Key, w: World, q: Request, e: Event)
    requires w == World([map[], map[], map[]], [], {}, {}) && RelayKey(e) == k
    requires q.verdicts == [Quorum.Accepted, Quorum.Accepted, Quorum.Accepted]
    ensures AfterSend(Quorum.THREE, w, q, e, true) == World(HeldByAll(k, e), [], {e}, {e})
  {
    AfterAllAccept(k, w, q, e, true);
    assert {} + {e} == {e};
  }

  lemma AllHeldTop(k: Key, e: Event)
    ensures Versions(HeldByAll(k, e), k) == {e} && Newest(Versions(HeldByAll(k, e), k), e)
  {
    var stores := HeldByAll(k, e);
    assert stores[0][k] == e;
    BeatsOrder(e, e);
  }

  /** Every relay holds the close, and an open version that beats it arrives late. */
  lemma LateOverClose(k: Key, w: World, close: Event, late: Event)
    requires Good(Quorum.THREE, k, w) && w.stores == HeldByAll(k, close) && w.acked != {}
    requires IsRun(close, k.author) && ClosedStatus(RunOf(close, k.author).status)
    requires late in w.signed && OpenVersion(late, k) && Beats(late, close)
    ensures ClosedNow(k, w) && ArrivesOpen(k, w, Deliver(0, late))
    ensures !ClosedNow(k, Next(Quorum.THREE, k, w, Deliver(0, late)))
  {
    AllHeldTop(k, close);
    assert ClosedTop(w.stores, k, close);
    assert VersionOf(late, k);
    StepKeepsClosedExactly(Quorum.THREE, k, w, Deliver(0, late));
  }

  // ---- The run ----

  /** An open run, an open update of it and its close, with the clocks and ids of their versions. */
  datatype Story = Story(first: Challenge, update: Challenge, close: Challenge, t0: u64, t1: u64,
                         id0: string, id1: string, id2: string)

  predicate Told(s: Story) {
    && ValidChallenge(s.first) && OpenStatus(s.first.status) && ValidChallenge(s.update) && OpenStatus(s.update.status)
    && ValidChallenge(s.close) && ClosedStatus(s.close.status)
    && RunKey(s.first) == RunKey(s.update) == RunKey(s.close)
    && s.t0 < s.t1 && s.id0 != s.id1 && s.id0 != s.id2 && LexLess(s.id1, s.id2)
  }

  function Start(s: Story): (a: Action) { Publish(ToAll(s.first, s.t0, s.id0, Quorum.Accepted), true) }

  /** The update times out everywhere, and no relay has it yet. */
  function Update(s: Story): (a: Action) { Publish(ToAll(s.update, s.t1, s.id1, Quorum.NoVerdict(false)), true) }

  /** The close, signed in the same second. */
  function Close(s: Story): (a: Action) { Publish(ToAll(s.close, s.t1, s.id2, Quorum.Accepted), true) }

  function Key0(s: Story): (k: Key) { RunKey(s.first) }

  function First(s: Story): (e: Event) { FirstVersion(Start(s).request) }

  function Updated(s: Story): (e: Event) { FirstVersion(Update(s).request) }

  function Closing(s: Story): (e: Event) { FirstVersion(Close(s).request) }

  lemma StoryVersions(s: Story)
    requires Told(s)
    ensures var k := Key0(s);
            && VersionOf(First(s), k) && VersionOf(Updated(s), k) && VersionOf(Closing(s), k)
            && OpenVersion(First(s), k) && OpenVersion(Updated(s), k)
            && ClosedStatus(RunOf(Closing(s), k.author).status)
  {
    RunEventIsVersion(s.first, s.id0, s.t0);
    RunEventIsVersion(s.update, s.id1, s.t1);
    RunEventIsVersion(s.close, s.id2, s.t1);
  }

  lemma StoryOrder(s: Story)
    requires Told(s)
    ensures Beats(Closing(s), First(s)) && Beats(Updated(s), Closing(s))
    ensures IdsIdentify({First(s), Updated(s), Closing(s)})
  {
    LexTrichotomy(s.id1, s.id2);
  }

  lemma AfterStart(s: Story)
    requires Told(s)
    ensures Run(Quorum.THREE, Key0(s), [Start(s)]) == World(HeldByAll(Key0(s), First(s)), [], {First(s)}, {First(s)})
  {
    assert [] + [Start(s)] == [Start(s)];
    RunOneMore(Quorum.THREE, Key0(s), [], Start(s));
    Initial(Key0(s));
    AcceptedOverNothing(Key0(s), Start(s).request);
  }

  lemma Initial(k: Key)
    ensures Run(Quorum.THREE, k, []) == World([map[], map[], map[]], [], {}, {})
  {
  }

  lemma RunOneMore(c: Quorum.Config, k: Key, actions: seq<Action>, a: Action)
    ensures Run(c, k, actions + [a]) == Next(c, k, Run(c, k, actions), a)
  {
    assert (actions + [a])[..|actions|] == actions;
  }

  lemma AfterUpdate(s: Story, w: World)
    requires Told(s) && Inv(Quorum.THREE, Key0(s), w)
    requires w == World(HeldByAll(Key0(s), First(s)), [], {First(s)}, {First(s)})
    ensures Next(Quorum.THREE, Key0(s), w, Update(s)) == w.(signed := {First(s), Updated(s)})
  {
    StoryVersions(s);
    StoryOrder(s);
    assert w.signed + {Updated(s)} == {First(s), Updated(s)};
    SilentOverOne(Key0(s), w, First(s), Update(s).request);
  }

  lemma AfterClose(s: Story, w: World)
    requires Told(s) && Inv(Quorum.THREE, Key0(s), w)
    requires w == World(HeldByAll(Key0(s), First(s)), [], {First(s), Updated(s)}, {First(s)})
    ensures Next(Quorum.THREE, Key0(s), w, Close(s))
         == World(HeldByAll(Key0(s), Closing(s)), [], {First(s), Updated(s), Closing(s)}, {First(s), Closing(s)})
  {
    StoryVersions(s);
    StoryOrder(s);
    assert w.signed + {Closing(s)} == {First(s), Updated(s), Closing(s)};
    AcceptedOverOne(Key0(s), w, First(s), Close(s).request);
    assert w.acked + {Closing(s)} == {First(s), Closing(s)};
  }

  function Story3(s: Story): (actions: seq<Action>) { [Start(s)] + [Update(s)] + [Close(s)] }

  lemma AfterStory(s: Story)
    requires Told(s)
    ensures Run(Quorum.THREE, Key0(s), Story3(s))
         == World(HeldByAll(Key0(s), Closing(s)), [], {First(s), Updated(s), Closing(s)}, {First(s), Closing(s)})
  {
    var c, k := Quorum.THREE, Key0(s);
    AfterStart(s);
    RunsAreGood(c, k, [Start(s)]);
    AfterUpdate(s, Run(c, k, [Start(s)]));
    RunOneMore(c, k, [Start(s)], Update(s));
    RunsAreGood(c, k, [Start(s)] + [Update(s)]);
    AfterClose(s, Run(c, k, [Start(s)] + [Update(s)]));
    RunOneMore(c, k, [Start(s)] + [Update(s)], Close(s));
  }

  /** The run is closed after the close, and the late copy of the update reopens it. */
  lemma LateUpdateReopens(s: Story)
    requires Told(s)
    ensures var k, w := Key0(s), Run(Quorum.THREE, Key0(s), Story3(s));
            && ClosedNow(k, w) && ArrivesOpen(k, w, Deliver(0, Updated(s)))
            && !ClosedNow(k, Next(Quorum.THREE, k, w, Deliver(0, Updated(s))))
  {
    AfterStory(s);
    StoryVersions(s);
    StoryOrder(s);
    RunsAreGood(Quorum.THREE, Key0(s), Story3(s));
    LateOverClose(Key0(s), Run(Quorum.THREE, Key0(s), Story3(s)), Closing(s), Updated(s));
  }
}
