/** Exactly what the `publish` command answers, in terms of the versions that the relays and the outbox returned. */
module Deciding {
  import opened Basics
  import opened Drafts
  import opened Latest
  import opened Roster
  import opened Runs
  import opened Publishing
  import Quorum
  import Outbox

  predicate ClosedVersion(e: Event, k: Key) { IsRun(e, k.author) && ClosedStatus(RunOf(e, k.author).status) }

  /** The newest version of the set is completed or cancelled. */
  ghost predicate NewestIsClosed(s: set<Event>, k: Key) { exists x :: Newest(s, x) && ClosedVersion(x, k) }

  /** Nothing was expected, or the newest version of the set is the one expected. */
  ghost predicate AsExpected(s: set<Event>, ifLatest: Option<string>) {
    ifLatest.None? || exists x :: Newest(s, x) && x.id == ifLatest.value
  }

  /** What a read of the run's coordinate returned. */
  function Found(w: World, complete: set<nat>, k: Key, now: u64): (s: set<Event>) {
    SeqSet(ReadRun(w, complete, k, now))
  }

  /** An open update of a known run under a degraded read has to read every relay. */
  predicate MustReadAll(c: Quorum.Config, k: Key, w: World, q: Request) {
    q.complete != Quorum.Relays(c.n) && Found(w, q.complete, k, q.now) != {} && OpenStatus(q.run.status)
  }

  /** The relays behind the versions that the command decides on. */
  function Consulted(c: Quorum.Config, k: Key, w: World, q: Request): (complete: set<nat>) {
    if MustReadAll(c, k, w, q) then Quorum.Relays(c.n) else q.complete
  }

  predicate Attempted(c: Quorum.Config, q: Request) {
    ValidChallenge(q.run) && q.complete <= Quorum.Relays(c.n) && |q.complete| >= c.q
  }

  // ---- The three tests, by what was read ----

  lemma ClosedTest(c: Quorum.Config, k: Key, w: World, complete: set<nat>, now: u64)
    requires Inv(c, k, w)
    ensures ClosedStatusOf(ReadRun(w, complete, k, now), k.author, k.d).Some?
            <==> NewestIsClosed(Found(w, complete, k, now), k)
  {
    var s := Found(w, complete, k, now);
    ReadsAreSigned(c, k, w, complete, now);
    SelectByIdIsNewest(ReadRun(w, complete, k, now), k.author, k.d);
    if x :| Newest(s, x) && ClosedVersion(x, k) {
      SelectedIs(c, k, w, complete, now, x);
    }
  }

  lemma ExpectedTest(c: Quorum.Config, k: Key, w: World, complete: set<nat>, now: u64, ifLatest: Option<string>)
    requires Inv(c, k, w)
    ensures var latest := SelectRunEvent(ReadRun(w, complete, k, now), k.author, Some(k.d));
            (ifLatest.Some? && (latest.None? || latest.value.id != ifLatest.value))
            <==> !AsExpected(Found(w, complete, k, now), ifLatest)
  {
    ReadsAreSigned(c, k, w, complete, now);
    SelectByIdIsNewest(ReadRun(w, complete, k, now), k.author, k.d);
    ExpectedOf(Found(w, complete, k, now), SelectRunEvent(ReadRun(w, complete, k, now), k.author, Some(k.d)), ifLatest);
  }

  lemma ExpectedOf(s: set<Event>, latest: Option<Event>, ifLatest: Option<string>)
    requires if latest.Some? then Newest(s, latest.value) else s == {}
    ensures (ifLatest.Some? && (latest.None? || latest.value.id != ifLatest.value)) <==> !AsExpected(s, ifLatest)
  {
    if ifLatest.Some? && AsExpected(s, ifLatest) {
      var x :| Newest(s, x) && x.id == ifLatest.value;
      BeatsOrder(x, latest.value);
    }
  }

  lemma DateTest(c: Quorum.Config, k: Key, w: World, complete: set<nat>, now: u64)
    requires Inv(c, k, w) && k.kind == CHALLENGE_KIND
    ensures var created := ReplacementTimestamp(now, ReadRun(w, complete, k, now), k.author, CHALLENGE_KIND, k.d);
            && (created.Some? <==> RoomAbove(Found(w, complete, k, now), now))
            && (created.Some? ==> FirstFree(Found(w, complete, k, now), now, created.value))
  {
    var r := ReadRun(w, complete, k, now);
    ReadsAreSigned(c, k, w, complete, now);
    forall e | e in r
      ensures OwnVersion(e, k.author, k.kind, k.d)
    {
      VersionIsOwn(e, k);
    }
    assert OwnVersions(r, k.author, k.kind, k.d) == SeqSet(r);
    ReplacementIsFirstFree(now, r, k.author, k.kind, k.d);
  }

  // ---- The command ----

  lemma ReadsOn(c: Quorum.Config, k: Key, w: World, q: Request)
    requires RunKey(q.run) == k
    ensures var unread := MustReadAll(c, k, w, q) && !q.strictCompletes;
            Previous(c, w, q) == if unread then None else Some(ReadRun(w, Consulted(c, k, w, q), k, q.now))
  {
    var first := ReadRun(w, q.complete, k, q.now);
    assert first != [] ==> first[0] in SeqSet(first);
  }

  /**
   * The answer of every valid publish over a quorum read, whatever is on the relays and in the outbox: which versions
   * it rests on, and what each answer says about them.
   */
  lemma AnswersExactly(c: Quorum.Config, k: Key, w: World, q: Request)
    requires Inv(c, k, w) && RunKey(q.run) == k && Attempted(c, q)
    ensures var d, s := Decide(c, w, q), Found(w, Consulted(c, k, w, q), k, q.now);
            var closed := NewestIsClosed(Found(w, q.complete, k, q.now), k);
            var unread := MustReadAll(c, k, w, q) && !q.strictCompletes;
            && (d == ReadIncomplete <==> !closed && unread)
            && (d == Closed <==> closed || (!unread && NewestIsClosed(s, k)))
            && (d == Superseded <==> !closed && !unread && !NewestIsClosed(s, k) && !AsExpected(s, q.ifLatest))
            && (d == BadTimestamp <==> !closed && !unread && !NewestIsClosed(s, k) && AsExpected(s, q.ifLatest)
                                       && !RoomAbove(s, q.now))
            && (d.Signed? <==> !closed && !unread && !NewestIsClosed(s, k) && AsExpected(s, q.ifLatest)
                               && RoomAbove(s, q.now))
            && (d.Signed? ==> FirstFree(s, q.now, d.event.createdAt))
  {
    var complete := Consulted(c, k, w, q);
    ReadsOn(c, k, w, q);
    ClosedTest(c, k, w, q.complete, q.now);
    ClosedTest(c, k, w, complete, q.now);
    ExpectedTest(c, k, w, complete, q.now, q.ifLatest);
    DateTest(c, k, w, complete, q.now);
  }

  /** Exactly the publishes that are signed, and the second each is dated. */
  lemma SignsExactly(c: Quorum.Config, k: Key, w: World, q: Request)
    requires Inv(c, k, w) && RunKey(q.run) == k
    ensures var d, s := Decide(c, w, q), Found(w, Consulted(c, k, w, q), k, q.now);
            && (d.Signed? <==>
                && Attempted(c, q) && (MustReadAll(c, k, w, q) ==> q.strictCompletes)
                && !NewestIsClosed(Found(w, q.complete, k, q.now), k) && !NewestIsClosed(s, k)
                && AsExpected(s, q.ifLatest) && RoomAbove(s, q.now))
            && (d.Signed? ==> FirstFree(s, q.now, d.event.createdAt))
  {
    if Attempted(c, q) {
      AnswersExactly(c, k, w, q);
    }
  }

  /**
   * In every run: a valid publish that reads every relay, over an open newest version `top`, is signed if and only if
   * it expects nothing or expects `top`, and the second after `top` is within the tolerance of the clock. It is then
   * dated after `top`.
   */
  lemma UpdateIsSignedExactly(c: Quorum.Config, k: Key, past: seq<Action>, q: Request, top: Event)
    requires c.Strict() && RunKey(q.run) == k && ValidChallenge(q.run) && q.complete == Quorum.Relays(c.n)
    requires Newest(Versions(Run(c, k, past).stores, k), top) && OpenVersion(top, k)
    ensures var d := Decide(c, Run(c, k, past), q);
            && (d.Signed? <==> (q.ifLatest.None? || q.ifLatest.value == top.id)
                               && SatAdd(top.createdAt, 1) <= SatAdd(q.now, CREATED_AT_TOLERANCE))
            && (d.Signed? ==> d.event.createdAt == Max(q.now, SatAdd(top.createdAt, 1)))
  {
    var w := Run(c, k, past);
    RunsAreGood(c, k, past);
    FullReadSeesTop(c, k, w, q.now, top);
    ReadsAreSigned(c, k, w, q.complete, q.now);
    SignsExactly(c, k, w, q);
    TopDecides(Found(w, q.complete, k, q.now), k, q.ifLatest, q.now, top);
  }

  lemma TopDecides(s: set<Event>, k: Key, ifLatest: Option<string>, now: u64, top: Event)
    requires IdsIdentify(s) && Newest(s, top) && OpenVersion(top, k)
    ensures !NewestIsClosed(s, k) && (AsExpected(s, ifLatest) <==> ifLatest.None? || ifLatest.value == top.id)
    ensures RoomAbove(s, now) <==> SatAdd(top.createdAt, 1) <= SatAdd(now, CREATED_AT_TOLERANCE)
    ensures forall at: u64 :: FirstFree(s, now, at) ==> at == Max(now, SatAdd(top.createdAt, 1))
  {
    forall x | Newest(s, x)
      ensures x == top
    {
      BeatsOrder(x, top);
    }
  }

  /** The first publish of a run that no relay and no entry of the outbox knows is signed, dated by the clock. */
  lemma FirstPublishIsSigned(c: Quorum.Config, k: Key, w: World, q: Request)
    requires Inv(c, k, w) && RunKey(q.run) == k && Attempted(c, q) && Found(w, q.complete, k, q.now) == {}
    ensures var d := Decide(c, w, q);
            (d.Signed? <==> q.ifLatest.None?) && (d.Signed? ==> d.event.createdAt == q.now)
  {
    SignsExactly(c, k, w, q);
  }
}
