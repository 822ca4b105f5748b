/** Exactly what the `join` command answers, in terms of the events it read (crates/maxplayer-challenges/src/cli.rs). */
module JoinAnswers {
  import opened Basics
  import opened Drafts
  import opened Latest
  import opened Roster
  import opened Runs
  import opened JoinGuard

  /** The caller's newest membership read, when it says joined. */
  predicate JoinedNow(i: JoinInput, m: Event) {
    Newest(MembershipsOf(SeqSet(i.events), i.buyer, i.own), m) && JoinedBy(m, i.buyer, i.own)
  }

  /** The request asks for nothing that membership `m` does not already say. */
  predicate AsksNothing(i: JoinInput, m: Event)
    requires IsMembership(m, i.buyer)
  {
    var current := ParseMembership(m, i.buyer).value;
    current.minutes == i.minutes && (i.note.None? || i.note.value == current.note)
  }

  predicate NoteFits(i: JoinInput) { i.note.Some? ==> Utf16Length(i.note.value) <= 4096 }

  /** The buyer accepts the caller: by the decisions of every relay, which a degraded roster read does not give. */
  predicate Accepted(i: JoinInput)
    requires i.degraded ==> i.strictDecisions.Some?
  {
    SellerAccepted(SeqSet(if i.degraded then i.strictDecisions.value else i.events), i.buyer, i.own)
  }

  /** Every read that the guard needs succeeded. */
  predicate GuardReads(i: JoinInput) {
    (i.degraded ==> i.strictDecisions.Some?) && (Accepted(i) ==> i.strictRuns.Some?)
  }

  /** An open run, up to fifteen minutes after its end. */
  predicate StillOn(c: Challenge, now: u64) {
    (c.status == "scheduled" || c.status == "in_progress") && now <= c.ends + 900
  }

  /** A live run counts membership `m` and would not count one dated `at`. */
  predicate CostsRun(i: JoinInput, m: Event, at: u64)
    requires IsMembership(m, i.buyer) && i.strictRuns.Some?
  {
    exists e :: e in RunView(i.strictRuns.value, i.buyer) && IsRun(e, i.buyer) && StillOn(RunOf(e, i.buyer), i.now)
                && Max(m.createdAt, ParseMembership(m, i.buyer).value.since) <= RunOf(e, i.buyer).starts < at
  }

  /** The guard stops a change of `m` that would be dated `at`. */
  predicate Guarded(i: JoinInput, m: Event, at: u64)
    requires IsMembership(m, i.buyer) && GuardReads(i)
  {
    Accepted(i) && CostsRun(i, m, at)
  }

  function Own(i: JoinInput): (s: set<Event>) { OwnVersions(i.events, i.own, MEMBERSHIP_KIND, i.buyer) }

  /** The request passes the tests made before the membership is looked at. */
  predicate Asked(i: JoinInput) { NoteFits(i) && RoomAbove(Own(i), i.now) }

  lemma JoinedNowIs(i: JoinInput, m: Event)
    requires IdsIdentify(SeqSet(i.events))
    ensures JoinedNow(i, m) <==> CurrentJoined(i.events, i.buyer, i.own) == Some(m)
  {
    if CurrentJoined(i.events, i.buyer, i.own) == Some(m) {
      CurrentJoinedIsNewest(i.events, i.buyer, i.own);
    }
    if JoinedNow(i, m) {
      NewestIsCurrent(i.events, i.buyer, i.own, m);
    }
  }

  lemma GuardedExactly(i: JoinInput, m: Event, at: u64)
    requires IsMembership(m, i.buyer) && i.strictRuns.Some?
    ensures BlockingChallenge(i.strictRuns.value, i.buyer, m, ParseMembership(m, i.buyer).value.since, i.now, at).Some?
            <==> CostsRun(i, m, at)
  {
    var view, since := RunView(i.strictRuns.value, i.buyer), ParseMembership(m, i.buyer).value.since;
    if CostsRun(i, m, at) {
      var e :| e in view && IsRun(e, i.buyer) && StillOn(RunOf(e, i.buyer), i.now)
               && Max(m.createdAt, since) <= RunOf(e, i.buyer).starts < at;
      assert Blocking(e, i.buyer, m, since, i.now, at);
    }
  }

  /** The caller, the buyer and the minutes are such as a membership may hold. */
  predicate ValidRequest(i: JoinInput) { ValidHex(i.buyer) && ValidHex(i.own) && 1 <= i.minutes <= 480 }

  /** What a request over the joined membership `m`, to be dated `at`, is answered. */
  lemma ChangeAnswers(i: JoinInput, m: Event, at: u64)
    requires IdsIdentify(SeqSet(i.events)) && IdsIdentify(SeqSet(DecisionView(i))) && JoinedBy(m, i.buyer, i.own)
    ensures var d := ChangeJoined(i, m, at);
            && (d == Unchanged <==> AsksNothing(i, m))
            && (d == Unreadable <==> !AsksNothing(i, m) && !GuardReads(i))
            && (d.Refused? <==> !AsksNothing(i, m) && GuardReads(i) && Guarded(i, m, at))
            && (d.Publish? <==> !AsksNothing(i, m) && GuardReads(i) && !Guarded(i, m, at) && ValidRequest(i))
            && (d.Publish? ==> d.createdAt == at)
            && d != BadTimestamp
  {
    if i.degraded ==> i.strictDecisions.Some? {
      AcceptedMeaning(i.buyer, DecisionView(i), i.own);
    }
    if i.strictRuns.Some? {
      GuardedExactly(i, m, at);
    }
  }

  lemma DatedFirst(i: JoinInput)
    ensures RoomAbove(Own(i), i.now) <==> Dated(i).Some?
    ensures forall at: u64 :: Dated(i).Some? && FirstFree(Own(i), i.now, at) ==> Dated(i) == Some(at)
  {
    ReplacementIsFirstFree(i.now, i.events, i.own, MEMBERSHIP_KIND, i.buyer);
  }

  function Dated(i: JoinInput): (at: Option<u64>) {
    ReplacementTimestamp(i.now, i.events, i.own, MEMBERSHIP_KIND, i.buyer)
  }

  lemma StoppedFirst(i: JoinInput)
    ensures JoinCommand(i) == BadTimestamp <==> NoteFits(i) && Dated(i).None?
    ensures !NoteFits(i) ==> JoinCommand(i) == Invalid
  {
    var joined := CurrentJoined(i.events, i.buyer, i.own);
    if joined.Some? && Dated(i).Some? {
      NeverBadTimestamp(i, joined.value, Dated(i).value);
    }
  }

  /** The tests made before the membership is looked at, and the second a new event would take. */
  lemma AskedFirst(i: JoinInput)
    ensures JoinCommand(i) == BadTimestamp <==> NoteFits(i) && !RoomAbove(Own(i), i.now)
    ensures !NoteFits(i) ==> JoinCommand(i) == Invalid
    ensures Asked(i) <==> NoteFits(i) && Dated(i).Some?
    ensures forall at: u64 :: Asked(i) && FirstFree(Own(i), i.now, at) ==> Dated(i) == Some(at)
  {
    DatedFirst(i);
    StoppedFirst(i);
  }

  lemma NeverBadTimestamp(i: JoinInput, m: Event, at: u64)
    requires JoinedBy(m, i.buyer, i.own)
    ensures ChangeJoined(i, m, at) != BadTimestamp
  {
  }

  /**
   * `join` by a caller whose newest membership read is not a joined one, or who has none: it publishes if and only if
   * the note fits, the new event can be dated and the request is valid, from the first free second on.
   */
  lemma FirstJoinExactly(i: JoinInput, at: u64)
    requires IdsIdentify(SeqSet(i.events)) && FirstFree(Own(i), i.now, at)
    requires forall m :: m in i.events ==> !JoinedNow(i, m)
    ensures JoinCommand(i).Publish? <==> Asked(i) && ValidRequest(i)
    ensures JoinCommand(i).Publish? ==>
              JoinCommand(i) == Publish(Membership(at, i.own, i.minutes, "joined",
                                                   if i.note.Some? then i.note.value else ""), at)
    ensures !JoinCommand(i).Publish? ==> JoinCommand(i) == Invalid || JoinCommand(i) == BadTimestamp
  {
    AskedFirst(i);
    var joined := CurrentJoined(i.events, i.buyer, i.own);
    if joined.Some? {
      CurrentJoinedIsAnEvent(i.events, i.buyer, i.own);
      JoinedNowIs(i, joined.value);
    }
  }

  lemma ChangeIsAsked(i: JoinInput, m: Event, at: u64)
    requires IdsIdentify(SeqSet(i.events)) && JoinedNow(i, m) && FirstFree(Own(i), i.now, at)
    ensures if Asked(i) then JoinCommand(i) == ChangeJoined(i, m, at)
            else JoinCommand(i) == Invalid || JoinCommand(i) == BadTimestamp
  {
    AskedFirst(i);
    JoinedNowIs(i, m);
  }

  /**
   * `join` by a caller joined through membership `m`: every answer it gives. It publishes if and only if the note fits,
   * the event can be dated, the request is valid and asks for a change, the guard could read what it needs, and no live
   * run would be lost. It keeps `since`, and the note unless another is asked for.
   */
  lemma ChangeJoinExactly(i: JoinInput, m: Event, at: u64)
    requires IdsIdentify(SeqSet(i.events)) && IdsIdentify(SeqSet(DecisionView(i)))
    requires JoinedNow(i, m) && FirstFree(Own(i), i.now, at)
    ensures var d, current := JoinCommand(i), ParseMembership(m, i.buyer).value;
            && (d == Unchanged <==> Asked(i) && AsksNothing(i, m))
            && (d == Unreadable <==> Asked(i) && !AsksNothing(i, m) && !GuardReads(i))
            && (d.Refused? <==> Asked(i) && !AsksNothing(i, m) && GuardReads(i) && Guarded(i, m, at))
            && (d.Publish? <==>
                Asked(i) && ValidRequest(i) && !AsksNothing(i, m) && GuardReads(i) && !Guarded(i, m, at))
            && (d.Publish? ==>
                  d == Publish(Membership(current.since, i.own, i.minutes, "joined",
                                          if i.note.Some? then i.note.value else current.note), at))
  {
    ChangeIsAsked(i, m, at);
    ChangeAnswers(i, m, at);
    if ChangeJoined(i, m, at).Publish? {
      ChangeFields(i, m, at);
    }
  }
}
