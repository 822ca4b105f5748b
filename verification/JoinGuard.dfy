/** Changing a membership while a run is on: the `join` command (crates/maxplayer-challenges/src/cli.rs). */
module JoinGuard {
  import opened Basics
  import opened Drafts
  import opened Latest
  import opened Roster
  import opened Runs

  /** `next` replaces the joined membership `m` of `own`: dated `created`, with its `since` kept. */
  predicate Republishes(next: Event, m: Event, own: string, buyer: string, created: u64) {
    && IsMembership(next, buyer) && next.author == own && next.createdAt == created
    && ParseMembership(next, buyer).value.status == "joined"
    && IsMembership(m, buyer) && m.author == own && ParseMembership(m, buyer).value.status == "joined"
    && ParseMembership(next, buyer).value.since == ParseMembership(m, buyer).value.since
  }

  /** Publishing `next` would cost `own` its place in run `c`. */
  predicate Forfeits(c: Challenge, s: set<Event>, own: string, next: Event) {
    SellerEligible(c, s, own) && !SellerEligible(c, s + {next}, own)
  }

  lemma NewestUnique(s: set<Event>, e: Event, f: Event)
    requires IdsIdentify(s) && Newest(s, e) && Newest(s, f)
    ensures e == f
  {
    BeatsOrder(e, f);
  }

  /** Decisions are untouched by a membership, so republishing keeps the acceptance. */
  lemma MembershipKeepsAcceptance(s: set<Event>, buyer: string, own: string, next: Event)
    requires IsMembership(next, buyer)
    ensures SellerAccepted(s + {next}, buyer, own) <==> SellerAccepted(s, buyer, own)
  {
    assert DecisionsOn(s + {next}, buyer, own) == DecisionsOn(s, buyer, own);
  }

  lemma EligibleByNewest(c: Challenge, s: set<Event>, own: string, m: Event)
    requires IdsIdentify(s) && Newest(MembershipsOf(s, c.buyer, own), m)
    ensures SellerEligible(c, s, own) <==> SellerAccepted(s, c.buyer, own) && Counts(m, c)
  {
    if SellerEligible(c, s, own) {
      var e :| e in s && Newest(MembershipsOf(s, c.buyer, own), e) && Counts(e, c);
      NewestUnique(MembershipsOf(s, c.buyer, own), e, m);
    }
  }

  /** Republishing forfeits a run exactly when the old date still counts for it and the new one does not. */
  lemma ForfeitMeaning(c: Challenge, s: set<Event>, own: string, m: Event, next: Event, created: u64)
    requires IdsIdentify(s + {next}) && SellerAccepted(s, c.buyer, own)
    requires Newest(MembershipsOf(s, c.buyer, own), m) && Republishes(next, m, own, c.buyer, created)
    requires m.createdAt < created
    ensures Forfeits(c, s, own, next) <==>
            m.createdAt <= c.starts && ParseMembership(m, c.buyer).value.since <= c.starts && created > c.starts
  {
    NextIsNewest(s, c.buyer, own, m, next, created);
    EligibleByNewest(c, s, own, m);
    EligibleByNewest(c, s + {next}, own, next);
    MembershipKeepsAcceptance(s, c.buyer, own, next);
  }

  lemma NextIsNewest(s: set<Event>, buyer: string, own: string, m: Event, next: Event, created: u64)
    requires Newest(MembershipsOf(s, buyer, own), m) && Republishes(next, m, own, buyer, created)
            && m.createdAt < created
    ensures Newest(MembershipsOf(s + {next}, buyer, own), next)
  {
    var before, after := MembershipsOf(s, buyer, own), MembershipsOf(s + {next}, buyer, own);
    assert after == before + {next};
    forall f | f in after
      ensures !Beats(f, next)
    {
      BeatsOrder(f, next);
      if f in before && f != next {
        assert !Beats(f, m);
      }
    }
  }

  /** A run that would be lost: open, still postable, in the latest run view, and forfeited by `next`. */
  predicate Loses(runs: seq<Event>, buyer: string, now: u64, s: set<Event>, own: string, next: Event) {
    exists e :: e in RunView(runs, buyer) && IsRun(e, buyer) && Live(RunOf(e, buyer), now)
                && Forfeits(RunOf(e, buyer), s, own, next)
  }

  /** The guard names a run if and only if the republish would forfeit some live run. */
  lemma GuardIsExact(
    runs: seq<Event>, buyer: string, s: set<Event>, own: string, m: Event, next: Event, now: u64, created: u64)
    requires IdsIdentify(s + {next}) && SellerAccepted(s, buyer, own)
    requires Newest(MembershipsOf(s, buyer, own), m) && Republishes(next, m, own, buyer, created)
    requires m.createdAt < created
    ensures BlockingChallenge(runs, buyer, m, ParseMembership(m, buyer).value.since, now, created).Some?
            <==> Loses(runs, buyer, now, s, own, next)
  {
    var since := ParseMembership(m, buyer).value.since;
    forall e | e in RunView(runs, buyer) && IsRun(e, buyer)
      ensures Blocking(e, buyer, m, since, now, created)
              <==> Live(RunOf(e, buyer), now) && Forfeits(RunOf(e, buyer), s, own, next)
    {
      ForfeitMeaning(RunOf(e, buyer), s, own, m, next, created);
    }
    var best := LastEnding(RunView(runs, buyer), buyer, m, since, now, created);
    if best.Some? {
      assert Loses(runs, buyer, now, s, own, next);
    }
  }

  // ---- The command ----

  /**
   * What one `join` sees: the trusted roster reads (`degraded` when a relay was missing), what the
   * every-relay reads of decisions and runs return (None when one fails), the clock and the options.
   */
  datatype JoinInput = JoinInput(
    buyer: string, own: string, events: seq<Event>, degraded: bool, strictDecisions: Option<seq<Event>>,
    strictRuns: Option<seq<Event>>, now: u64, minutes: u64, note: Option<string>)

  datatype JoinOutcome =
    | Unchanged
    | Refused(run: Challenge)
    | Unreadable
    | BadTimestamp
    | Invalid
    | Publish(membership: Membership, createdAt: u64)

  predicate JoinedBy(e: Event, buyer: string, own: string) {
    IsMembership(e, buyer) && e.author == own && ParseMembership(e, buyer).value.status == "joined"
  }

  function FindJoined(view: seq<Event>, buyer: string, own: string): (r: Option<Event>)
    ensures r.Some? ==> r.value in view && JoinedBy(r.value, buyer, own)
    ensures r.None? ==> forall e :: e in view ==> !JoinedBy(e, buyer, own)
  {
    if view == [] then None
    else if JoinedBy(view[0], buyer, own) then Some(view[0])
    else FindJoined(view[1..], buyer, own)
  }

  /** The caller's current `joined` membership in the resolved trusted view. */
  function CurrentJoined(events: seq<Event>, buyer: string, own: string): (r: Option<Event>)
    ensures r.Some? ==> JoinedBy(r.value, buyer, own)
  {
    FindJoined(View(Filter(events, (e: Event) => IsMembership(e, buyer) || IsDecision(e, buyer))), buyer, own)
  }

  lemma CurrentJoinedIsNewest(events: seq<Event>, buyer: string, own: string)
    requires IdsIdentify(SeqSet(events)) && CurrentJoined(events, buyer, own).Some?
    ensures Newest(MembershipsOf(SeqSet(events), buyer, own), CurrentJoined(events, buyer, own).value)
  {
    var valid := Filter(events, (e: Event) => IsMembership(e, buyer) || IsDecision(e, buyer));
    var m := CurrentJoined(events, buyer, own).value;
    ViewHoldsWinners(valid);
    forall f | f in MembershipsOf(SeqSet(events), buyer, own)
      ensures !Beats(f, m)
    {
      MembershipKeys(f, m, buyer);
    }
  }

  lemma CurrentJoinedIsAnEvent(events: seq<Event>, buyer: string, own: string)
    requires CurrentJoined(events, buyer, own).Some?
    ensures CurrentJoined(events, buyer, own).value in events
  {
    ViewHoldsEvents(Filter(events, (e: Event) => IsMembership(e, buyer) || IsDecision(e, buyer)));
  }

  /** The decisions acceptance is judged by: the strict read alone while degraded. */
  function DecisionView(i: JoinInput): (r: seq<Event>) {
    if i.degraded && i.strictDecisions.Some? then i.strictDecisions.value else i.events
  }

  /** `to_event_draft`: only a valid membership is printed. */
  function Drafted(m: Membership, buyer: string, created: u64): (r: JoinOutcome) {
    if ValidMembership(m, buyer) then Publish(m, created) else Invalid
  }

  function JoinCommand(i: JoinInput): (r: JoinOutcome) {
    var created := ReplacementTimestamp(i.now, i.events, i.own, MEMBERSHIP_KIND, i.buyer);
    var joined := CurrentJoined(i.events, i.buyer, i.own);
    if i.note.Some? && Utf16Length(i.note.value) > 4096 then Invalid
    else if created.None? then BadTimestamp
    else if joined.None? then
      Drafted(Membership(created.value, i.own, i.minutes, "joined", if i.note.Some? then i.note.value else ""),
              i.buyer, created.value)
    else ChangeJoined(i, joined.value, created.value)
  }

  /** A `join` over the caller's joined membership `m`. */
  function ChangeJoined(i: JoinInput, m: Event, created: u64): (r: JoinOutcome)
    requires JoinedBy(m, i.buyer, i.own)
  {
    var current := ParseMembership(m, i.buyer).value;
    if current.minutes == i.minutes && (i.note.None? || i.note.value == current.note) then Unchanged
    else if i.degraded && i.strictDecisions.None? then Unreadable
    else
      var accepted := i.own in AcceptedSellers(i.buyer, DecisionView(i));
      if accepted && i.strictRuns.None? then Unreadable
      else
        var blocking := if accepted
          then BlockingChallenge(i.strictRuns.value, i.buyer, m, current.since, i.now, created)
          else None;
        if blocking.Some? then Refused(blocking.value)
        else
          var note := if i.note.Some? then i.note.value else current.note;
          Drafted(current.(minutes := i.minutes, note := note), i.buyer, created)
  }

  /** Acceptance from the decision view, memberships from the roster reads. */
  function Trusted(i: JoinInput): (s: set<Event>) {
    (set e | e in DecisionView(i) && IsDecision(e, i.buyer)) + (set e | e in i.events && IsMembership(e, i.buyer))
  }

  lemma TrustedMeaning(i: JoinInput)
    requires IdsIdentify(SeqSet(i.events)) && IdsIdentify(SeqSet(DecisionView(i)))
    ensures i.own in AcceptedSellers(i.buyer, DecisionView(i)) <==> SellerAccepted(Trusted(i), i.buyer, i.own)
    ensures MembershipsOf(Trusted(i), i.buyer, i.own) == MembershipsOf(SeqSet(i.events), i.buyer, i.own)
  {
    AcceptedMeaning(i.buyer, DecisionView(i), i.own);
    assert DecisionsOn(Trusted(i), i.buyer, i.own) == DecisionsOn(SeqSet(DecisionView(i)), i.buyer, i.own);
  }

  lemma ReplacesNewer(i: JoinInput, m: Event, created: u64)
    requires JoinedBy(m, i.buyer, i.own) && m in i.events && m.createdAt < U64_MAX
    requires ReplacementTimestamp(i.now, i.events, i.own, MEMBERSHIP_KIND, i.buyer) == Some(created)
    ensures m.createdAt < created
  {
    KeyIsIdentifier(m.draft);
    assert OwnVersion(m, i.own, MEMBERSHIP_KIND, i.buyer);
  }

  /** What a published outcome puts on the relays. */
  function PublishedEvent(i: JoinInput, membership: Membership, created: u64, id: string): (e: Event) {
    Event(id, i.own, created, MembershipDraft(membership, i.buyer))
  }

  lemma ChangeFields(i: JoinInput, m: Event, created: u64)
    requires JoinedBy(m, i.buyer, i.own) && ChangeJoined(i, m, created).Publish?
    ensures var next := ChangeJoined(i, m, created).membership;
            && next.seller == i.own && next.status == "joined" && ValidMembership(next, i.buyer)
            && next.since == ParseMembership(m, i.buyer).value.since && next.minutes == i.minutes
            && next.note == if i.note.Some? then i.note.value else ParseMembership(m, i.buyer).value.note
  {
  }

  lemma ChangeRepublishes(i: JoinInput, m: Event, created: u64, id: string)
    requires JoinedBy(m, i.buyer, i.own) && ChangeJoined(i, m, created).Publish?
    ensures Republishes(PublishedEvent(i, ChangeJoined(i, m, created).membership, created, id), m, i.own, i.buyer,
            created)
  {
    ChangeFields(i, m, created);
    MembershipRoundTrip(ChangeJoined(i, m, created).membership, i.buyer);
  }

  lemma ChangeWasUnblocked(i: JoinInput, m: Event, created: u64)
    requires JoinedBy(m, i.buyer, i.own) && ChangeJoined(i, m, created).Publish?
    requires i.own in AcceptedSellers(i.buyer, DecisionView(i))
    ensures i.strictRuns.Some? && ChangeJoined(i, m, created).createdAt == created
    ensures BlockingChallenge(i.strictRuns.value, i.buyer, m, ParseMembership(m, i.buyer).value.since, i.now,
            created).None?
  {
  }

  /** The caller's newest membership, when joined, is the one the command works from. */
  lemma NewestIsCurrent(events: seq<Event>, buyer: string, own: string, m: Event)
    requires IdsIdentify(SeqSet(events)) && Newest(MembershipsOf(SeqSet(events), buyer, own), m)
            && JoinedBy(m, buyer, own)
    ensures CurrentJoined(events, buyer, own) == Some(m)
  {
    var valid := Filter(events, (e: Event) => IsMembership(e, buyer) || IsDecision(e, buyer));
    ViewHoldsWinners(valid);
    forall f | f in SeqSet(valid) && SameKey(f, m)
      ensures !Beats(f, m)
    {
      assert f in MembershipsOf(SeqSet(events), buyer, own);
    }
    assert Winner(SeqSet(valid), m) && m in View(valid);
    CurrentJoinedIsNewest(events, buyer, own);
    NewestUnique(MembershipsOf(SeqSet(events), buyer, own), CurrentJoined(events, buyer, own).value, m);
  }

  lemma ChangeRefused(i: JoinInput, m: Event, created: u64)
    requires JoinedBy(m, i.buyer, i.own) && ChangeJoined(i, m, created).Refused?
    ensures i.own in AcceptedSellers(i.buyer, DecisionView(i))
    ensures Blocks(ChangeJoined(i, m, created).run, m, ParseMembership(m, i.buyer).value.since, i.now, created)
    ensures ChangeJoined(i, m, created).run.buyer == i.buyer
  {
  }

  /** A refusal names a live run that republishing now would really cost. */
  lemma JoinRefusalIsNeeded(i: JoinInput, next: Event, created: u64)
    requires IdsIdentify(SeqSet(i.events)) && IdsIdentify(SeqSet(DecisionView(i)))
    requires JoinCommand(i).Refused?
    requires ReplacementTimestamp(i.now, i.events, i.own, MEMBERSHIP_KIND, i.buyer) == Some(created)
    requires CurrentJoined(i.events, i.buyer, i.own).Some?
            && CurrentJoined(i.events, i.buyer, i.own).value.createdAt < U64_MAX
    requires Republishes(next, CurrentJoined(i.events, i.buyer, i.own).value, i.own, i.buyer, created)
    requires IdsIdentify(Trusted(i) + {next})
    ensures Live(JoinCommand(i).run, i.now) && Forfeits(JoinCommand(i).run, Trusted(i), i.own, next)
  {
    var m := CurrentJoined(i.events, i.buyer, i.own).value;
    TrustedMeaning(i);
    CurrentJoinedIsAnEvent(i.events, i.buyer, i.own);
    CurrentJoinedIsNewest(i.events, i.buyer, i.own);
    ReplacesNewer(i, m, created);
    ChangeRefused(i, m, created);
    ForfeitMeaning(JoinCommand(i).run, Trusted(i), i.own, m, next, created);
  }
}
