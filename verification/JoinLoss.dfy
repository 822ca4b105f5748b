/** The smallest input on which a `join` costs a live run: a membership that only a missing relay holds. */
module JoinLoss {
  import opened Basics
  import opened Drafts
  import opened Latest
  import opened Roster
  import opened Runs
  import opened JoinGuard
  import opened JoinRelays
  import Quorum

  /** An acknowledged `left`, a later `join` that only relay 2 took, an acceptance and a run; then `join` at `now`. */
  datatype Story = Story(
    buyer: string, own: string, left: Event, joined: Event, decision: Event, run: Event, now: u64)

  predicate Told(t: Story) {
    && OwnIn(t, t.left, "left") && OwnIn(t, t.joined, "joined") && ValidHex(t.buyer) && ValidHex(t.own)
    && IsDecision(t.decision, t.buyer) && ParseDecision(t.decision, t.buyer).value.seller == t.own
    && ParseDecision(t.decision, t.buyer).value.decision == "accepted"
    && IsRun(t.run, t.buyer) && OpenStatus(RunOf(t.run, t.buyer).status)
    && t.left.createdAt < t.joined.createdAt <= RunOf(t.run, t.buyer).starts < t.now <= RunOf(t.run, t.buyer).ends
    && ParseMembership(t.joined, t.buyer).value.since <= RunOf(t.run, t.buyer).starts
    && Different([t.left.id, t.joined.id, t.decision.id, t.run.id])
  }

  predicate Different(ids: seq<string>) { forall a, b :: 0 <= a < b < |ids| ==> ids[a] != ids[b] }

  predicate OwnIn(t: Story, e: Event, status: string) {
    IsMembership(e, t.buyer) && e.author == t.own && ParseMembership(e, t.buyer).value.status == status
  }

  /** A parsed event is of its own kind only. */
  lemma Kinds(e: Event, buyer: string)
    ensures IsRun(e, buyer) ==> e.draft.kind == CHALLENGE_KIND
    ensures IsMembership(e, buyer) ==> e.draft.kind == MEMBERSHIP_KIND
    ensures IsDecision(e, buyer) ==> e.draft.kind == DECISION_KIND
  {
  }

  /** What the relays and the reads need to know of the four events. */
  predicate Sorted4(t: Story) {
    && RelayKey(t.left) == RelayKey(t.joined) == Key(t.own, MEMBERSHIP_KIND, t.buyer)
    && RelayKey(t.run).kind == CHALLENGE_KIND && RelayKey(t.decision).kind == DECISION_KIND
    && !IsMembership(t.run, t.buyer) && !IsMembership(t.decision, t.buyer)
    && !IsRun(t.left, t.buyer) && !IsRun(t.joined, t.buyer) && !IsRun(t.decision, t.buyer)
    && !IsDecision(t.left, t.buyer) && !IsDecision(t.joined, t.buyer) && !IsDecision(t.run, t.buyer)
  }

  lemma StoryKinds(t: Story)
    requires Told(t)
    ensures Sorted4(t)
  {
    Kinds(t.left, t.buyer);
    Kinds(t.joined, t.buyer);
    Kinds(t.run, t.buyer);
    Kinds(t.decision, t.buyer);
    MembershipKey(t.left, t.buyer);
    MembershipKey(t.joined, t.buyer);
  }

  // ---- The relays ----

  function StoreWith(t: Story, membership: Event): (st: Quorum.Store) {
    map[RelayKey(membership) := membership, RelayKey(t.run) := t.run, RelayKey(t.decision) := t.decision]
  }

  function Stores(t: Story): (stores: seq<Quorum.Store>) {
    [StoreWith(t, t.left), StoreWith(t, t.left), StoreWith(t, t.joined)]
  }

  lemma StoreContents(t: Story, membership: Event)
    requires RelayKey(membership).kind == MEMBERSHIP_KIND
    requires RelayKey(t.run).kind == CHALLENGE_KIND && RelayKey(t.decision).kind == DECISION_KIND
    ensures Quorum.Contents(StoreWith(t, membership)) == {membership, t.run, t.decision}
    ensures Quorum.Filed(StoreWith(t, membership)) && StoreWith(t, membership)[RelayKey(membership)] == membership
  {
    var st := StoreWith(t, membership);
    assert RelayKey(membership) in st && RelayKey(t.run) in st && RelayKey(t.decision) in st;
    assert st[RelayKey(membership)] == membership && st[RelayKey(t.run)] == t.run
        && st[RelayKey(t.decision)] == t.decision;
  }

  lemma HeldIsUnion(a: Quorum.Store, b: Quorum.Store, c: Quorum.Store)
    ensures AllHeld([a, b, c]) == Quorum.Contents(a) + Quorum.Contents(b) + Quorum.Contents(c)
  {
    var stores := [a, b, c];
    forall e | e in Quorum.Contents(a) + Quorum.Contents(b) + Quorum.Contents(c)
      ensures e in AllHeld(stores)
    {
      assert stores[0] == a && stores[1] == b && stores[2] == c;
    }
  }

  lemma StoryHeld(t: Story)
    requires Sorted4(t)
    ensures AllHeld(Stores(t)) == {t.left, t.joined, t.run, t.decision}
  {
    StoreContents(t, t.left);
    StoreContents(t, t.joined);
    HeldIsUnion(StoreWith(t, t.left), StoreWith(t, t.left), StoreWith(t, t.joined));
  }

  // ---- What `join` reads from relays 0 and 1 ----

  function Input(t: Story): (i: JoinInput) {
    JoinInput(t.buyer, t.own, [t.left, t.decision], true, Some([t.decision]), Some([t.run]), t.now, 30, None)
  }

  lemma StoryMemberships(t: Story)
    requires Told(t) && Sorted4(t)
    ensures ReadsMemberships(Stores(t), {0, 1}, {}, Input(t))
  {
    var stores, i := Stores(t), Input(t);
    StoreContents(t, t.left);
    assert OnComplete(stores, {0, 1}, t.left);
    forall r, k | 0 <= r < 3 && r in {0, 1} && k in stores[r] && OwnMembership(stores[r][k], i)
      ensures stores[r][k] in i.events
    {
      assert stores[r][k] in Quorum.Contents(StoreWith(t, t.left));
    }
  }

  lemma OneDecisionHeld(stores: seq<Quorum.Store>, i: JoinInput, x: Event)
    requires x in AllHeld(stores) && DecisionView(i) == [x]
    requires forall e :: e in AllHeld(stores) && e != x ==> !IsDecision(e, i.buyer)
    ensures ReadsDecisions(stores, i)
  {
  }

  lemma OneRunHeld(stores: seq<Quorum.Store>, buyer: string, x: Event)
    requires x in AllHeld(stores) && forall e :: e in AllHeld(stores) && e != x ==> !IsRun(e, buyer)
    ensures ListsRuns(stores, buyer, [x])
  {
  }

  lemma StoryDecisions(t: Story)
    requires Sorted4(t)
    ensures ReadsDecisions(Stores(t), Input(t)) && ListsRuns(Stores(t), t.buyer, [t.run])
  {
    StoryHeld(t);
    assert DecisionView(Input(t)) == [t.decision];
    OneOfEach(Stores(t), t, Input(t));
  }

  lemma OneOfEach(stores: seq<Quorum.Store>, t: Story, i: JoinInput)
    requires AllHeld(stores) == {t.left, t.joined, t.run, t.decision} && Sorted4(t)
    requires i.buyer == t.buyer && DecisionView(i) == [t.decision]
    ensures ReadsDecisions(stores, i) && ListsRuns(stores, t.buyer, [t.run])
  {
    OneDecisionHeld(stores, i, t.decision);
    OneRunHeld(stores, t.buyer, t.run);
  }

  lemma StoryOwn(t: Story)
    requires RelayKey(t.left) == RelayKey(t.joined) == OwnKey(Input(t))
    requires RelayKey(t.run).kind == CHALLENGE_KIND && RelayKey(t.decision).kind == DECISION_KIND
    requires OwnMembership(t.left, Input(t)) && OwnMembership(t.joined, Input(t))
    ensures forall r :: 0 <= r < 3 ==> Quorum.Filed(Stores(t)[r])
    ensures forall r :: 0 <= r < 3 && OwnKey(Input(t)) in Stores(t)[r]
                        ==> OwnMembership(Stores(t)[r][OwnKey(Input(t))], Input(t))
  {
    StoreContents(t, t.left);
    StoreContents(t, t.joined);
    forall r | 0 <= r < 3
      ensures Stores(t)[r] == StoreWith(t, t.left) || Stores(t)[r] == StoreWith(t, t.joined)
    {
    }
  }

  lemma StoryReads(t: Story)
    requires Told(t) && Sorted4(t)
    ensures JoinReads(Quorum.THREE, Stores(t), {0, 1}, {}, Input(t))
  {
    StoryMemberships(t);
    StoryDecisions(t);
    StoryOwn(t);
    TwoOfThree();
    ReadsTogether(Stores(t), {0, 1}, Input(t));
  }

  lemma ReadsTogether(stores: seq<Quorum.Store>, complete: set<nat>, i: JoinInput)
    requires |stores| == 3 && complete <= Quorum.Relays(3) && |complete| >= 2
    requires forall r :: 0 <= r < 3 ==> Quorum.Filed(stores[r])
    requires forall r :: 0 <= r < 3 && OwnKey(i) in stores[r] ==> OwnMembership(stores[r][OwnKey(i)], i)
    requires ReadsMemberships(stores, complete, {}, i) && ReadsDecisions(stores, i)
    requires i.strictRuns.Some? && ListsRuns(stores, i.buyer, i.strictRuns.value)
    ensures JoinReads(Quorum.THREE, stores, complete, {}, i)
  {
  }

  lemma TwoOfThree()
    ensures {0, 1} <= Quorum.Relays(3) && |{0, 1}| == 2
  {
  }

  // ---- The command sees no joined membership ----

  lemma StoryDate(t: Story)
    requires Sorted4(t) && t.left.createdAt < t.now
    ensures ReplacementTimestamp(t.now, Input(t).events, t.own, MEMBERSHIP_KIND, t.buyer) == Some(t.now)
  {
    var events := Input(t).events;
    var date := LatestDate(events, t.own, MEMBERSHIP_KIND, t.buyer);
    if date.Some? {
      var e :| e in events && OwnVersion(e, t.own, MEMBERSHIP_KIND, t.buyer) && e.createdAt == date.value;
      assert e == t.left;
    }
  }

  lemma StoryUnjoined(t: Story)
    requires Told(t) && Sorted4(t)
    ensures CurrentJoined(Input(t).events, t.buyer, t.own) == None
  {
    var events := Input(t).events;
    assert !JoinedBy(t.left, t.buyer, t.own) && !JoinedBy(t.decision, t.buyer, t.own);
    if CurrentJoined(events, t.buyer, t.own).Some? {
      CurrentJoinedIsAnEvent(events, t.buyer, t.own);
    }
  }

  lemma StoryPublishes(t: Story)
    requires Told(t) && Sorted4(t)
    ensures JoinCommand(Input(t)) == Publish(Membership(t.now, t.own, 30, "joined", ""), t.now)
  {
    StoryDate(t);
    StoryUnjoined(t);
  }

  // ---- What it costs ----

  lemma StoryNewest(t: Story)
    requires Told(t) && Sorted4(t)
    ensures Newest(MembershipsOf(AllHeld(Stores(t)), t.buyer, t.own), t.joined)
  {
    StoryHeld(t);
    LaterIsNewest(t.buyer, t.own, t.left, t.joined, t.run, t.decision);
  }

  lemma LaterIsNewest(buyer: string, own: string, a: Event, b: Event, x: Event, y: Event)
    requires !IsMembership(x, buyer) && !IsMembership(y, buyer) && IsMembership(b, buyer) && b.author == own
    requires a.createdAt < b.createdAt
    ensures Newest(MembershipsOf({a, b, x, y}, buyer, own), b)
  {
    BeatsOrder(b, b);
  }

  lemma StoryAccepted(t: Story)
    requires Told(t) && Sorted4(t)
    ensures SellerAccepted(AllHeld(Stores(t)), t.buyer, t.own)
  {
    StoryHeld(t);
    OneDecision(t.buyer, t.own, t.left, t.joined, t.run, t.decision);
  }

  lemma OneDecision(buyer: string, own: string, a: Event, b: Event, x: Event, d: Event)
    requires !IsDecision(a, buyer) && !IsDecision(b, buyer) && !IsDecision(x, buyer) && IsDecision(d, buyer)
    requires ParseDecision(d, buyer).value.seller == own && ParseDecision(d, buyer).value.decision == "accepted"
    ensures SellerAccepted({a, b, x, d}, buyer, own)
  {
    BeatsOrder(d, d);
    assert Newest(DecisionsOn({a, b, x, d}, buyer, own), d);
  }

  lemma LoneRun(e: Event, buyer: string)
    requires IsRun(e, buyer)
    ensures e in RunView([e], buyer)
  {
    BeatsOrder(e, e);
    assert VersionsOf(SeqSet([e]), buyer, RunOf(e, buyer).id) == {e};
    RunViewMeaning([e], buyer, e);
  }

  lemma StoryIds(t: Story, next: Event)
    requires Sorted4(t) && Different([t.left.id, t.joined.id, t.decision.id, t.run.id])
    requires next.id !in [t.left.id, t.joined.id, t.decision.id, t.run.id]
    ensures Identified(Stores(t), Input(t), next)
  {
    StoryHeld(t);
    FiveEvents(t.left, t.joined, t.decision, t.run, next);
    assert DecisionView(Input(t)) == [t.decision];
    InReach(t.left, t.joined, t.decision, t.run, AllHeld(Stores(t)));
  }

  lemma InReach(a: Event, b: Event, c: Event, d: Event, held: set<Event>)
    requires held == {a, b, d, c}
    ensures held + SeqSet([a, c]) + SeqSet([c]) == {a, b, c, d}
  {
  }

  lemma FiveEvents(a: Event, b: Event, c: Event, d: Event, e: Event)
    requires Different([a.id, b.id, c.id, d.id]) && e.id !in [a.id, b.id, c.id, d.id]
    ensures IdsIdentify({a, b, c, d} + {e}) && a != b && b != c
  {
    var ids := [a.id, b.id, c.id, d.id];
    assert ids[0] != ids[1] && ids[0] != ids[2] && ids[0] != ids[3] && ids[1] != ids[2] && ids[1] != ids[3]
        && ids[2] != ids[3];
    assert ids[0] in ids && ids[1] in ids && ids[2] in ids && ids[3] in ids;
  }

  lemma StoryCosts(t: Story, next: Event)
    requires Told(t) && next.createdAt == t.now
    ensures Costs(t.run, Input(t), t.joined, next) && Beats(next, t.joined) && t.joined !in Input(t).events
  {
    RunBuyer(t.run, t.buyer);
    var ids := [t.left.id, t.joined.id, t.decision.id, t.run.id];
    assert ids[0] != ids[1] && ids[1] != ids[2];
  }

  /**
   * An acknowledged `left`, a later `join` on one relay only, a live run: the next `join` costs the seller that
   * run.
   */
  lemma UnreadMembershipIsLost(t: Story, id: string)
    requires Told(t) && id !in [t.left.id, t.joined.id, t.decision.id, t.run.id]
    ensures var i := Input(t);
            && JoinReads(Quorum.THREE, Stores(t), {0, 1}, {}, i) && JoinCommand(i).Publish?
            && Loses([t.run], i.buyer, i.now, AllHeld(Stores(t)), i.own, NextOf(i, id))
  {
    StoryKinds(t);
    StoryReads(t);
    StoryDecisions(t);
    StoryPublishes(t);
    StoryNewest(t);
    StoryAccepted(t);
    LoneRun(t.run, t.buyer);
    StoryIds(t, NextOf(Input(t), id));
    StoryCosts(t, NextOf(Input(t), id));
    JoinLosesExactly(Quorum.THREE, Stores(t), {0, 1}, {}, Input(t), id, [t.run], t.joined);
  }

  // ---- Such events are published ----

  /** The events are the ones this program signs. */
  predicate SignedStory(t: Story, run: Challenge) {
    && t.buyer == run.buyer == t.run.author == t.decision.author && t.own == t.left.author == t.joined.author
    && t.left.draft == MembershipDraft(Membership(t.left.createdAt, t.own, 60, "left", ""), t.buyer)
    && t.joined.draft == MembershipDraft(Membership(t.joined.createdAt, t.own, 60, "joined", ""), t.buyer)
    && t.decision.draft == DecisionDraft(Decision(t.own, "accepted", None, ""), t.buyer)
    && t.run.draft == ChallengeDraft(run)
  }

  /** Signed events tell such a story, for every open run, every pair of keys and all such dates and ids. */
  lemma SignedStoriesAreTold(t: Story, run: Challenge)
    requires SignedStory(t, run) && ValidChallenge(run) && OpenStatus(run.status) && ValidHex(t.own)
    requires t.left.createdAt < t.joined.createdAt <= run.starts < t.now <= run.ends
    requires Different([t.left.id, t.joined.id, t.decision.id, t.run.id])
    ensures Told(t)
  {
    MembershipTold(t, Membership(t.left.createdAt, t.own, 60, "left", ""), t.left);
    MembershipTold(t, Membership(t.joined.createdAt, t.own, 60, "joined", ""), t.joined);
    DecisionTold(t, Decision(t.own, "accepted", None, ""), t.decision);
    RunTold(run, t.run);
    ToldFromParts(t, run);
  }

  lemma ToldFromParts(t: Story, run: Challenge)
    requires OwnIn(t, t.left, "left") && OwnIn(t, t.joined, "joined") && ValidHex(t.buyer) && ValidHex(t.own)
    requires ParseMembership(t.joined, t.buyer).value.since <= run.starts
    requires ParseDecision(t.decision, t.buyer) == Ok(Decision(t.own, "accepted", None, ""))
    requires IsRun(t.run, t.buyer) && RunOf(t.run, t.buyer) == run && OpenStatus(run.status)
    requires t.left.createdAt < t.joined.createdAt <= run.starts < t.now <= run.ends
    requires Different([t.left.id, t.joined.id, t.decision.id, t.run.id])
    ensures Told(t)
  {
  }

  lemma MembershipTold(t: Story, m: Membership, e: Event)
    requires ValidMembership(m, t.buyer) && m.seller == t.own == e.author && e.draft == MembershipDraft(m, t.buyer)
    ensures OwnIn(t, e, m.status) && ParseMembership(e, t.buyer).value.since == m.since
  {
    MembershipRoundTrip(m, t.buyer);
  }

  lemma DecisionTold(t: Story, x: Decision, e: Event)
    requires ValidDecision(x, t.buyer) && e.author == t.buyer && e.draft == DecisionDraft(x, t.buyer)
    ensures ParseDecision(e, t.buyer) == Ok(x)
  {
    DecisionRoundTrip(x, t.buyer);
  }

  lemma RunTold(run: Challenge, e: Event)
    requires ValidChallenge(run) && e.author == run.buyer && e.draft == ChallengeDraft(run)
    ensures IsRun(e, run.buyer) && RunOf(e, run.buyer) == run
  {
    ChallengeRoundTrip(run);
  }
}
