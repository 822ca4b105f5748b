/**
 * The `join` command against the relays (crates/maxplayer-challenges/src/cli.rs): what a published membership costs the
 * seller in the union of what all relays hold, and not only in what the command read.
 */
module JoinRelays {
  import opened Basics
  import opened Drafts
  import opened Latest
  import opened Roster
  import opened Runs
  import opened JoinGuard
  import Quorum

  /** Everything some relay holds. */
  function AllHeld(stores: seq<Quorum.Store>): (s: set<Event>) {
    set r, k | 0 <= r < |stores| && k in stores[r] :: stores[r][k]
  }

  function OwnKey(i: JoinInput): (k: Key) { Key(i.own, MEMBERSHIP_KIND, i.buyer) }

  predicate OwnMembership(e: Event, i: JoinInput) { IsMembership(e, i.buyer) && e.author == i.own }

  /** Some relay that answered holds `e`. */
  predicate OnComplete(stores: seq<Quorum.Store>, complete: set<nat>, e: Event) {
    exists r :: 0 <= r < |stores| && r in complete && e in Quorum.Contents(stores[r])
  }

  /** The caller's memberships come from the relays that answered and from its outbox. */
  predicate ReadsMemberships(stores: seq<Quorum.Store>, complete: set<nat>, queued: set<Event>, i: JoinInput) {
    && (forall e :: e in i.events && OwnMembership(e, i) ==> OnComplete(stores, complete, e) || e in queued)
    && (forall r, k :: 0 <= r < |stores| && r in complete && k in stores[r] && OwnMembership(stores[r][k], i)
                       ==> stores[r][k] in i.events)
  }

  /** `decisions` lists the buyer's decisions that some relay holds. */
  predicate ListsDecisions(stores: seq<Quorum.Store>, buyer: string, decisions: seq<Event>) {
    && (forall e :: e in decisions && IsDecision(e, buyer) ==> e in AllHeld(stores))
    && (forall e :: e in AllHeld(stores) && IsDecision(e, buyer) ==> e in decisions)
  }

  /** The roster read covers every relay unless it was degraded; then the strict read, if it succeeds, does. */
  predicate ReadsDecisions(stores: seq<Quorum.Store>, i: JoinInput) {
    if !i.degraded then ListsDecisions(stores, i.buyer, i.events)
    else i.strictDecisions.Some? ==> ListsDecisions(stores, i.buyer, i.strictDecisions.value)
  }

  /** `runs` lists the buyer's runs that some relay holds. */
  predicate ListsRuns(stores: seq<Quorum.Store>, buyer: string, runs: seq<Event>) {
    && (forall e :: e in runs && IsRun(e, buyer) ==> e in AllHeld(stores))
    && (forall e :: e in AllHeld(stores) && IsRun(e, buyer) ==> e in runs)
  }

  /**
   * What one `join` reads from relays that do not change meanwhile: a quorum `complete` for the roster, every relay for
   * the strict reads, and what the caller's outbox still queues, all of which met quorum.
   */
  ghost predicate JoinReads(
    c: Quorum.Config, stores: seq<Quorum.Store>, complete: set<nat>, queued: set<Event>, i: JoinInput)
  {
    && |stores| == c.n && complete <= Quorum.Relays(c.n) && |complete| >= c.q
    && (forall r :: 0 <= r < c.n ==> Quorum.Filed(stores[r]))
    && ReadsMemberships(stores, complete, queued, i) && ReadsDecisions(stores, i)
    && (i.strictRuns.Some? ==> ListsRuns(stores, i.buyer, i.strictRuns.value))
    && (forall e :: e in queued ==> RelayKey(e) == OwnKey(i) && Quorum.Durable(c, stores, e))
    && (forall r :: 0 <= r < c.n && OwnKey(i) in stores[r] ==> OwnMembership(stores[r][OwnKey(i)], i))
  }

  ghost predicate Identified(stores: seq<Quorum.Store>, i: JoinInput, next: Event) {
    IdsIdentify(AllHeld(stores) + SeqSet(i.events) + SeqSet(DecisionView(i)) + {next})
  }

  lemma IdentifiedParts(stores: seq<Quorum.Store>, i: JoinInput, next: Event)
    requires Identified(stores, i, next)
    ensures IdsIdentify(AllHeld(stores) + {next}) && IdsIdentify(AllHeld(stores))
    ensures IdsIdentify(SeqSet(i.events)) && IdsIdentify(SeqSet(DecisionView(i)))
  {
  }

  // ---- What publishing costs ----

  /** Publishing any joined membership costs a run exactly when it takes over and no longer counts for the run. */
  lemma ForfeitsExactly(c: Challenge, s: set<Event>, own: string, m: Event, next: Event)
    requires IdsIdentify(s + {next}) && Newest(MembershipsOf(s, c.buyer, own), m)
    requires JoinedBy(next, c.buyer, own)
    ensures Forfeits(c, s, own, next)
            <==> SellerAccepted(s, c.buyer, own) && Beats(next, m) && Counts(m, c) && !Counts(next, c)
  {
    var before, after := MembershipsOf(s, c.buyer, own), MembershipsOf(s + {next}, c.buyer, own);
    assert after == before + {next};
    MembershipKeepsAcceptance(s, c.buyer, own, next);
    EligibleByNewest(c, s, own, m);
    if Beats(next, m) {
      NewerIsNewest(before, m, next);
      EligibleByNewest(c, s + {next}, own, next);
    } else {
      assert Newest(after, m);
      EligibleByNewest(c, s + {next}, own, m);
    }
  }

  lemma NewerIsNewest(s: set<Event>, m: Event, next: Event)
    requires Newest(s, m) && Beats(next, m)
    ensures Newest(s + {next}, next)
  {
    forall f | f in s + {next}
      ensures !Beats(f, next)
    {
      BeatsOrder(f, next);
      if f in s && Beats(f, next) {
        BeatsTransitive(f, next, m);
      }
    }
  }

  /** The command was stopped by no run that the membership it worked from counts for. */
  lemma UnblockedRunCounts(i: JoinInput, m: Event, created: u64, e: Event, id: string)
    requires JoinedBy(m, i.buyer, i.own) && ChangeJoined(i, m, created).Publish?
    requires i.own in AcceptedSellers(i.buyer, DecisionView(i)) && i.strictRuns.Some?
    requires e in RunView(i.strictRuns.value, i.buyer) && IsRun(e, i.buyer) && Live(RunOf(e, i.buyer), i.now)
    requires Counts(m, RunOf(e, i.buyer))
    ensures Counts(PublishedEvent(i, ChangeJoined(i, m, created).membership, created, id), RunOf(e, i.buyer))
  {
    ChangeWasUnblocked(i, m, created);
    ChangeRepublishes(i, m, created, id);
    RunBuyer(e, i.buyer);
    var since := ParseMembership(m, i.buyer).value.since;
    assert !Blocking(e, i.buyer, m, since, i.now, created);
  }

  lemma RunBuyer(e: Event, buyer: string)
    requires IsRun(e, buyer)
    ensures RunOf(e, buyer).buyer == buyer
  {
  }

  // ---- What was read stands for what the relays hold ----

  lemma SameRuns(stores: seq<Quorum.Store>, buyer: string, a: seq<Event>, b: seq<Event>)
    requires ListsRuns(stores, buyer, a) && ListsRuns(stores, buyer, b) && IdsIdentify(AllHeld(stores))
    ensures RunView(a, buyer) == RunView(b, buyer)
  {
    var keep := (e: Event) => IsRun(e, buyer);
    var x, y := Filter(a, keep), Filter(b, keep);
    assert SeqSet(x) == SeqSet(y) <= AllHeld(stores);
    ViewDependsOnSet(x, y);
  }

  lemma AcceptedAtRelays(stores: seq<Quorum.Store>, i: JoinInput)
    requires ReadsDecisions(stores, i) && !(i.degraded && i.strictDecisions.None?)
    requires IdsIdentify(SeqSet(DecisionView(i)))
    ensures i.own in AcceptedSellers(i.buyer, DecisionView(i)) <==> SellerAccepted(AllHeld(stores), i.buyer, i.own)
  {
    AcceptedMeaning(i.buyer, DecisionView(i), i.own);
    var a, b := SeqSet(DecisionView(i)), AllHeld(stores);
    assert DecisionsOn(a, i.buyer, i.own) == DecisionsOn(b, i.buyer, i.own);
  }

  /** A queued membership met quorum, so nothing queued beats the newest one held. */
  lemma QueuedBelow(c: Quorum.Config, stores: seq<Quorum.Store>, i: JoinInput, f: Event, m: Event)
    requires c.Strict() && |stores| == c.n && RelayKey(f) == OwnKey(i) && Quorum.Durable(c, stores, f)
    requires forall r :: 0 <= r < c.n && OwnKey(i) in stores[r] ==> OwnMembership(stores[r][OwnKey(i)], i)
    requires Newest(MembershipsOf(AllHeld(stores), i.buyer, i.own), m)
    ensures !Beats(f, m)
  {
    var quorum: set<nat> :| quorum <= Quorum.Relays(c.n) && |quorum| >= c.q && Quorum.AllHold(stores, quorum, f);
    var r :| r in quorum;
    var h := stores[r][OwnKey(i)];
    assert h in MembershipsOf(AllHeld(stores), i.buyer, i.own);
    BeatsOrder(h, m);
    if Beats(f, m) && h != m && Beats(m, h) {
      BeatsTransitive(f, m, h);
    }
  }

  lemma ReadNewest(
    c: Quorum.Config, stores: seq<Quorum.Store>, complete: set<nat>, queued: set<Event>, i: JoinInput, m: Event)
    requires c.Strict() && JoinReads(c, stores, complete, queued, i) && IdsIdentify(AllHeld(stores))
    requires Newest(MembershipsOf(AllHeld(stores), i.buyer, i.own), m) && m in i.events
    ensures Newest(MembershipsOf(SeqSet(i.events), i.buyer, i.own), m)
  {
    forall f | f in MembershipsOf(SeqSet(i.events), i.buyer, i.own)
      ensures !Beats(f, m)
    {
      if f in queued {
        QueuedBelow(c, stores, i, f, m);
      } else {
        var r :| 0 <= r < |stores| && r in complete && f in Quorum.Contents(stores[r]);
        assert f in AllHeld(stores);
      }
    }
  }

  // ---- The command at the relays ----

  /** The run would be lost: it is live, the newest membership held counts for it and the published one does not. */
  predicate Costs(e: Event, i: JoinInput, m: Event, next: Event) {
    && IsRun(e, i.buyer) && Live(RunOf(e, i.buyer), i.now)
    && Counts(m, RunOf(e, i.buyer)) && !Counts(next, RunOf(e, i.buyer))
  }

  function NextOf(i: JoinInput, id: string): (e: Event)
    requires JoinCommand(i).Publish?
  {
    PublishedEvent(i, JoinCommand(i).membership, JoinCommand(i).createdAt, id)
  }

  lemma NextIsJoined(i: JoinInput, id: string)
    requires JoinCommand(i).Publish?
    ensures JoinedBy(NextOf(i, id), i.buyer, i.own) && NextOf(i, id).createdAt == JoinCommand(i).createdAt
    ensures ParseMembership(NextOf(i, id), i.buyer).value.since == JoinCommand(i).membership.since
  {
    PublishedFields(i);
    MembershipRoundTrip(JoinCommand(i).membership, i.buyer);
  }

  lemma PublishedFields(i: JoinInput)
    requires JoinCommand(i).Publish?
    ensures var m := JoinCommand(i).membership; m.seller == i.own && m.status == "joined" && ValidMembership(m, i.buyer)
  {
    var joined := CurrentJoined(i.events, i.buyer, i.own);
    if joined.Some? {
      PublishedByChange(i, joined.value);
      ChangeFields(i, joined.value, JoinCommand(i).createdAt);
    }
  }

  /** A membership that was read guards every run it counts for. */
  lemma ReadMembershipGuards(
    c: Quorum.Config, stores: seq<Quorum.Store>, complete: set<nat>, queued: set<Event>, i: JoinInput, id: string,
    runs: seq<Event>, m: Event, e: Event)
    requires c.Strict() && JoinReads(c, stores, complete, queued, i) && JoinCommand(i).Publish?
    requires Identified(stores, i, NextOf(i, id)) && ListsRuns(stores, i.buyer, runs)
    requires Newest(MembershipsOf(AllHeld(stores), i.buyer, i.own), m) && m in i.events
    requires SellerAccepted(AllHeld(stores), i.buyer, i.own) && e in RunView(runs, i.buyer)
    ensures !Costs(e, i, m, NextOf(i, id))
  {
    IdentifiedParts(stores, i, NextOf(i, id));
    ReadNewest(c, stores, complete, queued, i, m);
    if Costs(e, i, m, NextOf(i, id)) {
      RunBuyer(e, i.buyer);
      NewestIsCurrent(i.events, i.buyer, i.own, m);
      GuardSeesRun(stores, i, id, runs, m, e);
    }
  }

  lemma GuardSeesRun(stores: seq<Quorum.Store>, i: JoinInput, id: string, runs: seq<Event>, m: Event, e: Event)
    requires JoinCommand(i).Publish? && CurrentJoined(i.events, i.buyer, i.own) == Some(m)
    requires ReadsDecisions(stores, i) && IdsIdentify(SeqSet(DecisionView(i))) && IdsIdentify(AllHeld(stores))
    requires (i.strictRuns.Some? ==> ListsRuns(stores, i.buyer, i.strictRuns.value)) && ListsRuns(stores, i.buyer, runs)
    requires SellerAccepted(AllHeld(stores), i.buyer, i.own) && e in RunView(runs, i.buyer)
    requires IsRun(e, i.buyer) && Live(RunOf(e, i.buyer), i.now) && Counts(m, RunOf(e, i.buyer))
    ensures Counts(NextOf(i, id), RunOf(e, i.buyer))
  {
    var created := JoinCommand(i).createdAt;
    PublishedByChange(i, m);
    AcceptedAtRelays(stores, i);
    ChangeWasUnblocked(i, m, created);
    SameRuns(stores, i.buyer, runs, i.strictRuns.value);
    UnblockedRunCounts(i, m, created, e, id);
  }

  lemma PublishedByChange(i: JoinInput, m: Event)
    requires JoinCommand(i).Publish? && CurrentJoined(i.events, i.buyer, i.own) == Some(m)
    ensures ChangeJoined(i, m, JoinCommand(i).createdAt) == JoinCommand(i)
    ensures !(i.degraded && i.strictDecisions.None?)
  {
  }

  /**
   * A published `join` costs the seller a live run, judged by everything the relays hold, if and only if the caller's
   * newest membership was not read, the published one takes it over, and some live run counts the one and not the
   * other.
   */
  lemma JoinLosesExactly(
    c: Quorum.Config, stores: seq<Quorum.Store>, complete: set<nat>, queued: set<Event>, i: JoinInput, id: string,
    runs: seq<Event>, m: Event)
    requires c.Strict() && JoinReads(c, stores, complete, queued, i) && JoinCommand(i).Publish?
    requires Identified(stores, i, NextOf(i, id)) && ListsRuns(stores, i.buyer, runs)
    requires Newest(MembershipsOf(AllHeld(stores), i.buyer, i.own), m)
    ensures Loses(runs, i.buyer, i.now, AllHeld(stores), i.own, NextOf(i, id))
            <==> && m !in i.events && SellerAccepted(AllHeld(stores), i.buyer, i.own) && Beats(NextOf(i, id), m)
                 && exists e :: e in RunView(runs, i.buyer) && Costs(e, i, m, NextOf(i, id))
  {
    var s, next := AllHeld(stores), NextOf(i, id);
    NextIsJoined(i, id);
    IdentifiedParts(stores, i, next);
    forall e | e in RunView(runs, i.buyer) && IsRun(e, i.buyer)
      ensures Live(RunOf(e, i.buyer), i.now) && Forfeits(RunOf(e, i.buyer), s, i.own, next)
              <==> SellerAccepted(s, i.buyer, i.own) && Beats(next, m) && Costs(e, i, m, next)
    {
      RunBuyer(e, i.buyer);
      ForfeitsExactly(RunOf(e, i.buyer), s, i.own, m, next);
    }
    if e :| e in RunView(runs, i.buyer) && IsRun(e, i.buyer) && Live(RunOf(e, i.buyer), i.now)
            && Forfeits(RunOf(e, i.buyer), s, i.own, next)
    {
      if m in i.events {
        ReadMembershipGuards(c, stores, complete, queued, i, id, runs, m, e);
      }
    }
  }

  /** The caller's newest membership is read whenever it was acknowledged, whichever relays answer. */
  lemma AcknowledgedIsRead(
    c: Quorum.Config, stores: seq<Quorum.Store>, complete: set<nat>, queued: set<Event>, i: JoinInput, m: Event)
    requires c.Strict() && JoinReads(c, stores, complete, queued, i) && IdsIdentify(AllHeld(stores))
    requires Newest(MembershipsOf(AllHeld(stores), i.buyer, i.own), m) && RelayKey(m) == OwnKey(i)
    requires Quorum.Durable(c, stores, m)
    ensures m in i.events
  {
    var quorum: set<nat> :| quorum <= Quorum.Relays(c.n) && |quorum| >= c.q && Quorum.AllHold(stores, quorum, m);
    var r := Quorum.QuorumsIntersect(c.n, c.q, quorum, complete);
    HeldIsNewest(stores, i, r, m);
  }

  /** A relay that holds the newest membership or a version it does not beat holds the newest membership. */
  lemma HeldIsNewest(stores: seq<Quorum.Store>, i: JoinInput, r: nat, m: Event)
    requires r < |stores| && IdsIdentify(AllHeld(stores)) && RelayKey(m) == OwnKey(i) && Quorum.Holds(stores[r], m)
    requires OwnMembership(stores[r][OwnKey(i)], i) && Newest(MembershipsOf(AllHeld(stores), i.buyer, i.own), m)
    ensures stores[r][OwnKey(i)] == m
  {
    var h := stores[r][OwnKey(i)];
    assert h in AllHeld(stores);
    assert h in MembershipsOf(AllHeld(stores), i.buyer, i.own);
    BeatsOrder(h, m);
  }

  /** A published `join` never costs a live run when the caller's newest membership was acknowledged. */
  lemma JoinNeverForfeits(
    c: Quorum.Config, stores: seq<Quorum.Store>, complete: set<nat>, queued: set<Event>, i: JoinInput, id: string,
    runs: seq<Event>, m: Event)
    requires c.Strict() && JoinReads(c, stores, complete, queued, i) && JoinCommand(i).Publish?
    requires Identified(stores, i, NextOf(i, id)) && ListsRuns(stores, i.buyer, runs)
    requires Newest(MembershipsOf(AllHeld(stores), i.buyer, i.own), m) && Quorum.Durable(c, stores, m)
    ensures !Loses(runs, i.buyer, i.now, AllHeld(stores), i.own, NextOf(i, id))
  {
    IdentifiedParts(stores, i, NextOf(i, id));
    MembershipKey(m, i.buyer);
    AcknowledgedIsRead(c, stores, complete, queued, i, m);
    JoinLosesExactly(c, stores, complete, queued, i, id, runs, m);
  }

  lemma MembershipKey(m: Event, buyer: string)
    requires IsMembership(m, buyer)
    ensures RelayKey(m) == Key(m.author, MEMBERSHIP_KIND, buyer)
  {
    KeyIsIdentifier(m.draft);
  }

  /** A seller without a membership on any relay has nothing to lose. */
  lemma NothingToLose(stores: seq<Quorum.Store>, i: JoinInput, runs: seq<Event>, next: Event)
    requires MembershipsOf(AllHeld(stores), i.buyer, i.own) == {}
    ensures !Loses(runs, i.buyer, i.now, AllHeld(stores), i.own, next)
  {
    forall e | IsRun(e, i.buyer)
      ensures !SellerEligible(RunOf(e, i.buyer), AllHeld(stores), i.own)
    {
      RunBuyer(e, i.buyer);
    }
  }
}
