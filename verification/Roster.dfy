/** The accepted roster, eligibility for a run, and the roster-scoped reads that feed them. */
module Roster {
  import opened Basics
  import opened Drafts
  import opened Latest

  function ParseChallenge(e: Event, buyer: string): (r: Parsed<Challenge>) {
    ParseChallengeDraft(e.draft, e.author, buyer)
  }

  function ParseMembership(e: Event, buyer: string): (r: Parsed<Membership>) {
    ParseMembershipDraft(e.draft, e.author, buyer)
  }

  function ParseDecision(e: Event, buyer: string): (r: Parsed<Decision>) {
    ParseDecisionDraft(e.draft, e.author, buyer)
  }

  predicate IsDecision(e: Event, buyer: string) { ParseDecision(e, buyer).Ok? }

  predicate IsMembership(e: Event, buyer: string) { ParseMembership(e, buyer).Ok? }

  function ValidDecisions(buyer: string, events: seq<Event>): (r: seq<Event>)
    ensures forall e :: e in r <==> e in events && IsDecision(e, buyer)
  {
    Filter(events, (e: Event) => IsDecision(e, buyer))
  }

  /** Sellers whose latest valid buyer-signed decision is `accepted`. */
  function AcceptedSellers(buyer: string, events: seq<Event>): (r: set<string>) {
    set e | e in View(ValidDecisions(buyer, events)) && IsDecision(e, buyer)
            && ParseDecision(e, buyer).value.decision == "accepted" :: ParseDecision(e, buyer).value.seller
  }

  function RosterMemberships(buyer: string, accepted: set<string>, events: seq<Event>): (r: seq<Event>)
    ensures forall e :: e in r <==> e in events && e.author in accepted && IsMembership(e, buyer)
  {
    Filter(events, (e: Event) => e.author in accepted && IsMembership(e, buyer))
  }

  predicate Counts(e: Event, c: Challenge) {
    && e.createdAt <= c.starts && IsMembership(e, c.buyer)
    && ParseMembership(e, c.buyer).value.status == "joined"
    && ParseMembership(e, c.buyer).value.since <= c.starts
  }

  /** The memberships that count for `c`, in the order of the resolved view. */
  function Counted(view: seq<Event>, c: Challenge): (r: seq<Membership>)
    ensures forall m :: m in r <==> exists e :: e in view && Counts(e, c) && ParseMembership(e, c.buyer) == Ok(m)
  {
    if view == [] then []
    else
      var rest := Counted(view[..|view| - 1], c);
      var e := view[|view| - 1];
      assert view == view[..|view| - 1] + [e];
      if Counts(e, c) then rest + [ParseMembership(e, c.buyer).value] else rest
  }

  function EligibleSellers(c: Challenge, events: seq<Event>): (r: seq<Membership>) {
    Counted(View(RosterMemberships(c.buyer, AcceptedSellers(c.buyer, events), events)), c)
  }

  // ---- What eligibility means, seller by seller ----

  /** `e` is in `s` and no event of `s` beats it. */
  predicate Newest(s: set<Event>, e: Event) { e in s && forall f :: f in s ==> !Beats(f, e) }

  function DecisionsOn(s: set<Event>, buyer: string, seller: string): (r: set<Event>) {
    set e | e in s && IsDecision(e, buyer) && ParseDecision(e, buyer).value.seller == seller
  }

  function MembershipsOf(s: set<Event>, buyer: string, seller: string): (r: set<Event>) {
    set e | e in s && IsMembership(e, buyer) && e.author == seller
  }

  predicate SellerAccepted(s: set<Event>, buyer: string, seller: string) {
    exists e :: e in s && Newest(DecisionsOn(s, buyer, seller), e)
                && ParseDecision(e, buyer).value.decision == "accepted"
  }

  predicate SellerEligible(c: Challenge, s: set<Event>, seller: string) {
    && SellerAccepted(s, c.buyer, seller)
    && exists e :: e in s && Newest(MembershipsOf(s, c.buyer, seller), e) && Counts(e, c)
  }

  lemma DecisionKeys(e: Event, f: Event, buyer: string)
    requires IsDecision(e, buyer) && IsDecision(f, buyer)
    ensures SameKey(e, f) <==> ParseDecision(e, buyer).value.seller == ParseDecision(f, buyer).value.seller
  {
  }

  lemma MembershipKeys(e: Event, f: Event, buyer: string)
    requires IsMembership(e, buyer) && IsMembership(f, buyer)
    ensures SameKey(e, f) <==> e.author == f.author
  {
  }

  lemma AcceptedMeaning(buyer: string, events: seq<Event>, seller: string)
    requires IdsIdentify(SeqSet(events))
    ensures seller in AcceptedSellers(buyer, events) <==> SellerAccepted(SeqSet(events), buyer, seller)
  {
    var s, valid := SeqSet(events), ValidDecisions(buyer, events);
    ViewHoldsWinners(valid);
    forall e | e in s && IsDecision(e, buyer) && ParseDecision(e, buyer).value.seller == seller
      ensures e in View(valid) <==> Newest(DecisionsOn(s, buyer, seller), e)
    {
      forall f | f in s && IsDecision(f, buyer)
        ensures SameKey(f, e) <==> f in DecisionsOn(s, buyer, seller)
      {
        DecisionKeys(f, e, buyer);
      }
    }
  }

  /** The eligible list names a seller exactly when both of its latest records say so. */
  lemma EligibleMeaning(c: Challenge, events: seq<Event>, seller: string)
    requires IdsIdentify(SeqSet(events))
    ensures (exists m :: m in EligibleSellers(c, events) && m.seller == seller)
            <==> SellerEligible(c, SeqSet(events), seller)
  {
    var s, accepted := SeqSet(events), AcceptedSellers(c.buyer, events);
    var roster := RosterMemberships(c.buyer, accepted, events);
    AcceptedMeaning(c.buyer, events, seller);
    ViewHoldsWinners(roster);
    forall e | e in roster && e.author == seller
      ensures e in View(roster) <==> Newest(MembershipsOf(s, c.buyer, seller), e)
    {
      forall f | f in s && IsMembership(f, c.buyer)
        ensures SameKey(f, e) <==> f in MembershipsOf(s, c.buyer, seller)
      {
        MembershipKeys(f, e, c.buyer);
      }
    }
    if SellerEligible(c, s, seller) {
      var e :| e in s && Newest(MembershipsOf(s, c.buyer, seller), e) && Counts(e, c);
      assert e in View(roster) && ParseMembership(e, c.buyer).value in EligibleSellers(c, events);
    }
  }

  /** Only valid decisions and valid memberships of accepted authors matter, and only as sets. */
  lemma EligibleFrame(c: Challenge, a: seq<Event>, b: seq<Event>)
    requires IdsIdentify(SeqSet(a)) && IdsIdentify(SeqSet(b))
    requires SeqSet(ValidDecisions(c.buyer, a)) == SeqSet(ValidDecisions(c.buyer, b))
    requires forall e: Event :: e.author in AcceptedSellers(c.buyer, a) && IsMembership(e, c.buyer)
                                ==> (e in a <==> e in b)
    ensures AcceptedSellers(c.buyer, a) == AcceptedSellers(c.buyer, b)
    ensures EligibleSellers(c, a) == EligibleSellers(c, b)
  {
    ViewDependsOnSet(ValidDecisions(c.buyer, a), ValidDecisions(c.buyer, b));
    var accepted := AcceptedSellers(c.buyer, a);
    var x, y := RosterMemberships(c.buyer, accepted, a), RosterMemberships(c.buyer, accepted, b);
    assert SeqSet(x) == SeqSet(y);
    ViewDependsOnSet(x, y);
  }

  /** Events by keys that are neither the buyer nor accepted never change who is eligible. */
  lemma StrangersChangeNothing(c: Challenge, events: seq<Event>, strangers: seq<Event>)
    requires IdsIdentify(SeqSet(events + strangers))
    requires forall e :: e in strangers ==>
               e.author != c.buyer && e.author !in AcceptedSellers(c.buyer, events)
    ensures EligibleSellers(c, events + strangers) == EligibleSellers(c, events)
    ensures AcceptedSellers(c.buyer, events + strangers) == AcceptedSellers(c.buyer, events)
  {
    SeqSetConcat(events, strangers);
    EligibleFrame(c, events, events + strangers);
  }

  // ---- Roster-scoped reading ----

  const ROSTER_AUTHOR_CHUNK: nat := 100

  datatype RelayFilter = RelayFilter(kind: nat, authors: Option<set<string>>, d: Option<string>, p: Option<string>)

  /** A tag filter matches the second element of any tag of that name (NIP-01). */
  predicate HasTagValue(e: Event, name: string, v: string) {
    exists i :: 0 <= i < |e.draft.tags| && |e.draft.tags[i]| >= 2
                && e.draft.tags[i][0] == name && e.draft.tags[i][1] == v
  }

  predicate Matches(f: RelayFilter, e: Event) {
    && e.draft.kind == f.kind
    && (f.authors.Some? ==> e.author in f.authors.value)
    && (f.d.Some? ==> HasTagValue(e, "d", f.d.value))
    && (f.p.Some? ==> HasTagValue(e, "p", f.p.value))
  }

  function Fetch(all: seq<Event>, f: RelayFilter): (r: seq<Event>)
    ensures forall e :: e in r <==> e in all && Matches(f, e)
  {
    Filter(all, (e: Event) => Matches(f, e))
  }

  function DecisionFilter(buyer: string): (f: RelayFilter) {
    RelayFilter(DECISION_KIND, Some({buyer}), None, None)
  }

  function MembershipFilter(buyer: string, authors: set<string>): (f: RelayFilter) {
    RelayFilter(MEMBERSHIP_KIND, Some(authors), None, Some(buyer))
  }

  lemma {:induction false} ValueIsATag(tags: seq<Tag>, name: string, t: Tag)
    requires t in TagsNamed(tags, name)
    ensures t in tags && Named(t, name)
  {
    if !Named(tags[0], name) || t != tags[0] {
      ValueIsATag(tags[1..], name, t);
    }
  }

  lemma MembershipMatches(e: Event, buyer: string, authors: set<string>)
    requires IsMembership(e, buyer) && e.author in authors
    ensures Matches(MembershipFilter(buyer, authors), e)
  {
    var t := TagOf(e.draft, "p").value;
    ValueIsATag(e.draft.tags, "p", t);
    var i :| 0 <= i < |e.draft.tags| && e.draft.tags[i] == t;
  }

  method Enumerate(s: set<string>) returns (r: seq<string>)
    ensures SeqSet(r) == s
  {
    r := [];
    var rest := s;
    while rest != {}
      invariant SeqSet(r) + rest == s
      decreases rest
    {
      var x :| x in rest;
      r := r + [x];
      rest := rest - {x};
    }
  }

  lemma {:induction false} SeqSetSize<T>(s: seq<T>)
    ensures |SeqSet(s)| <= |s|
  {
    if s != [] {
      SeqSetSize(s[..|s| - 1]);
      FrontAndLast(s);
      assert SeqSet(s) == SeqSet(s[..|s| - 1]) + {s[|s| - 1]};
    }
  }

  lemma ChunksMatch(buyer: string, a: set<string>, b: set<string>, e: Event)
    ensures Matches(MembershipFilter(buyer, a + b), e)
            <==> Matches(MembershipFilter(buyer, a), e) || Matches(MembershipFilter(buyer, b), e)
  {
  }

  /** The membership reads, at most a hundred authors each: together they return what one read of all would. */
  method FetchMemberships(buyer: string, all: seq<Event>, authors: seq<string>)
    returns (events: seq<Event>, asked: seq<set<string>>)
    ensures forall e :: e in events <==> e in all && Matches(MembershipFilter(buyer, SeqSet(authors)), e)
    ensures forall k :: 0 <= k < |asked| ==> 0 < |asked[k]| <= ROSTER_AUTHOR_CHUNK
    ensures ROSTER_AUTHOR_CHUNK * (|asked| - 1) < Max(|authors|, 1) <= Max(ROSTER_AUTHOR_CHUNK * |asked|, 1)
  {
    events, asked := [], [];
    var i := 0;
    while i < |authors|
      invariant 0 <= i <= |authors| && (i < |authors| ==> i == ROSTER_AUTHOR_CHUNK * |asked|)
      invariant i <= ROSTER_AUTHOR_CHUNK * |asked| && ROSTER_AUTHOR_CHUNK * (|asked| - 1) < Max(i, 1)
      invariant forall e :: e in events <==> e in all && Matches(MembershipFilter(buyer, SeqSet(authors[..i])), e)
      invariant forall k :: 0 <= k < |asked| ==> 0 < |asked[k]| <= ROSTER_AUTHOR_CHUNK
    {
      var next := Min(i + ROSTER_AUTHOR_CHUNK, |authors|);
      var chunk := SeqSet(authors[i..next]);
      SeqSetSize(authors[i..next]);
      assert authors[i] in chunk;
      var page := Fetch(all, MembershipFilter(buyer, chunk));
      assert authors[..next] == authors[..i] + authors[i..next];
      SeqSetConcat(authors[..i], authors[i..next]);
      forall e
        ensures Matches(MembershipFilter(buyer, SeqSet(authors[..next])), e)
                <==> || Matches(MembershipFilter(buyer, SeqSet(authors[..i])), e)
                     || Matches(MembershipFilter(buyer, chunk), e)
      {
        ChunksMatch(buyer, SeqSet(authors[..i]), chunk, e);
      }
      events, asked := events + page, asked + [chunk];
      i := next;
    }
    assert authors[..i] == authors;
  }

  lemma DecisionsSuffice(buyer: string, all: seq<Event>, part: seq<Event>)
    requires IdsIdentify(SeqSet(all)) && (forall e :: e in part ==> e in all)
    requires forall e :: e in all && Matches(DecisionFilter(buyer), e) ==> e in part
    ensures SeqSet(ValidDecisions(buyer, part)) == SeqSet(ValidDecisions(buyer, all))
    ensures AcceptedSellers(buyer, part) == AcceptedSellers(buyer, all)
  {
    assert forall e :: IsDecision(e, buyer) ==> Matches(DecisionFilter(buyer), e);
    ViewDependsOnSet(ValidDecisions(buyer, part), ValidDecisions(buyer, all));
  }

  /**
   * The reads behind `status`, `members`, `join`, `leave` and `decide`: the buyer's decisions, then the
   * memberships of the accepted authors (and of `also`).
   */
  method ReadRoster(buyer: string, all: seq<Event>, also: set<string>) returns (events: seq<Event>)
    requires IdsIdentify(SeqSet(all))
    ensures forall c: Challenge | c.buyer == buyer :: EligibleSellers(c, events) == EligibleSellers(c, all)
    ensures AcceptedSellers(buyer, events) == AcceptedSellers(buyer, all)
    ensures forall e :: e in events ==> e in all
    ensures forall e :: e in all && IsMembership(e, buyer) && e.author in also ==> e in events
  {
    var decisions := Fetch(all, DecisionFilter(buyer));
    DecisionsSuffice(buyer, all, decisions);
    var authors := Enumerate(AcceptedSellers(buyer, decisions) + also);
    assert forall a :: a in AcceptedSellers(buyer, all) || a in also ==> a in SeqSet(authors) && a in authors;
    var memberships, asked := FetchMemberships(buyer, all, authors);
    forall e | e in all && IsMembership(e, buyer) && e.author in authors
      ensures e in memberships
    {
      MembershipMatches(e, buyer, SeqSet(authors));
    }
    events := memberships + decisions;
    DecisionsSuffice(buyer, all, events);
    forall c: Challenge | c.buyer == buyer
      ensures EligibleSellers(c, events) == EligibleSellers(c, all)
    {
      EligibleFrame(c, all, events);
    }
  }
}
