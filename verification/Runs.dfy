/** The pure decisions of the swarm commands (crates/maxplayer-challenges/src/cli.rs). */
module Runs {
  import opened Basics
  import opened Drafts
  import opened Latest
  import opened Roster

  const CREATED_AT_TOLERANCE: u64 := 900

  predicate IsRun(e: Event, buyer: string) { ParseChallenge(e, buyer).Ok? }

  function RunOf(e: Event, buyer: string): (c: Challenge)
    requires IsRun(e, buyer)
  {
    ParseChallenge(e, buyer).value
  }

  /** The latest valid version of every run of `buyer`. */
  function RunView(events: seq<Event>, buyer: string): (r: seq<Event>)
    ensures forall i :: 0 <= i < |r| ==> HasKey(r[i])
  {
    View(Filter(events, (e: Event) => IsRun(e, buyer)))
  }

  function VersionsOf(s: set<Event>, buyer: string, id: string): (r: set<Event>) {
    set e | e in s && IsRun(e, buyer) && RunOf(e, buyer).id == id
  }

  lemma RunViewMeaning(events: seq<Event>, buyer: string, e: Event)
    requires IdsIdentify(SeqSet(events))
    ensures e in RunView(events, buyer) <==>
            IsRun(e, buyer) && Newest(VersionsOf(SeqSet(events), buyer, RunOf(e, buyer).id), e)
  {
    var valid := Filter(events, (f: Event) => IsRun(f, buyer));
    ViewHoldsWinners(valid);
    if IsRun(e, buyer) {
      forall f | f in SeqSet(events) && IsRun(f, buyer)
        ensures SameKey(f, e) <==> RunOf(f, buyer).id == RunOf(e, buyer).id
      {
      }
    }
  }

  // ---- Choosing a run ----

  /** The order of the candidate list: newest version first, then the later start, then the lower id. */
  predicate Ahead(a: Event, b: Event, buyer: string)
    requires IsRun(a, buyer) && IsRun(b, buyer)
  {
    || a.createdAt > b.createdAt
    || (a.createdAt == b.createdAt
        && (|| RunOf(a, buyer).starts > RunOf(b, buyer).starts
            || (RunOf(a, buyer).starts == RunOf(b, buyer).starts && LexLess(a.id, b.id))))
  }

  lemma AheadTransitive(a: Event, b: Event, c: Event, buyer: string)
    requires IsRun(a, buyer) && IsRun(b, buyer) && IsRun(c, buyer)
    requires !Ahead(b, a, buyer) && !Ahead(c, b, buyer)
    ensures !Ahead(c, a, buyer)
  {
    LexTrichotomy(a.id, b.id);
    LexTrichotomy(b.id, c.id);
    if Ahead(c, a, buyer) && LexLess(c.id, a.id) && LexLess(a.id, b.id) {
      LexTransitive(c.id, a.id, b.id);
    } else if Ahead(c, a, buyer) && LexLess(b.id, c.id) && LexLess(c.id, a.id) {
      LexTransitive(b.id, c.id, a.id);
    }
  }

  predicate Candidate(e: Event, buyer: string, id: Option<string>) {
    IsRun(e, buyer) && (if id.None? then RunOf(e, buyer).status != "cancelled" else RunOf(e, buyer).id == id.value)
  }

  /** The first candidate of the sorted list. */
  function SelectRun(view: seq<Event>, buyer: string, id: Option<string>): (r: Option<Event>)
    ensures r.Some? ==> r.value in view && Candidate(r.value, buyer, id)
    ensures forall e :: e in view && Candidate(e, buyer, id) ==> r.Some? && !Ahead(e, r.value, buyer)
  {
    if view == [] then None
    else
      var e := view[|view| - 1];
      assert view == view[..|view| - 1] + [e];
      var best := SelectRun(view[..|view| - 1], buyer, id);
      if !Candidate(e, buyer, id) then best
      else if best.None? then LexTrichotomy(e.id, e.id); Some(e)
      else if Ahead(e, best.value, buyer) then NewFront(view, buyer, id, best.value, e); Some(e)
      else best
  }

  lemma NewFront(view: seq<Event>, buyer: string, id: Option<string>, best: Event, e: Event)
    requires view != [] && view[|view| - 1] == e
    requires Candidate(best, buyer, id) && Candidate(e, buyer, id) && Ahead(e, best, buyer)
    requires forall f :: f in view[..|view| - 1] && Candidate(f, buyer, id) ==> !Ahead(f, best, buyer)
    ensures forall f :: f in view && Candidate(f, buyer, id) ==> !Ahead(f, e, buyer)
  {
    assert view == view[..|view| - 1] + [e];
    LexTrichotomy(e.id, e.id);
    LexTrichotomy(e.id, best.id);
    forall f | f in view && Candidate(f, buyer, id)
      ensures !Ahead(f, e, buyer)
    {
      if f != e {
        AheadTransitive(e, best, f, buyer);
      }
    }
  }

  /**
   * Without an id the choice is a run that is not cancelled, and no other such run of the view has a newer version, or
   * one as new that starts later, or one as new that starts with it and has a lower id.
   */
  lemma SelectsNewestOpen(view: seq<Event>, buyer: string)
    ensures var r := SelectRun(view, buyer, None);
            && (r.None? <==> forall e :: e in view && IsRun(e, buyer) ==> RunOf(e, buyer).status == "cancelled")
            && (r.Some? ==>
                  && r.value in view && IsRun(r.value, buyer) && RunOf(r.value, buyer).status != "cancelled"
                  && forall e :: e in view && IsRun(e, buyer) && RunOf(e, buyer).status != "cancelled" ==>
                       && e.createdAt <= r.value.createdAt
                       && (e.createdAt == r.value.createdAt ==>
                             RunOf(e, buyer).starts <= RunOf(r.value, buyer).starts)
                       && (e.createdAt == r.value.createdAt && RunOf(e, buyer).starts == RunOf(r.value, buyer).starts
                           ==> e.id == r.value.id || LexLess(r.value.id, e.id)))
  {
    var r := SelectRun(view, buyer, None);
    forall e | e in view && IsRun(e, buyer) && RunOf(e, buyer).status != "cancelled"
      ensures r.Some? && !Ahead(e, r.value, buyer) && (LexLess(r.value.id, e.id) || LexLess(e.id, r.value.id)
              || e.id == r.value.id)
    {
      assert Candidate(e, buyer, None);
      LexTrichotomy(r.value.id, e.id);
    }
  }

  function SelectRunEvent(events: seq<Event>, buyer: string, id: Option<string>): (r: Option<Event>) {
    SelectRun(RunView(events, buyer), buyer, id)
  }

  /** Named by id, the selection is the newest valid version of that run, or nothing if there is none. */
  lemma SelectByIdIsNewest(events: seq<Event>, buyer: string, id: string)
    requires IdsIdentify(SeqSet(events))
    ensures var r := SelectRunEvent(events, buyer, Some(id));
            && (r.Some? ==> Newest(VersionsOf(SeqSet(events), buyer, id), r.value))
            && (r.None? ==> VersionsOf(SeqSet(events), buyer, id) == {})
  {
    var r := SelectRunEvent(events, buyer, Some(id));
    var versions := VersionsOf(SeqSet(events), buyer, id);
    if r.Some? {
      RunViewMeaning(events, buyer, r.value);
    } else if versions != {} {
      var e :| e in versions;
      var y := WinnerAbove(versions, e);
      assert Newest(versions, y);
      RunViewMeaning(events, buyer, y);
      assert Candidate(y, buyer, Some(id));
      assert false;
    }
  }

  /** The status of the newest valid version of run `id`, when that status is final. */
  function ClosedStatusOf(events: seq<Event>, buyer: string, id: string): (r: Option<string>) {
    var e := SelectRunEvent(events, buyer, Some(id));
    if e.Some? && ClosedStatus(RunOf(e.value, buyer).status) then Some(RunOf(e.value, buyer).status) else None
  }

  // ---- Replacement timestamps ----

  /** `Tags::identifier`: the value of the first usable `d` tag. */
  function Identifier(tags: seq<Tag>): (r: Option<string>) {
    if tags == [] then None
    else if Named(tags[0], "d") && |tags[0]| >= 2 then Some(tags[0][1])
    else Identifier(tags[1..])
  }

  predicate Identifies(t: Tag) { |t| >= 2 && t[0] == "d" }

  /** It is the first tag that identifies, whatever follows it. */
  lemma {:induction false} IdentifierIsFirst(tags: seq<Tag>, i: nat)
    requires i < |tags| && forall j :: 0 <= j < i ==> !Identifies(tags[j])
    ensures Identifier(tags) == if Identifies(tags[i]) then Some(tags[i][1]) else Identifier(tags[i + 1..])
  {
    if i > 0 {
      IdentifierIsFirst(tags[1..], i - 1);
      assert tags[1..][i..] == tags[i + 1..];
    }
  }

  /** The coordinate a relay files an event under; a missing identifier is the empty one. */
  function RelayKey(e: Event): (k: Key) {
    var d := Identifier(e.draft.tags);
    Key(e.author, e.draft.kind, if d.Some? then d.value else "")
  }

  lemma {:induction false} KeyIsIdentifier(d: Draft)
    requires Value(d, "d").Ok?
    ensures Identifier(d.tags) == Some(Value(d, "d").value)
    decreases |d.tags|
  {
    var rest := d.(tags := d.tags[1..]);
    if Named(d.tags[0], "d") {
      assert TagsNamed(d.tags, "d")[0] == d.tags[0];
    } else {
      KeyIsIdentifier(rest);
    }
  }

  predicate OwnVersion(e: Event, author: string, kind: nat, d: string) {
    e.author == author && e.draft.kind == kind && Identifier(e.draft.tags) == Some(d)
  }

  function LatestDate(events: seq<Event>, author: string, kind: nat, d: string): (r: Option<u64>)
    ensures forall e :: e in events && OwnVersion(e, author, kind, d) ==> r.Some? && e.createdAt <= r.value
    ensures r.Some? ==> exists e :: e in events && OwnVersion(e, author, kind, d) && e.createdAt == r.value
  {
    if events == [] then None
    else
      var e := events[|events| - 1];
      assert events == events[..|events| - 1] + [e];
      var before := LatestDate(events[..|events| - 1], author, kind, d);
      if !OwnVersion(e, author, kind, d) then before
      else if before.None? || before.value < e.createdAt then Some(e.createdAt)
      else before
  }

  function ReplacementTimestamp(now: u64, events: seq<Event>, author: string, kind: nat, d: string)
    : (r: Option<u64>)
    ensures r.Some? ==> now <= r.value <= SatAdd(now, CREATED_AT_TOLERANCE)
    ensures r.Some? ==> forall e :: e in events && OwnVersion(e, author, kind, d)
                                    ==> e.createdAt < r.value || e.createdAt == r.value == U64_MAX
    ensures r.None? ==>
              exists e :: e in events && OwnVersion(e, author, kind, d) && e.createdAt >= now + CREATED_AT_TOLERANCE
  {
    var previous := LatestDate(events, author, kind, d);
    var created := if previous.None? then now else Max(now, SatAdd(previous.value, 1));
    if created > SatAdd(now, CREATED_AT_TOLERANCE) then None else Some(created)
  }

  function OwnVersions(events: seq<Event>, author: string, kind: nat, d: string): (s: set<Event>) {
    set e | e in events && OwnVersion(e, author, kind, d)
  }

  /** A version dated one second after any of the set is within the tolerance of the clock. */
  predicate RoomAbove(s: set<Event>, now: u64) {
    forall e :: e in s ==> SatAdd(e.createdAt, 1) <= SatAdd(now, CREATED_AT_TOLERANCE)
  }

  /** The first second that is neither before the clock nor at or before a version of the set. */
  predicate FirstFree(s: set<Event>, now: u64, at: u64) {
    && now <= at && (forall e :: e in s ==> SatAdd(e.createdAt, 1) <= at)
    && (at == now || exists e :: e in s && at == SatAdd(e.createdAt, 1))
  }

  /** A replacement is dated, by the first free second, if and only if the second after each own version is in reach. */
  lemma ReplacementIsFirstFree(now: u64, events: seq<Event>, author: string, kind: nat, d: string)
    ensures var created, s := ReplacementTimestamp(now, events, author, kind, d), OwnVersions(events, author, kind, d);
            && (created.Some? <==> RoomAbove(s, now))
            && (created.Some? ==> FirstFree(s, now, created.value))
  {
    var s := OwnVersions(events, author, kind, d);
    var latest := LatestDate(events, author, kind, d);
    if latest.Some? {
      var e :| e in events && OwnVersion(e, author, kind, d) && e.createdAt == latest.value;
      assert e in s;
    } else {
      assert s == {};
    }
  }

  // ---- The guard on changing a membership during a run ----

  predicate Live(c: Challenge, now: u64) {
    OpenStatus(c.status) && now <= SatAdd(c.ends, CREATED_AT_TOLERANCE)
  }

  predicate Blocks(c: Challenge, membership: Event, since: u64, now: u64, created: u64) {
    Live(c, now) && created > c.starts && membership.createdAt <= c.starts && since <= c.starts
  }

  /** Later end first; on a tie the lower id. */
  predicate EndsAfter(a: Challenge, b: Challenge) {
    a.ends > b.ends || (a.ends == b.ends && LexLess(a.id, b.id))
  }

  lemma EndsAfterTransitive(a: Challenge, b: Challenge, c: Challenge)
    requires !EndsAfter(b, a) && !EndsAfter(c, b)
    ensures !EndsAfter(c, a)
  {
    LexTrichotomy(a.id, b.id);
    LexTrichotomy(b.id, c.id);
    if EndsAfter(c, a) && LexLess(c.id, a.id) && LexLess(a.id, b.id) {
      LexTransitive(c.id, a.id, b.id);
    } else if EndsAfter(c, a) && LexLess(b.id, c.id) && LexLess(c.id, a.id) {
      LexTransitive(b.id, c.id, a.id);
    }
  }

  predicate Blocking(e: Event, buyer: string, membership: Event, since: u64, now: u64, created: u64) {
    IsRun(e, buyer) && Blocks(RunOf(e, buyer), membership, since, now, created)
  }

  /** The blocking run of the view that ends last (`max_by`), as the event it was read from. */
  function LastEnding(view: seq<Event>, buyer: string, membership: Event, since: u64, now: u64, created: u64)
    : (r: Option<Event>)
    ensures r.Some? ==> r.value in view && Blocking(r.value, buyer, membership, since, now, created)
    ensures forall e :: e in view && Blocking(e, buyer, membership, since, now, created)
              ==> r.Some? && !EndsAfter(RunOf(e, buyer), RunOf(r.value, buyer))
  {
    if view == [] then None
    else
      var e := view[|view| - 1];
      assert view == view[..|view| - 1] + [e];
      var best := LastEnding(view[..|view| - 1], buyer, membership, since, now, created);
      if !Blocking(e, buyer, membership, since, now, created) then best
      else if best.None? then LexTrichotomy(RunOf(e, buyer).id, RunOf(e, buyer).id); Some(e)
      else if EndsAfter(RunOf(best.value, buyer), RunOf(e, buyer)) then
        LexTrichotomy(RunOf(best.value, buyer).id, RunOf(e, buyer).id); best
      else LastEndingMoves(view, buyer, membership, since, now, created, best.value, e); Some(e)
  }

  lemma LastEndingMoves(
    view: seq<Event>, buyer: string, membership: Event, since: u64, now: u64, created: u64, best: Event, e: Event)
    requires view != [] && view[|view| - 1] == e
    requires Blocking(best, buyer, membership, since, now, created)
    requires Blocking(e, buyer, membership, since, now, created)
    requires !EndsAfter(RunOf(best, buyer), RunOf(e, buyer))
    requires forall f :: f in view[..|view| - 1] && Blocking(f, buyer, membership, since, now, created)
               ==> !EndsAfter(RunOf(f, buyer), RunOf(best, buyer))
    ensures forall f :: f in view && Blocking(f, buyer, membership, since, now, created)
              ==> !EndsAfter(RunOf(f, buyer), RunOf(e, buyer))
  {
    assert view == view[..|view| - 1] + [e];
    LexTrichotomy(RunOf(e, buyer).id, RunOf(e, buyer).id);
    forall f | f in view && Blocking(f, buyer, membership, since, now, created)
      ensures !EndsAfter(RunOf(f, buyer), RunOf(e, buyer))
    {
      if f != e {
        EndsAfterTransitive(RunOf(e, buyer), RunOf(best, buyer), RunOf(f, buyer));
      }
    }
  }

  /** The run named ends last of all that block, and has the lower id of two that end together. */
  lemma NamesLastEnding(view: seq<Event>, buyer: string, membership: Event, since: u64, now: u64, created: u64)
    ensures var r := LastEnding(view, buyer, membership, since, now, created);
            r.Some? ==>
              && IsRun(r.value, buyer)
              && forall e :: e in view && Blocking(e, buyer, membership, since, now, created) ==>
                   && RunOf(e, buyer).ends <= RunOf(r.value, buyer).ends
                   && (RunOf(e, buyer).ends == RunOf(r.value, buyer).ends ==>
                         RunOf(e, buyer).id == RunOf(r.value, buyer).id
                         || LexLess(RunOf(r.value, buyer).id, RunOf(e, buyer).id))
  {
    var r := LastEnding(view, buyer, membership, since, now, created);
    forall e | e in view && Blocking(e, buyer, membership, since, now, created)
      ensures r.Some? && !EndsAfter(RunOf(e, buyer), RunOf(r.value, buyer))
              && (LexLess(RunOf(e, buyer).id, RunOf(r.value, buyer).id)
                  || LexLess(RunOf(r.value, buyer).id, RunOf(e, buyer).id)
                  || RunOf(e, buyer).id == RunOf(r.value, buyer).id)
    {
      LexTrichotomy(RunOf(e, buyer).id, RunOf(r.value, buyer).id);
    }
  }

  function BlockingChallenge(
    challenges: seq<Event>, buyer: string, membership: Event, since: u64, now: u64, created: u64)
    : (r: Option<Challenge>)
  {
    var e := LastEnding(RunView(challenges, buyer), buyer, membership, since, now, created);
    if e.Some? then Some(RunOf(e.value, buyer)) else None
  }
}
