/** Swarm-run drafts (crates/maxplayer-core/src/challenge.rs): tag printers and strict tag readers. */
module Drafts {
  import opened Basics
  import Json

  const CHALLENGE_KIND: nat := 30341
  const MEMBERSHIP_KIND: nat := 30342
  const DECISION_KIND: nat := 30343

  type Tag = seq<string>

  datatype Draft = Draft(kind: nat, tags: seq<Tag>, content: string)

  datatype Challenge = Challenge(
    buyer: string, id: string, title: string, goal: string, starts: u64, ends: u64,
    budget: u64, status: string, update: Option<string>, result: Option<string>)

  datatype Membership = Membership(since: u64, seller: string, minutes: u64, status: string, note: string)

  datatype Decision = Decision(
    seller: string, decision: string, membershipEvent: Option<string>, reason: string)

  type Parsed<T> = Result<T, string>

  // ---- Tag access ----

  predicate Named(t: Tag, name: string) { t != [] && t[0] == name }

  function TagsNamed(tags: seq<Tag>, name: string): (r: seq<Tag>) {
    if tags == [] then []
    else if Named(tags[0], name) then [tags[0]] + TagsNamed(tags[1..], name)
    else TagsNamed(tags[1..], name)
  }

  function TagOf(d: Draft, name: string): (r: Parsed<Tag>) {
    var found := TagsNamed(d.tags, name);
    if found == [] then Err("missing required tag")
    else if |found| > 1 then Err("duplicate tag")
    else Ok(found[0])
  }

  function Value(d: Draft, name: string): (r: Parsed<string>) {
    var t := TagOf(d, name);
    if t.Err? then Err(t.error)
    else if |t.value| != 2 then Err("invalid tag arity")
    else Ok(t.value[1])
  }

  function OptionalValue(d: Draft, name: string): (r: Parsed<Option<string>>) {
    if TagsNamed(d.tags, name) == [] then Ok(None)
    else
      var v := Value(d, name);
      if v.Err? then Err(v.error) else Ok(Some(v.value))
  }

  predicate AllDigits(s: string) { forall i :: 0 <= i < |s| ==> IsDigit(s[i]) }

  function Number(s: Parsed<string>): (r: Parsed<u64>) {
    if s.Err? then Err(s.error)
    else if s.value == [] || !AllDigits(s.value) then Err("invalid unsigned integer")
    else if DecimalValue(s.value) > U64_MAX then Err("integer out of range")
    else Ok(DecimalValue(s.value))
  }

  predicate ValidId(s: string) {
    1 <= |s| <= 64 && forall i :: 0 <= i < |s| ==> 'a' <= s[i] <= 'z' || IsDigit(s[i]) || s[i] == '-'
  }

  predicate ValidHex(s: string) { IsHex(s, 64) }

  predicate Base(d: Draft, kind: nat) {
    d.kind == kind && Value(d, "t") == Ok("maxplayer") && Value(d, "v") == Ok("1")
  }

  /** `char::is_whitespace`. */
  predicate IsWhitespace(c: char) {
    var n := c as int;
    || 9 <= n <= 13 || n == 32 || n == 0x85 || n == 0xA0 || n == 0x1680 || 0x2000 <= n <= 0x200A
    || n == 0x2028 || n == 0x2029 || n == 0x202F || n == 0x205F || n == 0x3000
  }

  predicate Blank(s: string) { forall i :: 0 <= i < |s| ==> IsWhitespace(s[i]) }

  /** `encode_utf16().count()`. */
  function Utf16Length(s: string): (n: nat)
    ensures |s| <= n <= 2 * |s|
  {
    if s == [] then 0 else (if s[0] as int >= 0x10000 then 2 else 1) + Utf16Length(s[1..])
  }

  // ---- Readers ----

  predicate OpenStatus(s: string) { s == "scheduled" || s == "in_progress" }

  predicate ClosedStatus(s: string) { s == "completed" || s == "cancelled" }

  function ParseChallengeDraft(d: Draft, author: string, buyer: string): (r: Parsed<Challenge>)
    ensures r.Ok? ==> d.kind == CHALLENGE_KIND && author == buyer == r.value.buyer
    ensures r.Ok? ==> Value(d, "d") == Ok(r.value.id)
    ensures r.Ok? ==> OpenStatus(r.value.status) || ClosedStatus(r.value.status)
  {
    var id, starts, ends := Value(d, "d"), Number(Value(d, "starts")), Number(Value(d, "ends"));
    var budgetTag := TagOf(d, "budget");
    var status, title := Value(d, "status"), Value(d, "title");
    var update, result := OptionalValue(d, "update"), OptionalValue(d, "result");
    if !Base(d, CHALLENGE_KIND) then Err("wrong kind, namespace or version")
    else if !ValidHex(buyer) || author != buyer then Err("wrong challenge author")
    else if id.Err? then Err(id.error)
    else if !ValidId(id.value) then Err("bad challenge d")
    else if starts.Err? then Err(starts.error)
    else if ends.Err? then Err(ends.error)
    else if ends.value <= starts.value then Err("invalid challenge times")
    else if budgetTag.Err? then Err(budgetTag.error)
    else if |budgetTag.value| != 3 || budgetTag.value[2] != "sat" then Err("invalid budget unit")
    else
      var budget := Number(Ok(budgetTag.value[1]));
      if budget.Err? then Err(budget.error)
      else if status.Err? then Err(status.error)
      else if !OpenStatus(status.value) && !ClosedStatus(status.value) then Err("unknown challenge status")
      else if title.Err? then Err(title.error)
      else if Blank(title.value) then Err("empty title")
      else if update.Err? then Err(update.error)
      else if result.Err? then Err(result.error)
      else Ok(Challenge(buyer, id.value, title.value, d.content, starts.value, ends.value,
                        budget.value, status.value, update.value, result.value))
  }

  /** The note a reader shows: none when the note or the printed tags are over the reader's limits. */
  function ReadableNote(d: Draft): (note: string) {
    if Utf16Length(d.content) > 4096 || Utf16Length(Json.PrintLists(d.tags)) > 16384 then "" else d.content
  }

  function ParseMembershipDraft(d: Draft, author: string, buyer: string): (r: Parsed<Membership>)
    ensures r.Ok? ==> d.kind == MEMBERSHIP_KIND && author == r.value.seller
    ensures r.Ok? ==> Value(d, "d") == Ok(buyer) && Value(d, "p") == Ok(buyer)
  {
    var since, minutes := Number(Value(d, "since")), Number(Value(d, "minutes"));
    var status := Value(d, "status");
    if !Base(d, MEMBERSHIP_KIND) then Err("wrong kind, namespace or version")
    else if !ValidHex(author) then Err("invalid seller key")
    else if !ValidHex(buyer) || Value(d, "p") != Ok(buyer) then Err("wrong buyer")
    else if Value(d, "d") != Ok(buyer) then Err("bad membership d")
    else if TagsNamed(d.tags, "a") != [] then Err("membership has a challenge reference")
    else if since.Err? then Err(since.error)
    else if minutes.Err? then Err(minutes.error)
    else if !(1 <= minutes.value <= 480) then Err("minutes must be 1..=480")
    else if status.Err? then Err(status.error)
    else if status.value != "joined" && status.value != "left" then Err("unknown membership status")
    else Ok(Membership(since.value, author, minutes.value, status.value, ReadableNote(d)))
  }

  function ParseDecisionDraft(d: Draft, author: string, buyer: string): (r: Parsed<Decision>)
    ensures r.Ok? ==> d.kind == DECISION_KIND && author == buyer && Value(d, "d") == Ok(r.value.seller)
  {
    var seller, decision, e := Value(d, "p"), Value(d, "decision"), OptionalValue(d, "e");
    if !Base(d, DECISION_KIND) then Err("wrong kind, namespace or version")
    else if !ValidHex(buyer) || author != buyer then Err("wrong decision author")
    else if TagsNamed(d.tags, "a") != [] then Err("decision has a challenge reference")
    else if seller.Err? then Err(seller.error)
    else if !ValidHex(seller.value) then Err("invalid seller key")
    else if Value(d, "d") != Ok(seller.value) then Err("bad decision d")
    else if decision.Err? then Err(decision.error)
    else if decision.value != "accepted" && decision.value != "denied" then Err("unknown decision")
    else if e.Err? then Err(e.error)
    else if e.value.Some? && !ValidHex(e.value.value) then Err("invalid membership event id")
    else Ok(Decision(seller.value, decision.value, e.value, d.content))
  }

  // ---- Printers ----

  function CommonTags(d: string): (r: seq<Tag>) { [["t", "maxplayer"], ["v", "1"], ["d", d]] }

  function OptionalTag(name: string, v: Option<string>): (r: seq<Tag>) {
    if v.Some? then [[name, v.value]] else []
  }

  function ChallengeDraft(c: Challenge): (d: Draft) {
    Draft(CHALLENGE_KIND,
          CommonTags(c.id)
          + [["title", c.title], ["starts", Decimal(c.starts)], ["ends", Decimal(c.ends)],
             ["status", c.status], ["budget", Decimal(c.budget), "sat"]]
          + OptionalTag("update", c.update) + OptionalTag("result", c.result),
          c.goal)
  }

  function MembershipDraft(m: Membership, buyer: string): (d: Draft) {
    Draft(MEMBERSHIP_KIND,
          CommonTags(buyer)
          + [["p", buyer], ["since", Decimal(m.since)], ["minutes", Decimal(m.minutes)], ["status", m.status]],
          m.note)
  }

  function DecisionDraft(x: Decision, buyer: string): (d: Draft) {
    Draft(DECISION_KIND,
          CommonTags(x.seller)
          + [["p", x.seller], ["decision", x.decision]] + OptionalTag("e", x.membershipEvent),
          x.reason)
  }

  // ---- Reading a printed draft ----

  lemma {:induction false} OnlyTag(tags: seq<Tag>, name: string, i: nat)
    requires i < |tags| && Named(tags[i], name)
    requires forall j :: 0 <= j < |tags| && j != i ==> !Named(tags[j], name)
    ensures TagsNamed(tags, name) == [tags[i]]
  {
    if i == 0 {
      NoTag(tags[1..], name);
    } else {
      OnlyTag(tags[1..], name, i - 1);
    }
  }

  lemma {:induction false} NoTag(tags: seq<Tag>, name: string)
    requires forall j :: 0 <= j < |tags| ==> !Named(tags[j], name)
    ensures TagsNamed(tags, name) == []
  {
    if tags != [] {
      NoTag(tags[1..], name);
    }
  }

  /** Every tag has a name and the names are pairwise different. */
  predicate DistinctNames(tags: seq<Tag>) {
    && (forall i :: 0 <= i < |tags| ==> tags[i] != [])
    && (forall i, j :: 0 <= i < j < |tags| ==> tags[i][0] != tags[j][0])
  }

  lemma ValueAt(d: Draft, i: nat)
    requires DistinctNames(d.tags) && i < |d.tags| && |d.tags[i]| == 2
    ensures Value(d, d.tags[i][0]) == Ok(d.tags[i][1])
    ensures OptionalValue(d, d.tags[i][0]) == Ok(Some(d.tags[i][1]))
  {
    OnlyTag(d.tags, d.tags[i][0], i);
  }

  lemma NumberOfDecimal(n: u64)
    ensures Number(Ok(Decimal(n))) == Ok(n)
  {
    DecimalRoundTrip(n);
  }

  predicate ValidChallenge(c: Challenge) {
    && ValidHex(c.buyer) && ValidId(c.id) && c.starts < c.ends && !Blank(c.title)
    && (OpenStatus(c.status) || ClosedStatus(c.status))
  }

  predicate ValidMembership(m: Membership, buyer: string) {
    ValidHex(buyer) && ValidHex(m.seller) && 1 <= m.minutes <= 480 && (m.status == "joined" || m.status == "left")
  }

  predicate ValidDecision(x: Decision, buyer: string) {
    && ValidHex(buyer) && ValidHex(x.seller) && (x.decision == "accepted" || x.decision == "denied")
    && (x.membershipEvent.Some? ==> ValidHex(x.membershipEvent.value))
  }

  /** Tags named one after the other from a list of different names. */
  lemma NamedInOrder(tags: seq<Tag>, names: seq<string>, at: seq<nat>)
    requires |at| == |tags| && (forall i, j :: 0 <= i < j < |names| ==> names[i] != names[j])
    requires forall i :: 0 <= i < |at| ==> at[i] < |names| && tags[i] != [] && tags[i][0] == names[at[i]]
    requires forall i, j :: 0 <= i < j < |at| ==> at[i] < at[j]
    ensures DistinctNames(tags)
    ensures forall k :: 0 <= k < |names| && k !in at ==> forall t :: t in tags ==> !Named(t, names[k])
  {
    forall k, t | 0 <= k < |names| && k !in at && t in tags
      ensures !Named(t, names[k])
    {
      var i :| 0 <= i < |tags| && tags[i] == t;
      assert at[i] in at;
    }
  }

  const CHALLENGE_NAMES: seq<string> :=
    ["t", "v", "d", "title", "starts", "ends", "status", "budget", "update", "result"]

  lemma ChallengeNamesDiffer()
    ensures forall i, j :: 0 <= i < j < |CHALLENGE_NAMES| ==> CHALLENGE_NAMES[i] != CHALLENGE_NAMES[j]
  {
  }

  /** Where each tag's name is in the list of names. */
  function NameIndices(c: Challenge): (at: seq<nat>) {
    [0, 1, 2, 3, 4, 5, 6, 7] + (if c.update.Some? then [8] else []) + (if c.result.Some? then [9] else [])
  }

  lemma ChallengeTagNames(c: Challenge)
    ensures var tags, at := ChallengeDraft(c).tags, NameIndices(c);
            && |tags| == |at|
            && forall i :: 0 <= i < |at| ==> at[i] < 10 && tags[i] != [] && tags[i][0] == CHALLENGE_NAMES[at[i]]
  {
  }

  lemma ChallengeNames(c: Challenge)
    ensures DistinctNames(ChallengeDraft(c).tags)
    ensures c.update.None? ==> forall t :: t in ChallengeDraft(c).tags ==> !Named(t, "update")
    ensures c.result.None? ==> forall t :: t in ChallengeDraft(c).tags ==> !Named(t, "result")
  {
    ChallengeTagNames(c);
    ChallengeNamesDiffer();
    NamedByIndex(c, ChallengeDraft(c).tags, NameIndices(c));
  }

  lemma NamedByIndex(c: Challenge, tags: seq<Tag>, at: seq<nat>)
    requires at == NameIndices(c) && |tags| == |at|
    requires forall i, j :: 0 <= i < j < |CHALLENGE_NAMES| ==> CHALLENGE_NAMES[i] != CHALLENGE_NAMES[j]
    requires forall i :: 0 <= i < |at| ==> at[i] < 10 && tags[i] != [] && tags[i][0] == CHALLENGE_NAMES[at[i]]
    ensures DistinctNames(tags)
    ensures c.update.None? ==> forall t :: t in tags ==> !Named(t, "update")
    ensures c.result.None? ==> forall t :: t in tags ==> !Named(t, "result")
  {
    NamedInOrder(tags, CHALLENGE_NAMES, at);
    assert CHALLENGE_NAMES[8] == "update" && CHALLENGE_NAMES[9] == "result";
  }

  lemma ChallengeFixedTags(c: Challenge, d: Draft)
    requires d == ChallengeDraft(c) && DistinctNames(d.tags)
    ensures Base(d, CHALLENGE_KIND) && Value(d, "d") == Ok(c.id) && Value(d, "title") == Ok(c.title)
    ensures Value(d, "starts") == Ok(Decimal(c.starts)) && Value(d, "ends") == Ok(Decimal(c.ends))
    ensures Value(d, "status") == Ok(c.status)
  {
    ValueAt(d, 0); ValueAt(d, 1); ValueAt(d, 2); ValueAt(d, 3);
    ValueAt(d, 4); ValueAt(d, 5); ValueAt(d, 6);
  }

  lemma ChallengeOtherTags(c: Challenge, d: Draft)
    requires d == ChallengeDraft(c) && DistinctNames(d.tags)
    requires c.update.None? ==> forall t :: t in d.tags ==> !Named(t, "update")
    requires c.result.None? ==> forall t :: t in d.tags ==> !Named(t, "result")
    ensures TagOf(d, "budget") == Ok(["budget", Decimal(c.budget), "sat"])
    ensures OptionalValue(d, "update") == Ok(c.update) && OptionalValue(d, "result") == Ok(c.result)
  {
    OnlyTag(d.tags, "budget", 7);
    if c.update.Some? { ValueAt(d, 8); } else { NoTag(d.tags, "update"); }
    if c.result.Some? { ValueAt(d, |d.tags| - 1); } else { NoTag(d.tags, "result"); }
  }

  /** A printed run reads back as itself; the printer refuses exactly the invalid runs. */
  lemma ChallengeRoundTrip(c: Challenge)
    ensures var r := ParseChallengeDraft(ChallengeDraft(c), c.buyer, c.buyer);
            (r.Ok? <==> ValidChallenge(c)) && (r.Ok? ==> r.value == c)
  {
    ChallengeNames(c);
    ChallengeFixedTags(c, ChallengeDraft(c));
    ChallengeOtherTags(c, ChallengeDraft(c));
    NumberOfDecimal(c.starts);
    NumberOfDecimal(c.ends);
    NumberOfDecimal(c.budget);
  }

  lemma MembershipTags(m: Membership, buyer: string, d: Draft)
    requires d == MembershipDraft(m, buyer)
    ensures Base(d, MEMBERSHIP_KIND) && Value(d, "d") == Ok(buyer) && Value(d, "p") == Ok(buyer)
    ensures Value(d, "since") == Ok(Decimal(m.since)) && Value(d, "minutes") == Ok(Decimal(m.minutes))
    ensures Value(d, "status") == Ok(m.status) && TagsNamed(d.tags, "a") == []
  {
    MembershipNames(m, buyer);
    ValueAt(d, 0); ValueAt(d, 1); ValueAt(d, 2); ValueAt(d, 3);
    ValueAt(d, 4); ValueAt(d, 5); ValueAt(d, 6);
    NoTag(d.tags, "a");
  }

  lemma MembershipNames(m: Membership, buyer: string)
    ensures DistinctNames(MembershipDraft(m, buyer).tags)
    ensures forall t :: t in MembershipDraft(m, buyer).tags ==> !Named(t, "a")
  {
    var names := ["t", "v", "d", "p", "since", "minutes", "status", "a"];
    assert forall i, j :: 0 <= i < j < |names| ==> names[i] != names[j];
    var tags := MembershipDraft(m, buyer).tags;
    assert forall i :: 0 <= i < 7 ==> tags[i] != [] && tags[i][0] == names[i];
  }

  /** A printed membership reads back as itself, except that a note over 4096 UTF-16 units is dropped. */
  lemma MembershipRoundTrip(m: Membership, buyer: string)
    ensures var r := ParseMembershipDraft(MembershipDraft(m, buyer), m.seller, buyer);
            && (r.Ok? <==> ValidMembership(m, buyer))
            && (r.Ok? ==> r.value == m.(note := if Utf16Length(m.note) > 4096 then "" else m.note))
  {
    var d := MembershipDraft(m, buyer);
    MembershipTags(m, buyer, d);
    if ValidMembership(m, buyer) {
      MembershipTagsAreSmall(m, buyer);
    }
    MembershipReads(m, buyer, d);
  }

  lemma MembershipReads(m: Membership, buyer: string, d: Draft)
    requires Base(d, MEMBERSHIP_KIND) && Value(d, "d") == Ok(buyer) && Value(d, "p") == Ok(buyer)
    requires Value(d, "since") == Ok(Decimal(m.since)) && Value(d, "minutes") == Ok(Decimal(m.minutes))
    requires Value(d, "status") == Ok(m.status) && TagsNamed(d.tags, "a") == [] && d.content == m.note
    requires ValidMembership(m, buyer) ==> Utf16Length(Json.PrintLists(d.tags)) <= 16384
    ensures var r := ParseMembershipDraft(d, m.seller, buyer);
            && (r.Ok? <==> ValidMembership(m, buyer))
            && (r.Ok? ==> r.value == m.(note := if Utf16Length(m.note) > 4096 then "" else m.note))
  {
    NumberOfDecimal(m.since);
    NumberOfDecimal(m.minutes);
  }

  lemma DecisionNames(x: Decision, buyer: string)
    ensures DistinctNames(DecisionDraft(x, buyer).tags)
    ensures forall t :: t in DecisionDraft(x, buyer).tags ==> !Named(t, "a")
    ensures x.membershipEvent.None? ==> forall t :: t in DecisionDraft(x, buyer).tags ==> !Named(t, "e")
  {
    var names := ["t", "v", "d", "p", "decision", "e", "a"];
    assert forall i, j :: 0 <= i < j < |names| ==> names[i] != names[j];
    var tags := DecisionDraft(x, buyer).tags;
    assert forall i :: 0 <= i < 5 ==> tags[i] != [] && tags[i][0] == names[i];
    assert x.membershipEvent.Some? ==> tags[5][0] == names[5];
  }

  lemma DecisionTags(x: Decision, buyer: string, d: Draft)
    requires d == DecisionDraft(x, buyer)
    ensures Base(d, DECISION_KIND) && Value(d, "d") == Ok(x.seller) && Value(d, "p") == Ok(x.seller)
    ensures Value(d, "decision") == Ok(x.decision) && TagsNamed(d.tags, "a") == []
    ensures OptionalValue(d, "e") == Ok(x.membershipEvent)
  {
    DecisionNames(x, buyer);
    ValueAt(d, 0); ValueAt(d, 1); ValueAt(d, 2); ValueAt(d, 3); ValueAt(d, 4);
    NoTag(d.tags, "a");
    if x.membershipEvent.Some? { ValueAt(d, 5); } else { NoTag(d.tags, "e"); }
  }

  lemma DecisionRoundTrip(x: Decision, buyer: string)
    ensures var r := ParseDecisionDraft(DecisionDraft(x, buyer), buyer, buyer);
            (r.Ok? <==> ValidDecision(x, buyer)) && (r.Ok? ==> r.value == x)
  {
    DecisionTags(x, buyer, DecisionDraft(x, buyer));
  }

  // ---- A valid membership's tags are always far below the reader's tag limit ----

  lemma {:induction false} EscapeLength(s: string)
    ensures |Json.Escape(s)| <= 6 * |s|
  {
    if s != [] {
      EscapeLength(s[1..]);
    }
  }

  lemma PairLength(a: string, b: string)
    ensures |Json.PrintStrings([a, b])| <= 6 * (|a| + |b|) + 7
  {
    EscapeLength(a);
    EscapeLength(b);
    assert [a, b][1..] == [b];
    assert Json.PrintItems([b]) == Json.Quote(b);
    assert Json.PrintItems([a, b]) == Json.Quote(a) + "," + Json.Quote(b);
  }

  lemma {:induction false} ListsLength(tags: seq<Tag>, bound: nat)
    requires forall i :: 0 <= i < |tags| ==> |Json.PrintStrings(tags[i])| <= bound
    ensures |Json.PrintListItems(tags)| <= |tags| * (bound + 1)
  {
    if |tags| > 1 {
      ListsLength(tags[1..], bound);
      assert |Json.PrintListItems(tags)|
          == |Json.PrintStrings(tags[0])| + 1 + |Json.PrintListItems(tags[1..])|;
      OneMoreRow(|tags| - 1, bound + 1);
    }
  }

  lemma OneMoreRow(n: nat, width: nat)
    ensures (n + 1) * width == width + n * width
  {
  }

  lemma MembershipTagsAreSmall(m: Membership, buyer: string)
    requires ValidMembership(m, buyer)
    ensures Utf16Length(Json.PrintLists(MembershipDraft(m, buyer).tags)) <= 16384
  {
    var tags := MembershipDraft(m, buyer).tags;
    DecimalLengthU64(m.since);
    DecimalLengthU64(m.minutes);
    forall i | 0 <= i < |tags|
      ensures |Json.PrintStrings(tags[i])| <= 500
    {
      assert tags[i] == [tags[i][0], tags[i][1]];
      PairLength(tags[i][0], tags[i][1]);
    }
    ListsLength(tags, 500);
  }
}
