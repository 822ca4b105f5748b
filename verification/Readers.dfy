/** Exactly the drafts that the strict readers accept, in any tag order (crates/maxplayer-core/src/challenge.rs). */
module Readers {
  import opened Basics
  import opened Drafts
  import Json

  /** `t` is a tag of the draft, and no other tag has that name. */
  predicate Sole(tags: seq<Tag>, t: Tag) {
    t != [] && exists i :: 0 <= i < |tags| && tags[i] == t && OnlyAt(tags, i)
  }

  predicate OnlyAt(tags: seq<Tag>, i: nat)
    requires i < |tags| && tags[i] != []
  {
    forall j :: 0 <= j < |tags| && j != i ==> !Named(tags[j], tags[i][0])
  }

  predicate Absent(tags: seq<Tag>, name: string) { forall t :: t in tags ==> !Named(t, name) }

  /** Some sole tag of that name holds a decimal text of `n`, leading zeros allowed. */
  predicate SoleNumber(tags: seq<Tag>, name: string, n: nat) {
    exists t :: t in tags && |t| == 2 && t[0] == name && Sole(tags, t) && IsNumeral(t[1], n)
  }

  predicate IsNumeral(s: string, n: nat) { s != [] && AllDigits(s) && DecimalValue(s) == n }

  predicate SoleOption(tags: seq<Tag>, name: string, v: Option<string>) {
    if v.Some? then Sole(tags, [name, v.value]) else Absent(tags, name)
  }

  // ---- Tags, one by one ----

  lemma {:induction false} TagsNamedEmpty(tags: seq<Tag>, name: string)
    ensures TagsNamed(tags, name) == [] <==> Absent(tags, name)
  {
    if tags != [] {
      assert tags == [tags[0]] + tags[1..];
      TagsNamedEmpty(tags[1..], name);
    }
  }

  lemma {:induction false} TagsNamedOne(tags: seq<Tag>, t: Tag)
    requires t != [] && TagsNamed(tags, t[0]) == [t]
    ensures Sole(tags, t)
  {
    if Named(tags[0], t[0]) {
      assert TagsNamed(tags, t[0])[1..] == TagsNamed(tags[1..], t[0]);
      TagsNamedEmpty(tags[1..], t[0]);
      assert TagsNamed(tags, t[0])[0] == tags[0];
      assert forall j :: 0 < j < |tags| ==> tags[j] in tags[1..];
      assert OnlyAt(tags, 0);
    } else {
      TagsNamedOne(tags[1..], t);
      var i :| 0 <= i < |tags[1..]| && tags[1..][i] == t && OnlyAt(tags[1..], i);
      assert forall j :: 0 < j < |tags| ==> tags[j] == tags[1..][j - 1];
      assert OnlyAt(tags, i + 1);
    }
  }

  lemma TagOfExactly(d: Draft, t: Tag)
    requires t != []
    ensures TagOf(d, t[0]) == Ok(t) <==> Sole(d.tags, t)
  {
    if TagOf(d, t[0]) == Ok(t) {
      TagsNamedOne(d.tags, t);
    }
    if Sole(d.tags, t) {
      var i :| 0 <= i < |d.tags| && d.tags[i] == t && OnlyAt(d.tags, i);
      OnlyTag(d.tags, t[0], i);
    }
  }

  lemma NamedTagOf(d: Draft, name: string)
    requires TagOf(d, name).Ok?
    ensures Named(TagOf(d, name).value, name) && TagOf(d, name).value in d.tags
  {
    TagsNamedMembers(d.tags, name);
    assert TagOf(d, name).value in TagsNamed(d.tags, name);
  }

  lemma {:induction false} TagsNamedMembers(tags: seq<Tag>, name: string)
    ensures forall t :: t in TagsNamed(tags, name) ==> Named(t, name) && t in tags
  {
    if tags != [] {
      TagsNamedMembers(tags[1..], name);
    }
  }

  lemma ValueExactly(d: Draft, name: string, v: string)
    ensures Value(d, name) == Ok(v) <==> Sole(d.tags, [name, v])
  {
    TagOfExactly(d, [name, v]);
    if TagOf(d, name).Ok? {
      NamedTagOf(d, name);
      var t := TagOf(d, name).value;
      assert |t| == 2 ==> t == [name, t[1]];
    }
  }

  lemma OptionalExactly(d: Draft, name: string, v: Option<string>)
    ensures OptionalValue(d, name) == Ok(v) <==> SoleOption(d.tags, name, v)
  {
    TagsNamedEmpty(d.tags, name);
    if v.Some? {
      ValueExactly(d, name, v.value);
      if Sole(d.tags, [name, v.value]) {
        assert Named([name, v.value], name);
      }
    }
  }

  lemma NumberExactly(d: Draft, name: string, n: u64)
    ensures Number(Value(d, name)) == Ok(n) <==> SoleNumber(d.tags, name, n)
  {
    if Value(d, name).Ok? {
      var v := Value(d, name).value;
      ValueExactly(d, name, v);
      if IsNumeral(v, n) {
        assert [name, v] in d.tags;
      }
    }
    if SoleNumber(d.tags, name, n) {
      var t :| t in d.tags && |t| == 2 && t[0] == name && Sole(d.tags, t) && IsNumeral(t[1], n);
      assert t == [name, t[1]];
      ValueExactly(d, name, t[1]);
    }
  }

  lemma BaseExactly(d: Draft, kind: nat)
    ensures Base(d, kind) <==> d.kind == kind && Sole(d.tags, ["t", "maxplayer"]) && Sole(d.tags, ["v", "1"])
  {
    ValueExactly(d, "t", "maxplayer");
    ValueExactly(d, "v", "1");
  }

  // ---- Runs ----

  /** The one budget tag says `n` sats. */
  predicate SoleBudget(tags: seq<Tag>, n: nat) {
    exists t :: t in tags && |t| == 3 && t[0] == "budget" && t[2] == "sat" && Sole(tags, t) && IsNumeral(t[1], n)
  }

  predicate BudgetRead(d: Draft, n: u64) {
    var t := TagOf(d, "budget");
    t.Ok? && |t.value| == 3 && t.value[2] == "sat" && Number(Ok(t.value[1])) == Ok(n)
  }

  lemma BudgetExactly(d: Draft, n: u64)
    ensures BudgetRead(d, n) <==> SoleBudget(d.tags, n)
  {
    if TagOf(d, "budget").Ok? {
      NamedTagOf(d, "budget");
      TagOfExactly(d, TagOf(d, "budget").value);
    }
    if SoleBudget(d.tags, n) {
      var t :| t in d.tags && |t| == 3 && t[0] == "budget" && t[2] == "sat" && Sole(d.tags, t) && IsNumeral(t[1], n);
      TagOfExactly(d, t);
    }
  }

  lemma RunReadBy(d: Draft, author: string, buyer: string, c: Challenge)
    ensures ParseChallengeDraft(d, author, buyer) == Ok(c) <==>
            && author == buyer == c.buyer && d.content == c.goal && ValidChallenge(c)
            && Base(d, CHALLENGE_KIND) && Value(d, "d") == Ok(c.id) && Value(d, "title") == Ok(c.title)
            && Value(d, "status") == Ok(c.status) && Number(Value(d, "starts")) == Ok(c.starts)
            && Number(Value(d, "ends")) == Ok(c.ends) && BudgetRead(d, c.budget)
            && OptionalValue(d, "update") == Ok(c.update) && OptionalValue(d, "result") == Ok(c.result)
  {
  }

  /**
   * A draft is read as run `c` if and only if `c` is valid, the author is its buyer, and its kind, its text and the one
   * tag of each name say what `c` says, in any order and beside any tags of other names. A repeated tag is never read.
   */
  lemma RunReadExactly(d: Draft, author: string, buyer: string, c: Challenge)
    ensures ParseChallengeDraft(d, author, buyer) == Ok(c) <==>
            && author == buyer == c.buyer && d.kind == CHALLENGE_KIND && d.content == c.goal && ValidChallenge(c)
            && Sole(d.tags, ["t", "maxplayer"]) && Sole(d.tags, ["v", "1"]) && Sole(d.tags, ["d", c.id])
            && Sole(d.tags, ["title", c.title]) && Sole(d.tags, ["status", c.status])
            && SoleNumber(d.tags, "starts", c.starts) && SoleNumber(d.tags, "ends", c.ends)
            && SoleBudget(d.tags, c.budget)
            && SoleOption(d.tags, "update", c.update) && SoleOption(d.tags, "result", c.result)
  {
    RunReadBy(d, author, buyer, c);
    BaseExactly(d, CHALLENGE_KIND);
    ValueExactly(d, "d", c.id);
    ValueExactly(d, "title", c.title);
    ValueExactly(d, "status", c.status);
    NumberExactly(d, "starts", c.starts);
    NumberExactly(d, "ends", c.ends);
    BudgetExactly(d, c.budget);
    OptionalExactly(d, "update", c.update);
    OptionalExactly(d, "result", c.result);
  }

  // ---- Memberships ----

  lemma MembershipReadBy(d: Draft, author: string, buyer: string, m: Membership)
    ensures ParseMembershipDraft(d, author, buyer) == Ok(m) <==>
            && author == m.seller && m.note == ReadableNote(d) && ValidMembership(m, buyer)
            && Base(d, MEMBERSHIP_KIND) && Value(d, "d") == Ok(buyer) && Value(d, "p") == Ok(buyer)
            && TagsNamed(d.tags, "a") == [] && Value(d, "status") == Ok(m.status)
            && Number(Value(d, "since")) == Ok(m.since) && Number(Value(d, "minutes")) == Ok(m.minutes)
  {
  }

  /** The same for memberships, which must also carry no `a` tag; the note is the text unless it is over the limits. */
  lemma MembershipReadExactly(d: Draft, author: string, buyer: string, m: Membership)
    ensures ParseMembershipDraft(d, author, buyer) == Ok(m) <==>
            && author == m.seller && d.kind == MEMBERSHIP_KIND && ValidMembership(m, buyer)
            && m.note == (if Utf16Length(d.content) > 4096 || Utf16Length(Json.PrintLists(d.tags)) > 16384 then ""
                          else d.content)
            && Sole(d.tags, ["t", "maxplayer"]) && Sole(d.tags, ["v", "1"]) && Sole(d.tags, ["d", buyer])
            && Sole(d.tags, ["p", buyer]) && Sole(d.tags, ["status", m.status]) && Absent(d.tags, "a")
            && SoleNumber(d.tags, "since", m.since) && SoleNumber(d.tags, "minutes", m.minutes)
  {
    MembershipReadBy(d, author, buyer, m);
    BaseExactly(d, MEMBERSHIP_KIND);
    ValueExactly(d, "d", buyer);
    ValueExactly(d, "p", buyer);
    ValueExactly(d, "status", m.status);
    TagsNamedEmpty(d.tags, "a");
    NumberExactly(d, "since", m.since);
    NumberExactly(d, "minutes", m.minutes);
  }

  // ---- Decisions ----

  lemma DecisionReadBy(d: Draft, author: string, buyer: string, x: Decision)
    ensures ParseDecisionDraft(d, author, buyer) == Ok(x) <==>
            && author == buyer && d.content == x.reason && ValidDecision(x, buyer)
            && Base(d, DECISION_KIND) && Value(d, "d") == Ok(x.seller) && Value(d, "p") == Ok(x.seller)
            && TagsNamed(d.tags, "a") == [] && Value(d, "decision") == Ok(x.decision)
            && OptionalValue(d, "e") == Ok(x.membershipEvent)
  {
  }

  /** The same for decisions. */
  lemma DecisionReadExactly(d: Draft, author: string, buyer: string, x: Decision)
    ensures ParseDecisionDraft(d, author, buyer) == Ok(x) <==>
            && author == buyer && d.kind == DECISION_KIND && d.content == x.reason && ValidDecision(x, buyer)
            && Sole(d.tags, ["t", "maxplayer"]) && Sole(d.tags, ["v", "1"]) && Sole(d.tags, ["d", x.seller])
            && Sole(d.tags, ["p", x.seller]) && Sole(d.tags, ["decision", x.decision]) && Absent(d.tags, "a")
            && SoleOption(d.tags, "e", x.membershipEvent)
  {
    DecisionReadBy(d, author, buyer, x);
    BaseExactly(d, DECISION_KIND);
    ValueExactly(d, "d", x.seller);
    ValueExactly(d, "p", x.seller);
    ValueExactly(d, "decision", x.decision);
    TagsNamedEmpty(d.tags, "a");
    OptionalExactly(d, "e", x.membershipEvent);
  }

  /** No reader accepts a draft that repeats one of the tags it reads. */
  lemma RepeatedTagIsRefused(d: Draft, author: string, buyer: string, name: string, i: nat, j: nat)
    requires i < j < |d.tags| && Named(d.tags[i], name) && Named(d.tags[j], name)
    ensures name in {"t", "v", "d", "title", "status", "starts", "ends", "budget", "update", "result"} ==>
              ParseChallengeDraft(d, author, buyer).Err?
    ensures name in {"t", "v", "d", "p", "status", "since", "minutes"} ==> ParseMembershipDraft(d, author, buyer).Err?
    ensures name in {"t", "v", "d", "p", "decision", "e"} ==> ParseDecisionDraft(d, author, buyer).Err?
  {
    RepeatedIsNoTag(d, name, i, j);
  }

  lemma RepeatedIsNoTag(d: Draft, name: string, i: nat, j: nat)
    requires i < j < |d.tags| && Named(d.tags[i], name) && Named(d.tags[j], name)
    ensures TagOf(d, name).Err? && OptionalValue(d, name).Err?
  {
    TagsNamedEmpty(d.tags, name);
    assert d.tags[i] in d.tags;
    if TagOf(d, name).Ok? {
      NamedTagOf(d, name);
      TagOfExactly(d, TagOf(d, name).value);
    }
  }
}
