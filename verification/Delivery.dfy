/** What a delivery puts into the mailbox, and that the next inbox prints it (crates/maxplayer-chat/src/lib.rs). */
module Delivery {
  import opened Basics
  import opened ChatLog
  import opened Mailbox

  /**
   * In every home: a delivery is logged if and only if the message is unseen and its peer below quota, and the one new
   * record is the message; an unseen message over quota is remembered as dropped under the wrap's own date; nothing
   * else changes.
   */
  lemma DeliveryLogsExactly(b: Box, m: Wrap, now: u64)
    ensures var after := Received(b, m, now);
            var fits := BelowQuota(b, m, now);
            && after == b.(entries := after.entries, dropped := after.dropped)
            && (if Unseen(b, m) && fits
                then exists e :: LogsMessage(e, m, now) && after.entries == b.entries + [e]
                else after.entries == b.entries)
            && (if Unseen(b, m) && !fits
                then m.rumorId in after.dropped && after.dropped[m.rumorId] == m.at
                     && after.dropped - {m.rumorId} == b.dropped
                else after.dropped == b.dropped)
  {
    if Unseen(b, m) && BelowQuota(b, m, now) {
      assert LogsMessage(LoggedEntry(m, now), m, now);
    }
  }

  // ---- What the inbox prints ----

  /** Position `p` is after every position printed so far. */
  predicate Beyond(printed: seq<nat>, p: nat) { printed == [] || printed[|printed| - 1] < p }

  /** In every run, the inbox prints a record if and only if it is an approved peer's and after all printed before. */
  lemma InboxPrintsExactly(actions: seq<Action>, p: nat)
    ensures var w := Run(actions);
            p in InboxPositions(w.box) <==>
            p < |w.box.entries| && Shown(w.box.entries[p], w.box.peers) && Beyond(w.printed, p)
  {
    var w := Run(actions);
    MailboxIsSafe(actions);
    MarkerPosition(w.box, w.printed);
    ShownMeaning(w.box.entries, w.box.peers, StartAfter(w.box.entries, w.box.read));
  }

  predicate IsPrefix<T(==)>(a: seq<T>, b: seq<T>) { |a| <= |b| && b[..|a|] == a }

  /** Records and prints are only ever added. */
  predicate Grows(w: World, t: World) { IsPrefix(w.box.entries, t.box.entries) && IsPrefix(w.printed, t.printed) }

  lemma PrefixTransitive<T>(a: seq<T>, b: seq<T>, c: seq<T>)
    requires IsPrefix(a, b) && IsPrefix(b, c)
    ensures IsPrefix(a, c)
  {
    assert c[..|a|] == c[..|b|][..|a|];
  }

  lemma StepGrows(w: World, a: Action)
    ensures Grows(w, Next(w, a)) && (!a.Inbox? ==> Next(w, a).printed == w.printed)
  {
  }

  predicate NoInbox(actions: seq<Action>) { forall i :: 0 <= i < |actions| ==> !actions[i].Inbox? }

  lemma RunLast(past: seq<Action>, later: seq<Action>)
    requires later != []
    ensures Run(past + later) == Next(Run(past + later[..|later| - 1]), later[|later| - 1])
  {
    ConcatLast(past, later);
    RunOneMore(past + later[..|later| - 1], later[|later| - 1]);
  }

  lemma {:induction false} RunGrows(past: seq<Action>, later: seq<Action>)
    ensures Grows(Run(past), Run(past + later))
    ensures NoInbox(later) ==> Run(past + later).printed == Run(past).printed
    decreases |later|
  {
    if later == [] {
      assert past + later == past;
    } else {
      var n := |later| - 1;
      RunGrows(past, later[..n]);
      RunLast(past, later);
      GrowsOn(Run(past), Run(past + later[..n]), later[n]);
    }
  }

  lemma GrowsOn(w: World, u: World, a: Action)
    requires Grows(w, u)
    ensures Grows(w, Next(u, a)) && (!a.Inbox? ==> Next(u, a).printed == u.printed)
  {
    StepGrows(u, a);
    PrefixTransitive(w.box.entries, u.box.entries, Next(u, a).box.entries);
    PrefixTransitive(w.printed, u.printed, Next(u, a).printed);
  }

  predicate PrintedOnce(printed: seq<nat>, p: nat) {
    p in printed && forall i, j :: 0 <= i < |printed| && 0 <= j < |printed| && printed[i] == printed[j] == p ==> i == j
  }

  lemma StaysPrintedOnce(past: seq<Action>, later: seq<Action>, p: nat)
    requires p in Run(past).printed
    ensures PrintedOnce(Run(past + later).printed, p)
  {
    RunGrows(past, later);
    MailboxIsSafe(past + later);
    var i :| 0 <= i < |Run(past).printed| && Run(past).printed[i] == p;
    assert Run(past + later).printed[i] == p;
  }

  lemma PrintedAreLogged(actions: seq<Action>, p: nat)
    requires p >= |Run(actions).box.entries|
    ensures p !in Run(actions).printed && Beyond(Run(actions).printed, p)
  {
    MailboxIsSafe(actions);
  }

  /** A delivery that is logged, and whatever follows without an inbox: the message is logged and not yet printed. */
  lemma MessageWaits(past: seq<Action>, m: Wrap, now: u64, between: seq<Action>)
    requires Unseen(Run(past).box, m) && BelowQuota(Run(past).box, m, now) && NoInbox(between)
    ensures var p, u := |Run(past).box.entries|, Run(past + [Deliver(m, now)] + between);
            p < |u.box.entries| && LogsMessage(u.box.entries[p], m, now) && Beyond(u.printed, p)
  {
    var w, got := Run(past), past + [Deliver(m, now)];
    var p := |w.box.entries|;
    RunOneMore(past, Deliver(m, now));
    DeliveryLogsExactly(w.box, m, now);
    PrintedAreLogged(past, p);
    StepGrows(w, Deliver(m, now));
    RunGrows(got, between);
    assert LogsMessage(Run(got).box.entries[p], m, now);
    assert Run(got + between).box.entries[p] == Run(got).box.entries[p];
  }

  /**
   * End to end, in every run: a logged message, then anything but an inbox, then an inbox. The inbox prints the
   * message's own text if and only if its peer is still approved, and then no later step ever prints it again.
   */
  lemma MessageIsPrintedOnce(past: seq<Action>, m: Wrap, now: u64, between: seq<Action>, later: seq<Action>)
    requires Unseen(Run(past).box, m) && BelowQuota(Run(past).box, m, now) && NoInbox(between)
    ensures var p, got := |Run(past).box.entries|, past + [Deliver(m, now)] + between;
            && p < |Run(got).box.entries| && Run(got).box.entries[p].text == m.text
            && (p in InboxPositions(Run(got).box) <==> m.sender in Run(got).box.peers)
            && (m.sender in Run(got).box.peers ==> PrintedOnce(Run(got + [Inbox] + later).printed, p))
  {
    var p, got := |Run(past).box.entries|, past + [Deliver(m, now)] + between;
    MessageWaits(past, m, now, between);
    InboxPrintsExactly(got, p);
    if m.sender in Run(got).box.peers {
      RunOneMore(got, Inbox);
      StaysPrintedOnce(got + [Inbox], later, p);
    }
  }

  // ---- Exactly the messages that can still be printed ----

  lemma PassedIsSkipped(past: seq<Action>, later: seq<Action>, p: nat)
    requires p !in Run(past).printed && !Beyond(Run(past).printed, p)
    ensures p !in Run(past + later).printed
  {
    RunGrows(past, later);
    MailboxIsSafe(past + later);
  }

  /** Approving the peer and reading the inbox. */
  function Rescue(e: Entry): (actions: seq<Action>) { [Approve(e.peer), Inbox] }

  lemma RescuePrints(past: seq<Action>, p: nat)
    requires p < |Run(past).box.entries| && Run(past).box.entries[p].inbound && Beyond(Run(past).printed, p)
    ensures p in Run(past + Rescue(Run(past).box.entries[p])).printed
  {
    var e := Run(past).box.entries[p];
    var approved := past + [Approve(e.peer)];
    assert past + Rescue(e) == approved + [Inbox];
    RunOneMore(past, Approve(e.peer));
    RunOneMore(approved, Inbox);
    InboxPrintsExactly(approved, p);
  }

  /** In every run, a received message not yet printed can still be printed if and only if no later one has been. */
  lemma StillPrintableExactly(past: seq<Action>, p: nat)
    requires p < |Run(past).box.entries| && Run(past).box.entries[p].inbound && p !in Run(past).printed
    ensures (exists later :: p in Run(past + later).printed) <==> Beyond(Run(past).printed, p)
  {
    if Beyond(Run(past).printed, p) {
      RescuePrints(past, p);
    } else {
      forall later
        ensures p !in Run(past + later).printed
      {
        PassedIsSkipped(past, later, p);
      }
    }
  }

  const HELLO := Wrap("0", "a", 0, "hello")
  const HI := Wrap("1", "b", 0, "hi")

  /** Two peers, a message from each, and the first peer removed before the second message. */
  const TWO_PEERS := [Approve("a")] + [Approve("b")] + [Deliver(HELLO, 0)]
  const REMOVED := TWO_PEERS + [Remove("a")] + [Deliver(HI, 0)]

  lemma FirstReceived()
    ensures Run(TWO_PEERS) == World(Box([LoggedEntry(HELLO, 0)], map[], "", 0, false, {"a", "b"}), map[], [])
  {
    var one := [Approve("a")];
    assert one[..0] == [];
    assert {} + {"a"} == {"a"};
    assert Run(one) == World(Box([], map[], "", 0, false, {"a"}), map[], []);
    RunOneMore(one, Approve("b"));
    assert {"a"} + {"b"} == {"a", "b"};
    RunOneMore(one + [Approve("b")], Deliver(HELLO, 0));
  }

  lemma SecondReceived()
    ensures Run(REMOVED)
         == World(Box([LoggedEntry(HELLO, 0), LoggedEntry(HI, 0)], map[], "", 0, false, {"b"}), map[], [])
  {
    FirstReceived();
    RunOneMore(TWO_PEERS, Remove("a"));
    assert {"a", "b"} - {"a"} == {"b"};
    RunOneMore(TWO_PEERS + [Remove("a")], Deliver(HI, 0));
    InboundOnAppend([], LoggedEntry(HELLO, 0), "b", 0);
    assert [] + [LoggedEntry(HELLO, 0)] == [LoggedEntry(HELLO, 0)];
  }

  /** A peer removed while another peer's message is read: its own message is never printed, even once it is back. */
  lemma RemovedPeerIsSkipped(later: seq<Action>)
    ensures |Run(REMOVED).box.entries| == 2 && LogsMessage(Run(REMOVED).box.entries[0], HELLO, 0)
    ensures 0 !in Run(REMOVED + [Inbox] + later).printed
  {
    SecondReceived();
    RunOneMore(REMOVED, Inbox);
    InboxPrintsExactly(REMOVED, 0);
    InboxPrintsExactly(REMOVED, 1);
    MailboxIsSafe(REMOVED + [Inbox]);
    PassedIsSkipped(REMOVED + [Inbox], later, 0);
  }
}
