/** The chat mailbox (`Home` in crates/maxplayer-chat/src/lib.rs): receive, quota, drops, checkpoint and inbox. */
module Mailbox {
  import opened Basics
  import opened ByteLines
  import opened ChatLog
  import Watch

  const INBOUND_DAILY_CAP: nat := 100

  /** A rumor's id is a hash in hex, so never empty. */
  type RumorId = s: string | s != "" witness "0"

  /** An authenticated message: the rumor's id, its sender, the outer wrap's date and the text. */
  datatype Wrap = Wrap(rumorId: RumorId, sender: string, at: u64, text: string)

  /** What the files of a home say. */
  datatype Box = Box(
    entries: seq<Entry>, dropped: map<string, u64>, read: string, cursor: u64, versioned: bool, peers: set<string>)

  function DayOf(t: u64): (d: nat) { t / DAY }

  /** A record that counts against `peer`'s quota for `day`. */
  predicate CountsFor(e: Entry, peer: string, day: nat) {
    e.inbound && e.peer == peer && DayOf(if e.receivedAt.Some? then e.receivedAt.value else e.at) == day
  }

  function InboundOn(entries: seq<Entry>, peer: string, day: nat): (n: nat) {
    if entries == [] then 0
    else
      InboundOn(entries[..|entries| - 1], peer, day)
      + (if CountsFor(entries[|entries| - 1], peer, day) then 1 else 0)
  }

  predicate Logged(entries: seq<Entry>, rumorId: string) {
    exists i :: 0 <= i < |entries| && entries[i].rumorId == rumorId
  }

  function LoggedEntry(w: Wrap, now: u64): (e: Entry) {
    Entry(w.rumorId, w.sender, true, Min(w.at, now), w.text, Some(now))
  }

  /** The record of a message received at `now`: the wrap's own fields, dated no later than the wrap or the clock. */
  predicate LogsMessage(e: Entry, w: Wrap, now: u64) {
    && e.inbound && e.rumorId == w.rumorId && e.peer == w.sender && e.text == w.text && e.receivedAt == Some(now)
    && e.at <= w.at && e.at <= now && (e.at == w.at || e.at == now)
  }

  /** A message of an approved peer that is neither logged nor remembered as dropped. */
  predicate Unseen(b: Box, w: Wrap) {
    w.sender in b.peers && !Logged(b.entries, w.rumorId) && w.rumorId !in b.dropped
  }

  predicate BelowQuota(b: Box, w: Wrap, now: u64) { InboundOn(b.entries, w.sender, DayOf(now)) < INBOUND_DAILY_CAP }

  /** `receive`, after both unwraps agreed. */
  function Received(b: Box, w: Wrap, now: u64): (r: Box) {
    if w.sender !in b.peers || Logged(b.entries, w.rumorId) || w.rumorId in b.dropped then b
    else if InboundOn(b.entries, w.sender, DayOf(now)) >= INBOUND_DAILY_CAP then
      b.(dropped := b.dropped[w.rumorId := w.at])
    else b.(entries := b.entries + [LoggedEntry(w, now)])
  }

  function PrunedDrops(dropped: map<string, u64>, since: u64): (r: map<string, u64>) {
    map id | id in dropped && dropped[id] >= since :: dropped[id]
  }

  function HistorySince(b: Box): (since: u64) { if b.versioned then Watch.ReceiveSince(b.cursor) else 0 }

  function Checkpointed(b: Box, at: u64): (r: Box) {
    b.(cursor := at, versioned := true, dropped := PrunedDrops(b.dropped, Watch.ReceiveSince(at)))
  }

  // ---- Inbox ----

  /** Where the next `inbox` starts: after the first record with the marker's id. */
  function StartAfter(entries: seq<Entry>, read: string): (start: nat)
    ensures start <= |entries|
  {
    if FindId(entries, read, 0) < |entries| then FindId(entries, read, 0) + 1 else 0
  }

  function FindId(entries: seq<Entry>, id: string, from: nat): (i: nat)
    requires from <= |entries|
    ensures from <= i <= |entries| && (i < |entries| ==> entries[i].rumorId == id)
    ensures forall j :: from <= j < i ==> entries[j].rumorId != id
    decreases |entries| - from
  {
    if from == |entries| || entries[from].rumorId == id then from else FindId(entries, id, from + 1)
  }

  predicate Shown(e: Entry, peers: set<string>) { e.inbound && e.peer in peers }

  /** The positions that `inbox` prints, in log order. */
  function ShownFrom(entries: seq<Entry>, peers: set<string>, start: nat): (r: seq<nat>)
    requires start <= |entries|
    ensures forall i :: 0 <= i < |r| ==> start <= r[i] < |entries|
    decreases |entries| - start
  {
    if start == |entries| then []
    else if Shown(entries[start], peers) then [start] + ShownFrom(entries, peers, start + 1)
    else ShownFrom(entries, peers, start + 1)
  }

  /** Exactly the shown positions from `start` on, once each and in order. */
  lemma {:induction false} ShownMeaning(entries: seq<Entry>, peers: set<string>, start: nat)
    requires start <= |entries|
    ensures var r := ShownFrom(entries, peers, start);
            && (forall i, j :: 0 <= i < j < |r| ==> r[i] < r[j])
            && (forall k :: k in r <==> start <= k < |entries| && Shown(entries[k], peers))
    decreases |entries| - start
  {
    if start < |entries| {
      ShownMeaning(entries, peers, start + 1);
    }
  }

  function InboxPositions(b: Box): (r: seq<nat>) { ShownFrom(b.entries, b.peers, StartAfter(b.entries, b.read)) }

  function Printed(b: Box): (r: Box) {
    var shown := InboxPositions(b);
    if shown == [] then b else b.(read := b.entries[shown[|shown| - 1]].rumorId)
  }

  // ---- The home directory ----

  class Home {
    const codec: Codec
    var log: Bytes
    var dropped: map<string, u64>
    var read: string
    var cursor: u64
    var versioned: bool
    var peers: set<string>

    constructor (codec: Codec)
      ensures this.codec == codec && log == [] && dropped == map[] && read == "" && cursor == 0 && !versioned
              && peers == {}
    {
      this.codec := codec;
      log, dropped, read, cursor, versioned, peers := [], map[], "", 0, false, {};
    }

    ghost predicate Readable()
      reads this
    {
      codec.Lawful() && Entries(codec, log).Some?
    }

    ghost function State(): (b: Box)
      requires Readable()
      reads this
    {
      Box(Entries(codec, log).value, dropped, read, cursor, versioned, peers)
    }

    /** Truncates an uncommitted tail, then writes one line. */
    method AppendEntry(e: Entry)
      requires Readable()
      modifies this`log
      ensures Readable() && State() == old(State()).(entries := old(State()).entries + [e])
    {
      AppendAddsOne(codec, log, e);
      log := Append(codec, log, e);
    }

    /** Answers whether the message was logged. */
    method Receive(w: Wrap, now: u64) returns (added: bool)
      requires Readable()
      modifies this`log, this`dropped
      ensures Readable() && State() == Received(old(State()), w, now)
      ensures added <==> Unseen(old(State()), w) && BelowQuota(old(State()), w, now)
      ensures added ==> exists e :: LogsMessage(e, w, now) && State().entries == old(State()).entries + [e]
      ensures !added ==> State().entries == old(State()).entries
    {
      if w.sender !in peers {
        return false;
      }
      var entries := Entries(codec, log).value;
      var seen, count := Scan(entries, w.rumorId, w.sender, DayOf(now));
      if seen || w.rumorId in dropped {
        return false;
      }
      if count >= INBOUND_DAILY_CAP {
        dropped := dropped[w.rumorId := w.at];
        return false;
      }
      AppendEntry(LoggedEntry(w, now));
      return true;
    }

    method Checkpoint(at: u64)
      requires Readable()
      modifies this`cursor, this`versioned, this`dropped
      ensures Readable() && State() == Checkpointed(old(State()), at)
    {
      cursor := at;
      versioned := true;
      dropped := PrunedDrops(dropped, Watch.ReceiveSince(at));
    }

    /** Prints the unread messages of approved peers and moves the marker past the last one printed. */
    method PrintInbox() returns (texts: seq<string>)
      requires Readable()
      modifies this`read
      ensures Readable() && State() == Printed(old(State()))
      ensures |texts| == |InboxPositions(old(State()))|
      ensures forall i :: 0 <= i < |texts| ==> texts[i] == old(State()).entries[InboxPositions(old(State()))[i]].text
    {
      var entries := Entries(codec, log).value;
      var positions;
      positions, texts := Unread(entries, peers, StartAfter(entries, read));
      if positions != [] {
        read := entries[positions[|positions| - 1]].rumorId;
      }
    }
  }

  lemma ShownOneMore(entries: seq<Entry>, peers: set<string>, positions: seq<nat>, i: nat)
    requires i < |entries|
    ensures positions + ShownFrom(entries, peers, i)
         == (if Shown(entries[i], peers) then positions + [i] else positions) + ShownFrom(entries, peers, i + 1)
  {
  }

  /** The texts of the positions, which are all in the log. */
  predicate TextsOf(entries: seq<Entry>, positions: seq<nat>, texts: seq<string>) {
    && |texts| == |positions|
    && forall k :: 0 <= k < |texts| ==> positions[k] < |entries| && texts[k] == entries[positions[k]].text
  }

  method Unread(entries: seq<Entry>, peers: set<string>, start: nat) returns (positions: seq<nat>, texts: seq<string>)
    requires start <= |entries|
    ensures positions == ShownFrom(entries, peers, start) && TextsOf(entries, positions, texts)
  {
    positions, texts := [], [];
    for i := start to |entries|
      invariant positions + ShownFrom(entries, peers, i) == ShownFrom(entries, peers, start)
      invariant TextsOf(entries, positions, texts)
    {
      ShownOneMore(entries, peers, positions, i);
      if Shown(entries[i], peers) {
        texts := texts + [entries[i].text];
        positions := positions + [i];
      }
    }
  }

  method Scan(entries: seq<Entry>, rumorId: string, peer: string, day: nat) returns (seen: bool, count: nat)
    ensures seen == Logged(entries, rumorId) && count == InboundOn(entries, peer, day)
  {
    seen, count := false, 0;
    for i := 0 to |entries|
      invariant seen == Logged(entries[..i], rumorId) && count == InboundOn(entries[..i], peer, day)
    {
      assert entries[..i + 1][..i] == entries[..i] && entries[..i + 1][i] == entries[i];
      if entries[i].rumorId == rumorId {
        seen := true;
      }
      if CountsFor(entries[i], peer, day) {
        count := count + 1;
      }
    }
    assert entries[..|entries|] == entries;
  }

  // ---- Every run ----

  /** Each delivery brings its own clock reading; neither clocks nor wrap dates need be in any order. */
  datatype Action =
    | Deliver(wrap: Wrap, now: u64)
    | Checkpoint(at: u64)
    | Sent(rumorId: RumorId, peer: string, at: u64, text: string)
    | Approve(peer: string)
    | Remove(peer: string)
    | Inbox

  /** The wrap's date at a rumor's last quota drop, and the latest window start checkpointed since. */
  datatype Drop = Drop(at: u64, horizon: u64)

  /** The home, every rumor ever dropped for quota, and the positions printed so far. */
  datatype World = World(box: Box, drops: map<string, Drop>, printed: seq<nat>)

  function Next(w: World, a: Action): (t: World) {
    match a
    case Deliver(m, now) =>
      var after := Received(w.box, m, now);
      w.(box := after,
         drops := if after.dropped != w.box.dropped then w.drops[m.rumorId := Drop(m.at, 0)] else w.drops)
    case Checkpoint(at) =>
      w.(box := Checkpointed(w.box, at),
         drops := map id | id in w.drops :: Drop(w.drops[id].at, Max(w.drops[id].horizon, Watch.ReceiveSince(at))))
    case Sent(id, peer, at, text) =>
      w.(box := w.box.(entries := w.box.entries + [Entry(id, peer, false, at, text, None)]))
    case Approve(p) => w.(box := w.box.(peers := w.box.peers + {p}))
    case Remove(p) => w.(box := w.box.(peers := w.box.peers - {p}))
    case Inbox => w.(box := Printed(w.box), printed := w.printed + InboxPositions(w.box))
  }

  function Run(actions: seq<Action>): (w: World) {
    if actions == [] then World(Box([], map[], "", 0, false, {}), map[], [])
    else Next(Run(actions[..|actions| - 1]), actions[|actions| - 1])
  }

  /** An inbound record's id appears nowhere before it, and ids are never empty. */
  predicate FirstSightings(entries: seq<Entry>) {
    && (forall i :: 0 <= i < |entries| ==> entries[i].rumorId != "")
    && (forall i, j :: 0 <= i < j < |entries| && entries[j].inbound ==> entries[i].rumorId != entries[j].rumorId)
  }

  ghost predicate WithinQuota(entries: seq<Entry>) {
    forall peer, day :: InboundOn(entries, peer, day) <= INBOUND_DAILY_CAP
  }

  predicate LoggedInbound(entries: seq<Entry>, rumorId: string) {
    exists i :: 0 <= i < |entries| && entries[i].inbound && entries[i].rumorId == rumorId
  }

  predicate PrintedInOrder(b: Box, printed: seq<nat>) {
    && (forall i, j :: 0 <= i < j < |printed| ==> printed[i] < printed[j])
    && (forall i :: 0 <= i < |printed| ==> printed[i] < |b.entries|)
    && (if printed == [] then b.read == ""
        else b.entries[printed[|printed| - 1]].inbound && b.read == b.entries[printed[|printed| - 1]].rumorId)
  }

  ghost predicate Safe(w: World) {
    FirstSightings(w.box.entries) && WithinQuota(w.box.entries) && PrintedInOrder(w.box, w.printed)
  }

  lemma InboundOnAppend(entries: seq<Entry>, e: Entry, peer: string, day: nat)
    ensures InboundOn(entries + [e], peer, day)
         == InboundOn(entries, peer, day) + if CountsFor(e, peer, day) then 1 else 0
  {
    assert (entries + [e])[..|entries|] == entries;
  }

  lemma AppendKeepsPrinted(b: Box, e: Entry, printed: seq<nat>)
    requires PrintedInOrder(b, printed)
    ensures PrintedInOrder(b.(entries := b.entries + [e]), printed)
  {
  }

  lemma LoggedInboundAppend(entries: seq<Entry>, e: Entry, id: string)
    requires LoggedInbound(entries + [e], id)
    ensures LoggedInbound(entries, id) || (e.inbound && e.rumorId == id)
  {
    var i :| 0 <= i < |entries + [e]| && (entries + [e])[i].inbound && (entries + [e])[i].rumorId == id;
    assert i < |entries| ==> entries[i].inbound && entries[i].rumorId == id;
  }

  function DayLogged(e: Entry): (d: nat) { DayOf(if e.receivedAt.Some? then e.receivedAt.value else e.at) }

  lemma LogStep(w: World, e: Entry)
    requires Safe(w) && e.rumorId != ""
    requires e.inbound ==> !Logged(w.box.entries, e.rumorId)
                           && InboundOn(w.box.entries, e.peer, DayLogged(e)) < INBOUND_DAILY_CAP
    ensures Safe(w.(box := w.box.(entries := w.box.entries + [e])))
  {
    forall peer, day
      ensures InboundOn(w.box.entries + [e], peer, day) <= INBOUND_DAILY_CAP
    {
      InboundOnAppend(w.box.entries, e, peer, day);
      assert InboundOn(w.box.entries, peer, day) <= INBOUND_DAILY_CAP;
    }
    AppendKeepsPrinted(w.box, e, w.printed);
  }

  /** The marker is found exactly at the last printed record, so nothing before it is printed again. */
  lemma MarkerPosition(b: Box, printed: seq<nat>)
    requires FirstSightings(b.entries) && PrintedInOrder(b, printed)
    ensures StartAfter(b.entries, b.read) == if printed == [] then 0 else printed[|printed| - 1] + 1
  {
    var found := FindId(b.entries, b.read, 0);
    if printed != [] {
      var m := printed[|printed| - 1];
      assert !(m < found) && !(found < m);
    }
  }

  lemma IncreasingConcat(a: seq<nat>, b: seq<nat>)
    requires forall i, j :: 0 <= i < j < |a| ==> a[i] < a[j]
    requires forall i, j :: 0 <= i < j < |b| ==> b[i] < b[j]
    requires a != [] ==> forall j :: 0 <= j < |b| ==> a[|a| - 1] < b[j]
    ensures forall i, j :: 0 <= i < j < |a + b| ==> (a + b)[i] < (a + b)[j]
  {
    forall i, j | 0 <= i < j < |a + b|
      ensures (a + b)[i] < (a + b)[j]
    {
      if i < |a| <= j {
        assert a[i] <= a[|a| - 1] < b[j - |a|];
      }
    }
  }

  lemma PrintGoesOn(b: Box, printed: seq<nat>)
    requires FirstSightings(b.entries) && PrintedInOrder(b, printed)
    ensures PrintedInOrder(Printed(b), printed + InboxPositions(b))
  {
    MarkerPosition(b, printed);
    ShownMeaning(b.entries, b.peers, StartAfter(b.entries, b.read));
    var shown := InboxPositions(b);
    IncreasingConcat(printed, shown);
    if shown != [] {
      assert shown[|shown| - 1] in shown;
      assert (printed + shown)[|printed + shown| - 1] == shown[|shown| - 1];
    } else {
      assert printed + shown == printed;
    }
  }

  lemma DeliverKeepsSafe(w: World, m: Wrap, now: u64)
    requires Safe(w)
    ensures Safe(Next(w, Deliver(m, now)))
  {
    if Unseen(w.box, m) && BelowQuota(w.box, m, now) {
      LogStep(w, LoggedEntry(m, now));
    }
  }

  lemma StepKeepsSafe(w: World, a: Action)
    requires Safe(w)
    ensures Safe(Next(w, a))
  {
    match a
    case Deliver(m, now) => DeliverKeepsSafe(w, m, now);
    case Sent(id, peer, at, text) => LogStep(w, Entry(id, peer, false, at, text, None));
    case Inbox => PrintGoesOn(w.box, w.printed);
    case _ =>
  }

  /**
   * Every run, whatever is delivered and whatever the clocks say: inbound ids are unique, no peer exceeds its daily
   * quota, and each inbound message is printed at most once and in log order.
   */
  lemma {:induction false} MailboxIsSafe(actions: seq<Action>)
    ensures Safe(Run(actions))
  {
    if actions != [] {
      MailboxIsSafe(actions[..|actions| - 1]);
      StepKeepsSafe(Run(actions[..|actions| - 1]), actions[|actions| - 1]);
    } else {
      assert forall peer, day :: InboundOn([], peer, day) == 0;
    }
  }

  // ---- Rumors dropped for quota ----

  /** A drop is forgotten once a checkpoint has moved the history window past its date. */
  predicate Forgotten(d: Drop) { d.at < d.horizon }

  predicate DropsTracked(w: World) {
    && (forall id :: id in w.box.dropped ==> id in w.drops && w.drops[id].at == w.box.dropped[id])
    && (forall id :: id in w.drops ==> (id in w.box.dropped <==> !Forgotten(w.drops[id])))
  }

  lemma CheckpointTracksDrops(w: World, at: u64)
    requires DropsTracked(w)
    ensures DropsTracked(Next(w, Checkpoint(at)))
  {
    var t := Next(w, Checkpoint(at));
    forall id | id in t.drops
      ensures id in t.box.dropped <==> !Forgotten(t.drops[id])
    {
      assert id in w.drops;
    }
  }

  lemma DeliverTracksDrops(w: World, m: Wrap, now: u64)
    requires DropsTracked(w)
    ensures DropsTracked(Next(w, Deliver(m, now)))
  {
  }

  lemma {:induction false} RunTracksDrops(actions: seq<Action>)
    ensures DropsTracked(Run(actions))
  {
    if actions != [] {
      var w := Run(actions[..|actions| - 1]);
      RunTracksDrops(actions[..|actions| - 1]);
      match actions[|actions| - 1]
      case Deliver(m, now) => DeliverTracksDrops(w, m, now);
      case Checkpoint(at) => CheckpointTracksDrops(w, at);
      case _ =>
    }
  }

  /**
   * In every run, a delivery of a rumor that was dropped before is logged if and only if the drop has been forgotten
   * and the message would be logged were it new.
   */
  lemma DroppedComesBackExactly(actions: seq<Action>, m: Wrap, now: u64)
    requires m.rumorId in Run(actions).drops
    ensures var w := Run(actions);
            Next(w, Deliver(m, now)).box.entries == w.box.entries + [LoggedEntry(m, now)]
            <==> && Forgotten(w.drops[m.rumorId]) && !Logged(w.box.entries, m.rumorId) && m.sender in w.box.peers
                 && InboundOn(w.box.entries, m.sender, DayOf(now)) < INBOUND_DAILY_CAP
  {
    RunTracksDrops(actions);
  }

  type WrapDates = string -> u64

  /** One wrap per rumor, delivered by history reads, and checkpoints that never go back. */
  predicate Regular(w: World, dates: WrapDates, a: Action) {
    match a
    case Deliver(m, now) => m.at == dates(m.rumorId) && m.at >= HistorySince(w.box)
    case Checkpoint(at) => w.box.cursor <= at
    case _ => true
  }

  predicate RegularRun(dates: WrapDates, actions: seq<Action>) {
    actions == []
    || (RegularRun(dates, actions[..|actions| - 1])
        && Regular(Run(actions[..|actions| - 1]), dates, actions[|actions| - 1]))
  }

  /** No dropped rumor is in the log, and none is forgotten that a history read may still bring. */
  predicate DropsHold(w: World, dates: WrapDates) {
    && (!w.box.versioned ==> w.box.cursor == 0)
    && forall id :: id in w.drops ==>
         && w.drops[id].at == dates(id) && w.drops[id].horizon <= HistorySince(w.box)
         && !LoggedInbound(w.box.entries, id)
  }

  lemma LogKeepsDrops(w: World, dates: WrapDates, e: Entry)
    requires DropsHold(w, dates) && (e.inbound ==> e.rumorId !in w.drops)
    ensures DropsHold(w.(box := w.box.(entries := w.box.entries + [e])), dates)
  {
    forall id | id in w.drops
      ensures !LoggedInbound(w.box.entries + [e], id)
    {
      if LoggedInbound(w.box.entries + [e], id) {
        LoggedInboundAppend(w.box.entries, e, id);
      }
    }
  }

  lemma DeliverKeepsDrops(w: World, dates: WrapDates, m: Wrap, now: u64)
    requires DropsTracked(w) && DropsHold(w, dates) && Regular(w, dates, Deliver(m, now))
    ensures DropsHold(Next(w, Deliver(m, now)), dates)
  {
    var after := Received(w.box, m, now);
    if after.entries != w.box.entries {
      LogKeepsDrops(w, dates, LoggedEntry(m, now));
    } else if after != w.box {
      assert LoggedInbound(w.box.entries, m.rumorId) ==> Logged(w.box.entries, m.rumorId);
    }
  }

  /**
   * With one wrap per rumor, history reads and checkpoints that never go back, a rumor dropped for quota is never
   * logged later, whatever the days and the pruning.
   */
  lemma {:induction false} DroppedStaysOut(dates: WrapDates, actions: seq<Action>)
    requires RegularRun(dates, actions)
    ensures DropsHold(Run(actions), dates)
  {
    if actions != [] {
      var w, a := Run(actions[..|actions| - 1]), actions[|actions| - 1];
      DroppedStaysOut(dates, actions[..|actions| - 1]);
      RunTracksDrops(actions[..|actions| - 1]);
      match a
      case Deliver(m, now) => DeliverKeepsDrops(w, dates, m, now);
      case Sent(id, peer, at, text) => LogKeepsDrops(w, dates, Entry(id, peer, false, at, text, None));
      case _ =>
    }
  }

  // ---- A second wrap brings a dropped rumor back ----

  function IdOf(k: nat): (id: RumorId) { seq(k + 1, _ => 'a') }

  function Filling(peer: string, n: nat): (actions: seq<Action>) {
    if n == 0 then [Approve(peer)] else Filling(peer, n - 1) + [Deliver(Wrap(IdOf(n - 1), peer, 0, ""), 0)]
  }

  function Filled(peer: string, n: nat): (entries: seq<Entry>)
    ensures |entries| == n && forall k :: 0 <= k < n ==> entries[k] == LoggedEntry(Wrap(IdOf(k), peer, 0, ""), 0)
  {
    seq(n, k requires 0 <= k < n => LoggedEntry(Wrap(IdOf(k), peer, 0, ""), 0))
  }

  lemma RunOneMore(actions: seq<Action>, a: Action)
    ensures Run(actions + [a]) == Next(Run(actions), a)
  {
    assert (actions + [a])[..|actions|] == actions;
  }

  lemma {:induction false} FilledCount(peer: string, n: nat)
    ensures InboundOn(Filled(peer, n), peer, 0) == n
  {
    if n > 0 {
      FilledCount(peer, n - 1);
      assert Filled(peer, n)[..n - 1] == Filled(peer, n - 1);
    }
  }

  lemma IdsDiffer(peer: string, n: nat)
    ensures !Logged(Filled(peer, n), IdOf(n))
  {
    forall k | 0 <= k < n
      ensures Filled(peer, n)[k].rumorId != IdOf(n)
    {
      assert |IdOf(k)| != |IdOf(n)|;
    }
  }

  lemma {:induction false} FillingFills(peer: string, n: nat)
    requires n <= INBOUND_DAILY_CAP
    ensures Run(Filling(peer, n)) == World(Box(Filled(peer, n), map[], "", 0, false, {peer}), map[], [])
  {
    if n == 0 {
      assert [Approve(peer)][..0] == [] && Filled(peer, 0) == [];
    } else {
      FillingFills(peer, n - 1);
      RunOneMore(Filling(peer, n - 1), Deliver(Wrap(IdOf(n - 1), peer, 0, ""), 0));
      FillOneMore(peer, n - 1);
    }
  }

  lemma FillOneMore(peer: string, n: nat)
    requires n < INBOUND_DAILY_CAP
    ensures Next(World(Box(Filled(peer, n), map[], "", 0, false, {peer}), map[], []),
                 Deliver(Wrap(IdOf(n), peer, 0, ""), 0))
         == World(Box(Filled(peer, n + 1), map[], "", 0, false, {peer}), map[], [])
  {
    IdsDiffer(peer, n);
    FilledCount(peer, n);
    assert Filled(peer, n) + [LoggedEntry(Wrap(IdOf(n), peer, 0, ""), 0)] == Filled(peer, n + 1);
  }

  /** A hundred messages fill the day; the next is dropped, forgotten at a checkpoint, and logged when wrapped again. */
  lemma SecondWrapComesBack(peer: string)
    ensures var x := IdOf(INBOUND_DAILY_CAP);
            var w := Run(Filling(peer, INBOUND_DAILY_CAP) + [Deliver(Wrap(x, peer, 0, ""), 0)] + [Checkpoint(1000)]
                         + [Deliver(Wrap(x, peer, 1000, ""), DAY)]);
            x in w.drops && LoggedInbound(w.box.entries, x)
  {
    var n := INBOUND_DAILY_CAP;
    var x, full := IdOf(n), Filling(peer, n);
    var first, again := Deliver(Wrap(x, peer, 0, ""), 0), Deliver(Wrap(x, peer, 1000, ""), DAY);
    FillingFills(peer, n);
    IdsDiffer(peer, n);
    FilledCount(peer, n);
    RunOneMore(full, first);
    RunOneMore(full + [first], Checkpoint(1000));
    RunOneMore(full + [first] + [Checkpoint(1000)], again);
    NextDayIsEmpty(peer, n);
    var w := Run(full + [first] + [Checkpoint(1000)]);
    assert w.box.entries == Filled(peer, n) && Forgotten(w.drops[x]);
    DroppedComesBackExactly(full + [first] + [Checkpoint(1000)], Wrap(x, peer, 1000, ""), DAY);
    var entries := Next(w, again).box.entries;
    assert entries[n].inbound && entries[n].rumorId == x;
  }

  lemma {:induction false} NextDayIsEmpty(peer: string, n: nat)
    ensures InboundOn(Filled(peer, n), peer, 1) == 0
  {
    if n > 0 {
      NextDayIsEmpty(peer, n - 1);
      assert Filled(peer, n)[..n - 1] == Filled(peer, n - 1);
    }
  }
}
