/**
 * Bounded sending (crates/maxplayer-chat): the daily slot counter (`reserve_send`, `refund_send` in lib.rs) and the
 * bounded retry of one message with an ambiguous outcome (`send_outcome` in network.rs).
 */
module SendSlots {
  import opened Basics

  const DAILY_CAP: nat := 50
  const MAX_ATTEMPTS: nat := 3

  // ---- The counter file ----

  datatype Sent = Sent(day: nat, counts: map<string, nat>)

  function CountOf(s: Sent, peer: string): (n: nat) { if peer in s.counts then s.counts[peer] else 0 }

  function OnDay(s: Sent, day: nat): (r: Sent) { if s.day == day then s else Sent(day, map[]) }

  /** None when the cap is reached: then the file is not rewritten. */
  function Reserved(s: Sent, peer: string, now: u64): (r: Option<Sent>) {
    var today := OnDay(s, now / DAY);
    if CountOf(today, peer) >= DAILY_CAP then None
    else Some(today.(counts := today.counts[peer := CountOf(today, peer) + 1]))
  }

  function Refunded(s: Sent, peer: string, reservedAt: u64): (r: Sent) {
    if s.day == reservedAt / DAY && peer in s.counts
    then s.(counts := s.counts[peer := if s.counts[peer] == 0 then 0 else s.counts[peer] - 1]) else s
  }

  class SlotFile {
    var sent: Sent

    constructor ()
      ensures sent == Sent(0, map[])
    {
      sent := Sent(0, map[]);
    }

    method ReserveSend(peer: string, now: u64) returns (ok: bool)
      modifies this
      ensures ok <==> Reserved(old(sent), peer, now).Some?
      ensures sent == if ok then Reserved(old(sent), peer, now).value else old(sent)
    {
      var today := sent;
      if today.day != now / DAY {
        today := Sent(now / DAY, map[]);
      }
      var count := if peer in today.counts then today.counts[peer] else 0;
      if count >= DAILY_CAP {
        return false;
      }
      sent := today.(counts := today.counts[peer := count + 1]);
      return true;
    }

    method RefundSend(peer: string, reservedAt: u64)
      modifies this
      ensures sent == Refunded(old(sent), peer, reservedAt)
    {
      if sent.day == reservedAt / DAY && peer in sent.counts {
        var count := sent.counts[peer];
        sent := sent.(counts := sent.counts[peer := if count == 0 then 0 else count - 1]);
      }
    }
  }

  // ---- One message, at most three attempts ----

  /** How one attempt ends. */
  datatype Attempt =
    | ConnectFailed
    | WindowExhausted
    | SendFailed
    | Accepted
    | RefusedForNow
    | RefusedForGood
    | NoVerdict

  datatype Status = InFlight | Delivered | Unconfirmed | Failed

  /** No further attempt is made after this one. */
  predicate Final(a: Attempt) { a.Accepted? || a.RefusedForGood? || a.WindowExhausted? }

  /** The attempts that are really made: up to and including the first final one. */
  function Made(attempts: seq<Attempt>): (r: seq<Attempt>)
    ensures |r| <= |attempts|
  {
    if attempts == [] then []
    else if Final(attempts[0]) then [attempts[0]]
    else [attempts[0]] + Made(attempts[1..])
  }

  /** Attempts are made up to the first final one, or to the last. */
  lemma {:induction false} MadeUpTo(attempts: seq<Attempt>, n: nat)
    requires n <= |attempts| && (forall i :: 0 <= i < n - 1 ==> !Final(attempts[i]))
    requires (n == |attempts| && (n > 0 ==> !Final(attempts[n - 1]))) || (n > 0 && Final(attempts[n - 1]))
    ensures Made(attempts) == attempts[..n]
  {
    if n == 1 && Final(attempts[0]) {
      assert attempts[..1] == [attempts[0]];
    } else if n > 0 {
      MadeUpTo(attempts[1..], n - 1);
      assert attempts[..n] == [attempts[0]] + attempts[1..][..n - 1];
    }
  }

  /** Accepted if some attempt was; otherwise in doubt if some attempt was left without a verdict; otherwise failed. */
  function Verdict(made: seq<Attempt>): (s: Status) {
    if Accepted in made then Delivered else if NoVerdict in made then Unconfirmed else Failed
  }

  lemma AmongFirst(attempts: seq<Attempt>, n: nat, a: Attempt)
    requires n <= |attempts|
    ensures a in attempts[..n] <==> exists i :: 0 <= i < n && attempts[i] == a
  {
    if i :| 0 <= i < n && attempts[i] == a {
      assert attempts[..n][i] == a;
    }
  }

  /** The attempts of `send_outcome`, stopped by the first final one. */
  method Try(attempts: seq<Attempt>) returns (used: nat, delivered: bool, ambiguous: bool)
    requires |attempts| == MAX_ATTEMPTS
    ensures 1 <= used <= MAX_ATTEMPTS && Made(attempts) == attempts[..used]
    ensures used < MAX_ATTEMPTS ==> Final(attempts[used - 1])
    ensures forall i :: 0 <= i < used - 1 ==> !Final(attempts[i])
    ensures delivered == (Accepted in attempts[..used]) && ambiguous == (NoVerdict in attempts[..used])
  {
    var stop := false;
    used, delivered, ambiguous := 0, false, false;
    while used < MAX_ATTEMPTS && !stop
      invariant 0 <= used <= MAX_ATTEMPTS && (stop ==> used > 0 && Final(attempts[used - 1]))
      invariant forall i :: 0 <= i < used && (i < used - 1 || !stop) ==> !Final(attempts[i])
      invariant delivered == (Accepted in attempts[..used]) && ambiguous == (NoVerdict in attempts[..used])
      decreases MAX_ATTEMPTS - used
    {
      var a := attempts[used];
      assert attempts[..used + 1] == attempts[..used] + [a];
      used := used + 1;
      delivered, ambiguous := delivered || a.Accepted?, ambiguous || a.NoVerdict?;
      stop := Final(a);
    }
    MadeUpTo(attempts, used);
  }

  /** `send_outcome`: the final status, the number of attempts, and whether the slot goes back. */
  method SendOutcome(attempts: seq<Attempt>) returns (status: Status, used: nat, refund: bool)
    requires |attempts| == MAX_ATTEMPTS
    ensures 1 <= used <= MAX_ATTEMPTS && Made(attempts) == attempts[..used] && status == Verdict(Made(attempts))
    ensures used < MAX_ATTEMPTS ==> attempts[used - 1] in {Accepted, RefusedForGood, WindowExhausted}
    ensures forall i :: 0 <= i < used - 1 ==> attempts[i] !in {Accepted, RefusedForGood, WindowExhausted}
    ensures status == Delivered <==> exists i :: 0 <= i < used && attempts[i] == Accepted
    ensures status == Unconfirmed <==>
            (forall i :: 0 <= i < used ==> attempts[i] != Accepted)
            && exists i :: 0 <= i < used && attempts[i] == NoVerdict
    ensures status == Failed <==> forall i :: 0 <= i < used ==> attempts[i] != Accepted && attempts[i] != NoVerdict
    ensures refund <==> status == Failed
  {
    var delivered, ambiguous;
    used, delivered, ambiguous := Try(attempts);
    AmongFirst(attempts, used, Accepted);
    AmongFirst(attempts, used, NoVerdict);
    if delivered {
      return Delivered, used, false;
    }
    if ambiguous {
      return Unconfirmed, used, false;
    }
    return Failed, used, true;
  }

  // ---- Every run of concurrent sends ----

  datatype Send = Send(peer: string, reservedAt: u64, status: Status)

  datatype World = World(sent: Sent, sends: seq<Send>)

  datatype Action = Reserve(peer: string, now: u64) | Resolve(index: nat, attempts: seq<Attempt>)

  function SendDay(s: Send): (d: nat) { s.reservedAt / DAY }

  /** A send that occupies a slot of `peer` on `day`: in flight, accepted or unconfirmed. */
  predicate Occupies(s: Send, peer: string, day: nat) {
    s.peer == peer && SendDay(s) == day && s.status != Failed
  }

  function Slots(sends: seq<Send>, peer: string, day: nat): (n: nat) {
    if sends == [] then 0
    else Slots(sends[..|sends| - 1], peer, day) + (if Occupies(sends[|sends| - 1], peer, day) then 1 else 0)
  }

  function Next(w: World, a: Action): (t: World) {
    match a
    case Reserve(peer, now) =>
      var r := Reserved(w.sent, peer, now);
      if r.None? then w else World(r.value, w.sends + [Send(peer, now, InFlight)])
    case Resolve(i, attempts) =>
      if i >= |w.sends| || w.sends[i].status != InFlight then w
      else
        var s := w.sends[i];
        var status := Verdict(Made(attempts));
        World(if status == Failed then Refunded(w.sent, s.peer, s.reservedAt) else w.sent,
              w.sends[i := s.(status := status)])
  }

  function Run(actions: seq<Action>): (w: World) {
    if actions == [] then World(Sent(0, map[]), []) else Next(Run(actions[..|actions| - 1]), actions[|actions| - 1])
  }

  /** Each peer's counter is the number of slots occupied on the file's day, and within the cap. */
  ghost predicate Exact(w: World) {
    forall peer :: CountOf(w.sent, peer) == Slots(w.sends, peer, w.sent.day) <= DAILY_CAP
  }

  lemma SlotsAppend(sends: seq<Send>, s: Send, peer: string, day: nat)
    ensures Slots(sends + [s], peer, day) == Slots(sends, peer, day) + if Occupies(s, peer, day) then 1 else 0
  {
    assert (sends + [s])[..|sends|] == sends;
  }

  lemma {:induction false} SlotsUpdate(sends: seq<Send>, i: nat, s: Send, peer: string, day: nat)
    requires i < |sends|
    ensures Slots(sends[i := s], peer, day)
         == Slots(sends, peer, day) - (if Occupies(sends[i], peer, day) then 1 else 0)
            + (if Occupies(s, peer, day) then 1 else 0)
  {
    var n := |sends| - 1;
    if i < n {
      SlotsUpdate(sends[..n], i, s, peer, day);
      assert sends[i := s][..n] == sends[..n][i := s];
    } else {
      assert sends[i := s][..n] == sends[..n];
    }
  }

  /** The reservation is for the file's day, or for a day on which no slot is occupied. */
  ghost predicate OnFreshDay(w: World, now: u64) {
    now / DAY == w.sent.day || forall peer :: Slots(w.sends, peer, now / DAY) == 0
  }

  lemma ReservedCount(w: World, peer: string, now: u64, p: string)
    requires Reserved(w.sent, peer, now).Some?
    ensures var t, day := Next(w, Reserve(peer, now)), now / DAY;
            && t.sent.day == day
            && Slots(t.sends, p, day) == Slots(w.sends, p, day) + (if p == peer then 1 else 0)
            && CountOf(t.sent, p) == CountOf(OnDay(w.sent, day), p) + (if p == peer then 1 else 0)
  {
    SlotsAppend(w.sends, Send(peer, now, InFlight), p, now / DAY);
  }

  /** A granted reservation keeps every counter exact if and only if it is for the file's day or for an empty one. */
  lemma ReserveKeepsExactly(w: World, peer: string, now: u64)
    requires Exact(w) && Reserved(w.sent, peer, now).Some?
    ensures Exact(Next(w, Reserve(peer, now))) <==> OnFreshDay(w, now)
  {
    var t := Next(w, Reserve(peer, now));
    forall p
      ensures t.sent.day == now / DAY
      ensures CountOf(t.sent, p) == Slots(t.sends, p, t.sent.day)
              <==> now / DAY == w.sent.day || Slots(w.sends, p, now / DAY) == 0
      ensures CountOf(t.sent, p) <= DAILY_CAP
    {
      ReservedCount(w, peer, now, p);
      assert CountOf(w.sent, p) == Slots(w.sends, p, w.sent.day) <= DAILY_CAP;
    }
  }

  lemma ResolveKeepsExact(w: World, i: nat, attempts: seq<Attempt>)
    requires Exact(w)
    ensures Exact(Next(w, Resolve(i, attempts)))
  {
    var t := Next(w, Resolve(i, attempts));
    if i < |w.sends| && w.sends[i].status == InFlight {
      forall p
        ensures CountOf(t.sent, p) == Slots(t.sends, p, t.sent.day) <= DAILY_CAP
      {
        SlotsUpdate(w.sends, i, t.sends[i], p, w.sent.day);
        assert CountOf(w.sent, p) == Slots(w.sends, p, w.sent.day);
      }
    }
  }

  // ---- Exactly the runs that keep the counters exact ----

  ghost predicate Fresh(w: World, a: Action) {
    a.Reserve? && Reserved(w.sent, a.peer, a.now).Some? ==> OnFreshDay(w, a.now)
  }

  /** Each granted reservation of the run is for the file's day or for an empty one. */
  ghost predicate FreshRun(actions: seq<Action>) {
    forall n :: 0 <= n < |actions| ==> Fresh(Run(actions[..n]), actions[n])
  }

  ghost predicate AlwaysExact(actions: seq<Action>) {
    forall n :: 0 <= n <= |actions| ==> Exact(Run(actions[..n]))
  }

  lemma StepKeepsExactly(w: World, a: Action)
    requires Exact(w)
    ensures Exact(Next(w, a)) <==> Fresh(w, a)
  {
    match a
    case Reserve(peer, now) =>
      if Reserved(w.sent, peer, now).Some? {
        ReserveKeepsExactly(w, peer, now);
      }
    case Resolve(i, attempts) => ResolveKeepsExact(w, i, attempts);
  }

  lemma RunStep(actions: seq<Action>, n: nat)
    requires n < |actions|
    ensures Run(actions[..n + 1]) == Next(Run(actions[..n]), actions[n])
  {
    assert actions[..n + 1][..n] == actions[..n];
  }

  lemma {:induction false} FreshStaysExact(actions: seq<Action>, n: nat)
    requires FreshRun(actions) && n <= |actions|
    ensures Exact(Run(actions[..n]))
  {
    if n > 0 {
      FreshStaysExact(actions, n - 1);
      RunStep(actions, n - 1);
      StepKeepsExactly(Run(actions[..n - 1]), actions[n - 1]);
    } else {
      assert forall peer :: CountOf(Run([]).sent, peer) == Slots([], peer, 0);
    }
  }

  /**
   * Each peer's counter is, at every point of a run, the number of that day's sends that are in flight, accepted or
   * unconfirmed, and at most fifty, if and only if each granted reservation is for the file's day or for an empty one.
   */
  lemma SlotsAreExact(actions: seq<Action>)
    ensures AlwaysExact(actions) <==> FreshRun(actions)
  {
    if AlwaysExact(actions) {
      forall n | 0 <= n < |actions|
        ensures Fresh(Run(actions[..n]), actions[n])
      {
        RunStep(actions, n);
        assert Exact(Run(actions[..n])) && Exact(Run(actions[..n + 1]));
        StepKeepsExactly(Run(actions[..n]), actions[n]);
      }
    }
    if FreshRun(actions) {
      forall n | 0 <= n <= |actions|
        ensures Exact(Run(actions[..n]))
      {
        FreshStaysExact(actions, n);
      }
    }
  }

  /**
   * In such a run, a send for the file's day or for an empty one is granted if and only if fewer than fifty of that
   * day's sends to the peer are in flight, accepted or unconfirmed: a failed one gives its slot back.
   */
  lemma GrantedExactly(actions: seq<Action>, peer: string, now: u64)
    requires FreshRun(actions) && OnFreshDay(Run(actions), now)
    ensures var w := Run(actions);
            |Next(w, Reserve(peer, now)).sends| == |w.sends| + 1 <==> Slots(w.sends, peer, now / DAY) < DAILY_CAP
  {
    var w := Run(actions);
    FreshStaysExact(actions, |actions|);
    assert actions[..|actions|] == actions;
    assert CountOf(w.sent, peer) == Slots(w.sends, peer, w.sent.day);
  }

  // ---- A clock that never goes back a day is enough ----

  /** Reservation times never go back a day. */
  predicate OrderedRun(actions: seq<Action>) {
    forall n :: 0 <= n < |actions| && actions[n].Reserve? ==> actions[n].now / DAY >= Run(actions[..n]).sent.day
  }

  predicate NoSendAfter(w: World) { forall i :: 0 <= i < |w.sends| ==> SendDay(w.sends[i]) <= w.sent.day }

  lemma {:induction false} NoSlotsLater(sends: seq<Send>, peer: string, day: nat)
    requires forall i :: 0 <= i < |sends| ==> SendDay(sends[i]) < day
    ensures Slots(sends, peer, day) == 0
  {
    if sends != [] {
      NoSlotsLater(sends[..|sends| - 1], peer, day);
    }
  }

  lemma {:induction false} OrderedSends(actions: seq<Action>, n: nat)
    requires OrderedRun(actions) && n <= |actions|
    ensures NoSendAfter(Run(actions[..n]))
  {
    if n > 0 {
      OrderedSends(actions, n - 1);
      RunStep(actions, n - 1);
      StepKeepsOrder(Run(actions[..n - 1]), actions[n - 1]);
    }
  }

  lemma StepKeepsOrder(w: World, a: Action)
    requires NoSendAfter(w) && (a.Reserve? ==> a.now / DAY >= w.sent.day)
    ensures NoSendAfter(Next(w, a))
  {
  }

  lemma OrderedRunsAreFresh(actions: seq<Action>)
    requires OrderedRun(actions)
    ensures FreshRun(actions)
  {
    forall n | 0 <= n < |actions|
      ensures Fresh(Run(actions[..n]), actions[n])
    {
      OrderedSends(actions, n);
      var w, a := Run(actions[..n]), actions[n];
      if a.Reserve? && a.now / DAY > w.sent.day {
        forall peer
          ensures Slots(w.sends, peer, a.now / DAY) == 0
        {
          NoSlotsLater(w.sends, peer, a.now / DAY);
        }
      }
    }
  }

  /** A reservation dated a day back, and one for the day it left, make the counter too low. */
  lemma BackdatedReservationForgets(peer: string)
    ensures var w := Next(Next(Next(Run([]), Reserve(peer, DAY)), Reserve(peer, 0)), Reserve(peer, DAY));
            CountOf(w.sent, peer) == 1 && Slots(w.sends, peer, w.sent.day) == 2
  {
    var a := Next(Run([]), Reserve(peer, DAY));
    var b := Next(a, Reserve(peer, 0));
    ReservedCount(Run([]), peer, DAY, peer);
    ReservedCount(a, peer, 0, peer);
    ReservedCount(b, peer, DAY, peer);
    SlotsAppend(a.sends, Send(peer, 0, InFlight), peer, 1);
    assert b.sends == a.sends + [Send(peer, 0, InFlight)];
  }
}
