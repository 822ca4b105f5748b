/** Signed events and the latest-version resolver (`latest_per_coordinate` in challenge.rs). */
module Latest {
  import opened Basics
  import opened Drafts

  /** A verified event: its id and author are hex text, and the id is the hash of the rest. */
  datatype Event = Event(id: string, author: string, createdAt: u64, draft: Draft)

  /** The coordinate a replaceable event occupies. */
  datatype Key = Key(author: string, kind: nat, d: string)

  predicate HasKey(e: Event) { Value(e.draft, "d").Ok? }

  function KeyOf(e: Event): (k: Key)
    requires HasKey(e)
  {
    Key(e.author, e.draft.kind, Value(e.draft, "d").value)
  }

  predicate SameKey(e: Event, f: Event) { HasKey(e) && HasKey(f) && KeyOf(e) == KeyOf(f) }

  /** Version order: newer wins; in one second the lower id wins (NIP-01, "Kinds"). */
  predicate Beats(e: Event, f: Event) {
    e.createdAt > f.createdAt || (e.createdAt == f.createdAt && LexLess(e.id, f.id))
  }

  predicate KeyLess(a: Key, b: Key) {
    || LexLess(a.author, b.author)
    || (a.author == b.author && (a.kind < b.kind || (a.kind == b.kind && LexLess(a.d, b.d))))
  }

  /** Ids are hashes: equal ids mean equal events. */
  predicate IdsIdentify(s: set<Event>) { forall e, f :: e in s && f in s && e.id == f.id ==> e == f }

  // ---- The orders are total ----

  lemma BeatsOrder(e: Event, f: Event)
    ensures !(Beats(e, f) && Beats(f, e))
    ensures Beats(e, f) || Beats(f, e) || e.id == f.id
    ensures !Beats(e, e)
  {
    LexTrichotomy(e.id, f.id);
    LexTrichotomy(e.id, e.id);
  }

  lemma BeatsTransitive(e: Event, f: Event, g: Event)
    requires Beats(e, f) && Beats(f, g)
    ensures Beats(e, g)
  {
    if e.createdAt == f.createdAt == g.createdAt {
      LexTransitive(e.id, f.id, g.id);
    }
  }

  lemma KeyTrichotomy(a: Key, b: Key)
    ensures KeyLess(a, b) || KeyLess(b, a) || a == b
    ensures !(KeyLess(a, b) && KeyLess(b, a)) && (KeyLess(a, b) ==> a != b)
  {
    LexTrichotomy(a.author, b.author);
    LexTrichotomy(a.d, b.d);
  }

  lemma KeyTransitive(a: Key, b: Key, c: Key)
    requires KeyLess(a, b) && KeyLess(b, c)
    ensures KeyLess(a, c)
  {
    if LexLess(a.author, b.author) && LexLess(b.author, c.author) {
      LexTransitive(a.author, b.author, c.author);
    } else if LexLess(a.d, b.d) && LexLess(b.d, c.d) {
      LexTransitive(a.d, b.d, c.d);
    }
  }

  // ---- The map of latest versions, kept in key order ----

  predicate Sorted(v: seq<Event>) {
    && (forall i :: 0 <= i < |v| ==> HasKey(v[i]))
    && (forall i, j :: 0 <= i < j < |v| ==> KeyLess(KeyOf(v[i]), KeyOf(v[j])))
  }

  /** One turn of the loop: keep `e` unless its coordinate already holds a version that beats it. */
  function Insert(v: seq<Event>, e: Event): (r: seq<Event>)
    requires HasKey(e) && forall i :: 0 <= i < |v| ==> HasKey(v[i])
    ensures forall i :: 0 <= i < |r| ==> HasKey(r[i])
  {
    if v == [] then [e]
    else if KeyOf(v[0]) == KeyOf(e) then (if Beats(e, v[0]) then [e] + v[1..] else v)
    else if KeyLess(KeyOf(e), KeyOf(v[0])) then [e] + v
    else [v[0]] + Insert(v[1..], e)
  }

  /** The resolved view of a list of events, in coordinate order. */
  function View(events: seq<Event>): (v: seq<Event>)
    ensures forall i :: 0 <= i < |v| ==> HasKey(v[i])
  {
    if events == [] then []
    else
      var before := View(events[..|events| - 1]);
      var e := events[|events| - 1];
      if HasKey(e) then Insert(before, e) else before
  }

  method LatestPerCoordinate(events: seq<Event>) returns (out: seq<Event>)
    ensures out == View(events)
  {
    out := [];
    for i := 0 to |events|
      invariant out == View(events[..i])
    {
      assert events[..i + 1][..i] == events[..i];
      if HasKey(events[i]) {
        out := Insert(out, events[i]);
      }
    }
    assert events[..|events|] == events;
  }

  /** `e` survives in `s`: nothing at its coordinate beats it. */
  predicate Winner(s: set<Event>, e: Event) {
    e in s && HasKey(e) && forall f :: f in s && SameKey(f, e) ==> !Beats(f, e)
  }

  lemma {:induction false} InsertMembers(v: seq<Event>, e: Event, x: Event)
    requires HasKey(e) && Sorted(v)
    ensures x in Insert(v, e) <==>
            || (x in v && !(SameKey(x, e) && Beats(e, x)))
            || (x == e && forall y :: y in v && SameKey(y, e) ==> Beats(e, y))
    decreases |v|
  {
    if v != [] {
      var w := v[1..];
      assert v == [v[0]] + w;
      if KeyOf(v[0]) == KeyOf(e) {
        forall y | y in w
          ensures !SameKey(y, e)
        {
          KeyTrichotomy(KeyOf(v[0]), KeyOf(y));
        }
        assert SameKey(v[0], e);
      } else if KeyLess(KeyOf(e), KeyOf(v[0])) {
        forall y | y in v
          ensures !SameKey(y, e)
        {
          if y in w {
            KeyTransitive(KeyOf(e), KeyOf(v[0]), KeyOf(y));
          }
          KeyTrichotomy(KeyOf(e), KeyOf(y));
        }
      } else {
        InsertMembers(w, e, x);
        assert !SameKey(v[0], e);
      }
    }
  }

  lemma {:induction false} InsertSorted(v: seq<Event>, e: Event)
    requires HasKey(e) && Sorted(v)
    ensures Sorted(Insert(v, e))
    ensures forall x :: x in Insert(v, e) ==> x == e || x in v
  {
    if v != [] {
      var w := v[1..];
      KeyTrichotomy(KeyOf(v[0]), KeyOf(e));
      if KeyLess(KeyOf(e), KeyOf(v[0])) {
        forall j | 0 <= j < |w|
          ensures KeyLess(KeyOf(e), KeyOf(w[j]))
        {
          KeyTransitive(KeyOf(e), KeyOf(v[0]), KeyOf(w[j]));
        }
      } else if KeyOf(e) != KeyOf(v[0]) {
        InsertSorted(w, e);
        var r := Insert(w, e);
        forall j | 0 <= j < |r|
          ensures KeyLess(KeyOf(v[0]), KeyOf(r[j]))
        {
          assert r[j] in r;
          if r[j] != e {
            var k :| 0 <= k < |w| && w[k] == r[j];
          }
        }
      }
    }
  }

  lemma {:induction false} InsertAdds(v: seq<Event>, e: Event, x: Event)
    requires HasKey(e) && (forall i :: 0 <= i < |v| ==> HasKey(v[i])) && x in Insert(v, e)
    ensures x == e || x in v
  {
    if v != [] && KeyOf(v[0]) != KeyOf(e) && !KeyLess(KeyOf(e), KeyOf(v[0])) && x != v[0] {
      InsertAdds(v[1..], e, x);
    }
  }

  lemma {:induction false} ViewHoldsEvents(events: seq<Event>)
    ensures forall x :: x in View(events) ==> x in events
  {
    if events != [] {
      var before, e := events[..|events| - 1], events[|events| - 1];
      ViewHoldsEvents(before);
      assert events == before + [e];
      if HasKey(e) {
        forall x | x in View(events)
          ensures x in events
        {
          InsertAdds(View(before), e, x);
        }
      }
    }
  }

  /** The resolved view holds exactly the survivors, once each, in coordinate order. */
  lemma {:induction false} ViewHoldsWinners(events: seq<Event>)
    requires IdsIdentify(SeqSet(events))
    ensures Sorted(View(events))
    ensures forall x :: x in View(events) <==> Winner(SeqSet(events), x)
  {
    if events != [] {
      var n := |events| - 1;
      var before, e := events[..n], events[n];
      assert events == before + [e];
      SeqSetConcat(before, [e]);
      ViewHoldsWinners(before);
      if HasKey(e) {
        InsertSorted(View(before), e);
        forall x
          ensures x in View(events) <==> Winner(SeqSet(events), x)
        {
          InsertMembers(View(before), e, x);
          WinnerStep(SeqSet(before), e, x);
        }
      }
    }
  }

  /** How one more event changes the survivors. */
  lemma WinnerStep(s: set<Event>, e: Event, x: Event)
    requires HasKey(e) && IdsIdentify(s + {e})
    ensures Winner(s + {e}, x) <==>
            || (Winner(s, x) && !(SameKey(x, e) && Beats(e, x)))
            || (x == e && forall y :: Winner(s, y) && SameKey(y, e) ==> Beats(e, y))
  {
    BeatsOrder(e, e);
    if x == e && (forall y :: Winner(s, y) && SameKey(y, e) ==> Beats(e, y)) {
      forall f | f in s && SameKey(f, e)
        ensures !Beats(f, e)
      {
        var y := WinnerAbove(s, f);
        BeatsOrder(e, y);
        BeatsOrder(e, f);
        if f != y && Beats(f, e) {
          BeatsTransitive(y, f, e);
        }
      }
    }
    if Winner(s + {e}, x) && x == e {
      forall y | Winner(s, y) && SameKey(y, e)
        ensures Beats(e, y) || y == e
      {
        BeatsOrder(e, y);
      }
      if Winner(s, e) {
        assert !(SameKey(x, e) && Beats(e, x));
      }
    }
  }

  /** Every event is matched or beaten by a survivor of its coordinate. */
  lemma WinnerAbove(s: set<Event>, f: Event) returns (y: Event)
    requires f in s && HasKey(f) && IdsIdentify(s)
    ensures Winner(s, y) && SameKey(y, f) && (y == f || Beats(y, f))
    decreases |s|
  {
    if g :| g in s && SameKey(g, f) && Beats(g, f) {
      BeatsOrder(g, f);
      var t := s - {f};
      y := WinnerAbove(t, g);
      if y != g {
        BeatsTransitive(y, g, f);
      }
      BeatsOrder(y, f);
      assert forall h :: h in s && SameKey(h, y) ==> h in t || h == f;
    } else {
      y := f;
    }
  }

  lemma HeadNotInTail(v: seq<Event>)
    requires Sorted(v) && v != []
    ensures v[0] !in v[1..]
  {
    KeyTrichotomy(KeyOf(v[0]), KeyOf(v[0]));
    forall k | 1 <= k < |v|
      ensures v[k] != v[0]
    {
      assert KeyLess(KeyOf(v[0]), KeyOf(v[k]));
    }
  }

  /** Sorted lists are determined by their elements. */
  lemma {:induction false} SortedUnique(a: seq<Event>, b: seq<Event>)
    requires Sorted(a) && Sorted(b) && forall x :: x in a <==> x in b
    ensures a == b
  {
    assert b == [] || b[0] in b;
    if a != [] {
      assert a[0] in a && a[0] in b;
      var i :| 0 <= i < |b| && b[i] == a[0];
      assert b[0] in b && b[0] in a;
      var j :| 0 <= j < |a| && a[j] == b[0];
      KeyTrichotomy(KeyOf(a[0]), KeyOf(b[0]));
      assert a[0] == b[0];
      HeadNotInTail(a);
      HeadNotInTail(b);
      assert a == [a[0]] + a[1..] && b == [b[0]] + b[1..];
      assert forall x :: x in a[1..] <==> x in a && x != a[0];
      assert forall x :: x in b[1..] <==> x in b && x != b[0];
      SortedUnique(a[1..], b[1..]);
    }
  }

  /** Order and repetition of the input never change the view. */
  lemma ViewDependsOnSet(a: seq<Event>, b: seq<Event>)
    requires SeqSet(a) == SeqSet(b) && IdsIdentify(SeqSet(a))
    ensures View(a) == View(b)
  {
    ViewHoldsWinners(a);
    ViewHoldsWinners(b);
    SortedUnique(View(a), View(b));
  }

  /** Resolving two partial views resolves the union: relays may be merged in any grouping. */
  lemma ViewMerges(a: seq<Event>, b: seq<Event>)
    requires IdsIdentify(SeqSet(a + b))
    ensures View(a + b) == View(View(a) + View(b))
  {
    var s, t := SeqSet(a), SeqSet(b);
    SeqSetConcat(a, b);
    ViewHoldsWinners(a);
    ViewHoldsWinners(b);
    ViewHoldsWinners(a + b);
    var u := SeqSet(View(a) + View(b));
    SeqSetConcat(View(a), View(b));
    assert u <= s + t;
    ViewHoldsWinners(View(a) + View(b));
    forall x
      ensures Winner(s + t, x) <==> Winner(u, x)
    {
      if Winner(u, x) {
        forall f | f in s + t && SameKey(f, x)
          ensures !Beats(f, x)
        {
          var y := WinnerAbove(if f in s then s else t, f);
          assert y in u;
          if Beats(f, x) && y != f {
            BeatsTransitive(y, f, x);
          }
        }
      }
    }
    SortedUnique(View(a + b), View(View(a) + View(b)));
  }
}
