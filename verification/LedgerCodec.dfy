/** The laws asked of a ledger codec are consistent: one simple line format keeps them all. */
module LedgerCodec {
  import opened Basics
  import opened ByteLines
  import opened Ledger
  import opened Budget
  import opened Strokes
  import Json

  const OPEN: Byte := 123
  const CLOSE: Byte := 125
  const SPACE: Byte := 32

  function Fields(r: Record): (s: seq<string>) {
    [Decimal(r.amount), Decimal(r.credit), if r.attempt.None? then "" else "=" + r.attempt.value, Decimal(r.recordedAt)]
  }

  lemma FieldsTellApart(a: Record, b: Record)
    requires Fields(a) == Fields(b)
    ensures a == b
  {
    assert Fields(a)[0] == Fields(b)[0] && Fields(a)[1] == Fields(b)[1];
    assert Fields(a)[2] == Fields(b)[2] && Fields(a)[3] == Fields(b)[3];
    DecimalRoundTrip(a.amount);
    DecimalRoundTrip(b.amount);
    DecimalRoundTrip(a.credit);
    DecimalRoundTrip(b.credit);
    DecimalRoundTrip(a.recordedAt);
    DecimalRoundTrip(b.recordedAt);
    if a.attempt.Some? && b.attempt.Some? {
      assert Fields(a)[2][1..] == a.attempt.value && Fields(b)[2][1..] == b.attempt.value;
    }
  }

  function Encode(r: Record): (b: Bytes) { [OPEN] + Coded(Json.PrintStrings(Fields(r))) + [CLOSE] }

  lemma EncodeTellsApart(a: Record, b: Record)
    requires Encode(a) == Encode(b)
    ensures a == b
  {
    var x, y := Json.PrintStrings(Fields(a)), Json.PrintStrings(Fields(b));
    assert Encode(a)[1..|Encode(a)| - 1] == Coded(x) && Encode(b)[1..|Encode(b)| - 1] == Coded(y);
    CodedTellsApart(x, y);
    Json.ReadPrinted(Fields(a));
    Json.ReadPrinted(Fields(b));
    FieldsTellApart(a, b);
  }

  lemma EncodeShape(r: Record)
    ensures var e := Encode(r);
            && |e| >= 2 && e[0] == OPEN && e[|e| - 1] == CLOSE && LF !in e
            && forall i :: 0 <= i < |e| - 1 ==> e[i] != CLOSE
  {
    var e, mid := Encode(r), Coded(Json.PrintStrings(Fields(r)));
    forall i | 1 <= i < |e| - 1
      ensures e[i] != CLOSE && e[i] != LF
    {
      assert e[i] == mid[i - 1] && mid[i - 1] in mid;
    }
  }

  predicate Blank(u: Bytes) { forall i :: 0 <= i < |u| ==> u[i] == SPACE }

  function TrimStart(b: Bytes): (r: Bytes) {
    if b != [] && b[0] == SPACE then TrimStart(b[1..]) else b
  }

  lemma {:induction false} TrimBlank(u: Bytes, text: Bytes)
    requires Blank(u) && text != [] && text[0] != SPACE
    ensures TrimStart(u + text) == text
  {
    if u == [] {
      assert u + text == text;
    } else {
      assert (u + text)[1..] == u[1..] + text;
      TrimBlank(u[1..], text);
    }
  }

  lemma {:induction false} TrimMore(u: Bytes, text: Bytes)
    requires TrimStart(u) != []
    ensures TrimStart(u + text) == TrimStart(u) + text
  {
    if u[0] == SPACE {
      assert (u + text)[1..] == u[1..] + text;
      TrimMore(u[1..], text);
    }
  }

  ghost function Decode(b: Bytes): (r: Option<Record>)
    ensures r.Some? ==> Encode(r.value) == TrimStart(b)
    ensures r.None? ==> forall x :: Encode(x) != TrimStart(b)
  {
    if x: Record :| Encode(x) == TrimStart(b) then Some(x) else None
  }

  lemma CutIsNoRecord(r: Record, k: nat)
    requires 0 < k < |Encode(r)|
    ensures Decode(Encode(r)[..k]) == None
  {
    EncodeShape(r);
    var cut := Encode(r)[..k];
    assert TrimStart(cut) == cut;
    forall x: Record
      ensures Encode(x) != cut
    {
      EncodeShape(x);
      assert cut[k - 1] == Encode(r)[k - 1];
    }
  }

  lemma GluedIsNoRecord(u: Bytes, text: Bytes)
    requires Decode(u).Some? && text != []
    ensures Decode(u + text) == None
  {
    var e := Encode(Decode(u).value);
    EncodeShape(Decode(u).value);
    TrimMore(u, text);
    forall x: Record
      ensures Encode(x) != e + text
    {
      EncodeShape(x);
      assert (e + text)[|e| - 1] == CLOSE;
    }
  }

  lemma GluedAfter(r: Record, u: Bytes, k: nat)
    requires 0 < k <= |Encode(r)|
    ensures var c := Codec(Encode, Decode, Blank); c.GluedFor(u, Encode(r)[..k])
  {
    EncodeShape(r);
    var text := Encode(r)[..k];
    assert (u + text)[|u|] == OPEN;
    if Blank(u) {
      TrimBlank(u, text);
      TrimBlank([], text);
      assert [] + text == text;
      DecodeByTrim(u + text, text);
    }
    if Decode(u).Some? {
      GluedIsNoRecord(u, text);
    }
  }

  lemma DecodeByTrim(a: Bytes, b: Bytes)
    requires TrimStart(a) == TrimStart(b)
    ensures Decode(a) == Decode(b)
  {
    if Decode(a).Some? && Decode(b).Some? {
      EncodeTellsApart(Decode(a).value, Decode(b).value);
    }
  }

  /** A codec that keeps every law the ledger relies on. */
  lemma LawfulCodecExists() returns (c: Codec)
    ensures c.Lawful()
  {
    c := Codec(Encode, Decode, Blank);
    forall r: Record
      ensures c.LawfulFor(r)
    {
      EncodeShape(r);
      TrimBlank([], Encode(r));
      assert [] + Encode(r) == Encode(r);
      EncodeTellsApart(r, Decode(Encode(r)).value);
      forall k: nat | 0 < k < |Encode(r)|
        ensures Decode(Encode(r)[..k]) == None
      {
        CutIsNoRecord(r, k);
      }
      forall u: Bytes, k: nat | 0 < k <= |Encode(r)|
        ensures c.GluedFor(u, Encode(r)[..k])
      {
        GluedAfter(r, u, k);
      }
    }
  }
}
