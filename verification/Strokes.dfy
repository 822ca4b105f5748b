/** A simple injective byte code for text, for the line formats that show the codec laws can be met. */
module Strokes {
  import opened ByteLines

  /** Text in two byte values: each character counted in ones and ended by a two. */
  function Strokes(n: nat): (r: Bytes)
    ensures forall x :: x in r ==> x == 1 || x == 2
  {
    if n == 0 then [2] else [1] + Strokes(n - 1)
  }

  function Coded(s: string): (r: Bytes)
    ensures forall x :: x in r ==> x == 1 || x == 2
  {
    if s == [] then [] else Strokes(s[0] as int) + Coded(s[1..])
  }

  lemma {:induction false} StrokesTellApart(m: nat, a: Bytes, n: nat, b: Bytes)
    requires Strokes(m) + a == Strokes(n) + b
    ensures m == n && a == b
  {
    var x, y := Strokes(m) + a, Strokes(n) + b;
    assert x[0] == Strokes(m)[0] && y[0] == Strokes(n)[0];
    if m > 0 && n > 0 {
      assert x[1..] == Strokes(m - 1) + a && y[1..] == Strokes(n - 1) + b;
      StrokesTellApart(m - 1, a, n - 1, b);
    } else {
      assert x[1..] == a && y[1..] == b;
    }
  }

  lemma {:induction false} CodedTellsApart(a: string, b: string)
    requires Coded(a) == Coded(b)
    ensures a == b
  {
    if a != [] && b != [] {
      StrokesTellApart(a[0] as int, Coded(a[1..]), b[0] as int, Coded(b[1..]));
      CodedTellsApart(a[1..], b[1..]);
      assert a == [a[0]] + a[1..] && b == [b[0]] + b[1..];
    }
  }
}
