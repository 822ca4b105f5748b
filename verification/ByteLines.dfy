/** Files of bytes read line by line. */
module ByteLines {
  type Byte = x: nat | x < 256
  type Bytes = seq<Byte>

  const LF: Byte := 10

  /** One past the last line break: everything after it is an uncommitted tail. */
  function CommittedEnd(bytes: Bytes): (end: nat)
    ensures end <= |bytes| && (end > 0 ==> bytes[end - 1] == LF) && LF !in bytes[end..]
  {
    if bytes == [] then 0
    else if bytes[|bytes| - 1] == LF then |bytes|
    else
      var end := CommittedEnd(bytes[..|bytes| - 1]);
      assert bytes[end..] == bytes[..|bytes| - 1][end..] + [bytes[|bytes| - 1]];
      end
  }

  function FirstLf(bytes: Bytes): (k: nat)
    ensures k <= |bytes| && LF !in bytes[..k] && (k < |bytes| ==> bytes[k] == LF)
  {
    if bytes == [] || bytes[0] == LF then 0
    else
      var k := FirstLf(bytes[1..]);
      assert bytes[..k + 1] == [bytes[0]] + bytes[1..][..k];
      k + 1
  }

  lemma {:induction false} CommittedPrefix(a: Bytes, tail: Bytes)
    requires (a == [] || a[|a| - 1] == LF) && LF !in tail
    ensures CommittedEnd(a + tail) == |a|
  {
    var all := a + tail;
    if tail == [] {
      assert all == a;
    } else {
      assert all[..|all| - 1] == a + tail[..|tail| - 1];
      CommittedPrefix(a, tail[..|tail| - 1]);
      assert all[|all| - 1] == tail[|tail| - 1];
    }
  }

  lemma {:induction false} FirstLfOf(a: Bytes, b: Bytes)
    requires LF !in a && b != [] && b[0] == LF
    ensures FirstLf(a + b) == |a|
  {
    if a == [] {
      assert a + b == b;
    } else {
      assert (a + b)[1..] == a[1..] + b && (a + b)[0] == a[0];
      FirstLfOf(a[1..], b);
    }
  }
}
