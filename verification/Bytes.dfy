/** Bytes, fixed-width unsigned integers and their big-endian layouts. */
module Bytes {
  type byte = x: int | 0 <= x < 256
  type uint32 = x: int | 0 <= x < 0x1_0000_0000

  datatype Option<+T> = None | Some(value: T)

  // A sequence as slots that are all occupied.
  function Slots<T>(xs: seq<T>): (slots: seq<Option<T>>)
    ensures |slots| == |xs| && forall i :: 0 <= i < |xs| ==> slots[i] == Some(xs[i])
  {
    seq(|xs|, i requires 0 <= i < |xs| => Some(xs[i]))
  }

  function Zeros(n: nat): (s: seq<byte>)
    ensures |s| == n
  {
    seq(n, _ => 0)
  }

  // binary.BigEndian.PutUint32
  function PutUint32(x: uint32): (s: seq<byte>)
    ensures |s| == 4
  {
    var y := x / 0x100;
    var z := y / 0x100;
    [z / 0x100, z % 0x100, y % 0x100, x % 0x100]
  }

  // binary.BigEndian.Uint32 and Uint64, for any width
  function BigEndian(s: seq<byte>): nat {
    if s == [] then 0 else 256 * BigEndian(s[..|s| - 1]) + s[|s| - 1]
  }

  lemma BigEndian4(a: byte, b: byte, c: byte, d: byte)
    ensures BigEndian([a, b, c, d]) == 0x100_0000 * a + 0x1_0000 * b + 0x100 * c + d
  {
    assert [a, b, c, d][..3] == [a, b, c];
    assert [a, b, c][..2] == [a, b];
    assert [a, b][..1] == [a];
    assert BigEndian([a]) == a;
    assert BigEndian([a, b]) == 256 * BigEndian([a]) + b;
    assert BigEndian([a, b, c]) == 256 * BigEndian([a, b]) + c;
  }

  lemma PutUint32RoundTrip(x: uint32)
    ensures BigEndian(PutUint32(x)) == x
  {
    var y := x / 0x100;
    var z := y / 0x100;
    BigEndian4(z / 0x100, z % 0x100, y % 0x100, x % 0x100);
  }

  lemma PutUint32Injective(x: uint32, y: uint32)
    requires PutUint32(x) == PutUint32(y)
    ensures x == y
  {
    PutUint32RoundTrip(x);
    PutUint32RoundTrip(y);
  }

  // Big-endian numbers of one width tell their bytes.
  lemma {:induction false} BigEndianInjective(s: seq<byte>, t: seq<byte>)
    requires |s| == |t| && BigEndian(s) == BigEndian(t)
    ensures s == t
  {
    if s != [] {
      var n := |s| - 1;
      assert s[n] == t[n] && BigEndian(s[..n]) == BigEndian(t[..n]);
      BigEndianInjective(s[..n], t[..n]);
      assert s == s[..n] + [s[n]] && t == t[..n] + [t[n]];
    }
  }
}
