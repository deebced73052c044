/** Signed variable-length integers, the encoding/binary format timestamps travel in. */
module Varints {
  import opened Bytes

  const TWO64 := 0x1_0000_0000_0000_0000

  type int64 = x: int | -0x8000_0000_0000_0000 <= x < 0x8000_0000_0000_0000
  type uint64 = x: int | 0 <= x < TWO64

  // The sign moves to the lowest bit.
  function ZigZag(x: int64): uint64 {
    if x >= 0 then 2 * x else -2 * x - 1
  }

  function UnZigZag(u: uint64): int64 {
    if u % 2 == 0 then u / 2 else -(u / 2) - 1
  }

  // Seven bits per byte, lowest first; the high bit marks that more follow.
  function PutUvarint(x: nat): (s: seq<byte>)
    ensures s != []
  {
    if x < 0x80 then [x] else [x % 0x80 + 0x80] + PutUvarint(x / 0x80)
  }

  // One more than the largest number the bytes from position i on can add, in units
  // of that position: a 64-bit number leaves one bit for the tenth byte.
  function Room(i: nat): (n: nat)
    requires i <= 9
    ensures n >= 2 && (i < 9 ==> n >= 0x80)
    decreases 9 - i
  {
    if i == 9 then 2 else 0x80 * Room(i + 1)
  }

  // The number in buf[i..]; None when it does not end or does not fit.
  function UvarintFrom(buf: seq<byte>, i: nat): (r: Option<nat>)
    requires i <= |buf|
    ensures r.Some? ==> i <= 9 && r.value < Room(i)
    decreases |buf| - i
  {
    if i == |buf| || i >= 10 then None
    else if buf[i] < 0x80 then
      if i == 9 && buf[i] > 1 then None else Some(buf[i])
    else
      match UvarintFrom(buf, i + 1)
      case None => None
      case Some(v) => Some(buf[i] % 0x80 + 0x80 * v)
  }

  lemma RoomIsAll()
    ensures Room(0) == TWO64
  {
    assert Room(6) == 0x80 * 0x80 * 0x80 * 2;
    assert Room(3) == 0x80 * 0x80 * 0x80 * Room(6);
    assert Room(0) == 0x80 * 0x80 * 0x80 * Room(3);
  }

  function PutVarint(x: int64): (s: seq<byte>)
    ensures s != []
  {
    PutUvarint(ZigZag(x))
  }

  // binary.Varint as its caller uses it: 0 when there is no number.
  function Varint(buf: seq<byte>): (x: int64) {
    match UvarintFrom(buf, 0)
    case None => 0
    case Some(u) => RoomIsAll(); UnZigZag(u)
  }

  // What the low seven bits of the bytes spell, lowest byte first.
  function Sevens(s: seq<byte>): (n: nat) {
    if s == [] then 0 else s[0] % 0x80 + 0x80 * Sevens(s[1..])
  }

  // The high bit is set on every byte but the last.
  ghost predicate Terminated(s: seq<byte>) {
    s != [] && s[|s| - 1] < 0x80 && forall i :: 0 <= i < |s| - 1 ==> s[i] >= 0x80
  }

  lemma {:induction false} UvarintBytes(x: nat)
    ensures Terminated(PutUvarint(x)) && Sevens(PutUvarint(x)) == x
  {
    if x >= 0x80 {
      var rest := PutUvarint(x / 0x80);
      UvarintBytes(x / 0x80);
      assert PutUvarint(x)[1..] == rest;
    }
  }

  // On the wire a number is twice itself, or one less than twice its absolute value when
  // it is negative.
  lemma VarintBytes(x: int64)
    ensures Terminated(PutVarint(x))
    ensures Sevens(PutVarint(x)) == if x >= 0 then 2 * x else -2 * x - 1
  {
    UvarintBytes(ZigZag(x));
  }

  lemma {:induction false} UvarintReads(buf: seq<byte>, i: nat, k: nat)
    requires i <= k < |buf| && k < 10 && Terminated(buf[i..k + 1])
    ensures UvarintFrom(buf, i) == if k == 9 && buf[k] > 1 then None else Some(Sevens(buf[i..k + 1]))
    decreases k - i
  {
    var s := buf[i..k + 1];
    assert s[0] == buf[i] && s[|s| - 1] == buf[k];
    if i < k {
      assert s[1..] == buf[i + 1..k + 1];
      UvarintReads(buf, i + 1, k);
    }
  }

  lemma {:induction false} UvarintUnfinished(buf: seq<byte>, i: nat)
    requires i <= |buf| && forall k :: i <= k < |buf| && k < 10 ==> buf[k] >= 0x80
    ensures UvarintFrom(buf, i).None?
    decreases |buf| - i
  {
    if i < |buf| && i < 10 { UvarintUnfinished(buf, i + 1); }
  }

  // What is read off any bytes at all: the number of the first byte without the high bit,
  // or 0 when none of the first ten is one or the number has more than 64 bits.
  lemma VarintReads(buf: seq<byte>, k: nat)
    requires k <= |buf| && k <= 10 && forall i :: 0 <= i < k ==> buf[i] >= 0x80
    requires k < |buf| && k < 10 ==> buf[k] < 0x80
    ensures k == |buf| || k == 10 || (k == 9 && buf[k] > 1) ==> Varint(buf) == 0
    ensures k < |buf| && k < 10 && (k == 9 ==> buf[k] <= 1) ==>
      Sevens(buf[..k + 1]) == if Varint(buf) >= 0 then 2 * Varint(buf) else -2 * Varint(buf) - 1
  {
    if k == |buf| || k == 10 {
      UvarintUnfinished(buf, 0);
    } else {
      assert buf[0..k + 1] == buf[..k + 1];
      UvarintReads(buf, 0, k);
    }
  }

  lemma {:induction false} UvarintRoundTrip(x: nat, buf: seq<byte>, i: nat)
    requires i <= 9 && x < Room(i)
    requires i + |PutUvarint(x)| <= |buf| && buf[i..i + |PutUvarint(x)|] == PutUvarint(x)
    ensures UvarintFrom(buf, i) == Some(x)
  {
    assert buf[i] == PutUvarint(x)[0];
    if x >= 0x80 {
      var rest := PutUvarint(x / 0x80);
      assert rest == PutUvarint(x)[1..] == buf[i + 1..i + 1 + |rest|];
      UvarintRoundTrip(x / 0x80, buf, i + 1);
    }
  }

  lemma {:induction false} UvarintShort(x: nat, i: nat)
    requires i <= 9 && x < Room(i)
    ensures i + |PutUvarint(x)| <= 10
  {
    if x >= 0x80 { UvarintShort(x / 0x80, i + 1); }
  }

  // Every 64-bit number survives, takes at most ten bytes, and needs no terminator.
  lemma VarintRoundTrip(x: int64, rest: seq<byte>)
    ensures |PutVarint(x)| <= 10 && Varint(PutVarint(x) + rest) == x
  {
    RoomIsAll();
    var u := ZigZag(x);
    UvarintShort(u, 0);
    var buf := PutUvarint(u) + rest;
    assert buf[0..|PutUvarint(u)|] == PutUvarint(u);
    UvarintRoundTrip(u, buf, 0);
  }
}
