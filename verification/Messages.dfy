/** What two users say to each other: texts and timestamps, in messages of one size. */
module Messages {
  import opened Bytes
  import opened Noise
  import opened Varints

  datatype Body = Timestamp(unix: int64) | Text(message: seq<byte>)

  const ROOM := SIZE_MESSAGE - 1

  // copy into n zero bytes
  function Padded(s: seq<byte>, n: nat): (r: seq<byte>)
    ensures |r| == n
  {
    if |s| >= n then s[..n] else s + Zeros(n - |s|)
  }

  function Marshalled(body: Body): (msg: seq<byte>)
    ensures |msg| == SIZE_MESSAGE
  {
    match body
    case Timestamp(unix) => [0] + Padded(PutVarint(unix), ROOM)
    case Text(message) => [1] + Padded(message, ROOM)
  }

  method Marshal(body: Body) returns (msg: seq<byte>)
    ensures msg == Marshalled(body)
  {
    var buf := new byte[SIZE_MESSAGE](_ => 0);
    match body {
      case Timestamp(unix) => Copy(buf, PutVarint(unix));
      case Text(message) =>
        buf[0] := 1;
        Copy(buf, message);
    }
    msg := buf[..];
  }

  // copy(buf[1:], s)
  method Copy(buf: array<byte>, s: seq<byte>)
    requires buf.Length == SIZE_MESSAGE && forall k :: 1 <= k < SIZE_MESSAGE ==> buf[k] == 0
    modifies buf
    ensures buf[..] == [old(buf[0])] + Padded(s, ROOM)
  {
    var i := 0;
    while i < |s| && i < ROOM
      invariant 0 <= i <= |s| && i <= ROOM
      invariant buf[0] == old(buf[0])
      invariant forall k :: 1 <= k <= i ==> buf[k] == s[k - 1]
      invariant forall k :: i < k < SIZE_MESSAGE ==> buf[k] == 0
    {
      buf[1 + i] := s[i];
      i := i + 1;
    }
    assert buf[..] == [buf[0]] + buf[1..] && buf[1..] == Padded(s, ROOM);
  }

  datatype Parsed = Message(body: Body) | BadType(tag: byte)

  function Unmarshal(msg: seq<byte>): (r: Parsed)
    requires msg != []
  {
    if msg[0] == 0 then Message(Timestamp(Varint(msg[1..])))
    else if msg[0] == 1 then Message(Text(msg[1..]))
    else BadType(msg[0])
  }

  // strings.TrimRight(s, "\x00")
  function TrimNul(s: seq<byte>): (t: seq<byte>)
    ensures |t| <= |s| && t == s[..|t|]
    ensures t != [] ==> t[|t| - 1] != 0
  {
    if s != [] && s[|s| - 1] == 0 then TrimNul(s[..|s| - 1]) else s
  }

  lemma {:induction false} TrimZeros(s: seq<byte>, n: nat)
    ensures TrimNul(s + Zeros(n)) == TrimNul(s)
  {
    if n == 0 {
      assert s + Zeros(0) == s;
    } else {
      var t := s + Zeros(n);
      assert t[|t| - 1] == 0 && t[..|t| - 1] == s + Zeros(n - 1);
      TrimZeros(s, n - 1);
    }
  }

  // What the receiver shows of a text.
  function Shown(message: seq<byte>): (t: seq<byte>) {
    TrimNul(if |message| > ROOM then message[..ROOM] else message)
  }

  lemma TextArrives(message: seq<byte>)
    ensures var r := Unmarshal(Marshalled(Text(message)));
      r.Message? && r.body.Text? && TrimNul(r.body.message) == Shown(message)
  {
    assert Marshalled(Text(message))[1..] == Padded(message, ROOM);
    if |message| == ROOM { assert message[..ROOM] == message; }
    if |message| < ROOM { TrimZeros(message, ROOM - |message|); }
  }

  // A text survives exactly when it fits and does not end in a zero byte.
  lemma ShownExactlyWhenFits(message: seq<byte>)
    ensures Shown(message) == message <==> |message| <= ROOM && (message == [] || message[|message| - 1] != 0)
  {
  }

  // A timestamp always survives.
  lemma TimestampArrives(unix: int64)
    ensures Unmarshal(Marshalled(Timestamp(unix))) == Message(Timestamp(unix))
  {
    VarintRoundTrip(unix, []);
    var s := PutVarint(unix);
    VarintRoundTrip(unix, Zeros(ROOM - |s|));
    assert Marshalled(Timestamp(unix))[1..] == s + Zeros(ROOM - |s|);
  }

  // The bytes on the wire: a type, then the contents, then zeroes.
  lemma MarshalledBytes(message: seq<byte>, unix: int64, k: nat)
    requires k < SIZE_MESSAGE
    ensures Marshalled(Text(message))[k]
         == if k == 0 then 1 else if k <= |message| then message[k - 1] else 0
    ensures Marshalled(Timestamp(unix))[k]
         == if k == 0 then 0 else if k <= |PutVarint(unix)| then PutVarint(unix)[k - 1] else 0
  {
  }
}
