/** A client's conversation with one peer: roles and nonces, the request of a round
    and the handling of its reply; and, with the mix-net in between, what each of two
    peers gets to see. */
module Conversations {
  import opened Bytes
  import opened Boxes
  import opened Onions
  import opened Noise
  import opened DeadDrops
  import opened Dedup
  import opened ConvoSpec
  import opened ConvoTheorems
  import opened ConvoExact
  import opened ConvoRefinement
  import opened Varints
  import opened Messages

  // --- Roles and nonces ------------------------------------------------------------

  // bytes.Compare(a, b) < 0
  predicate Less(a: seq<byte>, b: seq<byte>) {
    if b == [] then false
    else if a == [] then true
    else a[0] < b[0] || (a[0] == b[0] && Less(a[1..], b[1..]))
  }

  lemma {:induction false} LessIsStrict(a: seq<byte>, b: seq<byte>)
    ensures !(Less(a, b) && Less(b, a))
    ensures a != b <==> Less(a, b) || Less(b, a)
  {
    if a != [] && b != [] {
      LessIsStrict(a[1..], b[1..]);
      assert a == [a[0]] + a[1..] && b == [b[0]] + b[1..];
    }
  }

  // The order is decided by the first byte that differs, a prefix coming first.
  lemma {:induction false} LessByFirstDifference(a: seq<byte>, b: seq<byte>, k: nat)
    requires k <= |a| && k <= |b| && a[..k] == b[..k]
    ensures k < |a| && k < |b| && a[k] != b[k] ==> (Less(a, b) <==> a[k] < b[k])
    ensures k == |a| ==> (Less(a, b) <==> k < |b|)
  {
    if k > 0 {
      assert a[0] == a[..k][0] && b[0] == b[..k][0];
      assert a[1..][..k - 1] == a[..k][1..] && b[1..][..k - 1] == b[..k][1..];
      LessByFirstDifference(a[1..], b[1..], k - 1);
    }
  }

  // Role 0 is that of the user with the smaller key.
  function MyRole(me: Key, peer: Key): (role: byte) { if Less(me, peer) then 0 else 1 }
  function TheirRole(me: Key, peer: Key): (role: byte) { if Less(peer, me) then 0 else 1 }

  // Each side expects the role the other one sends with, and the two directions differ
  // exactly when the users do.
  lemma RolesAgree(a: Key, b: Key)
    ensures TheirRole(a, b) == MyRole(b, a)
    ensures MyRole(a, b) != MyRole(b, a) <==> a != b
  {
    LessIsStrict(a, b);
  }

  function MessageNonce(round: uint32, role: byte): (n: Nonce) {
    PutUint32(round) + Zeros(19) + [role]
  }

  lemma MessageNonceInjective(round: uint32, role: byte, round': uint32, role': byte)
    requires MessageNonce(round, role) == MessageNonce(round', role')
    ensures round == round' && role == role'
  {
    var n, n' := MessageNonce(round, role), MessageNonce(round', role');
    assert n[..4] == PutUint32(round) && n'[..4] == PutUint32(round');
    assert n[23] == role && n'[23] == role';
    PutUint32Injective(round, round');
  }

  // The round in four bytes, zeros, and a last byte that is 0 from the user whose key has
  // the smaller byte where the two keys first differ.
  lemma MessageNonceBytes(me: Key, peer: Key, round: uint32, k: nat, z: nat)
    requires k < 32 && me[..k] == peer[..k] && me[k] != peer[k] && 4 <= z < 23
    ensures BigEndian(MessageNonce(round, MyRole(me, peer))[..4]) == round
    ensures MessageNonce(round, MyRole(me, peer))[z] == 0
    ensures MessageNonce(round, MyRole(me, peer))[23] == if me[k] < peer[k] then 0 else 1
  {
    LessByFirstDifference(me, peer, k);
    assert MessageNonce(round, MyRole(me, peer))[..4] == PutUint32(round);
    PutUint32RoundTrip(round);
  }

  // Under the one key that two different users share, no nonce serves two messages:
  // not in two rounds, and not in the two directions.
  lemma NoNonceTwice(a: Key, b: Key, round: uint32, round': uint32)
    requires a != b
    ensures MessageNonce(round, MyRole(a, b)) != MessageNonce(round', MyRole(b, a))
    ensures round != round' ==> MessageNonce(round, MyRole(a, b)) != MessageNonce(round', MyRole(a, b))
  {
    RolesAgree(a, b);
    if MessageNonce(round, MyRole(a, b)) == MessageNonce(round', MyRole(b, a)) {
      MessageNonceInjective(round, MyRole(a, b), round', MyRole(b, a));
    }
    if MessageNonce(round, MyRole(a, b)) == MessageNonce(round', MyRole(a, b)) {
      MessageNonceInjective(round, MyRole(a, b), round', MyRole(a, b));
    }
  }

  // --- One round of one client -------------------------------------------------------

  // HMAC-SHA256 under the shared key
  ghost predicate FullSize(f: (SharedKey, uint32) -> seq<byte>) {
    forall k, r :: |f(k, r)| == 32
  }

  type Mac = f: (SharedKey, uint32) -> seq<byte> | FullSize(f)
    ghost witness (k: SharedKey, r: uint32) => Zeros(32)

  // The encrypted message of a round.
  function Spoken(me: Key, peer: Key, round: uint32, body: Body): (w: Wire)
    ensures Len(w) == SIZE_ENCRYPTED_MESSAGE
  {
    Sealed(Shared({peer, me}), MessageNonce(round, MyRole(me, peer)), Plain(Marshalled(body)))
  }

  // The dead drop of a round; a user alone draws one at random.
  function MeetingPlace(mac: Mac, me: Key, peer: Key, round: uint32, random: seq<byte>): (drop: seq<byte>)
    requires |random| == SIZE_DEAD_DROP
    ensures |drop| == SIZE_DEAD_DROP
  {
    if me == peer then random else mac(Shared({peer, me}), round)[..SIZE_DEAD_DROP]
  }

  // Who meets where: two conversations share a dead drop exactly when the first sixteen bytes
  // of the MACs of their rounds under their shared keys agree; a user alone is where it drew.
  lemma MeetingPlacesDiffer(mac: Mac, a: Key, b: Key, round: uint32, ra: seq<byte>,
                            a': Key, b': Key, round': uint32, ra': seq<byte>)
    requires |ra| == |ra'| == SIZE_DEAD_DROP && a != b
    ensures a' != b' ==>
      (MeetingPlace(mac, a, b, round, ra) == MeetingPlace(mac, a', b', round', ra') <==>
       mac(Shared({a, b}), round)[..16] == mac(Shared({a', b'}), round')[..16])
    ensures a' == b' ==>
      (MeetingPlace(mac, a, b, round, ra) == MeetingPlace(mac, a', b', round', ra') <==>
       mac(Shared({a, b}), round)[..16] == ra')
    ensures MeetingPlace(mac, a, a, round, ra) == ra
  {
    assert {a, b} == {b, a} && {a', b'} == {b', a'};
  }

  function Speaker(mac: Mac, me: Key, peer: Key, round: uint32, body: Body, random: seq<byte>,
                   ephs: seq<Key>): (cl: Client)
    requires |random| == SIZE_DEAD_DROP
    ensures Honest(cl, |ephs|)
  {
    Client(MeetingPlace(mac, me, peer, round, random), Spoken(me, peer, round, body), ephs)
  }

  // What a reply turns out to be.
  datatype Heard =
    | UnknownRound | OnionFailed | OwnMessage | PeerFailed | Malformed | Crashed
    | HeardText(text: seq<byte>) | HeardTime(unix: int64)
  {
    predicate Responding() { HeardText? || HeardTime? }
  }

  // An empty plaintext has no type byte to look at.
  function Understood(msg: seq<byte>): (h: Heard) {
    if msg == [] then Crashed else
    match Unmarshal(msg)
    case BadType(_) => Malformed
    case Message(Timestamp(unix)) => HeardTime(unix)
    case Message(Text(message)) => HeardText(TrimNul(message))
  }

  datatype PendingRound = PendingRound(onionSharedKeys: seq<SharedKey>, sentMessage: Wire)

  function Hear(c: Cipher, me: Key, peer: Key, round: uint32, pr: PendingRound, onion: Wire): (h: Heard) {
    match Unwrapped(onion, BackwardNonce(round), pr.onionSharedKeys)
    case None => OnionFailed
    case Some(encmsg) =>
      if Render(c, encmsg) == Render(c, pr.sentMessage) && me != peer then OwnMessage else
      match OpenBox(Shared({peer, me}), MessageNonce(round, TheirRole(me, peer)), encmsg)
      case None => PeerFailed
      case Some(msg) => Understood(Render(c, msg))
  }

  // The reply opens, layer by layer, to a box that the peer sealed for this round.
  ghost predicate FromPeer(me: Key, peer: Key, round: uint32, pr: PendingRound, onion: Wire) {
    var encmsg := Unwrapped(onion, BackwardNonce(round), pr.onionSharedKeys);
    encmsg.Some? && OpenBox(Shared({peer, me}), MessageNonce(round, TheirRole(me, peer)), encmsg.value).Some?
  }

  // The client crashes exactly on a reply from the peer that is just large enough for its
  // boxes, with nothing in the innermost one.
  lemma CrashesExactly(c: Cipher, me: Key, peer: Key, round: uint32, pr: PendingRound, onion: Wire)
    requires Len(pr.sentMessage) == SIZE_ENCRYPTED_MESSAGE
    ensures Hear(c, me, peer, round, pr, onion) == Crashed <==>
      FromPeer(me, peer, round, pr, onion) && Len(onion) == |pr.onionSharedKeys| * BOX_OVERHEAD + BOX_OVERHEAD
  {
    var encmsg := Unwrapped(onion, BackwardNonce(round), pr.onionSharedKeys);
    if encmsg.Some? { UnwrappedSize(onion, BackwardNonce(round), pr.onionSharedKeys); }
  }

  // Servers send no such reply: every Get pads its onions to the outgoing size.
  lemma FullRepliesNeverCrash(c: Cipher, me: Key, peer: Key, round: uint32, pr: PendingRound, onion: Wire)
    requires Len(pr.sentMessage) == SIZE_ENCRYPTED_MESSAGE && Len(onion) == ReplySize(|pr.onionSharedKeys|)
    ensures Hear(c, me, peer, round, pr, onion) != Crashed
  {
    CrashesExactly(c, me, peer, round, pr, onion);
  }

  // A reply on which the client does crash.
  lemma EmptyMessageCrashes(c: Cipher, me: Key, peer: Key, round: uint32, pr: PendingRound)
    requires Len(pr.sentMessage) == SIZE_ENCRYPTED_MESSAGE
    ensures var empty := Sealed(Shared({peer, me}), MessageNonce(round, TheirRole(me, peer)), Plain([]));
      Hear(c, me, peer, round, pr, Wrapped(empty, BackwardNonce(round), pr.onionSharedKeys)) == Crashed
  {
    var empty := Sealed(Shared({peer, me}), MessageNonce(round, TheirRole(me, peer)), Plain([]));
    OpenInvertsReplyLayers(empty, BackwardNonce(round), pr.onionSharedKeys);
    CrashesExactly(c, me, peer, round, pr, Wrapped(empty, BackwardNonce(round), pr.onionSharedKeys));
  }

  // The reply is the message this client sent; one who talks to itself does not look.
  ghost predicate IsEcho(c: Cipher, me: Key, peer: Key, round: uint32, pr: PendingRound, onion: Wire) {
    var encmsg := Unwrapped(onion, BackwardNonce(round), pr.onionSharedKeys);
    me != peer && encmsg.Some? && Render(c, encmsg.value) == Render(c, pr.sentMessage)
  }

  // What the peer put into the innermost box.
  ghost function FromPeerBytes(c: Cipher, me: Key, peer: Key, round: uint32, pr: PendingRound,
                               onion: Wire): (s: seq<byte>)
    requires FromPeer(me, peer, round, pr, onion)
  {
    var encmsg := Unwrapped(onion, BackwardNonce(round), pr.onionSharedKeys).value;
    Render(c, OpenBox(Shared({peer, me}), MessageNonce(round, TheirRole(me, peer)), encmsg).value)
  }

  // Exactly when a reply fails, and why; only the peer can make it count as a response.
  lemma HearExactly(c: Cipher, me: Key, peer: Key, round: uint32, pr: PendingRound, onion: Wire)
    ensures var h := Hear(c, me, peer, round, pr, onion);
      var opens := Unwrapped(onion, BackwardNonce(round), pr.onionSharedKeys).Some?;
      var echo, genuine := IsEcho(c, me, peer, round, pr, onion), FromPeer(me, peer, round, pr, onion);
      && (h == OnionFailed <==> !opens)
      && (h == OwnMessage <==> echo)
      && (h == PeerFailed <==> opens && !echo && !genuine)
      && (h == Malformed <==> !echo && genuine && FromPeerBytes(c, me, peer, round, pr, onion) != []
                              && FromPeerBytes(c, me, peer, round, pr, onion)[0] > 1)
      && (h.HeardText? <==> !echo && genuine && FromPeerBytes(c, me, peer, round, pr, onion) != []
                            && FromPeerBytes(c, me, peer, round, pr, onion)[0] == 1)
      && (h.HeardTime? <==> !echo && genuine && FromPeerBytes(c, me, peer, round, pr, onion) != []
                            && FromPeerBytes(c, me, peer, round, pr, onion)[0] == 0)
      && (h.Responding() <==> !echo && genuine && FromPeerBytes(c, me, peer, round, pr, onion) != []
                              && FromPeerBytes(c, me, peer, round, pr, onion)[0] <= 1)
  {
  }

  // The seconds from the year 1, from which time.Time counts, to 1970.
  const UNIX_TO_INTERNAL := 62135596800

  function Wrap64(x: int): (y: int64) {
    (x + 0x8000_0000_0000_0000) % TWO64 - 0x8000_0000_0000_0000
  }

  // time.Sub saturates.
  function Saturated(x: int): (y: int64) {
    if x < -0x8000_0000_0000_0000 then -0x8000_0000_0000_0000
    else if x > 0x7FFF_FFFF_FFFF_FFFF then 0x7FFF_FFFF_FFFF_FFFF
    else x
  }

  // The nanoseconds from a timestamp to now, itself in nanoseconds since the year 1.
  function Latency(now: int, unix: int64): (ns: int64) {
    Saturated(now - 1_000_000_000 * Wrap64(unix + UNIX_TO_INTERNAL))
  }

  // The latency is the exact difference whenever that is a duration at all. For timestamps
  // so late that the seconds since the year 1 overflow, it is as if the time had been
  // before the year 1: at any later moment the longest duration there is.
  lemma LatencyExact(now: int, unix: int64)
    ensures unix + UNIX_TO_INTERNAL < 0x8000_0000_0000_0000 ==>
      var d := now - 1_000_000_000 * (unix + UNIX_TO_INTERNAL);
      Latency(now, unix) == d <==> -0x8000_0000_0000_0000 <= d < 0x8000_0000_0000_0000
    ensures unix + UNIX_TO_INTERNAL >= 0x8000_0000_0000_0000 && now >= 0 ==>
      Latency(now, unix) == 0x7FFF_FFFF_FFFF_FFFF
  {
    WrapsOnce(unix + UNIX_TO_INTERNAL);
  }

  lemma WrapsOnce(x: int)
    requires -0x8000_0000_0000_0000 <= x < TWO64
    ensures Wrap64(x) == if x < 0x8000_0000_0000_0000 then x else x - TWO64
  {
  }

  class Conversation {
    const me: Key
    const peer: Key
    const servers: seq<Key>
    const cipher: Cipher
    const mac: Mac

    var outQueue: seq<seq<byte>>
    var pendingRounds: map<uint32, PendingRound>
    var lastPeerResponding: bool
    var lastLatency: int64
    var lastRound: uint32

    // Every pending round remembers the message that was sealed for the peer in it.
    ghost predicate Valid()
      reads this
    {
      && |outQueue| <= 64
      && forall r :: r in pendingRounds ==>
           && |pendingRounds[r].onionSharedKeys| == |servers|
           && exists body :: pendingRounds[r].sentMessage == Spoken(me, peer, r, body)
    }

    constructor (me: Key, peer: Key, servers: seq<Key>, cipher: Cipher, mac: Mac)
      ensures this.me == me && this.peer == peer && this.servers == servers && this.cipher == cipher && this.mac == mac
      ensures Valid() && outQueue == [] && pendingRounds == map[] && !lastPeerResponding && lastLatency == 0
    {
      this.me, this.peer, this.servers, this.cipher, this.mac := me, peer, servers, cipher, mac;
      outQueue, pendingRounds, lastPeerResponding, lastLatency, lastRound := [], map[], false, 0, 0;
    }

    // A full queue changes nothing; the caller blocks and tries again.
    method QueueTextMessage(msg: seq<byte>) returns (queued: bool)
      requires Valid()
      modifies `outQueue
      ensures Valid() && queued == (|old(outQueue)| < 64)
      ensures outQueue == if queued then old(outQueue) + [msg] else old(outQueue)
    {
      queued := |outQueue| < 64;
      if queued { outQueue := outQueue + [msg]; }
    }

    // The oldest queued text, or the time when there is none.
    method NextBody(now: int64) returns (body: Body)
      requires Valid()
      modifies `outQueue
      ensures Valid()
      ensures old(outQueue) == [] ==> body == Timestamp(now) && outQueue == []
      ensures old(outQueue) != [] ==> body.Text? && [body.message] + outQueue == old(outQueue)
    {
      if outQueue == [] { return Timestamp(now); }
      body := Text(outQueue[0]);
      outQueue := outQueue[1..];
    }

    method NextConvoRequest(round: uint32, now: int64, random: seq<byte>, ephs: seq<Key>)
      returns (onion: Wire, ghost body: Body)
      requires Valid() && |random| == SIZE_DEAD_DROP && |ephs| == |servers|
      modifies `outQueue, `pendingRounds, `lastRound
      ensures Valid() && lastRound == round
      ensures old(outQueue) == [] ==> body == Timestamp(now) && outQueue == []
      ensures old(outQueue) != [] ==> body.Text? && [body.message] + outQueue == old(outQueue)
      ensures onion == ClientOnion(Speaker(mac, me, peer, round, body, random, ephs), servers, round)
      ensures pendingRounds == old(pendingRounds)[round :=
        PendingRound(Agreed(servers, ephs), Spoken(me, peer, round, body))]
    {
      lastRound := round;
      var b := NextBody(now);
      body := b;
      var msgdata := Marshal(b);
      var encmsg := Sealed(Shared({peer, me}), MessageNonce(round, MyRole(me, peer)), Plain(msgdata));
      var drop := MeetingPlace(mac, me, peer, round, random);
      var sharedKeys;
      onion, sharedKeys := Seal(Cat(drop, encmsg), ForwardNonce(round), servers, ephs);
      pendingRounds := pendingRounds[round := PendingRound(sharedKeys, encmsg)];
      assert encmsg == Spoken(me, peer, round, b);
    }

    // A reply counts once: its round is no longer pending afterwards.
    method HandleConvoResponse(round: uint32, onion: Wire, now: int) returns (heard: Heard)
      requires Valid()
      modifies `pendingRounds, `lastPeerResponding, `lastLatency
      ensures Valid() && pendingRounds == old(pendingRounds) - {round}
      ensures heard == if round in old(pendingRounds)
        then Hear(cipher, me, peer, round, old(pendingRounds)[round], onion) else UnknownRound
      ensures lastPeerResponding <==> heard.Responding()
      ensures lastLatency == if heard.HeardTime? then Latency(now, heard.unix) else old(lastLatency)
      ensures Len(onion) == ReplySize(|servers|) ==> heard != Crashed
    {
      if round !in pendingRounds {
        lastPeerResponding := false;
        return UnknownRound;
      }
      var pr := pendingRounds[round];
      pendingRounds := pendingRounds - {round};
      heard := Respond(round, pr, onion);
      lastPeerResponding := heard.Responding();
      if heard.HeardTime? { lastLatency := Latency(now, heard.unix); }
      if Len(onion) == ReplySize(|servers|) { FullRepliesNeverCrash(cipher, me, peer, round, pr, onion); }
    }

    method Respond(round: uint32, pr: PendingRound, onion: Wire) returns (heard: Heard)
      ensures heard == Hear(cipher, me, peer, round, pr, onion)
    {
      var encmsg := Open(onion, BackwardNonce(round), pr.onionSharedKeys);
      if encmsg.None? { return OnionFailed; }
      if Render(cipher, encmsg.value) == Render(cipher, pr.sentMessage) && me != peer { return OwnMessage; }
      var msg := OpenBox(Shared({peer, me}), MessageNonce(round, TheirRole(me, peer)), encmsg.value);
      if msg.None? { return PeerFailed; }
      heard := Understood(Render(cipher, msg.value));
    }
  }

  // --- What peers see ----------------------------------------------------------------------

  // The meaning of a message: its text up to what fits and without trailing zero bytes,
  // or its time.
  function Meaning(body: Body): (h: Heard) {
    match body
    case Timestamp(unix) => HeardTime(unix)
    case Text(message) => HeardText(Shown(message))
  }

  lemma MeaningSurvives(body: Body)
    ensures Understood(Marshalled(body)) == Meaning(body)
  {
    match body
    case Timestamp(unix) => TimestampArrives(unix);
    case Text(message) => TextArrives(message);
  }

  // No two messages reach the last server with the same last eight bytes.
  lemma {:induction false} FinalDistinct(c: Cipher, keys: seq<Key>, round: uint32, draws: seq<Draw>,
                                         slots: seq<Option<Wire>>)
    requires keys != [] && ValidDraws(draws, |keys|) && Collisionless(c, keys, round, draws, slots)
    ensures Distinct(FinalSlots(c, keys, round, draws, slots), MsgKey(c))
    decreases |keys|
  {
    if |keys| > 1 {
      FinalDistinct(c, keys[1..], round, draws[1..], NextSlots(c, keys, round, draws[0], slots));
    }
  }

  lemma EndsAlike(c: Cipher, drop: seq<byte>, a: Wire, b: Wire)
    requires Render(c, a) == Render(c, b) && Len(a) >= 8 && Len(b) >= 8
    ensures MsgKey(c)(Cat(drop, a)) == MsgKey(c)(Cat(drop, b))
  {
    ExchangeEnds(c, drop, a);
    ExchangeEnds(c, drop, b);
    MsgKeyReadsEnding(c, Cat(drop, a), Cat(drop, b));
  }

  // Two clients at one dead drop never send the same bytes.
  lemma PartnersDiffer(c: Cipher, keys: seq<Key>, round: uint32, draws: seq<Draw>, cls: seq<Client>, i: nat, j: nat)
    requires keys != [] && ValidDraws(draws, |keys|) && i < |cls| && j < |cls| && i != j
    requires forall k :: 0 <= k < |cls| ==> Honest(cls[k], |keys|)
    requires Collisionless(c, keys, round, draws, Slots(ClientOnions(cls, keys, round)))
    requires cls[i].drop == cls[j].drop
    ensures Render(c, cls[i].body) != Render(c, cls[j].body)
  {
    var onions := ClientOnions(cls, keys, round);
    FinalDistinct(c, keys, round, draws, Slots(onions));
    FinalShape(c, keys, round, draws, Slots(onions));
    HonestPeels(c, cls[i], keys, round);
    HonestPeels(c, cls[j], keys, round);
    var final := FinalSlots(c, keys, round, draws, Slots(onions));
    assert final[i] == Some(Cat(cls[i].drop, cls[i].body)) && final[j] == Some(Cat(cls[j].drop, cls[j].body));
    if Render(c, cls[i].body) == Render(c, cls[j].body) {
      EndsAlike(c, cls[i].drop, cls[i].body, cls[j].body);
    }
  }

  // Hearing a message that the peer sealed.
  lemma PeerHeard(c: Cipher, me: Key, peer: Key, round: uint32, pr: PendingRound, onion: Wire, body: Body)
    requires Unwrapped(onion, BackwardNonce(round), pr.onionSharedKeys) == Some(Spoken(peer, me, round, body))
    requires me != peer ==> Render(c, Spoken(peer, me, round, body)) != Render(c, pr.sentMessage)
    ensures Hear(c, me, peer, round, pr, onion) == Meaning(body)
  {
    assert {me, peer} == {peer, me};
    RolesAgree(me, peer);
    MeaningSurvives(body);
  }

  lemma SameMeetingPlace(mac: Mac, a: Key, b: Key, round: uint32, ra: seq<byte>, rb: seq<byte>)
    requires a != b && |ra| == |rb| == SIZE_DEAD_DROP
    ensures MeetingPlace(mac, a, b, round, ra) == MeetingPlace(mac, b, a, round, rb)
  {
    assert {a, b} == {b, a};
  }

  // What the owner of an onion that is no duplicate and shares its drop with nobody but
  // the peer hears, in any batch whose round completes: exactly what the peer said.
  lemma ConversationDelivers(c: Cipher, keys: seq<Key>, round: uint32, draws: seq<Draw>, onions: seq<Wire>, i: nat,
                             j: nat,
                             mac: Mac, a: Key, b: Key, said: Body, answered: Body,
                             ra: seq<byte>, rb: seq<byte>, ea: seq<Key>, eb: seq<Key>)
    requires keys != [] && ValidDraws(draws, |keys|) && i < |onions| && j < |onions| && i != j && a != b
    requires |ra| == |rb| == SIZE_DEAD_DROP && |ea| == |eb| == |keys|
    requires onions[i] == ClientOnion(Speaker(mac, a, b, round, said, ra, ea), keys, round)
    requires onions[j] == ClientOnion(Speaker(mac, b, a, round, answered, rb, eb), keys, round)
    requires Completes(c, keys, round, draws, onions)
    requires Track(c, keys, round, draws, onions, i).Some? && Track(c, keys, round, draws, onions, j).Some?
    requires |Accesses(ParseAll(c, LastBatch(c, keys, round, draws, onions)), MeetingPlace(mac, a, b, round, ra))| <= 2
    ensures var replies := RoundReplies(c, keys, round, draws, onions);
      && replies.Some?
      && Hear(c, a, b, round, PendingRound(Agreed(keys, ea), Spoken(a, b, round, said)), replies.value[i])
         == Meaning(answered)
  {
    CompletesExactly(c, keys, round, draws, onions);
    SpeakerPeels(c, keys, round, onions[i], mac, a, b, said, ra, ea);
    SpeakerPeels(c, keys, round, onions[j], mac, b, a, answered, rb, eb);
    SameMeetingPlace(mac, a, b, round, ra, rb);
    KeptPartnersSwap(c, keys, round, draws, onions, i, j);
    KeptPartnersDiffer(c, keys, round, draws, onions, i, j, MeetingPlace(mac, a, b, round, ra),
      Spoken(a, b, round, said), Spoken(b, a, round, answered));
    PeerHeard(c, a, b, round, PendingRound(Agreed(keys, ea), Spoken(a, b, round, said)),
      RoundReplies(c, keys, round, draws, onions).value[i], answered);
  }

  // A speaker's onion peels to its exchange.
  lemma SpeakerPeels(c: Cipher, keys: seq<Key>, round: uint32, onion: Wire,
                     mac: Mac, me: Key, peer: Key, body: Body, random: seq<byte>, ephs: seq<Key>)
    requires |random| == SIZE_DEAD_DROP && |ephs| == |keys|
    requires onion == ClientOnion(Speaker(mac, me, peer, round, body, random, ephs), keys, round)
    ensures var exchange := Cat(MeetingPlace(mac, me, peer, round, random), Spoken(me, peer, round, body));
      && Peeled(c, keys, ForwardNonce(round), SIZE_CONVO_EXCHANGE, onion) == Some(Core(Agreed(keys, ephs), exchange))
      && Parse(c, exchange) == Request(exchange.head, exchange.tail)
  {
    var speaker := Speaker(mac, me, peer, round, body, random, ephs);
    HonestPeels(c, speaker, keys, round);
    HonestParses(c, speaker);
  }

  // Two kept messages at one drop are never the same bytes.
  lemma KeptPartnersDiffer(c: Cipher, keys: seq<Key>, round: uint32, draws: seq<Draw>, onions: seq<Wire>, i: nat,
                           j: nat,
                           drop: seq<byte>, a: Wire, b: Wire)
    requires keys != [] && ValidDraws(draws, |keys|) && i < |onions| && j < |onions| && i != j
    requires RoundReplies(c, keys, round, draws, onions).Some?
    requires Track(c, keys, round, draws, onions, i).Some? && Track(c, keys, round, draws, onions, j).Some?
    requires var p := Peeled(c, keys, ForwardNonce(round), SIZE_CONVO_EXCHANGE, onions[i]);
      p.Some? && p.value.message == Cat(drop, a) && Len(a) >= 8
    requires var p := Peeled(c, keys, ForwardNonce(round), SIZE_CONVO_EXCHANGE, onions[j]);
      p.Some? && p.value.message == Cat(drop, b) && Len(b) >= 8
    ensures Render(c, b) != Render(c, a)
  {
    OpensExactlyWhenKept(c, keys, round, draws, onions, i);
    OpensExactlyWhenKept(c, keys, round, draws, onions, j);
    TracksApart(c, keys, round, draws, onions, i, j);
    LastApart(c, keys, round, draws, onions,
      Track(c, keys, round, draws, onions, i).value, Track(c, keys, round, draws, onions, j).value);
    if Render(c, a) == Render(c, b) { EndsAlike(c, drop, a, b); }
  }

  // Without a partner at the drop the client finds its own message, and knows that the
  // peer did not respond; one who talks to itself hears itself. A client whose onion was
  // dropped as a duplicate cannot open the reply.
  lemma AloneHearsItself(c: Cipher, keys: seq<Key>, round: uint32, draws: seq<Draw>, onions: seq<Wire>, i: nat,
                         mac: Mac, a: Key, b: Key, said: Body, ra: seq<byte>, ea: seq<Key>)
    requires keys != [] && ValidDraws(draws, |keys|) && i < |onions| && |ra| == SIZE_DEAD_DROP && |ea| == |keys|
    requires onions[i] == ClientOnion(Speaker(mac, a, b, round, said, ra, ea), keys, round)
    requires Completes(c, keys, round, draws, onions)
    requires |Accesses(ParseAll(c, LastBatch(c, keys, round, draws, onions)), MeetingPlace(mac, a, b, round, ra))| <= 1
    ensures var replies := RoundReplies(c, keys, round, draws, onions);
      && replies.Some?
      && Hear(c, a, b, round, PendingRound(Agreed(keys, ea), Spoken(a, b, round, said)), replies.value[i])
         == if Track(c, keys, round, draws, onions, i).None? then OnionFailed
            else if a == b then Meaning(said) else OwnMessage
  {
    CompletesExactly(c, keys, round, draws, onions);
    SpeakerPeels(c, keys, round, onions[i], mac, a, b, said, ra, ea);
    AloneGetsOwn(c, keys, round, draws, onions, i,
      Core(Agreed(keys, ea), Cat(MeetingPlace(mac, a, b, round, ra), Spoken(a, b, round, said))));
    if Track(c, keys, round, draws, onions, i).Some? {
      OwnHeard(c, a, b, round, PendingRound(Agreed(keys, ea), Spoken(a, b, round, said)),
        RoundReplies(c, keys, round, draws, onions).value[i], said);
    }
  }

  // Hearing the own message.
  lemma OwnHeard(c: Cipher, me: Key, peer: Key, round: uint32, pr: PendingRound, onion: Wire, body: Body)
    requires pr.sentMessage == Spoken(me, peer, round, body)
    requires Unwrapped(onion, BackwardNonce(round), pr.onionSharedKeys) == Some(pr.sentMessage)
    ensures Hear(c, me, peer, round, pr, onion) == if me == peer then Meaning(body) else OwnMessage
  {
    if me == peer { PeerHeard(c, me, peer, round, pr, onion, body); }
  }

  // Among honest clients and without collisions nothing is dropped: two who talk to each
  // other and are alone at their drop understand each other.
  lemma HonestPeers(c: Cipher, keys: seq<Key>, round: uint32, draws: seq<Draw>, cls: seq<Client>, i: nat, j: nat,
                             mac: Mac, a: Key, b: Key, said: Body, answered: Body, ra: seq<byte>, rb: seq<byte>)
    requires keys != [] && ValidDraws(draws, |keys|) && i < |cls| && j < |cls| && i != j && a != b
    requires forall k :: 0 <= k < |cls| ==> Honest(cls[k], |keys|)
    requires Collisionless(c, keys, round, draws, Slots(ClientOnions(cls, keys, round)))
    requires NoiseApart(c, draws, Slots(Asked(cls))) && Uncrowded(Slots(Asked(cls)), i)
    requires |ra| == |rb| == SIZE_DEAD_DROP
    requires cls[i] == Speaker(mac, a, b, round, said, ra, cls[i].ephs)
    requires cls[j] == Speaker(mac, b, a, round, answered, rb, cls[j].ephs)
    ensures var replies := RoundReplies(c, keys, round, draws, ClientOnions(cls, keys, round));
      && replies.Some?
      && Hear(c, a, b, round, PendingRound(Agreed(keys, cls[i].ephs), cls[i].body), replies.value[i])
         == Meaning(answered)
  {
    SameMeetingPlace(mac, a, b, round, ra, rb);
    HonestRound(c, keys, round, draws, cls, i);
    PartnersReply(Asked(cls), i, j);
    PartnersDiffer(c, keys, round, draws, cls, i, j);
    var replies := RoundReplies(c, keys, round, draws, ClientOnions(cls, keys, round)).value;
    PeerHeard(c, a, b, round, PendingRound(Agreed(keys, cls[i].ephs), cls[i].body), replies[i], answered);
  }

  // And one with no other client at the dead drop finds its own message.
  lemma HonestAlone(c: Cipher, keys: seq<Key>, round: uint32, draws: seq<Draw>, cls: seq<Client>, i: nat,
                         mac: Mac, a: Key, b: Key, said: Body, ra: seq<byte>)
    requires keys != [] && ValidDraws(draws, |keys|) && i < |cls| && |ra| == SIZE_DEAD_DROP
    requires forall k :: 0 <= k < |cls| ==> Honest(cls[k], |keys|)
    requires Collisionless(c, keys, round, draws, Slots(ClientOnions(cls, keys, round)))
    requires NoiseApart(c, draws, Slots(Asked(cls)))
    requires cls[i] == Speaker(mac, a, b, round, said, ra, cls[i].ephs)
    requires forall j :: 0 <= j < |cls| ==> !Sharing(Slots(Asked(cls)), i, j)
    ensures var replies := RoundReplies(c, keys, round, draws, ClientOnions(cls, keys, round));
      && replies.Some?
      && Hear(c, a, b, round, PendingRound(Agreed(keys, cls[i].ephs), cls[i].body), replies.value[i])
         == if a == b then Meaning(said) else OwnMessage
  {
    HonestRound(c, keys, round, draws, cls, i);
    OwnReply(Asked(cls), i);
    var replies := RoundReplies(c, keys, round, draws, ClientOnions(cls, keys, round)).value;
    OwnHeard(c, a, b, round, PendingRound(Agreed(keys, cls[i].ephs), cls[i].body), replies[i], said);
  }

  // --- A round full of conversations ---------------------------------------------------------

  // What one user does in a round.
  datatype Talk = Talk(me: Key, peer: Key, body: Body, random: seq<byte>, ephs: seq<Key>)

  ghost predicate Ready(talks: seq<Talk>, servers: nat) {
    forall k :: 0 <= k < |talks| ==> |talks[k].random| == SIZE_DEAD_DROP && |talks[k].ephs| == servers
  }

  function SpeakerOf(mac: Mac, round: uint32, t: Talk): (cl: Client)
    requires |t.random| == SIZE_DEAD_DROP
    ensures Honest(cl, |t.ephs|)
  {
    Speaker(mac, t.me, t.peer, round, t.body, t.random, t.ephs)
  }

  function Speakers(mac: Mac, round: uint32, talks: seq<Talk>, servers: nat): (cls: seq<Client>)
    requires Ready(talks, servers)
    ensures |cls| == |talks| && forall k :: 0 <= k < |cls| ==>
      cls[k] == SpeakerOf(mac, round, talks[k]) && Honest(cls[k], servers)
  {
    seq(|talks|, k requires 0 <= k < |talks| =>
      assert |talks[k].random| == SIZE_DEAD_DROP; SpeakerOf(mac, round, talks[k]))
  }

  // The user is at another dead drop than the conversation of a and b: its own MAC begins
  // differently, or so does what it drew when it talks to itself.
  ghost predicate Elsewhere(mac: Mac, round: uint32, a: Key, b: Key, t: Talk) {
    var place := mac(Shared({a, b}), round)[..16];
    if t.me == t.peer then t.random != place else mac(Shared({t.me, t.peer}), round)[..16] != place
  }

  lemma ElsewhereApart(mac: Mac, round: uint32, a: Key, b: Key, ra: seq<byte>, t: Talk)
    requires a != b && |ra| == |t.random| == SIZE_DEAD_DROP && Elsewhere(mac, round, a, b, t)
    ensures MeetingPlace(mac, t.me, t.peer, round, t.random) != MeetingPlace(mac, a, b, round, ra)
  {
    MeetingPlacesDiffer(mac, a, b, round, ra, t.me, t.peer, round, t.random);
  }

  // Two users of one conversation are alone at their drop when everybody else is elsewhere.
  lemma AloneTogether(mac: Mac, round: uint32, talks: seq<Talk>, servers: nat, i: nat, j: nat)
    requires Ready(talks, servers) && i < |talks| && j < |talks| && talks[i].me != talks[i].peer
    requires forall k :: 0 <= k < |talks| && k != i && k != j ==>
      Elsewhere(mac, round, talks[i].me, talks[i].peer, talks[k])
    ensures Uncrowded(Slots(Asked(Speakers(mac, round, talks, servers))), i)
  {
    var slots := Slots(Asked(Speakers(mac, round, talks, servers)));
    forall k | Sharing(slots, i, k) ensures k == j {
      if k != j { ElsewhereApart(mac, round, talks[i].me, talks[i].peer, talks[i].random, talks[k]); }
    }
  }

  // A round of any number of conversations: two users who name each other understand each
  // other, when no other user's drop is theirs, no messages collide and no noise hits a drop.
  lemma HonestConversation(c: Cipher, keys: seq<Key>, round: uint32, draws: seq<Draw>, mac: Mac, talks: seq<Talk>,
                           i: nat, j: nat)
    requires keys != [] && ValidDraws(draws, |keys|) && Ready(talks, |keys|)
    requires i < |talks| && j < |talks| && i != j
    requires talks[i].me != talks[i].peer && talks[j].me == talks[i].peer && talks[j].peer == talks[i].me
    requires forall k :: 0 <= k < |talks| && k != i && k != j ==>
      Elsewhere(mac, round, talks[i].me, talks[i].peer, talks[k])
    requires var cls := Speakers(mac, round, talks, |keys|);
      && Collisionless(c, keys, round, draws, Slots(ClientOnions(cls, keys, round)))
      && NoiseApart(c, draws, Slots(Asked(cls)))
    ensures var cls := Speakers(mac, round, talks, |keys|);
      var replies := RoundReplies(c, keys, round, draws, ClientOnions(cls, keys, round));
      && replies.Some?
      && Hear(c, talks[i].me, talks[i].peer, round, PendingRound(Agreed(keys, talks[i].ephs), cls[i].body),
              replies.value[i]) == Meaning(talks[j].body)
  {
    AloneTogether(mac, round, talks, |keys|, i, j);
    HonestPeers(c, keys, round, draws, Speakers(mac, round, talks, |keys|), i, j, mac, talks[i].me, talks[i].peer,
      talks[i].body, talks[j].body, talks[i].random, talks[j].random);
  }
}
