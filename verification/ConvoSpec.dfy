/** What a whole conversation round computes: each server peels, deduplicates,
    adds noise and shuffles; the last one exchanges; the replies travel back
    through unshuffling and resealing. `keys` are always the public keys of a
    server and of all servers after it. */
module ConvoSpec {
  import opened Bytes
  import opened Boxes
  import opened Onions
  import opened Noise
  import opened Shuffling
  import opened Dedup
  import opened DeadDrops
  import opened Arrangements

  // Everything one server draws at random in one round.
  datatype Draw = Draw(laplaceSingles: nat, laplaceDoubles: nat, singles: seq<Fake>, doubles: seq<Pair>,
                       swaps: nat -> nat, filler: (nat, nat) -> byte)

  ghost predicate ValidDraw(d: Draw, servers: nat) {
    && |d.singles| == d.laplaceSingles && 2 * |d.doubles| == d.laplaceDoubles + d.laplaceDoubles % 2
    && Drawn(d.singles, SIZE_CONVO_EXCHANGE, servers) && PairsDrawn(d.doubles, servers)
    && forall i :: d.swaps(i) <= i
  }

  // One draw per server; the draw of server k seals noise for those after k.
  ghost predicate ValidDraws(draws: seq<Draw>, servers: nat) {
    && |draws| == servers
    && forall k :: 0 <= k < servers ==> ValidDraw(draws[k], servers - 1 - k)
  }

  function Fakes(d: Draw): (fs: seq<Fake>)
    requires exists servers :: PairsDrawn(d.doubles, servers)
  {
    d.singles + Couples(d.doubles)
  }

  function NoiseOf(d: Draw, round: uint32, next: seq<Key>): (ws: seq<Wire>)
    requires ValidDraw(d, |next|)
  {
    CouplesDrawn(d.doubles, |next|);
    SealAll(Fakes(d), ForwardNonce(round), next)
  }

  // The fake singles come first; then the pairs side by side, their number that of the
  // second sample rounded up to an even one.
  lemma NoiseLaidOut(d: Draw, round: uint32, next: seq<Key>, i: nat, k: nat)
    requires ValidDraw(d, |next|) && i < |d.singles| && k < |d.doubles|
    ensures var noise, n, at := NoiseOf(d, round, next), ForwardNonce(round), d.laplaceSingles + 2 * k;
      && d.laplaceDoubles <= |noise| - d.laplaceSingles <= d.laplaceDoubles + 1
      && (|noise| - d.laplaceSingles) % 2 == 0
      && noise[i] == SealFake(d.singles[i], n, next)
      && noise[at] == SealFake(d.doubles[k].first, n, next)
      && noise[at + 1] == SealFake(Paired(d.doubles[k].first, d.doubles[k].second), n, next)
  {
    CouplesAt(d.doubles, k, |next|);
  }

  // The first n numbers of a source of swaps.
  function ShufflerOf(swaps: nat -> nat, n: nat): (s: seq<nat>)
    requires forall i :: swaps(i) <= i
    ensures |s| == n && Shuffler(s) && forall i :: 0 <= i < n ==> s[i] == swaps(i)
  {
    seq(n, (i: nat) => swaps(i))
  }

  // Random bytes in place of a reply.
  function Filler(d: Draw, slot: nat, size: nat): (w: Wire)
    ensures Len(w) == size && w.Plain? && forall k :: 0 <= k < size ==> w.data[k] == d.filler(slot, k)
  {
    Plain(seq<byte>(size, (k: nat) => d.filler(slot, k)))
  }

  // --- One server ------------------------------------------------------------------

  // The key by which a server recognises a repeated message: its last 8 bytes.
  function MsgKey(c: Cipher): (key: Wire -> nat) {
    (w: Wire) => var s := Render(c, w); if |s| < 8 then 0 else BigEndian(s[|s| - 8..])
  }

  // The last eight bytes of a message.
  function Ending(c: Cipher, w: Wire): (s: seq<byte>)
    requires Len(w) >= 8
    ensures |s| == 8
  {
    Render(c, w)[Len(w) - 8..]
  }

  // Two messages have the same key exactly when they end in the same eight bytes.
  lemma MsgKeyReadsEnding(c: Cipher, x: Wire, y: Wire)
    requires Len(x) >= 8 && Len(y) >= 8
    ensures MsgKey(c)(x) == MsgKey(c)(y) <==> Render(c, x)[Len(x) - 8..] == Render(c, y)[Len(y) - 8..]
  {
    if MsgKey(c)(x) == MsgKey(c)(y) { BigEndianInjective(Ending(c, x), Ending(c, y)); }
  }

  // A message is kept exactly when none before it ends in the same eight bytes.
  lemma FirstByEnding(c: Cipher, slots: seq<Option<Wire>>, i: nat)
    requires i < |slots| && forall j :: 0 <= j < |slots| && slots[j].Some? ==> Len(slots[j].value) >= 8
    ensures First(slots, MsgKey(c), i) <==>
      slots[i].Some? && forall j :: 0 <= j < i && slots[j].Some? ==>
        Ending(c, slots[j].value) != Ending(c, slots[i].value)
  {
    forall j | 0 <= j < i && slots[i].Some? && slots[j].Some?
      ensures MsgKey(c)(slots[j].value) == MsgKey(c)(slots[i].value) <==>
              Ending(c, slots[j].value) == Ending(c, slots[i].value)
    {
      MsgKeyReadsEnding(c, slots[j].value, slots[i].value);
    }
  }

  function Peel(c: Cipher, keys: seq<Key>, round: uint32): (f: Wire -> Option<Wire>)
    requires keys != []
  {
    (w: Wire) => SlotBody(c, keys, ForwardNonce(round), SIZE_CONVO_EXCHANGE, w)
  }

  function Incoming(c: Cipher, keys: seq<Key>, round: uint32, onions: seq<Wire>): (slots: seq<Option<Wire>>)
    requires keys != []
    ensures |slots| == |onions|
  {
    MapAll(Peel(c, keys, round), onions)
  }

  // The shuffler a server draws for the messages it passes on.
  function SlotShuffler(c: Cipher, keys: seq<Key>, round: uint32, d: Draw, slots: seq<Option<Wire>>): (s: seq<nat>)
    requires keys != [] && ValidDraw(d, |keys| - 1)
    ensures Shuffler(s) && |s| == |Kept(slots, MsgKey(c))| + |NoiseOf(d, round, keys[1..])|
  {
    ShufflerOf(d.swaps, |Kept(slots, MsgKey(c))| + |NoiseOf(d, round, keys[1..])|)
  }

  // The batch a server passes on, given the messages it recovered.
  function SlotOutgoing(c: Cipher, keys: seq<Key>, round: uint32, d: Draw, slots: seq<Option<Wire>>): (out: seq<Wire>)
    requires keys != [] && ValidDraw(d, |keys| - 1)
    ensures |out| == |Kept(slots, MsgKey(c))| + |NoiseOf(d, round, keys[1..])|
  {
    PassedOn(slots, MsgKey(c), NoiseOf(d, round, keys[1..]), SlotShuffler(c, keys, round, d, slots))
  }

  function BatchShuffler(c: Cipher, keys: seq<Key>, round: uint32, d: Draw, onions: seq<Wire>): (s: seq<nat>)
    requires keys != [] && ValidDraw(d, |keys| - 1)
  {
    SlotShuffler(c, keys, round, d, Incoming(c, keys, round, onions))
  }

  function Outgoing(c: Cipher, keys: seq<Key>, round: uint32, d: Draw, onions: seq<Wire>): (out: seq<Wire>)
    requires keys != [] && ValidDraw(d, |keys| - 1)
  {
    SlotOutgoing(c, keys, round, d, Incoming(c, keys, round, onions))
  }

  // ConvoExchange.Unmarshal; a message that is too short leaves the exchange zero. No
  // server recovers a longer one.
  function Parse(c: Cipher, w: Wire): (r: Request<seq<byte>, Wire>) {
    if Len(w) < SIZE_CONVO_EXCHANGE then Request(Zeros(SIZE_DEAD_DROP), Plain(Zeros(SIZE_ENCRYPTED_MESSAGE)))
    else Request(Render(c, w)[..SIZE_DEAD_DROP], Suffix(c, w, SIZE_DEAD_DROP))
  }

  function ParseAll(c: Cipher, ws: seq<Wire>): (rs: seq<Request<seq<byte>, Wire>>)
    ensures |rs| == |ws|
  {
    seq(|ws|, i requires 0 <= i < |ws| => Parse(c, ws[i]))
  }

  function ReplySize(servers: nat): nat { servers * BOX_OVERHEAD + SIZE_ENCRYPTED_MESSAGE }

  // What Get returns for a slot with index v and shared key k.
  function GetSlot(servers: nat, round: uint32, d: Draw, slot: nat, v: int, k: SharedKey, replies: seq<Wire>): (w: Wire)
    ensures Len(w) == ReplySize(servers)
  {
    var onion := if 0 <= v < |replies| then Sealed(k, BackwardNonce(round), replies[v]) else Plain([]);
    if Len(onion) == ReplySize(servers) then onion else Filler(d, slot, ReplySize(servers))
  }

  function Answer(c: Cipher, keys: seq<Key>, round: uint32, d: Draw, onions: seq<Wire>, replies: seq<Wire>,
                  i: nat): (w: Wire)
    requires keys != [] && i < |onions|
    ensures Len(w) == ReplySize(|keys|)
  {
    GetSlot(|keys|, round, d, i, Index(Incoming(c, keys, round, onions), MsgKey(c))[i],
            SlotKey(c, keys, SIZE_CONVO_EXCHANGE, onions[i]), replies)
  }

  function Answers(c: Cipher, keys: seq<Key>, round: uint32, d: Draw, onions: seq<Wire>,
                   replies: seq<Wire>): (ws: seq<Wire>)
    requires keys != []
    ensures |ws| == |onions| && forall i :: 0 <= i < |ws| ==> Len(ws[i]) == ReplySize(|keys|)
  {
    seq(|onions|, i requires 0 <= i < |onions| => Answer(c, keys, round, d, onions, replies, i))
  }

  // --- The whole chain ---------------------------------------------------------------

  // The replies a server holds after Close, for the messages it recovered. None
  // when some server from here on passes on fewer messages than it received, so
  // that cutting the replies to the received number fails.
  function CloseReplies(c: Cipher, keys: seq<Key>, round: uint32, draws: seq<Draw>,
                        slots: seq<Option<Wire>>): (r: Option<seq<Wire>>)
    requires keys != [] && ValidDraws(draws, |keys|)
    ensures r.Some? ==> |Kept(slots, MsgKey(c))| <= |r.value|
    decreases |keys|, 0
  {
    if |keys| == 1 then
      Some(Replies(ParseAll(c, Kept(slots, MsgKey(c)))))
    else
      match RoundReplies(c, keys[1..], round, draws[1..], SlotOutgoing(c, keys, round, draws[0], slots))
      case None => None
      case Some(back) =>
        if |back| < |slots| then None
        else Some(Unshuffled(SlotShuffler(c, keys, round, draws[0], slots), back)[..|slots|])
  }

  // The replies to a batch of onions.
  function RoundReplies(c: Cipher, keys: seq<Key>, round: uint32, draws: seq<Draw>,
                        onions: seq<Wire>): (r: Option<seq<Wire>>)
    requires keys != [] && ValidDraws(draws, |keys|)
    ensures r.Some? ==> |r.value| == |onions|
    ensures r.Some? ==> forall i :: 0 <= i < |r.value| ==> Len(r.value[i]) == ReplySize(|keys|)
    decreases |keys|, 1
  {
    match CloseReplies(c, keys, round, draws, Incoming(c, keys, round, onions))
    case None => None
    case Some(replies) => Some(Answers(c, keys, round, draws[0], onions, replies))
  }

  // The messages the last server exchanges, given the messages a server recovered.
  function SlotLast(c: Cipher, keys: seq<Key>, round: uint32, draws: seq<Draw>,
                    slots: seq<Option<Wire>>): (batch: seq<Wire>)
    requires keys != [] && ValidDraws(draws, |keys|)
    decreases |keys|, 0
  {
    if |keys| == 1 then Kept(slots, MsgKey(c))
    else LastBatch(c, keys[1..], round, draws[1..], SlotOutgoing(c, keys, round, draws[0], slots))
  }

  function LastBatch(c: Cipher, keys: seq<Key>, round: uint32, draws: seq<Draw>, onions: seq<Wire>): (batch: seq<Wire>)
    requires keys != [] && ValidDraws(draws, |keys|)
    decreases |keys|, 1
  {
    SlotLast(c, keys, round, draws, Incoming(c, keys, round, onions))
  }

  // An onion sealed for another round is not peeled, by any server.
  lemma OtherRoundStaysShut(c: Cipher, keys: seq<Key>, ephs: seq<Key>, message: Wire, round: uint32, other: uint32)
    requires keys != [] && |ephs| == |keys| && round != other
    ensures Peel(c, keys, other)(Layered(message, ForwardNonce(round), keys, ephs)).None?
  {
    var w := Layered(message, ForwardNonce(round), keys, ephs);
    NoncesDistinct(round, other);
    assert Suffix(c, w, 32) == w.tail;
  }

  // Nor does a reply open as one of another round.
  lemma OtherReplyStaysShut(reply: Wire, round: uint32, other: uint32, sks: seq<SharedKey>)
    requires sks != [] && round != other
    ensures Unwrapped(Wrapped(reply, BackwardNonce(round), sks), BackwardNonce(other), sks).None?
  {
    NoncesDistinct(round, other);
  }
}
