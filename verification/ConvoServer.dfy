/** The conversation service of one server (convo.go): the rounds it holds, the
    calls that move a round from new to open to closed, and the client side that
    drives the next server through the same calls. */
module ConvoServer {
  import opened Bytes
  import opened Boxes
  import opened Onions
  import opened Noise
  import opened Shuffling
  import opened Dedup
  import opened DeadDrops
  import opened Spanning
  import opened ConvoSpec
  import opened ConvoTheorems
  import Pki

  datatype Status = RoundNew | RoundOpen | RoundClosed
  datatype RpcError = NotFound | WrongStatus | AlreadyExists | Overflow | Downstream
  datatype Outcome = Ok | Failed(error: RpcError) | Panicked
  datatype AccessCount = AccessCount(singles: int, doubles: int)

  datatype ConvoRound = ConvoRound(
    status: Status, numIncoming: nat,
    sharedKeys: seq<Option<SharedKey>>, incoming: seq<Option<Wire>>, incomingIndex: seq<int>,
    replies: seq<Wire>, noise: seq<Wire>)

  const SPAN_SIZE := 4000
  const MAX_COUNTS := 8

  // An open round that takes Adds: a slot with a message has a shared key.
  ghost predicate Receiving(r: ConvoRound) {
    && |r.sharedKeys| == |r.incoming| == r.numIncoming
    && forall i :: 0 <= i < r.numIncoming && r.incoming[i].Some? ==> r.sharedKeys[i].Some?
  }

  // An open round that a failing Close has filtered already: it has fewer messages than
  // slots, and no noise.
  ghost predicate Spent(r: ConvoRound) {
    |r.incoming| < r.numIncoming == |r.sharedKeys| && r.noise == []
  }

  // What holds of every round a server keeps, also after failures: Get never meets a
  // missing shared key or a reply out of range. Only mixing servers have spent rounds.
  ghost predicate RoundOk(r: ConvoRound, mixing: bool) {
    && (r.status.RoundOpen? ==> Receiving(r) || (mixing && Spent(r)))
    && (r.status.RoundClosed? ==>
          && |r.sharedKeys| == |r.incomingIndex| == r.numIncoming
          && forall i :: 0 <= i < r.numIncoming && r.incomingIndex[i] > -1 ==>
               r.sharedKeys[i].Some? && r.incomingIndex[i] < |r.replies|)
  }

  function FreshRound(noise: seq<Wire>): ConvoRound {
    ConvoRound(RoundNew, 0, [], [], [], [], noise)
  }

  function OpenedRound(r: ConvoRound, n: nat): ConvoRound {
    r.(numIncoming := n, sharedKeys := seq(n, _ => None), incoming := seq(n, _ => None), status := RoundOpen)
  }

  // A round after onions were added from slot `offset` on. A malformed onion
  // leaves the message of its slot as it was.
  function AddedTo(r: ConvoRound, c: Cipher, keys: seq<Key>, round: uint32, offset: nat,
                   onions: seq<Wire>): (s: ConvoRound)
    requires keys != []
  {
    r.(sharedKeys := seq(|r.sharedKeys|, i requires 0 <= i < |r.sharedKeys| =>
         if offset <= i < offset + |onions|
         then Some(SlotKey(c, keys, SIZE_CONVO_EXCHANGE, onions[i - offset])) else r.sharedKeys[i]),
       incoming := seq(|r.incoming|, i requires 0 <= i < |r.incoming| =>
         if offset <= i < offset + |onions| && Peel(c, keys, round)(onions[i - offset]).Some?
         then Peel(c, keys, round)(onions[i - offset]) else r.incoming[i]))
  }

  function FilteredRound(r: ConvoRound, c: Cipher): ConvoRound {
    r.(incoming := Slots(Kept(r.incoming, MsgKey(c))), incomingIndex := Index(r.incoming, MsgKey(c)))
  }

  // A round whose messages are filtered and whose noise is taken; a failing Close leaves
  // it so.
  function TakenRound(r: ConvoRound, c: Cipher): ConvoRound {
    FilteredRound(r, c).(noise := [])
  }

  function ClosedRound(r: ConvoRound, c: Cipher, replies: seq<Wire>): ConvoRound {
    TakenRound(r, c).(replies := replies, status := RoundClosed)
  }

  // The counts channel drops a report when it is full.
  function Published(counts: seq<AccessCount>, a: AccessCount): seq<AccessCount> {
    if |counts| < MAX_COUNTS then counts + [a] else counts
  }

  // One more report than before, unless eight are waiting already.
  ghost predicate Reported(before: seq<AccessCount>, after: seq<AccessCount>, singles: int, doubles: int) {
    if |before| >= 8 then after == before else
      && |after| == |before| + 1 && after[..|before|] == before
      && after[|before|].singles == singles && after[|before|].doubles == doubles
  }

  ghost function CountOf(c: Cipher, batch: seq<Wire>): AccessCount {
    var seen := multiset(Drops(ParseAll(c, batch)));
    AccessCount(|Once(seen)|, |Repeated(seen)|)
  }

  class ConvoService {
    const cipher: Cipher
    const pki: Pki.PKI
    const name: string
    const privateKey: Key
    const next: ConvoService?

    var rounds: map<uint32, ConvoRound>
    var accessCounts: seq<AccessCount>

    // The keys of this server and of those after it; this service and all
    // services after it; the last of them.
    ghost const keys: seq<Key>
    ghost const chain: set<ConvoService>
    ghost const last: ConvoService

    // The service runs on a server the PKI lists, with that server's key.
    ghost predicate Placed() {
      && Pki.Valid(pki) && name in pki.order && privateKey == pki.servers[name]
      && keys == Pki.KeysFrom(pki, name)
    }

    // The services from here on are those of the servers that follow in the PKI.
    ghost predicate Deployed()
      decreases chain
    {
      && Placed() && keys != [] && this in chain && last in chain
      && (next == null ==> |keys| == 1 && chain == {this} && last == this)
      && (next != null ==>
            && |keys| > 1 && next.keys == keys[1..] && next.pki == pki && next.cipher == cipher
            && chain == {this} + next.chain && this !in next.chain && last == next.last && last in next.chain
            && next.Deployed())
    }

    ghost predicate Valid()
      reads this
    {
      forall r :: r in rounds ==> RoundOk(rounds[r], next != null)
    }

    ghost predicate ChainValid()
      reads this, chain
    {
      forall s :: s in chain ==> s.Valid()
    }

    ghost predicate BelowValid()
      reads this, chain
    {
      forall s :: s in chain && s != this ==> s.Valid()
    }

    constructor Last(cipher: Cipher, pki: Pki.PKI, name: string)
      requires Pki.Valid(pki) && name == pki.order[|pki.order| - 1]
      ensures Deployed() && ChainValid() && rounds == map[] && next == null && accessCounts == []
    {
      this.cipher, this.pki, this.name, this.privateKey := cipher, pki, name, pki.servers[name];
      next, rounds, accessCounts := null, map[], [];
      chain, last, keys := {this}, this, Pki.KeysFrom(pki, name);
      Pki.IndexOfServer(pki.order, |pki.order| - 1);
    }

    constructor Mixing(name: string, next: ConvoService)
      requires next.Deployed() && next.ChainValid() && name in next.pki.order
      requires Pki.IndexOf(next.pki.order, name) + 1 < |next.pki.order|
      requires next.name == next.pki.order[Pki.IndexOf(next.pki.order, name) + 1]
      ensures Deployed() && ChainValid() && rounds == map[] && this.next == next && this.name == name
    {
      this.cipher, this.pki, this.name := next.cipher, next.pki, name;
      this.privateKey := next.pki.servers[name];
      this.next, rounds, accessCounts := next, map[], [];
      chain, last, keys := {this} + next.chain, next.last, Pki.KeysFrom(next.pki, name);
      Pki.IndexOfServer(next.pki.order, Pki.IndexOf(next.pki.order, name) + 1);
    }

    predicate InStatus(round: uint32, status: Status)
      reads this
    {
      round in rounds && rounds[round].status == status
    }

    function StatusError(round: uint32): (e: RpcError)
      reads this
      ensures e == WrongStatus <==> round in rounds
      ensures e == NotFound <==> round !in rounds
    {
      if round in rounds then WrongStatus else NotFound
    }

    method NewRound(round: uint32, d: Draw) returns (r: Outcome)
      requires Deployed() && Valid() && ValidDraw(d, |keys| - 1)
      modifies `rounds
      ensures Valid()
      ensures r == if round in old(rounds) then Failed(AlreadyExists) else Ok
      ensures rounds == if round in old(rounds) then old(rounds)
        else old(rounds)[round := FreshRound(if next == null then [] else NoiseOf(d, round, keys[1..]))]
      ensures rounds - {round} == old(rounds) - {round} && (r.Ok? ==> rounds - {round} == old(rounds))
      ensures FreshBelow(round) == old(FreshBelow(round))
      ensures forall q: uint32 :: old(NestedAt(q)) ==> NestedAt(q)
      ensures old(NestedAt(round)) && r.Ok? ==> FreshBelow(round)
    {
      if round in rounds { return Failed(AlreadyExists); }
      if NestedAt(round) { NestedFresh(round); }
      var noise: seq<Wire> := [];
      if next != null { noise := MakeNoise(round, d); }
      AddedOnly(rounds, round, FreshRound(noise));
      rounds := rounds[round := FreshRound(noise)];
      r := Ok;
    }

    // The noise a mixing server prepares for a round.
    method MakeNoise(round: uint32, d: Draw) returns (noise: seq<Wire>)
      requires Deployed() && ValidDraw(d, |keys| - 1)
      ensures noise == NoiseOf(d, round, keys[1..])
    {
      var numFakeSingles := d.laplaceSingles;
      var numFakeDoubles := d.laplaceDoubles;
      numFakeDoubles := numFakeDoubles + numFakeDoubles % 2;
      var dest := new Wire[numFakeSingles + numFakeDoubles](_ => Plain([]));
      var nonce := ForwardNonce(round);
      var nextKeys := Pki.NextServerKeys(pki, name);
      FillWithFakeSingles(dest, numFakeSingles, nonce, nextKeys, d.singles);
      FillWithFakeDoubles(dest, numFakeSingles, nonce, nextKeys, d.doubles);
      noise := dest[..];
      NoiseSplits(d, round, nextKeys);
      assert noise == dest[..numFakeSingles] + dest[numFakeSingles..];
    }

    method Open(round: uint32, numIncoming: int) returns (r: Outcome)
      requires Valid()
      modifies `rounds
      ensures Valid()
      ensures r == if !old(InStatus(round, RoundNew)) then Failed(old(StatusError(round)))
        else if numIncoming < 0 then Panicked else Ok
      ensures rounds == if !r.Ok? then old(rounds)
        else old(rounds)[round := OpenedRound(old(rounds)[round], numIncoming)]
    {
      if !InStatus(round, RoundNew) { return Failed(StatusError(round)); }
      if numIncoming < 0 { return Panicked; }
      rounds := rounds[round := OpenedRound(rounds[round], numIncoming)];
      r := Ok;
    }

    // The loop body of Add: the shared key of one onion and the message in it.
    method OpenOnion(round: uint32, onion: Wire) returns (sharedKey: SharedKey, message: Option<Wire>)
      requires Deployed()
      ensures sharedKey == SlotKey(cipher, keys, SIZE_CONVO_EXCHANGE, onion)
      ensures message == Peel(cipher, keys, round)(onion)
    {
      Pki.OwnKey(pki, name);
      var expectedOnionSize := Pki.IncomingOnionOverhead(pki, name) + SIZE_CONVO_EXCHANGE;
      sharedKey, message := ZeroKey, None;
      if Len(onion) == expectedOnionSize {
        var theirPublic := Render(cipher, onion)[..32];
        sharedKey := Shared({theirPublic, privateKey});
        message := OpenBox(sharedKey, ForwardNonce(round), Suffix(cipher, onion, 32));
      }
    }

    // An onion that opens is written to its slot, which a spent round may not have.
    ghost predicate NoSlot(round: uint32, it: ConvoRound, i: int, onion: Wire)
      requires keys != []
    {
      i < 0 || (Peel(cipher, keys, round)(onion).Some? && i >= |it.incoming|)
    }

    method Add(round: uint32, offset: int, onions: seq<Wire>) returns (r: Outcome)
      requires Deployed() && Valid()
      modifies `rounds
      ensures r == if !old(InStatus(round, RoundOpen)) then Failed(old(StatusError(round)))
        else if offset + |onions| > old(rounds)[round].numIncoming then Failed(Overflow)
        else if exists k :: 0 <= k < |onions| && NoSlot(round, old(rounds)[round], offset + k, onions[k]) then Panicked
        else Ok
      ensures Valid()
      ensures r.Failed? || onions == [] || offset < 0 ==> rounds == old(rounds)
      ensures r.Ok? && onions != [] ==>
        offset >= 0 && rounds == old(rounds)[round := AddedTo(old(rounds)[round], cipher, keys, round, offset, onions)]
      ensures r.Panicked? && offset >= 0 ==>
        exists k :: 0 <= k < |onions| && NoSlot(round, old(rounds)[round], offset + k, onions[k]) &&
          rounds == old(rounds)[round := AddedTo(old(rounds)[round], cipher, keys, round, offset, onions[..k + 1])]
    {
      if !InStatus(round, RoundOpen) { return Failed(StatusError(round)); }
      if offset + |onions| > rounds[round].numIncoming { return Failed(Overflow); }
      if onions == [] { return Ok; }
      if offset < 0 {
        assert NoSlot(round, rounds[round], offset + 0, onions[0]);
        return Panicked;
      }
      var it, done, noSlot := FillSlots(round, rounds[round], offset, onions);
      AddedRoundOk(rounds[round], cipher, keys, round, offset, onions[..done], next != null);
      rounds := rounds[round := it];
      if noSlot { return Panicked; }
      assert onions[..|onions|] == onions;
      r := Ok;
    }

    // The loop of Add: fills slots until all onions are done or one has no slot.
    method FillSlots(round: uint32, start: ConvoRound, offset: nat, onions: seq<Wire>)
      returns (it: ConvoRound, done: nat, noSlot: bool)
      requires Deployed() && offset + |onions| <= |start.sharedKeys|
      ensures done <= |onions| && it == AddedTo(start, cipher, keys, round, offset, onions[..done])
      ensures noSlot ==> 0 < done && NoSlot(round, start, offset + (done - 1), onions[done - 1])
      ensures !noSlot ==> done == |onions|
      ensures !noSlot ==> forall j :: 0 <= j < |onions| ==> !NoSlot(round, start, offset + j, onions[j])
    {
      it, done, noSlot := start, 0, false;
      assert it == AddedTo(start, cipher, keys, round, offset, onions[..0]);
      while done < |onions| && !noSlot
        invariant done <= |onions| && it == AddedTo(start, cipher, keys, round, offset, onions[..done])
        invariant noSlot ==> 0 < done && NoSlot(round, start, offset + (done - 1), onions[done - 1])
        invariant !noSlot ==> forall j :: 0 <= j < done ==> !NoSlot(round, start, offset + j, onions[j])
        decreases |onions| - done, !noSlot
      {
        it, noSlot := FillSlot(round, start, offset, onions, done, it);
        done := done + 1;
      }
    }

    // One turn of the loop.
    method FillSlot(round: uint32, ghost start: ConvoRound, offset: nat, onions: seq<Wire>, k: nat, before: ConvoRound)
      returns (it: ConvoRound, noSlot: bool)
      requires Deployed() && k < |onions| && offset + |onions| <= |start.sharedKeys|
      requires before == AddedTo(start, cipher, keys, round, offset, onions[..k])
      ensures it == AddedTo(start, cipher, keys, round, offset, onions[..k + 1])
      ensures noSlot <==> NoSlot(round, start, offset + k, onions[k])
    {
      var i := offset + k;
      var sharedKey, message := OpenOnion(round, onions[k]);
      it := before.(sharedKeys := before.sharedKeys[i := Some(sharedKey)]);
      noSlot := message.Some? && i >= |it.incoming|;
      if message.Some? && !noSlot { it := it.(incoming := it.incoming[i := message]); }
      AddedOneMore(start, cipher, keys, round, offset, onions, k, before, it);
    }

    // An Add within the slots of the round goes through.
    method AddWithin(round: uint32, offset: nat, onions: seq<Wire>)
      requires Deployed() && Valid() && InStatus(round, RoundOpen) && onions != []
      requires offset + |onions| <= |rounds[round].incoming| <= rounds[round].numIncoming
      modifies `rounds
      ensures Valid()
      ensures rounds == old(rounds)[round := AddedTo(old(rounds)[round], cipher, keys, round, offset, onions)]
    {
      assert forall k :: 0 <= k < |onions| ==> !NoSlot(round, rounds[round], offset + k, onions[k]);
      var r := Add(round, offset, onions);
    }

    method Delete(round: uint32)
      requires Valid()
      modifies `rounds
      ensures Valid() && rounds == old(rounds) - {round}
    {
      rounds := rounds - {round};
    }

    // Every in-range Get returns exactly `count` onions, all of the outgoing size.
    method Get(round: uint32, offset: int, count: int, d: Draw) returns (r: Outcome, onions: seq<Wire>)
      requires Deployed() && Valid()
      ensures r == if !InStatus(round, RoundClosed) then Failed(StatusError(round))
        else if count < 0 || (count > 0 && (offset < 0 || offset + count > rounds[round].numIncoming)) then Panicked
        else Ok
      ensures r.Ok? ==> |onions| == count && forall k :: 0 <= k < count ==>
        var it, i := rounds[round], offset + k;
        && 0 <= i < |it.incomingIndex| == |it.sharedKeys|
        && (it.incomingIndex[i] > -1 ==> it.sharedKeys[i].Some? && it.incomingIndex[i] < |it.replies|)
        && Len(onions[k]) == ReplySize(|keys|)
        && onions[k] == GetSlot(|keys|, round, d, i, it.incomingIndex[i],
                          if it.sharedKeys[i].Some? then it.sharedKeys[i].value else ZeroKey, it.replies)
    {
      onions := [];
      if !InStatus(round, RoundClosed) { return Failed(StatusError(round)), []; }
      var nonce := BackwardNonce(round);
      var outgoingOnionSize := Pki.OutgoingOnionOverhead(pki, name) + SIZE_ENCRYPTED_MESSAGE;
      if count < 0 { return Panicked, []; }
      Pki.OwnKey(pki, name);
      var it := rounds[round];
      for k := 0 to count
        invariant |onions| == k && (k > 0 ==> 0 <= offset && offset + k <= it.numIncoming)
        invariant forall j :: 0 <= j < k ==>
          onions[j] == GetSlot(|keys|, round, d, offset + j, it.incomingIndex[offset + j],
            if it.sharedKeys[offset + j].Some? then it.sharedKeys[offset + j].value else ZeroKey, it.replies)
      {
        var i := offset + k;
        if i < 0 || i >= |it.incomingIndex| { return Panicked, []; }
        var onion := Plain([]);
        var v := it.incomingIndex[i];
        if v > -1 {
          onion := Sealed(it.sharedKeys[i].value, nonce, it.replies[v]);
        }
        if Len(onion) != outgoingOnionSize {
          onion := Filler(d, i, outgoingOnionSize);
        }
        onions := onions + [onion];
      }
      r := Ok;
    }

    // No server after this one knows the round.
    ghost predicate FreshBelow(round: uint32)
      reads chain
    {
      forall s :: s in chain && s != this ==> round !in s.rounds
    }

    lemma FreshSplits(round: uint32)
      requires Deployed() && next != null
      ensures FreshBelow(round) <==> round !in next.rounds && next.FreshBelow(round)
    {
    }

    // A server that knows the round comes after servers that all know it.
    ghost predicate NestedAt(round: uint32)
      requires Deployed()
      reads chain
      decreases chain
    {
      next != null ==>
        assert next.Deployed() && next in chain;
        (round in next.rounds ==> round in rounds) && next.NestedAt(round)
    }

    // So a first server that does not know a round vouches for the whole chain.
    lemma {:induction false} NestedFresh(round: uint32)
      requires Deployed() && NestedAt(round) && round !in rounds
      ensures FreshBelow(round)
      decreases chain
    {
      if next != null { next.NestedFresh(round); }
    }

    lemma {:induction false} FreshNested(round: uint32)
      requires Deployed() && FreshBelow(round)
      ensures NestedAt(round)
      decreases chain
    {
      if next != null {
        FreshSplits(round);
        next.FreshNested(round);
      }
    }

    // The last server's part of Close.
    method ExchangeAll(valid: seq<Wire>) returns (replies: seq<Wire>)
      modifies `accessCounts
      ensures replies == Replies(ParseAll(cipher, valid))
      ensures accessCounts == Published(old(accessCounts), CountOf(cipher, valid))
      ensures var seen := multiset(Drops(ParseAll(cipher, valid)));
        Reported(old(accessCounts), accessCounts, |Once(seen)|, |Repeated(seen)|)
    {
      var exchanges: seq<Request<seq<byte>, Wire>> := [];
      for i := 0 to |valid|
        invariant exchanges == ParseAll(cipher, valid)[..i] && accessCounts == old(accessCounts)
      {
        exchanges := exchanges + [Parse(cipher, valid[i])];
      }
      assert exchanges == ParseAll(cipher, valid);
      var singles, doubles;
      replies, singles, doubles := Exchange(exchanges);
      var ac := AccessCount(singles, doubles);
      if |accessCounts| < MAX_COUNTS { accessCounts := accessCounts + [ac]; }
    }

    // Starts the round on the next server and runs it there.
    method Forward(round: uint32, draws: seq<Draw>, outgoing: seq<Wire>) returns (r: Outcome, back: seq<Wire>)
      requires Deployed() && next != null && next.ChainValid() && ValidDraws(draws, |next.keys|)
      modifies next.chain
      ensures r.Ok? <==> (round !in old(next.rounds) && old(next.FreshBelow(round)) &&
                          RoundReplies(cipher, next.keys, round, draws, outgoing).Some?)
      ensures r.Ok? ==> Some(back) == RoundReplies(cipher, next.keys, round, draws, outgoing)
      ensures next.ChainValid()
      ensures r.Ok? ==> forall s :: s in next.chain ==> s.rounds == old(s.rounds)
      ensures forall q: uint32 :: old(next.NestedAt(q)) ==> next.NestedAt(q)
      ensures forall s :: s in next.chain ==> s.rounds - {round} == old(s.rounds) - {round}
      ensures r.Ok? ==> last.accessCounts == Published(old(last.accessCounts),
        CountOf(cipher, LastBatch(cipher, next.keys, round, draws, outgoing)))
      decreases next.chain, 4
    {
      r := next.NewRound(round, draws[0]);
      if !r.Ok? { return r, []; }
      r, back := RunConvoRound(next, round, outgoing, draws);
    }

    // A mixing server's part of Close, for n incoming onions.
    method Mix(round: uint32, draws: seq<Draw>, slots: seq<Option<Wire>>, n: nat, valid: seq<Wire>, noise: seq<Wire>)
      returns (r: Outcome, replies: seq<Wire>)
      requires Deployed() && next != null && next.ChainValid() && ValidDraws(draws, |keys|)
      requires valid == Kept(slots, MsgKey(cipher)) && noise == NoiseOf(draws[0], round, keys[1..])
      requires n == |slots| || (n > |slots| && noise == [])
      modifies next.chain
      ensures r.Ok? <==> old(FreshBelow(round)) && n == |slots| && CloseReplies(cipher, keys, round, draws, slots).Some?
      ensures r.Ok? ==> Some(replies) == CloseReplies(cipher, keys, round, draws, slots)
      ensures next.ChainValid()
      ensures r.Panicked? <==> old(FreshBelow(round)) && CutsShort(cipher, keys, round, draws, slots, n)
      ensures r.Ok? ==> forall s :: s in next.chain ==> s.rounds == old(s.rounds)
      ensures forall q: uint32 :: old(next.NestedAt(q)) ==> next.NestedAt(q)
      ensures forall s :: s in next.chain ==> s.rounds - {round} == old(s.rounds) - {round}
      ensures r.Ok? ==> last.accessCounts ==
                        Published(old(last.accessCounts), CountOf(cipher, SlotLast(cipher, keys, round, draws, slots)))
      decreases next.chain, 5
    {
      FreshSplits(round);
      MixedReplies(cipher, keys, round, draws, slots, n);
      SlotOutgoingIs(cipher, keys, round, draws[0], slots);
      var batch := valid + noise;
      var shuffler := ShufflerOf(draws[0].swaps, |batch|);
      var outgoing := ShuffleBatch(shuffler, batch);
      var back;
      r, back := Forward(round, draws[1..], outgoing);
      if !r.Ok? { return Failed(Downstream), []; }
      back := UnshuffleBatch(shuffler, back);
      if |back| < n { return Panicked, []; }
      r, replies := Ok, back[..n];
    }

    method FilterIncoming(round: uint32) returns (valid: seq<Wire>)
      requires round in rounds
      modifies `rounds
      ensures valid == Kept(old(rounds)[round].incoming, MsgKey(cipher))
      ensures rounds == old(rounds)[round := FilteredRound(old(rounds)[round], cipher)]
    {
      var index;
      valid, index := Filter(rounds[round].incoming, MsgKey(cipher));
      rounds := rounds[round := rounds[round].(incoming := Slots(valid), incomingIndex := index)];
    }

    // The exchange at the last server, the mixing elsewhere.
    method Settle(round: uint32, draws: seq<Draw>, slots: seq<Option<Wire>>, n: nat, valid: seq<Wire>, noise: seq<Wire>)
      returns (r: Outcome, replies: seq<Wire>)
      requires Deployed() && BelowValid() && ValidDraws(draws, |keys|) && valid == Kept(slots, MsgKey(cipher))
      requires next != null ==> noise == NoiseOf(draws[0], round, keys[1..])
      requires n == |slots| || (next != null && n > |slots| && noise == [])
      modifies chain
      ensures rounds == old(rounds)
      ensures r.Ok? <==> old(FreshBelow(round)) && n == |slots| && CloseReplies(cipher, keys, round, draws, slots).Some?
      ensures r.Ok? ==> Some(replies) == CloseReplies(cipher, keys, round, draws, slots)
      ensures BelowValid()
      ensures r.Panicked? <==> old(FreshBelow(round)) && CutsShort(cipher, keys, round, draws, slots, n)
      ensures r.Ok? ==> forall s :: s in chain && s != this ==> s.rounds == old(s.rounds)
      ensures next != null ==> forall q: uint32 :: old(next.NestedAt(q)) ==> next.NestedAt(q)
      ensures forall s :: s in chain && s != this ==> s.rounds - {round} == old(s.rounds) - {round}
      ensures r.Ok? ==> last.accessCounts ==
                        Published(old(last.accessCounts), CountOf(cipher, SlotLast(cipher, keys, round, draws, slots)))
      decreases chain, 0, 0
    {
      if next != null {
        r, replies := Mix(round, draws, slots, n, valid, noise);
      } else {
        replies := ExchangeAll(valid);
        r := Ok;
      }
    }

    // Filters what the round received, has it mixed or exchanged, and stores the
    // replies. It succeeds exactly when the round is open, no later server knows it
    // and no server on the way runs short of messages; then the replies are the
    // specified ones and all later servers hold the same rounds as before. It panics
    // exactly when this server is the one that runs short; a round that an earlier Close
    // has spent always runs short. A failure leaves the round open with its messages
    // filtered and its noise gone, and touches no other round on any server.
    method Close(round: uint32, draws: seq<Draw>) returns (r: Outcome)
      requires Deployed() && ChainValid() && ValidDraws(draws, |keys|)
      requires InStatus(round, RoundOpen) && next != null ==>
        rounds[round].noise == NoiseOf(draws[0], round, keys[1..])
      modifies chain
      ensures !old(InStatus(round, RoundOpen)) ==>
        r.Failed? && forall s :: s in chain ==> s.rounds == old(s.rounds) && s.accessCounts == old(s.accessCounts)
      ensures r.Ok? <==> (old(InStatus(round, RoundOpen)) && old(FreshBelow(round)) && !Spent(old(rounds)[round]) &&
                          CloseReplies(cipher, keys, round, draws, old(rounds)[round].incoming).Some?)
      ensures r.Panicked? <==> (old(InStatus(round, RoundOpen)) && old(FreshBelow(round)) &&
                                CutsShort(cipher, keys, round, draws, old(rounds)[round].incoming,
                                          old(rounds)[round].numIncoming))
      ensures ChainValid()
      ensures r.Ok? ==> rounds == old(rounds)[round := ClosedRound(old(rounds)[round], cipher,
        CloseReplies(cipher, keys, round, draws, old(rounds)[round].incoming).value)]
      ensures old(InStatus(round, RoundOpen)) && !r.Ok? ==>
        rounds == old(rounds)[round := TakenRound(old(rounds)[round], cipher)]
      ensures r.Ok? ==> forall s :: s in chain && s != this ==> s.rounds == old(s.rounds)
      ensures forall q: uint32 :: old(NestedAt(q)) ==> NestedAt(q)
      ensures forall s :: s in chain ==> s.rounds - {round} == old(s.rounds) - {round}
      ensures r.Ok? ==> last.accessCounts == Published(old(last.accessCounts),
        CountOf(cipher, SlotLast(cipher, keys, round, draws, old(rounds)[round].incoming)))
      decreases chain, 1
    {
      if !InStatus(round, RoundOpen) { return Failed(StatusError(round)); }
      r := CloseOpen(round, draws);
      if next != null {
        KeysWithin(next.rounds, old(next.rounds), round);
        forall q: uint32 | old(NestedAt(q)) ensures NestedAt(q) {
          assert q in next.rounds ==> q in rounds;
        }
      }
    }

    // Close of a round that is open.
    method CloseOpen(round: uint32, draws: seq<Draw>) returns (r: Outcome)
      requires Deployed() && ChainValid() && ValidDraws(draws, |keys|) && InStatus(round, RoundOpen)
      requires next != null ==> rounds[round].noise == NoiseOf(draws[0], round, keys[1..])
      modifies chain
      ensures r.Ok? <==> (old(FreshBelow(round)) && !Spent(old(rounds)[round]) &&
                          CloseReplies(cipher, keys, round, draws, old(rounds)[round].incoming).Some?)
      ensures r.Panicked? <==> (old(FreshBelow(round)) && CutsShort(cipher, keys, round, draws,
        old(rounds)[round].incoming, old(rounds)[round].numIncoming))
      ensures ChainValid()
      ensures r.Ok? ==> rounds == old(rounds)[round := ClosedRound(old(rounds)[round], cipher,
        CloseReplies(cipher, keys, round, draws, old(rounds)[round].incoming).value)]
      ensures !r.Ok? ==> rounds == old(rounds)[round := TakenRound(old(rounds)[round], cipher)]
      ensures rounds.Keys == old(rounds).Keys
      ensures r.Ok? ==> forall s :: s in chain && s != this ==> s.rounds == old(s.rounds)
      ensures next != null ==> forall q: uint32 :: old(next.NestedAt(q)) ==> next.NestedAt(q)
      ensures forall s :: s in chain ==> s.rounds - {round} == old(s.rounds) - {round}
      ensures r.Ok? ==> last.accessCounts == Published(old(last.accessCounts),
        CountOf(cipher, SlotLast(cipher, keys, round, draws, old(rounds)[round].incoming)))
      decreases chain, 0, 2
    {
      ghost var before := rounds;
      var slots, n, noise := rounds[round].incoming, rounds[round].numIncoming, rounds[round].noise;
      var valid := TakeMessages(round);
      r := Conclude(round, draws, before, slots, n, valid, noise);
    }

    // The rest of Close once the messages are taken; `before` are the rounds before that.
    method Conclude(round: uint32, draws: seq<Draw>, ghost before: map<uint32, ConvoRound>, slots: seq<Option<Wire>>,
                    n: nat, valid: seq<Wire>, noise: seq<Wire>) returns (r: Outcome)
      requires Deployed() && BelowValid() && ValidDraws(draws, |keys|) && (next != null ==> Valid())
      requires round in before && rounds == before[round := TakenRound(before[round], cipher)]
      requires forall r :: r in before ==> RoundOk(before[r], next != null)
      requires before[round].status.RoundOpen? && slots == before[round].incoming && n == before[round].numIncoming
      requires valid == Kept(slots, MsgKey(cipher)) && noise == before[round].noise
      requires next != null ==> noise == NoiseOf(draws[0], round, keys[1..])
      modifies chain
      ensures r.Ok? <==> (old(FreshBelow(round)) && !Spent(before[round]) &&
                          CloseReplies(cipher, keys, round, draws, slots).Some?)
      ensures r.Panicked? <==> old(FreshBelow(round)) && CutsShort(cipher, keys, round, draws, slots, n)
      ensures ChainValid()
      ensures r.Ok? ==> rounds == before[round := ClosedRound(before[round], cipher,
        CloseReplies(cipher, keys, round, draws, slots).value)]
      ensures !r.Ok? ==> rounds == old(rounds)
      ensures rounds.Keys == old(rounds).Keys
      ensures r.Ok? ==> forall s :: s in chain && s != this ==> s.rounds == old(s.rounds)
      ensures next != null ==> forall q: uint32 :: old(next.NestedAt(q)) ==> next.NestedAt(q)
      ensures forall s :: s in chain ==> s.rounds - {round} == old(s.rounds) - {round}
      ensures r.Ok? ==> last.accessCounts ==
                        Published(old(last.accessCounts), CountOf(cipher, SlotLast(cipher, keys, round, draws, slots)))
      decreases chain, 0, 1
    {
      var replies;
      r, replies := Settle(round, draws, slots, n, valid, noise);
      if !r.Ok? { return; }
      StoreReplies(round, before, replies);
    }

    method TakeMessages(round: uint32) returns (valid: seq<Wire>)
      requires round in rounds
      modifies `rounds
      ensures valid == Kept(old(rounds)[round].incoming, MsgKey(cipher))
      ensures rounds == old(rounds)[round := TakenRound(old(rounds)[round], cipher)]
      ensures rounds - {round} == old(rounds) - {round} && rounds.Keys == old(rounds).Keys
      ensures next != null && old(Valid()) && old(InStatus(round, RoundOpen)) ==> Valid()
    {
      TakenRoundOk(rounds[round], cipher);
      valid := FilterIncoming(round);
      rounds := rounds[round := rounds[round].(noise := [])];
    }

    method StoreReplies(round: uint32, ghost before: map<uint32, ConvoRound>, replies: seq<Wire>)
      requires round in before && rounds == before[round := TakenRound(before[round], cipher)]
      requires Receiving(before[round]) && |Kept(before[round].incoming, MsgKey(cipher))| <= |replies|
      requires forall r :: r in before ==> RoundOk(before[r], next != null)
      modifies `rounds
      ensures Valid() && rounds == before[round := ClosedRound(before[round], cipher, replies)]
      ensures rounds - {round} == old(rounds) - {round} && rounds.Keys == old(rounds).Keys
    {
      ClosedRoundOk(before[round], cipher, replies, next != null);
      rounds := rounds[round := rounds[round].(replies := replies, status := RoundClosed)];
    }
  }

  lemma KeysWithin<K, V>(m: map<K, V>, m': map<K, V>, k: K)
    requires m - {k} == m' - {k}
    ensures m.Keys <= m'.Keys + {k}
  {
    forall x | x in m && x != k ensures x in m' { assert x in m - {k}; }
  }

  lemma AddedOnly<K, V>(m: map<K, V>, k: K, v: V)
    requires k !in m
    ensures m[k := v] - {k} == m == m - {k}
  {
  }

  // Runs the in-place shuffle on a copy.
  method ShuffleBatch(s: seq<nat>, batch: seq<Wire>) returns (out: seq<Wire>)
    requires Shuffler(s) && |batch| <= |s|
    ensures out == Shuffled(s, batch)
  {
    var a := new Wire[|batch|](i requires 0 <= i < |batch| => batch[i]);
    assert a[..] == batch;
    Shuffle(s, a);
    out := a[..];
  }

  method UnshuffleBatch(s: seq<nat>, batch: seq<Wire>) returns (out: seq<Wire>)
    requires Shuffler(s) && |batch| <= |s|
    ensures out == Unshuffled(s, batch)
  {
    var a := new Wire[|batch|](i requires 0 <= i < |batch| => batch[i]);
    assert a[..] == batch;
    Unshuffle(s, a);
    out := a[..];
  }

  // The rest of the chain completes, but with fewer than n replies.
  ghost predicate CutsShort(c: Cipher, keys: seq<Key>, round: uint32, draws: seq<Draw>, slots: seq<Option<Wire>>,
                            n: nat)
    requires keys != [] && ValidDraws(draws, |keys|)
  {
    && |keys| > 1 && |SlotOutgoing(c, keys, round, draws[0], slots)| < n
    && Completes(c, keys[1..], round, draws[1..], SlotOutgoing(c, keys, round, draws[0], slots))
  }

  // What a mixing server's Close makes of the next server's replies.
  lemma MixedReplies(c: Cipher, keys: seq<Key>, round: uint32, draws: seq<Draw>, slots: seq<Option<Wire>>, n: nat)
    requires |keys| > 1 && ValidDraws(draws, |keys|)
    ensures ValidDraw(draws[0], |keys| - 1) && ValidDraws(draws[1..], |keys| - 1)
    ensures var out := SlotOutgoing(c, keys, round, draws[0], slots);
      var back := RoundReplies(c, keys[1..], round, draws[1..], out);
      && SlotLast(c, keys, round, draws, slots) == LastBatch(c, keys[1..], round, draws[1..], out)
      && CloseReplies(c, keys, round, draws, slots) ==
           (if back.None? || |back.value| < |slots| then None
            else Some(Unshuffled(SlotShuffler(c, keys, round, draws[0], slots), back.value)[..|slots|]))
      && (CutsShort(c, keys, round, draws, slots, n) <==> back.Some? && |back.value| < n)
  {
    CompletesExactly(c, keys[1..], round, draws[1..], SlotOutgoing(c, keys, round, draws[0], slots));
  }

  lemma SlotOutgoingIs(c: Cipher, keys: seq<Key>, round: uint32, d: Draw, slots: seq<Option<Wire>>)
    requires keys != [] && ValidDraw(d, |keys| - 1)
    ensures var batch := Kept(slots, MsgKey(c)) + NoiseOf(d, round, keys[1..]);
      && SlotShuffler(c, keys, round, d, slots) == ShufflerOf(d.swaps, |batch|)
      && SlotOutgoing(c, keys, round, d, slots) == Shuffled(ShufflerOf(d.swaps, |batch|), batch)
  {
  }

  // Closing a receiving round leaves a round that Get can read.
  lemma ClosedRoundOk(r: ConvoRound, c: Cipher, replies: seq<Wire>, mixing: bool)
    requires Receiving(r) && |Kept(r.incoming, MsgKey(c))| <= |replies|
    ensures RoundOk(ClosedRound(r, c, replies), mixing)
  {
    FilterKeepsFirsts(r.incoming, MsgKey(c));
  }

  // A failing Close leaves a receiving round as it is, but for its noise, or a spent one.
  lemma TakenRoundOk(r: ConvoRound, c: Cipher)
    ensures RoundOk(r, true) && r.status.RoundOpen? ==> RoundOk(TakenRound(r, c), true)
  {
    if Receiving(r) && |Kept(r.incoming, MsgKey(c))| == r.numIncoming {
      forall i | 0 <= i < r.numIncoming ensures r.incoming[i].Some? {
        if !First(r.incoming, MsgKey(c), i) { KeptFewer(r.incoming, MsgKey(c), r.numIncoming, i); }
      }
    }
  }

  // Drives a server through a round it has started: Open, the Adds, Close, the
  // Gets and Delete. Adds and Gets are span-sized and run in any order.
  method RunConvoRound(client: ConvoService, round: uint32, onions: seq<Wire>, draws: seq<Draw>)
    returns (r: Outcome, replies: seq<Wire>)
    requires client.Deployed() && client.ChainValid() && ValidDraws(draws, |client.keys|)
    requires client.InStatus(round, RoundNew) && client.next != null ==>
      client.rounds[round].noise == NoiseOf(draws[0], round, client.keys[1..])
    modifies client.chain
    ensures r.Ok? <==> (old(client.InStatus(round, RoundNew)) && old(client.FreshBelow(round)) &&
                        RoundReplies(client.cipher, client.keys, round, draws, onions).Some?)
    ensures r.Ok? ==> Some(replies) == RoundReplies(client.cipher, client.keys, round, draws, onions)
    ensures client.ChainValid() && (r.Ok? ==> client.rounds == old(client.rounds) - {round})
    ensures r.Ok? ==> forall s :: s in client.chain && s != client ==> s.rounds == old(s.rounds)
    ensures old(client.InStatus(round, RoundNew)) && !r.Ok? ==>
      LeftOver(client.rounds, old(client.rounds)[round], client.cipher, client.keys, round, onions)
    ensures forall q: uint32 :: old(client.NestedAt(q)) ==> client.NestedAt(q)
    ensures forall s :: s in client.chain ==> s.rounds - {round} == old(s.rounds) - {round}
    ensures r.Ok? ==> client.last.accessCounts == Published(old(client.last.accessCounts),
      CountOf(client.cipher, LastBatch(client.cipher, client.keys, round, draws, onions)))
    decreases client.chain, 3
  {
    replies := [];
    r := SubmitAndClose(client, round, onions, draws);
    if !r.Ok? { return; }
    replies := Collect(client, round, onions, draws[0]);
  }

  // Everything up to Close.
  method SubmitAndClose(client: ConvoService, round: uint32, onions: seq<Wire>, draws: seq<Draw>) returns (r: Outcome)
    requires client.Deployed() && client.ChainValid() && ValidDraws(draws, |client.keys|)
    requires client.InStatus(round, RoundNew) && client.next != null ==>
      client.rounds[round].noise == NoiseOf(draws[0], round, client.keys[1..])
    modifies client.chain
    ensures r.Ok? <==> (old(client.InStatus(round, RoundNew)) && old(client.FreshBelow(round)) &&
                        CloseReplies(client.cipher, client.keys, round, draws,
                                     Incoming(client.cipher, client.keys, round, onions)).Some?)
    ensures client.ChainValid()
    ensures r.Ok? ==> forall s :: s in client.chain && s != client ==> s.rounds == old(s.rounds)
    ensures old(client.InStatus(round, RoundNew)) && !r.Ok? ==>
      LeftOver(client.rounds, old(client.rounds)[round], client.cipher, client.keys, round, onions)
    ensures forall q: uint32 :: old(client.NestedAt(q)) ==> client.NestedAt(q)
    ensures forall s :: s in client.chain ==> s.rounds - {round} == old(s.rounds) - {round}
    ensures r.Ok? ==>
      && round in client.rounds && Answerable(client.rounds[round], client.cipher, client.keys, round, onions)
      && Some(client.rounds[round].replies) ==
         CloseReplies(client.cipher, client.keys, round, draws, Incoming(client.cipher, client.keys, round, onions))
    ensures r.Ok? ==> client.last.accessCounts == Published(old(client.last.accessCounts),
      CountOf(client.cipher, LastBatch(client.cipher, client.keys, round, draws, onions)))
    decreases client.chain, 2, 1
  {
    r := Submit(client, round, onions);
    if !r.Ok? { return; }
    ghost var filled := client.rounds[round];
    FilledIncoming(old(client.rounds)[round], client.cipher, client.keys, round, onions);
    r := CloseFilled(client, round, draws, filled);
  }

  method CloseFilled(client: ConvoService, round: uint32, draws: seq<Draw>, ghost it: ConvoRound) returns (r: Outcome)
    requires client.Deployed() && client.ChainValid() && ValidDraws(draws, |client.keys|)
    requires round in client.rounds && client.rounds[round] == it && it.status.RoundOpen? && Receiving(it)
    requires client.next != null ==> it.noise == NoiseOf(draws[0], round, client.keys[1..])
    modifies client.chain
    ensures r.Ok? <==>
      old(client.FreshBelow(round)) && CloseReplies(client.cipher, client.keys, round, draws, it.incoming).Some?
    ensures client.ChainValid()
    ensures r.Ok? ==> forall s :: s in client.chain && s != client ==> s.rounds == old(s.rounds)
    ensures !r.Ok? ==> round in client.rounds && client.rounds[round] == TakenRound(it, client.cipher)
    ensures forall q: uint32 :: old(client.NestedAt(q)) ==> client.NestedAt(q)
    ensures forall s :: s in client.chain ==> s.rounds - {round} == old(s.rounds) - {round}
    ensures r.Ok? ==> client.rounds == old(client.rounds)[round :=
      ClosedRound(it, client.cipher, CloseReplies(client.cipher, client.keys, round, draws, it.incoming).value)]
    ensures r.Ok? ==> client.last.accessCounts == Published(old(client.last.accessCounts),
      CountOf(client.cipher, SlotLast(client.cipher, client.keys, round, draws, it.incoming)))
    decreases client.chain, 2, 0
  {
    r := client.Close(round, draws);
  }

  // What a failed batch leaves of a new round.
  ghost predicate LeftOver(rounds: map<uint32, ConvoRound>, r: ConvoRound, c: Cipher, keys: seq<Key>, round: uint32,
                           onions: seq<Wire>)
    requires keys != []
  {
    round in rounds && rounds[round] == TakenRound(Filled(r, c, keys, round, onions), c)
  }

  // A new round after Open and the Adds of a batch.
  function Filled(r: ConvoRound, c: Cipher, keys: seq<Key>, round: uint32, onions: seq<Wire>): ConvoRound
    requires keys != []
  {
    AddedTo(OpenedRound(r, |onions|), c, keys, round, 0, onions)
  }

  lemma FilledIncoming(r: ConvoRound, c: Cipher, keys: seq<Key>, round: uint32, onions: seq<Wire>)
    requires keys != []
    ensures var f := Filled(r, c, keys, round, onions);
      && f.incoming == Incoming(c, keys, round, onions)
      && f.noise == r.noise && f.status.RoundOpen? && f.numIncoming == |f.sharedKeys| == |onions| && Receiving(f)
      && forall i :: 0 <= i < |onions| ==> f.sharedKeys[i] == Some(SlotKey(c, keys, SIZE_CONVO_EXCHANGE, onions[i]))
  {
  }

  // Open and the Adds.
  method Submit(client: ConvoService, round: uint32, onions: seq<Wire>) returns (r: Outcome)
    requires client.Deployed() && client.Valid()
    modifies client`rounds
    ensures client.Valid() && (r.Ok? <==> old(client.InStatus(round, RoundNew)))
    ensures r.Ok? ==> client.rounds == old(client.rounds)[round :=
      Filled(old(client.rounds)[round], client.cipher, client.keys, round, onions)]
    ensures client.rounds - {round} == old(client.rounds) - {round} && client.rounds.Keys == old(client.rounds).Keys
  {
    r := client.Open(round, |onions|);
    if !r.Ok? { return; }
    AddAll(client, round, onions);
  }

  // A closed round whose index and shared keys belong to the given onions.
  ghost predicate Answerable(it: ConvoRound, c: Cipher, keys: seq<Key>, round: uint32, onions: seq<Wire>)
    requires keys != []
  {
    && it.status.RoundClosed? && it.numIncoming == |onions| == |it.sharedKeys|
    && it.incomingIndex == Index(Incoming(c, keys, round, onions), MsgKey(c))
    && forall i :: 0 <= i < |onions| ==> it.sharedKeys[i] == Some(SlotKey(c, keys, SIZE_CONVO_EXCHANGE, onions[i]))
  }

  // The Gets and Delete.
  method Collect(client: ConvoService, round: uint32, onions: seq<Wire>, d: Draw) returns (replies: seq<Wire>)
    requires client.Deployed() && client.Valid() && round in client.rounds
    requires Answerable(client.rounds[round], client.cipher, client.keys, round, onions) && client.FreshBelow(round)
    modifies client`rounds
    ensures client.Valid() && client.rounds == old(client.rounds) - {round}
    ensures forall q: uint32 :: old(client.NestedAt(q)) ==> client.NestedAt(q)
    ensures replies == Answers(client.cipher, client.keys, round, d, onions, old(client.rounds)[round].replies)
  {
    replies := GetAll(client, round, |onions|, d);
    client.Delete(round);
    client.FreshNested(round);
  }

  // Span-sized Adds in any order leave the round as one Add of the whole batch does.
  method AddAll(client: ConvoService, round: uint32, onions: seq<Wire>)
    requires client.Deployed() && client.Valid()
    requires client.InStatus(round, RoundOpen) && Receiving(client.rounds[round])
    requires client.rounds[round].numIncoming == |onions|
    modifies client`rounds
    ensures client.Valid()
    ensures client.rounds == old(client.rounds)[round :=
      AddedTo(old(client.rounds)[round], client.cipher, client.keys, round, 0, onions)]
  {
    var spans := Spans(|onions|, SPAN_SIZE);
    ghost var start, it := client.rounds[round], client.rounds[round];
    ghost var whole := AddedTo(start, client.cipher, client.keys, round, 0, onions);
    var pending := Range(|spans|);
    while pending != {}
      invariant forall k :: k in pending ==> k < |spans|
      invariant client.Valid() && client.rounds == old(client.rounds)[round := it]
      invariant Partly(it, start, whole, spans, pending)
      decreases pending
    {
      var k :| k in pending;
      it := AddSpan(client, round, onions, spans, k, start, pending);
      pending := pending - {k};
    }
    AllAdded(it, start, whole, spans, |onions|);
  }

  // One of the calls.
  method AddSpan(client: ConvoService, round: uint32, onions: seq<Wire>, spans: seq<Span>, k: nat,
                 ghost start: ConvoRound, ghost pending: set<nat>) returns (ghost now: ConvoRound)
    requires client.Deployed() && client.Valid() && client.InStatus(round, RoundOpen)
    requires |start.incoming| == |start.sharedKeys| == start.numIncoming == |onions|
    requires Tiling(spans, |onions|, SPAN_SIZE) && k < |spans| && k in pending
    requires Partly(client.rounds[round], start,
                    AddedTo(start, client.cipher, client.keys, round, 0, onions), spans, pending)
    modifies client`rounds
    ensures client.Valid() && client.rounds == old(client.rounds)[round := now] && now.status == RoundOpen
    ensures Partly(now, start, AddedTo(start, client.cipher, client.keys, round, 0, onions), spans, pending - {k})
  {
    var from, to := spans[k].start, spans[k].start + spans[k].count;
    SpanAdded(client.cipher, client.keys, round, onions, start, client.rounds[round], spans, pending, k);
    client.AddWithin(round, from, onions[from..to]);
    now := client.rounds[round];
  }

  // Slots of pending spans are as at the start, the others as after the whole Add.
  ghost predicate Partly(r: ConvoRound, start: ConvoRound, whole: ConvoRound, spans: seq<Span>, pending: set<nat>) {
    && r == start.(sharedKeys := r.sharedKeys, incoming := r.incoming)
    && whole == start.(sharedKeys := whole.sharedKeys, incoming := whole.incoming)
    && |r.sharedKeys| == |r.incoming| == |start.incoming| == |start.sharedKeys|
    && |whole.sharedKeys| == |whole.incoming| == |start.incoming|
    && forall k, i :: 0 <= k < |spans| && Covers(spans[k], i) && 0 <= i < |start.incoming| ==>
         var s := if k in pending then start else whole;
         r.incoming[i] == s.incoming[i] && r.sharedKeys[i] == s.sharedKeys[i]
  }

  lemma SpanAdded(c: Cipher, keys: seq<Key>, round: uint32, onions: seq<Wire>, start: ConvoRound, r: ConvoRound,
                  spans: seq<Span>, pending: set<nat>, k: nat)
    requires keys != [] && |start.incoming| == |start.sharedKeys| == |onions|
    requires Tiling(spans, |onions|, SPAN_SIZE) && 0 <= k < |spans| && k in pending
    requires Partly(r, start, AddedTo(start, c, keys, round, 0, onions), spans, pending)
    ensures var from, to := spans[k].start, spans[k].start + spans[k].count;
      Partly(AddedTo(r, c, keys, round, from, onions[from..to]), start,
             AddedTo(start, c, keys, round, 0, onions), spans, pending - {k})
  {
    var from, to := spans[k].start, spans[k].start + spans[k].count;
    var whole, after := AddedTo(start, c, keys, round, 0, onions), AddedTo(r, c, keys, round, from, onions[from..to]);
    forall j, i | 0 <= j < |spans| && Covers(spans[j], i) && 0 <= i < |onions|
      ensures var s := if j in pending - {k} then start else whole;
        after.incoming[i] == s.incoming[i] && after.sharedKeys[i] == s.sharedKeys[i]
    {
      var at := CoveredOnce(spans, |onions|, SPAN_SIZE, i);
      assert j == at;
      if Covers(spans[k], i) { assert onions[from..to][i - from] == onions[i]; }
    }
  }

  lemma AllAdded(r: ConvoRound, start: ConvoRound, whole: ConvoRound, spans: seq<Span>, n: nat)
    requires Partly(r, start, whole, spans, {}) && |start.incoming| == n && Tiling(spans, n, SPAN_SIZE)
    ensures r == whole
  {
    forall i | 0 <= i < n ensures r.incoming[i] == whole.incoming[i] && r.sharedKeys[i] == whole.sharedKeys[i] {
      var k := CoveredOnce(spans, n, SPAN_SIZE, i);
    }
    assert r.incoming == whole.incoming && r.sharedKeys == whole.sharedKeys;
  }

  // What one Get of the whole batch returns for slot i.
  function Got(it: ConvoRound, servers: nat, round: uint32, d: Draw, i: nat): Wire
    requires i < |it.incomingIndex| && i < |it.sharedKeys|
  {
    GetSlot(servers, round, d, i, it.incomingIndex[i],
            if it.sharedKeys[i].Some? then it.sharedKeys[i].value else ZeroKey, it.replies)
  }

  // Span-sized Gets in any order return what one Get of the whole batch returns.
  method GetAll(client: ConvoService, round: uint32, n: nat, d: Draw) returns (replies: seq<Wire>)
    requires client.Deployed() && client.Valid()
    requires client.InStatus(round, RoundClosed) && client.rounds[round].numIncoming == n
    ensures |replies| == n == |client.rounds[round].incomingIndex| == |client.rounds[round].sharedKeys|
    ensures forall i :: 0 <= i < n ==> replies[i] == Got(client.rounds[round], |client.keys|, round, d, i)
  {
    var spans := Spans(n, SPAN_SIZE);
    var a := new Wire[n](_ => Plain([]));
    ghost var it, servers := client.rounds[round], |client.keys|;
    var pending := Range(|spans|);
    while pending != {}
      invariant forall k :: k in pending ==> 0 <= k < |spans|
      invariant forall k, i :: 0 <= k < |spans| && k !in pending && Covers(spans[k], i) && 0 <= i < n ==>
        a[i] == Got(it, servers, round, d, i)
      decreases pending
    {
      var k :| k in pending;
      GetSpan(client, round, spans[k], d, a);
      pending := pending - {k};
    }
    forall i | 0 <= i < n ensures a[i] == Got(it, servers, round, d, i) {
      var k := CoveredOnce(spans, n, SPAN_SIZE, i);
    }
    replies := a[..];
  }

  // One of the calls.
  method GetSpan(client: ConvoService, round: uint32, span: Span, d: Draw, a: array<Wire>)
    requires client.Deployed() && client.Valid() && client.InStatus(round, RoundClosed)
    requires client.rounds[round].numIncoming == a.Length && span.start + span.count <= a.Length
    modifies a
    ensures forall i :: 0 <= i < a.Length ==>
      a[i] == if Covers(span, i) then Got(client.rounds[round], |client.keys|, round, d, i) else old(a[i])
  {
    var got, onions := client.Get(round, span.start, span.count, d);
    forall i | span.start <= i < span.start + span.count { a[i] := onions[i - span.start]; }
  }

  lemma NoiseSplits(d: Draw, round: uint32, next: seq<Key>)
    requires ValidDraw(d, |next|)
    ensures Drawn(Couples(d.doubles), SIZE_CONVO_EXCHANGE, |next|)
    ensures NoiseOf(d, round, next)
         == SealAll(d.singles, ForwardNonce(round), next) + SealAll(Couples(d.doubles), ForwardNonce(round), next)
  {
    CouplesDrawn(d.doubles, |next|);
  }

  // An onion that does not open leaves the message of its slot, as one of another Add would.
  lemma MalformedLeavesSlot(r: ConvoRound, c: Cipher, keys: seq<Key>, round: uint32, offset: nat, onion: Wire)
    requires keys != [] && offset < |r.sharedKeys| == |r.incoming| && Peel(c, keys, round)(onion).None?
    ensures AddedTo(r, c, keys, round, offset, [onion]) ==
      r.(sharedKeys := r.sharedKeys[offset := Some(SlotKey(c, keys, SIZE_CONVO_EXCHANGE, onion))])
  {
    var s := AddedTo(r, c, keys, round, offset, [onion]);
    assert s.incoming == r.incoming;
    assert s.sharedKeys == r.sharedKeys[offset := Some(SlotKey(c, keys, SIZE_CONVO_EXCHANGE, onion))];
  }

  lemma AddedRoundOk(r: ConvoRound, c: Cipher, keys: seq<Key>, round: uint32, offset: nat, onions: seq<Wire>,
                     mixing: bool)
    requires keys != [] && r.status.RoundOpen? && RoundOk(r, mixing)
    ensures RoundOk(AddedTo(r, c, keys, round, offset, onions), mixing)
  {
  }

  lemma AddedOneMore(start: ConvoRound, c: Cipher, keys: seq<Key>, round: uint32, offset: nat,
                     onions: seq<Wire>, k: nat, before: ConvoRound, after: ConvoRound)
    requires keys != [] && k < |onions| && offset + |onions| <= |start.sharedKeys|
    requires before == AddedTo(start, c, keys, round, offset, onions[..k])
    requires var message := Peel(c, keys, round)(onions[k]);
      var key := SlotKey(c, keys, SIZE_CONVO_EXCHANGE, onions[k]);
      after == before.(sharedKeys := before.sharedKeys[offset + k := Some(key)],
                       incoming := if message.Some? && offset + k < |start.incoming|
                                   then before.incoming[offset + k := message] else before.incoming)
    ensures after == AddedTo(start, c, keys, round, offset, onions[..k + 1])
  {
    var want := AddedTo(start, c, keys, round, offset, onions[..k + 1]);
    forall i | 0 <= i < |start.sharedKeys| ensures after.sharedKeys[i] == want.sharedKeys[i] {
      if offset <= i < offset + k { assert onions[..k + 1][i - offset] == onions[..k][i - offset]; }
    }
    forall i | 0 <= i < |start.incoming| ensures after.incoming[i] == want.incoming[i] {
      if offset <= i < offset + k { assert onions[..k + 1][i - offset] == onions[..k][i - offset]; }
    }
    assert after.sharedKeys == want.sharedKeys && after.incoming == want.incoming;
  }
}
