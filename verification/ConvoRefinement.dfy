/** The main results about a conversation round, stated over the requests the
    clients made: which replies they get, and when the round completes. */
module ConvoRefinement {
  import opened Bytes
  import opened Boxes
  import opened Onions
  import opened Noise
  import opened Dedup
  import opened DeadDrops
  import opened Arrangements
  import opened ConvoSpec
  import opened ConvoTheorems

  // --- The final batch: what the clients sent and what the servers added -------------

  // The exchange a client's onion carries, if every server can peel it.
  function Message(c: Cipher, keys: seq<Key>, round: uint32): (f: Wire -> Option<Wire>) {
    (w: Wire) =>
      match Peeled(c, keys, ForwardNonce(round), SIZE_CONVO_EXCHANGE, w)
      case None => None
      case Some(core) => Some(core.message)
  }

  function Plains(fakes: seq<Fake>): (ws: seq<Wire>)
    ensures |ws| == |fakes|
  {
    seq(|fakes|, i requires 0 <= i < |fakes| => Plain(fakes[i].data))
  }

  // The plaintexts of all noise; the last server adds none.
  function NoisePlains(draws: seq<Draw>): (ws: seq<Wire>)
    requires ValidDraws(draws, |draws|)
  {
    if |draws| <= 1 then [] else
      assert ValidDraw(draws[0], |draws| - 1);
      Plains(Fakes(draws[0])) + NoisePlains(draws[1..])
  }

  // Noise is peeled by the remaining servers to exactly its plaintext.
  lemma NoiseSurvives(c: Cipher, d: Draw, round: uint32, next: seq<Key>)
    requires ValidDraw(d, |next|)
    ensures Mapped(Message(c, next, round), Slots(NoiseOf(d, round, next))) == Slots(Plains(Fakes(d)))
  {
    var noise, f := NoiseOf(d, round, next), Message(c, next, round);
    CouplesDrawn(d.doubles, |next|);
    forall i | 0 <= i < |noise| ensures f(noise[i]) == Some(Plain(Fakes(d)[i].data)) {
      PeelingInvertsSeal(c, next, Fakes(d)[i].ephs, ForwardNonce(round), SIZE_CONVO_EXCHANGE, Plain(Fakes(d)[i].data));
    }
  }

  lemma MappedConcat<T, U>(f: T -> Option<U>, a: seq<Option<T>>, b: seq<Option<T>>)
    ensures Mapped(f, a + b) == Mapped(f, a) + Mapped(f, b)
  {
  }

  lemma PeelThenMessage(c: Cipher, keys: seq<Key>, round: uint32, slots: seq<Option<Wire>>)
    requires keys != []
    ensures Mapped(Message(c, keys[1..], round), Mapped(Peel(c, keys, round), slots))
         == Mapped(Message(c, keys, round), slots)
  {
  }

  lemma {:induction false} FinalShape(c: Cipher, keys: seq<Key>, round: uint32, draws: seq<Draw>,
                                      slots: seq<Option<Wire>>)
    requires keys != [] && ValidDraws(draws, |keys|)
    ensures FinalSlots(c, keys, round, draws, slots)
         == Mapped(Message(c, keys, round), slots) + Slots(NoisePlains(draws))
    decreases |keys|
  {
    if |keys| == 1 {
      PeelThenMessage(c, keys, round, slots);
      assert keys[1..] == [];
      var ys := Mapped(Peel(c, keys, round), slots);
      assert Mapped(Message(c, [], round), ys) == ys;
    } else {
      FinalShape(c, keys[1..], round, draws[1..], NextSlots(c, keys, round, draws[0], slots));
      NextShape(c, keys, round, draws[0], slots);
      NoisePlainsStep(draws);
      MoreSlots(Mapped(Message(c, keys, round), slots), Plains(Fakes(draws[0])), NoisePlains(draws[1..]));
    }
  }

  // What the next server's slots come down to: those of this server, and its noise.
  lemma NextShape(c: Cipher, keys: seq<Key>, round: uint32, d: Draw, slots: seq<Option<Wire>>)
    requires keys != [] && ValidDraw(d, |keys| - 1)
    ensures Mapped(Message(c, keys[1..], round), NextSlots(c, keys, round, d, slots))
         == Mapped(Message(c, keys, round), slots) + Slots(Plains(Fakes(d)))
  {
    var noise := NoiseOf(d, round, keys[1..]);
    MappedConcat(Message(c, keys[1..], round), Mapped(Peel(c, keys, round), slots), Slots(noise));
    PeelThenMessage(c, keys, round, slots);
    NoiseSurvives(c, d, round, keys[1..]);
  }

  lemma NoisePlainsStep(draws: seq<Draw>)
    requires |draws| > 1 && ValidDraws(draws, |draws|)
    ensures ValidDraw(draws[0], |draws| - 1) && ValidDraws(draws[1..], |draws| - 1)
    ensures NoisePlains(draws) == Plains(Fakes(draws[0])) + NoisePlains(draws[1..])
  {
  }

  lemma MoreSlots<T>(a: seq<Option<T>>, b: seq<T>, c: seq<T>)
    ensures a + Slots(b) + Slots(c) == a + Slots(b + c)
  {
    SlotsConcat(b, c);
  }

  // --- Replies -------------------------------------------------------------------

  // The requests the clients made, None for an onion some server cannot peel.
  function ClientRequests(c: Cipher, keys: seq<Key>, round: uint32,
                          onions: seq<Wire>): (rs: seq<Option<Request<seq<byte>, Wire>>>)
    ensures |rs| == |onions|
  {
    Requests(c, Mapped(Message(c, keys, round), Slots(onions)))
  }

  // No noise message uses the dead drop of a client.
  ghost predicate NoiseApart(c: Cipher, draws: seq<Draw>, rs: seq<Option<Request<seq<byte>, Wire>>>)
    requires ValidDraws(draws, |draws|)
  {
    forall i, k :: 0 <= i < |rs| && rs[i].Some? && 0 <= k < |NoisePlains(draws)| ==>
      Parse(c, NoisePlains(draws)[k]).drop != rs[i].value.drop
  }

  lemma FinalRequests(c: Cipher, keys: seq<Key>, round: uint32, draws: seq<Draw>, onions: seq<Wire>)
    requires keys != [] && ValidDraws(draws, |keys|)
    ensures Requests(c, FinalSlots(c, keys, round, draws, Slots(onions)))
         == ClientRequests(c, keys, round, onions) + Requests(c, Slots(NoisePlains(draws)))
  {
    FinalShape(c, keys, round, draws, Slots(onions));
    MappedConcat((w: Wire) => Some(Parse(c, w)),
      Mapped(Message(c, keys, round), Slots(onions)), Slots(NoisePlains(draws)));
  }

  lemma SwapIgnoresNoise<D, M>(rs: seq<Option<Request<D, M>>>, noise: seq<Option<Request<D, M>>>, i: nat, m: M)
    requires i < |rs| && rs[i].Some? && Swapped(rs + noise, i, m)
    requires forall k :: 0 <= k < |noise| && noise[k].Some? ==> noise[k].value.drop != rs[i].value.drop
    ensures Swapped(rs, i, m)
  {
    var all := rs + noise;
    if j :| Sharing(all, i, j) && m == all[j].value.body {
      assert Sharing(rs, i, j);
    } else {
      forall j | 0 <= j < |rs| ensures !Sharing(rs, i, j) {
        assert !Sharing(all, i, j);
      }
    }
  }

  // The conversation round refines the swap of dead drops. For any number of
  // servers, shuffles, noise and malformed requests: the owner of onion i opens
  // the reply with the keys of the onion's layers and finds the message of
  // another client of the same dead drop, or the own message when alone there.
  lemma RoundRefinesSwap(c: Cipher, keys: seq<Key>, round: uint32, draws: seq<Draw>, onions: seq<Wire>, i: nat)
    requires keys != [] && ValidDraws(draws, |keys|) && i < |onions|
    requires Collisionless(c, keys, round, draws, Slots(onions))
    requires NoiseApart(c, draws, ClientRequests(c, keys, round, onions))
    requires RoundReplies(c, keys, round, draws, onions).Some?
    requires Peeled(c, keys, ForwardNonce(round), SIZE_CONVO_EXCHANGE, onions[i]).Some?
    ensures var core := Peeled(c, keys, ForwardNonce(round), SIZE_CONVO_EXCHANGE, onions[i]).value;
      var reply := RoundReplies(c, keys, round, draws, onions).value[i];
      var opens := Unwrapped(reply, BackwardNonce(round), core.sharedKeys);
      var rs := ClientRequests(c, keys, round, onions);
      && rs[i] == Some(Parse(c, core.message))
      && opens.Some? && Swapped(rs, i, opens.value)
  {
    var l := Identity(|onions|);
    assert Arranged(onions, Slots(onions), l);
    Delivery(c, keys, round, draws, onions, Slots(onions), l);
    FinalRequests(c, keys, round, draws, onions);
    var core := Peeled(c, keys, ForwardNonce(round), SIZE_CONVO_EXCHANGE, onions[i]).value;
    var reply := RoundReplies(c, keys, round, draws, onions).value[i];
    assert Delivered(c, keys, round, FinalSlots(c, keys, round, draws, Slots(onions)), i, onions[i], reply);
    SwapIgnoresNoise(ClientRequests(c, keys, round, onions), Requests(c, Slots(NoisePlains(draws))), i,
      Unwrapped(reply, BackwardNonce(round), core.sharedKeys).value);
  }

  // --- When a round completes ----------------------------------------------------------

  // The condition for collision-free batches, in terms of the messages alone: at every
  // server but the last, those it can peel plus the noise are at least as many as those
  // it received.
  ghost predicate Fits(c: Cipher, keys: seq<Key>, round: uint32, draws: seq<Draw>, slots: seq<Option<Wire>>)
    requires keys != [] && ValidDraws(draws, |keys|)
    decreases |keys|
  {
    |keys| > 1 ==>
      && |Contents(slots)| <= |Contents(NextSlots(c, keys, round, draws[0], slots))|
      && Fits(c, keys[1..], round, draws[1..], NextSlots(c, keys, round, draws[0], slots))
  }

  // Without collisions, whether a round completes does not depend on the shuffles.
  lemma {:induction false} CompletesExactlyWhenFits(c: Cipher, keys: seq<Key>, round: uint32, draws: seq<Draw>,
                                                    onions: seq<Wire>, slots: seq<Option<Wire>>, l: Layout)
    requires keys != [] && ValidDraws(draws, |keys|) && Arranged(onions, slots, l)
    requires Collisionless(c, keys, round, draws, slots)
    ensures Completes(c, keys, round, draws, onions) <==> Fits(c, keys, round, draws, slots)
    decreases |keys|
  {
    if |keys| > 1 {
      var d, out := draws[0], Outgoing(c, keys, round, draws[0], onions);
      var next := NextSlots(c, keys, round, d, slots);
      var m, _ := Hop(c, keys, round, d, onions, slots, l);
      CompletesExactlyWhenFits(c, keys[1..], round, draws[1..], out, next, m);
      ArrangedContents(onions, slots, l);
      ArrangedContents(out, next, m);
    }
  }

  ghost predicate AllWellFormed(c: Cipher, keys: seq<Key>, round: uint32, slots: seq<Option<Wire>>) {
    forall x :: 0 <= x < |slots| && slots[x].Some? ==> Message(c, keys, round)(slots[x].value).Some?
  }

  // With well-formed requests and no collisions every round completes, whatever the noise.
  lemma WellFormedCompletes(c: Cipher, keys: seq<Key>, round: uint32, draws: seq<Draw>, onions: seq<Wire>)
    requires keys != [] && ValidDraws(draws, |keys|)
    requires AllWellFormed(c, keys, round, Slots(onions)) && Collisionless(c, keys, round, draws, Slots(onions))
    ensures RoundReplies(c, keys, round, draws, onions).Some?
  {
    WellFormedFits(c, keys, round, draws, Slots(onions));
    assert Arranged(onions, Slots(onions), Identity(|onions|));
    CompletesExactlyWhenFits(c, keys, round, draws, onions, Slots(onions), Identity(|onions|));
    CompletesExactly(c, keys, round, draws, onions);
  }

  // A first server that adds no noise has no slack: one message that it drops, as malformed
  // or as a duplicate, and the round fails.
  lemma DropsNeedNoise(c: Cipher, keys: seq<Key>, round: uint32, draws: seq<Draw>, onions: seq<Wire>, i: nat)
    requires |keys| > 1 && ValidDraws(draws, |keys|) && i < |onions|
    requires draws[0].singles == [] && draws[0].doubles == []
    requires !First(Incoming(c, keys, round, onions), MsgKey(c), i)
    ensures RoundReplies(c, keys, round, draws, onions).None?
  {
    KeptFewer(Incoming(c, keys, round, onions), MsgKey(c), |onions|, i);
    CompletesExactly(c, keys, round, draws, onions);
  }

  // So it does for any onion sent twice, however well formed it is.
  lemma ReplayFails(c: Cipher, keys: seq<Key>, round: uint32, draws: seq<Draw>, w: Wire)
    requires |keys| > 1 && ValidDraws(draws, |keys|) && draws[0].singles == [] && draws[0].doubles == []
    ensures RoundReplies(c, keys, round, draws, [w, w]).None?
  {
    var incoming := Incoming(c, keys, round, [w, w]);
    assert incoming[0] == incoming[1];
    DropsNeedNoise(c, keys, round, draws, [w, w], 1);
  }

  // And for a lone onion of the wrong size.
  lemma MisshapenFails(c: Cipher, keys: seq<Key>, round: uint32, draws: seq<Draw>, w: Wire)
    requires |keys| > 1 && ValidDraws(draws, |keys|) && draws[0].singles == [] && draws[0].doubles == []
    requires Len(w) != |keys| * ONION_OVERHEAD + SIZE_CONVO_EXCHANGE
    ensures RoundReplies(c, keys, round, draws, [w]).None?
  {
    assert Incoming(c, keys, round, [w])[0] == Peel(c, keys, round)(w);
    DropsNeedNoise(c, keys, round, draws, [w], 0);
  }

  lemma {:induction false} WellFormedFits(c: Cipher, keys: seq<Key>, round: uint32, draws: seq<Draw>,
                                          slots: seq<Option<Wire>>)
    requires keys != [] && ValidDraws(draws, |keys|) && AllWellFormed(c, keys, round, slots)
    ensures Fits(c, keys, round, draws, slots)
    decreases |keys|
  {
    if |keys| > 1 {
      NextWellFormed(c, keys, round, draws[0], slots);
      WellFormedFits(c, keys[1..], round, draws[1..], NextSlots(c, keys, round, draws[0], slots));
    }
  }

  lemma NextWellFormed(c: Cipher, keys: seq<Key>, round: uint32, d: Draw, slots: seq<Option<Wire>>)
    requires keys != [] && ValidDraw(d, |keys| - 1) && AllWellFormed(c, keys, round, slots)
    ensures AllWellFormed(c, keys[1..], round, NextSlots(c, keys, round, d, slots))
    ensures |Contents(slots)| <= |Contents(NextSlots(c, keys, round, d, slots))|
  {
    var rest := keys[1..];
    var noise, ys := NoiseOf(d, round, rest), Mapped(Peel(c, keys, round), slots);
    PeelWellFormed(c, keys, round, slots);
    SameOccupancy(slots, ys);
    ContentsConcat(ys, Slots(noise));
    NoiseSurvives(c, d, round, rest);
    forall x | 0 <= x < |noise| ensures Message(c, rest, round)(noise[x]).Some? {
      assert Mapped(Message(c, rest, round), Slots(noise))[x].Some?;
    }
  }

  lemma PeelWellFormed(c: Cipher, keys: seq<Key>, round: uint32, slots: seq<Option<Wire>>)
    requires keys != [] && AllWellFormed(c, keys, round, slots)
    ensures AllWellFormed(c, keys[1..], round, Mapped(Peel(c, keys, round), slots))
    ensures forall x :: 0 <= x < |slots| && slots[x].Some? ==> Mapped(Peel(c, keys, round), slots)[x].Some?
  {
    var ys := Mapped(Peel(c, keys, round), slots);
    PeelThenMessage(c, keys, round, slots);
    forall x | 0 <= x < |slots| && slots[x].Some?
      ensures ys[x].Some? && Message(c, keys[1..], round)(ys[x].value).Some?
    {
      assert Mapped(Message(c, keys[1..], round), ys)[x] == Mapped(Message(c, keys, round), slots)[x];
    }
  }

  // --- Rounds with honest clients ----------------------------------------------------------

  datatype Client = Client(drop: seq<byte>, body: Wire, ephs: seq<Key>)

  ghost predicate Honest(cl: Client, servers: nat) {
    |cl.drop| == SIZE_DEAD_DROP && Len(cl.body) == SIZE_ENCRYPTED_MESSAGE && |cl.ephs| == servers
  }

  // The onion NextConvoRequest builds.
  function ClientOnion(cl: Client, keys: seq<Key>, round: uint32): (w: Wire)
    requires |cl.ephs| == |keys|
  {
    Layered(Cat(cl.drop, cl.body), ForwardNonce(round), keys, cl.ephs)
  }

  function ClientOnions(cls: seq<Client>, keys: seq<Key>, round: uint32): (ws: seq<Wire>)
    requires forall i :: 0 <= i < |cls| ==> Honest(cls[i], |keys|)
    ensures |ws| == |cls|
  {
    seq(|cls|, i requires 0 <= i < |cls| => assert Honest(cls[i], |keys|); ClientOnion(cls[i], keys, round))
  }

  function Asked(cls: seq<Client>): (rs: seq<Request<seq<byte>, Wire>>)
    ensures |rs| == |cls|
  {
    seq(|cls|, i requires 0 <= i < |cls| => Request(cls[i].drop, cls[i].body))
  }

  lemma HonestPeels(c: Cipher, cl: Client, keys: seq<Key>, round: uint32)
    requires Honest(cl, |keys|)
    ensures Peeled(c, keys, ForwardNonce(round), SIZE_CONVO_EXCHANGE, ClientOnion(cl, keys, round))
         == Some(Core(Agreed(keys, cl.ephs), Cat(cl.drop, cl.body)))
  {
    PeelingInvertsSeal(c, keys, cl.ephs, ForwardNonce(round), SIZE_CONVO_EXCHANGE, Cat(cl.drop, cl.body));
  }

  lemma HonestParses(c: Cipher, cl: Client)
    requires |cl.drop| == SIZE_DEAD_DROP && Len(cl.body) == SIZE_ENCRYPTED_MESSAGE
    ensures Parse(c, Cat(cl.drop, cl.body)) == Request(cl.drop, cl.body)
  {
    assert Render(c, Cat(cl.drop, cl.body))[..SIZE_DEAD_DROP] == cl.drop;
    assert Suffix(c, Cat(cl.drop, cl.body), SIZE_DEAD_DROP) == Suffix(c, cl.body, 0);
  }

  // The last server keeps two exchanges whose messages end differently, also when they name
  // the same dead drop.
  lemma DifferentEndingsKept(c: Cipher, key: Key, round: uint32, a: Client, b: Client)
    requires Honest(a, 1) && Honest(b, 1) && Ending(c, a.body) != Ending(c, b.body)
    ensures Kept(Incoming(c, [key], round, [ClientOnion(a, [key], round), ClientOnion(b, [key], round)]), MsgKey(c))
         == [Cat(a.drop, a.body), Cat(b.drop, b.body)]
  {
    var onions := [ClientOnion(a, [key], round), ClientOnion(b, [key], round)];
    var incoming := Incoming(c, [key], round, onions);
    LastPeels(c, key, round, a);
    LastPeels(c, key, round, b);
    assert incoming == [Some(Cat(a.drop, a.body)), Some(Cat(b.drop, b.body))];
    ExchangeEnds(c, a.drop, a.body);
    ExchangeEnds(c, b.drop, b.body);
    MsgKeyReadsEnding(c, Cat(a.drop, a.body), Cat(b.drop, b.body));
    BothKept(Cat(a.drop, a.body), Cat(b.drop, b.body), MsgKey(c));
  }

  lemma LastPeels(c: Cipher, key: Key, round: uint32, cl: Client)
    requires Honest(cl, 1)
    ensures Peel(c, [key], round)(ClientOnion(cl, [key], round)) == Some(Cat(cl.drop, cl.body))
  {
    HonestPeels(c, cl, [key], round);
  }

  // An exchange ends as its message does.
  lemma ExchangeEnds(c: Cipher, drop: seq<byte>, body: Wire)
    requires Len(body) >= 8
    ensures Ending(c, Cat(drop, body)) == Ending(c, body)
  {
    var s := Render(c, body);
    assert (drop + s)[|drop + s| - 8..] == s[|s| - 8..];
  }

  // For honest clients the round always completes, and a client whose dead drop has
  // at most two users opens exactly what one direct exchange of the requests gives.
  lemma HonestRound(c: Cipher, keys: seq<Key>, round: uint32, draws: seq<Draw>, cls: seq<Client>, i: nat)
    requires keys != [] && ValidDraws(draws, |keys|) && i < |cls|
    requires forall k :: 0 <= k < |cls| ==> Honest(cls[k], |keys|)
    requires Collisionless(c, keys, round, draws, Slots(ClientOnions(cls, keys, round)))
    requires NoiseApart(c, draws, Slots(Asked(cls)))
    requires Uncrowded(Slots(Asked(cls)), i)
    ensures var replies := RoundReplies(c, keys, round, draws, ClientOnions(cls, keys, round));
      && replies.Some?
      && Unwrapped(replies.value[i], BackwardNonce(round), Agreed(keys, cls[i].ephs)) == Some(Replies(Asked(cls))[i])
  {
    var onions := ClientOnions(cls, keys, round);
    forall k | 0 <= k < |cls|
      ensures Peeled(c, keys, ForwardNonce(round), SIZE_CONVO_EXCHANGE, onions[k])
           == Some(Core(Agreed(keys, cls[k].ephs), Cat(cls[k].drop, cls[k].body)))
      ensures ClientRequests(c, keys, round, onions)[k] == Some(Asked(cls)[k])
    {
      HonestPeels(c, cls[k], keys, round);
      HonestParses(c, cls[k]);
    }
    assert ClientRequests(c, keys, round, onions) == Slots(Asked(cls));
    assert AllWellFormed(c, keys, round, Slots(onions));
    WellFormedCompletes(c, keys, round, draws, onions);
    RoundRefinesSwap(c, keys, round, draws, onions, i);
    RepliesAreSwapped(Asked(cls), i);
    SwappedUnique(Slots(Asked(cls)), i, Replies(Asked(cls))[i],
      Unwrapped(RoundReplies(c, keys, round, draws, onions).value[i], BackwardNonce(round),
                Agreed(keys, cls[i].ephs)).value);
  }
}
