/** The conversation round, end to end: for any number of servers, any shuffles,
    any noise and any mix of well-formed and malformed requests, the chain of
    servers does to the requests what one swap of dead drops would do. */
module ConvoTheorems {
  import opened Bytes
  import opened Boxes
  import opened Onions
  import opened Noise
  import opened Shuffling
  import opened Dedup
  import opened DeadDrops
  import opened Arrangements
  import opened ConvoSpec

  // --- The round without shuffles or drops -------------------------------------------

  // The slots one server on: every message peeled in place, the noise at the end.
  function NextSlots(c: Cipher, keys: seq<Key>, round: uint32, d: Draw,
                     slots: seq<Option<Wire>>): (next: seq<Option<Wire>>)
    requires keys != [] && ValidDraw(d, |keys| - 1)
    ensures |slots| <= |next|
  {
    Mapped(Peel(c, keys, round), slots) + Slots(NoiseOf(d, round, keys[1..]))
  }

  // The slots after the last server has peeled.
  function FinalSlots(c: Cipher, keys: seq<Key>, round: uint32, draws: seq<Draw>,
                      slots: seq<Option<Wire>>): (final: seq<Option<Wire>>)
    requires keys != [] && ValidDraws(draws, |keys|)
    ensures |slots| <= |final|
    decreases |keys|
  {
    if |keys| == 1 then Mapped(Peel(c, keys, round), slots)
    else FinalSlots(c, keys[1..], round, draws[1..], NextSlots(c, keys, round, draws[0], slots))
  }

  // No server sees two different messages with the same last eight bytes.
  ghost predicate Collisionless(c: Cipher, keys: seq<Key>, round: uint32, draws: seq<Draw>, slots: seq<Option<Wire>>)
    requires keys != [] && ValidDraws(draws, |keys|)
    decreases |keys|
  {
    && Distinct(Mapped(Peel(c, keys, round), slots), MsgKey(c))
    && (|keys| > 1 ==>
          Collisionless(c, keys[1..], round, draws[1..], NextSlots(c, keys, round, draws[0], slots)))
  }

  function Requests(c: Cipher, slots: seq<Option<Wire>>): (rs: seq<Option<Request<seq<byte>, Wire>>>)
    ensures |rs| == |slots|
  {
    Mapped((w: Wire) => Some(Parse(c, w)), slots)
  }

  // --- One hop ---------------------------------------------------------------------

  // The message kept from slot i is in `out` at the position q gives for its index.
  ghost predicate Routed(c: Cipher, keys: seq<Key>, round: uint32, onions: seq<Wire>, out: seq<Wire>, q: seq<nat>,
                         i: nat)
    requires keys != [] && i < |onions|
  {
    var incoming := Incoming(c, keys, round, onions);
    var v := Index(incoming, MsgKey(c))[i];
    0 <= v < |q| == |out| && q[v] < |out| && Some(out[q[v]]) == incoming[i]
  }

  // Where each kept message goes: message v leaves the server at position q[v].
  lemma Hop(c: Cipher, keys: seq<Key>, round: uint32, d: Draw, onions: seq<Wire>, slots: seq<Option<Wire>>, l: Layout)
    returns (m: Layout, q: seq<nat>)
    requires keys != [] && ValidDraw(d, |keys| - 1) && Arranged(onions, slots, l)
    requires Distinct(Mapped(Peel(c, keys, round), slots), MsgKey(c))
    ensures Arranged(Outgoing(c, keys, round, d, onions), NextSlots(c, keys, round, d, slots), m)
    ensures |q| == |Outgoing(c, keys, round, d, onions)|
    ensures Inverse(Perm(BatchShuffler(c, keys, round, d, onions), |q|), q)
    ensures forall i :: 0 <= i < |onions| && Incoming(c, keys, round, onions)[i].Some? ==>
      Routed(c, keys, round, onions, Outgoing(c, keys, round, d, onions), q, i)
      && m.origin[q[Index(Incoming(c, keys, round, onions), MsgKey(c))[i]]] == l.origin[i]
  {
    m, q := HopArranges(onions, slots, l, Peel(c, keys, round), MsgKey(c), NoiseOf(d, round, keys[1..]),
                        BatchShuffler(c, keys, round, d, onions));
  }

  // --- Every request is answered through all servers ------------------------------------

  // If the onion is well formed for all servers, its owner opens the reply to a
  // proper answer for slot x of the final batch.
  ghost predicate Delivered(c: Cipher, keys: seq<Key>, round: uint32, final: seq<Option<Wire>>, x: nat, onion: Wire,
                            reply: Wire) {
    var core := Peeled(c, keys, ForwardNonce(round), SIZE_CONVO_EXCHANGE, onion);
    core.Some? ==>
      var message := Unwrapped(reply, BackwardNonce(round), core.value.sharedKeys);
      && x < |final| && final[x] == Some(core.value.message)
      && message.Some? && Swapped(Requests(c, final), x, message.value)
  }

  lemma AnswerIsSealed(c: Cipher, keys: seq<Key>, round: uint32, d: Draw, onions: seq<Wire>, replies: seq<Wire>, i: nat)
    requires keys != [] && i < |onions|
    requires var v := Index(Incoming(c, keys, round, onions), MsgKey(c))[i];
      0 <= v < |replies| && Len(replies[v]) == ReplySize(|keys| - 1)
    ensures Answer(c, keys, round, d, onions, replies, i)
         == Sealed(SlotKey(c, keys, SIZE_CONVO_EXCHANGE, onions[i]), BackwardNonce(round),
                   replies[Index(Incoming(c, keys, round, onions), MsgKey(c))[i]])
  {
    assert |keys| * BOX_OVERHEAD == (|keys| - 1) * BOX_OVERHEAD + BOX_OVERHEAD;
  }

  // A server's own reply layer is exactly the one its client removes first.
  lemma DeliveredThroughServer(c: Cipher, keys: seq<Key>, round: uint32, final: seq<Option<Wire>>, x: nat,
                               onion: Wire, reply: Wire)
    requires keys != []
    requires var body := SlotBody(c, keys, ForwardNonce(round), SIZE_CONVO_EXCHANGE, onion);
      body.Some? ==> Delivered(c, keys[1..], round, final, x, body.value, reply)
    ensures Delivered(c, keys, round, final, x, onion,
              Sealed(SlotKey(c, keys, SIZE_CONVO_EXCHANGE, onion), BackwardNonce(round), reply))
  {
    var core := Peeled(c, keys, ForwardNonce(round), SIZE_CONVO_EXCHANGE, onion);
    if core.Some? { assert core.value.sharedKeys[1..] ==
      Peeled(c, keys[1..], ForwardNonce(round), SIZE_CONVO_EXCHANGE,
        SlotBody(c, keys, ForwardNonce(round), SIZE_CONVO_EXCHANGE, onion).value).value.sharedKeys; }
  }

  // A proper answer in the batch is a proper answer for the slots it came from.
  lemma SwapTransports(c: Cipher, batch: seq<Wire>, final: seq<Option<Wire>>, l: Layout, v: nat, m: Wire)
    requires Arranged(batch, final, l) && v < |batch| && Swapped(Slots(ParseAll(c, batch)), v, m)
    ensures Swapped(Requests(c, final), l.origin[v], m)
  {
    var rs, fs := Slots(ParseAll(c, batch)), Requests(c, final);
    var x := l.origin[v];
    if j :| Sharing(rs, v, j) && m == rs[j].value.body {
      assert Sharing(fs, x, l.origin[j]);
    } else {
      forall y | 0 <= y < |fs| ensures !Sharing(fs, x, y) {
        if fs[y].Some? { assert !Sharing(rs, v, l.pos[y]); }
      }
    }
  }

  lemma ReplyBodySize(c: Cipher, batch: seq<Wire>, v: nat)
    requires v < |batch| && forall i :: 0 <= i < |batch| ==> Len(batch[i]) == SIZE_CONVO_EXCHANGE
    ensures Len(Replies(ParseAll(c, batch))[v]) == SIZE_ENCRYPTED_MESSAGE
  {
    var rs := ParseAll(c, batch);
    RepliesAreSwapped(rs, v);
    forall i | 0 <= i < |rs| ensures Len(rs[i].body) == SIZE_ENCRYPTED_MESSAGE {
      assert |Render(c, rs[i].body)| == Len(batch[i]) - SIZE_DEAD_DROP;
    }
  }

  // What the last server answers to slot i, seen from the slots of the round.
  lemma LastServerSwaps(c: Cipher, keys: seq<Key>, round: uint32, onions: seq<Wire>, slots: seq<Option<Wire>>,
                        l: Layout, i: nat)
    requires keys != [] && Arranged(onions, slots, l) && i < |onions|
    requires Distinct(Mapped(Peel(c, keys, round), slots), MsgKey(c))
    requires Incoming(c, keys, round, onions)[i].Some?
    ensures var incoming := Incoming(c, keys, round, onions);
      var kept, v := Kept(incoming, MsgKey(c)), Index(incoming, MsgKey(c))[i];
      && 0 <= v < |kept|
      && Swapped(Requests(c, Mapped(Peel(c, keys, round), slots)), l.origin[i], Replies(ParseAll(c, kept))[v])
  {
    var incoming := Incoming(c, keys, round, onions);
    FilterArranges(onions, slots, l, Peel(c, keys, round), MsgKey(c));
    var m := Filtered(l, Index(incoming, MsgKey(c)), Firsts(incoming, MsgKey(c), |incoming|));
    var kept, v := Kept(incoming, MsgKey(c)), Index(incoming, MsgKey(c))[i];
    RepliesAreSwapped(ParseAll(c, kept), v);
    SwapTransports(c, kept, Mapped(Peel(c, keys, round), slots), m, v, Replies(ParseAll(c, kept))[v]);
  }

  lemma KeptSize(c: Cipher, keys: seq<Key>, round: uint32, onions: seq<Wire>)
    requires keys != []
    ensures forall v :: 0 <= v < |Kept(Incoming(c, keys, round, onions), MsgKey(c))| ==>
      Len(Kept(Incoming(c, keys, round, onions), MsgKey(c))[v]) == (|keys| - 1) * ONION_OVERHEAD + SIZE_CONVO_EXCHANGE
  {
    var incoming := Incoming(c, keys, round, onions);
    forall i | 0 <= i < |incoming| && incoming[i].Some?
      ensures Len(incoming[i].value) == (|keys| - 1) * ONION_OVERHEAD + SIZE_CONVO_EXCHANGE
    {
      assert incoming[i] == SlotBody(c, keys, ForwardNonce(round), SIZE_CONVO_EXCHANGE, onions[i]);
    }
  }

  // The answer a server gives for a slot wraps the reply for the message it kept.
  lemma AnswerDelivers(c: Cipher, keys: seq<Key>, round: uint32, d: Draw, onions: seq<Wire>, replies: seq<Wire>,
                       final: seq<Option<Wire>>, x: nat, i: nat)
    requires keys != [] && i < |onions|
    requires var incoming := Incoming(c, keys, round, onions);
      var v := Index(incoming, MsgKey(c))[i];
      incoming[i].Some? ==>
        && 0 <= v < |replies| && Len(replies[v]) == ReplySize(|keys| - 1)
        && Delivered(c, keys[1..], round, final, x, incoming[i].value, replies[v])
    ensures Delivered(c, keys, round, final, x, onions[i], Answer(c, keys, round, d, onions, replies, i))
  {
    var incoming := Incoming(c, keys, round, onions);
    assert incoming[i] == SlotBody(c, keys, ForwardNonce(round), SIZE_CONVO_EXCHANGE, onions[i]);
    if incoming[i].Some? {
      AnswerIsSealed(c, keys, round, d, onions, replies, i);
      DeliveredThroughServer(c, keys, round, final, x, onions[i], replies[Index(incoming, MsgKey(c))[i]]);
    }
  }

  // Every well-formed onion of the batch is answered properly.
  ghost predicate AllDelivered(c: Cipher, keys: seq<Key>, round: uint32, onions: seq<Wire>, final: seq<Option<Wire>>,
                               l: Layout, replies: seq<Wire>) {
    && |l.origin| == |onions| == |replies|
    && forall i :: 0 <= i < |onions| ==> Delivered(c, keys, round, final, l.origin[i], onions[i], replies[i])
  }

  lemma DeliveryAtLast(c: Cipher, keys: seq<Key>, round: uint32, d: Draw, onions: seq<Wire>, slots: seq<Option<Wire>>,
                       l: Layout)
    requires |keys| == 1 && Arranged(onions, slots, l)
    requires Distinct(Mapped(Peel(c, keys, round), slots), MsgKey(c))
    ensures var replies := Replies(ParseAll(c, Kept(Incoming(c, keys, round, onions), MsgKey(c))));
      AllDelivered(c, keys, round, onions, Mapped(Peel(c, keys, round), slots), l,
        Answers(c, keys, round, d, onions, replies))
  {
    var replies := Replies(ParseAll(c, Kept(Incoming(c, keys, round, onions), MsgKey(c))));
    forall i | 0 <= i < |onions|
      ensures Delivered(c, keys, round, Mapped(Peel(c, keys, round), slots), l.origin[i], onions[i],
                Answer(c, keys, round, d, onions, replies, i))
    {
      DeliveredAtLast(c, keys, round, d, onions, slots, l, i);
    }
  }

  lemma DeliveredAtLast(c: Cipher, keys: seq<Key>, round: uint32, d: Draw, onions: seq<Wire>,
                        slots: seq<Option<Wire>>, l: Layout, i: nat)
    requires |keys| == 1 && Arranged(onions, slots, l) && i < |onions|
    requires Distinct(Mapped(Peel(c, keys, round), slots), MsgKey(c))
    ensures var replies := Replies(ParseAll(c, Kept(Incoming(c, keys, round, onions), MsgKey(c))));
      Delivered(c, keys, round, Mapped(Peel(c, keys, round), slots), l.origin[i], onions[i],
        Answer(c, keys, round, d, onions, replies, i))
  {
    var incoming := Incoming(c, keys, round, onions);
    var kept := Kept(incoming, MsgKey(c));
    if incoming[i].Some? {
      LastServerSwaps(c, keys, round, onions, slots, l, i);
      KeptSize(c, keys, round, onions);
      ReplyBodySize(c, kept, Index(incoming, MsgKey(c))[i]);
    }
    AnswerDelivers(c, keys, round, d, onions, Replies(ParseAll(c, kept)), Mapped(Peel(c, keys, round), slots),
      l.origin[i], i);
  }

  lemma DeliveryStep(c: Cipher, keys: seq<Key>, round: uint32, d: Draw, onions: seq<Wire>, l: Layout,
                     final: seq<Option<Wire>>,
                     back: seq<Wire>, m: Layout, q: seq<nat>)
    requires |keys| > 1 && ValidDraw(d, |keys| - 1) && |l.origin| == |onions| <= |back|
    requires var out := Outgoing(c, keys, round, d, onions);
      |q| == |out| && AllDelivered(c, keys[1..], round, out, final, m, back)
    requires forall k :: 0 <= k < |back| ==> Len(back[k]) == ReplySize(|keys| - 1)
    requires Inverse(Perm(BatchShuffler(c, keys, round, d, onions), |q|), q)
    requires forall i :: 0 <= i < |onions| && Incoming(c, keys, round, onions)[i].Some? ==>
      Routed(c, keys, round, onions, Outgoing(c, keys, round, d, onions), q, i)
      && m.origin[q[Index(Incoming(c, keys, round, onions), MsgKey(c))[i]]] == l.origin[i]
    ensures AllDelivered(c, keys, round, onions, final, l, Answers(c, keys, round, d, onions,
              Unshuffled(BatchShuffler(c, keys, round, d, onions), back)[..|onions|]))
  {
    forall i | 0 <= i < |onions|
      ensures Delivered(c, keys, round, final, l.origin[i], onions[i], Answer(c, keys, round, d, onions,
                Unshuffled(BatchShuffler(c, keys, round, d, onions), back)[..|onions|], i))
    {
      DeliveryThroughHop(c, keys, round, d, onions, back, final, l.origin[i], q, i);
    }
  }

  // The round from a server on, in terms of the round from the next server on.
  lemma RoundUnfolds(c: Cipher, keys: seq<Key>, round: uint32, draws: seq<Draw>, onions: seq<Wire>)
    returns (back: seq<Wire>)
    requires |keys| > 1 && ValidDraws(draws, |keys|) && RoundReplies(c, keys, round, draws, onions).Some?
    ensures ValidDraw(draws[0], |keys| - 1) && ValidDraws(draws[1..], |keys[1..]|)
    ensures RoundReplies(c, keys[1..], round, draws[1..], Outgoing(c, keys, round, draws[0], onions)) == Some(back)
    ensures |onions| <= |back| == |Outgoing(c, keys, round, draws[0], onions)|
    ensures RoundReplies(c, keys, round, draws, onions).value
         == Answers(c, keys, round, draws[0], onions,
                    Unshuffled(BatchShuffler(c, keys, round, draws[0], onions), back)[..|onions|])
  {
    back := RoundReplies(c, keys[1..], round, draws[1..], Outgoing(c, keys, round, draws[0], onions)).value;
  }

  lemma {:induction false} Delivery(c: Cipher, keys: seq<Key>, round: uint32, draws: seq<Draw>, onions: seq<Wire>,
                                    slots: seq<Option<Wire>>, l: Layout)
    requires keys != [] && ValidDraws(draws, |keys|) && Arranged(onions, slots, l)
    requires Collisionless(c, keys, round, draws, slots)
    requires RoundReplies(c, keys, round, draws, onions).Some?
    ensures AllDelivered(c, keys, round, onions, FinalSlots(c, keys, round, draws, slots), l,
              RoundReplies(c, keys, round, draws, onions).value)
    decreases |keys|
  {
    if |keys| == 1 {
      DeliveryAtLast(c, keys, round, draws[0], onions, slots, l);
    } else {
      var d, out := draws[0], Outgoing(c, keys, round, draws[0], onions);
      var back := RoundUnfolds(c, keys, round, draws, onions);
      var m, q := Hop(c, keys, round, d, onions, slots, l);
      Delivery(c, keys[1..], round, draws[1..], out, NextSlots(c, keys, round, d, slots), m);
      DeliveryStep(c, keys, round, d, onions, l, FinalSlots(c, keys, round, draws, slots), back, m, q);
    }
  }

  lemma DeliveryThroughHop(c: Cipher, keys: seq<Key>, round: uint32, d: Draw, onions: seq<Wire>, back: seq<Wire>,
                           final: seq<Option<Wire>>, x: nat, q: seq<nat>, i: nat)
    requires |keys| > 1 && ValidDraw(d, |keys| - 1) && i < |onions| <= |back|
    requires |back| == |Outgoing(c, keys, round, d, onions)| == |q|
    requires forall k :: 0 <= k < |back| ==> Len(back[k]) == ReplySize(|keys| - 1)
    requires Inverse(Perm(BatchShuffler(c, keys, round, d, onions), |q|), q)
    requires Incoming(c, keys, round, onions)[i].Some? ==>
      var out, v := Outgoing(c, keys, round, d, onions), Index(Incoming(c, keys, round, onions), MsgKey(c))[i];
      && Routed(c, keys, round, onions, out, q, i)
      && Delivered(c, keys[1..], round, final, x, out[q[v]], back[q[v]])
    ensures Delivered(c, keys, round, final, x, onions[i],
      Answer(c, keys, round, d, onions, Unshuffled(BatchShuffler(c, keys, round, d, onions), back)[..|onions|], i))
  {
    var s := BatchShuffler(c, keys, round, d, onions);
    var replies := Unshuffled(s, back)[..|onions|];
    var incoming := Incoming(c, keys, round, onions);
    if incoming[i].Some? {
      var v := Index(incoming, MsgKey(c))[i];
      ShuffleIsPermutation(s, back, back);
      FilterKeepsFirsts(incoming, MsgKey(c));
      assert replies[v] == back[q[v]];
    }
    AnswerDelivers(c, keys, round, d, onions, replies, final, x, i);
  }

  // --- When a round completes ----------------------------------------------------------

  // Every server but the last passes on at least as many messages as it received: what it
  // drops, as malformed or as a duplicate, is no more than the noise it adds.
  ghost predicate Completes(c: Cipher, keys: seq<Key>, round: uint32, draws: seq<Draw>, onions: seq<Wire>)
    requires keys != [] && ValidDraws(draws, |keys|)
    decreases |keys|
  {
    |keys| > 1 ==>
      && |onions| <= |Kept(Incoming(c, keys, round, onions), MsgKey(c))| + |NoiseOf(draws[0], round, keys[1..])|
      && Completes(c, keys[1..], round, draws[1..], Outgoing(c, keys, round, draws[0], onions))
  }

  // Cutting the replies to the number received works on every server exactly then,
  // for any batch.
  lemma {:induction false} CompletesExactly(c: Cipher, keys: seq<Key>, round: uint32, draws: seq<Draw>,
                                            onions: seq<Wire>)
    requires keys != [] && ValidDraws(draws, |keys|)
    ensures RoundReplies(c, keys, round, draws, onions).Some? <==> Completes(c, keys, round, draws, onions)
    decreases |keys|
  {
    if |keys| > 1 {
      ServerCompletes(c, keys, round, draws, onions);
      CompletesExactly(c, keys[1..], round, draws[1..], Outgoing(c, keys, round, draws[0], onions));
    }
  }

  lemma ServerCompletes(c: Cipher, keys: seq<Key>, round: uint32, draws: seq<Draw>, onions: seq<Wire>)
    requires |keys| > 1 && ValidDraws(draws, |keys|)
    ensures ValidDraws(draws[1..], |keys[1..]|) && ValidDraw(draws[0], |keys| - 1)
    ensures |Outgoing(c, keys, round, draws[0], onions)|
         == |Kept(Incoming(c, keys, round, onions), MsgKey(c))| + |NoiseOf(draws[0], round, keys[1..])|
    ensures var out := Outgoing(c, keys, round, draws[0], onions);
      RoundReplies(c, keys, round, draws, onions).Some? <==>
        |onions| <= |out| && RoundReplies(c, keys[1..], round, draws[1..], out).Some?
  {
  }

  // The same for a server's own messages, whose slots may also be empty.
  lemma ClosesExactly(c: Cipher, keys: seq<Key>, round: uint32, draws: seq<Draw>, slots: seq<Option<Wire>>)
    requires keys != [] && ValidDraws(draws, |keys|)
    ensures CloseReplies(c, keys, round, draws, slots).Some? <==>
      (|keys| > 1 ==>
         && |slots| <= |Kept(slots, MsgKey(c))| + |NoiseOf(draws[0], round, keys[1..])|
         && Completes(c, keys[1..], round, draws[1..], SlotOutgoing(c, keys, round, draws[0], slots)))
  {
    if |keys| > 1 {
      CompletesExactly(c, keys[1..], round, draws[1..], SlotOutgoing(c, keys, round, draws[0], slots));
    }
  }
}
