/** The conversation round without any assumption on the messages: duplicates are dropped
    on the way, and an onion's owner can open the reply exactly when no server dropped it. */
module ConvoExact {
  import opened Bytes
  import opened Boxes
  import opened Onions
  import opened Noise
  import opened Shuffling
  import opened Dedup
  import opened DeadDrops
  import opened Arrangements
  import opened ConvoSpec
  import opened ConvoTheorems

  // --- Following a message through a shuffle ------------------------------------------

  // Where a shuffler puts the element at position v.
  function Landing(s: seq<nat>, v: nat): (k: nat)
    requires Shuffler(s) && v < |s|
  {
    Unshuffled(s, Iota(|s|))[v]
  }

  lemma Lands<T>(s: seq<nat>, x: seq<T>, y: seq<T>, v: nat)
    requires Shuffler(s) && v < |s| == |x| == |y|
    ensures Landing(s, v) < |s|
    ensures Shuffled(s, x)[Landing(s, v)] == x[v] && Unshuffled(s, y)[v] == y[Landing(s, v)]
  {
    ShuffleIsPermutation(s, x, y);
    ShuffleIsPermutation(s, x, Iota(|s|));
    var k := PermutationOnto(Perm(s, |s|), v);
  }

  lemma LandsApart(s: seq<nat>, u: nat, v: nat)
    requires Shuffler(s) && u < |s| && v < |s| && u != v
    ensures Landing(s, u) != Landing(s, v)
  {
    Lands(s, Iota(|s|), Iota(|s|), u);
    Lands(s, Iota(|s|), Iota(|s|), v);
  }

  // --- Following a message through the chain --------------------------------------------

  // Where the message in onion i ends up in the last server's batch; None when it cannot
  // be peeled or some server has seen its last eight bytes before.
  function Track(c: Cipher, keys: seq<Key>, round: uint32, draws: seq<Draw>, onions: seq<Wire>,
                 i: nat): (t: Option<nat>)
    requires keys != [] && ValidDraws(draws, |keys|) && i < |onions|
    decreases |keys|
  {
    var incoming := Incoming(c, keys, round, onions);
    if !First(incoming, MsgKey(c), i) then None else
      KeptAt(incoming, MsgKey(c), i);
      var v := Index(incoming, MsgKey(c))[i];
      if |keys| == 1 then Some(v) else
        var s := BatchShuffler(c, keys, round, draws[0], onions);
        Lands(s, s, s, v);
        Track(c, keys[1..], round, draws[1..], Outgoing(c, keys, round, draws[0], onions), Landing(s, v))
  }

  lemma KeptAt<T>(slots: seq<Option<T>>, key: T -> nat, i: nat)
    requires i < |slots|
    ensures First(slots, key, i) <==> Index(slots, key)[i] >= 0
    ensures First(slots, key, i) ==>
      Index(slots, key)[i] < |Kept(slots, key)| && slots[i] == Some(Kept(slots, key)[Index(slots, key)[i]])
  {
    FilterKeepsFirsts(slots, key);
  }

  // The message of onion i, one server on.
  lemma Onward(c: Cipher, keys: seq<Key>, round: uint32, d: Draw, onions: seq<Wire>, i: nat, back: seq<Wire>)
    returns (v: nat, q: nat)
    requires keys != [] && ValidDraw(d, |keys| - 1) && i < |onions|
    requires First(Incoming(c, keys, round, onions), MsgKey(c), i)
    requires |back| == |Outgoing(c, keys, round, d, onions)|
    ensures v == Index(Incoming(c, keys, round, onions), MsgKey(c))[i]
    ensures v < |onions| && v < |back| && q == Landing(BatchShuffler(c, keys, round, d, onions), v) < |back|
    ensures Some(Outgoing(c, keys, round, d, onions)[q]) == Peel(c, keys, round)(onions[i])
    ensures Unshuffled(BatchShuffler(c, keys, round, d, onions), back)[v] == back[q]
  {
    var incoming := Incoming(c, keys, round, onions);
    KeptAt(incoming, MsgKey(c), i);
    v := Index(incoming, MsgKey(c))[i];
    var s := BatchShuffler(c, keys, round, d, onions);
    Lands(s, Kept(incoming, MsgKey(c)) + NoiseOf(d, round, keys[1..]), back, v);
    q := Landing(s, v);
  }

  // Opening a server's answer with the own keys: the reply for the kept message is one
  // layer down; for a dropped message there is nothing to open.
  lemma AnswerOpens(c: Cipher, keys: seq<Key>, round: uint32, d: Draw, onions: seq<Wire>, replies: seq<Wire>, i: nat,
                    sks: seq<SharedKey>)
    requires keys != [] && i < |onions| && sks != [] && sks[0] == SlotKey(c, keys, SIZE_CONVO_EXCHANGE, onions[i])
    requires var incoming := Incoming(c, keys, round, onions);
      var v := Index(incoming, MsgKey(c))[i];
      First(incoming, MsgKey(c), i) ==> 0 <= v < |replies| && Len(replies[v]) == ReplySize(|keys| - 1)
    ensures var incoming := Incoming(c, keys, round, onions);
      Unwrapped(Answer(c, keys, round, d, onions, replies, i), BackwardNonce(round), sks)
        == if First(incoming, MsgKey(c), i)
           then Unwrapped(replies[Index(incoming, MsgKey(c))[i]], BackwardNonce(round), sks[1..]) else None
  {
    if First(Incoming(c, keys, round, onions), MsgKey(c), i) {
      AnswerIsSealed(c, keys, round, d, onions, replies, i);
    }
  }

  // What the owner of onion i finds: the last server's reply to its message when it was
  // tracked to the end, nothing otherwise.
  ghost predicate OpensExactly(c: Cipher, keys: seq<Key>, round: uint32, draws: seq<Draw>, onions: seq<Wire>, i: nat,
                               core: Core, reply: Wire)
    requires keys != [] && ValidDraws(draws, |keys|) && i < |onions|
  {
    var t, batch := Track(c, keys, round, draws, onions, i), LastBatch(c, keys, round, draws, onions);
    && (t.Some? ==> t.value < |batch| && batch[t.value] == core.message)
    && Unwrapped(reply, BackwardNonce(round), core.sharedKeys)
       == if t.Some? then Some(Replies(ParseAll(c, batch))[t.value]) else None
  }

  lemma {:induction false} OpensExactlyWhenKept(c: Cipher, keys: seq<Key>, round: uint32, draws: seq<Draw>,
                                                onions: seq<Wire>, i: nat)
    requires keys != [] && ValidDraws(draws, |keys|) && i < |onions|
    requires RoundReplies(c, keys, round, draws, onions).Some?
    requires Peeled(c, keys, ForwardNonce(round), SIZE_CONVO_EXCHANGE, onions[i]).Some?
    ensures OpensExactly(c, keys, round, draws, onions, i,
      Peeled(c, keys, ForwardNonce(round), SIZE_CONVO_EXCHANGE, onions[i]).value,
      RoundReplies(c, keys, round, draws, onions).value[i])
    decreases |keys|
  {
    if |keys| == 1 {
      OpensAtLast(c, keys, round, draws, onions, i);
    } else {
      var back := RoundUnfolds(c, keys, round, draws, onions);
      if First(Incoming(c, keys, round, onions), MsgKey(c), i) {
        var v, q := Onward(c, keys, round, draws[0], onions, i, back);
        OpensExactlyWhenKept(c, keys[1..], round, draws[1..], Outgoing(c, keys, round, draws[0], onions), q);
      }
      OpensThroughHop(c, keys, round, draws, onions, i, back);
    }
  }

  lemma OpensAtLast(c: Cipher, keys: seq<Key>, round: uint32, draws: seq<Draw>, onions: seq<Wire>, i: nat)
    requires |keys| == 1 && ValidDraws(draws, |keys|) && i < |onions|
    requires Peeled(c, keys, ForwardNonce(round), SIZE_CONVO_EXCHANGE, onions[i]).Some?
    ensures RoundReplies(c, keys, round, draws, onions).Some?
    ensures OpensExactly(c, keys, round, draws, onions, i,
      Peeled(c, keys, ForwardNonce(round), SIZE_CONVO_EXCHANGE, onions[i]).value,
      RoundReplies(c, keys, round, draws, onions).value[i])
  {
    var incoming := Incoming(c, keys, round, onions);
    var kept := Kept(incoming, MsgKey(c));
    var core := Peeled(c, keys, ForwardNonce(round), SIZE_CONVO_EXCHANGE, onions[i]).value;
    KeptAt(incoming, MsgKey(c), i);
    if First(incoming, MsgKey(c), i) {
      KeptSize(c, keys, round, onions);
      ReplyBodySize(c, kept, Index(incoming, MsgKey(c))[i]);
    }
    AnswerOpens(c, keys, round, draws[0], onions, Replies(ParseAll(c, kept)), i, core.sharedKeys);
  }

  lemma OpensThroughHop(c: Cipher, keys: seq<Key>, round: uint32, draws: seq<Draw>, onions: seq<Wire>, i: nat,
                        back: seq<Wire>)
    requires |keys| > 1 && ValidDraws(draws, |keys|) && i < |onions|
    requires RoundReplies(c, keys, round, draws, onions).Some?
    requires RoundReplies(c, keys[1..], round, draws[1..], Outgoing(c, keys, round, draws[0], onions)) == Some(back)
    requires Peeled(c, keys, ForwardNonce(round), SIZE_CONVO_EXCHANGE, onions[i]).Some?
    requires First(Incoming(c, keys, round, onions), MsgKey(c), i) ==>
      var out := Outgoing(c, keys, round, draws[0], onions);
      var v := Index(Incoming(c, keys, round, onions), MsgKey(c))[i];
      0 <= v < |BatchShuffler(c, keys, round, draws[0], onions)| &&
      var q := Landing(BatchShuffler(c, keys, round, draws[0], onions), v);
      q < |out| && Peeled(c, keys[1..], ForwardNonce(round), SIZE_CONVO_EXCHANGE, out[q]).Some? &&
      OpensExactly(c, keys[1..], round, draws[1..], out, q,
        Peeled(c, keys[1..], ForwardNonce(round), SIZE_CONVO_EXCHANGE, out[q]).value, back[q])
    ensures OpensExactly(c, keys, round, draws, onions, i,
      Peeled(c, keys, ForwardNonce(round), SIZE_CONVO_EXCHANGE, onions[i]).value,
      RoundReplies(c, keys, round, draws, onions).value[i])
  {
    var incoming := Incoming(c, keys, round, onions);
    var core := Peeled(c, keys, ForwardNonce(round), SIZE_CONVO_EXCHANGE, onions[i]).value;
    var back' := RoundUnfolds(c, keys, round, draws, onions);
    var replies := Unshuffled(BatchShuffler(c, keys, round, draws[0], onions), back)[..|onions|];
    if First(incoming, MsgKey(c), i) {
      var v, q := Onward(c, keys, round, draws[0], onions, i, back);
    }
    AnswerOpens(c, keys, round, draws[0], onions, replies, i, core.sharedKeys);
  }

  // --- Consequences -------------------------------------------------------------------------

  // Different onions end up in different places.
  lemma {:induction false} TracksApart(c: Cipher, keys: seq<Key>, round: uint32, draws: seq<Draw>, onions: seq<Wire>,
                                       i: nat, j: nat)
    requires keys != [] && ValidDraws(draws, |keys|) && i < |onions| && j < |onions| && i != j
    requires Track(c, keys, round, draws, onions, i).Some? && Track(c, keys, round, draws, onions, j).Some?
    ensures Track(c, keys, round, draws, onions, i) != Track(c, keys, round, draws, onions, j)
    decreases |keys|
  {
    KeptApart(Incoming(c, keys, round, onions), MsgKey(c), i, j);
    if |keys| > 1 {
      var u, p := TrackUnfolds(c, keys, round, draws, onions, i);
      var v, q := TrackUnfolds(c, keys, round, draws, onions, j);
      LandsApart(BatchShuffler(c, keys, round, draws[0], onions), u, v);
      TracksApart(c, keys[1..], round, draws[1..], Outgoing(c, keys, round, draws[0], onions), p, q);
    }
  }

  lemma KeptApart<T>(slots: seq<Option<T>>, key: T -> nat, i: nat, j: nat)
    requires i < |slots| && j < |slots| && i != j && First(slots, key, i) && First(slots, key, j)
    ensures Index(slots, key)[i] != Index(slots, key)[j]
  {
    FilterKeepsFirsts(slots, key);
  }

  lemma TrackUnfolds(c: Cipher, keys: seq<Key>, round: uint32, draws: seq<Draw>, onions: seq<Wire>, i: nat)
    returns (v: nat, q: nat)
    requires |keys| > 1 && ValidDraws(draws, |keys|) && i < |onions|
    requires First(Incoming(c, keys, round, onions), MsgKey(c), i)
    ensures ValidDraws(draws[1..], |keys[1..]|)
    ensures v == Index(Incoming(c, keys, round, onions), MsgKey(c))[i]
    ensures v < |BatchShuffler(c, keys, round, draws[0], onions)|
    ensures q == Landing(BatchShuffler(c, keys, round, draws[0], onions), v)
    ensures q < |Outgoing(c, keys, round, draws[0], onions)|
    ensures Some(Outgoing(c, keys, round, draws[0], onions)[q]) == Peel(c, keys, round)(onions[i])
    ensures Track(c, keys, round, draws, onions, i)
         == Track(c, keys[1..], round, draws[1..], Outgoing(c, keys, round, draws[0], onions), q)
  {
    v, q := Onward(c, keys, round, draws[0], onions, i, Outgoing(c, keys, round, draws[0], onions));
  }

  lemma FirstWhenDistinct(c: Cipher, keys: seq<Key>, round: uint32, onions: seq<Wire>, slots: seq<Option<Wire>>,
                          l: Layout, i: nat)
    requires keys != [] && Arranged(onions, slots, l) && i < |onions|
    requires Distinct(Mapped(Peel(c, keys, round), slots), MsgKey(c)) && Incoming(c, keys, round, onions)[i].Some?
    ensures First(Incoming(c, keys, round, onions), MsgKey(c), i)
  {
    FilterArranges(onions, slots, l, Peel(c, keys, round), MsgKey(c));
    KeptAt(Incoming(c, keys, round, onions), MsgKey(c), i);
  }

  // Nothing is dropped when no server sees equal last eight bytes twice.
  lemma {:induction false} CollisionlessTracks(c: Cipher, keys: seq<Key>, round: uint32, draws: seq<Draw>,
                                               onions: seq<Wire>,
                                               slots: seq<Option<Wire>>, l: Layout, i: nat)
    requires keys != [] && ValidDraws(draws, |keys|) && Arranged(onions, slots, l) && i < |onions|
    requires Collisionless(c, keys, round, draws, slots)
    requires Peeled(c, keys, ForwardNonce(round), SIZE_CONVO_EXCHANGE, onions[i]).Some?
    ensures Track(c, keys, round, draws, onions, i).Some?
    decreases |keys|
  {
    FirstWhenDistinct(c, keys, round, onions, slots, l, i);
    if |keys| > 1 {
      var out := Outgoing(c, keys, round, draws[0], onions);
      var v, q := TrackUnfolds(c, keys, round, draws, onions, i);
      var m, _ := Hop(c, keys, round, draws[0], onions, slots, l);
      CollisionlessTracks(c, keys[1..], round, draws[1..], out, NextSlots(c, keys, round, draws[0], slots), m, q);
    }
  }

  lemma KeptDistinct<T>(slots: seq<Option<T>>, key: T -> nat, t: nat, u: nat)
    requires t < |Kept(slots, key)| && u < |Kept(slots, key)| && t != u
    ensures key(Kept(slots, key)[t]) != key(Kept(slots, key)[u])
  {
    FilterKeepsFirsts(slots, key);
    var f := Firsts(slots, key, |slots|);
    assert First(slots, key, f[t]) && First(slots, key, f[u]);
  }

  // No two messages of the last batch have the same last eight bytes.
  lemma {:induction false} LastApart(c: Cipher, keys: seq<Key>, round: uint32, draws: seq<Draw>, onions: seq<Wire>,
                                     t: nat, u: nat)
    requires keys != [] && ValidDraws(draws, |keys|) && t != u
    requires t < |LastBatch(c, keys, round, draws, onions)| && u < |LastBatch(c, keys, round, draws, onions)|
    ensures var batch := LastBatch(c, keys, round, draws, onions);
      MsgKey(c)(batch[t]) != MsgKey(c)(batch[u])
    decreases |keys|
  {
    if |keys| == 1 {
      KeptDistinct(Incoming(c, keys, round, onions), MsgKey(c), t, u);
    } else {
      LastApart(c, keys[1..], round, draws[1..], Outgoing(c, keys, round, draws[0], onions), t, u);
    }
  }

  // Whatever else is in the batch, collisions and noise included: two onions that were not
  // dropped and are alone at their dead drop in the last batch swap their messages.
  lemma KeptPartnersSwap(c: Cipher, keys: seq<Key>, round: uint32, draws: seq<Draw>, onions: seq<Wire>, i: nat, j: nat)
    requires keys != [] && ValidDraws(draws, |keys|) && i < |onions| && j < |onions| && i != j
    requires RoundReplies(c, keys, round, draws, onions).Some?
    requires Peeled(c, keys, ForwardNonce(round), SIZE_CONVO_EXCHANGE, onions[i]).Some?
    requires Peeled(c, keys, ForwardNonce(round), SIZE_CONVO_EXCHANGE, onions[j]).Some?
    requires Track(c, keys, round, draws, onions, i).Some? && Track(c, keys, round, draws, onions, j).Some?
    requires var a := Peeled(c, keys, ForwardNonce(round), SIZE_CONVO_EXCHANGE, onions[i]).value;
      var b := Peeled(c, keys, ForwardNonce(round), SIZE_CONVO_EXCHANGE, onions[j]).value;
      Parse(c, a.message).drop == Parse(c, b.message).drop
    requires |Accesses(ParseAll(c, LastBatch(c, keys, round, draws, onions)),
               Parse(c, Peeled(c, keys, ForwardNonce(round), SIZE_CONVO_EXCHANGE, onions[i]).value.message).drop)| <= 2
    ensures var a := Peeled(c, keys, ForwardNonce(round), SIZE_CONVO_EXCHANGE, onions[i]).value;
      var b := Peeled(c, keys, ForwardNonce(round), SIZE_CONVO_EXCHANGE, onions[j]).value;
      Unwrapped(RoundReplies(c, keys, round, draws, onions).value[i], BackwardNonce(round), a.sharedKeys)
        == Some(Parse(c, b.message).body)
  {
    OpensExactlyWhenKept(c, keys, round, draws, onions, i);
    OpensExactlyWhenKept(c, keys, round, draws, onions, j);
    TracksApart(c, keys, round, draws, onions, i, j);
    var rs := ParseAll(c, LastBatch(c, keys, round, draws, onions));
    var t, u := Track(c, keys, round, draws, onions, i).value, Track(c, keys, round, draws, onions, j).value;
    TwoUsersUncrowded(rs, t);
    assert Sharing(Slots(rs), t, u);
    PartnersReply(rs, t, u);
  }

  // One that was not dropped and is alone at its drop in the last batch gets its own
  // message back; one that was dropped gets nothing it can open.
  lemma AloneGetsOwn(c: Cipher, keys: seq<Key>, round: uint32, draws: seq<Draw>, onions: seq<Wire>, i: nat, core: Core)
    requires keys != [] && ValidDraws(draws, |keys|) && i < |onions|
    requires RoundReplies(c, keys, round, draws, onions).Some?
    requires Peeled(c, keys, ForwardNonce(round), SIZE_CONVO_EXCHANGE, onions[i]) == Some(core)
    requires |Accesses(ParseAll(c, LastBatch(c, keys, round, draws, onions)), Parse(c, core.message).drop)| <= 1
    ensures Unwrapped(RoundReplies(c, keys, round, draws, onions).value[i], BackwardNonce(round), core.sharedKeys)
         == if Track(c, keys, round, draws, onions, i).Some? then Some(Parse(c, core.message).body) else None
  {
    OpensExactlyWhenKept(c, keys, round, draws, onions, i);
  }
}
