/** The order in which servers pass messages on: that of the numbers drawn, which may be
    any order at all. */
module MixOrder {
  import opened Bytes
  import opened Boxes
  import opened Shuffling
  import opened Dedup
  import opened DeadDrops
  import opened ConvoSpec
  import opened DialSpec
  import Sampling

  // The first numbers of the source are those of s.
  ghost predicate Yields(swaps: nat -> nat, s: seq<nat>) {
    forall i :: 0 <= i < |s| ==> swaps(i) == s[i]
  }

  // A source that yields s.
  function SourceOf(s: seq<nat>): (swaps: nat -> nat) {
    (i: nat) => if i < |s| then s[i] else 0
  }

  lemma ShufflerOfSource(swaps: nat -> nat, s: seq<nat>)
    requires (forall i :: swaps(i) <= i) && Yields(swaps, s)
    ensures ShufflerOf(swaps, |s|) == s
  {
  }

  // --- Conversation rounds -----------------------------------------------------------------

  // What a server passes on before it is shuffled.
  function Unmixed(c: Cipher, keys: seq<Key>, round: uint32, d: Draw, slots: seq<Option<Wire>>): (batch: seq<Wire>)
    requires keys != [] && ValidDraw(d, |keys| - 1)
  {
    Kept(slots, MsgKey(c)) + NoiseOf(d, round, keys[1..])
  }

  // The batch is shuffled by exactly the numbers drawn.
  lemma OutgoingShuffled(c: Cipher, keys: seq<Key>, round: uint32, d: Draw, slots: seq<Option<Wire>>, s: seq<nat>)
    requires keys != [] && ValidDraw(d, |keys| - 1)
    requires |s| == |Unmixed(c, keys, round, d, slots)| && Yields(d.swaps, s)
    ensures Shuffler(s) && SlotOutgoing(c, keys, round, d, slots) == Shuffled(s, Unmixed(c, keys, round, d, slots))
  {
    ShufflerOfSource(d.swaps, s);
  }

  // Only the swaps of a draw are different.
  lemma OtherSwaps(c: Cipher, keys: seq<Key>, round: uint32, d: Draw, slots: seq<Option<Wire>>, s: seq<nat>)
    returns (d': Draw)
    requires keys != [] && ValidDraw(d, |keys| - 1) && Shuffler(s)
    ensures d' == d.(swaps := d'.swaps) && ValidDraw(d', |keys| - 1) && Yields(d'.swaps, s)
    ensures Unmixed(c, keys, round, d', slots) == Unmixed(c, keys, round, d, slots)
  {
    d' := d.(swaps := SourceOf(s));
  }

  // Every order of the kept messages and the noise comes out for some draw.
  lemma EveryOrderPossible(c: Cipher, keys: seq<Key>, round: uint32, d: Draw, slots: seq<Option<Wire>>, p: seq<nat>)
    returns (d': Draw)
    requires keys != [] && ValidDraw(d, |keys| - 1)
    requires Permutation(p) && |p| == |Unmixed(c, keys, round, d, slots)|
    ensures d' == d.(swaps := d'.swaps) && ValidDraw(d', |keys| - 1)
    ensures SlotOutgoing(c, keys, round, d', slots) == Permuted(Unmixed(c, keys, round, d, slots), p)
  {
    var s := OrderedBy(Unmixed(c, keys, round, d, slots), p);
    d' := OtherSwaps(c, keys, round, d, slots, s);
    OutgoingShuffled(c, keys, round, d', slots, s);
  }

  lemma OrderedBy<T>(batch: seq<T>, p: seq<nat>) returns (s: seq<nat>)
    requires Permutation(p) && |p| == |batch|
    ensures |s| == |batch| && Shuffler(s) && Shuffled(s, batch) == Permuted(batch, p)
  {
    ShufflersArePermutations(|p|);
    s :| Shuffler(s) && |s| == |p| && Perm(s, |p|) == p;
    ShuffleIsPermutation(s, batch, batch);
  }

  // With the numbers that NewShuffler reads off a list of words, the order is that of the
  // shuffler it returns.
  lemma WordsGiveOrder(c: Cipher, keys: seq<Key>, round: uint32, d: Draw, slots: seq<Option<Wire>>, words: seq<uint32>)
    returns (d': Draw)
    requires keys != [] && ValidDraw(d, |keys| - 1)
    requires Sampling.Drawn(words, 0, |Unmixed(c, keys, round, d, slots)|).Some?
    ensures d' == d.(swaps := d'.swaps) && ValidDraw(d', |keys| - 1)
    ensures var s := Sampling.Drawn(words, 0, |Unmixed(c, keys, round, d, slots)|).value;
      Shuffler(s) && |s| == |Unmixed(c, keys, round, d, slots)|
      && SlotOutgoing(c, keys, round, d', slots) == Shuffled(s, Unmixed(c, keys, round, d, slots))
  {
    var n := |Unmixed(c, keys, round, d, slots)|;
    Sampling.DrawnShuffler(words, n);
    d' := OtherSwaps(c, keys, round, d, slots, Sampling.Drawn(words, 0, n).value);
    OutgoingShuffled(c, keys, round, d', slots, Sampling.Drawn(words, 0, n).value);
  }

  // --- Dial rounds -------------------------------------------------------------------------

  function DialUnmixed(c: Cipher, keys: seq<Key>, round: uint32, d: DialDraw, buckets: nat,
                       msgs: seq<Wire>): (batch: seq<Wire>)
    requires keys != [] && ValidDialDraw(d, |keys| - 1, buckets)
  {
    Kept(Slots(msgs), MsgKey(c)) + DialNoise(d, round, keys[1..], buckets)
  }

  lemma DialOutShuffled(c: Cipher, keys: seq<Key>, round: uint32, d: DialDraw, buckets: nat, msgs: seq<Wire>,
                        s: seq<nat>)
    requires keys != [] && ValidDialDraw(d, |keys| - 1, buckets)
    requires |s| == |DialUnmixed(c, keys, round, d, buckets, msgs)| && Yields(d.swaps, s)
    ensures Shuffler(s)
    ensures DialOut(c, keys, round, d, buckets, msgs) == Shuffled(s, DialUnmixed(c, keys, round, d, buckets, msgs))
  {
    ShufflerOfSource(d.swaps, s);
  }

  lemma DialEveryOrderPossible(c: Cipher, keys: seq<Key>, round: uint32, d: DialDraw, buckets: nat, msgs: seq<Wire>,
                               p: seq<nat>)
    returns (d': DialDraw)
    requires keys != [] && ValidDialDraw(d, |keys| - 1, buckets)
    requires Permutation(p) && |p| == |DialUnmixed(c, keys, round, d, buckets, msgs)|
    ensures d' == d.(swaps := d'.swaps) && ValidDialDraw(d', |keys| - 1, buckets)
    ensures DialOut(c, keys, round, d', buckets, msgs) == Permuted(DialUnmixed(c, keys, round, d, buckets, msgs), p)
  {
    var batch := DialUnmixed(c, keys, round, d, buckets, msgs);
    var s := OrderedBy(batch, p);
    d' := d.(swaps := SourceOf(s));
    assert DialUnmixed(c, keys, round, d', buckets, msgs) == batch;
    DialOutShuffled(c, keys, round, d', buckets, msgs, s);
  }
}
