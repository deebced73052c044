/** What a whole dial round computes: introductions pass through every server,
    which drops malformed and repeated ones, adds fake ones and shuffles; the last
    server sorts what arrives into buckets. */
module DialSpec {
  import opened Bytes
  import opened Boxes
  import opened Onions
  import opened Noise
  import opened Shuffling
  import opened Dedup
  import opened Survival
  import opened ConvoSpec
  import opened ConvoRefinement

  // What one server draws in a dial round: how many fake introductions for each
  // bucket, their bytes, and the numbers of the shuffler.
  datatype DialDraw = DialDraw(counts: seq<nat>, fakes: seq<Fake>, swaps: nat -> nat)

  ghost predicate ValidDialDraw(d: DialDraw, servers: nat, buckets: nat) {
    && |d.counts| == buckets < 0x1_0000_0000 && |d.fakes| == Total(d.counts)
    && Drawn(d.fakes, SIZE_ENCRYPTED_INTRO, servers)
    && forall i :: d.swaps(i) <= i
  }

  ghost predicate ValidDialDraws(draws: seq<DialDraw>, servers: nat, buckets: nat) {
    && |draws| == servers
    && forall k :: 0 <= k < servers ==> ValidDialDraw(draws[k], servers - 1 - k, buckets)
  }

  function DialNoise(d: DialDraw, round: uint32, next: seq<Key>, buckets: nat): (ws: seq<Wire>)
    requires ValidDialDraw(d, |next|, buckets)
  {
    SealAll(FakeIntros(d.counts, d.fakes), ForwardNonce(round), next)
  }

  function DialPeel(c: Cipher, keys: seq<Key>, round: uint32): (f: Wire -> Option<Wire>)
    requires keys != []
  {
    (w: Wire) => SlotBody(c, keys, ForwardNonce(round), SIZE_DIAL_EXCHANGE, w)
  }

  // The messages a server holds after Close, given those it received in this order.
  function DialOut(c: Cipher, keys: seq<Key>, round: uint32, d: DialDraw, buckets: nat,
                   msgs: seq<Wire>): (out: seq<Wire>)
    requires keys != [] && ValidDialDraw(d, |keys| - 1, buckets)
  {
    var batch := Kept(Slots(msgs), MsgKey(c)) + DialNoise(d, round, keys[1..], buckets);
    Shuffled(ShufflerOf(d.swaps, |batch|), batch)
  }

  // `final` is what the last server holds after the onions in `batch` were sent to
  // the first, when the Adds brought server k the messages arrivals[k], in that order.
  ghost predicate DialRun(c: Cipher, keys: seq<Key>, round: uint32, draws: seq<DialDraw>, buckets: nat,
                          batch: seq<Wire>, arrivals: seq<seq<Wire>>, final: seq<Wire>)
    requires ValidDialDraws(draws, |keys|, buckets)
    decreases |keys|
  {
    if keys == [] then arrivals == [] && final == batch else
      && arrivals != [] && Arrives(c, keys, round, batch, arrivals[0])
      && DialRun(c, keys[1..], round, draws[1..], buckets,
                 DialOut(c, keys, round, draws[0], buckets, arrivals[0]), arrivals[1..], final)
  }

  // What happens after the first server closes a round in which it holds `msgs`.
  ghost predicate DialRunOn(c: Cipher, keys: seq<Key>, round: uint32, draws: seq<DialDraw>, buckets: nat,
                            msgs: seq<Wire>, arrivals: seq<seq<Wire>>, final: seq<Wire>)
    requires keys != [] && ValidDialDraws(draws, |keys|, buckets)
  {
    DialRun(c, keys[1..], round, draws[1..], buckets,
            DialOut(c, keys, round, draws[0], buckets, msgs), arrivals, final)
  }

  // The same as DialRun, when the first server already held some messages of the round;
  // holding none makes it a DialRun.
  ghost predicate DialRunFrom(c: Cipher, keys: seq<Key>, round: uint32, draws: seq<DialDraw>, buckets: nat,
                              held: seq<Wire>, batch: seq<Wire>, arrivals: seq<seq<Wire>>, final: seq<Wire>)
    requires keys != [] && ValidDialDraws(draws, |keys|, buckets)
  {
    && arrivals != []
    && multiset(arrivals[0]) == multiset(held) + multiset(Survivors(DialPeel(c, keys, round), batch))
    && DialRunOn(c, keys, round, draws, buckets, arrivals[0], arrivals[1..], final)
  }

  lemma HoldingNone(c: Cipher, keys: seq<Key>, round: uint32, draws: seq<DialDraw>, buckets: nat,
                    batch: seq<Wire>, arrivals: seq<seq<Wire>>, final: seq<Wire>)
    requires keys != [] && ValidDialDraws(draws, |keys|, buckets)
    ensures DialRunFrom(c, keys, round, draws, buckets, [], batch, arrivals, final)
       <==> DialRun(c, keys, round, draws, buckets, batch, arrivals, final)
  {
  }

  // The well-formed messages of a batch, in any order.
  ghost predicate Arrives(c: Cipher, keys: seq<Key>, round: uint32, batch: seq<Wire>, msgs: seq<Wire>)
    requires keys != []
  {
    multiset(msgs) == multiset(Survivors(DialPeel(c, keys, round), batch))
  }

  // --- The round without order ------------------------------------------------------

  function Onward(c: Cipher, keys: seq<Key>, round: uint32, d: DialDraw, buckets: nat,
                  batch: seq<Wire>): (next: seq<Wire>)
    requires keys != [] && ValidDialDraw(d, |keys| - 1, buckets)
  {
    Survivors(DialPeel(c, keys, round), batch) + DialNoise(d, round, keys[1..], buckets)
  }

  // No server receives two messages with the same last eight bytes.
  ghost predicate DialClear(c: Cipher, keys: seq<Key>, round: uint32, draws: seq<DialDraw>, buckets: nat,
                            batch: seq<Wire>)
    requires ValidDialDraws(draws, |keys|, buckets)
    decreases |keys|
  {
    keys != [] ==>
      && KeysDiffer(Survivors(DialPeel(c, keys, round), batch), MsgKey(c))
      && DialClear(c, keys[1..], round, draws[1..], buckets, Onward(c, keys, round, draws[0], buckets, batch))
  }

  // The exchange a dial onion carries, if every server can peel it.
  function DialMessage(c: Cipher, keys: seq<Key>, round: uint32): (f: Wire -> Option<Wire>) {
    (w: Wire) =>
      match Peeled(c, keys, ForwardNonce(round), SIZE_DIAL_EXCHANGE, w)
      case None => None
      case Some(core) => Some(core.message)
  }

  // The plaintexts of all fake introductions, those of the last server included.
  function NoiseIntros(draws: seq<DialDraw>, buckets: nat): (ws: seq<Wire>)
    requires ValidDialDraws(draws, |draws|, buckets)
  {
    if draws == [] then [] else
      assert ValidDialDraw(draws[0], |draws| - 1, buckets);
      Plains(FakeIntros(draws[0].counts, draws[0].fakes)) + NoiseIntros(draws[1..], buckets)
  }

  // What a batch amounts to at the end: its well-formed messages and all the noise.
  function DialSum(c: Cipher, keys: seq<Key>, round: uint32, draws: seq<DialDraw>, buckets: nat,
                   batch: seq<Wire>): (ws: seq<Wire>)
    requires ValidDialDraws(draws, |keys|, buckets)
  {
    Survivors(DialMessage(c, keys, round), batch) + NoiseIntros(draws, buckets)
  }

  lemma {:induction false} DialNoiseSurvives(c: Cipher, d: DialDraw, round: uint32, next: seq<Key>, buckets: nat)
    requires ValidDialDraw(d, |next|, buckets)
    ensures Survivors(DialMessage(c, next, round), DialNoise(d, round, next, buckets))
         == Plains(FakeIntros(d.counts, d.fakes))
  {
    var fakes := FakeIntros(d.counts, d.fakes);
    forall i | 0 <= i < |fakes|
      ensures DialMessage(c, next, round)(SealFake(fakes[i], ForwardNonce(round), next)) == Some(Plain(fakes[i].data))
    {
      PeelingInvertsSeal(c, next, fakes[i].ephs, ForwardNonce(round), SIZE_DIAL_EXCHANGE, Plain(fakes[i].data));
    }
    AllSurvive(DialMessage(c, next, round), DialNoise(d, round, next, buckets), Plains(fakes));
  }

  lemma {:induction false} AllSurvive<T, U>(f: T -> Option<U>, xs: seq<T>, ys: seq<U>)
    requires |xs| == |ys| && forall i :: 0 <= i < |xs| ==> f(xs[i]) == Some(ys[i])
    ensures Survivors(f, xs) == ys
  {
    if xs != [] {
      var n := |xs| - 1;
      AllSurvive(f, xs[..n], ys[..n]);
      assert ys == ys[..n] + [ys[n]];
    }
  }

  // A hop turns the sum of a batch into the sum of what is passed on.
  lemma SumAcrossHop(c: Cipher, keys: seq<Key>, round: uint32, draws: seq<DialDraw>, buckets: nat, batch: seq<Wire>)
    requires keys != [] && ValidDialDraws(draws, |keys|, buckets)
    ensures DialSum(c, keys, round, draws, buckets, batch)
         == DialSum(c, keys[1..], round, draws[1..], buckets, Onward(c, keys, round, draws[0], buckets, batch))
  {
    var rest := keys[1..];
    OnwardMessages(c, keys, round, draws[0], buckets, batch);
    NoiseIntrosSplit(draws, buckets);
    Associate(Survivors(DialMessage(c, keys, round), batch),
      Plains(FakeIntros(draws[0].counts, draws[0].fakes)), NoiseIntros(draws[1..], buckets));
  }

  lemma Associate<T>(a: seq<T>, b: seq<T>, c: seq<T>)
    ensures a + (b + c) == a + b + c
  {
  }

  lemma NoiseIntrosSplit(draws: seq<DialDraw>, buckets: nat)
    requires draws != [] && ValidDialDraws(draws, |draws|, buckets)
    ensures ValidDialDraw(draws[0], |draws| - 1, buckets)
    ensures NoiseIntros(draws, buckets)
         == Plains(FakeIntros(draws[0].counts, draws[0].fakes)) + NoiseIntros(draws[1..], buckets)
  {
  }

  lemma OnwardMessages(c: Cipher, keys: seq<Key>, round: uint32, d: DialDraw, buckets: nat, batch: seq<Wire>)
    requires keys != [] && ValidDialDraw(d, |keys| - 1, buckets)
    ensures Survivors(DialMessage(c, keys[1..], round), Onward(c, keys, round, d, buckets, batch))
         == Survivors(DialMessage(c, keys, round), batch) + Plains(FakeIntros(d.counts, d.fakes))
  {
    var rest := keys[1..];
    var peeled, noise := Survivors(DialPeel(c, keys, round), batch), DialNoise(d, round, rest, buckets);
    SurvivorsConcat(DialMessage(c, rest, round), peeled, noise);
    DialNoiseSurvives(c, d, round, rest, buckets);
    SurvivorsThen(DialPeel(c, keys, round), DialMessage(c, rest, round), batch);
    SameSurvivors(Then(DialPeel(c, keys, round), DialMessage(c, rest, round)), DialMessage(c, keys, round), batch);
  }

  lemma {:induction false} SameSurvivors<T, U>(f: T -> Option<U>, g: T -> Option<U>, xs: seq<T>)
    requires forall x :: x in xs ==> f(x) == g(x)
    ensures Survivors(f, xs) == Survivors(g, xs)
  {
    if xs != [] {
      SameSurvivors(f, g, xs[..|xs| - 1]);
      assert xs[|xs| - 1] in xs;
    }
  }

  // --- Conservation --------------------------------------------------------------------

  // What is passed on is, as a multiset, the messages received and the noise.
  lemma OutConserves(c: Cipher, keys: seq<Key>, round: uint32, d: DialDraw, buckets: nat, batch: seq<Wire>,
                     msgs: seq<Wire>)
    requires keys != [] && ValidDialDraw(d, |keys| - 1, buckets)
    requires KeysDiffer(Survivors(DialPeel(c, keys, round), batch), MsgKey(c))
    requires Arrives(c, keys, round, batch, msgs)
    ensures multiset(DialOut(c, keys, round, d, buckets, msgs)) == multiset(Onward(c, keys, round, d, buckets, batch))
  {
    NothingDropped(Survivors(DialPeel(c, keys, round), batch), msgs, MsgKey(c));
    var all := msgs + DialNoise(d, round, keys[1..], buckets);
    ShufflePreservesMultiset(ShufflerOf(d.swaps, |all|), all, |all|);
  }

  lemma {:induction false} ClearPermutes(c: Cipher, keys: seq<Key>, round: uint32, draws: seq<DialDraw>, buckets: nat,
                                         a: seq<Wire>, b: seq<Wire>)
    requires ValidDialDraws(draws, |keys|, buckets) && multiset(a) == multiset(b)
    requires DialClear(c, keys, round, draws, buckets, a)
    ensures DialClear(c, keys, round, draws, buckets, b)
    decreases |keys|
  {
    if keys != [] {
      var next, next' := Onward(c, keys, round, draws[0], buckets, a), Onward(c, keys, round, draws[0], buckets, b);
      HopPermutes(c, keys, round, draws[0], buckets, a, b);
      ClearUnfolds(c, keys, round, draws, buckets, a);
      ClearPermutes(c, keys[1..], round, draws[1..], buckets, next, next');
      ClearUnfolds(c, keys, round, draws, buckets, b);
    }
  }

  lemma ClearUnfolds(c: Cipher, keys: seq<Key>, round: uint32, draws: seq<DialDraw>, buckets: nat, batch: seq<Wire>)
    requires keys != [] && ValidDialDraws(draws, |keys|, buckets)
    ensures ValidDialDraws(draws[1..], |keys[1..]|, buckets)
    ensures DialClear(c, keys, round, draws, buckets, batch) <==>
      && KeysDiffer(Survivors(DialPeel(c, keys, round), batch), MsgKey(c))
      && DialClear(c, keys[1..], round, draws[1..], buckets, Onward(c, keys, round, draws[0], buckets, batch))
  {
  }

  // What a server receives and passes on depends on the batch as a multiset only.
  lemma HopPermutes(c: Cipher, keys: seq<Key>, round: uint32, d: DialDraw, buckets: nat, a: seq<Wire>, b: seq<Wire>)
    requires keys != [] && ValidDialDraw(d, |keys| - 1, buckets) && multiset(a) == multiset(b)
    ensures multiset(Onward(c, keys, round, d, buckets, a)) == multiset(Onward(c, keys, round, d, buckets, b))
    ensures KeysDiffer(Survivors(DialPeel(c, keys, round), a), MsgKey(c))
        ==> KeysDiffer(Survivors(DialPeel(c, keys, round), b), MsgKey(c))
  {
    var x, y := Survivors(DialPeel(c, keys, round), a), Survivors(DialPeel(c, keys, round), b);
    SurvivorsPermute(DialPeel(c, keys, round), a, b);
    SurvivorsPermute(Keyed(MsgKey(c)), x, y);
    SameWith(x, y, DialNoise(d, round, keys[1..], buckets));
  }

  lemma SameWith<T>(a: seq<T>, b: seq<T>, c: seq<T>)
    requires multiset(a) == multiset(b)
    ensures multiset(a + c) == multiset(b + c)
  {
  }

  lemma SumPermutes(c: Cipher, keys: seq<Key>, round: uint32, draws: seq<DialDraw>, buckets: nat, a: seq<Wire>,
                    b: seq<Wire>)
    requires ValidDialDraws(draws, |keys|, buckets) && multiset(a) == multiset(b)
    ensures multiset(DialSum(c, keys, round, draws, buckets, a)) == multiset(DialSum(c, keys, round, draws, buckets, b))
  {
    SurvivorsPermute(DialMessage(c, keys, round), a, b);
  }

  // Whatever the order of the Adds and the shuffles, the last server ends up with
  // exactly the well-formed introductions and all the noise.
  lemma {:induction false} DialConserves(c: Cipher, keys: seq<Key>, round: uint32, draws: seq<DialDraw>, buckets: nat,
                                         batch: seq<Wire>, arrivals: seq<seq<Wire>>, final: seq<Wire>)
    requires ValidDialDraws(draws, |keys|, buckets) && DialClear(c, keys, round, draws, buckets, batch)
    requires DialRun(c, keys, round, draws, buckets, batch, arrivals, final)
    ensures multiset(final) == multiset(DialSum(c, keys, round, draws, buckets, batch))
    decreases |keys|
  {
    if keys == [] {
      NoServersLeft(c, round, draws, buckets, batch);
    } else {
      var out := HopConserves(c, keys, round, draws, buckets, batch, arrivals, final);
      DialConserves(c, keys[1..], round, draws[1..], buckets, out, arrivals[1..], final);
    }
  }

  lemma NoServersLeft(c: Cipher, round: uint32, draws: seq<DialDraw>, buckets: nat, batch: seq<Wire>)
    requires ValidDialDraws(draws, 0, buckets)
    ensures DialSum(c, [], round, draws, buckets, batch) == batch
  {
    AllSurvive(DialMessage(c, [], round), batch, batch);
  }

  lemma HopConserves(c: Cipher, keys: seq<Key>, round: uint32, draws: seq<DialDraw>, buckets: nat,
                     batch: seq<Wire>, arrivals: seq<seq<Wire>>, final: seq<Wire>) returns (out: seq<Wire>)
    requires keys != [] && ValidDialDraws(draws, |keys|, buckets) && DialClear(c, keys, round, draws, buckets, batch)
    requires DialRun(c, keys, round, draws, buckets, batch, arrivals, final)
    ensures arrivals != [] && ValidDialDraws(draws[1..], |keys[1..]|, buckets)
    ensures DialRun(c, keys[1..], round, draws[1..], buckets, out, arrivals[1..], final)
    ensures DialClear(c, keys[1..], round, draws[1..], buckets, out)
    ensures multiset(DialSum(c, keys[1..], round, draws[1..], buckets, out))
         == multiset(DialSum(c, keys, round, draws, buckets, batch))
  {
    out := DialOut(c, keys, round, draws[0], buckets, arrivals[0]);
    var onward := Onward(c, keys, round, draws[0], buckets, batch);
    OutConserves(c, keys, round, draws[0], buckets, batch, arrivals[0]);
    ClearPermutes(c, keys[1..], round, draws[1..], buckets, onward, out);
    SumPermutes(c, keys[1..], round, draws[1..], buckets, onward, out);
    SumAcrossHop(c, keys, round, draws, buckets, batch);
  }

  // --- Without any assumption on the messages ----------------------------------------------

  lemma OutWithin(c: Cipher, keys: seq<Key>, round: uint32, d: DialDraw, buckets: nat, batch: seq<Wire>,
                  msgs: seq<Wire>)
    requires keys != [] && ValidDialDraw(d, |keys| - 1, buckets) && Arrives(c, keys, round, batch, msgs)
    ensures multiset(DialOut(c, keys, round, d, buckets, msgs)) <= multiset(Onward(c, keys, round, d, buckets, batch))
  {
    KeptWithin(msgs, MsgKey(c));
    var all := Kept(Slots(msgs), MsgKey(c)) + DialNoise(d, round, keys[1..], buckets);
    ShufflePreservesMultiset(ShufflerOf(d.swaps, |all|), all, |all|);
  }

  lemma SumWithin(c: Cipher, keys: seq<Key>, round: uint32, draws: seq<DialDraw>, buckets: nat, a: seq<Wire>,
                  b: seq<Wire>)
    requires ValidDialDraws(draws, |keys|, buckets) && multiset(a) <= multiset(b)
    ensures multiset(DialSum(c, keys, round, draws, buckets, a)) <= multiset(DialSum(c, keys, round, draws, buckets, b))
  {
    SurvivorsWithin(DialMessage(c, keys, round), a, b);
  }

  // Whatever collides, the last server holds nothing but well-formed introductions and
  // noise, and none of them more often than it was sent.
  lemma {:induction false} DialInventsNothing(c: Cipher, keys: seq<Key>, round: uint32, draws: seq<DialDraw>,
                                              buckets: nat,
                                              batch: seq<Wire>, arrivals: seq<seq<Wire>>, final: seq<Wire>)
    requires ValidDialDraws(draws, |keys|, buckets)
    requires DialRun(c, keys, round, draws, buckets, batch, arrivals, final)
    ensures multiset(final) <= multiset(DialSum(c, keys, round, draws, buckets, batch))
    decreases |keys|
  {
    if keys == [] {
      NoServersLeft(c, round, draws, buckets, batch);
    } else {
      var out := HopWithin(c, keys, round, draws, buckets, batch, arrivals, final);
      DialInventsNothing(c, keys[1..], round, draws[1..], buckets, out, arrivals[1..], final);
    }
  }

  lemma HopWithin(c: Cipher, keys: seq<Key>, round: uint32, draws: seq<DialDraw>, buckets: nat,
                  batch: seq<Wire>, arrivals: seq<seq<Wire>>, final: seq<Wire>) returns (out: seq<Wire>)
    requires keys != [] && ValidDialDraws(draws, |keys|, buckets)
    requires DialRun(c, keys, round, draws, buckets, batch, arrivals, final)
    ensures arrivals != [] && ValidDialDraws(draws[1..], |keys[1..]|, buckets)
    ensures DialRun(c, keys[1..], round, draws[1..], buckets, out, arrivals[1..], final)
    ensures multiset(DialSum(c, keys[1..], round, draws[1..], buckets, out))
         <= multiset(DialSum(c, keys, round, draws, buckets, batch))
  {
    out := DialOut(c, keys, round, draws[0], buckets, arrivals[0]);
    OutWithin(c, keys, round, draws[0], buckets, batch, arrivals[0]);
    SumWithin(c, keys[1..], round, draws[1..], buckets, out, Onward(c, keys, round, draws[0], buckets, batch));
    SumAcrossHop(c, keys, round, draws, buckets, batch);
  }

  // Every message with the key of m is m.
  ghost predicate OnlyWithItsKey(c: Cipher, msgs: seq<Wire>, m: Wire) {
    forall x :: x in msgs && MsgKey(c)(x) == MsgKey(c)(m) ==> x == m
  }

  // Every server can peel the onion, and receives no other message with the same last
  // eight bytes as this one.
  ghost predicate Unmistaken(c: Cipher, keys: seq<Key>, round: uint32, arrivals: seq<seq<Wire>>, w: Wire)
    decreases |keys|
  {
    keys != [] ==>
      var m := DialPeel(c, keys, round)(w);
      && m.Some? && arrivals != []
      && OnlyWithItsKey(c, arrivals[0], m.value)
      && Unmistaken(c, keys[1..], round, arrivals[1..], m.value)
  }

  // Whatever else collides, such a message reaches the last server.
  lemma {:induction false} UnmistakenArrives(c: Cipher, keys: seq<Key>, round: uint32, draws: seq<DialDraw>,
                                             buckets: nat, batch: seq<Wire>, arrivals: seq<seq<Wire>>,
                                             final: seq<Wire>, w: Wire)
    requires ValidDialDraws(draws, |keys|, buckets) && DialRun(c, keys, round, draws, buckets, batch, arrivals, final)
    requires w in batch && Unmistaken(c, keys, round, arrivals, w)
    ensures DialMessage(c, keys, round)(w).Some? && DialMessage(c, keys, round)(w).value in final
    decreases |keys|
  {
    if keys != [] {
      var m, out := OneServerOn(c, keys, round, draws, buckets, batch, arrivals, final, w);
      UnmistakenArrives(c, keys[1..], round, draws[1..], buckets, out, arrivals[1..], final, m);
    }
  }

  lemma OneServerOn(c: Cipher, keys: seq<Key>, round: uint32, draws: seq<DialDraw>, buckets: nat, batch: seq<Wire>,
                    arrivals: seq<seq<Wire>>, final: seq<Wire>, w: Wire) returns (m: Wire, out: seq<Wire>)
    requires ValidDialDraws(draws, |keys|, buckets) && DialRun(c, keys, round, draws, buckets, batch, arrivals, final)
    requires keys != [] && w in batch && Unmistaken(c, keys, round, arrivals, w)
    ensures arrivals != [] && ValidDialDraws(draws[1..], |keys| - 1, buckets) && m in out
    ensures DialRun(c, keys[1..], round, draws[1..], buckets, out, arrivals[1..], final)
    ensures Unmistaken(c, keys[1..], round, arrivals[1..], m)
    ensures DialMessage(c, keys, round)(w) == DialMessage(c, keys[1..], round)(m)
  {
    m := DialPeel(c, keys, round)(w).value;
    out := DialOut(c, keys, round, draws[0], buckets, arrivals[0]);
    OneLayerLess(c, keys, round, w);
    PassesOn(c, keys, round, draws[0], buckets, batch, arrivals[0], w);
  }

  lemma OneLayerLess(c: Cipher, keys: seq<Key>, round: uint32, w: Wire)
    requires keys != [] && DialPeel(c, keys, round)(w).Some?
    ensures DialMessage(c, keys, round)(w) == DialMessage(c, keys[1..], round)(DialPeel(c, keys, round)(w).value)
  {
  }

  lemma PassesOn(c: Cipher, keys: seq<Key>, round: uint32, d: DialDraw, buckets: nat, batch: seq<Wire>, msgs: seq<Wire>,
                 w: Wire)
    requires keys != [] && ValidDialDraw(d, |keys| - 1, buckets) && Arrives(c, keys, round, batch, msgs)
    requires w in batch && DialPeel(c, keys, round)(w).Some?
    requires OnlyWithItsKey(c, msgs, DialPeel(c, keys, round)(w).value)
    ensures DialPeel(c, keys, round)(w).value in DialOut(c, keys, round, d, buckets, msgs)
  {
    var m := DialPeel(c, keys, round)(w).value;
    SurvivorIn(DialPeel(c, keys, round), batch, w);
    assert m in multiset(msgs);
    KeptHolds(msgs, MsgKey(c), m);
    var all := Kept(Slots(msgs), MsgKey(c)) + DialNoise(d, round, keys[1..], buckets);
    ShufflePreservesMultiset(ShufflerOf(d.swaps, |all|), all, |all|);
    assert m in multiset(all);
  }
}
