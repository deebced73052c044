/** The access counts the last server publishes: exact for the batch it sees, and
    equal to the clients' own counts plus the noise of all servers. */
module ConvoCounts {
  import opened Bytes
  import opened Boxes
  import opened Noise
  import opened Dedup
  import opened DeadDrops
  import opened Arrangements
  import opened ConvoSpec
  import opened ConvoTheorems
  import opened ConvoRefinement

  function DropOf(c: Cipher): (f: Wire -> seq<byte>) {
    (w: Wire) => Parse(c, w).drop
  }

  function Each<T, U>(f: T -> U): (g: T -> Option<U>) {
    (t: T) => Some(f(t))
  }

  // The dead drops that slots ask for.
  ghost function DropsOf(c: Cipher, slots: seq<Option<Wire>>): (m: multiset<seq<byte>>) {
    Contents(Mapped(Each(DropOf(c)), slots))
  }

  lemma {:induction false} LastBatchArranged(c: Cipher, keys: seq<Key>, round: uint32, draws: seq<Draw>,
                                             onions: seq<Wire>, slots: seq<Option<Wire>>, l: Layout) returns (m: Layout)
    requires keys != [] && ValidDraws(draws, |keys|) && Arranged(onions, slots, l)
    requires Collisionless(c, keys, round, draws, slots)
    ensures Arranged(LastBatch(c, keys, round, draws, onions), FinalSlots(c, keys, round, draws, slots), m)
    decreases |keys|
  {
    if |keys| == 1 {
      var incoming := Incoming(c, keys, round, onions);
      FilterArranges(onions, slots, l, Peel(c, keys, round), MsgKey(c));
      m := Filtered(l, Index(incoming, MsgKey(c)), Firsts(incoming, MsgKey(c), |incoming|));
    } else {
      var n, _ := Hop(c, keys, round, draws[0], onions, slots, l);
      m := LastBatchArranged(c, keys[1..], round, draws[1..], Outgoing(c, keys, round, draws[0], onions),
        NextSlots(c, keys, round, draws[0], slots), n);
    }
  }

  lemma DropsArranged(c: Cipher, batch: seq<Wire>, slots: seq<Option<Wire>>, l: Layout)
    requires Arranged(batch, slots, l)
    ensures multiset(Drops(ParseAll(c, batch))) == DropsOf(c, slots)
  {
    assert Arranged(Drops(ParseAll(c, batch)), Mapped(Each(DropOf(c)), slots), l);
    ArrangedContents(Drops(ParseAll(c, batch)), Mapped(Each(DropOf(c)), slots), l);
  }

  // --- Noise ---------------------------------------------------------------------

  function FakeDrops(fakes: seq<Fake>): (ds: seq<seq<byte>>)
    requires forall i :: 0 <= i < |fakes| ==> |fakes[i].data| == SIZE_CONVO_EXCHANGE
    ensures |ds| == |fakes|
  {
    seq(|fakes|, i requires 0 <= i < |fakes| => fakes[i].data[..SIZE_DEAD_DROP])
  }

  function PairDrops(pairs: seq<Pair>): (ds: seq<seq<byte>>)
    requires forall i :: 0 <= i < |pairs| ==>
      |pairs[i].first.data| == |pairs[i].second.data| == SIZE_CONVO_EXCHANGE
    ensures |ds| == |pairs|
  {
    seq(|pairs|, i requires 0 <= i < |pairs| => pairs[i].first.data[..SIZE_DEAD_DROP])
  }

  // The drops of all fake singles, and of all fake pairs, of a round.
  function SingleNoise(draws: seq<Draw>): (ds: seq<seq<byte>>)
    requires ValidDraws(draws, |draws|)
    ensures |ds| == TotalSingles(draws)
  {
    if |draws| <= 1 then [] else
      assert ValidDraw(draws[0], |draws| - 1);
      FakeDrops(draws[0].singles) + SingleNoise(draws[1..])
  }

  function PairNoise(draws: seq<Draw>): (ds: seq<seq<byte>>)
    requires ValidDraws(draws, |draws|)
    ensures |ds| == TotalPairs(draws)
  {
    if |draws| <= 1 then [] else
      assert ValidDraw(draws[0], |draws| - 1);
      PairDrops(draws[0].doubles) + PairNoise(draws[1..])
  }

  // The sum of numFakeSingles, and of numFakeDoubles / 2, over the mixing servers.
  function TotalSingles(draws: seq<Draw>): nat {
    if |draws| <= 1 then 0 else |draws[0].singles| + TotalSingles(draws[1..])
  }

  function TotalPairs(draws: seq<Draw>): nat {
    if |draws| <= 1 then 0 else |draws[0].doubles| + TotalPairs(draws[1..])
  }

  lemma {:induction false} CoupleDrops(pairs: seq<Pair>)
    requires forall i :: 0 <= i < |pairs| ==>
      |pairs[i].first.data| == |pairs[i].second.data| == SIZE_CONVO_EXCHANGE
    ensures forall i :: 0 <= i < |Couples(pairs)| ==> |Couples(pairs)[i].data| == SIZE_CONVO_EXCHANGE
    ensures multiset(FakeDrops(Couples(pairs))) == multiset(PairDrops(pairs)) + multiset(PairDrops(pairs))
  {
    if pairs != [] {
      var init, d := pairs[..|pairs| - 1], pairs[|pairs| - 1].first.data[..SIZE_DEAD_DROP];
      CoupleDrops(init);
      CouplesSplit(pairs);
      assert PairDrops(pairs) == PairDrops(init) + [d];
      TwoMore(FakeDrops(Couples(init)), PairDrops(init), d);
    }
  }

  ghost predicate Whole(fakes: seq<Fake>) {
    forall i :: 0 <= i < |fakes| ==> |fakes[i].data| == SIZE_CONVO_EXCHANGE
  }

  // The last pair adds its drop twice.
  lemma {:induction false} CouplesSplit(pairs: seq<Pair>)
    requires pairs != [] && forall i :: 0 <= i < |pairs| ==>
      |pairs[i].first.data| == |pairs[i].second.data| == SIZE_CONVO_EXCHANGE
    requires Whole(Couples(pairs[..|pairs| - 1]))
    ensures Whole(Couples(pairs))
    ensures var d := pairs[|pairs| - 1].first.data[..SIZE_DEAD_DROP];
      FakeDrops(Couples(pairs)) == FakeDrops(Couples(pairs[..|pairs| - 1])) + [d, d]
  {
    var p := pairs[|pairs| - 1];
    assert Paired(p.first, p.second).data[..SIZE_DEAD_DROP] == p.first.data[..SIZE_DEAD_DROP];
  }

  lemma TwoMore<D>(a: seq<D>, b: seq<D>, d: D)
    requires multiset(a) == multiset(b) + multiset(b)
    ensures multiset(a + [d, d]) == multiset(b + [d]) + multiset(b + [d])
  {
  }

  lemma FakesDropped(c: Cipher, fakes: seq<Fake>)
    requires forall i :: 0 <= i < |fakes| ==> |fakes[i].data| == SIZE_CONVO_EXCHANGE
    ensures DropsOf(c, Slots(Plains(fakes))) == multiset(FakeDrops(fakes))
  {
    assert Mapped(Each(DropOf(c)), Slots(Plains(fakes))) == Slots(FakeDrops(fakes));
    ContentsOfSlots(FakeDrops(fakes));
  }

  lemma {:induction false} NoiseDrops(c: Cipher, draws: seq<Draw>)
    requires ValidDraws(draws, |draws|)
    ensures DropsOf(c, Slots(NoisePlains(draws)))
         == multiset(SingleNoise(draws)) + multiset(PairNoise(draws)) + multiset(PairNoise(draws))
  {
    if |draws| > 1 {
      var d, rest := draws[0], draws[1..];
      assert ValidDraw(d, |draws| - 1);
      NoiseDrops(c, rest);
      OneServersDrops(c, d, |draws| - 1);
      NoisePlainsSplit(c, draws);
      NoiseSplits(draws);
      Regroup(multiset(FakeDrops(d.singles)), multiset(PairDrops(d.doubles)),
              multiset(SingleNoise(rest)), multiset(PairNoise(rest)));
    } else {
      assert Mapped(Each(DropOf(c)), Slots(NoisePlains(draws))) == [];
    }
  }

  lemma NoisePlainsSplit(c: Cipher, draws: seq<Draw>)
    requires ValidDraws(draws, |draws|) && |draws| > 1
    ensures ValidDraw(draws[0], |draws| - 1)
    ensures DropsOf(c, Slots(NoisePlains(draws)))
         == DropsOf(c, Slots(Plains(Fakes(draws[0])))) + DropsOf(c, Slots(NoisePlains(draws[1..])))
  {
    var here, later := Plains(Fakes(draws[0])), NoisePlains(draws[1..]);
    SlotsConcat(here, later);
    DropsConcat(c, Slots(here), Slots(later));
  }

  lemma NoiseSplits(draws: seq<Draw>)
    requires ValidDraws(draws, |draws|) && |draws| > 1
    ensures ValidDraw(draws[0], |draws| - 1)
    ensures multiset(SingleNoise(draws)) == multiset(FakeDrops(draws[0].singles)) + multiset(SingleNoise(draws[1..]))
    ensures multiset(PairNoise(draws)) == multiset(PairDrops(draws[0].doubles)) + multiset(PairNoise(draws[1..]))
  {
  }

  lemma Regroup<D>(a: multiset<D>, b: multiset<D>, s: multiset<D>, p: multiset<D>)
    ensures a + b + b + (s + p + p) == a + s + (b + p) + (b + p)
  {
  }

  lemma OneServersDrops(c: Cipher, d: Draw, servers: nat)
    requires ValidDraw(d, servers)
    ensures DropsOf(c, Slots(Plains(Fakes(d))))
         == multiset(FakeDrops(d.singles)) + multiset(PairDrops(d.doubles)) + multiset(PairDrops(d.doubles))
  {
    CoupleDrops(d.doubles);
    FakesDropped(c, Fakes(d));
    assert FakeDrops(Fakes(d)) == FakeDrops(d.singles) + FakeDrops(Couples(d.doubles));
  }

  lemma DropsConcat(c: Cipher, a: seq<Option<Wire>>, b: seq<Option<Wire>>)
    ensures DropsOf(c, a + b) == DropsOf(c, a) + DropsOf(c, b)
  {
    MappedConcat(Each(DropOf(c)), a, b);
    ContentsConcat(Mapped(Each(DropOf(c)), a), Mapped(Each(DropOf(c)), b));
  }

  // --- Counting ---------------------------------------------------------------------

  ghost predicate Fresh<D>(ds: seq<D>, m: multiset<D>) {
    && (forall i :: 0 <= i < |ds| ==> ds[i] !in m)
    && (forall i, j :: 0 <= i < j < |ds| ==> ds[i] != ds[j])
  }

  lemma {:induction false} SinglesAdd<D>(m: multiset<D>, ds: seq<D>)
    requires Fresh(ds, m)
    ensures |Once(m + multiset(ds))| == |Once(m)| + |ds|
    ensures Repeated(m + multiset(ds)) == Repeated(m)
  {
    if ds == [] {
      assert m + multiset(ds) == m;
    } else {
      var init, d := ds[..|ds| - 1], ds[|ds| - 1];
      SinglesAdd(m, init);
      assert ds == init + [d];
      assert d !in init;
      CountOneMore(m + multiset(init), d);
      assert m + multiset(ds) == m + multiset(init) + multiset{d};
    }
  }

  lemma {:induction false} PairsAdd<D>(m: multiset<D>, ds: seq<D>)
    requires Fresh(ds, m)
    ensures Once(m + multiset(ds) + multiset(ds)) == Once(m)
    ensures |Repeated(m + multiset(ds) + multiset(ds))| == |Repeated(m)| + |ds|
  {
    if ds == [] {
      assert m + multiset(ds) + multiset(ds) == m;
    } else {
      var init, d := ds[..|ds| - 1], ds[|ds| - 1];
      PairsAdd(m, init);
      assert ds == init + [d];
      assert d !in init;
      var n := m + multiset(init) + multiset(init);
      CountOneMore(n, d);
      CountOneMore(n + multiset{d}, d);
      assert m + multiset(ds) + multiset(ds) == n + multiset{d} + multiset{d};
    }
  }

  // The counts of the last server are the clients' counts plus the noise, exactly,
  // for any number of servers and any shuffles.
  lemma AccessCountsExact(c: Cipher, keys: seq<Key>, round: uint32, draws: seq<Draw>, onions: seq<Wire>)
    requires keys != [] && ValidDraws(draws, |keys|)
    requires Collisionless(c, keys, round, draws, Slots(onions))
    requires Fresh(SingleNoise(draws) + PairNoise(draws), DropsOf(c, Mapped(Message(c, keys, round), Slots(onions))))
    ensures var asked := DropsOf(c, Mapped(Message(c, keys, round), Slots(onions)));
      var seen := multiset(Drops(ParseAll(c, LastBatch(c, keys, round, draws, onions))));
      && |Once(seen)| == |Once(asked)| + TotalSingles(draws)
      && |Repeated(seen)| == |Repeated(asked)| + TotalPairs(draws)
  {
    var asked := DropsOf(c, Mapped(Message(c, keys, round), Slots(onions)));
    LastDrops(c, keys, round, draws, onions);
    FreshParts(SingleNoise(draws), PairNoise(draws), asked);
    SinglesAdd(asked, SingleNoise(draws));
    PairsAdd(asked + multiset(SingleNoise(draws)), PairNoise(draws));
  }

  lemma LastDrops(c: Cipher, keys: seq<Key>, round: uint32, draws: seq<Draw>, onions: seq<Wire>)
    requires keys != [] && ValidDraws(draws, |keys|)
    requires Collisionless(c, keys, round, draws, Slots(onions))
    ensures multiset(Drops(ParseAll(c, LastBatch(c, keys, round, draws, onions))))
         == DropsOf(c, Mapped(Message(c, keys, round), Slots(onions)))
            + multiset(SingleNoise(draws)) + multiset(PairNoise(draws)) + multiset(PairNoise(draws))
  {
    var clients := Mapped(Message(c, keys, round), Slots(onions));
    var l := Identity(|onions|);
    assert Arranged(onions, Slots(onions), l);
    var m := LastBatchArranged(c, keys, round, draws, onions, Slots(onions), l);
    DropsArranged(c, LastBatch(c, keys, round, draws, onions), FinalSlots(c, keys, round, draws, Slots(onions)), m);
    FinalShape(c, keys, round, draws, Slots(onions));
    DropsConcat(c, clients, Slots(NoisePlains(draws)));
    NoiseDrops(c, draws);
  }

  lemma FreshParts<D>(a: seq<D>, b: seq<D>, m: multiset<D>)
    requires Fresh(a + b, m)
    ensures Fresh(a, m) && Fresh(b, m + multiset(a))
  {
    forall i | 0 <= i < |a| ensures a[i] !in m { assert (a + b)[i] == a[i]; }
    forall i, j | 0 <= i < j < |a| ensures a[i] != a[j] { assert (a + b)[i] == a[i] && (a + b)[j] == a[j]; }
    forall j | 0 <= j < |b| ensures b[j] !in m + multiset(a) {
      assert (a + b)[|a| + j] == b[j];
      forall i | 0 <= i < |a| ensures a[i] != b[j] { assert (a + b)[i] == a[i]; }
    }
    forall i, j | 0 <= i < j < |b| ensures b[i] != b[j] {
      assert (a + b)[|a| + i] == b[i] && (a + b)[|a| + j] == b[j];
    }
  }
}
