/** The dial service of one server (dial.go) and the client side that drives the
    next server: the introductions only travel forward, and rounds are kept. */
module DialServer {
  import opened Bytes
  import opened Boxes
  import opened Noise
  import opened Shuffling
  import opened Dedup
  import opened Survival
  import opened Spanning
  import opened ConvoSpec
  import opened DialSpec
  import opened DialTheorems
  import Pki
  import ConvoServer

  type Outcome = ConvoServer.Outcome

  datatype Status = RoundOpen | RoundClosed
  datatype DialRound = DialRound(status: Status, incoming: seq<Wire>, noise: seq<Wire>)

  class DialService {
    const cipher: Cipher
    const pki: Pki.PKI
    const name: string
    const privateKey: Key
    const buckets: nat
    const next: DialService?

    var rounds: map<uint32, DialRound>

    // The keys of this server and of those after it; this service and all services
    // after it; the last of them.
    ghost const keys: seq<Key>
    ghost const chain: set<DialService>
    ghost const last: DialService

    ghost predicate Placed() {
      && Pki.Valid(pki) && name in pki.order && privateKey == pki.servers[name]
      && keys == Pki.KeysFrom(pki, name)
    }

    ghost predicate Deployed()
      decreases chain
    {
      && Placed() && keys != [] && this in chain && last in chain && 0 < buckets < 0x1_0000_0000
      && (next == null ==> |keys| == 1 && chain == {this} && last == this)
      && (next != null ==>
            && |keys| > 1 && next.keys == keys[1..] && next.cipher == cipher && next.buckets == buckets
            && chain == {this} + next.chain && this !in next.chain && last == next.last && last in next.chain
            && next.Deployed())
    }

    constructor Last(cipher: Cipher, pki: Pki.PKI, name: string, buckets: nat)
      requires Pki.Valid(pki) && name == pki.order[|pki.order| - 1] && 0 < buckets < 0x1_0000_0000
      ensures Deployed() && rounds == map[] && next == null
    {
      this.cipher, this.pki, this.name, this.privateKey := cipher, pki, name, pki.servers[name];
      this.buckets, next, rounds := buckets, null, map[];
      chain, last, keys := {this}, this, Pki.KeysFrom(pki, name);
      Pki.IndexOfServer(pki.order, |pki.order| - 1);
    }

    constructor Mixing(name: string, next: DialService)
      requires next.Deployed() && name in next.pki.order
      requires Pki.IndexOf(next.pki.order, name) + 1 < |next.pki.order|
      requires next.name == next.pki.order[Pki.IndexOf(next.pki.order, name) + 1]
      ensures Deployed() && rounds == map[] && this.next == next && this.name == name
    {
      this.cipher, this.pki, this.name := next.cipher, next.pki, name;
      this.privateKey, this.buckets := next.pki.servers[name], next.buckets;
      this.next, rounds := next, map[];
      chain, last, keys := {this} + next.chain, next.last, Pki.KeysFrom(next.pki, name);
      Pki.IndexOfServer(next.pki.order, Pki.IndexOf(next.pki.order, name) + 1);
    }

    predicate InStatus(round: uint32, status: Status)
      reads this
    {
      round in rounds && rounds[round].status == status
    }

    function StatusError(round: uint32): (e: ConvoServer.RpcError)
      reads this
      ensures e == ConvoServer.WrongStatus <==> round in rounds
      ensures e == ConvoServer.NotFound <==> round !in rounds
    {
      if round in rounds then ConvoServer.WrongStatus else ConvoServer.NotFound
    }

    method NewRound(round: uint32, d: DialDraw) returns (r: Outcome)
      requires Deployed() && ValidDialDraw(d, |keys| - 1, buckets)
      modifies `rounds
      ensures r == if round in old(rounds) then ConvoServer.Failed(ConvoServer.AlreadyExists) else ConvoServer.Ok
      ensures rounds == if round in old(rounds) then old(rounds)
        else old(rounds)[round := DialRound(RoundOpen, [], DialNoise(d, round, keys[1..], buckets))]
      ensures forall q: uint32 :: old(NestedAt(q)) ==> NestedAt(q)
      ensures old(NestedAt(round)) && r.Ok? ==> FreshBelow(round)
    {
      if round in rounds { return ConvoServer.Failed(ConvoServer.AlreadyExists); }
      if NestedAt(round) { NestedFresh(round); }
      var noise := MakeNoise(round, d);
      rounds := rounds[round := DialRound(RoundOpen, [], noise)];
      r := ConvoServer.Ok;
    }

    // The noise a server, also the last one, prepares for a round.
    method MakeNoise(round: uint32, d: DialDraw) returns (noise: seq<Wire>)
      requires Deployed() && ValidDialDraw(d, |keys| - 1, buckets)
      ensures noise == DialNoise(d, round, keys[1..], buckets)
    {
      var noiseTotal := 0;
      for b := 0 to |d.counts|
        invariant noiseTotal == Total(d.counts[..b])
      {
        assert d.counts[..b + 1][..b] == d.counts[..b];
        noiseTotal := noiseTotal + d.counts[b];
      }
      assert d.counts[..|d.counts|] == d.counts;
      var dest := new Wire[noiseTotal](_ => Plain([]));
      var nextKeys := Pki.NextServerKeys(pki, name);
      FillWithFakeIntroductions(dest, d.counts, ForwardNonce(round), nextKeys, d.fakes);
      noise := dest[..];
    }

    method Add(round: uint32, onions: seq<Wire>) returns (r: Outcome)
      requires Deployed()
      modifies `rounds
      ensures r == if old(InStatus(round, RoundOpen)) then ConvoServer.Ok
        else ConvoServer.Failed(old(StatusError(round)))
      ensures rounds == if !r.Ok? then old(rounds) else old(rounds)[round := old(rounds)[round].(
        incoming := old(rounds)[round].incoming + Survivors(DialPeel(cipher, keys, round), onions))]
    {
      if !InStatus(round, RoundOpen) { return ConvoServer.Failed(StatusError(round)); }
      Pki.OwnKey(pki, name);
      var messages: seq<Wire> := [];
      var expectedOnionSize := Pki.IncomingOnionOverhead(pki, name) + SIZE_DIAL_EXCHANGE;
      for i := 0 to |onions|
        invariant messages == Survivors(DialPeel(cipher, keys, round), onions[..i]) && rounds == old(rounds)
      {
        var onion := onions[i];
        assert onions[..i + 1][..i] == onions[..i];
        if Len(onion) == expectedOnionSize {
          var theirPublic := Render(cipher, onion)[..32];
          var message := OpenBox(Shared({theirPublic, privateKey}), ForwardNonce(round), Suffix(cipher, onion, 32));
          if message.Some? { messages := messages + [message.value]; }
        }
      }
      assert onions[..|onions|] == onions;
      rounds := rounds[round := rounds[round].(incoming := rounds[round].incoming + messages)];
      r := ConvoServer.Ok;
    }

    method FilterIncoming(round: uint32)
      requires round in rounds
      modifies `rounds
      ensures rounds == old(rounds)[round := old(rounds)[round].(
        incoming := Kept(Slots(old(rounds)[round].incoming), MsgKey(cipher)))]
      ensures rounds - {round} == old(rounds) - {round} && rounds.Keys == old(rounds).Keys
    {
      var valid, _ := Filter(Slots(rounds[round].incoming), MsgKey(cipher));
      SetIncoming(round, valid);
    }

    // No server after this one knows the round.
    ghost predicate FreshBelow(round: uint32)
      reads chain
    {
      forall s :: s in chain && s != this ==> round !in s.rounds
    }

    lemma FreshSplits(round: uint32)
      requires Deployed() && next != null
      ensures FreshBelow(round) <==> round !in next.rounds && next.FreshBelow(round)
    {
    }

    // A server that knows the round comes after servers that all know it.
    ghost predicate NestedAt(round: uint32)
      requires Deployed()
      reads chain
      decreases chain
    {
      next != null ==>
        assert next.Deployed() && next in chain;
        (round in next.rounds ==> round in rounds) && next.NestedAt(round)
    }

    // So a first server that does not know a round vouches for the whole chain.
    lemma {:induction false} NestedFresh(round: uint32)
      requires Deployed() && NestedAt(round) && round !in rounds
      ensures FreshBelow(round)
      decreases chain
    {
      if next != null { next.NestedFresh(round); }
    }

    // Filters, adds the noise and shuffles: what the server passes on or, being the
    // last, keeps.
    // The round is over: no noise is left, and messages only on the last server.
    ghost predicate Released(round: uint32)
      reads this
    {
      && InStatus(round, RoundClosed) && rounds[round].noise == []
      && (next != null ==> rounds[round].incoming == [])
    }

    method Shuffle(round: uint32, d: DialDraw) returns (out: seq<Wire>)
      requires Deployed() && ValidDialDraw(d, |keys| - 1, buckets) && round in rounds
      requires rounds[round].noise == DialNoise(d, round, keys[1..], buckets)
      modifies `rounds
      ensures out == DialOut(cipher, keys, round, d, buckets, old(rounds)[round].incoming)
      ensures rounds == old(rounds)[round := old(rounds)[round].(incoming := out)]
      ensures rounds - {round} == old(rounds) - {round} && rounds.Keys == old(rounds).Keys
    {
      FilterIncoming(round);
      var batch := rounds[round].incoming + rounds[round].noise;
      out := ConvoServer.ShuffleBatch(ShufflerOf(d.swaps, |batch|), batch);
      SetIncoming(round, out);
    }

    method SetIncoming(round: uint32, incoming: seq<Wire>)
      requires round in rounds
      modifies `rounds
      ensures rounds == old(rounds)[round := old(rounds)[round].(incoming := incoming)]
      ensures rounds - {round} == old(rounds) - {round} && rounds.Keys == old(rounds).Keys
    {
      rounds := rounds[round := rounds[round].(incoming := incoming)];
    }

    // Succeeds exactly when the round is open here and unknown to all later servers.
    // The messages received here then reach the last server as the dial round prescribes.
    method Close(round: uint32, draws: seq<DialDraw>) returns (r: Outcome, ghost arrivals: seq<seq<Wire>>)
      requires Deployed() && ValidDialDraws(draws, |keys|, buckets)
      requires InStatus(round, RoundOpen) ==>
        rounds[round].noise == DialNoise(draws[0], round, keys[1..], buckets)
      modifies chain
      ensures r.Ok? <==> old(InStatus(round, RoundOpen)) && old(FreshBelow(round))
      ensures !old(InStatus(round, RoundOpen)) ==> forall s :: s in chain ==> s.rounds == old(s.rounds)
      ensures r.Ok? ==> forall s :: s in chain ==> s.Released(round)
      ensures forall q: uint32 :: old(NestedAt(q)) ==> NestedAt(q)
      ensures forall s :: s in chain ==> s.rounds - {round} == old(s.rounds) - {round}
      ensures old(InStatus(round, RoundOpen)) && !r.Ok? ==> rounds == old(rounds)[round := old(rounds)[round].(
        incoming := DialOut(cipher, keys, round, draws[0], buckets, old(rounds)[round].incoming))]
      ensures r.Ok? ==> round in last.rounds && DialRunOn(cipher, keys, round, draws, buckets,
        old(rounds)[round].incoming, arrivals, last.rounds[round].incoming)
      decreases chain, 1
    {
      arrivals := [];
      if !InStatus(round, RoundOpen) { return ConvoServer.Failed(StatusError(round)), []; }
      r, arrivals := CloseOpen(round, draws);
      if next != null {
        ConvoServer.KeysWithin(next.rounds, old(next.rounds), round);
        forall q: uint32 | old(NestedAt(q)) ensures NestedAt(q) {
          assert q in next.rounds ==> q in rounds;
        }
      }
    }

    // Close of a round that is open.
    method CloseOpen(round: uint32, draws: seq<DialDraw>) returns (r: Outcome, ghost arrivals: seq<seq<Wire>>)
      requires Deployed() && ValidDialDraws(draws, |keys|, buckets) && InStatus(round, RoundOpen)
      requires rounds[round].noise == DialNoise(draws[0], round, keys[1..], buckets)
      modifies chain
      ensures r.Ok? <==> old(FreshBelow(round))
      ensures r.Ok? ==> forall s :: s in chain ==> s.Released(round)
      ensures next != null ==> forall q: uint32 :: old(next.NestedAt(q)) ==> next.NestedAt(q)
      ensures forall s :: s in chain ==> s.rounds - {round} == old(s.rounds) - {round}
      ensures rounds.Keys == old(rounds).Keys
      ensures !r.Ok? ==> rounds == old(rounds)[round := old(rounds)[round].(
        incoming := DialOut(cipher, keys, round, draws[0], buckets, old(rounds)[round].incoming))]
      ensures r.Ok? ==> round in last.rounds && DialRunOn(cipher, keys, round, draws, buckets,
        old(rounds)[round].incoming, arrivals, last.rounds[round].incoming)
      decreases chain, 0
    {
      arrivals := [];
      var out := Shuffle(round, draws[0]);
      if next != null {
        r, arrivals := PassOn(round, draws[1..], out);
      } else {
        Finish(round, out);
        r := ConvoServer.Ok;
      }
    }

    // A mixing server keeps its messages until the next one has taken them.
    method PassOn(round: uint32, draws: seq<DialDraw>, out: seq<Wire>)
      returns (r: Outcome, ghost arrivals: seq<seq<Wire>>)
      requires Deployed() && next != null && ValidDialDraws(draws, |next.keys|, buckets) && round in rounds
      modifies chain
      ensures r.Ok? <==> old(FreshBelow(round))
      ensures r.Ok? ==> forall s :: s in chain ==> s.Released(round)
      ensures forall q: uint32 :: old(next.NestedAt(q)) ==> next.NestedAt(q)
      ensures forall s :: s in chain ==> s.rounds - {round} == old(s.rounds) - {round}
      ensures rounds.Keys == old(rounds).Keys && (!r.Ok? ==> rounds == old(rounds))
      ensures r.Ok? ==>
        && round in last.rounds
        && DialRun(cipher, next.keys, round, draws, buckets, out, arrivals, last.rounds[round].incoming)
      decreases next.chain, 4
    {
      r, arrivals := Forward(round, draws, out);
      if !r.Ok? { return ConvoServer.Failed(ConvoServer.Downstream), []; }
      Finish(round, []);
    }

    method Finish(round: uint32, incoming: seq<Wire>)
      modifies `rounds
      ensures InStatus(round, RoundClosed) && rounds[round].incoming == incoming && rounds[round].noise == []
      ensures rounds - {round} == old(rounds) - {round} && rounds.Keys == old(rounds).Keys + {round}
    {
      rounds := rounds[round := DialRound(RoundClosed, incoming, [])];
    }

    // Starts the round on the next server and runs it there.
    method Forward(round: uint32, draws: seq<DialDraw>, out: seq<Wire>)
      returns (r: Outcome, ghost arrivals: seq<seq<Wire>>)
      requires Deployed() && next != null && ValidDialDraws(draws, |next.keys|, buckets)
      modifies next.chain
      ensures r.Ok? <==> old(FreshBelow(round))
      ensures r.Ok? ==> forall s :: s in next.chain ==> s.Released(round)
      ensures forall q: uint32 :: old(next.NestedAt(q)) ==> next.NestedAt(q)
      ensures forall s :: s in next.chain ==> s.rounds - {round} == old(s.rounds) - {round}
      ensures r.Ok? ==>
        && round in last.rounds
        && DialRun(cipher, next.keys, round, draws, buckets, out, arrivals, last.rounds[round].incoming)
      decreases next.chain, 3
    {
      FreshSplits(round);
      arrivals := [];
      r := next.NewRound(round, draws[0]);
      if !r.Ok? { return; }
      assert next.rounds - {round} == old(next.rounds) - {round};
      r, arrivals := RunDialRound(next, round, out, draws);
      if r.Ok? {
        HoldingNone(cipher, next.keys, round, draws, buckets, out, arrivals, last.rounds[round].incoming);
      }
    }

    method Buckets(round: uint32) returns (r: Outcome, result: seq<seq<Wire>>)
      ensures r.Ok? <==> next == null && InStatus(round, RoundClosed)
      ensures r.Ok? ==> |result| == buckets && forall b :: 0 <= b < buckets ==>
        result[b] == Survivors(ToBucket(cipher, b), rounds[round].incoming)
    {
      result := [];
      if next != null { return ConvoServer.Failed(ConvoServer.Downstream), []; }
      if !InStatus(round, RoundClosed) { return ConvoServer.Failed(StatusError(round)), []; }
      result := SortIntoBuckets(cipher, rounds[round].incoming, buckets);
      r := ConvoServer.Ok;
    }
  }

  // Sends a batch to a server that has started the round, in span-sized Adds in any
  // order, and closes the round there.
  method RunDialRound(client: DialService, round: uint32, onions: seq<Wire>, draws: seq<DialDraw>)
    returns (r: Outcome, ghost arrivals: seq<seq<Wire>>)
    requires client.Deployed() && ValidDialDraws(draws, |client.keys|, client.buckets)
    requires client.InStatus(round, RoundOpen) ==>
      client.rounds[round].noise == DialNoise(draws[0], round, client.keys[1..], client.buckets)
    modifies client.chain
    ensures r.Ok? <==> old(client.InStatus(round, RoundOpen)) && old(client.FreshBelow(round))
    ensures r.Ok? ==> forall s :: s in client.chain ==> s.Released(round)
    ensures forall q: uint32 :: old(client.NestedAt(q)) ==> client.NestedAt(q)
    ensures forall s :: s in client.chain ==> s.rounds - {round} == old(s.rounds) - {round}
    ensures r.Ok? ==>
      && round in client.last.rounds
      && DialRunFrom(client.cipher, client.keys, round, draws, client.buckets, old(client.rounds)[round].incoming,
                     onions, arrivals, client.last.rounds[round].incoming)
    ensures old(client.InStatus(round, RoundOpen)) && !r.Ok? ==>
      && |arrivals| == 1
      && multiset(arrivals[0]) == multiset(old(client.rounds)[round].incoming)
           + multiset(Survivors(DialPeel(client.cipher, client.keys, round), onions))
      && round in client.rounds && client.rounds[round] == old(client.rounds)[round].(
           incoming := DialOut(client.cipher, client.keys, round, draws[0], client.buckets, arrivals[0]))
    decreases client.chain, 2
  {
    arrivals := [];
    if !client.InStatus(round, RoundOpen) {
      // The first Add is refused, or Close when there is nothing to add.
      return ConvoServer.Failed(client.StatusError(round)), [];
    }
    AddAll(client, round, onions);
    ghost var msgs := client.rounds[round].incoming;
    assert client.rounds - {round} == old(client.rounds) - {round};
    r, arrivals := client.Close(round, draws);
    if !r.Ok? { return r, [msgs]; }
    assert ([msgs] + arrivals)[1..] == arrivals;
    arrivals := [msgs] + arrivals;
  }

  method AddAll(client: DialService, round: uint32, onions: seq<Wire>)
    requires client.Deployed() && client.InStatus(round, RoundOpen)
    modifies client`rounds
    ensures round in client.rounds && client.rounds ==
      old(client.rounds)[round := old(client.rounds)[round].(incoming := client.rounds[round].incoming)]
    ensures multiset(client.rounds[round].incoming) == multiset(old(client.rounds)[round].incoming)
      + multiset(Survivors(DialPeel(client.cipher, client.keys, round), onions))
  {
    var spans := Spans(|onions|, ConvoServer.SPAN_SIZE);
    var pending := Range(|spans|);
    ghost var f, start, got := DialPeel(client.cipher, client.keys, round), client.rounds[round], [];
    assert start.incoming + got == start.incoming;
    NothingAdded(f, onions, spans);
    while pending != {}
      invariant client.rounds == old(client.rounds)[round := start.(incoming := start.incoming + got)]
      invariant PartlyAdded(got, f, onions, spans, pending)
      decreases pending
    {
      var k :| k in pending;
      got := AddSpan(client, round, onions, spans, k, f, start.incoming, got, pending);
      pending := pending - {k};
    }
    EverythingAdded(got, f, onions, spans);
  }

  // One of the calls.
  method AddSpan(client: DialService, round: uint32, onions: seq<Wire>, spans: seq<Span>, k: nat,
                 ghost f: Wire -> Option<Wire>, ghost held: seq<Wire>, ghost got: seq<Wire>, ghost pending: set<nat>)
    returns (ghost now: seq<Wire>)
    requires client.Deployed() && client.InStatus(round, RoundOpen) && client.rounds[round].incoming == held + got
    requires f == DialPeel(client.cipher, client.keys, round)
    requires k in pending && PartlyAdded(got, f, onions, spans, pending)
    modifies client`rounds
    ensures client.rounds == old(client.rounds)[round := old(client.rounds)[round].(incoming := held + now)]
    ensures PartlyAdded(now, f, onions, spans, pending - {k})
  {
    var from, to := spans[k].start, spans[k].start + spans[k].count;
    now := SpanAdded(f, onions, spans, k, held, got, pending);
    var added := client.Add(round, onions[from..to]);
  }

  lemma SpanAdded<U>(f: Wire -> Option<U>, onions: seq<Wire>, spans: seq<Span>, k: nat, held: seq<U>, got: seq<U>,
                     pending: set<nat>) returns (now: seq<U>)
    requires k in pending && PartlyAdded(got, f, onions, spans, pending)
    ensures PartlyAdded(now, f, onions, spans, pending - {k})
    ensures held + got + Survivors(f, onions[spans[k].start..spans[k].start + spans[k].count]) == held + now
  {
    PieceOf(f, onions, spans, k);
    OneAdded(got, f, onions, spans, pending, k);
    now := got + Pieces(f, onions, spans)[k];
    Associate(held, got, Pieces(f, onions, spans)[k]);
  }

  lemma PieceOf<U>(f: Wire -> Option<U>, onions: seq<Wire>, spans: seq<Span>, k: nat)
    requires Tiling(spans, |onions|, ConvoServer.SPAN_SIZE) && k < |spans|
    ensures Pieces(f, onions, spans)[k] == Survivors(f, onions[spans[k].start..spans[k].start + spans[k].count])
  {
  }

  // What survives of each span.
  ghost function Pieces<U>(f: Wire -> Option<U>, onions: seq<Wire>, spans: seq<Span>): (pieces: seq<seq<U>>)
    requires Tiling(spans, |onions|, ConvoServer.SPAN_SIZE)
    ensures |pieces| == |spans|
  {
    seq(|spans|, k requires 0 <= k < |spans| => Survivors(f, onions[spans[k].start..spans[k].start + spans[k].count]))
  }

  ghost function Flat<U>(pieces: seq<seq<U>>, n: nat): (xs: seq<U>)
    requires n <= |pieces|
  {
    if n == 0 then [] else Flat(pieces, n - 1) + pieces[n - 1]
  }

  lemma {:induction false} PiecesMakePrefix<U>(f: Wire -> Option<U>, onions: seq<Wire>, spans: seq<Span>, n: nat)
    requires 0 < n <= |spans| && Tiling(spans, |onions|, ConvoServer.SPAN_SIZE)
    ensures Flat(Pieces(f, onions, spans), n) == Survivors(f, onions[..spans[n - 1].start + spans[n - 1].count])
  {
    PrefixGrows(f, onions, spans, n - 1);
    if n > 1 {
      assert Adjacent(spans, n - 2);
      PiecesMakePrefix(f, onions, spans, n - 1);
    }
  }

  // The messages up to the end of span k are those before it and its piece.
  lemma PrefixGrows<U>(f: Wire -> Option<U>, onions: seq<Wire>, spans: seq<Span>, k: nat)
    requires k < |spans| && Tiling(spans, |onions|, ConvoServer.SPAN_SIZE)
    ensures Survivors(f, onions[..spans[k].start + spans[k].count])
         == Survivors(f, onions[..spans[k].start]) + Pieces(f, onions, spans)[k]
  {
    SliceGrows(onions, spans[k].start, spans[k].start + spans[k].count);
    SurvivorsConcat(f, onions[..spans[k].start], onions[spans[k].start..spans[k].start + spans[k].count]);
    PieceOf(f, onions, spans, k);
  }

  lemma SliceGrows<T>(xs: seq<T>, from: nat, to: nat)
    requires from <= to <= |xs|
    ensures xs[..from] + xs[from..to] == xs[..to]
  {
  }

  lemma {:induction false} PiecesMakeWhole<U>(f: Wire -> Option<U>, onions: seq<Wire>, spans: seq<Span>)
    requires Tiling(spans, |onions|, ConvoServer.SPAN_SIZE)
    ensures Flat(Pieces(f, onions, spans), |spans|) == Survivors(f, onions)
  {
    if spans != [] {
      PiecesMakePrefix(f, onions, spans, |spans|);
      assert onions[..|onions|] == onions;
    }
  }

  // The pending ones among the first n pieces.
  ghost function Rest<U>(pieces: seq<seq<U>>, pending: set<nat>, n: nat): (m: multiset<U>)
    requires n <= |pieces|
  {
    if n == 0 then multiset{}
    else Rest(pieces, pending, n - 1) + (if n - 1 in pending then multiset(pieces[n - 1]) else multiset{})
  }

  // What was added and what is pending make up the whole.
  ghost predicate PartlyAdded<U>(added: seq<U>, f: Wire -> Option<U>, onions: seq<Wire>, spans: seq<Span>,
                                 pending: set<nat>) {
    && Tiling(spans, |onions|, ConvoServer.SPAN_SIZE)
    && (forall k :: k in pending ==> k < |spans|)
    && multiset(added) + Rest(Pieces(f, onions, spans), pending, |spans|) == multiset(Survivors(f, onions))
  }

  lemma {:induction false} AllPending<U>(pieces: seq<seq<U>>, pending: set<nat>, n: nat)
    requires n <= |pieces| && forall k :: 0 <= k < n ==> k in pending
    ensures Rest(pieces, pending, n) == multiset(Flat(pieces, n))
  {
    if n > 0 {
      AllPending(pieces, pending, n - 1);
      SumOfConcat(Flat(pieces, n - 1), pieces[n - 1]);
    }
  }

  lemma SumOfConcat<T>(a: seq<T>, b: seq<T>)
    ensures multiset(a + b) == multiset(a) + multiset(b)
  {
  }

  lemma {:induction false} OneAdded<U>(added: seq<U>, f: Wire -> Option<U>, onions: seq<Wire>, spans: seq<Span>,
                                       pending: set<nat>, k: nat)
    requires k in pending && PartlyAdded(added, f, onions, spans, pending)
    ensures PartlyAdded(added + Pieces(f, onions, spans)[k], f, onions, spans, pending - {k})
  {
    var pieces := Pieces(f, onions, spans);
    RestWithout(pieces, pending, k, |spans|);
    SumOfConcat(added, pieces[k]);
    Reorder(multiset(added), Rest(pieces, pending - {k}, |spans|), multiset(pieces[k]));
  }

  lemma {:induction false} NonePending<U>(pieces: seq<seq<U>>, n: nat)
    requires n <= |pieces|
    ensures Rest(pieces, {}, n) == multiset{}
  {
    if n > 0 { NonePending(pieces, n - 1); }
  }

  lemma NothingAdded<U>(f: Wire -> Option<U>, onions: seq<Wire>, spans: seq<Span>)
    requires Tiling(spans, |onions|, ConvoServer.SPAN_SIZE)
    ensures PartlyAdded([], f, onions, spans, Range(|spans|))
  {
    PiecesMakeWhole(f, onions, spans);
    AllPending(Pieces(f, onions, spans), Range(|spans|), |spans|);
  }

  lemma EverythingAdded<U>(added: seq<U>, f: Wire -> Option<U>, onions: seq<Wire>, spans: seq<Span>)
    requires PartlyAdded(added, f, onions, spans, {})
    ensures multiset(added) == multiset(Survivors(f, onions))
  {
    NonePending(Pieces(f, onions, spans), |spans|);
  }

  lemma {:induction false} RestWithout<U>(pieces: seq<seq<U>>, pending: set<nat>, k: nat, n: nat)
    requires n <= |pieces| && k in pending && k < |pieces|
    ensures Rest(pieces, pending, n)
         == Rest(pieces, pending - {k}, n) + (if k < n then multiset(pieces[k]) else multiset{})
  {
    if n > 0 {
      RestWithout(pieces, pending, k, n - 1);
      if k < n - 1 && n - 1 in pending {
        Reorder(Rest(pieces, pending - {k}, n - 1), multiset(pieces[k]), multiset(pieces[n - 1]));
      }
    }
  }

  lemma Reorder<T>(a: multiset<T>, b: multiset<T>, c: multiset<T>)
    ensures a + b + c == a + c + b && a + (b + c) == a + c + b
  {
  }
}
