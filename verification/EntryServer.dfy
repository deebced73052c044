/** The entry server: it collects the clients' requests for the current round,
    starts a round with each batch, and sends every reply to the connection the
    request came from. The conversation and dial halves work the same way. */
module EntryServer {
  import opened Bytes
  import opened Boxes
  import opened ConvoSpec
  import opened DeadDrops
  import opened Noise
  import opened Onions
  import opened Arrangements
  import opened ConvoTheorems
  import opened ConvoRefinement
  import opened ConvoCounts
  import opened ConvoServer

  const ROUNDS := 0x1_0000_0000

  datatype Req<C, T> = Req(conn: C, onion: T)
  datatype Named<C, T> = Named(round: uint32, req: Req<C, T>)
  datatype Batch<C, T> = Batch(round: uint32, requests: seq<Req<C, T>>)

  function NameAll<C, T>(round: uint32, rs: seq<Req<C, T>>): (ns: seq<Named<C, T>>)
    ensures |ns| == |rs|
  {
    seq(|rs|, i requires 0 <= i < |rs| => Named(round, rs[i]))
  }

  // The requests of all batches, in order.
  function Flat<C, T>(bs: seq<Batch<C, T>>): (ns: seq<Named<C, T>>) {
    if bs == [] then [] else Flat(bs[..|bs| - 1]) + NameAll(bs[|bs| - 1].round, bs[|bs| - 1].requests)
  }

  // The requests that name a round.
  function Naming<C, T>(ns: seq<Named<C, T>>, round: uint32): (rs: seq<Req<C, T>>) {
    if ns == [] then [] else
      var rest := Naming(ns[..|ns| - 1], round);
      if ns[|ns| - 1].round == round then rest + [ns[|ns| - 1].req] else rest
  }

  class Collector<C, T> {
    var round: uint32
    var requests: seq<Req<C, T>>

    // Every request accepted so far, and every batch started so far.
    ghost var accepted: seq<Named<C, T>>
    ghost var started: seq<Batch<C, T>>

    // Batch k has number k, up to the wrap of the counter; and the accepted requests
    // are, in order, those of the batches and the pending ones, each under the round
    // it named.
    ghost predicate Valid()
      reads this
    {
      && round == |started| % ROUNDS
      && (forall k :: 0 <= k < |started| ==> started[k].round == k % ROUNDS)
      && accepted == Flat(started) + NameAll(round, requests)
    }

    constructor ()
      ensures Valid() && accepted == [] && started == []
    {
      round, requests, accepted, started := 0, [], [], [];
    }

    // handleConvoRequest and handleDialRequest: the result is the round to report
    // back when the request named another one.
    method Handle(conn: C, named: uint32, onion: T) returns (wrongRound: Option<uint32>)
      requires Valid()
      modifies this
      ensures Valid() && round == old(round) && started == old(started)
      ensures wrongRound == if named == old(round) then None else Some(old(round))
      ensures requests == if wrongRound.None? then old(requests) + [Req(conn, onion)] else old(requests)
      ensures accepted == if wrongRound.None? then old(accepted) + [Named(named, Req(conn, onion))] else old(accepted)
    {
      var currRound := round;
      if named != currRound { return Some(currRound); }
      var rr := Req(conn, onion);
      ghost var pending := NameAll(round, requests);
      requests := requests + [rr];
      accepted := accepted + [Named(named, rr)];
      assert NameAll(round, requests) == pending + [Named(named, rr)];
      wrongRound := None;
    }

    // The critical section of the round loops.
    method Advance() returns (batch: Batch<C, T>)
      requires Valid()
      modifies this
      ensures Valid() && accepted == old(accepted)
      ensures batch == Batch(old(round), old(requests)) && started == old(started) + [batch]
      ensures round == (old(round) + 1) % ROUNDS && requests == []
    {
      batch := Batch(round, requests);
      started := started + [batch];
      assert started[..|started| - 1] == old(started);
      NextRound(|old(started)|);
      round := if round + 1 == ROUNDS then 0 else round + 1;
      requests := [];
      assert accepted == Flat(started) + NameAll(round, requests);
    }
  }

  lemma NextRound(k: nat)
    ensures (k + 1) % ROUNDS == if k % ROUNDS + 1 == ROUNDS then 0 else k % ROUNDS + 1
  {
  }

  // --- Where an accepted request ends up ------------------------------------------------

  lemma {:induction false} NamingConcat<C, T>(a: seq<Named<C, T>>, b: seq<Named<C, T>>, round: uint32)
    ensures Naming(a + b, round) == Naming(a, round) + Naming(b, round)
  {
    if b == [] {
      assert a + b == a;
    } else {
      NamingConcat(a, b[..|b| - 1], round);
      assert (a + b)[..|a + b| - 1] == a + b[..|b| - 1];
    }
  }

  lemma {:induction false} NamingOne<C, T>(rs: seq<Req<C, T>>, named: uint32, round: uint32)
    ensures Naming(NameAll(named, rs), round) == if named == round then rs else []
  {
    if rs != [] {
      NamingOne(rs[..|rs| - 1], named, round);
      assert NameAll(named, rs)[..|rs| - 1] == NameAll(named, rs[..|rs| - 1]);
    }
  }

  lemma {:induction false} NamingBatches<C, T>(bs: seq<Batch<C, T>>, round: uint32)
    requires |bs| <= ROUNDS && forall k :: 0 <= k < |bs| ==> bs[k].round == k
    ensures Naming(Flat(bs), round) == if round < |bs| then bs[round].requests else []
  {
    if bs != [] {
      var init, last := bs[..|bs| - 1], bs[|bs| - 1];
      NamingBatches(init, round);
      NamingConcat(Flat(init), NameAll(last.round, last.requests), round);
      NamingOne(last.requests, last.round, round);
    }
  }

  // Before the counter wraps: batch r holds exactly the accepted requests that named
  // round r, in the order they came; those naming the current round are pending.
  lemma BatchHoldsItsRequests<C, T>(e: Collector<C, T>, r: uint32)
    requires e.Valid() && |e.started| < ROUNDS
    ensures Naming(e.accepted, r) ==
      if r < |e.started| then e.started[r].requests else if r == e.round then e.requests else []
  {
    NamingBatches(e.started, r);
    NamingConcat(Flat(e.started), NameAll(e.round, e.requests), r);
    NamingOne(e.requests, e.round, r);
  }

  // --- Running a round ---------------------------------------------------------------------

  datatype Response = Reply(round: uint32, onion: Wire) | ServerError(round: uint32)

  function OnionsOf<C>(rs: seq<Req<C, Wire>>): (ws: seq<Wire>)
    ensures |ws| == |rs| && forall i :: 0 <= i < |rs| ==> ws[i] == rs[i].onion
  {
    seq(|rs|, i requires 0 <= i < |rs| => rs[i].onion)
  }

  method Split<C>(requests: seq<Req<C, Wire>>) returns (conns: seq<C>, onions: seq<Wire>)
    ensures |conns| == |requests| && forall k :: 0 <= k < |conns| ==> conns[k] == requests[k].conn
    ensures |onions| == |requests| && forall k :: 0 <= k < |onions| ==> onions[k] == requests[k].onion
    ensures onions == OnionsOf(requests)
  {
    conns, onions := [], [];
    for i := 0 to |requests|
      invariant |conns| == i && onions == OnionsOf(requests)[..i]
      invariant forall k :: 0 <= k < i ==> conns[k] == requests[k].conn
    {
      conns := conns + [requests[i].conn];
      onions := onions + [requests[i].onion];
    }
  }

  // runConvoRound: reply i goes to the connection that supplied onion i. The result
  // lists the messages sent, in the order of the requests.
  method RunRound<C>(first: ConvoService, batch: Batch<C, Wire>, draws: seq<Draw>) returns (sent: seq<(C, Response)>)
    requires first.Deployed() && first.ChainValid() && ValidDraws(draws, |first.keys|)
    requires first.InStatus(batch.round, RoundNew) && first.next != null ==>
      first.rounds[batch.round].noise == NoiseOf(draws[0], batch.round, first.keys[1..])
    modifies first.chain
    ensures first.ChainValid() && |sent| == |batch.requests|
    ensures var replies := RoundReplies(first.cipher, first.keys, batch.round, draws, OnionsOf(batch.requests));
      var served := old(first.InStatus(batch.round, RoundNew) && first.FreshBelow(batch.round)) && replies.Some?;
      forall i :: 0 <= i < |sent| ==>
        && sent[i].0 == batch.requests[i].conn
        && sent[i].1 == if served then Reply(batch.round, replies.value[i]) else ServerError(batch.round)
    ensures var onions := OnionsOf(batch.requests);
      var asked := AskedDrops(first.cipher, first.keys, batch.round, onions);
      (&& old(first.InStatus(batch.round, RoundNew) && first.FreshBelow(batch.round))
       && RoundReplies(first.cipher, first.keys, batch.round, draws, onions).Some?
       && Collisionless(first.cipher, first.keys, batch.round, draws, Slots(onions))
       && Fresh(SingleNoise(draws) + PairNoise(draws), asked)) ==>
        Reported(old(first.last.accessCounts), first.last.accessCounts,
                 |Once(asked)| + TotalSingles(draws), |Repeated(asked)| + TotalPairs(draws))
  {
    var conns, onions := Split(batch.requests);
    var r, replies := RunConvoRound(first, batch.round, onions, draws);
    sent := Send(conns, batch.round, r.Ok?, replies);
    if r.Ok? && Collisionless(first.cipher, first.keys, batch.round, draws, Slots(onions))
      && Fresh(SingleNoise(draws) + PairNoise(draws), AskedDrops(first.cipher, first.keys, batch.round, onions)) {
      CountsReported(old(first.last.accessCounts), first.last.accessCounts, first.cipher, first.keys, batch.round,
        draws, onions);
    }
  }

  // The round's counts reach the last server's reports: the drops the clients asked for once
  // or more often, and the noise of all servers.
  lemma CountsReported(before: seq<AccessCount>, after: seq<AccessCount>, c: Cipher, keys: seq<Key>, round: uint32,
                       draws: seq<Draw>, onions: seq<Wire>)
    requires keys != [] && ValidDraws(draws, |keys|) && Collisionless(c, keys, round, draws, Slots(onions))
    requires Fresh(SingleNoise(draws) + PairNoise(draws), AskedDrops(c, keys, round, onions))
    requires after == Published(before, CountOf(c, LastBatch(c, keys, round, draws, onions)))
    ensures Reported(before, after, |Once(AskedDrops(c, keys, round, onions))| + TotalSingles(draws),
                     |Repeated(AskedDrops(c, keys, round, onions))| + TotalPairs(draws))
  {
    AccessCountsExact(c, keys, round, draws, onions);
  }

  // The dead drops of the onions that all servers can peel.
  ghost function AskedDrops(c: Cipher, keys: seq<Key>, round: uint32, onions: seq<Wire>): (ds: multiset<seq<byte>>) {
    DropsOf(c, Mapped(Message(c, keys, round), Slots(onions)))
  }

  // What a connection is sent opens, with the keys of the onion it supplied, to the message
  // of another request for the same dead drop, or to its own when there is none.
  lemma ReplyReachesOwner<C>(c: Cipher, keys: seq<Key>, round: uint32, draws: seq<Draw>, requests: seq<Req<C, Wire>>,
                             sent: seq<(C, Response)>, i: nat)
    requires keys != [] && ValidDraws(draws, |keys|) && i < |requests| == |sent|
    requires Collisionless(c, keys, round, draws, Slots(OnionsOf(requests)))
    requires NoiseApart(c, draws, ClientRequests(c, keys, round, OnionsOf(requests)))
    requires Peeled(c, keys, ForwardNonce(round), SIZE_CONVO_EXCHANGE, requests[i].onion).Some?
    requires RoundReplies(c, keys, round, draws, OnionsOf(requests)).Some?
    requires sent[i].0 == requests[i].conn
    requires sent[i].1 == Reply(round, RoundReplies(c, keys, round, draws, OnionsOf(requests)).value[i])
    ensures var core := Peeled(c, keys, ForwardNonce(round), SIZE_CONVO_EXCHANGE, requests[i].onion).value;
      var rs := ClientRequests(c, keys, round, OnionsOf(requests));
      var opens := Unwrapped(sent[i].1.onion, BackwardNonce(round), core.sharedKeys);
      && sent[i].0 == requests[i].conn && opens.Some?
      && rs[i] == Some(Parse(c, core.message)) && Swapped(rs, i, opens.value)
  {
    RoundRefinesSwap(c, keys, round, draws, OnionsOf(requests), i);
  }

  method Send<C>(conns: seq<C>, round: uint32, ok: bool, replies: seq<Wire>) returns (sent: seq<(C, Response)>)
    requires ok ==> |replies| == |conns|
    ensures |sent| == |conns|
    ensures forall i :: 0 <= i < |sent| ==>
      sent[i] == (conns[i], if ok then Reply(round, replies[i]) else ServerError(round))
  {
    sent := [];
    for i := 0 to |conns|
      invariant |sent| == i
      invariant forall k :: 0 <= k < i ==>
        sent[k] == (conns[k], if ok then Reply(round, replies[k]) else ServerError(round))
    {
      sent := sent + [(conns[i], if ok then Reply(round, replies[i]) else ServerError(round))];
    }
  }
}
