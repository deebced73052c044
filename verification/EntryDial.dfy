/** The entry server's dial half: it runs a dial round with a batch, fetches the buckets
    from the last server and sends every connection the bucket of its own key. */
module EntryDial {
  import opened Bytes
  import opened Boxes
  import opened Survival
  import opened DialSpec
  import opened DialTheorems
  import opened DialServer
  import opened EntryServer

  datatype Connection<C> = Connection(id: C, publicKey: Key)
  datatype DialResponse = DialBucket(round: uint32, intros: seq<Wire>) | DialError(round: uint32)

  lemma {:induction false} LastEnds(s: DialService)
    requires s.Deployed()
    ensures s.last.next == null && s.last.cipher == s.cipher && s.last.buckets == s.buckets
    decreases s.chain
  {
    if s.next != null { LastEnds(s.next); }
  }

  // runDialRound: a connection gets the bucket its own key names, whatever it dialed;
  // that is the bucket DialReaches speaks of.
  method RunDial<C>(first: DialService, last: DialService, batch: Batch<Connection<C>, Wire>, draws: seq<DialDraw>)
    returns (sent: seq<(Connection<C>, DialResponse)>, ghost arrivals: seq<seq<Wire>>)
    requires first.Deployed() && last == first.last && ValidDialDraws(draws, |first.keys|, first.buckets)
    requires first.InStatus(batch.round, RoundOpen) ==>
      first.rounds[batch.round].noise == DialNoise(draws[0], batch.round, first.keys[1..], first.buckets)
    modifies first.chain
    ensures |sent| == |batch.requests| && forall i :: 0 <= i < |sent| ==> sent[i].0 == batch.requests[i].conn
    ensures !old(first.InStatus(batch.round, RoundOpen) && first.FreshBelow(batch.round)) ==>
      forall i :: 0 <= i < |sent| ==> sent[i].1 == DialError(batch.round)
    ensures old(first.InStatus(batch.round, RoundOpen) && first.FreshBelow(batch.round)) ==>
      && batch.round in last.rounds
      && DialRunFrom(first.cipher, first.keys, batch.round, draws, first.buckets,
                     old(first.rounds)[batch.round].incoming, OnionsOf(batch.requests), arrivals,
                     last.rounds[batch.round].incoming)
      && forall i :: 0 <= i < |sent| ==> sent[i].1 == DialBucket(batch.round, Survivors(
           ToBucket(first.cipher, KeyDialBucket(sent[i].0.publicKey, first.buckets)),
           last.rounds[batch.round].incoming))
  {
    var conns, onions := Split(batch.requests);
    var r;
    r, arrivals := RunDialRound(first, batch.round, onions, draws);
    if !r.Ok? {
      sent := SendBuckets(conns, batch.round, first.buckets, []);
      return;
    }
    LastEnds(first);
    sent := Deliver(last, conns, batch.round);
  }

  // Fetches the buckets and sends them out.
  method Deliver<C>(last: DialService, conns: seq<Connection<C>>, round: uint32)
    returns (sent: seq<(Connection<C>, DialResponse)>)
    requires last.next == null && last.InStatus(round, RoundClosed) && last.buckets > 0
    ensures |sent| == |conns|
    ensures forall i :: 0 <= i < |sent| ==> sent[i] == (conns[i], DialBucket(round, Survivors(
      ToBucket(last.cipher, KeyDialBucket(conns[i].publicKey, last.buckets)), last.rounds[round].incoming)))
  {
    var r, buckets := last.Buckets(round);
    sent := SendBuckets(conns, round, last.buckets, buckets);
  }

  // What a connection is sent: the bucket of its key, or an error when there are none.
  function ResponseTo<C>(conn: Connection<C>, round: uint32, total: nat, buckets: seq<seq<Wire>>): (r: DialResponse)
    requires 0 < total && (buckets == [] || |buckets| == total)
  {
    if buckets == [] then DialError(round)
    else DialBucket(round, buckets[KeyDialBucket(conn.publicKey, total)])
  }

  method SendBuckets<C>(conns: seq<Connection<C>>, round: uint32, total: nat, buckets: seq<seq<Wire>>)
    returns (sent: seq<(Connection<C>, DialResponse)>)
    requires 0 < total && (buckets == [] || |buckets| == total)
    ensures |sent| == |conns|
    ensures forall i :: 0 <= i < |sent| ==> sent[i] == (conns[i], ResponseTo(conns[i], round, total, buckets))
  {
    sent := [];
    for i := 0 to |conns|
      invariant |sent| == i
      invariant forall k :: 0 <= k < i ==> sent[k] == (conns[k], ResponseTo(conns[k], round, total, buckets))
    {
      sent := sent + [(conns[i], ResponseTo(conns[i], round, total, buckets))];
    }
  }
}
