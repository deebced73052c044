/** The main results about a dial round: what ends up in each bucket, and that a
    dialed user finds the introduction in the bucket its connection is sent. */
module DialTheorems {
  import opened Bytes
  import opened Boxes
  import opened Onions
  import opened Noise
  import opened Survival
  import opened ConvoRefinement
  import opened DialSpec

  // --- Buckets --------------------------------------------------------------------

  // DialExchange.Unmarshal
  function BucketOf(c: Cipher, m: Wire): (b: nat)
    requires Len(m) == SIZE_DIAL_EXCHANGE
  {
    BigEndian(Render(c, m)[..4])
  }

  // The encrypted introduction of a message, if it is addressed to bucket b.
  function ToBucket(c: Cipher, b: nat): (f: Wire -> Option<Wire>) {
    (m: Wire) => if Len(m) == SIZE_DIAL_EXCHANGE && BucketOf(c, m) == b then Some(Suffix(c, m, 4)) else None
  }

  method SortIntoBuckets(c: Cipher, incoming: seq<Wire>, total: nat) returns (buckets: seq<seq<Wire>>)
    ensures |buckets| == total
    ensures forall b :: 0 <= b < total ==> buckets[b] == Survivors(ToBucket(c, b), incoming)
  {
    buckets := seq(total, _ => []);
    for i := 0 to |incoming|
      invariant |buckets| == total
      invariant forall b :: 0 <= b < total ==> buckets[b] == Survivors(ToBucket(c, b), incoming[..i])
    {
      var m := incoming[i];
      assert incoming[..i + 1][..i] == incoming[..i];
      if Len(m) == SIZE_DIAL_EXCHANGE {
        var bucket := BucketOf(c, m);
        if bucket < |buckets| {
          buckets := buckets[bucket := buckets[bucket] + [Suffix(c, m, 4)]];
        }
      }
    }
    assert incoming[..|incoming|] == incoming;
  }

  // Without any assumption on the messages, a bucket never holds more than the client
  // introductions addressed to it and the fake ones.
  lemma BucketInventsNothing(c: Cipher, keys: seq<Key>, round: uint32, draws: seq<DialDraw>, buckets: nat,
                             batch: seq<Wire>, arrivals: seq<seq<Wire>>, final: seq<Wire>, b: nat)
    requires ValidDialDraws(draws, |keys|, buckets)
    requires DialRun(c, keys, round, draws, buckets, batch, arrivals, final)
    ensures multiset(Survivors(ToBucket(c, b), final))
         <= multiset(Survivors(ToBucket(c, b), Survivors(DialMessage(c, keys, round), batch)))
            + multiset(Survivors(ToBucket(c, b), NoiseIntros(draws, buckets)))
  {
    DialInventsNothing(c, keys, round, draws, buckets, batch, arrivals, final);
    SurvivorsWithin(ToBucket(c, b), final, DialSum(c, keys, round, draws, buckets, batch));
    SurvivorsConcat(ToBucket(c, b), Survivors(DialMessage(c, keys, round), batch), NoiseIntros(draws, buckets));
  }

  // Each bucket holds, as a multiset, the client introductions addressed to it and the
  // fake ones, for any shuffles and any order of the Adds.
  lemma BucketConserves(c: Cipher, keys: seq<Key>, round: uint32, draws: seq<DialDraw>, buckets: nat,
                        batch: seq<Wire>, arrivals: seq<seq<Wire>>, final: seq<Wire>, b: nat)
    requires ValidDialDraws(draws, |keys|, buckets) && DialClear(c, keys, round, draws, buckets, batch)
    requires DialRun(c, keys, round, draws, buckets, batch, arrivals, final) && b < buckets
    ensures multiset(Survivors(ToBucket(c, b), final))
         == multiset(Survivors(ToBucket(c, b), Survivors(DialMessage(c, keys, round), batch)))
            + multiset(Survivors(ToBucket(c, b), NoiseIntros(draws, buckets)))
    ensures |Survivors(ToBucket(c, b), NoiseIntros(draws, buckets))| == NoiseCount(draws, b)
  {
    DialConserves(c, keys, round, draws, buckets, batch, arrivals, final);
    SurvivorsPermute(ToBucket(c, b), final, DialSum(c, keys, round, draws, buckets, batch));
    SurvivorsConcat(ToBucket(c, b), Survivors(DialMessage(c, keys, round), batch), NoiseIntros(draws, buckets));
    NoiseCounted(c, draws, buckets, b);
  }

  // The fake introductions of all servers for bucket b.
  function NoiseCount(draws: seq<DialDraw>, b: nat): nat {
    if draws == [] then 0 else
      (if b < |draws[0].counts| then draws[0].counts[b] else 0) + NoiseCount(draws[1..], b)
  }

  lemma {:induction false} NoiseCounted(c: Cipher, draws: seq<DialDraw>, buckets: nat, b: nat)
    requires ValidDialDraws(draws, |draws|, buckets) && b < buckets
    ensures |Survivors(ToBucket(c, b), NoiseIntros(draws, buckets))| == NoiseCount(draws, b)
  {
    if draws != [] {
      var d, rest := draws[0], draws[1..];
      NoiseIntrosSplit(draws, buckets);
      SurvivorsConcat(ToBucket(c, b), Plains(FakeIntros(d.counts, d.fakes)), NoiseIntros(rest, buckets));
      NoiseCounted(c, rest, buckets, b);
      ServerNoiseCounted(c, d, |draws| - 1, buckets, b);
    }
  }

  lemma ServerNoiseCounted(c: Cipher, d: DialDraw, servers: nat, buckets: nat, b: nat)
    requires ValidDialDraw(d, servers, buckets) && b < buckets
    ensures |Survivors(ToBucket(c, b), Plains(FakeIntros(d.counts, d.fakes)))| == d.counts[b]
  {
    var ws, bs := Plains(FakeIntros(d.counts, d.fakes)), BucketList(d.counts);
    forall i | 0 <= i < |ws| ensures ToBucket(c, b)(ws[i]).Some? <==> bs[i] == b {
      assert ws[i].data[..4] == PutUint32(bs[i]);
      PutUint32RoundTrip(bs[i]);
    }
    SurvivorsCounted(ToBucket(c, b), ws, bs, b);
    BucketListCounted(d.counts, b);
  }

  lemma {:induction false} SurvivorsCounted<T, U>(f: T -> Option<U>, xs: seq<T>, ks: seq<nat>, b: nat)
    requires |xs| == |ks| && forall i :: 0 <= i < |xs| ==> (f(xs[i]).Some? <==> ks[i] == b)
    ensures |Survivors(f, xs)| == multiset(ks)[b]
  {
    if xs != [] {
      var n := |xs| - 1;
      SurvivorsCounted(f, xs[..n], ks[..n], b);
      assert ks == ks[..n] + [ks[n]];
      assert f(xs[n]).Some? <==> ks[n] == b;
    }
  }

  lemma {:induction false} BucketListCounted(counts: seq<nat>, b: nat)
    ensures multiset(BucketList(counts))[b] == if b < |counts| then counts[b] else 0
  {
    if counts != [] {
      var n := |counts| - 1;
      BucketListCounted(counts[..n], b);
      RepeatCounted(counts[n], n, b);
    }
  }

  lemma {:induction false} RepeatCounted(n: nat, x: nat, b: nat)
    ensures multiset(seq<nat>(n, _ => x))[b] == if b == x then n else 0
  {
    if n > 0 {
      RepeatCounted(n - 1, x, b);
      assert seq<nat>(n, _ => x) == seq<nat>(n - 1, _ => x) + [x];
    }
  }

  // --- Dialing --------------------------------------------------------------------------

  // The bucket of a user.
  function KeyDialBucket(key: Key, buckets: nat): (b: nat)
    requires buckets > 0
    ensures b < buckets
  {
    BigEndian(key[28..32]) % buckets
  }

  // The bucket is the number in the last four bytes of the key.
  lemma BucketByLastBytes(front: seq<byte>, x: uint32, buckets: nat)
    requires |front| == 28 && buckets > 0
    ensures KeyDialBucket(front + PutUint32(x), buckets) == x % buckets
  {
    assert (front + PutUint32(x))[28..32] == PutUint32(x);
    PutUint32RoundTrip(x);
  }

  // Introduction.Marshal; users meet four rounds later.
  function Introduction(round: uint32, me: Key): (s: seq<byte>)
    ensures |s| == SIZE_INTRODUCTION
  {
    PutUint32((round + 4) % 0x1_0000_0000) + me
  }

  // The exchange a user sends to dial pk.
  function DialExchange(me: Key, pk: Key, eph: Key, round: uint32, buckets: nat): (w: Wire)
    requires 0 < buckets < 0x1_0000_0000
    ensures Len(w) == SIZE_DIAL_EXCHANGE
  {
    Cat(PutUint32(KeyDialBucket(pk, buckets)),
        Layered(Plain(Introduction(round, me)), ForwardNonce(round), [pk], [eph]))
  }

  // The exchange of a user who dials nobody.
  function IdleExchange(data: seq<byte>): (w: Wire)
    ensures Len(w) == 4 + |data| && w.Plain? && w.data[4..] == data
  {
    Plain(PutUint32(0xFFFF_FFFF) + data)
  }

  class Dialer {
    const me: Key
    var userDialRequests: seq<Key>

    constructor (me: Key)
      ensures this.me == me && userDialRequests == []
    {
      this.me, userDialRequests := me, [];
    }

    // Takes the oldest request, if there is one; else the exchange goes to no bucket.
    method NextDialRequest(round: uint32, buckets: nat, keys: seq<Key>, eph: Key, data: seq<byte>, ephs: seq<Key>)
      returns (onion: Wire)
      requires 0 < buckets < 0x1_0000_0000 && |ephs| == |keys|
      modifies this
      ensures userDialRequests == if old(userDialRequests) == [] then [] else old(userDialRequests)[1..]
      ensures onion == Layered(
        if old(userDialRequests) == [] then IdleExchange(data)
        else DialExchange(me, old(userDialRequests)[0], eph, round, buckets),
        ForwardNonce(round), keys, ephs)
    {
      var ex: Wire;
      if userDialRequests != [] {
        var pk := userDialRequests[0];
        userDialRequests := userDialRequests[1..];
        var ctxt, _ := Seal(Plain(Introduction(round, me)), ForwardNonce(round), [pk], [eph]);
        ex := Cat(PutUint32(KeyDialBucket(pk, buckets)), ctxt);
      } else {
        ex := IdleExchange(data);
      }
      var sharedKeys;
      onion, sharedKeys := Seal(ex, ForwardNonce(round), keys, ephs);
    }

    // Announces the introductions in a bucket that open with this user's key, with the
    // name the PKI has for the sender, if it has one.
    method HandleDialBucket(c: Cipher, round: uint32, intros: seq<Wire>, people: map<string, Key>)
      returns (announced: seq<Announcement>)
      ensures AllNamed(c, people, Survivors(OpenIntro(c, me, round), intros), announced)
    {
      announced := [];
      for i := 0 to |intros|
        invariant AllNamed(c, people, Survivors(OpenIntro(c, me, round), intros[..i]), announced)
      {
        assert intros[..i + 1][..i] == intros[..i];
        var intro := OpenIntro(c, me, round)(intros[i]);
        if intro.Some? {
          var key := LongTermKey(c, intro.value);
          if name :| name in people && people[name] == key {
            announced := announced + [Known(name)];
          } else {
            announced := announced + [Unknown(key)];
          }
        }
      }
      assert intros[..|intros|] == intros;
    }
  }

  datatype Announcement = Known(name: string) | Unknown(key: Key)

  // The sender that an introduction names.
  function LongTermKey(c: Cipher, intro: Wire): (key: Key)
    requires Len(intro) == SIZE_INTRODUCTION
  {
    Render(c, intro)[4..]
  }

  // A name of the owner of the key, or the key itself when nobody has it.
  ghost predicate Named(people: map<string, Key>, key: Key, a: Announcement) {
    match a
    case Known(name) => name in people && people[name] == key
    case Unknown(k) => k == key && forall name :: name in people ==> people[name] != key
  }

  ghost predicate AllNamed(c: Cipher, people: map<string, Key>, intros: seq<Wire>, announced: seq<Announcement>) {
    && |announced| == |intros|
    && forall k :: 0 <= k < |intros| ==>
         Len(intros[k]) == SIZE_INTRODUCTION && Named(people, LongTermKey(c, intros[k]), announced[k])
  }

  // The round in which an introduction asks to meet.
  function Rendezvous(c: Cipher, intro: Wire): (round: nat)
    requires Len(intro) == SIZE_INTRODUCTION
  {
    BigEndian(Render(c, intro)[..4])
  }

  // Four rounds later; the numbers wrap at 2^32.
  function FourOn(round: uint32): (later: uint32) {
    if round < 0xFFFF_FFFC then round + 4 else round - 0xFFFF_FFFC
  }

  lemma FourOnWraps(round: uint32)
    ensures (round + 4) % 0x1_0000_0000 == FourOn(round)
  {
  }

  // An introduction names its sender and the round four later.
  lemma IntroductionNames(c: Cipher, round: uint32, me: Key)
    ensures LongTermKey(c, Plain(Introduction(round, me))) == me
    ensures Rendezvous(c, Plain(Introduction(round, me))) == FourOn(round)
  {
    FourOnWraps(round);
    assert Introduction(round, me)[..4] == PutUint32(FourOn(round));
    PutUint32RoundTrip(FourOn(round));
  }

  function OpenIntro(c: Cipher, me: Key, round: uint32): (f: Wire -> Option<Wire>) {
    (w: Wire) => SlotBody(c, [me], ForwardNonce(round), SIZE_INTRODUCTION, w)
  }

  // An idle user's exchange is in no bucket.
  lemma IdleInNoBucket(c: Cipher, data: seq<byte>, b: nat)
    requires b < 0xFFFF_FFFF
    ensures ToBucket(c, b)(IdleExchange(data)).None?
  {
    var w := IdleExchange(data);
    assert w.data[..4] == PutUint32(0xFFFF_FFFF);
    PutUint32RoundTrip(0xFFFF_FFFF);
  }

  lemma DialExchangeSorted(c: Cipher, me: Key, pk: Key, eph: Key, round: uint32, buckets: nat)
    requires 0 < buckets < 0x1_0000_0000
    ensures ToBucket(c, KeyDialBucket(pk, buckets))(DialExchange(me, pk, eph, round, buckets))
         == Some(Layered(Plain(Introduction(round, me)), ForwardNonce(round), [pk], [eph]))
  {
    var w, b := DialExchange(me, pk, eph, round, buckets), KeyDialBucket(pk, buckets);
    assert Render(c, w)[..4] == PutUint32(b);
    PutUint32RoundTrip(b);
    assert Suffix(c, w, 4) == Suffix(c, w.tail, 0);
  }

  lemma DialedOpens(c: Cipher, me: Key, pk: Key, eph: Key, round: uint32)
    ensures OpenIntro(c, pk, round)(Layered(Plain(Introduction(round, me)), ForwardNonce(round), [pk], [eph]))
         == Some(Plain(Introduction(round, me)))
  {
    PeelingInvertsSeal(c, [pk], [eph], ForwardNonce(round), SIZE_INTRODUCTION, Plain(Introduction(round, me)));
  }

  // The dialed user finds the introduction in the bucket of the own key once the exchange
  // has reached the last server.
  lemma ExchangeFound(c: Cipher, round: uint32, buckets: nat, final: seq<Wire>, me: Key, pk: Key, eph: Key)
    requires 0 < buckets < 0x1_0000_0000 && DialExchange(me, pk, eph, round, buckets) in final
    ensures Plain(Introduction(round, me)) in Found(c, round, buckets, final, pk)
  {
    var ex, b := DialExchange(me, pk, eph, round, buckets), KeyDialBucket(pk, buckets);
    var intro := Layered(Plain(Introduction(round, me)), ForwardNonce(round), [pk], [eph]);
    DialExchangeSorted(c, me, pk, eph, round, buckets);
    SurvivorIn(ToBucket(c, b), final, ex);
    DialedOpens(c, me, pk, eph, round);
    SurvivorIn(OpenIntro(c, pk, round), Survivors(ToBucket(c, b), final), intro);
  }

  // The introductions in a user's bucket that open with the user's key.
  function Found(c: Cipher, round: uint32, buckets: nat, final: seq<Wire>, pk: Key): (intros: seq<Wire>)
    requires buckets > 0
  {
    Survivors(OpenIntro(c, pk, round), Survivors(ToBucket(c, KeyDialBucket(pk, buckets)), final))
  }

  // The onion that dials pk.
  function DialOnion(keys: seq<Key>, round: uint32, buckets: nat, me: Key, pk: Key, eph: Key, ephs: seq<Key>): (w: Wire)
    requires 0 < buckets < 0x1_0000_0000 && |ephs| == |keys|
  {
    Layered(DialExchange(me, pk, eph, round, buckets), ForwardNonce(round), keys, ephs)
  }

  // Dialing works end to end: if the onion that dials pk is in the batch and no server
  // mistakes another message for it, the user with key pk, who is sent the bucket of that
  // key, receives the introduction, whatever else collides.
  lemma DialReaches(c: Cipher, keys: seq<Key>, round: uint32, draws: seq<DialDraw>, buckets: nat,
                    batch: seq<Wire>, arrivals: seq<seq<Wire>>, final: seq<Wire>,
                    me: Key, pk: Key, eph: Key, ephs: seq<Key>)
    requires 0 < buckets < 0x1_0000_0000 && |ephs| == |keys|
    requires ValidDialDraws(draws, |keys|, buckets) && DialRun(c, keys, round, draws, buckets, batch, arrivals, final)
    requires DialOnion(keys, round, buckets, me, pk, eph, ephs) in batch
    requires Unmistaken(c, keys, round, arrivals, DialOnion(keys, round, buckets, me, pk, eph, ephs))
    ensures Plain(Introduction(round, me)) in Found(c, round, buckets, final, pk)
  {
    var ex, w := DialExchange(me, pk, eph, round, buckets), DialOnion(keys, round, buckets, me, pk, eph, ephs);
    PeelingInvertsSeal(c, keys, ephs, ForwardNonce(round), SIZE_DIAL_EXCHANGE, ex);
    UnmistakenArrives(c, keys, round, draws, buckets, batch, arrivals, final, w);
    ExchangeFound(c, round, buckets, final, me, pk, eph);
  }

  // Without any collisions every dialed user is reached.
  lemma ClearDialReaches(c: Cipher, keys: seq<Key>, round: uint32, draws: seq<DialDraw>, buckets: nat,
                         batch: seq<Wire>, arrivals: seq<seq<Wire>>, final: seq<Wire>,
                         me: Key, pk: Key, eph: Key, ephs: seq<Key>)
    requires 0 < buckets < 0x1_0000_0000 && |ephs| == |keys|
    requires ValidDialDraws(draws, |keys|, buckets) && DialClear(c, keys, round, draws, buckets, batch)
    requires DialRun(c, keys, round, draws, buckets, batch, arrivals, final)
    requires DialOnion(keys, round, buckets, me, pk, eph, ephs) in batch
    ensures Plain(Introduction(round, me)) in Found(c, round, buckets, final, pk)
  {
    var ex, w := DialExchange(me, pk, eph, round, buckets), DialOnion(keys, round, buckets, me, pk, eph, ephs);
    PeelingInvertsSeal(c, keys, ephs, ForwardNonce(round), SIZE_DIAL_EXCHANGE, ex);
    SurvivorIn(DialMessage(c, keys, round), batch, w);
    DialConserves(c, keys, round, draws, buckets, batch, arrivals, final);
    assert ex in multiset(DialSum(c, keys, round, draws, buckets, batch));
    ExchangeFound(c, round, buckets, final, me, pk, eph);
  }

  // The announcement names the caller, and the introduction a round four after the dialing.
  ghost predicate Announces(c: Cipher, people: map<string, Key>, me: Key, round: uint32, intro: Wire, a: Announcement) {
    Named(people, me, a) && Len(intro) == SIZE_INTRODUCTION && Rendezvous(c, intro) == FourOn(round)
  }

  // What the dialed user sees: the caller announced, by a name the PKI has for the caller's
  // key or by the key.
  lemma DialAnnounced(c: Cipher, round: uint32, buckets: nat, final: seq<Wire>, people: map<string, Key>,
                      found: seq<Wire>, announced: seq<Announcement>, me: Key, pk: Key)
    requires buckets > 0 && found == Found(c, round, buckets, final, pk) && Plain(Introduction(round, me)) in found
    requires AllNamed(c, people, found, announced)
    ensures exists k :: 0 <= k < |announced| && Announces(c, people, me, round, found[k], announced[k])
  {
    var k :| 0 <= k < |found| && found[k] == Plain(Introduction(round, me));
    IntroductionNames(c, round, me);
    assert Announces(c, people, me, round, found[k], announced[k]);
  }
}
