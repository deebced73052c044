/** Cover traffic (noise.go): fake conversation requests in ones and in pairs,
    and fake introductions, sealed for the servers that come next. */
module Noise {
  import opened Bytes
  import opened Boxes
  import opened Onions

  const SIZE_MESSAGE := 240
  const SIZE_ENCRYPTED_MESSAGE := SIZE_MESSAGE + BOX_OVERHEAD
  const SIZE_DEAD_DROP := 16
  const SIZE_CONVO_EXCHANGE := SIZE_DEAD_DROP + SIZE_ENCRYPTED_MESSAGE

  // The random bytes of one fake message and the key pairs its Seal draws.
  datatype Fake = Fake(data: seq<byte>, ephs: seq<Key>)

  ghost predicate Drawn(fakes: seq<Fake>, size: nat, servers: nat) {
    forall i :: 0 <= i < |fakes| ==> |fakes[i].data| == size && |fakes[i].ephs| == servers
  }

  function SealFake(f: Fake, nonce: Nonce, keys: seq<Key>): (w: Wire)
    requires |f.ephs| == |keys|
    ensures Len(w) == |f.data| + |keys| * ONION_OVERHEAD
  {
    Layered(Plain(f.data), nonce, keys, f.ephs)
  }

  // The second message of a pair takes over the dead drop of the first.
  function Paired(first: Fake, second: Fake): (f: Fake)
    requires |first.data| >= SIZE_DEAD_DROP && |second.data| >= SIZE_DEAD_DROP
    ensures |f.data| == |second.data| && f.ephs == second.ephs
    ensures forall k :: 0 <= k < |f.data| ==> f.data[k] == if k < 16 then first.data[k] else second.data[k]
  {
    Fake(first.data[..SIZE_DEAD_DROP] + second.data[SIZE_DEAD_DROP..], second.ephs)
  }

  datatype Pair = Pair(first: Fake, second: Fake)

  // The fakes of all pairs, two after two.
  function Couples(pairs: seq<Pair>): (r: seq<Fake>)
    requires forall i :: 0 <= i < |pairs| ==>
      |pairs[i].first.data| == |pairs[i].second.data| == SIZE_CONVO_EXCHANGE
    ensures |r| == 2 * |pairs|
  {
    if pairs == [] then [] else
      var p := pairs[|pairs| - 1];
      Couples(pairs[..|pairs| - 1]) + [p.first, Paired(p.first, p.second)]
  }

  ghost predicate PairDrawn(p: Pair, servers: nat) {
    && |p.first.data| == |p.second.data| == SIZE_CONVO_EXCHANGE
    && |p.first.ephs| == |p.second.ephs| == servers
  }

  ghost predicate PairsDrawn(pairs: seq<Pair>, servers: nat) {
    forall i :: 0 <= i < |pairs| ==> PairDrawn(pairs[i], servers)
  }

  lemma {:induction false} CouplesDrawn(pairs: seq<Pair>, servers: nat)
    requires PairsDrawn(pairs, servers)
    ensures Drawn(Couples(pairs), SIZE_CONVO_EXCHANGE, servers)
  {
    if pairs != [] { CouplesDrawn(pairs[..|pairs| - 1], servers); }
  }

  // The two of a pair stand side by side.
  lemma {:induction false} CouplesAt(pairs: seq<Pair>, k: nat, servers: nat)
    requires PairsDrawn(pairs, servers) && k < |pairs|
    ensures Couples(pairs)[2 * k] == pairs[k].first
    ensures Couples(pairs)[2 * k + 1] == Paired(pairs[k].first, pairs[k].second)
  {
    if k < |pairs| - 1 { CouplesAt(pairs[..|pairs| - 1], k, servers); }
  }

  function SealAll(fakes: seq<Fake>, nonce: Nonce, keys: seq<Key>): (ws: seq<Wire>)
    requires forall i :: 0 <= i < |fakes| ==> |fakes[i].ephs| == |keys|
    ensures |ws| == |fakes|
  {
    seq(|fakes|, i requires 0 <= i < |fakes| => SealFake(fakes[i], nonce, keys))
  }

  method FillWithFakeSingles(dest: array<Wire>, hi: nat, nonce: Nonce, keys: seq<Key>, fakes: seq<Fake>)
    requires hi == |fakes| <= dest.Length
    requires Drawn(fakes, SIZE_CONVO_EXCHANGE, |keys|)
    modifies dest
    ensures dest[..hi] == SealAll(fakes, nonce, keys)
    ensures dest[hi..] == old(dest[hi..])
  {
    for i := 0 to hi
      invariant forall k :: 0 <= k < i ==> dest[k] == SealFake(fakes[k], nonce, keys)
      invariant dest[hi..] == old(dest[hi..])
    {
      var onion, _ := Seal(Plain(fakes[i].data), nonce, keys, fakes[i].ephs);
      dest[i] := onion;
    }
  }

  lemma CoupleStep(pairs: seq<Pair>, i: nat, nonce: Nonce, keys: seq<Key>)
    requires i < |pairs| && PairsDrawn(pairs, |keys|)
    ensures Drawn(Couples(pairs[..i]), SIZE_CONVO_EXCHANGE, |keys|)
    ensures Drawn(Couples(pairs[..i + 1]), SIZE_CONVO_EXCHANGE, |keys|)
    ensures SealAll(Couples(pairs[..i + 1]), nonce, keys) == SealAll(Couples(pairs[..i]), nonce, keys)
      + [SealFake(pairs[i].first, nonce, keys), SealFake(Paired(pairs[i].first, pairs[i].second), nonce, keys)]
  {
    CouplesDrawn(pairs[..i], |keys|);
    assert pairs[..i + 1][..i] == pairs[..i];
  }

  method FillPair(dest: array<Wire>, at: nat, nonce: Nonce, keys: seq<Key>, p: Pair)
    requires at + 1 < dest.Length && PairDrawn(p, |keys|)
    modifies dest
    ensures dest[at] == SealFake(p.first, nonce, keys)
    ensures dest[at + 1] == SealFake(Paired(p.first, p.second), nonce, keys)
    ensures forall k :: 0 <= k < dest.Length && k != at && k != at + 1 ==> dest[k] == old(dest[k])
  {
    var fake1, fake2 := p.first, Paired(p.first, p.second);
    var onion1, _ := Seal(Plain(fake1.data), nonce, keys, fake1.ephs);
    var onion2, _ := Seal(Plain(fake2.data), nonce, keys, fake2.ephs);
    dest[at] := onion1;
    dest[at + 1] := onion2;
  }

  // Fills dest[lo..]; the source passes an even number of slots.
  method FillWithFakeDoubles(dest: array<Wire>, lo: nat, nonce: Nonce, keys: seq<Key>, pairs: seq<Pair>)
    requires lo + 2 * |pairs| == dest.Length && PairsDrawn(pairs, |keys|)
    modifies dest
    ensures Drawn(Couples(pairs), SIZE_CONVO_EXCHANGE, |keys|)
    ensures dest[lo..] == SealAll(Couples(pairs), nonce, keys)
    ensures dest[..lo] == old(dest[..lo])
  {
    ghost var done: seq<Wire> := [];
    for i := 0 to |pairs|
      invariant Drawn(Couples(pairs[..i]), SIZE_CONVO_EXCHANGE, |keys|)
      invariant done == SealAll(Couples(pairs[..i]), nonce, keys)
      invariant forall k :: 0 <= k < 2 * i ==> dest[lo + k] == done[k]
      invariant forall k :: 0 <= k < lo ==> dest[k] == old(dest[k])
    {
      FillPair(dest, lo + 2 * i, nonce, keys, pairs[i]);
      CoupleStep(pairs, i, nonce, keys);
      done := SealAll(Couples(pairs[..i + 1]), nonce, keys);
    }
    assert pairs[..|pairs|] == pairs;
  }

  // --- Introductions -----------------------------------------------------------------

  const SIZE_INTRODUCTION := 4 + 32
  const SIZE_ENCRYPTED_INTRO := SIZE_INTRODUCTION + ONION_OVERHEAD
  const SIZE_DIAL_EXCHANGE := 4 + SIZE_ENCRYPTED_INTRO

  function Total(counts: seq<nat>): (n: nat) {
    if counts == [] then 0 else Total(counts[..|counts| - 1]) + counts[|counts| - 1]
  }

  // The bucket of each fake introduction: counts[0] times 0, counts[1] times 1, ...
  function BucketList(counts: seq<nat>): (bs: seq<nat>)
    ensures |bs| == Total(counts) && forall i :: 0 <= i < |bs| ==> bs[i] < |counts|
  {
    if counts == [] then [] else
      BucketList(counts[..|counts| - 1]) + seq(counts[|counts| - 1], _ => |counts| - 1)
  }

  // Random bytes behind a bucket number.
  function FakeIntros(counts: seq<nat>, fakes: seq<Fake>): (r: seq<Fake>)
    requires |fakes| == Total(counts) && |counts| <= 0x1_0000_0000
    ensures |r| == |fakes|
    ensures forall i :: 0 <= i < |r| ==>
      |r[i].data| == 4 + |fakes[i].data| && r[i].data[4..] == fakes[i].data && r[i].ephs == fakes[i].ephs
  {
    seq(|fakes|, i requires 0 <= i < |fakes| =>
      Fake(PutUint32(BucketList(counts)[i]) + fakes[i].data, fakes[i].ephs))
  }

  method FillWithFakeIntroductions(dest: array<Wire>, noiseCounts: seq<nat>, nonce: Nonce, keys: seq<Key>,
                                   fakes: seq<Fake>)
    requires dest.Length == |fakes| == Total(noiseCounts) && |noiseCounts| <= 0x1_0000_0000
    requires Drawn(fakes, SIZE_ENCRYPTED_INTRO, |keys|)
    modifies dest
    ensures dest[..] == SealAll(FakeIntros(noiseCounts, fakes), nonce, keys)
  {
    var buckets := new nat[dest.Length](_ => 0);
    FillBuckets(buckets, noiseCounts);
    for i := 0 to dest.Length
      invariant buckets[..] == BucketList(noiseCounts)
      invariant forall k :: 0 <= k < i ==> dest[k] == SealFake(FakeIntros(noiseCounts, fakes)[k], nonce, keys)
    {
      assert buckets[i] == buckets[..][i];
      var exchange := PutUint32(buckets[i]) + fakes[i].data;
      var onion, _ := Seal(Plain(exchange), nonce, keys, fakes[i].ephs);
      dest[i] := onion;
    }
  }

  method FillBuckets(buckets: array<nat>, noiseCounts: seq<nat>)
    requires buckets.Length == Total(noiseCounts)
    modifies buckets
    ensures buckets[..] == BucketList(noiseCounts)
  {
    var idx := 0;
    for b := 0 to |noiseCounts|
      invariant idx == Total(noiseCounts[..b]) <= buckets.Length
      invariant buckets[..idx] == BucketList(noiseCounts[..b])
    {
      var count := noiseCounts[b];
      assert noiseCounts[..b + 1][..b] == noiseCounts[..b];
      TotalMonotone(noiseCounts, b + 1);
      ghost var done := buckets[..idx];
      for i := 0 to count
        invariant idx == |done| + i && |done| == Total(noiseCounts[..b])
        invariant buckets[..idx] == done + seq(i, _ => b)
      {
        buckets[idx] := b;
        idx := idx + 1;
      }
    }
    assert noiseCounts[..|noiseCounts|] == noiseCounts;
  }

  lemma {:induction false} TotalMonotone(counts: seq<nat>, k: nat)
    requires k <= |counts|
    ensures Total(counts[..k]) <= Total(counts)
    decreases |counts|
  {
    if k < |counts| {
      var init := counts[..|counts| - 1];
      assert init[..k] == counts[..k];
      TotalMonotone(init, k);
    } else {
      assert counts[..k] == counts;
    }
  }
}
