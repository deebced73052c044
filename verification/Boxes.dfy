/** Messages on the wire, with NaCl boxes kept symbolic: a sealed box is a node
    that remembers its key, nonce and plaintext, so that opening it is exact.
    What the ciphertext looks like as bytes is a parameter, a `Cipher`. */
module Boxes {
  import opened Bytes

  type Key = k: seq<byte> | |k| == 32 witness Zeros(32)
  type Nonce = n: seq<byte> | |n| == 24 witness Zeros(24)

  // box.Precompute of one side's public and the other side's private key. Both
  // sides compute the same value, so it is the unordered pair of identities.
  datatype SharedKey = ZeroKey | Shared(ends: set<Key>)

  datatype Wire =
    | Plain(data: seq<byte>)
    | Sealed(key: SharedKey, nonce: Nonce, body: Wire)
    | Cat(head: seq<byte>, tail: Wire)

  const BOX_OVERHEAD := 16

  function Len(w: Wire): nat {
    match w
    case Plain(data) => |data|
    case Sealed(_, _, body) => Len(body) + BOX_OVERHEAD
    case Cat(head, tail) => |head| + Len(tail)
  }

  ghost predicate Sized(f: (SharedKey, Nonce, Wire) -> seq<byte>) {
    forall k, n, b :: |f(k, n, b)| == Len(b) + BOX_OVERHEAD
  }

  type Cipher = f: (SharedKey, Nonce, Wire) -> seq<byte> | Sized(f)
    ghost witness (k: SharedKey, n: Nonce, b: Wire) => Zeros(Len(b) + BOX_OVERHEAD)

  function Render(c: Cipher, w: Wire): (s: seq<byte>)
    ensures |s| == Len(w)
  {
    match w
    case Plain(data) => data
    case Sealed(k, n, b) => c(k, n, b)
    case Cat(head, tail) => head + Render(c, tail)
  }

  // w[n:]
  function Suffix(c: Cipher, w: Wire, n: nat): (r: Wire)
    requires n <= Len(w)
    ensures Render(c, r) == Render(c, w)[n..]
  {
    if n == 0 then w else
    match w
    case Plain(data) => Plain(data[n..])
    case Sealed(k, nonce, b) => Plain(c(k, nonce, b)[n..])
    case Cat(head, tail) =>
      if n < |head| then Cat(head[n..], tail) else Suffix(c, tail, n - |head|)
  }

  // box.OpenAfterPrecomputation
  function OpenBox(k: SharedKey, nonce: Nonce, w: Wire): (r: Option<Wire>)
    ensures r.Some? ==> Len(r.value) + BOX_OVERHEAD == Len(w)
  {
    match w
    case Plain(_) => None
    case Sealed(k', nonce', body) => if k == k' && nonce == nonce' then Some(body) else None
    case Cat(head, tail) => if head == [] then OpenBox(k, nonce, tail) else None
  }

  // The two nonces of a round.
  function ForwardNonce(round: uint32): Nonce { PutUint32(round) + [0] + Zeros(19) }
  function BackwardNonce(round: uint32): Nonce { PutUint32(round) + [1] + Zeros(19) }

  // The round in four bytes, highest first, then the direction, then zeros.
  lemma NonceBytes(round: uint32, k: nat)
    requires 4 < k < 24
    ensures BigEndian(ForwardNonce(round)[..4]) == BigEndian(BackwardNonce(round)[..4]) == round
    ensures ForwardNonce(round)[4] == 0 && BackwardNonce(round)[4] == 1
    ensures ForwardNonce(round)[k] == BackwardNonce(round)[k] == 0
  {
    assert ForwardNonce(round)[..4] == PutUint32(round) == BackwardNonce(round)[..4];
    PutUint32RoundTrip(round);
  }

  // No request or reply nonce is ever used for two purposes.
  lemma NoncesDistinct(r: uint32, r': uint32)
    ensures ForwardNonce(r) != BackwardNonce(r')
    ensures r != r' ==> ForwardNonce(r) != ForwardNonce(r')
    ensures r != r' ==> BackwardNonce(r) != BackwardNonce(r')
  {
    assert ForwardNonce(r)[4] == 0 && BackwardNonce(r')[4] == 1;
    if r != r' {
      if PutUint32(r) == PutUint32(r') { PutUint32Injective(r, r'); }
      assert ForwardNonce(r)[..4] == PutUint32(r) && ForwardNonce(r')[..4] == PutUint32(r');
      assert BackwardNonce(r)[..4] == PutUint32(r) && BackwardNonce(r')[..4] == PutUint32(r');
    }
  }
}
