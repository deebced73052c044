/** Layered onions (onionbox): sealing for a list of servers, peeling one layer
    at a server, and the reply layers that the client opens again. */
module Onions {
  import opened Bytes
  import opened Boxes

  const ONION_OVERHEAD := 32 + BOX_OVERHEAD

  // The onion Seal builds when it draws the key pairs `ephs`, outermost first.
  function Layered(message: Wire, nonce: Nonce, keys: seq<Key>, ephs: seq<Key>): (onion: Wire)
    requires |keys| == |ephs|
    ensures Len(onion) == Len(message) + |keys| * ONION_OVERHEAD
    decreases |keys|
  {
    if keys == [] then message else
      Cat(ephs[0], Sealed(Shared({keys[0], ephs[0]}), nonce,
                          Layered(message, nonce, keys[1..], ephs[1..])))
  }

  function Agreed(keys: seq<Key>, ephs: seq<Key>): (sks: seq<SharedKey>)
    requires |keys| == |ephs|
  {
    seq(|keys|, i requires 0 <= i < |keys| => Shared({keys[i], ephs[i]}))
  }

  method Seal(message: Wire, nonce: Nonce, publicKeys: seq<Key>, ephs: seq<Key>)
    returns (onion: Wire, sharedKeys: seq<SharedKey>)
    requires |publicKeys| == |ephs|
    ensures onion == Layered(message, nonce, publicKeys, ephs)
    ensures sharedKeys == Agreed(publicKeys, ephs)
  {
    onion := message;
    var keys := new SharedKey[|publicKeys|](_ => ZeroKey);
    var i := |publicKeys|;
    while i > 0
      invariant 0 <= i <= |publicKeys|
      invariant onion == Layered(message, nonce, publicKeys[i..], ephs[i..])
      invariant forall k :: i <= k < |publicKeys| ==> keys[k] == Shared({publicKeys[k], ephs[k]})
    {
      i := i - 1;
      keys[i] := Shared({publicKeys[i], ephs[i]});
      onion := Cat(ephs[i], Sealed(keys[i], nonce, onion));
      assert publicKeys[i..][1..] == publicKeys[i + 1..] && ephs[i..][1..] == ephs[i + 1..];
    }
    assert publicKeys[0..] == publicKeys && ephs[0..] == ephs;
    sharedKeys := keys[..];
  }

  function Unwrapped(onion: Wire, nonce: Nonce, sharedKeys: seq<SharedKey>): (r: Option<Wire>)
    decreases |sharedKeys|
  {
    if sharedKeys == [] then Some(onion) else
    match OpenBox(sharedKeys[0], nonce, onion)
    case None => None
    case Some(inner) => Unwrapped(inner, nonce, sharedKeys[1..])
  }

  method Open(onion: Wire, nonce: Nonce, sharedKeys: seq<SharedKey>) returns (r: Option<Wire>)
    ensures r == Unwrapped(onion, nonce, sharedKeys)
  {
    var message := onion;
    for i := 0 to |sharedKeys|
      invariant Unwrapped(message, nonce, sharedKeys[i..]) == Unwrapped(onion, nonce, sharedKeys)
    {
      assert sharedKeys[i..][1..] == sharedKeys[i + 1..];
      var inner := OpenBox(sharedKeys[i], nonce, message);
      if inner.None? { return None; }
      message := inner.value;
    }
    r := Some(message);
  }

  // Every layer that opens takes one box of overhead off.
  lemma {:induction false} UnwrappedSize(onion: Wire, nonce: Nonce, sharedKeys: seq<SharedKey>)
    requires Unwrapped(onion, nonce, sharedKeys).Some?
    ensures Len(onion) == Len(Unwrapped(onion, nonce, sharedKeys).value) + |sharedKeys| * BOX_OVERHEAD
    decreases |sharedKeys|
  {
    if sharedKeys != [] {
      UnwrappedSize(OpenBox(sharedKeys[0], nonce, onion).value, nonce, sharedKeys[1..]);
    }
  }

  // --- A server's view of one slot -----------------------------------------

  // The key a server derives for a slot; all zero when the size is wrong.
  function SlotKey(c: Cipher, keys: seq<Key>, payload: nat, w: Wire): SharedKey
    requires keys != []
  {
    if Len(w) == |keys| * ONION_OVERHEAD + payload
    then Shared({Render(c, w)[..32], keys[0]}) else ZeroKey
  }

  // The message a server recovers for a slot, if the onion is well formed.
  // `keys` are the keys of this server and of all servers after it.
  function SlotBody(c: Cipher, keys: seq<Key>, nonce: Nonce, payload: nat, w: Wire): (r: Option<Wire>)
    requires keys != []
    ensures r.Some? ==> Len(r.value) == (|keys| - 1) * ONION_OVERHEAD + payload
  {
    if Len(w) == |keys| * ONION_OVERHEAD + payload
    then OpenBox(SlotKey(c, keys, payload, w), nonce, Suffix(c, w, 32)) else None
  }

  // What is left of an onion after every server in `keys` has peeled it, and
  // the keys those servers used, first server first.
  datatype Core = Core(sharedKeys: seq<SharedKey>, message: Wire)

  function Peeled(c: Cipher, keys: seq<Key>, nonce: Nonce, payload: nat, w: Wire): (r: Option<Core>)
    decreases |keys|
  {
    if keys == [] then Some(Core([], w)) else
    match SlotBody(c, keys, nonce, payload, w)
    case None => None
    case Some(body) =>
      match Peeled(c, keys[1..], nonce, payload, body)
      case None => None
      case Some(core) => Some(Core([SlotKey(c, keys, payload, w)] + core.sharedKeys, core.message))
  }

  // Peeling inverts Seal at every server of the chain, and each server derives
  // the very key that Seal returned to the client.
  lemma {:induction false} PeelingInvertsSeal(
    c: Cipher, keys: seq<Key>, ephs: seq<Key>, nonce: Nonce, payload: nat, message: Wire)
    requires |keys| == |ephs| && Len(message) == payload
    ensures Peeled(c, keys, nonce, payload, Layered(message, nonce, keys, ephs))
         == Some(Core(Agreed(keys, ephs), message))
    decreases |keys|
  {
    if keys == [] {
      assert Agreed(keys, ephs) == [];
    } else {
      var w := Layered(message, nonce, keys, ephs);
      assert Render(c, w)[..32] == ephs[0] && Suffix(c, w, 32) == w.tail;
      assert {ephs[0], keys[0]} == {keys[0], ephs[0]};
      PeelingInvertsSeal(c, keys[1..], ephs[1..], nonce, payload, message);
      assert Agreed(keys, ephs) == [Shared({keys[0], ephs[0]})] + Agreed(keys[1..], ephs[1..]);
    }
  }

  // Reply layers: the last server seals first, the first server last.
  function Wrapped(reply: Wire, nonce: Nonce, sks: seq<SharedKey>): (w: Wire)
    ensures Len(w) == Len(reply) + |sks| * BOX_OVERHEAD
  {
    if sks == [] then reply else Sealed(sks[0], nonce, Wrapped(reply, nonce, sks[1..]))
  }

  lemma {:induction false} OpenInvertsReplyLayers(reply: Wire, nonce: Nonce, sks: seq<SharedKey>)
    ensures Unwrapped(Wrapped(reply, nonce, sks), nonce, sks) == Some(reply)
  {
    if sks != [] { OpenInvertsReplyLayers(reply, nonce, sks[1..]); }
  }

  // A box opens with its own key and nonce and with no other.
  lemma OpensOnlyWithItsKey(k: SharedKey, nonce: Nonce, k': SharedKey, nonce': Nonce, body: Wire)
    ensures OpenBox(k, nonce, Sealed(k', nonce', body)) == if k == k' && nonce == nonce' then Some(body) else None
  {
  }

  // An onion sealed for another server stays shut.
  lemma OtherServerStaysShut(c: Cipher, keys: seq<Key>, ephs: seq<Key>, nonce: Nonce, payload: nat, message: Wire,
                             key: Key)
    requires keys != [] && |keys| == |ephs| && key != keys[0] && key != ephs[0]
    ensures SlotBody(c, [key] + keys[1..], nonce, payload, Layered(message, nonce, keys, ephs)).None?
  {
    var w := Layered(message, nonce, keys, ephs);
    assert Render(c, w)[..32] == ephs[0] && Suffix(c, w, 32) == w.tail;
    assert key in {ephs[0], key} && key !in {keys[0], ephs[0]};
  }
}
