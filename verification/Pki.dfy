/** The public key infrastructure: the order of the servers, their keys, and the
    onion sizes that follow from a server's place in the order. */
module Pki {
  import opened Boxes
  import opened Onions

  datatype PKI = PKI(order: seq<string>, servers: map<string, Key>)

  // What ReadPKI enforces.
  ghost predicate Listed(pki: PKI) {
    pki.order != [] && forall s :: s in pki.order ==> s in pki.servers
  }

  // A deployable order: no server is listed twice.
  ghost predicate Valid(pki: PKI) {
    && Listed(pki)
    && (forall i, j :: 0 <= i < j < |pki.order| ==> pki.order[i] != pki.order[j])
  }

  // The first position of a name; the last position for an unknown name.
  function IndexOf(order: seq<string>, name: string): (i: nat)
    ensures order != [] ==> i < |order|
  {
    if |order| <= 1 || order[0] == name then 0 else 1 + IndexOf(order[1..], name)
  }

  // The position is that of the name, and the first such, exactly for a listed name; an
  // unknown name gets the last position, without any error.
  lemma {:induction false} IndexExact(order: seq<string>, name: string)
    requires order != []
    ensures order[IndexOf(order, name)] == name <==> name in order
    ensures forall i :: 0 <= i < IndexOf(order, name) ==> order[i] != name
    ensures name !in order ==> IndexOf(order, name) == |order| - 1
  {
    if |order| > 1 && order[0] != name {
      IndexExact(order[1..], name);
      assert order == [order[0]] + order[1..];
    }
  }

  method Index(pki: PKI, serverName: string) returns (i: nat)
    ensures i == IndexOf(pki.order, serverName)
    ensures serverName in pki.order ==>
      i < |pki.order| && pki.order[i] == serverName && serverName !in pki.order[..i]
    ensures serverName !in pki.order ==> i == if pki.order == [] then 0 else |pki.order| - 1
  {
    i := 0;
    if pki.order != [] { IndexExact(pki.order, serverName); }
    while i < |pki.order|
      invariant i <= |pki.order| && serverName !in pki.order[..i]
    {
      if pki.order[i] == serverName { return; }
      i := i + 1;
    }
    if i > 0 { i := i - 1; }
  }

  lemma IndexOfServer(order: seq<string>, k: nat)
    requires k < |order| && forall i :: 0 <= i < k ==> order[i] != order[k]
    ensures IndexOf(order, order[k]) == k
  {
    IndexExact(order, order[k]);
  }

  function Keys(pki: PKI): (keys: seq<Key>)
    requires Listed(pki)
    ensures |keys| == |pki.order| && keys != []
  {
    seq(|pki.order|, i requires 0 <= i < |pki.order| => pki.servers[pki.order[i]])
  }

  method ServerKeys(pki: PKI) returns (keys: seq<Key>)
    requires Listed(pki)
    ensures keys == Keys(pki)
  {
    keys := [];
    for i := 0 to |pki.order|
      invariant keys == Keys(pki)[..i]
    {
      keys := keys + [pki.servers[pki.order[i]]];
    }
  }

  // The keys of a server and of those after it.
  function KeysFrom(pki: PKI, name: string): (keys: seq<Key>)
    requires Listed(pki)
    ensures keys != [] && |keys| == |pki.order| - IndexOf(pki.order, name)
  {
    Keys(pki)[IndexOf(pki.order, name)..]
  }

  // The keys from a listed server on start with that server's own.
  lemma OwnKey(pki: PKI, name: string)
    requires Listed(pki) && name in pki.order
    ensures KeysFrom(pki, name)[0] == pki.servers[name]
  {
    IndexExact(pki.order, name);
  }

  method NextServerKeys(pki: PKI, serverName: string) returns (keys: seq<Key>)
    requires Listed(pki)
    ensures keys == KeysFrom(pki, serverName)[1..]
  {
    var i := Index(pki, serverName);
    keys := [];
    for k := i + 1 to |pki.order|
      invariant keys == Keys(pki)[i + 1..k]
    {
      keys := keys + [pki.servers[pki.order[k]]];
    }
  }

  function IncomingOnionOverhead(pki: PKI, name: string): (n: nat)
    requires pki.order != []
  {
    (|pki.order| - IndexOf(pki.order, name)) * ONION_OVERHEAD
  }

  function OutgoingOnionOverhead(pki: PKI, name: string): (n: nat)
    requires pki.order != []
  {
    (|pki.order| - IndexOf(pki.order, name)) * BOX_OVERHEAD
  }

  // Sizes telescope along the chain: an onion sealed for the servers after
  // server k has the size server k+1 expects, a message peeled by server k has
  // it too, and a reply sealed by server k+1 grows by one box at server k.
  lemma SizesTelescope(c: Cipher, pki: PKI, k: nat, message: Wire, nonce: Nonce, ephs: seq<Key>, onion: Wire)
    requires Valid(pki) && k + 1 < |pki.order| && |ephs| == |KeysFrom(pki, pki.order[k])| - 1
    ensures KeysFrom(pki, pki.order[k])[1..] == KeysFrom(pki, pki.order[k + 1])
    ensures Len(Layered(message, nonce, KeysFrom(pki, pki.order[k])[1..], ephs))
         == IncomingOnionOverhead(pki, pki.order[k + 1]) + Len(message)
    ensures SlotBody(c, KeysFrom(pki, pki.order[k]), nonce, Len(message), onion).Some? ==>
      Len(SlotBody(c, KeysFrom(pki, pki.order[k]), nonce, Len(message), onion).value)
        == IncomingOnionOverhead(pki, pki.order[k + 1]) + Len(message)
    ensures OutgoingOnionOverhead(pki, pki.order[k])
         == OutgoingOnionOverhead(pki, pki.order[k + 1]) + BOX_OVERHEAD
  {
    IndexOfServer(pki.order, k);
    IndexOfServer(pki.order, k + 1);
  }
}
