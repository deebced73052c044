/** The buffered random source (rand/salsa20rand.go): a keystream read block by
    block, handed out in pieces of any size. */
module Keystream {
  import opened Bytes

  const BLOCK := 16 * 1024
  const NONCES := 0x1_0000_0000_0000_0000
  type uint64 = x: int | 0 <= x < NONCES

  ghost predicate Blocks(f: uint64 -> seq<byte>) {
    forall k :: |f(k)| == BLOCK
  }

  // What XORKeyStream makes of a block of zeroes under each nonce.
  type KeyStream = f: uint64 -> seq<byte> | Blocks(f) ghost witness (k: uint64) => Zeros(BLOCK)

  // Byte p of the stream of blocks 0, 1, 2, ... The nonce is a 64-bit counter.
  function Stream(ks: KeyStream, p: nat): byte {
    ks(p / BLOCK % NONCES)[p % BLOCK]
  }

  function Segment(ks: KeyStream, p: nat, n: nat): (s: seq<byte>)
    ensures |s| == n
  {
    seq<byte>(n, (i: nat) => Stream(ks, p + i))
  }

  lemma StreamAt(ks: KeyStream, b: nat, o: nat)
    requires o < BLOCK
    ensures Stream(ks, b * BLOCK + o) == ks(b % NONCES)[o]
  {
    assert (b * BLOCK + o) / BLOCK == b && (b * BLOCK + o) % BLOCK == o;
  }

  // Two stream positions show the same byte of the same block exactly when they are
  // a multiple of the whole nonce range apart: until the nonce wraps, no byte of the
  // keystream is handed out twice.
  lemma ReuseExactlyAfterWrap(p: nat, q: nat)
    ensures (p / BLOCK % NONCES, p % BLOCK) == (q / BLOCK % NONCES, q % BLOCK)
      <==> p % (BLOCK * NONCES) == q % (BLOCK * NONCES)
    ensures p < q < BLOCK * NONCES ==> (p / BLOCK % NONCES, p % BLOCK) != (q / BLOCK % NONCES, q % BLOCK)
  {
    CellOf(p);
    CellOf(q);
  }

  lemma CellOf(p: nat)
    ensures p % (BLOCK * NONCES) == BLOCK * (p / BLOCK % NONCES) + p % BLOCK
  {
    var b, o := p / BLOCK, p % BLOCK;
    var w, k := b / NONCES, b % NONCES;
    assert p == BLOCK * b + o && b == NONCES * w + k;
    assert p == (BLOCK * NONCES) * w + (BLOCK * k + o);
  }

  class Salsa20Rand {
    const ks: KeyStream
    var buffer: array<byte>
    var bufferOffset: nat
    var nonce: uint64
    ghost var fills: nat

    ghost predicate Valid()
      reads this, buffer
    {
      && buffer.Length == BLOCK && bufferOffset <= BLOCK && fills > 0
      && nonce == fills % NONCES && buffer[..] == ks((fills - 1) % NONCES)
    }

    // How much of the stream has been handed out.
    ghost function Position(): nat
      reads this, buffer
      requires Valid()
    {
      (fills - 1) * BLOCK + bufferOffset
    }

    constructor (ks: KeyStream)
      ensures Valid() && fresh(buffer) && Position() == 0 && this.ks == ks
    {
      this.ks := ks;
      buffer := new byte[BLOCK](_ => 0);
      bufferOffset, nonce, fills := BLOCK, 0, 0;
      new;
      Fill();
    }

    method Fill()
      requires buffer.Length == BLOCK && nonce == fills % NONCES
      modifies this, buffer
      ensures Valid() && buffer == old(buffer) && bufferOffset == 0 && fills == old(fills) + 1
    {
      var block := ks(nonce);
      nonce := if nonce + 1 == NONCES then 0 else nonce + 1;
      fills := fills + 1;
      forall i | 0 <= i < BLOCK { buffer[i] := block[i]; }
      bufferOffset := 0;
    }

    // Fills d with the next bytes of the stream, for any length of d.
    method Read(d: array<byte>) returns (n: nat)
      requires Valid() && d != buffer
      modifies this, buffer, d
      ensures Valid() && buffer == old(buffer) && n == d.Length
      ensures d[..] == Segment(ks, old(Position()), d.Length)
      ensures Position() == old(Position()) + d.Length
    {
      n := 0;
      while n < d.Length
        invariant n <= d.Length && Valid() && buffer == old(buffer)
        invariant Position() == old(Position()) + n
        invariant Shows(d[..n], old(Position()))
      {
        n := ReadSome(d, n, old(Position()));
      }
      assert d[..n] == d[..];
    }

    ghost predicate Shows(s: seq<byte>, start: nat) {
      forall i :: 0 <= i < |s| ==> s[i] == Stream(ks, start + i)
    }

    // Loads the next block when the buffer is used up.
    method Refill()
      requires Valid()
      modifies this, buffer
      ensures Valid() && buffer == old(buffer) && bufferOffset < BLOCK && Position() == old(Position())
    {
      if bufferOffset == BLOCK { Fill(); }
    }

    // One turn of the loop: refills the buffer when it is used up, and copies what fits.
    method ReadSome(d: array<byte>, n: nat, ghost start: nat) returns (n': nat)
      requires Valid() && d != buffer && n < d.Length && Position() == start + n && Shows(d[..n], start)
      modifies this, buffer, d
      ensures Valid() && buffer == old(buffer) && n < n' <= d.Length
      ensures Position() == start + n' && Shows(d[..n'], start)
    {
      Refill();
      var m := if d.Length - n < BLOCK - bufferOffset then d.Length - n else BLOCK - bufferOffset;
      CopyOut(d, n, m, start);
      bufferOffset := bufferOffset + m;
      n' := n + m;
    }

    method CopyOut(d: array<byte>, at: nat, m: nat, ghost start: nat)
      requires Valid() && d != buffer && at + m <= d.Length && bufferOffset + m <= BLOCK
      requires Position() == start + at && Shows(d[..at], start)
      modifies d
      ensures Valid() && Position() == start + at && Shows(d[..at + m], start)
    {
      forall i | at <= i < at + m { d[i] := buffer[bufferOffset + (i - at)]; }
      forall i | 0 <= i < at + m ensures d[i] == Stream(ks, start + i) {
        if i < at {
          assert d[i] == old(d[..at])[i];
        } else {
          StreamAt(ks, fills - 1, bufferOffset + (i - at));
          assert buffer[..][bufferOffset + (i - at)] == d[i];
        }
      }
    }

    function Total(sizes: seq<nat>): nat {
      if sizes == [] then 0 else Total(sizes[..|sizes| - 1]) + sizes[|sizes| - 1]
    }

    // Reads of any sizes, one after the other, yield one unbroken piece of the stream.
    method ReadAll(sizes: seq<nat>) returns (out: seq<byte>)
      requires Valid()
      modifies this, buffer
      ensures Valid() && buffer == old(buffer)
      ensures out == Segment(ks, old(Position()), Total(sizes))
      ensures Position() == old(Position()) + Total(sizes)
    {
      out := [];
      for k := 0 to |sizes|
        invariant Valid() && buffer == old(buffer)
        invariant Position() == old(Position()) + Total(sizes[..k])
        invariant out == Segment(ks, old(Position()), Total(sizes[..k]))
      {
        var d := new byte[sizes[k]](_ => 0);
        var _ := Read(d);
        assert sizes[..k + 1][..k] == sizes[..k];
        out := out + d[..];
      }
      assert sizes[..|sizes|] == sizes;
    }
  }
}
