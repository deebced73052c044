/** The shuffler (shuffle.go): in-place shuffle and unshuffle driven by numbers
    s[i] in [0, i], and the permutations they stand for. */
module Shuffling {

  // What NewShuffler produces.
  ghost predicate Shuffler(s: seq<nat>) {
    forall i :: 0 <= i < |s| ==> s[i] <= i
  }

  function Swap<T>(x: seq<T>, i: nat, j: nat): (y: seq<T>)
    requires i < |x| && j < |x|
    ensures |y| == |x|
  {
    seq(|x|, k requires 0 <= k < |x| => if k == i then x[j] else if k == j then x[i] else x[k])
  }

  // The first n iterations of Shuffle.
  function ShuffledTo<T>(s: seq<nat>, x: seq<T>, n: nat): (y: seq<T>)
    requires Shuffler(s) && n <= |x| <= |s|
    ensures |y| == |x|
    ensures forall k :: n <= k < |x| ==> y[k] == x[k]
  {
    if n == 0 then x else Swap(ShuffledTo(s, x, n - 1), n - 1, s[n - 1])
  }

  // The iterations n-1, ..., 0 of Unshuffle.
  function UnshuffledFrom<T>(s: seq<nat>, x: seq<T>, n: nat): (y: seq<T>)
    requires Shuffler(s) && n <= |x| <= |s|
    ensures |y| == |x|
    decreases n
  {
    if n == 0 then x else UnshuffledFrom(s, Swap(x, n - 1, s[n - 1]), n - 1)
  }

  function Shuffled<T>(s: seq<nat>, x: seq<T>): (y: seq<T>)
    requires Shuffler(s) && |x| <= |s|
    ensures |y| == |x|
  {
    ShuffledTo(s, x, |x|)
  }

  function Unshuffled<T>(s: seq<nat>, x: seq<T>): (y: seq<T>)
    requires Shuffler(s) && |x| <= |s|
    ensures |y| == |x|
  {
    UnshuffledFrom(s, x, |x|)
  }

  method Shuffle<T>(s: seq<nat>, x: array<T>)
    requires Shuffler(s) && x.Length <= |s|
    modifies x
    ensures x[..] == Shuffled(s, old(x[..]))
  {
    for i := 0 to x.Length
      invariant x[..] == ShuffledTo(s, old(x[..]), i)
    {
      var j := s[i];
      x[i], x[j] := x[j], x[i];
    }
  }

  method Unshuffle<T>(s: seq<nat>, x: array<T>)
    requires Shuffler(s) && x.Length <= |s|
    modifies x
    ensures x[..] == Unshuffled(s, old(x[..]))
  {
    var i := x.Length;
    while i > 0
      invariant 0 <= i <= x.Length
      invariant UnshuffledFrom(s, x[..], i) == Unshuffled(s, old(x[..]))
    {
      i := i - 1;
      var j := s[i];
      ghost var before := x[..];
      x[i], x[j] := x[j], x[i];
      assert x[..] == Swap(before, i, j);
    }
  }

  // --- Unshuffle is the exact inverse of Shuffle, both ways ------------------

  lemma {:induction false} UnshuffleUndoes<T>(s: seq<nat>, x: seq<T>, n: nat)
    requires Shuffler(s) && n <= |x| <= |s|
    ensures UnshuffledFrom(s, ShuffledTo(s, x, n), n) == x
  {
    if n > 0 {
      var y := ShuffledTo(s, x, n - 1);
      assert Swap(Swap(y, n - 1, s[n - 1]), n - 1, s[n - 1]) == y;
      UnshuffleUndoes(s, x, n - 1);
    }
  }

  lemma {:induction false} ShuffleUndoes<T>(s: seq<nat>, y: seq<T>, n: nat)
    requires Shuffler(s) && n <= |y| <= |s|
    ensures ShuffledTo(s, UnshuffledFrom(s, y, n), n) == y
    decreases n
  {
    if n > 0 {
      var z := Swap(y, n - 1, s[n - 1]);
      ShuffleUndoes(s, z, n - 1);
      assert Swap(z, n - 1, s[n - 1]) == y;
    }
  }

  lemma {:induction false} ShufflePreservesMultiset<T>(s: seq<nat>, x: seq<T>, n: nat)
    requires Shuffler(s) && n <= |x| <= |s|
    ensures multiset(ShuffledTo(s, x, n)) == multiset(x)
  {
    if n > 0 {
      ShufflePreservesMultiset(s, x, n - 1);
      SwapPreservesMultiset(ShuffledTo(s, x, n - 1), n - 1, s[n - 1]);
    }
  }

  lemma SwapPreservesMultiset<T>(x: seq<T>, i: nat, j: nat)
    requires i < |x| && j < |x|
    ensures multiset(Swap(x, i, j)) == multiset(x)
  {
    assert Swap(x, i, j) == x[i := x[j]][j := x[i]];
  }

  // --- A shuffler acts as a permutation of positions --------------------------

  function Iota(n: nat): (p: seq<nat>) { seq(n, i => i) }

  // Where each element of the shuffled sequence came from.
  function Perm(s: seq<nat>, n: nat): (p: seq<nat>)
    requires Shuffler(s) && n <= |s|
    ensures |p| == n
  {
    Shuffled(s, Iota(n))
  }

  ghost predicate Permutation(p: seq<nat>) {
    && (forall i :: 0 <= i < |p| ==> p[i] < |p|)
    && (forall i, j :: 0 <= i < j < |p| ==> p[i] != p[j])
  }

  lemma {:induction false} StaysPermutation(s: seq<nat>, size: nat, n: nat)
    requires Shuffler(s) && n <= size <= |s|
    ensures Permutation(ShuffledTo(s, Iota(size), n))
  {
    if n > 0 {
      StaysPermutation(s, size, n - 1);
      SwapStaysPermutation(ShuffledTo(s, Iota(size), n - 1), n - 1, s[n - 1]);
    }
  }

  lemma SwapStaysPermutation(p: seq<nat>, i: nat, j: nat)
    requires Permutation(p) && i < |p| && j < |p|
    ensures Permutation(Swap(p, i, j))
  {
  }

  lemma {:induction false} ActsByPosition<T>(s: seq<nat>, x: seq<T>, n: nat, k: nat)
    requires Shuffler(s) && n <= |x| <= |s| && k < |x|
    ensures 0 <= ShuffledTo(s, Iota(|x|), n)[k] < |x|
    ensures ShuffledTo(s, x, n)[k] == x[ShuffledTo(s, Iota(|x|), n)[k]]
  {
    if n > 0 {
      ActsByPosition(s, x, n - 1,
        if k == n - 1 then s[n - 1] else if k == s[n - 1] then n - 1 else k);
    }
  }

  // Shuffling moves the element at position Perm[k] to k, whatever the elements
  // are; unshuffling any other sequence of that length moves k back to Perm[k].
  lemma ShuffleIsPermutation<T, U>(s: seq<nat>, x: seq<T>, y: seq<U>)
    requires Shuffler(s) && |x| == |y| <= |s|
    ensures Permutation(Perm(s, |x|))
    ensures forall k :: 0 <= k < |x| ==> Shuffled(s, x)[k] == x[Perm(s, |x|)[k]]
    ensures forall k :: 0 <= k < |y| ==> Unshuffled(s, y)[Perm(s, |y|)[k]] == y[k]
  {
    StaysPermutation(s, |x|, |x|);
    var z := Unshuffled(s, y);
    ShuffleUndoes(s, y, |y|);
    forall k | 0 <= k < |x|
      ensures Shuffled(s, x)[k] == x[Perm(s, |x|)[k]] && y[k] == z[Perm(s, |y|)[k]]
    {
      ActsByPosition(s, x, |x|, k);
      ActsByPosition(s, z, |z|, k);
    }
  }

  // Every position is hit.
  lemma PermutationOnto(p: seq<nat>, v: nat) returns (k: nat)
    requires Permutation(p) && v < |p|
    ensures k < |p| && p[k] == v
  {
    if v in p {
      k :| 0 <= k < |p| && p[k] == v;
    } else {
      var hit := set i | 0 <= i < |p| :: p[i];
      DistinctImage(p, |p|);
      assert (set i | 0 <= i < |p| :: p[..|p|][i]) == hit;
      assert hit <= Range(|p|) - {v};
      CardinalityMonotone(hit, Range(|p|) - {v});
      assert false;
    }
  }

  lemma {:induction false} DistinctImage(p: seq<nat>, n: nat)
    requires n <= |p| && forall i, j :: 0 <= i < j < n ==> p[i] != p[j]
    ensures |set i | 0 <= i < n :: p[i]| == n
  {
    if n > 0 {
      DistinctImage(p, n - 1);
      assert (set i | 0 <= i < n :: p[i]) == (set i | 0 <= i < n - 1 :: p[i]) + {p[n - 1]};
    }
  }

  function Range(n: nat): (r: set<nat>)
    ensures |r| == n && forall i: nat :: i in r <==> i < n
  {
    if n == 0 then {} else Range(n - 1) + {n - 1}
  }

  lemma {:induction false} CardinalityMonotone<T>(a: set<T>, b: set<T>)
    requires a <= b
    ensures |a| <= |b|
  {
    if a != {} {
      var x :| x in a;
      CardinalityMonotone(a - {x}, b - {x});
    }
  }

  // --- Shufflers and permutations correspond one to one ------------------------

  // Equal permutations come from equal shufflers.
  lemma {:induction false} ShufflerInjective(s: seq<nat>, t: seq<nat>, size: nat, n: nat)
    requires Shuffler(s) && Shuffler(t) && n <= size == |s| == |t|
    requires ShuffledTo(s, Iota(size), n) == ShuffledTo(t, Iota(size), n)
    ensures s[..n] == t[..n]
  {
    if n > 0 {
      var a, b := ShuffledTo(s, Iota(size), n - 1), ShuffledTo(t, Iota(size), n - 1);
      StaysPermutation(s, size, n);
      SwapsAgree(a, b, n - 1, s[n - 1], t[n - 1]);
      ShufflerInjective(s, t, size, n - 1);
      assert s[..n] == s[..n - 1] + [s[n - 1]] && t[..n] == t[..n - 1] + [t[n - 1]];
    }
  }

  lemma SwapsAgree(a: seq<nat>, b: seq<nat>, n: nat, i: nat, j: nat)
    requires |a| == |b| && i <= n < |a| && j <= n && a[n] == b[n] == n
    requires Permutation(Swap(a, n, i)) && Swap(a, n, i) == Swap(b, n, j)
    ensures i == j && a == b
  {
    assert Swap(a, n, i)[i] == n && Swap(b, n, j)[j] == n;
    assert a == Swap(Swap(a, n, i), n, i) && b == Swap(Swap(b, n, j), n, j);
  }

  // Every permutation that leaves the positions from n on alone comes from n swaps.
  lemma {:induction false} ShufflerFor(p: seq<nat>, n: nat) returns (s: seq<nat>)
    requires Permutation(p) && n <= |p| && forall k :: n <= k < |p| ==> p[k] == k
    ensures |s| == |p| && Shuffler(s) && ShuffledTo(s, Iota(|p|), n) == p
    decreases n
  {
    if n == 0 {
      s := Iota(|p|);
      assert p == Iota(|p|);
    } else {
      var j := PermutationOnto(p, n - 1);
      var q := Swap(p, n - 1, j);
      var t := ShufflerFor(q, n - 1);
      s := t[n - 1 := j];
      SamePrefix(s, t, Iota(|p|), n - 1);
      assert Swap(q, n - 1, j) == p;
    }
  }

  lemma {:induction false} SamePrefix<T>(s: seq<nat>, t: seq<nat>, x: seq<T>, n: nat)
    requires Shuffler(s) && Shuffler(t) && n <= |x| <= |s| && |s| == |t|
    requires forall i :: 0 <= i < n ==> s[i] == t[i]
    ensures ShuffledTo(s, x, n) == ShuffledTo(t, x, n)
  {
    if n > 0 { SamePrefix(s, t, x, n - 1); }
  }

  // The shufflers of length n map one-to-one onto the permutations of n positions.
  lemma ShufflersArePermutations(n: nat)
    ensures forall s: seq<nat> :: Shuffler(s) && |s| == n ==> Permutation(Perm(s, n))
    ensures forall s: seq<nat>, t: seq<nat> ::
      Shuffler(s) && Shuffler(t) && |s| == |t| == n && Perm(s, n) == Perm(t, n) ==> s == t
    ensures forall p: seq<nat> :: Permutation(p) && |p| == n ==>
      exists s: seq<nat> :: Shuffler(s) && |s| == n && Perm(s, n) == p
  {
    forall s: seq<nat> | Shuffler(s) && |s| == n
      ensures Permutation(Perm(s, n))
    {
      StaysPermutation(s, n, n);
    }
    forall s: seq<nat>, t: seq<nat> |
      Shuffler(s) && Shuffler(t) && |s| == |t| == n && Perm(s, n) == Perm(t, n)
      ensures s == t
    {
      ShufflerInjective(s, t, n, n);
      assert s[..n] == s && t[..n] == t;
    }
    forall p: seq<nat> | Permutation(p) && |p| == n
      ensures exists s: seq<nat> :: Shuffler(s) && |s| == n && Perm(s, n) == p
    {
      var s := ShufflerFor(p, n);
      assert Perm(s, n) == p;
    }
  }

  // The last swap: the last element goes where its number says, and the one that was there
  // becomes the last.
  lemma LastSwap<T>(s: seq<nat>, x: seq<T>)
    requires Shuffler(s) && |s| == |x| > 0
    ensures var n, before := |x| - 1, Shuffled(s[..|x| - 1], x[..|x| - 1]);
      && Shuffled(s, x)[s[n]] == x[n]
      && (s[n] < n ==> Shuffled(s, x)[n] == before[s[n]])
      && forall k :: 0 <= k < n && k != s[n] ==> Shuffled(s, x)[k] == before[k]
  {
    var n := |x| - 1;
    PrefixShuffled(s, x, n);
  }

  // Shuffling a prefix leaves the rest alone.
  lemma {:induction false} PrefixShuffled<T>(s: seq<nat>, x: seq<T>, n: nat)
    requires Shuffler(s) && n <= |x| <= |s|
    ensures ShuffledTo(s, x, n) == Shuffled(s[..n], x[..n]) + x[n..]
  {
    PrefixShuffledTo(s, x, n, n);
  }

  lemma {:induction false} PrefixShuffledTo<T>(s: seq<nat>, x: seq<T>, n: nat, k: nat)
    requires Shuffler(s) && k <= n <= |x| <= |s|
    ensures ShuffledTo(s, x, k) == ShuffledTo(s[..n], x[..n], k) + x[n..]
  {
    if k > 0 { PrefixShuffledTo(s, x, n, k - 1); }
  }
}
