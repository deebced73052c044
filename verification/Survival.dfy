/** Batches up to order: what a filter keeps of a batch depends only on the batch
    as a multiset. */
module Survival {
  import opened Bytes
  import opened Dedup

  // The results f has on the elements of a batch, in order, without the failures.
  function Survivors<T, U>(f: T -> Option<U>, xs: seq<T>): (ys: seq<U>) {
    if xs == [] then [] else
      var rest := Survivors(f, xs[..|xs| - 1]);
      match f(xs[|xs| - 1]) case None => rest case Some(y) => rest + [y]
  }

  function Then<T, U, V>(f: T -> Option<U>, g: U -> Option<V>): (h: T -> Option<V>) {
    (t: T) => match f(t) case None => None case Some(u) => g(u)
  }

  lemma {:induction false} SurvivorsConcat<T, U>(f: T -> Option<U>, a: seq<T>, b: seq<T>)
    ensures Survivors(f, a + b) == Survivors(f, a) + Survivors(f, b)
  {
    if b == [] {
      assert a + b == a;
    } else {
      SurvivorsConcat(f, a, b[..|b| - 1]);
      assert (a + b)[..|a + b| - 1] == a + b[..|b| - 1];
    }
  }

  lemma {:induction false} SurvivorsThen<T, U, V>(f: T -> Option<U>, g: U -> Option<V>, xs: seq<T>)
    ensures Survivors(g, Survivors(f, xs)) == Survivors(Then(f, g), xs)
  {
    if xs != [] {
      SurvivorsThen(f, g, xs[..|xs| - 1]);
      var y := f(xs[|xs| - 1]);
      if y.Some? {
        var ys := Survivors(f, xs);
        assert ys[..|ys| - 1] == Survivors(f, xs[..|xs| - 1]);
      }
    }
  }

  lemma {:induction false} SurvivorIn<T, U>(f: T -> Option<U>, xs: seq<T>, x: T)
    requires x in xs && f(x).Some?
    ensures f(x).value in Survivors(f, xs)
  {
    if x != xs[|xs| - 1] { SurvivorIn(f, xs[..|xs| - 1], x); }
  }

  lemma MultisetSplit<T>(xs: seq<T>, j: nat)
    requires j < |xs|
    ensures multiset(xs) == multiset(xs[..j]) + multiset(xs[j + 1..]) + multiset{xs[j]}
  {
    assert xs == xs[..j] + [xs[j]] + xs[j + 1..];
  }

  lemma Cancel<T>(a: multiset<T>, b: multiset<T>, x: T)
    requires a + multiset{x} == b + multiset{x}
    ensures a == b
  {
    assert a == a + multiset{x} - multiset{x} && b == b + multiset{x} - multiset{x};
  }

  lemma {:induction false} SurvivorsPermute<T, U>(f: T -> Option<U>, a: seq<T>, b: seq<T>)
    requires multiset(a) == multiset(b)
    ensures multiset(Survivors(f, a)) == multiset(Survivors(f, b))
    decreases |a|
  {
    if a == [] {
      assert |multiset(b)| == |b|;
    } else {
      var n := |a| - 1;
      var x := a[n];
      MultisetSplit(a, n);
      assert a[n + 1..] == [];
      assert x in multiset(b);
      var j :| 0 <= j < |b| && b[j] == x;
      MultisetSplit(b, j);
      Cancel(multiset(a[..n]), multiset(b[..j] + b[j + 1..]), x);
      SurvivorsPermute(f, a[..n], b[..j] + b[j + 1..]);
      SurvivorsAround(f, b, j);
      SurvivorsAround(f, a, n);
      assert a[..n] + a[n + 1..] == a[..n];
    }
  }

  // An element contributes the same wherever it stands.
  lemma {:induction false} SurvivorsAround<T, U>(f: T -> Option<U>, xs: seq<T>, j: nat)
    requires j < |xs|
    ensures multiset(Survivors(f, xs)) ==
      multiset(Survivors(f, xs[..j] + xs[j + 1..])) + (if f(xs[j]).Some? then multiset{f(xs[j]).value} else multiset{})
  {
    var l, x, r := xs[..j], [xs[j]], xs[j + 1..];
    assert xs == l + x + r;
    SurvivorsConcat(f, l + x, r);
    SurvivorsConcat(f, l, x);
    SurvivorsConcat(f, l, r);
    SurvivorsOfOne(f, xs[j]);
    Regroup(Survivors(f, l), Survivors(f, x), Survivors(f, r));
  }

  lemma {:induction false} SurvivorsOfOne<T, U>(f: T -> Option<U>, x: T)
    ensures Survivors(f, [x]) == if f(x).Some? then [f(x).value] else []
  {
    assert [x][..0] == [];
  }

  lemma Regroup<T>(a: seq<T>, b: seq<T>, c: seq<T>)
    ensures multiset(a + b + c) == multiset(a + c) + multiset(b)
  {
  }

  // --- Deduplication without duplicates ---------------------------------------------------

  function Keyed<T>(key: T -> nat): (f: T -> Option<nat>) { (t: T) => Some(key(t)) }

  // No two messages of a batch have the same key.
  ghost predicate KeysDiffer<T>(xs: seq<T>, key: T -> nat) {
    forall k :: multiset(Survivors(Keyed(key), xs))[k] <= 1
  }

  lemma {:induction false} KeyedIs<T>(xs: seq<T>, key: T -> nat)
    ensures |Survivors(Keyed(key), xs)| == |xs|
    ensures forall i :: 0 <= i < |xs| ==> Survivors(Keyed(key), xs)[i] == key(xs[i])
  {
    if xs != [] {
      KeyedIs(xs[..|xs| - 1], key);
    }
  }

  lemma TwiceIsTwo<T>(xs: seq<T>, i: nat, j: nat)
    requires i < j < |xs| && xs[i] == xs[j]
    ensures multiset(xs)[xs[i]] >= 2
  {
    MultisetSplit(xs, j);
    assert xs[..j][i] == xs[i];
  }

  lemma {:induction false} AllFirst<T>(xs: seq<T>, key: T -> nat, n: nat)
    requires n <= |xs| && forall i :: 0 <= i < |xs| ==> First(Slots(xs), key, i)
    ensures Firsts(Slots(xs), key, n) == seq(n, i => i)
  {
    if n > 0 {
      AllFirst(xs, key, n - 1);
      assert First(Slots(xs), key, n - 1);
    }
  }

  // Deduplication drops nothing when all keys differ, in whatever order the messages came.
  lemma NothingDropped<T>(xs: seq<T>, ys: seq<T>, key: T -> nat)
    requires KeysDiffer(xs, key) && multiset(xs) == multiset(ys)
    ensures Kept(Slots(ys), key) == ys
  {
    SurvivorsPermute(Keyed(key), xs, ys);
    KeyedIs(ys, key);
    var ks := Survivors(Keyed(key), ys);
    forall i, j | 0 <= j < i < |ys| ensures key(ys[j]) != key(ys[i]) {
      if ks[j] == ks[i] { TwiceIsTwo(ks, j, i); }
    }
    AllFirst(ys, key, |ys|);
  }

  // --- Deduplication in general --------------------------------------------------------------

  // What is missing from a.
  lemma Missing<T>(a: seq<T>, b: seq<T>) returns (rest: seq<T>)
    requires multiset(a) <= multiset(b)
    ensures multiset(a + rest) == multiset(b)
    decreases multiset(b) - multiset(a)
  {
    var m := multiset(b) - multiset(a);
    if m == multiset{} {
      rest := [];
      assert multiset(b) == multiset(a) + m;
    } else {
      var x :| x in m;
      var more := Missing(a + [x], b);
      assert a + ([x] + more) == a + [x] + more;
      rest := [x] + more;
    }
  }

  lemma SurvivorsWithin<T, U>(f: T -> Option<U>, a: seq<T>, b: seq<T>)
    requires multiset(a) <= multiset(b)
    ensures multiset(Survivors(f, a)) <= multiset(Survivors(f, b))
  {
    var rest := Missing(a, b);
    SurvivorsPermute(f, a + rest, b);
    SurvivorsConcat(f, a, rest);
    WithinConcat(Survivors(f, a), Survivors(f, rest));
  }

  lemma WithinConcat<T>(a: seq<T>, b: seq<T>)
    ensures multiset(a) <= multiset(a + b)
  {
  }

  function At<T>(xs: seq<T>, ps: seq<nat>): (ys: seq<T>)
    requires forall k :: 0 <= k < |ps| ==> ps[k] < |xs|
  {
    seq(|ps|, k requires 0 <= k < |ps| => xs[ps[k]])
  }

  // Deduplication keeps no message more often than it came.
  lemma {:induction false} FirstsWithin<T>(xs: seq<T>, key: T -> nat, n: nat)
    requires n <= |xs|
    ensures multiset(At(xs, Firsts(Slots(xs), key, n))) <= multiset(xs[..n])
  {
    if n > 0 {
      FirstsWithin(xs, key, n - 1);
      var f, g := Firsts(Slots(xs), key, n - 1), Firsts(Slots(xs), key, n);
      assert xs[..n] == xs[..n - 1] + [xs[n - 1]];
      assert First(Slots(xs), key, n - 1) ==> At(xs, g) == At(xs, f) + [xs[n - 1]];
    }
  }

  lemma KeptWithin<T>(xs: seq<T>, key: T -> nat)
    ensures multiset(Kept(Slots(xs), key)) <= multiset(xs)
  {
    FirstsWithin(xs, key, |xs|);
    assert xs[..|xs|] == xs;
    assert Kept(Slots(xs), key) == At(xs, Firsts(Slots(xs), key, |xs|));
  }

  // The first message with the key of message i.
  lemma {:induction false} FirstWithKey<T>(xs: seq<T>, key: T -> nat, i: nat) returns (j: nat)
    requires i < |xs|
    ensures j <= i && key(xs[j]) == key(xs[i]) && First(Slots(xs), key, j)
  {
    if First(Slots(xs), key, i) {
      j := i;
    } else {
      var k :| 0 <= k < i && key(xs[k]) == key(xs[i]);
      j := FirstWithKey(xs, key, k);
    }
  }

  // A message that shares its key with no other is kept, however often it came.
  lemma KeptHolds<T>(xs: seq<T>, key: T -> nat, x: T)
    requires x in xs && forall y :: y in xs && key(y) == key(x) ==> y == x
    ensures x in Kept(Slots(xs), key)
  {
    var i :| 0 <= i < |xs| && xs[i] == x;
    var j := FirstWithKey(xs, key, i);
    assert xs[j] in xs;
    FilterKeepsFirsts(Slots(xs), key);
    assert Kept(Slots(xs), key)[Index(Slots(xs), key)[j]] == x;
  }
}
