/** How a batch in flight relates to the slots it started from. A server drops
    some messages, adds its own and permutes the rest; an arrangement records a
    one-to-one correspondence between the occupied slots and the actual batch. */
module Arrangements {
  import opened Bytes
  import opened Shuffling
  import opened Dedup

  // pos[x] is where the message of slot x is in the batch; origin is its inverse.
  datatype Layout = Layout(pos: seq<int>, origin: seq<nat>)

  ghost predicate Arranged<T>(batch: seq<T>, slots: seq<Option<T>>, l: Layout) {
    && |l.origin| == |batch| && |l.pos| == |slots|
    && (forall j :: 0 <= j < |batch| ==>
          l.origin[j] < |slots| && l.pos[l.origin[j]] == j && slots[l.origin[j]] == Some(batch[j]))
    && (forall x :: 0 <= x < |slots| && slots[x].Some? ==>
          0 <= l.pos[x] < |batch| && l.origin[l.pos[x]] == x)
  }

  function Identity(n: nat): (l: Layout) {
    Layout(seq(n, i => i), seq(n, i => i))
  }

  // Each slot's message replaced by what f makes of it.
  function Mapped<T, U>(f: T -> Option<U>, slots: seq<Option<T>>): (ys: seq<Option<U>>)
    ensures |ys| == |slots|
  {
    seq(|slots|, x requires 0 <= x < |slots| =>
      match slots[x] case None => None case Some(t) => f(t))
  }

  function MapAll<T, U>(f: T -> Option<U>, batch: seq<T>): (ys: seq<Option<U>>)
    ensures |ys| == |batch|
  {
    seq(|batch|, j requires 0 <= j < |batch| => f(batch[j]))
  }

  function Filtered(l: Layout, index: seq<int>, from: seq<nat>): (m: Layout)
    requires |index| == |l.origin| && forall v :: 0 <= v < |from| ==> from[v] < |l.origin|
  {
    Layout(seq(|l.pos|, x requires 0 <= x < |l.pos| =>
             if 0 <= l.pos[x] < |index| then index[l.pos[x]] else -1),
           seq(|from|, v requires 0 <= v < |from| => l.origin[from[v]]))
  }

  // Processing every message and dropping failures keeps the batch arranged,
  // provided no message is lost as a duplicate.
  lemma FilterArranges<T, U>(batch: seq<T>, slots: seq<Option<T>>, l: Layout,
                             f: T -> Option<U>, key: U -> nat)
    requires Arranged(batch, slots, l) && Distinct(Mapped(f, slots), key)
    ensures var ys := MapAll(f, batch);
      && (forall i :: 0 <= i < |ys| ==> (Index(ys, key)[i] >= 0 <==> ys[i].Some?))
      && (forall i :: 0 <= i < |ys| ==> Index(ys, key)[i] < |Kept(ys, key)|)
      && Arranged(Kept(ys, key), Mapped(f, slots), Filtered(l, Index(ys, key), Firsts(ys, key, |ys|)))
      && (forall i :: 0 <= i < |ys| && ys[i].Some? ==>
            Filtered(l, Index(ys, key), Firsts(ys, key, |ys|)).origin[Index(ys, key)[i]] == l.origin[i]
            && Kept(ys, key)[Index(ys, key)[i]] == ys[i].value)
  {
    var ys := MapAll(f, batch);
    FilterKeepsFirsts(ys, key);
    DistinctStaysDistinct(batch, slots, l, f, key);
  }

  lemma DistinctStaysDistinct<T, U>(batch: seq<T>, slots: seq<Option<T>>, l: Layout,
                                    f: T -> Option<U>, key: U -> nat)
    requires Arranged(batch, slots, l) && Distinct(Mapped(f, slots), key)
    ensures forall i :: 0 <= i < |batch| && f(batch[i]).Some? ==> First(MapAll(f, batch), key, i)
  {
    var ys, zs := MapAll(f, batch), Mapped(f, slots);
    forall i, j | 0 <= j < i < |batch| && ys[i].Some? && ys[j].Some?
      ensures key(ys[j].value) != key(ys[i].value)
    {
      var x, y := l.origin[j], l.origin[i];
      assert l.pos[x] == j && l.pos[y] == i;
      assert zs[x] == ys[j] && zs[y] == ys[i];
    }
  }

  function Appended(l: Layout, n: nat): (m: Layout) {
    Layout(l.pos + seq(n, i => |l.origin| + i), l.origin + seq(n, i => |l.pos| + i))
  }

  lemma AppendArranges<T>(batch: seq<T>, slots: seq<Option<T>>, l: Layout, more: seq<T>)
    requires Arranged(batch, slots, l)
    ensures Arranged(batch + more, slots + Slots(more), Appended(l, |more|))
  {
  }

  function Rearranged(l: Layout, p: seq<nat>, q: seq<nat>): (m: Layout)
    requires |p| == |q| == |l.origin| && forall k :: 0 <= k < |p| ==> p[k] < |p|
  {
    Layout(seq(|l.pos|, x requires 0 <= x < |l.pos| => if 0 <= l.pos[x] < |q| then q[l.pos[x]] as int else -1),
           seq(|p|, k requires 0 <= k < |p| => l.origin[p[k]]))
  }

  // q undoes the permutation p.
  ghost predicate Inverse(p: seq<nat>, q: seq<nat>) {
    && |p| == |q|
    && (forall k :: 0 <= k < |p| ==> p[k] < |p| && q[p[k]] == k)
    && (forall v :: 0 <= v < |q| ==> q[v] < |q| && p[q[v]] == v)
  }

  lemma PermuteArranges<T>(batch: seq<T>, slots: seq<Option<T>>, l: Layout, p: seq<nat>, q: seq<nat>, out: seq<T>)
    requires Arranged(batch, slots, l) && |p| == |batch| == |out| && Inverse(p, q)
    requires forall k :: 0 <= k < |out| ==> out[k] == batch[p[k]]
    ensures Arranged(out, slots, Rearranged(l, p, q))
  {
  }

  lemma {:induction false} InverseExists(p: seq<nat>) returns (q: seq<nat>)
    requires Permutation(p)
    ensures Inverse(p, q)
  {
    q := [];
    for v := 0 to |p|
      invariant |q| == v
      invariant forall u :: 0 <= u < v ==> q[u] < |p| && p[q[u]] == u
    {
      var k := PermutationOnto(p, v);
      q := q + [k];
    }
    forall k | 0 <= k < |p| ensures q[p[k]] == k {
      assert p[q[p[k]]] == p[k];
    }
  }

  // What a server passes on: the messages it has, without duplicates, then its own messages, all shuffled.
  function PassedOn<T>(slots: seq<Option<T>>, key: T -> nat, more: seq<T>, s: seq<nat>): (out: seq<T>)
    requires Shuffler(s) && |s| == |Kept(slots, key)| + |more|
    ensures |out| == |s|
  {
    Shuffled(s, Kept(slots, key) + more)
  }

  // The kept message of slot i leaves at position q[v], where v is the slot's index.
  lemma HopArranges<T>(batch: seq<T>, slots: seq<Option<T>>, l: Layout,
                       f: T -> Option<T>, key: T -> nat, more: seq<T>, s: seq<nat>)
    returns (m: Layout, q: seq<nat>)
    requires Arranged(batch, slots, l) && Distinct(Mapped(f, slots), key)
    requires Shuffler(s) && |s| == |Kept(MapAll(f, batch), key)| + |more|
    ensures Arranged(PassedOn(MapAll(f, batch), key, more, s), Mapped(f, slots) + Slots(more), m)
    ensures |q| == |s| && Inverse(Perm(s, |s|), q)
    ensures var out := PassedOn(MapAll(f, batch), key, more, s);
      forall i :: 0 <= i < |batch| && f(batch[i]).Some? ==>
        var v := Index(MapAll(f, batch), key)[i];
        0 <= v < |s| && Some(out[q[v]]) == f(batch[i]) && m.origin[q[v]] == l.origin[i]
  {
    var ys := MapAll(f, batch);
    var kept := Kept(ys, key);
    FilterArranges(batch, slots, l, f, key);
    var l1 := Filtered(l, Index(ys, key), Firsts(ys, key, |ys|));
    AppendArranges(kept, Mapped(f, slots), l1, more);
    m, q := ShuffleArranges(kept + more, Mapped(f, slots) + Slots(more), Appended(l1, |more|), s);
  }

  lemma ShuffleArranges<T>(batch: seq<T>, slots: seq<Option<T>>, l: Layout, s: seq<nat>)
    returns (m: Layout, q: seq<nat>)
    requires Arranged(batch, slots, l) && Shuffler(s) && |s| == |batch|
    ensures Arranged(Shuffled(s, batch), slots, m)
    ensures |q| == |s| && Inverse(Perm(s, |s|), q)
    ensures forall v :: 0 <= v < |batch| ==>
      Shuffled(s, batch)[q[v]] == batch[v] && m.origin[q[v]] == l.origin[v]
  {
    ShuffleIsPermutation(s, batch, batch);
    q := InverseExists(Perm(s, |s|));
    PermuteArranges(batch, slots, l, Perm(s, |s|), q, Shuffled(s, batch));
    m := Rearranged(l, Perm(s, |s|), q);
  }

  // --- Sizes and contents ----------------------------------------------------------

  ghost function Contents<T>(slots: seq<Option<T>>): (m: multiset<T>) {
    if slots == [] then multiset{} else
      var rest := Contents(slots[..|slots| - 1]);
      match slots[|slots| - 1] case None => rest case Some(t) => rest + multiset{t}
  }

  lemma OriginInRange<T>(batch: seq<T>, slots: seq<Option<T>>, l: Layout, j: nat)
    requires Arranged(batch, slots, l) && j < |batch|
    ensures l.origin[j] < |slots|
  {
  }

  // The batch is, as a multiset, what the occupied slots hold.
  lemma {:induction false} ArrangedContents<T>(batch: seq<T>, slots: seq<Option<T>>, l: Layout)
    requires Arranged(batch, slots, l)
    ensures multiset(batch) == Contents(slots)
    decreases |slots|
  {
    if slots == [] {
      if batch != [] {
        OriginInRange(batch, slots, l, 0);
        assert false;
      }
    } else {
      var n := |slots| - 1;
      var init := slots[..n];
      if slots[n].None? {
        ArrangedContents(batch, init, Layout(l.pos[..n], l.origin));
      } else {
        var j := l.pos[n];
        var shorter := batch[..j] + batch[j + 1..];
        var m := Layout(
          seq(n, x requires 0 <= x < n => if l.pos[x] > j then l.pos[x] - 1 else l.pos[x]),
          l.origin[..j] + l.origin[j + 1..]);
        RemovalArranges(batch, slots, l, m);
        ArrangedContents(shorter, init, m);
        RemovedOne(batch, j);
      }
    }
  }

  lemma RemovedOne<T>(batch: seq<T>, j: nat)
    requires j < |batch|
    ensures multiset(batch) == multiset(batch[..j] + batch[j + 1..]) + multiset{batch[j]}
  {
    assert batch == batch[..j] + [batch[j]] + batch[j + 1..];
  }

  lemma RemovalArranges<T>(batch: seq<T>, slots: seq<Option<T>>, l: Layout, m: Layout)
    requires Arranged(batch, slots, l) && slots != [] && slots[|slots| - 1].Some?
    requires var n := |slots| - 1;
      var j := l.pos[n];
      && |m.pos| == n
      && (forall x :: 0 <= x < n ==> m.pos[x] == if l.pos[x] > j then l.pos[x] - 1 else l.pos[x])
      && m.origin == l.origin[..j] + l.origin[j + 1..]
    ensures var j := l.pos[|slots| - 1];
      Arranged(batch[..j] + batch[j + 1..], slots[..|slots| - 1], m)
  {
  }

  lemma {:induction false} ContentsConcat<T>(a: seq<Option<T>>, b: seq<Option<T>>)
    ensures Contents(a + b) == Contents(a) + Contents(b)
  {
    if b == [] {
      assert a + b == a;
    } else {
      var init := b[..|b| - 1];
      ContentsConcat(a, init);
      assert (a + b)[..|a + b| - 1] == a + init;
    }
  }

  lemma SlotsConcat<T>(a: seq<T>, b: seq<T>)
    ensures Slots(a + b) == Slots(a) + Slots(b)
  {
  }

  lemma {:induction false} ContentsOfSlots<T>(xs: seq<T>)
    ensures Contents(Slots(xs)) == multiset(xs)
  {
    if xs != [] {
      var init := xs[..|xs| - 1];
      ContentsOfSlots(init);
      assert Slots(xs)[..|xs| - 1] == Slots(init);
      assert xs == init + [xs[|xs| - 1]];
    }
  }

  lemma {:induction false} SameOccupancy<T, U>(a: seq<Option<T>>, b: seq<Option<U>>)
    requires |a| == |b| && forall i :: 0 <= i < |a| ==> (a[i].Some? ==> b[i].Some?)
    ensures |Contents(a)| <= |Contents(b)|
  {
    if a != [] { SameOccupancy(a[..|a| - 1], b[..|b| - 1]); }
  }
}
