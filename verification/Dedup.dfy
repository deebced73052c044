/** Dropping malformed and repeated messages while keeping an index from every
    slot to its place among the kept messages (filterIncoming). */
module Dedup {
  import opened Bytes

  // Slot i holds a message, and no earlier slot holds one with the same key.
  predicate First<T>(slots: seq<Option<T>>, key: T -> nat, i: nat)
    requires i < |slots|
  {
    && slots[i].Some?
    && forall j :: 0 <= j < i && slots[j].Some? ==> key(slots[j].value) != key(slots[i].value)
  }

  // The first occurrences among the first n slots, in order.
  function Firsts<T>(slots: seq<Option<T>>, key: T -> nat, n: nat): (f: seq<nat>)
    requires n <= |slots|
    ensures |f| <= n && forall v :: 0 <= v < |f| ==> f[v] < n && First(slots, key, f[v])
  {
    if n == 0 then [] else
      var f := Firsts(slots, key, n - 1);
      if First(slots, key, n - 1) then f + [n - 1] else f
  }

  function Kept<T>(slots: seq<Option<T>>, key: T -> nat): (kept: seq<T>)
    ensures |kept| <= |slots|
  {
    var f := Firsts(slots, key, |slots|);
    seq(|f|, v requires 0 <= v < |f| => slots[f[v]].value)
  }

  function Index<T>(slots: seq<Option<T>>, key: T -> nat): (index: seq<int>)
    ensures |index| == |slots|
  {
    seq(|slots|, i requires 0 <= i < |slots| =>
      if First(slots, key, i) then |Firsts(slots, key, i)| else -1)
  }

  method Filter<T>(slots: seq<Option<T>>, key: T -> nat) returns (valid: seq<T>, index: seq<int>)
    ensures valid == Kept(slots, key) && index == Index(slots, key)
  {
    valid, index := [], [];
    var seen: map<nat, bool> := map[];
    ghost var f: seq<nat> := [];
    for i := 0 to |slots|
      invariant f == Firsts(slots, key, i) && |valid| == |f|
      invariant forall v :: 0 <= v < |f| ==> valid[v] == slots[f[v]].value
      invariant index == Index(slots, key)[..i]
      invariant forall k :: k in seen ==> seen[k]
      invariant forall k :: k in seen <==> exists j :: 0 <= j < i && slots[j].Some? && key(slots[j].value) == k
    {
      match slots[i]
      case None =>
        index := index + [-1];
      case Some(msg) =>
        var msgkey := key(msg);
        if msgkey in seen && seen[msgkey] {
          index := index + [-1];
        } else {
          seen := seen[msgkey := true];
          index := index + [|valid|];
          valid := valid + [msg];
          f := f + [i];
        }
    }
  }

  // `index` maps the slots `from`, in order, one-to-one onto the positions of
  // `kept`, and the kept message at a slot's index is the message of that slot.
  ghost predicate Indexes<T>(slots: seq<Option<T>>, kept: seq<T>, index: seq<int>, from: seq<nat>) {
    && |index| == |slots| && |from| == |kept|
    && (forall u, v :: 0 <= u < v < |from| ==> from[u] < from[v])
    && (forall v :: 0 <= v < |from| ==>
          from[v] < |slots| && index[from[v]] == v && slots[from[v]] == Some(kept[v]))
    && (forall i :: 0 <= i < |index| ==>
          if index[i] < 0 then index[i] == -1 else index[i] < |from| && from[index[i]] == i)
  }

  lemma {:induction false} FirstsAt<T>(slots: seq<Option<T>>, key: T -> nat, n: nat, i: nat)
    requires i < n <= |slots| && First(slots, key, i)
    ensures |Firsts(slots, key, i)| < |Firsts(slots, key, n)|
    ensures Firsts(slots, key, n)[|Firsts(slots, key, i)|] == i
  {
    if i < n - 1 { FirstsAt(slots, key, n - 1, i); }
  }

  lemma {:induction false} FirstsIncreasing<T>(slots: seq<Option<T>>, key: T -> nat, n: nat)
    requires n <= |slots|
    ensures forall u, v :: 0 <= u < v < |Firsts(slots, key, n)| ==>
      Firsts(slots, key, n)[u] < Firsts(slots, key, n)[v]
  {
    if n > 0 { FirstsIncreasing(slots, key, n - 1); }
  }

  // Exactly the first occurrences are kept, in order, and the index is right.
  lemma FilterKeepsFirsts<T>(slots: seq<Option<T>>, key: T -> nat)
    ensures forall i :: 0 <= i < |slots| ==> (Index(slots, key)[i] >= 0 <==> First(slots, key, i))
    ensures Indexes(slots, Kept(slots, key), Index(slots, key), Firsts(slots, key, |slots|))
  {
    var n := |slots|;
    var f, index := Firsts(slots, key, n), Index(slots, key);
    FirstsIncreasing(slots, key, n);
    forall i | 0 <= i < n && index[i] >= 0
      ensures index[i] < |f| && f[index[i]] == i
    {
      FirstsAt(slots, key, n, i);
    }
    forall v | 0 <= v < |f| ensures index[f[v]] == v {
      FirstsAt(slots, key, n, f[v]);
      var u := index[f[v]];
      assert f[u] == f[v];
    }
  }

  // Fewer messages are kept than there are slots as soon as one slot is not a first.
  lemma {:induction false} KeptFewer<T>(slots: seq<Option<T>>, key: T -> nat, n: nat, i: nat)
    requires i < n <= |slots| && !First(slots, key, i)
    ensures |Firsts(slots, key, n)| < n
  {
    if i < n - 1 { KeptFewer(slots, key, n - 1, i); }
  }

  lemma {:induction false} BothKept<T>(a: T, b: T, key: T -> nat)
    requires key(a) != key(b)
    ensures Kept([Some(a), Some(b)], key) == [a, b]
  {
    var slots := [Some(a), Some(b)];
    assert First(slots, key, 0) && First(slots, key, 1);
    assert Firsts(slots, key, 1) == [0] && Firsts(slots, key, 2) == [0, 1];
  }

  // No two messages share a key.
  ghost predicate Distinct<T>(slots: seq<Option<T>>, key: T -> nat) {
    forall i, j :: 0 <= i < j < |slots| && slots[i].Some? && slots[j].Some? ==>
      key(slots[i].value) != key(slots[j].value)
  }
}
