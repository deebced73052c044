/** The last server's exchange: requests that name the same dead drop swap their
    messages, and the server counts how many drops were accessed once or more. */
module DeadDrops {
  import opened Bytes
  import opened Shuffling

  datatype Request<D, M> = Request(drop: D, body: M)

  function Drops<D, M>(rs: seq<Request<D, M>>): (ds: seq<D>)
    ensures |ds| == |rs|
  {
    seq(|rs|, i requires 0 <= i < |rs| => rs[i].drop)
  }

  // --- Reference definition ----------------------------------------------------

  // m is a proper answer to slot i: the message of another request for the same
  // drop, or the request's own message when it is alone in its drop.
  ghost predicate Swapped<D, M>(slots: seq<Option<Request<D, M>>>, i: nat, m: M)
    requires i < |slots| && slots[i].Some?
  {
    || (exists j :: Sharing(slots, i, j) && m == slots[j].value.body)
    || (m == slots[i].value.body && forall j :: 0 <= j < |slots| ==> !Sharing(slots, i, j))
  }

  ghost predicate Sharing<D, M>(slots: seq<Option<Request<D, M>>>, i: nat, j: int)
    requires i < |slots|
  {
    && 0 <= j < |slots| && j != i
    && slots[i].Some? && slots[j].Some? && slots[j].value.drop == slots[i].value.drop
  }

  // At most one other slot shares the drop of slot i.
  ghost predicate Uncrowded<D, M>(slots: seq<Option<Request<D, M>>>, i: nat)
    requires i < |slots|
  {
    forall j, k :: Sharing(slots, i, j) && Sharing(slots, i, k) ==> j == k
  }

  // With at most two users the proper answer is unique: the partner's message.
  lemma SwappedUnique<D, M>(slots: seq<Option<Request<D, M>>>, i: nat, m: M, m': M)
    requires i < |slots| && slots[i].Some? && Uncrowded(slots, i)
    requires Swapped(slots, i, m) && Swapped(slots, i, m')
    ensures m == m'
  {
  }

  // --- What the server computes ------------------------------------------------

  // The positions of the requests for drop d, in increasing order.
  function Accesses<D(==), M>(rs: seq<Request<D, M>>, d: D): (a: seq<nat>)
    ensures forall k :: 0 <= k < |a| ==> a[k] < |rs|
  {
    if rs == [] then [] else
      var n := |rs| - 1;
      var a := Accesses(rs[..n], d);
      if rs[n].drop == d then a + [n] else a
  }

  function FirstTwo(a: seq<nat>): (b: seq<nat>) {
    if |a| <= 2 then a else a[..2]
  }

  lemma {:induction false} AccessesExact<D, M>(rs: seq<Request<D, M>>, d: D)
    ensures forall k :: k in Accesses(rs, d) <==> 0 <= k < |rs| && rs[k].drop == d
    ensures forall j, k :: 0 <= j < k < |Accesses(rs, d)| ==> Accesses(rs, d)[j] < Accesses(rs, d)[k]
  {
    if rs != [] { AccessesExact(rs[..|rs| - 1], d); }
  }

  // The reply to request i: the first two accesses see each other, every later
  // one sees the first.
  function Reply<D(==), M>(rs: seq<Request<D, M>>, i: nat): (m: M)
    requires i < |rs|
  {
    var a := Accesses(rs, rs[i].drop);
    if |a| <= 1 then rs[i].body
    else if i == a[0] then rs[a[1]].body
    else rs[a[0]].body
  }

  function Replies<D(==), M>(rs: seq<Request<D, M>>): (ms: seq<M>)
    ensures |ms| == |rs|
  {
    seq(|rs|, i requires 0 <= i < |rs| => Reply(rs, i))
  }

  ghost function Once<D>(m: multiset<D>): (s: set<D>) { set d | d in m && m[d] == 1 }
  ghost function Repeated<D>(m: multiset<D>): (s: set<D>) { set d | d in m && m[d] >= 2 }

  lemma CountOneMore<D>(m: multiset<D>, d: D)
    ensures m[d] == 0 ==> Once(m + multiset{d}) == Once(m) + {d} && Repeated(m + multiset{d}) == Repeated(m)
    ensures m[d] == 1 ==>
      Once(m + multiset{d}) == Once(m) - {d} && Repeated(m + multiset{d}) == Repeated(m) + {d}
    ensures m[d] >= 2 ==> Once(m + multiset{d}) == Once(m) && Repeated(m + multiset{d}) == Repeated(m)
  {
  }

  lemma {:induction false} AccessesCounted<D, M>(rs: seq<Request<D, M>>, d: D)
    ensures |Accesses(rs, d)| == multiset(Drops(rs))[d]
  {
    if rs != [] {
      var n := |rs| - 1;
      AccessesCounted(rs[..n], d);
      assert Drops(rs) == Drops(rs[..n]) + [rs[n].drop];
    }
  }

  ghost function SetOf<D>(ds: seq<D>): (s: set<D>) { set d | d in ds }

  // The table of the first two accesses of every drop.
  ghost predicate TableOf<D, M>(table: map<D, seq<nat>>, rs: seq<Request<D, M>>) {
    && table.Keys == SetOf(Drops(rs))
    && (forall d :: d in table ==> table[d] == FirstTwo(Accesses(rs, d)))
  }

  method Tally<D(==), M>(rs: seq<Request<D, M>>)
    returns (deadDrops: map<D, seq<nat>>, singles: int, doubles: int)
    ensures TableOf(deadDrops, rs)
    ensures singles == |Once(multiset(Drops(rs)))|
    ensures doubles == |Repeated(multiset(Drops(rs)))|
  {
    singles, doubles, deadDrops := 0, 0, map[];
    for i := 0 to |rs|
      invariant TableOf(deadDrops, rs[..i])
      invariant singles == |Once(multiset(Drops(rs[..i])))|
      invariant doubles == |Repeated(multiset(Drops(rs[..i])))|
    {
      var d := rs[i].drop;
      var drop := if d in deadDrops then deadDrops[d] else [];
      TableStep(deadDrops, rs, i, drop);
      CountStep(rs, i);
      if |drop| == 0 {
        singles := singles + 1;
        deadDrops := deadDrops[d := drop + [i]];
      } else if |drop| == 1 {
        singles := singles - 1;
        doubles := doubles + 1;
        deadDrops := deadDrops[d := drop + [i]];
      }
    }
    assert rs[..|rs|] == rs;
  }

  method Exchange<D(==), M>(rs: seq<Request<D, M>>) returns (replies: seq<M>, singles: int, doubles: int)
    ensures replies == Replies(rs)
    ensures singles == |Once(multiset(Drops(rs)))|
    ensures doubles == |Repeated(multiset(Drops(rs)))|
  {
    var deadDrops;
    deadDrops, singles, doubles := Tally(rs);
    replies := [];
    for i := 0 to |rs|
      invariant replies == Replies(rs)[..i]
    {
      ReplyFromTable(deadDrops, rs, i);
      var drop := deadDrops[rs[i].drop];
      if |drop| == 1 {
        replies := replies + [rs[i].body];
      } else {
        var k := if i == drop[0] then drop[1] else drop[0];
        replies := replies + [rs[k].body];
      }
    }
  }

  // The table answers request i as specified.
  lemma ReplyFromTable<D, M>(table: map<D, seq<nat>>, rs: seq<Request<D, M>>, i: nat)
    requires i < |rs| && TableOf(table, rs)
    ensures rs[i].drop in table && 1 <= |table[rs[i].drop]| <= 2
    ensures var drop := table[rs[i].drop];
      if |drop| == 1 then Reply(rs, i) == rs[i].body
      else var k := if i == drop[0] then drop[1] else drop[0]; k < |rs| && Reply(rs, i) == rs[k].body
  {
    assert rs[i].drop == Drops(rs)[i];
    AccessesExact(rs, rs[i].drop);
    assert i in Accesses(rs, rs[i].drop);
  }

  lemma TableStep<D, M>(table: map<D, seq<nat>>, rs: seq<Request<D, M>>, i: nat, drop: seq<nat>)
    requires i < |rs| && TableOf(table, rs[..i])
    requires drop == if rs[i].drop in table then table[rs[i].drop] else []
    ensures TableOf(if |drop| < 2 then table[rs[i].drop := drop + [i]] else table, rs[..i + 1])
    ensures drop == FirstTwo(Accesses(rs[..i], rs[i].drop))
  {
    DropSoFar(table, rs, i, drop);
    var next := if |drop| < 2 then table[rs[i].drop := drop + [i]] else table;
    KeysStep(table, rs, i);
    assert next.Keys == table.Keys + {rs[i].drop};
    forall e | e in next ensures next[e] == FirstTwo(Accesses(rs[..i + 1], e)) {
      EntryStep(table, rs, i, drop, e);
    }
  }

  lemma KeysStep<D, M>(table: map<D, seq<nat>>, rs: seq<Request<D, M>>, i: nat)
    requires i < |rs| && table.Keys == SetOf(Drops(rs[..i]))
    ensures table.Keys + {rs[i].drop} == SetOf(Drops(rs[..i + 1]))
  {
    assert Drops(rs[..i + 1]) == Drops(rs[..i]) + [rs[i].drop];
  }

  lemma EntryStep<D, M>(table: map<D, seq<nat>>, rs: seq<Request<D, M>>, i: nat, drop: seq<nat>, e: D)
    requires i < |rs| && TableOf(table, rs[..i]) && drop == FirstTwo(Accesses(rs[..i], rs[i].drop))
    requires e == rs[i].drop || e in table
    ensures FirstTwo(Accesses(rs[..i + 1], e))
         == if e != rs[i].drop then table[e] else if |drop| < 2 then drop + [i] else drop
  {
    AccessesStep(rs, i, e);
    if e == rs[i].drop { OneMoreAccess(Accesses(rs[..i], e), drop, i); }
  }

  lemma DropSoFar<D, M>(table: map<D, seq<nat>>, rs: seq<Request<D, M>>, i: nat, drop: seq<nat>)
    requires i < |rs| && TableOf(table, rs[..i])
    requires drop == if rs[i].drop in table then table[rs[i].drop] else []
    ensures drop == FirstTwo(Accesses(rs[..i], rs[i].drop)) && |drop| <= 2
  {
    AccessesCounted(rs[..i], rs[i].drop);
  }

  lemma OneMoreAccess(a: seq<nat>, drop: seq<nat>, i: nat)
    requires drop == FirstTwo(a)
    ensures FirstTwo(a + [i]) == if |drop| < 2 then drop + [i] else drop
  {
  }

  lemma AccessesStep<D, M>(rs: seq<Request<D, M>>, i: nat, d: D)
    requires i < |rs|
    ensures Accesses(rs[..i + 1], d) == Accesses(rs[..i], d) + (if rs[i].drop == d then [i] else [])
  {
    assert rs[..i + 1][..i] == rs[..i];
  }

  lemma CountStep<D, M>(rs: seq<Request<D, M>>, i: nat)
    requires i < |rs|
    ensures var m, m' := multiset(Drops(rs[..i])), multiset(Drops(rs[..i + 1]));
      var n := |FirstTwo(Accesses(rs[..i], rs[i].drop))|;
      && |Once(m')| == |Once(m)| + (if n == 0 then 1 else if n == 1 then -1 else 0)
      && |Repeated(m')| == |Repeated(m)| + (if n == 1 then 1 else 0)
  {
    var d := rs[i].drop;
    assert Drops(rs[..i + 1]) == Drops(rs[..i]) + [d];
    var m := multiset(Drops(rs[..i]));
    AccessesCounted(rs[..i], d);
    CountOneMore(m, d);
  }

  // --- The exchange meets its reference definition -------------------------------

  // Every reply is a proper answer, however crowded the drops are.
  lemma RepliesAreSwapped<D, M>(rs: seq<Request<D, M>>, i: nat)
    requires i < |rs|
    ensures Swapped(Slots(rs), i, Replies(rs)[i])
  {
    var a := Accesses(rs, rs[i].drop);
    var slots := Slots(rs);
    AccessesExact(rs, rs[i].drop);
    assert i in a;
    if |a| == 1 {
      forall j | 0 <= j < |rs| ensures !Sharing(slots, i, j) {
        if rs[j].drop == rs[i].drop { assert j in a; }
      }
    } else {
      var j := if i == a[0] then a[1] else a[0];
      assert Sharing(slots, i, j);
    }
  }

  lemma PartnersReply<D, M>(rs: seq<Request<D, M>>, i: nat, j: nat)
    requires i < |rs| && j < |rs| && Sharing(Slots(rs), i, j) && Uncrowded(Slots(rs), i)
    ensures Replies(rs)[i] == rs[j].body
  {
    RepliesAreSwapped(rs, i);
  }

  lemma OwnReply<D, M>(rs: seq<Request<D, M>>, i: nat)
    requires i < |rs| && forall j :: 0 <= j < |rs| ==> !Sharing(Slots(rs), i, j)
    ensures Replies(rs)[i] == rs[i].body
  {
    RepliesAreSwapped(rs, i);
  }

  // --- Order independence ---------------------------------------------------------

  function Permuted<T>(x: seq<T>, p: seq<nat>): (y: seq<T>)
    requires Permutation(p) && |p| == |x|
    ensures |y| == |x|
  {
    seq(|x|, k requires 0 <= k < |x| => x[p[k]])
  }

  // Exchanging after any reordering of the requests reorders the replies alike.
  ghost predicate Commutes<D, M>(rs: seq<Request<D, M>>) {
    forall p: seq<nat> :: Permutation(p) && |p| == |rs| ==>
      Replies(Permuted(rs, p)) == Permuted(Replies(rs), p)
  }

  // Every drop with more than two accesses carries only one message.
  ghost predicate Fair<D, M>(rs: seq<Request<D, M>>) {
    forall i, j :: 0 <= i < |rs| && 0 <= j < |rs| && rs[i].drop == rs[j].drop ==>
      |Accesses(rs, rs[i].drop)| > 2 ==> rs[i].body == rs[j].body
  }

  lemma FairCommutes<D, M>(rs: seq<Request<D, M>>, p: seq<nat>, k: nat)
    requires Fair(rs) && Permutation(p) && |p| == |rs| && k < |rs|
    ensures Reply(Permuted(rs, p), k) == Reply(rs, p[k])
  {
    var qs := Permuted(rs, p);
    var i, m := p[k], Reply(qs, k);
    RepliesAreSwapped(qs, k);
    RepliesAreSwapped(rs, i);
    var slots := Slots(rs);
    assert Swapped(slots, i, m) by {
      if j :| Sharing(Slots(qs), k, j) && m == qs[j].body {
        assert Sharing(slots, i, p[j]);
      } else {
        forall x | 0 <= x < |rs| ensures !Sharing(slots, i, x) {
          var j := PermutationOnto(p, x);
          assert !Sharing(Slots(qs), k, j);
        }
      }
    }
    var a := Accesses(rs, rs[i].drop);
    AccessesExact(rs, rs[i].drop);
    if |a| <= 2 {
      TwoUsersUncrowded(rs, i);
      SwappedUnique(slots, i, m, Reply(rs, i));
    }
  }

  // Shuffling a fair batch, exchanging and unshuffling the replies is the plain exchange.
  lemma ShuffledExchange<D, M>(s: seq<nat>, rs: seq<Request<D, M>>)
    requires Shuffler(s) && |s| == |rs| && Fair(rs)
    ensures Unshuffled(s, Replies(Shuffled(s, rs))) == Replies(rs)
  {
    var p := Perm(s, |s|);
    var back := Unshuffled(s, Replies(Shuffled(s, rs)));
    ShuffleIsPermutation(s, rs, Replies(Shuffled(s, rs)));
    assert Shuffled(s, rs) == Permuted(rs, p);
    forall i | 0 <= i < |rs| ensures back[i] == Replies(rs)[i] {
      var k := PermutationOnto(p, i);
      FairCommutes(rs, p, k);
    }
  }

  lemma {:induction false} TwoUsersUncrowded<D, M>(rs: seq<Request<D, M>>, i: nat)
    requires i < |rs| && |Accesses(rs, rs[i].drop)| <= 2
    ensures Uncrowded(Slots(rs), i)
  {
    forall j, k | Sharing(Slots(rs), i, j) && Sharing(Slots(rs), i, k) {
      OnePartner(rs, i, j, k);
    }
  }

  lemma {:induction false} OnePartner<D, M>(rs: seq<Request<D, M>>, i: nat, j: int, k: int)
    requires i < |rs| && |Accesses(rs, rs[i].drop)| <= 2
    requires Sharing(Slots(rs), i, j) && Sharing(Slots(rs), i, k)
    ensures j == k
  {
    var a := Accesses(rs, rs[i].drop);
    AccessesExact(rs, rs[i].drop);
    assert i in a && j in a && k in a;
  }

  // Every later user of a drop receives the message of its first user.
  lemma FirstAnswersAll<D, M>(rs: seq<Request<D, M>>, i: nat, k: nat)
    requires i < k < |rs| && rs[k].drop == rs[i].drop
    requires forall j :: 0 <= j < i ==> rs[j].drop != rs[i].drop
    ensures Reply(rs, k) == rs[i].body
  {
    var a := Accesses(rs, rs[i].drop);
    AccessesExact(rs, rs[i].drop);
    assert i in a && k in a;
    assert a[0] == i by {
      assert a[0] in a;
      var x :| 0 <= x < |a| && a[x] == i;
    }
  }

  // When the order does not matter, any request may be put first.
  lemma FirstIsSeen<D, M>(rs: seq<Request<D, M>>, i: nat, k: nat)
    requires Commutes(rs) && i < |rs| && k < |rs| && i != k && rs[i].drop == rs[k].drop
    ensures Reply(rs, k) == rs[i].body
  {
    var p := Swap(Iota(|rs|), 0, i);
    SwapStaysPermutation(Iota(|rs|), 0, i);
    var at := if k == 0 then i else k;
    assert p[at] == k && p[0] == i;
    var qs := Permuted(rs, p);
    assert Replies(qs)[at] == Permuted(Replies(rs), p)[at] == Reply(rs, k);
    FirstAnswersAll(qs, 0, at);
  }

  // The exchange is independent of the order of the batch exactly for fair batches.
  lemma CommutesExactlyWhenFair<D, M>(rs: seq<Request<D, M>>)
    ensures Commutes(rs) <==> Fair(rs)
  {
    if Fair(rs) {
      forall p: seq<nat> | Permutation(p) && |p| == |rs|
        ensures Replies(Permuted(rs, p)) == Permuted(Replies(rs), p)
      {
        forall k | 0 <= k < |rs|
          ensures Replies(Permuted(rs, p))[k] == Permuted(Replies(rs), p)[k]
        {
          FairCommutes(rs, p, k);
        }
      }
    }
    if Commutes(rs) {
      forall i, j | 0 <= i < |rs| && 0 <= j < |rs| && rs[i].drop == rs[j].drop
        && |Accesses(rs, rs[i].drop)| > 2
        ensures rs[i].body == rs[j].body
      {
        var a := Accesses(rs, rs[i].drop);
        AccessesExact(rs, rs[i].drop);
        var k := if a[0] != i && a[0] != j then a[0] else if a[1] != i && a[1] != j then a[1] else a[2];
        assert k in a;
        FirstIsSeen(rs, i, k);
        FirstIsSeen(rs, j, k);
      }
    }
  }

  function WithBodies<D, M>(rs: seq<Request<D, M>>, ms: seq<M>): (qs: seq<Request<D, M>>)
    requires |ms| == |rs|
    ensures |qs| == |rs|
  {
    seq(|rs|, i requires 0 <= i < |rs| => Request(rs[i].drop, ms[i]))
  }

  lemma {:induction false} SameAccesses<D, M>(rs: seq<Request<D, M>>, qs: seq<Request<D, M>>, d: D)
    requires |rs| == |qs| && forall i :: 0 <= i < |rs| ==> rs[i].drop == qs[i].drop
    ensures Accesses(rs, d) == Accesses(qs, d)
  {
    if rs != [] { SameAccesses(rs[..|rs| - 1], qs[..|qs| - 1], d); }
  }

  // Sending the replies back through the same drops returns every message.
  lemma ExchangeInvolutive<D, M>(rs: seq<Request<D, M>>, i: nat)
    requires i < |rs| && |Accesses(rs, rs[i].drop)| <= 2
    ensures Reply(WithBodies(rs, Replies(rs)), i) == rs[i].body
  {
    var qs := WithBodies(rs, Replies(rs));
    SameAccesses(rs, qs, rs[i].drop);
    AccessesExact(rs, rs[i].drop);
    assert i in Accesses(rs, rs[i].drop);
    if |Accesses(rs, rs[i].drop)| == 2 {
      var a := Accesses(rs, rs[i].drop);
      assert a[0] in a && a[1] in a;
    }
  }
}
