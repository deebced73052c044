/** Rejection sampling (Intn) and the drawing of a whole shuffler (NewShuffler),
    over an explicit list of the 32-bit words the random source yields. */
module Sampling {
  import opened Bytes
  import opened Shuffling

  const MAX: uint32 := 0xFFFF_FFFF

  predicate Accepted(n: nat, w: nat)
    requires 0 < n
  {
    w < MAX - MAX % n
  }

  // Reads words until one is accepted; None when the words run out first.
  method Intn(words: seq<uint32>, n: nat) returns (r: Option<nat>, used: nat)
    requires 0 < n <= MAX
    ensures used <= |words|
    ensures r.None? <==> forall i :: 0 <= i < |words| ==> !Accepted(n, words[i])
    ensures r.Some? ==>
      && 0 < used && Accepted(n, words[used - 1]) && r.value == words[used - 1] % n
      && forall i :: 0 <= i < used - 1 ==> !Accepted(n, words[i])
  {
    var m := MAX % n;
    used := 0;
    while used < |words|
      invariant used <= |words|
      invariant forall i :: 0 <= i < used ==> !Accepted(n, words[i])
    {
      var x := words[used];
      used := used + 1;
      if x < MAX - m { return Some(x % n), used; }
    }
    r := None;
  }

  // The residues k*n + r with k < q.
  function Words(n: nat, r: nat, q: nat): (ws: set<nat>) {
    if q == 0 then {} else Words(n, r, q - 1) + {(q - 1) * n + r}
  }

  lemma {:induction false} WordIn(n: nat, r: nat, q: nat, w: nat)
    requires r < n
    ensures w in Words(n, r, q) <==> w < q * n && w % n == r
  {
    if q > 0 {
      WordIn(n, r, q - 1, w);
      WordInBlock(n, r, q - 1, w);
    }
  }

  // The one word of block k with residue r.
  lemma WordInBlock(n: nat, r: nat, k: nat, w: nat)
    requires r < n
    ensures w == k * n + r <==> k * n <= w < (k + 1) * n && w % n == r
    ensures k * n <= k * n + r < (k + 1) * n == k * n + n
  {
    Distribute(n, k);
    Commute(n, k, k + 1);
    if k * n <= w < k * n + n { ModuloBlock(w, n, k); }
  }

  lemma Commute(n: nat, a: nat, b: nat)
    ensures n * a == a * n && n * b == b * n
  {
  }

  lemma Distribute(a: nat, b: nat)
    ensures a * (b + 1) == a * b + a
  {
  }

  lemma {:induction false} WordsSize(n: nat, r: nat, q: nat)
    requires r < n
    ensures |Words(n, r, q)| == q
  {
    if q > 0 {
      WordsSize(n, r, q - 1);
      NewWord(n, r, q - 1);
    }
  }

  lemma NewWord(n: nat, r: nat, q: nat)
    requires r < n
    ensures q * n + r !in Words(n, r, q)
  {
    WordIn(n, r, q, q * n + r);
  }

  lemma {:induction false} MulStep(a: nat, b: nat, n: nat)
    ensures a < b ==> a * n + n <= b * n
  {
    if a < b {
      assert b * n == (b - 1) * n + n;
      MulStep(a, b - 1, n);
    }
  }

  lemma ModuloBlock(w: nat, n: nat, k: nat)
    requires 0 < n && k * n <= w < k * n + n
    ensures w / n == k && w % n == w - k * n
  {
    var d := w / n;
    assert w == d * n + w % n;
    MulStep(d, k, n);
    MulStep(k, d, n);
  }

  // How many accepted words there are for each residue.
  function Weight(n: nat): nat
    requires 0 < n
  {
    (MAX - MAX % n) / n
  }

  // The accepted words make up Weight(n) whole blocks.
  lemma WholeBlocks(n: nat)
    requires 0 < n <= MAX
    ensures 0 < Weight(n) && Weight(n) * n == MAX - MAX % n
  {
    var k := MAX / n;
    QuotientRemainder(MAX, n);
    ModuloBlock(k * n, n, k);
    MulStep(k, 1, n);
  }

  lemma QuotientRemainder(x: nat, n: nat)
    requires 0 < n
    ensures x == (x / n) * n + x % n && 0 <= x % n < n
  {
  }

  // Each residue below n is produced by exactly Weight(n) of the 2^32 words.
  lemma IntnUniform(n: nat, r: nat)
    requires 0 < n <= MAX && r < n
    ensures 0 < Weight(n) && |Words(n, r, Weight(n))| == Weight(n)
    ensures forall w: uint32 ::
      w in Words(n, r, Weight(n)) <==> Accepted(n, w) && w % n == r
  {
    WholeBlocks(n);
    WordsSize(n, r, Weight(n));
    forall w: uint32 ensures w in Words(n, r, Weight(n)) <==> Accepted(n, w) && w % n == r {
      AcceptedWord(n, r, w);
    }
  }

  // --- Whole shufflers ---------------------------------------------------------

  // The accepted words, one per position, that make NewShuffler produce s.
  function Scripts(s: seq<nat>): (scripts: set<seq<nat>>) {
    if s == [] then {[]} else Extend(Scripts(s[..|s| - 1]), Words(|s|, s[|s| - 1], Weight(|s|)))
  }

  function Extend(scripts: set<seq<nat>>, words: set<nat>): (r: set<seq<nat>>) {
    set ws, w | ws in scripts && w in words :: ws + [w]
  }

  function Column(scripts: set<seq<nat>>, w: nat): (r: set<seq<nat>>) {
    set ws | ws in scripts :: ws + [w]
  }

  lemma {:induction false} ExtendSize(scripts: set<seq<nat>>, words: set<nat>)
    ensures |Extend(scripts, words)| == |scripts| * |words|
    decreases words
  {
    if words == {} {
      assert Extend(scripts, words) == {};
    } else {
      var w :| w in words;
      var rest := words - {w};
      ExtendSize(scripts, rest);
      ExtendOne(scripts, rest, w);
      assert words == rest + {w} && |words| == |rest| + 1;
      Distribute(|scripts|, |rest|);
    }
  }

  lemma ExtendOne(scripts: set<seq<nat>>, rest: set<nat>, w: nat)
    requires w !in rest
    ensures |Extend(scripts, rest + {w})| == |Extend(scripts, rest)| + |scripts|
  {
    ColumnSize(scripts, w);
    ExtendSplits(scripts, rest, w);
  }

  lemma ExtendSplits(scripts: set<seq<nat>>, rest: set<nat>, w: nat)
    requires w !in rest
    ensures Extend(scripts, rest + {w}) == Extend(scripts, rest) + Column(scripts, w)
    ensures Extend(scripts, rest) !! Column(scripts, w)
  {
    forall x | x in Column(scripts, w) ensures x !in Extend(scripts, rest) && x in Extend(scripts, rest + {w}) {
      assert x[|x| - 1] == w;
      var ws :| ws in scripts && x == ws + [w];
    }
    forall x | x in Extend(scripts, rest + {w}) ensures x in Extend(scripts, rest) + Column(scripts, w) {
      var ws, v :| ws in scripts && v in rest + {w} && x == ws + [v];
    }
    forall x | x in Extend(scripts, rest) ensures x in Extend(scripts, rest + {w}) {
      var ws, v :| ws in scripts && v in rest && x == ws + [v];
    }
  }

  lemma {:induction false} ColumnSize(scripts: set<seq<nat>>, w: nat)
    ensures |Column(scripts, w)| == |scripts|
  {
    if scripts != {} {
      var x :| x in scripts;
      var rest := scripts - {x};
      ColumnSize(rest, w);
      forall ws | ws in rest ensures ws + [w] != x + [w] {
        assert (ws + [w])[..|ws|] == ws && (x + [w])[..|x|] == x;
      }
      assert Column(scripts, w) == Column(rest, w) + {x + [w]};
    }
  }

  // The scripts of s are exactly the lists of accepted words with residues s.
  lemma {:induction false} ScriptsExact(s: seq<nat>, ws: seq<uint32>)
    requires Shuffler(s) && |s| <= MAX
    ensures ws in Scripts(s) <==> Script(s, ws)
  {
    if s != [] && ws != [] {
      var n, m := |s|, |ws|;
      ScriptsExact(s[..n - 1], ws[..m - 1]);
      IntnUniform(n, s[n - 1]);
      assert ws == ws[..m - 1] + [ws[m - 1]];
      ExtendIn(Scripts(s[..n - 1]), Words(n, s[n - 1], Weight(n)), ws[..m - 1], ws[m - 1]);
      ScriptGrows(s, ws);
    }
  }

  ghost predicate Script(s: seq<nat>, ws: seq<uint32>) {
    && |ws| == |s|
    && forall i :: 0 <= i < |s| ==> Accepted(i + 1, ws[i]) && ws[i] % (i + 1) == s[i]
  }

  lemma ScriptGrows(s: seq<nat>, ws: seq<uint32>)
    requires s != [] && ws != []
    ensures var n, m := |s|, |ws|;
      Script(s, ws) <==> Script(s[..n - 1], ws[..m - 1]) && Accepted(n, ws[m - 1]) && ws[m - 1] % n == s[n - 1]
  {
    var n, m := |s|, |ws|;
    if Script(s[..n - 1], ws[..m - 1]) && Accepted(n, ws[m - 1]) && ws[m - 1] % n == s[n - 1] {
      forall i | 0 <= i < n ensures Accepted(i + 1, ws[i]) && ws[i] % (i + 1) == s[i] {
        if i < n - 1 { assert ws[..m - 1][i] == ws[i] && s[..n - 1][i] == s[i]; }
      }
    }
  }

  lemma ExtendIn(scripts: set<seq<nat>>, words: set<nat>, init: seq<nat>, last: nat)
    ensures init + [last] in Extend(scripts, words) <==> init in scripts && last in words
  {
    var x := init + [last];
    if x in Extend(scripts, words) {
      var us, w :| us in scripts && w in words && x == us + [w];
      assert us == x[..|x| - 1] == init && w == x[|x| - 1] == last;
    }
  }

  function TotalWeight(n: nat): nat {
    if n == 0 then 1 else TotalWeight(n - 1) * Weight(n)
  }

  // All shufflers of length n have the same number of scripts, so each of the
  // n! permutations is equally likely when the words are uniform.
  lemma {:induction false} ShufflersEquallyWeighted(s: seq<nat>)
    requires Shuffler(s) && |s| <= MAX
    ensures |Scripts(s)| == TotalWeight(|s|)
  {
    if s != [] {
      var n := |s|;
      ShufflersEquallyWeighted(s[..n - 1]);
      IntnUniform(n, s[n - 1]);
      ExtendSize(Scripts(s[..n - 1]), Words(n, s[n - 1], Weight(n)));
    }
  }

  // The numbers for positions i, ..., n-1 read off the words left to right,
  // skipping the words that position rejects; None when the words run out.
  function Drawn(words: seq<uint32>, i: nat, n: nat): (r: Option<seq<nat>>)
    requires i <= n
    decreases |words|
  {
    if i == n then Some([])
    else if words == [] then None
    else if !Accepted(i + 1, words[0]) then Drawn(words[1..], i, n)
    else Prepend([words[0] % (i + 1)], Drawn(words[1..], i + 1, n))
  }

  function Prepend(p: seq<nat>, r: Option<seq<nat>>): Option<seq<nat>> {
    match r case None => None case Some(q) => Some(p + q)
  }

  lemma {:induction false} RejectedSkipped(words: seq<uint32>, i: nat, n: nat, used: nat)
    requires i < n && used <= |words|
    requires forall k :: 0 <= k < used ==> !Accepted(i + 1, words[k])
    ensures Drawn(words, i, n) == Drawn(words[used..], i, n)
  {
    if used > 0 {
      RejectedSkipped(words[1..], i, n, used - 1);
      assert words[1..][used - 1..] == words[used..];
    } else {
      assert words[0..] == words;
    }
  }

  // One call of Intn advances the reading of the whole shuffler by one number.
  lemma IntnAdvances(words: seq<uint32>, i: nat, n: nat, used: nat, p: seq<nat>)
    requires i < n && 0 < used <= |words| && Accepted(i + 1, words[used - 1])
    requires forall k :: 0 <= k < used - 1 ==> !Accepted(i + 1, words[k])
    ensures Prepend(p, Drawn(words, i, n))
         == Prepend(p + [words[used - 1] % (i + 1)], Drawn(words[used..], i + 1, n))
  {
    RejectedSkipped(words, i, n, used - 1);
    assert words[used - 1..][1..] == words[used..];
    PrependTwice(p, [words[used - 1] % (i + 1)], Drawn(words[used..], i + 1, n));
  }

  method NewShuffler(words: seq<uint32>, n: nat) returns (r: Option<seq<nat>>, ghost picked: seq<uint32>)
    requires n <= MAX
    ensures r == Drawn(words, 0, n)
    ensures r.Some? ==> |r.value| == n && Shuffler(r.value) && picked in Scripts(r.value)
  {
    var p: seq<nat> := [];
    picked := [];
    var left := words;
    ghost var all := Drawn(words, 0, n);
    assert all.Some? ==> [] + all.value == all.value;
    for i := 0 to n
      invariant |p| == i && Shuffler(p) && Script(p, picked)
      invariant all == Prepend(p, Drawn(left, i, n))
    {
      var x, used := Intn(left, i + 1);
      if x.None? {
        RejectedSkipped(left, i, n, |left|);
        return None, picked;
      }
      IntnAdvances(left, i, n, used, p);
      picked := picked + [left[used - 1]];
      p := p + [x.value];
      left := left[used..];
    }
    ScriptsExact(p, picked);
    assert p + [] == p;
    r := Some(p);
  }

  // --- Words that are rejected on the way ------------------------------------------------

  // The numbers drawn so far, p, after one more word.
  function Heeding(p: seq<nat>, w: nat): (q: seq<nat>) {
    if Accepted(|p| + 1, w) then p + [w % (|p| + 1)] else p
  }

  function ReadOn(p: seq<nat>, words: seq<nat>): (q: seq<nat>)
    ensures p <= q
  {
    if words == [] then p else Heeding(ReadOn(p, words[..|words| - 1]), words[|words| - 1])
  }

  lemma {:induction false} ReadAhead(p: seq<nat>, words: seq<nat>)
    requires words != []
    ensures ReadOn(p, words) == ReadOn(Heeding(p, words[0]), words[1..])
  {
    var m := |words| - 1;
    if m > 0 {
      ReadAhead(p, words[..m]);
      assert words[1..][..m - 1] == words[..m][1..];
    } else {
      assert words[..0] == [] && words[1..] == [];
    }
  }

  function FirstOf(q: seq<nat>, n: nat): (r: Option<seq<nat>>) {
    if |q| >= n then Some(q[..n]) else None
  }

  // NewShuffler reads on until it has n numbers.
  lemma {:induction false} DrawnIsRead(words: seq<uint32>, n: nat, p: seq<nat>)
    requires |p| <= n
    ensures Prepend(p, Drawn(words, |p|, n)) == FirstOf(ReadOn(p, words), n)
    decreases |words|
  {
    if |p| == n {
      assert p + [] == p == ReadOn(p, words)[..n];
    } else if words == [] {
      assert ReadOn(p, words) == p;
    } else {
      ReadAhead(p, words);
      DrawnStep(words, n, p);
      DrawnIsRead(words[1..], n, Heeding(p, words[0]));
    }
  }

  lemma DrawnStep(words: seq<uint32>, n: nat, p: seq<nat>)
    requires |p| < n && words != []
    ensures Prepend(p, Drawn(words, |p|, n))
         == Prepend(Heeding(p, words[0]), Drawn(words[1..], |Heeding(p, words[0])|, n))
  {
    if Accepted(|p| + 1, words[0]) {
      PrependTwice(p, [words[0] % (|p| + 1)], Drawn(words[1..], |p| + 1, n));
    }
  }

  lemma PrependTwice(p: seq<nat>, x: seq<nat>, r: Option<seq<nat>>)
    ensures Prepend(p, Prepend(x, r)) == Prepend(p + x, r)
  {
    if r.Some? { assert p + (x + r.value) == p + x + r.value; }
  }

  function Rejected(n: nat): (ws: set<nat>)
    requires 0 < n
  {
    set w: nat | w <= MAX && !Accepted(n, w)
  }

  // The lists of k words after which exactly s has been drawn.
  function Readings(s: seq<nat>, k: nat): (lists: set<seq<nat>>)
    decreases k
  {
    if k == 0 then (if s == [] then {[]} else {})
    else Extend(Readings(s, k - 1), Rejected(|s| + 1)) + Completing(s, k)
  }

  // Those of them whose last word completes s.
  function Completing(s: seq<nat>, k: nat): (lists: set<seq<nat>>)
    requires k > 0
    decreases k, 0
  {
    if s == [] then {}
    else Extend(Readings(s[..|s| - 1], k - 1), Words(|s|, s[|s| - 1], Weight(|s|)))
  }

  ghost predicate AreWords(ws: seq<nat>) {
    forall i :: 0 <= i < |ws| ==> ws[i] <= MAX
  }

  lemma {:induction false} ReadingsExact(s: seq<nat>, k: nat, ws: seq<nat>)
    requires Shuffler(s) && |s| <= MAX
    ensures ws in Readings(s, k) <==> |ws| == k && AreWords(ws) && ReadOn([], ws) == s
    decreases k, 1
  {
    if k > 0 {
      if ws != [] {
        SkippingExact(s, k, ws);
        CompletingExact(s, k, ws);
      } else {
        NoneEmpty(s, k);
      }
    }
  }

  lemma SkippingExact(s: seq<nat>, k: nat, ws: seq<nat>)
    requires Shuffler(s) && |s| <= MAX && k > 0 && ws != []
    ensures ws in Extend(Readings(s, k - 1), Rejected(|s| + 1)) <==>
      |ws| == k && AreWords(ws) && ReadOn([], ws) == s && ReadOn([], ws[..k - 1]) == s
    decreases k, 0
  {
    var init, last := ws[..|ws| - 1], ws[|ws| - 1];
    assert ws == init + [last];
    ReadingsExact(s, k - 1, init);
    ExtendIn(Readings(s, k - 1), Rejected(|s| + 1), init, last);
    assert AreWords(ws) <==> AreWords(init) && last <= MAX;
  }

  lemma NoneEmpty(s: seq<nat>, k: nat)
    requires k > 0
    ensures [] !in Readings(s, k) && [] !in Completing(s, k)
  {
  }

  lemma CompletingExact(s: seq<nat>, k: nat, ws: seq<nat>)
    requires Shuffler(s) && |s| <= MAX && k > 0
    ensures ws in Completing(s, k) <==>
      |ws| == k && AreWords(ws) && ReadOn([], ws) == s && ReadOn([], ws[..k - 1]) != s
    decreases k, 0
  {
    if ws == [] {
      NoneEmpty(s, k);
    } else {
      var init, last := ws[..|ws| - 1], ws[|ws| - 1];
      assert ws == init + [last];
      assert AreWords(ws) <==> AreWords(init) && last <= MAX;
      if s != [] {
        var n := |s|;
        ReadingsExact(s[..n - 1], k - 1, init);
        ExtendIn(Readings(s[..n - 1], k - 1), Words(n, s[n - 1], Weight(n)), init, last);
        if last <= MAX { CompletingWord(s, ReadOn([], init), last); }
        WordBounded(n, s[n - 1], last);
      }
    }
  }

  lemma WordBounded(n: nat, r: nat, w: nat)
    requires 0 < n <= MAX && r < n
    ensures w in Words(n, r, Weight(n)) ==> w <= MAX
  {
    WholeBlocks(n);
    WordIn(n, r, Weight(n), w);
  }

  // Which word completes s.
  lemma CompletingWord(s: seq<nat>, p: seq<nat>, w: nat)
    requires s != [] && Shuffler(s) && |s| <= MAX && w <= MAX
    ensures p == s[..|s| - 1] && w in Words(|s|, s[|s| - 1], Weight(|s|)) <==> Heeding(p, w) == s && p != s
  {
    AcceptedWord(|s|, s[|s| - 1], w);
    HeedingTo(s, p, w);
  }

  lemma AcceptedWord(n: nat, r: nat, w: nat)
    requires 0 < n <= MAX && r < n && w <= MAX
    ensures w in Words(n, r, Weight(n)) <==> Accepted(n, w) && w % n == r
  {
    WholeBlocks(n);
    WordIn(n, r, Weight(n), w);
  }

  lemma HeedingTo(s: seq<nat>, p: seq<nat>, w: nat)
    requires s != []
    ensures Heeding(p, w) == s && p != s <==>
      p == s[..|s| - 1] && Accepted(|s|, w) && w % |s| == s[|s| - 1]
  {
    assert s == s[..|s| - 1] + [s[|s| - 1]];
  }

  // How many lists of k words there are for any n numbers.
  function Ways(n: nat, k: nat): nat
    decreases k
  {
    if k == 0 then (if n == 0 then 1 else 0)
    else Ways(n, k - 1) * |Rejected(n + 1)| + WaysToComplete(n, k)
  }

  function WaysToComplete(n: nat, k: nat): nat
    requires k > 0
    decreases k, 0
  {
    if n == 0 then 0 else Ways(n - 1, k - 1) * Weight(n)
  }

  lemma {:induction false} ReadingsCounted(s: seq<nat>, k: nat)
    requires Shuffler(s) && |s| <= MAX
    ensures |Readings(s, k)| == Ways(|s|, k)
    decreases k, 1
  {
    if k > 0 {
      ReadingsCounted(s, k - 1);
      CompletingCounted(s, k);
      ReadingsSplit(s, k);
      SameProduct(|Readings(s, k - 1)|, Ways(|s|, k - 1), |Rejected(|s| + 1)|);
    }
  }

  lemma ReadingsSplit(s: seq<nat>, k: nat)
    requires Shuffler(s) && |s| <= MAX && k > 0
    ensures |Readings(s, k)| == |Readings(s, k - 1)| * |Rejected(|s| + 1)| + |Completing(s, k)|
  {
    ExtendSize(Readings(s, k - 1), Rejected(|s| + 1));
    SkippingApart(s, k);
  }

  lemma SameProduct(a: nat, b: nat, c: nat)
    requires a == b
    ensures a * c == b * c
  {
  }

  lemma SkippingApart(s: seq<nat>, k: nat)
    requires Shuffler(s) && |s| <= MAX && k > 0
    ensures Extend(Readings(s, k - 1), Rejected(|s| + 1)) !! Completing(s, k)
  {
    forall ws | ws in Extend(Readings(s, k - 1), Rejected(|s| + 1)) ensures ws !in Completing(s, k) {
      SkippingExact(s, k, ws);
      CompletingExact(s, k, ws);
    }
  }

  // However long the list of words, as many lists of that length make NewShuffler end with
  // s at their last word for one s as for any other s of the same length.
  lemma {:induction false} CompletingCounted(s: seq<nat>, k: nat)
    requires Shuffler(s) && |s| <= MAX && k > 0
    ensures |Completing(s, k)| == WaysToComplete(|s|, k)
    decreases k, 0
  {
    if s != [] {
      ReadingsCounted(s[..|s| - 1], k - 1);
      CompletingSplit(s, k);
      SameProduct(|Readings(s[..|s| - 1], k - 1)|, Ways(|s| - 1, k - 1), Weight(|s|));
    }
  }

  lemma CompletingSplit(s: seq<nat>, k: nat)
    requires Shuffler(s) && 0 < |s| <= MAX && k > 0
    ensures |Completing(s, k)| == |Readings(s[..|s| - 1], k - 1)| * Weight(|s|)
  {
    var words := Words(|s|, s[|s| - 1], Weight(|s|));
    WordsSize(|s|, s[|s| - 1], Weight(|s|));
    ExtendSize(Readings(s[..|s| - 1], k - 1), words);
    SameProduct(|words|, Weight(|s|), |Readings(s[..|s| - 1], k - 1)|);
  }

  // The lists counted are exactly those on which NewShuffler yields s and uses every word.
  lemma CompletingDraws(s: seq<nat>, words: seq<uint32>)
    requires Shuffler(s) && 0 < |s| <= MAX && words != []
    ensures words in Completing(s, |words|) <==>
      Drawn(words, 0, |s|) == Some(s) && Drawn(words[..|words| - 1], 0, |s|).None?
  {
    var k := |words|;
    CompletingExact(s, k, words);
    DrawnIsRead(words, |s|, []);
    DrawnIsRead(words[..k - 1], |s|, []);
    PrependNothing(Drawn(words, 0, |s|));
    PrependNothing(Drawn(words[..k - 1], 0, |s|));
    var p, q := ReadOn([], words[..k - 1]), ReadOn([], words);
    assert q == Heeding(p, words[k - 1]);
    assert |q| >= |s| > |p| ==> q == q[..|s|];
    assert q == s && p != s ==> |p| < |s|;
  }

  lemma PrependNothing(r: Option<seq<nat>>)
    ensures Prepend([], r) == r
  {
    if r.Some? { assert [] + r.value == r.value; }
  }

  // What is drawn is a shuffler of the length asked for.
  lemma DrawnShuffler(words: seq<uint32>, n: nat)
    requires Drawn(words, 0, n).Some?
    ensures |Drawn(words, 0, n).value| == n && Shuffler(Drawn(words, 0, n).value)
  {
    DrawnIsRead(words, n, []);
    PrependNothing(Drawn(words, 0, n));
    ReadShuffler(words);
  }

  lemma {:induction false} ReadShuffler(words: seq<uint32>)
    ensures Shuffler(ReadOn([], words))
  {
    if words != [] { ReadShuffler(words[..|words| - 1]); }
  }
}
