/** The pipeline of rounds through the chain of servers. Every server has one
    Idle lock, shared by its conversation and dial services. A round takes the
    lock of a server in NewRound; while closing, it takes the lock of the next
    server before it gives up its own. The model interleaves the steps of any
    number of rounds over a chain of n servers. */
module Pipeline {
  import opened Bytes

  datatype Kind = Convo | Dial
  datatype RoundId = RoundId(kind: Kind, number: uint32)

  datatype Stage =
    | Waiting            // NewRound on the first server still to come
    | Holding(at: nat)   // holds the lock of server `at`
    | Bridging(at: nat)  // NewRound on the next server is done, Unlock of `at` is not
    | Returning(at: nat) // holds no lock; server `at` has still to finish
    | Done
    | Wedged(at: nat)    // NewRound on `at` took the lock, then failed

  // Per round its stage; per server the round that holds the lock, the rounds its
  // services know, and the order in which rounds were started on it.
  datatype State = State(stage: seq<Stage>, holder: seq<Option<nat>>, known: seq<set<RoundId>>, log: seq<seq<nat>>)

  function Init(jobs: seq<RoundId>, n: nat): State {
    State(seq(|jobs|, _ => Waiting), seq(n, _ => None), seq(n, _ => {}), seq(n, _ => []))
  }

  // NewRound of round j on server i, whose lock is free. A round number that is
  // already known is an error, which leaves the lock taken.
  function Enter(jobs: seq<RoundId>, s: State, j: nat, i: nat, next: Stage): State
    requires j < |jobs| == |s.stage| && i < |s.holder| == |s.known| == |s.log|
  {
    if jobs[j] in s.known[i] then
      s.(holder := s.holder[i := Some(j)], stage := s.stage[j := Wedged(i)])
    else
      s.(holder := s.holder[i := Some(j)], stage := s.stage[j := next],
         known := s.known[i := s.known[i] + {jobs[j]}], log := s.log[i := s.log[i] + [j]])
  }

  ghost predicate Shaped(jobs: seq<RoundId>, n: nat, s: State) {
    && |s.stage| == |jobs| && |s.holder| == |s.known| == |s.log| == n
    && forall j :: 0 <= j < |jobs| ==> InRange(s.stage[j], n)
  }

  predicate InRange(t: Stage, n: nat) {
    match t
    case Waiting => 0 < n
    case Holding(i) => i < n
    case Bridging(i) => i + 1 < n
    case Returning(i) => i < n
    case Done => true
    case Wedged(i) => i < n
  }

  // The next step of round j, if it is not blocked.
  function Step(jobs: seq<RoundId>, n: nat, s: State, j: nat): (r: Option<State>)
    requires Shaped(jobs, n, s) && j < |jobs|
  {
    match s.stage[j]
    case Waiting => if s.holder[0].Some? then None else Some(Enter(jobs, s, j, 0, Holding(0)))
    case Holding(i) =>
      if i + 1 == n then Some(s.(holder := s.holder[i := None], stage := s.stage[j := Returning(i)]))
      else if s.holder[i + 1].Some? then None
      else Some(Enter(jobs, s, j, i + 1, Bridging(i)))
    case Bridging(i) => Some(s.(holder := s.holder[i := None], stage := s.stage[j := Holding(i + 1)]))
    case Returning(i) =>
      Some(s.(stage := s.stage[j := if i == 0 then Done else Returning(i - 1)],
              known := if jobs[j].kind.Convo? then s.known[i := s.known[i] - {jobs[j]}] else s.known))
    case Done => None
    case Wedged(_) => None
  }

  ghost predicate Next(jobs: seq<RoundId>, n: nat, s: State, s': State) {
    Shaped(jobs, n, s) && exists j :: 0 <= j < |jobs| && Step(jobs, n, s, j) == Some(s')
  }

  // --- What every step keeps -----------------------------------------------------

  predicate Occupies(t: Stage, i: nat) {
    match t
    case Holding(k) => i == k
    case Bridging(k) => i == k || i == k + 1
    case Wedged(k) => i == k || i + 1 == k
    case _ => false
  }

  // Started on server i, not on the next one.
  predicate Ahead(t: Stage, i: nat) {
    t == Holding(i) || (t.Bridging? && t.at + 1 == i) || t == Wedged(i + 1)
  }

  ghost predicate LocksAgree(s: State) {
    forall i, j :: 0 <= i < |s.holder| && 0 <= j < |s.stage| ==>
      (s.holder[i] == Some(j) <==> Occupies(s.stage[j], i))
  }

  // What server i has started and server i+1 has not: at most one round.
  function Lag(s: State, i: nat): (l: seq<nat>)
    requires i < |s.holder|
  {
    if s.holder[i].Some? && s.holder[i].value < |s.stage| && Ahead(s.stage[s.holder[i].value], i)
    then [s.holder[i].value] else []
  }

  ghost predicate LogsAgree(s: State)
    requires |s.holder| == |s.log|
  {
    forall i :: 0 <= i < |s.log| - 1 ==> s.log[i] == s.log[i + 1] + Lag(s, i)
  }

  ghost predicate HoldersExist(s: State) {
    forall i :: 0 <= i < |s.holder| && s.holder[i].Some? ==> s.holder[i].value < |s.stage|
  }

  ghost predicate Inv(jobs: seq<RoundId>, n: nat, s: State) {
    Shaped(jobs, n, s) && HoldersExist(s) && LocksAgree(s) && LogsAgree(s)
  }

  lemma InitInv(jobs: seq<RoundId>, n: nat)
    requires n > 0
    ensures Inv(jobs, n, Init(jobs, n))
  {
  }

  lemma StepKeepsLocks(jobs: seq<RoundId>, n: nat, s: State, j: nat)
    requires Inv(jobs, n, s) && j < |jobs| && Step(jobs, n, s, j).Some?
    ensures var s' := Step(jobs, n, s, j).value; Shaped(jobs, n, s') && HoldersExist(s') && LocksAgree(s')
  {
    var s' := Step(jobs, n, s, j).value;
    forall i, k | 0 <= i < n && 0 <= k < |jobs|
      ensures s'.holder[i] == Some(k) <==> Occupies(s'.stage[k], i)
    {
      assert s.holder[i] == Some(k) <==> Occupies(s.stage[k], i);
      assert s.holder[i] == Some(j) <==> Occupies(s.stage[j], i);
    }
  }

  lemma StepKeepsLogs(jobs: seq<RoundId>, n: nat, s: State, j: nat)
    requires Inv(jobs, n, s) && j < |jobs| && Step(jobs, n, s, j).Some?
    ensures var s' := Step(jobs, n, s, j).value; Shaped(jobs, n, s') && LogsAgree(s')
  {
    StepKeepsLocks(jobs, n, s, j);
    var s' := Step(jobs, n, s, j).value;
    forall i | 0 <= i < n - 1
      ensures s'.log[i] == s'.log[i + 1] + Lag(s', i)
    {
      assert s.log[i] == s.log[i + 1] + Lag(s, i);
      assert s.holder[i] == Some(j) <==> Occupies(s.stage[j], i);
      assert s'.holder[i] == Some(j) <==> Occupies(s'.stage[j], i);
    }
  }

  // --- Whole runs -------------------------------------------------------------------

  ghost predicate Run(jobs: seq<RoundId>, n: nat, run: seq<State>) {
    && n > 0 && run != [] && run[0] == Init(jobs, n)
    && forall k :: 0 <= k < |run| - 1 ==> Next(jobs, n, run[k], run[k + 1])
  }

  lemma {:induction false} RunKeepsInv(jobs: seq<RoundId>, n: nat, run: seq<State>, k: nat)
    requires Run(jobs, n, run) && k < |run|
    ensures Inv(jobs, n, run[k])
  {
    if k == 0 {
      InitInv(jobs, n);
    } else {
      RunKeepsInv(jobs, n, run, k - 1);
      assert Next(jobs, n, run[k - 1], run[k]);
      var j :| 0 <= j < |jobs| && Step(jobs, n, run[k - 1], j) == Some(run[k]);
      StepKeepsLocks(jobs, n, run[k - 1], j);
      StepKeepsLogs(jobs, n, run[k - 1], j);
    }
  }

  // In every run a later server has started the same rounds in the same order as an
  // earlier one, except for at most one round per server in between that it has yet
  // to start; conversation and dial rounds alike.
  lemma {:induction false} OrderKept(jobs: seq<RoundId>, n: nat, run: seq<State>, k: nat, i: nat, i': nat)
    requires Run(jobs, n, run) && k < |run| && i <= i' < n
    ensures |run[k].log| == n && run[k].log[i'] <= run[k].log[i]
    ensures |run[k].log[i]| <= |run[k].log[i']| + (i' - i)
    decreases i' - i
  {
    RunKeepsInv(jobs, n, run, k);
    if i < i' {
      OrderKept(jobs, n, run, k, i + 1, i');
      assert run[k].log[i] == run[k].log[i + 1] + Lag(run[k], i);
    }
  }

  // In every run, no two rounds are between NewRound and Unlock on the same server.
  lemma Exclusion(jobs: seq<RoundId>, n: nat, run: seq<State>, k: nat, i: nat, j: nat, j': nat)
    requires Run(jobs, n, run) && k < |run| && i < n && j < |jobs| && j' < |jobs|
    requires |run[k].stage| == |jobs| && Occupies(run[k].stage[j], i) && Occupies(run[k].stage[j'], i)
    ensures j == j'
  {
    RunKeepsInv(jobs, n, run, k);
    assert run[k].holder[i] == Some(j) && run[k].holder[i] == Some(j');
  }

  // --- Which rounds a server knows --------------------------------------------------

  // The round has entered server i and the services there still know it.
  predicate Inside(id: RoundId, t: Stage, i: nat) {
    match t
    case Waiting => false
    case Holding(k) => i <= k
    case Bridging(k) => i <= k + 1
    case Returning(k) => id.kind.Dial? || i <= k
    case Done => id.kind.Dial?
    case Wedged(_) => false
  }

  ghost predicate InsideAt(jobs: seq<RoundId>, s: State, i: nat, j: nat)
    requires |jobs| == |s.stage| && j < |jobs|
  {
    Inside(jobs[j], s.stage[j], i)
  }

  // A server knows the rounds inside it, no two of them have the same kind and number,
  // and it knows no other; a refused round was refused on the first server.
  ghost predicate OwnersAgree(jobs: seq<RoundId>, s: State)
    requires |jobs| == |s.stage|
  {
    && (forall i, j :: 0 <= i < |s.known| && 0 <= j < |jobs| && InsideAt(jobs, s, i, j) ==> jobs[j] in s.known[i])
    && (forall i, j, j' :: (0 <= i < |s.known| && 0 <= j < |jobs| && 0 <= j' < |jobs| && j != j'
          && InsideAt(jobs, s, i, j) && InsideAt(jobs, s, i, j')) ==> jobs[j] != jobs[j'])
    && (forall i, id :: 0 <= i < |s.known| && id in s.known[i] ==> Owned(jobs, s, i, id))
    && (forall j :: 0 <= j < |jobs| && s.stage[j].Wedged? ==> s.stage[j].at == 0)
  }

  ghost predicate Owned(jobs: seq<RoundId>, s: State, i: nat, id: RoundId)
    requires |jobs| == |s.stage|
  {
    exists j :: 0 <= j < |jobs| && jobs[j] == id && InsideAt(jobs, s, i, j)
  }

  // A round that got past one server is never refused by the next.
  lemma NeverRefusedLater(jobs: seq<RoundId>, n: nat, s: State, j: nat)
    requires Shaped(jobs, n, s) && OwnersAgree(jobs, s) && j < |jobs|
    requires s.stage[j].Holding? && s.stage[j].at + 1 < n
    ensures jobs[j] !in s.known[s.stage[j].at + 1]
  {
    var i := s.stage[j].at;
    assert InsideAt(jobs, s, i, j);
    if jobs[j] in s.known[i + 1] {
      assert Owned(jobs, s, i + 1, jobs[j]);
      var k :| 0 <= k < |jobs| && jobs[k] == jobs[j] && InsideAt(jobs, s, i + 1, k);
      assert InsideAt(jobs, s, i, k);
      assert false;
    }
  }

  // Which rounds are inside server i after a step of round j.
  lemma InsideAfter(jobs: seq<RoundId>, n: nat, s: State, j: nat, i: nat, k: nat)
    requires Shaped(jobs, n, s) && OwnersAgree(jobs, s) && j < |jobs| && Step(jobs, n, s, j).Some?
    requires i < n && k < |jobs|
    ensures var s' := Step(jobs, n, s, j).value;
      && |s'.stage| == |jobs| && |s'.known| == n
      && (k != j ==> (InsideAt(jobs, s', i, k) <==> InsideAt(jobs, s, i, k)))
      && (s'.known[i] == if InsideAt(jobs, s, i, j) == InsideAt(jobs, s', i, j) then s.known[i]
            else if InsideAt(jobs, s', i, j) then s.known[i] + {jobs[j]} else s.known[i] - {jobs[j]})
      && (!InsideAt(jobs, s, i, j) && InsideAt(jobs, s', i, j) ==> jobs[j] !in s.known[i])
  {
    if s.stage[j].Holding? && s.stage[j].at + 1 < n { NeverRefusedLater(jobs, n, s, j); }
  }

  lemma StepKeepsOwners(jobs: seq<RoundId>, n: nat, s: State, j: nat)
    requires n > 0 && Inv(jobs, n, s) && OwnersAgree(jobs, s) && j < |jobs| && Step(jobs, n, s, j).Some?
    ensures var s' := Step(jobs, n, s, j).value; Shaped(jobs, n, s') && OwnersAgree(jobs, s')
  {
    StepKeepsLocks(jobs, n, s, j);
    var s' := Step(jobs, n, s, j).value;
    forall i, k | 0 <= i < n && 0 <= k < |jobs| && InsideAt(jobs, s', i, k) ensures jobs[k] in s'.known[i] {
      InsideAfter(jobs, n, s, j, i, k);
    }
    forall i, k, k' | 0 <= i < n && 0 <= k < |jobs| && 0 <= k' < |jobs| && k != k'
      && InsideAt(jobs, s', i, k) && InsideAt(jobs, s', i, k')
      ensures jobs[k] != jobs[k']
    {
      InsideAfter(jobs, n, s, j, i, k);
      InsideAfter(jobs, n, s, j, i, k');
    }
    forall i, id | 0 <= i < n && id in s'.known[i] ensures Owned(jobs, s', i, id) {
      StepKeepsOwner(jobs, n, s, j, i, id);
    }
    if s.stage[j].Holding? && s.stage[j].at + 1 < n { NeverRefusedLater(jobs, n, s, j); }
  }

  lemma StepKeepsOwner(jobs: seq<RoundId>, n: nat, s: State, j: nat, i: nat, id: RoundId)
    requires Shaped(jobs, n, s) && OwnersAgree(jobs, s) && j < |jobs| && Step(jobs, n, s, j).Some? && i < n
    requires |Step(jobs, n, s, j).value.known| == n && id in Step(jobs, n, s, j).value.known[i]
    ensures |Step(jobs, n, s, j).value.stage| == |jobs| && Owned(jobs, Step(jobs, n, s, j).value, i, id)
  {
    var s' := Step(jobs, n, s, j).value;
    InsideAfter(jobs, n, s, j, i, j);
    if id in s.known[i] {
      assert Owned(jobs, s, i, id);
      var k :| 0 <= k < |jobs| && jobs[k] == id && InsideAt(jobs, s, i, k);
      InsideAfter(jobs, n, s, j, i, k);
      assert InsideAt(jobs, s', i, k);
    } else {
      assert id == jobs[j] && InsideAt(jobs, s', i, j);
    }
  }

  lemma {:induction false} RunKeepsOwners(jobs: seq<RoundId>, n: nat, run: seq<State>, k: nat)
    requires Run(jobs, n, run) && k < |run|
    ensures Inv(jobs, n, run[k]) && OwnersAgree(jobs, run[k])
  {
    RunKeepsInv(jobs, n, run, k);
    if k > 0 {
      RunKeepsOwners(jobs, n, run, k - 1);
      assert Next(jobs, n, run[k - 1], run[k]);
      var j :| 0 <= j < |jobs| && Step(jobs, n, run[k - 1], j) == Some(run[k]);
      StepKeepsOwners(jobs, n, run[k - 1], j);
    }
  }

  // --- Progress --------------------------------------------------------------------------

  ghost predicate DistinctJobs(jobs: seq<RoundId>) {
    forall j, j' :: 0 <= j < j' < |jobs| ==> jobs[j] != jobs[j']
  }

  ghost predicate NoneWedged(s: State) {
    forall j :: 0 <= j < |s.stage| ==> !s.stage[j].Wedged?
  }

  ghost predicate AllDone(s: State) {
    forall j :: 0 <= j < |s.stage| ==> s.stage[j].Done?
  }

  // With distinct rounds, a round is not known where it is about to go.
  lemma NotKnownYet(jobs: seq<RoundId>, s: State, j: nat, i: nat)
    requires |s.stage| == |jobs| && j < |jobs| && i < |s.known| && OwnersAgree(jobs, s) && DistinctJobs(jobs)
    requires !InsideAt(jobs, s, i, j)
    ensures jobs[j] !in s.known[i]
  {
    assert jobs[j] in s.known[i] ==> Owned(jobs, s, i, jobs[j]);
  }

  lemma StepKeepsUnwedged(jobs: seq<RoundId>, n: nat, s: State, j: nat)
    requires n > 0 && Shaped(jobs, n, s) && j < |jobs| && Step(jobs, n, s, j).Some?
    requires DistinctJobs(jobs) && OwnersAgree(jobs, s) && NoneWedged(s)
    ensures NoneWedged(Step(jobs, n, s, j).value)
  {
    if s.stage[j].Waiting? { NotKnownYet(jobs, s, j, 0); }
    if s.stage[j].Holding? && s.stage[j].at + 1 < n { NeverRefusedLater(jobs, n, s, j); }
  }

  lemma {:induction false} RunKeepsUnwedged(jobs: seq<RoundId>, n: nat, run: seq<State>, k: nat)
    requires Run(jobs, n, run) && k < |run| && DistinctJobs(jobs)
    ensures Inv(jobs, n, run[k]) && OwnersAgree(jobs, run[k]) && NoneWedged(run[k])
  {
    RunKeepsOwners(jobs, n, run, k);
    if k > 0 {
      RunKeepsUnwedged(jobs, n, run, k - 1);
      assert Next(jobs, n, run[k - 1], run[k]);
      var j :| 0 <= j < |jobs| && Step(jobs, n, run[k - 1], j) == Some(run[k]);
      StepKeepsUnwedged(jobs, n, run[k - 1], j);
    }
  }

  // The holder of a lock can take a step, or the holder of a later lock can.
  lemma {:induction false} HolderMoves(jobs: seq<RoundId>, n: nat, s: State, i: nat) returns (j: nat)
    requires n > 0 && Inv(jobs, n, s) && NoneWedged(s) && i < n && s.holder[i].Some?
    ensures j < |jobs| && Step(jobs, n, s, j).Some?
    decreases n - i
  {
    j := s.holder[i].value;
    assert Occupies(s.stage[j], i);
    assert !s.stage[j].Wedged?;
    if s.stage[j] == Holding(i) && i + 1 < n && s.holder[i + 1].Some? {
      j := HolderMoves(jobs, n, s, i + 1);
    }
  }

  // While some round is unfinished, some round can take a step.
  lemma SomeStepEnabled(jobs: seq<RoundId>, n: nat, s: State, unfinished: nat) returns (j: nat)
    requires n > 0 && Inv(jobs, n, s) && NoneWedged(s)
    requires unfinished < |jobs| && s.stage[unfinished] != Done
    ensures j < |jobs| && Step(jobs, n, s, j).Some?
  {
    j := unfinished;
    match s.stage[j] {
      case Waiting => if s.holder[0].Some? { j := HolderMoves(jobs, n, s, 0); }
      case Holding(i) =>
        assert Occupies(s.stage[j], i);
        j := HolderMoves(jobs, n, s, i);
      case _ =>
    }
  }

  // The number of steps a round has still to take: 3n in all.
  function Rank(t: Stage, n: nat): int {
    match t
    case Waiting => 3 * n
    case Holding(i) => 3 * n - 1 - 2 * i
    case Bridging(i) => 3 * n - 2 - 2 * i
    case Returning(i) => i + 1
    case Done => 0
    case Wedged(_) => 0
  }

  function TotalRank(stage: seq<Stage>, n: nat): int {
    if stage == [] then 0 else TotalRank(stage[..|stage| - 1], n) + Rank(stage[|stage| - 1], n)
  }

  lemma {:induction false} RankAfter(stage: seq<Stage>, n: nat, j: nat, t: Stage)
    requires j < |stage|
    ensures TotalRank(stage[j := t], n) == TotalRank(stage, n) - Rank(stage[j], n) + Rank(t, n)
  {
    var m := |stage| - 1;
    if j < m {
      RankAfter(stage[..m], n, j, t);
      assert stage[j := t][..m] == stage[..m][j := t];
    } else {
      assert stage[j := t][..m] == stage[..m];
    }
  }

  lemma {:induction false} InitialRank(m: nat, n: nat)
    ensures TotalRank(seq(m, _ => Waiting), n) == 3 * n * m
  {
    if m > 0 {
      InitialRank(m - 1, n);
      assert seq(m, _ => Waiting)[..m - 1] == seq(m - 1, _ => Waiting);
      assert 3 * n * m == 3 * n * (m - 1) + 3 * n;
    }
  }

  lemma StepLowersRank(jobs: seq<RoundId>, n: nat, s: State, j: nat)
    requires n > 0 && Inv(jobs, n, s) && j < |jobs| && Step(jobs, n, s, j).Some?
    requires DistinctJobs(jobs) && OwnersAgree(jobs, s) && NoneWedged(s)
    ensures TotalRank(Step(jobs, n, s, j).value.stage, n) == TotalRank(s.stage, n) - 1
  {
    var s' := Step(jobs, n, s, j).value;
    StepKeepsUnwedged(jobs, n, s, j);
    assert !s'.stage[j].Wedged?;
    assert s'.stage == s.stage[j := s'.stage[j]];
    RankAfter(s.stage, n, j, s'.stage[j]);
  }

  lemma {:induction false} RankNonnegative(stage: seq<Stage>, n: nat)
    requires forall j :: 0 <= j < |stage| ==> InRange(stage[j], n)
    ensures TotalRank(stage, n) >= 0
    ensures TotalRank(stage, n) == 0 <==> forall j :: 0 <= j < |stage| ==> stage[j].Done? || stage[j].Wedged?
  {
    if stage != [] {
      var init, t := stage[..|stage| - 1], stage[|stage| - 1];
      RankNonnegative(init, n);
      assert InRange(t, n);
      assert forall j :: 0 <= j < |init| ==> init[j] == stage[j];
    }
  }

  lemma {:induction false} RankAlongRun(jobs: seq<RoundId>, n: nat, run: seq<State>, k: nat)
    requires Run(jobs, n, run) && k < |run| && DistinctJobs(jobs)
    ensures TotalRank(run[k].stage, n) == 3 * n * |jobs| - k
  {
    if k == 0 {
      InitialRank(|jobs|, n);
    } else {
      RankAlongRun(jobs, n, run, k - 1);
      RunKeepsUnwedged(jobs, n, run, k - 1);
      assert Next(jobs, n, run[k - 1], run[k]);
      var j :| 0 <= j < |jobs| && Step(jobs, n, run[k - 1], j) == Some(run[k]);
      StepLowersRank(jobs, n, run[k - 1], j);
    }
  }

  ghost predicate Stuck(jobs: seq<RoundId>, n: nat, s: State) {
    Shaped(jobs, n, s) && forall j :: 0 <= j < |jobs| ==> Step(jobs, n, s, j).None?
  }

  // With distinct round numbers every run ends: after exactly 3n steps per round, in
  // any interleaving, and then every round is done on every server.
  lemma EveryRunCompletes(jobs: seq<RoundId>, n: nat, run: seq<State>)
    requires Run(jobs, n, run) && DistinctJobs(jobs)
    ensures |run| - 1 <= 3 * n * |jobs|
    ensures Stuck(jobs, n, run[|run| - 1]) <==> AllDone(run[|run| - 1])
    ensures Stuck(jobs, n, run[|run| - 1]) <==> |run| - 1 == 3 * n * |jobs|
  {
    var last := run[|run| - 1];
    RunKeepsUnwedged(jobs, n, run, |run| - 1);
    RankAlongRun(jobs, n, run, |run| - 1);
    RankNonnegative(last.stage, n);
    forall j | 0 <= j < |jobs| && last.stage[j] != Done ensures !Stuck(jobs, n, last) {
      var m := SomeStepEnabled(jobs, n, last, j);
    }
  }

  // --- Repeated round numbers ------------------------------------------------------------

  // One step neither frees a wedged round nor lets a waiting one pass it.
  lemma WedgeStays(jobs: seq<RoundId>, n: nat, s: State, s': State, j: nat)
    requires Inv(jobs, n, s) && Next(jobs, n, s, s') && j < |jobs| && s.stage[j] == Wedged(0)
    ensures |s'.stage| == |jobs| && s'.stage[j] == Wedged(0)
    ensures forall w :: 0 <= w < |jobs| && s.stage[w].Waiting? ==> s'.stage[w].Waiting?
  {
    assert Occupies(s.stage[j], 0);
    var k :| 0 <= k < |jobs| && Step(jobs, n, s, k) == Some(s');
  }

  // In every run: a refused round was refused by the first server, stays wedged there with
  // the lock in its hands for good, and no round of either kind that was waiting ever starts.
  lemma {:induction false} WedgedForGood(jobs: seq<RoundId>, n: nat, run: seq<State>, k: nat, k': nat, j: nat)
    requires Run(jobs, n, run) && k <= k' < |run| && j < |jobs|
    requires |run[k].stage| == |jobs| && run[k].stage[j].Wedged?
    ensures |run[k'].stage| == |jobs| && |run[k'].holder| == n
    ensures run[k].stage[j] == run[k'].stage[j] == Wedged(0) && run[k'].holder[0] == Some(j)
    ensures forall w :: 0 <= w < |jobs| && run[k].stage[w].Waiting? ==> run[k'].stage[w].Waiting?
    decreases k' - k
  {
    RunKeepsOwners(jobs, n, run, k);
    if k < k' {
      assert Next(jobs, n, run[k], run[k + 1]);
      WedgeStays(jobs, n, run[k], run[k + 1], j);
      WedgedForGood(jobs, n, run, k + 1, k', j);
    } else {
      assert Occupies(run[k].stage[j], 0);
    }
  }

  ghost predicate NeverWedges(jobs: seq<RoundId>, n: nat) {
    forall run: seq<State> :: Run(jobs, n, run) ==> NoneWedged(run[|run| - 1])
  }

  lemma Extend(jobs: seq<RoundId>, n: nat, run: seq<State>, j: nat) returns (longer: seq<State>)
    requires Run(jobs, n, run) && j < |jobs|
    requires Shaped(jobs, n, run[|run| - 1]) && Step(jobs, n, run[|run| - 1], j).Some?
    ensures Run(jobs, n, longer) && longer[|longer| - 1] == Step(jobs, n, run[|run| - 1], j).value
    ensures Shaped(jobs, n, longer[|longer| - 1])
  {
    var last := run[|run| - 1];
    longer := run + [Step(jobs, n, last, j).value];
    RunKeepsInv(jobs, n, run, |run| - 1);
    StepKeepsLocks(jobs, n, last, j);
    assert Next(jobs, n, last, Step(jobs, n, last, j).value);
    forall k | 0 <= k < |longer| - 1 ensures Next(jobs, n, longer[k], longer[k + 1]) {
      if k < |run| - 1 { assert Next(jobs, n, run[k], run[k + 1]); }
    }
  }

  // Two rounds with the same number: the second one arrives while the first is known.
  lemma RepeatWedges(jobs: seq<RoundId>, n: nat, a: nat, b: nat) returns (run: seq<State>)
    requires n > 0 && a < |jobs| && b < |jobs| && a != b && jobs[a] == jobs[b]
    ensures Run(jobs, n, run) && |run[|run| - 1].stage| == |jobs| && run[|run| - 1].stage[b] == Wedged(0)
  {
    run := [Init(jobs, n)];
    InitInv(jobs, n);
    run := Extend(jobs, n, run, a);
    run := Extend(jobs, n, run, a);
    if n > 1 { run := Extend(jobs, n, run, a); }
    run := Extend(jobs, n, run, b);
  }

  // The services never wedge, in any interleaving, exactly when no two rounds have
  // the same kind and number.
  lemma NeverWedgesExactlyWhenDistinct(jobs: seq<RoundId>, n: nat)
    requires n > 0
    ensures NeverWedges(jobs, n) <==> DistinctJobs(jobs)
  {
    if DistinctJobs(jobs) {
      forall run: seq<State> | Run(jobs, n, run) ensures NoneWedged(run[|run| - 1]) {
        RunKeepsUnwedged(jobs, n, run, |run| - 1);
      }
    }
    forall a, b | 0 <= a < b < |jobs| && jobs[a] == jobs[b] ensures !NeverWedges(jobs, n) {
      var run := RepeatWedges(jobs, n, a, b);
    }
  }
}
