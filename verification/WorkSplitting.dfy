/** Handing out the indices of a loop to parallel workers (internal/parallelfor.go):
    a shared counter gives each worker a block of indices at a time. */
module WorkSplitting {
  import opened Shuffling

  // A worker's block: the indices from current up to max are still to be handed out.
  datatype Worker = Worker(current: nat, max: nat, stopped: bool)

  datatype Pool = Pool(n: nat, step: nat, counter: nat, workers: seq<Worker>, handed: seq<nat>)

  function Min(a: nat, b: nat): nat { if a < b then a else b }

  // GP.Next: one atomic addition to the shared counter.
  function Fetched(n: nat, step: nat, base: nat, w: Worker): Worker {
    if base >= n then w.(stopped := true) else Worker(base, Min(base + step, n), false)
  }

  predicate CanMove(p: Pool, w: nat) {
    w < |p.workers| && !p.workers[w].stopped
  }

  // One step of worker w: take a new block when its own is used up, else an index.
  function Moved(p: Pool, w: nat): Pool
    requires CanMove(p, w)
  {
    var me := p.workers[w];
    if me.current >= me.max
    then p.(counter := p.counter + p.step, workers := p.workers[w := Fetched(p.n, p.step, p.counter, me)])
    else p.(workers := p.workers[w := me.(current := me.current + 1)], handed := p.handed + [me.current])
  }

  function Start(n: nat, step: nat, cpus: nat): Pool {
    Pool(n, step, 0, seq(cpus, _ => Worker(0, 0, false)), [])
  }

  // --- What every step keeps ---------------------------------------------------------

  function Sum(ws: seq<Worker>, f: Worker -> int): int {
    if ws == [] then 0 else Sum(ws[..|ws| - 1], f) + f(ws[|ws| - 1])
  }

  lemma {:induction false} SumAfter(ws: seq<Worker>, f: Worker -> int, w: nat, x: Worker)
    requires w < |ws|
    ensures Sum(ws[w := x], f) == Sum(ws, f) - f(ws[w]) + f(x)
  {
    var m := |ws| - 1;
    if w < m {
      SumAfter(ws[..m], f, w, x);
      assert ws[w := x][..m] == ws[..m][w := x];
    } else {
      assert ws[w := x][..m] == ws[..m];
    }
  }

  lemma {:induction false} SumBounds(ws: seq<Worker>, f: Worker -> int, lo: int, hi: int)
    requires forall w :: 0 <= w < |ws| ==> lo <= f(ws[w]) <= hi
    ensures lo * |ws| <= Sum(ws, f) <= hi * |ws|
  {
    if ws != [] { SumBounds(ws[..|ws| - 1], f, lo, hi); }
  }

  function Halted(): Worker -> int { (w: Worker) => if w.stopped then 1 else 0 }
  function Owning(i: int): Worker -> int { (w: Worker) => if w.current <= i < w.max then 1 else 0 }
  function Pending(): Worker -> int { (w: Worker) => if w.current < w.max then w.max - w.current else 0 }

  // An index the counter has passed is in exactly one place: handed out, or in the
  // block of one worker. Any other index is nowhere.
  ghost predicate InOnePlace(p: Pool, i: int) {
    multiset(p.handed)[i] + Sum(p.workers, Owning(i)) == if 0 <= i < p.n && i < p.counter then 1 else 0
  }

  ghost predicate StoppedLate(p: Pool) {
    forall w :: 0 <= w < |p.workers| && p.workers[w].stopped ==>
      p.workers[w].current >= p.workers[w].max && p.counter >= p.n
  }

  // The counter never runs away: at most one block beyond n for the fetches that
  // succeed, and one more for every worker that has stopped.
  ghost predicate Bounded(p: Pool) {
    p.counter < p.n + p.step + p.step * Sum(p.workers, Halted())
  }

  ghost predicate Inv(p: Pool) {
    p.step > 0 && StoppedLate(p) && Bounded(p) && forall i :: InOnePlace(p, i)
  }

  lemma StartInv(n: nat, step: nat, cpus: nat)
    requires step > 0
    ensures Inv(Start(n, step, cpus))
  {
    var p := Start(n, step, cpus);
    SumBounds(p.workers, Halted(), 0, 0);
    forall i ensures InOnePlace(p, i) { SumBounds(p.workers, Owning(i), 0, 0); }
  }

  lemma StepKeepsInv(p: Pool, w: nat)
    requires Inv(p) && CanMove(p, w)
    ensures Inv(Moved(p, w))
  {
    StepKeepsBound(p, w);
    forall i ensures InOnePlace(Moved(p, w), i) { StepKeepsPlace(p, w, i); }
  }

  lemma StepKeepsBound(p: Pool, w: nat)
    requires Inv(p) && CanMove(p, w)
    ensures StoppedLate(Moved(p, w)) && Bounded(Moved(p, w))
  {
    SumAfter(p.workers, Halted(), w, Moved(p, w).workers[w]);
    SumBounds(p.workers, Halted(), 0, 1);
    NextMultiple(p.step, Sum(p.workers, Halted()));
  }

  lemma StepKeepsPlace(p: Pool, w: nat, i: int)
    requires p.step > 0 && CanMove(p, w) && InOnePlace(p, i)
    ensures InOnePlace(Moved(p, w), i)
  {
    SumAfter(p.workers, Owning(i), w, Moved(p, w).workers[w]);
  }

  lemma NextMultiple(step: nat, k: int)
    ensures step * (k + 1) == step * k + step
    ensures k >= 0 ==> step * k >= 0
  {
  }

  // Counts down with every step of every worker.
  function Work(p: Pool): int {
    |p.workers| - Sum(p.workers, Halted()) + Sum(p.workers, Pending())
      + 2 * (if p.counter < p.n then p.n - p.counter else 0)
  }

  lemma StepLowersWork(p: Pool, w: nat)
    requires p.step > 0 && CanMove(p, w)
    ensures 0 <= Work(Moved(p, w)) < Work(p)
  {
    var q := Moved(p, w);
    SumAfter(p.workers, Halted(), w, q.workers[w]);
    SumAfter(p.workers, Pending(), w, q.workers[w]);
    SumBounds(q.workers, Halted(), 0, 1);
    PendingNonnegative(q.workers);
  }

  lemma {:induction false} PendingNonnegative(ws: seq<Worker>)
    ensures Sum(ws, Pending()) >= 0
  {
    if ws != [] { PendingNonnegative(ws[..|ws| - 1]); }
  }

  lemma AllHanded(p: Pool, i: int)
    requires Inv(p) && p.workers != [] && forall w :: 0 <= w < |p.workers| ==> p.workers[w].stopped
    ensures multiset(p.handed)[i] == if 0 <= i < p.n then 1 else 0
  {
    assert InOnePlace(p, i) && p.workers[0].stopped;
    SumBounds(p.workers, Owning(i), 0, 0);
  }

  // Every interleaving of the workers hands out each index below n exactly once and
  // no other, and stops: some worker takes the next step as long as one runs.
  method ParallelFor(n: nat, cpus: nat) returns (handed: seq<nat>, counter: nat)
    requires cpus > 0
    ensures forall i: int :: multiset(handed)[i] == if 0 <= i < n then 1 else 0
    ensures counter < n + BlockSize(n, cpus) * (cpus + 1)
  {
    var step := n / cpus / 100;
    if step < 10 { step := 10; }
    var p := Start(n, step, cpus);
    StartInv(n, step, cpus);
    var running := Range(cpus);
    while running != {}
      invariant p.n == n && p.step == step && |p.workers| == cpus && Inv(p)
      invariant forall w :: w in running <==> CanMove(p, w)
      decreases Work(p)
    {
      var w :| w in running;
      StepKeepsInv(p, w);
      StepLowersWork(p, w);
      p := Moved(p, w);
      if p.workers[w].stopped { running := running - {w}; }
    }
    forall w | 0 <= w < cpus ensures p.workers[w].stopped {
      assert w in running <==> CanMove(p, w);
    }
    forall i: int ensures multiset(p.handed)[i] == if 0 <= i < n then 1 else 0 { AllHanded(p, i); }
    SumBounds(p.workers, Halted(), 0, 1);
    MultipleMonotone(step, Sum(p.workers, Halted()), cpus);
    handed, counter := p.handed, p.counter;
  }

  function BlockSize(n: nat, cpus: nat): nat
    requires cpus > 0
  {
    if n / cpus / 100 < 10 then 10 else n / cpus / 100
  }

  lemma MultipleMonotone(step: nat, a: int, b: int)
    requires a <= b
    ensures step * a <= step * b && step * (b + 1) == step * b + step
  {
  }

  // --- The objects the workers share -------------------------------------------------

  class GP {
    const max: nat
    const step: nat
    var current: nat

    constructor (max: nat, step: nat)
      ensures this.max == max && this.step == step && current == 0
    {
      this.max, this.step, current := max, step, 0;
    }

    method Next() returns (base: nat, ok: bool)
      modifies this
      ensures current == old(current) + step && ok == (old(current) < max)
      ensures base == if ok then old(current) else 0
    {
      current := current + step;
      base := current - step;
      if base >= max { return 0, false; }
      ok := true;
    }
  }

  class P {
    const gp: GP
    var max: nat
    var current: nat

    constructor (gp: GP)
      ensures this.gp == gp && max == 0 && current == 0
    {
      this.gp, max, current := gp, 0, 0;
    }

    function View(): Worker
      reads this
    {
      Worker(current, max, false)
    }

    // This object and the shared one hold the part of the pool that worker w sees.
    ghost predicate Plays(p: Pool, w: nat)
      reads this, gp
    {
      && CanMove(p, w) && p.workers[w] == View()
      && p.n == gp.max && p.step == gp.step && p.counter == gp.current
    }

    // A call of Next is one or two steps of the pool: a fetch when the block is used
    // up, then, unless the worker stops, the taking of the index that is returned.
    method Next(ghost p: Pool, ghost w: nat) returns (r: nat, ok: bool, ghost p': Pool)
      requires gp.step > 0 && Plays(p, w)
      modifies this, gp
      ensures CalledNext(p, w, p') && ok == CanMove(p', w)
      ensures ok ==> Plays(p', w) && p'.handed == p.handed + [r]
      ensures !ok ==> p'.handed == p.handed && gp.current == p'.counter && View() == old(View())
    {
      p' := p;
      if current >= max {
        var base, more := gp.Next();
        p' := Moved(p', w);
        if !more { return 0, false, p'; }
        current, max := base, base + gp.step;
        if max > gp.max { max := gp.max; }
      }
      r, ok := current, true;
      current := current + 1;
      p' := Moved(p', w);
    }
  }

  // Worker w took one step, or a step that fetched a block and one that used it.
  ghost predicate CalledNext(p: Pool, w: nat, p': Pool)
    requires CanMove(p, w)
  {
    || p' == Moved(p, w)
    || (CanMove(Moved(p, w), w) && p' == Moved(Moved(p, w), w))
  }

  // Whatever calls the workers make, in whatever order, no index is lost or repeated.
  lemma CallKeepsInv(p: Pool, w: nat, p': Pool)
    requires Inv(p) && CanMove(p, w) && CalledNext(p, w, p')
    ensures Inv(p')
  {
    StepKeepsInv(p, w);
    if p' != Moved(p, w) { StepKeepsInv(Moved(p, w), w); }
  }
}
