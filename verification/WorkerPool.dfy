/** The bounded worker pool of src/raw/accountState.ts:315-323 under every interleaving. */
module WorkerPool {
  // A worker claims its next item between two awaits, so a claim is one step and an item's completion
  // another.

  datatype Worker = Ready | Running(item: nat) | Finished

  datatype Pool = Pool(next: nat, workers: seq<Worker>, done: seq<nat>)

  function Min(x: int, y: int): int { if x < y then x else y }

  /** How many workers are started for `n` items: the limit or one per item, whichever is less,
      and never none. */
  function Width(n: nat, width: int): (w: nat)
    ensures n >= 1 && width >= 1 ==> w <= n && w <= width && (w == n || w == width)
    ensures n < 1 || width < 1 ==> w == 1
  {
    if Min(width, n) > 1 then Min(width, n) else 1
  }

  function AllReady(n: nat): (w: seq<Worker>)
    ensures |w| == n && forall i | 0 <= i < n :: w[i].Ready?
  {
    seq(n, _ => Ready)
  }

  /** Worker `w` goes on to its next await. */
  function Step(n: nat, p: Pool, w: nat): Pool
    requires w < |p.workers|
  {
    match p.workers[w]
    case Ready =>
      if p.next < n then p.(next := p.next + 1, workers := p.workers[w := Running(p.next)])
      else p.(workers := p.workers[w := Finished])
    case Running(i) => p.(workers := p.workers[w := Ready], done := p.done + [i])
    case Finished => p
  }

  function After(n: nat, width: int, schedule: seq<nat>): (p: Pool)
    requires forall i | 0 <= i < |schedule| :: schedule[i] < Width(n, width)
    ensures |p.workers| == Width(n, width)
  {
    if schedule == [] then Pool(0, AllReady(Width(n, width)), [])
    else Step(n, After(n, width, schedule[..|schedule| - 1]), schedule[|schedule| - 1])
  }

  // ---------------------------------------------------------------- who has what

  /** How often an item occurs in a list. */
  function Count(items: seq<nat>, x: nat): nat {
    if items == [] then 0 else Count(items[..|items| - 1], x) + if items[|items| - 1] == x then 1 else 0
  }

  /** Each index below `n` once, and nothing else. */
  ghost predicate EachOnce(items: seq<nat>, n: nat) { forall x: nat :: Count(items, x) == if x < n then 1 else 0 }

  function Holding(w: Worker, x: nat): nat { if w == Running(x) then 1 else 0 }

  /** How many workers are at item `x`. */
  function InFlight(workers: seq<Worker>, x: nat): nat {
    if workers == [] then 0 else InFlight(workers[..|workers| - 1], x) + Holding(workers[|workers| - 1], x)
  }

  /** How many workers are at any item. */
  function Busy(workers: seq<Worker>): (b: nat)
    ensures b <= |workers|
  {
    if workers == [] then 0 else Busy(workers[..|workers| - 1]) + if workers[|workers| - 1].Running? then 1 else 0
  }

  lemma {:induction false} InFlightAfterUpdate(workers: seq<Worker>, i: nat, w: Worker, x: nat)
    requires i < |workers|
    ensures InFlight(workers[i := w], x) + Holding(workers[i], x) == InFlight(workers, x) + Holding(w, x)
  {
    var after, n := workers[i := w], |workers| - 1;
    if i < n {
      InFlightAfterUpdate(workers[..n], i, w, x);
      assert after[..n] == workers[..n][i := w];
    } else {
      assert after[..n] == workers[..n];
    }
  }

  lemma {:induction false} NothingInFlight(workers: seq<Worker>, x: nat)
    requires forall i | 0 <= i < |workers| :: !workers[i].Running?
    ensures InFlight(workers, x) == 0
  {
    if workers != [] { NothingInFlight(workers[..|workers| - 1], x); }
  }

  /** Item `x` is with one worker or done, once, if it was claimed, and untouched otherwise. */
  ghost predicate ExactAt(p: Pool, x: nat) {
    InFlight(p.workers, x) + Count(p.done, x) == if x < p.next then 1 else 0
  }

  /** A worker only leaves when all items are claimed. */
  ghost predicate Exact(n: nat, p: Pool) {
    && p.next <= n
    && (forall x: nat {:trigger ExactAt(p, x)} :: ExactAt(p, x))
    && forall i | 0 <= i < |p.workers| && p.workers[i].Finished? :: p.next == n
  }

  lemma StepExactAt(n: nat, p: Pool, w: nat, x: nat)
    requires w < |p.workers| && ExactAt(p, x)
    ensures ExactAt(Step(n, p, w), x)
  {
    InFlightAfterUpdate(p.workers, w, Step(n, p, w).workers[w], x);
  }

  lemma StepKeepsExact(n: nat, p: Pool, w: nat)
    requires Exact(n, p) && w < |p.workers|
    ensures Exact(n, Step(n, p, w))
  {
    forall x: nat ensures ExactAt(Step(n, p, w), x) {
      assert ExactAt(p, x);
      StepExactAt(n, p, w, x);
    }
  }

  /** In every interleaving each item is claimed at most once, and at most `width` are in flight. */
  lemma {:induction false} ClaimsAreExact(n: nat, width: int, schedule: seq<nat>)
    requires forall i | 0 <= i < |schedule| :: schedule[i] < Width(n, width)
    ensures Exact(n, After(n, width, schedule))
    ensures Busy(After(n, width, schedule).workers) <= Width(n, width)
  {
    if schedule == [] {
      forall x: nat ensures ExactAt(After(n, width, schedule), x) { NothingInFlight(AllReady(Width(n, width)), x); }
    } else {
      ClaimsAreExact(n, width, schedule[..|schedule| - 1]);
      StepKeepsExact(n, After(n, width, schedule[..|schedule| - 1]), schedule[|schedule| - 1]);
    }
  }

  ghost predicate AllFinished(p: Pool) { forall i | 0 <= i < |p.workers| :: p.workers[i].Finished? }

  /** When all workers have left, every item is done exactly once. */
  lemma FinishedIsComplete(n: nat, width: int, schedule: seq<nat>)
    requires forall i | 0 <= i < |schedule| :: schedule[i] < Width(n, width)
    requires AllFinished(After(n, width, schedule))
    ensures EachOnce(After(n, width, schedule).done, n)
  {
    var p := After(n, width, schedule);
    ClaimsAreExact(n, width, schedule);
    assert p.workers[0].Finished?;
    forall x: nat ensures Count(p.done, x) == if x < n then 1 else 0 {
      assert ExactAt(p, x);
      NothingInFlight(p.workers, x);
    }
  }

  // ---------------------------------------------------------------- and they do leave

  function Weight(w: Worker): nat { match w case Ready => 1 case Running(_) => 2 case Finished => 0 }

  function Weights(workers: seq<Worker>): nat {
    if workers == [] then 0 else Weights(workers[..|workers| - 1]) + Weight(workers[|workers| - 1])
  }

  lemma {:induction false} WeightsAfterUpdate(workers: seq<Worker>, i: nat, w: Worker)
    requires i < |workers|
    ensures Weights(workers[i := w]) + Weight(workers[i]) == Weights(workers) + Weight(w)
  {
    var after := workers[i := w];
    var n := |workers| - 1;
    if i < n {
      WeightsAfterUpdate(workers[..n], i, w);
      assert after[..n] == workers[..n][i := w];
    } else {
      assert after[..n] == workers[..n];
    }
  }

  function Left(n: nat, p: Pool): nat
    requires p.next <= n
  {
    2 * (n - p.next) + Weights(p.workers)
  }

  /** Only workers that have not left are scheduled. */
  ghost predicate Productive(n: nat, width: int, schedule: seq<nat>) {
    && (forall i | 0 <= i < |schedule| :: schedule[i] < Width(n, width))
    && (schedule == []
        || (Productive(n, width, schedule[..|schedule| - 1])
            && !After(n, width, schedule[..|schedule| - 1]).workers[schedule[|schedule| - 1]].Finished?))
  }

  lemma {:induction false} ReadyWeights(n: nat)
    ensures Weights(AllReady(n)) == n
  {
    if n > 0 {
      assert AllReady(n)[..n - 1] == AllReady(n - 1);
      ReadyWeights(n - 1);
    }
  }

  /** No interleaving runs for more than two steps an item and one a worker. */
  lemma {:induction false} PoolTerminates(n: nat, width: int, schedule: seq<nat>)
    requires Productive(n, width, schedule)
    ensures After(n, width, schedule).next <= n
    ensures |schedule| + Left(n, After(n, width, schedule)) <= 2 * n + Width(n, width)
  {
    if schedule == [] {
      ReadyWeights(Width(n, width));
    } else {
      var front, w := schedule[..|schedule| - 1], schedule[|schedule| - 1];
      PoolTerminates(n, width, front);
      var p := After(n, width, front);
      WeightsAfterUpdate(p.workers, w, Step(n, p, w).workers[w]);
    }
  }
}
