/** The push throttle, explorer-ui/src/live.ts:76-120, over every timed run of its events. */
module PoolThrottle {
  // The events are pushes, resets and timer firings; a timer fires exactly at its deadline.

  import opened Wrappers

  /** The armed timer's deadline, and the largest head collapsed behind it; 0 stands for none. */
  datatype Throttle = Throttle(due: Option<int>, collapsed: int)

  datatype Step = Push(at: int, head: int) | Reset(at: int) | Fire(at: int)

  const IDLE := Throttle(None, 0)

  function Max(x: int, y: int): int { if x > y then x else y }

  /** The next state, and the head dispatched, if any. */
  function Next(windowMs: nat, s: Throttle, step: Step): (Throttle, Option<int>) {
    match step
    case Push(at, head) =>
      if s.due.Some? then (s.(collapsed := Max(s.collapsed, head)), None)
      else (s.(due := Some(at + windowMs)), Some(head))
    case Reset(_) => (IDLE, None)
    case Fire(at) =>
      if s.collapsed == 0 then (s.(due := None), None)
      else (Throttle(Some(at + windowMs), 0), Some(s.collapsed))
  }

  function After(windowMs: nat, steps: seq<Step>): Throttle {
    if steps == [] then IDLE else Next(windowMs, After(windowMs, steps[..|steps| - 1]), steps[|steps| - 1]).0
  }

  /** What step `i` dispatches. */
  function Sent(windowMs: nat, steps: seq<Step>, i: nat): Option<int>
    requires i < |steps|
  {
    Next(windowMs, After(windowMs, steps[..i]), steps[i]).1
  }

  class PoolThrottle {
    const windowMs: nat
    var timer: Option<int>
    var collapsed: int
    /** Every dispatch so far: its time and head. */
    var dispatched: seq<(int, int)>

    ghost function State(): Throttle
      reads this
    {
      Throttle(timer, collapsed)
    }

    constructor (windowMs: nat)
      ensures this.windowMs == windowMs && State() == IDLE && dispatched == []
    {
      this.windowMs := windowMs;
      timer, collapsed, dispatched := None, 0, [];
    }

    method Arm(now: int)
      modifies this`timer
      ensures timer == Some(now + windowMs)
    {
      timer := Some(now + windowMs);
    }

    method PushHead(now: int, head: int)
      modifies this
      ensures State() == Next(windowMs, old(State()), Push(now, head)).0
      ensures var sent := Next(windowMs, old(State()), Push(now, head)).1;
              dispatched == old(dispatched) + if sent.Some? then [(now, sent.value)] else []
    {
      if timer.Some? {
        collapsed := if head > collapsed then head else collapsed;
        return;
      }
      Arm(now);
      dispatched := dispatched + [(now, head)];
    }

    method ResetAll(now: int)
      modifies this`timer, this`collapsed
      ensures State() == Next(windowMs, old(State()), Reset(now)).0
    {
      timer, collapsed := None, 0;
    }

    /** The timer's callback. */
    method OnTimer(now: int)
      requires timer == Some(now)
      modifies this
      ensures State() == Next(windowMs, old(State()), Fire(now)).0
      ensures var sent := Next(windowMs, old(State()), Fire(now)).1;
              dispatched == old(dispatched) + if sent.Some? then [(now, sent.value)] else []
    {
      timer := None;
      if collapsed == 0 {
        return;
      }
      var head := collapsed;
      collapsed := 0;
      Arm(now);
      dispatched := dispatched + [(now, head)];
    }
  }

  // ---------------------------------------------------------------- timed runs

  /** Time does not pass an armed deadline before the timer fires, and it fires only then. */
  predicate Enabled(s: Throttle, step: Step) {
    && (s.due.Some? ==> step.at <= s.due.value)
    && (step.Fire? ==> s.due == Some(step.at))
  }

  ghost predicate IsRun(windowMs: nat, steps: seq<Step>) {
    steps == []
    || (&& IsRun(windowMs, steps[..|steps| - 1])
        && Enabled(After(windowMs, steps[..|steps| - 1]), steps[|steps| - 1])
        && (|steps| >= 2 ==> steps[|steps| - 2].at <= steps[|steps| - 1].at))
  }

  lemma {:induction false} Prefix(windowMs: nat, steps: seq<Step>, n: nat)
    requires IsRun(windowMs, steps) && n <= |steps|
    ensures IsRun(windowMs, steps[..n])
    decreases |steps|
  {
    if n < |steps| {
      assert steps[..|steps| - 1][..n] == steps[..n];
      Prefix(windowMs, steps[..|steps| - 1], n);
    } else {
      assert steps[..n] == steps;
    }
  }

  lemma StepOf(windowMs: nat, steps: seq<Step>, n: nat)
    requires IsRun(windowMs, steps) && n < |steps|
    ensures IsRun(windowMs, steps[..n]) && IsRun(windowMs, steps[..n + 1]) && Enabled(After(windowMs, steps[..n]), steps[n])
    ensures After(windowMs, steps[..n + 1]) == Next(windowMs, After(windowMs, steps[..n]), steps[n]).0
    ensures n >= 1 ==> steps[n - 1].at <= steps[n].at
  {
    Prefix(windowMs, steps, n + 1);
    assert steps[..n + 1][..n] == steps[..n];
    Prefix(windowMs, steps, n);
  }

  /** A collapsed head has a timer behind it, and a deadline is at most one window ahead. */
  lemma {:induction false} TimerHolds(windowMs: nat, steps: seq<Step>)
    requires IsRun(windowMs, steps)
    ensures After(windowMs, steps).collapsed != 0 ==> After(windowMs, steps).due.Some?
    ensures After(windowMs, steps).collapsed >= 0
    ensures After(windowMs, steps).due.Some? ==>
              steps != [] && steps[|steps| - 1].at <= After(windowMs, steps).due.value <= steps[|steps| - 1].at + windowMs
  {
    if steps != [] { TimerHolds(windowMs, steps[..|steps| - 1]); }
  }

  // ---------------------------------------------------------------- spacing

  ghost predicate NoReset(steps: seq<Step>, i: int, j: int)
    requires -1 <= i && j <= |steps|
  {
    forall k | i < k < j :: !steps[k].Reset?
  }

  /** Until a reset, whatever follows a dispatch waits out its window. */
  lemma {:induction false} WindowHolds(windowMs: nat, steps: seq<Step>, i: nat, n: nat)
    requires IsRun(windowMs, steps) && i < n <= |steps| && Sent(windowMs, steps, i).Some? && NoReset(steps, i, n)
    ensures var s := After(windowMs, steps[..n]);
            if s.due.Some? then s.due.value >= steps[i].at + windowMs else steps[n - 1].at >= steps[i].at + windowMs
  {
    StepOf(windowMs, steps, n - 1);
    if i < n - 1 { WindowHolds(windowMs, steps, i, n - 1); }
  }

  /** Two dispatches with no reset between them are at least a window apart. */
  lemma DispatchesAreSpaced(windowMs: nat, steps: seq<Step>, i: nat, j: nat)
    requires IsRun(windowMs, steps) && i < j < |steps| && NoReset(steps, i, j)
    requires Sent(windowMs, steps, i).Some? && Sent(windowMs, steps, j).Some?
    ensures steps[j].at - steps[i].at >= windowMs
  {
    WindowHolds(windowMs, steps, i, j);
    StepOf(windowMs, steps, j);
  }

  // ---------------------------------------------------------------- no push is lost

  /** A step from `i` on, at most a window later and before any reset, dispatched at least its head. */
  ghost predicate Answers(windowMs: nat, steps: seq<Step>, i: nat, j: nat)
    requires i < |steps| && steps[i].Push?
  {
    && i <= j < |steps| && steps[j].at <= steps[i].at + windowMs && NoReset(steps, i, j)
    && Sent(windowMs, steps, j).Some? && Sent(windowMs, steps, j).value >= steps[i].head
  }

  ghost predicate ResetWithin(windowMs: nat, steps: seq<Step>, i: nat, j: nat)
    requires i < |steps|
  {
    i < j < |steps| && steps[j].Reset? && steps[j].at <= steps[i].at + windowMs
  }

  ghost predicate Pending(windowMs: nat, steps: seq<Step>, i: nat, n: nat)
    requires i < n <= |steps| && steps[i].Push?
  {
    var s := After(windowMs, steps[..n]);
    NoReset(steps, i, n) && s.due.Some? && s.due.value <= steps[i].at + windowMs && s.collapsed > 0 && s.collapsed >= steps[i].head
  }

  /** What the throttle can be counted on for: it is idle, already holds a head, or is given a
      positive one. */
  predicate Kept(s: Throttle, head: int) { s.due.None? || s.collapsed > 0 || head > 0 }

  ghost predicate Settled(windowMs: nat, steps: seq<Step>, i: nat, n: nat)
    requires i < n <= |steps| && steps[i].Push?
  {
    exists j: nat :: j < n && (Answers(windowMs, steps, i, j) || ResetWithin(windowMs, steps, i, j))
  }

  lemma Settles(windowMs: nat, steps: seq<Step>, i: nat, n: nat, j: nat)
    requires i < n <= |steps| && steps[i].Push? && j < n
    requires Answers(windowMs, steps, i, j) || ResetWithin(windowMs, steps, i, j)
    ensures Settled(windowMs, steps, i, n)
  {
  }

  lemma PushIsHeldAtFirst(windowMs: nat, steps: seq<Step>, i: nat)
    requires IsRun(windowMs, steps) && i < |steps| && steps[i].Push? && Kept(After(windowMs, steps[..i]), steps[i].head)
    ensures Pending(windowMs, steps, i, i + 1) || Settled(windowMs, steps, i, i + 1)
  {
    StepOf(windowMs, steps, i);
    TimerHolds(windowMs, steps[..i]);
    if After(windowMs, steps[..i]).due.None? { Settles(windowMs, steps, i, i + 1, i); }
  }

  lemma PendingMoves(windowMs: nat, steps: seq<Step>, i: nat, n: nat)
    requires IsRun(windowMs, steps) && i < n < |steps| && steps[i].Push? && Pending(windowMs, steps, i, n)
    ensures Pending(windowMs, steps, i, n + 1) || Settled(windowMs, steps, i, n + 1)
  {
    StepOf(windowMs, steps, n);
    if !steps[n].Push? { Settles(windowMs, steps, i, n + 1, n); }
  }

  lemma {:induction false} PushIsHeld(windowMs: nat, steps: seq<Step>, i: nat, n: nat)
    requires IsRun(windowMs, steps) && i < n <= |steps| && steps[i].Push? && Kept(After(windowMs, steps[..i]), steps[i].head)
    ensures Pending(windowMs, steps, i, n) || Settled(windowMs, steps, i, n)
  {
    if i == n - 1 {
      PushIsHeldAtFirst(windowMs, steps, i);
    } else {
      PushIsHeld(windowMs, steps, i, n - 1);
      if Settled(windowMs, steps, i, n - 1) {
        var j: nat :| j < n - 1 && (Answers(windowMs, steps, i, j) || ResetWithin(windowMs, steps, i, j));
        Settles(windowMs, steps, i, n, j);
      } else {
        PendingMoves(windowMs, steps, i, n - 1);
      }
    }
  }

  /** Once a window has passed, a push the throttle keeps has been followed by a dispatch of at
      least its head, unless a reset came first. */
  lemma PushIsAnswered(windowMs: nat, steps: seq<Step>, i: nat)
    requires IsRun(windowMs, steps) && i < |steps| && steps[i].Push? && Kept(After(windowMs, steps[..i]), steps[i].head)
    requires steps[|steps| - 1].at > steps[i].at + windowMs
    ensures Settled(windowMs, steps, i, |steps|)
  {
    assert steps[..|steps|] == steps;
    PushIsHeld(windowMs, steps, i, |steps|);
    TimerHolds(windowMs, steps);
  }

  /** The condition is exact: any other push, such as head 0 while the window is open and empty,
      is forgotten when the timer fires, with nothing dispatched for it. */
  lemma OtherPushesAreLost(windowMs: nat, steps: seq<Step>, at: int, head: int)
    requires IsRun(windowMs, steps) && !Kept(After(windowMs, steps), head) && Enabled(After(windowMs, steps), Push(at, head))
    requires steps != [] && steps[|steps| - 1].at <= at
    ensures var run := steps + [Push(at, head), Fire(After(windowMs, steps).due.value)];
            && IsRun(windowMs, run) && After(windowMs, run) == IDLE
            && Sent(windowMs, run, |steps|).None? && Sent(windowMs, run, |steps| + 1).None?
  {
    var due := After(windowMs, steps).due.value;
    TimerHolds(windowMs, steps);
    var pushed := steps + [Push(at, head)];
    var run := steps + [Push(at, head), Fire(due)];
    assert pushed[..|steps|] == steps && run[..|steps|] == steps && run[..|steps| + 1] == pushed;
    assert After(windowMs, pushed) == After(windowMs, steps);
    assert IsRun(windowMs, pushed);
    assert run[..|run| - 1] == pushed && run[|run| - 1] == Fire(due);
    assert run[|steps|] == Push(at, head) && run[|steps| + 1] == Fire(due);
  }

  // ---------------------------------------------------------------- what is dispatched

  /** Step `i` pushes `head`, and up to step `n` nothing is reset or dispatched. */
  ghost predicate Waiting(windowMs: nat, steps: seq<Step>, i: nat, n: nat, head: int)
    requires n <= |steps|
  {
    i < n && steps[i] == Push(steps[i].at, head) && forall k: nat | i <= k < n :: !steps[k].Reset? && Sent(windowMs, steps, k).None?
  }

  ghost predicate SomeWaits(windowMs: nat, steps: seq<Step>, n: nat, head: int)
    requires n <= |steps|
  {
    exists i: nat :: Waiting(windowMs, steps, i, n, head)
  }

  ghost predicate NoneAbove(windowMs: nat, steps: seq<Step>, n: nat, c: int)
    requires n <= |steps|
  {
    forall i: nat, head: int | Waiting(windowMs, steps, i, n, head) :: head <= c
  }

  lemma WaitingStep(windowMs: nat, steps: seq<Step>, i: nat, n: nat, head: int)
    requires n < |steps|
    ensures Waiting(windowMs, steps, i, n + 1, head)
       <==> && !steps[n].Reset? && Sent(windowMs, steps, n).None?
            && (Waiting(windowMs, steps, i, n, head) || (i == n && steps[n] == Push(steps[n].at, head)))
  {
  }

  lemma CollapsedWaits(windowMs: nat, steps: seq<Step>, n: nat, c: int)
    requires IsRun(windowMs, steps) && n < |steps| && c == After(windowMs, steps[..n + 1]).collapsed != 0
    requires After(windowMs, steps[..n]).collapsed != 0 ==> SomeWaits(windowMs, steps, n, After(windowMs, steps[..n]).collapsed)
    ensures SomeWaits(windowMs, steps, n + 1, c)
  {
    StepOf(windowMs, steps, n);
    TimerHolds(windowMs, steps[..n]);
    if steps[n].head == c {
      WaitingStep(windowMs, steps, n, n, c);
    } else {
      var i: nat :| Waiting(windowMs, steps, i, n, c);
      WaitingStep(windowMs, steps, i, n, c);
    }
  }

  lemma CollapsedBounds(windowMs: nat, steps: seq<Step>, n: nat, c: int, next: nat)
    requires IsRun(windowMs, steps) && n < |steps| && next == n + 1 && c == After(windowMs, steps[..next]).collapsed
    requires NoneAbove(windowMs, steps, n, After(windowMs, steps[..n]).collapsed)
    ensures NoneAbove(windowMs, steps, next, c)
  {
    StepOf(windowMs, steps, n);
    forall i: nat, head: int | Waiting(windowMs, steps, i, next, head) ensures head <= c {
      WaitingStep(windowMs, steps, i, n, head);
    }
  }

  /** The collapsed head is the largest that waits, and 0 when none above it does. */
  lemma {:induction false} CollapsedIsLargest(windowMs: nat, steps: seq<Step>, n: nat)
    requires IsRun(windowMs, steps) && n <= |steps|
    ensures After(windowMs, steps[..n]).collapsed != 0 ==> SomeWaits(windowMs, steps, n, After(windowMs, steps[..n]).collapsed)
    ensures NoneAbove(windowMs, steps, n, After(windowMs, steps[..n]).collapsed)
  {
    if n > 0 {
      CollapsedIsLargest(windowMs, steps, n - 1);
      var c := After(windowMs, steps[..n]).collapsed;
      if c != 0 { CollapsedWaits(windowMs, steps, n - 1, c); }
      CollapsedBounds(windowMs, steps, n - 1, c, n);
    }
  }

  /** A push dispatches its own head at once; a timer dispatches the largest head pushed since the
      last dispatch or reset, and only if one above 0 was. */
  lemma DispatchIsLargestPush(windowMs: nat, steps: seq<Step>, j: nat)
    requires IsRun(windowMs, steps) && j < |steps| && Sent(windowMs, steps, j).Some?
    ensures var v := Sent(windowMs, steps, j).value;
            || steps[j] == Push(steps[j].at, v)
            || (steps[j].Fire? && SomeWaits(windowMs, steps, j, v) && NoneAbove(windowMs, steps, j, v))
  {
    CollapsedIsLargest(windowMs, steps, j);
  }

  /** After a reset no timer is armed and no head is remembered: the next push is dispatched at once. */
  lemma ResetForgets(windowMs: nat, steps: seq<Step>, at: int, head: int)
    requires steps != [] && steps[|steps| - 1].Reset?
    ensures After(windowMs, steps) == Throttle(None, 0) && Sent(windowMs, steps + [Push(at, head)], |steps|) == Some(head)
  {
    assert (steps + [Push(at, head)])[..|steps|] == steps;
  }
}
