/** The patience counters of the browser scrapers' loading loops: a counter
    starts at some value, goes back to a reset value on every round that made
    progress (more comments, a changed count, a control still found) and goes
    down by one on every round that did not; the loop runs while it is
    positive. The Threads loop (3 and 3) and both TikTok loops (30 and 15, 5
    and 5) are this counter. The Facebook `waitForAllCommentsLoaded` counts
    its `tries` up instead and has a second way out, and the YouTube
    `loadAllComments` has two more; their modules state those loops on
    their own terms. */
module Patience {

  /** The counter after the rounds `grew`, each true when that round made
      progress. */
  function Remaining(start: nat, reset: nat, grew: seq<bool>): int
    decreases |grew|
  {
    if grew == [] then start
    else if grew[|grew| - 1] then reset
    else Remaining(start, reset, grew[..|grew| - 1]) - 1
  }

  /** The counter was positive before each of the rounds `grew`, and after
      them, so the loop goes on. */
  predicate Running(start: nat, reset: nat, grew: seq<bool>)
    decreases |grew|
  {
    Remaining(start, reset, grew) > 0 && (grew == [] || Running(start, reset, grew[..|grew| - 1]))
  }

  /** `Running` says the counter was positive after every prefix. */
  lemma {:induction false} RunningPrefixes(start: nat, reset: nat, grew: seq<bool>)
    ensures Running(start, reset, grew) <==>
            forall k :: 0 <= k <= |grew| ==> Remaining(start, reset, grew[..k]) > 0
    decreases |grew|
  {
    assert grew[..|grew|] == grew;
    if grew != [] {
      var p := grew[..|grew| - 1];
      RunningPrefixes(start, reset, p);
      forall k | 0 <= k <= |p| ensures p[..k] == grew[..k] {
      }
    }
  }

  /** The loop ran exactly the rounds `grew`: it was running before the last
      one, and the last one brought the counter to 0. */
  predicate Stops(start: nat, reset: nat, grew: seq<bool>) {
    grew != [] && Running(start, reset, grew[..|grew| - 1]) && Remaining(start, reset, grew) <= 0
  }

  /** The number of rounds without progress at the end. */
  function Idle(grew: seq<bool>): (n: nat)
    ensures n <= |grew|
    decreases |grew|
  {
    if grew == [] || grew[|grew| - 1] then 0 else Idle(grew[..|grew| - 1]) + 1
  }

  /** The rounds counted by `Idle` are the last ones, and none of them made
      progress. */
  lemma {:induction false} IdleRounds(grew: seq<bool>)
    ensures forall i :: |grew| - Idle(grew) <= i < |grew| ==> !grew[i]
    decreases |grew|
  {
    if grew != [] && !grew[|grew| - 1] {
      var p := grew[..|grew| - 1];
      IdleRounds(p);
      assert forall i :: 0 <= i < |p| ==> p[i] == grew[i];
    }
  }

  /** What the counter counts down from at the end of `grew`: the reset value
      once some round made progress, the start value otherwise. */
  function Base(start: nat, reset: nat, grew: seq<bool>): nat {
    if Idle(grew) == |grew| then start else reset
  }

  /** The counter is its base less the rounds without progress since the
      last round that made some. */
  lemma {:induction false} RemainingIdle(start: nat, reset: nat, grew: seq<bool>)
    ensures Remaining(start, reset, grew) == Base(start, reset, grew) - Idle(grew)
    decreases |grew|
  {
    if grew != [] && !grew[|grew| - 1] {
      var p := grew[..|grew| - 1];
      RemainingIdle(start, reset, p);
      assert Idle(grew) == Idle(p) + 1;
      assert (Idle(grew) == |grew|) == (Idle(p) == |p|);
    }
  }

  /** One more round: the counter and the loop condition after it. */
  lemma Continue(start: nat, reset: nat, grew: seq<bool>, b: bool)
    requires Running(start, reset, grew)
    ensures Remaining(start, reset, grew + [b]) == (if b then reset else Remaining(start, reset, grew) - 1)
    ensures Remaining(start, reset, grew + [b]) > 0 ==> Running(start, reset, grew + [b])
    ensures Remaining(start, reset, grew + [b]) <= 0 ==> Stops(start, reset, grew + [b])
  {
    assert (grew + [b])[..|grew|] == grew;
  }

  /** The state a loop keeps: `buffer` is the counter after the rounds
      `grew`, and the loop goes on exactly while it is positive. */
  predicate Counting(start: nat, reset: nat, grew: seq<bool>, buffer: int) {
    buffer == Remaining(start, reset, grew)
    && (buffer > 0 ==> Running(start, reset, grew))
    && (buffer <= 0 ==> Stops(start, reset, grew))
  }

  /** A round of the loop body: the counter goes back to `reset` after a
      round that made progress and down by one after one that did not. */
  lemma Count(start: nat, reset: nat, grew: seq<bool>, buffer: int, b: bool)
    requires Counting(start, reset, grew, buffer) && buffer > 0
    ensures Counting(start, reset, grew + [b], if b then reset else buffer - 1)
  {
    Continue(start, reset, grew, b);
  }

  /** Before the first round. */
  lemma CountStart(start: nat, reset: nat)
    requires start > 0
    ensures Counting(start, reset, [], start)
  {
  }

  /** With positive values, the loop stops exactly when the rounds without
      progress since the last progress (or since the start) reach the value
      the counter came back to: the last `reset` rounds, or all `start`
      rounds, made none, and at no earlier round had as many. */
  lemma StopsExactly(start: nat, reset: nat, grew: seq<bool>)
    requires start > 0 && reset > 0
    ensures Stops(start, reset, grew) <==>
              grew != [] && Idle(grew) == Base(start, reset, grew)
              && forall k :: 0 <= k < |grew| ==> Idle(grew[..k]) < Base(start, reset, grew[..k])
  {
    forall k | 0 <= k <= |grew| {
      RemainingIdle(start, reset, grew[..k]);
    }
    if grew != [] {
      var p := grew[..|grew| - 1];
      RunningPrefixes(start, reset, p);
      RemainingIdle(start, reset, grew);
      assert grew[..|grew|] == grew;
      forall k | 0 <= k <= |p| ensures p[..k] == grew[..k] {
      }
    }
  }

  /** Unless every round was idle, the round just before the idle ones made
      progress. */
  lemma {:induction false} IdleBoundary(grew: seq<bool>)
    requires Idle(grew) < |grew|
    ensures grew[|grew| - Idle(grew) - 1]
    decreases |grew|
  {
    if !grew[|grew| - 1] {
      var p := grew[..|grew| - 1];
      IdleBoundary(p);
      assert p[|p| - Idle(p) - 1] == grew[|grew| - Idle(grew) - 1];
    }
  }

  /** How a loop that stopped ended, with a reset value no larger than the
      start: its last `reset` rounds made no progress; if no round made any,
      it ran exactly `start` rounds; and at no earlier round had the idle
      rounds reached the value the counter came back to. */
  lemma StopsIdle(start: nat, reset: nat, grew: seq<bool>)
    requires start >= reset > 0 && Stops(start, reset, grew)
    ensures |grew| >= reset && forall i :: |grew| - reset <= i < |grew| ==> !grew[i]
    ensures (forall i :: 0 <= i < |grew| ==> !grew[i]) ==> |grew| == start
    ensures forall k :: 0 <= k < |grew| ==> Idle(grew[..k]) < Base(start, reset, grew[..k])
  {
    StopsExactly(start, reset, grew);
    IdleRounds(grew);
    if Idle(grew) < |grew| {
      IdleBoundary(grew);
    }
  }

  /** What the loop sees on round `r` of a page observed `obs[0]`, `obs[1]`,
      ... and unchanged after the last observation (`none` when there is
      none). */
  function Seen<T>(obs: seq<T>, r: nat, none: T): T {
    if obs == [] then none else if r < |obs| then obs[r] else obs[|obs| - 1]
  }

  /** Past the last observation, the page shows the same thing. */
  lemma SeenLast<T>(obs: seq<T>, r: nat, none: T)
    requires r + 1 >= |obs|
    ensures Seen(obs, r, none) == Seen(obs, r + 1, none)
  {
  }
}
