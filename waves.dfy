/** The arithmetic of the wave dispatch policy. The launch loop runs an index `i` from 0
    to n - 1 and, with concurrency limit c, waits for every outstanding task whenever
    (i + 1) % c == 0. Task i therefore belongs to wave i / c, and i % c is the number of
    tasks of its own wave launched before it. */
module Waves {

  function Min(a: int, b: int): (m: int)
    ensures m <= a && m <= b
    ensures m == a || m == b
  {
    if a <= b then a else b
  }

  function Max(a: int, b: int): (m: int)
    ensures m >= a && m >= b
    ensures m == a || m == b
  {
    if a >= b then a else b
  }

  /** The number of indices i in [0, n) at which the launch loop's wave test
      (i + 1) % c == 0 fires, counted one index at a time, as the loop meets them. */
  function Boundaries(n: nat, c: int): (k: nat)
    requires c >= 1
    ensures k <= n
  {
    if n == 0 then 0 else Boundaries(n - 1, c) + (if n % c == 0 then 1 else 0)
  }

  /** A positive multiple of c is at least c. */
  lemma {:induction false} MultipleAtLeast(d: nat, c: int)
    requires d >= 1 && c >= 1
    ensures d * c >= c
  {
    if d > 1 {
      MultipleAtLeast(d - 1, c);
      assert d * c == (d - 1) * c + c;
    }
  }

  /** Quotient and remainder are determined by any decomposition with a remainder in range. */
  lemma DivModUnique(x: int, c: int, q: int, r: int)
    requires c >= 1 && 0 <= r < c && x == q * c + r
    ensures x / c == q && x % c == r
  {
    var q', r' := x / c, x % c;
    assert x == q' * c + r';
    assert (q - q') * c == r' - r;
    if q > q' {
      MultipleAtLeast(q - q', c);
      assert false;
    } else if q < q' {
      MultipleAtLeast(q' - q, c);
      assert false;
    }
  }

  /** Task i at position r of wave q (i == q * c + r): the wave is i / c and the position
      i % c; only the first wave starts below c; the task at the last position completes
      its wave, so the wave test (i + 1) % c == 0 fires, and at any other position the
      next task stays in the same wave. */
  lemma WavePosition(i: nat, c: int, q: nat, r: nat)
    requires c >= 1 && r < c && i == q * c + r
    ensures i / c == q && i % c == r
    ensures q == 0 <==> i < c
    ensures r + 1 == c ==> i + 1 == (q + 1) * c && (i + 1) % c == 0 && (i + 1) / c == q + 1
    ensures r + 1 < c ==> (i + 1) % c == r + 1 && (i + 1) / c == q
  {
    DivModUnique(i, c, q, r);
    if q > 0 {
      MultipleAtLeast(q, c);
    }
    if r + 1 == c {
      assert (q + 1) * c == q * c + c;
      DivModUnique(i + 1, c, q + 1, 0);
    } else {
      DivModUnique(i + 1, c, q, r + 1);
    }
  }

  /** `log[j]` is the number of tasks that had completed when task j was launched. The
      log follows the wave policy when, at every launch, every task of the earlier waves
      had completed: task j never starts before the wait that ends the previous wave.
      Tasks can complete on their own at any time, so more may have completed, but
      never more than the j tasks launched before it. */
  ghost predicate LaunchedAfterWaves(log: seq<nat>, c: int)
    requires c >= 1
  {
    forall j :: 0 <= j < |log| ==> (j / c) * c <= log[j] <= j
  }

  /** Launching the next task when the earlier waves are complete keeps the log
      following the wave policy. */
  lemma LaunchedAfterWavesExtend(log: seq<nat>, c: int, done: nat)
    requires c >= 1 && LaunchedAfterWaves(log, c)
    requires (|log| / c) * c <= done <= |log|
    ensures LaunchedAfterWaves(log + [done], c)
  {
    var log' := log + [done];
    forall j | 0 <= j < |log'|
      ensures (j / c) * c <= log'[j] <= j
    {
      if j < |log| {
        assert log'[j] == log[j];
      }
    }
  }

  /** The exact log of a run in which tasks complete only at the waits: when task j was
      launched, precisely the tasks of the earlier waves had completed. */
  ghost predicate LaunchedInWaves(log: seq<nat>, c: int)
    requires c >= 1
  {
    forall j :: 0 <= j < |log| ==> log[j] == (j / c) * c
  }

  /** Launching the next task when exactly the earlier waves are complete keeps the
      exact log. */
  lemma LaunchedInWavesExtend(log: seq<nat>, c: int)
    requires c >= 1 && LaunchedInWaves(log, c)
    ensures LaunchedInWaves(log + [(|log| / c) * c], c)
  {
  }

  /** The wave test fires exactly n / c times during a loop over n indices: once per full
      wave. The last n % c tasks, if any, are left for the final wait. */
  lemma {:induction false} BoundariesIsDiv(n: nat, c: int)
    requires c >= 1
    ensures Boundaries(n, c) == n / c
  {
    if n > 0 {
      BoundariesIsDiv(n - 1, c);
      WavePosition(n - 1, c, (n - 1) / c, (n - 1) % c);
    }
  }
}
