/** The load driver's dispatch loop and its shared result counters (`main` and
    `httpRequest` in Task2/goab.go). Concurrency is replaced by sequential steps: the
    WaitGroup becomes the integer `inFlight`, a launched request task is one more
    outstanding unit of it, and tasks complete either on their own while the loop keeps
    launching or at a wait, which completes every outstanding task. Two oracles drive a
    run: `outcomes[k]` is the outcome of the k-th task to complete, and `early[i]` is how
    many outstanding tasks complete on their own right after task i is launched. */
module Driver {
  import opened Tally
  import opened Waves
  import opened Config

  class LoadDriver {
    /** Completed tasks that received a response (the source's `totalRequests`). */
    var success: nat
    /** Completed tasks that failed at the transport level (the source's `totalErrors`). */
    var errors: nat
    /** Launched tasks not yet completed (the WaitGroup counter). */
    var inFlight: nat
    /** Tasks launched so far in this run (the loop index). */
    var launched: nat

    /** The largest number of tasks outstanding at any moment of the run. */
    ghost var peak: nat
    /** For each launched task, how many tasks had completed when it was launched. */
    ghost var completedAtLaunch: seq<nat>

    /** Every launched task is either completed, as exactly one of a success or an error,
        or still outstanding. */
    ghost predicate Valid()
      reads this
    {
      success + errors + inFlight == launched &&
      |completedAtLaunch| == launched &&
      inFlight <= peak
    }

    constructor ()
      ensures Valid()
      ensures success == 0 && errors == 0 && inFlight == 0 && launched == 0
      ensures peak == 0 && completedAtLaunch == []
    {
      success, errors, inFlight, launched := 0, 0, 0, 0;
      peak, completedAtLaunch := 0, [];
    }

    /** `wg.Add(1)` followed by starting one request task. */
    method Launch()
      requires Valid()
      modifies this
      ensures Valid()
      ensures launched == old(launched) + 1 && inFlight == old(inFlight) + 1
      ensures success == old(success) && errors == old(errors)
      ensures peak == Max(old(peak), inFlight)
      ensures completedAtLaunch == old(completedAtLaunch) + [old(success) + old(errors)]
    {
      launched := launched + 1;
      inFlight := inFlight + 1;
      completedAtLaunch := completedAtLaunch + [success + errors];
      peak := Max(peak, inFlight);
    }

    /** One request task finishing: a received response counts as a success, a transport
        failure as an error, and the task leaves the WaitGroup. Only a launched task can
        finish. */
    method CompleteOne(ok: bool)
      requires Valid()
      requires inFlight > 0
      modifies this
      ensures Valid()
      ensures inFlight == old(inFlight) - 1
      ensures success == old(success) + (if ok then 1 else 0)
      ensures errors == old(errors) + (if ok then 0 else 1)
      ensures launched == old(launched) && peak == old(peak)
      ensures completedAtLaunch == old(completedAtLaunch)
    {
      if ok {
        success := success + 1;
      } else {
        errors := errors + 1;
      }
      inFlight := inFlight - 1;
    }

    /** Several outstanding tasks finishing, one after another, the k-th with outcome
        outcomes[k]. */
    method CompleteMany(outcomes: seq<bool>)
      requires Valid()
      requires |outcomes| <= inFlight
      modifies this
      ensures Valid()
      ensures inFlight == old(inFlight) - |outcomes|
      ensures success == old(success) + Count(outcomes, true)
      ensures errors == old(errors) + Count(outcomes, false)
      ensures launched == old(launched) && peak == old(peak)
      ensures completedAtLaunch == old(completedAtLaunch)
    {
      var i := 0;
      while i < |outcomes|
        invariant 0 <= i <= |outcomes|
        invariant Valid()
        invariant inFlight == old(inFlight) - i
        invariant success == old(success) + Count(outcomes[..i], true)
        invariant errors == old(errors) + Count(outcomes[..i], false)
        invariant launched == old(launched) && peak == old(peak)
        invariant completedAtLaunch == old(completedAtLaunch)
      {
        assert outcomes[..i + 1] == outcomes[..i] + [outcomes[i]];
        CountAppend(outcomes[..i], [outcomes[i]], true);
        CountAppend(outcomes[..i], [outcomes[i]], false);
        CompleteOne(outcomes[i]);
        i := i + 1;
      }
      assert outcomes[..i] == outcomes;
    }

    /** `wg.Wait()`: every outstanding task completes, with one outcome per task. */
    method Drain(outcomes: seq<bool>)
      requires Valid()
      requires |outcomes| == inFlight
      modifies this
      ensures Valid()
      ensures inFlight == 0
      ensures success == old(success) + Count(outcomes, true)
      ensures errors == old(errors) + Count(outcomes, false)
      ensures launched == old(launched) && peak == old(peak)
      ensures completedAtLaunch == old(completedAtLaunch)
    {
      CompleteMany(outcomes);
    }

    /** What holds after the loop has launched the tasks at indices 0 .. i - 1, the
        current wave starting at index ws. The tasks of the earlier waves have completed;
        of the current wave (fewer than c tasks), some may have completed on their own;
        the first tasks to complete took the first outcomes of the oracle; never more
        than c tasks, nor more than were launched, have been outstanding at once; and no
        task was launched before the previous wave had completed. If no task has
        completed on its own (`exact`), the whole current wave is outstanding, a full
        wave has been outstanding once one was launched, and each task was launched when
        exactly the tasks of the earlier waves had completed. */
    ghost predicate Dispatched(i: nat, c: int, outcomes: seq<bool>, ws: nat, exact: bool)
      requires c >= 1 && i <= |outcomes|
      reads this
    {
      Valid() &&
      launched == i && ws <= i < ws + c && inFlight <= i - ws &&
      success == Count(outcomes[..i - inFlight], true) &&
      errors == Count(outcomes[..i - inFlight], false) &&
      peak <= c && peak <= i &&
      LaunchedAfterWaves(completedAtLaunch, c) &&
      (exact ==>
         inFlight == i - ws &&
         peak == (if ws == 0 then inFlight else c) &&
         LaunchedInWaves(completedAtLaunch, c))
    }

    /** The state right after task i, of the wave starting at ws, has been launched and
        some outstanding tasks have completed on their own, before the wave test. */
    ghost predicate Settled(i: nat, c: int, outcomes: seq<bool>, ws: nat, exact: bool)
      requires c >= 1 && i < |outcomes|
      reads this
    {
      Valid() &&
      launched == i + 1 && ws <= i < ws + c && inFlight <= i + 1 - ws &&
      success == Count(outcomes[..i + 1 - inFlight], true) &&
      errors == Count(outcomes[..i + 1 - inFlight], false) &&
      peak <= c && peak <= i + 1 &&
      LaunchedAfterWaves(completedAtLaunch, c) &&
      (exact ==>
         inFlight == i + 1 - ws &&
         peak == (if ws == 0 then inFlight else c) &&
         LaunchedInWaves(completedAtLaunch, c))
    }

    /** `wg.Add(1)` and `go httpRequest(url, k)` in one loop iteration: launch task i.
        Every task of the earlier waves has completed at that moment. */
    method LaunchTask(i: nat, c: int, outcomes: seq<bool>, ghost ws: nat, ghost exact: bool)
      requires c >= 1 && i < |outcomes|
      requires Dispatched(i, c, outcomes, ws, exact) && (i / c) * c == ws
      modifies this
      ensures Settled(i, c, outcomes, ws, exact)
      ensures launched == old(launched) + 1 && inFlight == old(inFlight) + 1
      ensures success == old(success) && errors == old(errors)
      ensures peak == Max(old(peak), inFlight)
      ensures completedAtLaunch == old(completedAtLaunch) + [old(success) + old(errors)]
    {
      ghost var before := completedAtLaunch;
      Launch();
      LaunchedAfterWavesExtend(before, c, i - old(inFlight));
      if exact {
        LaunchedInWavesExtend(before, c);
      }
    }

    /** What the running tasks do between two steps of the loop: `early` of the
        outstanding tasks (all of them, if fewer are outstanding) complete on their own,
        taking the next outcomes of the oracle. */
    method CompleteEarly(i: nat, c: int, outcomes: seq<bool>, early: nat, ghost ws: nat, ghost exact: bool)
      requires c >= 1 && i < |outcomes|
      requires Settled(i, c, outcomes, ws, exact)
      modifies this
      ensures Settled(i, c, outcomes, ws, exact && early == 0)
      ensures inFlight == old(inFlight) - Min(early, old(inFlight))
      ensures launched == old(launched) && peak == old(peak)
      ensures completedAtLaunch == old(completedAtLaunch)
    {
      if early == 0 {
        return;
      }
      var done := i + 1 - inFlight;
      var settled := Min(early, inFlight);
      CountPrefix(outcomes, done, done + settled, true);
      CountPrefix(outcomes, done, done + settled, false);
      CompleteMany(outcomes[done..done + settled]);
      assert i + 1 - inFlight == done + settled;
    }

    /** The wave test of one loop iteration: if (i + 1) % c == 0, wait for every
        outstanding task; the next wave then starts at index i + 1. Returns whether it
        waited. */
    method WaitIfWaveFull(i: nat, c: int, outcomes: seq<bool>, ghost ws: nat, ghost exact: bool)
      returns (waited: bool)
      requires c >= 1 && i < |outcomes|
      requires Settled(i, c, outcomes, ws, exact) && (i / c) * c == ws
      modifies this
      ensures waited == (i + 1 == ws + c)
      ensures waited == ((i + 1) % c == 0)
      ensures ((i + 1) / c) * c == if waited then i + 1 else ws
      ensures Dispatched(i + 1, c, outcomes, if waited then i + 1 else ws, exact)
      ensures !waited ==> inFlight == old(inFlight) && success == old(success) && errors == old(errors)
      ensures launched == old(launched) && peak == old(peak)
      ensures completedAtLaunch == old(completedAtLaunch)
    {
      WavePosition(i, c, i / c, i - ws);
      waited := (i + 1) % c == 0;
      if waited {
        WaitForWave(i, c, outcomes, ws, exact);
      }
    }

    /** `wg.Wait()` after a full wave: task i filled its wave; wait for every
        outstanding task. The next wave starts at index i + 1 with nothing outstanding. */
    method WaitForWave(i: nat, c: int, outcomes: seq<bool>, ghost ws: nat, ghost exact: bool)
      requires c >= 1 && i < |outcomes|
      requires Settled(i, c, outcomes, ws, exact) && i + 1 == ws + c
      modifies this
      ensures Dispatched(i + 1, c, outcomes, i + 1, exact)
      ensures inFlight == 0
      ensures launched == old(launched) && peak == old(peak)
      ensures completedAtLaunch == old(completedAtLaunch)
    {
      var done := i + 1 - inFlight;
      CountPrefix(outcomes, done, i + 1, true);
      CountPrefix(outcomes, done, i + 1, false);
      Drain(outcomes[done..i + 1]);
    }

    /** When the loop ends, never more than Min(n, c) tasks have been outstanding at
        once, and every task was launched after the waves before its own had completed;
        if no task completed on its own, Min(n, c) tasks were outstanding at some point
        and each task was launched when exactly the earlier waves had completed. */
    lemma LoopBounds(n: nat, c: int, outcomes: seq<bool>, ws: nat, exact: bool)
      requires c >= 1 && |outcomes| == n
      requires Dispatched(n, c, outcomes, ws, exact) && (n / c) * c == ws
      ensures peak <= Min(n, c)
      ensures forall j :: 0 <= j < n ==> (j / c) * c <= completedAtLaunch[j] <= j
      ensures exact ==> peak == Min(n, c)
      ensures exact ==> forall j :: 0 <= j < n ==> completedAtLaunch[j] == (j / c) * c
    {
      WavePosition(n, c, n / c, n - ws);
      if n / c > 0 {
        MultipleAtLeast(n / c, c);
      }
    }

    /** The final `wg.Wait()` after the loop: wait for the tasks of the last, partial
        wave. The counters then hold the tallies of all outcomes; the bounds on the peak and on the
        launch log that the loop kept are now stated for the whole run. */
    method FinalWait(n: nat, c: int, outcomes: seq<bool>, ghost ws: nat, ghost exact: bool)
      requires c >= 1 && |outcomes| == n
      requires Dispatched(n, c, outcomes, ws, exact) && (n / c) * c == ws
      modifies this
      ensures Valid()
      ensures launched == n && inFlight == 0
      ensures success == Count(outcomes, true) && errors == Count(outcomes, false)
      ensures success + errors == n
      ensures peak <= Min(n, c)
      ensures forall j :: 0 <= j < n ==> (j / c) * c <= completedAtLaunch[j] <= j
      ensures exact ==> peak == Min(n, c)
      ensures exact ==> forall j :: 0 <= j < n ==> completedAtLaunch[j] == (j / c) * c
      ensures peak == old(peak) && completedAtLaunch == old(completedAtLaunch)
    {
      LoopBounds(n, c, outcomes, ws, exact);
      var waveStart := n - inFlight;
      CountPrefix(outcomes, waveStart, n, true);
      CountPrefix(outcomes, waveStart, n, false);
      Drain(outcomes[waveStart..n]);
      assert outcomes[..n] == outcomes;
      CountPartition(outcomes);
    }

    /** The run in `main`: reset both counters, launch n tasks, waiting for every
        outstanding task after each c-th launch, then wait once more for the rest. The
        k-th task to complete has outcome outcomes[k]; right after task i is launched,
        early[i] outstanding tasks (or all, if fewer are outstanding) complete on their
        own. Returns the number of waits inside the loop. */
    method Run(n: nat, c: int, outcomes: seq<bool>, early: seq<nat>) returns (drains: nat)
      requires c >= 1
      requires |outcomes| == n && |early| == n
      requires inFlight == 0
      modifies this
      ensures Valid()
      ensures launched == n && inFlight == 0
      ensures success == Count(outcomes, true) && errors == Count(outcomes, false)
      ensures success + errors == n && success <= n && errors <= n
      ensures drains == Boundaries(n, c) && drains == n / c
      ensures peak <= Min(n, c)
      ensures forall j :: 0 <= j < n ==> (j / c) * c <= completedAtLaunch[j] <= j
      ensures NoneEarly(early) ==> peak == Min(n, c)
      ensures NoneEarly(early) ==> forall j :: 0 <= j < n ==> completedAtLaunch[j] == (j / c) * c
    {
      success, errors := 0, 0;
      launched, peak, completedAtLaunch := 0, 0, [];
      drains := 0;
      ghost var ws := 0;
      ghost var exact := true;
      var i := 0;
      while i < n
        invariant 0 <= i <= n
        invariant drains == Boundaries(i, c)
        invariant (i / c) * c == ws
        invariant exact <==> forall k :: 0 <= k < i ==> early[k] == 0
        invariant Dispatched(i, c, outcomes, ws, exact)
      {
        LaunchTask(i, c, outcomes, ws, exact);
        CompleteEarly(i, c, outcomes, early[i], ws, exact);
        exact := exact && early[i] == 0;
        var waited := WaitIfWaveFull(i, c, outcomes, ws, exact);
        if waited {
          drains := drains + 1;
          ws := i + 1;
        }
        i := i + 1;
      }
      FinalWait(n, c, outcomes, ws, exact);
      BoundariesIsDiv(n, c);
    }
  }

  /** No task completes on its own: every task completes at a wait. */
  predicate NoneEarly(early: seq<nat>)
  {
    forall i :: 0 <= i < |early| ==> early[i] == 0
  }

  /** What a completed run reports: the configuration used, the final success and error
      tallies, the number of tasks launched and the number of waits inside the loop. */
  datatype RunOutcome =
    | Aborted(reason: StartupError)
    | Finished(config: Config, totalRequests: nat, totalErrors: nat, launched: nat, drains: nat)

  /** `main`: configure from the arguments and flags; on the start-up error stop before
      any task exists, otherwise run the dispatch loop to completion. The oracles supply
      one outcome and one early-completion count per task of the normalized request
      count. */
  method Execute(args: seq<string>, n: int, c: int, disableKeepAlives: bool,
                 outcomes: seq<bool>, early: seq<nat>)
    returns (r: RunOutcome)
    requires |args| == 1 ==> |outcomes| == Normalize(n, c).0 && |early| == Normalize(n, c).0
    ensures r.Aborted? <==> |args| != 1
    ensures r.Aborted? ==> r.reason == UrlRequired
    ensures r.Finished? ==> Configure(args, n, c, disableKeepAlives) == Success(r.config)
    ensures r.Finished? ==> r.launched == r.config.requests
    ensures r.Finished? ==> r.totalRequests == Count(outcomes, true)
    ensures r.Finished? ==> r.totalErrors == Count(outcomes, false)
    ensures r.Finished? ==> r.totalRequests + r.totalErrors == r.config.requests
    ensures r.Finished? ==> r.drains == r.config.requests / r.config.concurrency
  {
    var cfg := Configure(args, n, c, disableKeepAlives);
    if cfg.Failure? {
      return Aborted(cfg.error);
    }
    var driver := new LoadDriver();
    var drains := driver.Run(cfg.value.requests, cfg.value.concurrency, outcomes, early);
    r := Finished(cfg.value, driver.success, driver.errors, driver.launched, drains);
  }
}
