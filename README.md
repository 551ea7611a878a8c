# goab load driver — a Dafny model

goab is a command-line HTTP load generator. It sends `n` GET requests to one URL and
keeps at most `c` requests outstanding, then reports throughput, average latency and
error rate. This project models the sequential core of its driver (`Task2/goab.go`):

- **Configuration.** Exactly one positional argument, the URL, is required; anything
  else is the fatal start-up error. A request count `n` at or below 0 becomes 10000. A
  concurrency limit `c` at or below 0 becomes 100. The module `Config` holds this.
- **Result accounting.** The two package-level counters `totalRequests` (responses
  received) and `totalErrors` (transport failures) start at zero. Each completed request
  task increments exactly one of them. The module `Tally` defines the tally of an outcome
  sequence and proves its properties.
- **Wave dispatch.** The loop launches `n` tasks. After each launch whose index `i`
  satisfies `(i + 1) % c == 0`, it waits until every outstanding task has completed. It
  waits once more after the loop. Task `i` belongs to wave `i / c`. The module `Waves`
  holds this arithmetic. The module `Driver` holds the class `LoadDriver`, whose fields
  are the two counters, the WaitGroup count `inFlight` and the launch count `launched`.

Concurrency becomes sequential steps. `Launch` is `wg.Add(1)` plus starting a task.
`CompleteOne(ok)` is one task finishing, and `CompleteMany` is several finishing one
after another. `Drain` is `wg.Wait()`: it completes every outstanding task. `Run` is the
loop of `main`, and `Execute` is `main` from its arguments. Two oracle sequences drive a
run:

- `outcomes[k]` is the outcome of the k-th task to complete, whichever task that is.
  Any completion order is therefore covered.
- `early[i]` is how many outstanding tasks finish on their own right after task `i` is
  launched, before the wave test. If fewer are outstanding, all of them finish. Tasks
  may thus complete between launches, not only at the waits.

Two ghost fields make the concurrency claims statable:

- `peak` is the largest number of tasks ever outstanding at once.
- `completedAtLaunch[j]` is how many tasks had completed when task `j` was launched.

`Run` proves these facts for every pair of oracles:

- `peak <= Min(n, c)`, so no more than `c` tasks are ever outstanding.
- `(j / c) * c <= completedAtLaunch[j] <= j`: when task `j` starts, at least the
  `(j / c) * c` tasks of the earlier waves have completed, and at most the `j` tasks
  launched before it.
- The counters end at the tallies of the outcomes, and their sum is `n`.
- The in-loop wait runs exactly `n / c` times.

If no task finishes before a wait (`early` is all zeros), the bounds become equalities:
`peak == Min(n, c)`, and `completedAtLaunch[j] == (j / c) * c`.

Inputs that come from outside the program are parameters:

- the flag values and the positional arguments, as already parsed;
- the success or failure of each HTTP request, as the oracle `outcomes`;
- the timing of the running tasks, as the oracle `early`.

## Model

| member | source | states |
|---|---|---|
| Config.Normalize | Task2/goab.go:69-75 | A non-positive request count becomes 10000 and a non-positive concurrency limit becomes 100. Positive values pass through unchanged. Both results are positive. |
| Config.Configure | Task2/goab.go:62-75 | The start-up error happens exactly when the number of positional arguments is not 1. Otherwise the URL is the single argument, `n` and `c` are the normalized flags, and the keep-alive flag is kept. |
| Tally.Count | Task2/goab.go:36-44 | A tally of one outcome never exceeds the number of completed tasks. |
| Tally.CountAppend | Task2/goab.go:36-44 | The tallies of two consecutive groups of tasks add up. |
| Tally.CountPrefix | Task2/goab.go:86-93 | The tally of the first b tasks is the tally of the first a tasks plus the tally of tasks a to b. |
| Tally.CountPartition | Task2/goab.go:36-44 | Successes plus errors equal the number of completed tasks, so each task increments exactly one counter. |
| Tally.CountIsMultiplicity | Task2/goab.go:39-44 | A tally is the multiplicity of that outcome in the multiset of outcomes. |
| Tally.CountOrderIndependent | Task2/goab.go:39-44 | Two completion orders of the same tasks give the same success count and the same error count. |
| Tally.CountZeroIff | Task2/goab.go:36-44 | A tally is zero if and only if no task had that outcome. For example, no errors means every request got a response. |
| Tally.CountFullIff | Task2/goab.go:36-44 | A tally equals the number of tasks if and only if every task had that outcome. |
| Waves.Boundaries | Task2/goab.go:83-89 | The number of loop indices below n where the wave test `(i + 1) % c == 0` fires is at most n. |
| Waves.WavePosition | Task2/goab.go:83-89 | Task i at position r of wave q has i / c == q and i % c == r. Only the first wave starts below c. The wave test fires exactly at a wave's last position. |
| Waves.LaunchedAfterWavesExtend | Task2/goab.go:83-89 | Launching a task when at least the earlier waves and at most the earlier launches have completed keeps the launch log within the wave policy's bounds. |
| Waves.LaunchedInWavesExtend | Task2/goab.go:84-89 | Launching a task when exactly the tasks of the earlier waves have completed keeps the launch log equal to the wave starts. |
| Waves.BoundariesIsDiv | Task2/goab.go:83-90 | The in-loop wait runs exactly n / c times. |
| Driver.LoadDriver.constructor | Task2/goab.go:13-17 | Both counters are zero, and nothing is outstanding or launched. |
| Driver.LoadDriver.Launch | Task2/goab.go:84-85 | One more task is launched and outstanding. The counters are unchanged. The launch records how many tasks had completed, and the peak number outstanding is updated. |
| Driver.LoadDriver.CompleteOne | Task2/goab.go:26-44 | Only an outstanding task can complete. Completion increments exactly one counter: successes for a response, errors for a transport failure. The task stops being outstanding. Neither counter decreases. |
| Driver.LoadDriver.CompleteMany | Task2/goab.go:26-44 | Several outstanding tasks complete. Each counter grows by the tally of its outcome among them, and as many tasks stop being outstanding. |
| Driver.LoadDriver.Drain | Task2/goab.go:88 | After the wait nothing is outstanding. Each counter has grown by the tally of its outcome among the tasks just finished. |
| Driver.LoadDriver.LaunchTask | Task2/goab.go:84-85 | Launching task i adds one launched, outstanding task. The counters are unchanged, the peak becomes the larger of the old peak and the new outstanding count, and the launch log gains the number of completions so far. The loop invariant is kept: every earlier wave has completed, at most c tasks are outstanding, and the log stays within the wave bounds. |
| Driver.LoadDriver.CompleteEarly | Task2/goab.go:26-44 | Exactly Min(early, inFlight) outstanding tasks finish between launches. The launch count, the peak and the launch log are unchanged. The counters hold the tallies of the first outcomes, so the loop invariant is kept. |
| Driver.LoadDriver.WaitIfWaveFull | Task2/goab.go:87-89 | The loop waits exactly when `(i + 1) % c == 0`, which is when task i fills its wave. The next wave then starts at i + 1 with nothing outstanding. Without a wait, the outstanding count and both counters are unchanged. Either way the launch count, the peak and the launch log are unchanged. |
| Driver.LoadDriver.WaitForWave | Task2/goab.go:88 | The wait after a full wave leaves nothing outstanding and the counters at the tallies of all outcomes so far. The launch count, the peak and the launch log are unchanged. |
| Driver.LoadDriver.LoopBounds | Task2/goab.go:83-90 | When the loop ends, at most Min(n, c) tasks were outstanding at once. Each task j launched after at least (j / c) * c and at most j completions. With no early completions both bounds are equalities. |
| Driver.LoadDriver.FinalWait | Task2/goab.go:93 | The last wait leaves nothing outstanding. The counters equal the tallies of all n outcomes and sum to n. The peak and the launch log are unchanged. |
| Driver.LoadDriver.Run | Task2/goab.go:77-93 | The counters restart at zero. Exactly n tasks are launched and none is outstanding at the end. The counters equal the tallies of the outcomes in every completion order, sum to n, and each lies between 0 and n. The in-loop wait runs n / c times. At most Min(n, c) tasks are ever outstanding. Task j launches after at least the (j / c) * c tasks of earlier waves have completed, and after at most j. When no task finishes before a wait, exactly Min(n, c) are outstanding at some point and exactly (j / c) * c have completed when task j launches. |
| Driver.Execute | Task2/goab.go:47-93 | The run aborts before any task exists exactly when the number of positional arguments is not 1. Otherwise it launches the normalized n tasks, and the reported counters are the outcome tallies and sum to n. The in-loop wait runs n / c times. |

## Left out

- The HTTP client, the transport clone and the `DisableKeepAlives` switch (Task2/goab.go:28-34), and closing the response body (Task2/goab.go:42). These are network I/O in foreign library code. Each request is only its outcome, one boolean of the oracle. The `-k` flag is carried in the configuration but affects nothing modelled.
- Goroutines, `sync.WaitGroup` and `atomic.AddInt64` as concurrency primitives. They are replaced by sequential counter updates. Completions are interleaved with launches one step at a time, as the `early` oracle says, and never in the middle of a launch or of a counter update. A completion between the wave test and the next launch is placed before the test; the test reads only `i`, so nothing observable changes. Atomicity itself is not modelled.
- The per-request error log line (Task2/goab.go:38) and the `log.Fatal` message and exit status (Task2/goab.go:64). These are output only. The fatal path is the `Aborted` outcome.
- Flag parsing with the `flag` package (Task2/goab.go:54-59). The parsed integers and the positional arguments are the inputs.
- `time.Now`, `time.Since` and the float metrics TPS, average latency and error percentage (Task2/goab.go:80, 96-101), plus printing them (Task2/goab.go:104-107). These are wall-clock time and floating point. The average latency (Task2/goab.go:100) and the error percentage (Task2/goab.go:101) divide by the success count, so they divide by zero when no request succeeded; that is not modelled. TPS divides by the elapsed seconds (Task2/goab.go:99) and is 0 in that case. The error percentage is relative to the successes, not to n.
- Integer width: `n` and `c` are Go `int` values (32 or 64 bits, depending on the platform), parsed by `flag.IntVar` (Task2/goab.go:55-56), and the two counters are `int64`. Every counter and index is at most `n`, and `i + 1 <= n`, so nothing wraps. The WaitGroup counter that `inFlight` stands for is 32 bits in Go, but `inFlight <= Min(n, c)` (from `peak`), and 2^31 outstanding tasks are out of practical reach. The model uses unbounded integers.
- The oracles must give exactly one outcome and one early-completion count per task of the normalized request count: `Execute` requires this of its `outcomes` and `early` parameters.
- Task3/serverHttp.go, the request-logging server used as a target. It is pure I/O and is not part of this model.
