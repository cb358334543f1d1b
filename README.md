# rayoff: the work-claiming protocol of a thread pool

rayoff is a fixed-size thread pool for "apply `func` to every element of a
mutable slice" workloads. A dispatch builds a `Job` holding the slice, its
length `num`, a `work_index` counter and a `done_index` counter. Every
background worker receives the same job over its channel. The dispatching
thread executes the job too. Each participant repeatedly does
`work_index.fetch_add(1)` and applies `func` to the element at the returned
index until it gets an index at or beyond `num`. The dispatching thread then
spins on `done_index` until the job is finished.

This project models that protocol as a state machine of atomic steps. A
`Job` class holds the buffer (an `array`), `num`, `workIndex`, `doneIndex`
and the program counter of every participant (`phase`). Step methods perform
one atomic operation each. A scheduler parameter (`sched: nat -> nat`)
chooses which participant moves next, so every interleaving of the threads
is a run of the model. A dispatch uses one schedule throughout: `Execute`
returns how many steps it took, and `Wait` continues the same schedule from
there. Ghost state records the original buffer and how many
times `func` has run on each index. `Valid()` is the protocol invariant. It
says that:

- participants hold distinct indices;
- every index has been applied at most once;
- the buffer shows exactly the applications made;
- both counters agree with the participants' phases.

Every step preserves it.

There are two variants:

- `Rayoff` (src/rayoff.rs): `done_index` counts participants that found the
  work exhausted. `dispatch_mut` waits for `senders.len() + 1` of them.
  `Pool::dispatch_mut` and `Pool::map` are proved against their end results:
  the buffer mapped by `func`, and outputs in input order.
- `LegacyJob` (src/job.rs): `done_index` counts processed elements, and
  `wait` spins until it reaches `num`.

`Tally` holds weighted counts over sequences (`Total`) and their lemmas. The
counter invariants of both variants are stated with them. It also holds the
shared helpers `Min` and `Mapped`, the end result both jobs promise.

The code always spins in `wait`, does not recover from a panicking `func`,
and falls back to 16 CPUs when the CPU query fails. The model follows the
code.

## Model

| member | source | states |
|---|---|---|
| Rayoff.Job.constructor | src/rayoff.rs:88-94 | The new job borrows `elems`, has `num == elems.len()`, both counters at 0, every participant about to claim, and satisfies the protocol invariant |
| Rayoff.Job.Claim | src/rayoff.rs:34 | A claim returns the current `work_index` and raises it by exactly one. The claimer then holds that index if it is below `num`, or else has found the work exhausted. `done_index` and the buffer are untouched |
| Rayoff.Job.Apply | src/rayoff.rs:39 | Applying changes only the claimed element, to `func` of its old value. That index had never been applied before and now has been applied exactly once |
| Rayoff.Job.Exhaust | src/rayoff.rs:35-37 | A participant that claimed at or beyond `num` adds exactly one to `done_index` and leaves the loop |
| Rayoff.Job.Step | src/rayoff.rs:33-40 | Any one atomic step of any participant still in its loop keeps the invariant. It changes only that participant's phase: a claim of the current `work_index` leaves it holding that index if it is below `num` and about to report exhaustion otherwise, an apply sends it back to claiming, and a report of exhaustion takes it out of the loop. `work_index` goes up by one exactly on a claim and never decreases. `done_index` goes up by one exactly when that participant leaves. The buffer changes only on an apply, and then only at the held index, to `func` of its old value |
| Rayoff.Job.Execute | src/rayoff.rs:32-41 | `execute` terminates under any interleaving. Its participant ends outside the loop, having itself added one to `done_index`, `work_index` has not decreased and has passed `num`. It reports how many atomic steps it took, at least one |
| Rayoff.Job.DoneBounded | src/rayoff.rs:35-37 | `done_index` never exceeds the number of participants |
| Rayoff.Job.AllExhaustedComplete | src/rayoff.rs:33-50 | Once `done_index` reaches the participant count, every participant has left the loop, every index below `num` has been applied exactly once, and the buffer is the original mapped by `func` |
| Rayoff.Job.Poll | src/rayoff.rs:44-47 | A poll reports readiness exactly when `done_index >= n`. With `n` the participant count, readiness means every participant is done and the buffer is fully mapped |
| Rayoff.Job.Wait | src/rayoff.rs:42-50 | `wait(n)` returns only when `done_index >= n`. It always returns when `n` is at most the participant count. With `n` equal to it, every participant is done and the buffer is fully mapped |
| Rayoff.WorkerCount | src/rayoff.rs:55 | Workers plus the dispatching thread equal the CPU count, or 16 when the query fails. The count is undefined (underflow) exactly when the query reports zero CPUs |
| Rayoff.Pool.Default | src/rayoff.rs:53-72 | The pool has one sender and one thread per worker, `WorkerCount(cpu)` of each |
| Rayoff.Pool.DispatchMut | src/rayoff.rs:76-102 | After dispatch, `elems[i] == func(old elems[i])` for every `i`, whatever the worker count and interleaving. The schedule runs on from the calling thread's `execute` into its `wait`, so after the calling thread leaves its loop any participant still in its loop may take the next step |
| Rayoff.Pool.Map | src/rayoff.rs:103-115 | The output has `inputs.len()` elements and `outs[i] == func(inputs[i])` in input order |
| Rayoff.TestPool | src/rayoff.rs:122-130 | Dispatching `+1` over 100 zeros gives 100 ones, for every CPU count and schedule |
| Rayoff.TestMap | src/rayoff.rs:132-140 | Mapping 100 zeros with `+1` gives 100 ones, for every CPU count and schedule |
| LegacyJob.Job.constructor | src/job.rs:28-45 | A new job has `num == elems.len()`, `work_index == 0` and `done_index == 0`, with every participant about to claim |
| LegacyJob.Job.Claim | src/job.rs:65-68 | A claim returns the current `work_index` and raises it by one. At or beyond `num` the participant leaves the loop without touching `done_index` |
| LegacyJob.Job.Apply | src/job.rs:69 | Applying changes only `elems[index]`, to `func` of its old value, on an index never applied before |
| LegacyJob.Job.Report | src/job.rs:70 | After `func` returns, `done_index` goes up by exactly one |
| LegacyJob.Job.Step | src/job.rs:64-71 | Any one atomic step keeps the invariant, including `done_index + unreported == applications` and `done_index <= min(work_index, num)`. It changes only the stepping participant's phase: a claim of the current `work_index` leaves it holding that index if it is below `num` and out of the loop otherwise, an apply moves it to reporting, and a report sends it back to claiming. `work_index` goes up by one exactly on a claim, and `done_index` by one exactly on a report. The buffer changes only on an apply, and then only at the held index, to `func` of its old value |
| LegacyJob.Job.Execute | src/job.rs:63-72 | `execute` terminates under any interleaving. It leaves its participant outside the loop with `work_index > num`, and `work_index` has not decreased |
| LegacyJob.Job.SomeoneRunning | src/job.rs:73-81 | While `done_index < num`, some participant is still inside its loop, so the spinning `wait` can make progress |
| LegacyJob.Job.Poll | src/job.rs:75-78 | A poll reports readiness exactly when `done_index >= num`, and `done_index <= min(work_index, num)` always holds. Readiness means every element has been processed exactly once, no `func` call is in flight, and the buffer is fully mapped |
| LegacyJob.Job.Wait | src/job.rs:73-81 | `wait` returns with all `num` elements processed. With `num == 0` it returns at once, with no step taken |
| LegacyJob.EarlyWaitReturn | src/job.rs:63-81 | With two participants and one element, `wait` can report readiness while the second participant has not yet made its final claim on `work_index` |

## Left out

- Threads, `spawn`, `JoinHandle`, mpsc channels, `Arc` and `yield_now` are not modelled. Participants are entries of `phase`. A yield is one step of another participant chosen by the scheduler. Sender and thread handles are plain numbers.
- `Ordering::Relaxed` is not modelled. Each `fetch_add` and `load` is one sequentially consistent atomic step.
- Raw pointers, `transmute`, `from_raw_parts_mut`, `unpack_closure` and the trampoline are not modelled. `func` is a Dafny function `T -> T` over the element type. This stands for the call as intended and hides two defects: in src/job.rs:32-36 `ctx` points at `closure`, a local of `new` that dies when `new` returns, so every call at src/job.rs:69 goes through a dangling pointer; and the `Box::into_raw` of src/rayoff.rs:80 is never undone, so each dispatch leaks one boxed closure.
- The `sys_info::cpu_num()` query is not modelled. Its result is a parameter (`None` when the query fails).
- Rayoff.Pool.Default: requires the CPU query not to report zero. In the source, `0 - 1` panics in a debug build, and in a release build the count wraps to 2^32 - 1, so the loop keeps spawning threads until the OS refuses one and `spawn` panics.
- Panics inside `func` are not modelled. The source has no recovery for them, and the resulting deadlock is not modelled either.
- The `usize` width of `work_index` and `done_index` is not modelled. The invariant bounds `work_index` by `num` plus the participant count, so no wrap-around happens while `num + participants <= usize::MAX`. That holds for every slice of elements of non-zero size.
- Slices of zero-sized elements are not covered. Their length can reach `usize::MAX`, and then the claim that returns `usize::MAX` wraps `work_index` to 0, so a later claim applies index 0 again.
- Rayoff.Job.Wait: requires `n` to be at most the participant count. With a larger `n` the source spins forever, and its only caller passes exactly the participant count.
- LegacyJob.Job.Wait: requires at least one participant when `num > 0`. With no participant running `execute`, the source spins forever.
- Rayoff.Pool.Map: each `&mut B` output reference is modelled as the output field of the dispatched pair. The output vector is read back from these fields, so aliasing between the pairs and `outs` is not modelled.
- Pool teardown is not modelled. Each channel's only `Sender` lives in `senders`, so dropping the pool ends every worker's `recvr.iter()` loop and the worker thread exits. The `JoinHandle`s are dropped without a join, so the threads are detached rather than joined.
- benches/rayoff.rs is not part of this model. It is a benchmark harness, and it calls a `Pool::new` that the source does not define.

## Findings

| source | as written | input that shows it | evidently intended | confidence | as-written member | corrected member |
|---|---|---|---|---|---|---|
| src/job.rs:63-81 | `wait` returns once `done_index`, the count of processed elements, reaches `num`. Participants that have not yet made their last `work_index.fetch_add` still hold the job | two participants, one element: participant 0 claims, applies and reports index 0, and participant 1 has not yet claimed. `wait` returns, and participant 1's later claim touches a job the caller may have dropped | `wait` returns only after every participant has made its last access to the job. src/rayoff.rs does this by counting exhausted participants | medium; not executed | LegacyJob.EarlyWaitReturn | Rayoff.Job.Poll |
