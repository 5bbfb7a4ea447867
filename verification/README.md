# Banker's-algorithm arbiter and dining-philosophers monitor, in Dafny

This project models two programs from a Rust repository of concurrency exercises.

**The Banker's-algorithm simulation (`main.rs`).** Worker threads request resource
units from a shared bank. The bank holds an `available` vector and, per process,
`allocation` and `need` vectors. Before any worker starts, a greedy scan
(`compute_safe_seq`) computes a safe completion order. A worker probes with random
partial requests. Each request is counted, checked against `available`, allocated
tentatively, and then either committed or rolled back, depending on `is_safe_state`.
After `MAX_DENIES` consecutive denials, the worker waits until the safe sequence's
pointer reaches it. It is then granted its whole remaining need unconditionally,
releases everything, and advances the pointer. A worker whose need reaches zero while
probing releases its allocation and stops.

The model keeps the program's form:

- `Vectors`, `Banker`: the data model (`Process`, well-formedness, the per-type totals)
  and the vector updates on values, with their conservation lemmas.
- `Safety`: the two scans.
  - `ComputeSafeSeq` and `IsSafeState` are loops, each proved equal to a specification
    function (`SafeSequence`, `IsSafe`).
  - Both are measured against an independent definition of a safe completion order,
    `IsSafeSequence` / `Safe`.
  - The greedy scan is sound and complete, and its tie-break is stated step by step.
  - `is_safe_state` is modelled exactly as written: there is no `break` after a pick,
    so one pass can finish several processes, and any later pass that finds nothing
    answers false. It is proved sound (true ⇒ the bank is safe, and the greedy scan
    would succeed). It is proved not complete by a concrete counterexample.
- `Arbiter`: the shared objects as classes (`Bank`, `Counters`, `SafeSeq`). Each block
  a worker runs under the bank's lock is one method; the fallback path takes that lock
  twice (once for the grant, once for the release), so it is two methods,
  `FallbackGrant` and `FallbackFinish`. Each such method states the whole new state,
  that totals are conserved, and the counter bookkeeping. It also states that a safe
  bank stays safe: an optimistic grant is safe because it was checked, and the
  fallback grant and every release keep safety by the lemmas in `Safety`.

**The dining-philosophers monitor (`weirdo.rs`).** The states of five seats are held
under one lock. The model covers the ring arithmetic `left`/`right`, the guard `test`,
and the state updates of `pickup_forks` and `putdown_forks`. It proves that these
updates keep neighbouring seats from eating at the same time.

Where the design intent and the code differ, the model follows the code:

- `is_safe_state` is not the textbook safety algorithm (see above). It rejects some
  safe states, and those requests are then denied.
- The fallback grant is not re-validated, and the code does NOT guarantee that the
  whole need fits in `available` when a process's turn comes: the design's promise
  that the fallback request is always feasible is false (see "## Findings"). Where it
  does not fit, the `usize` subtraction at main.rs:189 underflows. The model states
  the fit as a precondition of `FallbackGrant`, the behaviour the design intends.
- Between the fallback grant and the release, the bank's lock is free: other agents
  can see process `id` holding its whole claim and needing nothing. That state is
  safe too (`Safety.FullGrantKeepsSafe`). The release itself is the same release as on
  the probing path (`Bank.Release`).

## Model

| member | source | states |
|---|---|---|
| Vectors.AddAssign | main.rs:78-80 | adding an allocation into `work` one component at a time yields the component-wise sum, and `work` only grows |
| Banker.FromRow | main.rs:54-56 | a row of at least 3r numbers splits into max, allocation and need vectors of exactly r entries |
| Banker.RowRoundTrip | main.rs:54-56 | writing a process as max ++ allocation ++ need (plus trailing numbers) and splitting it again gives the same process |
| Banker.WithGrant | main.rs:222-226 | the processes after `req` moves from process `id`'s need into its allocation; every other process as before (its properties are `GrantConserves`) |
| Banker.WithFullGrant | main.rs:188-192 | the processes after the fallback grant: `req` added to the allocation of `id`, its need set to zero outright |
| Banker.WithRelease | main.rs:147-150 | the processes after `id` gives back everything: its allocation becomes zero, nothing else changes |
| Banker.GrantConserves | main.rs:222-226 | moving `req` from `available` into process `id` keeps the bank well formed, keeps `available[j] + Σ allocation[j]` for every j, and keeps that process's allocation + need |
| Banker.FullGrantConserves | main.rs:188-192 | the fallback grant of the whole need is the ordinary grant of that need: it conserves the totals, zeroes the need, and followed by the release it returns `available + allocation` |
| Banker.ReleaseConserves | main.rs:147-150 | giving back the whole allocation conserves the totals, zeroes the allocation and leaves the need untouched |
| Safety.FirstEligible | main.rs:99-100 | the pick is an unfinished process whose need fits in `work`, and every lower index is finished or does not fit; none is returned only when no process fits |
| Safety.Greedy | main.rs:97-111 | the passes of `compute_safe_seq` from a given `work`/`finish`: each pass picks the lowest eligible index, and a pass with no pick is the panic; a result has one entry per pass, each an index of an unfinished process |
| Safety.SafeSequence | main.rs:90-113 | what `compute_safe_seq` returns on a bank (`None` for the panic): a result has one in-range index per process |
| Safety.GreedySound | main.rs:97-111 | what the greedy passes return is a safe order of distinct, previously unfinished processes, one per pass, covering every unfinished process when there is one pass per unfinished process |
| Safety.GreedyComplete | main.rs:97-111 | if any safe order of the unfinished processes exists, the greedy passes do not get stuck |
| Safety.GreedyPicksLowest | main.rs:97-109 | entry k of the greedy result is not chosen before, fits in `available` plus the allocations of the entries before it, and is the lowest-index unfinished process that does |
| Safety.SafeSequenceCorrect | main.rs:90-113 | the startup scan returns a safe sequence (a permutation of 0..p-1) exactly when the bank is safe, and otherwise panics |
| Safety.ComputeSafeSeq | main.rs:90-113 | the loop returns exactly the greedy sequence; it is a permutation of 0..p-1 and a safe order; `None` (the panic) exactly when no safe order exists |
| Safety.ScanPass | main.rs:76-84 | one pass of `is_safe_state`: every eligible process is marked as the pass reaches it, later indices already see its allocation; the pass only adds to `work`, never unmarks, never clears `found` |
| Safety.SafeCheck | main.rs:74-86 | the pass loop of `is_safe_state`: `passes` passes, and a pass that marks nothing makes the answer false |
| Safety.IsSafe | main.rs:68-88 | the answer of `is_safe_state` on a bank: `p` passes from `available` with nothing finished |
| Safety.ScanPassMarks | main.rs:76-84 | a pass never unmarks, sets `found` exactly when it marks something, and when it marks exactly one process it has done exactly one greedy step |
| Safety.SafeCheckCounts | main.rs:74-86 | p passes can all succeed only if there are at least p unfinished processes, because each pass marks at least one |
| Safety.SafeCheckIsGreedy | main.rs:74-87 | when the check succeeds with one pass per unfinished process, every pass marked exactly one process, the greedy one, so the greedy scan succeeds |
| Safety.IsSafeSound | main.rs:68-88 | `is_safe_state` returning true implies the bank is safe and `compute_safe_seq` would succeed on it |
| Safety.IsSafeIncomplete | main.rs:74-85 | available [3], P0 holding 2 needing 3, P1 holding 1 needing 3: the first pass finishes both processes and the second finds none, so the answer is false, although [0, 1] is the greedy result and a safe sequence |
| Safety.IsSafeState | main.rs:68-88 | the loop computes exactly the multi-mark check, and true implies the bank is safe |
| Safety.ReleaseKeepsSafe | main.rs:145-152 | releasing a process's allocation keeps a safe bank safe |
| Safety.FullGrantKeepsSafe | main.rs:184-195 | the fallback grant of the whole need, when it fits, keeps a safe bank safe, so the state other agents see before the release is safe |
| Arbiter.Decide | main.rs:220-245 | the verdict on an optimistic request: not enough when some component exceeds `available`, otherwise granted exactly when `is_safe_state` accepts the tentative state |
| Arbiter.GrantKeepsSafe | main.rs:220-231 | a request that is granted fitted in `available`, and the state after it is safe |
| Arbiter.Bank.Allocate | main.rs:222-226 | the tentative allocation: `available -= req`, `allocation[id] += req`, `need[id] -= req`, with every other process unchanged |
| Arbiter.Bank.Rollback | main.rs:234-238 | the rollback: `available += req`, `allocation[id] -= req`, `need[id] += req`, with every other process unchanged |
| Arbiter.Bank.Release | main.rs:147-150 | `available` grows by the process's allocation, its allocation becomes zero, and nothing else changes |
| Arbiter.Bank.GrantFull | main.rs:188-192 | `available -= req`, `allocation[id] += req`, `need[id]` becomes zero, and nothing else changes |
| Arbiter.Bank.constructor | main.rs:123 | the shared bank starts as the loaded instance |
| Arbiter.Counters.constructor | main.rs:125-127 | all three counters start at zero |
| Arbiter.SafeSeq.constructor | main.rs:124 | the safe sequence is stored with its pointer at 0 |
| Arbiter.SafeSeq.TurnOf | main.rs:179 | the condition the fallback wait loop waits for: the pointer is in range and names this process |
| Arbiter.SafeSeq.Advance | main.rs:208 | the pointer advances by exactly one and the order is unchanged |
| Arbiter.Start | main.rs:117-127 | startup is rejected exactly when the bank is unsafe; otherwise the stored order is exactly the greedy result of `compute_safe_seq`, which is a safe sequence, the pointer is 0 and the counters are 0 |
| Arbiter.FinishIfDone | main.rs:143-153 | the agent stops exactly when its need is all zero; then it releases everything, otherwise nothing changes; totals are conserved and safety kept |
| Arbiter.BuildRequest | main.rs:155-172 | every request satisfies `req[j] <= need[j]`, is 0 where the need is 0, equals the need once `denies >= MAX_DENIES`, and is issued (`valid`) exactly when some component is positive |
| Arbiter.OptimisticRequest | main.rs:214-248 | `total` rises by 1. On a grant: exactly the tentative allocation, `granted` + 1, streak reset to 0, and the new state is safe. On either denial: bank exactly as before, `denied` + 1, streak + 1. Totals, every claim and `total == granted + denied` are preserved |
| Arbiter.FallbackGrant | main.rs:184-195 | allowed only on this process's turn and when its need fits. `available` shrinks by the need, the allocation grows by it, the need becomes zero, `total` and `granted` rise by 1. Totals, every claim, counter balance and safety are preserved |
| Arbiter.FallbackFinish | main.rs:197-208 | still on this process's turn: `available` grows by its allocation, which becomes zero, and the pointer advances by 1 with the order unchanged. Totals and safety are preserved |
| Arbiter.FallbackMayNotFit | main.rs:175-195 | available [2], P0 and P1 holding 0 and needing 2: the order is [0, 1], P1 is granted 1, then P0's requests of 1 (unsafe) and 2 (not enough) are both denied, and on P0's turn its need 2 exceeds the 1 unit available |
| Philosophers.Left | weirdo.rs:20-22 | the left neighbour of a seat is a seat of the table other than itself |
| Philosophers.Right | weirdo.rs:24-26 | the right neighbour of a seat is a seat of the table other than itself |
| Philosophers.RingInverse | weirdo.rs:20-26 | `left(right(id)) == id`, `right(left(id)) == id`, and the two neighbours differ |
| Philosophers.Tested | weirdo.rs:28-36 | the states after `test(id)`: a hungry seat whose neighbours are not eating starts eating (its effect is `TestedEffect`) |
| Philosophers.TestedEffect | weirdo.rs:28-36 | `test(id)` changes at most seat `id`, from hungry to eating, exactly when neither neighbour eats |
| Philosophers.TestedKeepsExclusion | weirdo.rs:28-36 | `test` preserves that no two neighbours eat at once |
| Philosophers.TestedIdempotent | weirdo.rs:28-36 | testing a seat twice gives the same states as testing it once |
| Philosophers.PickedUp | weirdo.rs:41-42 | the states after the locked part of pickup: the seat becomes hungry, then is tested |
| Philosophers.PickupEffect | weirdo.rs:41-42 | after pickup the seat eats exactly when neither neighbour was eating, is hungry otherwise, and no other seat changes |
| Philosophers.PickupKeepsExclusion | weirdo.rs:41-42 | pickup preserves that no two neighbours eat at once |
| Philosophers.PutDown | weirdo.rs:56-58 | the states after putdown: the seat thinks, then the left and the right neighbour are tested |
| Philosophers.PutdownEffect | weirdo.rs:56-58 | after putdown the seat thinks; only its neighbours can change besides it, and only from hungry to eating |
| Philosophers.PutdownKeepsExclusion | weirdo.rs:56-58 | putdown preserves that no two neighbours eat at once |
| Philosophers.Table.constructor | weirdo.rs:84 | every seat starts thinking, so no neighbours eat together |
| Philosophers.Table.Test | weirdo.rs:28-36 | the in-place `test` performs exactly `Tested` and keeps the exclusion invariant |
| Philosophers.Table.PickupForks | weirdo.rs:40-42 | the locked part of pickup: the seat eats exactly when neither neighbour was eating, only that seat changes, and the invariant holds |
| Philosophers.Table.PutdownForks | weirdo.rs:55-58 | putdown leaves the seat thinking, changes only it and its neighbours, and keeps the invariant |

## Left out

- Threads, `Arc`/`Mutex`/`Condvar`, `spawn`, `join` and the sleeps (main.rs:123-257, weirdo.rs:81-117). Each block run under the bank's lock is one atomic method. The fallback wait loop (main.rs:179-181) becomes the precondition `SafeSeq.TurnOf(id)` of `FallbackGrant` and `FallbackFinish`, and the matching `notify_all` is not modelled.
- The agent loop itself and termination: `idx` advances only on the fallback path, so a waiting agent may block for ever, and this is not a property of one atomic step.
- Randomness: `gen_range(0..=need)` (main.rs:164) is an arbitrary choice of `0 <= v <= need` in `BuildRequest`.
- Input loading: file reading, `parse().unwrap()` and the default file name (main.rs:30-66, 116). Only the row split is modelled, as `FromRow` and the precondition that every vector is as long as `available`.
- Output: every `println!` in both files, and the final summary of the counters.
- Unsigned arithmetic: additions are unbounded. Subtractions that could underflow a `usize` are preconditions: `Bank.Allocate`, `Bank.Rollback` and `Bank.GrantFull` require the request to fit, and `FallbackGrant` requires the whole need to fit in `available`; the code does not ensure this (see "## Findings").
- The unused `_id` field: a process is identified by its index. `_max` is kept as `max` but no operation reads it.
- weirdo.rs: the condition-variable wait of `pickup_forks` with its raw pointer (weirdo.rs:44-50), `notify_one` (weirdo.rs:34), `think`/`eat`, `round_total` (weirdo.rs:72-79) and `main`.
- philosophers/src/main.rs (async tasks, a semaphore, fork mutexes) and challenge01.rs (calls to external hex and Base64 crates) are not part of this model.

## Findings

| source | as written | input that shows it | evidently intended | confidence | as-written member | corrected member |
|---|---|---|---|---|---|---|
| main.rs:178-192 | once `denies >= MAX_DENIES`, the agent waits only for its turn in the safe sequence and then subtracts its whole need from `available` without checking that it fits | available [2]; P0 and P1 hold [0] and need [2]; order [0, 1]; P1 is granted [1]; P0's requests [1] (unsafe) and [2] (not enough) are denied three times; on P0's turn `available[0] - need[0]` is 1 - 2, a `usize` underflow | the fallback grant is issued only when the whole need fits, so it conserves the totals and keeps the bank safe | not executed; the trace needs P1 to draw only zeros meanwhile | Arbiter.FallbackMayNotFit | Arbiter.FallbackGrant |
