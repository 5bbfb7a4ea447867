/** The bank of the Banker's-algorithm simulation: processes, the available pool,
    the vector updates the arbiter performs, and what they conserve. */
module Banker {
  import opened Vectors

  /** Consecutive denials after which an agent stops probing and falls back to
      requesting its whole remaining need. */
  const MAX_DENIES: nat := 3

  /** One process: its declared maximum, what it holds, and what it still needs.
      The index of a process in the bank is its identity. */
  datatype Process = Process(max: seq<nat>, allocation: seq<nat>, need: seq<nat>)

  /** Every vector of `p` has one entry per resource type. */
  predicate Shaped(p: Process, r: nat) {
    |p.max| == r && |p.allocation| == r && |p.need| == r
  }

  predicate Aligned(processes: seq<Process>, r: nat) {
    forall i :: 0 <= i < |processes| ==> Shaped(processes[i], r)
  }

  /** The shape the input loader produces: every process vector as long as `available`. */
  predicate WellFormed(available: seq<nat>, processes: seq<Process>) {
    Aligned(processes, |available|)
  }

  /** One process row of the input: `max`, `allocation` and `need`, `r` numbers each;
      numbers past `3 * r` are ignored. */
  function FromRow(nums: seq<nat>, r: nat): (p: Process)
    requires |nums| >= 3 * r
    ensures Shaped(p, r)
  {
    Process(nums[0..r], nums[r..2 * r], nums[2 * r..3 * r])
  }

  /** Writing a process as a row and reading it back gives the same process. */
  lemma RowRoundTrip(p: Process, r: nat, extra: seq<nat>)
    requires Shaped(p, r)
    ensures FromRow(p.max + p.allocation + p.need + extra, r) == p
  {
    var row := p.max + p.allocation + p.need + extra;
    assert row[0..r] == p.max;
    assert row[r..2 * r] == p.allocation;
    assert row[2 * r..3 * r] == p.need;
  }

  /** Units of resource `j` held by all processes together. */
  function Held(processes: seq<Process>, r: nat, j: nat): nat
    requires Aligned(processes, r) && j < r
    decreases |processes|
  {
    if processes == [] then 0 else processes[0].allocation[j] + Held(processes[1..], r, j)
  }

  /** Per resource type, what is free plus what is held: the fixed total of the system. */
  function Totals(available: seq<nat>, processes: seq<Process>): (t: seq<nat>)
    requires WellFormed(available, processes)
    ensures |t| == |available|
  {
    seq(|available|, j requires 0 <= j < |available| => available[j] + Held(processes, |available|, j))
  }

  /** What a process may still come to hold: its allocation plus its need. */
  function Claim(p: Process): seq<nat>
    requires |p.allocation| == |p.need|
  {
    Add(p.allocation, p.need)
  }

  /** The processes after `req` moves from process `id`'s need into its allocation. */
  function WithGrant(processes: seq<Process>, id: nat, req: seq<nat>): seq<Process>
    requires id < |processes| && |req| == |processes[id].allocation| == |processes[id].need|
    requires AllLe(req, processes[id].need)
  {
    var p := processes[id];
    processes[id := p.(allocation := Add(p.allocation, req), need := Sub(p.need, req))]
  }

  /** The processes after the fallback grant: `req` is added to the allocation and
      the need is set to zero outright. */
  function WithFullGrant(processes: seq<Process>, id: nat, req: seq<nat>): seq<Process>
    requires id < |processes| && |req| == |processes[id].allocation|
  {
    var p := processes[id];
    processes[id := p.(allocation := Add(p.allocation, req), need := Zeros(|p.need|))]
  }

  /** The processes after process `id` gives back everything it holds. */
  function WithRelease(processes: seq<Process>, id: nat): seq<Process>
    requires id < |processes|
  {
    processes[id := processes[id].(allocation := Zeros(|processes[id].allocation|))]
  }

  lemma ReplaceAligned(processes: seq<Process>, r: nat, id: nat, q: Process)
    requires Aligned(processes, r) && id < |processes| && Shaped(q, r)
    ensures Aligned(processes[id := q], r)
  {
  }

  /** How `Held` changes when a single process is replaced. */
  lemma {:induction false} HeldReplace(processes: seq<Process>, r: nat, j: nat, id: nat, q: Process)
    requires Aligned(processes, r) && j < r && id < |processes| && Shaped(q, r)
    ensures Aligned(processes[id := q], r)
    ensures Held(processes[id := q], r, j) + processes[id].allocation[j] == Held(processes, r, j) + q.allocation[j]
    decreases |processes|
  {
    ReplaceAligned(processes, r, id, q);
    var ps' := processes[id := q];
    if id > 0 {
      assert ps'[1..] == processes[1..][id - 1 := q];
      HeldReplace(processes[1..], r, j, id - 1, q);
    } else {
      assert ps'[1..] == processes[1..];
    }
  }

  /** An optimistic grant moves units from `available` to process `id`: the totals
      and that process's claim are unchanged, and the bank keeps its shape. */
  lemma GrantConserves(available: seq<nat>, processes: seq<Process>, id: nat, req: seq<nat>)
    requires WellFormed(available, processes) && id < |processes| && |req| == |available|
    requires AllLe(req, available) && AllLe(req, processes[id].need)
    ensures WellFormed(Sub(available, req), WithGrant(processes, id, req))
    ensures Totals(Sub(available, req), WithGrant(processes, id, req)) == Totals(available, processes)
    ensures Claim(WithGrant(processes, id, req)[id]) == Claim(processes[id])
  {
    var r := |available|;
    var p := processes[id];
    var q := p.(allocation := Add(p.allocation, req), need := Sub(p.need, req));
    forall j | 0 <= j < r
      ensures Held(processes[id := q], r, j) + p.allocation[j] == Held(processes, r, j) + q.allocation[j]
    {
      HeldReplace(processes, r, j, id, q);
    }
    ReplaceAligned(processes, r, id, q);
  }

  /** The fallback grant of a process's whole need is the optimistic grant of that
      need, so it conserves the totals and the claim as well. */
  lemma FullGrantConserves(available: seq<nat>, processes: seq<Process>, id: nat)
    requires WellFormed(available, processes) && id < |processes|
    requires AllLe(processes[id].need, available)
    ensures WithFullGrant(processes, id, processes[id].need) == WithGrant(processes, id, processes[id].need)
    ensures Totals(Sub(available, processes[id].need), WithFullGrant(processes, id, processes[id].need))
         == Totals(available, processes)
    ensures IsZero(WithFullGrant(processes, id, processes[id].need)[id].need)
    ensures Add(Sub(available, processes[id].need), WithFullGrant(processes, id, processes[id].need)[id].allocation)
         == Add(available, processes[id].allocation)
  {
    var need := processes[id].need;
    assert Sub(need, need) == Zeros(|need|);
    GrantConserves(available, processes, id, need);
  }

  /** Releasing moves everything process `id` holds back into `available`: the totals
      are unchanged and its need is untouched. */
  lemma ReleaseConserves(available: seq<nat>, processes: seq<Process>, id: nat)
    requires WellFormed(available, processes) && id < |processes|
    ensures WellFormed(Add(available, processes[id].allocation), WithRelease(processes, id))
    ensures Totals(Add(available, processes[id].allocation), WithRelease(processes, id)) == Totals(available, processes)
    ensures WithRelease(processes, id)[id].need == processes[id].need
    ensures IsZero(WithRelease(processes, id)[id].allocation)
  {
    var r := |available|;
    var p := processes[id];
    var q := p.(allocation := Zeros(r));
    forall j | 0 <= j < r
      ensures Held(processes[id := q], r, j) + p.allocation[j] == Held(processes, r, j) + q.allocation[j]
    {
      HeldReplace(processes, r, j, id, q);
    }
    ReplaceAligned(processes, r, id, q);
  }
}
