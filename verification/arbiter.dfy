/** The shared state of the simulation and the critical sections of a worker agent:
    each method is one block the agent runs while holding the bank's lock. */
module Arbiter {
  import opened Vectors
  import opened Banker
  import opened Safety

  /** How an optimistic request ends. */
  datatype Verdict = Grant | NotEnough | Unsafe

  /** The verdict on request `req` of process `id`: denied when some component exceeds
      what is available, otherwise granted exactly when the tentative state passes
      the safety check. */
  function Decide(available: seq<nat>, processes: seq<Process>, id: nat, req: seq<nat>): Verdict
    requires WellFormed(available, processes) && id < |processes| && |req| == |available|
    requires AllLe(req, processes[id].need)
  {
    if !AllLe(req, available) then NotEnough
    else
      GrantConserves(available, processes, id, req);
      if IsSafe(Sub(available, req), WithGrant(processes, id, req)) then Grant else Unsafe
  }

  /** A granted request leaves the bank in a safe state, whatever state it was in. */
  lemma GrantKeepsSafe(available: seq<nat>, processes: seq<Process>, id: nat, req: seq<nat>)
    requires WellFormed(available, processes) && id < |processes| && |req| == |available|
    requires AllLe(req, processes[id].need)
    requires Decide(available, processes, id, req) == Grant
    ensures AllLe(req, available)
    ensures Safe(Sub(available, req), WithGrant(processes, id, req))
  {
    GrantConserves(available, processes, id, req);
    IsSafeSound(Sub(available, req), WithGrant(processes, id, req));
  }

  // The instance of `FallbackMayNotFit`: two processes that hold nothing and need 2
  // each, with 2 units available; then the same bank after P1 was granted 1.

  lemma ExampleStartOrder()
    ensures var processes := [Process([2], [0], [2]), Process([2], [0], [2])];
      && WellFormed([2], processes) && SafeSequence([2], processes) == Some([0, 1])
  {
    var processes := [Process([2], [0], [2]), Process([2], [0], [2])];
    var none := [false, false];
    assert seq(2, _ => false) == none;
    assert Add([2], [0]) == [2];
    assert FirstEligible(processes, [2], none, 0) == Some(0);
    assert none[0 := true] == [true, false];
    assert FirstEligible(processes, [2], [true, false], 0) == Some(1);
    assert [true, false][1 := true] == [true, true];
    assert Greedy(processes, [2], [true, true], 0) == Some([]);
    assert Greedy(processes, [2], [true, false], 1)
        == Prepend([1], Greedy(processes, Add([2], processes[1].allocation), [true, false][1 := true], 0));
    assert [1] + [] == [1];
    assert Greedy(processes, [2], [true, false], 1) == Some([1]);
    assert Greedy(processes, [2], none, 2)
        == Prepend([0], Greedy(processes, Add([2], processes[0].allocation), none[0 := true], 1));
    assert [0] + [1] == [0, 1];
  }

  lemma ExampleGrant()
    ensures var processes := [Process([2], [0], [2]), Process([2], [0], [2])];
      && WellFormed([2], processes)
      && Sub([2], [1]) == [1] && WithGrant(processes, 1, [1]) == [Process([2], [0], [2]), Process([2], [1], [1])]
      && Decide([2], processes, 1, [1]) == Grant
  {
    var processes := [Process([2], [0], [2]), Process([2], [0], [2])];
    var processes' := [Process([2], [0], [2]), Process([2], [1], [1])];
    var none := [false, false];
    assert seq(2, _ => false) == none;
    assert Add([0], [1]) == [1] && Sub([2], [1]) == [1];
    assert WithGrant(processes, 1, [1]) == processes';
    assert Add([1], [1]) == [2];
    assert none[1 := true] == [false, true];
    assert [false, true][0 := true] == [true, true];
    assert ScanPass(processes', [2], [true, true], true, 2) == Scan([2], [true, true], true);
    assert ScanPass(processes', [2], [false, true], true, 2) == Scan([2], [false, true], true);
    assert processes'[0].need == [2] && processes'[1].need == [1];
    assert !AllLe([2], [1]) by { assert [2][0] > [1][0]; }
    assert !Eligible(processes', [1], none, 0) && Eligible(processes', [1], none, 1);
    assert ScanPass(processes', [1], none, false, 1) == Scan([2], [false, true], true);
    assert ScanPass(processes', [1], none, false, 0) == Scan([2], [false, true], true);
    assert ScanPass(processes', [2], [false, true], false, 0) == Scan([2], [true, true], true);
    assert SafeCheck(processes', [2], [true, true], 0);
    assert IsSafe([1], processes');
  }

  lemma ExampleDenials()
    ensures var processes := [Process([2], [0], [2]), Process([2], [1], [1])];
      && WellFormed([1], processes)
      && Decide([1], processes, 0, [1]) == Unsafe
      && Decide([1], processes, 0, [2]) == NotEnough
  {
    var processes := [Process([2], [0], [2]), Process([2], [1], [1])];
    var stuck := [Process([2], [1], [1]), Process([2], [1], [1])];
    var none := [false, false];
    assert seq(2, _ => false) == none;
    assert Add([0], [1]) == [1] && Sub([2], [1]) == [1] && Sub([1], [1]) == [0];
    assert WithGrant(processes, 0, [1]) == stuck;
    assert stuck[0].need == [1] && stuck[1].need == [1];
    assert !AllLe([1], [0]) by { assert [1][0] > [0][0]; }
    assert ScanPass(stuck, [0], none, false, 2) == Scan([0], none, false);
    assert ScanPass(stuck, [0], none, false, 1) == Scan([0], none, false);
    assert ScanPass(stuck, [0], none, false, 0) == Scan([0], none, false);
    assert !IsSafe([0], stuck);
  }

  /** The fallback grant is not always feasible. Take `available = [2]` and two
      processes that hold nothing and need 2 each; the startup order is [0, 1]. P1 is
      granted 1. From then on every request P0 can draw is denied: 1 is unsafe and 2
      does not fit. While P1 draws only zeros, P0 reaches its fallback on the first
      turn of the order with a need of 2 and only 1 unit available. */
  lemma FallbackMayNotFit()
    ensures var available: seq<nat> := [2];
      var processes := [Process([2], [0], [2]), Process([2], [0], [2])];
      var available': seq<nat> := [1];
      var processes' := [Process([2], [0], [2]), Process([2], [1], [1])];
      && WellFormed(available, processes) && WellFormed(available', processes')
      && SafeSequence(available, processes) == Some([0, 1])
      && Decide(available, processes, 1, [1]) == Grant
      && Sub(available, [1]) == available' && WithGrant(processes, 1, [1]) == processes'
      && Decide(available', processes', 0, [1]) == Unsafe
      && Decide(available', processes', 0, [2]) == NotEnough
      && !AllLe(processes'[0].need, available')
  {
    ExampleStartOrder();
    ExampleGrant();
    ExampleDenials();
  }

  /** The resource state: the available pool and every process. */
  class Bank {
    var available: seq<nat>
    var processes: seq<Process>

    ghost predicate Valid()
      reads this
    {
      WellFormed(available, processes)
    }

    constructor (available: seq<nat>, processes: seq<Process>)
      requires WellFormed(available, processes)
      ensures Valid() && this.available == available && this.processes == processes
    {
      this.available := available;
      this.processes := processes;
    }

    /** The tentative allocation of an optimistic request. */
    method Allocate(id: nat, req: seq<nat>)
      requires Valid() && id < |processes| && |req| == |available|
      requires AllLe(req, available) && AllLe(req, processes[id].need)
      modifies this
      ensures Valid()
      ensures available == Sub(old(available), req)
      ensures processes == WithGrant(old(processes), id, req)
    {
      var r := |available|;
      for j := 0 to r
        invariant |available| == r && |processes| == |old(processes)|
        invariant forall i :: 0 <= i < |processes| && i != id ==> processes[i] == old(processes[i])
        invariant processes[id].max == old(processes[id].max)
        invariant |processes[id].allocation| == r && |processes[id].need| == r
        invariant forall k :: 0 <= k < j ==>
          && available[k] == old(available[k]) - req[k]
          && processes[id].allocation[k] == old(processes[id].allocation[k]) + req[k]
          && processes[id].need[k] == old(processes[id].need[k]) - req[k]
        invariant forall k :: j <= k < r ==>
          && available[k] == old(available[k])
          && processes[id].allocation[k] == old(processes[id].allocation[k])
          && processes[id].need[k] == old(processes[id].need[k])
      {
        available := available[j := available[j] - req[j]];
        var p := processes[id];
        processes := processes[id := p.(allocation := p.allocation[j := p.allocation[j] + req[j]])];
        p := processes[id];
        processes := processes[id := p.(need := p.need[j := p.need[j] - req[j]])];
      }
      var p := old(processes[id]);
      assert processes[id] == p.(allocation := Add(p.allocation, req), need := Sub(p.need, req));
      assert processes == WithGrant(old(processes), id, req);
    }

    /** Undoing a tentative allocation the safety check rejected. */
    method Rollback(id: nat, req: seq<nat>)
      requires Valid() && id < |processes| && |req| == |available|
      requires AllLe(req, processes[id].allocation)
      modifies this
      ensures Valid()
      ensures available == Add(old(available), req)
      ensures processes == old(processes)[id := old(processes[id]).(
                allocation := Sub(old(processes[id].allocation), req),
                need := Add(old(processes[id].need), req))]
    {
      var r := |available|;
      for j := 0 to r
        invariant |available| == r && |processes| == |old(processes)|
        invariant forall i :: 0 <= i < |processes| && i != id ==> processes[i] == old(processes[i])
        invariant processes[id].max == old(processes[id].max)
        invariant |processes[id].allocation| == r && |processes[id].need| == r
        invariant forall k :: 0 <= k < j ==>
          && available[k] == old(available[k]) + req[k]
          && processes[id].allocation[k] == old(processes[id].allocation[k]) - req[k]
          && processes[id].need[k] == old(processes[id].need[k]) + req[k]
        invariant forall k :: j <= k < r ==>
          && available[k] == old(available[k])
          && processes[id].allocation[k] == old(processes[id].allocation[k])
          && processes[id].need[k] == old(processes[id].need[k])
      {
        available := available[j := available[j] + req[j]];
        var p := processes[id];
        processes := processes[id := p.(allocation := p.allocation[j := p.allocation[j] - req[j]])];
        p := processes[id];
        processes := processes[id := p.(need := p.need[j := p.need[j] + req[j]])];
      }
      var p := old(processes[id]);
      assert processes[id] == p.(allocation := Sub(p.allocation, req), need := Add(p.need, req));
    }

    /** Process `id` gives back everything it holds. */
    method Release(id: nat)
      requires Valid() && id < |processes|
      modifies this
      ensures Valid()
      ensures available == Add(old(available), old(processes[id].allocation))
      ensures processes == WithRelease(old(processes), id)
    {
      var r := |available|;
      for j := 0 to r
        invariant |available| == r && |processes| == |old(processes)|
        invariant forall i :: 0 <= i < |processes| && i != id ==> processes[i] == old(processes[i])
        invariant processes[id].max == old(processes[id].max) && processes[id].need == old(processes[id].need)
        invariant |processes[id].allocation| == r
        invariant forall k :: 0 <= k < j ==>
          available[k] == old(available[k]) + old(processes[id].allocation[k]) && processes[id].allocation[k] == 0
        invariant forall k :: j <= k < r ==>
          available[k] == old(available[k]) && processes[id].allocation[k] == old(processes[id].allocation[k])
      {
        available := available[j := available[j] + processes[id].allocation[j]];
        var p := processes[id];
        processes := processes[id := p.(allocation := p.allocation[j := 0])];
      }
      assert processes[id] == old(processes[id]).(allocation := Zeros(r));
      assert processes == WithRelease(old(processes), id);
    }

    /** The unconditional grant of the fallback path: `req` moves from the pool to
        process `id` and its need is set to zero. */
    method GrantFull(id: nat, req: seq<nat>)
      requires Valid() && id < |processes| && |req| == |available|
      requires AllLe(req, available)
      modifies this
      ensures Valid()
      ensures available == Sub(old(available), req)
      ensures processes == WithFullGrant(old(processes), id, req)
    {
      var r := |available|;
      for j := 0 to r
        invariant |available| == r && |processes| == |old(processes)|
        invariant forall i :: 0 <= i < |processes| && i != id ==> processes[i] == old(processes[i])
        invariant processes[id].max == old(processes[id].max)
        invariant |processes[id].allocation| == r && |processes[id].need| == r
        invariant forall k :: 0 <= k < j ==>
          && available[k] == old(available[k]) - req[k]
          && processes[id].allocation[k] == old(processes[id].allocation[k]) + req[k]
          && processes[id].need[k] == 0
        invariant forall k :: j <= k < r ==>
          && available[k] == old(available[k])
          && processes[id].allocation[k] == old(processes[id].allocation[k])
      {
        available := available[j := available[j] - req[j]];
        var p := processes[id];
        processes := processes[id := p.(allocation := p.allocation[j := p.allocation[j] + req[j]])];
        p := processes[id];
        processes := processes[id := p.(need := p.need[j := 0])];
      }
      var p := old(processes[id]);
      assert processes[id] == p.(allocation := Add(p.allocation, req), need := Zeros(r));
      assert processes == WithFullGrant(old(processes), id, req);
    }
  }

  /** The shared request counters. */
  class Counters {
    var total: nat
    var granted: nat
    var denied: nat

    /** Every request counted in `total` was either granted or denied. */
    ghost predicate Balanced()
      reads this
    {
      total == granted + denied
    }

    constructor ()
      ensures total == 0 && granted == 0 && denied == 0
    {
      total, granted, denied := 0, 0, 0;
    }
  }

  /** The safe sequence computed at startup and the position whose process may take
      the fallback path next. */
  class SafeSeq {
    var order: seq<nat>
    var idx: nat

    constructor (order: seq<nat>)
      ensures this.order == order && idx == 0
    {
      this.order, idx := order, 0;
    }

    /** The condition the fallback wait loop waits for. */
    predicate TurnOf(id: nat)
      reads this
    {
      idx < |order| && order[idx] == id
    }

    /** Passes the turn on to the next process of the sequence. */
    method Advance()
      modifies this
      ensures order == old(order) && idx == old(idx) + 1
    {
      idx := idx + 1;
    }
  }

  /** The objects the agents share, as the simulation sets them up. */
  datatype Shared = Shared(bank: Bank, safe: SafeSeq, counters: Counters)

  /** Startup: compute the safe sequence (none means the instance is rejected before
      any agent runs), then build the shared state around the loaded bank. */
  method Start(available: seq<nat>, processes: seq<Process>) returns (shared: Option<Shared>)
    requires WellFormed(available, processes)
    ensures shared.None? <==> !Safe(available, processes)
    ensures shared.Some? ==>
      var sh := shared.value;
      && fresh(sh.bank) && fresh(sh.safe) && fresh(sh.counters)
      && sh.bank.Valid() && sh.bank.available == available && sh.bank.processes == processes
      && Some(sh.safe.order) == SafeSequence(available, processes)
      && IsSafeSequence(available, processes, sh.safe.order) && sh.safe.idx == 0
      && sh.counters.total == 0 && sh.counters.granted == 0 && sh.counters.denied == 0
  {
    var order := ComputeSafeSeq(available, processes);
    if order.None? {
      return None;
    }
    var bank := new Bank(available, processes);
    var safe := new SafeSeq(order.value);
    var counters := new Counters();
    return Some(Shared(bank, safe, counters));
  }

  /** The completion check at the top of the agent loop: when process `id` needs
      nothing more it releases everything it holds and the agent stops. */
  method FinishIfDone(bank: Bank, id: nat) returns (done: bool)
    requires bank.Valid() && id < |bank.processes|
    modifies bank
    ensures bank.Valid()
    ensures done == IsZero(old(bank.processes[id].need))
    ensures done ==> (bank.available == Add(old(bank.available), old(bank.processes[id].allocation))
                      && bank.processes == WithRelease(old(bank.processes), id))
    ensures !done ==> bank.available == old(bank.available) && bank.processes == old(bank.processes)
    ensures Totals(bank.available, bank.processes) == old(Totals(bank.available, bank.processes))
    ensures old(Safe(bank.available, bank.processes)) ==> Safe(bank.available, bank.processes)
  {
    done := IsZero(bank.processes[id].need);
    if done {
      ReleaseConserves(bank.available, bank.processes, id);
      if Safe(bank.available, bank.processes) {
        ReleaseKeepsSafe(bank.available, bank.processes, id);
      }
      bank.Release(id);
    }
  }

  /** Builds the next request from process `id`'s need: a free choice between 0 and
      the need in every component while probing, the whole need once `denies` has
      reached `MAX_DENIES`. `valid` says whether anything is requested at all. */
  method BuildRequest(need: seq<nat>, denies: nat) returns (req: seq<nat>, valid: bool)
    ensures |req| == |need| && AllLe(req, need)
    ensures forall j :: 0 <= j < |need| && need[j] == 0 ==> req[j] == 0
    ensures denies >= MAX_DENIES ==> req == need
    ensures valid <==> !IsZero(req)
  {
    var fallback := denies >= MAX_DENIES;
    req := Zeros(|need|);
    valid := false;
    for j := 0 to |need|
      invariant |req| == |need|
      invariant forall k :: 0 <= k < j ==>
        req[k] <= need[k] && (need[k] == 0 ==> req[k] == 0) && (fallback ==> req[k] == need[k])
      invariant forall k :: j <= k < |need| ==> req[k] == 0
      invariant valid <==> exists k :: 0 <= k < j && req[k] > 0
    {
      var n := need[j];
      if n > 0 {
        var v: nat;
        if fallback {
          v := n;
        } else {
          v :| v <= n;
        }
        req := req[j := v];
        if v > 0 {
          valid := true;
        }
      }
    }
  }

  /** An optimistic request: count it, check it against `available`, allocate it
      tentatively, run the safety check, and commit or roll back. Returns the agent's
      new denial streak. */
  method OptimisticRequest(bank: Bank, counters: Counters, id: nat, req: seq<nat>, denies: nat)
    returns (denies': nat)
    requires bank.Valid() && id < |bank.processes| && |req| == |bank.available|
    requires AllLe(req, bank.processes[id].need)
    modifies bank, counters
    ensures bank.Valid()
    ensures var verdict := Decide(old(bank.available), old(bank.processes), id, req);
      && counters.total == old(counters.total) + 1
      && (verdict == Grant ==>
            && bank.available == Sub(old(bank.available), req)
            && bank.processes == WithGrant(old(bank.processes), id, req)
            && counters.granted == old(counters.granted) + 1 && counters.denied == old(counters.denied)
            && denies' == 0
            && Safe(bank.available, bank.processes))
      && (verdict != Grant ==>
            && bank.available == old(bank.available) && bank.processes == old(bank.processes)
            && counters.granted == old(counters.granted) && counters.denied == old(counters.denied) + 1
            && denies' == denies + 1)
    ensures Totals(bank.available, bank.processes) == old(Totals(bank.available, bank.processes))
    ensures forall i :: 0 <= i < |bank.processes| ==> Claim(bank.processes[i]) == old(Claim(bank.processes[i]))
    ensures old(counters.Balanced()) ==> counters.Balanced()
    ensures old(Safe(bank.available, bank.processes)) ==> Safe(bank.available, bank.processes)
  {
    ghost var available0, processes0 := bank.available, bank.processes;
    counters.total := counters.total + 1;
    if AllLe(req, bank.available) {
      GrantConserves(available0, processes0, id, req);
      bank.Allocate(id, req);
      var safe := IsSafeState(bank.available, bank.processes);
      if safe {
        GrantKeepsSafe(available0, processes0, id, req);
        counters.granted := counters.granted + 1;
        denies' := 0;
      } else {
        AddThenSub(processes0[id].allocation, req);
        bank.Rollback(id, req);
        SubThenAdd(available0, req);
        SubThenAdd(processes0[id].need, req);
        assert bank.processes[id] == processes0[id];
        assert bank.processes == processes0;
        counters.denied := counters.denied + 1;
        denies' := denies + 1;
      }
    } else {
      counters.denied := counters.denied + 1;
      denies' := denies + 1;
    }
  }

  /** The first block of the fallback path, run once the wait is over (it is this
      process's turn): count the request and grant the whole need unconditionally.
      The state it leaves is visible to every other agent before the release. */
  method FallbackGrant(bank: Bank, counters: Counters, safe: SafeSeq, id: nat, req: seq<nat>)
    requires bank.Valid() && id < |bank.processes|
    requires safe.TurnOf(id)
    requires req == bank.processes[id].need
    requires AllLe(req, bank.available)
    modifies bank, counters
    ensures bank.Valid()
    ensures bank.available == Sub(old(bank.available), req)
    ensures bank.processes == WithFullGrant(old(bank.processes), id, req)
    ensures IsZero(bank.processes[id].need)
    ensures counters.total == old(counters.total) + 1 && counters.granted == old(counters.granted) + 1
    ensures counters.denied == old(counters.denied)
    ensures Totals(bank.available, bank.processes) == old(Totals(bank.available, bank.processes))
    ensures forall i :: 0 <= i < |bank.processes| ==> Claim(bank.processes[i]) == old(Claim(bank.processes[i]))
    ensures old(counters.Balanced()) ==> counters.Balanced()
    ensures old(Safe(bank.available, bank.processes)) ==> Safe(bank.available, bank.processes)
  {
    ghost var available0, processes0 := bank.available, bank.processes;
    FullGrantConserves(available0, processes0, id);
    GrantConserves(available0, processes0, id, req);
    if Safe(available0, processes0) {
      FullGrantKeepsSafe(available0, processes0, id);
    }
    counters.total := counters.total + 1;
    bank.GrantFull(id, req);
    counters.granted := counters.granted + 1;
  }

  /** The second block of the fallback path, still on this process's turn: release
      everything it holds, then pass the turn on to the next process of the sequence. */
  method FallbackFinish(bank: Bank, safe: SafeSeq, id: nat)
    requires bank.Valid() && id < |bank.processes|
    requires safe.TurnOf(id)
    modifies bank, safe
    ensures bank.Valid()
    ensures bank.available == Add(old(bank.available), old(bank.processes[id].allocation))
    ensures bank.processes == WithRelease(old(bank.processes), id)
    ensures safe.order == old(safe.order) && safe.idx == old(safe.idx) + 1
    ensures Totals(bank.available, bank.processes) == old(Totals(bank.available, bank.processes))
    ensures old(Safe(bank.available, bank.processes)) ==> Safe(bank.available, bank.processes)
  {
    ReleaseConserves(bank.available, bank.processes, id);
    if Safe(bank.available, bank.processes) {
      ReleaseKeepsSafe(bank.available, bank.processes, id);
    }
    bank.Release(id);
    safe.Advance();
  }
}
