/** The safety evaluator: the greedy scan that computes the startup safe sequence,
    the multi-mark scan that guards every optimistic grant, and the reference
    notion of a safe completion order they are both measured against. */
module Safety {
  import opened Vectors
  import opened Banker

  datatype Option<T> = None | Some(value: T)

  // ---------------------------------------------------------------------------
  // Reference definition: a safe completion order
  // ---------------------------------------------------------------------------

  predicate Distinct(s: seq<nat>) {
    forall a, b :: 0 <= a < b < |s| ==> s[a] != s[b]
  }

  /** Each process of `s`, in turn, has its need covered by `work` plus the
      allocations of the processes before it in `s`. */
  predicate SafeFrom(processes: seq<Process>, work: seq<nat>, s: seq<nat>)
    requires Aligned(processes, |work|)
    decreases |s|
  {
    s == [] ||
    (s[0] < |processes| && AllLe(processes[s[0]].need, work) &&
     SafeFrom(processes, Add(work, processes[s[0]].allocation), s[1..]))
  }

  /** `s` orders every process exactly once and is a safe completion order. */
  predicate IsSafeSequence(available: seq<nat>, processes: seq<Process>, s: seq<nat>) {
    && WellFormed(available, processes)
    && |s| == |processes| && Distinct(s)
    && (forall k :: 0 <= k < |s| ==> s[k] < |processes|)
    && (forall i :: 0 <= i < |processes| ==> i in s)
    && SafeFrom(processes, available, s)
  }

  /** The bank is in a safe state: some completion order exists. */
  ghost predicate Safe(available: seq<nat>, processes: seq<Process>) {
    exists s :: IsSafeSequence(available, processes, s)
  }

  // ---------------------------------------------------------------------------
  // The `finish` vector
  // ---------------------------------------------------------------------------

  /** Number of processes not yet marked finished. */
  function Unfinished(finish: seq<bool>): (n: nat)
    ensures n <= |finish|
  {
    if finish == [] then 0 else (if finish[0] then 0 else 1) + Unfinished(finish[1..])
  }

  lemma {:induction false} UnfinishedMark(finish: seq<bool>, i: nat)
    requires i < |finish| && !finish[i]
    ensures Unfinished(finish[i := true]) + 1 == Unfinished(finish)
    decreases |finish|
  {
    if i > 0 {
      assert finish[i := true][1..] == finish[1..][i - 1 := true];
      UnfinishedMark(finish[1..], i - 1);
    } else {
      assert finish[i := true][1..] == finish[1..];
    }
  }

  lemma {:induction false} NoneUnfinished(finish: seq<bool>)
    requires Unfinished(finish) == 0
    ensures forall i :: 0 <= i < |finish| ==> finish[i]
    decreases |finish|
  {
    if finish != [] {
      NoneUnfinished(finish[1..]);
      forall i | 1 <= i < |finish| ensures finish[i] {
        assert finish[i] == finish[1..][i - 1];
      }
    }
  }

  lemma {:induction false} AllUnfinished(p: nat)
    ensures Unfinished(seq(p, _ => false)) == p
  {
    if p > 0 {
      assert seq(p, _ => false)[1..] == seq(p - 1, _ => false);
      AllUnfinished(p - 1);
    }
  }

  // ---------------------------------------------------------------------------
  // compute_safe_seq: the greedy scan
  // ---------------------------------------------------------------------------

  /** Process `i` is unfinished and its need is covered by `work`. */
  predicate Eligible(processes: seq<Process>, work: seq<nat>, finish: seq<bool>, i: nat)
    requires i < |processes| && |finish| == |processes|
  {
    !finish[i] && AllLe(processes[i].need, work)
  }

  /** The lowest-index eligible process at or after `from`, if any. */
  function FirstEligible(processes: seq<Process>, work: seq<nat>, finish: seq<bool>, from: nat): (r: Option<nat>)
    requires |finish| == |processes| && from <= |processes|
    ensures r.Some? ==> from <= r.value < |processes| && Eligible(processes, work, finish, r.value)
    ensures forall i :: from <= i < |processes| && (r.None? || i < r.value) ==> !Eligible(processes, work, finish, i)
    decreases |processes| - from
  {
    if from == |processes| then None
    else if Eligible(processes, work, finish, from) then Some(from)
    else FirstEligible(processes, work, finish, from + 1)
  }

  function Prepend(prefix: seq<nat>, o: Option<seq<nat>>): Option<seq<nat>> {
    match o
    case None => None
    case Some(t) => Some(prefix + t)
  }

  lemma PrependTwice(a: seq<nat>, b: seq<nat>, o: Option<seq<nat>>)
    ensures Prepend(a, Prepend(b, o)) == Prepend(a + b, o)
    ensures Prepend([], o) == o
  {
    if o.Some? {
      assert a + (b + o.value) == (a + b) + o.value;
      assert [] + o.value == o.value;
    }
  }

  /** `passes` rounds of the greedy scan: each round picks the lowest-index eligible
      process, adds its allocation to `work` and marks it finished; a round that finds
      no eligible process ends the scan without a sequence. */
  function Greedy(processes: seq<Process>, work: seq<nat>, finish: seq<bool>, passes: nat): (r: Option<seq<nat>>)
    requires Aligned(processes, |work|) && |finish| == |processes|
    ensures r.Some? ==> |r.value| == passes
    ensures r.Some? ==> forall k :: 0 <= k < |r.value| ==> r.value[k] < |processes| && !finish[r.value[k]]
    decreases passes
  {
    if passes == 0 then Some([])
    else
      match FirstEligible(processes, work, finish, 0)
      case None => None
      case Some(i) =>
        Prepend([i], Greedy(processes, Add(work, processes[i].allocation), finish[i := true], passes - 1))
  }

  /** The sequence `compute_safe_seq` returns, or `None` where it panics: one index
      of a process per process. */
  function SafeSequence(available: seq<nat>, processes: seq<Process>): (r: Option<seq<nat>>)
    requires WellFormed(available, processes)
    ensures r.Some? ==> |r.value| == |processes| && forall k :: 0 <= k < |processes| ==> r.value[k] < |processes|
  {
    Greedy(processes, available, seq(|processes|, _ => false), |processes|)
  }

  /** What the greedy scan produces is a safe order of distinct unfinished processes,
      one per pass; when there are as many passes as unfinished processes it orders
      all of them. */
  lemma {:induction false} GreedySound(processes: seq<Process>, work: seq<nat>, finish: seq<bool>, passes: nat)
    requires Aligned(processes, |work|) && |finish| == |processes|
    requires Greedy(processes, work, finish, passes).Some?
    ensures var s := Greedy(processes, work, finish, passes).value;
      && |s| == passes && Distinct(s) && SafeFrom(processes, work, s)
      && (forall k :: 0 <= k < |s| ==> s[k] < |processes| && !finish[s[k]])
      && (passes == Unfinished(finish) ==> forall i :: 0 <= i < |processes| && !finish[i] ==> i in s)
    decreases passes
  {
    var s := Greedy(processes, work, finish, passes).value;
    if passes == 0 {
      if passes == Unfinished(finish) { NoneUnfinished(finish); }
    } else {
      var i := FirstEligible(processes, work, finish, 0).value;
      var work' := Add(work, processes[i].allocation);
      var finish' := finish[i := true];
      GreedySound(processes, work', finish', passes - 1);
      var rest := Greedy(processes, work', finish', passes - 1).value;
      assert s == [i] + rest;
      assert s[1..] == rest;
      UnfinishedMark(finish, i);
      if passes == Unfinished(finish) {
        forall j | 0 <= j < |processes| && !finish[j] ensures j in s {
          if j != i { assert !finish'[j]; assert j in rest; }
        }
      }
    }
  }

  /** The work vector once the processes of `t` have finished one after another,
      each adding its allocation. */
  function After(processes: seq<Process>, work: seq<nat>, t: seq<nat>): (w: seq<nat>)
    requires Aligned(processes, |work|) && forall k :: 0 <= k < |t| ==> t[k] < |processes|
    ensures |w| == |work|
    decreases |t|
  {
    if t == [] then work else After(processes, Add(work, processes[t[0]].allocation), t[1..])
  }

  /** Entry `k` of `s` is the pick the greedy scan makes at step `k`: an unfinished
      process not chosen before, whose need fits in the work accumulated so far, and
      no lower-index unfinished process that was not chosen before fits. */
  predicate LowestAt(processes: seq<Process>, work: seq<nat>, finish: seq<bool>, s: seq<nat>, k: nat)
    requires Aligned(processes, |work|) && |finish| == |processes|
    requires k < |s| && forall j :: 0 <= j < |s| ==> s[j] < |processes|
  {
    && !finish[s[k]] && s[k] !in s[..k]
    && AllLe(processes[s[k]].need, After(processes, work, s[..k]))
    && forall i :: 0 <= i < s[k] && !finish[i] && i !in s[..k] ==>
         !AllLe(processes[i].need, After(processes, work, s[..k]))
  }

  /** The first greedy step picks the lowest eligible process. */
  lemma LowestAtFirst(processes: seq<Process>, work: seq<nat>, finish: seq<bool>, s: seq<nat>)
    requires Aligned(processes, |work|) && |finish| == |processes|
    requires s != [] && forall j :: 0 <= j < |s| ==> s[j] < |processes|
    requires FirstEligible(processes, work, finish, 0) == Some(s[0])
    ensures LowestAt(processes, work, finish, s, 0)
  {
    assert s[..0] == [];
    forall i | 0 <= i < s[0] && !finish[i] ensures !AllLe(processes[i].need, work) {
      assert !Eligible(processes, work, finish, i);
    }
  }

  /** A later step of the scan after picking `c` is a step of the scan that starts
      from the state `c` left behind. */
  lemma LowestAtShift(processes: seq<Process>, work: seq<nat>, finish: seq<bool>, c: nat, rest: seq<nat>, k: nat)
    requires Aligned(processes, |work|) && |finish| == |processes| && c < |processes|
    requires 0 < k <= |rest| && forall j :: 0 <= j < |rest| ==> rest[j] < |processes|
    requires LowestAt(processes, Add(work, processes[c].allocation), finish[c := true], rest, k - 1)
    ensures LowestAt(processes, work, finish, [c] + rest, k)
  {
    var s := [c] + rest;
    var finish' := finish[c := true];
    assert s[..k] == [c] + rest[..k - 1];
    assert s[..k][1..] == rest[..k - 1];
    assert After(processes, work, s[..k]) == After(processes, Add(work, processes[c].allocation), rest[..k - 1]);
    assert s[k] == rest[k - 1];
    assert s[k] != c by { assert !finish'[rest[k - 1]]; }
    forall i | 0 <= i < s[k] && !finish[i] && i !in s[..k]
      ensures !AllLe(processes[i].need, After(processes, work, s[..k]))
    {
      assert i != c && !finish'[i] && i !in rest[..k - 1];
    }
  }

  /** The tie-break of the greedy scan, stated step by step: every entry of the result
      is the greedy pick of its step. */
  lemma {:induction false} GreedyPicksLowest(processes: seq<Process>, work: seq<nat>, finish: seq<bool>, passes: nat)
    requires Aligned(processes, |work|) && |finish| == |processes|
    requires Greedy(processes, work, finish, passes).Some?
    ensures var s := Greedy(processes, work, finish, passes).value;
      && (forall k :: 0 <= k < |s| ==> s[k] < |processes|)
      && forall k :: 0 <= k < |s| ==> LowestAt(processes, work, finish, s, k)
    decreases passes
  {
    var s := Greedy(processes, work, finish, passes).value;
    if passes > 0 {
      var c := FirstEligible(processes, work, finish, 0).value;
      var work' := Add(work, processes[c].allocation);
      var finish' := finish[c := true];
      GreedyPicksLowest(processes, work', finish', passes - 1);
      var rest := Greedy(processes, work', finish', passes - 1).value;
      assert s == [c] + rest;
      forall k | 0 <= k < |s| ensures LowestAt(processes, work, finish, s, k) {
        if k == 0 {
          LowestAtFirst(processes, work, finish, s);
        } else {
          LowestAtShift(processes, work, finish, c, rest, k);
        }
      }
    }
  }

  /** Removes the first occurrence of `x`. */
  function Remove(s: seq<nat>, x: nat): (t: seq<nat>)
    requires x in s
    ensures |t| == |s| - 1
    ensures forall y :: y in t ==> y in s
    ensures forall y :: y in s && y != x ==> y in t
  {
    if s[0] == x then s[1..] else [s[0]] + Remove(s[1..], x)
  }

  lemma {:induction false} RemoveDistinct(s: seq<nat>, x: nat)
    requires x in s && Distinct(s)
    ensures Distinct(Remove(s, x)) && x !in Remove(s, x)
    decreases |s|
  {
    if s[0] == x {
      assert forall k :: 1 <= k < |s| ==> s[0] != s[k];
    } else {
      var r := Remove(s[1..], x);
      var t := [s[0]] + r;
      assert Distinct(s[1..]);
      RemoveDistinct(s[1..], x);
      assert forall k :: 1 <= k < |s| ==> s[0] != s[k];
      assert s[0] !in s[1..];
      forall a, b | 0 <= a < b < |t| ensures t[a] != t[b] {
        if a == 0 { assert t[b] == r[b - 1]; assert t[b] in s[1..]; }
        else { assert t[a] == r[a - 1] && t[b] == r[b - 1]; }
      }
      assert x !in t by { assert t[0] != x; assert forall k :: 1 <= k < |t| ==> t[k] == r[k - 1]; }
    }
  }

  /** The exchange step: a process that is already eligible can be moved to the
      front of a safe order without making the rest unsafe. */
  lemma {:induction false} SafeFromRemove(processes: seq<Process>, work: seq<nat>, s: seq<nat>, x: nat)
    requires Aligned(processes, |work|) && SafeFrom(processes, work, s)
    requires x in s && x < |processes| && AllLe(processes[x].need, work)
    ensures SafeFrom(processes, Add(work, processes[x].allocation), Remove(s, x))
    decreases |s|
  {
    if s[0] != x {
      var h := s[0];
      var ah := processes[h].allocation;
      var ax := processes[x].allocation;
      AllLeAdd(processes[x].need, work, ah);
      SafeFromRemove(processes, Add(work, ah), s[1..], x);
      AddSwap(work, ah, ax);
      AllLeAdd(processes[h].need, work, ax);
      var t := Remove(s, x);
      assert t[0] == h && t[1..] == Remove(s[1..], x);
    }
  }

  /** If some safe order of exactly the unfinished processes exists, the greedy scan
      does not get stuck. */
  lemma {:induction false} GreedyComplete(processes: seq<Process>, work: seq<nat>, finish: seq<bool>, s: seq<nat>)
    requires Aligned(processes, |work|) && |finish| == |processes|
    requires SafeFrom(processes, work, s) && Distinct(s)
    requires forall k :: 0 <= k < |s| ==> s[k] < |processes| && !finish[s[k]]
    requires forall i :: 0 <= i < |processes| && !finish[i] ==> i in s
    ensures Greedy(processes, work, finish, |s|).Some?
    decreases |s|
  {
    if s != [] {
      assert Eligible(processes, work, finish, s[0]);
      var i := FirstEligible(processes, work, finish, 0).value;
      var s' := Remove(s, i);
      SafeFromRemove(processes, work, s, i);
      RemoveDistinct(s, i);
      var finish' := finish[i := true];
      forall k | 0 <= k < |s'| ensures s'[k] < |processes| && !finish'[s'[k]] {
        assert s'[k] in s;
      }
      GreedyComplete(processes, Add(work, processes[i].allocation), finish', s');
    }
  }

  /** The startup scan succeeds exactly when the bank is safe, and what it returns is
      a safe sequence. */
  lemma SafeSequenceCorrect(available: seq<nat>, processes: seq<Process>)
    requires WellFormed(available, processes)
    ensures SafeSequence(available, processes).Some? ==> IsSafeSequence(available, processes, SafeSequence(available, processes).value)
    ensures SafeSequence(available, processes).Some? <==> Safe(available, processes)
  {
    var p := |processes|;
    var none := seq(p, _ => false);
    AllUnfinished(p);
    if SafeSequence(available, processes).Some? {
      GreedySound(processes, available, none, p);
      assert IsSafeSequence(available, processes, SafeSequence(available, processes).value);
    }
    if Safe(available, processes) {
      var s :| IsSafeSequence(available, processes, s);
      GreedyComplete(processes, available, none, s);
    }
  }

  // ---------------------------------------------------------------------------
  // is_safe_state: the multi-mark scan
  // ---------------------------------------------------------------------------

  datatype Scan = Scan(work: seq<nat>, finish: seq<bool>, found: bool)

  /** One pass of `is_safe_state` over indices `i..p`: every unfinished process whose
      need is covered by the current `work` is marked, and later indices of the same
      pass already see its allocation. A pass only adds to `work`, never unmarks a
      process, and never clears `found`. */
  function ScanPass(processes: seq<Process>, work: seq<nat>, finish: seq<bool>, found: bool, i: nat): (sc: Scan)
    requires Aligned(processes, |work|) && |finish| == |processes| && i <= |processes|
    ensures |sc.work| == |work| && |sc.finish| == |finish|
    ensures AllLe(work, sc.work)
    ensures forall k :: 0 <= k < |finish| && finish[k] ==> sc.finish[k]
    ensures found ==> sc.found
    decreases |processes| - i
  {
    if i == |processes| then Scan(work, finish, found)
    else if Eligible(processes, work, finish, i) then
      ScanPass(processes, Add(work, processes[i].allocation), finish[i := true], true, i + 1)
    else ScanPass(processes, work, finish, found, i + 1)
  }

  /** `passes` rounds of `ScanPass`; a round that marks nothing makes the answer false. */
  function SafeCheck(processes: seq<Process>, work: seq<nat>, finish: seq<bool>, passes: nat): bool
    requires Aligned(processes, |work|) && |finish| == |processes|
    decreases passes
  {
    passes == 0 ||
    (var sc := ScanPass(processes, work, finish, false, 0);
     sc.found && SafeCheck(processes, sc.work, sc.finish, passes - 1))
  }

  /** The answer of `is_safe_state`. */
  function IsSafe(available: seq<nat>, processes: seq<Process>): bool
    requires WellFormed(available, processes)
  {
    SafeCheck(processes, available, seq(|processes|, _ => false), |processes|)
  }

  /** A pass never unmarks a process; it reports `found` exactly when it marked one;
      and when it marked exactly one, that one is the lowest-index eligible process
      and the pass did precisely what one greedy step does. */
  lemma {:induction false} ScanPassMarks(processes: seq<Process>, work: seq<nat>, finish: seq<bool>, found: bool, i: nat)
    requires Aligned(processes, |work|) && |finish| == |processes| && i <= |processes|
    ensures var sc := ScanPass(processes, work, finish, found, i);
      && |sc.work| == |work| && |sc.finish| == |finish|
      && Unfinished(sc.finish) <= Unfinished(finish)
      && sc.found == (found || Unfinished(sc.finish) < Unfinished(finish))
      && (Unfinished(sc.finish) == Unfinished(finish) ==> sc.work == work && sc.finish == finish)
      && (Unfinished(sc.finish) + 1 == Unfinished(finish) ==>
            var c := FirstEligible(processes, work, finish, i);
            c.Some? && sc.work == Add(work, processes[c.value].allocation) && sc.finish == finish[c.value := true])
    decreases |processes| - i
  {
    if i < |processes| {
      if Eligible(processes, work, finish, i) {
        var work' := Add(work, processes[i].allocation);
        var finish' := finish[i := true];
        UnfinishedMark(finish, i);
        ScanPassMarks(processes, work', finish', true, i + 1);
      } else {
        ScanPassMarks(processes, work, finish, found, i + 1);
      }
    }
  }

  /** `passes` successful rounds need at least `passes` unfinished processes, since
      each round marks at least one. */
  lemma {:induction false} SafeCheckCounts(processes: seq<Process>, work: seq<nat>, finish: seq<bool>, passes: nat)
    requires Aligned(processes, |work|) && |finish| == |processes|
    requires SafeCheck(processes, work, finish, passes)
    ensures passes <= Unfinished(finish)
    decreases passes
  {
    if passes > 0 {
      var sc := ScanPass(processes, work, finish, false, 0);
      ScanPassMarks(processes, work, finish, false, 0);
      SafeCheckCounts(processes, sc.work, sc.finish, passes - 1);
    }
  }

  /** When the multi-mark check succeeds with one round per unfinished process, every
      round marked exactly one process, so it followed the greedy scan step by step. */
  lemma {:induction false} SafeCheckIsGreedy(processes: seq<Process>, work: seq<nat>, finish: seq<bool>, passes: nat)
    requires Aligned(processes, |work|) && |finish| == |processes|
    requires passes == Unfinished(finish) && SafeCheck(processes, work, finish, passes)
    ensures Greedy(processes, work, finish, passes).Some?
    decreases passes
  {
    if passes > 0 {
      var sc := ScanPass(processes, work, finish, false, 0);
      ScanPassMarks(processes, work, finish, false, 0);
      SafeCheckCounts(processes, sc.work, sc.finish, passes - 1);
      SafeCheckIsGreedy(processes, sc.work, sc.finish, passes - 1);
    }
  }

  /** `is_safe_state` is sound: when it answers true the bank is safe, and the startup
      scan would succeed on the same bank. */
  lemma IsSafeSound(available: seq<nat>, processes: seq<Process>)
    requires WellFormed(available, processes) && IsSafe(available, processes)
    ensures SafeSequence(available, processes).Some?
    ensures Safe(available, processes)
  {
    AllUnfinished(|processes|);
    SafeCheckIsGreedy(processes, available, seq(|processes|, _ => false), |processes|);
    SafeSequenceCorrect(available, processes);
  }

  // The instance of `IsSafeIncomplete`: `available = [3]`, P0 holding 2 and needing 3,
  // P1 holding 1 and needing 3.

  lemma IncompleteGreedy()
    ensures var processes := [Process([5], [2], [3]), Process([4], [1], [3])];
      && WellFormed([3], processes) && SafeSequence([3], processes) == Some([0, 1])
  {
    var processes := [Process([5], [2], [3]), Process([4], [1], [3])];
    var none := [false, false];
    assert seq(2, _ => false) == none;
    assert Add([3], [2]) == [5];
    assert Add([5], [1]) == [6];
    assert FirstEligible(processes, [3], none, 0) == Some(0);
    assert FirstEligible(processes, [5], [true, false], 0) == Some(1);
    assert Greedy(processes, [6], [true, true], 0) == Some([]);
    assert [true, false][1 := true] == [true, true];
    assert none[0 := true] == [true, false];
    assert processes[1].allocation == [1];
    assert Greedy(processes, [5], [true, false], 1)
        == Prepend([1], Greedy(processes, Add([5], processes[1].allocation), [true, false][1 := true], 0));
    assert [1] + [] == [1];
    assert Greedy(processes, [5], [true, false], 1) == Some([1]);
    assert [0] + [1] == [0, 1];
  }

  lemma IncompleteScan()
    ensures var processes := [Process([5], [2], [3]), Process([4], [1], [3])];
      && WellFormed([3], processes) && !IsSafe([3], processes)
  {
    var processes := [Process([5], [2], [3]), Process([4], [1], [3])];
    var none := [false, false];
    assert seq(2, _ => false) == none;
    assert Add([3], [2]) == [5];
    assert Add([5], [1]) == [6];
    assert none[0 := true] == [true, false];
    assert [true, false][1 := true] == [true, true];
    assert Eligible(processes, [3], none, 0) && Eligible(processes, [5], [true, false], 1);
    assert ScanPass(processes, [6], [true, true], true, 2) == Scan([6], [true, true], true);
    assert ScanPass(processes, [5], [true, false], true, 1) == Scan([6], [true, true], true);
    assert ScanPass(processes, [3], none, false, 0) == Scan([6], [true, true], true);
    assert ScanPass(processes, [6], [true, true], false, 2) == Scan([6], [true, true], false);
    assert ScanPass(processes, [6], [true, true], false, 1) == Scan([6], [true, true], false);
    assert ScanPass(processes, [6], [true, true], false, 0) == Scan([6], [true, true], false);
  }

  /** `is_safe_state` is not complete: with `available = [3]`, P0 holding 2 and needing 3,
      and P1 holding 1 and needing 3, the first pass finishes both processes, the second
      finds nothing and the answer is false, although [0, 1] is a safe sequence. */
  lemma IsSafeIncomplete()
    ensures var available := [3];
      var processes := [Process([5], [2], [3]), Process([4], [1], [3])];
      && WellFormed(available, processes)
      && !IsSafe(available, processes)
      && SafeSequence(available, processes) == Some([0, 1])
      && IsSafeSequence(available, processes, [0, 1])
  {
    var processes := [Process([5], [2], [3]), Process([4], [1], [3])];
    IncompleteGreedy();
    IncompleteScan();
    assert Add([3], [2]) == [5];
    assert Add([5], [1]) == [6];
    assert SafeFrom(processes, [6], []);
    assert SafeFrom(processes, [5], [1]) by { assert [1][1..] == []; }
    assert SafeFrom(processes, [3], [0, 1]) by { assert [0, 1][1..] == [1]; }
  }

  // ---------------------------------------------------------------------------
  // Safety is kept by release and by the fallback grant
  // ---------------------------------------------------------------------------

  /** A safe order stays safe when one process `id` needs no more than before and
      holds no more than before, provided the work vector makes up for what `id`
      held while `id` is still ahead in the order. */
  lemma {:induction false} SafeFromWeaken(processes: seq<Process>, processes': seq<Process>, id: nat,
                                          work: seq<nat>, work': seq<nat>, s: seq<nat>)
    requires |work'| == |work| && Aligned(processes, |work|) && Aligned(processes', |work|)
    requires |processes'| == |processes| && id < |processes|
    requires forall i :: 0 <= i < |processes| && i != id ==> processes'[i] == processes[i]
    requires AllLe(processes'[id].need, processes[id].need)
    requires SafeFrom(processes, work, s) && Distinct(s)
    requires AllLe(work, work')
    requires id in s ==> AllLe(Add(work, processes[id].allocation), work')
    ensures SafeFrom(processes', work', s)
    decreases |s|
  {
    if s != [] {
      var h := s[0];
      var w1 := Add(work, processes[h].allocation);
      var w1' := Add(work', processes'[h].allocation);
      assert Distinct(s[1..]);
      assert forall k :: 1 <= k < |s| ==> s[0] != s[k];
      AllLeTrans(processes'[h].need, processes[h].need, work) by {
        if h != id { assert processes'[h] == processes[h]; }
      }
      AllLeTrans(processes'[h].need, work, work');
      if h == id {
        assert AllLe(w1, w1');
        assert id !in s[1..];
      } else {
        AllLeAdd(work, work', processes[h].allocation);
        if id in s[1..] {
          AllLeAdd(Add(work, processes[id].allocation), work', processes[h].allocation);
          AddSwap(work, processes[id].allocation, processes[h].allocation);
        }
      }
      SafeFromWeaken(processes, processes', id, w1, w1', s[1..]);
    }
  }

  /** Releasing a finished process's allocation keeps a safe bank safe. */
  lemma ReleaseKeepsSafe(available: seq<nat>, processes: seq<Process>, id: nat)
    requires WellFormed(available, processes) && id < |processes|
    requires Safe(available, processes)
    ensures Safe(Add(available, processes[id].allocation), WithRelease(processes, id))
  {
    var s :| IsSafeSequence(available, processes, s);
    var available' := Add(available, processes[id].allocation);
    var processes' := WithRelease(processes, id);
    ReleaseConserves(available, processes, id);
    SafeFromWeaken(processes, processes', id, available, available', s);
    assert IsSafeSequence(available', processes', s);
  }

  /** The fallback grant of a process's whole need keeps a safe bank safe, when the
      need fits in `available`: the process can go first in the new order, since it
      needs nothing more, and the rest of any old safe order follows it. */
  lemma FullGrantKeepsSafe(available: seq<nat>, processes: seq<Process>, id: nat)
    requires WellFormed(available, processes) && id < |processes|
    requires AllLe(processes[id].need, available)
    requires Safe(available, processes)
    ensures Safe(Sub(available, processes[id].need), WithFullGrant(processes, id, processes[id].need))
  {
    var need := processes[id].need;
    var available' := Sub(available, need);
    var processes' := WithFullGrant(processes, id, need);
    FullGrantConserves(available, processes, id);
    GrantConserves(available, processes, id, need);
    var s :| IsSafeSequence(available, processes, s);
    var w := Add(available, processes[id].allocation);
    var rest := Remove(s, id);
    SafeFromRemove(processes, available, s, id);
    RemoveDistinct(s, id);
    SafeFromWeaken(processes, processes', id, w, w, rest);
    var t := [id] + rest;
    assert t[1..] == rest;
    assert SafeFrom(processes', available', t);
    forall a, b | 0 <= a < b < |t| ensures t[a] != t[b] {
      assert t[b] == rest[b - 1];
    }
    forall k | 0 <= k < |t| ensures t[k] < |processes| {
      if k > 0 { assert t[k] == rest[k - 1] && rest[k - 1] in s; }
    }
    forall i | 0 <= i < |processes| ensures i in t {
      if i != id { assert i in rest; }
    }
    assert IsSafeSequence(available', processes', t);
  }

  // ---------------------------------------------------------------------------
  // The two scans as loops
  // ---------------------------------------------------------------------------

  /** One pass of the greedy scan, as the loop of `ComputeSafeSeq` performs it: when no
      lower index is eligible and `pick` is, the remaining passes extend `order` by
      `pick` and continue from the state `pick` leaves. */
  lemma GreedyStep(processes: seq<Process>, work: seq<nat>, finish: seq<bool>, passes: nat, order: seq<nat>, pick: nat)
    requires Aligned(processes, |work|) && |finish| == |processes| && passes > 0
    requires pick < |processes| && Eligible(processes, work, finish, pick)
    requires forall k :: 0 <= k < pick ==> !Eligible(processes, work, finish, k)
    ensures Prepend(order, Greedy(processes, work, finish, passes))
         == Prepend(order + [pick], Greedy(processes, Add(work, processes[pick].allocation), finish[pick := true], passes - 1))
  {
    assert FirstEligible(processes, work, finish, 0) == Some(pick);
    PrependTwice(order, [pick], Greedy(processes, Add(work, processes[pick].allocation), finish[pick := true], passes - 1));
  }

  /** `compute_safe_seq`: `p` passes, each taking the first unfinished process whose
      need fits in `work`; `None` stands for the panic when a pass finds none. */
  method ComputeSafeSeq(available: seq<nat>, processes: seq<Process>) returns (r: Option<seq<nat>>)
    requires WellFormed(available, processes)
    ensures r == SafeSequence(available, processes)
    ensures r.Some? ==> IsSafeSequence(available, processes, r.value)
    ensures r.None? <==> !Safe(available, processes)
  {
    var p := |processes|;
    var work := available;
    var finish := seq(p, _ => false);
    var order: seq<nat> := [];
    PrependTwice([], [], SafeSequence(available, processes));
    for pass := 0 to p
      invariant |work| == |available| && |finish| == p
      invariant Prepend(order, Greedy(processes, work, finish, p - pass)) == SafeSequence(available, processes)
    {
      var found := false;
      var pick := 0;
      for i := 0 to p
        invariant !found
        invariant forall k :: 0 <= k < i ==> !Eligible(processes, work, finish, k)
      {
        if !finish[i] && AllLe(processes[i].need, work) {
          found, pick := true, i;
          break;
        }
      }
      if !found {
        SafeSequenceCorrect(available, processes);
        return None;
      }
      GreedyStep(processes, work, finish, p - pass, order, pick);
      work := AddAssign(work, processes[pick].allocation);
      finish := finish[pick := true];
      order := order + [pick];
    }
    assert order + [] == order;
    SafeSequenceCorrect(available, processes);
    return Some(order);
  }

  /** `is_safe_state`: `p` passes; each marks every unfinished process whose need fits
      in the current `work`; a pass that marks nothing makes the answer false. */
  method IsSafeState(available: seq<nat>, processes: seq<Process>) returns (safe: bool)
    requires WellFormed(available, processes)
    ensures safe == IsSafe(available, processes)
    ensures safe ==> Safe(available, processes) && SafeSequence(available, processes).Some?
  {
    var p := |processes|;
    var work := available;
    var finish := seq(p, _ => false);
    for pass := 0 to p
      invariant |work| == |available| && |finish| == p
      invariant IsSafe(available, processes) == SafeCheck(processes, work, finish, p - pass)
    {
      ghost var work0, finish0 := work, finish;
      var found := false;
      for i := 0 to p
        invariant |work| == |available| && |finish| == p
        invariant ScanPass(processes, work0, finish0, false, 0) == ScanPass(processes, work, finish, found, i)
      {
        if !finish[i] && AllLe(processes[i].need, work) {
          work := AddAssign(work, processes[i].allocation);
          finish := finish[i := true];
          found := true;
        }
      }
      if !found {
        return false;
      }
    }
    IsSafeSound(available, processes);
    return true;
  }
}
