/** The dining-philosophers monitor: five seats around a table, each thinking, hungry
    or eating, and the state updates made while holding the table's lock. */
module Philosophers {

  const N: nat := 5

  datatype State = Thinking | Hungry | Eating

  /** The seat to the left of `id` on the ring. */
  function Left(id: nat): (l: nat)
    requires id < N
    ensures l < N && l != id
  {
    (id + N - 1) % N
  }

  /** The seat to the right of `id` on the ring. */
  function Right(id: nat): (r: nat)
    requires id < N
    ensures r < N && r != id
  {
    (id + 1) % N
  }

  /** Left and right undo each other, and the two neighbours of a seat are different seats. */
  lemma RingInverse(id: nat)
    requires id < N
    ensures Left(Right(id)) == id && Right(Left(id)) == id
    ensures Left(id) != Right(id)
  {
  }

  /** No two neighbouring seats eat at the same time. */
  predicate NoAdjacentEaters(s: seq<State>)
    requires |s| == N
  {
    forall i :: 0 <= i < N ==> !(s[i] == Eating && s[Right(i)] == Eating)
  }

  /** The states after `test(id)`: a hungry seat whose neighbours are not eating starts eating. */
  function Tested(s: seq<State>, id: nat): seq<State>
    requires |s| == N && id < N
  {
    if s[id] == Hungry && s[Left(id)] != Eating && s[Right(id)] != Eating then s[id := Eating] else s
  }

  /** `test` changes at most seat `id`, only from hungry to eating, and only when
      neither neighbour eats. */
  lemma TestedEffect(s: seq<State>, id: nat)
    requires |s| == N && id < N
    ensures |Tested(s, id)| == N
    ensures forall k :: 0 <= k < N && k != id ==> Tested(s, id)[k] == s[k]
    ensures Tested(s, id)[id] != s[id] <==> s[id] == Hungry && s[Left(id)] != Eating && s[Right(id)] != Eating
    ensures Tested(s, id)[id] != s[id] ==> Tested(s, id)[id] == Eating
  {
  }

  /** `test` keeps neighbours from eating together. */
  lemma TestedKeepsExclusion(s: seq<State>, id: nat)
    requires |s| == N && id < N && NoAdjacentEaters(s)
    ensures |Tested(s, id)| == N && NoAdjacentEaters(Tested(s, id))
  {
    var t := Tested(s, id);
    if t != s {
      forall i | 0 <= i < N ensures !(t[i] == Eating && t[Right(i)] == Eating) {
        RingInverse(i);
        if Right(i) == id {
          assert i == Left(id);
        }
      }
    }
  }

  /** Testing a seat twice is the same as testing it once. */
  lemma TestedIdempotent(s: seq<State>, id: nat)
    requires |s| == N && id < N
    ensures Tested(Tested(s, id), id) == Tested(s, id)
  {
  }

  /** The state part of `pickup_forks`: become hungry, then test. */
  function PickedUp(s: seq<State>, id: nat): seq<State>
    requires |s| == N && id < N
  {
    Tested(s[id := Hungry], id)
  }

  /** After pickup the seat eats exactly when neither neighbour was eating, and is
      hungry otherwise; no other seat changes. */
  lemma PickupEffect(s: seq<State>, id: nat)
    requires |s| == N && id < N
    ensures |PickedUp(s, id)| == N
    ensures PickedUp(s, id)[id] == Eating <==> s[Left(id)] != Eating && s[Right(id)] != Eating
    ensures PickedUp(s, id)[id] != Eating ==> PickedUp(s, id)[id] == Hungry
    ensures forall k :: 0 <= k < N && k != id ==> PickedUp(s, id)[k] == s[k]
  {
    TestedEffect(s[id := Hungry], id);
  }

  lemma PickupKeepsExclusion(s: seq<State>, id: nat)
    requires |s| == N && id < N && NoAdjacentEaters(s)
    ensures |PickedUp(s, id)| == N && NoAdjacentEaters(PickedUp(s, id))
  {
    TestedKeepsExclusion(s[id := Hungry], id);
  }

  /** The state part of `putdown_forks`: think, then test the left and the right neighbour. */
  function PutDown(s: seq<State>, id: nat): seq<State>
    requires |s| == N && id < N
  {
    Tested(Tested(s[id := Thinking], Left(id)), Right(id))
  }

  /** Putdown leaves seat `id` thinking and changes no seat other than `id` and its
      two neighbours; a neighbour changes only from hungry to eating. */
  lemma PutdownEffect(s: seq<State>, id: nat)
    requires |s| == N && id < N
    ensures |PutDown(s, id)| == N && PutDown(s, id)[id] == Thinking
    ensures forall k :: 0 <= k < N && k != id && k != Left(id) && k != Right(id) ==> PutDown(s, id)[k] == s[k]
    ensures forall k :: 0 <= k < N && k != id && PutDown(s, id)[k] != s[k] ==> s[k] == Hungry && PutDown(s, id)[k] == Eating
  {
    var s1 := s[id := Thinking];
    var s2 := Tested(s1, Left(id));
    TestedEffect(s1, Left(id));
    TestedEffect(s2, Right(id));
    RingInverse(id);
  }

  lemma PutdownKeepsExclusion(s: seq<State>, id: nat)
    requires |s| == N && id < N && NoAdjacentEaters(s)
    ensures |PutDown(s, id)| == N && NoAdjacentEaters(PutDown(s, id))
  {
    var s1 := s[id := Thinking];
    assert NoAdjacentEaters(s1);
    TestedKeepsExclusion(s1, Left(id));
    TestedKeepsExclusion(Tested(s1, Left(id)), Right(id));
  }

  /** The monitor's state (the per-seat condition variables are not modelled). */
  class Table {
    var states: seq<State>

    ghost predicate Valid()
      reads this
    {
      |states| == N && NoAdjacentEaters(states)
    }

    /** Every philosopher starts out thinking. */
    constructor ()
      ensures Valid() && states == seq(N, _ => Thinking)
    {
      states := seq(N, _ => Thinking);
    }

    /** `test`: let seat `id` eat if it is hungry and neither neighbour eats. */
    method Test(id: nat)
      requires Valid() && id < N
      modifies this
      ensures Valid()
      ensures states == Tested(old(states), id)
    {
      if states[id] == Hungry && states[Left(id)] != Eating && states[Right(id)] != Eating {
        states := states[id := Eating];
      }
      TestedKeepsExclusion(old(states), id);
    }

    /** The locked part of `pickup_forks`, before it waits to be eating. */
    method PickupForks(id: nat)
      requires Valid() && id < N
      modifies this
      ensures Valid()
      ensures states == PickedUp(old(states), id)
      ensures states[id] == Eating <==> old(states[Left(id)]) != Eating && old(states[Right(id)]) != Eating
      ensures forall k :: 0 <= k < N && k != id ==> states[k] == old(states[k])
    {
      PickupKeepsExclusion(states, id);
      PickupEffect(states, id);
      states := states[id := Hungry];
      Test(id);
    }

    /** `putdown_forks`: think, then give both neighbours a chance to eat. */
    method PutdownForks(id: nat)
      requires Valid() && id < N
      modifies this
      ensures Valid()
      ensures states == PutDown(old(states), id)
      ensures states[id] == Thinking
      ensures forall k :: 0 <= k < N && k != id && k != Left(id) && k != Right(id) ==> states[k] == old(states[k])
    {
      PutdownEffect(states, id);
      assert NoAdjacentEaters(states[id := Thinking]);
      states := states[id := Thinking];
      Test(Left(id));
      Test(Right(id));
    }
  }
}
