/** Wait queues of thread numbers: a ring with the contents of a FIFO. */
module WaitQueues {
  const SLOTS: nat := 8

  /** A queue after a push: number 0, a full queue and a number that is queued already change nothing. */
  function PushId(q: seq<nat>, id: nat): seq<nat> {
    if id == 0 || |q| >= SLOTS || id in q then q else q + [id]
  }

  /** Position `i` of the ring that starts at `head`. */
  function Slot(head: nat, i: nat): (k: nat)
    requires head < SLOTS && i <= SLOTS
    ensures k == if head + i < SLOTS then head + i else head + i - SLOTS
  {
    (head + i) % SLOTS
  }

  predicate At(ids: seq<nat>, head: nat, list: seq<nat>, i: nat) {
    head < SLOTS && i < |list| <= SLOTS == |ids| && ids[Slot(head, i)] == list[i]
  }

  ghost predicate Holds(ids: seq<nat>, head: nat, list: seq<nat>) {
    && |ids| == SLOTS && head < SLOTS && |list| <= SLOTS
    && forall i: nat {:trigger At(ids, head, list, i)} | i < |list| :: At(ids, head, list, i)
  }

  lemma PushHolds(ids: seq<nat>, head: nat, list: seq<nat>, id: nat)
    requires Holds(ids, head, list) && |list| < SLOTS
    ensures Holds(ids[Slot(head, |list|) := id], head, list + [id])
  {
    var ids', list' := ids[Slot(head, |list|) := id], list + [id];
    forall i: nat | i < |list'| ensures At(ids', head, list', i) { assert i < |list| ==> At(ids, head, list, i); }
  }

  lemma PopHolds(ids: seq<nat>, head: nat, list: seq<nat>)
    requires Holds(ids, head, list) && list != []
    ensures ids[head] == list[0] && Holds(ids[head := 0], Slot(head, 1), list[1..])
  {
    var ids', head', list' := ids[head := 0], Slot(head, 1), list[1..];
    assert At(ids, head, list, 0);
    forall i: nat | i < |list'| ensures At(ids', head', list', i) { assert At(ids, head, list, i + 1); }
  }

  class WaitQueue {
    const ids: array<nat>
    var head: nat
    var count: nat
    ghost var list: seq<nat>

    ghost predicate Valid()
      reads this, ids
    {
      ids.Length == SLOTS && head < SLOTS && count == |list| && Holds(ids[..], head, list) && 0 !in list
    }

    constructor ()
      ensures Valid() && fresh(this) && fresh(ids) && list == []
    {
      ids := new nat[SLOTS];
      head, count, list := 0, 0, [];
    }

    method Contains(id: nat) returns (r: bool)
      requires Valid()
      ensures r <==> id != 0 && id in list
    {
      if id == 0 { return false; }
      var i := 0;
      while i < count
        invariant i <= count && id !in list[..i]
      {
        assert At(ids[..], head, list, i);
        if ids[Slot(head, i)] == id { return true; }
        i := i + 1;
      }
      return false;
    }

    /** Appends a thread that is not in the queue yet. */
    method Push(id: nat)
      requires Valid()
      modifies this`count, this`list, ids
      ensures Valid() && list == PushId(old(list), id)
      ensures list == if id == 0 || |old(list)| >= 8 || id in old(list) then old(list) else old(list) + [id]
    {
      if id == 0 || count >= SLOTS { return; }
      var present := Contains(id);
      if present { return; }
      PushHolds(ids[..], head, list, id);
      ghost var before := ids[..];
      ids[Slot(head, count)] := id;
      assert ids[..] == before[Slot(head, count) := id];
      count := count + 1;
      list := list + [id];
    }

    /** Takes the first thread; 0 when there is none. */
    method Pop() returns (id: nat)
      requires Valid()
      modifies this`head, this`count, this`list, ids
      ensures Valid() && if old(list) == [] then id == 0 && list == [] else id != 0 && old(list) == [id] + list
    {
      if count == 0 { return 0; }
      PopHolds(ids[..], head, list);
      ghost var before := ids[..];
      id := ids[head];
      ids[head] := 0;
      assert ids[..] == before[head := 0];
      head := Slot(head, 1);
      count := count - 1;
      list := list[1..];
    }
  }
}
