/** The interrupt event ring: interrupts push whole events between the single
    instructions of the main loop's pop. */
module EventQueue {
  const CAPACITY: nat := 256

  const NONE: nat := 0

  datatype Event = Event(kind: nat, source: nat, data: nat)

  /** Where the main loop stands inside a pop: the values it has loaded so far. */
  datatype Consumer =
    | Idle
    | HasTail(tail: nat)
    | HasHead(tail: nat, head: nat)
    | HasKind(tail: nat, kind: nat)
    | HasSource(tail: nat, kind: nat, source: nat)
    | HasEvent(tail: nat, event: Event)
    | Advanced(event: Event)

  /** How many instructions of the current pop are done. */
  function Stage(c: Consumer): nat {
    match c
    case Idle => 0
    case HasTail(_) => 1
    case HasHead(_, _) => 2
    case HasKind(_, _) => 3
    case HasSource(_, _, _) => 4
    case HasEvent(_, _) => 5
    case Advanced(_) => 6
  }

  /** What can happen next: an interrupt or one instruction of the main loop. */
  datatype Step = Interrupt(event: Event) | Instruction

  predicate SlotOk(slots: seq<Event>, accepted: seq<Event>, k: nat) {
    |slots| == CAPACITY && k < |accepted| && slots[k % CAPACITY] == accepted[k]
  }

  /** The slots hold the events accepted and not yet released. */
  ghost predicate Holds(slots: seq<Event>, accepted: seq<Event>, released: nat) {
    |slots| == CAPACITY &&
    forall k: nat {:trigger SlotOk(slots, accepted, k)} | released <= k < |accepted| :: SlotOk(slots, accepted, k)
  }

  /** Fewer than CAPACITY apart are different slots. */
  lemma SlotsApart(a: nat, b: nat)
    requires a < b < a + CAPACITY
    ensures a % CAPACITY != b % CAPACITY
  {}

  /** Writing the slot at the head overwrites no event that is still held. */
  lemma PushHolds(slots: seq<Event>, accepted: seq<Event>, released: nat, e: Event)
    requires Holds(slots, accepted, released) && |accepted| < released + CAPACITY
    ensures Holds(slots[|accepted| % CAPACITY := e], accepted + [e], released)
  {
    var m := |accepted|;
    var slots', accepted' := slots[m % CAPACITY := e], accepted + [e];
    forall k: nat | released <= k < |accepted'| ensures SlotOk(slots', accepted', k) {
      if k < m {
        SlotsApart(k, m);
        assert SlotOk(slots, accepted, k);
      }
    }
  }

  lemma ReleaseHolds(slots: seq<Event>, accepted: seq<Event>, released: nat)
    requires Holds(slots, accepted, released)
    ensures Holds(slots, accepted, released + 1)
  {
    forall k: nat | released + 1 <= k < |accepted| ensures SlotOk(slots, accepted, k) {
      assert SlotOk(slots, accepted, k);
    }
  }

  lemma NextIndex(k: nat)
    ensures (k % CAPACITY + 1) % CAPACITY == (k + 1) % CAPACITY
  {}

  /** The ring is full exactly when the next head is the tail. */
  lemma FullIs(released: nat, accepted: nat)
    requires released <= accepted < released + CAPACITY
    ensures (accepted + 1) % CAPACITY == released % CAPACITY <==> accepted == released + CAPACITY - 1
    ensures accepted % CAPACITY == released % CAPACITY <==> accepted == released
  {}

  class Ring {
    const slots: array<Event>
    var head: nat
    var tail: nat
    var pushed: nat
    var dropped: nat
    var popped: nat
    var consumer: Consumer
    ghost var accepted: seq<Event>   // every event a push returned 1 for
    ghost var released: nat          // events whose slot the consumer has given back
    ghost var received: seq<Event>   // every event a pop returned

    /** What the consumer has loaded is still so. */
    ghost predicate ConsumerOk()
      reads this
    {
      match consumer
      case Idle => |received| == released
      case HasTail(t) => |received| == released && t == tail
      case HasHead(t, h) => |received| == released && t == tail && (h != t ==> released < |accepted|)
      case HasKind(t, k) => |received| == released && t == tail && released < |accepted| && k == accepted[released].kind
      case HasSource(t, k, s) =>
        && |received| == released && t == tail && released < |accepted|
        && k == accepted[released].kind && s == accepted[released].source
      case HasEvent(t, e) => |received| == released && t == tail && released < |accepted| && e == accepted[released]
      case Advanced(e) => |received| + 1 == released <= |accepted| && e == accepted[|received|]
    }

    ghost predicate Valid()
      reads this, slots
    {
      && slots.Length == CAPACITY && Holds(slots[..], accepted, released)
      && released <= |accepted| <= released + CAPACITY - 1
      && head == |accepted| % CAPACITY && tail == released % CAPACITY
      && pushed == |accepted| && popped == |received| <= |accepted|
      && received == accepted[..|received|]
      && ConsumerOk()
    }

    constructor ()
      ensures Valid() && fresh(slots) && accepted == [] && dropped == 0
    {
      slots := new Event[CAPACITY];
      head, tail, pushed, dropped, popped, consumer := 0, 0, 0, 0, 0, Idle;
      accepted, released, received := [], 0, [];
      new;
      assert Holds(slots[..], [], 0);
    }

    /** An interrupt handler's push. It is dropped only when 255 events are outstanding. */
    method Push(e: Event) returns (ok: bool)
      requires Valid()
      modifies this`head, this`pushed, this`dropped, this`accepted, slots
      ensures Valid()
      ensures ok <==> e.kind != NONE && |old(accepted)| - released < CAPACITY - 1
      ensures accepted == if ok then old(accepted) + [e] else old(accepted)
      ensures dropped == old(dropped) + if e.kind != NONE && !ok then 1 else 0
    {
      if e.kind == NONE { return false; }
      FullIs(released, |accepted|);
      NextIndex(|accepted|);
      var next := (head + 1) % CAPACITY;
      if next == tail {
        dropped := dropped + 1;
        return false;
      }
      PushHolds(slots[..], accepted, released, e);
      ghost var before := slots[..];
      slots[head] := e;
      assert slots[..] == before[head := e];
      head := next;
      pushed := pushed + 1;
      accepted := accepted + [e];
      return true;
    }

    /** One instruction of the main loop's pop: `done` when it returns, `ok` when it returns an event. */
    method PopStep() returns (done: bool, ok: bool)
      requires Valid()
      modifies this`tail, this`popped, this`consumer, this`released, this`received
      ensures Valid()
      ensures ok <==> old(consumer).Advanced?
      ensures done <==> ok || (old(consumer).HasHead? && old(consumer).head == old(consumer).tail)
      ensures Stage(consumer) == if done then 0 else Stage(old(consumer)) + 1
      ensures old(consumer).HasTail? ==> (consumer.head == consumer.tail <==> released == |accepted|)
      ensures released == old(released) + if old(consumer).HasEvent? then 1 else 0
      ensures received == if ok then old(received) + [accepted[|old(received)|]] else old(received)
    {
      done, ok := false, false;
      assert released < |accepted| ==> SlotOk(slots[..], accepted, released);
      FullIs(released, |accepted|);
      match consumer {
        case Idle =>
          consumer := HasTail(tail);
        case HasTail(t) =>
          consumer := HasHead(t, head);
        case HasHead(t, h) =>
          if t == h {
            consumer := Idle;
            done := true;
          } else {
            consumer := HasKind(t, slots[t].kind);
          }
        case HasKind(t, k) =>
          consumer := HasSource(t, k, slots[t].source);
        case HasSource(t, k, s) =>
          consumer := HasEvent(t, Event(k, s, slots[t].data));
        case HasEvent(t, e) =>
          ReleaseHolds(slots[..], accepted, released);
          NextIndex(released);
          released := released + 1;
          tail := (t + 1) % CAPACITY;
          consumer := Advanced(e);
        case Advanced(e) =>
          popped := popped + 1;
          received := received + [e];
          consumer := Idle;
          done, ok := true, true;
      }
    }

    /** A whole pop, with any events pushed before each of its instructions. */
    method Pop(interrupts: seq<seq<Event>>) returns (ok: bool)
      requires Valid() && consumer == Idle
      modifies this`head, this`tail, this`pushed, this`dropped, this`popped, this`consumer,
               this`accepted, this`released, this`received, slots
      ensures Valid() && consumer == Idle && old(accepted) <= accepted
      ensures |old(received)| < |old(accepted)| ==> ok
      ensures if ok then |old(received)| < |accepted| && received == old(received) + [accepted[|old(received)|]]
              else received == old(received)
    {
      ok := false;
      var done, i := false, 0;
      ghost var start := released;
      while !done
        invariant Valid() && old(accepted) <= accepted && (done ==> consumer == Idle)
        invariant !done ==>
          received == old(received) && Stage(consumer) == i <= 6 && released == start + if i == 6 then 1 else 0
        invariant start < |old(accepted)| && consumer.HasHead? ==> consumer.head != consumer.tail
        invariant done && start < |old(accepted)| ==> ok
        invariant done ==>
          if ok then |old(received)| < |accepted| && received == old(received) + [accepted[|old(received)|]]
          else received == old(received)
        decreases !done, 7 - i
      {
        if i < |interrupts| { PushAll(interrupts[i]); }
        done, ok := PopStep();
        i := i + 1;
      }
    }

    method PushAll(events: seq<Event>)
      requires Valid()
      modifies this`head, this`pushed, this`dropped, this`accepted, slots
      ensures Valid() && old(accepted) <= accepted
    {
      var i := 0;
      while i < |events|
        invariant i <= |events| && Valid() && old(accepted) <= accepted
      {
        var ok := Push(events[i]);
        i := i + 1;
      }
    }

    /** The outstanding events, from the two indices. */
    method Count() returns (n: nat)
      requires Valid()
      ensures n == |accepted| - released
      ensures consumer == Idle ==> pushed == popped + n
    {
      CountIs(released, |accepted|);
      n := if head >= tail then head - tail else CAPACITY - tail + head;
    }

    /** Every interleaving of pushes with the instructions of pops keeps the events in order. */
    method Run(steps: seq<Step>)
      requires Valid()
      modifies this`head, this`tail, this`pushed, this`dropped, this`popped, this`consumer,
               this`accepted, this`released, this`received, slots
      ensures Valid() && received <= accepted
      ensures old(accepted) <= accepted && old(received) <= received
    {
      var i := 0;
      while i < |steps|
        invariant i <= |steps| && Valid()
        invariant old(accepted) <= accepted && old(received) <= received
      {
        match steps[i] {
          case Interrupt(e) => var ok := Push(e);
          case Instruction => var done, ok := PopStep();
        }
        i := i + 1;
      }
    }
  }

  lemma CountIs(released: nat, accepted: nat)
    requires released <= accepted < released + CAPACITY
    ensures var h, t := accepted % CAPACITY, released % CAPACITY;
      accepted - released == if h >= t then h - t else CAPACITY - t + h
  {}
}
