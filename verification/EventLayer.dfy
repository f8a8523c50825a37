/** The event layer's counters and wait queues, updated in place: handling an
    event, and the sections of the wait call. */
module EventLayer {
  import opened Schedule
  import opened WaitQueues
  import opened KernelEvents
  import opened Scheduler

  /** Some threads of queue `kind` are awake; waking the rest leads to `goal`. */
  ghost predicate Waking(lists0: seq<seq<nat>>, lists: seq<seq<nat>>, kind: nat, s: Sched, goal: Sched) {
    kind < |lists| == |lists0| && lists == lists0[kind := lists[kind]] && WakeAll(s, lists[kind]) == goal
  }

  lemma WakingNext(lists0: seq<seq<nat>>, lists: seq<seq<nat>>, kind: nat, s: Sched, goal: Sched)
    requires Waking(lists0, lists, kind, s, goal)
    ensures lists[kind] != [] ==>
      Waking(lists0, lists[kind := lists[kind][1..]], kind, Wake(s, lists[kind][0]), goal)
  {}

  class Notifier {
    var counts: seq<nat>             // handled events, by type
    const queues: seq<WaitQueue>     // waiting threads, by type

    /** Four queues that share nothing. */
    ghost predicate Valid()
      reads this, queues, set q | q in queues :: q.ids
    {
      && |counts| == |queues| == TYPES && (forall t | 0 <= t < TYPES :: queues[t].Valid())
      && (forall t, u | 0 <= t < u < TYPES :: queues[t] != queues[u] && queues[t].ids != queues[u].ids)
    }

    ghost function Lists(): (r: seq<seq<nat>>)
      reads queues
      requires |queues| == TYPES
      ensures |r| == TYPES && forall t | 0 <= t < TYPES :: r[t] == queues[t].list
    {
      [queues[0].list, queues[1].list, queues[2].list, queues[3].list]
    }

    /** The state of the event layer with that of the scheduler and of the threads inside the wait call. */
    ghost function View(s: Sched, pcs: seq<Pc>): System
      reads this, queues
      requires |queues| == TYPES
    {
      System(s, counts, Lists(), pcs)
    }

    constructor ()
      ensures Valid() && counts == [0, 0, 0, 0] && Lists() == [[], [], [], []]
    {
      var qs := FourQueues();
      counts, queues := [0, 0, 0, 0], qs;
    }

    static method FourQueues() returns (qs: seq<WaitQueue>)
      ensures |qs| == TYPES && (forall t | 0 <= t < TYPES :: qs[t].Valid() && qs[t].list == [])
      ensures forall t, u | 0 <= t < u < TYPES :: qs[t] != qs[u] && qs[t].ids != qs[u].ids
    {
      qs := [];
      for n := 0 to TYPES
        invariant |qs| == n && (forall t | 0 <= t < n :: qs[t].Valid() && qs[t].list == [])
        invariant forall t, u | 0 <= t < u < n :: qs[t] != qs[u] && qs[t].ids != qs[u].ids
      {
        var q := new WaitQueue();
        qs := qs + [q];
      }
    }

    method Push(kind: nat, id: nat)
      requires Valid() && kind < TYPES
      modifies queues[kind], queues[kind].ids
      ensures Valid() && Lists() == old(Lists())[kind := PushId(old(Lists())[kind], id)]
    {
      queues[kind].Push(id);
    }

    method PushIfAbsent(kind: nat, id: nat)
      requires Valid() && kind < TYPES
      modifies queues[kind], queues[kind].ids
      ensures Valid() && Lists() == old(Lists())[kind := PushId(old(Lists())[kind], id)]
    {
      var present := queues[kind].Contains(id);
      if !present { Push(kind, id); }
    }

    method Pop(kind: nat) returns (id: nat)
      requires Valid() && kind < TYPES
      modifies queues[kind], queues[kind].ids
      ensures Valid() && Lists() == old(Lists())[kind := Lists()[kind]]
      ensures if old(Lists())[kind] == [] then id == 0 && Lists()[kind] == []
              else id != 0 && old(Lists())[kind] == [id] + Lists()[kind]
    {
      id := queues[kind].Pop();
    }

    /** Wakes the first thread queued for a type, if there is one. */
    method WakeFirstOf(kind: nat, sched: Threads) returns (more: bool)
      requires Valid() && sched.Valid() && kind < TYPES
      modifies queues[kind], queues[kind].ids, sched
      ensures Valid() && sched.Valid() && (more <==> old(Lists())[kind] != [])
      ensures more ==> Lists() == old(Lists())[kind := old(Lists())[kind][1..]]
      ensures more ==> sched.spec == Wake(old(sched.spec), old(Lists())[kind][0])
      ensures !more ==> Lists() == old(Lists()) && sched.spec == old(sched.spec)
    {
      var tid := Pop(kind);
      more := tid != 0;
      if more { var woken := sched.WakeBlocked(tid); }
    }

    /** Wakes every thread queued for a type, first come first served. */
    method WakeWaiters(kind: nat, sched: Threads)
      requires Valid() && sched.Valid() && kind < TYPES
      modifies queues[kind], queues[kind].ids, sched
      ensures Valid() && sched.Valid()
      ensures ValidKind(kind) ==>
        Lists() == old(Lists())[kind := []] && sched.spec == WakeAll(old(sched.spec), old(Lists())[kind])
      ensures !ValidKind(kind) ==> Lists() == old(Lists()) && sched.spec == old(sched.spec)
    {
      if !ValidKind(kind) { return; }
      ghost var lists, goal := Lists(), WakeAll(sched.spec, Lists()[kind]);
      var more := true;
      while more
        invariant Valid() && sched.Valid() && Waking(lists, Lists(), kind, sched.spec, goal)
        invariant !more ==> Lists()[kind] == []
        decreases |Lists()[kind]|, more
      {
        WakingNext(lists, Lists(), kind, sched.spec, goal);
        more := WakeFirstOf(kind, sched);
      }
    }

    /** Counts a handled event and notifies its waiters: one step of the state machine. */
    method HandleEvent(kind: nat, sched: Threads, ghost pcs: seq<Pc>)
      requires Valid() && sched.Valid() && SystemOk(View(sched.spec, pcs))
      requires Enabled(View(sched.spec, pcs), Handle(kind))
      modifies this`counts, queues[kind], queues[kind].ids, sched
      ensures Valid() && sched.Valid()
      ensures View(sched.spec, pcs) == Next(old(View(sched.spec, pcs)), Handle(kind))
    {
      counts := counts[kind := counts[kind] + 1];
      WakeWaiters(kind, sched);
    }

    // ---- The wait call, section by section ----

    /** The count that a waiting thread looks at before it queues itself. */
    method Observe(kind: nat, sched: Threads, ghost pcs: seq<Pc>) returns (before: nat, ghost pcs': seq<Pc>)
      requires Valid() && sched.Valid() && SystemOk(View(sched.spec, pcs))
      requires Enabled(View(sched.spec, pcs), KernelEvents.Look(kind))
      ensures View(sched.spec, pcs') == Next(View(sched.spec, pcs), KernelEvents.Look(kind))
      ensures before == counts[kind] && pcs'[sched.current] == Observed(kind, before)
    {
      before := counts[kind];
      pcs' := pcs[sched.current := Observed(kind, before)];
    }

    /** Queues the current thread unless the count has changed; then the wait returns. */
    method EnqueueSelf(kind: nat, before: nat, sched: Threads, ghost pcs: seq<Pc>)
      returns (done: bool, ghost pcs': seq<Pc>)
      requires Valid() && sched.Valid() && kind < TYPES
      requires |pcs| == MAX_THREADS && pcs[sched.current] == Observed(kind, before)
      modifies queues[kind], queues[kind].ids
      ensures Valid() && View(sched.spec, pcs') == AfterEnqueue(old(View(sched.spec, pcs)))
      ensures done <==> pcs'[sched.current].Outside?
    {
      if counts[kind] != before { return true, pcs[sched.current := Outside]; }
      Push(kind, sched.threads[sched.current].id);
      return false, pcs[sched.current := Enqueued(kind, before)];
    }

    /** Makes sure that the current thread is queued, and blocks it. */
    method ParkSelf(kind: nat, before: nat, sched: Threads, ghost pcs: seq<Pc>) returns (ghost pcs': seq<Pc>)
      requires Valid() && sched.Valid() && kind < TYPES && sched.threads[sched.current].status == Running
      requires |pcs| == MAX_THREADS && pcs[sched.current] == Enqueued(kind, before)
      modifies queues[kind], queues[kind].ids, sched`threads, sched`g, sched`spec
      ensures Valid() && sched.Valid() && View(sched.spec, pcs') == AfterPark(old(View(sched.spec, pcs)))
    {
      PushIfAbsent(kind, sched.threads[sched.current].id);
      sched.BlockCurrent();
      pcs' := pcs[sched.current := Parked(kind, before)];
    }

    /** After the thread runs again: the wait returns if the count has changed, and starts over otherwise. */
    method CheckAgain(kind: nat, before: nat, sched: Threads, ghost pcs: seq<Pc>)
      returns (done: bool, ghost pcs': seq<Pc>)
      requires Valid() && sched.Valid() && SystemOk(View(sched.spec, pcs)) && pcs[sched.current] == Parked(kind, before)
      requires Enabled(View(sched.spec, pcs), Recheck) && kind < TYPES
      ensures View(sched.spec, pcs') == Next(View(sched.spec, pcs), Recheck)
      ensures (done <==> counts[kind] != before) && (done <==> pcs'[sched.current].Outside?)
    {
      assert WaiterOk(View(sched.spec, pcs), sched.current);
      done := counts[kind] != before;
      pcs' := pcs[sched.current := if done then Outside else Observed(kind, counts[kind])];
    }
  }

  /** The event layer and the scheduler as they start: the invariant of the state machine holds. */
  method Boot(timerHz: nat, quantumTicks: nat) returns (events: Notifier, sched: Threads)
    requires quantumTicks > 0
    ensures events.Valid() && sched.Valid() && sched.spec == Start(timerHz, quantumTicks)
    ensures SystemOk(events.View(sched.spec, seq(MAX_THREADS, _ => Outside)))
  {
    events := new Notifier();
    sched := new Threads(timerHz, quantumTicks);
    InitialOk(timerHz, quantumTicks);
  }
}
