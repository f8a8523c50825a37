/** Waiting for kernel events: sequence counters, wait queues and the threads
    inside the wait call, as a state machine over the scheduler. */
module KernelEvents {
  import opened Counting
  import opened Schedule
  import opened WaitQueues

  const TYPES: nat := 4

  /** Where a thread stands inside the wait call: the type it waits for and the count it saw. */
  datatype Pc = Outside | Observed(kind: nat, seen: nat) | Enqueued(kind: nat, seen: nat) | Parked(kind: nat, seen: nat)

  datatype System = System(s: Sched, counts: seq<nat>, queues: seq<seq<nat>>, pcs: seq<Pc>)

  predicate Shape(k: System) {
    |k.counts| == |k.queues| == TYPES && |k.pcs| == |k.s.threads| == MAX_THREADS
  }

  predicate ValidKind(t: nat) { 0 < t < TYPES }

  predicate Exists(k: System, i: nat) { i < |k.s.threads| && k.s.threads[i].status != Free }

  predicate InQueue(k: System, t: nat, i: nat) {
    t < |k.queues| && i < |k.s.threads| && k.s.threads[i].id in k.queues[t]
  }

  /** Thread `i` runs and is the current one. */
  predicate Executes(k: System, i: nat) { i == k.s.current < |k.s.threads| && k.s.threads[i].status == Running }

  /** A thread inside the wait call has a sound view of its event type: either
      nothing has happened since it looked and it is queued, or it will see that something has. */
  predicate WaiterOk(k: System, i: nat) {
    Shape(k) && i < MAX_THREADS &&
    match k.pcs[i]
    case Outside => true
    case Observed(t, n) => ValidKind(t) && Executes(k, i) && i != 0 && k.counts[t] == n
    case Enqueued(t, n) => ValidKind(t) && Executes(k, i) && i != 0 && k.counts[t] == n && InQueue(k, t, i)
    case Parked(t, n) =>
      && ValidKind(t) && i != 0
      && k.s.threads[i].status != Free && k.s.threads[i].status != Zombie && k.s.threads[i].status != Sleeping
      && (if InQueue(k, t, i) then k.counts[t] == n else k.counts[t] > n && k.s.threads[i].status != Blocked)
  }

  /** The thread that entry `j` of queue `t` names. */
  function Waiter(k: System, t: nat, j: nat): nat
    requires t < |k.queues| && j < |k.queues[t]|
  {
    var r := FindFrom(k.s.threads, k.queues[t][j], 0);
    if r.Some? then r.value else 0
  }

  predicate WaitsFor(pc: Pc, t: nat) { !pc.Outside? && pc.kind == t }

  /** Every queue entry is a thread that waits for that type. */
  predicate EntryOk(k: System, t: nat, j: nat) {
    && Shape(k) && t < TYPES && j < |k.queues[t]| && 0 < Waiter(k, t, j) < MAX_THREADS
    && Exists(k, Waiter(k, t, j)) && k.s.threads[Waiter(k, t, j)].id == k.queues[t][j]
    && WaitsFor(k.pcs[Waiter(k, t, j)], t)
  }

  ghost predicate SystemOk(k: System) {
    && Ok(k.s) && Shape(k)
    && (forall i: nat {:trigger WaiterOk(k, i)} | i < MAX_THREADS :: WaiterOk(k, i))
    && (forall t: nat, j: nat {:trigger EntryOk(k, t, j)} | t < TYPES && j < |k.queues[t]| :: EntryOk(k, t, j))
    && (forall t: nat {:trigger Distinct(k.queues[t])} | t < TYPES :: Distinct(k.queues[t]))
  }

  /** No thread is blocked in the wait call without being queued for an event that has not happened yet. */
  lemma NoLostWakeup(k: System, i: nat)
    requires SystemOk(k) && i < MAX_THREADS && k.pcs[i].Parked? && k.s.threads[i].status == Blocked
    ensures InQueue(k, k.pcs[i].kind, i) && k.counts[k.pcs[i].kind] == k.pcs[i].seen
  {
    assert WaiterOk(k, i);
  }

  /** A queue never fills up: there are fewer threads than slots. */
  lemma QueueFits(k: System, t: nat)
    requires SystemOk(k) && t < TYPES
    ensures |k.queues[t]| < MAX_THREADS
  {
    var q := k.queues[t];
    var slots := seq(|q|, j requires 0 <= j < |q| => Waiter(k, t, j));
    forall j: nat | j < |q| ensures 1 <= slots[j] < MAX_THREADS { assert EntryOk(k, t, j); }
    assert Distinct(k.queues[t]);
    forall a: nat, b: nat | a < b < |q| ensures Apart(slots, a, b) {
      assert Apart(q, a, b) && EntryOk(k, t, a) && EntryOk(k, t, b);
    }
    DistinctBounded(slots, 1, MAX_THREADS);
  }

  // ---- Steps ----

  datatype Action = Section(op: Op) | Look(kind: nat) | Enqueue | Park | Recheck | Handle(kind: nat)

  function WakeAll(s: Sched, q: seq<nat>): Sched
    decreases |q|
  {
    if q == [] then s else WakeAll(Wake(s, q[0]), q[1..])
  }

  /** A decision picks a thread whose process is gone, and ends it. */
  predicate Ends(k: System, op: Op)
    requires SystemOk(k)
  {
    op.Decide? && PicksDead(k.s, op.alive, op.pids)
  }

  /** The thread is inside the wait call and no event has taken it off its queue yet. */
  predicate StillQueued(k: System, i: nat) { i < |k.pcs| && !k.pcs[i].Outside? && InQueue(k, k.pcs[i].kind, i) }

  /** A section may end a thread only if the old thread has exited and the one it ends is not queued. */
  predicate Harmless(k: System, op: Op)
    requires SystemOk(k)
  {
    Alive(k.s, op) && (Ends(k, op) ==> !StillQueued(k, Picked(k.s, op.pids)))
  }

  /** The first ready thread when a decision is made. */
  function Picked(s: Sched, pids: set<nat>): (i: nat)
    requires Ok(s)
    ensures i < MAX_THREADS
  {
    PreparedOk(s, pids);
    var s1 := Queued(Prepared(s, pids));
    assert PlaceOk(s1, s1.ready[0]);
    s1.ready[0]
  }

  /** A section of the scheduler; the thread that it ends leaves the wait call. */
  function AfterSection(k: System, op: Op): System
    requires SystemOk(k)
  {
    k.(s := Step(k.s, op), pcs := if Ends(k, op) then k.pcs[Picked(k.s, op.pids) := Outside] else k.pcs)
  }

  /** What the running code may do next. Interrupts come at any time; the rest depends on where the thread stands. */
  predicate Enabled(k: System, a: Action)
    requires SystemOk(k)
  {
    var pc := k.pcs[k.s.current];
    match a
    case Section(op) =>
      && (op.Decide? ==> pc.Outside? || pc.Parked?)
      && (op.GoToSleep? || op.GoBlocked? || op.Leave? ==> pc.Outside?)
    case Look(t) => Executes(k, k.s.current) && k.s.current != 0 && pc.Outside? && ValidKind(t)
    case Enqueue => pc.Observed?
    case Park => pc.Enqueued?
    case Recheck => pc.Parked? && Executes(k, k.s.current)
    case Handle(t) => Executes(k, k.s.current) && pc.Outside? && ValidKind(t)
  }

  /** The current thread stands at `pc`, and its type is one of the queues. */
  predicate Waits(k: System) {
    Shape(k) && k.s.current < MAX_THREADS && !k.pcs[k.s.current].Outside? && k.pcs[k.s.current].kind < TYPES
  }

  /** The current thread queues itself, unless the count has changed since it looked. */
  function AfterEnqueue(k: System): System
    requires Waits(k)
  {
    var c := k.s.current;
    var pc, id := k.pcs[c], k.s.threads[c].id;
    if k.counts[pc.kind] != pc.seen then k.(pcs := k.pcs[c := Outside])
    else k.(queues := k.queues[pc.kind := PushId(k.queues[pc.kind], id)], pcs := k.pcs[c := Enqueued(pc.kind, pc.seen)])
  }

  /** The current thread makes sure that it is queued, and blocks. */
  function AfterPark(k: System): System
    requires Waits(k)
  {
    var c := k.s.current;
    var pc, id := k.pcs[c], k.s.threads[c].id;
    k.(s := Block(k.s), queues := k.queues[pc.kind := PushId(k.queues[pc.kind], id)],
       pcs := k.pcs[c := Parked(pc.kind, pc.seen)])
  }

  function Next(k: System, a: Action): System
    requires SystemOk(k) && Enabled(k, a)
  {
    var c := k.s.current;
    var pc := k.pcs[c];
    assert WaiterOk(k, c);
    match a
    case Section(op) => AfterSection(k, op)
    case Look(t) => k.(pcs := k.pcs[c := Observed(t, k.counts[t])])
    case Enqueue => AfterEnqueue(k)
    case Park => AfterPark(k)
    case Recheck =>
      if k.counts[pc.kind] != pc.seen then k.(pcs := k.pcs[c := Outside])
      else k.(pcs := k.pcs[c := Observed(pc.kind, k.counts[pc.kind])])
    case Handle(t) =>
      k.(s := WakeAll(k.s, k.queues[t]), counts := k.counts[t := k.counts[t] + 1], queues := k.queues[t := []])
  }

  // ---- What the scheduler does to a waiting thread ----

  /** A thread that does not put itself aside keeps its identity; it is blocked afterwards only if it was before. */
  predicate Moves(t: Thread, u: Thread) {
    && u.id == t.id
    && (t.status == Ready || t.status == Running ==> u.status == Ready || u.status == Running)
    && (t.status == Blocked ==> u.status == Blocked || u.status == Ready)
    && (t.status == Sleeping ==> u.status == Sleeping || u.status == Ready || u.status == Running)
    && (t.status == Zombie ==> u.status == Zombie || u.status == Free)
    && (t.status == Free ==> u.status == Free)
  }

  lemma {:induction false} WakeDueMoves(s: Sched, i: nat)
    requires Ok(s) && i < MAX_THREADS
    ensures |WakeDue(s).threads| == MAX_THREADS && Moves(s.threads[i], WakeDue(s).threads[i])
    ensures s.threads[i].status == Blocked ==> WakeDue(s).threads[i].status == Blocked
    ensures WakeDue(s).current == s.current
    ensures s.threads[i].status == Running ==> WakeDue(s).threads[i].status == Running
    decreases |s.sleep|
  {
    if FirstDue(s) {
      assert PlaceOk(s, i) && s.sleep[0] in s.sleep && PlaceOk(s, s.sleep[0]);
      WakeFirstOk(s);
      WakeDueMoves(WakeFirst(s), i);
    }
  }

  lemma PreparedMoves(s: Sched, pids: set<nat>, i: nat)
    requires Ok(s) && i < MAX_THREADS
    ensures |Prepared(s, pids).threads| == MAX_THREADS && Moves(s.threads[i], Prepared(s, pids).threads[i])
    ensures s.threads[i].status == Blocked ==> Prepared(s, pids).threads[i].status == Blocked
  {
    WakeDueMoves(s, i);
  }

  lemma QueuedMoves(s: Sched, i: nat)
    requires Ok(s) && i < MAX_THREADS
    ensures |Queued(s).threads| == MAX_THREADS && Moves(s.threads[i], Queued(s).threads[i])
    ensures s.threads[i].status == Blocked ==> Queued(s).threads[i].status == Blocked
  {}

  lemma SwitchMoves(s: Sched, alive: set<nat>, i: nat)
    requires Ok(s) && s.ready != [] && s.ready[0] < MAX_THREADS && i < MAX_THREADS
    requires DeadNext(s, alive) ==> i != s.ready[0] && i != s.current
    ensures |Switch(s, alive).threads| == MAX_THREADS && Moves(s.threads[i], Switch(s, alive).threads[i])
    ensures s.threads[i].status == Blocked ==> Switch(s, alive).threads[i].status == Blocked
  {
    assert s.ready[0] in s.ready && PlaceOk(s, s.ready[0]);
  }

  lemma DecideMoves(s: Sched, alive: set<nat>, pids: set<nat>, i: nat)
    requires Ok(s) && i < MAX_THREADS && (PicksDead(s, alive, pids) ==> i != Picked(s, pids) && i != s.current)
    ensures |Process(s, alive, pids).threads| == MAX_THREADS && Moves(s.threads[i], Process(s, alive, pids).threads[i])
    ensures s.threads[i].status == Blocked ==> Process(s, alive, pids).threads[i].status == Blocked
  {
    PreparedMoves(s, pids, i);
    PreparedOk(s, pids);
    WakeDueZombies(s, i);
    var s1 := Prepared(s, pids);
    if Decides(s1) {
      QueuedMoves(s1, i);
      SwitchMoves(Queued(s1), alive, i);
    }
  }

  /** The sections that thread code and interrupts may run while thread `i` waits. */
  predicate NotLeaving(s: Sched, op: Op, i: nat) {
    op.GoToSleep? || op.GoBlocked? || op.Leave? ==> i != s.current
  }

  lemma StepMoves(s: Sched, op: Op, i: nat)
    requires Ok(s) && i < MAX_THREADS && NotLeaving(s, op, i) && s.threads[i].status != Free
    requires op.Decide? && PicksDead(s, op.alive, op.pids) ==> i != Picked(s, op.pids) && i != s.current
    ensures |Step(s, op).threads| == MAX_THREADS && Moves(s.threads[i], Step(s, op).threads[i])
    ensures !op.Decide? && !op.GoToSleep? && !op.GoBlocked? && !op.Leave? && s.threads[i].status == Running ==>
      Step(s, op).threads[i].status == Running && Step(s, op).current == s.current
  {
    match op
    case Decide(alive, pids) => DecideMoves(s, alive, pids, i);
    case Spawn(pid, heap) => FreeFromIs(s.threads, 1);
    case _ =>
  }

  // ---- The invariant is kept ----

  /** A thread inside the wait call keeps a sound view through any section. */
  lemma SectionWaiter(k: System, op: Op, i: nat)
    requires SystemOk(k) && Enabled(k, Section(op)) && Harmless(k, op) && i < MAX_THREADS
    ensures WaiterOk(AfterSection(k, op), i)
  {
    var k' := AfterSection(k, op);
    StepOk(k.s, op);
    assert WaiterOk(k, i) && WaiterOk(k, k.s.current);
    if !k'.pcs[i].Outside? { StepMoves(k.s, op, i); }
  }

  lemma SectionEntry(k: System, op: Op, t: nat, j: nat)
    requires SystemOk(k) && Enabled(k, Section(op)) && Harmless(k, op) && t < TYPES && j < |k.queues[t]|
    ensures EntryOk(AfterSection(k, op), t, j)
  {
    assert EntryOk(k, t, j);
    var i, k' := Waiter(k, t, j), AfterSection(k, op);
    assert WaiterOk(k, i);
    StepOk(k.s, op);
    StepMoves(k.s, op, i);
    FindIs(k'.s, i, 0);
  }

  /** A section keeps the invariant exactly if it is harmless. */
  lemma SectionOk(k: System, op: Op)
    requires SystemOk(k) && Enabled(k, Section(op))
    ensures SystemOk(AfterSection(k, op)) <==> Harmless(k, op)
  {
    var k' := AfterSection(k, op);
    StepOk(k.s, op);
    if Harmless(k, op) {
      forall i: nat | i < MAX_THREADS ensures WaiterOk(k', i) { SectionWaiter(k, op, i); }
      forall t: nat, j: nat | t < TYPES && j < |k'.queues[t]| ensures EntryOk(k', t, j) { SectionEntry(k, op, t, j); }
      forall t: nat | t < TYPES ensures Distinct(k'.queues[t]) { assert Distinct(k.queues[t]); }
    } else if Alive(k.s, op) {
      EndsQueued(k, op);
    }
  }

  /** The picked thread ends as a zombie with the same number. */
  lemma EndedIs(s: Sched, alive: set<nat>, pids: set<nat>)
    requires Ok(s) && PicksDead(s, alive, pids)
    ensures var i, u := Picked(s, pids), Process(s, alive, pids).threads;
      |u| == MAX_THREADS && u[i].status == Zombie && u[i].id == s.threads[i].id
  {
    PreparedOk(s, pids);
    PreparedMoves(s, pids, Picked(s, pids));
  }

  /** A queue entry of a thread that ended names no waiting thread. */
  lemma EndsQueued(k: System, op: Op)
    requires SystemOk(k) && Ends(k, op) && Alive(k.s, op) && StillQueued(k, Picked(k.s, op.pids))
    ensures !SystemOk(AfterSection(k, op))
  {
    var i, k' := Picked(k.s, op.pids), AfterSection(k, op);
    assert WaiterOk(k, i);
    var t := k.pcs[i].kind;
    var j: nat :| j < |k.queues[t]| && k.queues[t][j] == k.s.threads[i].id;
    StepOk(k.s, op);
    EndedIs(k.s, op.alive, op.pids);
    FindIs(k'.s, i, 0);
    assert !EntryOk(k', t, j);
  }

  /** Steps of the current thread that leave the scheduler and the queues alone. */
  lemma PcOk(k: System, pc: Pc)
    requires SystemOk(k) && var k' := k.(pcs := k.pcs[k.s.current := pc]); WaiterOk(k', k.s.current)
    requires pc.Outside? ==> forall t: nat | t < TYPES :: k.s.threads[k.s.current].id !in k.queues[t]
    requires !pc.Outside? ==> forall t: nat | t < TYPES && k.s.threads[k.s.current].id in k.queues[t] :: WaitsFor(pc, t)
    ensures SystemOk(k.(pcs := k.pcs[k.s.current := pc]))
  {
    var c, k' := k.s.current, k.(pcs := k.pcs[k.s.current := pc]);
    forall i: nat | i < MAX_THREADS ensures WaiterOk(k', i) { assert WaiterOk(k, i); }
    forall t: nat, j: nat | t < TYPES && j < |k'.queues[t]| ensures EntryOk(k', t, j) {
      assert EntryOk(k, t, j) && k.queues[t][j] in k.queues[t];
      assert Waiter(k', t, j) == Waiter(k, t, j);
    }
    forall t: nat | t < TYPES ensures Distinct(k'.queues[t]) { assert Distinct(k.queues[t]); }
  }

  /** A thread is queued only for the type it waits for. */
  lemma QueuedOnce(k: System, i: nat, t: nat)
    requires SystemOk(k) && i < MAX_THREADS && Exists(k, i) && t < TYPES && k.s.threads[i].id in k.queues[t]
    ensures WaitsFor(k.pcs[i], t)
  {
    var j: nat :| j < |k.queues[t]| && k.queues[t][j] == k.s.threads[i].id;
    assert EntryOk(k, t, j);
    FindIs(k.s, i, 0);
  }

  lemma PushDistinct(q: seq<nat>, id: nat)
    requires Distinct(q)
    ensures Distinct(PushId(q, id))
  {
    var r := PushId(q, id);
    forall j: nat, k: nat | j < k < |r| ensures Apart(r, j, k) { assert k < |q| ==> Apart(q, j, k); }
  }

  /** The current thread is queued for type `t` and stands at `pc`. */
  function Pushed(k: System, t: nat, pc: Pc): System
    requires Shape(k) && t < TYPES && k.s.current < MAX_THREADS
  {
    var c := k.s.current;
    k.(queues := k.queues[t := PushId(k.queues[t], k.s.threads[c].id)], pcs := k.pcs[c := pc])
  }

  /** Queueing the current thread for the type it waits for, and moving it on to `pc`. */
  lemma PushOk(k: System, t: nat, pc: Pc)
    requires SystemOk(k) && ValidKind(t) && Exists(k, k.s.current) && k.s.current != 0
    requires WaitsFor(k.pcs[k.s.current], t) && WaitsFor(pc, t)
    requires WaiterOk(Pushed(k, t, pc), k.s.current)
    ensures SystemOk(Pushed(k, t, pc))
  {
    var c, id := k.s.current, k.s.threads[k.s.current].id;
    var k' := Pushed(k, t, pc);
    forall i: nat | i < MAX_THREADS ensures WaiterOk(k', i) {
      assert WaiterOk(k, i) && IdsApart(k.s, i, c);
    }
    forall u: nat, j: nat | u < TYPES && j < |k'.queues[u]| ensures EntryOk(k', u, j) {
      if j < |k.queues[u]| {
        assert EntryOk(k, u, j) && Waiter(k', u, j) == Waiter(k, u, j);
        if Waiter(k, u, j) == c { QueuedOnce(k, c, u); }
      } else {
        FindIs(k.s, c, 0);
      }
    }
    forall u: nat | u < TYPES ensures Distinct(k'.queues[u]) {
      assert Distinct(k.queues[u]);
      PushDistinct(k.queues[u], id);
    }
  }

  /** What waking a list of threads does to thread `i`. */
  predicate Woken(t: Thread, u: Thread, q: seq<nat>) {
    u == if t.status == Blocked && t.id in q then t.(status := Ready) else t
  }

  lemma WakeOne(s: Sched, id: nat, i: nat)
    requires Ok(s) && i < MAX_THREADS
    ensures |Wake(s, id).threads| == MAX_THREADS && Woken(s.threads[i], Wake(s, id).threads[i], [id])
    ensures Wake(s, id).current == s.current
  {
    if s.threads[i].status != Free && s.threads[i].id == id { FindIs(s, i, 0); }
  }

  lemma {:induction false} WakeAllOk(s: Sched, q: seq<nat>)
    requires Ok(s)
    ensures Ok(WakeAll(s, q)) && WakeAll(s, q).current == s.current && s.ready <= WakeAll(s, q).ready
    decreases |q|
  {
    if q != [] {
      WakeOk(s, q[0]);
      WakeAllOk(Wake(s, q[0]), q[1..]);
    }
  }

  lemma {:induction false} WakeAllIs(s: Sched, q: seq<nat>, i: nat)
    requires Ok(s) && i < MAX_THREADS
    ensures |WakeAll(s, q).threads| == MAX_THREADS && Woken(s.threads[i], WakeAll(s, q).threads[i], q)
    decreases |q|
  {
    if q != [] {
      WakeOk(s, q[0]);
      WakeOne(s, q[0], i);
      WakeAllIs(Wake(s, q[0]), q[1..], i);
    }
  }

  /** The blocked threads that a queue names, in its order. */
  function InOrder(s: Sched, q: seq<nat>): seq<nat> {
    if q == [] then []
    else
      var t := FindFrom(s.threads, q[0], 0);
      (if t.Some? && s.threads[t.value].status == Blocked then [t.value] else []) + InOrder(s, q[1..])
  }

  lemma {:induction false} InOrderSame(s: Sched, id: nat, q: seq<nat>)
    requires Ok(s) && id !in q
    ensures InOrder(Wake(s, id), q) == InOrder(s, q)
  {
    if q != [] {
      InOrderSame(s, id, q[1..]);
      FindSame(s, id, q[0], 0);
    }
  }

  lemma {:induction false} FindSame(s: Sched, id: nat, x: nat, i: nat)
    requires Ok(s) && x != id && i <= MAX_THREADS
    ensures |Wake(s, id).threads| == MAX_THREADS && FindFrom(Wake(s, id).threads, x, i) == FindFrom(s.threads, x, i)
    ensures forall j | 0 <= j < MAX_THREADS && s.threads[j].id == x :: Wake(s, id).threads[j] == s.threads[j]
    decreases MAX_THREADS - i
  {
    if i < MAX_THREADS { FindSame(s, id, x, i + 1); }
  }

  /** Threads are woken first come first served. */
  lemma {:induction false} WakeAllOrder(s: Sched, q: seq<nat>)
    requires Ok(s) && Distinct(q)
    ensures WakeAll(s, q).ready == s.ready + InOrder(s, q)
    decreases |q|
  {
    if q != [] {
      var rest := q[1..];
      forall j: nat | j < |rest| ensures rest[j] != q[0] { assert Apart(q, 0, j + 1); }
      forall j: nat, k: nat | j < k < |rest| ensures Apart(rest, j, k) { assert Apart(q, j + 1, k + 1); }
      WakeOk(s, q[0]);
      WakeAllOrder(Wake(s, q[0]), rest);
      InOrderSame(s, q[0], rest);
    }
  }

  /** Handling one event of a type empties its queue, and every thread that waited will see the new count. */
  lemma HandleOk(k: System, t: nat)
    requires SystemOk(k) && Enabled(k, Handle(t))
    ensures SystemOk(Next(k, Handle(t)))
  {
    var k', q := Next(k, Handle(t)), k.queues[t];
    WakeAllOk(k.s, q);
    forall i: nat | i < MAX_THREADS ensures WaiterOk(k', i) {
      assert WaiterOk(k, i);
      WakeAllIs(k.s, q, i);
    }
    forall u: nat, j: nat | u < TYPES && j < |k'.queues[u]| ensures EntryOk(k', u, j) {
      assert EntryOk(k, u, j);
      WakeAllIs(k.s, q, Waiter(k, u, j));
      FindIs(k'.s, Waiter(k, u, j), 0);
    }
    forall u: nat | u < TYPES ensures Distinct(k'.queues[u]) { assert Distinct(k.queues[u]); }
  }

  /** After that, every thread parked for the type is ready or running, and its wait returns 1. */
  lemma HandleWakes(k: System, t: nat, i: nat)
    requires SystemOk(k) && Enabled(k, Handle(t)) && i < MAX_THREADS && k.pcs[i].Parked? && k.pcs[i].kind == t
    ensures var k' := Next(k, Handle(t));
      && k'.queues[t] == [] && k'.pcs[i] == k.pcs[i] && k'.counts[t] != k.pcs[i].seen
      && |k'.s.threads| == MAX_THREADS && (k'.s.threads[i].status == Ready || k'.s.threads[i].status == Running)
      && (k.s.threads[i].status == Blocked ==> i in k'.s.ready)
  {
    HandleOk(k, t);
    var k' := Next(k, Handle(t));
    assert WaiterOk(k, i) && WaiterOk(k', i) && PlaceOk(k'.s, i);
    WakeAllIs(k.s, k.queues[t], i);
  }

  lemma BlockWaiter(k: System)
    requires SystemOk(k) && Executes(k, k.s.current) && k.pcs[k.s.current].Parked?
    requires InQueue(k, k.pcs[k.s.current].kind, k.s.current)
    ensures SystemOk(k.(s := Block(k.s)))
  {
    var c, k' := k.s.current, k.(s := Block(k.s));
    LeaveOk(k.s);
    forall i: nat | i < MAX_THREADS ensures WaiterOk(k', i) { assert WaiterOk(k, i); }
    forall t: nat, j: nat | t < TYPES && j < |k'.queues[t]| ensures EntryOk(k', t, j) {
      assert EntryOk(k, t, j);
      FindIs(k'.s, Waiter(k, t, j), 0);
    }
    forall t: nat | t < TYPES ensures Distinct(k'.queues[t]) { assert Distinct(k.queues[t]); }
  }

  lemma WaitStepOk(k: System, a: Action)
    requires SystemOk(k) && Enabled(k, a) && (a.Look? || a.Enqueue? || a.Park? || a.Recheck?)
    ensures SystemOk(Next(k, a))
  {
    var c := k.s.current;
    var pc, id := k.pcs[c], k.s.threads[c].id;
    assert WaiterOk(k, c) && IdOk(k.s, c);
    forall t: nat | t < TYPES && id in k.queues[t] ensures WaitsFor(pc, t) { QueuedOnce(k, c, t); }
    match a
    case Look(t) => PcOk(k, Observed(t, k.counts[t]));
    case Enqueue =>
      QueueFits(k, pc.kind);
      PushOk(k, pc.kind, Enqueued(pc.kind, pc.seen));
    case Park =>
      QueueFits(k, pc.kind);
      PushOk(k, pc.kind, Parked(pc.kind, pc.seen));
      BlockWaiter(Pushed(k, pc.kind, Parked(pc.kind, pc.seen)));
    case Recheck =>
      PcOk(k, if k.counts[pc.kind] != pc.seen then Outside else Observed(pc.kind, k.counts[pc.kind]));
    case _ =>
  }

  /** The steps of the wait call: a thread that finds its count unchanged is queued, then blocked; one that finds
      it changed returns. */
  lemma WaitIs(k: System, a: Action)
    requires SystemOk(k) && Enabled(k, a) && (a.Look? || a.Enqueue? || a.Park? || a.Recheck?)
    ensures var c, k' := k.s.current, Next(k, a);
      && |k'.pcs| == |k'.s.threads| == MAX_THREADS && k'.counts == k.counts && k'.s.current == c
      && (forall i | 0 <= i < MAX_THREADS && i != c :: k'.pcs[i] == k.pcs[i] && k'.s.threads[i] == k.s.threads[i])
      && (a.Look? ==> k'.pcs[c] == Observed(a.kind, k.counts[a.kind]))
      && (a.Enqueue? ==> k'.pcs[c] == Enqueued(k.pcs[c].kind, k.pcs[c].seen) && InQueue(k', k.pcs[c].kind, c))
      && (a.Park? ==>
            && k'.pcs[c] == Parked(k.pcs[c].kind, k.pcs[c].seen) && InQueue(k', k.pcs[c].kind, c)
            && k'.s.threads[c].status == Blocked && Decides(k'.s))
      && (a.Recheck? ==>
            k.pcs[c].kind < TYPES && (k'.pcs[c] == Outside <==> k.counts[k.pcs[c].kind] != k.pcs[c].seen))
  {
    var c := k.s.current;
    assert WaiterOk(k, c) && IdOk(k.s, c);
    if a.Enqueue? || a.Park? { QueueFits(k, k.pcs[c].kind); }
  }

  /** Handling an event counts it, and touches no other type. */
  lemma HandleCounts(k: System, t: nat)
    requires SystemOk(k) && Enabled(k, Handle(t))
    ensures var k' := Next(k, Handle(t));
      && |k'.counts| == |k'.queues| == TYPES && k'.counts[t] == k.counts[t] + 1 && k'.queues[t] == []
      && k'.pcs == k.pcs
      && (forall u | 0 <= u < TYPES && u != t :: k'.counts[u] == k.counts[u] && k'.queues[u] == k.queues[u])
  {}

  /** Every step keeps the invariant, so that no wakeup is lost, unless it ends a thread at the wrong time. */
  lemma NextOk(k: System, a: Action)
    requires SystemOk(k) && Enabled(k, a)
    ensures SystemOk(Next(k, a)) <==> (a.Section? ==> Harmless(k, a.op))
  {
    match a
    case Section(op) => SectionOk(k, op);
    case Handle(t) => HandleOk(k, t);
    case _ => WaitStepOk(k, a);
  }

  /** No event has been handled and no thread waits. */
  function Initial(hz: nat, quantum: nat): System {
    System(Start(hz, quantum), [0, 0, 0, 0], [[], [], [], []], seq(MAX_THREADS, _ => Outside))
  }

  lemma InitialOk(hz: nat, quantum: nat)
    requires quantum > 0
    ensures SystemOk(Initial(hz, quantum))
  {
    StartOk(hz, quantum);
    var k := Initial(hz, quantum);
    forall i: nat | i < MAX_THREADS ensures WaiterOk(k, i) {}
    forall t: nat | t < TYPES ensures k.queues[t] == [] && Distinct(k.queues[t]) {}
  }

  ghost predicate IsHistory(trace: seq<System>, actions: seq<Action>) {
    |trace| == |actions| + 1 && SystemOk(trace[0]) &&
    forall n: nat {:trigger HistoryStep(trace, actions, n)} | n < |actions| :: HistoryStep(trace, actions, n)
  }

  ghost predicate HistoryStep(trace: seq<System>, actions: seq<Action>, n: nat) {
    n < |actions| && n + 1 < |trace| &&
    (SystemOk(trace[n]) ==>
       && Enabled(trace[n], actions[n]) && (actions[n].Section? ==> Harmless(trace[n], actions[n].op))
       && trace[n + 1] == Next(trace[n], actions[n]))
  }

  /** A trace that is followed as long as the invariant holds, each step possible, is a history exactly if it
      never leaves the invariant. */
  lemma HistoryExactly(trace: seq<System>, actions: seq<Action>)
    requires |trace| == |actions| + 1 && SystemOk(trace[0])
    requires forall n: nat | n < |actions| && SystemOk(trace[n]) ::
      Enabled(trace[n], actions[n]) && trace[n + 1] == Next(trace[n], actions[n])
    ensures IsHistory(trace, actions) <==> forall n: nat | n < |trace| :: SystemOk(trace[n])
  {
    if IsHistory(trace, actions) {
      forall n: nat | n < |trace| ensures SystemOk(trace[n]) { NeverLost(trace, actions, n, 0); }
    } else {
      var n: nat :| n < |actions| && !HistoryStep(trace, actions, n);
      NextOk(trace[n], actions[n]);
      assert !SystemOk(trace[n + 1]);
    }
  }

  /** In every history, a thread blocked in the wait call is queued and no event of its type was handled since
      it looked. */
  lemma {:induction false} NeverLost(trace: seq<System>, actions: seq<Action>, n: nat, i: nat)
    requires IsHistory(trace, actions) && n < |trace|
    ensures SystemOk(trace[n])
    ensures i < MAX_THREADS && trace[n].pcs[i].Parked? && trace[n].s.threads[i].status == Blocked ==>
      InQueue(trace[n], trace[n].pcs[i].kind, i) && trace[n].counts[trace[n].pcs[i].kind] == trace[n].pcs[i].seen
    decreases n
  {
    if n > 0 {
      NeverLost(trace, actions, n - 1, i);
      assert HistoryStep(trace, actions, n - 1);
      NextOk(trace[n - 1], actions[n - 1]);
    }
    if i < MAX_THREADS && trace[n].pcs[i].Parked? && trace[n].s.threads[i].status == Blocked {
      NoLostWakeup(trace[n], i);
    }
  }
}
