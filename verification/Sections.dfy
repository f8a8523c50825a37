/** What each section of the scheduler does to the threads it is about, and how long things take: the quantum,
    sleeps, and the time until a ready thread runs. */
module Sections {
  import opened Basics
  import opened Schedule

  // ---- Single sections ----

  /** Every thread but `i` is as before. */
  ghost predicate OthersSame(s: Sched, s': Sched, i: nat) {
    |s'.threads| == |s.threads| && forall x | 0 <= x < |s.threads| && x != i :: s'.threads[x] == s.threads[x]
  }

  /** The running thread, other than thread 0, exits: it is a zombie, counted out, and a decision is due. */
  lemma ExitIs(s: Sched)
    requires Ok(s)
    ensures var s', c := Exit(s), s.current;
      if MayLeave(s)
      then
        && OthersSame(s, s', c) && s'.threads[c] == s.threads[c].(status := Zombie) && s'.g.count + 1 == s.g.count
        && Decides(s') && s'.ready == s.ready && s'.sleep == s.sleep && s'.current == c
      else s' == s
  {
    if MayLeave(s) {
      LeaveOk(s);
      LiveUpdate(s.threads, s.current, Exit(s).threads[s.current]);
    }
  }

  lemma BlockIs(s: Sched)
    requires Ok(s)
    ensures var s', c := Block(s), s.current;
      if MayLeave(s)
      then
        && OthersSame(s, s', c) && s'.threads[c] == s.threads[c].(status := Blocked) && s'.g.count == s.g.count
        && Decides(s') && s'.ready == s.ready && s'.sleep == s.sleep && s'.current == c
      else s' == s
  {}

  /** A sleeping thread that is named leaves the sleep list for the end of the ready list. */
  lemma WakeUpIs(s: Sched, i: nat)
    requires Ok(s) && i < MAX_THREADS && s.threads[i].status != Free
    ensures var s' := WakeUp(s, s.threads[i].id);
      if s.threads[i].status == Sleeping
      then
        && OthersSame(s, s', i) && s'.threads[i].status == Ready && s'.threads[i].id == s.threads[i].id
        && s'.ready == s.ready + [i] && i !in s'.sleep && Kept(s.sleep, s'.sleep, i) && Decides(s')
      else s' == s
  {
    FindIs(s, i, 0);
    assert PlaceOk(s, i);
    if s.threads[i].status == Sleeping { WithoutIs(s.sleep, IndexIn(s.sleep, i)); }
  }

  /** A blocked thread that is named goes to the end of the ready list. */
  lemma WakeIs(s: Sched, i: nat)
    requires Ok(s) && i < MAX_THREADS && s.threads[i].status != Free
    ensures var s' := Wake(s, s.threads[i].id);
      if s.threads[i].status == Blocked
      then
        && OthersSame(s, s', i) && s'.threads[i] == s.threads[i].(status := Ready)
        && s'.ready == s.ready + [i] && s'.sleep == s.sleep && Decides(s')
      else s' == s
  {
    FindIs(s, i, 0);
  }

  /** A number that no thread has wakes nobody. */
  lemma NobodyWakes(s: Sched, id: nat)
    requires Ok(s) && forall i | 0 <= i < MAX_THREADS && s.threads[i].status != Free :: s.threads[i].id != id
    ensures WakeUp(s, id) == s && Wake(s, id) == s
  {}

  /** A new thread takes the first free slot, with a number of its own, at the end of the ready list. */
  lemma CreateIs(s: Sched, pid: nat, heap: bool)
    requires Ok(s)
    ensures var s' := Create(s, pid, heap);
      if heap && exists i :: 0 < i < MAX_THREADS && s.threads[i].status == Free
      then
        exists i: nat :: 0 < i < MAX_THREADS && NewIn(s, s', pid, i)
      else s' == s
  {
    FreeFromIs(s.threads, 1);
    var slot := FreeFrom(s.threads, 1);
    if slot.Some? && heap { assert NewIn(s, Create(s, pid, heap), pid, slot.value); }
  }

  predicate NewIn(s: Sched, s': Sched, pid: nat, i: nat) {
    && i < |s.threads| == |s'.threads| && s.threads[i].status == Free
    && (forall j | 0 < j < i :: s.threads[j].status != Free)
    && s'.threads[i].status == Ready && s'.threads[i].pid == pid && s'.threads[i].id == s.g.nextId
    && s'.g.nextId == s.g.nextId + 1 && s'.g.count == s.g.count + 1
    && (forall x | 0 <= x < |s.threads| && x != i :: s'.threads[x] == s.threads[x])
    && s'.ready == s.ready + [i] && s'.sleep == s.sleep && s'.current == s.current
  }

  /** `t` ticks last at least `x` thousandths of a tick, and at most one tick more. */
  predicate Lasts(t: int, x: nat) { t >= 1 && x <= t * 1000 && (t == 1 || (t - 1) * 1000 < x) }

  /** The ticks of a sleep last at least `ms` milliseconds, and at most one tick more, if nothing wraps around. */
  lemma SleepTicksIs(ms: nat, hz: nat)
    requires ms * hz + 999 < U64
    ensures Lasts(SleepTicks(ms, hz), ms * hz)
  {
    RoundedUp(ms * hz);
  }

  lemma RoundedUp(x: nat)
    requires x + 999 < U64
    ensures var t := (x % U64 + 999) % U64 / 1000;
      x <= t * 1000 && (t == 0 || (t - 1) * 1000 < x)
  {}

  /** The running thread, other than thread 0, sleeps: it joins the sleep list, and a decision is due. */
  lemma SleepForIs(s: Sched, ms: nat, t: nat)
    requires Ok(s) && t == SleepTicks(ms, s.g.hz) && s.g.ticks + t < U64
    ensures var s', c := SleepFor(s, ms), s.current;
      if MayLeave(s)
      then
        && OthersSame(s, s', c) && s'.threads[c].status == Sleeping && s'.threads[c].id == s.threads[c].id
        && c in s'.sleep && Kept(s.sleep, s'.sleep, c) && s'.ready == s.ready && Decides(s')
        && s'.threads[c].wake == s.g.ticks + t
      else s' == s
  {
    if MayLeave(s) {
      assert PlaceOk(s, s.current);
      InsertIs(s.sleep, SleepPos(s.threads, s.sleep, SleepFor(s, ms).threads[s.current].wake), s.current);
    }
  }

  /** At the start thread 0 runs, and there is no other. */
  lemma StartIs(hz: nat, quantum: nat)
    ensures var s := Start(hz, quantum);
      && s.current == 0 && s.ready == [] && s.sleep == [] && |s.threads| == MAX_THREADS
      && s.threads[0].status == Running && s.threads[0].id == 0
      && (forall i | 0 < i < MAX_THREADS :: s.threads[i].status == Free)
      && s.g.ticks == 0 && s.g.left == s.g.quantum == quantum && s.g.hz == hz && !Decides(s) && s.g.count == 1
  {}

  // ---- The decision ----

  lemma {:induction false} WakeDueSame(s: Sched, i: nat)
    requires Ok(s) && i < MAX_THREADS
    ensures |WakeDue(s).threads| == MAX_THREADS && WakeDue(s).current == s.current
    ensures WakeDue(s).g == s.g.(wakeup := false)
    ensures i !in s.sleep ==> WakeDue(s).threads[i] == s.threads[i]
    ensures i in WakeDue(s).sleep ==> i in s.sleep && WakeDue(s).threads[i] == s.threads[i]
    decreases |s.sleep|
  {
    if FirstDue(s) {
      WakeFirstOk(s);
      PopIs(s.sleep);
      WakeDueSame(WakeFirst(s), i);
    }
  }

  /** A decision leaves nothing pending, and does not touch the time. */
  lemma DecideClears(s: Sched, alive: set<nat>, pids: set<nat>)
    requires Ok(s)
    ensures var s' := Process(s, alive, pids);
      !Decides(s') && s'.g == s.g.(resched := false, wakeup := false)
  {
    PreparedOk(s, pids);
    WakeDueSame(s, 0);
  }

  /** A decision frees the slots of exactly those zombies that are not current and whose process can be reaped. */
  lemma DecideFrees(s: Sched, alive: set<nat>, pids: set<nat>, i: nat)
    requires Ok(s) && i < MAX_THREADS && i != s.current && s.threads[i].status == Zombie
    ensures var s' := Process(s, alive, pids);
      && |s'.threads| == MAX_THREADS
      && s'.threads[i].status == if s.threads[i].pid == 0 || s.threads[i].pid in pids then Free else Zombie
  {
    PreparedOk(s, pids);
    WakeDueSame(s, i);
    assert PlaceOk(s, i);
    var s1 := Prepared(s, pids);
    if Decides(s1) { GoneSame(s1, alive, i); }
  }

  /** Picking the next thread does not touch a slot that is free or holds another zombie. */
  lemma GoneSame(s: Sched, alive: set<nat>, i: nat)
    requires Ok(s) && i < MAX_THREADS && i != s.current
    requires s.threads[i].status == Free || s.threads[i].status == Zombie
    ensures |Switch(Queued(s), alive).threads| == MAX_THREADS && Switch(Queued(s), alive).threads[i] == s.threads[i]
  {
    var s2 := Queued(s);
    assert PlaceOk(s2, i) && s2.ready[0] in s2.ready;
  }

  // ---- The quantum ----

  function Ticks(s: Sched, n: nat): Sched
    decreases n
  {
    if n == 0 then s else Ticks(Tick(s), n - 1)
  }

  /** The ticks until the quantum of the running thread is over. */
  function Remaining(s: Sched): nat { if s.g.left == 0 then 1 else s.g.left }

  /** What a tick does to the time: a decision is due at the end of the quantum and when the first sleeper is due. */
  lemma TickIs(s: Sched)
    requires Ok(s)
    ensures var s' := Tick(s);
      && s' == s.(g := s'.g) && s'.g.ticks == (s.g.ticks + 1) % U64 && s'.g.quantum == s.g.quantum
      && s'.g.hz == s.g.hz && s'.g.count == s.g.count && s'.g.nextId == s.g.nextId
      && Remaining(s') == (if Remaining(s) == 1 then s.g.quantum else Remaining(s) - 1)
      && (Decides(s') <==> Decides(s) || Remaining(s) == 1 ||
                           (s.sleep != [] && s.sleep[0] < MAX_THREADS && s.threads[s.sleep[0]].wake <= s'.g.ticks))
  {
    assert s.sleep != [] ==> Bounded(s.sleep, 0);
  }

  /** When the quantum is over a decision is due, and stays due. */
  lemma {:induction false} QuantumEnds(s: Sched, n: nat)
    requires Ok(s) && (n >= Remaining(s) || Decides(s))
    ensures Ok(Ticks(s, n)) && Decides(Ticks(s, n))
    decreases n
  {
    if n > 0 {
      TickIs(s);
      SameThreads(s, Tick(s));
      QuantumEnds(Tick(s), n - 1);
    }
  }

  // ---- Time over runs ----

  /** The timer interrupts from step `a` to step `b`. */
  function TickCount(ops: seq<Op>, a: nat, b: nat): nat
    requires a <= b <= |ops|
    decreases b - a
  {
    if a == b then 0 else (if ops[a].TimerIrq? then 1 else 0) + TickCount(ops, a + 1, b)
  }

  /** A decision follows the step, before step `b`, if it is a timer interrupt. */
  predicate Followed(ops: seq<Op>, b: nat, j: nat) {
    j < b <= |ops| && (ops[j].TimerIrq? ==> j + 1 < b && ops[j + 1].Decide?)
  }

  /** Only the timer interrupt moves the time. */
  lemma TimeSame(s: Sched, op: Op)
    requires Ok(s) && !op.TimerIrq?
    ensures Step(s, op).g.left == s.g.left && Step(s, op).g.quantum == s.g.quantum && Step(s, op).g.ticks == s.g.ticks
  {
    match op
    case Decide(alive, pids) => DecideClears(s, alive, pids);
    case _ =>
  }

  /** A decision after the end of the quantum picks a thread. */
  lemma DueDecides(s: Sched, op: Op)
    requires Ok(s) && s.g.resched && op.Decide?
    ensures Decision(s, op)
  {
    WakeDueSame(s, 0);
  }

  /** If every timer interrupt is followed by a decision, each quantum of ticks brings one that picks a thread. */
  lemma {:induction false} QuantaDecide(trace: seq<Sched>, ops: seq<Op>, a: nat, b: nat)
    requires IsRun(trace, ops) && a <= b <= |ops|
    requires forall j: nat {:trigger Followed(ops, b, j)} | a <= j < b :: Followed(ops, b, j)
    requires Remaining(trace[a]) <= trace[a].g.quantum
    ensures Remaining(trace[b]) <= trace[b].g.quantum == trace[a].g.quantum
    ensures trace[a].g.quantum * Decisions(trace, ops, a, b) + Remaining(trace[a]) >=
            TickCount(ops, a, b) + Remaining(trace[b])
    decreases b - a
  {
    if a < b {
      assert Followed(ops, b, a);
      if ops[a].TimerIrq? {
        TickThenDecide(trace, ops, a);
        QuantaDecide(trace, ops, a + 2, b);
        assert Decisions(trace, ops, a, b) ==
          (if Decided(trace, ops, a + 1) then 1 else 0) + Decisions(trace, ops, a + 2, b);
        assert TickCount(ops, a, b) == 1 + TickCount(ops, a + 2, b);
        OneMoreTick(trace[a].g.quantum, Decisions(trace, ops, a, b), Decisions(trace, ops, a + 2, b),
                    Remaining(trace[a]), Remaining(trace[a + 2]));
      } else {
        OtherStep(trace, ops, a);
        QuantaDecide(trace, ops, a + 1, b);
        Times(trace[a].g.quantum, Decisions(trace, ops, a, b), Decisions(trace, ops, a + 1, b));
      }
    }
  }

  lemma Times(q: nat, d: nat, d': nat)
    requires d' <= d <= d' + 1
    ensures q * d == q * d' + if d == d' then 0 else q
  {}

  lemma OneMoreTick(q: nat, d: nat, d': nat, r: nat, r': nat)
    requires d' <= d <= d' + 1 && r >= 1 && if r == 1 then d == d' + 1 && r' == q else r' == r - 1
    ensures q * d + r >= q * d' + r' + 1
  {
    Times(q, d, d');
  }

  lemma OtherStep(trace: seq<Sched>, ops: seq<Op>, a: nat)
    requires IsRun(trace, ops) && a < |ops| && !ops[a].TimerIrq?
    ensures trace[a + 1].g.quantum == trace[a].g.quantum && Remaining(trace[a + 1]) == Remaining(trace[a])
  {
    RunOk(trace, ops, a);
    assert RunStep(trace, ops, a);
    TimeSame(trace[a], ops[a]);
  }

  lemma TickThenDecide(trace: seq<Sched>, ops: seq<Op>, a: nat)
    requires IsRun(trace, ops) && a + 1 < |ops| && ops[a].TimerIrq? && ops[a + 1].Decide?
    ensures trace[a + 2].g.quantum == trace[a].g.quantum && !Decided(trace, ops, a)
    ensures Remaining(trace[a + 2]) == if Remaining(trace[a]) == 1 then trace[a].g.quantum else Remaining(trace[a]) - 1
    ensures Remaining(trace[a]) == 1 ==> Decided(trace, ops, a + 1)
  {
    RunOk(trace, ops, a);
    RunOk(trace, ops, a + 1);
    assert RunStep(trace, ops, a);
    TickIs(trace[a]);
    OtherStep(trace, ops, a + 1);
    if Remaining(trace[a]) == 1 { DueDecides(trace[a + 1], ops[a + 1]); }
  }

  lemma {:induction false} LessFactor(q: nat, k: nat, d: nat)
    requires q * k < q * d
    ensures k < d
  {}

  /** A ready thread with `k` threads ahead of it runs within `k + 1` quanta, if a decision follows every timer
      interrupt, unless its process is gone by then. */
  lemma FairInTime(trace: seq<Sched>, ops: seq<Op>, a: nat, b: nat, t: nat, k: nat) returns (at: nat)
    requires IsRun(trace, ops) && a <= b <= |ops| && Ahead(trace[a], t, k)
    requires forall j: nat {:trigger Followed(ops, b, j)} | a <= j < b :: Followed(ops, b, j)
    requires Remaining(trace[a]) <= trace[a].g.quantum && TickCount(ops, a, b) >= (k + 1) * trace[a].g.quantum
    ensures a < at <= b && RunsAt(trace, ops, at, t)
  {
    QuantaDecide(trace, ops, a, b);
    var q, d := trace[a].g.quantum, Decisions(trace, ops, a, b);
    assert (k + 1) * q == q * k + q;
    LessFactor(q, k, d);
    at := Fairness(trace, ops, a, b, t, k);
  }

  // ---- Sleeping over runs ----

  /** While a thread sleeps, nothing changes it. */
  lemma SleeperSame(s: Sched, op: Op, i: nat)
    requires Ok(s) && i in s.sleep && i in Step(s, op).sleep && Ok(Step(s, op))
    ensures i < MAX_THREADS && |Step(s, op).threads| == MAX_THREADS && Step(s, op).threads[i] == s.threads[i]
  {
    var k: nat :| k < |s.sleep| && s.sleep[k] == i;
    assert Bounded(s.sleep, k) && PlaceOk(s, i) && PlaceOk(Step(s, op), i);
    match op
    case Decide(alive, pids) => SleeperDecide(s, alive, pids, i);
    case Spawn(pid, heap) => FreeFromIs(s.threads, 1);
    case _ =>
  }

  lemma SleeperDecide(s: Sched, alive: set<nat>, pids: set<nat>, i: nat)
    requires Ok(s) && i < MAX_THREADS && i in Process(s, alive, pids).sleep && s.threads[i].status == Sleeping
    requires Ok(Process(s, alive, pids))
    ensures |Process(s, alive, pids).threads| == MAX_THREADS && Process(s, alive, pids).threads[i] == s.threads[i]
  {
    SameSleepers(s, alive, pids);
    WakeDueSame(s, i);
    PreparedOk(s, pids);
    var s1 := Prepared(s, pids);
    assert s1.threads[i] == s.threads[i] && PlaceOk(s1, i) && PlaceOk(s, s.current);
    if Decides(s1) {
      var s2 := Queued(s1);
      assert PlaceOk(s2, i) && s2.ready[0] in s2.ready && PlaceOk(Process(s, alive, pids), i);
    }
  }

  /** Nobody ends the sleep of the thread numbered `id` at step `j`, nor is its tick there yet. */
  predicate Undisturbed(trace: seq<Sched>, ops: seq<Op>, id: nat, wake: nat, j: nat) {
    j < |ops| && j < |trace| && trace[j].g.ticks < wake && !(ops[j].EndSleep? && ops[j].id == id)
  }

  /** A sleeper sleeps until its tick has come, unless its sleep is ended by name. */
  lemma {:induction false} SleepsOn(trace: seq<Sched>, ops: seq<Op>, a: nat, b: nat, i: nat)
    requires IsRun(trace, ops) && a <= b < |trace| && i < MAX_THREADS && |trace[a].threads| == MAX_THREADS
    requires i in trace[a].sleep
    requires forall j: nat {:trigger Undisturbed(trace, ops, trace[a].threads[i].id, trace[a].threads[i].wake, j)} |
      a <= j < b :: Undisturbed(trace, ops, trace[a].threads[i].id, trace[a].threads[i].wake, j)
    ensures i in trace[b].sleep && |trace[b].threads| == MAX_THREADS && trace[b].threads[i] == trace[a].threads[i]
    decreases b - a
  {
    if a < b {
      RunOk(trace, ops, b - 1);
      RunOk(trace, ops, b);
      SleepsOn(trace, ops, a, b - 1, i);
      assert RunStep(trace, ops, b - 1);
      assert Undisturbed(trace, ops, trace[a].threads[i].id, trace[a].threads[i].wake, b - 1);
      LeavesSleep(trace[b - 1], ops[b - 1], i);
      SleeperSame(trace[b - 1], ops[b - 1], i);
    }
  }

  /** The first decision at or after its tick makes a sleeper ready, or runs it. */
  lemma WakesInTime(s: Sched, alive: set<nat>, pids: set<nat>, i: nat)
    requires Ok(s) && i in s.sleep && i < MAX_THREADS && s.threads[i].wake <= s.g.ticks
    ensures var s' := Process(s, alive, pids);
      i !in s'.sleep && (i in s'.ready || s'.current == i || PicksDead(s, alive, pids))
  {
    WakeDueExact(s, i);
    SameSleepers(s, alive, pids);
    PreparedOk(s, pids);
    var s1 := Prepared(s, pids);
    assert i in s1.ready;
    if Decides(s1) {
      var s2 := Queued(s1);
      assert i in s2.ready;
      var k: nat :| k < |s2.ready| && s2.ready[k] == i;
      if k > 0 { assert s2.ready[1..][k - 1] == i; }
    }
  }
}
