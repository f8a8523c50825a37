/** The scheduler as a state machine: thread states, the ready and sleep
    lists, and what each uninterrupted section of the scheduler does. */
module Schedule {
  import opened Basics
  import opened Counting

  const MAX_THREADS: nat := 8

  datatype Status = Free | Ready | Running | Sleeping | Blocked | Zombie

  datatype Thread = Thread(status: Status, id: nat, pid: nat, wake: nat)

  /** Time, the quantum, the pending flags and the counters. */
  datatype Globals = Globals(
    ticks: nat, hz: nat, quantum: nat, left: nat, resched: bool, wakeup: bool, count: nat, nextId: nat)

  /** `stamps` numbers the sleeps in the order in which they began. */
  datatype Sched = Sched(
    threads: seq<Thread>, current: nat, ready: seq<nat>, sleep: seq<nat>, stamps: seq<nat>, clock: nat, g: Globals)

  // ---- Invariant, thread by thread ----

  predicate InRange(s: Sched, i: nat) { i < |s.threads| == MAX_THREADS }

  /** Each thread is in exactly the place that its state says. */
  predicate PlaceOk(s: Sched, i: nat) {
    && InRange(s, i)
    && (s.threads[i].status == Ready <==> i in s.ready)
    && (s.threads[i].status == Sleeping <==> i in s.sleep)
    && (s.threads[i].status == Running ==> i == s.current)
  }

  predicate IdOk(s: Sched, i: nat) {
    && InRange(s, i)
    && (s.threads[i].status != Free ==> s.threads[i].id < s.g.nextId && (s.threads[i].id == 0 <==> i == 0))
  }

  predicate IdsApart(s: Sched, i: nat, j: nat) {
    InRange(s, i) && InRange(s, j) &&
    (s.threads[i].status != Free && s.threads[j].status != Free && s.threads[i].id == s.threads[j].id ==> i == j)
  }

  predicate StampOk(s: Sched, i: nat) { i < |s.stamps| && s.stamps[i] < s.clock }

  /** Earlier wake ticks come first, and equal ones in the order of falling asleep. */
  predicate Precedes(s: Sched, a: nat, b: nat) {
    && a < |s.threads| == |s.stamps| && b < |s.threads|
    && (s.threads[a].wake < s.threads[b].wake || (s.threads[a].wake == s.threads[b].wake && s.stamps[a] < s.stamps[b]))
  }

  predicate SleepOrder(s: Sched, i: nat, j: nat) { i < j < |s.sleep| && Precedes(s, s.sleep[i], s.sleep[j]) }

  predicate Bounded(list: seq<nat>, k: nat) { k < |list| && list[k] < MAX_THREADS }

  /** A list of threads, each at most once. */
  ghost predicate ListOk(list: seq<nat>) {
    && (forall k: nat {:trigger Bounded(list, k)} | k < |list| :: Bounded(list, k))
    && Distinct(list)
  }

  /** Threads that exist and have not exited. */
  function Live(threads: seq<Thread>): nat {
    if threads == [] then 0
    else Live(threads[1..]) + if threads[0].status == Free || threads[0].status == Zombie then 0 else 1
  }

  ghost predicate Ok(s: Sched) {
    && |s.threads| == |s.stamps| == MAX_THREADS && s.current < MAX_THREADS
    && s.threads[s.current].status != Free
    && (s.threads[0].status == Running || s.threads[0].status == Ready) && s.threads[0].pid == 0
    && s.g.count == Live(s.threads) && s.g.nextId > 0 && s.g.quantum > 0
    && ListOk(s.ready) && ListOk(s.sleep)
    && (forall i: nat {:trigger PlaceOk(s, i)} | i < MAX_THREADS :: PlaceOk(s, i))
    && (forall i: nat {:trigger IdOk(s, i)} | i < MAX_THREADS :: IdOk(s, i))
    && (forall i: nat, j: nat {:trigger IdsApart(s, i, j)} | i < MAX_THREADS && j < MAX_THREADS :: IdsApart(s, i, j))
    && (forall i: nat {:trigger StampOk(s, i)} | i < MAX_THREADS :: StampOk(s, i))
    && (forall i: nat, j: nat {:trigger SleepOrder(s, i, j)} | i < j < |s.sleep| :: SleepOrder(s, i, j))
  }

  // ---- Lists ----

  function Without(list: seq<nat>, k: nat): seq<nat>
    requires k < |list|
  {
    list[..k] + list[k + 1..]
  }

  function Insert(list: seq<nat>, k: nat, x: nat): seq<nat>
    requires k <= |list|
  {
    list[..k] + [x] + list[k..]
  }

  predicate KeptAt(list: seq<nat>, list': seq<nat>, i: nat, x: nat) { x != i ==> (x in list' <==> x in list) }

  /** Only `i` may have joined or left. */
  ghost predicate Kept(list: seq<nat>, list': seq<nat>, i: nat) {
    forall x: nat {:trigger KeptAt(list, list', i, x)} :: KeptAt(list, list', i, x)
  }

  lemma WithoutIs(list: seq<nat>, k: nat)
    requires ListOk(list) && k < |list|
    ensures ListOk(Without(list, k)) && Kept(list, Without(list, k), list[k]) && list[k] !in Without(list, k)
  {
    var r := Without(list, k);
    forall j: nat | j < |r| ensures Bounded(r, j) && r[j] != list[k] {
      var m := if j < k then j else j + 1;
      assert r[j] == list[m] && Bounded(list, m) && Apart(list, if j < k then j else k, if j < k then k else m);
    }
    forall i: nat, j: nat | i < j < |r| ensures Apart(r, i, j) {
      assert Apart(list, if i < k then i else i + 1, if j < k then j else j + 1);
    }
    forall x: nat ensures KeptAt(list, r, list[k], x) {
      if x in list && x != list[k] {
        var j :| 0 <= j < |list| && list[j] == x;
        assert r[if j < k then j else j - 1] == x;
      }
    }
  }

  lemma InsertIs(list: seq<nat>, k: nat, x: nat)
    requires ListOk(list) && k <= |list| && x !in list && x < MAX_THREADS
    ensures ListOk(Insert(list, k, x)) && Kept(list, Insert(list, k, x), x) && x in Insert(list, k, x)
  {
    var r := Insert(list, k, x);
    assert r[k] == x;
    forall j: nat | j < |r|
      ensures Bounded(r, j) && r[j] == if j < k then list[j] else if j == k then x else list[j - 1]
    {
      assert j < k ==> Bounded(list, j);
      assert j > k ==> Bounded(list, j - 1);
    }
    forall i: nat, j: nat | i < j < |r| ensures Apart(r, i, j) {
      if i != k && j != k { assert Apart(list, if i < k then i else i - 1, if j < k then j else j - 1); }
    }
    forall y: nat ensures KeptAt(list, r, x, y) {
      if y in list {
        var j :| 0 <= j < |list| && list[j] == y;
        assert r[if j < k then j else j + 1] == y;
      }
    }
  }

  lemma AppendIs(list: seq<nat>, x: nat)
    requires ListOk(list) && x !in list && x < MAX_THREADS
    ensures ListOk(list + [x]) && Kept(list, list + [x], x) && x in list + [x]
  {
    InsertIs(list, |list|, x);
    assert list + [x] == Insert(list, |list|, x);
  }

  lemma PopIs(list: seq<nat>)
    requires ListOk(list) && list != []
    ensures ListOk(list[1..]) && Kept(list, list[1..], list[0]) && list[0] !in list[1..]
  {
    WithoutIs(list, 0);
    assert list[1..] == Without(list, 0);
  }

  lemma {:induction false} LiveUpdate(threads: seq<Thread>, i: nat, t: Thread)
    requires i < |threads|
    ensures Live(threads[i := t]) == Live(threads) + (if t.status == Free || t.status == Zombie then 0 else 1)
                                     - (if threads[i].status == Free || threads[i].status == Zombie then 0 else 1)
  {
    var u := threads[i := t];
    if i == 0 { assert u[1..] == threads[1..]; }
    else {
      assert u[1..] == threads[1..][i - 1 := t];
      LiveUpdate(threads[1..], i - 1, t);
    }
  }

  // ---- Moving threads ----

  function SetStatus(s: Sched, i: nat, st: Status): Sched
    requires i < |s.threads|
  {
    s.(threads := s.threads[i := s.threads[i].(status := st)])
  }

  /** Makes thread `i` ready, behind all others. */
  function AppendReady(s: Sched, i: nat): Sched
    requires i < |s.threads|
  {
    SetStatus(s, i, Ready).(ready := s.ready + [i])
  }

  /** The first sleeper becomes ready. */
  function WakeFirst(s: Sched): Sched
    requires s.sleep != [] && s.sleep[0] < |s.threads|
  {
    AppendReady(s, s.sleep[0]).(sleep := s.sleep[1..])
  }

  predicate FirstDue(s: Sched) {
    s.sleep != [] && s.sleep[0] < |s.threads| && s.threads[s.sleep[0]].wake <= s.g.ticks
  }

  /** Wakes every sleeper whose tick has come. */
  function WakeDue(s: Sched): Sched
    decreases |s.sleep|
  {
    if FirstDue(s) then WakeDue(WakeFirst(s)) else s.(g := s.g.(wakeup := false))
  }

  lemma WakeFirstOk(s: Sched)
    requires Ok(s) && s.sleep != [] && s.sleep[0] < |s.threads|
    ensures Ok(WakeFirst(s))
  {
    var i, s' := s.sleep[0], WakeFirst(s);
    assert Bounded(s.sleep, 0) && PlaceOk(s, i);
    LiveUpdate(s.threads, i, s'.threads[i]);
    PopIs(s.sleep);
    AppendIs(s.ready, i);
    StatusOk(s, s', i);
    forall a: nat, b: nat | a < b < |s'.sleep| ensures SleepOrder(s', a, b) { assert SleepOrder(s, a + 1, b + 1); }
  }

  /** Changing the state of thread `i`, and its place in the lists to match. */
  lemma StatusOk(s: Sched, s': Sched, i: nat)
    requires Ok(s) && i < MAX_THREADS && s.threads[i].status != Free && |s'.threads| == MAX_THREADS
    requires s'.stamps == s.stamps
    requires s'.threads == s.threads[i := s.threads[i].(status := s'.threads[i].status)] && s'.threads[i].status != Free
    requires s'.clock == s.clock && s'.g.nextId == s.g.nextId
    requires Kept(s.ready, s'.ready, i) && (i in s'.ready <==> s'.threads[i].status == Ready)
    requires Kept(s.sleep, s'.sleep, i) && (i in s'.sleep <==> s'.threads[i].status == Sleeping)
    requires s'.threads[i].status == Running ==> i == s'.current
    requires s'.current == s.current || s.threads[s.current].status != Running || i == s.current
    ensures forall x: nat {:trigger PlaceOk(s', x)} | x < MAX_THREADS :: PlaceOk(s', x)
    ensures forall x: nat {:trigger IdOk(s', x)} | x < MAX_THREADS :: IdOk(s', x)
    ensures forall x: nat, y: nat {:trigger IdsApart(s', x, y)} | x < MAX_THREADS && y < MAX_THREADS ::
      IdsApart(s', x, y)
    ensures forall x: nat {:trigger StampOk(s', x)} | x < MAX_THREADS :: StampOk(s', x)
  {
    forall x: nat | x < MAX_THREADS ensures PlaceOk(s', x) && IdOk(s', x) && StampOk(s', x) {
      assert PlaceOk(s, x) && IdOk(s, x) && StampOk(s, x);
      assert KeptAt(s.ready, s'.ready, i, x) && KeptAt(s.sleep, s'.sleep, i, x);
    }
    forall x: nat, y: nat | x < MAX_THREADS && y < MAX_THREADS ensures IdsApart(s', x, y) { assert IdsApart(s, x, y); }
  }

  lemma {:induction false} WakeDueOk(s: Sched)
    requires Ok(s)
    ensures Ok(WakeDue(s)) && s.ready <= WakeDue(s).ready && !FirstDue(WakeDue(s))
    decreases |s.sleep|
  {
    if FirstDue(s) {
      WakeFirstOk(s);
      WakeDueOk(WakeFirst(s));
    } else {
      SameThreads(s, s.(g := s.g.(wakeup := false)));
    }
  }

  /** Flags and time are not part of the invariant. */
  lemma SameThreads(s: Sched, s': Sched)
    requires Ok(s)
    requires s' == s.(g := s.g.(ticks := s'.g.ticks, left := s'.g.left, resched := s'.g.resched, wakeup := s'.g.wakeup))
    ensures Ok(s')
  {
    forall i: nat | i < MAX_THREADS ensures PlaceOk(s', i) && IdOk(s', i) && StampOk(s', i) {
      assert PlaceOk(s, i) && IdOk(s, i) && StampOk(s, i);
    }
    forall i: nat, j: nat | i < MAX_THREADS && j < MAX_THREADS ensures IdsApart(s', i, j) { assert IdsApart(s, i, j); }
    forall i: nat, j: nat | i < j < |s'.sleep| ensures SleepOrder(s', i, j) { assert SleepOrder(s, i, j); }
  }

  /** No sleeper wakes before its tick, and every sleeper whose tick has come does. */
  lemma {:induction false} WakeDueExact(s: Sched, i: nat)
    requires Ok(s) && i in s.sleep
    ensures i < MAX_THREADS && (i in WakeDue(s).sleep <==> s.threads[i].wake > s.g.ticks)
    ensures s.threads[i].wake <= s.g.ticks ==> i in WakeDue(s).ready
    decreases |s.sleep|
  {
    var k: nat :| k < |s.sleep| && s.sleep[k] == i;
    assert Bounded(s.sleep, k) && (k > 0 ==> SleepOrder(s, 0, k));
    if FirstDue(s) {
      WakeFirstOk(s);
      PopIs(s.sleep);
      if k > 0 {
        assert s.sleep[1..][k - 1] == i;
        WakeDueExact(WakeFirst(s), i);
      } else {
        WakeDueOk(WakeFirst(s));
        WakeDueKeeps(WakeFirst(s), i);
        assert WakeFirst(s).ready[|s.ready|] == i;
      }
    } else {
      assert Bounded(s.sleep, 0);
    }
  }

  /** The sleepers that are due join the ready list in the order of the sleep list. */
  lemma {:induction false} WakeDueIs(s: Sched) returns (m: nat)
    requires Ok(s)
    ensures m <= |s.sleep| && WakeDue(s).ready == s.ready + s.sleep[..m] && WakeDue(s).sleep == s.sleep[m..]
    ensures forall j | 0 <= j < |s.sleep| ::
      s.sleep[j] < MAX_THREADS && (j < m <==> s.threads[s.sleep[j]].wake <= s.g.ticks)
    decreases |s.sleep|
  {
    forall j | 0 <= j < |s.sleep| ensures s.sleep[j] < MAX_THREADS && s.sleep[j] in s.sleep {
      assert Bounded(s.sleep, j);
    }
    m := 0;
    if FirstDue(s) {
      WakeFirstOk(s);
      var k := WakeDueIs(WakeFirst(s));
      m := k + 1;
      WakeFirstThen(s, k);
    } else {
      forall j | 0 <= j < |s.sleep| ensures s.threads[s.sleep[j]].wake > s.g.ticks {
        if j > 0 { assert SleepOrder(s, 0, j); }
      }
    }
  }

  /** The first sleeper is due, and so are the next `k` and no others. */
  lemma WakeFirstThen(s: Sched, k: nat)
    requires Ok(s) && FirstDue(s) && k < |s.sleep|
    requires |WakeFirst(s).threads| == MAX_THREADS
    requires forall j | 0 <= j < |WakeFirst(s).sleep| ::
      && WakeFirst(s).sleep[j] < MAX_THREADS
      && (j < k <==> WakeFirst(s).threads[WakeFirst(s).sleep[j]].wake <= WakeFirst(s).g.ticks)
    ensures WakeFirst(s).ready + WakeFirst(s).sleep[..k] == s.ready + s.sleep[..k + 1]
    ensures WakeFirst(s).sleep[k..] == s.sleep[k + 1..]
    ensures forall j | 0 <= j < |s.sleep| ::
      s.sleep[j] < MAX_THREADS && (j < k + 1 <==> s.threads[s.sleep[j]].wake <= s.g.ticks)
  {
    var s1 := WakeFirst(s);
    forall j | 0 <= j < |s.sleep|
      ensures s.sleep[j] < MAX_THREADS && (j < k + 1 <==> s.threads[s.sleep[j]].wake <= s.g.ticks)
    {
      assert Bounded(s.sleep, j);
      if j > 0 { assert s1.sleep[j - 1] == s.sleep[j] && Apart(s.sleep, 0, j); }
    }
  }

  lemma {:induction false} WakeDueKeeps(s: Sched, i: nat)
    requires i !in s.sleep
    ensures i !in WakeDue(s).sleep
    decreases |s.sleep|
  {
    if FirstDue(s) { WakeDueKeeps(WakeFirst(s), i); }
  }

  // ---- Reaping ----

  predicate Reapable(s: Sched, pids: set<nat>, i: nat) {
    && 0 < i < |s.threads| && i != s.current && s.threads[i].status == Zombie
    && (s.threads[i].pid == 0 || s.threads[i].pid in pids)
  }

  /** Frees the zombies, except the current thread and those whose process cannot be reaped yet. */
  function Reap(s: Sched, pids: set<nat>): Sched {
    s.(threads := seq(|s.threads|, i requires 0 <= i < |s.threads| =>
         if Reapable(s, pids, i) then s.threads[i].(status := Free, wake := 0) else s.threads[i]))
  }

  lemma {:induction false} LiveSame(t: seq<Thread>, u: seq<Thread>)
    requires |t| == |u| && forall i | 0 <= i < |t| ::
               t[i].status == Free || t[i].status == Zombie <==> u[i].status == Free || u[i].status == Zombie
    ensures Live(t) == Live(u)
  {
    if t != [] { LiveSame(t[1..], u[1..]); }
  }

  lemma ReapOk(s: Sched, pids: set<nat>)
    requires Ok(s)
    ensures Ok(Reap(s, pids))
  {
    var s' := Reap(s, pids);
    LiveSame(s.threads, s'.threads);
    forall i: nat | i < MAX_THREADS ensures PlaceOk(s', i) && IdOk(s', i) && StampOk(s', i) {
      assert PlaceOk(s, i) && IdOk(s, i) && StampOk(s, i);
    }
    forall i: nat, j: nat | i < MAX_THREADS && j < MAX_THREADS ensures IdsApart(s', i, j) { assert IdsApart(s, i, j); }
    forall i: nat, j: nat | i < j < |s'.sleep| ensures SleepOrder(s', i, j) {
      assert SleepOrder(s, i, j) && Bounded(s.sleep, i) && Bounded(s.sleep, j);
      assert s.sleep[i] in s.sleep && s.sleep[j] in s.sleep && PlaceOk(s, s.sleep[i]) && PlaceOk(s, s.sleep[j]);
    }
  }

  // ---- The scheduling decision ----

  /** A running thread goes to the back of the ready list. */
  function Requeue(s: Sched): Sched
    requires s.current < |s.threads|
  {
    if s.threads[s.current].status == Running then AppendReady(s, s.current) else s
  }

  /** The first ready thread belongs to a process that is gone. */
  predicate DeadNext(s: Sched, alive: set<nat>) {
    && s.ready != [] && s.ready[0] != s.current && s.ready[0] < |s.threads|
    && s.threads[s.ready[0]].pid != 0 && s.threads[s.ready[0]].pid !in alive
  }

  /** The first ready thread runs; if its process is gone it becomes a zombie and the old thread runs on. */
  function Switch(s: Sched, alive: set<nat>): Sched
    requires s.ready != [] && s.ready[0] < |s.threads| && s.current < |s.threads|
  {
    var next, s1 := s.ready[0], s.(ready := s.ready[1..]);
    if DeadNext(s, alive) then SetStatus(SetStatus(s1, next, Zombie), s.current, Running)
    else SetStatus(s1, next, Running).(current := next)
  }

  lemma RequeueOk(s: Sched)
    requires Ok(s)
    ensures Ok(Requeue(s)) && Requeue(s).ready != [] && s.ready <= Requeue(s).ready
    ensures Requeue(s).threads[s.current].status != Running
  {
    var i, s' := s.current, Requeue(s);
    assert PlaceOk(s, i) && PlaceOk(s, 0);
    if s.threads[i].status == Running {
      LiveUpdate(s.threads, i, s'.threads[i]);
      AppendIs(s.ready, i);
      StatusOk(s, s', i);
      forall a: nat, b: nat | a < b < |s'.sleep| ensures SleepOrder(s', a, b) { assert SleepOrder(s, a, b); }
    }
  }

  lemma SwitchOk(s: Sched, alive: set<nat>)
    requires Ok(s) && s.ready != [] && s.ready[0] < |s.threads| && s.threads[s.current].status != Running
    requires !DeadNext(s, alive)
    ensures Ok(Switch(s, alive)) && Switch(s, alive).current == s.ready[0]
  {
    var i, s' := s.ready[0], Switch(s, alive);
    assert Bounded(s.ready, 0) && PlaceOk(s, i);
    LiveUpdate(s.threads, i, s'.threads[i]);
    PopIs(s.ready);
    StatusOk(s, s', i);
    forall a: nat, b: nat | a < b < |s'.sleep| ensures SleepOrder(s', a, b) { assert SleepOrder(s, a, b); }
  }

  predicate Decides(s: Sched) { s.g.resched || s.g.wakeup }

  function Prepared(s: Sched, pids: set<nat>): Sched { Reap(WakeDue(s), pids) }

  lemma PreparedOk(s: Sched, pids: set<nat>)
    requires Ok(s)
    ensures Ok(Prepared(s, pids)) && s.ready <= Prepared(s, pids).ready
  {
    WakeDueOk(s);
    ReapOk(WakeDue(s), pids);
  }

  /** The state in which the next thread is picked. */
  function Queued(s: Sched): (s': Sched)
    requires Ok(s)
    ensures Ok(s') && s'.ready != [] && s'.ready[0] < MAX_THREADS && s.ready <= s'.ready && s'.current == s.current
    ensures s'.threads[s.current].status != Running
  {
    var s0 := s.(g := s.g.(resched := false, wakeup := false));
    SameThreads(s, s0);
    RequeueOk(s0);
    assert Bounded(Requeue(s0).ready, 0);
    Requeue(s0)
  }

  /** The scheduler's main section. */
  function Process(s: Sched, alive: set<nat>, pids: set<nat>): Sched
    requires Ok(s)
  {
    PreparedOk(s, pids);
    var s1 := Prepared(s, pids);
    if Decides(s1) then Switch(Queued(s1), alive) else s1
  }

  /** Whether the decision would pick a thread whose process is gone. */
  predicate PicksDead(s: Sched, alive: set<nat>, pids: set<nat>)
    requires Ok(s)
  {
    PreparedOk(s, pids);
    var s1 := Prepared(s, pids);
    Decides(s1) && DeadNext(Queued(s1), alive)
  }

  /** The decision keeps the invariant exactly unless it picks a thread whose process is gone and the old
      thread has not exited. */
  lemma ProcessOk(s: Sched, alive: set<nat>, pids: set<nat>)
    requires Ok(s)
    ensures Ok(Process(s, alive, pids)) <==> (PicksDead(s, alive, pids) ==> s.threads[s.current].status == Zombie)
  {
    PreparedOk(s, pids);
    WakeDueZombies(s, s.current);
    var s1 := Prepared(s, pids);
    if Decides(s1) {
      var s2 := Queued(s1);
      if DeadNext(s2, alive) { DeadPick(s2, alive); } else { SwitchOk(s2, alive); }
    }
  }

  lemma {:induction false} WakeDueZombies(s: Sched, i: nat)
    requires Ok(s) && i < MAX_THREADS
    ensures |WakeDue(s).threads| == MAX_THREADS && WakeDue(s).current == s.current
    ensures WakeDue(s).threads[i].status == Zombie <==> s.threads[i].status == Zombie
    decreases |s.sleep|
  {
    if FirstDue(s) {
      assert s.sleep[0] in s.sleep && PlaceOk(s, s.sleep[0]);
      WakeFirstOk(s);
      WakeDueZombies(WakeFirst(s), i);
    }
  }

  /** Running on after a dead pick keeps every thread in its place exactly
      when the old thread had exited, and then it runs again. */
  lemma DeadPick(s: Sched, alive: set<nat>)
    requires Ok(s) && DeadNext(s, alive) && s.threads[s.current].status != Running
    ensures Ok(Switch(s, alive)) <==> s.threads[s.current].status == Zombie
  {
    var i, c, s' := s.ready[0], s.current, Switch(s, alive);
    assert PlaceOk(s, i) && PlaceOk(s, c);
    var t1 := s.threads[i := s.threads[i].(status := Zombie)];
    LiveUpdate(s.threads, i, t1[i]);
    LiveUpdate(t1, c, s'.threads[c]);
    PopIs(s.ready);
    assert KeptAt(s.ready, s'.ready, i, c);
    if s.threads[c].status == Zombie { DeadPickZombie(s, alive); }
    assert Ok(s') ==> PlaceOk(s', c);
  }

  lemma DeadPickZombie(s: Sched, alive: set<nat>)
    requires Ok(s) && DeadNext(s, alive) && s.threads[s.current].status == Zombie
    requires Live(Switch(s, alive).threads) == s.g.count
    ensures Ok(Switch(s, alive))
  {
    var i, s' := s.ready[0], Switch(s, alive);
    PopIs(s.ready);
    assert PlaceOk(s, i) && PlaceOk(s, s.current);
    forall x: nat | x < MAX_THREADS ensures PlaceOk(s', x) && IdOk(s', x) && StampOk(s', x) {
      assert PlaceOk(s, x) && IdOk(s, x) && StampOk(s, x) && KeptAt(s.ready, s'.ready, i, x);
    }
    forall x: nat, y: nat | x < MAX_THREADS && y < MAX_THREADS ensures IdsApart(s', x, y) { assert IdsApart(s, x, y); }
    forall a: nat, b: nat | a < b < |s'.sleep| ensures SleepOrder(s', a, b) { assert SleepOrder(s, a, b); }
  }

  // ---- The other sections ----

  /** The timer interrupt: it counts, and only sets flags. */
  function Tick(s: Sched): Sched {
    var g1 := s.g.(ticks := (s.g.ticks + 1) % U64, left := if s.g.left > 0 then s.g.left - 1 else 0);
    var g2 := if g1.left == 0 then g1.(resched := true, left := g1.quantum) else g1;
    s.(g := if FirstDue(s.(g := g2)) then g2.(wakeup := true, resched := true) else g2)
  }

  function FreeFrom(threads: seq<Thread>, i: nat): Option<nat>
    requires i <= |threads|
    decreases |threads| - i
  {
    if i == |threads| then None else if threads[i].status == Free then Some(i) else FreeFrom(threads, i + 1)
  }

  /** A new thread in the first free slot; `heap` says whether its stack could be allocated. */
  function Create(s: Sched, pid: nat, heap: bool): Sched
    requires |s.threads| == MAX_THREADS
  {
    var slot := FreeFrom(s.threads, 1);
    if slot.None? || !heap || slot.value >= MAX_THREADS then s
    else
      s.(threads := s.threads[slot.value := Thread(Ready, s.g.nextId, pid, 0)], ready := s.ready + [slot.value],
         g := s.g.(nextId := s.g.nextId + 1, count := s.g.count + 1))
  }

  lemma {:induction false} FreeFromIs(threads: seq<Thread>, i: nat)
    requires i <= |threads|
    ensures var r := FreeFrom(threads, i);
      if r.None? then forall k | i <= k < |threads| :: threads[k].status != Free
      else i <= r.value < |threads| && threads[r.value].status == Free && forall k | i <= k < r.value ::
        threads[k].status != Free
    decreases |threads| - i
  {
    if i < |threads| { FreeFromIs(threads, i + 1); }
  }

  lemma CreateOk(s: Sched, pid: nat, heap: bool)
    requires Ok(s)
    ensures Ok(Create(s, pid, heap)) && s.ready <= Create(s, pid, heap).ready
  {
    var s', slot := Create(s, pid, heap), FreeFrom(s.threads, 1);
    FreeFromIs(s.threads, 1);
    if slot.Some? && heap {
      var i := slot.value;
      assert PlaceOk(s, i);
      LiveUpdate(s.threads, i, s'.threads[i]);
      AppendIs(s.ready, i);
      forall x: nat | x < MAX_THREADS ensures PlaceOk(s', x) && IdOk(s', x) && StampOk(s', x) {
        assert PlaceOk(s, x) && IdOk(s, x) && StampOk(s, x) && KeptAt(s.ready, s'.ready, i, x);
      }
      forall x: nat, y: nat | x < MAX_THREADS && y < MAX_THREADS ensures IdsApart(s', x, y) {
        assert IdsApart(s, x, y) && IdOk(s, x) && IdOk(s, y);
      }
      forall a: nat, b: nat | a < b < |s'.sleep| ensures SleepOrder(s', a, b) {
        assert SleepOrder(s, a, b) && s.sleep[a] in s.sleep && s.sleep[b] in s.sleep;
      }
    }
  }

  /** The ticks of a sleep, with the wrap-around of 64-bit arithmetic. */
  function SleepTicks(ms: nat, hz: nat): nat {
    var t := ((ms * hz) % U64 + 999) % U64 / 1000;
    if t == 0 then 1 else t
  }

  /** Where a sleeper with wake tick `w` goes: behind all that wake no later. */
  function SleepPos(threads: seq<Thread>, sleep: seq<nat>, w: nat): (k: nat)
    ensures k <= |sleep|
  {
    if sleep == [] || sleep[0] >= |threads| || threads[sleep[0]].wake > w then 0
    else 1 + SleepPos(threads, sleep[1..], w)
  }

  lemma {:induction false} SleepPosIs(threads: seq<Thread>, sleep: seq<nat>, w: nat)
    requires forall k | 0 <= k < |sleep| :: sleep[k] < |threads|
    ensures var k := SleepPos(threads, sleep, w);
      && (forall j | 0 <= j < k :: threads[sleep[j]].wake <= w) && (k < |sleep| ==> threads[sleep[k]].wake > w)
  {
    if sleep != [] && threads[sleep[0]].wake <= w {
      SleepPosIs(threads, sleep[1..], w);
      assert forall j | 0 < j < |sleep| :: sleep[j] == sleep[1..][j - 1];
    }
  }

  /** The running thread, other than thread 0, may put itself aside. */
  predicate MayLeave(s: Sched) {
    0 < s.current < |s.threads| == |s.stamps| && s.threads[s.current].status == Running
  }

  function SleepFor(s: Sched, ms: nat): Sched {
    if !MayLeave(s) then s
    else
      var w := (s.g.ticks + SleepTicks(ms, s.g.hz)) % U64;
      s.(threads := s.threads[s.current := s.threads[s.current].(status := Sleeping, wake := w)],
         stamps := s.stamps[s.current := s.clock], clock := s.clock + 1,
         sleep := Insert(s.sleep, SleepPos(s.threads, s.sleep, w), s.current), g := s.g.(resched := true))
  }

  lemma SleepForOk(s: Sched, ms: nat)
    requires Ok(s)
    ensures Ok(SleepFor(s, ms))
  {
    var s', c := SleepFor(s, ms), s.current;
    if MayLeave(s) {
      var k := SleepPos(s.threads, s.sleep, s'.threads[c].wake);
      assert PlaceOk(s, c);
      LiveUpdate(s.threads, c, s'.threads[c]);
      InsertIs(s.sleep, k, c);
      forall x: nat | x < MAX_THREADS ensures PlaceOk(s', x) && IdOk(s', x) && StampOk(s', x) {
        assert PlaceOk(s, x) && IdOk(s, x) && StampOk(s, x) && KeptAt(s.sleep, s'.sleep, c, x);
      }
      forall x: nat, y: nat | x < MAX_THREADS && y < MAX_THREADS ensures IdsApart(s', x, y) {
        assert IdsApart(s, x, y);
      }
      forall j: nat | j < |s.sleep| ensures s.sleep[j] < |s.threads| && s.sleep[j] != c {
        assert Bounded(s.sleep, j) && s.sleep[j] in s.sleep;
      }
      SleepPosIs(s.threads, s.sleep, s'.threads[c].wake);
      forall a: nat, b: nat | a < b < |s'.sleep| ensures SleepOrder(s', a, b) { SleepInserted(s, s', k, a, b); }
    }
  }

  lemma SleepInserted(s: Sched, s': Sched, k: nat, a: nat, b: nat)
    requires Ok(s) && MayLeave(s) && k <= |s.sleep| && a < b <= |s.sleep|
    requires s'.sleep == Insert(s.sleep, k, s.current) && s'.stamps == s.stamps[s.current := s.clock]
    requires |s'.threads| == |s.threads|
    requires forall j | 0 <= j < |s.threads| && j != s.current :: s'.threads[j] == s.threads[j]
    requires forall j: nat | j < |s.sleep| :: s.sleep[j] < |s.threads| && s.sleep[j] != s.current
    requires forall j | 0 <= j < k :: s.threads[s.sleep[j]].wake <= s'.threads[s.current].wake
    requires k < |s.sleep| ==> s.threads[s.sleep[k]].wake > s'.threads[s.current].wake
    ensures SleepOrder(s', a, b)
  {
    if a != k && b != k {
      assert SleepOrder(s, if a < k then a else a - 1, if b < k then b else b - 1);
    } else if b == k {
      assert s'.sleep[a] == s.sleep[a] && StampOk(s, s.sleep[a]);
    } else {
      assert s'.sleep[b] == s.sleep[b - 1];
      assert b - 1 > k ==> SleepOrder(s, k, b - 1);
    }
  }

  function FindFrom(threads: seq<Thread>, id: nat, i: nat): (r: Option<nat>)
    requires i <= |threads|
    ensures r.Some? ==> i <= r.value < |threads| && threads[r.value].status != Free && threads[r.value].id == id
    decreases |threads| - i
  {
    if i == |threads| then None
    else if threads[i].status != Free && threads[i].id == id then Some(i)
    else FindFrom(threads, id, i + 1)
  }

  /** The first thread found by its number is the thread itself. */
  lemma {:induction false} FindIs(s: Sched, i: nat, from: nat)
    requires Ok(s) && from <= i < MAX_THREADS && s.threads[i].status != Free
    ensures FindFrom(s.threads, s.threads[i].id, from) == Some(i)
    decreases i - from
  {
    assert IdsApart(s, i, from);
    if from < i { FindIs(s, i, from + 1); }
  }

  function IndexIn(list: seq<nat>, x: nat): (k: nat)
    ensures k <= |list| && (k < |list| ==> list[k] == x)
    ensures x in list <==> k < |list|
  {
    if list == [] || list[0] == x then 0 else 1 + IndexIn(list[1..], x)
  }

  /** Ends a sleep early. */
  function WakeUp(s: Sched, id: nat): Sched {
    var t := FindFrom(s.threads, id, 0);
    if t.None? || s.threads[t.value].status != Sleeping then s
    else
      var k := IndexIn(s.sleep, t.value);
      if k == |s.sleep| then s.(g := s.g.(wakeup := true, resched := true))
      else
        s.(threads := s.threads[t.value := s.threads[t.value].(status := Ready, wake := 0)],
           sleep := Without(s.sleep, k), ready := s.ready + [t.value],
           g := s.g.(wakeup := true, resched := true))
  }

  lemma WakeUpOk(s: Sched, id: nat)
    requires Ok(s)
    ensures Ok(WakeUp(s, id)) && s.ready <= WakeUp(s, id).ready
  {
    var s', t := WakeUp(s, id), FindFrom(s.threads, id, 0);
    if t.Some? && s.threads[t.value].status == Sleeping {
      var i, k := t.value, IndexIn(s.sleep, t.value);
      assert PlaceOk(s, i);
      LiveUpdate(s.threads, i, s'.threads[i]);
      WithoutIs(s.sleep, k);
      AppendIs(s.ready, i);
      forall x: nat | x < MAX_THREADS ensures PlaceOk(s', x) && IdOk(s', x) && StampOk(s', x) {
        assert PlaceOk(s, x) && IdOk(s, x) && StampOk(s, x);
        assert KeptAt(s.sleep, s'.sleep, i, x) && KeptAt(s.ready, s'.ready, i, x);
      }
      forall x: nat, y: nat | x < MAX_THREADS && y < MAX_THREADS ensures IdsApart(s', x, y) {
        assert IdsApart(s, x, y);
      }
      forall a: nat, b: nat | a < b < |s'.sleep| ensures SleepOrder(s', a, b) { SleepRemoved(s, s', i, k, a, b); }
    }
  }

  lemma SleepRemoved(s: Sched, s': Sched, i: nat, k: nat, a: nat, b: nat)
    requires Ok(s) && k < |s.sleep| && s.sleep[k] == i && s'.sleep == Without(s.sleep, k) && s'.stamps == s.stamps
    requires |s'.threads| == |s.threads| && forall x | 0 <= x < |s.threads| && x != i :: s'.threads[x] == s.threads[x]
    requires a < b < |s'.sleep|
    ensures SleepOrder(s', a, b)
  {
    var a', b' := if a < k then a else a + 1, if b < k then b else b + 1;
    assert SleepOrder(s, a', b') && s'.sleep[a] == s.sleep[a'] && s'.sleep[b] == s.sleep[b'];
    WithoutIs(s.sleep, k);
    assert s'.sleep[a] in s'.sleep && s'.sleep[b] in s'.sleep;
  }

  /** Makes a blocked thread ready. */
  function Wake(s: Sched, id: nat): Sched {
    var t := FindFrom(s.threads, id, 0);
    if t.None? || s.threads[t.value].status != Blocked then s
    else AppendReady(s, t.value).(g := s.g.(wakeup := true, resched := true))
  }

  lemma WakeOk(s: Sched, id: nat)
    requires Ok(s)
    ensures Ok(Wake(s, id)) && s.ready <= Wake(s, id).ready
  {
    var s', t := Wake(s, id), FindFrom(s.threads, id, 0);
    if t.Some? && s.threads[t.value].status == Blocked {
      var i := t.value;
      assert PlaceOk(s, i);
      LiveUpdate(s.threads, i, s'.threads[i]);
      AppendIs(s.ready, i);
      StatusOk(s, s', i);
      forall a: nat, b: nat | a < b < |s'.sleep| ensures SleepOrder(s', a, b) { assert SleepOrder(s, a, b); }
    }
  }

  /** The running thread blocks. */
  function Block(s: Sched): Sched {
    if MayLeave(s) then SetStatus(s, s.current, Blocked).(g := s.g.(resched := true)) else s
  }

  /** The running thread exits. */
  function Exit(s: Sched): Sched {
    if MayLeave(s) then
      SetStatus(s, s.current, Zombie).(g := s.g.(resched := true, count := if s.g.count > 0 then s.g.count - 1 else 0))
    else s
  }

  lemma LeaveOk(s: Sched)
    requires Ok(s)
    ensures Ok(Block(s)) && Ok(Exit(s))
  {
    var c := s.current;
    if MayLeave(s) {
      assert PlaceOk(s, c);
      var b, e := Block(s), Exit(s);
      LiveUpdate(s.threads, c, b.threads[c]);
      LiveUpdate(s.threads, c, e.threads[c]);
      StatusOk(s, b, c);
      StatusOk(s, e, c);
      forall x: nat, y: nat | x < y < |s.sleep| ensures SleepOrder(b, x, y) && SleepOrder(e, x, y) {
        assert SleepOrder(s, x, y);
      }
    }
  }

  // ---- Runs ----

  /** What can happen next: the timer interrupt, or a section of the running code. */
  datatype Op =
    | TimerIrq | Request | Decide(alive: set<nat>, pids: set<nat>) | Spawn(pid: nat, heap: bool)
    | GoToSleep(ms: nat) | EndSleep(id: nat) | Unblock(id: nat) | GoBlocked | Leave

  function Start(hz: nat, quantum: nat): Sched {
    Sched(seq(MAX_THREADS, i => if i == 0 then Thread(Running, 0, 0, 0) else Thread(Free, 0, 0, 0)), 0, [], [],
          seq(MAX_THREADS, _ => 0), 1, Globals(0, hz, quantum, quantum, false, false, 1, 1))
  }

  lemma StartOk(hz: nat, quantum: nat)
    requires quantum > 0
    ensures Ok(Start(hz, quantum))
  {
    var s := Start(hz, quantum);
    LiveSame(s.threads[1..], seq(MAX_THREADS - 1, _ => Thread(Free, 0, 0, 0)));
    NoneLive(MAX_THREADS - 1);
    assert forall i: nat | i < MAX_THREADS :: PlaceOk(s, i) && IdOk(s, i) && StampOk(s, i);
    assert forall i: nat, j: nat | i < MAX_THREADS && j < MAX_THREADS :: IdsApart(s, i, j);
  }

  lemma {:induction false} NoneLive(k: nat)
    ensures Live(seq(k, _ => Thread(Free, 0, 0, 0))) == 0
  {
    if k > 0 {
      var t := seq(k, _ => Thread(Free, 0, 0, 0));
      assert t[1..] == seq(k - 1, _ => Thread(Free, 0, 0, 0));
      NoneLive(k - 1);
    }
  }

  function Step(s: Sched, op: Op): Sched
    requires Ok(s)
  {
    match op
    case TimerIrq => Tick(s)
    case Request => s.(g := s.g.(resched := true))
    case Decide(alive, pids) => Process(s, alive, pids)
    case Spawn(pid, heap) => Create(s, pid, heap)
    case GoToSleep(ms) => SleepFor(s, ms)
    case EndSleep(id) => WakeUp(s, id)
    case Unblock(id) => Wake(s, id)
    case GoBlocked => Block(s)
    case Leave => Exit(s)
  }

  /** A decision picks a thread whose process is gone only after the old thread has exited. */
  predicate Alive(s: Sched, op: Op)
    requires Ok(s)
  {
    op.Decide? && PicksDead(s, op.alive, op.pids) ==> s.threads[s.current].status == Zombie
  }

  /** Every section keeps each thread in its place, with exactly that exception. */
  lemma StepOk(s: Sched, op: Op)
    requires Ok(s)
    ensures Ok(Step(s, op)) <==> Alive(s, op)
  {
    match op
    case TimerIrq => SameThreads(s, Tick(s));
    case Request => SameThreads(s, s.(g := s.g.(resched := true)));
    case Decide(alive, pids) => ProcessOk(s, alive, pids);
    case Spawn(pid, heap) => CreateOk(s, pid, heap);
    case GoToSleep(ms) => SleepForOk(s, ms);
    case EndSleep(id) => WakeUpOk(s, id);
    case Unblock(id) => WakeOk(s, id);
    case GoBlocked => LeaveOk(s);
    case Leave => LeaveOk(s);
  }

  /** `trace` is a run: each state follows from the one before by the operation. */
  ghost predicate IsRun(trace: seq<Sched>, ops: seq<Op>) {
    |trace| == |ops| + 1 && Ok(trace[0]) &&
    forall k: nat {:trigger RunStep(trace, ops, k)} | k < |ops| :: RunStep(trace, ops, k)
  }

  ghost predicate RunStep(trace: seq<Sched>, ops: seq<Op>, k: nat) {
    k < |ops| && k + 1 < |trace| && (Ok(trace[k]) ==> Alive(trace[k], ops[k]) && trace[k + 1] == Step(trace[k], ops[k]))
  }

  lemma {:induction false} RunOk(trace: seq<Sched>, ops: seq<Op>, k: nat)
    requires IsRun(trace, ops) && k < |trace|
    ensures Ok(trace[k])
    decreases k
  {
    if k > 0 {
      RunOk(trace, ops, k - 1);
      assert RunStep(trace, ops, k - 1);
      StepOk(trace[k - 1], ops[k - 1]);
    }
  }

  /** A trace that is followed as long as the invariant holds is a run exactly if it never leaves the invariant. */
  lemma RunExactly(trace: seq<Sched>, ops: seq<Op>)
    requires |trace| == |ops| + 1 && Ok(trace[0])
    requires forall k: nat | k < |ops| && Ok(trace[k]) :: trace[k + 1] == Step(trace[k], ops[k])
    ensures IsRun(trace, ops) <==> forall k: nat | k < |trace| :: Ok(trace[k])
  {
    if IsRun(trace, ops) {
      forall k: nat | k < |trace| ensures Ok(trace[k]) { RunOk(trace, ops, k); }
    } else {
      var k: nat :| k < |ops| && !RunStep(trace, ops, k);
      StepOk(trace[k], ops[k]);
      assert !Ok(trace[k + 1]);
    }
  }

  /** A decision wakes the sleepers that are due and no others. */
  lemma SameSleepers(s: Sched, alive: set<nat>, pids: set<nat>)
    requires Ok(s)
    ensures Process(s, alive, pids).sleep == WakeDue(s).sleep
  {
    PreparedOk(s, pids);
    assert Prepared(s, pids).sleep == WakeDue(s).sleep;
  }

  /** A sleeper leaves the sleep list only when its tick has come or its sleep is ended by name. */
  lemma LeavesSleep(s: Sched, op: Op, i: nat)
    requires Ok(s) && i in s.sleep
    ensures i < |s.threads|
    ensures || i in Step(s, op).sleep
            || (op.Decide? && s.threads[i].wake <= s.g.ticks)
            || (op.EndSleep? && s.threads[i].id == op.id)
  {
    WakeDueExact(s, i);
    match op
    case Decide(alive, pids) => SameSleepers(s, alive, pids);
    case GoToSleep(ms) =>
      if MayLeave(s) {
        var w := (s.g.ticks + SleepTicks(ms, s.g.hz)) % U64;
        assert PlaceOk(s, s.current);
        InsertIs(s.sleep, SleepPos(s.threads, s.sleep, w), s.current);
        assert KeptAt(s.sleep, Step(s, op).sleep, s.current, i);
      }
    case EndSleep(id) =>
      var t := FindFrom(s.threads, id, 0);
      if t.Some? && s.threads[t.value].status == Sleeping {
        assert PlaceOk(s, t.value);
        WithoutIs(s.sleep, IndexIn(s.sleep, t.value));
        assert KeptAt(s.sleep, Step(s, op).sleep, t.value, i);
      }
    case _ =>
  }

  /** A run that ends outside the invariant: a process dies before its thread is first picked. */
  lemma DeadPickBreaks()
    ensures Ok(Start(100, 10)) && Ok(Step(Start(100, 10), Spawn(1, true)))
    ensures var s := Step(Start(100, 10), Spawn(1, true));
      Ok(Step(s, Request)) && !Ok(Step(Step(s, Request), Decide({}, {})))
  {
    StartOk(100, 10);
    var s0 := Start(100, 10);
    CreateOk(s0, 1, true);
    FirstSpawn(s0);
    var s1 := Create(s0, 1, true);
    SameThreads(s1, Step(s1, Request));
    DyingThread(Step(s1, Request), 1);
  }

  lemma FirstSpawn(s: Sched)
    requires s == Start(100, 10)
    ensures var s' := Create(s, 1, true);
      && s'.ready == [1] && s'.sleep == [] && s'.current == 0
      && |s'.threads| == MAX_THREADS && s'.threads[0].status == Running && s'.threads[1].pid == 1
  {
    assert FreeFrom(s.threads, 1) == Some(1);
  }

  /** The current thread runs, and the only ready thread has lost its process. */
  lemma DyingThread(s: Sched, i: nat)
    requires Ok(s) && s.g.resched && s.sleep == [] && s.ready == [i] && i != s.current
    requires s.threads[s.current].status == Running && i < |s.threads| && s.threads[i].pid != 0
    ensures !Ok(Step(s, Decide({}, {})))
  {
    PreparedOk(s, {});
    var s1 := Prepared(s, {});
    assert s1.ready == [i] && s1.g.resched && s1.threads[i].pid == s.threads[i].pid;
    assert Queued(s1).ready == [i, s.current];
    ProcessOk(s, {}, {});
  }

  // ---- Fairness ----

  predicate Ahead(s: Sched, t: nat, k: nat) { k < |s.ready| && s.ready[k] == t }

  /** The operation picks a thread to run. */
  predicate Decision(s: Sched, op: Op)
    requires Ok(s)
  {
    op.Decide? && Decides(Prepared(s, op.pids))
  }

  /** Nothing overtakes a ready thread: each decision brings it one place closer, and nothing sends it back. */
  lemma NoOvertaking(s: Sched, op: Op, t: nat, k: nat)
    requires Ok(s) && Ahead(s, t, k)
    ensures !Decision(s, op) ==> Ahead(Step(s, op), t, k)
    ensures Decision(s, op) && k > 0 ==> Ahead(Step(s, op), t, k - 1)
    ensures Decision(s, op) && k == 0 ==>
      if PicksDead(s, op.alive, op.pids) then Exited(Step(s, op), t) else Step(s, op).current == t
  {
    match op
    case Decide(alive, pids) => DecisionOrder(s, alive, pids, t, k);
    case Spawn(pid, heap) => CreateOk(s, pid, heap);
    case EndSleep(id) => WakeUpOk(s, id);
    case Unblock(id) => WakeOk(s, id);
    case _ =>
  }

  predicate Exited(s: Sched, t: nat) { t < |s.threads| && s.threads[t].status == Zombie }

  lemma DecisionOrder(s: Sched, alive: set<nat>, pids: set<nat>, t: nat, k: nat)
    requires Ok(s) && Ahead(s, t, k)
    ensures var s1, s' := Prepared(s, pids), Process(s, alive, pids);
      if !Decides(s1) then Ahead(s', t, k) else if k > 0 then Ahead(s', t, k - 1)
      else if PicksDead(s, alive, pids) then Exited(s', t) else s'.current == t
  {
    PreparedOk(s, pids);
    var s1 := Prepared(s, pids);
    assert Ahead(s1, t, k);
    if Decides(s1) { assert Ahead(Queued(s1), t, k); }
  }

  ghost predicate Decided(trace: seq<Sched>, ops: seq<Op>, k: nat) {
    k < |ops| && k < |trace| && Ok(trace[k]) && Decision(trace[k], ops[k])
  }

  /** Step `k` finds the process of the picked thread `t` gone, and ends the thread. */
  ghost predicate PickedDead(trace: seq<Sched>, ops: seq<Op>, k: nat, t: nat) {
    && Decided(trace, ops, k) && k + 1 < |trace| && PicksDead(trace[k], ops[k].alive, ops[k].pids)
    && Exited(trace[k + 1], t)
  }

  /** Thread `t` runs in state `at`, or the decision before has found its process gone. */
  ghost predicate RunsAt(trace: seq<Sched>, ops: seq<Op>, at: nat, t: nat) {
    0 < at < |trace| && (trace[at].current == t || PickedDead(trace, ops, at - 1, t))
  }

  /** The decisions made from step `a` to step `b` of a run. */
  ghost function Decisions(trace: seq<Sched>, ops: seq<Op>, a: nat, b: nat): nat
    requires a <= b
    decreases b - a
  {
    if a == b then 0 else (if Decided(trace, ops, a) then 1 else 0) + Decisions(trace, ops, a + 1, b)
  }

  /** The first ready thread runs after a decision, unless its process is gone. */
  lemma RunsNow(trace: seq<Sched>, ops: seq<Op>, a: nat, t: nat)
    requires RunStep(trace, ops, a) && a < |trace| && Ahead(trace[a], t, 0) && Decided(trace, ops, a)
    ensures RunsAt(trace, ops, a + 1, t)
    ensures Decisions(trace, ops, a, a + 1) == 1
  {
    NoOvertaking(trace[a], ops[a], t, 0);
    assert Decisions(trace, ops, a + 1, a + 1) == 0;
  }

  /** Each decision of a run brings a ready thread one place closer. */
  lemma StepsCloser(trace: seq<Sched>, ops: seq<Op>, a: nat, t: nat, k: nat)
    requires IsRun(trace, ops) && a < |ops| && Ahead(trace[a], t, k)
    ensures RunStep(trace, ops, a)
    ensures if Decided(trace, ops, a) then k > 0 ==> Ahead(trace[a + 1], t, k - 1) else Ahead(trace[a + 1], t, k)
  {
    RunOk(trace, ops, a);
    assert RunStep(trace, ops, a);
    NoOvertaking(trace[a], ops[a], t, k);
  }

  /** A ready thread with `k` threads ahead of it runs within `k + 1` decisions, unless its process is gone by then. */
  lemma {:induction false} Fairness(trace: seq<Sched>, ops: seq<Op>, a: nat, b: nat, t: nat, k: nat) returns (at: nat)
    requires IsRun(trace, ops) && a <= b <= |ops| && Ahead(trace[a], t, k) && Decisions(trace, ops, a, b) >= k + 1
    ensures a < at <= b && RunsAt(trace, ops, at, t)
    ensures Decisions(trace, ops, a, at) == k + 1
    decreases b - a
  {
    StepsCloser(trace, ops, a, t, k);
    if !Decided(trace, ops, a) {
      at := Fairness(trace, ops, a + 1, b, t, k);
    } else if k > 0 {
      at := Fairness(trace, ops, a + 1, b, t, k - 1);
    } else {
      at := a + 1;
      RunsNow(trace, ops, a, t);
    }
  }
}
