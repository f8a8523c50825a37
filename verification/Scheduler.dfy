/** The scheduler's intrusive lists: one `next` link per thread, with the ready
    and the sleep list threaded through them. */
module Scheduler {
  import opened Basics
  import opened Counting
  import opened Schedule

  type Links = seq<Option<nat>>

  predicate LinkOk(next: Links, list: seq<nat>, k: nat) {
    k < |list| && list[k] < |next| && next[list[k]] == if k + 1 < |list| then Some(list[k + 1]) else None
  }

  function First(list: seq<nat>): Option<nat> { if list == [] then None else Some(list[0]) }

  function Last(list: seq<nat>): Option<nat> { if list == [] then None else Some(list[|list| - 1]) }

  /** Following the links from `head` gives `list`. */
  ghost predicate Chain(next: Links, head: Option<nat>, list: seq<nat>) {
    && |next| == MAX_THREADS && head == First(list)
    && forall k: nat {:trigger LinkOk(next, list, k)} | k < |list| :: LinkOk(next, list, k)
  }

  predicate Foreign(list: seq<nat>, other: seq<nat>, k: nat) { k < |list| && list[k] !in other }

  ghost predicate Disjoint(list: seq<nat>, other: seq<nat>) {
    forall k: nat {:trigger Foreign(list, other, k)} | k < |list| :: Foreign(list, other, k)
  }

  /** A link that is not on the list may change. */
  lemma ChainKeeps(next: Links, head: Option<nat>, list: seq<nat>, i: nat, v: Option<nat>)
    requires Chain(next, head, list) && i < |next| && i !in list
    ensures Chain(next[i := v], head, list)
  {
    var next' := next[i := v];
    forall k: nat | k < |list| ensures LinkOk(next', list, k) { assert LinkOk(next, list, k) && list[k] in list; }
  }

  lemma ChainAppend(next: Links, head: Option<nat>, list: seq<nat>, i: nat)
    requires Chain(next, head, list) && ListOk(list) && i < |next| && i !in list
    ensures list == [] ==> Chain(next[i := None], Some(i), [i])
    ensures list != [] ==>
      list[|list| - 1] < |next| && Chain(next[i := None][list[|list| - 1] := Some(i)], head, list + [i])
  {
    if list != [] {
      var m := |list| - 1;
      assert LinkOk(next, list, m) && list[m] in list;
      var next', list' := next[i := None][list[m] := Some(i)], list + [i];
      forall k: nat | k < |list'| ensures LinkOk(next', list', k) {
        if k < m { assert LinkOk(next, list, k) && Apart(list, k, m) && list[k] in list; }
      }
    } else {
      assert LinkOk(next[i := None], [i], 0);
    }
  }

  lemma ChainPop(next: Links, head: Option<nat>, list: seq<nat>)
    requires Chain(next, head, list) && ListOk(list) && list != [] && list[0] < |next|
    ensures Chain(next[list[0] := None], next[list[0]], list[1..])
  {
    var next', list' := next[list[0] := None], list[1..];
    assert LinkOk(next, list, 0);
    forall k: nat | k < |list'| ensures LinkOk(next', list', k) {
      assert LinkOk(next, list, k + 1) && Apart(list, 0, k + 1);
    }
  }

  /** Linking `i` in behind position `k - 1`. */
  lemma ChainInsert(next: Links, head: Option<nat>, list: seq<nat>, i: nat, k: nat)
    requires Chain(next, head, list) && ListOk(list) && i < |next| && i !in list && k <= |list|
    ensures k == 0 ==> Chain(next[i := head], Some(i), Insert(list, 0, i))
    ensures k > 0 ==> var p := list[k - 1];
      p < |next| && Chain(next[i := next[p]][p := Some(i)], head, Insert(list, k, i))
  {
    var r := Insert(list, k, i);
    assert forall j | 0 <= j < |r| :: r[j] == if j < k then list[j] else if j == k then i else list[j - 1];
    if k == 0 {
      var next' := next[i := head];
      forall j: nat | j < |r| ensures LinkOk(next', r, j) {
        if j > 0 { assert LinkOk(next, list, j - 1) && list[j - 1] in list; }
      }
    } else {
      var p := list[k - 1];
      assert LinkOk(next, list, k - 1) && p in list;
      var next' := next[i := next[p]][p := Some(i)];
      forall j: nat | j < |r| ensures LinkOk(next', r, j) {
        if j < k - 1 { assert LinkOk(next, list, j) && list[j] in list && Apart(list, j, k - 1); }
        else if j > k { assert LinkOk(next, list, j - 1) && list[j - 1] in list && Apart(list, k - 1, j - 1); }
      }
    }
  }

  /** Unlinking position `k`. */
  lemma ChainRemove(next: Links, head: Option<nat>, list: seq<nat>, k: nat)
    requires Chain(next, head, list) && ListOk(list) && k < |list| && list[k] < |next|
    ensures k == 0 ==> Chain(next[list[0] := None], next[list[0]], Without(list, 0))
    ensures k > 0 ==> var p := list[k - 1];
      p < |next| && Chain(next[p := next[list[k]]][list[k] := None], head, Without(list, k))
  {
    if k == 0 {
      ChainPop(next, head, list);
      assert Without(list, 0) == list[1..];
    } else {
      var r, p := Without(list, k), list[k - 1];
      assert LinkOk(next, list, k - 1) && LinkOk(next, list, k) && Apart(list, k - 1, k);
      var next' := next[p := next[list[k]]][list[k] := None];
      forall j: nat | j < |r| ensures LinkOk(next', r, j) {
        if j < k - 1 { assert LinkOk(next, list, j) && Apart(list, j, k - 1) && Apart(list, j, k); }
        else if j >= k { assert LinkOk(next, list, j + 1) && Apart(list, k - 1, j + 1) && Apart(list, k, j + 1); }
      }
    }
  }

  class Threads {
    var threads: seq<Thread>
    var next: Links
    var readyHead: Option<nat>
    var readyTail: Option<nat>
    var sleepHead: Option<nat>
    var readyCount: nat
    var sleepingCount: nat
    var current: nat
    var g: Globals
    ghost var spec: Sched

    /** The links hold these two lists. */
    ghost predicate Lists(ready: seq<nat>, sleep: seq<nat>)
      reads this`next, this`readyHead, this`readyTail, this`sleepHead, this`readyCount, this`sleepingCount
    {
      && Chain(next, readyHead, ready) && Chain(next, sleepHead, sleep) && readyTail == Last(ready)
      && readyCount == |ready| && sleepingCount == |sleep|
      && ListOk(ready) && ListOk(sleep) && Disjoint(ready, sleep)
    }

    /** The fields are those of the abstract state. */
    ghost predicate Same()
      reads this`threads, this`current, this`g, this`spec
    {
      threads == spec.threads && current == spec.current && g == spec.g && |threads| == MAX_THREADS
    }

    ghost predicate Valid()
      reads this
    {
      Ok(spec) && Same() && Lists(spec.ready, spec.sleep)
    }

    // ---- List operations ----

    method ReadyAppend(i: nat, ghost ready: seq<nat>, ghost sleep: seq<nat>)
      requires Lists(ready, sleep) && i < MAX_THREADS && i !in ready && i !in sleep
      modifies this`next, this`readyHead, this`readyTail, this`readyCount
      ensures Lists(ready + [i], sleep)
    {
      ghost var tail := if ready == [] then 0 else ready[|ready| - 1];
      ChainAppend(next, readyHead, ready, i);
      ChainKeeps(next, sleepHead, sleep, i, None);
      AppendIs(ready, i);
      assert ready != [] ==> Foreign(ready, sleep, |ready| - 1);
      next := next[i := None];
      if readyTail.None? {
        readyHead, readyTail := Some(i), Some(i);
        assert ready + [i] == [i];
      } else {
        ChainKeeps(next, sleepHead, sleep, tail, Some(i));
        next := next[readyTail.value := Some(i)];
        readyTail := Some(i);
      }
      readyCount := readyCount + 1;
      forall k: nat | k < |ready + [i]| ensures Foreign(ready + [i], sleep, k) {
        assert k < |ready| ==> Foreign(ready, sleep, k);
      }
    }

    method ReadyPop(ghost ready: seq<nat>, ghost sleep: seq<nat>) returns (r: Option<nat>)
      requires Lists(ready, sleep)
      modifies this`next, this`readyHead, this`readyTail, this`readyCount
      ensures r == First(ready) && Lists(if ready == [] then [] else ready[1..], sleep)
    {
      r := readyHead;
      if r.None? { return; }
      assert Bounded(ready, 0) && Foreign(ready, sleep, 0);
      ChainPop(next, readyHead, ready);
      ChainKeeps(next, sleepHead, sleep, ready[0], None);
      PopIs(ready);
      assert LinkOk(next, ready, 0);
      readyHead := next[r.value];
      if readyHead.None? { readyTail := None; }
      next := next[r.value := None];
      if readyCount > 0 { readyCount := readyCount - 1; }
      forall k: nat | k < |ready[1..]| ensures Foreign(ready[1..], sleep, k) { assert Foreign(ready, sleep, k + 1); }
    }

    method SleepPop(ghost ready: seq<nat>, ghost sleep: seq<nat>)
      requires Lists(ready, sleep) && sleepHead.Some?
      modifies this`next, this`sleepHead, this`sleepingCount
      ensures Lists(ready, sleep[1..])
    {
      var t := sleepHead.value;
      assert Bounded(sleep, 0);
      NotForeign(ready, sleep, 0);
      ChainPop(next, sleepHead, sleep);
      ChainKeeps(next, readyHead, ready, t, None);
      PopIs(sleep);
      sleepHead := next[t];
      next := next[t := None];
      if sleepingCount > 0 { sleepingCount := sleepingCount - 1; }
      forall k: nat | k < |ready| ensures Foreign(ready, sleep[1..], k) { assert Foreign(ready, sleep, k); }
    }

    /** Puts thread `i` behind all sleepers that wake no later. */
    method SleepInsert(i: nat, ghost ready: seq<nat>, ghost sleep: seq<nat>)
      requires Lists(ready, sleep) && i < MAX_THREADS == |threads| && i !in ready && i !in sleep
      modifies this`next, this`sleepHead, this`sleepingCount
      ensures Lists(ready, Insert(sleep, SleepPos(threads, sleep, threads[i].wake), i))
    {
      ghost var next0, k := next, SleepPos(threads, sleep, threads[i].wake);
      SleepBounds(sleep);
      SleepPosIs(threads, sleep, threads[i].wake);
      InsertIs(sleep, k, i);
      DisjointInsert(ready, sleep, k, i);
      ChainInsert(next, sleepHead, sleep, i, k);
      if sleepHead.None? || threads[i].wake < threads[sleepHead.value].wake {
        assert k == 0;
        ChainKeeps(next, readyHead, ready, i, sleepHead);
        next := next[i := sleepHead];
        sleepHead := Some(i);
        sleepingCount := sleepingCount + 1;
        return;
      }
      var cursor := sleepHead.value;
      ghost var j := 0;
      assert LinkOk(next, sleep, 0);
      while next[cursor].Some? && threads[next[cursor].value].wake <= threads[i].wake
        invariant next == next0 && sleepHead == old(sleepHead) && sleepingCount == old(sleepingCount)
        invariant j < |sleep| && cursor == sleep[j] && j < k && LinkOk(next, sleep, j)
        decreases |sleep| - j
      {
        cursor, j := next[cursor].value, j + 1;
        assert LinkOk(next, sleep, j);
        SleepPosAfter(threads, sleep, threads[i].wake, j);
      }
      SleepPosStop(threads, sleep, threads[i].wake, j);
      NotForeign(ready, sleep, j);
      ChainKeeps(next, readyHead, ready, i, next[cursor]);
      ChainKeeps(next[i := next[cursor]], readyHead, ready, cursor, Some(i));
      next := next[i := next[cursor]];
      next := next[cursor := Some(i)];
      sleepingCount := sleepingCount + 1;
    }

    /** Takes thread `i` out of the sleep list. */
    method SleepUnlink(i: nat, ghost ready: seq<nat>, ghost sleep: seq<nat>) returns (found: bool)
      requires Lists(ready, sleep)
      modifies this`next, this`sleepHead, this`sleepingCount
      ensures found <==> i in sleep
      ensures if found then Lists(ready, Without(sleep, IndexIn(sleep, i))) else Lists(ready, sleep)
    {
      ghost var next0, k := next, IndexIn(sleep, i);
      SleepBounds(sleep);
      var prev, cursor := None, sleepHead;
      ghost var j := 0;
      assert sleep != [] ==> LinkOk(next, sleep, 0);
      while cursor.Some? && cursor.value != i
        invariant next == next0 && sleepHead == old(sleepHead) && sleepingCount == old(sleepingCount)
        invariant j <= k && cursor == First(sleep[j..]) && prev == if j == 0 then None else Some(sleep[j - 1])
        decreases |sleep| - j
      {
        assert LinkOk(next, sleep, j);
        prev, cursor, j := cursor, next[cursor.value], j + 1;
        IndexAfter(sleep, i, j - 1);
      }
      if cursor.None? { return false; }
      IndexStop(sleep, i, j);
      NotForeign(ready, sleep, k);
      ChainRemove(next, sleepHead, sleep, k);
      WithoutIs(sleep, k);
      DisjointWithout(ready, sleep, k);
      if prev.None? {
        sleepHead := next[i];
      } else {
        NotForeign(ready, sleep, k - 1);
        ChainKeeps(next, readyHead, ready, prev.value, next[i]);
        next := next[prev.value := next[i]];
      }
      ChainKeeps(next, readyHead, ready, i, None);
      next := next[i := None];
      if sleepingCount > 0 { sleepingCount := sleepingCount - 1; }
      found := true;
    }

    // ---- Sections of the scheduler ----

    constructor (timerHz: nat, quantumTicks: nat)
      requires quantumTicks > 0
      ensures Valid() && spec == Start(timerHz, quantumTicks)
    {
      threads := seq(MAX_THREADS, i => if i == 0 then Thread(Running, 0, 0, 0) else Thread(Free, 0, 0, 0));
      next := seq(MAX_THREADS, _ => None);
      readyHead, readyTail, sleepHead, readyCount, sleepingCount := None, None, None, 0, 0;
      current, g := 0, Globals(0, timerHz, quantumTicks, quantumTicks, false, false, 1, 1);
      spec := Start(timerHz, quantumTicks);
      new;
      StartOk(timerHz, quantumTicks);
    }

    method TickIrq()
      requires Valid()
      modifies this`g, this`spec
      ensures Valid() && spec == Tick(old(spec))
      ensures g.resched <==> old(g.resched) || old(g.left) <= 1 || FirstDue(spec)
    {
      ghost var s' := Tick(spec);
      SameThreads(spec, s');
      assert spec.sleep != [] ==> Bounded(spec.sleep, 0);
      g := g.(ticks := (g.ticks + 1) % U64);
      if g.left > 0 { g := g.(left := g.left - 1); }
      if g.left == 0 { g := g.(resched := true, left := g.quantum); }
      if sleepHead.Some? && threads[sleepHead.value].wake <= g.ticks { g := g.(wakeup := true, resched := true); }
      spec := s';
    }

    /** Moves the first sleeper to the ready list. */
    method WakeHead()
      requires Valid() && FirstDue(spec)
      modifies this`next, this`readyHead, this`readyTail, this`readyCount, this`sleepHead
      modifies this`sleepingCount, this`threads, this`spec
      ensures Valid() && spec == WakeFirst(old(spec))
    {
      var t := sleepHead.value;
      ghost var ready, sleep, s' := spec.ready, spec.sleep, WakeFirst(spec);
      assert PlaceOk(spec, t);
      WakeFirstOk(spec);
      PopIs(sleep);
      SleepPop(ready, sleep);
      threads := threads[t := threads[t].(status := Ready)];
      ReadyAppend(t, ready, sleep[1..]);
      spec := s';
    }

    method WakeDueThreads()
      requires Valid()
      modifies this`next, this`readyHead, this`readyTail, this`readyCount, this`sleepHead
      modifies this`sleepingCount, this`threads, this`g, this`spec
      ensures Valid() && spec == WakeDue(old(spec))
    {
      assert spec.sleep != [] ==> Bounded(spec.sleep, 0);
      while sleepHead.Some? && threads[sleepHead.value].wake <= g.ticks
        invariant Valid() && WakeDue(spec) == WakeDue(old(spec)) && (spec.sleep != [] ==> Bounded(spec.sleep, 0))
        decreases |spec.sleep|
      {
        WakeHead();
        assert spec.sleep != [] ==> Bounded(spec.sleep, 0);
      }
      SameThreads(spec, WakeDue(spec));
      g := g.(wakeup := sleepHead.Some? && threads[sleepHead.value].wake <= g.ticks);
      spec := WakeDue(spec);
    }

    /** Frees the zombies; `pids` are the processes that can be reaped. */
    method ReapZombies(pids: set<nat>)
      requires Valid()
      modifies this`threads, this`spec
      ensures Valid() && spec == Reap(old(spec), pids)
    {
      ghost var s' := Reap(spec, pids);
      ReapOk(spec, pids);
      var i := 1;
      while i < MAX_THREADS
        invariant 1 <= i <= MAX_THREADS == |threads| && spec == old(spec)
        invariant forall j | 0 <= j < MAX_THREADS :: threads[j] == if j < i then s'.threads[j] else spec.threads[j]
      {
        var t := threads[i];
        if i != current && t.status == Zombie && (t.pid == 0 || t.pid in pids) {
          threads := threads[i := t.(status := Free, wake := 0)];
        }
        i := i + 1;
      }
      spec := s';
    }

    /** The scheduling section. There is always a thread to run. */
    method Schedule(alive: set<nat>, pids: set<nat>)
      requires Valid()
      modifies this
      ensures spec == Process(old(spec), alive, pids) && Same() && Lists(spec.ready, spec.sleep)
      ensures Alive(old(spec), Decide(alive, pids)) ==> Valid()
    {
      PreparedOk(spec, pids);
      ProcessOk(spec, alive, pids);
      WakeDueThreads();
      ReapZombies(pids);
      if g.resched || g.wakeup {
        PutBack();
        SwitchNext(alive);
      }
    }

    /** The running thread goes to the back of the ready list. */
    method PutBack()
      requires Valid()
      modifies this`next, this`readyHead, this`readyTail, this`readyCount, this`threads, this`g, this`spec
      ensures Valid() && spec == Queued(old(spec))
    {
      ghost var s' := Queued(spec);
      assert PlaceOk(spec, current);
      g := g.(resched := false, wakeup := false);
      if threads[current].status == Running {
        threads := threads[current := threads[current].(status := Ready)];
        ReadyAppend(current, spec.ready, spec.sleep);
      }
      spec := s';
    }

    /** Switches to the first ready thread. */
    method SwitchNext(alive: set<nat>)
      requires Valid() && spec.ready != [] && spec.ready[0] < MAX_THREADS
      modifies this`next, this`readyHead, this`readyTail, this`readyCount, this`threads, this`current, this`spec
      ensures spec == Switch(old(spec), alive) && Same() && Lists(spec.ready, spec.sleep)
    {
      var was := current;
      ghost var s' := Switch(spec, alive);
      var picked := ReadyPop(spec.ready, spec.sleep);
      var t := picked.value;
      if t == was {
        threads := threads[was := threads[was].(status := Running)];
      } else {
        threads := threads[t := threads[t].(status := Running)];
        current := t;
        if threads[t].pid != 0 && threads[t].pid !in alive {
          threads := threads[t := threads[t].(status := Zombie)];
          current := was;
          threads := threads[was := threads[was].(status := Running)];
        }
      }
      spec := s';
    }

    method FindThread(id: nat) returns (r: Option<nat>)
      requires |threads| == MAX_THREADS
      ensures r == FindFrom(threads, id, 0)
    {
      var i := 0;
      while i < MAX_THREADS
        invariant i <= MAX_THREADS && FindFrom(threads, id, 0) == FindFrom(threads, id, i)
      {
        if threads[i].status != Free && threads[i].id == id { return Some(i); }
        i := i + 1;
      }
      return None;
    }

    /** Creates a thread; 0 is a failure. `heap` says whether its stack could be allocated. */
    method CreateThread(pid: nat, heap: bool) returns (id: nat)
      requires Valid()
      modifies this`next, this`readyHead, this`readyTail, this`readyCount, this`threads, this`g, this`spec
      ensures Valid() && spec == Create(old(spec), pid, heap)
      ensures id != 0 <==> heap && exists i | 1 <= i < MAX_THREADS :: old(threads)[i].status == Free
      ensures id != 0 ==> id == old(g).nextId
    {
      ghost var s' := Create(spec, pid, heap);
      CreateOk(spec, pid, heap);
      FreeFromIs(threads, 1);
      var slot := 1;
      while slot < MAX_THREADS && threads[slot].status != Free
        invariant 1 <= slot <= MAX_THREADS && FreeFrom(threads, 1) == FreeFrom(threads, slot)
      {
        slot := slot + 1;
      }
      if slot == MAX_THREADS || !heap {
        spec := s';
        return 0;
      }
      assert PlaceOk(spec, slot);
      id := g.nextId;
      threads := threads[slot := Thread(Ready, id, pid, 0)];
      ReadyAppend(slot, spec.ready, spec.sleep);
      g := g.(nextId := g.nextId + 1, count := g.count + 1);
      spec := s';
    }

    /** Puts the running thread into the sleep list with wake tick `w`. */
    method PutToSleep(w: nat, ghost s': Sched)
      requires Same() && Lists(spec.ready, spec.sleep) && Ok(s') && current < MAX_THREADS
      requires current !in spec.ready && current !in spec.sleep && s'.threads[current].wake == w
      requires s' == spec.(threads := spec.threads[current := spec.threads[current].(status := Sleeping, wake := w)],
                           stamps := s'.stamps, clock := s'.clock, g := spec.g.(resched := true),
                           sleep := Insert(spec.sleep, SleepPos(spec.threads, spec.sleep, w), current))
      modifies this`next, this`sleepHead, this`sleepingCount, this`threads, this`g, this`spec
      ensures Valid() && spec == s'
    {
      threads := threads[current := threads[current].(wake := w, status := Sleeping)];
      SamePos(spec.threads, threads, spec.sleep, current, w);
      SleepInsert(current, spec.ready, spec.sleep);
      g := g.(resched := true);
      spec := s';
    }

    /** The running thread goes to sleep; thread 0 may not. */
    method SleepMs(ms: nat)
      requires Valid() && threads[current].status == Running
      modifies this`next, this`sleepHead, this`sleepingCount, this`threads, this`g, this`spec
      ensures Valid() && spec == SleepFor(old(spec), ms)
    {
      ghost var s' := SleepFor(spec, ms);
      SleepForOk(spec, ms);
      assert PlaceOk(spec, current) && IdOk(spec, current);
      if threads[current].id == 0 { return; }
      var w := (g.ticks + SleepTicks(ms, g.hz)) % U64;
      PutToSleep(w, s');
    }

    /** Ends the sleep of a thread early. */
    method WakeSleeper(id: nat) returns (ok: bool)
      requires Valid()
      modifies this`next, this`readyHead, this`readyTail, this`readyCount, this`sleepHead
      modifies this`sleepingCount, this`threads, this`g, this`spec
      ensures Valid() && spec == WakeUp(old(spec), id)
      ensures ok <==>
        FindFrom(old(threads), id, 0).Some? && old(threads)[FindFrom(old(threads), id, 0).value].status == Sleeping
    {
      ghost var s', ready, sleep := WakeUp(spec, id), spec.ready, spec.sleep;
      WakeUpOk(spec, id);
      var t := FindThread(id);
      if t.None? || threads[t.value].status != Sleeping { return false; }
      assert PlaceOk(spec, t.value);
      WithoutIs(sleep, IndexIn(sleep, t.value));
      var found := SleepUnlink(t.value, ready, sleep);
      threads := threads[t.value := threads[t.value].(wake := 0, status := Ready)];
      ReadyAppend(t.value, ready, Without(sleep, IndexIn(sleep, t.value)));
      g := g.(wakeup := true, resched := true);
      spec := s';
      ok := true;
    }

    /** Makes a blocked thread ready. */
    method WakeBlocked(id: nat) returns (ok: bool)
      requires Valid()
      modifies this`next, this`readyHead, this`readyTail, this`readyCount, this`threads, this`g, this`spec
      ensures Valid() && spec == Wake(old(spec), id)
      ensures ok <==>
        FindFrom(old(threads), id, 0).Some? && old(threads)[FindFrom(old(threads), id, 0).value].status == Blocked
    {
      ghost var s' := Wake(spec, id);
      WakeOk(spec, id);
      var t := FindThread(id);
      if t.None? || threads[t.value].status != Blocked { return false; }
      assert PlaceOk(spec, t.value);
      threads := threads[t.value := threads[t.value].(status := Ready)];
      ReadyAppend(t.value, spec.ready, spec.sleep);
      g := g.(wakeup := true, resched := true);
      spec := s';
      ok := true;
    }

    /** The running thread blocks; thread 0 may not. */
    method BlockCurrent()
      requires Valid() && threads[current].status == Running
      modifies this`threads, this`g, this`spec
      ensures Valid() && spec == Block(old(spec))
    {
      ghost var s' := Block(spec);
      LeaveOk(spec);
      assert IdOk(spec, current);
      if threads[current].id == 0 { return; }
      threads := threads[current := threads[current].(status := Blocked)];
      g := g.(resched := true);
      spec := s';
    }

    /** The running thread exits; thread 0 may not. */
    method ExitCurrent()
      requires Valid() && threads[current].status == Running
      modifies this`threads, this`g, this`spec
      ensures Valid() && spec == Exit(old(spec))
    {
      ghost var s' := Exit(spec);
      LeaveOk(spec);
      assert IdOk(spec, current);
      if threads[current].id == 0 { return; }
      threads := threads[current := threads[current].(status := Zombie)];
      g := g.(resched := true, count := if g.count > 0 then g.count - 1 else 0);
      spec := s';
    }

    // ---- Runs ----

    /** One section does to the lists what the state machine says. */
    method Perform(op: Op)
      requires Valid()
      modifies this
      ensures spec == Step(old(spec), op) && Same() && Lists(spec.ready, spec.sleep)
      ensures Alive(old(spec), op) ==> Valid()
    {
      match op {
        case TimerIrq => TickIrq();
        case Request =>
          SameThreads(spec, spec.(g := spec.g.(resched := true)));
          g := g.(resched := true);
          spec := spec.(g := spec.g.(resched := true));
        case Decide(alive, pids) => Schedule(alive, pids);
        case Spawn(pid, heap) => var id := CreateThread(pid, heap);
        case GoToSleep(ms) => if threads[current].status == Running { SleepMs(ms); }
        case EndSleep(id) => var ok := WakeSleeper(id);
        case Unblock(id) => var ok := WakeBlocked(id);
        case GoBlocked => if threads[current].status == Running { BlockCurrent(); }
        case Leave => if threads[current].status == Running { ExitCurrent(); }
      }
    }

    /** The scheduler follows every run of the state machine. */
    method Run(ops: seq<Op>, ghost trace: seq<Sched>)
      requires Valid() && IsRun(trace, ops) && trace[0] == spec
      modifies this
      ensures Valid() && spec == trace[|ops|]
    {
      var i := 0;
      while i < |ops|
        invariant i <= |ops| && Valid() && spec == trace[i]
      {
        assert RunStep(trace, ops, i);
        Perform(ops[i]);
        i := i + 1;
      }
    }
  }

  /** The place of a sleeper does not depend on a thread that is not in the list. */
  lemma {:induction false} SamePos(t: seq<Thread>, u: seq<Thread>, sleep: seq<nat>, i: nat, w: nat)
    requires |u| == |t| && i !in sleep && forall x | 0 <= x < |t| && x != i :: u[x].wake == t[x].wake
    ensures SleepPos(u, sleep, w) == SleepPos(t, sleep, w)
  {
    if sleep != [] {
      assert sleep[0] in sleep;
      SamePos(t, u, sleep[1..], i, w);
    }
  }

  lemma NotForeign(ready: seq<nat>, sleep: seq<nat>, k: nat)
    requires Disjoint(ready, sleep) && k < |sleep|
    ensures sleep[k] !in ready
  {
    forall j: nat | j < |ready| ensures ready[j] != sleep[k] { assert Foreign(ready, sleep, j); }
  }

  lemma SleepBounds(sleep: seq<nat>)
    requires ListOk(sleep)
    ensures forall k | 0 <= k < |sleep| :: sleep[k] < MAX_THREADS
  {
    forall k: nat | k < |sleep| ensures sleep[k] < MAX_THREADS { assert Bounded(sleep, k); }
  }

  lemma DisjointInsert(ready: seq<nat>, sleep: seq<nat>, k: nat, i: nat)
    requires Disjoint(ready, sleep) && k <= |sleep| && i !in ready
    ensures Disjoint(ready, Insert(sleep, k, i))
  {
    var r := Insert(sleep, k, i);
    forall j: nat | j < |ready| ensures Foreign(ready, r, j) { assert Foreign(ready, sleep, j) && ready[j] in ready; }
  }

  /** The position of a sleeper is past every sleeper that wakes no later, if the list is in order so far. */
  lemma {:induction false} SleepPosAfter(threads: seq<Thread>, sleep: seq<nat>, w: nat, j: nat)
    requires j < |sleep| && forall k | 0 <= k < |sleep| :: sleep[k] < |threads|
    requires SleepPos(threads, sleep, w) >= j && threads[sleep[j]].wake <= w
    ensures SleepPos(threads, sleep, w) > j
  {
    if j > 0 { SleepPosAfter(threads, sleep[1..], w, j - 1); }
  }

  lemma SleepPosStop(threads: seq<Thread>, sleep: seq<nat>, w: nat, j: nat)
    requires j < |sleep| && (forall k | 0 <= k < |sleep| :: sleep[k] < |threads|)
    requires SleepPos(threads, sleep, w) > j && (j + 1 < |sleep| ==> threads[sleep[j + 1]].wake > w)
    ensures SleepPos(threads, sleep, w) == j + 1
  {
    SleepPosIs(threads, sleep, w);
  }

  lemma {:induction false} IndexAfter(list: seq<nat>, x: nat, j: nat)
    requires j < |list| && j <= IndexIn(list, x) && list[j] != x
    ensures j < IndexIn(list, x)
  {
    if j > 0 { IndexAfter(list[1..], x, j - 1); }
  }

  lemma {:induction false} IndexStop(list: seq<nat>, x: nat, j: nat)
    requires j < |list| && j <= IndexIn(list, x) && list[j] == x
    ensures j == IndexIn(list, x)
  {
    if j > 0 { IndexStop(list[1..], x, j - 1); }
  }

  lemma DisjointWithout(ready: seq<nat>, sleep: seq<nat>, k: nat)
    requires Disjoint(ready, sleep) && k < |sleep|
    ensures Disjoint(ready, Without(sleep, k))
  {
    var r := Without(sleep, k);
    forall j: nat | j < |ready| ensures Foreign(ready, r, j) { assert Foreign(ready, sleep, j); }
  }
}
