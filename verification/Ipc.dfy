/** IPC channels: ring queues that refine FIFOs, and per-process handle tables. */
module Ipc {
  import opened Basics

  const MAX_CHANNELS: nat := 16
  const MESSAGE_MAX: nat := 256
  const DEPTH: nat := 8
  const HANDLES: nat := 8

  /** A queue slot: only the first `size` bytes of the buffer count. */
  datatype Message = Message(size: nat, data: seq<Byte>)

  datatype Ring = Ring(head: nat, count: nat, slots: seq<Message>)

  /** A channel has two sides; ring `s` holds the messages for side `s`. */
  datatype Channel = Channel(active: bool, closed: seq<bool>, pid: seq<nat>, rings: seq<Ring>)

  /** A process: handle `h` of its table names a channel, counted from 1. */
  datatype Process = Process(zombie: bool, handles: seq<nat>)

  type Processes = map<nat, Process>

  // ---- Ring queues ----

  predicate RingValid(r: Ring) {
    && r.head < DEPTH && r.count <= DEPTH && |r.slots| == DEPTH
    && forall i | 0 <= i < DEPTH :: r.slots[i].size <= |r.slots[i].data| == MESSAGE_MAX
  }

  function Payload(m: Message): seq<Byte>
    requires m.size <= |m.data|
  {
    m.data[..m.size]
  }

  function Nth(r: Ring, i: nat): seq<Byte>
    requires RingValid(r) && i < r.count
  {
    Payload(r.slots[(r.head + i) % DEPTH])
  }

  /** The messages of a ring, oldest first. */
  function Queued(r: Ring): (q: seq<seq<Byte>>)
    requires RingValid(r)
    ensures |q| == r.count
  {
    seq(r.count, i requires 0 <= i < r.count => Nth(r, i))
  }

  /** The buffer after `bytes` are copied to its start. */
  function Overlay(buffer: seq<Byte>, bytes: seq<Byte>): seq<Byte>
    requires |bytes| <= |buffer|
  {
    bytes + buffer[|bytes|..]
  }

  function Enqueue(r: Ring, bytes: seq<Byte>): Ring
    requires RingValid(r) && |bytes| <= MESSAGE_MAX
  {
    var at := (r.head + r.count) % DEPTH;
    r.(slots := r.slots[at := Message(|bytes|, Overlay(r.slots[at].data, bytes))], count := r.count + 1)
  }

  function Dequeue(r: Ring): Ring
    requires r.count > 0
  {
    r.(head := (r.head + 1) % DEPTH, count := r.count - 1)
  }

  lemma EnqueueIs(r: Ring, bytes: seq<Byte>)
    requires RingValid(r) && r.count < DEPTH && |bytes| <= MESSAGE_MAX
    ensures RingValid(Enqueue(r, bytes)) && Queued(Enqueue(r, bytes)) == Queued(r) + [bytes]
  {
    var r', at := Enqueue(r, bytes), (r.head + r.count) % DEPTH;
    assert r'.slots[at].data[..|bytes|] == bytes;
    forall i | 0 <= i < r.count ensures Nth(r', i) == Nth(r, i) { assert (r.head + i) % DEPTH != at; }
  }

  lemma DequeueIs(r: Ring)
    requires RingValid(r) && r.count > 0
    ensures RingValid(Dequeue(r)) && Queued(r) == [Nth(r, 0)] + Queued(Dequeue(r))
  {
    var r' := Dequeue(r);
    forall i | 0 <= i < r'.count ensures Nth(r', i) == Nth(r, i + 1) { NextSlot(r.head, i); }
  }

  lemma NextSlot(head: nat, i: nat)
    requires head < DEPTH && i < DEPTH
    ensures ((head + 1) % DEPTH + i) % DEPTH == (head + (i + 1)) % DEPTH
  {
    assert (head + 1) % DEPTH == if head + 1 < DEPTH then head + 1 else 0;
  }

  // ---- Handles ----

  function SideOf(ch: Channel, pid: nat): Option<nat>
    requires |ch.pid| == 2
  {
    if !ch.active then None else if ch.pid[0] == pid then Some(0) else if ch.pid[1] == pid then Some(1) else None
  }

  predicate ChannelValid(ch: Channel) {
    && |ch.closed| == |ch.pid| == |ch.rings| == 2 && RingValid(ch.rings[0]) && RingValid(ch.rings[1])
    && (ch.active ==> ch.pid[0] != ch.pid[1] && !(ch.closed[0] && ch.closed[1]))
  }

  /** Channel `c` is open on the side of `pid`. */
  predicate OpenFor(channels: seq<Channel>, c: nat, pid: nat) {
    && c < |channels| && |channels[c].pid| == |channels[c].closed| == 2
    && SideOf(channels[c], pid).Some? && !channels[c].closed[SideOf(channels[c], pid).value]
  }

  /** A handle in use names a channel open on its process's side. */
  predicate HandleOk(channels: seq<Channel>, procs: Processes, pid: nat, h: nat) {
    && pid in procs && h < |procs[pid].handles|
    && (procs[pid].handles[h] != 0 ==> OpenFor(channels, procs[pid].handles[h] - 1, pid))
  }

  /** A process holds a channel under one handle only. */
  predicate OnceOk(procs: Processes, pid: nat, g: nat, h: nat) {
    && pid in procs && g < |procs[pid].handles| && h < |procs[pid].handles|
    && (procs[pid].handles[g] == procs[pid].handles[h] != 0 ==> g == h)
  }

  predicate ProcessOk(procs: Processes, pid: nat) {
    && pid in procs && pid != 0 && |procs[pid].handles| == HANDLES
    && (procs[pid].zombie ==> procs[pid].handles == NoHandles())
  }

  function NoHandles(): seq<nat> { seq(HANDLES, _ => 0) }

  ghost predicate HandlesOk(channels: seq<Channel>, procs: Processes) {
    && (forall pid {:trigger ProcessOk(procs, pid)} | pid in procs :: ProcessOk(procs, pid))
    && (forall pid, h: nat {:trigger HandleOk(channels, procs, pid, h)} | pid in procs && h < HANDLES ::
           HandleOk(channels, procs, pid, h))
    && (forall pid, g: nat, h: nat {:trigger OnceOk(procs, pid, g, h)} | pid in procs && g < HANDLES && h < HANDLES ::
           OnceOk(procs, pid, g, h))
  }

  // ---- What was sent and received ----

  /** The messages sent to one side since its channel was created, and what
      each receive was given, with the room it offered. */
  datatype Log = Log(sent: seq<seq<Byte>>, got: seq<seq<Byte>>, room: seq<nat>)

  /** The start of a message, as much as fits. */
  function Cut(b: seq<Byte>, room: nat): (r: seq<Byte>)
    ensures r <= b && (r == b || |r| == room) && |r| <= room
  {
    if |b| <= room then b else b[..room]
  }

  predicate GotOk(l: Log, i: nat) { i < |l.got| == |l.room| <= |l.sent| && l.got[i] == Cut(l.sent[i], l.room[i]) }

  /** Received messages are those sent, in order, each cut only to the room offered;
      the ring holds the rest. */
  ghost predicate LogOk(r: Ring, l: Log) {
    && RingValid(r) && |l.got| == |l.room| <= |l.sent|
    && (forall i: nat {:trigger GotOk(l, i)} | i < |l.got| :: GotOk(l, i))
    && Queued(r) == l.sent[|l.got|..]
  }

  ghost predicate FlowOk(channels: seq<Channel>, logs: seq<seq<Log>>, c: nat, s: nat) {
    && c < |channels| == |logs| && s < 2 && |channels[c].rings| == |logs[c]| == 2
    && LogOk(channels[c].rings[s], logs[c][s])
  }

  ghost predicate FlowsOk(channels: seq<Channel>, logs: seq<seq<Log>>) {
    && |channels| == |logs| == MAX_CHANNELS
    && (forall c: nat {:trigger ChannelValid(channels[c])} | c < MAX_CHANNELS :: ChannelValid(channels[c]))
    && (forall c: nat, s: nat {:trigger FlowOk(channels, logs, c, s)} | c < MAX_CHANNELS && s < 2 ::
           FlowOk(channels, logs, c, s))
  }

  function EmptyLog(): Log { Log([], [], []) }

  lemma SendLog(r: Ring, l: Log, bytes: seq<Byte>)
    requires LogOk(r, l) && r.count < DEPTH && |bytes| <= MESSAGE_MAX
    ensures LogOk(Enqueue(r, bytes), l.(sent := l.sent + [bytes]))
  {
    EnqueueIs(r, bytes);
    var l' := l.(sent := l.sent + [bytes]);
    forall i: nat | i < |l'.got| ensures GotOk(l', i) { assert GotOk(l, i); }
    assert l'.sent[|l.got|..] == l.sent[|l.got|..] + [bytes];
  }

  lemma RecvLog(r: Ring, l: Log, room: nat)
    requires LogOk(r, l) && r.count > 0
    ensures |l.got| < |l.sent| && Nth(r, 0) == l.sent[|l.got|]
    ensures LogOk(Dequeue(r), l.(got := l.got + [Cut(Nth(r, 0), room)], room := l.room + [room]))
  {
    DequeueIs(r);
    assert Queued(r)[0] == Nth(r, 0);
    var l' := l.(got := l.got + [Cut(Nth(r, 0), room)], room := l.room + [room]);
    forall i: nat | i < |l'.got| ensures GotOk(l', i) { if i < |l.got| { assert GotOk(l, i); } }
    assert l.sent[|l.got|..] == [l.sent[|l.got|]] + l.sent[|l'.got|..];
  }

  // ---- Steps ----

  function ClearHandle(procs: Processes, pid: nat, h: nat): Processes
    requires pid in procs && h < |procs[pid].handles|
  {
    procs[pid := procs[pid].(handles := procs[pid].handles[h := 0])]
  }

  function SetHandle(procs: Processes, pid: nat, h: nat, id: nat): Processes
    requires pid in procs && h < |procs[pid].handles|
  {
    procs[pid := procs[pid].(handles := procs[pid].handles[h := id])]
  }

  function CloseSide(ch: Channel, s: nat): Channel
    requires |ch.closed| == 2 && s < 2
  {
    var closed := ch.closed[s := true];
    ch.(closed := closed, active := ch.active && !(closed[0] && closed[1]))
  }

  function NewChannel(ch: Channel, owner: nat, peer: nat): Channel
    requires |ch.rings| == 2
  {
    Channel(true, [false, false], [owner, peer],
            [ch.rings[0].(head := 0, count := 0), ch.rings[1].(head := 0, count := 0)])
  }

  /** Same sides in use: only the queues may differ. */
  predicate SameSides(ch: Channel, ch': Channel) {
    ch'.active == ch.active && ch'.closed == ch.closed && ch'.pid == ch.pid
  }

  lemma QueueStep(channels: seq<Channel>, procs: Processes, c: nat, ch: Channel)
    requires HandlesOk(channels, procs) && c < |channels| && SameSides(channels[c], ch)
    ensures HandlesOk(channels[c := ch], procs)
  {
    var channels' := channels[c := ch];
    forall pid, h: nat | pid in procs && h < HANDLES ensures HandleOk(channels', procs, pid, h) {
      assert HandleOk(channels, procs, pid, h);
    }
  }

  lemma ClearStep(channels: seq<Channel>, procs: Processes, pid: nat, h: nat)
    requires HandlesOk(channels, procs) && pid in procs && h < HANDLES == |procs[pid].handles|
    ensures HandlesOk(channels, ClearHandle(procs, pid, h))
  {
    var procs' := ClearHandle(procs, pid, h);
    forall p | p in procs' ensures ProcessOk(procs', p) { assert ProcessOk(procs, p); }
    forall p, g: nat | p in procs' && g < HANDLES ensures HandleOk(channels, procs', p, g) {
      assert HandleOk(channels, procs, p, g);
    }
    forall p, g: nat, k: nat | p in procs' && g < HANDLES && k < HANDLES ensures OnceOk(procs', p, g, k) {
      assert OnceOk(procs, p, g, k);
    }
  }

  /** Closing the side of `pid` once its handle is gone leaves no handle dangling. */
  lemma CloseStep(channels: seq<Channel>, procs: Processes, c: nat, pid: nat, s: nat)
    requires HandlesOk(channels, procs) && c < |channels| && ChannelValid(channels[c])
    requires SideOf(channels[c], pid) == Some(s)
    requires forall h | 0 <= h < HANDLES && pid in procs && h < |procs[pid].handles| :: procs[pid].handles[h] != c + 1
    ensures HandlesOk(channels[c := CloseSide(channels[c], s)], procs)
  {
    var channels' := channels[c := CloseSide(channels[c], s)];
    forall p, h: nat | p in procs && h < HANDLES ensures HandleOk(channels', procs, p, h) {
      assert HandleOk(channels, procs, p, h);
    }
  }

  lemma CloseFlow(channels: seq<Channel>, logs: seq<seq<Log>>, c: nat, s: nat)
    requires FlowsOk(channels, logs) && c < MAX_CHANNELS && s < 2 && |channels[c].closed| == 2
    ensures FlowsOk(channels[c := CloseSide(channels[c], s)], logs)
  {
    var channels' := channels[c := CloseSide(channels[c], s)];
    assert ChannelValid(channels[c]);
    forall x: nat | x < MAX_CHANNELS ensures ChannelValid(channels'[x]) { assert ChannelValid(channels[x]); }
    forall x: nat, t: nat | x < MAX_CHANNELS && t < 2 ensures FlowOk(channels', logs, x, t) {
      assert FlowOk(channels, logs, x, t);
    }
  }

  /** A new channel in a free slot, under two free handles. */
  lemma CreateStep(channels: seq<Channel>, procs: Processes, c: nat, owner: nat, peer: nat, g: nat, h: nat)
    requires HandlesOk(channels, procs) && c < |channels| && ChannelValid(channels[c]) && !channels[c].active
    requires owner in procs && peer in procs && owner != peer && !procs[owner].zombie && !procs[peer].zombie
    requires g < HANDLES && h < HANDLES && |procs[owner].handles| == |procs[peer].handles| == HANDLES
    ensures HandlesOk(channels[c := NewChannel(channels[c], owner, peer)],
                      SetHandle(SetHandle(procs, owner, g, c + 1), peer, h, c + 1))
  {
    var channels' := channels[c := NewChannel(channels[c], owner, peer)];
    var procs' := SetHandle(SetHandle(procs, owner, g, c + 1), peer, h, c + 1);
    forall p | p in procs' ensures ProcessOk(procs', p) { assert ProcessOk(procs, p); }
    forall p, k: nat | p in procs' && k < HANDLES ensures HandleOk(channels', procs', p, k) {
      assert HandleOk(channels, procs, p, k);
    }
    forall p, j: nat, k: nat | p in procs' && j < HANDLES && k < HANDLES ensures OnceOk(procs', p, j, k) {
      assert OnceOk(procs, p, j, k) && HandleOk(channels, procs, p, j) && HandleOk(channels, procs, p, k);
    }
  }

  lemma CreateFlow(channels: seq<Channel>, logs: seq<seq<Log>>, c: nat, owner: nat, peer: nat)
    requires FlowsOk(channels, logs) && c < MAX_CHANNELS && owner != peer && |channels[c].rings| == 2
    ensures FlowsOk(channels[c := NewChannel(channels[c], owner, peer)], logs[c := [EmptyLog(), EmptyLog()]])
  {
    var channels', logs' := channels[c := NewChannel(channels[c], owner, peer)], logs[c := [EmptyLog(), EmptyLog()]];
    assert ChannelValid(channels[c]);
    forall x: nat | x < MAX_CHANNELS ensures ChannelValid(channels'[x]) { assert ChannelValid(channels[x]); }
    forall x: nat, t: nat | x < MAX_CHANNELS && t < 2 ensures FlowOk(channels', logs', x, t) {
      assert FlowOk(channels, logs, x, t);
    }
  }

  /** Changing one ring together with its log. */
  lemma RingFlow(channels: seq<Channel>, logs: seq<seq<Log>>, c: nat, s: nat, r: Ring, l: Log)
    requires FlowsOk(channels, logs) && c < MAX_CHANNELS && s < 2 && |channels[c].rings| == |logs[c]| == 2
    requires LogOk(r, l)
    ensures FlowsOk(channels[c := channels[c].(rings := channels[c].rings[s := r])], logs[c := logs[c][s := l]])
  {
    var channels', logs' := channels[c := channels[c].(rings := channels[c].rings[s := r])], logs[c := logs[c][s := l]];
    assert ChannelValid(channels[c]);
    forall x: nat | x < MAX_CHANNELS ensures ChannelValid(channels'[x]) { assert ChannelValid(channels[x]); }
    forall x: nat, t: nat | x < MAX_CHANNELS && t < 2 ensures FlowOk(channels', logs', x, t) {
      assert FlowOk(channels, logs, x, t);
    }
  }

  predicate HeldAt(procs: Processes, pid: nat, h: nat) {
    pid in procs && h < |procs[pid].handles| && procs[pid].handles[h] != 0
  }

  predicate NotHeldBy(procs: Processes, pid: nat, id: nat) { pid in procs ==> id !in procs[pid].handles }

  /** No process has a handle to channel `id`. */
  ghost predicate NoHolder(procs: Processes, id: nat) {
    forall p {:trigger NotHeldBy(procs, p, id)} | p in procs :: NotHeldBy(procs, p, id)
  }

  /** Process `p` gained no handle. */
  predicate Fewer(procs: Processes, procs': Processes, p: nat) {
    && p in procs && p in procs' && |procs'[p].handles| == |procs[p].handles|
    && forall k | 0 <= k < |procs'[p].handles| ::
      procs'[p].handles[k] == 0 || procs'[p].handles[k] == procs[p].handles[k]
  }

  lemma StillNoHolder(procs: Processes, procs': Processes, id: nat)
    requires id != 0 && NoHolder(procs, id) && procs'.Keys <= procs.Keys
    requires forall p | p in procs' :: Fewer(procs, procs', p)
    ensures NoHolder(procs', id)
  {
    forall p | p in procs' ensures NotHeldBy(procs', p, id) {
      assert NotHeldBy(procs, p, id) && Fewer(procs, procs', p);
    }
  }

  /** Once its two sides have dropped it, nobody holds a channel. */
  lemma LastHolder(channels: seq<Channel>, procs: Processes, procs': Processes, pid: nat, h: nat, e: End)
    requires HandlesOk(channels, procs) && EndOf(channels, procs, pid, h + 1) == Some(e)
    requires ChannelValid(channels[e.channel])
    requires pid in procs' && procs'[pid] == procs[pid].(handles := procs[pid].handles[h := 0])
    requires procs'.Keys == procs.Keys && forall p | p in procs' :: Fewer(procs, procs', p)
    requires || channels[e.channel].closed[1 - e.side]
             || NotHeldBy(procs', channels[e.channel].pid[1 - e.side], e.channel + 1)
    ensures NoHolder(procs', e.channel + 1)
  {
    var id := e.channel + 1;
    assert ProcessOk(procs, pid);
    forall p | p in procs' ensures NotHeldBy(procs', p, id) {
      assert ProcessOk(procs, p) && Fewer(procs, procs', p);
      forall k: nat | k < HANDLES ensures procs'[p].handles[k] != id {
        assert HandleOk(channels, procs, p, k) && OnceOk(procs, pid, k, h);
      }
    }
  }

  /** A process without handles, new or exited. */
  lemma ProcessStep(channels: seq<Channel>, procs: Processes, pid: nat, zombie: bool)
    requires HandlesOk(channels, procs) && pid != 0
    ensures HandlesOk(channels, procs[pid := Process(zombie, NoHandles())])
  {
    var procs' := procs[pid := Process(zombie, NoHandles())];
    forall p | p in procs' ensures ProcessOk(procs', p) { assert p != pid ==> ProcessOk(procs, p); }
    forall p, g: nat | p in procs' && g < HANDLES ensures HandleOk(channels, procs', p, g) {
      assert p != pid ==> HandleOk(channels, procs, p, g);
    }
    forall p, g: nat, k: nat | p in procs' && g < HANDLES && k < HANDLES ensures OnceOk(procs', p, g, k) {
      assert p != pid ==> OnceOk(procs, p, g, k);
    }
  }

  lemma RemoveStep(channels: seq<Channel>, procs: Processes, pid: nat)
    requires HandlesOk(channels, procs)
    ensures HandlesOk(channels, procs - {pid})
  {
    var procs' := procs - {pid};
    forall p | p in procs' ensures ProcessOk(procs', p) { assert ProcessOk(procs, p); }
    forall p, g: nat | p in procs' && g < HANDLES ensures HandleOk(channels, procs', p, g) {
      assert HandleOk(channels, procs, p, g);
    }
    forall p, g: nat, k: nat | p in procs' && g < HANDLES && k < HANDLES ensures OnceOk(procs', p, g, k) {
      assert OnceOk(procs, p, g, k);
    }
  }

  datatype End = End(channel: nat, side: nat)

  /** The channel and side that a handle stands for. */
  function EndOf(channels: seq<Channel>, procs: Processes, pid: nat, handle: nat): Option<End> {
    if pid !in procs || handle == 0 || handle > |procs[pid].handles| then None
    else
      var id := procs[pid].handles[handle - 1];
      if id == 0 || id > |channels| || !OpenFor(channels, id - 1, pid) then None
      else Some(End(id - 1, SideOf(channels[id - 1], pid).value))
  }

  predicate Alive(procs: Processes, pid: nat) { pid in procs && !procs[pid].zombie }

  predicate HasFree(procs: Processes, pid: nat) { pid in procs && 0 in procs[pid].handles }

  ghost predicate CanCreate(channels: seq<Channel>, procs: Processes, owner: nat, peer: nat) {
    && owner != peer && Alive(procs, owner) && Alive(procs, peer) && HasFree(procs, owner) && HasFree(procs, peer)
    && exists c | 0 <= c < |channels| :: !channels[c].active
  }

  datatype Op =
    | Spawn(pid: nat) | Exit(pid: nat) | Reap(pid: nat) | Create(owner: nat, peer: nat)
    | Close(pid: nat, handle: nat)
    | Send(pid: nat, handle: nat, bytes: seq<Byte>)
    | Recv(pid: nat, handle: nat, room: nat)

  class Kernel {
    var channels: seq<Channel>
    var procs: Processes
    ghost var logs: seq<seq<Log>>

    ghost predicate Valid()
      reads this
    {
      FlowsOk(channels, logs) && HandlesOk(channels, procs)
    }

    constructor ()
      ensures Valid() && procs == map[] && AllFree(channels, 0)
    {
      var none := Message(0, seq(MESSAGE_MAX, _ => 0));
      var ring := Ring(0, 0, seq(DEPTH, _ => none));
      channels := seq(MAX_CHANNELS, _ => Channel(false, [false, false], [0, 0], [ring, ring]));
      procs := map[];
      logs := seq(MAX_CHANNELS, _ => [EmptyLog(), EmptyLog()]);
      new;
      forall c: nat | c < MAX_CHANNELS ensures ChannelValid(channels[c]) {}
      forall c: nat, s: nat | c < MAX_CHANNELS && s < 2 ensures FlowOk(channels, logs, c, s) {}
    }

    // ---- Lookups ----

    method FreeHandle(pid: nat) returns (r: Option<nat>)
      requires pid in procs && |procs[pid].handles| == HANDLES
      ensures r.Some? <==> HasFree(procs, pid)
      ensures r.Some? ==> r.value < HANDLES && procs[pid].handles[r.value] == 0 && 0 !in procs[pid].handles[..r.value]
    {
      var i := 0;
      while i < HANDLES
        invariant i <= HANDLES && 0 !in procs[pid].handles[..i]
      {
        if procs[pid].handles[i] == 0 { return Some(i); }
        i := i + 1;
      }
      return None;
    }

    method FreeChannel() returns (r: Option<nat>)
      requires |channels| == MAX_CHANNELS
      ensures r.Some? <==> exists c | 0 <= c < |channels| :: !channels[c].active
      ensures r.Some? ==> r.value < MAX_CHANNELS && !channels[r.value].active
      ensures r.Some? ==> forall c | 0 <= c < r.value :: channels[c].active
    {
      var i := 0;
      while i < MAX_CHANNELS
        invariant i <= MAX_CHANNELS && forall c | 0 <= c < i :: channels[c].active
      {
        if !channels[i].active { return Some(i); }
        i := i + 1;
      }
      return None;
    }

    method FindEnd(pid: nat, handle: nat) returns (r: Option<End>)
      requires Valid()
      ensures r == EndOf(channels, procs, pid, handle)
      ensures r.Some? <==> pid in procs && 0 < handle <= |procs[pid].handles| && procs[pid].handles[handle - 1] != 0
      ensures r.Some? ==> r.value.channel < MAX_CHANNELS && r.value.side < 2
    {
      if pid !in procs { return None; }
      assert ProcessOk(procs, pid);
      if handle == 0 || handle > HANDLES { return None; }
      assert HandleOk(channels, procs, pid, handle - 1);
      var id := procs[pid].handles[handle - 1];
      if id == 0 || id > MAX_CHANNELS { return None; }
      assert ChannelValid(channels[id - 1]);
      var side := SideOf(channels[id - 1], pid);
      if side.None? || channels[id - 1].closed[side.value] { return None; }
      return Some(End(id - 1, side.value));
    }

    // ---- Operations ----

    /** Connects two live processes; 0 is a failure. */
    method CreateChannel(owner: nat, peer: nat) returns (handle: nat, ghost peerHandle: nat, ghost c: nat)
      requires Valid()
      modifies this`channels, this`procs, this`logs
      ensures Valid()
      ensures handle != 0 <==> CanCreate(old(channels), old(procs), owner, peer)
      ensures handle == 0 ==> channels == old(channels) && procs == old(procs) && logs == old(logs)
      ensures handle != 0 ==> Creates(old(channels), old(procs), old(logs), owner, peer, handle, peerHandle, c)
      ensures handle != 0 ==> channels == old(channels)[c := NewChannel(old(channels)[c], owner, peer)]
      ensures handle != 0 ==>
        procs == SetHandle(SetHandle(old(procs), owner, handle - 1, c + 1), peer, peerHandle - 1, c + 1)
      ensures handle != 0 ==> logs == old(logs)[c := [EmptyLog(), EmptyLog()]]
      ensures handle != 0 ==> forall d: nat | d < c < |old(channels)| :: old(channels)[d].active
      ensures handle != 0 ==>
        && EndOf(channels, procs, owner, handle) == Some(End(c, 0))
        && EndOf(channels, procs, peer, peerHandle) == Some(End(c, 1))
    {
      c, peerHandle := 0, 0;
      if owner == 0 || peer == 0 || owner == peer {
        if owner in procs && peer in procs { assert ProcessOk(procs, owner) && ProcessOk(procs, peer); }
        return 0, 0, 0;
      }
      if owner !in procs || peer !in procs || procs[owner].zombie || procs[peer].zombie { return 0, 0, 0; }
      assert ProcessOk(procs, owner) && ProcessOk(procs, peer);
      var g := FreeHandle(owner);
      var h := FreeHandle(peer);
      if g.None? || h.None? { return 0, 0, 0; }
      var free := FreeChannel();
      if free.None? { return 0, 0, 0; }
      assert ChannelValid(channels[free.value]);
      CreateStep(channels, procs, free.value, owner, peer, g.value, h.value);
      CreateFlow(channels, logs, free.value, owner, peer);
      channels := channels[free.value := NewChannel(channels[free.value], owner, peer)];
      procs := SetHandle(SetHandle(procs, owner, g.value, free.value + 1), peer, h.value, free.value + 1);
      logs := logs[free.value := [EmptyLog(), EmptyLog()]];
      return g.value + 1, h.value + 1, free.value;
    }

    /** Closes one side; the channel is free again once both are closed. */
    method CloseChannel(pid: nat, handle: nat) returns (ok: bool)
      requires Valid()
      modifies this`channels, this`procs
      ensures Valid()
      ensures ok <==> EndOf(old(channels), old(procs), pid, handle).Some?
      ensures !ok ==> channels == old(channels) && procs == old(procs)
      ensures ok ==> var e := EndOf(old(channels), old(procs), pid, handle).value;
        Closes(old(channels), old(procs), channels, procs, pid, handle, e)
      ensures ok ==> var e := EndOf(old(channels), old(procs), pid, handle).value;
        ClosedOn(old(channels)[e.channel], channels[e.channel], e.side) && EndOf(channels, procs, pid, handle).None?
    {
      var e := FindEnd(pid, handle);
      if e.None? { return false; }
      CloseHandle(pid, handle - 1, e.value);
      ok := true;
    }

    method CloseHandle(pid: nat, h: nat, e: End)
      requires Valid() && EndOf(channels, procs, pid, h + 1) == Some(e)
      modifies this`channels, this`procs
      ensures Valid() && Closes(old(channels), old(procs), channels, procs, pid, h + 1, e)
      ensures ClosedOn(old(channels)[e.channel], channels[e.channel], e.side)
    {
      assert ProcessOk(procs, pid) && HandleOk(channels, procs, pid, h) && ChannelValid(channels[e.channel]);
      forall g: nat | g < HANDLES && g != h ensures procs[pid].handles[g] != e.channel + 1 {
        assert OnceOk(procs, pid, g, h);
      }
      ClearStep(channels, procs, pid, h);
      procs := ClearHandle(procs, pid, h);
      CloseStep(channels, procs, e.channel, pid, e.side);
      CloseFlow(channels, logs, e.channel, e.side);
      channels := channels[e.channel := CloseSide(channels[e.channel], e.side)];
    }

    /** Both ends of a channel are closed, one after the other: in between nothing can be sent, and afterwards
        the channel is free. */
    method CloseBoth(pid: nat, handle: nat, peer: nat, peerHandle: nat, bytes: seq<Byte>)
      returns (sent: nat, ghost c: nat)
      requires Valid() && EndOf(channels, procs, pid, handle).Some? && EndOf(channels, procs, peer, peerHandle).Some?
      requires var e, f := EndOf(channels, procs, pid, handle).value, EndOf(channels, procs, peer, peerHandle).value;
        e.channel == f.channel && pid != peer
      modifies this`channels, this`procs, this`logs
      ensures Valid() && sent == 0 && logs == old(logs)
      ensures c == EndOf(old(channels), old(procs), pid, handle).value.channel && !channels[c].active
    {
      c := EndOf(channels, procs, pid, handle).value.channel;
      assert ChannelValid(channels[c]);
      var ok := CloseChannel(pid, handle);
      sent := SendMessage(peer, peerHandle, bytes);
      ok := CloseChannel(peer, peerHandle);
    }

    /** Queues a message for the other side; 0 is a failure. */
    method SendMessage(pid: nat, handle: nat, bytes: seq<Byte>) returns (r: nat)
      requires Valid()
      modifies this`channels, this`logs
      ensures Valid()
      ensures r == if CanSend(old(channels), old(procs), pid, handle, bytes) then |bytes| else 0
      ensures r != 0 <==>
        && 0 < |bytes| <= MESSAGE_MAX && Alive(procs, pid) && EndOf(old(channels), procs, pid, handle).Some?
        && var e := EndOf(old(channels), procs, pid, handle).value;
        && !old(channels)[e.channel].closed[1 - e.side] && Waiting(old(logs), End(e.channel, 1 - e.side)) < DEPTH
      ensures r == 0 ==> channels == old(channels) && logs == old(logs)
      ensures r != 0 ==> var e := EndOf(old(channels), old(procs), pid, handle).value;
        && SameButRing(old(channels), channels, e.channel, 1 - e.side)
        && SameButLog(old(logs), logs, e.channel, 1 - e.side)
        && logs[e.channel][1 - e.side] ==
           old(logs)[e.channel][1 - e.side].(sent := old(logs)[e.channel][1 - e.side].sent + [bytes])
    {
      if |bytes| == 0 || |bytes| > MESSAGE_MAX { return 0; }
      if pid !in procs || procs[pid].zombie { return 0; }
      var e := FindEnd(pid, handle);
      if e.None? { return 0; }
      var c, target := e.value.channel, 1 - e.value.side;
      assert ChannelValid(channels[c]) && FlowOk(channels, logs, c, target);
      if channels[c].closed[target] || channels[c].rings[target].count >= DEPTH { return 0; }
      SendLog(channels[c].rings[target], logs[c][target], bytes);
      var ring := Enqueue(channels[c].rings[target], bytes);
      ghost var log := logs[c][target].(sent := logs[c][target].sent + [bytes]);
      RingFlow(channels, logs, c, target, ring, log);
      QueueStep(channels, procs, c, channels[c].(rings := channels[c].rings[target := ring]));
      channels := channels[c := channels[c].(rings := channels[c].rings[target := ring])];
      logs := logs[c := logs[c][target := log]];
      r := |bytes|;
    }

    /** Takes the oldest message of this side, cut to `room` bytes. */
    method RecvMessage(pid: nat, handle: nat, room: nat) returns (ok: bool, bytes: seq<Byte>)
      requires Valid()
      modifies this`channels, this`logs
      ensures Valid()
      ensures ok <==> CanRecv(old(channels), old(procs), pid, handle, room)
      ensures !ok ==> channels == old(channels) && logs == old(logs)
      ensures ok ==> var e := EndOf(old(channels), old(procs), pid, handle).value;
        && SameButRing(old(channels), channels, e.channel, e.side)
        && SameButLog(old(logs), logs, e.channel, e.side)
        && Received(old(logs)[e.channel][e.side], logs[e.channel][e.side], room, bytes)
    {
      bytes := [];
      if room == 0 || pid !in procs || procs[pid].zombie { return false, []; }
      var e := FindEnd(pid, handle);
      if e.None? { return false, []; }
      var c, s := e.value.channel, e.value.side;
      assert ChannelValid(channels[c]) && FlowOk(channels, logs, c, s);
      var ring := channels[c].rings[s];
      if ring.count == 0 { return false, []; }
      RecvLog(ring, logs[c][s], room);
      var m := ring.slots[ring.head];
      var size := if m.size < room then m.size else room;
      bytes := m.data[..size];
      assert Nth(ring, 0) == m.data[..m.size] && bytes == Cut(Nth(ring, 0), room);
      ghost var log := logs[c][s].(got := logs[c][s].got + [bytes], room := logs[c][s].room + [room]);
      RingFlow(channels, logs, c, s, Dequeue(ring), log);
      QueueStep(channels, procs, c, channels[c].(rings := channels[c].rings[s := Dequeue(ring)]));
      channels := channels[c := channels[c].(rings := channels[c].rings[s := Dequeue(ring)])];
      logs := logs[c := logs[c][s := log]];
      ok := true;
    }

    // ---- Processes ----

    method SpawnProcess(pid: nat) returns (ok: bool)
      requires Valid()
      modifies this`procs
      ensures Valid() && (ok <==> pid != 0 && pid !in old(procs))
      ensures procs == if ok then old(procs)[pid := Process(false, NoHandles())] else old(procs)
    {
      ok := pid != 0 && pid !in procs;
      if ok {
        ProcessStep(channels, procs, pid, false);
        procs := procs[pid := Process(false, NoHandles())];
      }
    }

    /** Drops the handle under which `peer` holds the channel `id`. */
    method ClearPeer(peer: nat, id: nat)
      requires Valid() && id != 0
      modifies this`procs
      ensures Valid() && procs.Keys == old(procs).Keys && NotHeldBy(procs, peer, id)
      ensures forall p | p in procs :: Fewer(old(procs), procs, p) && (p != peer ==> procs[p] == old(procs)[p])
    {
      if peer !in procs { return; }
      assert ProcessOk(procs, peer);
      var k := 0;
      while k < HANDLES
        invariant k <= HANDLES && procs == old(procs) && id !in procs[peer].handles[..k]
      {
        if procs[peer].handles[k] == id {
          forall g: nat | g < HANDLES && g != k ensures procs[peer].handles[g] != id {
            assert OnceOk(procs, peer, g, k);
          }
          ClearStep(channels, procs, peer, k);
          procs := ClearHandle(procs, peer, k);
          return;
        }
        k := k + 1;
      }
    }

    /** Closes a handle of an exiting process and takes the channel from its peer. */
    method DropHandle(pid: nat, h: nat)
      requires Valid() && pid in procs && h < |procs[pid].handles| && procs[pid].handles[h] != 0
      modifies this`channels, this`procs
      ensures Valid() && procs.Keys == old(procs).Keys && NoHolder(procs, old(procs)[pid].handles[h])
      ensures procs[pid] == old(procs)[pid].(handles := old(procs)[pid].handles[h := 0])
      ensures forall p | p in procs :: Fewer(old(procs), procs, p)
      ensures Ended(old(channels), channels, pid, old(procs)[pid].handles[h])
    {
      assert ProcessOk(procs, pid);
      ghost var channels0, procs0 := channels, procs;
      var e := FindEnd(pid, h + 1);
      var id := procs[pid].handles[h];
      var peer := channels[e.value.channel].pid[1 - e.value.side];
      CloseHandle(pid, h, e.value);
      if channels[e.value.channel].active { ClearPeer(peer, id); }
      LastHolder(channels0, procs0, procs, pid, h, e.value);
    }

    /** A process exits: its handles are closed, and so are those of its peers to the same channels. */
    method ExitProcess(pid: nat) returns (ok: bool)
      requires Valid()
      modifies this`channels, this`procs
      ensures Valid() && (ok <==> Alive(old(procs), pid))
      ensures !ok ==> channels == old(channels) && procs == old(procs)
      ensures ok ==> procs.Keys == old(procs).Keys && procs[pid] == Process(true, NoHandles())
      ensures ok ==>
        forall h: nat | h < HANDLES && HeldAt(old(procs), pid, h) :: NoHolder(procs, old(procs)[pid].handles[h])
      ensures ok ==> LeftAll(old(channels), old(procs), channels, pid, HANDLES)
      ensures ok ==> forall p | p in procs && p != pid :: Fewer(old(procs), procs, p)
    {
      if pid !in procs || procs[pid].zombie { return false; }
      assert ProcessOk(procs, pid);
      ghost var channels0, procs0 := channels, procs;
      var h := 0;
      LeftNone(channels0, procs0, pid);
      while h < HANDLES
        invariant h <= HANDLES && Valid() && procs.Keys == procs0.Keys && |procs[pid].handles| == HANDLES
        invariant !procs[pid].zombie
        invariant forall g | 0 <= g < HANDLES :: procs[pid].handles[g] == if g < h then 0 else procs0[pid].handles[g]
        invariant forall g: nat | g < h && HeldAt(procs0, pid, g) :: NoHolder(procs, procs0[pid].handles[g])
        invariant LeftAll(channels0, procs0, channels, pid, h) && forall p | p in procs :: Fewer(procs0, procs, p)
      {
        ghost var channels1 := channels;
        if procs[pid].handles[h] != 0 {
          ghost var procs1 := procs;
          DropHandle(pid, h);
          forall g: nat | g < h && HeldAt(procs0, pid, g) ensures NoHolder(procs, procs0[pid].handles[g]) {
            StillNoHolder(procs1, procs, procs0[pid].handles[g]);
          }
        }
        LeftNext(channels0, procs0, channels1, channels, pid, h);
        h := h + 1;
      }
      ProcessStep(channels, procs, pid, true);
      forall g: nat | g < HANDLES && HeldAt(procs0, pid, g)
        ensures NoHolder(procs[pid := Process(true, NoHandles())], procs0[pid].handles[g])
      {
        StillNoHolder(procs, procs[pid := Process(true, NoHandles())], procs0[pid].handles[g]);
      }
      procs := procs[pid := Process(true, NoHandles())];
      ok := true;
    }

    method ReapProcess(pid: nat) returns (ok: bool)
      requires Valid()
      modifies this`procs
      ensures Valid() && (ok <==> pid in old(procs) && old(procs)[pid].zombie)
      ensures procs == if ok then old(procs) - {pid} else old(procs)
    {
      ok := pid in procs && procs[pid].zombie;
      if ok {
        RemoveStep(channels, procs, pid);
        procs := procs - {pid};
      }
    }

    /** One operation. A stranded channel stays stranded. */
    method Perform(op: Op)
      requires Valid()
      modifies this`channels, this`procs, this`logs
      ensures Valid() && StaysStranded(old(channels), old(procs), channels, procs)
    {
      ghost var channels0, procs0 := channels, procs;
      match op {
        case Spawn(pid) =>
          var ok := SpawnProcess(pid);
          SpawnStrands(channels0, procs0, pid);
        case Exit(pid) =>
          assert pid in procs ==> ProcessOk(procs, pid);
          var ok := ExitProcess(pid);
          if ok { ExitStrands(channels0, procs0, channels, procs, pid); }
        case Reap(pid) =>
          var ok := ReapProcess(pid);
          RemoveStrands(channels0, procs0, pid);
        case Create(owner, peer) =>
          var handle, peerHandle, c := CreateChannel(owner, peer);
          if handle != 0 { CreateStrands(channels0, procs0, owner, peer, handle - 1, peerHandle - 1, c); }
        case Close(pid, handle) =>
          var ok := CloseChannel(pid, handle);
          if ok { CloseStrands(channels0, procs0, channels, procs, pid, handle); }
        case Send(pid, handle, bytes) => var sent := SendMessage(pid, handle, bytes);
        case Recv(pid, handle, room) => var ok, bytes := RecvMessage(pid, handle, room);
      }
    }

    /** Every run keeps the handles and the message flows right, and frees no stranded channel. */
    method Run(ops: seq<Op>)
      requires Valid()
      modifies this`channels, this`procs, this`logs
      ensures Valid() && StaysStranded(old(channels), old(procs), channels, procs)
    {
      var i := 0;
      while i < |ops|
        invariant i <= |ops| && Valid() && StaysStranded(old(channels), old(procs), channels, procs)
      {
        ghost var channels1, procs1 := channels, procs;
        Perform(ops[i]);
        StrandedTrans(old(channels), old(procs), channels1, procs1, channels, procs);
        i := i + 1;
      }
    }

    /** A process exits while its peer's side of a channel is open: the channel is stranded, and no run frees it. */
    method ExitThenRun(pid: nat, h: nat, ops: seq<Op>) returns (ok: bool, ghost c: nat)
      requires Valid() && Alive(procs, pid) && h < HANDLES && HeldAt(procs, pid, h)
      requires EndOf(channels, procs, pid, h + 1).Some?
      modifies this`channels, this`procs, this`logs
      ensures Valid() && c + 1 == old(procs)[pid].handles[h] && c < |channels| == |old(channels)|
      ensures var e := EndOf(old(channels), old(procs), pid, h + 1).value;
        !old(channels)[c].closed[1 - e.side] ==> channels[c].active && NoHolder(procs, c + 1)
    {
      ghost var channels0, procs0 := channels, procs;
      c := procs[pid].handles[h] - 1;
      assert ChannelValid(channels[c]);
      ok := ExitProcess(pid);
      assert LeftOne(channels0, procs0, channels, pid, HANDLES, c);
      ghost var open := !channels0[c].closed[1 - EndOf(channels0, procs0, pid, h + 1).value.side];
      assert open ==> Stranded(channels, procs, c);
      Run(ops);
      assert open ==> Stranded(channels, procs, c);
    }

    /** Two new processes and channel `n` between them. */
    method Pair(n: nat) returns (ghost h: nat)
      requires Valid() && n < MAX_CHANNELS && AllStranded(channels, procs, n) && AllFree(channels, n)
      requires forall p | p in procs :: p <= 2 * n
      modifies this`channels, this`procs, this`logs
      ensures Valid() && AllStranded(channels, procs, n) && AllFree(channels, n + 1)
      ensures forall p | p in procs :: p <= 2 * n + 2
      ensures h < HANDLES && Alive(procs, 2 * n + 1) && procs[2 * n + 1].handles == NoHandles()[h := n + 1]
      ensures |channels[n].pid| == |channels[n].closed| == 2
      ensures SideOf(channels[n], 2 * n + 1) == Some(0) && !channels[n].closed[1]
    {
      var a, b := 2 * n + 1, 2 * n + 2;
      ghost var channels0, procs0 := channels, procs;
      var ok := SpawnProcess(a);
      ok := SpawnProcess(b);
      SpawnStrands(channels0, procs0, a);
      SpawnStrands(channels0, procs0[a := Process(false, NoHandles())], b);
      assert !channels[n].active && procs[a].handles[0] == 0 && procs[b].handles[0] == 0;
      ghost var channels1, procs1 := channels, procs;
      var handle, peerHandle, c := CreateChannel(a, b);
      assert c < n ==> Stranded(channels0, procs0, c);
      CreateStrands(channels1, procs1, a, b, handle - 1, peerHandle - 1, c);
      h := handle - 1;
    }

    /** One of them exits: channel `n` is stranded. */
    method StrandOne(n: nat)
      requires Valid() && n < MAX_CHANNELS && AllStranded(channels, procs, n) && AllFree(channels, n)
      requires forall p | p in procs :: p <= 2 * n
      modifies this`channels, this`procs, this`logs
      ensures Valid() && AllStranded(channels, procs, n + 1) && AllFree(channels, n + 1)
      ensures forall p | p in procs :: p <= 2 * n + 2
    {
      ghost var h := Pair(n);
      ghost var channels0, procs0 := channels, procs;
      assert ChannelValid(channels[n]);
      var ok := ExitProcess(2 * n + 1);
      ExitStrands(channels0, procs0, channels, procs, 2 * n + 1);
      assert HeldAt(procs0, 2 * n + 1, h);
      StrandedNext(channels0, procs0, channels, procs, 2 * n + 1, n, h);
    }

    /** Sixteen such exits, and no channel can be created any more. */
    method StrandAll(owner: nat, peer: nat)
      requires Valid() && procs == map[] && AllFree(channels, 0)
      modifies this`channels, this`procs, this`logs
      ensures Valid() && !CanCreate(channels, procs, owner, peer)
    {
      for n := 0 to MAX_CHANNELS
        invariant Valid() && AllStranded(channels, procs, n) && AllFree(channels, n)
        invariant forall p | p in procs :: p <= 2 * n
      {
        StrandOne(n);
      }
      NoneLeft(channels, procs, owner, peer);
    }

    /** The messages waiting for this side: those sent and not yet received. */
    method Poll(pid: nat, handle: nat) returns (n: nat)
      requires Valid()
      ensures var e := EndOf(channels, procs, pid, handle);
        n == if e.None? then 0 else Waiting(logs, e.value)
    {
      var e := FindEnd(pid, handle);
      if e.None? { return 0; }
      assert ChannelValid(channels[e.value.channel]) && FlowOk(channels, logs, e.value.channel, e.value.side);
      n := channels[e.value.channel].rings[e.value.side].count;
    }
  }

  ghost function Waiting(logs: seq<seq<Log>>, e: End): int {
    if e.channel < |logs| && e.side < |logs[e.channel]| then
      |logs[e.channel][e.side].sent| - |logs[e.channel][e.side].got|
    else 0
  }

  /** The slots a creation takes: a free channel and the first free handle of each process. */
  predicate Creates(channels: seq<Channel>, procs: Processes, logs: seq<seq<Log>>, owner: nat, peer: nat,
                    handle: nat, peerHandle: nat, c: nat)
  {
    && c < |channels| == |logs| && !channels[c].active && |channels[c].rings| == 2
    && owner in procs && 0 < handle <= |procs[owner].handles| && procs[owner].handles[handle - 1] == 0
    && peer in procs && 0 < peerHandle <= |procs[peer].handles| && procs[peer].handles[peerHandle - 1] == 0
  }

  /** Side `s` of the channel is closed, and the channel is free if both are; nothing else changes. */
  predicate ClosedOn(ch: Channel, ch': Channel, s: nat) {
    && s < 2 && |ch.closed| == |ch'.closed| == 2
    && ch'.closed[s] && ch'.closed[1 - s] == ch.closed[1 - s] && ch'.pid == ch.pid && ch'.rings == ch.rings
    && (ch'.active <==> ch.active && !ch.closed[1 - s])
  }

  /** Process `pid` has closed its side of channel `id`; no other channel changes. */
  ghost predicate Ended(channels: seq<Channel>, channels': seq<Channel>, pid: nat, id: nat) {
    && 0 < id <= |channels| == |channels'| && channels' == channels[id - 1 := channels'[id - 1]]
    && |channels[id - 1].pid| == 2 && SideOf(channels[id - 1], pid).Some?
    && ClosedOn(channels[id - 1], channels'[id - 1], SideOf(channels[id - 1], pid).value)
  }

  /** The exiting process has closed its side of channel `c` if it is among its first `h` handles. */
  ghost predicate LeftOne(channels: seq<Channel>, procs: Processes, channels': seq<Channel>, pid: nat, h: nat, c: nat) {
    && pid in procs && h <= |procs[pid].handles| && c < |channels| == |channels'|
    && if c + 1 in procs[pid].handles[..h]
       then
         && |channels[c].pid| == 2 && SideOf(channels[c], pid).Some?
         && ClosedOn(channels[c], channels'[c], SideOf(channels[c], pid).value)
       else channels'[c] == channels[c]
  }

  ghost predicate LeftAll(channels: seq<Channel>, procs: Processes, channels': seq<Channel>, pid: nat, h: nat) {
    forall c: nat {:trigger LeftOne(channels, procs, channels', pid, h, c)} | c < MAX_CHANNELS ::
      LeftOne(channels, procs, channels', pid, h, c)
  }

  lemma LeftNone(channels: seq<Channel>, procs: Processes, pid: nat)
    requires pid in procs && |channels| == MAX_CHANNELS
    ensures LeftAll(channels, procs, channels, pid, 0)
  {}

  /** One more handle is closed, if it is in use. */
  lemma LeftNext(channels: seq<Channel>, procs: Processes, channels1: seq<Channel>, channels2: seq<Channel>, pid: nat,
                 h: nat)
    requires HandlesOk(channels, procs) && pid in procs && h < HANDLES == |procs[pid].handles|
    requires LeftAll(channels, procs, channels1, pid, h)
    requires if procs[pid].handles[h] == 0 then channels2 == channels1
             else Ended(channels1, channels2, pid, procs[pid].handles[h])
    ensures LeftAll(channels, procs, channels2, pid, h + 1)
  {
    var handles, h' := procs[pid].handles, h + 1;
    forall g: nat | g < h ensures handles[g] == handles[h] ==> handles[h] == 0 { assert OnceOk(procs, pid, g, h); }
    assert handles[..h'] == handles[..h] + [handles[h]];
    forall c: nat | c < MAX_CHANNELS ensures LeftOne(channels, procs, channels2, pid, h', c) {
      assert LeftOne(channels, procs, channels1, pid, h, c);
    }
  }

  /** Channel `c` is in use and no process has a handle to it. */
  ghost predicate Stranded(channels: seq<Channel>, procs: Processes, c: nat) {
    c < |channels| && channels[c].active && NoHolder(procs, c + 1)
  }

  ghost predicate StaysStranded(channels: seq<Channel>, procs: Processes, channels': seq<Channel>, procs': Processes) {
    forall c: nat {:trigger Stranded(channels', procs', c)} ::
      Stranded(channels, procs, c) ==> Stranded(channels', procs', c)
  }

  lemma StrandedTrans(channels: seq<Channel>, procs: Processes, channels1: seq<Channel>, procs1: Processes,
                      channels2: seq<Channel>, procs2: Processes)
    requires StaysStranded(channels, procs, channels1, procs1) && StaysStranded(channels1, procs1, channels2, procs2)
    ensures StaysStranded(channels, procs, channels2, procs2)
  {
    forall c: nat | Stranded(channels, procs, c) ensures Stranded(channels2, procs2, c) {
      assert Stranded(channels1, procs1, c);
    }
  }

  lemma ExitStrands(channels: seq<Channel>, procs: Processes, channels': seq<Channel>, procs': Processes, pid: nat)
    requires pid in procs && HANDLES == |procs[pid].handles| && LeftAll(channels, procs, channels', pid, HANDLES)
    requires |channels| == MAX_CHANNELS && procs'.Keys == procs.Keys && procs'[pid] == Process(true, NoHandles())
    requires forall p | p in procs' && p != pid :: Fewer(procs, procs', p)
    ensures StaysStranded(channels, procs, channels', procs')
  {
    forall c: nat | Stranded(channels, procs, c) ensures Stranded(channels', procs', c) {
      assert LeftOne(channels, procs, channels', pid, HANDLES, c) && NotHeldBy(procs, pid, c + 1);
      forall p | p in procs' ensures NotHeldBy(procs', p, c + 1) { assert NotHeldBy(procs, p, c + 1); }
    }
  }

  lemma SpawnStrands(channels: seq<Channel>, procs: Processes, pid: nat)
    ensures StaysStranded(channels, procs, channels, procs[pid := Process(false, NoHandles())])
  {
    var procs' := procs[pid := Process(false, NoHandles())];
    forall c: nat | Stranded(channels, procs, c) ensures Stranded(channels, procs', c) {
      forall p | p in procs' ensures NotHeldBy(procs', p, c + 1) { assert NotHeldBy(procs, p, c + 1); }
    }
  }

  lemma RemoveStrands(channels: seq<Channel>, procs: Processes, pid: nat)
    ensures StaysStranded(channels, procs, channels, procs - {pid})
  {
    var procs' := procs - {pid};
    forall c: nat | Stranded(channels, procs, c) ensures Stranded(channels, procs', c) {
      forall p | p in procs' ensures NotHeldBy(procs', p, c + 1) { assert NotHeldBy(procs, p, c + 1); }
    }
  }

  lemma CreateStrands(channels: seq<Channel>, procs: Processes, owner: nat, peer: nat, g: nat, h: nat, c: nat)
    requires c < |channels| && !channels[c].active && |channels[c].rings| == 2
    requires owner in procs && g < |procs[owner].handles| && peer in procs && h < |procs[peer].handles| && owner != peer
    ensures StaysStranded(channels, procs, channels[c := NewChannel(channels[c], owner, peer)],
                          SetHandle(SetHandle(procs, owner, g, c + 1), peer, h, c + 1))
  {
    var channels' := channels[c := NewChannel(channels[c], owner, peer)];
    var procs' := SetHandle(SetHandle(procs, owner, g, c + 1), peer, h, c + 1);
    forall d: nat | Stranded(channels, procs, d) ensures Stranded(channels', procs', d) {
      forall p | p in procs' ensures NotHeldBy(procs', p, d + 1) { assert NotHeldBy(procs, p, d + 1); }
    }
  }

  lemma CloseStrands(channels: seq<Channel>, procs: Processes, channels': seq<Channel>, procs': Processes, pid: nat,
                     handle: nat)
    requires EndOf(channels, procs, pid, handle).Some?
    requires Closes(channels, procs, channels', procs', pid, handle, EndOf(channels, procs, pid, handle).value)
    ensures StaysStranded(channels, procs, channels', procs')
  {
    forall c: nat | Stranded(channels, procs, c) ensures Stranded(channels', procs', c) {
      assert NotHeldBy(procs, pid, c + 1);
      forall p | p in procs' ensures NotHeldBy(procs', p, c + 1) { assert NotHeldBy(procs, p, c + 1); }
    }
  }

  /** The first `n` channels are stranded; those from `n` on are free. */
  ghost predicate AllStranded(channels: seq<Channel>, procs: Processes, n: nat) {
    forall c: nat {:trigger Stranded(channels, procs, c)} | c < n :: Stranded(channels, procs, c)
  }

  predicate AllFree(channels: seq<Channel>, n: nat) { forall c | n <= c < |channels| :: !channels[c].active }

  /** The exit of a process that holds channel `n` alone strands it and leaves the others alone. */
  lemma StrandedNext(channels: seq<Channel>, procs: Processes, channels': seq<Channel>, procs': Processes, pid: nat,
                     n: nat, h: nat)
    requires |channels| == |channels'| == MAX_CHANNELS && n < MAX_CHANNELS && h < HANDLES && HeldAt(procs, pid, h)
    requires AllStranded(channels, procs, n) && StaysStranded(channels, procs, channels', procs')
    requires LeftAll(channels, procs, channels', pid, HANDLES) && AllFree(channels, n + 1) && channels[n].active
    requires procs[pid].handles == NoHandles()[h := n + 1]
    requires NoHolder(procs', n + 1) && |channels[n].pid| == 2 && |channels[n].closed| == 2
    requires SideOf(channels[n], pid) == Some(0) && !channels[n].closed[1]
    ensures AllStranded(channels', procs', n + 1) && AllFree(channels', n + 1)
  {
    assert procs[pid].handles[..HANDLES] == procs[pid].handles;
    assert LeftOne(channels, procs, channels', pid, HANDLES, n);
    forall c: nat | c < n ensures Stranded(channels', procs', c) { assert Stranded(channels, procs, c); }
    forall c: nat | n < c < MAX_CHANNELS ensures !channels'[c].active {
      assert LeftOne(channels, procs, channels', pid, HANDLES, c);
    }
  }

  /** When every channel is stranded none can be created. */
  lemma NoneLeft(channels: seq<Channel>, procs: Processes, owner: nat, peer: nat)
    requires forall c: nat | c < |channels| :: Stranded(channels, procs, c)
    ensures !CanCreate(channels, procs, owner, peer)
  {
    forall c: nat | c < |channels| ensures channels[c].active { assert Stranded(channels, procs, c); }
  }

  /** Only the closing process's handle and side change. */
  predicate Closes(channels: seq<Channel>, procs: Processes, channels': seq<Channel>, procs': Processes, pid: nat,
                   handle: nat, e: End) {
    && e.channel < |channels| && |channels[e.channel].closed| == 2 && e.side < 2
    && pid in procs && 0 < handle <= |procs[pid].handles|
    && channels' == channels[e.channel := CloseSide(channels[e.channel], e.side)]
    && procs' == ClearHandle(procs, pid, handle - 1)
  }

  predicate CanSend(channels: seq<Channel>, procs: Processes, pid: nat, handle: nat, bytes: seq<Byte>) {
    && 0 < |bytes| <= MESSAGE_MAX && Alive(procs, pid) && EndOf(channels, procs, pid, handle).Some?
    && var e := EndOf(channels, procs, pid, handle).value;
    && e.side < 2 && |channels[e.channel].rings| == 2
    && !channels[e.channel].closed[1 - e.side] && channels[e.channel].rings[1 - e.side].count < DEPTH
  }

  predicate CanRecv(channels: seq<Channel>, procs: Processes, pid: nat, handle: nat, room: nat) {
    && room > 0 && Alive(procs, pid) && EndOf(channels, procs, pid, handle).Some?
    && var e := EndOf(channels, procs, pid, handle).value;
    e.side < |channels[e.channel].rings| && channels[e.channel].rings[e.side].count > 0
  }

  /** No other channel and no other direction changes. */
  predicate SameButRing(channels: seq<Channel>, channels': seq<Channel>, c: nat, s: nat) {
    && c < |channels| == |channels'| && s < |channels[c].rings| == |channels'[c].rings|
    && channels' == channels[c := channels[c].(rings := channels[c].rings[s := channels'[c].rings[s]])]
  }

  predicate SameButLog(logs: seq<seq<Log>>, logs': seq<seq<Log>>, c: nat, s: nat) {
    && c < |logs| == |logs'| && s < |logs[c]| == |logs'[c]|
    && logs' == logs[c := logs[c][s := logs'[c][s]]]
  }

  /** The next message of the log was received, cut to the room offered. */
  predicate Received(l: Log, l': Log, room: nat, bytes: seq<Byte>) {
    && |l.got| < |l.sent| && bytes == Cut(l.sent[|l.got|], room)
    && l' == l.(got := l.got + [bytes], room := l.room + [room])
  }
}
