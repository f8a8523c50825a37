/** The kernel heap: first-fit allocation with splitting, freeing with merging,
    and growth by whole pages that is rolled back when it fails. */
module Heap {
  import opened Basics
  import opened HeapBlocks

  const PAGE: nat := 4096
  const MAX_SEEN: nat := 1_000_000

  // ---- Sizes, in 64-bit arithmetic ----

  function AlignUp(value: nat): nat {
    if value > U64 - 1 - (ALIGN - 1) then U64 - 1 else (value + ALIGN - 1) / ALIGN * ALIGN
  }

  /** The request rounded up, or 0 when that does not fit in 64 bits. */
  function AlignSize(size: nat): nat { if AlignUp(size) == U64 - 1 then 0 else AlignUp(size) }

  function PagesFor(payload: nat): nat { ((HEADER + payload) % U64 + PAGE - 1) % U64 / PAGE }

  function CapacityOf(pages: nat): nat { (pages * PAGE + U64 - HEADER) % U64 }

  lemma AlignSizeIs(size: nat)
    requires 0 < size < U64
    ensures var r := AlignSize(size);
      if size > U64 - ALIGN then r == 0
      else size <= r < size + ALIGN && r % ALIGN == 0 && r >= ALIGN && r <= U64 - ALIGN
  {}

  predicate Growable(pages: nat, req: nat, next: nat) {
    pages != 0 && CapacityOf(pages) >= req && next <= LIMIT && pages <= (LIMIT - next) / PAGE
  }

  /** The pages hold the block with its header, and one less would not, as long as nothing wraps around. */
  lemma PagesForIs(req: nat)
    requires HEADER + req + PAGE - 1 < U64
    ensures (PagesFor(req) - 1) * PAGE < HEADER + req <= PagesFor(req) * PAGE
  {}

  /** The checks admit a growth exactly if the block fits between `next` and the end of the arena. */
  lemma GrowableIs(req: nat, next: nat)
    requires ALIGN <= req < U64 && BASE <= next <= LIMIT && next % PAGE == 0
    ensures Growable(PagesFor(req), req, next) <==> next + HEADER + req <= LIMIT
  {
    if HEADER + req + PAGE - 1 < U64 {
      PagesForIs(req);
      var pages := PagesFor(req);
      assert pages * PAGE <= LIMIT - next <==> HEADER + req <= LIMIT - next;
      if pages * PAGE < U64 { CapacityIs(pages); }
    }
  }

  /** A growth that passes the checks is large enough and stays in the arena, whatever wrapped around. */
  lemma GrowthFits(req: nat, next: nat)
    requires ALIGN <= req < U64 && BASE <= next <= LIMIT && Growable(PagesFor(req), req, next)
    ensures var pages := PagesFor(req);
      && CapacityOf(pages) == pages * PAGE - HEADER && next + pages * PAGE <= LIMIT
      && CapacityOf(pages) % ALIGN == 0 && CapacityOf(pages) >= ALIGN
  {
    var pages := PagesFor(req);
    assert pages * PAGE <= LIMIT - next;
    assert LIMIT - next < U64;
    CapacityIs(pages);
  }

  lemma CapacityIs(pages: nat)
    requires 0 < pages && pages * PAGE < U64
    ensures CapacityOf(pages) == pages * PAGE - HEADER
    ensures (pages * PAGE - HEADER) % ALIGN == 0 && pages * PAGE - HEADER >= ALIGN
  {
    var k := pages * PAGE;
    assert k == 16 * (pages * 256);
  }

  // ---- Page mappings ----

  /** What a mapping call does, given the frames: whether it succeeds, and the frames it takes for page tables. */
  datatype Outcome = Outcome(ok: bool, tables: nat)

  type Frames = map<nat, nat>    // frame of each mapped page

  /** The frames that the first `n` mapping calls take for page tables. */
  function TablesFor(maps: nat -> Outcome, n: nat): nat {
    if n == 0 then 0 else TablesFor(maps, n - 1) + maps(n - 1).tables
  }

  /** `pages` mapping calls succeed exactly if each does and there are frames for the pages and the tables. */
  ghost predicate Mappable(maps: nat -> Outcome, pages: nat, frames: nat) {
    pages + TablesFor(maps, pages) <= frames && AllMapped(maps, pages)
  }

  /** The first `n` mapping calls succeed. */
  ghost predicate AllMapped(maps: nat -> Outcome, n: nat) { forall j: nat | j < n :: maps(j).ok }

  /** The frames that stay in page tables when mapping pages `i` up to `pages` with `frames` frames fails. */
  function Lost(maps: nat -> Outcome, i: nat, pages: nat, frames: nat): nat
    decreases pages - i
  {
    if i >= pages || frames == 0 then 0
    else if frames - 1 < maps(i).tables then frames - 1
    else maps(i).tables + if maps(i).ok then Lost(maps, i + 1, pages, frames - 1 - maps(i).tables) else 0
  }

  /** Mapping `pages` pages took `before` free frames to `after`: exactly when it succeeds, and at what cost. */
  ghost predicate Spent(maps: nat -> Outcome, pages: nat, before: nat, after: nat, ok: bool) {
    && (ok <==> Mappable(maps, pages, before))
    && after + (if ok then pages + TablesFor(maps, pages) else Lost(maps, 0, pages, before)) == before
  }

  lemma {:induction false} TablesGrow(maps: nat -> Outcome, i: nat, n: nat)
    requires i <= n
    ensures TablesFor(maps, i) <= TablesFor(maps, n)
    decreases n - i
  {
    if i < n { TablesGrow(maps, i, n - 1); }
  }

  /** What is lost counts the tables of the pages mapped before the failure. */
  lemma {:induction false} LostAfter(maps: nat -> Outcome, i: nat, pages: nat, frames: nat)
    requires i <= pages && AllMapped(maps, i) && i + TablesFor(maps, i) <= frames
    ensures Lost(maps, 0, pages, frames) ==
      TablesFor(maps, i) + Lost(maps, i, pages, frames - i - TablesFor(maps, i))
  {
    if i > 0 { LostAfter(maps, i - 1, pages, frames); }
  }

  /** The growth fails at page `i`: no frame for the page, none for one of its tables, or the call fails. */
  lemma {:induction false} FailsAt(maps: nat -> Outcome, i: nat, pages: nat, frames: nat, left: nat)
    requires i < pages && AllMapped(maps, i) && left + i + TablesFor(maps, i) == frames
    requires left == 0 || left - 1 < maps(i).tables || !maps(i).ok
    ensures !Mappable(maps, pages, frames)
    ensures Lost(maps, 0, pages, frames) == TablesFor(maps, i) +
      if left == 0 then 0 else if left - 1 < maps(i).tables then left - 1 else maps(i).tables
  {
    LostAfter(maps, i, pages, frames);
    TablesGrow(maps, i + 1, pages);
  }

  ghost function SetOf(fs: seq<nat>): set<nat> { set x | x in fs }

  predicate PageOk(vm0: Frames, vm: Frames, start: nat, fs: seq<nat>, k: nat, p: nat) {
    if start + k <= p < start + |fs| then p in vm && vm[p] == fs[p - start]
    else (p in vm <==> p in vm0) && (p in vm0 ==> vm[p] == vm0[p])
  }

  /** Pages `start + k` on hold the frames `fs[k..]`; every other page is as in `vm0`. */
  ghost predicate MappedFrom(vm0: Frames, vm: Frames, start: nat, fs: seq<nat>, k: nat) {
    k <= |fs| && forall p: nat {:trigger PageOk(vm0, vm, start, fs, k, p)} :: PageOk(vm0, vm, start, fs, k, p)
  }

  lemma UnmapNext(vm0: Frames, vm: Frames, start: nat, fs: seq<nat>, k: nat)
    requires MappedFrom(vm0, vm, start, fs, k) && k < |fs| && start + k !in vm0
    ensures start + k in vm && vm[start + k] == fs[k] && MappedFrom(vm0, vm - {start + k}, start, fs, k + 1)
    ensures SetOf(fs[k..]) == {fs[k]} + SetOf(fs[k + 1..])
  {
    var vm', k' := vm - {start + k}, k + 1;
    assert PageOk(vm0, vm, start, fs, k, start + k);
    forall p: nat ensures PageOk(vm0, vm', start, fs, k', p) { assert PageOk(vm0, vm, start, fs, k, p); }
    assert fs[k..] == [fs[k]] + fs[k + 1..];
  }

  lemma MapNext(vm0: Frames, vm: Frames, start: nat, fs: seq<nat>, f: nat)
    requires MappedFrom(vm0, vm, start, fs, 0)
    ensures MappedFrom(vm0, vm[start + |fs| := f], start, fs + [f], 0) && SetOf(fs + [f]) == SetOf(fs) + {f}
  {
    var vm', fs' := vm[start + |fs| := f], fs + [f];
    forall p: nat ensures PageOk(vm0, vm', start, fs', 0, p) { assert PageOk(vm0, vm, start, fs, 0, p); }
  }

  lemma AllUnmapped(vm0: Frames, vm: Frames, start: nat, fs: seq<nat>)
    requires MappedFrom(vm0, vm, start, fs, |fs|)
    ensures vm == vm0
  {
    forall p: nat ensures p in vm <==> p in vm0 { assert PageOk(vm0, vm, start, fs, |fs|, p); }
    forall p: nat | p in vm0 ensures vm[p] == vm0[p] { assert PageOk(vm0, vm, start, fs, |fs|, p); }
  }

  /** The state of a growth after `|fs|` of its pages: `fs` are their frames, `tables` those that went into
      page tables. */
  ghost predicate Progress(vm0: Frames, vm: Frames, pool0: set<nat>, pool: set<nat>, start: nat, fs: seq<nat>,
                           tables: set<nat>, maps: nat -> Outcome, pages: nat) {
    && |fs| <= pages && MappedFrom(vm0, vm, start, fs, 0) && AllMapped(maps, |fs|)
    && Held(pool0, pool, tables, SetOf(fs))
    && |tables| == TablesFor(maps, |fs|) && |pool| + |fs| + |tables| == |pool0|
  }

  /** The frames of `pool0` are free, in page tables or in pages. */
  ghost predicate Held(pool0: set<nat>, pool: set<nat>, tables: set<nat>, held: set<nat>) {
    tables <= pool0 && held <= pool0 && held !! tables && pool == pool0 - tables - held
  }

  lemma ProgressStart(vm: Frames, pool: set<nat>, start: nat, maps: nat -> Outcome, pages: nat)
    ensures Progress(vm, vm, pool, pool, start, [], {}, maps, pages)
  {
    var fs: seq<nat> := [];
    forall p: nat ensures PageOk(vm, vm, start, fs, 0, p) {}
  }

  /** No frame is left for the next page. */
  lemma OutOfFrames(vm0: Frames, vm: Frames, pool0: set<nat>, pool: set<nat>, start: nat, fs: seq<nat>,
                    tables: set<nat>, maps: nat -> Outcome, pages: nat)
    requires Progress(vm0, vm, pool0, pool, start, fs, tables, maps, pages) && |fs| < pages && pool == {}
    ensures !Mappable(maps, pages, |pool0|) && |tables| == Lost(maps, 0, pages, |pool0|)
    ensures pool + SetOf(fs) == pool0 - tables
  {
    FailsAt(maps, |fs|, pages, |pool0|, 0);
  }

  /** One frame goes to a page and `more` go to page tables. */
  lemma TakeFrames(pool0: set<nat>, pool: set<nat>, tables: set<nat>, held: set<nat>, frame: nat, more: set<nat>)
    requires Held(pool0, pool, tables, held) && frame in pool && more <= pool - {frame}
    ensures var pool', tables' := pool - {frame} - more, tables + more;
      && Held(pool0, pool', tables', held + {frame}) && pool' + {frame} + held == pool0 - tables'
      && |pool'| + 1 + |more| == |pool| && |tables'| == |tables| + |more|
  {
    var rest := pool - {frame};
    assert pool == rest + {frame} && rest == (rest - more) + more;
  }

  /** One more page is mapped, with the tables it needs. */
  lemma ProgressNext(vm0: Frames, vm: Frames, pool0: set<nat>, pool: set<nat>, start: nat, fs: seq<nat>,
                     tables: set<nat>, maps: nat -> Outcome, pages: nat, frame: nat, more: set<nat>)
    requires Progress(vm0, vm, pool0, pool, start, fs, tables, maps, pages) && |fs| < pages && frame in pool
    requires more <= pool - {frame} && |more| == maps(|fs|).tables && maps(|fs|).ok
    ensures Progress(vm0, vm[start + |fs| := frame], pool0, pool - {frame} - more, start, fs + [frame],
                     tables + more, maps, pages)
  {
    MapNext(vm0, vm, start, fs, frame);
    TakeFrames(pool0, pool, tables, SetOf(fs), frame, more);
    assert AllMapped(maps, |fs| + 1);
  }

  /** The call for the next page fails, after it took `more` frames for tables. */
  lemma ProgressFails(vm0: Frames, vm: Frames, pool0: set<nat>, pool: set<nat>, start: nat, fs: seq<nat>,
                      tables: set<nat>, maps: nat -> Outcome, pages: nat, frame: nat, more: set<nat>)
    requires Progress(vm0, vm, pool0, pool, start, fs, tables, maps, pages) && |fs| < pages && frame in pool
    requires more <= pool - {frame}
    requires if |pool| - 1 < maps(|fs|).tables then |more| == |pool| - 1
             else |more| == maps(|fs|).tables && !maps(|fs|).ok
    ensures !Mappable(maps, pages, |pool0|) && |tables + more| == Lost(maps, 0, pages, |pool0|)
    ensures tables + more <= pool0 && pool - {frame} - more + {frame} + SetOf(fs) == pool0 - (tables + more)
  {
    TakeFrames(pool0, pool, tables, SetOf(fs), frame, more);
    FailsAt(maps, |fs|, pages, |pool0|, |pool|);
  }

  /** The arena's pages, and only these, are mapped, to frames that are not free. */
  predicate ArenaPage(vm: Frames, pool: set<nat>, next: nat, p: nat) {
    (p in vm <==> BASE / PAGE <= p < next / PAGE) && (p in vm ==> vm[p] !in pool && vm[p] != 0)
  }

  ghost predicate PagesOk(vm: Frames, pool: set<nat>, next: nat) {
    && next % PAGE == 0 && 0 !in pool
    && forall p: nat {:trigger ArenaPage(vm, pool, next, p)} :: ArenaPage(vm, pool, next, p)
  }

  /** The arena can grow by a block of `req` bytes. */
  ghost predicate CanGrow(maps: nat -> Outcome, req: nat, next: nat, frames: nat) {
    Growable(PagesFor(req), req, next) && Mappable(maps, PagesFor(req), frames)
  }

  /** The frames that a growth by a block of `req` bytes takes if it succeeds, and those it loses if it fails. */
  function GrowthCost(maps: nat -> Outcome, req: nat): nat { PagesFor(req) + TablesFor(maps, PagesFor(req)) }

  function GrowthLoss(maps: nat -> Outcome, req: nat, next: nat, frames: nat): nat {
    if Growable(PagesFor(req), req, next) then Lost(maps, 0, PagesFor(req), frames) else 0
  }

  // ---- Operations on the list of blocks ----

  /** The first free block that holds `req` bytes. */
  predicate FirstFit(bs: seq<Block>, req: nat, i: nat) {
    i < |bs| && bs[i].free && bs[i].capacity >= req && forall j | 0 <= j < i :: !(bs[j].free && bs[j].capacity >= req)
  }

  /** Taking the free block `i` for `req` bytes: the rest is split off if a block fits into it. */
  function TakeAt(bs: seq<Block>, i: nat, req: nat): seq<Block>
    requires i < |bs| && req >= ALIGN && req % ALIGN == 0 && bs[i].capacity >= req
  {
    var bs1 := bs[i := bs[i].(free := false, size := req)];
    if bs[i].capacity - req < HEADER + ALIGN then bs1[i := bs1[i].(size := bs1[i].capacity)] else SplitAt(bs1, i, req)
  }

  /** Block `i` takes in the next one, if that is free. */
  function Absorb(bs: seq<Block>, i: nat): seq<Block> {
    if i + 1 < |bs| && bs[i + 1].free then MergeAt(bs, i) else bs
  }

  function AbsorbMem(m: Mem, bs: seq<Block>, i: nat): Mem {
    if i + 1 < |bs| && bs[i + 1].free then MergeMem(m, bs, i) else m
  }

  /** Freeing block `i`: it is merged with the free blocks next to it. */
  function FreeAt(bs: seq<Block>, i: nat): seq<Block>
    requires i < |bs|
  {
    var bs2 := Absorb(bs[i := bs[i].(free := true)], i);
    if i > 0 && bs2[i - 1].free then Absorb(bs2, i - 1) else bs2
  }

  /** The block taken: the whole block if the rest is too small for one of its own, else `req` bytes and the rest. */
  lemma TakenIs(bs: seq<Block>, i: nat, req: nat)
    requires i < |bs| && req >= ALIGN && req % ALIGN == 0 && bs[i].capacity >= req
    ensures var b, r := bs[i], TakeAt(bs, i, req);
      if b.capacity < req + HEADER + ALIGN
      then r == bs[..i] + [Block(b.addr, b.capacity, b.capacity, false)] + bs[i + 1..]
      else
        var rest := b.capacity - req - HEADER;
        r == bs[..i] + [Block(b.addr, req, req, false), Block(b.addr + HEADER + req, rest, rest, true)] + bs[i + 1..]
  {}

  /** Same blocks, apart from the request that a block was last taken for. */
  ghost predicate SameLayout(bs: seq<Block>, bs': seq<Block>) {
    |bs| == |bs'| && forall j | 0 <= j < |bs| :: bs[j].(size := 0) == bs'[j].(size := 0)
  }

  /** Freeing a block that was just taken restores the layout. */
  lemma TakeThenFree(bs: seq<Block>, i: nat, req: nat)
    requires Compact(bs) && i < |bs| && req >= ALIGN && req % ALIGN == 0 && bs[i].capacity >= req && bs[i].free
    ensures SameLayout(FreeAt(TakeAt(bs, i, req), i), bs)
  {
    TakenIs(bs, i, req);
    assert ApartFrom(bs, i) && (i > 0 ==> ApartFrom(bs, i - 1));
    var r := TakeAt(bs, i, req);
    var r1 := r[i := r[i].(free := true)];
    if bs[i].capacity < req + HEADER + ALIGN { assert Absorb(r1, i) == r1; } else { assert r1[i + 2..] == bs[i + 1..]; }
    assert FreeAt(r, i) == Absorb(r1, i);
  }

  /** A freed block lies in a free block. */
  predicate Covers(b: Block, was: Block) { b.free && b.addr <= was.addr && End(was) <= End(b) }

  lemma FreedCovered(bs: seq<Block>, next: nat, i: nat)
    requires Tiles(bs, next) && i < |bs|
    ensures exists j: nat :: j < |FreeAt(bs, i)| && Covers(FreeAt(bs, i)[j], bs[i])
  {
    var r := FreeAt(bs, i);
    assert TileOk(bs, next, i) && (i > 0 ==> TileOk(bs, next, i - 1));
    if i > 0 && bs[i - 1].free { assert Covers(r[i - 1], bs[i]); } else { assert Covers(r[i], bs[i]); }
  }

  lemma TakeCompact(bs: seq<Block>, i: nat, req: nat)
    requires Compact(bs) && i < |bs| && req >= ALIGN && req % ALIGN == 0 && bs[i].capacity >= req && bs[i].free
    ensures Compact(TakeAt(bs, i, req))
  {
    var r := TakeAt(bs, i, req);
    assert ApartFrom(bs, i);
    forall j: nat | j < |r| ensures ApartFrom(r, j) {
      assert ApartFrom(bs, j);
      if j > 0 { assert ApartFrom(bs, j - 1); }
    }
  }

  /** No two free blocks in a row, except perhaps block `i` and its neighbours. */
  ghost predicate CompactBut(bs: seq<Block>, i: int, j: int) {
    forall k: nat {:trigger ApartFrom(bs, k)} | k < |bs| && k != i && k != j :: ApartFrom(bs, k)
  }

  lemma AbsorbCompact(bs: seq<Block>, i: nat)
    requires i < |bs| && bs[i].free && CompactBut(bs, i - 1, i)
    ensures CompactBut(Absorb(bs, i), i - 1, -1)
  {
    var r := Absorb(bs, i);
    forall k: nat | k < |r| && k != i - 1 ensures ApartFrom(r, k) {
      if i + 1 < |bs| && bs[i + 1].free { MergedAt(bs, i, k); }
      assert k != i ==> ApartFrom(bs, k);
      assert i <= k && k + 1 < |bs| ==> ApartFrom(bs, k + 1);
    }
  }

  /** The blocks after a merge, two at a time. */
  lemma MergedAt(bs: seq<Block>, i: nat, k: nat)
    requires i + 1 < |bs| && k + 1 < |bs|
    ensures var r := MergeAt(bs, i);
      && r[k].free == (if k <= i then bs[k] else bs[k + 1]).free
      && (k + 1 < |r| ==> r[k + 1].free == (if k + 1 <= i then bs[k + 1] else bs[k + 2]).free)
  {}

  lemma FreeCompact(bs: seq<Block>, i: nat)
    requires Compact(bs) && i < |bs| && !bs[i].free
    ensures Compact(FreeAt(bs, i))
  {
    var bs1 := bs[i := bs[i].(free := true)];
    forall k: nat | k < |bs1| && k != i - 1 && k != i ensures ApartFrom(bs1, k) { assert ApartFrom(bs, k); }
    AbsorbCompact(bs1, i);
    AbsorbFirst(bs1, i);
    var bs2 := Absorb(bs1, i);
    if i > 0 && bs2[i - 1].free {
      assert bs1[i - 1].free && bs[i - 1].free;
      assert i > 1 ==> ApartFrom(bs, i - 2);
      AbsorbCompact(bs2, i - 1);
      var r := Absorb(bs2, i - 1);
      MergedAt(bs2, i - 1, if i > 1 then i - 2 else 0);
      forall k: nat | k < |r| ensures ApartFrom(r, k) {}
    } else {
      forall k: nat | k < |bs2| ensures ApartFrom(bs2, k) {}
    }
  }

  /** Taking in the next block leaves the blocks up to this one in place. */
  lemma AbsorbFirst(bs: seq<Block>, i: nat)
    requires i < |bs|
    ensures var r := Absorb(bs, i);
      i < |r| <= |bs| && r[i].addr == bs[i].addr && r[i].free == bs[i].free && forall k | 0 <= k < i :: r[k] == bs[k]
  {}

  /** The live block `j` is still there, with its contents, clear of the block at `a`. */
  ghost predicate LiveKept(bs: seq<Block>, bs': seq<Block>, m: Mem, m': Mem, j: nat) {
    j < |bs| && (!bs[j].free ==> bs[j] in bs' && Intact(m, m', bs[j]))
  }

  ghost predicate AllKept(bs: seq<Block>, bs': seq<Block>, m: Mem, m': Mem) {
    forall j: nat {:trigger LiveKept(bs, bs', m, m', j)} | j < |bs| :: LiveKept(bs, bs', m, m', j)
  }

  // ---- Pointers handed out ----

  /** What clients do: allocate, free, and write a word of what they own. */
  datatype Op = Alloc(size: nat) | Release(which: nat) | Store(which: nat, off: nat, value: nat)

  /** A pointer handed out for `size` bytes. */
  datatype Grant = Grant(ptr: nat, size: nat)

  /** The word at `w` lies in the bytes granted. */
  predicate InGrant(g: Grant, w: nat) { g.ptr <= w && w + 8 <= g.ptr + g.size }

  predicate Owns(bs: seq<Block>, i: nat, g: Grant) {
    i < |bs| && !bs[i].free && bs[i].addr + HEADER == g.ptr && g.size <= bs[i].capacity
  }

  ghost predicate OwnedAt(bs: seq<Block>, owned: seq<Grant>, k: nat) {
    k < |owned| && exists i: nat :: i < |bs| && Owns(bs, i, owned[k])
  }

  predicate PtrsApart(owned: seq<Grant>, j: nat, k: nat) { j < k < |owned| ==> owned[j].ptr != owned[k].ptr }

  /** Each pointer is the payload of a live block that holds its size, and no two are the same. */
  ghost predicate AllOwned(bs: seq<Block>, owned: seq<Grant>) {
    && (forall k: nat {:trigger OwnedAt(bs, owned, k)} | k < |owned| :: OwnedAt(bs, owned, k))
    && (forall j: nat, k: nat {:trigger PtrsApart(owned, j, k)} | j < k < |owned| :: PtrsApart(owned, j, k))
  }

  lemma StillOwned(bs: seq<Block>, bs': seq<Block>, m: Mem, m': Mem, owned: seq<Grant>, k: nat, i: nat)
    requires k < |owned| && i < |bs| && Owns(bs, i, owned[k]) && LiveKept(bs, bs', m, m', i)
    ensures OwnedAt(bs', owned, k)
  {
    var x: nat :| x < |bs'| && bs'[x] == bs[i];
    assert Owns(bs', x, owned[k]);
  }

  lemma OwnedAlloc(bs: seq<Block>, bs': seq<Block>, m: Mem, m': Mem, owned: seq<Grant>, at: nat, g: Grant)
    requires AllOwned(bs, owned) && AllKept(bs, bs', m, m') && Allocated(bs, bs', at, g.ptr, g.size)
    ensures AllOwned(bs', owned + [g])
  {
    var owned' := owned + [g];
    assert Owns(bs', at, g);
    forall k: nat | k < |owned'| ensures OwnedAt(bs', owned', k) && (k < |owned| ==> owned[k].ptr != g.ptr) {
      if k < |owned| {
        assert OwnedAt(bs, owned, k);
        var i: nat :| i < |bs| && Owns(bs, i, owned[k]);
        assert LiveKept(bs, bs', m, m', i) && ClearOf(bs, bs'[at], i);
        StillOwned(bs, bs', m, m', owned', k, i);
      } else {
        assert Owns(bs', at, owned'[k]);
      }
    }
    forall j: nat, k: nat | j < k < |owned'| ensures PtrsApart(owned', j, k) {
      assert k < |owned| ==> PtrsApart(owned, j, k);
    }
  }

  /** The grants but number `which`. */
  function Except(owned: seq<Grant>, which: nat): seq<Grant>
    requires which < |owned|
  {
    owned[..which] + owned[which + 1..]
  }

  /** Freeing one owned block, or failing to, leaves the others owned. */
  lemma OwnedFree(bs: seq<Block>, bs': seq<Block>, m: Mem, m': Mem, owned: seq<Grant>, which: nat, b: nat)
    requires AllOwned(bs, owned) && which < |owned| && b < |bs| && Owns(bs, b, owned[which])
    requires KeptBut(bs, bs', m, m', b) || bs' == bs
    ensures AllOwned(bs', Except(owned, which))
  {
    var rest := Except(owned, which);
    forall k: nat | k < |rest| ensures OwnedAt(bs', rest, k) {
      var k0 := if k < which then k else k + 1;
      assert OwnedAt(bs, owned, k0) && rest[k] == owned[k0];
      assert k0 < which ==> PtrsApart(owned, k0, which);
      assert k0 > which ==> PtrsApart(owned, which, k0);
      var i: nat :| i < |bs| && Owns(bs, i, owned[k0]);
      if bs' != bs {
        assert LiveKept(bs, bs', m, m', i);
        StillOwned(bs, bs', m, m', rest, k, i);
      }
    }
    forall j: nat, k: nat | j < k < |rest| ensures PtrsApart(rest, j, k) {
      assert PtrsApart(owned, if j < which then j else j + 1, if k < which then k else k + 1);
    }
  }

  // ---- What clients keep in their memory ----

  /** A client wrote a word, or gave bytes back. */
  datatype Note = Put(w: nat, v: nat) | Drop(lo: nat, hi: nat)

  /** The words that clients expect to find: the last value written to each, until its bytes are given back. */
  ghost function Holds(log: seq<Note>): map<nat, nat> {
    if log == [] then map[]
    else
      var before := Holds(log[..|log| - 1]);
      match log[|log| - 1]
      case Put(w, v) => before[w := v]
      case Drop(lo, hi) => map w | w in before && !(lo <= w < hi) :: before[w]
  }

  ghost predicate WordKept(m: Mem, owned: seq<Grant>, c: map<nat, nat>, w: nat) {
    w in c && Word(m, w) == c[w] && exists k: nat :: k < |owned| && InGrant(owned[k], w)
  }

  /** Every word a client wrote is in memory it owns, with the value it wrote. */
  ghost predicate Remembers(m: Mem, owned: seq<Grant>, c: map<nat, nat>) {
    forall w {:trigger WordKept(m, owned, c, w)} | w in c :: WordKept(m, owned, c, w)
  }

  /** The word at `w`, in the grant `k`, survives if its block is kept. */
  lemma WordSurvives(bs: seq<Block>, bs': seq<Block>, m: Mem, m': Mem, g: Grant, i: nat, w: nat)
    requires i < |bs| && Owns(bs, i, g) && InGrant(g, w) && LiveKept(bs, bs', m, m', i)
    ensures Word(m', w) == Word(m, w)
  {}

  /** The clients of the heap: what they own and what they noted. */
  datatype Clients = Clients(owned: seq<Grant>, log: seq<Note>)

  /** The clients after one operation; `ptr` is what an allocation returned. */
  function Next(c: Clients, op: Op, ptr: nat): Clients {
    match op
    case Alloc(size) => if ptr == 0 then c else c.(owned := c.owned + [Grant(ptr, size)])
    case Release(which) =>
      if which >= |c.owned| then c
      else
        var g := c.owned[which];
        Clients(Except(c.owned, which), c.log + [Drop(g.ptr, g.ptr + g.size)])
    case Store(which, off, value) =>
      if which < |c.owned| && off % 8 == 0 && off + 8 <= c.owned[which].size
      then c.(log := c.log + [Put(c.owned[which].ptr + off, value)])
      else c
  }

  /** What an operation changes for the clients: a word written is expected from then on, until its bytes are
      given back; nothing else is forgotten. */
  lemma NextHolds(c: Clients, op: Op, ptr: nat)
    ensures var c', was := Next(c, op, ptr), Holds(c.log);
      match op
      case Alloc(size) => Holds(c'.log) == was && (ptr != 0 ==> c'.owned == c.owned + [Grant(ptr, size)])
      case Release(which) => which < |c.owned| ==>
        && c'.owned == c.owned[..which] + c.owned[which + 1..]
        && var g := c.owned[which];
        forall w | w in was && !(g.ptr <= w < g.ptr + g.size) :: w in Holds(c'.log) && Holds(c'.log)[w] == was[w]
      case Store(which, off, value) => which < |c.owned| && off % 8 == 0 && off + 8 <= c.owned[which].size ==>
        c'.owned == c.owned && Holds(c'.log) == was[c.owned[which].ptr + off := value]
  {
    var c' := Next(c, op, ptr);
    if c'.log != c.log { assert c'.log[..|c'.log| - 1] == c.log; }
  }

  /** The clients after a run. */
  function After(ops: seq<Op>, ptrs: seq<nat>): Clients
    requires |ops| == |ptrs|
  {
    if ops == [] then Clients([], []) else var k := |ops| - 1; Next(After(ops[..k], ptrs[..k]), ops[k], ptrs[k])
  }

  lemma AfterNext(ops: seq<Op>, ptrs: seq<nat>, ptr: nat)
    requires |ptrs| < |ops|
    ensures After(ops[..|ptrs| + 1], ptrs + [ptr]) == Next(After(ops[..|ptrs|], ptrs), ops[|ptrs|], ptr)
  {
    var n := |ptrs|;
    assert ops[..n + 1][..n] == ops[..n] && (ptrs + [ptr])[..n] == ptrs;
  }

  /** The clients own different live blocks, and find in them what they wrote. */
  ghost predicate Served(m: Mem, bs: seq<Block>, c: Clients) {
    AllOwned(bs, c.owned) && Remembers(m, c.owned, Holds(c.log))
  }

  lemma RememberAlloc(bs: seq<Block>, bs': seq<Block>, m: Mem, m': Mem, owned: seq<Grant>, c: map<nat, nat>, g: Grant)
    requires AllOwned(bs, owned) && AllKept(bs, bs', m, m') && Remembers(m, owned, c)
    ensures Remembers(m', owned + [g], c)
  {
    var owned' := owned + [g];
    forall w | w in c ensures WordKept(m', owned', c, w) {
      assert WordKept(m, owned, c, w);
      var k: nat :| k < |owned| && InGrant(owned[k], w);
      assert OwnedAt(bs, owned, k) && owned'[k] == owned[k];
      var i: nat :| i < |bs| && Owns(bs, i, owned[k]);
      assert LiveKept(bs, bs', m, m', i);
      WordSurvives(bs, bs', m, m', owned[k], i, w);
    }
  }

  lemma RememberFree(bs: seq<Block>, bs': seq<Block>, m: Mem, m': Mem, owned: seq<Grant>, log: seq<Note>, which: nat,
                     b: nat)
    requires AllOwned(bs, owned) && which < |owned| && b < |bs| && Owns(bs, b, owned[which])
    requires Remembers(m, owned, Holds(log))
    requires KeptBut(bs, bs', m, m', b) || m' == m
    ensures var g := owned[which];
      Remembers(m', Except(owned, which), Holds(log + [Drop(g.ptr, g.ptr + g.size)]))
  {
    var g, rest := owned[which], Except(owned, which);
    var log' := log + [Drop(g.ptr, g.ptr + g.size)];
    assert log'[..|log'| - 1] == log;
    var c, c' := Holds(log), Holds(log');
    forall w | w in c' ensures WordKept(m', rest, c', w) {
      assert WordKept(m, owned, c, w);
      var k: nat :| k < |owned| && InGrant(owned[k], w);
      OtherGrant(bs, bs', m, m', owned, which, b, k, w);
      assert rest[if k < which then k else k - 1] == owned[k];
    }
  }

  /** A word of another grant survives a free. */
  lemma OtherGrant(bs: seq<Block>, bs': seq<Block>, m: Mem, m': Mem, owned: seq<Grant>, which: nat, b: nat,
                   k: nat, w: nat)
    requires AllOwned(bs, owned) && which < |owned| && b < |bs| && Owns(bs, b, owned[which])
    requires KeptBut(bs, bs', m, m', b) || m' == m
    requires k < |owned| && k != which && InGrant(owned[k], w)
    ensures Word(m', w) == Word(m, w)
  {
    assert OwnedAt(bs, owned, k) && PtrsApart(owned, if k < which then k else which, if k < which then which else k);
    var i: nat :| i < |bs| && Owns(bs, i, owned[k]);
    if m' != m {
      assert LiveKept(bs, bs', m, m', i);
      WordSurvives(bs, bs', m, m', owned[k], i, w);
    }
  }

  lemma RememberStore(m: Mem, owned: seq<Grant>, log: seq<Note>, which: nat, w: nat, v: nat)
    requires which < |owned| && InGrant(owned[which], w) && Remembers(m, owned, Holds(log))
    ensures Remembers(m[w := v], owned, Holds(log + [Put(w, v)]))
  {
    var log', m' := log + [Put(w, v)], m[w := v];
    assert log'[..|log'| - 1] == log;
    forall x | x in Holds(log') ensures WordKept(m', owned, Holds(log'), x) {
      if x != w { assert WordKept(m, owned, Holds(log), x); }
    }
  }

  class KernelHeap {
    var mem: Mem
    var head: nat
    var next: nat
    var freeBytes: nat
    var allocations: nat
    var corruption: nat
    var vm: Frames           // the heap's pages
    var pool: set<nat>       // free frames
    ghost var blocks: seq<Block>

    ghost predicate Valid()
      reads this
    {
      HeapOk(mem, blocks, head, next, freeBytes, allocations) && PagesOk(vm, pool, next)
    }

    constructor (frames: set<nat>)
      requires 0 !in frames
      ensures Valid() && blocks == [] && pool == frames
    {
      mem, head, next, freeBytes, allocations, corruption := map[], 0, BASE, 0, 0, 0;
      vm, pool, blocks := map[], frames, [];
    }

    // ---- Growing the arena ----

    /** Unmaps the pages mapped so far and gives their frames back. */
    method Rollback(start: nat, count: nat, ghost vm0: Frames, ghost fs: seq<nat>)
      requires count == |fs| && MappedFrom(vm0, vm, start, fs, 0) && (forall p: nat | start <= p :: p !in vm0)
      requires 0 !in fs
      modifies this`vm, this`pool
      ensures vm == vm0 && pool == old(pool) + SetOf(fs)
    {
      var j := 0;
      assert fs[0..] == fs;
      while j < count
        invariant j <= count && MappedFrom(vm0, vm, start, fs, j) && pool + SetOf(fs[j..]) == old(pool) + SetOf(fs)
      {
        UnmapNext(vm0, vm, start, fs, j);
        var frame := vm[start + j];
        if frame != 0 {
          vm := vm - {start + j};
          pool := pool + {frame};
        }
        j := j + 1;
      }
      AllUnmapped(vm0, vm, start, fs);
    }

    /** Takes frames for `n` page tables, as many as there are. */
    method TakeTables(n: nat) returns (ok: bool, ghost more: set<nat>)
      modifies this`pool
      ensures more <= old(pool) && pool == old(pool) - more
      ensures ok <==> n <= |old(pool)|
      ensures |more| == if ok then n else |old(pool)|
    {
      more := {};
      for i := 0 to n
        invariant more <= old(pool) && pool == old(pool) - more && |more| == i && |pool| + i == |old(pool)|
      {
        if pool == {} {
          assert more == old(pool);
          return false, more;
        }
        var frame :| frame in pool;
        pool, more := pool - {frame}, more + {frame};
      }
      ok := true;
    }

    /** Maps the next page of a growth, or takes the whole growth back. */
    method MapOne(start: nat, i: nat, maps: nat -> Outcome, ghost pages: nat, ghost vm0: Frames, ghost pool0: set<nat>,
                  ghost fs: seq<nat>, ghost tables: set<nat>)
      returns (ok: bool, ghost fs': seq<nat>, ghost tables': set<nat>)
      requires Progress(vm0, vm, pool0, pool, start, fs, tables, maps, pages) && i == |fs| < pages
      requires 0 !in pool0 && forall p: nat | start <= p :: p !in vm0
      modifies this`vm, this`pool
      ensures ok ==> Progress(vm0, vm, pool0, pool, start, fs', tables', maps, pages) && |fs'| == i + 1
      ensures !ok ==> vm == vm0 && pool == pool0 - tables' && tables' <= pool0
      ensures !ok ==> !Mappable(maps, pages, |pool0|) && |tables'| == Lost(maps, 0, pages, |pool0|)
    {
      ok, fs', tables' := false, fs, tables;
      if pool == {} {
        OutOfFrames(vm0, vm, pool0, pool, start, fs, tables, maps, pages);
        Rollback(start, i, vm0, fs);
        return;
      }
      var frame :| frame in pool;
      ghost var before, more := pool, {};
      pool := pool - {frame};
      ok, more := TakeTables(maps(i).tables);
      tables' := tables + more;
      if !ok || !maps(i).ok {
        ProgressFails(vm0, vm, pool0, before, start, fs, tables, maps, pages, frame, more);
        pool := pool + {frame};
        Rollback(start, i, vm0, fs);
        return false, fs', tables';
      }
      ProgressNext(vm0, vm, pool0, before, start, fs, tables, maps, pages, frame, more);
      vm := vm[start + i := frame];
      fs' := fs + [frame];
    }

    /** Maps `pages` pages from page `start` on. A failure leaves no page mapped
        and no data frame taken; frames taken for page tables stay taken. */
    method MapNewPages(start: nat, pages: nat, maps: nat -> Outcome)
      returns (ok: bool, ghost fs: seq<nat>, ghost tables: set<nat>)
      requires 0 !in pool && (forall p: nat | start <= p :: p !in vm)
      modifies this`vm, this`pool
      ensures ok <==> Mappable(maps, pages, |old(pool)|)
      ensures tables <= old(pool)
      ensures |tables| == if ok then TablesFor(maps, pages) else Lost(maps, 0, pages, |old(pool)|)
      ensures !ok ==> vm == old(vm) && pool == old(pool) - tables
      ensures ok ==> |fs| == pages && MappedFrom(old(vm), vm, start, fs, 0) && Held(old(pool), pool, tables, SetOf(fs))
      ensures ok ==> |pool| + pages + |tables| == |old(pool)|
    {
      ok, fs, tables := true, [], {};
      ghost var vm0, pool0 := vm, pool;
      var i := 0;
      ProgressStart(vm, pool, start, maps, pages);
      while i < pages
        invariant i <= pages && |fs| == i && ok && Progress(vm0, vm, pool0, pool, start, fs, tables, maps, pages)
      {
        ok, fs, tables := MapOne(start, i, maps, pages, vm0, pool0, fs, tables);
        if !ok { return; }
        i := i + 1;
      }
    }

    // ---- Walking the blocks ----

    /** The checks on one header. */
    method BasicValid(a: nat) returns (ok: bool)
      requires next < U64
      ensures ok <==> var h := HeaderAt(mem, a);
        && BASE <= a < next && h.magic == MAGIC && h.capacity != 0 && h.size <= h.capacity
        && a + HEADER + h.capacity <= next
        && (h.prev != 0 ==> BASE <= h.prev < next) && (h.next != 0 ==> BASE <= h.next < next)
    {
      var h := HeaderAt(mem, a);
      if !(BASE <= a < next) { return false; }
      if h.magic != MAGIC { return false; }
      if h.capacity == 0 || h.size > h.capacity { return false; }
      if a + HEADER + h.capacity > next { return false; }
      if h.prev != 0 && !(BASE <= h.prev < next) { return false; }
      if h.next != 0 && !(BASE <= h.next < next) { return false; }
      return true;
    }

    /** The walk over all headers accepts every reachable state of at most MAX_SEEN + 1 blocks, and no longer one. */
    method Validate() returns (ok: bool)
      requires Valid()
      modifies this`corruption
      ensures ok <==> |blocks| <= MAX_SEEN + 1
    {
      var seen, prev, a := 0, 0, head;
      ok := true;
      while a != 0 && ok
        invariant seen <= |blocks| && (ok ==> seen <= MAX_SEEN + 1)
        invariant ok ==>
          && a == (if seen < |blocks| then blocks[seen].addr else 0)
          && prev == if seen > 0 then blocks[seen - 1].addr else 0
        invariant !ok ==> |blocks| > MAX_SEEN + 1
        invariant ok && seen < |blocks| ==> a != 0
        decreases |blocks| - seen, ok
      {
        HeaderFacts(mem, blocks, head, next, seen);
        var h := HeaderAt(mem, a);
        var valid := BasicValid(a);
        if seen > MAX_SEEN {
          ok := false;
        } else if !valid || h.prev != prev || (h.next != 0 && HeaderAt(mem, h.next).prev != a) || h.flags > 1 {
          ok := false;
        } else {
          seen, prev, a := seen + 1, a, h.next;
        }
      }
      if !ok { corruption := corruption + 1; }
    }

    /** The first free block that is large enough. */
    method FindFit(req: nat) returns (a: nat, ghost i: nat)
      requires Valid()
      ensures a == 0 ==> forall j | 0 <= j < |blocks| :: !(blocks[j].free && blocks[j].capacity >= req)
      ensures a != 0 ==> FirstFit(blocks, req, i) && a == blocks[i].addr
    {
      a, i := head, 0;
      while a != 0
        invariant i <= |blocks| && a == (if i < |blocks| then blocks[i].addr else 0) && (i < |blocks| ==> a != 0)
        invariant forall j | 0 <= j < i :: !(blocks[j].free && blocks[j].capacity >= req)
        decreases |blocks| - i
      {
        HeaderFacts(mem, blocks, head, next, i);
        var h := HeaderAt(mem, a);
        if h.flags == 1 && h.capacity >= req { return; }
        a, i := h.next, i + 1;
      }
    }

    // ---- Allocation ----

    /** Takes the free block at `a`, splitting off what is left. */
    method TakeBlock(a: nat, req: nat, ghost i: nat)
      requires Valid() && FirstFit(blocks, req, i) && a == blocks[i].addr && req >= ALIGN && req % ALIGN == 0
      modifies this`mem, this`freeBytes, this`allocations, this`blocks
      ensures Valid() && blocks == TakeAt(old(blocks), i, req) && AllKept(old(blocks), blocks, old(mem), mem)
    {
      ghost var bs, m := blocks, mem;
      HeaderFacts(mem, blocks, head, next, i);
      TakeCompact(bs, i, req);
      var h := HeaderAt(mem, a);
      var capacity := h.capacity;
      ghost var bs1 := bs[i := bs[i].(free := false, size := req)];
      EditSum(bs, i, bs1[i]);
      EditLinked(mem, bs, head, next, i, bs1[i]);
      freeBytes := freeBytes - capacity;
      mem := PutHeader(mem, a, h.(flags := 0, size := req));
      if capacity - req < HEADER + ALIGN {
        ghost var bs2 := bs1[i := bs1[i].(size := capacity)];
        EditSum(bs1, i, bs2[i]);
        EditLinked(mem, bs1, head, next, i, bs2[i]);
        mem := PutHeader(mem, a, h.(flags := 0, size := capacity));
        blocks := bs2;
        EditKept(bs, bs2, m, h.(flags := 0, size := req), h.(flags := 0, size := capacity), next, i);
      } else {
        SplitSum(bs1, i, req);
        SplitLinked(mem, bs1, head, next, i, req);
        WriteSplit(a, req, capacity, i, bs1);
        blocks := SplitAt(bs1, i, req);
        SplitKept(bs, bs1, m, h.(flags := 0, size := req), next, i, req);
      }
      allocations := allocations + 1;
    }

    /** The three header writes of a split. */
    method WriteSplit(a: nat, req: nat, capacity: nat, ghost i: nat, ghost bs: seq<Block>)
      requires Linked(mem, bs, head, next) && CanSplit(bs, i, req) && a == bs[i].addr && capacity == bs[i].capacity
      modifies this`mem, this`freeBytes
      ensures mem == SplitMem(old(mem), bs, i, req) && freeBytes == old(freeBytes) + capacity - req - HEADER
    {
      HeaderFacts(mem, bs, head, next, i);
      SplitExpected(bs, i, req);
      var h := HeaderAt(mem, a);
      var rest := capacity - req;
      var t := a + HEADER + req;
      mem := PutHeader(mem, t, Header(MAGIC, rest - HEADER, rest - HEADER, 1, a, h.next));
      if h.next != 0 { mem := PutHeader(mem, h.next, HeaderAt(mem, h.next).(prev := t)); }
      mem := PutHeader(mem, a, Header(h.magic, req, req, h.flags, h.prev, t));
      freeBytes := freeBytes + rest - HEADER;
    }

    /** Walks to the last block; 0 when there is none. */
    method LastBlock() returns (last: nat)
      requires Linked(mem, blocks, head, next)
      ensures last == if blocks == [] then 0 else blocks[|blocks| - 1].addr
    {
      if head == 0 { return 0; }
      ghost var i := 0;
      last := head;
      HeaderFacts(mem, blocks, head, next, 0);
      while HeaderAt(mem, last).next != 0
        invariant i < |blocks| && last == blocks[i].addr && HeaderAt(mem, last) == Expected(blocks, i)
        decreases |blocks| - i
      {
        last, i := HeaderAt(mem, last).next, i + 1;
        HeaderFacts(mem, blocks, head, next, i);
      }
      LastOne(mem, blocks, head, next, i);
    }

    /** Appends the header of a new block and links it to the last one. */
    method AppendBlock(b: Block)
      requires Linked(mem, blocks, head, next) && b.addr == next && BlockOk(b) && End(b) <= LIMIT && !b.free
      modifies this`mem, this`head, this`next, this`blocks
      ensures blocks == old(blocks) + [b] && mem == AppendMem(old(mem), old(blocks), b)
      ensures Linked(mem, blocks, head, next) && next == End(b)
    {
      AppendLinked(mem, blocks, head, next, b);
      var last := LastBlock();
      mem := PutHeader(mem, b.addr, Header(MAGIC, b.size, b.capacity, 0, last, 0));
      if head == 0 { head := b.addr; }
      else { mem := PutHeader(mem, last, HeaderAt(mem, last).(next := b.addr)); }
      next := End(b);
      blocks := blocks + [b];
    }

    /** Counts a used block that is appended. */
    method AddBlock(b: Block)
      requires HeapOk(mem, blocks, head, next, freeBytes, allocations)
      requires b.addr == next && BlockOk(b) && End(b) <= LIMIT && !b.free
      modifies this`mem, this`head, this`next, this`blocks, this`allocations
      ensures HeapOk(mem, blocks, head, next, freeBytes, allocations)
      ensures blocks == old(blocks) + [b] && next == End(b) && AllKept(old(blocks), blocks, old(mem), mem)
    {
      AppendedOk(blocks, b);
      AppendKept(mem, blocks, next, b);
      AppendBlock(b);
      allocations := allocations + 1;
    }

    /** Maps the next `pages` pages of the arena, all or none. */
    method TakePages(pages: nat, maps: nat -> Outcome) returns (ok: bool)
      requires PagesOk(vm, pool, next) && BASE <= next
      modifies this`vm, this`pool
      ensures pool <= old(pool)
      ensures if ok then PagesOk(vm, pool, next + pages * PAGE) else vm == old(vm) && PagesOk(vm, pool, next)
      ensures Spent(maps, pages, |old(pool)|, |pool|, ok)
    {
      ghost var vm0, pool0 := vm, pool;
      SmallerPool(vm, pool, pool, next);
      ghost var fs, tables;
      ok, fs, tables := MapNewPages(next / PAGE, pages, maps);
      if ok { GrownPages(vm0, vm, pool0, pool, next, pages, fs); }
      else {
        SmallerPool(vm, pool0, pool, next);
        assert pool0 == pool + tables;
      }
    }

    /** Maps the pages of the new block `b` and appends it; 0 is a failure. */
    method GrowBy(b: Block, pages: nat, maps: nat -> Outcome) returns (a: nat)
      requires Valid() && b.addr == next && BlockOk(b) && End(b) == next + pages * PAGE <= LIMIT && !b.free
      modifies this`mem, this`head, this`next, this`allocations, this`vm, this`pool, this`blocks
      ensures Valid() && pool <= old(pool)
      ensures a == 0 ==> blocks == old(blocks) && mem == old(mem) && vm == old(vm) && next == old(next)
      ensures a != 0 ==>
        a == b.addr && blocks == old(blocks) + [b] && AllKept(old(blocks), blocks, old(mem), mem) && next == End(b)
      ensures Spent(maps, pages, |old(pool)|, |pool|, a != 0)
    {
      var ok := TakePages(pages, maps);
      if !ok { return 0; }
      AddBlock(b);
      a := b.addr;
    }

    /** Grows the arena by a used block of at least `req` bytes; 0 is a failure. */
    method Grow(req: nat, maps: nat -> Outcome) returns (a: nat, ghost b: Block)
      requires Valid() && ALIGN <= req < U64 && req % ALIGN == 0
      modifies this`mem, this`head, this`next, this`allocations, this`vm, this`pool, this`blocks
      ensures Valid() && pool <= old(pool)
      ensures a == 0 ==> blocks == old(blocks) && mem == old(mem) && vm == old(vm) && next == old(next)
      ensures a != 0 ==>
        b == Block(old(next), req, CapacityOf(PagesFor(req)), false) && a == b.addr && req <= b.capacity
      ensures a != 0 ==> blocks == old(blocks) + [b] && next == old(next) + PagesFor(req) * PAGE
      ensures a != 0 ==> AllKept(old(blocks), blocks, old(mem), mem)
      ensures a != 0 <==> CanGrow(maps, req, old(next), |old(pool)|)
      ensures a != 0 ==> |pool| + GrowthCost(maps, req) == |old(pool)|
      ensures a == 0 ==> |pool| + GrowthLoss(maps, req, old(next), |old(pool)|) == |old(pool)|
    {
      var pages := PagesFor(req);
      var capacity := CapacityOf(pages);
      b := Block(next, req, capacity, false);
      if pages == 0 || capacity < req || next > LIMIT || pages > (LIMIT - next) / PAGE { return 0, b; }
      GrowthFits(req, next);
      a := GrowBy(Block(next, req, capacity, false), pages, maps);
    }

    /** Allocates `size` bytes; 0 is a failure. */
    method Malloc(size: nat, maps: nat -> Outcome) returns (ptr: nat, ghost k: nat)
      requires Valid() && size < U64
      modifies this
      ensures Valid() && pool <= old(pool)
      ensures ptr == 0 ==> blocks == old(blocks) && mem == old(mem) && vm == old(vm) && next == old(next)
      ensures ptr == 0 ==>
        if 0 < size <= U64 - ALIGN && |old(blocks)| <= MAX_SEEN + 1
        then |pool| + GrowthLoss(maps, AlignSize(size), old(next), |old(pool)|) == |old(pool)|
        else pool == old(pool)
      ensures ptr != 0 ==> Allocated(old(blocks), blocks, k, ptr, size) && AllKept(old(blocks), blocks, old(mem), mem)
      ensures |old(blocks)| > MAX_SEEN + 1 ==> ptr == 0
      ensures ptr != 0 <==>
        && 0 < size <= U64 - ALIGN && |old(blocks)| <= MAX_SEEN + 1
        && (HasFit(old(blocks), AlignSize(size)) || CanGrow(maps, AlignSize(size), old(next), |old(pool)|))
      ensures ptr != 0 && !HasFit(old(blocks), AlignSize(size)) ==> var req := AlignSize(size);
        && blocks == old(blocks) + [Block(old(next), req, CapacityOf(PagesFor(req)), false)]
        && next == old(next) + PagesFor(req) * PAGE && |pool| + GrowthCost(maps, req) == |old(pool)|
      ensures 0 < size <= U64 - ALIGN && |old(blocks)| <= MAX_SEEN + 1 && HasFit(old(blocks), AlignSize(size)) ==>
        ptr != 0 && FirstFit(old(blocks), AlignSize(size), k) && ptr == old(blocks)[k].addr + HEADER &&
        var b, req := old(blocks)[k], AlignSize(size);
        if b.capacity < req + HEADER + ALIGN
        then blocks == old(blocks)[..k] + [Block(b.addr, b.capacity, b.capacity, false)] + old(blocks)[k + 1..]
        else
          var rest := b.capacity - req - HEADER;
          blocks == old(blocks)[..k] +
                    [Block(b.addr, req, req, false), Block(b.addr + HEADER + req, rest, rest, true)] +
                    old(blocks)[k + 1..]
      ensures ptr != 0 && !HasFit(old(blocks), AlignSize(size)) ==> var req := AlignSize(size);
        next % PAGE == 0 && old(next) + HEADER + req <= next < old(next) + HEADER + req + PAGE
    {
      k := 0;
      if size == 0 { return 0, 0; }
      AlignSizeIs(size);
      var req := AlignSize(size);
      if req == 0 { return 0, 0; }
      var ok := Validate();
      if !ok { return 0, 0; }
      ghost var bs := blocks;
      var a, i := FindFit(req);
      if a != 0 {
        HeaderFacts(mem, blocks, head, next, i);
        TakeBlock(a, req, i);
        TakenIs(bs, i, req);
        TakenClear(bs, next, i, req, size);
        return a + HEADER, i;
      }
      ghost var next0 := next;
      ghost var b;
      a, b := Grow(req, maps);
      if a == 0 { return 0, 0; }
      PagesForIs(req);
      GrownClear(bs, blocks, next0, next, size);
      return a + HEADER, |bs|;
    }

    // ---- Freeing ----

    /** Merges the free block at `a` with the next one, if that is free. */
    method MergeNext(a: nat, ghost i: nat)
      requires Linked(mem, blocks, head, next) && i < |blocks| && a == blocks[i].addr && blocks[i].free
      requires freeBytes == FreeSum(blocks)
      modifies this`mem, this`freeBytes, this`blocks
      ensures Linked(mem, blocks, head, next) && freeBytes == FreeSum(blocks)
      ensures UsedCount(blocks) == UsedCount(old(blocks))
      ensures blocks == Absorb(old(blocks), i) && mem == AbsorbMem(old(mem), old(blocks), i)
    {
      HeaderFacts(mem, blocks, head, next, i);
      var h := HeaderAt(mem, a);
      if h.next == 0 { return; }
      HeaderFacts(mem, blocks, head, next, i + 1);
      if HeaderAt(mem, h.next).flags == 0 { return; }
      MergeLinked(mem, blocks, head, next, i);
      MergeSum(blocks, i);
      WriteMerge(a, i);
      freeBytes := freeBytes + HEADER;
      blocks := MergeAt(blocks, i);
    }

    /** The header writes of a merge. */
    method WriteMerge(a: nat, ghost i: nat)
      requires Linked(mem, blocks, head, next) && i + 1 < |blocks| && a == blocks[i].addr
      modifies this`mem
      ensures mem == MergeMem(old(mem), blocks, i)
    {
      HeaderFacts(mem, blocks, head, next, i);
      HeaderFacts(mem, blocks, head, next, i + 1);
      MergeExpected(blocks, i);
      var h := HeaderAt(mem, a);
      var n := HeaderAt(mem, h.next);
      var all := h.capacity + HEADER + n.capacity;
      mem := PutHeader(mem, a, h.(size := all, capacity := all, next := n.next));
      if n.next != 0 { mem := PutHeader(mem, n.next, HeaderAt(mem, n.next).(prev := a)); }
    }

    /** Marks the block at `a` free. */
    method MarkFree(a: nat, ghost i: nat)
      requires Valid() && i < |blocks| && a == blocks[i].addr && !blocks[i].free
      modifies this`mem, this`freeBytes, this`allocations, this`blocks
      ensures Linked(mem, blocks, head, next) && freeBytes == FreeSum(blocks) && allocations == UsedCount(blocks)
      ensures blocks == old(blocks)[i := old(blocks)[i].(free := true)]
      ensures mem == PutHeader(old(mem), a, HeaderAt(old(mem), a).(flags := 1))
      ensures allocations + 1 == old(allocations)
    {
      HeaderFacts(mem, blocks, head, next, i);
      ghost var b := blocks[i].(free := true);
      EditLinked(mem, blocks, head, next, i, b);
      EditSum(blocks, i, b);
      var h := HeaderAt(mem, a);
      mem := PutHeader(mem, a, h.(flags := 1));
      freeBytes := freeBytes + h.capacity;
      if allocations != 0 { allocations := allocations - 1; }
      blocks := blocks[i := b];
    }

    /** Frees the block at `a` and merges it with its free neighbours. */
    method Release(a: nat, ghost i: nat)
      requires Valid() && i < |blocks| && a == blocks[i].addr && !blocks[i].free
      modifies this`mem, this`freeBytes, this`allocations, this`blocks
      ensures Valid() && blocks == FreeAt(old(blocks), i) && KeptBut(old(blocks), blocks, old(mem), mem, i)
      ensures allocations + 1 == old(allocations)
    {
      FreeCompact(blocks, i);
      FreeKept(blocks, mem, next, i, HeaderAt(mem, a).(flags := 1));
      MarkFree(a, i);
      AbsorbFirst(blocks, i);
      MergeNext(a, i);
      MergePrev(a, i);
    }

    /** Merges the free block at `a` into the one before it, if that is free. */
    method MergePrev(a: nat, ghost i: nat)
      requires Linked(mem, blocks, head, next) && i < |blocks| && a == blocks[i].addr && freeBytes == FreeSum(blocks)
      modifies this`mem, this`freeBytes, this`blocks
      ensures Linked(mem, blocks, head, next) && freeBytes == FreeSum(blocks)
      ensures UsedCount(blocks) == UsedCount(old(blocks))
      ensures if i > 0 && old(blocks)[i - 1].free
        then blocks == Absorb(old(blocks), i - 1) && mem == AbsorbMem(old(mem), old(blocks), i - 1)
        else blocks == old(blocks) && mem == old(mem)
    {
      HeaderFacts(mem, blocks, head, next, i);
      var before := HeaderAt(mem, a).prev;
      if before == 0 { return; }
      HeaderFacts(mem, blocks, head, next, i - 1);
      if HeaderAt(mem, before).flags == 1 { MergeNext(before, i - 1); }
    }

    /** Frees an allocation. A null pointer, a pointer outside the arena and one without the header of
        a live block before it are ignored. */
    method Free(ptr: nat, ghost i: nat)
      requires Valid() && (LooksLive(mem, next, ptr) ==> i < |blocks| && ptr == blocks[i].addr + HEADER)
      modifies this`mem, this`freeBytes, this`allocations, this`corruption, this`blocks
      ensures Valid()
      ensures if LooksLive(old(mem), next, ptr) && |old(blocks)| <= MAX_SEEN + 1
        then
          && blocks == FreeAt(old(blocks), i) && KeptBut(old(blocks), blocks, old(mem), mem, i)
          && (exists j: nat :: j < |blocks| && Covers(blocks[j], old(blocks)[i])) && allocations + 1 == old(allocations)
        else blocks == old(blocks) && mem == old(mem)
    {
      if ptr == 0 || ptr < BASE + HEADER || ptr >= next { return; }
      var a := ptr - HEADER;
      if HeaderAt(mem, a).magic != MAGIC || HeaderAt(mem, a).flags % 2 == 1 { return; }
      HeaderFacts(mem, blocks, head, next, i);
      var ok := Validate();
      if !ok { return; }
      FreedCovered(blocks, next, i);
      Release(a, i);
    }

    /** A client writes a word of a block it owns. */
    method Write(w: nat, v: nat, ghost i: nat)
      requires Valid() && i < |blocks| && InPayload(blocks[i], w)
      modifies this`mem
      ensures Valid() && mem == old(mem)[w := v]
      ensures forall j: nat {:trigger Intact(old(mem), mem, blocks[j])} | j < |blocks| && j != i ::
        Intact(old(mem), mem, blocks[j])
    {
      StoreLinked(mem, blocks, head, next, i, w, v);
      mem := mem[w := v];
    }

    // ---- Runs ----

    /** Every run of allocations, frees of what was allocated and writes to what is owned keeps the heap
        sound. The pointers still owned are those of different live blocks, and every word that a client
        wrote to its memory is still there. */
    method Run(ops: seq<Op>, maps: (nat, nat) -> Outcome) returns (ptrs: seq<nat>)
      requires Valid() && forall k | 0 <= k < |ops| && ops[k].Alloc? :: ops[k].size < U64
      modifies this
      ensures Valid() && |ptrs| == |ops| && Served(mem, blocks, After(ops, ptrs))
    {
      ptrs := [];
      var c := Clients([], []);
      while |ptrs| < |ops|
        invariant |ptrs| <= |ops| && Valid() && c == After(ops[..|ptrs|], ptrs) && Served(mem, blocks, c)
      {
        var n := |ptrs|;
        var ptr := RunOne(ops[n], (i: nat) => maps(n, i), c);
        AfterNext(ops, ptrs, ptr);
        c := Next(c, ops[n], ptr);
        ptrs := ptrs + [ptr];
      }
      assert ops[..|ops|] == ops;
    }

    method RunOne(op: Op, maps: nat -> Outcome, c: Clients) returns (ptr: nat)
      requires Valid() && Served(mem, blocks, c) && (op.Alloc? ==> op.size < U64)
      modifies this
      ensures Valid() && Served(mem, blocks, Next(c, op, ptr))
    {
      ptr := 0;
      match op {
        case Alloc(size) => ptr := RunAlloc(size, maps, c);
        case Release(which) => if which < |c.owned| { RunFree(which, c); }
        case Store(which, off, value) =>
          if which < |c.owned| && off % 8 == 0 && off + 8 <= c.owned[which].size { RunStore(which, off, value, c); }
      }
    }

    method RunAlloc(size: nat, maps: nat -> Outcome, c: Clients) returns (ptr: nat)
      requires Valid() && size < U64 && Served(mem, blocks, c)
      modifies this
      ensures Valid() && Served(mem, blocks, Next(c, Alloc(size), ptr))
    {
      ghost var bs, m, at := blocks, mem, 0;
      ptr, at := Malloc(size, maps);
      if ptr != 0 {
        OwnedAlloc(bs, blocks, m, mem, c.owned, at, Grant(ptr, size));
        RememberAlloc(bs, blocks, m, mem, c.owned, Holds(c.log), Grant(ptr, size));
      }
    }

    method RunFree(which: nat, c: Clients)
      requires Valid() && Served(mem, blocks, c) && which < |c.owned|
      modifies this
      ensures Valid() && Served(mem, blocks, Next(c, Op.Release(which), 0))
    {
      ghost var bs, m := blocks, mem;
      assert OwnedAt(bs, c.owned, which);
      ghost var b: nat :| b < |bs| && Owns(bs, b, c.owned[which]);
      HeaderFacts(mem, bs, head, next, b);
      Free(c.owned[which].ptr, b);
      OwnedFree(bs, blocks, m, mem, c.owned, which, b);
      RememberFree(bs, blocks, m, mem, c.owned, c.log, which, b);
    }

    method RunStore(which: nat, off: nat, value: nat, c: Clients)
      requires Valid() && Served(mem, blocks, c) && which < |c.owned| && off % 8 == 0 && off + 8 <= c.owned[which].size
      modifies this`mem
      ensures Valid() && Served(mem, blocks, Next(c, Store(which, off, value), 0))
    {
      assert OwnedAt(blocks, c.owned, which);
      ghost var b: nat :| b < |blocks| && Owns(blocks, b, c.owned[which]);
      RememberStore(mem, c.owned, c.log, which, c.owned[which].ptr + off, value);
      Write(c.owned[which].ptr + off, value, b);
    }

    /** An allocation per page, one more than the walk over the headers allows: afterwards nothing can be
        allocated any more, although frames and room are left. */
    method Overfill(maps: nat -> Outcome) returns (ptr: nat)
      requires Valid() && blocks == [] && next == BASE && Mappable(maps, MAX_SEEN + 3, |pool|)
      modifies this
      ensures Valid() && |blocks| == MAX_SEEN + 2 && ptr == 0
      ensures CanGrow(From(maps, MAX_SEEN + 2), ALIGN, next, |pool|)
    {
      OnePage();
      ghost var frames := |pool|;
      for n := 0 to MAX_SEEN + 2
        invariant Valid() && |blocks| == n && next == BASE + n * PAGE && AllUsed(blocks)
        invariant |pool| + n + TablesFor(maps, n) == frames
      {
        ptr := FillPage(n, maps, frames);
      }
      NextPage(maps, MAX_SEEN + 2, MAX_SEEN + 3, |pool|);
      ghost var k;
      ptr, k := Malloc(1, From(maps, MAX_SEEN + 2));
    }

    /** The allocation of page `n` when no block is free. */
    method FillPage(n: nat, maps: nat -> Outcome, ghost frames: nat) returns (ptr: nat)
      requires Valid() && n < MAX_SEEN + 2 && |blocks| == n && next == BASE + n * PAGE && AllUsed(blocks)
      requires Mappable(maps, MAX_SEEN + 3, frames) && |pool| + n + TablesFor(maps, n) == frames
      modifies this
      ensures Valid() && |blocks| == n + 1 && next == BASE + (n + 1) * PAGE && AllUsed(blocks) && ptr != 0
      ensures |pool| + n + 1 + TablesFor(maps, n + 1) == frames
    {
      OnePage();
      NoFit(blocks, ALIGN);
      NextPage(maps, n, MAX_SEEN + 3, |pool|);
      ghost var k;
      ptr, k := Malloc(1, From(maps, n));
    }
  }

  ghost predicate AllUsed(bs: seq<Block>) { forall j | 0 <= j < |bs| :: !bs[j].free }

  lemma NoFit(bs: seq<Block>, req: nat)
    requires AllUsed(bs)
    ensures !HasFit(bs, req)
  {}

  /** The mapping calls from call `n` on. */
  function From(maps: nat -> Outcome, n: nat): nat -> Outcome { (i: nat) => maps(n + i) }

  /** Mapping call `n` of many that succeed, seen as the only one of its growth. */
  lemma NextPage(maps: nat -> Outcome, n: nat, all: nat, frames: nat)
    requires n < all && Mappable(maps, all, frames + n + TablesFor(maps, n))
    ensures TablesFor(From(maps, n), 1) == maps(n).tables && Mappable(From(maps, n), 1, frames)
  {
    TablesGrow(maps, n + 1, all);
    var one := From(maps, n);
    assert TablesFor(one, 1) == TablesFor(one, 0) + one(0).tables;
  }

  /** A request of one byte takes one page. */
  lemma OnePage()
    ensures AlignSize(1) == ALIGN && PagesFor(ALIGN) == 1 && CapacityOf(1) == PAGE - HEADER
    ensures forall next: nat | BASE <= next && next + PAGE <= LIMIT :: Growable(1, ALIGN, next)
  {}

  /** The words before `ptr` read as the header of a block in use. */
  predicate LooksLive(m: Mem, next: nat, ptr: nat) {
    && BASE + HEADER <= ptr < next && HeaderAt(m, ptr - HEADER).magic == MAGIC
    && HeaderAt(m, ptr - HEADER).flags % 2 == 0
  }

  ghost predicate KeptBut(bs: seq<Block>, bs': seq<Block>, m: Mem, m': Mem, i: nat) {
    forall j: nat {:trigger LiveKept(bs, bs', m, m', j)} | j < |bs| && j != i :: LiveKept(bs, bs', m, m', j)
  }

  /** The memory after block `i` was freed and merged. */
  function FreeMem(bs: seq<Block>, m: Mem, i: nat, h: Header): Mem
    requires i < |bs|
  {
    var bs1, m1 := bs[i := bs[i].(free := true)], PutHeader(m, bs[i].addr, h);
    var bs2, m2 := Absorb(bs1, i), AbsorbMem(m1, bs1, i);
    if i > 0 && bs2[i - 1].free then AbsorbMem(m2, bs2, i - 1) else m2
  }

  lemma FreeKept(bs: seq<Block>, m: Mem, next: nat, i: nat, h: Header)
    requires Tiles(bs, next) && i < |bs|
    ensures KeptBut(bs, FreeAt(bs, i), m, FreeMem(bs, m, i, h), i)
  {
    var r, m' := FreeAt(bs, i), FreeMem(bs, m, i, h);
    forall j: nat | j < |bs| && j != i ensures LiveKept(bs, r, m, m', j) {
      if !bs[j].free { FreeKeeps(bs, m, next, i, h, j); }
    }
  }

  /** A live block survives a merge elsewhere. */
  lemma AbsorbKeeps(m: Mem, bs: seq<Block>, next: nat, i: nat, j: nat) returns (k: nat)
    requires Tiles(bs, next) && i < |bs| && j < |bs| && j != i && !bs[j].free
    ensures Tiles(Absorb(bs, i), next) && k < |Absorb(bs, i)| && Absorb(bs, i)[k] == bs[j] && (j < i ==> k == j)
    ensures (j > i ==> k > i)
    ensures Intact(m, AbsorbMem(m, bs, i), bs[j])
  {
    k := j;
    if i + 1 < |bs| && bs[i + 1].free {
      MergeTiles(bs, next, i);
      MergeIntact(m, bs, next, i, j);
      k := if j < i then j else j - 1;
    }
  }

  /** A live block survives the first merge of a freed block `i`. */
  lemma FirstKeeps(bs: seq<Block>, m: Mem, next: nat, i: nat, h: Header, j: nat) returns (k: nat)
    requires Tiles(bs, next) && i < |bs| && j < |bs| && j != i && !bs[j].free
    ensures var bs1, m1 := bs[i := bs[i].(free := true)], PutHeader(m, bs[i].addr, h);
      var bs2 := Absorb(bs1, i);
      && Tiles(bs2, next) && i < |bs2| && k < |bs2| && bs2[k] == bs[j] && (j < i ==> k == j) && (j > i ==> k > i)
      && Intact(m, AbsorbMem(m1, bs1, i), bs[j])
  {
    var bs1, m1 := bs[i := bs[i].(free := true)], PutHeader(m, bs[i].addr, h);
    forall k: nat | k < |bs1| ensures TileOk(bs1, next, k) { assert TileOk(bs, next, k); }
    HeaderIntact(m, bs, next, i, h, j);
    k := AbsorbKeeps(m1, bs1, next, i, j);
    AbsorbFirst(bs1, i);
    IntactTrans(m, m1, AbsorbMem(m1, bs1, i), bs[j]);
  }

  lemma {:induction false} FreeKeeps(bs: seq<Block>, m: Mem, next: nat, i: nat, h: Header, j: nat)
    requires Tiles(bs, next) && i < |bs| && j < |bs| && j != i && !bs[j].free
    ensures bs[j] in FreeAt(bs, i) && Intact(m, FreeMem(bs, m, i, h), bs[j])
  {
    var k := FirstKeeps(bs, m, next, i, h, j);
    var bs1, m1 := bs[i := bs[i].(free := true)], PutHeader(m, bs[i].addr, h);
    var bs2, m2 := Absorb(bs1, i), AbsorbMem(m1, bs1, i);
    if i > 0 && bs2[i - 1].free {
      assert FreeAt(bs, i) == Absorb(bs2, i - 1) && FreeMem(bs, m, i, h) == AbsorbMem(m2, bs2, i - 1);
      var k2 := AbsorbKeeps(m2, bs2, next, i - 1, k);
      IntactTrans(m, m2, AbsorbMem(m2, bs2, i - 1), bs[j]);
    } else {
      assert FreeAt(bs, i) == bs2 && FreeMem(bs, m, i, h) == m2;
    }
  }

  predicate HasFit(bs: seq<Block>, req: nat) { exists i | 0 <= i < |bs| :: bs[i].free && bs[i].capacity >= req }

  predicate ClearOf(bs: seq<Block>, b: Block, j: nat) { j < |bs| && (!bs[j].free ==> Disjoint(bs[j], b)) }

  /** The payload at `ptr` is aligned, large enough, and clear of every block that was live before. */
  ghost predicate Allocated(bs: seq<Block>, bs': seq<Block>, k: nat, ptr: nat, size: nat) {
    && k < |bs'| && ptr == bs'[k].addr + HEADER && ptr % ALIGN == 0 && !bs'[k].free && size <= bs'[k].capacity
    && forall j: nat {:trigger ClearOf(bs, bs'[k], j)} | j < |bs| :: ClearOf(bs, bs'[k], j)
  }

  lemma TakenClear(bs: seq<Block>, next: nat, i: nat, req: nat, size: nat)
    requires Tiles(bs, next) && i < |bs| && bs[i].free && req >= ALIGN && req % ALIGN == 0
    requires bs[i].capacity >= req >= size
    ensures Allocated(bs, TakeAt(bs, i, req), i, bs[i].addr + HEADER, size)
  {
    var b := TakeAt(bs, i, req)[i];
    assert TileOk(bs, next, i) && b.addr == bs[i].addr && End(b) <= End(bs[i]);
    forall j: nat | j < |bs| ensures ClearOf(bs, b, j) { if j != i { BlocksApart(bs, next, i, j); } }
  }

  lemma GrownClear(bs: seq<Block>, bs': seq<Block>, next: nat, next': nat, size: nat)
    requires Tiles(bs, next) && Tiles(bs', next') && |bs'| == |bs| + 1 && bs' == bs + [bs'[|bs|]]
    requires var b := bs'[|bs|]; b.addr == next && !b.free && size <= b.capacity
    ensures Allocated(bs, bs', |bs|, next + HEADER, size)
  {
    var b := bs'[|bs|];
    assert TileOk(bs', next', |bs|);
    forall j: nat | j < |bs| ensures ClearOf(bs, b, j) { BeforeNext(bs, next, j); }
  }

  lemma LastOne(m: Mem, bs: seq<Block>, head: nat, next: nat, i: nat)
    requires Linked(m, bs, head, next) && i < |bs| && Expected(bs, i).next == 0
    ensures i == |bs| - 1
  {
    assert i + 1 < |bs| ==> TileOk(bs, next, i + 1);
  }

  lemma AppendedOk(bs: seq<Block>, b: Block)
    requires Compact(bs) && !b.free
    ensures Compact(bs + [b]) && FreeSum(bs + [b]) == FreeSum(bs) && UsedCount(bs + [b]) == UsedCount(bs) + 1
  {
    SumAppend(bs, [b]);
    SumOne(b);
    var bs' := bs + [b];
    forall j: nat | j < |bs'| ensures ApartFrom(bs', j) { if j < |bs| { assert ApartFrom(bs, j); } }
  }

  lemma AppendKept(m: Mem, bs: seq<Block>, next: nat, b: Block)
    requires Tiles(bs, next) && b.addr == next && BlockOk(b)
    ensures AllKept(bs, bs + [b], m, AppendMem(m, bs, b))
  {
    var bs', m' := bs + [b], AppendMem(m, bs, b);
    forall j: nat | j < |bs| ensures LiveKept(bs, bs', m, m', j) {
      AppendIntact(m, bs, next, b, j);
      assert bs'[j] == bs[j];
    }
  }

  lemma GrownPages(vm0: Frames, vm: Frames, pool0: set<nat>, pool: set<nat>, next: nat, pages: nat, fs: seq<nat>)
    requires BASE <= next && PagesOk(vm0, pool0, next) && |fs| == pages && MappedFrom(vm0, vm, next / PAGE, fs, 0)
    requires SetOf(fs) <= pool0 && pool <= pool0 - SetOf(fs)
    ensures PagesOk(vm, pool, next + pages * PAGE)
  {
    var next' := next + pages * PAGE;
    assert next' % PAGE == 0 && next' / PAGE == next / PAGE + pages;
    forall p: nat ensures ArenaPage(vm, pool, next', p) {
      assert ArenaPage(vm0, pool0, next, p) && PageOk(vm0, vm, next / PAGE, fs, 0, p);
      if next / PAGE <= p < next' / PAGE { assert fs[p - next / PAGE] in SetOf(fs); }
    }
  }

  lemma SmallerPool(vm: Frames, pool0: set<nat>, pool: set<nat>, next: nat)
    requires PagesOk(vm, pool0, next) && pool <= pool0
    ensures PagesOk(vm, pool, next) && forall p: nat | next / PAGE <= p :: p !in vm
  {
    forall p: nat ensures ArenaPage(vm, pool, next, p) { assert ArenaPage(vm, pool0, next, p); }
    forall p: nat | next / PAGE <= p ensures p !in vm { assert ArenaPage(vm, pool0, next, p); }
  }

  /** Rewriting the header of block `i` twice keeps every other live block. */
  lemma EditKept(bs: seq<Block>, bs': seq<Block>, m: Mem, h1: Header, h2: Header, next: nat, i: nat)
    requires Tiles(bs, next) && i < |bs| && bs[i].free && |bs'| == |bs|
    requires forall j | 0 <= j < |bs| && j != i :: bs'[j] == bs[j]
    ensures AllKept(bs, bs', m, PutHeader(PutHeader(m, bs[i].addr, h1), bs[i].addr, h2))
  {
    var m1 := PutHeader(m, bs[i].addr, h1);
    var m2 := PutHeader(m1, bs[i].addr, h2);
    forall j: nat | j < |bs| ensures LiveKept(bs, bs', m, m2, j) {
      if !bs[j].free {
        HeaderIntact(m, bs, next, i, h1, j);
        HeaderIntact(m1, bs, next, i, h2, j);
        IntactTrans(m, m1, m2, bs[j]);
        assert bs'[j] == bs[j];
      }
    }
  }

  lemma SplitKept(bs: seq<Block>, bs1: seq<Block>, m: Mem, h1: Header, next: nat, i: nat, req: nat)
    requires Tiles(bs, next) && i < |bs| == |bs1| && bs[i].free && bs1 == bs[i := bs1[i]] && Tiles(bs1, next)
    requires CanSplit(bs1, i, req)
    ensures AllKept(bs, SplitAt(bs1, i, req), m, SplitMem(PutHeader(m, bs[i].addr, h1), bs1, i, req))
  {
    var m1 := PutHeader(m, bs[i].addr, h1);
    var bs', m' := SplitAt(bs1, i, req), SplitMem(m1, bs1, i, req);
    forall j: nat | j < |bs| ensures LiveKept(bs, bs', m, m', j) {
      if !bs[j].free {
        HeaderIntact(m, bs, next, i, h1, j);
        SplitIntact(m1, bs1, next, i, req, j);
        IntactTrans(m, m1, m', bs[j]);
        assert bs'[if j < i then j else j + 1] == bs[j];
      }
    }
  }

  /** What a walk sees at block `i`. */
  lemma HeaderFacts(m: Mem, bs: seq<Block>, head: nat, next: nat, i: nat)
    requires Linked(m, bs, head, next) && i < |bs|
    ensures HeaderAt(m, bs[i].addr) == Expected(bs, i) && BASE <= bs[i].addr < next && End(bs[i]) <= next
    ensures BlockOk(bs[i])
    ensures i > 0 ==> BASE <= bs[i - 1].addr < next
    ensures i + 1 < |bs| ==> BASE <= bs[i + 1].addr < next && HeaderAt(m, bs[i + 1].addr).prev == bs[i].addr
  {
    assert HeaderOk(m, bs, i) && TileOk(bs, next, i);
    BeforeNext(bs, next, i);
    if i > 0 { assert TileOk(bs, next, i - 1); }
    if i + 1 < |bs| {
      assert HeaderOk(m, bs, i + 1) && TileOk(bs, next, i + 1);
      BeforeNext(bs, next, i + 1);
    }
  }
}
