/** The physical page manager: a bitmap of 4 KiB pages (bit set = used) built
    from the UEFI memory map, with a count of the clear bits. */
module Pmm {
  import opened Basics

  const PAGE_SIZE: nat := 4096
  const MAX_PAGES: nat := 0x100_0000
  const MAX_PHYS: nat := MAX_PAGES * PAGE_SIZE
  const BITMAP_BYTES: nat := (MAX_PAGES + 7) / 8
  const UINT64_MAX: nat := 0xFFFF_FFFF_FFFF_FFFF
  const CONVENTIONAL: nat := 7
  const LOW_RESERVED: nat := 0x20_0000

  type u64 = x: int | 0 <= x < 0x1_0000_0000_0000_0000

  // ---- Boot contract ----

  datatype Descriptor = Descriptor(kind: nat, start: u64, pages: u64)

  /** `end` as the boot loader and the allocator see it; a range with
      `end <= start` is empty. */
  datatype Range = Range(start: u64, end: u64)

  datatype BootInfo = BootInfo(
    descriptors: seq<Descriptor>,
    self: Range,
    kernel: Range,
    mapBase: u64, mapSize: u64,
    fbBase: u64, fbSize: u64)

  function Wrap64(x: nat): u64 { x % 0x1_0000_0000_0000_0000 }

  function ReservedRanges(bi: BootInfo): seq<Range> {
    [ Range(0, LOW_RESERVED), bi.kernel, bi.self,
      Range(bi.mapBase, Wrap64(bi.mapBase + bi.mapSize)) ] +
    (if bi.fbBase != 0 && bi.fbSize != 0 then [Range(bi.fbBase, Wrap64(bi.fbBase + bi.fbSize))] else [])
  }

  /** Some byte of page `p` lies in `r`. */
  predicate Touches(p: nat, r: Range) {
    r.start < r.end && r.start < (p + 1) * PAGE_SIZE && p * PAGE_SIZE < r.end
  }

  /** Every byte of page `p` lies in the (unbounded) extent of `d`. */
  predicate Inside(p: nat, d: Descriptor) {
    d.start <= p * PAGE_SIZE && (p + 1) * PAGE_SIZE <= d.start + d.pages * PAGE_SIZE
  }

  /** Every byte of page `p` lies in `[start, end)`. */
  predicate Covers(start: nat, end: nat, p: nat) {
    start <= p * PAGE_SIZE && (p + 1) * PAGE_SIZE <= end
  }

  predicate Released(p: nat, ds: seq<Descriptor>) {
    exists i :: 0 <= i < |ds| && ds[i].kind == CONVENTIONAL && Inside(p, ds[i])
  }

  predicate Reserved(p: nat, rs: seq<Range>) {
    exists i :: 0 <= i < |rs| && Touches(p, rs[i])
  }

  /** The declarative meaning of the memory map: the pages that may be handed out. */
  predicate Allocatable(p: nat, bi: BootInfo) {
    p < MAX_PAGES && Released(p, bi.descriptors) && !Reserved(p, ReservedRanges(bi))
  }

  /** Byte `x` belongs to nothing that the boot loader or the kernel needs. */
  predicate Unreserved(bi: BootInfo, x: nat) {
    && x >= 0x20_0000 && !(bi.kernel.start <= x < bi.kernel.end) && !(bi.self.start <= x < bi.self.end)
    && !(bi.mapBase <= x < Wrap64(bi.mapBase + bi.mapSize))
    && (bi.fbBase != 0 && bi.fbSize != 0 ==> !(bi.fbBase <= x < Wrap64(bi.fbBase + bi.fbSize)))
  }

  predicate ByteOf(p: nat, x: nat) { p * PAGE_SIZE <= x < (p + 1) * PAGE_SIZE }

  /** A page can be handed out exactly if one range of conventional memory holds all its bytes and none of them
      is reserved. */
  lemma AllocatableBytes(bi: BootInfo, p: nat)
    ensures Allocatable(p, bi) <==>
      && p < MAX_PAGES
      && (exists i :: 0 <= i < |bi.descriptors| && HoldsPage(bi.descriptors[i], p))
      && (forall x: nat | ByteOf(p, x) :: Unreserved(bi, x))
  {
    forall i | 0 <= i < |bi.descriptors|
      ensures HoldsPage(bi.descriptors[i], p) <==>
        bi.descriptors[i].kind == CONVENTIONAL && Inside(p, bi.descriptors[i])
    {
      HoldsPageIs(bi.descriptors[i], p);
    }
    ReservedBytes(bi, p);
  }

  ghost predicate HoldsPage(d: Descriptor, p: nat) {
    d.kind == 7 && forall x: nat | ByteOf(p, x) :: d.start <= x < d.start + d.pages * PAGE_SIZE
  }

  lemma HoldsPageIs(d: Descriptor, p: nat)
    ensures HoldsPage(d, p) <==> d.kind == CONVENTIONAL && Inside(p, d)
  {
    assert ByteOf(p, p * PAGE_SIZE) && ByteOf(p, p * PAGE_SIZE + PAGE_SIZE - 1);
  }

  lemma ReservedBytes(bi: BootInfo, p: nat)
    ensures !Reserved(p, ReservedRanges(bi)) <==> forall x: nat | ByteOf(p, x) :: Unreserved(bi, x)
  {
    var rs := ReservedRanges(bi);
    if Reserved(p, rs) {
      var i :| 0 <= i < |rs| && Touches(p, rs[i]);
      var x := if rs[i].start > p * PAGE_SIZE then rs[i].start else p * PAGE_SIZE;
      assert ByteOf(p, x) && !Unreserved(bi, x);
    } else {
      forall x: nat | ByteOf(p, x) ensures Unreserved(bi, x) {
        assert !Touches(p, rs[0]) && !Touches(p, rs[1]) && !Touches(p, rs[2]) && !Touches(p, rs[3]);
        assert |rs| > 4 ==> !Touches(p, rs[4]);
      }
    }
  }

  // ---- Address arithmetic ----

  function Min(a: nat, b: nat): nat { if a <= b then a else b }

  function AlignDown(x: u64): u64 { x - x % PAGE_SIZE }

  function AlignUp(x: u64): u64 {
    if x > UINT64_MAX - (PAGE_SIZE - 1) then UINT64_MAX - UINT64_MAX % PAGE_SIZE
    else AlignDown(x + PAGE_SIZE - 1)
  }

  /** `number_of_pages * 4096`, saturated. */
  function Bytes(d: Descriptor): u64 {
    if d.pages > UINT64_MAX / PAGE_SIZE then UINT64_MAX else d.pages * PAGE_SIZE
  }

  /** The end of a descriptor with the overflow test of the source. */
  function EndOf(d: Descriptor, onWrap: u64): u64 {
    var end := Wrap64(d.start + Bytes(d));
    if end < d.start then onWrap else end
  }

  /** What one descriptor contributes to the highest tracked address. */
  function MaxOf(d: Descriptor): u64 {
    if d.pages == 0 || d.start >= MAX_PHYS then 0
    else if EndOf(d, MAX_PHYS) > MAX_PHYS then MAX_PHYS
    else EndOf(d, MAX_PHYS)
  }

  // ---- Bits ----

  function Mask(k: nat): bv8
    requires k < 8
  {
    if k == 0 then 1 else if k == 1 then 2 else if k == 2 then 4 else if k == 3 then 8
    else if k == 4 then 16 else if k == 5 then 32 else if k == 6 then 64 else 128
  }

  predicate Bit(b: bv8, k: nat)
    requires k < 8
  {
    b & Mask(k) != 0
  }

  lemma BitSet(b: bv8, k: nat, j: nat)
    requires k < 8 && j < 8
    ensures Bit(b | Mask(k), j) <==> j == k || Bit(b, j)
  {}

  lemma BitClear(b: bv8, k: nat, j: nat)
    requires k < 8 && j < 8
    ensures Bit(b & !Mask(k), j) <==> j != k && Bit(b, j)
  {}

  // ---- Runs ----

  /** What a client may ask for: a page, or to give one back. */
  datatype Request = Alloc | Release(page: nat)

  /** What happened: a page was granted to, or taken back from, the clients. */
  datatype Event = Granted(page: nat) | Returned(page: nat)

  /** The pages in the hands of clients after a history. */
  function OwnedAfter(log: seq<Event>): set<nat> {
    if log == [] then {}
    else OwnedNext(OwnedAfter(log[..|log| - 1]), log[|log| - 1])
  }

  function OwnedNext(owned: set<nat>, e: Event): set<nat> {
    if e.Granted? then owned + {e.page} else owned - {e.page}
  }

  /** No grant names a page outside `pool` or one that is still owned. */
  predicate FairHistory(log: seq<Event>, pool: set<nat>) {
    log == [] ||
    var before, e := log[..|log| - 1], log[|log| - 1];
    FairHistory(before, pool) && (e.Granted? ==> e.page in pool && e.page !in OwnedAfter(before))
  }

  lemma FairExtends(log: seq<Event>, e: Event, pool: set<nat>)
    requires FairHistory(log, pool)
    requires e.Granted? ==> e.page in pool && e.page !in OwnedAfter(log)
    ensures FairHistory(log + [e], pool)
    ensures OwnedAfter(log + [e]) == OwnedNext(OwnedAfter(log), e)
  {
    assert (log + [e])[..|log|] == log;
  }

  predicate IsLowest(p: nat, s: set<nat>) { p in s && forall q | q in s :: p <= q }

  predicate Tracked(p: nat) { p < MAX_PAGES }

  ghost function AllPages(): (s: set<nat>)
    ensures forall p: nat :: p in s <==> p < MAX_PAGES
  {
    set p: nat | p < MAX_PAGES && Tracked(p)
  }

  /** The pages whose bit is clear. */
  ghost function Clear(used: set<nat>): set<nat> { AllPages() - used }

  lemma ClearOneLess(used: set<nat>, p: nat)
    requires p < MAX_PAGES && p !in used
    ensures |Clear(used + {p})| + 1 == |Clear(used)|
  {
    assert Clear(used + {p}) == Clear(used) - {p};
  }

  lemma ClearOneMore(used: set<nat>, p: nat)
    requires p < MAX_PAGES && p in used
    ensures |Clear(used - {p})| == |Clear(used)| + 1
  {
    assert Clear(used - {p}) == Clear(used) + {p};
  }

  lemma PageAddress(page: nat)
    ensures page * PAGE_SIZE % PAGE_SIZE == 0 && page * PAGE_SIZE / PAGE_SIZE == page
  {}

  class PageManager {
    const bitmap: array<bv8>
    var total: nat
    var freePages: nat
    var maxPhys: u64
    var ready: bool
    ghost var used: set<nat>   // the pages whose bit is set
    ghost var free: set<nat>   // the pages that may be handed out

    constructor ()
      ensures fresh(bitmap) && Valid() && !ready
    {
      bitmap := new bv8[BITMAP_BYTES](_ => 0xFF);
      total, freePages, maxPhys, ready := 0, 0, 0, false;
      free, used := {}, AllPages();
    }

    predicate BitOf(p: nat)
      reads bitmap
      requires bitmap.Length == BITMAP_BYTES && p < MAX_PAGES
    {
      Bit(bitmap[p / 8], p % 8)
    }

    /** The ghost set `used` is what the bits say. */
    ghost predicate Sized()
      reads this`total, this`used, bitmap
    {
      && bitmap.Length == BITMAP_BYTES && total <= MAX_PAGES
      && (forall p {:trigger BitOf(p)} | 0 <= p < MAX_PAGES :: BitOf(p) <==> p in used)
    }

    /** The free pages are exactly those below the limit whose bit is clear. */
    ghost predicate Represents()
      reads this`total, this`free, this`used
    {
      forall p: nat :: p in free <==> p < total && p !in used
    }

    /** The state of an initialised manager: the counter is exact. */
    ghost predicate Valid()
      reads this, bitmap
    {
      && Sized() && Represents()
      && (ready ==> freePages == |free|)
    }

    method BitmapTest(p: nat) returns (b: bool)
      requires Sized() && p < MAX_PAGES
      ensures b <==> p in used
    {
      b := BitOf(p);
    }

    method BitmapSet(p: nat)
      requires Sized() && p < MAX_PAGES
      modifies bitmap, this`used
      ensures Sized() && used == old(used) + {p}
    {
      forall q: nat | q < MAX_PAGES { BitSet(bitmap[p / 8], p % 8, q % 8); }
      assert forall q: nat | q < MAX_PAGES :: BitOf(q) <==> q in used;
      bitmap[p / 8] := bitmap[p / 8] | Mask(p % 8);
      used := used + {p};
    }

    method BitmapClear(p: nat)
      requires Sized() && p < MAX_PAGES
      modifies bitmap, this`used
      ensures Sized() && used == old(used) - {p}
    {
      forall q: nat | q < MAX_PAGES { BitClear(bitmap[p / 8], p % 8, q % 8); }
      assert forall q: nat | q < MAX_PAGES :: BitOf(q) <==> q in used;
      bitmap[p / 8] := bitmap[p / 8] & !Mask(p % 8);
      used := used - {p};
    }

    /** Marks used every page below the tracked limit that the range touches. */
    method ReserveRange(start0: u64, end0: u64)
      requires Sized() && maxPhys <= MAX_PHYS && freePages == |Clear(used)|
      modifies this`freePages, this`used, bitmap
      ensures Sized() && freePages == |Clear(used)|
      ensures forall q: nat | q < MAX_PAGES ::
        q in used <==> q in old(used) || (q * PAGE_SIZE < maxPhys && Touches(q, Range(start0, end0)))
    {
      if end0 <= start0 || maxPhys == 0 { return; }
      var start, end := AlignDown(start0), AlignUp(end0);
      if start >= maxPhys { return; }
      if end > maxPhys { end := maxPhys; }
      var addr := start;
      ghost var lo, hi := start / PAGE_SIZE, start / PAGE_SIZE;
      while addr < end
        invariant addr == hi * PAGE_SIZE && lo <= hi && (hi == lo || addr < end + PAGE_SIZE)
        invariant Sized() && forall q: nat | q < MAX_PAGES :: q in used <==> q in old(used) || lo <= q < hi
        invariant freePages == |Clear(used)|
        decreases end - addr
      {
        var page := addr / PAGE_SIZE;
        assert page == hi;
        if page >= MAX_PAGES { break; }
        var isUsed := BitmapTest(page);
        if !isUsed {
          ClearOneLess(used, page);
          BitmapSet(page);
          if freePages != 0 { freePages := freePages - 1; }
        }
        addr, hi := addr + PAGE_SIZE, hi + 1;
      }
      forall q: nat | q < MAX_PAGES
        ensures lo <= q < hi <==> q * PAGE_SIZE < maxPhys && Touches(q, Range(start0, end0))
      {
        ReserveWindow(q, start0, end0, end, lo, hi, maxPhys);
      }
    }

    /** Clears every page below the tracked limit that the range wholly contains. */
    method ReleaseRange(start0: u64, end0: u64)
      requires Sized() && maxPhys <= MAX_PHYS && freePages == |Clear(used)|
      modifies this`freePages, this`used, bitmap
      ensures Sized() && freePages == |Clear(used)|
      ensures forall q: nat | q < MAX_PAGES ::
        q in used <==> (q in old(used) && !(q * PAGE_SIZE < maxPhys && Covers(start0, end0, q)))
    {
      if end0 <= start0 || maxPhys == 0 { return; }
      var start, end := AlignUp(start0), AlignDown(end0);
      if start >= maxPhys { return; }
      if end > maxPhys { end := maxPhys; }
      var addr := start;
      ghost var lo, hi := start / PAGE_SIZE, start / PAGE_SIZE;
      while addr < end
        invariant addr == hi * PAGE_SIZE && lo <= hi && (hi == lo || addr < end + PAGE_SIZE)
        invariant Sized() && forall q: nat | q < MAX_PAGES :: q in used <==> q in old(used) && !(lo <= q < hi)
        invariant freePages == |Clear(used)|
        decreases end - addr
      {
        var page := addr / PAGE_SIZE;
        assert page == hi;
        if page >= MAX_PAGES { break; }
        var isUsed := BitmapTest(page);
        if isUsed {
          ClearOneMore(used, page);
          BitmapClear(page);
          freePages := freePages + 1;
        }
        addr, hi := addr + PAGE_SIZE, hi + 1;
      }
      forall q: nat | q < MAX_PAGES
        ensures lo <= q < hi <==> q * PAGE_SIZE < maxPhys && Covers(start0, end0, q)
      {
        ReleaseWindow(q, start0, end0, end, lo, hi, maxPhys);
      }
    }

    /** First pass: the highest address any descriptor describes, capped at 64 GiB. */
    method ScanMax(ds: seq<Descriptor>)
      requires maxPhys == 0
      modifies this`maxPhys
      ensures maxPhys <= MAX_PHYS
      ensures forall i | 0 <= i < |ds| :: MaxOf(ds[i]) <= maxPhys
      ensures maxPhys == 0 || exists i | 0 <= i < |ds| :: maxPhys == MaxOf(ds[i])
    {
      for i := 0 to |ds|
        invariant maxPhys <= MAX_PHYS
        invariant forall j | 0 <= j < i :: MaxOf(ds[j]) <= maxPhys
        invariant maxPhys == 0 || exists j | 0 <= j < i :: maxPhys == MaxOf(ds[j])
      {
        if MaxOf(ds[i]) > maxPhys { maxPhys := MaxOf(ds[i]); }
      }
    }

    /** Second pass: only conventional memory becomes allocatable. */
    method ReleaseAll(ds: seq<Descriptor>)
      requires Sized() && maxPhys <= MAX_PHYS && freePages == |Clear(used)|
      requires forall i | 0 <= i < |ds| :: MaxOf(ds[i]) <= maxPhys
      modifies this`freePages, this`used, bitmap
      ensures Sized() && freePages == |Clear(used)|
      ensures forall q: nat | q < MAX_PAGES :: q in used <==> q in old(used) && !Released(q, ds)
    {
      for i := 0 to |ds|
        invariant Sized() && freePages == |Clear(used)|
        invariant forall q: nat | q < MAX_PAGES :: q in used <==> q in old(used) && !Released(q, ds[..i])
      {
        forall q: nat | q < MAX_PAGES
          ensures Released(q, ds[..i + 1]) <==> Released(q, ds[..i]) || Released(q, [ds[i]])
        {
          ReleasedSplit(q, ds, i);
        }
        if ds[i].kind == CONVENTIONAL {
          ReleaseRange(ds[i].start, EndOf(ds[i], UINT64_MAX));
          forall q: nat | q < MAX_PAGES
            ensures q * PAGE_SIZE < maxPhys && Covers(ds[i].start, EndOf(ds[i], UINT64_MAX), q) <==>
              Released(q, [ds[i]])
          {
            ReleaseExact(q, ds[i], maxPhys);
          }
        }
      }
      assert ds[..|ds|] == ds;
    }

    /** Third pass: low memory, the kernel image, the loader's data and the framebuffer. */
    method ReserveAll(bi: BootInfo)
      requires Sized() && maxPhys <= MAX_PHYS && freePages == |Clear(used)|
      modifies this`freePages, this`used, bitmap
      ensures Sized() && freePages == |Clear(used)|
      ensures forall q: nat | q < MAX_PAGES ::
        q in used <==> q in old(used) || (q * PAGE_SIZE < maxPhys && Reserved(q, ReservedRanges(bi)))
    {
      ReserveRange(0, LOW_RESERVED);
      if bi.kernel.end > bi.kernel.start { ReserveRange(bi.kernel.start, bi.kernel.end); }
      ReserveRange(bi.self.start, bi.self.end);
      ReserveRange(bi.mapBase, Wrap64(bi.mapBase + bi.mapSize));
      if bi.fbBase != 0 && bi.fbSize != 0 { ReserveRange(bi.fbBase, Wrap64(bi.fbBase + bi.fbSize)); }
      forall q: nat | q < MAX_PAGES { ReservedCases(q, bi); }
    }

    /** Makes the counter exact for the represented range. */
    method Recount()
      requires Sized()
      modifies this`freePages, this`free
      ensures Represents() && freePages == |free|
    {
      freePages, free := 0, {};
      for page := 0 to total
        invariant forall p: nat :: p in free <==> p < page && p !in used
        invariant freePages == |free|
      {
        var isUsed := BitmapTest(page);
        if !isUsed { freePages, free := freePages + 1, free + {page}; }
      }
    }

    method FillUsed()
      requires Sized()
      modifies bitmap, this`used
      ensures Sized() && forall p: nat | p < MAX_PAGES :: p in used
    {
      for i := 0 to BITMAP_BYTES
        invariant forall j | 0 <= j < i :: bitmap[j] == 0xFF
      {
        bitmap[i] := 0xFF;
      }
      used := AllPages();
    }

    /** Builds the bitmap: afterwards a page is free exactly when the memory
        map makes it allocatable, and the counter is exact. */
    method Init(boot: Option<BootInfo>)
      requires Sized()
      modifies this, bitmap
      ensures Valid()
      ensures ready <==> boot.Some? && boot.value.mapBase != 0 && boot.value.mapSize != 0
      ensures !ready ==> free == {}
      ensures ready ==> forall p: nat :: p in free <==> Allocatable(p, boot.value)
      ensures 0 !in free
    {
      ready, total, freePages, maxPhys, free := false, 0, 0, 0, {};
      FillUsed();
      assert Clear(used) == {};
      if boot.None? || boot.value.mapBase == 0 || boot.value.mapSize == 0 { return; }
      var bi := boot.value;
      ScanMax(bi.descriptors);
      total := Min(maxPhys / PAGE_SIZE, MAX_PAGES);
      ReleaseAll(bi.descriptors);
      ReserveAll(bi);
      Recount();
      ready := true;
      forall p: nat ensures p in free <==> Allocatable(p, bi) {
        InitExact(bi, p, maxPhys, total);
        assert p < total ==> p * PAGE_SIZE < maxPhys;
      }
      ReservedCases(0, bi);
    }

    /** Hands out a page whose bit is clear. */
    method TakeBit(page: nat)
      requires Valid() && ready && page in free
      modifies this`freePages, this`free, this`used, bitmap
      ensures Valid() && free == old(free) - {page}
    {
      BitmapSet(page);
      free := free - {page};
      if freePages != 0 { freePages := freePages - 1; }
    }

    /** First clear bit below the limit, or 0 when there is none; 0 is also the address of page 0. */
    method AllocPage() returns (phys: nat)
      requires Valid() && ready
      modifies this`freePages, this`free, this`used, bitmap
      ensures Valid() && phys % PAGE_SIZE == 0 && free == old(free) - {phys / PAGE_SIZE}
      ensures if old(free) == {} then phys == 0 else IsLowest(phys / PAGE_SIZE, old(free))
    {
      for page := 0 to total
        invariant Valid() && free == old(free)
        invariant forall q: nat | q < page :: q in used
      {
        var isUsed := BitmapTest(page);
        if !isUsed {
          PageAddress(page);
          TakeBit(page);
          return page * PAGE_SIZE;
        }
      }
      return 0;
    }

    /** Returns a page. Unaligned, untracked and already free addresses are ignored. */
    method FreePage(phys: nat)
      requires Valid() && ready
      modifies this`freePages, this`free, this`used, bitmap
      ensures Valid()
      ensures free == old(free) +
        (if phys % PAGE_SIZE == 0 && phys / PAGE_SIZE < total then {phys / PAGE_SIZE} else {})
    {
      if phys % PAGE_SIZE != 0 { return; }
      var page := phys / PAGE_SIZE;
      if page >= total || page >= MAX_PAGES { return; }
      var isUsed := BitmapTest(page);
      if isUsed {
        BitmapClear(page);
        free := free + {page};
        freePages := freePages + 1;
      }
    }
  }

  /** Giving back address 0 makes page 0 free, and the next allocation hands it out as if there were no page. */
  method FreeZero(m: PageManager) returns (phys: nat)
    requires m.Valid() && m.ready && m.total > 0
    modifies m`freePages, m`free, m`used, m.bitmap
    ensures m.Valid() && phys == 0 && m.free == old(m.free) - {0}
  {
    m.FreePage(0);
    phys := m.AllocPage();
  }

  /** One request of a run; clients give back only pages they own. */
  method Serve(m: PageManager, request: Request, owned: set<nat>) returns (e: Option<Event>)
    requires m.Valid() && m.ready && m.free !! owned && 0 !in m.free
    requires forall p | p in owned :: 0 < p < m.total
    modifies m`freePages, m`free, m`used, m.bitmap
    ensures m.Valid()
    ensures e.None? ==> m.free == old(m.free)
    ensures e.Some? && e.value.Granted? ==>
      e.value.page in old(m.free) && m.free == old(m.free) - {e.value.page}
    ensures e.Some? && e.value.Returned? ==>
      e.value.page in owned && m.free == old(m.free) + {e.value.page}
  {
    e := None;
    if request.Alloc? {
      var phys := m.AllocPage();
      if phys != 0 { e := Some(Granted(phys / PAGE_SIZE)); }
    } else if request.page in owned {
      PageAddress(request.page);
      m.FreePage(request.page * PAGE_SIZE);
      e := Some(Returned(request.page));
    }
  }

  /** Any run of allocations and of releases of owned pages: the counter stays
      exact, free and owned pages partition the initial pool, and no page is
      handed out twice or from outside the pool. */
  method RunRequests(m: PageManager, requests: seq<Request>) returns (log: seq<Event>)
    requires m.Valid() && m.ready && 0 !in m.free
    modifies m`freePages, m`free, m`used, m.bitmap
    ensures m.Valid() && m.freePages == |m.free|
    ensures FairHistory(log, old(m.free))
    ensures m.free !! OwnedAfter(log) && m.free + OwnedAfter(log) == old(m.free)
  {
    log := [];
    ghost var pool := m.free;
    var owned: set<nat> := {};
    assert forall p | p in pool :: 0 < p < m.total;
    for i := 0 to |requests|
      invariant m.Valid()
      invariant FairHistory(log, pool) && owned == OwnedAfter(log)
      invariant m.free == pool - owned && owned <= pool
    {
      ghost var before := m.free;
      var e := Serve(m, requests[i], owned);
      if e.Some? {
        PoolStep(pool, owned, before, m.free, e.value);
        FairExtends(log, e.value, pool);
        log, owned := log + [e.value], OwnedNext(owned, e.value);
      }
    }
  }

  // ---- Facts about the memory map ----

  /** The pages the reserving loop visits: it starts at page `lo` and stops at page `hi`. */
  lemma ReserveWindow(q: nat, start0: u64, end0: u64, end: nat, lo: nat, hi: nat, limit: nat)
    requires start0 < end0 && limit <= MAX_PHYS && AlignDown(start0) < limit && q < MAX_PAGES
    requires end == Min(AlignUp(end0), limit) && lo * PAGE_SIZE == AlignDown(start0)
    requires hi * PAGE_SIZE >= end || hi >= MAX_PAGES
    requires lo <= hi && (hi == lo || hi * PAGE_SIZE < end + PAGE_SIZE)
    ensures lo <= q < hi <==> q * PAGE_SIZE < limit && Touches(q, Range(start0, end0))
  {}

  lemma ReleaseWindow(q: nat, start0: u64, end0: u64, end: nat, lo: nat, hi: nat, limit: nat)
    requires start0 < end0 && limit <= MAX_PHYS && AlignUp(start0) < limit && q < MAX_PAGES
    requires end == Min(AlignDown(end0), limit) && lo * PAGE_SIZE == AlignUp(start0)
    requires hi * PAGE_SIZE >= end || hi >= MAX_PAGES
    requires lo <= hi && (hi == lo || hi * PAGE_SIZE < end + PAGE_SIZE)
    ensures lo <= q < hi <==> q * PAGE_SIZE < limit && Covers(start0, end0, q)
  {}

  lemma PoolStep(pool: set<nat>, owned: set<nat>, free: set<nat>, free': set<nat>, e: Event)
    requires free == pool - owned && owned <= pool
    requires e.Granted? ==> e.page in free && free' == free - {e.page}
    requires e.Returned? ==> e.page in owned && free' == free + {e.page}
    ensures free' == pool - OwnedNext(owned, e) && OwnedNext(owned, e) <= pool
    ensures e.Granted? ==> e.page in pool && e.page !in owned
  {}

  lemma ReleasedSplit(q: nat, ds: seq<Descriptor>, i: nat)
    requires i < |ds|
    ensures Released(q, ds[..i + 1]) <==> Released(q, ds[..i]) || Released(q, [ds[i]])
  {
    var a, b, c := ds[..i + 1], ds[..i], [ds[i]];
    if Released(q, a) {
      var k :| 0 <= k < |a| && a[k].kind == CONVENTIONAL && Inside(q, a[k]);
      if k < i { assert b[k] == a[k]; } else { assert c[0] == a[k]; }
    }
    if Released(q, b) {
      var k :| 0 <= k < |b| && b[k].kind == CONVENTIONAL && Inside(q, b[k]);
      assert a[k] == b[k];
    }
    if Released(q, c) { assert a[i] == c[0]; }
  }

  /** Clipping to the tracked limit and saturating the end lose no page below 64 GiB. */
  lemma ReleaseExact(q: nat, d: Descriptor, limit: nat)
    requires d.kind == CONVENTIONAL && MaxOf(d) <= limit && q < MAX_PAGES
    ensures q * PAGE_SIZE < limit && Covers(d.start, EndOf(d, UINT64_MAX), q) <==> Released(q, [d])
  {
    assert Inside(q, d) <==> Covers(d.start, EndOf(d, UINT64_MAX), q);
    assert [d][0] == d;
  }

  lemma ReservedCases(p: nat, bi: BootInfo)
    ensures Reserved(p, ReservedRanges(bi)) <==>
      (|| Touches(p, Range(0, LOW_RESERVED)) || Touches(p, bi.kernel) || Touches(p, bi.self)
       || Touches(p, Range(bi.mapBase, Wrap64(bi.mapBase + bi.mapSize)))
       || (bi.fbBase != 0 && bi.fbSize != 0 && Touches(p, Range(bi.fbBase, Wrap64(bi.fbBase + bi.fbSize)))))
  {
    var rs := ReservedRanges(bi);
    assert forall i | 0 <= i < |rs| :: Touches(p, rs[i]) ==> Reserved(p, rs);
    assert rs[0] == Range(0, LOW_RESERVED) && rs[1] == bi.kernel && rs[2] == bi.self;
    assert rs[3] == Range(bi.mapBase, Wrap64(bi.mapBase + bi.mapSize));
    assert bi.fbBase != 0 && bi.fbSize != 0 ==> rs[4] == Range(bi.fbBase, Wrap64(bi.fbBase + bi.fbSize));
  }

  /** An allocatable page lies below the limit that the first pass computes. */
  lemma InitExact(bi: BootInfo, p: nat, limit: nat, total: nat)
    requires forall i | 0 <= i < |bi.descriptors| :: MaxOf(bi.descriptors[i]) <= limit
    requires limit <= MAX_PHYS && total == limit / PAGE_SIZE
    ensures p < MAX_PAGES && Released(p, bi.descriptors) ==> p < total
  {
    if p < MAX_PAGES && Released(p, bi.descriptors) {
      var ds := bi.descriptors;
      var i :| 0 <= i < |ds| && ds[i].kind == CONVENTIONAL && Inside(p, ds[i]);
      ReleaseExact(p, ds[i], limit);
      assert (p + 1) * PAGE_SIZE <= MaxOf(ds[i]);
    }
  }
}
