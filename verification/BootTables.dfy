/** The identity map built at boot: static tables, 2 MiB leaves, and a pool of
    extra page directories for the 1 GiB slots above the first four. */
module BootTables {
  import opened Basics
  import opened Counting
  import opened Pmm
  import opened PageTables

  const BASE_GIB: nat := 4
  const EXTRA_SLOTS: nat := 512
  const PAGE_2M: nat := 0x20_0000
  const PAGE_1G: nat := 0x4000_0000
  const LOW_LIMIT: nat := 0x80_0000_0000     // 512 GiB
  const LOW_CHUNKS: nat := 0x4_0000          // 2 MiB pages below it

  /** The ranges handed to the mapper, with the 64-bit wrap-around of the source. */
  function Regions(boot: Option<BootInfo>): seq<Range> {
    [Range(0, BASE_GIB * PAGE_1G)] + MapRanges(boot) + FramebufferRange(boot)
  }

  function MapRanges(boot: Option<BootInfo>): seq<Range> {
    if boot.Some? && boot.value.mapBase != 0 then DescriptorRanges(boot.value.descriptors) else []
  }

  function FramebufferRange(boot: Option<BootInfo>): seq<Range> {
    if boot.Some? && boot.value.fbBase != 0 && boot.value.fbSize != 0
    then [Range(boot.value.fbBase, Wrap64(boot.value.fbBase + boot.value.fbSize))] else []
  }

  function DescriptorRanges(ds: seq<Descriptor>): (rs: seq<Range>)
    ensures |rs| == |ds|
  {
    seq(|ds|, i requires 0 <= i < |ds| => Range(ds[i].start, Wrap64(ds[i].start + ds[i].pages * 4096)))
  }

  /** The bytes that the boot maps: the first 4 GiB, the memory that the map describes, and the framebuffer. */
  lemma RegionBytes(boot: Option<BootInfo>, x: nat)
    ensures (exists r :: r in Regions(boot) && r.start <= x < r.end) <==>
      || x < 0x1_0000_0000
      || (boot.Some? && boot.value.mapBase != 0 && exists d :: d in boot.value.descriptors && InExtent(d, x))
      || (boot.Some? && boot.value.fbBase != 0 &&
          boot.value.fbBase <= x < Wrap64(boot.value.fbBase + boot.value.fbSize))
  {
    var rs := Regions(boot);
    assert Range(0, BASE_GIB * PAGE_1G) in rs;
    if boot.Some? && boot.value.mapBase != 0 { DescriptorBytes(boot.value.descriptors, x); }
  }

  predicate InExtent(d: Descriptor, x: nat) { d.start <= x < Wrap64(d.start + d.pages * 4096) }

  lemma DescriptorBytes(ds: seq<Descriptor>, x: nat)
    ensures (exists r :: r in DescriptorRanges(ds) && r.start <= x < r.end) <==> exists d :: d in ds && InExtent(d, x)
  {
    var rs := DescriptorRanges(ds);
    if d :| d in ds && InExtent(d, x) {
      var i :| 0 <= i < |ds| && ds[i] == d;
      assert rs[i] in rs;
    } else if r :| r in rs && r.start <= x < r.end {
      var i :| 0 <= i < |rs| && rs[i] == r;
      assert ds[i] in ds && InExtent(ds[i], x);
    }
  }

  /** Every non-empty range lies in the first 512 GiB. */
  predicate AllLow(rs: seq<Range>) {
    forall r | r in rs && r.start < r.end :: r.end <= LOW_LIMIT
  }

  /** The 2 MiB page `n`, mapped to itself. */
  function HugeEntry(n: nat): Pte { Pte(n * 512, true, true, ATTR_WRITABLE) }

  function Slot(n: nat): Index { n / 512 % 512 }
  function Cell(n: nat): Index { n % 512 }

  /** The page below 512 GiB whose entry 2 MiB page `n` is written to: there is only one level-3 table. */
  function Folded(n: nat): nat { n % LOW_CHUNKS }

  lemma FoldedAt(n: nat)
    ensures Slot(n) * 512 + Cell(n) == Folded(n) && Slot(Folded(n)) == Slot(n)
  {
    var q, k := n / LOW_CHUNKS, n % LOW_CHUNKS;
    assert n == q * LOW_CHUNKS + k && n / 512 == q * 512 + k / 512;
    assert k / 512 < 512;
  }

  ghost predicate Identity(mem: Memory, root: Frame, x: nat) {
    Translate(mem, root, PageOf(x)) == Some(Leaf(x / 4096, false, ATTR_WRITABLE))
  }

  // ---- The static layout ----

  function Pml4(base: Frame): Frame { base }
  function Pdpt(base: Frame): Frame { base + 1 }
  function PdBase(base: Frame, b: nat): Frame { base + 2 + b }
  function PdExtra(base: Frame, k: nat): Frame { base + 2 + BASE_GIB + k }
  const TABLES: nat := 2 + BASE_GIB + EXTRA_SLOTS

  /** Directory `f` serves slot `b`. */
  predicate Serves(base: Frame, owner: seq<Index>, f: Frame, b: Index) {
    if b < BASE_GIB then f == PdBase(base, b)
    else exists k :: 0 <= k < |owner| && owner[k] == b && f == PdExtra(base, k)
  }

  /** What holds while the map is built: one level-3 table, directories taken
      from the static pool, and in every entry the page last written to it. */
  ghost predicate Building(mem: Memory, at: Places, base: Frame, owner: seq<Index>, last: map<nat, nat>) {
    && WellFormed(mem, at) && base + TABLES <= FRAME_LIMIT
    && Root(KERNEL) in at && at[Root(KERNEL)] == Pml4(base)
    && L3(KERNEL, 0) in at && at[L3(KERNEL, 0)] == Pdpt(base)
    && (forall p | p in at :: p == Root(KERNEL) || p == L3(KERNEL, 0) || (p.Sub? && p.parent == L3(KERNEL, 0)))
    && (forall b: Index | L2(KERNEL, 0, b) in at :: Serves(base, owner, at[L2(KERNEL, 0, b)], b))
    && Owners(at, owner)
    && (forall b: Index | b < BASE_GIB && L2(KERNEL, 0, b) !in at ::
          PdBase(base, b) in mem && mem[PdBase(base, b)] == ZeroTable())
    && (forall k | k in last :: L2(KERNEL, 0, Slot(k)) in at)
    && Exact(mem, at, last)
  }

  /** Slots with an extra directory: distinct, above the base slots, and linked. */
  ghost predicate Owners(at: Places, owner: seq<Index>) {
    && (forall k | 0 <= k < |owner| :: owner[k] >= BASE_GIB && L2(KERNEL, 0, owner[k]) in at)
    && (forall j, k | 0 <= j < k < |owner| :: owner[j] != owner[k])
  }

  /** The entry of page `k`, under the last page written to it. */
  function EntryOf(last: map<nat, nat>, k: nat): Pte { if k in last then HugeEntry(last[k]) else ABSENT }

  ghost predicate Exact(mem: Memory, at: Places, last: map<nat, nat>) {
    forall b: Index, c: Index | L2(KERNEL, 0, b) in at ::
      Entry(mem, at[L2(KERNEL, 0, b)], c) == EntryOf(last, b * 512 + c)
  }

  /** Distinct slots above the base ones: the pool of extra directories cannot run out. */
  lemma OwnersBounded(owner: seq<Index>)
    requires forall k | 0 <= k < |owner| :: owner[k] >= BASE_GIB
    requires forall j, k | 0 <= j < k < |owner| :: owner[j] != owner[k]
    ensures |owner| <= ENTRIES - BASE_GIB
  {
    forall j: nat, k: nat | j < k < |owner| ensures Apart(owner, j, k) {}
    DistinctBounded(owner, BASE_GIB, ENTRIES);
  }

  lemma LinkDirectory(mem: Memory, at: Places, base: Frame, owner: seq<Index>, owner': seq<Index>, last: map<nat, nat>,
                      b: Index, f: Frame)
    requires Building(mem, at, base, owner, last) && L2(KERNEL, 0, b) !in at
    requires if b < BASE_GIB then f == PdBase(base, b) && owner' == owner
             else f == PdExtra(base, |owner|) && owner' == owner + [b] && |owner| < EXTRA_SLOTS
    ensures Building(Hang(mem, Pdpt(base), b, f, ZeroTable()), at[L2(KERNEL, 0, b) := f], base, owner', last)
  {
    var mem' := Hang(mem, Pdpt(base), b, f, ZeroTable());
    var at' := at[L2(KERNEL, 0, b) := f];
    assert LinkOk(mem, at, L3(KERNEL, 0), b);
    forall p | p in at ensures at[p] != f {
      if p != Root(KERNEL) && p != L3(KERNEL, 0) { assert p == L2(KERNEL, 0, p.i); }
    }
    HangWellFormed(mem, at, L3(KERNEL, 0), b, f, ZeroTable());
    forall c: Index | L2(KERNEL, 0, c) in at' ensures Serves(base, owner', at'[L2(KERNEL, 0, c)], c) {
      if c == b {
        if b >= BASE_GIB { assert owner'[|owner|] == b; }
      } else {
        assert Serves(base, owner, at[L2(KERNEL, 0, c)], c);
        if c >= BASE_GIB {
          var k :| 0 <= k < |owner| && owner[k] == c && at[L2(KERNEL, 0, c)] == PdExtra(base, k);
          assert owner'[k] == c;
        }
      }
    }
    LinkExact(mem, at, mem', at', last, b, f);
  }

  lemma LinkExact(mem: Memory, at: Places, mem': Memory, at': Places, last: map<nat, nat>, b: Index, f: Frame)
    requires Exact(mem, at, last) && forall k | k in last :: L2(KERNEL, 0, Slot(k)) in at
    requires L2(KERNEL, 0, b) !in at && at' == at[L2(KERNEL, 0, b) := f] && f in mem' && mem'[f] == ZeroTable()
    requires forall c: Index | L2(KERNEL, 0, c) in at ::
      var g := at[L2(KERNEL, 0, c)];
      g in mem && g in mem' && mem'[g] == mem[g]
    ensures Exact(mem', at', last)
  {
    forall x: Index, c: Index | L2(KERNEL, 0, x) in at'
      ensures Entry(mem', at'[L2(KERNEL, 0, x)], c) == EntryOf(last, x * 512 + c)
    {
      if x == b {
        assert Slot(b * 512 + c) == b;
      } else {
        assert Entry(mem, at[L2(KERNEL, 0, x)], c) == EntryOf(last, x * 512 + c);
      }
    }
  }

  /** Writing the entry of 2 MiB page `n` into the directory of its slot. */
  lemma SetHuge(mem: Memory, at: Places, base: Frame, owner: seq<Index>, last: map<nat, nat>, n: nat)
    requires Building(mem, at, base, owner, last) && L2(KERNEL, 0, Slot(n)) in at
    ensures Building(SetEntry(mem, at[L2(KERNEL, 0, Slot(n))], Cell(n), HugeEntry(n)), at, base, owner,
                     last[Folded(n) := n])
  {
    var p := L2(KERNEL, 0, Slot(n));
    var mem' := SetEntry(mem, at[p], Cell(n), HugeEntry(n));
    var home :| Inverse(at, home);
    assert home[at[p]] == p;
    forall q, j: Index | q in at && Level(q) > 1 ensures LinkOk(mem', at, q, j) {
      assert LinkOk(mem, at, q, j) && home[at[q]] == q;
      if q == p { NoLastLevel(at, base, mem, owner, last, p, j); }
    }
    forall b: Index | b < BASE_GIB && L2(KERNEL, 0, b) !in at
      ensures PdBase(base, b) in mem' && mem'[PdBase(base, b)] == ZeroTable()
    {
      assert Serves(base, owner, at[p], Slot(n));
    }
    FoldedAt(n);
    SetExact(mem, at, home, last, n);
  }

  lemma NoLastLevel(at: Places, base: Frame, mem: Memory, owner: seq<Index>, last: map<nat, nat>, p: Place, j: Index)
    requires Building(mem, at, base, owner, last) && Level(p) == 2
    ensures Sub(p, j) !in at
  {
  }

  lemma SetExact(mem: Memory, at: Places, home: map<Frame, Place>, last: map<nat, nat>, n: nat)
    requires Exact(mem, at, last) && Inverse(at, home) && L2(KERNEL, 0, Slot(n)) in at
    requires forall p | p in at :: at[p] in mem
    ensures Exact(SetEntry(mem, at[L2(KERNEL, 0, Slot(n))], Cell(n), HugeEntry(n)), at, last[Folded(n) := n])
  {
    var p := L2(KERNEL, 0, Slot(n));
    var mem' := SetEntry(mem, at[p], Cell(n), HugeEntry(n));
    assert home[at[p]] == p;
    FoldedAt(n);
    forall b: Index, c: Index | L2(KERNEL, 0, b) in at
      ensures Entry(mem', at[L2(KERNEL, 0, b)], c) == EntryOf(last[Folded(n) := n], b * 512 + c)
    {
      assert Entry(mem, at[L2(KERNEL, 0, b)], c) == EntryOf(last, b * 512 + c);
      assert home[at[L2(KERNEL, 0, b)]] == L2(KERNEL, 0, b);
      assert b * 512 + c == Folded(n) ==> b == Slot(n) && c == Cell(n);
    }
  }

  /** Zeroed tables, the first entry of the root pointing to the level-3 table. */
  function StartMemory(base: Frame): Memory {
    map[Pml4(base) := ZeroTable()[0 := Link(Pdpt(base))], Pdpt(base) := ZeroTable(),
        PdBase(base, 0) := ZeroTable(), PdBase(base, 1) := ZeroTable(),
        PdBase(base, 2) := ZeroTable(), PdBase(base, 3) := ZeroTable()]
  }

  lemma StartBuilding(base: Frame)
    requires base + TABLES <= FRAME_LIMIT
    ensures Building(StartMemory(base), map[Root(KERNEL) := Pml4(base), L3(KERNEL, 0) := Pdpt(base)], base, [],
                     map[])
  {
    var mem := StartMemory(base);
    var at: Places := map[Root(KERNEL) := Pml4(base), L3(KERNEL, 0) := Pdpt(base)];
    assert Inverse(at, map[Pml4(base) := Root(KERNEL), Pdpt(base) := L3(KERNEL, 0)]);
    assert mem[Pml4(base)] == ZeroTable()[0 := Link(Pdpt(base))];
    assert mem[Pdpt(base)] == ZeroTable();
    forall b: Index | b < BASE_GIB ensures PdBase(base, b) in mem && mem[PdBase(base, b)] == ZeroTable() {}
    forall p, i: Index | p in at && Level(p) > 1 ensures LinkOk(mem, at, p, i) {
      assert p == Root(KERNEL) || p == L3(KERNEL, 0);
    }
  }

  class Mapper {
    const base: Frame
    var mem: Memory
    var owner: seq<Index>    // the slots of the extra directories in use
    ghost var at: Places
    ghost var last: map<nat, nat>   // the page last written to each entry
    ghost var done: seq<Range>   // the ranges mapped so far

    ghost predicate Valid()
      reads this
    {
      Building(mem, at, base, owner, last)
    }

    /** Empty tables: the root points to the one level-3 table. */
    constructor (base: Frame)
      requires base + TABLES <= FRAME_LIMIT
      ensures Valid() && this.base == base && owner == [] && last == map[] && done == []
    {
      this.base, owner, last, done := base, [], map[], [];
      mem := StartMemory(base);
      at := map[Root(KERNEL) := Pml4(base), L3(KERNEL, 0) := Pdpt(base)];
      new;
      StartBuilding(base);
    }

    /** Links directory `pd` into slot `b` of the level-3 table. */
    method LinkSlot(b: Index, pd: Frame)
      requires Valid() && L2(KERNEL, 0, b) !in at
      requires if b < BASE_GIB then pd == PdBase(base, b) else pd == PdExtra(base, |owner|)
      modifies this`mem, this`at, this`owner
      ensures Valid() && L2(KERNEL, 0, b) in at && at[L2(KERNEL, 0, b)] == pd
    {
      if b >= BASE_GIB {
        OwnersBounded(owner);
        LinkDirectory(mem, at, base, owner, owner + [b], last, b, pd);
        owner := owner + [b];
        mem := mem[pd := ZeroTable()];
      } else {
        LinkDirectory(mem, at, base, owner, owner, last, b, pd);
        assert mem[pd := ZeroTable()] == mem;
      }
      mem := mem[Pdpt(base) := mem[Pdpt(base)][b := Link(pd)]];
      at := at[L2(KERNEL, 0, b) := pd];
    }

    /** The directory of the 1 GiB slot of `phys`, taken from the pool on first
        use. The pool has a directory for every slot, so there always is one. */
    method PdTableFor(phys: u64) returns (pd: Option<Frame>)
      requires Valid()
      modifies this`mem, this`at, this`owner
      ensures Valid() && L2(KERNEL, 0, Slot(phys / PAGE_2M)) in at
      ensures pd == Some(at[L2(KERNEL, 0, Slot(phys / PAGE_2M))])
    {
      var b: Index := phys / PAGE_1G % 512;
      assert b == Slot(phys / PAGE_2M);
      assert LinkOk(mem, at, L3(KERNEL, 0), b);
      if b < BASE_GIB {
        if !mem[Pdpt(base)][b].present { LinkSlot(b, PdBase(base, b)); }
        return Some(PdBase(base, b));
      }
      for i := 0 to |owner|
        invariant forall k | 0 <= k < i :: owner[k] != b
      {
        if owner[i] == b { return Some(PdExtra(base, i)); }
      }
      pd := None;
      OwnersBounded(owner);
      if |owner| >= EXTRA_SLOTS {
        assert false;
      } else {
        pd := Some(PdExtra(base, |owner|));
        assert L2(KERNEL, 0, b) !in at;
        LinkSlot(b, pd.value);
      }
    }

    /** Writes the 2 MiB page at `phys`, mapped to itself, to its entry. */
    method Map2M(phys: u64)
      requires Valid() && phys % PAGE_2M == 0
      modifies this`mem, this`at, this`owner, this`last
      ensures Valid() && last == old(last)[Folded(phys / PAGE_2M) := phys / PAGE_2M]
    {
      var found := PdTableFor(phys);
      if found.None? { return; }
      var pd := found.value;
      var n := phys / PAGE_2M;
      SetHuge(mem, at, base, owner, last, n);
      mem := mem[pd := mem[pd][Cell(n) := HugeEntry(n)]];
      last := last[Folded(n) := n];
    }

    method MapChunk(phys: u64, ghost n: nat)
      requires Valid() && phys == n * PAGE_2M
      modifies this`mem, this`at, this`owner, this`last
      ensures Valid() && last == old(last)[Folded(n) := n]
    {
      assert phys % PAGE_2M == 0 && phys / PAGE_2M == n;
      Map2M(phys);
    }

    /** Maps the 2 MiB pages from one aligned address up to another. */
    method MapChunks(start: u64, end: u64)
      requires Valid() && start % PAGE_2M == 0 && end % PAGE_2M == 0
      modifies this`mem, this`at, this`owner, this`last
      ensures Valid() && Wrote(old(last), last, start / PAGE_2M, end / PAGE_2M)
    {
      var phys := start;
      ghost var lo, hi, top := start / PAGE_2M, start / PAGE_2M, end / PAGE_2M;
      assert start == lo * PAGE_2M && end == top * PAGE_2M;
      while phys < end
        invariant Valid() && phys == hi * PAGE_2M && lo <= hi && (hi <= top || hi == lo)
        invariant Wrote(old(last), last, lo, hi)
        decreases top - hi
      {
        WroteNext(old(last), last, lo, hi);
        MapChunk(phys, hi);
        phys, hi := phys + PAGE_2M, hi + 1;
      }
      WroteNone(old(last), last, lo, hi, top);
    }

    /** Maps `[start, end)` in 2 MiB pages, rounding outwards. */
    method MapRegion(start: u64, end: u64)
      requires Valid() && WroteAll(last, done)
      modifies this`mem, this`at, this`owner, this`last, this`done
      ensures Valid() && WroteAll(last, done) && done == old(done) + [Range(start, end)]
    {
      done := done + [Range(start, end)];
      if start < end {
        MapChunks(ChunkDown(start), ChunkDown(Wrap64(end + PAGE_2M - 1)));
      }
      WroteOne(old(last), last, old(done), Range(start, end));
    }

    method MapDescriptors(ds: seq<Descriptor>)
      requires Valid() && WroteAll(last, done)
      modifies this`mem, this`at, this`owner, this`last, this`done
      ensures Valid() && WroteAll(last, done) && done == old(done) + DescriptorRanges(ds)
    {
      ghost var rs := DescriptorRanges(ds);
      for i := 0 to |ds|
        invariant Valid() && WroteAll(last, done) && done == old(done) + rs[..i]
      {
        MapRegion(ds[i].start, Wrap64(ds[i].start + ds[i].pages * 4096));
      }
    }

    method MapMemoryMap(boot: Option<BootInfo>)
      requires Valid() && WroteAll(last, done)
      modifies this`mem, this`at, this`owner, this`last, this`done
      ensures Valid() && WroteAll(last, done) && done == old(done) + MapRanges(boot)
    {
      if boot.Some? && boot.value.mapBase != 0 { MapDescriptors(boot.value.descriptors); }
    }

    method MapFramebuffer(boot: Option<BootInfo>)
      requires Valid() && WroteAll(last, done)
      modifies this`mem, this`at, this`owner, this`last, this`done
      ensures Valid() && WroteAll(last, done) && done == old(done) + FramebufferRange(boot)
    {
      if boot.Some? && boot.value.fbBase != 0 && boot.value.fbSize != 0 {
        MapRegion(boot.value.fbBase, Wrap64(boot.value.fbBase + boot.value.fbSize));
      }
    }

    method MapAll(boot: Option<BootInfo>)
      requires Valid() && WroteAll(last, done) && done == []
      modifies this`mem, this`at, this`owner, this`last, this`done
      ensures Valid() && WroteAll(last, done) && done == Regions(boot)
    {
      ghost var r0 := [Range(0, BASE_GIB * PAGE_1G)];
      MapRegion(0, BASE_GIB * PAGE_1G);
      assert done == r0;
      MapMemoryMap(boot);
      assert done == r0 + MapRanges(boot);
      MapFramebuffer(boot);
      assert done == r0 + MapRanges(boot) + FramebufferRange(boot);
    }

    /** The boot-time map: every page below 512 GiB translates as the last write to its entry says, and
        the map is the identity on every byte it was asked to map exactly when all of them lie below 512 GiB. */
    method Init(boot: Option<BootInfo>)
      requires Valid() && last == map[] && done == []
      modifies this`mem, this`at, this`owner, this`last, this`done
      ensures Valid() && WroteAll(last, done) && done == Regions(boot)
      ensures Exactly(mem, Pml4(base), Regions(boot))
      ensures IdentityOn(mem, Pml4(base), Regions(boot)) <==> AllLow(Regions(boot))
      ensures AllLow(Regions(boot)) ==> OnlyTouched(mem, Pml4(base), Regions(boot))
    {
      MapAll(boot);
      BootExactly(mem, at, base, owner, last, done);
      IdentityIff(mem, at, base, owner, last, done);
    }
  }

  /** A page just above 512 GiB that the memory map describes is not mapped; the first 2 MiB lead there instead. */
  method InitAbove(m: Mapper, bi: BootInfo)
    requires m.Valid() && m.last == map[] && m.done == []
    requires bi.mapBase != 0 && bi.descriptors == [Descriptor(CONVENTIONAL, LOW_LIMIT, 1)] && bi.fbBase == 0
    modifies m`mem, m`at, m`owner, m`last, m`done
    ensures !IdentityOn(m.mem, Pml4(m.base), [Range(LOW_LIMIT, LOW_LIMIT + 4096)])
    ensures forall x: nat | x < PAGE_2M ::
      Translate(m.mem, Pml4(m.base), PageOf(x)) == Some(Leaf((LOW_LIMIT + x) / 4096, false, ATTR_WRITABLE))
  {
    m.Init(Some(bi));
    OneDescriptor(bi, CONVENTIONAL, LOW_LIMIT, 1);
    AboveLost(m.mem, m.at, m.base, m.owner, m.last);
    FirstPages(m.mem, Pml4(m.base), [Range(0, BASE_GIB * PAGE_1G)]);
  }

  lemma OneDescriptor(bi: BootInfo, kind: nat, start: u64, pages: u64)
    requires bi.mapBase != 0 && bi.descriptors == [Descriptor(kind, start, pages)] && bi.fbBase == 0
    requires start + pages * 4096 < 0x1_0000_0000_0000_0000
    ensures Regions(Some(bi)) == [Range(0, BASE_GIB * PAGE_1G)] + [Range(start, start + pages * 4096)]
  {
    assert DescriptorRanges(bi.descriptors) == [Range(start, start + pages * 4096)];
  }

  lemma AboveLost(mem: Memory, at: Places, base: Frame, owner: seq<Index>, last: map<nat, nat>)
    requires Building(mem, at, base, owner, last)
    ensures !IdentityOn(mem, Pml4(base), [Range(LOW_LIMIT, LOW_LIMIT + 4096)])
  {
    NoIdentityAbove(mem, at, base, owner, last, LOW_LIMIT);
    var r := Range(LOW_LIMIT, LOW_LIMIT + 4096);
    assert r in [r] && r.start <= LOW_LIMIT < r.end;
  }

  lemma FirstPages(mem: Memory, root: Frame, front: seq<Range>)
    requires Exactly(mem, root, front + [Range(LOW_LIMIT, LOW_LIMIT + 4096)])
    ensures forall x: nat | x < PAGE_2M ::
      Translate(mem, root, PageOf(x)) == Some(Leaf((LOW_LIMIT + x) / 4096, false, ATTR_WRITABLE))
  {
    var r := Range(LOW_LIMIT, LOW_LIMIT + 4096);
    LastPage(front + [r], front, r, LOW_CHUNKS);
  }

  /** Every byte of every range translates to itself. */
  ghost predicate IdentityOn(mem: Memory, root: Frame, rs: seq<Range>) {
    forall x: nat, r | r in rs && r.start <= x < r.end :: Identity(mem, root, x)
  }

  function Chunk(x: nat): nat { x / PAGE_2M }

  function ChunkDown(x: u64): (r: u64)
    ensures r % PAGE_2M == 0
  {
    x - x % PAGE_2M
  }

  /** The last of the pages from `lo` up to `hi` that is written to the entry of page `k`. */
  function Top(lo: nat, hi: nat, k: nat): (n: Option<nat>)
    ensures n.Some? ==> lo <= n.value < hi && Folded(n.value) == k
    ensures forall m | (if n.Some? then n.value < m else lo <= m) && m < hi :: Folded(m) != k
  {
    if hi <= lo then None else if Folded(hi - 1) == k then Some(hi - 1) else Top(lo, hi - 1, k)
  }

  /** Some byte of 2 MiB page `n` lies in `r`, and rounding its end up does not wrap around. */
  predicate Reaches(r: Range, n: nat) {
    && r.start < r.end && Chunk(r.start) <= n && n * PAGE_2M < r.end
    && r.end + PAGE_2M - 1 < 0x1_0000_0000_0000_0000
  }

  predicate Touched(rs: seq<Range>, n: nat) { exists i :: 0 <= i < |rs| && Reaches(rs[i], n) }

  /** The last page of range `r` that is written to the entry of page `k`. */
  function TopOf(r: Range, k: nat): (n: Option<nat>)
    ensures n.Some? ==> Reaches(r, n.value) && Folded(n.value) == k
    ensures forall m: nat | Reaches(r, m) && (n.Some? ==> n.value < m) :: Folded(m) != k
  {
    if r.start >= r.end then None else
    var lo, hi := Chunk(ChunkDown(r.start)), Chunk(ChunkDown(Wrap64(r.end + PAGE_2M - 1)));
    var n := Top(lo, hi, k);
    assert forall m: nat :: Reaches(r, m) <==> lo <= m < hi;
    n
  }

  /** The page that the ranges, in order, leave in the entry of page `k`. */
  function Writer(rs: seq<Range>, k: nat): (n: Option<nat>)
    ensures n.Some? ==> Touched(rs, n.value) && Folded(n.value) == k
    ensures n.None? ==> forall m: nat | Touched(rs, m) :: Folded(m) != k
  {
    if rs == [] then None else
    var i := |rs| - 1;
    if TopOf(rs[i], k).Some? then TopOf(rs[i], k) else Writer(rs[..i], k)
  }

  function Got(last: map<nat, nat>, k: nat): Option<nat> { if k in last then Some(last[k]) else None }

  /** The pages from `lo` up to `hi` have been written, in order. */
  ghost predicate Wrote(before: map<nat, nat>, after: map<nat, nat>, lo: nat, hi: nat) {
    forall k: nat :: WroteTo(before, after, lo, hi, k)
  }

  ghost predicate WroteTo(before: map<nat, nat>, after: map<nat, nat>, lo: nat, hi: nat, k: nat) {
    Got(after, k) == if Top(lo, hi, k).Some? then Top(lo, hi, k) else Got(before, k)
  }

  lemma WroteNext(before: map<nat, nat>, after: map<nat, nat>, lo: nat, hi: nat)
    requires Wrote(before, after, lo, hi) && lo <= hi
    ensures Wrote(before, after[Folded(hi) := hi], lo, hi + 1)
  {
    var after', hi' := after[Folded(hi) := hi], hi + 1;
    forall k: nat ensures WroteTo(before, after', lo, hi', k) { assert WroteTo(before, after, lo, hi, k); }
  }

  /** The loop ends at the first page not below the end. */
  lemma WroteNone(before: map<nat, nat>, after: map<nat, nat>, lo: nat, hi: nat, end: nat)
    requires Wrote(before, after, lo, hi) && lo <= hi && hi >= end && (hi == end || hi == lo)
    ensures Wrote(before, after, lo, end)
  {
    forall k: nat ensures WroteTo(before, after, lo, end, k) { assert WroteTo(before, after, lo, hi, k); }
  }

  /** Every entry holds what the ranges leave in it. */
  ghost predicate WroteAll(last: map<nat, nat>, rs: seq<Range>) {
    forall k: nat {:trigger Writer(rs, k)} :: Got(last, k) == Writer(rs, k)
  }

  lemma WroteOne(before: map<nat, nat>, after: map<nat, nat>, rs: seq<Range>, r: Range)
    requires WroteAll(before, rs)
    requires if r.start < r.end
             then Wrote(before, after, Chunk(ChunkDown(r.start)), Chunk(ChunkDown(Wrap64(r.end + PAGE_2M - 1))))
             else after == before
    ensures WroteAll(after, rs + [r])
  {
    var all := rs + [r];
    assert all[..|all| - 1] == rs;
    forall k: nat ensures Got(after, k) == Writer(all, k) {
      assert Got(before, k) == Writer(rs, k);
      if r.start < r.end {
        assert WroteTo(before, after, Chunk(ChunkDown(r.start)), Chunk(ChunkDown(Wrap64(r.end + PAGE_2M - 1))), k);
      }
    }
  }

  /** What page `x` below the limit translates to: the 2 MiB page last written to its entry, cut to 48 bits. */
  function Expected(rs: seq<Range>, x: nat): Option<Leaf> {
    var n := Writer(rs, Chunk(x));
    if n.None? then None else Some(Leaf(n.value % 0x800_0000 * 512 + x / 4096 % 512, false, ATTR_WRITABLE))
  }

  ghost predicate Exactly(mem: Memory, root: Frame, rs: seq<Range>) {
    forall x: nat | x < LOW_LIMIT :: Translate(mem, root, PageOf(x)) == Expected(rs, x)
  }

  /** A page below the limit stays mapped to itself exactly if the last page written to its entry is its
      own up to bits above the 48th. */
  lemma IdentityExactly(mem: Memory, root: Frame, rs: seq<Range>, x: nat)
    requires Exactly(mem, root, rs) && x < LOW_LIMIT
    ensures Identity(mem, root, x) <==>
            Writer(rs, Chunk(x)).Some? && Writer(rs, Chunk(x)).value % 0x800_0000 == Chunk(x)
  {
    ExpectedItself(rs, x);
  }

  lemma ExpectedItself(rs: seq<Range>, x: nat)
    requires x < LOW_LIMIT
    ensures Expected(rs, x) == Some(Leaf(x / 4096, false, ATTR_WRITABLE)) <==>
            Writer(rs, Chunk(x)).Some? && Writer(rs, Chunk(x)).value % 0x800_0000 == Chunk(x)
  {
    PageInChunk(x);
  }

  /** If all ranges are low, every page is written to its own entry. */
  lemma LowWriter(rs: seq<Range>, k: nat)
    requires AllLow(rs)
    ensures Writer(rs, k).Some? ==> Writer(rs, k).value == k == k % 0x800_0000
    ensures Writer(rs, k).Some? <==> Touched(rs, k)
  {
    if Writer(rs, k).Some? { LowItself(rs, Writer(rs, k).value); }
    if Touched(rs, k) { LowItself(rs, k); }
  }

  lemma LowItself(rs: seq<Range>, n: nat)
    requires AllLow(rs) && Touched(rs, n)
    ensures Folded(n) == n == n % 0x800_0000
  {
    var i :| 0 <= i < |rs| && Reaches(rs[i], n);
    assert rs[i] in rs && n < LOW_CHUNKS;
  }

  /** The last range decides about the entries it writes to. */
  lemma LastPage(rs: seq<Range>, front: seq<Range>, r: Range, n: nat)
    requires rs == front + [r] && Reaches(r, n) && forall m: nat | Reaches(r, m) :: m == n
    ensures Writer(rs, Folded(n)) == Some(n)
  {
    assert rs[|rs| - 1] == r;
  }

  /** A page below the limit is mapped exactly when a range touches its 2 MiB page. */
  ghost predicate OnlyTouched(mem: Memory, root: Frame, rs: seq<Range>) {
    forall x: nat | x < LOW_LIMIT :: Translate(mem, root, PageOf(x)).Some? <==> Touched(rs, Chunk(x))
  }

  /** The walk through the boot tables. */
  lemma BootWalk(mem: Memory, at: Places, base: Frame, owner: seq<Index>, last: map<nat, nat>, pg: VPage)
    requires Building(mem, at, base, owner, last)
    ensures Translate(mem, Pml4(base), pg) == Via(mem, at, KERNEL, pg)
    ensures pg.a != 0 ==> Translate(mem, Pml4(base), pg).None?
  {
    WalkFollowsPlaces(mem, at, KERNEL, pg);
  }

  lemma BootExactly(mem: Memory, at: Places, base: Frame, owner: seq<Index>, last: map<nat, nat>, rs: seq<Range>)
    requires Building(mem, at, base, owner, last) && WroteAll(last, rs)
    ensures Exactly(mem, Pml4(base), rs)
  {
    forall x: nat | x < LOW_LIMIT ensures Translate(mem, Pml4(base), PageOf(x)) == Expected(rs, x) {
      BootPage(mem, at, base, owner, last, x);
      assert Got(last, Chunk(x)) == Writer(rs, Chunk(x));
    }
  }

  lemma BootPage(mem: Memory, at: Places, base: Frame, owner: seq<Index>, last: map<nat, nat>, x: nat)
    requires Building(mem, at, base, owner, last) && x < LOW_LIMIT
    ensures var k := Chunk(x);
      Translate(mem, Pml4(base), PageOf(x)) ==
      if k in last then Some(Leaf(last[k] % 0x800_0000 * 512 + x / 4096 % 512, false, ATTR_WRITABLE)) else None
  {
    BootEntry(mem, at, base, owner, last, x);
    BootWalk(mem, at, base, owner, last, PageOf(x));
    if Chunk(x) in last { HugeAt(last[Chunk(x)]); }
  }

  lemma HugeAt(n: nat)
    ensures HugeBase(HugeEntry(n)) == n % 0x800_0000 * 512
  {}

  /** The directory entry for a page below the limit. */
  lemma BootEntry(mem: Memory, at: Places, base: Frame, owner: seq<Index>, last: map<nat, nat>, x: nat)
    requires Building(mem, at, base, owner, last) && x < LOW_LIMIT
    ensures var pg, k := PageOf(x), Chunk(x);
      && pg.a == 0 && (k in last ==> L2(KERNEL, 0, pg.b) in at) && L1(KERNEL, 0, pg.b, pg.c) !in at
      && (L2(KERNEL, 0, pg.b) in at ==> Entry(mem, at[L2(KERNEL, 0, pg.b)], pg.c) == EntryOf(last, k))
  {
    var pg := PageOf(x);
    PageInChunk(x);
    NoLastLevel(at, base, mem, owner, last, L2(KERNEL, 0, pg.b), pg.c);
    if L2(KERNEL, 0, pg.b) in at {
      assert Entry(mem, at[L2(KERNEL, 0, pg.b)], pg.c) == EntryOf(last, pg.b * 512 + pg.c);
    }
  }

  /** A page is mapped no-execute at boot exactly if its entry was last written for an address from 2^63 on. */
  lemma BootNoExec(mem: Memory, at: Places, base: Frame, owner: seq<Index>, last: map<nat, nat>, rs: seq<Range>, x: nat)
    requires Building(mem, at, base, owner, last) && WroteAll(last, rs) && x < LOW_LIMIT
    ensures NoExec(mem, at, KERNEL, PageOf(x)) <==>
            Writer(rs, Chunk(x)).Some? && Writer(rs, Chunk(x)).value * PAGE_2M >= 0x8000_0000_0000_0000
  {
    MappingFollowsPlaces(mem, at, KERNEL, PageOf(x));
    BootEntry(mem, at, base, owner, last, x);
    assert Got(last, Chunk(x)) == Writer(rs, Chunk(x));
  }

  lemma OnlyTouchedLow(mem: Memory, root: Frame, rs: seq<Range>)
    requires Exactly(mem, root, rs) && AllLow(rs)
    ensures OnlyTouched(mem, root, rs)
  {
    forall x: nat | x < LOW_LIMIT ensures Translate(mem, root, PageOf(x)).Some? <==> Touched(rs, Chunk(x)) {
      LowWriter(rs, Chunk(x));
    }
  }

  lemma IdentityLow(mem: Memory, root: Frame, rs: seq<Range>, r: Range, x: nat)
    requires Exactly(mem, root, rs) && AllLow(rs) && r in rs && r.start <= x < r.end
    ensures Identity(mem, root, x)
  {
    LowTouched(rs, r, x);
    LowWriter(rs, Chunk(x));
    IdentityExactly(mem, root, rs, x);
  }

  lemma LowTouched(rs: seq<Range>, r: Range, x: nat)
    requires AllLow(rs) && r in rs && r.start <= x < r.end
    ensures x < LOW_LIMIT && Chunk(x) < LOW_CHUNKS && Touched(rs, Chunk(x))
  {
    var i :| 0 <= i < |rs| && rs[i] == r;
    assert Reaches(rs[i], Chunk(x));
  }

  lemma IdentityIff(mem: Memory, at: Places, base: Frame, owner: seq<Index>, last: map<nat, nat>, rs: seq<Range>)
    requires Building(mem, at, base, owner, last) && Exactly(mem, Pml4(base), rs)
    ensures IdentityOn(mem, Pml4(base), rs) <==> AllLow(rs)
    ensures AllLow(rs) ==> OnlyTouched(mem, Pml4(base), rs)
  {
    if AllLow(rs) {
      OnlyTouchedLow(mem, Pml4(base), rs);
      forall x: nat, r | r in rs && r.start <= x < r.end ensures Identity(mem, Pml4(base), x) {
        IdentityLow(mem, Pml4(base), rs, r, x);
      }
    } else {
      var r :| r in rs && r.start < r.end && r.end > LOW_LIMIT;
      assert r.start <= r.end - 1 < r.end;
      NoIdentityAbove(mem, at, base, owner, last, r.end - 1);
    }
  }

  lemma PageInChunk(x: nat)
    requires x < LOW_LIMIT
    ensures var pg, n := PageOf(x), Chunk(x);
      && pg.a == 0 && pg.b == Slot(n) && pg.c == Cell(n) && pg.d == x / 4096 % 512 && pg.b * 512 + pg.c == n
      && n < LOW_CHUNKS && n * 512 + pg.d == x / 4096
  {
    var n := x / PAGE_2M;
    assert x / PAGE_1G == n / 512;
    assert x / 4096 == n * 512 + x / 4096 % 512;
  }

  lemma NoIdentityAbove(mem: Memory, at: Places, base: Frame, owner: seq<Index>, last: map<nat, nat>, x: nat)
    requires Building(mem, at, base, owner, last) && x >= LOW_LIMIT
    ensures !Identity(mem, Pml4(base), x)
  {
    var pg := PageOf(x);
    BootWalk(mem, at, base, owner, last, pg);
    NoLastLevel(at, base, mem, owner, last, L2(KERNEL, 0, pg.b), pg.c);
    if pg.a == 0 && L2(KERNEL, 0, pg.b) in at {
      var e := Entry(mem, at[L2(KERNEL, 0, pg.b)], pg.c);
      assert HugeBase(e) + pg.d < 0x10_0000_0000;
      assert x / LOW_LIMIT % 512 == 0 ==> x >= 512 * LOW_LIMIT;
    }
  }
}
