/** The kernel's address space as the boot leaves it, and inputs on which the paging layer does less than its
    callers may expect: a clone that runs out of frames, a no-execute leaf, a no-execute page and a user page. */
module BootSpaces {
  import opened Basics
  import opened Pmm
  import opened PageTables
  import opened BootTables
  import opened Paging

  const HIGH_HALF: u64 := 0x8000_0000_0000_0000   // 2^63

  /** The boot tables: the root, one level-3 table, and directories below it, four of them at least. */
  ghost predicate BootShape(at: Places) {
    && Root(KERNEL) in at && L3(KERNEL, 0) in at
    && (forall b: Index | b < BASE_GIB :: L2(KERNEL, 0, b) in at)
    && (forall p | p in at :: p == Root(KERNEL) || p == L3(KERNEL, 0) || (p.Sub? && p.parent == L3(KERNEL, 0)))
  }

  lemma BootHasShape(mem: Memory, at: Places, base: Frame, owner: seq<Index>, last: map<nat, nat>,
                     boot: Option<BootInfo>)
    requires Building(mem, at, base, owner, last) && WroteAll(last, Regions(boot))
    ensures BootShape(at)
  {
    forall b: Index | b < BASE_GIB ensures L2(KERNEL, 0, b) in at {
      BaseWritten(boot, b * 512);
      BaseLinked(mem, at, base, owner, last, b);
    }
  }

  lemma BaseLinked(mem: Memory, at: Places, base: Frame, owner: seq<Index>, last: map<nat, nat>, b: Index)
    requires Building(mem, at, base, owner, last) && b * 512 in last
    ensures L2(KERNEL, 0, b) in at
  {
    assert Slot(b * 512) == b;
  }

  lemma BaseWritten(boot: Option<BootInfo>, n: nat)
    requires n < BASE_GIB * 512
    ensures Writer(Regions(boot), n).Some?
  {
    var rs := Regions(boot);
    assert rs[0] == Range(0, BASE_GIB * PAGE_1G) && Reaches(rs[0], n);
    assert Touched(rs, n) && Folded(n) == n;
  }

  /** The static tables of the boot are not free pages. */
  predicate Outside(free: set<Frame>, base: Frame) {
    forall f | f in free :: !(base <= f < base + TABLES)
  }

  lemma BootFrames(mem: Memory, at: Places, base: Frame, owner: seq<Index>, last: map<nat, nat>, p: Place)
    requires Building(mem, at, base, owner, last) && p in at
    ensures base <= at[p] < base + TABLES && SpaceOf(p) == KERNEL
  {
    if p != Root(KERNEL) && p != L3(KERNEL, 0) {
      assert p == L2(KERNEL, 0, p.i);
      assert Serves(base, owner, at[p], p.i);
      OwnersBounded(owner);
    }
  }

  /** Builds the boot tables and hands them to the paging layer. */
  method Start(m: Mapper, boot: Option<BootInfo>, free: set<Frame>, total: nat) returns (spaces: AddressSpaces)
    requires m.Valid() && m.last == map[] && m.done == []
    requires Outside(free, m.base) && forall f | f in free :: 0 < f < total
    modifies m`mem, m`at, m`owner, m`last, m`done
    ensures fresh(spaces) && spaces.Valid() && spaces.free == free
    ensures m.Valid() && m.done == Regions(boot) && WroteAll(m.last, m.done)
    ensures spaces.mem == m.mem && spaces.at == m.at && spaces.at[Root(KERNEL)] == Pml4(m.base)
    ensures BootShape(spaces.at)
  {
    m.Init(boot);
    BootHasShape(m.mem, m.at, m.base, m.owner, m.last, boot);
    forall p | p in m.at ensures SpaceOf(p) == KERNEL && m.at[p] !in free {
      BootFrames(m.mem, m.at, m.base, m.owner, m.last, p);
    }
    spaces := new AddressSpaces(m.mem, m.at, free, total);
  }

  // ---- A clone of the boot tables with too few frames ----

  lemma BootCount(mem: Memory, at: Places)
    requires WellFormed(mem, at) && BootShape(at)
    ensures TreeCount(at, Root(KERNEL)) >= 2 + BASE_GIB
  {
    TreeCountAll(mem, at, Root(KERNEL));
    BranchHolds(mem, at, Root(KERNEL), 0, ENTRIES);
    TreeCountAll(mem, at, L3(KERNEL, 0));
    Directories(mem, at, BASE_GIB);
    BranchCountUpTo(at, L3(KERNEL, 0), BASE_GIB, ENTRIES);
  }

  lemma {:induction false} Directories(mem: Memory, at: Places, n: nat)
    requires WellFormed(mem, at) && BootShape(at) && n <= BASE_GIB
    ensures BranchCount(at, L3(KERNEL, 0), n) >= n
  {
    if n > 0 {
      Directories(mem, at, n - 1);
      assert L2(KERNEL, 0, n - 1) in at;
      BranchCountNext(mem, at, L3(KERNEL, 0), n - 1);
      TreeCountSome(mem, at, L3(KERNEL, 0), n - 1);
    }
  }

  /** Only the copies of the root and of the level-3 table are given back. */
  lemma BootStopped(mem: Memory, at: Places, q: Place, low: nat, left: nat)
    requires WellFormed(mem, at) && BootShape(at) && Stopped(at, Root(KERNEL), q, low, left)
    ensures left == if low < 2 then low else 2
  {
    TreeCountAll(mem, at, Root(KERNEL));
    assert Before(at, Root(KERNEL), L3(KERNEL, 0)) == 1;
  }

  /** A clone of the boot tables needs at least six frames; with fewer, all but two are lost. */
  method CloneOfBoot(m: Mapper, boot: Option<BootInfo>, free: set<Frame>, total: nat)
    returns (spaces: AddressSpaces, root: Frame)
    requires m.Valid() && m.last == map[] && m.done == []
    requires Outside(free, m.base) && (forall f | f in free :: 0 < f < total) && LowCount(free) < 2 + BASE_GIB
    modifies m`mem, m`at, m`owner, m`last, m`done
    ensures root == 0 && LowCount(spaces.free) == if LowCount(free) < 2 then LowCount(free) else 2
  {
    spaces := Start(m, boot, free, total);
    ghost var t, q;
    BootCount(spaces.mem, spaces.at);
    ghost var mem, at := spaces.mem, spaces.at;
    root, t, q := spaces.CreateAddressSpace(Pml4(m.base));
    BootStopped(mem, at, q, LowCount(free), LowCount(spaces.free));
  }

  // ---- A no-execute leaf that is split ----

  /** The first 2 MiB are mapped no-execute, or none of them is. */
  ghost predicate LowNoExec(mem: Memory, at: Places) {
    forall x: nat | x < PAGE_2M :: NoExec(mem, at, KERNEL, PageOf(x))
  }

  ghost predicate LowExec(mem: Memory, at: Places) {
    forall x: nat | x < PAGE_2M :: !NoExec(mem, at, KERNEL, PageOf(x))
  }

  /** A memory map that describes 2 MiB at 2^63 leaves the first 2 MiB no-execute; a split of their leaf
      makes them executable. */
  method SplitOfBoot(m: Mapper, bi: BootInfo, free: set<Frame>, total: nat)
    returns (spaces: AddressSpaces, table: Option<Frame>)
    requires m.Valid() && m.last == map[] && m.done == []
    requires Outside(free, m.base) && (forall f | f in free :: 0 < f < total) && LowCount(free) > 0
    requires bi.mapBase != 0 && bi.descriptors == [Descriptor(CONVENTIONAL, HIGH_HALF, 512)] && bi.fbBase == 0
    modifies m`mem, m`at, m`owner, m`last, m`done
    ensures table.Some?
    ensures LowNoExec(m.mem, m.at) && LowExec(spaces.mem, spaces.at)
  {
    spaces := Start(m, Some(bi), free, total);
    OneDescriptor(bi, CONVENTIONAL, HIGH_HALF, 512);
    FirstNoExec(m.mem, m.at, m.base, m.owner, m.last, [Range(0, BASE_GIB * PAGE_1G)]);
    table := SplitFirst(spaces, PdBase(m.base, 0));
  }

  /** Splits the leaf of the first 2 MiB. */
  method SplitFirst(spaces: AddressSpaces, pd: Frame) returns (table: Option<Frame>)
    requires spaces.Valid() && L2(KERNEL, 0, 0) in spaces.at && spaces.at[L2(KERNEL, 0, 0)] == pd
    requires Entry(spaces.mem, pd, 0).present && Entry(spaces.mem, pd, 0).huge && LowCount(spaces.free) > 0
    modifies spaces`mem, spaces`at, spaces`free
    ensures table.Some? && LowExec(spaces.mem, spaces.at)
  {
    ghost var mem, at := spaces.mem, spaces.at;
    table := spaces.SplitLarge(pd, 0, L2(KERNEL, 0, 0));
    FirstExec(mem, at, spaces.mem, spaces.at);
  }

  lemma FirstExec(mem: Memory, at: Places, mem': Memory, at': Places)
    requires ExecOpened(mem, at, mem', at', L2(KERNEL, 0, 0), 0)
    ensures LowExec(mem', at')
  {
    forall x: nat | x < PAGE_2M ensures !NoExec(mem', at', KERNEL, PageOf(x)) {
      PageInChunk(x);
      assert InRegion(L2(KERNEL, 0, 0), 0, KERNEL, PageOf(x));
    }
  }

  lemma FirstNoExec(mem: Memory, at: Places, base: Frame, owner: seq<Index>, last: map<nat, nat>, front: seq<Range>)
    requires Building(mem, at, base, owner, last) && WroteAll(last, front + [Range(HIGH_HALF, HIGH_HALF + PAGE_2M)])
    requires L2(KERNEL, 0, 0) in at
    ensures LowNoExec(mem, at)
    ensures at[L2(KERNEL, 0, 0)] == PdBase(base, 0)
    ensures Entry(mem, at[L2(KERNEL, 0, 0)], 0).present && Entry(mem, at[L2(KERNEL, 0, 0)], 0).huge
  {
    var r := Range(HIGH_HALF, HIGH_HALF + PAGE_2M);
    var rs := front + [r];
    LastPage(rs, front, r, 0x400_0000_0000);
    forall x: nat | x < PAGE_2M ensures NoExec(mem, at, KERNEL, PageOf(x)) {
      BootNoExec(mem, at, base, owner, last, rs, x);
    }
    assert Got(last, 0) == Writer(rs, 0);
    assert Serves(base, owner, at[L2(KERNEL, 0, 0)], 0);
    BootEntry(mem, at, base, owner, last, 0);
  }

  // ---- Mapping one page above the boot map ----

  lemma AboveBoot(mem: Memory, at: Places, base: Frame, owner: seq<Index>, last: map<nat, nat>)
    requires Building(mem, at, base, owner, last)
    ensures Look(mem, at, KERNEL, PageOf(LOW_LIMIT)).None? && Missing(at, KERNEL, PageOf(LOW_LIMIT)) == 3
  {
    assert PageOf(LOW_LIMIT) == VPage(1, 0, 0, 0);
    BootWalk(mem, at, base, owner, last, PageOf(LOW_LIMIT));
  }

  /** A page mapped no-execute is found with bit 63 in its physical address. */
  method NoExecPage(m: Mapper, boot: Option<BootInfo>, free: set<Frame>, total: nat, phys: u64)
    returns (r: int, found: nat)
    requires m.Valid() && m.last == map[] && m.done == []
    requires Outside(free, m.base) && (forall f | f in free :: 0 < f < total) && LowCount(free) >= 3
    requires phys % 4096 == 0 && phys < HIGH_HALF
    modifies m`mem, m`at, m`owner, m`last, m`done
    ensures r == 0 && found == phys + HIGH_HALF
  {
    var spaces := Start(m, boot, free, total);
    AboveBoot(m.mem, m.at, m.base, m.owner, m.last);
    r, found := spaces.MapThenTranslate(Pml4(m.base), LOW_LIMIT, phys, Flags(true, false, ATTR_WRITABLE), 0, KERNEL);
  }

  /** A page mapped with the user bit is there, its leaf has the bit, and user mode does not reach it. */
  method UserPage(m: Mapper, boot: Option<BootInfo>, free: set<Frame>, total: nat, phys: u64)
    returns (spaces: AddressSpaces, r: int)
    requires m.Valid() && m.last == map[] && m.done == []
    requires Outside(free, m.base) && (forall f | f in free :: 0 < f < total) && LowCount(free) >= 3
    requires phys % 4096 == 0
    modifies m`mem, m`at, m`owner, m`last, m`done
    ensures r == 0
    ensures Translate(spaces.mem, Pml4(m.base), PageOf(LOW_LIMIT)) == Some(Leaf(phys / 4096, false, ATTR_USER))
    ensures !UserAccess(spaces.mem, Pml4(m.base), PageOf(LOW_LIMIT))
  {
    spaces := Start(m, boot, free, total);
    AboveBoot(m.mem, m.at, m.base, m.owner, m.last);
    r := spaces.MapPage(Pml4(m.base), LOW_LIMIT, phys, Flags(false, false, ATTR_USER), KERNEL);
    NoUserAccess(spaces.mem, spaces.at, KERNEL, PageOf(LOW_LIMIT));
    assert Look(spaces.mem, spaces.at, KERNEL, PageOf(LOW_LIMIT)) == Some(Leaf(phys / 4096, false, ATTR_USER));
  }
}
