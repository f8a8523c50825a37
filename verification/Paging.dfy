/** Address spaces over the page manager's free set: the walk that creates
    missing tables, 4 KiB map and unmap, private clones and destruction. */
module Paging {
  import opened Basics
  import opened Pmm
  import opened PageTables

  datatype Op = Map(va: u64, phys: u64, flags: Flags) | Unmap(va: u64)

  /** What page `pg` translates to after an operation with the result `r`. */
  function PageNext(was: Option<Leaf>, op: Op, r: int, pg: VPage): Option<Leaf> {
    match op
    case Map(va, phys, flags) => if r == 0 && PageOf(va) == pg then Some(Requested(phys, flags)) else was
    case Unmap(va) => if r == 1 && PageOf(va) == pg then None else was
  }

  /** And after several. */
  function PageAfter(was: Option<Leaf>, ops: seq<Op>, rs: seq<int>, pg: VPage): Option<Leaf>
    requires |ops| == |rs|
  {
    if ops == [] then was
    else
      var k := |ops| - 1;
      PageNext(PageAfter(was, ops[..k], rs[..k], pg), ops[k], rs[k], pg)
  }

  /** The leaf that a map call asks for, with the no-execute bit in its page number. */
  function Requested(phys: u64, flags: Flags): Leaf {
    Leaf((phys + if flags.nx && phys < BIT63 then BIT63 else 0) / 4096, flags.huge, flags.attrs)
  }

  lemma MappedLeaf(phys: u64, flags: Flags)
    requires phys % 4096 == 0
    ensures LeafOf(LeafEntry(phys, flags)) == Some(Requested(phys, flags))
  {}

  /** The invariant: a well-formed forest of tables, none of them free, in
      which all but the boot tables came from the page manager. */
  ghost predicate Sound(mem: Memory, at: Places, nextSpace: nat, free: set<Frame>, total: nat) {
    && WellFormed(mem, at)
    && Root(KERNEL) in at
    && (forall p {:trigger p in at} {:trigger at[p]} | p in at :: at[p] !in free && SpaceOf(p) < nextSpace)
    && (forall p {:trigger p in at} {:trigger at[p]} | p in at && SpaceOf(p) != KERNEL :: 0 < at[p] < total)
    && (forall f | f in free :: 0 < f < total)
  }

  /** The table frames of space `s`. */
  ghost function SpaceFrames(at: Places, s: nat): set<Frame> {
    set p | p in at && SpaceOf(p) == s :: at[p]
  }

  class AddressSpaces {
    var mem: Memory        // the tables, by frame
    var free: set<Frame>   // the page manager's free pages
    const total: nat       // pages it tracks
    ghost var at: Places
    ghost var nextSpace: nat   // names for address spaces, never reused

    ghost predicate Valid()
      reads this
    {
      Sound(mem, at, nextSpace, free, total)
    }

    /** The free frames and the table frames of space `s` together. */
    ghost function Pool(s: nat): set<Frame>
      reads this`at, this`free
    {
      free + SpaceFrames(at, s)
    }

    /** Takes over tables built at boot; `at` lists their places in the kernel's space. */
    constructor (mem: Memory, ghost at: Places, free: set<Frame>, total: nat)
      requires WellFormed(mem, at) && Root(KERNEL) in at
      requires forall p | p in at :: SpaceOf(p) == KERNEL && at[p] !in free
      requires forall f | f in free :: 0 < f < total
      ensures Valid() && this.mem == mem && this.at == at && this.free == free && this.total == total
    {
      this.mem, this.at, this.nextSpace := mem, at, KERNEL + 1;
      this.free, this.total := free, total;
    }

    /** The page manager's allocation: the lowest free page, or 0. */
    method TakePage() returns (phys: nat)
      requires forall f | f in free :: 0 < f < total
      modifies this`free
      ensures phys == 0 <==> old(free) == {}
      ensures phys == 0 ==> free == old(free)
      ensures phys != 0 ==>
        phys % PAGE_SIZE == 0 && IsLowest(phys / PAGE_SIZE, old(free)) && free == old(free) - {phys / PAGE_SIZE}
    {
      if free == {} { return 0; }
      ghost var m := LowestExists(free);
      var p: nat :| p in free && IsLowest(p, free);
      assert p * PAGE_SIZE / PAGE_SIZE == p;
      free := free - {p};
      return p * PAGE_SIZE;
    }

    /** The page manager's release of a page it tracks; no caller here gives a page back twice. */
    method GivePage(phys: nat)
      requires phys % PAGE_SIZE == 0 && phys / PAGE_SIZE !in free
      modifies this`free
      ensures free == old(free) + (if phys / PAGE_SIZE < total then {phys / PAGE_SIZE} else {})
    {
      if phys / PAGE_SIZE < total { free := free + {phys / PAGE_SIZE}; }
    }

    /** A zeroed frame below 4 GiB for a table; nothing changes if there is none. */
    method AllocTable() returns (f: Option<Frame>)
      requires forall f | f in free :: 0 < f < total
      modifies this`mem, this`free
      ensures f.None? ==> mem == old(mem) && free == old(free)
      ensures f.None? <==> LowCount(old(free)) == 0
      ensures f.Some? ==>
        && LowCount(free) + 1 == LowCount(old(free)) && HighCount(free) == HighCount(old(free))
        && f.value in old(free) && 0 < f.value < FRAME_LIMIT && f.value < total
        && free == old(free) - {f.value}
        && mem == old(mem)[f.value := ZeroTable()]
    {
      var phys := TakePage();
      if phys == 0 || phys >= 0x1_0000_0000 {
        NoneLow(free);
        if phys != 0 { NoneLow(free + {phys / PAGE_SIZE}); GivePage(phys); }
        return None;
      }
      LowTaken(old(free), phys / PAGE_SIZE);
      HighTaken(old(free), phys / PAGE_SIZE);
      mem := mem[phys / PAGE_SIZE := ZeroTable()];
      return Some(phys / PAGE_SIZE);
    }

    /** The table below entry `i` of the table at `p`, created if absent. */
    method Descend(g: Frame, i: Index, create: bool, ghost p: Place) returns (f: Option<Frame>)
      requires Valid() && p in at && at[p] == g && Level(p) > 1
      requires IsLink(Level(p), Entry(mem, g, i)) || !Entry(mem, g, i).present
      modifies this`mem, this`at, this`free
      ensures Valid() && Grown(old(mem), old(at), old(free), mem, at, free, SpaceOf(p))
      ensures f.Some? ==> Sub(p, i) in at && at[Sub(p, i)] == f.value
      ensures !create || f.None? ==> mem == old(mem) && at == old(at) && free == old(free)
      ensures f.None? <==> Sub(p, i) !in old(at) && (!create || LowCount(old(free)) == 0)
      ensures f.Some? ==> Linked(old(at), at, Sub(p, i), f.value, old(free), free)
    {
      assert LinkOk(mem, at, p, i);
      var e := mem[g][i];
      if !e.present {
        if !create { return None; }
        f := AllocTable();
        if f.None? { return; }
        AddTableSound(old(mem), at, nextSpace, old(free), total, p, i, f.value);
        mem := mem[g := mem[g][i := Link(f.value)]];
        at := at[Sub(p, i) := f.value];
        return;
      }
      return Some(e.frame);
    }

    /** Replaces the 2 MiB leaf in entry `i` of the directory at `p` by a table of small leaves. */
    method SplitLarge(g: Frame, i: Index, ghost p: Place) returns (f: Option<Frame>)
      requires Valid() && p in at && at[p] == g && Level(p) == 2
      requires Entry(mem, g, i).present && Entry(mem, g, i).huge
      modifies this`mem, this`at, this`free
      ensures Valid() && Grown(old(mem), old(at), old(free), mem, at, free, SpaceOf(p))
      ensures f.Some? ==> Sub(p, i) in at && at[Sub(p, i)] == f.value
      ensures f.Some? ==> Linked(old(at), at, Sub(p, i), f.value, old(free), free) && Sub(p, i) !in old(at)
      ensures f.Some? ==> ExecOpened(old(mem), old(at), mem, at, p, i)
      ensures f.None? <==> LowCount(old(free)) == 0
      ensures f.None? ==> mem == old(mem) && at == old(at) && free == old(free)
    {
      var e := mem[g][i];
      f := AllocTable();
      if f.None? { return; }
      var pt := BuildSplit(mem[f.value], e);
      SplitSound(old(mem), mem, at, nextSpace, old(free), total, p, i, f.value, e);
      mem := mem[f.value := pt];
      mem := mem[g := mem[g][i := Link(f.value)]];
      at := at[Sub(p, i) := f.value];
    }

    /** The page directory for a page, its upper levels built on demand when `create` is set. */
    method WalkDirectory(root: Frame, pg: VPage, create: bool, ghost s: nat) returns (pd: Option<Frame>)
      requires Valid() && Root(s) in at && at[Root(s)] == root
      modifies this`mem, this`at, this`free
      ensures Valid() && Grown(old(mem), old(at), old(free), mem, at, free, s)
      ensures pd.Some? ==> L2(s, pg.a, pg.b) in at && at[L2(s, pg.a, pg.b)] == pd.value
      ensures !create ==> mem == old(mem) && at == old(at) && free == old(free)
      ensures pd.None? ==> if create then LowCount(free) == 0 else L2(s, pg.a, pg.b) !in at
      ensures create ==> (pd.Some? <==> MissingUpper(old(at), s, pg) <= LowCount(old(free)))
      ensures create && pd.Some? ==> LowCount(free) + MissingUpper(old(at), s, pg) == LowCount(old(free))
      ensures LastPlace(s, pg) in at <==> LastPlace(s, pg) in old(at)
    {
      assert ParentListed(at, L2(s, pg.a, pg.b)) ==> L3(s, pg.a) in at;
      assert LinkOk(mem, at, Root(s), pg.a);
      var pdpt := Descend(root, pg.a, create, Root(s));
      if pdpt.None? { return None; }
      assert LinkOk(mem, at, L3(s, pg.a), pg.b);
      ghost var mem1, at1, free1 := mem, at, free;
      pd := Descend(pdpt.value, pg.b, create, L3(s, pg.a));
      GrownTwice(old(mem), old(at), old(free), mem1, at1, free1, mem, at, free, s);
    }

    /** The last-level table for a page, built on demand when `create` is set:
        no translation of any space changes, whether or not it succeeds. */
    method WalkCreate(root: Frame, pg: VPage, create: bool, ghost s: nat) returns (pt: Option<Frame>)
      requires Valid() && Root(s) in at && at[Root(s)] == root
      modifies this`mem, this`at, this`free
      ensures Valid() && Grown(old(mem), old(at), old(free), mem, at, free, s)
      ensures pt.Some? ==> LastPlace(s, pg) in at && at[LastPlace(s, pg)] == pt.value
      ensures !create ==> mem == old(mem) && at == old(at) && free == old(free)
      ensures pt.None? ==> if create then LowCount(free) == 0 else LastPlace(s, pg) !in at
      ensures create ==> (pt.Some? <==> Missing(old(at), s, pg) <= LowCount(old(free)))
      ensures create && pt.Some? ==> LowCount(free) + Missing(old(at), s, pg) == LowCount(old(free))
    {
      assert ParentListed(at, LastPlace(s, pg)) ==> L2(s, pg.a, pg.b) in at;
      var pd := WalkDirectory(root, pg, create, s);
      if pd.None? { return None; }
      ghost var p := L2(s, pg.a, pg.b);
      PlacesOf(s, pg);
      assert LinkOk(mem, at, p, pg.c);
      ghost var mem1, at1, free1 := mem, at, free;
      var e := mem[pd.value][pg.c];
      if e.present && e.huge {
        if !create { return None; }
        pt := SplitLarge(pd.value, pg.c, p);
      } else {
        pt := Descend(pd.value, pg.c, create, p);
      }
      GrownTwice(old(mem), old(at), old(free), mem1, at1, free1, mem, at, free, s);
    }

    /** 0: mapped; 1: already mapped; -1: misaligned or no table. */
    method MapPage(root: Frame, va: u64, phys: u64, flags: Flags, ghost s: nat) returns (r: int)
      requires Valid() && Root(s) in at && at[Root(s)] == root
      modifies this`mem, this`at, this`free
      ensures Valid() && Extends(old(at), at, s)
      ensures Pool(s) == old(Pool(s)) && free <= old(free)
      ensures r == 0 || r == 1 || r == -1
      ensures r != 0 ==> SameTranslations(old(mem), old(at), mem, at)
      ensures r == 0 ==> PageChanged(old(mem), old(at), mem, at, s, PageOf(va), LeafOf(LeafEntry(phys, flags)))
      ensures r == 0 ==> va % 4096 == 0 && phys % 4096 == 0 && Look(old(mem), old(at), s, PageOf(va)).None?
      ensures r == 0 ==> LastPlace(s, PageOf(va)) in at
      ensures r == 0 ==> Look(mem, at, s, PageOf(va)).Some? && var leaf := Look(mem, at, s, PageOf(va)).value;
        && leaf.attrs == flags.attrs && leaf.bit7 == flags.huge
        && leaf.page * 4096 == phys + if flags.nx && phys < BIT63 then BIT63 else 0
      ensures r == 0 ==> (WriteAccess(mem, root, PageOf(va)) <==> flags.attrs / ATTR_WRITABLE % 2 == 1)
      ensures r == 1 ==> Look(old(mem), old(at), s, PageOf(va)).Some?
      ensures r == -1 <==>
        va % 4096 != 0 || phys % 4096 != 0 || LowCount(old(free)) < Missing(old(at), s, PageOf(va))
      ensures r != -1 ==> LowCount(free) + Missing(old(at), s, PageOf(va)) == LowCount(old(free))
    {
      if va % 4096 != 0 || phys % 4096 != 0 { return -1; }
      var pg := PageOf(va);
      var pt := WalkCreate(root, pg, true, s);
      if pt.None? { return -1; }
      SetPage(mem, at, s, pg, LeafEntry(phys, flags));
      if mem[pt.value][pg.d].present { return 1; }
      mem := mem[pt.value := mem[pt.value][pg.d := LeafEntry(phys, flags)]];
      WriteAccessIs(mem, at, s, pg);
      return 0;
    }

    /** Clears a small leaf. A page covered by a 2 MiB leaf is left alone. */
    method UnmapPage(root: Frame, va: u64, ghost s: nat) returns (r: int)
      requires Valid() && Root(s) in at && at[Root(s)] == root
      modifies this`mem, this`at, this`free
      ensures Valid() && at == old(at) && free == old(free)
      ensures r == 0 || r == 1
      ensures r == 0 ==> mem == old(mem)
      ensures r == 1 <==>
        va % 4096 == 0 && Look(old(mem), at, s, PageOf(va)).Some? && LastPlace(s, PageOf(va)) in at
      ensures r == 1 ==> PageChanged(old(mem), at, mem, at, s, PageOf(va), None)
    {
      if va % 4096 != 0 { return 0; }
      var pg := PageOf(va);
      var pt := WalkCreate(root, pg, false, s);
      if pt.None? { return 0; }
      SetPage(mem, at, s, pg, ABSENT);
      if !mem[pt.value][pg.d].present { return 0; }
      mem := mem[pt.value := mem[pt.value][pg.d := ABSENT]];
      return 1;
    }

    /** Copies the tables at and below `src` (place `p`) into frames of their
        own; `copy` gives the copy of each place. A copy takes from the page
        manager exactly its own frames. */
    method CloneTable(src: Frame, level: nat, ghost p: Place)
      returns (dst: Option<Frame>, ghost copy: Places, ghost q: Place)
      requires Valid() && p in at && at[p] == src && Level(p) == level
      modifies this`mem, this`free
      ensures Valid() && free <= old(free) && Untouched(old(mem), mem, old(free))
      ensures dst.Some? ==> IsCopy(mem, at, p, copy) && copy[p] == dst.value && TakenFrom(copy, old(free), free)
      ensures dst.Some? <==> TreeCount(at, p) <= LowCount(old(free))
      ensures dst.Some? ==> LowCount(free) + TreeCount(at, p) == LowCount(old(free))
      ensures dst.None? ==> Stopped(at, p, q, LowCount(old(free)), LowCount(free))
      ensures HighCount(free) == HighCount(old(free))
      decreases level, 2
    {
      copy, q := map[], p;
      TreeCountAll(mem, at, p);
      StoppedHere(at, p);
      dst := AllocTable();
      if dst.None? { return; }
      var f := dst.value;
      ghost var pool := free;
      assert pool + {f} == old(free);
      CloneStart(old(mem), mem, at, nextSpace, old(free), total, p, f);
      var ok;
      ok, copy, q := CloneEntries(src, f, level, p, pool, old(mem), LowCount(pool));
      if ok {
        CloneFinish(mem, at, nextSpace, free, total, p, copy, f, pool, old(mem));
        copy := copy[p := f];
      } else {
        CloneAbort(mem, at, nextSpace, free, total, f, pool);
        LowGiven(free, f);
        HighTaken(free, f);
        GivePage(f * PAGE_SIZE);
        dst := None;
      }
    }

    /** The copy loop for the table `src` (place `p`) into the new table `f`. */
    method CloneEntries(src: Frame, f: Frame, level: nat, ghost p: Place, ghost pool: set<Frame>, ghost start: Memory,
                        ghost low: nat)
      returns (ok: bool, ghost copy: Places, ghost q: Place)
      requires Cloning(mem, at, nextSpace, free, total, p, map[], f, 0, pool, start) && free == pool
      requires at[p] == src && Level(p) == level && BranchCount(at, p, 0) == 0 && LowCount(free) == low
      modifies this`mem, this`free
      ensures ok ==> Cloning(mem, at, nextSpace, free, total, p, copy, f, ENTRIES, pool, start)
      ensures ok ==> LowCount(free) + BranchCount(at, p, ENTRIES) == low
      ensures !ok ==> Sound(mem, at, nextSpace, free, total) && free <= pool && Untouched(start, mem, pool + {f})
      ensures !ok ==> low < BranchCount(at, p, ENTRIES) && Stopped(at, p, q, low + 1, LowCount(free) + 1)
      ensures HighCount(free) == HighCount(old(free))
      decreases level, 1
    {
      ok, copy, q := true, map[], p;
      for i := 0 to ENTRIES
        invariant ok && Cloning(mem, at, nextSpace, free, total, p, copy, f, i, pool, start)
        invariant LowCount(free) + BranchCount(at, p, i) == low && HighCount(free) == HighCount(old(free))
      {
        ok, copy, q := CloneEntry(src, f, i, level, p, copy, pool, start, low);
        if !ok { return; }
      }
    }

    /** One entry of the copy loop: leaves are copied verbatim, tables are cloned. */
    method CloneEntry(src: Frame, f: Frame, i: Index, level: nat, ghost p: Place, ghost copy: Places,
                      ghost pool: set<Frame>, ghost start: Memory, ghost low: nat)
      returns (ok: bool, ghost copy': Places, ghost q: Place)
      requires Cloning(mem, at, nextSpace, free, total, p, copy, f, i, pool, start) && at[p] == src && Level(p) == level
      requires LowCount(free) + BranchCount(at, p, i) == low
      modifies this`mem, this`free
      ensures ok ==> Cloning(mem, at, nextSpace, free, total, p, copy', f, i + 1, pool, start)
      ensures ok ==> LowCount(free) + BranchCount(at, p, i + 1) == low
      ensures !ok ==> low < BranchCount(at, p, ENTRIES) && Stopped(at, p, q, low + 1, LowCount(free) + 1)
      ensures HighCount(free) == HighCount(old(free))
      ensures !ok ==> Sound(mem, at, nextSpace, free, total) && free <= pool && Untouched(start, mem, pool + {f})
      ensures !ok ==> f !in pool && NotListed(at, f) && 0 < f < total && f < FRAME_LIMIT
      decreases level, 0
    {
      ok, copy', q := true, copy, p;
      BranchCountNext(mem, at, p, i);
      var e := mem[src][i];
      if level == 1 || !e.present || (level == 2 && e.huge) {
        if e.present { mem := mem[f := mem[f][i := e]]; }
        CloneLeafStep(old(mem), mem, at, nextSpace, free, total, p, copy, f, i, pool, start);
        return;
      }
      assert LinkOk(mem, at, p, i);
      var child: Option<Frame>;
      ghost var more;
      child, more, q := CloneTable(e.frame, level - 1, Sub(p, i));
      if child.None? {
        StoppedVia(mem, at, p, i, q, LowCount(old(free)), LowCount(free));
        return false, map[], q;
      }
      ghost var mem1 := mem;
      copy' := copy + more;
      mem := mem[f := mem[f][i := e.(frame := child.value)]];
      CloneLinkStep(old(mem), mem1, mem, at, nextSpace, old(free), free, total,
                    p, copy, more, copy', f, i, pool, start);
    }

    /** A private copy of the kernel's tables: the root frame, or 0. */
    method CreateAddressSpace(kernelRoot: Frame) returns (root: Frame, ghost t: nat, ghost q: Place)
      requires Valid() && at[Root(KERNEL)] == kernelRoot
      modifies this`mem, this`free, this`at, this`nextSpace
      ensures Valid() && t == old(nextSpace) && free <= old(free)
      ensures root == 0 ==> at == old(at) && SameTranslations(old(mem), at, mem, at)
      ensures root != 0 <==> TreeCount(old(at), Root(KERNEL)) <= LowCount(old(free))
      ensures root == 0 ==> Stopped(old(at), Root(KERNEL), q, LowCount(old(free)), LowCount(free))
      ensures root == 0 ==> LowCount(free) <= 3
      ensures root == 0 ==> (free == old(free) <==> LowCount(old(free)) < Spine(old(at), Root(KERNEL), 4))
      ensures root != 0 ==> Created(old(mem), old(at), old(free), mem, at, free, t) && at[Root(t)] == root
    {
      t := nextSpace;
      var dst: Option<Frame>;
      ghost var copy;
      dst, copy, q := CloneTable(kernelRoot, 4, Root(KERNEL));
      nextSpace := nextSpace + 1;
      if dst.None? {
        UntouchedSame(old(mem), mem, at, old(nextSpace), old(free), total);
        StoppedSpine(mem, at, Root(KERNEL), 4, q, LowCount(old(free)), LowCount(free));
        SameFree(old(free), free);
        return 0, t, q;
      }
      CreateSound(old(mem), mem, at, t, old(free), free, total, copy);
      at := at + Moved(copy, KERNEL, t);
      return dst.value, t, q;
    }

    /** Gives back the tables at and below `phys` (place `p`), each exactly once. */
    method DestroyTable(phys: Frame, level: nat, ghost p: Place)
      requires WellFormed(mem, at) && p in at && at[p] == phys && Level(p) == level && Disposable(at, p, free, total)
      modifies this`free
      ensures free == old(free) + TreeFrames(at, p)
      decreases level, 1
    {
      if level > 1 {
        BranchFramesZero(at, p);
        for i := 0 to ENTRIES
          invariant free == old(free) + BranchFrames(at, p, i)
        {
          DestroyBranch(phys, i, level, p, old(free));
        }
      }
      DestroyLast(mem, at, p, old(free), free, total);
      PageAddress(phys);
      GivePage(phys * PAGE_SIZE);
    }

    /** Gives back the tables below entry `i` of the table `phys` (place `p`), if it is a link. */
    method DestroyBranch(phys: Frame, i: Index, level: nat, ghost p: Place, ghost free0: set<Frame>)
      requires WellFormed(mem, at) && p in at && at[p] == phys && Level(p) == level > 1
      requires Disposable(at, p, free0, total) && free == free0 + BranchFrames(at, p, i)
      modifies this`free
      ensures free == free0 + BranchFrames(at, p, i + 1)
      decreases level, 0
    {
      var e := mem[phys][i];
      DestroyStep(mem, at, p, i, free0, free, total);
      if e.present && !(level == 2 && e.huge) { DestroyTable(e.frame, level - 1, Sub(p, i)); }
    }

    /** Gives back all tables of a space other than the kernel's. */
    method DestroyAddressSpace(root: Frame, kernelRoot: Frame, ghost s: nat)
      requires Valid() && Root(s) in at && at[Root(s)] == root && at[Root(KERNEL)] == kernelRoot
      modifies this`free, this`at
      ensures Valid()
      ensures s == KERNEL ==> free == old(free) && at == old(at)
      ensures s != KERNEL ==> free == old(Pool(s)) && at == Without(old(at), s)
      ensures s != KERNEL ==>
        forall t: nat, pg: VPage | t != s :: Look(mem, at, t, pg) == Look(mem, old(at), t, pg)
    {
      assert s != KERNEL ==> root != kernelRoot by {
        var home :| Inverse(at, home);
        assert home[at[Root(s)]] == Root(s) && home[at[Root(KERNEL)]] == Root(KERNEL);
      }
      if root == 0 || root == kernelRoot { return; }
      RemoveSpace(mem, at, s);
      forall x | x in at && Under(x, Root(s)) ensures CanGive(at, x, free, total) { UnderRoot(x, s); }
      DestroyTable(root, 4, Root(s));
      at := Without(at, s);
      DestroySound(mem, old(at), nextSpace, old(free), total, s);
    }

    method RunOne(root: Frame, op: Op, ghost s: nat) returns (r: int)
      requires Valid() && Root(s) in at && at[Root(s)] == root
      modifies this`mem, this`at, this`free
      ensures Valid() && Extends(old(at), at, s) && Pool(s) == old(Pool(s))
      ensures forall t: nat, pg: VPage ::
        Look(mem, at, t, pg) == if t == s then PageNext(Look(old(mem), old(at), t, pg), op, r, pg)
                                else Look(old(mem), old(at), t, pg)
    {
      match op
      case Map(va, phys, flags) =>
        r := MapPage(root, va, phys, flags, s);
        if r == 0 { MappedLeaf(phys, flags); }
      case Unmap(va) => r := UnmapPage(root, va, s);
    }

    /** Any sequence of maps and unmaps in space `s`: its pages translate as the successful ones say, no other
        space's translation changes, and no table frame leaves the pool of free and owned frames. */
    method RunOps(root: Frame, ops: seq<Op>, ghost s: nat) returns (rs: seq<int>)
      requires Valid() && Root(s) in at && at[Root(s)] == root
      modifies this`mem, this`at, this`free
      ensures Valid() && Extends(old(at), at, s) && Pool(s) == old(Pool(s)) && |rs| == |ops|
      ensures forall t: nat, pg: VPage ::
        Look(mem, at, t, pg) == if t == s then PageAfter(Look(old(mem), old(at), t, pg), ops, rs, pg)
                                else Look(old(mem), old(at), t, pg)
    {
      rs := [];
      for i := 0 to |ops|
        invariant Valid() && Extends(old(at), at, s) && Pool(s) == old(Pool(s)) && |rs| == i
        invariant forall t: nat, pg: VPage ::
          Look(mem, at, t, pg) == if t == s then PageAfter(Look(old(mem), old(at), t, pg), ops[..i], rs, pg)
                                  else Look(old(mem), old(at), t, pg)
      {
        var r := RunOne(root, ops[i], s);
        assert ops[..i + 1][..i] == ops[..i] && (rs + [r])[..i] == rs;
        rs := rs + [r];
      }
      assert ops[..|ops|] == ops;
    }

    /** Create, use, destroy: the page manager's free set and every
        translation are as before. */
    method Lifecycle(kernelRoot: Frame, ops: seq<Op>) returns (created: bool)
      requires Valid() && at[Root(KERNEL)] == kernelRoot
      modifies this`mem, this`at, this`free, this`nextSpace
      ensures Valid()
      ensures created <==> TreeCount(old(at), Root(KERNEL)) <= LowCount(old(free))
      ensures free == old(free) <==> created || LowCount(old(free)) < Spine(old(at), Root(KERNEL), 4)
      ensures forall t: nat, pg: VPage | t < old(nextSpace) :: Look(mem, at, t, pg) == Look(old(mem), old(at), t, pg)
    {
      var root;
      ghost var s, q;
      root, s, q := CreateAddressSpace(kernelRoot);
      if root == 0 { return false; }
      ghost var at1 := at;
      var rs := RunOps(root, ops, s);
      assert at[Root(KERNEL)] == kernelRoot;
      DestroyAddressSpace(root, kernelRoot, s);
      return true;
    }

    /** The physical address of `va` in the space rooted at `root`, or 0 if it is not mapped. */
    method VirtToPhys(root: Frame, va: u64) returns (phys: nat)
      ensures phys == Address(Translate(mem, root, PageOf(va)), va)
    {
      var pg := PageOf(va);
      if root >= FRAME_LIMIT { return 0; }
      var e := Entry(mem, root, pg.a);
      if !e.present || e.frame >= FRAME_LIMIT { return 0; }
      e := Entry(mem, e.frame, pg.b);
      if !e.present { return 0; }
      if e.huge {
        GiantAddress(e, va);
        return GiantBase(e) * 4096 + va % 0x4000_0000;
      }
      if e.frame >= FRAME_LIMIT { return 0; }
      e := Entry(mem, e.frame, pg.c);
      if !e.present { return 0; }
      if e.huge {
        HugeAddress(e, va);
        return HugeBase(e) * 4096 + va % 0x20_0000;
      }
      if e.frame >= FRAME_LIMIT { return 0; }
      e := Entry(mem, e.frame, pg.d);
      if !e.present { return 0; }
      return e.frame * 4096 + va % 4096;
    }

    /** A page mapped and looked up: the address asked for comes back exactly when the no-execute bit
        does not leak into it. */
    method MapThenTranslate(root: Frame, va: u64, phys: u64, flags: Flags, off: nat, ghost s: nat)
      returns (r: int, found: nat)
      requires Valid() && Root(s) in at && at[Root(s)] == root && off < 4096 && va + off < 0x1_0000_0000_0000_0000
      modifies this`mem, this`at, this`free
      ensures Valid()
      ensures r == 0 <==>
        && va % 4096 == 0 && phys % 4096 == 0 && Look(old(mem), old(at), s, PageOf(va)).None?
        && Missing(old(at), s, PageOf(va)) <= LowCount(old(free))
      ensures r == 0 ==> (found == phys + off <==> !Leaky(phys, flags))
      ensures r == 0 && Leaky(phys, flags) ==> found == phys + off + BIT63
      ensures r != 0 && va % 4096 == 0 ==> found == Address(Look(old(mem), old(at), s, PageOf(va)), va + off)
    {
      r := MapPage(root, va, phys, flags, s);
      assert Translate(mem, root, PageOf(va)) == Look(mem, at, s, PageOf(va));
      found := VirtToPhys(root, va + off);
      if va % 4096 == 0 {
        InPage(va, off);
        if r == 0 { MappedAddress(va, phys, flags, off); }
      }
    }

    /** A successful map followed by an unmap of the same page restores every translation. */
    method MapThenUnmap(root: Frame, va: u64, phys: u64, flags: Flags, ghost s: nat) returns (mapped: bool)
      requires Valid() && Root(s) in at && at[Root(s)] == root
      modifies this`mem, this`at, this`free
      ensures Valid()
      ensures forall t: nat, pg: VPage :: Look(mem, at, t, pg) == Look(old(mem), old(at), t, pg)
    {
      var r := MapPage(root, va, phys, flags, s);
      if r != 0 { return false; }
      ghost var mem1 := mem;
      assert Look(mem, at, s, PageOf(va)) == LeafOf(LeafEntry(phys, flags));
      r := UnmapPage(root, va, s);
      assert r == 1;
      return true;
    }
  }

  // ---- The bitmap behind the free set ----

  /** A page manager and the free set used here hand out the same page. */
  method TakeFromBoth(m: PageManager, a: AddressSpaces) returns (phys: nat)
    requires m.Valid() && m.ready && a.Valid() && m.free == a.free && m.total == a.total
    modifies m`freePages, m`free, m`used, m.bitmap, a`free
    ensures m.Valid() && a.free == m.free && m.freePages == |a.free|
    ensures if old(a.free) == {} then phys == 0 else IsLowest(phys / PAGE_SIZE, old(a.free)) && phys != 0
  {
    phys := m.AllocPage();
    var same := a.TakePage();
    assert same == phys;
  }

  /** They take back the same page. */
  method GiveToBoth(m: PageManager, a: AddressSpaces, phys: nat)
    requires m.Valid() && m.ready && m.free == a.free && m.total == a.total
    requires phys % PAGE_SIZE == 0 && phys / PAGE_SIZE !in a.free
    modifies m`freePages, m`free, m`used, m.bitmap, a`free
    ensures m.Valid() && a.free == m.free && m.freePages == |a.free|
  {
    m.FreePage(phys);
    a.GivePage(phys);
  }

  /** Frames outside `free` keep their tables. */
  ghost predicate Untouched(mem: Memory, mem': Memory, free: set<Frame>) {
    forall f | f in mem && f !in free :: f in mem' && mem'[f] == mem[f]
  }

  /** `copy` gives one frame to each place, and these are exactly the frames that left the pool. */
  ghost predicate TakenFrom(copy: Places, before: set<Frame>, after: set<Frame>) {
    && after <= before
    && (forall x | x in copy :: copy[x] < FRAME_LIMIT)
    && exists home: map<Frame, Place> :: Bijection(copy, home, before, after)
  }

  ghost predicate Bijection(copy: Places, home: map<Frame, Place>, before: set<Frame>, after: set<Frame>) {
    && Inverse(copy, home)
    && (forall g {:trigger home[g]} | g in home :: home[g] in copy && copy[home[g]] == g)
    && home.Keys == before - after
  }

  /** Entry `i` of frame `g` is a private copy of entry `i` of the table at `p`. */
  ghost predicate EntryCopied(mem: Memory, at: Places, p: Place, copy: Places, g: Frame, i: Index)
    requires p in at
  {
    var e, e' := Entry(mem, at[p], i), Entry(mem, g, i);
    if !e.present then e' == ABSENT
    else if IsLink(Level(p), e) then Sub(p, i) in copy && e' == e.(frame := copy[Sub(p, i)])
    else e' == e
  }

  ghost predicate TablesCopied(mem: Memory, at: Places, copy: Places) {
    && (forall x | x in copy :: x in at && copy[x] in mem)
    && (forall x, i: Index | x in copy :: EntryCopied(mem, at, x, copy, copy[x], i))
  }

  ghost predicate CoversUnder(copy: Places, at: Places, p: Place) {
    forall x {:trigger x in copy} {:trigger x in at} :: x in copy <==> x in at && Under(x, p)
  }

  ghost predicate CoversBelow(copy: Places, at: Places, p: Place, n: nat) {
    forall x {:trigger x in copy} {:trigger x in at} :: x in copy <==> x in at && Below(x, p, n)
  }

  /** `copy` is a complete copy of the tables at and below `p`. */
  ghost predicate IsCopy(mem: Memory, at: Places, p: Place, copy: Places) {
    && CoversUnder(copy, at, p)
    && TablesCopied(mem, at, copy)
  }

  /** `x` lies strictly below `p`, in one of its first `n` branches. */
  predicate Below(x: Place, p: Place, n: nat) {
    x.Sub? && (if x.parent == p then x.i < n else Below(x.parent, p, n))
  }

  /** The state of the copy loop for the table at `p` after `n` entries: `f`
      is the new table, `pool` was free when it had been taken, `start` the
      memory before. */
  ghost predicate Cloning(mem: Memory, at: Places, nextSpace: nat, free: set<Frame>, total: nat,
                          p: Place, copy: Places, f: Frame, n: nat, pool: set<Frame>, start: Memory) {
    && Sound(mem, at, nextSpace, free, total) && p in at
    && f in mem && f !in pool && NotListed(at, f) && 0 < f < FRAME_LIMIT && f < total
    && Untouched(start, mem, pool + {f})
    && CoversBelow(copy, at, p, n)
    && TablesCopied(mem, at, copy) && TakenFrom(copy, pool, free)
    && (forall j: Index | j < n :: EntryCopied(mem, at, p, copy, f, j))
    && (forall j: Index | n <= j :: mem[f][j] == ABSENT)
  }

  /** Copies stay copies while their frames and the originals are left alone. */
  lemma CopiesKeep(mem: Memory, mem': Memory, at: Places, copy: Places, copy': Places)
    requires TablesCopied(mem, at, copy)
    requires forall x | x in copy ::
      copy[x] in mem' && mem'[copy[x]] == mem[copy[x]] && x in copy' && copy'[x] == copy[x]
    requires forall q | q in at :: at[q] in mem && at[q] in mem' && mem'[at[q]] == mem[at[q]]
    ensures forall x, i: Index | x in copy :: x in at && EntryCopied(mem', at, x, copy', copy[x], i)
  {
    forall x, i: Index | x in copy ensures x in at && EntryCopied(mem', at, x, copy', copy[x], i) {
      assert EntryCopied(mem, at, x, copy, copy[x], i);
    }
  }

  /** Writing a table that is not in the forest keeps the invariant. */
  lemma OtherTableSound(mem: Memory, mem': Memory, at: Places, nextSpace: nat, free: set<Frame>, total: nat, f: Frame)
    requires Sound(mem, at, nextSpace, free, total) && NotListed(at, f)
    requires forall g | g in mem && g != f :: g in mem' && mem'[g] == mem[g]
    ensures Sound(mem', at, nextSpace, free, total)
  {
    forall q, j: Index | q in at && Level(q) > 1 ensures LinkOk(mem', at, q, j) {
      assert LinkOk(mem, at, q, j);
    }
  }

  lemma UnderLevel(x: Place, p: Place)
    requires Under(x, p)
    ensures Level(x) <= Level(p) && (x != p ==> Level(x) < Level(p)) && SpaceOf(x) == SpaceOf(p)
  {}

  /** Going from `n` to `n + 1` branches of `p` adds the tables under branch `n`. */
  lemma BelowStep(x: Place, p: Place, n: Index)
    ensures Below(x, p, n + 1) <==> Below(x, p, n) || Under(x, Sub(p, n))
    ensures !(Below(x, p, n) && Under(x, Sub(p, n)))
  {
    if x.Sub? && x.parent != p {
      BelowStep(x.parent, p, n);
    } else if Under(p, Sub(p, n)) {
      UnderLevel(p, Sub(p, n));
    }
  }

  lemma BelowAll(x: Place, p: Place)
    ensures Under(x, p) <==> x == p || Below(x, p, ENTRIES)
  {}

  /** Without a link in entry `i` there is nothing under branch `i`. */
  lemma EmptyBranch(mem: Memory, at: Places, p: Place, i: Index, x: Place)
    requires WellFormed(mem, at) && p in at && x in at && Under(x, Sub(p, i))
    ensures Level(p) > 1 && IsLink(Level(p), Entry(mem, at[p], i))
  {
    if x == Sub(p, i) {
      assert LinkOk(mem, at, p, i);
    } else {
      assert ParentListed(at, x);
      EmptyBranch(mem, at, p, i, x.parent);
    }
  }

  lemma CloneStart(start: Memory, mem: Memory, at: Places, nextSpace: nat, free: set<Frame>, total: nat, p: Place,
                   f: Frame)
    requires Sound(start, at, nextSpace, free, total) && p in at
    requires f in free && 0 < f < FRAME_LIMIT && f < total && mem == start[f := ZeroTable()]
    ensures Cloning(mem, at, nextSpace, free - {f}, total, p, map[], f, 0, free - {f}, start)
  {
    SoundKeeps(start, mem, at, nextSpace, free, free - {f}, total);
    CoversNothing(at, p);
    var none: Places := map[];
    assert Bijection(none, map[], free - {f}, free - {f});
  }

  lemma CoversNothing(at: Places, p: Place)
    ensures CoversBelow(map[], at, p, 0)
  {
    forall x ensures !Below(x, p, 0) { NothingBelow(x, p); }
  }

  lemma NothingBelow(x: Place, p: Place)
    ensures !Below(x, p, 0)
  {}

  lemma {:induction false} CoversSameBranch(mem: Memory, copy: Places, at: Places, p: Place, i: Index)
    requires WellFormed(mem, at) && p in at && CoversBelow(copy, at, p, i) && !IsLink(Level(p), Entry(mem, at[p], i))
    ensures CoversBelow(copy, at, p, i + 1)
  {
    forall x | x in at ensures Below(x, p, i + 1) <==> Below(x, p, i) {
      BelowStep(x, p, i);
      if Under(x, Sub(p, i)) { EmptyBranch(mem, at, p, i, x); }
    }
  }

  lemma CoversNextBranch(copy: Places, more: Places, at: Places, p: Place, i: Index)
    requires CoversBelow(copy, at, p, i) && CoversUnder(more, at, Sub(p, i))
    ensures CoversBelow(copy + more, at, p, i + 1) && copy.Keys !! more.Keys
  {
    forall x | x in at
      ensures Below(x, p, i + 1) <==> x in copy || x in more
      ensures !(x in copy && x in more)
    {
      BelowStep(x, p, i);
    }
  }

  lemma CoversRoot(copy: Places, at: Places, p: Place, f: Frame)
    requires CoversBelow(copy, at, p, ENTRIES) && p in at
    ensures CoversUnder(copy[p := f], at, p) && p !in copy
  {
    forall x | x in at ensures Under(x, p) <==> x == p || x in copy { BelowAll(x, p); }
    if Below(p, p, ENTRIES) { SelfBelow(p, p); }
  }

  lemma SelfBelow(x: Place, p: Place)
    requires Below(x, p, ENTRIES)
    ensures Level(x) < Level(p)
  {}

  lemma {:induction false} CloneLeafStep(mem: Memory, mem': Memory, at: Places, nextSpace: nat, free: set<Frame>,
                                         total: nat,
                      p: Place, copy: Places, f: Frame, i: Index, pool: set<Frame>, start: Memory)
    requires Cloning(mem, at, nextSpace, free, total, p, copy, f, i, pool, start)
    requires !IsLink(Level(p), Entry(mem, at[p], i))
    requires mem' == if Entry(mem, at[p], i).present then mem[f := mem[f][i := Entry(mem, at[p], i)]] else mem
    ensures Cloning(mem', at, nextSpace, free, total, p, copy, f, i + 1, pool, start)
  {
    OtherTableSound(mem, mem', at, nextSpace, free, total, f);
    LeafCopies(mem, mem', at, nextSpace, free, total, p, copy, f, i, pool, start);
    CoversSameBranch(mem, copy, at, p, i);
    LeafEntries(mem, mem', at, p, copy, f, i);
  }

  /** The copies made so far are left alone. */
  lemma {:induction false} LeafCopies(mem: Memory, mem': Memory, at: Places, nextSpace: nat, free: set<Frame>,
                                      total: nat, p: Place, copy: Places, f: Frame, i: Index, pool: set<Frame>,
                                      start: Memory)
    requires Cloning(mem, at, nextSpace, free, total, p, copy, f, i, pool, start)
    requires mem' == if Entry(mem, at[p], i).present then mem[f := mem[f][i := Entry(mem, at[p], i)]] else mem
    ensures TablesCopied(mem', at, copy)
  {
    TakenMembers(copy, pool, free);
    CopiesKeep(mem, mem', at, copy, copy);
  }

  /** One more entry of the new table is a copy. */
  lemma {:induction false} LeafEntries(mem: Memory, mem': Memory, at: Places, p: Place, copy: Places, f: Frame,
                                       i: Index)
    requires p in at && at[p] in mem && at[p] != f && f in mem && !IsLink(Level(p), Entry(mem, at[p], i))
    requires mem' == if Entry(mem, at[p], i).present then mem[f := mem[f][i := Entry(mem, at[p], i)]] else mem
    requires forall j: Index | j < i :: EntryCopied(mem, at, p, copy, f, j)
    requires forall j: Index | i <= j :: mem[f][j] == ABSENT
    ensures forall j: Index | j < i + 1 :: EntryCopied(mem', at, p, copy, f, j)
    ensures forall j: Index | i + 1 <= j :: mem'[f][j] == ABSENT
  {
    forall j: Index | j < i + 1 ensures EntryCopied(mem', at, p, copy, f, j) {
      if j < i { assert EntryCopied(mem, at, p, copy, f, j); }
    }
  }

  lemma {:induction false} CloneLinkStep(mem0: Memory, mem1: Memory, mem': Memory, at: Places, nextSpace: nat,
                      free0: set<Frame>, free1: set<Frame>, total: nat,
                      p: Place, copy: Places, more: Places, copy': Places, f: Frame, i: Index,
                      pool: set<Frame>, start: Memory)
    requires Cloning(mem0, at, nextSpace, free0, total, p, copy, f, i, pool, start)
    requires Level(p) > 1 && IsLink(Level(p), Entry(mem0, at[p], i))
    requires Sound(mem1, at, nextSpace, free1, total) && Untouched(mem0, mem1, free0)
    requires IsCopy(mem1, at, Sub(p, i), more) && TakenFrom(more, free0, free1)
    requires Sub(p, i) in more && f in mem1 && copy' == copy + more
    requires mem' == mem1[f := mem1[f][i := Entry(mem0, at[p], i).(frame := more[Sub(p, i)])]]
    ensures Cloning(mem', at, nextSpace, free1, total, p, copy', f, i + 1, pool, start)
  {
    TakenMembers(copy, pool, free0);
    TakenMembers(more, free0, free1);
    OtherTableSound(mem1, mem', at, nextSpace, free1, total, f);
    LinkCopies(mem0, mem1, mem', at, free0, free1, p, copy, more, f, i, pool);
    CoversNextBranch(copy, more, at, p, i);
    LinkEntries(mem0, mem1, mem', at, free0, p, copy, more, f, i, pool, start);
  }

  lemma LinkCopies(mem0: Memory, mem1: Memory, mem': Memory, at: Places, free0: set<Frame>, free1: set<Frame>,
                   p: Place, copy: Places, more: Places, f: Frame, i: Index, pool: set<Frame>)
    requires CoversBelow(copy, at, p, i) && CoversUnder(more, at, Sub(p, i))
    requires TakenFrom(copy, pool, free0) && TakenFrom(more, free0, free1)
    requires TablesCopied(mem0, at, copy) && TablesCopied(mem1, at, more)
    requires Untouched(mem0, mem1, free0) && (forall q | q in at :: at[q] in mem0 && at[q] !in free0)
    requires NotListed(at, f)
    requires f !in pool && forall g | g in mem1 && g != f :: g in mem' && mem'[g] == mem1[g]
    ensures CoversBelow(copy + more, at, p, i + 1) && TakenFrom(copy + more, pool, free1)
    ensures TablesCopied(mem', at, copy + more)
  {
    CoversNextBranch(copy, more, at, p, i);
    TakenTwice(copy, more, pool, free0, free1);
    TakenMembers(copy, pool, free0);
    TakenMembers(more, free0, free1);
    CopiesKeep(mem0, mem', at, copy, copy + more);
    CopiesKeep(mem1, mem', at, more, copy + more);
  }

  lemma LinkEntries(mem0: Memory, mem1: Memory, mem': Memory, at: Places, free0: set<Frame>,
                    p: Place, copy: Places, more: Places, f: Frame, i: Index, pool: set<Frame>, start: Memory)
    requires p in at && at[p] in mem0 && at[p] !in free0 && at[p] != f && f in mem0 && f !in pool && free0 <= pool
    requires IsLink(Level(p), Entry(mem0, at[p], i)) && Sub(p, i) in more
    requires Untouched(mem0, mem1, free0) && Untouched(start, mem0, pool + {f})
    requires forall j: Index | j < i :: EntryCopied(mem0, at, p, copy, f, j)
    requires forall j: Index | i <= j :: mem0[f][j] == ABSENT
    requires copy.Keys !! more.Keys
    requires f in mem1 && mem' == mem1[f := mem1[f][i := Entry(mem0, at[p], i).(frame := more[Sub(p, i)])]]
    ensures f in mem' && Untouched(start, mem', pool + {f})
    ensures forall j: Index | j < i + 1 :: EntryCopied(mem', at, p, copy + more, f, j)
    ensures forall j: Index | i + 1 <= j :: mem'[f][j] == ABSENT
  {
    EntriesKeep(mem0, mem', at, p, copy, copy + more, f, i);
    assert EntryCopied(mem', at, p, copy + more, f, i);
  }

  lemma EntriesKeep(mem: Memory, mem': Memory, at: Places, p: Place, copy: Places, copy': Places, f: Frame, n: nat)
    requires p in at && at[p] in mem && at[p] in mem' && mem'[at[p]] == mem[at[p]]
    requires f in mem && f in mem' && forall j: Index | j < n :: mem'[f][j] == mem[f][j]
    requires forall x | x in copy :: x in copy' && copy'[x] == copy[x]
    requires forall j: Index | j < n :: EntryCopied(mem, at, p, copy, f, j)
    ensures forall j: Index | j < n :: EntryCopied(mem', at, p, copy', f, j)
  {
    forall j: Index | j < n ensures EntryCopied(mem', at, p, copy', f, j) {
      assert EntryCopied(mem, at, p, copy, f, j);
    }
  }

  /** When a child cannot be copied the new table is given back, the copies made so far are not. */
  lemma CloneAbort(mem: Memory, at: Places, nextSpace: nat, free: set<Frame>, total: nat, f: Frame, pool: set<Frame>)
    requires Sound(mem, at, nextSpace, free, total) && free <= pool && NotListed(at, f) && 0 < f < total && f !in pool
    ensures Sound(mem, at, nextSpace, free + {f}, total) && free + {f} <= pool + {f}
    ensures f * PAGE_SIZE / PAGE_SIZE == f && f * PAGE_SIZE % PAGE_SIZE == 0
  {
    PageAddress(f);
  }

  lemma TakenMembers(copy: Places, before: set<Frame>, after: set<Frame>)
    requires TakenFrom(copy, before, after)
    ensures forall x | x in copy :: copy[x] in before && copy[x] !in after
  {
    var home :| Bijection(copy, home, before, after);
    forall x | x in copy ensures copy[x] in before && copy[x] !in after { assert copy[x] in home.Keys; }
  }

  lemma TakenTwice(copy: Places, more: Places, f0: set<Frame>, f1: set<Frame>, f2: set<Frame>)
    requires TakenFrom(copy, f0, f1) && TakenFrom(more, f1, f2) && copy.Keys !! more.Keys
    ensures TakenFrom(copy + more, f0, f2)
  {
    var h1 :| Bijection(copy, h1, f0, f1);
    var h2 :| Bijection(more, h2, f1, f2);
    assert Bijection(copy + more, h1 + h2, f0, f2);
  }

  lemma TakenOneMore(copy: Places, p: Place, f: Frame, pool: set<Frame>, free: set<Frame>)
    requires TakenFrom(copy, pool, free) && p !in copy && f !in pool && f < FRAME_LIMIT
    ensures TakenFrom(copy[p := f], pool + {f}, free)
  {
    var home :| Bijection(copy, home, pool, free);
    assert Bijection(copy[p := f], home[f := p], pool + {f}, free);
  }

  lemma CloneFinish(mem: Memory, at: Places, nextSpace: nat, free: set<Frame>, total: nat,
                    p: Place, copy: Places, f: Frame, pool: set<Frame>, start: Memory)
    requires Cloning(mem, at, nextSpace, free, total, p, copy, f, ENTRIES, pool, start)
    ensures IsCopy(mem, at, p, copy[p := f])
    ensures TakenFrom(copy[p := f], pool + {f}, free)
    ensures Untouched(start, mem, pool + {f}) && free <= pool + {f}
  {
    var copy' := copy[p := f];
    CoversRoot(copy, at, p, f);
    TakenOneMore(copy, p, f, pool, free);
    assert TablesCopied(mem, at, copy') by {
      CopiesKeep(mem, mem, at, copy, copy');
      EntriesKeep(mem, mem, at, p, copy, copy', f, ENTRIES);
    }
  }

  lemma SoundKeeps(mem: Memory, mem': Memory, at: Places, nextSpace: nat, free: set<Frame>, free': set<Frame>,
                   total: nat)
    requires Sound(mem, at, nextSpace, free, total) && free' <= free
    requires Untouched(mem, mem', free)
    ensures Sound(mem', at, nextSpace, free', total)
  {
    forall q, j: Index | q in at && Level(q) > 1 ensures LinkOk(mem', at, q, j) {
      assert LinkOk(mem, at, q, j);
    }
  }

  // ---- Moving a copy into its own space ----

  /** The same position in space `t`. */
  function Move(p: Place, t: nat): Place { if p.Root? then Root(t) else Sub(Move(p.parent, t), p.i) }

  /** The copies, listed at their places in space `t`. */
  ghost function Moved(copy: Places, s: nat, t: nat): Places {
    map y | y in (set x | x in copy :: Move(x, t)) && Move(y, s) in copy :: copy[Move(y, s)]
  }

  /** The table frames at and below `p`, and those below its first `n` branches. */
  ghost function TreeFrames(at: Places, p: Place): set<Frame> { set x | x in at && Under(x, p) :: at[x] }
  ghost function BranchFrames(at: Places, p: Place, n: nat): set<Frame> { set x | x in at && Below(x, p, n) :: at[x] }

  lemma MoveBack(p: Place, s: nat, t: nat)
    ensures Move(Move(p, t), s) == Move(p, s) && Level(Move(p, t)) == Level(p) && SpaceOf(Move(p, t)) == t
    ensures SpaceOf(p) == s ==> Move(p, s) == p
  {}

  lemma BranchFramesZero(at: Places, p: Place)
    ensures BranchFrames(at, p, 0) == {}
  {
    forall x ensures !Below(x, p, 0) { NothingBelow(x, p); }
  }

  lemma UnderTrans(x: Place, p: Place, i: Index)
    requires Under(x, Sub(p, i))
    ensures Under(x, p)
  {}

  lemma BranchFramesNext(mem: Memory, at: Places, p: Place, i: Index)
    requires WellFormed(mem, at) && p in at
    ensures BranchFrames(at, p, i + 1) == BranchFrames(at, p, i) + TreeFrames(at, Sub(p, i))
    ensures !IsLink(Level(p), Entry(mem, at[p], i)) ==> TreeFrames(at, Sub(p, i)) == {}
  {
    forall x | x in at
      ensures Below(x, p, i + 1) <==> Below(x, p, i) || Under(x, Sub(p, i))
      ensures Under(x, Sub(p, i)) ==> IsLink(Level(p), Entry(mem, at[p], i))
    {
      BelowStep(x, p, i);
      if Under(x, Sub(p, i)) { EmptyBranch(mem, at, p, i, x); }
    }
  }

  lemma BranchApart(mem: Memory, at: Places, p: Place, i: Index, x: Place)
    requires WellFormed(mem, at) && x in at && Under(x, Sub(p, i))
    ensures at[x] !in BranchFrames(at, p, i)
  {
    var home :| Inverse(at, home);
    if at[x] in BranchFrames(at, p, i) {
      var y :| y in at && Below(y, p, i) && at[y] == at[x];
      assert home[at[x]] == x && home[at[y]] == y;
      BelowStep(x, p, i);
      assert false;
    }
  }

  lemma TreeFramesAll(mem: Memory, at: Places, p: Place)
    requires WellFormed(mem, at) && p in at
    ensures TreeFrames(at, p) == BranchFrames(at, p, ENTRIES) + {at[p]}
    ensures at[p] !in BranchFrames(at, p, ENTRIES)
    ensures Level(p) == 1 ==> BranchFrames(at, p, ENTRIES) == {}
  {
    var home :| Inverse(at, home);
    forall x | x in at
      ensures Under(x, p) <==> x == p || Below(x, p, ENTRIES)
      ensures Below(x, p, ENTRIES) ==> at[x] != at[p] && Level(p) > 1
    {
      BelowAll(x, p);
      if Below(x, p, ENTRIES) {
        SelfBelow(x, p);
        assert home[at[x]] == x && home[at[p]] == p;
      }
    }
  }

  // ---- How many tables, and how many frames for them ----

  /** The free frames that a table can use. */
  ghost function LowFrames(free: set<Frame>): set<Frame> { set f | f in free && f < FRAME_LIMIT }
  ghost function LowCount(free: set<Frame>): nat { |LowFrames(free)| }

  lemma NoneLow(free: set<Frame>)
    ensures LowCount(free) == 0 <==> forall f | f in free :: f >= FRAME_LIMIT
  {
    if f :| f in free && f < FRAME_LIMIT { assert f in LowFrames(free); }
    else { assert LowFrames(free) == {}; }
  }

  lemma LowTaken(free: set<Frame>, f: Frame)
    requires f in free && f < FRAME_LIMIT
    ensures LowCount(free - {f}) + 1 == LowCount(free)
  {
    assert LowFrames(free - {f}) == LowFrames(free) - {f};
  }

  lemma LowGiven(free: set<Frame>, f: Frame)
    requires f !in free && f < FRAME_LIMIT
    ensures LowCount(free + {f}) == LowCount(free) + 1
  {
    assert LowFrames(free + {f}) == LowFrames(free) + {f};
  }

  ghost function TreePlaces(at: Places, p: Place): set<Place> { set x | x in at && Under(x, p) }
  ghost function BranchPlaces(at: Places, p: Place, n: nat): set<Place> { set x | x in at && Below(x, p, n) }

  /** The tables at and below `p`, and those in its first `n` branches. */
  ghost function TreeCount(at: Places, p: Place): nat { |TreePlaces(at, p)| }
  ghost function BranchCount(at: Places, p: Place, n: nat): nat { |BranchPlaces(at, p, n)| }

  lemma {:induction false} BranchCountNext(mem: Memory, at: Places, p: Place, i: Index)
    requires WellFormed(mem, at) && p in at
    ensures BranchCount(at, p, i + 1) == BranchCount(at, p, i) + TreeCount(at, Sub(p, i))
    ensures !IsLink(Level(p), Entry(mem, at[p], i)) ==> TreeCount(at, Sub(p, i)) == 0
  {
    forall x | x in at
      ensures Below(x, p, i + 1) <==> Below(x, p, i) || Under(x, Sub(p, i))
      ensures !(Below(x, p, i) && Under(x, Sub(p, i)))
      ensures Under(x, Sub(p, i)) ==> IsLink(Level(p), Entry(mem, at[p], i))
    {
      BelowStep(x, p, i);
      if Under(x, Sub(p, i)) { EmptyBranch(mem, at, p, i, x); }
    }
    assert BranchPlaces(at, p, i + 1) == BranchPlaces(at, p, i) + TreePlaces(at, Sub(p, i));
    assert BranchPlaces(at, p, i) !! TreePlaces(at, Sub(p, i));
  }

  lemma {:induction false} BranchCountUpTo(at: Places, p: Place, n: nat, k: nat)
    requires n <= k
    ensures BranchCount(at, p, n) <= BranchCount(at, p, k)
  {
    var some, all := BranchPlaces(at, p, n), BranchPlaces(at, p, k);
    forall x | x in some ensures x in all { BelowMore(x, p, n, k); }
    assert all == some + (all - some);
  }

  lemma {:induction false} BelowMore(x: Place, p: Place, n: nat, k: nat)
    requires n <= k && Below(x, p, n)
    ensures Below(x, p, k)
  {
    if x.parent != p { BelowMore(x.parent, p, n, k); }
  }

  // ---- What a failed copy gives back ----

  /** The free frames that no table can use. */
  ghost function HighCount(free: set<Frame>): nat { |set f | f in free && f >= FRAME_LIMIT| }

  lemma HighTaken(free: set<Frame>, f: Frame)
    requires f < FRAME_LIMIT
    ensures HighCount(free - {f}) == HighCount(free) == HighCount(free + {f})
  {
    var high := set x | x in free && x >= FRAME_LIMIT;
    assert high == set x | x in free - {f} && x >= FRAME_LIMIT;
    assert high == set x | x in free + {f} && x >= FRAME_LIMIT;
  }

  lemma SameFree(free0: set<Frame>, free: set<Frame>)
    requires free <= free0 && HighCount(free) == HighCount(free0)
    ensures free == free0 <==> LowCount(free) == LowCount(free0)
  {
    LowAndHigh(free);
    LowAndHigh(free0);
    assert free0 == free + (free0 - free);
  }

  lemma LowAndHigh(free: set<Frame>)
    ensures |free| == LowCount(free) + HighCount(free)
  {
    var high := set f | f in free && f >= FRAME_LIMIT;
    assert free == LowFrames(free) + high;
  }

  /** The tables at and below `p` that are copied before the one at `q`. */
  ghost function Before(at: Places, p: Place, q: Place): nat {
    if q == p || q.Root? then 0 else Before(at, p, q.parent) + 1 + BranchCount(at, q.parent, q.i)
  }

  /** The copy of `p` with `low` usable frames found none for the table at `q`: only the copies of the tables
      above `q` are given back. */
  ghost predicate Stopped(at: Places, p: Place, q: Place, low: nat, left: nat) {
    q in at && Under(q, p) && low == Before(at, p, q) && left == Level(p) - Level(q)
  }

  lemma {:induction false} BeforeVia(at: Places, p: Place, i: Index, q: Place)
    requires Under(q, Sub(p, i))
    ensures Under(q, p) && Before(at, p, q) == Before(at, Sub(p, i), q) + BranchCount(at, p, i) + 1
  {
    UnderTrans(q, p, i);
    UnderLevel(q, Sub(p, i));
    if q != Sub(p, i) { BeforeVia(at, p, i, q.parent); }
  }

  lemma StoppedVia(mem: Memory, at: Places, p: Place, i: Index, q: Place, low: nat, left: nat)
    requires WellFormed(mem, at) && p in at && low < TreeCount(at, Sub(p, i)) && Stopped(at, Sub(p, i), q, low, left)
    ensures low + BranchCount(at, p, i) < BranchCount(at, p, ENTRIES)
    ensures Stopped(at, p, q, low + BranchCount(at, p, i) + 1, left + 1)
  {
    BranchCountNext(mem, at, p, i);
    BranchCountUpTo(at, p, i + 1, ENTRIES);
    BeforeVia(at, p, i, q);
  }

  lemma StoppedHere(at: Places, p: Place)
    requires p in at
    ensures Stopped(at, p, p, 0, 0)
  {}

  /** The first link of the table at `p`, from entry `i` on. */
  ghost function FirstLink(at: Places, p: Place, i: nat): (k: nat)
    requires i <= ENTRIES
    ensures i <= k <= ENTRIES
    decreases ENTRIES - i
  {
    if i == ENTRIES || Sub(p, i) in at then i else FirstLink(at, p, i + 1)
  }

  /** The tables on the path of first links down from `p`. */
  ghost function Spine(at: Places, p: Place, level: nat): (n: nat)
    ensures n >= 1
    decreases level
  {
    if level <= 1 || FirstLink(at, p, 0) == ENTRIES then 1
    else 1 + Spine(at, Sub(p, FirstLink(at, p, 0)), level - 1)
  }

  lemma {:induction false} BranchHolds(mem: Memory, at: Places, p: Place, k: Index, n: nat)
    requires WellFormed(mem, at) && p in at && k < n
    ensures TreeCount(at, Sub(p, k)) <= BranchCount(at, p, n)
  {
    BranchCountNext(mem, at, p, k);
    BranchCountUpTo(at, p, k + 1, n);
  }

  /** A branch has tables exactly if its entry is a link. */
  lemma {:induction false} TreeCountSome(mem: Memory, at: Places, p: Place, i: Index)
    requires WellFormed(mem, at) && p in at && Level(p) > 1
    ensures TreeCount(at, Sub(p, i)) > 0 <==> Sub(p, i) in at
  {
    assert LinkOk(mem, at, p, i);
    BranchCountNext(mem, at, p, i);
    if Sub(p, i) in at { assert Sub(p, i) in TreePlaces(at, Sub(p, i)); }
  }

  /** No table is in the branches before the first link. */
  lemma {:induction false} BeforeFirst(mem: Memory, at: Places, p: Place, i: nat)
    requires WellFormed(mem, at) && p in at && Level(p) > 1 && i <= ENTRIES && BranchCount(at, p, i) == 0
    ensures BranchCount(at, p, FirstLink(at, p, i)) == 0
    ensures FirstLink(at, p, i) < ENTRIES ==> Sub(p, FirstLink(at, p, i)) in at
    decreases ENTRIES - i
  {
    if i < ENTRIES && Sub(p, i) !in at {
      BranchCountNext(mem, at, p, i);
      TreeCountSome(mem, at, p, i);
      BeforeFirst(mem, at, p, i + 1);
    }
  }

  lemma {:induction false} FirstLinkLeast(at: Places, p: Place, i: nat, k: Index)
    requires i <= k && Sub(p, k) in at
    ensures FirstLink(at, p, i) <= k
    decreases k - i
  {
    if i < k { FirstLinkLeast(at, p, i + 1, k); }
  }

  lemma {:induction false} SpineShort(mem: Memory, at: Places, p: Place, level: nat)
    requires WellFormed(mem, at) && p in at && Level(p) == level
    ensures Spine(at, p, level) <= TreeCount(at, p)
    decreases level
  {
    TreeCountAll(mem, at, p);
    var k := FirstLink(at, p, 0);
    if level > 1 && k < ENTRIES {
      BeforeFirst(mem, at, p, 0);
      SpineShort(mem, at, Sub(p, k), level - 1);
      BranchHolds(mem, at, p, k, ENTRIES);
    }
  }

  /** The branch of `p` that holds `q`. */
  lemma {:induction false} BranchOf(mem: Memory, at: Places, p: Place, q: Place) returns (i: Index)
    requires WellFormed(mem, at) && q in at && Under(q, p) && q != p
    ensures Under(q, Sub(p, i)) && Sub(p, i) in at && p in at && Level(p) > 1
  {
    assert ParentListed(at, q);
    if q.parent == p { i := q.i; } else { i := BranchOf(mem, at, p, q.parent); }
  }

  /** A copy that stops at `q` gives back every frame exactly if it had fewer than the path of first links takes. */
  lemma {:induction false} StoppedSpine(mem: Memory, at: Places, p: Place, level: nat, q: Place, low: nat, left: nat)
    requires WellFormed(mem, at) && p in at && Level(p) == level && Stopped(at, p, q, low, left)
    ensures left <= low && left < level && (left == low <==> low < Spine(at, p, level))
    decreases level
  {
    if q != p {
      var i := BranchOf(mem, at, p, q);
      BeforeVia(at, p, i, q);
      UnderLevel(q, Sub(p, i));
      StoppedSpine(mem, at, Sub(p, i), level - 1, q, Before(at, Sub(p, i), q), left - 1);
      SpineStep(mem, at, p, level, i);
    }
  }

  /** The first link leads on along the path; a later one comes after all of it. */
  lemma {:induction false} SpineStep(mem: Memory, at: Places, p: Place, level: nat, i: Index)
    requires WellFormed(mem, at) && p in at && Level(p) == level > 1 && Sub(p, i) in at
    ensures BranchCount(at, p, i) == 0 ==> Spine(at, p, level) == 1 + Spine(at, Sub(p, i), level - 1)
    ensures BranchCount(at, p, i) > 0 ==> Spine(at, p, level) <= 1 + BranchCount(at, p, i)
  {
    TreeCountAll(mem, at, p);
    BeforeFirst(mem, at, p, 0);
    FirstLinkLeast(at, p, 0, i);
    var k := FirstLink(at, p, 0);
    if k < i {
      SpineShort(mem, at, Sub(p, k), level - 1);
      BranchHolds(mem, at, p, k, i);
      TreeCountSome(mem, at, p, k);
    }
  }

  lemma {:induction false} TreeCountAll(mem: Memory, at: Places, p: Place)
    requires WellFormed(mem, at) && p in at
    ensures TreeCount(at, p) == 1 + BranchCount(at, p, ENTRIES) && BranchCount(at, p, 0) == 0
  {
    forall x | x in at
      ensures Under(x, p) <==> x == p || Below(x, p, ENTRIES)
      ensures !Below(p, p, ENTRIES) && !Below(x, p, 0)
    {
      BelowAll(x, p);
      NothingBelow(x, p);
      if Below(p, p, ENTRIES) { SelfBelow(p, p); }
    }
    assert TreePlaces(at, p) == BranchPlaces(at, p, ENTRIES) + {p} && BranchPlaces(at, p, 0) == {};
  }

  /** The frame of place `x` may be given back. */
  predicate CanGive(at: Places, x: Place, free: set<Frame>, total: nat) {
    x in at && 0 < at[x] < total && at[x] !in free
  }

  /** Every frame at and below `p` may be given back. */
  ghost predicate Disposable(at: Places, p: Place, free: set<Frame>, total: nat) {
    forall x {:trigger CanGive(at, x, free, total)} | x in at && Under(x, p) :: CanGive(at, x, free, total)
  }

  lemma {:induction false} DestroyStep(mem: Memory, at: Places, p: Place, i: Index, free0: set<Frame>, free: set<Frame>,
                                       total: nat)
    requires WellFormed(mem, at) && p in at && Level(p) > 1 && Disposable(at, p, free0, total)
    requires free == free0 + BranchFrames(at, p, i)
    ensures Disposable(at, Sub(p, i), free, total)
    ensures free + TreeFrames(at, Sub(p, i)) == free0 + BranchFrames(at, p, i + 1)
    ensures var e := Entry(mem, at[p], i);
      if IsLink(Level(p), e) then Sub(p, i) in at && at[Sub(p, i)] == e.frame
      else free == free0 + BranchFrames(at, p, i + 1)
  {
    BranchFramesNext(mem, at, p, i);
    assert LinkOk(mem, at, p, i);
    forall x | x in at && Under(x, Sub(p, i)) ensures CanGive(at, x, free, total) {
      UnderTrans(x, p, i);
      assert CanGive(at, x, free0, total);
      BranchApart(mem, at, p, i, x);
    }
  }

  lemma {:induction false} DestroyLast(mem: Memory, at: Places, p: Place, free0: set<Frame>, free: set<Frame>,
                                       total: nat)
    requires WellFormed(mem, at) && p in at && Disposable(at, p, free0, total)
    requires free == if Level(p) > 1 then free0 + BranchFrames(at, p, ENTRIES) else free0
    ensures 0 < at[p] < total && at[p] !in free && free + {at[p]} == free0 + TreeFrames(at, p)
  {
    TreeFramesAll(mem, at, p);
    assert CanGive(at, p, free0, total);
  }

  lemma UntouchedSame(mem: Memory, mem': Memory, at: Places, nextSpace: nat, free: set<Frame>, total: nat)
    requires Sound(mem, at, nextSpace, free, total) && Untouched(mem, mem', free)
    ensures SameTranslations(mem, at, mem', at)
  {
    SoundKeeps(mem, mem', at, nextSpace, free, free, total);
    forall s: nat, pg: VPage ensures Look(mem', at, s, pg) == Look(mem, at, s, pg) {
      WalkFollowsPlaces(mem, at, s, pg);
      WalkFollowsPlaces(mem', at, s, pg);
    }
  }

  lemma UnderRoot(x: Place, s: nat)
    ensures Under(x, Root(s)) <==> SpaceOf(x) == s
  {}

  /** The moved copy: its places are those of the kernel's space, renamed. */
  lemma MovedPlaces(at: Places, copy: Places, s: nat, t: nat)
    requires CoversUnder(copy, at, Root(s))
    ensures forall y {:trigger y in Moved(copy, s, t)} ::
      y in Moved(copy, s, t) <==> SpaceOf(y) == t && Move(y, s) in at
    ensures forall y {:trigger Moved(copy, s, t)[y]} | y in Moved(copy, s, t) ::
      Move(y, s) in copy && Moved(copy, s, t)[y] == copy[Move(y, s)]
  {
    var keys := set x | x in copy :: Move(x, t);
    forall x | x in copy ensures Move(Move(x, t), s) == x && SpaceOf(Move(x, t)) == t && x in at {
      UnderRoot(x, s);
      MoveBack(x, s, t);
    }
    forall y ensures y in keys <==> SpaceOf(y) == t && Move(y, s) in at {
      MoveBack(y, t, s);
      UnderRoot(Move(y, s), s);
      if y in keys {
        var x :| x in copy && Move(x, t) == y;
      }
      if SpaceOf(y) == t && Move(y, s) in at { assert Move(y, s) in copy && Move(Move(y, s), t) == y; }
    }
  }

  lemma MovedOneToOne(copy: Places, s: nat, t: nat, home: map<Frame, Place>)
    requires Inverse(copy, home) && forall x | x in copy :: SpaceOf(x) == s
    ensures OneToOne(Moved(copy, s, t))
  {
    var moved := Moved(copy, s, t);
    var home' := map f | f in home :: Move(home[f], t);
    forall y | y in moved ensures moved[y] in home' && home'[moved[y]] == y {
      MoveBack(y, t, s);
      var x :| x in copy && Move(x, t) == y;
      MoveBack(x, s, t);
    }
    assert Inverse(moved, home');
  }

  /** The facts that make a finished copy into an address space of its own. */
  ghost predicate Ready(mem: Memory, at: Places, t: nat, copy: Places, pool: set<Frame>) {
    && WellFormed(mem, at) && IsCopy(mem, at, Root(KERNEL), copy) && OneToOne(copy) && Root(KERNEL) in at
    && (forall q | q in at :: SpaceOf(q) < t)
    && (forall q | q in at :: at[q] !in pool)
    && (forall x | x in copy :: copy[x] in pool && copy[x] < FRAME_LIMIT)
  }

  lemma {:induction false} MovedLink(mem: Memory, at: Places, t: nat, copy: Places, pool: set<Frame>, y: Place,
                                     i: Index)
    requires Ready(mem, at, t, copy, pool) && y in Moved(copy, KERNEL, t) && Level(y) > 1
    ensures LinkOk(mem, at + Moved(copy, KERNEL, t), y, i)
  {
    MovedPlaces(at, copy, KERNEL, t);
    var x := Move(y, KERNEL);
    MoveBack(y, KERNEL, KERNEL);
    MoveBack(y, t, KERNEL);
    assert x in copy && x in at && Level(x) == Level(y);
    assert LinkOk(mem, at, x, i) && EntryCopied(mem, at, x, copy, copy[x], i);
    assert Move(Sub(y, i), KERNEL) == Sub(x, i);
  }

  lemma CreateWellFormed(mem: Memory, at: Places, t: nat, copy: Places, pool: set<Frame>)
    requires Ready(mem, at, t, copy, pool)
    ensures WellFormed(mem, at + Moved(copy, KERNEL, t))
    ensures at.Keys !! Moved(copy, KERNEL, t).Keys
  {
    var moved := Moved(copy, KERNEL, t);
    var u := at + moved;
    MovedPlaces(at, copy, KERNEL, t);
    var home :| Inverse(copy, home);
    forall x | x in copy ensures SpaceOf(x) == KERNEL { UnderRoot(x, KERNEL); }
    MovedOneToOne(copy, KERNEL, t, home);
    OneToOneUnion(at, moved, pool);
    forall y | y in moved ensures Level(y) >= 1 && moved[y] in mem { MoveBack(y, KERNEL, KERNEL); }
    forall y | ParentListed(u, y) ensures y.parent in u {
      if y in moved { assert ParentListed(at, Move(y, KERNEL)); } else { assert ParentListed(at, y); }
    }
    forall y, i: Index | y in u && Level(y) > 1 ensures LinkOk(mem, u, y, i) {
      if y in moved { MovedLink(mem, at, t, copy, pool, y, i); } else { assert LinkOk(mem, at, y, i); }
    }
  }

  /** The places of a page in two spaces, level by level. */
  lemma MoveDown(t: nat, pg: VPage)
    ensures var y3, y2, y1 := L3(t, pg.a), L2(t, pg.a, pg.b), L1(t, pg.a, pg.b, pg.c);
      var x3, x2, x1 := L3(KERNEL, pg.a), L2(KERNEL, pg.a, pg.b), L1(KERNEL, pg.a, pg.b, pg.c);
      && Move(y3, KERNEL) == x3 && Move(y2, KERNEL) == x2 && Move(y1, KERNEL) == x1
  {
    assert Move(Root(t), KERNEL) == Root(KERNEL);
    assert Move(L3(t, pg.a), KERNEL) == L3(KERNEL, pg.a);
    assert Move(L2(t, pg.a, pg.b), KERNEL) == L2(KERNEL, pg.a, pg.b);
  }

  lemma {:induction false} CreateLook(mem: Memory, at: Places, t: nat, copy: Places, pool: set<Frame>, s: nat,
                                      pg: VPage)
    requires Ready(mem, at, t, copy, pool)
    ensures s != t ==> Look(mem, at + Moved(copy, KERNEL, t), s, pg) == Look(mem, at, s, pg)
    ensures Look(mem, at + Moved(copy, KERNEL, t), t, pg) == Look(mem, at, KERNEL, pg)
  {
    CreateWellFormed(mem, at, t, copy, pool);
    MovedPlaces(at, copy, KERNEL, t);
    var u := at + Moved(copy, KERNEL, t);
    if s != t { assert Root(s) !in Moved(copy, KERNEL, t); }
    WalkFollowsPlaces(mem, at, KERNEL, pg);
    WalkFollowsPlaces(mem, u, t, pg);
    var y2, y1 := L2(t, pg.a, pg.b), L1(t, pg.a, pg.b, pg.c);
    var x2, x1 := L2(KERNEL, pg.a, pg.b), L1(KERNEL, pg.a, pg.b, pg.c);
    MoveDown(t, pg);
    PlacesOf(t, pg);
    PlacesOf(KERNEL, pg);
    UnderRoot(x2, KERNEL);
    UnderRoot(x1, KERNEL);
    if x2 in at { assert EntryCopied(mem, at, x2, copy, copy[x2], pg.c); }
    if x1 in at { assert EntryCopied(mem, at, x1, copy, copy[x1], pg.d); }
  }

  /** What `CreateAddressSpace` promises of its new space `t`. */
  ghost predicate Created(mem0: Memory, at: Places, free0: set<Frame>, mem: Memory, u: Places, free: set<Frame>,
                          t: nat) {
    && Root(t) in u
    && (forall q | q in at :: q in u && u[q] == at[q])
    && (forall q | q in u && q !in at :: SpaceOf(q) == t && u[q] in free0)
    && (forall s: nat, pg: VPage | s != t :: Look(mem, u, s, pg) == Look(mem0, at, s, pg))
    && (forall pg: VPage :: Look(mem, u, t, pg) == Look(mem0, at, KERNEL, pg))
    && free + SpaceFrames(u, t) == free0
  }

  lemma CreatePool(at: Places, t: nat, free0: set<Frame>, free: set<Frame>, copy: Places)
    requires CoversUnder(copy, at, Root(KERNEL)) && TakenFrom(copy, free0, free)
    requires forall q | q in at :: SpaceOf(q) < t
    ensures free + SpaceFrames(at + Moved(copy, KERNEL, t), t) == free0
  {
    var u := at + Moved(copy, KERNEL, t);
    var home :| Bijection(copy, home, free0, free);
    forall f | f in free0 && f !in free ensures f in SpaceFrames(u, t) {
      assert f in home.Keys;
      MovedFrame(at, t, copy, home[f]);
    }
    forall f | f in SpaceFrames(u, t) ensures f in free0 { FromPool(at, t, free0, free, copy, f); }
  }

  lemma FromPool(at: Places, t: nat, free0: set<Frame>, free: set<Frame>, copy: Places, f: Frame)
    requires CoversUnder(copy, at, Root(KERNEL)) && TakenFrom(copy, free0, free)
    requires forall q | q in at :: SpaceOf(q) < t
    requires f in SpaceFrames(at + Moved(copy, KERNEL, t), t)
    ensures f in free0
  {
    var u := at + Moved(copy, KERNEL, t);
    var y :| y in u && SpaceOf(y) == t && u[y] == f;
    MovedPlaces(at, copy, KERNEL, t);
    TakenMembers(copy, free0, free);
    assert Move(y, KERNEL) in copy && copy[Move(y, KERNEL)] == f;
  }

  lemma MovedFrame(at: Places, t: nat, copy: Places, x: Place)
    requires CoversUnder(copy, at, Root(KERNEL)) && x in copy
    ensures copy[x] in SpaceFrames(at + Moved(copy, KERNEL, t), t)
  {
    var u := at + Moved(copy, KERNEL, t);
    MovedPlaces(at, copy, KERNEL, t);
    UnderRoot(x, KERNEL);
    MoveBack(x, KERNEL, t);
    assert Move(x, t) in Moved(copy, KERNEL, t) && u[Move(x, t)] == copy[x];
  }

  lemma CreateSound(mem0: Memory, mem: Memory, at: Places, t: nat, free0: set<Frame>, free: set<Frame>, total: nat,
                    copy: Places)
    requires Sound(mem0, at, t, free0, total) && Sound(mem, at, t, free, total) && Untouched(mem0, mem, free0)
    requires IsCopy(mem, at, Root(KERNEL), copy) && TakenFrom(copy, free0, free)
    ensures var u := at + Moved(copy, KERNEL, t);
      && Sound(mem, u, t + 1, free, total)
      && Root(t) in u && u[Root(t)] == copy[Root(KERNEL)]
      && Created(mem0, at, free0, mem, u, free, t)
  {
    assert Ready(mem, at, t, copy, free0) by {
      TakenMembers(copy, free0, free);
      var home :| Bijection(copy, home, free0, free);
      assert Inverse(copy, home);
    }
    CreatePool(at, t, free0, free, copy);
    CreateTranslations(mem0, mem, at, t, free0, total, copy);
    CreatePlaces(mem, at, t, free0, free, total, copy);
  }

  lemma CreatePlaces(mem: Memory, at: Places, t: nat, free0: set<Frame>, free: set<Frame>, total: nat, copy: Places)
    requires Sound(mem, at, t, free, total) && Ready(mem, at, t, copy, free0) && TakenFrom(copy, free0, free)
    requires forall f | f in free0 :: 0 < f < total
    ensures var u := at + Moved(copy, KERNEL, t);
      && Sound(mem, u, t + 1, free, total)
      && Root(t) in u && u[Root(t)] == copy[Root(KERNEL)]
      && (forall q | q in at :: q in u && u[q] == at[q])
      && (forall q | q in u && q !in at :: SpaceOf(q) == t && u[q] in free0)
  {
    CreateWellFormed(mem, at, t, copy, free0);
    TakenMembers(copy, free0, free);
    MovedPlaces(at, copy, KERNEL, t);
    assert Move(Root(t), KERNEL) == Root(KERNEL);
  }

  lemma CreateTranslations(mem0: Memory, mem: Memory, at: Places, t: nat, free0: set<Frame>, total: nat, copy: Places)
    requires Sound(mem0, at, t, free0, total) && Untouched(mem0, mem, free0) && Ready(mem, at, t, copy, free0)
    ensures var u := at + Moved(copy, KERNEL, t);
      && (forall s: nat, pg: VPage | s != t :: Look(mem, u, s, pg) == Look(mem0, at, s, pg))
      && (forall pg: VPage :: Look(mem, u, t, pg) == Look(mem0, at, KERNEL, pg))
  {
    UntouchedSame(mem0, mem, at, t, free0, total);
    forall s: nat, pg: VPage
      ensures s != t ==> Look(mem, at + Moved(copy, KERNEL, t), s, pg) == Look(mem0, at, s, pg)
      ensures Look(mem, at + Moved(copy, KERNEL, t), t, pg) == Look(mem0, at, KERNEL, pg)
    {
      CreateLook(mem, at, t, copy, free0, s, pg);
    }
  }

  // ---- Removing a space ----

  ghost function Without(at: Places, s: nat): Places { map q | q in at && SpaceOf(q) != s :: at[q] }

  lemma RemoveSpace(mem: Memory, at: Places, s: nat)
    requires WellFormed(mem, at)
    ensures WellFormed(mem, Without(at, s))
    ensures forall t: nat, pg: VPage | t != s :: Look(mem, Without(at, s), t, pg) == Look(mem, at, t, pg)
    ensures TreeFrames(at, Root(s)) == SpaceFrames(at, s)
  {
    var at' := Without(at, s);
    var home :| Inverse(at, home);
    assert Inverse(at', home);
    forall p | ParentListed(at', p) ensures p.parent in at' { assert ParentListed(at, p); }
    forall p, i: Index | p in at' && Level(p) > 1 ensures LinkOk(mem, at', p, i) { assert LinkOk(mem, at, p, i); }
    forall x | x in at ensures Under(x, Root(s)) <==> SpaceOf(x) == s { UnderRoot(x, s); }
  }

  lemma DestroySound(mem: Memory, at: Places, nextSpace: nat, free: set<Frame>, total: nat, s: nat)
    requires Sound(mem, at, nextSpace, free, total) && s != KERNEL
    ensures Sound(mem, Without(at, s), nextSpace, free + SpaceFrames(at, s), total)
  {
    RemoveSpace(mem, at, s);
    var at' := Without(at, s);
    var home :| Inverse(at, home);
    assert forall p | p in at' :: home[at[p]] == p;
  }

  const BIT63: nat := 0x8000_0000_0000_0000

  /** The no-execute bit of a new leaf shows up as bit 63 of the address. */
  predicate Leaky(phys: u64, flags: Flags) { flags.nx && phys < BIT63 }

  lemma InPage(va: u64, off: nat)
    requires va % 4096 == 0 && off < 4096
    ensures PageOf(va + off) == PageOf(va) && (va + off) % 4096 == off
  {
    assert (va + off) / 4096 == va / 4096;
    SamePage(va + off, va);
  }

  /** The address that a mapped page gives: the requested one exactly when the no-execute bit does not leak into it. */
  lemma MappedAddress(va: u64, phys: u64, flags: Flags, off: nat)
    requires va % 4096 == 0 && phys % 4096 == 0 && off < 4096
    ensures Address(LeafOf(LeafEntry(phys, flags)), va + off) == phys + off + if Leaky(phys, flags) then BIT63 else 0
  {
    InPage(va, off);
    assert phys / 4096 * 4096 == phys;
  }

  /** Fills a table with the 512 small leaves of a 2 MiB entry. */
  method BuildSplit(zeros: Table, e: Pte) returns (pt: Table)
    ensures pt == SplitTable(e)
  {
    pt := zeros;
    for j := 0 to ENTRIES
      invariant forall k | 0 <= k < j :: pt[k] == SplitEntry(e, k)
    {
      pt := pt[j := SplitEntry(e, j)];
    }
  }

  lemma LowestExists(s: set<nat>) returns (p: nat)
    requires s != {}
    ensures IsLowest(p, s)
  {
    var x :| x in s;
    p := x;
    if s != {x} {
      var m := LowestExists(s - {x});
      assert forall q | q in s :: q == x || q in s - {x};
      p := if m < x then m else x;
    }
  }

  /** One step of the invariant: `mem'`, `at'`, `free'` translate as before, add tables to space `s`
      only, and take from the free set exactly the frames of those tables. */
  ghost predicate Grown(mem: Memory, at: Places, free: set<Frame>, mem': Memory, at': Places, free': set<Frame>,
                        s: nat) {
    && SameTranslations(mem, at, mem', at') && Extends(at, at', s) && free' <= free
    && free' + SpaceFrames(at', s) == free + SpaceFrames(at, s)
  }

  /** The table `f` has the place `q`, for a new frame if it had none before. */
  ghost predicate Linked(at: Places, at': Places, q: Place, f: Frame, free: set<Frame>, free': set<Frame>) {
    if q in at then at' == at && LowCount(free') == LowCount(free)
    else at' == at[q := f] && LowCount(free') + 1 == LowCount(free)
  }

  lemma GrownTwice(m0: Memory, a0: Places, f0: set<Frame>, m1: Memory, a1: Places, f1: set<Frame>,
                   m2: Memory, a2: Places, f2: set<Frame>, s: nat)
    requires Grown(m0, a0, f0, m1, a1, f1, s) && Grown(m1, a1, f1, m2, a2, f2, s)
    ensures Grown(m0, a0, f0, m2, a2, f2, s)
  {
    forall t: nat, pg: VPage ensures Look(m2, a2, t, pg) == Look(m0, a0, t, pg) {
      assert Look(m1, a1, t, pg) == Look(m0, a0, t, pg);
    }
  }

  lemma {:induction false} HangSound(mem: Memory, at: Places, nextSpace: nat, free: set<Frame>, total: nat,
                  p: Place, i: Index, f: Frame, t: Table)
    requires Sound(mem, at, nextSpace, free, total) && CanHang(mem, at, p, i, f, t)
    requires f in free
    ensures Sub(p, i) !in at
    ensures Sound(Hang(mem, at[p], i, f, t), at[Sub(p, i) := f], nextSpace, free - {f}, total)
    ensures Extends(at, at[Sub(p, i) := f], SpaceOf(p))
    ensures free - {f} + SpaceFrames(at[Sub(p, i) := f], SpaceOf(p)) == free + SpaceFrames(at, SpaceOf(p))
  {
    HangWellFormed(mem, at, p, i, f, t);
    SpaceFramesAdd(at, Sub(p, i), f, SpaceOf(p));
    assert SpaceOf(Sub(p, i)) == SpaceOf(p);
    assert free - {f} + {f} == free;
  }

  lemma {:induction false} AddTableSound(mem: Memory, at: Places, nextSpace: nat, free: set<Frame>, total: nat,
                                         p: Place, i: Index, f: Frame)
    requires Sound(mem, at, nextSpace, free, total) && p in at && Level(p) > 1 && !Entry(mem, at[p], i).present
    requires f in free && f < FRAME_LIMIT
    ensures var mem0 := mem[f := ZeroTable()];
      var mem' := mem0[at[p] := mem0[at[p]][i := Link(f)]];
      && Sub(p, i) !in at
      && Sound(mem', at[Sub(p, i) := f], nextSpace, free - {f}, total)
      && Grown(mem, at, free, mem', at[Sub(p, i) := f], free - {f}, SpaceOf(p))
  {
    AddTable(mem, at, p, i, f);
    HangSound(mem, at, nextSpace, free, total, p, i, f, ZeroTable());
  }

  lemma {:induction false} SplitSound(mem: Memory, mem0: Memory, at: Places, nextSpace: nat, free: set<Frame>,
                                      total: nat,
                   p: Place, i: Index, f: Frame, e: Pte)
    requires Sound(mem, at, nextSpace, free, total) && p in at && Level(p) == 2
    requires e == Entry(mem, at[p], i) && e.present && e.huge
    requires f in free && f < FRAME_LIMIT && mem0 == mem[f := ZeroTable()]
    ensures var mem1 := mem0[f := SplitTable(e)];
      var mem' := mem1[at[p] := mem1[at[p]][i := Link(f)]];
      && Sub(p, i) !in at
      && Sound(mem', at[Sub(p, i) := f], nextSpace, free - {f}, total)
      && Grown(mem, at, free, mem', at[Sub(p, i) := f], free - {f}, SpaceOf(p))
      && ExecOpened(mem, at, mem', at[Sub(p, i) := f], p, i)
  {
    assert mem0[f := SplitTable(e)] == mem[f := SplitTable(e)];
    forall s: nat, pg: VPage { SplitNoExec(mem, at, p, i, f, e, s, pg); }
    SplitHuge(mem, at, p, i, f, e);
    HangSound(mem, at, nextSpace, free, total, p, i, f, SplitTable(e));
  }

  lemma SpaceFramesAdd(at: Places, q: Place, f: Frame, s: nat)
    requires q !in at
    ensures SpaceFrames(at[q := f], s) == SpaceFrames(at, s) + (if SpaceOf(q) == s then {f} else {})
  {
    var at' := at[q := f];
    forall x | x in SpaceFrames(at, s) + (if SpaceOf(q) == s then {f} else {}) ensures x in SpaceFrames(at', s) {
      if x in SpaceFrames(at, s) {
        var p :| p in at && SpaceOf(p) == s && at[p] == x;
        assert p in at' && at'[p] == x;
      } else {
        assert q in at' && at'[q] == x;
      }
    }
  }
}
