/** Four-level x86-64 page tables as values: table entries, the hardware walk,
    and the tree invariant that ties every table frame to one place in one
    address space. */
module PageTables {
  import opened Basics
  import opened Pmm

  type Frame = nat

  const KERNEL: nat := 0   // the address space of the boot tables

  const ENTRIES: nat := 512
  const FRAME_LIMIT: nat := 0x10_0000        // tables must lie in the first 4 GiB

  type Index = i: nat | i < ENTRIES
  type Table = t: seq<Pte> | |t| == ENTRIES witness seq(ENTRIES, _ => ABSENT)
  type Memory = map<Frame, Table>

  // ---- Entries ----

  /** A 64-bit entry by its fields: bits 12..63 (with bit 63, no-execute, as
      its top bit), bit 0, bit 7, and the other attribute bits. */
  datatype Pte = Pte(frame: nat, present: bool, huge: bool, attrs: nat)

  const NX: nat := 0x8_0000_0000_0000        // bit 63, counted from bit 12
  const ATTR_WRITABLE: nat := 2
  const ATTR_USER: nat := 4
  const ABSENT := Pte(0, false, false, 0)

  /** `phys | PRESENT | WRITABLE` for a page-aligned table address. */
  function Link(f: Frame): Pte { Pte(f, true, false, ATTR_WRITABLE) }

  /** The entry lets user mode through. */
  predicate UserBit(e: Pte) { e.attrs / ATTR_USER % 2 == 1 }

  /** The entry lets writes through. */
  predicate WriteBit(e: Pte) { e.attrs / ATTR_WRITABLE % 2 == 1 }

  /** Bits 21..47 of a 2 MiB entry, as a page number. */
  function HugeBase(e: Pte): nat { e.frame / 512 % 0x800_0000 * 512 }

  /** Bits 30..51 of a 1 GiB entry, as a page number. */
  function GiantBase(e: Pte): nat { e.frame / 0x4_0000 % 0x40_0000 * 0x4_0000 }

  function ZeroTable(): Table { seq(ENTRIES, _ => ABSENT) }

  /** The small entry that takes over page `i` of a 2 MiB entry: same attributes, no huge bit. */
  function SplitEntry(e: Pte, i: nat): Pte { e.(frame := HugeBase(e) + i, huge := false) }

  function SplitTable(e: Pte): Table {
    seq(ENTRIES, i requires 0 <= i < ENTRIES => SplitEntry(e, i))
  }

  /** Flags of a new leaf: the no-execute bit and the low 12 bits. */
  datatype Flags = Flags(nx: bool, huge: bool, attrs: nat)

  /** `phys | flags | PRESENT` for a page-aligned `phys`. */
  function LeafEntry(phys: u64, flags: Flags): Pte {
    var f := phys / 4096;
    Pte(if flags.nx && f < NX then f + NX else f, true, flags.huge, flags.attrs)
  }

  // ---- Virtual pages ----

  /** A 4 KiB page of the 48-bit address space, by its four table indices. */
  datatype VPage = VPage(a: Index, b: Index, c: Index, d: Index)

  function PageOf(va: nat): VPage {
    VPage(va / 0x80_0000_0000 % 512, va / 0x4000_0000 % 512, va / 0x20_0000 % 512, va / 0x1000 % 512)
  }

  /** Addresses share a page exactly when bits 12..47 agree. */
  lemma SamePage(va: nat, vb: nat)
    ensures PageOf(va) == PageOf(vb) <==> va / 4096 % 0x10_0000_0000 == vb / 4096 % 0x10_0000_0000
  {
    PageDigits(va);
    PageDigits(vb);
  }

  /** The indices are the base-512 digits of the page number. */
  lemma PageDigits(va: nat)
    ensures var p, x := PageOf(va), va / 4096 % 0x10_0000_0000;
      && p.d == x % 512 && p.c == x / 512 % 512 && p.b == x / 512 / 512 % 512 && p.a == x / 512 / 512 / 512
      && x == ((p.a * 512 + p.b) * 512 + p.c) * 512 + p.d
  {
    var q := va / 4096;
    assert va / 0x20_0000 == q / 512;
    assert va / 0x4000_0000 == q / 512 / 512;
    assert va / 0x80_0000_0000 == q / 512 / 512 / 512;
    var k := q / 0x10_0000_0000;
    var p := q % 0x10_0000_0000;
    assert q == k * 0x10_0000_0000 + p;
    assert q / 512 == k * 0x800_0000 + p / 512;
    assert q / 512 / 512 == k * 0x4_0000 + p / 512 / 512;
    assert q / 512 / 512 / 512 == k * 512 + p / 512 / 512 / 512;
  }

  // ---- The walk ----

  function Entry(mem: Memory, f: Frame, i: Index): Pte {
    if f in mem then mem[f][i] else ABSENT
  }

  /** A mapped page: its physical page number (with whatever high bits the
      entry holds), bit 7 of a small entry, and the other attribute bits. */
  datatype Leaf = Leaf(page: nat, bit7: bool, attrs: nat)

  function HugeLeaf(e: Pte, i: nat): Leaf { Leaf(HugeBase(e) + i, false, e.attrs) }

  function LeafOf(e: Pte): Option<Leaf> {
    if e.present then Some(Leaf(e.frame, e.huge, e.attrs)) else None
  }

  /** The translation of a page under the tables rooted at `root`. */
  function Translate(mem: Memory, root: Frame, pg: VPage): Option<Leaf> {
    if root >= FRAME_LIMIT then None else
    var e4 := Entry(mem, root, pg.a);
    if !e4.present || e4.frame >= FRAME_LIMIT then None else
    var e3 := Entry(mem, e4.frame, pg.b);
    if !e3.present then None else
    if e3.huge then Some(Leaf(GiantBase(e3) + pg.c * 512 + pg.d, false, e3.attrs)) else
    if e3.frame >= FRAME_LIMIT then None else
    var e2 := Entry(mem, e3.frame, pg.c);
    if !e2.present then None else
    if e2.huge then Some(HugeLeaf(e2, pg.d)) else
    if e2.frame >= FRAME_LIMIT then None else
    LeafOf(Entry(mem, e2.frame, pg.d))
  }

  /** User mode reaches a page if every entry on its walk lets it through. */
  predicate UserAccess(mem: Memory, root: Frame, pg: VPage) {
    && Translate(mem, root, pg).Some?
    && var e4 := Entry(mem, root, pg.a);
    && var e3 := Entry(mem, e4.frame, pg.b);
    && var e2 := Entry(mem, e3.frame, pg.c);
    && UserBit(e4) && UserBit(e3)
    && (e3.huge || (UserBit(e2) && (e2.huge || UserBit(Entry(mem, e2.frame, pg.d)))))
  }

  /** A page can be written if every entry on its walk lets writes through. */
  predicate WriteAccess(mem: Memory, root: Frame, pg: VPage) {
    && Translate(mem, root, pg).Some?
    && var e4 := Entry(mem, root, pg.a);
    && var e3 := Entry(mem, e4.frame, pg.b);
    && var e2 := Entry(mem, e3.frame, pg.c);
    && WriteBit(e4) && WriteBit(e3)
    && (e3.huge || (WriteBit(e2) && (e2.huge || WriteBit(Entry(mem, e2.frame, pg.d)))))
  }

  /** The byte address that a translation gives for `va`; 0 stands for "not mapped". */
  function Address(leaf: Option<Leaf>, va: nat): nat {
    if leaf.None? then 0 else leaf.value.page * 4096 + va % 4096
  }

  /** The low 21 bits of the address are the offset in a 2 MiB leaf, the low 30 bits in a 1 GiB leaf. */
  lemma HugeAddress(e: Pte, va: nat)
    ensures HugeBase(e) * 4096 + va % 0x20_0000 == Address(Some(HugeLeaf(e, PageOf(va).d)), va)
  {
    assert va % 0x20_0000 == va / 0x1000 % 512 * 4096 + va % 4096;
  }

  lemma GiantAddress(e: Pte, va: nat)
    ensures var pg := PageOf(va);
      GiantBase(e) * 4096 + va % 0x4000_0000 ==
      Address(Some(Leaf(GiantBase(e) + pg.c * 512 + pg.d, false, e.attrs)), va)
  {
    assert va % 0x4000_0000 == va / 0x20_0000 % 512 * 0x20_0000 + va % 0x20_0000;
    assert va % 0x20_0000 == va / 0x1000 % 512 * 4096 + va % 4096;
  }

  /** The address bits of an entry that count: 21 to 47 for a 2 MiB leaf, 30 to 51 for a 1 GiB leaf. */
  lemma LeafBits(e: Pte)
    ensures HugeBase(e) * 4096 == e.frame * 4096 / 0x20_0000 % 0x800_0000 * 0x20_0000
    ensures GiantBase(e) * 4096 == e.frame * 4096 / 0x4000_0000 % 0x40_0000 * 0x4000_0000
  {
    assert e.frame * 4096 / 0x20_0000 == e.frame / 512;
    assert e.frame * 4096 / 0x4000_0000 == e.frame / 0x4_0000;
  }

  // ---- Places ----

  /** A position in a table tree: the root of address space `s`, or the table
      that entry `i` of another one points to. */
  datatype Place = Root(s: nat) | Sub(parent: Place, i: Index)

  function L3(s: nat, a: Index): Place { Sub(Root(s), a) }
  function L2(s: nat, a: Index, b: Index): Place { Sub(L3(s, a), b) }
  function L1(s: nat, a: Index, b: Index, c: Index): Place { Sub(L2(s, a, b), c) }

  function Level(p: Place): int { if p.Root? then 4 else Level(p.parent) - 1 }

  function SpaceOf(p: Place): nat { if p.Root? then p.s else SpaceOf(p.parent) }

  /** The places of the tables on the walk to a page. */
  lemma PlacesOf(s: nat, pg: VPage)
    ensures var p3, p2, p1 := L3(s, pg.a), L2(s, pg.a, pg.b), L1(s, pg.a, pg.b, pg.c);
      && Level(p3) == 3 && Level(p2) == 2 && Level(p1) == 1
      && SpaceOf(p3) == SpaceOf(p2) == SpaceOf(p1) == s
  {
    var p4 := Root(s);
    assert Level(p4) == 4 && SpaceOf(p4) == s;
    var p3 := Sub(p4, pg.a);
    assert Level(p3) == 3 && SpaceOf(p3) == s;
    var p2 := Sub(p3, pg.b);
    assert Level(p2) == 2 && SpaceOf(p2) == s;
  }

  /** `x` is `p` or lies below it. */
  predicate Under(x: Place, p: Place) { x == p || (x.Sub? && Under(x.parent, p)) }

  // ---- The tree invariant ----

  type Places = map<Place, Frame>

  ghost predicate Inverse(at: Places, home: map<Frame, Place>) {
    forall p | p in at :: at[p] in home && home[at[p]] == p
  }

  /** Frame `f` has no place. */
  ghost predicate NotListed(at: Places, f: Frame) {
    forall p | p in at :: at[p] != f
  }

  /** No frame has two places. */
  ghost predicate OneToOne(at: Places) {
    exists home: map<Frame, Place> :: Inverse(at, home)
  }

  lemma OneToOneExtend(at: Places, q: Place, f: Frame)
    requires OneToOne(at) && q !in at && NotListed(at, f)
    ensures OneToOne(at[q := f])
  {
    var home :| Inverse(at, home);
    assert Inverse(at[q := f], home[f := q]);
  }

  lemma OneToOneUnion(at: Places, more: Places, pool: set<Frame>)
    requires OneToOne(at) && OneToOne(more) && at.Keys !! more.Keys
    requires (forall p | p in at :: at[p] !in pool) && (forall q | q in more :: more[q] in pool)
    ensures OneToOne(at + more)
  {
    var h1: map<Frame, Place> :| Inverse(at, h1);
    var h2: map<Frame, Place> :| Inverse(more, h2);
    var home := map f | f in h1.Keys + h2.Keys ::
      if f in h2 && h2[f] in more && more[h2[f]] == f then h2[f] else if f in h1 then h1[f] else Root(0);
    assert Inverse(at + more, home);
  }

  /** An entry of a table at `level` that points to another table. */
  predicate IsLink(level: int, e: Pte) {
    level > 1 && e.present && !(level == 2 && e.huge)
  }

  /** `p` is listed and has a parent; stated by name where the parent is needed. */
  predicate ParentListed(at: Places, p: Place) { p in at && p.Sub? }

  /** `at` lists the tables of every address space: each frame has one place, links and places
      correspond, links let writes through and user mode not, and no 1 GiB leaf occurs. */
  ghost predicate WellFormed(mem: Memory, at: Places) {
    && (forall p {:trigger p in at} {:trigger at[p]} | p in at :: Level(p) >= 1 && at[p] < FRAME_LIMIT && at[p] in mem)
    && (forall p {:trigger ParentListed(at, p)} | ParentListed(at, p) :: p.parent in at)
    && OneToOne(at)
    && (forall p, i: Index | p in at && Level(p) > 1 :: LinkOk(mem, at, p, i))
  }

  ghost predicate LinkOk(mem: Memory, at: Places, p: Place, i: Index)
    requires p in at
  {
    var e := Entry(mem, at[p], i);
    && (IsLink(Level(p), e) <==> Sub(p, i) in at)
    && (IsLink(Level(p), e) ==> at[Sub(p, i)] == e.frame && WriteBit(e) && !UserBit(e))
    && (Level(p) == 3 && e.present ==> !e.huge)
  }

  /** The translation of a page of space `s`. */
  function Look(mem: Memory, at: Places, s: nat, pg: VPage): Option<Leaf> {
    if Root(s) in at then Translate(mem, at[Root(s)], pg) else None
  }

  /** The walk through places instead of frame numbers. */
  function Via(mem: Memory, at: Places, s: nat, pg: VPage): Option<Leaf> {
    if Root(s) !in at || L3(s, pg.a) !in at || L2(s, pg.a, pg.b) !in at then None else
    var e2 := Entry(mem, at[L2(s, pg.a, pg.b)], pg.c);
    if e2.present && e2.huge then Some(HugeLeaf(e2, pg.d)) else
    if L1(s, pg.a, pg.b, pg.c) !in at then None else
    LeafOf(Entry(mem, at[L1(s, pg.a, pg.b, pg.c)], pg.d))
  }

  lemma {:induction false} WalkFollowsPlaces(mem: Memory, at: Places, s: nat, pg: VPage)
    requires WellFormed(mem, at)
    ensures Look(mem, at, s, pg) == Via(mem, at, s, pg)
  {
    if Root(s) in at {
      assert LinkOk(mem, at, Root(s), pg.a);
      if L3(s, pg.a) in at {
        assert LinkOk(mem, at, L3(s, pg.a), pg.b);
        if L2(s, pg.a, pg.b) in at {
          assert LinkOk(mem, at, L2(s, pg.a, pg.b), pg.c);
        }
      }
    }
  }

  /** No page of any space is open to user mode, whatever the user bit of its leaf says. */
  lemma {:induction false} NoUserAccess(mem: Memory, at: Places, s: nat, pg: VPage)
    requires WellFormed(mem, at) && Root(s) in at
    ensures !UserAccess(mem, at[Root(s)], pg)
  {
    assert LinkOk(mem, at, Root(s), pg.a);
  }

  /** A mapped page can be written exactly if its leaf says so. */
  lemma {:induction false} WriteAccessIs(mem: Memory, at: Places, s: nat, pg: VPage)
    requires WellFormed(mem, at) && Root(s) in at
    ensures var leaf := Look(mem, at, s, pg);
      WriteAccess(mem, at[Root(s)], pg) <==> leaf.Some? && leaf.value.attrs / ATTR_WRITABLE % 2 == 1
  {
    assert LinkOk(mem, at, Root(s), pg.a);
    if L3(s, pg.a) in at {
      assert LinkOk(mem, at, L3(s, pg.a), pg.b);
      if L2(s, pg.a, pg.b) in at { assert LinkOk(mem, at, L2(s, pg.a, pg.b), pg.c); }
    }
  }

  /** `at'` adds places to `at`, all of them below the root of space `s`. */
  ghost predicate Extends(at: Places, at': Places, s: nat) {
    && (forall q | q in at :: q in at' && at'[q] == at[q])
    && (forall q | q in at' && q !in at :: SpaceOf(q) == s && q.Sub?)
  }

  /** Same translation of every page in every address space. */
  ghost predicate SameTranslations(mem: Memory, at: Places, mem': Memory, at': Places) {
    forall s: nat, pg: VPage :: Look(mem', at', s, pg) == Look(mem, at, s, pg)
  }

  // ---- Hanging a new table into the tree ----

  /** The memory after a new table `t` in frame `f` replaces entry `i` of the table in frame `g`. */
  function Hang(mem: Memory, g: Frame, i: Index, f: Frame, t: Table): Memory
    requires g in mem
  {
    mem[f := t][g := mem[g][i := Link(f)]]
  }

  /** What makes it sound to hang a table below `p`: the old entry is no link,
      the frame is new, and the new table has no links itself. */
  ghost predicate CanHang(mem: Memory, at: Places, p: Place, i: Index, f: Frame, t: Table) {
    && WellFormed(mem, at) && p in at && Level(p) > 1
    && !IsLink(Level(p), Entry(mem, at[p], i)) && NotListed(at, f) && f < FRAME_LIMIT
    && (Level(p) > 2 ==> t == ZeroTable())
  }

  lemma HangWellFormed(mem: Memory, at: Places, p: Place, i: Index, f: Frame, t: Table)
    requires CanHang(mem, at, p, i, f, t)
    ensures Sub(p, i) !in at && WellFormed(Hang(mem, at[p], i, f, t), at[Sub(p, i) := f])
  {
    var mem' := Hang(mem, at[p], i, f, t);
    var at' := at[Sub(p, i) := f];
    assert LinkOk(mem, at, p, i);
    OneToOneExtend(at, Sub(p, i), f);
    forall q | ParentListed(at', q) ensures q.parent in at' { assert q != Sub(p, i) ==> ParentListed(at, q); }
    forall q, j: Index | q in at' && Level(q) > 1 ensures LinkOk(mem', at', q, j) {
      if q in at {
        assert LinkOk(mem, at, q, j);
      } else {
        assert Entry(mem', f, j) == ABSENT;
        assert ParentListed(at, Sub(q, j)) ==> q in at;
      }
    }
  }

  /** Hanging an empty table into an absent entry changes no translation. */
  lemma {:induction false} AddTable(mem: Memory, at: Places, p: Place, i: Index, f: Frame)
    requires CanHang(mem, at, p, i, f, ZeroTable()) && !Entry(mem, at[p], i).present
    ensures SameTranslations(mem, at, Hang(mem, at[p], i, f, ZeroTable()), at[Sub(p, i) := f])
  {
    HangWellFormed(mem, at, p, i, f, ZeroTable());
    var mem' := Hang(mem, at[p], i, f, ZeroTable());
    var at' := at[Sub(p, i) := f];
    forall s: nat, pg: VPage ensures Look(mem', at', s, pg) == Look(mem, at, s, pg) {
      WalkFollowsPlaces(mem, at, s, pg);
      WalkFollowsPlaces(mem', at', s, pg);
      AddTableVia(mem, at, p, i, f, s, pg);
    }
  }

  lemma AddTableVia(mem: Memory, at: Places, p: Place, i: Index, f: Frame, s: nat, pg: VPage)
    requires CanHang(mem, at, p, i, f, ZeroTable()) && !Entry(mem, at[p], i).present
    ensures Via(Hang(mem, at[p], i, f, ZeroTable()), at[Sub(p, i) := f], s, pg) == Via(mem, at, s, pg)
  {
    assert LinkOk(mem, at, p, i);
    assert ParentListed(at, L1(s, pg.a, pg.b, pg.c)) ==> L2(s, pg.a, pg.b) in at;
    assert ParentListed(at, L2(s, pg.a, pg.b)) ==> L3(s, pg.a) in at;
  }

  /** Replacing a 2 MiB leaf by a table of 512 small leaves changes no translation. */
  lemma {:induction false} SplitHuge(mem: Memory, at: Places, p: Place, i: Index, f: Frame, e: Pte)
    requires p in at && Level(p) == 2 && e == Entry(mem, at[p], i) && e.present && e.huge
    requires CanHang(mem, at, p, i, f, SplitTable(e))
    ensures SameTranslations(mem, at, Hang(mem, at[p], i, f, SplitTable(e)), at[Sub(p, i) := f])
  {
    HangWellFormed(mem, at, p, i, f, SplitTable(e));
    var mem' := Hang(mem, at[p], i, f, SplitTable(e));
    var at' := at[Sub(p, i) := f];
    forall s: nat, pg: VPage ensures Look(mem', at', s, pg) == Look(mem, at, s, pg) {
      WalkFollowsPlaces(mem, at, s, pg);
      WalkFollowsPlaces(mem', at', s, pg);
      SplitHugeVia(mem, at, p, i, f, e, s, pg);
    }
  }

  lemma SplitHugeVia(mem: Memory, at: Places, p: Place, i: Index, f: Frame, e: Pte, s: nat, pg: VPage)
    requires p in at && Level(p) == 2 && e == Entry(mem, at[p], i) && e.present && e.huge
    requires CanHang(mem, at, p, i, f, SplitTable(e))
    ensures Via(Hang(mem, at[p], i, f, SplitTable(e)), at[Sub(p, i) := f], s, pg) == Via(mem, at, s, pg)
  {
    assert LinkOk(mem, at, p, i);
    assert SplitTable(e)[pg.d] == SplitEntry(e, pg.d);
  }

  /** The entry that maps a page: its small or 2 MiB leaf. */
  function Mapping(mem: Memory, at: Places, s: nat, pg: VPage): Option<Pte> {
    if Root(s) !in at then None else
    var e4 := Entry(mem, at[Root(s)], pg.a);
    if !e4.present then None else
    var e3 := Entry(mem, e4.frame, pg.b);
    if !e3.present then None else
    var e2 := Entry(mem, e3.frame, pg.c);
    if !e2.present then None else
    if e2.huge then Some(e2) else
    var e1 := Entry(mem, e2.frame, pg.d);
    if e1.present then Some(e1) else None
  }

  /** The page is mapped with bit 63 set. */
  predicate NoExec(mem: Memory, at: Places, s: nat, pg: VPage) {
    Mapping(mem, at, s, pg).Some? && Mapping(mem, at, s, pg).value.frame >= NX
  }

  /** The page lies in the region of entry `i` of the directory at `p`. */
  predicate InRegion(p: Place, i: Index, s: nat, pg: VPage) { L2(s, pg.a, pg.b) == p && pg.c == i }

  lemma {:induction false} MappingFollowsPlaces(mem: Memory, at: Places, s: nat, pg: VPage)
    requires WellFormed(mem, at)
    ensures Mapping(mem, at, s, pg) ==
      if Root(s) !in at || L3(s, pg.a) !in at || L2(s, pg.a, pg.b) !in at then None else
      var e2 := Entry(mem, at[L2(s, pg.a, pg.b)], pg.c);
      if e2.present && e2.huge then Some(e2) else
      if L1(s, pg.a, pg.b, pg.c) !in at then None else
      var e1 := Entry(mem, at[L1(s, pg.a, pg.b, pg.c)], pg.d);
      if e1.present then Some(e1) else None
  {
    if Root(s) in at {
      assert LinkOk(mem, at, Root(s), pg.a);
      if L3(s, pg.a) in at {
        assert LinkOk(mem, at, L3(s, pg.a), pg.b);
        if L2(s, pg.a, pg.b) in at { assert LinkOk(mem, at, L2(s, pg.a, pg.b), pg.c); }
      }
    }
  }

  /** A split drops the no-execute bit of exactly the pages of its 2 MiB leaf. */
  lemma {:induction false} SplitNoExec(mem: Memory, at: Places, p: Place, i: Index, f: Frame, e: Pte, s: nat, pg: VPage)
    requires p in at && Level(p) == 2 && e == Entry(mem, at[p], i) && e.present && e.huge
    requires CanHang(mem, at, p, i, f, SplitTable(e))
    ensures NoExec(Hang(mem, at[p], i, f, SplitTable(e)), at[Sub(p, i) := f], s, pg) <==>
            NoExec(mem, at, s, pg) && !InRegion(p, i, s, pg)
    ensures InRegion(p, i, s, pg) ==> (NoExec(mem, at, s, pg) <==> e.frame >= NX)
  {
    HangWellFormed(mem, at, p, i, f, SplitTable(e));
    MappingFollowsPlaces(mem, at, s, pg);
    MappingFollowsPlaces(Hang(mem, at[p], i, f, SplitTable(e)), at[Sub(p, i) := f], s, pg);
    assert LinkOk(mem, at, p, i) && SplitTable(e)[pg.d] == SplitEntry(e, pg.d);
    assert ParentListed(at, p) ==> p.parent in at;
    assert p.Sub? && p.parent.Sub? ==> ParentListed(at, p.parent);
    SplitSmall(e, pg.d);
  }

  /** A split has dropped the no-execute bit of exactly the pages in the region of entry `i` of the directory at `p`. */
  ghost predicate ExecOpened(mem: Memory, at: Places, mem': Memory, at': Places, p: Place, i: Index) {
    forall s: nat, pg: VPage :: NoExec(mem', at', s, pg) <==> NoExec(mem, at, s, pg) && !InRegion(p, i, s, pg)
  }

  lemma SplitSmall(e: Pte, d: Index)
    ensures SplitEntry(e, d).frame < NX
  {
    assert e.frame / 512 % 0x800_0000 < 0x800_0000;
  }

  // ---- Writing a small leaf ----

  /** The page of `pg` in space `s` now translates to `leaf`; every other page of every space is as before. */
  ghost predicate PageChanged(mem: Memory, at: Places, mem': Memory, at': Places, s: nat, pg: VPage,
                              leaf: Option<Leaf>) {
    forall t: nat, v: VPage ::
      Look(mem', at', t, v) == if t == s && v == pg then leaf else Look(mem, at, t, v)
  }

  /** The place of the last-level table for a page of space `s`. */
  function LastPlace(s: nat, pg: VPage): Place { L1(s, pg.a, pg.b, pg.c) }

  /** The tables that a walk to the page has to create in space `s`. */
  function Missing(at: Places, s: nat, pg: VPage): nat {
    MissingUpper(at, s, pg) + if LastPlace(s, pg) in at then 0 else 1
  }

  function MissingUpper(at: Places, s: nat, pg: VPage): nat {
    (if L3(s, pg.a) in at then 0 else 1) + if L2(s, pg.a, pg.b) in at then 0 else 1
  }

  function SetEntry(mem: Memory, g: Frame, i: Index, e: Pte): Memory
    requires g in mem
  {
    mem[g := mem[g][i := e]]
  }

  /** Writing a last-level entry changes the translation of that page of that space alone. */
  lemma {:induction false} SetPage(mem: Memory, at: Places, s: nat, pg: VPage, e: Pte)
    requires WellFormed(mem, at) && LastPlace(s, pg) in at
    ensures WellFormed(SetEntry(mem, at[LastPlace(s, pg)], pg.d, e), at)
    ensures PageChanged(mem, at, SetEntry(mem, at[LastPlace(s, pg)], pg.d, e), at, s, pg, LeafOf(e))
    ensures Look(mem, at, s, pg) == LeafOf(Entry(mem, at[LastPlace(s, pg)], pg.d))
  {
    var p := LastPlace(s, pg);
    var mem' := SetEntry(mem, at[p], pg.d, e);
    var home :| Inverse(at, home);
    PlacesOf(s, pg);
    assert home[at[p]] == p;
    forall q, j: Index | q in at && Level(q) > 1 ensures LinkOk(mem', at, q, j) {
      assert LinkOk(mem, at, q, j) && home[at[q]] == q;
    }
    WalkFollowsPlaces(mem, at, s, pg);
    SetPageVia(mem, at, s, pg, e, s, pg);
    forall t: nat, v: VPage
      ensures Look(mem', at, t, v) == if t == s && v == pg then LeafOf(e) else Look(mem, at, t, v)
    {
      WalkFollowsPlaces(mem, at, t, v);
      WalkFollowsPlaces(mem', at, t, v);
      SetPageVia(mem, at, s, pg, e, t, v);
    }
  }

  lemma SetPageVia(mem: Memory, at: Places, s: nat, pg: VPage, e: Pte, t: nat, v: VPage)
    requires WellFormed(mem, at) && LastPlace(s, pg) in at
    ensures Via(SetEntry(mem, at[LastPlace(s, pg)], pg.d, e), at, t, v) ==
      if t == s && v == pg then LeafOf(e) else Via(mem, at, t, v)
    ensures t == s && v == pg ==> Via(mem, at, t, v) == LeafOf(Entry(mem, at[LastPlace(s, pg)], pg.d))
  {
    if L1(t, v.a, v.b, v.c) in at {
      assert ParentListed(at, L1(t, v.a, v.b, v.c)) && ParentListed(at, L2(t, v.a, v.b));
      assert ParentListed(at, L3(t, v.a));
      assert LinkOk(mem, at, L2(t, v.a, v.b), v.c);
    }
  }
}
