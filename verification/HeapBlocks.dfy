/** The kernel heap's arena: 64-bit words of memory, block headers inside it,
    and the list of blocks that the headers describe. */
module HeapBlocks {
  const HEADER: nat := 48
  const ALIGN: nat := 16
  const BASE: nat := 0xFFFF_8000_0000_0000
  const LIMIT: nat := 0xFFFF_9000_0000_0000
  const MAGIC: nat := 0x4E58_484C_424C_4B31

  // ---- Memory ----

  type Mem = map<nat, nat>     // words, by address

  function Word(m: Mem, a: nat): nat { if a in m then m[a] else 0 }

  datatype Header = Header(magic: nat, size: nat, capacity: nat, flags: nat, prev: nat, next: nat)

  function HeaderAt(m: Mem, a: nat): Header {
    Header(Word(m, a), Word(m, a + 8), Word(m, a + 16), Word(m, a + 24), Word(m, a + 32), Word(m, a + 40))
  }

  function PutHeader(m: Mem, a: nat, h: Header): Mem {
    m[a := h.magic][a + 8 := h.size][a + 16 := h.capacity][a + 24 := h.flags][a + 32 := h.prev][a + 40 := h.next]
  }

  predicate Clear(a: nat, b: nat) { a + HEADER <= b || b + HEADER <= a }

  lemma PutHeaderIs(m: Mem, a: nat, h: Header, b: nat)
    ensures HeaderAt(PutHeader(m, a, h), a) == h
    ensures Clear(a, b) ==> HeaderAt(PutHeader(m, a, h), b) == HeaderAt(m, b)
  {}

  predicate KeptHeader(m: Mem, m': Mem, b: nat) { HeaderAt(m', b) == HeaderAt(m, b) }

  /** Only the header at `a` was written. */
  ghost predicate Wrote(m: Mem, m': Mem, a: nat, h: Header) {
    && HeaderAt(m', a) == h
    && forall b: nat {:trigger KeptHeader(m, m', b)} | Clear(a, b) :: KeptHeader(m, m', b)
  }

  lemma PutWrote(m: Mem, a: nat, h: Header)
    ensures Wrote(m, PutHeader(m, a, h), a, h)
  {
    var m' := PutHeader(m, a, h);
    PutHeaderIs(m, a, h, a);
    forall b: nat | Clear(a, b) ensures KeptHeader(m, m', b) { PutHeaderIs(m, a, h, b); }
  }

  // ---- Blocks ----

  datatype Block = Block(addr: nat, size: nat, capacity: nat, free: bool)

  function End(b: Block): nat { b.addr + HEADER + b.capacity }

  predicate BlockOk(b: Block) {
    b.addr >= BASE && b.addr % ALIGN == 0 && b.capacity % ALIGN == 0 && b.capacity >= ALIGN && b.size <= b.capacity
  }

  /** Block `i` has a sound shape and ends where the next begins. */
  predicate TileOk(bs: seq<Block>, next: nat, i: nat) {
    i < |bs| && BlockOk(bs[i]) && End(bs[i]) == if i + 1 < |bs| then bs[i + 1].addr else next
  }

  /** The header that the list calls for at block `i`. */
  function Expected(bs: seq<Block>, i: nat): Header
    requires i < |bs|
  {
    Header(MAGIC, bs[i].size, bs[i].capacity, if bs[i].free then 1 else 0,
           if i > 0 then bs[i - 1].addr else 0, if i + 1 < |bs| then bs[i + 1].addr else 0)
  }

  predicate HeaderOk(m: Mem, bs: seq<Block>, i: nat) { i < |bs| && HeaderAt(m, bs[i].addr) == Expected(bs, i) }

  /** The blocks tile the arena in address order, and the headers in memory say so. */
  ghost predicate Linked(m: Mem, bs: seq<Block>, head: nat, next: nat) {
    && BASE <= next <= LIMIT && next % ALIGN == 0 && head == (if bs == [] then 0 else BASE)
    && (bs == [] ==> next == BASE) && (bs != [] ==> bs[0].addr == BASE)
    && (forall i: nat {:trigger TileOk(bs, next, i)} | i < |bs| :: TileOk(bs, next, i))
    && (forall i: nat {:trigger HeaderOk(m, bs, i)} | i < |bs| :: HeaderOk(m, bs, i))
  }

  /** Earlier blocks end before later ones begin. */
  lemma {:induction false} InOrder(bs: seq<Block>, next: nat, i: nat, j: nat)
    requires i < j < |bs| && forall k: nat {:trigger TileOk(bs, next, k)} | k < |bs| :: TileOk(bs, next, k)
    ensures End(bs[i]) <= bs[j].addr
    decreases j - i
  {
    assert TileOk(bs, next, i) && TileOk(bs, next, i + 1);
    if i + 1 < j { InOrder(bs, next, i + 1, j); }
  }

  lemma {:induction false} BeforeNext(bs: seq<Block>, next: nat, i: nat)
    requires i < |bs| && forall k: nat {:trigger TileOk(bs, next, k)} | k < |bs| :: TileOk(bs, next, k)
    ensures End(bs[i]) <= next
    decreases |bs| - i
  {
    assert TileOk(bs, next, i);
    if i + 1 < |bs| {
      BeforeNext(bs, next, i + 1);
      assert TileOk(bs, next, i + 1);
    }
  }

  /** Two different blocks do not overlap. */
  predicate Disjoint(a: Block, b: Block) { End(a) <= b.addr || End(b) <= a.addr }

  lemma BlocksApart(bs: seq<Block>, next: nat, i: nat, j: nat)
    requires i < |bs| && j < |bs| && i != j
    requires forall k: nat {:trigger TileOk(bs, next, k)} | k < |bs| :: TileOk(bs, next, k)
    ensures Disjoint(bs[i], bs[j])
  {
    if i < j { InOrder(bs, next, i, j); } else { InOrder(bs, next, j, i); }
  }

  // ---- Contents of blocks ----

  /** The payload of `b` holds what it held. */
  ghost predicate Intact(m: Mem, m': Mem, b: Block) {
    forall w: nat {:trigger Word(m', w)} | b.addr + HEADER <= w < End(b) :: Word(m', w) == Word(m, w)
  }

  lemma PutIntact(m: Mem, a: nat, h: Header, b: Block)
    requires a + HEADER <= b.addr + HEADER || End(b) <= a
    ensures Intact(m, PutHeader(m, a, h), b)
  {}

  lemma IntactTrans(m0: Mem, m1: Mem, m2: Mem, b: Block)
    requires Intact(m0, m1, b) && Intact(m1, m2, b)
    ensures Intact(m0, m2, b)
  {
    forall w: nat | b.addr + HEADER <= w < End(b) ensures Word(m2, w) == Word(m0, w) {
      assert Word(m1, w) == Word(m0, w);
    }
  }

  // ---- Editing a block in place ----

  lemma EditLinked(m: Mem, bs: seq<Block>, head: nat, next: nat, i: nat, b: Block)
    requires Linked(m, bs, head, next) && i < |bs|
    requires b == bs[i].(size := b.size, free := b.free) && b.size <= b.capacity
    ensures var bs' := bs[i := b]; Linked(PutHeader(m, b.addr, Expected(bs', i)), bs', head, next)
  {
    var bs' := bs[i := b];
    var h := Expected(bs', i);
    var m' := PutHeader(m, b.addr, h);
    forall j: nat | j < |bs'| ensures TileOk(bs', next, j) { assert TileOk(bs, next, j); }
    forall j: nat | j < |bs'| ensures HeaderOk(m', bs', j) {
      assert HeaderOk(m, bs, j);
      PutHeaderIs(m, b.addr, h, bs[j].addr);
      if j != i {
        BlocksApart(bs, next, i, j);
        assert TileOk(bs, next, i) && TileOk(bs, next, j);
      }
    }
  }

  /** Writing the header of a block leaves all payloads alone. */
  lemma HeaderIntact(m: Mem, bs: seq<Block>, next: nat, i: nat, h: Header, j: nat)
    requires i < |bs| && j < |bs| && forall k: nat {:trigger TileOk(bs, next, k)} | k < |bs| :: TileOk(bs, next, k)
    ensures Intact(m, PutHeader(m, bs[i].addr, h), bs[j])
  {
    assert TileOk(bs, next, i) && TileOk(bs, next, j);
    if i < j { InOrder(bs, next, i, j); }
    if j < i { InOrder(bs, next, j, i); }
  }

  // ---- Using a block ----

  /** The word at `w` lies in the payload of `b`. */
  predicate InPayload(b: Block, w: nat) { b.addr + HEADER <= w < End(b) }

  /** Writing a word of a payload leaves the headers and all other payloads alone. */
  lemma StoreLinked(m: Mem, bs: seq<Block>, head: nat, next: nat, i: nat, w: nat, v: nat)
    requires Linked(m, bs, head, next) && i < |bs| && InPayload(bs[i], w)
    ensures Linked(m[w := v], bs, head, next)
    ensures forall j: nat {:trigger Intact(m, m[w := v], bs[j])} | j < |bs| && j != i :: Intact(m, m[w := v], bs[j])
  {
    var m' := m[w := v];
    forall j: nat | j < |bs| ensures HeaderOk(m', bs, j) {
      assert HeaderOk(m, bs, j);
      StoreKeeps(m, bs, next, i, w, v, j);
    }
    forall j: nat | j < |bs| && j != i ensures Intact(m, m', bs[j]) { StoreKeeps(m, bs, next, i, w, v, j); }
  }

  lemma StoreKeeps(m: Mem, bs: seq<Block>, next: nat, i: nat, w: nat, v: nat, j: nat)
    requires Tiles(bs, next) && i < |bs| && InPayload(bs[i], w) && j < |bs|
    ensures HeaderAt(m[w := v], bs[j].addr) == HeaderAt(m, bs[j].addr)
    ensures j != i ==> Intact(m, m[w := v], bs[j])
  {
    assert TileOk(bs, next, i) && TileOk(bs, next, j);
    if j != i {
      BlocksApart(bs, next, i, j);
      assert !InPayload(bs[j], w);
    }
  }

  // ---- Splitting a block ----

  predicate CanSplit(bs: seq<Block>, i: nat, req: nat) {
    i < |bs| && req >= ALIGN && req % ALIGN == 0 && bs[i].capacity >= req + HEADER + ALIGN
  }

  function TailOf(b: Block, req: nat): Block
    requires b.capacity >= req + HEADER
  {
    var rest := b.capacity - req - HEADER;
    Block(b.addr + HEADER + req, rest, rest, true)
  }

  function SplitAt(bs: seq<Block>, i: nat, req: nat): (r: seq<Block>)
    requires CanSplit(bs, i, req)
    ensures |r| == |bs| + 1
  {
    bs[..i] + [bs[i].(size := req, capacity := req), TailOf(bs[i], req)] + bs[i + 1..]
  }

  /** The headers that a split calls for. */
  lemma SplitExpected(bs: seq<Block>, i: nat, req: nat)
    requires CanSplit(bs, i, req)
    ensures var bs', t, h := SplitAt(bs, i, req), TailOf(bs[i], req), Expected(bs, i);
      && bs'[i + 1] == t && Expected(bs', i + 1) == Header(MAGIC, t.size, t.capacity, 1, bs[i].addr, h.next)
      && Expected(bs', i) == Header(h.magic, req, req, h.flags, h.prev, t.addr)
  {
    var bs' := SplitAt(bs, i, req);
    assert i + 1 < |bs| ==> bs'[i + 2] == bs[i + 1];
    assert i > 0 ==> bs'[i - 1] == bs[i - 1];
  }

  function SplitMem(m: Mem, bs: seq<Block>, i: nat, req: nat): Mem
    requires CanSplit(bs, i, req)
  {
    var bs' := SplitAt(bs, i, req);
    var m1 := PutHeader(m, bs'[i + 1].addr, Expected(bs', i + 1));
    var m2 :=
      if i + 1 < |bs| then PutHeader(m1, bs[i + 1].addr, HeaderAt(m1, bs[i + 1].addr).(prev := bs'[i + 1].addr))
      else m1;
    PutHeader(m2, bs[i].addr, Expected(bs', i))
  }

  ghost predicate Tiles(bs: seq<Block>, next: nat) {
    forall k: nat {:trigger TileOk(bs, next, k)} | k < |bs| :: TileOk(bs, next, k)
  }

  lemma SplitTiles(bs: seq<Block>, next: nat, i: nat, req: nat)
    requires Tiles(bs, next) && CanSplit(bs, i, req)
    ensures Tiles(SplitAt(bs, i, req), next)
  {
    var bs' := SplitAt(bs, i, req);
    assert TileOk(bs, next, i);
    SplitBlockOk(bs[i], req);
    assert bs'[i] == bs[i].(size := req, capacity := req) && bs'[i + 1] == TailOf(bs[i], req);
    forall j: nat | j < |bs'| ensures TileOk(bs', next, j) {
      if j < i { assert TileOk(bs, next, j) && bs'[j] == bs[j]; }
      if j > i + 1 { assert TileOk(bs, next, j - 1) && bs'[j] == bs[j - 1]; }
    }
  }

  lemma SplitBlockOk(b: Block, req: nat)
    requires BlockOk(b) && req >= ALIGN && req % ALIGN == 0 && b.capacity >= req + HEADER + ALIGN
    ensures BlockOk(b.(size := req, capacity := req)) && BlockOk(TailOf(b, req)) && End(TailOf(b, req)) == End(b)
    ensures TailOf(b, req).addr == b.addr + HEADER + req
  {}

  /** The headers after a split, given the memory after each of its three writes. */
  lemma SplitHeader(m: Mem, m1: Mem, m2: Mem, m3: Mem, bs: seq<Block>, bs': seq<Block>, head: nat, next: nat, i: nat,
                    req: nat, j: nat)
    requires Linked(m, bs, head, next) && CanSplit(bs, i, req) && bs' == SplitAt(bs, i, req) && Tiles(bs', next)
    requires j < |bs'|
    requires Wrote(m, m1, bs'[i + 1].addr, Expected(bs', i + 1)) && Wrote(m2, m3, bs[i].addr, Expected(bs', i))
    requires i + 1 == |bs| ==> m2 == m1
    requires i + 1 < |bs| ==> Wrote(m1, m2, bs[i + 1].addr, HeaderAt(m1, bs[i + 1].addr).(prev := bs'[i + 1].addr))
    ensures HeaderOk(m3, bs', j)
  {
    var x := bs'[j].addr;
    HeadersClear(bs', next, i, j);
    HeadersClear(bs', next, i + 1, j);
    assert j != i ==> KeptHeader(m2, m3, x);
    assert j != i + 1 ==> KeptHeader(m, m1, x);
    if i + 1 < |bs| {
      assert bs'[i + 2] == bs[i + 1];
      HeadersClear(bs', next, i + 2, j);
      assert j != i + 2 ==> KeptHeader(m1, m2, x);
      assert HeaderOk(m, bs, i + 1);
    }
    if j < i { assert HeaderOk(m, bs, j) && bs'[j] == bs[j]; }
    if j > i + 1 { assert HeaderOk(m, bs, j - 1) && bs'[j] == bs[j - 1]; }
  }

  lemma HeadersClear(bs: seq<Block>, next: nat, i: nat, j: nat)
    requires Tiles(bs, next) && i < |bs| && j < |bs|
    ensures i != j ==> Clear(bs[i].addr, bs[j].addr)
  {
    assert TileOk(bs, next, i) && TileOk(bs, next, j);
    if i != j { BlocksApart(bs, next, i, j); }
  }

  lemma SplitLinked(m: Mem, bs: seq<Block>, head: nat, next: nat, i: nat, req: nat)
    requires Linked(m, bs, head, next) && CanSplit(bs, i, req)
    ensures Linked(SplitMem(m, bs, i, req), SplitAt(bs, i, req), head, next)
  {
    SplitTiles(bs, next, i, req);
    var bs', m' := SplitAt(bs, i, req), SplitMem(m, bs, i, req);
    var t, h := bs'[i + 1].addr, Expected(bs', i + 1);
    var m1 := PutHeader(m, t, h);
    PutWrote(m, t, h);
    var m2 := if i + 1 < |bs| then PutHeader(m1, bs[i + 1].addr, HeaderAt(m1, bs[i + 1].addr).(prev := t)) else m1;
    if i + 1 < |bs| { PutWrote(m1, bs[i + 1].addr, HeaderAt(m1, bs[i + 1].addr).(prev := t)); }
    PutWrote(m2, bs[i].addr, Expected(bs', i));
    forall j: nat | j < |bs'| ensures HeaderOk(m', bs', j) {
      SplitHeader(m, m1, m2, m', bs, bs', head, next, i, req, j);
    }
  }

  /** Splitting block `i` touches no other payload. */
  lemma SplitIntact(m: Mem, bs: seq<Block>, next: nat, i: nat, req: nat, j: nat)
    requires Tiles(bs, next) && CanSplit(bs, i, req) && j < |bs| && j != i
    ensures Intact(m, SplitMem(m, bs, i, req), bs[j])
  {
    var bs' := SplitAt(bs, i, req);
    var t, h := bs'[i + 1].addr, Expected(bs', i + 1);
    var m1 := PutHeader(m, t, h);
    TailIntact(m, bs, next, i, req, h, j);
    var m2 := m1;
    if i + 1 < |bs| {
      var g := HeaderAt(m1, bs[i + 1].addr).(prev := t);
      HeaderIntact(m1, bs, next, i + 1, g, j);
      m2 := PutHeader(m1, bs[i + 1].addr, g);
      IntactTrans(m, m1, m2, bs[j]);
    }
    HeaderIntact(m2, bs, next, i, Expected(bs', i), j);
    IntactTrans(m, m2, PutHeader(m2, bs[i].addr, Expected(bs', i)), bs[j]);
  }

  lemma TailIntact(m: Mem, bs: seq<Block>, next: nat, i: nat, req: nat, h: Header, j: nat)
    requires Tiles(bs, next) && CanSplit(bs, i, req) && j < |bs| && j != i
    ensures Intact(m, PutHeader(m, TailOf(bs[i], req).addr, h), bs[j])
  {
    assert TileOk(bs, next, i) && TileOk(bs, next, j);
    BlocksApart(bs, next, i, j);
    PutIntact(m, TailOf(bs[i], req).addr, h, bs[j]);
  }

  // ---- Merging a block with the next ----

  function MergeAt(bs: seq<Block>, i: nat): (r: seq<Block>)
    requires i + 1 < |bs|
    ensures |r| == |bs| - 1
  {
    var all := bs[i].capacity + HEADER + bs[i + 1].capacity;
    bs[..i] + [bs[i].(size := all, capacity := all)] + bs[i + 2..]
  }

  lemma MergeExpected(bs: seq<Block>, i: nat)
    requires i + 1 < |bs|
    ensures var all := bs[i].capacity + HEADER + bs[i + 1].capacity;
      Expected(MergeAt(bs, i), i) == Expected(bs, i).(size := all, capacity := all, next := Expected(bs, i + 1).next)
  {
    var bs' := MergeAt(bs, i);
    assert i + 2 < |bs| ==> bs'[i + 1] == bs[i + 2];
    assert i > 0 ==> bs'[i - 1] == bs[i - 1];
  }

  function MergeMem(m: Mem, bs: seq<Block>, i: nat): Mem
    requires i + 1 < |bs|
  {
    var bs' := MergeAt(bs, i);
    var m1 := PutHeader(m, bs[i].addr, Expected(bs', i));
    if i + 2 < |bs| then PutHeader(m1, bs[i + 2].addr, HeaderAt(m1, bs[i + 2].addr).(prev := bs[i].addr)) else m1
  }

  lemma MergeTiles(bs: seq<Block>, next: nat, i: nat)
    requires Tiles(bs, next) && i + 1 < |bs|
    ensures Tiles(MergeAt(bs, i), next)
  {
    var bs' := MergeAt(bs, i);
    assert TileOk(bs, next, i) && TileOk(bs, next, i + 1);
    forall j: nat | j < |bs'| ensures TileOk(bs', next, j) {
      if j < i { assert TileOk(bs, next, j); }
      if j > i { assert TileOk(bs, next, j + 1); }
    }
  }

  lemma MergeHeader(m: Mem, m1: Mem, m2: Mem, bs: seq<Block>, bs': seq<Block>, head: nat, next: nat, i: nat, j: nat)
    requires Linked(m, bs, head, next) && i + 1 < |bs| && bs' == MergeAt(bs, i) && Tiles(bs', next) && j < |bs'|
    requires Wrote(m, m1, bs[i].addr, Expected(bs', i))
    requires i + 2 == |bs| ==> m2 == m1
    requires i + 2 < |bs| ==> Wrote(m1, m2, bs[i + 2].addr, HeaderAt(m1, bs[i + 2].addr).(prev := bs[i].addr))
    ensures HeaderOk(m2, bs', j)
  {
    var x := bs'[j].addr;
    HeadersClear(bs', next, i, j);
    assert j != i ==> KeptHeader(m, m1, x);
    if i + 2 < |bs| {
      assert bs'[i + 1] == bs[i + 2];
      HeadersClear(bs', next, i + 1, j);
      assert j != i + 1 ==> KeptHeader(m1, m2, x);
      assert HeaderOk(m, bs, i + 2);
    }
    if j < i { assert HeaderOk(m, bs, j) && bs'[j] == bs[j]; }
    if j > i { assert HeaderOk(m, bs, j + 1) && bs'[j] == bs[j + 1]; }
  }

  lemma MergeLinked(m: Mem, bs: seq<Block>, head: nat, next: nat, i: nat)
    requires Linked(m, bs, head, next) && i + 1 < |bs|
    ensures Linked(MergeMem(m, bs, i), MergeAt(bs, i), head, next)
  {
    MergeTiles(bs, next, i);
    var bs', m' := MergeAt(bs, i), MergeMem(m, bs, i);
    var m1 := PutHeader(m, bs[i].addr, Expected(bs', i));
    PutWrote(m, bs[i].addr, Expected(bs', i));
    if i + 2 < |bs| { PutWrote(m1, bs[i + 2].addr, HeaderAt(m1, bs[i + 2].addr).(prev := bs[i].addr)); }
    forall j: nat | j < |bs'| ensures HeaderOk(m', bs', j) { MergeHeader(m, m1, m', bs, bs', head, next, i, j); }
  }

  lemma MergeIntact(m: Mem, bs: seq<Block>, next: nat, i: nat, j: nat)
    requires Tiles(bs, next) && i + 1 < |bs| && j < |bs|
    ensures Intact(m, MergeMem(m, bs, i), bs[j])
  {
    var m1 := PutHeader(m, bs[i].addr, Expected(MergeAt(bs, i), i));
    HeaderIntact(m, bs, next, i, Expected(MergeAt(bs, i), i), j);
    if i + 2 < |bs| {
      HeaderIntact(m1, bs, next, i + 2, HeaderAt(m1, bs[i + 2].addr).(prev := bs[i].addr), j);
      IntactTrans(m, m1, MergeMem(m, bs, i), bs[j]);
    }
  }

  // ---- A new block at the end ----

  function AppendMem(m: Mem, bs: seq<Block>, b: Block): Mem {
    var bs' := bs + [b];
    var m1 := PutHeader(m, b.addr, Expected(bs', |bs|));
    if bs == [] then m1
    else
      var a := bs[|bs| - 1].addr;
      PutHeader(m1, a, HeaderAt(m1, a).(next := b.addr))
  }

  lemma AppendTiles(bs: seq<Block>, next: nat, b: Block)
    requires Tiles(bs, next) && b.addr == next && BlockOk(b)
    ensures Tiles(bs + [b], End(b))
  {
    var bs' := bs + [b];
    forall j: nat | j < |bs'| ensures TileOk(bs', End(b), j) { if j < |bs| { assert TileOk(bs, next, j); } }
  }

  lemma AppendHeader(m: Mem, m1: Mem, m2: Mem, bs: seq<Block>, bs': seq<Block>, head: nat, next: nat, b: Block, j: nat)
    requires Linked(m, bs, head, next) && bs' == bs + [b] && Tiles(bs', End(b)) && j < |bs'|
    requires Wrote(m, m1, b.addr, Expected(bs', |bs|))
    requires bs == [] ==> m2 == m1
    requires bs != [] ==> Wrote(m1, m2, bs[|bs| - 1].addr, HeaderAt(m1, bs[|bs| - 1].addr).(next := b.addr))
    ensures HeaderOk(m2, bs', j)
  {
    var n, x := |bs|, bs'[j].addr;
    HeadersClear(bs', End(b), n, j);
    assert j != n ==> KeptHeader(m, m1, x);
    if bs != [] {
      assert bs'[n - 1] == bs[n - 1];
      HeadersClear(bs', End(b), n - 1, j);
      assert j != n - 1 ==> KeptHeader(m1, m2, x);
      assert HeaderOk(m, bs, n - 1);
    }
    if j < n { assert HeaderOk(m, bs, j) && bs'[j] == bs[j]; }
  }

  lemma AppendLinked(m: Mem, bs: seq<Block>, head: nat, next: nat, b: Block)
    requires Linked(m, bs, head, next) && b.addr == next && BlockOk(b) && End(b) <= LIMIT
    ensures Linked(AppendMem(m, bs, b), bs + [b], BASE, End(b))
  {
    AppendTiles(bs, next, b);
    var bs', m' := bs + [b], AppendMem(m, bs, b);
    var m1 := PutHeader(m, b.addr, Expected(bs', |bs|));
    PutWrote(m, b.addr, Expected(bs', |bs|));
    if bs != [] { PutWrote(m1, bs[|bs| - 1].addr, HeaderAt(m1, bs[|bs| - 1].addr).(next := b.addr)); }
    forall j: nat | j < |bs'| ensures HeaderOk(m', bs', j) { AppendHeader(m, m1, m', bs, bs', head, next, b, j); }
  }

  lemma AppendIntact(m: Mem, bs: seq<Block>, next: nat, b: Block, j: nat)
    requires Tiles(bs, next) && b.addr == next && BlockOk(b) && j < |bs|
    ensures Intact(m, AppendMem(m, bs, b), bs[j])
  {
    var bs' := bs + [b];
    var m1 := PutHeader(m, b.addr, Expected(bs', |bs|));
    BeforeNext(bs, next, j);
    PutIntact(m, b.addr, Expected(bs', |bs|), bs[j]);
    var a := bs[|bs| - 1].addr;
    HeaderIntact(m1, bs, next, |bs| - 1, HeaderAt(m1, a).(next := b.addr), j);
    IntactTrans(m, m1, AppendMem(m, bs, b), bs[j]);
  }

  // ---- Accounting ----

  /** The capacity of the free blocks. */
  function FreeSum(bs: seq<Block>): nat {
    if bs == [] then 0 else (if bs[0].free then bs[0].capacity else 0) + FreeSum(bs[1..])
  }

  function UsedCount(bs: seq<Block>): nat {
    if bs == [] then 0 else (if bs[0].free then 0 else 1) + UsedCount(bs[1..])
  }

  lemma {:induction false} SumAppend(a: seq<Block>, b: seq<Block>)
    ensures FreeSum(a + b) == FreeSum(a) + FreeSum(b) && UsedCount(a + b) == UsedCount(a) + UsedCount(b)
  {
    if a == [] { assert a + b == b; }
    else {
      assert (a + b)[1..] == a[1..] + b;
      SumAppend(a[1..], b);
    }
  }

  /** Replacing the middle of a list. */
  lemma SumMiddle(a: seq<Block>, b: seq<Block>, c: seq<Block>)
    ensures FreeSum(a + b + c) == FreeSum(a) + FreeSum(b) + FreeSum(c)
    ensures UsedCount(a + b + c) == UsedCount(a) + UsedCount(b) + UsedCount(c)
  {
    SumAppend(a + b, c);
    SumAppend(a, b);
  }

  lemma SumOne(b: Block)
    ensures FreeSum([b]) == (if b.free then b.capacity else 0) && UsedCount([b]) == if b.free then 0 else 1
  {
    assert [b][1..] == [];
  }

  lemma EditSum(bs: seq<Block>, i: nat, b: Block)
    requires i < |bs|
    ensures FreeSum(bs[i := b]) + (if bs[i].free then bs[i].capacity else 0) ==
      FreeSum(bs) + if b.free then b.capacity else 0
    ensures UsedCount(bs[i := b]) + (if bs[i].free then 0 else 1) == UsedCount(bs) + if b.free then 0 else 1
  {
    assert bs == bs[..i] + [bs[i]] + bs[i + 1..] && bs[i := b] == bs[..i] + [b] + bs[i + 1..];
    SumMiddle(bs[..i], [bs[i]], bs[i + 1..]);
    SumMiddle(bs[..i], [b], bs[i + 1..]);
    SumOne(bs[i]);
    SumOne(b);
  }

  lemma SplitSum(bs: seq<Block>, i: nat, req: nat)
    requires CanSplit(bs, i, req) && !bs[i].free
    ensures FreeSum(SplitAt(bs, i, req)) == FreeSum(bs) + TailOf(bs[i], req).capacity
    ensures UsedCount(SplitAt(bs, i, req)) == UsedCount(bs)
  {
    var b, t := bs[i].(size := req, capacity := req), TailOf(bs[i], req);
    assert bs == bs[..i] + [bs[i]] + bs[i + 1..];
    SumMiddle(bs[..i], [bs[i]], bs[i + 1..]);
    SumMiddle(bs[..i], [b, t], bs[i + 1..]);
    assert [b, t] == [b] + [t];
    SumAppend([b], [t]);
    SumOne(bs[i]);
    SumOne(b);
    SumOne(t);
  }

  lemma MergeSum(bs: seq<Block>, i: nat)
    requires i + 1 < |bs| && bs[i].free && bs[i + 1].free
    ensures FreeSum(MergeAt(bs, i)) == FreeSum(bs) + HEADER && UsedCount(MergeAt(bs, i)) == UsedCount(bs)
  {
    var b := MergeAt(bs, i)[i];
    assert bs == bs[..i] + [bs[i], bs[i + 1]] + bs[i + 2..];
    SumMiddle(bs[..i], [bs[i], bs[i + 1]], bs[i + 2..]);
    SumMiddle(bs[..i], [b], bs[i + 2..]);
    assert [bs[i], bs[i + 1]] == [bs[i]] + [bs[i + 1]];
    SumAppend([bs[i]], [bs[i + 1]]);
    SumOne(bs[i]);
    SumOne(bs[i + 1]);
    SumOne(b);
  }

  // ---- No two free blocks in a row ----

  predicate ApartFrom(bs: seq<Block>, i: nat) { i + 1 < |bs| ==> !(bs[i].free && bs[i + 1].free) }

  ghost predicate Compact(bs: seq<Block>) { forall i: nat {:trigger ApartFrom(bs, i)} | i < |bs| :: ApartFrom(bs, i) }

  /** The arena as the allocator leaves it between calls. */
  ghost predicate HeapOk(m: Mem, bs: seq<Block>, head: nat, next: nat, freeBytes: nat, allocations: nat) {
    Linked(m, bs, head, next) && Compact(bs) && freeBytes == FreeSum(bs) && allocations == UsedCount(bs)
  }
}
