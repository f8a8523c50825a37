/** Building and taking back cluster chains: the copies of the FAT, the free
    clusters, and the bytes stored along a chain. */
module FatGrow {
  import opened Basics
  import opened Counting
  import opened FatTypes
  import opened FatChains
  import opened FatTree

  // ---- Copies of the FAT ----

  type Copies = seq<seq<Cell>>

  predicate CopyOk(copy: seq<Cell>, fat: Fat) { |copy| == |fat| && forall c | 0 <= c < |fat| :: Low(copy[c]) == fat[c] }

  /** Every copy of the FAT holds the same 28-bit values. */
  ghost predicate Mirrored(fats: Copies, fat: Fat) {
    fats != [] && forall k {:trigger CopyOk(fats[k], fat)} | 0 <= k < |fats| :: CopyOk(fats[k], fat)
  }

  predicate TopsOk(copy: seq<Cell>, copy': seq<Cell>) {
    |copy'| == |copy| && forall c | 0 <= c < |copy| :: Nibble(copy'[c]) == Nibble(copy[c])
  }

  /** The reserved top nibbles are what they were. */
  ghost predicate SameTops(fats: Copies, fats': Copies) {
    |fats'| == |fats| && forall k {:trigger TopsOk(fats[k], fats'[k])} | 0 <= k < |fats| :: TopsOk(fats[k], fats'[k])
  }

  lemma SameTopsSame(fats: Copies)
    ensures SameTops(fats, fats)
  {
    forall k | 0 <= k < |fats| ensures TopsOk(fats[k], fats[k]) {}
  }

  lemma SameTopsTrans(f0: Copies, f1: Copies, f2: Copies)
    requires SameTops(f0, f1) && SameTops(f1, f2)
    ensures SameTops(f0, f2)
  {
    forall k | 0 <= k < |f0| ensures TopsOk(f0[k], f2[k]) { assert TopsOk(f0[k], f1[k]) && TopsOk(f1[k], f2[k]); }
  }

  /** Copies with the same values and top nibbles are the same copies. */
  lemma SameCopies(f0: Copies, f1: Copies, fat: Fat)
    requires Mirrored(f0, fat) && Mirrored(f1, fat) && SameTops(f0, f1)
    ensures f0 == f1
  {
    forall k | 0 <= k < |f0| ensures f0[k] == f1[k] {
      assert CopyOk(f0[k], fat) && CopyOk(f1[k], fat) && TopsOk(f0[k], f1[k]);
      forall c | 0 <= c < |fat| ensures f0[k][c] == f1[k][c] { SameCell(f0[k][c], f1[k][c]); }
    }
  }

  // ---- A chain under construction can be taken back ----

  predicate WasFree(fat0: Fat, fat: Fat, ch: seq<nat>, c: nat) {
    c < |fat| == |fat0| && fat0[c] == if c in ch then 0 else fat[c]
  }

  predicate KeptHead(sh0: Shape, sh: Shape, h: nat, g: nat) {
    (g in sh0.chains <==> g in sh.chains && g != h) && (g in sh0.chains ==> sh.chains[g] == sh0.chains[g])
  }

  predicate KeptOwner(sh0: Shape, sh: Shape, h: nat, c: nat) {
    && (c in sh0.owner <==> c in sh.owner && sh.owner[c].head != h)
    && (c in sh0.owner ==> sh.owner[c] == sh0.owner[c])
  }

  /** The chain `h` was built from clusters that were free; all else is as before. */
  ghost predicate Grown(fat0: Fat, sh0: Shape, fat: Fat, sh: Shape, h: nat) {
    && |fat| == |fat0| && h in sh.chains
    && sh.tree == sh0.tree && sh.home == sh0.home && sh.loc == sh0.loc && sh.ends == sh0.ends
    && (forall g: nat {:trigger KeptHead(sh0, sh, h, g)} :: KeptHead(sh0, sh, h, g))
    && (forall c: nat {:trigger KeptOwner(sh0, sh, h, c)} :: KeptOwner(sh0, sh, h, c))
    && (forall c: nat {:trigger WasFree(fat0, fat, sh.chains[h], c)} | c < |fat| :: WasFree(fat0, fat, sh.chains[h], c))
  }

  lemma GrownStart(fat: Fat, sh: Shape, c: nat)
    requires ChainsOk(fat, sh.chains, sh.owner) && 2 <= c < |fat| && fat[c] == 0
    ensures Grown(fat, sh, fat[c := EOC], AllocShape(sh, c), c)
  {
    AllocChains(fat, sh.chains, sh.owner, c);
    var sh' := AllocShape(sh, c);
    forall x: nat ensures KeptOwner(sh, sh', c, x) { assert x in sh.owner ==> OwnerListed(sh.chains, sh.owner, x); }
    forall g: nat ensures KeptHead(sh, sh', c, g) {}
  }

  /** Allocating `c` and linking it to the chain `h`. */
  lemma GrownLink(fat0: Fat, sh0: Shape, fat: Fat, sh: Shape, h: nat, c: nat)
    requires ChainsOk(fat, sh.chains, sh.owner) && Grown(fat0, sh0, fat, sh, h)
    requires 2 <= c < |fat| && fat[c] == 0 && c != h
    ensures sh.chains[h] != [] && var last := sh.chains[h][|sh.chains[h]| - 1];
      last < |fat| && last != c && Grown(fat0, sh0, fat[c := EOC][last := c], LinkShape(AllocShape(sh, c), h, c), h)
  {
    AllocChains(fat, sh.chains, sh.owner, c);
    assert HeadFirst(sh.chains, h) && Owned(fat, sh.chains, sh.owner, h, |sh.chains[h]| - 1);
    var sh' := LinkShape(AllocShape(sh, c), h, c);
    InChain(fat, sh.chains, sh.owner, h, c);
    forall g: nat ensures KeptHead(sh0, sh', h, g) { assert KeptHead(sh0, sh, h, g); }
    forall x: nat ensures KeptOwner(sh0, sh', h, x) { assert KeptOwner(sh0, sh, h, x); }
    assert sh'.chains[h] == sh.chains[h] + [c];
    var last := sh.chains[h][|sh.chains[h]| - 1];
    var fat' := fat[c := EOC][last := c];
    forall x: nat | x < |fat| ensures WasFree(fat0, fat', sh'.chains[h], x) {
      assert WasFree(fat0, fat, sh.chains[h], x);
    }
  }

  /** Only the contents matter once the chain is taken back. */
  lemma FrameBack(data0: Data, sh0: Shape, data: Data, sh: Shape)
    requires Frame(data0, sh0, data, sh)
    ensures Frame(data0, sh0, data, sh0)
  {
    forall c: nat ensures SameCluster(data0, sh0, data, sh0, c) { assert SameCluster(data0, sh0, data, sh, c); }
  }

  lemma GrownFree(fat0: Fat, sh0: Shape, fat: Fat, sh: Shape, h: nat, fat': Fat)
    requires Grown(fat0, sh0, fat, sh, h) && Zeroed(fat, fat', sh.chains[h])
    ensures fat' == fat0 && FreeShape(sh, h) == sh0
  {
    forall c: nat | c < |fat| ensures fat'[c] == fat0[c] {
      assert WasFree(fat0, fat, sh.chains[h], c) && ZeroedAt(fat, fat', sh.chains[h], c);
    }
    var sh' := FreeShape(sh, h);
    assert sh'.chains == sh0.chains by {
      forall g: nat ensures g in sh'.chains <==> g in sh0.chains { assert KeptHead(sh0, sh, h, g); }
      forall g | g in sh0.chains ensures sh'.chains[g] == sh0.chains[g] { assert KeptHead(sh0, sh, h, g); }
    }
    assert sh'.owner == sh0.owner by {
      forall c: nat ensures c in sh'.owner <==> c in sh0.owner { assert KeptOwner(sh0, sh, h, c); }
      forall c | c in sh0.owner ensures sh'.owner[c] == sh0.owner[c] { assert KeptOwner(sh0, sh, h, c); }
    }
  }

  /** What a walk along the chain `h` sees at its position `k`. */
  lemma ChainAt(fat: Fat, chains: Chains, owner: Owners, h: nat, k: nat)
    requires ChainsOk(fat, chains, owner) && h in chains && (k == 0 || k < |chains[h]|)
    ensures var ch := chains[h];
      && k < |ch| <= |fat| - 2 && ch[0] == h && 2 <= ch[k] < |fat| && ch[k] !in ch[..k]
      && var v := fat[ch[k]];
      if k + 1 < |ch| then v == ch[k + 1] && 2 <= v < |fat| && !IsEnd(v) else IsEnd(v)
  {
    ChainDistinct(fat, chains, owner, h);
    forall j: nat | j < k < |chains[h]| ensures chains[h][j] != chains[h][k] { assert Apart(chains[h], j, k); }
    assert HeadFirst(chains, h) && Owned(fat, chains, owner, h, k) && NextOk(fat, chains, h, k);
    assert k + 1 < |chains[h]| ==> Owned(fat, chains, owner, h, k + 1);
  }

  lemma ZeroedNext(fat0: Fat, fat: Fat, ch: seq<nat>, k: nat)
    requires k < |ch| && ch[k] < |fat| && Zeroed(fat0, fat, ch[..k]) && ch[k] !in ch[..k]
    ensures fat[ch[k]] == fat0[ch[k]]
    ensures Zeroed(fat0, fat[ch[k] := 0], ch[..k + 1]) && (k + 1 == |ch| ==> ch[..k + 1] == ch)
  {
    assert ch[..k + 1] == ch[..k] + [ch[k]];
    var fat', done := fat[ch[k] := 0], ch[..k + 1];
    assert ZeroedAt(fat0, fat, ch[..k], ch[k]);
    forall c: nat | c < |fat0| ensures ZeroedAt(fat0, fat', done, c) { assert ZeroedAt(fat0, fat, ch[..k], c); }
  }

  // ---- Free clusters ----

  /** The free clusters below `k`. */
  ghost function FreeBelow(fat: Fat, k: nat): nat
    requires k <= |fat|
  {
    if k <= 2 then 0 else FreeBelow(fat, k - 1) + if fat[k - 1] == 0 then 1 else 0
  }

  ghost function FreeCount(fat: Fat): nat { FreeBelow(fat, |fat|) }

  /** Cluster `c` is free and below `k`. */
  function Free(fat: Fat, c: nat, k: nat): nat
    requires c < |fat|
  {
    if fat[c] == 0 && c < k then 1 else 0
  }

  lemma {:induction false} FreeUpdate(fat: Fat, c: nat, v: nat, k: nat)
    requires 2 <= c < |fat| && k <= |fat|
    ensures FreeBelow(fat[c := v], k) + Free(fat, c, k) == FreeBelow(fat, k) + Free(fat[c := v], c, k)
  {
    if k > 2 { FreeUpdate(fat, c, v, k - 1); }
  }

  lemma {:induction false} NoneFree(fat: Fat, k: nat)
    requires k <= |fat|
    ensures FreeBelow(fat, k) == 0 <==> forall x | 2 <= x < k :: fat[x] != 0
  {
    if k > 2 { NoneFree(fat, k - 1); }
  }

  /** A state of the volume; `orphans` are the chains that no entry points to. */
  datatype Snapshot = Snapshot(fats: Copies, fat: Fat, data: Data, sh: Shape, orphans: set<nat>)

  /** The chain `h` has been built since the state `s0`. */
  ghost predicate Building(s0: Snapshot, s: Snapshot, h: nat) {
    && SameTops(s0.fats, s.fats) && Frame(s0.data, s0.sh, s.data, s.sh) && Grown(s0.fat, s0.sh, s.fat, s.sh, h)
    && |s.sh.chains[h]| > 0 && FreeCount(s.fat) + |s.sh.chains[h]| == FreeCount(s0.fat)
  }

  lemma BuildFirst(s0: Snapshot, s: Snapshot, c: nat)
    requires ChainsOk(s0.fat, s0.sh.chains, s0.sh.owner) && 2 <= c < |s0.fat| && s0.fat[c] == 0
    requires SameTops(s0.fats, s.fats) && Frame(s0.data, s0.sh, s.data, s.sh)
    requires s.fat == s0.fat[c := EOC] && s.sh == AllocShape(s0.sh, c)
    ensures Building(s0, s, c)
  {
    GrownStart(s0.fat, s0.sh, c);
    FreeUpdate(s0.fat, c, EOC, |s0.fat|);
  }

  lemma BuildNext(s0: Snapshot, s1: Snapshot, s: Snapshot, h: nat, c: nat)
    requires Building(s0, s1, h) && ChainsOk(s1.fat, s1.sh.chains, s1.sh.owner)
    requires 2 <= c < |s1.fat| && c != h && s1.fat[c] == 0
    requires SameTops(s1.fats, s.fats) && Frame(s1.data, s1.sh, s.data, s.sh)
    requires var last := s1.sh.chains[h][|s1.sh.chains[h]| - 1];
      && 2 <= last < |s1.fat| && s1.fat[last] != 0
      && s.fat == s1.fat[c := EOC][last := c] && s.sh == LinkShape(AllocShape(s1.sh, c), h, c)
    ensures Building(s0, s, h)
  {
    GrownLink(s0.fat, s0.sh, s1.fat, s1.sh, h, c);
    FreeUpdate(s1.fat, c, EOC, |s1.fat|);
    FreeUpdate(s1.fat[c := EOC], s1.sh.chains[h][|s1.sh.chains[h]| - 1], c, |s1.fat|);
    FrameTrans(s0.data, s0.sh, s1.data, s1.sh, s.data, s.sh);
    SameTopsTrans(s0.fats, s1.fats, s.fats);
  }

  // ---- Contents ----

  /** `k` clusters hold `size` bytes, and one less would not. */
  predicate Tight(size: nat, k: nat, n: nat) { Fits(size, k, n) && (k > 0 ==> !Fits(size, k - 1, n)) }

  /** The clusters that a file of `size` bytes takes. */
  function Needed(size: nat, n: nat): (k: nat)
    requires n > 0
    ensures Tight(size, k, n)
  {
    NeededTight(size, n);
    (size + SLOT_BYTES * n - 1) / (SLOT_BYTES * n)
  }

  lemma {:induction false} CapacityIs(k: nat, n: nat)
    ensures Capacity(k, n) == k * (SLOT_BYTES * n)
  {
    if k > 0 {
      CapacityIs(k - 1, n);
      assert k * (SLOT_BYTES * n) == (k - 1) * (SLOT_BYTES * n) + SLOT_BYTES * n;
    }
  }

  lemma NeededTight(size: nat, n: nat)
    requires n > 0
    ensures Tight(size, (size + SLOT_BYTES * n - 1) / (SLOT_BYTES * n), n)
  {
    var cb := SLOT_BYTES * n;
    var k := (size + cb - 1) / cb;
    CapacityIs(k, n);
    assert size + cb - 1 == k * cb + (size + cb - 1) % cb;
    if k > 0 {
      CapacityIs(k - 1, n);
      assert k * cb == (k - 1) * cb + cb;
    }
  }

  lemma NeededFits(size: nat, n: nat)
    requires n > 0
    ensures Fits(size, Needed(size, n), n) && (size > 0 <==> Needed(size, n) > 0)
  {}

  /** That is the least number of clusters that holds the file. */
  lemma NeededLeast(size: nat, n: nat, k: nat)
    requires n > 0
    ensures Fits(size, k, n) <==> Needed(size, n) <= k
  {
    var least := Needed(size, n);
    if least <= k { CapacityMono(least, k, n); } else { CapacityMono(k, least - 1, n); }
  }

  /** Some number of clusters holds `size` bytes and can be spared beside `cost` more. */
  ghost predicate HasRoom(size: nat, n: nat, cost: nat, free: nat) {
    exists k: nat :: Fits(size, k, n) && k + cost <= free
  }

  lemma HasRoomIs(size: nat, n: nat, cost: nat, free: nat)
    requires n > 0
    ensures HasRoom(size, n, cost, free) <==> Needed(size, n) + cost <= free
  {
    if HasRoom(size, n, cost, free) {
      var k: nat :| Fits(size, k, n) && k + cost <= free;
      NeededLeast(size, n, k);
    } else {
      assert Fits(size, Needed(size, n), n);
    }
  }

  lemma {:induction false} CapacityMono(a: nat, b: nat, n: nat)
    requires a <= b
    ensures Capacity(a, n) <= Capacity(b, n)
  {
    if a < b { CapacityMono(a, b - 1, n); }
  }

  /** A file that does not end in its first `k` clusters has another one. */
  lemma CapacityLess(size: nat, clusters: nat, n: nat, k: nat)
    requires Fits(size, clusters, n) && Capacity(k, n) < size
    ensures k < clusters
  {
    if k >= clusters { CapacityMono(clusters, k, n); }
  }

  lemma {:induction false} FlatAppend(data: Data, a: seq<nat>, b: seq<nat>)
    ensures Flat(data, a + b) == Flat(data, a) + Flat(data, b)
  {
    if a == [] { assert a + b == b; }
    else {
      assert (a + b)[1..] == a[1..] + b;
      FlatAppend(data, a[1..], b);
    }
  }

  /** Writing the cluster at position `k` appends to what the first `k` hold. */
  lemma {:induction false} FlatNext(data: Data, ch: seq<nat>, k: nat, b: seq<Byte>)
    requires k < |ch| && ch[k] < |data| && ch[k] !in ch[..k]
    ensures Flat(data[ch[k] := b], ch[..k + 1]) == Flat(data, ch[..k]) + b
  {
    var data' := data[ch[k] := b];
    assert ch[..k + 1] == ch[..k] + [ch[k]];
    FlatAppend(data', ch[..k], [ch[k]]);
    assert [ch[k]][1..] == [];
    assert Flat(data', [ch[k]]) == b + Flat(data', []);
    FlatSame(data, data', ch[..k]);
  }

  /** The first `k` clusters of a chain hold the first `w` bytes of `buf`. */
  ghost predicate Stored(data: Data, ch: seq<nat>, k: nat, buf: seq<Byte>, w: nat) {
    k <= |ch| && w <= |buf| && buf[..w] <= Flat(data, ch[..k])
  }

  lemma {:induction false} StoredNext(data: Data, ch: seq<nat>, k: nat, buf: seq<Byte>, w: nat, chunk: nat, pad: nat)
    requires Stored(data, ch, k, buf, w) && |Flat(data, ch[..k])| == w && w + chunk <= |buf|
    requires k < |ch| && ch[k] < |data| && ch[k] !in ch[..k]
    ensures var data' := data[ch[k] := buf[w..w + chunk] + Zeros(pad)];
      Stored(data', ch, k + 1, buf, w + chunk) && |Flat(data', ch[..k + 1])| == w + chunk + pad
  {
    FlatNext(data, ch, k, buf[w..w + chunk] + Zeros(pad));
    assert buf[..w + chunk] == buf[..w] + buf[w..w + chunk];
  }

  lemma {:induction false} StoredAll(data: Data, ch: seq<nat>, k: nat, buf: seq<Byte>)
    requires Stored(data, ch, k, buf, |buf|)
    ensures Take(Flat(data, ch), |buf|) == buf
  {
    FlatAppend(data, ch[..k], ch[k..]);
    assert ch[..k] + ch[k..] == ch && buf[..|buf|] == buf;
  }
}
