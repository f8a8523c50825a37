/** The directory tree on a FAT32 volume: which entry, chain and cluster belong
    to which path, and what publishing, replacing and deleting an entry do. */
module FatTree {
  import opened Basics
  import opened FatTypes
  import opened FatChains

  datatype Path = Top | In(parent: Path, name: Name)

  /** What a directory entry says about its file or directory. */
  datatype Info = Info(isDir: bool, first: nat, size: nat)

  function InfoOf(d: Dirent): Info { Info(IsDirAttr(d.attr), d.first, d.size) }

  /** Where an entry is stored, and where a slot stands in its directory. */
  datatype Loc = Loc(cluster: nat, slot: nat)
  datatype Pos = Pos(j: nat, i: nat)

  predicate Before(p: Pos, q: Pos) { p.j < q.j || (p.j == q.j && p.i < q.i) }

  type Data = seq<seq<Byte>>   // cluster contents

  /** The meaning of the bytes on the volume: chains and owners of clusters,
      the tree of entries, the path of each chain, the slot of each path, and
      the end-of-directory position of each directory. */
  datatype Shape = Shape(
    chains: Chains, owner: Owners, tree: map<Path, Info>,
    home: map<nat, Path>, loc: map<Path, Loc>, ends: map<nat, Pos>)

  predicate DataOk(data: Data, clusters: nat, n: nat) {
    && 16 <= n && |data| == clusters
    && (forall c | 0 <= c < |data| :: |data[c]| == SLOT_BYTES * n)
  }

  /** Slot `i` of cluster `c`. */
  function Slot(data: Data, c: nat, i: nat): (d: Dirent)
    ensures |d.name| == 11
  {
    if c < |data| && SLOT_BYTES * (i + 1) <= |data[c]| then SlotAt(data[c], i)
    else Dirent(Zeros(11), 0, Zeros(8), 0, Zeros(4), 0)
  }

  /** Cluster `c` belongs to a directory. */
  predicate IsDirCluster(sh: Shape, c: nat) {
    c in sh.owner && sh.owner[c].head in sh.home && sh.home[sh.owner[c].head] in sh.tree &&
    sh.tree[sh.home[sh.owner[c].head]].isDir
  }

  function DirOf(sh: Shape, c: nat): Path
    requires IsDirCluster(sh, c)
  {
    sh.home[sh.owner[c].head]
  }

  /** The bytes in a number of clusters of `n` slots. */
  function Capacity(clusters: nat, n: nat): nat {
    if clusters == 0 then 0 else SLOT_BYTES * n + Capacity(clusters - 1, n)
  }

  predicate Fits(size: nat, clusters: nat, n: nat) { size <= Capacity(clusters, n) }

  /** The end of directory `f` is a position in its chain, or just after it. */
  predicate EndOk(sh: Shape, n: nat, f: nat) {
    f in sh.chains && f in sh.ends && sh.ends[f].i < n && !Before(Pos(|sh.chains[f]|, 0), sh.ends[f])
  }

  /** The chain of `q` is its own; an empty file may have none. */
  predicate HeadOk(sh: Shape, n: nat, q: Path) {
    q in sh.tree &&
    var f := sh.tree[q].first;
    if f == 0 then !sh.tree[q].isDir && sh.tree[q].size == 0
    else
      && f in sh.chains && f in sh.home && sh.home[f] == q
      && (if sh.tree[q].isDir then EndOk(sh, n, f) else Fits(sh.tree[q].size, |sh.chains[f]|, n))
  }

  predicate Listed(sh: Shape, q: Path) { q in sh.tree && q.In? }

  /** The entry of `q` is where `loc` says, in a cluster of its parent. */
  predicate LocOk(data: Data, n: nat, sh: Shape, q: Path) {
    && Listed(sh, q) && q in sh.loc
    && var l := sh.loc[q];
    && IsDirCluster(sh, l.cluster) && DirOf(sh, l.cluster) == q.parent && l.slot < n
    && var d := Slot(data, l.cluster, l.slot);
    Live(d) && !Special(d) && d.name == q.name && InfoOf(d) == sh.tree[q]
  }

  /** Slot `i` of directory cluster `c`: free slots at the end, and every
      entry that is not `.` or `..` is the entry of a path. */
  predicate SlotOk(data: Data, sh: Shape, c: nat, i: nat) {
    IsDirCluster(sh, c) &&
    var d, h := Slot(data, c, i), sh.owner[c].head;
    && h in sh.ends
    && (d.name[0] != 0 <==> Before(Pos(sh.owner[c].pos, i), sh.ends[h]))
    && (Live(d) && !Special(d) ==>
          var q := In(DirOf(sh, c), d.name);
          PathName(d.name) && q in sh.tree && q in sh.loc && sh.loc[q] == Loc(c, i) && sh.tree[q] == InfoOf(d))
  }

  predicate ParentOk(sh: Shape, q: Path) {
    Listed(sh, q) && q.parent in sh.tree && sh.tree[q.parent].isDir && PathName(q.name)
  }

  predicate HomeOk(sh: Shape, h: nat) {
    h in sh.home && h >= 2 && sh.home[h] in sh.tree && sh.tree[sh.home[h]].first == h
  }

  predicate HeadKnown(sh: Shape, orphans: set<nat>, h: nat) {
    (h in sh.chains <==> h in sh.home || h in orphans) && !(h in sh.home && h in orphans)
  }

  /** Every chain belongs to a path or is one of the orphans. */
  ghost predicate HeadsOk(sh: Shape, orphans: set<nat>) {
    forall h: nat {:trigger HeadKnown(sh, orphans, h)} :: HeadKnown(sh, orphans, h)
  }

  /** The tree is what the directories say, each path has its own chain, and
      every chain belongs to a path or is one of the `orphans` under construction. */
  ghost predicate TreeOk(data: Data, n: nat, sh: Shape, root: nat, orphans: set<nat>) {
    && Top in sh.tree && sh.tree[Top] == Info(true, root, 0)
    && (forall q {:trigger ParentOk(sh, q)} | Listed(sh, q) :: ParentOk(sh, q))
    && (forall q {:trigger HeadOk(sh, n, q)} | q in sh.tree :: HeadOk(sh, n, q))
    && (forall h {:trigger HomeOk(sh, h)} | h in sh.home :: HomeOk(sh, h))
    && HeadsOk(sh, orphans)
    && (forall q {:trigger LocOk(data, n, sh, q)} | Listed(sh, q) :: LocOk(data, n, sh, q))
    && (forall c: nat, i: nat {:trigger SlotOk(data, sh, c, i)} | IsDirCluster(sh, c) && i < n ::
           SlotOk(data, sh, c, i))
  }

  ghost predicate VolumeOk(fat: Fat, data: Data, n: nat, sh: Shape, root: nat, orphans: set<nat>) {
    && ChainsOk(fat, sh.chains, sh.owner) && DataOk(data, |fat|, n)
    && TreeOk(data, n, sh, root, orphans)
  }

  // ---- The abstract file system ----

  datatype Node = Dir | File(bytes: seq<Byte>)

  /** The contents of a chain, cluster after cluster. */
  function Flat(data: Data, ch: seq<nat>): seq<Byte> {
    if ch == [] then [] else (if ch[0] < |data| then data[ch[0]] else []) + Flat(data, ch[1..])
  }

  function Take(b: seq<Byte>, size: nat): (r: seq<Byte>)
    ensures r <= b && |r| <= size && (r == b || |r| == size)
  {
    if size <= |b| then b[..size] else b
  }

  function Bytes(data: Data, sh: Shape, info: Info): seq<Byte> {
    if info.first >= 2 && info.first in sh.chains then Take(Flat(data, sh.chains[info.first]), info.size) else []
  }

  /** What a path names. */
  function Lookup(data: Data, sh: Shape, q: Path): Option<Node> {
    if q !in sh.tree then None
    else if sh.tree[q].isDir then Some(Dir)
    else Some(File(Bytes(data, sh, sh.tree[q])))
  }

  /** `q` now names `node`; every other path names what it named before. */
  ghost predicate OnlyChanged(data: Data, sh: Shape, data': Data, sh': Shape, q: Path, node: Option<Node>) {
    forall x: Path :: Lookup(data', sh', x) == if x == q then node else Lookup(data, sh, x)
  }

  ghost predicate SameFiles(data: Data, sh: Shape, data': Data, sh': Shape) {
    forall x: Path :: Lookup(data', sh', x) == Lookup(data, sh, x)
  }

  lemma SameFilesTrans(d0: Data, s0: Shape, d1: Data, s1: Shape, d2: Data, s2: Shape)
    requires SameFiles(d0, s0, d1, s1) && SameFiles(d1, s1, d2, s2)
    ensures SameFiles(d0, s0, d2, s2)
  {
    forall x: Path ensures Lookup(d2, s2, x) == Lookup(d0, s0, x) { assert Lookup(d1, s1, x) == Lookup(d0, s0, x); }
  }

  /** A change after a step that changes no file. */
  lemma OnlyChangedAfter(d0: Data, s0: Shape, d1: Data, s1: Shape, d2: Data, s2: Shape, q: Path, node: Option<Node>)
    requires SameFiles(d0, s0, d1, s1) && OnlyChanged(d1, s1, d2, s2, q, node)
    ensures OnlyChanged(d0, s0, d2, s2, q, node)
  {
    forall x: Path ensures Lookup(d2, s2, x) == if x == q then node else Lookup(d0, s0, x) {
      assert Lookup(d1, s1, x) == Lookup(d0, s0, x);
    }
  }

  /** A change before a step that changes no file. */
  lemma OnlyChangedBefore(d0: Data, s0: Shape, d1: Data, s1: Shape, d2: Data, s2: Shape, q: Path, node: Option<Node>)
    requires OnlyChanged(d0, s0, d1, s1, q, node) && SameFiles(d1, s1, d2, s2)
    ensures OnlyChanged(d0, s0, d2, s2, q, node)
  {
    forall x: Path ensures Lookup(d2, s2, x) == if x == q then node else Lookup(d0, s0, x) {
      assert Lookup(d2, s2, x) == Lookup(d1, s1, x);
    }
  }

  /** A change between two steps that change no file. */
  lemma OnlyChangedBetween(d0: Data, s0: Shape, d1: Data, s1: Shape, d2: Data, s2: Shape, d3: Data, s3: Shape,
                           q: Path, node: Option<Node>)
    requires SameFiles(d0, s0, d1, s1) && OnlyChanged(d1, s1, d2, s2, q, node) && SameFiles(d2, s2, d3, s3)
    ensures OnlyChanged(d0, s0, d3, s3, q, node)
  {
    forall x: Path ensures Lookup(d3, s3, x) == if x == q then node else Lookup(d0, s0, x) {
      assert Lookup(d3, s3, x) == Lookup(d2, s2, x) && Lookup(d1, s1, x) == Lookup(d0, s0, x);
    }
  }

  // ---- Steps that leave every published chain alone ----

  predicate SameChainOf(sh: Shape, sh': Shape, h: nat) {
    h in sh.chains ==> h in sh'.chains && sh'.chains[h] == sh.chains[h]
  }

  /** A cluster of a published chain keeps its owner and contents, and no other cluster joins one. */
  predicate SameCluster(data: Data, sh: Shape, data': Data, sh': Shape, c: nat) {
    && (c in sh.owner && sh.owner[c].head in sh.home ==>
          c in sh'.owner && sh'.owner[c] == sh.owner[c] && (c < |data| ==> c < |data'| && data'[c] == data[c]))
    && (c in sh'.owner && sh'.owner[c].head in sh.home ==> c in sh.owner && sh.owner[c] == sh'.owner[c])
  }

  /** Same published entries and chains; the contents of their clusters are unchanged. */
  ghost predicate Frame(data: Data, sh: Shape, data': Data, sh': Shape) {
    && sh'.tree == sh.tree && sh'.home == sh.home && sh'.loc == sh.loc && sh'.ends == sh.ends
    && |data'| == |data|
    && (forall h {:trigger SameChainOf(sh, sh', h)} | h in sh.home :: SameChainOf(sh, sh', h))
    && (forall c: nat {:trigger SameCluster(data, sh, data', sh', c)} :: SameCluster(data, sh, data', sh', c))
  }

  lemma FrameTree(data: Data, data': Data, n: nat, sh: Shape, sh': Shape, root: nat, orphans: set<nat>,
                  orphans': set<nat>)
    requires TreeOk(data, n, sh, root, orphans) && Frame(data, sh, data', sh')
    requires HeadsOk(sh', orphans')
    ensures TreeOk(data', n, sh', root, orphans')
  {
    forall q | Listed(sh', q) ensures ParentOk(sh', q) && LocOk(data', n, sh', q) {
      assert ParentOk(sh, q) && LocOk(data, n, sh, q);
      assert SameCluster(data, sh, data', sh', sh.loc[q].cluster);
    }
    forall q | q in sh'.tree ensures HeadOk(sh', n, q) {
      assert HeadOk(sh, n, q);
      if sh.tree[q].first != 0 { assert SameChainOf(sh, sh', sh.tree[q].first); }
    }
    forall h | h in sh'.home ensures HomeOk(sh', h) { assert HomeOk(sh, h); }
    forall c: nat, i: nat | IsDirCluster(sh', c) && i < n ensures SlotOk(data', sh', c, i) {
      assert SameCluster(data, sh, data', sh', c) && SlotOk(data, sh, c, i);
    }
  }

  lemma {:induction false} FlatSame(data: Data, data': Data, ch: seq<nat>)
    requires |data'| == |data| && forall i | 0 <= i < |ch| :: ch[i] < |data| ==> data'[ch[i]] == data[ch[i]]
    ensures Flat(data', ch) == Flat(data, ch)
  {
    if ch != [] { FlatSame(data, data', ch[1..]); }
  }

  lemma {:induction false} FrameFiles(fat: Fat, data: Data, data': Data, n: nat, sh: Shape, sh': Shape, root: nat,
                                      orphans: set<nat>)
    requires VolumeOk(fat, data, n, sh, root, orphans) && Frame(data, sh, data', sh')
    ensures SameFiles(data, sh, data', sh')
  {
    forall x: Path ensures Lookup(data', sh', x) == Lookup(data, sh, x) {
      if x in sh.tree && !sh.tree[x].isDir && sh.tree[x].first != 0 {
        assert HeadOk(sh, n, x);
        SameChain(fat, data, data', sh, sh', sh.tree[x].first);
      }
    }
  }

  lemma {:induction false} SameChain(fat: Fat, data: Data, data': Data, sh: Shape, sh': Shape, f: nat)
    requires ChainsOk(fat, sh.chains, sh.owner) && Frame(data, sh, data', sh') && f in sh.home && f in sh.chains
    ensures f in sh'.chains && Flat(data', sh'.chains[f]) == Flat(data, sh.chains[f])
  {
    assert SameChainOf(sh, sh', f);
    forall i: nat | i < |sh.chains[f]| && sh.chains[f][i] < |data|
      ensures data'[sh.chains[f][i]] == data[sh.chains[f][i]]
    {
      assert Owned(fat, sh.chains, sh.owner, f, i) && SameCluster(data, sh, data', sh', sh.chains[f][i]);
    }
    FlatSame(data, data', sh.chains[f]);
  }

  lemma FrameSame(data: Data, sh: Shape)
    ensures Frame(data, sh, data, sh)
  {
    forall h | h in sh.home ensures SameChainOf(sh, sh, h) {}
    forall c: nat ensures SameCluster(data, sh, data, sh, c) {}
  }

  lemma FrameTrans(d0: Data, s0: Shape, d1: Data, s1: Shape, d2: Data, s2: Shape)
    requires Frame(d0, s0, d1, s1) && Frame(d1, s1, d2, s2)
    ensures Frame(d0, s0, d2, s2)
  {
    forall h | h in s0.home ensures SameChainOf(s0, s2, h) { assert SameChainOf(s0, s1, h) && SameChainOf(s1, s2, h); }
    forall c: nat ensures SameCluster(d0, s0, d2, s2, c) {
      assert SameCluster(d0, s0, d1, s1, c) && SameCluster(d1, s1, d2, s2, c);
    }
  }

  // ---- Chains under construction ----

  function AllocShape(sh: Shape, c: nat): Shape {
    sh.(chains := sh.chains[c := [c]], owner := sh.owner[c := Owner(c, 0)])
  }

  ghost function LinkShape(sh: Shape, h: nat, c: nat): Shape
    requires h in sh.chains && h != c
  {
    sh.(chains := LinkedChains(sh.chains, h, c), owner := sh.owner[c := Owner(h, |sh.chains[h]|)])
  }

  ghost function FreeShape(sh: Shape, h: nat): Shape {
    sh.(chains := sh.chains - {h}, owner := FreedOwners(sh.owner, h))
  }

  lemma AllocVolume(fat: Fat, data: Data, n: nat, sh: Shape, root: nat, orphans: set<nat>, c: nat)
    requires VolumeOk(fat, data, n, sh, root, orphans) && 2 <= c < |fat| && fat[c] == 0
    ensures c !in sh.owner && c !in sh.chains && Frame(data, sh, data[c := Zeros(SLOT_BYTES * n)], AllocShape(sh, c))
    ensures VolumeOk(fat[c := EOC], data[c := Zeros(SLOT_BYTES * n)], n, AllocShape(sh, c), root, orphans + {c})
  {
    AllocChains(fat, sh.chains, sh.owner, c);
    var sh', data' := AllocShape(sh, c), data[c := Zeros(SLOT_BYTES * n)];
    assert HeadKnown(sh, orphans, c);
    forall h: nat ensures HeadKnown(sh', orphans + {c}, h) { assert HeadKnown(sh, orphans, h); }
    forall x: nat ensures SameCluster(data, sh, data', sh', x) {}
    FrameTree(data, data[c := Zeros(SLOT_BYTES * n)], n, sh, AllocShape(sh, c), root, orphans, orphans + {c});
  }

  lemma LinkVolume(fat: Fat, data: Data, n: nat, sh: Shape, root: nat, orphans: set<nat>, h: nat, c: nat)
    requires VolumeOk(fat, data, n, sh, root, orphans) && h in orphans && c in orphans && h != c
    requires h in sh.chains && c in sh.chains && sh.chains[c] == [c]
    ensures HeadFirst(sh.chains, h) && var last := sh.chains[h][|sh.chains[h]| - 1];
      && last < |fat| && Frame(data, sh, data, LinkShape(sh, h, c))
      && VolumeOk(fat[last := c], data, n, LinkShape(sh, h, c), root, orphans - {c})
  {
    LinkChains(fat, sh.chains, sh.owner, h, c);
    assert Owned(fat, sh.chains, sh.owner, c, 0) && HeadKnown(sh, orphans, h) && HeadKnown(sh, orphans, c);
    var sh', orphans' := LinkShape(sh, h, c), orphans - {c};
    forall g: nat ensures HeadKnown(sh', orphans', g) { assert HeadKnown(sh, orphans, g); }
    FrameTree(data, data, n, sh, LinkShape(sh, h, c), root, orphans, orphans - {c});
  }

  lemma WriteVolume(fat: Fat, data: Data, n: nat, sh: Shape, root: nat, orphans: set<nat>, c: nat, b: seq<Byte>)
    requires VolumeOk(fat, data, n, sh, root, orphans) && c in sh.owner && sh.owner[c].head in orphans
    requires c < |data| && |b| == SLOT_BYTES * n
    ensures Frame(data, sh, data[c := b], sh) && VolumeOk(fat, data[c := b], n, sh, root, orphans)
  {
    assert HeadKnown(sh, orphans, sh.owner[c].head);
    FrameTree(data, data[c := b], n, sh, sh, root, orphans, orphans);
  }

  lemma FreeVolume(fat: Fat, fat': Fat, data: Data, n: nat, sh: Shape, root: nat, orphans: set<nat>, h: nat)
    requires VolumeOk(fat, data, n, sh, root, orphans) && h in orphans && h in sh.chains
    requires Zeroed(fat, fat', sh.chains[h])
    ensures Frame(data, sh, data, FreeShape(sh, h))
    ensures VolumeOk(fat', data, n, FreeShape(sh, h), root, orphans - {h})
  {
    FreeChains(fat, fat', sh.chains, sh.owner, h);
    var sh', orphans' := FreeShape(sh, h), orphans - {h};
    assert HeadKnown(sh, orphans, h);
    forall g: nat ensures HeadKnown(sh', orphans', g) { assert HeadKnown(sh, orphans, g); }
    FrameTree(data, data, n, sh, FreeShape(sh, h), root, orphans, orphans - {h});
  }
}
