/** Changing one entry of the directory tree of a FAT32 volume: publishing,
    replacing and deleting an entry, and growing a directory. */
module FatEntries {
  import opened Basics
  import opened FatTypes
  import opened FatChains
  import opened FatTree

  // ---- Writing one slot of a directory ----

  /** The contents after slot `l` is overwritten by `d`. */
  function PutData(data: Data, l: Loc, d: Dirent): (r: Data)
    requires l.cluster < |data| && SLOT_BYTES * (l.slot + 1) <= |data[l.cluster]| && Sized(d)
    ensures |r| == |data|
  {
    data[l.cluster := PutSlot(data[l.cluster], l.slot, d)]
  }

  /** Only slot `l` changed, and it holds `d` now. */
  predicate SlotChanged(data: Data, data': Data, l: Loc, d: Dirent, c: nat, i: nat) {
    Slot(data', c, i) == if Loc(c, i) == l then d else Slot(data, c, i)
  }

  lemma PutDataSlots(data: Data, n: nat, l: Loc, d: Dirent, c: nat, i: nat)
    requires DataOk(data, |data|, n) && l.cluster < |data| && l.slot < n && Sized(d) && i < n
    ensures SlotChanged(data, PutData(data, l, d), l, d, c, i)
  {
    if c == l.cluster { SlotAfterPut(data[c], l.slot, d, i); }
  }

  /** The position after `p`. */
  function Next(p: Pos, n: nat): Pos { if p.i + 1 < n then Pos(p.j, p.i + 1) else Pos(p.j + 1, 0) }

  lemma BeforeNext(p: Pos, q: Pos, n: nat)
    requires p.i < n && q.i < n
    ensures Before(p, Next(q, n)) <==> Before(p, q) || p == q
  {}

  /** The end of directory `h` after a slot at `pos` is filled. */
  function NewEnd(end: Pos, pos: Pos, n: nat): Pos { if pos == end then Next(pos, n) else end }

  /** A slot that may take a new entry: a deleted one, or the first of the free tail. */
  predicate Reusable(data: Data, n: nat, sh: Shape, l: Loc) {
    && IsDirCluster(sh, l.cluster) && l.cluster < |data| && l.slot < n && sh.owner[l.cluster].head in sh.ends
    && var d, pos := Slot(data, l.cluster, l.slot), Pos(sh.owner[l.cluster].pos, l.slot);
    var end := sh.ends[sh.owner[l.cluster].head];
    d.name[0] == DELETED || (d.name[0] == 0 && pos == end)
  }

  /** A new entry for path `q`: live, named, and pointing to nothing or to a chain of its own. */
  predicate Publishable(data: Data, n: nat, sh: Shape, orphans: set<nat>, q: Path, d: Dirent) {
    && Sized(d) && Live(d) && !Special(d) && q.In? && d.name == q.name && PathName(q.name)
    && (if d.first == 0 then !IsDirAttr(d.attr) && d.size == 0
        else d.first in orphans && d.first in sh.chains &&
             (if IsDirAttr(d.attr) then sh.chains[d.first] == [d.first] && FreshDir(data, n, d.first)
              else Fits(d.size, |sh.chains[d.first]|, n)))
  }

  /** A directory cluster that holds only `.` and `..`. */
  predicate FreshDir(data: Data, n: nat, c: nat) {
    forall i: nat {:trigger FreshSlot(data, c, i)} | i < n :: FreshSlot(data, c, i)
  }

  predicate FreshSlot(data: Data, c: nat, i: nat) {
    var d := Slot(data, c, i);
    if i < 2 then d.name[0] != 0 && Special(d) else d.name[0] == 0
  }

  function PublishShape(sh: Shape, n: nat, q: Path, l: Loc, d: Dirent): Shape
    requires IsDirCluster(sh, l.cluster) && sh.owner[l.cluster].head in sh.ends
  {
    var h := sh.owner[l.cluster].head;
    var ends := sh.ends[h := NewEnd(sh.ends[h], Pos(sh.owner[l.cluster].pos, l.slot), n)];
    sh.(tree := sh.tree[q := InfoOf(d)], loc := sh.loc[q := l],
        home := if d.first == 0 then sh.home else sh.home[d.first := q],
        ends := if d.first != 0 && IsDirAttr(d.attr) then ends[d.first := Pos(0, 2)] else ends)
  }

  ghost predicate CanPublish(fat: Fat, data: Data, n: nat, sh: Shape, root: nat, orphans: set<nat>, q: Path, l: Loc,
                             d: Dirent) {
    && VolumeOk(fat, data, n, sh, root, orphans)
    && Publishable(data, n, sh, orphans, q, d) && q !in sh.tree
    && Reusable(data, n, sh, l) && DirOf(sh, l.cluster) == q.parent
  }

  /** A new entry in a reusable slot adds exactly its path. */
  lemma PublishVolume(fat: Fat, data: Data, n: nat, sh: Shape, root: nat, orphans: set<nat>, q: Path, l: Loc, d: Dirent)
    requires CanPublish(fat, data, n, sh, root, orphans, q, l, d)
    ensures VolumeOk(fat, PutData(data, l, d), n, PublishShape(sh, n, q, l, d), root, orphans - {d.first})
  {
    var data', sh' := PutData(data, l, d), PublishShape(sh, n, q, l, d);
    ZeroIsNoChain(fat, sh.chains, sh.owner);
    var orphans' := orphans - {d.first};
    forall h: nat ensures HeadKnown(sh', orphans', h) { assert HeadKnown(sh, orphans, h); }
    forall x | Listed(sh', x) ensures ParentOk(sh', x) && LocOk(data', n, sh', x) {
      PublishLoc(fat, data, n, sh, root, orphans, q, l, d, x);
    }
    forall x | x in sh'.tree ensures HeadOk(sh', n, x) { PublishHead(fat, data, n, sh, root, orphans, q, l, d, x); }
    forall h | h in sh'.home ensures HomeOk(sh', h) { PublishHome(fat, data, n, sh, root, orphans, q, l, d, h); }
    forall c: nat, i: nat | IsDirCluster(sh', c) && i < n ensures SlotOk(data', sh', c, i) {
      PublishSlot(fat, data, n, sh, root, orphans, q, l, d, c, i);
    }
  }

  lemma ZeroIsNoChain(fat: Fat, chains: Chains, owner: Owners)
    requires ChainsOk(fat, chains, owner)
    ensures 0 !in chains
  {
    assert 0 in chains ==> HeadFirst(chains, 0) && Owned(fat, chains, owner, 0, 0);
  }

  lemma PublishLoc(fat: Fat, data: Data, n: nat, sh: Shape, root: nat, orphans: set<nat>, q: Path, l: Loc, d: Dirent,
                   x: Path)
    requires CanPublish(fat, data, n, sh, root, orphans, q, l, d) && Listed(PublishShape(sh, n, q, l, d), x)
    ensures ParentOk(PublishShape(sh, n, q, l, d), x) && LocOk(PutData(data, l, d), n, PublishShape(sh, n, q, l, d), x)
  {
    assert HeadKnown(sh, orphans, d.first);
    if x == q {
      PutDataSlots(data, n, l, d, l.cluster, l.slot);
    } else {
      assert ParentOk(sh, x) && LocOk(data, n, sh, x);
      PutDataSlots(data, n, l, d, sh.loc[x].cluster, sh.loc[x].slot);
    }
  }

  lemma PublishHead(fat: Fat, data: Data, n: nat, sh: Shape, root: nat, orphans: set<nat>, q: Path, l: Loc, d: Dirent,
                    x: Path)
    requires CanPublish(fat, data, n, sh, root, orphans, q, l, d) && x in PublishShape(sh, n, q, l, d).tree
    ensures HeadOk(PublishShape(sh, n, q, l, d), n, x)
  {
    assert HeadKnown(sh, orphans, d.first);
    if x != q {
      assert HeadOk(sh, n, x);
      assert OwnerListed(sh.chains, sh.owner, l.cluster);
    }
  }

  lemma PublishHome(fat: Fat, data: Data, n: nat, sh: Shape, root: nat, orphans: set<nat>, q: Path, l: Loc, d: Dirent,
                    h: nat)
    requires CanPublish(fat, data, n, sh, root, orphans, q, l, d) && h in PublishShape(sh, n, q, l, d).home
    ensures HomeOk(PublishShape(sh, n, q, l, d), h)
  {
    if h in sh.home { assert HomeOk(sh, h); }
    else { assert HeadFirst(sh.chains, h) && Owned(fat, sh.chains, sh.owner, h, 0); }
  }

  lemma PublishSlot(fat: Fat, data: Data, n: nat, sh: Shape, root: nat, orphans: set<nat>, q: Path, l: Loc, d: Dirent,
                    c: nat, i: nat)
    requires CanPublish(fat, data, n, sh, root, orphans, q, l, d)
    requires IsDirCluster(PublishShape(sh, n, q, l, d), c) && i < n
    ensures SlotOk(PutData(data, l, d), PublishShape(sh, n, q, l, d), c, i)
  {
    assert HeadKnown(sh, orphans, d.first);
    var sh' := PublishShape(sh, n, q, l, d);
    PutDataSlots(data, n, l, d, c, i);
    var h := sh.owner[c].head;
    if h in sh.home {
      assert HomeOk(sh, h) && SlotOk(data, sh, c, i);
      assert OwnerListed(sh.chains, sh.owner, c) && OwnerListed(sh.chains, sh.owner, l.cluster);
      if h == sh.owner[l.cluster].head && Pos(sh.owner[l.cluster].pos, l.slot) == sh.ends[h] {
        BeforeNext(Pos(sh.owner[c].pos, i), sh.ends[h], n);
      }
    } else {
      assert h == d.first && FreshSlot(data, c, i);
      assert OwnerListed(sh.chains, sh.owner, c);
    }
  }

  /** A chain that does not own the written cluster keeps its contents. */
  lemma {:induction false} OtherChain(fat: Fat, data: Data, data': Data, sh: Shape, f: nat, c: nat)
    requires ChainsOk(fat, sh.chains, sh.owner) && f in sh.chains && c in sh.owner && sh.owner[c].head != f
    requires |data'| == |data| && forall x: nat | x < |data| && x != c :: data'[x] == data[x]
    ensures Flat(data', sh.chains[f]) == Flat(data, sh.chains[f])
  {
    forall i: nat | i < |sh.chains[f]| && sh.chains[f][i] < |data|
      ensures data'[sh.chains[f][i]] == data[sh.chains[f][i]]
    {
      assert Owned(fat, sh.chains, sh.owner, f, i);
    }
    FlatSame(data, data', sh.chains[f]);
  }

  /** What an entry about to be published names. */
  function NodeOf(data: Data, sh: Shape, d: Dirent): Node {
    if IsDirAttr(d.attr) then Dir else File(Bytes(data, sh, InfoOf(d)))
  }

  lemma {:induction false} PublishLookup(fat: Fat, data: Data, n: nat, sh: Shape, root: nat, orphans: set<nat>, q: Path,
                                         l: Loc, d: Dirent)
    requires CanPublish(fat, data, n, sh, root, orphans, q, l, d)
    ensures OnlyChanged(data, sh, PutData(data, l, d), PublishShape(sh, n, q, l, d), q, Some(NodeOf(data, sh, d)))
  {
    var data', sh' := PutData(data, l, d), PublishShape(sh, n, q, l, d);
    var h := sh.owner[l.cluster].head;
    assert HomeOk(sh, h);
    forall x: Path ensures Lookup(data', sh', x) == if x == q then Some(NodeOf(data, sh, d)) else Lookup(data, sh, x) {
      if x == q {
        if d.first in sh.chains && d.first != 0 {
          assert HeadKnown(sh, orphans, d.first);
          OtherChain(fat, data, data', sh, d.first, l.cluster);
        }
      } else if x in sh.tree && !sh.tree[x].isDir && sh.tree[x].first != 0 {
        assert HeadOk(sh, n, x);
        OtherChain(fat, data, data', sh, sh.tree[x].first, l.cluster);
      }
    }
  }

  // ---- Writing an entry that reads as deleted ----

  /** An entry whose name starts with the deletion mark: every scan skips it. */
  predicate Dead(d: Dirent) { Sized(d) && d.name[0] == DELETED }

  /** Only the end of the directory may move. */
  function DeadShape(sh: Shape, n: nat, l: Loc): Shape
    requires IsDirCluster(sh, l.cluster) && sh.owner[l.cluster].head in sh.ends
  {
    var h := sh.owner[l.cluster].head;
    sh.(ends := sh.ends[h := NewEnd(sh.ends[h], Pos(sh.owner[l.cluster].pos, l.slot), n)])
  }

  /** A dead entry in a reusable slot: no path is added, and the chain of the entry stays without an owner. */
  lemma DeadVolume(fat: Fat, data: Data, n: nat, sh: Shape, root: nat, orphans: set<nat>, l: Loc, d: Dirent)
    requires VolumeOk(fat, data, n, sh, root, orphans) && Reusable(data, n, sh, l) && Dead(d)
    ensures VolumeOk(fat, PutData(data, l, d), n, DeadShape(sh, n, l), root, orphans)
  {
    var data', sh' := PutData(data, l, d), DeadShape(sh, n, l);
    forall h: nat ensures HeadKnown(sh', orphans, h) { assert HeadKnown(sh, orphans, h); }
    forall x | Listed(sh', x) ensures ParentOk(sh', x) && LocOk(data', n, sh', x) {
      assert ParentOk(sh, x) && LocOk(data, n, sh, x);
      PutDataSlots(data, n, l, d, sh.loc[x].cluster, sh.loc[x].slot);
    }
    assert OwnerListed(sh.chains, sh.owner, l.cluster);
    forall x | x in sh'.tree ensures HeadOk(sh', n, x) { assert HeadOk(sh, n, x); }
    forall h | h in sh'.home ensures HomeOk(sh', h) { assert HomeOk(sh, h); }
    forall c: nat, i: nat | IsDirCluster(sh', c) && i < n ensures SlotOk(data', sh', c, i) {
      DeadSlot(fat, data, n, sh, root, orphans, l, d, c, i);
    }
  }

  lemma DeadSlot(fat: Fat, data: Data, n: nat, sh: Shape, root: nat, orphans: set<nat>, l: Loc, d: Dirent,
                 c: nat, i: nat)
    requires VolumeOk(fat, data, n, sh, root, orphans) && Reusable(data, n, sh, l) && Dead(d)
    requires IsDirCluster(sh, c) && i < n
    ensures SlotOk(PutData(data, l, d), DeadShape(sh, n, l), c, i)
  {
    PutDataSlots(data, n, l, d, c, i);
    var h := sh.owner[c].head;
    assert HomeOk(sh, h) && SlotOk(data, sh, c, i);
    assert OwnerListed(sh.chains, sh.owner, c) && OwnerListed(sh.chains, sh.owner, l.cluster);
    if h == sh.owner[l.cluster].head && Pos(sh.owner[l.cluster].pos, l.slot) == sh.ends[h] {
      BeforeNext(Pos(sh.owner[c].pos, i), sh.ends[h], n);
    }
  }

  /** No path with such a name is in the tree, before or after, and every path names what it named. */
  lemma {:induction false} DeadLookup(fat: Fat, data: Data, n: nat, sh: Shape, root: nat, orphans: set<nat>, q: Path,
                                      l: Loc, d: Dirent)
    requires VolumeOk(fat, data, n, sh, root, orphans) && Reusable(data, n, sh, l) && Dead(d)
    requires q.In? && q.name == d.name
    ensures q !in sh.tree && OnlyChanged(data, sh, PutData(data, l, d), DeadShape(sh, n, l), q, None)
  {
    var data', sh' := PutData(data, l, d), DeadShape(sh, n, l);
    assert Listed(sh, q) ==> ParentOk(sh, q);
    assert HomeOk(sh, sh.owner[l.cluster].head);
    forall x: Path ensures Lookup(data', sh', x) == if x == q then None else Lookup(data, sh, x) {
      if x in sh.tree && !sh.tree[x].isDir && sh.tree[x].first != 0 {
        assert HeadOk(sh, n, x);
        OtherChain(fat, data, data', sh, sh.tree[x].first, l.cluster);
      }
    }
  }

  // ---- Replacing the entry of a file ----

  function ReplaceShape(sh: Shape, q: Path, d: Dirent): Shape
    requires q in sh.tree
  {
    var home := sh.home - {sh.tree[q].first};
    sh.(tree := sh.tree[q := InfoOf(d)], home := if d.first == 0 then home else home[d.first := q])
  }

  ghost predicate CanReplace(fat: Fat, data: Data, n: nat, sh: Shape, root: nat, orphans: set<nat>, q: Path,
                             d: Dirent) {
    && VolumeOk(fat, data, n, sh, root, orphans)
    && Publishable(data, n, sh, orphans, q, d) && !IsDirAttr(d.attr)
    && LocOk(data, n, sh, q) && !sh.tree[q].isDir && sh.loc[q].cluster < |data|
  }

  /** Overwriting the entry of a file: its old chain, if any, is orphaned. */
  lemma ReplaceVolume(fat: Fat, data: Data, n: nat, sh: Shape, root: nat, orphans: set<nat>, q: Path, d: Dirent)
    requires CanReplace(fat, data, n, sh, root, orphans, q, d)
    ensures VolumeOk(fat, PutData(data, sh.loc[q], d), n, ReplaceShape(sh, q, d), root,
                     orphans - {d.first} + ({sh.tree[q].first} - {0}))
  {
    assert HeadKnown(sh, orphans, d.first);
    var data', sh', was := PutData(data, sh.loc[q], d), ReplaceShape(sh, q, d), sh.tree[q].first;
    ZeroIsNoChain(fat, sh.chains, sh.owner);
    assert HeadOk(sh, n, q);
    var orphans' := orphans - {d.first} + ({was} - {0});
    forall h: nat ensures HeadKnown(sh', orphans', h) { assert HeadKnown(sh, orphans, h); }
    forall x | Listed(sh', x) ensures ParentOk(sh', x) && LocOk(data', n, sh', x) {
      ReplaceLoc(fat, data, n, sh, root, orphans, q, d, x);
    }
    forall x | x in sh'.tree ensures HeadOk(sh', n, x) { assert HeadOk(sh, n, x); }
    forall h | h in sh'.home ensures HomeOk(sh', h) {
      if h in sh.home { assert HomeOk(sh, h); }
      else { assert HeadFirst(sh.chains, h) && Owned(fat, sh.chains, sh.owner, h, 0); }
    }
    forall c: nat, i: nat | IsDirCluster(sh', c) && i < n ensures SlotOk(data', sh', c, i) {
      ReplaceSlot(fat, data, n, sh, root, orphans, q, d, c, i);
    }
  }

  lemma ReplaceLoc(fat: Fat, data: Data, n: nat, sh: Shape, root: nat, orphans: set<nat>, q: Path, d: Dirent, x: Path)
    requires CanReplace(fat, data, n, sh, root, orphans, q, d) && Listed(ReplaceShape(sh, q, d), x)
    ensures ParentOk(ReplaceShape(sh, q, d), x) && LocOk(PutData(data, sh.loc[q], d), n, ReplaceShape(sh, q, d), x)
  {
    assert HeadKnown(sh, orphans, d.first);
    assert ParentOk(sh, q) && ParentOk(sh, x) && LocOk(data, n, sh, x);
    var l := sh.loc[x];
    assert HomeOk(sh, sh.owner[l.cluster].head) && HeadOk(sh, n, q);
    PutDataSlots(data, n, sh.loc[q], d, l.cluster, l.slot);
  }

  lemma ReplaceSlot(fat: Fat, data: Data, n: nat, sh: Shape, root: nat, orphans: set<nat>, q: Path, d: Dirent, c: nat,
                    i: nat)
    requires CanReplace(fat, data, n, sh, root, orphans, q, d) && IsDirCluster(ReplaceShape(sh, q, d), c) && i < n
    ensures SlotOk(PutData(data, sh.loc[q], d), ReplaceShape(sh, q, d), c, i)
  {
    assert HeadKnown(sh, orphans, d.first);
    PutDataSlots(data, n, sh.loc[q], d, c, i);
    assert ParentOk(sh, q) && SlotOk(data, sh, c, i) && SlotOk(data, sh, sh.loc[q].cluster, sh.loc[q].slot);
  }

  lemma {:induction false} ReplaceLookup(fat: Fat, data: Data, n: nat, sh: Shape, root: nat, orphans: set<nat>, q: Path,
                                         d: Dirent)
    requires CanReplace(fat, data, n, sh, root, orphans, q, d)
    ensures OnlyChanged(data, sh, PutData(data, sh.loc[q], d), ReplaceShape(sh, q, d), q, Some(NodeOf(data, sh, d)))
  {
    var l := sh.loc[q];
    var data', sh' := PutData(data, l, d), ReplaceShape(sh, q, d);
    assert HomeOk(sh, sh.owner[l.cluster].head);
    forall x: Path ensures Lookup(data', sh', x) == if x == q then Some(NodeOf(data, sh, d)) else Lookup(data, sh, x) {
      if x == q {
        if d.first in sh.chains && d.first != 0 {
          assert HeadKnown(sh, orphans, d.first);
          OtherChain(fat, data, data', sh, d.first, l.cluster);
        }
      } else if x in sh.tree && !sh.tree[x].isDir && sh.tree[x].first != 0 {
        assert HeadOk(sh, n, x);
        OtherChain(fat, data, data', sh, sh.tree[x].first, l.cluster);
      }
    }
  }

  // ---- Deleting an entry ----

  function DeleteData(data: Data, l: Loc): (r: Data)
    requires l.cluster < |data| && SLOT_BYTES * (l.slot + 1) <= |data[l.cluster]|
    ensures |r| == |data|
  {
    data[l.cluster := Deleted(data[l.cluster], l.slot)]
  }

  function DeleteShape(sh: Shape, q: Path): Shape
    requires q in sh.tree
  {
    var f := sh.tree[q].first;
    sh.(tree := sh.tree - {q}, loc := sh.loc - {q}, home := sh.home - {f}, ends := sh.ends - {f})
  }

  ghost predicate NoChildren(sh: Shape, q: Path) { forall x {:trigger Listed(sh, x)} | Listed(sh, x) :: x.parent != q }

  ghost predicate CanDelete(fat: Fat, data: Data, n: nat, sh: Shape, root: nat, orphans: set<nat>, q: Path) {
    && VolumeOk(fat, data, n, sh, root, orphans)
    && LocOk(data, n, sh, q) && NoChildren(sh, q) && sh.loc[q].cluster < |data|
  }

  lemma DeleteDataSlots(data: Data, n: nat, l: Loc, c: nat, i: nat)
    requires DataOk(data, |data|, n) && l.cluster < |data| && l.slot < n && i < n
    ensures var d := Slot(data, c, i);
      Slot(DeleteData(data, l), c, i) == if Loc(c, i) == l then d.(name := d.name[0 := DELETED]) else d
  {
    if c == l.cluster { SlotAfterDelete(data[c], l.slot, i); }
  }

  /** Deleting an entry removes exactly its path; its chain, if any, is orphaned. */
  lemma DeleteVolume(fat: Fat, data: Data, n: nat, sh: Shape, root: nat, orphans: set<nat>, q: Path)
    requires CanDelete(fat, data, n, sh, root, orphans, q)
    ensures VolumeOk(fat, DeleteData(data, sh.loc[q]), n, DeleteShape(sh, q), root,
                     orphans + ({sh.tree[q].first} - {0}))
  {
    var data', sh' := DeleteData(data, sh.loc[q]), DeleteShape(sh, q);
    ZeroIsNoChain(fat, sh.chains, sh.owner);
    assert HeadOk(sh, n, q);
    var orphans' := orphans + ({sh.tree[q].first} - {0});
    forall h: nat ensures HeadKnown(sh', orphans', h) { assert HeadKnown(sh, orphans, h); }
    forall x | Listed(sh', x) ensures ParentOk(sh', x) && LocOk(data', n, sh', x) {
      DeleteLoc(fat, data, n, sh, root, orphans, q, x);
    }
    forall x | x in sh'.tree ensures HeadOk(sh', n, x) { assert HeadOk(sh, n, x); }
    forall h | h in sh'.home ensures HomeOk(sh', h) { assert HomeOk(sh, h); }
    forall c: nat, i: nat | IsDirCluster(sh', c) && i < n ensures SlotOk(data', sh', c, i) {
      DeleteSlot(fat, data, n, sh, root, orphans, q, c, i);
    }
  }

  lemma DeleteLoc(fat: Fat, data: Data, n: nat, sh: Shape, root: nat, orphans: set<nat>, q: Path, x: Path)
    requires CanDelete(fat, data, n, sh, root, orphans, q) && Listed(DeleteShape(sh, q), x)
    ensures ParentOk(DeleteShape(sh, q), x) && LocOk(DeleteData(data, sh.loc[q]), n, DeleteShape(sh, q), x)
  {
    assert Listed(sh, x);
    assert ParentOk(sh, x) && LocOk(data, n, sh, x);
    var l := sh.loc[x];
    assert HomeOk(sh, sh.owner[l.cluster].head) && HeadOk(sh, n, q);
    DeleteDataSlots(data, n, sh.loc[q], l.cluster, l.slot);
  }

  lemma DeleteSlot(fat: Fat, data: Data, n: nat, sh: Shape, root: nat, orphans: set<nat>, q: Path, c: nat, i: nat)
    requires CanDelete(fat, data, n, sh, root, orphans, q) && IsDirCluster(DeleteShape(sh, q), c) && i < n
    ensures SlotOk(DeleteData(data, sh.loc[q]), DeleteShape(sh, q), c, i)
  {
    DeleteDataSlots(data, n, sh.loc[q], c, i);
    assert SlotOk(data, sh, c, i);
  }

  lemma {:induction false} DeleteLookup(fat: Fat, data: Data, n: nat, sh: Shape, root: nat, orphans: set<nat>, q: Path)
    requires CanDelete(fat, data, n, sh, root, orphans, q)
    ensures OnlyChanged(data, sh, DeleteData(data, sh.loc[q]), DeleteShape(sh, q), q, None)
  {
    var l := sh.loc[q];
    var data', sh' := DeleteData(data, l), DeleteShape(sh, q);
    assert HomeOk(sh, sh.owner[l.cluster].head);
    forall x: Path ensures Lookup(data', sh', x) == if x == q then None else Lookup(data, sh, x) {
      if x != q && x in sh.tree && !sh.tree[x].isDir && sh.tree[x].first != 0 {
        assert HeadOk(sh, n, x);
        OtherChain(fat, data, data', sh, sh.tree[x].first, l.cluster);
      }
    }
  }

  // ---- Growing a full directory ----

  ghost predicate CanExtend(fat: Fat, data: Data, n: nat, sh: Shape, root: nat, orphans: set<nat>, h: nat, c: nat) {
    && VolumeOk(fat, data, n, sh, root, orphans)
    && h in sh.home && h in sh.chains && HomeOk(sh, h) && sh.tree[sh.home[h]].isDir
    && h in sh.ends && sh.ends[h] == Pos(|sh.chains[h]|, 0)
    && c in orphans && c in sh.chains && h != c && sh.chains[c] == [c] && c < |data| && data[c] == Zeros(SLOT_BYTES * n)
  }

  /** A zeroed cluster appended to a full directory adds only free slots. */
  lemma ExtendVolume(fat: Fat, data: Data, n: nat, sh: Shape, root: nat, orphans: set<nat>, h: nat, c: nat)
    requires CanExtend(fat, data, n, sh, root, orphans, h, c)
    ensures HeadFirst(sh.chains, h) && var last := sh.chains[h][|sh.chains[h]| - 1];
      last < |fat| && VolumeOk(fat[last := c], data, n, LinkShape(sh, h, c), root, orphans - {c})
  {
    LinkChains(fat, sh.chains, sh.owner, h, c);
    assert Owned(fat, sh.chains, sh.owner, c, 0);
    var sh', orphans' := LinkShape(sh, h, c), orphans - {c};
    assert HeadKnown(sh, orphans, c);
    forall g: nat ensures HeadKnown(sh', orphans', g) { assert HeadKnown(sh, orphans, g); }
    forall x | Listed(sh', x) ensures ParentOk(sh', x) && LocOk(data, n, sh', x) {
      assert ParentOk(sh, x) && LocOk(data, n, sh, x);
    }
    forall x | x in sh'.tree ensures HeadOk(sh', n, x) { assert HeadOk(sh, n, x); }
    forall g | g in sh'.home ensures HomeOk(sh', g) { assert HomeOk(sh, g); }
    forall x: nat, i: nat | IsDirCluster(sh', x) && i < n ensures SlotOk(data, sh', x, i) {
      if x == c { ZeroSlot(SLOT_BYTES * n, i); } else { assert SlotOk(data, sh, x, i); }
    }
  }

  lemma {:induction false} ExtendLookup(fat: Fat, data: Data, n: nat, sh: Shape, root: nat, orphans: set<nat>, h: nat,
                                        c: nat)
    requires CanExtend(fat, data, n, sh, root, orphans, h, c)
    ensures SameFiles(data, sh, data, LinkShape(sh, h, c))
  {
    var sh' := LinkShape(sh, h, c);
    assert HeadKnown(sh, orphans, c);
    forall x: Path ensures Lookup(data, sh', x) == Lookup(data, sh, x) {
      if x in sh.tree && sh.tree[x].first != 0 { assert HeadOk(sh, n, x); }
    }
  }
}
