/** What the scans of a directory see, slot after slot. */
module FatScan {
  import opened FatTypes
  import opened FatChains
  import opened FatTree
  import opened FatEntries

  /** The position of the entry of `q` in its directory. */
  function PosOf(sh: Shape, q: Path): Pos {
    if q in sh.loc && sh.loc[q].cluster in sh.owner then Pos(sh.owner[sh.loc[q].cluster].pos, sh.loc[q].slot)
    else Pos(0, 0)
  }

  /** `h` is the first cluster of directory `dir`. */
  predicate IsDir(sh: Shape, dir: Path, h: nat) {
    dir in sh.tree && sh.tree[dir].isDir && sh.tree[dir].first == h && h in sh.chains
  }

  /** The entry of `q`, if there is one, is not before `p`. */
  predicate NotPassed(sh: Shape, q: Path, p: Pos) { q in sh.tree ==> !Before(PosOf(sh, q), p) }

  predicate Matches(d: Dirent, name: Name) { Live(d) && d.name == name }

  lemma DirFacts(fat: Fat, data: Data, n: nat, sh: Shape, root: nat, orphans: set<nat>, dir: Path, h: nat, j: nat)
    requires VolumeOk(fat, data, n, sh, root, orphans) && IsDir(sh, dir, h) && j < |sh.chains[h]|
    ensures var c := sh.chains[h][j];
      c < |fat| && IsDirCluster(sh, c) && DirOf(sh, c) == dir && sh.owner[c] == Owner(h, j) && EndOk(sh, n, h)
  {
    assert Owned(fat, sh.chains, sh.owner, h, j) && HeadOk(sh, n, dir);
  }

  lemma DirCluster(fat: Fat, data: Data, n: nat, sh: Shape, root: nat, orphans: set<nat>, c: nat)
    requires VolumeOk(fat, data, n, sh, root, orphans) && IsDirCluster(sh, c)
    ensures c < |data| && OwnerListed(sh.chains, sh.owner, c)
  {
    assert OwnerListed(sh.chains, sh.owner, c);
    assert Owned(fat, sh.chains, sh.owner, sh.owner[c].head, sh.owner[c].pos);
  }

  /** One slot of a scan for `name` in directory `dir`. */
  lemma ScanSlot(fat: Fat, data: Data, n: nat, sh: Shape, root: nat, orphans: set<nat>,
                 dir: Path, h: nat, name: Name, j: nat, i: nat)
    requires VolumeOk(fat, data, n, sh, root, orphans) && IsDir(sh, dir, h) && j < |sh.chains[h]| && i < n
    requires |name| == 11 && name[0] != DOT && NotPassed(sh, In(dir, name), Pos(j, i))
    ensures var c, q := sh.chains[h][j], In(dir, name);
      var d := Slot(data, c, i);
      && (d.name[0] == 0 ==> q !in sh.tree)
      && (d.name[0] != 0 && Matches(d, name) ==>
            q in sh.tree && q in sh.loc && sh.loc[q] == Loc(c, i) && sh.tree[q] == InfoOf(d))
      && (d.name[0] != 0 && !Matches(d, name) ==> NotPassed(sh, q, Pos(j, i + 1)))
  {
    var c, q := sh.chains[h][j], In(dir, name);
    DirFacts(fat, data, n, sh, root, orphans, dir, h, j);
    assert SlotOk(data, sh, c, i);
    if q in sh.tree {
      assert LocOk(data, n, sh, q) && HomeOk(sh, sh.owner[sh.loc[q].cluster].head);
      var l := sh.loc[q];
      assert SlotOk(data, sh, l.cluster, l.slot) && OwnerListed(sh.chains, sh.owner, l.cluster);
    }
  }

  /** The end of a cluster, and of the chain. */
  lemma ScanRow(fat: Fat, data: Data, n: nat, sh: Shape, root: nat, orphans: set<nat>, dir: Path, h: nat, name: Name,
                j: nat)
    requires VolumeOk(fat, data, n, sh, root, orphans) && IsDir(sh, dir, h) && j < |sh.chains[h]|
    requires NotPassed(sh, In(dir, name), Pos(j, n))
    ensures NotPassed(sh, In(dir, name), Pos(j + 1, 0)) && (j + 1 == |sh.chains[h]| ==> In(dir, name) !in sh.tree)
  {
    var q := In(dir, name);
    if q in sh.tree {
      assert LocOk(data, n, sh, q) && HomeOk(sh, sh.owner[sh.loc[q].cluster].head);
      assert OwnerListed(sh.chains, sh.owner, sh.loc[q].cluster);
    }
  }

  // ---- Looking for a free slot ----

  /** Every slot of directory `h` before `p` is in use. */
  predicate UsedBefore(sh: Shape, h: nat, p: Pos) { h in sh.ends && !Before(sh.ends[h], p) }

  lemma FreeScanSlot(fat: Fat, data: Data, n: nat, sh: Shape, root: nat, orphans: set<nat>, dir: Path, h: nat, j: nat,
                     i: nat)
    requires VolumeOk(fat, data, n, sh, root, orphans) && IsDir(sh, dir, h) && j < |sh.chains[h]| && i < n
    requires UsedBefore(sh, h, Pos(j, i))
    ensures var c := sh.chains[h][j];
      var first := Slot(data, c, i).name[0];
      if first == 0 || first == DELETED then Reusable(data, n, sh, Loc(c, i)) && DirOf(sh, c) == dir
      else UsedBefore(sh, h, Pos(j, i + 1)) && (i + 1 == n ==> UsedBefore(sh, h, Pos(j + 1, 0)))
  {
    DirFacts(fat, data, n, sh, root, orphans, dir, h, j);
    assert SlotOk(data, sh, sh.chains[h][j], i);
  }

  /** A directory whose every slot is in use can be extended. */
  lemma FullDir(fat: Fat, data: Data, n: nat, sh: Shape, root: nat, orphans: set<nat>, dir: Path, h: nat)
    requires VolumeOk(fat, data, n, sh, root, orphans) && IsDir(sh, dir, h) && UsedBefore(sh, h, Pos(|sh.chains[h]|, 0))
    ensures h in sh.home && HomeOk(sh, h) && sh.home[h] == dir && sh.ends[h] == Pos(|sh.chains[h]|, 0)
  {
    assert HeadOk(sh, n, dir) && HomeOk(sh, h);
  }

  /** Slot `i` of cluster `j` of directory `h` holds an entry that is not deleted. */
  predicate Taken(data: Data, sh: Shape, h: nat, j: nat, i: nat) {
    && h in sh.chains && j < |sh.chains[h]|
    && var first := Slot(data, sh.chains[h][j], i).name[0];
    first != 0 && first != DELETED
  }

  /** No slot in the first `k` clusters of directory `h` can take an entry. */
  ghost predicate FullTo(data: Data, n: nat, sh: Shape, h: nat, k: nat) {
    && h in sh.chains && k <= |sh.chains[h]|
    && forall j: nat, i: nat {:trigger Taken(data, sh, h, j, i)} | j < k && i < n :: Taken(data, sh, h, j, i)
  }

  /** Directory `h` has no slot for a new entry. */
  ghost predicate Full(data: Data, n: nat, sh: Shape, h: nat) {
    h in sh.chains && FullTo(data, n, sh, h, |sh.chains[h]|)
  }

  /** Building a chain fills no directory and frees no slot. */
  lemma FullSame(fat: Fat, data: Data, n: nat, sh: Shape, data': Data, sh': Shape, h: nat)
    requires ChainsOk(fat, sh.chains, sh.owner) && |data| == |fat| && Frame(data, sh, data', sh')
    requires h in sh.home && h in sh.chains
    ensures Full(data', n, sh', h) <==> Full(data, n, sh, h)
  {
    assert SameChainOf(sh, sh', h);
    forall j: nat, i: nat | j < |sh.chains[h]| && i < n
      ensures Taken(data', sh', h, j, i) <==> Taken(data, sh, h, j, i)
    {
      assert Owned(fat, sh.chains, sh.owner, h, j) && SameCluster(data, sh, data', sh', sh.chains[h][j]);
    }
    if Full(data', n, sh', h) {
      forall j: nat, i: nat | j < |sh.chains[h]| && i < n ensures Taken(data, sh, h, j, i) {
        assert Taken(data', sh', h, j, i);
      }
    }
    if Full(data, n, sh, h) {
      forall j: nat, i: nat | j < |sh.chains[h]| && i < n ensures Taken(data', sh', h, j, i) {
        assert Taken(data, sh, h, j, i);
      }
    }
  }

  /** The clusters that a new entry for `q` takes: one exactly when its directory is full. */
  ghost function SlotCost(data: Data, n: nat, sh: Shape, q: Path): nat {
    if q.In? && q !in sh.tree && q.parent in sh.tree && Full(data, n, sh, sh.tree[q.parent].first) then 1 else 0
  }

  /** Building a chain changes neither the directory nor the cost of a new entry in it. */
  lemma CostAfter(fat: Fat, data: Data, n: nat, sh: Shape, root: nat, orphans: set<nat>, data': Data, sh': Shape,
                  dir: Path, h: nat, name: Name)
    requires VolumeOk(fat, data, n, sh, root, orphans) && IsDir(sh, dir, h) && Frame(data, sh, data', sh')
    ensures IsDir(sh', dir, h)
    ensures SlotCost(data, n, sh, In(dir, name)) ==
            if In(dir, name) in sh.tree then 0 else if Full(data', n, sh', h) then 1 else 0
  {
    assert HeadOk(sh, n, dir) && SameChainOf(sh, sh', h);
    FullSame(fat, data, n, sh, data', sh', h);
  }

  // ---- Checking that a directory is empty ----

  /** No entry of a child of `q` is before `p`. */
  ghost predicate NoChildBefore(sh: Shape, q: Path, p: Pos) {
    forall x {:trigger Listed(sh, x)} | Listed(sh, x) && x.parent == q :: !Before(PosOf(sh, x), p)
  }

  /** A slot of `q` holds no entry of a child. */
  predicate Vacant(d: Dirent) {
    d.name != [] && (d.name[0] == 0 || d.name[0] == DELETED || Hidden(d.attr) || Special(d))
  }

  lemma EmptyScanSlot(fat: Fat, data: Data, n: nat, sh: Shape, root: nat, orphans: set<nat>, q: Path, h: nat, j: nat,
                      i: nat)
    requires VolumeOk(fat, data, n, sh, root, orphans) && IsDir(sh, q, h) && j < |sh.chains[h]| && i < n
    requires NoChildBefore(sh, q, Pos(j, i))
    ensures var d := Slot(data, sh.chains[h][j], i);
      && (!Vacant(d) ==> !NoChildren(sh, q))
      && (Vacant(d) && d.name[0] != 0 ==> NoChildBefore(sh, q, Pos(j, i + 1)))
      && (d.name[0] == 0 ==> NoChildBefore(sh, q, Pos(j + 1, 0)))
  {
    var c := sh.chains[h][j];
    var d := Slot(data, c, i);
    DirFacts(fat, data, n, sh, root, orphans, q, h, j);
    assert SlotOk(data, sh, c, i);
    if !Vacant(d) { assert Listed(sh, In(q, d.name)); }
    else {
      forall x | Listed(sh, x) && x.parent == q
        ensures !Before(PosOf(sh, x), if d.name[0] == 0 then Pos(j + 1, 0) else Pos(j, i + 1))
      {
        ChildPos(fat, data, n, sh, root, orphans, q, h, x);
        assert SlotOk(data, sh, sh.loc[x].cluster, sh.loc[x].slot);
      }
    }
  }

  /** The entry of a child of `q` is a live slot of a cluster of `q`. */
  lemma ChildPos(fat: Fat, data: Data, n: nat, sh: Shape, root: nat, orphans: set<nat>, q: Path, h: nat, x: Path)
    requires VolumeOk(fat, data, n, sh, root, orphans) && IsDir(sh, q, h) && Listed(sh, x) && x.parent == q
    ensures LocOk(data, n, sh, x) && var l := sh.loc[x];
      && sh.owner[l.cluster].head == h && sh.owner[l.cluster].pos < |sh.chains[h]| && l.slot < n
      && sh.chains[h][sh.owner[l.cluster].pos] == l.cluster
  {
    assert LocOk(data, n, sh, x) && HomeOk(sh, sh.owner[sh.loc[x].cluster].head);
    assert OwnerListed(sh.chains, sh.owner, sh.loc[x].cluster);
  }

  lemma EmptyScanRow(fat: Fat, data: Data, n: nat, sh: Shape, root: nat, orphans: set<nat>, q: Path, h: nat, j: nat)
    requires VolumeOk(fat, data, n, sh, root, orphans) && IsDir(sh, q, h) && j < |sh.chains[h]|
    requires NoChildBefore(sh, q, Pos(j, n)) || NoChildBefore(sh, q, Pos(j + 1, 0))
    ensures NoChildBefore(sh, q, Pos(j + 1, 0)) && (j + 1 == |sh.chains[h]| ==> NoChildren(sh, q))
  {
    forall x | Listed(sh, x) && x.parent == q ensures !Before(PosOf(sh, x), Pos(j + 1, 0)) && j + 1 < |sh.chains[h]| {
      ChildPos(fat, data, n, sh, root, orphans, q, h, x);
    }
  }

  // ---- Walking a path ----

  function PathFrom(p: Path, names: seq<Name>): Path
    decreases |names|
  {
    if names == [] then p else PathFrom(In(p, names[0]), names[1..])
  }

  /** A path can be in the tree only if the paths above it are directories there. */
  lemma {:induction false} Ancestors(data: Data, n: nat, sh: Shape, root: nat, orphans: set<nat>, p: Path,
                                     names: seq<Name>)
    requires TreeOk(data, n, sh, root, orphans) && PathFrom(p, names) in sh.tree
    ensures p in sh.tree && (names != [] ==> sh.tree[p].isDir)
    decreases |names|
  {
    if names != [] {
      Ancestors(data, n, sh, root, orphans, In(p, names[0]), names[1..]);
      assert ParentOk(sh, In(p, names[0]));
    }
  }

  lemma {:induction false} PathSnoc(p: Path, names: seq<Name>, name: Name)
    ensures PathFrom(p, names + [name]) == In(PathFrom(p, names), name)
    decreases |names|
  {
    if names != [] {
      PathSnoc(In(p, names[0]), names[1..], name);
      assert (names + [name])[1..] == names[1..] + [name];
    }
  }

  // ---- Growing a directory leaves the orphans alone ----

  predicate KeptChain(data: Data, sh: Shape, data': Data, sh': Shape, f: nat) {
    f in sh.chains ==>
      && f in sh'.chains && sh'.chains[f] == sh.chains[f] && Flat(data', sh.chains[f]) == Flat(data, sh.chains[f])
      && (f < |data| ==> f < |data'| && data'[f] == data[f])
  }

  ghost predicate KeptChains(data: Data, sh: Shape, data': Data, sh': Shape, orphans: set<nat>) {
    forall f: nat {:trigger KeptChain(data, sh, data', sh', f)} | f in orphans :: KeptChain(data, sh, data', sh', f)
  }

  lemma KeptByExtend(fat: Fat, data: Data, n: nat, sh: Shape, root: nat, orphans: set<nat>, h: nat, c: nat)
    requires VolumeOk(fat, data, n, sh, root, orphans) && h in sh.home && h in sh.chains && 2 <= c < |fat|
    requires fat[c] == 0 && c != h
    ensures KeptChains(data, sh, data[c := Zeros(SLOT_BYTES * n)], LinkShape(AllocShape(sh, c), h, c), orphans)
  {
    var data', sh' := data[c := Zeros(SLOT_BYTES * n)], LinkShape(AllocShape(sh, c), h, c);
    AllocChains(fat, sh.chains, sh.owner, c);
    forall f: nat | f in orphans ensures KeptChain(data, sh, data', sh', f) {
      assert HeadKnown(sh, orphans, f);
      forall i: nat | i < |sh.chains[f]| && sh.chains[f][i] < |data|
        ensures data'[sh.chains[f][i]] == data[sh.chains[f][i]]
      {
        assert Owned(fat, sh.chains, sh.owner, f, i);
      }
      FlatSame(data, data', sh.chains[f]);
    }
  }
}
