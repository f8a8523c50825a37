/** The steps of the file operations: which path a call is about, and what
    publishing the entry of a stored file does. */
module FatSteps {
  import opened Basics
  import opened FatTypes
  import opened FatChains
  import opened FatTree
  import opened FatEntries
  import opened FatGrow
  import opened FatPaths
  import opened FatScan

  const MAX_FILE: nat := 16 * 1024 * 1024

  /** The path that a call creates, overwrites or removes. */
  function Target(sh: Shape, path: Text): Option<Path> {
    var split := SplitPath(path);
    if split.None? || !ValidComponent(split.value.component) then None
    else
      var dir := PathFrom(Top, Names(split.value.parent));
      if dir in sh.tree && sh.tree[dir].isDir then Some(In(dir, ShortName(split.value.component))) else None
  }

  /** Paths that differ only in letter case create, overwrite and remove the same entry. */
  lemma TargetCase(sh: Shape, p: Text, q: Text)
    requires SameButCase(p, q)
    ensures Target(sh, p) == Target(sh, q)
  {
    SplitCase(p, q);
    if SplitPath(p).Some? {
      NamesCase(SplitPath(p).value.parent, SplitPath(q).value.parent);
      ShortNameCase(SplitPath(p).value.component, SplitPath(q).value.component);
    }
  }

  lemma TargetName(sh: Shape, path: Text)
    requires CString(path) && Target(sh, path).Some?
    ensures Target(sh, path).value.In? && EntryName(Target(sh, path).value.name)
    ensures Target(sh, path).value.name[0] == DELETED <==> Tombstone(path)
  {
    LastComponent(path);
  }

  /** The path of one slash and the byte 0xE5 can be written in any volume, but its name reads as deleted. */
  lemma MarkedPath(data: Data, n: nat, sh: Shape, root: nat, orphans: set<nat>)
    requires TreeOk(data, n, sh, root, orphans)
    ensures var path := [SLASH, DELETED];
      CString(path) && Tombstone(path) && Target(sh, path).Some? && Writable(sh, path, [])
  {
    var path := [SLASH, DELETED];
    assert Dot([DELETED], 1) == 1;
    assert LastSlash(path, 1) == 0;
    assert path[1..2] == [DELETED] && LastSlash(path, 2) == 0 && Dot([DELETED], 0) == 1;
    assert SplitPath(path) == Some(Split([SLASH], [DELETED]));
    assert Names([SLASH]) == [];
    TargetName(sh, path);
    NotSeen(data, n, sh, root, orphans, Target(sh, path).value);
  }

  /** A name that can be written: a path name, or one that reads as deleted. */
  predicate EntryName(name: Name) { PathName(name) || (|name| == 11 && name[0] == DELETED) }

  /** The chain that starts at `first`, if there is one. */
  function Head(first: nat): set<nat> { if first == 0 then {} else {first} }

  /** What a new entry makes its path name: nothing if it reads as deleted. */
  function Seen(name: Name, node: Node): Option<Node> { if name != [] && name[0] == DELETED then None else Some(node) }

  /** The clusters that a path holds. */
  function ChainLength(sh: Shape, q: Path): nat {
    if q in sh.tree && sh.tree[q].first in sh.chains then |sh.chains[sh.tree[q].first]| else 0
  }

  lemma TargetStart(sh: Shape, path: Text)
    requires Target(sh, path).Some?
    ensures var q := Target(sh, path).value; q.In? && |q.name| == 11 && q.name[0] != DOT
  {
    NameStart(SplitPath(path).value.component);
  }

  /** A file can be written here, space permitting. */
  predicate Writable(sh: Shape, path: Text, buf: seq<Byte>) {
    && |buf| <= MAX_FILE && Target(sh, path).Some?
    && !(Target(sh, path).value in sh.tree && sh.tree[Target(sh, path).value].isDir)
  }

  predicate FileIn(sh: Shape, q: Path) { q in sh.tree && !sh.tree[q].isDir }

  /** What a path of two slashes and one component is looked up as. */
  function BlankPath(path: Text): Path
    requires SplitPath(path).Some?
  {
    In(In(Top, ShortName([])), ShortName(SplitPath(path).value.component))
  }

  lemma BlankLookup(path: Text)
    requires SplitPath(path).Some? && DoubleSlashed(path)
    ensures PathFrom(Top, Names(path)) == BlankPath(path)
  {
    BlankParent(path);
    var names := Names(path);
    assert names[1..] == [names[1]];
    assert PathFrom(In(Top, names[0]), [names[1]]) == BlankPath(path);
  }

  predicate FileAt(sh: Shape, path: Text) {
    Target(sh, path).Some? && var q := Target(sh, path).value; q in sh.tree && !sh.tree[q].isDir
  }

  ghost predicate EmptyDirAt(sh: Shape, path: Text) {
    Target(sh, path).Some? && var q := Target(sh, path).value; q in sh.tree && sh.tree[q].isDir && NoChildren(sh, q)
  }

  // ---- A file about to be published ----

  /** The chain `h` is the only one that lost its owner, or never had one, since the state `s0`. */
  predicate NewOrphan(s0: Snapshot, s: Snapshot, h: nat) { h !in s0.orphans && s.orphans == s0.orphans + {h} }

  /** Since the state `s0` only the orphaned chain `first` was built, and it holds `buf`. */
  ghost predicate Pending(s0: Snapshot, s: Snapshot, n: nat, first: nat, buf: seq<Byte>) {
    && SameFiles(s0.data, s0.sh, s.data, s.sh) && s.sh.tree == s0.sh.tree && s.sh.loc == s0.sh.loc
    && n > 0 && FreeCount(s.fat) + Needed(|buf|, n) == FreeCount(s0.fat)
    && if first == 0 then buf == [] && s == s0
       else
         && 2 <= first < |s.fat| && NewOrphan(s0, s, first) && Building(s0, s, first)
         && |s.sh.chains[first]| == Needed(|buf|, n) && Fits(|buf|, |s.sh.chains[first]|, n)
         && Take(Flat(s.data, s.sh.chains[first]), |buf|) == buf
  }

  function FileEntry(name: Name, first: nat, size: nat): Dirent {
    Dirent(name, ATTR_ARCHIVE, Zeros(8), first, Zeros(4), size)
  }

  /** Writing the contents of a chain just built. */
  lemma PendingWritten(s0: Snapshot, s1: Snapshot, s: Snapshot, n: nat, root: nat, first: nat, buf: seq<Byte>)
    requires VolumeOk(s0.fat, s0.data, n, s0.sh, root, s0.orphans) && ChainsOk(s1.fat, s1.sh.chains, s1.sh.owner)
    requires NewOrphan(s0, s1, first) && Building(s0, s1, first) && s == s1.(data := s.data)
    requires Frame(s1.data, s1.sh, s.data, s.sh) && n > 0 && |s.sh.chains[first]| == Needed(|buf|, n)
    requires Take(Flat(s.data, s.sh.chains[first]), |buf|) == buf
    ensures Pending(s0, s, n, first, buf)
  {
    FrameTrans(s0.data, s0.sh, s1.data, s1.sh, s.data, s.sh);
    FrameFiles(s0.fat, s0.data, s.data, n, s0.sh, s.sh, root, s0.orphans);
    ChainAt(s1.fat, s1.sh.chains, s1.sh.owner, first, 0);
    NeededFits(|buf|, n);
  }

  lemma FileEntryOk(s0: Snapshot, s: Snapshot, n: nat, root: nat, first: nat, buf: seq<Byte>, q: Path)
    requires VolumeOk(s.fat, s.data, n, s.sh, root, s.orphans) && Pending(s0, s, n, first, buf)
    requires |buf| <= MAX_FILE && q.In? && EntryName(q.name)
    ensures Enterable(s.data, n, s.sh, s.orphans, q, FileEntry(q.name, first, |buf|))
    ensures NodeOf(s.data, s.sh, FileEntry(q.name, first, |buf|)) == File(buf)
  {
    if first != 0 { assert HeadKnown(s.sh, s.orphans, first); }
  }

  /** An entry for `q` can be written: one that names its chain, or one that reads as deleted. */
  predicate Enterable(data: Data, n: nat, sh: Shape, orphans: set<nat>, q: Path, d: Dirent) {
    if Dead(d) then q.In? && q.name == d.name else Publishable(data, n, sh, orphans, q, d)
  }

  /** Pointing the entry of the file `q` to the stored chain. */
  lemma ReplaceStep(s0: Snapshot, s: Snapshot, n: nat, root: nat, first: nat, buf: seq<Byte>, q: Path)
    requires VolumeOk(s.fat, s.data, n, s.sh, root, s.orphans) && Pending(s0, s, n, first, buf)
    requires |buf| <= MAX_FILE && Listed(s.sh, q) && !s.sh.tree[q].isDir
    ensures var d, was := FileEntry(q.name, first, |buf|), s.sh.tree[q].first;
      && Sized(d) && q in s.sh.loc && s.sh.loc[q].cluster < |s.data| && s.sh.loc[q].slot < n
      && SLOT_BYTES * (s.sh.loc[q].slot + 1) <= |s.data[s.sh.loc[q].cluster]|
      && (was != 0 ==> was >= 2 && was in s.sh.chains && was !in s0.orphans) && (was == 0 ==> was !in s.sh.chains)
      && s0.orphans + Head(was) - Head(was) == s0.orphans && 0 !in s0.orphans && PathName(q.name)
      && VolumeOk(s.fat, PutData(s.data, s.sh.loc[q], d), n, ReplaceShape(s.sh, q, d), root, s0.orphans + Head(was))
      && OnlyChanged(s.data, s.sh, PutData(s.data, s.sh.loc[q], d), ReplaceShape(s.sh, q, d), q, Some(File(buf)))
  {
    var d, was := FileEntry(q.name, first, |buf|), s.sh.tree[q].first;
    assert LocOk(s.data, n, s.sh, q) && ParentOk(s.sh, q) && HeadOk(s.sh, n, q);
    assert was != 0 ==> HomeOk(s.sh, was);
    assert HeadKnown(s.sh, s.orphans, was) && HeadKnown(s.sh, s.orphans, first) && HeadKnown(s.sh, s.orphans, 0);
    ZeroIsNoChain(s.fat, s.sh.chains, s.sh.owner);
    FileEntryOk(s0, s, n, root, first, buf, q);
    DirCluster(s.fat, s.data, n, s.sh, root, s.orphans, s.sh.loc[q].cluster);
    ReplaceVolume(s.fat, s.data, n, s.sh, root, s.orphans, q, d);
    ReplaceLookup(s.fat, s.data, n, s.sh, root, s.orphans, q, d);
    assert s.orphans - {first} + ({was} - {0}) == s0.orphans + Head(was);
  }

  /** After the old chain is freed as well, the path has the new entry and its clusters. */
  lemma ReplacedName(s0: Snapshot, s1: Snapshot, s: Snapshot, n: nat, root: nat, first: nat, buf: seq<Byte>, q: Path)
    requires VolumeOk(s1.fat, s1.data, n, s1.sh, root, s1.orphans) && Pending(s0, s1, n, first, buf)
    requires |buf| <= MAX_FILE && Listed(s1.sh, q) && !s1.sh.tree[q].isDir && q in s1.sh.loc
    requires InRange(s1.data, n, s1.sh.loc[q]) && Sized(FileEntry(q.name, first, |buf|))
    requires s.data == PutData(s1.data, s1.sh.loc[q], FileEntry(q.name, first, |buf|))
    requires s.sh.tree == ReplaceShape(s1.sh, q, FileEntry(q.name, first, |buf|)).tree && s.sh.loc == s1.sh.loc
    requires s.sh.chains == s1.sh.chains - Head(s1.sh.tree[q].first)
    ensures FileNamed(s.data, s.sh, n, q, |buf|)
  {
    var l, was := s1.sh.loc[q], s1.sh.tree[q].first;
    SlotAfterPut(s1.data[l.cluster], l.slot, FileEntry(q.name, first, |buf|), l.slot);
    NeededFits(|buf|, n);
    ZeroIsNoChain(s1.fat, s1.sh.chains, s1.sh.owner);
    assert HeadOk(s1.sh, n, q) && HeadKnown(s1.sh, s1.orphans, first) && HeadKnown(s1.sh, s1.orphans, was);
    assert was != 0 ==> HomeOk(s1.sh, was);
  }

  /** The entry of `q` points to the stored chain; the chain it pointed to has no owner. */
  ghost predicate Repointed(s0: Snapshot, s1: Snapshot, s: Snapshot, n: nat, first: nat, buf: seq<Byte>, q: Path) {
    && q.In? && var d := FileEntry(q.name, first, |buf|);
    && Sized(d) && q in s1.sh.tree && q in s1.sh.loc && InRange(s1.data, n, s1.sh.loc[q])
    && s.fats == s1.fats && s.fat == s1.fat && s.data == PutData(s1.data, s1.sh.loc[q], d)
    && s.sh == ReplaceShape(s1.sh, q, d)
    && s.orphans == s0.orphans + Head(s1.sh.tree[q].first) && s.orphans - Head(s1.sh.tree[q].first) == s0.orphans
    && 0 !in s0.orphans && PathName(q.name) && OnlyChanged(s1.data, s1.sh, s.data, s.sh, q, Some(File(buf)))
  }

  lemma RepointedStored(s0: Snapshot, s1: Snapshot, s2: Snapshot, s: Snapshot, n: nat, root: nat, first: nat,
                        buf: seq<Byte>, q: Path)
    requires VolumeOk(s1.fat, s1.data, n, s1.sh, root, s1.orphans) && Pending(s0, s1, n, first, buf)
    requires |buf| <= MAX_FILE && Listed(s1.sh, q) && !s1.sh.tree[q].isDir && Repointed(s0, s1, s2, n, first, buf, q)
    requires s.data == s2.data && SameFiles(s2.data, s2.sh, s.data, s.sh)
    requires s.sh.tree == s2.sh.tree && s.sh.loc == s2.sh.loc
    requires s.sh.chains == s2.sh.chains - Head(s1.sh.tree[q].first)
    requires s.orphans == s2.orphans - Head(s1.sh.tree[q].first)
    ensures FileStored(s0, s, n, q, buf, 0)
  {
    OnlyChangedBetween(s0.data, s0.sh, s1.data, s1.sh, s2.data, s2.sh, s.data, s.sh, q, Some(File(buf)));
    ReplacedName(s0, s1, s, n, root, first, buf, q);
  }

  /** A slot that an entry can be written to. */
  predicate InRange(data: Data, n: nat, l: Loc) {
    l.cluster < |data| && l.slot < n && SLOT_BYTES * (l.slot + 1) <= |data[l.cluster]|
  }

  /** The slot `l` can take the entry `d` of the new path `q`. */
  ghost predicate CanEnter(s: Snapshot, n: nat, root: nat, q: Path, l: Loc, d: Dirent) {
    && VolumeOk(s.fat, s.data, n, s.sh, root, s.orphans) && Enterable(s.data, n, s.sh, s.orphans, q, d)
    && q !in s.sh.tree && Reusable(s.data, n, s.sh, l) && DirOf(s.sh, l.cluster) == q.parent
  }

  /** The state with the entry `d` of the new path `q` in slot `l`. */
  function Entered(s: Snapshot, n: nat, q: Path, l: Loc, d: Dirent): Snapshot
    requires InRange(s.data, n, l) && Sized(d) && Reusable(s.data, n, s.sh, l)
  {
    if Dead(d) then s.(data := PutData(s.data, l, d), sh := DeadShape(s.sh, n, l))
    else s.(data := PutData(s.data, l, d), sh := PublishShape(s.sh, n, q, l, d), orphans := s.orphans - {d.first})
  }

  /** Adding the entry `d` of a new path `q`; the path names nothing if the entry reads as deleted. */
  lemma EntryStep(s: Snapshot, n: nat, root: nat, q: Path, l: Loc, d: Dirent)
    requires CanEnter(s, n, root, q, l, d)
    ensures InRange(s.data, n, l) && Sized(d) && var s' := Entered(s, n, q, l, d);
      && VolumeOk(s'.fat, s'.data, n, s'.sh, root, s'.orphans)
      && OnlyChanged(s.data, s.sh, s'.data, s'.sh, q, Seen(d.name, NodeOf(s.data, s.sh, d)))
  {
    if Dead(d) {
      DeadVolume(s.fat, s.data, n, s.sh, root, s.orphans, l, d);
      DeadLookup(s.fat, s.data, n, s.sh, root, s.orphans, q, l, d);
    } else {
      PublishVolume(s.fat, s.data, n, s.sh, root, s.orphans, q, l, d);
      PublishLookup(s.fat, s.data, n, s.sh, root, s.orphans, q, l, d);
    }
  }

  /** A stored file can still be entered after the search for a slot. */
  lemma StillPublishable(s0: Snapshot, s1: Snapshot, s: Snapshot, n: nat, root: nat, first: nat, buf: seq<Byte>,
                         q: Path)
    requires VolumeOk(s1.fat, s1.data, n, s1.sh, root, s1.orphans) && Pending(s0, s1, n, first, buf)
    requires KeptChains(s1.data, s1.sh, s.data, s.sh, s1.orphans) && s.orphans == s1.orphans
    requires |buf| <= MAX_FILE && q.In? && EntryName(q.name)
    ensures Enterable(s.data, n, s.sh, s.orphans, q, FileEntry(q.name, first, |buf|))
    ensures NodeOf(s.data, s.sh, FileEntry(q.name, first, |buf|)) == File(buf)
  {
    FileEntryOk(s0, s1, n, root, first, buf, q);
    if first != 0 { assert KeptChain(s1.data, s1.sh, s.data, s.sh, first); }
  }

  /** The chain `first` has no owner; it has `clusters` clusters and starts with `bytes`. */
  predicate LostChain(s: Snapshot, first: nat, clusters: nat, bytes: seq<Byte>) {
    && first in s.orphans && first in s.sh.chains && |s.sh.chains[first]| == clusters
    && Take(Flat(s.data, s.sh.chains[first]), |bytes|) == bytes
  }

  /** Since the state `s0` the file `buf` was stored under `q`; under a name that reads as deleted its chain
      `lost` is lost. */
  ghost predicate FileStored(s0: Snapshot, s: Snapshot, n: nat, q: Path, buf: seq<Byte>, lost: nat) {
    && n > 0 && q.In? && OnlyChanged(s0.data, s0.sh, s.data, s.sh, q, Seen(q.name, File(buf)))
    && s.orphans == s0.orphans + Head(lost) && lost !in s0.orphans
    && (lost != 0 <==> buf != [] && Seen(q.name, File(buf)) == None)
    && (lost != 0 ==> LostChain(s, lost, Needed(|buf|, n), buf))
    && (Seen(q.name, File(buf)).Some? ==> FileNamed(s.data, s.sh, n, q, |buf|))
  }

  /** The path `q` has an entry with the attributes of a file and as many clusters as `size` bytes take. */
  predicate FileNamed(data: Data, sh: Shape, n: nat, q: Path, size: nat) {
    n > 0 && ChainLength(sh, q) == Needed(size, n) && EntryHas(data, sh, q, ATTR_ARCHIVE)
  }

  /** The entry of `q` has the attributes `attr`. */
  predicate EntryHas(data: Data, sh: Shape, q: Path, attr: Byte) {
    q in sh.loc && Slot(data, sh.loc[q].cluster, sh.loc[q].slot).attr == attr
  }

  /** After the entry of a stored file is written: its chain has an owner, or is lost. */
  lemma FileEntered(s0: Snapshot, s1: Snapshot, s: Snapshot, n: nat, root: nat, first: nat, buf: seq<Byte>, q: Path,
                    l: Loc)
    requires VolumeOk(s.fat, s.data, n, s.sh, root, s.orphans) && Pending(s0, s1, n, first, buf)
    requires s1.orphans == s.orphans
    requires KeptChains(s1.data, s1.sh, s.data, s.sh, s1.orphans)
    requires VolumeOk(s1.fat, s1.data, n, s1.sh, root, s1.orphans)
    requires q.In? && |q.name| == 11 && |buf| <= MAX_FILE && Reusable(s.data, n, s.sh, l) && InRange(s.data, n, l)
    requires first < 0x1_0000_0000
    ensures var s' := Entered(s, n, q, l, FileEntry(q.name, first, |buf|));
      var lost := if q.name[0] == DELETED then first else 0;
      && s'.orphans == s0.orphans + Head(lost) && lost !in s0.orphans
      && (lost != 0 ==> LostChain(s', lost, Needed(|buf|, n), buf))
      && (lost == 0 && q.name[0] == DELETED ==> buf == [])
  {
    ZeroIsNoChain(s.fat, s.sh.chains, s.sh.owner);
    assert HeadKnown(s.sh, s.orphans, 0);
    if first != 0 {
      assert KeptChain(s1.data, s1.sh, s.data, s.sh, first) && HeadKnown(s1.sh, s1.orphans, first);
      assert HomeOk(s.sh, s.sh.owner[l.cluster].head) && HeadKnown(s.sh, s.orphans, s.sh.owner[l.cluster].head);
      OtherChain(s.fat, s.data, PutData(s.data, l, FileEntry(q.name, first, |buf|)), s.sh, first, l.cluster);
    }
  }

  /** After the entry of a stored file is written under a name that scans see, its path has it and its clusters. */
  lemma FileEnteredName(s0: Snapshot, s1: Snapshot, s: Snapshot, n: nat, root: nat, first: nat, buf: seq<Byte>,
                        q: Path, l: Loc)
    requires VolumeOk(s.fat, s.data, n, s.sh, root, s.orphans) && Pending(s0, s1, n, first, buf)
    requires KeptChains(s1.data, s1.sh, s.data, s.sh, s1.orphans)
    requires q.In? && |q.name| == 11 && |buf| <= MAX_FILE && Reusable(s.data, n, s.sh, l) && InRange(s.data, n, l)
    requires first < 0x1_0000_0000 && q.name[0] != DELETED
    ensures var s' := Entered(s, n, q, l, FileEntry(q.name, first, |buf|)); FileNamed(s'.data, s'.sh, n, q, |buf|)
  {
    SlotAfterPut(s.data[l.cluster], l.slot, FileEntry(q.name, first, |buf|), l.slot);
    NeededFits(|buf|, n);
    ZeroIsNoChain(s.fat, s.sh.chains, s.sh.owner);
    if first != 0 { assert KeptChain(s1.data, s1.sh, s.data, s.sh, first); }
  }

  /** A path keeps its chain while another is built. */
  lemma NamedChain(data: Data, n: nat, sh: Shape, root: nat, orphans: set<nat>, data': Data, sh': Shape, q: Path)
    requires TreeOk(data, n, sh, root, orphans) && Frame(data, sh, data', sh') && 0 !in sh.chains && 0 !in sh'.chains
    ensures ChainLength(sh', q) == ChainLength(sh, q)
  {
    if q in sh.tree && sh.tree[q].first != 0 { assert HeadOk(sh, n, q) && SameChainOf(sh, sh', sh.tree[q].first); }
  }

  /** No path whose name reads as deleted is in the tree. */
  lemma NotSeen(data: Data, n: nat, sh: Shape, root: nat, orphans: set<nat>, q: Path)
    requires TreeOk(data, n, sh, root, orphans) && q.In? && |q.name| == 11
    ensures q.name[0] == DELETED ==> q !in sh.tree
  {
    assert Listed(sh, q) ==> ParentOk(sh, q);
  }

  lemma NothingChanged(data: Data, sh: Shape, data': Data, sh': Shape, q: Path)
    requires OnlyChanged(data, sh, data', sh', q, None) && q !in sh.tree
    ensures SameFiles(data, sh, data', sh')
  {
    forall x: Path ensures Lookup(data', sh', x) == Lookup(data, sh, x) {
      assert Lookup(data', sh', x) == if x == q then None else Lookup(data, sh, x);
    }
  }

  // ---- Growing a full directory ----

  /** Appending a free cluster, cleared, to a full directory: no path changes, and there is a slot for a new entry. */
  lemma ExtendStep(fat: Fat, data: Data, n: nat, sh: Shape, root: nat, orphans: set<nat>, dir: Path, h: nat, c: nat)
    requires VolumeOk(fat, data, n, sh, root, orphans) && IsDir(sh, dir, h) && UsedBefore(sh, h, Pos(|sh.chains[h]|, 0))
    requires sh.chains[h] != [] && 2 <= c < |fat| && fat[c] == 0
    ensures var last, sh1 := sh.chains[h][|sh.chains[h]| - 1], AllocShape(sh, c);
      var data' := data[c := Zeros(SLOT_BYTES * n)];
      && last < |fat| && h != c
      && var sh' := LinkShape(sh1, h, c);
      && VolumeOk(fat[c := EOC][last := c], data', n, sh', root, orphans) && sh'.tree == sh.tree
      && SameFiles(data, sh, data', sh') && KeptChains(data, sh, data', sh', orphans)
      && Reusable(data', n, sh', Loc(c, 0)) && DirOf(sh', c) == dir
      && FreeCount(fat[c := EOC][last := c]) + 1 == FreeCount(fat)
  {
    LinkTaken(fat, sh, h, c);
    var fat1, data', sh1, orphans1 := fat[c := EOC], data[c := Zeros(SLOT_BYTES * n)], AllocShape(sh, c), orphans + {c};
    FullDir(fat, data, n, sh, root, orphans, dir, h);
    AllocVolume(fat, data, n, sh, root, orphans, c);
    KeptByExtend(fat, data, n, sh, root, orphans, h, c);
    FrameFiles(fat, data, data', n, sh, sh1, root, orphans);
    assert CanExtend(fat1, data', n, sh1, root, orphans1, h, c);
    ExtendVolume(fat1, data', n, sh1, root, orphans1, h, c);
    ExtendLookup(fat1, data', n, sh1, root, orphans1, h, c);
    SameFilesTrans(data, sh, data', sh1, data', LinkShape(sh1, h, c));
    assert HeadKnown(sh, orphans, c);
    assert orphans1 - {c} == orphans;
    ZeroSlot(SLOT_BYTES * n, 0);
  }

  /** A cluster linked behind the chain `h` is taken from the free ones. */
  lemma LinkTaken(fat: Fat, sh: Shape, h: nat, c: nat)
    requires ChainsOk(fat, sh.chains, sh.owner) && h in sh.chains && 2 <= c < |fat| && fat[c] == 0
    ensures sh.chains[h] != [] && var last := sh.chains[h][|sh.chains[h]| - 1];
      2 <= last < |fat| && fat[last] != 0 && last != c && FreeCount(fat[c := EOC][last := c]) + 1 == FreeCount(fat)
  {
    ChainAt(fat, sh.chains, sh.owner, h, 0);
    ChainAt(fat, sh.chains, sh.owner, h, |sh.chains[h]| - 1);
    var last := sh.chains[h][|sh.chains[h]| - 1];
    FreeUpdate(fat, c, EOC, |fat|);
    FreeUpdate(fat[c := EOC], last, c, |fat|);
  }

  /** Appending a free cluster, cleared, to the orphaned chain `h`. */
  lemma AppendStep(fat: Fat, data: Data, n: nat, sh: Shape, root: nat, orphans: set<nat>, h: nat, c: nat)
    requires VolumeOk(fat, data, n, sh, root, orphans) && h in orphans && h in sh.chains
    requires 2 <= c < |fat| && fat[c] == 0
    ensures var data', sh1 := data[c := Zeros(SLOT_BYTES * n)], AllocShape(sh, c);
      && h != c && sh.chains[h] != [] && var last := sh.chains[h][|sh.chains[h]| - 1];
      && 2 <= last < |fat| && fat[last] != 0 && Frame(data, sh, data', LinkShape(sh1, h, c))
      && VolumeOk(fat[c := EOC][last := c], data', n, LinkShape(sh1, h, c), root, orphans)
  {
    var fat1, data', sh1, orphans1 := fat[c := EOC], data[c := Zeros(SLOT_BYTES * n)], AllocShape(sh, c), orphans + {c};
    LinkTaken(fat, sh, h, c);
    AllocVolume(fat, data, n, sh, root, orphans, c);
    assert HeadKnown(sh, orphans, c);
    LinkVolume(fat1, data', n, sh1, root, orphans1, h, c);
    FrameTrans(data, sh, data', sh1, data', LinkShape(sh1, h, c));
    assert orphans1 - {c} == orphans;
  }

  // ---- New directories ----

  function DotName(dots: nat): (n: Name)
    ensures |n| == 11
  {
    seq(11, i => if i < dots then DOT else SPACE)
  }

  function DirEntry(name: Name, first: nat): Dirent { Dirent(name, ATTR_DIRECTORY, Zeros(8), first, Zeros(4), 0) }

  /** A directory cluster with the entries `.` and `..` only. */
  function DirContent(n: nat, c: nat, parent: nat): (b: seq<Byte>)
    requires 2 <= n && c < 0x1_0000_0000 && parent < 0x1_0000_0000
    ensures |b| == SLOT_BYTES * n
  {
    PutSlot(PutSlot(Zeros(SLOT_BYTES * n), 0, DirEntry(DotName(1), c)), 1, DirEntry(DotName(2), parent))
  }

  lemma DirContentSlot(n: nat, c: nat, parent: nat, i: nat)
    requires 2 <= n && c < 0x1_0000_0000 && parent < 0x1_0000_0000 && i < n
    ensures var d := SlotAt(DirContent(n, c, parent), i);
      if i == 0 then d == DirEntry(DotName(1), c)
      else if i == 1 then d == DirEntry(DotName(2), parent)
      else d.name[0] == 0
  {
    var b0 := Zeros(SLOT_BYTES * n);
    SlotAfterPut(b0, 0, DirEntry(DotName(1), c), i);
    SlotAfterPut(PutSlot(b0, 0, DirEntry(DotName(1), c)), 1, DirEntry(DotName(2), parent), i);
    ZeroSlot(SLOT_BYTES * n, i);
  }

  /** The two entries of a new directory: `.` leads to itself and `..` to the directory above; the rest is free. */
  lemma DirContentIs(n: nat, c: nat, parent: nat, i: nat)
    requires 2 <= n && c < 0x1_0000_0000 && parent < 0x1_0000_0000 && i < n
    ensures var d := SlotAt(DirContent(n, c, parent), i);
      if i < 2
      then
        && d.name[0] == 0x2E && d.name[1] == (if i == 0 then 0x20 else 0x2E) && d.name[2..] == seq(9, _ => 0x20)
        && d.attr == 0x10 && d.first == (if i == 0 then c else parent) && d.size == 0
      else d.name[0] == 0
  {
    DirContentSlot(n, c, parent, i);
  }

  lemma DirContentFresh(data: Data, n: nat, c: nat, parent: nat)
    requires 2 <= n && c < |data| && c < 0x1_0000_0000 && parent < 0x1_0000_0000 && data[c] == DirContent(n, c, parent)
    ensures FreshDir(data, n, c)
  {
    forall i: nat | i < n ensures FreshSlot(data, c, i) { DirContentSlot(n, c, parent, i); }
  }

  /** The directory `q` holds `.`, for itself, and `..`, for its parent. */
  predicate NewDirAt(data: Data, sh: Shape, n: nat, q: Path) {
    && q in sh.tree && q.In? && q.parent in sh.tree && 2 <= n
    && var c, parent := sh.tree[q].first, sh.tree[q.parent].first;
    c < |data| && c < 0x1_0000_0000 && parent < 0x1_0000_0000 && data[c] == DirContent(n, c, parent)
  }

  /** Since the state `s0` only the orphaned cluster `c` was taken, and it holds a new directory. */
  ghost predicate PendingDir(s0: Snapshot, s: Snapshot, n: nat, c: nat, parent: nat) {
    && SameFiles(s0.data, s0.sh, s.data, s.sh) && s.sh.tree == s0.sh.tree
    && 2 <= c < |s.fat| <= 0x1_0000_0000 && NewOrphan(s0, s, c) && Building(s0, s, c) && s.sh.chains[c] == [c]
    && 2 <= n && parent < 0x1_0000_0000 && c < |s.data| && s.data[c] == DirContent(n, c, parent)
  }

  lemma DirStillPublishable(s0: Snapshot, s1: Snapshot, s: Snapshot, n: nat, root: nat,
                            c: nat, parent: nat, q: Path, l: Loc)
    requires VolumeOk(s.fat, s.data, n, s.sh, root, s.orphans) && PendingDir(s0, s1, n, c, parent)
    requires s.orphans == s1.orphans && KeptChains(s1.data, s1.sh, s.data, s.sh, s1.orphans)
    requires Reusable(s.data, n, s.sh, l)
    requires q.In? && EntryName(q.name)
    ensures Enterable(s.data, n, s.sh, s.orphans, q, DirEntry(q.name, c)) && l.cluster != c && InRange(s.data, n, l)
    ensures LostDir(s, n, c, parent)
  {
    assert KeptChain(s1.data, s1.sh, s.data, s.sh, c);
    OrphanApart(s, n, root, c, l);
    DirContentFresh(s.data, n, c, parent);
  }

  /** An orphaned cluster is not a directory cluster. */
  lemma OrphanApart(s: Snapshot, n: nat, root: nat, c: nat, l: Loc)
    requires VolumeOk(s.fat, s.data, n, s.sh, root, s.orphans) && c in s.orphans && Reusable(s.data, n, s.sh, l)
    ensures l.cluster != c && InRange(s.data, n, l)
  {
    assert HeadKnown(s.sh, s.orphans, c) && HeadKnown(s.sh, s.orphans, s.sh.owner[l.cluster].head);
    assert HeadFirst(s.sh.chains, c) && Owned(s.fat, s.sh.chains, s.sh.owner, c, 0);
  }

  /** The orphaned cluster `c` holds a directory that no entry points to. */
  predicate LostDir(s: Snapshot, n: nat, c: nat, parent: nat) {
    && c in s.orphans && c in s.sh.chains && s.sh.chains[c] == [c] && c < |s.data|
    && 2 <= n && c < 0x1_0000_0000 && parent < 0x1_0000_0000 && s.data[c] == DirContent(n, c, parent)
  }

  /** After the entry of a prepared directory is written: the directory is at its path, or lost. */
  lemma DirEntered(s0: Snapshot, s1: Snapshot, s: Snapshot, n: nat, c: nat, parent: nat, q: Path, l: Loc)
    requires InRange(s.data, n, l) && Reusable(s.data, n, s.sh, l) && l.cluster != c
    requires NewOrphan(s0, s1, c) && s.orphans == s1.orphans && c != 0 && LostDir(s, n, c, parent)
    requires q.In? && |q.name| == 11 && q !in s.sh.tree && q.parent in s.sh.tree && s.sh.tree[q.parent].first == parent
    ensures var s' := Entered(s, n, q, l, DirEntry(q.name, c));
      if q.name[0] == DELETED then NewOrphan(s0, s', c) && LostDir(s', n, c, parent)
      else s'.orphans == s0.orphans && NewDirAt(s'.data, s'.sh, n, q)
  {
    assert q.parent != q;
  }

  /** The entry of a prepared directory can be written, and what that leads to. */
  lemma DirReady(s0: Snapshot, s1: Snapshot, s: Snapshot, n: nat, root: nat, c: nat, parent: nat, q: Path, l: Loc)
    requires VolumeOk(s.fat, s.data, n, s.sh, root, s.orphans) && PendingDir(s0, s1, n, c, parent)
    requires s.orphans == s1.orphans && KeptChains(s1.data, s1.sh, s.data, s.sh, s1.orphans)
    requires SameFiles(s1.data, s1.sh, s.data, s.sh) && Reusable(s.data, n, s.sh, l)
    requires q.In? && EntryName(q.name) && q !in s.sh.tree && DirOf(s.sh, l.cluster) == q.parent
    requires q.parent in s.sh.tree && s.sh.tree[q.parent].first == parent
    ensures var d := DirEntry(q.name, c);
      && CanEnter(s, n, root, q, l, d) && NodeOf(s.data, s.sh, d) == Dir && SameFiles(s0.data, s0.sh, s.data, s.sh)
      && InRange(s.data, n, l) && Sized(d)
      && var s' := Entered(s, n, q, l, d);
      if q.name[0] == DELETED then NewOrphan(s0, s', c) && LostDir(s', n, c, parent)
      else s'.orphans == s0.orphans && NewDirAt(s'.data, s'.sh, n, q)
  {
    DirStillPublishable(s0, s1, s, n, root, c, parent, q, l);
    SameFilesTrans(s0.data, s0.sh, s1.data, s1.sh, s.data, s.sh);
    DirEntered(s0, s1, s, n, c, parent, q, l);
  }

  // ---- Removal ----

  lemma FileNoChildren(data: Data, n: nat, sh: Shape, root: nat, orphans: set<nat>, q: Path)
    requires TreeOk(data, n, sh, root, orphans) && q in sh.tree && !sh.tree[q].isDir
    ensures NoChildren(sh, q)
  {
    forall x | Listed(sh, x) ensures x.parent != q { assert ParentOk(sh, x); }
  }

  lemma DeleteStep(fat: Fat, data: Data, n: nat, sh: Shape, root: nat, orphans: set<nat>, q: Path)
    requires VolumeOk(fat, data, n, sh, root, orphans) && Listed(sh, q) && NoChildren(sh, q)
    ensures q in sh.loc && InRange(data, n, sh.loc[q])
    ensures var was := sh.tree[q].first;
      && (was != 0 ==> was >= 2 && was in sh.chains && was !in orphans) && (sh.tree[q].isDir ==> was != 0)
      && (was == 0 ==> was !in sh.chains)
      && VolumeOk(fat, DeleteData(data, sh.loc[q]), n, DeleteShape(sh, q), root, orphans + Head(was))
      && OnlyChanged(data, sh, DeleteData(data, sh.loc[q]), DeleteShape(sh, q), q, None)
  {
    var was := sh.tree[q].first;
    assert LocOk(data, n, sh, q) && HeadOk(sh, n, q);
    assert was != 0 ==> HomeOk(sh, was) && HeadKnown(sh, orphans, was);
    ZeroIsNoChain(fat, sh.chains, sh.owner);
    DirCluster(fat, data, n, sh, root, orphans, sh.loc[q].cluster);
    DeleteVolume(fat, data, n, sh, root, orphans, q);
    DeleteLookup(fat, data, n, sh, root, orphans, q);
    assert {was} - {0} == Head(was);
  }

  // ---- Reading ----

  lemma {:induction false} FlatLength(data: Data, n: nat, ch: seq<nat>)
    requires DataOk(data, |data|, n) && forall i | 0 <= i < |ch| :: ch[i] < |data|
    ensures |Flat(data, ch)| == Capacity(|ch|, n)
  {
    if ch != [] { FlatLength(data, n, ch[1..]); }
  }

  /** The cluster at position `k` holds the bytes after the first `k` clusters. */
  lemma FlatAt(data: Data, n: nat, ch: seq<nat>, k: nat)
    requires DataOk(data, |data|, n) && (forall i | 0 <= i < |ch| :: ch[i] < |data|) && k < |ch|
    ensures var w := Capacity(k, n);
      w + SLOT_BYTES * n <= |Flat(data, ch)| && Flat(data, ch)[w..w + SLOT_BYTES * n] == data[ch[k]]
  {
    var a, b := ch[..k], ch[k..];
    assert a + b == ch;
    FlatAppend(data, a, b);
    FlatLength(data, n, a);
    Middle(Flat(data, a), data[ch[k]], Flat(data, b[1..]));
  }

  lemma Middle(a: seq<Byte>, x: seq<Byte>, b: seq<Byte>)
    ensures (a + (x + b))[|a|..|a| + |x|] == x
  {}

  lemma ChainInRange(fat: Fat, chains: Chains, owner: Owners, h: nat)
    requires ChainsOk(fat, chains, owner) && h in chains
    ensures forall i | 0 <= i < |chains[h]| :: chains[h][i] < |fat|
  {
    forall i: nat | i < |chains[h]| ensures chains[h][i] < |fat| { assert Owned(fat, chains, owner, h, i); }
  }

  lemma PrefixNext(all: seq<Byte>, out: seq<Byte>, b: seq<Byte>, chunk: nat)
    requires out <= all && chunk <= |b| && |out| + |b| <= |all| && all[|out|..|out| + |b|] == b
    ensures out + b[..chunk] <= all
  {
    assert all[|out|..|out| + |b|][..chunk] == all[|out|..|out| + chunk];
  }

  /** What the path of a file just written names: the file, unless the name reads as deleted or the
      path is two slashes and one component. */
  lemma ReadBack(data0: Data, sh0: Shape, data: Data, n: nat, sh: Shape, root: nat, orphans: set<nat>,
                 path: Text, buf: seq<Byte>)
    requires TreeOk(data, n, sh, root, orphans) && CString(path) && Target(sh0, path).Some?
    requires if Tombstone(path) then SameFiles(data0, sh0, data, sh)
             else OnlyChanged(data0, sh0, data, sh, Target(sh0, path).value, Some(File(buf)))
    ensures var found := Lookup(data, sh, PathFrom(Top, Names(path)));
      && (!Tombstone(path) && !DoubleSlashed(path) ==> found == Some(File(buf)))
      && (Tombstone(path) ==> found == None)
      && (DoubleSlashed(path) ==> found == Lookup(data0, sh0, BlankPath(path)))
      && (DoubleSlashed(path) && In(Top, ShortName([])) !in sh0.tree ==> found == None)
  {
    var sp, q := SplitPath(path).value, Target(sh0, path).value;
    SplitNames(path);
    TargetName(sh0, path);
    PathSnoc(Top, Names(sp.parent), ShortName(sp.component));
    NotSeen(data, n, sh, root, orphans, q);
    if DoubleSlashed(path) {
      BlankLookup(path);
      var b := BlankPath(path);
      NotSeen(data, n, sh, root, orphans, b);
      assert Listed(sh, b) ==> ParentOk(sh, b);
      assert Names([SLASH]) == [];
      NameStart(sp.component);
      assert ShortName([])[0] == SPACE && sp.parent == [SLASH] && q.parent == Top;
      assert Lookup(data, sh, b.parent) == Lookup(data0, sh0, b.parent);
    }
  }

  // ---- What a well-formed volume means ----

  /** Cluster `c` is in the chain of the live entry of `q`. */
  predicate HeldBy(sh: Shape, q: Path, c: nat) {
    q in sh.tree && sh.tree[q].first in sh.chains && c in sh.chains[sh.tree[q].first]
  }

  /** Cluster `c` is in the lost chain `h`. */
  predicate LostIn(sh: Shape, orphans: set<nat>, h: nat, c: nat) {
    h in orphans && h in sh.chains && c in sh.chains[h]
  }

  /** A cluster is in use exactly when it is in the chain of a live entry or in a lost chain; no leaks
      without lost chains. */
  lemma NoLeaks(fat: Fat, data: Data, n: nat, sh: Shape, root: nat, orphans: set<nat>, c: nat)
    requires VolumeOk(fat, data, n, sh, root, orphans) && 2 <= c < |fat|
    ensures fat[c] != 0 && fat[c] != BAD <==> (exists q :: HeldBy(sh, q, c)) || (exists h :: LostIn(sh, orphans, h, c))
    ensures !((exists q :: HeldBy(sh, q, c)) && (exists h :: LostIn(sh, orphans, h, c)))
  {
    assert Marked(fat, sh.owner, c);
    ZeroIsNoChain(fat, sh.chains, sh.owner);
    if c in sh.owner {
      var h := sh.owner[c].head;
      assert OwnerListed(sh.chains, sh.owner, c) && HeadKnown(sh, orphans, h);
      if h in sh.home { assert HomeOk(sh, h) && HeldBy(sh, sh.home[h], c); } else { assert LostIn(sh, orphans, h, c); }
    }
    forall q | HeldBy(sh, q, c) ensures c in sh.owner && sh.owner[c].head in sh.home {
      assert HeadOk(sh, n, q);
      InChain(fat, sh.chains, sh.owner, sh.tree[q].first, c);
    }
    forall h | LostIn(sh, orphans, h, c) ensures c in sh.owner && sh.owner[c].head !in sh.home {
      assert HeadKnown(sh, orphans, h);
      InChain(fat, sh.chains, sh.owner, h, c);
    }
  }

  /** The chains of different paths share no cluster, and no chain visits a cluster twice. */
  lemma ChainsApart(fat: Fat, data: Data, n: nat, sh: Shape, root: nat, orphans: set<nat>, q: Path, r: Path, i: nat,
                    j: nat)
    requires VolumeOk(fat, data, n, sh, root, orphans) && q in sh.tree && r in sh.tree
    requires sh.tree[q].first in sh.chains && i < |sh.chains[sh.tree[q].first]|
    requires sh.tree[r].first in sh.chains && j < |sh.chains[sh.tree[r].first]|
    ensures sh.chains[sh.tree[q].first][i] == sh.chains[sh.tree[r].first][j] <==> q == r && i == j
  {
    var f, g := sh.tree[q].first, sh.tree[r].first;
    ZeroIsNoChain(fat, sh.chains, sh.owner);
    assert Owned(fat, sh.chains, sh.owner, f, i) && Owned(fat, sh.chains, sh.owner, g, j);
    assert HeadOk(sh, n, q) && HeadOk(sh, n, r);
  }

  /** Names in a directory are unique: two live entries with one name are one slot. */
  lemma UniqueNames(fat: Fat, data: Data, n: nat, sh: Shape, root: nat, orphans: set<nat>, l: Loc, m: Loc)
    requires VolumeOk(fat, data, n, sh, root, orphans) && l.slot < n && m.slot < n
    requires IsDirCluster(sh, l.cluster) && IsDirCluster(sh, m.cluster) && DirOf(sh, l.cluster) == DirOf(sh, m.cluster)
    requires var d, e := Slot(data, l.cluster, l.slot), Slot(data, m.cluster, m.slot);
      Live(d) && !Special(d) && Live(e) && !Special(e) && d.name == e.name
    ensures l == m
  {
    assert SlotOk(data, sh, l.cluster, l.slot) && SlotOk(data, sh, m.cluster, m.slot);
  }

  // ---- The empty volume ----

  ghost function EmptyFat(clusters: nat): Fat {
    seq(clusters + 2, c => if c < 2 then BAD else if c == 2 then EOC else 0)
  }

  ghost function EmptyShape(): Shape {
    Shape(map[2 := [2]], map[2 := Owner(2, 0)], map[Top := Info(true, 2, 0)], map[2 := Top], map[], map[2 := Pos(0, 0)])
  }

  lemma EmptyVolume(clusters: nat, n: nat, data: Data)
    requires 1 <= clusters < MAX_CLUSTER && n >= 16 && |data| == clusters + 2
    requires forall c | 0 <= c < |data| :: data[c] == Zeros(SLOT_BYTES * n)
    ensures VolumeOk(EmptyFat(clusters), data, n, EmptyShape(), 2, {})
  {
    var fat, sh := EmptyFat(clusters), EmptyShape();
    assert ChainsOk(fat, sh.chains, sh.owner);
    forall c: nat, i: nat | IsDirCluster(sh, c) && i < n ensures SlotOk(data, sh, c, i) { ZeroSlot(SLOT_BYTES * n, i); }
    assert TreeOk(data, n, sh, 2, {});
  }
}
