/** The writable FAT32 driver: cluster allocation, directory scans, and the
    operations on files and directories. */
module Fat32 {
  import opened Basics
  import opened FatTypes
  import opened FatChains
  import opened FatTree
  import opened FatEntries
  import opened FatFiles
  import opened FatGrow
  import opened FatPaths
  import opened FatScan
  import opened FatSteps

  class Volume {
    var fats: Copies
    var data: Data
    const n: nat              // directory slots in a cluster
    const root: nat
    const maxCluster: nat
    ghost var fat: Fat
    ghost var sh: Shape
    ghost var orphans: set<nat>   // chains that no entry points to

    /** An empty volume: cluster 2 is the root directory. */
    constructor Format(copies: nat, slots: nat, clusters: nat)
      requires copies > 0 && slots >= 16 && 1 <= clusters < MAX_CLUSTER
      ensures Open() && orphans == {} && n == slots && maxCluster == clusters + 1 && root == 2
      ensures FilesOf(data, sh) == map[Top := Dir]
    {
      var row: seq<Cell> := seq(clusters + 2, c => if c < 2 then BAD else if c == 2 then EOC else 0);
      fats, data := seq(copies, _ => row), seq(clusters + 2, _ => Zeros(SLOT_BYTES * slots));
      n, root, maxCluster := slots, 2, clusters + 1;
      fat, sh, orphans := EmptyFat(clusters), EmptyShape(), {};
      new;
      EmptyVolume(clusters, slots, data);
      forall k | 0 <= k < |fats| ensures CopyOk(fats[k], fat) {}
    }

    ghost predicate Open()
      reads this
    {
      |fat| == maxCluster + 1 && Mirrored(fats, fat) && VolumeOk(fat, data, n, sh, root, orphans)
    }

    ghost function State(): Snapshot
      reads this
    {
      Snapshot(fats, fat, data, sh, orphans)
    }

    // ---- FAT entries ----

    method ReadEntry(c: nat) returns (v: nat)
      requires Mirrored(fats, fat) && c < |fat|
      ensures v == fat[c]
    {
      assert CopyOk(fats[0], fat);
      v := Low(fats[0][c]);
    }

    /** Writes the low 28 bits of `v` below the top nibble of a cell. */
    method WriteCopy(k: nat, c: nat, v: nat)
      requires k < |fats| && c < |fats[k]|
      modifies this`fats
      ensures fats == old(fats)[k := Put(old(fats)[k], c, v)]
    {
      fats := fats[k := Put(fats[k], c, v)];
    }

    /** Writes the 28-bit value to every copy. */
    method SetEntry(c: nat, v: nat)
      requires Mirrored(fats, fat) && c < |fat|
      modifies this`fats, this`fat
      ensures fat == old(fat)[c := Low(v)] && Mirrored(fats, fat) && SameTops(old(fats), fats)
      ensures v < VALUES ==> fat == old(fat)[c := v]
    {
      ghost var fat0, fats0 := fat, fats;
      assert forall k | 0 <= k < |fats| :: CopyOk(fats[k], fat0);
      WriteCopy(0, c, v);
      var i := 1;
      while i < |fats|
        invariant 1 <= i <= |fats| == |fats0| && fat == fat0
        invariant forall k | 0 <= k < i :: CopyOk(fats[k], fat0[c := Low(v)]) && TopsOk(fats0[k], fats[k])
        invariant forall k | i <= k < |fats| :: fats[k] == fats0[k] && CopyOk(fats[k], fat0)
      {
        WriteCopy(i, c, v);
        i := i + 1;
      }
      fat := fat0[c := Low(v)];
    }

    // ---- Clusters ----

    /** Takes the lowest free cluster and clears it. */
    method AllocCluster() returns (ok: bool, c: nat)
      requires Open()
      modifies this`fats, this`fat, this`data, this`sh, this`orphans
      ensures Open() && SameTops(old(fats), fats)
      ensures ok <==> FreeCount(old(fat)) > 0
      ensures !ok ==>
        fats == old(fats) && fat == old(fat) && data == old(data) && sh == old(sh) && orphans == old(orphans)
      ensures ok ==> 2 <= c < |old(fat)| && old(fat)[c] == 0 && (forall x | 2 <= x < c :: old(fat)[x] != 0)
      ensures ok ==> fat == old(fat)[c := EOC] && data == old(data)[c := Zeros(SLOT_BYTES * n)]
      ensures ok ==> sh == AllocShape(old(sh), c) && NewOrphan(old(State()), State(), c) && c !in old(sh).chains
      ensures ok ==> Frame(old(data), old(sh), data, sh)
    {
      c := 2;
      while c <= maxCluster
        invariant 2 <= c <= maxCluster + 1
        invariant fats == old(fats) && fat == old(fat) && data == old(data) && sh == old(sh) && orphans == old(orphans)
        invariant forall x | 2 <= x < c :: fat[x] != 0
      {
        var value := ReadEntry(c);
        if value == 0 {
          NoneFree(fat, |fat|);
          assert HeadKnown(sh, orphans, c);
          AllocVolume(fat, data, n, sh, root, orphans, c);
          SetEntry(c, EOC);
          data := data[c := Zeros(SLOT_BYTES * n)];
          sh, orphans := AllocShape(sh, c), orphans + {c};
          return true, c;
        }
        c := c + 1;
      }
      NoneFree(fat, |fat|);
      return false, 0;
    }

    /** Frees an orphaned chain, cluster after cluster. */
    method FreeChain(h: nat) returns (ok: bool)
      requires Open() && h in orphans && h in sh.chains
      modifies this`fats, this`fat, this`sh, this`orphans
      ensures ok && Open() && SameTops(old(fats), fats)
      ensures Zeroed(old(fat), fat, old(sh).chains[h]) && sh == FreeShape(old(sh), h) && orphans == old(orphans) - {h}
      ensures FreeCount(fat) == FreeCount(old(fat)) + |old(sh).chains[h]|
    {
      ghost var fat0, ch := fat, sh.chains[h];
      var cluster, guard := h, 0;
      ChainAt(fat, sh.chains, sh.owner, h, 0);
      ok := false;
      while 2 <= cluster <= maxCluster && guard <= maxCluster
        invariant sh == old(sh) && orphans == old(orphans)
        invariant guard < |ch| && cluster == ch[guard] && 2 <= cluster <= maxCluster
        invariant |fat| == |fat0| && Mirrored(fats, fat) && SameTops(old(fats), fats) && Zeroed(fat0, fat, ch[..guard])
        invariant FreeCount(fat) == FreeCount(fat0) + guard
        decreases maxCluster + 1 - guard
      {
        ChainAt(fat0, sh.chains, sh.owner, h, guard);
        ZeroedNext(fat0, fat, ch, guard);
        FreeUpdate(fat, cluster, 0, |fat|);
        var next := ReadEntry(cluster);
        ghost var fats1 := fats;
        SetEntry(cluster, 0);
        SameTopsTrans(old(fats), fats1, fats);
        if IsEnd(next) || next < 2 {
          ok := true;
          break;
        }
        ChainAt(fat0, sh.chains, sh.owner, h, guard + 1);
        cluster, guard := next, guard + 1;
      }
      FreeVolume(fat0, fat, data, n, sh, root, orphans, h);
      sh, orphans := FreeShape(sh, h), orphans - {h};
    }

    /** Appends a cleared cluster to the orphaned chain `h`, whose last cluster is `last`. */
    method AppendCluster(h: nat, last: nat) returns (ok: bool, c: nat)
      requires Open() && h in orphans && h in sh.chains && |sh.chains[h]| > 0
      requires last == sh.chains[h][|sh.chains[h]| - 1]
      modifies this`fats, this`fat, this`data, this`sh, this`orphans
      ensures Open() && SameTops(old(fats), fats) && orphans == old(orphans) && Frame(old(data), old(sh), data, sh)
      ensures !ok ==> FreeCount(fat) == 0 && fats == old(fats) && fat == old(fat) && data == old(data) && sh == old(sh)
      ensures ok ==> 2 <= c < |old(fat)| && c != h && old(fat)[c] == 0 && 2 <= last < |old(fat)| && old(fat)[last] != 0
      ensures ok ==> fat == old(fat)[c := EOC][last := c] && sh == LinkShape(AllocShape(old(sh), c), h, c)
    {
      ghost var s0 := State();
      FrameSame(data, sh);
      ok, c := AllocCluster();
      if ok {
        ghost var fats1 := fats;
        AppendStep(s0.fat, s0.data, n, s0.sh, root, s0.orphans, h, c);
        SetEntry(last, c);
        sh, orphans := LinkShape(sh, h, c), s0.orphans;
        SameTopsTrans(s0.fats, fats1, fats);
      }
    }

    /** One more cluster for the chain `h`, built since the state `s0`. */
    method Grow(h: nat, last: nat, ghost s0: Snapshot) returns (ok: bool, c: nat)
      requires Open() && NewOrphan(s0, State(), h) && Building(s0, State(), h)
      requires last == sh.chains[h][|sh.chains[h]| - 1]
      modifies this`fats, this`fat, this`data, this`sh, this`orphans
      ensures Open() && NewOrphan(s0, State(), h) && Building(s0, State(), h)
      ensures !ok ==> FreeCount(fat) == 0 && |sh.chains[h]| == old(|sh.chains[h]|)
      ensures ok ==> |sh.chains[h]| == old(|sh.chains[h]|) + 1 && c == sh.chains[h][|sh.chains[h]| - 1]
    {
      ghost var s1 := State();
      ok, c := AppendCluster(h, last);
      if ok { BuildNext(s0, s1, State(), h, c); }
    }

    /** Allocates and links `needed` clusters, or gives all of them back. */
    method BuildChain(needed: nat) returns (ok: bool, first: nat)
      requires Open()
      modifies this`fats, this`fat, this`data, this`sh, this`orphans
      ensures Open() && SameTops(old(fats), fats) && Frame(old(data), old(sh), data, sh)
      ensures ok <==> needed <= FreeCount(old(fat))
      ensures !ok || needed == 0 ==> State() == old(State()).(data := data)
      ensures ok && needed == 0 ==> first == 0 && data == old(data)
      ensures ok && needed > 0 ==> NewOrphan(old(State()), State(), first) && Building(old(State()), State(), first)
      ensures ok && needed > 0 ==> first in sh.chains && |sh.chains[first]| == needed
    {
      ghost var s0 := State();
      if needed == 0 {
        FrameSame(data, sh);
        SameTopsSame(fats);
        return true, 0;
      }
      ok, first := AllocCluster();
      if !ok {
        FrameSame(data, sh);
        return false, 0;
      }
      BuildFirst(s0, State(), first);
      var last, i := first, 1;
      while i < needed
        invariant 1 <= i <= needed && Open() && NewOrphan(s0, State(), first)
        invariant Building(s0, State(), first)
        invariant |sh.chains[first]| == i && last == sh.chains[first][|sh.chains[first]| - 1]
      {
        ok, last := Grow(first, last, s0);
        if !ok {
          TakeBack(first, s0);
          return false, 0;
        }
        i := i + 1;
      }
    }

    /** Frees a chain built since the state `s0`, which is restored but for the contents of free clusters. */
    method TakeBack(h: nat, ghost s0: Snapshot)
      requires Open() && NewOrphan(s0, State(), h) && Building(s0, State(), h) && Mirrored(s0.fats, s0.fat)
      modifies this`fats, this`fat, this`sh, this`orphans
      ensures Open() && State() == s0.(data := data) && Frame(s0.data, s0.sh, data, sh)
    {
      ghost var s1 := State();
      FrameBack(s0.data, s0.sh, data, sh);
      var freed := FreeChain(h);
      GrownFree(s0.fat, s0.sh, s1.fat, s1.sh, h, fat);
      SameTopsTrans(s0.fats, s1.fats, fats);
      SameCopies(s0.fats, fats, s0.fat);
      assert orphans == s0.orphans;
    }

    /** Writes one cluster of the orphaned chain `h`. */
    method WriteCluster(c: nat, b: seq<Byte>, ghost h: nat, ghost data0: Data, ghost sh0: Shape)
      requires Open() && h in orphans && c in sh.owner && sh.owner[c].head == h && c < |data| && |b| == SLOT_BYTES * n
      requires Frame(data0, sh0, data, sh)
      modifies this`data
      ensures Open() && data == old(data)[c := b] && Frame(data0, sh0, data, sh)
    {
      WriteVolume(fat, data, n, sh, root, orphans, c, b);
      data := data[c := b];
      FrameTrans(data0, sh0, old(data), sh, data, sh);
    }

    /** Writes `chunk` bytes of `buf` to the cluster at position `k` of the orphaned chain `first`, padded
        with zeros. */
    method WriteChunk(c: nat, buf: seq<Byte>, w: nat, chunk: nat, ghost first: nat, ghost k: nat, ghost data0: Data)
      requires Open() && first in orphans && first in sh.chains && k < |sh.chains[first]| && c == sh.chains[first][k]
      requires chunk <= SLOT_BYTES * n && w + chunk <= |buf| && Frame(data0, sh, data, sh)
      requires Stored(data, sh.chains[first], k, buf, w) && |Flat(data, sh.chains[first][..k])| == w
      modifies this`data
      ensures Open() && Frame(data0, sh, data, sh) && Stored(data, sh.chains[first], k + 1, buf, w + chunk)
      ensures |Flat(data, sh.chains[first][..k + 1])| == w + SLOT_BYTES * n
      ensures c < |fat| && (k + 1 < |sh.chains[first]| ==> fat[c] == sh.chains[first][k + 1])
    {
      ChainAt(fat, sh.chains, sh.owner, first, k);
      assert Owned(fat, sh.chains, sh.owner, first, k);
      StoredNext(data, sh.chains[first], k, buf, w, chunk, SLOT_BYTES * n - chunk);
      WriteCluster(c, buf[w..w + chunk] + Zeros(SLOT_BYTES * n - chunk), first, data0, sh);
    }

    /** Writes `buf` along the orphaned chain `first`, padding the last cluster with zeros. */
    method WriteContents(first: nat, buf: seq<Byte>)
      requires Open() && first in orphans && first in sh.chains && Fits(|buf|, |sh.chains[first]|, n) && |buf| > 0
      modifies this`data
      ensures Open() && Frame(old(data), sh, data, sh) && Take(Flat(data, sh.chains[first]), |buf|) == buf
    {
      ghost var ch, k, data0 := sh.chains[first], 0, data;
      var clusterBytes, w, cluster := SLOT_BYTES * n, 0, first;
      ChainAt(fat, sh.chains, sh.owner, first, 0);
      FrameSame(data, sh);
      while true
        invariant Open() && k < |ch| && cluster == ch[k] && w == Capacity(k, n) < |buf|
        invariant Frame(data0, sh, data, sh) && Stored(data, ch, k, buf, w) && |Flat(data, ch[..k])| == w
        decreases |buf| - w
      {
        var chunk := if |buf| - w > clusterBytes then clusterBytes else |buf| - w;
        WriteChunk(cluster, buf, w, chunk, first, k, data0);
        w, k := w + chunk, k + 1;
        if w == |buf| { break; }
        CapacityLess(|buf|, |ch|, n, k);
        cluster := ReadEntry(cluster);
      }
      StoredAll(data, ch, k, buf);
    }

    // ---- Directory scans ----

    /** Scans one cluster of directory `dir` for `name`. */
    method ScanCluster(c: nat, name: Name, ghost dir: Path, ghost h: nat, ghost j: nat)
      returns (stop: bool, found: bool, i: nat)
      requires Open() && IsDir(sh, dir, h) && j < |sh.chains[h]| && c == sh.chains[h][j]
      requires |name| == 11 && name[0] != DOT && NotPassed(sh, In(dir, name), Pos(j, 0))
      ensures var q := In(dir, name);
        if found then q in sh.tree && q in sh.loc && sh.loc[q] == Loc(c, i)
        else if stop then q !in sh.tree
        else NotPassed(sh, q, Pos(j, n))
    {
      ghost var q := In(dir, name);
      DirFacts(fat, data, n, sh, root, orphans, dir, h, j);
      i := 0;
      while i < n
        invariant i <= n && NotPassed(sh, q, Pos(j, i))
      {
        ScanSlot(fat, data, n, sh, root, orphans, dir, h, name, j, i);
        var d := SlotAt(data[c], i);
        if d.name[0] == 0 { return true, false, i; }
        if d.name[0] != DELETED && !Hidden(d.attr) && d.name == name { return true, true, i; }
        i := i + 1;
      }
      return false, false, i;
    }

    /** Finds the entry for `name` in directory `dir`, whose first cluster is `h`. */
    method FindEntry(h: nat, name: Name, ghost dir: Path) returns (found: bool, l: Loc, d: Dirent)
      requires Open() && IsDir(sh, dir, h) && |name| == 11 && name[0] != DOT
      ensures found <==> In(dir, name) in sh.tree
      ensures found ==> In(dir, name) in sh.loc && l == sh.loc[In(dir, name)] && sh.tree[In(dir, name)] == InfoOf(d)
      ensures found ==> d.name == name && d.name[0] != 0xE5 && d.attr != 0x0F && d.attr / 8 % 2 == 0
    {
      ghost var j, ch, q := 0, sh.chains[h], In(dir, name);
      var cluster: nat := h;
      ChainAt(fat, sh.chains, sh.owner, h, 0);
      while !IsEnd(cluster) && 2 <= cluster <= maxCluster
        invariant j <= |ch| && NotPassed(sh, q, Pos(j, 0))
        invariant if j < |ch| then cluster == ch[j] && 2 <= cluster <= maxCluster && !IsEnd(cluster)
                  else IsEnd(cluster) && q !in sh.tree
        decreases |ch| - j
      {
        var stop, hit, i := ScanCluster(cluster, name, dir, h, j);
        if hit {
          assert LocOk(data, n, sh, q);
          return true, Loc(cluster, i), SlotAt(data[cluster], i);
        }
        if stop { return false, Loc(0, 0), Dirent([], 0, [], 0, [], 0); }
        ScanRow(fat, data, n, sh, root, orphans, dir, h, name, j);
        ChainAt(fat, sh.chains, sh.owner, h, j);
        cluster := ReadEntry(cluster);
        j := j + 1;
      }
      return false, Loc(0, 0), Dirent([], 0, [], 0, [], 0);
    }

    /** The first slot of a cluster that may take an entry, if there is one. */
    method FreeSlotIn(c: nat, ghost dir: Path, ghost h: nat, ghost j: nat) returns (found: bool, i: nat)
      requires Open() && IsDir(sh, dir, h) && j < |sh.chains[h]| && c == sh.chains[h][j] && UsedBefore(sh, h, Pos(j, 0))
      requires FullTo(data, n, sh, h, j)
      ensures if found then Reusable(data, n, sh, Loc(c, i)) && DirOf(sh, c) == dir
              else UsedBefore(sh, h, Pos(j + 1, 0))
      ensures if found then !Full(data, n, sh, h) else FullTo(data, n, sh, h, j + 1)
    {
      DirFacts(fat, data, n, sh, root, orphans, dir, h, j);
      i := 0;
      while i < n
        invariant i <= n && UsedBefore(sh, h, Pos(j, i)) && (i == n ==> UsedBefore(sh, h, Pos(j + 1, 0)))
        invariant forall k: nat {:trigger Taken(data, sh, h, j, k)} | k < i :: Taken(data, sh, h, j, k)
      {
        FreeScanSlot(fat, data, n, sh, root, orphans, dir, h, j, i);
        var first := SlotAt(data[c], i).name[0];
        if first == 0 || first == DELETED {
          assert !Taken(data, sh, h, j, i);
          return true, i;
        }
        assert Taken(data, sh, h, j, i);
        i := i + 1;
      }
      return false, i;
    }

    /** A directory has only free, deleted, hidden, `.` and `..` slots exactly when it has no children. */
    method IsEmptyDir(h: nat, ghost q: Path) returns (empty: bool)
      requires Open() && IsDir(sh, q, h)
      ensures empty <==> NoChildren(sh, q)
    {
      ghost var j, ch := 0, sh.chains[h];
      var cluster, guard := h, 0;
      ChainAt(fat, sh.chains, sh.owner, h, 0);
      while 2 <= cluster <= maxCluster && guard <= maxCluster
        invariant j == guard < |ch| && cluster == ch[j] && 2 <= cluster <= maxCluster && NoChildBefore(sh, q, Pos(j, 0))
        decreases |ch| - j
      {
        ChainAt(fat, sh.chains, sh.owner, h, j);
        var i := 0;
        while i < n
          invariant i <= n && NoChildBefore(sh, q, Pos(j, i))
        {
          EmptyScanSlot(fat, data, n, sh, root, orphans, q, h, j, i);
          var d := SlotAt(data[cluster], i);
          if d.name[0] == 0 { break; }
          if !(d.name[0] == DELETED || Hidden(d.attr) || Special(d)) { return false; }
          i := i + 1;
        }
        EmptyScanRow(fat, data, n, sh, root, orphans, q, h, j);
        var next := ReadEntry(cluster);
        if IsEnd(next) { return true; }
        ChainAt(fat, sh.chains, sh.owner, h, j + 1);
        cluster, guard, j := next, guard + 1, j + 1;
      }
      assert false;
    }

    /** Appends a cleared cluster to a full directory. */
    method ExtendDir(h: nat, last: nat, ghost dir: Path) returns (ok: bool, c: nat)
      requires Open() && IsDir(sh, dir, h) && UsedBefore(sh, h, Pos(|sh.chains[h]|, 0))
      requires sh.chains[h] != [] && last == sh.chains[h][|sh.chains[h]| - 1]
      modifies this`fats, this`fat, this`data, this`sh, this`orphans
      ensures Open() && SameTops(old(fats), fats) && orphans == old(orphans) && sh.tree == old(sh).tree
      ensures ok <==> FreeCount(old(fat)) > 0
      ensures !ok ==> State() == old(State())
      ensures ok ==>
        Reusable(data, n, sh, Loc(c, 0)) && DirOf(sh, c) == dir && FreeCount(fat) + 1 == FreeCount(old(fat))
      ensures ok ==> SameFiles(old(data), old(sh), data, sh) && KeptChains(old(data), old(sh), data, sh, orphans)
    {
      ghost var fat0, sh0, data0, orphans0 := fat, sh, data, orphans;
      ok, c := AllocCluster();
      if ok {
        ghost var fats1 := fats;
        ExtendStep(fat0, data0, n, sh0, root, orphans0, dir, h, c);
        SetEntry(last, c);
        sh, orphans := LinkShape(sh, h, c), orphans0;
        SameTopsTrans(old(fats), fats1, fats);
      }
    }

    /** The first slot of directory `dir` that may take an entry; a full directory is extended. */
    method FindFreeSlot(h: nat, ghost dir: Path) returns (ok: bool, l: Loc)
      requires Open() && IsDir(sh, dir, h)
      modifies this`fats, this`fat, this`data, this`sh, this`orphans
      ensures Open() && SameTops(old(fats), fats) && orphans == old(orphans) && sh.tree == old(sh).tree
      ensures ok <==> !Full(old(data), n, old(sh), h) || FreeCount(old(fat)) > 0
      ensures !ok ==> State() == old(State())
      ensures ok ==> Reusable(data, n, sh, l) && DirOf(sh, l.cluster) == dir
      ensures ok ==> FreeCount(fat) + (if Full(old(data), n, old(sh), h) then 1 else 0) == FreeCount(old(fat))
      ensures ok ==> SameFiles(old(data), old(sh), data, sh) && KeptChains(old(data), old(sh), data, sh, orphans)
    {
      ghost var j, ch := 0, sh.chains[h];
      var cluster, guard := h, 0;
      assert HeadOk(sh, n, dir);
      SameTopsSame(fats);
      ChainAt(fat, sh.chains, sh.owner, h, 0);
      while 2 <= cluster <= maxCluster && guard <= maxCluster
        invariant fats == old(fats) && fat == old(fat) && data == old(data) && sh == old(sh) && orphans == old(orphans)
        invariant j == guard < |ch| && cluster == ch[j] && 2 <= cluster <= maxCluster && UsedBefore(sh, h, Pos(j, 0))
        invariant FullTo(data, n, sh, h, j)
        decreases |ch| - j
      {
        ChainAt(fat, sh.chains, sh.owner, h, j);
        var found, i := FreeSlotIn(cluster, dir, h, j);
        if found { return true, Loc(cluster, i); }
        var next := ReadEntry(cluster);
        if IsEnd(next) {
          var c;
          ok, c := ExtendDir(h, cluster, dir);
          return ok, Loc(c, 0);
        }
        ChainAt(fat, sh.chains, sh.owner, h, j + 1);
        cluster, guard, j := next, guard + 1, j + 1;
      }
      assert false;
    }

    // ---- Paths ----

    /** Walks a path from the root. */
    method ResolvePath(path: Text) returns (r: Option<Dirent>)
      requires Open()
      ensures r.Some? <==> PathFrom(Top, Names(path)) in sh.tree
      ensures r.Some? ==> InfoOf(r.value) == sh.tree[PathFrom(Top, Names(path))]
    {
      var rootEntry := Dirent(Zeros(11), ATTR_DIRECTORY, Zeros(8), root, Zeros(4), 0);
      if path == [] || path == [SLASH] { return Some(rootEntry); }
      var pos := if path[0] == SLASH then 1 else 0;
      var cluster, entry := root, rootEntry;
      ghost var p := Top;
      assert HeadOk(sh, n, Top);
      while pos < |path|
        invariant pos <= |path| && PathFrom(Top, Names(path)) == PathFrom(p, NamesFrom(path, pos))
        invariant if pos < |path| then IsDir(sh, p, cluster) else p in sh.tree && InfoOf(entry) == sh.tree[p]
      {
        var component, next := NextComponent(path, pos);
        var name := ToShortName(component);
        NameStart(component);
        var found, l, d := FindEntry(cluster, name, p);
        ghost var rest := NamesFrom(path, next);
        assert NamesFrom(path, pos)[1..] == rest;
        if PathFrom(In(p, name), rest) in sh.tree {
          Ancestors(data, n, sh, root, orphans, In(p, name), rest);
        }
        if !found { return None; }
        p, entry, pos := In(p, name), d, next;
        if pos < |path| {
          if !IsDirAttr(entry.attr) { return None; }
          cluster := entry.first;
          assert HeadOk(sh, n, p);
        }
      }
      return Some(entry);
    }

    /** The parent directory and the 8.3 name of the last component. */
    method ResolveParent(path: Text) returns (r: Option<(nat, Name)>, ghost dir: Path)
      requires Open()
      ensures r.Some? <==> Target(sh, path).Some?
      ensures r.Some? ==> IsDir(sh, dir, r.value.0) && Target(sh, path) == Some(In(dir, r.value.1))
    {
      dir := Top;
      var split := SplitParent(path);
      if split.None? { return None, Top; }
      dir := PathFrom(Top, Names(split.value.parent));
      var parent := ResolvePath(split.value.parent);
      if parent.None? || !IsDirAttr(parent.value.attr) { return None, dir; }
      var h := if parent.value.first == 0 then root else parent.value.first;
      assert HeadOk(sh, n, dir);
      var name := MakeComponentName(split.value.component);
      if name.None? { return None, dir; }
      return Some((h, name.value)), dir;
    }

    // ---- Files ----

    /** Stores `buf` in a new chain that no entry points to yet. */
    method PrepareChain(buf: seq<Byte>) returns (ok: bool, first: nat)
      requires Open()
      modifies this`fats, this`fat, this`data, this`sh, this`orphans
      ensures Open() && SameTops(old(fats), fats) && Frame(old(data), old(sh), data, sh)
      ensures ok <==> Needed(|buf|, n) <= FreeCount(old(fat))
      ensures ok ==> Pending(old(State()), State(), n, first, buf)
      ensures !ok ==> State() == old(State()).(data := data)
    {
      ghost var s0 := State();
      NeededFits(|buf|, n);
      var needed := Needed(|buf|, n);
      ok, first := BuildChain(needed);
      if ok && needed > 0 {
        ghost var s1 := State();
        WriteContents(first, buf);
        FrameTrans(s0.data, s0.sh, s1.data, s1.sh, data, sh);
        PendingWritten(s0, s1, State(), n, root, first, buf);
      }
    }

    /** Takes back a chain that could not be published. */
    method Undo(first: nat, ghost buf: seq<Byte>, ghost s0: Snapshot)
      requires Open() && Pending(s0, State(), n, first, buf) && Mirrored(s0.fats, s0.fat)
      modifies this`fats, this`fat, this`sh, this`orphans
      ensures Open() && State() == s0.(data := data) && Frame(s0.data, s0.sh, data, sh)
    {
      if first != 0 { TakeBack(first, s0); } else { FrameSame(data, sh); }
    }

    /** Frees the chain that an entry no longer points to. */
    method Release(first: nat)
      requires Open() && (first != 0 ==> first >= 2 && first in sh.chains && first in orphans)
      modifies this`fats, this`fat, this`sh, this`orphans
      ensures Open() && SameTops(old(fats), fats) && SameFiles(data, old(sh), data, sh) && sh.tree == old(sh).tree
      ensures orphans == old(orphans) - Head(first)
      ensures sh.chains == old(sh).chains - Head(first) && sh.loc == old(sh).loc
      ensures FreeCount(fat) == FreeCount(old(fat)) + if first == 0 then 0 else |old(sh).chains[first]|
    {
      ghost var sh0, fat0, orphans0 := sh, fat, orphans;
      SameTopsSame(fats);
      if first >= 2 {
        var freed := FreeChain(first);
        FreeVolume(fat0, fat, data, n, sh0, root, orphans0, first);
        FrameFiles(fat0, data, data, n, sh0, sh, root, orphans0);
      }
    }

    /** Points the existing entry of `q` to the new chain; the old one has no owner then. */
    method PointTo(l: Loc, name: Name, first: nat, buf: seq<Byte>, was: nat, ghost q: Path, ghost s0: Snapshot)
      requires Open() && Pending(s0, State(), n, first, buf) && |buf| <= MAX_FILE
      requires Listed(sh, q) && !sh.tree[q].isDir && q.name == name && q in sh.loc && l == sh.loc[q]
      requires was == sh.tree[q].first
      modifies this`data, this`sh, this`orphans
      ensures Open() && Repointed(s0, old(State()), State(), n, first, buf, q)
      ensures was != 0 ==> was >= 2 && was in sh.chains && was in orphans
    {
      ReplaceStep(s0, State(), n, root, first, buf, q);
      var d := FileEntry(name, first, |buf|);
      data, sh, orphans := PutData(data, l, d), ReplaceShape(sh, q, d), s0.orphans + Head(was);
    }

    /** Points the existing entry of `q` to the new chain, then frees the old one. */
    method Overwrite(l: Loc, name: Name, first: nat, buf: seq<Byte>, was: Dirent, ghost q: Path, ghost s0: Snapshot)
      requires Open() && Pending(s0, State(), n, first, buf) && |buf| <= MAX_FILE
      requires Listed(sh, q) && !sh.tree[q].isDir && q.name == name && q in sh.loc && l == sh.loc[q]
      requires InfoOf(was) == sh.tree[q]
      modifies this`fats, this`fat, this`data, this`sh, this`orphans
      ensures Open() && SameTops(old(fats), fats) && FileStored(s0, State(), n, q, buf, 0)
      ensures FreeCount(fat) == FreeCount(old(fat)) + ChainLength(old(sh), q)
    {
      ghost var s1 := State();
      ZeroIsNoChain(fat, sh.chains, sh.owner);
      PointTo(l, name, first, buf, was.first, q, s0);
      ghost var s2 := State();
      Release(was.first);
      RepointedStored(s0, s1, s2, State(), n, root, first, buf, q);
    }

    /** Writes the entry `d` of the new path `q` into the slot `l`. */
    method WriteEntry(l: Loc, d: Dirent, ghost q: Path, ghost s0: Snapshot)
      requires Open() && CanEnter(State(), n, root, q, l, d) && SameFiles(s0.data, s0.sh, data, sh)
      modifies this`data, this`sh, this`orphans
      ensures Open() && OnlyChanged(s0.data, s0.sh, data, sh, q, Seen(d.name, NodeOf(old(data), old(sh), d)))
      ensures InRange(old(data), n, l) && Sized(d) && State() == Entered(old(State()), n, q, l, d)
    {
      ghost var s1 := State();
      EntryStep(s1, n, root, q, l, d);
      data := PutData(data, l, d);
      sh, orphans := Entered(s1, n, q, l, d).sh, Entered(s1, n, q, l, d).orphans;
      OnlyChangedAfter(s0.data, s0.sh, s1.data, s1.sh, data, sh, q, Seen(d.name, NodeOf(s1.data, s1.sh, d)));
    }

    /** The entry of a stored file, in the slot found for it. */
    method FinishFile(l: Loc, name: Name, first: nat, buf: seq<Byte>, ghost q: Path, ghost s0: Snapshot,
                      ghost s1: Snapshot)
      returns (ghost lost: nat)
      requires Open() && Pending(s0, s1, n, first, buf) && |buf| <= MAX_FILE && orphans == s1.orphans
      requires VolumeOk(s1.fat, s1.data, n, s1.sh, root, s1.orphans) && KeptChains(s1.data, s1.sh, data, sh, orphans)
      requires SameFiles(s1.data, s1.sh, data, sh) && Reusable(data, n, sh, l) && q.In?
      requires DirOf(sh, l.cluster) == q.parent
      requires q.name == name && EntryName(name) && q !in sh.tree
      modifies this`data, this`sh, this`orphans
      ensures Open() && FileStored(s0, State(), n, q, buf, lost)
    {
      StillPublishable(s0, s1, State(), n, root, first, buf, q);
      SameFilesTrans(s0.data, s0.sh, s1.data, s1.sh, data, sh);
      DirCluster(fat, data, n, sh, root, orphans, l.cluster);
      FileEntered(s0, s1, State(), n, root, first, buf, q, l);
      if name[0] != DELETED { FileEnteredName(s0, s1, State(), n, root, first, buf, q, l); }
      lost := if name[0] == DELETED then first else 0;
      NeededFits(|buf|, n);
      WriteEntry(l, FileEntry(name, first, |buf|), q, s0);
    }

    /** Adds an entry for a stored file to its directory, or takes the file back. */
    method CreateFile(h: nat, name: Name, first: nat, buf: seq<Byte>, ghost dir: Path, ghost s0: Snapshot)
      returns (ok: bool, ghost lost: nat)
      requires Open() && Pending(s0, State(), n, first, buf) && |buf| <= MAX_FILE
      requires IsDir(sh, dir, h) && In(dir, name) !in sh.tree && EntryName(name) && Mirrored(s0.fats, s0.fat)
      modifies this`fats, this`fat, this`data, this`sh, this`orphans
      ensures Open() && (ok <==> !Full(old(data), n, old(sh), h) || FreeCount(old(fat)) > 0)
      ensures ok ==> SameTops(old(fats), fats) && FileStored(s0, State(), n, In(dir, name), buf, lost)
      ensures ok ==> FreeCount(fat) + (if Full(old(data), n, old(sh), h) then 1 else 0) == FreeCount(old(fat))
      ensures !ok ==> State() == s0.(data := data) && Frame(s0.data, s0.sh, data, sh)
    {
      ghost var s1, q := State(), In(dir, name);
      var l;
      ok, l := FindFreeSlot(h, dir);
      lost := 0;
      if ok { lost := FinishFile(l, name, first, buf, q, s0, s1); } else { Undo(first, buf, s0); }
    }

    /** Stores a file under a path that is free or names a file. */
    method StoreFile(h: nat, name: Name, found: bool, buf: seq<Byte>, ghost dir: Path)
      returns (ok: bool, ghost lost: nat)
      requires Open() && IsDir(sh, dir, h) && EntryName(name) && |buf| <= MAX_FILE
      requires (found <==> In(dir, name) in sh.tree)
      requires found ==> !sh.tree[In(dir, name)].isDir
      modifies this`fats, this`fat, this`data, this`sh, this`orphans
      ensures Open() && SameTops(old(fats), fats)
      ensures ok <==> Needed(|buf|, n) + SlotCost(old(data), n, old(sh), In(dir, name)) <= FreeCount(old(fat))
      ensures ok ==> FileStored(old(State()), State(), n, In(dir, name), buf, lost)
      ensures ok ==> FreeCount(fat) + Needed(|buf|, n) + SlotCost(old(data), n, old(sh), In(dir, name)) ==
                     FreeCount(old(fat)) + ChainLength(old(sh), In(dir, name))
      ensures !ok ==> State() == old(State()).(data := data) && Frame(old(data), old(sh), data, sh)
    {
      ghost var s0, q := State(), In(dir, name);
      SameTopsSame(fats);
      ZeroIsNoChain(fat, sh.chains, sh.owner);
      var first;
      lost := 0;
      ok, first := PrepareChain(buf);
      if !ok { return false, 0; }
      ghost var fats1 := fats;
      CostAfter(s0.fat, s0.data, n, s0.sh, root, s0.orphans, data, sh, dir, h, name);
      ZeroIsNoChain(fat, sh.chains, sh.owner);
      NamedChain(s0.data, n, s0.sh, root, s0.orphans, data, sh, q);
      if found {
        var again, l, was := FindEntry(h, name, dir);
        Overwrite(l, name, first, buf, was, q, s0);
      } else {
        ok, lost := CreateFile(h, name, first, buf, dir, s0);
      }
      if ok { SameTopsTrans(s0.fats, fats1, fats); }
    }

    /** Creates or overwrites a file; a name that reads as deleted loses the stored chain `lost`. */
    method WriteFile(path: Text, buf: seq<Byte>) returns (ok: bool, ghost lost: nat)
      requires Open() && CString(path)
      modifies this`fats, this`fat, this`data, this`sh, this`orphans
      ensures Open() && SameTops(old(fats), fats)
      ensures ok <==>
        && Writable(old(sh), path, buf)
        && HasRoom(|buf|, n, SlotCost(old(data), n, old(sh), Target(old(sh), path).value), FreeCount(old(fat)))
      ensures ok && !Tombstone(path) ==>
        && OnlyChanged(old(data), old(sh), data, sh, Target(old(sh), path).value, Some(File(buf)))
        && orphans == old(orphans)
      ensures ok && Tombstone(path) ==>
        SameFiles(old(data), old(sh), data, sh) && orphans == old(orphans) + Head(lost) && lost !in old(orphans)
      ensures ok ==> (lost != 0 <==> Tombstone(path) && buf != [])
      ensures ok && lost != 0 ==> LostChain(State(), lost, Needed(|buf|, n), buf)
      ensures ok ==> var q := Target(old(sh), path).value;
        FreeCount(fat) + Needed(|buf|, n) + SlotCost(old(data), n, old(sh), q) ==
        FreeCount(old(fat)) + ChainLength(old(sh), q)
      ensures ok && !Tombstone(path) ==> var q := Target(old(sh), path).value;
        Tight(|buf|, ChainLength(sh, q), n) && EntryHas(data, sh, q, 0x20)
      ensures ok && lost != 0 ==> Tight(|buf|, |sh.chains[lost]|, n)
      ensures !ok ==> State() == old(State()).(data := data) && Frame(old(data), old(sh), data, sh)
    {
      SameTopsSame(fats);
      FrameSame(data, sh);
      lost := 0;
      if |buf| > MAX_FILE { return false, 0; }
      var place, found, dir := WriteTarget(path);
      if place.None? { return false, 0; }
      var (h, name) := place.value;
      NotSeen(data, n, sh, root, orphans, In(dir, name));
      HasRoomIs(|buf|, n, SlotCost(data, n, sh, In(dir, name)), FreeCount(fat));
      ok, lost := StoreFile(h, name, found, buf, dir);
      if ok && name[0] == DELETED { NothingChanged(old(data), old(sh), data, sh, In(dir, name)); }
    }

    /** The directory and the name that a file can be written to, and whether the name is in use. */
    method WriteTarget(path: Text) returns (place: Option<(nat, Name)>, found: bool, ghost dir: Path)
      requires Open() && CString(path)
      ensures place.Some? <==>
        Target(sh, path).Some? && !(Target(sh, path).value in sh.tree && sh.tree[Target(sh, path).value].isDir)
      ensures place.Some? ==> var (h, name) := place.value;
        && Target(sh, path) == Some(In(dir, name)) && IsDir(sh, dir, h) && EntryName(name)
        && (name[0] == DELETED <==> Tombstone(path)) && (found <==> In(dir, name) in sh.tree)
    {
      var parent;
      parent, dir := ResolveParent(path);
      if parent.None? { return None, false, dir; }
      TargetName(sh, path);
      var l, was;
      found, l, was := FindEntry(parent.value.0, parent.value.1, dir);
      place := if found && IsDirAttr(was.attr) then None else parent;
    }

    /** Reads at most `room` bytes of a file. */
    method ReadFile(path: Text, room: nat) returns (ok: bool, out: seq<Byte>)
      requires Open()
      ensures ok <==>
        Lookup(data, sh, PathFrom(Top, Names(path))).Some? && Lookup(data, sh, PathFrom(Top, Names(path))).value.File?
      ensures ok ==> out == Take(Lookup(data, sh, PathFrom(Top, Names(path))).value.bytes, room)
    {
      ghost var q := PathFrom(Top, Names(path));
      out := [];
      var entry := ResolvePath(path);
      if entry.None? || IsDirAttr(entry.value.attr) { return false, []; }
      assert HeadOk(sh, n, q);
      assert entry.value.first in sh.home ==> HomeOk(sh, entry.value.first);
      if entry.value.size > 0 { out := ReadChain(entry.value.first, entry.value.size, room); }
      ok := true;
    }

    /** Reads `size` bytes of a chain, at most `room`. */
    method ReadChain(first: nat, size: nat, room: nat) returns (out: seq<Byte>)
      requires Open() && first in sh.chains && Fits(size, |sh.chains[first]|, n)
      ensures out == Take(Take(Flat(data, sh.chains[first]), size), room)
    {
      ghost var ch, k := sh.chains[first], 0;
      ghost var all := Flat(data, ch);
      var cluster: nat, clusterBytes := first, SLOT_BYTES * n;
      ChainInRange(fat, sh.chains, sh.owner, first);
      FlatLength(data, n, ch);
      ChainAt(fat, sh.chains, sh.owner, first, 0);
      out := [];
      while !IsEnd(cluster) && cluster >= 2 && |out| < size && |out| < room
        invariant |out| <= size && |out| <= room && out <= all && k <= |ch|
        invariant |out| < size && |out| < room ==>
          |out| == Capacity(k, n) && k < |ch| && cluster == ch[k] && 2 <= cluster <= maxCluster && !IsEnd(cluster)
        decreases |ch| - k
      {
        ChainAt(fat, sh.chains, sh.owner, first, k);
        FlatAt(data, n, ch, k);
        var chunk := clusterBytes;
        if chunk > size - |out| { chunk := size - |out|; }
        if |out| + chunk > room { chunk := room - |out|; }
        PrefixNext(all, out, data[cluster], chunk);
        out := out + data[cluster][..chunk];
        cluster := ReadEntry(cluster);
        k := k + 1;
      }
    }

    // ---- Directories and removal ----

    /** A cluster that holds a new directory, not yet in its parent. */
    method PrepareDir(parent: nat) returns (ok: bool, c: nat)
      requires Open() && parent <= maxCluster
      modifies this`fats, this`fat, this`data, this`sh, this`orphans
      ensures Open() && SameTops(old(fats), fats) && Frame(old(data), old(sh), data, sh)
      ensures ok <==> FreeCount(old(fat)) > 0
      ensures !ok ==> State() == old(State())
      ensures ok ==> PendingDir(old(State()), State(), n, c, parent)
    {
      ghost var s0 := State();
      FrameSame(data, sh);
      ok, c := AllocCluster();
      if ok {
        assert sh.owner[c].head == c;
        WriteCluster(c, DirContent(n, c, parent), c, s0.data, s0.sh);
        BuildFirst(s0, State(), c);
        FrameFiles(s0.fat, s0.data, data, n, s0.sh, sh, root, s0.orphans);
      }
    }

    /** Creates a directory that holds `.` and `..` only; a name that reads as deleted loses its cluster `lost`. */
    method Mkdir(path: Text) returns (ok: bool, ghost lost: nat)
      requires Open() && CString(path)
      modifies this`fats, this`fat, this`data, this`sh, this`orphans
      ensures Open() && SameTops(old(fats), fats)
      ensures ok <==>
        && Target(old(sh), path).Some? && Target(old(sh), path).value !in old(sh).tree
        && 1 + SlotCost(old(data), n, old(sh), Target(old(sh), path).value) <= FreeCount(old(fat))
      ensures ok && !Tombstone(path) ==> var q := Target(old(sh), path).value;
        OnlyChanged(old(data), old(sh), data, sh, q, Some(Dir)) && NewDirAt(data, sh, n, q) && orphans == old(orphans)
      ensures ok && Tombstone(path) ==>
        && SameFiles(old(data), old(sh), data, sh) && NewOrphan(old(State()), State(), lost)
        && LostDir(State(), n, lost, old(sh).tree[Target(old(sh), path).value.parent].first)
      ensures ok ==> var q := Target(old(sh), path).value;
        FreeCount(fat) + 1 + SlotCost(old(data), n, old(sh), q) == FreeCount(old(fat))
      ensures !ok ==> State() == old(State()).(data := data) && Frame(old(data), old(sh), data, sh)
    {
      SameTopsSame(fats);
      FrameSame(data, sh);
      lost := 0;
      var parent, dir := ResolveParent(path);
      if parent.None? { return false, 0; }
      TargetName(sh, path);
      var found, l, was := FindEntry(parent.value.0, parent.value.1, dir);
      if found { return false, 0; }
      ok, lost := CreateDir(parent.value.0, parent.value.1, dir);
      if ok && parent.value.1[0] == DELETED { NothingChanged(old(data), old(sh), data, sh, In(dir, parent.value.1)); }
    }

    method CreateDir(h: nat, name: Name, ghost dir: Path) returns (ok: bool, ghost lost: nat)
      requires Open() && IsDir(sh, dir, h) && EntryName(name) && In(dir, name) !in sh.tree
      modifies this`fats, this`fat, this`data, this`sh, this`orphans
      ensures Open() && SameTops(old(fats), fats)
      ensures ok <==> 1 + SlotCost(old(data), n, old(sh), In(dir, name)) <= FreeCount(old(fat))
      ensures ok ==> OnlyChanged(old(data), old(sh), data, sh, In(dir, name), Seen(name, Dir))
      ensures ok && name[0] != DELETED ==> orphans == old(orphans) && NewDirAt(data, sh, n, In(dir, name))
      ensures ok && name[0] == DELETED ==> NewOrphan(old(State()), State(), lost) && LostDir(State(), n, lost, h)
      ensures ok ==> FreeCount(fat) + 1 + SlotCost(old(data), n, old(sh), In(dir, name)) == FreeCount(old(fat))
      ensures !ok ==> State() == old(State()).(data := data) && Frame(old(data), old(sh), data, sh)
    {
      ghost var s0 := State();
      ChainAt(fat, sh.chains, sh.owner, h, 0);
      SameTopsSame(fats);
      var c;
      ok, c := PrepareDir(h);
      lost := c;
      if ok {
        ghost var fats1 := fats;
        CostAfter(s0.fat, s0.data, n, s0.sh, root, s0.orphans, data, sh, dir, h, name);
        ok := PublishDir(h, name, c, dir, s0);
        if ok { SameTopsTrans(s0.fats, fats1, fats); }
      }
    }

    /** Writes the entry of a prepared directory into the slot found for it. */
    method FinishDir(l: Loc, name: Name, c: nat, h: nat, ghost q: Path, ghost s0: Snapshot, ghost s1: Snapshot)
      requires Open() && PendingDir(s0, s1, n, c, h) && SameFiles(s1.data, s1.sh, data, sh) && sh.tree == s1.sh.tree
      requires orphans == s1.orphans && KeptChains(s1.data, s1.sh, data, sh, orphans) && Reusable(data, n, sh, l)
      requires q.In? && DirOf(sh, l.cluster) == q.parent
      requires q.name == name && EntryName(name) && q !in sh.tree && q.parent in sh.tree && sh.tree[q.parent].first == h
      modifies this`data, this`sh, this`orphans
      ensures Open() && OnlyChanged(s0.data, s0.sh, data, sh, q, Seen(name, Dir))
      ensures if name[0] == DELETED then NewOrphan(s0, State(), c) && LostDir(State(), n, c, h)
              else orphans == s0.orphans && NewDirAt(data, sh, n, q)
    {
      DirReady(s0, s1, State(), n, root, c, h, q, l);
      WriteEntry(l, DirEntry(name, c), q, s0);
    }

    /** Adds the entry for a prepared directory, or takes the directory back. */
    method PublishDir(h: nat, name: Name, c: nat, ghost dir: Path, ghost s0: Snapshot) returns (ok: bool)
      requires Open() && PendingDir(s0, State(), n, c, h) && IsDir(sh, dir, h)
      requires In(dir, name) !in sh.tree && EntryName(name) && Mirrored(s0.fats, s0.fat)
      modifies this`fats, this`fat, this`data, this`sh, this`orphans
      ensures Open() && (ok <==> !Full(old(data), n, old(sh), h) || FreeCount(old(fat)) > 0)
      ensures ok ==> SameTops(old(fats), fats) && OnlyChanged(s0.data, s0.sh, data, sh, In(dir, name), Seen(name, Dir))
      ensures ok && name[0] != DELETED ==> orphans == s0.orphans && NewDirAt(data, sh, n, In(dir, name))
      ensures ok && name[0] == DELETED ==> NewOrphan(s0, State(), c) && LostDir(State(), n, c, h)
      ensures ok ==> FreeCount(fat) + (if Full(old(data), n, old(sh), h) then 1 else 0) == FreeCount(old(fat))
      ensures !ok ==> State() == s0.(data := data) && Frame(s0.data, s0.sh, data, sh)
    {
      ghost var s1 := State();
      var l;
      ok, l := FindFreeSlot(h, dir);
      if ok { FinishDir(l, name, c, h, In(dir, name), s0, s1); } else { TakeBack(c, s0); }
    }

    /** Marks the entry of `q` deleted, then frees its chain. */
    method DeleteEntry(l: Loc, first: nat, ghost q: Path)
      requires Open() && Listed(sh, q) && NoChildren(sh, q) && q in sh.loc && l == sh.loc[q]
      requires first == sh.tree[q].first
      modifies this`fats, this`fat, this`data, this`sh, this`orphans
      ensures Open() && SameTops(old(fats), fats) && OnlyChanged(old(data), old(sh), data, sh, q, None)
      ensures orphans == old(orphans) && FreeCount(fat) == FreeCount(old(fat)) + ChainLength(old(sh), q)
    {
      ghost var data0, sh0 := data, sh;
      DeleteStep(fat, data, n, sh, root, orphans, q);
      data, sh, orphans := DeleteData(data, l), DeleteShape(sh, q), orphans + Head(first);
      ghost var sh1 := sh;
      Release(first);
      assert orphans == old(orphans);
      OnlyChangedBefore(data0, sh0, data, sh1, data, sh, q, None);
    }

    /** Removes a file. */
    method RemoveFile(path: Text) returns (ok: bool)
      requires Open()
      modifies this`fats, this`fat, this`data, this`sh, this`orphans
      ensures Open() && SameTops(old(fats), fats)
      ensures ok <==> FileAt(old(sh), path)
      ensures ok ==> OnlyChanged(old(data), old(sh), data, sh, Target(old(sh), path).value, None)
      ensures ok ==> FreeCount(fat) == FreeCount(old(fat)) + ChainLength(old(sh), Target(old(sh), path).value)
      ensures orphans == old(orphans) && (!ok ==> State() == old(State()))
    {
      SameTopsSame(fats);
      var parent, dir := ResolveParent(path);
      if parent.None? { return false; }
      var h, name := parent.value.0, parent.value.1;
      ghost var q := In(dir, name);
      TargetStart(sh, path);
      var found, l, d := FindEntry(h, name, dir);
      if !found || IsDirAttr(d.attr) { return false; }
      FileNoChildren(data, n, sh, root, orphans, q);
      DeleteEntry(l, d.first, q);
      ok := true;
    }

    /** Removes a directory without children. */
    method RemoveEmptyDir(path: Text) returns (ok: bool)
      requires Open()
      modifies this`fats, this`fat, this`data, this`sh, this`orphans
      ensures Open() && SameTops(old(fats), fats)
      ensures ok <==> EmptyDirAt(old(sh), path)
      ensures ok ==> OnlyChanged(old(data), old(sh), data, sh, Target(old(sh), path).value, None)
      ensures ok ==> FreeCount(fat) == FreeCount(old(fat)) + ChainLength(old(sh), Target(old(sh), path).value)
      ensures orphans == old(orphans) && (!ok ==> State() == old(State()))
    {
      SameTopsSame(fats);
      var parent, dir := ResolveParent(path);
      if parent.None? { return false; }
      var h, name := parent.value.0, parent.value.1;
      ghost var q := In(dir, name);
      TargetStart(sh, path);
      var found, l, d := FindEntry(h, name, dir);
      if !found || !IsDirAttr(d.attr) { return false; }
      assert HeadOk(sh, n, q);
      ok := IsEmptyDir(d.first, q);
      if ok { DeleteEntry(l, d.first, q); }
    }

    // ---- Runs ----

    ghost function Contents(): Files
      reads this
    {
      FilesOf(data, sh)
    }

    method PerformWrite(path: Text, buf: seq<Byte>) returns (ok: bool)
      requires Open() && CString(path)
      modifies this`fats, this`fat, this`data, this`sh, this`orphans
      ensures Open() && SameTops(old(fats), fats) && Done(old(State()), State(), n, Write(path, buf), ok)
    {
      ghost var s0, lost := State(), 0;
      ok, lost := WriteFile(path, buf);
      if !ok { FrameFiles(s0.fat, s0.data, data, n, s0.sh, sh, root, s0.orphans); }
      if Writable(s0.sh, path, buf) {
        HasRoomIs(|buf|, n, SlotCost(s0.data, n, s0.sh, Target(s0.sh, path).value), FreeCount(s0.fat));
      }
      WriteDone(s0, State(), n, path, buf, ok, lost);
    }

    method PerformMkdir(path: Text) returns (ok: bool)
      requires Open() && CString(path)
      modifies this`fats, this`fat, this`data, this`sh, this`orphans
      ensures Open() && SameTops(old(fats), fats) && Done(old(State()), State(), n, MakeDir(path), ok)
    {
      ghost var s0, lost := State(), 0;
      ok, lost := Mkdir(path);
      if !ok { FrameFiles(s0.fat, s0.data, data, n, s0.sh, sh, root, s0.orphans); }
      MkdirDone(s0, State(), n, path, ok, lost);
    }

    method PerformRemove(path: Text, dir: bool) returns (ok: bool)
      requires Open()
      modifies this`fats, this`fat, this`data, this`sh, this`orphans
      ensures Open() && SameTops(old(fats), fats)
      ensures Done(old(State()), State(), n, if dir then RemoveDir(path) else Remove(path), ok)
    {
      ghost var s0 := State();
      TargetIs(data, sh, path);
      ghost var q := if Target(sh, path).Some? then Target(sh, path).value else Top;
      ChildlessIs(data, sh, q);
      if dir { ok := RemoveEmptyDir(path); } else { ok := RemoveFile(path); }
      if ok { ChangedFilesOf(s0.data, s0.sh, data, sh, q, None); }
    }

    /** One operation acts on the files as its abstract counterpart does, or not at all; it succeeds
        exactly when it is allowed and there is room. */
    method Perform(op: Op) returns (ok: bool)
      requires Open() && CString(op.path)
      modifies this`fats, this`fat, this`data, this`sh, this`orphans
      ensures Open() && SameTops(old(fats), fats) && Done(old(State()), State(), n, op, ok)
    {
      match op {
        case Write(path, buf) => ok := PerformWrite(path, buf);
        case MakeDir(path) => ok := PerformMkdir(path);
        case Remove(path) => ok := PerformRemove(path, false);
        case RemoveDir(path) => ok := PerformRemove(path, true);
      }
    }

    /** Every run keeps the volume well formed and acts on the files as the abstract run does. With
        enough free clusters at the start every allowed operation succeeds. */
    method Run(ops: seq<Op>) returns (oks: seq<bool>)
      requires Open() && forall i | 0 <= i < |ops| :: CString(ops[i].path)
      modifies this`fats, this`fat, this`data, this`sh, this`orphans
      ensures Open() && SameTops(old(fats), fats)
      ensures |oks| == |ops| && Contents() == After(old(Contents()), ops, oks)
      ensures n > 0 && AllJudged(old(Contents()), ops, oks, Budget(ops, n) <= FreeCount(old(fat)))
      ensures old(orphans) <= orphans && |orphans| == |old(orphans)| + LeakCount(ops, oks)
    {
      ghost var s0 := State();
      SameTopsSame(fats);
      oks := [];
      while |oks| < |ops|
        invariant |oks| <= |ops| && Open() && SameTops(s0.fats, fats) && Ran(s0, State(), n, ops, oks)
      {
        ghost var s1 := State();
        var ok := Perform(ops[|oks|]);
        SameTopsTrans(s0.fats, s1.fats, fats);
        RanNext(s0, s1, State(), n, ops, oks, ok);
        oks := oks + [ok];
      }
      assert ops[..|ops|] == ops;
    }

    /** A file reads back as it was written, and every other path reads as before; not under a name that
        reads as deleted, and not under two slashes and one component. */
    method WriteThenRead(path: Text, buf: seq<Byte>, room: nat, other: Text)
      returns (wrote: bool, ok: bool, back: seq<Byte>)
      requires Open() && CString(path)
      modifies this`fats, this`fat, this`data, this`sh, this`orphans
      ensures Open()
      ensures wrote ==> SplitPath(path).Some?
      ensures wrote && !Tombstone(path) && !DoubleSlashed(path) ==> ok && back == Take(buf, room)
      ensures wrote && Tombstone(path) ==> !ok
      ensures wrote && DoubleSlashed(path) ==> (ok <==> FileIn(old(sh), BlankPath(path)))
      ensures wrote && DoubleSlashed(path) && In(Top, ShortName([])) !in old(sh).tree ==> !ok
      ensures wrote && (Tombstone(path) || Target(old(sh), path) != Some(PathFrom(Top, Names(other)))) ==>
        Lookup(data, sh, PathFrom(Top, Names(other))) == Lookup(old(data), old(sh), PathFrom(Top, Names(other)))
    {
      ghost var data0, sh0, lost := data, sh, 0;
      wrote, lost := WriteFile(path, buf);
      ok, back := ReadFile(path, room);
      if wrote {
        ReadBack(data0, sh0, data, n, sh, root, orphans, path, buf);
        ghost var x := PathFrom(Top, Names(other));
        assert Lookup(data, sh, x) ==
          if !Tombstone(path) && x == Target(sh0, path).value then Some(File(buf)) else Lookup(data0, sh0, x);
      }
    }
  }
}
