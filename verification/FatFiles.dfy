/** The abstract file system that a volume stands for: a map from paths to
    directories and files, and what each operation does to it. */
module FatFiles {
  import opened Basics
  import opened FatTree
  import opened FatEntries
  import opened FatGrow
  import opened FatPaths
  import opened FatScan
  import opened FatSteps

  type Files = map<Path, Node>

  ghost function FilesOf(data: Data, sh: Shape): Files {
    map q | q in sh.tree :: if sh.tree[q].isDir then Dir else File(Bytes(data, sh, sh.tree[q]))
  }

  datatype Op = Write(path: Text, buf: seq<Byte>) | MakeDir(path: Text) | Remove(path: Text) | RemoveDir(path: Text)

  /** The path that an operation is about: its parent must be a directory. */
  function PathOf(files: Files, path: Text): Option<Path> {
    var split := SplitPath(path);
    if split.None? || !ValidComponent(split.value.component) then None
    else
      var dir := PathFrom(Top, Names(split.value.parent));
      if dir in files && files[dir] == Dir then Some(In(dir, ShortName(split.value.component))) else None
  }

  ghost predicate Childless(files: Files, q: Path) { forall x | x in files && x.In? :: x.parent != q }

  /** An operation may succeed; only writing and making directories need space as well. */
  ghost predicate Allowed(files: Files, op: Op) {
    PathOf(files, op.path).Some? &&
    var q := PathOf(files, op.path).value;
    match op
    case Write(_, buf) => |buf| <= MAX_FILE && (q in files ==> files[q] != Dir)
    case MakeDir(_) => q !in files
    case Remove(_) => q in files && files[q] != Dir
    case RemoveDir(_) => q in files && files[q] == Dir && Childless(files, q)
  }

  /** An operation that stores a file or directory under a name that reads as deleted. */
  predicate Lost(op: Op) { (op.Write? || op.MakeDir?) && Tombstone(op.path) }

  /** Such an operation, when it succeeds, leaves a chain without an owner, unless it stores no bytes. */
  predicate Leaks(op: Op) { Lost(op) && (op.Write? ==> op.buf != []) }

  /** The files after an operation that succeeded. */
  function Apply(files: Files, op: Op): Files {
    if PathOf(files, op.path).None? || Lost(op) then files
    else
      var q := PathOf(files, op.path).value;
      match op
      case Write(_, buf) => files[q := File(buf)]
      case MakeDir(_) => files[q := Dir]
      case Remove(_) => files - {q}
      case RemoveDir(_) => files - {q}
  }

  /** The files after a run, given which operations succeeded. */
  function After(files: Files, ops: seq<Op>, oks: seq<bool>): Files
    requires |ops| == |oks|
  {
    if ops == [] then files
    else
      var k := |ops| - 1;
      var before := After(files, ops[..k], oks[..k]);
      if oks[k] then Apply(before, ops[k]) else before
  }

  /** Only writing and making directories may fail for want of space. */
  ghost predicate Judged(files: Files, op: Op, ok: bool, space: bool) {
    if space || op.Remove? || op.RemoveDir? then ok <==> Allowed(files, op) else ok ==> Allowed(files, op)
  }

  ghost predicate JudgedAt(files: Files, ops: seq<Op>, oks: seq<bool>, space: bool, k: nat) {
    k < |oks| <= |ops| && Judged(After(files, ops[..k], oks[..k]), ops[k], oks[k], space)
  }

  /** An operation succeeds only if it is allowed when it is made, and with enough space exactly then. */
  ghost predicate AllJudged(files: Files, ops: seq<Op>, oks: seq<bool>, space: bool) {
    && |oks| <= |ops|
    && forall k: nat {:trigger JudgedAt(files, ops, oks, space, k)} | k < |oks| :: JudgedAt(files, ops, oks, space, k)
  }

  lemma RunNext(files: Files, ops: seq<Op>, oks: seq<bool>, space: bool, ok: bool)
    requires |oks| < |ops| && AllJudged(files, ops, oks, space)
    requires Judged(After(files, ops[..|oks|], oks), ops[|oks|], ok, space)
    ensures AllJudged(files, ops, oks + [ok], space)
    ensures var before := After(files, ops[..|oks|], oks);
      After(files, ops[..|oks| + 1], oks + [ok]) == if ok then Apply(before, ops[|oks|]) else before
  {
    var oks', n := oks + [ok], |oks|;
    assert ops[..n + 1][..n] == ops[..n] && oks'[..n] == oks;
    forall k: nat | k < |oks'| ensures JudgedAt(files, ops, oks', space, k) {
      if k < n { assert JudgedAt(files, ops, oks, space, k) && oks'[..k] == oks[..k]; }
    }
  }

  /** The operation `op` was made in the state `s0` and led to `s`. */
  ghost predicate Done(s0: Snapshot, s: Snapshot, n: nat, op: Op, ok: bool) {
    && n > 0 && var files := FilesOf(s0.data, s0.sh);
    && (ok <==> Allowed(files, op) && Room(s0.data, n, s0.sh, op) <= FreeCount(s0.fat))
    && FilesOf(s.data, s.sh) == (if ok then Apply(files, op) else files)
    && FreeCount(s.fat) + Cost(op, n) >= FreeCount(s0.fat)
    && s0.orphans <= s.orphans && |s.orphans| == |s0.orphans| + (if ok && Leaks(op) then 1 else 0)
    && (!ok ==> s.fats == s0.fats && s.sh == s0.sh)
  }

  lemma WriteDone(s0: Snapshot, s: Snapshot, n: nat, path: Text, buf: seq<Byte>, ok: bool, lost: nat)
    requires n > 0
    requires ok <==> Writable(s0.sh, path, buf) && Room(s0.data, n, s0.sh, Write(path, buf)) <= FreeCount(s0.fat)
    requires ok ==> FreeCount(s.fat) + Room(s0.data, n, s0.sh, Write(path, buf)) >= FreeCount(s0.fat)
    requires ok && !Tombstone(path) ==>
      OnlyChanged(s0.data, s0.sh, s.data, s.sh, Target(s0.sh, path).value, Some(File(buf))) && s.orphans == s0.orphans
    requires ok && Tombstone(path) ==> s.orphans == s0.orphans + Head(lost) && lost !in s0.orphans
    requires ok && Tombstone(path) ==> SameFiles(s0.data, s0.sh, s.data, s.sh) && (lost != 0 <==> buf != [])
    requires !ok ==> s == s0.(data := s.data) && SameFiles(s0.data, s0.sh, s.data, s.sh)
    ensures Done(s0, s, n, Write(path, buf), ok)
  {
    TargetIs(s0.data, s0.sh, path);
    if !ok || Tombstone(path) { SameFilesOf(s0.data, s0.sh, s.data, s.sh); }
    else { ChangedFilesOf(s0.data, s0.sh, s.data, s.sh, Target(s0.sh, path).value, Some(File(buf))); }
  }

  lemma MkdirDone(s0: Snapshot, s: Snapshot, n: nat, path: Text, ok: bool, lost: nat)
    requires n > 0
    requires ok <==>
      && Target(s0.sh, path).Some? && Target(s0.sh, path).value !in s0.sh.tree
      && Room(s0.data, n, s0.sh, MakeDir(path)) <= FreeCount(s0.fat)
    requires ok ==> FreeCount(s.fat) + Room(s0.data, n, s0.sh, MakeDir(path)) >= FreeCount(s0.fat)
    requires ok && !Tombstone(path) ==>
      OnlyChanged(s0.data, s0.sh, s.data, s.sh, Target(s0.sh, path).value, Some(Dir)) && s.orphans == s0.orphans
    requires ok && Tombstone(path) ==> NewOrphan(s0, s, lost) && SameFiles(s0.data, s0.sh, s.data, s.sh)
    requires !ok ==> s == s0.(data := s.data) && SameFiles(s0.data, s0.sh, s.data, s.sh)
    ensures Done(s0, s, n, MakeDir(path), ok)
  {
    TargetIs(s0.data, s0.sh, path);
    if !ok || Tombstone(path) { SameFilesOf(s0.data, s0.sh, s.data, s.sh); }
    else { ChangedFilesOf(s0.data, s0.sh, s.data, s.sh, Target(s0.sh, path).value, Some(Dir)); }
  }

  /** The operations `ops[..|oks|]` were made from the state `s0` on and led to `s`. */
  ghost predicate Ran(s0: Snapshot, s: Snapshot, n: nat, ops: seq<Op>, oks: seq<bool>) {
    && n > 0 && |oks| <= |ops| && var files := FilesOf(s0.data, s0.sh);
    && FilesOf(s.data, s.sh) == After(files, ops[..|oks|], oks)
    && AllJudged(files, ops, oks, Budget(ops, n) <= FreeCount(s0.fat))
    && FreeCount(s.fat) + Budget(ops[..|oks|], n) >= FreeCount(s0.fat)
    && s0.orphans <= s.orphans && |s.orphans| == |s0.orphans| + LeakCount(ops[..|oks|], oks)
  }

  lemma RanNext(s0: Snapshot, s1: Snapshot, s: Snapshot, n: nat, ops: seq<Op>, oks: seq<bool>, ok: bool)
    requires Ran(s0, s1, n, ops, oks) && |oks| < |ops| && Done(s1, s, n, ops[|oks|], ok)
    ensures Ran(s0, s, n, ops, oks + [ok])
  {
    BudgetNext(ops, n, |oks|);
    RunNext(FilesOf(s0.data, s0.sh), ops, oks, Budget(ops, n) <= FreeCount(s0.fat), ok);
    LeakNext(ops, oks, ok);
  }

  // ---- Space ----

  /** The clusters that an operation takes if it succeeds. */
  ghost function Room(data: Data, n: nat, sh: Shape, op: Op): nat
    requires n > 0
  {
    if Target(sh, op.path).None? then 0
    else
      match op
      case Write(_, buf) => Needed(|buf|, n) + SlotCost(data, n, sh, Target(sh, op.path).value)
      case MakeDir(_) => 1 + SlotCost(data, n, sh, Target(sh, op.path).value)
      case _ => 0
  }

  /** The clusters that suffice for an operation in any state. */
  function Cost(op: Op, n: nat): nat
    requires n > 0
  {
    match op
    case Write(_, buf) => Needed(|buf|, n) + 1
    case MakeDir(_) => 2
    case _ => 0
  }

  /** The clusters that suffice for a run. */
  /** A write takes the clusters of the file and perhaps one for its directory; a new directory takes one of its
      own instead. */
  lemma CostIs(op: Op, n: nat)
    requires n > 0
    ensures match op
      case Write(_, buf) => Cost(op, n) > 0 && Tight(|buf|, Cost(op, n) - 1, n)
      case MakeDir(_) => Cost(op, n) == 2
      case _ => Cost(op, n) == 0
  {}

  function Budget(ops: seq<Op>, n: nat): nat
    requires n > 0
  {
    if ops == [] then 0 else Budget(ops[..|ops| - 1], n) + Cost(ops[|ops| - 1], n)
  }

  lemma {:induction false} BudgetNext(ops: seq<Op>, n: nat, k: nat)
    requires n > 0 && k < |ops|
    ensures Budget(ops[..k + 1], n) == Budget(ops[..k], n) + Cost(ops[k], n) <= Budget(ops, n)
    decreases |ops|
  {
    assert ops[..k + 1][..k] == ops[..k];
    if k + 1 == |ops| { assert ops[..k + 1] == ops; }
    else {
      BudgetNext(ops[..|ops| - 1], n, k);
      assert ops[..|ops| - 1][..k + 1] == ops[..k + 1] && ops[..|ops| - 1][..k] == ops[..k];
    }
  }

  /** The chains that a run leaves without an owner. */
  function LeakCount(ops: seq<Op>, oks: seq<bool>): nat
    requires |ops| == |oks|
  {
    if ops == [] then 0
    else
      var k := |ops| - 1;
      LeakCount(ops[..k], oks[..k]) + if oks[k] && Leaks(ops[k]) then 1 else 0
  }

  lemma LeakNext(ops: seq<Op>, oks: seq<bool>, ok: bool)
    requires |oks| < |ops|
    ensures var k := |oks|;
      LeakCount(ops[..k + 1], oks + [ok]) == LeakCount(ops[..k], oks) + if ok && Leaks(ops[k]) then 1 else 0
  {
    var k := |oks|;
    assert ops[..k + 1][..k] == ops[..k] && (oks + [ok])[..k] == oks;
  }

  lemma LookupIs(data: Data, sh: Shape, q: Path)
    ensures Lookup(data, sh, q) == if q in FilesOf(data, sh) then Some(FilesOf(data, sh)[q]) else None
  {}

  lemma TargetIs(data: Data, sh: Shape, path: Text)
    ensures Target(sh, path) == PathOf(FilesOf(data, sh), path)
  {}

  lemma ChildlessIs(data: Data, sh: Shape, q: Path)
    ensures NoChildren(sh, q) <==> Childless(FilesOf(data, sh), q)
  {
    var files := FilesOf(data, sh);
    if NoChildren(sh, q) {
      forall x | x in files && x.In? ensures x.parent != q { assert Listed(sh, x); }
    }
  }

  lemma SameFilesOf(data: Data, sh: Shape, data': Data, sh': Shape)
    requires SameFiles(data, sh, data', sh')
    ensures FilesOf(data', sh') == FilesOf(data, sh)
  {
    forall x: Path
      ensures (x in sh'.tree <==> x in sh.tree) && (x in sh.tree ==> FilesOf(data', sh')[x] == FilesOf(data, sh)[x])
    {
      assert Lookup(data', sh', x) == Lookup(data, sh, x);
    }
  }

  lemma ChangedFilesOf(data: Data, sh: Shape, data': Data, sh': Shape, q: Path, node: Option<Node>)
    requires OnlyChanged(data, sh, data', sh', q, node)
    ensures FilesOf(data', sh') == if node.Some? then FilesOf(data, sh)[q := node.value] else FilesOf(data, sh) - {q}
  {
    var files, files' := FilesOf(data, sh), FilesOf(data', sh');
    forall x: Path ensures x in files' <==> if x == q then node.Some? else x in files {
      LookupIs(data, sh, x);
      LookupIs(data', sh', x);
      assert Lookup(data', sh', x) == if x == q then node else Lookup(data, sh, x);
    }
    forall x: Path | x in files' ensures files'[x] == if x == q then node.value else files[x] {
      LookupIs(data, sh, x);
      LookupIs(data', sh', x);
      assert Lookup(data', sh', x) == if x == q then node else Lookup(data, sh, x);
    }
  }
}
