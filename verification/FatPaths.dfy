/** Path strings and 8.3 names of the FAT32 driver. */
module FatPaths {
  import opened Basics
  import opened FatTypes

  type Text = seq<Byte>

  const SLASH: Byte := 0x2F
  const CHUNK: nat := 12        // characters a component buffer holds
  const PARENT_MAX: nat := 256

  // ---- Short names ----

  function Upper(c: Byte): Byte { if 0x61 <= c <= 0x7A then c - 0x20 else c }

  function UpperAll(s: Text): (r: Text)
    ensures |r| == |s|
  {
    seq(|s|, i requires 0 <= i < |s| => Upper(s[i]))
  }

  /** The index of the first dot from `i` on, or the length. */
  function Dot(s: Text, i: nat): (k: nat)
    requires i <= |s|
    ensures i <= k <= |s|
    decreases |s| - i
  {
    if i == |s| || s[i] == DOT then i else Dot(s, i + 1)
  }

  /** Byte `j` of the 8.3 name: eight bytes before the dot and three after
      it, in upper case and padded with spaces. */
  function NameByte(s: Text, j: nat): Byte {
    var dot := Dot(s, 0);
    if j < 8 then (if j < dot then Upper(s[j]) else SPACE)
    else if dot + j - 7 < |s| then Upper(s[dot + j - 7]) else SPACE
  }

  /** The 8.3 name that a component denotes. */
  function ShortName(s: Text): (n: Name)
    ensures |n| == 11
  {
    seq(11, j requires 0 <= j => NameByte(s, j))
  }

  /** Not empty, at most 8 and 3 characters, one dot at most. */
  predicate ValidComponent(s: Text) {
    && 1 <= |s| <= CHUNK && s[0] != DOT && s[0] != SPACE
    && (forall i | 0 <= i < |s| :: s[i] != SLASH)
    && var dot := Dot(s, 0);
    dot <= 8 && |s| - dot <= 4 && (forall i | dot < i < |s| :: s[i] != DOT)
  }

  lemma {:induction false} DotIs(s: Text, i: nat, k: nat)
    requires i <= k <= |s| && (k < |s| ==> s[k] == DOT) && forall j | i <= j < k :: s[j] != DOT
    ensures Dot(s, i) == k
    decreases k - i
  {
    if i < k { DotIs(s, i + 1, k); }
  }

  lemma {:induction false} BeforeDot(s: Text, i: nat)
    requires i <= |s|
    ensures var k := Dot(s, i); (k < |s| ==> s[k] == DOT) && forall j | i <= j < k :: s[j] != DOT
    decreases |s| - i
  {
    if i < |s| && s[i] != DOT { BeforeDot(s, i + 1); }
  }

  /** A short name never starts like the entries `.` and `..`. */
  lemma NameStart(s: Text)
    ensures ShortName(s)[0] != DOT
    ensures ValidComponent(s) && s[0] != 0 && s[0] != DELETED ==> PathName(ShortName(s))
    ensures ValidComponent(s) ==> ShortName(s)[0] != SPACE && (ShortName(s)[0] == DELETED <==> s[0] == DELETED)
  {
    BeforeDot(s, 0);
  }

  predicate CString(path: Text) { forall i | 0 <= i < |path| :: path[i] != 0 }

  /** The lenient conversion used to look up names. */
  method ToShortName(input: Text) returns (out: Name)
    ensures out == ShortName(input)
  {
    out := seq(11, _ => SPACE);
    var i := 0;
    while i < |input| && input[i] != DOT && i < 8
      invariant i <= 8 && i <= |input| && |out| == 11 && Dot(input, 0) == Dot(input, i)
      invariant forall j | 0 <= j < 11 :: out[j] == if j < i then Upper(input[j]) else SPACE
    {
      out := out[i := Upper(input[i])];
      i := i + 1;
    }
    while i < |input| && input[i] != DOT
      invariant i <= |input| && Dot(input, 0) == Dot(input, i) && forall j | 0 <= j < 8 :: out[j] == NameByte(input, j)
    {
      i := i + 1;
    }
    if i < |input| {
      i := i + 1;
      var e := 8;
      while i < |input| && e < 11
        invariant 8 <= e <= 11 && i == Dot(input, 0) + e - 7 <= |input| && |out| == 11
        invariant forall j | 0 <= j < e :: out[j] == NameByte(input, j)
        invariant forall j | e <= j < 11 :: out[j] == SPACE
      {
        out := out[e := Upper(input[i])];
        e, i := e + 1, i + 1;
      }
    }
  }

  /** The position of the dot of a valid component, or its length. */
  method CheckComponent(s: Text) returns (ok: bool, dot: nat)
    ensures ok == ValidComponent(s) && (ok ==> dot == Dot(s, 0))
  {
    if s == [] || s[0] == DOT || s[0] == SPACE { return false, 0; }
    BeforeDot(s, 0);
    dot := |s|;
    var len := 0;
    while len < |s|
      invariant len <= |s| && len <= CHUNK && dot == if Dot(s, 0) < len then Dot(s, 0) else |s|
      invariant forall i | 0 <= i < len :: s[i] != SLASH
      invariant forall i | Dot(s, 0) < i < len :: s[i] != DOT
    {
      if s[len] == SLASH { return false, 0; }
      if s[len] == DOT {
        if dot < |s| { return false, 0; }
        dot := len;
      }
      len := len + 1;
      if len > CHUNK { return false, 0; }
    }
    ok := 1 <= dot <= 8 && |s| - dot <= 4;
  }

  /** The strict conversion used to create names; it agrees with the lenient one. */
  method MakeComponentName(s: Text) returns (r: Option<Name>)
    ensures r == if ValidComponent(s) then Some(ShortName(s)) else None
  {
    var ok, dot := CheckComponent(s);
    if !ok { return None; }
    var out: Name := seq(11, _ => SPACE);
    var i := 0;
    while i < dot
      invariant i <= dot && |out| == 11
      invariant forall j | 0 <= j < 11 :: out[j] == if j < i then Upper(s[j]) else SPACE
    {
      out := out[i := Upper(s[i])];
      i := i + 1;
    }
    assert forall j | 0 <= j < 8 :: out[j] == NameByte(s, j);
    i := 8;
    while dot + i - 7 < |s|
      invariant 8 <= i <= 11 && dot + i - 7 <= (if dot < |s| then |s| else |s| + 1) && |out| == 11
      invariant forall j | 0 <= j < i :: out[j] == NameByte(s, j)
      invariant forall j | i <= j < 11 :: out[j] == SPACE
    {
      out := out[i := Upper(s[dot + i - 7])];
      i := i + 1;
    }
    assert forall j | 0 <= j < 11 :: out[j] == NameByte(s, j);
    assert out == ShortName(s);
    return Some(out);
  }

  // ---- Showing a name ----

  /** Where the bytes from `i` to `end` are cut: at the first space. */
  function CutAt(n: Text, i: nat, end: nat): (k: nat)
    requires i <= end <= |n|
    ensures i <= k <= end
    decreases end - i
  {
    if i == end || n[i] == SPACE then i else CutAt(n, i + 1, end)
  }

  /** How listings show an 8.3 name. */
  function ShowName(n: Name): Text
    requires |n| == 11
  {
    n[..CutAt(n, 0, 8)] + if n[8] != SPACE then [DOT] + n[8..CutAt(n, 8, 11)] else []
  }

  lemma {:induction false} CutIs(n: Text, i: nat, k: nat, end: nat)
    requires i <= k <= end <= |n| && (forall j | i <= j < k :: n[j] != SPACE) && (k < end ==> n[k] == SPACE)
    ensures CutAt(n, i, end) == k
    decreases end - i
  {
    if i < k { CutIs(n, i + 1, k, end); }
  }

  lemma {:induction false} CutNoSpace(n: Text, i: nat, end: nat)
    requires i <= end <= |n|
    ensures forall j | i <= j < CutAt(n, i, end) :: n[j] != SPACE
    decreases end - i
  {
    if i < end && n[i] != SPACE { CutNoSpace(n, i + 1, end); }
  }

  lemma ShownNoSpace(n: Name)
    requires |n| == 11
    ensures forall j | 0 <= j < |ShowName(n)| :: ShowName(n)[j] != SPACE
  {
    CutNoSpace(n, 0, 8);
    CutNoSpace(n, 8, 11);
  }

  /** A listing shows a component as it was given, in upper case, exactly when
      it has no spaces and does not end in a dot. */
  lemma ShowShortName(s: Text)
    requires ValidComponent(s)
    ensures ShowName(ShortName(s)) == UpperAll(s) <==> SPACE !in s && s[|s| - 1] != DOT
  {
    if SPACE !in s {
      ShowPlain(s);
    } else {
      var i :| 0 <= i < |s| && s[i] == SPACE;
      ShownNoSpace(ShortName(s));
      assert UpperAll(s)[i] == SPACE;
    }
  }

  /** Where an 8.3 name without spaces is cut. */
  lemma ShowCuts(s: Text)
    requires ValidComponent(s) && SPACE !in s
    ensures var n, dot := ShortName(s), Dot(s, 0);
      && CutAt(n, 0, 8) == dot && (dot < |s| ==> CutAt(n, 8, 11) == 7 + |s| - dot)
      && (n[8] != SPACE <==> dot + 1 < |s|)
  {
    var n, dot := ShortName(s), Dot(s, 0);
    forall j | 0 <= j < |s| ensures Upper(s[j]) != SPACE { assert s[j] in s; }
    CutIs(n, 0, dot, 8);
    if dot < |s| { CutIs(n, 8, 7 + |s| - dot, 11); }
  }

  lemma ShowPlain(s: Text)
    requires ValidComponent(s) && SPACE !in s
    ensures ShowName(ShortName(s)) == UpperAll(s) <==> s[|s| - 1] != DOT
  {
    var n, dot, u := ShortName(s), Dot(s, 0), UpperAll(s);
    BeforeDot(s, 0);
    ShowCuts(s);
    var shown := ShowName(n);
    if dot + 1 == |s| { assert |shown| == dot; }
    else {
      assert |shown| == |u|;
      forall j | 0 <= j < |u| ensures shown[j] == u[j] {}
    }
  }

  // ---- Splitting a path ----

  /** Where the component at `pos` ends: at a slash, or after `room` characters. */
  function ChunkEnd(path: Text, pos: nat, room: nat): (e: nat)
    requires pos <= |path|
    ensures pos <= e <= |path|
    decreases room
  {
    if pos == |path| || path[pos] == SLASH || room == 0 then pos else ChunkEnd(path, pos + 1, room - 1)
  }

  /** The first position from `pos` that is not a slash. */
  function SkipFrom(path: Text, pos: nat): (e: nat)
    requires pos <= |path|
    ensures pos <= e <= |path| && (pos < |path| && path[pos] == SLASH ==> pos < e)
    decreases |path| - pos
  {
    if pos < |path| && path[pos] == SLASH then SkipFrom(path, pos + 1) else pos
  }

  function NextPos(path: Text, pos: nat): (e: nat)
    requires pos < |path|
    ensures pos < e <= |path|
  {
    SkipFrom(path, ChunkEnd(path, pos, CHUNK))
  }

  /** The names of the components from `pos` on. */
  function NamesFrom(path: Text, pos: nat): seq<Name>
    requires pos <= |path|
    decreases |path| - pos
  {
    if pos == |path| then []
    else [ShortName(path[pos..ChunkEnd(path, pos, CHUNK)])] + NamesFrom(path, NextPos(path, pos))
  }

  function Start(path: Text): (pos: nat)
    ensures pos <= |path|
  {
    if path != [] && path[0] == SLASH then 1 else 0
  }

  function Names(path: Text): seq<Name> { NamesFrom(path, Start(path)) }

  /** Reads one component at `pos` and skips the slashes after it. */
  method NextComponent(path: Text, pos: nat) returns (component: Text, next: nat)
    requires pos < |path|
    ensures component == path[pos..ChunkEnd(path, pos, CHUNK)] && next == NextPos(path, pos)
  {
    next := pos;
    while next < |path| && path[next] != SLASH && next - pos < CHUNK
      invariant pos <= next <= |path| && next - pos <= CHUNK
      invariant ChunkEnd(path, pos, CHUNK) == ChunkEnd(path, next, CHUNK - (next - pos))
    {
      next := next + 1;
    }
    component := path[pos..next];
    while next < |path| && path[next] == SLASH
      invariant next <= |path| && SkipFrom(path, next) == NextPos(path, pos)
    {
      next := next + 1;
    }
  }

  /** The length without trailing slashes, at least one. */
  function StripLen(path: Text, len: nat): (k: nat)
    requires len <= |path|
    ensures k <= len && (len > 0 ==> k > 0)
  {
    if len > 1 && path[len - 1] == SLASH then StripLen(path, len - 1) else len
  }

  /** The index of the last slash below `len`, or -1. */
  function LastSlash(path: Text, len: nat): (k: int)
    requires len <= |path|
    ensures -1 <= k < len
  {
    if len == 0 then -1 else if path[len - 1] == SLASH then len - 1 else LastSlash(path, len - 1)
  }

  datatype Split = Split(parent: Text, component: Text)

  /** The parent path and the last component of an absolute path. */
  function SplitPath(path: Text): Option<Split> {
    if path == [] || path[0] != SLASH then None
    else
      var len := StripLen(path, |path|);
      var k := LastSlash(path, len);
      if k < 0 || k == len - 1 || k >= PARENT_MAX || len - k - 1 > CHUNK then None
      else Some(Split(if k == 0 then [SLASH] else path[..k], path[k + 1..len]))
  }

  /** The last component starts with the byte that marks deleted entries. */
  predicate Tombstone(path: Text) {
    SplitPath(path).Some? && SplitPath(path).value.component[..1] == [DELETED]
  }

  /** The name of the last component is a name that scans see, except exactly after the deletion mark. */
  lemma LastComponent(path: Text)
    requires CString(path) && SplitPath(path).Some? && ValidComponent(SplitPath(path).value.component)
    ensures var name := ShortName(SplitPath(path).value.component);
      if Tombstone(path) then name[0] == DELETED else PathName(name)
  {
    NameStart(SplitPath(path).value.component);
  }

  method SplitParent(path: Text) returns (r: Option<Split>)
    ensures r == SplitPath(path)
  {
    if path == [] || path[0] != SLASH { return None; }
    var len := |path|;
    while len > 1 && path[len - 1] == SLASH
      invariant 1 <= len <= |path| && StripLen(path, |path|) == StripLen(path, len)
    {
      len := len - 1;
    }
    var slash := len - 1;
    while slash >= 0 && path[slash] != SLASH
      invariant -1 <= slash < len && LastSlash(path, len) == LastSlash(path, slash + 1)
    {
      slash := slash - 1;
    }
    if slash < 0 || slash == len - 1 { return None; }
    if slash != 0 && slash >= PARENT_MAX { return None; }
    if len - slash - 1 <= 0 || len - slash - 1 > CHUNK { return None; }
    return Some(Split(if slash == 0 then [SLASH] else path[..slash], path[slash + 1..len]));
  }

  // ---- Creating and looking up name the same file ----

  predicate SlashesFrom(path: Text, e: nat) { forall i | e <= i < |path| :: path[i] == SLASH }

  lemma {:induction false} SkipToEnd(path: Text, e: nat)
    requires e <= |path| && SlashesFrom(path, e)
    ensures SkipFrom(path, e) == |path|
    decreases |path| - e
  {
    if e < |path| { SkipToEnd(path, e + 1); }
  }

  lemma {:induction false} ChunkTo(path: Text, pos: nat, e: nat, room: nat)
    requires pos <= e <= |path| && e - pos <= room && (forall i | pos <= i < e :: path[i] != SLASH)
    requires e == |path| || path[e] == SLASH
    ensures ChunkEnd(path, pos, room) == e
    decreases room
  {
    if pos < e { ChunkTo(path, pos + 1, e, room - 1); }
  }

  /** A component, up to `e`, with only slashes after it. */
  predicate LastAt(path: Text, pos: nat, e: nat) {
    && pos < e <= |path| && e - pos <= CHUNK && SlashesFrom(path, e)
    && (forall i | pos <= i < e :: path[i] != SLASH)
  }

  lemma {:induction false} LastName(path: Text, pos: nat, e: nat)
    requires LastAt(path, pos, e)
    ensures NamesFrom(path, pos) == [ShortName(path[pos..e])]
  {
    ChunkTo(path, pos, e, CHUNK);
    SkipToEnd(path, e);
    assert NamesFrom(path, |path|) == [];
  }

  // A prefix that ends before a slash is split as the whole path is.

  lemma {:induction false} ChunkPrefix(path: Text, k: nat, pos: nat, room: nat)
    requires pos <= k < |path| && path[k] == SLASH
    ensures ChunkEnd(path, pos, room) == ChunkEnd(path[..k], pos, room) <= k
    decreases room
  {
    if pos < k && path[pos] != SLASH && room > 0 { ChunkPrefix(path, k, pos + 1, room - 1); }
  }

  lemma {:induction false} SkipPrefix(path: Text, k: nat, pos: nat)
    requires pos <= k < |path| && path[k] == SLASH
    ensures var e := SkipFrom(path[..k], pos); e <= k && SkipFrom(path, pos) == if e < k then e else SkipFrom(path, k)
    decreases k - pos
  {
    if pos < k && path[pos] == SLASH { SkipPrefix(path, k, pos + 1); }
  }

  lemma {:induction false} NamesPrefix(path: Text, k: nat, e: nat, pos: nat)
    requires pos < k < |path| && path[k] == SLASH && LastAt(path, k + 1, e)
    ensures NamesFrom(path, pos) == NamesFrom(path[..k], pos) + [ShortName(path[k + 1..e])]
    decreases k - pos
  {
    var p := path[..k];
    ChunkPrefix(path, k, pos, CHUNK);
    var c := ChunkEnd(p, pos, CHUNK);
    assert path[pos..c] == p[pos..c];
    SkipPrefix(path, k, c);
    var next, first, last := NextPos(p, pos), [ShortName(p[pos..c])], [ShortName(path[k + 1..e])];
    assert NamesFrom(p, pos) == first + NamesFrom(p, next);
    assert NamesFrom(path, pos) == first + NamesFrom(path, NextPos(path, pos));
    if next < k {
      NamesPrefix(path, k, e, next);
      assert first + (NamesFrom(p, next) + last) == first + NamesFrom(p, next) + last;
    } else {
      assert NextPos(path, pos) == k + 1 && NamesFrom(p, next) == [];
      LastName(path, k + 1, e);
    }
  }

  lemma {:induction false} StripSlashes(path: Text, len: nat)
    requires len <= |path| && SlashesFrom(path, len)
    ensures SlashesFrom(path, StripLen(path, len))
  {
    if len > 1 && path[len - 1] == SLASH { StripSlashes(path, len - 1); }
  }

  lemma {:induction false} AfterLastSlash(path: Text, len: nat)
    requires len <= |path|
    ensures var k := LastSlash(path, len); (k >= 0 ==> path[k] == SLASH) && forall i | k < i < len :: path[i] != SLASH
  {
    if len > 0 && path[len - 1] != SLASH { AfterLastSlash(path, len - 1); }
  }

  /** Looking a path up names the file that creating it names, unless the path
      is two slashes and a component: the lookup then sees an empty component. */
  lemma {:induction false} SplitNames(path: Text)
    requires SplitPath(path).Some?
    ensures var sp := SplitPath(path).value;
      Names(path) == Names(sp.parent) + [ShortName(sp.component)] <==> !DoubleSlashed(path)
  {
    var len := StripLen(path, |path|);
    var k := LastSlash(path, len);
    StripSlashes(path, |path|);
    AfterLastSlash(path, len);
    assert LastAt(path, k + 1, len);
    if k == 0 {
      LastName(path, 1, len);
    } else if k == 1 {
      DoubleSlash(path, len);
    } else {
      NamesPrefix(path, k, len, 1);
    }
  }

  /** Two slashes and one component. */
  predicate DoubleSlashed(path: Text) { LastSlash(path, StripLen(path, |path|)) == 1 }

  /** Such a path: `//X`. */
  lemma TwoSlashes()
    ensures var path := [SLASH, SLASH, 0x58];
      SplitPath(path) == Some(Split([SLASH], [0x58])) && ValidComponent([0x58]) && DoubleSlashed(path)
  {
    var path: Text := [SLASH, SLASH, 0x58];
    assert StripLen(path, 3) == 3 && LastSlash(path, 2) == 1 && LastSlash(path, 3) == 1;
    assert path[2..3] == [0x58] && path[..1] == [SLASH] && Dot([0x58], 0) == 1;
  }

  /** Such a path is looked up in a directory with a blank name. */
  lemma BlankParent(path: Text)
    requires SplitPath(path).Some? && DoubleSlashed(path)
    ensures Names(path) == [ShortName([]), ShortName(SplitPath(path).value.component)]
  {
    var len := StripLen(path, |path|);
    StripSlashes(path, |path|);
    AfterLastSlash(path, len);
    assert ChunkEnd(path, 1, CHUNK) == 1 && SkipFrom(path, 2) == 2;
    assert NextPos(path, 1) == 2 && path[1..1] == [];
    LastName(path, 2, len);
  }

  lemma DoubleSlash(path: Text, len: nat)
    requires LastAt(path, 2, len) && path[0] == SLASH && path[1] == SLASH
    ensures |Names(path)| == 2 && Names(path[..1]) == []
  {
    assert ChunkEnd(path, 1, CHUNK) == 1 && SkipFrom(path, 2) == 2;
    assert NextPos(path, 1) == 2;
    LastName(path, 2, len);
  }

  // ---- What a component is made of ----

  /** A part of a component: characters other than the dot and the slash. */
  predicate Part(s: Text) { DOT !in s && SLASH !in s }

  /** The valid components are those of at most eight characters, perhaps with a dot and at most three more. */
  lemma ValidPlain(base: Text)
    requires Part(base)
    ensures ValidComponent(base) <==> 1 <= |base| <= 8 && base[0] != SPACE
  {
    DotIs(base, 0, |base|);
  }

  lemma ValidDotted(base: Text, ext: Text)
    requires Part(base) && Part(ext)
    ensures ValidComponent(base + [DOT] + ext) <==> 1 <= |base| <= 8 && base[0] != SPACE && |ext| <= 3
  {
    var s := base + [DOT] + ext;
    DotIs(s, 0, |base|);
    assert s[|base|] == DOT;
    forall i | 0 <= i < |s|
      ensures s[i] == if i < |base| then base[i] else if i == |base| then DOT else ext[i - |base| - 1]
    {}
  }

  /** Every valid component is of one of these forms. */
  lemma ValidParts(s: Text) returns (base: Text, ext: Text)
    requires ValidComponent(s)
    ensures Part(base) && Part(ext) && ((s == base && ext == []) || s == base + [DOT] + ext)
  {
    BeforeDot(s, 0);
    var dot := Dot(s, 0);
    base := s[..dot];
    ext := if dot < |s| then s[dot + 1..] else [];
  }

  /** The name of a component: its parts in upper case, filled up with spaces to eight and three characters. */
  lemma ShortNameParts(base: Text, ext: Text, j: nat)
    requires Part(base) && |base| <= 8 && |ext| <= 3 && j < 11
    ensures ShortName(base + [DOT] + ext)[j] ==
      if j < 8 then (if j < |base| then Upper(base[j]) else 0x20)
      else (if j - 8 < |ext| then Upper(ext[j - 8]) else 0x20)
    ensures ext == [] ==> ShortName(base)[j] == if j < |base| then Upper(base[j]) else 0x20
  {
    DotIs(base + [DOT] + ext, 0, |base|);
    DotIs(base, 0, |base|);
  }

  // ---- What a path is split into ----

  function Slashes(z: nat): Text { seq(z, _ => SLASH) }

  /** A path as a parent, a component and slashes after it: the split finds these, within the limits of the two
      buffers. */
  lemma SplitFound(p: Text, c: Text, z: nat)
    requires c != [] && SLASH !in c && |c| <= CHUNK && |p| < PARENT_MAX && (p != [] ==> p[0] == SLASH)
    ensures SplitPath(p + [SLASH] + c + Slashes(z)) == Some(Split(if p == [] then [SLASH] else p, c))
  {
    var front := p + [SLASH];
    var body := front + c;
    var path := body + Slashes(z);
    StripTo(path, |body|, |path|);
    LastTo(path, |p|, |body|);
    assert path[..|p|] == p && path[|p| + 1..|body|] == c;
  }

  lemma {:induction false} StripTo(path: Text, len: nat, at: nat)
    requires 0 < len <= at <= |path| && path[len - 1] != SLASH && forall i | len <= i < at :: path[i] == SLASH
    ensures StripLen(path, at) == len
  {
    if len < at { StripTo(path, len, at - 1); }
  }

  lemma {:induction false} LastTo(path: Text, k: nat, at: nat)
    requires k < at <= |path| && path[k] == SLASH && forall i | k < i < at :: path[i] != SLASH
    ensures LastSlash(path, at) == k
  {
    if k + 1 < at { LastTo(path, k, at - 1); }
  }

  /** And whatever the split finds is such a parent and component. */
  lemma SplitIs(path: Text)
    requires SplitPath(path).Some?
    ensures var k := LastSlash(path, StripLen(path, |path|));
      && 0 <= k < PARENT_MAX && path[0] == SLASH && var p, c := path[..k], SplitPath(path).value.component;
      && c != [] && SLASH !in c && |c| <= CHUNK && k + 1 + |c| <= |path|
      && SplitPath(path).value.parent == (if p == [] then [SLASH] else p)
      && path == p + [SLASH] + c + Slashes(|path| - k - 1 - |c|)
  {
    var len := StripLen(path, |path|);
    var k := LastSlash(path, len);
    StripSlashes(path, |path|);
    AfterLastSlash(path, len);
    Glued(path, k, len);
  }

  lemma Glued(path: Text, k: nat, len: nat)
    requires k < len <= |path| && path[k] == SLASH && SlashesFrom(path, len)
    ensures path == path[..k] + [SLASH] + path[k + 1..len] + Slashes(|path| - len)
  {
    assert path[len..] == Slashes(|path| - len);
    assert path[k..] == [SLASH] + path[k + 1..len] + path[len..];
    assert path == path[..k] + path[k..];
  }

  // ---- Letter case ----

  /** The same letter in either case, or the same byte. */
  predicate CaseOf(a: Byte, b: Byte) {
    a == b || (0x41 <= a <= 0x5A && b == a + 0x20) || (0x41 <= b <= 0x5A && a == b + 0x20)
  }

  predicate SameButCase(p: Text, q: Text) { |p| == |q| && forall i | 0 <= i < |p| :: CaseOf(p[i], q[i]) }

  /** A short name has no small letters. */
  lemma NoSmallLetters(s: Text, j: nat)
    requires j < 11
    ensures !(0x61 <= ShortName(s)[j] <= 0x7A)
  {}

  lemma {:induction false} DotCase(p: Text, q: Text, i: nat)
    requires SameButCase(p, q) && i <= |p|
    ensures Dot(p, i) == Dot(q, i)
    decreases |p| - i
  {
    if i < |p| {
      assert CaseOf(p[i], q[i]);
      DotCase(p, q, i + 1);
    }
  }

  /** Components that differ only in letter case denote the same name. */
  lemma ShortNameCase(p: Text, q: Text)
    requires SameButCase(p, q)
    ensures ShortName(p) == ShortName(q) && (ValidComponent(p) <==> ValidComponent(q))
  {
    DotCase(p, q, 0);
    forall i | 0 <= i < |p|
      ensures Upper(p[i]) == Upper(q[i]) && (p[i] == SLASH <==> q[i] == SLASH) && (p[i] == DOT <==> q[i] == DOT)
      ensures p[i] == SPACE <==> q[i] == SPACE
    {
      assert CaseOf(p[i], q[i]);
    }
    forall j: nat | j < 11 ensures NameByte(p, j) == NameByte(q, j) {}
  }

  lemma {:induction false} ChunkEndCase(p: Text, q: Text, pos: nat, room: nat)
    requires SameButCase(p, q) && pos <= |p|
    ensures ChunkEnd(p, pos, room) == ChunkEnd(q, pos, room)
    decreases |p| - pos
  {
    if pos < |p| {
      assert CaseOf(p[pos], q[pos]);
      if room > 0 { ChunkEndCase(p, q, pos + 1, room - 1); }
    }
  }

  lemma {:induction false} SkipFromCase(p: Text, q: Text, pos: nat)
    requires SameButCase(p, q) && pos <= |p|
    ensures SkipFrom(p, pos) == SkipFrom(q, pos)
    decreases |p| - pos
  {
    if pos < |p| {
      assert CaseOf(p[pos], q[pos]);
      SkipFromCase(p, q, pos + 1);
    }
  }

  lemma {:induction false} NamesFromCase(p: Text, q: Text, pos: nat)
    requires SameButCase(p, q) && pos <= |p|
    ensures NamesFrom(p, pos) == NamesFrom(q, pos)
    decreases |p| - pos
  {
    if pos < |p| {
      var e := ChunkEnd(p, pos, CHUNK);
      ChunkEndCase(p, q, pos, CHUNK);
      SkipFromCase(p, q, e);
      assert SameButCase(p[pos..e], q[pos..e]);
      ShortNameCase(p[pos..e], q[pos..e]);
      NamesFromCase(p, q, NextPos(p, pos));
    }
  }

  /** Paths that differ only in letter case name the same file. */
  lemma NamesCase(p: Text, q: Text)
    requires SameButCase(p, q)
    ensures Names(p) == Names(q)
  {
    assert p != [] ==> CaseOf(p[0], q[0]);
    NamesFromCase(p, q, Start(p));
  }

  lemma {:induction false} LengthsCase(p: Text, q: Text, len: nat)
    requires SameButCase(p, q) && len <= |p|
    ensures StripLen(p, len) == StripLen(q, len) && LastSlash(p, len) == LastSlash(q, len)
  {
    if len > 0 {
      assert CaseOf(p[len - 1], q[len - 1]);
      LengthsCase(p, q, len - 1);
    }
  }

  /** Their last components and the paths before these differ only in letter case. */
  lemma SplitCase(p: Text, q: Text)
    requires SameButCase(p, q)
    ensures SplitPath(p).Some? <==> SplitPath(q).Some?
    ensures SplitPath(p).Some? ==>
      && SameButCase(SplitPath(p).value.parent, SplitPath(q).value.parent)
      && SameButCase(SplitPath(p).value.component, SplitPath(q).value.component)
  {
    assert p != [] ==> CaseOf(p[0], q[0]);
    LengthsCase(p, q, |p|);
    LengthsCase(p, q, StripLen(p, |p|));
  }
}
