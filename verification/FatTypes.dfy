/** On-disk values of the FAT32 driver: directory entries, 8.3 names and FAT cells. */
module FatTypes {
  import opened Basics

  const END_MIN: nat := 0x0FFF_FFF8      // this and above end a chain
  const EOC: nat := 0x0FFF_FFFF
  const BAD: nat := 0x0FFF_FFF7
  const MAX_CLUSTER: nat := 0x0FFF_FFF6
  const DELETED: Byte := 0xE5
  const DOT: Byte := 0x2E
  const SPACE: Byte := 0x20
  const ATTR_DIRECTORY: Byte := 0x10
  const ATTR_ARCHIVE: Byte := 0x20
  const ATTR_LFN: Byte := 0x0F
  const SLOT_BYTES: nat := 32
  const SECTOR: nat := 512

  predicate IsEnd(v: nat) { v >= END_MIN }

  // ---- FAT cells ----

  const VALUES: nat := 0x1000_0000       // 28 bits

  /** A 32-bit FAT cell: a reserved top nibble above a 28-bit value. */
  type Cell = w: nat | w < 0x1_0000_0000

  function Low(w: nat): nat { w % VALUES }
  function Nibble(w: nat): nat { w / VALUES }

  /** The low 28 bits of `v` under the top nibble of `was`. */
  function Merged(was: Cell, v: nat): (w: Cell)
    ensures Low(w) == Low(v) && Nibble(w) == Nibble(was)
  {
    VALUES * Nibble(was) + Low(v)
  }

  /** A copy of the FAT after cell `c` is given the value `v`. */
  function Put(copy: seq<Cell>, c: nat, v: nat): (r: seq<Cell>)
    requires c < |copy|
    ensures |r| == |copy| && forall x | 0 <= x < |copy| :: Nibble(r[x]) == Nibble(copy[x])
    ensures forall x | 0 <= x < |copy| :: Low(r[x]) == if x == c then Low(v) else Low(copy[x])
  {
    var w: Cell := Merged(copy[c], v);
    copy[..c] + [w] + copy[c + 1..]
  }

  /** The two parts determine the cell. */
  lemma SameCell(w: Cell, x: Cell)
    requires Low(w) == Low(x) && Nibble(w) == Nibble(x)
    ensures w == x
  {
    assert w == VALUES * Nibble(w) + Low(w) && x == VALUES * Nibble(x) + Low(x);
  }

  type Name = seq<Byte>

  /** A 32-byte directory entry; `misc1` and `misc2` are the time stamps. */
  datatype Dirent = Dirent(name: Name, attr: Byte, misc1: seq<Byte>, first: nat, misc2: seq<Byte>, size: nat)

  predicate Sized(d: Dirent) {
    |d.name| == 11 && |d.misc1| == 8 && |d.misc2| == 4 && d.first < 0x1_0000_0000 && d.size < 0x1_0000_0000
  }

  predicate IsDirAttr(attr: Byte) { attr / 16 % 2 == 1 }

  /** Long-name fragments and volume labels are skipped by every scan. */
  predicate Hidden(attr: Byte) { attr == ATTR_LFN || attr / 8 % 2 == 1 }

  predicate Live(d: Dirent) { d.name != [] && d.name[0] != 0 && d.name[0] != DELETED && !Hidden(d.attr) }

  /** The `.` and `..` entries. */
  predicate Special(d: Dirent) {
    |d.name| == 11 && d.name[0] == DOT && (d.name[1] == SPACE || (d.name[1] == DOT && d.name[2] == SPACE))
  }

  /** A name that a path component can denote. */
  predicate PathName(n: Name) { |n| == 11 && n[0] != 0 && n[0] != DELETED && n[0] != DOT }

  // ---- Encoding ----

  /** The numbers of `k` bytes. */
  function Limit(k: nat): nat { if k == 0 then 1 else 256 * Limit(k - 1) }

  /** The low `k` bytes of a number, lowest first, and back. */
  function Digits(x: nat, k: nat): (b: seq<Byte>)
    ensures |b| == k
  {
    if k == 0 then [] else [x % 256] + Digits(x / 256, k - 1)
  }

  function Value(b: seq<Byte>): nat { if b == [] then 0 else b[0] + 256 * Value(b[1..]) }

  lemma {:induction false} ValueDigits(x: nat, k: nat)
    requires x < Limit(k)
    ensures Value(Digits(x, k)) == x
  {
    if k > 0 {
      ValueDigits(x / 256, k - 1);
      assert Digits(x, k)[1..] == Digits(x / 256, k - 1);
    }
  }

  lemma {:induction false} ValueBound(b: seq<Byte>)
    ensures Value(b) < Limit(|b|)
  {
    if b != [] { ValueBound(b[1..]); }
  }

  lemma FourBytes()
    ensures Limit(4) == 0x1_0000_0000
  {
    assert Limit(1) == 256 && Limit(2) == 0x1_0000;
    assert Limit(3) == 0x100_0000;
  }

  /** The first cluster is stored in two halves, the high one first. */
  function Encode(d: Dirent): (raw: seq<Byte>)
    requires Sized(d)
    ensures |raw| == SLOT_BYTES
  {
    var first := Digits(d.first, 4);
    d.name + [d.attr] + d.misc1 + first[2..] + d.misc2 + first[..2] + Digits(d.size, 4)
  }

  function Decode(raw: seq<Byte>): (d: Dirent)
    requires |raw| == SLOT_BYTES
    ensures Sized(d)
  {
    FourBytes();
    ValueBound(raw[26..28] + raw[20..22]);
    ValueBound(raw[28..]);
    Dirent(raw[..11], raw[11], raw[12..20], Value(raw[26..28] + raw[20..22]), raw[22..26], Value(raw[28..]))
  }

  /** Reading back an entry gives what was written. */
  lemma {:induction false} DecodeEncode(d: Dirent)
    requires Sized(d)
    ensures Decode(Encode(d)) == d
  {
    var raw, first := Encode(d), Digits(d.first, 4);
    assert raw[..11] == d.name && raw[12..20] == d.misc1 && raw[22..26] == d.misc2;
    assert raw[26..28] + raw[20..22] == first && raw[28..] == Digits(d.size, 4);
    FourBytes();
    ValueDigits(d.first, 4);
    ValueDigits(d.size, 4);
  }

  function Word(low: nat, high: nat): nat { low + 0x100 * high }

  /** The fields of an encoded entry, by position. */
  lemma EncodedAt(d: Dirent)
    requires Sized(d)
    ensures var raw := Encode(d);
      && raw[..11] == d.name && raw[11] == d.attr && raw[12..20] == d.misc1 && raw[22..26] == d.misc2
      && Word(raw[26], raw[27]) == d.first % 0x1_0000 && Word(raw[20], raw[21]) == d.first / 0x1_0000
      && Word(raw[28], raw[29]) + 0x1_0000 * Word(raw[30], raw[31]) == d.size
  {
    var raw := Encode(d);
    DigitsAre(d.first);
    DigitsAre(d.size);
    assert raw[..11] == d.name && raw[12..20] == d.misc1 && raw[22..26] == d.misc2;
  }

  lemma DigitsAre(x: nat)
    requires x < 0x1_0000_0000
    ensures var b := Digits(x, 4);
      Word(b[0], b[1]) == x % 0x1_0000 && Word(b[2], b[3]) == x / 0x1_0000
  {
    var x1, x2, x3 := x / 256, x / 256 / 256, x / 256 / 256 / 256;
    assert Digits(x3, 1) == [x3 % 256] + Digits(x3 / 256, 0);
    assert Digits(x2, 2) == [x2 % 256] + Digits(x3, 1);
    assert Digits(x1, 3) == [x1 % 256] + Digits(x2, 2);
    assert x2 == x / 0x1_0000 && x3 < 256;
  }

  // ---- Slots of a directory cluster ----

  function SlotAt(content: seq<Byte>, i: nat): Dirent
    requires SLOT_BYTES * (i + 1) <= |content|
  {
    Decode(content[SLOT_BYTES * i..SLOT_BYTES * (i + 1)])
  }

  function PutSlot(content: seq<Byte>, i: nat, d: Dirent): (r: seq<Byte>)
    requires SLOT_BYTES * (i + 1) <= |content| && Sized(d)
    ensures |r| == |content|
  {
    content[..SLOT_BYTES * i] + Encode(d) + content[SLOT_BYTES * (i + 1)..]
  }

  lemma SlotAfterPut(content: seq<Byte>, i: nat, d: Dirent, j: nat)
    requires SLOT_BYTES * (i + 1) <= |content| && SLOT_BYTES * (j + 1) <= |content| && Sized(d)
    ensures SlotAt(PutSlot(content, i, d), j) == if i == j then d else SlotAt(content, j)
  {
    var r := PutSlot(content, i, d);
    if i == j {
      assert r[SLOT_BYTES * i..SLOT_BYTES * (i + 1)] == Encode(d);
      DecodeEncode(d);
    } else {
      var a, b := SLOT_BYTES * i, SLOT_BYTES * j;
      assert b + SLOT_BYTES <= a || a + SLOT_BYTES <= b;
      assert forall k | b <= k < b + SLOT_BYTES :: r[k] == content[k];
      assert r[b..b + SLOT_BYTES] == content[b..b + SLOT_BYTES];
    }
  }

  /** Overwriting the first name byte of slot `i`, as the driver does to delete an entry. */
  function Deleted(content: seq<Byte>, i: nat): (r: seq<Byte>)
    requires SLOT_BYTES * (i + 1) <= |content|
    ensures |r| == |content|
  {
    content[SLOT_BYTES * i := DELETED]
  }

  lemma SlotAfterDelete(content: seq<Byte>, i: nat, j: nat)
    requires SLOT_BYTES * (i + 1) <= |content| && SLOT_BYTES * (j + 1) <= |content|
    ensures var d := SlotAt(content, j);
      SlotAt(Deleted(content, i), j) == if i == j then d.(name := d.name[0 := DELETED]) else d
  {
    var r := Deleted(content, i);
    var raw, raw' := content[SLOT_BYTES * j..SLOT_BYTES * (j + 1)], r[SLOT_BYTES * j..SLOT_BYTES * (j + 1)];
    if i == j {
      assert raw' == raw[0 := DELETED];
      assert raw'[..11] == raw[..11][0 := DELETED] && raw'[12..20] == raw[12..20] && raw'[22..26] == raw[22..26];
      assert raw'[26..28] == raw[26..28] && raw'[20..22] == raw[20..22] && raw'[28..] == raw[28..];
    } else {
      assert raw' == raw;
    }
  }

  function Zeros(n: nat): seq<Byte> { seq(n, _ => 0) }

  lemma ZeroSlot(n: nat, i: nat)
    requires SLOT_BYTES * (i + 1) <= n
    ensures SlotAt(Zeros(n), i).name[0] == 0
  {}
}
