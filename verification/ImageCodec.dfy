/** Sectors of bytes, and the little-endian structures mkfs stores in them. */
module ImageCodec {
  import opened Bytes

  const BSIZE := 512

  type U16 = x: int | 0 <= x < 0x1_0000
  type U32 = x: int | 0 <= x < 0x1_0000_0000
  type Sector = s: seq<Byte> | |s| == BSIZE witness seq(BSIZE, _ => 0)

  /** xshort and xint: the bytes of a number, lowest first. */
  function Put16(x: U16): (r: seq<Byte>)
    ensures |r| == 2
  {
    [x % 256, x / 256]
  }

  function Put32(x: U32): (r: seq<Byte>)
    ensures |r| == 4
  {
    [x % 256, x / 0x100 % 256, x / 0x1_0000 % 256, x / 0x100_0000]
  }

  function Get16(b: seq<Byte>): U16
    requires |b| == 2
  {
    var lo: int, hi: int := b[0], b[1];
    lo + 256 * hi
  }

  function Get32(b: seq<Byte>): U32
    requires |b| == 4
  {
    var b0: int, b1: int, b2: int, b3: int := b[0], b[1], b[2], b[3];
    b0 + 0x100 * b1 + 0x1_0000 * b2 + 0x100_0000 * b3
  }

  lemma Digit(q: int, b: int)
    requires 0 <= b < 256
    ensures (b + 256 * q) / 256 == q && (b + 256 * q) % 256 == b
  {
  }

  /** Shifting by 16 or 24 bits is shifting by 8 again and again. */
  lemma Shifts(x: nat)
    ensures x / 0x1_0000 == x / 256 / 256 && x / 0x100_0000 == x / 256 / 256 / 256
  {
  }

  lemma Round16(x: U16)
    ensures Get16(Put16(x)) == x
  {
  }

  lemma Round32(x: U32)
    ensures Get32(Put32(x)) == x
  {
    Shifts(x);
    var q: int := x;
    var q1 := q / 256;
    var q2 := q1 / 256;
    var q3 := q2 / 256;
    assert q == q % 256 + 256 * q1 && q1 == q1 % 256 + 256 * q2 && q2 == q2 % 256 + 256 * q3;
    assert q3 < 256;
  }

  /** Every two bytes are the bytes of one number. */
  lemma Back16(b: seq<Byte>)
    requires |b| == 2
    ensures Put16(Get16(b)) == b
  {
  }

  lemma Back32(b: seq<Byte>)
    requires |b| == 4
    ensures Put32(Get32(b)) == b
  {
    Shifts(Get32(b));
    var b0: int, b1: int, b2: int, b3: int := b[0], b[1], b[2], b[3];
    Digit(b3, b2);
    Digit(b2 + 256 * b3, b1);
    Digit(b1 + 256 * (b2 + 256 * b3), b0);
  }

  // ---- an array of 32-bit words in a run of bytes ----

  function Word(b: seq<Byte>, k: nat): U32
    requires 4 * k + 4 <= |b|
  {
    Get32(b[4 * k..4 * k + 4])
  }

  function SetWord(b: seq<Byte>, k: nat, x: U32): (r: seq<Byte>)
    requires 4 * k + 4 <= |b|
    ensures |r| == |b|
  {
    b[..4 * k] + Put32(x) + b[4 * k + 4..]
  }

  lemma WordAfterSet(b: seq<Byte>, k: nat, x: U32, j: nat)
    requires 4 * k + 4 <= |b| && 4 * j + 4 <= |b|
    ensures Word(SetWord(b, k, x), j) == if j == k then x else Word(b, j)
  {
    var r := SetWord(b, k, x);
    Round32(x);
    if j == k {
      assert r[4 * j..4 * j + 4] == Put32(x);
    } else {
      assert r[4 * j..4 * j + 4] == b[4 * j..4 * j + 4];
    }
  }

  // ---- struct dinode ----

  const NDIRECT := 12
  const INODESIZE := 64

  datatype Dinode = Dinode(kind: U16, major: U16, minor: U16, nlink: U16, size: U32, addrs: seq<U32>)

  predicate WfInode(d: Dinode) {
    |d.addrs| == NDIRECT + 1
  }

  function PutWords(xs: seq<U32>): (r: seq<Byte>)
    ensures |r| == 4 * |xs|
  {
    if xs == [] then [] else Put32(xs[0]) + PutWords(xs[1..])
  }

  function GetWords(b: seq<Byte>, n: nat): (r: seq<U32>)
    requires |b| == 4 * n
    ensures |r| == n
  {
    if n == 0 then [] else [Get32(b[..4])] + GetWords(b[4..], n - 1)
  }

  lemma {:induction false} RoundWords(xs: seq<U32>)
    ensures GetWords(PutWords(xs), |xs|) == xs
  {
    if xs != [] {
      Round32(xs[0]);
      RoundWords(xs[1..]);
      assert PutWords(xs)[..4] == Put32(xs[0]) && PutWords(xs)[4..] == PutWords(xs[1..]);
    }
  }

  lemma {:induction false} BackWords(b: seq<Byte>, n: nat)
    requires |b| == 4 * n
    ensures PutWords(GetWords(b, n)) == b
  {
    if n != 0 {
      Back32(b[..4]);
      BackWords(b[4..], n - 1);
    }
  }

  lemma {:induction false} WordOfPut(xs: seq<U32>, rest: seq<Byte>, k: nat)
    requires k < |xs|
    ensures Word(PutWords(xs) + rest, k) == xs[k]
  {
    var b := PutWords(xs) + rest;
    if k == 0 {
      assert b[0..4] == Put32(xs[0]);
      Round32(xs[0]);
    } else {
      WordOfPut(xs[1..], rest, k - 1);
      assert b[4 * k..4 * k + 4] == (PutWords(xs[1..]) + rest)[4 * (k - 1)..4 * (k - 1) + 4];
    }
  }

  function PutInode(d: Dinode): (r: seq<Byte>)
    requires WfInode(d)
    ensures |r| == INODESIZE
  {
    Put16(d.kind) + Put16(d.major) + Put16(d.minor) + Put16(d.nlink) + Put32(d.size) + PutWords(d.addrs)
  }

  function GetInode(b: seq<Byte>): (d: Dinode)
    requires |b| == INODESIZE
    ensures WfInode(d)
  {
    Dinode(Get16(b[0..2]), Get16(b[2..4]), Get16(b[4..6]), Get16(b[6..8]), Get32(b[8..12]), GetWords(b[12..64], NDIRECT + 1))
  }

  /** rinode reads what winode wrote. */
  lemma RoundInode(d: Dinode)
    requires WfInode(d)
    ensures GetInode(PutInode(d)) == d
  {
    var b := PutInode(d);
    assert b[0..2] == Put16(d.kind) && b[2..4] == Put16(d.major) && b[4..6] == Put16(d.minor) && b[6..8] == Put16(d.nlink);
    var head := Put16(d.kind) + Put16(d.major) + Put16(d.minor) + Put16(d.nlink) + Put32(d.size);
    assert |head| == 12 && b == head + PutWords(d.addrs) && b[12..] == PutWords(d.addrs);
    assert b[8..12] == Put32(d.size) && b[12..64] == b[12..];
    Round16(d.kind);
    Round16(d.major);
    Round16(d.minor);
    Round16(d.nlink);
    Round32(d.size);
    RoundWords(d.addrs);
  }

  /** And winode of what rinode read changes no byte. */
  lemma BackInode(b: seq<Byte>)
    requires |b| == INODESIZE
    ensures PutInode(GetInode(b)) == b
  {
    Back16(b[0..2]);
    Back16(b[2..4]);
    Back16(b[4..6]);
    Back16(b[6..8]);
    Back32(b[8..12]);
    BackWords(b[12..64], NDIRECT + 1);
    assert b == b[0..2] + b[2..4] + b[4..6] + b[6..8] + b[8..12] + b[12..64];
  }

  // ---- struct dirent and struct superblock ----

  const DIRSIZ := 14
  const DIRENTSIZE := 16

  /** strncpy into a cleared name. */
  function Padded(name: seq<Byte>): (r: seq<Byte>)
    ensures |r| == DIRSIZ
    ensures forall k :: 0 <= k < DIRSIZ ==> r[k] == if k < |name| then name[k] else 0
  {
    if |name| >= DIRSIZ then name[..DIRSIZ] else name + seq(DIRSIZ - |name|, _ => 0)
  }

  function Dirent(inum: U16, name: seq<Byte>): (r: seq<Byte>)
    ensures |r| == DIRENTSIZE
  {
    Put16(inum) + Padded(name)
  }

  // ---- where each byte is ----

  function Pow256(k: nat): (r: nat)
    ensures r > 0
  {
    if k == 0 then 1 else 256 * Pow256(k - 1)
  }

  /** Byte k of a number is its k-th digit to base 256, lowest first. */
  lemma LowestFirst(x: U16, y: U32, k: nat)
    ensures k < 2 ==> Put16(x)[k] == x / Pow256(k) % 256
    ensures k < 4 ==> Put32(y)[k] == y / Pow256(k) % 256
  {
    assert Pow256(1) == 256 && Pow256(2) == 0x1_0000;
    assert Pow256(3) == 0x100_0000;
  }

  lemma {:induction false} WordsInOrder(xs: seq<U32>, k: nat)
    requires k < |xs|
    ensures PutWords(xs)[4 * k..4 * k + 4] == Put32(xs[k])
  {
    var r, rest := PutWords(xs), PutWords(xs[1..]);
    assert r == Put32(xs[0]) + rest;
    if k == 0 {
      assert r[0..4] == Put32(xs[0]);
    } else {
      WordsInOrder(xs[1..], k - 1);
      assert r[4 * k..4 * k + 4] == rest[4 * (k - 1)..4 * (k - 1) + 4];
    }
  }

  /** struct dinode: type, major, minor, nlink, size, and the block numbers from byte 12 on. */
  lemma InodeLayout(d: Dinode, k: nat)
    requires WfInode(d)
    ensures var b := PutInode(d);
            && b[0..2] == Put16(d.kind) && b[2..4] == Put16(d.major) && b[4..6] == Put16(d.minor) && b[6..8] == Put16(d.nlink)
            && b[8..12] == Put32(d.size) && (k <= NDIRECT ==> b[12 + 4 * k..16 + 4 * k] == Put32(d.addrs[k]))
  {
    var b := PutInode(d);
    var head := Put16(d.kind) + Put16(d.major) + Put16(d.minor) + Put16(d.nlink) + Put32(d.size);
    assert |head| == 12 && b == head + PutWords(d.addrs);
    if k <= NDIRECT {
      WordsInOrder(d.addrs, k);
      assert b[12 + 4 * k..16 + 4 * k] == PutWords(d.addrs)[4 * k..4 * k + 4];
    }
  }

  /** struct dirent: the inode number, then the name, cut at 14 bytes or filled up with zeroes. */
  lemma DirentLayout(inum: U16, name: seq<Byte>)
    ensures var b := Dirent(inum, name);
            b[0..2] == Put16(inum) && forall k :: 0 <= k < DIRSIZ ==> b[2 + k] == if k < |name| then name[k] else 0
  {
    assert Dirent(inum, name)[0..2] == Put16(inum);
  }

  // ---- bits of a byte ----

  predicate Bit(x: nat, k: nat) {
    if k == 0 then x % 2 == 1 else Bit(x / 2, k - 1)
  }

  /** x | 1 << k. */
  function SetBit(x: nat, k: nat): nat {
    if k == 0 then x / 2 * 2 + 1 else 2 * SetBit(x / 2, k - 1) + x % 2
  }

  lemma {:induction false} SetBitReads(x: nat, k: nat, j: nat)
    ensures Bit(SetBit(x, k), j) <==> j == k || Bit(x, j)
  {
    if k != 0 && j != 0 {
      SetBitReads(x / 2, k - 1, j - 1);
    }
  }

  lemma {:induction false} SetBitFits(x: nat, k: nat, n: nat, size: nat)
    requires k < n && size == Pow2(n) && x < size
    ensures SetBit(x, k) < size
  {
    var half := Pow2(n - 1);
    assert size == 2 * half && x / 2 < half;
    if k != 0 {
      SetBitFits(x / 2, k - 1, n - 1, half);
    }
  }

  function Pow2(n: nat): (r: nat)
    ensures r > 0
  {
    if n == 0 then 1 else 2 * Pow2(n - 1)
  }

  lemma {:induction false} NoBit(k: nat)
    ensures !Bit(0, k)
  {
    if k != 0 {
      NoBit(k - 1);
    }
  }

  lemma {:induction false} AllBits(x: nat, n: nat)
    requires x < Pow2(n) && forall k :: 0 <= k < n ==> Bit(x, k)
    ensures x == Pow2(n) - 1
  {
    if n != 0 {
      assert Bit(x, 0);
      forall k | 0 <= k < n - 1
        ensures Bit(x / 2, k)
      {
        assert Bit(x, k + 1);
      }
      AllBits(x / 2, n - 1);
    }
  }

  /** The bits of a number are all there is to it. */
  lemma {:induction false} SameBits(x: nat, y: nat, n: nat)
    requires x < Pow2(n) && y < Pow2(n) && forall j :: 0 <= j < n ==> (Bit(x, j) <==> Bit(y, j))
    ensures x == y
  {
    if n != 0 {
      assert Bit(x, 0) <==> Bit(y, 0);
      forall j | 0 <= j < n - 1
        ensures Bit(x / 2, j) <==> Bit(y / 2, j)
      {
        assert Bit(x, j + 1) <==> Bit(y, j + 1);
      }
      SameBits(x / 2, y / 2, n - 1);
    }
  }

  lemma Pow8()
    ensures Pow2(8) == 256
  {
    assert Pow2(4) == 16;
  }

  /** Setting a bit of a byte leaves a byte. */
  function SetBitOf(x: Byte, k: nat): Byte
    requires k < 8
  {
    assert Pow2(8) == 256 by {
      assert Pow2(2) == 4;
      assert Pow2(4) == 16;
      assert Pow2(6) == 64;
    }
    SetBitFits(x, k, 8, 256);
    SetBit(x, k)
  }
}
