/** The file system image: where blocks hang off inodes, and what keeps the files apart. */
module Image {
  import opened Bytes
  import opened ImageCodec

  // Where each part of the image begins: two blocks and the log come first, data last.
  const FSSIZE := 1000
  const NINODES := 200
  const IPB := 8 // BSIZE / INODESIZE
  const INODESTART := 32 // 2 + LOGSIZE
  const BMAPSTART := 58 // INODESTART + NINODES / IPB + 1
  const ISLOTS := 208 // (BMAPSTART - INODESTART) * IPB, a few more than NINODES
  const NMETA := 59 // BMAPSTART + FSSIZE / (BSIZE * 8) + 1
  const NINDIRECT := 128 // BSIZE / 4
  const MAXFILE := NDIRECT + NINDIRECT

  function Zeroes(): (s: Sector)
    ensures forall k :: 0 <= k < BSIZE ==> s[k] == 0
  {
    seq(BSIZE, _ => 0)
  }

  function Blank(): (img: seq<Sector>)
    ensures |img| == FSSIZE && forall b :: 0 <= b < FSSIZE ==> img[b] == Zeroes()
  {
    seq<Sector>(FSSIZE, _ => Zeroes())
  }

  type Image = img: seq<Sector> | |img| == FSSIZE witness Blank()

  // ---- inodes in their sectors ----

  /** The sector of an inode: one of the inode blocks exactly for the numbers they have room for. */
  function IBlock(inum: nat): (b: nat)
    ensures inum < ISLOTS <==> INODESTART <= b < BMAPSTART
    ensures ISLOTS <= inum < ISLOTS + IPB <==> b == BMAPSTART
    ensures ISLOTS + IPB <= inum <==> b >= NMETA
  {
    inum / IPB + INODESTART
  }

  function InodeIn(s: Sector, inum: nat): (d: Dinode)
    ensures WfInode(d)
  {
    GetInode(s[inum % IPB * INODESIZE..(inum % IPB + 1) * INODESIZE])
  }

  function InodeInto(s: Sector, inum: nat, d: Dinode): Sector
    requires WfInode(d)
  {
    s[..inum % IPB * INODESIZE] + PutInode(d) + s[(inum % IPB + 1) * INODESIZE..]
  }

  function InodeAt(img: Image, inum: nat): (d: Dinode)
    requires inum < ISLOTS
    ensures WfInode(d)
  {
    InodeIn(img[IBlock(inum)], inum)
  }

  function WithInode(img: Image, inum: nat, d: Dinode): Image
    requires inum < ISLOTS && WfInode(d)
  {
    img[IBlock(inum) := InodeInto(img[IBlock(inum)], inum, d)]
  }

  lemma InodeReadBack(s: Sector, inum: nat, d: Dinode, j: nat)
    requires WfInode(d)
    ensures InodeIn(InodeInto(s, inum, d), j) == if j % IPB == inum % IPB then d else InodeIn(s, j)
  {
    var lo, at := inum % IPB * INODESIZE, j % IPB * INODESIZE;
    var t := InodeInto(s, inum, d);
    if at == lo {
      assert t[at..at + INODESIZE] == PutInode(d);
      RoundInode(d);
    } else {
      assert t[at..at + INODESIZE] == s[at..at + INODESIZE];
    }
  }

  /** winode changes one inode and no other. */
  lemma WinodeReadBack(img: Image, inum: nat, d: Dinode, j: nat)
    requires inum < ISLOTS && WfInode(d) && j < ISLOTS
    ensures InodeAt(WithInode(img, inum, d), j) == if j == inum then d else InodeAt(img, j)
  {
    if IBlock(j) == IBlock(inum) {
      InodeReadBack(img[IBlock(inum)], inum, d, j);
    }
  }

  // ---- the block a file refers to ----

  /** A place that can hold a block number: a file's data block, or its indirect block. */
  datatype Ref = Data(inum: nat, fbn: nat) | Indirect(inum: nat)

  predicate IsRef(r: Ref) {
    r.inum < ISLOTS && (r.Data? ==> r.fbn < MAXFILE)
  }

  function Slot(img: Image, b: U32, k: nat): U32
    requires k < NINDIRECT
  {
    if 0 < b < FSSIZE then Word(img[b], k) else 0
  }

  /** The block number held at a reference; 0 is none. */
  function Ptr(img: Image, r: Ref): U32
    requires IsRef(r)
  {
    var addrs := InodeAt(img, r.inum).addrs;
    match r
    case Indirect(_) => addrs[NDIRECT]
    case Data(_, f) => if f < NDIRECT then addrs[f] else Slot(img, addrs[NDIRECT], f - NDIRECT)
  }

  ghost predicate Placed(img: Image, free: nat) {
    forall r :: IsRef(r) && Ptr(img, r) != 0 ==> NMETA <= Ptr(img, r) < free
  }

  ghost predicate Unshared(img: Image) {
    forall r, q :: IsRef(r) && IsRef(q) && Ptr(img, r) == Ptr(img, q) != 0 ==> r == q
  }

  ghost predicate Held(img: Image, b: nat) {
    exists r :: IsRef(r) && Ptr(img, r) == b
  }

  ghost predicate Covered(img: Image, free: nat) {
    forall b :: NMETA <= b < free ==> Held(img, b)
  }

  /** Every block from NMETA up to free is held by exactly one reference, and no other block is. */
  ghost predicate Pointers(img: Image, free: nat) {
    NMETA <= free <= FSSIZE && Placed(img, free) && Unshared(img) && Covered(img, free)
  }

  ghost predicate Unused(img: Image, free: nat) {
    forall b :: free <= b < FSSIZE ==> img[b] == Zeroes()
  }

  ghost predicate SizedAt(img: Image, inum: nat, size: nat)
    requires inum < ISLOTS
  {
    && size <= MAXFILE * BSIZE
    && (forall f :: 0 <= f < MAXFILE ==> (Ptr(img, Data(inum, f)) != 0 <==> f * BSIZE < size))
    && (Ptr(img, Indirect(inum)) != 0 <==> NDIRECT * BSIZE < size)
  }

  ghost predicate Sized(img: Image) {
    forall i :: 0 <= i < ISLOTS ==> SizedAt(img, i, InodeAt(img, i).size)
  }

  // ---- contents ----

  function ByteAt(img: Image, inum: nat, o: nat): Byte
    requires inum < ISLOTS && o < MAXFILE * BSIZE
  {
    var b := Ptr(img, Data(inum, o / BSIZE));
    if b < FSSIZE then img[b][o % BSIZE] else 0
  }

  /** What is left of the last block of a file of that size is zero. */
  ghost predicate ZeroFrom(img: Image, inum: nat, size: nat)
    requires inum < ISLOTS
  {
    forall o :: size <= o < MAXFILE * BSIZE && o / BSIZE * BSIZE < size ==> ByteAt(img, inum, o) == 0
  }

  ghost predicate ZeroTails(img: Image) {
    forall i :: 0 <= i < ISLOTS ==> ZeroFrom(img, i, InodeAt(img, i).size)
  }

  /** A sound image. */
  ghost predicate FsInv(img: Image, free: nat) {
    Pointers(img, free) && Unused(img, free) && Sized(img) && ZeroTails(img)
  }

  /** A file's bytes, read through its inode. */
  function Contents(img: Image, inum: nat): (s: seq<Byte>)
    requires inum < ISLOTS && InodeAt(img, inum).size <= MAXFILE * BSIZE
    ensures |s| == InodeAt(img, inum).size
    ensures forall o :: 0 <= o < |s| ==> s[o] == ByteAt(img, inum, o)
  {
    seq(InodeAt(img, inum).size, o requires 0 <= o < MAXFILE * BSIZE => ByteAt(img, inum, o))
  }

  // ---- one block is allocated ----

  /** The pointers of the two images agree except at one reference. */
  ghost predicate SamePtrBut(img: Image, img': Image, at: Ref) {
    forall r :: IsRef(r) && r != at ==> Ptr(img', r) == Ptr(img, r)
  }

  ghost predicate SamePtr(img: Image, img': Image) {
    forall r :: IsRef(r) ==> Ptr(img', r) == Ptr(img, r)
  }

  lemma AllocateOne(img: Image, img': Image, at: Ref, free: nat)
    requires Pointers(img, free) && free < FSSIZE && IsRef(at)
    requires SamePtrBut(img, img', at) && Ptr(img, at) == 0 && Ptr(img', at) == free
    ensures Pointers(img', free + 1)
  {
    hide Ptr;
    forall b | NMETA <= b < free + 1
      ensures Held(img', b)
    {
      if b == free {
        assert Ptr(img', at) == b;
      } else {
        assert Held(img, b);
        var r :| IsRef(r) && Ptr(img, r) == b;
        assert Ptr(img', r) == b;
      }
    }
  }

  lemma SameAllocated(img: Image, img': Image, free: nat)
    requires Pointers(img, free) && SamePtr(img, img')
    ensures Pointers(img', free)
  {
    hide Ptr;
    forall b | NMETA <= b < free
      ensures Held(img', b)
    {
      assert Held(img, b);
      var r :| IsRef(r) && Ptr(img, r) == b;
      assert Ptr(img', r) == b;
    }
  }

  /** Inodes other than the written one keep all their pointers. */
  lemma PtrOfOther(img: Image, inum: nat, d: Dinode, r: Ref, free: nat)
    requires inum < ISLOTS && WfInode(d) && IsRef(r) && r.inum != inum && Placed(img, free)
    ensures Ptr(WithInode(img, inum, d), r) == Ptr(img, r)
  {
    WinodeReadBack(img, inum, d, r.inum);
    assert IsRef(Indirect(r.inum));
    var b := Ptr(img, Indirect(r.inum));
    assert b != 0 ==> NMETA <= b;
  }

  lemma PtrOfWritten(img: Image, inum: nat, d: Dinode, r: Ref)
    requires inum < ISLOTS && WfInode(d) && IsRef(r) && r.inum == inum
    requires d.addrs[NDIRECT] == 0 || NMETA <= d.addrs[NDIRECT]
    ensures Ptr(WithInode(img, inum, d), r) ==
            match r {
              case Indirect(_) => d.addrs[NDIRECT]
              case Data(_, f) => if f < NDIRECT then d.addrs[f] else Slot(img, d.addrs[NDIRECT], f - NDIRECT)
            }
  {
    WinodeReadBack(img, inum, d, inum);
  }

  /** Writing an inode back with the addresses it had moves no pointer. */
  lemma SameAddresses(img: Image, inum: nat, d: Dinode, free: nat)
    requires inum < ISLOTS && WfInode(d) && Placed(img, free) && d.addrs == InodeAt(img, inum).addrs
    ensures SamePtr(img, WithInode(img, inum, d))
  {
    var img' := WithInode(img, inum, d);
    assert IsRef(Indirect(inum));
    forall r | IsRef(r)
      ensures Ptr(img', r) == Ptr(img, r)
    {
      if r.inum == inum {
        assert Ptr(img, Indirect(inum)) == d.addrs[NDIRECT];
        PtrOfWritten(img, inum, d, r);
      } else {
        PtrOfOther(img, inum, d, r, free);
      }
    }
  }

  lemma DirectBlock(img: Image, inum: nat, f: nat, d: Dinode, free: nat)
    requires inum < ISLOTS && f < NDIRECT && Pointers(img, free) && free < FSSIZE && WfInode(d)
    requires d.addrs == InodeAt(img, inum).addrs[f := free] && Ptr(img, Data(inum, f)) == 0
    ensures SamePtrBut(img, WithInode(img, inum, d), Data(inum, f))
    ensures Ptr(WithInode(img, inum, d), Data(inum, f)) == free
  {
    var img' := WithInode(img, inum, d);
    assert IsRef(Indirect(inum)) && Ptr(img, Indirect(inum)) == d.addrs[NDIRECT];
    PtrOfWritten(img, inum, d, Data(inum, f));
    forall r | IsRef(r) && r != Data(inum, f)
      ensures Ptr(img', r) == Ptr(img, r)
    {
      if r.inum == inum {
        PtrOfWritten(img, inum, d, r);
      } else {
        PtrOfOther(img, inum, d, r, free);
      }
    }
  }

  lemma ZeroWord(k: nat)
    requires k < NINDIRECT
    ensures Word(Zeroes(), k) == 0
  {
  }

  lemma IndirectBlock(img: Image, inum: nat, d: Dinode, free: nat)
    requires inum < ISLOTS && Pointers(img, free) && free < FSSIZE && WfInode(d) && img[free] == Zeroes()
    requires d.addrs == InodeAt(img, inum).addrs[NDIRECT := free] && Ptr(img, Indirect(inum)) == 0
    ensures SamePtrBut(img, WithInode(img, inum, d), Indirect(inum))
    ensures Ptr(WithInode(img, inum, d), Indirect(inum)) == free
  {
    var img' := WithInode(img, inum, d);
    PtrOfWritten(img, inum, d, Indirect(inum));
    forall r | IsRef(r) && r != Indirect(inum)
      ensures Ptr(img', r) == Ptr(img, r)
    {
      if r.inum == inum {
        PtrOfWritten(img, inum, d, r);
        if r.fbn >= NDIRECT {
          ZeroWord(r.fbn - NDIRECT);
        }
      } else {
        PtrOfOther(img, inum, d, r, free);
      }
    }
  }

  /** Inodes do not change when a block past the metadata is written. */
  lemma InodeElsewhere(img: Image, b: nat, s: Sector, inum: nat)
    requires NMETA <= b < FSSIZE && inum < ISLOTS
    ensures InodeAt(img[b := s], inum) == InodeAt(img, inum)
  {
  }

  lemma EntryBlock(img: Image, inum: nat, f: nat, free: nat, b: nat)
    requires inum < ISLOTS && NDIRECT <= f < MAXFILE && Pointers(img, free) && free < FSSIZE
    requires b == Ptr(img, Indirect(inum)) != 0
    ensures b < FSSIZE
    ensures var img' := img[b := SetWord(img[b], f - NDIRECT, free)];
            SamePtrBut(img, img', Data(inum, f)) && Ptr(img', Data(inum, f)) == free
  {
    assert IsRef(Indirect(inum));
    var img' := img[b := SetWord(img[b], f - NDIRECT, free)];
    forall r | IsRef(r)
      ensures Ptr(img', r) == if r == Data(inum, f) then free else Ptr(img, r)
    {
      InodeElsewhere(img, b, img'[b], r.inum);
      assert IsRef(Indirect(r.inum));
      if r.inum != inum {
        assert Ptr(img, Indirect(r.inum)) != b;
      } else if r.Data? && r.fbn >= NDIRECT {
        WordAfterSet(img[b], f - NDIRECT, free, r.fbn - NDIRECT);
      }
    }
  }

  /** Writing a data block moves no pointer: no inode and no indirect block is touched. */
  lemma DataBlock(img: Image, inum: nat, f: nat, free: nat, x: nat, s: Sector)
    requires inum < ISLOTS && f < MAXFILE && Pointers(img, free) && x == Ptr(img, Data(inum, f)) != 0
    ensures x < FSSIZE && SamePtr(img, img[x := s])
  {
    assert IsRef(Data(inum, f));
    forall r | IsRef(r)
      ensures Ptr(img[x := s], r) == Ptr(img, r)
    {
      InodeElsewhere(img, x, s, r.inum);
      assert IsRef(Indirect(r.inum));
      assert Ptr(img, Indirect(r.inum)) != x;
    }
  }

  // ---- inodes that are still clear, and images where only metadata differs ----

  function ClearInode(): (d: Dinode)
    ensures WfInode(d) && forall k :: 0 <= k <= NDIRECT ==> d.addrs[k] == 0
  {
    Dinode(0, 0, 0, 0, 0, seq(NDIRECT + 1, _ => 0))
  }

  lemma {:induction false} ClearWords(b: seq<Byte>, n: nat)
    requires |b| == 4 * n && forall k :: 0 <= k < |b| ==> b[k] == 0
    ensures forall k :: 0 <= k < n ==> GetWords(b, n)[k] == 0
  {
    if n != 0 {
      ClearWords(b[4..], n - 1);
    }
  }

  lemma ClearHalf(b: seq<Byte>, i: nat)
    requires i + 2 <= |b| && b[i] == 0 && b[i + 1] == 0
    ensures Get16(b[i..i + 2]) == 0
  {
    assert b[i..i + 2][0] == b[i] && b[i..i + 2][1] == b[i + 1];
  }

  lemma ClearWord(b: seq<Byte>, i: nat)
    requires i + 4 <= |b| && b[i] == 0 && b[i + 1] == 0 && b[i + 2] == 0 && b[i + 3] == 0
    ensures Get32(b[i..i + 4]) == 0
  {
    var w := b[i..i + 4];
    assert w[0] == b[i] && w[1] == b[i + 1] && w[2] == b[i + 2] && w[3] == b[i + 3];
  }

  lemma ClearBytes(b: seq<Byte>)
    requires |b| == INODESIZE && forall k :: 0 <= k < |b| ==> b[k] == 0
    ensures GetInode(b) == ClearInode()
  {
    hide Get16, Get32, GetWords;
    ClearHalf(b, 0);
    ClearHalf(b, 2);
    ClearHalf(b, 4);
    ClearHalf(b, 6);
    ClearWord(b, 8);
    ClearWords(b[12..64], NDIRECT + 1);
    assert GetWords(b[12..64], NDIRECT + 1) == ClearInode().addrs;
  }

  lemma ZeroInode(inum: nat)
    ensures InodeIn(Zeroes(), inum) == ClearInode()
  {
    ClearBytes(Zeroes()[inum % IPB * INODESIZE..(inum % IPB + 1) * INODESIZE]);
  }

  ghost predicate ClearFrom(img: Image, freeinode: nat) {
    forall i :: freeinode <= i < ISLOTS ==> InodeAt(img, i) == ClearInode()
  }

  /** The cleared image, whatever its super block, holds no file and no block. */
  lemma BlankIsSound(img: Image)
    requires forall b :: 0 <= b < FSSIZE && b != 1 ==> img[b] == Zeroes()
    ensures FsInv(img, NMETA) && ClearFrom(img, 0)
  {
    forall i | 0 <= i < ISLOTS
      ensures InodeAt(img, i) == ClearInode()
    {
      ZeroInode(i);
    }
    hide InodeAt;
    forall r | IsRef(r)
      ensures Ptr(img, r) == 0
    {
    }
    hide Ptr;
    assert Pointers(img, NMETA);
  }

  ghost predicate SameData(v: Image, w: Image) {
    forall b :: NMETA <= b < FSSIZE ==> w[b] == v[b]
  }

  /** A byte of an allocated block, or none, reads the same when the pointers and the data blocks are the same. */
  lemma SameByte(v: Image, w: Image, free: nat, j: nat, o: nat)
    requires Placed(v, free) && SamePtr(v, w) && SameData(v, w) && w[0] == v[0] && j < ISLOTS && o < MAXFILE * BSIZE
    ensures ByteAt(w, j, o) == ByteAt(v, j, o)
  {
    hide Ptr;
    assert IsRef(Data(j, o / BSIZE));
  }

  /** A file keeps its contents when its inode, the pointers and the data blocks are the same. */
  lemma SameContents(v: Image, w: Image, free: nat, j: nat)
    requires Placed(v, free) && SamePtr(v, w) && SameData(v, w) && w[0] == v[0] && j < ISLOTS
    requires InodeAt(w, j) == InodeAt(v, j) && InodeAt(v, j).size <= MAXFILE * BSIZE
    ensures Contents(w, j) == Contents(v, j)
    ensures ZeroFrom(v, j, InodeAt(v, j).size) ==> ZeroFrom(w, j, InodeAt(w, j).size)
  {
    hide Ptr, InodeAt, ByteAt, Placed, SamePtr, SameData;
    forall o: nat | o < MAXFILE * BSIZE
      ensures ByteAt(w, j, o) == ByteAt(v, j, o)
    {
      SameByte(v, w, free, j, o);
    }
  }

  lemma SizeFits(v: Image, free: nat, j: nat)
    requires FsInv(v, free) && j < ISLOTS
    ensures InodeAt(v, j).size <= MAXFILE * BSIZE && SizedAt(v, j, InodeAt(v, j).size) && ZeroFrom(v, j, InodeAt(v, j).size)
  {
    assert SizedAt(v, j, InodeAt(v, j).size);
  }

  lemma SizedBySame(v: Image, w: Image, inum: nat, size: nat)
    requires inum < ISLOTS && SizedAt(v, inum, size) && SamePtr(v, w)
    ensures SizedAt(w, inum, size)
  {
    hide Ptr;
    assert IsRef(Indirect(inum));
    assert forall f :: 0 <= f < MAXFILE ==> IsRef(Data(inum, f));
  }

  /** The same inodes, the same pointers and the same data: only metadata that is in no file may differ. */
  ghost predicate SameFiles(v: Image, w: Image) {
    && SamePtr(v, w) && SameData(v, w) && w[0] == v[0]
    && forall j :: 0 <= j < ISLOTS ==> InodeAt(w, j) == InodeAt(v, j)
  }

  /** The bitmap, like the super block and the log, is part of no inode and no file. */
  lemma MetaBlock(v: Image, free: nat, b: nat, s: Sector)
    requires Pointers(v, free) && 0 < b < NMETA && !(INODESTART <= b < BMAPSTART)
    ensures SameFiles(v, v[b := s])
  {
    var w := v[b := s];
    forall r | IsRef(r)
      ensures Ptr(w, r) == Ptr(v, r)
    {
      assert IsRef(Indirect(r.inum));
      assert Ptr(v, Indirect(r.inum)) != 0 ==> NMETA <= Ptr(v, Indirect(r.inum));
    }
  }

  lemma SoundKept(v: Image, w: Image, free: nat)
    requires FsInv(v, free) && SameFiles(v, w)
    ensures FsInv(w, free)
  {
    SameAllocated(v, w, free);
    hide Ptr, InodeAt, SamePtr, ByteAt, Contents, Pointers, SizedAt, ZeroFrom;
    forall j | 0 <= j < ISLOTS
      ensures SizedAt(w, j, InodeAt(w, j).size) && ZeroFrom(w, j, InodeAt(w, j).size)
    {
      SizeFits(v, free, j);
      SizedBySame(v, w, j, InodeAt(v, j).size);
      PlacedIs(v, free);
      SameContents(v, w, free, j);
    }
  }

  lemma PlacedIs(v: Image, free: nat)
    requires Pointers(v, free)
    ensures Placed(v, free)
  {
  }

  /** So either both are sound or neither is. */
  lemma SoundBoth(v: Image, w: Image, free: nat)
    requires SameFiles(v, w)
    ensures FsInv(v, free) <==> FsInv(w, free)
  {
    hide Ptr, InodeAt;
    if FsInv(v, free) {
      SoundKept(v, w, free);
    }
    if FsInv(w, free) {
      SoundKept(w, v, free);
    }
  }

  /** Bit b of the bitmap sector. */
  predicate BitOf(s: Sector, b: nat)
    requires b < BSIZE * 8
  {
    Bit(s[b / 8], b % 8)
  }

  /** Exactly the blocks below `used` are marked. */
  ghost predicate IsBitmap(s: Sector, used: nat) {
    forall b :: 0 <= b < BSIZE * 8 ==> (BitOf(s, b) <==> b < used)
  }

  lemma OneBitmap(s: Sector, t: Sector, used: nat)
    requires IsBitmap(s, used) && IsBitmap(t, used)
    ensures s == t
  {
    forall k | 0 <= k < BSIZE
      ensures s[k] == t[k]
    {
      forall j | 0 <= j < 8
        ensures Bit(s[k], j) <==> Bit(t[k], j)
      {
        assert BitOf(s, 8 * k + j) <==> BitOf(t, 8 * k + j);
      }
      Pow8();
      SameBits(s[k], t[k], 8);
    }
  }
}
