/** One round of iappend's loop, as images before and after. */
module AppendRound {
  import opened Bytes
  import opened ImageCodec
  import opened Image

  /** Blocks a file of a size needs, its indirect block included. */
  function Blocks(size: nat): nat {
    (size + BSIZE - 1) / BSIZE + if size > NDIRECT * BSIZE then 1 else 0
  }

  /** Blocks that must be allocated before block f of a file can be written. */
  function Fresh(img: Image, inum: nat, f: nat): nat
    requires inum < ISLOTS && f < MAXFILE
  {
    (if Ptr(img, Data(inum, f)) == 0 then 1 else 0) + if f >= NDIRECT && Ptr(img, Indirect(inum)) == 0 then 1 else 0
  }

  lemma FreshBlocks(img: Image, inum: nat, f: nat, off: nat, n: nat)
    requires inum < ISLOTS && SizedAt(img, inum, off) && f == off / BSIZE < MAXFILE && 0 < n <= (f + 1) * BSIZE - off
    ensures Blocks(off + n) == Blocks(off) + Fresh(img, inum, f)
  {
    hide Ptr;
    assert Ptr(img, Data(inum, f)) != 0 <==> off % BSIZE != 0;
  }

  lemma ZeroBlocks()
    ensures Blocks(0) == 0
  {
  }

  lemma BlocksGrow(a: nat, b: nat)
    requires a <= b
    ensures Blocks(a) <= Blocks(b)
  {
  }

  lemma Rewrite(img: Image, inum: nat, d: Dinode, d': Dinode)
    requires inum < ISLOTS && WfInode(d) && WfInode(d')
    ensures WithInode(WithInode(img, inum, d), inum, d') == WithInode(img, inum, d')
  {
    var s := img[IBlock(inum)];
    assert InodeInto(InodeInto(s, inum, d), inum, d') == InodeInto(s, inum, d');
  }

  lemma Commute(img: Image, inum: nat, d: Dinode, b: nat, s: Sector)
    requires inum < ISLOTS && WfInode(d) && NMETA <= b < FSSIZE
    ensures WithInode(img[b := s], inum, d) == WithInode(img, inum, d)[b := s]
    ensures WithInode(img, inum, d)[b] == img[b]
  {
  }

  ghost predicate DataKept(v: Image, w: Image) {
    forall i, f :: 0 <= i < ISLOTS && 0 <= f < MAXFILE && 0 < Ptr(v, Data(i, f)) < FSSIZE
                   ==> w[Ptr(v, Data(i, f))] == v[Ptr(v, Data(i, f))]
  }

  /** What finding or allocating block f of a file does to the image: x is that block. */
  ghost predicate HasBlock(v: Image, free: nat, w: Image, free': nat, inum: nat, f: nat, x: nat)
    requires inum < ISLOTS && f < MAXFILE
  {
    && Pointers(w, free') && Unused(w, free') && free' == free + Fresh(v, inum, f)
    && (forall r :: IsRef(r) && r != Data(inum, f) && r != Indirect(inum) ==> Ptr(w, r) == Ptr(v, r))
    && Ptr(w, Data(inum, f)) == x && x != 0
    && (Ptr(v, Data(inum, f)) != 0 ==> x == Ptr(v, Data(inum, f)))
    && (Ptr(v, Data(inum, f)) == 0 ==> x < FSSIZE && w[x] == Zeroes())
    && (Ptr(w, Indirect(inum)) != 0 <==> Ptr(v, Indirect(inum)) != 0 || f >= NDIRECT)
    && DataKept(v, w)
    && (forall j :: 0 <= j < ISLOTS && j != inum ==> InodeAt(w, j) == InodeAt(v, j))
    && InodeAt(w, inum) == InodeAt(v, inum).(addrs := InodeAt(w, inum).addrs)
  }

  /** One block has been allocated for a file and is held at the given reference. */
  ghost predicate Gained(v: Image, free: nat, w: Image, inum: nat, at: Ref)
    requires inum < ISLOTS && IsRef(at)
  {
    && free < FSSIZE && Pointers(w, free + 1) && Unused(w, free + 1)
    && Ptr(v, at) == 0 && Ptr(w, at) == free && SamePtrBut(v, w, at) && w[free] == Zeroes()
    && DataKept(v, w)
    && (forall j :: 0 <= j < ISLOTS && j != inum ==> InodeAt(w, j) == InodeAt(v, j))
    && InodeAt(w, inum) == InodeAt(v, inum).(addrs := InodeAt(w, inum).addrs)
  }

  lemma KeepsData(v: Image, free: nat, inum: nat, d: Dinode)
    requires inum < ISLOTS && WfInode(d) && Placed(v, free)
    ensures DataKept(v, WithInode(v, inum, d))
  {
    hide Ptr, InodeInto;
    forall i, f | 0 <= i < ISLOTS && 0 <= f < MAXFILE && 0 < Ptr(v, Data(i, f)) < FSSIZE
      ensures WithInode(v, inum, d)[Ptr(v, Data(i, f))] == v[Ptr(v, Data(i, f))]
    {
      assert IsRef(Data(i, f));
    }
  }

  lemma InodesAfter(v: Image, inum: nat, d: Dinode)
    requires inum < ISLOTS && WfInode(d)
    ensures InodeAt(WithInode(v, inum, d), inum) == d
    ensures forall j :: 0 <= j < ISLOTS && j != inum ==> InodeAt(WithInode(v, inum, d), j) == InodeAt(v, j)
  {
    hide InodeIn, InodeInto;
    forall j | 0 <= j < ISLOTS
      ensures InodeAt(WithInode(v, inum, d), j) == if j == inum then d else InodeAt(v, j)
    {
      WinodeReadBack(v, inum, d, j);
    }
  }

  /** Storing the next free block in one of the inode's own addresses. */
  lemma GainAddress(v: Image, free: nat, inum: nat, k: nat, d: Dinode)
    requires inum < ISLOTS && k <= NDIRECT && Pointers(v, free) && Unused(v, free) && free < FSSIZE
    requires InodeAt(v, inum).addrs[k] == 0 && d == InodeAt(v, inum).(addrs := InodeAt(v, inum).addrs[k := free])
    ensures Gained(v, free, WithInode(v, inum, d), inum, if k < NDIRECT then Data(inum, k) else Indirect(inum))
  {
    var w := WithInode(v, inum, d);
    if k < NDIRECT {
      DirectBlock(v, inum, k, d, free);
      AllocateOne(v, w, Data(inum, k), free);
    } else {
      IndirectBlock(v, inum, d, free);
      AllocateOne(v, w, Indirect(inum), free);
    }
    KeepsData(v, free, inum, d);
    InodesAfter(v, inum, d);
    hide InodeAt, InodeInto;
  }

  /** Storing the next free block in the file's indirect block. */
  lemma GainEntry(v: Image, free: nat, inum: nat, f: nat, b: nat)
    requires inum < ISLOTS && NDIRECT <= f < MAXFILE && Pointers(v, free) && Unused(v, free) && free < FSSIZE
    requires b == Ptr(v, Indirect(inum)) != 0 && Ptr(v, Data(inum, f)) == 0
    ensures NMETA <= b < FSSIZE
    ensures Gained(v, free, v[b := SetWord(v[b], f - NDIRECT, free)], inum, Data(inum, f))
  {
    assert IsRef(Indirect(inum));
    EntryBlock(v, inum, f, free, b);
    var w := v[b := SetWord(v[b], f - NDIRECT, free)];
    AllocateOne(v, w, Data(inum, f), free);
    hide Ptr, InodeIn, SetWord;
    forall j | 0 <= j < ISLOTS
      ensures InodeAt(w, j) == InodeAt(v, j)
    {
      InodeElsewhere(v, b, w[b], j);
    }
    forall i, g | 0 <= i < ISLOTS && 0 <= g < MAXFILE && 0 < Ptr(v, Data(i, g)) < FSSIZE
      ensures w[Ptr(v, Data(i, g))] == v[Ptr(v, Data(i, g))]
    {
      assert IsRef(Data(i, g));
    }
  }

  lemma HasAlready(v: Image, free: nat, inum: nat, f: nat)
    requires inum < ISLOTS && f < MAXFILE && Pointers(v, free) && Unused(v, free) && Ptr(v, Data(inum, f)) != 0
    ensures HasBlock(v, free, v, free, inum, f, Ptr(v, Data(inum, f)))
  {
  }

  lemma HasAfterOne(v: Image, free: nat, w: Image, inum: nat, f: nat)
    requires inum < ISLOTS && f < MAXFILE && Gained(v, free, w, inum, Data(inum, f)) && NMETA <= free
    requires f >= NDIRECT ==> Ptr(v, Indirect(inum)) != 0
    ensures HasBlock(v, free, w, free + 1, inum, f, free)
  {
    hide Ptr, InodeAt, DataKept, Pointers, Unused;
    assert IsRef(Indirect(inum));
  }

  lemma HasAfterTwo(v: Image, free: nat, w: Image, z: Image, inum: nat, f: nat)
    requires inum < ISLOTS && NDIRECT <= f < MAXFILE && NMETA <= free
    requires Gained(v, free, w, inum, Indirect(inum)) && Gained(w, free + 1, z, inum, Data(inum, f))
    ensures HasBlock(v, free, z, free + 2, inum, f, free + 1)
  {
    hide Ptr, InodeAt, Pointers, Unused;
    assert IsRef(Indirect(inum)) && IsRef(Data(inum, f));
    forall i, g | 0 <= i < ISLOTS && 0 <= g < MAXFILE && 0 < Ptr(v, Data(i, g)) < FSSIZE
      ensures z[Ptr(v, Data(i, g))] == v[Ptr(v, Data(i, g))]
    {
      assert IsRef(Data(i, g));
      assert Ptr(w, Data(i, g)) == Ptr(v, Data(i, g));
    }
  }

  /** The sector with the chunk copied in at an offset. */
  function Splice(s: Sector, at: nat, chunk: seq<Byte>): Sector
    requires at + |chunk| <= BSIZE
  {
    s[..at] + chunk + s[at + |chunk|..]
  }

  ghost predicate OthersKept(v: Image, w: Image, inum: nat) {
    forall j :: 0 <= j < ISLOTS && j != inum ==>
                  && InodeAt(w, j) == InodeAt(v, j) && InodeAt(v, j).size <= MAXFILE * BSIZE
                  && Contents(w, j) == Contents(v, j)
  }

  /** The image once the chunk is in block x and the size covers it. */
  function Appended(w: Image, inum: nat, x: nat, off: nat, chunk: seq<Byte>): Image
    requires inum < ISLOTS && x < FSSIZE && off % BSIZE + |chunk| <= BSIZE && off + |chunk| <= MAXFILE * BSIZE
  {
    WithInode(w[x := Splice(w[x], off % BSIZE, chunk)], inum, InodeAt(w, inum).(size := off + |chunk|))
  }

  lemma AppendedPointers(w: Image, free: nat, inum: nat, f: nat, x: nat, off: nat, chunk: seq<Byte>)
    requires inum < ISLOTS && f < MAXFILE && Pointers(w, free) && Unused(w, free) && x == Ptr(w, Data(inum, f)) != 0
    requires x < FSSIZE && off % BSIZE + |chunk| <= BSIZE && off + |chunk| <= MAXFILE * BSIZE
    ensures var z := Appended(w, inum, x, off, chunk);
            && Pointers(z, free) && Unused(z, free) && SamePtr(w, z)
            && InodeAt(z, inum) == InodeAt(w, inum).(size := off + |chunk|)
            && (forall j :: 0 <= j < ISLOTS && j != inum ==> InodeAt(z, j) == InodeAt(w, j))
            && (forall b :: NMETA <= b < FSSIZE && b != x ==> z[b] == w[b])
            && NMETA <= x < free && z[x] == Splice(w[x], off % BSIZE, chunk)
  {
    var y := w[x := Splice(w[x], off % BSIZE, chunk)];
    assert IsRef(Data(inum, f));
    DataBlock(w, inum, f, free, x, y[x]);
    SameAllocated(w, y, free);
    InodeElsewhere(w, x, y[x], inum);
    var d := InodeAt(w, inum).(size := off + |chunk|);
    SameAddresses(y, inum, d, free);
    var z := WithInode(y, inum, d);
    SameAllocated(y, z, free);
    hide Ptr, InodeIn, InodeInto;
    forall j | 0 <= j < ISLOTS
      ensures InodeAt(z, j) == if j == inum then d else InodeAt(w, j)
    {
      WinodeReadBack(y, inum, d, j);
      InodeElsewhere(w, x, y[x], j);
    }
  }

  lemma OtherContents(v: Image, free: nat, w: Image, free': nat, z: Image, inum: nat, f: nat, x: nat, j: nat)
    requires inum < ISLOTS && f < MAXFILE && j < ISLOTS && j != inum && HasBlock(v, free, w, free', inum, f, x)
    requires FsInv(v, free) && SamePtr(w, z) && forall b :: NMETA <= b < FSSIZE && b != x ==> z[b] == w[b]
    requires InodeAt(z, j) == InodeAt(v, j)
    ensures InodeAt(v, j).size <= MAXFILE * BSIZE && Contents(z, j) == Contents(v, j)
    ensures ZeroFrom(z, j, InodeAt(z, j).size)
  {
    hide Ptr, InodeAt;
    SizeFits(v, free, j);
    assert SizedAt(v, j, InodeAt(v, j).size);
    forall o | 0 <= o < MAXFILE * BSIZE && o / BSIZE * BSIZE < InodeAt(v, j).size
      ensures ByteAt(z, j, o) == ByteAt(v, j, o)
    {
      var r := Data(j, o / BSIZE);
      assert IsRef(r) && IsRef(Data(inum, f)) && Ptr(v, r) != 0;
      assert Ptr(z, r) == Ptr(w, r) == Ptr(v, r);
    }
  }

  /** Behind the chunk the block is as it was, or fresh: zero either way. */
  lemma OwnTail(v: Image, free: nat, w: Image, free': nat, z: Image, inum: nat, f: nat, x: nat, off: nat, chunk: seq<Byte>)
    requires inum < ISLOTS && f < MAXFILE && HasBlock(v, free, w, free', inum, f, x) && x < FSSIZE
    requires FsInv(v, free) && SamePtr(w, z)
    requires off == InodeAt(v, inum).size && f == off / BSIZE && 0 < |chunk|
    requires off % BSIZE + |chunk| <= BSIZE && off + |chunk| <= MAXFILE * BSIZE
    requires z[x] == Splice(w[x], off % BSIZE, chunk)
    ensures ZeroFrom(z, inum, off + |chunk|)
  {
    hide Ptr, InodeAt;
    SizeFits(v, free, inum);
    assert SizedAt(v, inum, off);
    assert IsRef(Data(inum, f)) && Ptr(z, Data(inum, f)) == x;
    forall o | off + |chunk| <= o < MAXFILE * BSIZE && o / BSIZE * BSIZE < off + |chunk|
      ensures ByteAt(z, inum, o) == 0
    {
      assert o / BSIZE == f && o % BSIZE >= off % BSIZE + |chunk|;
      assert z[x][o % BSIZE] == w[x][o % BSIZE];
      if Ptr(v, Data(inum, f)) != 0 {
        assert off % BSIZE != 0 && w[x] == v[x];
        assert ByteAt(v, inum, o) == 0;
      }
    }
  }

  lemma OwnContents(v: Image, free: nat, w: Image, free': nat, z: Image, inum: nat, f: nat, x: nat, off: nat, chunk: seq<Byte>)
    requires inum < ISLOTS && f < MAXFILE && HasBlock(v, free, w, free', inum, f, x) && x < FSSIZE
    requires FsInv(v, free) && SamePtr(w, z) && forall b :: NMETA <= b < FSSIZE && b != x ==> z[b] == w[b]
    requires off == InodeAt(v, inum).size && f == off / BSIZE
    requires off % BSIZE + |chunk| <= BSIZE && off + |chunk| <= MAXFILE * BSIZE
    requires InodeAt(z, inum).size == off + |chunk| && z[x] == Splice(w[x], off % BSIZE, chunk)
    ensures Contents(z, inum) == Contents(v, inum) + chunk
  {
    hide Ptr, InodeAt;
    assert SizedAt(v, inum, off);
    forall o | 0 <= o < off + |chunk|
      ensures ByteAt(z, inum, o) == if o < off then ByteAt(v, inum, o) else chunk[o - off]
    {
      var g := o / BSIZE;
      var r := Data(inum, g);
      assert IsRef(r) && IsRef(Data(inum, f));
      assert Ptr(z, r) == Ptr(w, r);
      if o < off {
        assert Ptr(v, r) != 0;
        assert Ptr(w, r) == Ptr(v, r);
        if g == f {
          assert o % BSIZE < off % BSIZE;
        }
      } else {
        assert g == f && o % BSIZE == off % BSIZE + (o - off);
      }
    }
  }

  lemma StillSized(v: Image, free: nat, w: Image, free': nat, z: Image, inum: nat, f: nat, x: nat, off: nat, n: nat)
    requires inum < ISLOTS && f < MAXFILE && HasBlock(v, free, w, free', inum, f, x) && FsInv(v, free)
    requires SamePtr(w, z) && off == InodeAt(v, inum).size && f == off / BSIZE && 0 < n <= (f + 1) * BSIZE - off
    requires InodeAt(z, inum).size == off + n && forall j :: 0 <= j < ISLOTS && j != inum ==> InodeAt(z, j) == InodeAt(v, j)
    ensures Sized(z)
  {
    hide Ptr, InodeAt;
    forall i | 0 <= i < ISLOTS
      ensures SizedAt(z, i, InodeAt(z, i).size)
    {
      assert SizedAt(v, i, InodeAt(v, i).size);
      assert IsRef(Indirect(i));
      assert Ptr(z, Indirect(i)) == Ptr(w, Indirect(i));
      forall g | 0 <= g < MAXFILE
        ensures Ptr(z, Data(i, g)) != 0 <==> g * BSIZE < InodeAt(z, i).size
      {
        assert IsRef(Data(i, g));
        assert Ptr(z, Data(i, g)) == Ptr(w, Data(i, g));
      }
    }
  }

  /** A round leaves a sound image in which the file has grown by the chunk and nothing else has changed. */
  lemma Round(v: Image, free: nat, w: Image, free': nat, inum: nat, f: nat, x: nat, off: nat, chunk: seq<Byte>)
    requires inum < ISLOTS && f < MAXFILE && FsInv(v, free) && HasBlock(v, free, w, free', inum, f, x)
    requires off == InodeAt(v, inum).size && f == off / BSIZE && 0 < |chunk| <= (f + 1) * BSIZE - off
    ensures NMETA <= x < FSSIZE && off <= MAXFILE * BSIZE
    ensures var z := Appended(w, inum, x, off, chunk);
            && FsInv(z, free') && OthersKept(v, z, inum)
            && InodeAt(z, inum) == InodeAt(v, inum).(size := off + |chunk|, addrs := InodeAt(w, inum).addrs)
            && Contents(z, inum) == Contents(v, inum) + chunk
            && free' == free + Blocks(off + |chunk|) - Blocks(off)
  {
    hide Ptr, InodeAt, SamePtr, WithInode;
    assert IsRef(Data(inum, f));
    assert SizedAt(v, inum, off);
    FreshBlocks(v, inum, f, off, |chunk|);
    AppendedPointers(w, free', inum, f, x, off, chunk);
    var z := Appended(w, inum, x, off, chunk);
    hide Appended;
    StillSized(v, free, w, free', z, inum, f, x, off, |chunk|);
    OwnContents(v, free, w, free', z, inum, f, x, off, chunk);
    OwnTail(v, free, w, free', z, inum, f, x, off, chunk);
    hide Splice, ByteAt, Contents, ZeroFrom;
    forall j | 0 <= j < ISLOTS && j != inum
      ensures InodeAt(z, j) == InodeAt(v, j) && InodeAt(v, j).size <= MAXFILE * BSIZE && Contents(z, j) == Contents(v, j)
      ensures ZeroFrom(z, j, InodeAt(z, j).size)
    {
      OtherContents(v, free, w, free', z, inum, f, x, j);
    }
  }

  lemma SizedRounded(v: Image, w: Image, inum: nat, off: nat, size: nat)
    requires inum < ISLOTS && SizedAt(v, inum, off) && SamePtr(v, w)
    requires size == (off / BSIZE + 1) * BSIZE <= MAXFILE * BSIZE
    ensures SizedAt(w, inum, size) <==> off % BSIZE != 0
  {
    hide Ptr;
    SizedBySame(v, w, inum, off);
    var f := off / BSIZE;
    assert Ptr(w, Data(inum, f)) != 0 <==> off % BSIZE != 0;
    assert SizedAt(w, inum, size) ==> Ptr(w, Data(inum, f)) != 0;
    if off % BSIZE != 0 {
      assert forall g :: 0 <= g < MAXFILE ==> (g * BSIZE < off <==> g * BSIZE < size);
    }
  }

  /** An inode written back with the addresses it had: what is left to ask is whether its size is right. */
  lemma Reinoded(v: Image, free: nat, inum: nat, d: Dinode)
    requires FsInv(v, free) && inum < ISLOTS && WfInode(d) && d.addrs == InodeAt(v, inum).addrs
    ensures var w := WithInode(v, inum, d);
            && Pointers(w, free) && Unused(w, free) && OthersKept(v, w, inum) && InodeAt(w, inum) == d
            && SamePtr(v, w) && SameData(v, w) && w[0] == v[0]
            && (FsInv(w, free) <==> SizedAt(w, inum, d.size) && ZeroFrom(w, inum, d.size))
  {
    var w := WithInode(v, inum, d);
    SameAddresses(v, inum, d, free);
    SameAllocated(v, w, free);
    InodesAfter(v, inum, d);
    assert SameData(v, w) && w[0] == v[0] && Unused(w, free);
    hide InodeAt, Ptr, WithInode, SizedAt, ZeroFrom, Contents, ByteAt, SamePtr, SameData, Unused, Pointers;
    PlacedIs(v, free);
    forall j | 0 <= j < ISLOTS && j != inum
      ensures SizedAt(w, j, InodeAt(w, j).size) && ZeroFrom(w, j, InodeAt(w, j).size)
      ensures InodeAt(v, j).size <= MAXFILE * BSIZE && Contents(w, j) == Contents(v, j)
    {
      SizeFits(v, free, j);
      SizedBySame(v, w, j, InodeAt(v, j).size);
      SameContents(v, w, free, j);
    }
  }

  function RoundedUp(size: nat): nat {
    (size / BSIZE + 1) * BSIZE
  }

  /** Rounding a file's size up to the next block keeps the image sound exactly when the last block is not full. */
  lemma RoundedSize(v: Image, free: nat, inum: nat)
    requires FsInv(v, free) && inum < ISLOTS && RoundedUp(InodeAt(v, inum).size) <= MAXFILE * BSIZE
    ensures var d := InodeAt(v, inum);
            FsInv(WithInode(v, inum, d.(size := RoundedUp(d.size))), free) <==> d.size % BSIZE != 0
  {
    hide FsInv, InodeAt, WithInode, SamePtr, SameData, SizedAt, ZeroFrom, Pointers, Unused, OthersKept;
    var off := InodeAt(v, inum).size;
    var size := RoundedUp(off);
    var d := InodeAt(v, inum).(size := size);
    Reinoded(v, free, inum, d);
    SizeFits(v, free, inum);
    SizedRounded(v, WithInode(v, inum, d), inum, off, size);
    ZeroFromBlock(WithInode(v, inum, d), inum, size / BSIZE);
  }

  lemma ZeroFromBlock(w: Image, inum: nat, n: nat)
    requires inum < ISLOTS
    ensures ZeroFrom(w, inum, n * BSIZE)
  {
  }

  lemma SoundIsPlaced(v: Image, free: nat)
    requires FsInv(v, free)
    ensures Placed(v, free)
  {
  }

  /** The file then reads as before, and zero up to its new size where the image is sound. */
  lemma RoundedContents(v: Image, free: nat, inum: nat, w: Image)
    requires FsInv(v, free) && inum < ISLOTS && RoundedUp(InodeAt(v, inum).size) <= MAXFILE * BSIZE
    requires w == WithInode(v, inum, InodeAt(v, inum).(size := RoundedUp(InodeAt(v, inum).size)))
    ensures InodeAt(v, inum).size <= InodeAt(w, inum).size == RoundedUp(InodeAt(v, inum).size)
    ensures Contents(w, inum)[..InodeAt(v, inum).size] == Contents(v, inum)
    ensures InodeAt(v, inum).size % BSIZE != 0 ==>
              forall o :: InodeAt(v, inum).size <= o < InodeAt(w, inum).size ==> Contents(w, inum)[o] == 0
  {
    hide FsInv, InodeAt, WithInode, SamePtr, SameData, SizedAt, Pointers, Unused, OthersKept, ByteAt, Placed;
    var off := InodeAt(v, inum).size;
    Reinoded(v, free, inum, InodeAt(v, inum).(size := RoundedUp(off)));
    SizeFits(v, free, inum);
    SoundIsPlaced(v, free);
    forall o: nat | o < MAXFILE * BSIZE
      ensures ByteAt(w, inum, o) == ByteAt(v, inum, o)
    {
      SameByte(v, w, free, inum, o);
    }
  }

  lemma RewriteSame(img: Image, inum: nat)
    requires inum < ISLOTS
    ensures WithInode(img, inum, InodeAt(img, inum)) == img
  {
    var s, lo := img[IBlock(inum)], inum % IPB * INODESIZE;
    BackInode(s[lo..lo + INODESIZE]);
    assert InodeInto(s, inum, InodeIn(s, inum)) == s;
  }

  /** Metadata aside, the blocks held by files are those below the next free one. */
  lemma HeldBelow(v: Image, free: nat)
    requires Pointers(v, free)
    ensures forall b :: NMETA <= b < FSSIZE ==> (Held(v, b) <==> b < free)
  {
    hide Ptr;
  }

  /** Every file but two is as it was. */
  ghost predicate KeptBut(v: Image, w: Image, a: nat, b: nat) {
    forall j :: 0 <= j < ISLOTS && j != a && j != b ==>
                  && InodeAt(w, j) == InodeAt(v, j) && InodeAt(v, j).size <= MAXFILE * BSIZE
                  && Contents(w, j) == Contents(v, j)
  }

  lemma KeptBoth(u: Image, v: Image, w: Image, a: nat, b: nat)
    requires KeptBut(u, v, a, b) && (OthersKept(v, w, a) || OthersKept(v, w, b))
    ensures KeptBut(u, w, a, b)
  {
    hide InodeAt, Contents;
  }

  lemma OthersTwice(u: Image, v: Image, w: Image, inum: nat)
    requires OthersKept(u, v, inum) && OthersKept(v, w, inum)
    ensures OthersKept(u, w, inum)
  {
    hide InodeAt, Contents;
  }

  lemma OthersSame(v: Image, free: nat, inum: nat)
    requires FsInv(v, free)
    ensures OthersKept(v, v, inum)
  {
    hide InodeAt, Ptr, Contents;
    forall j | 0 <= j < ISLOTS && j != inum
      ensures InodeAt(v, j).size <= MAXFILE * BSIZE
    {
      assert SizedAt(v, j, InodeAt(v, j).size);
    }
  }

  /** The loop's two writes and its stale inode amount to Appended. */
  lemma RoundWrites(img: Image, inum: nat, d: Dinode, x: nat, off: U32, chunk: seq<Byte>)
    requires inum < ISLOTS && WfInode(d) && NMETA <= x < FSSIZE && off % BSIZE + |chunk| <= BSIZE && off + |chunk| <= MAXFILE * BSIZE
    ensures Appended(WithInode(img, inum, d.(size := off)), inum, x, off, chunk) ==
            WithInode(img[x := Splice(img[x], off % BSIZE, chunk)], inum, d.(size := off + |chunk|))
  {
    var w := WithInode(img, inum, d.(size := off));
    var s := Splice(img[x], off % BSIZE, chunk);
    InodesAfter(img, inum, d.(size := off));
    Commute(img, inum, d.(size := off), x, s);
    Rewrite(img[x := s], inum, d.(size := off), d.(size := off + |chunk|));
  }

  /** A new inode, still without blocks, disturbs nothing. */
  lemma NewInode(v: Image, free: nat, inum: nat, d: Dinode)
    requires FsInv(v, free) && inum < ISLOTS && InodeAt(v, inum) == ClearInode()
    requires WfInode(d) && d.size == 0 && d.addrs == ClearInode().addrs
    ensures FsInv(WithInode(v, inum, d), free) && OthersKept(v, WithInode(v, inum, d), inum)
    ensures Contents(WithInode(v, inum, d), inum) == []
  {
    Reinoded(v, free, inum, d);
    assert SizedAt(v, inum, 0);
    hide InodeAt, Ptr, WithInode, Contents, SamePtr, ByteAt;
    SizedBySame(v, WithInode(v, inum, d), inum, 0);
  }

  lemma RoomFor(v: Image, inum: nat, f: nat, off: nat, rest: nat, free: nat)
    requires inum < ISLOTS && FsInv(v, free) && off == InodeAt(v, inum).size && f == off / BSIZE < MAXFILE && 0 < rest
    ensures free + Fresh(v, inum, f) <= free + Blocks(off + rest) - Blocks(off)
  {
    assert SizedAt(v, inum, off);
    FreshBlocks(v, inum, f, off, 1);
    BlocksGrow(off + 1, off + rest);
  }

  lemma SoundBound(v: Image, free: nat)
    requires FsInv(v, free)
    ensures free <= FSSIZE && Pointers(v, free) && Unused(v, free)
  {
  }

  /** What iappend puts in one block: the rest of the data, or what the block has room for. */
  lemma ChunkFits(off: nat, rest: nat, f: nat, n: int)
    requires f == off / BSIZE < MAXFILE && 0 < rest && n == if rest < (f + 1) * BSIZE - off then rest else (f + 1) * BSIZE - off
    ensures 0 < n <= rest && n <= (f + 1) * BSIZE - off && off + n <= MAXFILE * BSIZE
    ensures off - f * BSIZE == off % BSIZE && off % BSIZE + n <= BSIZE
  {
  }

  /** Fresh in terms of the inode: a file without an indirect block has no block behind one. */
  lemma FreshOf(v: Image, inum: nat, f: nat)
    requires inum < ISLOTS && f < MAXFILE
    ensures f < NDIRECT ==> Fresh(v, inum, f) == if InodeAt(v, inum).addrs[f] == 0 then 1 else 0
    ensures f >= NDIRECT && InodeAt(v, inum).addrs[NDIRECT] == 0 ==> Fresh(v, inum, f) == 2
    ensures f >= NDIRECT && InodeAt(v, inum).addrs[NDIRECT] != 0 ==>
              Fresh(v, inum, f) == if Ptr(v, Data(inum, f)) == 0 then 1 else 0
  {
  }

  lemma StillClear(v: Image, w: Image, freeinode: nat, inum: nat)
    requires ClearFrom(v, freeinode) && OthersKept(v, w, inum) && inum < freeinode
    ensures ClearFrom(w, freeinode)
  {
    hide InodeAt, Contents;
  }
}

module Mkfs {
  import opened Bytes
  import opened ImageCodec
  import opened Image
  import opened AppendRound

  const T_DIR := 1
  const T_FILE := 2
  const ROOTINO := 1

  const SLASH: Byte := '/' as int

  /** main asserts this of the name of a host file. */
  predicate NoSlash(name: seq<Byte>) {
    forall k :: 0 <= k < |name| ==> name[k] != SLASH
  }

  /** The name without the underscore that host binaries carry. */
  function Stripped(name: seq<Byte>): seq<Byte> {
    if name != [] && name[0] == '_' as int then name[1..] else name
  }

  // size, nblocks, ninodes, nlog, logstart, inodestart, bmapstart
  const SUPERBLOCK: seq<U32> := [FSSIZE, FSSIZE - NMETA, NINODES, INODESTART - 2, 2, INODESTART, BMAPSTART]

  datatype HostFile = HostFile(name: seq<Byte>, data: seq<Byte>)

  const DOT: seq<Byte> := ['.' as int]

  /** The root directory for these files: its two own entries, then one entry each. */
  function Listing(files: seq<HostFile>): (r: seq<Byte>)
    requires |files| <= ISLOTS - 2
    ensures |r| == (|files| + 2) * DIRENTSIZE
  {
    if files == [] then Dirent(ROOTINO, DOT) + Dirent(ROOTINO, DOT + DOT)
    else
      var n := |files| - 1;
      Listing(files[..n]) + Dirent(n + 2, Stripped(files[n].name))
  }

  /** One underscore goes, if there is one. */
  lemma StrippedLaw(name: seq<Byte>)
    ensures Stripped(['_' as int] + name) == name
    ensures name == [] || name[0] != '_' as int ==> Stripped(name) == name
  {
    var whole: seq<Byte> := ['_' as int] + name;
    assert whole[1..] == name;
  }

  /** Entry k of the root directory: itself, its parent, which is itself, and then the files in order. */
  lemma {:induction false} ListingAt(files: seq<HostFile>, k: nat)
    requires |files| <= ISLOTS - 2 && k < |files| + 2
    ensures Listing(files)[k * DIRENTSIZE..(k + 1) * DIRENTSIZE] ==
            if k == 0 then Dirent(ROOTINO, DOT) else if k == 1 then Dirent(ROOTINO, DOT + DOT)
            else Dirent(k, Stripped(files[k - 2].name))
  {
    hide Dirent, Stripped;
    var all := Listing(files);
    if files == [] {
      assert all[0..16] == Dirent(ROOTINO, DOT) && all[16..32] == Dirent(ROOTINO, DOT + DOT);
    } else {
      var n := |files| - 1;
      var before := Listing(files[..n]);
      assert all == before + Dirent(n + 2, Stripped(files[n].name));
      if k < |files| + 1 {
        ListingAt(files[..n], k);
        assert all[k * DIRENTSIZE..(k + 1) * DIRENTSIZE] == before[k * DIRENTSIZE..(k + 1) * DIRENTSIZE];
      } else {
        assert all[k * DIRENTSIZE..(k + 1) * DIRENTSIZE] == Dirent(n + 2, Stripped(files[n].name));
      }
    }
  }

  /** The blocks that the files' contents need. */
  function DataBlocks(files: seq<HostFile>): nat {
    if files == [] then 0
    else DataBlocks(files[..|files| - 1]) + Blocks(|files[|files| - 1].data|)
  }

  lemma {:induction false} DataBlocksOfPrefix(files: seq<HostFile>, n: nat)
    requires n <= |files|
    ensures DataBlocks(files[..n]) <= DataBlocks(files)
  {
    if n < |files| {
      DataBlocksOfPrefix(files[..|files| - 1], n);
      assert files[..|files| - 1][..n] == files[..n];
    } else {
      assert files[..n] == files;
    }
  }

  lemma NoFiles(files: seq<HostFile>)
    ensures Listing(files[..0]) == Dirent(ROOTINO, DOT) + Dirent(ROOTINO, DOT + DOT) && DataBlocks(files[..0]) == 0
    ensures 1 == Blocks(2 * DIRENTSIZE) <= Blocks((|files| + 2) * DIRENTSIZE)
    ensures (forall img :: Filled(img, files[..0])) && Fit(files[..0]) && Needed(files[..0]) == NMETA + 1
  {
    BlocksGrow(2 * DIRENTSIZE, (|files| + 2) * DIRENTSIZE);
  }

  /** The fields of an inode that do not change as its file grows. */
  predicate IsKind(d: Dinode, kind: U16) {
    d.kind == kind && d.nlink == 1 && d.major == 0 && d.minor == 0
  }

  function NewDinode(kind: U16): (d: Dinode)
    ensures WfInode(d)
  {
    ClearInode().(kind := kind, nlink := 1, size := 0)
  }

  /** mkfs gets through, gives up, or puts an inode outside the inode blocks. */
  datatype Outcome = Built | GaveUp | Spoiled

  /** Where the free blocks begin once the files and their directory are in the image. */
  ghost function Needed(files: seq<HostFile>): nat {
    NMETA + Blocks((|files| + 2) * DIRENTSIZE) + DataBlocks(files)
  }

  /** Files whose names will do, that are not too large, and for which the image has blocks. */
  ghost predicate Fit(files: seq<HostFile>) {
    && (forall k :: 0 <= k < |files| ==> NoSlash(files[k].name) && |files[k].data| <= MAXFILE * BSIZE)
    && Needed(files) <= FSSIZE
  }

  /** How mkfs ends for these files: whether they fit, up to the first that gets no place for an inode. */
  ghost function Expected(files: seq<HostFile>): Outcome {
    if |files| <= ISLOTS - 2 then if Fit(files) then Built else GaveUp
    else if Fit(files[..ISLOTS - 2]) && NoSlash(files[ISLOTS - 2].name) then Spoiled else GaveUp
  }

  lemma OneMore(files: seq<HostFile>, n: nat)
    requires n < |files| <= ISLOTS - 2
    ensures Fit(files) ==> Fit(files[..n + 1])
    ensures Fit(files[..n]) ==>
              (Fit(files[..n + 1]) <==>
                 NoSlash(files[n].name) && |files[n].data| <= MAXFILE * BSIZE && Needed(files[..n + 1]) <= FSSIZE)
    ensures Needed(files[..n + 1])
         == Needed(files[..n]) + Blocks((n + 3) * DIRENTSIZE) - Blocks((n + 2) * DIRENTSIZE) + Blocks(|files[n].data|)
    ensures Listing(files[..n + 1]) == Listing(files[..n]) + Dirent(n + 2, Stripped(files[n].name))
  {
    hide Blocks, DataBlocks, Dirent;
    assert files[..n + 1][..n] == files[..n];
    OneMoreData(files, n);
  }

  /** The same for the files up to the first that gets no inode. */
  lemma PrefixFits(files: seq<HostFile>, n: nat)
    requires n < |files| && n <= ISLOTS - 2 && Fit(files[..n])
    ensures n == ISLOTS - 2 ==> Expected(files) == if NoSlash(files[n].name) then Spoiled else GaveUp
    ensures n < ISLOTS - 2 && !Fit(files[..n + 1]) ==> Expected(files) == GaveUp
    ensures n < ISLOTS - 2 ==>
              && (Fit(files[..n + 1]) <==>
                 NoSlash(files[n].name) && |files[n].data| <= MAXFILE * BSIZE && Needed(files[..n + 1]) <= FSSIZE)
              && Needed(files[..n + 1])
              == Needed(files[..n]) + Blocks((n + 3) * DIRENTSIZE) - Blocks((n + 2) * DIRENTSIZE) + Blocks(|files[n].data|)
              && Listing(files[..n + 1]) == Listing(files[..n]) + Dirent(n + 2, Stripped(files[n].name))
  {
    hide Blocks, DataBlocks, Dirent, Fit, Listing, Needed;
    if n < ISLOTS - 2 {
      var all := if |files| <= ISLOTS - 2 then files else files[..ISLOTS - 2];
      assert all[..n] == files[..n] && all[..n + 1] == files[..n + 1];
      OneMore(all, n);
    }
  }

  lemma OneMoreData(files: seq<HostFile>, n: nat)
    requires n < |files|
    ensures DataBlocks(files[..n + 1]) == DataBlocks(files[..n]) + Blocks(|files[n].data|) <= DataBlocks(files)
    ensures Blocks((n + 3) * DIRENTSIZE) <= Blocks((|files| + 2) * DIRENTSIZE)
  {
    assert files[..n + 1][..n] == files[..n];
    DataBlocksOfPrefix(files, n + 1);
    BlocksGrow((n + 3) * DIRENTSIZE, (|files| + 2) * DIRENTSIZE);
  }

  /** Inode k + 2 is a file with the contents of file k. */
  ghost predicate Filled(img: Image, files: seq<HostFile>) {
    forall k :: 2 <= k < |files| + 2 && k < ISLOTS ==>
                  && IsKind(InodeAt(img, k), T_FILE)
                  && InodeAt(img, k).size <= MAXFILE * BSIZE && Contents(img, k) == files[k - 2].data
  }

  lemma FilledMore(v: Image, w: Image, files: seq<HostFile>, n: nat)
    requires n < |files| && n < ISLOTS - 2 && Filled(v, files[..n]) && KeptBut(v, w, ROOTINO, n + 2)
    requires InodeAt(w, n + 2).size <= MAXFILE * BSIZE && Contents(w, n + 2) == files[n].data
    requires IsKind(InodeAt(w, n + 2), T_FILE)
    ensures Filled(w, files[..n + 1])
  {
    hide InodeAt, Contents;
  }

  /** The rounded root directory: its entries, and zero behind them where the image is sound. */
  ghost predicate IsRoot(img: Image, files: seq<HostFile>)
    requires |files| <= ISLOTS - 2
  {
    var size, d := (|files| + 2) * DIRENTSIZE, InodeAt(img, ROOTINO);
    && IsKind(d, T_DIR)
    && d.size == RoundedUp(size) <= MAXFILE * BSIZE && size <= d.size && Contents(img, ROOTINO)[..size] == Listing(files)
    && ((|files| + 2) % 32 != 0 ==> forall o :: size <= o < d.size ==> Contents(img, ROOTINO)[o] == 0)
  }

  lemma FullBlocks(n: nat)
    requires n <= ISLOTS
    ensures n * DIRENTSIZE % BSIZE == 0 <==> n % 32 == 0
    ensures RoundedUp(n * DIRENTSIZE) <= MAXFILE * BSIZE
  {
  }

  lemma RootIsListed(v: Image, w: Image, free: nat, files: seq<HostFile>)
    requires |files| <= ISLOTS - 2 && FsInv(v, free)
    requires InodeAt(v, ROOTINO).size <= MAXFILE * BSIZE && Contents(v, ROOTINO) == Listing(files)
    requires IsKind(InodeAt(v, ROOTINO), T_DIR)
    requires w == WithInode(v, ROOTINO, InodeAt(v, ROOTINO).(size := RoundedUp(InodeAt(v, ROOTINO).size)))
    ensures IsRoot(w, files)
    ensures (|files| + 2) % 32 != 0 <==> InodeAt(v, ROOTINO).size % BSIZE != 0
  {
    hide FsInv, InodeAt, WithInode, Listing, ByteAt;
    FullBlocks(|files| + 2);
    InodesAfter(v, ROOTINO, InodeAt(v, ROOTINO).(size := RoundedUp(InodeAt(v, ROOTINO).size)));
    RoundedContents(v, free, ROOTINO, w);
  }

  lemma RootKept(v: Image, w: Image, free: nat, files: seq<HostFile>)
    requires |files| <= ISLOTS - 2 && IsRoot(v, files) && SameFiles(v, w) && Pointers(v, free)
    ensures IsRoot(w, files)
  {
    hide InodeAt, Contents, Ptr;
    SameContents(v, w, free, ROOTINO);
  }

  /** The boot sector, the super block and the log are the same. */
  ghost predicate SameFront(v: Image, w: Image) {
    forall b :: 0 <= b < INODESTART ==> w[b] == v[b]
  }

  lemma FrontSame(v: Image, b: nat, s: Sector)
    requires INODESTART <= b < FSSIZE
    ensures SameFront(v, v) && SameFront(v, v[b := s])
  {
  }

  lemma FrontAfter(u: Image, v: Image, b: nat, s: Sector)
    requires SameFront(u, v) && INODESTART <= b < FSSIZE
    ensures SameFront(u, v[b := s])
  {
  }

  lemma FrontTwice(u: Image, v: Image, w: Image)
    requires SameFront(u, v) && SameFront(v, w)
    ensures SameFront(u, w)
  {
  }

  /** The first 206 files are in the image, and inode 208, for the next one, is in the sector of the bitmap. */
  ghost predicate HalfDone(img: Image, files: seq<HostFile>) {
    && |files| > ISLOTS - 2 && Filled(img, files[..ISLOTS - 2])
    && InodeAt(img, ROOTINO).size <= MAXFILE * BSIZE && Contents(img, ROOTINO) == Listing(files[..ISLOTS - 2])
    && IsKind(InodeAt(img, ROOTINO), T_DIR) && InodeIn(img[BMAPSTART], ISLOTS) == NewDinode(T_FILE)
  }

  lemma HalfIsDone(v: Image, w: Image, free: nat, files: seq<HostFile>)
    requires |files| > ISLOTS - 2 && Filled(v, files[..ISLOTS - 2])
    requires InodeAt(v, ROOTINO).size <= MAXFILE * BSIZE && Contents(v, ROOTINO) == Listing(files[..ISLOTS - 2])
    requires IsKind(InodeAt(v, ROOTINO), T_DIR)
    requires SameFiles(v, w) && Pointers(v, free) && InodeIn(w[BMAPSTART], ISLOTS) == NewDinode(T_FILE)
    ensures HalfDone(w, files)
  {
    hide InodeAt, InodeIn, Contents, Ptr, Listing, Filled;
    FilledSame(v, w, free, files[..ISLOTS - 2]);
    SameContents(v, w, free, ROOTINO);
  }

  lemma InBitmapSector(v: Image, free: nat, kind: U16)
    requires Pointers(v, free)
    ensures IBlock(ISLOTS) == BMAPSTART
    ensures var w := v[BMAPSTART := InodeInto(v[BMAPSTART], ISLOTS, NewDinode(kind))];
            SameFiles(v, w) && InodeIn(w[BMAPSTART], ISLOTS) == NewDinode(kind)
  {
    MetaBlock(v, free, BMAPSTART, InodeInto(v[BMAPSTART], ISLOTS, NewDinode(kind)));
    InodeReadBack(v[BMAPSTART], ISLOTS, NewDinode(kind), ISLOTS);
  }

  lemma UnusedSame(v: Image, w: Image, free: nat)
    requires SameFiles(v, w) && Unused(v, free) && Pointers(v, free)
    ensures Unused(w, free)
  {
    hide Ptr, InodeAt;
  }

  lemma FilledOthers(v: Image, w: Image, files: seq<HostFile>)
    requires |files| <= ISLOTS - 2 && Filled(v, files) && OthersKept(v, w, ROOTINO)
    ensures Filled(w, files)
  {
    hide InodeAt, Contents;
  }

  lemma FilledSame(v: Image, w: Image, free: nat, files: seq<HostFile>)
    requires |files| <= ISLOTS - 2 && Filled(v, files) && SameFiles(v, w) && Pointers(v, free)
    ensures Filled(w, files)
  {
    hide InodeAt, Contents, Ptr;
    forall k | 2 <= k < |files| + 2 && k < ISLOTS
      ensures IsKind(InodeAt(w, k), T_FILE)
      ensures InodeAt(w, k).size <= MAXFILE * BSIZE && Contents(w, k) == files[k - 2].data
    {
      SameContents(v, w, free, k);
    }
  }

  /** The next inode of a sound image. */
  lemma AllocatedInode(v: Image, free: nat, inum: nat, kind: U16)
    requires FsInv(v, free) && inum < ISLOTS && ClearFrom(v, inum)
    ensures var w := WithInode(v, inum, NewDinode(kind));
            && FsInv(w, free) && ClearFrom(w, inum + 1) && OthersKept(v, w, inum)
            && InodeAt(w, inum) == NewDinode(kind) && Contents(w, inum) == []
  {
    var d := NewDinode(kind);
    NewInode(v, free, inum, d);
    InodesAfter(v, inum, d);
    hide FsInv, InodeAt, Contents, WithInode;
  }

  class Builder {
    var img: Image
    var freeinode: nat
    var freeblock: nat

    ghost predicate Valid()
      reads this
    {
      FsInv(img, freeblock) && freeinode <= ISLOTS && ClearFrom(img, freeinode)
    }

    /** rsect and wsect of the inode's sector around the copy of the struct. */
    method Winode(inum: nat, din: Dinode)
      requires IBlock(inum) < FSSIZE && WfInode(din)
      modifies this`img
      ensures img == old(img)[IBlock(inum) := InodeInto(old(img)[IBlock(inum)], inum, din)]
      ensures inum < ISLOTS ==> img == WithInode(old(img), inum, din)
      ensures SameFront(old(img), img)
    {
      var buf := img[IBlock(inum)];
      buf := InodeInto(buf, inum, din);
      img := img[IBlock(inum) := buf];
    }

    method Rinode(inum: nat) returns (din: Dinode)
      requires inum < ISLOTS
      ensures din == InodeAt(img, inum)
    {
      var buf := img[IBlock(inum)];
      din := InodeIn(buf, inum);
    }

    /** The first half of iappend's loop: block fbn of the file, allocated if it is missing. */
    method BlockFor(inum: nat, din: Dinode, fbn: nat, ghost off: U32) returns (ok: bool, din': Dinode, x: nat)
      requires inum < ISLOTS && WfInode(din) && fbn < MAXFILE
      requires var v := WithInode(img, inum, din.(size := off)); Pointers(v, freeblock) && Unused(v, freeblock)
      modifies this`img, this`freeblock
      ensures ok <==> old(freeblock + Fresh(WithInode(img, inum, din.(size := off)), inum, fbn) <= FSSIZE)
      ensures ok ==> WfInode(din') && din' == din.(addrs := din'.addrs)
      ensures ok ==>
                HasBlock(WithInode(old(img), inum, din.(size := off)), old(freeblock),
                         WithInode(img, inum, din'.(size := off)), freeblock, inum, fbn, x)
      ensures SameFront(old(img), img)
    {
      hide SameFront;
      hide HasBlock, DataKept, WithInode, InodeAt, Placed, Unshared, Covered, Unused, Word;
      FrontSame(img, INODESTART, img[INODESTART]);
      ok, din', x := true, din, 0;
      ghost var v := WithInode(img, inum, din.(size := off));
      InodesAfter(img, inum, din.(size := off));
      FreshOf(v, inum, fbn);
      if fbn < NDIRECT {
        if din'.addrs[fbn] == 0 {
          if freeblock >= FSSIZE {
            return false, din, 0;
          }
          din' := din'.(addrs := din'.addrs[fbn := freeblock]);
          GainAddress(v, freeblock, inum, fbn, din'.(size := off));
          Rewrite(img, inum, din.(size := off), din'.(size := off));
          HasAfterOne(v, freeblock, WithInode(img, inum, din'.(size := off)), inum, fbn);
          freeblock := freeblock + 1;
        } else {
          HasAlready(v, freeblock, inum, fbn);
        }
        x := din'.addrs[fbn];
      } else {
        if din'.addrs[NDIRECT] == 0 {
          if freeblock >= FSSIZE {
            return false, din, 0;
          }
          din' := din'.(addrs := din'.addrs[NDIRECT := freeblock]);
          GainAddress(v, freeblock, inum, NDIRECT, din'.(size := off));
          Rewrite(img, inum, din.(size := off), din'.(size := off));
          freeblock := freeblock + 1;
        }
        ghost var w, free := WithInode(img, inum, din'.(size := off)), freeblock;
        InodesAfter(img, inum, din'.(size := off));
        ok, x := EntryFor(inum, din'.addrs[NDIRECT], fbn, w, din'.(size := off));
        if !ok {
          return;
        }
        if din == din' {
          if free == freeblock {
            HasAlready(v, free, inum, fbn);
          } else {
            HasAfterOne(v, free, WithInode(img, inum, din'.(size := off)), inum, fbn);
          }
        } else {
          HasAfterTwo(v, free - 1, w, WithInode(img, inum, din'.(size := off)), inum, fbn);
        }
      }
    }

    /** The entry of the indirect block b, allocated if it is missing. */
    method EntryFor(inum: nat, b: nat, fbn: nat, ghost w: Image, ghost d: Dinode) returns (ok: bool, x: nat)
      requires inum < ISLOTS && NDIRECT <= fbn < MAXFILE && WfInode(d) && w == WithInode(img, inum, d)
      requires Pointers(w, freeblock) && Unused(w, freeblock) && b == Ptr(w, Indirect(inum)) != 0
      modifies this`img, this`freeblock
      ensures ok <==> (Ptr(w, Data(inum, fbn)) == 0 ==> old(freeblock) < FSSIZE)
      ensures Ptr(w, Data(inum, fbn)) != 0 ==> img == old(img) && freeblock == old(freeblock) && x == Ptr(w, Data(inum, fbn))
      ensures ok && Ptr(w, Data(inum, fbn)) == 0 ==>
                && freeblock == old(freeblock) + 1 && x == old(freeblock)
                && Gained(w, old(freeblock), WithInode(img, inum, d), inum, Data(inum, fbn))
      ensures SameFront(old(img), img)
    {
      assert IsRef(Indirect(inum));
      assert NMETA <= b < FSSIZE;
      var indirect: Sector := img[b];
      Commute(img, inum, d, b, indirect);
      assert Ptr(w, Data(inum, fbn)) == Word(indirect, fbn - NDIRECT);
      ok := true;
      if Word(indirect, fbn - NDIRECT) == 0 {
        if freeblock >= FSSIZE {
          return false, 0;
        }
        GainEntry(w, freeblock, inum, fbn, b);
        WordAfterSet(indirect, fbn - NDIRECT, freeblock, fbn - NDIRECT);
        indirect := SetWord(indirect, fbn - NDIRECT, freeblock);
        freeblock := freeblock + 1;
        Commute(img, inum, d, b, indirect);
        img := img[b := indirect];
      }
      x := Word(indirect, fbn - NDIRECT);
    }

    /** What n more bytes of file inum make of freeblock. */
    ghost function FreeAfter(inum: nat, n: nat): int
      requires inum < ISLOTS
      reads this
    {
      freeblock + Blocks(InodeAt(img, inum).size + n) - Blocks(InodeAt(img, inum).size)
    }

    /** iappend; mkfs gives up when the file gets too large, and when a block past the image is to be read. */
    method Iappend(inum: nat, p: seq<Byte>) returns (ok: bool)
      requires Valid() && inum < freeinode
      modifies this`img, this`freeblock
      ensures ok <==> old(InodeAt(img, inum).size) + |p| <= MAXFILE * BSIZE && old(FreeAfter(inum, |p|)) <= FSSIZE
      ensures ok ==> Valid() && freeblock == old(FreeAfter(inum, |p|)) && InodeAt(img, inum).size <= MAXFILE * BSIZE
      ensures old(InodeAt(img, inum).size) <= MAXFILE * BSIZE
      ensures ok ==> Contents(img, inum) == old(Contents(img, inum)) + p && OthersKept(old(img), img, inum)
      ensures ok ==>
                InodeAt(img, inum) == old(InodeAt(img, inum)).(size := InodeAt(img, inum).size, addrs := InodeAt(img, inum).addrs)
      ensures SameFront(old(img), img)
    {
      hide InodeAt, Ptr, WithInode, Appended, OthersKept, HasBlock, Blocks, Fresh, SameFront;
      hide Pointers, Unused, Sized, ClearFrom, Contents, Splice, IBlock, InodeInto, FsInv;
      FrontSame(img, INODESTART, img[INODESTART]);
      var din := Rinode(inum);
      ghost var size := din.size;
      var off, done := din.size, 0;
      RewriteSame(img, inum);
      OthersSame(img, freeblock, inum);
      SizeFits(img, freeblock, inum);
      ghost var v := img;
      while done < |p|
        invariant off <= MAXFILE * BSIZE
        invariant done <= |p| && off == size + done && WfInode(din) && din == old(InodeAt(img, inum)).(addrs := din.addrs)
        invariant v == WithInode(img, inum, din.(size := off)) && FsInv(v, freeblock)
        invariant InodeAt(v, inum) == din.(size := off)
        invariant Contents(v, inum) == old(Contents(img, inum)) + p[..done] && OthersKept(old(img), v, inum)
        invariant freeblock == old(freeblock) + Blocks(off) - Blocks(size) && SameFront(old(img), img)
      {
        var fbn := off / BSIZE;
        ghost var was, free := img, freeblock;
        if fbn >= MAXFILE {
          return false;
        }
        SoundBound(v, freeblock);
        RoomFor(v, inum, fbn, off, |p| - done, freeblock);
        var found, x;
        found, din, x := BlockFor(inum, din, fbn, off);
        FrontTwice(old(img), was, img);
        if !found {
          return false;
        }
        var n1 := if |p| - done < (fbn + 1) * BSIZE - off then |p| - done else (fbn + 1) * BSIZE - off;
        ChunkFits(off, |p| - done, fbn, n1);
        var chunk := p[done..done + n1];
        ghost var w := WithInode(img, inum, din.(size := off));
        InodesAfter(img, inum, din.(size := off));
        Round(v, free, w, freeblock, inum, fbn, x, off, chunk);
        RoundWrites(img, inum, din, x, off, chunk);
        OthersTwice(old(img), v, Appended(w, inum, x, off, chunk), inum);
        var buf := img[x];
        FrontAfter(old(img), img, x, Splice(buf, off - fbn * BSIZE, chunk));
        img := img[x := Splice(buf, off - fbn * BSIZE, chunk)];
        v := Appended(w, inum, x, off, chunk);
        assert p[..done + n1] == p[..done] + chunk;
        done := done + n1;
        off := off + n1;
      }
      assert p[..done] == p;
      SoundBound(v, freeblock);
      ghost var last := img;
      Winode(inum, din.(size := off));
      FrontTwice(old(img), last, img);
      StillClear(old(img), img, freeinode, inum);
      ok := true;
    }

    /** The cleared image with its super block. */
    constructor ()
      ensures Valid() && freeinode == 1 && freeblock == NMETA
      ensures forall k :: 0 <= k < |SUPERBLOCK| ==> Word(img[1], k) == SUPERBLOCK[k]
      ensures forall i :: 0 <= i < ISLOTS ==> InodeAt(img, i) == ClearInode()
      ensures forall b :: 0 <= b < FSSIZE && b != 1 ==> img[b] == Zeroes()
      ensures forall o :: 4 * |SUPERBLOCK| <= o < BSIZE ==> img[1][o] == 0
    {
      var disk: Image := *;
      for i := 0 to FSSIZE
        invariant forall b :: 0 <= b < i ==> disk[b] == Zeroes()
      {
        disk := disk[i := Zeroes()];
      }
      var rest := Zeroes()[4 * |SUPERBLOCK|..];
      var buf: Sector := PutWords(SUPERBLOCK) + rest;
      disk := disk[1 := buf];
      BlankIsSound(disk);
      forall k | 0 <= k < |SUPERBLOCK|
        ensures Word(buf, k) == SUPERBLOCK[k]
      {
        WordOfPut(SUPERBLOCK, rest, k);
      }
      hide FsInv, InodeAt, Word;
      img, freeinode, freeblock := disk, 1, NMETA;
    }

    /**
     ialloc does not look at its number. In the inode blocks it makes the next inode;
     behind them it overwrites part of whatever sector that number falls into, and past
     the image the sector cannot be read.
     */
    method Ialloc(kind: U16) returns (ok: bool, inum: nat)
      requires Valid()
      modifies this`img, this`freeinode
      ensures inum == old(freeinode) && freeinode == inum + 1 && (ok <==> IBlock(inum) < FSSIZE)
      ensures ok ==> img == old(img)[IBlock(inum) := InodeInto(old(img)[IBlock(inum)], inum, NewDinode(kind))]
      ensures inum < ISLOTS ==> Valid() && ok && OthersKept(old(img), img, inum)
      ensures inum < ISLOTS ==> InodeAt(img, inum) == NewDinode(kind) && Contents(img, inum) == []
      ensures SameFront(old(img), img)
    {
      hide SameFront;
      hide InodeAt, FsInv, Contents, InodeInto, OthersKept, ClearFrom, ClearInode, IBlock, WithInode;
      FrontSame(img, INODESTART, img[INODESTART]);
      inum := freeinode;
      freeinode := freeinode + 1;
      if IBlock(inum) >= FSSIZE {
        return false, inum;
      }
      var din := ClearInode();
      din := din.(kind := kind, nlink := 1, size := 0);
      if inum < ISLOTS {
        AllocatedInode(img, freeblock, inum, kind);
      }
      Winode(inum, din);
      ok := true;
    }

    /** Marks the blocks below used. The image counts exactly those as metadata or as held by a file. */
    method Balloc(used: nat)
      requires Pointers(img, freeblock) && used == freeblock < BSIZE * 8
      modifies this`img
      ensures SameFiles(old(img), img) && Pointers(img, freeblock)
      ensures forall b :: 0 <= b < FSSIZE ==> (BitOf(img[BMAPSTART], b) <==> b < NMETA || Held(img, b))
      ensures IsBitmap(img[BMAPSTART], used) && SameFront(old(img), img)
    {
      var buf: seq<Byte> := Zeroes();
      forall b | 0 <= b < BSIZE * 8
        ensures !Bit(buf[b / 8], b % 8)
      {
        NoBit(b % 8);
      }
      for i := 0 to used
        invariant |buf| == BSIZE
        invariant forall b :: 0 <= b < BSIZE * 8 ==> (Bit(buf[b / 8], b % 8) <==> b < i)
      {
        ghost var was := buf;
        buf := buf[i / 8 := SetBitOf(buf[i / 8], i % 8)];
        forall b | 0 <= b < BSIZE * 8
          ensures Bit(buf[b / 8], b % 8) <==> b < i + 1
        {
          SetBitReads(was[i / 8], i % 8, b % 8);
          assert b == i <==> b / 8 == i / 8 && b % 8 == i % 8;
        }
      }
      assert IsBitmap(buf, used);
      MetaBlock(img, freeblock, BMAPSTART, buf);
      SameAllocated(img, img[BMAPSTART := buf], freeblock);
      img := img[BMAPSTART := buf];
      HeldBelow(img, freeblock);
    }

    /**
     ialloc and balloc with the inode blocks full: inode 208 shares its sector with the
     bitmap, which balloc writes afresh. What then stands in its place depends on
     freeblock alone.
     */
    method LoseInode(kind: U16)
      requires Valid() && freeinode == ISLOTS
      modifies this`img, this`freeinode
      ensures IBlock(ISLOTS) == BMAPSTART && IsBitmap(img[BMAPSTART], freeblock) && SameFiles(old(img), img)
      ensures forall s: Sector :: IsBitmap(s, freeblock) ==> InodeIn(img[BMAPSTART], ISLOTS) == InodeIn(s, ISLOTS)
      ensures var d := InodeIn(img[BMAPSTART], ISLOTS); d.kind == d.major == d.minor == 0xFFFF && d != NewDinode(kind)
    {
      hide FsInv, Pointers, Unused, ClearFrom, InodeAt, InodeIn, InodeInto, IsBitmap, SamePtr, SameData;
      SoundBound(img, freeblock);
      ghost var v := img;
      var _, inum := Ialloc(kind);
      ghost var w := img;
      MetaBlock(v, freeblock, BMAPSTART, w[BMAPSTART]);
      SameAllocated(v, w, freeblock);
      Balloc(freeblock);
      SameTwice(v, w, img);
      BitmapTakesInode(img[BMAPSTART], freeblock, kind);
      forall s: Sector | IsBitmap(s, freeblock)
        ensures InodeIn(img[BMAPSTART], ISLOTS) == InodeIn(s, ISLOTS)
      {
        OneBitmap(img[BMAPSTART], s, freeblock);
      }
    }

    /** main's correction of the root directory's size. */
    method RoundRoot()
      requires Valid() && RoundedUp(RootSize()) <= MAXFILE * BSIZE
      modifies this`img
      ensures Pointers(img, freeblock) && Unused(img, freeblock) && OthersKept(old(img), img, ROOTINO)
      ensures img == WithInode(old(img), ROOTINO, old(InodeAt(img, ROOTINO)).(size := old(RoundedUp(RootSize()))))
      ensures FsInv(img, freeblock) <==> old(RootSize()) % BSIZE != 0
      ensures SameFront(old(img), img)
    {
      hide FsInv, InodeAt, WithInode, OthersKept, Pointers, Unused, ClearFrom, SizedAt, ZeroFrom, SamePtr, SameData;
      var din := Rinode(ROOTINO);
      var off := din.size;
      off := (off / BSIZE + 1) * BSIZE;
      RoundedSize(img, freeblock, ROOTINO);
      Reinoded(img, freeblock, ROOTINO, din.(size := off));
      Winode(ROOTINO, din.(size := off));
    }

    /** main's loop body: a host file becomes a fresh inode and an entry of the root directory. */
    method AddFile(name: seq<Byte>, data: seq<Byte>) returns (out: Outcome, inum: nat)
      requires Valid() && ROOTINO < freeinode
      modifies this
      ensures inum == old(freeinode) && old(RootSize()) <= MAXFILE * BSIZE
      ensures out == Spoiled <==> NoSlash(name) && inum >= ISLOTS
      ensures out == Spoiled && inum == ISLOTS ==>
                SameFiles(old(img), img) && InodeIn(img[BMAPSTART], ISLOTS) == NewDinode(T_FILE)
      ensures out == Built <==>
              && NoSlash(name) && inum < ISLOTS && old(RootSize()) + DIRENTSIZE <= MAXFILE * BSIZE && |data| <= MAXFILE * BSIZE
              && old(FreeAfter(ROOTINO, DIRENTSIZE)) + Blocks(|data|) <= FSSIZE
      ensures out == Built ==> Valid() && freeinode == inum + 1 && InodeAt(img, inum).size <= MAXFILE * BSIZE
      ensures out == Built ==> RootSize() <= MAXFILE * BSIZE && Contents(img, inum) == data && IsKind(InodeAt(img, inum), T_FILE)
      ensures out == Built && old(IsKind(InodeAt(img, ROOTINO), T_DIR)) ==> IsKind(InodeAt(img, ROOTINO), T_DIR)
      ensures SameFront(old(img), img)
      ensures out == Built ==> Contents(img, ROOTINO) == old(Contents(img, ROOTINO)) + Dirent(inum, Stripped(name))
      ensures out == Built ==> KeptBut(old(img), img, ROOTINO, inum)
      ensures out == Built ==> freeblock == old(FreeAfter(ROOTINO, DIRENTSIZE)) + Blocks(|data|)
    {
      hide FsInv, InodeAt, InodeIn, ClearFrom, Contents, Blocks, InodeInto, SameFiles, Pointers, Unused, IBlock, SameFront;
      FrontSame(img, INODESTART, img[INODESTART]);
      SizeFits(img, freeblock, ROOTINO);
      SoundBound(img, freeblock);
      var slash := HasSlash(name);
      if slash {
        return GaveUp, freeinode;
      }
      if freeinode == ISLOTS { InBitmapSector(img, freeblock, T_FILE); }
      var ok;
      ok, inum := Ialloc(T_FILE);
      if inum >= ISLOTS {
        return Spoiled, inum;
      }
      out := GaveUp;
      assert KeptBut(old(img), img, ROOTINO, inum) && Blocks(0) == 0 by { ZeroBlocks(); }
      ghost var was := img;
      ok := Iappend(ROOTINO, Dirent(inum, Stripped(name)));
      FrontTwice(old(img), was, img);
      if !ok {
        return;
      }
      KeptBoth(old(img), was, img, ROOTINO, inum);
      was := img;
      ok := AddData(inum, data);
      FrontTwice(old(img), was, img);
      if ok {
        KeptBoth(old(img), was, img, ROOTINO, inum);
        out := Built;
      }
    }

    /** index(name, '/'). */
    method HasSlash(name: seq<Byte>) returns (slash: bool)
      ensures slash <==> !NoSlash(name)
    {
      var i := 0;
      while i < |name| && name[i] != SLASH
        invariant i <= |name| && NoSlash(name[..i])
      {
        i := i + 1;
      }
      assert name[..|name|] == name;
      slash := i < |name|;
    }

    /** The copying loop of main: a new file's bytes, a block at a time. */
    method AddData(inum: nat, data: seq<Byte>) returns (ok: bool)
      requires Valid() && inum < freeinode && InodeAt(img, inum).size == 0
      modifies this`img, this`freeblock
      ensures ok <==> |data| <= MAXFILE * BSIZE && old(freeblock) + Blocks(|data|) <= FSSIZE
      ensures ok ==> Valid() && freeblock == old(freeblock) + Blocks(|data|)
      ensures ok ==> InodeAt(img, inum).size <= MAXFILE * BSIZE && Contents(img, inum) == data && OthersKept(old(img), img, inum)
      ensures ok ==>
                InodeAt(img, inum) == old(InodeAt(img, inum)).(size := InodeAt(img, inum).size, addrs := InodeAt(img, inum).addrs)
      ensures SameFront(old(img), img)
    {
      hide FsInv, InodeAt, ClearFrom, Contents, Blocks, OthersKept, SameFront;
      FrontSame(img, INODESTART, img[INODESTART]);
      ZeroBlocks();
      OthersSame(img, freeblock, inum);
      var done := 0;
      while done < |data|
        invariant done <= |data| && Valid() && InodeAt(img, inum).size <= MAXFILE * BSIZE && Contents(img, inum) == data[..done]
        invariant OthersKept(old(img), img, inum) && freeblock == old(freeblock) + Blocks(done) && SameFront(old(img), img)
        invariant InodeAt(img, inum) == old(InodeAt(img, inum)).(size := InodeAt(img, inum).size, addrs := InodeAt(img, inum).addrs)
      {
        var cc := if |data| - done < BSIZE then |data| - done else BSIZE;
        BlocksGrow(done + cc, |data|);
        ghost var was := img;
        ok := Iappend(inum, data[done..done + cc]);
        FrontTwice(old(img), was, img);
        if !ok {
          return;
        }
        OthersTwice(old(img), was, img, inum);
        assert data[..done + cc] == data[..done] + data[done..done + cc];
        done := done + cc;
      }
      assert data[..done] == data;
      SoundBound(img, freeblock);
      SizeFits(img, freeblock, inum);
      ok := true;
    }

    ghost function RootSize(): nat
      reads this
    {
      InodeAt(img, ROOTINO).size
    }

    /** main's first steps: the root inode and its own two entries. */
    method MakeRoot()
      requires Valid() && freeinode == ROOTINO && freeblock < FSSIZE
      modifies this
      ensures Valid() && freeinode == ROOTINO + 1 && IsKind(InodeAt(img, ROOTINO), T_DIR)
      ensures Contents(img, ROOTINO) == Dirent(ROOTINO, DOT) + Dirent(ROOTINO, DOT + DOT)
      ensures freeblock == old(freeblock) + 1 && SameFront(old(img), img)
    {
      hide FsInv, InodeAt, ClearFrom, Contents, Dirent, InodeInto, SameFront;
      var _, rootino := Ialloc(T_DIR);
      ghost var one := img;
      var _ := Iappend(rootino, Dirent(rootino, DOT));
      ghost var two := img;
      var _ := Iappend(rootino, Dirent(rootino, DOT + DOT));
      FrontTwice(old(img), one, two);
      FrontTwice(old(img), two, img);
    }

    /** main's loop over the host files. */
    method Populate(files: seq<HostFile>) returns (out: Outcome)
      requires Valid() && freeinode == ROOTINO && freeblock == NMETA
      modifies this
      ensures out == Expected(files)
      ensures out == Built ==> Valid() && freeinode == |files| + 2
      ensures out == Built ==> InodeAt(img, ROOTINO).size <= MAXFILE * BSIZE && Contents(img, ROOTINO) == Listing(files)
      ensures out == Built ==> Filled(img, files) && freeblock == Needed(files) && IsKind(InodeAt(img, ROOTINO), T_DIR)
      ensures out == Spoiled ==> HalfDone(img, files)
      ensures SameFront(old(img), img)
    {
      hide FsInv, InodeAt, ClearFrom, Contents, Blocks, Dirent, DataBlocks, SameFront, NoSlash, IsKind;
      hide Listing, KeptBut, Filled, Fit, SameFiles, HalfDone, InodeIn, Pointers;
      NoFiles(files);
      MakeRoot();
      for n := 0 to |files|
        invariant n <= ISLOTS - 2 && Valid() && freeinode == n + 2 && InodeAt(img, ROOTINO).size <= MAXFILE * BSIZE
        invariant Contents(img, ROOTINO) == Listing(files[..n])
        invariant Filled(img, files[..n])
        invariant Fit(files[..n]) && freeblock == Needed(files[..n])
        invariant IsKind(InodeAt(img, ROOTINO), T_DIR) && SameFront(old(img), img)
      {
        PrefixFits(files, n);
        SoundBound(img, freeblock);
        ghost var was, free := img, freeblock;
        var added, _ := AddFile(files[n].name, files[n].data);
        FrontTwice(old(img), was, img);
        if added != Built {
          if added == Spoiled { HalfIsDone(was, img, free, files); }
          return added;
        }
        FilledMore(was, img, files, n);
      }
      assert files[..|files|] == files;
      out := Built;
    }

    /**
     main: the image of a list of host files, the root directory's size rounded up, and the
     bitmap. The rounding is right unless the entries fill their last block.
     */
    method Build(files: seq<HostFile>) returns (out: Outcome)
      requires Valid() && freeinode == ROOTINO && freeblock == NMETA
      modifies this
      ensures out == Expected(files)
      ensures out == Built ==> Pointers(img, freeblock) && Unused(img, freeblock) && freeinode == |files| + 2
      ensures out == Built ==> (FsInv(img, freeblock) <==> (|files| + 2) % 32 != 0)
      ensures out == Built ==> IsRoot(img, files) && Filled(img, files) && freeblock == Needed(files)
      ensures out == Built ==> forall b :: 0 <= b < FSSIZE ==> (BitOf(img[BMAPSTART], b) <==> b < NMETA || Held(img, b))
      ensures out == Spoiled ==> HalfDone(img, files)
      ensures SameFront(old(img), img)
    {
      hide FsInv, InodeAt, ClearFrom, Contents, Blocks, DataBlocks, Listing, SameFront;
      hide BitOf, Held, Filled, Pointers, Unused, IsRoot, OthersKept, HalfDone;
      out := Populate(files);
      if out != Built {
        return;
      }
      ghost var v := img;
      RoundRoot();
      ghost var w := img;
      FrontTwice(old(img), v, w);
      RootIsListed(v, w, freeblock, files);
      FilledOthers(v, w, files);
      Balloc(freeblock);
      FrontTwice(old(img), w, img);
      SoundBoth(w, img, freeblock);
      UnusedSame(w, img, freeblock);
      RootKept(w, img, freeblock, files);
      FilledSame(w, img, freeblock, files);
    }
  }

  /** Where the first inode behind the inode blocks would be, a bitmap has only ones at first. */
  lemma BitmapTakesInode(s: Sector, used: nat, kind: U16)
    requires NMETA <= used <= BSIZE * 8 && IsBitmap(s, used)
    ensures var d := InodeIn(s, ISLOTS); d.kind == d.major == d.minor == 0xFFFF && d != NewDinode(kind)
  {
    forall k | 0 <= k < 6
      ensures s[k] == 255
    {
      forall j | 0 <= j < 8
        ensures Bit(s[k], j)
      {
        assert BitOf(s, 8 * k + j);
      }
      Pow8();
      AllBits(s[k], 8);
    }
    var t := s[0..64];
    assert s[2] == 255 && s[3] == 255 && s[4] == 255 && s[5] == 255;
    assert t[0..2] == s[0..2] && t[2..4] == s[2..4] && t[4..6] == s[4..6];
  }

  lemma SameTwice(u: Image, v: Image, w: Image)
    requires SameFiles(u, v) && SameFiles(v, w)
    ensures SameFiles(u, w)
  {
    hide InodeAt, Ptr;
  }

  /** Thirty files, with the root's own two entries, fill a block: the finished image is not sound. */
  method ThirtyFiles() returns (b: Builder, files: seq<HostFile>, out: Outcome)
    ensures |files| == 30 && (forall k :: 0 <= k < 30 ==> files[k].data == []) && out == Built
    ensures IsRoot(b.img, files) && Filled(b.img, files) && Pointers(b.img, b.freeblock) && !FsInv(b.img, b.freeblock)
  {
    b := new Builder();
    files := seq(30, _ => HostFile([], []));
    NoData(files);
    hide FsInv, Pointers, InodeAt, IsRoot, Filled;
    out := b.Build(files);
  }

  /** The 207th file gets the first inode outside the inode blocks. */
  method ManyFiles() returns (b: Builder, files: seq<HostFile>, out: Outcome)
    ensures |files| == 207 && (forall k :: 0 <= k < 207 ==> files[k].data == []) && out == Spoiled && HalfDone(b.img, files)
  {
    b := new Builder();
    files := seq(207, _ => HostFile([], []));
    NoData(files[..206]);
    hide FsInv, Pointers, InodeAt, IsRoot, Filled, HalfDone;
    out := b.Build(files);
  }

  lemma {:induction false} NoData(files: seq<HostFile>)
    requires forall k :: 0 <= k < |files| ==> files[k].data == []
    ensures DataBlocks(files) == 0
  {
    if files != [] { NoData(files[..|files| - 1]); }
  }
}
