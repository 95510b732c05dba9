/** The stock option type. */
module Options {
  datatype Option<+T> = None | Some(value: T)
}

/** Sequences without repetition, the set of a sequence's elements, and how large sets are. */
module Sequences {
  predicate Distinct<T(==)>(s: seq<T>) {
    forall i, j :: 0 <= i < j < |s| ==> s[i] != s[j]
  }

  function SetOf(s: seq<nat>): set<nat> {
    set x | x in s
  }

  lemma {:induction false} SubsetSize<T>(a: set<T>, b: set<T>)
    requires a <= b
    ensures |a| <= |b|
  {
    assert |b| == |a| + |b - a| by { assert b == a + (b - a); }
  }

  lemma {:induction false} SetOfSize(s: seq<nat>)
    ensures |SetOf(s)| <= |s|
    ensures Distinct(s) ==> |SetOf(s)| == |s|
  {
    if s != [] {
      var n := |s| - 1;
      SetOfSize(s[..n]);
      assert SetOf(s) == SetOf(s[..n]) + {s[n]};
    }
  }
}

/** Values of a char. */
module Bytes {
  type Byte = b: int | 0 <= b < 256
}

/** Build-time constants and on-disk layout that the storage stack is parameterised by. */
module Params {
  datatype Config = Config(
    logsize: nat,   // LOGSIZE: most data blocks in one transaction
    maxop: nat,     // MAXOPBLOCKS: most distinct blocks one operation logs
    nbuf: nat,      // NBUF: buffers in the cache
    nproc: nat,     // processes that may enter the file system
    start: nat,     // log.start: the header block
    size: nat,      // log.size: header plus data blocks of the log area
    disksize: nat)  // blocks on the disk

  /** The values of param.h, with the layout mkfs gives them. */
  const REPOSITORY := Config(30, 10, 30, 64, 2, 30, 1000)
}

/** Disk blocks, seen as the 32-bit words that struct logheader overlays. */
module Blocks {
  const WORDS := 128  // BSIZE / sizeof(int)

  type Block = b: seq<int> | |b| == WORDS witness seq(WORDS, _ => 0)

  type Disk = seq<Block>

  function Zero(): Block {
    seq(WORDS, _ => 0)
  }
}
