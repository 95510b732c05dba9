/** How many buffers bget needs: those pinned, those referred to, and one to recycle. */
module CacheRoom {
  import opened Options
  import opened Sequences
  import opened BufferCache
  import B = SharedCache

  /** Buffers among the first n that bget may not recycle. */
  function Busy(bufs: seq<Buf>, n: nat): nat
    requires n <= |bufs|
  {
    if n == 0 then 0 else Busy(bufs, n - 1) + if Eligible(bufs, n - 1) then 0 else 1
  }

  /** The blocks of the dirty ones among them. */
  function DirtyBlocks(bufs: seq<Buf>, n: nat): set<nat>
    requires n <= |bufs|
  {
    if n == 0 then {}
    else DirtyBlocks(bufs, n - 1) + if bufs[n - 1].dirty && bufs[n - 1].block.Some? then {bufs[n - 1].block.value} else {}
  }

  lemma {:induction false} DirtyBlocksAre(bufs: seq<Buf>, n: nat, x: nat)
    requires n <= |bufs| && x in DirtyBlocks(bufs, n)
    ensures exists i :: 0 <= i < n && bufs[i].dirty && bufs[i].block == Some(x)
  {
    if !(bufs[n - 1].dirty && bufs[n - 1].block == Some(x)) { DirtyBlocksAre(bufs, n - 1, x); }
  }

  function RefsBelow(refs: set<B.Ref>, n: nat): set<B.Ref> {
    set r | r in refs && r.buf < n
  }

  /** Each of them is dirty, under a block of its own, or referred to. */
  lemma {:induction false} BusyAtMost(m: B.Bio, n: nat)
    requires B.Inv(m) && n <= |m.cache.bufs|
    ensures Busy(m.cache.bufs, n) <= |RefsBelow(m.refs, n)| + |DirtyBlocks(m.cache.bufs, n)|
  {
    hide B.Inv, RefsBelow, DirtyBlocks;
    if n == 0 {
      assert Busy(m.cache.bufs, 0) == 0;
    } else {
      BusyAtMost(m, n - 1);
      RefsGrow(m.refs, n - 1);
      DirtyGrow(m.cache.bufs, n - 1);
      if m.cache.bufs[n - 1].dirty {
        DirtyCounts(m, n - 1);
      } else if m.cache.bufs[n - 1].refcnt > 0 {
        RefCounts(m, n - 1);
      }
    }
  }

  lemma RefsGrow(refs: set<B.Ref>, b: nat)
    ensures |RefsBelow(refs, b)| <= |RefsBelow(refs, b + 1)|
  {
    SubsetSize(RefsBelow(refs, b), RefsBelow(refs, b + 1));
  }

  lemma DirtyGrow(bufs: seq<Buf>, b: nat)
    requires b < |bufs|
    ensures |DirtyBlocks(bufs, b)| <= |DirtyBlocks(bufs, b + 1)|
  {
    SubsetSize(DirtyBlocks(bufs, b), DirtyBlocks(bufs, b + 1));
  }

  lemma DirtyCounts(m: B.Bio, b: nat)
    requires B.Inv(m) && b < |m.cache.bufs| && m.cache.bufs[b].dirty
    ensures |DirtyBlocks(m.cache.bufs, b + 1)| == |DirtyBlocks(m.cache.bufs, b)| + 1
  {
    var x := m.cache.bufs[b].block.value;
    if x in DirtyBlocks(m.cache.bufs, b) {
      DirtyBlocksAre(m.cache.bufs, b, x);
    }
  }

  lemma RefCounts(m: B.Bio, b: nat)
    requires B.Inv(m) && b < |m.cache.bufs| && m.cache.bufs[b].refcnt > 0
    ensures |RefsBelow(m.refs, b + 1)| > |RefsBelow(m.refs, b)|
  {
    assert |B.RefsTo(m.refs, b)| > 0;
    var r :| r in B.RefsTo(m.refs, b);
    SubsetSize(RefsBelow(m.refs, b) + {r}, RefsBelow(m.refs, b + 1));
  }

  lemma {:induction false} AllTaken(bufs: seq<Buf>, n: nat)
    requires n <= |bufs| && forall b :: 0 <= b < n ==> !Eligible(bufs, b)
    ensures Busy(bufs, n) == n
  {
    if n > 0 { AllTaken(bufs, n - 1); }
  }

  /** With more buffers than pinned blocks and references, bget always finds one to recycle. */
  lemma EnoughBuffers(m: B.Bio)
    requires B.Inv(m) && |B.Abs(m).pinned| + |m.refs| < |m.cache.bufs|
    ensures exists b :: 0 <= b < |m.cache.bufs| && Eligible(m.cache.bufs, b)
  {
    var n := |m.cache.bufs|;
    BusyAtMost(m, n);
    SubsetSize(RefsBelow(m.refs, n), m.refs);
    forall x | x in DirtyBlocks(m.cache.bufs, n)
      ensures x in B.Abs(m).pinned
    {
      DirtyBlocksAre(m.cache.bufs, n, x);
      var i :| 0 <= i < n && m.cache.bufs[i].dirty && m.cache.bufs[i].block == Some(x);
      B.LookIs(m.cache.bufs, x, i);
    }
    SubsetSize(DirtyBlocks(m.cache.bufs, n), B.Abs(m).pinned);
    if forall b :: 0 <= b < n ==> !Eligible(m.cache.bufs, b) {
      AllTaken(m.cache.bufs, n);
    }
  }

  // ---- when there is none ----

  lemma {:induction false} DirtyAtMost(bufs: seq<Buf>, n: nat)
    requires n <= |bufs|
    ensures |DirtyBlocks(bufs, n)| <= n
  {
    if n > 0 { DirtyAtMost(bufs, n - 1); }
  }

  /** With a clean buffer among them, fewer blocks are dirty than there are buffers. */
  lemma {:induction false} DirtyFewer(bufs: seq<Buf>, n: nat, i: nat)
    requires i < n <= |bufs| && !bufs[i].dirty
    ensures |DirtyBlocks(bufs, n)| < n
  {
    if i == n - 1 {
      DirtyAtMost(bufs, n - 1);
    } else {
      DirtyFewer(bufs, n - 1, i);
    }
  }

  lemma {:induction false} DirtyBlocksHave(bufs: seq<Buf>, n: nat, i: nat)
    requires i < n <= |bufs| && bufs[i].dirty && bufs[i].block.Some?
    ensures bufs[i].block.value in DirtyBlocks(bufs, n)
  {
    if i < n - 1 { DirtyBlocksHave(bufs, n - 1, i); }
  }

  /** Pinned blocks are in dirty buffers of their own. */
  lemma PinnedAreDirty(m: B.Bio)
    requires B.Inv(m)
    ensures |B.Abs(m).pinned| <= |DirtyBlocks(m.cache.bufs, |m.cache.bufs|)| <= |m.cache.bufs|
  {
    var n := |m.cache.bufs|;
    forall x | x in B.Abs(m).pinned
      ensures x in DirtyBlocks(m.cache.bufs, n)
    {
      DirtyBlocksHave(m.cache.bufs, n, B.Look(m.cache.bufs, x).value);
    }
    SubsetSize(B.Abs(m).pinned, DirtyBlocks(m.cache.bufs, n));
    DirtyAtMost(m.cache.bufs, n);
  }

  /** As many pinned blocks as buffers leave no clean buffer. */
  lemma AllDirty(m: B.Bio, i: nat)
    requires B.Inv(m) && |m.cache.bufs| <= |B.Abs(m).pinned| && i < |m.cache.bufs|
    ensures m.cache.bufs[i].dirty
  {
    PinnedAreDirty(m);
    if !m.cache.bufs[i].dirty {
      DirtyFewer(m.cache.bufs, |m.cache.bufs|, i);
    }
  }

  /**
   Exactly when bget finds a buffer for a block that is not pinned, nothing being
   held: when fewer blocks are pinned than there are buffers.
   */
  lemma RoomExact(m: B.Bio, x: nat)
    requires B.Inv(m) && m.refs == {} && x < |m.disk| && x !in B.Abs(m).pinned
    ensures Cached(m.cache.bufs, x) || (exists b :: 0 <= b < |m.cache.bufs| && Eligible(m.cache.bufs, b))
       <==> |B.Abs(m).pinned| < |m.cache.bufs|
  {
    if |B.Abs(m).pinned| < |m.cache.bufs| {
      EnoughBuffers(m);
    } else {
      forall i: nat | i < |m.cache.bufs|
        ensures m.cache.bufs[i].dirty && m.cache.bufs[i].block != Some(x)
      {
        AllDirty(m, i);
        DirtyIsPinned(m, i);
      }
    }
  }

  lemma DirtyIsPinned(m: B.Bio, i: nat)
    requires B.Inv(m) && i < |m.cache.bufs| && m.cache.bufs[i].dirty
    ensures m.cache.bufs[i].block.Some? && m.cache.bufs[i].block.value in B.Abs(m).pinned
  {
    B.LookIs(m.cache.bufs, m.cache.bufs[i].block.value, i);
  }
}
