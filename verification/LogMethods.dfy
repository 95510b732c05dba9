/**
 The functions of log.c as they run, over the buffer cache of module BufferRing.
 Every disk write adds to the cache's `hist`, so that a contract can speak of
 the disk a crash would leave after each of them.
 */
module LogMethods {
  import opened Sequences
  import opened Params
  import opened Blocks
  import opened LogDisk
  import opened BufferCache
  import opened BufferRing
  import opened CacheRoom
  import B = SharedCache
  import G = GroupCommit
  import S = BlockStore

  /** No buffer is held: what commit and recovery start from. */
  ghost predicate AtRest(cache: Bcache)
    reads cache
  {
    cache.bio.refs == {} && cache.Store().locked == map[] && cache.Store().open == {}
  }

  class KernelLog {
    const c: Config
    const cache: Bcache
    const block: array<nat>  // log.lh.block
    var n: nat               // log.lh.n
    var outstanding: int
    var committing: bool

    ghost predicate Valid()
      reads this, block, cache, cache.bufs, cache.next, cache.prev
    {
      && cache.Valid() && WfConfig(c) && |cache.disk| == c.disksize
      && block.Length == c.logsize && n <= c.logsize
      && block != cache.next && block != cache.prev
    }

    /** initlog before it calls recover_from_log; struct log starts zeroed. */
    constructor (c: Config, cache: Bcache)
      requires cache.Valid() && WfConfig(c) && |cache.disk| == c.disksize
      ensures Valid() && this.c == c && this.cache == cache && n == 0 && outstanding == 0 && !committing
      ensures fresh(block)
    {
      this.c := c;
      this.cache := cache;
      block := new nat[c.logsize](_ => 0);
      n := 0;
      outstanding := 0;
      committing := false;
    }

    /** The logged blocks. */
    ghost function Lh(): seq<nat>
      requires n <= block.Length
      reads this, block
    {
      block[..n]
    }

    /** write_head: one disk write puts the in-memory header on disk. */
    method WriteHead()
      requires Valid() && AtRest(cache) && |cache.Store().pinned| < cache.bufs.Length && c.start !in cache.Store().pinned
      modifies cache, cache.bufs, cache.next, cache.prev
      ensures Valid() && AtRest(cache) && cache.Store().pinned == old(cache.Store().pinned)
      ensures cache.disk == WithHead(c, old(cache.disk), Lh())
      ensures cache.Store().val == old(cache.Store().val)[c.start := cache.disk[c.start]]
      ensures cache.hist == old(cache.hist) + [cache.disk]
    {
      hide Fetches, Gives, B.Modify, B.Bwrite, ToFront;
      hide B.Inv, B.Abs, B.Has, PutHead, Bcache.Valid, Bcache.HasRoom, S.StoreStep, S.StoreInv;
      StoreFacts(cache);
      FirstRoom(cache, c.start);
      ghost var s0 := cache.Store();
      var b := cache.Bread(c.start);
      ghost var s1 := cache.Store();
      var data := cache.bufs[b].data;
      ghost var was := data;
      data := data[0 := n];
      for i := 0 to n
        invariant |data| == WORDS && data[0] == n
        invariant forall j :: 1 <= j <= i ==> data[j] == block[j - 1]
        invariant forall j :: 1 + i <= j < WORDS ==> data[j] == was[j]
      {
        data := data[1 + i := block[i]];
      }
      HeadBuilt(was, Lh(), data);
      cache.SetData(b, c.start, data);
      ghost var s2 := cache.Store();
      cache.Bwrite(b, c.start);
      ghost var s3 := cache.Store();
      WriteOne(s0, s1, s2, s3, c.start, data);
      cache.Brelse(b, c.start);
      LetGo(s3, cache.Store(), c.start);
      StoreFacts(cache);
    }

    /** install_trans: each logged block is copied from the log to its home, one disk write each. */
    method InstallTrans()
      requires Valid() && AtRest(cache) && WfHead(c, Lh())
      requires (cache.Store().pinned == SetOf(Lh()) && n < cache.bufs.Length)
               || (cache.Store().pinned == {} && 2 <= cache.bufs.Length)
      modifies cache, cache.bufs, cache.next, cache.prev
      ensures Valid() && AtRest(cache) && cache.Store().pinned == {}
      ensures cache.disk == Install(c, old(cache.disk), Lh(), n)
      ensures cache.hist == old(cache.hist) + InstallTrace(c, old(cache.disk), Lh(), n)
    {
      hide B.Inv, B.Abs, Bcache.Valid, Bcache.HasRoom, S.StoreStep, S.StoreInv, WfHead, Install, InstallTrace, SetOf;
      ghost var lh, d0, h0 := Lh(), cache.disk, cache.hist;
      InstallNone(c, d0, lh);
      ghost var commit := cache.Store().pinned != {};
      assert lh[0..] == lh;
      for t := 0 to n
        invariant Valid() && AtRest(cache) && n == |lh| && Lh() == lh
        invariant cache.Store().pinned == if commit then SetOf(lh[t..]) else {}
        invariant cache.disk == Install(c, d0, lh, t)
        invariant cache.hist == h0 + InstallTrace(c, d0, lh, t)
      {
        PinnedTail(c, lh, t);
        LoggedBlock(c, lh, t);
        InstallStep(c, d0, lh, t);
        StoreFacts(cache);
        NotPinnedIsOnDisk(cache.Store(), Slot(c, t));
        CopyBlock(cache, Slot(c, t), block[t], Slot(c, t), block[t]);
      }
      assert lh[n..] == [];
      SetOfNone();
    }

    /** write_log: each logged block is copied from the cache to the log, one disk write each. */
    method WriteLog()
      requires Valid() && AtRest(cache) && WfHead(c, Lh())
      requires cache.Store().pinned == SetOf(Lh()) && n < cache.bufs.Length
      modifies cache, cache.bufs, cache.next, cache.prev
      ensures Valid() && AtRest(cache) && cache.Store().pinned == SetOf(Lh())
      ensures |old(cache.Store()).val| == c.disksize == |cache.Store().val|
      ensures cache.disk == LogWritten(c, old(cache.disk), Lh(), old(cache.Store()).val, n)
      ensures cache.hist == old(cache.hist) + LogTrace(c, old(cache.disk), Lh(), old(cache.Store()).val, n)
    {
      hide B.Inv, B.Abs, Bcache.Valid, Bcache.HasRoom, S.StoreStep, S.StoreInv, WfHead, LogWritten, LogTrace, SetOf;
      StoreFacts(cache);
      SameLength(cache.Store());
      ghost var lh, d0, h0, v := Lh(), cache.disk, cache.hist, cache.Store().val;
      LogNone(c, d0, lh, v);
      for t := 0 to n
        invariant Valid() && AtRest(cache) && n == |lh| && Lh() == lh
        invariant cache.Store().pinned == SetOf(lh)
        invariant |cache.Store().val| == |v| && forall x :: Home(c, x) ==> cache.Store().val[x] == v[x]
        invariant cache.disk == LogWritten(c, d0, lh, v, t)
        invariant cache.hist == h0 + LogTrace(c, d0, lh, v, t)
      {
        PinnedTail(c, lh, t);
        LoggedBlock(c, lh, t);
        LogStep(c, d0, lh, v, t);
        CopyBlock(cache, Slot(c, t), block[t], block[t], Slot(c, t));
        StoreFacts(cache);
      }
    }

    /** read_head: the header on disk becomes the one in memory. */
    method ReadHead()
      requires Valid() && AtRest(cache) && |cache.Store().pinned| < cache.bufs.Length && c.start !in cache.Store().pinned
      requires WfDisk(c, cache.disk)
      modifies this`n, block, cache, cache.bufs, cache.next, cache.prev
      ensures Valid() && AtRest(cache) && Lh() == Header(c, cache.disk)
      ensures cache.Store() == old(cache.Store()) && cache.disk == old(cache.disk) && cache.hist == old(cache.hist)
    {
      hide Fetches, Gives, B.Modify, B.Bwrite, ToFront;
      hide B.Inv, B.Abs, B.Has, Bcache.Valid, Bcache.HasRoom, S.StoreStep, S.StoreInv;
      StoreFacts(cache);
      FirstRoom(cache, c.start);
      NotPinnedIsOnDisk(cache.Store(), c.start);
      ghost var s0 := cache.Store();
      var b := cache.Bread(c.start);
      ghost var s1 := cache.Store();
      LockedOne(s0, s1, c.start);
      var data := cache.bufs[b].data;
      HeadIsThere(c, cache.disk);
      assert data == old(cache.disk)[c.start];
      n := data[0];
      for i := 0 to n
        invariant block[..i] == Header(c, old(cache.disk))[..i]
        modifies block
      {
        assert data[1..1 + n][i] == data[1 + i];
        block[i] := data[1 + i];
      }
      cache.Brelse(b, c.start);
      LetGo(s1, cache.Store(), c.start);
      StoreFacts(cache);
      assert Lh() == Header(c, old(cache.disk))[..n];
    }

    /**
     commit. It needs one buffer more than there are logged blocks. Recovering
     from the disk after any of its writes gives the old home blocks if the
     first write_head has not reached the disk, and all the new ones if it has.
     */
    method Commit()
      requires Valid() && AtRest(cache) && WfHead(c, Lh()) && IsHead(cache.disk[c.start], [])
      requires cache.Store().pinned == SetOf(Lh()) && n < cache.bufs.Length
      modifies this`n, cache, cache.bufs, cache.next, cache.prev
      ensures Valid() && AtRest(cache) && n == 0 && cache.Store().pinned == {}
      ensures IsHead(cache.disk[c.start], []) && |old(cache.Store()).val| == c.disksize == |cache.Store().val|
      ensures forall x :: Home(c, x) ==> cache.disk[x] == cache.Store().val[x] == old(cache.Store()).val[x]
      ensures old(cache.hist) <= cache.hist
      ensures |cache.hist| == |old(cache.hist)| + if old(n) > 0 then 2 * old(n) + 2 else 0
      ensures forall k :: |old(cache.hist)| <= k < |cache.hist| ==>
                            && WfDisk(c, cache.hist[k])
                            && var v := if k < |old(cache.hist)| + old(n) then old(cache.disk) else old(cache.Store()).val;
                            forall x :: Home(c, x) ==> Recover(c, cache.hist[k])[x] == v[x]
    {
      hide B.Inv, B.Abs, B.Has, Bcache.Valid, WfHead, HeadOf, PutHead;
      hide LogWritten, Install, Recover, LogTrace, InstallTrace, SetOf, S.StoreInv;
      ghost var lh, d0, h0, v := Lh(), cache.disk, cache.hist, cache.Store().val;
      StoreFacts(cache);
      OnlyLoggedDiffer(c, cache.Store(), lh);
      if n > 0 {
        LoggedBlock(c, lh, 0);
        HeadNotLogged(c, lh);
        WriteLog();
        WriteHead();
        InstallTrans();
        n := 0;
        WriteHead();
        assert Lh() == [];
        assert cache.hist == h0 + CommitTrace(c, d0, lh, v);
        forall k | 0 <= k < 2 * |lh| + 2
          ensures WfDisk(c, CommitTrace(c, d0, lh, v)[k])
          ensures forall x :: Home(c, x) ==>
                                Recover(c, CommitTrace(c, d0, lh, v)[k])[x] == if k < |lh| then d0[x] else v[x]
        {
          CommitTraceIs(c, d0, lh, v, k);
          CommitIsAtomic(c, d0, lh, v, k);
        }
        CommitTraceIs(c, d0, lh, v, 2 * |lh| + 1);
        CommitIsAtomic(c, d0, lh, v, 2 * |lh| + 1);
      }
      StoreFacts(cache);
      NothingPinned(cache.Store());
    }

    /**
     recover_from_log: the disk becomes exactly Recover of what it was, and the
     disk after each write on the way recovers to the same home blocks.
     */
    method RecoverFromLog()
      requires Valid() && AtRest(cache) && cache.Store().pinned == {} && 2 <= cache.bufs.Length
      requires WfDisk(c, cache.disk)
      modifies this`n, block, cache, cache.bufs, cache.next, cache.prev
      ensures Valid() && AtRest(cache) && n == 0 && cache.Store().pinned == {}
      ensures cache.disk == cache.Store().val == Recover(c, old(cache.disk))
      ensures old(cache.hist) <= cache.hist
      ensures forall k :: |old(cache.hist)| <= k < |cache.hist| ==>
                            WfDisk(c, cache.hist[k]) && forall x :: Home(c, x) ==>
                                                                      Recover(c, cache.hist[k])[x] == Recover(c, old(cache.disk))[x]
    {
      hide B.Inv, B.Abs, B.Has, Bcache.Valid, WfHead, HeadOf, PutHead, Install, Recover, InstallTrace, SetOf, S.StoreInv;
      ghost var d0, h0 := cache.disk, cache.hist;
      ghost var lh := Header(c, d0);
      ReadHead();
      InstallTrans();
      n := 0;
      WriteHead();
      assert Lh() == [];
      RecoverIsInstallThenClear(c, d0);
      RecoverTwice(c, d0);
      ghost var trace := InstallTrace(c, d0, lh, |lh|) + [cache.disk];
      assert cache.hist == h0 + trace;
      forall k | 0 <= k < |trace|
        ensures WfDisk(c, trace[k])
        ensures forall x :: Home(c, x) ==> Recover(c, trace[k])[x] == Recover(c, d0)[x]
      {
        if k < |lh| { RecoveryStaysDurable(c, d0, k + 1); }
      }
      StoreFacts(cache);
      NothingPinned(cache.Store());
    }

    /**
     log_write of a held buffer with block x; true means a panic. A block already
     in the log is absorbed, any other is appended, and either way it is pinned.
     */
    method LogWrite(b: nat, ghost x: nat) returns (panicked: bool)
      requires Valid() && B.Has(cache.bio, ME, b, x)
      modifies this`n, block, cache`bio, cache.bufs
      ensures Valid() && B.Has(cache.bio, ME, b, x)
      ensures panicked <==> old(n) >= c.logsize || old(n) >= c.size - 1 || outstanding < 1
      ensures panicked ==> Lh() == old(Lh()) && cache.bio == old(cache.bio)
      ensures !panicked ==> Lh() == G.Absorb(old(Lh()), x)
      ensures !panicked ==> S.StoreStep(old(cache.Store()), cache.Store(), S.Pin(ME, x))
    {
      if n >= c.logsize || n >= c.size - 1 || outstanding < 1 {
        return true;
      }
      hide B.Inv, B.Abs, S.StoreStep;
      var bn := cache.bufs[b].block.value;
      var i := 0;
      while i < n && block[i] != bn
        invariant 0 <= i <= n && bn !in block[..i]
      {
        i := i + 1;
      }
      ghost var lh := Lh();
      assert i < n ==> lh[i] == bn;
      block[i] := bn;
      if i == n {
        n := n + 1;
      }
      assert Lh() == G.Absorb(lh, bn);
      cache.SetDirty(b, x);
      return false;
    }

    /**
     One turn of begin_op's loop; true means that it goes to sleep. It does not, exactly if
     no commit runs and the log has room for the budgets of all operations and one more.
     */
    method BeginOp() returns (sleeps: bool)
      requires Valid()
      modifies this`outstanding
      ensures Valid() && (!sleeps <==> !committing && n + (old(outstanding) + 1) * c.maxop <= c.logsize)
      ensures outstanding == if sleeps then old(outstanding) else old(outstanding) + 1
      ensures !sleeps ==> n + outstanding * c.maxop <= c.logsize
    {
      if committing {
        return true;
      } else if n + (outstanding + 1) * c.maxop > c.logsize {
        return true;
      } else {
        outstanding := outstanding + 1;
        return false;
      }
    }

    /**
     end_op: the last operation commits; true means panic("log.committing"). The disk
     after each write recovers to the old home blocks or to the new ones, like commit's.
     `wakes` is the wakeup of those in begin_op, which comes last.
     */
    method EndOp() returns (panicked: bool, wakes: bool)
      requires Valid() && outstanding >= 1 && AtRest(cache) && WfHead(c, Lh()) && IsHead(cache.disk[c.start], [])
      requires cache.Store().pinned == SetOf(Lh()) && n < cache.bufs.Length
      modifies this`n, this`outstanding, this`committing, cache, cache.bufs, cache.next, cache.prev
      ensures Valid() && outstanding == old(outstanding) - 1
      ensures panicked <==> old(committing)
      ensures !panicked ==> !committing && wakes
      ensures |old(cache.Store()).val| == c.disksize
      ensures outstanding > 0 || panicked ==>
                n == old(n) && cache.bio == old(cache.bio) && cache.disk == old(cache.disk) && cache.hist == old(cache.hist)
      ensures outstanding == 0 && !panicked ==>
                && n == 0 && AtRest(cache) && cache.Store().pinned == {} && IsHead(cache.disk[c.start], [])
                && |cache.Store().val| == c.disksize
                && forall x :: Home(c, x) ==> cache.disk[x] == cache.Store().val[x] == old(cache.Store()).val[x]
      ensures old(cache.hist) <= cache.hist
      ensures |cache.hist| == |old(cache.hist)| + if outstanding == 0 && !panicked && old(n) > 0 then 2 * old(n) + 2 else 0
      ensures forall k :: |old(cache.hist)| <= k < |cache.hist| ==>
                            && WfDisk(c, cache.hist[k])
                            && var v := if k < |old(cache.hist)| + old(n) then old(cache.disk) else old(cache.Store()).val;
                            forall x :: Home(c, x) ==> Recover(c, cache.hist[k])[x] == v[x]
    {
      hide B.Inv, B.Abs, WfHead, HeadOf, Recover, SetOf;
      StoreFacts(cache);
      SameLength(cache.Store());
      outstanding := outstanding - 1;
      if committing {
        return true, false;
      }
      if outstanding == 0 {
        committing := true;
        Commit();
        committing := false;
      }
      return false, true;
    }
  }

  /**
   One round of write_log or install_trans: bread the log block l and the home
   block h, copy one over the other, bwrite it, brelse the source and then it.
   */
  method CopyBlock(cache: Bcache, l: nat, h: nat, src: nat, dst: nat)
    requires cache.Valid() && AtRest(cache) && l < |cache.disk| && h < |cache.disk| && l != h
    requires (src == l && dst == h) || (src == h && dst == l)
    requires (h in cache.Store().pinned && |cache.Store().pinned| < cache.bufs.Length)
             || (cache.Store().pinned == {} && 2 <= cache.bufs.Length)
    modifies cache, cache.bufs, cache.next, cache.prev
    ensures cache.Valid() && AtRest(cache)
    ensures cache.Store().disk == cache.disk && |old(cache.Store()).val| == |old(cache.disk)|
    ensures cache.Store().val == old(cache.Store()).val[dst := old(cache.Store()).val[src]]
    ensures cache.disk == old(cache.disk)[dst := old(cache.Store()).val[src]]
    ensures cache.Store().pinned == old(cache.Store()).pinned - {dst}
    ensures cache.hist == old(cache.hist) + [cache.disk]
  {
    hide Fetches, Gives, B.Modify, B.Bwrite, ToFront;
    hide B.Inv, B.Abs, B.Has, Bcache.Valid, Bcache.HasRoom, S.StoreStep, S.StoreInv;
    StoreFacts(cache);
    ghost var s0 := cache.Store();
    FirstRoom(cache, l);
    var lbuf := cache.Bread(l);
    ghost var s1 := cache.Store();
    SecondRoom(cache, s0, l, h);
    var hbuf := cache.Bread(h);
    ghost var s2 := cache.Store();
    var (to, from) := if dst == h then (hbuf, lbuf) else (lbuf, hbuf);
    HeldData(cache, from, src);
    var data := cache.bufs[from].data;
    cache.SetData(to, dst, data);
    ghost var s3 := cache.Store();
    cache.Bwrite(to, dst);
    ghost var s4 := cache.Store();
    CopyOne(s0, s1, s2, s3, s4, l, h, dst, data);
    cache.Brelse(from, src);
    ghost var s5 := cache.Store();
    StillClosed(s4, s5, src);
    cache.Brelse(to, dst);
    LetGoTwo(s4, s5, cache.Store(), src, dst);
    StoreFacts(cache);
  }

  lemma FirstRoom(cache: Bcache, x: nat)
    requires cache.Valid() && |cache.Store().pinned| + |cache.bio.refs| < cache.bufs.Length
    ensures cache.HasRoom(x)
  {
    EnoughBuffers(cache.bio);
  }

  /**
   Exactly how many buffers a commit needs: with the n logged blocks pinned and
   nothing held, its first bread finds a buffer if and only if n < NBUF.
   */
  lemma CommitRoomExact(cache: Bcache, c: Config, lh: seq<nat>)
    requires cache.Valid() && AtRest(cache) && WfConfig(c) && WfHead(c, lh) && lh != [] && |cache.disk| == c.disksize
    requires cache.Store().pinned == SetOf(lh)
    ensures cache.HasRoom(Slot(c, 0)) <==> |lh| < cache.bufs.Length
  {
    LoggedBlock(c, lh, 0);
    SetOfSize(lh);
    StoreFacts(cache);
    hide B.Inv, B.Abs, SetOf;
    RoomExact(cache.bio, Slot(c, 0));
  }

  lemma NotPinnedIsOnDisk(s: S.Store, x: nat)
    requires S.StoreInv(s) && s.open == {} && x < |s.disk| && x !in s.pinned
    ensures x < |s.val| && s.val[x] == s.disk[x]
  {
  }

  lemma StoreFacts(cache: Bcache)
    requires cache.Valid()
    ensures S.StoreInv(cache.Store()) && cache.Store().disk == cache.disk
  {
    B.AbsInv(cache.bio);
  }

  /** A block is locked, changed and written. */
  lemma WriteOne(s0: S.Store, s1: S.Store, s2: S.Store, s3: S.Store, x: nat, data: Block)
    requires S.StoreInv(s0) && s0.locked == map[] && s0.open == {} && x !in s0.pinned
    requires S.StoreStep(s0, s1, S.Lock(ME, x)) && S.StoreStep(s1, s2, S.Change(ME, x, data)) && S.StoreStep(s2, s3, S.Write(ME, x))
    ensures x < |s0.val| == |s0.disk| && s1.val[x] == s0.disk[x]
    ensures s3 == S.Store(s0.val[x := data], s0.disk[x := data], s0.pinned, map[x := ME], {})
  {
    assert s3.pinned == s0.pinned && s3.open == {};
  }

  lemma LetGo(s: S.Store, s': S.Store, x: nat)
    requires s.locked == map[x := ME] && S.StoreStep(s, s', S.Unlock(ME, x))
    ensures s' == s.(locked := map[])
  {
    assert s.locked - {x} == map[];
  }

  lemma HeadBuilt(was: Block, lh: seq<nat>, data: seq<int>)
    requires |lh| < WORDS && |data| == WORDS && data[0] == |lh|
    requires forall j :: 1 <= j <= |lh| ==> data[j] == lh[j - 1]
    requires forall j :: 1 + |lh| <= j < WORDS ==> data[j] == was[j]
    ensures data == PutHead(was, lh)
  {
    assert data == [|lh|] + lh + was[1 + |lh|..];
  }

  lemma HeldData(cache: Bcache, b: nat, x: nat)
    requires cache.Valid() && B.Has(cache.bio, ME, b, x)
    ensures b < cache.bufs.Length && x < |cache.Store().val| && cache.bufs[b].data == cache.Store().val[x]
  {
    B.BreadReturnsLatest(cache.bio, ME, b, x);
  }

  /** With one buffer held, a pinned block is found in the cache, and another gets a buffer if two are left. */
  lemma SecondRoom(cache: Bcache, s0: S.Store, l: nat, h: nat)
    requires cache.Valid() && S.StoreStep(s0, cache.Store(), S.Lock(ME, l)) && |cache.bio.refs| == 1
    requires h in s0.pinned || (s0.pinned == {} && 2 <= cache.bufs.Length)
    requires s0.locked == map[] && l != h
    ensures cache.HasRoom(h) && h !in cache.Store().locked
  {
    if h !in s0.pinned { EnoughBuffers(cache.bio); }
  }

  /** Two blocks are locked, and one of them is overwritten with the other and written. */
  lemma CopyOne(s0: S.Store, s1: S.Store, s2: S.Store, s3: S.Store, s4: S.Store, a: nat, b: nat, dst: nat, data: Block)
    requires S.StoreInv(s0) && s0.locked == map[] && s0.open == {} && a != b && (dst == a || dst == b)
    requires a < |s0.disk| && b < |s0.disk|
    requires S.StoreStep(s0, s1, S.Lock(ME, a)) && S.StoreStep(s1, s2, S.Lock(ME, b))
    requires S.StoreStep(s2, s3, S.Change(ME, dst, data)) && S.StoreStep(s3, s4, S.Write(ME, dst))
    ensures s2.val == s0.val && dst < |s0.val| == |s0.disk|
    ensures s4 == S.Store(s0.val[dst := data], s0.disk[dst := data], s0.pinned - {dst}, map[a := ME, b := ME], {})
  {
    assert s4.open == {};
  }

  lemma StillClosed(s: S.Store, s': S.Store, x: nat)
    requires S.StoreStep(s, s', S.Unlock(ME, x))
    ensures s'.open == s.open
  {
  }

  lemma LetGoTwo(s: S.Store, s1: S.Store, s2: S.Store, a: nat, b: nat)
    requires (s.locked == map[a := ME, b := ME] || s.locked == map[b := ME, a := ME]) && a != b
    requires S.StoreStep(s, s1, S.Unlock(ME, a)) && S.StoreStep(s1, s2, S.Unlock(ME, b))
    ensures s2 == s.(locked := map[])
  {
    assert s.locked - {a} - {b} == map[];
  }

  lemma InstallStep(c: Config, d: Disk, lh: seq<nat>, t: nat)
    requires WfConfig(c) && |d| == c.disksize && WfHead(c, lh) && t < |lh|
    ensures Install(c, d, lh, t)[Slot(c, t)] == d[Slot(c, t)] && lh[t] < |d|
    ensures Install(c, d, lh, t + 1) == Install(c, d, lh, t)[lh[t] := d[Slot(c, t)]]
    ensures InstallTrace(c, d, lh, t + 1) == InstallTrace(c, d, lh, t) + [Install(c, d, lh, t + 1)]
  {
    InstallAt(c, d, lh, t);
    assert InLog(c, Slot(c, t)) && Home(c, lh[t]);
    assert Slot(c, t) !in lh[..t];
  }

  /** The blocks still to install, and how many they are. */
  lemma SetOfNone()
    ensures SetOf([]) == {}
  {
  }

  lemma LogNone(c: Config, d: Disk, lh: seq<nat>, v: Disk)
    requires WfConfig(c) && |d| == |v| == c.disksize && WfHead(c, lh)
    ensures LogWritten(c, d, lh, v, 0) == d && LogTrace(c, d, lh, v, 0) == []
  {
  }

  lemma LogStep(c: Config, d: Disk, lh: seq<nat>, v: Disk, t: nat)
    requires WfConfig(c) && |d| == |v| == c.disksize && WfHead(c, lh) && t < |lh|
    ensures Slot(c, t) < |LogWritten(c, d, lh, v, t)| && lh[t] < |v|
    ensures LogWritten(c, d, lh, v, t + 1) == LogWritten(c, d, lh, v, t)[Slot(c, t) := v[lh[t]]]
    ensures LogTrace(c, d, lh, v, t + 1) == LogTrace(c, d, lh, v, t) + [LogWritten(c, d, lh, v, t + 1)]
  {
    assert Home(c, lh[t]);
  }

  lemma InstallNone(c: Config, d: Disk, lh: seq<nat>)
    requires WfConfig(c) && |d| == c.disksize && WfHead(c, lh)
    ensures Install(c, d, lh, 0) == d && InstallTrace(c, d, lh, 0) == []
  {
  }

  lemma PinnedTail(c: Config, lh: seq<nat>, t: nat)
    requires WfConfig(c) && WfHead(c, lh) && t < |lh|
    ensures SetOf(lh[t + 1..]) == SetOf(lh[t..]) - {lh[t]} && lh[t] in SetOf(lh[t..])
    ensures |SetOf(lh[t..])| <= |lh| - t && Slot(c, t) !in SetOf(lh[t..])
  {
    assert lh[t..] == [lh[t]] + lh[t + 1..];
    SetOfSize(lh[t..]);
    assert InLog(c, Slot(c, t));
  }

  lemma SameLength(s: S.Store)
    requires S.StoreInv(s)
    ensures |s.val| == |s.disk|
  {
  }

  lemma LockedOne(s: S.Store, s': S.Store, x: nat)
    requires s.locked == map[] && S.StoreStep(s, s', S.Lock(ME, x))
    ensures s' == s.(locked := map[x := ME])
  {
  }

  lemma LoggedBlock(c: Config, lh: seq<nat>, t: nat)
    requires WfConfig(c) && WfHead(c, lh) && t < |lh|
    ensures Home(c, lh[t]) && lh[t] in SetOf(lh) && Slot(c, t) !in SetOf(lh) && |SetOf(lh)| <= |lh|
    ensures Slot(c, t) < c.disksize && !Home(c, Slot(c, t))
  {
    assert InLog(c, Slot(c, t));
    SetOfSize(lh);
  }

  lemma HeadIsThere(c: Config, d: Disk)
    requires WfDisk(c, d)
    ensures d[c.start][0] == |Header(c, d)| <= c.logsize
    ensures d[c.start][1..1 + |Header(c, d)|] == Header(c, d)
  {
  }

  lemma OnlyLoggedDiffer(c: Config, s: S.Store, lh: seq<nat>)
    requires S.StoreInv(s) && s.open == {} && s.pinned == SetOf(lh) && |s.disk| == c.disksize
    ensures |s.val| == |s.disk| && forall x :: Home(c, x) && x !in lh ==> s.disk[x] == s.val[x]
    ensures lh == [] ==> s.pinned == {}
  {
  }

  lemma HeadNotLogged(c: Config, lh: seq<nat>)
    requires WfConfig(c) && WfHead(c, lh)
    ensures c.start !in SetOf(lh)
  {
    assert InLog(c, c.start);
  }

  lemma NothingPinned(s: S.Store)
    requires S.StoreInv(s) && s.open == {} && s.pinned == {}
    ensures s.val == s.disk
  {
  }
}
