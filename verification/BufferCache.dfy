/**
 The value of bcache that bio.c keeps, and what one critical section under
 bcache.lock does to it. The pair (dev, blockno) is an option: an untouched
 buffer has dev 0, every other one belongs to disk 1.
 */
module BufferCache {
  import opened Options
  import opened Sequences
  import opened Blocks

  datatype Buf = Buf(block: Option<nat>, valid: bool, dirty: bool, refcnt: nat, data: Block)

  /** The buffers, and the ring from head.next (most recently released) to head.prev. */
  datatype Cache = Cache(bufs: seq<Buf>, order: seq<nat>)

  predicate Cached(bufs: seq<Buf>, x: nat) {
    exists i :: 0 <= i < |bufs| && bufs[i].block == Some(x)
  }

  predicate Eligible(bufs: seq<Buf>, b: nat) {
    b < |bufs| && bufs[b].refcnt == 0 && !bufs[b].dirty
  }

  /** bget can get a buffer for block x: it has one, or some buffer is unreferenced and clean. */
  predicate Fetchable(bufs: seq<Buf>, x: nat) {
    Cached(bufs, x) || exists b :: 0 <= b < |bufs| && Eligible(bufs, b)
  }

  /** The first eligible buffer met walking back from head.prev. */
  predicate IsVictim(c: Cache, b: nat) {
    && Eligible(c.bufs, b)
    && exists k :: 0 <= k < |c.order| && c.order[k] == b && forall j :: k < j < |c.order| ==> !Eligible(c.bufs, c.order[j])
  }

  /** bget finds block x in buffer b. */
  predicate Hit(c: Cache, c': Cache, x: nat, b: nat) {
    && b < |c.bufs| && c.bufs[b].block == Some(x)
    && c' == c.(bufs := c.bufs[b := c.bufs[b].(refcnt := c.bufs[b].refcnt + 1)])
  }

  /** bget recycles buffer b for block x. */
  predicate Miss(c: Cache, c': Cache, x: nat, b: nat) {
    && !Cached(c.bufs, x) && IsVictim(c, b)
    && c' == c.(bufs := c.bufs[b := Buf(Some(x), false, false, 1, c.bufs[b].data)])
  }

  /** The ring as binit leaves it: the last buffer first. */
  function Countdown(n: nat): seq<nat> {
    seq(n, i requires 0 <= i < n => n - 1 - i)
  }

  /** The ring holds each of n buffers exactly once. */
  predicate IsRing(s: seq<nat>, n: nat) {
    && |s| == n && Distinct(s)
    && (forall i :: 0 <= i < |s| ==> s[i] < n)
    && (forall b :: 0 <= b < n ==> b in s)
  }

  ghost function Pos(s: seq<nat>, b: nat): (k: nat)
    requires b in s
    ensures k < |s| && s[k] == b
  {
    var k :| 0 <= k < |s| && s[k] == b;
    k
  }

  /** Unlink b and put it behind the head. */
  ghost function ToFront(s: seq<nat>, b: nat): (t: seq<nat>)
    requires b in s
  {
    [b] + s[..Pos(s, b)] + s[Pos(s, b) + 1..]
  }

  /** b comes first, and what was in front of it moves up one place. */
  lemma ToFrontAt(s: seq<nat>, n: nat, b: nat, i: nat)
    requires IsRing(s, n) && b < n && i < n
    ensures var t, k := ToFront(s, b), Pos(s, b);
            |t| == n && t[i] == (if i == 0 then b else if i <= k then s[i - 1] else s[i]) && (i > 0 ==> t[i] != b)
  {
  }

  lemma ToFrontIsRing(s: seq<nat>, n: nat, b: nat)
    requires IsRing(s, n) && b < n
    ensures IsRing(ToFront(s, b), n)
  {
    var k := Pos(s, b);
    var t := ToFront(s, b);
    assert forall i :: 0 < i <= k ==> t[i] == s[i - 1];
    assert forall i :: k < i < |s| ==> t[i] == s[i];
    forall a | 0 <= a < n
      ensures a in t
    {
      var i := Pos(s, a);
      assert if i < k then t[i + 1] == a else if i == k then t[0] == a else t[i] == a;
    }
  }

  /** The half of brelse under bcache.lock. */
  ghost predicate Dropped(c: Cache, c': Cache, b: nat) {
    && b < |c.bufs| && b in c.order && c.bufs[b].refcnt >= 1
    && c'.bufs == c.bufs[b := c.bufs[b].(refcnt := c.bufs[b].refcnt - 1)]
    && c'.order == if c.bufs[b].refcnt == 1 then ToFront(c.order, b) else c.order
  }
}

/**
 What the cache is a faster form of: a block store with a lock per block. `val`
 is the latest contents, `disk` what a crash leaves, `pinned` the blocks held in
 memory for a commit, `open` the ones changed and not yet logged or written.
 */
module BlockStore {
  import opened Blocks

  datatype Store = Store(val: seq<Block>, disk: Disk, pinned: set<nat>, locked: map<nat, nat>, open: set<nat>)

  datatype Act =
    | Quiet
    | Lock(p: nat, x: nat)
    | Change(p: nat, x: nat, data: Block)
    | Pin(p: nat, x: nat)
    | Write(p: nat, x: nat)
    | Unlock(p: nat, x: nat)

  predicate Owns(s: Store, p: nat, x: nat) {
    x in s.locked && s.locked[x] == p
  }

  predicate StoreStep(s: Store, s': Store, a: Act) {
    match a
    case Quiet => s' == s
    case Lock(p, x) => x !in s.locked && s' == s.(locked := s.locked[x := p])
    case Change(p, x, d) =>
      && Owns(s, p, x) && x < |s.val|
      && s' == s.(val := s.val[x := d], open := s.open + {x})
    case Pin(p, x) =>
      Owns(s, p, x) && s' == s.(pinned := s.pinned + {x}, open := s.open - {x})
    case Write(p, x) =>
      && Owns(s, p, x) && x < |s.val| == |s.disk|
      && s' == s.(disk := s.disk[x := s.val[x]], pinned := s.pinned - {x}, open := s.open - {x})
    case Unlock(p, x) =>
      && Owns(s, p, x) && x !in s.open
      && s' == s.(locked := s.locked - {x})
  }

  ghost predicate StoreInv(s: Store) {
    && |s.val| == |s.disk|
    && (forall x :: x in s.locked || x in s.pinned || x in s.open ==> x < |s.disk|)
    && (forall x :: x in s.open ==> x in s.locked)
    && (forall x :: 0 <= x < |s.disk| && x !in s.open && x !in s.pinned ==> s.val[x] == s.disk[x])
  }
}

/**
 The buffer cache shared by many processes: bget drops bcache.lock before it
 sleeps on the buffer's lock, and brelse gives up the buffer's lock before it
 takes bcache.lock again, so other processes may act in between.
 */
module SharedCache {
  import opened Options
  import opened Blocks
  import opened BufferCache
  import BlockStore

  /** Where a process stands with a buffer: before acquiresleep, after it, after releasesleep. */
  datatype Role = Waiting | Holding | Releasing

  datatype Ref = Ref(pid: nat, buf: nat, role: Role)

  datatype Bio = Bio(
    disk: Disk,
    cache: Cache,
    holder: seq<Option<nat>>,  // who has each buffer's sleep lock
    refs: set<Ref>,
    touched: set<nat>,         // history: buffers changed since their last log_write or bwrite
    stamp: seq<int>,           // history: when each buffer last dropped to refcnt 0
    clock: int)

  /** After binit: the ring runs from the last buffer to the first. */
  function Init(disk: Disk, nbuf: nat): Bio {
    Bio(disk,
        Cache(seq(nbuf, _ => Buf(None, false, false, 0, Zero())), Countdown(nbuf)),
        seq(nbuf, _ => None), {}, {}, seq(nbuf, i => i), nbuf)
  }

  // ---- steps ----

  /** p is inside bget or brelse, and so does nothing else. */
  predicate Pending(m: Bio, p: nat) {
    exists r :: r in m.refs && r.pid == p && r.role != Holding
  }

  predicate Holds(m: Bio, p: nat, b: nat) {
    b < |m.cache.bufs| && b < |m.holder| && Ref(p, b, Holding) in m.refs
  }

  /** p holds a buffer with the contents of block x: what bread returns. */
  predicate Has(m: Bio, p: nat, b: nat, x: nat) {
    Holds(m, p, b) && m.cache.bufs[b].block == Some(x) && m.cache.bufs[b].valid
  }

  predicate Get(m: Bio, m': Bio, p: nat, x: nat, b: nat) {
    && !Pending(m, p) && x < |m.disk|
    && (Hit(m.cache, m'.cache, x, b) || Miss(m.cache, m'.cache, x, b))
    && m' == m.(cache := m'.cache, refs := m.refs + {Ref(p, b, Waiting)})
  }

  predicate Acquire(m: Bio, m': Bio, p: nat, b: nat) {
    && Ref(p, b, Waiting) in m.refs && b < |m.holder| && m.holder[b] == None
    && m' == m.(holder := m.holder[b := Some(p)], refs := m.refs - {Ref(p, b, Waiting)} + {Ref(p, b, Holding)})
  }

  function SetBuf(m: Bio, b: nat, f: Buf): Bio
    requires b < |m.cache.bufs|
  {
    m.(cache := m.cache.(bufs := m.cache.bufs[b := f]))
  }

  /** iderw on a buffer that is not valid. */
  predicate Fill(m: Bio, m': Bio, p: nat, b: nat) {
    && Holds(m, p, b) && !m.cache.bufs[b].valid && !Pending(m, p)
    && m.cache.bufs[b].block.Some? && m.cache.bufs[b].block.value < |m.disk|
    && m' == SetBuf(m, b, m.cache.bufs[b].(valid := true, data := m.disk[m.cache.bufs[b].block.value]))
  }

  predicate Modify(m: Bio, m': Bio, p: nat, b: nat, x: nat, data: Block) {
    && Has(m, p, b, x)
    && m' == SetBuf(m, b, m.cache.bufs[b].(data := data)).(touched := m.touched + {b})
  }

  /** log_write's B_DIRTY. */
  predicate Pin(m: Bio, m': Bio, p: nat, b: nat, x: nat) {
    && Has(m, p, b, x)
    && m' == SetBuf(m, b, m.cache.bufs[b].(dirty := true)).(touched := m.touched - {b})
  }

  predicate Bwrite(m: Bio, m': Bio, p: nat, b: nat, x: nat) {
    && Has(m, p, b, x) && x < |m.disk|
    && m' == SetBuf(m, b, m.cache.bufs[b].(dirty := false)).(
             touched := m.touched - {b}, disk := m.disk[x := m.cache.bufs[b].data])
  }

  /** brelse up to releasesleep; a changed buffer has been logged or written first. */
  predicate Unlock(m: Bio, m': Bio, p: nat, b: nat) {
    && Holds(m, p, b) && !Pending(m, p) && b !in m.touched
    && m' == m.(holder := m.holder[b := None], refs := m.refs - {Ref(p, b, Holding)} + {Ref(p, b, Releasing)})
  }

  /** The rest of brelse. */
  ghost predicate Drop(m: Bio, m': Bio, p: nat, b: nat) {
    && Ref(p, b, Releasing) in m.refs && b < |m.stamp| && b < |m'.cache.bufs|
    && Dropped(m.cache, m'.cache, b)
    && m' == if m'.cache.bufs[b].refcnt == 0
             then m.(cache := m'.cache, refs := m.refs - {Ref(p, b, Releasing)},
                     stamp := m.stamp[b := m.clock], clock := m.clock + 1)
             else m.(cache := m'.cache, refs := m.refs - {Ref(p, b, Releasing)})
  }

  datatype Step =
    | NoStep
    | GetStep(p: nat, x: nat, b: nat)
    | AcquireStep(p: nat, b: nat)
    | FillStep(p: nat, b: nat)
    | ModifyStep(p: nat, b: nat, x: nat, data: Block)
    | PinStep(p: nat, b: nat, x: nat)
    | BwriteStep(p: nat, b: nat, x: nat)
    | UnlockStep(p: nat, b: nat)
    | DropStep(p: nat, b: nat)

  ghost predicate StepBy(m: Bio, m': Bio, s: Step) {
    match s
    case NoStep => m' == m
    case GetStep(p, x, b) => Get(m, m', p, x, b)
    case AcquireStep(p, b) => Acquire(m, m', p, b)
    case FillStep(p, b) => Fill(m, m', p, b)
    case ModifyStep(p, b, x, d) => Modify(m, m', p, b, x, d)
    case PinStep(p, b, x) => Pin(m, m', p, b, x)
    case BwriteStep(p, b, x) => Bwrite(m, m', p, b, x)
    case UnlockStep(p, b) => Unlock(m, m', p, b)
    case DropStep(p, b) => Drop(m, m', p, b)
  }

  // ---- the invariant ----

  predicate Unique(bufs: seq<Buf>) {
    forall i, j :: 0 <= i < j < |bufs| && bufs[i].block.Some? ==> bufs[i].block != bufs[j].block
  }

  function RefsTo(refs: set<Ref>, b: nat): set<Ref> {
    set r | r in refs && r.buf == b
  }

  /** Counts, locks and identities. */
  ghost predicate RefInv(m: Bio) {
    && |m.holder| == |m.cache.bufs|
    && Unique(m.cache.bufs)
    && (forall b :: 0 <= b < |m.cache.bufs| ==> m.cache.bufs[b].refcnt == |RefsTo(m.refs, b)|)
    && (forall r :: r in m.refs ==> r.buf < |m.cache.bufs| && m.cache.bufs[r.buf].block.Some?)
    && (forall b, p: nat :: 0 <= b < |m.cache.bufs| ==> (m.holder[b] == Some(p) <==> Ref(p, b, Holding) in m.refs))
  }

  /** Buffer contents against the disk. */
  ghost predicate DataInv(m: Bio) {
    && (forall b :: 0 <= b < |m.cache.bufs| && m.cache.bufs[b].block.Some? ==> m.cache.bufs[b].block.value < |m.disk|)
    && (forall b :: 0 <= b < |m.cache.bufs| && m.cache.bufs[b].dirty ==> m.cache.bufs[b].valid && m.cache.bufs[b].block.Some?)
    && (forall b :: b in m.touched ==> b < |m.cache.bufs| && b < |m.holder| && m.holder[b].Some? && m.cache.bufs[b].valid)
    && (forall b :: 0 <= b < |m.cache.bufs| && m.cache.bufs[b].valid && m.cache.bufs[b].block.Some?
                    && !m.cache.bufs[b].dirty && b !in m.touched
                    ==> m.cache.bufs[b].data == m.disk[m.cache.bufs[b].block.value])
  }

  /** The ring: every buffer once, most recent drop to refcnt 0 first. */
  ghost predicate RingInv(m: Bio) {
    && IsRing(m.cache.order, |m.cache.bufs|)
    && |m.stamp| == |m.cache.bufs|
    && (forall i :: 0 <= i < |m.stamp| ==> m.stamp[i] < m.clock)
    && (forall i, j :: 0 <= i < j < |m.cache.order| ==> m.stamp[m.cache.order[i]] > m.stamp[m.cache.order[j]])
  }

  ghost predicate Inv(m: Bio) {
    RefInv(m) && DataInv(m) && RingInv(m)
  }

  lemma InitInv(disk: Disk, nbuf: nat)
    ensures Inv(Init(disk, nbuf))
  {
    var m := Init(disk, nbuf);
    forall b | 0 <= b < nbuf
      ensures b in m.cache.order && RefsTo(m.refs, b) == {}
    {
      assert m.cache.order[nbuf - 1 - b] == b;
    }
  }

  // ---- counting references ----

  lemma AddRef(refs: set<Ref>, r: Ref)
    requires r !in refs
    ensures |RefsTo(refs + {r}, r.buf)| == |RefsTo(refs, r.buf)| + 1
    ensures forall b: nat :: b != r.buf ==> RefsTo(refs + {r}, b) == RefsTo(refs, b)
  {
    assert RefsTo(refs + {r}, r.buf) == RefsTo(refs, r.buf) + {r};
  }

  lemma RemoveRef(refs: set<Ref>, r: Ref)
    requires r in refs
    ensures |RefsTo(refs, r.buf)| == |RefsTo(refs - {r}, r.buf)| + 1
    ensures forall b: nat :: b != r.buf ==> RefsTo(refs - {r}, b) == RefsTo(refs, b)
  {
    assert RefsTo(refs, r.buf) == RefsTo(refs - {r}, r.buf) + {r};
  }

  lemma MoveRef(refs: set<Ref>, r: Ref, t: Ref)
    requires r in refs && t !in refs && r.buf == t.buf
    ensures forall b: nat :: |RefsTo(refs - {r} + {t}, b)| == |RefsTo(refs, b)|
  {
    RemoveRef(refs, r);
    AddRef(refs - {r}, t);
    forall b: nat
      ensures |RefsTo(refs - {r} + {t}, b)| == |RefsTo(refs, b)|
    {
      if b != r.buf { assert RefsTo(refs - {r} + {t}, b) == RefsTo(refs, b); }
    }
  }

  /** A buffer that someone refers to has a positive count, so bget never recycles it. */
  lemma RefIsCounted(m: Bio, r: Ref)
    requires RefInv(m) && r in m.refs
    ensures m.cache.bufs[r.buf].refcnt >= 1
  {
    assert r in RefsTo(m.refs, r.buf);
  }

  // ---- every step keeps the invariant ----

  lemma GetInv(m: Bio, m': Bio, p: nat, x: nat, b: nat)
    requires Inv(m) && Get(m, m', p, x, b)
    ensures Inv(m')
  {
    var r := Ref(p, b, Waiting);
    assert r !in m.refs;
    AddRef(m.refs, r);
    if !Hit(m.cache, m'.cache, x, b) {
      forall q | q in m.refs && q.buf == b
        ensures false
      {
        RefIsCounted(m, q);
      }
    }
  }

  lemma AcquireInv(m: Bio, m': Bio, p: nat, b: nat)
    requires Inv(m) && Acquire(m, m', p, b)
    ensures Inv(m')
  {
    MoveRef(m.refs, Ref(p, b, Waiting), Ref(p, b, Holding));
  }

  lemma UnlockInv(m: Bio, m': Bio, p: nat, b: nat)
    requires Inv(m) && Unlock(m, m', p, b)
    ensures Inv(m')
  {
    assert Ref(p, b, Releasing) !in m.refs;
    MoveRef(m.refs, Ref(p, b, Holding), Ref(p, b, Releasing));
  }

  lemma ToFrontStamps(m: Bio, b: nat)
    requires RingInv(m) && b < |m.cache.bufs|
    ensures var t := ToFront(m.cache.order, b);
            var stamp := m.stamp[b := m.clock];
            IsRing(t, |m.stamp|) && forall i, j :: 0 <= i < j < |t| ==> stamp[t[i]] > stamp[t[j]]
  {
    var t, n, stamp := ToFront(m.cache.order, b), |m.cache.bufs|, m.stamp[b := m.clock];
    ToFrontIsRing(m.cache.order, n, b);
    hide ToFront;
    forall i, j | 0 <= i < j < n
      ensures stamp[t[i]] > stamp[t[j]]
    {
      ToFrontAt(m.cache.order, n, b, i);
      ToFrontAt(m.cache.order, n, b, j);
    }
  }

  lemma DropInv(m: Bio, m': Bio, p: nat, b: nat)
    requires Inv(m) && Drop(m, m', p, b)
    ensures Inv(m')
  {
    hide RefInv, RingInv, DataInv, Drop;
    DropRefs(m, m', p, b);
    DropRing(m, m', p, b);
    DropData(m, m', p, b);
  }

  lemma DropData(m: Bio, m': Bio, p: nat, b: nat)
    requires DataInv(m) && Drop(m, m', p, b)
    ensures DataInv(m')
  {
    hide ToFront;
  }

  lemma DropRing(m: Bio, m': Bio, p: nat, b: nat)
    requires RingInv(m) && Drop(m, m', p, b)
    ensures RingInv(m')
  {
    if m.cache.bufs[b].refcnt == 1 {
      ToFrontStamps(m, b);
      hide ToFront, IsRing;
    }
  }

  lemma DropRefs(m: Bio, m': Bio, p: nat, b: nat)
    requires RefInv(m) && Drop(m, m', p, b)
    ensures RefInv(m')
  {
    hide ToFront;
    RemoveRef(m.refs, Ref(p, b, Releasing));
  }

  lemma FillInv(m: Bio, m': Bio, p: nat, b: nat)
    requires Inv(m) && Fill(m, m', p, b)
    ensures Inv(m')
  {
  }

  lemma ModifyInv(m: Bio, m': Bio, p: nat, b: nat, x: nat, data: Block)
    requires Inv(m) && Modify(m, m', p, b, x, data)
    ensures Inv(m')
  {
  }

  lemma PinInv(m: Bio, m': Bio, p: nat, b: nat, x: nat)
    requires Inv(m) && Pin(m, m', p, b, x)
    ensures Inv(m')
  {
  }

  lemma BwriteInv(m: Bio, m': Bio, p: nat, b: nat, x: nat)
    requires Inv(m) && Bwrite(m, m', p, b, x)
    ensures Inv(m')
  {
  }

  lemma StepInv(m: Bio, m': Bio, s: Step)
    requires Inv(m) && StepBy(m, m', s)
    ensures Inv(m')
  {
    match s
    case NoStep =>
    case GetStep(p, x, b) => GetInv(m, m', p, x, b);
    case AcquireStep(p, b) => AcquireInv(m, m', p, b);
    case FillStep(p, b) => FillInv(m, m', p, b);
    case ModifyStep(p, b, x, d) => ModifyInv(m, m', p, b, x, d);
    case PinStep(p, b, x) => PinInv(m, m', p, b, x);
    case BwriteStep(p, b, x) => BwriteInv(m, m', p, b, x);
    case UnlockStep(p, b) => UnlockInv(m, m', p, b);
    case DropStep(p, b) => DropInv(m, m', p, b);
  }

  // ---- the simple form ----

  /** The buffer that has block x, if one does. */
  ghost function Look(bufs: seq<Buf>, x: nat): (r: Option<nat>)
    ensures r.Some? ==> r.value < |bufs| && bufs[r.value].block == Some(x)
    ensures r == None ==> !Cached(bufs, x)
  {
    if Cached(bufs, x) then var i :| 0 <= i < |bufs| && bufs[i].block == Some(x); Some(i) else None
  }

  lemma LookIs(bufs: seq<Buf>, x: nat, b: nat)
    requires Unique(bufs) && b < |bufs| && bufs[b].block == Some(x)
    ensures Look(bufs, x) == Some(b)
  {
  }

  /** Which buffer has which block depends only on the block fields. */
  lemma LookSame(bufs: seq<Buf>, bufs': seq<Buf>, x: nat)
    requires Unique(bufs) && |bufs'| == |bufs|
    requires forall i :: 0 <= i < |bufs| ==> (bufs[i].block == Some(x) <==> bufs'[i].block == Some(x))
    ensures Look(bufs', x) == Look(bufs, x)
  {
  }

  ghost function Val(m: Bio, x: nat): Block
    requires x < |m.disk|
  {
    var b := Look(m.cache.bufs, x);
    if b.Some? && m.cache.bufs[b.value].valid then m.cache.bufs[b.value].data else m.disk[x]
  }

  ghost predicate IsPinned(m: Bio, x: nat) {
    var b := Look(m.cache.bufs, x);
    b.Some? && m.cache.bufs[b.value].dirty
  }

  ghost predicate IsOpen(m: Bio, x: nat) {
    var b := Look(m.cache.bufs, x);
    b.Some? && b.value in m.touched
  }

  ghost function Holder(m: Bio, x: nat): Option<nat> {
    var b := Look(m.cache.bufs, x);
    if b.Some? && b.value < |m.holder| then m.holder[b.value] else None
  }

  ghost function Abs(m: Bio): BlockStore.Store {
    BlockStore.Store(
      seq(|m.disk|, x requires 0 <= x < |m.disk| => Val(m, x)),
      m.disk,
      set x: nat | 0 <= x < |m.disk| && IsPinned(m, x),
      map x: nat | 0 <= x < |m.disk| && Holder(m, x).Some? :: Holder(m, x).value,
      set x: nat | 0 <= x < |m.disk| && IsOpen(m, x))
  }

  lemma AbsDisk(m: Bio)
    ensures Abs(m).disk == m.disk && |Abs(m).val| == |m.disk|
  {
  }

  /** Block x reads the same in both states. */
  ghost predicate SameAt(m: Bio, m': Bio, x: nat)
    requires x < |m.disk| && x < |m'.disk|
  {
    && Val(m', x) == Val(m, x) && (IsPinned(m', x) <==> IsPinned(m, x))
    && (IsOpen(m', x) <==> IsOpen(m, x)) && Holder(m', x) == Holder(m, x)
  }

  /** What a step in the shared cache is in the simple form. */
  ghost function ActOf(m: Bio, s: Step): BlockStore.Act {
    match s
    case AcquireStep(p, b) =>
      if b < |m.cache.bufs| && m.cache.bufs[b].block.Some? then BlockStore.Lock(p, m.cache.bufs[b].block.value)
      else BlockStore.Quiet
    case ModifyStep(p, b, x, d) => BlockStore.Change(p, x, d)
    case PinStep(p, b, x) => BlockStore.Pin(p, x)
    case BwriteStep(p, b, x) => BlockStore.Write(p, x)
    case UnlockStep(p, b) =>
      if b < |m.cache.bufs| && m.cache.bufs[b].block.Some? then BlockStore.Unlock(p, m.cache.bufs[b].block.value)
      else BlockStore.Quiet
    case _ => BlockStore.Quiet
  }

  ghost function With(s: set<nat>, x: nat, b: bool): set<nat> {
    if b then s + {x} else s - {x}
  }

  ghost predicate SameBut(m: Bio, m': Bio, x: nat) {
    && |m'.disk| == |m.disk| && x < |m.disk|
    && forall y: nat :: y < |m.disk| && y != x ==> SameAt(m, m', y)
  }

  lemma OneVal(m: Bio, m': Bio, x: nat)
    requires SameBut(m, m', x)
    ensures Abs(m').val == Abs(m).val[x := Val(m', x)]
  {
    forall y: nat | y < |m.disk| && y != x
      ensures Abs(m').val[y] == Abs(m).val[y]
    {
      assert SameAt(m, m', y);
    }
  }

  lemma OneLock(m: Bio, m': Bio, x: nat)
    requires SameBut(m, m', x)
    ensures Abs(m').locked == if Holder(m', x).Some? then Abs(m).locked[x := Holder(m', x).value] else Abs(m).locked - {x}
  {
    forall y: nat | y < |m.disk| && y != x
      ensures Holder(m', y) == Holder(m, y)
    {
      assert SameAt(m, m', y);
    }
  }

  /** Two states that agree on every block but x: the simple forms differ only there. */
  lemma OneChanged(m: Bio, m': Bio, x: nat)
    requires SameBut(m, m', x)
    ensures Abs(m').val == Abs(m).val[x := Val(m', x)]
    ensures Abs(m').pinned == With(Abs(m).pinned, x, IsPinned(m', x))
    ensures Abs(m').open == With(Abs(m).open, x, IsOpen(m', x))
    ensures Abs(m').locked == if Holder(m', x).Some? then Abs(m).locked[x := Holder(m', x).value] else Abs(m).locked - {x}
  {
    OneVal(m, m', x);
    OneLock(m, m', x);
    forall y: nat | y < |m.disk| && y != x
      ensures y in Abs(m').pinned <==> y in Abs(m).pinned
      ensures y in Abs(m').open <==> y in Abs(m).open
    {
      assert SameAt(m, m', y);
    }
  }

  /** Two states that agree on every block have the same simple form. */
  lemma AllSame(m: Bio, m': Bio)
    requires m'.disk == m.disk && forall x: nat :: x < |m.disk| ==> SameAt(m, m', x)
    ensures Abs(m') == Abs(m)
  {
    if |m.disk| > 0 {
      assert SameAt(m, m', 0);
      OneChanged(m, m', 0);
    }
  }

  lemma HasFacts(m: Bio, p: nat, b: nat, x: nat)
    requires Inv(m) && Has(m, p, b, x)
    ensures x < |m.disk| && b < |m.holder| == |m.cache.bufs| && m.holder[b] == Some(p)
    ensures Look(m.cache.bufs, x) == Some(b) && BlockStore.Owns(Abs(m), p, x)
  {
    LookIs(m.cache.bufs, x, b);
  }

  lemma AbsAt(m: Bio, x: nat)
    requires x < |m.disk|
    ensures Abs(m).disk == m.disk && |Abs(m).val| == |m.disk| && Abs(m).val[x] == Val(m, x)
    ensures x in Abs(m).pinned <==> IsPinned(m, x)
    ensures x in Abs(m).open <==> IsOpen(m, x)
  {
  }

  lemma GetRefines(m: Bio, m': Bio, p: nat, x: nat, b: nat)
    requires Inv(m) && Get(m, m', p, x, b)
    ensures Abs(m') == Abs(m)
  {
    GetInv(m, m', p, x, b);
    var bufs, bufs' := m.cache.bufs, m'.cache.bufs;
    assert Miss(m.cache, m'.cache, x, b) ==> m.holder[b] == None by {
      if Miss(m.cache, m'.cache, x, b) && m.holder[b].Some? { RefIsCounted(m, Ref(m.holder[b].value, b, Holding)); }
    }
    forall y: nat | y < |m.disk|
      ensures SameAt(m, m', y)
    {
      if Hit(m.cache, m'.cache, x, b) {
        LookSame(bufs, bufs', y);
      } else if y == x {
        LookIs(bufs', x, b);
      } else if bufs[b].block == Some(y) {
        LookIs(bufs, y, b);
      } else {
        LookSame(bufs, bufs', y);
      }
    }
    AllSame(m, m');
  }

  lemma DropRefines(m: Bio, m': Bio, p: nat, b: nat)
    requires Inv(m) && Drop(m, m', p, b)
    ensures Abs(m') == Abs(m)
  {
    forall y: nat | y < |m.disk|
      ensures SameAt(m, m', y)
    {
      LookSame(m.cache.bufs, m'.cache.bufs, y);
    }
    AllSame(m, m');
  }

  lemma FillRefines(m: Bio, m': Bio, p: nat, b: nat)
    requires Inv(m) && Fill(m, m', p, b)
    ensures Abs(m') == Abs(m)
  {
    forall y: nat | y < |m.disk|
      ensures SameAt(m, m', y)
    {
      LookSame(m.cache.bufs, m'.cache.bufs, y);
    }
    AllSame(m, m');
  }

  /** At most one buffer's own record changes, and with it only its block. */
  lemma OthersSame(m: Bio, m': Bio, b: nat, x: nat)
    requires Inv(m) && b < |m.cache.bufs| && m.cache.bufs[b].block == Some(x)
    requires |m'.cache.bufs| == |m.cache.bufs| && m'.cache.bufs[b].block == Some(x)
    requires |m'.holder| == |m.holder| && |m'.disk| == |m.disk|
    requires forall i :: 0 <= i < |m.cache.bufs| && i != b
                         ==> m'.cache.bufs[i] == m.cache.bufs[i] && m'.holder[i] == m.holder[i] && (i in m'.touched <==> i in m.touched)
    requires forall y :: 0 <= y < |m.disk| && y != x ==> m'.disk[y] == m.disk[y]
    ensures Look(m.cache.bufs, x) == Some(b) && Look(m'.cache.bufs, x) == Some(b)
    ensures forall y: nat :: y < |m.disk| && y != x ==> SameAt(m, m', y)
  {
    LookIs(m.cache.bufs, x, b);
    forall y: nat
      ensures Look(m'.cache.bufs, y) == Look(m.cache.bufs, y)
    {
      LookSame(m.cache.bufs, m'.cache.bufs, y);
    }
  }

  lemma AcquireRefines(m: Bio, m': Bio, p: nat, b: nat)
    requires Inv(m) && Acquire(m, m', p, b)
    ensures BlockStore.StoreStep(Abs(m), Abs(m'), ActOf(m, AcquireStep(p, b)))
  {
    var x := m.cache.bufs[b].block.value;
    OthersSame(m, m', b, x);
    OneChanged(m, m', x);
  }

  lemma UnlockRefines(m: Bio, m': Bio, p: nat, b: nat)
    requires Inv(m) && Unlock(m, m', p, b)
    ensures BlockStore.StoreStep(Abs(m), Abs(m'), ActOf(m, UnlockStep(p, b)))
  {
    var x := m.cache.bufs[b].block.value;
    OthersSame(m, m', b, x);
    OneChanged(m, m', x);
  }

  lemma ModifyRefines(m: Bio, m': Bio, p: nat, b: nat, x: nat, data: Block)
    requires Inv(m) && Modify(m, m', p, b, x, data)
    ensures BlockStore.StoreStep(Abs(m), Abs(m'), BlockStore.Change(p, x, data))
  {
    hide Inv, Abs, Look;
    HasFacts(m, p, b, x);
    OthersSame(m, m', b, x);
    OneChanged(m, m', x);
    AbsAt(m, x);
    AbsAt(m', x);
  }

  lemma PinRefines(m: Bio, m': Bio, p: nat, b: nat, x: nat)
    requires Inv(m) && Pin(m, m', p, b, x)
    ensures BlockStore.StoreStep(Abs(m), Abs(m'), BlockStore.Pin(p, x))
  {
    hide Inv, Abs, Look;
    HasFacts(m, p, b, x);
    OthersSame(m, m', b, x);
    OneChanged(m, m', x);
    AbsAt(m, x);
    AbsAt(m', x);
  }

  lemma BwriteRefines(m: Bio, m': Bio, p: nat, b: nat, x: nat)
    requires Inv(m) && Bwrite(m, m', p, b, x)
    ensures BlockStore.StoreStep(Abs(m), Abs(m'), BlockStore.Write(p, x))
  {
    hide Inv, Abs, Look;
    HasFacts(m, p, b, x);
    OthersSame(m, m', b, x);
    OneChanged(m, m', x);
    AbsAt(m, x);
    AbsAt(m', x);
  }

  /** The cache refines the block store: each step is one step of it, or none. */
  lemma StepRefines(m: Bio, m': Bio, s: Step)
    requires Inv(m) && StepBy(m, m', s)
    ensures Inv(m')
    ensures BlockStore.StoreStep(Abs(m), Abs(m'), ActOf(m, s))
  {
    StepInv(m, m', s);
    match s
    case NoStep =>
    case GetStep(p, x, b) => GetRefines(m, m', p, x, b);
    case AcquireStep(p, b) => AcquireRefines(m, m', p, b);
    case FillStep(p, b) => FillRefines(m, m', p, b);
    case ModifyStep(p, b, x, d) => ModifyRefines(m, m', p, b, x, d);
    case PinStep(p, b, x) => PinRefines(m, m', p, b, x);
    case BwriteStep(p, b, x) => BwriteRefines(m, m', p, b, x);
    case UnlockStep(p, b) => UnlockRefines(m, m', p, b);
    case DropStep(p, b) => DropRefines(m, m', p, b);
  }

  /** bread returns the latest contents, and to one process at a time. */
  lemma BreadReturnsLatest(m: Bio, p: nat, b: nat, x: nat)
    requires Inv(m) && Has(m, p, b, x)
    ensures x < |m.disk| && m.cache.bufs[b].data == Abs(m).val[x]
    ensures BlockStore.Owns(Abs(m), p, x)
    ensures forall q: nat, d: nat :: Has(m, q, d, x) ==> q == p && d == b
  {
    LookIs(m.cache.bufs, x, b);
    forall q: nat, d: nat | Has(m, q, d, x)
      ensures q == p && d == b
    {
      LookIs(m.cache.bufs, x, d);
      assert m.holder[b] == Some(p) && m.holder[b] == Some(q);
    }
  }

  lemma AbsInv(m: Bio)
    requires Inv(m)
    ensures BlockStore.StoreInv(Abs(m))
  {
  }

  /** A buffer keeps its block while any process waits for it, holds it or is releasing it. */
  lemma IdentityIsStable(m: Bio, m': Bio, s: Step, r: Ref)
    requires Inv(m) && StepBy(m, m', s) && r in m.refs
    ensures r.buf < |m'.cache.bufs| == |m.cache.bufs|
    ensures m'.cache.bufs[r.buf].block == m.cache.bufs[r.buf].block
  {
    RefIsCounted(m, r);
  }

  /** A pinned block is never recycled: bget of any block leaves it in its buffer. */
  lemma PinnedStaysCached(m: Bio, m': Bio, s: Step, x: nat)
    requires Inv(m) && StepBy(m, m', s) && x in Abs(m).pinned && !s.BwriteStep?
    ensures x in Abs(m').pinned && Look(m'.cache.bufs, x) == Look(m.cache.bufs, x)
  {
    PinnedKeepsBuffer(m, m', s, x);
    StepRefines(m, m', s);
    hide StepBy, Cached, BlockStore.StoreStep;
    LookIs(m'.cache.bufs, x, Look(m.cache.bufs, x).value);
  }

  lemma PinnedKeepsBuffer(m: Bio, m': Bio, s: Step, x: nat)
    requires Inv(m) && StepBy(m, m', s) && x < |m.disk| && IsPinned(m, x) && !s.BwriteStep?
    ensures |m'.disk| == |m.disk|
    ensures var b := Look(m.cache.bufs, x).value; b < |m'.cache.bufs| && m'.cache.bufs[b].block == Some(x) && m'.cache.bufs[b].dirty
  {
  }

  /** bget recycles, among the unreferenced clean buffers, the one released longest ago. */
  /** The step leaves buffer b without references. */
  predicate Frees(m: Bio, m': Bio, b: nat) {
    b < |m.cache.bufs| == |m'.cache.bufs| && m.cache.bufs[b].refcnt > 0 && m'.cache.bufs[b].refcnt == 0
  }

  /** The stamps tell when: a buffer left without references gets the latest one, and no other changes. */
  lemma StampsTell(m: Bio, m': Bio, s: Step)
    requires Inv(m) && StepBy(m, m', s)
    ensures |m'.cache.bufs| == |m.cache.bufs| == |m.stamp| == |m'.stamp|
    ensures forall b :: 0 <= b < |m.stamp| && !Frees(m, m', b) ==> m'.stamp[b] == m.stamp[b]
    ensures forall a, b :: 0 <= a < |m.stamp| && 0 <= b < |m.stamp| && a != b && Frees(m, m', b) ==>
                             m'.stamp[b] > m'.stamp[a] && !Frees(m, m', a)
  {
    hide DataInv, RefInv, IsRing, ToFront, Cached;
  }

  lemma RecyclesLeastRecent(m: Bio, m': Bio, p: nat, x: nat, b: nat)
    requires Inv(m) && Get(m, m', p, x, b) && !Cached(m.cache.bufs, x)
    ensures Eligible(m.cache.bufs, b)
    ensures forall a :: 0 <= a < |m.stamp| && Eligible(m.cache.bufs, a) ==> m.stamp[b] <= m.stamp[a]
  {
    var k :| 0 <= k < |m.cache.order| && m.cache.order[k] == b
             && forall j :: k < j < |m.cache.order| ==> !Eligible(m.cache.bufs, m.cache.order[j]);
    forall a | 0 <= a < |m.stamp| && Eligible(m.cache.bufs, a)
      ensures m.stamp[b] <= m.stamp[a]
    {
      var j := Pos(m.cache.order, a);
    }
  }
}
