/**
 bio.c over memide.c as the code runs: buffers in an array, the LRU ring threaded
 through prev and next. One process at a time, so a buffer's sleep lock is free
 unless the caller itself holds it. The ghost field `bio` is the state of the
 step system in module SharedCache, which every method here advances.
 */
module BufferRing {
  import opened Options
  import opened Sequences
  import opened Blocks
  import opened BufferCache
  import B = SharedCache
  import S = BlockStore

  const ME: nat := 0  // the one process

  class Bcache {
    const bufs: array<Buf>   // bcache.buf
    const next: array<nat>   // the ring: index bufs.Length is bcache.head
    const prev: array<nat>
    var disk: Disk           // memdisk
    ghost var bio: B.Bio
    ghost var hist: seq<Disk>  // the disk after each write

    /** The i-th node of the ring, which begins and ends at the head. */
    function Node(order: seq<nat>, i: nat): nat
      requires i <= |order| + 1
    {
      if i == 0 || i == |order| + 1 then bufs.Length else order[i - 1]
    }

    ghost predicate InRing(order: seq<nat>) {
      && next.Length == prev.Length == bufs.Length + 1 && next != prev
      && Distinct(order) && forall i :: 0 <= i < |order| ==> order[i] < bufs.Length
    }

    /** next and prev thread the ring in this order. */
    ghost predicate Linked(order: seq<nat>)
      requires InRing(order)
      reads next, prev
    {
      forall i :: 0 <= i <= |order| ==>
                    next[Node(order, i)] == Node(order, i + 1) && prev[Node(order, i + 1)] == Node(order, i)
    }

    ghost predicate Valid()
      reads this, bufs, next, prev
    {
      && B.Inv(bio)
      && bio.disk == disk && bio.cache.bufs == bufs[..]
      && InRing(bio.cache.order) && Linked(bio.cache.order)
      && (forall r :: r in bio.refs ==> r.pid == ME && r.role == B.Holding)
    }

    /** The simple form: a block store with locks. */
    ghost function Store(): S.Store
      reads this
    {
      B.Abs(bio)
    }

    /** bread(x) can get a buffer. */
    ghost predicate HasRoom(x: nat)
      reads this
    {
      Fetchable(bio.cache.bufs, x)
    }

    // ---- ring surgery ----

    /** Takes buffer b out of the ring: its two neighbours become each other's. */
    method Unlink(ghost order: seq<nat>, ghost k: nat, b: nat)
      requires InRing(order) && Linked(order) && k < |order| && order[k] == b
      modifies next, prev
      ensures InRing(order[..k] + order[k + 1..]) && Linked(order[..k] + order[k + 1..])
    {
      ghost var rest := order[..k] + order[k + 1..];
      assert Node(order, k + 1) == b;
      assert next[Node(order, k + 1)] == Node(order, k + 2) && prev[Node(order, k + 1)] == Node(order, k);
      prev[next[b]] := prev[b];
      next[prev[b]] := next[b];
      assert forall i :: 0 <= i <= k ==> Node(rest, i) == Node(order, i);
      assert forall i :: k < i <= |rest| + 1 ==> Node(rest, i) == Node(order, i + 1);
    }

    /** Puts buffer b right behind the head, the most recently used place. */
    method LinkFirst(ghost order: seq<nat>, b: nat)
      requires InRing(order) && Linked(order) && b < bufs.Length && b !in order
      modifies next, prev
      ensures InRing([b] + order) && Linked([b] + order)
    {
      ghost var longer := [b] + order;
      var head := bufs.Length;
      assert next[Node(order, 0)] == Node(order, 1);
      next[b] := next[head];
      prev[b] := head;
      prev[next[head]] := b;
      next[head] := b;
      forall i | 0 <= i <= |longer|
        ensures next[Node(longer, i)] == Node(longer, i + 1) && prev[Node(longer, i + 1)] == Node(longer, i)
      {
        assert Node(longer, 0) == head && Node(longer, 1) == b;
        if i >= 1 {
          assert Node(longer, i + 1) == Node(order, i);
          assert i >= 2 ==> Node(longer, i) == Node(order, i - 1);
          assert old(next[Node(order, i - 1)]) == Node(order, i - 1 + 1);
        }
      }
    }

    /** binit's loop: each buffer in turn goes behind the head. */
    method LinkAll()
      requires next.Length == prev.Length == bufs.Length + 1 && next != prev
      modifies next, prev
      ensures InRing(Countdown(bufs.Length)) && Linked(Countdown(bufs.Length))
    {
      next[bufs.Length] := bufs.Length;
      prev[bufs.Length] := bufs.Length;
      for b := 0 to bufs.Length
        invariant InRing(Countdown(b)) && Linked(Countdown(b))
      {
        LinkFirst(Countdown(b), b);
        assert [b] + Countdown(b) == Countdown(b + 1);
      }
    }

    /** binit. */
    constructor (image: Disk, nbuf: nat)
      ensures Valid() && disk == image && bufs.Length == nbuf && hist == []
      ensures bio == B.Init(image, nbuf)
      ensures fresh(bufs) && fresh(next) && fresh(prev)
    {
      disk := image;
      bufs := new Buf[nbuf](_ => Buf(None, false, false, 0, Zero()));
      next := new nat[nbuf + 1](_ => nbuf);
      prev := new nat[nbuf + 1](_ => nbuf);
      bio := B.Init(image, nbuf);
      hist := [];
      new;
      LinkAll();
      B.InitInv(image, nbuf);
    }

    // ---- bget ----

    /** The first loop of bget: from the most recently released buffer on. */
    method FindCached(x: nat) returns (r: Option<nat>)
      requires Valid()
      ensures r == None <==> !Cached(bio.cache.bufs, x)
      ensures r.Some? ==> r.value < |bio.cache.bufs| && bio.cache.bufs[r.value].block == Some(x)
    {
      hide B.Inv;
      ghost var order := bio.cache.order;
      assert next[Node(order, 0)] == Node(order, 1);
      var b := next[bufs.Length];
      ghost var k := 1;
      while b != bufs.Length
        invariant 1 <= k <= |order| + 1 && b == Node(order, k)
        invariant forall j :: 0 <= j < k - 1 ==> bufs[order[j]].block != Some(x)
        decreases |order| + 1 - k
      {
        if bufs[b].block == Some(x) {
          return Some(b);
        }
        assert next[Node(order, k)] == Node(order, k + 1);
        b := next[b];
        k := k + 1;
      }
      EveryBufferIsInRing(bio);
      forall i | 0 <= i < |bio.cache.bufs|
        ensures bio.cache.bufs[i].block != Some(x)
      {
        assert order[Pos(order, i)] == i;
      }
      return None;
    }

    /** The second loop of bget: from the buffer released longest ago back. */
    method FindVictim() returns (r: Option<nat>)
      requires Valid()
      ensures r.Some? ==> IsVictim(bio.cache, r.value)
      ensures r == None ==> forall b :: 0 <= b < |bio.cache.bufs| ==> !Eligible(bio.cache.bufs, b)
    {
      hide B.Inv;
      ghost var order := bio.cache.order;
      assert prev[Node(order, |order| + 1)] == Node(order, |order|);
      var b := prev[bufs.Length];
      ghost var k := |order|;
      while b != bufs.Length
        invariant 0 <= k <= |order| && b == Node(order, k)
        invariant forall j :: k <= j < |order| ==> !Eligible(bio.cache.bufs, order[j])
        decreases k
      {
        if bufs[b].refcnt == 0 && !bufs[b].dirty {
          assert order[k - 1] == b;
          return Some(b);
        }
        assert prev[Node(order, k - 1 + 1)] == Node(order, k - 1);
        b := prev[b];
        k := k - 1;
      }
      EveryBufferIsInRing(bio);
      forall i | 0 <= i < |bio.cache.bufs|
        ensures !Eligible(bio.cache.bufs, i)
      {
        assert order[Pos(order, i)] == i;
      }
      return None;
    }

    /** bget up to the acquired sleep lock; None is panic("bget: no buffers"). */
    method Bget(x: nat) returns (r: Option<nat>)
      requires Valid() && x < |disk| && x !in Store().locked
      modifies this`bio, bufs
      ensures Valid()
      ensures r == None <==> !old(HasRoom(x))
      ensures r == None ==> bio == old(bio)
      ensures r.Some? ==> (Hit(old(bio.cache), bio.cache, x, r.value) || Miss(old(bio.cache), bio.cache, x, r.value))
      ensures r.Some? ==> r.value < |old(bio).holder| && bio == Taken(old(bio), bio.cache, r.value)
    {
      hide B.Inv, B.Abs, IsVictim;
      r := FindCached(x);
      if r.Some? {
        var b := r.value;
        ghost var c := bio.cache.(bufs := bio.cache.bufs[b := bufs[b].(refcnt := bufs[b].refcnt + 1)]);
        TakeLemma(bio, c, x, b);
        bufs[b] := bufs[b].(refcnt := bufs[b].refcnt + 1);
        bio := Taken(bio, c, b);
        return;
      }
      r := FindVictim();
      if r.Some? {
        var b := r.value;
        VictimIsEligible(bio.cache, b);
        ghost var c := bio.cache.(bufs := bio.cache.bufs[b := Buf(Some(x), false, false, 1, bufs[b].data)]);
        TakeLemma(bio, c, x, b);
        bufs[b] := Buf(Some(x), false, false, 1, bufs[b].data);
        bio := Taken(bio, c, b);
      }
    }

    // ---- the calls the log makes ----

    /** Buffers the caller holds, other than one of block x, are still its own. */
    twostate predicate KeepsOthers(x: nat)
      reads this
    {
      forall b: nat, y: nat :: y != x && B.Has(old(bio), ME, b, y) ==> B.Has(bio, ME, b, y)
    }

    /** memide.c: a dirty buffer goes to disk, else the block is read; valid and clean afterwards. */
    method Iderw(b: nat)
      requires b < bufs.Length && B.Holds(bio, ME, b)
      requires bufs[b].block.Some? && bufs[b].block.value < |disk|
      requires !bufs[b].valid || bufs[b].dirty  // else panic("iderw: nothing to do")
      modifies this`disk, bufs
      ensures forall i :: 0 <= i < bufs.Length && i != b ==> bufs[i] == old(bufs[i])
      ensures disk == if old(bufs[b].dirty) then old(disk)[old(bufs[b]).block.value := old(bufs[b]).data] else old(disk)
      ensures bufs[b] == old(bufs[b]).(valid := true, dirty := false,
                         data := if old(bufs[b].dirty) then old(bufs[b]).data else old(disk)[old(bufs[b]).block.value])
    {
      var x := bufs[b].block.value;
      if bufs[b].dirty {
        bufs[b] := bufs[b].(dirty := false);
        disk := disk[x := bufs[b].data];
      } else {
        bufs[b] := bufs[b].(data := disk[x]);
      }
      bufs[b] := bufs[b].(valid := true);
    }

    /** bread: the block's buffer, locked and with its latest contents. */
    method Bread(x: nat) returns (b: nat)
      requires Valid() && x < |disk| && x !in Store().locked && HasRoom(x)
      modifies this`bio, this`disk, bufs
      ensures Valid() && disk == old(disk)
      ensures S.StoreStep(old(Store()), Store(), S.Lock(ME, x))
      ensures B.Has(bio, ME, b, x) && b < bufs.Length && bufs[b].data == Store().val[x]
      ensures |bio.refs| == |old(bio.refs)| + 1 && KeepsOthers(x)
      ensures Fetches(old(bio), bio, x, b)
    {
      hide B.Inv, B.Abs, Linked, InRing, S.StoreStep, Hit, Miss;
      var r := Bget(x);
      b := r.value;
      TakeLemma(old(bio), bio.cache, x, b);
      TakenKeeps(old(bio), bio.cache, x, b);
      hide Alone;
      if !bufs[b].valid {
        FillBuf(b, x);
      }
      B.BreadReturnsLatest(bio, ME, b, x);
    }

    /** bread's call of iderw. */
    method FillBuf(b: nat, ghost x: nat)
      requires Valid() && B.Holds(bio, ME, b) && x < |disk| && bufs[b].block == Some(x) && !bufs[b].valid
      modifies this`bio, this`disk, bufs
      ensures Valid() && disk == old(disk) && Store() == old(Store()) && bio.refs == old(bio.refs)
      ensures bio == Filled(old(bio), x, b)
      ensures B.Has(bio, ME, b, x) && forall a: nat, y: nat :: B.Has(old(bio), ME, a, y) ==> B.Has(bio, ME, a, y)
    {
      hide B.Inv, B.Abs, Linked, InRing;
      FillLemma(bio, x, b);
      Iderw(b);
      bio := Filled(bio, x, b);
      assert bio.cache.bufs == bufs[..];
    }

    /** memmove into a held buffer. */
    method SetData(b: nat, ghost x: nat, data: Block)
      requires Valid() && B.Has(bio, ME, b, x)
      modifies this`bio, bufs
      ensures Valid()
      ensures S.StoreStep(old(Store()), Store(), S.Change(ME, x, data)) && B.Modify(old(bio), bio, ME, b, x, data)
      ensures B.Has(bio, ME, b, x) && bufs[b].data == data
      ensures bio.refs == old(bio.refs) && KeepsOthers(x)
    {
      hide B.Inv, B.Abs, Linked, InRing, S.StoreStep;
      ghost var m := bio;
      bufs[b] := bufs[b].(data := data);
      bio := B.SetBuf(m, b, bufs[b]).(touched := m.touched + {b});
      B.StepRefines(m, bio, B.ModifyStep(ME, b, x, data));
    }

    /** log_write's `b->flags |= B_DIRTY`. */
    method SetDirty(b: nat, ghost x: nat)
      requires Valid() && B.Has(bio, ME, b, x)
      modifies this`bio, bufs
      ensures Valid()
      ensures S.StoreStep(old(Store()), Store(), S.Pin(ME, x)) && B.Pin(old(bio), bio, ME, b, x)
      ensures B.Has(bio, ME, b, x) && bio.refs == old(bio.refs) && KeepsOthers(x)
    {
      hide B.Inv, B.Abs, Linked, InRing, S.StoreStep;
      ghost var m := bio;
      bufs[b] := bufs[b].(dirty := true);
      bio := B.SetBuf(m, b, bufs[b]).(touched := m.touched - {b});
      B.StepRefines(m, bio, B.PinStep(ME, b, x));
    }

    /** bwrite: one atomic disk write, and another state a crash could leave. */
    method Bwrite(b: nat, ghost x: nat)
      requires Valid() && B.Has(bio, ME, b, x)
      modifies this, bufs
      ensures Valid()
      ensures S.StoreStep(old(Store()), Store(), S.Write(ME, x)) && B.Bwrite(old(bio), bio, ME, b, x)
      ensures hist == old(hist) + [disk]
      ensures B.Has(bio, ME, b, x) && bio.refs == old(bio.refs) && KeepsOthers(x)
    {
      hide B.Inv, B.Abs, Linked, InRing, S.StoreStep;
      B.HasFacts(bio, ME, b, x);
      ghost var m := bio;
      bufs[b] := bufs[b].(dirty := true);
      Iderw(b);
      bio := B.SetBuf(m, b, bufs[b]).(touched := m.touched - {b}, disk := disk);
      hist := hist + [disk];
      assert bio.cache.bufs == bufs[..];
      B.StepRefines(m, bio, B.BwriteStep(ME, b, x));
    }

    /** brelse: the sleep lock, then the reference; a buffer nobody refers to goes to the front of the ring. */
    method Brelse(b: nat, ghost x: nat)
      requires Valid() && B.Has(bio, ME, b, x) && x !in Store().open
      modifies this`bio, bufs, next, prev
      ensures Valid()
      ensures S.StoreStep(old(Store()), Store(), S.Unlock(ME, x))
      ensures |bio.refs| == |old(bio.refs)| - 1 && KeepsOthers(x)
      ensures Gives(old(bio), bio, b)
      ensures bio.cache.bufs == old(bio.cache.bufs)[b := bufs[b]] && bufs[b] == old(bufs[b]).(refcnt := old(bufs[b].refcnt) - 1)
      ensures bufs[b].refcnt == 0 ==> bio.cache.order == ToFront(old(bio.cache.order), b) && bio.stamp[b] == old(bio.clock)
      ensures bufs[b].refcnt > 0 ==> bio.cache.order == old(bio.cache.order)
    {
      hide B.Inv, B.Abs, ToFront, Linked, InRing, S.StoreStep;
      GiveLemma(bio, x, b);
      ghost var m := bio;
      bufs[b] := bufs[b].(refcnt := bufs[b].refcnt - 1);
      if bufs[b].refcnt == 0 {
        MoveToFront(bio.cache.order, b);
      }
      bio := Left(m, b);
    }

    /** A buffer that nobody refers to any more goes behind the head. */
    method MoveToFront(ghost order: seq<nat>, b: nat)
      requires InRing(order) && Linked(order) && b in order
      modifies next, prev
      ensures InRing(ToFront(order, b)) && Linked(ToFront(order, b))
    {
      ghost var rest := order[..Pos(order, b)] + order[Pos(order, b) + 1..];
      Unlink(order, Pos(order, b), b);
      LinkFirst(rest, b);
      assert [b] + rest == ToFront(order, b);
    }
  }

  lemma EveryBufferIsInRing(m: B.Bio)
    requires B.Inv(m)
    ensures forall i :: 0 <= i < |m.cache.bufs| ==> i in m.cache.order
  {
  }

  lemma VictimIsEligible(c: Cache, b: nat)
    requires IsVictim(c, b)
    ensures Eligible(c.bufs, b)
  {
  }

  /** After bget of buffer b: referenced once more, and locked. */
  ghost function Taken(m: B.Bio, c: Cache, b: nat): B.Bio
    requires b < |m.holder|
  {
    m.(cache := c, holder := m.holder[b := Some(ME)], refs := m.refs + {B.Ref(ME, b, B.Holding)})
  }

  ghost predicate Alone(m: B.Bio) {
    forall r :: r in m.refs ==> r.pid == ME && r.role == B.Holding
  }

  /** bget is a Get and an Acquire of the step system; in the simple form, one Lock. */
  lemma TakeLemma(m: B.Bio, c: Cache, x: nat, b: nat)
    requires B.Inv(m) && Alone(m) && x < |m.disk| && x !in B.Abs(m).locked
    requires Hit(m.cache, c, x, b) || Miss(m.cache, c, x, b)
    ensures b < |m.holder| && B.Inv(Taken(m, c, b)) && Alone(Taken(m, c, b))
    ensures S.StoreStep(B.Abs(m), B.Abs(Taken(m, c, b)), S.Lock(ME, x))
  {
    var m1 := m.(cache := c, refs := m.refs + {B.Ref(ME, b, B.Waiting)});
    assert B.Get(m, m1, ME, x, b);
    B.StepRefines(m, m1, B.GetStep(ME, x, b));
    B.LookIs(c.bufs, x, b);
    var m2 := m1.(holder := m1.holder[b := Some(ME)], refs := m1.refs - {B.Ref(ME, b, B.Waiting)} + {B.Ref(ME, b, B.Holding)});
    assert m2.refs == m.refs + {B.Ref(ME, b, B.Holding)};
    assert m2 == Taken(m, c, b);
    assert m1.holder[b] == None by { assert x !in B.Abs(m1).locked; }
    assert B.Acquire(m1, m2, ME, b);
    B.StepRefines(m1, m2, B.AcquireStep(ME, b));
  }

  ghost function Filled(m: B.Bio, x: nat, b: nat): B.Bio
    requires b < |m.cache.bufs| && x < |m.disk|
  {
    B.SetBuf(m, b, m.cache.bufs[b].(valid := true, data := m.disk[x]))
  }

  /** Reading a block into its buffer changes nothing in the simple form. */
  lemma FillLemma(m: B.Bio, x: nat, b: nat)
    requires B.Inv(m) && Alone(m) && B.Holds(m, ME, b) && x < |m.disk|
    requires m.cache.bufs[b].block == Some(x) && !m.cache.bufs[b].valid
    ensures !m.cache.bufs[b].dirty && B.Inv(Filled(m, x, b)) && B.Abs(Filled(m, x, b)) == B.Abs(m)
    ensures forall a: nat, y: nat :: B.Has(m, ME, a, y) ==> B.Has(Filled(m, x, b), ME, a, y)
  {
    B.StepRefines(m, Filled(m, x, b), B.FillStep(ME, b));
  }

  lemma TakenKeeps(m: B.Bio, c: Cache, x: nat, b: nat)
    requires B.Inv(m) && Alone(m) && b < |m.holder| && x !in B.Abs(m).locked && x < |m.disk|
    requires Hit(m.cache, c, x, b) || Miss(m.cache, c, x, b)
    ensures |Taken(m, c, b).refs| == |m.refs| + 1
    ensures B.Holds(Taken(m, c, b), ME, b) && c.bufs[b].block == Some(x)
    ensures forall a: nat, y: nat :: y != x && B.Has(m, ME, a, y) ==> B.Has(Taken(m, c, b), ME, a, y)
  {
    assert B.Ref(ME, b, B.Holding) !in m.refs by {
      if B.Ref(ME, b, B.Holding) in m.refs {
        B.RefIsCounted(m, B.Ref(ME, b, B.Holding));
        B.LookIs(m.cache.bufs, x, b);
      }
    }
    forall a: nat, y: nat | y != x && B.Has(m, ME, a, y)
      ensures B.Has(Taken(m, c, b), ME, a, y)
    {
      B.RefIsCounted(m, B.Ref(ME, a, B.Holding));
    }
  }

  /** After brelse of buffer b. */
  ghost function Left(m: B.Bio, b: nat): B.Bio
    requires b < |m.holder| == |m.cache.bufs| == |m.stamp| && m.cache.bufs[b].refcnt > 0 && b in m.cache.order
  {
    var f := m.cache.bufs[b].(refcnt := m.cache.bufs[b].refcnt - 1);
    var m1 := m.(holder := m.holder[b := None], refs := m.refs - {B.Ref(ME, b, B.Holding)});
    if f.refcnt == 0 then
      m1.(cache := Cache(m.cache.bufs[b := f], ToFront(m.cache.order, b)), stamp := m.stamp[b := m.clock], clock := m.clock + 1)
    else m1.(cache := m.cache.(bufs := m.cache.bufs[b := f]))
  }

  ghost function Unlocked(m: B.Bio, b: nat): B.Bio
    requires b < |m.holder|
  {
    m.(holder := m.holder[b := None], refs := m.refs - {B.Ref(ME, b, B.Holding)} + {B.Ref(ME, b, B.Releasing)})
  }

  lemma UnlockLemma(m: B.Bio, x: nat, b: nat)
    requires B.Inv(m) && Alone(m) && B.Has(m, ME, b, x) && x !in B.Abs(m).open
    ensures b < |m.holder| == |m.cache.bufs| == |m.stamp| && m.cache.bufs[b].refcnt > 0 && b in m.cache.order
    ensures B.Inv(Unlocked(m, b)) && S.StoreStep(B.Abs(m), B.Abs(Unlocked(m, b)), S.Unlock(ME, x))
    ensures B.Unlock(m, Unlocked(m, b), ME, b)
  {
    B.RefIsCounted(m, B.Ref(ME, b, B.Holding));
    B.BreadReturnsLatest(m, ME, b, x);
    B.LookIs(m.cache.bufs, x, b);
    assert b !in m.touched;
    B.StepRefines(m, Unlocked(m, b), B.UnlockStep(ME, b));
  }

  /** bread, step by step: a Get, an Acquire and, if the buffer is not valid, a Fill. */
  ghost predicate Fetches(m: B.Bio, m': B.Bio, x: nat, b: nat) {
    b < |m.holder| && exists c :: (Hit(m.cache, c, x, b) || Miss(m.cache, c, x, b)) && Reads(Taken(m, c, b), m', x, b)
  }

  ghost predicate Reads(m: B.Bio, m': B.Bio, x: nat, b: nat) {
    && b < |m.cache.bufs| && x < |m.disk|
    && m' == if m.cache.bufs[b].valid then m else Filled(m, x, b)
  }

  /** brelse, step by step: an Unlock and a Drop. */
  ghost predicate Gives(m: B.Bio, m': B.Bio, b: nat) {
    b < |m.holder| && B.Unlock(m, Unlocked(m, b), ME, b) && B.Drop(Unlocked(m, b), m', ME, b)
  }

  /** brelse is an Unlock and a Drop of the step system; in the simple form, one Unlock. */
  lemma GiveLemma(m: B.Bio, x: nat, b: nat)
    requires B.Inv(m) && Alone(m) && B.Has(m, ME, b, x) && x !in B.Abs(m).open
    ensures b < |m.holder| == |m.cache.bufs| == |m.stamp| && m.cache.bufs[b].refcnt > 0 && b in m.cache.order
    ensures B.Inv(Left(m, b)) && Alone(Left(m, b)) && |Left(m, b).refs| == |m.refs| - 1 && Gives(m, Left(m, b), b)
    ensures S.StoreStep(B.Abs(m), B.Abs(Left(m, b)), S.Unlock(ME, x))
    ensures forall a: nat, y: nat :: y != x && B.Has(m, ME, a, y) ==> B.Has(Left(m, b), ME, a, y)
  {
    hide B.Inv, B.Abs, ToFront;
    UnlockLemma(m, x, b);
    assert B.Ref(ME, b, B.Releasing) !in m.refs;
    assert Left(m, b).refs == Unlocked(m, b).refs - {B.Ref(ME, b, B.Releasing)};
    assert B.Drop(Unlocked(m, b), Left(m, b), ME, b);
    B.StepRefines(Unlocked(m, b), Left(m, b), B.DropStep(ME, b));
  }
}
