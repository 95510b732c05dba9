/**
 bread and brelse as whole calls, made of the steps of the shared cache, while
 no other process is inside one. Runs of the storage stack are put together from them.
 */
module CacheCalls {
  import opened Options
  import opened Blocks
  import opened BufferCache
  import opened SharedCache
  import S = BlockStore

  /** Nobody is inside bread or brelse. */
  predicate Settled(m: Bio) {
    forall r :: r in m.refs ==> r.role == Holding
  }

  ghost predicate Sound(m: Bio, n: nat) {
    Inv(m) && Settled(m) && |m.cache.bufs| == n
  }

  lemma {:induction false} SomeVictim(c: Cache, n: nat) returns (b: nat)
    requires n <= |c.order| && exists k :: 0 <= k < n && Eligible(c.bufs, c.order[k])
    requires forall j :: n <= j < |c.order| ==> !Eligible(c.bufs, c.order[j])
    ensures IsVictim(c, b)
  {
    if Eligible(c.bufs, c.order[n - 1]) {
      b := c.order[n - 1];
    } else {
      b := SomeVictim(c, n - 1);
    }
  }

  lemma CanGet(m: Bio, p: nat, x: nat) returns (m': Bio, b: nat)
    requires Inv(m) && !Pending(m, p) && x < |m.disk| && Fetchable(m.cache.bufs, x)
    ensures Get(m, m', p, x, b) && m'.refs == m.refs + {Ref(p, b, Waiting)} && m'.disk == m.disk && m'.holder == m.holder
    ensures b < |m'.cache.bufs| == |m.cache.bufs| && m'.cache.bufs[b].block == Some(x)
  {
    var c, c' := m.cache, m.cache;
    if Cached(c.bufs, x) {
      b :| 0 <= b < |c.bufs| && c.bufs[b].block == Some(x);
      c' := c.(bufs := c.bufs[b := c.bufs[b].(refcnt := c.bufs[b].refcnt + 1)]);
    } else {
      var a :| 0 <= a < |c.bufs| && Eligible(c.bufs, a);
      assert a in c.order;
      b := SomeVictim(c, |c.order|);
      c' := c.(bufs := c.bufs[b := Buf(Some(x), false, false, 1, c.bufs[b].data)]);
    }
    m' := m.(cache := c', refs := m.refs + {Ref(p, b, Waiting)});
  }

  /** One step, in the simple form. */
  lemma Acts(m: Bio, m': Bio, s: Step)
    requires Inv(m) && StepBy(m, m', s)
    ensures Inv(m') && S.StoreStep(Abs(m), Abs(m'), ActOf(m, s)) && |m'.cache.bufs| == |m.cache.bufs|
  {
    StepRefines(m, m', s);
  }

  /** Whoever has a block keeps it until its own brelse. */
  lemma HasKept(m: Bio, m': Bio, s: Step, q: nat, b: nat, y: nat)
    requires Inv(m) && StepBy(m, m', s) && Has(m, q, b, y) && Ref(q, b, Holding) in m'.refs
    ensures Has(m', q, b, y)
  {
    RefIsCounted(m, Ref(q, b, Holding));
  }

  /** Process p has got block x in buffer b, and everyone else has what they had. */
  ghost predicate Fetched(m: Bio, m': Bio, p: nat, b: nat, x: nat) {
    && Sound(m', |m.cache.bufs|) && Has(m', p, b, x) && m'.refs == m.refs + {Ref(p, b, Holding)}
    && Abs(m') == Abs(m).(locked := Abs(m).locked[x := p])
    && (forall q: nat, a: nat, y: nat :: Has(m, q, a, y) ==> Has(m', q, a, y))
  }

  lemma NotHeld(m: Bio, x: nat, b: nat)
    requires Inv(m) && x < |m.disk| && x !in Abs(m).locked && b < |m.cache.bufs| && m.cache.bufs[b].block == Some(x)
    ensures b < |m.holder| && m.holder[b] == None
  {
    LookIs(m.cache.bufs, x, b);
  }

  /** bread: bget, acquiresleep and, if need be, a read from the disk. */
  lemma Bread(m: Bio, p: nat, x: nat) returns (m1: Bio, m2: Bio, m3: Bio, b: nat)
    requires Inv(m) && Settled(m) && x < |m.disk| && x !in Abs(m).locked && Fetchable(m.cache.bufs, x)
    ensures StepBy(m, m1, GetStep(p, x, b)) && StepBy(m1, m2, AcquireStep(p, b))
    ensures m3 == m2 || StepBy(m2, m3, FillStep(p, b))
    ensures Fetched(m, m3, p, b, x)
  {
    hide Inv, Abs, Look, Cached;
    m1, b := CanGet(m, p, x);
    Acts(m, m1, GetStep(p, x, b));
    NotHeld(m1, x, b);
    assert Ref(p, b, Waiting) !in m.refs;
    m2 := m1.(holder := m1.holder[b := Some(p)], refs := m1.refs - {Ref(p, b, Waiting)} + {Ref(p, b, Holding)});
    assert m2.refs == m.refs + {Ref(p, b, Holding)};
    Acts(m1, m2, AcquireStep(p, b));
    m3 := m2;
    if !m2.cache.bufs[b].valid {
      m3 := SetBuf(m2, b, m2.cache.bufs[b].(valid := true, data := m2.disk[x]));
      Acts(m2, m3, FillStep(p, b));
    }
    forall q: nat, a: nat, y: nat | Has(m, q, a, y)
      ensures Has(m3, q, a, y)
    {
      HasKept(m, m1, GetStep(p, x, b), q, a, y);
      HasKept(m1, m2, AcquireStep(p, b), q, a, y);
      if m3 != m2 { HasKept(m2, m3, FillStep(p, b), q, a, y); }
    }
  }

  /** Process p has written new contents of block x to disk, and everyone has what they had. */
  ghost predicate Rewritten(m: Bio, m': Bio, x: nat, data: Block) {
    && Sound(m', |m.cache.bufs|) && m'.refs == m.refs && x < |m.disk| && m'.disk == m.disk[x := data]
    && |Abs(m).val| == |m.disk|
    && Abs(m') == S.Store(Abs(m).val[x := data], m'.disk, Abs(m).pinned - {x}, Abs(m).locked, Abs(m).open - {x})
    && (forall q: nat, a: nat, y: nat :: Has(m, q, a, y) ==> Has(m', q, a, y))
  }

  /** A buffer is changed and written. */
  lemma Rewrite(m: Bio, p: nat, b: nat, x: nat, data: Block) returns (m1: Bio, m2: Bio)
    requires Inv(m) && Settled(m) && Has(m, p, b, x) && x < |m.disk|
    ensures Modify(m, m1, p, b, x, data) && Bwrite(m1, m2, p, b, x) && Rewritten(m, m2, x, data)
  {
    hide Inv, Abs, Look, Cached;
    m1 := SetBuf(m, b, m.cache.bufs[b].(data := data)).(touched := m.touched + {b});
    Acts(m, m1, ModifyStep(p, b, x, data));
    m2 := SetBuf(m1, b, m1.cache.bufs[b].(dirty := false)).(touched := m1.touched - {b}, disk := m1.disk[x := data]);
    Acts(m1, m2, BwriteStep(p, b, x));
    AbsDisk(m);
    AbsDisk(m1);
    assert Abs(m).open + {x} - {x} == Abs(m).open - {x};
  }

  /** Process p has given block x up. */
  ghost predicate Released(m: Bio, m': Bio, p: nat, b: nat, x: nat) {
    && Sound(m', |m.cache.bufs|) && m'.refs == m.refs - {Ref(p, b, Holding)}
    && Abs(m') == Abs(m).(locked := Abs(m).locked - {x})
    && (forall q: nat, a: nat, y: nat :: Has(m, q, a, y) && (q != p || a != b) ==> Has(m', q, a, y))
  }

  lemma CanDrop(m: Bio, p: nat, b: nat) returns (m': Bio)
    requires Inv(m) && Ref(p, b, Releasing) in m.refs
    ensures Drop(m, m', p, b) && m'.refs == m.refs - {Ref(p, b, Releasing)}
  {
    RefIsCounted(m, Ref(p, b, Releasing));
    var f := m.cache.bufs[b].(refcnt := m.cache.bufs[b].refcnt - 1);
    var c' := Cache(m.cache.bufs[b := f], if f.refcnt == 0 then ToFront(m.cache.order, b) else m.cache.order);
    m' := m.(cache := c', refs := m.refs - {Ref(p, b, Releasing)});
    if f.refcnt == 0 {
      m' := m'.(stamp := m.stamp[b := m.clock], clock := m.clock + 1);
    }
  }

  lemma Untouched(m: Bio, p: nat, b: nat, x: nat)
    requires Inv(m) && Has(m, p, b, x) && x !in Abs(m).open
    ensures b !in m.touched && b < |m.holder|
  {
    HasFacts(m, p, b, x);
    AbsAt(m, x);
  }

  /** brelse. */
  lemma Brelse(m: Bio, p: nat, b: nat, x: nat) returns (m1: Bio, m2: Bio)
    requires Inv(m) && Settled(m) && Has(m, p, b, x) && x !in Abs(m).open
    ensures StepBy(m, m1, UnlockStep(p, b)) && StepBy(m1, m2, DropStep(p, b))
    ensures Released(m, m2, p, b, x)
  {
    hide Inv, Abs, Look, Cached;
    Untouched(m, p, b, x);
    m1 := m.(holder := m.holder[b := None], refs := m.refs - {Ref(p, b, Holding)} + {Ref(p, b, Releasing)});
    Acts(m, m1, UnlockStep(p, b));
    m2 := CanDrop(m1, p, b);
    assert m2.refs == m.refs - {Ref(p, b, Holding)};
    Acts(m1, m2, DropStep(p, b));
    forall q: nat, a: nat, y: nat | Has(m, q, a, y) && (q != p || a != b)
      ensures Has(m2, q, a, y)
    {
      HasKept(m, m1, UnlockStep(p, b), q, a, y);
      HasKept(m1, m2, DropStep(p, b), q, a, y);
    }
  }
}
