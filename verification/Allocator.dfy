/**
 umalloc.c as it runs: headers in memory, reached by address, with the free list
 a ring of pointers through `base`. Addresses count header-sized units, so that
 a header at a is followed by its block's data at a + 1.
 */
module Allocator {
  import opened Options
  import opened FreeList

  const HEADER := 8     // sizeof(Header)
  const MINCORE := 4096 // fewest units asked of sbrk

  /** Unit u belongs to an allocated block. */
  ghost predicate LiveAt(live: map<int, int>, u: int) {
    exists a :: a in live && a <= u < a + live[a]
  }

  /** The i-th node of the ring: base, then the free blocks in address order. */
  function Node(base: int, list: seq<Block>, i: nat): int
    requires i <= |list|
  {
    if i == 0 then base else list[i - 1].addr
  }

  function Next(list: seq<Block>, i: nat): nat {
    if i < |list| then i + 1 else 0
  }

  /** The headers in memory form the ring: one cycle through base, rising until it wraps. */
  ghost predicate Linked(base: int, ptr: map<int, int>, size: map<int, int>, list: seq<Block>) {
    forall i :: 0 <= i <= |list| ==> LinkedAt(base, ptr, size, list, i)
  }

  /** The headers of the blocks in use hold their sizes. */
  ghost predicate Sizes(size: map<int, int>, live: map<int, int>) {
    forall a :: a in live ==> a in size && size[a] == live[a]
  }

  lemma SizesAfter(size: map<int, int>, live: map<int, int>, a: int, n: int)
    requires Sizes(size, live)
    ensures Sizes(size[a := n], live[a := n])
  {
  }

  ghost predicate LinkedAt(base: int, ptr: map<int, int>, size: map<int, int>, list: seq<Block>, i: nat)
    requires i <= |list|
  {
    var a := Node(base, list, i);
    && a in ptr && ptr[a] == Node(base, list, Next(list, i))
    && a in size && size[a] == if i == 0 then 0 else list[i - 1].size
  }

  /** Blocks are above base, disjoint, and make up the memory obtained so far. */
  ghost predicate Layout(base: int, list: seq<Block>, live: map<int, int>, core: set<int>) {
    && Sorted(list)
    && (forall i :: 0 <= i < |list| ==> base < list[i].addr)
    && (forall a :: a in live ==> base < a && live[a] > 0 && Apart(list, Block(a, live[a])))
    && (forall a, b :: a in live && b in live && a < b ==> a + live[a] <= b)
    && (forall u :: u in core <==> FreeAt(list, u) || LiveAt(live, u))
  }

  // ---- relinking ----

  /** Address a is no node of the ring. */
  ghost predicate OffRing(base: int, list: seq<Block>, a: int) {
    a != base && forall i :: 0 <= i < |list| ==> list[i].addr != a
  }

  /** Writing a header off the ring leaves the ring as it is. */
  lemma OffRingWrite(base: int, ptr: map<int, int>, size: map<int, int>, list: seq<Block>, a: int, v: int, w: int)
    requires Linked(base, ptr, size, list) && OffRing(base, list, a)
    ensures Linked(base, ptr[a := v], size[a := w], list)
  {
    var ptr', size' := ptr[a := v], size[a := w];
    forall x | 0 <= x <= |list|
      ensures LinkedAt(base, ptr', size', list, x)
    {
      assert LinkedAt(base, ptr, size, list, x);
    }
  }

  /** The new header, pointing at node j's successor, takes the place of blocks k to j after node k. */
  lemma LinkNew(base: int, ptr: map<int, int>, size: map<int, int>, list: seq<Block>, k: nat, j: nat, b: Block)
    requires Linked(base, ptr, size, list) && Rising(base, list) && OffRing(base, list, b.addr)
    requires k <= j <= |list| && b.addr in ptr && ptr[b.addr] == Node(base, list, Next(list, j))
    requires b.addr in size && size[b.addr] == b.size
    ensures Linked(base, ptr[Node(base, list, k) := b.addr], size, Replace(list, k, j, b))
  {
    var p, r := Node(base, list, k), Replace(list, k, j, b);
    NodesDistinct(base, list, k);
    var ptr' := ptr[p := b.addr];
    forall x | 0 <= x <= |r|
      ensures LinkedAt(base, ptr', size, r, x)
    {
      if x <= k {
        assert Node(base, r, x) == Node(base, list, x) && LinkedAt(base, ptr, size, list, x);
        assert x < k ==> Node(base, r, x + 1) == Node(base, list, x + 1);
      } else if x == k + 1 {
        assert r[k] == b && (x < |r| ==> r[x] == list[j]);
      } else {
        var y := x - k - 1 + j;
        assert r[x - 1] == list[y - 1] && LinkedAt(base, ptr, size, list, y);
        assert x < |r| ==> r[x] == list[y];
      }
    }
  }

  /** Block k - 1 swallows the new header and blocks up to j: its pointer and size are the ones to change. */
  lemma LinkGrown(base: int, ptr: map<int, int>, size: map<int, int>, list: seq<Block>, k: nat, j: nat, n: int)
    requires Linked(base, ptr, size, list) && Rising(base, list) && 0 < k <= j <= |list|
    ensures var p := list[k - 1].addr;
            Linked(base, ptr[p := Node(base, list, Next(list, j))], size[p := n], Replace(list, k - 1, j, Block(p, n)))
  {
    hide Rising, Linked;
    var p, next := list[k - 1].addr, Node(base, list, Next(list, j));
    var r := Replace(list, k - 1, j, Block(p, n));
    NodesDistinct(base, list, k);
    var ptr', size' := ptr[p := next], size[p := n];
    forall x | 0 <= x <= |r|
      ensures LinkedAt(base, ptr', size', r, x)
    {
      if x < k {
        LinkOf(base, ptr, size, list, x);
        assert Node(base, r, x) == Node(base, list, x);
        assert Node(base, r, x + 1) == Node(base, list, x + 1);
      } else if x == k {
        assert r[k - 1] == Block(p, n) && (x < |r| ==> r[x] == list[j]);
      } else {
        var y := x - k + j;
        LinkOf(base, ptr, size, list, y);
        assert r[x - 1] == list[y - 1];
        assert x < |r| ==> r[x] == list[y];
      }
    }
    LinkedAll(base, ptr', size', r);
  }

  lemma LinkOf(base: int, ptr: map<int, int>, size: map<int, int>, list: seq<Block>, x: nat)
    requires Linked(base, ptr, size, list) && x <= |list|
    ensures LinkedAt(base, ptr, size, list, x)
  {
  }

  lemma LinkedAll(base: int, ptr: map<int, int>, size: map<int, int>, list: seq<Block>)
    requires forall x :: 0 <= x <= |list| ==> LinkedAt(base, ptr, size, list, x)
    ensures Linked(base, ptr, size, list)
  {
  }

  /** Addresses rise along the ring until it wraps. */
  ghost predicate Rising(base: int, list: seq<Block>) {
    Sorted(list) && forall i :: 0 <= i < |list| ==> base < list[i].addr
  }

  lemma NodesDistinct(base: int, list: seq<Block>, k: nat)
    requires Rising(base, list) && k <= |list|
    ensures forall x :: 0 <= x <= |list| && x != k ==> Node(base, list, x) != Node(base, list, k)
  {
  }

  // ---- who owns which unit ----

  lemma ApartMeansNoCommonUnit(list: seq<Block>, c: Block, u: int)
    requires Apart(list, c) && In(c, u)
    ensures !FreeAt(list, u)
  {
    assert forall i :: 0 <= i < |list| ==> !In(list[i], u);
  }

  lemma NoCommonUnitMeansApart(list: seq<Block>, c: Block)
    requires Sorted(list) && c.size > 0 && forall u :: In(c, u) ==> !FreeAt(list, u)
    ensures Apart(list, c)
  {
    forall i | 0 <= i < |list|
      ensures list[i].End() <= c.addr || c.End() <= list[i].addr
    {
      var u := if list[i].addr < c.addr then c.addr else list[i].addr;
      assert In(list[i], u) ==> FreeAt(list, u);
    }
  }

  /** Freeing block a: its units change owner and nothing else does. */
  lemma FreeLayout(base: int, list: seq<Block>, live: map<int, int>, core: set<int>, a: int, b: Block, k: nat, r: seq<Block>)
    requires Layout(base, list, live, core) && a in live && b == Block(a, live[a])
    requires k == Below(list, a) && r == Insert(list, b, k)
    ensures Layout(base, r, live - {a}, core)
  {
    InsertSorted(list, b, k);
    forall u
      ensures FreeAt(r, u) <==> FreeAt(list, u) || In(b, u)
    {
      InsertUnits(list, b, k, u);
    }
    forall i | 0 <= i < |r|
      ensures base < r[i].addr
    {
      assert In(r[i], r[i].addr) && FreeAt(r, r[i].addr);
      if FreeAt(list, r[i].addr) {
        var j :| 0 <= j < |list| && In(list[j], r[i].addr);
      }
    }
    forall c | c in live && c != a
      ensures Apart(r, Block(c, live[c]))
    {
      forall u | In(Block(c, live[c]), u)
        ensures !FreeAt(r, u)
      {
        ApartMeansNoCommonUnit(list, Block(c, live[c]), u);
      }
      NoCommonUnitMeansApart(r, Block(c, live[c]));
    }
    forall u
      ensures u in core <==> FreeAt(r, u) || LiveAt(live - {a}, u)
    {
      LiveWithout(live, a, u);
    }
  }

  lemma LiveWithout(live: map<int, int>, a: int, u: int)
    requires a in live
    ensures LiveAt(live, u) <==> LiveAt(live - {a}, u) || In(Block(a, live[a]), u)
  {
    if c :| c in live && c <= u < c + live[c] && c != a {
      assert c in live - {a} && (live - {a})[c] == live[c];
    }
  }

  lemma LiveWith(live: map<int, int>, a: int, n: int, u: int)
    requires a !in live
    ensures LiveAt(live[a := n], u) <==> LiveAt(live, u) || In(Block(a, n), u)
  {
    LiveWithout(live[a := n], a, u);
    assert live[a := n] - {a} == live;
  }

  /** Allocating the tail of block i. */
  lemma CarveLayout(base: int, list: seq<Block>, live: map<int, int>, core: set<int>, i: nat, n: int, t: Block, r: seq<Block>)
    requires Layout(base, list, live, core) && i < |list| && 0 < n <= list[i].size
    requires t == Tail(list, i, n) && r == Carve(list, i, n)
    ensures t.addr !in live && Layout(base, r, live[t.addr := n], core)
    ensures forall u :: In(t, u) ==> !LiveAt(live, u)
  {
    CarveKeeps(list, i, n);
    TailIsFree(base, list, live, core, i, n, t);
    forall j | 0 <= j < |r|
      ensures base < r[j].addr
    {
      assert r[j].addr == list[if list[i].size == n && j >= i then j + 1 else j].addr;
    }
    hide LiveAt, Carve, Tail;
    forall c | c in live
      ensures Apart(r, Block(c, live[c])) && (c < t.addr ==> c + live[c] <= t.addr) && (t.addr < c ==> t.End() <= c)
    {
      assert Apart(list, Block(c, live[c]));
      forall u | In(Block(c, live[c]), u)
        ensures !FreeAt(r, u)
      {
        ApartMeansNoCommonUnit(list, Block(c, live[c]), u);
      }
      NoCommonUnitMeansApart(r, Block(c, live[c]));
    }
    hide FreeAt;
    forall u
      ensures u in core <==> FreeAt(r, u) || LiveAt(live[t.addr := n], u)
    {
      LiveWith(live, t.addr, n, u);
    }
  }

  /** The units of the tail are free, so nobody has them. */
  lemma TailIsFree(base: int, list: seq<Block>, live: map<int, int>, core: set<int>, i: nat, n: int, t: Block)
    requires Layout(base, list, live, core) && i < |list| && 0 < n <= list[i].size && t == Tail(list, i, n)
    ensures In(t, t.addr) && In(list[i], t.addr) && t.addr !in live
    ensures forall u :: In(t, u) ==> In(list[i], u) && !LiveAt(live, u) && u in core
  {
    forall u | In(t, u)
      ensures In(list[i], u) && !LiveAt(live, u) && u in core
    {
      assert In(list[i], u) && FreeAt(list, u);
      forall c | c in live
        ensures !(c <= u < c + live[c])
      {
        assert Apart(list, Block(c, live[c]));
      }
    }
    assert In(t, t.addr);
    assert t.addr in live ==> LiveAt(live, t.addr);
  }

  function Range(a: int, n: int): (r: set<int>)
    ensures forall u :: u in r <==> a <= u < a + n
    decreases n
  {
    if n <= 0 then {} else Range(a, n - 1) + {a + n - 1}
  }

  /** Fresh memory above everything so far, taken as one allocated block. */
  lemma CoreLayout(base: int, list: seq<Block>, live: map<int, int>, core: set<int>, hp: int, nu: int)
    requires Layout(base, list, live, core) && base < hp && nu > 0 && forall u :: u in core ==> u < hp
    ensures hp !in live && Layout(base, list, live[hp := nu], core + Range(hp, nu))
    ensures Below(list, hp) == |list|
  {
    UnderBreak(base, list, live, core, hp);
    hide FreeAt, LiveAt, In;
    forall u
      ensures u in core + Range(hp, nu) <==> FreeAt(list, u) || LiveAt(live[hp := nu], u)
    {
      LiveWith(live, hp, nu, u);
      InRange(hp, nu, u);
    }
  }

  lemma InRange(a: int, n: int, u: int)
    ensures u in Range(a, n) <==> In(Block(a, n), u)
  {
  }

  /** Every free and every allocated block ends where the heap ends, or before. */
  lemma UnderBreak(base: int, list: seq<Block>, live: map<int, int>, core: set<int>, hp: int)
    requires Layout(base, list, live, core) && forall u :: u in core ==> u < hp
    ensures forall i :: 0 <= i < |list| ==> list[i].End() <= hp && list[i].addr < hp
    ensures forall a :: a in live ==> a + live[a] <= hp
  {
    forall i | 0 <= i < |list|
      ensures list[i].End() <= hp && list[i].addr < hp
    {
      assert In(list[i], list[i].End() - 1) && FreeAt(list, list[i].End() - 1);
    }
    forall a | a in live
      ensures a + live[a] <= hp
    {
      assert LiveAt(live, a + live[a] - 1);
    }
  }

  // ---- walking the ring ----

  /** How many steps lead from node j to node k. */
  function Steps(list: seq<Block>, j: nat, k: nat): nat
    requires j <= |list| && k <= |list|
  {
    if j <= k then k - j else k + |list| + 1 - j
  }

  /** Units asked of sbrk for a request of n. */
  function Asked(n: int): int {
    if n < MINCORE then MINCORE else n
  }

  /** Units for a request: the data rounded up, and a header. */
  function Units(nbytes: nat): (n: int)
    ensures n >= 1 && (n - 1) * HEADER >= nbytes && (n - 2) * HEADER < nbytes
  {
    (nbytes + HEADER - 1) / HEADER + 1
  }

  /** The node s steps after node f. */
  function Walk(list: seq<Block>, f: nat, s: nat): (i: nat)
    requires f <= |list| && s <= |list| + 1
    ensures i <= |list|
  {
    if f + s <= |list| then f + s else f + s - |list| - 1
  }

  function NodeSize(list: seq<Block>, i: nat): int
    requires i <= |list|
  {
    if i == 0 then 0 else list[i - 1].size
  }

  /** No free block has n units. */
  ghost predicate NoFit(list: seq<Block>, n: int) {
    forall i :: 0 <= i < |list| ==> list[i].size < n
  }

  /** The nodes 1 to s - 1 steps after node f have fewer than n units. */
  ghost predicate TooSmall(list: seq<Block>, f: nat, s: nat, n: int)
    requires f <= |list| && s <= |list| + 2
  {
    forall t :: 1 <= t < s ==> NodeSize(list, Walk(list, f, t)) < n
  }

  /** Going round the ring from node f, the s-th node is the first with n units. */
  ghost predicate NextFit(list: seq<Block>, f: nat, s: nat, n: int) {
    && f <= |list| && 1 <= s <= |list| + 1 && TooSmall(list, f, s, n)
    && Walk(list, f, s) > 0 && list[Walk(list, f, s) - 1].size >= n
  }

  class Heap {
    const base: int          // &base
    var ptr: map<int, int>   // header -> s.ptr
    var size: map<int, int>  // header -> s.size
    var freep: int           // 0 before the first malloc
    ghost var list: seq<Block>    // the free blocks in address order
    ghost var live: map<int, int> // allocated blocks: header -> units
    ghost var core: set<int>      // units obtained from sbrk
    ghost var brk: int            // all of them are below

    ghost predicate Valid()
      reads this
    {
      && 0 < base < brk && (forall u :: u in core ==> u < brk)
      && Layout(base, list, live, core)
      && Sizes(size, live)
      && (if freep == 0 then list == [] && live == map[] && core == {}
          else Linked(base, ptr, size, list) && exists f :: 0 <= f <= |list| && freep == Node(base, list, f))
    }

    constructor (base: int, brk: int)
      requires 0 < base < brk
      ensures Valid() && this.base == base && freep == 0 && list == [] && live == map[] && core == {} && this.brk == brk
    {
      this.base := base;
      ptr := map[];
      size := map[];
      freep := 0;
      list := [];
      live := map[];
      core := {};
      this.brk := brk;
    }

    /** free's search: the ring node after which bp belongs. */
    method FindPlace(bp: int) returns (p: int)
      requires Valid() && bp in live
      ensures p == Node(base, list, Below(list, bp)) && p >= base
    {
      hide Layout, Below, Linked, Sizes, Steps, Sorted, Rising;
      SortedList(base, list, live, core);
      ghost var k := Below(list, bp);
      ghost var j :| 0 <= j <= |list| && freep == Node(base, list, j);
      p := freep;
      NodesAround(base, ptr, size, list, j);
      Place(base, list, live, core, bp, j);
      while !(bp > p && bp < ptr[p]) && !(p >= ptr[p] && (bp > p || bp < ptr[p]))
        invariant 0 <= j <= |list| && p == Node(base, list, j) && p in ptr
        invariant ptr[p] == Node(base, list, Next(list, j)) && p >= base
        invariant j == k <==> (bp > p && bp < ptr[p]) || (p >= ptr[p] && (bp > p || bp < ptr[p]))
        decreases Steps(list, j, k)
      {
        OneStep(list, j, k);
        p := ptr[p];
        j := Next(list, j);
        NodesAround(base, ptr, size, list, j);
        Place(base, list, live, core, bp, j);
      }
    }

    /** free's first assignments: bp takes in the block above it, if they touch. */
    method MergeUp(bp: int, p: int, ghost k: nat, ghost b: Block) returns (ghost b1: Block, ghost j: nat)
      requires Linked(base, ptr, size, list) && Rising(base, list) && OffRing(base, list, bp)
      requires k <= |list| && p == Node(base, list, k) && b == Block(bp, b.size) && base < bp && b.size > 0
      requires bp in size && size[bp] == b.size
      modifies this`ptr, this`size
      ensures Linked(base, ptr, size, list) && bp in ptr && bp in size
      ensures j == (if Up(list, b, k) then k + 1 else k) && ptr[bp] == Node(base, list, Next(list, j))
      ensures b1 == Block(bp, b.size + if Up(list, b, k) then list[k].size else 0) && size[bp] == b1.size
      ensures size.Keys == old(size.Keys) && forall a :: a in size && a != bp ==> size[a] == old(size)[a]
    {
      NodesAround(base, ptr, size, list, k);
      var np := ptr[p];
      b1, j := b, k;
      ghost var w, v := b.size, Node(base, list, Next(list, k));
      if bp + size[bp] == np {
        b1, j := Block(bp, b.size + list[k].size), k + 1;
        w, v := b1.size, Node(base, list, Next(list, k + 1));
        size := size[bp := size[bp] + size[np]];
        ptr := ptr[bp := ptr[np]];
      } else {
        ptr := ptr[bp := np];
      }
      OffRingWrite(base, old(ptr), old(size), list, bp, v, w);
      assert size == old(size)[bp := w];
    }

    /** free's last assignments: the block below takes bp in if they touch, else points at it. */
    method MergeDown(bp: int, p: int, ghost k: nat, ghost j: nat, ghost b: Block, ghost b1: Block)
      requires Linked(base, ptr, size, list) && Rising(base, list) && OffRing(base, list, bp)
      requires k <= |list| && p == Node(base, list, k) && b.addr == b1.addr == bp && base < bp
      requires j == (if Up(list, b, k) then k + 1 else k) && bp in ptr && ptr[bp] == Node(base, list, Next(list, j))
      requires b1.size == b.size + (if Up(list, b, k) then list[k].size else 0) && bp in size && size[bp] == b1.size
      modifies this`ptr, this`size
      ensures Linked(base, ptr, size, Insert(list, b, k))
      ensures k <= |Insert(list, b, k)| && p == Node(base, Insert(list, b, k), k)
      ensures size.Keys == old(size.Keys) && forall a :: a in size && a != p ==> size[a] == old(size)[a]
    {
      hide Linked, Sorted;
      NodesAround(base, ptr, size, list, k);
      assert p + size[p] == bp <==> Down(list, b, k);
      if p + size[p] == bp {
        LinkGrown(base, ptr, size, list, k, j, size[p] + size[bp]);
        size := size[p := size[p] + size[bp]];
        ptr := ptr[p := ptr[bp]];
      } else {
        LinkNew(base, ptr, size, list, k, j, b1);
        ptr := ptr[p := bp];
      }
    }

    /** free: the block goes back, merged with the free blocks it touches. */
    method Free(ap: int)
      requires Valid() && ap - 1 in live
      modifies this`ptr, this`size, this`freep, this`list, this`live
      ensures Valid() && live == old(live) - {ap - 1} && freep != 0
      ensures Sorted(old(list)) && list == Insert(old(list), Block(ap - 1, old(live)[ap - 1]), Below(old(list), ap - 1))
      ensures Below(old(list), ap - 1) <= |list| && freep == Node(base, list, Below(old(list), ap - 1))
    {
      hide Layout, Below, FreeAt, LiveAt, Linked, LinkedAt, Sorted, Insert, OffRing, Rising, Node;
      SortedList(base, list, live, core);
      BesideLive(base, list, live, core, ap - 1);
      var bp := ap - 1;
      ghost var k := Below(list, bp);
      ghost var b := Block(bp, live[bp]);
      var p := FindPlace(bp);
      FreeLayout(base, list, live, core, bp, b, k, Insert(list, b, k));
      ghost var b1, j := MergeUp(bp, p, k, b);
      LiveKeepsSizes(base, list, live, core, old(size), size, bp, p);
      MergeDown(bp, p, k, j, b, b1);
      freep := p;
      list := Insert(list, b, k);
      live := live - {bp};
    }

    /** morecore: `got` is what sbrk returns. The new units are freed, and the node before them returned. */
    method Morecore(nunits: int, got: Option<int>) returns (p: int)
      requires Valid() && freep != 0 && nunits > 0 && (got.Some? ==> got.value >= brk)
      modifies this
      ensures Valid() && live == old(live) && freep != 0
      ensures got == None ==> p == 0 && list == old(list) && core == old(core) && brk == old(brk) && freep == old(freep)
      ensures got.Some? ==> p == freep && core == old(core) + Range(got.value, Asked(nunits))
      ensures got.Some? ==> brk == got.value + Asked(nunits)
      ensures got.Some? ==> list == Insert(old(list), Block(got.value, Asked(nunits)), |old(list)|)
      ensures got.Some? ==> |old(list)| <= |list| && freep == Node(base, list, |old(list)|)
    {
      hide Layout, Below, FreeAt, LiveAt, Sorted, Insert, Linked, Sizes, OffRing, Rising;
      var nu := if nunits < MINCORE then MINCORE else nunits;
      if got == None {
        return 0;
      }
      var hp := got.value;
      CoreLayout(base, list, live, core, hp, nu);
      SortedList(base, list, live, core);
      AboveRing(base, list, live, core, hp);
      ghost var live0 := live;
      OffRingSize(base, ptr, size, list, hp, nu);
      SizesAfter(size, live, hp, nu);
      size := size[hp := nu];
      live := live[hp := nu];
      core := core + Range(hp, nu);
      brk := hp + nu;
      Free(hp + 1);
      assert live0[hp := nu] - {hp} == live0;
      return freep;
    }

    /** malloc's exit: node i fits; the block is unlinked, or its last n units are cut off. */
    method Take(p: int, prevp: int, n: int, ghost i: nat) returns (r: int)
      requires Valid() && freep != 0 && 0 < i <= |list| && 0 < n <= list[i - 1].size
      requires p == Node(base, list, i) && prevp == Node(base, list, i - 1)
      modifies this`ptr, this`size, this`freep, this`list, this`live
      ensures Valid() && freep == prevp && r - 1 == Tail(old(list), i - 1, n).addr && r > 0
      ensures r - 1 !in old(live) && live == old(live)[r - 1 := n] && list == Carve(old(list), i - 1, n)
      ensures forall u :: r - 1 <= u < r - 1 + n ==> u in core && !LiveAt(old(live), u)
    {
      hide Layout, FreeAt, LiveAt, Linked, Sizes, OffRing, In, Carve;
      ghost var t, list' := Tail(list, i - 1, n), Carve(list, i - 1, n);
      NodesAround(base, ptr, size, list, i);
      NodesAround(base, ptr, size, list, i - 1);
      CarveLayout(base, list, live, core, i - 1, n, t, list');
      CarveBefore(base, list, i - 1, n);
      NodeAbove(base, list, live, core, i - 1);
      TailUnits(base, list, live, core, i - 1, n, t);
      var a := p;
      if size[p] == n {
        TakeWhole(base, ptr, size, list, live, core, i);
        ptr := ptr[prevp := ptr[p]];
      } else {
        TakePart(base, ptr, size, list, live, core, i, n);
        size := size[p := size[p] - n];
        a := p + size[p];
        size := size[a := n];
      }
      freep := prevp;
      list := list';
      live := live[a := n];
      assert freep == Node(base, list, i - 1);
      return a + 1;
    }

    /** malloc's first lines: before the first call the ring is base alone. */
    method Start() returns (ghost f: nat)
      requires Valid()
      modifies this`ptr, this`size, this`freep
      ensures Valid() && freep != 0 && f <= |list| && freep == Node(base, list, f)
      ensures freep == if old(freep) == 0 then base else old(freep)
    {
      if freep == 0 {
        ptr := ptr[base := base];
        size := size[base := 0];
        freep := base;
        FirstRing(base, ptr, size);
      }
      f :| f <= |list| && freep == Node(base, list, f);
    }

    lemma AtNode(i: nat)
      requires Valid() && freep != 0 && i <= |list|
      ensures Next(list, i) <= |list|
      ensures Node(base, list, i) in ptr && ptr[Node(base, list, i)] == Node(base, list, Next(list, i))
      ensures Node(base, list, i) in size && size[Node(base, list, i)] == NodeSize(list, i)
      ensures Node(base, list, i) > 0
    {
      assert LinkedAt(base, ptr, size, list, i);
    }

    /** Only a full turn leads back to freep. */
    lemma FullTurn(f: nat, s: nat)
      requires Valid() && f <= |list| && 1 <= s <= |list| + 1
      requires Node(base, list, Walk(list, f, s)) == Node(base, list, f)
      ensures s == |list| + 1 && Walk(list, f, s) == f
    {
      NodesDistinct(base, list, f);
    }

    /** morecore for malloc: the core makes some block large enough. */
    method Grow(n: int, got: Option<int>) returns (p: int, ghost f: nat, ghost fit: nat)
      requires Valid() && freep != 0 && n > 0 && (got.Some? ==> got.value >= brk)
      modifies this
      ensures Valid() && live == old(live) && freep != 0
      ensures got == None ==> p == 0 && list == old(list) && core == old(core) && freep == old(freep)
      ensures got.Some? ==> p == freep && core == old(core) + Range(got.value, Asked(n))
      ensures got.Some? ==> f <= |list| && freep == Node(base, list, f) && fit < |list| && list[fit].size >= n
      ensures got.Some? ==> f == |old(list)| && list == Insert(old(list), Block(got.value, Asked(n)), |old(list)|)
    {
      hide Layout, FreeAt, LiveAt, Linked, LinkedAt, Sorted, Insert, Node;
      SortedList(base, list, live, core);
      f, fit := |list|, 0;
      if got.Some? {
        fit := CoreFits(list, got.value, Asked(n));
      }
      p := Morecore(n, got);
    }

    /** malloc's scan is s nodes past freep, and none of those fitted. */
    ghost predicate Scanning(p: int, prevp: int, n: int, f: nat, s: nat)
      reads this
    {
      && f <= |list| && freep == Node(base, list, f) && 1 <= s <= |list| + 1
      && p == Node(base, list, Walk(list, f, s)) && prevp == Node(base, list, Walk(list, f, s - 1))
      && TooSmall(list, f, s, n)
    }

    /**
     malloc: `got` is what sbrk would return, `calls` how often morecore ran. It
     fails exactly if no free block is large enough and sbrk fails; otherwise the
     result is the data of a block disjoint from every allocated one. That is the end of
     the first block large enough in `ring`, s nodes past its node f, where freep was or,
     after morecore, where it left freep; freep is then the node before that block.
     */
    method Malloc(nbytes: nat, got: Option<int>)
      returns (r: int, calls: nat, ghost ring: seq<Block>, ghost f: nat, ghost s: nat)
      requires Valid() && nbytes + HEADER - 1 < 0x1_0000_0000 && (got.Some? ==> got.value >= brk)
      modifies this
      ensures Valid() && calls <= 1
      ensures r == 0 ==> got == None && calls == 1 && live == old(live) && list == old(list) && core == old(core)
      ensures calls == 1 <==> NoFit(old(list), Units(nbytes))
      ensures r == 0 <==> NoFit(old(list), Units(nbytes)) && got == None
      ensures r != 0 ==> r - 1 !in old(live) && live == old(live)[r - 1 := Units(nbytes)]
      ensures r != 0 ==> forall u :: r - 1 <= u < r - 1 + Units(nbytes) ==> u in core && !LiveAt(old(live), u)
      ensures core == if calls == 1 && got.Some? then old(core) + Range(got.value, Asked(Units(nbytes))) else old(core)
      ensures r != 0 ==>
                ring == if calls == 0 then old(list) else Insert(old(list), Block(got.value, Asked(Units(nbytes))), |old(list)|)
      ensures r != 0 ==> NextFit(ring, f, s, Units(nbytes))
      ensures r != 0 && calls == 0 ==> Node(base, ring, f) == if old(freep) == 0 then base else old(freep)
      ensures r != 0 && calls == 1 ==> f == |old(list)|
      ensures r != 0 ==>
                && list == Carve(ring, Walk(ring, f, s) - 1, Units(nbytes))
                && r - 1 == Tail(ring, Walk(ring, f, s) - 1, Units(nbytes)).addr && freep == Node(base, ring, Walk(ring, f, s - 1))
      ensures r == 0 ==> freep == if old(freep) == 0 then base else old(freep)
    {
      hide Heap.Valid, LiveAt, Carve, Tail, Node, Walk, TooSmall, Next, Range, Insert;
      var n := (nbytes + HEADER - 1) / HEADER + 1;
      f := Start();
      ring, calls := list, 0;
      var prevp := freep;
      ghost var fit: nat := 0;
      s := 1;
      AtNode(f);
      FirstStep(list, f, n);
      var p := ptr[prevp];
      while true
        invariant Valid() && freep != 0 && live == old(live) && calls <= 1
        invariant Scanning(p, prevp, n, f, s) && ring == list
        invariant calls == 0 ==> freep == if old(freep) == 0 then base else old(freep)
        invariant calls == 1 ==> got.Some? && f == |old(list)| && ring == Insert(old(list), Block(got.value, Asked(n)), |old(list)|)
        invariant calls == 0 ==> list == old(list) && core == old(core) && brk == old(brk)
        invariant calls == 1 ==> got.Some? && core == old(core) + Range(got.value, Asked(n))
        invariant calls == 1 ==> fit < |list| && list[fit].size >= n && NoFit(old(list), n)
        decreases 1 - calls, |list| + 1 - s
      {
        AtNode(Walk(list, f, s));
        if size[p] >= n {
          StepBack(list, f, s);
          assert list[Walk(list, f, s) - 1].size >= n;
          r := Take(p, prevp, n, Walk(list, f, s));
          return;
        }
        if p == freep {
          FullTurn(f, s);
          NoneFits(list, f, n);
          assert calls == 0;
          calls := 1;
          p, f, fit := Grow(n, got);
          if p == 0 {
            r := 0;
            return;
          }
          ring, s := list, 0;
          AtNode(f);
          FirstStep(list, f, n);
        } else {
          NextStep(base, list, f, s, n);
        }
        prevp := p;
        p := ptr[p];
        s := s + 1;
      }
    }
  }

  /** free's test holds at the node after which the block belongs, and at no other. */
  lemma Place(base: int, list: seq<Block>, live: map<int, int>, core: set<int>, bp: int, j: nat)
    requires Layout(base, list, live, core) && bp in live && j <= |list|
    ensures var p, q := Node(base, list, j), Node(base, list, Next(list, j));
            p >= base && (j == Below(list, bp) <==> (bp > p && bp < q) || (p >= q && (bp > p || bp < q)))
  {
    hide Layout, FreeAt, LiveAt, Below;
    SortedList(base, list, live, core);
    BesideLive(base, list, live, core, bp);
  }

  lemma OneStep(list: seq<Block>, j: nat, k: nat)
    requires j <= |list| && k <= |list| && j != k
    ensures 0 <= Steps(list, Next(list, j), k) < Steps(list, j, k)
  {
  }

  lemma BesideLive(base: int, list: seq<Block>, live: map<int, int>, core: set<int>, bp: int)
    requires Layout(base, list, live, core) && bp in live
    ensures base < bp && OffRing(base, list, bp)
    ensures forall i :: 0 <= i < Below(list, bp) ==> list[i].addr < bp
    ensures forall i :: Below(list, bp) <= i < |list| ==> bp < list[i].addr
  {
    assert Apart(list, Block(bp, live[bp]));
  }

  lemma SortedList(base: int, list: seq<Block>, live: map<int, int>, core: set<int>)
    requires Layout(base, list, live, core)
    ensures Sorted(list) && Rising(base, list)
    ensures forall a :: a in live ==> base < a && live[a] > 0
  {
  }

  /** The ring around node k. */
  lemma NodesAround(base: int, ptr: map<int, int>, size: map<int, int>, list: seq<Block>, k: nat)
    requires Linked(base, ptr, size, list) && k <= |list|
    ensures LinkedAt(base, ptr, size, list, k)
    ensures k < |list| ==> list[k].addr in ptr && ptr[list[k].addr] == Node(base, list, Next(list, k + 1))
    ensures k < |list| ==> list[k].addr in size && size[list[k].addr] == list[k].size
  {
    assert LinkedAt(base, ptr, size, list, k);
    assert k < |list| ==> LinkedAt(base, ptr, size, list, k + 1);
  }

  /** free writes no other allocated header's size. */
  lemma LiveKeepsSizes(base: int, list: seq<Block>, live: map<int, int>, core: set<int>,
                       size: map<int, int>, size': map<int, int>, bp: int, p: int)
    requires Layout(base, list, live, core) && bp in live
    requires Sizes(size, live)
    requires exists k :: 0 <= k <= |list| && p == Node(base, list, k)
    requires size'.Keys == size.Keys && forall a :: a in size && a != bp ==> size'[a] == size[a]
    ensures forall a :: a in live && a != bp ==> a in size' && size'[a] == live[a] && a != p
  {
    var k :| 0 <= k <= |list| && p == Node(base, list, k);
    forall a | a in live && a != bp
      ensures a != p
    {
      assert Apart(list, Block(a, live[a]));
    }
  }

  lemma AboveRing(base: int, list: seq<Block>, live: map<int, int>, core: set<int>, hp: int)
    requires Layout(base, list, live, core) && base < hp && forall u :: u in core ==> u < hp
    ensures OffRing(base, list, hp)
  {
    forall i | 0 <= i < |list|
      ensures list[i].addr < hp
    {
      assert In(list[i], list[i].addr) && FreeAt(list, list[i].addr);
    }
  }

  lemma OffRingSize(base: int, ptr: map<int, int>, size: map<int, int>, list: seq<Block>, a: int, w: int)
    requires Linked(base, ptr, size, list) && OffRing(base, list, a)
    ensures Linked(base, ptr, size[a := w], list)
  {
    var size' := size[a := w];
    forall x | 0 <= x <= |list|
      ensures LinkedAt(base, ptr, size', list, x)
    {
      assert LinkedAt(base, ptr, size, list, x);
    }
  }

  /** No allocated header is a node of the ring. */
  lemma LiveElsewhere(base: int, list: seq<Block>, live: map<int, int>, core: set<int>, i: nat)
    requires Layout(base, list, live, core) && i < |list|
    ensures forall a :: a in live ==> a != list[i].addr
  {
    forall a | a in live
      ensures a != list[i].addr
    {
      assert Apart(list, Block(a, live[a]));
    }
  }

  lemma TailUnits(base: int, list: seq<Block>, live: map<int, int>, core: set<int>, i: nat, n: int, t: Block)
    requires Layout(base, list, live, core) && i < |list| && 0 < n <= list[i].size && t == Tail(list, i, n)
    ensures t.addr > base && forall u :: t.addr <= u < t.addr + n ==> u in core && !LiveAt(live, u)
    ensures n < list[i].size ==> OffRing(base, list, t.addr)
    ensures n == list[i].size ==> t.addr == list[i].addr
  {
    CarveLayout(base, list, live, core, i, n, t, Carve(list, i, n));
    forall u | t.addr <= u < t.addr + n
      ensures u in core && !LiveAt(live, u)
    {
      assert In(t, u) && In(list[i], u);
    }
  }

  lemma NodeAbove(base: int, list: seq<Block>, live: map<int, int>, core: set<int>, i: nat)
    requires Layout(base, list, live, core) && i <= |list|
    ensures Node(base, list, i) >= base
  {
    SortedList(base, list, live, core);
  }

  /** Carving the block after node i leaves that node where it is. */
  lemma CarveBefore(base: int, list: seq<Block>, i: nat, n: int)
    requires i < |list|
    ensures i <= |Carve(list, i, n)| && Node(base, Carve(list, i, n), i) == Node(base, list, i)
    ensures list[i].size == n ==> Carve(list, i, n) == list[..i] + list[i + 1..]
    ensures list[i].size != n ==> Carve(list, i, n) == list[i := Block(list[i].addr, list[i].size - n)]
  {
  }

  /** Unlinking node i. */
  lemma LinkOut(base: int, ptr: map<int, int>, size: map<int, int>, list: seq<Block>, i: nat)
    requires Linked(base, ptr, size, list) && Rising(base, list) && 0 < i <= |list|
    ensures Linked(base, ptr[Node(base, list, i - 1) := Node(base, list, Next(list, i))], size, list[..i - 1] + list[i..])
  {
    hide Rising, Linked;
    var ptr' := ptr[Node(base, list, i - 1) := Node(base, list, Next(list, i))];
    var r := list[..i - 1] + list[i..];
    NodesDistinct(base, list, i - 1);
    forall x | 0 <= x <= |r|
      ensures LinkedAt(base, ptr', size, r, x)
    {
      if x < i {
        LinkOf(base, ptr, size, list, x);
        assert Node(base, r, x) == Node(base, list, x);
        assert x < i - 1 ==> Node(base, r, x + 1) == Node(base, list, x + 1);
        assert x == i - 1 && x < |r| ==> r[x] == list[i];
      } else {
        LinkOf(base, ptr, size, list, x + 1);
        assert r[x - 1] == list[x];
        assert x < |r| ==> r[x] == list[x + 1];
      }
    }
    LinkedAll(base, ptr', size, r);
  }

  /** Cutting n units off node i and heading them as a block of their own. */
  lemma Shrink(base: int, ptr: map<int, int>, size: map<int, int>, list: seq<Block>, i: nat, n: int)
    requires Linked(base, ptr, size, list) && Rising(base, list) && 0 < i <= |list| && 0 < n < list[i - 1].size
    ensures var b := list[i - 1];
            var cut := list[i - 1 := Block(b.addr, b.size - n)];
            Linked(base, ptr, size[b.addr := b.size - n][b.addr + (b.size - n) := n], cut)
  {
    var b := list[i - 1];
    var cut := list[i - 1 := Block(b.addr, b.size - n)];
    var size1 := size[b.addr := b.size - n];
    NodesDistinct(base, list, i);
    forall x | 0 <= x <= |cut|
      ensures LinkedAt(base, ptr, size1, cut, x)
    {
      assert LinkedAt(base, ptr, size, list, x);
      assert Node(base, cut, x) == Node(base, list, x);
      assert x < |cut| ==> Node(base, cut, x + 1) == Node(base, list, x + 1);
    }
    assert OffRing(base, cut, b.addr + (b.size - n));
    OffRingSize(base, ptr, size1, cut, b.addr + (b.size - n), n);
  }

  /** A block that fits exactly is unlinked and becomes one in use. */
  lemma TakeWhole(base: int, ptr: map<int, int>, size: map<int, int>, list: seq<Block>, live: map<int, int>, core: set<int>, i: nat)
    requires Linked(base, ptr, size, list) && Layout(base, list, live, core) && Sizes(size, live) && 0 < i <= |list|
    ensures var b := list[i - 1];
            && Linked(base, ptr[Node(base, list, i - 1) := Node(base, list, Next(list, i))], size, Carve(list, i - 1, b.size))
            && Sizes(size, live[b.addr := b.size])
  {
    hide Linked, Layout, Rising, Sorted, Next;
    SortedList(base, list, live, core);
    CarveBefore(base, list, i - 1, list[i - 1].size);
    LinkOut(base, ptr, size, list, i);
    NodesAround(base, ptr, size, list, i - 1);
  }

  /** A bigger block keeps its first units; the rest gets a header and becomes one in use. */
  lemma TakePart(base: int, ptr: map<int, int>, size: map<int, int>, list: seq<Block>, live: map<int, int>, core: set<int>, i: nat, n: int)
    requires Linked(base, ptr, size, list) && Layout(base, list, live, core) && Sizes(size, live)
    requires 0 < i <= |list| && 0 < n < list[i - 1].size
    ensures var b := list[i - 1];
            var size' := size[b.addr := b.size - n][b.addr + (b.size - n) := n];
            && Linked(base, ptr, size', Carve(list, i - 1, n)) && Sizes(size', live[b.addr + (b.size - n) := n])
  {
    hide Linked, Layout, Rising, Sorted, Next;
    SortedList(base, list, live, core);
    CarveBefore(base, list, i - 1, n);
    Shrink(base, ptr, size, list, i, n);
    LiveElsewhere(base, list, live, core, i - 1);
  }

  lemma FirstRing(base: int, ptr: map<int, int>, size: map<int, int>)
    requires base in ptr && ptr[base] == base && base in size && size[base] == 0
    ensures Linked(base, ptr, size, []) && Node(base, [], 0) == base
  {
    assert LinkedAt(base, ptr, size, [], 0);
  }

  lemma FirstStep(list: seq<Block>, f: nat, n: int)
    requires f <= |list|
    ensures Next(list, f) <= |list| && Walk(list, f, 1) == Next(list, f) && Walk(list, f, 0) == f && TooSmall(list, f, 1, n)
  {
  }

  /** The node before a block with units is the one before it in the ring. */
  lemma StepBack(list: seq<Block>, f: nat, s: nat)
    requires f <= |list| && 1 <= s <= |list| + 1 && Walk(list, f, s) > 0
    ensures Walk(list, f, s - 1) == Walk(list, f, s) - 1
  {
  }

  lemma NextStep(base: int, list: seq<Block>, f: nat, s: nat, n: int)
    requires f <= |list| && 1 <= s <= |list| + 1 && Node(base, list, Walk(list, f, s)) != Node(base, list, f)
    requires TooSmall(list, f, s, n) && NodeSize(list, Walk(list, f, s)) < n
    ensures s <= |list| && Walk(list, f, s + 1) == Next(list, Walk(list, f, s)) && TooSmall(list, f, s + 1, n)
  {
  }

  lemma NoneFits(list: seq<Block>, f: nat, n: int)
    requires f <= |list| && TooSmall(list, f, |list| + 1, n) && NodeSize(list, f) < n
    ensures NoFit(list, n)
  {
    forall i | 0 <= i < |list|
      ensures list[i].size < n
    {
      if i + 1 != f {
        var t := if f < i + 1 then i + 1 - f else i + 1 - f + |list| + 1;
        assert Walk(list, f, t) == i + 1;
      }
    }
  }

  /** The block that holds the new core is as large as the core. */
  lemma CoreFits(list: seq<Block>, hp: int, nu: int) returns (fit: nat)
    requires Sorted(list) && nu > 0
    ensures fit < |Insert(list, Block(hp, nu), |list|)| && Insert(list, Block(hp, nu), |list|)[fit].size >= nu
  {
    fit := if Down(list, Block(hp, nu), |list|) then |list| - 1 else |list|;
  }
}
