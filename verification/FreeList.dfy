/**
 The free list of umalloc.c as a value: blocks in address order, measured in
 header-sized units, with a gap between neighbours. Freeing inserts a block and
 merges it with the neighbours it touches; allocating carves from a block's end.
 */
module FreeList {
  datatype Block = Block(addr: int, size: int) {
    function End(): int { addr + size }
  }

  predicate In(b: Block, u: int) {
    b.addr <= u < b.End()
  }

  /** Address-ordered, disjoint and fully coalesced: each block ends before the next begins. */
  predicate Sorted(list: seq<Block>) {
    && (forall i :: 0 <= i < |list| ==> list[i].size > 0)
    && (forall i, j :: 0 <= i < j < |list| ==> list[i].End() < list[j].addr)
  }

  /** Unit u is free. */
  ghost predicate FreeAt(list: seq<Block>, u: int) {
    exists i :: 0 <= i < |list| && In(list[i], u)
  }

  /** How many blocks lie below address a. */
  function Below(list: seq<Block>, a: int): (k: nat)
    requires Sorted(list)
    ensures k <= |list|
    ensures forall i :: 0 <= i < k ==> list[i].addr < a
    ensures forall i :: k <= i < |list| ==> list[i].addr >= a
  {
    if list == [] then 0
    else if list[|list| - 1].addr < a then |list|
    else Below(list[..|list| - 1], a)
  }

  /** b overlaps no block of the list. */
  ghost predicate Apart(list: seq<Block>, b: Block) {
    forall i :: 0 <= i < |list| ==> list[i].End() <= b.addr || b.End() <= list[i].addr
  }

  /** Blocks i to j give way to b. */
  function Replace(list: seq<Block>, i: nat, j: nat, b: Block): seq<Block>
    requires i <= j <= |list|
  {
    list[..i] + [b] + list[j..]
  }

  lemma ReplaceSorted(list: seq<Block>, i: nat, j: nat, b: Block)
    requires Sorted(list) && i <= j <= |list| && b.size > 0
    requires i > 0 ==> list[i - 1].End() < b.addr
    requires j < |list| ==> b.End() < list[j].addr
    ensures Sorted(Replace(list, i, j, b))
  {
    var r := Replace(list, i, j, b);
    forall x | 0 <= x < |r|
      ensures r[x].size > 0
    {
      ReplaceAt(list, i, j, b, x);
    }
    forall x, y | 0 <= x < y < |r|
      ensures r[x].End() < r[y].addr
    {
      ReplaceAt(list, i, j, b, x);
      ReplaceAt(list, i, j, b, y);
      hide Replace;
    }
  }

  lemma ReplaceAt(list: seq<Block>, i: nat, j: nat, b: Block, x: nat)
    requires i <= j <= |list| && x < |Replace(list, i, j, b)|
    ensures Replace(list, i, j, b)[x] == if x < i then list[x] else if x == i then b else list[x - i - 1 + j]
  {
  }

  lemma ReplaceUnits(list: seq<Block>, i: nat, j: nat, b: Block, u: int)
    requires i <= j <= |list|
    ensures FreeAt(Replace(list, i, j, b), u) <==>
            In(b, u) || exists x :: 0 <= x < |list| && !(i <= x < j) && In(list[x], u)
  {
    var r := Replace(list, i, j, b);
    if FreeAt(r, u) {
      var y :| 0 <= y < |r| && In(r[y], u);
      assert y < i ==> r[y] == list[y];
      assert y > i ==> r[y] == list[y - i - 1 + j];
    }
    if x :| 0 <= x < |list| && !(i <= x < j) && In(list[x], u) {
      assert x < i ==> In(r[x], u);
      assert x >= j ==> r[x - j + i + 1] == list[x];
    }
    assert r[i] == b;
  }

  /** b touches the block above it, the block below it. */
  predicate Up(list: seq<Block>, b: Block, k: nat) {
    k < |list| && b.End() == list[k].addr
  }

  predicate Down(list: seq<Block>, b: Block, k: nat) {
    0 < k <= |list| && list[k - 1].End() == b.addr
  }

  function Merged(list: seq<Block>, b: Block, k: nat): Block {
    var size := b.size + if Up(list, b, k) then list[k].size else 0;
    if Down(list, b, k) then Block(list[k - 1].addr, list[k - 1].size + size) else Block(b.addr, size)
  }

  /** b goes between blocks k - 1 and k, merged with the ones it touches. */
  function Insert(list: seq<Block>, b: Block, k: nat): seq<Block>
    requires k <= |list|
  {
    Replace(list, if Down(list, b, k) then k - 1 else k, if Up(list, b, k) then k + 1 else k, Merged(list, b, k))
  }

  lemma InsertSorted(list: seq<Block>, b: Block, k: nat)
    requires Sorted(list) && b.size > 0 && Apart(list, b) && k == Below(list, b.addr)
    ensures Sorted(Insert(list, b, k))
  {
    hide Replace;
    assert k > 0 ==> list[k - 1].End() <= b.addr;
    assert k < |list| ==> b.End() <= list[k].addr;
    ReplaceSorted(list, if Down(list, b, k) then k - 1 else k, if Up(list, b, k) then k + 1 else k, Merged(list, b, k));
  }

  /** The free units after inserting b are those before and b's own. */
  lemma InsertUnits(list: seq<Block>, b: Block, k: nat, u: int)
    requires Sorted(list) && b.size > 0 && k <= |list|
    ensures FreeAt(Insert(list, b, k), u) <==> FreeAt(list, u) || In(b, u)
  {
    hide Replace;
    var i := if Down(list, b, k) then k - 1 else k;
    var j := if Up(list, b, k) then k + 1 else k;
    ReplaceUnits(list, i, j, Merged(list, b, k), u);
    assert In(Merged(list, b, k), u) <==>
           In(b, u) || (Up(list, b, k) && In(list[k], u)) || (Down(list, b, k) && In(list[k - 1], u));
  }

  /** The tail of n units of block i, and the list without it. */
  function Tail(list: seq<Block>, i: nat, n: int): Block
    requires i < |list|
  {
    Block(list[i].End() - n, n)
  }

  function Carve(list: seq<Block>, i: nat, n: int): seq<Block>
    requires i < |list|
  {
    if list[i].size == n then list[..i] + list[i + 1..]
    else list[i := Block(list[i].addr, list[i].size - n)]
  }

  lemma CarveKeeps(list: seq<Block>, i: nat, n: int)
    requires Sorted(list) && i < |list| && 0 < n <= list[i].size
    ensures Sorted(Carve(list, i, n))
    ensures Apart(Carve(list, i, n), Tail(list, i, n))
    ensures forall u :: FreeAt(list, u) <==> FreeAt(Carve(list, i, n), u) || In(Tail(list, i, n), u)
  {
    var r := Carve(list, i, n);
    assert list[i].size == n ==> forall j :: i <= j < |r| ==> r[j] == list[j + 1];
    assert forall j :: 0 <= j < i ==> r[j] == list[j];
    forall u
      ensures FreeAt(list, u) <==> FreeAt(r, u) || In(Tail(list, i, n), u)
    {
      CarveUnits(list, i, n, u);
    }
  }

  lemma CarveUnits(list: seq<Block>, i: nat, n: int, u: int)
    requires Sorted(list) && i < |list| && 0 < n <= list[i].size
    ensures FreeAt(list, u) <==> FreeAt(Carve(list, i, n), u) || In(Tail(list, i, n), u)
  {
    hide Sorted;
    if list[i].size == n {
      WholeBlock(list, i, u);
    } else {
      PartBlock(list, i, Block(list[i].addr, list[i].size - n), Tail(list, i, n), u);
    }
  }

  lemma WholeBlock(list: seq<Block>, i: nat, u: int)
    requires i < |list|
    ensures FreeAt(list, u) <==> FreeAt(list[..i] + list[i + 1..], u) || In(list[i], u)
  {
    var r := list[..i] + list[i + 1..];
    if FreeAt(list, u) {
      var j :| 0 <= j < |list| && In(list[j], u);
      assert j < i ==> In(r[j], u);
      assert j > i ==> In(r[j - 1], u);
    }
    if FreeAt(r, u) {
      var j :| 0 <= j < |r| && In(r[j], u);
      assert r[j] == if j < i then list[j] else list[j + 1];
    }
  }

  lemma PartBlock(list: seq<Block>, i: nat, rest: Block, t: Block, u: int)
    requires i < |list| && (In(list[i], u) <==> In(rest, u) || In(t, u))
    ensures FreeAt(list, u) <==> FreeAt(list[i := rest], u) || In(t, u)
  {
    hide In;
    var r := list[i := rest];
    if FreeAt(list, u) {
      var j :| 0 <= j < |list| && In(list[j], u);
      assert j != i ==> In(r[j], u);
      assert In(rest, u) ==> In(r[i], u);
    }
    if FreeAt(r, u) {
      var j :| 0 <= j < |r| && In(r[j], u);
      assert j != i ==> In(list[j], u);
    }
  }

  /** The list is determined by which units are free: there is one sorted, coalesced list for each set of units. */
  lemma {:induction false} Canonical(a: seq<Block>, b: seq<Block>)
    requires Sorted(a) && Sorted(b) && forall u :: FreeAt(a, u) <==> FreeAt(b, u)
    ensures a == b
    decreases |a|
  {
    BothEmpty(a, b);
    BothEmpty(b, a);
    if a != [] {
      FirstBlock(a, b);
      forall u
        ensures FreeAt(a[1..], u) <==> FreeAt(b[1..], u)
      {
        RestUnits(a, u);
        RestUnits(b, u);
      }
      Canonical(a[1..], b[1..]);
      assert a == [a[0]] + a[1..] && b == [b[0]] + b[1..];
    }
  }

  lemma BothEmpty(a: seq<Block>, b: seq<Block>)
    requires Sorted(b) && forall u :: FreeAt(b, u) ==> FreeAt(a, u)
    ensures b != [] ==> a != []
  {
    if b != [] {
      assert In(b[0], b[0].addr);
      assert FreeAt(b, b[0].addr);
    }
  }

  lemma RestUnits(a: seq<Block>, u: int)
    requires Sorted(a) && a != []
    ensures FreeAt(a[1..], u) <==> FreeAt(a, u) && !In(a[0], u)
  {
    if FreeAt(a, u) && !In(a[0], u) {
      var i :| 0 <= i < |a| && In(a[i], u);
      assert In(a[1..][i - 1], u);
    }
    if FreeAt(a[1..], u) {
      var i :| 0 <= i < |a[1..]| && In(a[1..][i], u);
      assert In(a[i + 1], u);
    }
  }

  lemma FirstBlock(a: seq<Block>, b: seq<Block>)
    requires Sorted(a) && Sorted(b) && a != [] && b != [] && forall u :: FreeAt(a, u) <==> FreeAt(b, u)
    ensures a[0] == b[0]
  {
    FirstIsLeast(a, b);
    FirstIsLeast(b, a);
    FirstIsFull(a, b);
    FirstIsFull(b, a);
  }

  lemma FirstIsLeast(a: seq<Block>, b: seq<Block>)
    requires Sorted(a) && Sorted(b) && a != [] && b != [] && forall u :: FreeAt(a, u) <==> FreeAt(b, u)
    ensures b[0].addr <= a[0].addr
  {
    assert In(a[0], a[0].addr) && FreeAt(a, a[0].addr);
    var i :| 0 <= i < |b| && In(b[i], a[0].addr);
  }

  lemma FirstIsFull(a: seq<Block>, b: seq<Block>)
    requires Sorted(a) && Sorted(b) && a != [] && b != [] && forall u :: FreeAt(a, u) <==> FreeAt(b, u)
    requires a[0].addr == b[0].addr
    ensures a[0].size <= b[0].size
  {
    var u := b[0].End();
    assert !FreeAt(b, u) by {
      assert forall i :: 0 <= i < |b| ==> !In(b[i], u);
    }
    assert !In(a[0], u);
  }

  /** Freeing what was just allocated restores the list, whatever merging it takes. */
  lemma FreeUndoesMalloc(list: seq<Block>, i: nat, n: int)
    requires Sorted(list) && i < |list| && 0 < n <= list[i].size
    ensures var cut := Carve(list, i, n);
            Sorted(cut) && Insert(cut, Tail(list, i, n), Below(cut, Tail(list, i, n).addr)) == list
  {
    hide Insert, Carve, FreeAt;
    var cut, t := Carve(list, i, n), Tail(list, i, n);
    CarveKeeps(list, i, n);
    var k := Below(cut, t.addr);
    InsertSorted(cut, t, k);
    forall u
      ensures FreeAt(Insert(cut, t, k), u) <==> FreeAt(list, u)
    {
      InsertUnits(cut, t, k, u);
    }
    Canonical(Insert(cut, t, k), list);
  }
}
