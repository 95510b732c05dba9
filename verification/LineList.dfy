/** The editor's doubly linked list of lines, and what the assignments to its links make of it. */
module LineList {
  import opened Sequences
  import opened LineEdits

  class LineNode {
    var prev: LineNode?
    var next: LineNode?
    var content: string

    constructor ()
      ensures prev == null && next == null && content == ""
    {
      prev, next, content := null, null, "";
    }
  }

  /** next leads along the nodes and prev leads back. */
  ghost predicate Linked(nodes: seq<LineNode>)
    reads nodes`next, nodes`prev
  {
    && (forall i :: 0 <= i < |nodes| - 1 ==> nodes[i].next == nodes[i + 1])
    && (forall i :: 1 <= i < |nodes| ==> nodes[i].prev == nodes[i - 1])
  }

  /** Between the head and the tail the nodes hold the lines. */
  ghost predicate Shows(nodes: seq<LineNode>, lines: seq<string>)
    reads nodes`content
  {
    |nodes| == |lines| + 2 && forall i :: 1 <= i < |nodes| - 1 ==> nodes[i].content == lines[i - 1]
  }

  ghost predicate Ends(nodes: seq<LineNode>)
    reads nodes`next, nodes`prev
  {
    |nodes| >= 2 && nodes[0].prev == null && nodes[|nodes| - 1].next == null
  }

  /** The list of a file: a chain of distinct nodes from head to tail, with the lines in between. */
  ghost predicate Chain(nodes: seq<LineNode>, lines: seq<string>, head: LineNode, tail: LineNode)
    reads nodes
  {
    && Shows(nodes, lines) && Ends(nodes) && Distinct(nodes) && Linked(nodes)
    && nodes[0] == head && nodes[|nodes| - 1] == tail
  }

  // ---- a node joins the chain ----

  lemma DistinctInserted(nodes: seq<LineNode>, k: nat, x: LineNode)
    requires Distinct(nodes) && k <= |nodes| && x !in nodes
    ensures Distinct(Inserted(nodes, k, x))
  {
  }

  lemma ShowsInserted(nodes: seq<LineNode>, lines: seq<string>, k: nat, x: LineNode)
    requires Shows(nodes, lines) && k <= |lines|
    ensures Shows(Inserted(nodes, k + 1, x), Inserted(lines, k, x.content))
  {
    InsertedAt(nodes, k + 1, x, Inserted(nodes, k + 1, x));
    InsertedAt(lines, k, x.content, Inserted(lines, k, x.content));
  }

  lemma LinkedInserted(was: seq<LineNode>, k: nat, node: LineNode, now: seq<LineNode>)
    requires k + 1 < |was| && now == Inserted(was, k + 1, node)
    requires forall i :: 0 <= i < |was| - 1 && i != k ==> was[i].next == was[i + 1]
    requires forall i :: 1 <= i < |was| && i != k + 1 ==> was[i].prev == was[i - 1]
    requires was[k].next == node && node.next == was[k + 1] && was[k + 1].prev == node && node.prev == was[k]
    ensures Linked(now)
  {
    InsertedAt(was, k + 1, node, now);
    forall i | 0 <= i < |now| - 1
      ensures now[i].next == now[i + 1]
    {
      if i > k + 1 {
        assert now[i] == was[i - 1] && now[i + 1] == was[i];
      }
    }
    forall i | 1 <= i < |now|
      ensures now[i].prev == now[i - 1]
    {
      if i > k + 2 {
        assert now[i] == was[i - 1] && now[i - 1] == was[i - 2];
      }
    }
  }

  /** The four assignments of newNode. */
  method LinkAfter(prev: LineNode, node: LineNode, ghost nodes: seq<LineNode>, ghost k: nat)
    requires Distinct(nodes) && Linked(nodes) && Ends(nodes) && k + 1 < |nodes| && prev == nodes[k] && node !in nodes
    modifies prev`next, {nodes[k + 1]}`prev, node`next, node`prev
    ensures Linked(Inserted(nodes, k + 1, node)) && Ends(Inserted(nodes, k + 1, node))
  {
    var next := prev.next;
    assert next == nodes[k + 1];
    next.prev := node;
    prev.next := node;
    node.prev := prev;
    node.next := next;
    LinkedInserted(nodes, k, node, Inserted(nodes, k + 1, node));
  }

  lemma ChainInserted(nodes: seq<LineNode>, lines: seq<string>, k: nat, x: LineNode)
    requires Shows(nodes, lines) && Distinct(nodes) && k <= |lines| && x !in nodes
    requires Linked(Inserted(nodes, k + 1, x)) && Ends(Inserted(nodes, k + 1, x))
    ensures Chain(Inserted(nodes, k + 1, x), Inserted(lines, k, x.content), nodes[0], nodes[|nodes| - 1])
  {
    ShowsInserted(nodes, lines, k, x);
    DistinctInserted(nodes, k + 1, x);
    hide Linked, Distinct, Shows;
  }

  // ---- a node leaves it ----

  lemma DistinctWithout(nodes: seq<LineNode>, lo: nat, hi: nat)
    requires Distinct(nodes) && lo <= hi <= |nodes|
    ensures Distinct(Without(nodes, lo, hi))
  {
  }

  lemma WithoutIn(nodes: seq<LineNode>, lo: nat, hi: nat)
    requires lo <= hi <= |nodes|
    ensures forall x :: 0 <= x < |Without(nodes, lo, hi)| ==> Without(nodes, lo, hi)[x] in nodes
  {
  }

  lemma BeforeFree(nodes: seq<LineNode>, lines: seq<string>, head: LineNode, tail: LineNode, lo: nat, hi: nat, m: nat)
    requires Chain(nodes, lines, head, tail) && 1 <= lo <= hi < |nodes| && m < |nodes| && (m == hi || m < lo)
    ensures |nodes| == |lines| + 2 && forall x :: lo <= x < |nodes| && x != m ==> nodes[x] != nodes[m]
    ensures Without(nodes, lo, lo) == nodes && Without(lines, lo - 1, lo - 1) == lines
  {
  }

  lemma ShowsWithout(nodes: seq<LineNode>, lines: seq<string>, k: nat)
    requires Shows(nodes, lines) && 1 <= k <= |lines|
    ensures Shows(Without(nodes, k, k + 1), Without(lines, k - 1, k))
  {
    WithoutAt(nodes, k, k + 1, Without(nodes, k, k + 1));
    WithoutAt(lines, k - 1, k, Without(lines, k - 1, k));
  }

  lemma LinkedWithout(was: seq<LineNode>, lo: nat, hi: nat, now: seq<LineNode>)
    requires 1 <= lo < hi < |was| && now == Without(was, lo, hi)
    requires forall i :: 0 <= i < |was| - 1 && !(lo - 1 <= i < hi) ==> was[i].next == was[i + 1]
    requires forall i :: 1 <= i < |was| && !(lo <= i <= hi) ==> was[i].prev == was[i - 1]
    requires was[lo - 1].next == was[hi] && was[hi].prev == was[lo - 1]
    ensures Linked(now)
  {
    WithoutAt(was, lo, hi, now);
    var d := hi - lo;
    forall i | 0 <= i < |now| - 1
      ensures now[i].next == now[i + 1]
    {
      if i >= lo {
        assert now[i] == was[i + d] && now[i + 1] == was[i + d + 1];
      }
    }
    forall i | 1 <= i < |now|
      ensures now[i].prev == now[i - 1]
    {
      if i > lo {
        assert now[i] == was[i + d] && now[i - 1] == was[i + d - 1];
      }
    }
  }

  /** The four assignments of deleteNode. */
  method Unlink(node: LineNode, ghost nodes: seq<LineNode>, ghost k: nat) returns (next: LineNode)
    requires Distinct(nodes) && Linked(nodes) && Ends(nodes) && 1 <= k < |nodes| - 1 && node == nodes[k]
    modifies {nodes[k - 1]}`next, {nodes[k + 1]}`prev, node`next, node`prev
    ensures Linked(Without(nodes, k, k + 1)) && Ends(Without(nodes, k, k + 1))
    ensures next == nodes[k + 1]
  {
    assert node.prev == nodes[k - 1] && node.next == nodes[k + 1];
    next := node.next;
    node.prev.next := next;
    next.prev := node.prev;
    node.next := null;
    node.prev := null;
    LinkedWithout(nodes, k, k + 1, Without(nodes, k, k + 1));
  }

  lemma ChainWithout(nodes: seq<LineNode>, lines: seq<string>, k: nat)
    requires Shows(nodes, lines) && Distinct(nodes) && 1 <= k <= |lines|
    requires Linked(Without(nodes, k, k + 1)) && Ends(Without(nodes, k, k + 1))
    ensures Chain(Without(nodes, k, k + 1), Without(lines, k - 1, k), nodes[0], nodes[|nodes| - 1])
  {
    ShowsWithout(nodes, lines, k);
    DistinctWithout(nodes, k, k + 1);
    hide Linked, Distinct, Shows;
  }

  // ---- two blocks of it change places ----

  lemma DistinctSwapped(nodes: seq<LineNode>, a: nat, b: nat, c: nat)
    requires Distinct(nodes) && a <= b <= c <= |nodes|
    ensures Distinct(Swapped(nodes, a, b, c))
  {
    var r := Swapped(nodes, a, b, c);
    forall i, j | 0 <= i < j < |r|
      ensures r[i] != r[j]
    {
      SwappedFrom(nodes, a, b, c, i);
      SwappedFrom(nodes, a, b, c, j);
    }
  }

  lemma ShowsSwapped(nodes: seq<LineNode>, lines: seq<string>, a: nat, b: nat, c: nat)
    requires Shows(nodes, lines) && 1 <= a <= b <= c < |nodes|
    ensures Shows(Swapped(nodes, a, b, c), Swapped(lines, a - 1, b - 1, c - 1))
  {
    var r := Swapped(nodes, a, b, c);
    forall i | 1 <= i < |r| - 1
      ensures r[i].content == Swapped(lines, a - 1, b - 1, c - 1)[i - 1]
    {
      SwappedFrom(nodes, a, b, c, i);
      SwappedFrom(lines, a - 1, b - 1, c - 1, i - 1);
    }
  }

  lemma NextSwapped(was: seq<LineNode>, a: nat, b: nat, c: nat, i: nat)
    requires 1 <= a < b < c < |was| && i < |was| - 1
    requires forall k :: 0 <= k < |was| - 1 && k != a - 1 && k != b - 1 && k != c - 1 ==> was[k].next == was[k + 1]
    requires was[a - 1].next == was[b] && was[c - 1].next == was[a] && was[b - 1].next == was[c]
    ensures Swapped(was, a, b, c)[i].next == Swapped(was, a, b, c)[i + 1]
  {
    SwappedFrom(was, a, b, c, i);
    SwappedFrom(was, a, b, c, i + 1);
    hide Swapped;
  }

  lemma PrevSwapped(was: seq<LineNode>, a: nat, b: nat, c: nat, i: nat)
    requires 1 <= a < b < c < |was| && 1 <= i < |was|
    requires forall k :: 1 <= k < |was| && k != a && k != b && k != c ==> was[k].prev == was[k - 1]
    requires was[b].prev == was[a - 1] && was[a].prev == was[c - 1] && was[c].prev == was[b - 1]
    ensures Swapped(was, a, b, c)[i].prev == Swapped(was, a, b, c)[i - 1]
  {
    SwappedFrom(was, a, b, c, i);
    SwappedFrom(was, a, b, c, i - 1);
    hide Swapped;
  }

  lemma LinkedSwapped(was: seq<LineNode>, a: nat, b: nat, c: nat)
    requires 1 <= a < b < c < |was|
    requires forall i :: 0 <= i < |was| - 1 && i != a - 1 && i != b - 1 && i != c - 1 ==> was[i].next == was[i + 1]
    requires forall i :: 1 <= i < |was| && i != a && i != b && i != c ==> was[i].prev == was[i - 1]
    requires was[a - 1].next == was[b] && was[c - 1].next == was[a] && was[b - 1].next == was[c]
    requires was[b].prev == was[a - 1] && was[a].prev == was[c - 1] && was[c].prev == was[b - 1]
    ensures Linked(Swapped(was, a, b, c))
  {
    hide Swapped;
    var now := Swapped(was, a, b, c);
    forall i | 0 <= i < |now| - 1
      ensures now[i].next == now[i + 1]
    {
      NextSwapped(was, a, b, c, i);
    }
    forall i | 1 <= i < |now|
      ensures now[i].prev == now[i - 1]
    {
      PrevSwapped(was, a, b, c, i);
    }
  }

  // ---- cut's six assignments, wherever its three pointers are ----

  /** first was node x + 1, last node y and the target node z; the three pointers may stand anywhere. */
  ghost predicate Relinked(nodes: seq<LineNode>, x: nat, y: nat, z: nat)
    requires x + 1 < |nodes| && y + 1 < |nodes| && z + 1 < |nodes|
    reads nodes`next, nodes`prev
  {
    && (forall i :: 0 <= i < |nodes| - 1 && i != x && i != y && i != z ==> nodes[i].next == nodes[i + 1])
    && nodes[z].next == nodes[x + 1]
    && (y != z ==> nodes[y].next == if x == z then nodes[y + 1] else nodes[z + 1])
    && (x != y && x != z ==> nodes[x].next == nodes[y + 1])
    && (forall j :: 1 <= j < |nodes| && j != x + 1 && j != y + 1 && j != z + 1 ==> nodes[j].prev == nodes[j - 1])
    && nodes[x + 1].prev == nodes[z]
    && (z != x ==> nodes[z + 1].prev == nodes[y])
    && (y != x && y != z ==> nodes[y + 1].prev == if x == z then nodes[y] else nodes[x])
  }

  /** The first three assignments: what stood around the block is joined, the target's successor looks back at its end. */
  method Unhook(first: LineNode, last: LineNode, target: LineNode, ghost nodes: seq<LineNode>, ghost x: nat, ghost y: nat, ghost z: nat)
    requires Distinct(nodes) && Linked(nodes) && x + 1 < |nodes| && y + 1 < |nodes| && z + 1 < |nodes|
    requires first == nodes[x + 1] && last == nodes[y] && target == nodes[z]
    modifies nodes`next, nodes`prev
    ensures forall i :: 0 <= i < |nodes| ==> nodes[i].next == if i == x then nodes[y + 1] else old(nodes[i].next)
    ensures forall j :: 0 <= j < |nodes| ==>
                          nodes[j].prev == if j == (if z == x then y else z) + 1 then nodes[y]
                                           else if j == y + 1 then nodes[x] else old(nodes[j].prev)
  {
    assert first.prev == nodes[x] && last.next == nodes[y + 1] && target.next == nodes[z + 1];
    first.prev.next := last.next;
    last.next.prev := first.prev;
    target.next.prev := last;
  }

  method Relink(first: LineNode, last: LineNode, target: LineNode, ghost nodes: seq<LineNode>, ghost x: nat, ghost y: nat, ghost z: nat)
    requires Distinct(nodes) && Linked(nodes) && Ends(nodes) && x + 1 < |nodes| && y + 1 < |nodes| && z + 1 < |nodes|
    requires first == nodes[x + 1] && last == nodes[y] && target == nodes[z]
    modifies nodes`next, nodes`prev
    ensures Relinked(nodes, x, y, z) && Ends(nodes)
  {
    Unhook(first, last, target, nodes, x, y, z);
    last.next := target.next;
    target.next := first;
    first.prev := target;
  }

  /** Unless the chain is torn it is the rotated one. */
  lemma LinkedRotated(nodes: seq<LineNode>, x: nat, y: nat, z: nat)
    requires x + 1 < |nodes| && y + 1 < |nodes| && z + 1 < |nodes| && Relinked(nodes, x, y, z) && !Tears(x, y, z)
    ensures Linked(Rotated(nodes, x + 1, y + 1, z + 1))
  {
    hide Swapped;
    if x == z {
    } else if x < y < z {
      LinkedSwapped(nodes, x + 1, y + 1, z + 1);
    } else if y < z < x {
      LinkedSwapped(nodes, y + 1, z + 1, x + 1);
    } else {
      LinkedSwapped(nodes, z + 1, x + 1, y + 1);
    }
  }

  /** Following next from node to node. */
  ghost predicate Forward(nodes: seq<LineNode>)
    reads nodes`next
  {
    nodes != [] && nodes[|nodes| - 1].next == null && forall i :: 0 <= i < |nodes| - 1 ==> nodes[i].next == nodes[i + 1]
  }

  lemma TornNext(nodes: seq<LineNode>, x: nat, y: nat, z: nat, p: nat, r: nat)
    requires x + 1 < |nodes| && y + 1 < |nodes| && z + 1 < |nodes| && Relinked(nodes, x, y, z) && Tears(x, y, z)
    requires p == Lowest(x, y, z) && r == Highest(x, y, z)
    ensures p < r && r + 1 < |nodes| && nodes[p].next == nodes[r + 1]
  {
  }

  /** If it is torn, the lines between the lowest and the highest link can no longer be reached. */
  lemma ForwardTorn(nodes: seq<LineNode>, x: nat, y: nat, z: nat, p: nat, r: nat)
    requires x + 1 < |nodes| && y + 1 < |nodes| && z + 1 < |nodes| && Relinked(nodes, x, y, z) && Tears(x, y, z) && Ends(nodes)
    requires p == Lowest(x, y, z) && r == Highest(x, y, z)
    ensures r + 1 < |nodes| && Forward(Without(nodes, p + 1, r + 1))
  {
    TornNext(nodes, x, y, z, p, r);
    assert forall i :: 0 <= i < p ==> nodes[i].next == nodes[i + 1];
    assert forall i :: r < i < |nodes| - 1 ==> nodes[i].next == nodes[i + 1];
    hide Relinked, Tears, Lowest, Highest;
    ForwardWithout(nodes, p, r);
  }

  lemma ForwardWithout(nodes: seq<LineNode>, p: nat, r: nat)
    requires p < r && r + 1 < |nodes| && nodes[p].next == nodes[r + 1] && nodes[|nodes| - 1].next == null
    requires forall i :: 0 <= i < p ==> nodes[i].next == nodes[i + 1]
    requires forall i :: r < i < |nodes| - 1 ==> nodes[i].next == nodes[i + 1]
    ensures Forward(Without(nodes, p + 1, r + 1))
  {
    var now, d := Without(nodes, p + 1, r + 1), r - p;
    WithoutAt(nodes, p + 1, r + 1, now);
    forall i | 0 <= i < |now| - 1
      ensures now[i].next == now[i + 1]
    {
      if i > p {
        assert now[i] == nodes[i + d] && now[i + 1] == nodes[i + d + 1];
      }
    }
  }

  lemma ChainSwapped(nodes: seq<LineNode>, lines: seq<string>, a: nat, b: nat, c: nat)
    requires Shows(nodes, lines) && Distinct(nodes) && Ends(nodes) && 1 <= a <= b <= c < |nodes|
    requires Linked(Swapped(nodes, a, b, c))
    ensures Chain(Swapped(nodes, a, b, c), Swapped(lines, a - 1, b - 1, c - 1), nodes[0], nodes[|nodes| - 1])
  {
    ShowsSwapped(nodes, lines, a, b, c);
    DistinctSwapped(nodes, a, b, c);
    SwappedFrom(nodes, a, b, c, 0);
    SwappedFrom(nodes, a, b, c, |nodes| - 1);
    hide Linked, Distinct, Shows, Swapped;
  }

  lemma ChainRotated(nodes: seq<LineNode>, lines: seq<string>, x: nat, y: nat, z: nat)
    requires Shows(nodes, lines) && Distinct(nodes) && Ends(nodes) && !Tears(x, y, z)
    requires x + 1 < |nodes| && y + 1 < |nodes| && z + 1 < |nodes| && Linked(Rotated(nodes, x + 1, y + 1, z + 1))
    ensures Chain(Rotated(nodes, x + 1, y + 1, z + 1), Rotated(lines, x, y, z), nodes[0], nodes[|nodes| - 1])
  {
    hide Linked, Distinct, Swapped;
    if x == z {
    } else if x < y < z {
      ChainSwapped(nodes, lines, x + 1, y + 1, z + 1);
    } else if y < z < x {
      ChainSwapped(nodes, lines, y + 1, z + 1, x + 1);
    } else {
      ChainSwapped(nodes, lines, z + 1, x + 1, y + 1);
    }
  }

  /** A node is where it was exactly when it lies outside the stretch that is reordered. */
  lemma RotatedStays(nodes: seq<LineNode>, x: nat, y: nat, z: nat, k: nat)
    requires Distinct(nodes) && !Tears(x, y, z) && x + 1 < |nodes| && y + 1 < |nodes| && z + 1 < |nodes| && k < |nodes|
    ensures Rotated(nodes, x + 1, y + 1, z + 1)[k] == nodes[k] <==> x == z || k <= Lowest(x, y, z) || k > Highest(x, y, z)
  {
    hide Distinct, Swapped;
    if x < y < z {
      SwappedStays(nodes, x, y, z, k);
    } else if y < z < x {
      SwappedStays(nodes, y, z, x, k);
    } else if x != z {
      SwappedStays(nodes, z, x, y, k);
    }
  }

  lemma SwappedStays(nodes: seq<LineNode>, a: nat, b: nat, c: nat, k: nat)
    requires Distinct(nodes) && a < b < c && c + 1 < |nodes| && k < |nodes|
    ensures Swapped(nodes, a + 1, b + 1, c + 1)[k] == nodes[k] <==> k <= a || k > c
  {
    SwappedFrom(nodes, a + 1, b + 1, c + 1, k);
    hide Swapped;
  }

  lemma ShowsChanged(nodes: seq<LineNode>, lines: seq<string>, k: nat, content: string)
    requires |nodes| == |lines| + 2 && 1 <= k <= |lines| && nodes[k].content == content
    requires forall i :: 1 <= i < |nodes| - 1 && i != k ==> nodes[i].content == lines[i - 1]
    ensures Shows(nodes, lines[k - 1 := content])
  {
  }

  lemma ChainSize(nodes: seq<LineNode>, lines: seq<string>, head: LineNode, tail: LineNode)
    requires Chain(nodes, lines, head, tail)
    ensures |nodes| == |lines| + 2 && nodes[0] == head
  {
  }

  lemma ChainParts(nodes: seq<LineNode>, lines: seq<string>, head: LineNode, tail: LineNode)
    requires Chain(nodes, lines, head, tail)
    ensures Shows(nodes, lines) && Ends(nodes) && Distinct(nodes) && Linked(nodes) && |nodes| >= 2
    ensures nodes[0] == head && nodes[|nodes| - 1] == tail
  {
  }

  lemma ChainNeighbours(nodes: seq<LineNode>, lines: seq<string>, head: LineNode, tail: LineNode, k: nat)
    requires Chain(nodes, lines, head, tail) && 1 <= k <= |lines|
    ensures nodes[k].prev == nodes[k - 1] && nodes[k - 1].next == nodes[k]
  {
  }

  lemma RenewedNode(nodes: seq<LineNode>, k: nat, rest: seq<LineNode>, node: LineNode?, r: seq<LineNode>)
    requires k < |nodes| && rest == Without(nodes, k, k + 1) && node != null && r == Inserted(rest, k, node)
    ensures r == nodes[k := node]
  {
  }

  // ---- the ends of the chain ----

  /** Only the tail has no next node. */
  lemma NextOfNode(nodes: seq<LineNode>, lines: seq<string>, head: LineNode, tail: LineNode, k: nat)
    requires Chain(nodes, lines, head, tail) && k < |nodes|
    ensures |nodes| == |lines| + 2 && nodes[k].next == (if k + 1 < |nodes| then nodes[k + 1] else null)
    ensures k + 1 == |nodes| ==> nodes[k] == tail
  {
  }

  lemma PrevOfNode(nodes: seq<LineNode>, lines: seq<string>, head: LineNode, tail: LineNode, k: nat)
    requires Chain(nodes, lines, head, tail) && k < |nodes|
    ensures |nodes| == |lines| + 2 && nodes[k].prev == (if k > 0 then nodes[k - 1] else null)
    ensures k == 0 ==> nodes[k] == head
    ensures nodes[k].prev == head <==> k == 1
  {
  }

  /** No node is in the chain twice. */
  lemma AtOnce(nodes: seq<LineNode>, lines: seq<string>, head: LineNode, tail: LineNode)
    requires Chain(nodes, lines, head, tail)
    ensures |nodes| == |lines| + 2 && forall i, j :: 0 <= i < |nodes| && 0 <= j < |nodes| && nodes[i] == nodes[j] ==> i == j
  {
  }

  /** Only the first node is the head, and only the last the tail. */
  lemma RootsOnly(nodes: seq<LineNode>, lines: seq<string>, head: LineNode, tail: LineNode, k: nat)
    requires Chain(nodes, lines, head, tail) && k < |nodes|
    ensures |nodes| == |lines| + 2 && (nodes[k] == head <==> k == 0) && (nodes[k] == tail <==> k == |nodes| - 1)
  {
  }

  lemma LinkedBehind(nodes: seq<LineNode>, x: LineNode)
    requires |nodes| > 0 && nodes[|nodes| - 1].next == x && x.prev == nodes[|nodes| - 1]
    requires forall i :: 0 <= i < |nodes| - 1 ==> nodes[i].next == nodes[i + 1]
    requires forall i :: 1 <= i < |nodes| ==> nodes[i].prev == nodes[i - 1]
    ensures Linked(nodes + [x])
  {
  }

  lemma ChainRelinked(nodes: seq<LineNode>, lines: seq<string>, x: nat, y: nat, z: nat)
    requires x + 1 < |nodes| && y + 1 < |nodes| && z + 1 < |nodes| && Relinked(nodes, x, y, z) && !Tears(x, y, z)
    requires Shows(nodes, lines) && Distinct(nodes) && Ends(nodes)
    ensures Chain(Rotated(nodes, x + 1, y + 1, z + 1), Rotated(lines, x, y, z), nodes[0], nodes[|nodes| - 1])
  {
    hide Relinked, Linked, Distinct, Rotated, Chain, Ends;
    LinkedRotated(nodes, x, y, z);
    ChainRotated(nodes, lines, x, y, z);
  }

  lemma RotatedSize(nodes: seq<LineNode>, lines: seq<string>, x: nat, y: nat, z: nat)
    requires |nodes| == |lines| + 2 && !Tears(x, y, z) && x + 1 < |nodes| && y + 1 < |nodes| && z + 1 < |nodes|
    ensures !Tears(x + 1, y + 1, z + 1) && |Rotated(nodes, x + 1, y + 1, z + 1)| == |nodes| && |Rotated(lines, x, y, z)| == |lines|
  {
  }

  lemma TornSize(x: nat, y: nat, z: nat, n: nat)
    requires Tears(x, y, z) && x <= n && y <= n && z <= n
    ensures Lowest(x, y, z) < Highest(x, y, z) <= n
  {
  }

  lemma CursorRotated(nodes: seq<LineNode>, lines: seq<string>, head: LineNode, tail: LineNode, x: nat, y: nat, z: nat, k: nat)
    requires Chain(nodes, lines, head, tail) && !Tears(x, y, z) && x + 1 < |nodes| && y + 1 < |nodes| && z + 1 < |nodes| && k < |nodes|
    ensures |nodes| == |lines| + 2 && !Tears(x + 1, y + 1, z + 1)
    ensures |Rotated(nodes, x + 1, y + 1, z + 1)| == |nodes| && |Rotated(lines, x, y, z)| == |lines|
    ensures Rotated(nodes, x + 1, y + 1, z + 1)[k] == nodes[k] <==> x == z || k <= Lowest(x, y, z) || k > Highest(x, y, z)
  {
    RotatedSize(nodes, lines, x, y, z);
    RotatedStays(nodes, x, y, z, k);
  }

  /** What the six assignments make of the chain. */
  method MoveLinks(first: LineNode, last: LineNode, target: LineNode, ghost nodes: seq<LineNode>, ghost lines: seq<string>,
                   ghost x: nat, ghost y: nat, ghost z: nat)
    requires |nodes| > 0 && Chain(nodes, lines, nodes[0], nodes[|nodes| - 1]) && x + 1 < |nodes| && y + 1 < |nodes| && z + 1 < |nodes|
    requires first == nodes[x + 1] && last == nodes[y] && target == nodes[z]
    modifies nodes`next, nodes`prev
    ensures |nodes| == |lines| + 2
    ensures !Tears(x, y, z) ==> Chain(Rotated(nodes, x + 1, y + 1, z + 1), Rotated(lines, x, y, z), nodes[0], nodes[|nodes| - 1])
    ensures Tears(x, y, z) ==>
              var p, q := Lowest(x, y, z), Highest(x, y, z);
              p < q <= |lines| && Forward(Without(nodes, p + 1, q + 1)) && |Without(lines, p, q)| == |lines| - (q - p)
  {
    hide Chain, Shows, Ends, Distinct, Linked, Relinked, Forward, Rotated, Without, Tears, Lowest, Highest;
    ChainSize(nodes, lines, nodes[0], nodes[|nodes| - 1]);
    ChainParts(nodes, lines, nodes[0], nodes[|nodes| - 1]);
    Relink(first, last, target, nodes, x, y, z);
    if Tears(x, y, z) {
      ghost var p, q := Lowest(x, y, z), Highest(x, y, z);
      ForwardTorn(nodes, x, y, z, p, q);
      TornSize(x, y, z, |lines|);
      WithoutAt(lines, p, q, Without(lines, p, q));
    } else {
      RotatedSize(nodes, lines, x, y, z);
      ChainRelinked(nodes, lines, x, y, z);
    }
  }
}
