/** The editor: its list of lines, its cursor and its commands. */
module Editor {
  import opened Sequences
  import opened LineEdits
  import opened LineList

  /** How a command ends; Faults means that it follows a null or unset pointer. */
  datatype Outcome = Done | Refused | Faults

  class Editor {
    var headNode: LineNode
    var tailNode: LineNode
    var curNode: LineNode
    var fileLineNum: int
    var currentLine: int
    var isDirty: bool
    var showLineIdx: bool
    var headShowLine: int

    // the nodes from head to tail, and the lines between them
    ghost var nodes: seq<LineNode>
    ghost var lines: seq<string>

    ghost predicate Valid()
      reads this, nodes
    {
      fileLineNum == |lines| && Chain(nodes, lines, headNode, tailNode)
    }

    /** curNode is line currentLine, or the head for 0, or the tail for one more than the lines. */
    ghost predicate CursorOk()
      reads this
    {
      0 <= currentLine < |nodes| && nodes[currentLine] == curNode
    }

    constructor ()
      ensures Valid() && CursorOk() && currentLine == 0 && lines == [] && !isDirty && showLineIdx && headShowLine == 0 && fresh(nodes)
    {
      var tail := new LineNode();
      var head := new LineNode();
      tail.prev := head;
      head.next := tail;
      headNode, tailNode, curNode := head, tail, head;
      fileLineNum, currentLine, isDirty, showLineIdx, headShowLine := 0, 0, false, true, 0;
      nodes, lines := [head, tail], [];
    }

    /** newNode between two nodes: a fresh empty line after node k; the cursor goes back to the head. */
    method AddNode(prev: LineNode, ghost k: nat) returns (node: LineNode)
      requires Valid() && k <= |lines| && prev == nodes[k]
      modifies this`fileLineNum, this`isDirty, this`curNode, this`currentLine, this`nodes, this`lines, nodes`next, nodes`prev
      ensures Valid() && CursorOk() && currentLine == 0 && isDirty && fresh(node)
      ensures nodes == Inserted(old(nodes), k + 1, node) && lines == Inserted(old(lines), k, "")
    {
      hide Chain, Linked, Distinct, Shows, Ends, Inserted;
      node := new LineNode();
      ChainSize(nodes, lines, headNode, tailNode);
      ChainParts(nodes, lines, headNode, tailNode);
      LinkAfter(prev, node, nodes, k);
      ghost var now, text := Inserted(nodes, k + 1, node), Inserted(lines, k, "");
      ChainInserted(nodes, lines, k, node);
      ChainSize(now, text, headNode, tailNode);
      InsertedAt(lines, k, "", text);
      fileLineNum := fileLineNum + 1;
      isDirty := true;
      curNode, currentLine := headNode, 0;
      nodes, lines := now, text;
    }

    /** newNode behind the tail: the node hangs on the list and is not part of it. */
    method AddBehindTail(prev: LineNode) returns (node: LineNode)
      requires Valid() && prev == tailNode
      modifies this`fileLineNum, this`isDirty, this`curNode, this`currentLine, prev`next
      ensures !Valid() && CursorOk() && currentLine == 0 && isDirty && fresh(node)
      ensures fileLineNum == |lines| + 1 && Linked(nodes + [node])
    {
      node := new LineNode();
      prev.next := node;
      node.prev := prev;
      node.next := null;
      LinkedBehind(nodes, node);
      fileLineNum := fileLineNum + 1;
      isDirty := true;
      curNode, currentLine := headNode, 0;
    }

    /** newNode; prev is null, or node k. */
    method NewNode(prev: LineNode?, ghost k: nat) returns (node: LineNode?)
      requires Valid() && (prev != null ==> k < |nodes| && prev == nodes[k])
      modifies this`fileLineNum, this`isDirty, this`curNode, this`currentLine, this`nodes, this`lines, nodes`next, nodes`prev
      ensures prev == null <==> node == null
      ensures prev == null ==> Valid() && nodes == old(nodes) && lines == old(lines) && isDirty == old(isDirty)
      ensures prev == null ==> curNode == old(curNode) && currentLine == old(currentLine)
      ensures prev != null ==> fresh(node) && CursorOk() && currentLine == 0 && isDirty
      ensures prev != null && k <= |old(lines)| ==>
                Valid() && nodes == Inserted(old(nodes), k + 1, node) && lines == Inserted(old(lines), k, "")
      ensures prev != null && k == |old(lines)| + 1 ==>
                !Valid() && nodes == old(nodes) && lines == old(lines) && Linked(nodes + [node]) && fileLineNum == |lines| + 1
    {
      if prev == null {
        return null;
      }
      NextOfNode(nodes, lines, headNode, tailNode, k);
      hide Chain, Linked, Inserted;
      if prev.next != null {
        node := AddNode(prev, k);
      } else {
        node := AddBehindTail(prev);
      }
    }

    /** deleteNode; null and the two roots are refused, a line k is unlinked and the cursor goes back to the head. */
    method DeleteNode(node: LineNode?, ghost k: nat) returns (next: LineNode?)
      requires Valid() && (node != null ==> k < |nodes| && node == nodes[k])
      modifies this`fileLineNum, this`isDirty, this`curNode, this`currentLine, this`nodes, this`lines, nodes`next, nodes`prev
      ensures Valid()
      ensures next == null <==> node == null || k == 0 || k == |old(lines)| + 1
      ensures next == null ==> nodes == old(nodes) && lines == old(lines) && isDirty == old(isDirty)
      ensures next == null ==> curNode == old(curNode) && currentLine == old(currentLine)
      ensures next != null ==>
                && 1 <= k <= |old(lines)| && next == old(nodes)[k + 1] && CursorOk() && currentLine == 0 && isDirty
                && nodes == Without(old(nodes), k, k + 1) && lines == Without(old(lines), k - 1, k)
    {
      hide Chain, Linked, Distinct, Shows, Ends, Without;
      if node == null {
        return null;
      }
      RootsOnly(nodes, lines, headNode, tailNode, k);
      if node == headNode || node == tailNode {
        return null;
      }
      ChainSize(nodes, lines, headNode, tailNode);
      ChainParts(nodes, lines, headNode, tailNode);
      next := Unlink(node, nodes, k);
      ghost var now, text := Without(nodes, k, k + 1), Without(lines, k - 1, k);
      ChainWithout(nodes, lines, k);
      ChainSize(now, text, headNode, tailNode);
      WithoutAt(lines, k - 1, k, text);
      fileLineNum := fileLineNum - 1;
      isDirty := true;
      curNode, currentLine := headNode, 0;
      nodes, lines := now, text;
    }

    // ---- looking lines up ----

    /** curNode is node k, whatever its number says. */
    ghost predicate CursorAt(k: nat)
      reads this
    {
      k < |nodes| && nodes[k] == curNode && 0 <= currentLine
    }

    /** Where a search from the head ends that also stops at node k; -1 if it runs off the list. */
    static ghost function HeadStop(index: int, k: nat): int {
      if k == 0 then if index == 0 then -1 else index
      else if index == 0 || k < index then k else index
    }

    /** Where the search for a line ends with the cursor at node k; -1 if it runs off the list. */
    ghost function Found(index: int, k: nat): int
      reads this`currentLine, this`fileLineNum
    {
      if index <= currentLine then
        if index - 1 <= currentLine - index then HeadStop(index, k)
        else if k == 0 then if index == currentLine then 0 else -1
        else if k - (currentLine - index) < 1 then 1 else k - (currentLine - index)
      else if index - currentLine <= fileLineNum - index then
        if k == fileLineNum + 1 then -1
        else if k + index - currentLine > fileLineNum then fileLineNum else k + index - currentLine
      else if k == fileLineNum + 1 || k < index then index else k
    }

    /** The node a number leads to with the cursor at node k; -1 if it is out of range or the search runs off. */
    ghost function At(idx: int, k: nat): int
      reads this`currentLine, this`fileLineNum
    {
      if 0 <= idx <= fileLineNum then Found(idx, k) else -1
    }

    /** With the cursor at its line: every line number leads to its line, and 0, which is no line, to the cursor. */
    ghost function Line(idx: int): int
      reads this`currentLine, this`fileLineNum
    {
      if idx < 0 || idx > fileLineNum || (idx == 0 && currentLine == 0) then -1 else if idx == 0 then currentLine else idx
    }

    lemma AtLine(idx: int)
      requires 0 <= currentLine <= fileLineNum + 1
      ensures At(idx, currentLine) == Line(idx)
    {
    }

    /**
     findNode: the node of a line, searched from whichever of head, cursor and tail is
     near; null for a number out of range. `off` says that the search has run off the
     list. If the cursor is at its line, that happens only for line 0 with the cursor at
     the head: the search for 0 stops at the cursor, and then has nowhere to stop.
     */
    method FindNode(index: int, ghost k: nat) returns (now: LineNode?, off: bool)
      requires Valid() && CursorAt(k)
      ensures off <==> 0 <= index <= fileLineNum && At(index, k) == -1
      ensures now == null <==> At(index, k) == -1
      ensures now != null ==> 0 <= At(index, k) < |nodes| && now == nodes[At(index, k)]
      ensures k == currentLine ==> At(index, k) == Line(index)
    {
      ChainSize(nodes, lines, headNode, tailNode);
      off := false;
      if index > fileLineNum || index < 0 {
        return null, false;
      }
      if k == currentLine { AtLine(index); }
      if index <= currentLine {
        if index - 1 <= currentLine - index {
          now := FromHead(index, k);
        } else {
          now := BackFrom(index, k);
        }
      } else if index - currentLine <= fileLineNum - index {
        now := OnFrom(index, k);
      } else {
        now := FromTail(index, k);
      }
      off := now == null;
    }

    method FromHead(index: int, ghost k: nat) returns (now: LineNode?)
      requires Valid() && CursorAt(k) && 0 <= index <= fileLineNum
      ensures now == null <==> HeadStop(index, k) == -1
      ensures now != null ==> 0 <= HeadStop(index, k) < |nodes| && now == nodes[HeadStop(index, k)]
    {
      assert headNode.next == nodes[1];
      now := headNode.next;
      var lineIdx := 1;
      while now != curNode
        invariant 1 <= lineIdx <= |nodes| && now == if lineIdx < |nodes| then nodes[lineIdx] else null
        invariant (k != 0 ==> lineIdx <= k) && (index != 0 ==> lineIdx <= index)
        decreases |nodes| - lineIdx
      {
        if lineIdx == index {
          break;
        }
        if now == null {
          return;
        }
        NextOfNode(nodes, lines, headNode, tailNode, lineIdx);
        now := now.next;
        lineIdx := lineIdx + 1;
      }
    }

    method OnFrom(index: int, ghost k: nat) returns (now: LineNode?)
      requires Valid() && CursorAt(k) && currentLine < index && index - currentLine <= fileLineNum - index
      ensures now == null <==> Found(index, k) == -1
      ensures now != null ==> 0 <= Found(index, k) < |nodes| && now == nodes[Found(index, k)]
    {
      now := curNode;
      NextOfNode(nodes, lines, headNode, tailNode, k);
      RootsOnly(nodes, lines, headNode, tailNode, k);
      var lineIdx := currentLine;
      ghost var at := k;
      while now.next != tailNode
        invariant currentLine <= lineIdx <= index && at - k == lineIdx - currentLine
        invariant k <= at < |nodes| && now == nodes[at] && (at == fileLineNum + 1 ==> at == k)
        decreases index - lineIdx
      {
        if lineIdx == index {
          break;
        }
        NextOfNode(nodes, lines, headNode, tailNode, at);
        if now.next == null {
          return null;
        }
        RootsOnly(nodes, lines, headNode, tailNode, at + 1);
        now := now.next;
        lineIdx := lineIdx + 1;
        at := at + 1;
      }
      NextOfNode(nodes, lines, headNode, tailNode, at);
      if at + 1 < |nodes| { RootsOnly(nodes, lines, headNode, tailNode, at + 1); }
    }

    method BackFrom(index: int, ghost k: nat) returns (now: LineNode?)
      requires Valid() && CursorAt(k) && index <= currentLine && index - 1 > currentLine - index
      ensures now == null <==> Found(index, k) == -1
      ensures now != null ==> 0 <= Found(index, k) < |nodes| && now == nodes[Found(index, k)]
    {
      now := curNode;
      var lineIdx := currentLine;
      ghost var at := k;
      while now.prev != headNode
        invariant index <= lineIdx <= currentLine && k - at == currentLine - lineIdx
        invariant 0 <= at <= k && now == nodes[at] && (at == 0 ==> k == 0)
        decreases lineIdx
      {
        if lineIdx == index {
          break;
        }
        PrevOfNode(nodes, lines, headNode, tailNode, at);
        if now.prev == null {
          return null;
        }
        now := now.prev;
        lineIdx := lineIdx - 1;
        at := at - 1;
      }
      PrevOfNode(nodes, lines, headNode, tailNode, at);
    }

    method FromTail(index: int, ghost k: nat) returns (now: LineNode?)
      requires Valid() && CursorAt(k) && currentLine < index <= fileLineNum && index - currentLine > fileLineNum - index
      ensures now == null <==> Found(index, k) == -1
      ensures now != null ==> 0 <= Found(index, k) < |nodes| && now == nodes[Found(index, k)]
    {
      PrevOfNode(nodes, lines, headNode, tailNode, |nodes| - 1);
      now := tailNode.prev;
      var lineIdx := fileLineNum;
      while now != curNode
        invariant index <= lineIdx <= fileLineNum && now == nodes[lineIdx] && (k <= fileLineNum ==> k <= lineIdx)
        decreases lineIdx
      {
        if lineIdx == index {
          break;
        }
        PrevOfNode(nodes, lines, headNode, tailNode, lineIdx);
        now := now.prev;
        lineIdx := lineIdx - 1;
      }
    }

    // ---- the cursor ----

    /** cmdLoop puts the cursor on the first line; in an empty file that is the tail. */
    method StartCursor()
      requires Valid()
      modifies this`curNode, this`currentLine
      ensures CursorOk() && currentLine == 1
    {
      assert headNode.next == nodes[1];
      currentLine := 1;
      curNode := headNode.next;
    }

    /** How many lines a listing with numbers shows, from node k and this number on. */
    static ghost function Shown(endIndex: int, first: int, k: int, tail: int): int {
      if endIndex + 1 - first < tail - k then endIndex + 1 - first else tail - k
    }

    /**
     showFile's loop over the lines, from node k on. With line numbers, node and number
     move together; without, the node goes to the tail and the number stays.
     */
    method Display(endIndex: int, ghost k: nat)
      requires Valid() && CursorAt(k) && currentLine <= endIndex
      modifies this`curNode, this`currentLine
      ensures var m := Shown(endIndex, old(currentLine), k, |nodes| - 1);
              showLineIdx ==> 0 <= m && CursorAt(k + m) && currentLine == old(currentLine) + m
      ensures !showLineIdx ==> CursorAt(|nodes| - 1) && currentLine == old(currentLine)
    {
      ghost var at := k;
      RootsOnly(nodes, lines, headNode, tailNode, at);
      while curNode != tailNode
        invariant k <= at < |nodes| && curNode == nodes[at] && (curNode == tailNode <==> at == |nodes| - 1)
        invariant currentLine == old(currentLine) + if showLineIdx then at - k else 0
        invariant showLineIdx ==> currentLine <= endIndex
        decreases |nodes| - at
      {
        NextOfNode(nodes, lines, headNode, tailNode, at);
        if showLineIdx {
          currentLine := currentLine + 1;
        }
        curNode := curNode.next;
        at := at + 1;
        RootsOnly(nodes, lines, headNode, tailNode, at);
        if currentLine > endIndex {
          break;
        }
      }
    }

    /** The line a listing begins at; a page back from the line after it may ask for line 0. */
    ghost function ListFrom(index: int, count: int): int
      reads this
    {
      var i := if index > fileLineNum then fileLineNum else index;
      if i == 0 then 1
      else if count < 0 then
        var h := headShowLine + count - 1;
        if h < 0 then 1 else h
      else if i < 0 then 1 else i
    }

    /** And the line it ends at. */
    ghost function ListTo(index: int, count: int): int
      reads this
    {
      var to := ListFrom(index, count) + if count < 0 then -count else count;
      if index == 0 || to > fileLineNum then fileLineNum else to
    }

    /** A listing backwards begins a page before the last one. */
    method PageUp(count: int) returns (i: int)
      modifies this`headShowLine
      ensures i == headShowLine == var h := old(headShowLine) + count - 1; if h < 0 then 1 else h
    {
      headShowLine := headShowLine + count;
      headShowLine := headShowLine - 1;
      if headShowLine < 0 {
        headShowLine := 1;
      }
      i := headShowLine;
    }

    /** The cursor goes to the line a search for this number finds. */
    method MoveTo(i: int, ghost k: nat) returns (r: Outcome)
      requires Valid() && CursorAt(k) && 0 <= i
      modifies this`curNode, this`currentLine, this`headShowLine
      ensures r == Faults <==> i <= fileLineNum && old(At(i, k)) == -1
      ensures r == Refused <==> i > fileLineNum
      ensures r == Refused ==> curNode == old(curNode) && currentLine == old(currentLine)
      ensures r == Done ==> 0 <= old(At(i, k)) && CursorAt(old(At(i, k))) && currentLine == headShowLine == i
    {
      hide Chain, Found, Linked;
      var tmp, off := FindNode(i, k);
      if tmp == null {
        r := if off then Faults else Refused;
        return;
      }
      curNode := tmp;
      currentLine := i;
      headShowLine := i;
      r := Done;
    }

    /** The node a listing begins at. */
    ghost function ListAt(index: int, count: int, k: nat): int
      reads this
    {
      if index == 0 then 1 else At(ListFrom(index, count), k)
    }

    /** showFile up to its loop: the cursor goes to the first line to be listed. */
    method Locate(index: int, count: int, ghost k: nat) returns (r: Outcome, endIndex: int)
      requires Valid() && CursorAt(k) && fileLineNum > 0
      modifies this`curNode, this`currentLine, this`headShowLine
      ensures r == Faults <==> old(ListFrom(index, count)) <= fileLineNum && old(ListAt(index, count, k)) == -1
      ensures r == Refused <==> old(ListFrom(index, count)) > fileLineNum
      ensures r == Refused ==> curNode == old(curNode) && currentLine == old(currentLine)
      ensures r == Done ==>
                && 0 <= old(ListAt(index, count, k)) && CursorAt(old(ListAt(index, count, k)))
                && currentLine == headShowLine == old(ListFrom(index, count))
                && currentLine <= endIndex <= fileLineNum && endIndex == old(ListTo(index, count))
    {
      hide Chain, At;
      var i := if index > fileLineNum then fileLineNum else index;
      endIndex := fileLineNum;
      if i == 0 {
        StartCursor();
        headShowLine := 1;
      } else {
        i := if i < 0 then 1 else i;
        if count < 0 {
          i := PageUp(count);
        }
        r := MoveTo(i, k);
        if r != Done {
          return;
        }
        endIndex := if count < 0 then currentLine - count else currentLine + count;
        endIndex := if endIndex > fileLineNum then fileLineNum else endIndex;
      }
      r := Done;
    }

    /**
     showFile, with the cursor at node k. In a file with lines the cursor matches its line
     afterwards exactly if line numbers are shown and the first number leads to its line,
     or if it was past the last one, nothing was shown and the cursor matched before. A
     listing that goes back to line 0 begins at the cursor's node with the number 0, and
     follows a null pointer if that is the head.
     */
    method ShowFile(index: int, count: int, ghost k: nat) returns (r: Outcome)
      requires Valid() && CursorAt(k)
      modifies this`curNode, this`currentLine, this`headShowLine
      ensures r == Faults <==> fileLineNum > 0 && old(ListFrom(index, count)) <= fileLineNum && old(ListAt(index, count, k)) == -1
      ensures r == Refused <==> fileLineNum == 0 || old(ListFrom(index, count)) > fileLineNum
      ensures r == Refused ==> curNode == old(curNode) && currentLine == old(currentLine)
      ensures r == Done ==> headShowLine == old(ListFrom(index, count))
      ensures r == Done ==> (CursorOk() <==> showLineIdx && old(ListFrom(index, count) == ListAt(index, count, k)))
      ensures r == Done && CursorOk() ==> currentLine == old(ListTo(index, count)) + 1
      ensures r == Done && showLineIdx ==>
                var m := Shown(old(ListTo(index, count)), old(ListFrom(index, count)), old(ListAt(index, count, k)), |nodes| - 1);
                0 <= m && CursorAt(old(ListAt(index, count, k)) + m) && currentLine == old(ListFrom(index, count)) + m
      ensures r == Done && !showLineIdx ==> CursorAt(|nodes| - 1) && currentLine == old(ListFrom(index, count))
      ensures fileLineNum > 0 && k == old(currentLine) ==> old(ListAt(index, count, k) == Line(ListFrom(index, count)))
    {
      hide Chain, ListTo, Found;
      AtOnce(nodes, lines, headNode, tailNode);
      if k == currentLine { AtLine(ListFrom(index, count)); }
      if fileLineNum == 0 {
        return Refused;
      }
      ghost var at := ListAt(index, count, k);
      var endIndex;
      r, endIndex := Locate(index, count, k);
      if r == Done {
        Display(endIndex, at);
      }
    }

    // ---- the commands ----

    /**
     freeList: the nodes i to j leave the list and are counted. A root at either end is
     refused; with j before i the loop runs on to the tail, and then counts as a failure.
     */
    method FreeList(start: LineNode?, end: LineNode, ghost i: nat, ghost j: nat) returns (delNum: nat)
      requires Valid() && (start != null ==> i < |nodes| && start == nodes[i]) && j < |nodes| && end == nodes[j]
      modifies this`fileLineNum, this`isDirty, this`curNode, this`currentLine, this`nodes, this`lines, nodes`next, nodes`prev
      ensures Valid()
      ensures var gone := if start == null || i == 0 || j == |old(lines)| + 1 then 0
                          else if i <= j + 1 then j + 1 - i else |old(lines)| + 1 - i;
              && (gone == 0 ==> nodes == old(nodes) && lines == old(lines) && isDirty == old(isDirty) && delNum == 0)
              && (gone == 0 ==> curNode == old(curNode) && currentLine == old(currentLine))
              && (gone > 0 ==> nodes == Without(old(nodes), i, i + gone) && lines == Without(old(lines), i - 1, i - 1 + gone))
              && (gone > 0 ==> CursorOk() && currentLine == 0 && isDirty && delNum == if i <= j + 1 then gone else 0)
    {
      hide Chain, Without;
      if start == headNode || end == tailNode {
        RootsOnly(nodes, lines, headNode, tailNode, j);
        if start != null {
          RootsOnly(nodes, lines, headNode, tailNode, i);
        }
        return 0;
      }
      RootsOnly(nodes, lines, headNode, tailNode, j);
      NextOfNode(nodes, lines, headNode, tailNode, j);
      if start == null {
        var next := DeleteNode(start, 0);
        return 0;
      }
      RootsOnly(nodes, lines, headNode, tailNode, i);
      delNum := FreeUpTo(start, end.next, i, if i <= j + 1 then j + 1 else |lines| + 1, j + 1);
    }

    /** freeList's loop: deletes nodes from lo on until tmp, node m, is reached or the tail is. */
    method FreeUpTo(start: LineNode, tmp: LineNode, ghost lo: nat, ghost hi: nat, ghost m: nat) returns (delNum: nat)
      requires Valid() && 1 <= lo <= hi < |nodes| && m < |nodes| && start == nodes[lo] && tmp == nodes[m]
      requires m == hi || (m < lo && hi == |lines| + 1)
      modifies this`fileLineNum, this`isDirty, this`curNode, this`currentLine, this`nodes, this`lines, nodes`next, nodes`prev
      ensures Valid() && nodes == Without(old(nodes), lo, hi) && lines == Without(old(lines), lo - 1, hi - 1)
      ensures delNum == if m == hi then hi - lo else 0
      ensures hi > lo ==> CursorOk() && currentLine == 0 && isDirty
      ensures hi == lo ==> nodes == old(nodes) && lines == old(lines)
      ensures hi == lo ==> curNode == old(curNode) && currentLine == old(currentLine) && isDirty == old(isDirty)
    {
      hide Chain, Without;
      ghost var was, text := nodes, lines;
      BeforeFree(was, text, headNode, tailNode, lo, hi, m);
      var now := start;
      delNum := 0;
      while now != tmp
        invariant Valid() && delNum <= hi - lo && now == was[lo + delNum]
        invariant nodes == Without(was, lo, lo + delNum) && lines == Without(text, lo - 1, lo - 1 + delNum)
        invariant forall x :: 0 <= x < |nodes| ==> nodes[x] in was
        invariant delNum > 0 ==> CursorOk() && currentLine == 0 && isDirty
        invariant delNum == 0 ==> curNode == old(curNode) && currentLine == old(currentLine) && isDirty == old(isDirty)
        decreases hi - lo - delNum
      {
        hide CursorOk;
        WithoutMore(was, lo, lo + delNum);
        if lo + delNum <= |text| {
          WithoutMore(text, lo - 1, lo - 1 + delNum);
          WithoutIn(was, lo, lo + delNum + 1);
        } else {
          WithoutAll(text, lo - 1);
        }
        var next := DeleteNode(now, lo);
        if next == null {
          return 0;
        }
        now := next;
        delNum := delNum + 1;
      }
    }

    /** Gives line k its text, or a node outside a broken list. */
    method SetContent(node: LineNode, content: string, ghost k: nat)
      requires if Valid() then 1 <= k <= |lines| && node == nodes[k] else node !in nodes
      modifies this`lines, node`content
      ensures old(Valid()) ==> Valid() && lines == old(lines)[k - 1 := content]
      ensures !old(Valid()) ==> !Valid() && lines == old(lines)
    {
      ghost var sound := Valid();
      node.content := content;
      if sound {
        ShowsChanged(nodes, lines, k, content);
        lines := lines[k - 1 := content];
      }
    }

    /** The typed text up to its newline. */
    method Typed(args: string) returns (content: string)
      ensures content == LineOf(args)
    {
      var len := 0;
      while len < |args| && args[len] != '\n'
        invariant len <= |args| && forall j :: 0 <= j < len ==> args[j] != '\n'
      {
        len := len + 1;
      }
      LineOfPrefix(args, len);
      content := args[..len];
    }

    /** Where ins puts the line: line 0 is the head, any other number leads where findNode goes. */
    ghost function InsAt(idx: int, k: nat): int
      reads this
    {
      if idx == 0 then 0 else At(idx, k)
    }

    /**
     ins idx, with the cursor at node k. The line goes behind the node the number leads
     to, which is line idx if the cursor matches its line. Behind the tail it is lost, and
     still counted.
     */
    method Ins(idx: int, args: string, ghost k: nat) returns (r: Outcome)
      requires Valid() && CursorAt(k)
      modifies this`fileLineNum, this`isDirty, this`curNode, this`currentLine, this`nodes, this`lines, nodes
      ensures r == Refused <==> idx < 0 || idx > |old(lines)|
      ensures r == Faults <==> 0 <= idx <= |old(lines)| && old(InsAt(idx, k)) == -1
      ensures r == Done && old(InsAt(idx, k)) <= |old(lines)| ==>
                0 <= old(InsAt(idx, k)) && Valid() && lines == Inserted(old(lines), old(InsAt(idx, k)), LineOf(args))
      ensures r == Done && old(InsAt(idx, k)) > |old(lines)| ==>
                !Valid() && nodes == old(nodes) && lines == old(lines) && fileLineNum == |lines| + 1
      ensures r == Done ==> CursorOk() && currentLine == 0 && isDirty
      ensures forall i :: 0 <= i < |nodes| ==> nodes[i] in old(nodes) || fresh(nodes[i])
      ensures r != Done ==> Valid() && lines == old(lines) && nodes == old(nodes) && isDirty == old(isDirty)
      ensures r != Done ==> curNode == old(curNode) && currentLine == old(currentLine)
      ensures k == old(currentLine) && 0 <= idx <= |old(lines)| ==> r == Done && old(InsAt(idx, k)) == idx
    {
      hide Chain, Inserted, Found;
      ghost var was, text := nodes, lines;
      ChainSize(was, text, headNode, tailNode);
      var prev: LineNode?, off := headNode, false;
      if idx != 0 {
        prev, off := FindNode(idx, k);
      }
      if prev == null {
        return if off then Faults else Refused;
      }
      ghost var at := InsAt(idx, k);
      var content := Typed(args);
      var now := NewNode(prev, at);
      if at <= |text| {
        InsertedAt(was, at + 1, now, nodes);
        InsertedIn(was, at + 1, now, nodes);
        InsertedAt(text, at, "", lines);
        InsertedSet(text, at, "", content);
      }
      ghost var longer := nodes;
      SetContent(now, content, at + 1);
      assert nodes == longer && forall i :: 0 <= i < |longer| ==> longer[i] == now || longer[i] in was;
      r := Done;
    }

    /**
     mod idx, with the cursor at node k: the line the number leads to is replaced. mod
     follows the unset prev for line 0, and null for a number out of range. If the number
     leads to the head nothing happens; if to the tail, the line is added at the end.
     */
    method Mod(idx: int, args: string, ghost k: nat) returns (r: Outcome)
      requires Valid() && CursorAt(k)
      modifies this`fileLineNum, this`isDirty, this`curNode, this`currentLine, this`nodes, this`lines, nodes
      ensures Valid() && (r == Faults <==> idx == 0 || old(At(idx, k)) == -1)
      ensures r == Refused <==> r != Faults && old(At(idx, k)) == 0
      ensures r == Done && old(At(idx, k)) <= |old(lines)| ==>
                1 <= old(At(idx, k)) && lines == old(lines)[old(At(idx, k)) - 1 := LineOf(args)]
      ensures r == Done && old(At(idx, k)) > |old(lines)| ==> lines == old(lines) + [LineOf(args)]
      ensures r == Done ==> CursorOk() && isDirty
      ensures r != Done ==> lines == old(lines) && nodes == old(nodes) && isDirty == old(isDirty)
      ensures r != Done ==> curNode == old(curNode) && currentLine == old(currentLine)
      ensures k == old(currentLine) && 1 <= idx <= |old(lines)| ==> r == Done && old(At(idx, k)) == idx
    {
      hide Chain, Inserted, Without, Found;
      if idx == 0 {
        return Faults;
      }
      ghost var was, text := nodes, lines;
      ChainSize(was, text, headNode, tailNode);
      var node, off := FindNode(idx, k);
      if node == null {
        return Faults;
      }
      ghost var at := At(idx, k);
      PrevOfNode(was, text, headNode, tailNode, at);
      if node.prev == null {
        return Refused;
      }
      var content := Typed(args);
      var now := Renew(node, at);
      if at > |text| {
        InsertedSet(text, at - 1, "", content);
        InsertedLast(text, content);
      }
      SetContent(now, content, at);
      r := Done;
    }

    /** The middle of mod: node k gives way to an empty one; the tail does not, and gets one before it. */
    method Renew(node: LineNode, ghost k: nat) returns (now: LineNode)
      requires Valid() && 1 <= k < |nodes| && node == nodes[k]
      modifies this`fileLineNum, this`isDirty, this`curNode, this`currentLine, this`nodes, this`lines, nodes`next, nodes`prev
      ensures Valid() && CursorOk() && isDirty && fresh(now) && k < |nodes| && k <= |lines| && nodes[k] == now
      ensures k <= |old(lines)| ==> nodes == old(nodes)[k := now] && lines == old(lines)[k - 1 := ""]
      ensures k > |old(lines)| ==> lines == Inserted(old(lines), k - 1, "")
    {
      hide Chain, Inserted, Without, CursorOk;
      ghost var was, text := nodes, lines;
      ChainSize(was, text, headNode, tailNode);
      PrevOfNode(was, text, headNode, tailNode, k);
      NextOfNode(was, text, headNode, tailNode, k - 1);
      var prev := node.prev;
      var next := DeleteNode(prev.next, k);
      ghost var was', text' := nodes, lines;
      if k <= |text| {
        WithoutOne(was, k, was');
        WithoutOne(text, k - 1, text');
        WithoutIn(was, k, k + 1);
      }
      var node' := NewNode(prev, k - 1);
      if k <= |text| {
        RenewedNode(was, k, was', node', nodes);
        Renewed(text, k - 1, text', "", lines);
      } else {
        InsertedAt(was, k, node', nodes);
        InsertedAt(text, k - 1, "", lines);
      }
      now := node';
    }

    /** How many lines del takes out, from the one idx1 leads to on. */
    ghost function Deleted(idx1: int, idx2: int, k: nat): int
      reads this
    {
      if idx1 > idx2 || At(idx1, k) <= 0 || At(idx2, k) < 0 || At(idx2, k) > fileLineNum then 0
      else if At(idx1, k) <= At(idx2, k) + 1 then At(idx2, k) + 1 - At(idx1, k)
      else fileLineNum + 1 - At(idx1, k)
    }

    /**
     del idx1 idx2, with the cursor at node k. It faults exactly when the second number leads
     nowhere, or the search for the first runs off. With the cursor at its line two line numbers
     in order delete those lines. A 0 then stands for the cursor's line; if the first number leads
     past the second, everything from there on goes and an error is reported.
     */
    method Del(idx1: int, idx2: int, ghost k: nat) returns (r: Outcome)
      requires Valid() && CursorAt(k)
      modifies this`fileLineNum, this`isDirty, this`curNode, this`currentLine, this`nodes, this`lines, nodes`next, nodes`prev
      ensures Valid()
      ensures r == Faults <==> old(idx1 <= idx2 && (At(idx2, k) == -1 || (0 <= idx1 <= fileLineNum && At(idx1, k) == -1)))
      ensures r == Done <==> old(Deleted(idx1, idx2, k) > 0 && At(idx1, k) <= At(idx2, k))
      ensures old(Deleted(idx1, idx2, k)) <= 0 ==> lines == old(lines) && nodes == old(nodes) && isDirty == old(isDirty)
      ensures old(Deleted(idx1, idx2, k)) <= 0 ==> curNode == old(curNode) && currentLine == old(currentLine)
      ensures old(Deleted(idx1, idx2, k)) > 0 ==>
                && old(1 <= At(idx1, k) && At(idx1, k) - 1 + Deleted(idx1, idx2, k) <= |lines|)
                && CursorOk() && isDirty && currentLine == 0
                && lines == Without(old(lines), old(At(idx1, k)) - 1, old(At(idx1, k) - 1 + Deleted(idx1, idx2, k)))
      ensures k == old(currentLine) ==> old(At(idx1, k) == Line(idx1) && At(idx2, k) == Line(idx2))
      ensures k == old(currentLine) && 1 <= idx1 <= idx2 <= |old(lines)| ==>
                r == Done && lines == Without(old(lines), idx1 - 1, idx2)
    {
      hide Chain, Without, Found;
      ChainSize(nodes, lines, headNode, tailNode);
      if k == currentLine {
        AtLine(idx1);
        AtLine(idx2);
      }
      if idx1 > idx2 {
        return Refused;
      }
      var start, off1 := FindNode(idx1, k);
      var end, off2 := FindNode(idx2, k);
      if off1 || off2 || end == null {
        return Faults;
      }
      var delNum := FreeList(start, end, if start == null then 0 else At(idx1, k), At(idx2, k));
      r := if delNum > 0 then Done else Refused;
    }

    /** cut follows null: a number leads nowhere, the first to the head, or one of the others to the tail. */
    ghost predicate CutFaults(idx1: int, idx2: int, tar: int, k: nat)
      reads this
    {
      At(idx1, k) <= 0 || At(idx2, k) < 0 || At(idx2, k) > fileLineNum || At(tar, k) < 0 || At(tar, k) > fileLineNum
    }

    /**
     cut idx1 idx2 tar, with the cursor at node k: the block of lines idx1 to idx2 goes behind
     line tar, and the cursor stays as it is. The links redirected are those after the x, y and z
     lines that the numbers lead to. If they come in another order than for a block and a target
     outside it, the chain is torn: the lines between the lowest and the highest of them are lost,
     and still counted.
     */
    method Cut(idx1: int, idx2: int, tar: int, ghost k: nat) returns (r: Outcome, ghost x: int, ghost y: int, ghost z: int)
      requires Valid() && CursorAt(k)
      modifies this`nodes, this`lines, nodes`next, nodes`prev
      ensures x == old(At(idx1, k)) - 1 && y == old(At(idx2, k)) && z == old(At(tar, k))
      ensures r == Refused <==> !(idx1 <= idx2 && (tar < idx1 || tar > idx2))
      ensures r == Faults <==> r != Refused && old(CutFaults(idx1, idx2, tar, k))
      ensures r == Refused ==> Valid() && nodes == old(nodes) && lines == old(lines)
      ensures r == Done ==> 0 <= x <= |old(lines)| && 0 <= y <= |old(lines)| && 0 <= z <= |old(lines)|
      ensures k == currentLine ==> old(At(idx1, k) == Line(idx1) && At(idx2, k) == Line(idx2) && At(tar, k) == Line(tar))
      ensures k == currentLine && 1 <= idx1 <= idx2 <= |old(lines)| && 1 <= tar <= |old(lines)| && r != Refused ==>
                r == Done && Valid() && lines == Moved(old(lines), idx1 - 1, idx2, tar)
      ensures r == Done && !Tears(x, y, z) ==>
                && Valid() && lines == Rotated(old(lines), x, y, z) && nodes == Rotated(old(nodes), x + 1, y + 1, z + 1)
                && (k == currentLine ==>
                      (CursorOk() <==> x == z || currentLine <= Lowest(x, y, z) || currentLine > Highest(x, y, z)))
      ensures r == Done && Tears(x, y, z) ==>
                && var p, q := Lowest(x, y, z), Highest(x, y, z);
                && p < q <= |old(lines)| && nodes == Without(old(nodes), p + 1, q + 1) && lines == Without(old(lines), p, q)
                && Forward(nodes) && fileLineNum == |lines| + (q - p) && !Valid()
    {
      hide Chain, Rotated, Moved, Without, Tears, Lowest, Highest, Forward, Found;
      x, y, z := At(idx1, k) - 1, At(idx2, k), At(tar, k);
      ChainSize(nodes, lines, headNode, tailNode);
      if k == currentLine {
        AtLine(idx1);
        AtLine(idx2);
        AtLine(tar);
      }
      if !(idx1 <= idx2 && (tar < idx1 || tar > idx2)) {
        r := Refused;
        return;
      }
      var nidx1, nidx2, ntar := CutNodes(idx1, idx2, tar, k);
      if nidx1 == null || nidx2 == null || ntar == null {
        r := Faults;
        return;
      }
      MoveNodes(nidx1, nidx2, ntar, x, y, z, k);
      r := Done;
      if k == currentLine && 1 <= idx1 && 1 <= tar {
        RotatedIsMoved(old(lines), x, y, z);
      }
    }

    /** The three nodes of cut; null in place of one it would follow to nowhere. */
    method CutNodes(idx1: int, idx2: int, tar: int, ghost k: nat)
      returns (first: LineNode?, last: LineNode?, target: LineNode?)
      requires Valid() && CursorAt(k)
      ensures first == null || last == null || target == null <==> CutFaults(idx1, idx2, tar, k)
      ensures !CutFaults(idx1, idx2, tar, k) ==>
                && 1 <= At(idx1, k) <= |lines| + 1 && At(idx2, k) <= |lines| && At(tar, k) <= |lines| && |nodes| == |lines| + 2
                && first == nodes[At(idx1, k)] && last == nodes[At(idx2, k)] && target == nodes[At(tar, k)]
    {
      hide Found, Chain;
      ChainSize(nodes, lines, headNode, tailNode);
      var off;
      first, off := FindNode(idx1, k);
      last, off := FindNode(idx2, k);
      target, off := FindNode(tar, k);
      if first != null {
        RootsOnly(nodes, lines, headNode, tailNode, At(idx1, k));
        first := if first == headNode then null else first;
      }
      if last != null {
        RootsOnly(nodes, lines, headNode, tailNode, At(idx2, k));
        last := if last == tailNode then null else last;
      }
      if target != null {
        RootsOnly(nodes, lines, headNode, tailNode, At(tar, k));
        target := if target == tailNode then null else target;
      }
    }

    /** cut's six assignments and what they make of the list. */
    method MoveNodes(first: LineNode, last: LineNode, target: LineNode, ghost x: nat, ghost y: nat, ghost z: nat, ghost k: nat)
      requires Valid() && CursorAt(k) && x + 1 < |nodes| && y + 1 < |nodes| && z + 1 < |nodes|
      requires first == nodes[x + 1] && last == nodes[y] && target == nodes[z]
      modifies this`nodes, this`lines, nodes`next, nodes`prev
      ensures |old(nodes)| == |old(lines)| + 2
      ensures !Tears(x, y, z) ==>
                && Valid() && lines == Rotated(old(lines), x, y, z) && nodes == Rotated(old(nodes), x + 1, y + 1, z + 1)
                && (k == currentLine ==>
                      (CursorOk() <==> x == z || currentLine <= Lowest(x, y, z) || currentLine > Highest(x, y, z)))
      ensures Tears(x, y, z) ==>
                var p, q := Lowest(x, y, z), Highest(x, y, z);
                && p < q <= |old(lines)| && nodes == Without(old(nodes), p + 1, q + 1) && lines == Without(old(lines), p, q)
                && Forward(nodes) && fileLineNum == |lines| + (q - p)
    {
      hide Chain, Shows, Ends, Distinct, Linked, Forward, Rotated, Without, Tears, Lowest, Highest;
      ghost var was, text := nodes, lines;
      ChainParts(was, text, headNode, tailNode);
      if !Tears(x, y, z) {
        CursorRotated(was, text, headNode, tailNode, x, y, z, k);
      }
      MoveLinks(first, last, target, was, text, x, y, z);
      if Tears(x, y, z) {
        ghost var p, q := Lowest(x, y, z), Highest(x, y, z);
        nodes, lines := Without(was, p + 1, q + 1), Without(text, p, q);
      } else {
        nodes, lines := Rotated(was, x + 1, y + 1, z + 1), Rotated(text, x, y, z);
      }
    }
  }

  // ---- what it comes to ----

  /** Two lines, the cursor where cmdLoop puts it: moving the first line behind the second leaves the cursor on the wrong one. */
  method CutStrandsCursor() returns (e: Editor)
    ensures e.Valid() && e.lines == ["b", "a"] && !e.CursorOk()
  {
    hide Chain, Inserted, Without, Moved, Rotated, Forward;
    e := TwoLines();
    e.StartCursor();
    SwappedLines();
    var r, x, y, z := e.Cut(1, 1, 2, 1);
  }

  lemma SwappedLines()
    ensures Moved(["a", "b"], 0, 1, 2) == ["b", "a"]
    ensures Without(["a", "b"], 0, 1) == ["b"] && Without(["a", "b"], 0, 2) == []
  {
    var s := ["a", "b"];
    assert s[..0] == [] && s[1..2] == ["b"] && s[0..1] == ["a"] && s[2..] == [] && s[1..] == ["b"];
  }

  lemma TypedLines()
    ensures Inserted([], 0, LineOf("b")) == ["b"] && Inserted(["b"], 0, LineOf("a")) == ["a", "b"]
  {
    LineOfPrefix("a", 1);
    LineOfPrefix("b", 1);
    assert "a"[..1] == "a" && "b"[..1] == "b";
  }

  method TwoLines() returns (e: Editor)
    ensures fresh(e) && e.Valid() && e.CursorOk() && e.currentLine == 0 && e.lines == ["a", "b"]
    ensures forall i :: 0 <= i < |e.nodes| ==> fresh(e.nodes[i])
  {
    e := new Editor();
    hide Chain, Inserted, LineOf;
    TypedLines();
    var r := e.Ins(0, "b", 0);
    r := e.Ins(0, "a", 0);
  }

  /** Asked for line 0 with the cursor at the head, as "d" does in a file just emptied, findNode runs off the list. */
  method EmptiedFileHasNoLine() returns (e: Editor, off: bool, r: Outcome)
    ensures e.Valid() && e.CursorOk() && e.lines == [] && off && r == Faults
  {
    hide Inserted, Without;
    SwappedLines();
    e := TwoLines();
    r := e.Del(1, 2, 0);
    var node;
    node, off := e.FindNode(0, 0);
    r := e.Del(e.fileLineNum, e.fileLineNum, 0);
  }

  /** And so does moving a line behind line 0 after any edit. */
  method CutBehindLineZero() returns (r: Outcome)
    ensures r == Faults
  {
    hide Chain, Inserted, Without, Moved, Rotated, Forward;
    var e := TwoLines();
    ghost var x, y, z;
    r, x, y, z := e.Cut(1, 1, 0, 0);
  }

  /** With the cursor on line 1, line 0 is line 1: the line is moved behind itself and lost, but still counted. */
  method CutTearsChain() returns (e: Editor)
    ensures e.lines == ["b"] && Forward(e.nodes) && e.fileLineNum == 2 && !e.Valid()
  {
    hide Chain, Inserted, Without, Moved, Rotated, Forward;
    SwappedLines();
    e := TwoLines();
    e.StartCursor();
    var r, x, y, z := e.Cut(1, 1, 0, 1);
  }

  /** A listing without line numbers leaves the cursor's node and its number apart. */
  method UnnumberedListing() returns (e: Editor)
    ensures e.Valid() && !e.CursorOk()
  {
    hide Chain, Inserted, Without;
    e := TwoLines();
    e.showLineIdx := false;
    var r := e.ShowFile(1, 2, e.currentLine);
  }

  /** So does a page back from line 2 by one line: it lists from line 0. */
  method PageBack() returns (e: Editor)
    ensures e.Valid() && e.showLineIdx && !e.CursorOk()
  {
    hide Chain, Inserted, Without;
    e := TwoLines();
    e.showLineIdx := true;
    var r := e.ShowFile(2, 1, e.currentLine);
    r := e.ShowFile(2, -1, e.currentLine);
  }

  /** A line typed after a listing without line numbers goes behind the tail: it is counted, but not in the list. */
  method LineLost() returns (e: Editor, r: Outcome)
    ensures r == Done && e.lines == ["a", "b"] && e.fileLineNum == 3 && !e.Valid()
  {
    hide Chain, Inserted, Without, LineOf;
    e := TwoLines();
    ChainSize(e.nodes, e.lines, e.headNode, e.tailNode);
    e.showLineIdx := false;
    r := e.ShowFile(2, 1, e.currentLine);
    assert e.InsAt(2, 3) == 3;
    r := e.Ins(2, "c", 3);
  }
}
