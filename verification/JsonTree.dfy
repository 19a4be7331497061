/** The linked nodes of a JSON tree: the child list whose head points back at the tail, and who owns what. */
module JsonTree {
  import opened Sequences

  /** Memory that holds a string: the value of a string item, or the key of a member. */
  class Cell {
    var live: bool

    constructor ()
      ensures live
    {
      live := true;
    }

    method Free()
      requires live
      modifies this
      ensures !live
    {
      live := false;
    }
  }

  /** A `cJSON` node. `live` says whether its memory is still allocated; `items` is the list of children that
      the pointers are meant to describe. */
  class Node {
    var next: Node?
    var prev: Node?
    var child: Node?
    var valuestring: Cell?
    var key: Cell?
    var keyIsConst: bool
    var isReference: bool
    var live: bool
    ghost var items: seq<Node>

    constructor ()
      ensures next == null && prev == null && child == null && !isReference && live && items == []
      ensures valuestring == null && key == null && !keyIsConst
    {
      next, prev, child := null, null, null;
      isReference, live, items := false, true, [];
      valuestring, key, keyIsConst := null, null, false;
    }

    /** `create_reference`: a copy that shares children and value, detached, without a key and marked. */
    constructor Reference(item: Node)
      ensures next == null && prev == null && child == item.child && isReference && live && items == item.items
      ensures valuestring == item.valuestring && key == null && keyIsConst == item.keyIsConst
    {
      next, prev, child := null, null, item.child;
      isReference, live, items := true, true, item.items;
      valuestring, key, keyIsConst := item.valuestring, null, item.keyIsConst;
    }

    /** The part of `add_item_to_object` that gives an item its key, a constant one or a copy for which there may be no
        memory: an old key that is not constant is freed, unless the copy fails. */
    method Name(constant: Cell?, memory: bool, ghost previous: Cell?) returns (ok: bool)
      requires previous == key && (key != null && !keyIsConst ==> key.live)
      modifies this`key, this`keyIsConst, (if previous == null then {} else {previous})
      ensures ok <==> constant != null || memory
      ensures !ok ==> key == old(key) && keyIsConst == old(keyIsConst) && (key != null ==> key.live == old(key.live))
      ensures ok && constant != null ==> key == constant && keyIsConst
      ensures ok && constant == null ==> key != null && fresh(key) && key.live && !keyIsConst
      ensures ok && previous != null && !old(keyIsConst) ==> !previous.live
      ensures ok && previous != null && old(keyIsConst) ==> previous.live == old(key.live)
    {
      var copy: Cell? := constant;
      if constant == null {
        if !memory {
          return false;
        }
        copy := new Cell();
      }
      if !keyIsConst && key != null {
        key.Free();
      }
      key := copy;
      keyIsConst := constant != null;
      return true;
    }

    /** The pointers describe exactly `items`: `next` runs to the tail, `prev` runs back, and the head's `prev`
        is the tail. */
    ghost predicate Linked()
      reads this, items
    {
      && this !in items
      && (forall i, j :: 0 <= i < j < |items| ==> items[i] != items[j])
      && (items == [] ==> child == null)
      && (items != [] ==>
            && child == items[0]
            && items[|items| - 1].next == null && items[0].prev == items[|items| - 1]
            && (forall i {:trigger items[i].next} :: 0 <= i < |items| - 1 ==> items[i].next == items[i + 1])
            && (forall i {:trigger items[i].prev} :: 1 <= i < |items| ==> items[i].prev == items[i - 1]))
    }

    /** `get_array_item` */
    method GetItem(index: nat) returns (r: Node?)
      requires Linked()
      ensures r == if index < |items| then items[index] else null
    {
      r := child;
      var left: nat := index;
      while r != null && left > 0
        invariant left <= index
        invariant r == if index - left < |items| then items[index - left] else null
      {
        left := left - 1;
        r := r.next;
      }
    }

    /** `cJSON_GetArraySize` */
    method Size() returns (n: nat)
      requires Linked()
      ensures n == |items|
    {
      var c := child;
      n := 0;
      while c != null
        invariant n <= |items| && c == if n < |items| then items[n] else null
        decreases |items| - n
      {
        n := n + 1;
        c := c.next;
      }
    }

    /** `add_item_to_array`: appends a detached item. */
    method Append(item: Node?) returns (ok: bool)
      requires Linked()
      requires item != null && item != this ==> item !in items && item.next == null
      modifies this`child, this`items, items`next, items`prev
      modifies (if item == null then {} else {item})`next, (if item == null then {} else {item})`prev
      ensures Linked()
      ensures ok <==> item != null && item != this
      ensures items == if ok then old(items) + [item] else old(items)
    {
      if item == null || item == this {
        return false;
      }
      if child == null {
        child := item;
        item.prev := item;
        item.next := null;
      } else if child.prev != null {
        var tail := child.prev;
        tail.next := item;
        item.prev := tail;
        child.prev := item;
      }
      items := items + [item];
      return true;
    }

    /** `cJSON_DetachItemViaPointer`, for an item of this list. */
    method Detach(item: Node, ghost k: nat)
      requires Linked() && k < |items| && items[k] == item
      modifies this`child, this`items, items`next, items`prev
      ensures Linked() && items == old(items)[..k] + old(items)[k + 1..]
      ensures item.next == null && item.prev == null
    {
      if item != child {
        item.prev.next := item.next;
      }
      if item.next != null {
        item.next.prev := item.prev;
      }
      if item == child {
        child := item.next;
      } else if item.next == null {
        child.prev := item.prev;
      }
      item.prev := null;
      item.next := null;
      ghost var was := items;
      items := items[..k] + items[k + 1..];
      forall i | 1 <= i < |items| ensures items[i].prev == items[i - 1] {
        assert items[i] == if i < k then was[i] else was[i + 1];
      }
    }

    /** `cJSON_DetachItemFromArray` */
    method DetachAt(which: int) returns (r: Node?)
      requires Linked()
      modifies this`child, this`items, items`next, items`prev
      ensures Linked()
      ensures if 0 <= which < |old(items)|
              then r == old(items)[which] && r.next == null && r.prev == null
                   && items == old(items)[..which] + old(items)[which + 1..]
              else r == null && items == old(items)
    {
      if which < 0 {
        return null;
      }
      r := GetItem(which);
      if r != null {
        Detach(r, which);
      }
    }

    /** `cJSON_InsertItemInArray`: in front of the item at `which`, or at the end. */
    method Insert(which: int, item: Node) returns (ok: bool)
      requires Linked() && item != this && item !in items && item.next == null
      modifies this`child, this`items, items`next, items`prev, item`next, item`prev
      ensures Linked()
      ensures ok <==> which >= 0
      ensures items == if which < 0 then old(items)
                       else if which < |old(items)| then Inserted(old(items), which, item)
                       else old(items) + [item]
    {
      if which < 0 {
        return false;
      }
      var after := GetItem(which);
      if after == null {
        ok := Append(item);
        return;
      }
      InsertBefore(after, item, which);
      return true;
    }

    /** The relinking of `cJSON_InsertItemInArray`. */
    method InsertBefore(after: Node, item: Node, ghost k: nat)
      requires Linked() && k < |items| && items[k] == after && item != this && item !in items
      modifies this`child, this`items, items`next, items`prev, item`next, item`prev
      ensures Linked() && items == Inserted(old(items), k, item)
    {
      item.next := after;
      item.prev := after.prev;
      after.prev := item;
      if after == child {
        child := item;
      } else {
        item.prev.next := item;
      }
      ghost var was := items;
      items := Inserted(was, k, item);
      RelinkedByInsert(was, k, item);
    }

    lemma RelinkedByInsert(was: seq<Node>, k: nat, item: Node)
      requires k < |was| && item !in was && this !in was && item != this && items == Inserted(was, k, item)
      requires forall i, j :: 0 <= i < j < |was| ==> was[i] != was[j]
      requires child == if k == 0 then item else was[0]
      requires was[|was| - 1].next == null && item.next == was[k] && was[k].prev == item
      requires item.prev == if k == 0 then was[|was| - 1] else was[k - 1]
      requires k > 0 ==> was[k - 1].next == item && was[0].prev == was[|was| - 1]
      requires forall i {:trigger was[i].next} :: 0 <= i < |was| - 1 && i + 1 != k ==> was[i].next == was[i + 1]
      requires forall i {:trigger was[i].prev} :: 1 <= i < |was| && i != k ==> was[i].prev == was[i - 1]
      ensures Linked()
    {
    }

    /** `cJSON_ReplaceItemViaPointer` up to the deletion of the replaced item. */
    method Replace(item: Node, replacement: Node, ghost k: nat)
      requires Linked() && k < |items| && items[k] == item
      requires replacement == item || (replacement !in items && replacement != this)
      modifies this`child, this`items, items`next, items`prev, replacement`next, replacement`prev
      ensures Linked() && items == old(items)[k := replacement]
      ensures replacement != item ==> item.next == null && item.prev == null
    {
      if replacement == item {
        return;
      }
      replacement.next := item.next;
      replacement.prev := item.prev;
      if replacement.next != null {
        replacement.next.prev := replacement;
      }
      if child == item {
        if child.prev == child {
          replacement.prev := replacement;
        }
        child := replacement;
      } else {
        if replacement.prev != null {
          replacement.prev.next := replacement;
        }
        if replacement.next == null {
          child.prev := replacement;
        }
      }
      item.next := null;
      item.prev := null;
      ghost var was := items;
      items := was[k := replacement];
      RelinkedByReplace(was, k, replacement);
    }

    lemma RelinkedByReplace(was: seq<Node>, k: nat, r: Node)
      requires k < |was| && r !in was && this !in was && r != this && items == was[k := r]
      requires forall i, j :: 0 <= i < j < |was| ==> was[i] != was[j]
      requires child == if k == 0 then r else was[0]
      requires r.next == if k + 1 < |was| then was[k + 1] else null
      requires r.prev == if |was| == 1 then r else if k == 0 then was[|was| - 1] else was[k - 1]
      requires k > 0 ==> was[k - 1].next == r
      requires k + 1 < |was| ==> was[k + 1].prev == r && was[|was| - 1].next == null
      requires k > 0 ==> was[0].prev == if k == |was| - 1 then r else was[|was| - 1]
      requires forall i {:trigger was[i].next} :: 0 <= i < |was| - 1 && i != k && i + 1 != k ==> was[i].next == was[i + 1]
      requires forall i {:trigger was[i].prev} :: 1 <= i < |was| && i != k && i != k + 1 ==> was[i].prev == was[i - 1]
      ensures Linked()
    {
    }

    /** `free`: only live memory may be given back. */
    method Free()
      requires live
      modifies this`live
      ensures !live
    {
      live := false;
    }
  }

  // ------------------------------------------------------------------ ownership

  /** A node as it is linked, with the owned nodes below it. */
  datatype Owned = Owned(node: Node, reference: bool, child: Node?, next: Node?, value: Cell?, key: Cell?, keyConst: bool,
                         kids: seq<Owned>)

  ghost function NodesOf(forest: seq<Owned>): set<Node> {
    if forest == [] then {} else NodesOf(forest[0].kids) + {forest[0].node} + NodesOf(forest[1..])
  }

  ghost function TreesOf(forest: seq<Owned>): set<Owned> {
    if forest == [] then {} else TreesOf(forest[0].kids) + {forest[0]} + TreesOf(forest[1..])
  }

  /** The strings a node owns: its value unless it is a reference, its key unless that is constant. */
  ghost function OwnCells(o: Owned): set<Cell> {
    (if !o.reference && o.value != null then {o.value} else {}) + (if !o.keyConst && o.key != null then {o.key} else {})
  }

  ghost function CellsOf(forest: seq<Owned>): set<Cell> {
    if forest == [] then {} else CellsOf(forest[0].kids) + OwnCells(forest[0]) + CellsOf(forest[1..])
  }

  /** `forest` is what the sibling list from `first` owns. A reference owns nothing below itself. */
  ghost predicate Shape(first: Node?, forest: seq<Owned>) {
    if forest == [] then first == null
    else
      && first == forest[0].node
      && (if forest[0].reference then forest[0].kids == [] else Shape(forest[0].child, forest[0].kids))
      && Shape(forest[0].next, forest[1..])
  }

  /** No node and no string is owned twice. */
  ghost predicate OwnedOnce(forest: seq<Owned>) {
    forest == [] ||
    (&& forest[0].node !in NodesOf(forest[0].kids)
     && forest[0].node !in NodesOf(forest[1..])
     && NodesOf(forest[0].kids) !! NodesOf(forest[1..])
     && StringsApart(forest[0], forest[1..])
     && OwnedOnce(forest[0].kids)
     && OwnedOnce(forest[1..]))
  }

  ghost predicate StringsApart(o: Owned, tail: seq<Owned>) {
    && (o.value != null && o.key != null && !o.reference && !o.keyConst ==> o.value != o.key)
    && OwnCells(o) !! CellsOf(o.kids) && OwnCells(o) !! CellsOf(tail) && CellsOf(o.kids) !! CellsOf(tail)
  }

  /** The links in memory of one node are the ones recorded. */
  ghost predicate Matches(o: Owned)
    reads o.node
  {
    && o.node.next == o.next && o.node.child == o.child && o.node.isReference == o.reference
    && o.node.valuestring == o.value && o.node.key == o.key && o.node.keyIsConst == o.keyConst
  }

  ghost predicate Agrees(forest: seq<Owned>)
    reads set o | o in TreesOf(forest) :: o.node
  {
    forall o :: o in TreesOf(forest) ==> Matches(o)
  }

  ghost predicate Owns(first: Node?, forest: seq<Owned>)
    reads set o | o in TreesOf(forest) :: o.node
  {
    Shape(first, forest) && OwnedOnce(forest) && Agrees(forest)
  }

  lemma {:induction false} TreesAreNodes(forest: seq<Owned>)
    ensures forall o :: o in TreesOf(forest) ==> o.node in NodesOf(forest)
  {
    if forest != [] {
      TreesAreNodes(forest[0].kids);
      TreesAreNodes(forest[1..]);
    }
  }

  /** One step along a sibling list. */
  lemma NextSibling(current: Node, forest: seq<Owned>)
    requires Owns(current, forest)
    ensures forest != []
    ensures var tree, tail := forest[0], forest[1..];
            && current == tree.node && TreeLinked(tree) && Owns(current.next, tail) && StringsApart(tree, tail)
            && NodesOf(forest) == NodesOf(tree.kids) + {current} + NodesOf(tail)
            && CellsOf(forest) == CellsOf(tree.kids) + OwnCells(tree) + CellsOf(tail)
            && current !in NodesOf(tail) && NodesOf(tree.kids) !! NodesOf(tail)
            && forall o :: o in TreesOf(tail) ==> o.node in NodesOf(tail)
  {
    hide StringsApart;
    assert forest[0] in TreesOf(forest);
    TreesAreNodes(forest[1..]);
  }

  /** The links in memory of a whole tree. */
  ghost predicate TreeLinked(tree: Owned)
    reads tree.node, set o | o in TreesOf(tree.kids) :: o.node
  {
    && Matches(tree) && tree.node !in NodesOf(tree.kids)
    && (if tree.reference then tree.kids == [] else Shape(tree.child, tree.kids))
    && OwnedOnce(tree.kids) && Agrees(tree.kids)
  }

  /** What stays when a node is freed: its fields, which nothing reads any more. */
  twostate predicate OnlyFreed(n: Node)
    reads n
  {
    && n.next == old(n.next) && n.child == old(n.child) && n.isReference == old(n.isReference)
    && n.valuestring == old(n.valuestring) && n.key == old(n.key) && n.keyIsConst == old(n.keyIsConst)
  }

  /** `cJSON_Delete`: frees every node and every string owned from `item` on exactly once and touches no other memory.
      `Free` takes live memory only, so nothing is freed twice, and all of it is dead afterwards. The string that a
      reference shares is not among them. */
  method Delete(item: Node?, ghost forest: seq<Owned>, ghost nodes: set<Node>, ghost cells: set<Cell>)
    requires Owns(item, forest) && nodes == NodesOf(forest) && cells == CellsOf(forest)
    requires (forall n :: n in nodes ==> n.live) && forall c :: c in cells ==> c.live
    modifies nodes, cells
    ensures forall n :: n in nodes ==> !n.live && OnlyFreed(n)
    ensures forall c :: c in cells ==> !c.live
    decreases nodes, 1
  {
    hide NodesOf, TreesOf, CellsOf, TreeLinked, OwnedOnce, Shape, OwnCells, Matches, Agrees;
    var current := item;
    ghost var rest := forest;
    while current != null
      invariant Owns(current, rest) && NodesOf(rest) <= nodes && CellsOf(rest) <= cells
      invariant forall n :: n in nodes ==> n.live == (n in NodesOf(rest)) && OnlyFreed(n)
      invariant forall c :: c in cells ==> c.live == (c in CellsOf(rest))
      decreases |rest|
    {
      NextSibling(current, rest);
      var next := current.next;
      ghost var below := set n | n in nodes && n in NodesOf(rest[0].kids);
      ghost var strings := set c | c in cells && c in CellsOf(rest[0].kids) + OwnCells(rest[0]);
      assert below == NodesOf(rest[0].kids) && strings == CellsOf(rest[0].kids) + OwnCells(rest[0]);
      DeleteNode(current, rest[0], below, strings);
      current := next;
      rest := rest[1..];
    }
    NoNodes(rest);
  }

  lemma NoNodes(forest: seq<Owned>)
    requires Shape(null, forest)
    ensures NodesOf(forest) == {} && CellsOf(forest) == {}
  {
  }

  /** The body of the loop: what is below the node, its strings, then the node. */
  method DeleteNode(item: Node, ghost tree: Owned, ghost below: set<Node>, ghost strings: set<Cell>)
    requires item == tree.node && TreeLinked(tree) && below == NodesOf(tree.kids)
    requires strings == CellsOf(tree.kids) + OwnCells(tree) && OwnCells(tree) !! CellsOf(tree.kids)
    requires tree.value != null && tree.key != null && !tree.reference && !tree.keyConst ==> tree.value != tree.key
    requires item.live && (forall n :: n in below ==> n.live) && forall c :: c in strings ==> c.live
    modifies item, below, strings
    ensures !item.live && OnlyFreed(item)
    ensures forall n :: n in below ==> !n.live && OnlyFreed(n)
    ensures forall c :: c in strings ==> !c.live
    decreases below + {item}, 0
  {
    hide NodesOf, CellsOf, OwnedOnce, Shape;
    ghost var under := set c | c in strings && c in CellsOf(tree.kids);
    assert under == CellsOf(tree.kids);
    if !item.isReference && item.child != null {
      Delete(item.child, tree.kids, below, under);
    } else {
      NothingBelow(tree);
    }
    if !item.isReference && item.valuestring != null {
      item.valuestring.Free();
    }
    if !item.keyIsConst && item.key != null {
      item.key.Free();
    }
    item.Free();
  }

  lemma NothingBelow(tree: Owned)
    requires TreeLinked(tree) && (tree.reference || tree.child == null)
    ensures NodesOf(tree.kids) == {} && CellsOf(tree.kids) == {}
  {
  }

  lemma NoChildren(n: Node)
    requires n.items == [] && n.child == null
    ensures n.Linked()
  {
  }

  // -------------------------------------------------------------- wrapping by reference

  /** Which of the allocations of the wrapping succeed. */
  datatype Memory = Memory(event: bool, name: bool, nameValue: bool, nameKey: bool, reference: bool, referenceKey: bool)

  /** The strings a node without owned children owns. */
  ghost function LeafCells(n: Node): set<Cell>
    reads n`isReference, n`valuestring, n`key, n`keyIsConst
  {
    (if !n.isReference && n.valuestring != null then {n.valuestring} else {})
    + (if !n.keyIsConst && n.key != null then {n.key} else {})
  }

  ghost predicate Leaf(n: Node)
    reads n`isReference, n`child, n`valuestring, n`key, n`keyIsConst
  {
    && (n.isReference || n.child == null)
    && (n.valuestring != null && n.key != null && !n.isReference && !n.keyIsConst ==> n.valuestring != n.key)
  }

  ghost predicate Leaves(first: Node?, ns: seq<Node>)
    reads ns
  {
    && (if ns == [] then first == null else first == ns[0])
    && (forall i :: 0 <= i < |ns| ==> Leaf(ns[i]))
    && (forall i {:trigger ns[i].next} :: 0 <= i < |ns| ==> ns[i].next == if i + 1 < |ns| then ns[i + 1] else null)
    && forall i, j :: 0 <= i < j < |ns| ==> ns[i] != ns[j] && LeafCells(ns[i]) !! LeafCells(ns[j])
  }

  ghost function LeafOf(n: Node): Owned
    reads n
  {
    Owned(n, n.isReference, n.child, n.next, n.valuestring, n.key, n.keyIsConst, [])
  }

  lemma LeavesTail(first: Node?, ns: seq<Node>)
    requires Leaves(first, ns) && ns != []
    ensures first == ns[0] && Leaf(ns[0]) && Leaves(ns[0].next, ns[1..]) && ns[0] !in ns[1..]
    ensures forall i :: 0 <= i < |ns[1..]| ==> LeafCells(ns[0]) !! LeafCells(ns[1..][i])
  {
    hide Leaf, LeafCells;
    var tail := ns[1..];
    forall i | 0 <= i < |tail| ensures tail[i].next == if i + 1 < |tail| then tail[i + 1] else null {
      assert tail[i] == ns[i + 1];
    }
    assert forall i :: 0 <= i < |tail| ==> tail[i] == ns[i + 1];
  }

  /** The strings that the nodes own. */
  ghost function CellsOfAll(ns: seq<Node>): set<Cell>
    reads ns
  {
    if ns == [] then {} else LeafCells(ns[0]) + CellsOfAll(ns[1..])
  }

  ghost function Nodes(ns: seq<Node>): set<Node> {
    if ns == [] then {} else {ns[0]} + Nodes(ns[1..])
  }

  lemma {:induction false} CellsApart(cells: set<Cell>, ns: seq<Node>)
    requires forall i :: 0 <= i < |ns| ==> cells !! LeafCells(ns[i])
    ensures cells !! CellsOfAll(ns)
  {
    hide LeafCells;
    if ns != [] {
      CellsApart(cells, ns[1..]);
    }
  }

  lemma {:induction false} NodeApart(n: Node, ns: seq<Node>)
    requires n !in ns
    ensures n !in Nodes(ns)
  {
    if ns != [] {
      NodeApart(n, ns[1..]);
    }
  }

  /** A list of such nodes owns them and their strings. */
  lemma {:induction false} LeavesOwn(first: Node?, ns: seq<Node>) returns (forest: seq<Owned>)
    requires Leaves(first, ns)
    ensures Owns(first, forest) && NodesOf(forest) == Nodes(ns) && CellsOf(forest) == CellsOfAll(ns)
    decreases |ns|
  {
    if ns == [] {
      forest := [];
    } else {
      LeavesTail(first, ns);
      var rest := LeavesOwn(ns[0].next, ns[1..]);
      CellsApart(LeafCells(ns[0]), ns[1..]);
      NodeApart(ns[0], ns[1..]);
      forest := OneMoreLeaf(ns[0], rest);
    }
  }

  lemma OneMoreLeaf(n: Node, rest: seq<Owned>) returns (forest: seq<Owned>)
    requires Leaf(n) && Owns(n.next, rest) && n !in NodesOf(rest) && LeafCells(n) !! CellsOf(rest)
    ensures Owns(n, forest)
    ensures NodesOf(forest) == NodesOf(rest) + {n} && CellsOf(forest) == CellsOf(rest) + LeafCells(n)
  {
    forest := [LeafOf(n)] + rest;
    assert forest[1..] == rest && forest[0] == LeafOf(n);
    Unfold(forest);
    assert OwnCells(forest[0]) == LeafCells(n);
    assert forall o :: o in TreesOf(forest) ==> o == forest[0] || o in TreesOf(rest);
  }

  /** An object over such nodes owns itself and them. */
  lemma ObjectOwns(event: Node, ns: seq<Node>) returns (forest: seq<Owned>)
    requires Leaves(event.child, ns) && event !in ns && event.next == null && !event.isReference
    requires event.valuestring == null && event.key == null
    ensures Owns(event, forest) && NodesOf(forest) == {event} + Nodes(ns) && CellsOf(forest) == CellsOfAll(ns)
  {
    var kids := LeavesOwn(event.child, ns);
    NodeApart(event, ns);
    forest := [Owned(event, false, event.child, null, null, null, event.keyIsConst, kids)];
    Unfold(forest);
    assert forest[1..] == [];
    assert OwnCells(forest[0]) == {};
  }

  lemma Unfold(forest: seq<Owned>)
    requires forest != []
    ensures NodesOf(forest) == NodesOf(forest[0].kids) + {forest[0].node} + NodesOf(forest[1..])
    ensures TreesOf(forest) == TreesOf(forest[0].kids) + {forest[0]} + TreesOf(forest[1..])
    ensures CellsOf(forest) == CellsOf(forest[0].kids) + OwnCells(forest[0]) + CellsOf(forest[1..])
    ensures NodesOf([]) == {} && TreesOf([]) == {} && CellsOf([]) == {}
  {
  }

  /** `cJSON_Delete` of one node without owned children. */
  method DeleteLeaf(n: Node)
    requires n.live && Leaf(n) && n.next == null && forall c :: c in LeafCells(n) ==> c.live
    modifies n, LeafCells(n)
    ensures !n.live && forall c :: c in old(LeafCells(n)) ==> !c.live
  {
    ghost var forest := LeavesOwn(n, [n]);
    ghost var cells := LeafCells(n);
    assert [n][1..] == [] && NodesOf(forest) == {n} && CellsOf(forest) == cells;
    Delete(n, forest, {n}, cells);
  }

  /** `cJSON_CreateString`: a node and a copy of the string, or nothing; a node without its string is freed again. */
  method CreateString(node: bool, value: bool) returns (n: Node?, ghost dead: set<Node>)
    ensures n == null <==> !node || !value
    ensures n != null ==>
              && fresh(n) && n.live && Leaf(n) && n.next == null && !n.isReference && n.key == null && !n.keyIsConst
              && n.valuestring != null && fresh(n.valuestring) && n.valuestring.live
    ensures fresh(dead) && n !in dead && forall x :: x in dead ==> !x.live
  {
    dead := {};
    if !node {
      return null, dead;
    }
    var item := new Node();
    if !value {
      DeleteLeaf(item);
      return null, {item};
    }
    item.valuestring := new Cell();
    return item, dead;
  }

  function One(n: Node?): seq<Node> { if n == null then [] else [n] }

  function OneSet(n: Node?): set<Node> { if n == null then {} else {n} }

  ghost function CellsOfOne(n: Node?): set<Cell>
    reads if n == null then {} else {n}
  {
    if n == null then {} else LeafCells(n)
  }

  /** What a printer sees of an item: whether it is a reference, the first of its children, and its string. */
  datatype Seen = Seen(isReference: bool, child: Node?, text: Cell?)

  ghost function SeenOf(n: Node): Seen
    reads n
  {
    Seen(n.isReference, n.child, n.valuestring)
  }

  ghost function AllSeen(ns: seq<Node>): (view: seq<Seen>)
    reads ns
    ensures |view| == |ns| && forall i :: 0 <= i < |ns| ==> view[i] == SeenOf(ns[i])
  {
    seq(|ns|, i requires 0 <= i < |ns| reads ns => SeenOf(ns[i]))
  }

  /** A printer sees the event's name, if there was memory for it, and behind it the object's children and its string, if
      there was memory for the reference. */
  ghost predicate EventSeen(view: seq<Seen>, memory: Memory, child: Node?, text: Cell?) {
    var named, shared := memory.name && memory.nameValue && memory.nameKey, memory.reference && memory.referenceKey;
    && |view| == (if named then 1 else 0) + (if shared then 1 else 0)
    && (named ==> !view[0].isReference && view[0].text != null)
    && (shared ==> view[|view| - 1] == Seen(true, child, text))
  }

  /** The first half of `cJSON_AddStringToObject`: the item with its key, or nothing, all that was made being freed. */
  method MakeString(memory: Memory) returns (n: Node?, ghost nodes: set<Node>, ghost cells: set<Cell>)
    ensures n == null <==> !memory.name || !memory.nameValue || !memory.nameKey
    ensures fresh(nodes) && fresh(cells)
    ensures n == null ==> (forall x :: x in nodes ==> !x.live) && forall c :: c in cells ==> !c.live
    ensures n != null ==>
              && nodes == {n} && cells == LeafCells(n) && n.live && (forall c :: c in cells ==> c.live)
              && Leaf(n) && n.next == null && !n.isReference && n.valuestring != null && n.key != null
  {
    ghost var dead: set<Node>;
    n, dead := CreateString(memory.name, memory.nameValue);
    nodes, cells := dead, {};
    if n != null {
      var item: Node := n;
      var ok := item.Name(null, memory.nameKey, null);
      nodes, cells := {item}, LeafCells(item);
      if !ok {
        DeleteLeaf(item);
        n := null;
      }
    }
  }

  /** The first half of `cJSON_AddItemReferenceToObject`: the reference with its key; without it the reference is left
      behind. */
  method MakeReference(obj: Node, memory: Memory)
    returns (n: Node?, ghost nodes: set<Node>, ghost cells: set<Cell>)
    ensures n == null <==> !memory.reference || !memory.referenceKey
    ensures fresh(nodes) && fresh(cells) && unchanged(obj)
    ensures !memory.reference ==> nodes == {}
    ensures n == null ==> cells == {} && (memory.reference ==> nodes != {} && forall x :: x in nodes ==> x.live)
    ensures n != null ==>
              && nodes == {n} && cells == LeafCells(n) && n.live && (forall c :: c in cells ==> c.live)
              && Leaf(n) && n.next == null && SeenOf(n) == Seen(true, obj.child, obj.valuestring) && n.key != null
  {
    nodes, cells, n := {}, {}, null;
    if memory.reference {
      var item := new Node.Reference(obj);
      nodes := {item};
      var ok := item.Name(null, memory.referenceKey, null);
      if ok {
        n, cells := item, LeafCells(item);
      }
    }
  }

  /** The event with what could be added to it, and all that was made: besides these only a reference that got no key is
      still alive. */
  method Build(obj: Node, memory: Memory)
    returns (event: Node, ghost name: Node?, ghost data: Node?, ghost nodes: set<Node>, ghost cells: set<Cell>)
    ensures fresh(nodes) && fresh(cells) && unchanged(obj)
    ensures event.Linked() && event.items == One(name) + One(data)
    ensures EventSeen(AllSeen(event.items), memory, obj.child, obj.valuestring)
    ensures event.next == null && !event.isReference && event.valuestring == null && event.key == null
    ensures (name != null ==> Leaf(name)) && (data != null ==> Leaf(data)) && CellsOfOne(name) !! CellsOfOne(data)
    ensures {event} + OneSet(name) + OneSet(data) <= nodes
    ensures forall n :: n in {event} + OneSet(name) + OneSet(data) ==> n.live
    ensures (forall n :: n in nodes && n !in {event} + OneSet(name) + OneSet(data) ==> !n.live)
       <==> (memory.reference ==> memory.referenceKey)
    ensures CellsOfOne(name) + CellsOfOne(data) <= cells
    ensures forall c :: c in cells ==> c.live == (c in CellsOfOne(name) + CellsOfOne(data))
  {
    hide Leaf, LeafCells, Node.Linked;
    event := new Node();
    NoChildren(event);
    ghost var firstNodes, firstCells, secondNodes, secondCells;
    name, firstNodes, firstCells := AddString(event, memory);
    data, secondNodes, secondCells := AddReference(event, obj, memory);
    nodes, cells := {event} + firstNodes + secondNodes, firstCells + secondCells;
  }

  /** `cJSON_AddStringToObject`, for the first member. */
  method AddString(event: Node, memory: Memory)
    returns (ghost name: Node?, ghost nodes: set<Node>, ghost cells: set<Cell>)
    requires event.Linked() && event.items == []
    modifies event`child, event`items
    ensures event.Linked() && event.items == One(name) && (name != null ==> Leaf(name))
    ensures name == null <==> !memory.name || !memory.nameValue || !memory.nameKey
    ensures name != null ==> !name.isReference && name.valuestring != null
    ensures fresh(nodes) && fresh(cells) && OneSet(name) <= nodes
    ensures CellsOfOne(name) == if name == null then {} else cells
    ensures forall n :: n in nodes ==> n.live == (n in OneSet(name))
    ensures forall c :: c in cells ==> c.live == (c in CellsOfOne(name))
  {
    hide Leaf, LeafCells, Node.Linked;
    var item: Node?;
    item, nodes, cells := MakeString(memory);
    var ok := event.Append(item);
    name := item;
  }

  /** `cJSON_AddItemReferenceToObject`. */
  method AddReference(event: Node, obj: Node, memory: Memory)
    returns (ghost data: Node?, ghost nodes: set<Node>, ghost cells: set<Cell>)
    requires event.Linked() && obj != event && obj !in event.items
    modifies event`child, event`items, event.items`next, event.items`prev
    ensures event.Linked() && event.items == old(event.items) + One(data) && (data != null ==> Leaf(data))
    ensures data == null <==> !memory.reference || !memory.referenceKey
    ensures data != null ==> SeenOf(data) == Seen(true, obj.child, obj.valuestring)
    ensures fresh(nodes) && fresh(cells) && OneSet(data) <= nodes && CellsOfOne(data) == cells && unchanged(obj)
    ensures forall n :: n in OneSet(data) ==> n.live
    ensures forall c :: c in cells ==> c.live
    ensures (forall n :: n in nodes && n !in OneSet(data) ==> !n.live) <==> (memory.reference ==> memory.referenceKey)
  {
    hide Leaf, LeafCells, Node.Linked;
    var item: Node?;
    item, nodes, cells := MakeReference(obj, memory);
    var ok := event.Append(item);
    data := item;
  }

  /** The wrapper around `obj` as far as memory allows: `event` owns what was added to it, `nodes` and `cells` are all that
      was made, and of what it does not own only a reference that got no key is still alive. */
  method Wrap(obj: Node, memory: Memory)
    returns (event: Node, ghost outer: seq<Owned>, ghost nodes: set<Node>, ghost cells: set<Cell>)
    ensures fresh(nodes) && fresh(cells) && unchanged(obj) && event in nodes
    ensures EventSeen(AllSeen(event.items), memory, obj.child, obj.valuestring)
    ensures Owns(event, outer) && event in NodesOf(outer) && NodesOf(outer) <= nodes && CellsOf(outer) <= cells
    ensures (forall n :: n in NodesOf(outer) ==> n.live) && forall c :: c in CellsOf(outer) ==> c.live
    ensures forall c :: c in cells && c !in CellsOf(outer) ==> !c.live
    ensures (forall n :: n in nodes && n !in NodesOf(outer) ==> !n.live) <==> (memory.reference ==> memory.referenceKey)
  {
    hide NodesOf, TreesOf, CellsOf, Owns, Leaf, LeafCells, CellsOfOne, OneSet, One;
    ghost var name: Node?, data: Node?;
    event, name, data, nodes, cells := Build(obj, memory);
    outer := WrapperOwns(event, name, data);
  }

  /** The wrapper owns itself, what was added to it, and the strings of that; nothing behind the reference. */
  lemma WrapperOwns(event: Node, name: Node?, data: Node?) returns (outer: seq<Owned>)
    requires event.Linked() && event.items == One(name) + One(data)
    requires event.next == null && !event.isReference && event.valuestring == null && event.key == null
    requires (name != null ==> Leaf(name)) && (data != null ==> Leaf(data))
    requires CellsOfOne(name) !! CellsOfOne(data)
    ensures Owns(event, outer) && NodesOf(outer) == {event} + OneSet(name) + OneSet(data)
    ensures CellsOf(outer) == CellsOfOne(name) + CellsOfOne(data)
  {
    hide NodesOf, TreesOf, CellsOf, Owns, Leaf, LeafCells;
    var ns := One(name) + One(data);
    PartsAreLeaves(event, ns);
    outer := ObjectOwns(event, ns);
    PartsOf(name, data);
  }

  lemma PartsOf(name: Node?, data: Node?)
    ensures Nodes(One(name) + One(data)) == OneSet(name) + OneSet(data)
    ensures CellsOfAll(One(name) + One(data)) == CellsOfOne(name) + CellsOfOne(data)
  {
    hide LeafCells;
    if name == null {
      assert One(name) + One(data) == One(data);
    } else {
      assert (One(name) + One(data))[1..] == One(data);
    }
    if data != null {
      assert [data][1..] == [];
    }
    assert Nodes(One(data)) == OneSet(data) && CellsOfAll(One(data)) == CellsOfOne(data);
  }

  lemma PartsAreLeaves(event: Node, ns: seq<Node>)
    requires event.Linked() && event.items == ns
    requires forall i :: 0 <= i < |ns| ==> Leaf(ns[i])
    requires forall i, j :: 0 <= i < j < |ns| ==> LeafCells(ns[i]) !! LeafCells(ns[j])
    ensures Leaves(event.child, ns) && event !in ns
  {
    hide Leaf, LeafCells;
  }

  /** `JSONStream_Output` around its printing: wrap `obj` in an event by reference, then delete the wrapper. Nothing that
      existed before changes, so `obj`, all the nodes and strings that it owns (`kept`, `strings`) stay alive, its own
      string value too. All that was made here is freed again if and only if no event could be made, or the event was
      printed and the reference, if it was made, got its key. */
  method StreamOutput(obj: Node, memory: Memory, printed: bool, ghost kept: set<Node>, ghost strings: set<Cell>)
    returns (r: int, ghost view: seq<Seen>, ghost nodes: set<Node>, ghost cells: set<Cell>)
    requires (forall n :: n in kept ==> n.live) && forall c :: c in strings ==> c.live
    ensures r == if memory.event && printed then 0 else -1
    ensures if memory.event then EventSeen(view, memory, obj.child, obj.valuestring) else view == []
    ensures unchanged(obj) && (forall n :: n in kept ==> unchanged(n) && n.live) && forall c :: c in strings ==> c.live
    ensures fresh(nodes) && fresh(cells)
    ensures ((forall n :: n in nodes ==> !n.live) && forall c :: c in cells ==> !c.live)
       <==> (!memory.event || (printed && (memory.reference ==> memory.referenceKey)))
  {
    hide NodesOf, CellsOf, Owns;
    view, nodes, cells := [], {}, {};
    if !memory.event {
      return -1, view, nodes, cells;
    }
    var event: Node;
    ghost var outer;
    event, outer, nodes, cells := Wrap(obj, memory);
    view := AllSeen(event.items);
    if !printed {
      return -1, view, nodes, cells;
    }
    Delete(event, outer, NodesOf(outer), CellsOf(outer));
    r := 0;
  }
}
