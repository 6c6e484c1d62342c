/** threadutil/src/LinkedList.c and FreeList.c: a doubly linked list between two
    sentinels, whose nodes are recycled through a chain of free nodes. */
module LinkedList {
  import opened Wrappers

  /** A ListNode. Once it is free, its first pointer is FreeListNode's next. */
  class ListNode<T> {
    var prev: ListNode?<T>
    var next: ListNode?<T>
    var item: T

    constructor (item: T)
      ensures this.item == item && prev == null && next == null
    {
      prev, next, this.item := null, null, item;
    }
  }

  ghost predicate Distinct<T>(s: seq<ListNode<T>>) {
    forall i, j :: 0 <= i < j < |s| ==> s[i] != s[j]
  }

  /** The i-th node of a chain, or null at its end. */
  ghost function At<T>(chain: seq<ListNode<T>>, i: nat): ListNode?<T> {
    if i < |chain| then chain[i] else null
  }

  class FreeList<T> {
    var head: ListNode?<T>
    var freeListLength: int
    const maxFreeListLength: int
    ghost var chain: seq<ListNode<T>>

    /** The chain hangs together and is as long as freeListLength says, which stays
        below maxFreeListLength. */
    ghost predicate Valid()
      reads this, chain`prev
    {
      && Distinct(chain)
      && freeListLength == |chain| && (freeListLength == 0 || freeListLength < maxFreeListLength)
      && head == At(chain, 0)
      && forall i :: 0 <= i < |chain| ==> chain[i].prev == At(chain, i + 1)
    }

    /** FreeListInit */
    constructor (maxFreeListLength: int)
      ensures Valid() && chain == [] && this.maxFreeListLength == maxFreeListLength
    {
      head, freeListLength, chain := null, 0, [];
      this.maxFreeListLength := maxFreeListLength;
    }

    /** FreeListAlloc; `granted` is whether malloc would succeed. */
    method Alloc(granted: bool, item: T) returns (node: ListNode?<T>)
      requires Valid()
      modifies this
      ensures Valid()
      ensures if old(chain) != [] then node == old(chain)[0] && chain == old(chain)[1..]
              else chain == [] && (node != null <==> granted) && (node != null ==> fresh(node))
      ensures node != null ==> node !in chain && (fresh(node) || node in old(chain))
      ensures forall n :: n in chain ==> n in old(chain)
    {
      if head != null {
        node := head;
        head := head.prev;
        freeListLength := freeListLength - 1;
        assert forall i :: 0 <= i < |chain[1..]| ==> chain[1..][i] == chain[i + 1];
        chain := chain[1..];
      } else if granted {
        node := new ListNode(item);
      } else {
        node := null;
      }
    }

    /** FreeListFree of a node that is not in the chain. */
    method Free(node: ListNode<T>)
      requires Valid() && node !in chain
      modifies this, node`prev
      ensures Valid()
      ensures chain == if |old(chain)| + 1 < maxFreeListLength then [node] + old(chain) else old(chain)
    {
      if freeListLength + 1 < maxFreeListLength {
        freeListLength := freeListLength + 1;
        node.prev := head;
        head := node;
        assert forall i :: 0 < i <= |chain| ==> ([node] + chain)[i] == chain[i - 1];
        chain := [node] + chain;
      }
    }

    /** FreeListDestroy */
    method Destroy()
      requires Valid()
      modifies this
      ensures Valid() && chain == []
    {
      ghost var rest := chain;
      while head != null
        invariant head == At(rest, 0)
        invariant forall i :: 0 <= i < |rest| ==> rest[i].prev == At(rest, i + 1)
        decreases |rest|
      {
        head := head.prev;
        assert forall i :: 0 <= i < |rest[1..]| ==> rest[1..][i] == rest[i + 1];
        rest := rest[1..];
      }
      freeListLength := 0;
      chain := [];
    }
  }

  /** Both traversals run through the nodes of the spine. */
  ghost predicate Doubly<T>(spine: seq<ListNode<T>>)
    reads spine`prev, spine`next
  {
    && (forall i :: 0 <= i < |spine| - 1 ==> spine[i].next == spine[i + 1])
    && (forall i :: 0 < i < |spine| ==> spine[i].prev == spine[i - 1])
  }

  ghost function Inserted<T>(s: seq<T>, i: nat, x: T): seq<T>
    requires i <= |s|
  {
    s[..i] + [x] + s[i..]
  }

  ghost function Without<T>(s: seq<T>, i: nat): seq<T>
    requires i < |s|
  {
    s[..i] + s[i + 1..]
  }

  lemma InsertedDistinct<T>(s: seq<ListNode<T>>, i: nat, x: ListNode<T>)
    requires i <= |s| && Distinct(s) && x !in s
    ensures Distinct(Inserted(s, i, x))
  {
    var t := Inserted(s, i, x);
    assert forall k :: 0 <= k < |t| ==> t[k] == if k < i then s[k] else if k == i then x else s[k - 1];
  }

  lemma InsertedMembers<T>(s: seq<ListNode<T>>, i: nat, x: ListNode<T>)
    requires i <= |s|
    ensures forall n :: n in Inserted(s, i, x) <==> n == x || n in s
  {
    assert s == s[..i] + s[i..];
  }

  lemma WithoutMembers<T>(s: seq<ListNode<T>>, i: nat)
    requires i < |s|
    ensures forall n :: n in Without(s, i) ==> n in s
  {
  }

  lemma SentinelAt<T>(s: seq<ListNode<T>>, i: nat)
    requires i < |s| && Distinct(s)
    ensures (s[i] == s[0] <==> i == 0) && (s[i] == s[|s| - 1] <==> i == |s| - 1)
  {
  }

  lemma SecondIsLast<T>(s: seq<ListNode<T>>)
    requires |s| >= 2 && Distinct(s)
    ensures s[1] == s[|s| - 1] <==> |s| == 2
  {
  }

  lemma WithoutDistinct<T>(s: seq<ListNode<T>>, i: nat)
    requires i < |s| && Distinct(s)
    ensures Distinct(Without(s, i)) && s[i] !in Without(s, i)
  {
    var t := Without(s, i);
    assert forall k :: 0 <= k < |t| ==> t[k] == if k < i then s[k] else s[k + 1];
  }

  /** The four assignments that link a node in between two neighbours. */
  method LinkIn<T>(ghost spine: seq<ListNode<T>>, node: ListNode<T>, left: ListNode<T>, right: ListNode<T>,
                   ghost i: nat)
    requires Doubly(spine) && Distinct(spine) && node !in spine
    requires i + 1 < |spine| && left == spine[i] && right == spine[i + 1]
    modifies left`next, right`prev, node`prev, node`next
    ensures Doubly(Inserted(spine, i + 1, node))
    ensures spine[0].prev == old(spine[0].prev) && spine[|spine| - 1].next == old(spine[|spine| - 1].next)
  {
    left.next := node;
    node.prev := left;
    node.next := right;
    right.prev := node;
    ghost var t := Inserted(spine, i + 1, node);
    assert forall k :: 0 <= k < |t| ==> t[k] == if k <= i then spine[k] else if k == i + 1 then node else spine[k - 1];
  }

  /** The two assignments that unlink a node. */
  method LinkOut<T>(ghost spine: seq<ListNode<T>>, ghost left: ListNode<T>, node: ListNode<T>, ghost right: ListNode<T>,
                    ghost i: nat)
    requires Doubly(spine) && Distinct(spine) && 0 < i < |spine| - 1
    requires left == spine[i - 1] && node == spine[i] && right == spine[i + 1]
    modifies left`next, right`prev
    ensures Doubly(Without(spine, i))
    ensures spine[0].prev == old(spine[0].prev) && spine[|spine| - 1].next == old(spine[|spine| - 1].next)
  {
    node.prev.next := node.next;
    node.next.prev := node.prev;
    ghost var t := Without(spine, i);
    assert forall k :: 0 <= k < |t| ==> t[k] == if k < i then spine[k] else spine[k + 1];
  }

  class LinkedList<T> {
    const head: ListNode<T>
    const tail: ListNode<T>
    var size: int
    const freeNodeList: FreeList<T>
    ghost var spine: seq<ListNode<T>>
    ghost var items: seq<T>
    ghost var nodes: set<ListNode<T>>

    /** The nodes between the sentinels hold the items in order. */
    ghost predicate Filled()
      reads this, spine`item
    {
      && |spine| >= 2 && spine[0] == head && spine[|spine| - 1] == tail
      && size == |items| == |spine| - 2
      && forall k :: 0 < k < |spine| - 1 ==> spine[k].item == items[k - 1]
    }

    /** No node of the list is free; `nodes` holds the nodes of both. */
    ghost predicate Apart()
      reads this, freeNodeList
    {
      && (forall n :: n in spine ==> n in nodes && n !in freeNodeList.chain)
      && (forall n :: n in freeNodeList.chain ==> n in nodes)
    }

    /** Moreover the nodes are linked both ways. */
    ghost predicate Valid()
      reads this, nodes, spine, freeNodeList, freeNodeList.chain
    {
      && Filled() && Apart() && freeNodeList.Valid()
      && Distinct(spine) && Doubly(spine) && spine[0].prev == null && spine[|spine| - 1].next == null
    }

    /** ListInit; `filler` is the item of the sentinels, which is never looked at. */
    constructor (filler: T, maxFree: int)
      ensures Valid() && items == [] && fresh(nodes) && fresh(freeNodeList)
    {
      head := new ListNode(filler);
      tail := new ListNode(filler);
      freeNodeList := new FreeList(maxFree);
      size := 0;
      items := [];
      new;
      head.next, tail.prev := tail, head;
      spine, nodes := [head, tail], {head, tail};
    }

    /** CreateListNode: a node that is in neither the list nor the chain. */
    method CreateListNode(item: T, granted: bool) returns (node: ListNode?<T>)
      requires Valid()
      modifies `nodes, nodes, freeNodeList
      ensures Valid() && fresh(nodes - old(nodes))
      ensures node == null <==> old(freeNodeList.chain) == [] && !granted
      ensures node != null ==> node in nodes && node !in spine && node !in freeNodeList.chain && node.item == item
    {
      hide Doubly, Distinct, At;
      node := freeNodeList.Alloc(granted, item);
      if node != null {
        assert node !in spine;
        nodes := nodes + {node};
        node.prev := null;
        node.next := null;
        node.item := item;
        assert Filled() && Doubly(spine);
      }
    }

    /** The common part of ListAddAfter and ListAddBefore. */
    method AddBetween(item: T, left: ListNode<T>, right: ListNode<T>, granted: bool, ghost i: nat)
      returns (node: ListNode?<T>)
      requires Valid() && i + 1 < |spine| && left == spine[i] && right == spine[i + 1]
      modifies this, nodes, freeNodeList
      ensures Valid() && fresh(nodes - old(nodes))
      ensures node == null <==> old(freeNodeList.chain) == [] && !granted
      ensures node == null ==> spine == old(spine) && items == old(items)
      ensures node != null ==> spine == Inserted(old(spine), i + 1, node) && items == Inserted(old(items), i, item)
    {
      node := CreateListNode(item, granted);
      if node == null {
        return;
      }
      Attach(node, left, right, i);
    }

    /** Links in a node that is in neither the list nor the chain. */
    method Attach(node: ListNode<T>, left: ListNode<T>, right: ListNode<T>, ghost i: nat)
      requires Valid() && i + 1 < |spine| && left == spine[i] && right == spine[i + 1]
      requires node in nodes && node !in spine && node !in freeNodeList.chain
      modifies `size, `spine, `items, left`next, right`prev, node`prev, node`next
      ensures Valid() && spine == Inserted(old(spine), i + 1, node) && items == Inserted(old(items), i, node.item)
    {
      hide At, Distinct, Doubly;
      ghost var s := spine;
      InsertedDistinct(s, i + 1, node);
      InsertedMembers(s, i + 1, node);
      size := size + 1;
      spine, items := Inserted(s, i + 1, node), Inserted(items, i, node.item);
      assert Filled();
      assert Apart();
      assert Distinct(spine);
      assert right in s && right !in freeNodeList.chain;
      LinkIn(s, node, left, right, i);
      assert freeNodeList.Valid();
      assert Doubly(spine);
      assert Distinct(spine);
      assert Filled() && Apart();
      assert spine[0].prev == null;
      assert spine[|spine| - 1].next == null;
    }

    method AddAfter(item: T, bnode: ListNode<T>, granted: bool, ghost i: nat) returns (node: ListNode?<T>)
      requires Valid() && i + 1 < |spine| && bnode == spine[i]
      modifies this, nodes, freeNodeList
      ensures Valid() && fresh(nodes - old(nodes))
      ensures node == null <==> old(freeNodeList.chain) == [] && !granted
      ensures node == null ==> spine == old(spine) && items == old(items)
      ensures node != null ==> spine == Inserted(old(spine), i + 1, node) && items == Inserted(old(items), i, item)
    {
      assert bnode.next == spine[i + 1];
      node := AddBetween(item, bnode, bnode.next, granted, i);
    }

    method AddBefore(item: T, anode: ListNode<T>, granted: bool, ghost i: nat) returns (node: ListNode?<T>)
      requires Valid() && 0 < i < |spine| && anode == spine[i]
      modifies this, nodes, freeNodeList
      ensures Valid() && fresh(nodes - old(nodes))
      ensures node == null <==> old(freeNodeList.chain) == [] && !granted
      ensures node == null ==> spine == old(spine) && items == old(items)
      ensures node != null ==> spine == Inserted(old(spine), i, node) && items == Inserted(old(items), i - 1, item)
    {
      assert anode.prev == spine[i - 1];
      node := AddBetween(item, anode.prev, anode, granted, i - 1);
    }

    method AddHead(item: T, granted: bool) returns (node: ListNode?<T>)
      requires Valid()
      modifies this, nodes, freeNodeList
      ensures Valid() && fresh(nodes - old(nodes))
      ensures node == null <==> old(freeNodeList.chain) == [] && !granted
      ensures items == if node == null then old(items) else [item] + old(items)
    {
      node := AddAfter(item, head, granted, 0);
    }

    method AddTail(item: T, granted: bool) returns (node: ListNode?<T>)
      requires Valid()
      modifies this, nodes, freeNodeList
      ensures Valid() && fresh(nodes - old(nodes))
      ensures node == null <==> old(freeNodeList.chain) == [] && !granted
      ensures items == if node == null then old(items) else old(items) + [item]
    {
      node := AddBefore(item, tail, granted, |spine| - 1);
    }

    /** Takes a node that is no sentinel out of the list. */
    method Detach(node: ListNode<T>, ghost i: nat)
      requires Valid() && 0 < i < |spine| - 1 && node == spine[i]
      modifies `size, `spine, `items, spine
      ensures Valid() && node !in spine && node in nodes
      ensures spine == Without(old(spine), i) && items == Without(old(items), i - 1)
    {
      hide At, Distinct, Doubly;
      ghost var s := spine;
      WithoutDistinct(s, i);
      WithoutMembers(s, i);
      size := size - 1;
      spine, items := Without(s, i), Without(items, i - 1);
      assert Filled() && Apart();
      assert Distinct(spine);
      assert s[i + 1] in s && s[i + 1] !in freeNodeList.chain;
      LinkOut(s, s[i - 1], node, s[i + 1], i);
      assert freeNodeList.Valid();
      assert Doubly(spine);
      assert Distinct(spine);
      assert Filled() && Apart();
      assert spine[0].prev == null;
      assert spine[|spine| - 1].next == null;
    }

    /** freeListNode */
    method FreeNode(node: ListNode<T>)
      requires Valid() && node in nodes && node !in spine && node !in freeNodeList.chain
      modifies freeNodeList, node`prev
      ensures Valid()
      ensures freeNodeList.chain ==
              (if |old(freeNodeList.chain)| + 1 < freeNodeList.maxFreeListLength then [node] else [])
              + old(freeNodeList.chain)
    {
      hide At, Distinct, Doubly;
      freeNodeList.Free(node);
      assert Filled() && Apart();
    }

    /** ListDelNode of the i-th node of the spine; a sentinel is left alone. When the
        item is to be freed and there is a free_func, the item is not given back. */
    method DelNode(node: ListNode<T>, freeItem: bool, hasFreeFunc: bool, ghost i: nat)
      returns (item: Option<T>, freed: bool)
      requires Valid() && i < |spine| && node == spine[i]
      modifies this, nodes, freeNodeList
      ensures Valid() && nodes == old(nodes)
      ensures i == 0 || i == |old(spine)| - 1 ==> item == None && !freed && spine == old(spine) && items == old(items)
      ensures 0 < i < |old(spine)| - 1 ==>
                && spine == Without(old(spine), i) && items == Without(old(items), i - 1)
                && freed == (freeItem && hasFreeFunc)
                && item == (if freed then None else Some(old(items)[i - 1]))
                && freeNodeList.chain ==
                   (if |old(freeNodeList.chain)| + 1 < freeNodeList.maxFreeListLength then [node] else [])
                   + old(freeNodeList.chain)
    {
      SentinelAt(spine, i);
      hide At, Distinct, Doubly, Without;
      item, freed := None, false;
      if node == head || node == tail {
        return;
      }
      var temp := node.item;
      Detach(node, i);
      FreeNode(node);
      if freeItem && hasFreeFunc {
        freed := true;
      } else {
        item := Some(temp);
      }
    }

    /** The body of ListDestroy's loop: the next node, and what went to free_func. */
    method DropFirst(dnode: ListNode<T>, freeItem: bool, hasFreeFunc: bool) returns (next: ListNode<T>, calls: seq<T>)
      requires Valid() && |spine| > 2 && dnode == spine[1]
      modifies this, nodes, freeNodeList
      ensures Valid() && nodes == old(nodes)
      ensures items == old(items)[1..] && next == spine[1]
      ensures calls == if freeItem && hasFreeFunc then [old(items)[0]] else []
    {
      assert dnode.next == spine[2];
      next := dnode.next;
      calls := if freeItem && hasFreeFunc then [dnode.item] else [];
      var _, _ := DelNode(dnode, freeItem, hasFreeFunc, 1);
    }

    /** FreeListDestroy on the chain of free nodes. */
    method DropChain()
      requires Valid()
      modifies freeNodeList
      ensures Valid() && freeNodeList.chain == []
    {
      hide Distinct, Doubly, At;
      freeNodeList.Destroy();
      assert Filled() && Apart();
    }

    /** ListDestroy; `calls` are the items given to free_func, in order. */
    method Destroy(freeItem: bool, hasFreeFunc: bool) returns (calls: seq<T>)
      requires Valid()
      modifies this, nodes, freeNodeList
      ensures Valid() && nodes == old(nodes) && items == [] && freeNodeList.chain == []
      ensures calls == if freeItem && hasFreeFunc then old(items) else []
    {
      calls := [];
      ghost var all, n := items, 0;
      var dnode := head.next;
      assert dnode == spine[1];
      hide Distinct, Doubly, At;
      while dnode != tail
        invariant Valid() && nodes == old(nodes) && dnode == spine[1]
        invariant n <= |all| && items == all[n..] && calls == if freeItem && hasFreeFunc then all[..n] else []
        decreases |items|
      {
        SecondIsLast(spine);
        assert items[0] == all[n] && items[1..] == all[n + 1..] && all[..n] + [all[n]] == all[..n + 1];
        var more;
        dnode, more := DropFirst(dnode, freeItem, hasFreeFunc);
        calls, n := calls + more, n + 1;
      }
      SecondIsLast(spine);
      assert items == [] && all[..n] == all;
      DropChain();
    }

    /** ListHead */
    method Head() returns (node: ListNode?<T>)
      requires Valid()
      ensures node == if items == [] then null else spine[1]
    {
      node := if size == 0 then null else head.next;
    }

    /** ListTail */
    method Tail() returns (node: ListNode?<T>)
      requires Valid()
      ensures node == if items == [] then null else spine[|spine| - 2]
    {
      node := if size == 0 then null else tail.prev;
    }

    /** ListNext */
    method Next(node: ListNode<T>, ghost i: nat) returns (r: ListNode?<T>)
      requires Valid() && i < |spine| && node == spine[i]
      ensures r == if i + 2 < |spine| then spine[i + 1] else null
    {
      r := if node.next == tail then null else node.next;
    }

    /** ListPrev */
    method Prev(node: ListNode<T>, ghost i: nat) returns (r: ListNode?<T>)
      requires Valid() && i < |spine| && node == spine[i]
      ensures r == if i > 1 then spine[i - 1] else null
    {
      r := if node.prev == head then null else node.prev;
    }

    /** ListFind: the first match after the start, or after the head if there is no
        start. `matches` stands for cmp_func with the item sought. */
    method Find(start: ListNode?<T>, matches: T -> bool, ghost i: nat) returns (node: ListNode?<T>)
      requires Valid() && i + 1 < |spine| && (if start == null then i == 0 else start == spine[i])
      ensures node == null ==> forall j :: i <= j < |items| ==> !matches(items[j])
      ensures node != null ==> FirstMatch(node, matches, i)
    {
      var finger := if start == null then head.next else start.next;
      ghost var k := i + 1;
      while finger != tail
        invariant i < k < |spine| && finger == spine[k]
        invariant forall j :: i <= j < k - 1 ==> !matches(items[j])
        decreases |spine| - k
      {
        SentinelAt(spine, k);
        if matches(finger.item) {
          return finger;
        }
        finger := finger.next;
        k := k + 1;
      }
      SentinelAt(spine, k);
      node := null;
    }

    /** The node holds the first match behind the i-th node of the spine. */
    ghost predicate FirstMatch(node: ListNode<T>, matches: T -> bool, i: nat)
      requires Valid()
      reads this, nodes, spine, freeNodeList, freeNodeList.chain
    {
      exists k :: i < k < |spine| - 1 && node == spine[k] && matches(items[k - 1])
                  && forall j :: i <= j < k - 1 ==> !matches(items[j])
    }

    /** The iteration of the header file, from ListHead along ListNext. */
    method Forward() returns (s: seq<T>)
      requires Valid()
      ensures s == items
    {
      s := [];
      var node := Head();
      ghost var k := 1;
      while node != null
        invariant 1 <= k < |spine| && node == (if k == |spine| - 1 then null else spine[k])
        invariant s == items[..k - 1]
        decreases |spine| - k
      {
        s := s + [node.item];
        node := Next(node, k);
        k := k + 1;
      }
    }

    /** The same from ListTail along ListPrev. */
    method Backward() returns (s: seq<T>)
      requires Valid()
      ensures |s| == |items| && forall k :: 0 <= k < |s| ==> s[k] == items[|items| - 1 - k]
    {
      s := [];
      var node := Tail();
      ghost var k: int := |spine| - 2;
      while node != null
        invariant 0 <= k < |spine| - 1 && node == (if k == 0 then null else spine[k])
        invariant |s| == |items| - k && forall j :: 0 <= j < |s| ==> s[j] == items[|items| - 1 - j]
        decreases k
      {
        s := s + [node.item];
        node := Prev(node, k);
        k := k - 1;
      }
    }
  }
}
