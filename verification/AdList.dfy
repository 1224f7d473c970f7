/** The doubly linked list and its iterator, on linked nodes. (src/adlist.c) */
module AdList {
  import opened Common

  class Node<T> {
    var prev: Node?<T>
    var next: Node?<T>
    const value: T

    constructor (value: T)
      ensures this.value == value && prev == null && next == null
    {
      this.value, prev, next := value, null, null;
    }
  }

  // ---- Chains -----------------------------------------------------------------------------------

  function First<T>(nodes: seq<Node<T>>, a: Node?<T>): Node?<T> { if nodes == [] then a else nodes[0] }

  function Last<T>(b: Node?<T>, nodes: seq<Node<T>>): Node?<T> { if nodes == [] then b else nodes[|nodes| - 1] }

  // Neighbours are linked in both directions.
  ghost predicate Inner<T>(nodes: seq<Node<T>>)
    reads nodes
  {
    forall i | 0 < i < |nodes| :: nodes[i].prev == nodes[i - 1] && nodes[i - 1].next == nodes[i]
  }

  // A chain with b in front and a behind.
  ghost predicate Chain<T>(b: Node?<T>, nodes: seq<Node<T>>, a: Node?<T>)
    reads nodes
  {
    Inner(nodes) && (nodes != [] ==> nodes[0].prev == b && nodes[|nodes| - 1].next == a)
  }

  ghost predicate Distinct<T>(nodes: seq<Node<T>>) {
    forall i, j | 0 <= i < j < |nodes| :: nodes[i] != nodes[j]
  }

  lemma ChainJoin<T>(b: Node?<T>, x: seq<Node<T>>, y: seq<Node<T>>, a: Node?<T>)
    requires Chain(b, x, First(y, a)) && Chain(Last(b, x), y, a)
    ensures Chain(b, x + y, a)
  {
    if x == [] { assert x + y == y; }
    if y == [] { assert x + y == x; }
  }

  lemma ChainSplit<T>(b: Node?<T>, x: seq<Node<T>>, y: seq<Node<T>>, a: Node?<T>)
    requires Chain(b, x + y, a)
    ensures Chain(b, x, First(y, a)) && Chain(Last(b, x), y, a)
  {
    var z := x + y;
    forall i | 0 < i < |x| ensures x[i].prev == x[i - 1] && x[i - 1].next == x[i] {
      assert z[i].prev == z[i - 1];
    }
    forall i | 0 < i < |y| ensures y[i].prev == y[i - 1] && y[i - 1].next == y[i] {
      assert z[|x| + i].prev == z[|x| + i - 1];
    }
    if x != [] && y != [] { assert z[|x|].prev == z[|x| - 1]; }
    if x == [] { assert z == y; }
    if y == [] { assert z == x; }
  }

  lemma SplitAt<T>(nodes: seq<Node<T>>, i: nat)
    requires i < |nodes| && Chain(null, nodes, null)
    ensures Chain(null, nodes[..i], nodes[i]) && Chain(nodes[i], nodes[i + 1..], null)
    ensures nodes[i].prev == Last(null, nodes[..i]) && nodes[i].next == First(nodes[i + 1..], null)
  {
    hide Inner;
    assert nodes == nodes[..i] + nodes[i..] && nodes[i..] == [nodes[i]] + nodes[i + 1..];
    ChainSplit(null, nodes[..i], nodes[i..], null);
    ChainSplit(Last(null, nodes[..i]), [nodes[i]], nodes[i + 1..], null);
  }

  lemma CutAt<T>(nodes: seq<Node<T>>, k: nat)
    requires k <= |nodes| && Chain(null, nodes, null) && Distinct(nodes)
    ensures Chain(null, nodes[..k], First(nodes[k..], null)) && Chain(Last(null, nodes[..k]), nodes[k..], null)
    ensures Distinct(nodes[..k]) && Distinct(nodes[k..]) && forall n | n in nodes[..k] :: n !in nodes[k..]
  {
    assert nodes == nodes[..k] + nodes[k..];
    ChainSplit(null, nodes[..k], nodes[k..], null);
  }

  lemma DistinctAround<T>(nodes: seq<Node<T>>, i: nat)
    requires i < |nodes| && Distinct(nodes)
    ensures Distinct(nodes[..i]) && Distinct(nodes[i + 1..])
    ensures nodes[i] !in nodes[..i] && nodes[i] !in nodes[i + 1..]
    ensures forall n | n in nodes[..i] :: n !in nodes[i + 1..]
  {}

  lemma DistinctConcat<T>(x: seq<Node<T>>, y: seq<Node<T>>)
    requires Distinct(x) && Distinct(y) && forall n | n in x :: n !in y
    ensures Distinct(x + y)
  {
    var z := x + y;
    forall i, j | 0 <= i < j < |z| ensures z[i] != z[j] {
      if i < |x| <= j { assert z[i] in x && z[j] in y; }
    }
  }

  lemma OnlyAt<T>(nodes: seq<Node<T>>, i: nat, j: nat)
    requires Distinct(nodes) && i < |nodes| && j < |nodes|
    ensures nodes[i] == nodes[j] <==> i == j
  {}

  // Two linked chains make one list.
  lemma Joined<T>(x: seq<Node<T>>, y: seq<Node<T>>)
    requires Chain(null, x, First(y, null)) && Chain(Last(null, x), y, null)
    requires Distinct(x) && Distinct(y) && forall n | n in x :: n !in y
    ensures Chain(null, x + y, null) && Distinct(x + y)
    ensures First(x + y, null) == First(x, First(y, null)) && Last(null, x + y) == Last(Last(null, x), y)
  {
    ChainJoin(null, x, y, null);
    DistinctConcat(x, y);
  }

  // A node linked between two chains makes one list with them.
  lemma Spliced<T>(x: seq<Node<T>>, node: Node<T>, y: seq<Node<T>>)
    requires Chain(null, x, node) && Chain(node, y, null) && node.prev == Last(null, x) && node.next == First(y, null)
    requires Distinct(x) && Distinct(y) && (forall n | n in x :: n !in y) && node !in x && node !in y
    ensures Chain(null, x + [node] + y, null) && Distinct(x + [node] + y)
    ensures First(x + [node] + y, null) == First(x, node) && Last(null, x + [node] + y) == Last(node, y)
    ensures (x + [node] + y)[..|x|] == x && (x + [node] + y)[|x| + 1..] == y
  {
    assert Chain(Last(null, x), [node], First(y, null));
    ChainJoin(null, x, [node], First(y, null));
    ChainJoin(null, x + [node], y, null);
    DistinctConcat(x, [node]);
    DistinctConcat(x + [node], y);
  }

  // The front link of a chain is set.
  method SetPrev<T>(n: Node<T>, p: Node?<T>, ghost nodes: seq<Node<T>>, ghost b: Node?<T>, ghost a: Node?<T>)
    requires nodes != [] && nodes[0] == n && Chain(b, nodes, a) && Distinct(nodes)
    modifies n`prev
    ensures n.prev == p && Chain(p, nodes, a)
  {
    n.prev := p;
  }

  method SetNext<T>(n: Node<T>, p: Node?<T>, ghost nodes: seq<Node<T>>, ghost b: Node?<T>, ghost a: Node?<T>)
    requires nodes != [] && nodes[|nodes| - 1] == n && Chain(b, nodes, a) && Distinct(nodes)
    modifies n`next
    ensures n.next == p && Chain(b, nodes, p)
  {
    n.next := p;
  }

  lemma ChainSingle<T>(b: Node?<T>, n: Node<T>, a: Node?<T>)
    requires n.prev == b && n.next == a
    ensures Chain(b, [n], a) && Distinct([n])
  {}

  lemma ChainNone<T>(b: Node?<T>, a: Node?<T>)
    ensures Chain(b, [], a) && Distinct<T>([])
  {}

  class List<T> {
    var head: Node?<T>
    var tail: Node?<T>
    var len: nat
    ghost var nodes: seq<Node<T>>

    ghost predicate Valid()
      reads this, nodes
    {
      len == |nodes| && head == First(nodes, null) && tail == Last(null, nodes) && Distinct(nodes) && Chain(null, nodes, null)
    }

    constructor Create()
      ensures Valid() && nodes == []
    {
      head, tail, len, nodes := null, null, 0, [];
    }

    method AddNodeHead(value: T)
      requires Valid()
      modifies this, head
      ensures Valid() && |nodes| == |old(nodes)| + 1 && nodes[1..] == old(nodes) && fresh(nodes[0]) && nodes[0].value == value
    {
      hide Chain, Distinct;
      var node := new Node(value);
      ChainNone<T>(null, node);
      if len == 0 {
        head, tail := node, node;
        ChainNone<T>(node, null);
      } else {
        node.next := head;
        SetPrev(head, node, nodes, null, null);
        head := node;
      }
      len := len + 1;
      Spliced([], node, nodes);
      nodes := [] + [node] + nodes;
    }

    method AddNodeTail(value: T)
      requires Valid()
      modifies this, tail
      ensures Valid() && |nodes| == |old(nodes)| + 1 && nodes[..|old(nodes)|] == old(nodes)
      ensures fresh(nodes[|old(nodes)|]) && nodes[|old(nodes)|].value == value
    {
      hide Chain, Distinct;
      var node := new Node(value);
      ChainNone<T>(node, null);
      if len == 0 {
        head, tail := node, node;
        ChainNone<T>(null, node);
      } else {
        node.prev := tail;
        SetNext(tail, node, nodes, null, null);
        tail := node;
      }
      len := len + 1;
      Spliced(nodes, node, []);
      nodes := nodes + [node] + [];
    }

    // i is the position of oldNode.
    method InsertNode(oldNode: Node<T>, value: T, after: bool, ghost i: nat)
      requires Valid() && i < |nodes| && nodes[i] == oldNode
      modifies this, nodes
      ensures Valid() && |nodes| == |old(nodes)| + 1
      ensures var k := if after then i + 1 else i; fresh(nodes[k]) && nodes[k].value == value
      ensures var k := if after then i + 1 else i; nodes[..k] == old(nodes)[..k] && nodes[k + 1..] == old(nodes)[k..]
    {
      if after { InsertAfter(oldNode, value, i); } else { InsertBefore(oldNode, value, i); }
    }

    method InsertAfter(oldNode: Node<T>, value: T, ghost i: nat)
      requires Valid() && i < |nodes| && nodes[i] == oldNode
      modifies this, nodes
      ensures Valid() && |nodes| == |old(nodes)| + 1 && fresh(nodes[i + 1]) && nodes[i + 1].value == value
      ensures nodes[..i + 1] == old(nodes)[..i + 1] && nodes[i + 2..] == old(nodes)[i + 1..]
    {
      hide Chain, Distinct;
      ghost var x, y := nodes[..i + 1], nodes[i + 1..];
      CutAt(nodes, i + 1);
      SplitAt(nodes, i);
      OnlyAt(nodes, i, |nodes| - 1);
      var node := new Node(value);
      node.prev := oldNode;
      node.next := oldNode.next;
      if tail == oldNode { tail := node; }
      LinkIn(node, x, y);
    }

    method InsertBefore(oldNode: Node<T>, value: T, ghost i: nat)
      requires Valid() && i < |nodes| && nodes[i] == oldNode
      modifies this, nodes
      ensures Valid() && |nodes| == |old(nodes)| + 1 && fresh(nodes[i]) && nodes[i].value == value
      ensures nodes[..i] == old(nodes)[..i] && nodes[i + 1..] == old(nodes)[i..]
    {
      hide Chain, Distinct;
      ghost var x, y := nodes[..i], nodes[i..];
      CutAt(nodes, i);
      SplitAt(nodes, i);
      OnlyAt(nodes, i, 0);
      var node := new Node(value);
      node.next := oldNode;
      node.prev := oldNode.prev;
      if head == oldNode { head := node; }
      LinkIn(node, x, y);
    }

    // The end of listInsertNode: the neighbours are linked to the node.
    method LinkIn(node: Node<T>, ghost x: seq<Node<T>>, ghost y: seq<Node<T>>)
      requires Distinct(x) && Distinct(y) && (forall n | n in x :: n !in y) && node !in x && node !in y
      requires Chain(null, x, First(y, null)) && Chain(Last(null, x), y, null)
      requires node.prev == Last(null, x) && node.next == First(y, null)
      requires head == First(x, node) && tail == Last(node, y) && len == |x| + |y|
      modifies this, x, y
      ensures Valid() && nodes == x + [node] + y
      ensures |nodes| == |x| + 1 + |y| && nodes[..|x|] == x && nodes[|x|] == node && nodes[|x| + 1..] == y
    {
      hide Chain, Distinct;
      LinkNeighbours(node, x, y);
      len := len + 1;
      Spliced(x, node, y);
      nodes := x + [node] + y;
    }

    static method LinkNeighbours(node: Node<T>, ghost x: seq<Node<T>>, ghost y: seq<Node<T>>)
      requires Distinct(x) && Distinct(y) && (forall n | n in x :: n !in y) && node !in x && node !in y
      requires Chain(null, x, First(y, null)) && Chain(Last(null, x), y, null)
      requires node.prev == Last(null, x) && node.next == First(y, null)
      modifies x, y
      ensures Chain(null, x, node) && Chain(node, y, null)
    {
      hide Chain, Distinct;
      if node.prev != null {
        assert node.prev in x;
        SetNext(node.prev, node, x, null, First(y, null));
      } else {
        ChainNone<T>(null, node);
      }
      if node.next != null {
        assert node.next in y;
        SetPrev(node.next, node, y, Last(null, x), null);
      } else {
        ChainNone<T>(node, null);
      }
    }

    // i is the position of the node.
    method DelNode(node: Node<T>, ghost i: nat)
      requires Valid() && i < |nodes| && nodes[i] == node
      modifies this, node.prev, node.next
      ensures Valid() && nodes == old(nodes)[..i] + old(nodes)[i + 1..]
    {
      hide Chain, Distinct;
      ghost var x, y := nodes[..i], nodes[i + 1..];
      SplitAt(nodes, i);
      DistinctAround(nodes, i);
      if node.prev != null {
        assert node.prev in x && node.prev !in y;
        SetNext(node.prev, node.next, x, null, node);
      } else {
        ChainNone<T>(null, node.next);
        head := node.next;
      }
      if node.next != null {
        assert node.next in y && node.next !in x;
        SetPrev(node.next, node.prev, y, node, null);
      } else {
        ChainNone<T>(node.prev, null);
        tail := node.prev;
      }
      len := len - 1;
      Joined(x, y);
      nodes := x + y;
    }

    method RotateTailToHead()
      requires Valid()
      modifies this, nodes
      ensures Valid()
      ensures nodes == if |old(nodes)| <= 1 then old(nodes) else [old(nodes)[|old(nodes)| - 1]] + old(nodes)[..|old(nodes)| - 1]
    {
      if len <= 1 { return; }
      ghost var rest := nodes[..|nodes| - 1];
      SplitAt(nodes, |nodes| - 1);
      DistinctAround(nodes, |nodes| - 1);
      var last := tail;
      tail := last.prev;
      tail.next := null;
      head.prev := last;
      last.prev := null;
      last.next := head;
      head := last;
      ChainSingle(null, last, First(rest, null));
      ChainJoin(null, [last], rest, null);
      nodes := [last] + rest;
    }

    method RotateHeadToTail()
      requires Valid()
      modifies this, nodes
      ensures Valid()
      ensures nodes == if |old(nodes)| <= 1 then old(nodes) else old(nodes)[1..] + [old(nodes)[0]]
    {
      if len <= 1 { return; }
      ghost var rest := nodes[1..];
      SplitAt(nodes, 0);
      DistinctAround(nodes, 0);
      var first := head;
      head := first.next;
      head.prev := null;
      tail.next := first;
      first.next := null;
      first.prev := tail;
      tail := first;
      ChainSingle(Last(null, rest), first, null);
      ChainJoin(null, rest, [first], null);
      nodes := rest + [first];
    }

    method Join(o: List<T>)
      requires Valid() && o.Valid() && o != this && forall n | n in nodes :: n !in o.nodes
      modifies this, nodes, o, o.nodes
      ensures Valid() && o.Valid() && o.nodes == []
      ensures nodes == old(nodes) + old(o.nodes)
    {
      hide Chain, Distinct;
      if o.len == 0 { return; }
      ghost var y := o.nodes;
      TakeOver(o);
      nodes := nodes + y;
      o.head, o.tail, o.len, o.nodes := null, null, 0, [];
      ChainNone<T>(null, null);
    }

    // The links of listJoin.
    method TakeOver(o: List<T>)
      requires Valid() && o.Valid() && o != this && o.nodes != [] && forall n | n in nodes :: n !in o.nodes
      modifies this`head, this`tail, this`len, nodes, o.nodes
      ensures var z := nodes + o.nodes;
              len == |z| && head == First(z, null) && tail == Last(null, z) && Distinct(z) && Chain(null, z, null)
    {
      hide Chain, Distinct;
      assert o.head in o.nodes;
      SetPrev(o.head, tail, o.nodes, null, null);
      if tail != null {
        assert tail in nodes;
        SetNext(tail, o.head, nodes, null, null);
      } else {
        ChainNone<T>(null, o.head);
        head := o.head;
      }
      tail := o.tail;
      len := len + o.len;
      Joined(nodes, o.nodes);
    }

    method Empty()
      requires Valid()
      modifies this
      ensures Valid() && nodes == []
    {
      hide Chain, Distinct;
      var current, left := head, len;
      while left > 0
        invariant nodes == old(nodes) && Valid()
        invariant 0 <= left <= |nodes| && current == First(nodes[|nodes| - left..], null)
      {
        SplitAt(nodes, |nodes| - left);
        current := current.next;
        left := left - 1;
      }
      ChainNone<T>(null, null);
      head, tail, len, nodes := null, null, 0, [];
    }

    /** Negative indexes count from the tail. */
    method Index(index: int) returns (n: Node?<T>)
      requires Valid()
      ensures var k := if index < 0 then |nodes| + index else index; n == if 0 <= k < |nodes| then nodes[k] else null
    {
      hide Chain, Distinct;
      if index < 0 {
        var left := -index - 1;
        n := tail;
        ghost var k := |nodes| - 1;
        while left > 0 && n != null
          invariant -1 <= k < |nodes| && n == (if k >= 0 then nodes[k] else null) && 0 <= left && k == |nodes| + index + left
          decreases left
        {
          SplitAt(nodes, k);
          n := n.prev;
          k := k - 1;
          left := left - 1;
        }
      } else {
        var left := index;
        n := head;
        ghost var k := 0;
        while left > 0 && n != null
          invariant 0 <= k <= |nodes| && n == (if k < |nodes| then nodes[k] else null) && 0 <= left && k == index - left
          decreases left
        {
          SplitAt(nodes, k);
          n := n.next;
          k := k + 1;
          left := left - 1;
        }
      }
    }
  }

  // ---- Iteration --------------------------------------------------------------------------------

  // The iterator is a local variable of the loop that uses it.
  datatype ListIter<T> = ListIter(next: Node?<T>, forward: bool)

  method Rewind<T>(list: List<T>, forward: bool) returns (iter: ListIter<T>)
    ensures iter == ListIter(if forward then list.head else list.tail, forward)
  {
    iter := ListIter(if forward then list.head else list.tail, forward);
  }

  // Returns the current node and moves on, before the caller can delete it.
  method Next<T>(iter: ListIter<T>) returns (current: Node?<T>, after: ListIter<T>)
    ensures current == iter.next && after.forward == iter.forward
    ensures after.next == if current == null then null else if iter.forward then current.next else current.prev
  {
    current, after := iter.next, iter;
    if current != null {
      if iter.forward { after := after.(next := current.next); } else { after := after.(next := current.prev); }
    }
  }

  // The nodes that are not dropped, in order; any choice of nodes can be dropped.
  function Kept<T>(nodes: seq<Node<T>>, drop: Node<T> -> bool): seq<Node<T>> {
    if nodes == [] then [] else
      Kept(nodes[..|nodes| - 1], drop) + if drop(nodes[|nodes| - 1]) then [] else [nodes[|nodes| - 1]]
  }

  lemma KeptNext<T>(nodes: seq<Node<T>>, i: nat, drop: Node<T> -> bool)
    requires i < |nodes|
    ensures Kept(nodes[..i + 1], drop) == Kept(nodes[..i], drop) + if drop(nodes[i]) then [] else [nodes[i]]
  {
    assert nodes[..i + 1][..i] == nodes[..i];
  }

  lemma {:induction false} KeptAppend<T>(x: seq<Node<T>>, y: seq<Node<T>>, drop: Node<T> -> bool)
    ensures Kept(x + y, drop) == Kept(x, drop) + Kept(y, drop)
  {
    if y == [] {
      assert x + y == x;
    } else {
      assert (x + y)[..|x + y| - 1] == x + y[..|y| - 1];
      KeptAppend(x, y[..|y| - 1], drop);
    }
  }

  lemma KeptPrevious<T>(nodes: seq<Node<T>>, i: nat, drop: Node<T> -> bool)
    requires i < |nodes|
    ensures Kept(nodes[i..], drop) == (if drop(nodes[i]) then [] else [nodes[i]]) + Kept(nodes[i + 1..], drop)
  {
    assert nodes[i..] == [nodes[i]] + nodes[i + 1..];
    KeptAppend([nodes[i]], nodes[i + 1..], drop);
    KeptNext([nodes[i]], 0, drop);
  }

  method DelIf<T>(list: List<T>, node: Node<T>, drop: Node<T> -> bool, ghost kept: seq<Node<T>>, ghost rest: seq<Node<T>>)
    requires list.Valid() && list.nodes == kept + [node] + rest
    modifies list, node.prev, node.next
    ensures list.Valid() && list.nodes == kept + (if drop(node) then [] else [node]) + rest
  {
    hide Chain, Distinct;
    if drop(node) {
      assert list.nodes[..|kept|] == kept && list.nodes[|kept| + 1..] == rest;
      list.DelNode(node, |kept|);
    }
  }

  // The iterator has returned node i of all; the nodes before it have been dealt with.
  ghost predicate Ahead<T>(list: List<T>, all: seq<Node<T>>, i: nat, drop: Node<T> -> bool, node: Node?<T>, iter: ListIter<T>)
    reads list, list.nodes
  {
    i <= |all| && list.Valid() && iter.forward && (forall n | n in list.nodes :: n in all) &&
    list.nodes == Kept(all[..i], drop) + all[i..] &&
    node == First(all[i..], null) && (node != null ==> iter.next == First(all[i + 1..], null))
  }

  method StepAhead<T>(list: List<T>, node: Node<T>, iter: ListIter<T>, drop: Node<T> -> bool, ghost all: seq<Node<T>>, ghost i: nat)
    returns (node': Node?<T>, iter': ListIter<T>)
    requires Ahead(list, all, i, drop, node, iter)
    modifies list, all
    ensures i < |all| && node == all[i] && Ahead(list, all, i + 1, drop, node', iter')
  {
    hide Chain, Distinct, Kept;
    KeptNext(all, i, drop);
    assert all[i..] == [node] + all[i + 1..];
    assert list.nodes == Kept(all[..i], drop) + [node] + all[i + 1..];
    NeighboursIn(list, |Kept(all[..i], drop)|);
    DelIf(list, node, drop, Kept(all[..i], drop), all[i + 1..]);
    NextInList(list, all, i + 1, Kept(all[..i + 1], drop));
    node', iter' := Next(iter);
  }

  /** Deleting the node just returned does not disturb the iteration from the head: every node that
      was there is visited once, in order, and the others stay. */
  method SweepFromHead<T>(list: List<T>, drop: Node<T> -> bool) returns (visited: seq<Node<T>>)
    requires list.Valid()
    modifies list, list.nodes
    ensures list.Valid() && visited == old(list.nodes) && list.nodes == Kept(old(list.nodes), drop)
  {
    hide Chain, Distinct, Kept, Ahead;
    ghost var all := list.nodes;
    ghost var i: nat := 0;
    visited := [];
    var iter := Rewind(list, true);
    var node;
    node, iter := Next(iter);
    AheadStart(list, drop, node, iter);
    while node != null
      invariant Ahead(list, all, i, drop, node, iter) && i <= |all| && visited == all[..i]
      decreases |all| - i
    {
      visited := visited + [node];
      node, iter := StepAhead(list, node, iter, drop, all, i);
      i := i + 1;
    }
    AheadDone(list, all, i, drop, iter);
  }

  lemma AheadStart<T>(list: List<T>, drop: Node<T> -> bool, node: Node?<T>, iter: ListIter<T>)
    requires list.Valid() && iter.forward && node == list.head && (node != null ==> iter.next == node.next)
    ensures Ahead(list, list.nodes, 0, drop, node, iter)
  {
    hide Chain, Distinct;
    NextInList(list, list.nodes, 0, []);
  }

  lemma AheadDone<T>(list: List<T>, all: seq<Node<T>>, i: nat, drop: Node<T> -> bool, iter: ListIter<T>)
    requires Ahead(list, all, i, drop, null, iter)
    ensures i == |all| && all[..i] == all && list.Valid() && list.nodes == Kept(all, drop)
  {
    hide Chain, Distinct, Kept;
    assert Kept(all[..i], drop) + all[i..] == Kept(all[..i], drop);
  }

  // The same in the other direction: the nodes from i on have been dealt with.
  ghost predicate Behind<T>(list: List<T>, all: seq<Node<T>>, i: nat, drop: Node<T> -> bool, node: Node?<T>, iter: ListIter<T>)
    reads list, list.nodes
  {
    i <= |all| && list.Valid() && !iter.forward && (forall n | n in list.nodes :: n in all) &&
    list.nodes == all[..i] + Kept(all[i..], drop) &&
    node == Last(null, all[..i]) && (node != null ==> iter.next == Last(null, all[..i - 1]))
  }

  method StepBehind<T>(list: List<T>, node: Node<T>, iter: ListIter<T>, drop: Node<T> -> bool, ghost all: seq<Node<T>>, ghost i: nat)
    returns (node': Node?<T>, iter': ListIter<T>)
    requires Behind(list, all, i, drop, node, iter)
    modifies list, all
    ensures 0 < i <= |all| && node == all[i - 1] && Behind(list, all, i - 1, drop, node', iter')
  {
    BehindHere(list, all, i, drop, node, iter);
    hide Chain, Distinct, Kept, Behind;
    DelIf(list, node, drop, all[..i - 1], Kept(all[i..], drop));
    node', iter' := Next(iter);
    KeptIn(all[i..], drop);
    BehindNext(list, all, i - 1, drop, node, node', iter');
  }

  // Where the node returned is, and that its neighbours are among the nodes.
  lemma BehindHere<T>(list: List<T>, all: seq<Node<T>>, i: nat, drop: Node<T> -> bool, node: Node<T>, iter: ListIter<T>)
    requires Behind(list, all, i, drop, node, iter)
    ensures 0 < i <= |all| && node == all[i - 1] && list.Valid() && !iter.forward
    ensures list.nodes == all[..i - 1] + [node] + Kept(all[i..], drop) && iter.next == Last(null, all[..i - 1])
    ensures (node.prev == null || node.prev in all) && (node.next == null || node.next in all)
  {
    hide Chain, Distinct, Kept;
    assert all[..i] == all[..i - 1] + [node];
    assert list.nodes[i - 1] == node;
    NeighboursIn(list, i - 1);
  }

  lemma BehindNext<T>(
    list: List<T>, all: seq<Node<T>>, i: nat, drop: Node<T> -> bool, node: Node<T>, node': Node?<T>, iter': ListIter<T>)
    requires i < |all| && node == all[i] && list.Valid() && !iter'.forward
    requires list.nodes == all[..i] + (if drop(node) then [] else [node]) + Kept(all[i + 1..], drop)
    requires forall n | n in Kept(all[i + 1..], drop) :: n in all
    requires node' == Last(null, all[..i]) && (node' != null ==> iter'.next == node'.prev)
    ensures Behind(list, all, i, drop, node', iter')
  {
    hide Chain, Distinct, Kept;
    KeptPrevious(all, i, drop);
    assert list.nodes == all[..i] + Kept(all[i..], drop);
    PreviousInList(list, all, i, Kept(all[i..], drop));
  }

  lemma {:induction false} KeptIn<T>(nodes: seq<Node<T>>, drop: Node<T> -> bool)
    ensures forall n | n in Kept(nodes, drop) :: n in nodes
  {
    if nodes != [] { KeptIn(nodes[..|nodes| - 1], drop); }
  }

  /** From the tail every node is visited once too, in the opposite order. */
  method SweepFromTail<T>(list: List<T>, drop: Node<T> -> bool) returns (visited: seq<Node<T>>)
    requires list.Valid()
    modifies list, list.nodes
    ensures list.Valid() && list.nodes == Kept(old(list.nodes), drop) && |visited| == |old(list.nodes)|
    ensures forall k | 0 <= k < |visited| :: visited[k] == old(list.nodes)[|visited| - 1 - k]
  {
    hide Chain, Distinct, Kept;
    ghost var all := list.nodes;
    ghost var i: nat := |list.nodes|;
    visited := [];
    KeptNone(drop);
    PreviousInList(list, all, i, []);
    var iter := Rewind(list, false);
    var node;
    node, iter := Next(iter);
    while node != null
      invariant Behind(list, all, i, drop, node, iter)
      invariant |visited| == |all| - i && forall k | 0 <= k < |visited| :: visited[k] == all[|all| - 1 - k]
      decreases i
    {
      visited := visited + [node];
      node, iter := StepBehind(list, node, iter, drop, all, i);
      i := i - 1;
    }
    assert all[0..] == all && all[..0] + Kept(all, drop) == Kept(all, drop);
  }

  lemma PreviousInList<T>(list: List<T>, all: seq<Node<T>>, i: nat, kept: seq<Node<T>>)
    requires i <= |all| && list.Valid() && list.nodes == all[..i] + kept
    ensures i > 0 ==> all[i - 1].prev == Last(null, all[..i - 1])
  {
    hide Chain, Distinct;
    if i > 0 {
      SplitAt(list.nodes, i - 1);
      assert list.nodes[..i - 1] == all[..i - 1];
    }
  }

  /** The first node whose value matches, or null. */
  method SearchKey<T>(list: List<T>, matches: T -> bool) returns (node: Node?<T>)
    requires list.Valid()
    ensures node == null ==> forall n | n in list.nodes :: !matches(n.value)
    ensures node != null ==> matches(node.value) && exists i | 0 <= i < |list.nodes| ::
      (list.nodes[i] == node && forall j | 0 <= j < i :: !matches(list.nodes[j].value))
  {
    hide Chain, Distinct;
    ghost var i := 0;
    var iter := Rewind(list, true);
    if list.nodes != [] { NextAt(list, 0); }
    node, iter := Next(iter);
    while node != null
      invariant 0 <= i <= |list.nodes| && iter.forward && node == NodeAt(list.nodes, i)
      invariant node != null ==> iter.next == NodeAt(list.nodes, i + 1)
      invariant forall j | 0 <= j < i :: !matches(list.nodes[j].value)
      decreases |list.nodes| - i
    {
      if matches(node.value) { return; }
      i := i + 1;
      if i < |list.nodes| { NextAt(list, i); }
      node, iter := Next(iter);
    }
  }

  function NodeAt<T>(nodes: seq<Node<T>>, i: nat): Node?<T> { if i < |nodes| then nodes[i] else null }

  lemma NextAt<T>(list: List<T>, i: nat)
    requires list.Valid() && i < |list.nodes|
    ensures list.nodes[i].next == NodeAt(list.nodes, i + 1)
  {
    hide Chain, Distinct;
    SplitAt(list.nodes, i);
  }

  /** A copy with the values of dup, or null when dup has none for some value. The original is not
      touched. */
  method Dup<T>(orig: List<T>, dup: T -> Option<T>) returns (copy: List?<T>)
    requires orig.Valid()
    ensures copy == null <==> exists n | n in orig.nodes :: dup(n.value).None?
    ensures copy != null ==> fresh(copy) && (forall n | n in copy.nodes :: fresh(n)) && copy.Valid()
    ensures copy != null ==> |copy.nodes| == |orig.nodes| && Copied(copy.nodes, orig.nodes, dup)
  {
    hide Chain, Distinct, Copied;
    var list := new List<T>.Create();
    ghost var i := 0;
    CopiedNone(orig.nodes, dup);
    var iter := Rewind(orig, true);
    if orig.nodes != [] { NextAt(orig, 0); }
    var node;
    node, iter := Next(iter);
    while node != null
      invariant 0 <= i <= |orig.nodes| && iter.forward && node == NodeAt(orig.nodes, i) && orig.Valid()
      invariant node != null ==> iter.next == NodeAt(orig.nodes, i + 1)
      invariant fresh(list) && (forall n | n in list.nodes :: fresh(n)) && list.Valid()
      invariant |list.nodes| == i && Copied(list.nodes, orig.nodes, dup)
      decreases |orig.nodes| - i
    {
      var value := dup(node.value);
      if value.None? {
        assert node in orig.nodes;
        return null;
      }
      assert list.tail != null ==> list.tail in list.nodes && fresh(list.tail);
      AddCopy(list, value.value, orig.nodes, dup);
      i := i + 1;
      if i < |orig.nodes| { NextAt(orig, i); }
      node, iter := Next(iter);
    }
    CopiedAll(list.nodes, orig.nodes, dup);
    copy := list;
  }

  method AddCopy<T>(list: List<T>, value: T, ghost y: seq<Node<T>>, ghost dup: T -> Option<T>)
    requires list.Valid() && |list.nodes| < |y| && Copied(list.nodes, y, dup) && Some(value) == dup(y[|list.nodes|].value)
    modifies list, list.tail
    ensures list.Valid() && |list.nodes| == |old(list.nodes)| + 1 && Copied(list.nodes, y, dup)
    ensures forall n | n in list.nodes :: n in old(list.nodes) || fresh(n)
  {
    hide Chain, Distinct, Copied;
    ghost var before := list.nodes;
    list.AddNodeTail(value);
    assert list.nodes == before + [list.nodes[|before|]];
    CopiedNext(list.nodes, y, dup);
  }

  // The values of x are the duplicates of the first values of y.
  ghost predicate Copied<T>(x: seq<Node<T>>, y: seq<Node<T>>, dup: T -> Option<T>) {
    |x| <= |y| && forall i | 0 <= i < |x| :: Some(x[i].value) == dup(y[i].value)
  }

  lemma CopiedNone<T>(y: seq<Node<T>>, dup: T -> Option<T>)
    ensures Copied([], y, dup)
  {}

  lemma CopiedNext<T>(x: seq<Node<T>>, y: seq<Node<T>>, dup: T -> Option<T>)
    requires 0 < |x| <= |y| && Copied(x[..|x| - 1], y, dup) && Some(x[|x| - 1].value) == dup(y[|x| - 1].value)
    ensures Copied(x, y, dup)
  {
    assert forall i | 0 <= i < |x| - 1 :: x[i] == x[..|x| - 1][i];
  }

  lemma CopiedAll<T>(x: seq<Node<T>>, y: seq<Node<T>>, dup: T -> Option<T>)
    requires Copied(x, y, dup) && |x| == |y|
    ensures forall n | n in y :: dup(n.value).Some?
  {
    forall n | n in y ensures dup(n.value).Some? {
      var i :| 0 <= i < |y| && y[i] == n;
      assert Some(x[i].value) == dup(y[i].value);
    }
  }

  lemma NeighboursIn<T>(list: List<T>, i: nat)
    requires list.Valid() && i < |list.nodes|
    ensures var n := list.nodes[i]; (n.prev == null || n.prev in list.nodes) && (n.next == null || n.next in list.nodes)
  {
    hide Chain, Distinct;
    SplitAt(list.nodes, i);
  }

  lemma KeptNone<T>(drop: Node<T> -> bool)
    ensures Kept<T>([], drop) == []
  {}

  lemma NextInList<T>(list: List<T>, all: seq<Node<T>>, i: nat, kept: seq<Node<T>>)
    requires i <= |all| && list.Valid() && list.nodes == kept + all[i..]
    ensures i < |all| ==> all[i].next == First(all[i + 1..], null)
  {
    hide Chain, Distinct;
    if i < |all| {
      SplitAt(list.nodes, |kept|);
      assert list.nodes[|kept|] == all[i] && list.nodes[|kept| + 1..] == all[i + 1..];
    }
  }
}
