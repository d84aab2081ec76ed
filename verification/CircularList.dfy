/** The circular doubly linked list and its iterator. */
module CircularList {
  datatype Position = Outside | At(index: nat)

  class Node<T> {
    var data: T
    var next: Node<T>
    var prev: Node<T>

    /** A ring of one. */
    constructor (data: T)
      ensures this.data == data && next == this && prev == this
    {
      this.data := data;
      next, prev := this, this;
    }
  }

  function After(i: nat, n: nat): nat {
    if i + 1 == n then 0 else i + 1
  }

  function Before(i: nat, n: nat): nat
    requires n > 0
  {
    if i == 0 then n - 1 else i - 1
  }

  /** The nodes form one cycle, in this order; `next` and `prev` are inverse to each other. */
  ghost predicate Ring<T>(nodes: seq<Node<T>>)
    reads nodes
  {
    && (forall i, j :: 0 <= i < j < |nodes| ==> nodes[i] != nodes[j])
    && (forall i :: 0 <= i < |nodes| - 1 ==> nodes[i].next == nodes[i + 1])
    && (forall i :: 1 <= i < |nodes| ==> nodes[i].prev == nodes[i - 1])
    && (nodes != [] ==> nodes[|nodes| - 1].next == nodes[0] && nodes[0].prev == nodes[|nodes| - 1])
  }

  /** `head` is the head of a list of these nodes; the empty list is null. */
  ghost predicate IsList<T>(head: Node?<T>, nodes: seq<Node<T>>)
    reads nodes
  {
    Ring(nodes) && if nodes == [] then head == null else head == nodes[0]
  }

  ghost function Contents<T>(nodes: seq<Node<T>>): seq<T>
    reads nodes
  {
    seq(|nodes|, i requires 0 <= i < |nodes| reads nodes => nodes[i].data)
  }

  /** Any node of a list is the head of the list rotated to it. */
  lemma Rotation<T>(nodes: seq<Node<T>>, k: nat)
    requires Ring(nodes) && k < |nodes|
    ensures Ring(nodes[k..] + nodes[..k])
    ensures Contents(nodes[k..] + nodes[..k]) == Contents(nodes)[k..] + Contents(nodes)[..k]
  {
    var n, turned := |nodes|, nodes[k..] + nodes[..k];
    assert forall i :: 0 <= i < n ==> turned[i] == nodes[if i + k < n then i + k else i + k - n];
    forall i | 0 <= i < n - 1
      ensures turned[i].next == turned[i + 1] && turned[i + 1].prev == turned[i]
    {
      Neighbours(nodes, if i + k < n then i + k else i + k - n);
      Neighbours(nodes, if i + 1 + k < n then i + 1 + k else i + 1 + k - n);
    }
    forall i | 1 <= i < n
      ensures turned[i].prev == turned[i - 1]
    {
      assert turned[i - 1].next == turned[i - 1 + 1];
    }
    Neighbours(nodes, k);
    Neighbours(nodes, if k == 0 then n - 1 else k - 1);
  }

  /** `next` and `prev` go to the neighbours, around the ends. */
  lemma Neighbours<T>(nodes: seq<Node<T>>, i: nat)
    requires Ring(nodes) && i < |nodes|
    ensures nodes[i].next == nodes[After(i, |nodes|)] && nodes[i].next.prev == nodes[i]
    ensures nodes[i].prev == nodes[Before(i, |nodes|)] && nodes[i].prev.next == nodes[i]
  {
    if i + 1 < |nodes| {
      assert nodes[i + 1].prev == nodes[i + 1 - 1];
    }
    if i > 0 {
      assert nodes[i - 1].next == nodes[i - 1 + 1];
    }
  }

  /** `clist_append` */
  method Append<T>(self: Node?<T>, data: T, ghost nodes: seq<Node<T>>) returns (head: Node<T>, ghost now: seq<Node<T>>)
    requires IsList(self, nodes)
    modifies nodes
    ensures |now| == |nodes| + 1 && now[..|nodes|] == nodes && fresh(now[|nodes|])
    ensures IsList(head, now) && Contents(now) == old(Contents(nodes)) + [data]
  {
    var item := new Node(data);
    now := nodes + [item];
    if self == null {
      return item, now;
    }
    item.next := self;
    item.prev := self.prev;
    self.prev.next := item;
    self.prev := item;
    head := self;
  }

  /** `clist_prepend`: the node appended is the new head. */
  method Prepend<T>(self: Node?<T>, data: T, ghost nodes: seq<Node<T>>) returns (head: Node<T>, ghost now: seq<Node<T>>)
    requires IsList(self, nodes)
    modifies nodes
    ensures |now| == |nodes| + 1 && now[1..] == nodes && fresh(now[0])
    ensures IsList(head, now) && Contents(now) == [data] + old(Contents(nodes))
  {
    var list: Node<T>;
    list, now := Append(self, data, nodes);
    head := list.prev;
    ghost var k := |nodes|;
    Rotation(now, k);
    assert Contents(now)[k..] == [data] && Contents(now)[..k] == old(Contents(nodes));
    assert now[k..] + now[..k] == [now[k]] + nodes;
    now := [now[k]] + nodes;
  }

  /** `clist_remove`: takes the head out; its neighbour becomes the head. */
  method Remove<T>(self: Node?<T>, ghost nodes: seq<Node<T>>) returns (head: Node?<T>, ghost now: seq<Node<T>>)
    requires IsList(self, nodes)
    modifies nodes
    ensures now == if nodes == [] then [] else nodes[1..]
    ensures IsList(head, now)
    ensures Contents(now) == if nodes == [] then [] else old(Contents(nodes))[1..]
  {
    now := if nodes == [] then [] else nodes[1..];
    if self == null {
      return null, now;
    }
    Neighbours(nodes, 0);
    if self.next == self {
      head := null;
    } else {
      self.next.prev := self.prev;
      self.prev.next := self.next;
      head := self.next;
    }
  }

  /** `clist_foreach`: visits the data in order, up to and including the first that the
      callback refuses. */
  method Foreach<T>(self: Node?<T>, callback: T -> bool, ghost nodes: seq<Node<T>>)
    returns (all: bool, visited: seq<T>)
    requires IsList(self, nodes)
    ensures visited <= Contents(nodes)
    ensures forall k :: 0 <= k < |visited| - 1 ==> callback(visited[k])
    ensures all ==> visited == Contents(nodes) && forall k :: 0 <= k < |visited| ==> callback(visited[k])
    ensures !all ==> visited != [] && !callback(visited[|visited| - 1])
  {
    visited := [];
    if self == null {
      return true, [];
    }
    var act := self;
    ghost var i := 0;
    while true
      invariant 0 <= i < |nodes| && act == nodes[i] && visited == Contents(nodes)[..i]
      invariant forall k :: 0 <= k < i ==> callback(visited[k])
      decreases |nodes| - i
    {
      visited := visited + [act.data];
      if !callback(act.data) {
        return false, visited;
      }
      Neighbours(nodes, i);
      act := act.next;
      i := i + 1;
      if act == self {
        return true, visited;
      }
    }
  }

  // ---------- The iterator ----------

  /** One step of an iterator over `n` nodes: from outside to the head, and from the
      last node before the head comes round again to outside. */
  function Step(n: nat, forward: bool, p: Position): Position
    requires p.At? ==> p.index < n
  {
    if n == 0 then Outside
    else if p.Outside? then At(0)
    else
      var next := if forward then After(p.index, n) else Before(p.index, n);
      if next == 0 then Outside else At(next)
  }

  function Steps(n: nat, forward: bool, k: nat): (p: Position)
    ensures p.At? ==> p.index < n
  {
    if k == 0 then Outside else Step(n, forward, Steps(n, forward, k - 1))
  }

  /** Of every `n + 1` steps in one direction the first `n` visit every node once, the
      head first and then forwards or backwards, and the last one leaves the list. */
  lemma {:induction false} VisitOrder(n: nat, forward: bool, round: nat, k: nat)
    requires k <= n
    ensures Steps(n, forward, round * (n + 1) + k)
            == if k == 0 then Outside else if forward || k == 1 then At(k - 1) else At(n + 1 - k)
    decreases round, k
  {
    if k > 0 {
      VisitOrder(n, forward, round, k - 1);
    } else if round > 0 {
      VisitOrder(n, forward, round - 1, n);
      assert (round - 1) * (n + 1) + n == round * (n + 1) - 1;
    }
  }

  class Iterator<T> {
    var start: Node?<T>
    var act: Node?<T>

    ghost predicate On(nodes: seq<Node<T>>, p: Position)
      reads this, nodes
    {
      && IsList(start, nodes)
      && match p
         case Outside => act == null
         case At(i) => i < |nodes| && act == nodes[i]
    }

    constructor (list: Node?<T>, ghost nodes: seq<Node<T>>)
      requires IsList(list, nodes)
      ensures On(nodes, Outside)
    {
      start, act := list, null;
    }

    method SetStep(next: Node?<T>) returns (valid: bool)
      modifies this
      ensures start == old(start)
      ensures act == if start == null then old(act) else if old(act) == null then start
                     else if next == start then null else next
      ensures valid == (start != null && (old(act) == null || next != start))
    {
      if start == null {
        return false;
      }
      if act == null {
        act := start;
        return true;
      }
      if next == start {
        act := null;
        return false;
      }
      act := next;
      return true;
    }

    /** `clist_iter_next` */
    method Next(ghost nodes: seq<Node<T>>, ghost p: Position) returns (valid: bool)
      requires On(nodes, p)
      modifies this
      ensures On(nodes, Step(|nodes|, true, p)) && valid == Step(|nodes|, true, p).At?
    {
      valid := SetStep(if act == null then null else act.next);
    }

    /** `clist_iter_prev` */
    method Prev(ghost nodes: seq<Node<T>>, ghost p: Position) returns (valid: bool)
      requires On(nodes, p)
      modifies this
      ensures On(nodes, Step(|nodes|, false, p)) && valid == Step(|nodes|, false, p).At?
    {
      valid := SetStep(if act == null then null else act.prev);
    }
  }

  /** The loop over an iterator visits the contents in order. */
  method Traverse<T>(list: Node?<T>, ghost nodes: seq<Node<T>>) returns (visited: seq<T>)
    requires IsList(list, nodes)
    ensures visited == Contents(nodes)
  {
    visited := [];
    var iter := new Iterator(list, nodes);
    ghost var p := Outside;
    var valid := iter.Next(nodes, p);
    p := Step(|nodes|, true, p);
    while valid
      invariant iter.On(nodes, p) && valid == p.At? && fresh(iter)
      invariant visited == if p.At? then Contents(nodes)[..p.index] else Contents(nodes)
      decreases if p.At? then |nodes| - p.index else 0
    {
      visited := visited + [iter.act.data];
      valid := iter.Next(nodes, p);
      p := Step(|nodes|, true, p);
    }
  }
}
