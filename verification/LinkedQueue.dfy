/**
 The linked list inside queue.c: the critical sections of queue_push and queue_pull once
 their wait loops have let a thread through, and queue_destroy.  The blocking protocol
 around them is the subject of module QueueMonitor.
 */
module LinkedQueue {

  class QueueNode<T> {
    const data: T
    var next: QueueNode?<T>

    /** How many nodes were allocated before this one; tells nodes apart. */
    ghost const serial: nat

    constructor (data: T, ghost serial: nat)
      ensures this.data == data && this.serial == serial && this.next == null
    {
      this.data := data;
      this.serial := serial;
      this.next := null;
    }
  }

  /** The nodes number `from`, `from + 1`, ... in order of allocation, so no two are the same. */
  ghost predicate Numbered<T>(nodes: seq<QueueNode<T>>, from: nat) {
    forall i :: 0 <= i < |nodes| ==> nodes[i].serial == from + i
  }

  ghost function Successor<T>(spine: seq<QueueNode<T>>, i: nat): QueueNode?<T> {
    if i + 1 < |spine| then spine[i + 1] else null
  }

  /** Each node is linked to the one after it and the last to nothing. */
  ghost predicate Linked<T>(spine: seq<QueueNode<T>>)
    reads spine
  {
    forall i {:trigger Successor(spine, i)} :: 0 <= i < |spine| ==> spine[i].next == Successor(spine, i)
  }

  ghost predicate Carries<T>(spine: seq<QueueNode<T>>, items: seq<T>) {
    && |items| == |spine|
    && forall i :: 0 <= i < |spine| ==> spine[i].data == items[i]
  }

  /** Taking the first node off a list leaves a list of the rest. */
  lemma TakeFirst<T>(spine: seq<QueueNode<T>>, items: seq<T>, freed: seq<QueueNode<T>>, pulled: seq<T>)
    requires |spine| > 0 && Linked(spine) && Carries(spine, items)
    requires Numbered(freed, 0) && Numbered(spine, |freed|)
    ensures Linked(spine[1..]) && Carries(spine[1..], items[1..])
    ensures Numbered(freed + [spine[0]], 0) && Numbered(spine[1..], |freed| + 1)
    ensures spine[0].data == items[0] && items == [items[0]] + items[1..]
    ensures pulled + items == pulled + [items[0]] + items[1..]
    ensures |spine| > 1 ==> spine[1..][|spine| - 2] == spine[|spine| - 1]
    ensures spine[0].next == if |spine| == 1 then null else spine[1..][0]
  {
    var rest := spine[1..];
    assert spine[0].next == Successor(spine, 0);
    forall i | 0 <= i < |rest|
      ensures rest[i].next == Successor(rest, i)
    {
      assert rest[i] == spine[i + 1] && spine[i + 1].next == Successor(spine, i + 1);
    }
  }

  /** In a list whose nodes are numbered only the last one is the last. */
  lemma OnlyLast<T>(spine: seq<QueueNode<T>>, from: nat, i: nat)
    requires Numbered(spine, from) && i + 1 < |spine|
    ensures spine[i] != spine[|spine| - 1]
  {
    assert spine[i].serial != spine[|spine| - 1].serial;
  }

  /** A node behind the last one makes a list of one more. */
  lemma OneMoreNode<T>(spine: seq<QueueNode<T>>, items: seq<T>, from: nat, node: QueueNode<T>)
    requires Carries(spine, items) && Numbered(spine, from) && node.serial == from + |spine|
    ensures Carries(spine + [node], items + [node.data]) && Numbered(spine + [node], from)
  {
  }

  lemma TakeMore<T>(s: seq<T>, k: nat, before: seq<T>)
    requires k < |s|
    ensures before + s[..k] + [s[k]] == before + s[..k + 1] && s[..k] + [s[k]] == s[..k + 1]
  {
  }

  class Queue<T> {
    var head: QueueNode?<T>
    var tail: QueueNode?<T>
    var size: int
    const maxSize: int

    /** The abstract value, and the nodes that carry it. */
    ghost var contents: seq<T>
    ghost var spine: seq<QueueNode<T>>
    /** Every node freed so far, in the order of the calls to free. */
    ghost var freed: seq<QueueNode<T>>
    /** All the items pushed, pulled and handed to the destructor so far. */
    ghost var pushed: seq<T>
    ghost var pulled: seq<T>
    ghost var destroyed: seq<T>

    ghost predicate Valid()
      reads this, spine
    {
      && Linked(spine) && Carries(spine, contents)
      && Numbered(freed, 0) && Numbered(spine, |freed|)
      && size == |spine|
      && (maxSize > 0 ==> size <= maxSize)
      && head == (if spine == [] then null else spine[0])
      && tail == (if spine == [] then null else spine[|spine| - 1])
      && destroyed == []
      && pushed == pulled + contents
    }

    constructor (maxSize: int)
      ensures Valid() && contents == [] && this.maxSize == maxSize
      ensures pushed == [] && pulled == [] && freed == []
    {
      this.maxSize := maxSize;
      head := null;
      tail := null;
      size := 0;
      contents, spine, freed := [], [], [];
      pushed, pulled, destroyed := [], [], [];
    }

    /** True exactly when the wait loop of queue_push lets the thread through. */
    predicate MayPush()
      reads this
    {
      !(maxSize > 0 && size == maxSize)
    }

    /** True exactly when the wait loop of queue_pull lets the thread through. */
    predicate MayPull()
      reads this
    {
      size != 0
    }

    /** The pointers of a new node at the end. */
    method LinkLast(node: QueueNode<T>)
      requires Valid() && node.next == null && node !in spine
      modifies this`head, this`tail, tail
      ensures Linked(spine + [node]) && tail == node
      ensures head == if spine == [] then node else spine[0]
    {
      ghost var longer := spine + [node];
      forall i: nat | i + 1 < |spine|
        ensures spine[i] != tail && spine[i].next == Successor(longer, i)
      {
        OnlyLast(spine, |freed|, i);
        assert Successor(spine, i) == spine[i + 1];
      }
      if head == null {
        head := node;
        tail := node;
      } else {
        tail.next := node;
        tail := node;
      }
      forall i | 0 <= i < |longer|
        ensures longer[i].next == Successor(longer, i)
      {
        if i + 1 < |spine| {
          assert longer[i] == spine[i];
        }
      }
    }

    /** `wake` says whether the section ends with a broadcast. */
    method Push(item: T) returns (wake: bool)
      requires Valid() && MayPush()
      modifies this, tail
      ensures Valid()
      ensures contents == old(contents) + [item]
      ensures pushed == old(pushed) + [item] && pulled == old(pulled) && freed == old(freed)
      ensures wake <==> old(size) == 0
    {
      var node := new QueueNode<T>(item, |freed| + |spine|);
      LinkLast(node);
      OneMoreNode(spine, contents, |freed|, node);
      size := size + 1;
      spine := spine + [node];
      contents := contents + [item];
      pushed := pushed + [item];
      wake := size == 1;
    }

    method Pull() returns (item: T, wake: bool)
      requires Valid() && MayPull()
      modifies this
      ensures Valid()
      ensures old(contents) == [item] + contents
      ensures pulled == old(pulled) + [item] && pushed == old(pushed)
      ensures freed == old(freed) + [old(spine)[0]]
      ensures wake <==> maxSize > 0 && old(size) == maxSize
    {
      var node := head;
      TakeFirst(spine, contents, freed, pulled);
      item := node.data;
      head := head.next;
      if head == null {
        tail := null;
      }
      size := size - 1;
      spine := spine[1..];
      contents := contents[1..];
      freed := freed + [node];
      pulled := pulled + [item];
      wake := maxSize > 0 && size == maxSize - 1;
    }

    /** Runs the destructor over what is left and frees each remaining node. */
    method Destroy()
      requires Valid()
      modifies this`destroyed, this`freed
      ensures destroyed == contents && pushed == pulled + destroyed
      ensures freed == old(freed) + spine && Numbered(freed, 0)
    {
      var cur := head;
      ghost var k := 0;
      while cur != null
        invariant 0 <= k <= |spine|
        invariant cur == if k < |spine| then spine[k] else null
        invariant destroyed == contents[..k]
        invariant freed == old(freed) + spine[..k]
        decreases |spine| - k
      {
        var temp := cur;
        assert temp == spine[k] && temp.next == Successor(spine, k);
        cur := cur.next;
        TakeMore(contents, k, []);
        TakeMore(spine, k, old(freed));
        destroyed := destroyed + [temp.data];
        freed := freed + [temp];
        k := k + 1;
      }
    }
  }

  /** Nodes with distinct numbers are distinct, so a numbered list of freed nodes has no double free. */
  lemma NoDoubleFree<T>(freed: seq<QueueNode<T>>, i: nat, j: nat)
    requires Numbered(freed, 0) && i < j < |freed|
    ensures freed[i] != freed[j]
  {
    assert freed[i].serial != freed[j].serial;
  }
}
