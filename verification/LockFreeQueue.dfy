/** The queue between one producer and one consumer, run call by call over its linked nodes. */
module LockFreeQueues {

  class Node<T> {
    const value: T
    var next: Node?<T>

    constructor (value: T)
      ensures this.value == value && next == null
    {
      this.value := value;
      next := null;
    }
  }

  function ValuesOf<T>(nodes: seq<Node<T>>): (values: seq<T>)
    ensures |values| == |nodes|
  {
    if nodes == [] then [] else [nodes[0].value] + ValuesOf(nodes[1..])
  }

  lemma {:induction false} ValuesAppend<T>(a: seq<Node<T>>, n: Node<T>)
    ensures ValuesOf(a + [n]) == ValuesOf(a) + [n.value]
  {
    if a != [] {
      assert (a + [n])[1..] == a[1..] + [n];
      ValuesAppend(a[1..], n);
    }
  }

  /** Nodes up to and including the divider are spent; those after it hold the contents. */
  class LockFreeQueue<T> {
    var first: Node<T>
    var divider: Node<T>
    var last: Node<T>
    var size: int
    ghost var chain: seq<Node<T>>
    ghost var at: nat

    constructor (blank: T)
      ensures Valid() && Contents() == [] && fresh(set n | n in chain)
    {
      var n := new Node(blank);
      first, divider, last, size := n, n, n, 0;
      chain, at := [n], 0;
    }

    ghost predicate Valid()
      reads this, chain
    {
      && at < |chain|
      && (forall i, j :: 0 <= i < j < |chain| ==> chain[i] != chain[j])
      && (forall i :: 0 <= i < |chain| - 1 ==> chain[i].next == chain[i + 1])
      && first == chain[0] && divider == chain[at] && last == chain[|chain| - 1]
      && last.next == null
      && size == |chain| - 1 - at
    }

    ghost function Contents(): seq<T>
      reads this
    {
      if at < |chain| then ValuesOf(chain[at + 1..]) else []
    }

    /** Appends, then drops every spent node before the divider. */
    method Produce(t: T)
      requires Valid()
      modifies this, chain
      ensures Valid() && Contents() == old(Contents()) + [t]
      ensures first == divider == old(divider)
      ensures forall n :: n in chain ==> n in old(chain) || fresh(n)
    {
      Append(t);
      Reclaim();
    }

    method Append(t: T)
      requires Valid()
      modifies this, last`next
      ensures Valid() && Contents() == old(Contents()) + [t]
      ensures divider == old(divider)
      ensures |chain| == |old(chain)| + 1 && chain[..|old(chain)|] == old(chain) && fresh(chain[|old(chain)|])
    {
      hide ValuesOf;
      var n := new Node(t);
      ValuesAppend(chain[at + 1..], n);
      assert (chain + [n])[at + 1..] == chain[at + 1..] + [n];
      ghost var end := |chain| - 1;
      assert forall i :: 0 <= i < end ==> chain[i] != chain[end];
      last.next := n;
      assert forall i :: 0 <= i < end ==> chain[i].next == chain[i + 1];
      last := n;
      size := size + 1;
      chain := chain + [n];
    }

    method Reclaim()
      requires Valid()
      modifies `first, `chain, `at
      ensures Valid() && Contents() == old(Contents())
      ensures first == divider && chain == old(chain)[old(at)..]
    {
      hide ValuesOf;
      while divider != first
        invariant Valid()
        invariant at <= old(at) && chain == old(chain)[old(at) - at..]
        invariant Contents() == old(Contents())
        decreases at
      {
        assert chain[1..][at..] == chain[at + 1..];
        assert at > 0 && chain[0].next == chain[1];
        first := first.next;
        chain, at := chain[1..], at - 1;
      }
    }

    /** False exactly when the queue is empty; otherwise the oldest value leaves. */
    method Consume() returns (taken: bool, result: T)
      requires Valid()
      modifies `divider, `size, `at
      ensures Valid()
      ensures taken <==> old(Contents()) != []
      ensures taken ==> old(Contents()) == [result] + Contents()
      ensures !taken ==> Contents() == old(Contents())
    {
      if divider != last {
        assert at < |chain| - 1 && chain[at].next == chain[at + 1];
        result := divider.next.value;
        divider := divider.next;
        size := size - 1;
        at := at + 1;
        assert chain[old(at) + 1..][1..] == chain[at + 1..];
        return true, result;
      }
      return false, divider.value;
    }

    predicate Empty()
      reads this
    {
      size == 0
    }

    /** The counter tells the truth about the contents between calls. */
    lemma SizeCounts()
      requires Valid()
      ensures size == |Contents()| && (Empty() <==> Contents() == [])
    {
    }
  }
}
