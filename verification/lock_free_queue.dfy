/** The queue as an object whose calls run one at a time: the uninterrupted runs of the two call bodies. */
module LockFreeQueues {
  import opened Bytes
  import opened QueueSteps

  class LockFreeQueue<T(==)> {
    var list: seq<nat>
    var value: map<nat, T>
    var next: nat
    var first: Iterator
    var divider: Iterator
    var last: Iterator

    function View(): Queue<T>
      reads this
    {
      Queue(list, value, first, divider, last, next)
    }

    /** Nothing is being inserted or erased: the list starts at theFirst and ends at theLast. */
    ghost predicate Valid()
      reads this
    {
      ListOk(View()) && AtRest(View())
    }

    /** The values that can be consumed, oldest first. */
    ghost function Contents(): seq<T>
      reads this
      requires Valid()
    {
      Pending(View())
    }

    constructor (t: T)
      ensures Valid() && Contents() == []
    {
      list, value, next := [0], map[0 := t], 1;
      first, divider, last := At(0), At(0), At(0);
    }

    method Produce(v: T)
      requires Valid()
      modifies this
      ensures Valid() && Contents() == old(Contents()) + [v]
      ensures divider == old(divider) && first == divider
    {
      InsertAtEnd(View(), v);
      SuccessorOfLast(View());
      var inc := Successor(View(), last);
      var q := Insert(View(), inc, v);
      list, value, next := q.list, q.value, q.next;
      last := At(next - 1);
      assert Contents() == old(Contents()) + [v];
      while first != divider
        invariant Valid() && divider == old(divider) && Contents() == old(Contents()) + [v]
        decreases divider.node - first.node
      {
        TrimOne();
      }
    }

    /** The loop body: theFirst moves on, and the node before it is erased. */
    method TrimOne()
      requires Valid() && first != divider
      modifies this
      ensures Valid() && divider == old(divider) && first == At(old(first).node + 1)
      ensures Contents() == old(Contents())
    {
      FirstIsOldest(View());
      first := Successor(View(), first);
      FirstIsNode(View());
      var dec := Predecessor(View(), first);
      EraseOldest(View());
      var q := Erase(View(), dec);
      list, value := q.list, q.value;
      assert Contents() == old(Contents());
    }

    method Consume() returns (r: Option<T>)
      requires Valid()
      modifies this
      ensures Valid()
      ensures old(Contents()) == [] ==> r == None && Contents() == []
      ensures old(Contents()) != [] ==> r == Some(old(Contents())[0]) && Contents() == old(Contents())[1..]
    {
      if divider != last {
        DividerIsNode(View());
        var inc := Successor(View(), divider);
        r := Some(value[inc.node]);
        divider := inc;
      } else {
        r := None;
      }
    }
  }

  predicate AtRest<T>(q: Queue<T>)
    requires ListOk(q)
  {
    q.list[0] == q.first.node && q.last.node + 1 == q.next
  }

  lemma SuccessorOfLast<T>(q: Queue<T>)
    requires ListOk(q) && AtRest(q)
    ensures IsNode(q, q.last) && Successor(q, q.last) == End
  {
    ConsecutiveIndex(q.list, q.next, q.last.node);
  }

  lemma FirstIsOldest<T>(q: Queue<T>)
    requires ListOk(q) && AtRest(q) && q.first != q.divider
    ensures IsNode(q, q.first) && Successor(q, q.first) == At(q.first.node + 1)
  {
    ConsecutiveIndex(q.list, q.next, q.first.node);
  }

  lemma FirstIsNode<T>(q: Queue<T>)
    requires ListOk(q) && q.list[0] + 1 == q.first.node
    ensures IsNode(q, q.first) && Predecessor(q, q.first) == At(q.list[0])
    ensures IsNode(q, At(q.list[0]))
  {
    ConsecutiveIndex(q.list, q.next, q.first.node);
  }

  lemma DividerIsNode<T>(q: Queue<T>)
    requires ListOk(q) && q.divider != q.last
    ensures IsNode(q, q.divider) && Successor(q, q.divider) == At(q.divider.node + 1)
    ensures q.divider.node + 1 in q.value
  {
    ConsecutiveIndex(q.list, q.next, q.divider.node);
  }
}
