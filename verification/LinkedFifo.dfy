/** A singly linked list used as a queue: append by walking to the last node, take from the head.  The
    request lists of the scheduler and the held PDUs of the SMS flow control are such lists. */
module LinkedFifo {
  import opened Common

  class Node<T> {
    const value: T
    var next: Node?<T>

    constructor (value: T)
      ensures this.value == value && next == null
    {
      this.value, next := value, null;
    }
  }

  class Fifo<T> {
    var head: Node?<T>
    ghost var nodes: seq<Node<T>>

    ghost predicate Valid()
      reads this, nodes
    {
      && (head == if nodes == [] then null else nodes[0])
      && (forall i {:trigger nodes[i].next} :: 0 <= i < |nodes| ==>
            nodes[i].next == if i + 1 < |nodes| then nodes[i + 1] else null)
      && (forall i, j :: 0 <= i < j < |nodes| ==> nodes[i] != nodes[j])
    }

    ghost function Contents(): (s: seq<T>)
      reads this
      ensures |s| == |nodes|
    {
      seq(|nodes|, i requires 0 <= i < |nodes| reads this => nodes[i].value)
    }

    constructor ()
      ensures Valid() && Contents() == [] && nodes == []
    {
      head, nodes := null, [];
    }

    /** Appends a value behind the last one. */
    method Append(value: T)
      requires Valid()
      modifies this, nodes
      ensures Valid() && Contents() == old(Contents()) + [value]
      ensures |nodes| == |old(nodes)| + 1 && nodes[..|old(nodes)|] == old(nodes) && fresh(nodes[|old(nodes)|])
    {
      var node := new Node(value);
      if head == null {
        head := node;
      } else {
        var last := head;
        ghost var i := 0;
        while last.next != null
          invariant i < |nodes| && last == nodes[i]
          decreases |nodes| - i
        {
          last := last.next;
          i := i + 1;
        }
        assert i == |nodes| - 1;
        last.next := node;
      }
      nodes := nodes + [node];
    }

    /** Takes the first value, if there is one. */
    method Take() returns (value: Option<T>)
      requires Valid()
      modifies this, nodes
      ensures Valid()
      ensures value == if old(Contents()) == [] then None else Some(old(Contents())[0])
      ensures Contents() == if old(Contents()) == [] then [] else old(Contents())[1..]
      ensures forall n :: n in nodes ==> n in old(nodes)
    {
      value := None;
      if head != null {
        var taken := head;
        head := taken.next;
        taken.next := null;
        value := Some(taken.value);
        nodes := nodes[1..];
      }
    }
  }
}
