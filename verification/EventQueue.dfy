/**
 The timer list of a request queue: a doubly linked list sorted by due time, into which events are
 inserted in place and from whose head the queue runner takes them.

 The runner does not repair the `prev` of the new head, so the head's `prev` may refer to an event that
 has been freed.  The list invariant says that `prev` is right for every node but the head; insertion
 only writes to nodes of the list and to the new event, which its `modifies` clause makes the verifier
 check.
 */
module EventQueue {
  const NANOS: int := 1_000_000_000

  datatype Time = Time(sec: int, nsec: int)

  /** timespec_cmp with `<`. */
  predicate Before(a: Time, b: Time) {
    if a.sec == b.sec then a.nsec < b.nsec else a.sec < b.sec
  }

  /** Nanoseconds since the epoch. */
  function Nanos(t: Time): int {
    t.sec * NANOS + t.nsec
  }

  /** What the driver's normalisation leaves: a full second of nanoseconds may remain. */
  predicate Normal(t: Time) {
    0 <= t.nsec <= NANOS
  }

  /** The due time of an event: the clock (seconds, microseconds) plus a relative time. */
  function Due(clockSec: int, clockUsec: int, relSec: int, relUsec: int): (t: Time)
    ensures 0 <= clockUsec < 1_000_000 && 0 <= relUsec < 1_000_000 ==> Normal(t)
    ensures Nanos(t) == (clockSec + relSec) * 1_000_000_000 + (clockUsec + relUsec) * 1000
    ensures 0 <= clockUsec && 0 <= relUsec && clockUsec + relUsec <= 1_000_000 ==> t.sec == clockSec + relSec
  {
    var sec, nsec := clockSec + relSec, (clockUsec + relUsec) * 1000;
    if nsec > NANOS then Time(sec + 1, nsec - NANOS) else Time(sec, nsec)
  }

  /** The field-wise order agrees with real time. */
  lemma BeforeIsEarlier(a: Time, b: Time)
    requires Normal(a) && Normal(b)
    ensures Before(a, b) ==> Nanos(a) <= Nanos(b)
    ensures Nanos(a) < Nanos(b) ==> Before(a, b)
  {
  }

  class RilEvent {
    const id: nat
    const due: Time
    var next: RilEvent?
    var prev: RilEvent?

    constructor (id: nat, due: Time)
      ensures this.id == id && this.due == due && next == null && prev == null
    {
      this.id, this.due, next, prev := id, due, null, null;
    }
  }

  /** An event on values. */
  datatype Event = Event(id: nat, due: Time)

  /** Index at which an event due at `due` is inserted: before the first event due later. */
  function InsertIndex(q: seq<Event>, due: Time): (k: nat)
    ensures k <= |q|
    ensures forall i :: 0 <= i < k ==> !Before(due, q[i].due)
    ensures k < |q| ==> Before(due, q[k].due)
  {
    if q == [] || Before(due, q[0].due) then 0 else 1 + InsertIndex(q[1..], due)
  }

  function Insert(q: seq<Event>, e: Event): seq<Event> {
    q[..InsertIndex(q, e.due)] + [e] + q[InsertIndex(q, e.due)..]
  }

  function Values(ns: seq<RilEvent>): (q: seq<Event>)
    ensures |q| == |ns| && forall i :: 0 <= i < |ns| ==> q[i] == Event(ns[i].id, ns[i].due)
  {
    seq(|ns|, i requires 0 <= i < |ns| => Event(ns[i].id, ns[i].due))
  }

  /** The nodes ns form the list at head: `next` is right everywhere, `prev` everywhere but at the head. */
  ghost predicate IsList(head: RilEvent?, ns: seq<RilEvent>)
    reads ns
  {
    && (head == if ns == [] then null else ns[0])
    && (forall i {:trigger ns[i].next} :: 0 <= i < |ns| ==> ns[i].next == if i + 1 < |ns| then ns[i + 1] else null)
    && (forall i {:trigger ns[i].prev} :: 0 < i < |ns| ==> ns[i].prev == ns[i - 1])
    && (forall i, j :: 0 <= i < j < |ns| ==> ns[i] != ns[j])
  }

  lemma ValuesInsert(ns: seq<RilEvent>, k: nat, e: RilEvent)
    requires k <= |ns|
    ensures Values(ns[..k] + [e] + ns[k..]) == Values(ns)[..k] + [Event(e.id, e.due)] + Values(ns)[k..]
  {
  }

  class Queue {
    var eventList: RilEvent?
    ghost var nodes: seq<RilEvent>

    ghost predicate Valid()
      reads this, nodes
    {
      IsList(eventList, nodes)
    }

    constructor ()
      ensures Valid() && nodes == []
    {
      eventList, nodes := null, [];
    }

    /** Inserts a new event behind all that are due no later. */
    method Enqueue(e: RilEvent)
      requires Valid() && e !in nodes && e.next == null && e.prev == null
      modifies this, nodes, e
      ensures Valid() && Values(nodes) == Insert(old(Values(nodes)), Event(e.id, e.due))
      ensures nodes == old(nodes)[..InsertIndex(old(Values(nodes)), e.due)] + [e]
                       + old(nodes)[InsertIndex(old(Values(nodes)), e.due)..]
    {
      ghost var ns := nodes;
      if eventList == null {
        eventList := e;
        nodes := [e];
      } else if Before(e.due, eventList.due) {
        InsertFirst(e);
      } else {
        InsertBehindHead(e);
      }
      ValuesInsert(ns, InsertIndex(Values(ns), e.due), e);
    }

    /** Links e in front of the head, which is due later. */
    method InsertFirst(e: RilEvent)
      requires Valid() && nodes != [] && e !in nodes && e.prev == null
      modifies this, nodes, e
      ensures Valid() && nodes == [e] + old(nodes)
    {
      e.next := eventList;
      eventList.prev := e;
      eventList := e;
      nodes := [e] + nodes;
    }

    /** The loop that looks for the place of an event that is not due before the head. */
    method InsertBehindHead(e: RilEvent)
      requires Valid() && nodes != [] && e !in nodes && e.next == null && e.prev == null
      requires !Before(e.due, nodes[0].due)
      modifies `nodes, nodes, e
      ensures Valid()
      ensures nodes == old(nodes)[..InsertIndex(old(Values(nodes)), e.due)] + [e]
                       + old(nodes)[InsertIndex(old(Values(nodes)), e.due)..]
    {
      ghost var k := InsertIndex(Values(nodes), e.due);
      var tmp := eventList;
      ghost var i := 0;
      while true
        invariant i < |nodes| && tmp == nodes[i] && Valid() && nodes == old(nodes)
        invariant e.next == null && e.prev == null
        invariant i == 0 ==> !Before(e.due, tmp.due)
        invariant i <= k
        decreases |nodes| - i
      {
        if Before(e.due, tmp.due) {
          assert i == k;
          InsertBefore(tmp, e, i);
          break;
        } else if tmp.next == null {
          assert k == |nodes|;
          InsertLast(tmp, e);
          break;
        }
        tmp := tmp.next;
        i := i + 1;
      }
    }

    /** Links e in front of tmp, which is not the head. */
    method InsertBefore(tmp: RilEvent, e: RilEvent, ghost i: nat)
      requires Valid() && 0 < i < |nodes| && tmp == nodes[i] && e !in nodes
      modifies `nodes, nodes, e
      ensures Valid() && nodes == old(nodes)[..i] + [e] + old(nodes)[i..]
    {
      tmp.prev.next := e;
      e.prev := tmp.prev;
      tmp.prev := e;
      e.next := tmp;
      nodes := nodes[..i] + [e] + nodes[i..];
    }

    /** Links e behind the last node. */
    method InsertLast(tmp: RilEvent, e: RilEvent)
      requires Valid() && nodes != [] && tmp == nodes[|nodes| - 1] && e !in nodes && e.next == null
      modifies `nodes, nodes, e
      ensures Valid() && nodes == old(nodes) + [e]
    {
      tmp.next := e;
      e.prev := tmp;
      nodes := nodes + [e];
    }

    /** Takes the head if it is due; its successor keeps a `prev` that refers to the node taken. */
    method PopDue(now: Time) returns (e: RilEvent?)
      requires Valid()
      modifies this
      ensures Valid()
      ensures e != null <==> old(nodes) != [] && Before(old(nodes)[0].due, now)
      ensures e != null ==> old(nodes) == [e] + nodes
      ensures e == null ==> nodes == old(nodes)
    {
      e := null;
      if eventList != null && Before(eventList.due, now) {
        e := eventList;
        eventList := e.next;
        nodes := nodes[1..];
      }
    }
  }
}
