/** A request queue of the driver: the two linked lists, filled by callers and emptied by the runner. */
module RequestQueue {
  import opened Common
  import opened EventQueue
  import opened LinkedFifo
  import opened Scheduler

  /** A missing relative time is no delay. */
  function DueAt(clock: Moment, relative: Option<Moment>): Time {
    var rel := if relative.Some? then relative.value else Moment(0, 0);
    Due(clock.sec, clock.usec, rel.sec, rel.usec)
  }

  method NewEvent(id: nat, clock: Moment, relative: Option<Moment>) returns (e: RilEvent)
    ensures fresh(e) && e.id == id && e.due == DueAt(clock, relative) && e.next == null && e.prev == null
  {
    var rel := if relative.Some? then relative.value else Moment(0, 0);
    var sec, nsec := clock.sec + rel.sec, (clock.usec + rel.usec) * 1000;
    if nsec > NANOS {
      sec := sec + 1;
      nsec := nsec - NANOS;
    }
    e := new RilEvent(id, Time(sec, nsec));
  }

  class RequestQueue {
    const events: Queue
    const requests: Fifo<Request>
    var closed: bool

    ghost predicate Valid()
      reads this, events, events.nodes, requests, requests.nodes
    {
      events.Valid() && requests.Valid()
    }

    /** The queue as a lane without history. */
    ghost function Value(): Lane
      reads this, events, requests
    {
      Lane(Values(events.nodes), requests.Contents(), closed, [], [], [], [])
    }

    constructor ()
      ensures Valid() && Value() == EMPTY && fresh(events) && fresh(requests)
    {
      events := new Queue();
      requests := new Fifo();
      closed := true;
    }

    /** The single-queue part of enqueueRILEvent. */
    method EnqueueEvent(id: nat, clock: Moment, relative: Option<Moment>) returns (e: RilEvent)
      requires Valid()
      modifies events, events.nodes
      ensures Valid() && fresh(e)
      ensures e.id == id && e.due == DueAt(clock, relative)
      ensures Nanos(e.due) == clock.sec * 1_000_000_000 + clock.usec * 1000
              + if relative.Some? then relative.value.sec * 1_000_000_000 + relative.value.usec * 1000 else 0
      ensures Values(events.nodes) == Insert(old(Values(events.nodes)), Event(id, DueAt(clock, relative)))
      ensures requests.Contents() == old(requests.Contents()) && closed == old(closed)
    {
      e := NewEvent(id, clock, relative);
      events.Enqueue(e);
    }

    /** The queueing part of onRequest. */
    method OnRequest(r: Request)
      requires Valid()
      modifies requests, requests.nodes
      ensures Valid() && Value().requests == Accept(old(Value()), r).requests
      ensures Value().events == old(Value()).events && closed == old(closed)
    {
      requests.Append(r);
    }

    /** One turn of the runner's loop, with the queue's mutex held; returns what is to be run. */
    method RunnerTurn(now: Moment) returns (e: RilEvent?, r: Option<Request>)
      requires Valid()
      modifies events, requests, requests.nodes
      ensures Valid()
      ensures var l := Turn(old(Value()), now);
              && Value() == l.(popped := [], dispatched := [])
              && l.popped == (if e == null then [] else [Event(e.id, e.due)])
              && l.dispatched == OptSeq(r)
    {
      e, r := null, None;
      if closed {
        return;
      }
      var stamp := Time(now.sec, now.usec * 1000);
      e := events.PopDue(stamp);
      r := requests.Take();
    }

    method Close()
      requires Valid()
      modifies `closed
      ensures Valid() && Value() == old(Value()).(closed := true)
    {
      closed := true;
    }
  }

  /** signalCloseQueues closes every queue and touches nothing else. */
  method SignalCloseQueues(queues: seq<RequestQueue>)
    requires forall q :: q in queues ==> q.Valid()
    modifies queues
    ensures forall q :: q in queues ==> q.Valid() && q.Value() == old(q.Value()).(closed := true)
  {
    var i := 0;
    while i < |queues|
      invariant i <= |queues|
      invariant forall j :: 0 <= j < i ==> queues[j].closed
      invariant forall q :: q in queues ==> q.Valid() && q.Value() == old(q.Value()).(closed := q.closed)
    {
      queues[i].Close();
      i := i + 1;
    }
  }
}
