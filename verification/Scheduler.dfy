/**
 The two request queues and the queue runners as a state machine: callers insert requests and timed
 events, a runner takes from its queue what is due, the channel closes and reopens.
 */
module Scheduler {
  import opened Common
  import opened EventQueue

  datatype Request = Request(kind: int, token: nat)

  /** A queue, with the history of what was put in and taken out. */
  datatype Lane = Lane(
    events: seq<Event>, requests: seq<Request>, closed: bool,
    inserted: seq<Event>, popped: seq<Event>,
    accepted: seq<Request>, dispatched: seq<Request>)

  const EMPTY: Lane := Lane([], [], true, [], [], [], [])

  /** `nextId` numbers the events in the order in which they are inserted. */
  datatype State = State(normal: Lane, prio: Lane, nextId: nat)

  /** Whether there is a priority queue, and the requests that go there. */
  datatype Config = Config(prioEnabled: bool, prioRequests: seq<int>)

  /** A struct timeval. */
  datatype Moment = Moment(sec: int, usec: int)

  datatype Action =
    | AddEvent(toPrio: bool, clock: Moment, rel: Moment)
    | AddRequest(r: Request)
    | RunnerTurn(onPrio: bool, now: Moment)
    | CloseQueues
    | Reopen(onPrio: bool)

  /** isPrioRequest. */
  predicate IsPrio(c: Config, kind: int) {
    kind in c.prioRequests
  }

  /** The clock has microseconds below a million; so has a relative time. */
  predicate Timed(a: Action) {
    match a
    case AddEvent(_, clock, rel) => 0 <= clock.usec < 1_000_000 && 0 <= rel.usec < 1_000_000
    case RunnerTurn(_, now) => 0 <= now.usec < 1_000_000
    case _ => true
  }

  function AddToLane(l: Lane, e: Event): Lane {
    l.(events := Insert(l.events, e), inserted := l.inserted + [e])
  }

  function Accept(l: Lane, r: Request): Lane {
    l.(requests := l.requests + [r], accepted := l.accepted + [r])
  }

  function Stamp(now: Moment): Time {
    Time(now.sec, now.usec * 1000)
  }

  /** One turn of the runner's loop: nothing on a closed queue, else the first event if it is due, and
      the first request. */
  function Turn(l: Lane, now: Moment): Lane {
    if l.closed then l
    else
      var l1 := if l.events != [] && Before(l.events[0].due, Stamp(now))
                then l.(events := l.events[1..], popped := l.popped + [l.events[0]]) else l;
      if l1.requests != [] then l1.(requests := l1.requests[1..], dispatched := l1.dispatched + [l1.requests[0]])
      else l1
  }

  function Next(c: Config, s: State, a: Action): State {
    match a
    case AddEvent(toPrio, clock, rel) =>
      var e := Event(s.nextId, Due(clock.sec, clock.usec, rel.sec, rel.usec));
      var s1 := s.(nextId := s.nextId + 1);
      if c.prioEnabled && toPrio then s1.(prio := AddToLane(s.prio, e)) else s1.(normal := AddToLane(s.normal, e))
    case AddRequest(r) =>
      if c.prioEnabled && IsPrio(c, r.kind) then s.(prio := Accept(s.prio, r)) else s.(normal := Accept(s.normal, r))
    case RunnerTurn(onPrio, now) => if onPrio then s.(prio := Turn(s.prio, now)) else s.(normal := Turn(s.normal, now))
    case CloseQueues => s.(normal := s.normal.(closed := true), prio := s.prio.(closed := true))
    case Reopen(onPrio) =>
      if onPrio then s.(prio := s.prio.(closed := false)) else s.(normal := s.normal.(closed := false))
  }

  function Run(c: Config, acts: seq<Action>): State {
    if acts == [] then State(EMPTY, EMPTY, 0)
    else Next(c, Run(c, acts[..|acts| - 1]), acts[|acts| - 1])
  }

  // ---------------------------------------------------------------- sorted, stable

  /** Event a runs before event b: due earlier, or at the same time and inserted earlier. */
  predicate Precedes(a: Event, b: Event) {
    Before(a.due, b.due) || (a.due == b.due && a.id < b.id)
  }

  ghost predicate Ordered(q: seq<Event>) {
    forall i, j :: 0 <= i < j < |q| ==> Precedes(q[i], q[j])
  }

  /** Events of equal stamps that were taken come before those that wait. */
  ghost predicate Stable(popped: seq<Event>, q: seq<Event>) {
    && (forall i, j :: 0 <= i < j < |popped| && popped[i].due == popped[j].due ==> popped[i].id < popped[j].id)
    && (forall i, j :: 0 <= i < |popped| && 0 <= j < |q| && popped[i].due == q[j].due ==> popped[i].id < q[j].id)
  }

  ghost predicate IdsBelow(q: seq<Event>, n: nat) {
    forall i :: 0 <= i < |q| ==> q[i].id < n
  }

  ghost predicate AllNormal(q: seq<Event>) {
    forall i :: 0 <= i < |q| ==> Normal(q[i].due)
  }

  ghost predicate LaneOk(l: Lane, n: nat) {
    && Ordered(l.events) && Stable(l.popped, l.events)
    && IdsBelow(l.events, n) && IdsBelow(l.popped, n) && AllNormal(l.events)
    && multiset(l.inserted) == multiset(l.popped) + multiset(l.events)
    && l.accepted == l.dispatched + l.requests
  }

  lemma {:induction false} InsertOrdered(q: seq<Event>, e: Event)
    requires Ordered(q) && IdsBelow(q, e.id)
    ensures Ordered(Insert(q, e))
  {
    var k, q' := InsertIndex(q, e.due), Insert(q, e);
    forall i, j | 0 <= i < j < |q'| ensures Precedes(q'[i], q'[j]) {
      if i < k && j == k {
        assert q'[i] == q[i] && !Before(e.due, q[i].due);
      } else if i == k {
        assert q'[j] == q[j - 1];
        if j - 1 > k {
          assert Precedes(q[k], q[j - 1]);
        }
      } else {
        assert Precedes(q[if i < k then i else i - 1], q[if j < k then j else j - 1]);
      }
    }
  }

  lemma {:induction false} InsertMembers(q: seq<Event>, e: Event, n: nat)
    requires IdsBelow(q, n) && AllNormal(q) && e.id == n && Normal(e.due)
    ensures IdsBelow(Insert(q, e), n + 1) && AllNormal(Insert(q, e))
    ensures multiset(Insert(q, e)) == multiset(q) + multiset{e}
  {
    var k, q' := InsertIndex(q, e.due), Insert(q, e);
    InsertMultiset(q, e, k);
    forall i | 0 <= i < |q'| ensures q'[i].id < n + 1 && Normal(q'[i].due) {
      if i != k {
        assert q'[i] == q[if i < k then i else i - 1];
      }
    }
  }

  lemma {:induction false} InsertMultiset(q: seq<Event>, e: Event, k: nat)
    requires k <= |q|
    ensures multiset(q[..k] + [e] + q[k..]) == multiset(q) + multiset{e}
  {
    assert q == q[..k] + q[k..];
  }

  lemma {:induction false} AddLane(l: Lane, n: nat, e: Event)
    requires LaneOk(l, n) && e.id == n && Normal(e.due)
    ensures LaneOk(AddToLane(l, e), n + 1)
  {
    InsertOrdered(l.events, e);
    InsertMembers(l.events, e, n);
    var k, q' := InsertIndex(l.events, e.due), Insert(l.events, e);
    forall i, j | 0 <= i < |l.popped| && 0 <= j < |q'| && l.popped[i].due == q'[j].due
      ensures l.popped[i].id < q'[j].id
    {
      if j != k {
        assert q'[j] == l.events[if j < k then j else j - 1];
      }
    }
  }

  lemma {:induction false} PopLane(l: Lane, n: nat)
    requires LaneOk(l, n) && l.events != []
    ensures LaneOk(l.(events := l.events[1..], popped := l.popped + [l.events[0]]), n)
  {
    assert l.events == [l.events[0]] + l.events[1..];
    forall j | 0 < j < |l.events| ensures Precedes(l.events[0], l.events[j]) {
    }
  }

  lemma {:induction false} TurnLane(l: Lane, n: nat, now: Moment)
    requires LaneOk(l, n)
    ensures LaneOk(Turn(l, now), n)
  {
    if !l.closed {
      var l1 := l;
      if l.events != [] && Before(l.events[0].due, Stamp(now)) {
        PopLane(l, n);
        l1 := l.(events := l.events[1..], popped := l.popped + [l.events[0]]);
      }
      if l1.requests != [] {
        assert l1.requests == [l1.requests[0]] + l1.requests[1..];
      }
    }
  }

  ghost predicate Ok(s: State) {
    LaneOk(s.normal, s.nextId) && LaneOk(s.prio, s.nextId)
  }

  lemma {:induction false} NextOk(c: Config, s: State, a: Action)
    requires Ok(s) && Timed(a)
    ensures Ok(Next(c, s, a))
  {
    match a
    case AddEvent(toPrio, clock, rel) =>
      var e := Event(s.nextId, Due(clock.sec, clock.usec, rel.sec, rel.usec));
      if c.prioEnabled && toPrio {
        AddLane(s.prio, s.nextId, e);
      } else {
        AddLane(s.normal, s.nextId, e);
      }
    case AddRequest(r) =>
    case RunnerTurn(onPrio, now) =>
      if onPrio {
        TurnLane(s.prio, s.nextId, now);
      } else {
        TurnLane(s.normal, s.nextId, now);
      }
    case CloseQueues =>
    case Reopen(onPrio) =>
  }

  // ---------------------------------------------------------------- runs

  ghost predicate AllTimed(acts: seq<Action>) {
    forall i :: 0 <= i < |acts| ==> Timed(acts[i])
  }

  lemma {:induction false} RunOk(c: Config, acts: seq<Action>)
    requires AllTimed(acts)
    ensures Ok(Run(c, acts))
  {
    if acts != [] {
      RunOk(c, acts[..|acts| - 1]);
      NextOk(c, Run(c, acts[..|acts| - 1]), acts[|acts| - 1]);
    }
  }

  function LaneOf(s: State, prio: bool): Lane {
    if prio then s.prio else s.normal
  }

  lemma {:induction false} RunStep(c: Config, acts: seq<Action>, a: Action)
    ensures Run(c, acts + [a]) == Next(c, Run(c, acts), a)
  {
    assert (acts + [a])[..|acts|] == acts;
  }

  /** Event timing: a turn of the runner on an open queue takes an event exactly if one is due; it is due,
      and nothing in the queue is due earlier, both in real time; among events due at the same time it is
      the one inserted first.  No other event of any queue is touched. */
  lemma {:induction false} PopsEarliestDue(c: Config, acts: seq<Action>, prio: bool, now: Moment)
    requires AllTimed(acts) && 0 <= now.usec < 1_000_000
    ensures var l, l' := LaneOf(Run(c, acts), prio), LaneOf(Run(c, acts + [RunnerTurn(prio, now)]), prio);
            && (l'.popped != l.popped <==>
                  && !l.closed
                  && exists i :: 0 <= i < |l.events| && Before(l.events[i].due, Time(now.sec, now.usec * 1000)))
            && (l'.popped == l.popped ==> l'.events == l.events)
            && (l'.popped != l.popped ==>
              && l.events != [] && l'.popped == l.popped + [l.events[0]] && l'.events == l.events[1..]
              && Nanos(l.events[0].due) <= now.sec * NANOS + now.usec * 1000
              && forall i :: 0 < i < |l.events| ==>
                   Nanos(l.events[0].due) <= Nanos(l.events[i].due)
                   && (l.events[i].due == l.events[0].due ==> l.events[0].id < l.events[i].id))
  {
    RunOk(c, acts);
    RunStep(c, acts, RunnerTurn(prio, now));
    var l := LaneOf(Run(c, acts), prio);
    if i :| 0 < i < |l.events| && Before(l.events[i].due, Stamp(now)) {
      assert Precedes(l.events[0], l.events[i]);
    }
    if l.events != [] {
      BeforeIsEarlier(l.events[0].due, Stamp(now));
      forall i | 0 < i < |l.events| ensures Nanos(l.events[0].due) <= Nanos(l.events[i].due) {
        assert Precedes(l.events[0], l.events[i]);
        BeforeIsEarlier(l.events[0].due, l.events[i].due);
      }
    }
  }

  /** A turn of the runner on a queue dispatches a request if and only if the queue is open and one waits;
      it is then the first one, whether or not an event is taken as well, and the other queue stays. */
  lemma {:induction false} TurnDispatches(c: Config, acts: seq<Action>, prio: bool, now: Moment)
    ensures var l, l' := LaneOf(Run(c, acts), prio), LaneOf(Run(c, acts + [RunnerTurn(prio, now)]), prio);
            && (if !l.closed && l.requests != [] then
                  l'.dispatched == l.dispatched + [l.requests[0]] && l'.requests == l.requests[1..]
                else
                  l'.dispatched == l.dispatched && l'.requests == l.requests)
            && l'.closed == l.closed
            && LaneOf(Run(c, acts + [RunnerTurn(prio, now)]), !prio) == LaneOf(Run(c, acts), !prio)
  {
    RunStep(c, acts, RunnerTurn(prio, now));
  }

  /** Turns of the runner of a queue, one after the other. */
  function Turns(prio: bool, nows: seq<Moment>): seq<Action> {
    if nows == [] then [] else Turns(prio, nows[..|nows| - 1]) + [RunnerTurn(prio, nows[|nows| - 1])]
  }

  /** n turns on an open queue dispatch the first n waiting requests, or all if there are fewer. */
  lemma {:induction false} TurnsDispatch(c: Config, acts: seq<Action>, prio: bool, nows: seq<Moment>)
    requires !LaneOf(Run(c, acts), prio).closed
    ensures var l, l' := LaneOf(Run(c, acts), prio), LaneOf(Run(c, acts + Turns(prio, nows)), prio);
            var n := if |nows| < |l.requests| then |nows| else |l.requests|;
            !l'.closed && l'.dispatched == l.dispatched + l.requests[..n] && l'.requests == l.requests[n..]
  {
    var l := LaneOf(Run(c, acts), prio);
    if nows == [] {
      assert acts + [] == acts && l.dispatched + [] == l.dispatched;
    } else {
      var init, now := nows[..|nows| - 1], nows[|nows| - 1];
      TurnsDispatch(c, acts, prio, init);
      Assoc(acts, Turns(prio, init), [RunnerTurn(prio, now)]);
      TurnDispatches(c, acts + Turns(prio, init), prio, now);
      OneMore(l.dispatched, l.requests, if |init| < |l.requests| then |init| else |l.requests|);
    }
  }

  lemma OneMore<T>(a: seq<T>, b: seq<T>, n: nat)
    requires n <= |b|
    ensures n < |b| ==> a + b[..n] + [b[n..][0]] == a + b[..n + 1] && b[n..][1..] == b[n + 1..]
  {
  }

  /** A queue is closed until it is first reopened, and from each close on. */
  predicate ClosedAfter(acts: seq<Action>, prio: bool) {
    if acts == [] then true
    else
      var a := acts[|acts| - 1];
      a.CloseQueues? || (a != Reopen(prio) && ClosedAfter(acts[..|acts| - 1], prio))
  }

  lemma {:induction false} ClosedExact(c: Config, acts: seq<Action>, prio: bool)
    ensures LaneOf(Run(c, acts), prio).closed <==> ClosedAfter(acts, prio)
  {
    if acts != [] {
      ClosedExact(c, acts[..|acts| - 1], prio);
    }
  }

  /** An event asked for: its number among all events asked for, and the time when it is due, in
      nanoseconds. */
  datatype Wish = Wish(id: nat, nanos: int)

  function EventCount(acts: seq<Action>): nat {
    if acts == [] then 0 else EventCount(acts[..|acts| - 1]) + if acts[|acts| - 1].AddEvent? then 1 else 0
  }

  /** The events a run asks a queue for, in order. */
  function Wishes(c: Config, acts: seq<Action>, prio: bool): seq<Wish> {
    if acts == [] then []
    else
      var init, a := acts[..|acts| - 1], acts[|acts| - 1];
      Wishes(c, init, prio)
      + if a.AddEvent? && (c.prioEnabled && a.toPrio) == prio then
          [Wish(EventCount(init),
                (a.clock.sec + a.rel.sec) * NANOS + (a.clock.usec + a.rel.usec) * 1000)]
        else []
  }

  function Granted(es: seq<Event>): (ws: seq<Wish>)
    ensures |ws| == |es| && forall i :: 0 <= i < |es| ==> ws[i] == Wish(es[i].id, Nanos(es[i].due))
  {
    seq(|es|, i requires 0 <= i < |es| => Wish(es[i].id, Nanos(es[i].due)))
  }

  /** Every event asked for is inserted into the queue asked for, with its due time, and nothing else is. */
  lemma {:induction false} EventsAsAsked(c: Config, acts: seq<Action>, prio: bool)
    ensures Granted(LaneOf(Run(c, acts), prio).inserted) == Wishes(c, acts, prio)
    ensures Run(c, acts).nextId == EventCount(acts)
  {
    if acts != [] {
      var init, a := acts[..|acts| - 1], acts[|acts| - 1];
      EventsAsAsked(c, init, prio);
      NextAsAsked(c, Run(c, init), a, prio);
    }
  }

  lemma {:induction false} NextAsAsked(c: Config, s: State, a: Action, prio: bool)
    ensures Granted(LaneOf(Next(c, s, a), prio).inserted)
         == Granted(LaneOf(s, prio).inserted)
            + if a.AddEvent? && (c.prioEnabled && a.toPrio) == prio then
                [Wish(s.nextId, (a.clock.sec + a.rel.sec) * NANOS + (a.clock.usec + a.rel.usec) * 1000)]
              else []
  {
    if a.AddEvent? {
      var e := Event(s.nextId, Due(a.clock.sec, a.clock.usec, a.rel.sec, a.rel.usec));
      GrantedAppend(LaneOf(s, prio).inserted, e);
    }
  }

  lemma GrantedAppend(es: seq<Event>, e: Event)
    ensures Granted(es + [e]) == Granted(es) + [Wish(e.id, Nanos(e.due))]
  {
  }

  /** Over a whole run no event is lost or doubled, and events of equal stamps run in insertion order. */
  lemma {:induction false} EventsConserved(c: Config, acts: seq<Action>, prio: bool)
    requires AllTimed(acts)
    ensures var l := LaneOf(Run(c, acts), prio);
            && multiset(l.inserted) == multiset(l.popped) + multiset(l.events)
            && forall i, j :: 0 <= i < j < |l.popped| && l.popped[i].due == l.popped[j].due ==>
                 l.popped[i].id < l.popped[j].id
  {
    RunOk(c, acts);
  }

  /** The requests of a run that belong to a queue, in order. */
  function Belonging(c: Config, acts: seq<Action>, prio: bool): seq<Request> {
    if acts == [] then []
    else
      var a := acts[|acts| - 1];
      Belonging(c, acts[..|acts| - 1], prio)
      + if a.AddRequest? && (c.prioEnabled && a.r.kind in c.prioRequests) == prio then [a.r] else []
  }

  /** Every accepted request is in exactly one queue, waits or was dispatched there, once and in order of
      arrival; closing and reopening the queues loses and doubles nothing. */
  lemma {:induction false} RequestsConserved(c: Config, acts: seq<Action>, prio: bool)
    ensures var l := LaneOf(Run(c, acts), prio);
            Belonging(c, acts, prio) == l.dispatched + l.requests
  {
    if acts != [] {
      var s, a := Run(c, acts[..|acts| - 1]), acts[|acts| - 1];
      RequestsConserved(c, acts[..|acts| - 1], prio);
      var l := LaneOf(s, prio);
      if a.AddRequest? {
        assert l.dispatched + l.requests + [a.r] == l.dispatched + (l.requests + [a.r]);
      } else if a.RunnerTurn? && l.requests != [] {
        assert l.dispatched + l.requests == l.dispatched + [l.requests[0]] + l.requests[1..];
      }
    }
  }
}
