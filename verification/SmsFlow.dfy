/** Flow control of incoming short messages and status reports: one at a time is passed on, the others
    are held until it is acknowledged. */
module SmsFlow {
  import opened Common
  import opened LinkedFifo

  datatype Kind = Sms | StatusReport

  datatype Pdu = Pdu(kind: Kind, text: string)

  datatype Event = Arrive(kind: Kind, text: string) | Acknowledge

  /** What the upper layer sees. */
  datatype Mark = Delivered(pdu: Pdu) | Acked

  datatype State = State(outstanding: bool, held: seq<Pdu>, log: seq<Mark>)

  const INITIAL: State := State(false, [], [])

  /** The modem leaves out the service centre address of a status report; an empty one is put in. */
  function Received(kind: Kind, text: string): Pdu {
    Pdu(kind, if kind.StatusReport? then "00" + text else text)
  }

  function Step(s: State, e: Event): State {
    match e
    case Arrive(kind, text) =>
      if s.outstanding then s.(held := s.held + [Received(kind, text)])
      else State(true, s.held, s.log + [Delivered(Received(kind, text))])
    case Acknowledge =>
      if s.held == [] then State(false, [], s.log + [Acked])
      else State(s.outstanding, s.held[1..], s.log + [Acked, Delivered(s.held[0])])
  }

  function Run(es: seq<Event>): State {
    if es == [] then INITIAL else Step(Run(es[..|es| - 1]), es[|es| - 1])
  }

  function Arrivals(es: seq<Event>): seq<Pdu> {
    if es == [] then []
    else
      var e := es[|es| - 1];
      Arrivals(es[..|es| - 1]) + if e.Arrive? then [Received(e.kind, e.text)] else []
  }

  function Deliveries(log: seq<Mark>): seq<Pdu> {
    if log == [] then []
    else Deliveries(log[..|log| - 1]) + if log[|log| - 1].Delivered? then [log[|log| - 1].pdu] else []
  }

  /** An acknowledge stands between any two deliveries. */
  ghost predicate Alternating(log: seq<Mark>) {
    forall i, j :: 0 <= i < j < |log| && log[i].Delivered? && log[j].Delivered? ==>
      exists k :: i < k < j && log[k].Acked?
  }

  lemma {:induction false} DeliveriesAppend(log: seq<Mark>, m: Mark)
    ensures Deliveries(log + [m]) == Deliveries(log) + if m.Delivered? then [m.pdu] else []
  {
    assert (log + [m])[..|log|] == log;
  }

  /** The last delivery has been acknowledged. */
  ghost predicate Quiet(log: seq<Mark>) {
    forall i :: 0 <= i < |log| && log[i].Delivered? ==> exists k :: i < k < |log| && log[k].Acked?
  }

  lemma {:induction false} DeliverAfterQuiet(log: seq<Mark>, pdu: Pdu)
    requires Alternating(log) && Quiet(log)
    ensures Alternating(log + [Delivered(pdu)])
  {
    var log' := log + [Delivered(pdu)];
    forall i, j | 0 <= i < j < |log'| && log'[i].Delivered? && log'[j].Delivered?
      ensures exists k :: i < k < j && log'[k].Acked?
    {
      if j < |log| {
        var k :| i < k < j && log[k].Acked?;
        assert log'[k].Acked?;
      } else {
        var k :| i < k < |log| && log[k].Acked?;
        assert log'[k].Acked?;
      }
    }
  }

  lemma {:induction false} AckMakesQuiet(log: seq<Mark>)
    requires Alternating(log)
    ensures Alternating(log + [Acked]) && Quiet(log + [Acked])
  {
    var log' := log + [Acked];
    assert log'[|log|].Acked?;
    forall i, j | 0 <= i < j < |log'| && log'[i].Delivered? && log'[j].Delivered?
      ensures exists k :: i < k < j && log'[k].Acked?
    {
      var k :| i < k < j && log[k].Acked?;
      assert log'[k].Acked?;
    }
  }

  ghost predicate FlowOk(arrivals: seq<Pdu>, s: State) {
    && arrivals == Deliveries(s.log) + s.held
    && (s.held != [] ==> s.outstanding)
    && (s.outstanding <==> !Quiet(s.log))
    && Alternating(s.log)
  }

  /** A delivery without an acknowledge behind it. */
  lemma {:induction false} DeliveryWaits(log: seq<Mark>, pdu: Pdu)
    ensures !Quiet(log + [Delivered(pdu)])
  {
    var log' := log + [Delivered(pdu)];
    assert log'[|log|].Delivered?;
  }

  lemma {:induction false} ArriveFlow(arrivals: seq<Pdu>, s: State, kind: Kind, text: string)
    requires FlowOk(arrivals, s)
    ensures FlowOk(arrivals + [Received(kind, text)], Step(s, Arrive(kind, text)))
  {
    var pdu := Received(kind, text);
    if s.outstanding {
      Assoc(Deliveries(s.log), s.held, [pdu]);
    } else {
      ArriveDelivers(s.log, arrivals, pdu);
      assert s.held == [];
    }
  }

  lemma {:induction false} ArriveDelivers(log: seq<Mark>, arrivals: seq<Pdu>, pdu: Pdu)
    requires arrivals == Deliveries(log) + [] && Quiet(log) && Alternating(log)
    ensures var log' := log + [Delivered(pdu)];
            arrivals + [pdu] == Deliveries(log') + [] && !Quiet(log') && Alternating(log')
  {
    DeliveriesAppend(log, Delivered(pdu));
    DeliverAfterQuiet(log, pdu);
    DeliveryWaits(log, pdu);
  }

  lemma {:induction false} AckFlow(arrivals: seq<Pdu>, s: State)
    requires FlowOk(arrivals, s)
    ensures FlowOk(arrivals, Step(s, Acknowledge))
  {
    AckMakesQuiet(s.log);
    DeliveriesAppend(s.log, Acked);
    if s.held != [] {
      AckDelivers(s.log + [Acked], s.log, s.held, arrivals);
    }
  }

  /** Behind the acknowledge the first held one is delivered. */
  lemma {:induction false} AckDelivers(acked: seq<Mark>, log: seq<Mark>, held: seq<Pdu>, arrivals: seq<Pdu>)
    requires acked == log + [Acked] && Alternating(acked) && Quiet(acked) && held != []
    requires arrivals == Deliveries(acked) + held
    ensures var log' := log + [Acked, Delivered(held[0])];
            arrivals == Deliveries(log') + held[1..] && !Quiet(log') && Alternating(log')
  {
    assert acked + [Delivered(held[0])] == log + [Acked, Delivered(held[0])];
    DeliverAfterQuiet(acked, held[0]);
    DeliveryWaits(acked, held[0]);
    DeliveriesAppend(acked, Delivered(held[0]));
    assert held == [held[0]] + held[1..];
    Assoc(Deliveries(acked), [held[0]], held[1..]);
  }

  /** Flow control, in every reachable state: arrivals are delivered and held ones, in order and of the
      kind they arrived with; something is held only while an acknowledge is outstanding, which it is
      exactly while a delivery has no acknowledge behind it; and between any two deliveries there is an
      acknowledge. */
  lemma {:induction false} FlowControl(es: seq<Event>)
    ensures var s := Run(es);
            && Arrivals(es) == Deliveries(s.log) + s.held
            && (s.held != [] ==> s.outstanding)
            && (s.outstanding <==> !Quiet(s.log))
            && Alternating(s.log)
  {
    RunFlow(es);
  }

  /** What reaches the upper layer in a run. */
  function Log(es: seq<Event>): seq<Mark> {
    Run(es).log
  }

  /** An arrival is passed on at once, a status report with an empty service centre address in front, if
      and only if every earlier delivery has been acknowledged; else it waits. */
  lemma {:induction false} DeliveredAtOnce(es: seq<Event>, kind: Kind, text: string)
    ensures Log(es + [Arrive(kind, text)]) == Log(es)
            + if Quiet(Log(es)) then [Delivered(Pdu(kind, if kind.StatusReport? then "00" + text else text))] else []
  {
    RunFlow(es);
    assert (es + [Arrive(kind, text)])[..|es|] == es;
    assert Log(es) + [] == Log(es);
  }

  /** An acknowledge passes on the first arrival not yet delivered, if and only if there is one; without
      one, the next arrival is passed on at once. */
  lemma {:induction false} AcknowledgeDelivers(es: seq<Event>)
    ensures var n, log := |Deliveries(Log(es))|, Log(es + [Acknowledge]);
            && n <= |Arrivals(es)|
            && log == Log(es) + [Acked] + (if n < |Arrivals(es)| then [Delivered(Arrivals(es)[n])] else [])
            && (Quiet(log) <==> n == |Arrivals(es)|)
  {
    var s, log := Run(es), Log(es + [Acknowledge]);
    RunFlow(es);
    RunFlow(es + [Acknowledge]);
    assert (es + [Acknowledge])[..|es|] == es;
    if s.held == [] {
      assert log == s.log + [Acked] == s.log + [Acked] + [];
    } else {
      assert Arrivals(es)[|Deliveries(s.log)|] == s.held[0];
      assert log == s.log + [Acked, Delivered(s.held[0])] == s.log + [Acked] + [Delivered(s.held[0])];
    }
  }

  lemma ArrivalsAppend(es: seq<Event>, e: Event)
    ensures Arrivals(es + [e])
         == Arrivals(es)
            + if e.Arrive? then [Pdu(e.kind, if e.kind.StatusReport? then "00" + e.text else e.text)] else []
  {
    assert (es + [e])[..|es|] == es;
  }

  lemma {:induction false} RunFlow(es: seq<Event>)
    ensures FlowOk(Arrivals(es), Run(es))
  {
    if es != [] {
      var init, e := es[..|es| - 1], es[|es| - 1];
      RunFlow(init);
      if e.Arrive? {
        ArriveFlow(Arrivals(init), Run(init), e.kind, e.text);
      } else {
        AckFlow(Arrivals(init), Run(init));
        assert Arrivals(init) + [] == Arrivals(init);
      }
    }
  }

  /** The driver's variables. */
  class Gate {
    var outstandingAcknowledge: bool
    const heldPdus: Fifo<Pdu>
    var log: seq<Mark>

    ghost predicate Valid()
      reads this, heldPdus, heldPdus.nodes
    {
      heldPdus.Valid()
    }

    ghost function Value(): State
      reads this, heldPdus
    {
      State(outstandingAcknowledge, heldPdus.Contents(), log)
    }

    constructor ()
      ensures Valid() && Value() == INITIAL
    {
      outstandingAcknowledge, log := false, [];
      heldPdus := new Fifo();
    }

    method OnNewSms(text: string)
      requires Valid()
      modifies this, heldPdus, heldPdus.nodes
      ensures Valid() && Value() == Step(old(Value()), Arrive(Sms, text))
    {
      if outstandingAcknowledge {
        heldPdus.Append(Pdu(Sms, text));
      } else {
        outstandingAcknowledge := true;
        log := log + [Delivered(Pdu(Sms, text))];
      }
    }

    method OnNewStatusReport(text: string)
      requires Valid()
      modifies this, heldPdus, heldPdus.nodes
      ensures Valid() && Value() == Step(old(Value()), Arrive(StatusReport, text))
    {
      var response := "00" + text;
      if outstandingAcknowledge {
        heldPdus.Append(Pdu(StatusReport, response));
      } else {
        outstandingAcknowledge := true;
        log := log + [Delivered(Pdu(StatusReport, response))];
      }
    }

    method RequestSmsAcknowledge()
      requires Valid()
      modifies this, heldPdus, heldPdus.nodes
      ensures Valid() && Value() == Step(old(Value()), Acknowledge)
    {
      log := log + [Acked];
      var pdu := heldPdus.Take();
      if pdu.Some? {
        log := log + [Delivered(pdu.value)];
      } else {
        outstandingAcknowledge := false;
      }
    }
  }
}
