/** Wake-ups and failures of the line reader: neither touches what has been read. */
module AtFailures {
  import opened Common
  import opened AtFraming

  // ---------------------------------------------------------------- wake-ups

  /** The script without its wake-ups. */
  function Undisturbed(es: seq<Event>): seq<Event> {
    if es == [] then [] else (if es[0].Wakeup? then [] else [es[0]]) + Undisturbed(es[1..])
  }

  function UndisturbedEnd(o: Outcome): Outcome {
    match o
    case Line(text, rest, events) => Line(text, rest, Undisturbed(events))
    case Prompt(events) => Prompt(Undisturbed(events))
    case Null(rest, events) => Null(rest, Undisturbed(events))
  }

  function UndisturbedResult(r: (Outcome, Log)): (Outcome, Log) {
    (UndisturbedEnd(r.0), r.1)
  }

  lemma UndisturbedFirst(e: Event, es: seq<Event>)
    ensures Undisturbed([e] + es) == (if e.Wakeup? then [] else [e]) + Undisturbed(es)
  {
    assert ([e] + es)[1..] == es;
  }

  lemma {:induction false} ReceiveUndisturbed(used: nat, es: seq<Event>)
    requires used < MAX_RESPONSE && es != [] && es[0].Data? && es[0].s != ""
    ensures var us := Undisturbed(es);
            && us != [] && us[0] == es[0]
            && Receive(used, us) == (Receive(used, es).0, Undisturbed(Receive(used, es).1))
  {
    assert Undisturbed(es) == [es[0]] + Undisturbed(es[1..]);
    assert ([es[0]] + Undisturbed(es[1..]))[1..] == Undisturbed(es[1..]);
    if |es[0].s| > MAX_RESPONSE - used {
      UndisturbedFirst(Data(es[0].s[MAX_RESPONSE - used..]), es[1..]);
    }
  }

  lemma {:induction false} FillUndisturbed(t: string, used: nat, es: seq<Event>)
    requires |t| <= used <= MAX_RESPONSE
    ensures Fill(t, used, Undisturbed(es)) == UndisturbedResult(Fill(t, used, es))
    decreases Size(es), 1
  {
    if used == MAX_RESPONSE {
      RoomUndisturbed("", 0, es);
    } else {
      RoomUndisturbed(t, used, es);
    }
  }

  lemma {:induction false} RoomUndisturbed(t: string, used: nat, es: seq<Event>)
    requires |t| <= used < MAX_RESPONSE
    ensures FillRoom(t, used, Undisturbed(es)) == UndisturbedResult(FillRoom(t, used, es))
    decreases Size(es), 0
  {
    if es != [] {
      if es[0].Wakeup? {
        assert Undisturbed(es) == Undisturbed(es[1..]);
        FillUndisturbed(t, used, es[1..]);
      } else if es[0].Failed? || es[0].s == "" {
        assert Undisturbed(es)[1..] == Undisturbed(es[1..]);
      } else {
        ReceiveUndisturbed(used, es);
        var (s, later) := Receive(used, es);
        ReadUndisturbed(t, used, s, later);
      }
    }
  }

  lemma {:induction false} ReadUndisturbed(t: string, used: nat, s: string, later: seq<Event>)
    requires |t| <= used && used + |s| <= MAX_RESPONSE && s != ""
    ensures AfterRead(t, used, s, Undisturbed(later)) == UndisturbedResult(AfterRead(t, used, s, later))
    decreases Size(later), 2
  {
    if Find(Strip(t + s), later).None? {
      FillUndisturbed(Strip(t + s), used + |s|, later);
    }
  }

  /** A wake-up changes nothing: a call gives the same line, or prompt, or NULL, leaves the same text
      buffered and has read and lost the same without it. */
  lemma {:induction false} WakeupsIgnored(rest: string, es: seq<Event>)
    requires |rest| <= MAX_RESPONSE
    ensures Readline(rest, Undisturbed(es)) == UndisturbedResult(Readline(rest, es))
  {
    FillUndisturbed(Strip(rest), |Strip(rest)|, es);
  }

  // ---------------------------------------------------------------- failures

  /** A failed or closed channel, or the end of the input. */
  predicate Failing(e: Event) {
    e.Failed? || e == Data("")
  }

  predicate Smooth(es: seq<Event>) {
    forall i :: 0 <= i < |es| ==> !Failing(es[i])
  }

  /** How a call that ended as o goes when a failure and `later` follow. */
  function Interrupted(o: Outcome, e: Event, later: seq<Event>): Outcome {
    match o
    case Line(text, rest, events) => Line(text, rest, events + [e] + later)
    case Prompt(events) => Prompt(events + [e] + later)
    case Null(rest, _) => Null(rest, later)
  }

  function InterruptedResult(r: (Outcome, Log), e: Event, later: seq<Event>): (Outcome, Log) {
    (Interrupted(r.0, e, later), r.1)
  }

  lemma {:induction false} ReceiveFront(used: nat, es: seq<Event>, tail: seq<Event>)
    requires used < MAX_RESPONSE && es != [] && es[0].Data? && es[0].s != "" && Smooth(es)
    ensures Receive(used, es + tail) == (Receive(used, es).0, Receive(used, es).1 + tail)
    ensures Smooth(Receive(used, es).1)
  {
    assert (es + tail)[1..] == es[1..] + tail;
    if |es[0].s| > MAX_RESPONSE - used {
      Assoc([Data(es[0].s[MAX_RESPONSE - used..])], es[1..], tail);
    }
  }

  lemma {:induction false} FillInterrupted(t: string, used: nat, es: seq<Event>, e: Event, later: seq<Event>)
    requires |t| <= used <= MAX_RESPONSE && Smooth(es) && Failing(e)
    ensures Fill(t, used, es + ([e] + later)) == InterruptedResult(Fill(t, used, es), e, later)
    decreases Size(es), 1
  {
    if used == MAX_RESPONSE {
      RoomInterrupted("", 0, es, e, later);
    } else {
      RoomInterrupted(t, used, es, e, later);
    }
  }

  lemma {:induction false} RoomInterrupted(t: string, used: nat, es: seq<Event>, e: Event, later: seq<Event>)
    requires |t| <= used < MAX_RESPONSE && Smooth(es) && Failing(e)
    ensures FillRoom(t, used, es + ([e] + later)) == InterruptedResult(FillRoom(t, used, es), e, later)
    decreases Size(es), 0
  {
    var tail := [e] + later;
    if es == [] {
      assert es + tail == tail && tail[1..] == later;
    } else if es[0].Wakeup? {
      assert (es + tail)[1..] == es[1..] + tail;
      FillInterrupted(t, used, es[1..], e, later);
    } else {
      assert !Failing(es[0]);
      ReceiveFront(used, es, tail);
      var (s, more) := Receive(used, es);
      ReadInterrupted(t, used, s, more, e, later);
    }
  }

  lemma {:induction false} ReadInterrupted(t: string, used: nat, s: string, more: seq<Event>, e: Event,
                                           later: seq<Event>)
    requires |t| <= used && used + |s| <= MAX_RESPONSE && s != "" && Smooth(more) && Failing(e)
    ensures AfterRead(t, used, s, more + ([e] + later)) == InterruptedResult(AfterRead(t, used, s, more), e, later)
    decreases Size(more), 2
  {
    FindInterrupted(Strip(t + s), more, e, later);
    if Find(Strip(t + s), more).None? {
      FillInterrupted(Strip(t + s), used + |s|, more, e, later);
    }
  }

  lemma FindInterrupted(t: string, es: seq<Event>, e: Event, later: seq<Event>)
    ensures Find(t, es + ([e] + later)) ==
            if Find(t, es).Some? then Some(Interrupted(Find(t, es).value, e, later)) else None
  {
    Assoc(es, [e], later);
  }

  /** A failure: the line or prompt in front of it is returned as if it were not there, and without one the
      call ends with NULL at the failure, with the text read so far still buffered and nothing behind the
      failure read. */
  lemma {:induction false} FailureEndsCall(rest: string, es: seq<Event>, e: Event, later: seq<Event>)
    requires |rest| <= MAX_RESPONSE && Smooth(es) && Failing(e)
    ensures Readline(rest, es + ([e] + later)) == InterruptedResult(Readline(rest, es), e, later)
  {
    FindInterrupted(Strip(rest), es, e, later);
    FillInterrupted(Strip(rest), |Strip(rest)|, es, e, later);
  }

  /** With nothing to read and no line buffered a call returns NULL and keeps the text. */
  lemma {:induction false} NothingToRead(rest: string, e: Event, later: seq<Event>)
    requires |rest| < MAX_RESPONSE && EolIndex(rest) == |rest| && rest != PROMPT && Failing(e)
    ensures Readline(rest, [e] + later) == (Null(rest, later), Log("", ""))
  {
    var es := [e] + later;
    assert es[0] == e && es[1..] == later;
    assert Strip(rest) == rest && Find(rest, es).None?;
    assert FillRoom(rest, |rest|, es) == (Null(rest, later), Log("", ""));
    assert Fill(rest, |rest|, es) == (Null(rest, later), Log("", ""));
  }
}
