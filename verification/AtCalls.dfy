/** What a reader of the log sees of an AT channel: where every line goes, how every call ends, and how many
    attempts a handshake makes, told by the lines read and written and not by the state of the channel. */
module AtCalls {
  import opened Common
  import opened AtRouting
  import opened AtProtocol
  import opened AtProtocolProofs

  // ---------------------------------------------------------------- lines

  /** The final responses that mean success, and those that mean an error. */
  predicate Succeeds(line: string) {
    "OK" <= line || "CONNECT" <= line
  }

  predicate Fails(line: string) {
    || "ERROR" <= line || "+CMS ERROR:" <= line || "+CME ERROR:" <= line
    || "NO CARRIER" <= line || "NO ANSWER" <= line || "NO DIALTONE" <= line
  }

  /** The line is a result of a call's type. */
  predicate Result(call: Call, line: string) {
    match call.ctype
    case NoResult => false
    case Numeric => line != "" && '0' <= line[0] <= '9'
    case SingleLine => call.prefix <= line
    case MultiLine => call.prefix <= line
  }

  lemma {:induction false} FinalLines(line: string)
    ensures IsFinalSuccess(line) <==> Succeeds(line)
    ensures IsFinal(line) <==> Succeeds(line) || Fails(line)
  {
    SuccessLines(line);
    ErrorLines(line);
  }

  lemma {:induction false} SuccessLines(line: string)
    ensures IsFinalSuccess(line) <==> Succeeds(line)
  {
    assert FINAL_SUCCESSES[0] == "OK" && FINAL_SUCCESSES[1] == "CONNECT";
  }

  lemma {:induction false} ErrorLines(line: string)
    ensures IsFinalError(line) <==> Fails(line)
  {
    var e := FINAL_ERRORS;
    assert e[0] == "ERROR" && e[1] == "+CMS ERROR:" && e[2] == "+CME ERROR:";
    assert e[3] == "NO CARRIER" && e[4] == "NO ANSWER" && e[5] == "NO DIALTONE";
  }

  /** No line is a success and an error, and the prompt is neither. */
  lemma ClassesApart(line: string)
    ensures !(Succeeds(line) && Fails(line))
    ensures !Succeeds("> ") && !Fails("> ")
  {
    FirstCharacter(line);
    FirstCharacter("> ");
  }

  lemma FirstCharacter(line: string)
    ensures Succeeds(line) ==> line != "" && (line[0] == 'O' || line[0] == 'C')
    ensures Fails(line) ==> line != "" && (line[0] == 'E' || line[0] == '+' || line[0] == 'N')
  {
    assert "OK"[0] == 'O' && "CONNECT"[0] == 'C';
    assert "ERROR"[0] == 'E' && "+CMS ERROR:"[0] == '+' && "+CME ERROR:"[0] == '+';
    assert "NO CARRIER"[0] == 'N' && "NO ANSWER"[0] == 'N' && "NO DIALTONE"[0] == 'N';
  }

  /** Where a line goes while a call is pending, by what has been routed to it before. */
  ghost function Goes(call: Call, id: nat, share: Share, line: string, written: bool): Dest {
    if Succeeds(line) || Fails(line) then ToFinal(id)
    else if call.sms.Some? && share.answered == [] && share.refused == [] && line == "> " then ToPrompt(id, written)
    else if Result(call, line) && (call.ctype.MultiLine? || share.list == []) then ToList(id)
    else ToUnsolicited
  }

  /** Every line: without a pending call it is unsolicited.  With one it is the final response if it starts
      like one; the prompt, if the call has a PDU and no prompt has come; an intermediate line, if it is a
      result of the call's type and none has come yet or several may; and otherwise unsolicited. */
  lemma {:induction false} LineGoesWhere(ss: seq<State>, acts: seq<Action>, i: nat)
    requires Run(ss, acts) && i < |acts| && acts[i].ReadLine?
    ensures var s, a := ss[i], acts[i];
            var d := if s.current.None? then ToUnsolicited
                     else Goes(s.current.value.call, s.current.value.id,
                               ShareOf(s.lines, s.sent, s.current.value.id), a.line, a.write == NoError);
            ss[i + 1].lines == s.lines + [Entry(a.line, d)]
  {
    Reachable(ss, acts, i);
    var s, a := ss[i], acts[i];
    DeliverChanges(s, a.line, a.wake, a.write);
    if s.current.Some? {
      RouteByHistory(s.current.value, ShareOf(s.lines, s.sent, s.current.value.id), a.line, a.write);
    }
  }

  lemma {:induction false} RouteByHistory(c: Current, share: Share, line: string, write: Error)
    requires CommandOk(share, c)
    ensures DestOf(c, line, write) == Goes(c.call, c.id, share, line, write == NoError)
  {
    FinalLines(line);
  }

  // ---------------------------------------------------------------- how calls end

  /** The answer that was collected for a call. */
  function Answer(share: Share): Response {
    var final := Last(share.finals);
    Response(final.Some? && Succeeds(final.value), final, share.list)
  }

  /** The call that a step ends, and how.  A wake-up with a timeout ends it with that error; one on a closed
      channel with the channel's, one behind a final line with success, both with the answer if it is
      wanted.  A thread that finds the channel free but cannot write ends with the error of the write. */
  ghost function Ending(s: State, a: Action): Option<Done>
    requires Enabled(s, a)
  {
    if a.WakeCommand? then
      var call, id := s.threads[a.tid].call, s.threads[a.tid].id;
      var share := ShareOf(s.lines, s.sent, id);
      var answer := if call.wantsResponse then Some(Answer(share)) else None;
      if a.timedOut then Some(Done(a.tid, call, Some(id), Timeout, None))
      else if s.closed then Some(Done(a.tid, call, Some(id), ChannelClosed, answer))
      else if share.finals != [] then Some(Done(a.tid, call, Some(id), NoError, answer))
      else None
    else if (a.Lock? || a.WakeRequest? || a.NextAttempt?) && s.owner.None? && a.write != NoError then
      Some(Done(a.tid, s.threads[a.tid].call, None, a.write, None))
    else None
  }

  /** Every step ends exactly the call that it ends by the lines and writes so far, as told there. */
  lemma {:induction false} CallEnds(ss: seq<State>, acts: seq<Action>, i: nat)
    requires Run(ss, acts) && i < |acts|
    ensures Enabled(ss[i], acts[i])
    ensures ss[i + 1].done == ss[i].done + OptSeq(Ending(ss[i], acts[i]))
  {
    Reachable(ss, acts, i);
    NextEnds(ss[i], acts[i]);
  }

  lemma {:induction false} NextEnds(s: State, a: Action)
    requires Inv(s) && History(s) && Enabled(s, a)
    ensures Next(s, a).done == s.done + OptSeq(Ending(s, a))
  {
    if a.WakeCommand? {
      WakeEnds(s, a.tid, a.timedOut);
    } else if a.Lock? || a.WakeRequest? || a.NextAttempt? {
      TryEnds(s, a.tid, s.threads[a.tid].call, a.write);
    } else {
      NothingEnds(s, a);
    }
  }

  lemma {:induction false} NothingEnds(s: State, a: Action)
    requires Inv(s) && Enabled(s, a) && (a.Issue? || a.Unlock? || a.ReadLine? || a.Close?)
    ensures Next(s, a).done == s.done
  {
    if a.ReadLine? {
      DeliverChanges(s, a.line, a.wake, a.write);
    }
  }

  lemma {:induction false} TryEnds(s: State, t: Tid, call: Call, write: Error)
    requires Inv(s)
    ensures TryRequest(s, t, call, write).done ==
            s.done + if s.owner.None? && write != NoError then [Done(t, call, None, write, None)] else []
  {
    assert s.done + [] == s.done;
  }

  lemma {:induction false} AnswerHanded(share: Share, c: Current)
    requires CommandOk(share, c)
    ensures Handed(c.command.response) == Answer(share)
    ensures c.command.response.final.Some? <==> share.finals != []
  {
    if share.finals != [] {
      FinalLines(share.finals[|share.finals| - 1]);
    }
  }

  lemma {:induction false} WakeEnds(s: State, t: Tid, timedOut: bool)
    requires Inv(s) && History(s) && Enabled(s, WakeCommand(t, timedOut))
    ensures Resume(s, t, timedOut).done == s.done + OptSeq(Ending(s, WakeCommand(t, timedOut)))
  {
    assert s.owner == Some(t) && s.current.value.id == s.threads[t].id;
    AnswerHanded(ShareOf(s.lines, s.sent, s.current.value.id), s.current.value);
    assert s.done + [] == s.done;
  }

  /** A call ends with success exactly in a wake-up without a timeout, on an open channel, behind a final
      line that was routed to it. */
  lemma {:induction false} SucceedsExactly(ss: seq<State>, acts: seq<Action>, i: nat)
    requires Run(ss, acts) && i < |acts|
    ensures (exists d :: ss[i + 1].done == ss[i].done + [d] && d.error == NoError) <==>
            && acts[i].WakeCommand? && !acts[i].timedOut && !ss[i].closed
            && acts[i].tid in ss[i].threads && ss[i].threads[acts[i].tid].WaitCommand?
            && RoutedTo(ss[i].lines, ToFinal(ss[i].threads[acts[i].tid].id)) != []
  {
    CallEnds(ss, acts, i);
    var e := Ending(ss[i], acts[i]);
    if d :| ss[i + 1].done == ss[i].done + [d] && d.error == NoError {
      LastOf(ss[i].done, OptSeq(e), d);
    }
    if e.Some? && e.value.error == NoError {
      assert ss[i + 1].done == ss[i].done + [e.value];
    }
  }

  lemma LastOf<T>(a: seq<T>, b: seq<T>, x: T)
    requires a + b == a + [x]
    ensures b == [x]
  {
    assert (a + b)[|a|..] == b && (a + [x])[|a|..] == [x];
  }

  /** The channel is closed from the first close on. */
  lemma {:induction false} ClosedByClose(ss: seq<State>, acts: seq<Action>, i: nat)
    requires Run(ss, acts) && i < |acts|
    ensures ss[i + 1].closed <==> ss[i].closed || acts[i].Close?
  {
    Reachable(ss, acts, i);
    NextClosed(ss[i], acts[i]);
  }

  lemma {:induction false} NextClosed(s: State, a: Action)
    requires Inv(s) && Enabled(s, a)
    ensures Next(s, a).closed <==> s.closed || a.Close?
  {
    if a.Lock? || a.WakeRequest? || a.NextAttempt? {
      TryRequestPutsOut(s, a.tid, s.threads[a.tid].call, a.write);
    }
  }

  /** What the wrappers for single-line, numeric and SMS commands turn into an error: a success without an
      intermediate line, for a caller that asks for the response. */
  predicate Empty(call: Call, share: Share) {
    && call.wantsResponse && (call.ctype.SingleLine? || call.ctype.Numeric?)
    && share.finals != [] && Succeeds(share.finals[|share.finals| - 1]) && share.list == []
  }

  /** The error of a finished call is passed on, but for such a success, which is an invalid response. */
  lemma {:induction false} ReturnsError(ss: seq<State>, acts: seq<Action>, i: nat, d: Done)
    requires Run(ss, acts) && i < |ss| && d in ss[i].done
    ensures Returned(d).0 ==
            if d.error == NoError && d.id.Some? && Empty(d.call, ShareOf(ss[i].lines, ss[i].sent, d.id.value))
            then InvalidResponse else d.error
  {
    Reachable(ss, acts, i);
    assert DoneOk(ss[i].lines, ss[i].sent, ss[i].nextId, Number(ss[i]), d);
    if d.error == NoError && d.call.wantsResponse {
      ReturnsByShare(ShareOf(ss[i].lines, ss[i].sent, d.id.value), d);
    }
  }

  lemma {:induction false} ReturnsByShare(share: Share, d: Done)
    requires d.error == NoError && d.call.wantsResponse && d.out.Some? && Faithful(share, d.call, d.out.value)
    requires d.out.value.final.Some?
    ensures Returned(d).0 == if Empty(d.call, share) then InvalidResponse else NoError
  {
    assert share.finals != [];
    FinalLines(share.finals[|share.finals| - 1]);
  }
}
