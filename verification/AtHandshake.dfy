/** A call from its issue to its end: the attempts of a handshake, and what an ordinary call leaves behind. */
module AtHandshake {
  import opened Common
  import opened AtRouting
  import opened AtProtocol
  import opened AtProtocolProofs

  /** The calls a thread has finished, in order. */
  function CallsOf(ds: seq<Done>, t: Tid): seq<Done> {
    if ds == [] then []
    else CallsOf(ds[..|ds| - 1], t) + if ds[|ds| - 1].tid == t then [ds[|ds| - 1]] else []
  }

  lemma CallsAppend(ds: seq<Done>, d: Done, t: Tid)
    ensures CallsOf(ds + [d], t) == CallsOf(ds, t) + if d.tid == t then [d] else []
  {
    assert (ds + [d])[..|ds|] == ds;
  }

  // ---------------------------------------------------------------- attempts

  /** ds are the attempts made of a call; each has one attempt less left than the one in front. */
  ghost predicate Attempts(call: Call, ds: seq<Done>) {
    && (forall k :: 0 <= k < |ds| ==> ds[k].call == call.(attempts := ds[k].call.attempts))
    && (forall k :: 0 <= k < |ds| ==> ds[k].call.attempts + k == call.attempts)
    && (forall k :: 0 <= k < |ds| - 1 ==> ds[k].error != NoError)
  }

  ghost predicate LastFailed(ds: seq<Done>) {
    ds != [] ==> ds[|ds| - 1].error != NoError
  }

  /** The call that is under way after the attempts ds. */
  ghost predicate UnderWay(call: Call, c: Call, ds: seq<Done>) {
    && Attempts(call, ds) && LastFailed(ds)
    && c == call.(attempts := c.attempts) && c.attempts + |ds| == call.attempts
    && (ds != [] ==> |ds| < call.attempts)
  }

  /** A call that is over: an ordinary one after one attempt, a handshake after its first success or when all
      its attempts have failed. */
  ghost predicate Over(call: Call, ds: seq<Done>) {
    && Attempts(call, ds) && ds != []
    && (if call.attempts == 0 then |ds| == 1
        else |ds| <= call.attempts && (ds[|ds| - 1].error == NoError || |ds| == call.attempts))
  }

  /** Where the thread is that has issued the call and has made the attempts ds. */
  ghost predicate Progress(pc: Pc, call: Call, ds: seq<Done>) {
    match pc
    case Idle => Over(call, ds)
    case WaitMutex(c) => ds == [] && c == call
    case WaitRequest(c, _) => UnderWay(call, c, ds)
    case WaitCommand(c, _, _) => UnderWay(call, c, ds)
    case Retry(c) => UnderWay(call, c, ds) && ds != []
    case Asleep => Over(call, ds) && call.attempts > 0 && ds[|ds| - 1].error == NoError
  }

  // ---------------------------------------------------------------- one step

  lemma {:induction false} AttemptEnds(call: Call, c: Call, ds: seq<Done>, d: Done)
    requires UnderWay(call, c, ds) && d.call == c
    ensures Progress(After(c, d.error), call, ds + [d])
  {
    var es := ds + [d];
    assert forall k :: 0 <= k < |ds| ==> es[k] == ds[k];
    if c.attempts == 0 {
      assert ds == [];
    }
  }

  /** The thread after its own step, and the attempts the step ends. */
  ghost predicate Moves(s: State, s': State, t: Tid, call: Call, ds: seq<Done>) {
    && t in s'.threads
    && (if s'.done == s.done then Progress(s'.threads[t], call, ds)
        else |s'.done| == |s.done| + 1 && s'.done[..|s.done|] == s.done && s'.done[|s.done|].tid == t
             && Progress(s'.threads[t], call, ds + [s'.done[|s.done|]]))
  }

  lemma {:induction false} FinishMoves(s0: State, s: State, t: Tid, c: Call, id: Option<nat>, error: Error,
                                       out: Option<Response>, call: Call, ds: seq<Done>)
    requires s.done == s0.done && t in s.threads && UnderWay(call, c, ds)
    ensures Moves(s0, Finish(s, t, c, id, error, out), t, call, ds)
  {
    AttemptEnds(call, c, ds, Done(t, c, id, error, out));
    assert (s.done + [Done(t, c, id, error, out)])[..|s.done|] == s.done;
  }

  lemma {:induction false} TryMoves(s: State, t: Tid, write: Error, call: Call, ds: seq<Done>)
    requires Inv(s) && t in s.threads && WriteResult(s, write)
    requires s.threads[t].WaitMutex? || s.threads[t].WaitRequest? || s.threads[t].Retry?
    requires Progress(s.threads[t], call, ds)
    ensures Moves(s, TryRequest(s, t, s.threads[t].call, write), t, call, ds)
  {
    if s.owner.None? && write != NoError {
      FinishMoves(s, s.(owner := Some(t)), t, s.threads[t].call, None, write, None, call, ds);
    }
  }

  lemma {:induction false} ResumeMoves(s: State, t: Tid, timedOut: bool, call: Call, ds: seq<Done>)
    requires Inv(s) && t in s.threads && s.threads[t].WaitCommand? && Progress(s.threads[t], call, ds)
    ensures Moves(s, Resume(s, t, timedOut), t, call, ds)
  {
    var pc, c := s.threads[t], s.current.value;
    if timedOut {
      FinishMoves(s, s, t, pc.call, Some(pc.id), Timeout, None, call, ds);
    } else if c.command.response.final.Some? || s.closed {
      var d := Completed(s, t);
      FinishMoves(s, Taken(s, t), t, pc.call, Some(pc.id), d.error, d.out, call, ds);
      ResumeCompletes(s, t);
    }
  }

  /** The thread whose step it is. */
  predicate Own(a: Action, t: Tid) {
    !a.ReadLine? && !a.Close? && a.tid == t
  }

  lemma {:induction false} OwnStep(s: State, a: Action, t: Tid, call: Call, ds: seq<Done>)
    requires Inv(s) && Enabled(s, a) && Own(a, t) && !a.Issue? && t in s.threads && Progress(s.threads[t], call, ds)
    ensures Moves(s, Next(s, a), t, call, ds)
  {
    if a.WakeCommand? {
      ResumeMoves(s, t, a.timedOut, call, ds);
    } else if !a.Unlock? {
      TryMoves(s, t, a.write, call, ds);
    }
  }

  /** The same place, but for a signal. */
  ghost predicate Stays(pc: Pc, pc': Pc) {
    match pc
    case WaitRequest(c, _) => pc'.WaitRequest? && pc'.call == c
    case WaitCommand(c, id, _) => pc'.WaitCommand? && pc'.call == c && pc'.id == id
    case _ => pc' == pc
  }

  ghost predicate Untouched(s: State, s': State, t: Tid) {
    && t in s.threads && t in s'.threads && Stays(s.threads[t], s'.threads[t])
    && (s'.done == s.done
        || (|s'.done| == |s.done| + 1 && s'.done[..|s.done|] == s.done && s'.done[|s.done|].tid != t))
  }

  lemma {:induction false} FinishLeaves(s: State, u: Tid, c: Call, id: Option<nat>, error: Error, out: Option<Response>,
                                        t: Tid)
    requires t in s.threads && t != u
    ensures var s' := Finish(s, u, c, id, error, out);
            && t in s'.threads && Stays(s.threads[t], s'.threads[t])
            && |s'.done| == |s.done| + 1 && s'.done[..|s.done|] == s.done && s'.done[|s.done|].tid != t
  {
  }

  lemma {:induction false} TryLeaves(s: State, u: Tid, write: Error, t: Tid)
    requires Inv(s) && t in s.threads && u in s.threads && t != u && WriteResult(s, write)
    requires s.threads[u].WaitMutex? || s.threads[u].WaitRequest? || s.threads[u].Retry?
    ensures Untouched(s, TryRequest(s, u, s.threads[u].call, write), t)
  {
    if s.owner.None? && write != NoError {
      FinishLeaves(s.(owner := Some(u)), u, s.threads[u].call, None, write, None, t);
    }
  }

  lemma {:induction false} ResumeLeaves(s: State, u: Tid, timedOut: bool, t: Tid)
    requires Inv(s) && t in s.threads && u in s.threads && t != u && s.threads[u].WaitCommand?
    ensures Untouched(s, Resume(s, u, timedOut), t)
  {
    var pc, c := s.threads[u], s.current.value;
    if timedOut {
      FinishLeaves(s, u, pc.call, Some(pc.id), Timeout, None, t);
    } else if c.command.response.final.Some? || s.closed {
      var d := Completed(s, u);
      FinishLeaves(Taken(s, u), u, pc.call, Some(pc.id), d.error, d.out, t);
      ResumeCompletes(s, u);
    }
  }

  lemma {:induction false} OtherStep(s: State, a: Action, t: Tid)
    requires Inv(s) && Enabled(s, a) && !Own(a, t) && t in s.threads
    ensures Untouched(s, Next(s, a), t)
  {
    if a.WakeCommand? {
      ResumeLeaves(s, a.tid, a.timedOut, t);
    } else if a.Lock? || a.WakeRequest? || a.NextAttempt? {
      TryLeaves(s, a.tid, a.write, t);
    } else if a.ReadLine? {
      DeliverChanges(s, a.line, a.wake, a.write);
    }
  }

  /** The thread t has issued the call behind its first `before` calls. */
  ghost predicate InCall(s: State, t: Tid, call: Call, before: nat) {
    && t in s.threads && before <= |CallsOf(s.done, t)|
    && Progress(s.threads[t], call, CallsOf(s.done, t)[before..])
  }

  lemma {:induction false} StepProgress(s: State, a: Action, t: Tid, call: Call, before: nat)
    requires Inv(s) && Enabled(s, a) && t in s.threads && !(a.Issue? && a.tid == t)
    requires InCall(s, t, call, before)
    ensures InCall(Next(s, a), t, call, before)
  {
    if Own(a, t) {
      OwnStep(s, a, t, call, CallsOf(s.done, t)[before..]);
      OwnProgress(s, Next(s, a), t, call, before);
    } else {
      OtherStep(s, a, t);
      OtherProgress(s, Next(s, a), t, call, before);
    }
  }

  lemma {:induction false} CallsMore(ds: seq<Done>, ds': seq<Done>, t: Tid, before: nat)
    requires |ds'| == |ds| + 1 && ds'[..|ds|] == ds && before <= |CallsOf(ds, t)|
    ensures before <= |CallsOf(ds', t)|
    ensures var d := ds'[|ds|];
            CallsOf(ds', t)[before..] == CallsOf(ds, t)[before..] + if d.tid == t then [d] else []
  {
    assert ds' == ds + [ds'[|ds|]];
    CallsAppend(ds, ds'[|ds|], t);
  }

  lemma {:induction false} OwnProgress(s: State, s': State, t: Tid, call: Call, before: nat)
    requires before <= |CallsOf(s.done, t)| && Moves(s, s', t, call, CallsOf(s.done, t)[before..])
    ensures InCall(s', t, call, before)
  {
    if s'.done != s.done {
      CallsMore(s.done, s'.done, t, before);
    }
  }

  lemma {:induction false} OtherProgress(s: State, s': State, t: Tid, call: Call, before: nat)
    requires before <= |CallsOf(s.done, t)| && Untouched(s, s', t)
    requires Progress(s.threads[t], call, CallsOf(s.done, t)[before..])
    ensures InCall(s', t, call, before)
  {
    if s'.done != s.done {
      CallsMore(s.done, s'.done, t, before);
      assert CallsOf(s'.done, t)[before..] == CallsOf(s.done, t)[before..];
    }
    SameProgress(s.threads[t], s'.threads[t], call, CallsOf(s.done, t)[before..]);
  }

  lemma SameProgress(pc: Pc, pc': Pc, call: Call, ds: seq<Done>)
    requires Stays(pc, pc') && Progress(pc, call, ds)
    ensures Progress(pc', call, ds)
  {
  }

  // ---------------------------------------------------------------- runs

  /** The thread issues the call in step i and no other one up to step j. */
  ghost predicate Issued(acts: seq<Action>, i: nat, j: nat, t: Tid, call: Call) {
    && i < j <= |acts| && acts[i] == Issue(t, call)
    && forall k :: i < k < j ==> !(acts[k].Issue? && acts[k].tid == t)
  }

  /** The attempts made of a call issued in step i, up to state j. */
  ghost function Made(ss: seq<State>, i: nat, j: nat, t: Tid): seq<Done>
    requires i <= j < |ss|
  {
    var before, ds := |CallsOf(ss[i].done, t)|, CallsOf(ss[j].done, t);
    if before <= |ds| then ds[before..] else []
  }

  lemma {:induction false} CallProgress(ss: seq<State>, acts: seq<Action>, i: nat, j: nat, t: Tid, call: Call)
    requires Run(ss, acts) && Issued(acts, i, j, t, call)
    ensures InCall(ss[j], t, call, |CallsOf(ss[i].done, t)|)
    decreases j
  {
    if j == i + 1 {
      StepIssues(ss, acts, i, t, call);
    } else {
      CallProgress(ss, acts, i, j - 1, t, call);
      RunProgress(ss, acts, j - 1, t, call, |CallsOf(ss[i].done, t)|);
    }
  }

  lemma {:induction false} RunProgress(ss: seq<State>, acts: seq<Action>, i: nat, t: Tid, call: Call, before: nat)
    requires Run(ss, acts) && i < |acts| && !(acts[i].Issue? && acts[i].tid == t) && InCall(ss[i], t, call, before)
    ensures InCall(ss[i + 1], t, call, before)
  {
    Reachable(ss, acts, i);
    StepProgress(ss[i], acts[i], t, call, before);
  }

  lemma {:induction false} StepIssues(ss: seq<State>, acts: seq<Action>, i: nat, t: Tid, call: Call)
    requires Run(ss, acts) && i < |acts| && acts[i] == Issue(t, call)
    ensures InCall(ss[i + 1], t, call, |CallsOf(ss[i].done, t)|)
  {
    Reachable(ss, acts, i);
    assert ss[i + 1].done == ss[i].done && t in ss[i + 1].threads && ss[i + 1].threads[t] == WaitMutex(call);
    NothingMade(CallsOf(ss[i].done, t));
  }

  lemma NothingMade(ds: seq<Done>)
    ensures ds[|ds|..] == []
  {
  }

  /** A call that is over, that is, whose thread is idle again: an ordinary call has been made once.  A
      handshake of n attempts has made 1 to n, all but the last have failed, and the last has succeeded or
      was the n-th.  Each is the call that was issued, with the attempts that were left. */
  lemma {:induction false} CallMadeOnce(ss: seq<State>, acts: seq<Action>, i: nat, j: nat, t: Tid, call: Call)
    requires Run(ss, acts) && Issued(acts, i, j, t, call) && t in ss[j].threads && ss[j].threads[t].Idle?
    ensures var ds := Made(ss, i, j, t);
            && 1 <= |ds| && (if call.attempts == 0 then |ds| == 1 else |ds| <= call.attempts)
            && (forall k :: 0 <= k < |ds| - 1 ==> ds[k].error != NoError)
            && (call.attempts > 0 ==> ds[|ds| - 1].error == NoError || |ds| == call.attempts)
            && forall k :: 0 <= k < |ds| ==>
                 ds[k].call == call.(attempts := ds[k].call.attempts) && ds[k].call.attempts == call.attempts - k
  {
    CallProgress(ss, acts, i, j, t, call);
  }

  /** commandmutex is kept across steps only by a handshake between its attempts or in its pause, and by no
      other thread than the one that is there. */
  lemma {:induction false} MutexOnlyInHandshake(ss: seq<State>, acts: seq<Action>, i: nat, t: Tid)
    requires Run(ss, acts) && i < |ss|
    ensures ss[i].mutex == Some(t) <==>
            t in ss[i].threads && (ss[i].threads[t].Retry? || ss[i].threads[t].Asleep?)
  {
    Reachable(ss, acts, i);
  }
}
