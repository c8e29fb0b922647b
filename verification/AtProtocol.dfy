/**
 The command/response protocol of an AT channel: any number of command threads, one reader thread, the
 mutexes `commandmutex` and `requestmutex`, the condition variables `requestcond` and `commandcond`,
 timeouts and close.

 A step is what one thread does from taking `commandmutex` (or being given it back by a wait) until it
 lets it go.  Everything the threads share is only touched with that mutex held, so steps do not overlap.
 A waiting thread may be woken without a signal, and a timed wait may report a timeout although the wait
 was signalled.
 */
module AtProtocol {
  import opened Common
  import opened AtRouting

  type Tid = nat

  datatype Error = NoError | Generic | CommandPending | ChannelClosed | Timeout | InvalidResponse

  /** A call: `timed` says whether a timeout is set, `wantsResponse` whether the caller passed an
      out-pointer, `attempts` how many attempts of a handshake are left, 0 for an ordinary call. */
  datatype Call = Call(
    ctype: CommandType, prefix: string, sms: Option<string>, timed: bool, wantsResponse: bool, attempts: nat)

  /** Where a command thread is.  In Retry and Asleep (handshake only) it holds `commandmutex`. */
  datatype Pc =
    | Idle
    | WaitMutex(call: Call)
    | WaitRequest(call: Call, signalled: bool)
    | WaitCommand(call: Call, id: nat, signalled: bool)
    | Retry(call: Call)
    | Asleep

  /** The pending command: the number of its response object, the thread that made it, the command. */
  datatype Current = Current(id: nat, tid: Tid, call: Call, command: Pending)

  /** Where a line went; a line for a command carries the command's response number, a prompt also whether
      the PDU was written in answer to it. */
  datatype Dest = ToUnsolicited | ToFinal(id: nat) | ToList(id: nat) | ToPrompt(id: nat, written: bool)

  datatype Entry = Entry(line: string, dest: Dest)

  /** A PDU written, to its end, at a prompt, for a command. */
  datatype Written = Written(id: nat, pdu: string)

  /** A finished call (each attempt of a handshake is one). */
  datatype Done = Done(tid: Tid, call: Call, id: Option<nat>, error: Error, out: Option<Response>)

  /** A response object freed by a thread, with the thread that made it. */
  datatype Freed = Freed(id: nat, thread: Tid, maker: Tid)

  /** `unsolicited` is what the unsolicited handler got and `sent` what was written at prompts; `lines` and
      `done` are records of the lines read and of the calls finished. */
  datatype State = State(
    threads: map<Tid, Pc>,
    mutex: Option<Tid>,
    owner: Option<Tid>,
    current: Option<Current>,
    closed: bool,
    nextId: nat,
    unsolicited: seq<string>,
    sent: seq<Written>,
    lines: seq<Entry>,
    freed: seq<Freed>,
    done: seq<Done>)

  ghost predicate Init(s: State) {
    && (forall t :: t in s.threads ==> s.threads[t] == Idle)
    && s.mutex.None? && s.owner.None? && s.current.None?
    && s.unsolicited == [] && s.sent == []
    && s.lines == [] && s.freed == [] && s.done == [] && s.nextId == 0
  }

  /** `write` is the result of writing the command, or the PDU if the line is a prompt; `wake` the waiter a
      signal reaches, if there is one. */
  datatype Action =
    | Issue(tid: Tid, call: Call)
    | Lock(tid: Tid, write: Error)
    | WakeRequest(tid: Tid, write: Error)
    | WakeCommand(tid: Tid, timedOut: bool)
    | NextAttempt(tid: Tid, write: Error)
    | Unlock(tid: Tid)
    | ReadLine(line: string, wake: Tid, write: Error)
    | Close(wake: Tid)

  // ---------------------------------------------------------------- pieces of a step

  function SetPc(s: State, t: Tid, pc: Pc): State {
    s.(threads := s.threads[t := pc])
  }

  /** pthread_cond_broadcast on requestcond. */
  function Broadcast(threads: map<Tid, Pc>): map<Tid, Pc> {
    map t | t in threads :: if threads[t].WaitRequest? then WaitRequest(threads[t].call, true) else threads[t]
  }

  /** pthread_cond_signal on commandcond. */
  function Signal(s: State, wake: Tid): State {
    if wake in s.threads && s.threads[wake].WaitCommand? then
      SetPc(s, wake, s.threads[wake].(signalled := true))
    else s
  }

  /** clearPendingCommand: frees whatever response there is. */
  function Clear(s: State, t: Tid): State {
    if s.current.None? then s
    else s.(freed := s.freed + [Freed(s.current.value.id, t, s.current.value.tid)], current := None)
  }

  /** Where a thread goes after a call.  A failed handshake goes on with its next attempt, a successful
      one pauses; neither lets commandmutex go. */
  function After(call: Call, error: Error): Pc {
    if call.attempts == 0 || (error != NoError && call.attempts == 1) then Idle
    else if error == NoError then Asleep
    else Retry(call.(attempts := call.attempts - 1))
  }

  /** The end of a call: clear, wake the threads that wait for their turn, let requestmutex go. */
  function Finish(s: State, t: Tid, call: Call, id: Option<nat>, error: Error, out: Option<Response>): State {
    var pc := After(call, error);
    Clear(s, t).(
      threads := Broadcast(s.threads)[t := pc],
      owner := None,
      mutex := if pc.Idle? then None else Some(t),
      done := s.done + [Done(t, call, id, error, out)])
  }

  /** requestmutex is taken: check, write, set the command up, start to wait. */
  function Begin(s: State, t: Tid, call: Call, write: Error): State {
    if s.current.Some? then Finish(s, t, call, None, CommandPending, None)
    else if write != NoError then Finish(s, t, call, None, write, None)
    else
      SetPc(s, t, WaitCommand(call, s.nextId, false)).(
        current := Some(Current(s.nextId, t, call, Pending(call.ctype, call.prefix, call.sms, NEW_RESPONSE))),
        nextId := s.nextId + 1,
        mutex := None)
  }

  /** The trylock loop on requestmutex, up to its wait or its success. */
  function TryRequest(s: State, t: Tid, call: Call, write: Error): State {
    if s.owner.Some? then SetPc(s, t, WaitRequest(call, false)).(mutex := None)
    else Begin(s.(owner := Some(t)), t, call, write)
  }

  /** The wait for the final response, from one return of the wait to the next wait or the end. */
  function Resume(s: State, t: Tid, timedOut: bool): State
    requires t in s.threads && s.threads[t].WaitCommand? && s.current.Some?
  {
    var pc, c := s.threads[t], s.current.value;
    if timedOut then Finish(s, t, pc.call, Some(pc.id), Timeout, None)
    else if c.command.response.final.None? && !s.closed then SetPc(s, t, pc.(signalled := false))
    else
      var out := if pc.call.wantsResponse then Some(Handed(c.command.response)) else None;
      var freed := if pc.call.wantsResponse then [] else [Freed(c.id, t, c.tid)];
      Finish(s.(freed := s.freed + freed, current := None), t, pc.call, Some(pc.id),
             if s.closed then ChannelClosed else NoError, out)
  }

  function DestOf(c: Current, line: string, write: Error): Dest {
    match RouteOf(c.command, line)
    case Final => ToFinal(c.id)
    case Intermediate => ToList(c.id)
    case Prompt => ToPrompt(c.id, write == NoError)
    case Unsolicited => ToUnsolicited
  }

  /** processLine.  It does not look at the result of writing the PDU. */
  function Deliver(s: State, line: string, wake: Tid, write: Error): State {
    if s.current.None? then
      s.(lines := s.lines + [Entry(line, ToUnsolicited)], unsolicited := s.unsolicited + [line])
    else
      var c := s.current.value;
      var s1 := s.(lines := s.lines + [Entry(line, DestOf(c, line, write))],
                   current := Some(c.(command := Process(c.command, line))));
      match RouteOf(c.command, line)
      case Final => Signal(s1, wake)
      case Prompt => if write == NoError then s1.(sent := s.sent + [Written(c.id, c.command.sms.value)]) else s1
      case Unsolicited => s1.(unsolicited := s.unsolicited + [line])
      case Intermediate => s1
  }

  // ---------------------------------------------------------------- steps

  /** Writing fails when the channel is known to be closed, and can fail otherwise. */
  predicate WriteResult(s: State, write: Error) {
    if s.closed then write == ChannelClosed else write in {NoError, Generic, ChannelClosed}
  }

  /** A signal reaches a waiter if there is one. */
  ghost predicate WakeOk(s: State, wake: Tid) {
    (exists t :: t in s.threads && s.threads[t].WaitCommand?) ==> wake in s.threads && s.threads[wake].WaitCommand?
  }

  ghost predicate Enabled(s: State, a: Action) {
    match a
    case Issue(t, call) => t in s.threads && s.threads[t].Idle?
    case Lock(t, w) => s.mutex.None? && t in s.threads && s.threads[t].WaitMutex? && WriteResult(s, w)
    case WakeRequest(t, w) => s.mutex.None? && t in s.threads && s.threads[t].WaitRequest? && WriteResult(s, w)
    case WakeCommand(t, timedOut) =>
      s.mutex.None? && t in s.threads && s.threads[t].WaitCommand? && (timedOut ==> s.threads[t].call.timed)
    case NextAttempt(t, w) => s.mutex == Some(t) && t in s.threads && s.threads[t].Retry? && WriteResult(s, w)
    case Unlock(t) => s.mutex == Some(t) && t in s.threads && s.threads[t].Asleep?
    case ReadLine(line, wake, w) => s.mutex.None? && WakeOk(s, wake) && WriteResult(s, w)
    case Close(wake) => s.mutex.None? && WakeOk(s, wake)
  }

  ghost function Next(s: State, a: Action): State
    requires Inv(s) && Enabled(s, a)
  {
    match a
    case Issue(t, call) => SetPc(s, t, WaitMutex(call))
    case Lock(t, w) => TryRequest(s, t, s.threads[t].call, w)
    case WakeRequest(t, w) => TryRequest(s, t, s.threads[t].call, w)
    case WakeCommand(t, timedOut) => Resume(s, t, timedOut)
    case NextAttempt(t, w) => TryRequest(s, t, s.threads[t].call, w)
    case Unlock(t) => SetPc(s, t, Idle).(mutex := None)
    case ReadLine(line, wake, w) => Deliver(s, line, wake, w)
    case Close(wake) => Signal(s.(closed := true), wake)
  }

  // ---------------------------------------------------------------- the invariant

  /** One command owns the channel: requestmutex is held exactly while its holder waits on commandcond
      with its command pending, and only while commandmutex is not kept. */
  ghost predicate Ownership(s: State) {
    && (s.current.Some? <==> s.owner.Some?)
    && (s.owner.Some? ==>
          var t := s.owner.value;
          && t in s.threads && s.threads[t].WaitCommand?
          && s.current.value.tid == t && s.current.value.id == s.threads[t].id
          && s.current.value.call == s.threads[t].call
          && s.mutex.None?)
    && (forall t :: t in s.threads && s.threads[t].WaitCommand? ==> s.owner == Some(t))
    && (forall t :: t in s.threads && (s.threads[t].Retry? || s.threads[t].Asleep?) ==> s.mutex == Some(t))
    && (s.mutex.Some? ==>
          && s.mutex.value in s.threads
          && (s.threads[s.mutex.value].Retry? || s.threads[s.mutex.value].Asleep?))
  }

  /** No wake-up is lost: a thread that waits without a signal has something to wait for. */
  ghost predicate NoLostWakeup(s: State) {
    && (forall t :: t in s.threads && s.threads[t].WaitRequest? && !s.threads[t].signalled ==>
          s.owner.Some? && s.owner != Some(t))
    && (forall t :: t in s.threads && s.threads[t].WaitCommand? && !s.threads[t].signalled ==>
          !s.closed && s.current.Some? && s.current.value.command.response.final.None?)
  }

  ghost predicate Inv(s: State) {
    Ownership(s) && NoLostWakeup(s)
  }

  lemma {:induction false} InitInv(s: State)
    requires Init(s)
    ensures Inv(s)
  {
  }

  lemma {:induction false} FinishInv(s: State, t: Tid, call: Call, id: Option<nat>, error: Error, out: Option<Response>)
    requires t in s.threads && s.owner == Some(t) && (s.mutex.None? || s.mutex == Some(t))
    requires s.current.Some? ==> s.current.value.tid == t
    requires forall u :: u in s.threads && u != t ==>
               !s.threads[u].WaitCommand? && !s.threads[u].Retry? && !s.threads[u].Asleep?
    ensures Inv(Finish(s, t, call, id, error, out))
  {
  }

  lemma {:induction false} BeginInv(s: State, t: Tid, call: Call, write: Error)
    requires t in s.threads && s.owner == Some(t) && (s.mutex.None? || s.mutex == Some(t))
    requires s.current.None? && WriteResult(s, write)
    requires forall u :: u in s.threads && u != t ==>
               !s.threads[u].WaitCommand? && !s.threads[u].Retry? && !s.threads[u].Asleep?
    ensures Inv(Begin(s, t, call, write))
  {
    if write != NoError {
      FinishInv(s, t, call, None, write, None);
    }
  }

  lemma {:induction false} TryRequestInv(s: State, t: Tid, write: Error)
    requires Inv(s) && t in s.threads && WriteResult(s, write)
    requires if s.threads[t].Retry? then s.mutex == Some(t)
             else s.mutex.None? && (s.threads[t].WaitMutex? || s.threads[t].WaitRequest?)
    ensures Inv(TryRequest(s, t, s.threads[t].call, write))
  {
    if s.owner.None? {
      BeginInv(s.(owner := Some(t)), t, s.threads[t].call, write);
    }
  }

  lemma {:induction false} ResumeInv(s: State, t: Tid, timedOut: bool)
    requires Inv(s) && s.mutex.None? && t in s.threads && s.threads[t].WaitCommand?
    ensures Inv(Resume(s, t, timedOut))
  {
    var pc, c := s.threads[t], s.current.value;
    if timedOut {
      FinishInv(s, t, pc.call, Some(pc.id), Timeout, None);
    } else if c.command.response.final.Some? || s.closed {
      var out := if pc.call.wantsResponse then Some(Handed(c.command.response)) else None;
      var freed := if pc.call.wantsResponse then [] else [Freed(c.id, t, c.tid)];
      FinishInv(s.(freed := s.freed + freed, current := None), t, pc.call, Some(pc.id),
                if s.closed then ChannelClosed else NoError, out);
    }
  }

  lemma {:induction false} RouteInv(s: State, line: string, wake: Tid, write: Error)
    requires Inv(s) && s.mutex.None? && WakeOk(s, wake)
    ensures Inv(Deliver(s, line, wake, write))
  {
    if s.current.Some? && RouteOf(s.current.value.command, line).Final? {
      FinalInv(s, line, wake, write);
    }
  }

  /** The final line: the one waiter is woken. */
  lemma {:induction false} FinalInv(s: State, line: string, wake: Tid, write: Error)
    requires Inv(s) && s.mutex.None? && WakeOk(s, wake)
    requires s.current.Some? && RouteOf(s.current.value.command, line).Final?
    ensures Inv(Deliver(s, line, wake, write))
  {
    assert wake == s.owner.value;
  }

  /** Every step keeps the invariant. */
  lemma {:induction false} NextInv(s: State, a: Action)
    requires Inv(s) && Enabled(s, a)
    ensures Inv(Next(s, a))
  {
    match a
    case Issue(t, call) =>
    case Lock(t, w) => TryRequestInv(s, t, w);
    case WakeRequest(t, w) => TryRequestInv(s, t, w);
    case WakeCommand(t, timedOut) => ResumeInv(s, t, timedOut);
    case NextAttempt(t, w) => TryRequestInv(s, t, w);
    case Unlock(t) =>
    case ReadLine(line, wake, w) => RouteInv(s, line, wake, w);
    case Close(wake) =>
  }
}
