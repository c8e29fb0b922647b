/** What every run of the AT protocol keeps: ownership, the life of response objects, the routing of
    lines and the contract of a call. */
module AtProtocolProofs {
  import opened Common
  import opened AtRouting
  import opened AtProtocol

  /** A run: states ss, steps acts. */
  ghost predicate Run(ss: seq<State>, acts: seq<Action>) {
    && |ss| == |acts| + 1 && Init(ss[0])
    && forall i :: 0 <= i < |acts| && Inv(ss[i]) ==> Enabled(ss[i], acts[i]) && ss[i + 1] == Next(ss[i], acts[i])
  }

  // ---------------------------------------------------------------- response objects

  function FreedIds(fs: seq<Freed>): multiset<nat> {
    if fs == [] then multiset{} else FreedIds(fs[..|fs| - 1]) + multiset{fs[|fs| - 1].id}
  }

  /** Numbers of the responses handed to callers. */
  function HandedIds(ds: seq<Done>): multiset<nat> {
    if ds == [] then multiset{}
    else
      var d := ds[|ds| - 1];
      HandedIds(ds[..|ds| - 1]) + if d.out.Some? && d.id.Some? then multiset{d.id.value} else multiset{}
  }

  function CurrentId(s: State): multiset<nat> {
    if s.current.Some? then multiset{s.current.value.id} else multiset{}
  }

  /** Where the response objects are: freed, handed over, or pending. */
  function Ledger(s: State): multiset<nat> {
    FreedIds(s.freed) + HandedIds(s.done) + CurrentId(s)
  }

  /** The numbers below n, each once. */
  function Below(n: nat): multiset<nat> {
    if n == 0 then multiset{} else Below(n - 1) + multiset{n - 1}
  }

  // ---------------------------------------------------------------- lines

  /** The lines that went to a destination, in order of arrival. */
  function RoutedTo(es: seq<Entry>, d: Dest): seq<string> {
    if es == [] then []
    else RoutedTo(es[..|es| - 1], d) + if es[|es| - 1].dest == d then [es[|es| - 1].line] else []
  }

  /** The PDUs written for a command, in order. */
  function SentFor(ws: seq<Written>, id: nat): seq<string> {
    if ws == [] then []
    else SentFor(ws[..|ws| - 1], id) + if ws[|ws| - 1].id == id then [ws[|ws| - 1].pdu] else []
  }

  function Last(ls: seq<string>): Option<string> {
    if ls == [] then None else Some(ls[|ls| - 1])
  }

  /** What belongs to a command: the lines routed to its list, to its final slot and to its prompt, with and
      without its PDU written, and the PDUs written for it. */
  datatype Share = Share(
    list: seq<string>, finals: seq<string>, answered: seq<string>, refused: seq<string>, sent: seq<string>)

  function ShareOf(es: seq<Entry>, ws: seq<Written>, id: nat): Share {
    Share(RoutedTo(es, ToList(id)), RoutedTo(es, ToFinal(id)), RoutedTo(es, ToPrompt(id, true)),
          RoutedTo(es, ToPrompt(id, false)), SentFor(ws, id))
  }

  /** The answer r, lines in order of arrival, is what was routed to a command of this call. */
  ghost predicate Faithful(share: Share, call: Call, r: Response) {
    && r.lines == share.list
    && r.final == Last(share.finals)
    && (r.final.Some? ==> IsFinal(r.final.value))
    && r.success == (r.final.Some? && IsFinalSuccess(r.final.value))
    && (forall l :: l in r.lines ==> Matches(call.ctype, call.prefix, l))
    && (!call.ctype.MultiLine? ==> |r.lines| <= 1)
  }

  /** At most one prompt was routed to a command of this call, and the call's PDU was written exactly if one
      was and the write succeeded. */
  ghost predicate PduOk(share: Share, call: Call) {
    && |share.answered| + |share.refused| <= OptLen(call.sms)
    && share.sent == if share.answered == [] then [] else OptSeq(call.sms)
  }

  ghost predicate CurrentOk(s: State) {
    s.current.Some? ==> CommandOk(ShareOf(s.lines, s.sent, s.current.value.id), s.current.value)
  }

  /** A finished call and what it returned; `lines`, `ws`, `n` and `current` are the lines routed so far,
      the PDUs written, the next number and the number of the pending command. */
  ghost predicate DoneOk(lines: seq<Entry>, ws: seq<Written>, n: nat, current: Option<nat>, d: Done) {
    && d.error != CommandPending
    && (d.id.Some? ==> d.id.value < n && current != d.id && PduOk(ShareOf(lines, ws, d.id.value), d.call))
    && (d.out.Some? ==>
          d.id.Some? && d.call.wantsResponse && Faithful(ShareOf(lines, ws, d.id.value), d.call, d.out.value))
    && (d.error == NoError && d.call.wantsResponse ==> d.out.Some? && d.out.value.final.Some?)
  }

  function Number(s: State): Option<nat> {
    if s.current.Some? then Some(s.current.value.id) else None
  }

  ghost predicate DonesOk(s: State) {
    forall d :: d in s.done ==> DoneOk(s.lines, s.sent, s.nextId, Number(s), d)
  }

  ghost predicate DestBelow(d: Dest, n: nat) {
    d.ToUnsolicited? || d.id < n
  }

  ghost predicate LinesBelow(es: seq<Entry>, n: nat) {
    forall e :: e in es ==> DestBelow(e.dest, n)
  }

  ghost predicate SentBelow(ws: seq<Written>, n: nat) {
    forall w :: w in ws ==> w.id < n
  }

  /** What came out of the channel is what was routed there. */
  ghost predicate OutputsOk(s: State) {
    Outputs(s.lines, s.sent, s.unsolicited, s.nextId)
  }

  ghost predicate Outputs(es: seq<Entry>, ws: seq<Written>, unsolicited: seq<string>, n: nat) {
    LinesBelow(es, n) && SentBelow(ws, n) && unsolicited == RoutedTo(es, ToUnsolicited)
  }

  lemma {:induction false} OutputsGrow(es: seq<Entry>, ws: seq<Written>, unsolicited: seq<string>, n: nat,
                                       e: Entry, w: seq<Written>)
    requires Outputs(es, ws, unsolicited, n) && DestBelow(e.dest, n) && SentBelow(w, n)
    ensures Outputs(es + [e], ws + w, unsolicited + (if e.dest.ToUnsolicited? then [e.line] else []), n)
  {
    RoutedAppend(es, e, ToUnsolicited);
    assert unsolicited + [] == unsolicited;
  }

  ghost predicate FreedOk(fs: seq<Freed>) {
    forall f :: f in fs ==> f.thread == f.maker
  }

  ghost predicate History(s: State) {
    && Ledger(s) == Below(s.nextId)
    && FreedOk(s.freed)
    && CurrentOk(s)
    && (s.current.Some? ==> s.current.value.id < s.nextId)
    && DonesOk(s)
    && OutputsOk(s)
  }

  // ---------------------------------------------------------------- steps

  lemma {:induction false} RoutedAppend(es: seq<Entry>, e: Entry, d: Dest)
    ensures RoutedTo(es + [e], d) == RoutedTo(es, d) + if e.dest == d then [e.line] else []
  {
    assert (es + [e])[..|es|] == es;
  }

  /** Nothing was routed to a command that has not begun. */
  lemma {:induction false} RoutedNowhere(es: seq<Entry>, d: Dest, n: nat)
    requires LinesBelow(es, n) && !DestBelow(d, n)
    ensures RoutedTo(es, d) == []
  {
    if es != [] {
      assert es[|es| - 1] in es;
      RoutedNowhere(es[..|es| - 1], d, n);
    }
  }

  lemma {:induction false} SentAppend(ws: seq<Written>, w: Written, id: nat)
    ensures SentFor(ws + [w], id) == SentFor(ws, id) + if w.id == id then [w.pdu] else []
  {
    assert (ws + [w])[..|ws|] == ws;
  }

  lemma {:induction false} SentNowhere(ws: seq<Written>, id: nat, n: nat)
    requires SentBelow(ws, n) && id >= n
    ensures SentFor(ws, id) == []
  {
    if ws != [] {
      assert ws[|ws| - 1] in ws;
      SentNowhere(ws[..|ws| - 1], id, n);
    }
  }

  lemma {:induction false} FreedAppend(fs: seq<Freed>, f: Freed)
    ensures FreedIds(fs + [f]) == FreedIds(fs) + multiset{f.id}
  {
    assert (fs + [f])[..|fs|] == fs;
  }

  lemma {:induction false} HandedAppend(ds: seq<Done>, d: Done)
    ensures HandedIds(ds + [d])
         == HandedIds(ds) + if d.out.Some? && d.id.Some? then multiset{d.id.value} else multiset{}
  {
    assert (ds + [d])[..|ds|] == ds;
  }

  /** What a finished call must bring along. */
  ghost predicate Finishes(s: State, t: Tid, d: Done) {
    && d.tid == t
    && (s.current.Some? ==> s.current.value.tid == t)
    && Ledger(s) + (if d.out.Some? && d.id.Some? then multiset{d.id.value} else multiset{}) == Below(s.nextId)
    && DoneOk(s.lines, s.sent, s.nextId, None, d)
  }

  lemma {:induction false} FinishDones(s: State, t: Tid, d: Done)
    requires DonesOk(s) && Finishes(s, t, d)
    ensures DonesOk(Finish(s, t, d.call, d.id, d.error, d.out))
  {
    var s' := Finish(s, t, d.call, d.id, d.error, d.out);
    assert s'.done == s.done + [d];
    forall e | e in s'.done ensures DoneOk(s'.lines, s'.sent, s'.nextId, Number(s'), e) {
      if e in s.done {
        assert DoneOk(s.lines, s.sent, s.nextId, Number(s), e);
      } else {
        assert e == d;
      }
    }
  }

  lemma {:induction false} FinishLedger(s: State, t: Tid, d: Done)
    requires FreedOk(s.freed) && Finishes(s, t, d)
    ensures var s' := Finish(s, t, d.call, d.id, d.error, d.out);
            Ledger(s') == Below(s'.nextId) && FreedOk(s'.freed)
  {
    var s' := Finish(s, t, d.call, d.id, d.error, d.out);
    HandedAppend(s.done, d);
    if s.current.Some? {
      FreedAppend(s.freed, Freed(s.current.value.id, t, s.current.value.tid));
      assert FreedIds(s'.freed) == FreedIds(s.freed) + CurrentId(s);
    } else {
      assert FreedIds(s'.freed) == FreedIds(s.freed) + CurrentId(s);
    }
    Shuffle(FreedIds(s.freed), HandedIds(s.done), CurrentId(s),
            if d.out.Some? && d.id.Some? then multiset{d.id.value} else multiset{});
    assert CurrentId(s') == multiset{};
  }

  lemma Shuffle(f: multiset<nat>, h: multiset<nat>, c: multiset<nat>, o: multiset<nat>)
    ensures (f + c) + (h + o) + multiset{} == f + h + c + o
  {
  }

  /** Ending a call whose response, if it is handed over, is not pending any more. */
  lemma {:induction false} FinishHistory(s: State, t: Tid, d: Done)
    requires DonesOk(s) && FreedOk(s.freed) && OutputsOk(s) && Finishes(s, t, d)
    ensures History(Finish(s, t, d.call, d.id, d.error, d.out))
  {
    FinishDones(s, t, d);
    FinishLedger(s, t, d);
  }

  lemma {:induction false} BeginHistory(s: State, t: Tid, call: Call, write: Error)
    requires History(s) && s.current.None? && WriteResult(s, write)
    ensures History(Begin(s, t, call, write))
  {
    if write != NoError {
      FinishHistory(s, t, Done(t, call, None, write, None));
    } else {
      BeginFresh(s, t, call);
    }
  }

  /** The command is set up. */
  lemma {:induction false} BeginFresh(s: State, t: Tid, call: Call)
    requires History(s) && s.current.None?
    ensures History(Begin(s, t, call, NoError))
  {
    BeginCurrent(s, t, call);
    DonesLater(s, Begin(s, t, call, NoError));
    BeginLedger(s, t, call);
    OutputsLater(s, Begin(s, t, call, NoError));
  }

  lemma {:induction false} BeginLedger(s: State, t: Tid, call: Call)
    requires Ledger(s) == Below(s.nextId) && s.current.None?
    ensures var s' := Begin(s, t, call, NoError); Ledger(s') == Below(s'.nextId)
  {
    var s' := Begin(s, t, call, NoError);
    assert s'.nextId == s.nextId + 1 && CurrentId(s') == multiset{s.nextId} && CurrentId(s) == multiset{};
    assert FreedIds(s'.freed) == FreedIds(s.freed) && HandedIds(s'.done) == HandedIds(s.done);
    AddNumber(FreedIds(s.freed), HandedIds(s.done), Below(s.nextId), s.nextId);
  }

  lemma AddNumber(f: multiset<nat>, h: multiset<nat>, b: multiset<nat>, n: nat)
    requires f + h + multiset{} == b
    ensures f + h + multiset{n} == b + multiset{n}
  {
  }

  lemma OutputsLater(s: State, s': State)
    requires OutputsOk(s) && s'.nextId >= s.nextId
    requires s'.lines == s.lines && s'.sent == s.sent && s'.unsolicited == s.unsolicited
    ensures OutputsOk(s')
  {
  }

  /** The finished calls stay as they were when a new command, or none, is pending. */
  lemma {:induction false} DonesLater(s: State, s': State)
    requires DonesOk(s) && s'.done == s.done && s'.lines == s.lines && s'.sent == s.sent && s'.nextId >= s.nextId
    requires s'.current.Some? ==> s'.current.value.id >= s.nextId
    ensures DonesOk(s')
  {
    forall d | d in s'.done ensures DoneOk(s'.lines, s'.sent, s'.nextId, Number(s'), d) {
      assert DoneOk(s.lines, s.sent, s.nextId, Number(s), d);
    }
  }

  lemma {:induction false} BeginCurrent(s: State, t: Tid, call: Call)
    requires LinesBelow(s.lines, s.nextId) && SentBelow(s.sent, s.nextId) && s.current.None?
    ensures CurrentOk(Begin(s, t, call, NoError))
  {
    RoutedNowhere(s.lines, ToList(s.nextId), s.nextId);
    RoutedNowhere(s.lines, ToFinal(s.nextId), s.nextId);
    RoutedNowhere(s.lines, ToPrompt(s.nextId, true), s.nextId);
    RoutedNowhere(s.lines, ToPrompt(s.nextId, false), s.nextId);
    SentNowhere(s.sent, s.nextId, s.nextId);
  }

  lemma {:induction false} TryRequestHistory(s: State, t: Tid, write: Error)
    requires Inv(s) && History(s) && WriteResult(s, write)
    requires t in s.threads && (s.threads[t].WaitMutex? || s.threads[t].WaitRequest? || s.threads[t].Retry?)
    ensures History(TryRequest(s, t, s.threads[t].call, write))
  {
    if s.owner.None? {
      var s1 := s.(owner := Some(t));
      SameHistory(s, s1);
      BeginHistory(s1, t, s.threads[t].call, write);
    } else {
      SameHistory(s, TryRequest(s, t, s.threads[t].call, write));
    }
  }

  /** History does not depend on where the threads are. */
  lemma {:induction false} SameHistory(s: State, s': State)
    requires History(s)
    requires s'.current == s.current && s'.nextId == s.nextId && s'.lines == s.lines && s'.freed == s.freed
    requires s'.done == s.done && s'.sent == s.sent && s'.unsolicited == s.unsolicited
    ensures History(s')
  {
  }

  lemma {:induction false} ResumeHistory(s: State, t: Tid, timedOut: bool)
    requires Inv(s) && History(s) && t in s.threads && s.threads[t].WaitCommand?
    ensures History(Resume(s, t, timedOut))
  {
    var pc, c := s.threads[t], s.current.value;
    if timedOut {
      FinishHistory(s, t, Done(t, pc.call, Some(pc.id), Timeout, None));
    } else if c.command.response.final.None? && !s.closed {
      SameHistory(s, Resume(s, t, timedOut));
    } else {
      CompleteHistory(s, t);
    }
  }

  /** The state in which the answer has been freed or taken from the context. */
  function Taken(s: State, t: Tid): State
    requires t in s.threads && s.threads[t].WaitCommand? && s.current.Some?
  {
    var c := s.current.value;
    var freed := if s.threads[t].call.wantsResponse then [] else [Freed(c.id, t, c.tid)];
    s.(freed := s.freed + freed, current := None)
  }

  /** What the completed call returns. */
  function Completed(s: State, t: Tid): Done
    requires t in s.threads && s.threads[t].WaitCommand? && s.current.Some?
  {
    var pc := s.threads[t];
    Done(t, pc.call, Some(pc.id), if s.closed then ChannelClosed else NoError,
         if pc.call.wantsResponse then Some(Handed(s.current.value.command.response)) else None)
  }

  lemma {:induction false} TakenLedger(s: State, t: Tid)
    requires Ownership(s) && FreedOk(s.freed) && Ledger(s) == Below(s.nextId)
    requires t in s.threads && s.threads[t].WaitCommand?
    ensures var d := Completed(s, t);
            Ledger(Taken(s, t)) + (if d.out.Some? then multiset{d.id.value} else multiset{}) == Below(s.nextId)
    ensures FreedOk(Taken(s, t).freed)
  {
    var c, s' := s.current.value, Taken(s, t);
    assert CurrentId(s) == multiset{c.id} && CurrentId(s') == multiset{} && HandedIds(s'.done) == HandedIds(s.done);
    if s.threads[t].call.wantsResponse {
      assert s'.freed == s.freed;
      HandOver(FreedIds(s.freed), HandedIds(s.done), multiset{c.id});
    } else {
      assert s'.freed == s.freed + [Freed(c.id, t, c.tid)];
      FreedAppend(s.freed, Freed(c.id, t, c.tid));
      HandOver(FreedIds(s.freed), HandedIds(s.done), multiset{c.id});
    }
  }

  /** The pending number goes to the handed ones, or to the freed ones. */
  lemma HandOver(f: multiset<nat>, h: multiset<nat>, c: multiset<nat>)
    ensures (f + h + multiset{}) + c == f + h + c
    ensures ((f + c) + h + multiset{}) + multiset{} == f + h + c
  {
  }

  /** A call returns what its command has collected. */
  lemma DoneFromCommand(es: seq<Entry>, ws: seq<Written>, n: nat, c: Current, d: Done)
    requires CommandOk(ShareOf(es, ws, c.id), c) && c.id < n
    requires d.id == Some(c.id) && d.call == c.call && d.error != CommandPending
    requires d.out == if d.call.wantsResponse then Some(Handed(c.command.response)) else None
    requires d.error == NoError ==> c.command.response.final.Some?
    ensures DoneOk(es, ws, n, None, d)
  {
  }

  lemma {:induction false} TakenFinishes(s: State, t: Tid)
    requires Ownership(s) && History(s) && t in s.threads && s.threads[t].WaitCommand?
    requires s.current.value.command.response.final.Some? || s.closed
    ensures Finishes(Taken(s, t), t, Completed(s, t)) && FreedOk(Taken(s, t).freed)
  {
    TakenLedger(s, t);
    DoneFromCommand(s.lines, s.sent, s.nextId, s.current.value, Completed(s, t));
  }

  /** The answer is handed over or freed. */
  lemma {:induction false} CompleteHistory(s: State, t: Tid)
    requires Inv(s) && History(s) && t in s.threads && s.threads[t].WaitCommand?
    requires s.current.value.command.response.final.Some? || s.closed
    ensures History(Resume(s, t, false))
  {
    TakenFinishes(s, t);
    DonesLater(s, Taken(s, t));
    FinishHistory(Taken(s, t), t, Completed(s, t));
    ResumeCompletes(s, t);
  }

  lemma {:induction false} ResumeCompletes(s: State, t: Tid)
    requires t in s.threads && s.threads[t].WaitCommand? && s.current.Some?
    requires s.current.value.command.response.final.Some? || s.closed
    ensures var d := Completed(s, t);
            Resume(s, t, false) == Finish(Taken(s, t), t, d.call, d.id, d.error, d.out)
  {
  }

  /** How one more line, and what is written on it, changes the share of a command. */
  lemma {:induction false} ShareMore(es: seq<Entry>, ws: seq<Written>, e: Entry, w: seq<Written>, id: nat)
    requires |w| <= 1
    ensures var a, b := ShareOf(es, ws, id), ShareOf(es + [e], ws + w, id);
            && b.list == a.list + (if e.dest == ToList(id) then [e.line] else [])
            && b.finals == a.finals + (if e.dest == ToFinal(id) then [e.line] else [])
            && b.answered == a.answered + (if e.dest == ToPrompt(id, true) then [e.line] else [])
            && b.refused == a.refused + (if e.dest == ToPrompt(id, false) then [e.line] else [])
            && b.sent == a.sent + (if w != [] && w[0].id == id then [w[0].pdu] else [])
  {
    RoutedAppend(es, e, ToList(id));
    RoutedAppend(es, e, ToFinal(id));
    RoutedAppend(es, e, ToPrompt(id, true));
    RoutedAppend(es, e, ToPrompt(id, false));
    if w == [] {
      assert ws + w == ws;
    } else {
      assert w == [w[0]];
      SentAppend(ws, w[0], id);
    }
  }

  /** The pending command c and its answer agree with its share. */
  ghost predicate CommandOk(share: Share, c: Current) {
    && PduOk(share, c.call)
    && Faithful(share, c.call, Handed(c.command.response))
    && c.command.ctype == c.call.ctype && c.command.prefix == c.call.prefix
    && c.command.sms == (if share.answered == [] && share.refused == [] then c.call.sms else None)
  }

  /** What is written when the line arrives. */
  function SentAt(c: Current, line: string, write: Error): (w: seq<Written>)
    ensures |w| <= 1
  {
    if RouteOf(c.command, line).Prompt? && write == NoError then [Written(c.id, c.command.sms.value)] else []
  }

  /** The share of the pending command behind one more line. */
  function ShareAfter(share: Share, c: Current, line: string, write: Error): Share {
    match RouteOf(c.command, line)
    case Final => share.(finals := share.finals + [line])
    case Prompt =>
      if write == NoError then
        share.(answered := share.answered + [line], sent := share.sent + [c.command.sms.value])
      else share.(refused := share.refused + [line])
    case Intermediate => share.(list := share.list + [line])
    case Unsolicited => share
  }

  lemma {:induction false} ShareGrows(es: seq<Entry>, ws: seq<Written>, c: Current, line: string, write: Error)
    ensures ShareOf(es + [Entry(line, DestOf(c, line, write))], ws + SentAt(c, line, write), c.id)
         == ShareAfter(ShareOf(es, ws, c.id), c, line, write)
  {
    ShareMore(es, ws, Entry(line, DestOf(c, line, write)), SentAt(c, line, write), c.id);
  }

  /** A line changes the answer of the pending command exactly as it is routed. */
  lemma {:induction false} RouteCommand(share: Share, c: Current, line: string, write: Error)
    requires CommandOk(share, c)
    ensures CommandOk(ShareAfter(share, c, line, write), c.(command := Process(c.command, line)))
  {
    if RouteOf(c.command, line).Intermediate? {
      CollectLine(share, c, line);
    }
  }

  lemma {:induction false} CollectLine(share: Share, c: Current, line: string)
    requires CommandOk(share, c) && RouteOf(c.command, line).Intermediate?
    ensures CommandOk(share.(list := share.list + [line]), c.(command := Process(c.command, line)))
  {
    var ls := c.command.response.lines;
    assert ([line] + ls)[1..] == ls;
    assert Reversed([line] + ls) == Reversed(ls) + [line];
    assert c.command.ctype.MultiLine? || ls == [];
  }

  /** The answers already handed over do not change. */
  lemma {:induction false} RouteDone(es: seq<Entry>, e: Entry, ws: seq<Written>, w: seq<Written>, n: nat,
                                     current: Option<nat>, d: Done)
    requires DoneOk(es, ws, n, current, d)
    requires e.dest.ToUnsolicited? || Some(e.dest.id) == current
    requires w == [] || (|w| == 1 && Some(w[0].id) == current)
    ensures DoneOk(es + [e], ws + w, n, current, d)
  {
    if d.id.Some? {
      ShareMore(es, ws, e, w, d.id.value);
      assert ShareOf(es + [e], ws + w, d.id.value) == ShareOf(es, ws, d.id.value);
    }
  }

  lemma {:induction false} DeliverChanges(s: State, line: string, wake: Tid, write: Error)
    ensures var s' := Deliver(s, line, wake, write);
            && s'.freed == s.freed && s'.done == s.done && s'.nextId == s.nextId && Number(s') == Number(s)
            && (s.current.None? ==>
                  && s'.current.None? && s'.lines == s.lines + [Entry(line, ToUnsolicited)]
                  && s'.unsolicited == s.unsolicited + [line] && s'.sent == s.sent + [])
            && (s.current.Some? ==>
                  var c := s.current.value;
                  && s'.current == Some(c.(command := Process(c.command, line)))
                  && s'.lines == s.lines + [Entry(line, DestOf(c, line, write))]
                  && s'.unsolicited == s.unsolicited + (if DestOf(c, line, write).ToUnsolicited? then [line] else [])
                  && s'.sent == s.sent + SentAt(c, line, write))
  {
  }

  lemma {:induction false} RouteDones(s: State, e: Entry, w: seq<Written>)
    requires DonesOk(s) && (e.dest.ToUnsolicited? || Some(e.dest.id) == Number(s))
    requires w == [] || (|w| == 1 && Some(w[0].id) == Number(s))
    ensures forall d :: d in s.done ==> DoneOk(s.lines + [e], s.sent + w, s.nextId, Number(s), d)
  {
    forall d | d in s.done ensures DoneOk(s.lines + [e], s.sent + w, s.nextId, Number(s), d) {
      assert DoneOk(s.lines, s.sent, s.nextId, Number(s), d);
      RouteDone(s.lines, e, s.sent, w, s.nextId, Number(s), d);
    }
  }

  lemma {:induction false} RouteOutputs(s: State, line: string, wake: Tid, write: Error)
    requires OutputsOk(s) && (s.current.Some? ==> s.current.value.id < s.nextId)
    ensures OutputsOk(Deliver(s, line, wake, write))
  {
    DeliverChanges(s, line, wake, write);
    if s.current.None? {
      OutputsGrow(s.lines, s.sent, s.unsolicited, s.nextId, Entry(line, ToUnsolicited), []);
    } else {
      var c := s.current.value;
      var e := Entry(line, DestOf(c, line, write));
      OutputsGrow(s.lines, s.sent, s.unsolicited, s.nextId, e, SentAt(c, line, write));
    }
  }

  lemma {:induction false} RouteCurrent(s: State, line: string, wake: Tid, write: Error)
    requires CurrentOk(s)
    ensures CurrentOk(Deliver(s, line, wake, write))
  {
    DeliverChanges(s, line, wake, write);
    if s.current.Some? {
      ShareGrows(s.lines, s.sent, s.current.value, line, write);
      RouteCommand(ShareOf(s.lines, s.sent, s.current.value.id), s.current.value, line, write);
    }
  }

  lemma {:induction false} RouteFinished(s: State, line: string, wake: Tid, write: Error)
    requires DonesOk(s)
    ensures DonesOk(Deliver(s, line, wake, write))
  {
    DeliverChanges(s, line, wake, write);
    if s.current.Some? {
      var c := s.current.value;
      RouteDones(s, Entry(line, DestOf(c, line, write)), SentAt(c, line, write));
    } else {
      RouteDones(s, Entry(line, ToUnsolicited), []);
    }
  }

  lemma {:induction false} RouteHistory(s: State, line: string, wake: Tid, write: Error)
    requires History(s)
    ensures History(Deliver(s, line, wake, write))
  {
    DeliverChanges(s, line, wake, write);
    RouteOutputs(s, line, wake, write);
    RouteCurrent(s, line, wake, write);
    RouteFinished(s, line, wake, write);
    assert CurrentId(Deliver(s, line, wake, write)) == CurrentId(s);
  }

  lemma {:induction false} NextHistory(s: State, a: Action)
    requires Inv(s) && History(s) && Enabled(s, a)
    ensures History(Next(s, a))
  {
    if a.ReadLine? {
      RouteHistory(s, a.line, a.wake, a.write);
    } else if a.WakeCommand? {
      ResumeHistory(s, a.tid, a.timedOut);
    } else if a.Issue? || a.Unlock? || a.Close? {
      SameRecords(s, a, Next(s, a));
      SameHistory(s, Next(s, a));
    } else {
      TryRequestHistory(s, a.tid, a.write);
    }
  }

  /** Steps that only move threads or close the channel. */
  lemma {:induction false} SameRecords(s: State, a: Action, s': State)
    requires Inv(s) && Enabled(s, a) && s' == Next(s, a) && (a.Issue? || a.Unlock? || a.Close?)
    ensures s'.current == s.current && s'.nextId == s.nextId && s'.lines == s.lines && s'.freed == s.freed
    ensures s'.done == s.done && s'.sent == s.sent && s'.unsolicited == s.unsolicited
  {
  }

  // ---------------------------------------------------------------- all reachable states

  lemma {:induction false} Reachable(ss: seq<State>, acts: seq<Action>, i: nat)
    requires Run(ss, acts) && i < |ss|
    ensures Inv(ss[i]) && History(ss[i])
  {
    if i == 0 {
      InitInv(ss[0]);
    } else {
      Reachable(ss, acts, i - 1);
      NextInv(ss[i - 1], acts[i - 1]);
      NextHistory(ss[i - 1], acts[i - 1]);
    }
  }

  /** In every reachable state with commandmutex free: a response object is pending exactly when some
      thread holds requestmutex and waits on commandcond, it is that thread's own, and no other thread
      waits there. */
  lemma {:induction false} OneCommandOwnsTheChannel(ss: seq<State>, acts: seq<Action>, i: nat, t: Tid)
    requires Run(ss, acts) && i < |ss| && ss[i].mutex.None? && t in ss[i].threads
    ensures ss[i].threads[t].WaitCommand? <==> ss[i].owner == Some(t)
    ensures ss[i].threads[t].WaitCommand? <==>
              ss[i].current.Some? && ss[i].current.value.tid == t
    ensures ss[i].threads[t].WaitCommand? ==>
              forall u :: u in ss[i].threads && ss[i].threads[u].WaitCommand? ==> u == t
    ensures ss[i].current.Some? ==> ss[i].owner == Some(ss[i].current.value.tid)
  {
    Reachable(ss, acts, i);
  }

  /** AT_ERROR_COMMAND_PENDING is never returned, and nothing but its maker frees a response. */
  lemma {:induction false} NeverPendingNeverForeign(ss: seq<State>, acts: seq<Action>, i: nat)
    requires Run(ss, acts) && i < |ss|
    ensures forall d :: d in ss[i].done ==> d.error != CommandPending
    ensures forall f :: f in ss[i].freed ==> f.thread == f.maker
  {
    Reachable(ss, acts, i);
    forall d | d in ss[i].done ensures d.error != CommandPending {
      assert DoneOk(ss[i].lines, ss[i].sent, ss[i].nextId, Number(ss[i]), d);
    }
  }

  lemma {:induction false} BelowOnce(n: nat, k: nat)
    ensures Below(n)[k] == if k < n then 1 else 0
  {
    if n > 0 {
      BelowOnce(n - 1, k);
    }
  }

  /** Every response object ever made is, exactly once, freed, handed to its caller or pending: none is
      leaked by the channel, freed twice, or both freed and handed over. */
  lemma {:induction false} ResponsesAccounted(ss: seq<State>, acts: seq<Action>, i: nat, id: nat)
    requires Run(ss, acts) && i < |ss|
    ensures FreedIds(ss[i].freed)[id] + HandedIds(ss[i].done)[id] + CurrentId(ss[i])[id]
         == if id < ss[i].nextId then 1 else 0
  {
    Reachable(ss, acts, i);
    BelowOnce(ss[i].nextId, id);
  }

  /** Nobody waits for nothing: if no thread is able to move, a thread waits for the modem, whose final
      response has not come, on a channel that is not closed; or all threads are idle. */
  lemma {:induction false} BlockedOnlyOnModem(ss: seq<State>, acts: seq<Action>, i: nat)
    requires Run(ss, acts) && i < |ss| && ss[i].mutex.None?
    requires forall t :: t in ss[i].threads ==>
               var pc := ss[i].threads[t];
               pc.Idle? || (pc.WaitRequest? && !pc.signalled) || (pc.WaitCommand? && !pc.signalled)
    ensures (forall t :: t in ss[i].threads ==> ss[i].threads[t].Idle?) || (
              && ss[i].owner.Some? && ss[i].owner.value in ss[i].threads
              && ss[i].threads[ss[i].owner.value].WaitCommand?
              && !ss[i].closed && ss[i].current.Some? && ss[i].current.value.command.response.final.None?)
  {
    Reachable(ss, acts, i);
  }

  // ---------------------------------------------------------------- the contract of a call

  /** What a caller sees of a finished call: the wrappers for single-line, numeric and SMS commands turn a
      successful answer without an intermediate line into an error. */
  function Returned(d: Done): (Error, Option<Response>) {
    if (d.call.ctype.SingleLine? || d.call.ctype.Numeric?)
       && d.error == NoError && d.call.wantsResponse && d.out.Some? && d.out.value.success && d.out.value.lines == []
    then (InvalidResponse, None)
    else (d.error, d.out)
  }

  /** A call that returns 0 with an out-pointer hands over a response with a final line, whose success
      flag tells its class, and with exactly the lines routed to this call, in order of arrival: none
      without a result type, at most one for numeric and single-line commands, exactly one when such a
      command succeeded.  All match the prefix, or start with a digit. */
  lemma {:induction false} CallContract(ss: seq<State>, acts: seq<Action>, i: nat, d: Done)
    requires Run(ss, acts) && i < |ss| && d in ss[i].done
    requires Returned(d).0 == NoError && d.call.wantsResponse
    ensures d.id.Some? && Returned(d).1.Some?
    ensures var r := Returned(d).1.value;
            && r.final.Some? && IsFinal(r.final.value) && r.success == IsFinalSuccess(r.final.value)
            && r.final == Last(RoutedTo(ss[i].lines, ToFinal(d.id.value)))
            && r.lines == RoutedTo(ss[i].lines, ToList(d.id.value))
            && (forall l :: l in r.lines ==> Matches(d.call.ctype, d.call.prefix, l))
            && (d.call.ctype.NoResult? ==> r.lines == [])
            && ((d.call.ctype.Numeric? || d.call.ctype.SingleLine?) ==> |r.lines| <= 1)
            && ((d.call.ctype.Numeric? || d.call.ctype.SingleLine?) && r.success ==> |r.lines| == 1)
  {
    Reachable(ss, acts, i);
    assert DoneOk(ss[i].lines, ss[i].sent, ss[i].nextId, Number(ss[i]), d);
    var r := d.out.value;
    if r.lines != [] {
      assert r.lines[0] in r.lines;
    }
  }

  /** Of all the prompts that arrive at most one is routed to a command, and one PDU is written for it if the
      write succeeds; otherwise none. */
  lemma {:induction false} PduSentAtMostOnce(ss: seq<State>, acts: seq<Action>, i: nat, id: nat)
    requires Run(ss, acts) && i < |ss|
    ensures PromptsAnswered(ShareOf(ss[i].lines, ss[i].sent, id))
  {
    if i > 0 {
      PduSentAtMostOnce(ss, acts, i - 1, id);
      StepPrompts(ss, acts, i - 1, id);
    }
  }

  ghost predicate PromptsAnswered(share: Share) {
    |share.sent| == |share.answered| && |share.answered| + |share.refused| <= 1
  }

  lemma {:induction false} StepPrompts(ss: seq<State>, acts: seq<Action>, i: nat, id: nat)
    requires Run(ss, acts) && i < |acts| && PromptsAnswered(ShareOf(ss[i].lines, ss[i].sent, id))
    ensures PromptsAnswered(ShareOf(ss[i + 1].lines, ss[i + 1].sent, id))
  {
    Reachable(ss, acts, i);
    NextPrompts(ss[i], acts[i], id);
  }

  lemma {:induction false} NextPrompts(s: State, a: Action, id: nat)
    requires Inv(s) && CurrentOk(s) && Enabled(s, a) && PromptsAnswered(ShareOf(s.lines, s.sent, id))
    ensures PromptsAnswered(ShareOf(Next(s, a).lines, Next(s, a).sent, id))
  {
    if a.ReadLine? {
      DeliverPrompts(s, a.line, a.wake, a.write, id);
    } else {
      OnlyReadingPutsOut(s, a);
    }
  }

  lemma {:induction false} OnlyReadingPutsOut(s: State, a: Action)
    requires Inv(s) && Enabled(s, a) && !a.ReadLine?
    ensures Next(s, a).lines == s.lines && Next(s, a).sent == s.sent && Next(s, a).unsolicited == s.unsolicited
  {
    match a
    case Issue(t, call) =>
    case Lock(t, w) => TryRequestPutsOut(s, t, s.threads[t].call, w);
    case WakeRequest(t, w) => TryRequestPutsOut(s, t, s.threads[t].call, w);
    case WakeCommand(t, timedOut) =>
    case NextAttempt(t, w) => TryRequestPutsOut(s, t, s.threads[t].call, w);
    case Unlock(t) =>
    case Close(wake) =>
  }

  lemma TryRequestPutsOut(s: State, t: Tid, call: Call, write: Error)
    ensures var s' := TryRequest(s, t, call, write);
            s'.lines == s.lines && s'.sent == s.sent && s'.unsolicited == s.unsolicited && s'.closed == s.closed
  {
  }

  lemma {:induction false} DeliverPrompts(s: State, line: string, wake: Tid, write: Error, id: nat)
    requires CurrentOk(s) && PromptsAnswered(ShareOf(s.lines, s.sent, id))
    ensures var s' := Deliver(s, line, wake, write); PromptsAnswered(ShareOf(s'.lines, s'.sent, id))
  {
    DeliverChanges(s, line, wake, write);
    if s.current.None? {
      OtherPrompts(s.lines, s.sent, Entry(line, ToUnsolicited), [], id);
    } else if s.current.value.id == id {
      OwnPrompts(s.lines, s.sent, s.current.value, line, write);
    } else {
      var c := s.current.value;
      OtherPrompts(s.lines, s.sent, Entry(line, DestOf(c, line, write)), SentAt(c, line, write), id);
    }
  }

  /** A line for another command, or for none. */
  lemma {:induction false} OtherPrompts(es: seq<Entry>, ws: seq<Written>, e: Entry, w: seq<Written>, id: nat)
    requires PromptsAnswered(ShareOf(es, ws, id)) && |w| <= 1
    requires (e.dest.ToUnsolicited? || e.dest.id != id) && (w == [] || w[0].id != id)
    ensures PromptsAnswered(ShareOf(es + [e], ws + w, id))
  {
    ShareMore(es, ws, e, w, id);
  }

  lemma {:induction false} OwnPrompts(es: seq<Entry>, ws: seq<Written>, c: Current, line: string, write: Error)
    requires CommandOk(ShareOf(es, ws, c.id), c)
    ensures PromptsAnswered(ShareOf(es + [Entry(line, DestOf(c, line, write))], ws + SentAt(c, line, write), c.id))
  {
    ShareGrows(es, ws, c, line, write);
    RouteCommand(ShareOf(es, ws, c.id), c, line, write);
    OneAnswer(ShareAfter(ShareOf(es, ws, c.id), c, line, write), c.call);
  }

  lemma OneAnswer(share: Share, call: Call)
    requires PduOk(share, call)
    ensures PromptsAnswered(share)
  {
  }

  /** Nothing is written from the close of the channel on. */
  lemma {:induction false} ClosedSendsNothing(ss: seq<State>, acts: seq<Action>, i: nat, j: nat)
    requires Run(ss, acts) && i <= j < |ss| && ss[i].closed
    ensures ss[j].closed && ss[j].sent == ss[i].sent
    decreases j
  {
    if i < j {
      ClosedSendsNothing(ss, acts, i, j - 1);
      StepClosed(ss, acts, j - 1);
    }
  }

  lemma {:induction false} StepClosed(ss: seq<State>, acts: seq<Action>, i: nat)
    requires Run(ss, acts) && i < |acts| && ss[i].closed
    ensures ss[i + 1].closed && ss[i + 1].sent == ss[i].sent
  {
    Reachable(ss, acts, i);
    ClosedStep(ss[i], acts[i]);
  }

  lemma {:induction false} ClosedStep(s: State, a: Action)
    requires Inv(s) && Enabled(s, a) && s.closed
    ensures Next(s, a).closed && Next(s, a).sent == s.sent
  {
    match a
    case Issue(t, call) =>
    case Lock(t, w) => TryRequestPutsOut(s, t, s.threads[t].call, w);
    case WakeRequest(t, w) => TryRequestPutsOut(s, t, s.threads[t].call, w);
    case WakeCommand(t, timedOut) =>
    case NextAttempt(t, w) => TryRequestPutsOut(s, t, s.threads[t].call, w);
    case Unlock(t) =>
    case ReadLine(line, wake, w) =>
    case Close(wake) =>
  }

  /** The PDU written for a command is that of its call, and it is written exactly if a prompt was routed
      to the command and the write succeeded; so for every finished call, and for the pending one. */
  lemma {:induction false} PduOfItsCall(ss: seq<State>, acts: seq<Action>, i: nat)
    requires Run(ss, acts) && i < |ss|
    ensures forall d :: d in ss[i].done && d.id.Some? ==> PduOk(ShareOf(ss[i].lines, ss[i].sent, d.id.value), d.call)
    ensures ss[i].current.Some? ==>
              PduOk(ShareOf(ss[i].lines, ss[i].sent, ss[i].current.value.id), ss[i].current.value.call)
  {
    Reachable(ss, acts, i);
    forall d | d in ss[i].done && d.id.Some? ensures PduOk(ShareOf(ss[i].lines, ss[i].sent, d.id.value), d.call) {
      assert DoneOk(ss[i].lines, ss[i].sent, ss[i].nextId, Number(ss[i]), d);
    }
  }

  /** The lines given to processLine, in order. */
  function LinesRead(acts: seq<Action>): seq<string> {
    if acts == [] then []
    else LinesRead(acts[..|acts| - 1]) + if acts[|acts| - 1].ReadLine? then [acts[|acts| - 1].line] else []
  }

  function EntryLines(es: seq<Entry>): seq<string> {
    if es == [] then [] else EntryLines(es[..|es| - 1]) + [es[|es| - 1].line]
  }

  /** Every line given to processLine has one destination, and the destinations hold exactly the lines
      routed to them, in order: the unsolicited handler, the prompts answered, the list and the final slot
      of the pending command. */
  lemma {:induction false} EveryLineRoutedOnce(ss: seq<State>, acts: seq<Action>, i: nat)
    requires Run(ss, acts) && i < |ss|
    ensures var s := ss[i];
            && EntryLines(s.lines) == LinesRead(acts[..i])
            && s.unsolicited == RoutedTo(s.lines, ToUnsolicited)
            && (forall id: nat :: PromptsAnswered(ShareOf(s.lines, s.sent, id)))
            && (s.current.Some? ==>
                  var c := s.current.value;
                  && Handed(c.command.response).lines == RoutedTo(s.lines, ToList(c.id))
                  && c.command.response.final == Last(RoutedTo(s.lines, ToFinal(c.id))))
  {
    Reachable(ss, acts, i);
    LinesInOrder(ss, acts, i);
    forall id: nat ensures PromptsAnswered(ShareOf(ss[i].lines, ss[i].sent, id)) {
      PduSentAtMostOnce(ss, acts, i, id);
    }
  }

  lemma {:induction false} LinesInOrder(ss: seq<State>, acts: seq<Action>, i: nat)
    requires Run(ss, acts) && i < |ss|
    ensures EntryLines(ss[i].lines) == LinesRead(acts[..i])
  {
    if i > 0 {
      LinesInOrder(ss, acts, i - 1);
      assert acts[..i][..i - 1] == acts[..i - 1];
      StepLines(ss, acts, i - 1);
    }
  }

  lemma {:induction false} StepLines(ss: seq<State>, acts: seq<Action>, i: nat)
    requires Run(ss, acts) && i < |acts|
    ensures EntryLines(ss[i + 1].lines) == EntryLines(ss[i].lines) + if acts[i].ReadLine? then [acts[i].line] else []
  {
    Reachable(ss, acts, i);
    NextLines(ss[i], acts[i]);
  }

  lemma {:induction false} NextLines(s: State, a: Action)
    requires Inv(s) && Enabled(s, a)
    ensures EntryLines(Next(s, a).lines) == EntryLines(s.lines) + if a.ReadLine? then [a.line] else []
  {
    if a.ReadLine? {
      DeliverChanges(s, a.line, a.wake, a.write);
      assert Next(s, a).lines[..|s.lines|] == s.lines;
    } else {
      OnlyReadingPutsOut(s, a);
    }
  }

  /** A line that goes to one destination touches no other. */
  lemma {:induction false} OneLineOneEffect(s: State, line: string, wake: Tid, write: Error)
    requires s.current.Some?
    ensures var s', c := Deliver(s, line, wake, write), s.current.value;
            var d, r, r' := DestOf(c, line, write), c.command.response, s'.current.value.command.response;
            && s'.current.Some? && s'.freed == s.freed && s'.done == s.done && s'.owner == s.owner
            && s'.closed == s.closed
            && (!d.ToUnsolicited? ==> s'.unsolicited == s.unsolicited)
            && (!d.ToPrompt? ==> s'.sent == s.sent && s'.current.value.command.sms == c.command.sms)
            && (!d.ToFinal? ==> r'.final == r.final && r'.success == r.success && s'.threads == s.threads)
            && (!d.ToList? ==> r'.lines == r.lines)
            && (d.ToUnsolicited? ==> s'.unsolicited == s.unsolicited + [line])
            && (d.ToPrompt? ==>
                  && s'.sent == s.sent + (if write == NoError then [Written(c.id, c.command.sms.value)] else [])
                  && s'.current.value.command.sms.None?)
            && (d.ToFinal? ==> r'.final == Some(line) && r'.success == IsFinalSuccess(line))
            && (d.ToList? ==> r'.lines == [line] + r.lines)
  {
  }
}
