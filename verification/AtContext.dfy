/**
 The objects of an AT channel that change in place: the list of intermediate lines, its reversal, and
 the routing of a line into them.
 */
module AtContext {
  import opened Common
  import opened AtRouting

  /** strStartsWith: a character loop that stops at the end of either string. */
  method StrStartsWith(line: string, prefix: string) returns (yes: bool)
    ensures yes <==> prefix <= line
  {
    var i := 0;
    while i < |line| && i < |prefix|
      invariant i <= |line| && i <= |prefix| && prefix[..i] == line[..i]
    {
      if line[i] != prefix[i] {
        return false;
      }
      i := i + 1;
    }
    yes := i == |prefix|;
  }

  /** The tables of final responses. */
  method StartsWithOne(line: string, prefixes: seq<string>) returns (yes: bool)
    ensures yes <==> StartsWithAny(line, prefixes)
  {
    var i := 0;
    while i < |prefixes|
      invariant i <= |prefixes| && forall j :: 0 <= j < i ==> !(prefixes[j] <= line)
    {
      var hit := StrStartsWith(line, prefixes[i]);
      if hit {
        return true;
      }
      i := i + 1;
    }
    yes := false;
  }

  class AtLine {
    const line: string
    var next: AtLine?

    constructor (line: string, next: AtLine?)
      ensures this.line == line && this.next == next
    {
      this.line := line;
      this.next := next;
    }
  }

  /** The nodes ns form the list that starts at head. */
  ghost predicate IsList(head: AtLine?, ns: seq<AtLine>)
    reads ns
  {
    && (head == if ns == [] then null else ns[0])
    && (forall i {:trigger ns[i].next} :: 0 <= i < |ns| ==> ns[i].next == if i + 1 < |ns| then ns[i + 1] else null)
    && (forall i, j :: 0 <= i < j < |ns| ==> ns[i] != ns[j])
  }

  /** The turned part and the rest of the nodes ns. */
  ghost predicate Apart(done: seq<AtLine>, rest: seq<AtLine>, ns: seq<AtLine>) {
    && (forall i, j :: 0 <= i < |done| && 0 <= j < |rest| ==> done[i] != rest[j])
    && (forall i :: 0 <= i < |done| ==> done[i] in ns)
    && (forall i :: 0 <= i < |rest| ==> rest[i] in ns)
  }

  lemma ApartMove(done: seq<AtLine>, rest: seq<AtLine>, ns: seq<AtLine>)
    requires Apart(done, rest, ns) && rest != [] && forall j :: 0 < j < |rest| ==> rest[0] != rest[j]
    ensures Apart([rest[0]] + done, rest[1..], ns)
  {
  }

  function Texts(ns: seq<AtLine>): (ts: seq<string>)
    ensures |ts| == |ns|
    ensures forall i :: 0 <= i < |ns| ==> ts[i] == ns[i].line
  {
    seq(|ns|, i requires 0 <= i < |ns| => ns[i].line)
  }

  class AtResponse {
    var success: bool
    var finalResponse: Option<string>
    var intermediates: AtLine?
    ghost var nodes: seq<AtLine>

    ghost predicate Valid()
      reads this, nodes
    {
      IsList(intermediates, nodes)
    }

    ghost function Value(): Response
      reads this
    {
      Response(success, finalResponse, Texts(nodes))
    }

    constructor ()
      ensures Valid() && Value() == NEW_RESPONSE && nodes == []
    {
      success, finalResponse, intermediates, nodes := false, None, null, [];
    }

    /** Puts a line in front of the list. */
    method AddIntermediate(line: string)
      requires Valid()
      modifies this
      ensures Valid() && Value() == old(Value()).(lines := [line] + old(Value().lines))
      ensures |nodes| == |old(nodes)| + 1 && fresh(nodes[0]) && nodes[1..] == old(nodes)
    {
      var node := new AtLine(line, intermediates);
      intermediates := node;
      nodes := [node] + nodes;
    }

    /** Moves the first node of the list at current in front of the turned part; returns the next one. */
    method MoveFirst(current: AtLine, ghost done: seq<AtLine>, ghost rest: seq<AtLine>) returns (next: AtLine?)
      requires IsList(current, rest) && IsList(intermediates, done)
      requires forall i, j :: 0 <= i < |done| && 0 <= j < |rest| ==> done[i] != rest[j]
      modifies `intermediates, current`next
      ensures rest != [] && current == rest[0]
      ensures IsList(next, rest[1..]) && IsList(intermediates, [rest[0]] + done)
    {
      next := current.next;
      current.next := intermediates;
      intermediates := current;
    }

    /** Turns the list around in place, moving one node at a time in front of the turned part. */
    method ReverseIntermediates()
      requires Valid()
      modifies this, nodes
      ensures Valid() && Value() == Handed(old(Value())) && nodes == Reversed(old(nodes))
    {
      ghost var ns := nodes;
      var current := intermediates;
      intermediates, nodes := null, Reversed(ns);
      ghost var done, rest: seq<AtLine> := [], ns;
      while current != null
        invariant Reversed(ns) == Reversed(rest) + done
        invariant IsList(current, rest) && IsList(intermediates, done)
        invariant Apart(done, rest, ns)
        invariant nodes == Reversed(ns)
        invariant success == old(success) && finalResponse == old(finalResponse)
        decreases |rest|
      {
        assert current == rest[0] && rest[0] in ns;
        ApartMove(done, rest, ns);
        ReversedMove(rest, done);
        current := MoveFirst(current, done, rest);
        done, rest := [rest[0]] + done, rest[1..];
      }
      assert rest == [] && done == Reversed(ns);
      ReversedTexts(ns);
    }
  }

  lemma ReversedMove<T>(rest: seq<T>, done: seq<T>)
    requires rest != []
    ensures Reversed(rest) + done == Reversed(rest[1..]) + ([rest[0]] + done)
  {
    Assoc(Reversed(rest[1..]), [rest[0]], done);
  }

  lemma {:induction false} ReversedTexts(ns: seq<AtLine>)
    ensures Texts(Reversed(ns)) == Reversed(Texts(ns))
  {
    if ns != [] {
      ReversedTexts(ns[1..]);
      assert Texts(ns)[1..] == Texts(ns[1..]);
      assert Texts(Reversed(ns[1..]) + [ns[0]]) == Texts(Reversed(ns[1..])) + [ns[0].line];
    }
  }

  class Context {
    var ctype: CommandType
    var prefix: string
    var smsPdu: Option<string>
    var response: AtResponse?
    var fd: int
    var readerClosed: bool
    /** The PDUs written, to their end, at SMS prompts, and what the unsolicited handler got. */
    var sent: seq<string>
    var unsolicited: seq<string>

    ghost predicate Valid()
      reads this, response, if response != null then response.nodes else []
    {
      response != null ==> response.Valid()
    }

    ghost function Command(): Option<Pending>
      reads this, response
    {
      if response == null then None else Some(Pending(ctype, prefix, smsPdu, response.Value()))
    }

    constructor ()
      ensures Valid() && Command() == None && sent == [] && unsolicited == []
    {
      ctype, prefix, smsPdu, response, sent, unsolicited := NoResult, "", None, null, [], [];
      fd, readerClosed := -1, false;
    }

    method HandleUnsolicited(line: string)
      modifies `unsolicited
      ensures unsolicited == old(unsolicited) + [line]
    {
      unsolicited := unsolicited + [line];
    }

    /** Whether a write can be made at all. */
    predicate IsOpen()
      reads this
    {
      fd >= 0 && !readerClosed
    }

    /** writeCtrlZ; `succeeds` is the result of the writes if they are made. */
    method WriteCtrlZ(pdu: string, succeeds: bool) returns (ok: bool)
      modifies `sent
      ensures ok == (fd >= 0 && !readerClosed && succeeds)
      ensures sent == old(sent) + if ok then [pdu] else []
    {
      if fd < 0 || readerClosed {
        return false;
      }
      if succeeds {
        sent := sent + [pdu];
      }
      ok := succeeds;
    }

    /** Routes one line, with commandmutex held.  The result of writing the PDU is not looked at. */
    method ProcessLine(line: string, writeSucceeds: bool)
      requires Valid()
      modifies this, response
      ensures Valid() && response == old(response) && fd == old(fd) && readerClosed == old(readerClosed)
      ensures old(Command()).None? ==> Command().None? && sent == old(sent) && unsolicited == old(unsolicited) + [line]
      ensures old(Command()).Some? ==>
                var p := old(Command()).value;
                && Command() == Some(Process(p, line))
                && sent == old(sent) + (if RouteOf(p, line).Prompt? && IsOpen() && writeSucceeds then [p.sms.value]
                                        else [])
                && unsolicited == old(unsolicited) + (if RouteOf(p, line).Unsolicited? then [line] else [])
    {
      if response == null {
        HandleUnsolicited(line);
        return;
      }
      var isSuccess := StartsWithOne(line, FINAL_SUCCESSES);
      var isError := StartsWithOne(line, FINAL_ERRORS);
      if isSuccess {
        response.success := true;
        response.finalResponse := Some(line);
      } else if isError {
        response.success := false;
        response.finalResponse := Some(line);
      } else if smsPdu.Some? && line == PROMPT {
        var ok := WriteCtrlZ(smsPdu.value, writeSucceeds);
        smsPdu := None;
      } else {
        Collect(line);
      }
    }

    /** addIntermediate: the line goes in front of the list. */
    method Keep(line: string)
      requires Valid() && response != null && RouteOf(Command().value, line).Intermediate?
      modifies response
      ensures Valid() && Command() == Some(Process(old(Command()).value, line))
    {
      response.AddIntermediate(line);
    }

    /** The switch on the command type. */
    method Collect(line: string)
      requires Valid() && response != null
      requires !IsFinal(line) && !(smsPdu.Some? && line == PROMPT)
      modifies `unsolicited, response
      ensures Valid()
      ensures Command() == Some(Process(old(Command()).value, line))
      ensures unsolicited == old(unsolicited)
                             + (if RouteOf(old(Command()).value, line).Unsolicited? then [line] else [])
    {
      assert response.intermediates == null <==> response.Value().lines == [];
      match ctype
      case NoResult => HandleUnsolicited(line);
      case Numeric =>
        if response.intermediates == null && line != "" && '0' <= line[0] <= '9' {
          Keep(line);
        } else {
          HandleUnsolicited(line);
        }
      case SingleLine =>
        var hit := StrStartsWith(line, prefix);
        if response.intermediates == null && hit {
          Keep(line);
        } else {
          HandleUnsolicited(line);
        }
      case MultiLine =>
        var hit := StrStartsWith(line, prefix);
        if hit {
          Keep(line);
        } else {
          HandleUnsolicited(line);
        }
    }
  }
}
