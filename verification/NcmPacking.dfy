/** What a call of the packer does with the datagrams it holds and the one it is given, told as a queue: the
    pending one, then the submitted one. */
module NcmPacking {
  import opened Common
  import opened NcmSpec
  import opened NcmRuns

  // ---------------------------------------------------------------- the queue

  /** How many datagrams of the queue q go into a frame that holds n and goes on at `offset`: as long as
      there are fewer than 32, the frame goes on inside the buffer and the next one fits. */
  function Packs(p: Params, n: nat, offset: nat, q: seq<Bytes>): (k: nat)
    requires p.modulus > 0
    ensures k <= |q|
    decreases |q|
  {
    if q == [] || n >= 32 || offset >= p.txMax || offset + |q[0]| > p.txMax then 0
    else 1 + Packs(p, n + 1, Aligned(p, offset + |q[0]|), q[1..])
  }

  /** Where the frame goes on behind the datagrams ds. */
  function Place(p: Params, offset: nat, ds: seq<Bytes>): nat
    requires p.modulus > 0
    decreases |ds|
  {
    if ds == [] then offset else Place(p, Aligned(p, offset + |ds[0]|), ds[1..])
  }

  /** A queue cut in two: the datagrams that are packed, those that are left, and where the frame goes on. */
  datatype Cut = Cut(packed: seq<Bytes>, left: seq<Bytes>, at: nat)

  function CutQueue(p: Params, n: nat, offset: nat, q: seq<Bytes>): Cut
    requires p.modulus > 0
  {
    var k := Packs(p, n, offset, q);
    Cut(q[..k], q[k..], Place(p, offset, q[..k]))
  }

  /** The frame, which holds n, ends because the first datagram left is too long for the room there is. */
  predicate TooLong(p: Params, n: nat, c: Cut) {
    c.left != [] && n < 32 && c.at < p.txMax
  }

  /** What becomes of the datagrams `left` that do not go into a frame which then holds n: the one that is
      kept pending, and how many are dropped.  `inHand` says that none was packed and two were queued. */
  function Remaining(left: seq<Bytes>, n: nat, tooLong: bool, inHand: bool): (Option<Bytes>, nat) {
    if left == [] then (None, 0)
    else if tooLong && n == 0 then (if |left| > 1 then Some(left[1]) else None, 1)
    else if tooLong then (Some(left[0]), |left| - 1)
    else if inHand && |left| > 1 then (Some(left[1]), 1)
    else (Some(left[0]), 0)
  }

  // ---------------------------------------------------------------- the loop

  function Queue(l: Loop): seq<Bytes> {
    OptSeq(l.skb) + OptSeq(l.pending)
  }

  /** A turn of the loop that packs a datagram: the first of the queue. */
  lemma {:induction false} QueueTurn(p: Params, l: Loop, t: Loop)
    requires p.modulus > 0 && Turn(p, l) == (t, true)
    ensures Queue(l) != [] && Queue(l) == [Queue(l)[0]] + Queue(t)
    ensures var d := Queue(l)[0];
            && |l.b.ds| < 32 && l.b.offset < p.txMax && l.b.offset + |d| <= p.txMax
            && t.b.ds == l.b.ds + [d] && t.b.offset == Aligned(p, l.b.offset + |d|)
    ensures t.timeout == l.timeout && t.dropped == l.dropped && t.skb.None?
    ensures |Queue(t)| <= 1 && (Queue(t) != [] ==> t.pending == Some(Queue(t)[0]))
  {
  }

  /** The loop, started at l, ends at l' as the cut c of its queue says. */
  ghost predicate EndsAs(p: Params, l: Loop, c: Cut, l': Loop) {
    var n := |l.b.ds| + |c.packed|;
    var tooLong := TooLong(p, n, c);
    && l'.b.ds == l.b.ds + c.packed && l'.b.offset == c.at
    && l'.timeout == (l.timeout || (tooLong && n > 0))
    && (c.left == [] ==> l'.skb.None? && l'.pending.None? && l'.dropped == l.dropped)
    && (tooLong ==> l'.skb.None? && (l'.pending, l'.dropped - l.dropped) == Remaining(c.left, n, true, false))
    && (c.left != [] && !tooLong ==>
          && l'.dropped == l.dropped
          && (if c.packed == [] then l'.skb == l.skb && l'.pending == l.pending
              else l'.skb.None? && l'.pending == Some(c.left[0]) && |c.left| == 1))
  }

  lemma {:induction false} LoopEnds(p: Params, l: Loop)
    requires p.modulus > 0 && !Turn(p, l).1
    ensures Packs(p, |l.b.ds|, l.b.offset, Queue(l)) == 0
    ensures EndsAs(p, l, Cut([], Queue(l), l.b.offset), Turn(p, l).0)
  {
    var q := Queue(l);
    if q != [] {
      assert q[0] == if l.skb.Some? then l.skb.value else l.pending.value;
    }
  }

  lemma CutNothing(p: Params, n: nat, offset: nat, q: seq<Bytes>)
    requires p.modulus > 0 && Packs(p, n, offset, q) == 0
    ensures CutQueue(p, n, offset, q) == Cut([], q, offset)
  {
  }

  /** One more datagram in front of a queue, if it is packed. */
  lemma {:induction false} QueueShift(p: Params, n: nat, offset: nat, next: nat, d: Bytes, q: seq<Bytes>)
    requires p.modulus > 0 && n < 32 && offset < p.txMax && offset + |d| <= p.txMax
    requires next == Aligned(p, offset + |d|)
    ensures var c := CutQueue(p, n + 1, next, q);
            CutQueue(p, n, offset, [d] + q) == Cut([d] + c.packed, c.left, c.at)
  {
    var k := Packs(p, n + 1, next, q);
    assert ([d] + q)[1..] == q;
    assert ([d] + q)[..k + 1] == [d] + q[..k] && ([d] + q)[..k + 1][1..] == q[..k];
  }

  lemma EndsLonger(p: Params, l: Loop, t: Loop, d: Bytes, c: Cut, c': Cut, l': Loop)
    requires EndsAs(p, t, c, l') && t.b.ds == l.b.ds + [d]
    requires t.timeout == l.timeout && t.dropped == l.dropped && t.skb.None?
    requires c.left != [] && c.packed == [] ==> t.pending == Some(c.left[0])
    requires |c.left| <= 1 && c' == Cut([d] + c.packed, c.left, c.at)
    ensures EndsAs(p, l, c', l')
  {
    Assoc(l.b.ds, [d], c.packed);
  }

  /** The cut of the queue of l. */
  function CutOf(p: Params, l: Loop): Cut
    requires p.modulus > 0
  {
    CutQueue(p, |l.b.ds|, l.b.offset, Queue(l))
  }

  lemma CutWhole(p: Params, l: Loop, c: Cut)
    requires p.modulus > 0 && c == CutOf(p, l)
    ensures |c.left| <= |Queue(l)| && (c.packed == [] ==> c.left == Queue(l))
  {
  }

  lemma {:induction false} PackOne(p: Params, l: Loop, t: Loop, later: Cut, l': Loop) returns (c: Cut)
    requires p.modulus > 0 && Turn(p, l) == (t, true) && EndsAs(p, t, later, l') && later == CutOf(p, t)
    ensures c == CutOf(p, l) && EndsAs(p, l, c, l')
  {
    QueueTurn(p, l, t);
    CutWhole(p, t, later);
    var d := Queue(l)[0];
    c := Cut([d] + later.packed, later.left, later.at);
    QueueShift(p, |l.b.ds|, l.b.offset, t.b.offset, d, Queue(t));
    EndsLonger(p, l, t, d, later, c, l');
  }

  lemma {:induction false} PackNone(p: Params, l: Loop, l': Loop) returns (c: Cut)
    requires p.modulus > 0 && Turn(p, l) == (l', false)
    ensures c == CutOf(p, l) && EndsAs(p, l, c, l')
  {
    LoopEnds(p, l);
    CutNothing(p, |l.b.ds|, l.b.offset, Queue(l));
    c := Cut([], Queue(l), l.b.offset);
  }

  lemma LoopTurn(p: Params, l: Loop, t: Loop, more: bool)
    requires p.modulus > 0 && Turn(p, l) == (t, more)
    ensures PackLoop(p, l) == if more then PackLoop(p, t) else t
  {
  }

  lemma {:induction false} PackExact(p: Params, l: Loop, l': Loop) returns (c: Cut)
    requires p.modulus > 0 && l' == PackLoop(p, l)
    ensures c == CutOf(p, l) && EndsAs(p, l, c, l')
    decreases OptLen(l.skb) + OptLen(l.pending)
  {
    var t, more := Turn(p, l).0, Turn(p, l).1;
    LoopTurn(p, l, t, more);
    if more {
      var later := PackExact(p, t, l');
      c := PackOne(p, l, t, later, l');
    } else {
      c := PackNone(p, l, l');
    }
  }

  // ---------------------------------------------------------------- one call

  /** One call with a frame to fill.  It takes as much of the queue as goes into the frame.  The frame goes
      out, with the state's number, if it holds anything and is full, nothing was submitted, or the next
      datagram is too long for it; otherwise it stays open, and with one or two datagrams it waits for two
      more ticks. */
  ghost predicate Calls(p: Params, s: TxState, skb: Option<Bytes>, s': TxState, f: Option<Frame>)
    requires p.modulus > 0 && p.ndpModulus > 0
  {
    var ds := if s.open.Some? then s.open.value.ds else [];
    var offset := if s.open.Some? then s.open.value.offset else FirstOffset(p);
    CallsAs(p, s, skb, ds, CutQueue(p, |ds|, offset, OptSeq(s.pending) + OptSeq(skb)), s', f)
  }

  /** The same, by the datagrams ds of the frame and the cut of the queue. */
  ghost predicate CallsAs(p: Params, s: TxState, skb: Option<Bytes>, ds: seq<Bytes>, c: Cut, s': TxState,
                          f: Option<Frame>)
  {
    var n := |ds| + |c.packed|;
    var tooLong := TooLong(p, n, c);
    var sends := n > 0 && (n >= 32 || skb.None? || tooLong);
    && (s'.pending, s'.dropped - s.dropped)
       == Remaining(c.left, n, tooLong, c.packed == [] && s.pending.Some? && skb.Some?)
    && (if sends then
          && f.Some? && f.value.contents.ds == ds + c.packed && f.value.seqNo == s.seqNo
          && s'.open.None? && s'.timer == s.timer
        else
          && f.None? && s'.open.Some? && s'.open.value.ds == ds + c.packed && s'.open.value.offset == c.at
          && s'.timer == (if n == 1 || n == 2 then 2 else s.timer))
  }

  /** A call without a frame, when no memory can be had: a submitted datagram becomes the pending one, and
      the one that was pending is dropped. */
  ghost predicate NoMemory(s: TxState, skb: Option<Bytes>, s': TxState, f: Option<Frame>) {
    && f.None? && s'.open.None? && s'.timer == s.timer
    && s'.pending == (if skb.Some? then skb else s.pending)
    && s'.dropped == s.dropped + if skb.Some? && s.pending.Some? then 1 else 0
  }

  /** The packet still in hand is freed. */
  lemma FreeLoose(p: Params, s: TxState, skb: Option<Bytes>, l: Loop, c: Cut, l': Loop)
    requires p.modulus > 0 && p.ndpModulus > 0 && l == StartLoop(p, s, skb) && EndsAs(p, l, c, l')
    requires c.packed == [] ==> c.left == Queue(l)
    ensures var n := |l.b.ds| + |c.packed|;
            (l'.pending, l'.dropped + OptLen(l'.skb) - s.dropped)
            == Remaining(c.left, n, TooLong(p, n, c), c.packed == [] && s.pending.Some? && skb.Some?)
  {
  }

  lemma {:induction false} FinishExact(p: Params, s: TxState, skb: Option<Bytes>, l: Loop, c: Cut, l': Loop)
    requires p.modulus > 0 && p.ndpModulus > 0 && l == StartLoop(p, s, skb) && EndsAs(p, l, c, l')
    requires c.packed == [] ==> c.left == Queue(l)
    ensures CallsAs(p, s, skb, l.b.ds, c, FinishLoop(s.seqNo, s.timer, l').0, FinishLoop(s.seqNo, s.timer, l').1)
  {
    FreeLoose(p, s, skb, l, c, l');
  }

  lemma {:induction false} StepCalls(p: Params, s: TxState, skb: Option<Bytes>, l: Loop)
    requires p.modulus > 0 && p.ndpModulus > 0 && l == StartLoop(p, s, skb)
    ensures var (s', f) := FinishLoop(s.seqNo, s.timer, PackLoop(p, l)); Calls(p, s, skb, s', f)
  {
    assert Queue(l) == OptSeq(s.pending) + OptSeq(skb);
    var c := PackExact(p, l, PackLoop(p, l));
    CutWhole(p, l, c);
    FinishExact(p, s, skb, l, c, PackLoop(p, l));
  }

  lemma {:induction false} StepExact(p: Params, s: TxState, skb: Option<Bytes>, allocOk: bool)
    requires p.modulus > 0 && p.ndpModulus > 0
    ensures var (s', f) := Step(p, s, skb, allocOk);
            if s.open.None? && !allocOk then NoMemory(s, skb, s', f) else Calls(p, s, skb, s', f)
  {
    if s.open.Some? || allocOk {
      StepCalls(p, s, skb, StartLoop(p, s, skb));
    }
  }

  /** Every event of every run: a submission is such a call, and so is a tick when the timer has run down; any
      other tick only counts it down. */
  lemma {:induction false} RunExactly(p: Params, es: seq<Event>, e: Event)
    requires Usable(p)
    ensures var h, h' := Run(p, es), Run(p, es + [e]);
            var s, skb := h.state, if e.Submit? then Some(e.datagram) else None;
            exists f: Option<Frame> ::
              && h'.frames == h.frames + OptSeq(f)
              && (if e.TimerTick? && s.timer > 0 then f.None? && h'.state == s.(timer := s.timer - 1)
                  else if s.open.None? && !e.allocOk then NoMemory(s, skb, h'.state, f)
                  else Calls(p, s, skb, h'.state, f))
  {
    var s := Run(p, es).state;
    assert (es + [e])[..|es|] == es;
    var f := Apply(p, s, e).1;
    StepExact(p, s, if e.Submit? then Some(e.datagram) else None, e.allocOk);
    assert Run(p, es + [e]).frames == Run(p, es).frames + OptSeq(f);
  }
}
