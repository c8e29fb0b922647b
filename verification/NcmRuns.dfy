/** Whole runs of the NCM packer: any sequence of submissions and timer ticks, with allocation failures. */
module NcmRuns {
  import opened Common
  import opened NcmSpec
  import opened NcmProofs
  import opened Bits

  datatype Event = Submit(datagram: Bytes, allocOk: bool) | TimerTick(allocOk: bool)

  datatype History = History(state: TxState, frames: seq<Frame>)

  ghost function Apply(p: Params, s: TxState, e: Event): (TxState, Option<Frame>)
    requires Usable(p)
  {
    if e.Submit? then Step(p, s, Some(e.datagram), e.allocOk) else Tick(p, s, e.allocOk)
  }

  ghost function Run(p: Params, es: seq<Event>): (h: History)
    requires Usable(p)
    ensures Valid(p, h.state)
  {
    if es == [] then History(INITIAL, [])
    else
      var h := Run(p, es[..|es| - 1]);
      var (s, f) := Apply(p, h.state, es[|es| - 1]);
      ApplyKeepsValid(p, h.state, es[|es| - 1]);
      History(s, h.frames + OptSeq(f))
  }

  function Submitted(es: seq<Event>): seq<Bytes> {
    if es == [] then []
    else Submitted(es[..|es| - 1]) + (if es[|es| - 1].Submit? then [es[|es| - 1].datagram] else [])
  }

  function Carried(fs: seq<Frame>): seq<Bytes> {
    if fs == [] then [] else Carried(fs[..|fs| - 1]) + fs[|fs| - 1].contents.ds
  }

  /** The datagrams the packer still holds: those of the open frame, then the pending one. */
  function Held(s: TxState): seq<Bytes> {
    (if s.open.Some? then s.open.value.ds else []) + OptSeq(s.pending)
  }

  // ---------------------------------------------------------------- one step

  /** What holds of every open frame and every frame sent: the bounds, and every datagram in place. */
  ghost predicate Sound(p: Params, b: Builder) {
    Usable(p) && Bounded(p, b) && forall r: nat :: GridOf(p, r) ==> Placed(p, b, r)
  }

  ghost predicate Valid(p: Params, s: TxState) {
    TxValid(p, s) && (s.open.Some? ==> Sound(p, s.open.value))
  }

  /** The state stays valid, and a frame that goes out can be sent and takes the next number. */
  ghost predicate StepOk(p: Params, s: TxState, s': TxState, f: Option<Frame>) {
    && Valid(p, s')
    && (f.Some? ==> Packed(p, f.value.contents) && Sound(p, f.value.contents) && f.value.seqNo == s.seqNo)
    && s'.seqNo == (s.seqNo + OptLen(f)) % 0x1_0000
  }

  lemma {:induction false} StartSound(p: Params)
    requires Usable(p)
    ensures Sound(p, Start(p))
  {
    StartBounded(p);
    forall r: nat | GridOf(p, r) ensures Placed(p, Start(p), r) {
      StartPlaced(p, r);
    }
  }

  lemma {:induction false} AddSound(p: Params, b: Builder, d: Bytes)
    requires Sound(p, b) && |b.ds| < MAX_DATAGRAMS && b.offset + |d| <= p.txMax
    ensures Sound(p, Add(p, b, d))
  {
    AddBounded(p, b, d);
    forall r: nat | GridOf(p, r) ensures Placed(p, Add(p, b, d), r) {
      AddPlaced(p, b, d, r);
    }
  }

  lemma {:induction false} PackLoopSound(p: Params, l: Loop)
    requires Sound(p, l.b)
    ensures Sound(p, PackLoop(p, l).b)
    decreases OptLen(l.skb) + OptLen(l.pending)
  {
    var (t, more) := Turn(p, l);
    if more {
      AddSound(p, l.b, if l.skb.Some? then l.skb.value else l.pending.value);
      PackLoopSound(p, t);
    }
  }

  lemma {:induction false} FinishKeepsValid(p: Params, s: TxState, l: Loop)
    requires TxValid(p, s) && Sound(p, l.b)
    ensures StepOk(p, s, FinishLoop(s.seqNo, s.timer, l).0, FinishLoop(s.seqNo, s.timer, l).1)
  {
  }

  lemma {:induction false} StepKeepsValid(p: Params, s: TxState, skb: Option<Bytes>, allocOk: bool)
    requires Valid(p, s)
    ensures StepOk(p, s, Step(p, s, skb, allocOk).0, Step(p, s, skb, allocOk).1)
  {
    if s.open.Some? || allocOk {
      StartSound(p);
      PackLoopSound(p, StartLoop(p, s, skb));
      FinishKeepsValid(p, s, PackLoop(p, StartLoop(p, s, skb)));
    }
  }

  lemma {:induction false} ApplyKeepsValid(p: Params, s: TxState, e: Event)
    requires Valid(p, s)
    ensures StepOk(p, s, Apply(p, s, e).0, Apply(p, s, e).1)
  {
    if e.Submit? || s.timer == 0 {
      StepKeepsValid(p, s, if e.Submit? then Some(e.datagram) else None, e.allocOk);
    }
  }

  function LoopHolds(l: Loop): seq<Bytes> {
    l.b.ds + OptSeq(l.skb) + OptSeq(l.pending)
  }

  ghost predicate Conserves(l: Loop, l': Loop) {
    && |LoopHolds(l)| + l.dropped == |LoopHolds(l')| + l'.dropped
    && Subsequence(LoopHolds(l'), LoopHolds(l))
  }

  lemma {:induction false} TurnConserves(p: Params, l: Loop)
    requires p.modulus > 0
    ensures Conserves(l, Turn(p, l).0)
  {
    var t := if l.skb.None? then l.(skb := l.pending, pending := None) else l;
    var l' := Turn(p, l).0;
    assert LoopHolds(t) == LoopHolds(l);
    if l'.dropped == l.dropped {
      assert LoopHolds(l') == LoopHolds(l);
      SubsequenceRefl(LoopHolds(l));
    } else if l.b.ds == [] {
      DropFirst([], t.skb.value, OptSeq(t.pending));
      assert [] + OptSeq(t.pending) == LoopHolds(l');
      assert [] + [t.skb.value] + OptSeq(t.pending) == LoopHolds(t);
    } else {
      DropLast(t.b.ds + OptSeq(t.skb), OptSeq(t.pending));
      assert LoopHolds(l') == t.b.ds + OptSeq(t.skb);
    }
  }

  lemma {:induction false} PackLoopConserves(p: Params, l: Loop)
    requires p.modulus > 0
    ensures Conserves(l, PackLoop(p, l))
    decreases OptLen(l.skb) + OptLen(l.pending)
  {
    var (t, more) := Turn(p, l);
    TurnConserves(p, l);
    if more {
      PackLoopConserves(p, t);
      SubsequenceTrans(LoopHolds(PackLoop(p, t)), LoopHolds(t), LoopHolds(l));
    }
  }

  lemma {:induction false} DropLast<T>(a: seq<T>, b: seq<T>)
    ensures Subsequence(a, a + b)
  {
    SubsequenceRefl(a);
    SubsequenceAppend(a, a, b);
  }

  lemma {:induction false} DropFirst<T>(a: seq<T>, x: T, b: seq<T>)
    ensures Subsequence(a + b, a + [x] + b)
  {
    DropLast(a, [x]);
    SubsequenceAppend(a, a + [x], b);
  }

  /** What one call sends and still holds, against what it held and was given. */
  ghost predicate StepLossless(s: TxState, skb: Option<Bytes>, s': TxState, f: Option<Frame>) {
    var out := if f.Some? then f.value.contents.ds else [];
    && |Held(s)| + OptLen(skb) == |out| + |Held(s')| + (s'.dropped - s.dropped)
    && Subsequence(out + Held(s'), Held(s) + OptSeq(skb))
  }

  /** One call loses nothing it does not count, and keeps the order. */
  lemma {:induction false} StepConserves(p: Params, s: TxState, skb: Option<Bytes>, allocOk: bool)
    requires Usable(p)
    ensures StepLossless(s, skb, Step(p, s, skb, allocOk).0, Step(p, s, skb, allocOk).1)
  {
    var l := StartLoop(p, s, skb);
    assert LoopHolds(l) == Held(s) + OptSeq(skb);
    if s.open.None? && !allocOk {
      AllocFailure(l.skb, l.pending);
      assert [] + OptSeq(l.pending) == OptSeq(l.pending);
      assert LoopHolds(l) == OptSeq(l.skb) + OptSeq(l.pending);
    } else {
      PackLoopConserves(p, l);
      FinishConserves(s, skb, PackLoop(p, l));
    }
  }

  lemma {:induction false} FinishConserves(s: TxState, skb: Option<Bytes>, l: Loop)
    requires |Held(s)| + OptLen(skb) + s.dropped == |LoopHolds(l)| + l.dropped
    requires Subsequence(LoopHolds(l), Held(s) + OptSeq(skb))
    ensures StepLossless(s, skb, FinishLoop(s.seqNo, s.timer, l).0, FinishLoop(s.seqNo, s.timer, l).1)
  {
    FinishKeeps(s.seqNo, s.timer, l);
    LoosePacket(l);
    SubsequenceTrans(l.b.ds + OptSeq(l.pending), LoopHolds(l), Held(s) + OptSeq(skb));
  }

  /** The end of a call: what is sent and what is still held. */
  lemma {:induction false} FinishKeeps(seqNo: nat, timer: nat, l: Loop)
    ensures var (s', f) := FinishLoop(seqNo, timer, l);
            var out := if f.Some? then f.value.contents.ds else [];
            && out + Held(s') == l.b.ds + OptSeq(l.pending)
            && |out| + |Held(s')| == |l.b.ds + OptSeq(l.pending)|
            && s'.dropped == l.dropped + OptLen(l.skb)
  {
    var (s', f) := FinishLoop(seqNo, timer, l);
    if f.Some? {
      assert Held(s') == OptSeq(l.pending);
    } else {
      assert [] + Held(s') == Held(s');
    }
  }

  lemma {:induction false} AllocFailure(first: Option<Bytes>, rest: Option<Bytes>)
    ensures Subsequence(OptSeq(rest), OptSeq(first) + OptSeq(rest))
  {
    SubsequenceRefl(OptSeq(rest));
    if first.Some? {
      DropFirst([], first.value, OptSeq(rest));
      assert [] + OptSeq(rest) == OptSeq(rest);
      assert [] + [first.value] + OptSeq(rest) == OptSeq(first) + OptSeq(rest);
    } else {
      assert OptSeq(first) + OptSeq(rest) == OptSeq(rest);
    }
  }

  /** The packet still in hand when the loop ends is freed. */
  lemma {:induction false} LoosePacket(l: Loop)
    ensures Subsequence(l.b.ds + OptSeq(l.pending), LoopHolds(l))
    ensures |LoopHolds(l)| == |l.b.ds + OptSeq(l.pending)| + OptLen(l.skb)
  {
    if l.skb.Some? {
      DropFirst(l.b.ds, l.skb.value, OptSeq(l.pending));
    } else {
      assert LoopHolds(l) == l.b.ds + OptSeq(l.pending);
      SubsequenceRefl(LoopHolds(l));
    }
  }

  // ---------------------------------------------------------------- runs

  /** Every frame of a run can be sent, has every datagram in place, and the frames are numbered in
      order, modulo 2^16. */
  lemma {:induction false} RunFrames(p: Params, es: seq<Event>, k: nat)
    requires Usable(p) && k < |Run(p, es).frames|
    ensures Packed(p, Run(p, es).frames[k].contents) && Sound(p, Run(p, es).frames[k].contents)
    ensures Run(p, es).frames[k].seqNo == k % 0x1_0000
  {
    var init := es[..|es| - 1];
    ApplyKeepsValid(p, Run(p, init).state, es[|es| - 1]);
    RunSequence(p, init);
    if k < |Run(p, init).frames| {
      RunFrames(p, init, k);
    }
  }

  /** Layout over runs (USB CDC NCM 1.0, sections 3.3.4 and 3.7): in every frame each datagram stands
      where its table entry says, behind the header region, on the grid of the payload remainder,
      apart from all behind it and inside the frame, which is at most tx_max <= 16384 bytes long. */
  lemma {:induction false} RunLayout(p: Params, es: seq<Event>, k: nat, i: nat, r: nat)
    requires Usable(p) && r < p.modulus && p.remainder == (r - ETH_HLEN) % p.modulus
    requires k < |Run(p, es).frames|
    requires i < |Run(p, es).frames[k].contents.ds|
    ensures var b := Run(p, es).frames[k].contents;
            && Packed(p, b)
            && b.table[i].length == |b.ds[i]|
            && (b.table[i].index + ETH_HLEN) % p.modulus == r
            && HeaderEnd(p) <= b.table[i].index
            && b.table[i].index + |b.ds[i]| <= FrameLength(p, b.last) <= p.txMax <= NTB_MAX
            && forall j :: i < j < |b.ds| ==> b.table[i].index + |b.ds[i]| <= b.table[j].index
  {
    RunFrames(p, es, k);
    GridOfAdjusted(p, r);
    var b := Run(p, es).frames[k].contents;
    assert PlacedAt(p, b, i, r);
    LeavesRemainder(b.table[i].index + ETH_HLEN, p.modulus, r);
    forall j | i < j < |b.ds| ensures b.table[i].index + |b.ds[i]| <= b.table[j].index {
      Disjoint(p, b, i, j, r);
    }
  }

  lemma {:induction false} RunSequence(p: Params, es: seq<Event>)
    requires Usable(p)
    ensures Run(p, es).state.seqNo == |Run(p, es).frames| % 0x1_0000
  {
    if es != [] {
      RunSequence(p, es[..|es| - 1]);
      NextNumber(p, Run(p, es[..|es| - 1]), es[|es| - 1]);
    }
  }

  lemma {:induction false} NextNumber(p: Params, h: History, e: Event)
    requires Usable(p) && Valid(p, h.state) && h.state.seqNo == |h.frames| % 0x1_0000
    ensures var (s, f) := Apply(p, h.state, e); s.seqNo == |h.frames + OptSeq(f)| % 0x1_0000
  {
    ApplyKeepsValid(p, h.state, e);
    WrapNext(|h.frames|, OptLen(Apply(p, h.state, e).1));
  }

  lemma WrapNext(n: nat, d: nat)
    ensures (n % 0x1_0000 + d) % 0x1_0000 == (n + d) % 0x1_0000
  {
  }

  /** Conservation: submitted = sent + in the open frame + pending + counted as dropped. */
  lemma {:induction false} RunConserves(p: Params, es: seq<Event>)
    requires Usable(p)
    ensures var h := Run(p, es);
            |Submitted(es)| == |Carried(h.frames)| + |Held(h.state)| + h.state.dropped
  {
    if es != [] {
      var init, e := es[..|es| - 1], es[|es| - 1];
      var h := Run(p, init);
      RunConserves(p, init);
      ApplyConserves(p, h.state, e);
      CarriedAppend(h.frames, Apply(p, h.state, e).1);
    }
  }

  lemma {:induction false} CarriedAppend(fs: seq<Frame>, f: Option<Frame>)
    ensures Carried(fs + OptSeq(f)) == Carried(fs) + if f.Some? then f.value.contents.ds else []
  {
    if f.Some? {
      assert (fs + [f.value])[..|fs|] == fs;
    } else {
      assert fs + [] == fs;
    }
  }

  /** Order: sent, open and pending datagrams, in this order, are the submitted ones with the dropped
      ones taken out. */
  lemma {:induction false} RunKeepsOrder(p: Params, es: seq<Event>)
    requires Usable(p)
    ensures var h := Run(p, es);
            Subsequence(Carried(h.frames) + Held(h.state), Submitted(es))
  {
    if es != [] {
      var init, e := es[..|es| - 1], es[|es| - 1];
      var h := Run(p, init);
      var (s', f) := Apply(p, h.state, e);
      RunKeepsOrder(p, init);
      ApplyConserves(p, h.state, e);
      CarriedAppend(h.frames, f);
      ExtendOrder(Carried(h.frames), Held(h.state), if e.Submit? then [e.datagram] else [],
                  if f.Some? then f.value.contents.ds else [], Held(s'), Submitted(init));
    }
  }

  lemma {:induction false} ApplyConserves(p: Params, s: TxState, e: Event)
    requires Usable(p)
    ensures StepLossless(s, if e.Submit? then Some(e.datagram) else None, Apply(p, s, e).0, Apply(p, s, e).1)
  {
    if e.Submit? {
      StepConserves(p, s, Some(e.datagram), e.allocOk);
    } else if s.timer > 0 {
      IdleTick(s, Tick(p, s, e.allocOk).0);
    } else {
      StepConserves(p, s, None, e.allocOk);
    }
  }

  /** A timeout that only counts down. */
  lemma {:induction false} IdleTick(s: TxState, s': TxState)
    requires Held(s') == Held(s) && s'.dropped == s.dropped
    ensures StepLossless(s, None, s', None)
  {
    SubsequenceRefl(Held(s));
    assert [] + Held(s) == Held(s) == Held(s) + [];
  }

  lemma {:induction false} ExtendOrder<T>(sent: seq<T>, held: seq<T>, given: seq<T>,
                                          out: seq<T>, held': seq<T>, submitted: seq<T>)
    requires Subsequence(sent + held, submitted) && Subsequence(out + held', held + given)
    ensures Subsequence(sent + out + held', submitted + given)
  {
    SubsequencePrepend(sent, out + held', held + given);
    SubsequenceAppend(sent + held, submitted, given);
    assert sent + (held + given) == sent + held + given;
    assert sent + (out + held') == sent + out + held';
    SubsequenceTrans(sent + out + held', sent + held + given, submitted + given);
  }

  /** Round trip over runs: a frame the packer emits is accepted by the receiver, which delivers exactly
      the datagrams packed in it, if and only if these are 14 to 2048 bytes long; so every frame is if
      every submitted datagram is. */
  lemma {:induction false} RunRoundTrip(p: Params, es: seq<Event>, k: nat)
    requires Usable(p) && k < |Run(p, es).frames|
    ensures var f := Run(p, es).frames[k];
            && Packed(p, f.contents)
            && (Decode(Encode(p, f.seqNo, f.contents)) == Accepted(f.contents.ds) <==> AllOk(f.contents.ds))
            && (AllOk(Submitted(es)) ==> Decode(Encode(p, f.seqNo, f.contents)) == Accepted(f.contents.ds))
  {
    var h := Run(p, es);
    var f := h.frames[k];
    RunFrames(p, es, k);
    RunKeepsOrder(p, es);
    forall d | d in f.contents.ds ensures d in Submitted(es) {
      CarriedHas(h.frames, k, d);
      assert d in Carried(h.frames) + Held(h.state);
      SubsequenceHas(Carried(h.frames) + Held(h.state), Submitted(es), d);
    }
    var r := GridExists(p);
    RoundTrip(p, f.seqNo, f.contents, r);
  }

  predicate AllOk(ds: seq<Bytes>) {
    forall d :: d in ds ==> DatagramOk(d)
  }

  lemma {:induction false} CarriedHas(fs: seq<Frame>, k: nat, d: Bytes)
    requires k < |fs| && d in fs[k].contents.ds
    ensures d in Carried(fs)
    decreases |fs|
  {
    if k < |fs| - 1 {
      CarriedHas(fs[..|fs| - 1], k, d);
    }
  }

  lemma {:induction false} SubsequenceHas<T>(a: seq<T>, b: seq<T>, x: T)
    requires Subsequence(a, b) && x in a
    ensures x in b
    decreases |b|
  {
    var b' := b[..|b| - 1];
    if a[|a| - 1] == b[|b| - 1] && Subsequence(a[..|a| - 1], b') {
      if x != a[|a| - 1] {
        SubsequenceHas(a[..|a| - 1], b', x);
      }
    } else {
      SubsequenceHas(a, b', x);
    }
  }

  // ---------------------------------------------------------------- when datagrams are dropped

  /** No allocation fails and every datagram fits a frame of its own. */
  ghost predicate Unhindered(p: Params, es: seq<Event>) {
    Usable(p) && FirstOffset(p) < p.txMax
    && forall i :: 0 <= i < |es| ==>
         es[i].allocOk && (es[i].Submit? ==> |es[i].datagram| <= p.txMax - FirstOffset(p))
  }

  /** The open frame has no room for the start of another datagram. */
  predicate Full(p: Params, s: TxState) {
    s.open.Some? && s.open.value.offset >= p.txMax
  }

  /** The packet is small enough for a frame of its own. */
  predicate FitsAlone(p: Params, skb: Option<Bytes>)
    requires p.modulus > 0 && p.ndpModulus > 0
  {
    skb.Some? ==> |skb.value| <= p.txMax - FirstOffset(p)
  }

  /** What the states of an unhindered run have in common. */
  ghost predicate Steady(p: Params, s: TxState) {
    && Valid(p, s) && FirstOffset(p) < p.txMax
    && FitsAlone(p, s.pending)
    && (s.open.Some? ==> s.open.value.ds != [] || s.open.value == Start(p))
    && (s.open.Some? && s.pending.Some? ==> Full(p, s))
  }

  /** In an unhindered run a datagram is dropped exactly when it is submitted while another one is
      pending behind a full open frame. */
  lemma {:induction false} StepSteady(p: Params, s: TxState, skb: Option<Bytes>)
    requires Steady(p, s) && FitsAlone(p, skb)
    ensures Steady(p, Step(p, s, skb, true).0)
    ensures Step(p, s, skb, true).0.dropped ==
            s.dropped + if skb.Some? && s.pending.Some? && Full(p, s) then 1 else 0
  {
    var l := StartLoop(p, s, skb);
    StepKeepsValid(p, s, skb, true);
    if Full(p, s) {
      assert PackLoop(p, l) == l;
    } else {
      PackSteady(p, l);
    }
  }

  /** Started with room, or at an empty frame, the loop drops nothing and leaves no loose packet. */
  lemma {:induction false} PackSteady(p: Params, l: Loop)
    requires p.modulus > 0 && p.ndpModulus > 0 && FirstOffset(p) < p.txMax
    requires l.b.ds != [] || l.b == Start(p)
    requires |l.b.ds| < MAX_DATAGRAMS && FitsAlone(p, l.skb) && FitsAlone(p, l.pending)
    requires l.b.offset >= p.txMax ==> l.skb.None?
    requires l.skb.Some? && l.pending.Some? ==> l.b.ds == []
    ensures var l' := PackLoop(p, l);
            && l'.skb.None? && l'.dropped == l.dropped && FitsAlone(p, l'.pending)
            && (l'.b.ds != [] || l'.b == Start(p))
            && (l'.pending.Some? ==>
                  l'.b.ds != [] && (l'.timeout || |l'.b.ds| >= MAX_DATAGRAMS || l'.b.offset >= p.txMax))
    decreases OptLen(l.skb) + OptLen(l.pending)
  {
    var (t, more) := Turn(p, l);
    if more && |t.b.ds| < MAX_DATAGRAMS {
      PackSteady(p, t);
    }
  }

  /** Over an unhindered run: a datagram is dropped exactly when it is submitted while another one is
      pending behind a full open frame. */
  lemma {:induction false} RunDropsExactly(p: Params, es: seq<Event>, e: Event)
    requires Unhindered(p, es + [e])
    ensures var s, s' := Run(p, es).state, Run(p, es + [e]).state;
            s'.dropped == s.dropped + if e.Submit? && s.pending.Some? && Full(p, s) then 1 else 0
  {
    assert forall i :: 0 <= i < |es| ==> (es + [e])[i] == es[i];
    assert e == (es + [e])[|es|];
    assert (es + [e])[..|es|] == es;
    RunSteady(p, es);
    StepSteady(p, Run(p, es).state, if e.Submit? then Some(e.datagram) else None);
  }

  lemma {:induction false} RunSteady(p: Params, es: seq<Event>)
    requires Unhindered(p, es)
    ensures Steady(p, Run(p, es).state)
  {
    if es != [] {
      var init, e := es[..|es| - 1], es[|es| - 1];
      RunSteady(p, init);
      if e.Submit? || Run(p, init).state.timer == 0 {
        StepSteady(p, Run(p, init).state, if e.Submit? then Some(e.datagram) else None);
      }
    }
  }

  // ---------------------------------------------------------------- the timer

  lemma {:induction false} RunTimer(p: Params, es: seq<Event>)
    requires Usable(p)
    ensures Run(p, es).state.timer <= 2
  {
    if es != [] {
      RunTimer(p, es[..|es| - 1]);
    }
  }

  /** A frame waits for at most three timer ticks: whatever is in the open frame goes out, in front of
      anything packed later, even if no buffer can be had. */
  lemma {:induction false} ThreeTicksFlush(p: Params, es: seq<Event>, ticks: seq<Event>)
    requires Usable(p)
    requires Run(p, es).state.open.Some? && Run(p, es).state.open.value.ds != []
    requires |ticks| == 3 && forall i :: 0 <= i < 3 ==> ticks[i].TimerTick?
    ensures exists k :: 1 <= k <= 3 && Flushed(Run(p, es), Run(p, es + ticks[..k]))
  {
    RunTimer(p, es);
    var k := TicksFlush(p, es, ticks, Run(p, es));
  }

  ghost predicate Flushed(h: History, h': History)
  {
    && h.state.open.Some?
    && |h'.frames| == |h.frames| + 1 && h.frames <= h'.frames
    && h.state.open.value.ds <= h'.frames[|h.frames|].contents.ds
  }

  lemma {:induction false} TicksFlush(p: Params, es: seq<Event>, ticks: seq<Event>, h: History) returns (k: nat)
    requires Usable(p) && h == Run(p, es)
    requires h.state.open.Some? && h.state.open.value.ds != []
    requires h.state.timer < |ticks| && forall i :: 0 <= i < |ticks| ==> ticks[i].TimerTick?
    ensures 1 <= k <= |ticks| && Flushed(h, Run(p, es + ticks[..k]))
    decreases |ticks|
  {
    if h.state.timer == 0 {
      LastTick(p, es, ticks[0]);
      assert ticks[..1] == [ticks[0]];
      k := 1;
    } else {
      EarlyTick(p, es, ticks[0]);
      var next := es + [ticks[0]];
      var j := TicksFlush(p, next, ticks[1..], Run(p, next));
      k := j + 1;
      FlushedLater(h, Run(p, next), Run(p, next + ticks[1..][..j]));
      OneByOne(es, ticks, j);
    }
  }

  /** Waiting for one tick does not touch the open frame. */
  lemma FlushedLater(h: History, next: History, h': History)
    requires next.frames == h.frames && next.state.open == h.state.open && Flushed(next, h')
    ensures Flushed(h, h')
  {
  }

  lemma OneByOne<T>(es: seq<T>, ticks: seq<T>, j: nat)
    requires j < |ticks|
    ensures es + [ticks[0]] + ticks[1..][..j] == es + ticks[..j + 1]
  {
  }

  lemma {:induction false} EarlyTick(p: Params, es: seq<Event>, e: Event)
    requires Usable(p) && Run(p, es).state.timer > 0 && e.TimerTick?
    ensures Run(p, es + [e]) == Run(p, es).(state := Run(p, es).state.(timer := Run(p, es).state.timer - 1))
  {
    assert (es + [e])[..|es|] == es;
  }

  lemma {:induction false} LastTick(p: Params, es: seq<Event>, e: Event)
    requires Usable(p) && Run(p, es).state.timer == 0 && e.TimerTick?
    requires Run(p, es).state.open.Some? && Run(p, es).state.open.value.ds != []
    ensures Flushed(Run(p, es), Run(p, es + [e]))
  {
    assert (es + [e])[..|es|] == es;
    PackLoopExtends(p, StartLoop(p, Run(p, es).state, None));
  }

  lemma {:induction false} PackLoopExtends(p: Params, l: Loop)
    requires p.modulus > 0
    ensures l.b.ds <= PackLoop(p, l).b.ds
    ensures l.timeout ==> PackLoop(p, l).timeout
    decreases OptLen(l.skb) + OptLen(l.pending)
  {
    var (t, more) := Turn(p, l);
    if more {
      PackLoopExtends(p, t);
    }
  }
}
