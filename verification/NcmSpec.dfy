/**
 The CDC-NCM transmit path on values: parameters, NTB layout, the packer as a state machine, the
 encoded bytes of a frame, and the receive path.

 Layouts follow the USB CDC NCM 1.0 specification: NTH16 (section 3.2.1) is 12 bytes, the NDP16
 header (section 3.3.1) 8 bytes and each datagram pointer entry 4 bytes.
 */
module NcmSpec {
  import opened Common
  import opened Bits

  const NTB_MAX: nat := 16384
  const MIN_DATAGRAM: nat := 1514
  const MAX_DATAGRAM: nat := 2048
  const MIN_TX_PKT: nat := 512
  const MAX_DATAGRAMS: nat := 32
  const RESTART_COUNT: nat := 3
  const ETH_HLEN: nat := 14
  const NTH_SIZE: nat := 12
  const NDP_SIZE: nat := 8
  const DPE_SIZE: nat := 4
  const MIN_HDR_SIZE: nat := NTH_SIZE + NDP_SIZE + (MAX_DATAGRAMS + 1) * DPE_SIZE
  const ALIGN_MIN: nat := 4
  const NTH_SIGN: nat := 0x484D434E
  const NDP_SIGN: nat := 0x304D434E

  // ---------------------------------------------------------------- parameters

  /** The transmit parameters after validation, and the endpoint's packet size. */
  datatype Params = Params(txMax: nat, modulus: nat, ndpModulus: nat, remainder: nat, maxPacket: nat)

  ghost predicate AlignmentOk(a: nat, txMax: nat) {
    ALIGN_MIN <= a < txMax && IsPowerOfTwo(a)
  }

  /** What the driver's validation establishes. */
  ghost predicate Validated(p: Params) {
    && MIN_HDR_SIZE + MIN_DATAGRAM <= p.txMax <= NTB_MAX
    && AlignmentOk(p.modulus, p.txMax)
    && AlignmentOk(p.ndpModulus, p.txMax)
    && p.remainder < p.modulus
    && p.maxPacket > 0
  }

  /** Where the datagram pointer table header stands. */
  function FpIndex(p: Params): nat
    requires p.ndpModulus > 0
  {
    RoundUp(NTH_SIZE, p.ndpModulus)
  }

  function HeaderEnd(p: Params): nat
    requires p.ndpModulus > 0
  {
    FpIndex(p) + NDP_SIZE + (MAX_DATAGRAMS + 1) * DPE_SIZE
  }

  function Aligned(p: Params, x: nat): nat
    requires p.modulus > 0
  {
    RoundUp(x, p.modulus) + p.remainder
  }

  /** Index of the first datagram. */
  function FirstOffset(p: Params): nat
    requires p.modulus > 0 && p.ndpModulus > 0
  {
    Aligned(p, HeaderEnd(p))
  }

  /** Parameters for which the header region fits the transmit buffer. */
  ghost predicate Usable(p: Params) {
    Validated(p) && FirstOffset(p) <= p.txMax
  }

  // ---------------------------------------------------------------- frames being filled

  datatype Entry = Entry(index: nat, length: nat)

  /** An open frame: the datagrams packed so far, the buffer up to the next datagram, the pointer
      table, where the next datagram goes and where the last one ended. */
  datatype Builder = Builder(ds: seq<Bytes>, image: Bytes, table: seq<Entry>, offset: nat, last: nat)

  function Min(a: nat, b: nat): nat {
    if a < b then a else b
  }

  function Start(p: Params): Builder
    requires p.modulus > 0 && p.ndpModulus > 0
  {
    Builder([], Zeros(FirstOffset(p)), [], FirstOffset(p), HeaderEnd(p))
  }

  function Add(p: Params, b: Builder, d: Bytes): Builder
    requires p.modulus > 0 && b.offset + |d| <= p.txMax
  {
    var end := b.offset + |d|;
    var next := Aligned(p, end);
    Builder(b.ds + [d], b.image + d + Zeros(Min(next, p.txMax) - end), b.table + [Entry(b.offset, |d|)], next, end)
  }

  /** The bounds every open frame keeps. */
  predicate Bounded(p: Params, b: Builder)
    requires p.modulus > 0 && p.ndpModulus > 0
  {
    && |b.ds| == |b.table| <= MAX_DATAGRAMS
    && |b.image| == Min(b.offset, p.txMax)
    && HeaderEnd(p) <= b.last <= |b.image|
    && FirstOffset(p) <= |b.image| && b.image[..FirstOffset(p)] == Zeros(FirstOffset(p))
    && (b.ds != [] ==> FirstOffset(p) <= b.last)
  }

  lemma {:induction false} StartBounded(p: Params)
    requires Usable(p)
    ensures Bounded(p, Start(p))
  {
  }

  lemma {:induction false} AddBounded(p: Params, b: Builder, d: Bytes)
    requires Usable(p) && Bounded(p, b) && |b.ds| < MAX_DATAGRAMS && b.offset + |d| <= p.txMax
    ensures Bounded(p, Add(p, b, d))
  {
    assert Add(p, b, d).image[..FirstOffset(p)] == b.image[..FirstOffset(p)];
  }

  // ---------------------------------------------------------------- encoding

  function Le16(v: nat): (b: Bytes)
    ensures |b| == 2
  {
    [v % 256, v / 256 % 256]
  }

  function Le32(v: nat): (b: Bytes)
    ensures |b| == 4
  {
    Le16(v % 0x1_0000) + Le16(v / 0x1_0000 % 0x1_0000)
  }

  function Nth16(seqNo: nat, blockLength: nat, fpIndex: nat): (b: Bytes)
    ensures |b| == NTH_SIZE
  {
    Le32(NTH_SIGN) + Le16(NTH_SIZE) + Le16(seqNo) + Le16(blockLength) + Le16(fpIndex)
  }

  /** Header of a pointer table with n datagrams and the closing null entry. */
  function Ndp16(n: nat): (b: Bytes)
    ensures |b| == NDP_SIZE
  {
    Le32(NDP_SIGN) + Le16(NDP_SIZE + (n + 1) * DPE_SIZE) + Le16(0)
  }

  function Dpe16(e: Entry): (b: Bytes)
    ensures |b| == DPE_SIZE
  {
    Le16(e.index) + Le16(e.length)
  }

  function DpeTable(es: seq<Entry>): (b: Bytes)
    ensures |b| == DPE_SIZE * |es|
  {
    if es == [] then [] else DpeTable(es[..|es| - 1]) + Dpe16(es[|es| - 1])
  }

  /** Length of the frame: padded to the full NTB above the short-frame limit, and never an exact
      multiple of the packet size unless it is the full NTB. */
  function FrameLength(p: Params, last: nat): (len: nat)
    requires p.maxPacket > 0 && last <= p.txMax
    ensures last <= len <= p.txMax
  {
    var body := if last > MIN_TX_PKT then p.txMax else last;
    if body < p.txMax && body % p.maxPacket == 0 then body + 1 else body
  }

  function Header(p: Params, seqNo: nat, table: seq<Entry>, len: nat): (h: Bytes)
    requires p.ndpModulus > 0
    ensures |h| == FpIndex(p) + NDP_SIZE + (|table| + 1) * DPE_SIZE
  {
    Nth16(seqNo, len, FpIndex(p)) + Zeros(FpIndex(p) - NTH_SIZE) + Ndp16(|table|) + DpeTable(table + [Entry(0, 0)])
  }

  /** A frame that can go out. */
  ghost predicate Packed(p: Params, b: Builder) {
    Usable(p) && Bounded(p, b) && b.ds != []
  }

  /** The bytes of the frame: the headers over the zeroed header space, the datagrams, the padding. */
  function Encode(p: Params, seqNo: nat, b: Builder): (frame: Bytes)
    requires p.modulus > 0 && p.ndpModulus > 0 && p.maxPacket > 0
    requires Bounded(p, b)
    ensures |frame| == FrameLength(p, b.last)
  {
    var len := FrameLength(p, b.last);
    var h := Header(p, seqNo, b.table, len);
    h + (b.image[..b.last] + Zeros(len - b.last))[|h|..]
  }

  // ---------------------------------------------------------------- the packer

  /** `open`: the frame being filled; `pending`: the left-over packet; `timer`: how many more timer
      ticks the frame may wait. */
  datatype TxState = TxState(open: Option<Builder>, pending: Option<Bytes>, seqNo: nat, dropped: nat, timer: nat)

  const INITIAL: TxState := TxState(None, None, 0, 0, 0)

  datatype Frame = Frame(seqNo: nat, contents: Builder)

  /** The variables of the packing loop. */
  datatype Loop = Loop(b: Builder, skb: Option<Bytes>, pending: Option<Bytes>, dropped: nat, timeout: bool)

  ghost predicate TxValid(p: Params, s: TxState) {
    && Usable(p)
    && (s.open.Some? ==> |s.open.value.ds| < MAX_DATAGRAMS && Bounded(p, s.open.value))
    && s.seqNo < 0x1_0000
  }

  /** One turn of the packing loop: the variables after it, and whether the loop goes on. */
  function Turn(p: Params, l: Loop): (r: (Loop, bool))
    requires p.modulus > 0
    ensures r.1 ==> OptLen(r.0.skb) + OptLen(r.0.pending) < OptLen(l.skb) + OptLen(l.pending)
  {
    if |l.b.ds| >= MAX_DATAGRAMS || l.b.offset >= p.txMax then (l, false)
    else
      var t := if l.skb.None? then l.(skb := l.pending, pending := None) else l;
      if t.skb.None? then (t, false)
      else if |t.skb.value| > p.txMax - l.b.offset then
        if l.b.ds == [] then (t.(skb := None, dropped := t.dropped + 1), false)
        else (t.(skb := None, pending := t.skb, dropped := t.dropped + OptLen(t.pending), timeout := true), false)
      else (t.(b := Add(p, t.b, t.skb.value), skb := None), true)
  }

  function PackLoop(p: Params, l: Loop): Loop
    requires p.modulus > 0
    decreases OptLen(l.skb) + OptLen(l.pending)
  {
    var (t, more) := Turn(p, l);
    if more then PackLoop(p, t) else t
  }

  /** The left-over packet goes first; a timeout brings no packet of its own. */
  function StartLoop(p: Params, s: TxState, skb: Option<Bytes>): Loop
    requires p.modulus > 0 && p.ndpModulus > 0
  {
    Loop(if s.open.Some? then s.open.value else Start(p),
         if skb.Some? then s.pending else None,
         if skb.Some? then skb else s.pending,
         s.dropped, skb.None?)
  }

  /** The sequence number is a 16-bit number. */
  function NextSeq(seqNo: nat): nat {
    (seqNo + 1) % 0x1_0000
  }

  /** The frame goes out when it is full or will not be waited for. */
  function FinishLoop(seqNo: nat, timer: nat, l: Loop): (TxState, Option<Frame>) {
    var dropped := l.dropped + OptLen(l.skb);
    var n := |l.b.ds|;
    if n == 0 || (n < MAX_DATAGRAMS && !l.timeout) then
      (TxState(Some(l.b), l.pending, seqNo, dropped, if 0 < n < RESTART_COUNT then 2 else timer), None)
    else
      (TxState(None, l.pending, NextSeq(seqNo), dropped, timer), Some(Frame(seqNo, l.b)))
  }

  /** One call of the packer: `skb` is the submitted datagram (None on a timeout), `allocOk` whether
      a new frame buffer can be had. */
  function Step(p: Params, s: TxState, skb: Option<Bytes>, allocOk: bool): (TxState, Option<Frame>)
    requires p.modulus > 0 && p.ndpModulus > 0
  {
    var l := StartLoop(p, s, skb);
    if s.open.None? && !allocOk then
      (s.(pending := l.pending, dropped := s.dropped + OptLen(l.skb)), None)
    else
      FinishLoop(s.seqNo, s.timer, PackLoop(p, l))
  }

  /** One timer tick. */
  function Tick(p: Params, s: TxState, allocOk: bool): (TxState, Option<Frame>)
    requires p.modulus > 0 && p.ndpModulus > 0
  {
    if s.timer > 0 then (s.(timer := s.timer - 1), None) else Step(p, s, None, allocOk)
  }

  // ---------------------------------------------------------------- the receiver

  datatype RxResult = Rejected | Accepted(datagrams: seq<Bytes>)

  function Get16(b: Bytes, at: nat): nat
    requires at + 2 <= |b|
  {
    b[at] as int + 256 * b[at + 1] as int
  }

  function Get32(b: Bytes, at: nat): nat
    requires at + 4 <= |b|
  {
    Get16(b, at) + 0x1_0000 * Get16(b, at + 2)
  }

  /** The NTH16 and NDP16 are present, signed, and describe a table inside the frame. */
  predicate HeadersOk(f: Bytes) {
    && NTH_SIZE + NDP_SIZE <= |f|
    && Get32(f, 0) == NTH_SIGN
    && Get16(f, 8) <= NTB_MAX
    && Get16(f, 10) + NDP_SIZE <= |f|
    && Get32(f, Get16(f, 10)) == NDP_SIGN
    && Get16(f, Get16(f, 10) + 4) >= 16
    && TableStart(f) + TableCount(f) * DPE_SIZE <= |f|
  }

  function TableStart(f: Bytes): nat
    requires NTH_SIZE <= |f|
  {
    Get16(f, 10) + NDP_SIZE
  }

  /** Number of entries of the table without the last one. */
  function TableCount(f: Bytes): nat
    requires NTH_SIZE <= |f| && Get16(f, 10) + NDP_SIZE <= |f| && Get16(f, Get16(f, 10) + 4) >= 16
  {
    (Get16(f, Get16(f, 10) + 4) - NDP_SIZE) / DPE_SIZE - 1
  }

  function EntryAt(f: Bytes, table: nat, x: nat): Entry
    requires table + (x + 1) * DPE_SIZE <= |f|
  {
    Entry(Get16(f, table + x * DPE_SIZE), Get16(f, table + x * DPE_SIZE + 2))
  }

  predicate EntryOk(f: Bytes, e: Entry) {
    e.index != 0 && e.index + e.length <= |f| && ETH_HLEN <= e.length <= MAX_DATAGRAM
  }

  /** The datagrams of the entries x.. of the table, up to the first entry that is not usable. */
  function Deliver(f: Bytes, table: nat, n: nat, x: nat): (ds: seq<Bytes>)
    requires x <= n && table + n * DPE_SIZE <= |f|
    decreases n - x
  {
    if x == n then []
    else
      var e := EntryAt(f, table, x);
      if EntryOk(f, e) then [f[e.index..e.index + e.length]] + Deliver(f, table, n, x + 1) else []
  }

  function Decode(f: Bytes): RxResult {
    if !HeadersOk(f) then Rejected
    else
      var ds := Deliver(f, TableStart(f), Min(TableCount(f), MAX_DATAGRAMS), 0);
      if ds == [] then Rejected else Accepted(ds)
  }
}
