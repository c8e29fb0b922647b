/** The NCM driver's context object and its methods, each proved against the functions of NcmSpec. */
module NcmDriver {
  import opened Common
  import opened Bits
  import opened NcmSpec
  import opened NcmProofs

  /** The device's answer to GET_NTB_PARAMETERS: 32-bit sizes, 16-bit alignments. */
  datatype NtbParameters = NtbParameters(inMax: nat, outMax: nat, payloadRemainder: nat, divisor: nat, alignment: nat)

  predicate InWidth(r: NtbParameters) {
    r.inMax < WORD && r.outMax < WORD && r.payloadRemainder < 0x1_0000 && r.divisor < 0x1_0000 && r.alignment < 0x1_0000
  }

  /** A buffer size in range, or the default. */
  function SizeOrDefault(size: nat): (n: nat)
    ensures 1666 <= n <= 16384 && (n != size ==> n == 16384 && !(1666 <= size <= 16384))
  {
    if MIN_HDR_SIZE + MIN_DATAGRAM <= size <= NTB_MAX then size else NTB_MAX
  }

  /** The parameters that a device's reply leads to: each value if it is valid, else its default, and the
      remainder adjusted for the Ethernet header. */
  ghost function Adopted(raw: NtbParameters, maxPacket: nat): Params {
    var txMax := SizeOrDefault(raw.outMax);
    var modulus := if AlignmentOk(raw.divisor, txMax) then raw.divisor else ALIGN_MIN;
    var ndpModulus := if AlignmentOk(raw.alignment, txMax) then raw.alignment else ALIGN_MIN;
    var remainder := if raw.payloadRemainder < modulus then raw.payloadRemainder else 0;
    Params(txMax, modulus, ndpModulus, (remainder - ETH_HLEN) % modulus, maxPacket)
  }

  lemma AdoptedValid(raw: NtbParameters, maxPacket: nat)
    requires maxPacket > 0
    ensures Validated(Adopted(raw, maxPacket))
  {
    FourIsPowerOfTwo();
  }

  /** The datagram size asked for, within bounds; the least one if none was. */
  function ClampedDatagram(size: Option<nat>): (n: nat)
    ensures 1514 <= n <= 2048
    ensures size.None? ==> n == 1514
    ensures size.Some? ==> (n < size.value ==> n == 2048) && (n > size.value ==> n == 1514)
  {
    if size.None? || size.value < MIN_DATAGRAM then MIN_DATAGRAM
    else if size.value > MAX_DATAGRAM then MAX_DATAGRAM
    else size.value
  }

  /** A reply of a device after which the headers do not fit the transmit buffer. */
  lemma {:induction false} ReplyNotUsable(inMax: nat, maxPacket: nat)
    requires inMax < WORD && maxPacket > 0
    ensures var raw := NtbParameters(inMax, NTB_MAX, 15, 8192, 8192);
            InWidth(raw) && Validated(Adopted(raw, maxPacket)) && !Usable(Adopted(raw, maxPacket))
  {
    ValidatedNotUsable(Params(NTB_MAX, 8192, 8192, 1, maxPacket));
    assert (15 - ETH_HLEN) % 8192 == 1;
  }

  /** `b` with `src` written at index `at`. */
  function Spliced(b: Bytes, at: nat, src: Bytes): Bytes
    requires at + |src| <= |b|
  {
    b[..at] + src + b[at + |src|..]
  }

  /** `b` with the indices first..stop zeroed. */
  function Zeroed(b: Bytes, first: nat, stop: nat): Bytes
    requires stop <= |b|
  {
    if first < stop then Spliced(b, first, Zeros(stop - first)) else b
  }

  /** memcpy into a buffer. */
  method CopyInto(buf: array<Byte>, at: nat, src: Bytes)
    requires at + |src| <= buf.Length
    modifies buf
    ensures buf[..] == Spliced(old(buf[..]), at, src)
  {
    forall i | 0 <= i < |src| {
      buf[at + i] := src[i];
    }
  }

  /** Zeroes the indices first.. below both end and max. */
  method ZeroFill(buf: array<Byte>, first: nat, end: nat, max: nat)
    requires Min(end, max) <= buf.Length
    modifies buf
    ensures buf[..] == Zeroed(old(buf[..]), first, Min(end, max))
  {
    if first >= max {
      return;
    }
    if first >= end {
      return;
    }
    var stop := end;
    if stop > max {
      stop := max;
    }
    CopyInto(buf, first, Zeros(stop - first));
  }

  class NcmContext {
    var p: Params
    var mtu: int
    var rxMax: nat
    var maxDatagramSize: nat
    var currSkb: array?<Byte>
    var remSkb: Option<Bytes>
    var currOffset: nat
    var currLastOffset: nat
    var currFrameNum: nat
    var timerPending: nat
    var txSeq: nat
    var dropped: nat
    const dpe: array<Entry>
    ghost var built: Builder

    /** The buffer, the pointer table and the offsets agree with the open frame `b`. */
    static ghost predicate Holds(p: Params, buf: Bytes, table: seq<Entry>, b: Builder, offset: nat, last: nat) {
      && Usable(p) && |buf| == p.txMax && |table| == MAX_DATAGRAMS + 1 && Bounded(p, b)
      && offset == b.offset && last == b.last
      && b.image <= buf
      && b.table <= table
    }

    ghost predicate Valid()
      reads this, dpe, currSkb
    {
      && Validated(p)
      && dpe.Length == MAX_DATAGRAMS + 1
      && txSeq < 0x1_0000
      && (currSkb != null ==>
            |built.ds| == currFrameNum < MAX_DATAGRAMS
            && Holds(p, currSkb[..], dpe[..], built, currOffset, currLastOffset))
    }

    ghost function State(): TxState
      reads this
    {
      TxState(if currSkb != null then Some(built) else None, remSkb, txSeq, dropped, timerPending)
    }

    constructor ()
      ensures State() == INITIAL && fresh(dpe) && dpe.Length == MAX_DATAGRAMS + 1
    {
      p := Params(0, 0, 0, 0, 0);
      mtu, rxMax, maxDatagramSize, currOffset, currLastOffset, currFrameNum := 0, 0, 0, 0, 0, 0;
      currSkb, remSkb, timerPending, txSeq, dropped := null, None, 0, 0, 0;
      dpe := new Entry[MAX_DATAGRAMS + 1](_ => Entry(0, 0));
    }

    /** Validates the device's parameters.  `reply` and `datagramSize` are the replies to
        GET_NTB_PARAMETERS and GET_MAX_DATAGRAM_SIZE, if there were any; without the first the set-up
        fails. */
    method Setup(reply: Option<NtbParameters>, maxPacket: nat, datagramSize: Option<nat>) returns (failed: bool)
      requires reply.Some? ==> InWidth(reply.value)
      requires maxPacket > 0
      modifies `p, `mtu, `rxMax, `maxDatagramSize
      ensures failed <==> reply.None?
      ensures failed ==>
                p == old(p) && mtu == old(mtu) && rxMax == old(rxMax) && maxDatagramSize == old(maxDatagramSize)
      ensures !failed ==> p == Adopted(reply.value, maxPacket) && Validated(p)
      ensures !failed ==> rxMax == SizeOrDefault(reply.value.inMax)
      ensures !failed ==> maxDatagramSize == ClampedDatagram(datagramSize) && mtu == maxDatagramSize - ETH_HLEN
    {
      if reply.None? {
        return true;
      }
      failed := false;
      var raw := reply.value;
      rxMax := raw.inMax;
      var txMax := raw.outMax;
      var remainder, modulus, ndpModulus := raw.payloadRemainder, raw.divisor, raw.alignment;
      if rxMax < MIN_HDR_SIZE + MIN_DATAGRAM || rxMax > NTB_MAX {
        rxMax := NTB_MAX;
      }
      if txMax < MIN_HDR_SIZE + MIN_DATAGRAM || txMax > NTB_MAX {
        txMax := NTB_MAX;
      }
      assert txMax == SizeOrDefault(raw.outMax) && rxMax == SizeOrDefault(raw.inMax);
      AdoptedValid(raw, maxPacket);
      AlignmentTest(ndpModulus, txMax);
      if ndpModulus < ALIGN_MIN || ndpModulus != And(Negate(ndpModulus), ndpModulus) || ndpModulus >= txMax {
        ndpModulus := ALIGN_MIN;
      }
      AlignmentTest(modulus, txMax);
      if modulus < ALIGN_MIN || modulus != And(Negate(modulus), modulus) || modulus >= txMax {
        modulus := ALIGN_MIN;
      }
      if remainder >= modulus {
        remainder := 0;
      }
      AdjustedRemainder(remainder, modulus);
      remainder := And((remainder - ETH_HLEN) % WORD, modulus - 1);
      p := Params(txMax, modulus, ndpModulus, remainder, maxPacket);
      SetDatagramSize(datagramSize);
    }

    /** The largest datagram and, from it, the mtu. */
    method SetDatagramSize(datagramSize: Option<nat>)
      modifies `mtu, `maxDatagramSize
      ensures maxDatagramSize == ClampedDatagram(datagramSize) && mtu == maxDatagramSize - ETH_HLEN
    {
      if datagramSize.None? {
        maxDatagramSize := MIN_DATAGRAM;
      } else {
        maxDatagramSize := datagramSize.value;
        if maxDatagramSize < MIN_DATAGRAM {
          maxDatagramSize := MIN_DATAGRAM;
        } else if maxDatagramSize > MAX_DATAGRAM {
          maxDatagramSize := MAX_DATAGRAM;
        }
      }
      if mtu != maxDatagramSize - ETH_HLEN {
        mtu := maxDatagramSize - ETH_HLEN;
      }
    }

    method AlignedHeader() returns (fp: nat)
      requires Validated(p)
      ensures fp == FpIndex(p)
    {
      AlignMeaning(NTH_SIZE, p.ndpModulus);
      fp := AlignWord(NTH_SIZE, p.ndpModulus);
    }

    /** The driver's rounding of an offset to the next place for a datagram. */
    method NextOffset(x: nat) returns (offset: nat)
      requires Validated(p) && x <= 2 * NTB_MAX
      ensures offset == Aligned(p, x)
    {
      AlignMeaning(x, p.modulus);
      offset := AlignWord(x, p.modulus) + p.remainder;
    }

    /** Starts a frame in a fresh buffer with zeroed header space.  If the header space is longer than the
        buffer, zeroing it would write behind the buffer; then there is no frame. */
    method OpenFrame() returns (buf: array?<Byte>, offset: nat, last: nat)
      requires Validated(p) && dpe.Length == MAX_DATAGRAMS + 1
      ensures buf != null <==> Usable(p)
      ensures buf != null ==> fresh(buf) && Holds(p, buf[..], dpe[..], Start(p), offset, last)
    {
      buf := null;
      offset := AlignedHeader();
      offset := offset + NDP_SIZE + (MAX_DATAGRAMS + 1) * DPE_SIZE;
      last := offset;
      offset := NextOffset(offset);
      if offset > p.txMax {
        return;
      }
      buf := new Byte[p.txMax];
      ZeroFill(buf, 0, offset, offset);
      assert buf[..offset] == Zeros(FirstOffset(p));
      StartBounded(p);
    }

    /** Copies a datagram that fits to the end of the frame. */
    method Append(buf: array<Byte>, ghost b: Builder, n: nat, offset: nat, last: nat, d: Bytes)
      returns (offset': nat, last': nat)
      requires dpe.Length == MAX_DATAGRAMS + 1 && |b.ds| == n < MAX_DATAGRAMS
      requires Holds(p, buf[..], dpe[..], b, offset, last) && offset + |d| <= p.txMax
      modifies buf, dpe
      ensures Holds(p, buf[..], dpe[..], Add(p, b, d), offset', last')
    {
      ghost var was, wasTable := buf[..], dpe[..];
      CopyInto(buf, offset, d);
      dpe[n] := Entry(offset, |d|);
      offset' := offset + |d|;
      last' := offset';
      offset' := NextOffset(offset');
      ZeroFill(buf, last', offset', p.txMax);
      AddBounded(p, b, d);
      AppendImage(was, b.image, d, Min(offset', p.txMax));
      assert dpe[..] == wasTable[n := Entry(offset, |d|)];
    }

    /** The body of the packing loop; `more` is false where it leaves the loop. */
    method PackOne(buf: array<Byte>, ghost b: Builder, offset0: nat, last0: nat, n0: nat,
                   skb0: Option<Bytes>, timeout0: bool)
      returns (ghost b': Builder, offset: nat, last: nat, n: nat, skb: Option<Bytes>, timeout: bool, more: bool)
      requires dpe.Length == MAX_DATAGRAMS + 1 && |b.ds| == n0 < MAX_DATAGRAMS
      requires Holds(p, buf[..], dpe[..], b, offset0, last0)
      modifies buf, dpe, `remSkb, `dropped
      ensures |b'.ds| == n && Holds(p, buf[..], dpe[..], b', offset, last)
      ensures n == n0 + if more then 1 else 0
      ensures (Loop(b', skb, remSkb, dropped, timeout), more) ==
              Turn(p, Loop(b, skb0, old(remSkb), old(dropped), timeout0))
    {
      b', offset, last, n, skb, timeout, more := b, offset0, last0, n0, skb0, timeout0, false;
      if offset >= p.txMax {
        return;
      }
      var rem := p.txMax - offset;
      if skb.None? {
        skb := remSkb;
        remSkb := None;
        if skb.None? {
          return;
        }
      }
      if |skb.value| > rem {
        if n == 0 {
          skb := None;
          dropped := dropped + 1;
        } else {
          if remSkb.Some? {
            dropped := dropped + 1;
          }
          remSkb := skb;
          skb := None;
          timeout := true;
        }
        return;
      }
      offset, last := Append(buf, b', n, offset, last, skb.value);
      b' := Add(p, b', skb.value);
      skb := None;
      n := n + 1;
      more := true;
    }

    /** The packing loop. */
    method Pack(buf: array<Byte>, ghost b: Builder, offset0: nat, last0: nat, n0: nat,
                skb0: Option<Bytes>, timeout0: bool)
      returns (ghost b': Builder, offset: nat, last: nat, n: nat, skb: Option<Bytes>, timeout: bool)
      requires dpe.Length == MAX_DATAGRAMS + 1 && |b.ds| == n0 < MAX_DATAGRAMS
      requires Holds(p, buf[..], dpe[..], b, offset0, last0)
      modifies buf, dpe, `remSkb, `dropped
      ensures |b'.ds| == n && Holds(p, buf[..], dpe[..], b', offset, last)
      ensures Loop(b', skb, remSkb, dropped, timeout) ==
              PackLoop(p, Loop(b, skb0, old(remSkb), old(dropped), timeout0))
    {
      b', offset, last, n, skb, timeout := b, offset0, last0, n0, skb0, timeout0;
      ghost var l := Loop(b, skb, remSkb, dropped, timeout);
      ghost var target := PackLoop(p, l);
      var more := true;
      while n < MAX_DATAGRAMS && more
        invariant |b'.ds| == n <= MAX_DATAGRAMS && Holds(p, buf[..], dpe[..], b', offset, last)
        invariant l == Loop(b', skb, remSkb, dropped, timeout)
        invariant target == if more then PackLoop(p, l) else l
        decreases MAX_DATAGRAMS - n, more
      {
        b', offset, last, n, skb, timeout, more := PackOne(buf, b', offset, last, n, skb, timeout);
        l := Turn(p, l).0;
      }
    }

    /** The final zero padding and the forced short packet. */
    method Pad(buf: array<Byte>, last: nat) returns (len: nat)
      requires Usable(p) && buf.Length == p.txMax && last <= p.txMax
      modifies buf
      ensures len == FrameLength(p, last)
      ensures buf[..len] == old(buf[..last]) + Zeros(len - last)
      ensures buf[len..] == old(buf[len..])
    {
      var end := last;
      if end > p.txMax {
        end := p.txMax;
      }
      len := end;
      if len > MIN_TX_PKT {
        len := p.txMax;
      }
      ZeroFill(buf, end, len, p.txMax);
      assert buf[..len] == old(buf[..last]) + Zeros(len - last);
      if len < p.txMax && len % p.maxPacket == 0 {
        buf[len] := 0;
        len := len + 1;
      }
    }

    /** Nulls the table entries behind the packed ones. */
    method EndTable(n: nat)
      requires dpe.Length == MAX_DATAGRAMS + 1 && n <= MAX_DATAGRAMS
      modifies dpe
      ensures dpe[..n + 1] == old(dpe[..n]) + [Entry(0, 0)]
    {
      var i := n;
      while i <= MAX_DATAGRAMS
        invariant n <= i <= MAX_DATAGRAMS + 1
        invariant dpe[..n] == old(dpe[..n])
        invariant i > n ==> dpe[n] == Entry(0, 0)
      {
        dpe[i] := Entry(0, 0);
        i := i + 1;
      }
    }

    /** Writes the NTB header, the table header and the first n + 1 table entries. */
    method WriteHeaders(buf: array<Byte>, n: nat, len: nat)
      requires Usable(p) && dpe.Length == MAX_DATAGRAMS + 1 && n <= MAX_DATAGRAMS && HeaderEnd(p) <= buf.Length
      modifies buf, `txSeq
      ensures buf[..] == WithHeaders(old(buf[..]), FpIndex(p), Nth16(old(txSeq), len, FpIndex(p)), Ndp16(n),
                                     DpeTable(dpe[..n + 1]))
      ensures txSeq == NextSeq(old(txSeq))
    {
      var fp := AlignedHeader();
      ghost var table := dpe[..n + 1];
      CopyInto(buf, 0, Nth16(txSeq, len, fp));
      txSeq := NextSeq(txSeq);
      CopyInto(buf, fp, Ndp16(n));
      CopyInto(buf, fp + NDP_SIZE, DpeTable(dpe[..n + 1]));
      assert dpe[..n + 1] == table;
    }

    /** Pads the frame and writes its headers over the zeroed header space. */
    method Emit(buf: array<Byte>, ghost b: Builder, n: nat, last: nat) returns (len: nat)
      requires dpe.Length == MAX_DATAGRAMS + 1 && |b.ds| == n && Packed(p, b) && last == b.last
      requires buf.Length == p.txMax && buf[..last] == b.image[..last] && dpe[..n] == b.table
      requires b.image[..FirstOffset(p)] == Zeros(FirstOffset(p))
      modifies buf, dpe, `txSeq
      ensures len == FrameLength(p, last) <= buf.Length
      ensures buf[..len] == Encode(p, old(txSeq), b)
      ensures txSeq == NextSeq(old(txSeq))
    {
      len := Pad(buf, last);
      EndTable(n);
      ghost var padded := buf[..];
      assert padded[..len] == buf[..len];
      WriteHeaders(buf, n, len);
      EncodeFromParts(p, old(txSeq), b, padded, buf[..], len);
      assert buf[..][..len] == buf[..len];
    }

    /** What a call sent, against the frame the specification sends. */
    ghost predicate Sent(f: Option<Frame>, out: array?<Byte>, len: nat)
      reads this, out
    {
      && (out != null <==> f.Some?)
      && (out != null ==>
            Packed(p, f.value.contents) && len <= out.Length
            && out[..len] == Encode(p, f.value.seqNo, f.value.contents))
    }

    /** Keeps the frame open for more datagrams. */
    method Keep(skbOut: array<Byte>, ghost b: Builder, offset: nat, last: nat, n: nat)
      requires dpe.Length == MAX_DATAGRAMS + 1 && Usable(p) && |b.ds| == n < MAX_DATAGRAMS && txSeq < 0x1_0000
      requires Holds(p, skbOut[..], dpe[..], b, offset, last)
      modifies `currSkb, `currOffset, `currLastOffset, `built, `currFrameNum, `timerPending
      ensures Valid()
      ensures State() == TxState(Some(b), remSkb, txSeq, dropped,
                                 if 0 < n < RESTART_COUNT then 2 else old(timerPending))
    {
      currFrameNum := n;
      currSkb, currOffset, currLastOffset, built := skbOut, offset, last, b;
      if 0 < n < RESTART_COUNT {
        timerPending := 2;
      }
    }

    /** Sends the frame. */
    method Send(skbOut: array<Byte>, ghost b: Builder, last: nat, n: nat) returns (out: array?<Byte>, len: nat)
      requires dpe.Length == MAX_DATAGRAMS + 1 && 1 <= |b.ds| == n && Usable(p)
      requires Holds(p, skbOut[..], dpe[..], b, b.offset, last)
      modifies skbOut, dpe, `txSeq, `currSkb, `currFrameNum
      ensures Valid()
      ensures State() == TxState(None, remSkb, NextSeq(old(txSeq)), dropped, timerPending)
      ensures Sent(Some(Frame(old(txSeq), b)), out, len)
    {
      currFrameNum := n;
      HeldParts(p, skbOut[..], dpe[..], b, last);
      len := Emit(skbOut, b, n, last);
      currSkb := null;
      out := skbOut;
    }

    /** The frame waits for more datagrams or goes out. */
    method KeepOrSend(skbOut: array<Byte>, ghost b: Builder, offset: nat, last: nat, n: nat, timeout: bool)
      returns (out: array?<Byte>, len: nat)
      requires dpe.Length == MAX_DATAGRAMS + 1 && Usable(p) && |b.ds| == n && txSeq < 0x1_0000
      requires Holds(p, skbOut[..], dpe[..], b, offset, last)
      modifies `txSeq, `currSkb, `currOffset, `currLastOffset, `built, `currFrameNum, `timerPending, dpe, skbOut
      ensures Valid()
      ensures State() == FinishLoop(old(txSeq), old(timerPending), Loop(b, None, remSkb, dropped, timeout)).0
      ensures Sent(FinishLoop(old(txSeq), old(timerPending), Loop(b, None, remSkb, dropped, timeout)).1, out, len)
    {
      if n == 0 || (n < MAX_DATAGRAMS && !timeout) {
        out, len := null, 0;
        Keep(skbOut, b, offset, last, n);
      } else {
        out, len := Send(skbOut, b, last, n);
      }
    }

    /** After the packing loop. */
    method Conclude(skbOut: array<Byte>, ghost b: Builder, offset: nat, last: nat, n: nat,
                    skb: Option<Bytes>, timeout: bool)
      returns (out: array?<Byte>, len: nat)
      requires dpe.Length == MAX_DATAGRAMS + 1 && Usable(p) && |b.ds| == n && txSeq < 0x1_0000
      requires Holds(p, skbOut[..], dpe[..], b, offset, last)
      modifies this, dpe, skbOut
      ensures Valid() && p == old(p)
      ensures State() == FinishLoop(old(txSeq), old(timerPending), Loop(b, skb, old(remSkb), old(dropped), timeout)).0
      ensures Sent(FinishLoop(old(txSeq), old(timerPending), Loop(b, skb, old(remSkb), old(dropped), timeout)).1,
                   out, len)
    {
      if skb.Some? {
        dropped := dropped + 1;
      }
      out, len := KeepOrSend(skbOut, b, offset, last, n, timeout);
    }

    /** Submits a datagram, or flushes on a timeout; returns the frame that goes out, if any.  `overrun`
        says that a frame was to be opened whose header space would not fit its buffer. */
    method FillTxFrame(submitted: Option<Bytes>, allocOk: bool) returns (out: array?<Byte>, len: nat, overrun: bool)
      requires Valid()
      modifies this, dpe, currSkb
      ensures Valid() && p == old(p)
      ensures overrun <==> old(currSkb) == null && allocOk && !Usable(p)
      ensures !overrun ==> State() == Step(p, old(State()), submitted, allocOk).0
      ensures !overrun ==> Sent(Step(p, old(State()), submitted, allocOk).1, out, len)
    {
      overrun := false;
      var skb, timeout := submitted, false;
      if skb.Some? {
        skb, remSkb := remSkb, skb;
      } else {
        timeout := true;
      }
      var skbOut: array<Byte>;
      var offset, last, n;
      ghost var b;
      if currSkb != null {
        skbOut, offset, last, n, b := currSkb, currOffset, currLastOffset, currFrameNum, built;
      } else {
        if !allocOk {
          if skb.Some? {
            dropped := dropped + 1;
          }
          return null, 0, false;
        }
        var empty;
        empty, offset, last := OpenFrame();
        if empty == null {
          return null, 0, true;
        }
        skbOut, n, b := empty, 0, Start(p);
      }
      b, offset, last, n, skb, timeout := Pack(skbOut, b, offset, last, n, skb, timeout);
      out, len := Conclude(skbOut, b, offset, last, n, skb, timeout);
    }

    /** One timer tick. */
    method TxTimeout(allocOk: bool) returns (out: array?<Byte>, len: nat, overrun: bool)
      requires Valid()
      modifies this, dpe, currSkb
      ensures Valid() && p == old(p)
      ensures overrun <==> old(timerPending) == 0 && old(currSkb) == null && allocOk && !Usable(p)
      ensures !overrun ==> State() == Tick(p, old(State()), allocOk).0
      ensures !overrun ==> Sent(Tick(p, old(State()), allocOk).1, out, len)
    {
      if timerPending != 0 {
        timerPending := timerPending - 1;
        out, len, overrun := null, 0, false;
      } else {
        out, len, overrun := FillTxFrame(None, allocOk);
      }
    }
  }

  /** The receive path. */
  method RxFixup(f: Bytes) returns (ok: bool, delivered: seq<Bytes>)
    ensures Decode(f) == if ok then Accepted(delivered) else Rejected
    ensures !ok ==> delivered == []
  {
    delivered := [];
    var table, nframes;
    ok, table, nframes := CheckHeaders(f);
    if ok {
      DecodeTable(f, table, nframes);
      ok, delivered := DeliverTable(f, table, nframes);
    }
  }

  /** The checks of the headers, and where the table stands. */
  method CheckHeaders(f: Bytes) returns (ok: bool, table: nat, nframes: nat)
    ensures ok <==> HeadersOk(f)
    ensures ok ==> table == TableStart(f) && nframes == Min(TableCount(f), MAX_DATAGRAMS)
  {
    ok, table, nframes := false, 0, 0;
    var actlen := |f|;
    var sumlen := NTB_MAX;
    if actlen < NTH_SIZE + NDP_SIZE {
      return;
    }
    if Get32(f, 0) != NTH_SIGN {
      return;
    }
    var temp := Get16(f, 8);
    if temp > sumlen {
      return;
    }
    temp := Get16(f, 10);
    if temp + NDP_SIZE > actlen {
      return;
    }
    if Get32(f, temp) != NDP_SIGN {
      return;
    }
    var length := Get16(f, temp + 4);
    if length < 16 {
      return;
    }
    nframes := (length - NDP_SIZE) / DPE_SIZE;
    nframes := nframes - 1;
    temp := temp + NDP_SIZE;
    if temp + nframes * DPE_SIZE > actlen {
      return;
    }
    if nframes > MAX_DATAGRAMS {
      nframes := MAX_DATAGRAMS;
    }
    ok, table := true, temp;
  }

  lemma DecodeTable(f: Bytes, table: nat, n: nat)
    requires HeadersOk(f) && table == TableStart(f) && n == Min(TableCount(f), MAX_DATAGRAMS)
    ensures var ds := Deliver(f, table, n, 0); Decode(f) == if ds == [] then Rejected else Accepted(ds)
  {
  }

  /** The loop over the pointer table. */
  method DeliverTable(f: Bytes, table: nat, nframes: nat) returns (ok: bool, delivered: seq<Bytes>)
    requires 1 <= nframes && table + nframes * DPE_SIZE <= |f|
    ensures delivered == Deliver(f, table, nframes, 0)
    ensures ok <==> delivered != []
  {
    delivered := [];
    var x := 0;
    ghost var all := Deliver(f, table, nframes, 0);
    while x < nframes
      invariant x <= nframes
      invariant x > 0 ==> delivered != []
      invariant all == delivered + Deliver(f, table, nframes, x)
    {
      var e := EntryAt(f, table, x);
      if e.index == 0 || e.length == 0 {
        if x == 0 {
          DeliverStop(f, table, nframes, x, delivered);
          return false, delivered;
        }
        break;
      }
      if e.index + e.length > |f| || e.length > MAX_DATAGRAM || e.length < ETH_HLEN {
        if x == 0 {
          DeliverStop(f, table, nframes, x, delivered);
          return false, delivered;
        }
        break;
      } else {
        var datagram := f[e.index..e.index + e.length];
        DeliverMore(f, table, nframes, x, delivered, datagram);
        delivered := delivered + [datagram];
      }
      x := x + 1;
    }
    DeliverStop(f, table, nframes, x, delivered);
    ok := true;
  }

  /** The table is left at its end or at an entry that is null or invalid. */
  lemma DeliverStop(f: Bytes, table: nat, nframes: nat, x: nat, delivered: seq<Bytes>)
    requires x <= nframes && table + nframes * DPE_SIZE <= |f|
    requires x < nframes ==> !EntryOk(f, EntryAt(f, table, x))
    ensures delivered + Deliver(f, table, nframes, x) == delivered
  {
  }

  lemma DeliverMore(f: Bytes, table: nat, nframes: nat, x: nat, delivered: seq<Bytes>, datagram: Bytes)
    requires x < nframes && table + nframes * DPE_SIZE <= |f|
    requires var e := EntryAt(f, table, x); EntryOk(f, e) && datagram == f[e.index..e.index + e.length]
    ensures delivered + Deliver(f, table, nframes, x)
         == (delivered + [datagram]) + Deliver(f, table, nframes, x + 1)
  {
    Assoc(delivered, [datagram], Deliver(f, table, nframes, x + 1));
  }

  /** The three header copies. */
  function WithHeaders(b: Bytes, fp: nat, nth: Bytes, ndp: Bytes, table: Bytes): Bytes
    requires |nth| <= fp && fp + |ndp| + |table| <= |b|
  {
    Spliced(Spliced(Spliced(b, 0, nth), fp, ndp), fp + |ndp|, table)
  }

  lemma FourIsPowerOfTwo()
    ensures IsPowerOfTwo(4)
  {
    assert 4 == Pow2(2);
  }

  /** The driver's test of an alignment. */
  lemma AlignmentTest(a: nat, txMax: nat)
    requires a < WORD
    ensures (a < ALIGN_MIN || a != And(Negate(a), a) || a >= txMax) <==> !AlignmentOk(a, txMax)
  {
    PowerOfTwoTest(a);
  }

  /** Masking the 32-bit difference is the remainder of the difference. */
  lemma {:induction false} AdjustedRemainder(r: nat, m: nat)
    requires IsPowerOfTwo(m) && m < WORD && r < m
    ensures And((r - ETH_HLEN) % WORD, m - 1) == (r - ETH_HLEN) % m
  {
    ModMask((r - ETH_HLEN) % WORD, m);
    var k: nat :| m == Pow2(k);
    WordIsPow2();
    if k > 32 {
      Pow2Monotone(32, k);
    }
    Pow2Divides(k, 32);
    var q: nat :| WORD == m * q;
    Wrapped(r - ETH_HLEN);
    if r < ETH_HLEN {
      ModShift(r - ETH_HLEN, m, q);
    }
  }

  lemma Wrapped(x: int)
    requires -(WORD as int) < x < WORD
    ensures x % WORD == if x < 0 then x + WORD else x
  {
  }

  lemma {:induction false} ModShift(x: int, m: nat, q: nat)
    requires m > 0 && x + m * q >= 0
    ensures (x + m * q) % m == x % m
  {
    var w, t := x / m, x % m;
    assert x == m * w + t;
    assert x + m * q == m * (w + q) + t by {
      assert m * (w + q) == m * w + m * q;
    }
    ModUnique(x + m * q, m, w + q, t);
  }

  lemma AppendImage(was: Bytes, image: Bytes, d: Bytes, stop: nat)
    requires image <= was && |image| + |d| <= stop <= |was|
    ensures image + d + Zeros(stop - |image| - |d|) <= Zeroed(Spliced(was, |image|, d), |image| + |d|, stop)
  {
    var w := Spliced(was, |image|, d);
    assert w[..|image| + |d|] == image + d;
  }

  /** What an open frame leaves in the buffer and in the pointer table. */
  lemma HeldParts(p: Params, buf: Bytes, table: seq<Entry>, b: Builder, last: nat)
    requires NcmContext.Holds(p, buf, table, b, b.offset, last)
    ensures buf[..last] == b.image[..last] && table[..|b.ds|] == b.table
    ensures b.image[..FirstOffset(p)] == Zeros(FirstOffset(p))
  {
  }

  /** Three copies over a zeroed header space give the encoded frame. */
  lemma {:induction false} EncodeFromParts(p: Params, seqNo: nat, b: Builder, padded: Bytes, buf: Bytes, len: nat)
    requires Packed(p, b) && |padded| == p.txMax && len == FrameLength(p, b.last)
    requires padded[..len] == b.image[..b.last] + Zeros(len - b.last)
    requires b.image[..FirstOffset(p)] == Zeros(FirstOffset(p))
    requires buf == WithHeaders(padded, FpIndex(p), Nth16(seqNo, len, FpIndex(p)), Ndp16(|b.ds|),
                                DpeTable(b.table + [Entry(0, 0)]))
    ensures buf[..len] == Encode(p, seqNo, b)
  {
    PrefixZeros(padded, b.image, len, b.last, FirstOffset(p), FpIndex(p));
    SplicedHeaders(padded, Nth16(seqNo, len, FpIndex(p)), FpIndex(p), Ndp16(|b.ds|),
                   DpeTable(b.table + [Entry(0, 0)]), len);
  }

  lemma PrefixZeros(padded: Bytes, image: Bytes, len: nat, last: nat, first: nat, fp: nat)
    requires fp <= first <= last <= len <= |padded| && last <= |image|
    requires padded[..len] == image[..last] + Zeros(len - last) && image[..first] == Zeros(first)
    ensures padded[..fp] == Zeros(fp)
  {
    assert padded[..fp] == padded[..len][..fp] == image[..first][..fp];
  }

  lemma SplicedHeaders(b: Bytes, nth: Bytes, fp: nat, ndp: Bytes, table: Bytes, len: nat)
    requires |nth| <= fp && fp + |ndp| + |table| <= len <= |b|
    requires b[..fp] == Zeros(fp)
    ensures var h := nth + Zeros(fp - |nth|) + ndp + table;
            WithHeaders(b, fp, nth, ndp, table)[..len] == h + b[..len][|h|..]
  {
    var b1 := Spliced(b, 0, nth);
    var b2 := Spliced(b1, fp, ndp);
    var b3, at := Spliced(b2, fp + |ndp|, table), fp + |ndp| + |table|;
    FirstSplice(b, nth, fp);
    SpliceParts(b1, fp, ndp);
    SpliceParts(b2, fp + |ndp|, table);
    assert b3[at..] == b2[fp + |ndp|..][|table|..] == b1[fp..][|ndp| + |table|..];
    assert b1[fp..][|ndp| + |table|..] == b[fp..][|ndp| + |table|..] == b[at..];
    SliceOfTail(b3, at, len);
    SliceOfTail(b, at, len);
    var h := nth + Zeros(fp - |nth|) + ndp + table;
    assert h == b3[..at] && |h| == at;
  }

  lemma SliceOfTail(b: Bytes, at: nat, len: nat)
    requires at <= len <= |b|
    ensures b[..len] == b[..at] + b[at..][..len - at] && b[..len][at..] == b[at..][..len - at]
  {
  }

  lemma SpliceParts(b: Bytes, at: nat, part: Bytes)
    requires at + |part| <= |b|
    ensures Spliced(b, at, part)[..at + |part|] == b[..at] + part
    ensures Spliced(b, at, part)[at + |part|..] == b[at..][|part|..]
  {
  }

  lemma FirstSplice(b: Bytes, nth: Bytes, fp: nat)
    requires |nth| <= fp <= |b| && b[..fp] == Zeros(fp)
    ensures Spliced(b, 0, nth)[..fp] == nth + Zeros(fp - |nth|)
    ensures Spliced(b, 0, nth)[fp..] == b[fp..]
  {
    var z, tail := Zeros(fp), b[|nth|..];
    assert z[|nth|..] == Zeros(fp - |nth|);
    SliceOfSlice(b, |nth|, |b|, 0, fp - |nth|);
    SliceOfSlice(b, 0, fp, |nth|, fp);
    assert tail[..fp - |nth|] == b[..fp][|nth|..];
    assert Spliced(b, 0, nth) == nth + tail;
    assert (nth + tail)[..fp] == nth + tail[..fp - |nth|];
    assert (nth + tail)[fp..] == b[fp..];
  }
}
