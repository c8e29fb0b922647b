/** Every byte of every frame of a run, read back at its offset (USB CDC NCM 1.0, sections 3.2.1, 3.3.1 and
    3.7). */
module NcmFrames {
  import opened Common
  import opened Bits
  import opened NcmSpec
  import opened NcmProofs
  import opened NcmRuns
  import opened NcmDriver

  // ---------------------------------------------------------------- what a frame holds besides datagrams

  /** x lies in one of the datagrams of the table. */
  ghost predicate InDatagram(table: seq<Entry>, x: nat) {
    exists i :: 0 <= i < |table| && table[i].index <= x < table[i].index + table[i].length
  }

  /** Where the first i datagrams end: behind the room for the headers, if there are none. */
  function EndOf(p: Params, table: seq<Entry>, i: nat): nat
    requires p.ndpModulus > 0 && i <= |table|
  {
    if i == 0 then HeaderEnd(p) else table[i - 1].index + table[i - 1].length
  }

  predicate Starts(p: Params, table: seq<Entry>, i: nat)
    requires p.modulus > 0 && p.ndpModulus > 0 && i < |table|
  {
    table[i].index == Aligned(p, EndOf(p, table, i))
  }

  /** The datagrams stand as close as the alignment lets them, `last` is where they end, and everything
      between them is zero. */
  ghost predicate Tight(p: Params, b: Builder) {
    && Usable(p)
    && (forall i :: 0 <= i < |b.table| ==> Starts(p, b.table, i))
    && b.offset == Aligned(p, EndOf(p, b.table, |b.table|))
    && b.last == EndOf(p, b.table, |b.table|)
    && (forall x :: 0 <= x < |b.image| && !InDatagram(b.table, x) ==> b.image[x] == 0)
  }

  lemma {:induction false} StartTight(p: Params)
    requires Usable(p)
    ensures Tight(p, Start(p))
  {
  }

  lemma {:induction false} AddTight(p: Params, b: Builder, d: Bytes)
    requires Tight(p, b) && Bounded(p, b) && b.offset + |d| <= p.txMax
    ensures Tight(p, Add(p, b, d))
  {
    var b' := Add(p, b, d);
    TableGrows(p, b.table, Entry(b.offset, |d|));
    forall x | 0 <= x < |b'.image| && !InDatagram(b'.table, x) ensures b'.image[x] == 0 {
      AddGap(p, b, d, x);
    }
  }

  lemma {:induction false} TableGrows(p: Params, table: seq<Entry>, e: Entry)
    requires p.modulus > 0 && p.ndpModulus > 0 && e.index == Aligned(p, EndOf(p, table, |table|))
    requires forall i :: 0 <= i < |table| ==> Starts(p, table, i)
    ensures var table' := table + [e];
            && (forall i :: 0 <= i < |table'| ==> Starts(p, table', i))
            && EndOf(p, table', |table'|) == e.index + e.length
  {
    var table' := table + [e];
    forall i | 0 <= i < |table'| ensures Starts(p, table', i) {
      SameEnd(p, table, e, i);
      if i < |table| {
        SameStart(p, table, table', i);
      }
    }
  }

  lemma SameEnd(p: Params, table: seq<Entry>, e: Entry, i: nat)
    requires p.ndpModulus > 0 && i <= |table|
    ensures EndOf(p, table + [e], i) == EndOf(p, table, i)
  {
  }

  lemma SameStart(p: Params, table: seq<Entry>, table': seq<Entry>, i: nat)
    requires p.modulus > 0 && p.ndpModulus > 0 && i < |table| && i < |table'| && table'[i] == table[i]
    requires Starts(p, table, i) && EndOf(p, table', i) == EndOf(p, table, i)
    ensures Starts(p, table', i)
  {
  }

  lemma {:induction false} InMore(table: seq<Entry>, e: Entry, x: nat)
    ensures InDatagram(table + [e], x) <==> InDatagram(table, x) || e.index <= x < e.index + e.length
  {
    var table' := table + [e];
    if InDatagram(table, x) {
      var i :| 0 <= i < |table| && table[i].index <= x < table[i].index + table[i].length;
      assert table'[i] == table[i];
    }
    assert table'[|table|] == e;
  }

  lemma {:induction false} AddGap(p: Params, b: Builder, d: Bytes, x: nat)
    requires Tight(p, b) && Bounded(p, b) && b.offset + |d| <= p.txMax
    requires x < |Add(p, b, d).image| && !InDatagram(Add(p, b, d).table, x)
    ensures Add(p, b, d).image[x] == 0
  {
    var b' := Add(p, b, d);
    InMore(b.table, Entry(b.offset, |d|), x);
    if x < |b.image| {
      assert b'.image[x] == b.image[x];
    } else {
      assert b'.image[x] == Zeros(Min(b'.offset, p.txMax) - (b.offset + |d|))[x - (b.offset + |d|)];
    }
  }

  // ---------------------------------------------------------------- over runs

  ghost predicate StateTight(p: Params, s: TxState) {
    s.open.Some? ==> Tight(p, s.open.value)
  }

  lemma {:induction false} PackTight(p: Params, l: Loop)
    requires Sound(p, l.b) && Tight(p, l.b)
    ensures Tight(p, PackLoop(p, l).b)
    decreases OptLen(l.skb) + OptLen(l.pending)
  {
    var (t, more) := Turn(p, l);
    if more {
      var d := if l.skb.Some? then l.skb.value else l.pending.value;
      AddTight(p, l.b, d);
      AddSound(p, l.b, d);
      PackTight(p, t);
    }
  }

  lemma {:induction false} StepTight(p: Params, s: TxState, skb: Option<Bytes>, allocOk: bool)
    requires NcmRuns.Valid(p, s) && StateTight(p, s)
    ensures var (s', f) := Step(p, s, skb, allocOk);
            StateTight(p, s') && (f.Some? ==> Tight(p, f.value.contents))
  {
    if s.open.Some? || allocOk {
      StartTight(p);
      StartSound(p);
      PackTight(p, StartLoop(p, s, skb));
    }
  }

  lemma {:induction false} RunTight(p: Params, es: seq<Event>)
    requires Usable(p)
    ensures StateTight(p, Run(p, es).state)
    ensures forall k :: 0 <= k < |Run(p, es).frames| ==> Tight(p, Run(p, es).frames[k].contents)
  {
    if es != [] {
      var init, e := es[..|es| - 1], es[|es| - 1];
      RunTight(p, init);
      if e.Submit? || Run(p, init).state.timer == 0 {
        StepTight(p, Run(p, init).state, if e.Submit? then Some(e.datagram) else None, e.allocOk);
      }
    }
  }

  // ---------------------------------------------------------------- the bytes of a frame

  /** v is the least multiple of m that is not below x. */
  predicate LeastMultiple(m: nat, x: nat, v: int)
    requires m > 0
  {
    v % m == 0 && x <= v < x + m
  }

  lemma {:induction false} RoundUpLeast(x: nat, m: nat)
    requires m > 0
    ensures LeastMultiple(m, x, RoundUp(x, m))
  {
    RoundUpIsMultiple(x, m);
    var q: nat :| RoundUp(x, m) == m * q;
    ModUnique(RoundUp(x, m), m, q, 0);
  }

  /** The fixed part of the headers of frame number k with n datagrams, read at their offsets. */
  predicate HeaderFields(p: Params, f: Bytes, k: nat, n: nat)
    requires p.ndpModulus > 0
  {
    && 20 <= |f|
    && f[0..4] == [0x4E, 0x43, 0x4D, 0x48]
    && Get16(f, 4) == 12
    && Get16(f, 6) == k % 0x1_0000
    && Get16(f, 8) == |f|
    && var fp := Get16(f, 10);
       && LeastMultiple(p.ndpModulus, 12, fp)
       && fp + 8 + 33 * 4 <= |f| && n <= 32
       && f[fp..fp + 4] == [0x4E, 0x43, 0x4D, 0x30]
       && Get16(f, fp + 4) == 8 + (n + 1) * 4
       && Get16(f, fp + 6) == 0
       && EntryAt(f, fp + 8, n) == Entry(0, 0)
  }

  lemma {:induction false} NthFields(f: Bytes, seqNo: nat, len: nat, fp: nat)
    requires 20 <= |f| && f[..NTH_SIZE] == Nth16(seqNo, len, fp)
    requires seqNo < 0x1_0000 && len < 0x1_0000 && fp < 0x1_0000
    ensures f[0..4] == [0x4E, 0x43, 0x4D, 0x48]
    ensures Get16(f, 4) == 12 && Get16(f, 6) == seqNo && Get16(f, 8) == len && Get16(f, 10) == fp
  {
    var h := f[..NTH_SIZE];
    assert f[0..4] == h[0..4] == Le32(NTH_SIGN) == [0x4E, 0x43, 0x4D, 0x48];
    assert f[4..6] == h[4..6] == Le16(NTH_SIZE);
    GetLe16(f, 4, NTH_SIZE);
    assert f[6..8] == h[6..8] == Le16(seqNo);
    GetLe16(f, 6, seqNo);
    assert f[8..10] == h[8..10] == Le16(len);
    GetLe16(f, 8, len);
    assert f[10..12] == h[10..12] == Le16(fp);
    GetLe16(f, 10, fp);
  }

  lemma {:induction false} NdpFields(f: Bytes, fp: nat, n: nat)
    requires fp + NDP_SIZE <= |f| && f[fp..fp + NDP_SIZE] == Ndp16(n) && n <= 32
    ensures f[fp..fp + 4] == [0x4E, 0x43, 0x4D, 0x30]
    ensures Get16(f, fp + 4) == 8 + (n + 1) * 4 && Get16(f, fp + 6) == 0
  {
    SliceOfSlice(f, fp, fp + NDP_SIZE, 0, 4);
    assert f[fp..fp + 4] == Le32(NDP_SIGN) == [0x4E, 0x43, 0x4D, 0x30];
    NdpReadsBack(f, fp, n);
    SliceOfSlice(f, fp, fp + NDP_SIZE, 6, 8);
    assert f[fp + 6..fp + 8] == Le16(0);
    GetLe16(f, fp + 6, 0);
  }

  lemma {:induction false} FieldsOfEncoded(p: Params, seqNo: nat, b: Builder)
    requires Packed(p, b) && seqNo < 0x1_0000
    ensures HeaderFields(p, Encode(p, seqNo, b), seqNo, |b.ds|)
    ensures Get16(Encode(p, seqNo, b), 10) == FpIndex(p)
  {
    var f, fp := Encode(p, seqNo, b), FpIndex(p);
    HeaderParts(p, seqNo, b);
    NthFields(f, seqNo, |f|, fp);
    NdpFields(f, fp, |b.ds|);
    RoundUpLeast(NTH_SIZE, p.ndpModulus);
    NullEntry(f, fp + NDP_SIZE, b.table);
    ModUnique(seqNo, 0x1_0000, 0, seqNo);
  }

  lemma {:induction false} NullEntry(f: Bytes, t: nat, es: seq<Entry>)
    requires t + (|es| + 1) * DPE_SIZE <= |f|
    requires f[t..t + (|es| + 1) * DPE_SIZE] == DpeTable(es + [Entry(0, 0)])
    ensures EntryAt(f, t, |es|) == Entry(0, 0)
  {
    TableReadsBack(f, t, es + [Entry(0, 0)], |es|);
  }

  /** Where the first i datagrams end, by the pointer table at fp: behind the room for a full table, if there
      are none. */
  function Behind(f: Bytes, fp: nat, i: nat): nat
    requires fp + 8 + i * 4 <= |f|
  {
    if i == 0 then fp + 8 + 33 * 4 else EntryAt(f, fp + 8, i - 1).index + EntryAt(f, fp + 8, i - 1).length
  }

  /** Datagram number i stands where its entry says, at the least multiple of the modulus behind the one in
      front, plus the remainder. */
  predicate Stands(p: Params, f: Bytes, fp: nat, d: Bytes, i: nat)
    requires p.modulus > 0 && fp + 8 + (i + 1) * 4 <= |f|
  {
    var e := EntryAt(f, fp + 8, i);
    e.length == |d| && StandsAt(d, f, e.index) && LeastMultiple(p.modulus, Behind(f, fp, i), e.index - p.remainder)
  }

  /** The length of a frame whose datagrams end at `end`. */
  predicate Length(p: Params, f: Bytes, end: nat)
    requires p.maxPacket > 0
  {
    && end <= |f| <= p.txMax
    && (if end > 512 then |f| == p.txMax
        else |f| == end + if end < p.txMax && end % p.maxPacket == 0 then 1 else 0)
  }

  lemma {:induction false} EntryRead(p: Params, seqNo: nat, b: Builder, i: nat)
    requires Packed(p, b) && Sound(p, b) && i < |b.ds|
    ensures FpIndex(p) + NDP_SIZE + (i + 1) * DPE_SIZE <= |Encode(p, seqNo, b)|
    ensures var f := Encode(p, seqNo, b);
            && EntryAt(f, FpIndex(p) + NDP_SIZE, i) == b.table[i]
            && b.table[i].length == |b.ds[i]| && StandsAt(b.ds[i], f, b.table[i].index)
  {
    var r := GridExists(p);
    HeaderParts(p, seqNo, b);
    DatagramStands(p, seqNo, b, i, r);
    TableReadsBack(Encode(p, seqNo, b), FpIndex(p) + NDP_SIZE, b.table + [Entry(0, 0)], i);
  }

  lemma {:induction false} BehindRead(p: Params, seqNo: nat, b: Builder, i: nat)
    requires Packed(p, b) && Sound(p, b) && i <= |b.ds|
    ensures FpIndex(p) + NDP_SIZE + i * DPE_SIZE <= |Encode(p, seqNo, b)|
    ensures Behind(Encode(p, seqNo, b), FpIndex(p), i) == EndOf(p, b.table, i)
  {
    HeaderParts(p, seqNo, b);
    if i > 0 {
      EntryRead(p, seqNo, b, i - 1);
    }
  }

  lemma {:induction false} StandsEncoded(p: Params, seqNo: nat, b: Builder, i: nat)
    requires Packed(p, b) && Sound(p, b) && Tight(p, b) && i < |b.ds|
    ensures FpIndex(p) + 8 + (i + 1) * 4 <= |Encode(p, seqNo, b)|
    ensures Stands(p, Encode(p, seqNo, b), FpIndex(p), b.ds[i], i)
  {
    EntryRead(p, seqNo, b, i);
    BehindRead(p, seqNo, b, i);
    assert Starts(p, b.table, i);
    AlignedLeast(p, EndOf(p, b.table, i), b.table[i].index);
  }

  lemma AlignedLeast(p: Params, x: nat, y: nat)
    requires p.modulus > 0 && y == Aligned(p, x)
    ensures LeastMultiple(p.modulus, x, y - p.remainder)
  {
    RoundUpLeast(x, p.modulus);
  }

  lemma {:induction false} LengthEncoded(p: Params, seqNo: nat, b: Builder)
    requires Packed(p, b) && Sound(p, b) && Tight(p, b)
    ensures FpIndex(p) + NDP_SIZE + |b.ds| * DPE_SIZE <= |Encode(p, seqNo, b)|
    ensures Length(p, Encode(p, seqNo, b), Behind(Encode(p, seqNo, b), FpIndex(p), |b.ds|))
  {
    BehindRead(p, seqNo, b, |b.ds|);
  }

  /** x lies in the datagram of entry number i of the table at fp. */
  predicate InEntry(f: Bytes, fp: nat, i: nat, x: nat)
    requires fp + 8 + (i + 1) * 4 <= |f|
  {
    EntryAt(f, fp + 8, i).index <= x < EntryAt(f, fp + 8, i).index + EntryAt(f, fp + 8, i).length
  }

  /** x belongs to no header field, no table entry and no datagram. */
  ghost predicate Unused(f: Bytes, fp: nat, n: nat, x: nat)
    requires fp + 8 + n * 4 <= |f|
  {
    && 12 <= x && !(fp <= x < fp + 8 + (n + 1) * 4)
    && forall i :: 0 <= i < n ==> !InEntry(f, fp, i, x)
  }

  lemma {:induction false} UnusedZero(p: Params, seqNo: nat, b: Builder, x: nat)
    requires Packed(p, b) && Sound(p, b) && Tight(p, b)
    requires FpIndex(p) + 8 + |b.ds| * 4 <= |Encode(p, seqNo, b)|
    requires x < |Encode(p, seqNo, b)| && Unused(Encode(p, seqNo, b), FpIndex(p), |b.ds|, x)
    ensures Encode(p, seqNo, b)[x] == 0
  {
    var len := FrameLength(p, b.last);
    var h := Header(p, seqNo, b.table, len);
    if InDatagram(b.table, x) {
      var i :| 0 <= i < |b.table| && b.table[i].index <= x < b.table[i].index + b.table[i].length;
      EntryRead(p, seqNo, b, i);
      assert InEntry(Encode(p, seqNo, b), FpIndex(p), i, x);
    }
    BytesOfEncoded(h, b.image[..b.last], Zeros(len - b.last), x);
    if x < |h| {
      HeaderGap(p, seqNo, b.table, len, x);
    }
  }

  lemma BytesOfEncoded(h: Bytes, im: Bytes, pad: Bytes, x: nat)
    requires |h| <= |im| && x < |im| + |pad|
    ensures (h + (im + pad)[|h|..])[x] == if x < |h| then h[x] else if x < |im| then im[x] else pad[x - |im|]
  {
  }

  /** Between the two headers. */
  lemma {:induction false} HeaderGap(p: Params, seqNo: nat, table: seq<Entry>, len: nat, x: nat)
    requires p.ndpModulus > 0 && NTH_SIZE <= x < FpIndex(p)
    ensures Header(p, seqNo, table, len)[x] == 0
  {
    var gap := Zeros(FpIndex(p) - NTH_SIZE);
    assert Header(p, seqNo, table, len)[x] == gap[x - NTH_SIZE];
  }

  /** Frame number k of a run, byte for byte.  The header fields are those of the standard, numbered by k;
      each table entry points at its datagram, which stands as close behind the one in front as the alignment
      lets it; the entry behind the last is null; the length is tx_max above 512 bytes, and otherwise one
      byte more than the datagrams need if these would fill whole packets; and every other byte is zero. */
  lemma {:induction false} FrameExact(p: Params, es: seq<Event>, k: nat)
    requires Usable(p) && k < |Run(p, es).frames|
    ensures Packed(p, Run(p, es).frames[k].contents)
    ensures var frame := Run(p, es).frames[k];
            var f, ds := Encode(p, frame.seqNo, frame.contents), frame.contents.ds;
            && ds != [] && HeaderFields(p, f, k, |ds|)
            && (forall i :: 0 <= i < |ds| ==> Stands(p, f, Get16(f, 10), ds[i], i))
            && Length(p, f, Behind(f, Get16(f, 10), |ds|))
            && forall x :: 0 <= x < |f| && Unused(f, Get16(f, 10), |ds|, x) ==> f[x] == 0
  {
    var frame := Run(p, es).frames[k];
    RunFrames(p, es, k);
    RunTight(p, es);
    ModUnique(k % 0x1_0000, 0x1_0000, 0, k % 0x1_0000);
    EncodedExact(p, frame.seqNo, frame.contents);
  }

  lemma {:induction false} EncodedExact(p: Params, seqNo: nat, b: Builder)
    requires Packed(p, b) && Sound(p, b) && Tight(p, b) && seqNo < 0x1_0000
    ensures var f := Encode(p, seqNo, b);
            && HeaderFields(p, f, seqNo, |b.ds|)
            && (forall i :: 0 <= i < |b.ds| ==> Stands(p, f, Get16(f, 10), b.ds[i], i))
            && Length(p, f, Behind(f, Get16(f, 10), |b.ds|))
            && forall x :: 0 <= x < |f| && Unused(f, Get16(f, 10), |b.ds|, x) ==> f[x] == 0
  {
    var f := Encode(p, seqNo, b);
    FieldsOfEncoded(p, seqNo, b);
    LengthEncoded(p, seqNo, b);
    forall i | 0 <= i < |b.ds| ensures Stands(p, f, FpIndex(p), b.ds[i], i) {
      StandsEncoded(p, seqNo, b, i);
    }
    forall x | 0 <= x < |f| && Unused(f, FpIndex(p), |b.ds|, x) ensures f[x] == 0 {
      UnusedZero(p, seqNo, b, x);
    }
  }

  // ---------------------------------------------------------------- from the device's reply to the frames

  ghost predicate ValidAlignment(a: nat, size: nat) {
    4 <= a < size && IsPowerOfTwo(a)
  }

  /** What the device has asked for; a value that is not valid counts as 16384, 4, 4 or 0. */
  function Size(raw: NtbParameters): nat {
    if 1666 <= raw.outMax <= 16384 then raw.outMax else 16384
  }

  ghost function Divisor(raw: NtbParameters): nat {
    if ValidAlignment(raw.divisor, Size(raw)) then raw.divisor else 4
  }

  ghost function Alignment(raw: NtbParameters): nat {
    if ValidAlignment(raw.alignment, Size(raw)) then raw.alignment else 4
  }

  ghost function Remainder(raw: NtbParameters): nat {
    if raw.payloadRemainder < Divisor(raw) then raw.payloadRemainder else 0
  }

  lemma AdoptedFields(raw: NtbParameters, maxPacket: nat)
    ensures var p := Adopted(raw, maxPacket);
            && p.txMax == Size(raw) && p.modulus == Divisor(raw) && p.ndpModulus == Alignment(raw)
            && Remainder(raw) < Divisor(raw) && p.remainder == (Remainder(raw) - 14) % Divisor(raw)
            && p.maxPacket == maxPacket
  {
  }

  /** From the device's reply to the bytes of the frames: in every frame of every run, the payload behind the
      Ethernet header of each datagram leaves the payload remainder asked for when its place is divided by the
      divisor asked for, the pointer table stands on the alignment asked for, and the frame is no longer than
      the size asked for. */
  lemma {:induction false} ReplyHonoured(raw: NtbParameters, maxPacket: nat, p: Params, es: seq<Event>, k: nat, i: nat)
    requires maxPacket > 0 && p == Adopted(raw, maxPacket) && Usable(p)
    requires k < |Run(p, es).frames| && i < |Run(p, es).frames[k].contents.ds|
    ensures Packed(p, Run(p, es).frames[k].contents)
    ensures var frame := Run(p, es).frames[k];
            var f := Encode(p, frame.seqNo, frame.contents);
            && 20 <= |f| <= Size(raw) && Get16(f, 10) + 8 + (i + 1) * 4 <= |f|
            && Get16(f, 10) % Alignment(raw) == 0
            && (EntryAt(f, Get16(f, 10) + 8, i).index + 14) % Divisor(raw) == Remainder(raw)
  {
    AdoptedFields(raw, maxPacket);
    FrameOnGrid(p, es, k, i, Remainder(raw));
    var frame := Run(p, es).frames[k];
    GridRead(p, frame.seqNo, frame.contents, i, Remainder(raw));
  }

  lemma {:induction false} FrameOnGrid(p: Params, es: seq<Event>, k: nat, i: nat, r: nat)
    requires Usable(p) && r < p.modulus && p.remainder == (r - ETH_HLEN) % p.modulus
    requires k < |Run(p, es).frames| && i < |Run(p, es).frames[k].contents.ds|
    ensures var frame := Run(p, es).frames[k];
            && Packed(p, frame.contents) && Sound(p, frame.contents) && frame.seqNo < 0x1_0000
            && |frame.contents.table| == |frame.contents.ds|
            && (frame.contents.table[i].index + ETH_HLEN) % p.modulus == r
  {
    RunFrames(p, es, k);
    RunLayout(p, es, k, i, r);
  }

  lemma {:induction false} GridRead(p: Params, seqNo: nat, b: Builder, i: nat, r: nat)
    requires Packed(p, b) && Sound(p, b) && i < |b.ds| && seqNo < 0x1_0000
    requires (b.table[i].index + ETH_HLEN) % p.modulus == r
    ensures var f := Encode(p, seqNo, b);
            && 20 <= |f| <= p.txMax && Get16(f, 10) + 8 + (i + 1) * 4 <= |f|
            && Get16(f, 10) % p.ndpModulus == 0
            && (EntryAt(f, Get16(f, 10) + 8, i).index + 14) % p.modulus == r
  {
    FieldsOfEncoded(p, seqNo, b);
    EntryRead(p, seqNo, b, i);
  }

  // ---------------------------------------------------------------- the receiver, on any bytes

  /** Number of entries of the table at fp without the last one. */
  function Entries(f: Bytes, fp: nat): nat
    requires fp + 8 <= |f| && Get16(f, fp + 4) >= 16
  {
    (Get16(f, fp + 4) - 8) / 4 - 1
  }

  /** A frame with both signatures and lengths that are possible. */
  predicate WellFormed(f: Bytes) {
    && 20 <= |f|
    && f[0..4] == [0x4E, 0x43, 0x4D, 0x48]
    && Get16(f, 8) <= 16384
    && var fp := Get16(f, 10);
       && fp + 8 <= |f|
       && f[fp..fp + 4] == [0x4E, 0x43, 0x4D, 0x30]
       && Get16(f, fp + 4) >= 16
       && fp + 8 + Entries(f, fp) * 4 <= |f|
  }

  /** An entry that points at 14 to 2048 bytes inside the frame. */
  predicate Deliverable(f: Bytes, e: Entry) {
    e.index != 0 && e.index + e.length <= |f| && 14 <= e.length <= 2048
  }

  lemma {:induction false} Signature(f: Bytes, at: nat)
    requires at + 4 <= |f|
    ensures Get32(f, at) == NTH_SIGN <==> f[at..at + 4] == [0x4E, 0x43, 0x4D, 0x48]
    ensures Get32(f, at) == NDP_SIGN <==> f[at..at + 4] == [0x4E, 0x43, 0x4D, 0x30]
  {
    var a, b, c, d := f[at], f[at + 1], f[at + 2], f[at + 3];
    assert f[at..at + 4] == [a, b, c, d];
    FourBytes(a, b, c, d);
  }

  lemma FourBytes(a: Byte, b: Byte, c: Byte, d: Byte)
    ensures a + 256 * b + 0x1_0000 * (c + 256 * d) == NTH_SIGN <==> [a, b, c, d] == [0x4E, 0x43, 0x4D, 0x48]
    ensures a + 256 * b + 0x1_0000 * (c + 256 * d) == NDP_SIGN <==> [a, b, c, d] == [0x4E, 0x43, 0x4D, 0x30]
  {
    assert [a, b, c, d][0] == a && [a, b, c, d][1] == b && [a, b, c, d][2] == c && [a, b, c, d][3] == d;
  }

  lemma {:induction false} HeadersExact(f: Bytes)
    ensures HeadersOk(f) <==> WellFormed(f)
    ensures WellFormed(f) ==> TableStart(f) == Get16(f, 10) + 8 && TableCount(f) == Entries(f, Get16(f, 10))
  {
    if 20 <= |f| {
      Signature(f, 0);
      if Get16(f, 10) + 8 <= |f| {
        Signature(f, Get16(f, 10));
      }
    }
  }

  /** Entry number k of the table points at the datagram d. */
  predicate Pointed(f: Bytes, table: nat, k: nat, d: Bytes)
    requires table + (k + 1) * 4 <= |f|
  {
    var e := EntryAt(f, table, k);
    Deliverable(f, e) && d == f[e.index..e.index + e.length]
  }

  predicate PointedFrom(f: Bytes, table: nat, x: nat, ds: seq<Bytes>, k: nat)
    requires x <= k < x + |ds| && table + (k + 1) * 4 <= |f|
  {
    Pointed(f, table, k, ds[k - x])
  }

  predicate Useless(f: Bytes, table: nat, k: nat)
    requires table + (k + 1) * 4 <= |f|
  {
    !Deliverable(f, EntryAt(f, table, k))
  }

  /** The datagrams ds are those of the entries from x on, up to the first of the n that points at none. */
  ghost predicate Leading(f: Bytes, table: nat, n: nat, x: nat, ds: seq<Bytes>)
    requires table + n * 4 <= |f|
  {
    && x + |ds| <= n
    && (forall k :: x <= k < x + |ds| ==> PointedFrom(f, table, x, ds, k))
    && (x + |ds| < n ==> Useless(f, table, x + |ds|))
  }

  lemma {:induction false} LeadingMore(f: Bytes, table: nat, n: nat, x: nat, d: Bytes, later: seq<Bytes>)
    requires x < n && table + n * 4 <= |f| && Pointed(f, table, x, d) && Leading(f, table, n, x + 1, later)
    ensures Leading(f, table, n, x, [d] + later)
  {
    var ds := [d] + later;
    assert x + |ds| == x + 1 + |later|;
    forall k | x <= k < x + |ds| ensures PointedFrom(f, table, x, ds, k) {
      if k > x {
        assert PointedFrom(f, table, x + 1, later, k);
        assert ds[k - x] == later[k - (x + 1)];
      }
    }
  }

  lemma {:induction false} DeliverMeaning(f: Bytes, table: nat, n: nat, x: nat)
    requires x <= n && table + n * 4 <= |f|
    ensures Leading(f, table, n, x, Deliver(f, table, n, x))
    decreases n - x
  {
    if x < n {
      var e := EntryAt(f, table, x);
      if EntryOk(f, e) {
        DeliverMeaning(f, table, n, x + 1);
        LeadingMore(f, table, n, x, f[e.index..e.index + e.length], Deliver(f, table, n, x + 1));
      } else {
        assert Deliver(f, table, n, x) == [] && Useless(f, table, x);
      }
    }
  }

  /** Any bytes at all: they are accepted exactly if they are well-formed and their first entry points at a
      datagram; what is delivered are then the datagrams of the entries in order, of at most 32, up to the
      first that points at none. */
  lemma {:induction false} ReceiverExact(f: Bytes)
    ensures Decode(f).Accepted? <==> WellFormed(f) && !Useless(f, Get16(f, 10) + 8, 0)
    ensures Decode(f).Accepted? ==>
              var n := if Entries(f, Get16(f, 10)) < 32 then Entries(f, Get16(f, 10)) else 32;
              Leading(f, Get16(f, 10) + 8, n, 0, Decode(f).datagrams)
  {
    HeadersExact(f);
    if WellFormed(f) {
      var table, n := TableStart(f), Min(TableCount(f), 32);
      DeliverMeaning(f, table, n, 0);
      DecodeTable(f, table, n);
    }
  }
}
