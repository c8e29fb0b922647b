/** What holds of the NCM parameters and of a single frame: layout, and decode after encode. */
module NcmProofs {
  import opened Common
  import opened Bits
  import opened NcmSpec

  // ---------------------------------------------------------------- parameters

  /** Moduli of at most 512 leave room for the headers in every validated transmit buffer. */
  lemma {:induction false} SmallModuliUsable(p: Params)
    requires Validated(p) && p.modulus <= 512 && p.ndpModulus <= 512
    ensures Usable(p)
  {
    var k: nat :| p.ndpModulus == Pow2(k);
    if p.ndpModulus < 512 {
      assert FpIndex(p) <= 12 + 511;
    }
    var j: nat :| p.modulus == Pow2(j);
    FirstOffsetSmall(p, k, j);
  }

  /** Validation alone does not leave room for the headers: with both moduli at 8192 the first datagram
      would start behind the largest transmit buffer. */
  lemma {:induction false} ValidatedNotUsable(p: Params)
    requires p == Params(NTB_MAX, 8192, 8192, 1, p.maxPacket) && p.maxPacket > 0
    ensures Validated(p) && FirstOffset(p) == p.txMax + 1 && !Usable(p)
  {
    assert Pow2(13) == 8192 by {
      assert Pow2(5) == 32;
      assert Pow2(9) == 512;
    }
    RoundUpByDivision(NTH_SIZE, 8192);
    RoundUpByDivision(HeaderEnd(p), 8192);
  }

  /** The reason: a multiple of a smaller power of two that lies just above 12 is at most 512, and one
      just above 652 is at most 1024. */
  lemma {:induction false} FirstOffsetSmall(p: Params, k: nat, j: nat)
    requires p.ndpModulus == Pow2(k) && p.modulus == Pow2(j)
    requires p.modulus <= 512 && p.ndpModulus <= 512 && p.remainder < p.modulus
    ensures FirstOffset(p) <= 1536
  {
    if k > 9 {
      Pow2Monotone(10, k);
    }
    if j > 9 {
      Pow2Monotone(10, j);
    }
    RoundUpToMultiple(NTH_SIZE, 512, k, 9);
    RoundUpToMultiple(HeaderEnd(p), 1024, j, 10);
  }

  lemma {:induction false} RoundUpToMultiple(x: nat, top: nat, k: nat, n: nat)
    requires k <= n && top == Pow2(n) && x <= top
    ensures RoundUp(x, Pow2(k)) <= top
  {
    var a := Pow2(k);
    Pow2Divides(k, n);
    var q :| top == a * q;
    RoundUpIsMultiple(x, a);
    var t: nat :| RoundUp(x, a) == a * t;
    if RoundUp(x, a) > top {
      assert a * (t - q) == RoundUp(x, a) - top;
      MultipleGap(a, t - q);
    }
  }

  lemma MultipleGap(a: int, t: int)
    requires a > 0 && a * t > 0
    ensures a * t >= a
  {
  }

  lemma {:induction false} Pow2Divides(k: nat, n: nat)
    requires k <= n
    ensures exists q: nat :: Pow2(n) == Pow2(k) * q
    decreases n
  {
    if k == n {
      assert Pow2(n) == Pow2(k) * 1;
    } else {
      Pow2Divides(k, n - 1);
      var q: nat :| Pow2(n - 1) == Pow2(k) * q;
      assert Pow2(n) == Pow2(k) * (2 * q);
    }
  }

  // ---------------------------------------------------------------- layout

  /** The adjusted remainder stems from the payload remainder r. */
  ghost predicate GridOf(p: Params, r: nat) {
    0 < p.modulus && Leaves(p.remainder + ETH_HLEN, p.modulus, r)
  }

  /** In terms of the adjustment made at set-up. */
  lemma {:induction false} GridOfAdjusted(p: Params, r: nat)
    requires r < p.modulus && p.remainder == (r - ETH_HLEN) % p.modulus
    ensures GridOf(p, r)
  {
    var m := p.modulus;
    var q := (r - ETH_HLEN) / m;
    assert r - ETH_HLEN == m * q + p.remainder;
    GridPoint(m, q, r, p.remainder + ETH_HLEN);
    LeavesRemainder(p.remainder + ETH_HLEN, m, r);
  }

  /** Every remainder in range stems from some payload remainder. */
  lemma {:induction false} GridExists(p: Params) returns (r: nat)
    requires 0 < p.modulus
    ensures GridOf(p, r)
  {
    r := (p.remainder + ETH_HLEN) % p.modulus;
    LeavesRemainder(p.remainder + ETH_HLEN, p.modulus, r);
  }

  /** Index x plus the Ethernet header length leaves the payload remainder r. */
  ghost predicate OnGrid(p: Params, x: nat, r: nat)
    requires p.modulus > 0
  {
    Leaves(x + ETH_HLEN, p.modulus, r)
  }

  /** The datagrams are in the image where the table says, behind the header region and one
      behind the other, each on the grid of the payload remainder r. */
  ghost predicate Placed(p: Params, b: Builder, r: nat)
    requires p.modulus > 0 && p.ndpModulus > 0
  {
    && Bounded(p, b)
    && OnGrid(p, b.offset, r)
    && forall i :: 0 <= i < |b.ds| ==> PlacedAt(p, b, i, r)
  }

  ghost predicate PlacedAt(p: Params, b: Builder, i: nat, r: nat)
    requires p.modulus > 0 && p.ndpModulus > 0 && i < |b.ds| == |b.table|
  {
    var e := b.table[i];
    && e.length == |b.ds[i]|
    && FirstOffset(p) <= e.index && OnGrid(p, e.index, r)
    && e.index + e.length <= (if i + 1 < |b.table| then b.table[i + 1].index else b.last)
    && b.last <= |b.image| && e.index + e.length <= b.last
    && b.image[e.index..e.index + e.length] == b.ds[i]
  }

  lemma {:induction false} StartPlaced(p: Params, r: nat)
    requires Usable(p) && GridOf(p, r)
    ensures Placed(p, Start(p), r)
  {
    StartBounded(p);
    AlignedRemainder(p, HeaderEnd(p), r);
  }

  lemma {:induction false} AddPlaced(p: Params, b: Builder, d: Bytes, r: nat)
    requires Usable(p) && GridOf(p, r)
    requires Placed(p, b, r) && |b.ds| < MAX_DATAGRAMS && b.offset + |d| <= p.txMax
    ensures Placed(p, Add(p, b, d), r)
  {
    AddBounded(p, b, d);
    AlignedRemainder(p, b.offset + |d|, r);
    assert OnGrid(p, Add(p, b, d).offset, r);
    forall i | 0 <= i < |b.ds| + 1 ensures PlacedAt(p, Add(p, b, d), i, r) {
      if i < |b.ds| {
        AddKeeps(p, b, d, i, r);
      } else {
        AddPlaces(p, b, d, r);
      }
    }
  }

  lemma {:induction false} AddKeeps(p: Params, b: Builder, d: Bytes, i: nat, r: nat)
    requires p.modulus > 0 && p.ndpModulus > 0 && Bounded(p, b) && b.offset + |d| <= p.txMax
    requires i < |b.ds| && PlacedAt(p, b, i, r)
    ensures PlacedAt(p, Add(p, b, d), i, r)
  {
    var e, image := b.table[i], Add(p, b, d).image;
    assert b.image <= image;
    assert image[e.index..e.index + e.length] == b.image[e.index..e.index + e.length];
  }

  lemma {:induction false} AddPlaces(p: Params, b: Builder, d: Bytes, r: nat)
    requires p.modulus > 0 && p.ndpModulus > 0 && Bounded(p, b) && b.offset + |d| <= p.txMax
    requires FirstOffset(p) <= b.offset && OnGrid(p, b.offset, r)
    ensures PlacedAt(p, Add(p, b, d), |b.ds|, r)
  {
    assert Add(p, b, d).image[b.offset..b.offset + |d|] == d;
  }

  /** Rounding up and adding the adjusted remainder leaves the payload remainder. */
  lemma {:induction false} AlignedRemainder(p: Params, x: nat, r: nat)
    requires p.modulus > 0 && GridOf(p, r)
    ensures OnGrid(p, Aligned(p, x), r)
  {
    var m, z := p.modulus, p.remainder + ETH_HLEN;
    RoundUpIsMultiple(x, m);
    var u: nat :| RoundUp(x, m) == m * u;
    LeavesRemainder(z, m, r);
    Shifted(m, u, z);
    LeavesRemainder(m * u + z, m, r);
  }

  lemma {:induction false} Shifted(m: nat, u: nat, z: nat)
    requires m > 0
    ensures (m * u + z) % m == z % m
  {
    var q := z / m;
    assert z == m * q + z % m;
    assert m * (u + q) == m * u + m * q;
    ModUnique(m * u + z, m, u + q, z % m);
  }

  lemma {:induction false} GridPoint(m: nat, q: int, r: nat, y: nat)
    requires r < m && y == r - m * q
    ensures y % m == r
  {
    assert m * (-q) == -(m * q);
    ModUnique(y, m, -q, r);
  }

  /** No two datagrams of a frame overlap, and all lie inside it. */
  lemma {:induction false} Disjoint(p: Params, b: Builder, i: nat, j: nat, r: nat)
    requires Packed(p, b) && Placed(p, b, r) && i < j < |b.ds|
    ensures HeaderEnd(p) <= FirstOffset(p) <= b.table[i].index
    ensures b.table[i].index + |b.ds[i]| <= b.table[j].index
    ensures b.table[j].index + |b.ds[j]| <= FrameLength(p, b.last) <= p.txMax <= NTB_MAX
    decreases j
  {
    assert PlacedAt(p, b, i, r) && PlacedAt(p, b, j, r);
    if i + 1 < j {
      Disjoint(p, b, i, j - 1, r);
      assert PlacedAt(p, b, j - 1, r);
    }
  }

  // ---------------------------------------------------------------- round trip

  predicate DatagramOk(d: Bytes) {
    ETH_HLEN <= |d| <= MAX_DATAGRAM
  }

  /** The leading datagrams a receiver accepts. */
  function AcceptedPrefix(ds: seq<Bytes>): seq<Bytes> {
    if ds == [] || !DatagramOk(ds[0]) then [] else [ds[0]] + AcceptedPrefix(ds[1..])
  }

  lemma {:induction false} GetLe16(b: Bytes, at: nat, v: nat)
    requires at + 2 <= |b| && v < 0x1_0000
    requires b[at..at + 2] == Le16(v)
    ensures Get16(b, at) == v
  {
    assert b[at] == b[at..at + 2][0] && b[at + 1] == b[at..at + 2][1];
  }

  lemma {:induction false} GetLe32(b: Bytes, at: nat, v: nat)
    requires at + 4 <= |b| && v < WORD
    requires b[at..at + 4] == Le32(v)
    ensures Get32(b, at) == v
  {
    assert b[at..at + 2] == b[at..at + 4][..2] == Le16(v % 0x1_0000);
    assert b[at + 2..at + 4] == b[at..at + 4][2..] == Le16(v / 0x1_0000 % 0x1_0000);
    GetLe16(b, at, v % 0x1_0000);
    GetLe16(b, at + 2, v / 0x1_0000);
  }

  lemma {:induction false} TableEntry(es: seq<Entry>, x: nat)
    requires x < |es|
    ensures DpeTable(es)[x * DPE_SIZE..(x + 1) * DPE_SIZE] == Dpe16(es[x])
    decreases |es|
  {
    if x < |es| - 1 {
      TableEntry(es[..|es| - 1], x);
    }
  }

  /** Where the parts of the header stand in an encoded frame. */
  lemma {:induction false} HeaderParts(p: Params, seqNo: nat, b: Builder)
    requires Packed(p, b)
    ensures var f, fp, t := Encode(p, seqNo, b), FpIndex(p), FpIndex(p) + NDP_SIZE;
            && t + (|b.ds| + 1) * DPE_SIZE <= HeaderEnd(p) <= |f|
            && f[..NTH_SIZE] == Nth16(seqNo, |f|, fp)
            && f[fp..t] == Ndp16(|b.ds|)
            && f[t..t + (|b.ds| + 1) * DPE_SIZE] == DpeTable(b.table + [Entry(0, 0)])
  {
    var h := Header(p, seqNo, b.table, FrameLength(p, b.last));
    var f := Encode(p, seqNo, b);
    assert f[..|h|] == h;
    assert f[..NTH_SIZE] == h[..NTH_SIZE];
    assert f[FpIndex(p)..FpIndex(p) + NDP_SIZE] == h[FpIndex(p)..FpIndex(p) + NDP_SIZE];
    assert f[FpIndex(p) + NDP_SIZE..|h|] == h[FpIndex(p) + NDP_SIZE..];
  }

  /** The header of an encoded frame reads back. */
  lemma {:induction false} HeaderReadsBack(p: Params, seqNo: nat, b: Builder)
    requires Packed(p, b)
    ensures var f := Encode(p, seqNo, b);
            && HeadersOk(f) && TableStart(f) == FpIndex(p) + NDP_SIZE && TableCount(f) == |b.ds|
  {
    var f := Encode(p, seqNo, b);
    HeaderParts(p, seqNo, b);
    NthReadsBack(f, seqNo, |f|, FpIndex(p));
    NdpReadsBack(f, FpIndex(p), |b.ds|);
  }

  lemma {:induction false} NthReadsBack(f: Bytes, seqNo: nat, len: nat, fp: nat)
    requires NTH_SIZE <= |f| && f[..NTH_SIZE] == Nth16(seqNo, len, fp)
    requires len < 0x1_0000 && fp < 0x1_0000
    ensures Get32(f, 0) == NTH_SIGN && Get16(f, 8) == len && Get16(f, 10) == fp
  {
    var h := f[..NTH_SIZE];
    assert f[0..4] == h[0..4] == Le32(NTH_SIGN);
    GetLe32(f, 0, NTH_SIGN);
    assert f[8..10] == h[8..10] == Le16(len);
    GetLe16(f, 8, len);
    assert f[10..12] == h[10..12] == Le16(fp);
    GetLe16(f, 10, fp);
  }

  lemma {:induction false} NdpReadsBack(f: Bytes, fp: nat, n: nat)
    requires fp + NDP_SIZE <= |f| && f[fp..fp + NDP_SIZE] == Ndp16(n) && n <= MAX_DATAGRAMS
    ensures Get32(f, fp) == NDP_SIGN
    ensures Get16(f, fp + 4) == NDP_SIZE + (n + 1) * DPE_SIZE
  {
    SliceOfSlice(f, fp, fp + NDP_SIZE, 0, 4);
    assert f[fp..fp + 4] == Le32(NDP_SIGN);
    GetLe32(f, fp, NDP_SIGN);
    SliceOfSlice(f, fp, fp + NDP_SIZE, 4, 6);
    assert f[fp + 4..fp + 6] == Le16(NDP_SIZE + (n + 1) * DPE_SIZE);
    GetLe16(f, fp + 4, NDP_SIZE + (n + 1) * DPE_SIZE);
  }

  lemma {:induction false} TableReadsBack(f: Bytes, t: nat, es: seq<Entry>, x: nat)
    requires t + |es| * DPE_SIZE <= |f| && f[t..t + |es| * DPE_SIZE] == DpeTable(es)
    requires x < |es| && es[x].index < 0x1_0000 && es[x].length < 0x1_0000
    ensures EntryAt(f, t, x) == es[x]
  {
    TableEntry(es, x);
    var at := t + x * DPE_SIZE;
    SliceOfSlice(f, t, t + |es| * DPE_SIZE, x * DPE_SIZE, (x + 1) * DPE_SIZE);
    assert f[at..at + DPE_SIZE] == Dpe16(es[x]);
    assert f[at..at + 2] == f[at..at + DPE_SIZE][..2] == Le16(es[x].index);
    assert f[at + 2..at + 4] == f[at..at + DPE_SIZE][2..] == Le16(es[x].length);
    GetLe16(f, at, es[x].index);
    GetLe16(f, at + 2, es[x].length);
  }

  /** Each table entry of an encoded frame points at its datagram. */
  lemma {:induction false} EntryReadsBack(p: Params, seqNo: nat, b: Builder, i: nat, r: nat)
    requires Packed(p, b) && Placed(p, b, r) && i < |b.ds|
    ensures FpIndex(p) + NDP_SIZE + |b.ds| * DPE_SIZE <= |Encode(p, seqNo, b)|
    ensures var f := Encode(p, seqNo, b);
            var e := EntryAt(f, FpIndex(p) + NDP_SIZE, i);
            e.length == |b.ds[i]| && StandsAt(b.ds[i], f, e.index)
  {
    HeaderParts(p, seqNo, b);
    DatagramStands(p, seqNo, b, i, r);
    TableReadsBack(Encode(p, seqNo, b), FpIndex(p) + NDP_SIZE, b.table + [Entry(0, 0)], i);
  }

  lemma {:induction false} DatagramStands(p: Params, seqNo: nat, b: Builder, i: nat, r: nat)
    requires Packed(p, b) && Placed(p, b, r) && i < |b.ds|
    ensures b.table[i].index < 0x1_0000 && b.table[i].length == |b.ds[i]| < 0x1_0000
    ensures StandsAt(b.ds[i], Encode(p, seqNo, b), b.table[i].index)
  {
    var len := FrameLength(p, b.last);
    var h, im := Header(p, seqNo, b.table, len), b.image[..b.last];
    var a, d := b.table[i].index, b.ds[i];
    assert PlacedAt(p, b, i, r);
    SliceOfTake(b.image, b.last, a, a + |d|);
    assert |h| <= a && im[a..a + |d|] == d;
    OverlaySlice(h, im, len - b.last, a, d);
  }

  lemma OverlaySlice(h: Bytes, im: Bytes, pad: nat, a: nat, d: Bytes)
    requires 0 < |h| <= a && a + |d| <= |im| && im[a..a + |d|] == d
    ensures StandsAt(d, h + (im + Zeros(pad))[|h|..], a)
  {
    var tail := (im + Zeros(pad))[|h|..];
    assert (h + tail)[a..a + |d|] == tail[a - |h|..a + |d| - |h|] == im[a..a + |d|];
  }

  /** A table whose entries point at `ds` delivers the acceptable ones in front. */
  lemma {:induction false} DeliverPointed(f: Bytes, table: nat, ds: seq<Bytes>, x: nat)
    requires x <= |ds| && table + |ds| * DPE_SIZE <= |f|
    requires forall i :: 0 <= i < |ds| ==>
               EntryAt(f, table, i).length == |ds[i]| && StandsAt(ds[i], f, EntryAt(f, table, i).index)
    ensures Deliver(f, table, |ds|, x) == AcceptedPrefix(ds[x..])
    decreases |ds| - x
  {
    if x < |ds| {
      DeliverPointed(f, table, ds, x + 1);
      assert ds[x..][1..] == ds[x + 1..];
    }
  }

  /** Decoding an encoded frame delivers exactly the leading acceptable datagrams, byte for byte. */
  lemma {:induction false} DecodeEncode(p: Params, seqNo: nat, b: Builder, r: nat)
    requires Packed(p, b) && Placed(p, b, r)
    ensures Decode(Encode(p, seqNo, b))
         == if DatagramOk(b.ds[0]) then Accepted(AcceptedPrefix(b.ds)) else Rejected
  {
    HeaderReadsBack(p, seqNo, b);
    var f, table := Encode(p, seqNo, b), FpIndex(p) + NDP_SIZE;
    HeaderParts(p, seqNo, b);
    forall i | 0 <= i < |b.ds|
      ensures EntryAt(f, table, i).length == |b.ds[i]| && StandsAt(b.ds[i], f, EntryAt(f, table, i).index)
    {
      EntryReadsBack(p, seqNo, b, i, r);
    }
    DeliverPointed(f, table, b.ds, 0);
    assert b.ds[0..] == b.ds;
  }

  /** The round trip holds exactly when every datagram has an acceptable length. */
  lemma {:induction false} RoundTrip(p: Params, seqNo: nat, b: Builder, r: nat)
    requires Packed(p, b) && Placed(p, b, r)
    ensures Decode(Encode(p, seqNo, b)) == Accepted(b.ds) <==> forall d :: d in b.ds ==> DatagramOk(d)
  {
    DecodeEncode(p, seqNo, b, r);
    AcceptedPrefixWhole(b.ds);
  }

  lemma {:induction false} AcceptedPrefixWhole(ds: seq<Bytes>)
    ensures AcceptedPrefix(ds) == ds <==> forall d :: d in ds ==> DatagramOk(d)
  {
    if ds != [] {
      AcceptedPrefixWhole(ds[1..]);
      assert ds == [ds[0]] + ds[1..];
      if DatagramOk(ds[0]) && AcceptedPrefix(ds) == ds {
        assert AcceptedPrefix(ds)[1..] == AcceptedPrefix(ds[1..]);
      }
    }
  }

  predicate StandsAt(d: Bytes, f: Bytes, a: nat) {
    0 < a && a + |d| <= |f| && f[a..a + |d|] == d
  }

  /** The receiver, on any bytes at all: what it delivers lies inside the frame it was given, is 14 to
      2048 bytes long, and there are at most 32 of them. */
  lemma {:induction false} DecodeSafe(f: Bytes)
    ensures Decode(f).Accepted? ==>
              && 1 <= |Decode(f).datagrams| <= MAX_DATAGRAMS
              && forall d :: d in Decode(f).datagrams ==>
                   DatagramOk(d) && exists a: nat :: StandsAt(d, f, a)
  {
    if HeadersOk(f) {
      DeliverSafe(f, TableStart(f), Min(TableCount(f), MAX_DATAGRAMS), 0);
    }
  }

  lemma {:induction false} DeliverSafe(f: Bytes, table: nat, n: nat, x: nat)
    requires x <= n && table + n * DPE_SIZE <= |f|
    ensures |Deliver(f, table, n, x)| <= n - x
    ensures forall d :: d in Deliver(f, table, n, x) ==>
              DatagramOk(d) && exists a: nat :: StandsAt(d, f, a)
    decreases n - x
  {
    if x < n && EntryOk(f, EntryAt(f, table, x)) {
      DeliverSafe(f, table, n, x + 1);
      var e := EntryAt(f, table, x);
      var d := f[e.index..e.index + e.length];
      assert StandsAt(d, f, e.index);
    }
  }
}
