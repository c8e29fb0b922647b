/** What the transcoder makes of a template, field by field, in arithmetic on the bytes of the properties. */
module FcpFields {
  import opened Common
  import opened Bits
  import opened HexCodec
  import opened Fcp

  // ---------------------------------------------------------------- bits of the file descriptor byte

  /** The two high bits, the lower of them cleared. */
  lemma AndTwo(x: nat)
    ensures And(x, 2) == 2 * (x / 2 % 2)
  {
    AndEven(x, 1);
    AndLowMask(x / 2, 1);
  }

  /** Clearing bit 6. */
  lemma {:induction false} AndBF(x: nat)
    ensures And(x, 0xBF) == 64 * (2 * (x / 64 / 2 % 2)) + x % 64
  {
    AndTwoBits(x, 47);
    AndTwoBits(x / 4, 11);
    AndTwoBits(x / 16, 2);
    AndTwo(x / 64);
    Quarters(x);
  }

  /** Bits 7, 5 and 4. */
  lemma {:induction false} AndB0(x: nat)
    ensures And(x, 0xB0) == 16 * (4 * (2 * (x / 64 / 2 % 2)) + x / 16 % 4)
  {
    AndTwoBits(x, 44);
    AndTwoBits(x / 4, 11);
    AndTwoBits(x / 16, 2);
    AndTwo(x / 64);
    Quarters(x);
  }

  lemma Quarters(x: nat)
    ensures x / 4 / 4 == x / 16 && x / 16 / 4 == x / 64
    ensures x % 64 == 16 * (x / 16 % 4) + 4 * (x / 4 % 4) + x % 4
  {
  }

  lemma {:induction false} And07(x: nat)
    ensures And(x, 0x07) == x % 8
  {
    AndLowMask(x, 3);
    assert Pow2(3) == 8;
  }

  // ---------------------------------------------------------------- the meaning of a property

  predicate DirectoryFile(fd: Byte) {
    fd == 0x38 || fd == 0x78
  }

  predicate ElementaryFile(fd: Byte) {
    fd < 0x80 && fd / 16 % 4 == 0
  }

  /** The descriptors in error: too short, or of an elementary file that is neither transparent (1) nor,
      with its record length, linear fixed (2) or cyclic (6). */
  predicate WrongDescriptor(data: Bytes) {
    || |data| < 2
    || (ElementaryFile(data[0]) && data[0] % 8 != 1 && (|data| < 5 || (data[0] % 8 != 2 && data[0] % 8 != 6)))
  }

  function ErrorIn(p: Property): Option<Error> {
    if p.tag == 0x80 && |p.data| != 2 then Some(NotSupported)
    else if p.tag == 0x83 && |p.data| != 2 then Some(Invalid)
    else if p.tag == 0x82 && WrongDescriptor(p.data) then Some(Invalid)
    else None
  }

  /** The fields a descriptor sets, down to where it is found to be in error. */
  predicate DescriptorShown(r: Resp, data: Bytes) {
    if |data| < 2 || !ElementaryFile(data[0]) then
      && r.fileType == (if |data| >= 2 && DirectoryFile(data[0]) then 2 else 0)
      && r.fileStatus == 0 && r.dataSize == 0 && r.fileStructure == 0 && r.recordSize == 0
    else
      && r.fileType == 4 && r.fileStatus == 1
      && (if data[0] % 8 == 1 || |data| < 5 then
            r.dataSize == 1 && r.fileStructure == 0 && r.recordSize == 0
          else
            && r.dataSize == 2 && r.recordSize == data[3]
            && r.fileStructure == (if data[0] % 8 == 6 then 3 else if data[0] % 8 == 2 then 1 else 0))
  }

  predicate Pair(p: Property, tag: Byte) {
    p.tag == tag && |p.data| == 2
  }

  /** r shows size, identifier and descriptor of the properties ps, and zeros for those that are missing. */
  predicate Shown(r: Resp, ps: seq<Property>) {
    && (forall p :: p in ps && Pair(p, 0x80) ==> r.size == (p.data[0], p.data[1]))
    && (forall p :: p in ps && Pair(p, 0x83) ==> r.id == (p.data[0], p.data[1]))
    && (forall p :: p in ps && p.tag == 0x82 ==> DescriptorShown(r, p.data))
    && ((forall p :: p in ps ==> !Pair(p, 0x80)) ==> r.size == (0, 0))
    && ((forall p :: p in ps ==> !Pair(p, 0x83)) ==> r.id == (0, 0))
    && ((forall p :: p in ps ==> p.tag != 0x82) ==> DescriptorShown(r, []))
  }

  /** The properties looked at: up to the first in error, or all. */
  function Seen(ps: seq<Property>): (n: nat)
    ensures n <= |ps|
    ensures forall i :: 0 <= i < n - 1 ==> ErrorIn(ps[i]).None?
    ensures n < |ps| ==> n > 0 && ErrorIn(ps[n - 1]).Some?
  {
    if ps == [] then 0 else if ErrorIn(ps[0]).Some? then 1 else 1 + Seen(ps[1..])
  }

  lemma {:induction false} DescriptorExact(r: Resp, data: Bytes)
    requires DescriptorShown(r, [])
    ensures var (r', e) := ApplyDescriptor(r, data);
            && DescriptorShown(r', data) && r'.size == r.size && r'.id == r.id
            && e == if WrongDescriptor(data) then Some(Invalid) else None
  {
    if |data| >= 2 {
      AndBF(data[0]);
      AndB0(data[0]);
      And07(data[0]);
      DirectoryBits(data[0]);
    }
  }

  lemma DirectoryBits(fd: Byte)
    ensures 64 * (2 * (fd / 64 / 2 % 2)) + fd % 64 == 0x38 <==> DirectoryFile(fd)
    ensures 16 * (4 * (2 * (fd / 64 / 2 % 2)) + fd / 16 % 4) == 0 <==> ElementaryFile(fd)
    ensures !(DirectoryFile(fd) && ElementaryFile(fd))
  {
  }

  /** Which properties are in error, and with which error. */
  lemma {:induction false} ErrorExact(p: Property)
    ensures ErrorOf(p) == ErrorIn(p)
  {
    if p.tag == 0x82 {
      DescriptorExact(ZERO, p.data);
    }
  }

  lemma {:induction false} SeenToFirstBad(ps: seq<Property>)
    ensures Seen(ps) == if FirstBad(ps) == |ps| then |ps| else FirstBad(ps) + 1
  {
    if ps != [] {
      ErrorExact(ps[0]);
      SeenToFirstBad(ps[1..]);
    }
  }

  // ---------------------------------------------------------------- templates

  lemma {:induction false} FoldAppend(ps: seq<Property>, p: Property, r: Resp)
    requires Fold(ps, r).1.None?
    ensures Fold(ps + [p], r) == Apply(Fold(ps, r).0, p)
    decreases |ps|
  {
    if ps == [] {
      assert [] + [p] == [p] && [p][1..] == [];
    } else {
      assert (ps + [p])[0] == ps[0] && (ps + [p])[1..] == ps[1..] + [p];
      FoldAppend(ps[1..], p, Apply(r, ps[0]).0);
    }
  }

  /** One more property, with a tag that, if it is known, has not occurred. */
  lemma {:induction false} ShownMore(r: Resp, ps: seq<Property>, p: Property)
    requires Shown(r, ps) && (Known(p.tag) ==> forall q :: q in ps ==> q.tag != p.tag)
    ensures Shown(Apply(r, p).0, ps + [p])
  {
    var r' := Apply(r, p).0;
    assert p in ps + [p] && forall q :: q in ps ==> q in ps + [p];
    if p.tag == 0x82 {
      DescriptorExact(r, p.data);
    }
  }

  lemma {:induction false} FoldShown(ps: seq<Property>)
    requires KnownAtMostOnce(ps) && forall i :: 0 <= i < |ps| - 1 ==> Good(ps[i])
    ensures Shown(Fold(ps, ZERO).0, ps)
  {
    if ps != [] {
      var init, p := ps[..|ps| - 1], ps[|ps| - 1];
      FoldShown(init);
      FoldGood(init, ZERO);
      assert ps == init + [p];
      FoldAppend(init, p, ZERO);
      LastIsNew(ps);
      ShownMore(Fold(init, ZERO).0, init, p);
    }
  }

  lemma {:induction false} LastIsNew(ps: seq<Property>)
    requires ps != [] && KnownAtMostOnce(ps)
    ensures var p := ps[|ps| - 1]; Known(p.tag) ==> forall q :: q in ps[..|ps| - 1] ==> q.tag != p.tag
  {
    forall q | q in ps[..|ps| - 1] && Known(ps[|ps| - 1].tag) ensures q.tag != ps[|ps| - 1].tag {
      var i :| 0 <= i < |ps| - 1 && ps[i] == q;
    }
  }

  lemma {:induction false} OncePrefix(ps: seq<Property>, n: nat)
    requires n <= |ps| && KnownAtMostOnce(ps)
    ensures KnownAtMostOnce(ps[..n])
  {
  }

  /** Every template in which each known tag stands at most once: the answer shows the properties up to the
      first in error, if there is one, field by field; and the error is that of this one. */
  lemma {:induction false} TemplateFields(ps: seq<Property>, suffix: string)
    requires Encodable(ps) && |EncodeAll(ps)| < 256 && KnownAtMostOnce(ps)
    ensures var (r, e) := Transcode(EncodeTemplate(ps) + suffix);
            && r.Some? && Shown(r.value, ps[..Seen(ps)])
            && e == if Seen(ps) == 0 then None else ErrorIn(ps[Seen(ps) - 1])
  {
    TranscodeEncoded(ps, suffix);
    FoldFields(ps);
  }

  lemma {:induction false} FoldFields(ps: seq<Property>)
    requires KnownAtMostOnce(ps)
    ensures Shown(Fold(ps, ZERO).0, ps[..Seen(ps)])
    ensures Fold(ps, ZERO).1 == if Seen(ps) == 0 then None else ErrorIn(ps[Seen(ps) - 1])
  {
    SeenError(ps);
    OncePrefix(ps, Seen(ps));
    FoldShown(ps[..Seen(ps)]);
    FoldSeen(ps);
  }

  lemma {:induction false} SeenError(ps: seq<Property>)
    ensures Fold(ps, ZERO).1 == if Seen(ps) == 0 then None else ErrorIn(ps[Seen(ps) - 1])
    ensures forall i :: 0 <= i < Seen(ps) - 1 ==> Good(ps[i])
  {
    SeenToFirstBad(ps);
    FoldError(ps, ZERO);
    if FirstBad(ps) < |ps| {
      ErrorExact(ps[FirstBad(ps)]);
    } else if ps != [] {
      ErrorExact(ps[|ps| - 1]);
    }
  }

  /** What stands behind the first property in error is not looked at. */
  lemma {:induction false} FoldSeen(ps: seq<Property>)
    ensures Fold(ps[..Seen(ps)], ZERO) == Fold(ps, ZERO)
  {
    var k := FirstBad(ps);
    SeenToFirstBad(ps);
    FoldToFirstBad(ps, ZERO);
    if k < |ps| {
      assert ps[..k + 1] == ps[..k] + [ps[k]];
      FoldAppend(ps[..k], ps[k], ZERO);
    } else {
      assert ps[..k] == ps;
    }
  }

  // ---------------------------------------------------------------- streams that are no templates

  /** A stream is refused, and the answer left alone, exactly if it does not start with a whole TLV of the
      template's tag. */
  lemma {:induction false} NoTemplate(stream: string)
    ensures Transcode(stream).0.None? <==>
            || |stream| < 4 || ByteOf(stream[0], stream[1]) != 0x62
            || |stream| < 4 + 2 * ByteOf(stream[2], stream[3])
    ensures Transcode(stream).0.None? ==> Transcode(stream).1 == Some(Invalid)
  {
  }

  /** Bytes at the end of a template that are no whole TLV. */
  predicate Torn(b: Bytes) {
    |b| == 1 || (|b| > 1 && b[1] > |b| - 2)
  }

  /** A template that breaks off in a property is refused; the answer shows the properties in front. */
  lemma {:induction false} TornTemplate(stream: string, body: Bytes, ps: seq<Property>, torn: Bytes)
    requires |body| < 256 && stream == ToHex([TEMPLATE_TAG, |body|] + body)
    requires Encodable(ps) && KnownAtMostOnce(ps) && Torn(torn) && body == EncodeAll(ps) + torn
    requires forall i :: 0 <= i < |ps| ==> ErrorIn(ps[i]).None?
    ensures var (r, e) := Transcode(stream); r.Some? && Shown(r.value, ps) && e == Some(Invalid)
  {
    NothingWrong(ps);
    TornBody(stream, body, ps, torn);
  }

  lemma {:induction false} TornBody(stream: string, body: Bytes, ps: seq<Property>, torn: Bytes)
    requires |body| < 256 && stream == ToHex([TEMPLATE_TAG, |body|] + body)
    requires Encodable(ps) && Torn(torn) && body == EncodeAll(ps) + torn && Fold(ps, ZERO).1.None?
    ensures Transcode(stream) == (Some(Fold(ps, ZERO).0), Some(Invalid))
  {
    TornParses(stream, body, EncodeAll(ps), torn);
    TornHere(stream, 4 + 2 * |EncodeAll(ps)|, torn);
    WalkTorn(stream, 4, ps, 4 + 2 * |EncodeAll(ps)|, ZERO);
    TranscodeBody(stream, |stream|, (Fold(ps, ZERO).0, Some(Invalid)));
  }

  lemma {:induction false} TornParses(stream: string, body: Bytes, a: Bytes, torn: Bytes)
    requires |body| < 256 && stream == ToHex([TEMPLATE_TAG, |body|] + body) && body == a + torn
    ensures ParseTlv(stream, 0, |stream|) == Some(Tlv(TEMPLATE_TAG, 4, |stream|))
    ensures |stream| == 4 + 2 * |a| + 2 * |torn|
    ensures HoldsAt(stream, 4, ToHex(a)) && HoldsAt(stream, 4 + 2 * |a|, ToHex(torn))
  {
    TemplateParses(stream, body);
    HoldsBytes(stream, 4, a, torn);
  }

  lemma {:induction false} HoldsBytes(stream: string, at: nat, a: Bytes, b: Bytes)
    requires HoldsAt(stream, at, ToHex(a + b))
    ensures HoldsAt(stream, at, ToHex(a)) && HoldsAt(stream, at + 2 * |a|, ToHex(b))
  {
    ToHexConcat(a, b);
    HoldsParts(stream, at, ToHex(a), ToHex(b));
  }

  /** No whole TLV stands in stream[at..]. */
  predicate TornAt(stream: string, at: nat) {
    at < |stream| && (|stream| < at + 4 || |stream| < at + 4 + 2 * ByteOf(stream[at + 2], stream[at + 3]))
  }

  lemma WalkStops(stream: string, at: nat, r: Resp)
    requires TornAt(stream, at)
    ensures Walk(stream, at, |stream|, r) == (r, Some(Invalid))
  {
  }

  lemma {:induction false} WalkTorn(stream: string, at: nat, ps: seq<Property>, end: nat, r: Resp)
    requires Encodable(ps) && HoldsAt(stream, at, ToHex(EncodeAll(ps))) && Fold(ps, r).1.None?
    requires end == at + 2 * |EncodeAll(ps)| && TornAt(stream, end)
    ensures Walk(stream, at, |stream|, r) == (Fold(ps, r).0, Some(Invalid))
    decreases |ps|
  {
    if ps == [] {
      WalkStops(stream, at, r);
    } else {
      var next := at + 4 + 2 * |ps[0].data|;
      SplitFirst(stream, at, ps);
      WalkTurn(stream, at, |stream|, r, ps[0], next);
      FoldTurn(ps, r);
      WalkTorn(stream, next, ps[1..], end, Apply(r, ps[0]).0);
    }
  }

  lemma {:induction false} NothingWrong(ps: seq<Property>)
    requires KnownAtMostOnce(ps) && forall i :: 0 <= i < |ps| ==> ErrorIn(ps[i]).None?
    ensures Shown(Fold(ps, ZERO).0, ps) && Fold(ps, ZERO).1.None?
  {
    FoldFields(ps);
    assert Seen(ps) == |ps| && ps[..|ps|] == ps;
  }

  lemma {:induction false} TornHere(stream: string, at: nat, torn: Bytes)
    requires at + 2 * |torn| == |stream| && HoldsAt(stream, at, ToHex(torn)) && Torn(torn)
    ensures TornAt(stream, at)
  {
    if |torn| > 1 {
      ToHexAt(torn, 1);
      assert stream[at + 2] == stream[at..at + 2 * |torn|][2] && stream[at + 3] == stream[at..at + 2 * |torn|][3];
      assert ByteOf(stream[at + 2], stream[at + 3]) == torn[1];
    }
  }
}
