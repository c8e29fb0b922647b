/**
 Transcoding of a file control parameters template (ETSI TS 102 221, section 11.1.1.3) into the answer
 format of 3GPP TS 51.011, section 9.2.1.
 */
module Fcp {
  import opened Common
  import opened Bits
  import opened HexCodec

  const TEMPLATE_TAG: nat := 0x62
  const FILE_SIZE: nat := 0x80
  const FILE_DESCRIPTOR: nat := 0x82
  const FILE_ID: nat := 0x83

  datatype Error = Invalid | NotSupported

  /** The fields the transcoder sets. */
  datatype Resp = Resp(
    size: (Byte, Byte), id: (Byte, Byte), fileType: Byte, fileStatus: Byte, dataSize: Byte,
    fileStructure: Byte, recordSize: Byte)

  const ZERO: Resp := Resp((0, 0), (0, 0), 0, 0, 0, 0, 0)

  datatype Property = Property(tag: Byte, data: Bytes)

  function Increment(b: Byte): Byte {
    (b + 1) % 256
  }

  // ---------------------------------------------------------------- one property

  /** A file descriptor property, section 11.1.1.4.3. */
  function ApplyDescriptor(r: Resp, data: Bytes): (Resp, Option<Error>) {
    if |data| < 2 then (r, Some(Invalid))
    else
      var fd := data[0];
      if And(fd, 0xBF) == 0x38 then (r.(fileType := 2), None)
      else if And(fd, 0xB0) == 0x00 then
        var r1 := r.(fileType := 4, fileStatus := 1, dataSize := Increment(r.dataSize));
        if And(fd, 0x07) == 0x01 then (r1.(fileStructure := 0), None)
        else if |data| < 5 then (r1, Some(Invalid))
        else
          var r2 := r1.(dataSize := Increment(r1.dataSize), recordSize := data[3]);
          if And(fd, 0x07) == 0x06 then (r2.(fileStructure := 3), None)
          else if And(fd, 0x07) == 0x02 then (r2.(fileStructure := 1), None)
          else (r2, Some(Invalid))
      else (r.(fileType := 0), None)
  }

  function Apply(r: Resp, p: Property): (Resp, Option<Error>) {
    if p.tag == FILE_SIZE then
      if |p.data| != 2 then (r, Some(NotSupported)) else (r.(size := (p.data[0], p.data[1])), None)
    else if p.tag == FILE_ID then
      if |p.data| != 2 then (r, Some(Invalid)) else (r.(id := (p.data[0], p.data[1])), None)
    else if p.tag == FILE_DESCRIPTOR then ApplyDescriptor(r, p.data)
    else (r, None)
  }

  /** The reference: one property after the other, up to the first that is in error. */
  function Fold(ps: seq<Property>, r: Resp): (Resp, Option<Error>) {
    if ps == [] then (r, None)
    else
      var (r', e) := Apply(r, ps[0]);
      if e.Some? then (r', e) else Fold(ps[1..], r')
  }

  // ---------------------------------------------------------------- the transcoder

  /** The properties in stream[at..]; the template ends at `templateEnd`, but a property may reach up to
      the end of the stream. */
  function Walk(stream: string, at: nat, templateEnd: nat, r: Resp): (Resp, Option<Error>)
    requires at <= |stream| && templateEnd <= |stream|
    decreases |stream| - at
  {
    if at >= templateEnd then (r, None)
    else
      var t := ParseTlv(stream, at, |stream|);
      if t.None? then (r, Some(Invalid))
      else
        var (r', e) := Apply(r, PropertyOf(stream, t.value));
        if e.Some? then (r', e) else Walk(stream, t.value.end, templateEnd, r')
  }

  function PropertyOf(stream: string, t: Tlv): Property
    requires t.tag < 256 && t.data <= t.end <= |stream|
  {
    Property(t.tag, FromHex(stream[t.data..t.data + (t.end - t.data) / 2 * 2]))
  }

  /** The answer, unless the template itself is in error (the answer is then left alone). */
  function Transcode(stream: string): (Option<Resp>, Option<Error>) {
    var t := ParseTlv(stream, 0, |stream|);
    if t.None? || t.value.tag != TEMPLATE_TAG then (None, Some(Invalid))
    else
      var (r, e) := Walk(stream, t.value.data, t.value.end, ZERO);
      (Some(r), e)
  }

  // ---------------------------------------------------------------- encoding

  function EncodeProperty(p: Property): (b: Bytes)
    requires |p.data| < 256
  {
    [p.tag, |p.data|] + p.data
  }

  predicate Encodable(ps: seq<Property>) {
    forall i :: 0 <= i < |ps| ==> |ps[i].data| < 256
  }

  function EncodeAll(ps: seq<Property>): Bytes
    requires Encodable(ps)
  {
    if ps == [] then [] else EncodeProperty(ps[0]) + EncodeAll(ps[1..])
  }

  /** A template that holds the properties. */
  function EncodeTemplate(ps: seq<Property>): string
    requires Encodable(ps) && |EncodeAll(ps)| < 256
  {
    ToHex([TEMPLATE_TAG, |EncodeAll(ps)|] + EncodeAll(ps))
  }

  lemma {:induction false} ToHexConcat(a: Bytes, b: Bytes)
    ensures ToHex(a + b) == ToHex(a) + ToHex(b)
  {
    if a == [] {
      assert a + b == b && ToHex(a) + ToHex(b) == ToHex(b);
    } else {
      var x, rest := a[0], a[1..];
      ToHexConcat(rest, b);
      assert a == [x] + rest;
      Assoc([x], rest, b);
      ToHexCons(x, rest, HexOf(x));
      ToHexCons(x, rest + b, HexOf(x));
      Assoc(HexOf(x), ToHex(rest), ToHex(b));
    }
  }

  lemma ToHexCons(x: Byte, b: Bytes, h: string)
    requires h == HexOf(x)
    ensures ToHex([x] + b) == h + ToHex(b)
  {
    assert ([x] + b)[1..] == b;
  }

  /** The digits of a TLV: tag, length, data. */
  lemma {:induction false} TlvDigits(tag: Byte, data: Bytes)
    requires |data| < 256
    ensures ToHex([tag, |data|] + data) == HexOf(tag) + HexOf(|data|) + ToHex(data)
  {
    ToHexConcat([tag, |data|], data);
    assert [tag, |data|] == [tag] + [|data|];
    ToHexConcat([tag], [|data|]);
    ToHexOne(tag);
    ToHexOne(|data|);
  }

  lemma ToHexOne(b: Byte)
    ensures ToHex([b]) == HexOf(b)
  {
    assert [b][1..] == [];
    assert HexOf(b) + "" == HexOf(b);
  }

  /** The stream holds `part` at index at. */
  predicate HoldsAt(stream: string, at: nat, part: string) {
    at + |part| <= |stream| && stream[at..at + |part|] == part
  }

  lemma {:induction false} HoldsParts(stream: string, at: nat, a: string, b: string)
    requires HoldsAt(stream, at, a + b)
    ensures HoldsAt(stream, at, a) && HoldsAt(stream, at + |a|, b)
  {
    SliceOfSlice(stream, at, at + |a + b|, 0, |a|);
    SliceOfSlice(stream, at, at + |a + b|, |a|, |a + b|);
    assert (a + b)[0..|a|] == a && (a + b)[|a|..|a + b|] == b;
  }

  /** A TLV written at `at` reads back. */
  lemma {:induction false} ParseEncoded(stream: string, at: nat, tag: Byte, data: Bytes)
    requires |data| < 256 && HoldsAt(stream, at, HexOf(tag) + HexOf(|data|) + ToHex(data))
    ensures ParseTlv(stream, at, |stream|) == Some(Tlv(tag, at + 4, at + 4 + 2 * |data|))
    ensures HoldsAt(stream, at + 4, ToHex(data))
  {
    var a, b, c := HexOf(tag), HexOf(|data|), ToHex(data);
    HoldsParts(stream, at, a + b, c);
    HoldsParts(stream, at, a, b);
    DigitsAt(stream, at, tag);
    DigitsAt(stream, at + 2, |data|);
    ParseBytes(stream, at, tag, |data|);
  }

  lemma ParseBytes(stream: string, at: nat, tag: Byte, size: Byte)
    requires at + 4 + 2 * size <= |stream|
    requires ByteOf(stream[at], stream[at + 1]) == tag && ByteOf(stream[at + 2], stream[at + 3]) == size
    ensures ParseTlv(stream, at, |stream|) == Some(Tlv(tag, at + 4, at + 4 + 2 * size))
  {
  }

  lemma DigitsAt(stream: string, at: nat, b: Byte)
    requires HoldsAt(stream, at, HexOf(b))
    ensures ByteOf(stream[at], stream[at + 1]) == b
  {
    assert stream[at] == stream[at..at + 2][0] && stream[at + 1] == stream[at..at + 2][1];
  }

  lemma {:induction false} PropertyEncoded(stream: string, at: nat, p: Property)
    requires |p.data| < 256 && HoldsAt(stream, at, ToHex(p.data))
    ensures PropertyOf(stream, Tlv(p.tag, at, at + 2 * |p.data|)) == p
  {
    BytesRoundTrip(p.data);
  }

  /** The first property in stream[at..] is p, and it ends at `next`. */
  predicate StartsWith(stream: string, at: nat, p: Property, next: nat)
    requires at <= |stream|
  {
    var t := ParseTlv(stream, at, |stream|);
    t.Some? && t.value.end == next && PropertyOf(stream, t.value) == p
  }

  lemma {:induction false} FirstEncoded(stream: string, at: nat, p: Property)
    requires |p.data| < 256
    requires HoldsAt(stream, at, HexOf(p.tag) + HexOf(|p.data|) + ToHex(p.data))
    ensures StartsWith(stream, at, p, at + 4 + 2 * |p.data|)
  {
    ParseEncoded(stream, at, p.tag, p.data);
    PropertyEncoded(stream, at + 4, p);
  }

  /** One turn of the loop. */
  lemma {:induction false} WalkTurn(stream: string, at: nat, templateEnd: nat, r: Resp, p: Property, next: nat)
    requires at < templateEnd <= |stream| && StartsWith(stream, at, p, next)
    ensures next <= |stream|
    ensures Walk(stream, at, templateEnd, r) ==
            if Apply(r, p).1.Some? then Apply(r, p) else Walk(stream, next, templateEnd, Apply(r, p).0)
  {
  }

  lemma {:induction false} FirstDigits(ps: seq<Property>)
    requires Encodable(ps) && ps != []
    ensures var p := ps[0];
            && |EncodeAll(ps)| == 2 + |p.data| + |EncodeAll(ps[1..])|
            && ToHex(EncodeAll(ps)) ==
               (HexOf(p.tag) + HexOf(|p.data|) + ToHex(p.data)) + ToHex(EncodeAll(ps[1..]))
  {
    ToHexConcat(EncodeProperty(ps[0]), EncodeAll(ps[1..]));
    TlvDigits(ps[0].tag, ps[0].data);
  }

  /** The digits of the first property, and those of the others. */
  lemma {:induction false} SplitFirst(stream: string, at: nat, ps: seq<Property>)
    requires Encodable(ps) && ps != [] && HoldsAt(stream, at, ToHex(EncodeAll(ps)))
    ensures var p := ps[0];
            && StartsWith(stream, at, p, at + 4 + 2 * |p.data|)
            && HoldsAt(stream, at + 4 + 2 * |p.data|, ToHex(EncodeAll(ps[1..])))
            && |EncodeAll(ps)| == 2 + |p.data| + |EncodeAll(ps[1..])|
  {
    var p, rest := ps[0], ToHex(EncodeAll(ps[1..]));
    var digits := HexOf(p.tag) + HexOf(|p.data|) + ToHex(p.data);
    FirstDigits(ps);
    HoldsParts(stream, at, digits, rest);
    FirstEncoded(stream, at, p);
  }

  /** The loop over the properties ps of a template, and then whatever stands behind them. */
  lemma {:induction false} WalkEncoded(stream: string, at: nat, ps: seq<Property>, r: Resp, end: nat, templateEnd: nat)
    requires Encodable(ps) && HoldsAt(stream, at, ToHex(EncodeAll(ps)))
    requires end == at + 2 * |EncodeAll(ps)| && end <= templateEnd <= |stream|
    ensures Walk(stream, at, templateEnd, r) ==
            if Fold(ps, r).1.Some? then Fold(ps, r) else Walk(stream, end, templateEnd, Fold(ps, r).0)
    decreases |ps|
  {
    if ps != [] {
      var p, r' := ps[0], Apply(r, ps[0]).0;
      var next := at + 4 + 2 * |p.data|;
      SplitFirst(stream, at, ps);
      WalkTurn(stream, at, templateEnd, r, p, next);
      FoldTurn(ps, r);
      if Apply(r, p).1.None? {
        WalkEncoded(stream, next, ps[1..], r', end, templateEnd);
        WalkOn(Walk(stream, at, templateEnd, r), Walk(stream, next, templateEnd, r'), Fold(ps, r), Fold(ps[1..], r'),
               Walk(stream, end, templateEnd, Fold(ps[1..], r').0));
      }
    }
  }

  /** The walk w goes on as v, the fold f as g. */
  lemma WalkOn(w: (Resp, Option<Error>), v: (Resp, Option<Error>), f: (Resp, Option<Error>), g: (Resp, Option<Error>),
               later: (Resp, Option<Error>))
    requires w == v && f == g && v == if g.1.Some? then g else later
    ensures w == if f.1.Some? then f else later
  {
  }

  lemma FoldTurn(ps: seq<Property>, r: Resp)
    requires ps != []
    ensures Fold(ps, r) == if Apply(r, ps[0]).1.Some? then Apply(r, ps[0]) else Fold(ps[1..], Apply(r, ps[0]).0)
  {
  }

  /** Transcoding an encoded template is the fold over its properties, whatever follows it. */
  lemma {:induction false} TranscodeEncoded(ps: seq<Property>, suffix: string)
    requires Encodable(ps) && |EncodeAll(ps)| < 256
    ensures Transcode(EncodeTemplate(ps) + suffix) == (Some(Fold(ps, ZERO).0), Fold(ps, ZERO).1)
  {
    TranscodeStream(EncodeTemplate(ps) + suffix, EncodeAll(ps), ps);
  }

  lemma {:induction false} TranscodeStream(stream: string, body: Bytes, ps: seq<Property>)
    requires Encodable(ps) && body == EncodeAll(ps) && |body| < 256
    requires ToHex([TEMPLATE_TAG, |body|] + body) <= stream
    ensures Transcode(stream) == (Some(Fold(ps, ZERO).0), Fold(ps, ZERO).1)
  {
    TemplateParses(stream, body);
    WalkWhole(stream, 4, ps, ZERO);
    TranscodeBody(stream, 4 + 2 * |body|, Fold(ps, ZERO));
  }

  lemma {:induction false} WalkWhole(stream: string, at: nat, ps: seq<Property>, r: Resp)
    requires Encodable(ps) && HoldsAt(stream, at, ToHex(EncodeAll(ps)))
    ensures Walk(stream, at, at + 2 * |EncodeAll(ps)|, r) == Fold(ps, r)
  {
    var end := at + 2 * |EncodeAll(ps)|;
    WalkEncoded(stream, at, ps, r, end, end);
    WalkEnd(stream, end, Fold(ps, r).0);
  }

  lemma WalkEnd(stream: string, at: nat, r: Resp)
    requires at <= |stream|
    ensures Walk(stream, at, at, r) == (r, None)
  {
  }

  /** A template is the loop over its body. */
  lemma TranscodeBody(stream: string, end: nat, w: (Resp, Option<Error>))
    requires 4 <= end <= |stream| && ParseTlv(stream, 0, |stream|) == Some(Tlv(TEMPLATE_TAG, 4, end))
    requires Walk(stream, 4, end, ZERO) == w
    ensures Transcode(stream) == (Some(w.0), w.1)
  {
  }

  lemma {:induction false} TemplateParses(stream: string, body: Bytes)
    requires |body| < 256 && ToHex([TEMPLATE_TAG, |body|] + body) <= stream
    ensures ParseTlv(stream, 0, |stream|) == Some(Tlv(TEMPLATE_TAG, 4, 4 + 2 * |body|))
    ensures HoldsAt(stream, 4, ToHex(body))
  {
    var digits := ToHex([TEMPLATE_TAG, |body|] + body);
    TlvDigits(TEMPLATE_TAG, body);
    assert stream[0..|digits|] == digits;
    ParseEncoded(stream, 0, TEMPLATE_TAG, body);
  }

  // ---------------------------------------------------------------- unknown tags and order

  predicate Known(tag: Byte) {
    tag == FILE_SIZE || tag == FILE_ID || tag == FILE_DESCRIPTOR
  }

  function KnownOnly(ps: seq<Property>): seq<Property> {
    if ps == [] then [] else (if Known(ps[0].tag) then [ps[0]] else []) + KnownOnly(ps[1..])
  }

  /** Properties with unknown tags do not matter. */
  lemma {:induction false} UnknownIgnored(ps: seq<Property>, r: Resp)
    ensures Fold(ps, r) == Fold(KnownOnly(ps), r)
  {
    if ps != [] {
      UnknownIgnored(ps[1..], Apply(r, ps[0]).0);
      if Known(ps[0].tag) {
        assert KnownOnly(ps)[0] == ps[0] && KnownOnly(ps)[1..] == KnownOnly(ps[1..]);
      } else {
        assert KnownOnly(ps) == KnownOnly(ps[1..]);
      }
    }
  }

  /** Whether a property is in error does not depend on the answer so far. */
  predicate Good(p: Property) {
    Apply(ZERO, p).1.None?
  }

  lemma GoodAnywhere(r: Resp, p: Property)
    ensures Apply(r, p).1.None? <==> Good(p)
  {
  }

  predicate AllGood(ps: seq<Property>) {
    forall i :: 0 <= i < |ps| ==> Good(ps[i])
  }

  lemma {:induction false} FoldGood(ps: seq<Property>, r: Resp)
    ensures Fold(ps, r).1.None? <==> AllGood(ps)
  {
    if ps != [] {
      GoodAnywhere(r, ps[0]);
      FoldGood(ps[1..], Apply(r, ps[0]).0);
      assert forall i :: 0 < i < |ps| ==> ps[i] == ps[1..][i - 1];
    }
  }

  /** The tag stands at most once in ps. */
  predicate AtMostOnce(ps: seq<Property>, tag: Byte) {
    forall i, j :: 0 <= i < j < |ps| && ps[i].tag == tag ==> ps[j].tag != tag
  }

  function Lookup(ps: seq<Property>, tag: Byte): (p: Option<Property>)
    ensures p.Some? ==> p.value in ps && p.value.tag == tag
    ensures p.None? ==> forall q :: q in ps ==> q.tag != tag
  {
    if ps == [] then None else if ps[0].tag == tag then Some(ps[0]) else Lookup(ps[1..], tag)
  }

  function ApplyOpt(r: Resp, p: Option<Property>): Resp {
    if p.Some? then Apply(r, p.value).0 else r
  }

  /** The three known properties put together, in a fixed order. */
  function Assemble(r: Resp, ps: seq<Property>): Resp {
    ApplyOpt(ApplyOpt(ApplyOpt(r, Lookup(ps, FILE_SIZE)), Lookup(ps, FILE_ID)), Lookup(ps, FILE_DESCRIPTOR))
  }

  predicate KnownAtMostOnce(ps: seq<Property>) {
    AtMostOnce(ps, FILE_SIZE) && AtMostOnce(ps, FILE_ID) && AtMostOnce(ps, FILE_DESCRIPTOR)
  }

  lemma {:induction false} LookupTail(ps: seq<Property>, tag: Byte)
    requires ps != [] && AtMostOnce(ps, tag)
    ensures AtMostOnce(ps[1..], tag)
    ensures ps[0].tag == tag ==> Lookup(ps[1..], tag).None?
  {
  }

  /** Properties of different tags commute. */
  lemma {:induction false} FirstCommutes(r: Resp, p: Property, a: Option<Property>, b: Option<Property>,
                                         c: Option<Property>)
    requires Good(p)
    requires a.Some? ==> a.value.tag == FILE_SIZE && Good(a.value)
    requires b.Some? ==> b.value.tag == FILE_ID && Good(b.value)
    requires c.Some? ==> c.value.tag == FILE_DESCRIPTOR && Good(c.value)
    requires p.tag == FILE_SIZE ==> a.None?
    requires p.tag == FILE_ID ==> b.None?
    requires p.tag == FILE_DESCRIPTOR ==> c.None?
    ensures ApplyOpt(ApplyOpt(ApplyOpt(Apply(r, p).0, a), b), c) ==
            ApplyOpt(ApplyOpt(ApplyOpt(r, if p.tag == FILE_SIZE then Some(p) else a),
                              if p.tag == FILE_ID then Some(p) else b),
                     if p.tag == FILE_DESCRIPTOR then Some(p) else c)
  {
  }

  lemma {:induction false} FoldAssembles(ps: seq<Property>, r: Resp)
    requires KnownAtMostOnce(ps) && AllGood(ps)
    ensures Fold(ps, r) == (Assemble(r, ps), None)
    decreases |ps|
  {
    if ps != [] {
      LookupTail(ps, FILE_SIZE);
      LookupTail(ps, FILE_ID);
      LookupTail(ps, FILE_DESCRIPTOR);
      var rest := ps[1..];
      forall q | q in rest ensures Good(q) {
        var j :| 0 <= j < |rest| && rest[j] == q;
        assert q == ps[j + 1];
      }
      GoodAnywhere(r, ps[0]);
      FoldAssembles(rest, Apply(r, ps[0]).0);
      FirstCommutes(r, ps[0], Lookup(rest, FILE_SIZE), Lookup(rest, FILE_ID), Lookup(rest, FILE_DESCRIPTOR));
    }
  }

  lemma {:induction false} SameLookup(ps: seq<Property>, qs: seq<Property>, tag: Byte)
    requires multiset(ps) == multiset(qs) && AtMostOnce(ps, tag)
    ensures AtMostOnce(qs, tag) && Lookup(ps, tag) == Lookup(qs, tag)
  {
    var a, b := Lookup(ps, tag), Lookup(qs, tag);
    forall p | p in ps ensures p in qs {
      assert p in multiset(qs);
    }
    forall q | q in qs ensures q in ps {
      assert q in multiset(ps);
    }
    if a.Some? && b.Some? {
      var i :| 0 <= i < |ps| && ps[i] == a.value;
      var j :| 0 <= j < |ps| && ps[j] == b.value;
    }
    OnceByMultiset(ps, qs, tag);
  }

  /** At most once is a property of the multiset. */
  lemma {:induction false} OnceByMultiset(ps: seq<Property>, qs: seq<Property>, tag: Byte)
    requires multiset(ps) == multiset(qs) && AtMostOnce(ps, tag)
    ensures AtMostOnce(qs, tag)
  {
    forall i, j | 0 <= i < j < |qs| && qs[i].tag == tag ensures qs[j].tag != tag {
      if qs[j].tag == tag {
        assert qs[i] in multiset(ps) && qs[j] in multiset(ps);
        var k :| 0 <= k < |ps| && ps[k] == qs[i];
        var l :| 0 <= l < |ps| && ps[l] == qs[j];
        assert k == l;
        TwiceIn(qs, i, j);
        OnceIn(ps, k);
        assert false;
      }
    }
  }

  lemma {:induction false} TwiceIn(qs: seq<Property>, i: nat, j: nat)
    requires i < j < |qs| && qs[i] == qs[j]
    ensures multiset(qs)[qs[i]] >= 2
  {
    assert qs == qs[..i] + [qs[i]] + qs[i + 1..j] + [qs[j]] + qs[j + 1..];
  }

  lemma {:induction false} OnceIn(ps: seq<Property>, k: nat)
    requires k < |ps| && forall l :: 0 <= l < |ps| && l != k ==> ps[l] != ps[k]
    ensures multiset(ps)[ps[k]] == 1
  {
    assert ps == ps[..k] + [ps[k]] + ps[k + 1..];
  }

  /** When the known tags stand at most once each, the order of the properties does not matter: either
      every order succeeds with the same answer, or every order is in error. */
  lemma {:induction false} OrderIrrelevant(ps: seq<Property>, qs: seq<Property>)
    requires multiset(ps) == multiset(qs) && KnownAtMostOnce(ps)
    ensures Fold(ps, ZERO).1.None? <==> Fold(qs, ZERO).1.None?
    ensures Fold(ps, ZERO).1.None? ==> Fold(ps, ZERO) == Fold(qs, ZERO)
  {
    InErrorInEveryOrder(ps, qs);
    FoldGood(ps, ZERO);
    FoldGood(qs, ZERO);
    SameLookup(ps, qs, FILE_SIZE);
    SameLookup(ps, qs, FILE_ID);
    SameLookup(ps, qs, FILE_DESCRIPTOR);
    if AllGood(ps) {
      FoldAssembles(ps, ZERO);
      FoldAssembles(qs, ZERO);
    }
  }

  lemma {:induction false} SameGood(ps: seq<Property>, qs: seq<Property>)
    requires multiset(ps) == multiset(qs) && AllGood(ps)
    ensures AllGood(qs)
  {
    forall i | 0 <= i < |qs| ensures Good(qs[i]) {
      assert qs[i] in multiset(ps);
    }
  }

  // ---------------------------------------------------------------- templates in error

  /** Whether a template is in error does not depend on the order of its properties. */
  lemma {:induction false} InErrorInEveryOrder(ps: seq<Property>, qs: seq<Property>)
    requires Reordered(ps, qs)
    ensures Fold(ps, ZERO).1.None? <==> Fold(qs, ZERO).1.None?
  {
    FoldGood(ps, ZERO);
    FoldGood(qs, ZERO);
    if AllGood(ps) {
      SameGood(ps, qs);
    }
    if AllGood(qs) {
      SameGood(qs, ps);
    }
  }

  function ErrorOf(p: Property): Option<Error> {
    Apply(ZERO, p).1
  }

  lemma ErrorAnywhere(r: Resp, p: Property)
    ensures Apply(r, p).1 == ErrorOf(p)
  {
  }

  /** All properties in error have the same error. */
  predicate OneError(ps: seq<Property>) {
    forall i, j :: 0 <= i < |ps| && 0 <= j < |ps| && !Good(ps[i]) && !Good(ps[j]) ==> ErrorOf(ps[i]) == ErrorOf(ps[j])
  }

  ghost predicate Reordered(ps: seq<Property>, qs: seq<Property>) {
    multiset(ps) == multiset(qs)
  }

  /** Index of the first property in error, or the length. */
  function FirstBad(ps: seq<Property>): (k: nat)
    ensures k <= |ps| && (k < |ps| ==> !Good(ps[k]))
    ensures forall i :: 0 <= i < k ==> Good(ps[i])
  {
    if ps == [] || !Good(ps[0]) then 0 else 1 + FirstBad(ps[1..])
  }

  /** The answer is what the properties in front of the first one in error give, with that one applied on
      top; the error is that of the first one. */
  lemma {:induction false} FoldToFirstBad(ps: seq<Property>, r: Resp)
    ensures var k := FirstBad(ps);
            && Fold(ps[..k], r).1 == None
            && Fold(ps, r) == if k == |ps| then Fold(ps[..k], r) else Apply(Fold(ps[..k], r).0, ps[k])
    decreases |ps|
  {
    if ps != [] {
      GoodAnywhere(r, ps[0]);
      if Good(ps[0]) {
        var k := FirstBad(ps[1..]);
        FoldToFirstBad(ps[1..], Apply(r, ps[0]).0);
        assert ps[..k + 1][0] == ps[0] && ps[..k + 1][1..] == ps[1..][..k];
      }
    } else {
      assert ps[..0] == ps;
    }
  }

  lemma {:induction false} FoldError(ps: seq<Property>, r: Resp)
    ensures Fold(ps, r).1 == if FirstBad(ps) == |ps| then None else ErrorOf(ps[FirstBad(ps)])
  {
    FoldToFirstBad(ps, r);
    var k := FirstBad(ps);
    if k < |ps| {
      ErrorAnywhere(Fold(ps[..k], r).0, ps[k]);
    }
  }

  /** The property at i in front, the others behind. */
  function ToFront(ps: seq<Property>, i: nat): seq<Property>
    requires i < |ps|
  {
    [ps[i]] + (ps[..i] + ps[i + 1..])
  }

  lemma {:induction false} ToFrontReorders(ps: seq<Property>, i: nat)
    requires i < |ps|
    ensures Reordered(ps, ToFront(ps, i))
  {
    assert ps == ps[..i] + [ps[i]] + ps[i + 1..];
  }

  lemma FoldSingle(p: Property, rest: seq<Property>, r: Resp)
    requires !Good(p)
    ensures Fold([p] + rest, r) == Apply(r, p)
  {
    GoodAnywhere(r, p);
  }

  lemma {:induction false} SameMembers(ps: seq<Property>, qs: seq<Property>, p: Property)
    requires Reordered(ps, qs) && p in qs
    ensures p in ps
  {
    assert p in multiset(ps);
  }

  lemma {:induction false} OneErrorReordered(ps: seq<Property>, qs: seq<Property>)
    requires OneError(ps) && Reordered(ps, qs)
    ensures Fold(qs, ZERO).1 == Fold(ps, ZERO).1
  {
    FoldError(ps, ZERO);
    FoldError(qs, ZERO);
    var j, k := FirstBad(ps), FirstBad(qs);
    if k < |qs| {
      SameMembers(ps, qs, qs[k]);
      var i :| 0 <= i < |ps| && ps[i] == qs[k];
    }
    if j < |ps| {
      SameMembers(qs, ps, ps[j]);
      var i :| 0 <= i < |qs| && qs[i] == ps[j];
    }
  }

  /** Every order of the properties reports the same error, or none, if and only if all properties in
      error have the same one. */
  lemma {:induction false} ErrorOrderFree(ps: seq<Property>)
    ensures (forall qs :: Reordered(ps, qs) ==> Fold(qs, ZERO).1 == Fold(ps, ZERO).1) <==> OneError(ps)
  {
    if OneError(ps) {
      forall qs | Reordered(ps, qs) ensures Fold(qs, ZERO).1 == Fold(ps, ZERO).1 {
        OneErrorReordered(ps, qs);
      }
    } else {
      var i, j :| 0 <= i < |ps| && 0 <= j < |ps| && !Good(ps[i]) && !Good(ps[j]) && ErrorOf(ps[i]) != ErrorOf(ps[j]);
      ToFrontReorders(ps, i);
      ToFrontReorders(ps, j);
      FoldSingle(ps[i], ps[..i] + ps[i + 1..], ZERO);
      FoldSingle(ps[j], ps[..j] + ps[j + 1..], ZERO);
    }
  }

  /** What a property in error has already set when it is found to be. */
  function PartOf(p: Property): Resp {
    Apply(ZERO, p).0
  }

  /** No property sets anything before the first error can be met, and all properties in error leave the
      same. */
  predicate OneAnswer(ps: seq<Property>) {
    && (forall i :: 0 <= i < |ps| && Good(ps[i]) ==> PartOf(ps[i]) == ZERO)
    && (forall i, j :: 0 <= i < |ps| && 0 <= j < |ps| && !Good(ps[i]) && !Good(ps[j]) ==>
          PartOf(ps[i]) == PartOf(ps[j]))
  }

  lemma {:induction false} NothingSet(ps: seq<Property>)
    requires forall i :: 0 <= i < |ps| ==> Good(ps[i]) && PartOf(ps[i]) == ZERO
    ensures Fold(ps, ZERO).0 == ZERO
  {
    if ps != [] {
      NothingSet(ps[1..]);
    }
  }

  /** With such properties, in error, the answer is that of any one in error. */
  lemma {:induction false} OneAnswerFold(ps: seq<Property>, i: nat)
    requires OneAnswer(ps) && i < |ps| && !Good(ps[i])
    ensures Fold(ps, ZERO).0 == PartOf(ps[i])
  {
    FoldToFirstBad(ps, ZERO);
    NothingSet(ps[..FirstBad(ps)]);
  }

  lemma {:induction false} OneAnswerReordered(ps: seq<Property>, qs: seq<Property>)
    requires OneAnswer(ps) && !AllGood(ps) && Reordered(ps, qs)
    ensures Fold(qs, ZERO).0 == Fold(ps, ZERO).0
  {
    forall k | 0 <= k < |qs| ensures exists i :: 0 <= i < |ps| && ps[i] == qs[k] {
      SameMembers(ps, qs, qs[k]);
    }
    var i :| 0 <= i < |ps| && !Good(ps[i]);
    SameMembers(qs, ps, ps[i]);
    var k :| 0 <= k < |qs| && qs[k] == ps[i];
    OneAnswerFold(ps, i);
    OneAnswerFold(qs, k);
  }

  /** What a good property sets is still to be seen behind a property in error with another tag. */
  lemma {:induction false} EffectStays(g: Property, p: Property)
    requires Good(g) && PartOf(g) != ZERO && !Good(p) && g.tag != p.tag
    ensures Apply(PartOf(g), p).0 != PartOf(p)
  {
  }

  /** The property at j with the good one at i in front of it. */
  lemma {:induction false} GoodInFront(ps: seq<Property>, i: nat, j: nat) returns (qs: seq<Property>)
    requires i < |ps| && j < |ps| && Good(ps[i]) && !Good(ps[j])
    ensures Reordered(ps, qs) && Fold(qs, ZERO) == Apply(PartOf(ps[i]), ps[j])
  {
    var front := ToFront(ps, j);
    ToFrontReorders(ps, j);
    var k := if i < j then i + 1 else i;
    assert front[k] == ps[i];
    qs := ToFront(front, k);
    ToFrontReorders(front, k);
    assert qs[0] == ps[i] && qs[1] == ps[j] && qs[1..] == [ps[j]] + qs[2..];
    FoldSingle(ps[j], qs[2..], PartOf(ps[i]));
  }

  /** A template in which each known tag stands at most once leaves the same answer in every order if and
      only if nothing in it is in error, or no good property in it sets anything and all in error have set
      the same. */
  lemma {:induction false} AnswerOrderFree(ps: seq<Property>)
    requires KnownAtMostOnce(ps)
    ensures (forall qs :: Reordered(ps, qs) ==> Fold(qs, ZERO).0 == Fold(ps, ZERO).0) <==>
            AllGood(ps) || OneAnswer(ps)
  {
    if AllGood(ps) {
      FoldGood(ps, ZERO);
      forall qs | Reordered(ps, qs) ensures Fold(qs, ZERO).0 == Fold(ps, ZERO).0 {
        OrderIrrelevant(ps, qs);
      }
    } else if OneAnswer(ps) {
      forall qs | Reordered(ps, qs) ensures Fold(qs, ZERO).0 == Fold(ps, ZERO).0 {
        OneAnswerReordered(ps, qs);
      }
    } else {
      var qs, qs' := TwoAnswers(ps);
    }
  }

  lemma {:induction false} TwoAnswers(ps: seq<Property>) returns (qs: seq<Property>, qs': seq<Property>)
    requires KnownAtMostOnce(ps) && !AllGood(ps) && !OneAnswer(ps)
    ensures Reordered(ps, qs) && Reordered(ps, qs') && Fold(qs, ZERO).0 != Fold(qs', ZERO).0
  {
    if i :| 0 <= i < |ps| && Good(ps[i]) && PartOf(ps[i]) != ZERO {
      var j :| 0 <= j < |ps| && !Good(ps[j]);
      KnownTwice(ps, i, j);
      EffectStays(ps[i], ps[j]);
      qs := BadInFront(ps, j);
      qs' := GoodInFront(ps, i, j);
    } else {
      var i, k :| 0 <= i < |ps| && 0 <= k < |ps| && !Good(ps[i]) && !Good(ps[k]) && PartOf(ps[i]) != PartOf(ps[k]);
      qs := BadInFront(ps, i);
      qs' := BadInFront(ps, k);
    }
  }

  /** A good property that sets something, and one in error, do not have the same tag. */
  lemma {:induction false} KnownTwice(ps: seq<Property>, i: nat, j: nat)
    requires KnownAtMostOnce(ps) && i < |ps| && j < |ps|
    requires Good(ps[i]) && PartOf(ps[i]) != ZERO && !Good(ps[j])
    ensures ps[i].tag != ps[j].tag
  {
  }

  /** The property in error at j in front of all others. */
  lemma {:induction false} BadInFront(ps: seq<Property>, j: nat) returns (qs: seq<Property>)
    requires j < |ps| && !Good(ps[j])
    ensures Reordered(ps, qs) && Fold(qs, ZERO).0 == PartOf(ps[j])
  {
    qs := ToFront(ps, j);
    ToFrontReorders(ps, j);
    FoldSingle(ps[j], ps[..j] + ps[j + 1..], ZERO);
  }

  /** Which error is reported does depend on the order. */
  lemma ErrorCodeDependsOnOrder()
    ensures var a, b := Property(FILE_SIZE, []), Property(FILE_ID, []);
            && Fold([a, b], ZERO).1 == Some(NotSupported)
            && Fold([b, a], ZERO).1 == Some(Invalid)
  {
  }

  // ---------------------------------------------------------------- in place

  class Ts51011Resp {
    var fileSize: (Byte, Byte)
    var fileId: (Byte, Byte)
    var fileType: Byte
    var fileStatus: Byte
    var dataSize: Byte
    var fileStructure: Byte
    var recordSize: Byte

    ghost function Value(): Resp
      reads this
    {
      Resp(fileSize, fileId, fileType, fileStatus, dataSize, fileStructure, recordSize)
    }

    constructor ()
      ensures Value() == ZERO
    {
      fileSize, fileId, fileType, fileStatus, dataSize, fileStructure, recordSize := (0, 0), (0, 0), 0, 0, 0, 0, 0;
    }

    method Clear()
      modifies this
      ensures Value() == ZERO
    {
      fileSize, fileId, fileType, fileStatus, dataSize, fileStructure, recordSize := (0, 0), (0, 0), 0, 0, 0, 0, 0;
    }

    /** The 0x82 case of the switch. */
    method SetDescriptor(data: Bytes) returns (e: Option<Error>)
      modifies this
      ensures (Value(), e) == ApplyDescriptor(old(Value()), data)
    {
      if |data| < 2 {
        return Some(Invalid);
      }
      var fd := data[0];
      if And(fd, 0xBF) == 0x38 {
        fileType := 2;
      } else if And(fd, 0xB0) == 0x00 {
        fileType := 4;
        fileStatus := 1;
        dataSize := Increment(dataSize);
        if And(fd, 0x07) == 0x01 {
          fileStructure := 0;
        } else {
          if |data| < 5 {
            return Some(Invalid);
          }
          dataSize := Increment(dataSize);
          recordSize := data[3];
          if And(fd, 0x07) == 0x06 {
            fileStructure := 3;
          } else if And(fd, 0x07) == 0x02 {
            fileStructure := 1;
          } else {
            return Some(Invalid);
          }
        }
      } else {
        fileType := 0;
      }
      e := None;
    }

    method SetProperty(p: Property) returns (e: Option<Error>)
      modifies this
      ensures (Value(), e) == Apply(old(Value()), p)
    {
      e := None;
      if p.tag == FILE_SIZE {
        if |p.data| != 2 {
          return Some(NotSupported);
        }
        fileSize := (p.data[0], p.data[1]);
      } else if p.tag == FILE_ID {
        if |p.data| != 2 {
          return Some(Invalid);
        }
        fileId := (p.data[0], p.data[1]);
      } else if p.tag == FILE_DESCRIPTOR {
        e := SetDescriptor(p.data);
      }
    }

    /** fcp_to_ts_51011: None is the success return. */
    method FcpToTs51011(stream: string) returns (e: Option<Error>)
      modifies this
      ensures e == Transcode(stream).1
      ensures Value() == if Transcode(stream).0.Some? then Transcode(stream).0.value else old(Value())
    {
      var fcp := ParseTlv(stream, 0, |stream|);
      if fcp.None? {
        return Some(Invalid);
      }
      if fcp.value.tag != TEMPLATE_TAG {
        return Some(Invalid);
      }
      Clear();
      var at := fcp.value.data;
      while at < fcp.value.end
        invariant fcp.value.data <= at <= |stream|
        invariant Walk(stream, at, fcp.value.end, Value()) == Walk(stream, fcp.value.data, fcp.value.end, ZERO)
        decreases |stream| - at
      {
        var tlv := ParseTlv(stream, at, |stream|);
        if tlv.None? {
          return Some(Invalid);
        }
        e := SetProperty(PropertyOf(stream, tlv.value));
        if e.Some? {
          return;
        }
        at := tlv.value.end;
      }
      e := None;
    }
  }
}
