/** The Feishu frame message: its data model, the meaning of its wire format as a sequence
    of fields, and the append-only encoder and position-advancing decoder proved against it. */
module Frames {
  import opened Words
  import opened Varint

  /** Go strings and byte slices are both byte sequences; nil and empty are the same value. */
  type bytes = seq<byte>

  datatype FrameHeader = FrameHeader(key: bytes, value: bytes)

  datatype Frame = Frame(
    seqID: uint64,
    logID: uint64,
    service: int32,
    method_: int32,
    headers: seq<FrameHeader>,
    payloadEncoding: bytes,
    payloadType: bytes,
    payload: bytes,
    logIDNew: bytes
  )

  const EMPTY_HEADER := FrameHeader([], [])
  const EMPTY_FRAME := Frame(0, 0, 0, 0, [], [], [], [], [])

  datatype DecodeError =
    | BadTag(pos: nat)
    | BadValue(field: nat)
    | BadLength(field: nat)
    | Truncated(field: nat)
    | UnknownWire(wire: nat, field: nat)
    | HeaderBadTag
    | HeaderWire(field: nat)
    | HeaderBadLength
    | HeaderTruncated

  /** `Fault` is the run-time failure of a slice expression whose end lies before its start. */
  datatype Outcome<T> = Ok(value: T) | Err(error: DecodeError) | Fault

  /** A field number: what is left of a 64-bit tag when the three wire-type bits are dropped. */
  type fieldNum = n: int | 0 <= n < 0x2000_0000_0000_0000

  /** One field on the wire. */
  datatype Field =
    | VarintField(num: fieldNum, value: uint64)
    | LenField(num: fieldNum, data: bytes)

  // ---------------------------------------------------------------- wire format

  const WIRE_VARINT: nat := 0
  const WIRE_LEN: nat := 2

  function WireType(fd: Field): nat {
    if fd.VarintField? then WIRE_VARINT else WIRE_LEN
  }

  /** The bytes behind the tag. */
  function ValueBytes(fd: Field): bytes {
    match fd
    case VarintField(_, value) => VarintBytes(value)
    case LenField(_, data) => VarintBytes(|data|) + data
  }

  function EncodeField(fd: Field): bytes {
    VarintBytes(fd.num * 8 + WireType(fd)) + ValueBytes(fd)
  }

  /** The parts one after the other, each turned into bytes by `enc`. */
  function Concat<T>(s: seq<T>, enc: T -> bytes): bytes {
    if s == [] then [] else enc(s[0]) + Concat(s[1..], enc)
  }

  function EncodeFields(fs: seq<Field>): bytes {
    Concat(fs, EncodeField)
  }

  function HeaderFields(h: FrameHeader): seq<Field> {
    [LenField(1, h.key), LenField(2, h.value)]
  }

  function HeaderBytes(h: FrameHeader): bytes {
    EncodeFields(HeaderFields(h))
  }

  function HeaderField(h: FrameHeader): Field {
    LenField(5, HeaderBytes(h))
  }

  function Map<T, U>(s: seq<T>, g: T -> U): (r: seq<U>)
    ensures |r| == |s|
  {
    if s == [] then [] else Map(s[..|s| - 1], g) + [g(s[|s| - 1])]
  }

  lemma {:induction false} MapAt<T, U>(s: seq<T>, g: T -> U, i: nat)
    requires i < |s|
    ensures Map(s, g)[i] == g(s[i])
    decreases |s|
  {
    if i < |s| - 1 { MapAt(s[..|s| - 1], g, i); }
  }

  lemma MapGrows<T, U>(s: seq<T>, g: T -> U, i: nat)
    requires i < |s|
    ensures Map(s[..i + 1], g) == Map(s[..i], g) + [g(s[i])]
  {
    assert s[..i + 1][..i] == s[..i];
  }

  function HeaderListFields(hs: seq<FrameHeader>): seq<Field> {
    Map(hs, HeaderField)
  }

  /** A field that is written only when it is not empty. */
  function Optional(num: fieldNum, data: bytes): seq<Field> {
    if data == [] then [] else [LenField(num, data)]
  }

  function FixedFields(f: Frame): seq<Field> {
    [VarintField(1, f.seqID), VarintField(2, f.logID),
     VarintField(3, SignExtend(f.service)), VarintField(4, SignExtend(f.method_))]
  }

  function OptionalFields(f: Frame): seq<Field> {
    Optional(6, f.payloadEncoding) + Optional(7, f.payloadType) + Optional(8, f.payload) + Optional(9, f.logIDNew)
  }

  /** The fields of a frame in the order they are sent. */
  function FieldsOf(f: Frame): seq<Field> {
    FixedFields(f) + HeaderListFields(f.headers) + OptionalFields(f)
  }

  // ---------------------------------------------------------------- the same, byte by byte

  /** One header: field 1 is the key and field 2 the value, both length-delimited. */
  function WireOfHeader(h: FrameHeader): bytes {
    ([0x0a] + VarintBytes(|h.key|) + h.key) + ([0x12] + VarintBytes(|h.value|) + h.value)
  }

  /** The headers in order, each as field 5. */
  function WireOfHeaders(hs: seq<FrameHeader>): bytes {
    if hs == [] then []
    else
      var h := WireOfHeader(hs[|hs| - 1]);
      WireOfHeaders(hs[..|hs| - 1]) + ([0x2a] + VarintBytes(|h|) + h)
  }

  /** A field that is left out when empty. */
  function WireOfTail(tag: byte, data: bytes): bytes {
    if data == [] then [] else [tag] + VarintBytes(|data|) + data
  }

  /** A signed 32-bit value as the unsigned 64-bit word with the same low bits. */
  function Unsigned(v: int32): uint64 {
    if v < 0 then v + 0x1_0000_0000_0000_0000 else v
  }

  /** A frame on the wire: fields 1 to 4 as varints, the headers, then what is not empty of 6 to 9. */
  function WireOfFrame(f: Frame): bytes {
    ([0x08] + VarintBytes(f.seqID)) + ([0x10] + VarintBytes(f.logID))
      + ([0x18] + VarintBytes(Unsigned(f.service))) + ([0x20] + VarintBytes(Unsigned(f.method_)))
      + WireOfHeaders(f.headers)
      + (WireOfTail(0x32, f.payloadEncoding) + WireOfTail(0x3a, f.payloadType)
           + WireOfTail(0x42, f.payload) + WireOfTail(0x4a, f.logIDNew))
  }

  /** A tag below 128 is one byte: eight times the field number, plus 2 for what has a length. */
  lemma FieldWire(fd: Field)
    requires fd.num < 16
    ensures EncodeField(fd) == match fd
                               case VarintField(num, v) => [num * 8] + VarintBytes(v)
                               case LenField(num, data) => [num * 8 + 2] + VarintBytes(|data|) + data
  {
    match fd
    case VarintField(num, v) =>
    case LenField(num, data) => Assoc([num * 8 + 2], VarintBytes(|data|), data);
  }

  lemma HeaderIsWire(h: FrameHeader)
    ensures HeaderBytes(h) == WireOfHeader(h)
  {
    HeaderEncoding(h);
    FieldWire(LenField(1, h.key));
    FieldWire(LenField(2, h.value));
    FromEmpty([0x0a] + VarintBytes(|h.key|) + h.key, [0x12] + VarintBytes(|h.value|) + h.value, [], []);
  }

  lemma {:induction false} HeadersAreWire(hs: seq<FrameHeader>)
    ensures EncodeFields(HeaderListFields(hs)) == WireOfHeaders(hs)
    decreases |hs|
  {
    if hs != [] {
      var rest, h := hs[..|hs| - 1], hs[|hs| - 1];
      HeadersAreWire(rest);
      HeaderIsWire(h);
      FieldWire(HeaderField(h));
      ConcatOne(HeaderListFields(rest), HeaderField(h), EncodeField);
    }
  }

  lemma TailIsWire(num: fieldNum, data: bytes)
    requires num < 16
    ensures OptionalBytes(num, data) == WireOfTail(num * 8 + 2, data)
  {
    FieldWire(LenField(num, data));
  }

  lemma FixedIsWire(f: Frame)
    ensures EncodeFields(FixedFields(f)) ==
            ([0x08] + VarintBytes(f.seqID)) + ([0x10] + VarintBytes(f.logID))
              + ([0x18] + VarintBytes(Unsigned(f.service))) + ([0x20] + VarintBytes(Unsigned(f.method_)))
  {
    FixedEncoding(f);
    FieldWire(VarintField(1, f.seqID));
    FieldWire(VarintField(2, f.logID));
    FieldWire(VarintField(3, SignExtend(f.service)));
    FieldWire(VarintField(4, SignExtend(f.method_)));
    FromEmpty([0x08] + VarintBytes(f.seqID), [0x10] + VarintBytes(f.logID),
              [0x18] + VarintBytes(Unsigned(f.service)), [0x20] + VarintBytes(Unsigned(f.method_)));
  }

  lemma FromEmpty(a: bytes, b: bytes, c: bytes, d: bytes)
    ensures [] + a + b + c + d == a + b + c + d && [] + a + b == a + b
  {
    assert [] + a == a;
  }

  lemma TailsAreWire(f: Frame)
    ensures EncodeFields(OptionalFields(f)) ==
            WireOfTail(0x32, f.payloadEncoding) + WireOfTail(0x3a, f.payloadType)
              + WireOfTail(0x42, f.payload) + WireOfTail(0x4a, f.logIDNew)
  {
    OptionalEncoding(f);
    TailIsWire(6, f.payloadEncoding);
    TailIsWire(7, f.payloadType);
    TailIsWire(8, f.payload);
    TailIsWire(9, f.logIDNew);
  }

  /** The field list of a frame, encoded, is that byte string. */
  lemma EncodingIsWire(f: Frame)
    ensures EncodeFields(FieldsOf(f)) == WireOfFrame(f)
  {
    ConcatAppend(FixedFields(f), HeaderListFields(f.headers), EncodeField);
    ConcatAppend(FixedFields(f) + HeaderListFields(f.headers), OptionalFields(f), EncodeField);
    FixedIsWire(f);
    HeadersAreWire(f.headers);
    TailsAreWire(f);
  }

  // ---------------------------------------------------------------- meaning of decoding

  /** `pos + int(length)` on signed 64-bit words: the conversion reinterprets the top bit, and the
      sum of a position (always below 2^63) and a length wraps when it reaches 2^63. */
  function SliceEnd(pos: nat, length: uint64): int {
    var sum := pos + ToInt64(length);
    if sum >= TWO_63 then sum - TWO_64 else sum
  }

  function ReadData(buf: bytes, pos: nat, num: fieldNum, badLength: DecodeError, truncated: DecodeError)
    : (r: Outcome<(Field, nat)>)
    ensures r.Ok? ==> pos < r.value.1 <= |buf|
  {
    match DecodeVarint(buf, pos)
    case Bad => Err(badLength)
    case Good(length, start) =>
      var end := SliceEnd(start, length);
      if end > |buf| then Err(truncated)
      else if end < start then Fault
      else Ok((LenField(num, buf[start..end]), end))
  }

  /** The value behind a tag. */
  function ReadValue(buf: bytes, pos: nat, num: fieldNum, wire: nat): (r: Outcome<(Field, nat)>)
    ensures r.Ok? ==> pos < r.value.1 <= |buf|
  {
    if wire == WIRE_VARINT then
      match DecodeVarint(buf, pos)
      case Bad => Err(BadValue(num))
      case Good(value, end) => Ok((VarintField(num, value), end))
    else if wire == WIRE_LEN then
      ReadData(buf, pos, num, BadLength(num), Truncated(num))
    else Err(UnknownWire(wire, num))
  }

  function ReadField(buf: bytes, pos: nat): (r: Outcome<(Field, nat)>)
    ensures r.Ok? ==> pos < r.value.1 <= |buf|
  {
    match DecodeVarint(buf, pos)
    case Bad => Err(BadTag(pos))
    case Good(tag, next) => ReadValue(buf, next, tag / 8, tag % 8)
  }

  function ReadHeaderField(buf: bytes, pos: nat): (r: Outcome<(Field, nat)>)
    ensures r.Ok? ==> pos < r.value.1 <= |buf| && r.value.0.LenField?
  {
    match DecodeVarint(buf, pos)
    case Bad => Err(HeaderBadTag)
    case Good(tag, next) =>
      if tag % 8 != WIRE_LEN then Err(HeaderWire(tag / 8))
      else ReadData(buf, next, tag / 8, HeaderBadLength, HeaderTruncated)
  }

  function ApplyHeader(h: FrameHeader, fd: Field): FrameHeader
    requires fd.LenField?
  {
    if fd.num == 1 then h.(key := fd.data)
    else if fd.num == 2 then h.(value := fd.data)
    else h
  }

  function DecodeHeader(buf: bytes, pos: nat, h: FrameHeader): Outcome<FrameHeader>
    decreases |buf| - pos
  {
    if pos >= |buf| then Ok(h)
    else match ReadHeaderField(buf, pos)
         case Err(e) => Err(e)
         case Fault => Fault
         case Ok((fd, next)) => DecodeHeader(buf, next, ApplyHeader(h, fd))
  }

  /** The header as far as decoding gets: what is handed back beside an error. */
  function HeaderReached(buf: bytes, pos: nat, h: FrameHeader): FrameHeader
    decreases |buf| - pos
  {
    if pos >= |buf| then h
    else match ReadHeaderField(buf, pos)
         case Ok((fd, next)) => HeaderReached(buf, next, ApplyHeader(h, fd))
         case _ => h
  }

  /** What a field does to the frame being built: unknown numbers are skipped, headers accumulate,
      every other known field overwrites. */
  function Apply(f: Frame, fd: Field): Outcome<Frame> {
    match fd
    case VarintField(num, v) =>
      Ok(if num == 1 then f.(seqID := v)
         else if num == 2 then f.(logID := v)
         else if num == 3 then f.(service := TruncateToInt32(v))
         else if num == 4 then f.(method_ := TruncateToInt32(v))
         else f)
    case LenField(num, data) =>
      if num == 5 then
        match DecodeHeader(data, 0, EMPTY_HEADER)
        case Err(e) => Err(e)
        case Fault => Fault
        case Ok(h) => Ok(f.(headers := f.headers + [h]))
      else
        Ok(if num == 6 then f.(payloadEncoding := data)
           else if num == 7 then f.(payloadType := data)
           else if num == 8 then f.(payload := data)
           else if num == 9 then f.(logIDNew := data)
           else f)
  }

  /** Decoding as a streaming fold: read a field, apply it, go on behind it. */
  function DecodeFrame(buf: bytes, pos: nat, f: Frame): Outcome<Frame>
    decreases |buf| - pos
  {
    if pos >= |buf| then Ok(f)
    else match ReadField(buf, pos)
         case Err(e) => Err(e)
         case Fault => Fault
         case Ok((fd, next)) =>
           match Apply(f, fd)
           case Err(e) => Err(e)
           case Fault => Fault
           case Ok(g) => DecodeFrame(buf, next, g)
  }

  /** The frame as far as decoding gets. */
  function FrameReached(buf: bytes, pos: nat, f: Frame): Frame
    decreases |buf| - pos
  {
    if pos >= |buf| then f
    else match ReadField(buf, pos)
         case Ok((fd, next)) =>
           (match Apply(f, fd)
            case Ok(g) => FrameReached(buf, next, g)
            case _ => f)
         case _ => f
  }

  // ---------------------------------------------------------------- encoder

  lemma {:induction false} ConcatAppend<T>(a: seq<T>, b: seq<T>, enc: T -> bytes)
    ensures Concat(a + b, enc) == Concat(a, enc) + Concat(b, enc)
  {
    if a == [] {
      assert a + b == b;
    } else {
      assert (a + b)[1..] == a[1..] + b;
      ConcatAppend(a[1..], b, enc);
    }
  }

  lemma ConcatOne<T>(s: seq<T>, x: T, enc: T -> bytes)
    ensures Concat(s + [x], enc) == Concat(s, enc) + enc(x)
  {
    ConcatAppend(s, [x], enc);
    assert Concat([x], enc) == enc(x) + Concat([], enc);
  }

  lemma TagBits(fieldNum: nat, wireType: nat)
    requires wireType < 8
    ensures BitOr(Double(fieldNum, 3), wireType) == fieldNum * 8 + wireType
    ensures Double(fieldNum, 3) == fieldNum * 8
  {
    DoubleLinear(fieldNum, 3);
    assert Double(1, 3) == 8;
    BitOrAbove(wireType, fieldNum, 3);
    BitOrCommutes(wireType, Double(fieldNum, 3));
  }

  /** `fieldNum<<3 | wireType` as a varint, for every field number a 64-bit tag can hold. */
  method PbTag(num: fieldNum, wireType: nat) returns (out: bytes)
    requires wireType < 8
    ensures out == VarintBytes(num * 8 + wireType)
  {
    TagBits(num, wireType);
    SmallModulo(Double(num, 3));
    out := PbVarint(BitOr(Shl(num, 3), wireType));
  }

  method PbUint64(buf: bytes, num: fieldNum, v: uint64) returns (out: bytes)
    ensures out == buf + EncodeField(VarintField(num, v))
  {
    var tag := PbTag(num, WIRE_VARINT);
    out := buf + tag;
    var value := PbVarint(v);
    out := out + value;
  }

  method PbInt32(buf: bytes, num: fieldNum, v: int32) returns (out: bytes)
    ensures out == buf + EncodeField(VarintField(num, SignExtend(v)))
  {
    out := PbUint64(buf, num, SignExtend(v));
  }

  method PbBytes(buf: bytes, num: fieldNum, data: bytes) returns (out: bytes)
    requires |data| < TWO_63
    ensures out == buf + EncodeField(LenField(num, data))
  {
    var tag := PbTag(num, WIRE_LEN);
    out := buf + tag;
    var length := PbVarint(|data|);
    out := out + length;
    out := out + data;
  }

  method MarshalHeader(h: FrameHeader) returns (buf: bytes)
    requires |h.key| < TWO_63 && |h.value| < TWO_63
    ensures buf == HeaderBytes(h) && buf == WireOfHeader(h)
  {
    HeaderIsWire(h);
    HeaderEncoding(h);
    buf := PbBytes([], 1, h.key);
    buf := PbBytes(buf, 2, h.value);
  }

  lemma HeaderEncoding(h: FrameHeader)
    ensures HeaderBytes(h) == [] + EncodeField(LenField(1, h.key)) + EncodeField(LenField(2, h.value))
  {
    ConcatOne([], LenField(1, h.key), EncodeField);
    ConcatOne([LenField(1, h.key)], LenField(2, h.value), EncodeField);
    assert [] + [LenField(1, h.key)] == [LenField(1, h.key)];
    assert [LenField(1, h.key)] + [LenField(2, h.value)] == HeaderFields(h);
  }

  /** What every Go value satisfies: no byte slice of the frame reaches 2^63 bytes. */
  ghost predicate Fits(f: Frame) {
    && |f.payloadEncoding| < TWO_63 && |f.payloadType| < TWO_63
    && |f.payload| < TWO_63 && |f.logIDNew| < TWO_63
    && HeadersFit(f.headers)
  }

  ghost predicate HeadersFit(hs: seq<FrameHeader>) {
    forall h :: h in hs ==> |h.key| < TWO_63 && |h.value| < TWO_63 && |HeaderBytes(h)| < TWO_63
  }

  /** The encoder. */
  method MarshalFrame(f: Frame) returns (buf: bytes)
    requires Fits(f)
    ensures buf == EncodeFields(FieldsOf(f)) && buf == WireOfFrame(f)
  {
    EncodingIsWire(f);
    FixedEncoding(f);
    ConcatAppend(FixedFields(f), HeaderListFields(f.headers), EncodeField);
    ConcatAppend(FixedFields(f) + HeaderListFields(f.headers), OptionalFields(f), EncodeField);
    buf := PbUint64([], 1, f.seqID);
    buf := PbUint64(buf, 2, f.logID);
    buf := PbInt32(buf, 3, f.service);
    buf := PbInt32(buf, 4, f.method_);
    buf := MarshalHeaders(buf, f.headers);
    buf := MarshalOptional(buf, f);
  }

  /** The header loop of the encoder. */
  method MarshalHeaders(buf: bytes, hs: seq<FrameHeader>) returns (out: bytes)
    requires HeadersFit(hs)
    ensures out == buf + EncodeFields(HeaderListFields(hs))
  {
    out := buf;
    for i := 0 to |hs|
      invariant out == buf + EncodeFields(HeaderListFields(hs[..i]))
    {
      ghost var sent := EncodeFields(HeaderListFields(hs[..i]));
      var h := MarshalHeader(hs[i]);
      out := PbBytes(out, 5, h);
      MapGrows(hs, HeaderField, i);
      ConcatOne(HeaderListFields(hs[..i]), HeaderField(hs[i]), EncodeField);
      Assoc(buf, sent, EncodeField(LenField(5, h)));
    }
    assert hs[..|hs|] == hs;
  }

  lemma Assoc(a: bytes, b: bytes, c: bytes)
    ensures a + (b + c) == a + b + c
  {
  }

  /** The tail of the encoder: the fields that are left out when empty. */
  method MarshalOptional(buf: bytes, f: Frame) returns (out: bytes)
    requires Fits(f)
    ensures out == buf + EncodeFields(OptionalFields(f))
  {
    OptionalEncoding(f);
    ghost var o6, o7 := OptionalBytes(6, f.payloadEncoding), OptionalBytes(7, f.payloadType);
    ghost var o8, o9 := OptionalBytes(8, f.payload), OptionalBytes(9, f.logIDNew);
    out := buf;
    if f.payloadEncoding != [] {
      out := PbBytes(out, 6, f.payloadEncoding);
    }
    assert out == buf + o6;
    if f.payloadType != [] {
      out := PbBytes(out, 7, f.payloadType);
    }
    Assoc(buf, o6, o7);
    assert out == buf + (o6 + o7);
    if |f.payload| > 0 {
      out := PbBytes(out, 8, f.payload);
    }
    Assoc(buf, o6 + o7, o8);
    assert out == buf + (o6 + o7 + o8);
    if f.logIDNew != [] {
      out := PbBytes(out, 9, f.logIDNew);
    }
    Assoc(buf, o6 + o7 + o8, o9);
  }

  function OptionalBytes(num: fieldNum, data: bytes): bytes {
    if data == [] then [] else EncodeField(LenField(num, data))
  }

  lemma OptionalStep(num: fieldNum, data: bytes)
    ensures EncodeFields(Optional(num, data)) == OptionalBytes(num, data)
  {
    if data != [] {
      ConcatOne([], LenField(num, data), EncodeField);
      assert [] + [LenField(num, data)] == [LenField(num, data)];
    }
  }

  lemma OptionalEncoding(f: Frame)
    ensures EncodeFields(OptionalFields(f)) ==
            OptionalBytes(6, f.payloadEncoding) + OptionalBytes(7, f.payloadType)
              + OptionalBytes(8, f.payload) + OptionalBytes(9, f.logIDNew)
  {
    var o6, o7 := Optional(6, f.payloadEncoding), Optional(7, f.payloadType);
    var o8, o9 := Optional(8, f.payload), Optional(9, f.logIDNew);
    ConcatAppend(o6, o7, EncodeField);
    ConcatAppend(o6 + o7, o8, EncodeField);
    ConcatAppend(o6 + o7 + o8, o9, EncodeField);
    OptionalStep(6, f.payloadEncoding);
    OptionalStep(7, f.payloadType);
    OptionalStep(8, f.payload);
    OptionalStep(9, f.logIDNew);
  }

  lemma FixedEncoding(f: Frame)
    ensures EncodeFields(FixedFields(f)) ==
            [] + EncodeField(VarintField(1, f.seqID)) + EncodeField(VarintField(2, f.logID))
               + EncodeField(VarintField(3, SignExtend(f.service))) + EncodeField(VarintField(4, SignExtend(f.method_)))
  {
    var fs := FixedFields(f);
    ConcatOne(fs[..0], fs[0], EncodeField);
    ConcatOne(fs[..1], fs[1], EncodeField);
    ConcatOne(fs[..2], fs[2], EncodeField);
    ConcatOne(fs[..3], fs[3], EncodeField);
    assert fs[..0] + [fs[0]] == fs[..1] && fs[..1] + [fs[1]] == fs[..2];
    assert fs[..2] + [fs[2]] == fs[..3] && fs[..3] + [fs[3]] == fs;
  }

  // ---------------------------------------------------------------- decoder

  /** The header loop. Beside the outcome it hands back the header it has got to; after a `Fault` there
      is nothing to hand back. */
  method UnmarshalHeader(buf: bytes) returns (h: FrameHeader, r: Outcome<FrameHeader>)
    ensures r == DecodeHeader(buf, 0, FrameHeader([], []))
    ensures h == HeaderReached(buf, 0, FrameHeader([], []))
  {
    h := EMPTY_HEADER;
    var pos: nat := 0;
    while pos < |buf|
      invariant pos <= |buf|
      invariant DecodeHeader(buf, pos, h) == DecodeHeader(buf, 0, EMPTY_HEADER)
      invariant HeaderReached(buf, pos, h) == HeaderReached(buf, 0, EMPTY_HEADER)
      decreases |buf| - pos
    {
      var tag, newPos := PbDecodeVarint(buf, pos);
      if newPos < 0 {
        return h, Err(HeaderBadTag);
      }
      var fieldNum := tag / 8;
      if tag % 8 != WIRE_LEN {
        return h, Err(HeaderWire(fieldNum));
      }
      var length, start := PbDecodeVarint(buf, newPos);
      if start < 0 {
        return h, Err(HeaderBadLength);
      }
      var end := SliceEnd(start, length);
      if end > |buf| {
        return h, Err(HeaderTruncated);
      }
      if end < start {
        return h, Fault;
      }
      var val := buf[start..end];
      pos := end;
      match fieldNum {
        case 1 => h := h.(key := val);
        case 2 => h := h.(value := val);
        case _ =>
      }
    }
    return h, Ok(h);
  }

  /** One field read and applied: both folds go on behind it. */
  lemma FrameGoesOn(buf: bytes, pos: nat, f: Frame, fd: Field, next: nat, g: Frame)
    requires pos < |buf| && ReadField(buf, pos) == Ok((fd, next)) && Apply(f, fd) == Ok(g)
    ensures DecodeFrame(buf, pos, f) == DecodeFrame(buf, next, g)
    ensures FrameReached(buf, pos, f) == FrameReached(buf, next, g)
  {
  }

  /** The frame loop; beside the outcome it hands back the frame it has got to. */
  method UnmarshalFrame(buf: bytes) returns (f: Frame, r: Outcome<Frame>)
    ensures r == DecodeFrame(buf, 0, Frame(0, 0, 0, 0, [], [], [], [], []))
    ensures f == FrameReached(buf, 0, Frame(0, 0, 0, 0, [], [], [], [], []))
  {
    f := EMPTY_FRAME;
    var pos: nat := 0;
    while pos < |buf|
      invariant pos <= |buf|
      invariant DecodeFrame(buf, pos, f) == DecodeFrame(buf, 0, EMPTY_FRAME)
      invariant FrameReached(buf, pos, f) == FrameReached(buf, 0, EMPTY_FRAME)
      decreases |buf| - pos
    {
      ghost var start, was := pos, f;
      var tag, newPos := PbDecodeVarint(buf, pos);
      if newPos < 0 {
        return f, Err(BadTag(pos));
      }
      var fieldNum, wireType := tag / 8, tag % 8;
      if wireType == WIRE_VARINT {
        var val, next := PbDecodeVarint(buf, newPos);
        if next < 0 {
          return f, Err(BadValue(fieldNum));
        }
        pos := next;
        match fieldNum {
          case 1 => f := f.(seqID := val);
          case 2 => f := f.(logID := val);
          case 3 => f := f.(service := TruncateToInt32(val));
          case 4 => f := f.(method_ := TruncateToInt32(val));
          case _ =>
        }
        FrameGoesOn(buf, start, was, VarintField(fieldNum, val), pos, f);
      } else if wireType == WIRE_LEN {
        var length, from := PbDecodeVarint(buf, newPos);
        if from < 0 {
          return f, Err(BadLength(fieldNum));
        }
        var end := SliceEnd(from, length);
        if end > |buf| {
          return f, Err(Truncated(fieldNum));
        }
        if end < from {
          return f, Fault;
        }
        var data := buf[from..end];
        pos := end;
        match fieldNum {
          case 5 =>
            var _, got := UnmarshalHeader(data);
            match got {
              case Err(e) => return f, Err(e);
              case Fault => return f, Fault;
              case Ok(header) => f := f.(headers := f.headers + [header]);
            }
          case 6 => f := f.(payloadEncoding := data);
          case 7 => f := f.(payloadType := data);
          case 8 => f := f.(payload := data);
          case 9 => f := f.(logIDNew := data);
          case _ =>
        }
        FrameGoesOn(buf, start, was, LenField(fieldNum, data), pos, f);
      } else {
        return f, Err(UnknownWire(wireType, fieldNum));
      }
    }
    return f, Ok(f);
  }
}
