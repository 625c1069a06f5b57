/** Laws of the frame codec: round trip, injectivity, truncation, streaming, last-one-wins,
    unknown fields, and exactly when a slice expression fails at run time. */
module FrameLaws {
  import opened Words
  import opened Varint
  import opened Frames

  function Encoding(f: Frame): bytes {
    EncodeFields(FieldsOf(f))
  }

  // ---------------------------------------------------------------- slices

  /** The narrowing `pos + int(length)` is the true sum while that stays below 2^63, and lies
      before `pos` otherwise. */
  lemma SliceEndMeaning(pos: nat, length: uint64)
    requires pos < TWO_63
    ensures pos + length < TWO_63 ==> SliceEnd(pos, length) == pos + length
    ensures pos + length >= TWO_63 ==> SliceEnd(pos, length) < pos
  {
  }

  /** A length-delimited value is read whole, reported truncated, or fails at run time exactly when
      its end is at or past 2^63. */
  lemma ReadDataMeaning(buf: bytes, pos: nat, num: fieldNum, badLength: DecodeError, truncated: DecodeError)
    requires |buf| < TWO_63
    ensures ReadData(buf, pos, num, badLength, truncated) ==
            match DecodeVarint(buf, pos)
            case Bad => Err(badLength)
            case Good(length, start) =>
              if start + length <= |buf| then Ok((LenField(num, buf[start..start + length]), start + length))
              else if start + length < TWO_63 then Err(truncated)
              else Fault
  {
    match DecodeVarint(buf, pos)
    case Bad =>
    case Good(length, start) => SliceEndMeaning(start, length);
  }

  // ---------------------------------------------------------------- one field

  /** Reading behind a prefix: same field, positions moved; an error stays a failure. */
  ghost predicate SameRead(r: Outcome<(Field, nat)>, s: Outcome<(Field, nat)>, offset: nat) {
    && (r.Ok? <==> s.Ok?)
    && (s.Ok? ==> r.value == (s.value.0, offset + s.value.1))
  }

  lemma ReadDataShift(a: bytes, b: bytes, pos: nat, num: fieldNum, e1: DecodeError, e2: DecodeError)
    requires |a + b| < TWO_63
    ensures SameRead(ReadData(a + b, |a| + pos, num, e1, e2), ReadData(b, pos, num, e1, e2), |a|)
  {
    ReadDataMeaning(a + b, |a| + pos, num, e1, e2);
    ReadDataMeaning(b, pos, num, e1, e2);
    DecodeVarintShift(a, b, pos);
    match DecodeVarint(b, pos)
    case Bad =>
    case Good(length, start) =>
      assert DecodeVarint(a + b, |a| + pos) == Good(length, |a| + start);
      if start + length <= |b| { SliceShift(a, b, start, start + length); }
  }

  lemma SliceShift(a: bytes, b: bytes, i: nat, j: nat)
    requires i <= j <= |b|
    ensures (a + b)[|a| + i..|a| + j] == b[i..j]
  {
  }

  lemma ReadValueShift(a: bytes, b: bytes, pos: nat, num: fieldNum, wire: nat)
    requires |a + b| < TWO_63
    ensures SameRead(ReadValue(a + b, |a| + pos, num, wire), ReadValue(b, pos, num, wire), |a|)
  {
    if wire == WIRE_VARINT {
      DecodeVarintShift(a, b, pos);
    } else if wire == WIRE_LEN {
      ReadDataShift(a, b, pos, num, BadLength(num), Truncated(num));
    }
  }

  lemma ReadFieldShift(a: bytes, b: bytes, pos: nat)
    requires |a + b| < TWO_63
    ensures SameRead(ReadField(a + b, |a| + pos), ReadField(b, pos), |a|)
  {
    DecodeVarintShift(a, b, pos);
    match DecodeVarint(b, pos)
    case Bad =>
    case Good(tag, next) => ReadValueShift(a, b, next, tag / 8, tag % 8);
  }

  lemma ReadDataExtends(a: bytes, b: bytes, pos: nat, num: fieldNum, e1: DecodeError, e2: DecodeError)
    requires ReadData(a, pos, num, e1, e2).Ok?
    ensures ReadData(a + b, pos, num, e1, e2) == ReadData(a, pos, num, e1, e2)
  {
    DecodeVarintExtends(a, b, pos);
    var Good(length, start) := DecodeVarint(a, pos);
    var end := SliceEnd(start, length);
    assert (a + b)[start..end] == a[start..end];
  }

  /** A field that was read is read the same when more bytes follow. */
  lemma ReadFieldExtends(a: bytes, b: bytes, pos: nat)
    requires ReadField(a, pos).Ok?
    ensures ReadField(a + b, pos) == ReadField(a, pos)
  {
    DecodeVarintExtends(a, b, pos);
    var Good(tag, next) := DecodeVarint(a, pos);
    if tag % 8 == WIRE_VARINT {
      DecodeVarintExtends(a, b, next);
    } else {
      ReadDataExtends(a, b, next, tag / 8, BadLength(tag / 8), Truncated(tag / 8));
    }
  }

  lemma TagParts(num: nat, wire: nat)
    requires wire < 8
    ensures (num * 8 + wire) / 8 == num && (num * 8 + wire) % 8 == wire
  {
  }

  function TagBytes(fd: Field): bytes {
    VarintBytes(fd.num * 8 + WireType(fd))
  }

  /** A tag is read as its number and wire type, and the value is looked for right behind it. */
  lemma ReadTagAt(buf: bytes, pos: nat, fd: Field)
    requires At(buf, pos, TagBytes(fd))
    ensures DecodeVarint(buf, pos).Good?
    ensures ReadField(buf, pos) == ReadValue(buf, pos + |TagBytes(fd)|, fd.num, WireType(fd))
  {
    TagParts(fd.num, WireType(fd));
    VarintAt(buf, pos, fd.num * 8 + WireType(fd));
  }

  lemma ReadDataAt(buf: bytes, pos: nat, num: fieldNum, data: bytes)
    requires |buf| < TWO_63 && At(buf, pos, VarintBytes(|data|) + data)
    ensures ReadData(buf, pos, num, BadLength(num), Truncated(num)) ==
            Ok((LenField(num, data), pos + |VarintBytes(|data|) + data|))
  {
    AtSplit(buf, pos, VarintBytes(|data|) + data, VarintBytes(|data|), data);
    AtSlice(buf, pos + |VarintBytes(|data|)|, data);
    VarintAt(buf, pos, |data|);
    ReadDataMeaning(buf, pos, num, BadLength(num), Truncated(num));
  }

  lemma ReadValueAt(buf: bytes, pos: nat, fd: Field)
    requires |buf| < TWO_63 && At(buf, pos, ValueBytes(fd))
    ensures ReadValue(buf, pos, fd.num, WireType(fd)) == Ok((fd, pos + |ValueBytes(fd)|))
  {
    match fd
    case VarintField(num, value) => VarintAt(buf, pos, value);
    case LenField(num, data) => ReadDataAt(buf, pos, num, data);
  }

  /** An encoded field is read back, whatever stands around it. */
  lemma ReadFieldAt(buf: bytes, pos: nat, fd: Field)
    requires |buf| < TWO_63 && At(buf, pos, EncodeField(fd))
    ensures ReadField(buf, pos) == Ok((fd, pos + |EncodeField(fd)|))
  {
    var mid := TagThenValue(buf, pos, fd);
    ReadParts(buf, pos, fd, mid, pos + |EncodeField(fd)|);
  }

  lemma ReadParts(buf: bytes, pos: nat, fd: Field, mid: nat, end: nat)
    requires |buf| < TWO_63 && At(buf, pos, TagBytes(fd)) && mid == pos + |TagBytes(fd)|
    requires At(buf, mid, ValueBytes(fd)) && end == mid + |ValueBytes(fd)|
    ensures ReadField(buf, pos) == Ok((fd, end))
  {
    ReadTagAt(buf, pos, fd);
    ReadValueAt(buf, mid, fd);
  }

  lemma TagThenValue(buf: bytes, pos: nat, fd: Field) returns (mid: nat)
    requires At(buf, pos, EncodeField(fd))
    ensures mid == pos + |TagBytes(fd)| && pos + |EncodeField(fd)| == mid + |ValueBytes(fd)|
    ensures At(buf, pos, TagBytes(fd)) && At(buf, mid, ValueBytes(fd))
  {
    mid := pos + |TagBytes(fd)|;
    AtSplit(buf, pos, EncodeField(fd), TagBytes(fd), ValueBytes(fd));
  }

  /** The buffer ends inside `s`, which starts at `pos`. */
  predicate EndsInside(buf: bytes, pos: nat, s: bytes) {
    pos <= |buf| && buf[pos..] < s
  }

  lemma EndsInsideSplit(buf: bytes, pos: nat, s: bytes, t: bytes)
    requires EndsInside(buf, pos, s + t)
    ensures EndsInside(buf, pos, s) || (At(buf, pos, s) && EndsInside(buf, pos + |s|, t))
  {
    var n := |buf| - pos;
    assert buf[pos..] == (s + t)[..n];
    if n < |s| {
      assert buf[pos..] == s[..n];
    } else {
      AtSlice(buf, pos, s);
      assert buf[pos..pos + |s|] == buf[pos..][..|s|] == s;
      assert buf[pos + |s|..] == buf[pos..][|s|..] == t[..n - |s|];
    }
  }

  lemma ReadValueCut(buf: bytes, pos: nat, fd: Field)
    requires EndsInside(buf, pos, ValueBytes(fd)) && pos + |ValueBytes(fd)| < TWO_63
    ensures ReadValue(buf, pos, fd.num, WireType(fd)).Err?
  {
    match fd {
      case VarintField(num, value) =>
        VarintCut(buf, pos, value);
      case LenField(num, data) =>
        EndsInsideSplit(buf, pos, VarintBytes(|data|), data);
        ReadDataMeaning(buf, pos, num, BadLength(num), Truncated(num));
        if EndsInside(buf, pos, VarintBytes(|data|)) {
          VarintCut(buf, pos, |data|);
        } else {
          VarintAt(buf, pos, |data|);
        }
    }
  }

  /** A cut inside a field is always reported as an error. */
  lemma ReadFieldCut(buf: bytes, pos: nat, fd: Field)
    requires pos < |buf| && pos + |EncodeField(fd)| < TWO_63
    requires EndsInside(buf, pos, EncodeField(fd))
    ensures ReadField(buf, pos).Err?
  {
    EndsInsideSplit(buf, pos, TagBytes(fd), ValueBytes(fd));
    if EndsInside(buf, pos, TagBytes(fd)) {
      VarintCut(buf, pos, fd.num * 8 + WireType(fd));
    } else {
      ReadTagAt(buf, pos, fd);
      ReadValueCut(buf, pos + |TagBytes(fd)|, fd);
    }
  }

  // ---------------------------------------------------------------- many fields

  /** Applying fields one after the other: the reference the byte-level decoder is compared with. */
  function ApplyAll(f: Frame, fs: seq<Field>): Outcome<Frame>
    decreases |fs|
  {
    if fs == [] then Ok(f)
    else match Apply(f, fs[0])
         case Ok(g) => ApplyAll(g, fs[1..])
         case Err(e) => Err(e)
         case Fault => Fault
  }

  lemma {:induction false} ApplyAllOne(f: Frame, fs: seq<Field>, fd: Field)
    requires ApplyAll(f, fs).Ok?
    ensures ApplyAll(f, fs + [fd]) == Apply(ApplyAll(f, fs).value, fd)
    decreases |fs|
  {
    if fs == [] {
      assert fs + [fd] == [fd];
    } else {
      assert (fs + [fd])[1..] == fs[1..] + [fd];
      ApplyAllOne(Apply(f, fs[0]).value, fs[1..], fd);
    }
  }

  lemma ConcatHead<T>(s: seq<T>, enc: T -> bytes)
    requires s != []
    ensures Concat(s, enc) == enc(s[0]) + Concat(s[1..], enc)
  {
  }

  /** Reading from `pos` yields exactly the fields `fs` and stops at `end`. */
  ghost predicate Reads(buf: bytes, pos: nat, fs: seq<Field>, end: nat)
    decreases |fs|
  {
    if fs == [] then pos == end
    else
      var r := ReadField(buf, pos);
      r.Ok? && r.value.0 == fs[0] && Reads(buf, r.value.1, fs[1..], end)
  }

  /** The first of the encoded fields, and the others behind it. */
  lemma ConcatHeadAt(buf: bytes, pos: nat, fs: seq<Field>, enc: Field -> bytes) returns (next: nat)
    requires fs != [] && At(buf, pos, Concat(fs, enc))
    ensures next == pos + |enc(fs[0])| && pos + |Concat(fs, enc)| == next + |Concat(fs[1..], enc)|
    ensures At(buf, pos, enc(fs[0])) && At(buf, next, Concat(fs[1..], enc))
  {
    next := pos + |enc(fs[0])|;
    ConcatHead(fs, enc);
    AtSplit(buf, pos, Concat(fs, enc), enc(fs[0]), Concat(fs[1..], enc));
  }

  lemma ReadFieldTo(buf: bytes, pos: nat, fd: Field, next: nat)
    requires |buf| < TWO_63 && At(buf, pos, EncodeField(fd)) && next == pos + |EncodeField(fd)|
    ensures ReadField(buf, pos) == Ok((fd, next))
  {
    ReadFieldAt(buf, pos, fd);
  }

  /** Encoded fields are read back in order. */
  lemma {:induction false} EncodedFieldsRead(buf: bytes, pos: nat, fs: seq<Field>, end: nat)
    requires |buf| < TWO_63 && At(buf, pos, EncodeFields(fs)) && end == pos + |EncodeFields(fs)|
    ensures Reads(buf, pos, fs, end)
    decreases |fs|
  {
    if fs != [] {
      var next := ConcatHeadAt(buf, pos, fs, EncodeField);
      EncodedFieldsRead(buf, next, fs[1..], end);
      ReadFieldTo(buf, pos, fs[0], next);
      ReadsOne(buf, pos, fs, next, end);
    }
  }

  lemma ReadsOne(buf: bytes, pos: nat, fs: seq<Field>, next: nat, end: nat)
    requires fs != [] && ReadField(buf, pos) == Ok((fs[0], next)) && Reads(buf, next, fs[1..], end)
    ensures Reads(buf, pos, fs, end)
  {
  }

  lemma {:induction false} DecodeReads(buf: bytes, pos: nat, fs: seq<Field>, end: nat, f: Frame)
    requires Reads(buf, pos, fs, end) && ApplyAll(f, fs).Ok?
    ensures DecodeFrame(buf, pos, f) == DecodeFrame(buf, end, ApplyAll(f, fs).value)
    decreases |fs|
  {
    if fs != [] {
      DecodeReads(buf, ReadField(buf, pos).value.1, fs[1..], end, Apply(f, fs[0]).value);
    }
  }

  // ---------------------------------------------------------------- headers

  lemma ReadHeaderFieldAt(buf: bytes, pos: nat, fd: Field)
    requires fd.LenField? && |buf| < TWO_63 && At(buf, pos, EncodeField(fd))
    ensures ReadHeaderField(buf, pos) == Ok((fd, pos + |EncodeField(fd)|))
  {
    var mid := TagThenValue(buf, pos, fd);
    TagParts(fd.num, WIRE_LEN);
    VarintAt(buf, pos, fd.num * 8 + WIRE_LEN);
    ReadFieldAt(buf, pos, fd);
  }

  /** A header message decodes to the header it was made from. */
  lemma HeaderRoundTrip(h: FrameHeader)
    requires |HeaderBytes(h)| < TWO_63
    ensures DecodeHeader(HeaderBytes(h), 0, EMPTY_HEADER) == Ok(h)
  {
    var buf, k, v := HeaderBytes(h), LenField(1, h.key), LenField(2, h.value);
    var e := |EncodeField(k)|;
    assert [] + EncodeField(k) == EncodeField(k);
    HeaderEncoding(h);
    AtHalves(EncodeField(k), EncodeField(v));
    ReadHeaderFieldAt(buf, 0, k);
    ReadHeaderFieldAt(buf, e, v);
    assert DecodeHeader(buf, |buf|, h) == Ok(h);
    assert DecodeHeader(buf, e, FrameHeader(h.key, [])) == Ok(h);
  }

  /** A length-delimited field with an arbitrary declared length: the value when it is there, a
      truncation error when it is not, and a run-time failure exactly when the length leads to 2^63. */
  lemma DeclaredLength(buf: bytes, pos: nat, num: fieldNum, tag: uint64, mid: nat, length: uint64, start: nat)
    requires |buf| < TWO_63 && tag == num * 8 + WIRE_LEN
    requires At(buf, pos, VarintBytes(tag)) && mid == pos + |VarintBytes(tag)|
    requires At(buf, mid, VarintBytes(length)) && start == mid + |VarintBytes(length)|
    ensures ReadField(buf, pos) ==
            if start + length <= |buf| then Ok((LenField(num, buf[start..start + length]), start + length))
            else if start + length < TWO_63 then Err(Truncated(num))
            else Fault
  {
    VarintAt(buf, pos, tag);
    DeclaredValue(buf, mid, num, length, start);
    TagParts(num, WIRE_LEN);
    assert ReadField(buf, pos) == ReadValue(buf, mid, num, WIRE_LEN);
  }

  lemma DeclaredValue(buf: bytes, mid: nat, num: fieldNum, length: uint64, start: nat)
    requires |buf| < TWO_63 && At(buf, mid, VarintBytes(length)) && start == mid + |VarintBytes(length)|
    ensures ReadValue(buf, mid, num, WIRE_LEN) ==
            if start + length <= |buf| then Ok((LenField(num, buf[start..start + length]), start + length))
            else if start + length < TWO_63 then Err(Truncated(num))
            else Fault
  {
    VarintAt(buf, mid, length);
    ReadDataMeaning(buf, mid, num, BadLength(num), Truncated(num));
  }

  // ---------------------------------------------------------------- a frame on top of another

  function Sent(k: nat, position: nat, data: bytes, old_: bytes): bytes {
    if data != [] && k > position then data else old_
  }

  function HeadersSent(f: Frame, k: nat): nat {
    if k < 4 then 0 else if k < 4 + |f.headers| then k - 4 else |f.headers|
  }

  /** `base` after the first `k` fields of `f`: scalars overwritten, headers appended. */
  function MergeUpTo(base: Frame, f: Frame, k: nat): Frame {
    var p6 := 4 + |f.headers|;
    var p7 := p6 + |Optional(6, f.payloadEncoding)|;
    var p8 := p7 + |Optional(7, f.payloadType)|;
    var p9 := p8 + |Optional(8, f.payload)|;
    Frame(
      if k > 0 then f.seqID else base.seqID,
      if k > 1 then f.logID else base.logID,
      if k > 2 then f.service else base.service,
      if k > 3 then f.method_ else base.method_,
      base.headers + f.headers[..HeadersSent(f, k)],
      Sent(k, p6, f.payloadEncoding, base.payloadEncoding),
      Sent(k, p7, f.payloadType, base.payloadType),
      Sent(k, p8, f.payload, base.payload),
      Sent(k, p9, f.logIDNew, base.logIDNew))
  }

  /** `base` overwritten by the whole of `f`. */
  function Merge(base: Frame, f: Frame): Frame {
    Frame(f.seqID, f.logID, f.service, f.method_, base.headers + f.headers,
      if f.payloadEncoding != [] then f.payloadEncoding else base.payloadEncoding,
      if f.payloadType != [] then f.payloadType else base.payloadType,
      if f.payload != [] then f.payload else base.payload,
      if f.logIDNew != [] then f.logIDNew else base.logIDNew)
  }

  lemma FieldFits(f: Frame, k: nat)
    requires k < |FieldsOf(f)|
    ensures |EncodeField(FieldsOf(f)[k])| <= |Encoding(f)|
  {
    ConcatContains(FieldsOf(f), EncodeField, k);
  }

  lemma {:induction false} ConcatContains<T>(s: seq<T>, enc: T -> bytes, i: nat)
    requires i < |s|
    ensures |enc(s[i])| <= |Concat(s, enc)|
  {
    if i > 0 { ConcatContains(s[1..], enc, i - 1); }
  }

  lemma ConcatAt<T>(a: seq<T>, b: seq<T>, k: nat)
    requires k < |a| + |b|
    ensures (a + b)[k] == if k < |a| then a[k] else b[k - |a|]
  {
  }

  lemma MergeHeader(base: Frame, f: Frame, k: nat)
    requires 4 <= k < 4 + |f.headers| && |HeaderBytes(f.headers[k - 4])| < TWO_63
    ensures Apply(MergeUpTo(base, f, k), LenField(5, HeaderBytes(f.headers[k - 4]))) == Ok(MergeUpTo(base, f, k + 1))
  {
    HeaderRoundTrip(f.headers[k - 4]);
    HeadersGrow(base.headers, f.headers, k - 4);
  }

  lemma HeadersGrow(base: seq<FrameHeader>, hs: seq<FrameHeader>, i: nat)
    requires i < |hs|
    ensures base + hs[..i] + [hs[i]] == base + hs[..i + 1]
  {
  }

  lemma MergeFixed(base: Frame, f: Frame, k: nat)
    requires k < 4
    ensures Apply(MergeUpTo(base, f, k), FixedFields(f)[k]) == Ok(MergeUpTo(base, f, k + 1))
  {
    Int32RoundTrip(f.service);
    Int32RoundTrip(f.method_);
  }

  lemma MergeOptional(base: Frame, f: Frame, j: nat)
    requires j < |OptionalFields(f)|
    ensures Apply(MergeUpTo(base, f, 4 + |f.headers| + j), OptionalFields(f)[j]) ==
            Ok(MergeUpTo(base, f, 4 + |f.headers| + j + 1))
  {
    var o6, o7 := Optional(6, f.payloadEncoding), Optional(7, f.payloadType);
    var o8, o9 := Optional(8, f.payload), Optional(9, f.logIDNew);
    ConcatAt(o6 + o7 + o8, o9, j);
    if j < |o6 + o7 + o8| { ConcatAt(o6 + o7, o8, j); }
    if j < |o6 + o7| { ConcatAt(o6, o7, j); }
  }

  lemma MergeStep(base: Frame, f: Frame, k: nat)
    requires |Encoding(f)| < TWO_63 && k < |FieldsOf(f)|
    ensures Apply(MergeUpTo(base, f, k), FieldsOf(f)[k]) == Ok(MergeUpTo(base, f, k + 1))
  {
    var fixed, headers, optional := FixedFields(f), HeaderListFields(f.headers), OptionalFields(f);
    ConcatAt(fixed + headers, optional, k);
    if k < |fixed + headers| { ConcatAt(fixed, headers, k); }
    if k < 4 {
      MergeFixed(base, f, k);
    } else if k < 4 + |f.headers| {
      MapAt(f.headers, HeaderField, k - 4);
      FieldFits(f, k);
      MergeHeader(base, f, k);
    } else {
      MergeOptional(base, f, k - 4 - |f.headers|);
    }
  }

  lemma PrefixGrows<T>(s: seq<T>, k: nat)
    requires k < |s|
    ensures s[..k + 1] == s[..k] + [s[k]]
  {
  }

  lemma {:induction false} ApplyPrefix(base: Frame, f: Frame, k: nat)
    requires |Encoding(f)| < TWO_63 && k <= |FieldsOf(f)|
    ensures ApplyAll(base, FieldsOf(f)[..k]) == Ok(MergeUpTo(base, f, k))
  {
    var fs := FieldsOf(f);
    if k == 0 {
      MergeNothing(base, f);
    } else {
      ApplyPrefix(base, f, k - 1);
      PrefixGrows(fs, k - 1);
      ApplyAllOne(base, fs[..k - 1], fs[k - 1]);
      MergeStep(base, f, k - 1);
    }
  }

  lemma MergeNothing(base: Frame, f: Frame)
    ensures MergeUpTo(base, f, 0) == base
  {
    assert base.headers + [] == base.headers;
  }

  lemma MergeComplete(base: Frame, f: Frame)
    ensures MergeUpTo(base, f, |FieldsOf(f)|) == Merge(base, f)
  {
    assert f.headers[..|f.headers|] == f.headers;
  }

  lemma ApplyWhole(base: Frame, f: Frame)
    requires |Encoding(f)| < TWO_63
    ensures ApplyAll(base, FieldsOf(f)) == Ok(Merge(base, f))
  {
    var fs := FieldsOf(f);
    assert fs[..|fs|] == fs;
    ApplyPrefix(base, f, |fs|);
    MergeComplete(base, f);
  }

  // ---------------------------------------------------------------- main results

  lemma FrameReads(buf: bytes, pos: nat, f: Frame, end: nat)
    requires |buf| < TWO_63 && At(buf, pos, Encoding(f)) && end == pos + |Encoding(f)|
    ensures Reads(buf, pos, FieldsOf(f), end)
  {
    EncodedFieldsRead(buf, pos, FieldsOf(f), end);
  }

  /** Last one wins: a frame's encoding, met anywhere while `base` is being built, merges into it. */
  lemma FrameMerges(buf: bytes, pos: nat, f: Frame, base: Frame, end: nat)
    requires |buf| < TWO_63 && At(buf, pos, Encoding(f)) && end == pos + |Encoding(f)|
    ensures DecodeFrame(buf, pos, base) == DecodeFrame(buf, end, Merge(base, f))
  {
    AtSlice(buf, pos, Encoding(f));
    FrameReads(buf, pos, f, end);
    ApplyWhole(base, f);
    DecodeReads(buf, pos, FieldsOf(f), end, base);
  }

  /** Round trip, for every frame whose encoding a Go slice can hold. */
  lemma FrameRoundTrip(f: Frame)
    requires |Encoding(f)| < TWO_63
    ensures DecodeFrame(Encoding(f), 0, EMPTY_FRAME) == Ok(f)
  {
    AtSlice(Encoding(f), 0, Encoding(f));
    FrameMerges(Encoding(f), 0, f, EMPTY_FRAME, |Encoding(f)|);
    assert [] + f.headers == f.headers;
  }

  lemma EncodingInjective(f: Frame, g: Frame)
    requires |Encoding(f)| < TWO_63 && Encoding(f) == Encoding(g)
    ensures f == g
  {
    FrameRoundTrip(f);
    FrameRoundTrip(g);
  }

  /** Two encodings one after the other decode to the second frame laid over the first. */
  lemma LastOneWins(f: Frame, g: Frame)
    requires |Encoding(f) + Encoding(g)| < TWO_63
    ensures DecodeFrame(Encoding(f) + Encoding(g), 0, EMPTY_FRAME) == Ok(Merge(f, g))
  {
    var buf := Encoding(f) + Encoding(g);
    AtHalves(Encoding(f), Encoding(g));
    FrameMerges(buf, 0, f, EMPTY_FRAME, |Encoding(f)|);
    assert [] + f.headers == f.headers;
    assert Merge(EMPTY_FRAME, f) == f;
    FrameMerges(buf, |Encoding(f)|, g, f, |buf|);
  }

  // ---------------------------------------------------------------- truncation

  /** Where the k-th field of a frame's encoding begins. */
  function Boundary(f: Frame, k: nat): nat
    requires k <= |FieldsOf(f)|
  {
    |EncodeFields(FieldsOf(f)[..k])|
  }

  lemma BoundaryStep(fs: seq<Field>, k: nat)
    requires k < |fs|
    ensures EncodeFields(fs[..k + 1]) == EncodeFields(fs[..k]) + EncodeField(fs[k])
  {
    PrefixGrows(fs, k);
    ConcatOne(fs[..k], fs[k], EncodeField);
  }

  lemma ConcatSplit<T>(s: seq<T>, k: nat, enc: T -> bytes)
    requires k <= |s|
    ensures Concat(s, enc) == Concat(s[..k], enc) + Concat(s[k..], enc)
  {
    assert s == s[..k] + s[k..];
    ConcatAppend(s[..k], s[k..], enc);
  }

  lemma PrefixOf(a: bytes, b: bytes)
    ensures a <= a + b && (a + b)[..|a|] == a
  {
  }

  /** The field a cut falls into: between two boundaries, or on one. */
  lemma {:induction false} FindField(fs: seq<Field>, c: nat, n: nat) returns (k: nat)
    requires n <= |fs| && c < |EncodeFields(fs[..n])|
    ensures k < n && |EncodeFields(fs[..k])| <= c < |EncodeFields(fs[..k + 1])|
    decreases n
  {
    if n > 0 && c < |EncodeFields(fs[..n - 1])| {
      k := FindField(fs, c, n - 1);
    } else {
      k := n - 1;
    }
  }

  lemma PrefixReads(buf: bytes, fs: seq<Field>, k: nat)
    requires k <= |fs| && |buf| < TWO_63 && EncodeFields(fs[..k]) <= buf
    ensures Reads(buf, 0, fs[..k], |EncodeFields(fs[..k])|)
  {
    AtSlice(buf, 0, EncodeFields(fs[..k]));
    EncodedFieldsRead(buf, 0, fs[..k], |EncodeFields(fs[..k])|);
  }

  /** What is decoded from a buffer that starts with the first `k` fields of a frame. */
  lemma PrefixDecodes(buf: bytes, f: Frame, k: nat)
    requires |Encoding(f)| < TWO_63 && |buf| < TWO_63
    requires k <= |FieldsOf(f)| && EncodeFields(FieldsOf(f)[..k]) <= buf
    ensures DecodeFrame(buf, 0, EMPTY_FRAME) == DecodeFrame(buf, Boundary(f, k), MergeUpTo(EMPTY_FRAME, f, k))
  {
    PrefixReads(buf, FieldsOf(f), k);
    ApplyPrefix(EMPTY_FRAME, f, k);
    DecodeReads(buf, 0, FieldsOf(f)[..k], Boundary(f, k), EMPTY_FRAME);
  }

  /** A cut on a field boundary decodes to the fields before it, nothing else. */
  lemma TruncatedAtBoundary(f: Frame, k: nat)
    requires |Encoding(f)| < TWO_63 && k <= |FieldsOf(f)|
    ensures Boundary(f, k) <= |Encoding(f)|
    ensures DecodeFrame(Encoding(f)[..Boundary(f, k)], 0, EMPTY_FRAME) == Ok(MergeUpTo(EMPTY_FRAME, f, k))
  {
    var fs := FieldsOf(f);
    ConcatSplit(fs, k, EncodeField);
    PrefixOf(EncodeFields(fs[..k]), EncodeFields(fs[k..]));
    PrefixDecodes(EncodeFields(fs[..k]), f, k);
  }

  /** A cut anywhere else is an error: never a frame, never a run-time failure. */
  lemma TruncatedInside(f: Frame, c: nat)
    requires |Encoding(f)| < TWO_63 && c <= |Encoding(f)|
    requires forall k :: 0 <= k <= |FieldsOf(f)| ==> c != Boundary(f, k)
    ensures DecodeFrame(Encoding(f)[..c], 0, EMPTY_FRAME).Err?
  {
    var fs, buf := FieldsOf(f), Encoding(f)[..c];
    assert fs[..|fs|] == fs;
    assert c != Boundary(f, |fs|);
    var k := FindField(fs, c, |fs|);
    assert c != Boundary(f, k);
    CutField(f, c, k);
  }

  lemma CutField(f: Frame, c: nat, k: nat)
    requires |Encoding(f)| < TWO_63 && k < |FieldsOf(f)|
    requires Boundary(f, k) < c < Boundary(f, k + 1) && c <= |Encoding(f)|
    ensures DecodeFrame(Encoding(f)[..c], 0, EMPTY_FRAME).Err?
  {
    CutSplits(f, c, k);
    PrefixDecodes(Encoding(f)[..c], f, k);
    ReadFieldCut(Encoding(f)[..c], Boundary(f, k), FieldsOf(f)[k]);
  }

  /** What is left of a frame cut inside a field: the fields before it, and the beginning of that field. */
  lemma CutSplits(f: Frame, c: nat, k: nat)
    requires |Encoding(f)| < TWO_63 && k < |FieldsOf(f)|
    requires Boundary(f, k) < c < Boundary(f, k + 1) && c <= |Encoding(f)|
    ensures var buf, fs := Encoding(f)[..c], FieldsOf(f);
            && EncodeFields(fs[..k]) <= buf && EndsInside(buf, Boundary(f, k), EncodeField(fs[k]))
            && Boundary(f, k) + |EncodeField(fs[k])| < TWO_63
  {
    var fs := FieldsOf(f);
    ConcatSplit(fs, k + 1, EncodeField);
    PrefixOf(EncodeFields(fs[..k + 1]), EncodeFields(fs[k + 1..]));
    BoundaryStep(fs, k);
    CutInside(Encoding(f), EncodeFields(fs[..k]), EncodeField(fs[k]), c);
  }

  lemma CutInside(all: bytes, before: bytes, cut: bytes, c: nat)
    requires before + cut <= all && |before| < c < |before| + |cut|
    ensures before <= all[..c] && EndsInside(all[..c], |before|, cut)
  {
    assert all[..c] == (before + cut)[..c];
    assert all[..c][|before|..] == cut[..c - |before|];
  }

  // ---------------------------------------------------------------- streaming

  /** If `a` decodes, decoding `a ++ b` is decoding `b` from the frame `a` left. */
  lemma {:induction false} DecodeContinues(a: bytes, b: bytes, pos: nat, f: Frame)
    requires pos <= |a| && DecodeFrame(a, pos, f).Ok?
    ensures DecodeFrame(a + b, pos, f) == DecodeFrame(a + b, |a|, DecodeFrame(a, pos, f).value)
    decreases |a| - pos
  {
    if pos < |a| {
      ReadFieldExtends(a, b, pos);
      var (fd, next) := ReadField(a, pos).value;
      DecodeContinues(a, b, next, Apply(f, fd).value);
    }
  }

  /** Two decodings succeed together, with the same frame. */
  ghost predicate SameFrame(r: Outcome<Frame>, s: Outcome<Frame>) {
    (r.Ok? <==> s.Ok?) && (r.Ok? ==> r == s)
  }

  /** Decoding `b` behind `a` succeeds with the same frame as decoding `b` alone. */
  lemma {:induction false} DecodeShift(a: bytes, b: bytes, pos: nat, f: Frame)
    requires |a + b| < TWO_63 && pos <= |b|
    ensures SameFrame(DecodeFrame(a + b, |a| + pos, f), DecodeFrame(b, pos, f))
    decreases |b| - pos
  {
    if pos < |b| {
      ReadFieldShift(a, b, pos);
      if ReadField(b, pos).Ok? {
        var (fd, next) := ReadField(b, pos).value;
        if Apply(f, fd).Ok? {
          DecodeShift(a, b, next, Apply(f, fd).value);
        }
      }
    }
  }

  /** Streaming: decoding is a fold that can be stopped and resumed at any point where it succeeds. */
  lemma Streaming(a: bytes, b: bytes, f: Frame, g: Frame)
    requires |a + b| < TWO_63 && DecodeFrame(a, 0, f) == Ok(g)
    ensures SameFrame(DecodeFrame(a + b, 0, f), DecodeFrame(b, 0, g))
  {
    DecodeContinues(a, b, 0, f);
    DecodeShift(a, b, 0, g);
  }

  /** A field the decoder has no case for. */
  predicate Unused(fd: Field) {
    match fd
    case VarintField(num, _) => num < 1 || num > 4
    case LenField(num, _) => num < 5 || num > 9
  }

  /** One well-formed field with an unused number between two parts changes nothing. */
  lemma UnknownFieldSkipped(a: bytes, u: bytes, b: bytes, fd: Field)
    requires |a + u + b| < TWO_63
    requires ReadField(u, 0) == Ok((fd, |u|)) && Unused(fd)
    requires DecodeFrame(a, 0, EMPTY_FRAME).Ok?
    ensures SameFrame(DecodeFrame(a + u + b, 0, EMPTY_FRAME), DecodeFrame(a + b, 0, EMPTY_FRAME))
  {
    var g := DecodeFrame(a, 0, EMPTY_FRAME).value;
    assert DecodeFrame(u, 0, g) == DecodeFrame(u, |u|, g) == Ok(g);
    Streaming(a, u, EMPTY_FRAME, g);
    Streaming(a + u, b, EMPTY_FRAME, g);
    Streaming(a, b, EMPTY_FRAME, g);
  }
}
