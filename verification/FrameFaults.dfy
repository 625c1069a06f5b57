/** Decoding that does not return a frame: exactly which buffers make a slice expression fail at run
    time, and what is handed back beside an error. */
module FrameFaults {
  import opened Words
  import opened Varint
  import opened Frames
  import opened FrameLaws

  // ---------------------------------------------------------------- run-time failures

  /** A length-delimited field at `pos` whose declared length leads to 2^63 or beyond. */
  predicate Overflows(buf: bytes, pos: nat) {
    match DecodeVarint(buf, pos)
    case Bad => false
    case Good(tag, mid) =>
      tag % 8 == WIRE_LEN &&
      match DecodeVarint(buf, mid)
      case Bad => false
      case Good(length, start) => start + length >= TWO_63
  }

  lemma OverflowFaults(buf: bytes, pos: nat)
    requires |buf| < TWO_63
    ensures ReadField(buf, pos).Fault? <==> Overflows(buf, pos)
    ensures ReadHeaderField(buf, pos).Fault? <==> Overflows(buf, pos)
    ensures Overflows(buf, pos) ==> pos < |buf|
  {
    match DecodeVarint(buf, pos)
    case Bad =>
    case Good(tag, mid) =>
      ReadDataMeaning(buf, mid, tag / 8, BadLength(tag / 8), Truncated(tag / 8));
      ReadDataMeaning(buf, mid, tag / 8, HeaderBadLength, HeaderTruncated);
  }

  ghost predicate AllLen(fs: seq<Field>) {
    forall fd :: fd in fs ==> fd.LenField?
  }

  /** The two readers agree on length-delimited fields, and headers have no others. */
  lemma HeaderReadsField(buf: bytes, pos: nat, fd: Field, next: nat)
    requires |buf| < TWO_63
    ensures ReadHeaderField(buf, pos) == Ok((fd, next)) <==> fd.LenField? && ReadField(buf, pos) == Ok((fd, next))
  {
    match DecodeVarint(buf, pos)
    case Bad =>
    case Good(tag, mid) =>
      ReadDataMeaning(buf, mid, tag / 8, BadLength(tag / 8), Truncated(tag / 8));
      ReadDataMeaning(buf, mid, tag / 8, HeaderBadLength, HeaderTruncated);
  }

  /** From `pos` on, length-delimited fields can be read up to one that overflows. */
  ghost predicate HeaderOverflows(buf: bytes, pos: nat) {
    exists fs, end: nat :: Reads(buf, pos, fs, end) && AllLen(fs) && Overflows(buf, end)
  }

  lemma {:induction false} HeaderFaultReads(buf: bytes, pos: nat, h: FrameHeader) returns (fs: seq<Field>, end: nat)
    requires |buf| < TWO_63 && DecodeHeader(buf, pos, h).Fault?
    ensures Reads(buf, pos, fs, end) && AllLen(fs) && Overflows(buf, end)
    decreases |buf| - pos
  {
    OverflowFaults(buf, pos);
    if ReadHeaderField(buf, pos).Fault? {
      fs, end := [], pos;
    } else {
      var (fd, next) := ReadHeaderField(buf, pos).value;
      HeaderReadsField(buf, pos, fd, next);
      var rest;
      rest, end := HeaderFaultReads(buf, next, ApplyHeader(h, fd));
      fs := [fd] + rest;
      assert fs[1..] == rest;
      ReadsOne(buf, pos, fs, next, end);
    }
  }

  lemma {:induction false} HeaderReadsFault(buf: bytes, pos: nat, h: FrameHeader, fs: seq<Field>, end: nat)
    requires |buf| < TWO_63 && Reads(buf, pos, fs, end) && AllLen(fs) && Overflows(buf, end)
    ensures DecodeHeader(buf, pos, h).Fault?
    decreases |fs|
  {
    if fs == [] {
      OverflowFaults(buf, pos);
    } else {
      var next := ReadField(buf, pos).value.1;
      assert fs[0] in fs;
      HeaderReadsField(buf, pos, fs[0], next);
      HeaderReadsFault(buf, next, ApplyHeader(h, fs[0]), fs[1..], end);
    }
  }

  /** Exactly when decoding a header fails at run time. */
  lemma HeaderFaultIff(buf: bytes)
    requires |buf| < TWO_63
    ensures DecodeHeader(buf, 0, EMPTY_HEADER).Fault? <==> HeaderOverflows(buf, 0)
  {
    if DecodeHeader(buf, 0, EMPTY_HEADER).Fault? {
      var fs, end := HeaderFaultReads(buf, 0, EMPTY_HEADER);
    }
    if HeaderOverflows(buf, 0) {
      var fs, end: nat :| Reads(buf, 0, fs, end) && AllLen(fs) && Overflows(buf, end);
      HeaderReadsFault(buf, 0, EMPTY_HEADER, fs, end);
    }
  }

  /** What stands at `pos` cannot be sliced: its own length overflows, or it is a complete header whose
      payload does. */
  ghost predicate Unsliceable(buf: bytes, pos: nat) {
    || Overflows(buf, pos)
    || exists data, next: nat :: HeaderStands(buf, pos, data, next) && HeaderOverflows(data, 0)
  }

  predicate HeaderStands(buf: bytes, pos: nat, data: bytes, next: nat) {
    ReadField(buf, pos) == Ok((LenField(5, data), next))
  }

  /** Fields can be read and applied up to one that cannot be sliced. */
  ghost predicate FrameOverflows(buf: bytes, pos: nat, f: Frame) {
    exists fs, end: nat :: Reaches(buf, pos, f, fs, end) && Unsliceable(buf, end)
  }

  ghost predicate Reaches(buf: bytes, pos: nat, f: Frame, fs: seq<Field>, end: nat) {
    Reads(buf, pos, fs, end) && ApplyAll(f, fs).Ok?
  }

  /** A field that was read is shorter than the buffer. */
  lemma ReadIsShort(buf: bytes, pos: nat)
    requires |buf| < TWO_63
    ensures var r := ReadField(buf, pos); r.Ok? && r.value.0.LenField? ==> |r.value.0.data| < TWO_63
  {
    match DecodeVarint(buf, pos)
    case Bad =>
    case Good(tag, mid) => ReadDataMeaning(buf, mid, tag / 8, BadLength(tag / 8), Truncated(tag / 8));
  }

  lemma UnsliceableFaults(buf: bytes, pos: nat, f: Frame)
    requires |buf| < TWO_63
    ensures Unsliceable(buf, pos) <==>
            ReadField(buf, pos).Fault? || (ReadField(buf, pos).Ok? && Apply(f, ReadField(buf, pos).value.0).Fault?)
    ensures Unsliceable(buf, pos) ==> pos < |buf|
  {
    OverflowFaults(buf, pos);
    ReadIsShort(buf, pos);
    if ReadField(buf, pos).Ok? {
      var (fd, next) := ReadField(buf, pos).value;
      if fd.LenField? && fd.num == 5 {
        HeaderFaultIff(fd.data);
        assert HeaderStands(buf, pos, fd.data, next);
      }
    }
  }

  lemma {:induction false} FrameFaultReads(buf: bytes, pos: nat, f: Frame) returns (fs: seq<Field>, end: nat)
    requires |buf| < TWO_63 && DecodeFrame(buf, pos, f).Fault?
    ensures Reaches(buf, pos, f, fs, end) && Unsliceable(buf, end)
    decreases |buf| - pos
  {
    UnsliceableFaults(buf, pos, f);
    if Unsliceable(buf, pos) {
      fs, end := [], pos;
    } else {
      var (fd, next) := ReadField(buf, pos).value;
      var rest;
      rest, end := FrameFaultReads(buf, next, Apply(f, fd).value);
      fs := [fd] + rest;
      assert fs[1..] == rest;
      ReadsOne(buf, pos, fs, next, end);
    }
  }

  /** From any position and any frame built so far: exactly when decoding fails at run time instead of
      returning: some fields can be read and applied, and at the next one the length, or a length inside a
      header, leads to 2^63. */
  lemma FrameFaultIff(buf: bytes, pos: nat, f: Frame)
    requires |buf| < TWO_63
    ensures DecodeFrame(buf, pos, f).Fault? <==> FrameOverflows(buf, pos, f)
  {
    if DecodeFrame(buf, pos, f).Fault? {
      var fs, end := FrameFaultReads(buf, pos, f);
    }
    if FrameOverflows(buf, pos, f) {
      var fs, end: nat :| Reaches(buf, pos, f, fs, end) && Unsliceable(buf, end);
      DecodeReads(buf, pos, fs, end, f);
      UnsliceableFaults(buf, end, ApplyAll(f, fs).value);
    }
  }

  /** A buffer that does fail: field 6 with the largest length a varint can declare. */
  const FAULTING: bytes := [0x32, 0xff, 0xff, 0xff, 0xff, 0xff, 0xff, 0xff, 0xff, 0xff, 0x01]

  lemma FaultingBuffer()
    ensures DecodeFrame(FAULTING, 0, EMPTY_FRAME) == Fault
  {
    LargestLength(FAULTING);
    VarintEndAt(FAULTING, 0, 1);
    VarintEndAt(FAULTING, 1, 11);
    OverflowFaults(FAULTING, 0);
  }

  lemma LargestLength(s: bytes)
    requires s == FAULTING
    ensures Groups(s, 0, 1) == 0x32 && Groups(s, 1, 11) == TWO_64 - 1
  {
    assert Groups(s, 1, 1) == 0;
    assert Groups(s, 10, 11) == 1;
    assert Groups(s, 9, 11) == 0xff;
    assert Groups(s, 8, 11) == 0x7fff;
    assert Groups(s, 7, 11) == 0x3f_ffff;
    assert Groups(s, 6, 11) == 0x1fff_ffff;
    assert Groups(s, 5, 11) == 0xf_ffff_ffff;
    assert Groups(s, 4, 11) == 0x7ff_ffff_ffff;
    assert Groups(s, 3, 11) == 0x3_ffff_ffff_ffff;
    assert Groups(s, 2, 11) == 0x1ff_ffff_ffff_ffff;
  }

  /** What a caller can check: no varint readable anywhere in the buffer leads, added to the length of the
      buffer, to 2^63. */
  ghost predicate LengthsSmall(buf: bytes) {
    forall p: nat :: DecodeVarint(buf, p).Good? ==> DecodeVarint(buf, p).value + |buf| < TWO_63
  }

  lemma SmallNeverOverflows(buf: bytes, pos: nat)
    requires LengthsSmall(buf)
    ensures !Overflows(buf, pos)
  {
    match DecodeVarint(buf, pos)
    case Bad =>
    case Good(tag, mid) => assert DecodeVarint(buf, mid).Good? ==> DecodeVarint(buf, mid).next <= |buf|;
  }

  /** A slice of such a buffer is one too. */
  lemma SmallSlice(buf: bytes, i: nat, j: nat)
    requires LengthsSmall(buf) && i <= j <= |buf|
    ensures LengthsSmall(buf[i..j])
  {
    var s := buf[i..j];
    forall p: nat | DecodeVarint(s, p).Good? ensures DecodeVarint(s, p).value + |s| < TWO_63 {
      DecodeVarintExtends(s, buf[j..], p);
      DecodeVarintShift(buf[..i], s + buf[j..], p);
      assert buf[..i] + (s + buf[j..]) == buf;
      assert DecodeVarint(buf, i + p).Good?;
    }
  }

  /** Then decoding never fails at run time, headers included. */
  lemma SmallNeverFaults(buf: bytes, pos: nat, f: Frame)
    requires |buf| < TWO_63 && LengthsSmall(buf)
    ensures !DecodeFrame(buf, pos, f).Fault?
  {
    if DecodeFrame(buf, pos, f).Fault? {
      var fs, end := FrameFaultReads(buf, pos, f);
      SmallNeverOverflows(buf, end);
      var data, next: nat :| HeaderStands(buf, end, data, next) && HeaderOverflows(data, 0);
      HeaderIsSlice(buf, end, data, next);
      var hs, at: nat :| Reads(data, 0, hs, at) && AllLen(hs) && Overflows(data, at);
      SmallNeverOverflows(data, at);
    }
  }

  lemma HeaderIsSlice(buf: bytes, pos: nat, data: bytes, next: nat)
    requires |buf| < TWO_63 && LengthsSmall(buf) && HeaderStands(buf, pos, data, next)
    ensures LengthsSmall(data)
  {
    var tag, mid := DecodeVarint(buf, pos).value, DecodeVarint(buf, pos).next;
    ReadDataMeaning(buf, mid, tag / 8, BadLength(tag / 8), Truncated(tag / 8));
    var start := DecodeVarint(buf, mid).next;
    SmallSlice(buf, start, start + DecodeVarint(buf, mid).value);
  }

  // ---------------------------------------------------------------- what comes back beside an error

  lemma {:induction false} ReachedReads(buf: bytes, pos: nat, fs: seq<Field>, end: nat, f: Frame)
    requires Reaches(buf, pos, f, fs, end)
    ensures FrameReached(buf, pos, f) == FrameReached(buf, end, ApplyAll(f, fs).value)
    decreases |fs|
  {
    if fs != [] {
      ReachedReads(buf, ReadField(buf, pos).value.1, fs[1..], end, Apply(f, fs[0]).value);
    }
  }

  /** Without an error it is the decoded frame. */
  lemma {:induction false} ReachedIsDecoded(buf: bytes, pos: nat, f: Frame)
    requires DecodeFrame(buf, pos, f).Ok?
    ensures DecodeFrame(buf, pos, f) == Ok(FrameReached(buf, pos, f))
    decreases |buf| - pos
  {
    if pos < |buf| {
      var (fd, next) := ReadField(buf, pos).value;
      ReachedIsDecoded(buf, next, Apply(f, fd).value);
    }
  }

  /** A frame cut inside a field: an error, and beside it exactly the fields before the one that was cut. */
  lemma TruncatedPartial(f: Frame, c: nat, k: nat)
    requires |Encoding(f)| < TWO_63 && k < |FieldsOf(f)| && c <= |Encoding(f)|
    requires Boundary(f, k) < c < Boundary(f, k + 1)
    ensures DecodeFrame(Encoding(f)[..c], 0, EMPTY_FRAME).Err?
    ensures FrameReached(Encoding(f)[..c], 0, EMPTY_FRAME) == MergeUpTo(EMPTY_FRAME, f, k)
  {
    var fs, buf := FieldsOf(f), Encoding(f)[..c];
    CutField(f, c, k);
    CutSplits(f, c, k);
    PrefixReads(buf, fs, k);
    ApplyPrefix(EMPTY_FRAME, f, k);
    ReachedReads(buf, 0, fs[..k], Boundary(f, k), EMPTY_FRAME);
    ReadFieldCut(buf, Boundary(f, k), fs[k]);
  }
}
