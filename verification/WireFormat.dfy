/** What decoding does with the bytes of a field, in numerals: which tags are varints, which carry a
    length, what every other one is, and where each of the nine fields of a frame lands. */
module WireFormat {
  import opened Words
  import opened Varint
  import opened Frames
  import opened FrameLaws

  /** A field by its tag t: number t / 8, wire type t % 8, of which only 0 and 2 are known. */
  lemma FieldByTag(buf: bytes, pos: nat)
    requires |buf| < 0x8000_0000_0000_0000
    ensures ReadField(buf, pos) ==
            match DecodeVarint(buf, pos)
            case Bad => Err(BadTag(pos))
            case Good(tag, mid) =>
              if tag % 8 == 0 then
                (match DecodeVarint(buf, mid)
                 case Bad => Err(BadValue(tag / 8))
                 case Good(v, next) => Ok((VarintField(tag / 8, v), next)))
              else if tag % 8 == 2 then
                (match DecodeVarint(buf, mid)
                 case Bad => Err(BadLength(tag / 8))
                 case Good(length, start) =>
                   if start + length <= |buf| then Ok((LenField(tag / 8, buf[start..start + length]), start + length))
                   else if start + length < 0x8000_0000_0000_0000 then Err(Truncated(tag / 8))
                   else Fault)
              else Err(UnknownWire(tag % 8, tag / 8))
  {
    match DecodeVarint(buf, pos)
    case Bad =>
    case Good(tag, mid) => ReadDataMeaning(buf, mid, tag / 8, BadLength(tag / 8), Truncated(tag / 8));
  }

  /** A field of a header: only wire type 2 is known. */
  lemma HeaderFieldByTag(buf: bytes, pos: nat)
    requires |buf| < 0x8000_0000_0000_0000
    ensures ReadHeaderField(buf, pos) ==
            match DecodeVarint(buf, pos)
            case Bad => Err(HeaderBadTag)
            case Good(tag, mid) =>
              if tag % 8 != 2 then Err(HeaderWire(tag / 8))
              else
                match DecodeVarint(buf, mid)
                case Bad => Err(HeaderBadLength)
                case Good(length, start) =>
                  if start + length <= |buf| then Ok((LenField(tag / 8, buf[start..start + length]), start + length))
                  else if start + length < 0x8000_0000_0000_0000 then Err(HeaderTruncated)
                  else Fault
  {
    match DecodeVarint(buf, pos)
    case Bad =>
    case Good(tag, mid) => ReadDataMeaning(buf, mid, tag / 8, HeaderBadLength, HeaderTruncated);
  }

  /** The tags 0x08, 0x10, 0x18 and 0x20 set the two ids, the service and the method; of the last two the
      low 32 bits count, as a signed value. */
  lemma ScalarLands(buf: bytes, pos: nat, tag: byte, v: uint64, low: int32, next: nat, f: Frame)
    requires |buf| < 0x8000_0000_0000_0000 && tag in {0x08, 0x10, 0x18, 0x20}
    requires At(buf, pos, [tag] + VarintBytes(v)) && next == pos + 1 + |VarintBytes(v)|
    requires (v - low) % 0x1_0000_0000 == 0
    ensures DecodeFrame(buf, pos, f) ==
            DecodeFrame(buf, next, if tag == 0x08 then f.(seqID := v) else if tag == 0x10 then f.(logID := v)
                                   else if tag == 0x18 then f.(service := low) else f.(method_ := low))
  {
    var num: fieldNum := tag / 8;
    var fd := VarintField(num, v);
    FieldWire(fd);
    ReadFieldAt(buf, pos, fd);
    TruncateMeans(v, low);
    Lands(buf, pos, fd, next, f);
  }

  /** The tags 0x32, 0x3a, 0x42 and 0x4a set the payload's encoding and type, the payload, and the new log id. */
  lemma BytesLand(buf: bytes, pos: nat, tag: byte, data: bytes, next: nat, f: Frame)
    requires |buf| < 0x8000_0000_0000_0000 && tag in {0x32, 0x3a, 0x42, 0x4a}
    requires At(buf, pos, [tag] + VarintBytes(|data|) + data) && next == pos + 1 + |VarintBytes(|data|)| + |data|
    ensures DecodeFrame(buf, pos, f) ==
            DecodeFrame(buf, next, if tag == 0x32 then f.(payloadEncoding := data)
                                   else if tag == 0x3a then f.(payloadType := data)
                                   else if tag == 0x42 then f.(payload := data) else f.(logIDNew := data))
  {
    var num: fieldNum := tag / 8;
    LengthReads(buf, pos, num, data, next);
    Lands(buf, pos, LenField(num, data), next, f);
  }

  /** The tag 0x2a adds a header; in it 0x0a is the key and 0x12 the value. */
  lemma HeaderLands(buf: bytes, pos: nat, h: FrameHeader, next: nat, f: Frame)
    requires |buf| < 0x8000_0000_0000_0000 && |WireOfHeader(h)| < 0x8000_0000_0000_0000
    requires At(buf, pos, [0x2a] + VarintBytes(|WireOfHeader(h)|) + WireOfHeader(h))
    requires next == pos + 1 + |VarintBytes(|WireOfHeader(h)|)| + |WireOfHeader(h)|
    ensures DecodeFrame(buf, pos, f) == DecodeFrame(buf, next, f.(headers := f.headers + [h]))
  {
    var data := WireOfHeader(h);
    HeaderIsWire(h);
    LengthReads(buf, pos, 5, data, next);
    HeaderRoundTrip(h);
    Lands(buf, pos, LenField(5, data), next, f);
  }

  lemma LengthReads(buf: bytes, pos: nat, num: fieldNum, data: bytes, next: nat)
    requires |buf| < 0x8000_0000_0000_0000 && num < 16
    requires At(buf, pos, [num * 8 + 2] + VarintBytes(|data|) + data)
    requires next == pos + 1 + |VarintBytes(|data|)| + |data|
    ensures ReadField(buf, pos) == Ok((LenField(num, data), next)) && pos < |buf|
  {
    FieldWire(LenField(num, data));
    ReadFieldAt(buf, pos, LenField(num, data));
  }

  lemma Lands(buf: bytes, pos: nat, fd: Field, next: nat, f: Frame)
    requires pos < |buf| && ReadField(buf, pos) == Ok((fd, next)) && Apply(f, fd).Ok?
    ensures DecodeFrame(buf, pos, f) == DecodeFrame(buf, next, Apply(f, fd).value)
  {
  }
}
