/** Base-128 varints of the Feishu frame codec: the encoder that fills a ten-byte buffer
    and the decoder that shifts and ORs seven-bit groups into a 64-bit word, both proved
    against the arithmetic meaning of a varint. */
module Varint {
  import opened Words

  /** Outcome of reading one varint: the word and the position behind it, or failure. */
  datatype Decoded = Bad | Good(value: uint64, next: nat)

  /** The number the bytes from `lo` to `hi` stand for: the low seven bits of each, least significant first. */
  function Groups(s: seq<byte>, lo: nat, hi: nat): nat
    requires hi <= |s|
    decreases hi - lo
  {
    if lo >= hi then 0 else s[lo] % 128 + 128 * Groups(s, lo + 1, hi)
  }

  /** The longest varint of a 64-bit word. */
  const LONGEST: nat := 10

  /** Position behind the first byte with a clear top bit, searched for from `pos` on among the bytes less
      than ten behind `start`; 0 if there is none. */
  function VarintEnd(buf: seq<byte>, start: nat, pos: nat): (end: nat)
    ensures end > 0 ==> pos < end <= |buf| && end <= start + LONGEST
    decreases |buf| - pos
  {
    if pos >= |buf| || pos >= start + LONGEST then 0
    else if buf[pos] < 128 then pos + 1
    else VarintEnd(buf, start, pos + 1)
  }

  /** What reading a varint at `pos` means: at most ten bytes, their groups taken modulo 2^64. */
  function DecodeVarint(buf: seq<byte>, pos: nat): (d: Decoded)
    ensures d.Good? ==> pos < d.next <= |buf| && d.next <= pos + 10
  {
    var end := VarintEnd(buf, pos, pos);
    if end == 0 then Bad else Good(Groups(buf, pos, end) % 0x1_0000_0000_0000_0000, end)
  }

  /** The encoding of a number: seven bits a byte, top bit set on all but the last. */
  function VarintBytes(v: nat): (s: seq<byte>)
    ensures |s| > 0
  {
    if v < 128 then [v] else [v % 128 + 128] + VarintBytes(v / 128)
  }

  /** Every byte before the end of a varint has its top bit set, and the last one has not. */
  lemma {:induction false} VarintEndMeaning(buf: seq<byte>, start: nat, pos: nat)
    ensures var end := VarintEnd(buf, start, pos);
            && (end == 0 ==> forall i :: pos <= i < |buf| && i < start + LONGEST ==> buf[i] >= 128)
            && (end > 0 ==> buf[end - 1] < 128 && forall i :: pos <= i < end - 1 ==> buf[i] >= 128)
    decreases |buf| - pos
  {
    if pos < |buf| && pos < start + LONGEST && buf[pos] >= 128 { VarintEndMeaning(buf, start, pos + 1); }
  }

  lemma {:induction false} VarintShape(v: nat)
    ensures var s := VarintBytes(v);
            s[|s| - 1] < 128 && forall i :: 0 <= i < |s| - 1 ==> s[i] >= 128
  {
    if v >= 128 { VarintShape(v / 128); }
  }

  // ---------------------------------------------------------------- arithmetic of groups

  lemma {:induction false} GroupsAppend(s: seq<byte>, lo: nat, hi: nat)
    requires lo <= hi < |s|
    ensures Groups(s, lo, hi + 1) == Groups(s, lo, hi) + Double(s[hi] % 128, 7 * (hi - lo))
    decreases hi - lo
  {
    if lo == hi {
      assert Groups(s, lo + 1, hi + 1) == 0;
    } else {
      GroupsAppend(s, lo + 1, hi);
      DoubleSeven(s[hi] % 128, 7 * (hi - (lo + 1)));
    }
  }

  lemma {:induction false} GroupsBound(s: seq<byte>, lo: nat, hi: nat)
    requires lo <= hi <= |s|
    ensures Groups(s, lo, hi) < Double(1, 7 * (hi - lo))
    decreases hi - lo
  {
    if lo < hi {
      GroupsBound(s, lo + 1, hi);
      DoubleSeven(1, 7 * (hi - (lo + 1)));
    }
  }

  lemma GroupsSmall(s: seq<byte>, lo: nat, hi: nat)
    requires lo <= hi <= |s| && hi - lo <= 9
    ensures Groups(s, lo, hi) < TWO_63
  {
    var k := 63;
    GroupsBound(s, lo, hi);
    DoubleMono(1, 7 * (hi - lo), k);
    DoubleSixtyThree(k);
  }

  lemma StepBounds(s: seq<byte>, lo: nat, hi: nat, k: nat)
    requires lo <= hi < |s| && hi - lo <= 9 && k == 7 * (hi - lo)
    ensures Groups(s, lo, hi) < TWO_63 && Groups(s, lo, hi) < Double(1, k)
    ensures Groups(s, lo, hi + 1) == Groups(s, lo, hi) + Double(s[hi] % 128, k)
    ensures k == 63 || Groups(s, lo, hi + 1) < TWO_63
  {
    GroupsSmall(s, lo, hi);
    GroupsBound(s, lo, hi);
    GroupsAppend(s, lo, hi);
    if hi - lo < 9 { GroupsSmall(s, lo, hi + 1); }
  }

  /** One step of the decoder: OR-ing the shifted group into the accumulated word
      appends the group modulo 2^64, also for the tenth byte whose high bits fall off. */
  lemma OrStep(s: seq<byte>, lo: nat, hi: nat, k: nat)
    requires lo <= hi < |s| && hi - lo <= 9 && k == 7 * (hi - lo)
    ensures Groups(s, lo, hi) < TWO_63
    ensures var w := BitOr(Groups(s, lo, hi), Shl(s[hi] % 128, k));
            && w == Groups(s, lo, hi + 1) % TWO_64
            && (hi - lo < 9 ==> w == Groups(s, lo, hi + 1))
  {
    StepBounds(s, lo, hi, k);
    OrShifted(Groups(s, lo, hi), s[hi] % 128, k);
    if hi - lo < 9 { SmallModulo(Groups(s, lo, hi + 1)); }
  }

  lemma OrShifted(v: nat, x: nat, k: nat)
    requires x < 128 && v < TWO_63 && v < Double(1, k)
    requires k == 63 || v + Double(x, k) < TWO_63
    ensures BitOr(v, Shl(x, k)) == (v + Double(x, k)) % TWO_64
  {
    if k == 63 { OrTenth(v, x, k); } else { OrLow(v, x, k); }
  }

  lemma OrLow(v: nat, x: nat, k: nat)
    requires x < 128 && v < Double(1, k) && v + Double(x, k) < TWO_63
    ensures BitOr(v, Shl(x, k)) == (v + Double(x, k)) % TWO_64
  {
    BitOrAbove(v, x, k);
    SmallModulo(Double(x, k));
    SmallModulo(v + Double(x, k));
  }

  lemma OrTenth(v: nat, x: nat, k: nat)
    requires x < 128 && v < TWO_63 && k == 63
    ensures BitOr(v, Shl(x, k)) == (v + Double(x, k)) % TWO_64
  {
    var high, low := x / 2, x % 2;
    TenthGroup(high, low, k);
    BitOrAbove(v, low, k);
    ModuloPlus(high, v + Double(low, k));
  }

  lemma TenthGroup(high: nat, low: nat, k: nat)
    requires high < 64 && low <= 1 && k == 63
    ensures Double(1, k) == TWO_63
    ensures Double(low, k) <= TWO_63
    ensures Double(2 * high + low, k) == high * TWO_64 + Double(low, k)
    ensures Shl(2 * high + low, k) == Double(low, k)
  {
    DoubleSixtyThree(k);
    DoubleLinear(2 * high + low, k);
    DoubleLinear(low, k);
    ModuloPlus(high, Double(low, k));
  }

  // ---------------------------------------------------------------- decoder and encoder

  /** The shift-and-OR loop. A new position of -1 reports failure. */
  method PbDecodeVarint(buf: seq<byte>, start: nat) returns (value: uint64, newPos: int)
    ensures DecodeVarint(buf, start) == if newPos < 0 then Bad else Good(value, newPos)
    ensures newPos < 0 ==> newPos == -1 && value == 0
  {
    var v: uint64, shift: nat, pos := 0, 0, start;
    while pos < |buf|
      invariant start <= pos <= start + 9 && shift == 7 * (pos - start)
      invariant pos <= |buf| || pos == start
      invariant pos <= |buf| ==> v == Groups(buf, start, pos)
      invariant VarintEnd(buf, start, start) == VarintEnd(buf, start, pos)
    {
      var b := buf[pos];
      OrStep(buf, start, pos, shift);
      pos := pos + 1;
      v := BitOr(v, Shl(b % 128, shift));
      if b < 0x80 {
        return v, pos;
      }
      shift := shift + 7;
      if shift > 63 {
        return 0, -1;
      }
    }
    return 0, -1;
  }

  /** The encoding loop over a fixed ten-byte buffer; every store is inside it. */
  method PbVarint(value: uint64) returns (out: seq<byte>)
    ensures out == VarintBytes(value) && |out| <= 10
  {
    EncodingAtMostTen(value);
    ghost var all := VarintBytes(value);
    var buf := new byte[10];
    var v: uint64, n: nat := value, 0;
    while v >= 0x80
      invariant n < |all| && n <= 9
      invariant all[n..] == VarintBytes(v)
      invariant forall i :: 0 <= i < n ==> buf[i] == all[i]
      decreases v
    {
      EncodingTail(all, n, v);
      buf[n] := WithTopBit(v % 256);
      LowSeven(v);
      v := v / 128;
      n := n + 1;
    }
    buf[n] := v;
    assert all == all[..n] + [v];
    return buf[..n + 1];
  }

  lemma LowSeven(v: nat)
    ensures (v % 256) % 128 == v % 128
  {
  }

  lemma EncodingTail(all: seq<byte>, n: nat, v: nat)
    requires n < |all| && v >= 128 && all[n..] == VarintBytes(v)
    ensures n + 1 < |all| && all[n] == v % 128 + 128 && all[n + 1..] == VarintBytes(v / 128)
  {
    assert all[n] == all[n..][0];
    assert all[n + 1..] == all[n..][1..];
  }

  // ---------------------------------------------------------------- laws

  lemma VarintEndAt(buf: seq<byte>, pos: nat, end: nat)
    requires pos < end <= |buf| && end <= pos + LONGEST && buf[end - 1] < 128
    requires forall i :: pos <= i < end - 1 ==> buf[i] >= 128
    ensures VarintEnd(buf, pos, pos) == end
  {
    VarintEndMeaning(buf, pos, pos);
    var e := VarintEnd(buf, pos, pos);
    assert e == 0 || e <= end;
  }

  lemma {:induction false} GroupsSame(s: seq<byte>, lo: nat, hi: nat, t: seq<byte>, from: nat)
    requires hi <= |s| && from + (hi - lo) <= |t| && lo <= hi
    requires forall i :: lo <= i < hi ==> s[i] == t[from + (i - lo)]
    ensures Groups(s, lo, hi) == Groups(t, from, from + (hi - lo))
    decreases hi - lo
  {
    if lo < hi { GroupsSame(s, lo + 1, hi, t, from + 1); }
  }

  lemma {:induction false} GroupsOfEncoding(v: nat)
    ensures Groups(VarintBytes(v), 0, |VarintBytes(v)|) == v
  {
    if v >= 128 {
      GroupsOfEncoding(v / 128);
      var s, t := VarintBytes(v), VarintBytes(v / 128);
      GroupsSame(t, 0, |t|, s, 1);
    }
  }

  /** An encoding that fits k groups is no longer than k bytes. */
  lemma {:induction false} EncodingLength(v: nat, k: nat)
    requires k > 0 && v < Double(1, 7 * k)
    ensures |VarintBytes(v)| <= k
    decreases k
  {
    if v >= 128 {
      assert Double(1, 7) == 128;
      DoubleSeven(1, 7 * (k - 1));
      EncodingLength(v / 128, k - 1);
    }
  }

  lemma {:induction false} EncodingAtMostTen(v: uint64)
    ensures |VarintBytes(v)| <= 10
  {
    var k := 64;
    DoubleSixtyFour(k);
    DoubleMono(1, k, 70);
    EncodingLength(v, 10);
  }

  /** Decoding succeeds exactly when one of the next ten available bytes has its top bit clear;
      it then moves forward by at most ten bytes. */
  lemma DecodeVarintSucceeds(buf: seq<byte>, pos: nat)
    ensures var d := DecodeVarint(buf, pos);
            && (d.Good? <==> exists i :: pos <= i < |buf| && i < pos + 10 && buf[i] < 128)
            && (d.Good? ==> pos < d.next <= |buf| && d.next <= pos + 10)
  {
    VarintEndMeaning(buf, pos, pos);
  }

  /** `s` stands in `buf` at `pos`; the first `i` bytes are taken for granted. */
  predicate AtFrom(buf: seq<byte>, pos: nat, s: seq<byte>, i: nat)
    decreases |s| - i
  {
    if i >= |s| then pos + |s| <= |buf|
    else pos + i < |buf| && buf[pos + i] == s[i] && AtFrom(buf, pos, s, i + 1)
  }

  /** `s` stands in `buf` at `pos`. */
  predicate At(buf: seq<byte>, pos: nat, s: seq<byte>) {
    AtFrom(buf, pos, s, 0)
  }

  lemma {:induction false} AtMeans(buf: seq<byte>, pos: nat, s: seq<byte>, i: nat)
    requires i <= |s|
    ensures AtFrom(buf, pos, s, i) <==>
            pos + |s| <= |buf| && forall j :: i <= j < |s| ==> buf[pos + j] == s[j]
    decreases |s| - i
  {
    if i < |s| { AtMeans(buf, pos, s, i + 1); }
  }

  lemma AtSlice(buf: seq<byte>, pos: nat, s: seq<byte>)
    ensures At(buf, pos, s) <==> pos + |s| <= |buf| && buf[pos..pos + |s|] == s
  {
    AtMeans(buf, pos, s, 0);
    if pos + |s| <= |buf| && buf[pos..pos + |s|] == s {
      forall j | 0 <= j < |s| ensures buf[pos + j] == s[j] {
        assert buf[pos..pos + |s|][j] == s[j];
      }
    }
  }

  lemma AtSplit(buf: seq<byte>, pos: nat, all: seq<byte>, s: seq<byte>, t: seq<byte>)
    requires At(buf, pos, all) && all == s + t
    ensures At(buf, pos, s) && At(buf, pos + |s|, t)
  {
    AtMeans(buf, pos, all, 0);
    AtMeans(buf, pos, s, 0);
    AtMeans(buf, pos + |s|, t, 0);
    forall j | 0 <= j < |s| ensures buf[pos + j] == s[j] {
      assert buf[pos + j] == all[j];
    }
    forall j | 0 <= j < |t| ensures buf[pos + |s| + j] == t[j] {
      assert buf[pos + (|s| + j)] == all[|s| + j];
    }
  }

  lemma AtHalves(s: seq<byte>, t: seq<byte>)
    ensures At(s + t, 0, s) && At(s + t, |s|, t)
  {
    AtSlice(s + t, 0, s + t);
    AtSplit(s + t, 0, s + t, s, t);
  }

  /** Bytes of the shape of a varint are read to their end, as the number they stand for. */
  lemma ShapeReads(buf: seq<byte>, pos: nat, s: seq<byte>, end: nat)
    requires At(buf, pos, s) && 0 < |s| <= 10 && end == pos + |s|
    requires s[|s| - 1] < 128 && forall i :: 0 <= i < |s| - 1 ==> s[i] >= 128
    ensures end <= |buf| && VarintEnd(buf, pos, pos) == end && Groups(buf, pos, end) == Groups(s, 0, |s|)
  {
    AtMeans(buf, pos, s, 0);
    assert buf[pos + (|s| - 1)] == s[|s| - 1];
    forall i | pos <= i < end - 1 ensures buf[i] >= 128 { assert buf[pos + (i - pos)] == s[i - pos]; }
    VarintEndAt(buf, pos, end);
    GroupsSame(s, 0, |s|, buf, pos);
  }

  /** Encoding then decoding gives the word back, wherever the encoding stands, and stops right behind it. */
  lemma VarintAt(buf: seq<byte>, pos: nat, v: uint64)
    requires At(buf, pos, VarintBytes(v))
    ensures DecodeVarint(buf, pos) == Good(v, pos + |VarintBytes(v)|)
  {
    VarintShape(v);
    EncodingAtMostTen(v);
    ShapeReads(buf, pos, VarintBytes(v), pos + |VarintBytes(v)|);
    GroupsOfEncoding(v);
  }

  /** The same law with the surrounding bytes written out. */
  lemma VarintRoundTrip(pre: seq<byte>, v: uint64, post: seq<byte>)
    ensures DecodeVarint(pre + VarintBytes(v) + post, |pre|) == Good(v, |pre| + |VarintBytes(v)|)
  {
    var buf := pre + VarintBytes(v) + post;
    AtSlice(buf, |pre|, VarintBytes(v));
    assert buf[|pre|..|pre| + |VarintBytes(v)|] == VarintBytes(v);
    VarintAt(buf, |pre|, v);
  }

  /** No encoding is a proper prefix of another. */
  lemma VarintPrefixFree(v: uint64, w: uint64)
    requires VarintBytes(v) <= VarintBytes(w)
    ensures v == w
  {
    var a, b := VarintBytes(v), VarintBytes(w);
    AtSlice(b, 0, a);
    AtSlice(b, 0, b);
    VarintAt(b, 0, v);
    VarintAt(b, 0, w);
  }

  /** The encoder's output is the shortest byte string that decodes to the word. */
  lemma {:induction false} VarintShortest(s: seq<byte>, v: uint64)
    requires DecodeVarint(s, 0) == Good(v, |s|)
    ensures |VarintBytes(v)| <= |s| <= 10
  {
    if |s| == 10 {
      EncodingAtMostTen(v);
    } else {
      GroupsBound(s, 0, |s|);
      assert v <= Groups(s, 0, |s|);
      EncodingLength(v, |s|);
    }
  }

  /** Bytes behind the varint do not matter. */
  lemma {:induction false} DecodeVarintExtends(a: seq<byte>, b: seq<byte>, pos: nat)
    requires DecodeVarint(a, pos).Good?
    ensures DecodeVarint(a + b, pos) == DecodeVarint(a, pos)
  {
    var e := DecodeVarint(a, pos).next;
    VarintEndMeaning(a, pos, pos);
    VarintEndAt(a + b, pos, e);
    GroupsSame(a, pos, e, a + b, pos);
  }

  /** Bytes before the varint only shift the result. */
  lemma DecodeVarintShift(a: seq<byte>, b: seq<byte>, pos: nat)
    ensures DecodeVarint(a + b, |a| + pos) == Shifted(DecodeVarint(b, pos), |a|)
  {
    VarintEndShift(a, b, pos, pos);
    var e := VarintEnd(b, pos, pos);
    if e > 0 {
      GroupsSame(b, pos, e, a + b, |a| + pos);
    }
  }

  function Shifted(d: Decoded, offset: nat): Decoded {
    match d case Bad => Bad case Good(v, next) => Good(v, offset + next)
  }

  lemma {:induction false} VarintEndShift(a: seq<byte>, b: seq<byte>, start: nat, pos: nat)
    ensures var e := VarintEnd(b, start, pos);
            VarintEnd(a + b, |a| + start, |a| + pos) == if e == 0 then 0 else |a| + e
    decreases |b| - pos
  {
    if pos < |b| && pos < start + LONGEST {
      assert (a + b)[|a| + pos] == b[pos];
      VarintEndShift(a, b, start, pos + 1);
    }
  }

  /** A buffer that ends inside an encoding holds no varint there. */
  lemma VarintCut(buf: seq<byte>, pos: nat, v: uint64)
    requires pos <= |buf| && buf[pos..] < VarintBytes(v)
    ensures DecodeVarint(buf, pos) == Bad
  {
    VarintShape(v);
    VarintEndMeaning(buf, pos, pos);
    forall i | pos <= i < |buf| ensures buf[i] >= 128 {
      assert buf[i] == buf[pos..][i - pos] == VarintBytes(v)[i - pos];
    }
  }
}
