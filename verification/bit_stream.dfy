/** The data bit stream of a QR Code: segments, terminator and padding, packed into codewords. */
module BitStream {
  import opened BinaryPoly
  import opened Bits
  import opened Results
  import opened Segment
  import opened Tables
  import RadixCode

  // ----- Lengths -----

  ghost predicate CountFits(seg: QrSegment, ver: Version) {
    seg.numChars < Pow2(seg.mode.NumCharCountBits(ver))
  }

  ghost predicate CountsFit(segs: seq<QrSegment>, ver: Version) {
    forall i :: 0 <= i < |segs| ==> CountFits(segs[i], ver)
  }

  /** The number of bits that the segments take, with their headers. */
  function TotalBits(segs: seq<QrSegment>, ver: Version): nat {
    if |segs| == 0 then 0
    else
      var seg := segs[|segs| - 1];
      TotalBits(segs[..|segs| - 1], ver) + 4 + seg.mode.NumCharCountBits(ver) + |seg.data|
  }

  lemma {:induction false} TotalBitsMonotone(segs: seq<QrSegment>, k: nat, ver: Version)
    requires k <= |segs|
    ensures TotalBits(segs[..k], ver) <= TotalBits(segs, ver)
    decreases |segs|
  {
    if k < |segs| {
      TotalBitsMonotone(segs[..|segs| - 1], k, ver);
      assert segs[..|segs| - 1][..k] == segs[..k];
    } else {
      assert segs[..k] == segs;
    }
  }

  lemma TotalBitsStep(segs: seq<QrSegment>, k: nat, ver: Version)
    requires k < |segs|
    ensures TotalBits(segs[..k + 1], ver)
         == TotalBits(segs[..k], ver) + 4 + segs[k].mode.NumCharCountBits(ver) + |segs[k].data|
  {
    assert segs[..k + 1][..k] == segs[..k];
  }

  /**
   * `QrSegment::getTotalBits`. The guarded sum never overflows and gives up exactly when a count
   * does not fit its field or the true total is more than INT_MAX.
   */
  method GetTotalBits(segs: seq<QrSegment>, ver: Version) returns (r: int)
    ensures r == if CountsFit(segs, ver) && TotalBits(segs, ver) <= INT_MAX then TotalBits(segs, ver) else -1
  {
    hide TotalBits, Pow2;
    var result := 0;
    TotalBitsNone(ver);
    assert segs[..0] == [];
    for k := 0 to |segs|
      invariant 0 <= result <= INT_MAX
      invariant result == TotalBits(segs[..k], ver)
      invariant CountsFit(segs[..k], ver)
    {
      var seg := segs[k];
      var ccbits := seg.mode.NumCharCountBits(ver);
      TotalBitsStep(segs, k, ver);
      TotalBitsMonotone(segs, k + 1, ver);
      if seg.numChars >= Pow2(ccbits) {
        assert !CountFits(segs[k], ver);
        return -1;
      }
      if 4 + ccbits > INT_MAX - result {
        return -1;
      }
      result := result + 4 + ccbits;
      if |seg.data| > INT_MAX - result {
        return -1;
      }
      result := result + |seg.data|;
    }
    assert segs[..|segs|] == segs;
    r := result;
  }

  lemma TotalBitsNone(ver: Version)
    ensures TotalBits([], ver) == 0
  {
  }

  // ----- The stream -----

  function SegmentBits(seg: QrSegment, ver: Version): seq<bool> {
    BitsOf(seg.mode.ModeBits(), 4) + BitsOf(seg.numChars, seg.mode.NumCharCountBits(ver)) + seg.data
  }

  function StreamBits(segs: seq<QrSegment>, ver: Version): seq<bool> {
    if |segs| == 0 then [] else StreamBits(segs[..|segs| - 1], ver) + SegmentBits(segs[|segs| - 1], ver)
  }

  lemma {:induction false} StreamLength(segs: seq<QrSegment>, ver: Version)
    ensures |StreamBits(segs, ver)| == TotalBits(segs, ver)
    decreases |segs|
  {
    if |segs| > 0 {
      StreamLength(segs[..|segs| - 1], ver);
    }
  }

  lemma {:induction false} StreamFirst(segs: seq<QrSegment>, ver: Version)
    requires |segs| > 0
    ensures StreamBits(segs, ver) == SegmentBits(segs[0], ver) + StreamBits(segs[1..], ver)
    decreases |segs|
  {
    hide SegmentBits;
    if |segs| == 1 {
      assert StreamBits(segs[..0], ver) == [] == StreamBits(segs[1..], ver);
    } else {
      var n := |segs| - 1;
      StreamFirst(segs[..n], ver);
      assert segs[..n][1..] == segs[1..][..n - 1];
      assert segs[1..][n - 1] == segs[n];
    }
  }

  function PadByte(first: bool): nat {
    if first then 0xEC else 0x11
  }

  /** n padding bytes, alternating between 0xEC and 0x11. */
  function PadBits(n: nat, first: bool): (b: seq<bool>)
    ensures |b| == 8 * n
    decreases n
  {
    if n == 0 then [] else BitsOf(PadByte(first), 8) + PadBits(n - 1, !first)
  }

  /** The length of the terminator: four bits, or what is left. */
  function Terminator(used: nat, n: nat): nat
    requires used <= 8 * n
  {
    if 8 * n - used < 4 then 8 * n - used else 4
  }

  /** The number of bytes once the terminator is written and the last byte completed with zeros. */
  function ClosedBytes(used: nat, n: nat): (c: nat)
    requires used <= 8 * n
    ensures used + Terminator(used, n) <= 8 * c < used + Terminator(used, n) + 8
    ensures c <= n
  {
    (used + Terminator(used, n) + 7) / 8
  }

  /** What follows `used` bits up to n bytes. */
  function Filling(used: nat, n: nat): (b: seq<bool>)
    requires used <= 8 * n
    ensures |b| == 8 * n - used
  {
    var c := ClosedBytes(used, n);
    ZeroBits(8 * c - used) + PadBits(n - c, true)
  }

  // ----- Bytes -----

  /** `QrCode::getBit`. */
  function GetBit(x: nat, i: nat): bool {
    Shr(x, i) % 2 != 0
  }

  /** The n bytes that 8 * n bits make, big endian. */
  function Pack(b: seq<bool>, n: nat): (bytes: seq<byte>)
    requires |b| == 8 * n
    ensures |bytes| == n
    decreases n
  {
    if n == 0 then [] else [ByteOf(b[..8])] + Pack(b[8..], n - 1)
  }

  function ByteOf(b: seq<bool>): byte
    requires |b| == 8
  {
    BitsOfValueOf(b);
    Pow2Of8();
    ValueOf(b)
  }

  function Unpack(bytes: seq<byte>): (b: seq<bool>)
    ensures |b| == 8 * |bytes|
  {
    if |bytes| == 0 then [] else BitsOf(bytes[0], 8) + Unpack(bytes[1..])
  }

  lemma {:induction false} UnpackPack(b: seq<bool>, n: nat)
    requires |b| == 8 * n
    ensures Unpack(Pack(b, n)) == b
    decreases n
  {
    hide ValueOf, BitsOf;
    if n > 0 {
      UnpackPack(b[8..], n - 1);
      BitsOfValueOf(b[..8]);
    }
  }

  /** The bits of a number, by position. */
  lemma {:induction false} GetBitOfBits(x: nat, len: nat, k: nat)
    requires k < len
    ensures BitsOf(x, len)[k] == GetBit(x, len - 1 - k)
    decreases len
  {
    if k < len - 1 {
      GetBitOfBits(x / 2, len - 1, k);
    }
  }

  lemma {:induction false} UnpackAt(bytes: seq<byte>, i: nat)
    requires i < 8 * |bytes|
    ensures Unpack(bytes)[i] == GetBit(bytes[i / 8], 7 - i % 8)
  {
    hide BitsOf, GetBit;
    if i < 8 {
      GetBitOfBits(bytes[0], 8, i);
    } else {
      UnpackAt(bytes[1..], i - 8);
      assert bytes[1..][(i - 8) / 8] == bytes[i / 8];
    }
  }

  // ----- Reading the stream -----

  function ModeOf(m: nat): Option<Mode> {
    match m
    case 1 => Some(Numeric)
    case 2 => Some(Alphanumeric)
    case 4 => Some(Byte)
    case 8 => Some(Kanji)
    case 7 => Some(Eci)
    case _ => None
  }

  /** Reads segments until the terminator, or until fewer than four bits are left. */
  function Parse(b: seq<bool>, ver: Version): Option<seq<QrSegment>>
    decreases |b|
  {
    if |b| < 4 || ValueOf(b[..4]) == 0 then Some([])
    else
      match ModeOf(ValueOf(b[..4]))
      case None => None
      case Some(m) =>
        var k := 4 + m.NumCharCountBits(ver);
        if |b| < k then None
        else
          var n, rest := ValueOf(b[4..k]), b[k..];
          match PayloadLength(m, n, rest)
          case None => None
          case Some(len) =>
            if |rest| < len then None
            else
              match Parse(rest[len..], ver)
              case None => None
              case Some(segs) => Some([QrSegment(m, n, rest[..len])] + segs)
  }

  lemma ModeOfModeBits(m: Mode)
    ensures ModeOf(m.ModeBits()) == Some(m)
  {
  }

  lemma PayloadLengthPrefix(seg: QrSegment, more: seq<bool>)
    requires Agrees(seg)
    ensures PayloadLength(seg.mode, seg.numChars, seg.data + more) == Some(|seg.data|)
  {
    hide RadixCode.EncodedLength;
  }

  lemma ParseOne(seg: QrSegment, ver: Version, more: seq<bool>)
    requires Agrees(seg) && CountFits(seg, ver)
    ensures Parse(SegmentBits(seg, ver) + more, ver) ==
            match Parse(more, ver) case None => None case Some(segs) => Some([seg] + segs)
  {
    hide BitsOf, ValueOf, Agrees, PayloadLength, Pow2, ModeOf, Mode.ModeBits, Mode.NumCharCountBits;
    ModeOfModeBits(seg.mode);
    var b := SegmentBits(seg, ver) + more;
    var w := seg.mode.NumCharCountBits(ver);
    var mode, count := BitsOf(seg.mode.ModeBits(), 4), BitsOf(seg.numChars, w);
    Pow2Of4();
    ValueOfBitsOf(seg.mode.ModeBits(), 4);
    ValueOfBitsOf(seg.numChars, w);
    assert b[..4] == mode && b[4..4 + w] == count && b[4 + w..] == seg.data + more;
    PayloadLengthPrefix(seg, more);
    assert (seg.data + more)[..|seg.data|] == seg.data && (seg.data + more)[|seg.data|..] == more;
  }

  lemma Pow2Of4()
    ensures Pow2(4) == 16
  {
  }

  /** The segments come back, if what follows starts with a terminator or is too short for one. */
  lemma {:induction false} ParseStream(segs: seq<QrSegment>, ver: Version, tail: seq<bool>)
    requires CountsFit(segs, ver)
    requires forall i :: 0 <= i < |segs| ==> Agrees(segs[i])
    requires |tail| < 4 || ValueOf(tail[..4]) == 0
    ensures Parse(StreamBits(segs, ver) + tail, ver) == Some(segs)
    decreases |segs|
  {
    hide SegmentBits, ValueOf, Agrees, CountFits;
    if |segs| == 0 {
      assert StreamBits(segs, ver) + tail == tail;
    } else {
      StreamFirst(segs, ver);
      var more := StreamBits(segs[1..], ver) + tail;
      assert StreamBits(segs, ver) + tail == SegmentBits(segs[0], ver) + more;
      ParseOne(segs[0], ver, more);
      ParseStream(segs[1..], ver, tail);
      assert [segs[0]] + segs[1..] == segs;
    }
  }

  lemma {:induction false} ValueOfZeros(b: seq<bool>)
    requires forall i :: 0 <= i < |b| ==> !b[i]
    ensures ValueOf(b) == 0
  {
    if |b| > 0 {
      ValueOfZeros(b[..|b| - 1]);
    }
  }

  /** Reading the padded stream gives the segments. */
  lemma ParseFilled(segs: seq<QrSegment>, ver: Version, n: nat)
    requires CountsFit(segs, ver)
    requires forall i :: 0 <= i < |segs| ==> Agrees(segs[i])
    requires |StreamBits(segs, ver)| <= 8 * n
    ensures Parse(StreamBits(segs, ver) + Filling(|StreamBits(segs, ver)|, n), ver) == Some(segs)
  {
    hide Parse, Agrees, CountsFit, ValueOf, StreamBits, PadBits;
    var used := |StreamBits(segs, ver)|;
    var tail := Filling(used, n);
    if |tail| >= 4 {
      var z := 8 * ClosedBytes(used, n) - used;
      assert forall i :: 0 <= i < 4 ==> tail[i] == ZeroBits(z)[i];
      ValueOfZeros(tail[..4]);
    }
    ParseStream(segs, ver, tail);
  }

  // ----- Writing the stream -----

  /** `x |= (bit ? 1 : 0) << k`. */
  function OrBit(x: nat, bit: bool, k: nat): nat {
    if bit && !GetBit(x, k) then x + Pow2(k) else x
  }

  lemma {:induction false} SetBitValue(b: seq<bool>, j: nat)
    requires j < |b| && !b[j]
    ensures !GetBit(ValueOf(b), |b| - 1 - j)
    ensures ValueOf(b[j := true]) == ValueOf(b) + Pow2(|b| - 1 - j)
    decreases |b|
  {
    var n := |b| - 1;
    if j == n {
      assert b[j := true][..n] == b[..n];
    } else {
      SetBitValue(b[..n], j);
      assert b[j := true][..n] == b[..n][j := true];
      assert ValueOf(b) / 2 == ValueOf(b[..n]);
    }
  }

  lemma {:induction false} PackSetBit(b: seq<bool>, n: nat, i: nat, j: nat)
    requires |b| == 8 * n && i < n && j < 8 && !b[8 * i + j]
    ensures OrBit(Pack(b, n)[i], true, 7 - j) == Pack(b[8 * i + j := true], n)[i]
    ensures Pack(b[8 * i + j := true], n) == Pack(b, n)[i := Pack(b[8 * i + j := true], n)[i]]
    decreases n
  {
    hide ValueOf, GetBit, Pow2;
    if i == 0 {
      SetBitValue(b[..8], j);
      assert b[j := true][..8] == b[..8][j := true];
      assert b[j := true][8..] == b[8..];
    } else {
      var k := 8 * (i - 1) + j;
      PackSetBit(b[8..], n - 1, i - 1, j);
      assert b[k + 8 := true][..8] == b[..8];
      assert b[k + 8 := true][8..] == b[8..][k := true];
    }
  }

  lemma {:induction false} PackZeros(n: nat)
    ensures Pack(ZeroBits(8 * n), n) == seq(n, i => 0)
  {
    if n > 0 {
      PackZeros(n - 1);
      assert ZeroBits(8 * n)[8..] == ZeroBits(8 * (n - 1));
      ValueOfZeros(ZeroBits(8 * n)[..8]);
      assert [0] + seq(n - 1, i => 0) == seq(n, i => 0);
    }
  }

  /** Packs bits into bytes, big endian. */
  method PackBits(b: seq<bool>, n: nat) returns (codewords: seq<byte>)
    requires |b| == 8 * n
    ensures codewords == Pack(b, n)
  {
    hide Pack, OrBit;
    codewords := seq(n, i => 0);
    PackZeros(n);
    assert b[..0] + ZeroBits(|b|) == ZeroBits(8 * n);
    for i := 0 to |b|
      invariant codewords == Pack(b[..i] + ZeroBits(|b| - i), n)
    {
      ghost var before := b[..i] + ZeroBits(|b| - i);
      var k, bit := i / 8, i % 8;
      assert i == 8 * k + bit && k < n;
      if b[i] {
        PackSetBit(before, n, k, bit);
        assert b[..i + 1] + ZeroBits(|b| - i - 1) == before[i := true];
      } else {
        assert b[..i + 1] + ZeroBits(|b| - i - 1) == before;
        OrNothing(codewords[k], 7 - bit);
      }
      codewords := codewords[k := OrBit(codewords[k], b[i], 7 - bit)];
    }
    assert b[..|b|] + ZeroBits(0) == b;
  }

  lemma OrNothing(x: nat, k: nat)
    ensures OrBit(x, false, k) == x
  {
  }
}
