/** The bits of a segment, character by character: sections 7.4.3 to 7.4.5 of ISO/IEC 18004:2015. */
module SegmentBits {
  import opened Bits
  import opened RadixCode
  import opened Segment
  import opened Tables
  import BitStream

  // ----- The values of the alphanumeric characters -----

  /** The value of a character in alphanumeric mode. */
  function CharValue(c: char): nat {
    if '0' <= c <= '9' then c as int - '0' as int
    else if 'A' <= c <= 'Z' then c as int - 'A' as int + 10
    else
      match c
      case ' ' => 36
      case '$' => 37
      case '%' => 38
      case '*' => 39
      case '+' => 40
      case '-' => 41
      case '.' => 42
      case '/' => 43
      case ':' => 44
      case _ => 45
  }

  const LETTERS := "ABCDEFGHIJKLMNOPQRSTUVWXYZ"
  const SYMBOLS := " $%*+-./:"

  lemma {:induction false} FirstIndexJoin(s: string, t: string, c: char)
    ensures FirstIndex(s + t, c) == if c in s then FirstIndex(s, c) else |s| + FirstIndex(t, c)
  {
    if s == "" {
      assert s + t == t;
    } else {
      FirstIndexJoin(s[1..], t, c);
      assert (s + t)[1..] == s[1..] + t;
      assert c in s <==> c == s[0] || c in s[1..];
    }
  }

  /** In a stretch of consecutive characters, every character stands at its distance from the first. */
  lemma {:induction false} FirstIndexInRange(s: string, c: char, first: int)
    requires forall i :: 0 <= i < |s| ==> s[i] as int == first + i
    ensures c in s <==> first <= c as int < first + |s|
    ensures c in s ==> FirstIndex(s, c) == c as int - first
  {
    if s != "" {
      FirstIndexInRange(s[1..], c, first + 1);
      assert c in s <==> c == s[0] || c in s[1..];
    }
  }

  lemma DigitsInOrder()
    ensures |DIGITS| == 10 && forall i :: 0 <= i < 10 ==> DIGITS[i] as int == '0' as int + i
  {
  }

  lemma LettersInOrder()
    ensures |LETTERS| == 26 && forall i :: 0 <= i < 26 ==> LETTERS[i] as int == 'A' as int + i
  {
  }

  lemma SymbolsInOrder(c: char)
    ensures c in SYMBOLS <==> !('0' <= c <= '9') && !('A' <= c <= 'Z') && CharValue(c) < 45
    ensures c in SYMBOLS ==> 36 + FirstIndex(SYMBOLS, c) == CharValue(c)
  {
    hide FirstIndex;
    FirstIndexJoin(" $%", "*+-./:", c);
    FirstIndexJoin("*+-", "./:", c);
    assert SYMBOLS == " $%" + "*+-./:" && "*+-./:" == "*+-" + "./:";
    ThreeInOrder(" $%", c);
    ThreeInOrder("*+-", c);
    ThreeInOrder("./:", c);
  }

  lemma ThreeInOrder(s: string, c: char)
    requires |s| == 3 && s[0] != s[1] && s[0] != s[2] && s[1] != s[2]
    ensures c in s <==> c == s[0] || c == s[1] || c == s[2]
    ensures FirstIndex(s, c) == if c == s[0] then 0 else if c == s[1] then 1 else if c == s[2] then 2 else 3
  {
    assert s == [s[0], s[1], s[2]];
    assert s[1..] == [s[1], s[2]] && s[1..][1..] == [s[2]] && s[1..][1..][1..] == [];
  }

  lemma CharsetParts()
    ensures ALPHANUMERIC_CHARSET == DIGITS + (LETTERS + SYMBOLS)
  {
    assert LETTERS + SYMBOLS == "ABCDEFGHIJKLMNOPQRSTUVWXYZ $%*+-./:";
  }

  /** A character's place in the set is its value: digits, then capital letters, then nine symbols. */
  lemma CharsetIndex(c: char)
    ensures c in ALPHANUMERIC_CHARSET <==> CharValue(c) < 45
    ensures c in ALPHANUMERIC_CHARSET ==> FirstIndex(ALPHANUMERIC_CHARSET, c) == CharValue(c)
  {
    hide FirstIndex, ALPHANUMERIC_CHARSET, DIGITS, LETTERS, SYMBOLS;
    CharsetParts();
    DigitsInOrder();
    LettersInOrder();
    FirstIndexInRange(DIGITS, c, '0' as int);
    FirstIndexInRange(LETTERS, c, 'A' as int);
    SymbolsInOrder(c);
    FirstIndexJoin(DIGITS, LETTERS + SYMBOLS, c);
    FirstIndexJoin(LETTERS, SYMBOLS, c);
    assert c in ALPHANUMERIC_CHARSET <==> c in DIGITS || c in LETTERS || c in SYMBOLS;
  }

  // ----- Payloads -----

  /** Digits in threes of ten bits, and a rest of one or two in four or seven. */
  function DigitBits(d: string): seq<bool>
    requires AllDigits(d)
  {
    if |d| == 0 then []
    else if |d| == 1 then BitsOf(DigitValue(d[0]), 4)
    else if |d| == 2 then BitsOf(10 * DigitValue(d[0]) + DigitValue(d[1]), 7)
    else BitsOf(100 * DigitValue(d[0]) + 10 * DigitValue(d[1]) + DigitValue(d[2]), 10) + DigitBits(d[3..])
  }

  /** Characters in pairs of eleven bits, and a last one in six. */
  function PairBits(t: string): seq<bool> {
    if |t| == 0 then []
    else if |t| == 1 then BitsOf(CharValue(t[0]), 6)
    else BitsOf(45 * CharValue(t[0]) + CharValue(t[1]), 11) + PairBits(t[2..])
  }

  /** Bytes of eight bits. */
  function ByteBits(b: seq<nat>): seq<bool> {
    if |b| == 0 then [] else BitsOf(b[0], 8) + ByteBits(b[1..])
  }

  lemma SmallNumbers(a: nat, b: nat, c: nat, radix: nat)
    ensures Number([a], radix) == a
    ensures Number([a, b], radix) == a * radix + b
    ensures Number([a, b, c], radix) == (a * radix + b) * radix + c
  {
    hide Number;
    NumberOfOne(a, radix);
    NumberAppend([a], b, radix);
    NumberAppend([a, b], c, radix);
    assert [a] + [b] == [a, b] && [a, b] + [c] == [a, b, c];
  }

  lemma EncodeStep(vs: seq<nat>, c: Coding)
    requires |vs| >= c.group > 0
    ensures Encode(vs, c) == BitsOf(Number(vs[..c.group], c.radix), c.GroupBits(c.group)) + Encode(vs[c.group..], c)
  {
  }

  /** A numeric segment holds its digits in groups of three, the first digit of a group counting most. */
  lemma {:induction false} NumericCoding(digits: string)
    requires AllDigits(digits)
    ensures NumericSegment(digits).data == DigitBits(digits)
  {
    hide Encode, BitsOf, Number;
    var vs, n := DigitValues(digits), |digits|;
    if n == 0 {
      EncodeEmpty(NUMERIC);
      assert vs == [];
    } else if n < 3 {
      EncodeOneGroup(vs, NUMERIC);
      SmallNumbers(vs[0], if n > 1 then vs[1] else 0, 0, 10);
      assert vs == if n == 1 then [vs[0]] else [vs[0], vs[1]];
    } else {
      EncodeStep(vs, NUMERIC);
      SmallNumbers(vs[0], vs[1], vs[2], 10);
      assert vs[..3] == [vs[0], vs[1], vs[2]] && vs[3..] == DigitValues(digits[3..]);
      NumericCoding(digits[3..]);
    }
  }

  /** An alphanumeric segment holds its characters in pairs, the first one counting 45 times. */
  lemma {:induction false} AlphanumericCoding(text: string)
    requires AllAlphanumeric(text)
    ensures AlphanumericSegment(text).data == PairBits(text)
  {
    hide Encode, BitsOf, Number, ALPHANUMERIC_CHARSET, FirstIndex, CharValue;
    var vs, n := CharsetValues(text), |text|;
    if n == 0 {
      EncodeEmpty(ALPHANUMERIC);
      assert vs == [];
    } else {
      CharsetIndex(text[0]);
      if n == 1 {
        EncodeOneGroup(vs, ALPHANUMERIC);
        SmallNumbers(vs[0], 0, 0, 45);
        assert vs == [vs[0]];
      } else {
        CharsetIndex(text[1]);
        EncodeStep(vs, ALPHANUMERIC);
        SmallNumbers(vs[0], vs[1], 0, 45);
        assert vs[..2] == [vs[0], vs[1]] && vs[2..] == CharsetValues(text[2..]);
        AlphanumericCoding(text[2..]);
      }
    }
  }

  /** A byte segment holds its bytes one after the other. */
  lemma {:induction false} ByteCoding(data: seq<nat>)
    ensures ByteSegment(data).data == ByteBits(data)
  {
    hide Encode, BitsOf, Number;
    if |data| == 0 {
      EncodeEmpty(BYTES);
      assert data == [];
    } else {
      EncodeStep(data, BYTES);
      SmallNumbers(data[0], 0, 0, 256);
      assert data[..1] == [data[0]];
      ByteCoding(data[1..]);
    }
  }

  // ----- Headers -----

  /** The mode indicators of the standard, as bits. */
  function Indicator(m: Mode): seq<bool> {
    match m
    case Numeric => [false, false, false, true]
    case Alphanumeric => [false, false, true, false]
    case Byte => [false, true, false, false]
    case Kanji => [true, false, false, false]
    case Eci => [false, true, true, true]
  }

  /** The number of bits in a character count: narrow up to version 9, medium up to 26 and wide beyond. */
  function CountWidth(m: Mode, ver: Version): nat {
    match m
    case Numeric => if ver <= 9 then 10 else if ver <= 26 then 12 else 14
    case Alphanumeric => if ver <= 9 then 9 else if ver <= 26 then 11 else 13
    case Byte => if ver <= 9 then 8 else 16
    case Kanji => if ver <= 9 then 8 else if ver <= 26 then 10 else 12
    case Eci => 0
  }

  lemma CountWidths(m: Mode, ver: Version)
    ensures m.NumCharCountBits(ver) == CountWidth(m, ver)
  {
  }

  lemma Indicators(m: Mode)
    ensures BitsOf(m.ModeBits(), 4) == Indicator(m)
  {
    FourBits(m.ModeBits());
  }

  lemma FourBits(v: nat)
    ensures BitsOf(v, 4) == [v / 2 / 2 / 2 % 2 == 1, v / 2 / 2 % 2 == 1, v / 2 % 2 == 1, v % 2 == 1]
  {
    assert BitsOf(v, 4) == BitsOf(v / 2 / 2, 2) + [v / 2 % 2 == 1] + [v % 2 == 1];
    assert BitsOf(v / 2 / 2, 2) == [] + [v / 2 / 2 / 2 % 2 == 1] + [v / 2 / 2 % 2 == 1];
  }

  /** A segment starts with its mode indicator and its count, in the width of the standard for the version. */
  lemma SegmentHeader(seg: QrSegment, ver: Version)
    ensures BitStream.SegmentBits(seg, ver) == Indicator(seg.mode) + BitsOf(seg.numChars, CountWidth(seg.mode, ver)) + seg.data
  {
    hide BitsOf, Indicator, CountWidth, Mode.ModeBits, Mode.NumCharCountBits;
    CountWidths(seg.mode, ver);
    Indicators(seg.mode);
  }
}
