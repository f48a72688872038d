/** Splitting data into blocks, adding error correction to each, and interleaving the blocks. */
module Interleave {
  import opened BinaryPoly
  import opened Gf256
  import opened Hamming
  import opened Polynomial
  import opened ReedSolomon
  import opened RsDistance
  import opened Results
  import opened Tables
  import RadixCode

  /**
   * How a symbol's codewords are divided: `blocks` blocks with `ecc` check bytes each. The first
   * `short` of them hold `shortData` data bytes, the others one more.
   */
  datatype Layout = Layout(blocks: nat, ecc: nat, short: nat, shortData: nat) {
    ghost predicate Valid() {
      0 < short <= blocks && 1 <= ecc <= 255
    }

    function DataLen(j: nat): nat {
      shortData + if j < short then 0 else 1
    }

    /** The length of a block when a padding byte makes the short ones equal to the others. */
    function BlockLen(): nat {
      shortData + 1 + ecc
    }

    /** The number of data bytes in the blocks from j on. */
    function DataFrom(j: nat): nat
      requires j <= blocks
      decreases blocks - j
    {
      if j == blocks then 0 else DataLen(j) + DataFrom(j + 1)
    }

    /** The first block that has a byte in row i. */
    function RowFirst(i: nat): nat {
      if i == shortData then short else 0
    }

    /** Where row i starts in the interleaved sequence. */
    function RowStart(i: nat): nat
      requires short <= blocks
    {
      if i == 0 then 0 else RowStart(i - 1) + blocks - RowFirst(i - 1)
    }
  }

  // ----- Lengths -----

  lemma {:induction false} RowStartClosed(l: Layout, i: nat)
    requires l.short <= l.blocks
    ensures l.RowStart(i) == l.blocks * i - if i <= l.shortData then 0 else l.short
  {
    if i > 0 {
      RowStartClosed(l, i - 1);
      RadixCode.Distribute(l.blocks, i - 1, 1);
    }
  }

  lemma {:induction false} DataFromClosed(l: Layout, j: nat)
    requires l.short <= l.blocks && j <= l.blocks
    ensures l.DataFrom(j) == l.shortData * (l.blocks - j) + if j <= l.short then l.blocks - l.short else l.blocks - j
    decreases l.blocks - j
  {
    if j < l.blocks {
      DataFromClosed(l, j + 1);
      RadixCode.Distribute(l.shortData, l.blocks - j - 1, 1);
    }
  }

  /** The layout that `addEccAndInterleave` computes from the tables. */
  function LayoutOf(raw: nat, ecc: nat, blocks: nat): Layout
    requires blocks > 0 && raw / blocks >= ecc
  {
    Layout(blocks, ecc, blocks - raw % blocks, raw / blocks - ecc)
  }

  /** The blocks take up exactly the codewords of the symbol. */
  lemma LayoutTotals(raw: nat, ecc: nat, blocks: nat)
    requires blocks > 0 && raw / blocks >= ecc && 1 <= ecc <= 255
    ensures LayoutOf(raw, ecc, blocks).Valid()
    ensures LayoutOf(raw, ecc, blocks).RowStart(LayoutOf(raw, ecc, blocks).BlockLen()) == raw
    ensures LayoutOf(raw, ecc, blocks).DataFrom(0) == raw - ecc * blocks
  {
    hide Layout.RowStart, Layout.DataFrom;
    var l := LayoutOf(raw, ecc, blocks);
    var q := raw / blocks;
    assert raw == blocks * q + raw % blocks;
    RowStartClosed(l, l.BlockLen());
    assert l.BlockLen() == q + 1;
    RadixCode.Distribute(blocks, q, 1);
    DataFromClosed(l, 0);
    assert l.shortData * blocks == blocks * (q - ecc) == blocks * q - ecc * blocks;
  }

  // ----- Blocks -----

  /** The data blocks from block j on. */
  function Split(data: Poly, l: Layout, j: nat): (blocks: seq<Poly>)
    requires j <= l.blocks && |data| == l.DataFrom(j)
    ensures |blocks| == l.blocks - j
    ensures forall i :: 0 <= i < |blocks| ==> |blocks[i]| == l.DataLen(j + i)
    decreases l.blocks - j
  {
    if j == l.blocks then []
    else [data[..l.DataLen(j)]] + Split(data[l.DataLen(j)..], l, j + 1)
  }

  function Concat(blocks: seq<Poly>): Poly {
    if |blocks| == 0 then [] else blocks[0] + Concat(blocks[1..])
  }

  lemma {:induction false} ConcatSplit(data: Poly, l: Layout, j: nat)
    requires j <= l.blocks && |data| == l.DataFrom(j)
    ensures Concat(Split(data, l, j)) == data
    decreases l.blocks - j
  {
    if j < l.blocks {
      ConcatSplit(data[l.DataLen(j)..], l, j + 1);
    }
  }

  /** The check bytes of a data block. */
  function Check(dat: Poly, ecc: nat): (c: Poly)
    requires ecc > 0
    ensures |c| == ecc
  {
    Remainder(dat, Generator(ecc)[1..])
  }

  /** A block as it is interleaved: a short block has a padding byte between data and check bytes. */
  function PaddedBlock(dat: Poly, l: Layout, j: nat): (b: Poly)
    requires l.ecc > 0 && |dat| == l.DataLen(j)
    ensures |b| == l.BlockLen()
  {
    dat + (if j < l.short then [0] else []) + Check(dat, l.ecc)
  }

  /** The bytes of row i of the blocks from block j on. */
  function Row(blocks: seq<Poly>, i: nat, j: nat): (r: Poly)
    requires j <= |blocks| && forall k :: 0 <= k < |blocks| ==> i < |blocks[k]|
    ensures |r| == |blocks| - j && forall k :: 0 <= k < |r| ==> r[k] == blocks[j + k][i]
  {
    seq(|blocks| - j, k requires 0 <= k < |blocks| - j => blocks[j + k][i])
  }

  /** Rows 0 to n - 1, one after the other. */
  function Rows(blocks: seq<Poly>, l: Layout, n: nat): (r: Poly)
    requires |blocks| == l.blocks && l.short <= l.blocks
    requires forall k :: 0 <= k < |blocks| ==> n <= |blocks[k]|
    ensures |r| == l.RowStart(n)
  {
    if n == 0 then [] else Rows(blocks, l, n - 1) + Row(blocks, n - 1, l.RowFirst(n - 1))
  }

  /** The whole codeword sequence of a symbol. */
  function AllCodewords(data: Poly, l: Layout): (r: Poly)
    requires l.Valid() && |data| == l.DataFrom(0)
    ensures |r| == l.RowStart(l.BlockLen())
  {
    Rows(PaddedBlocks(data, l), l, l.BlockLen())
  }

  function PaddedBlocks(data: Poly, l: Layout): (blocks: seq<Poly>)
    requires l.Valid() && |data| == l.DataFrom(0)
    ensures |blocks| == l.blocks
    ensures forall j :: 0 <= j < l.blocks ==> blocks[j] == PaddedBlock(Split(data, l, 0)[j], l, j)
  {
    seq(l.blocks, j requires 0 <= j < l.blocks => PaddedBlock(Split(data, l, 0)[j], l, j))
  }

  // ----- Reading back -----

  lemma {:induction false} RowStartMonotone(l: Layout, i: nat, n: nat)
    requires l.short <= l.blocks && i <= n
    ensures l.RowStart(i) <= l.RowStart(n)
  {
    if i < n {
      RowStartMonotone(l, i, n - 1);
    }
  }

  /** Where byte i of block j stands, when it is not a padding byte. */
  lemma {:induction false} RowsAt(blocks: seq<Poly>, l: Layout, n: nat, i: nat, j: nat)
    requires |blocks| == l.blocks && l.short <= l.blocks
    requires forall k :: 0 <= k < |blocks| ==> n <= |blocks[k]|
    requires i < n && l.RowFirst(i) <= j < l.blocks
    ensures l.RowStart(i) + j - l.RowFirst(i) < l.RowStart(n)
    ensures Rows(blocks, l, n)[l.RowStart(i) + j - l.RowFirst(i)] == blocks[j][i]
  {
    RowStartMonotone(l, i + 1, n);
    if i < n - 1 {
      RowsAt(blocks, l, n - 1, i, j);
    }
  }

  /** Block j of an interleaved sequence, with a zero in place of a padding byte. */
  function ReadPadded(raw: Poly, l: Layout, j: nat): (b: Poly)
    requires l.Valid() && j < l.blocks && |raw| == l.RowStart(l.BlockLen())
    ensures |b| == l.BlockLen()
    ensures forall i :: 0 <= i < |b| ==> b[i] == ReadAt(raw, l, i, j)
  {
    seq(l.BlockLen(), i requires 0 <= i < l.BlockLen() => ReadAt(raw, l, i, j))
  }

  function ReadAt(raw: Poly, l: Layout, i: nat, j: nat): byte
    requires l.Valid() && j < l.blocks && |raw| == l.RowStart(l.BlockLen()) && i < l.BlockLen()
  {
    if j < l.RowFirst(i) then 0
    else
      RowStartMonotone(l, i + 1, l.BlockLen());
      raw[l.RowStart(i) + j - l.RowFirst(i)]
  }

  /** Block j as received: its data bytes and its check bytes. */
  function ReadBlock(raw: Poly, l: Layout, j: nat): (b: Poly)
    requires l.Valid() && j < l.blocks && |raw| == l.RowStart(l.BlockLen())
    ensures |b| == l.DataLen(j) + l.ecc
  {
    var b := ReadPadded(raw, l, j);
    b[..l.DataLen(j)] + b[l.shortData + 1..]
  }

  /** The data bytes of the blocks from block j on. */
  function ReadData(raw: Poly, l: Layout, j: nat): Poly
    requires l.Valid() && j <= l.blocks && |raw| == l.RowStart(l.BlockLen())
    decreases l.blocks - j
  {
    if j == l.blocks then [] else ReadBlock(raw, l, j)[..l.DataLen(j)] + ReadData(raw, l, j + 1)
  }

  /** Every block comes back, data and check bytes. */
  lemma BlockReadsBack(data: Poly, l: Layout, j: nat)
    requires l.Valid() && |data| == l.DataFrom(0) && j < l.blocks
    ensures var dat := Split(data, l, 0)[j]; ReadBlock(AllCodewords(data, l), l, j) == dat + Check(dat, l.ecc)
  {
    hide Rows, Row, Layout.RowStart, Layout.DataFrom, Split, Check;
    var blocks := PaddedBlocks(data, l);
    var raw := AllCodewords(data, l);
    var dat := Split(data, l, 0)[j];
    forall i | 0 <= i < l.BlockLen()
      ensures ReadAt(raw, l, i, j) == blocks[j][i]
    {
      if j >= l.RowFirst(i) {
        RowsAt(blocks, l, l.BlockLen(), i, j);
      }
    }
    assert ReadPadded(raw, l, j) == blocks[j] == PaddedBlock(dat, l, j);
  }

  lemma {:induction false} DataReadsBackFrom(data: Poly, l: Layout, j: nat)
    requires l.Valid() && |data| == l.DataFrom(0) && j <= l.blocks
    ensures ReadData(AllCodewords(data, l), l, j) == Concat(Split(data, l, 0)[j..])
    decreases l.blocks - j
  {
    hide AllCodewords, ReadBlock, Split, Check, Layout.RowStart, Layout.DataFrom;
    if j < l.blocks {
      DataReadsBackFrom(data, l, j + 1);
      BlockReadsBack(data, l, j);
      var blocks := Split(data, l, 0);
      assert blocks[j..][0] == blocks[j] && blocks[j..][1..] == blocks[j + 1..];
    }
  }

  /** Interleaving loses nothing. */
  lemma DataReadsBack(data: Poly, l: Layout)
    requires l.Valid() && |data| == l.DataFrom(0)
    ensures ReadData(AllCodewords(data, l), l, 0) == data
  {
    hide AllCodewords, ReadData, Split, Concat, Layout.RowStart, Layout.DataFrom;
    DataReadsBackFrom(data, l, 0);
    ConcatSplit(data, l, 0);
    assert Split(data, l, 0)[0..] == Split(data, l, 0);
  }

  // ----- The layout of a symbol -----

  lemma SymbolLayoutOk(ver: Version, ecl: Ecc)
    ensures var b, e := NumErrorCorrectionBlocks(ecl, ver), EccCodewordsPerBlock(ecl, ver);
            b > 0 && 1 <= e <= 255 && 0 <= RawCodewords(ver) && e < RawCodewords(ver) / b <= 253
  {
    hide NumErrorCorrectionBlocks, EccCodewordsPerBlock, RawCodewords, EntryOk, DataCodewordsTable, Tolerance;
    TablesOk(ver, ecl);
    var b, e, raw := NumErrorCorrectionBlocks(ecl, ver), EccCodewordsPerBlock(ecl, ver), RawCodewords(ver);
    EntryRange(raw, e, b, DataCodewordsTable(ecl, ver), Tolerance(ecl));
    RadixCode.MulGrows(b, e + 1);
    QuotientRange(raw, e, b);
  }

  lemma QuotientRange(raw: nat, e: nat, b: nat)
    requires b > 0 && b * (e + 1) <= raw < 254 * b
    ensures e < raw / b <= 253
  {
    var q := raw / b;
    assert raw == b * q + raw % b;
    if q > 253 {
      MulAtLeast(b, q, b, 254);
    } else if q <= e {
      MulAtLeast(b, e + 1, b, q + 1);
      RadixCode.Distribute(b, q, 1);
    }
  }

  function SymbolLayout(ver: Version, ecl: Ecc): (l: Layout)
    ensures l.Valid()
  {
    SymbolLayoutOk(ver, ecl);
    LayoutOf(RawCodewords(ver), EccCodewordsPerBlock(ecl, ver), NumErrorCorrectionBlocks(ecl, ver))
  }

  /** The blocks of every symbol hold its codewords exactly, and are short enough for the code. */
  lemma SymbolLayoutTotals(ver: Version, ecl: Ecc)
    ensures var l := SymbolLayout(ver, ecl);
            && l.DataFrom(0) == NumDataCodewords(ver, ecl)
            && l.RowStart(l.BlockLen()) == RawCodewords(ver)
            && l.BlockLen() <= 255
  {
    hide NumErrorCorrectionBlocks, EccCodewordsPerBlock, RawCodewords, Layout.DataFrom, Layout.RowStart;
    SymbolLayoutOk(ver, ecl);
    LayoutTotals(RawCodewords(ver), EccCodewordsPerBlock(ecl, ver), NumErrorCorrectionBlocks(ecl, ver));
  }

  // ----- The method -----

  lemma SplitSuffix(data: Poly, l: Layout, j: nat, k: nat)
    requires j < l.blocks && |data| == l.DataFrom(0) && k + l.DataFrom(j) == |data|
    requires Split(data, l, 0)[j..] == Split(data[k..], l, j)
    ensures k + l.DataLen(j) <= |data|
    ensures Split(data, l, 0)[j] == data[k..k + l.DataLen(j)]
    ensures Split(data, l, 0)[j + 1..] == Split(data[k + l.DataLen(j)..], l, j + 1)
  {
    var blocks := Split(data, l, 0);
    assert data[k..][..l.DataLen(j)] == data[k..k + l.DataLen(j)];
    assert data[k..][l.DataLen(j)..] == data[k + l.DataLen(j)..];
    assert blocks[j..][0] == blocks[j] && blocks[j..][1..] == blocks[j + 1..];
  }

  /** Splits data into blocks and appends error correction to each. */
  method MakeBlocks(data: Poly, l: Layout) returns (blocks: seq<Poly>)
    requires l.Valid() && |data| == l.DataFrom(0)
    ensures blocks == PaddedBlocks(data, l)
  {
    hide Split, Layout.DataFrom, Generator, Remainder;
    blocks := [];
    var rsDiv := ComputeDivisor(l.ecc);
    assert rsDiv.value == Generator(l.ecc)[1..];
    var k := 0;
    assert data[0..] == data && Split(data, l, 0)[0..] == Split(data, l, 0);
    for i := 0 to l.blocks
      invariant 0 <= k && k + l.DataFrom(i) == |data|
      invariant Split(data, l, 0)[i..] == Split(data[k..], l, i)
      invariant blocks == PaddedBlocks(data, l)[..i]
    {
      DataFromStep(l, i);
      SplitSuffix(data, l, i, k);
      var dat := data[k..k + l.shortData + if i < l.short then 0 else 1];
      k := k + |dat|;
      var check := ComputeRemainder(dat, rsDiv.value);
      var ecc := check.value;
      if i < l.short {
        dat := dat + [0];
      }
      dat := dat + ecc;
      assert dat == PaddedBlock(Split(data, l, 0)[i], l, i);
      blocks := blocks + [dat];
    }
  }

  lemma DataFromStep(l: Layout, j: nat)
    requires j < l.blocks
    ensures l.DataFrom(j) == l.DataLen(j) + l.DataFrom(j + 1)
  {
  }

  /** Writes the blocks row by row: the first bytes of all blocks, then the second bytes, and so on. */
  method InterleaveBlocks(blocks: seq<Poly>, l: Layout) returns (result: Poly)
    requires l.Valid() && |blocks| == l.blocks
    requires forall j :: 0 <= j < |blocks| ==> |blocks[j]| == l.BlockLen()
    ensures result == Rows(blocks, l, l.BlockLen())
  {
    hide Rows, Layout.RowStart;
    result := [];
    RowsNone(blocks, l);
    for i := 0 to |blocks[0]|
      invariant result == Rows(blocks, l, i)
    {
      ghost var before, first := result, l.RowFirst(i);
      for j := 0 to |blocks|
        invariant result == before + Row(blocks, i, first)[..if j <= first then 0 else j - first]
      {
        if i != l.shortData || j >= l.short {
          result := result + [blocks[j][i]];
        }
      }
      RowsStep(blocks, l, i);
    }
  }

  lemma RowsNone(blocks: seq<Poly>, l: Layout)
    requires |blocks| == l.blocks && l.short <= l.blocks
    ensures Rows(blocks, l, 0) == []
  {
  }

  lemma RowsStep(blocks: seq<Poly>, l: Layout, i: nat)
    requires |blocks| == l.blocks && l.short <= l.blocks
    requires forall k :: 0 <= k < |blocks| ==> i < |blocks[k]|
    ensures Rows(blocks, l, i + 1) == Rows(blocks, l, i) + Row(blocks, i, l.RowFirst(i))
  {
  }

  /** `QrCode::addEccAndInterleave`. */
  method AddEccAndInterleave(data: Poly, ver: Version, ecl: Ecc) returns (r: Result<Poly>)
    ensures |data| != NumDataCodewords(ver, ecl) ==> r == Err(InvalidArgument)
    ensures |data| == NumDataCodewords(ver, ecl) ==>
              |data| == SymbolLayout(ver, ecl).DataFrom(0) && r == Ok(AllCodewords(data, SymbolLayout(ver, ecl)))
    ensures r.Ok? ==> |r.value| == RawCodewords(ver)
  {
    hide Rows, Split, Layout.RowStart, Layout.DataFrom, NumErrorCorrectionBlocks, EccCodewordsPerBlock, RawCodewords;
    SymbolLayoutTotals(ver, ecl);
    if |data| != NumDataCodewords(ver, ecl) {
      return Err(InvalidArgument);
    }
    SymbolLayoutOk(ver, ecl);
    var numBlocks := NumErrorCorrectionBlocks(ecl, ver);
    var blockEccLen := EccCodewordsPerBlock(ecl, ver);
    var rawCodewords := RawCodewords(ver);
    var numShortBlocks := numBlocks - rawCodewords % numBlocks;
    var shortBlockLen := rawCodewords / numBlocks;
    var l := Layout(numBlocks, blockEccLen, numShortBlocks, shortBlockLen - blockEccLen);
    var blocks := MakeBlocks(data, l);
    var result := InterleaveBlocks(blocks, l);
    assert |result| == rawCodewords;
    r := Ok(result);
  }

  // ----- Damage -----

  /** At most half as many bytes of each block are damaged as it has check bytes. */
  ghost predicate LightlyDamaged(raw: Poly, received: Poly, l: Layout)
    requires l.Valid() && |raw| == |received| == l.RowStart(l.BlockLen())
  {
    forall j :: 0 <= j < l.blocks ==> 2 * Distance(ReadBlock(raw, l, j), ReadBlock(received, l, j)) <= l.ecc
  }

  /** A lightly damaged sequence determines the data that it was made from. */
  lemma DamageTolerated(data: Poly, other: Poly, received: Poly, l: Layout)
    requires l.Valid() && l.BlockLen() <= 255
    requires |data| == |other| == l.DataFrom(0) && |received| == l.RowStart(l.BlockLen())
    requires LightlyDamaged(AllCodewords(data, l), received, l)
    requires LightlyDamaged(AllCodewords(other, l), received, l)
    ensures other == data
  {
    hide AllCodewords, ReadBlock, Split, Distance, Generator, Remainder, Layout.RowStart, Layout.DataFrom, IsCodeword;
    forall j | 0 <= j < l.blocks
      ensures Split(data, l, 0)[j] == Split(other, l, 0)[j]
    {
      var a, b := Split(data, l, 0)[j], Split(other, l, 0)[j];
      BlockReadsBack(data, l, j);
      BlockReadsBack(other, l, j);
      EncodedIsCodeword(a, l.ecc);
      EncodedIsCodeword(b, l.ecc);
      var sent, word := a + Check(a, l.ecc), ReadBlock(received, l, j);
      var found := b + Check(b, l.ecc);
      DistanceSymmetric(found, word);
      UniqueCorrection(sent, word, found, l.ecc, l.ecc / 2);
      assert sent[..|a|] == a && found[..|b|] == b;
    }
    ConcatSplit(data, l, 0);
    ConcatSplit(other, l, 0);
    assert Split(data, l, 0) == Split(other, l, 0);
  }
}
