/** Where every byte of the data and every check byte stands in the sequence of codewords: section 7.6 of ISO/IEC 18004:2015. */
module CodewordOrder {
  import opened BinaryPoly
  import opened Interleave
  import opened Polynomial
  import RadixCode

  /** Where the data of block j starts: short blocks first, then those with one byte more. */
  function BlockStart(l: Layout, j: nat): nat {
    l.shortData * j + if j <= l.short then 0 else j - l.short
  }

  lemma BlockStartStep(l: Layout, j: nat)
    ensures BlockStart(l, j + 1) == BlockStart(l, j) + l.DataLen(j)
  {
    RadixCode.Distribute(l.shortData, j, 1);
  }

  lemma {:induction false} BlockAt(data: Poly, l: Layout, j: nat)
    requires l.Valid() && |data| == l.DataFrom(0) && j <= l.blocks
    ensures BlockStart(l, j) + l.DataFrom(j) == |data|
    ensures Split(data, l, 0)[j..] == Split(data[BlockStart(l, j)..], l, j)
  {
    hide Split, Layout.DataFrom, BlockStart;
    if j == 0 {
      FirstBlock(l);
      assert data[0..] == data;
    } else {
      BlockAt(data, l, j - 1);
      BlockStartStep(l, j - 1);
      DataFromStep(l, j - 1);
      SplitSuffix(data, l, j - 1, BlockStart(l, j - 1));
    }
  }

  lemma FirstBlock(l: Layout)
    ensures BlockStart(l, 0) == 0
  {
  }

  /** The data bytes of block j. */
  function BlockData(data: Poly, l: Layout, j: nat): Poly
    requires l.Valid() && |data| == l.DataFrom(0) && j < l.blocks
  {
    BlockAt(data, l, j);
    DataFromStep(l, j);
    data[BlockStart(l, j)..BlockStart(l, j) + l.DataLen(j)]
  }

  lemma BlockDataIsSplit(data: Poly, l: Layout, j: nat)
    requires l.Valid() && |data| == l.DataFrom(0) && j < l.blocks
    ensures Split(data, l, 0)[j] == BlockData(data, l, j)
  {
    hide Split, Layout.DataFrom, BlockStart;
    BlockAt(data, l, j);
    SplitSuffix(data, l, j, BlockStart(l, j));
  }

  /** Byte i of the data of block j stands at place j of row i; in the row that only long blocks have, the short ones do not count. */
  lemma DataOrder(data: Poly, l: Layout, j: nat, i: nat)
    requires l.Valid() && |data| == l.DataFrom(0) && j < l.blocks && i < l.DataLen(j)
    ensures var place := l.blocks * i + j - if i < l.shortData then 0 else l.short;
            && BlockStart(l, j) + i < |data| && 0 <= place < |AllCodewords(data, l)|
            && AllCodewords(data, l)[place] == data[BlockStart(l, j) + i]
  {
    hide Split, Layout.DataFrom, Layout.RowStart, BlockStart, Check, Rows;
    BlockDataIsSplit(data, l, j);
    BlockAt(data, l, j);
    DataFromStep(l, j);
    RowsAt(PaddedBlocks(data, l), l, l.BlockLen(), i, j);
    RowStartClosed(l, i);
  }

  /** The check bytes of all blocks stand behind the data, byte i of block j at place j of row i. */
  lemma CheckOrder(data: Poly, l: Layout, j: nat, i: nat)
    requires l.Valid() && |data| == l.DataFrom(0) && j < l.blocks && i < l.ecc
    ensures var place := |data| + l.blocks * i + j;
            place < |AllCodewords(data, l)| && AllCodewords(data, l)[place] == Check(BlockData(data, l, j), l.ecc)[i]
  {
    hide Split, Layout.DataFrom, Layout.RowStart, BlockStart, Check, Rows, BlockData;
    BlockDataIsSplit(data, l, j);
    var row := l.shortData + 1 + i;
    RowsAt(PaddedBlocks(data, l), l, l.BlockLen(), row, j);
    RowStartClosed(l, row);
    DataFromClosed(l, 0);
    RadixCode.Distribute(l.blocks, l.shortData + 1, i);
    RadixCode.Distribute(l.blocks, l.shortData, 1);
    assert l.shortData * l.blocks == l.blocks * l.shortData;
  }
}
