/**
 Splitting the data codewords into blocks, appending error correction to each, and
 interleaving the blocks.  Block counts and lengths stay symbolic throughout.
 */
module Interleaving {
  import opened Bits
  import opened Polynomials
  import opened ReedSolomon

  lemma {:induction false} Redistribute(n: int, q: int, e: int)
    ensures n * (q - e) == n * q - e * n
  {
  }

  /** How the raw codewords of a symbol are shared out among its blocks. */
  datatype Layout = Layout(numBlocks: nat, eccLen: nat, rawCodewords: nat) {

    ghost predicate Valid() {
      && numBlocks >= 1
      && 1 <= eccLen <= 255
      && rawCodewords / numBlocks >= eccLen
    }

    /** The number of blocks that are one data codeword shorter than the others; never zero. */
    function ShortBlocks(): (n: nat)
      requires numBlocks >= 1
      ensures 1 <= n <= numBlocks
    {
      numBlocks - rawCodewords % numBlocks
    }

    /** The number of data codewords in a short block. */
    function ShortData(): nat
      requires Valid()
    {
      rawCodewords / numBlocks - eccLen
    }

    /** The number of data codewords in block `j`. */
    function DataLen(j: nat): nat
      requires Valid()
    {
      ShortData() + (if j < ShortBlocks() then 0 else 1)
    }

    /** The length of a block once the short ones are padded. */
    function PaddedLen(): nat
      requires Valid()
    {
      ShortData() + 1 + eccLen
    }

    /** The number of data codewords in the first `j` blocks. */
    function Offset(j: nat): nat
      requires Valid()
    {
      if j == 0 then 0 else Offset(j - 1) + DataLen(j - 1)
    }

    function DataCodewords(): int {
      rawCodewords - eccLen * numBlocks
    }

    /** The first block that has a codeword in row `i`. */
    function FirstIn(i: nat): (f: nat)
      requires Valid()
      ensures f <= numBlocks
    {
      if i == ShortData() then ShortBlocks() else 0
    }

    /** Where row `i` starts in the interleaved sequence. */
    function RowStart(i: nat): nat
      requires Valid()
    {
      if i == 0 then 0 else RowStart(i - 1) + numBlocks - FirstIn(i - 1)
    }

    lemma {:induction false} OffsetClosed(j: nat)
      requires Valid()
      ensures Offset(j) == j * ShortData() + (if j > ShortBlocks() then j - ShortBlocks() else 0)
    {
      if j != 0 {
        OffsetClosed(j - 1);
        assert j * ShortData() == (j - 1) * ShortData() + ShortData();
      }
    }

    /** The block slices use up the data exactly. */
    lemma {:induction false} OffsetsPartition()
      requires Valid()
      ensures Offset(numBlocks) == DataCodewords()
    {
      hide Offset;
      OffsetClosed(numBlocks);
      Redistribute(numBlocks, rawCodewords / numBlocks, eccLen);
    }

    lemma {:induction false} OffsetMonotone(i: nat, j: nat)
      requires Valid() && i <= j
      ensures Offset(i) <= Offset(j)
    {
      if i < j {
        OffsetMonotone(i, j - 1);
      }
    }

    lemma {:induction false} RowStartClosed(i: nat)
      requires Valid()
      ensures RowStart(i) == i * numBlocks - (if i > ShortData() then ShortBlocks() else 0)
    {
      if i != 0 {
        RowStartClosed(i - 1);
        assert i * numBlocks == (i - 1) * numBlocks + numBlocks;
      }
    }

    /** The rows use up the raw codewords exactly, also when every block is short. */
    lemma {:induction false} RowsPartition()
      requires Valid()
      ensures RowStart(PaddedLen()) == rawCodewords
    {
      RowStartClosed(PaddedLen());
      var q, r := rawCodewords / numBlocks, rawCodewords % numBlocks;
      assert PaddedLen() == q + 1;
      assert rawCodewords == numBlocks * q + r;
      assert (q + 1) * numBlocks == numBlocks * q + numBlocks;
    }

    lemma {:induction false} RowStartMonotone(i: nat, j: nat)
      requires Valid() && i <= j
      ensures RowStart(i) <= RowStart(j)
    {
      if i < j {
        RowStartMonotone(i, j - 1);
      }
    }
  }

  // ---------- interleaving ----------

  ghost predicate WellFormed(l: Layout, blocks: seq<seq<Byte>>) {
    && l.Valid()
    && |blocks| == l.numBlocks
    && forall j :: 0 <= j < |blocks| ==> |blocks[j]| == l.PaddedLen()
  }

  /** The codewords at index `i` of every block that has one there. */
  function Row(l: Layout, blocks: seq<seq<Byte>>, i: nat): (row: seq<Byte>)
    requires WellFormed(l, blocks) && i < l.PaddedLen()
    ensures |row| == l.numBlocks - l.FirstIn(i)
  {
    var f := l.FirstIn(i);
    seq(|blocks| - f, k requires 0 <= k < |blocks| - f => blocks[f + k][i])
  }

  /** The first `n` rows, one after the other. */
  function Rows(l: Layout, blocks: seq<seq<Byte>>, n: nat): (out: seq<Byte>)
    requires WellFormed(l, blocks) && n <= l.PaddedLen()
    ensures |out| == l.RowStart(n)
  {
    if n == 0 then [] else Rows(l, blocks, n - 1) + Row(l, blocks, n - 1)
  }

  function Interleave(l: Layout, blocks: seq<seq<Byte>>): (out: seq<Byte>)
    requires WellFormed(l, blocks)
    ensures |out| == l.rawCodewords
  {
    l.RowsPartition();
    Rows(l, blocks, l.PaddedLen())
  }

  /** The bytes of `out` that belong to block `j`, with a zero where a short block is padded. */
  function BlockAt(l: Layout, out: seq<Byte>, j: nat): (block: seq<Byte>)
    requires l.Valid() && |out| == l.rawCodewords && j < l.numBlocks
    ensures |block| == l.PaddedLen()
  {
    seq(l.PaddedLen(), i requires 0 <= i < l.PaddedLen() =>
      if j < l.FirstIn(i) then 0
      else
        IndexInRange(l, i, j);
        out[l.RowStart(i) + j - l.FirstIn(i)])
  }

  lemma {:induction false} IndexInRange(l: Layout, i: nat, j: nat)
    requires l.Valid() && i < l.PaddedLen() && l.FirstIn(i) <= j < l.numBlocks
    ensures l.RowStart(i) + j - l.FirstIn(i) < l.RowStart(i + 1) <= l.rawCodewords
  {
    l.RowStartMonotone(i + 1, l.PaddedLen());
    l.RowsPartition();
  }

  function Deinterleave(l: Layout, out: seq<Byte>): (blocks: seq<seq<Byte>>)
    requires l.Valid() && |out| == l.rawCodewords
    ensures WellFormed(l, blocks)
  {
    seq(l.numBlocks, j requires 0 <= j < l.numBlocks => BlockAt(l, out, j))
  }

  /** The padding byte of every short block is zero. */
  ghost predicate PaddedWithZero(l: Layout, blocks: seq<seq<Byte>>)
    requires WellFormed(l, blocks)
  {
    forall j :: 0 <= j < l.ShortBlocks() ==> blocks[j][l.ShortData()] == 0
  }

  lemma {:induction false} RowsIndex(l: Layout, blocks: seq<seq<Byte>>, n: nat, i: nat, j: nat)
    requires WellFormed(l, blocks) && i < n <= l.PaddedLen()
    requires l.FirstIn(i) <= j < l.numBlocks
    ensures var k := l.RowStart(i) + j - l.FirstIn(i);
            k < |Rows(l, blocks, n)| && Rows(l, blocks, n)[k] == blocks[j][i]
  {
    if i < n - 1 {
      RowsIndex(l, blocks, n - 1, i, j);
    }
  }

  /** De-interleaving undoes interleaving. */
  lemma {:induction false} DeinterleaveInterleave(l: Layout, blocks: seq<seq<Byte>>)
    requires WellFormed(l, blocks) && PaddedWithZero(l, blocks)
    ensures Deinterleave(l, Interleave(l, blocks)) == blocks
  {
    var out := Interleave(l, blocks);
    forall j | 0 <= j < l.numBlocks ensures BlockAt(l, out, j) == blocks[j] {
      forall i | 0 <= i < l.PaddedLen() ensures BlockAt(l, out, j)[i] == blocks[j][i] {
        if l.FirstIn(i) <= j {
          RowsIndex(l, blocks, l.PaddedLen(), i, j);
        }
      }
    }
  }

  /** Interleaving undoes de-interleaving: no codeword of the sequence is left out. */
  lemma {:induction false} InterleaveDeinterleave(l: Layout, out: seq<Byte>)
    requires l.Valid() && |out| == l.rawCodewords
    ensures Interleave(l, Deinterleave(l, out)) == out
    ensures PaddedWithZero(l, Deinterleave(l, out))
  {
    RowsAreSlices(l, out, l.PaddedLen());
    l.RowsPartition();
  }

  lemma {:induction false} RowsAreSlices(l: Layout, out: seq<Byte>, n: nat)
    requires l.Valid() && |out| == l.rawCodewords && n <= l.PaddedLen()
    ensures l.RowStart(n) <= |out|
    ensures Rows(l, Deinterleave(l, out), n) == out[..l.RowStart(n)]
  {
    hide Layout.Valid, Layout.PaddedLen, Layout.RowStart, Row, Deinterleave;
    l.RowStartMonotone(n, l.PaddedLen());
    l.RowsPartition();
    if n != 0 {
      RowsAreSlices(l, out, n - 1);
      l.RowStartMonotone(n - 1, n);
      RowIsSlice(l, out, n - 1);
    }
  }

  lemma {:induction false} RowIsSlice(l: Layout, out: seq<Byte>, i: nat)
    requires l.Valid() && |out| == l.rawCodewords && i < l.PaddedLen()
    requires l.RowStart(i) <= l.RowStart(i + 1) <= |out|
    ensures Row(l, Deinterleave(l, out), i) == out[l.RowStart(i)..l.RowStart(i + 1)]
  {
    var blocks, f := Deinterleave(l, out), l.FirstIn(i);
    var row, slice := Row(l, blocks, i), out[l.RowStart(i)..l.RowStart(i + 1)];
    forall k | 0 <= k < |row| ensures row[k] == slice[k] {
      IndexInRange(l, i, f + k);
      assert blocks[f + k] == BlockAt(l, out, f + k);
    }
  }

  // ---------- blocks with error correction ----------

  /** The data codewords of block `j`. */
  function DataOf(l: Layout, data: seq<Byte>, j: nat): (d: seq<Byte>)
    requires l.Valid() && |data| == l.DataCodewords() && j < l.numBlocks
    ensures |d| == l.DataLen(j)
  {
    l.OffsetMonotone(j + 1, l.numBlocks);
    l.OffsetsPartition();
    data[l.Offset(j)..l.Offset(j + 1)]
  }

  /** Block `j`: its data, a padding zero if it is short, and its remainder. */
  function BlockOf(l: Layout, data: seq<Byte>, divisor: Poly, j: nat): (block: seq<Byte>)
    requires l.Valid() && |data| == l.DataCodewords() && |divisor| == l.eccLen && j < l.numBlocks
    ensures |block| == l.PaddedLen()
  {
    var d := DataOf(l, data, j);
    d + (if j < l.ShortBlocks() then [0] else []) + Remainder(d, divisor)
  }

  function BlocksOf(l: Layout, data: seq<Byte>, divisor: Poly): (blocks: seq<seq<Byte>>)
    requires l.Valid() && |data| == l.DataCodewords() && |divisor| == l.eccLen
    ensures WellFormed(l, blocks) && PaddedWithZero(l, blocks)
  {
    seq(l.numBlocks, j requires 0 <= j < l.numBlocks => BlockOf(l, data, divisor, j))
  }

  /** The generator polynomial without its leading 1. */
  function DivisorOf(degree: nat): (d: Poly)
    requires degree >= 1
    ensures |d| == degree
    ensures [1] + d == Generator(degree)
  {
    GeneratorIsMonic(degree);
    Generator(degree)[1..]
  }

  function WithEcc(l: Layout, data: seq<Byte>): (out: seq<Byte>)
    requires l.Valid() && |data| == l.DataCodewords()
    ensures |out| == l.rawCodewords
  {
    Interleave(l, BlocksOf(l, data, DivisorOf(l.eccLen)))
  }

  /** Splits, extends and interleaves; the final length check cannot fail. */
  method AddEccAndInterleave(l: Layout, data: seq<Byte>) returns (result: seq<Byte>)
    requires l.Valid() && |data| == l.DataCodewords()
    ensures |result| == l.rawCodewords
    ensures result == WithEcc(l, data)
  {
    hide Generator;
    var div := ComputeDivisor(l.eccLen);
    var rsDiv := div.value;
    assert rsDiv == DivisorOf(l.eccLen) by {
      assert rsDiv == ([1] + rsDiv)[1..];
    }
    var blocks := SplitBlocks(l, data, rsDiv);
    result := CollectRows(l, blocks);
  }

  /** The splitting loop. */
  method SplitBlocks(l: Layout, data: seq<Byte>, rsDiv: Poly) returns (blocks: seq<seq<Byte>>)
    requires l.Valid() && |data| == l.DataCodewords() && |rsDiv| == l.eccLen
    ensures blocks == BlocksOf(l, data, rsDiv)
  {
    hide Remainder;
    var numShortBlocks := l.ShortBlocks();
    var shortBlockLen := l.rawCodewords / l.numBlocks;
    blocks := [];
    var k := 0;
    l.OffsetsPartition();
    for i := 0 to l.numBlocks
      invariant k == l.Offset(i) <= |data|
      invariant |blocks| == i
      invariant forall j :: 0 <= j < i ==> blocks[j] == BlockOf(l, data, rsDiv, j)
    {
      l.OffsetMonotone(i + 1, l.numBlocks);
      var dat := data[k..k + shortBlockLen - l.eccLen + (if i < numShortBlocks then 0 else 1)];
      assert dat == DataOf(l, data, i);
      k := k + |dat|;
      var ecc := ComputeRemainder(dat, rsDiv);
      if i < numShortBlocks {
        dat := dat + [0];
      }
      dat := dat + ecc;
      blocks := blocks + [dat];
    }
  }

  /** The interleaving loops. */
  method CollectRows(l: Layout, blocks: seq<seq<Byte>>) returns (result: seq<Byte>)
    requires WellFormed(l, blocks)
    ensures result == Interleave(l, blocks)
  {
    result := [];
    for i := 0 to |blocks[0]|
      invariant result == Rows(l, blocks, i)
    {
      ghost var f, before := l.FirstIn(i), result;
      for j := 0 to |blocks|
        invariant result == before + Row(l, blocks, i)[..if j < f then 0 else j - f]
      {
        if i != l.rawCodewords / l.numBlocks - l.eccLen || j >= l.ShortBlocks() {
          result := result + [blocks[j][i]];
        }
      }
    }
  }

  // ---------- where everything goes ----------

  /** The place of the codeword at index `i` of block `j`. */
  function SlotOf(l: Layout, i: nat, j: nat): int
    requires l.Valid()
  {
    i * l.numBlocks + j - (if i >= l.ShortData() then l.ShortBlocks() else 0)
  }

  lemma {:induction false} SlotIs(l: Layout, i: nat, j: nat)
    requires l.Valid()
    ensures SlotOf(l, i, j) == l.RowStart(i) + j - l.FirstIn(i)
  {
    hide Layout.RowStart;
    l.RowStartClosed(i);
  }

  lemma {:induction false} InterleaveAt(l: Layout, blocks: seq<seq<Byte>>, i: nat, j: nat)
    requires WellFormed(l, blocks) && i < l.PaddedLen() && l.FirstIn(i) <= j < l.numBlocks
    ensures 0 <= SlotOf(l, i, j) < l.rawCodewords && Interleave(l, blocks)[SlotOf(l, i, j)] == blocks[j][i]
  {
    hide Rows, SlotOf, Layout.RowStart, Layout.Valid, Layout.FirstIn, Layout.PaddedLen;
    IndexInRange(l, i, j);
    RowsIndex(l, blocks, l.PaddedLen(), i, j);
    SlotIs(l, i, j);
  }

  /** Where the data of block `j` starts. */
  function DataStart(l: Layout, j: nat): nat
    requires l.Valid()
  {
    j * l.ShortData() + (if j > l.ShortBlocks() then j - l.ShortBlocks() else 0)
  }

  lemma {:induction false} DataOfAt(l: Layout, data: seq<Byte>, i: nat, j: nat)
    requires l.Valid() && |data| == l.DataCodewords() && j < l.numBlocks && i < l.DataLen(j)
    ensures DataStart(l, j) + i < |data| && DataOf(l, data, j)[i] == data[DataStart(l, j) + i]
  {
    hide Layout.Offset, Layout.DataLen, Layout.DataCodewords, Layout.ShortBlocks, Layout.ShortData;
    l.OffsetMonotone(j, j + 1);
    l.OffsetMonotone(j + 1, l.numBlocks);
    l.OffsetsPartition();
    assert |DataOf(l, data, j)| == l.Offset(j + 1) - l.Offset(j);
    l.OffsetClosed(j);
  }

  /** Where codeword `i` of the data of block `j` comes from and where it goes. */
  lemma {:induction false} DataGoesTo(l: Layout, data: seq<Byte>, i: nat, j: nat)
    requires l.Valid() && |data| == l.DataCodewords() && j < l.numBlocks && i < l.DataLen(j)
    ensures 0 <= SlotOf(l, i, j) < l.rawCodewords && DataStart(l, j) + i < |data|
    ensures WithEcc(l, data)[SlotOf(l, i, j)] == data[DataStart(l, j) + i]
  {
    hide Layout.Offset, Remainder, DivisorOf, Interleave, SlotOf, DataStart, DataOf;
    var blocks := BlocksOf(l, data, DivisorOf(l.eccLen));
    DataOfAt(l, data, i, j);
    InterleaveAt(l, blocks, i, j);
    assert blocks[j][i] == DataOf(l, data, j)[i];
  }

  function EccSlot(l: Layout, dataLen: nat, k: nat, j: nat): nat {
    dataLen + k * l.numBlocks + j
  }

  /** Error correction codeword `k` of block `j` follows all data, again one of every block in turn. */
  lemma {:induction false} EccGoesTo(l: Layout, data: seq<Byte>, k: nat, j: nat)
    requires l.Valid() && |data| == l.DataCodewords() && j < l.numBlocks && k < l.eccLen
    ensures EccSlot(l, |data|, k, j) < l.rawCodewords
    ensures WithEcc(l, data)[EccSlot(l, |data|, k, j)] == Remainder(DataOf(l, data, j), DivisorOf(l.eccLen))[k]
  {
    hide Remainder, DivisorOf, Interleave, DataOf, BlockOf, EccSlot, SlotOf;
    var i := l.ShortData() + 1 + k;
    var blocks := BlocksOf(l, data, DivisorOf(l.eccLen));
    InterleaveAt(l, blocks, i, j);
    EccOfBlock(l, data, DivisorOf(l.eccLen), k, j);
    EccPlace(l, k, j);
  }

  lemma {:induction false} EccOfBlock(l: Layout, data: seq<Byte>, divisor: Poly, k: nat, j: nat)
    requires l.Valid() && |data| == l.DataCodewords() && |divisor| == l.eccLen && j < l.numBlocks && k < l.eccLen
    ensures BlockOf(l, data, divisor, j)[l.ShortData() + 1 + k] == Remainder(DataOf(l, data, j), divisor)[k]
  {
    hide Remainder, DataOf;
  }

  lemma {:induction false} EccPlace(l: Layout, k: nat, j: nat)
    requires l.Valid() && l.DataCodewords() >= 0
    ensures SlotOf(l, l.ShortData() + 1 + k, j) == EccSlot(l, l.DataCodewords(), k, j)
  {
    var q, n := l.rawCodewords / l.numBlocks, l.numBlocks;
    Redistribute(n, q, l.eccLen);
    assert (l.ShortData() + 1 + k) * n == l.ShortData() * n + n + k * n;
  }

  // ---------- reading back ----------

  /** The data codewords of the first `n` blocks, in order. */
  function JoinData(l: Layout, blocks: seq<seq<Byte>>, n: nat): seq<Byte>
    requires WellFormed(l, blocks) && n <= l.numBlocks
  {
    if n == 0 then [] else JoinData(l, blocks, n - 1) + blocks[n - 1][..l.DataLen(n - 1)]
  }

  /** What a reader takes to be the data codewords. */
  function ReadData(l: Layout, out: seq<Byte>): seq<Byte>
    requires l.Valid() && |out| == l.rawCodewords
  {
    JoinData(l, Deinterleave(l, out), l.numBlocks)
  }

  /** What a reader takes to be block `j` without its padding. */
  function ReadBlock(l: Layout, out: seq<Byte>, j: nat): seq<Byte>
    requires l.Valid() && |out| == l.rawCodewords && j < l.numBlocks
  {
    var b := BlockAt(l, out, j);
    b[..l.DataLen(j)] + b[l.ShortData() + 1..]
  }

  lemma {:induction false} JoinDataOf(l: Layout, data: seq<Byte>, divisor: Poly, n: nat)
    requires l.Valid() && |data| == l.DataCodewords() && |divisor| == l.eccLen && n <= l.numBlocks
    ensures l.Offset(n) <= |data|
    ensures JoinData(l, BlocksOf(l, data, divisor), n) == data[..l.Offset(n)]
  {
    hide Remainder;
    l.OffsetMonotone(n, l.numBlocks);
    l.OffsetsPartition();
    if n != 0 {
      JoinDataOf(l, data, divisor, n - 1);
      assert BlocksOf(l, data, divisor)[n - 1][..l.DataLen(n - 1)] == DataOf(l, data, n - 1);
    }
  }

  /** De-interleaving and dropping the error correction gives back the data. */
  lemma {:induction false} ReadDataWithEcc(l: Layout, data: seq<Byte>)
    requires l.Valid() && |data| == l.DataCodewords()
    ensures ReadData(l, WithEcc(l, data)) == data
  {
    var divisor := DivisorOf(l.eccLen);
    DeinterleaveInterleave(l, BlocksOf(l, data, divisor));
    JoinDataOf(l, data, divisor, l.numBlocks);
    l.OffsetsPartition();
  }

  /** Every block a reader sees is a Reed-Solomon codeword. */
  lemma {:induction false} ReadBlocksAreCodewords(l: Layout, data: seq<Byte>, j: nat)
    requires l.Valid() && |data| == l.DataCodewords() && j < l.numBlocks
    ensures ReadBlock(l, WithEcc(l, data), j)
         == DataOf(l, data, j) + Remainder(DataOf(l, data, j), DivisorOf(l.eccLen))
    ensures IsCodeword(ReadBlock(l, WithEcc(l, data), j), l.eccLen)
  {
    hide Remainder;
    var divisor, out := DivisorOf(l.eccLen), WithEcc(l, data);
    var blocks := BlocksOf(l, data, divisor);
    DeinterleaveInterleave(l, blocks);
    assert BlockAt(l, out, j) == Deinterleave(l, out)[j] == BlockOf(l, data, divisor, j);
    var d := DataOf(l, data, j);
    assert ReadBlock(l, out, j) == d + Remainder(d, divisor);
    BlockIsCodeword(d, divisor, l.eccLen);
  }
}
