/**
 A finished symbol as a value: function patterns, codeword bits along the data path, one mask,
 and the format bits that name it; and the reader that takes a symbol apart again.
 */
module Symbol {
  import opened Bits
  import opened Grids
  import opened Tables
  import opened FormatInfo
  import opened Patterns
  import opened Zigzag
  import opened DataArea
  import opened Masking
  import opened Penalty
  import opened Interleaving

  /** A reservation grid that leaves room for `n` codewords. */
  ghost predicate CanPlace(fn: Grid, n: nat) {
    |fn| >= 21 && |fn| % 2 == 1 && Square(fn, |fn|) && |DataPath(fn)| >= 8 * n
  }

  /** The same, with the format modules reserved. */
  ghost predicate HasRoom(fn: Grid, n: nat) {
    && CanPlace(fn, n) && NoRepeats(DataPath(fn))
    && forall q :: Inside(q, |fn|) && InFormat(|fn|, q) ==> At(fn, q)
  }

  /** The function patterns `base` with the codewords laid into the data area. */
  function Filled(base: Grid, fn: Grid, codewords: seq<Byte>): (g: Grid)
    requires CanPlace(fn, |codewords|) && Square(base, |fn|)
    ensures Square(g, |fn|)
  {
    var bits := BitsOf(codewords);
    Place(base, DataPath(fn), bits, |bits|)
  }

  /** Bit by bit: where the codewords are, and that nothing else has changed. */
  lemma {:induction false} FilledAt(base: Grid, fn: Grid, codewords: seq<Byte>)
    requires CanPlace(fn, |codewords|) && Square(base, |fn|)
    ensures forall i :: 0 <= i < 8 * |codewords| ==>
              At(Filled(base, fn, codewords), DataPath(fn)[i]) == GetBit(codewords[i / 8], 7 - i % 8)
    ensures forall q :: Inside(q, |fn|) && q !in DataPath(fn)[..8 * |codewords|] ==>
              At(Filled(base, fn, codewords), q) == At(base, q)
  {
    hide DataPath, Place, BitsOf, GetBit;
    var path, bits := DataPath(fn), BitsOf(codewords);
    PathHasNoRepeats(fn);
    PlaceAt(base, path, bits, |bits|);
    forall i | 0 <= i < |bits|
      ensures At(Filled(base, fn, codewords), path[i]) == GetBit(codewords[i / 8], 7 - i % 8)
    {
      BitsOfIndex(codewords, i);
    }
  }

  /** The finished symbol with mask `m`. */
  function SymbolGrid(base: Grid, fn: Grid, ecl: Ecc, codewords: seq<Byte>, m: nat): (g: Grid)
    requires HasRoom(fn, |codewords|) && Square(base, |fn|)
    ensures Square(g, |fn|)
  {
    Paint(Masked(Filled(base, fn, codewords), fn, m), Format(FormatWord(ecl, m)))
  }

  /** Whatever format bits were there before, masking and repainting gives the finished symbol. */
  lemma {:induction false} RemaskedSymbol(base: Grid, fn: Grid, ecl: Ecc, codewords: seq<Byte>, before: nat, m: nat)
    requires HasRoom(fn, |codewords|) && Square(base, |fn|)
    ensures Paint(Masked(Paint(Filled(base, fn, codewords), Format(before)), fn, m), Format(FormatWord(ecl, m)))
         == SymbolGrid(base, fn, ecl, codewords, m)
  {
    hide Filled, Paint, Masked, FormatWord, FormatIndex, DataPath;
    var f := Filled(base, fn, codewords);
    assert forall q :: Covers(Format(before), |fn|, q) <==> InFormat(|fn|, q);
    MaskCommutes(f, fn, m, Format(before));
    RepaintFormat(Masked(f, fn, m), before, FormatWord(ecl, m));
  }

  /** Masking a finished symbol again leaves the unmasked data under its format bits. */
  lemma {:induction false} UnmaskedSymbol(base: Grid, fn: Grid, ecl: Ecc, codewords: seq<Byte>, m: nat)
    requires HasRoom(fn, |codewords|) && Square(base, |fn|)
    ensures Masked(SymbolGrid(base, fn, ecl, codewords, m), fn, m)
         == Paint(Filled(base, fn, codewords), Format(FormatWord(ecl, m)))
  {
    hide Filled, Paint, Masked, FormatWord, FormatIndex, DataPath;
    var f, word := Filled(base, fn, codewords), FormatWord(ecl, m);
    assert forall q :: Covers(Format(word), |fn|, q) <==> InFormat(|fn|, q);
    MaskCommutes(Masked(f, fn, m), fn, m, Format(word));
    MaskUndoes(f, fn, m);
  }

  /** A grid that masking and format bits turn into the finished symbol. */
  ghost predicate Unmasked(g: Grid, base: Grid, fn: Grid, codewords: seq<Byte>)
    requires HasRoom(fn, |codewords|) && Square(base, |fn|)
  {
    g == Filled(base, fn, codewords) || exists bits: nat :: g == Paint(Filled(base, fn, codewords), Format(bits))
  }

  lemma {:induction false} UnmaskedBecomesSymbol(g: Grid, base: Grid, fn: Grid, ecl: Ecc, codewords: seq<Byte>, m: nat)
    requires HasRoom(fn, |codewords|) && Square(base, |fn|) && Unmasked(g, base, fn, codewords)
    ensures Square(g, |fn|)
    ensures Paint(Masked(g, fn, m), Format(FormatWord(ecl, m))) == SymbolGrid(base, fn, ecl, codewords, m)
  {
    hide Filled, Paint, Masked, FormatWord, CanPlace;
    if bits: nat :| g == Paint(Filled(base, fn, codewords), Format(bits)) {
      RemaskedSymbol(base, fn, ecl, codewords, bits, m);
    }
  }

  lemma {:induction false} SymbolBecomesUnmasked(base: Grid, fn: Grid, ecl: Ecc, codewords: seq<Byte>, m: nat)
    requires HasRoom(fn, |codewords|) && Square(base, |fn|)
    ensures Unmasked(Masked(SymbolGrid(base, fn, ecl, codewords, m), fn, m), base, fn, codewords)
  {
    hide Filled, Paint, Masked, FormatWord, SymbolGrid, CanPlace;
    UnmaskedSymbol(base, fn, ecl, codewords, m);
  }

  /** Drawing format bits reserves nothing new. */
  lemma {:induction false} FormatReservesNothing(fn: Grid, n: nat, bits: nat)
    requires HasRoom(fn, n)
    ensures Mark(fn, Format(bits)) == fn
  {
    hide Mark, FormatIndex, DataPath;
    assert forall q :: Covers(Format(bits), |fn|, q) <==> InFormat(|fn|, q);
    Extensional(Mark(fn, Format(bits)), fn, |fn|);
  }

  /** Among the masks below `n`, `m` has the lowest score, and no earlier one has the same. */
  ghost predicate BestBelow(base: Grid, fn: Grid, ecl: Ecc, codewords: seq<Byte>, n: nat, m: int)
    requires HasRoom(fn, |codewords|) && Square(base, |fn|)
  {
    && 0 <= m < n
    && forall k: nat :: k < n ==>
         && Score(SymbolGrid(base, fn, ecl, codewords, m)) <= Score(SymbolGrid(base, fn, ecl, codewords, k))
         && (k < m ==> Score(SymbolGrid(base, fn, ecl, codewords, m)) < Score(SymbolGrid(base, fn, ecl, codewords, k)))
  }

  // ---------- reading ----------

  /** Where bit `i` of the first copy of the format word is. */
  function FormatPos(i: nat): Pos
    requires i < 15
  {
    if i <= 5 then Pos(8, i)
    else if i == 6 then Pos(8, 7)
    else if i == 7 then Pos(8, 8)
    else if i == 8 then Pos(7, 8)
    else Pos(14 - i, 8)
  }

  lemma {:induction false} FormatPosIndex(size: nat, i: nat)
    requires i < 15 && size >= 21
    ensures Inside(FormatPos(i), size) && FormatIndex(size, FormatPos(i)) == i
  {
  }

  /** The format word as a reader sees it. */
  function ReadFormat(g: Grid): nat
    requires Square(g, |g|) && |g| >= 21
  {
    FromBits(seq(15, i requires 0 <= i < 15 => At(g, FormatPos(14 - i))))
  }

  function ReadLevel(g: Grid): Ecc
    requires Square(g, |g|) && |g| >= 21
  {
    LevelOf(Xor(ReadFormat(g), FORMAT_MASK) / 1024 / 8)
  }

  function ReadMask(g: Grid): nat
    requires Square(g, |g|) && |g| >= 21
  {
    Xor(ReadFormat(g), FORMAT_MASK) / 1024 % 8
  }

  /** The format word painted on a grid is the one read from it. */
  lemma {:induction false} ReadFormatPainted(g: Grid, word: nat)
    requires Square(g, |g|) && |g| >= 21 && word < 0x8000
    ensures ReadFormat(Paint(g, Format(word))) == word
  {
    hide Paint, FormatIndex, FromBits, ToBits, FormatPos;
    var g' := Paint(g, Format(word));
    var bits := seq(15, i requires 0 <= i < 15 => (FormatPosIndex(|g|, 14 - i); At(g', FormatPos(14 - i))));
    forall i | 0 <= i < 15 ensures bits[i] == ToBits(word, 15)[i] {
      FormatPosIndex(|g|, 14 - i);
      assert Covers(Format(word), |g|, FormatPos(14 - i));
      ToBitsIndex(word, 15, i);
    }
    assert bits == ToBits(word, 15);
    Powers();
    FromToBits(word, 15);
  }

  /** Level and mask of a finished symbol are read back. */
  lemma {:induction false} ReadsHeader(base: Grid, fn: Grid, ecl: Ecc, codewords: seq<Byte>, m: nat)
    requires HasRoom(fn, |codewords|) && Square(base, |fn|) && m < 8
    ensures ReadLevel(SymbolGrid(base, fn, ecl, codewords, m)) == ecl
    ensures ReadMask(SymbolGrid(base, fn, ecl, codewords, m)) == m
  {
    hide Filled, Paint, Masked, FormatWord, Xor, ReadFormat, DataPath;
    FormatWordReads(ecl, m);
    ReadFormatPainted(Masked(Filled(base, fn, codewords), fn, m), FormatWord(ecl, m));
    LevelRoundTrip(ecl, m);
  }

  lemma {:induction false} CutLength(bits: seq<bool>, n: nat)
    requires |bits| >= 8 * n
    ensures |bits[..8 * n]| % 8 == 0 && |bits[..8 * n]| / 8 == n
  {
  }

  /** The first `n` codewords under mask `m`: unmask, scan, and cut into bytes. */
  function ReadMasked(g: Grid, fn: Grid, m: nat, n: nat): (codewords: seq<Byte>)
    requires HasRoom(fn, n) && Square(g, |fn|)
    ensures |codewords| == n
  {
    var unmasked := Masked(g, fn, m);
    var bits := ReadAlong(unmasked, DataPath(fn));
    CutLength(bits, n);
    BytesOf(bits[..8 * n])
  }

  /** The first `n` codewords as a reader sees them, who takes the mask from the format bits. */
  function ReadCodewords(g: Grid, fn: Grid, n: nat): (codewords: seq<Byte>)
    requires HasRoom(fn, n) && Square(g, |fn|)
    ensures |codewords| == n
  {
    ReadMasked(g, fn, ReadMask(g), n)
  }

  /** Reading a finished symbol gives back its codewords, whichever mask was used. */
  lemma {:induction false} ReadsCodewords(base: Grid, fn: Grid, ecl: Ecc, codewords: seq<Byte>, m: nat)
    requires HasRoom(fn, |codewords|) && Square(base, |fn|) && m < 8
    ensures ReadCodewords(SymbolGrid(base, fn, ecl, codewords, m), fn, |codewords|) == codewords
  {
    hide Paint, Masked, SymbolGrid, ReadMask, BitsOf, BytesOf, Place, FormatIndex, FormatWord;
    var word := FormatWord(ecl, m);
    ReadsHeader(base, fn, ecl, codewords, m);
    UnmaskedSymbol(base, fn, ecl, codewords, m);
    var f, path, bits := Filled(base, fn, codewords), DataPath(fn), BitsOf(codewords);
    forall i | 0 <= i < |path| ensures At(Paint(f, Format(word)), path[i]) == At(f, path[i]) {
      assert path[i] in path;
      assert !At(fn, path[i]);
      assert !InFormat(|fn|, path[i]);
    }
    assert ReadAlong(Paint(f, Format(word)), path) == ReadAlong(f, path);
    ReadPlaced(base, path, bits);
    BytesOfBitsOf(codewords);
  }

  // ---------- the symbol of a version ----------

  /** All function patterns, with the format bits of mask 0. */
  function Drawn(ver: int, ecl: Ecc): (g: Grid)
    requires IsVersion(ver)
    ensures Square(g, Size(ver))
  {
    PaintAll(Blank(Size(ver)), FunctionShapes(ver, ecl, 0))
  }

  /** The function patterns of every version leave room for its codewords. */
  lemma {:induction false} FunctionGridHasRoom(ver: int, ecl: Ecc)
    requires IsVersion(ver)
    ensures HasRoom(FunctionGrid(ver, ecl), NumRawDataModules(ver) / 8)
    ensures CanPlace(FunctionGrid(ver, ecl), NumRawDataModules(ver) / 8)
  {
    hide FunctionGrid, FormatIndex, Near, NumRawDataModules, DataPath, FunctionShapes;
    var fn := FunctionGrid(ver, ecl);
    Column6IsReserved(ver, ecl);
    FreeModules(ver, ecl);
    DataPathIsExact(fn);
    forall q | Inside(q, |fn|) && InFormat(|fn|, q) ensures At(fn, q) {
      FunctionGridAt(ver, ecl, q);
    }
  }

  /** The reservation grid does not depend on the level. */
  lemma {:induction false} FunctionGridSame(ver: int, ecl: Ecc)
    requires IsVersion(ver)
    ensures FunctionGrid(ver, ecl) == FunctionGrid(ver, LOW)
  {
    hide FunctionGrid, Reserved;
    var s := Size(ver);
    forall q | Inside(q, s) ensures At(FunctionGrid(ver, ecl), q) == At(FunctionGrid(ver, LOW), q) {
      FunctionGridAt(ver, ecl, q); FunctionGridAt(ver, LOW, q);
    }
    Extensional(FunctionGrid(ver, ecl), FunctionGrid(ver, LOW), s);
  }

  /** The finished symbol of the given data codewords. */
  function FinalGrid(ver: int, ecl: Ecc, data: seq<Byte>, m: nat): (g: Grid)
    requires IsVersion(ver) && |data| == NumDataCodewords(ver, ecl)
    ensures Square(g, Size(ver))
  {
    FunctionGridHasRoom(ver, ecl);
    SymbolGrid(Drawn(ver, ecl), FunctionGrid(ver, ecl), ecl, WithEcc(LayoutOf(ver, ecl), data), m)
  }

  /** The mask that automatic choice has to arrive at. */
  ghost predicate IsBestMask(ver: int, ecl: Ecc, data: seq<Byte>, m: int)
    requires IsVersion(ver) && |data| == NumDataCodewords(ver, ecl)
  {
    FunctionGridHasRoom(ver, ecl);
    BestBelow(Drawn(ver, ecl), FunctionGrid(ver, ecl), ecl, WithEcc(LayoutOf(ver, ecl), data), 8, m)
  }
}
