/** Versions, error correction levels and the two constant tables. */
module Tables {
  import opened Interleaving

  const MIN_VERSION := 1
  const MAX_VERSION := 40

  /** Error correction levels, from the weakest to the strongest. */
  datatype Ecc = LOW | MEDIUM | QUARTILE | HIGH {

    function Ordinal(): nat {
      match this
      case LOW => 0
      case MEDIUM => 1
      case QUARTILE => 2
      case HIGH => 3
    }
  }

  predicate IsVersion(ver: int) {
    MIN_VERSION <= ver <= MAX_VERSION
  }

  lemma {:induction false} QuadraticGrows(lo: nat, x: nat, hi: nat)
    requires lo <= x <= hi
    ensures (16 * lo + 128) * lo <= (16 * x + 128) * x <= (16 * hi + 128) * hi
  {
    assert lo * lo <= x * x <= hi * hi;
  }

  lemma {:induction false} RawBounds(ver: int)
    requires IsVersion(ver)
    ensures 144 <= (16 * ver + 128) * ver <= 30720
    ensures ver >= 2 ==> (16 * ver + 128) * ver >= 320
    ensures ver >= 7 ==> (16 * ver + 128) * ver >= 1680
    ensures ver <= 34 ==> (16 * ver + 128) * ver <= 22848
  {
    QuadraticGrows(1, ver, 40);
    if ver >= 2 {
      QuadraticGrows(2, ver, 40);
    }
    if ver >= 7 {
      QuadraticGrows(7, ver, 40);
    }
    if ver <= 34 {
      QuadraticGrows(1, ver, 34);
    }
  }

  lemma {:induction false} AlignBounds(n: int)
    requires 2 <= n <= 7
    ensures 25 <= (25 * n - 10) * n - 55 <= 1100
    ensures n == 7 ==> (25 * n - 10) * n - 55 == 1100
    ensures n == 2 ==> (25 * n - 10) * n - 55 == 25
  {
    if n == 2 || n == 3 || n == 4 {
    } else if n == 5 || n == 6 {
    } else {
      assert n == 7;
    }
  }

  /** The number of modules left for data and error correction once all function modules are excluded. */
  function NumRawDataModules(ver: int): (r: nat)
    requires IsVersion(ver)
    ensures 208 <= r <= 29648
  {
    RawBounds(ver);
    var result := (16 * ver + 128) * ver + 64;
    if ver >= 2 then
      var numAlign := ver / 7 + 2;
      AlignBounds(numAlign);
      result - ((25 * numAlign - 10) * numAlign - 55) - (if ver >= 7 then 36 else 0)
    else result
  }

  // The constant tables, one function per row; the index 0 is illegal.

  function EccCodewordsLow(ver: int): int {
    match ver
    case 1 => 7 case 2 => 10 case 3 => 15 case 4 => 20 case 5 => 26 case 6 => 18 case 7 => 20 case 8 => 24 case 9 => 30 case 10 => 18
    case 11 => 20 case 12 => 24 case 13 => 26 case 14 => 30 case 15 => 22 case 16 => 24 case 17 => 28 case 18 => 30 case 19 => 28 case 20 => 28
    case 21 => 28 case 22 => 28 case 23 => 30 case 24 => 30 case 25 => 26 case 26 => 28 case 27 => 30 case 28 => 30 case 29 => 30 case 30 => 30
    case 31 => 30 case 32 => 30 case 33 => 30 case 34 => 30 case 35 => 30 case 36 => 30 case 37 => 30 case 38 => 30 case 39 => 30 case 40 => 30
    case _ => -1
  }

  function EccCodewordsMedium(ver: int): int {
    match ver
    case 1 => 10 case 2 => 16 case 3 => 26 case 4 => 18 case 5 => 24 case 6 => 16 case 7 => 18 case 8 => 22 case 9 => 22 case 10 => 26
    case 11 => 30 case 12 => 22 case 13 => 22 case 14 => 24 case 15 => 24 case 16 => 28 case 17 => 28 case 18 => 26 case 19 => 26 case 20 => 26
    case 21 => 26 case 22 => 28 case 23 => 28 case 24 => 28 case 25 => 28 case 26 => 28 case 27 => 28 case 28 => 28 case 29 => 28 case 30 => 28
    case 31 => 28 case 32 => 28 case 33 => 28 case 34 => 28 case 35 => 28 case 36 => 28 case 37 => 28 case 38 => 28 case 39 => 28 case 40 => 28
    case _ => -1
  }

  function EccCodewordsQuartile(ver: int): int {
    match ver
    case 1 => 13 case 2 => 22 case 3 => 18 case 4 => 26 case 5 => 18 case 6 => 24 case 7 => 18 case 8 => 22 case 9 => 20 case 10 => 24
    case 11 => 28 case 12 => 26 case 13 => 24 case 14 => 20 case 15 => 30 case 16 => 24 case 17 => 28 case 18 => 28 case 19 => 26 case 20 => 30
    case 21 => 28 case 22 => 30 case 23 => 30 case 24 => 30 case 25 => 30 case 26 => 28 case 27 => 30 case 28 => 30 case 29 => 30 case 30 => 30
    case 31 => 30 case 32 => 30 case 33 => 30 case 34 => 30 case 35 => 30 case 36 => 30 case 37 => 30 case 38 => 30 case 39 => 30 case 40 => 30
    case _ => -1
  }

  function EccCodewordsHigh(ver: int): int {
    match ver
    case 1 => 17 case 2 => 28 case 3 => 22 case 4 => 16 case 5 => 22 case 6 => 28 case 7 => 26 case 8 => 26 case 9 => 24 case 10 => 28
    case 11 => 24 case 12 => 28 case 13 => 22 case 14 => 24 case 15 => 24 case 16 => 30 case 17 => 28 case 18 => 28 case 19 => 26 case 20 => 28
    case 21 => 30 case 22 => 24 case 23 => 30 case 24 => 30 case 25 => 30 case 26 => 30 case 27 => 30 case 28 => 30 case 29 => 30 case 30 => 30
    case 31 => 30 case 32 => 30 case 33 => 30 case 34 => 30 case 35 => 30 case 36 => 30 case 37 => 30 case 38 => 30 case 39 => 30 case 40 => 30
    case _ => -1
  }

  function EccBlocksLow(ver: int): int {
    match ver
    case 1 => 1 case 2 => 1 case 3 => 1 case 4 => 1 case 5 => 1 case 6 => 2 case 7 => 2 case 8 => 2 case 9 => 2 case 10 => 4
    case 11 => 4 case 12 => 4 case 13 => 4 case 14 => 4 case 15 => 6 case 16 => 6 case 17 => 6 case 18 => 6 case 19 => 7 case 20 => 8
    case 21 => 8 case 22 => 9 case 23 => 9 case 24 => 10 case 25 => 12 case 26 => 12 case 27 => 12 case 28 => 13 case 29 => 14 case 30 => 15
    case 31 => 16 case 32 => 17 case 33 => 18 case 34 => 19 case 35 => 19 case 36 => 20 case 37 => 21 case 38 => 22 case 39 => 24 case 40 => 25
    case _ => -1
  }

  function EccBlocksMedium(ver: int): int {
    match ver
    case 1 => 1 case 2 => 1 case 3 => 1 case 4 => 2 case 5 => 2 case 6 => 4 case 7 => 4 case 8 => 4 case 9 => 5 case 10 => 5
    case 11 => 5 case 12 => 8 case 13 => 9 case 14 => 9 case 15 => 10 case 16 => 10 case 17 => 11 case 18 => 13 case 19 => 14 case 20 => 16
    case 21 => 17 case 22 => 17 case 23 => 18 case 24 => 20 case 25 => 21 case 26 => 23 case 27 => 25 case 28 => 26 case 29 => 28 case 30 => 29
    case 31 => 31 case 32 => 33 case 33 => 35 case 34 => 37 case 35 => 38 case 36 => 40 case 37 => 43 case 38 => 45 case 39 => 47 case 40 => 49
    case _ => -1
  }

  function EccBlocksQuartile(ver: int): int {
    match ver
    case 1 => 1 case 2 => 1 case 3 => 2 case 4 => 2 case 5 => 4 case 6 => 4 case 7 => 6 case 8 => 6 case 9 => 8 case 10 => 8
    case 11 => 8 case 12 => 10 case 13 => 12 case 14 => 16 case 15 => 12 case 16 => 17 case 17 => 16 case 18 => 18 case 19 => 21 case 20 => 20
    case 21 => 23 case 22 => 23 case 23 => 25 case 24 => 27 case 25 => 29 case 26 => 34 case 27 => 34 case 28 => 35 case 29 => 38 case 30 => 40
    case 31 => 43 case 32 => 45 case 33 => 48 case 34 => 51 case 35 => 53 case 36 => 56 case 37 => 59 case 38 => 62 case 39 => 65 case 40 => 68
    case _ => -1
  }

  function EccBlocksHigh(ver: int): int {
    match ver
    case 1 => 1 case 2 => 1 case 3 => 2 case 4 => 4 case 5 => 4 case 6 => 4 case 7 => 5 case 8 => 6 case 9 => 8 case 10 => 8
    case 11 => 11 case 12 => 11 case 13 => 16 case 14 => 16 case 15 => 18 case 16 => 16 case 17 => 19 case 18 => 21 case 19 => 25 case 20 => 25
    case 21 => 25 case 22 => 34 case 23 => 30 case 24 => 32 case 25 => 35 case 26 => 37 case 27 => 40 case 28 => 42 case 29 => 45 case 30 => 48
    case 31 => 51 case 32 => 54 case 33 => 57 case 34 => 60 case 35 => 63 case 36 => 66 case 37 => 70 case 38 => 74 case 39 => 77 case 40 => 81
    case _ => -1
  }

  /** The number of error correction codewords in each block. */
  function EccPerBlock(ver: int, ecl: Ecc): int
    requires IsVersion(ver)
  {
    match ecl
    case LOW => EccCodewordsLow(ver)
    case MEDIUM => EccCodewordsMedium(ver)
    case QUARTILE => EccCodewordsQuartile(ver)
    case HIGH => EccCodewordsHigh(ver)
  }

  function NumBlocks(ver: int, ecl: Ecc): int
    requires IsVersion(ver)
  {
    match ecl
    case LOW => EccBlocksLow(ver)
    case MEDIUM => EccBlocksMedium(ver)
    case QUARTILE => EccBlocksQuartile(ver)
    case HIGH => EccBlocksHigh(ver)
  }

  /** The number of data codewords, with remainder bits discarded. */
  function NumDataCodewords(ver: int, ecl: Ecc): int
    requires IsVersion(ver)
  {
    NumRawDataModules(ver) / 8 - EccPerBlock(ver, ecl) * NumBlocks(ver, ecl)
  }

  // ---------- what the tables guarantee ----------

  /** The blocks leave room for data, and the longest is shorter than 255 codewords. */
  predicate Fits(e: int, n: int, raw: int) {
    1 <= e <= 255 && n >= 1 && e * n * 8 + 8 <= raw && raw < 254 * n * 8
  }

  lemma {:induction false} LowFits(ver: int)
    requires IsVersion(ver)
    ensures Fits(EccPerBlock(ver, LOW), NumBlocks(ver, LOW), NumRawDataModules(ver))
  {
  }

  lemma {:induction false} MediumFits(ver: int)
    requires IsVersion(ver)
    ensures Fits(EccPerBlock(ver, MEDIUM), NumBlocks(ver, MEDIUM), NumRawDataModules(ver))
  {
  }

  lemma {:induction false} QuartileFits(ver: int)
    requires IsVersion(ver)
    ensures Fits(EccPerBlock(ver, QUARTILE), NumBlocks(ver, QUARTILE), NumRawDataModules(ver))
  {
  }

  lemma {:induction false} HighFits(ver: int)
    requires IsVersion(ver)
    ensures Fits(EccPerBlock(ver, HIGH), NumBlocks(ver, HIGH), NumRawDataModules(ver))
  {
  }

  lemma {:induction false} TablesFit(ver: int, ecl: Ecc)
    requires IsVersion(ver)
    ensures Fits(EccPerBlock(ver, ecl), NumBlocks(ver, ecl), NumRawDataModules(ver))
  {
    hide EccPerBlock, NumBlocks;
    LowFits(ver); MediumFits(ver); QuartileFits(ver); HighFits(ver);
  }

  /** The block layout of a symbol. */
  function LayoutOf(ver: int, ecl: Ecc): (l: Layout)
    requires IsVersion(ver)
    ensures l.Valid()
    ensures l.DataCodewords() == NumDataCodewords(ver, ecl) > 0
    ensures l.rawCodewords == NumRawDataModules(ver) / 8
    ensures l.PaddedLen() <= 255
  {
    TablesFit(ver, ecl);
    var n, e, raw := NumBlocks(ver, ecl), EccPerBlock(ver, ecl), NumRawDataModules(ver) / 8;
    QuotientBounds(raw, n, e);
    Layout(n, e, raw)
  }

  lemma {:induction false} QuotientBounds(raw: nat, n: nat, e: nat)
    requires n >= 1 && e * n < raw < 254 * n
    ensures e <= raw / n < 254
  {
    var q, r := raw / n, raw % n;
    assert raw == n * q + r;
    assert q >= e || n * (q + 1) <= n * e;
    assert q < 254 || n * q >= n * 254;
  }
}
