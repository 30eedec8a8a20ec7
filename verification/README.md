# Verified core of sispop

This project models three parts of the sispop repository in Dafny and proves what they are for.

**The QR Code encoder** (`external/qrcodegen/QrCode.cpp`, the encoder of ISO/IEC 18004). A text or byte
string becomes segments, a padded bit stream, data codewords, Reed-Solomon blocks, an interleaved codeword
sequence, a zigzag placement in a grid, and after a trial of eight masks the finished symbol. Each stage is a
method over arrays, buffers or the `QrCode` object, proved equal to a function on values; for each function a
reader is defined independently and proved to undo it. The stages compose to one theorem:
`Encoder.SymbolRoundTrip`, reading the finished symbol returns what was encoded. Beside it: every block is a
codeword, two codewords differ in more places than the number of error correction codewords (so a block with
up to half that many wrong codewords has one reading only), the function patterns leave exactly the number of
modules that the closed formula says, and the automatic mask is the first one whose
finished symbol has the least penalty. So that no function only repeats the code, each is also described by
what it leaves behind: the bits at every place of the stream, where each codeword goes, the order of the
zigzag, the colour of each function module, the columns that a mask inverts, and the penalty score as a count
of modules of the grid.

**The quorum mesh generator** (`utils/generate-quorum-matrix.py`). A greedy loop over a connection matrix
adds one directed link a round until each pair of nodes has enough paths of one or two hops. The rounds are a
state machine with one run only; the run keeps a well-formed mesh, and it ends if and only if the target is at
most one less than the number of nodes.

**The block store** (`src/blockchain_db/blockchain_db.cpp`, with the primitives that
`src/blockchain_db/lmdb/db_lmdb.cpp` provides). Adding and popping blocks is modelled on an object with spent
keys, transactions, stored outputs and blocks. After every run at all, spent keys, transaction table, block
table and per-asset counts are those of the current chain, and the counts are the numbers of its outputs. The stored outputs are too, exactly after the runs
whose pops took off consistent blocks only. The choice of the immutable checkpoint is compared with its
declarative rule.

Eight properties one would expect are false of the code as written. Each is kept as it is, shown by an input
that the code accepts, and given the exact condition under which it holds:

- A version 2 transaction with a generating input among several inputs is stored as a miner transaction but
  removed as an ordinary one. Popping undoes adding if and only if no such transaction of the block has an
  output amount; the block is then called consistent (`PopUndoesAdd.PopUndoesAddExactly`,
  `StoreWitnesses.MixedInputsAreNotUndone`). A run leaves no trace beyond its chain if and only if every block
  that its pops took off is consistent (`ChainRuns.RunIsReplay`).
- Popping an inconsistent block can succeed and take an older output instead of its own. The cumulative rct count of a
  chain of regular blocks is the number of outputs stored under amount 0 if and only if every block that pops
  took off is consistent (`RctCounts.CumRctIsStored`, `StoreWitnesses.PopTakesAnotherOutput`).
- The same pop can leave a gap in the numbering of the outputs of an amount. Removing an output keeps the
  numbering if and only if it is the last of its amount (`ChainRuns.RemovalKeepsNumbers`,
  `StoreWitnesses.PopTakesAnotherOutput`); after pops of consistent blocks the numbering holds
  (`RctCounts.EveryRun`).
- An output of an unknown asset type is counted in the total but in none of the per-asset counts. For blocks
  that are accepted the counts add up if and only if the counted outputs of transactions with generating
  inputs have known asset types (`RctCounts.AddedCountsByAsset`, `StoreWitnesses.UnknownAssetIsNotAttributed`).
- A miner transaction without a generating input is counted as if its outputs were stored under amount 0, and
  another transaction with one is stored there without being counted. The count of a transaction is right if
  and only if neither applies (`RctCounts.MinerCountExact`, `RctCounts.TxCountExact`,
  `StoreWitnesses.CountWithoutGen`, `StoreWitnesses.GenIsNotCounted`).
- Below the lowest checkpoint the range query is moved up to it, so a hard-coded lowest checkpoint is
  returned for heights that it lies above. The declarative rule holds if and only if the height is not below a
  hard-coded lowest checkpoint (`Checkpoints.ImmutableIsHighestFinal`, `Checkpoints.CheckpointAboveTheHeight`).
- For the same reason inserting a checkpoint can lower an answer, if and only if it goes below a hard-coded
  lowest checkpoint and the height is below that one (`Checkpoints.ImmutableGrowsWithInsert`,
  `Checkpoints.InsertLowersAnswer`).
- Overwriting a checkpoint can lower an answer, if and only if a service node checkpoint replaces the
  hard-coded one closest to the height (`Checkpoints.ImmutableAfterOverwrite`,
  `Checkpoints.OverwriteLowersAnswer`).

Bytes are natural numbers below 256, with exclusive or and shifts defined on naturals; grids are sequences of
rows; C strings are strings of characters from 1 to 255. Lemmas switch automatic
induction off, so that their bodies are the proofs. `dafny verify dfyconfig.toml` checks the whole project.

## Files

| files | content |
|---|---|
| `Bits`, `FiniteSets`, `Results` | exclusive or, shifts, bit sequences, the bit buffer; set sizes; error results |
| `GaloisField`, `Polynomials`, `ReedSolomon`, `PrimitiveElement`, `ErrorCorrection` | the field, division with remainder, codewords, the order of 2, the minimum distance |
| `Interleaving`, `Tables` | blocks and their order; versions, levels and capacities |
| `Grids`, `PosSets`, `Zigzag`, `FormatInfo`, `Patterns`, `DataArea`, `Masking`, `Symbol`, `Penalty` | the symbol and how it is read |
| `QrCode` | the object that draws itself |
| `MaskPictures`, `SymbolLook`, `PenaltyMeaning`, `ScoreMeaning` | masks, function modules and the score, said of the grid |
| `Segments`, `BitStream`, `BitLayout`, `Encoder` | payloads, the bit stream and what stands where in it, the choice of version and level, the end-to-end theorem |
| `QuorumMesh` | the mesh generator |
| `Transactions`, `Ledger`, `BlockchainDb`, `PopUndoesAdd`, `ChainRuns`, `Acceptance`, `AssetTallies`, `RctCounts`, `StoreWitnesses`, `Checkpoints` | the block store |

## Model

| member | source | states |
|---|---|---|
| Encoder.SymbolRoundTrip | external/qrcodegen/QrCode.cpp:255-360 | for all factory-made segments that fit, any version, level and mask: reading level, mask, codewords, data and segments from the finished grid returns the payloads |
| Encoder.ReadsData | external/qrcodegen/QrCode.cpp:320-360 | for any data codewords, the reader gets from the finished symbol what parsing those codewords gives |
| Encoder.EncodeSegments | external/qrcodegen/QrCode.cpp:255-317 | smallest version in range that fits, level never below the one asked for and with boosting the highest that fits, the finished symbol with forced or best mask; each error exactly when due; no internal assertion fires |
| Encoder.EncodeText | external/qrcodegen/QrCode.cpp:243-246 | the symbol reads back as the text itself: digits in one numeric payload, text of the charset in one alphanumeric one, anything else as its bytes; smallest version, highest level, best mask; errors only when due; up to 2953 characters always fit at level LOW |
| Encoder.EncodeBinary | external/qrcodegen/QrCode.cpp:249-252 | the symbol reads back as the bytes; at level LOW it succeeds exactly up to 2953 bytes |
| Encoder.BinaryLimit | external/qrcodegen/QrCode.hpp:268-274 | some version suits a byte segment at level LOW if and only if it has at most 2953 bytes |
| Encoder.TextLimit | external/qrcodegen/QrCode.hpp:258-264 | every text of at most 2953 code units fits version 40 at level LOW, whichever mode it is put in |
| Encoder.EncodePayloads | external/qrcodegen/QrCode.cpp:255-317 | the default arguments: a symbol that reads back, or no version suits |
| Encoder.MakeSegments | external/qrcodegen/QrCode.cpp:123-138 | the segments of payloads that say the text: none if it is empty, its digits, its charset characters or its bytes; an error only for a text outside the charset that is too long |
| Encoder.FindVersion | external/qrcodegen/QrCode.cpp:261-279 | the smallest version of the range that suits, with its bit length, or none does |
| Encoder.BoostLevel | external/qrcodegen/QrCode.cpp:281-285 | the highest level that suits, or the level asked for |
| Encoder.Concatenate | external/qrcodegen/QrCode.cpp:287-295 | the buffer holds the stream of headers and data |
| Encoder.PadBuffer | external/qrcodegen/QrCode.cpp:297-308 | terminator, alignment and alternating bytes end exactly at the capacity |
| Encoder.PackBytes | external/qrcodegen/QrCode.cpp:310-313 | the bytes whose bits, most significant first, are the buffer |
| BitStream.ParsePadded | external/qrcodegen/QrCode.cpp:287-313 | for every sufficient capacity of whole bytes, the padded stream of factory-made segments parses to exactly their payloads |
| BitStream.ParseStream | external/qrcodegen/QrCode.cpp:287-295 | the same for any tail that stops the parser: fewer than four bits or a zero nibble |
| BitStream.GetTotalBits | external/qrcodegen/QrCode.cpp:177-191 | the length of the later stream, or -1 exactly when a count does not fit its field or the length does not fit an int |
| BitStream.Pad | external/qrcodegen/QrCode.cpp:297-308 | the padded stream starts with the stream and has exactly the capacity |
| BitLayout.PadAt | external/qrcodegen/QrCode.cpp:297-308 | zeros up to the next byte after the terminator, then the bytes 0xEC and 0x11 in turn to the end |
| BitLayout.StreamAt | external/qrcodegen/QrCode.cpp:287-295 | each segment stands after those before it |
| BitLayout.HeaderAt | external/qrcodegen/QrCode.cpp:51-64 | a segment is its four mode bits, its count in the width of its version range, and its data |
| Segments.NumericRoundTrip | external/qrcodegen/QrCode.cpp:77-97 | closed bit length, and unpacking by groups of three digits returns the digits |
| BitLayout.NumericAt | external/qrcodegen/QrCode.cpp:77-97 | bits 10 k to 10 k + 9 are the k-th three digits as a number; one or two digits left over take 4 or 7 bits |
| Segments.TextRoundTrip | external/qrcodegen/QrCode.cpp:100-120 | closed bit length, and unpacking by pairs returns the text |
| BitLayout.TextAt | external/qrcodegen/QrCode.cpp:100-120 | bits 11 k to 11 k + 10 are the k-th pair, 45 times the first code plus the second; one left over takes 6 bits |
| BitLayout.CharValueIsCode | external/qrcodegen/QrCode.cpp:100-120 | the codes are 0 to 9 for digits, 10 to 35 for letters, 36 to 44 for the nine other characters |
| Segments.DesignatorRoundTrip | external/qrcodegen/QrCode.cpp:141-156 | the three widths of a designator can be told apart and its value read back |
| BitLayout.DesignatorAt | external/qrcodegen/QrCode.cpp:141-156 | 8, 16 or 24 bits, with the value behind the prefix 0, 10 or 110 |
| Segments.DecodeSegment | external/qrcodegen/QrCode.cpp:67-156 | mode, count and following bits determine where a payload ends and what it is |
| Segments.MakeBytes | external/qrcodegen/QrCode.cpp:67-74 | the byte segment, or the length error exactly above the int range |
| Segments.MakeNumeric | external/qrcodegen/QrCode.cpp:77-97 | the packed digits, or an error exactly for a non-digit; every group fits its width |
| Segments.MakeAlphanumeric | external/qrcodegen/QrCode.cpp:100-120 | the packed text, or an error exactly for a character outside the charset |
| Segments.MakeEci | external/qrcodegen/QrCode.cpp:141-156 | the designator, or an error exactly outside 0 to 999999 |
| Segments.TestNumeric | external/qrcodegen/QrCode.cpp:203-210 | whether all characters are digits |
| Segments.TestAlphanumeric | external/qrcodegen/QrCode.cpp:194-200 | whether all characters are in the charset |
| Bits.BitBuffer.AppendBits | external/qrcodegen/QrCode.cpp:855-860 | appends exactly the low bits, most significant first, and refuses exactly bad widths and values that do not fit |
| Bits.FromToBits | external/qrcodegen/QrCode.cpp:855-860 | appended bits denote the appended value |
| Bits.ToFromBits | external/qrcodegen/QrCode.cpp:855-860 | every bit sequence is what appending its value gives |
| BitLayout.BitIsParity | external/qrcodegen/QrCode.cpp:814-816 | bit i is the parity of the quotient by 2^i |
| GaloisField.MulIsRemainder | external/qrcodegen/QrCode.cpp:772-782 | the shift-and-reduce product is the carry-less product up to a multiple of 0x11D |
| GaloisField.MulUnique | external/qrcodegen/QrCode.cpp:772-782 | and it is the only byte that is |
| GaloisField.Multiply | external/qrcodegen/QrCode.cpp:772-782 | the loop computes the product |
| GaloisField.MulCommutes | external/qrcodegen/QrCode.cpp:772-782 | the product is commutative |
| GaloisField.MulAssociates | external/qrcodegen/QrCode.cpp:772-782 | the product is associative |
| GaloisField.MulAddRight | external/qrcodegen/QrCode.cpp:772-782 | the product distributes over exclusive or |
| ReedSolomon.WindowStep | external/qrcodegen/QrCode.cpp:745-753 | one round of the in-place loop multiplies the polynomial in the array's tail by (x - root) |
| ReedSolomon.MultiplyByRoot | external/qrcodegen/QrCode.cpp:745-751 | after round i the array holds the low coefficients of the product of the first i + 1 factors |
| ReedSolomon.ComputeDivisor | external/qrcodegen/QrCode.cpp:734-756 | for every degree 1 to 255 the product of (x - 2^k) without its leading 1; an error for all other degrees |
| ReedSolomon.GeneratorVanishes | external/qrcodegen/QrCode.cpp:734-756 | the generator is zero at 2^0, ..., 2^(degree-1) |
| ReedSolomon.ComputeRemainder | external/qrcodegen/QrCode.cpp:759-769 | the shift register computes the remainder, for every data length and divisor |
| ReedSolomon.DivisionTheorem | external/qrcodegen/QrCode.cpp:759-769 | data(x) x^n plus the remainder is the quotient times the monic divisor |
| ReedSolomon.RemainderUnique | external/qrcodegen/QrCode.cpp:759-769 | no other quotient and remainder do that |
| ReedSolomon.RemainderIsLinear | external/qrcodegen/QrCode.cpp:759-769 | the remainder of an exclusive or is the exclusive or of the remainders |
| ReedSolomon.BlockIsCodeword | external/qrcodegen/QrCode.cpp:734-782 | data followed by its remainder is zero at 2^0, ..., 2^(degree-1), for every data and degree |
| PrimitiveElement.OrderOfTwo | external/qrcodegen/QrCode.cpp:745-753 | the powers of 2 first return to 1 at exponent 255 |
| PrimitiveElement.LogExists | external/qrcodegen/QrCode.cpp:745-753 | every nonzero byte is a power of 2 |
| PrimitiveElement.NoZeroDivisors | external/qrcodegen/QrCode.cpp:772-782 | a product is zero only if a factor is: the bytes are a field |
| ErrorCorrection.MinimumDistance | external/qrcodegen/QrCode.cpp:734-769 | different codewords of up to 255 bytes differ in more than `degree` places |
| ErrorCorrection.CorrectionIsUnique | external/qrcodegen/QrCode.hpp:242-247 | within half the number of error correction codewords there is at most one codeword |
| ErrorCorrection.DamagedBlockReads | external/qrcodegen/QrCode.cpp:529-565 | a block read with up to half that many wrong codewords has only the block that was written as its reading |
| Interleaving.Layout.OffsetsPartition | external/qrcodegen/QrCode.cpp:536-551 | the blocks' data slices cover the data exactly |
| Interleaving.Layout.RowsPartition | external/qrcodegen/QrCode.cpp:553-563 | the rows of the interleaved order cover the raw codewords exactly, also when all blocks are short |
| Interleaving.AddEccAndInterleave | external/qrcodegen/QrCode.cpp:529-565 | exactly as many codewords as the symbol holds, in the interleaved order of the blocks |
| Interleaving.SplitBlocks | external/qrcodegen/QrCode.cpp:539-551 | the blocks: data slice, gap in short blocks, remainder |
| Interleaving.CollectRows | external/qrcodegen/QrCode.cpp:553-563 | the columns of the blocks one after another, without the gaps |
| Interleaving.DataGoesTo | external/qrcodegen/QrCode.cpp:536-563 | codeword i of the data of block j: which data codeword it is and at which place of the sequence it stands |
| Interleaving.EccGoesTo | external/qrcodegen/QrCode.cpp:536-563 | codeword k of the remainder of block j stands k rows and j places after all data |
| Interleaving.DeinterleaveInterleave | external/qrcodegen/QrCode.cpp:553-563 | picking the codewords apart returns the blocks |
| Interleaving.InterleaveDeinterleave | external/qrcodegen/QrCode.cpp:553-563 | and interleaving what was picked apart returns the codewords |
| Interleaving.ReadDataWithEcc | external/qrcodegen/QrCode.cpp:529-565 | for symbolic block counts and lengths, reading the data part of all blocks returns the data |
| Interleaving.ReadBlocksAreCodewords | external/qrcodegen/QrCode.cpp:529-565 | every block read from the sequence is its data and remainder, a codeword |
| Tables.NumRawDataModules | external/qrcodegen/QrCode.cpp:711-724 | the closed formula lies between 208 and 29648 |
| Tables.TablesFit | external/qrcodegen/QrCode.cpp:727-731 | for every version and level the table entries leave data room in every block and blocks below 256 codewords |
| Tables.LayoutOf | external/qrcodegen/QrCode.cpp:533-537 | the tables give a valid block layout for every version and level |
| Zigzag.ScanIsExact | external/qrcodegen/QrCode.cpp:573-590 | the scan visits every module outside column 6 exactly once |
| Zigzag.DirectionAlternates | external/qrcodegen/QrCode.cpp:573-580 | column pairs go up and down in turn, across the jump over column 6 too |
| Zigzag.ScanStarts | external/qrcodegen/QrCode.cpp:573-581 | the scan starts in the lower right corner |
| Zigzag.ScanGoesOn | external/qrcodegen/QrCode.cpp:573-581 | within a pair of columns it goes left, then to the next row of the right column, upwards in even pairs and downwards in odd ones |
| Zigzag.ScanTurns | external/qrcodegen/QrCode.cpp:573-581 | the next pair starts in the row where the last one ended, two columns to the left, or three over column 6 |
| Zigzag.DataPathIsExact | external/qrcodegen/QrCode.cpp:573-592 | with column 6 reserved, the scan restricted to free modules lists each of them once |
| Zigzag.DataPathKeepsOrder | external/qrcodegen/QrCode.cpp:577-590 | free modules are used in the order of the scan |
| Zigzag.BytesOfBitsOf | external/qrcodegen/QrCode.cpp:583-586 | the bits placed for the codewords make up the codewords again |
| Zigzag.BitsOfBytesOf | external/qrcodegen/QrCode.cpp:310-313 | packing whole bytes loses no bit |
| Grids.ReadPlaced | external/qrcodegen/QrCode.cpp:568-593 | bits placed along a path without repeats are read back in order |
| Symbol.FilledAt | external/qrcodegen/QrCode.cpp:568-593 | the i-th free module gets bit 7 - i mod 8 of codeword i / 8, and no other module changes |
| FormatInfo.BchDivides | external/qrcodegen/QrCode.cpp:447-450 | the check bits make the word a multiple of the generator |
| FormatInfo.FormatWordReads | external/qrcodegen/QrCode.cpp:445-453 | level and mask are read back from the masked format word |
| FormatInfo.LevelRoundTrip | external/qrcodegen/QrCode.cpp:232-240 | the two format bits determine the level |
| FormatInfo.VersionWordReads | external/qrcodegen/QrCode.cpp:473-483 | the version is read back from the version word |
| Patterns.PaintAllAt | external/qrcodegen/QrCode.cpp:416-442 | after drawing shapes in order, each module has the colour of the last shape that covers it, or its own if none does |
| Patterns.MarkAllAt | external/qrcodegen/QrCode.cpp:516-521 | a module is reserved exactly if a shape covers it |
| Patterns.AlignRowsMembers | external/qrcodegen/QrCode.cpp:426-435 | alignment patterns are at all pairs of positions but the three finder corners |
| DataArea.AlignSpacing | external/qrcodegen/QrCode.cpp:695-708 | alignment positions are at least 12 apart and end 7 before the border |
| SymbolLook.AlignStepIsLeast | external/qrcodegen/QrCode.cpp:695-708 | the positions from the second on are evenly spaced, by the least even step that reaches, by 26 in version 32 |
| DataArea.FunctionGridAt | external/qrcodegen/QrCode.cpp:416-442 | a module is reserved exactly if it is in a finder, timing, alignment, format or version region |
| DataArea.ReservedCount | external/qrcodegen/QrCode.cpp:711-724 | how many modules those regions have, for every version |
| DataArea.FreeModules | external/qrcodegen/QrCode.cpp:711-724 | for every version and level the unreserved modules are as many as the closed formula says |
| DataArea.Column6IsReserved | external/qrcodegen/QrCode.cpp:416-442 | the column that the zigzag skips has function modules only |
| SymbolLook.FinderLooks | external/qrcodegen/QrCode.cpp:496-505 | in the finished symbol each finder has a black centre, a white ring, a black ring and a white border |
| SymbolLook.AlignLooks | external/qrcodegen/QrCode.cpp:508-513 | each alignment pattern has a black centre, a white ring and a black ring |
| SymbolLook.TimingLooks | external/qrcodegen/QrCode.cpp:416-421 | timing modules outside alignment patterns are black at even places and white at odd ones |
| SymbolLook.FormatLooks | external/qrcodegen/QrCode.cpp:455-469 | the place of every format bit in both copies, and the module that is always black |
| SymbolLook.ReadsSecondFormat | external/qrcodegen/QrCode.cpp:463-469 | reading the second copy from the finished symbol gives the format word |
| SymbolLook.VersionLooks | external/qrcodegen/QrCode.cpp:484-492 | the place of every version bit in both blocks |
| SymbolLook.ReadsVersion | external/qrcodegen/QrCode.cpp:473-493 | reading either block from the finished symbol gives the version |
| Masking.MaskUndoes | external/qrcodegen/QrCode.cpp:596-617 | masking twice changes nothing |
| MaskPictures.MaskRepeats | external/qrcodegen/QrCode.cpp:603-612 | for every mask the columns that it inverts in each row, drawn out and repeated: every second, every third, bands of three, and so on |
| Masking.MaskCommutes | external/qrcodegen/QrCode.cpp:596-617 | masking and drawing function modules can be exchanged |
| Masking.RepaintFormat | external/qrcodegen/QrCode.cpp:445-470 | format bits always cover the same modules, so the last ones drawn are all that remains |
| Symbol.RemaskedSymbol | external/qrcodegen/QrCode.cpp:352-356 | whatever format bits were drawn before, masking and drawing the format bits gives the symbol of that mask |
| Symbol.UnmaskedSymbol | external/qrcodegen/QrCode.cpp:340-350 | undoing a tried mask leaves the placed codewords |
| Symbol.ReadsHeader | external/qrcodegen/QrCode.cpp:445-470 | level and mask are read from the finished symbol |
| Symbol.ReadsCodewords | external/qrcodegen/QrCode.cpp:568-617 | unmasking and rescanning the finished symbol returns the codewords |
| Symbol.FunctionGridHasRoom | external/qrcodegen/QrCode.cpp:568-593 | every version has room for its codewords, so the placement ends with all bits placed |
| QrCodes.QrCode.Create | external/qrcodegen/QrCode.cpp:320-360 | the grid is the finished symbol of the mask; that mask is the forced one, or the lowest-numbered one whose forced symbol has minimal penalty; each error exactly when due |
| QrCodes.QrCode.ChooseMask | external/qrcodegen/QrCode.cpp:339-351 | finds the first best mask and leaves the placed codewords unmasked |
| QrCodes.QrCode.DrawFunctionPatterns | external/qrcodegen/QrCode.cpp:416-442 | both grids change by exactly the function shapes |
| QrCodes.QrCode.DrawFormatBits | external/qrcodegen/QrCode.cpp:445-470 | the word has fifteen bits, and both grids change by exactly its two copies and the black module |
| QrCodes.QrCode.DrawVersion | external/qrcodegen/QrCode.cpp:473-493 | both grids change by exactly the two copies of the version word, from version 7 on |
| QrCodes.QrCode.DrawFinderPattern | external/qrcodegen/QrCode.cpp:496-505 | draws rings by distance, clipped at the border |
| QrCodes.QrCode.DrawAlignmentPattern | external/qrcodegen/QrCode.cpp:508-513 | draws rings by distance |
| QrCodes.QrCode.SetFunctionModule | external/qrcodegen/QrCode.cpp:516-521 | sets one module and reserves it, nothing else |
| QrCodes.QrCode.GetAlignmentPatternPositions | external/qrcodegen/QrCode.cpp:695-708 | the positions, in ascending order |
| QrCodes.QrCode.AddEccAndInterleave | external/qrcodegen/QrCode.cpp:529-565 | the interleaved blocks of the tables' layout; an error exactly for a wrong data length |
| QrCodes.QrCode.DrawCodewords | external/qrcodegen/QrCode.cpp:568-593 | for any reservation grid with room, places all bits along the zigzag, whose order `Zigzag.ScanStarts` to `Symbol.FilledAt` give, and touches no reserved module; an error exactly for a wrong length |
| QrCodes.QrCode.ApplyMask | external/qrcodegen/QrCode.cpp:596-617 | inverts exactly the unreserved modules of the mask's pattern |
| QrCodes.QrCode.GetPenaltyScore | external/qrcodegen/QrCode.cpp:620-692 | the score of the grid, which `ScoreMeaning.ScoreMeans` counts on the modules |
| Penalty.RunsSpell | external/qrcodegen/QrCode.cpp:627-641 | the run lengths found in one pass are maximal, alternate in colour and spell the line |
| Penalty.RunsUnique | external/qrcodegen/QrCode.cpp:627-641 | no other such run lengths do |
| PenaltyMeaning.RunPenaltyMeans | external/qrcodegen/QrCode.cpp:624-643 | a line gets two points less than its modules for each run of five or more modules of the line |
| Penalty.FinderCountIsFindings | external/qrcodegen/QrCode.cpp:785-792 | counting at the end of every white run gives the number of 1:1:3:1:1 windows with a wide white side |
| PenaltyMeaning.FinderCountMeans | external/qrcodegen/QrCode.cpp:785-811 | the number of places and units at which the line reads 1:1:3:1:1 with white margins of one and four units, white beyond its ends |
| PenaltyMeaning.LinePenaltyMeans | external/qrcodegen/QrCode.cpp:624-643 | both together for a line |
| ScoreMeaning.ScoreMeans | external/qrcodegen/QrCode.cpp:620-692 | the score is the run points of all rows and columns, 40 for each window, 3 for each square of one colour, and 10 for each step from balance |
| ScoreMeaning.ScoreSwaps | external/qrcodegen/QrCode.cpp:620-692 | a grid and its transpose have the same score |
| Penalty.ScoreLine | external/qrcodegen/QrCode.cpp:624-643 | the streaming loop computes the penalty of the line's runs and of the runs extended by a white border; the history assertion does not fire |
| Penalty.TerminateAndCount | external/qrcodegen/QrCode.cpp:795-803 | at the end of a line the border is added to the last white run, or as a run of its own after a black one |
| Penalty.AddHistory | external/qrcodegen/QrCode.cpp:806-811 | shifts the history and adds the border to the very first run only |
| Penalty.CountPatterns | external/qrcodegen/QrCode.cpp:785-792 | the number of patterns that end with the white run last put into the history |
| Penalty.ImbalanceIsLeast | external/qrcodegen/QrCode.cpp:682-690 | the ceiling formula gives the least k with the share of black modules within 5 (k + 1) percent of half |
| Penalty.ScoreFits | external/qrcodegen/QrCode.cpp:340-345 | every score is below the initial minimum, so some mask is always chosen |
| QuorumMesh.PathCountIsPaths | utils/generate-quorum-matrix.py:38-52 | the count is the number of paths of one or two hops |
| QuorumMesh.PathCountSymmetric | utils/generate-quorum-matrix.py:38-52 | the same for both orders of the nodes |
| QuorumMesh.PathCountMonotone | utils/generate-quorum-matrix.py:38-52 | more links never lower any pair's count |
| QuorumMesh.PathCountBound | utils/generate-quorum-matrix.py:38-52 | no pair has more than n - 1 paths |
| QuorumMesh.CompletePathCount | utils/generate-quorum-matrix.py:38-52 | in a complete mesh every pair has n - 1 |
| QuorumMesh.Mesh.CountPathsWithinTwo | utils/generate-quorum-matrix.py:38-52 | the loop computes the count for any two different nodes |
| QuorumMesh.Mesh.MinWithinTwo | utils/generate-quorum-matrix.py:92-99 | the least count over all pairs, none without pairs |
| QuorumMesh.Mesh.CountNotWithinTwo | utils/generate-quorum-matrix.py:102-108 | the number of pairs at or below the minimum |
| QuorumMesh.Mesh.TryLink | utils/generate-quorum-matrix.py:135-141 | the cost of a trial link; the matrix is as before |
| QuorumMesh.CostMeans | utils/generate-quorum-matrix.py:127-141 | comparing costs is comparing links at the ends and then weak pairs, and among equals the first is kept |
| QuorumMesh.Mesh.FindBest | utils/generate-quorum-matrix.py:127-141 | the legal link with the fewest links at its two ends, among those the one that leaves the fewest pairs at or below the minimum, among those the first; (0, 0) only if there is no legal link; the matrix is as before |
| QuorumMesh.Mesh.Connect | utils/generate-quorum-matrix.py:119-158 | ends with a well-formed mesh in which every pair has at least `target` paths, reached by a run of such choices |
| QuorumMesh.CandidateIsCheap | utils/generate-quorum-matrix.py:127-136 | every legal link costs less than the initial bound, so the fallback never wins against one |
| QuorumMesh.CandidateExists | utils/generate-quorum-matrix.py:126-133 | below n - 1 paths there is always a legal link |
| QuorumMesh.StepProgress | utils/generate-quorum-matrix.py:126-158 | each round adds the best new link between unlinked nodes in that sense, keeps the mesh well formed and never lowers the minimum |
| QuorumMesh.RunInvariant | utils/generate-quorum-matrix.py:126-158 | after k rounds of any run there are exactly k links, one direction a pair, no loops, and the minimum has not decreased |
| QuorumMesh.RunLength | utils/generate-quorum-matrix.py:126-158 | every run has at most as many rounds as there are possible links |
| QuorumMesh.RunsAgree | utils/generate-quorum-matrix.py:126-158 | the generator has one run: any two are in the same state after the same number of rounds |
| QuorumMesh.EndingRunIsLongest | utils/generate-quorum-matrix.py:126-158 | every run is the beginning of the one that ends |
| QuorumMesh.EndsIffInReach | utils/generate-quorum-matrix.py:126-158 | for n of at least 2 the one run ends if and only if the target is at most n - 1; for other targets there is always another round |
| QuorumMesh.TwoNodesTwoPaths | utils/generate-quorum-matrix.py:126-158 | with two nodes and a target of two paths no run ends |
| Transactions.GetAssetTypes | src/cryptonote_core/cryptonote_tx_utils.cpp:1121-1236 | finds source and destination asset exactly if all inputs spend one known asset type and, without a generating input, the outputs are that type and at most one other known one |
| Transactions.AllowedAreKnown | src/cryptonote_core/cryptonote_tx_utils.cpp:1183-1233 | what is allowed without a generating input has known asset types only |
| BlockchainDbs.BlockchainDb.AddTransaction | src/blockchain_db/blockchain_db.cpp:117-184 | spends the inputs, records the transaction and stores the outputs, or fails exactly when a key image or hash is known, an input or output is not supported, or the asset types are not allowed |
| BlockchainDbs.BlockchainDb.AddBlockAndTransactions | src/blockchain_db/blockchain_db.cpp:186-262 | miner transaction first, then the others in order, the block on top with the counts that `AssetTallies.BlockTallyIsOutputs` explains; returns the height before |
| Acceptance.AddBlockAccepts | src/blockchain_db/blockchain_db.cpp:186-262 | a block is added if and only if it brings its transactions, all are supported with key images and hashes new to the store and to each other, its hash is new and its parent is the top |
| Acceptance.TxIsStored | src/blockchain_db/lmdb/db_lmdb.cpp:1357-1418 | each output of an added transaction is stored in order, under which amount, numbered by the outputs of that amount before it; nothing older changes |
| AssetTallies.BlockTallyIsOutputs | src/blockchain_db/blockchain_db.cpp:210-245 | the counts of a block are the numbers of its counted outputs, in all and of each asset type |
| BlockchainDbs.BlockchainDb.PopTopBlock | src/blockchain_db/blockchain_db.cpp:269-284 | removes the transactions last first, the miner transaction last, and returns them in that order |
| BlockchainDbs.BlockchainDb.RemoveTransaction | src/blockchain_db/blockchain_db.cpp:286-300 | frees the key images, removes the outputs last first and the record |
| BlockchainDbs.BlockchainDb.AddSpentKey | src/blockchain_db/lmdb/db_lmdb.cpp:1561-1577 | a key image is added once; a second time is an error |
| BlockchainDbs.BlockchainDb.AddOutput | src/blockchain_db/lmdb/db_lmdb.cpp:1357-1418 | stores an output under its amount with the next index of that amount; which outputs are refused |
| BlockchainDbs.BlockchainDb.RemoveAllOutputs | src/blockchain_db/lmdb/db_lmdb.cpp:1446-1467 | removes a transaction's outputs last first, each where the removal rule looks for it |
| BlockchainDbs.BlockchainDb.RemoveOutputByIndex | src/blockchain_db/lmdb/db_lmdb.cpp:1469-1505 | removes the output with the amount and index, or fails exactly if there is none |
| PopUndoesAdd.SpendIsUnion | src/blockchain_db/blockchain_db.cpp:141-158 | inputs are accepted exactly when supported with new, distinct key images, and the spent set grows by those |
| PopUndoesAdd.UndoTx | src/blockchain_db/blockchain_db.cpp:286-300 | removing a consistent transaction restores the store |
| PopUndoesAdd.PopUndoesAddExactly | src/blockchain_db/blockchain_db.cpp:186-300 | popping the block just added restores the whole store and returns block and transactions in reverse, if and only if all its transactions are consistent |
| PopUndoesAdd.ConsistentMeansSameAmounts | src/blockchain_db/lmdb/db_lmdb.cpp:1461-1466 | consistency, a test on inputs, version and amounts, says exactly that outputs are removed from where they were stored |
| StoreWitnesses.MixedInputsAreNotUndone | src/blockchain_db/blockchain_db.cpp:163-182 | a concrete block that is added and that popping does not undo |
| ChainRuns.RunFollowsChain | src/blockchain_db/blockchain_db.cpp:186-300 | after every run of additions and pops, whatever the blocks, spent keys, transaction table and block table with its counts are those of the current chain |
| Acceptance.RunIsLinked | src/blockchain_db/lmdb/db_lmdb.cpp:863-882 | after every run each block's parent is the block below and no hash occurs twice |
| AssetTallies.RunTallyIsOutputs | src/blockchain_db/lmdb/db_lmdb.cpp:900-918 | after every run the cumulative counts are the numbers of counted outputs on the chain, in all and of each asset type |
| ChainRuns.PopBlockFollows | src/blockchain_db/blockchain_db.cpp:269-284 | a pop that succeeds returns the top block with its transactions last first and leaves the rest of the chain |
| ChainRuns.RunIsReplay | src/blockchain_db/blockchain_db.cpp:186-300 | after a run the whole store is the one obtained by adding just the blocks still on the chain, if and only if every block that its pops took off is consistent |
| ChainRuns.NextPopExact | src/blockchain_db/blockchain_db.cpp:269-284 | after such a run the next pop succeeds and leaves no trace if and only if the top block is consistent |
| ChainRuns.RunCounts | src/blockchain_db/blockchain_db.cpp:163-300 | after every run the outputs under amount 0 are those that the chain stores there and those that popped blocks have left there |
| ChainRuns.SpentKeysAreChainImages | src/blockchain_db/blockchain_db.cpp:141-158 | after every run the spent set is the set of key images on the chain, and none occurs twice |
| ChainRuns.OutputsAreNumbered | src/blockchain_db/lmdb/db_lmdb.cpp:1380-1398 | after adding any chain the outputs of each amount are numbered 0, 1, 2, ... in order |
| ChainRuns.IndexFindsOneOutput | src/blockchain_db/lmdb/db_lmdb.cpp:1469-1485 | amount and index identify one output |
| ChainRuns.RemovalKeepsNumbers | src/blockchain_db/lmdb/db_lmdb.cpp:1469-1505 | removing an output keeps the numbering if and only if it is the last of its amount |
| RctCounts.EveryRun | src/blockchain_db/blockchain_db.cpp:117-300 | after every run: spent keys and transaction table are the chain's; the per-asset counts add up exactly if generating inputs brought in known types only; on regular chains the cumulative count is the number of outputs under amount 0 exactly if the blocks that pops took off were consistent, and then outputs are numbered in order |
| RctCounts.MinerCountExact | src/blockchain_db/blockchain_db.cpp:215-227 | the count for the miner transaction is the number of its outputs stored under amount 0 if and only if it has a generating input, or version 1, or no amounts |
| RctCounts.TxCountExact | src/blockchain_db/blockchain_db.cpp:234-244 | the same for the other transactions, which must not have a generating input |
| RctCounts.CumRctIsStored | src/blockchain_db/blockchain_db.cpp:210-300 | after every run that ends with a chain of regular blocks the cumulative count is the number of outputs under amount 0 if and only if every block that pops took off is consistent |
| RctCounts.BlockCountsByAsset | src/blockchain_db/blockchain_db.cpp:210-245 | a block's per-asset counts never exceed its count, and add up to it if and only if all counted asset types are known |
| RctCounts.AddedCountsByAsset | src/blockchain_db/blockchain_db.cpp:210-253 | for a block that is accepted they add up if and only if the counted outputs of its transactions with generating inputs have known types |
| RctCounts.ChainCountsByAsset | src/blockchain_db/lmdb/db_lmdb.cpp:900-918 | the same for the cumulative counts of a chain |
| StoreWitnesses.UnknownAssetIsNotAttributed | src/oracle/asset_types.h:69-83 | a concrete block that is accepted and whose stored per-asset counts do not add up |
| StoreWitnesses.CountWithoutGen | src/blockchain_db/blockchain_db.cpp:215-219 | a concrete block that is accepted and whose miner transaction is counted but not stored under amount 0 |
| StoreWitnesses.GenIsNotCounted | src/blockchain_db/blockchain_db.cpp:232-245 | a concrete block that is accepted and has an ordinary transaction stored under amount 0 but not counted |
| StoreWitnesses.PopTakesAnotherOutput | src/blockchain_db/lmdb/db_lmdb.cpp:1461-1466 | a concrete run whose pop succeeds but takes an output of the block below, so that the count is wrong and the numbering has a gap |
| Checkpoints.GetCheckpointsRange | src/blockchain_db/lmdb/db_lmdb.cpp:4304-4395 | for every sorted table the checkpoints of the clamped range, in the direction asked for, up to the limit |
| Checkpoints.RangeMembers | src/blockchain_db/lmdb/db_lmdb.cpp:4304-4395 | without a limit: exactly the checkpoints with a height between the two, or the end of the table next to a range beside it |
| Checkpoints.RangeOrder | src/blockchain_db/lmdb/db_lmdb.cpp:4337-4391 | each once, upwards or downwards as asked |
| Checkpoints.RangeLimit | src/blockchain_db/lmdb/db_lmdb.cpp:4327-4391 | a limit keeps that many from the start |
| Checkpoints.GetImmutableCheckpoint | src/blockchain_db/blockchain_db.cpp:409-442 | the choice among the two checkpoints found, which is the highest final one exactly if the height is not below a hard-coded lowest checkpoint |
| Checkpoints.ImmutableByPlace | src/blockchain_db/blockchain_db.cpp:409-442 | the closest checkpoint if hard-coded, else the one before it |
| Checkpoints.ImmutableIsHighestFinal | src/blockchain_db/blockchain_db.cpp:409-442 | the answer is the highest checkpoint at or below the height that is hard-coded or has another above it, if and only if the height is not below a hard-coded lowest checkpoint |
| Checkpoints.CheckpointAboveTheHeight | src/blockchain_db/lmdb/db_lmdb.cpp:4314-4325 | a concrete height that gets a checkpoint above it |
| Checkpoints.ImmutableGrowsWithHeight | src/blockchain_db/blockchain_db.cpp:409-442 | a greater height never gets a lower answer |
| Checkpoints.UpdateContents | src/blockchain_db/lmdb/db_lmdb.cpp:4209-4227 | an update replaces what is stored at its height and nothing else |
| Checkpoints.ImmutableGrowsWithInsert | src/blockchain_db/blockchain_db.cpp:409-442 | inserting at a new height never lowers an answer, except exactly when it goes below a hard-coded lowest checkpoint and the height is below that one |
| Checkpoints.ImmutableAfterOverwrite | src/blockchain_db/blockchain_db.cpp:409-442 | overwriting lowers an answer exactly when a service node checkpoint replaces the hard-coded one closest to the height |
| Checkpoints.InsertLowersAnswer | src/blockchain_db/lmdb/db_lmdb.cpp:4314-4325 | a concrete insertion that takes an answer away |
| Checkpoints.OverwriteLowersAnswer | src/blockchain_db/lmdb/db_lmdb.cpp:4209-4227 | a concrete update that takes an answer away |

## Left out

- RctCounts.EveryRun: that outputs are numbered in order is stated one way, from consistent pops; within a pop removals out of order can cancel out, so the exact condition is given for one removal (`ChainRuns.RemovalKeepsNumbers`).
- `toSvgString`, the getters and the texts of exceptions: output only.
- Kanji segments, and segments built by hand whose character count disagrees with their data: no factory makes them.
- Overflow of the `int` character counters in the numeric and alphanumeric factories: strings of two thousand million characters.
- Clearing `isFunction` at the end of the constructor: storage only, no later method reads it.
- The `logic_error`s of the encoder: proved not to fire, so they are not results of the methods.
- Penalty.ScoreFits: takes the least width of a C++ `long`, 32 bits, for the bound on the score.
- The table entries, the two bits of each level and the mask of the format word against the tables of ISO/IEC 18004, one by one, and the distance of the format and version words: finite tables.
- A decoding algorithm for damaged blocks: the repository has none; only that the reading is unique is proved.
- QuorumMesh.Mesh.Connect: requires a reachable target and two nodes, since for other targets the loop does not end (`QuorumMesh.EndsIffInReach`) and with fewer nodes there are no pairs to compare.
- Tracing, tables and C++ text printed by the quorum script.
- Blobs, hashing, commitments, pruning, the hard fork object, timing and the circulating supply tally: transaction and block hashes are values, and the rest is not part of the store that popping restores.
- Storage layout and append order of the database: the outputs are one list in order of storing, in which amount and index find an entry.
- State after an exception in the middle of an operation: the caller rolls the database back, so a failed step of a run leaves the store as it was.
- The asset types when a transaction is removed: `remove_transaction_data` looks them up again with a flag that its caller does not pass at this commit; with the flag of the addition the lookup gives what it gave then, so removal does not depend on it.
- The asset type error of `add_block`: storing the outputs has already refused every output that could cause it.
- Checkpoint serialisation: a checkpoint is its height, block hash and number of signatures, which decides its type.
- Checkpoints.GetCheckpointsRange: requires a table sorted by height, which is how the database keeps it.
- Economy and network constants, command line tools, wallets, RPC and consensus rules.
