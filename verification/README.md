# Verified QR Codes and embedded translation files

This project models two parts of the WAZN repository in Dafny and proves what they promise.

**The QR Code generator** (`external/qrcodegen`). Text or bytes become segments, segments become a
bit stream, the stream becomes codewords with Reed-Solomon error correction, and codewords become
the modules of a square symbol. The model follows every step of the source, with its tables, its
loops and its error conditions, from the multiplication of two field elements to the class `QrCode`.
The main results:

- *A symbol can be read.* `SymbolReader.ReadSymbol` is a reader for perfect symbols: it knows only
  the grid. For every list of segments, every version and level that holds them and every mask, it
  returns exactly these segments, version, level and mask (`SymbolReader.SymbolReadsBack`), and so
  every symbol that the factory functions return holds the text or the bytes it was made from.
- *A damaged symbol can be corrected.* Two different codewords of a block differ in more places
  than the block has error correction codewords (`RsDistance.MinimumDistance`), and two format
  words in at least seven bits (`FormatDistance.FormatWordsDistance`). So a grid with at most three
  wrong format bits, and in each block at most half as many wrong codewords as check bytes, comes
  from one version, level, mask and list of segments only (`SymbolDamage.DamagedSymbolUnambiguous`).
  Three wrong modules anywhere are always within these bounds.
- *The best symbol is found.* The version is the smallest that fits although count fields grow with the
  version, the level is the highest that fits it, and the mask has the lowest penalty of all eight, where
  the penalty is defined over whole lines and sets of modules and not by the scoring loop. The mode
  of a text is the one that takes the fewest bits, and the exact limits of every mode are proved.
- *The symbol is the one of the standard.* Reader and writer share tables, so a round trip alone would
  not notice a wrong table. What a symbol holds is therefore also stated without the code's own
  definitions: the bits of each character, the mode indicators and count widths (`SegmentBits`), the place
  of every data and check byte (`CodewordOrder`), the look of the eight masks (`Masks`), and in every
  finished symbol the colors of finder, alignment and timing patterns, both copies of format and version
  bits and the dark module (`SymbolPicture`).
- *The geometry is right.* The zigzag visits every module outside the vertical timing column
  exactly once, and the number of modules that no function pattern covers is the number that
  `getNumRawDataModules` computes.

**The translation header generator** (`translations/generate_translations_header.c`). The program
that turns files into C++ text is modelled together with the C++ rules that read the text back: a
lexer with greedy hexadecimal escapes, concatenation of adjacent literals, strings built from a pointer
and a count, the table with its sentinel, and the tokens of the lookup function. For names that are safe in a literal, the header can be
read if and only if no file is empty, and then the lookup function finds exactly the contents of the
first file with a name. With an empty file the program prints a quote that nothing opened, so the header
does not compile (`HeaderRoundTrip.EmptyFileExample`).

## How the files fit together

| files | content |
|---|---|
| `binary_poly`, `gf256`, `polynomial`, `reed_solomon`, `hamming`, `rs_distance` | the field GF(2^8/0x11D), polynomials, Reed-Solomon codes and their distance |
| `results`, `bits`, `radix_code`, `segment`, `segment_bits` | bit buffers and segments, their reading, and their bits character by character |
| `tables`, `bit_stream`, `encoder`, `limits`, `interleave`, `codeword_order` | capacities, version and level search, data codewords, limits, blocks and the order of their bytes |
| `grid`, `geometry`, `zigzag`, `patterns`, `format_info`, `format_distance`, `version_distance`, `masks` | the modules of a symbol |
| `runs`, `finder_like`, `penalty` | the penalty score |
| `symbol_reader`, `symbol_picture`, `symbol_damage`, `qr_code`, `qr_encode` | the reader, the look of a finished symbol, damaged symbols, the class `QrCode` and its factory functions |
| `header_text`, `cpp_lexer`, `cpp_pieces`, `header_reader`, `header_frame`, `header_lexing`, `header_round_trip` | the header generator, its reader and the round trip |

Operations that the source performs step by step on fields, buffers or arrays are methods with loops; each
is proved equal to a function of its inputs, and the lemmas are about these functions.
Exceptions that a caller can cause are values of `Results.Error`. The source's own
`logic_error("Assertion error")` checks are assertions that are proved never to fail.
Bytes are integers below 256 and bitwise operations are defined on them by recursion.

Where documentation and code differ, the code is modelled: `makeSegments` never switches modes, although
its comment says that it may, and the 2953 bytes that the comment of `encodeBinary` names are the limit
of the low error correction level.

## Model

| member | source | states |
|---|---|---|
| `Gf256.Multiply` | external/qrcodegen/QrCode.cpp:772-782 | the shift-and-add loop returns the remainder of the product of two polynomials over GF(2) modulo 0x11D, for all bytes |
| `Gf256.MulIsProductModulo` | external/qrcodegen/QrCode.hpp:470-472 | the product differs from the carry-less product by a multiple of 0x11D |
| `Gf256.ModuloUnique` | external/qrcodegen/QrCode.hpp:470-472 | a byte that does so is unique, so the product is fully determined |
| `Gf256.MulCommutative` | external/qrcodegen/QrCode.hpp:470-472 | multiplication commutes |
| `Gf256.MulAssociative` | external/qrcodegen/QrCode.hpp:470-472 | multiplication associates |
| `Gf256.MulLinearLeft` | external/qrcodegen/QrCode.hpp:470-472 | multiplication distributes over exclusive or |
| `Gf256.OrderOfTwo` | external/qrcodegen/QrCode.cpp:742-754 | no power of 2 below the 255th is 1, so the roots 2^0, 2^1, ... are distinct |
| `Gf256.Logarithm` | external/qrcodegen/QrCode.cpp:742-754 | every nonzero byte is a power of 2 |
| `Gf256.NoZeroDivisors` | external/qrcodegen/QrCode.hpp:470-472 | a product is zero only if a factor is |
| `ReedSolomon.ComputeDivisor` | external/qrcodegen/QrCode.cpp:734-756 | the coefficients, after the leading one, of the product of all (x - 2^i) below the degree; degrees outside 1 to 255 are refused |
| `ReedSolomon.GeneratorRoots` | external/qrcodegen/QrCode.cpp:742-754 | the divisor is zero exactly at 2^0 to 2^(degree-1) |
| `ReedSolomon.ComputeRemainder` | external/qrcodegen/QrCode.cpp:759-769 | the shift register computes the remainder for any data and divisor; with an empty divisor only empty data is accepted |
| `ReedSolomon.DivisionExact` | external/qrcodegen/QrCode.hpp:466-467 | data followed by its remainder is the product of the register's feedback and the monic divisor |
| `ReedSolomon.DivisionUnique` | external/qrcodegen/QrCode.hpp:466-467 | no other quotient and remainder do so: the register computes the result of long division |
| `ReedSolomon.CodewordVanishes` | external/qrcodegen/QrCode.hpp:466-467 | data followed by its remainder is zero at every root of the divisor |
| `ReedSolomon.RemainderLinear` | external/qrcodegen/QrCode.cpp:759-769 | the remainder of a sum is the sum of the remainders |
| `RsDistance.Vandermonde` | external/qrcodegen/QrCode.hpp:243-248 | a word with no more nonzero places than vanishing power sums is zero |
| `RsDistance.MinimumDistance` | external/qrcodegen/QrCode.hpp:243-248 | different codewords of up to 255 bytes differ in more places than the degree |
| `RsDistance.UniqueCorrection` | external/qrcodegen/QrCode.hpp:243-248 | at most one codeword lies within half the degree of a received word |
| `RsDistance.CodewordIffEncoded` | external/qrcodegen/QrCode.cpp:759-769 | for data of any length and up to 255 check bytes, the check bytes make a codeword if and only if they are the remainder |
| `Bits.BitBuffer.AppendBits` | external/qrcodegen/QrCode.cpp:855-860 | appends exactly the low-order bits, highest first, and refuses lengths above 31 and values that do not fit |
| `Bits.FieldsReadBack` | external/qrcodegen/QrCode.hpp:536-552 | any series of appended values is read back with the same lengths, in front of anything appended later, and takes the sum of the lengths |
| `RadixCode.DecodeEncode` | external/qrcodegen/QrCode.cpp:77-120 | groups of digits in any valid radix are read back, short last groups included |
| `Segment.MakeBytes` | external/qrcodegen/QrCode.cpp:67-74 | a byte segment of the data, or a length error above INT_MAX |
| `Segment.MakeNumeric` | external/qrcodegen/QrCode.cpp:77-97 | the accumulating loop encodes digits in threes, and refuses anything but digits; `SegmentBits.NumericCoding` says which bits these are |
| `Segment.MakeAlphanumeric` | external/qrcodegen/QrCode.cpp:100-120 | the accumulating loop encodes characters in pairs, and refuses characters outside the set; `SegmentBits.AlphanumericCoding` says which bits these are, with the value of every character |
| `Segment.NumericContent` | external/qrcodegen/QrCode.hpp:105-108 | a numeric segment is read as its digits |
| `Segment.AlphanumericContent` | external/qrcodegen/QrCode.hpp:111-116 | an alphanumeric segment is read as its text |
| `Segment.ByteContent` | external/qrcodegen/QrCode.hpp:97-102 | a byte segment is read as its bytes |
| `SegmentBits.CharsetIndex` | external/qrcodegen/QrCode.cpp:228-228 | the place of a character in the set is its value in the standard: 0 to 9 for digits, 10 to 35 for capital letters, 36 to 44 for the nine symbols, and no place for any other |
| `SegmentBits.NumericCoding` | external/qrcodegen/QrCode.cpp:77-97 | the data of a numeric segment is three digits in ten bits at a time, and a rest of two or one in seven or four |
| `SegmentBits.AlphanumericCoding` | external/qrcodegen/QrCode.cpp:100-120 | the data of an alphanumeric segment is 45 times the value of one character plus the value of the next, in eleven bits, and a last one in six |
| `SegmentBits.ByteCoding` | external/qrcodegen/QrCode.cpp:67-74 | the data of a byte segment is its bytes, in eight bits each |
| `SegmentBits.CountWidths` | external/qrcodegen/QrCode.cpp:55-64 | the widths of the character count up to versions 9, 26 and 40 are those of the standard |
| `SegmentBits.SegmentHeader` | external/qrcodegen/QrCode.cpp:287-293 | a segment is written as the four bits of its mode indicator, its count in the width for the version, and its data |
| `Segment.IsNumeric` | external/qrcodegen/QrCode.cpp:203-210 | true exactly for texts of digits |
| `Segment.IsAlphanumeric` | external/qrcodegen/QrCode.cpp:194-200 | true exactly for texts over the 45 characters |
| `Segment.MakeSegments` | external/qrcodegen/QrCode.cpp:123-138 | one numeric segment for digits, else an alphanumeric one where possible, else a byte segment, none for the empty text, and their content is the text |
| `Limits.CheapestMode` | external/qrcodegen/QrCode.cpp:124-137 | in every version, no other mode that can hold the text takes fewer bits |
| `Limits.CheapestFits` | external/qrcodegen/QrCode.cpp:124-137 | whatever fits a symbol in another mode fits it in the chosen one, although count fields differ in width |
| `Segment.MakeEci` | external/qrcodegen/QrCode.cpp:141-156 | the designator is the shortest of the three forms, starting with 0, 10 or 110, and is read back as the assignment value; values outside 0 to 999999 are refused |
| `Segment.EciReadsBack` | external/qrcodegen/QrCode.cpp:141-156 | every value below 2^21 is read back from its designator, whose first bits say how long it is |
| `BitStream.GetTotalBits` | external/qrcodegen/QrCode.cpp:177-191 | the overflow-guarded loop returns the unbounded total, or -1 exactly when a count does not fit its field or the total exceeds INT_MAX |
| `BitStream.ParseStream` | external/qrcodegen/QrCode.cpp:287-295 | concatenated segments are parsed back one by one, up to a terminator |
| `BitStream.ParseFilled` | external/qrcodegen/QrCode.cpp:287-308 | terminator and padding never add or hide a segment, even where the terminator is cut short |
| `BitStream.UnpackPack` | external/qrcodegen/QrCode.cpp:310-313 | packed bits are read back, most significant first |
| `BitStream.PackBits` | external/qrcodegen/QrCode.cpp:310-313 | setting bit after bit with `or` builds the packed bytes |
| `BitStream.UnpackAt` | external/qrcodegen/QrCode.cpp:582-584 | bit i of a byte string is bit 7 - i mod 8 of byte i / 8 |
| `Tables.TablesOk` | external/qrcodegen/QrCode.cpp:827-843 | for every version and level the tables leave exactly the data codewords of table 7 of ISO/IEC 18004:2015, the check bytes can correct at least 7, 15, 25 and 30 percent of all codewords, and blocks need at most 30 check bytes and stay below 255 bytes |
| `Tables.RawDataModulesRange` | external/qrcodegen/QrCode.cpp:711-724 | the number of raw modules is between 208 and 29648 |
| `Encoder.CapacityRange` | external/qrcodegen/QrCode.cpp:727-731 | every symbol has room for at least one data byte |
| `Encoder.ChooseVersion` | external/qrcodegen/QrCode.cpp:260-279 | the smallest version in range that fits, failing exactly when none does, with the numbers that the error reports |
| `Encoder.BoostEcl` | external/qrcodegen/QrCode.cpp:281-285 | the highest level that still fits, never below the one asked for |
| `Encoder.WriteSegments` | external/qrcodegen/QrCode.cpp:287-295 | the bits of mode, count and data of every segment; `SegmentBits.SegmentHeader` says which bits these are |
| `Encoder.CloseStream` | external/qrcodegen/QrCode.cpp:297-304 | appends the fewest zero bits that are at least four, or all that is left, and end on a byte |
| `Encoder.PadUp` | external/qrcodegen/QrCode.cpp:306-308 | alternating bytes 0xEC and 0x11 up to the capacity |
| `Encoder.PaddingCodewords` | external/qrcodegen/QrCode.cpp:306-313 | the codewords behind the closed stream are 0xEC and 0x11 in turn |
| `Encoder.BuildCodewords` | external/qrcodegen/QrCode.cpp:287-313 | the data codewords of the segments |
| `Encoder.DataCodewordsParse` | external/qrcodegen/QrCode.cpp:287-313 | the data codewords are parsed back to the segments |
| `Interleave.AddEccAndInterleave` | external/qrcodegen/QrCode.cpp:529-565 | all data and check bytes in interleaved order, as many as the symbol has, or an error for data of the wrong length |
| `Interleave.MakeBlocks` | external/qrcodegen/QrCode.cpp:540-551 | the data cut into short and long blocks, each with the remainder of its own data |
| `Interleave.InterleaveBlocks` | external/qrcodegen/QrCode.cpp:553-564 | the blocks row by row, without the padding byte of short blocks |
| `CodewordOrder.DataOrder` | external/qrcodegen/QrCode.cpp:540-564 | the place in the interleaved sequence of every byte of the data, by its block and row, for any valid layout |
| `CodewordOrder.CheckOrder` | external/qrcodegen/QrCode.cpp:540-564 | the place behind the data of every check byte, which is a byte of the remainder of its own block |
| `Interleave.BlockReadsBack` | external/qrcodegen/QrCode.hpp:417-419 | de-interleaving recovers every data block and its check bytes |
| `Interleave.DataReadsBack` | external/qrcodegen/QrCode.hpp:417-419 | de-interleaving recovers the data |
| `Interleave.SymbolLayoutTotals` | external/qrcodegen/QrCode.cpp:533-538 | for every version and level the blocks add up to the data and raw codewords of the symbol |
| `Interleave.DamageTolerated` | external/qrcodegen/QrCode.hpp:243-248 | if every block has at most half as many wrong bytes as check bytes, only one data sequence can explain what was received |
| `Geometry.AlignNumbers` | external/qrcodegen/QrCode.cpp:695-708 | alignment patterns start right of the finder, keep their distance and end at size - 7, also for version 32 |
| `Geometry.AlignPositionsAscend` | external/qrcodegen/QrCode.hpp:443-446 | all alignment positions ascend, twelve or more apart, and lie between 6 and size - 7 |
| `Geometry.AlignPositionsListed` | external/qrcodegen/QrCode.cpp:695-708 | from version 7 on, the number of positions, the second position of table E.1 of ISO/IEC 18004:2015, and equal steps from there to size - 7 |
| `Geometry.FunctionModulesSize` | external/qrcodegen/QrCode.cpp:711-724 | the formula counts exactly the modules that are not function modules, for every version |
| `Geometry.FunctionModulesMembers` | external/qrcodegen/QrCode.cpp:416-442 | the counted set is the set of modules in finder, timing, alignment, format and version areas |
| `Zigzag.ScanIsBijective` | external/qrcodegen/QrCode.cpp:574-581 | the zigzag visits every module outside the vertical timing column exactly once and no other |
| `Zigzag.ScanOrder` | external/qrcodegen/QrCode.cpp:574-581 | the zigzag starts at the bottom right and goes on without a jump: beside, to the row above or below, or to the next pair of columns |
| `Zigzag.DataPositionsCount` | external/qrcodegen/QrCode.hpp:449-452 | the visited modules that are not marked are distinct and as many as the version's raw data modules |
| `Zigzag.DrawnAt` | external/qrcodegen/QrCode.cpp:582-588 | each position holds its own bit and every other module is unchanged |
| `Zigzag.DrawnReadsBack` | external/qrcodegen/QrCode.hpp:422-424 | bits drawn along distinct positions are read back |
| `Patterns.PatchesMark` | external/qrcodegen/QrCode.cpp:416-442 | the patterns cover exactly the function modules of the version |
| `FormatInfo.ComputeFormatBits` | external/qrcodegen/QrCode.cpp:446-453 | the loop computes the 15 format bits of a level and mask |
| `FormatInfo.ComputeVersionBits` | external/qrcodegen/QrCode.cpp:477-483 | the loop computes the 18 version bits, whose upper six are the version |
| `FormatInfo.CodeWordMultiple` | external/qrcodegen/QrCode.cpp:446-453 | data with its check bits is a multiple of the generator polynomial and keeps the data in its upper bits |
| `FormatInfo.FormatReadsBack` | external/qrcodegen/QrCode.cpp:446-453 | level and mask are read back from the format bits |
| `FormatDistance.FormatWordsListed` | external/qrcodegen/QrCode.cpp:446-453 | the words of table C.1 of ISO/IEC 18004:2015 for mask 0 at levels low, medium and high, and mask 1 at medium |
| `FormatDistance.FormatWordsDistance` | external/qrcodegen/QrCode.cpp:446-453 | the format words of two different pairs of level and mask differ in at least seven of fifteen bits |
| `FormatDistance.FormatCorrection` | external/qrcodegen/QrCode.hpp:386-388 | format bits of which at most three are wrong belong to one level and mask only |
| `VersionDistance.VersionWordsDistance` | external/qrcodegen/QrCode.cpp:477-483 | the version words of two different versions differ in at least eight of eighteen bits |
| `Masks.AlternatingMasks` | external/qrcodegen/QrCode.cpp:603-612 | mask 0 differs between any two neighbors, and mask 1 between any two rows and within none, both true at the origin |
| `Masks.ThirdMasks` | external/qrcodegen/QrCode.cpp:603-612 | mask 2 holds in every third column and mask 3 on every third antidiagonal, both from the origin on |
| `Masks.BlockMask` | external/qrcodegen/QrCode.cpp:603-612 | mask 4 is a checkerboard of aligned blocks of three by two modules |
| `Masks.ProductMasks` | external/qrcodegen/QrCode.cpp:603-612 | mask 5 holds exactly where 6 divides the product of the coordinates, mask 6 exactly where the product is below 3 modulo 6, and mask 7 is mask 0, inverted where the product is 1 modulo 3 |
| `Masks.MaskTwice` | external/qrcodegen/QrCode.hpp:427-432 | applying a mask twice restores any grid of any size |
| `Masks.MasksCommute` | external/qrcodegen/QrCode.hpp:427-432 | two masks can be applied in either order |
| `Masks.MasksKeepFunctionModules` | external/qrcodegen/QrCode.hpp:321-322 | no sequence of masks changes a function module |
| `Masks.TrialForgets` | external/qrcodegen/QrCode.cpp:340-350 | the format bits of earlier trials have no influence on a trial |
| `Masks.TrialUndone` | external/qrcodegen/QrCode.cpp:340-350 | undoing a trial leaves nothing of it but its format bits |
| `Penalty.AddHistory` | external/qrcodegen/QrCode.cpp:806-811 | shifts the history in place and adds the white border to the first run |
| `Penalty.HistoryIsWindow` | external/qrcodegen/QrCode.cpp:806-811 | after any number of pushes the history holds the latest seven runs, newest first, and zeros where there were fewer |
| `Penalty.CountPatterns` | external/qrcodegen/QrCode.cpp:785-792 | the number of finder-like patterns, by place, unit and side of the wide margin, among the modules that the seven runs spell, empty runs included |
| `Penalty.TerminateAndCount` | external/qrcodegen/QrCode.cpp:795-803 | adds the last runs and the white border to the history, and counts the patterns among the modules of its seven runs |
| `FinderLike.PatternsAreFinders` | external/qrcodegen/QrCode.cpp:623-666 | counting windows of seven runs counts every finder-like pattern of a line exactly once: every start, unit and side at which its modules read 1:1:3:1:1 with margins of four and one |
| `FinderLike.PatternCountMeans` | external/qrcodegen/QrCode.cpp:785-792 | the formula over seven run lengths is the number of such patterns among the modules that they spell |
| `LineRuns.RunColor` | external/qrcodegen/QrCode.cpp:623-666 | the runs of a line lie end to end with alternating colors, white first |
| `Penalty.ScoreLine` | external/qrcodegen/QrCode.cpp:623-666 | for rows and columns alike, the one-pass loop over a line equals the cost of all its runs plus the number of finder-like patterns among its modules between white borders |
| `Penalty.ScoreBlocks` | external/qrcodegen/QrCode.cpp:669-679 | the number of 2*2 squares whose four modules all have one color, counted as a set |
| `Penalty.ScoreBalance` | external/qrcodegen/QrCode.cpp:679-690 | the imbalance of the number of black modules, counted as a set |
| `Penalty.ImbalanceLeast` | external/qrcodegen/QrCode.cpp:687-689 | for odd sizes, the computed step is the least k for which black lies within 45-5k% and 55+5k% |
| `Penalty.GetPenaltyScore` | external/qrcodegen/QrCode.cpp:620-692 | the sum of all penalties of the grid |
| `Penalty.WhiteLine` | external/qrcodegen/QrCode.cpp:623-666 | a white line of n >= 5 modules costs n - 2 |
| `Penalty.FinderLine` | external/qrcodegen/QrCode.cpp:623-666 | the seven modules of a finder pattern cost 40 for each side, and nothing else |
| `Penalty.BlankScore` | external/qrcodegen/QrCode.cpp:620-692 | the score of a white grid of any odd size in closed form, which fixes all four weights together with the two lines above |
| `Penalty.PenaltyScoreBound` | external/qrcodegen/QrCode.cpp:339-347 | no penalty of a symbol reaches the initial minimum, so a mask is always chosen |
| `QrSymbol.QrCode.SetFunctionModule` | external/qrcodegen/QrCode.cpp:516-521 | colors and marks one module and no other |
| `QrSymbol.QrCode.DrawFinderPattern` | external/qrcodegen/QrCode.cpp:496-505 | draws and marks the rings of the pattern as far as they are inside, and changes nothing else; `SymbolPicture.ThreeFinders` says which colors these are |
| `QrSymbol.QrCode.DrawAlignmentPattern` | external/qrcodegen/QrCode.cpp:508-513 | draws and marks the rings of the pattern and changes nothing else; `SymbolPicture.AlignmentSquares` says which colors these are |
| `QrSymbol.QrCode.GetAlignmentPatternPositions` | external/qrcodegen/QrCode.cpp:695-708 | the list built from its end is 6 followed by equal steps up to size - 7 |
| `QrSymbol.QrCode.DrawFormatBits` | external/qrcodegen/QrCode.cpp:445-470 | draws and marks both copies of the format bits and the dark module, and changes nothing else; `SymbolPicture.FormatCopies` says where each bit is |
| `QrSymbol.QrCode.DrawVersion` | external/qrcodegen/QrCode.cpp:473-493 | draws and marks both copies of the version bits from version 7 on, and nothing before |
| `QrSymbol.QrCode.DrawFunctionPatterns` | external/qrcodegen/QrCode.cpp:416-442 | every module has the color of the last pattern that covers it, and is marked if one does |
| `QrSymbol.QrCode.DrawCodewords` | external/qrcodegen/QrCode.cpp:568-593 | every unmarked module along the zigzag gets its bit, no marked module changes, all bits are used; data of the wrong length is refused and nothing drawn |
| `QrSymbol.QrCode.ApplyMask` | external/qrcodegen/QrCode.cpp:596-617 | inverts exactly the unmarked modules of the mask pattern, and refuses other mask numbers; `Masks.AlternatingMasks` to `Masks.ProductMasks` say which modules these are |
| `QrSymbol.QrCode.ChooseMask` | external/qrcodegen/QrCode.cpp:338-351 | the first mask with the lowest penalty among all eight, leaving no trial mask on the grid |
| `QrSymbol.QrCode.DoMasking` | external/qrcodegen/QrCode.cpp:338-359 | the final grid is the unmasked grid with exactly one mask and its format bits, and that mask is the forced or the best one |
| `QrSymbol.QrCode.Create` | external/qrcodegen/QrCode.cpp:320-360 | the constructor makes the symbol of the data codewords, or reports the argument that is out of range |
| `SymbolReader.CodewordsFit` | external/qrcodegen/QrCode.cpp:568-593 | the data area holds all codewords of the version at distinct positions |
| `SymbolReader.LaidPatterns` | external/qrcodegen/QrCode.cpp:416-442 | the drawn function patterns mark exactly the function modules |
| `SymbolPicture.FunctionColor` | external/qrcodegen/QrCode.hpp:321-322 | codewords and masks leave every function module but the format bits in the color of its pattern |
| `SymbolPicture.ThreeFinders` | external/qrcodegen/QrCode.cpp:423-426 | every finished symbol has, in three corners, a dark frame of seven modules around a light one around a dark square of three, with light modules around it |
| `SymbolPicture.FinderLines` | external/qrcodegen/QrCode.cpp:496-505 | three rows and three columns through each of them read 1:1:3:1:1 with their margins between white borders |
| `SymbolPicture.AlignmentSquares` | external/qrcodegen/QrCode.cpp:428-437 | every crossing of alignment positions without a finder pattern is a dark center in a light ring in a dark ring |
| `SymbolPicture.TimingLines` | external/qrcodegen/QrCode.cpp:417-421 | between the finder patterns, row 6 and column 6 alternate and are dark at even places, also where alignment patterns cover them |
| `SymbolPicture.FormatCopies` | external/qrcodegen/QrCode.cpp:455-469 | bits 14 to 0 of the format word are read along the places of the second copy as along those of the first, and the dark module is dark |
| `SymbolPicture.VersionCopies` | external/qrcodegen/QrCode.cpp:485-492 | from version 7 on, both copies hold the version word, whose upper six bits are the version |
| `SymbolReader.SymbolFormat` | external/qrcodegen/QrCode.cpp:445-470 | the first format copy of a finished symbol is its format word and names its level and mask |
| `SymbolReader.SymbolCodewordsRead` | external/qrcodegen/QrCode.cpp:529-593 | unmasking a finished symbol and reading its zigzag gives all its codewords |
| `SymbolReader.SymbolDataRead` | external/qrcodegen/QrCode.cpp:320-360 | a finished symbol gives back its data codewords |
| `SymbolReader.SymbolReadsBack` | external/qrcodegen/QrCode.cpp:287-360 | a reader that knows only the grid recovers version, level, mask and all segments |
| `SymbolDamage.DamagedSymbolUnambiguous` | external/qrcodegen/QrCode.hpp:243-248 | a grid with at most three wrong format bits, and in each block at most half as many wrong codewords as check bytes, comes from one version, level, mask and list of segments only |
| `SymbolDamage.FewWrongModules` | external/qrcodegen/QrCode.hpp:243-248 | up to three wrong modules, anywhere in a finished symbol, are such damage |
| `SymbolDamage.ThreeWrongModules` | external/qrcodegen/QrCode.hpp:243-248 | no grid is within three modules of two different finished symbols |
| `QrFactory.EncodeSegments` | external/qrcodegen/QrCode.cpp:255-317 | succeeds exactly when some version in range fits, with the smallest version, the right level, the forced or best mask and the symbol of the segments; reports bad arguments and data that is too long |
| `QrFactory.EncodedReadsBack` | external/qrcodegen/QrCode.hpp:279-291 | the returned symbol holds exactly the given segments |
| `QrFactory.EncodeText` | external/qrcodegen/QrCode.cpp:243-246 | the symbol holds the text; at the low level exactly up to 7089 digits, 4296 alphanumeric characters or 2953 bytes succeed; otherwise it succeeds exactly when some version fits, and reports by how much the data is too long |
| `QrFactory.EncodeBinary` | external/qrcodegen/QrCode.cpp:249-252 | the symbol holds the bytes; at the low level exactly up to 2953 bytes succeed; otherwise it succeeds exactly when some version fits, and reports by how much the data is too long |
| `Limits.BytesFitLow` | external/qrcodegen/QrCode.hpp:268-274 | bytes fit some symbol of the low level up to version 9, 26 or 40 if and only if there are at most 230, 1367 or 2953 |
| `Limits.DigitsFitLow` | external/qrcodegen/QrCode.hpp:43-43 | digits fit some symbol of the low level up to version 9, 26 or 40 if and only if there are at most 552, 3283 or 7089 |
| `Limits.AlphanumericFitsLow` | external/qrcodegen/QrCode.hpp:258-265 | alphanumeric text fits some symbol of the low level up to version 9, 26 or 40 if and only if it has at most 335, 1990 or 4296 characters |
| `Limits.TextFitsLow` | external/qrcodegen/QrCode.hpp:258-265 | a text fits some symbol of the low level up to version 9, 26 or 40 if and only if it is within the limit of its mode |
| `Limits.CharacterLimit` | external/qrcodegen/QrCode.hpp:43-44 | no symbol of any version and level holds more than 7089 characters, however they are spread over segments |
| `HeaderText.PrintContents` | translations/generate_translations_header.c:58-67 | the byte loop prints one literal per chunk of 16 bytes, all of them closed unless the file is empty, and counts the bytes |
| `HeaderText.UnclosedCloses` | translations/generate_translations_header.c:58-67 | after any number of bytes above zero exactly one literal is open, and the quote after the loop closes it |
| `HeaderText.ChunksShape` | translations/generate_translations_header.c:58-66 | ceil(n/16) chunks, all of 16 bytes but the last of 1 to 16, that concatenate to the contents |
| `HeaderText.DataTextLength` | translations/generate_translations_header.c:58-67 | n > 0 bytes take 4n + 5 ceil(n/16) characters |
| `HeaderText.PrintDeclarations` | translations/generate_translations_header.c:51-70 | two declarations for every file, numbered from one |
| `HeaderText.PrintTable` | translations/generate_translations_header.c:72-81 | a row for every file, then the sentinel |
| `HeaderText.Generate` | translations/generate_translations_header.c:39-89 | the text of the whole header |
| `HeaderLexing.DecimalReadsBack` | translations/generate_translations_header.c:67-67 | a printed count is read as itself |
| `HeaderLexing.EscapeIsOneByte` | translations/generate_translations_header.c:65-65 | a hexadecimal escape is read as its byte and absorbs nothing of a following escape or quote |
| `HeaderLexing.EscapesReadBack` | translations/generate_translations_header.c:58-66 | the body of a literal is read as its bytes, NUL among them |
| `HeaderLexing.LexEmptyFile` | translations/generate_translations_header.c:57-67 | the declarations of an empty file cannot be split into tokens, whatever follows |
| `HeaderRoundTrip.DataReadsBack` | translations/generate_translations_header.c:57-67 | printed contents are read as adjacent literals that concatenate to the contents |
| `HeaderRoundTrip.DataTextInjective` | translations/generate_translations_header.c:58-66 | different contents are printed differently |
| `HeaderRoundTrip.InitializerReadable` | translations/generate_translations_header.c:57-67 | the initializer can be read if and only if the file is not empty |
| `HeaderRoundTrip.IdsDistinct` | translations/generate_translations_header.c:56-57 | no two declared variables have the same name |
| `HeaderRoundTrip.ParseData` | translations/generate_translations_header.c:57-67 | the string made from the literals and the printed count is the contents |
| `HeaderRoundTrip.ParseTable` | translations/generate_translations_header.c:72-81 | the rows point to the files in their order |
| `HeaderFrame.LexLookup` | translations/generate_translations_header.c:27-37 | the printed lookup function is split into the tokens that the reader lists for it |
| `HeaderRoundTrip.HeaderTokens` | translations/generate_translations_header.c:47-84 | a header without empty files is split into the guard, two declarations for each file, the table and the lookup function |
| `HeaderRoundTrip.HeaderReadsBack` | translations/generate_translations_header.c:47-84 | with names that are safe in a literal, the header defines the table of the files if no file is empty, and is unreadable otherwise |
| `HeaderRoundTrip.EmptyFileExample` | translations/generate_translations_header.c:57-67 | the header of one empty file cannot be read |
| `HeaderReader.FindEmbeddedFile` | translations/generate_translations_header.c:27-37 | stops at the sentinel, finds the first entry with the name, and leaves the data alone when there is none |
| `HeaderRoundTrip.EmbedAndFind` | translations/generate_translations_header.c:8-22 | generating, reading and looking up returns the contents of the first file with the name, and fails exactly when there is none |

## Left out

- `QrCode::toSvgString` and the getters: presentation and field access.
- File opening, closing and exit codes of the header generator: files are values here, and so are their names.
- File names with quotes, backslashes or line ends: the generator prints names as they are, so the round trip asks for names that are safe in a literal.
- The meaning of the lookup function as C++: the reader splits it into tokens, compares them with a list of its own, and gives exactly these tokens the meaning of `HeaderReader.FindEmbeddedFile`; it does not interpret statements.
- C++ outside of what a header uses: escapes other than hexadecimal ones, numbers other than decimal ones, comments, literal suffixes and punctuators of several characters other than `::`, `->`, `++`, `!=` and `==` are not part of the lexer, and a `#` makes the rest of its line a directive wherever it stands.
- Widths of counters: the byte counter and file numbers of the header generator and the character counts of segments are unbounded here; sums that the source guards against overflow are modelled with their guards.
- Kanji segments: the source has the mode but no function that makes such segments; the reader accepts them.
- Correcting errors: the source only encodes, so the model proves that a correction is unique and does not compute it.
- Sharing of grids: `modules` and `isFunction` are fields that hold grids as values and are reassigned, so two symbols never share a grid.
- The wallet, node, and build parts of the repository: configuration, interfaces and scripts.
