# Verified models of AVEX Pay

AVEX Pay is a payment gateway: it issues invoices, watches chains for transfers, credits each transfer to an
invoice, bills its commission, and sends settled funds to addresses the merchant controls. This project models
the parts of it where a mistake moves money or makes a code unreadable, and proves what those parts promise.
`dafny verify dfyconfig.toml` checks all of it.

**Crediting.** `CreditingState` holds the four tables (invoices, payment rows keyed by chain, transaction and
position, parked transfers, ledger entries) and every service call as one step on them. `CreditingRuns` and
`CreditingSafety` prove what every run of those steps keeps: totals and statuses agree with the surviving
payments, a transfer counts toward one invoice at most, and an organisation's balance is what people entered plus
what the payments leave on it. `CreditingRules` and `MatchingRules` say what the steps do in the rows' own
fields and plain arithmetic. `CreditingReplay` proves that calls about a transfer already credited, put in
anywhere in a run, change no invoice, payment or balance. `RecoveryRuns` proves how every call moves a balance, and
when a run leaves an organisation that owes us still owing. `PaymentSinks` is the imperative service itself: each
method is proved to perform exactly one of those steps (the sweep: one for each row it takes).
`PooledMatching` holds the rules that decide between invoices at a shared wallet, with what they do and do not
depend on; `ParkedSurvivors` follows a parked transfer over any run to the invoice that is left; `InvoiceExpiry`
says what expiry does not settle.

**QR codes.** `GaloisField` defines multiplication of bytes as polynomial multiplication modulo
x^8+x^4+x^3+x^2+1 and proves the field laws; `GfPowers` proves that x generates every nonzero byte; `ReedSolomon` and
`MinimumDistance` prove that the encoder's codewords vanish at the generator's roots, that different blocks give
codewords more than n places apart, and that damage to n/2 bytes can be undone in one way only. `ReedSolomonCode` and
`QrEncoder` are the tables, arrays and loops of the encoder, proved to compute those functions; `QrStream` proves
that a reader of the interleaved stream recovers exactly the payload (`QrDataBytes` has its data codewords byte by
byte), and that damage within the error correction leaves no other. `FunctionPatterns` counts the cells the function
patterns leave free; `QrPlacement` is the placement walk and what it loses; `QrReading` proves that every accepted
payload is nevertheless read from its code by the standard's walk; `QrDrawing` draws the patterns and places the
stream.

**Fees and schedules.** `Commission` and `FeePlans` are the arithmetic of recoveries, rates and disclosures under
the forwarder's 500 basis points; `Calendar`, `FeePeriods` and `PeriodTiling` close volume periods on a clamped
calendar; `PayoutHistory` and `PayoutAddresses` keep the history of payout addresses.

**Two codecs.** `Base32Groups`, `Base32Text`, `Base32` and `Base32Decode` are the base32 codec with its unmasked
32-bit accumulator (section 6 of RFC 4648); `DecimalText` and `UnitFormats` are the decimal printer and the parser
that reads it. `Bits`, `Polynomials`, `DecimalPowers`, `Division`, `WhiteSpace` and `Options` are shared.

## Where the code and what is said of it part

- A reversed payment keeps its row, so a transaction that comes back after a reorganisation is a duplicate and is
  not credited again (`CreditingSafety.ReversedForGood`).
- A remark in the sink says an invoice that had expired stays expired through a reversal. It does exactly when it is
  still marked expired just before; one that was paid late goes back to pending (`InvoiceExpiry.ReversalReopens`,
  with a run in `InvoiceExpiry.ExpiryIsNotAbsorbing`).
- A parked transfer goes to the survivor as the only candidate exactly when its sender is not by then completing some
  invoice, whatever calls came between (`ParkedSurvivors.SweepCreditsTheSurvivor`). That the sender paid nothing new
  is not enough: a reversal can make a settled invoice of theirs short again, and the transfer then goes there
  (`PooledMatching.ReversalDivertsTheStray`). With no reversal and nothing more from a sender whose earlier
  payments are not worth nothing, it goes to the survivor (`ParkedSurvivors.QuietStrayReachesTheSurvivor`).
- Recoveries sized against one balance and paid together can collect it twice
  (`Commission.OverlappingRecoveriesOvershoot`). They never do exactly when their cuts at the quoted values sum to at
  most the debt (`Commission.InFlightTogether`). A reversal lifts a debt above zero exactly when the commission it
  gives back is more than is owed (`RecoveryRuns.ReversalLifts`). Over a whole run an organisation is never owed
  anything exactly when no call adds more than is owed when it comes (`RecoveryRuns.OwedThroughoutExactly`). That holds
  when nothing but payments on its own invoice, within its quote, raised the balance a recovery was sized on, and no
  reversal and no entry made by hand adds more than is owed (`RecoveryRuns.NeverOwedAfterARun`).
- `closePeriods` is described as doing nothing when it is run twice. That holds exactly when no plan was two
  periods behind (`PeriodTiling.SecondCallDoesNothing`, with a plan for which it fails in
  `PeriodTiling.SecondCallCanMatter`); enough calls always reach that point (`PeriodTiling.EveryPlanCatchesUp`).
- The placement walk takes columns 5, 4 and then 4, 3 after the timing column, against section 7.7.3 of
  ISO/IEC 18004:2015: column 4 is written twice and column 0 never (`QrPlacement.WalkMeetsStandard`). Some bit is lost
  exactly when a cell of column 4 is free (`QrPlacement.LosesABitExactly`), which one is in each of the six versions
  (`QrReading.EveryVersionLosesABit`); the placed stream reads back exactly when none is
  (`QrPlacement.ReadsBackExactly`). Along the standard's walk it always does (`QrPlacement.StandardReadsBack`).
- No payload is lost by that. The codewords the walk can misplace are the last of the error correction, at most half of
  each block's (9 of 18 at version 6, level L), so a reader that follows the standard and corrects errors takes from
  every code the payload that was encoded and no other (`QrReading.DrawnCodeIsRead`).
- base32 text with white space after its padding is refused (`Base32Decode.PaddingBeforeSpaceIsRefused`). Text is
  accepted exactly when its letters are of the alphabet and no padding is left once the padding at its very end is gone
  (`Base32Decode.AcceptedExactly`, `Base32Decode.PaddingMustComeLast`).
- A remark in the schema says that volume a merchant reports is counted and labelled, as declared volume is. The
  assessment counts a `self_reported` payment as unpriced, so the volume is what it would be with them exactly when
  they report nothing (`FeePeriods.ReportedGoesUncounted`).

## Model

| member | source | states |
|---|---|---|
| `GaloisField.MulCommutes` | packages/qr/src/index.ts:99-102 | The product of two bytes as polynomials modulo 0x11d does not depend on their order |
| `GaloisField.MulAssociates` | packages/qr/src/index.ts:99-102 | Products of three bytes may be grouped either way |
| `GaloisField.MulAddRight` | packages/qr/src/index.ts:99-128 | Multiplication distributes over exclusive or, the field's addition |
| `GfPowers.Order` | packages/qr/src/index.ts:87-97 | No power of x below the 255th is one: the polynomial is primitive |
| `GfPowers.ExpPeriod` | packages/qr/src/index.ts:96 | The powers repeat with period 255, which is why the second half of `EXP` copies the first |
| `GfPowers.ExpInjective` | packages/qr/src/index.ts:88-95 | The 255 powers in the table are different |
| `GfPowers.LogExists` | packages/qr/src/index.ts:88-95 | Every nonzero byte is one of them, so every logarithm but that of 0 is filled in |
| `GfPowers.MulNonzero` | packages/qr/src/index.ts:100 | A product is zero exactly when a factor is |
| `GfPowers.FirstPowers` | packages/qr/src/index.ts:84-97 | The first eight powers of x are 1, 2, 4, ... 128, and the next is 16 + 8 + 4 + 1, where 0x11d comes in |
| `ReedSolomonCode.FillTables` | packages/qr/src/index.ts:84-97 | The loop leaves x^i in `EXP[i]` for i below 255, and i in `LOG` of the i-th power |
| `ReedSolomonCode.GfTables.constructor` | packages/qr/src/index.ts:84-97 | Both loops together leave x^i in `EXP[i]` for all 512 places, beside those logarithms |
| `ReedSolomonCode.GfTables.LogTable` | packages/qr/src/index.ts:91 | The power that `LOG` names for a nonzero byte is the byte |
| `ReedSolomonCode.GfTables.Multiply` | packages/qr/src/index.ts:99-102 | The product by table lookup is the product of polynomials |
| `ReedSolomonCode.NextFactor` | packages/qr/src/index.ts:107-113 | One pass of the loop multiplies the polynomial by x - a^i |
| `ReedSolomonCode.GeneratorPolynomial` | packages/qr/src/index.ts:105-116 | The array is the product of x - a^i for i below the degree |
| `ReedSolomon.GeneratorShape` | packages/qr/src/index.ts:105-116 | The generator is monic and has one more coefficient than its degree |
| `ReedSolomon.GeneratorRoots` | packages/qr/src/index.ts:105-116 | It is zero at a^0 to a^(degree-1), as Annex A of ISO/IEC 18004:2015 has it |
| `ReedSolomonCode.ShiftIn` | packages/qr/src/index.ts:122-129 | One byte through the register, shifted and added to in place, is one step of division by the generator |
| `ReedSolomonCode.ErrorCorrection` | packages/qr/src/index.ts:118-131 | The register after all bytes is the remainder of the division, for every length the tables allow |
| `ReedSolomon.RemainderAtRoot` | packages/qr/src/index.ts:118-131 | At every root the register has the value of the data times x^n: the invariant of the shift register |
| `ReedSolomon.CodewordAtRoots` | packages/qr/src/index.ts:118-131 | Data followed by its error correction bytes is zero at all n roots (section 7.5.2 of ISO/IEC 18004:2015) |
| `MinimumDistance.MinimumWeight` | packages/qr/src/index.ts:118-131 | A nonzero word of at most 255 bytes that is zero at n consecutive powers has more than n nonzero bytes |
| `MinimumDistance.CodewordDistance` | packages/qr/src/index.ts:118-131 | Different blocks of one length give codewords that differ in at least n + 1 places |
| `MinimumDistance.RemainderUnique` | packages/qr/src/index.ts:118-131 | The error correction bytes are the only ones that make every syndrome of the data zero |
| `MinimumDistance.DamageIsCorrectable` | packages/qr/src/index.ts:118-131 | A word with at most n/2 damaged bytes comes from one block only |
| `QrStream.TablesWellFormed` | packages/qr/src/index.ts:31-73 | In every row the blocks divide evenly, fit the field, and with their error correction fill the version |
| `QrStream.TablesAreStandard` | packages/qr/src/index.ts:31-51 | Row by row the data codewords, the number of blocks and the error correction of each block are those of Table 9 of ISO/IEC 18004:2015: at level M 1, 1, 1, 2, 2, 4 blocks with 10, 16, 26, 18, 24, 16 bytes each, at level L 1, 1, 1, 1, 1, 2 with 7, 10, 15, 20, 26, 18 |
| `QrStream.ChosenIsStandard` | packages/qr/src/index.ts:177-190 | So has every version a payload is given |
| `QrStream.ChooseVersionFits` | packages/qr/src/index.ts:177-190 | Payloads of at most 134 bytes are accepted and no others; level M serves up to 106; the version chosen holds the payload and no smaller one of its level does |
| `QrEncoder.BitWriter.Push` | packages/qr/src/index.ts:138-140 | The lowest bits of the value are appended, most significant first |
| `QrEncoder.BitWriter.PushBytes` | packages/qr/src/index.ts:333 | The bits of every byte are appended in order |
| `QrEncoder.BitWriter.FillByte` | packages/qr/src/index.ts:148 | Zeros are appended up to a whole byte, and no more |
| `QrEncoder.BitWriter.PackByte` | packages/qr/src/index.ts:151-155 | Eight bits are packed into the byte they write |
| `QrEncoder.BitWriter.ToCodewords` | packages/qr/src/index.ts:146-163 | The codewords are the bits' bytes, then 0xEC and 0x11 in turn, to exactly the count asked for |
| `QrStream.DataBits` | packages/qr/src/index.ts:329-336 | The bits of the data codewords are mode 0100, the length, the payload, the terminator and then the pad bytes, and nothing else (sections 7.4.5, 7.4.9 and 7.4.10 of ISO/IEC 18004:2015) |
| `QrDataBytes.FirstCodeword` | packages/qr/src/index.ts:330-331 | The first data codeword is byte mode, 4, and then how many sixteens the length has |
| `QrDataBytes.PayloadCodeword` | packages/qr/src/index.ts:331-334 | Each of the next is the low half of one byte and the high half of the next, over the length, the payload and a zero at the end |
| `QrDataBytes.PadCodeword` | packages/qr/src/index.ts:157-162 | The rest are 236 and 17 in turn |
| `QrEncoder.WriteMessage` | packages/qr/src/index.ts:330-334 | The writer holds the fields of the message one after the other, the terminator whenever there is room for it |
| `QrEncoder.EncodeData` | packages/qr/src/index.ts:329-336 | The writer's calls produce those codewords |
| `QrStream.JoinSplit` | packages/qr/src/index.ts:339-344 | The equal blocks, joined, are the data |
| `QrEncoder.EncodeBlocks` | packages/qr/src/index.ts:338-346 | The loop cuts the data into those blocks and computes each one's error correction |
| `QrEncoder.InterleaveBlocks` | packages/qr/src/index.ts:348-354 | The loops take the first byte of every block, then the second, and so on |
| `QrStream.InterleaveAt` | packages/qr/src/index.ts:348-354 | Byte i of block b stands at place i times the number of blocks plus b of the stream (section 7.6 of ISO/IEC 18004:2015) |
| `QrStream.ReadInterleaved` | packages/qr/src/index.ts:348-354 | De-interleaving gives back the blocks |
| `QrStream.ParityChecks` | packages/qr/src/index.ts:338-346 | Every block with its error correction passes its syndrome check |
| `QrStream.ParseMessage` | packages/qr/src/index.ts:329-334 | The data bits parse back to the payload, whatever pads follow |
| `QrStream.StreamBlocks` | packages/qr/src/index.ts:338-354 | A reader finds in the stream the data blocks that were written, each with its own error correction |
| `QrStream.PayloadRecovered` | packages/qr/src/index.ts:324-354 | For every accepted payload, reading the stream (blocks checked, then parsed) gives exactly the payload |
| `QrStream.CorrectionIsUnique` | packages/qr/src/index.ts:118-131 | Whatever a reader receives, at most one choice of data blocks is within half of each block's error correction of it |
| `QrStream.DamagedStreamIsRead` | packages/qr/src/index.ts:324-354 | A stream damaged in at most half as many bytes of each block as it has error correction is still read as its payload, and as no other |
| `QrStream.StreamsAreFarApart` | packages/qr/src/index.ts:324-354 | No stream is that close to the streams of two payloads |
| `QrEncoder.EncodeStream` | packages/qr/src/index.ts:324-354 | The whole encoder up to placement writes that stream, in the blocks the standard has for its version and level, and refuses exactly what no version holds |
| `QrPlacement.WalkVisits` | packages/qr/src/index.ts:380-391 | For every odd size from 21 the written walk visits each cell once, but column 4 twice and columns 0 and 6 never |
| `QrPlacement.WalkOrder` | packages/qr/src/index.ts:380-391 | Every place of the written walk: pairs of columns from the right edge, the first upward from the bottom row and then in turn, the right cell of a row first, and 5 and 4 where the timing column would come |
| `QrPlacement.StandardOrder` | packages/qr/src/index.ts:380-391 | Every place of the standard's walk, which is one column further left from there on |
| `QrPlacement.WalkBeginsAtTheBottom` | packages/qr/src/index.ts:381-386 | The written walk begins in the bottom right corner and never moves by more than a row |
| `QrPlacement.StandardBeginsAtTheBottom` | packages/qr/src/index.ts:381-386 | So does the standard's, from the same corner |
| `QrPlacement.StandardVisits` | packages/qr/src/index.ts:380-391 | Moving on from column 5 instead visits each cell outside the timing column once, as section 7.7.3 of ISO/IEC 18004:2015 intends |
| `QrPlacement.WalkMeetsStandard` | packages/qr/src/index.ts:380-391 | The two agree on a cell exactly outside columns 0 and 4 |
| `QrPlacement.PlaceStream` | packages/qr/src/index.ts:380-391 | The nested loops leave each free cell the bit of its last visit, zeros once the stream is out, and every other cell as it was |
| `QrPlacement.LastVisitWins` | packages/qr/src/index.ts:385-389 | A cell holds the bit of its last visit |
| `QrPlacement.DistinctCellsReadBack` | packages/qr/src/index.ts:385-389 | Along cells visited once the stream reads back, whatever it is |
| `QrPlacement.OverwrittenBitIsLost` | packages/qr/src/index.ts:385-389 | A bit whose cell is visited again can be changed without changing the matrix |
| `QrPlacement.ColumnFourLosesABit` | packages/qr/src/index.ts:380-391 | As soon as a cell of column 4 is free, there is a bit of the stream that the matrix does not depend on |
| `QrPlacement.LosesABitExactly` | packages/qr/src/index.ts:380-391 | There is such a bit exactly when a cell of column 4 is free, for every odd size from 21 and every reserved set |
| `QrPlacement.ReadsBackExactly` | packages/qr/src/index.ts:380-391 | Every stream reads back from the matrix exactly when all of column 4 is reserved |
| `QrReading.EveryVersionLosesABit` | packages/qr/src/index.ts:356-391 | In each of the six versions some bit of the codewords has no effect on the matrix, so the placed stream cannot be read back bit for bit |
| `FunctionPatterns.ColumnRoom` | packages/qr/src/index.ts:356-371 | How many rows of a column are free, counted from the patterns that cross it |
| `FunctionPatterns.ReservedCells` | packages/qr/src/index.ts:356-371 | Reserved are three corners of nine by nine or by eight, row and column 6, and from version 2 a square of five by five in the fourth corner |
| `FunctionPatterns.WalksHoldTheStream` | packages/qr/src/index.ts:67-68 | In each version the free cells along either walk are as many as the bits of its codewords in the table, and 0 or 7 remainder bits |
| `QrReading.DrawnCodeIsRead` | packages/qr/src/index.ts:324-412 | For every accepted payload, under any mask, a reader that takes the codewords by the standard's walk and corrects up to half of each block's error correction finds the data blocks sent, no others are within its reach, and they parse to the payload |
| `QrReading.HalfArrives` | packages/qr/src/index.ts:31-51 | In every version a payload can be given, the misplaced codewords are at most half of each block's error correction |
| `QrDrawing.PlaceFinder` | packages/qr/src/index.ts:201-214 | A finder pattern and its border are written, as far as they are in the matrix, and nothing else |
| `QrDrawing.PlaceAlignment` | packages/qr/src/index.ts:216-223 | An alignment pattern is written around its centre, and nothing else |
| `QrDrawing.PlaceTiming` | packages/qr/src/index.ts:362-365 | Row and column 6 alternate between the finders, and nothing else changes |
| `QrDrawing.PatternsAre` | packages/qr/src/index.ts:197-223 | Module by module the finder and alignment patterns and the timing are those of sections 6.3.3 to 6.3.6 of ISO/IEC 18004:2015 |
| `QrDrawing.PatternsInPlace` | packages/qr/src/index.ts:357-366 | Three corners of the matrix have a finder and, from version 2, an alignment pattern is centred seven cells from the fourth |
| `QrDrawing.BetweenPatterns` | packages/qr/src/index.ts:362-369 | The borders of the finders are light, the timing alternates from the eighth cell on, the cell beside the lower finder is dark, and the format cells are still light |
| `QrDrawing.ReserveFormatAreas` | packages/qr/src/index.ts:225-235 | The format cells that are still blank become light, and nothing else changes |
| `QrDrawing.DrawPatterns` | packages/qr/src/index.ts:356-369 | Drawn in the code's order, every cell shows what the patterns make of it, and is blank elsewhere |
| `QrDrawing.PatternsAreReserved` | packages/qr/src/index.ts:371 | The cells that are not blank then are exactly the reserved ones |
| `QrDrawing.DrawCode` | packages/qr/src/index.ts:324-391 | Payloads of at most 134 bytes are drawn and others refused; the reserved cells of the matrix show the patterns and, under any mask, the others the payload's stream along the encoder's walk |
| `QrPlacement.StandardReadsBack` | packages/qr/src/index.ts:380-391 | Along the standard's walk every stream reads back, whatever is reserved |
| `PooledMatching.DecisionIsOrderFree` | apps/api/src/domain/pooled-matching.ts:125-201 | The decision over lists is the one over the sets of their elements, when invoice ids differ |
| `PooledMatching.PermutationIndependent` | apps/api/src/domain/pooled-matching.ts:125-201 | Reordering candidates and prior payments changes nothing |
| `PooledMatching.NewcomersNeverMatter` | apps/api/src/domain/pooled-matching.ts:137 | Invoices issued after the transfer was seen, with any payments to them, change nothing |
| `PooledMatching.CreditHasEvidence` | apps/api/src/domain/pooled-matching.ts:140-201 | A credit goes to an invoice that existed when the transfer was seen, for the reason its rule names |
| `PooledMatching.SameValue` | apps/api/src/domain/pooled-matching.ts:141-147 | Amounts are the same exactly when they are equal multiplied crosswise by the powers of ten of each other's decimals |
| `MatchingRules.ExactAmountDecides` | apps/api/src/domain/pooled-matching.ts:140-168 | A transfer that pays exactly one candidate, or exactly one open one, is credited to it: as the exact amount when it is open, as a late one when it closed within a day |
| `MatchingRules.ExactAmountIsAmbiguous` | apps/api/src/domain/pooled-matching.ts:158-169 | Of two it pays exactly, both open or none of them, an operator decides |
| `MatchingRules.SenderDecides` | apps/api/src/domain/pooled-matching.ts:172-189 | With no exact amount, the one invoice its sender paid toward within a day and that is not paid or expired gets it; of several none does |
| `MatchingRules.OpenInvoiceDecides` | apps/api/src/domain/pooled-matching.ts:191-200 | With neither, the only open invoice gets it; with none open it is too late, with several it is ambiguous |
| `PooledMatching.ExactAmountReachesItsInvoice` | apps/api/src/domain/pooled-matching.ts:137-157 | A transfer worth exactly one candidate's amount, in whatever decimals its own token has, is credited to it within 24 hours of its deadline, whatever else is there; whether it is the candidate's token is said |
| `PooledMatching.StraysAreParked` | apps/api/src/domain/pooled-matching.ts:137-200 | With no exact amount and no known sender a transfer is parked as ambiguous exactly when several invoices are open |
| `PooledMatching.SurvivorGetsTheStray` | apps/api/src/domain/pooled-matching.ts:191-200 | Once one of those invoices is left open, the transfer is credited to it as sole candidate exactly when its sender is completing none |
| `PooledMatching.SurvivorGetsTheQuietStray` | apps/api/src/domain/pooled-matching.ts:172-200 | So it is when the sender paid nothing new and no closed invoice is short again |
| `PooledMatching.ReversalDivertsTheStray` | apps/api/src/domain/pooled-matching.ts:172-186 | Without the latter it can go to another invoice: a concrete case |
| `CreditingRuns.RecomputeAgrees` | apps/api/src/domain/payment-sink.ts:793-831 | Recomputing one invoice makes all totals and statuses agree again when the others already do |
| `CreditingRuns.InsertKeepsCore` | apps/api/src/domain/payment-sink.ts:241-311 | Inserting a payment keeps keys unique and totals in agreement |
| `CreditingRuns.ReverseKeepsCore` | apps/api/src/domain/payment-sink.ts:441-475 | So does a reversal |
| `CreditingRuns.ExpireKeepsCore` | apps/api/src/domain/invoice-expiry.ts:63-76 | So does expiry |
| `CreditingRuns.NewEntries` | apps/api/src/domain/commission-ledger.ts:127-233 | What the first accrual and recovery of a payment add to the balance, and that nothing else changes |
| `CreditingRuns.ReverseEntry` | apps/api/src/domain/commission-ledger.ts:164-195 | A reversal gives the accrued commission back once, and leaves recoveries alone |
| `CreditingRuns.InsertConserves` | apps/api/src/domain/payment-sink.ts:289-309 | Inserting a payment keeps the balance equal to human entries plus what payments leave on it |
| `CreditingRuns.InsertKeepsBooks` | apps/api/src/domain/payment-sink.ts:289-309 | And each payment's accrual is its commission, present exactly when that is not zero |
| `CreditingRuns.ReverseKeepsBooks` | apps/api/src/domain/payment-sink.ts:491-496 | A reversal keeps both |
| `CreditingSafety.PooledTargetFacts` | apps/api/src/domain/payment-sink.ts:605-719 | At a shared wallet a transfer already credited is matched to where it was credited; any other credit is to an invoice on its chain |
| `CreditingSafety.ReplayTarget` | apps/api/src/domain/payment-sink.ts:620-638 | A parked transfer that has been credited can only be matched to the invoice it was credited to |
| `CreditingSafety.AttachKeepsInv` | apps/api/src/domain/reconciliation-service.ts:266-303 | An operator's attachment keeps every invariant |
| `CreditingSafety.StepKeepsInv` | apps/api/src/domain/payment-sink.ts:185-366 | Every call keeps: unique payment keys, payments on their own chain, totals and statuses, the ledger's balance, one model per address, and attached rows that are payments; and payment rows only ever gain a reversal |
| `CreditingSafety.RunKeepsInv` | apps/api/src/domain/payment-sink.ts:112-520 | So does every run of calls, in any order |
| `CreditingSafety.TotalsAgreeAfterEveryRun` | apps/api/src/domain/payment-sink.ts:770-831 | After every run amountPaid is the sum of credited amounts over unreversed rows, and the status is pending, confirming or expired exactly when that is 0 and otherwise its classification |
| `CreditingRules.CreditedTransfer` | apps/api/src/domain/payment-sink.ts:221-311 | Crediting adds one row, with the transfer's key, amount and sender, its invoice, its value and the time, unreversed, and with a credited amount exactly in another token: the value in the invoice's token, rounded down; the invoice's total is then its rows' and that amount's sum |
| `CreditingRules.ConvertedAmount` | apps/api/src/domain/payment-sink.ts:230-237 | Another token counts for the largest amount of the invoice's whose price is at most the transfer's value; without both prices for nothing |
| `CreditingRules.PaymentCounts` | apps/api/src/domain/payment-sink.ts:770-779 | A row adds its credited amount, or else its amount, to its own invoice's total, unless it was reversed |
| `CreditingRules.StatusByTolerance` | apps/api/src/domain/payment-sink.ts:801-818 | Underpaid and overpaid is what is off by more than the tolerance of the amount due, in ten-thousandths; anything else above zero is paid |
| `CreditingRules.StatusAfterEveryRun` | apps/api/src/domain/payment-sink.ts:801-818 | After every run that is the status of every invoice with money on it |
| `CreditingRules.OutcomeOf` | apps/api/src/domain/payment-sink.ts:185-268 | Which of the five outcomes a call has: by confirmations, target, prices, and whether the transfer has a row, in this order |
| `CreditingRules.StrayTransfer` | apps/api/src/domain/payment-sink.ts:722-751 | A stray is put in the queue as it was sent, once, with its reason and its token if the catalogue has it, and nothing else changes |
| `CreditingRules.QueueRow` | apps/api/src/domain/payment-sink.ts:264-315 | When a transfer from the queue is credited or known, its pending row is marked attached to the invoice; no other call changes a row |
| `CreditingRules.CandidateIs` | apps/api/src/domain/payment-sink.ts:643-671 | The candidates are the invoices at the address that are pending or confirming or closed for less than 24 hours, as their rows have them |
| `CreditingRules.PriorIs` | apps/api/src/domain/payment-sink.ts:673-693 | The prior payments are the unreversed rows of the last 24 hours on those invoices |
| `CreditingRules.MemoDecides` | apps/api/src/domain/payment-sink.ts:528-535 | A memo that an invoice of the chain has decides alone |
| `CreditingRules.AddressDecides` | apps/api/src/domain/payment-sink.ts:576-589 | At an address that is not shared, the invoice is one with that address |
| `CreditingRules.UnknownAddress` | apps/api/src/domain/payment-sink.ts:581 | At an address no invoice has, the transfer is nobody's |
| `CreditingRules.SharedWalletTarget` | apps/api/src/domain/payment-sink.ts:605-719 | At a shared wallet the rules decide about the transfer as it was sent, unless it has a row |
| `CreditingRules.AttachedTransfer` | apps/api/src/domain/reconciliation-service.ts:225-303 | An attachment goes through exactly for a pending row, an invoice of its chain and a transfer without a row; it records the amount sent, at no dollar value |
| `CreditingRules.AttachmentRefused` | apps/api/src/domain/reconciliation-service.ts:225-299 | Otherwise the refusal is the first that applies |
| `CreditingSafety.LedgerConservedAfterEveryRun` | apps/api/src/domain/payment-sink.ts:289-309 | After every run a balance is human entries, minus the commissions of unreversed payments, plus the recoveries of all payments ever credited, unpriced ones counting 0 |
| `CreditingSafety.CountedOnce` | apps/api/src/domain/payment-sink.ts:256-268 | A transfer that counted toward an invoice never counts toward another, then or later |
| `CreditingSafety.ReversedForGood` | apps/api/src/domain/payment-sink.ts:257-268 | A transfer whose credit was withdrawn is never counted again, whatever is presented |
| `CreditingSafety.AttachedIsPaid` | apps/api/src/domain/payment-sink.ts:753-763 | A parked transfer marked attached is a payment of the invoice it names |
| `CreditingReplay.RepeatIsInvisible` | apps/api/src/domain/payment-sink.ts:256-268 | A call about a transfer that has a payment row leaves invoices, payments and ledger alone, from the watcher, the sweep or an operator |
| `CreditingReplay.SweepOfCredited` | apps/api/src/domain/payment-sink.ts:264-268 | The sweep of such a transfer changes at most its own queue row |
| `CreditingReplay.Lockstep` | apps/api/src/domain/payment-sink.ts:185-366 | Tables that differ only in queue rows of credited transfers stay so under every call |
| `CreditingReplay.PaddingIsInvisible` | apps/api/src/domain/payment-sink.ts:185-366 | A run with any number of such calls put in anywhere ends with the same invoices, payments and ledger |
| `CreditingReplay.RepetitionsDoNotCount` | apps/api/src/domain/payment-sink.ts:256-268 | From empty tables: no total, status or balance changes |
| `CreditingReplay.RepeatIsReportedDuplicate` | apps/api/src/domain/payment-sink.ts:264-268 | At a shared wallet a final transfer presented again is reported as a duplicate and changes nothing at all |
| `ParkedSurvivors.OneTarget` | apps/api/src/domain/payment-sink.ts:576-584 | A transfer at a shared wallet whose memo no invoice has, has one target, the one the rules give |
| `ParkedSurvivors.StrayIsParked` | apps/api/src/domain/payment-sink.ts:722-751 | A new stray has one target, the queue, and its call does nothing but add its row |
| `ParkedSurvivors.RunKeepsQueue` | apps/api/src/domain/payment-sink.ts:722-763 | No run of calls removes a queue row or changes in it anything but how it was resolved |
| `ParkedSurvivors.CandidatesLater` | apps/api/src/domain/payment-sink.ts:643-671 | The candidates at a later moment are the earlier ones, invoices issued since, or ones that had been closed for over a day and reopened |
| `ParkedSurvivors.WasShortBefore` | apps/api/src/domain/payment-sink.ts:793-831 | While no payment is withdrawn, an invoice that was paid part of and is short now was short then |
| `ParkedSurvivors.SweepCreditsTheSurvivor` | apps/api/src/domain/payment-sink.ts:112-183 | A stray is parked, any calls follow and one invoice is left open for it: the sweep has that invoice as its only target and credits it, at the amount or by value in another token, exactly when the sender is completing none |
| `ParkedSurvivors.QuietStrayReachesTheSurvivor` | apps/api/src/domain/payment-sink.ts:112-183 | So it does whenever nothing was withdrawn, the sender paid nothing else, and what they had paid before counts for something |
| `InvoiceExpiry.ReversalReopens` | apps/api/src/domain/payment-sink.ts:806-811 | A reversal leaves an invoice expired exactly when it was marked expired before; with its last payment gone it is otherwise pending |
| `InvoiceExpiry.ExpiryIsNotAbsorbing` | apps/api/src/domain/payment-sink.ts:806-811 | A run: issued, expired, paid in full late, reversed, and pending |
| `PaymentSinks.PaymentSink.constructor` | apps/api/src/domain/payment-sink.ts:65-98 | A new sink has empty tables, no queue, and all invariants |
| `PaymentSinks.PaymentSink.ParkUnmatchedIn` | apps/api/src/domain/payment-sink.ts:108-110 | Wiring the queue changes nothing else |
| `PaymentSinks.PaymentSink.AmountPaid` | apps/api/src/domain/payment-sink.ts:770-779 | The loop returns the sum of credited amounts over the invoice's unreversed rows |
| `PaymentSinks.PaymentSink.Recompute` | apps/api/src/domain/payment-sink.ts:793-831 | Total, status and first full payment are updated as the tables' function says |
| `PaymentSinks.PaymentSink.Accrue` | apps/api/src/domain/commission-ledger.ts:127-155 | The ledger gains the commission, negative, unless it is zero or already there |
| `PaymentSinks.PaymentSink.Recover` | apps/api/src/domain/commission-ledger.ts:206-233 | The ledger gains what was recovered, unless it is zero or already there |
| `PaymentSinks.PaymentSink.ReverseAccrual` | apps/api/src/domain/commission-ledger.ts:164-195 | The ledger gains the reverse of the accrual, if there is one and it was not reversed already |
| `PaymentSinks.PaymentSink.Balance` | apps/api/src/domain/commission-ledger.ts:84-92 | The loop returns the sum of an organisation's entries |
| `PaymentSinks.PaymentSink.Record` | apps/api/src/domain/commission-ledger.ts:241-265 | A zero amount and a note of nothing but white space, as `trim` has it, are refused; otherwise one human entry is added |
| `PaymentSinks.PaymentSink.CandidateRows` | apps/api/src/domain/payment-sink.ts:643-671 | The rows gathered are the open or recent invoices at the address, each once |
| `PaymentSinks.PaymentSink.PriorRows` | apps/api/src/domain/payment-sink.ts:673-693 | The rows gathered are the unreversed payments of the last day to those invoices |
| `PaymentSinks.PaymentSink.MatchPooled` | apps/api/src/domain/payment-sink.ts:605-719 | The target at a shared wallet is where the transfer is, or the rules' decision, whatever order rows came in |
| `PaymentSinks.PaymentSink.Match` | apps/api/src/domain/payment-sink.ts:522-590 | Memo first, then address; the target is one the matching relation allows |
| `PaymentSinks.PaymentSink.Park` | apps/api/src/domain/payment-sink.ts:722-751 | The transfer is put in the queue with its asset; one already there is left as it is |
| `PaymentSinks.PaymentSink.ResolveParked` | apps/api/src/domain/payment-sink.ts:753-763 | A pending row is marked attached, any other is left |
| `PaymentSinks.PaymentSink.Process` | apps/api/src/domain/payment-sink.ts:185-366 | Tables and outcome are those of one step with the target found: deferred, unmatched, duplicate, credited or refused |
| `PaymentSinks.PaymentSink.Credit` | apps/api/src/domain/payment-sink.ts:112-114 | A call is one presentation of the transfer at its price and the confirmations its chain asks for, and keeps all invariants; when it credits, the rows are those before and one that records the transfer, and otherwise no row changes |
| `PaymentSinks.PaymentSink.PendingStrays` | apps/api/src/domain/payment-sink.ts:126-136 | The oldest pending strays at shared wallets, oldest first, at most the limit, and none passed over |
| `PaymentSinks.PaymentSink.Reexamine` | apps/api/src/domain/payment-sink.ts:139-181 | Each row is one sweep step, final and without its memo, and touches no other row |
| `PaymentSinks.PaymentSink.SweepRows` | apps/api/src/domain/payment-sink.ts:138-182 | The loop runs those steps row by row and counts the rows that end up attached |
| `PaymentSinks.PaymentSink.SweepParked` | apps/api/src/domain/payment-sink.ts:125-183 | The pass is a run of sweep steps; the count returned is how many of its rows are attached afterwards |
| `PaymentSinks.PaymentSink.Reverse` | apps/api/src/domain/payment-sink.ts:441-520 | A call is one reversal step |
| `PaymentSinks.PaymentSink.Attach` | apps/api/src/domain/reconciliation-service.ts:225-326 | Refused with the reason the tables give, in the code's order; otherwise one attachment step and the invoice's new status |
| `PaymentSinks.PaymentSink.ResolveWithout` | apps/api/src/domain/reconciliation-service.ts:337-383 | Refused when unknown or already resolved; otherwise the row is marked and nothing else changes |
| `PaymentSinks.PaymentSink.ExpireInvoices` | apps/api/src/domain/invoice-expiry.ts:39-100 | Closes at most 500 due invoices and nothing else; fewer only when no other is due |
| `Commission.RecoveryBpsFor` | apps/api/src/domain/commission-ledger.ts:292-331 | The rate never exceeds the recovery cap nor what is left under the forwarder's ceiling |
| `Commission.RecoveryFitsDebt` | apps/api/src/domain/commission-ledger.ts:309-330 | What a recovery collects is at most what is owed, when no more is paid than was quoted |
| `Commission.RecoveryCollects` | apps/api/src/domain/commission-ledger.ts:309-330 | For values of 10,000 micro-dollars and more it collects something exactly when the value is at most the debt times 10,000 and there is room for a rate |
| `Commission.RecoveryIsLargest` | apps/api/src/domain/commission-ledger.ts:314-330 | The rate is the largest that fits the caps and collects no more than is owed |
| `Commission.NeverOverCollects` | apps/api/src/domain/commission-ledger.ts:206-331 | Over every sequence of new commissions and of invoices each sized against the balance it is paid on, a balance that is not positive never becomes positive |
| `Commission.DebtIsCollected` | apps/api/src/domain/commission-ledger.ts:206-331 | As many such invoices as the debt has micro-dollars bring it below a ten-thousandth of one invoice |
| `Commission.OverlappingRecoveriesOvershoot` | apps/api/src/domain/commission-ledger.ts:286-290 | Two invoices sized against one balance and both paid collect it twice: a concrete case |
| `Commission.InFlightTogether` | apps/api/src/domain/commission-ledger.ts:286-331 | Invoices sized against one balance, each at its own plan, network cost and value, never over-collect it, in however many parts they are paid within their quotes, exactly when their cuts at the quoted values sum to at most the debt |
| `Commission.AlikeInFlight` | apps/api/src/domain/commission-ledger.ts:286-331 | For n invoices quoted alike: exactly when n times the cut of one is at most the debt |
| `Commission.PaidInParts` | apps/api/src/domain/commission-ledger.ts:286-331 | One invoice paid in parts within its quote collects no more than is owed |
| `RecoveryRuns.BalanceMoves` | apps/api/src/domain/commission-ledger.ts:127-233 | Every call moves an organisation's balance by what it inserts, gives back or enters, all known before the call |
| `RecoveryRuns.StaysOwed` | apps/api/src/domain/commission-ledger.ts:127-265 | After a call the organisation is owed nothing exactly when what the call adds is at most the debt |
| `RecoveryRuns.ReversalLifts` | apps/api/src/domain/commission-ledger.ts:164-195 | A reversal turns a debt into a credit exactly when the payment was live, the organisation's, and its commission is more than is owed |
| `RecoveryRuns.PaymentInTurnFits` | apps/api/src/domain/commission-ledger.ts:206-331 | A recovery sized at issue takes at most the debt when the invoice is paid, in all its parts, no more than was quoted and only those parts have raised the balance since |
| `RecoveryRuns.OwedThroughoutExactly` | apps/api/src/domain/commission-ledger.ts:127-265 | Over every run the organisation is never owed anything exactly when no call adds more than is owed when it comes |
| `RecoveryRuns.NeverOwedAfterARun` | apps/api/src/domain/commission-ledger.ts:127-331 | After every run of calls in which recoveries are sized from the ledger at issue, none is paid after others raised the balance, and no reversal or human entry adds more than is owed, an organisation is never owed anything |
| `Commission.RecoveryOnTheLedger` | apps/api/src/domain/commission-ledger.ts:206-233 | The ledger's balance moves by exactly that amount, and stays at most zero |
| `Commission.DisclosureAddsUp` | apps/api/src/domain/commission-ledger.ts:406-423 | The lines shown to a payer sum to the total, none is negative, the commission's is at most one unit over its floor; a disclosure exists exactly for rates within the ceiling |
| `Commission.PayerIsShown` | apps/api/src/domain/commission-ledger.ts:352-391 | A payer who bears the fee is charged all of it but the recovery, any other only the network's cost |
| `Commission.FeeInUnits` | packages/core/src/fees/fee-payer.ts:58-66 | Rates over 500 are refused; a lower one takes its part of an amount, rounded down, and nothing of nothing |
| `Commission.PartsOfTheFee` | apps/api/src/domain/fee-plan-service.ts:540-562 | Commission, recovery and network cost floored per payment sum to at most the floor of the whole fee and fall at most 2 short |
| `Commission.PartsCanFallTwoShort` | apps/api/src/domain/fee-plan-service.ts:540-562 | And two short is reached |
| `FeePlans.Ladder` | apps/api/src/domain/fee-plan-service.ts:57-86 | The published ladder: 40 basis points from $250,000 a month, 45 from $50,000, 50 below |
| `FeePlans.MoreVolumeNeverCostsMore` | apps/api/src/domain/fee-plan-service.ts:57-86 | A larger volume never has a higher rate |
| `FeePlans.NextTierIsTheNextChange` | apps/api/src/domain/fee-plan-service.ts:896-907 | The next rung shown is where the rate next changes, and to what; no rung means it never does |
| `FeePlans.FeePartsFit` | apps/api/src/domain/fee-plan-service.ts:251-324 | A merchant with a rate is charged exactly when the invoice is pooled or its chain has a collector; recovery and network cost fit in the fee, the fee in 500; the last clamp bites exactly for plan rates over 500; the payer's surcharge is the plan's rate on both paths |
| `FeePlans.ChargedFeesAreDisclosed` | apps/api/src/domain/commission-ledger.ts:406-423 | Every fee charged can be disclosed, whoever pays it |
| `FeePlans.RecoveryWaits` | apps/api/src/domain/fee-plan-service.ts:282-302 | When the network's cost did not fit, nothing is recovered and the fee is at the ceiling |
| `FeePlans.NetworkCost` | apps/api/src/domain/fee-plan-service.ts:282-302 | The network's cost is charged as estimated, or as much of it as the merchant's rate leaves of 500; not without a value |
| `FeePlans.RecoveryCharged` | apps/api/src/domain/fee-plan-service.ts:282-316 | The recovery charged is the largest rate up to 200 that fits beside the other two under 500 and takes no more of the value than is owed; without a ledger, a value or a debt there is none |
| `FeePlans.NothingToCharge` | apps/api/src/domain/fee-plan-service.ts:251-281 | Without a plan nothing is charged; at a rate of zero only the network's cost and a recovery are |
| `FeePlans.PartsOfACharge` | apps/api/src/domain/fee-plan-service.ts:294-323 | The floors of a charged fee's parts are within 2 of the floor of the whole |
| `Calendar.YearStarts` | apps/api/src/domain/fee-plan-service.ts:915-924 | Months add up to Gregorian years: a leap day every fourth year, not in centuries, but in every fourth of those |
| `Calendar.NewYear` | apps/api/src/domain/fee-plan-service.ts:915-924 | The instant a year begins, in milliseconds by plain arithmetic from the number of the year |
| `Calendar.MonthAndDay` | apps/api/src/domain/fee-plan-service.ts:915-924 | How long each month is, and what day and time of day add to the instant it begins |
| `Calendar.EarlierDate` | apps/api/src/domain/fee-plan-service.ts:915-924 | Dates are ordered as their instants |
| `Calendar.UtcDate.SetMonth` | apps/api/src/domain/fee-plan-service.ts:919 | Setting the month alone carries days that do not fit into the next month |
| `Calendar.MovedByMonths` | apps/api/src/domain/fee-plan-service.ts:915-924 | The mutations of the date amount to the same day so many months on, clamped |
| `Calendar.AddMonthsMovesForward` | apps/api/src/domain/fee-plan-service.ts:915-924 | Whole months added are at least 28 days, and one month at most 31 |
| `Calendar.PlainMonthRollsOver` | apps/api/src/domain/fee-plan-service.ts:909-914 | Without setting the day first, a month from a day the next month lacks would land in the month after |
| `Calendar.StepsDrift` | apps/api/src/domain/fee-plan-service.ts:915-924 | Two steps are one longer step exactly when the first does not clamp further than the second |
| `FeePeriods.VolumeByGroups` | apps/api/src/domain/fee-plan-service.ts:508-512 | Summing by source and then by trust is summing each payment's contribution, for every source and for none |
| `FeePeriods.OneMorePayment` | apps/api/src/domain/fee-plan-service.ts:459-520 | One payment more, if live, unreversed and in the half-open window, adds its value to the verified or the declared volume by its source, or one to the unpriced |
| `FeePeriods.ReportedGoesUncounted` | apps/api/src/domain/fee-plan-service.ts:508-512 | The volume is what it would be with merchants' own reports exactly when those are worth nothing |
| `FeePeriods.AssessedVolume` | apps/api/src/domain/fee-plan-service.ts:459-520 | The loop over sources returns the verified, declared and unpriced volume of the half-open window |
| `FeePeriods.FeePlanService.EnsureForOrganization` | apps/api/src/domain/fee-plan-service.ts:676-698 | The plan there is, or a new one at the entry rate whose first period starts now |
| `FeePeriods.FeePlanService.SetFeeBps` | apps/api/src/domain/fee-plan-service.ts:401-431 | Rates outside 0 to 500 and unknown merchants are refused; otherwise the rate is set and marked negotiated |
| `FeePeriods.FeePlanService.ClosePlan` | apps/api/src/domain/fee-plan-service.ts:813-855 | One plan is assessed over the period it closes, moved to its tier and to the next period |
| `FeePeriods.FeePlanService.ClosePeriods` | apps/api/src/domain/fee-plan-service.ts:791-887 | Exactly the plans whose period ended are closed, each once and all counted, and each rate that moved is reported once and no other |
| `FeePeriods.CloseIs` | apps/api/src/domain/fee-plan-service.ts:813-855 | A close leaves a negotiated rate and sets any other by its volume from the thresholds 50 and 250 thousand dollars; the next period is from the old end to so many months on |
| `FeePeriods.ReportedIs` | apps/api/src/domain/fee-plan-service.ts:831-887 | A change is reported for a plan exactly when the close changed its rate, with the rates before and after and the volume |
| `FeePeriods.CloseKeepsDates` | apps/api/src/domain/fee-plan-service.ts:814-828 | The next period starts where the closed one ended and ends at least 28 days later |
| `FeePeriods.CloseAllKeepsPlans` | apps/api/src/domain/fee-plan-service.ts:791-887 | Every rate stays one the forwarder can deliver |
| `PeriodTiling.WindowsMeet` | apps/api/src/domain/fee-plan-service.ts:491-499 | Half-open windows that meet share nothing and leave nothing out |
| `PeriodTiling.PeriodsTile` | apps/api/src/domain/fee-plan-service.ts:813-830 | Volumes assessed over consecutive closes of a plan sum to the volume of the whole span |
| `PeriodTiling.EachPaymentAssessedOnce` | apps/api/src/domain/fee-plan-service.ts:482-499 | Each payment of the span is assessed in exactly one of them |
| `PeriodTiling.CatchUpTerminates` | apps/api/src/domain/fee-plan-service.ts:801-830 | Repeated calls at one moment reach a state with nothing to close, one call for each four weeks the slowest plan is behind |
| `PeriodTiling.EveryPlanCatchesUp` | apps/api/src/domain/fee-plan-service.ts:801-830 | For every set of plans there is a number of calls that leaves nothing to close |
| `PeriodTiling.SecondCallDoesNothing` | apps/api/src/domain/fee-plan-service.ts:777-778 | A second call at the same moment does nothing exactly when no plan was two periods behind |
| `PeriodTiling.SecondCallCanMatter` | apps/api/src/domain/fee-plan-service.ts:777-778 | A plan two months behind is closed again by a second call at the same moment: a concrete case |
| `PayoutHistory.RequestKeepsInv` | apps/api/src/domain/payout-service.ts:194-306 | A request keeps the history a chain: the first address at once, another behind the delay |
| `PayoutHistory.RequestRefused` | apps/api/src/domain/payout-service.ts:194-245 | A request is refused for its chain, its address, as no change, or because a change is pending, in this order, and exactly then |
| `PayoutHistory.AppliedChange` | apps/api/src/domain/payout-service.ts:400-426 | A change that takes effect supersedes the address it names, if nothing has, and adds its own, at one moment; no other row changes |
| `PayoutHistory.CancelKeepsInv` | apps/api/src/domain/payout-service.ts:331-373 | So does a cancellation |
| `PayoutHistory.ApplyKeepsInv` | apps/api/src/domain/payout-service.ts:400-426 | So does a change taking effect |
| `PayoutHistory.ApplyEachKeepsInv` | apps/api/src/domain/payout-service.ts:382-441 | All due changes, one after the other, are applied and no other is touched |
| `PayoutHistory.OneAddressAtATime` | apps/api/src/domain/payout-service.ts:129-142 | At every moment from a slot's first address on, exactly one address was active |
| `PayoutAddresses.RunKeepsInv` | apps/api/src/domain/payout-service.ts:194-441 | Every run at non-decreasing times keeps all of this |
| `PayoutAddresses.OneAnswerAfterEveryRun` | apps/api/src/domain/payout-service.ts:194-441 | After every run there is one answer to which address was active at a moment |
| `PayoutAddresses.ReplacementsWaited` | apps/api/src/domain/payout-service.ts:261-278 | After every run an address that is not the first comes from a change nobody cancelled that waited at least the delay |
| `PayoutAddresses.OutstandingNamesTheActive` | apps/api/src/domain/payout-service.ts:226-234 | After every run a change that may still happen names the active address, and is the only one of its slot |
| `PayoutAddresses.PastIsSettled` | apps/api/src/domain/payout-service.ts:400-411 | Later calls never change which address was active at an earlier moment |
| `PayoutAddresses.AnswerIs` | apps/api/src/domain/payout-service.ts:246-306 | A request that is not refused is active at once exactly when the slot has no address, and otherwise waits out the delay |
| `PayoutAddresses.PayoutAddressService.ActiveAddress` | apps/api/src/domain/payout-service.ts:129-142 | The address returned is the one active now, and there is one exactly from the first on |
| `PayoutAddresses.PayoutAddressService.RequestChange` | apps/api/src/domain/payout-service.ts:194-306 | Answer and tables are those of one request, with the refusals in the code's order |
| `PayoutAddresses.PayoutAddressService.CancelChange` | apps/api/src/domain/payout-service.ts:331-373 | Refusals in the code's order; otherwise the change is marked cancelled |
| `PayoutAddresses.PayoutAddressService.ApplyOne` | apps/api/src/domain/payout-service.ts:400-426 | The address named is superseded and the new one inserted, at one moment |
| `PayoutAddresses.PayoutAddressService.ApplyDueChanges` | apps/api/src/domain/payout-service.ts:382-441 | All due changes are applied, each once, and none is due afterwards |
| `Base32.ShiftInHolds` | apps/api/src/auth/totp.ts:21 | Shifting bits into 32 loses only the oldest: the pending ones stay the lowest |
| `Base32.ShiftOutHolds` | apps/api/src/auth/totp.ts:24-25 | Shifting right leaves the oldest pending bits lowest |
| `Base32.Base32Encode` | apps/api/src/auth/totp.ts:15-30 | The loops write the bits of the bytes five at a time, the last group filled with zeros |
| `Base32Groups.BytesInGroupsOf` | apps/api/src/auth/totp.ts:15-49 | The groups of any bytes hold exactly the bytes |
| `Base32Groups.GroupsOfBytesIn` | apps/api/src/auth/totp.ts:32-49 | Groups are those of the bytes in them exactly when fewer than five bits are left over and all are zero |
| `Base32Text.DecodedOfEncoded` | apps/api/src/auth/totp.ts:15-49 | Encoded text is of the alphabet and decodes to the bytes |
| `Base32Text.EncodedOfDecoded` | apps/api/src/auth/totp.ts:32-49 | Decoded text encodes to itself exactly when it is canonical |
| `Base32Text.AlphabetIs` | apps/api/src/auth/totp.ts:13 | Values below 26 are the letters from A, the others the digits from 2 |
| `Base32Decode.Base32Decode` | apps/api/src/auth/totp.ts:32-49 | The loop returns the bytes of the cleaned text, or the first character that is not of the alphabet |
| `Base32Decode.RoundTrip` | apps/api/src/auth/totp.ts:15-49 | Decoding what was encoded gives the bytes and nothing else, for every byte sequence |
| `Base32Decode.DecorationIsIgnored` | apps/api/src/auth/totp.ts:33 | Case, white space and padding at the end make no difference |
| `Base32Decode.TypedTextIsRead` | apps/api/src/auth/totp.ts:33 | Encoded text in lower case, with white space anywhere in it and padding after it, decodes to the bytes |
| `Base32Decode.PaddingBeforeSpaceIsRefused` | apps/api/src/auth/totp.ts:33 | White space after the padding makes the text invalid |
| `Base32Decode.AcceptedExactly` | apps/api/src/auth/totp.ts:32-49 | A text is accepted exactly when, upper-cased, its characters but padding and white space are of the alphabet and stripping the padding at its end leaves none; the bytes are then those of these characters |
| `Base32Decode.PaddingMustComeLast` | apps/api/src/auth/totp.ts:33 | Text whose characters are encoded bytes decodes to them exactly when all its padding is at its very end |
| `UnitFormats.FormatIsExact` | packages/ui-format/src/index.ts:33-49 | What is printed is exactly amount/10^decimals, with no zero that could be left out |
| `UnitFormats.FormatRefuses` | packages/ui-format/src/index.ts:33-41 | Refused is exactly what is not digits behind at most one minus sign, and decimals below 0 or above 36 |
| `UnitFormats.ParserReadsPrinter` | integrations/woocommerce/includes/class-avex-client.php:174-200 | The parser reads a printed amount as millionths, truncated toward zero, without redundant zeros and without a sign on zero |
| `UnitFormats.ParserIsTotal` | integrations/woocommerce/includes/class-avex-client.php:174-200 | Whatever text it is given, the parser answers with a canonical integer |
| `UnitFormats.AnyTextIsRead` | integrations/woocommerce/includes/class-avex-client.php:174-200 | Of any text, spaces around it aside, the answer is its sign and the digits before its first point and after it as a number of millionths, the rest cut off |
| `UnitFormats.MicrosRoundTrip` | integrations/woocommerce/includes/class-avex-client.php:174-200 | At six decimals the parser gives back the canonical form of the amount, -0 becoming 0 |
| `UnitFormats.PrintedAlike` | packages/ui-format/src/index.ts:33-49 | Amounts printed alike are the same number with the same sign |
| `DecimalText.WrittenOneWay` | packages/ui-format/src/index.ts:180-183 | Digits without zeros in front are determined by their number |

## Left out

- Crashes and interleavings inside one call: each service call is one atomic step, although `process` inserts and
  recomputes without a transaction and `applyDueChanges` works from a snapshot.
- Everything crediting tells others: audit rows, webhooks and mail, with the transition tests that decide them.
- The watcher, the wallet-pool allocator, quotes, prices and chain policy: what a transfer is worth, the unit price of
  a token, the confirmations asked for and the network's fee estimate are parameters, arbitrary and not negative.
- Payment and parked-row identifiers: a row is named by its chain, transaction and position, and the ledger's key on
  payment and kind by the same. Parsing the text form of that key in `reverse`, with its error, is not modelled.
- When an invoice was first paid is kept as whether it was; resolution notes, staff and times of resolution are dropped.
- PaymentSinks.PaymentSink.Match: compares addresses by their keys. Computing the key of an address (lower case on
  hexadecimal chains, the canonical form on the others, in `packages/core/src/chains/address-key.ts`) is not part of
  this model; nor is an address in its chain's stored form, or the refusal of one that is none, which is a parameter of
  the payout service.
- Tokens of more than 36 decimals, on which the comparison of amounts throws: 36 is the most a token has here.
- The credit limit past which no pooled invoice is opened, which compares the balance with a constant.
- `simulatePayment` and `recordStarsPayment`, which write payments of test and Stars invoices, and checkout option quoting.
- The QR masks and the choice among them, the format information and the drawing as SVG: the results hold for any mask
  and whatever the format cells show, and a reader is taken to know version, level and mask. The UTF-8 bytes of a text
  are its payload.
- Totals per account and platform-wide revenue sums over payments: only the arithmetic of one payment is modelled.
- Base32Decode.Base32Decode: a refusal names the first bad character in upper case; one outside ASCII that does not
  become letters of ASCII is refused as in the source, but named as it was given.
- That invoices at one chain and address share an address model is a remark in the source and no key of the database,
  which keeps only the addresses of one-invoice wallets apart. It is assumed of issuing (`CreditingRuns.Issuable`);
  `CreditingSafety.AttachedIsPaid` and the results of `CreditingReplay` and `ParkedSurvivors` rest on it.
- An invoice issued in the same millisecond in which a transfer is seen is a candidate for it; the results of
  `ParkedSurvivors` are about runs that issue invoices later than that.
- The check constraint on a plan's rate is an invariant of `FeePlanService`; the arithmetic of `feeFor` is proved
  without it.
- Cryptography, sessions, roles, HTTP, SQL mechanics, dashboards, the service worker and the rest of the WooCommerce plugin.
